// The read route of the site: it asks the worker for its key listing,
// fetches each key but the reserved call window, and returns the casts it
// could fetch, in listing order.
module CastsRoute {
  import opened Common
  import opened JsonValues

  /** The listing entry that names the rate limiter's window. */
  const ReservedKey := JStr("api_calls")

  datatype ReplyBody = Unparseable(message: string) | Parsed(data: Json)

  /** One `fetch` to the worker: it throws (with the error's message) or answers. */
  datatype Fetched = Threw(message: string) | Reply(status: nat, body: ReplyBody)

  datatype RouteResponse = RouteResponse(status: nat, body: Json)

  /** `typeof data === 'object' && data && 'storedKeys' in data && Array.isArray(data.storedKeys)`. */
  function StoredKeysOf(data: Json): Option<seq<Json>> {
    match data
    case JObj(members) =>
      if "storedKeys" in members && members["storedKeys"].JArr? then Some(members["storedKeys"].items)
      else None
    case _ => None
  }

  /** A key whose fetch makes the whole route fail: it throws, or answers ok with a body that does not parse. */
  predicate Breaks(fetch: Json -> Fetched, key: Json) {
    key != ReservedKey &&
    match fetch(key)
    case Threw(_) => true
    case Reply(status, body) => IsOk(status) && body.Unparseable?
  }

  /** A key whose fetch yields a cast: not reserved, ok, and parsed. */
  predicate Yields(fetch: Json -> Fetched, key: Json) {
    key != ReservedKey && fetch(key).Reply? && IsOk(fetch(key).status) && fetch(key).body.Parsed?
  }

  /** The walk over the first `n` listed keys: the casts so far, or the first error's message. */
  function Collected(keys: seq<Json>, fetch: Json -> Fetched, n: nat): Result<seq<Json>, string>
    requires n <= |keys|
  {
    if n == 0 then Ok([])
    else match Collected(keys, fetch, n - 1)
      case Err(m) => Err(m)
      case Ok(casts) =>
        var key := keys[n - 1];
        if key == ReservedKey then Ok(casts)
        else match fetch(key)
          case Threw(m) => Err(m)
          case Reply(status, body) =>
            if !IsOk(status) then Ok(casts)
            else match body
              case Unparseable(m) => Err(m)
              case Parsed(cast) => Ok(casts + [cast])
  }

  /** Reference definition: the parsed bodies of the keys that yield a cast, in key order. */
  function YieldedCasts(keys: seq<Json>, fetch: Json -> Fetched): seq<Json> {
    if keys == [] then []
    else
      var first := if Yields(fetch, keys[0]) then [fetch(keys[0]).body.data] else [];
      first + YieldedCasts(keys[1..], fetch)
  }

  /** How many keys are not the reserved one. */
  function Unreserved(keys: seq<Json>): nat {
    if keys == [] then 0 else (if keys[0] != ReservedKey then 1 else 0) + Unreserved(keys[1..])
  }

  lemma {:induction false} YieldedCastsAppend(a: seq<Json>, b: seq<Json>, fetch: Json -> Fetched)
    ensures YieldedCasts(a + b, fetch) == YieldedCasts(a, fetch) + YieldedCasts(b, fetch)
  {
    if a == [] {
      assert a + b == b;
    } else {
      assert (a + b)[1..] == a[1..] + b;
      YieldedCastsAppend(a[1..], b, fetch);
    }
  }

  /**
   * The walk fails exactly when one of the walked keys breaks it; otherwise
   * it returns the casts of the keys that yield one, in listing order, the
   * reserved key and the keys whose fetch is not ok left out.
   */
  lemma {:induction false} CollectedMeaning(keys: seq<Json>, fetch: Json -> Fetched, n: nat)
    requires n <= |keys|
    ensures Collected(keys, fetch, n).Err? <==> exists i :: 0 <= i < n && Breaks(fetch, keys[i])
    ensures Collected(keys, fetch, n).Ok? ==> Collected(keys, fetch, n).value == YieldedCasts(keys[..n], fetch)
  {
    if n > 0 {
      CollectedMeaning(keys, fetch, n - 1);
      assert keys[..n] == keys[..n - 1] + [keys[n - 1]];
      YieldedCastsAppend(keys[..n - 1], [keys[n - 1]], fetch);
      assert [keys[n - 1]][1..] == [];
      if Collected(keys, fetch, n - 1).Err? {
        var i :| 0 <= i < n - 1 && Breaks(fetch, keys[i]);
      }
    }
  }

  /** The reserved key never contributes a cast, wherever it is listed and whatever its fetch would answer. */
  lemma ReservedKeyNeverReturned(a: seq<Json>, b: seq<Json>, fetch: Json -> Fetched)
    ensures YieldedCasts(a + [ReservedKey] + b, fetch) == YieldedCasts(a + b, fetch)
  {
    YieldedCastsAppend(a + [ReservedKey], b, fetch);
    YieldedCastsAppend(a, [ReservedKey], fetch);
    YieldedCastsAppend(a, b, fetch);
    assert [ReservedKey][1..] == [];
    assert YieldedCasts([ReservedKey], fetch) == [] + YieldedCasts([], fetch);
  }

  /** When every key but the reserved one yields a cast, there is one cast per such key. */
  lemma {:induction false} AllFetchedCount(keys: seq<Json>, fetch: Json -> Fetched)
    requires forall i :: 0 <= i < |keys| && keys[i] != ReservedKey ==> Yields(fetch, keys[i])
    ensures |YieldedCasts(keys, fetch)| == Unreserved(keys)
  {
    if keys != [] {
      AllFetchedCount(keys[1..], fetch);
    }
  }

  /** The for loop of the route; a throw inside it leaves the loop with the error. */
  method CollectCasts(keys: seq<Json>, fetch: Json -> Fetched) returns (r: Result<seq<Json>, string>)
    ensures r == Collected(keys, fetch, |keys|)
  {
    var casts: seq<Json> := [];
    for i := 0 to |keys|
      invariant Collected(keys, fetch, i) == Ok(casts)
    {
      var key := keys[i];
      if key != ReservedKey {
        match fetch(key) {
          case Threw(m) =>
            ErrorPersists(keys, fetch, i + 1);
            return Err(m);
          case Reply(status, body) =>
            if IsOk(status) {
              match body {
                case Unparseable(m) =>
                  ErrorPersists(keys, fetch, i + 1);
                  return Err(m);
                case Parsed(cast) =>
                  casts := casts + [cast];
              }
            }
        }
      }
    }
    return Ok(casts);
  }

  /** Once the walk has failed, walking further keeps the same error. */
  lemma {:induction false} ErrorPersists(keys: seq<Json>, fetch: Json -> Fetched, n: nat)
    requires n <= |keys| && Collected(keys, fetch, n).Err?
    ensures Collected(keys, fetch, |keys|) == Collected(keys, fetch, n)
    decreases |keys| - n
  {
    if n < |keys| {
      ErrorPersists(keys, fetch, n + 1);
    }
  }

  function ServerError(message: string): RouteResponse {
    RouteResponse(500, JObj(map["error" := JStr("Internal server error"), "details" := JStr(message)]))
  }

  /**
   * `GET`: 200 with `{casts}` when the listing is ok, has an array
   * `storedKeys` and no walked key breaks; otherwise 500 with an error
   * object carrying the message.
   */
  method Get(listing: Fetched, fetch: Json -> Fetched) returns (resp: RouteResponse)
    ensures resp.status in {200, 500}
    ensures resp.status == 200 <==>
      && listing.Reply? && IsOk(listing.status) && listing.body.Parsed?
      && StoredKeysOf(listing.body.data).Some?
      && forall i :: 0 <= i < |StoredKeysOf(listing.body.data).value| ==>
           !Breaks(fetch, StoredKeysOf(listing.body.data).value[i])
    ensures resp.status == 200 ==>
      resp.body == JObj(map["casts" := JArr(YieldedCasts(StoredKeysOf(listing.body.data).value, fetch))])
    ensures resp.status == 500 ==> resp.body.JObj? && "error" in resp.body.members
  {
    match listing {
      case Threw(m) =>
        return ServerError(m);
      case Reply(status, body) =>
        if !IsOk(status) {
          return ServerError("KV responded with status: " + Decimal(status));
        }
        match body {
          case Unparseable(m) =>
            return ServerError(m);
          case Parsed(data) =>
            match StoredKeysOf(data) {
              case None =>
                return ServerError("Unexpected response structure");
              case Some(keys) =>
                var r := CollectCasts(keys, fetch);
                CollectedMeaning(keys, fetch, |keys|);
                assert keys[..|keys|] == keys;
                match r {
                  case Err(m) =>
                    return ServerError(m);
                  case Ok(casts) =>
                    return RouteResponse(200, JObj(map["casts" := JArr(casts)]));
                }
            }
        }
    }
  }
}
