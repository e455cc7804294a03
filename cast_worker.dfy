// The worker that mirrors the upstream feed into the namespace: the
// per-request dispatch, the rate limiter call and the insert/update/verify
// loop over one fetched batch. The namespace is a field of the Worker class;
// clocks, faults of the namespace and the upstream reply are parameters.
module CastWorker {
  import opened Common
  import opened JsonValues
  import opened CastStore
  import opened RateLimit
  import opened KeyOrder

  /**
   * What the environment does while one fetched cast is processed: the
   * clock reading taken for lastUpdated (milliseconds) and which of the
   * three namespace operations throw (the lookup, the write, the re-read).
   */
  datatype ItemEnv = ItemEnv(now: int, getFails: bool, putFails: bool, verifyFails: bool)

  datatype Action = Insert | Update | Skip

  /** How one item ended: an exception before the counters moved, or the action taken and whether the re-read found the record. */
  datatype ItemOutcome = Threw | Done(action: Action, verified: bool)

  datatype Counts = Counts(newCasts: nat, updatedCasts: nat, verifiedCasts: nat)

  datatype ItemStep = ItemStep(store: map<string, Value>, outcome: ItemOutcome)

  datatype SyncState = SyncState(store: map<string, Value>, counts: Counts)

  /** The re-read after an item counts when it does not throw and finds a record. */
  function Verified(store: map<string, Value>, key: string, env: ItemEnv): bool {
    !env.verifyFails && LookupCast(store, key).Found?
  }

  /** One pass of the loop body for cast `c`. */
  function ProcessItem(store: map<string, Value>, c: UpstreamCast, env: ItemEnv): ItemStep {
    if env.getFails then ItemStep(store, Threw)
    else match LookupCast(store, c.hash)
      case Unreadable => ItemStep(store, Threw)
      case Missing =>
        if env.putFails then ItemStep(store, Threw)
        else
          var s := store[c.hash := Stored(NewRecord(c, env.now))];
          ItemStep(s, Done(Insert, Verified(s, c.hash, env)))
      case Found(existing) =>
        var candidate := Merged(existing, c, env.now);
        if candidate == existing then ItemStep(store, Done(Skip, Verified(store, c.hash, env)))
        else if env.putFails then ItemStep(store, Threw)
        else
          var s := store[c.hash := Stored(candidate)];
          ItemStep(s, Done(Update, Verified(s, c.hash, env)))
  }

  function Tally(counts: Counts, outcome: ItemOutcome): Counts {
    match outcome
    case Threw => counts
    case Done(action, verified) =>
      Counts(counts.newCasts + (if action == Insert then 1 else 0),
             counts.updatedCasts + (if action == Update then 1 else 0),
             counts.verifiedCasts + (if verified then 1 else 0))
  }

  /** The namespace and the counters after the first `n` casts of the batch. */
  function Synced(store: map<string, Value>, casts: seq<UpstreamCast>, env: nat -> ItemEnv, n: nat): SyncState
    requires n <= |casts|
  {
    if n == 0 then SyncState(store, Counts(0, 0, 0))
    else
      var prev := Synced(store, casts, env, n - 1);
      var step := ProcessItem(prev.store, casts[n - 1], env(n - 1));
      SyncState(step.store, Tally(prev.counts, step.outcome))
  }

  // ---------------------------------------------------------------------
  // Requests

  /** The request method (`request.method`) and the URL path. */
  datatype Request = Request(verb: string, pathname: string)

  /** `url.pathname.slice(1)`. */
  function PathKey(pathname: string): string {
    if |pathname| == 0 then "" else pathname[1..]
  }

  /** A thrown value: an `Error` with its message, or anything else. */
  datatype Thrown = ErrorObj(message: string) | NonError

  /** One element of the feed's `casts` array: a cast object, or `null`. */
  datatype FeedEntry = CastEntry(cast: UpstreamCast) | NullEntry

  datatype UpstreamBody = BodyThrew(thrown: Thrown) | Feed(entries: seq<FeedEntry>)

  /**
   * The TypeError raised when the loop reads `hash` of a null entry; the
   * catch of that item reads it again, so the error leaves the loop.
   */
  const NullEntryMessage := "Cannot " + "read " + "properties " + "of " + "null " + "(reading " + "'hash')"

  /** The casts the loop processes: those before the first null entry. */
  function LeadingCasts(entries: seq<FeedEntry>): (lead: seq<UpstreamCast>)
    ensures |lead| <= |entries|
    ensures forall j :: 0 <= j < |lead| ==> entries[j] == CastEntry(lead[j])
    ensures |lead| < |entries| ==> entries[|lead|] == NullEntry
  {
    if entries == [] || entries[0] == NullEntry then []
    else [entries[0].cast] + LeadingCasts(entries[1..])
  }

  /** How the loop over a batch ends: after every entry, or thrown out of at a null entry. */
  datatype SyncOutcome = Completed(counts: Counts) | Aborted(thrown: Thrown)

  /** The upstream feed request: it throws, or answers with a status and a body. */
  datatype Upstream = FetchThrew(thrown: Thrown) | Replied(status: nat, body: UpstreamBody)

  /** Everything outside the worker one request depends on. */
  datatype RequestEnv = RequestEnv(
    clockMs: nat, limiterFaults: LimiterFaults, upstream: Upstream, items: nat -> ItemEnv)

  datatype Body =
    | KeyListing(message: string, storedKeys: seq<string>)
    | RawValue(value: Value)
    | PlainText(text: string)
    | Summary(message: string, counts: Counts)
    | ErrorReport(error: string, details: Option<string>)

  datatype Response = Response(status: nat, body: Body)

  datatype Served = Served(response: Response, store: map<string, Value>)

  const UpstreamFailurePhrase := "API request failed"

  function UpstreamFailureMessage(status: nat): string {
    UpstreamFailurePhrase + " with status " + Decimal(status)
  }

  /** The catch block: 502 when an Error's message mentions the failed upstream request, 500 otherwise. */
  function CaughtResponse(e: Thrown): Response {
    var details := if e.ErrorObj? then e.message else "An unknown error occurred";
    var status := if e.ErrorObj? && Includes(e.message, UpstreamFailurePhrase) then 502 else 500;
    Response(status, ErrorReport("An error occurred while processing casts", Some(details)))
  }

  const RateLimitedResponse := Response(429, ErrorReport("Rate limit exceeded. Please try again later.", None))

  const UnauthorizedResponse := Response(401, ErrorReport(
    "Unauthorized access to the Neynar API",
    Some("Please check your API key and ensure it is correctly set in your environment variables.")))

  /** The response to one request and the namespace afterwards. */
  ghost function Handled(store: map<string, Value>, req: Request, env: RequestEnv): Served {
    if req.verb == "GET" then
      var path := PathKey(req.pathname);
      if path == "" then Served(Response(200, KeyListing("Worker is running!", Listing(store.Keys))), store)
      else if path in store then Served(Response(200, RawValue(store[path])), store)
      else Served(Response(404, PlainText("Key not found")), store)
    else
      var d := Limit(store, env.clockMs / 1000, env.limiterFaults);
      if !d.admitted then Served(RateLimitedResponse, d.store)
      else match env.upstream
        case FetchThrew(e) => Served(CaughtResponse(e), d.store)
        case Replied(status, body) =>
          if !IsOk(status) then
            if status == 401 then Served(UnauthorizedResponse, d.store)
            else Served(CaughtResponse(ErrorObj(UpstreamFailureMessage(status))), d.store)
          else match body
            case BodyThrew(e) => Served(CaughtResponse(e), d.store)
            case Feed(entries) =>
              var lead := LeadingCasts(entries);
              var r := Synced(d.store, lead, env.items, |lead|);
              if |lead| < |entries| then Served(CaughtResponse(ErrorObj(NullEntryMessage)), r.store)
              else Served(Response(200, Summary("Casts processed", r.counts)), r.store)
  }

  class Worker {
    /** The namespace: every key with its parsed value. */
    var store: map<string, Value>

    constructor (initial: map<string, Value>)
      ensures store == initial
    {
      store := initial;
    }

    /** The sliding-window check; `clockMs` is `Date.now()`. */
    method CheckRateLimit(clockMs: nat, faults: LimiterFaults) returns (admitted: bool)
      modifies this
      ensures Limit(old(store), clockMs / 1000, faults) == Decision(admitted, store)
    {
      var now := clockMs / 1000;
      var windowStart := now - ApiLimitWindow;
      if faults.getFails {
        return false;
      }
      var apiCalls: seq<int>;
      match ReadWindow(store) {
        case None =>
          return false;
        case Some(calls) =>
          apiCalls := calls;
      }
      apiCalls := Prune(apiCalls, windowStart);
      if |apiCalls| >= ApiLimit {
        return false;
      }
      apiCalls := apiCalls + [now];
      if faults.putFails {
        return false;
      }
      store := store[ApiCallsKey := Window(apiCalls)];
      return true;
    }

    /**
     * The loop over one fetched batch. An exception inside a cast ends that
     * cast only; `reachedVerify` records that control got past the write.
     * A null entry throws out of the loop, keeping the earlier writes.
     */
    method SyncCasts(entries: seq<FeedEntry>, env: nat -> ItemEnv) returns (outcome: SyncOutcome)
      modifies this
      ensures var lead := LeadingCasts(entries);
        var pass := Synced(old(store), lead, env, |lead|);
        && store == pass.store
        && outcome == if |lead| < |entries| then Aborted(ErrorObj(NullEntryMessage)) else Completed(pass.counts)
    {
      ghost var lead := LeadingCasts(entries);
      var newCasts, updatedCasts, verifiedCasts := 0, 0, 0;
      for i := 0 to |entries|
        invariant i <= |lead|
        invariant Synced(old(store), lead, env, i)
               == SyncState(store, Counts(newCasts, updatedCasts, verifiedCasts))
      {
        if entries[i] == NullEntry {
          return Aborted(ErrorObj(NullEntryMessage));
        }
        var c, e := entries[i].cast, env(i);
        assert c == lead[i];
        var reachedVerify := false;
        if !e.getFails {
          match LookupCast(store, c.hash) {
            case Missing =>
              if !e.putFails {
                store := store[c.hash := Stored(NewRecord(c, e.now))];
                newCasts := newCasts + 1;
                reachedVerify := true;
              }
            case Found(existing) =>
              var updated := Merged(existing, c, e.now);
              if updated != existing {
                if !e.putFails {
                  store := store[c.hash := Stored(updated)];
                  updatedCasts := updatedCasts + 1;
                  reachedVerify := true;
                }
              } else {
                reachedVerify := true;
              }
            case Unreadable =>
          }
        }
        if reachedVerify && !e.verifyFails && LookupCast(store, c.hash).Found? {
          verifiedCasts := verifiedCasts + 1;
        }
      }
      return Completed(Counts(newCasts, updatedCasts, verifiedCasts));
    }

    /** `CASTS_KV.list()` mapped to key names. */
    method ListKeys() returns (keys: seq<string>)
      ensures keys == Listing(store.Keys)
    {
      keys := [];
      var remaining := store.Keys;
      ghost var all := SortedKeys(store.Keys);
      while |keys| < ListPageSize && remaining != {}
        invariant keys + SortedKeys(remaining) == all
        invariant |keys| <= ListPageSize
        decreases |remaining|
      {
        var m := Smallest(remaining);
        SortedKeysUnfold(remaining, m);
        assert keys + ([m] + SortedKeys(remaining - {m})) == (keys + [m]) + SortedKeys(remaining - {m});
        keys := keys + [m];
        remaining := remaining - {m};
      }
      assert all[..|keys|] == keys;
      if remaining == {} {
        assert keys + [] == keys;
      }
    }

    method HandleRequest(req: Request, env: RequestEnv) returns (resp: Response)
      modifies this
      ensures Handled(old(store), req, env) == Served(resp, store)
    {
      if req.verb == "GET" {
        var path := PathKey(req.pathname);
        if path == "" {
          var keys := ListKeys();
          return Response(200, KeyListing("Worker is running!", keys));
        }
        if path !in store {
          return Response(404, PlainText("Key not found"));
        }
        return Response(200, RawValue(store[path]));
      }
      var canProceed := CheckRateLimit(env.clockMs, env.limiterFaults);
      if !canProceed {
        return RateLimitedResponse;
      }
      match env.upstream {
        case FetchThrew(e) =>
          return CaughtResponse(e);
        case Replied(status, body) =>
          if !IsOk(status) {
            if status == 401 {
              return UnauthorizedResponse;
            }
            return CaughtResponse(ErrorObj(UpstreamFailureMessage(status)));
          }
          match body {
            case BodyThrew(e) =>
              return CaughtResponse(e);
            case Feed(entries) =>
              var outcome := SyncCasts(entries, env.items);
              match outcome {
                case Aborted(e) =>
                  return CaughtResponse(e);
                case Completed(counts) =>
                  return Response(200, Summary("Casts processed", counts));
              }
          }
      }
    }
  }
}
