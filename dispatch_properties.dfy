// What one request to the worker answers, stated over Handled, which
// Worker.HandleRequest is proved to follow.
module DispatchProperties {
  import opened Common
  import opened CastStore
  import opened RateLimit
  import opened KeyOrder
  import opened CastWorker

  /**
   * A GET never writes: `/` lists the keys in listing order, `/<key>`
   * returns the stored value, or 404 when the key is absent.
   */
  lemma GetIsReadOnly(store: map<string, Value>, req: Request, env: RequestEnv)
    requires req.verb == "GET"
    ensures var r := Handled(store, req, env);
      var path := PathKey(req.pathname);
      && r.store == store
      && (path == "" ==> r.response == Response(200, KeyListing("Worker is running!", Listing(store.Keys))))
      && (path != "" && path in store ==> r.response == Response(200, RawValue(store[path])))
      && (path != "" && path !in store ==> r.response.status == 404)
  {
  }

  /**
   * Any other method answers 429 exactly when the limiter refuses, and then
   * nothing is written and the answer is the same whatever the upstream
   * feed and the namespace would have done: the feed is never asked.
   */
  lemma RefusalComesFirst(store: map<string, Value>, req: Request, env: RequestEnv, other: RequestEnv)
    requires req.verb != "GET"
    requires other.clockMs == env.clockMs && other.limiterFaults == env.limiterFaults
    ensures var admitted := Limit(store, env.clockMs / 1000, env.limiterFaults).admitted;
      && (Handled(store, req, env).response.status == 429 <==> !admitted)
      && (!admitted ==> Handled(store, req, env) == Served(RateLimitedResponse, store))
      && (!admitted ==> Handled(store, req, other) == Handled(store, req, env))
  {
    var d := Limit(store, env.clockMs / 1000, env.limiterFaults);
    if d.admitted {
      var r := Handled(store, req, env);
      assert r.response.status != 429 by {
        match env.upstream
        case FetchThrew(e) =>
        case Replied(status, body) =>
      }
    }
  }

  /** The error message thrown for a non-ok upstream status mentions the failed request. */
  lemma UpstreamFailureIsRecognised(status: nat)
    ensures Includes(UpstreamFailureMessage(status), UpstreamFailurePhrase)
  {
    IncludesPrefixOf(UpstreamFailureMessage(status), UpstreamFailurePhrase, " with status " + Decimal(status));
  }

  /**
   * Once admitted: an upstream 401 answers 401, any other non-ok status 502,
   * an exception from the fetch or the body the caught status, and a feed
   * 200 with the counts of the sync pass. Only the sync pass writes casts;
   * in every other case only the call window has changed.
   */
  lemma UpstreamStatusTable(store: map<string, Value>, req: Request, env: RequestEnv)
    requires req.verb != "GET"
    requires Limit(store, env.clockMs / 1000, env.limiterFaults).admitted
    ensures var r := Handled(store, req, env);
      var windowOnly := Limit(store, env.clockMs / 1000, env.limiterFaults).store;
      match env.upstream
      case FetchThrew(e) => r == Served(CaughtResponse(e), windowOnly)
      case Replied(status, body) =>
        if status == 401 then r == Served(UnauthorizedResponse, windowOnly)
        else if !IsOk(status) then r.response.status == 502 && r.store == windowOnly
        else match body
          case BodyThrew(e) => r == Served(CaughtResponse(e), windowOnly)
          case Feed(entries) =>
            var lead := LeadingCasts(entries);
            var pass := Synced(windowOnly, lead, env.items, |lead|);
            if |lead| < |entries| then r == Served(CaughtResponse(ErrorObj(NullEntryMessage)), pass.store)
            else r == Served(Response(200, Summary("Casts processed", pass.counts)), pass.store)
  {
    if env.upstream.Replied? && !IsOk(env.upstream.status) && env.upstream.status != 401 {
      UpstreamFailureIsRecognised(env.upstream.status);
    }
  }

  /** A null entry ends the batch: the casts listed after it are never processed. */
  lemma {:induction false} NullEntryEndsBatch(a: seq<FeedEntry>, b: seq<FeedEntry>)
    ensures LeadingCasts(a + [NullEntry] + b) == LeadingCasts(a)
  {
    if a == [] {
      assert (a + [NullEntry] + b)[0] == NullEntry;
    } else {
      assert (a + [NullEntry] + b)[1..] == a[1..] + [NullEntry] + b;
      NullEntryEndsBatch(a[1..], b);
    }
  }

  /**
   * A feed with a null entry after the casts `a` answers 500 with the
   * TypeError's message and no counts; the writes of the casts before it
   * stay, and nothing listed after it matters.
   */
  lemma NullEntryAborts(
    store: map<string, Value>, req: Request, env: RequestEnv, status: nat, a: seq<FeedEntry>, b: seq<FeedEntry>)
    requires req.verb != "GET" && IsOk(status)
    requires Limit(store, env.clockMs / 1000, env.limiterFaults).admitted
    requires env.upstream == Replied(status, Feed(a + [NullEntry] + b))
    ensures var windowOnly := Limit(store, env.clockMs / 1000, env.limiterFaults).store;
      var lead := LeadingCasts(a);
      && Handled(store, req, env).response
         == Response(500, ErrorReport("An error occurred while processing casts", Some(NullEntryMessage)))
      && Handled(store, req, env).store == Synced(windowOnly, lead, env.items, |lead|).store
  {
    NullEntryEndsBatch(a, b);
    assert |LeadingCasts(a)| <= |a| < |a + [NullEntry] + b|;
    UpstreamStatusTable(store, req, env);
    NullEntryReply();
  }

  /** The TypeError of a null entry is not an upstream failure, so it answers 500. */
  lemma NullEntryReply()
    ensures CaughtResponse(ErrorObj(NullEntryMessage))
      == Response(500, ErrorReport("An error occurred while processing casts", Some(NullEntryMessage)))
  {
    NullEntryMessageLacksA();
    ExcludesWithoutFirstChar(NullEntryMessage, UpstreamFailurePhrase);
  }

  /** No letter of the null-entry message is an 'A', the first letter of the failed-request phrase. */
  lemma NullEntryMessageLacksA()
    ensures 'A' !in NullEntryMessage && UpstreamFailurePhrase[0] == 'A'
  {
    assert 'A' !in "Cannot " && 'A' !in "read " && 'A' !in "properties " && 'A' !in "of ";
    assert 'A' !in "null " && 'A' !in "(reading " && 'A' !in "'hash')";
  }

  /** The caught status is 502 exactly for an Error whose message mentions the failed upstream request. */
  lemma CaughtStatus(e: Thrown)
    ensures CaughtResponse(e).status == 502 <==> e.ErrorObj? && Includes(e.message, UpstreamFailurePhrase)
    ensures CaughtResponse(e).status in {500, 502}
  {
  }

  /** Every answer of the worker carries one of six status codes. */
  lemma StatusCodes(store: map<string, Value>, req: Request, env: RequestEnv)
    ensures Handled(store, req, env).response.status in {200, 401, 404, 429, 500, 502}
  {
  }
}
