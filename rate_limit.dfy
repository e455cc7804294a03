// The sliding-window limiter of the worker: at most ApiLimit upstream calls
// whose timestamps lie strictly inside the last ApiLimitWindow seconds.
module RateLimit {
  import opened Common
  import opened CastStore

  const ApiLimit := 5
  const ApiLimitWindow := 60

  /** `apiCalls.filter(timestamp => timestamp > windowStart)`. */
  function Prune(calls: seq<int>, windowStart: int): (kept: seq<int>)
    ensures |kept| <= |calls|
    ensures forall t :: multiset(kept)[t] == if t > windowStart then multiset(calls)[t] else 0
  {
    if calls == [] then []
    else
      assert calls == [calls[0]] + calls[1..];
      (if calls[0] > windowStart then [calls[0]] else []) + Prune(calls[1..], windowStart)
  }

  /**
   * The stored window as `JSON.parse` and `.filter` see it: a missing key or
   * an empty string reads as no calls, an array of timestamps as itself;
   * anything else makes the read throw, shown here as None.
   */
  function ReadWindow(store: map<string, Value>): Option<seq<int>> {
    if ApiCallsKey !in store then Some([])
    else match store[ApiCallsKey]
      case Window(ts) => Some(ts)
      case Text(s) => if s == "" then Some([]) else None
      case Stored(_) => None
  }

  /** Which of the two namespace operations of one limiter call throw. */
  datatype LimiterFaults = LimiterFaults(getFails: bool, putFails: bool)

  datatype Decision = Decision(admitted: bool, store: map<string, Value>)

  /**
   * One call of the limiter at `now` (whole seconds): the decision and the
   * namespace afterwards. Every error fails closed, a refusal writes
   * nothing, and a call is admitted exactly when both namespace operations
   * succeed, the stored window is readable and fewer than ApiLimit of its
   * calls are newer than `now - ApiLimitWindow`.
   */
  function Limit(store: map<string, Value>, now: int, faults: LimiterFaults): (d: Decision)
    ensures !d.admitted ==> d.store == store
    ensures d.admitted <==>
      && !faults.getFails && !faults.putFails && ReadWindow(store).Some?
      && |Prune(ReadWindow(store).value, now - ApiLimitWindow)| < ApiLimit
  {
    if faults.getFails then Decision(false, store)
    else match ReadWindow(store)
      case None => Decision(false, store)
      case Some(calls) =>
        var kept := Prune(calls, now - ApiLimitWindow);
        if |kept| >= ApiLimit then Decision(false, store)
        else if faults.putFails then Decision(false, store)
        else Decision(true, store[ApiCallsKey := Window(kept + [now])])
  }

  /**
   * An admission stores the pruned window with `now` appended: it then holds
   * at most ApiLimit calls, all strictly inside the window and the newest
   * last, and no other key of the namespace changes.
   */
  lemma AdmissionStoresPrunedWindow(store: map<string, Value>, now: int, faults: LimiterFaults)
    requires Limit(store, now, faults).admitted
    ensures var d := Limit(store, now, faults);
      var kept := Prune(ReadWindow(store).value, now - ApiLimitWindow);
      && d.store == store[ApiCallsKey := Window(kept + [now])]
      && ReadWindow(d.store) == Some(kept + [now])
      && 1 <= |kept + [now]| <= ApiLimit
      && (forall t :: t in kept + [now] ==> now - ApiLimitWindow < t)
      && (forall k :: k in store && k != ApiCallsKey ==> d.store[k] == store[k])
  {
    PruneKeepsExactly(ReadWindow(store).value, now - ApiLimitWindow);
  }

  /** The pruned window holds exactly the calls strictly after windowStart. */
  lemma PruneKeepsExactly(calls: seq<int>, windowStart: int)
    ensures forall t :: t in Prune(calls, windowStart) <==> t in calls && t > windowStart
  {
    var kept := Prune(calls, windowStart);
    forall t ensures t in kept <==> t in calls && t > windowStart {
      assert t in kept <==> multiset(kept)[t] > 0;
      assert t in calls <==> multiset(calls)[t] > 0;
    }
  }

  /** A timestamp exactly ApiLimitWindow seconds old is already outside the window. */
  lemma {:induction false} BoundaryTimestampDropped(calls: seq<int>, now: int)
    ensures Prune(calls + [now - ApiLimitWindow], now - ApiLimitWindow)
         == Prune(calls, now - ApiLimitWindow)
  {
    PruneAppend(calls, [now - ApiLimitWindow], now - ApiLimitWindow);
  }

  /** Filtering distributes over concatenation, keeping the order. */
  lemma {:induction false} PruneAppend(a: seq<int>, b: seq<int>, windowStart: int)
    ensures Prune(a + b, windowStart) == Prune(a, windowStart) + Prune(b, windowStart)
  {
    if a == [] {
      assert a + b == b;
    } else {
      assert (a + b)[1..] == a[1..] + b;
      PruneAppend(a[1..], b, windowStart);
    }
  }

  /** Filtering twice with the same bound is filtering once. */
  lemma {:induction false} PruneIdempotent(calls: seq<int>, windowStart: int)
    ensures Prune(Prune(calls, windowStart), windowStart) == Prune(calls, windowStart)
  {
    if calls != [] {
      var head := if calls[0] > windowStart then [calls[0]] else [];
      PruneIdempotent(calls[1..], windowStart);
      PruneAppend(head, Prune(calls[1..], windowStart), windowStart);
      if calls[0] > windowStart {
        assert Prune(head, windowStart) == head by {
          assert head[1..] == [];
        }
      }
    }
  }
}
