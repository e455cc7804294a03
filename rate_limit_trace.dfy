// Successive calls of the limiter, one after the other on one namespace:
// whatever the faults, no span of ApiLimitWindow seconds ever contains more
// than ApiLimit admitted calls, provided the clock does not run backwards.
module RateLimitTrace {
  import opened Common
  import opened CastStore
  import opened RateLimit

  /** One limiter call: the clock reading in seconds and which operations throw. */
  datatype LimiterCall = LimiterCall(now: int, faults: LimiterFaults)

  /** The namespace after a sequence of calls and the timestamps admitted, in call order. */
  datatype Replay = Replay(store: map<string, Value>, admitted: seq<int>)

  function Run(store: map<string, Value>, calls: seq<LimiterCall>): Replay
    decreases |calls|
  {
    if calls == [] then Replay(store, [])
    else
      var d := Limit(store, calls[0].now, calls[0].faults);
      var rest := Run(d.store, calls[1..]);
      Replay(rest.store, (if d.admitted then [calls[0].now] else []) + rest.admitted)
  }

  predicate Sorted(s: seq<int>) {
    forall i, j :: 0 <= i < j < |s| ==> s[i] <= s[j]
  }

  predicate ClockMonotone(calls: seq<LimiterCall>) {
    forall i, j :: 0 <= i < j < |calls| ==> calls[i].now <= calls[j].now
  }

  /** How many of the timestamps lie in the half-open span (lo, hi]. */
  function CountWithin(s: seq<int>, lo: int, hi: int): (n: nat)
    ensures n <= |s|
  {
    if s == [] then 0
    else (if lo < s[0] <= hi then 1 else 0) + CountWithin(s[1..], lo, hi)
  }

  /** How many of the timestamps lie in the window of ApiLimitWindow seconds that ends at `u`. */
  function CallsInWindowEndingAt(s: seq<int>, u: int): nat {
    CountWithin(s, u - ApiLimitWindow, u)
  }

  /** Every window of ApiLimitWindow seconds holds at most ApiLimit of the timestamps. */
  ghost predicate Bounded(s: seq<int>) {
    forall u :: CallsInWindowEndingAt(s, u) <= ApiLimit
  }

  lemma {:induction false} CountWithinAppend(a: seq<int>, b: seq<int>, lo: int, hi: int)
    ensures CountWithin(a + b, lo, hi) == CountWithin(a, lo, hi) + CountWithin(b, lo, hi)
  {
    if a == [] {
      assert a + b == b;
    } else {
      assert (a + b)[1..] == a[1..] + b;
      CountWithinAppend(a[1..], b, lo, hi);
    }
  }

  lemma {:induction false} CountWithinAtMostPruned(s: seq<int>, lo: int, hi: int)
    ensures CountWithin(s, lo, hi) <= |Prune(s, lo)|
  {
    if s != [] {
      CountWithinAtMostPruned(s[1..], lo, hi);
    }
  }

  lemma {:induction false} PruneMonotone(s: seq<int>, lo1: int, lo2: int)
    requires lo1 <= lo2
    ensures |Prune(s, lo2)| <= |Prune(s, lo1)|
  {
    if s != [] {
      PruneMonotone(s[1..], lo1, lo2);
    }
  }

  lemma {:induction false} PruneAllOld(s: seq<int>, lo: int)
    requires forall i :: 0 <= i < |s| ==> s[i] <= lo
    ensures Prune(s, lo) == []
  {
    if s != [] {
      PruneAllOld(s[1..], lo);
    }
  }

  /** On a sorted window the filter drops a prefix: everything it drops is old. */
  lemma {:induction false} SortedPruneIsSuffix(s: seq<int>, lo: int) returns (j: nat)
    requires Sorted(s)
    ensures j <= |s| && Prune(s, lo) == s[j..]
    ensures forall i :: 0 <= i < j ==> s[i] <= lo
  {
    if s == [] {
      j := 0;
    } else if s[0] > lo {
      assert forall i :: 0 <= i < |s| ==> s[i] > lo;
      PruneAllNew(s, lo);
      j := 0;
    } else {
      var j' := SortedPruneIsSuffix(s[1..], lo);
      j := j' + 1;
      assert s[1..][j'..] == s[j..];
    }
  }

  lemma {:induction false} PruneAllNew(s: seq<int>, lo: int)
    requires forall i :: 0 <= i < |s| ==> s[i] > lo
    ensures Prune(s, lo) == s
  {
    if s != [] {
      PruneAllNew(s[1..], lo);
      assert [s[0]] + s[1..] == s;
    }
  }

  /**
   * Admitting `t` keeps the bound when fewer than ApiLimit of the earlier
   * timestamps are newer than `t - ApiLimitWindow` and none is later than `t`.
   */
  lemma {:induction false} AdmissionKeepsBound(h: seq<int>, t: int)
    requires Bounded(h)
    requires forall i :: 0 <= i < |h| ==> h[i] <= t
    requires |Prune(h, t - ApiLimitWindow)| < ApiLimit
    ensures Bounded(h + [t])
  {
    forall u ensures CallsInWindowEndingAt(h + [t], u) <= ApiLimit {
      CountWithinAppend(h, [t], u - ApiLimitWindow, u);
      assert CallsInWindowEndingAt(h, u) <= ApiLimit;
      if u - ApiLimitWindow < t <= u {
        CountWithinAtMostPruned(h, u - ApiLimitWindow, u);
        PruneMonotone(h, t - ApiLimitWindow, u - ApiLimitWindow);
      }
    }
  }

  /**
   * The invariant of a run: the admitted history is `past + w`, where `w` is
   * the stored window and `past` holds only timestamps the window has
   * already dropped for good; the history is sorted, no later than `last`,
   * and bounded.
   */
  ghost predicate RunInvariant(store: map<string, Value>, past: seq<int>, w: seq<int>, last: int) {
    && ReadWindow(store) == Some(w)
    && Sorted(past + w) && Bounded(past + w)
    && (forall i :: 0 <= i < |past + w| ==> (past + w)[i] <= last)
    && (forall i :: 0 <= i < |past| ==> past[i] <= last - ApiLimitWindow)
  }

  lemma SortedSplit(past: seq<int>, w: seq<int>)
    requires Sorted(past + w)
    ensures Sorted(w)
  {
    forall i, j | 0 <= i < j < |w| ensures w[i] <= w[j] {
      assert w[i] == (past + w)[|past| + i] && w[j] == (past + w)[|past| + j];
    }
  }

  lemma SortedExtend(h: seq<int>, t: int)
    requires Sorted(h) && forall i :: 0 <= i < |h| ==> h[i] <= t
    ensures Sorted(h + [t])
  {
  }

  /**
   * The history part of an admission: appending `t` to a sorted, bounded
   * history no later than `t` keeps it so, when fewer than ApiLimit of its
   * timestamps are still inside the window.
   */
  lemma {:induction false} HistoryAdmits(past: seq<int>, w: seq<int>, t: int)
    requires Sorted(past + w) && Bounded(past + w)
    requires forall i :: 0 <= i < |past + w| ==> (past + w)[i] <= t
    requires forall i :: 0 <= i < |past| ==> past[i] <= t - ApiLimitWindow
    requires |Prune(w, t - ApiLimitWindow)| < ApiLimit
    ensures Sorted(past + w + [t]) && Bounded(past + w + [t])
    ensures forall i :: 0 <= i < |past + w + [t]| ==> (past + w + [t])[i] <= t
  {
    var h := past + w;
    var lo := t - ApiLimitWindow;
    assert |Prune(h, lo)| < ApiLimit by {
      PruneAllOld(past, lo);
      PruneAppend(past, w, lo);
      assert Prune(h, lo) == [] + Prune(w, lo);
    }
    AdmissionKeepsBound(h, t);
    SortedExtend(h, t);
  }

  /** The timestamps an admission drops from a sorted window join the old ones. */
  lemma {:induction false} DroppedAreOld(past: seq<int>, w: seq<int>, j: nat, lo: int)
    requires j <= |w|
    requires forall i :: 0 <= i < |past| ==> past[i] <= lo
    requires forall i :: 0 <= i < j ==> w[i] <= lo
    ensures forall i :: 0 <= i < |past + w[..j]| ==> (past + w[..j])[i] <= lo
  {
    forall i | 0 <= i < |past + w[..j]| ensures (past + w[..j])[i] <= lo {
      if i >= |past| {
        assert (past + w[..j])[i] == w[i - |past|];
      }
    }
  }

  /** Moving the dropped prefix of the window into the old part leaves the history as it was. */
  lemma MoveDropped(past: seq<int>, w: seq<int>, j: nat, t: int)
    requires j <= |w|
    ensures (past + w[..j]) + (w[j..] + [t]) == past + w + [t]
  {
    assert w == w[..j] + w[j..];
  }

  /** An admitted call at `t` keeps the invariant, with `t` appended to the history. */
  lemma {:induction false} AdmitKeepsInvariant(
    store: map<string, Value>, t: int, faults: LimiterFaults, past: seq<int>, w: seq<int>, last: int)
    returns (past': seq<int>, w': seq<int>)
    requires RunInvariant(store, past, w, last) && last <= t
    requires Limit(store, t, faults).admitted
    ensures RunInvariant(Limit(store, t, faults).store, past', w', t)
    ensures past' + w' == past + w + [t]
  {
    var lo := t - ApiLimitWindow;
    var d := Limit(store, t, faults);
    SortedSplit(past, w);
    var j := SortedPruneIsSuffix(w, lo);
    w' := w[j..] + [t];
    past' := past + w[..j];
    MoveDropped(past, w, j, t);
    AdmissionStoresPrunedWindow(store, t, faults);
    HistoryAdmits(past, w, t);
    DroppedAreOld(past, w, j, lo);
  }

  /** One limiter call at `t` (no earlier than `last`) keeps the invariant, with `t` appended to the history when admitted. */
  lemma {:induction false} StepKeepsInvariant(
    store: map<string, Value>, t: int, faults: LimiterFaults, past: seq<int>, w: seq<int>, last: int)
    returns (past': seq<int>, w': seq<int>)
    requires RunInvariant(store, past, w, last) && last <= t
    ensures var d := Limit(store, t, faults);
      && RunInvariant(d.store, past', w', t)
      && past' + w' == (if d.admitted then past + w + [t] else past + w)
  {
    if Limit(store, t, faults).admitted {
      past', w' := AdmitKeepsInvariant(store, t, faults, past, w, last);
    } else {
      past', w' := past, w;
    }
  }

  lemma {:induction false} RunKeepsBound(
    store: map<string, Value>, calls: seq<LimiterCall>, past: seq<int>, w: seq<int>, last: int)
    requires RunInvariant(store, past, w, last)
    requires ClockMonotone(calls)
    requires forall i :: 0 <= i < |calls| ==> last <= calls[i].now
    ensures Bounded(past + w + Run(store, calls).admitted)
    decreases |calls|
  {
    if calls == [] {
      assert past + w + [] == past + w;
    } else {
      var t := calls[0].now;
      var d := Limit(store, t, calls[0].faults);
      var past', w' := StepKeepsInvariant(store, t, calls[0].faults, past, w, last);
      LaterCalls(calls);
      RunKeepsBound(d.store, calls[1..], past', w', t);
      RunUnfold(store, calls, past + w, past' + w');
    }
  }

  /** Unfolding one call of a run on top of a history `h` whose admitted extension is `h'`. */
  lemma RunUnfold(store: map<string, Value>, calls: seq<LimiterCall>, h: seq<int>, h': seq<int>)
    requires calls != []
    requires var d := Limit(store, calls[0].now, calls[0].faults);
      h' == (if d.admitted then h + [calls[0].now] else h)
    ensures h + Run(store, calls).admitted
         == h' + Run(Limit(store, calls[0].now, calls[0].faults).store, calls[1..]).admitted
  {
    var d := Limit(store, calls[0].now, calls[0].faults);
    var rest := Run(d.store, calls[1..]).admitted;
    if d.admitted {
      assert Run(store, calls).admitted == [calls[0].now] + rest;
      assert h + ([calls[0].now] + rest) == (h + [calls[0].now]) + rest;
    } else {
      assert Run(store, calls).admitted == [] + rest;
      assert [] + rest == rest;
    }
  }

  /** The calls after the first still have a monotone clock, none earlier than the first. */
  lemma LaterCalls(calls: seq<LimiterCall>)
    requires calls != [] && ClockMonotone(calls)
    ensures ClockMonotone(calls[1..])
    ensures forall i :: 0 <= i < |calls[1..]| ==> calls[0].now <= calls[1..][i].now
  {
    forall i, j | 0 <= i < j < |calls| - 1
      ensures calls[1..][i].now <= calls[1..][j].now
    {
      assert calls[1..][i] == calls[i + 1] && calls[1..][j] == calls[j + 1];
    }
    forall i | 0 <= i < |calls| - 1
      ensures calls[0].now <= calls[1..][i].now
    {
      assert calls[1..][i] == calls[i + 1];
    }
  }

  /**
   * From a namespace that holds no call window yet, a run of limiter calls
   * with a clock that never goes back admits at most ApiLimit calls in any
   * span of ApiLimitWindow seconds, whatever reads and writes fail.
   */
  lemma AtMostLimitPerWindow(store: map<string, Value>, calls: seq<LimiterCall>)
    requires ApiCallsKey !in store
    requires ClockMonotone(calls)
    ensures Bounded(Run(store, calls).admitted)
  {
    if calls != [] {
      assert forall u :: CallsInWindowEndingAt([], u) == 0;
      RunKeepsBound(store, calls, [], [], calls[0].now);
      assert [] + [] + Run(store, calls).admitted == Run(store, calls).admitted;
    }
  }

  /**
   * A window already holding ApiLimit calls that are all younger than
   * ApiLimitWindow seconds refuses the next call and is left as it was.
   */
  lemma {:induction false} FullWindowRefuses(store: map<string, Value>, now: int, faults: LimiterFaults)
    requires ReadWindow(store).Some?
    requires var w := ReadWindow(store).value;
      |w| >= ApiLimit && forall i :: 0 <= i < |w| ==> now - ApiLimitWindow < w[i]
    ensures Limit(store, now, faults) == Decision(false, store)
  {
    PruneAllNew(ReadWindow(store).value, now - ApiLimitWindow);
  }

  /**
   * Once every stored call is at least ApiLimitWindow seconds old (a call
   * exactly that old included), a fault-free call is admitted and the
   * window restarts with that call alone.
   */
  lemma {:induction false} ExpiredWindowReadmits(store: map<string, Value>, now: int)
    requires ReadWindow(store).Some?
    requires var w := ReadWindow(store).value;
      forall i :: 0 <= i < |w| ==> w[i] <= now - ApiLimitWindow
    ensures Limit(store, now, LimiterFaults(false, false))
         == Decision(true, store[ApiCallsKey := Window([now])])
  {
    PruneAllOld(ReadWindow(store).value, now - ApiLimitWindow);
    assert [] + [now] == [now];
  }
}
