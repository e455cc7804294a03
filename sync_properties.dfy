// What one sync pass of the worker guarantees, stated over the Synced
// specification that the loop of Worker.SyncCasts is proved to follow.
module SyncProperties {
  import opened Common
  import opened CastStore
  import opened CastWorker

  /** No counter can exceed the number of casts processed. */
  lemma {:induction false} CountsBounded(
    store: map<string, Value>, casts: seq<UpstreamCast>, env: nat -> ItemEnv, n: nat)
    requires n <= |casts|
    ensures var c := Synced(store, casts, env, n).counts;
      c.newCasts + c.updatedCasts <= n && c.verifiedCasts <= n
  {
    if n > 0 {
      CountsBounded(store, casts, env, n - 1);
    }
  }

  /** One item writes at most the key of its own hash. */
  lemma ItemTouchesOnlyItsHash(store: map<string, Value>, c: UpstreamCast, env: ItemEnv, k: string)
    requires k != c.hash
    ensures var s := ProcessItem(store, c, env).store;
      (k in s <==> k in store) && (k in store ==> s[k] == store[k])
  {
  }

  /** Items m..n-1 leave alone every key none of them has as its hash. */
  lemma {:induction false} UntouchedBetween(
    store: map<string, Value>, casts: seq<UpstreamCast>, env: nat -> ItemEnv, m: nat, n: nat, k: string)
    requires m <= n <= |casts|
    requires forall j :: m <= j < n ==> casts[j].hash != k
    ensures var before := Synced(store, casts, env, m).store;
      var after := Synced(store, casts, env, n).store;
      (k in after <==> k in before) && (k in before ==> after[k] == before[k])
  {
    if m < n {
      UntouchedBetween(store, casts, env, m, n - 1, k);
      ItemTouchesOnlyItsHash(Synced(store, casts, env, n - 1).store, casts[n - 1], env(n - 1), k);
    }
  }

  /** A pass leaves every key that is not the hash of a processed cast as it was, the reserved window included when no cast has that hash. */
  lemma OtherKeysUntouched(store: map<string, Value>, casts: seq<UpstreamCast>, env: nat -> ItemEnv, k: string)
    requires forall j :: 0 <= j < |casts| ==> casts[j].hash != k
    ensures var after := Synced(store, casts, env, |casts|).store;
      (k in after <==> k in store) && (k in store ==> after[k] == store[k])
  {
    UntouchedBetween(store, casts, env, 0, |casts|, k);
  }

  /** A key present before the pass is present after it; a pass never deletes. */
  lemma {:induction false} KeysKept(
    store: map<string, Value>, casts: seq<UpstreamCast>, env: nat -> ItemEnv, n: nat)
    requires n <= |casts|
    ensures store.Keys <= Synced(store, casts, env, n).store.Keys
  {
    if n > 0 {
      KeysKept(store, casts, env, n - 1);
    }
  }

  /** The votes of a stored cast survive a sync pass unchanged, whatever upstream sends and whatever fails. */
  lemma {:induction false} VotesPreserved(
    store: map<string, Value>, casts: seq<UpstreamCast>, env: nat -> ItemEnv, n: nat, k: string)
    requires n <= |casts|
    requires k in store && store[k].Stored?
    ensures var after := Synced(store, casts, env, n).store;
      k in after && after[k].Stored? && after[k].record.votes == store[k].record.votes
  {
    if n > 0 {
      VotesPreserved(store, casts, env, n - 1, k);
    }
  }

  /** A key that a pass creates holds a cast record with zero votes. */
  lemma {:induction false} NewKeysStartAtZero(
    store: map<string, Value>, casts: seq<UpstreamCast>, env: nat -> ItemEnv, n: nat, k: string)
    requires n <= |casts|
    requires k !in store
    ensures var after := Synced(store, casts, env, n).store;
      k in after ==> after[k].Stored? && after[k].record.votes == 0
  {
    if n > 0 {
      NewKeysStartAtZero(store, casts, env, n - 1, k);
    }
  }

  /**
   * Insert-then-read: a cast whose hash was unseen and that no other cast of
   * the batch shares is afterwards stored with its upstream fields, zero
   * votes and the clock reading of its own write, when its lookup and write
   * do not throw.
   */
  lemma InsertThenRead(
    store: map<string, Value>, casts: seq<UpstreamCast>, env: nat -> ItemEnv, i: nat)
    requires i < |casts|
    requires casts[i].hash !in store
    requires forall j :: 0 <= j < |casts| && j != i ==> casts[j].hash != casts[i].hash
    requires !env(i).getFails && !env(i).putFails
    ensures var after := Synced(store, casts, env, |casts|).store;
      && casts[i].hash in after
      && after[casts[i].hash] == Stored(Record(casts[i].hash, Payload(casts[i]), 0, env(i).now))
  {
    var h := casts[i].hash;
    UntouchedBetween(store, casts, env, 0, i, h);
    UntouchedBetween(store, casts, env, i + 1, |casts|, h);
  }

  /** Keys that hold a cast record or nothing keep doing so: a pass writes only cast records. */
  lemma {:induction false} ReadableStaysReadable(
    store: map<string, Value>, casts: seq<UpstreamCast>, env: nat -> ItemEnv, n: nat, k: string)
    requires n <= |casts|
    requires LookupCast(store, k) != Unreadable
    ensures LookupCast(Synced(store, casts, env, n).store, k) != Unreadable
  {
    if n > 0 {
      ReadableStaysReadable(store, casts, env, n - 1, k);
    }
  }

  /**
   * Without faults, and with every hash of the batch readable, every
   * processed cast is verified: the re-read always sees the record.
   */
  lemma {:induction false} AllVerifiedWithoutFaults(
    store: map<string, Value>, casts: seq<UpstreamCast>, env: nat -> ItemEnv, n: nat)
    requires n <= |casts|
    requires forall j :: 0 <= j < n ==> !env(j).getFails && !env(j).putFails && !env(j).verifyFails
    requires forall j :: 0 <= j < n ==> LookupCast(store, casts[j].hash) != Unreadable
    ensures Synced(store, casts, env, n).counts.verifiedCasts == n
  {
    if n > 0 {
      AllVerifiedWithoutFaults(store, casts, env, n - 1);
      var prev := Synced(store, casts, env, n - 1).store;
      ReadableStaysReadable(store, casts, env, n - 1, casts[n - 1].hash);
      ReadableItemVerified(prev, casts[n - 1], env(n - 1));
    }
  }

  /** A fault-free item whose hash is readable ends with its record found by the re-read. */
  lemma ReadableItemVerified(store: map<string, Value>, c: UpstreamCast, env: ItemEnv)
    requires !env.getFails && !env.putFails && !env.verifyFails
    requires LookupCast(store, c.hash) != Unreadable
    ensures ProcessItem(store, c, env).outcome == Done(ProcessItem(store, c, env).outcome.action, true)
  {
  }

  /** The pass over the first `n` casts depends on nothing but those casts and their environments. */
  lemma {:induction false} SyncedPrefixOnly(
    store: map<string, Value>, casts1: seq<UpstreamCast>, env1: nat -> ItemEnv,
    casts2: seq<UpstreamCast>, env2: nat -> ItemEnv, n: nat)
    requires n <= |casts1| && n <= |casts2|
    requires forall j :: 0 <= j < n ==> casts1[j] == casts2[j] && env1(j) == env2(j)
    ensures Synced(store, casts1, env1, n) == Synced(store, casts2, env2, n)
  {
    if n > 0 {
      SyncedPrefixOnly(store, casts1, env1, casts2, env2, n - 1);
    }
  }

  /** The batch with item `k` taken out. */
  function Without(casts: seq<UpstreamCast>, k: nat): (rest: seq<UpstreamCast>)
    requires k < |casts|
    ensures |rest| == |casts| - 1
    ensures forall j :: 0 <= j < |rest| ==> rest[j] == if j < k then casts[j] else casts[j + 1]
  {
    casts[..k] + casts[k + 1..]
  }

  /**
   * Partial-batch resilience: when the lookup of item `k` throws, the pass
   * ends exactly as the pass over the same batch without item `k` (`env'`
   * being `env` with position `k` taken out): the later casts are all
   * processed, and nothing of item `k` is counted.
   */
  lemma {:induction false} FailedItemIsIsolated(
    store: map<string, Value>, casts: seq<UpstreamCast>, env: nat -> ItemEnv, env': nat -> ItemEnv, k: nat, n: nat)
    requires k < n <= |casts|
    requires env(k).getFails
    requires forall j: nat {:trigger env'(j)} :: env'(j) == if j < k then env(j) else env(j + 1)
    ensures Synced(store, casts, env, n) == Synced(store, Without(casts, k), env', n - 1)
    decreases n
  {
    var rest := Without(casts, k);
    var prev := Synced(store, casts, env, n - 1);
    assert ProcessItem(prev.store, casts[k], env(k)) == ItemStep(prev.store, Threw) ==> n - 1 == k ==>
      Synced(store, casts, env, n) == prev;
    if n == k + 1 {
      assert Synced(store, casts, env, n) == prev;
      forall j: nat | j < k ensures casts[j] == rest[j] && env(j) == env'(j) {
      }
      SyncedPrefixOnly(store, casts, env, rest, env', k);
    } else {
      FailedItemIsIsolated(store, casts, env, env', k, n - 1);
      assert rest[n - 2] == casts[n - 1];
      assert env'(n - 2) == env(n - 1);
      var prev' := Synced(store, rest, env', n - 2);
      assert prev == prev';
      assert Synced(store, rest, env', n - 1) == SyncState(
        ProcessItem(prev'.store, rest[n - 2], env'(n - 2)).store,
        Tally(prev'.counts, ProcessItem(prev'.store, rest[n - 2], env'(n - 2)).outcome));
    }
  }

  /**
   * The unchanged test compares lastUpdated as well: a second pass over
   * casts that are all stored already, at clock readings that differ from
   * the stored ones, rewrites every one of them and inserts none.
   */
  lemma {:induction false} ResyncRewritesEveryRecord(
    store: map<string, Value>, casts: seq<UpstreamCast>, env: nat -> ItemEnv, n: nat)
    requires n <= |casts|
    requires forall i, j :: 0 <= i < j < n ==> casts[i].hash != casts[j].hash
    requires forall j :: 0 <= j < n ==> !env(j).getFails && !env(j).putFails
    requires forall j :: 0 <= j < n ==>
      && LookupCast(store, casts[j].hash).Found?
      && LookupCast(store, casts[j].hash).record.lastUpdated != env(j).now
    ensures Synced(store, casts, env, n).counts.updatedCasts == n
    ensures Synced(store, casts, env, n).counts.newCasts == 0
  {
    if n > 0 {
      ResyncRewritesEveryRecord(store, casts, env, n - 1);
      var h := casts[n - 1].hash;
      var prev := Synced(store, casts, env, n - 1).store;
      UntouchedBetween(store, casts, env, 0, n - 1, h);
      assert LookupCast(prev, h) == LookupCast(store, h);
      StaleItemUpdates(prev, casts[n - 1], env(n - 1));
    }
  }

  /** A stored record met at a new clock reading is rewritten by a fault-free item. */
  lemma StaleItemUpdates(store: map<string, Value>, c: UpstreamCast, env: ItemEnv)
    requires !env.getFails && !env.putFails
    requires LookupCast(store, c.hash).Found? && LookupCast(store, c.hash).record.lastUpdated != env.now
    ensures ProcessItem(store, c, env).outcome.Done? && ProcessItem(store, c, env).outcome.action == Update
  {
    StaleRecordAlwaysDiffers(LookupCast(store, c.hash).record, c, env.now);
  }

  /**
   * The merge policy of one item when its lookup and write succeed: an
   * unseen hash is inserted with zero votes; a stored record is rewritten,
   * with its votes, exactly when the candidate differs from it.
   */
  lemma ItemWritePolicy(store: map<string, Value>, c: UpstreamCast, env: ItemEnv)
    requires !env.getFails && !env.putFails
    ensures var step := ProcessItem(store, c, env);
      && (LookupCast(store, c.hash) == Missing ==>
            step.store == store[c.hash := Stored(Record(c.hash, Payload(c), 0, env.now))]
            && step.outcome.Done? && step.outcome.action == Insert)
      && (LookupCast(store, c.hash).Found? ==>
            var e := LookupCast(store, c.hash).record;
            var candidate := Merged(e, c, env.now);
            && step.outcome.Done?
            && (step.outcome.action == Update <==> candidate != e)
            && (step.outcome.action == Skip <==> candidate == e)
            && step.store == (if candidate != e then store[c.hash := Stored(candidate)] else store)
            && candidate.votes == e.votes)
  {
  }
}
