// What the worker keeps in its key-value namespace, and the merge policy
// that turns a freshly fetched cast into the record written under its hash.
module CastStore {
  import opened JsonValues

  /** The reserved key under which the rate limiter keeps its call window. */
  const ApiCallsKey := "api_calls"

  /** Fields of a stored record that the worker sets itself, whatever upstream sends. */
  const OwnedKeys: set<string> := {"hash", "votes", "lastUpdated"}

  /** One item of the upstream feed: its hash and every other field it carries. */
  datatype UpstreamCast = UpstreamCast(hash: string, fields: map<string, Json>)

  /**
   * A stored cast: the upstream fields plus the locally owned vote counter
   * and the time of the last write (milliseconds since the epoch).
   */
  datatype Record = Record(hash: string, fields: map<string, Json>, votes: int, lastUpdated: int)

  /**
   * A value in the namespace, as the reads of the worker see it once parsed:
   * the rate limiter's JSON array of timestamps, a JSON cast record, or any
   * other text. The limiter reads the empty string (falsy) as an empty
   * window and fails on any other text; the cast lookup is modelled as
   * failing on every value that is not a record.
   */
  datatype Value = Window(timestamps: seq<int>) | Stored(record: Record) | Text(text: string)

  /** The upstream fields that survive the owned fields set after them. */
  function Payload(c: UpstreamCast): map<string, Json> {
    c.fields - OwnedKeys
  }

  /** `{...cast, votes: 0, lastUpdated: now}`: the record written for a first sighting. */
  function NewRecord(c: UpstreamCast, now: int): (r: Record)
    ensures r.hash == c.hash && r.votes == 0 && r.lastUpdated == now
    ensures forall k :: k in r.fields <==> k in c.fields && k !in OwnedKeys
    ensures forall k :: k in r.fields ==> r.fields[k] == c.fields[k]
  {
    Record(c.hash, Payload(c), 0, now)
  }

  /**
   * `{...existing, ...cast, votes: existing.votes, lastUpdated: now}`: the
   * upstream fields overlay the stored ones, the vote count is restored.
   */
  function Merged(existing: Record, c: UpstreamCast, now: int): (r: Record)
    ensures r.hash == c.hash && r.votes == existing.votes && r.lastUpdated == now
    ensures forall k :: k in r.fields <==> k in existing.fields || (k in c.fields && k !in OwnedKeys)
    ensures forall k :: k in c.fields && k !in OwnedKeys ==> r.fields[k] == c.fields[k]
    ensures forall k :: k in existing.fields && !(k in c.fields && k !in OwnedKeys) ==>
      r.fields[k] == existing.fields[k]
  {
    Record(c.hash, existing.fields + Payload(c), existing.votes, now)
  }

  /**
   * What `CASTS_KV.get(hash, 'json')` yields for a cast key: nothing, a
   * record, or (for any other stored value) a read that is treated as
   * throwing.
   */
  datatype CastLookup = Missing | Found(record: Record) | Unreadable

  function LookupCast(store: map<string, Value>, key: string): (r: CastLookup)
    ensures r == Missing <==> key !in store
    ensures r.Found? <==> key in store && store[key].Stored?
    ensures r.Found? ==> store[key] == Stored(r.record)
  {
    if key !in store then Missing
    else match store[key]
      case Stored(r) => Found(r)
      case _ => Unreadable
  }

  /**
   * The merge leaves a record as it was exactly when the stored timestamp
   * is the current instant, the hash agrees and every upstream field
   * already holds the upstream value. The comparison includes lastUpdated.
   */
  lemma {:induction false} MergedUnchangedIff(e: Record, c: UpstreamCast, now: int)
    ensures Merged(e, c, now) == e <==>
      && e.lastUpdated == now
      && e.hash == c.hash
      && forall k :: k in Payload(c) ==> k in e.fields && e.fields[k] == Payload(c)[k]
  {
    var p := Payload(c);
    if e.lastUpdated == now && e.hash == c.hash && forall k :: k in p ==> k in e.fields && e.fields[k] == p[k] {
      assert e.fields + p == e.fields by {
        forall k | k in e.fields + p ensures k in e.fields && (e.fields + p)[k] == e.fields[k] {
        }
      }
    }
    if Merged(e, c, now) == e {
      forall k | k in p ensures k in e.fields && e.fields[k] == p[k] {
        assert (e.fields + p)[k] == p[k];
      }
    }
  }

  /** Whenever the clock has moved since the last write, the merge yields a different record. */
  lemma StaleRecordAlwaysDiffers(e: Record, c: UpstreamCast, now: int)
    requires e.lastUpdated != now
    ensures Merged(e, c, now) != e && Merged(e, c, now).votes == e.votes
  {
  }

  /** Merging the same cast twice at the same instant changes nothing the second time. */
  lemma {:induction false} MergeIdempotent(e: Record, c: UpstreamCast, now: int)
    ensures Merged(Merged(e, c, now), c, now) == Merged(e, c, now)
  {
    var p := Payload(c);
    assert (e.fields + p) + p == e.fields + p;
  }
}
