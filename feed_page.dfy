// The client page: it keeps the list of casts in its state, ranks it by
// votes and then by recency, and applies a vote locally once the server
// has accepted it.
module FeedPage {
  /**
   * A cast as the page holds it; `timestamp` is the instant the cast's
   * ISO date denotes, in milliseconds.
   */
  datatype ClientCast = ClientCast(hash: string, author: string, text: string, timestamp: int, votes: int)

  /** The comparator handed to `sort`: negative puts `a` first, positive puts `b` first. */
  function Compare(a: ClientCast, b: ClientCast): int {
    if b.votes != a.votes then b.votes - a.votes else b.timestamp - a.timestamp
  }

  /** `a` may stand before `b`: more votes, or as many votes and no older. */
  predicate RanksBefore(a: ClientCast, b: ClientCast) {
    Compare(a, b) <= 0
  }

  ghost predicate Ranked(s: seq<ClientCast>) {
    forall i, j :: 0 <= i < j < |s| ==> RanksBefore(s[i], s[j])
  }

  /** The comparator is consistent: antisymmetric, and its order is total and transitive. */
  lemma CompareConsistent(a: ClientCast, b: ClientCast, c: ClientCast)
    ensures Compare(a, b) == -Compare(b, a)
    ensures RanksBefore(a, b) || RanksBefore(b, a)
    ensures RanksBefore(a, b) && RanksBefore(b, c) ==> RanksBefore(a, c)
    ensures RanksBefore(a, b) <==> a.votes > b.votes || (a.votes == b.votes && a.timestamp >= b.timestamp)
  {
  }

  /** In a ranked list the first cast has the most votes, and among those the newest. */
  lemma RankedHeadIsTop(s: seq<ClientCast>, i: int)
    requires Ranked(s) && 0 <= i < |s|
    ensures s[0].votes >= s[i].votes
    ensures s[0].votes == s[i].votes ==> s[0].timestamp >= s[i].timestamp
  {
    if i > 0 {
      assert RanksBefore(s[0], s[i]);
    }
  }

  /**
   * The state of one insertion pass: the cast at `j` is being moved down,
   * everything else in `s[..i+1]` is ranked, and the casts above `j` rank
   * strictly after it.
   */
  ghost predicate Inserting(s: seq<ClientCast>, i: int, j: int) {
    && 0 <= j <= i < |s|
    && (forall p, q :: 0 <= p < q <= i && p != j && q != j ==> RanksBefore(s[p], s[q]))
    && (forall q :: j < q <= i ==> Compare(s[j], s[q]) < 0)
  }

  /** Swapping the moving cast with a neighbour that ranks after it keeps the pass going. */
  lemma SwapDown(s: seq<ClientCast>, i: int, j: int)
    requires Inserting(s, i, j) && j > 0 && Compare(s[j - 1], s[j]) > 0
    ensures Inserting(s[j - 1 := s[j]][j := s[j - 1]], i, j - 1)
  {
    var t := s[j - 1 := s[j]][j := s[j - 1]];
    forall p, q | 0 <= p < q <= i && p != j - 1 && q != j - 1
      ensures RanksBefore(t[p], t[q])
    {
      if q == j {
        if p < j - 1 {
          assert RanksBefore(s[p], s[j - 1]);
        }
      } else if p == j {
        assert Compare(s[j], s[q]) < 0;
      }
    }
  }

  /** A pass that stops where the cast below ranks before the moving one leaves `s[..i+1]` ranked. */
  lemma SettleInsert(s: seq<ClientCast>, i: int, j: int)
    requires Inserting(s, i, j) && (j == 0 || Compare(s[j - 1], s[j]) <= 0)
    ensures forall p, q :: 0 <= p < q <= i ==> RanksBefore(s[p], s[q])
  {
    forall p, q | 0 <= p < q <= i
      ensures RanksBefore(s[p], s[q])
    {
      if q == j {
        if p < j - 1 {
          assert RanksBefore(s[p], s[j - 1]);
        }
      } else if p == j {
        assert Compare(s[j], s[q]) < 0;
      }
    }
  }

  method Swap(a: array<ClientCast>, p: int, q: int)
    requires 0 <= p < a.Length && 0 <= q < a.Length
    modifies a
    ensures a[..] == old(a[..])[p := old(a[q])][q := old(a[p])]
    ensures multiset(a[..]) == multiset(old(a[..]))
  {
    a[p], a[q] := a[q], a[p];
  }

  /** `sortCasts`: sorts the array in place with the comparator. */
  method SortCasts(a: array<ClientCast>)
    modifies a
    ensures Ranked(a[..])
    ensures multiset(a[..]) == multiset(old(a[..]))
  {
    for i := 0 to a.Length
      invariant forall p, q :: 0 <= p < q < i ==> RanksBefore(a[p], a[q])
      invariant multiset(a[..]) == multiset(old(a[..]))
    {
      var j := i;
      while j > 0 && Compare(a[j - 1], a[j]) > 0
        invariant Inserting(a[..], i, j)
        invariant multiset(a[..]) == multiset(old(a[..]))
      {
        SwapDown(a[..], i, j);
        Swap(a, j - 1, j);
        j := j - 1;
      }
      SettleInsert(a[..], i, j);
    }
  }

  /** The sort on a list value: a ranked permutation of it. */
  method SortedCopy(s: seq<ClientCast>) returns (r: seq<ClientCast>)
    ensures Ranked(r)
    ensures multiset(r) == multiset(s)
  {
    var a := new ClientCast[|s|](i requires 0 <= i < |s| => s[i]);
    assert a[..] == s;
    SortCasts(a);
    r := a[..];
  }

  datatype VoteAction = Upvote | Downvote

  function Delta(action: VoteAction): int {
    if action == Upvote then 1 else -1
  }

  /** The list after a vote: every cast with the voted hash moves by one vote, the others are kept. */
  function Voted(cs: seq<ClientCast>, hash: string, action: VoteAction): (r: seq<ClientCast>)
    ensures |r| == |cs|
    ensures forall i :: 0 <= i < |cs| ==>
      r[i] == if cs[i].hash == hash then cs[i].(votes := cs[i].votes + Delta(action)) else cs[i]
  {
    if cs == [] then []
    else
      var c := cs[0];
      [if c.hash == hash then c.(votes := c.votes + Delta(action)) else c] + Voted(cs[1..], hash, action)
  }

  function Opposite(action: VoteAction): VoteAction {
    if action == Upvote then Downvote else Upvote
  }

  /** A vote followed by the opposite vote on the same cast restores the list. */
  lemma VoteThenOpposite(cs: seq<ClientCast>, hash: string, action: VoteAction)
    ensures Voted(Voted(cs, hash, action), hash, Opposite(action)) == cs
  {
    var r := Voted(Voted(cs, hash, action), hash, Opposite(action));
    forall i | 0 <= i < |cs|
      ensures r[i] == cs[i]
    {
    }
  }

  function SumVotes(cs: seq<ClientCast>): int {
    if cs == [] then 0 else cs[0].votes + SumVotes(cs[1..])
  }

  function CountHash(cs: seq<ClientCast>, hash: string): nat {
    if cs == [] then 0 else (if cs[0].hash == hash then 1 else 0) + CountHash(cs[1..], hash)
  }

  /** A vote moves the total by one vote per cast carrying the hash, and no more. */
  lemma {:induction false} VoteShiftsTotal(cs: seq<ClientCast>, hash: string, action: VoteAction)
    ensures SumVotes(Voted(cs, hash, action)) == SumVotes(cs) + Delta(action) * CountHash(cs, hash)
  {
    if cs != [] {
      var r := Voted(cs, hash, action);
      assert r[1..] == Voted(cs[1..], hash, action);
      VoteShiftsTotal(cs[1..], hash, action);
    }
  }

  /** What `fetch` of the route gives the page: a throw, or a parsed body of either shape. */
  datatype FeedBody = CastsArray(casts: seq<ClientCast>) | OtherShape
  datatype FeedReply = FeedFailed | Delivered(body: FeedBody)

  /** The vote request: it throws, or the server answers ok or not. */
  datatype VoteReply = VoteThrew | VoteReplied(ok: bool)

  class Page {
    /** The `casts` state of the component. */
    var casts: seq<ClientCast>

    constructor ()
      ensures casts == []
    {
      casts := [];
    }

    /** `fetchCasts`: a well-shaped body replaces the list by its ranked casts; anything else keeps it. */
    method FetchCasts(reply: FeedReply)
      modifies this
      ensures reply.Delivered? && reply.body.CastsArray? ==>
        Ranked(casts) && multiset(casts) == multiset(reply.body.casts)
      ensures !(reply.Delivered? && reply.body.CastsArray?) ==> casts == old(casts)
    {
      if reply.Delivered? && reply.body.CastsArray? {
        casts := SortedCopy(reply.body.casts);
      }
    }

    /** `handleVote`: on an ok answer the list takes the vote and is ranked again; otherwise it is kept. */
    method HandleVote(hash: string, action: VoteAction, reply: VoteReply)
      modifies this
      ensures reply == VoteReplied(true) ==>
        Ranked(casts) && multiset(casts) == multiset(Voted(old(casts), hash, action))
      ensures reply != VoteReplied(true) ==> casts == old(casts)
    {
      if reply == VoteReplied(true) {
        casts := SortedCopy(Voted(casts, hash, action));
      }
    }
  }
}
