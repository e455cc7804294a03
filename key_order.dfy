// The order in which the namespace lists its keys: lexicographic by
// character code, at most ListPageSize keys per listing.
module KeyOrder {

  /** Keys one listing call returns when no cursor or limit is passed. */
  const ListPageSize := 1000

  /** `a` sorts strictly before `b`: a proper prefix, or smaller at the first difference. */
  predicate LexLess(a: string, b: string)
    decreases |a|
  {
    |b| > 0 && (|a| == 0 || a[0] < b[0] || (a[0] == b[0] && LexLess(a[1..], b[1..])))
  }

  lemma {:induction false} LexLessIrreflexive(a: string)
    ensures !LexLess(a, a)
    decreases |a|
  {
    if |a| > 0 {
      LexLessIrreflexive(a[1..]);
    }
  }

  lemma {:induction false} LexLessTransitive(a: string, b: string, c: string)
    requires LexLess(a, b) && LexLess(b, c)
    ensures LexLess(a, c)
    decreases |a|
  {
    if |a| > 0 && a[0] == b[0] && b[0] == c[0] {
      LexLessTransitive(a[1..], b[1..], c[1..]);
    }
  }

  lemma {:induction false} LexLessTotal(a: string, b: string)
    requires a != b
    ensures LexLess(a, b) || LexLess(b, a)
    decreases |a|
  {
    if |a| > 0 && |b| > 0 && a[0] == b[0] {
      assert a == [a[0]] + a[1..] && b == [b[0]] + b[1..];
      LexLessTotal(a[1..], b[1..]);
    }
  }

  /** `m` sorts before every other member of `s`. */
  ghost predicate IsLeast(m: string, s: set<string>) {
    m in s && forall k :: k in s && k != m ==> LexLess(m, k)
  }

  lemma {:induction false} LeastExists(s: set<string>)
    requires s != {}
    ensures exists m :: IsLeast(m, s)
    decreases |s|
  {
    var x :| x in s;
    if s - {x} == {} {
      assert s == {x};
      assert IsLeast(x, s);
    } else {
      LeastExists(s - {x});
      var m :| IsLeast(m, s - {x});
      if LexLess(m, x) {
        forall k | k in s && k != m ensures LexLess(m, k) {
        }
        assert IsLeast(m, s);
      } else {
        LexLessTotal(m, x);
        forall k | k in s && k != x ensures LexLess(x, k) {
          if k != m {
            LexLessTransitive(x, m, k);
          }
        }
        assert IsLeast(x, s);
      }
    }
  }

  lemma LeastUnique(a: string, b: string, s: set<string>)
    requires IsLeast(a, s) && IsLeast(b, s)
    ensures a == b
  {
    if a != b {
      LexLessTransitive(a, b, a);
      LexLessIrreflexive(a);
    }
  }

  /** All keys of `s`, in listing order. */
  ghost function SortedKeys(s: set<string>): (r: seq<string>)
    ensures |r| == |s|
    decreases |s|
  {
    if s == {} then []
    else
      LeastExists(s);
      var m :| IsLeast(m, s);
      [m] + SortedKeys(s - {m})
  }

  lemma SortedKeysUnfold(s: set<string>, m: string)
    requires IsLeast(m, s)
    ensures SortedKeys(s) == [m] + SortedKeys(s - {m})
  {
    var m' :| IsLeast(m', s) && SortedKeys(s) == [m'] + SortedKeys(s - {m'});
    LeastUnique(m, m', s);
  }

  /** What one listing returns: the first ListPageSize keys in listing order. */
  ghost function Listing(s: set<string>): seq<string> {
    var all := SortedKeys(s);
    if |all| <= ListPageSize then all else all[..ListPageSize]
  }

  ghost predicate StrictlySorted(r: seq<string>) {
    forall i, j :: 0 <= i < j < |r| ==> LexLess(r[i], r[j])
  }

  /**
   * The keys in listing order are exactly the keys of the set, each once,
   * each sorting before all later ones.
   */
  lemma {:induction false} SortedKeysSound(s: set<string>)
    ensures StrictlySorted(SortedKeys(s))
    ensures forall k :: k in SortedKeys(s) <==> k in s
    decreases |s|
  {
    if s != {} {
      LeastExists(s);
      var m :| IsLeast(m, s);
      SortedKeysUnfold(s, m);
      var t := SortedKeys(s - {m});
      SortedKeysSound(s - {m});
      ConsSorted(m, t);
    }
  }

  lemma ConsSorted(m: string, t: seq<string>)
    requires StrictlySorted(t)
    requires forall k :: k in t ==> LexLess(m, k)
    ensures StrictlySorted([m] + t)
  {
    var r := [m] + t;
    forall i, j | 0 <= i < j < |r| ensures LexLess(r[i], r[j]) {
      if i == 0 {
        assert r[j] == t[j - 1];
      } else {
        assert r[i] == t[i - 1] && r[j] == t[j - 1];
      }
    }
  }

  /**
   * A listing holds min(|s|, ListPageSize) keys of `s` in strictly
   * increasing order, and every key it leaves out sorts after all of them.
   */
  lemma ListingIsFirstPage(s: set<string>)
    ensures var r := Listing(s);
      && |r| == (if |s| <= ListPageSize then |s| else ListPageSize)
      && StrictlySorted(r)
      && (forall k :: k in r ==> k in s)
      && (forall k, i :: k in s && k !in r && 0 <= i < |r| ==> LexLess(r[i], k))
  {
    SortedKeysSound(s);
    var all := SortedKeys(s);
    var r := Listing(s);
    forall k, i | k in s && k !in r && 0 <= i < |r| ensures LexLess(r[i], k) {
      var j :| 0 <= j < |all| && all[j] == k;
      assert j >= |r|;
      assert r[i] == all[i];
    }
  }

  /** The key of `s` that sorts first, found by one pass over the set. */
  method Smallest(s: set<string>) returns (m: string)
    requires s != {}
    ensures IsLeast(m, s)
  {
    m :| m in s;
    var rest := s - {m};
    while rest != {}
      invariant m in s && rest <= s && m !in rest
      invariant forall k :: k in s && k !in rest && k != m ==> LexLess(m, k)
      decreases |rest|
    {
      var k :| k in rest;
      if LexLess(k, m) {
        forall k' | k' in s && k' !in rest && k' != k ensures LexLess(k, k') {
          if k' != m {
            LexLessTransitive(k, m, k');
          }
        }
        m := k;
      } else {
        LexLessTotal(k, m);
      }
      rest := rest - {k};
    }
  }
}
