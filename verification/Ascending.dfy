/** Ascending sequences of ids, as ORDER BY returns them. */
module AscendingIds {

  predicate Ascending(ids: seq<nat>) {
    forall i, j :: 0 <= i < j < |ids| ==> ids[i] < ids[j]
  }

  function Least(s: set<nat>): (m: nat)
    requires s != {}
    ensures m in s && forall x :: x in s ==> m <= x
  {
    LeastExists(s);
    var m :| m in s && forall x :: x in s ==> m <= x;
    m
  }

  lemma LeastExists(s: set<nat>)
    requires s != {}
    ensures exists m :: m in s && forall x :: x in s ==> m <= x
  {
    var m := FindLeast(s);
  }

  lemma FindLeast(s: set<nat>) returns (m: nat)
    requires s != {}
    ensures m in s && forall x :: x in s ==> m <= x
  {
    m :| m in s;
    var rest := s - {m};
    assert s == rest + {m};
    if rest != {} {
      var other := FindLeast(rest);
      if other < m {
        m := other;
      }
    }
  }

  /** The elements of a set in ascending order. */
  function Sorted(s: set<nat>): (ids: seq<nat>)
    ensures Ascending(ids) && |ids| == |s|
    ensures forall x :: x in ids <==> x in s
  {
    if s == {} then []
    else
      var m := Least(s);
      [m] + Sorted(s - {m})
  }

  function Limit(ids: seq<nat>, n: nat): (page: seq<nat>)
    ensures page <= ids && |page| == if |ids| <= n then |ids| else n
  {
    if |ids| <= n then ids else ids[..n]
  }

  /** A page of an ascending list leaves out only ids beyond its last one. */
  lemma PageIsPrefix(ids: seq<nat>, n: nat, x: nat)
    requires Ascending(ids) && x in ids && |Limit(ids, n)| > 0
    requires x <= Limit(ids, n)[|Limit(ids, n)| - 1]
    ensures x in Limit(ids, n)
  {
    var i :| 0 <= i < |ids| && ids[i] == x;
    assert !(|Limit(ids, n)| <= i);
  }

  lemma AscendingSuffix(ids: seq<nat>, n: nat, x: nat)
    requires Ascending(ids) && 0 < n <= |ids|
    ensures x in ids[n..] <==> x in ids && x > ids[n - 1]
  {
    if x in ids && x > ids[n - 1] {
      var k :| 0 <= k < |ids| && ids[k] == x;
      assert ids[n..][k - n] == x;
    }
    if x in ids[n..] {
      var k :| 0 <= k < |ids| - n && ids[n..][k] == x;
      assert ids[n + k] == x;
    }
  }

  /** Ascending lists with the same elements are the same list. */
  lemma {:induction false} AscendingUnique(a: seq<nat>, b: seq<nat>)
    requires Ascending(a) && Ascending(b) && forall x :: x in a <==> x in b
    ensures a == b
  {
    assert (|a| > 0 ==> a[0] in a) && (|b| > 0 ==> b[0] in b);
    if |a| > 0 {
      SameHead(a, b);
      forall x: nat
        ensures x in a[1..] <==> x in b[1..]
      {
        AscendingSuffix(a, 1, x);
        AscendingSuffix(b, 1, x);
      }
      AscendingUnique(a[1..], b[1..]);
      assert a == [a[0]] + a[1..] && b == [b[0]] + b[1..];
    }
  }

  lemma SameHead(a: seq<nat>, b: seq<nat>)
    requires Ascending(a) && Ascending(b) && |a| > 0 && |b| > 0
    requires a[0] in b && b[0] in a
    ensures a[0] == b[0]
  {
  }

  /** What lies beyond the n-th element of an ascending list is the rest of the list. */
  lemma SuffixIsRest(all: seq<nat>, rest: seq<nat>, n: nat)
    requires Ascending(all) && Ascending(rest) && 0 < n <= |all|
    requires forall x :: x in rest <==> x in all && x > all[n - 1]
    ensures rest == all[n..]
  {
    forall x: nat
      ensures x in rest <==> x in all[n..]
    {
      AscendingSuffix(all, n, x);
    }
    AscendingUnique(rest, all[n..]);
  }

  lemma AscendingConcat(a: seq<nat>, b: seq<nat>)
    requires Ascending(a) && Ascending(b)
    requires |a| > 0 && |b| > 0 ==> a[|a| - 1] < b[0]
    ensures Ascending(a + b)
  {
    forall i, j | 0 <= i < j < |a + b|
      ensures (a + b)[i] < (a + b)[j]
    {
      if i < |a| <= j {
        assert a[i] <= a[|a| - 1] < b[0] <= b[j - |a|];
      }
    }
  }

  /** The list is ascending and holds the elements of the set up to its last one. */
  ghost predicate FirstOf(ids: seq<nat>, s: set<nat>) {
    && Ascending(ids)
    && (forall id :: id in ids ==> id in s)
    && (forall id :: id in s && |ids| > 0 && id <= ids[|ids| - 1] ==> id in ids)
  }

  lemma AscendingPrefix(ids: seq<nat>, n: nat, x: nat)
    requires Ascending(ids) && 0 < n <= |ids|
    ensures x in ids[..n] <==> x in ids && x <= ids[n - 1]
  {
    if x in ids && x <= ids[n - 1] {
      var k :| 0 <= k < |ids| && ids[k] == x;
      assert ids[..n][k] == x;
    }
  }

  lemma AtMostLast(ids: seq<nat>, id: nat)
    requires Ascending(ids) && id in ids
    ensures id <= ids[|ids| - 1]
  {
  }

  lemma FirstOfIsPrefix(ids: seq<nat>, s: set<nat>)
    requires FirstOf(ids, s)
    ensures ids <= Sorted(s)
  {
    if |ids| > 0 {
      var all, last := Sorted(s), ids[|ids| - 1];
      assert last in ids && last in all;
      var p :| 0 <= p < |all| && all[p] == last;
      hide Sorted;
      forall id | id in ids
        ensures id <= last
      {
        AtMostLast(ids, id);
      }
      hide Ascending;
      IsPrefix(ids, all, p);
    }
  }

  lemma IsPrefix(ids: seq<nat>, all: seq<nat>, p: nat)
    requires Ascending(ids) && Ascending(all) && p < |all|
    requires forall id :: id in ids <==> id in all && id <= all[p]
    ensures ids == all[..p + 1]
  {
    hide Ascending;
    forall id: nat
      ensures id in ids <==> id in all[..p + 1]
    {
      AscendingPrefix(all, p + 1, id);
    }
    PrefixIsAscending(all, p + 1);
    AscendingUnique(ids, all[..p + 1]);
  }

  lemma PrefixIsAscending(ids: seq<nat>, n: nat)
    requires Ascending(ids) && n <= |ids|
    ensures Ascending(ids[..n])
  {
  }

  lemma {:induction false} AscendingSize(ids: seq<nat>, s: set<nat>)
    requires Ascending(ids) && forall id :: id in ids ==> id in s
    ensures |ids| <= |s|
  {
    if |ids| > 0 {
      var init, last := ids[..|ids| - 1], ids[|ids| - 1];
      AscendingSize(init, s - {last});
    }
  }

  lemma ProperSubset(a: set<nat>, b: set<nat>)
    requires a < b
    ensures |a| < |b|
  {
    assert b == a + (b - a);
  }

  lemma SubsetSize(a: set<nat>, b: set<nat>)
    requires a <= b
    ensures |a| <= |b|
  {
    assert b == a + (b - a);
  }
}
