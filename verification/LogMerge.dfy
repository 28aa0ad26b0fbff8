/**
 The client-side log cache (useTaskLogCache, frontend/src/composables/useTaskLogCache.ts:61-130):
 windows of a task's log are merged by their longest overlap and trimmed to the newest lines.
 */
module LogMerge {

  type Lines = seq<string>

  function Last(s: Lines, n: nat): Lines {
    if |s| <= n then s else s[|s| - n..]
  }

  /** A list that begins with a and ends with b. */
  ghost predicate Merges(a: Lines, b: Lines, m: Lines) {
    a <= m && |b| <= |m| && m[|m| - |b|..] == b
  }

  ghost predicate ShortestMerge(a: Lines, b: Lines, m: Lines) {
    Merges(a, b, m) && forall other: Lines :: Merges(a, b, other) ==> |m| <= |other|
  }

  /** The last k elements of a are the first k of b. */
  predicate Overlaps(a: Lines, b: Lines, k: nat)
    requires k <= |a| && k <= |b|
  {
    a[|a| - k..] == b[..k]
  }

  lemma OverlapMerges(a: Lines, b: Lines, k: nat)
    requires k <= |a| && k <= |b| && Overlaps(a, b, k)
    ensures Merges(a, b, a + b[k..])
  {
    var m := a + b[k..];
    assert m[|m| - |b|..] == a[|a| - k..] + b[k..];
    assert b == b[..k] + b[k..];
  }

  /** A merge shorter than both lists together overlaps them. */
  lemma ShortMergeOverlaps(a: Lines, b: Lines, m: Lines)
    requires Merges(a, b, m) && |m| <= |a| + |b|
    ensures var k := |a| + |b| - |m|; k <= |a| && k <= |b| && Overlaps(a, b, k) && m == a + b[k..]
  {
    var k := |a| + |b| - |m|;
    assert b[..k] == m[|m| - |b|..][..k] == m[|a| - k..|a|];
    assert a[|a| - k..] == m[..|a|][|a| - k..] == m[|a| - k..|a|];
    assert m == m[..|a|] + m[|a|..];
    assert m[|a|..] == m[|m| - |b|..][k..];
  }

  lemma LongestOverlapIsShortestMerge(a: Lines, b: Lines, k: nat)
    requires k <= |a| && k <= |b| && Overlaps(a, b, k)
    requires forall n: nat :: k < n <= |a| && n <= |b| ==> !Overlaps(a, b, n)
    ensures ShortestMerge(a, b, a + b[k..])
  {
    hide Overlaps, Merges;
    OverlapMerges(a, b, k);
    forall other: Lines | Merges(a, b, other)
      ensures |a + b[k..]| <= |other|
    {
      if |other| < |a| + |b| - k {
        ShortMergeOverlaps(a, b, other);
      }
    }
  }

  lemma NoOverlapAtAll(a: Lines, b: Lines)
    ensures Overlaps(a, b, 0) && b[0..] == b
  {
  }

  /** There is only one shortest merge. */
  lemma ShortestMergeIsUnique(a: Lines, b: Lines, m: Lines, n: Lines)
    requires ShortestMerge(a, b, m) && ShortestMerge(a, b, n)
    ensures m == n
  {
    hide Overlaps, Merges;
    NoOverlapAtAll(a, b);
    OverlapMerges(a, b, 0);
    ShortMergeOverlaps(a, b, m);
    ShortMergeOverlaps(a, b, n);
  }

  method IsOverlap(a: Lines, b: Lines, k: nat) returns (ok: bool)
    requires k <= |a| && k <= |b|
    ensures ok <==> Overlaps(a, b, k)
  {
    for i := 0 to k
      invariant forall j :: 0 <= j < i ==> a[|a| - k + j] == b[j]
    {
      if a[|a| - k + i] != b[i] {
        assert a[|a| - k..][i] != b[..k][i];
        return false;
      }
    }
    ok := true;
  }

  /** The newest lines of the shortest list that begins with the existing and ends with the incoming
      lines; without incoming lines, the existing ones as they are. */
  method MergeLines(existing: Lines, incoming: Lines, maxLines: nat) returns (merged: Lines, ghost whole: Lines)
    requires maxLines > 0
    ensures |incoming| == 0 ==> merged == existing
    ensures |incoming| > 0 ==>
              && ShortestMerge(existing, incoming, whole) && merged == Last(whole, maxLines)
              && |merged| == (if |whole| < maxLines then |whole| else maxLines)
              && merged == whole[|whole| - |merged|..]
  {
    hide Overlaps, ShortestMerge;
    if |incoming| == 0 {
      return existing, existing;
    }
    NoOverlapAtAll(existing, incoming);
    if |existing| == 0 {
      LongestOverlapIsShortestMerge(existing, incoming, 0);
      assert existing + incoming[0..] == incoming;
      merged, whole := incoming, incoming;
      if |merged| > maxLines {
        merged := merged[|merged| - maxLines..];
      }
      return;
    }
    var overlap := 0;
    var k := if |existing| < |incoming| then |existing| else |incoming|;
    while k > 0
      invariant k <= |existing| && k <= |incoming| && overlap == 0
      invariant forall n: nat :: k < n <= |existing| && n <= |incoming| ==> !Overlaps(existing, incoming, n)
    {
      var ok := IsOverlap(existing, incoming, k);
      if ok {
        overlap := k;
        break;
      }
      k := k - 1;
    }
    LongestOverlapIsShortestMerge(existing, incoming, overlap);
    merged := existing + incoming[overlap..];
    whole := merged;
    if |merged| > maxLines {
      merged := merged[|merged| - maxLines..];
    }
  }

  lemma NotBlank(a: Lines, b: Lines, m: Lines, n: nat)
    requires ShortestMerge(a, b, m) && |b| > 0 && n > 0
    ensures 0 < |Last(m, n)| <= n
  {
  }

  // ---- Windows of one log ----

  /** Two windows of a log that meet, the second reaching further, are merged to what they cover exactly if
      the lines they share are their longest overlap. */
  lemma WindowsMergeExactly(log: Lines, i: nat, k: nat, j: nat, l: nat, m: Lines)
    requires i <= k <= j <= l <= |log| && ShortestMerge(log[i..j], log[k..l], m)
    ensures m == log[i..l] <==>
            forall n: nat :: j - k < n <= j - i && n <= l - k ==> !Overlaps(log[i..j], log[k..l], n)
  {
    var a, b := log[i..j], log[k..l];
    WindowsOverlap(log, i, k, j, l);
    hide Overlaps;
    if forall n: nat :: j - k < n <= j - i && n <= l - k ==> !Overlaps(a, b, n) {
      LongestOverlapIsShortestMerge(a, b, j - k);
      hide ShortestMerge;
      ShortestMergeIsUnique(a, b, m, log[i..l]);
    } else {
      var n: nat :| j - k < n <= j - i && n <= l - k && Overlaps(a, b, n);
      OverlapMerges(a, b, n);
      assert |m| <= |a + b[n..]| < l - i;
    }
  }

  lemma WindowsOverlap(log: Lines, i: nat, k: nat, j: nat, l: nat)
    requires i <= k <= j <= l <= |log|
    ensures Overlaps(log[i..j], log[k..l], j - k) && log[i..j] + log[k..l][j - k..] == log[i..l]
  {
    var a, b := log[i..j], log[k..l];
    assert a[|a| - (j - k)..] == log[k..j] == b[..j - k];
    assert a + b[j - k..] == log[i..l];
  }

  /** With distinct lines, meeting windows never lose one. */
  lemma DistinctLinesAreKept(log: Lines, i: nat, k: nat, j: nat, l: nat, m: Lines)
    requires i <= k <= j <= l <= |log| && ShortestMerge(log[i..j], log[k..l], m)
    requires forall p, q :: 0 <= p < q < |log| ==> log[p] != log[q]
    ensures m == log[i..l]
  {
    hide Overlaps, ShortestMerge;
    forall n: nat | j - k < n <= j - i && n <= l - k
      ensures !Overlaps(log[i..j], log[k..l], n)
    {
      DistinctLinesDiffer(log, i, k, j, l, n);
    }
    WindowsMergeExactly(log, i, k, j, l, m);
  }

  lemma DistinctLinesDiffer(log: Lines, i: nat, k: nat, j: nat, l: nat, n: nat)
    requires i <= k <= j <= l <= |log| && j - k < n <= j - i && n <= l - k
    requires forall p, q :: 0 <= p < q < |log| ==> log[p] != log[q]
    ensures !Overlaps(log[i..j], log[k..l], n)
  {
    var a, b := log[i..j], log[k..l];
    assert a[|a| - n..][0] == log[j - n] && b[..n][0] == log[k];
  }

  /** A line repeated at the right place is lost: of x, x, x the windows x, x and x, x merge to x, x. */
  lemma RepeatedLineIsLost(m: Lines)
    requires var log := ["x", "x", "x"]; ShortestMerge(log[0..2], log[1..3], m)
    ensures m == ["x", "x"]
  {
    var log := ["x", "x", "x"];
    assert log[0..2] == log[1..3] == ["x", "x"];
    assert Merges(["x", "x"], ["x", "x"], ["x", "x"]);
  }

  // ---- The cache ----

  /** Whether a merged window is taken for the one already there: as long, with the same last line. */
  predicate LooksSame(prev: Lines, merged: Lines) {
    |merged| == |prev| && (|prev| > 0 ==> merged[|merged| - 1] == prev[|prev| - 1])
  }

  predicate EndsWith(s: Lines, end: Lines) {
    |end| <= |s| && s[|s| - |end|..] == end
  }

  /** The end of a list is an end of its last lines, as far as they reach. */
  lemma EndOfLast(m: Lines, end: Lines, n: nat)
    requires EndsWith(m, end)
    ensures EndsWith(Last(m, n), Last(end, n))
    ensures |end| >= n ==> Last(m, n) == Last(end, n)
  {
    if |m| > n {
      var k := |Last(end, n)|;
      assert Last(end, n) == end[|end| - k..] == m[|m| - k..] == Last(m, n)[n - k..];
    }
  }

  /** If what comes in is already the end of the cached window, the merge adds nothing. */
  lemma EndAddsNothing(prev: Lines, incoming: Lines, m: Lines)
    requires EndsWith(prev, incoming) && ShortestMerge(prev, incoming, m)
    ensures m == prev
  {
    assert Merges(prev, incoming, prev);
  }

  /** A merge that differs from the cached window is taken for it, and dropped, if and only if the cache is full,
      what comes in ends in the same line, and its last lines are not those the cache ends with. */
  lemma NewLinesAreDroppedExactlyWhen(prev: Lines, incoming: Lines, maxLines: nat, m: Lines)
    requires 0 < maxLines && |prev| <= maxLines && |incoming| > 0 && ShortestMerge(prev, incoming, m)
    ensures LooksSame(prev, Last(m, maxLines)) && Last(m, maxLines) != prev <==>
            && |prev| == maxLines && prev[|prev| - 1] == incoming[|incoming| - 1]
            && !EndsWith(prev, Last(incoming, maxLines))
  {
    var merged := Last(m, maxLines);
    EndOfLast(m, incoming, maxLines);
    assert merged[|merged| - 1] == m[|m| - 1] == m[|m| - |incoming|..][|incoming| - 1] == incoming[|incoming| - 1];
    if |m| <= maxLines && |m| == |prev| {
      assert m == prev;
    }
    if |incoming| <= maxLines && EndsWith(prev, incoming) {
      EndAddsNothing(prev, incoming, m);
    }
  }

  /** At capacity, new lines that end like the old ones are taken for them and dropped. */
  lemma NewLinesCanLookSame(maxLines: nat, m: Lines)
    requires maxLines >= 2
    requires var prev := seq(maxLines - 1, i => "a") + ["x"]; ShortestMerge(prev, ["y", "x"], m)
    ensures var prev := seq(maxLines - 1, i => "a") + ["x"];
            LooksSame(prev, Last(m, maxLines)) && Last(m, maxLines) != prev && "y" in Last(m, maxLines)
  {
    var prev, incoming := seq(maxLines - 1, i => "a") + ["x"], ["y", "x"];
    var n := |prev|;
    assert prev[n - 1] == "x" && prev[n - 2] == "a";
    forall k: nat | 0 < k <= |prev| && k <= |incoming|
      ensures !Overlaps(prev, incoming, k)
    {
      assert prev[|prev| - k..][0] == prev[n - k] && incoming[..k][0] == "y";
    }
    NoOverlapAtAll(prev, incoming);
    LongestOverlapIsShortestMerge(prev, incoming, 0);
    ShortestMergeIsUnique(prev, incoming, m, prev + incoming);
    assert Last(m, maxLines)[maxLines - 2] == "y";
  }

  class TaskLogCache {
    const maxLines: nat
    var cache: map<int, Lines>

    constructor (maxLines: int)
      ensures this.maxLines == (if maxLines < 20 then 20 else maxLines) && cache == map[] && Valid()
    {
      this.maxLines := if maxLines < 20 then 20 else maxLines;
      cache := map[];
    }

    ghost predicate Valid()
      reads this
    {
      maxLines >= 20 && forall id :: id in cache ==> id > 0 && 0 < |cache[id]| <= maxLines
    }

    static method IsSame(prev: Lines, merged: Lines) returns (same: bool)
      ensures same <==> LooksSame(prev, merged)
    {
      same := |merged| == |prev| && (|prev| == 0 || merged[|merged| - 1] == prev[|prev| - 1]);
    }

    /** Merges a window of lines, none of them blank, into the cached one. */
    method Ingest(id: int, incoming: Lines) returns (ghost whole: Lines)
      requires Valid()
      modifies this`cache
      ensures Valid()
      ensures id <= 0 || |incoming| == 0 ==> cache == old(cache)
      ensures id > 0 && |incoming| > 0 ==>
                var prev := if id in old(cache) then old(cache)[id] else [];
                && ShortestMerge(prev, incoming, whole)
                && cache == if LooksSame(prev, Last(whole, maxLines)) then old(cache)
                            else old(cache)[id := Last(whole, maxLines)]
    {
      whole := [];
      if id <= 0 || |incoming| == 0 {
        return;
      }
      hide ShortestMerge, LooksSame;
      var prev := if id in cache then cache[id] else [];
      var merged;
      merged, whole := MergeLines(prev, incoming, maxLines);
      NotBlank(prev, incoming, whole, maxLines);
      hide Last;
      var same := IsSame(prev, merged);
      if same {
        return;
      }
      cache := cache[id := merged];
    }

    method Clear(id: int)
      requires Valid()
      modifies this`cache
      ensures Valid() && cache == old(cache) - {id}
    {
      cache := cache - {id};
    }

    method Prune(keep: set<int>)
      requires Valid()
      modifies this`cache
      ensures Valid() && cache == map id | id in old(cache) && id in keep :: old(cache)[id]
    {
      ghost var before := cache;
      assert forall id :: id in before ==> id > 0 && |before[id]| > 0 && Last(before[id], maxLines) == before[id];
      cache := map id | id in cache && id in keep && id > 0 && |cache[id]| > 0 :: Last(cache[id], maxLines);
      assert forall id :: id in cache ==> id in before && cache[id] == before[id];
    }
  }
}
