/**
 The reply mapping (internal/engine/msg_mapping_cache.go:19-81, keep_reply.go:20-43, 133-263): a
 least-recently-used cache in front of the stored source-to-target message ids of one task.  The
 store is open and its writes succeed.
 */
module ReplyMapping {
  datatype Pair = Pair(src: int, dst: int)

  // ---- Recency lists ----

  ghost predicate DistinctKeys(list: seq<Pair>) {
    forall i, j :: 0 <= i < j < |list| ==> list[i].src != list[j].src
  }

  function Without(list: seq<Pair>, src: int): (r: seq<Pair>)
    ensures forall p :: p in r <==> p in list && p.src != src
    ensures |r| <= |list|
  {
    if |list| == 0 then []
    else if list[0].src == src then Without(list[1..], src)
    else [list[0]] + Without(list[1..], src)
  }

  /** A key becomes the most recently used one. */
  function Bring(list: seq<Pair>, p: Pair): seq<Pair> {
    [p] + Without(list, p.src)
  }

  function Take(list: seq<Pair>, n: nat): seq<Pair> {
    if |list| <= n then list else list[..n]
  }

  lemma {:induction false} WithoutAbsent(list: seq<Pair>, src: int)
    requires forall p :: p in list ==> p.src != src
    ensures Without(list, src) == list
  {
    if |list| > 0 {
      assert list[0] in list;
      WithoutAbsent(list[1..], src);
      assert list == [list[0]] + list[1..];
    }
  }

  /** Removing the key at a position. */
  lemma {:induction false} WithoutAt(list: seq<Pair>, i: nat)
    requires i < |list| && DistinctKeys(list)
    ensures Without(list, list[i].src) == list[..i] + list[i + 1..]
  {
    if i == 0 {
      WithoutAbsent(list[1..], list[0].src);
    } else {
      var tail := list[1..];
      TailIsDistinct(list);
      assert list[i] == tail[i - 1] && tail[i - 1] in tail;
      hide DistinctKeys;
      WithoutAt(tail, i - 1);
      CutBeyondHead(list, i);
    }
  }

  lemma CutBeyondHead<T>(list: seq<T>, i: nat)
    requires 0 < i < |list|
    ensures list[..i] + list[i + 1..] == [list[0]] + (list[1..][..i - 1] + list[1..][i..])
  {
  }

  lemma TailIsDistinct(list: seq<Pair>)
    requires |list| > 0 && DistinctKeys(list)
    ensures DistinctKeys(list[1..]) && forall p :: p in list[1..] ==> p.src != list[0].src
  {
  }

  lemma {:induction false} WithoutTaken(list: seq<Pair>, n: nat, src: int)
    requires DistinctKeys(list)
    ensures Take(Without(list, src), n) == Take(Without(Take(list, n + 1), src), n)
  {
    if |list| > n + 1 {
      if list[0].src == src {
        HeadTaken(list, n);
      } else if n > 0 {
        TailIsDistinct(list);
        WithoutTaken(list[1..], n - 1, src);
        hide DistinctKeys, Without;
        TailTaken(list, n, src);
      }
    }
  }

  lemma HeadTaken(list: seq<Pair>, n: nat)
    requires DistinctKeys(list) && n < |list|
    ensures Take(Without(list, list[0].src), n) == Take(Without(list[..n + 1], list[0].src), n)
  {
    WithoutFirst(list);
    PrefixIsDistinct(list, n + 1);
    WithoutFirst(list[..n + 1]);
    hide DistinctKeys, Without;
    CutFirst(list, n);
  }

  lemma WithoutFirst(list: seq<Pair>)
    requires |list| > 0 && DistinctKeys(list)
    ensures Without(list, list[0].src) == list[1..]
  {
    TailIsDistinct(list);
    WithoutAbsent(list[1..], list[0].src);
  }

  lemma PrefixIsDistinct(list: seq<Pair>, n: nat)
    requires n <= |list| && DistinctKeys(list)
    ensures DistinctKeys(list[..n])
  {
  }

  lemma CutFirst(list: seq<Pair>, n: nat)
    requires n < |list|
    ensures Take(list[1..], n) == Take(list[..n + 1][1..], n)
  {
    assert list[..n + 1][1..] == list[1..][..n];
  }

  lemma TailTaken(list: seq<Pair>, n: nat, src: int)
    requires 0 < n < |list| - 1 && list[0].src != src
    requires Take(Without(list[1..], src), n - 1) == Take(Without(list[1..][..n], src), n - 1)
    ensures Take(Without(list, src), n) == Take(Without(list[..n + 1], src), n)
  {
    WithoutHead(list, n, src);
    hide Without, Take;
    TakeOneMore(list[0], Without(list[1..], src), n);
    TakeOneMore(list[0], Without(list[1..][..n], src), n);
  }

  /** Another key at the head stays there, and so it does when the list is cut. */
  lemma WithoutHead(list: seq<Pair>, n: nat, src: int)
    requires n < |list| && list[0].src != src
    ensures Without(list, src) == [list[0]] + Without(list[1..], src)
    ensures Without(list[..n + 1], src) == [list[0]] + Without(list[1..][..n], src)
  {
    assert list[..n + 1][1..] == list[1..][..n];
  }

  lemma TakeOneMore(p: Pair, list: seq<Pair>, n: nat)
    requires n > 0
    ensures Take([p] + list, n) == [p] + Take(list, n - 1)
  {
  }

  lemma {:induction false} WithoutKeepsDistinct(list: seq<Pair>, src: int)
    requires DistinctKeys(list)
    ensures DistinctKeys(Without(list, src))
  {
    if |list| > 0 {
      WithoutKeepsDistinct(list[1..], src);
      var kept := Without(list[1..], src);
      assert forall i :: 0 <= i < |kept| ==> kept[i] in list[1..];
    }
  }

  lemma BringKeepsDistinct(list: seq<Pair>, p: Pair)
    requires DistinctKeys(list)
    ensures DistinctKeys(Bring(list, p))
  {
    WithoutKeepsDistinct(list, p.src);
    var kept := Without(list, p.src);
    assert forall i :: 0 <= i < |kept| ==> kept[i] in kept;
  }

  /** Keeping only the first cap of a recency list commutes with using a key. */
  lemma BringThenTake(list: seq<Pair>, p: Pair, cap: nat)
    requires DistinctKeys(list) && cap > 0
    ensures Take(Bring(list, p), cap) == Take(Bring(Take(list, cap), p), cap)
  {
    WithoutTaken(list, cap - 1, p.src);
    assert Take([p] + Without(list, p.src), cap) == [p] + Take(Without(list, p.src), cap - 1);
    var kept := Without(Take(list, cap), p.src);
    assert Take([p] + kept, cap) == [p] + Take(kept, cap - 1);
  }

  // ---- The cache ----

  class MappingEntry {
    const src: int
    var dst: int

    constructor (src: int, dst: int)
      ensures this.src == src && this.dst == dst
    {
      this.src, this.dst := src, dst;
    }
  }

  ghost function PairsOf(ll: seq<MappingEntry>): (list: seq<Pair>)
    reads ll
    ensures |list| == |ll| && forall i :: 0 <= i < |ll| ==> list[i] == Pair(ll[i].src, ll[i].dst)
  {
    seq(|ll|, i requires 0 <= i < |ll| reads ll => Pair(ll[i].src, ll[i].dst))
  }

  /** The map finds exactly the entries of the list by their source ids. */
  ghost predicate Linked(ll: seq<MappingEntry>, m: map<int, MappingEntry>)
    reads ll
  {
    && (forall el :: el in ll ==> el.src in m && m[el.src] == el && el.src > 0 && el.dst > 0)
    && (forall s :: s in m ==> m[s] in ll && m[s].src == s)
  }

  function ToFront<T>(list: seq<T>, i: nat): (moved: seq<T>)
    requires i < |list|
    ensures |moved| == |list|
    ensures forall j :: 0 <= j < |list| ==> moved[j] == list[if j == 0 then i else if j <= i then j - 1 else j]
  {
    [list[i]] + (list[..i] + list[i + 1..])
  }

  lemma Moved(ll: seq<MappingEntry>, i: nat, m: map<int, MappingEntry>)
    requires i < |ll| && Linked(ll, m)
    ensures var moved := ToFront(ll, i);
            && Linked(moved, m) && (forall e :: e in moved <==> e in ll)
            && PairsOf(moved) == ToFront(PairsOf(ll), i)
  {
    SameMembers(ll, i);
    hide ToFront;
    LinkedByMembers(ll, ToFront(ll, i), m);
    hide Linked;
    assert PairsOf(ToFront(ll, i)) == ToFront(PairsOf(ll), i);
  }

  lemma SameMembers<T>(list: seq<T>, i: nat)
    requires i < |list|
    ensures forall e :: e in ToFront(list, i) <==> e in list
  {
    assert list == list[..i] + [list[i]] + list[i + 1..];
  }

  lemma LinkedByMembers(a: seq<MappingEntry>, b: seq<MappingEntry>, m: map<int, MappingEntry>)
    requires Linked(a, m) && forall e :: e in b <==> e in a
    ensures Linked(b, m)
  {
  }

  lemma Pushed(ll: seq<MappingEntry>, m: map<int, MappingEntry>, el: MappingEntry)
    requires Linked(ll, m) && el.src !in m && el.src > 0 && el.dst > 0
    ensures Linked([el] + ll, m[el.src := el])
    ensures PairsOf([el] + ll) == [Pair(el.src, el.dst)] + PairsOf(ll)
  {
  }

  lemma BackRemoved(ll: seq<MappingEntry>, m: map<int, MappingEntry>)
    requires |ll| > 0 && Linked(ll, m) && DistinctKeys(PairsOf(ll))
    ensures var init := ll[..|ll| - 1];
            && Linked(init, m - {ll[|ll| - 1].src})
            && PairsOf(init) == PairsOf(ll)[..|ll| - 1] && DistinctKeys(PairsOf(init))
  {
    var n, pairs := |ll| - 1, PairsOf(ll);
    forall e | e in ll[..n]
      ensures e in ll && e.src != ll[n].src
    {
      var i :| 0 <= i < n && ll[..n][i] == e;
      assert ll[i] == e && pairs[i].src != pairs[n].src;
    }
    assert PairsOf(ll[..n]) == pairs[..n];
    BackUnlinked(ll, m);
  }

  lemma BackUnlinked(ll: seq<MappingEntry>, m: map<int, MappingEntry>)
    requires |ll| > 0 && Linked(ll, m)
    requires forall e :: e in ll[..|ll| - 1] ==> e in ll && e.src != ll[|ll| - 1].src
    ensures Linked(ll[..|ll| - 1], m - {ll[|ll| - 1].src})
  {
    assert ll == ll[..|ll| - 1] + [ll[|ll| - 1]];
  }

  /** The list holds entries, most recently used first, and the map finds them by source id. */
  class MsgMappingCache {
    const cap: nat
    var ll: seq<MappingEntry>
    var m: map<int, MappingEntry>

    constructor (capacity: int)
      ensures Valid() && ll == [] && Contents() == []
      ensures cap == if capacity > 0 then capacity else 10_000
    {
      cap := if capacity <= 0 then 10_000 else capacity;
      ll, m := [], map[];
    }

    ghost predicate Valid()
      reads this, ll
    {
      && cap > 0 && |ll| <= cap
      && DistinctKeys(Contents()) && Linked(ll, m)
    }

    ghost function Entries(): set<MappingEntry>
      reads this
    {
      set el | el in ll
    }

    ghost function Contents(): (list: seq<Pair>)
      reads this, ll
    {
      PairsOf(ll)
    }

    method IndexOf(el: MappingEntry) returns (i: nat)
      requires el in ll
      ensures i < |ll| && ll[i] == el
    {
      i := 0;
      while ll[i] != el
        invariant i < |ll| && el in ll[i..]
        decreases |ll| - i
      {
        i := i + 1;
      }
    }

    /** Moves the entry to the front of the list. */
    method MoveToFront(el: MappingEntry)
      requires Valid() && el in ll
      modifies this`ll
      ensures Valid() && Entries() == old(Entries())
      ensures Contents() == Bring(old(Contents()), Pair(el.src, el.dst))
    {
      hide DistinctKeys, Bring, Without, Linked, ToFront;
      var i := IndexOf(el);
      BringAt(Contents(), i);
      Moved(ll, i, m);
      ll := ToFront(ll, i);
    }

    /** The cached target of a source id, which becomes the most recently used. */
    method Get(src: int) returns (dst: int, ok: bool)
      requires Valid()
      modifies this`ll
      ensures Valid() && Entries() == old(Entries())
      ensures ok <==> exists p :: p in old(Contents()) && p.src == src
      ensures !ok ==> ll == old(ll)
      ensures if ok
              then dst > 0 && Pair(src, dst) in old(Contents()) && Contents() == Bring(old(Contents()), Pair(src, dst))
              else dst == 0 && Contents() == old(Contents())
    {
      KeysAreMapped();
      if src <= 0 || src !in m {
        return 0, false;
      }
      var el := m[src];
      MoveToFront(el);
      return el.dst, true;
    }

    lemma KeysAreMapped()
      requires Valid()
      ensures forall p :: p in Contents() ==> p.src in m && p.src > 0 && p.dst > 0 && m[p.src].dst == p.dst
      ensures forall s :: s in m ==> Pair(s, m[s].dst) in Contents() && m[s].dst > 0
    {
      forall s | s in m
        ensures Pair(s, m[s].dst) in Contents() && m[s].dst > 0
      {
        var i :| 0 <= i < |ll| && ll[i] == m[s];
        assert Contents()[i] == Pair(s, m[s].dst);
      }
    }

    /** Remembers a target; beyond the capacity the least recently used key goes. */
    method Put(src: int, dst: int)
      requires Valid()
      modifies this, Entries()
      ensures Valid() && fresh(Entries() - old(Entries()))
      ensures Contents() == if src <= 0 || dst <= 0 then old(Contents())
                            else Take(Bring(old(Contents()), Pair(src, dst)), cap)
    {
      if src <= 0 || dst <= 0 {
        return;
      }
      KeysAreMapped();
      if src in m {
        Renew(src, dst);
      } else {
        PushFront(src, dst);
      }
    }

    /** A key that is cached gets a new target. */
    method Renew(src: int, dst: int)
      requires Valid() && src in m && dst > 0
      modifies this`ll, m[src]
      ensures Valid() && Entries() == old(Entries())
      ensures Contents() == Take(Bring(old(Contents()), Pair(src, dst)), cap)
    {
      hide DistinctKeys, Bring, Without;
      ghost var before := Contents();
      var el := m[src];
      el.dst := dst;
      BringIgnoresTarget(before, Contents(), Pair(src, dst));
      MoveToFront(el);
    }

    /** The least recently used entry of a list over its capacity goes. */
    method DropBack()
      requires |ll| > cap && Linked(ll, m) && DistinctKeys(Contents())
      modifies this`ll, this`m
      ensures ll == old(ll)[..|old(ll)| - 1] && Linked(ll, m) && DistinctKeys(Contents())
      ensures Take(Contents(), cap) == Take(old(Contents()), cap)
    {
      hide DistinctKeys, Linked;
      BackRemoved(ll, m);
      var back := ll[|ll| - 1];
      m := m - {back.src};
      ll := ll[..|ll| - 1];
    }

    /** A new key enters at the front. */
    method PushFront(src: int, dst: int)
      requires Valid() && src > 0 && dst > 0 && forall p :: p in Contents() ==> p.src != src
      modifies this
      ensures Valid() && fresh(Entries() - old(Entries()))
      ensures Contents() == Take(Bring(old(Contents()), Pair(src, dst)), cap)
    {
      hide DistinctKeys, Bring, Without, Linked;
      ghost var before, p := Contents(), Pair(src, dst);
      KeysAreMapped();
      BringNew(before, p);
      var el := new MappingEntry(src, dst);
      Pushed(ll, m, el);
      ll := [el] + ll;
      m := m[src := el];
      while |ll| > cap
        invariant |ll| <= cap + 1 && Linked(ll, m) && DistinctKeys(Contents())
        invariant Take(Contents(), cap) == Take([p] + before, cap)
        invariant fresh(Entries() - old(Entries()))
        decreases |ll|
      {
        DropBack();
      }
    }
  }

  lemma BringAt(list: seq<Pair>, i: nat)
    requires i < |list| && DistinctKeys(list)
    ensures Bring(list, list[i]) == ToFront(list, i) && DistinctKeys(Bring(list, list[i]))
  {
    WithoutAt(list, i);
    BringKeepsDistinct(list, list[i]);
  }

  lemma BringNew(list: seq<Pair>, p: Pair)
    requires DistinctKeys(list) && forall q :: q in list ==> q.src != p.src
    ensures Bring(list, p) == [p] + list
    ensures DistinctKeys([p] + list)
  {
    WithoutAbsent(list, p.src);
    BringKeepsDistinct(list, p);
  }

  lemma {:induction false} WithoutIgnoresTarget(a: seq<Pair>, b: seq<Pair>, src: int)
    requires |a| == |b|
    requires forall i :: 0 <= i < |a| ==> a[i].src == b[i].src && (a[i].src != src ==> a[i] == b[i])
    ensures Without(a, src) == Without(b, src)
  {
    if |a| > 0 {
      WithoutIgnoresTarget(a[1..], b[1..], src);
    }
  }

  lemma BringIgnoresTarget(a: seq<Pair>, b: seq<Pair>, p: Pair)
    requires |a| == |b| && DistinctKeys(a)
    requires forall i :: 0 <= i < |a| ==> a[i].src == b[i].src && (a[i].src != p.src ==> a[i] == b[i])
    requires exists i :: 0 <= i < |a| && a[i].src == p.src
    ensures Bring(a, p) == Bring(b, p) && DistinctKeys(b) && |Bring(a, p)| == |a|
  {
    WithoutIgnoresTarget(a, b, p.src);
    var i :| 0 <= i < |a| && a[i].src == p.src;
    WithoutAt(a, i);
  }

  // ---- The mapping of one task ----

  /** The target stored last for a source id, 0 if none. */
  function LastStored(stores: seq<Pair>, src: int): int {
    if |stores| == 0 then 0
    else if stores[|stores| - 1].src == src then stores[|stores| - 1].dst
    else LastStored(stores[..|stores| - 1], src)
  }

  lemma StoredMore(stores: seq<Pair>, p: Pair, src: int)
    ensures LastStored(stores + [p], src) == if src == p.src then p.dst else LastStored(stores, src)
  {
    assert (stores + [p])[..|stores|] == stores;
  }

  /** The store holds the last target of every source id. */
  ghost predicate HoldsLast(db: map<int, int>, stores: seq<Pair>) {
    && (forall src :: LastStored(stores, src) == if src in db then db[src] else 0)
    && (forall src :: src in db ==> src > 0 && db[src] > 0)
  }

  lemma StoreHoldsLast(db: map<int, int>, stores: seq<Pair>, p: Pair)
    requires HoldsLast(db, stores) && p.src > 0 && p.dst > 0
    ensures HoldsLast(db[p.src := p.dst], stores + [p])
  {
    forall src
      ensures LastStored(stores + [p], src) == if src == p.src then p.dst else LastStored(stores, src)
    {
      StoredMore(stores, p, src);
    }
  }

  /** A recency list of stored pairs, each key once. */
  ghost predicate Recent(db: map<int, int>, recency: seq<Pair>) {
    DistinctKeys(recency) && forall p :: p in recency ==> p.src in db && db[p.src] == p.dst
  }

  lemma BringKeepsRecent(db: map<int, int>, recency: seq<Pair>, p: Pair)
    requires Recent(db, recency)
    ensures Recent(db[p.src := p.dst], Bring(recency, p))
  {
    BringKeepsDistinct(recency, p);
  }

  /** Using a key that is among the first cap reorders them only. */
  lemma BringHit(recency: seq<Pair>, cap: nat, p: Pair)
    requires DistinctKeys(recency) && cap > 0 && p in Take(recency, cap)
    ensures Take(Bring(recency, p), cap) == Bring(Take(recency, cap), p)
  {
    var list := Take(recency, cap);
    var i :| 0 <= i < |list| && list[i] == p;
    BringAt(list, i);
    BringThenTake(recency, p, cap);
  }

  /** The cached list, the store, what was stored, and the keys by their last use agree. */
  ghost predicate Agree(list: seq<Pair>, cap: nat, db: map<int, int>, stores: seq<Pair>, recency: seq<Pair>) {
    HoldsLast(db, stores) && Recent(db, recency) && list == Take(recency, cap)
  }

  lemma AgreeMeans(list: seq<Pair>, cap: nat, db: map<int, int>, stores: seq<Pair>, recency: seq<Pair>, src: int)
    requires Agree(list, cap, db, stores, recency)
    ensures LastStored(stores, src) == if src in db then db[src] else 0
    ensures src in db ==> src > 0 && db[src] > 0
    ensures forall p :: p in list ==> p.src in db && db[p.src] == p.dst
  {
  }

  lemma AgreeAfterUse(list: seq<Pair>, cap: nat, db: map<int, int>, stores: seq<Pair>, recency: seq<Pair>, p: Pair)
    requires Agree(list, cap, db, stores, recency) && cap > 0 && p.src in db && db[p.src] == p.dst
    ensures Agree(Take(Bring(list, p), cap), cap, db, stores, Bring(recency, p))
    ensures p in list ==> Take(Bring(list, p), cap) == Bring(list, p)
  {
    hide HoldsLast;
    assert db == db[p.src := p.dst];
    BringKeepsRecent(db, recency, p);
    BringThenTake(recency, p, cap);
    if p in list {
      BringHit(recency, cap, p);
    }
  }

  lemma AgreeAfterStore(list: seq<Pair>, cap: nat, db: map<int, int>, stores: seq<Pair>, recency: seq<Pair>, p: Pair)
    requires Agree(list, cap, db, stores, recency) && cap > 0 && p.src > 0 && p.dst > 0
    ensures Agree(Take(Bring(list, p), cap), cap, db[p.src := p.dst], stores + [p], Bring(recency, p))
  {
    StoreHoldsLast(db, stores, p);
    BringKeepsRecent(db, recency, p);
    BringThenTake(recency, p, cap);
  }

  // ---- Batches ----

  datatype SourceMessage = SourceMessage(id: int, album: int)

  ghost predicate Increasing(s: seq<int>) {
    forall i, j :: 0 <= i < j < |s| ==> s[i] <= s[j]
  }

  function Place(x: int, s: seq<int>): (r: seq<int>)
    requires Increasing(s)
    ensures Increasing(r) && multiset(r) == multiset(s) + multiset{x}
  {
    if |s| == 0 || x <= s[0] then [x] + s
    else
      var r := Place(x, s[1..]);
      PlaceBehind(x, s, r);
      [s[0]] + r
  }

  lemma PlaceBehind(x: int, s: seq<int>, r: seq<int>)
    requires |s| > 0 && Increasing(s) && s[0] <= x
    requires Increasing(r) && multiset(r) == multiset(s[1..]) + multiset{x}
    ensures Increasing([s[0]] + r) && multiset([s[0]] + r) == multiset(s) + multiset{x}
  {
    assert s == [s[0]] + s[1..];
    forall i | 0 <= i < |r|
      ensures s[0] <= r[i]
    {
      assert r[i] in multiset(r);
      assert r[i] == x || r[i] in s[1..];
    }
  }

  function SortInts(s: seq<int>): (r: seq<int>)
    ensures Increasing(r) && multiset(r) == multiset(s) && |r| == |s|
  {
    if |s| == 0 then []
    else
      assert s == s[..|s| - 1] + [s[|s| - 1]];
      var r := Place(s[|s| - 1], SortInts(s[..|s| - 1]));
      assert |r| == |multiset(r)|;
      r
  }

  /** The least positive id, 0 if there is none. */
  function MinPositive(s: seq<int>): (r: int)
    ensures r > 0 ==> r in s && forall x :: x in s && x > 0 ==> r <= x
    ensures r <= 0 ==> r == 0 && forall x :: x in s ==> x <= 0
  {
    if |s| == 0 then 0
    else
      var r := MinPositive(s[1..]);
      assert s == [s[0]] + s[1..];
      if s[0] > 0 && (r == 0 || s[0] < r) then s[0] else r
  }

  function PositiveIds(msgs: seq<SourceMessage>): (ids: seq<int>)
    ensures forall id :: id in ids <==> id > 0 && exists i :: 0 <= i < |msgs| && msgs[i].id == id
    ensures |ids| == |set i: nat | i < |msgs| && msgs[i].id > 0|
  {
    if |msgs| == 0 then []
    else
      var n, last := |msgs| - 1, msgs[|msgs| - 1].id;
      assert (set i: nat | i < |msgs| && msgs[i].id > 0) ==
             (set i: nat | i < n && msgs[..n][i].id > 0) + if last > 0 then {n} else {};
      PositiveIds(msgs[..|msgs| - 1]) + if last > 0 then [last] else []
  }

  /** The messages that have an id are all of one album. */
  predicate OfAlbum(msgs: seq<SourceMessage>, album: int) {
    && album != 0
    && (exists i :: 0 <= i < |msgs| && msgs[i].id > 0)
    && (forall i :: 0 <= i < |msgs| && msgs[i].id > 0 ==> msgs[i].album == album)
  }

  method DetectAlbum(msgs: seq<SourceMessage>) returns (album: int)
    ensures album != 0 ==> OfAlbum(msgs, album)
    ensures album == 0 ==> forall a :: !OfAlbum(msgs, a)
  {
    album := 0;
    for i := 0 to |msgs|
      invariant if album != 0 then OfAlbum(msgs[..i], album) else forall k :: 0 <= k < i ==> msgs[k].id <= 0
    {
      if msgs[i].id <= 0 {
        continue;
      }
      if msgs[i].album == 0 {
        return 0;
      }
      if album == 0 {
        album := msgs[i].album;
        assert msgs[..i + 1][i].id > 0;
      } else if album != msgs[i].album {
        var k :| 0 <= k < i && msgs[..i][k].id > 0;
        assert msgs[k].album == album;
        return 0;
      }
    }
    assert msgs[..|msgs|] == msgs;
  }

  function Zip(srcs: seq<int>, dsts: seq<int>): (pairs: seq<Pair>)
    requires |srcs| == |dsts|
    ensures |pairs| == |srcs| && forall i :: 0 <= i < |srcs| ==> pairs[i] == Pair(srcs[i], dsts[i])
  {
    seq(|srcs|, i requires 0 <= i < |srcs| => Pair(srcs[i], dsts[i]))
  }

  function Repeat(srcs: seq<int>, dst: int): (pairs: seq<Pair>)
    ensures |pairs| == |srcs| && forall i :: 0 <= i < |srcs| ==> pairs[i] == Pair(srcs[i], dst)
  {
    seq(|srcs|, i requires 0 <= i < |srcs| => Pair(srcs[i], dst))
  }

  /** The pairs that storing one after another leaves behind. */
  function Effective(pairs: seq<Pair>): seq<Pair> {
    if |pairs| == 0 then []
    else
      var last := pairs[|pairs| - 1];
      Effective(pairs[..|pairs| - 1]) + if last.src > 0 && last.dst > 0 then [last] else []
  }

  /** A stored source id keeps its target when the pairs after it have other source ids. */
  lemma {:induction false} EffectiveStores(stores: seq<Pair>, pairs: seq<Pair>, i: nat)
    requires i < |pairs| && pairs[i].src > 0 && pairs[i].dst > 0
    requires forall j :: i < j < |pairs| ==> pairs[j].src != pairs[i].src
    ensures LastStored(stores + Effective(pairs), pairs[i].src) == pairs[i].dst
  {
    var init, last := pairs[..|pairs| - 1], pairs[|pairs| - 1];
    var before := stores + Effective(init);
    if last.src > 0 && last.dst > 0 {
      assert stores + Effective(pairs) == before + [last];
      StoredMore(before, last, pairs[i].src);
    } else {
      assert stores + Effective(pairs) == before;
    }
    if i < |pairs| - 1 {
      EffectiveStores(stores, init, i);
    }
  }

  /** What a batch maps its source messages to. */
  function Mappings(msgs: seq<SourceMessage>, sent: seq<int>, album: int): seq<Pair> {
    var ids := SortInts(PositiveIds(msgs));
    if |ids| == 0 || |sent| == 0 then []
    else if album != 0 then
      if MinPositive(sent) <= 0 then [] else Repeat(ids, MinPositive(sent))
    else if |ids| != |sent| then []
    else Zip(ids, SortInts(sent))
  }

  /** After an album was sent, every one of its messages maps to the first message it became. */
  lemma AlbumMapsToFirst(stores: seq<Pair>, msgs: seq<SourceMessage>, sent: seq<int>, album: int, i: nat)
    requires OfAlbum(msgs, album) && MinPositive(sent) > 0 && i < |msgs| && msgs[i].id > 0
    ensures LastStored(stores + Effective(Mappings(msgs, sent, album)), msgs[i].id) == MinPositive(sent)
  {
    var ids := SortInts(PositiveIds(msgs));
    assert msgs[i].id in PositiveIds(msgs);
    assert msgs[i].id in multiset(PositiveIds(msgs)) && msgs[i].id in multiset(ids);
    LastIndex(ids, msgs[i].id);
    var k :| 0 <= k < |ids| && ids[k] == msgs[i].id && forall j :: k < j < |ids| ==> ids[j] != ids[k];
    EffectiveStores(stores, Repeat(ids, MinPositive(sent)), k);
  }

  lemma {:induction false} LastIndex(s: seq<int>, x: int)
    requires x in s
    ensures exists k :: 0 <= k < |s| && s[k] == x && forall j :: k < j < |s| ==> s[j] != s[k]
  {
    var n := |s| - 1;
    assert s == s[..n] + [s[n]];
    if s[n] != x {
      LastIndex(s[..n], x);
      var k :| 0 <= k < n && s[..n][k] == x && forall j :: k < j < n ==> s[..n][j] != s[..n][k];
      forall j | k < j < |s|
        ensures s[j] != s[k]
      {
        assert j < n ==> s[..n][j] == s[j];
      }
    }
  }

  ghost predicate NoRepeats(ids: seq<int>) {
    forall i, j :: 0 <= i < j < |ids| ==> ids[i] != ids[j]
  }

  /** After separate messages were sent, the k-th oldest maps to the k-th oldest of what they became. */
  lemma BatchMapsInOrder(stores: seq<Pair>, msgs: seq<SourceMessage>, sent: seq<int>, k: nat)
    ensures var ids, dsts := SortInts(PositiveIds(msgs)), SortInts(sent);
            |ids| == |dsts| && k < |ids| && dsts[k] > 0 && NoRepeats(ids) ==>
              LastStored(stores + Effective(Mappings(msgs, sent, 0)), ids[k]) == dsts[k]
  {
    var ids, dsts := SortInts(PositiveIds(msgs)), SortInts(sent);
    if |ids| == |dsts| && k < |ids| && dsts[k] > 0 && NoRepeats(ids) {
      assert ids[k] in multiset(ids) && ids[k] in PositiveIds(msgs);
      EffectiveStores(stores, Zip(ids, dsts), k);
    }
  }

  /** A batch maps its own messages only, to what they became; separate messages are mapped only if there is one for
      each. */
  lemma NothingIsGuessed(msgs: seq<SourceMessage>, sent: seq<int>, album: int, p: Pair)
    requires p in Mappings(msgs, sent, album)
    ensures p.src > 0 && p.dst in sent && exists i :: 0 <= i < |msgs| && msgs[i].id == p.src
    ensures album == 0 ==> |sent| == |set i: nat | i < |msgs| && msgs[i].id > 0|
  {
    SortingKeeps(PositiveIds(msgs));
    SortingKeeps(sent);
    var ids, dsts := SortInts(PositiveIds(msgs)), SortInts(sent);
    hide SortInts, Increasing;
    assert p.src in ids;
    assert album == 0 ==> p.dst in dsts;
  }

  lemma SortingKeeps(s: seq<int>)
    ensures |SortInts(s)| == |s| && forall x :: x in SortInts(s) <==> x in s
  {
    var sorted := SortInts(s);
    hide SortInts;
    forall x
      ensures x in sorted <==> x in s
    {
      assert x in sorted <==> x in multiset(sorted);
      assert x in s <==> x in multiset(s);
    }
  }

  /** stores lists what was stored, recency the keys by their last use. */
  class TaskMappings {
    const taskId: nat
    const keepReply: bool
    var cache: MsgMappingCache
    var db: map<int, int>
    ghost var stores: seq<Pair>
    ghost var recency: seq<Pair>

    constructor (taskId: nat, keepReply: bool)
      ensures Valid() && stores == [] && recency == [] && this.taskId == taskId && this.keepReply == keepReply
      ensures fresh(cache) && cache.cap == 50_000
    {
      this.taskId, this.keepReply := taskId, keepReply;
      cache := new MsgMappingCache(50_000);
      db, stores, recency := map[], [], [];
    }

    ghost predicate Valid()
      reads this, cache, cache.ll
    {
      cache.Valid() && Agree(cache.Contents(), cache.cap, db, stores, recency)
    }

    /** The target of a source message, 0 if none was stored: whatever has been evicted, the last stored. */
    method LookupTargetMsgID(src: int) returns (dst: int)
      requires Valid()
      modifies this`recency, cache, cache.Entries()
      ensures Valid() && cache == old(cache) && fresh(cache.Entries() - old(cache.Entries()))
      ensures dst == if taskId == 0 then 0 else LastStored(stores, src)
      ensures recency == if dst > 0 then Bring(old(recency), Pair(src, dst)) else old(recency)
    {
      hide Agree, DistinctKeys, Bring, Linked, Take;
      AgreeMeans(cache.Contents(), cache.cap, db, stores, recency, src);
      if taskId == 0 || src <= 0 {
        return 0;
      }
      ghost var list := cache.Contents();
      var ok;
      dst, ok := cache.Get(src);
      if ok && dst > 0 {
        AgreeAfterUse(list, cache.cap, db, stores, recency, Pair(src, dst));
        recency := Bring(recency, Pair(src, dst));
        return;
      }
      if src !in db {
        return 0;
      }
      dst := db[src];
      if dst <= 0 {
        return 0;
      }
      AgreeAfterUse(list, cache.cap, db, stores, recency, Pair(src, dst));
      cache.Put(src, dst);
      recency := Bring(recency, Pair(src, dst));
    }

    method StoreMsgMapping(src: int, dst: int)
      requires Valid()
      modifies this, cache, cache.Entries()
      ensures Valid() && cache == old(cache) && fresh(cache.Entries() - old(cache.Entries()))
      ensures if !keepReply || taskId == 0 || src <= 0 || dst <= 0 then
                stores == old(stores) && recency == old(recency)
              else
                stores == old(stores) + [Pair(src, dst)] && recency == Bring(old(recency), Pair(src, dst))
    {
      if !keepReply || taskId == 0 || src <= 0 || dst <= 0 {
        return;
      }
      hide Agree, DistinctKeys, Bring, Linked, Take;
      AgreeAfterStore(cache.Contents(), cache.cap, db, stores, recency, Pair(src, dst));
      cache.Put(src, dst);
      Record(Pair(src, dst));
    }

    /** The upsert of one row. */
    method Record(p: Pair)
      requires cache.Valid()
      modifies this`db, this`stores, this`recency
      ensures cache.Valid() && cache.Contents() == old(cache.Contents())
      ensures db == old(db)[p.src := p.dst] && stores == old(stores) + [p] && recency == Bring(old(recency), p)
    {
      hide Linked, DistinctKeys;
      db := db[p.src := p.dst];
      stores, recency := stores + [p], Bring(recency, p);
    }

    /** Stores one pair after the other. */
    method StoreEach(pairs: seq<Pair>)
      requires Valid()
      modifies this, cache, cache.Entries()
      ensures Valid() && cache == old(cache) && fresh(cache.Entries() - old(cache.Entries()))
      ensures stores == if keepReply && taskId != 0 then old(stores) + Effective(pairs) else old(stores)
    {
      hide Valid;
      for i := 0 to |pairs|
        invariant Valid() && cache == old(cache) && fresh(cache.Entries() - old(cache.Entries()))
        invariant stores == if keepReply && taskId != 0 then old(stores) + Effective(pairs[..i]) else old(stores)
      {
        assert pairs[..i + 1][..i] == pairs[..i];
        StoreMsgMapping(pairs[i].src, pairs[i].dst);
      }
      assert pairs[..|pairs|] == pairs;
    }

    /** Stores what a batch became: an album maps to its first message, anything else one to one in order,
        unless the numbers differ. */
    method StoreMsgMappingsInOrder(msgs: seq<SourceMessage>, sent: seq<int>) returns (ghost album: int)
      requires Valid()
      modifies this, cache, cache.Entries()
      ensures Valid() && cache == old(cache)
      ensures if album != 0 then OfAlbum(msgs, album) else forall a :: !OfAlbum(msgs, a)
      ensures stores == if keepReply && taskId != 0 then old(stores) + Effective(Mappings(msgs, sent, album))
                        else old(stores)
    {
      var groupedID := DetectAlbum(msgs);
      album := groupedID;
      if !keepReply || taskId == 0 || |msgs| == 0 || |sent| == 0 {
        return;
      }
      var srcIDs, sentIDs := SortInts(PositiveIds(msgs)), SortInts(sent);
      if |srcIDs| == 0 {
        return;
      }
      if groupedID != 0 {
        var root := MinPositive(sent);
        if root <= 0 {
          return;
        }
        StoreEach(Repeat(srcIDs, root));
        return;
      }
      if |srcIDs| != |sentIDs| {
        return;
      }
      StoreEach(Zip(srcIDs, sentIDs));
    }

    /** Forgets the cache, not the store. */
    method ClearCache()
      requires Valid()
      modifies this`cache, this`recency
      ensures Valid() && fresh(cache) && cache.cap == 50_000 && recency == []
    {
      cache := new MsgMappingCache(50_000);
      recency := [];
    }
  }
}
