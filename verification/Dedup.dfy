/**
 The recent-message cache (Deduper, internal/engine/dedup.go): a map of expiry times, and a queue of
 the marks in order, with lazy deletion, compaction and eviction at capacity.  Time is an integer
 that never goes back.
 */
module Dedup {
  import opened Options

  datatype Key = Key(task: nat, msg: int)

  type Marks = map<Key, int>

  const COMPACT_AFTER := 2048

  // ---- The plain map it stands for ----

  function Live(marks: Marks, now: int): Marks {
    map k | k in marks && marks[k] > now :: marks[k]
  }

  function Without(marks: Marks, victim: Option<Key>): Marks {
    if victim.Some? then marks - {victim.value} else marks
  }

  /** A mark is given up only beyond the capacity, and then the one that would have expired first. */
  ghost predicate Evicts(marks: Marks, maxKeys: nat, victim: Option<Key>) {
    if |marks| <= maxKeys then victim.None?
    else victim.Some? && victim.value in marks && forall k :: k in marks ==> marks[victim.value] <= marks[k]
  }

  /** Expired marks go; an unseen key is marked, at the expense of a victim if need be. */
  function AfterSeen(marks: Marks, now: int, ttl: nat, key: Key, victim: Option<Key>): Marks {
    var live := Live(marks, now);
    if key in live then live else Without(live[key := now + ttl], victim)
  }

  /** A call marks its key for the ttl, unless it is marked still; every other mark that has not expired stays, but for
      a victim that expires no later than the rest. */
  lemma SeenMeans(marks: Marks, now: int, ttl: nat, maxKeys: nat, key: Key, victim: Option<Key>)
    requires if key in Live(marks, now) then victim.None?
             else Evicts(Live(marks, now)[key := now + ttl], maxKeys, victim)
    ensures var after := AfterSeen(marks, now, ttl, key, victim);
            && (forall k :: k in after && k != key ==> k in marks && after[k] == marks[k] > now)
            && (forall k :: k in marks && marks[k] > now && victim != Some(k) ==> k in after && after[k] == marks[k])
            && (victim != Some(key) ==> key in after)
            && (key in after && !(key in marks && marks[key] > now) ==> after[key] == now + ttl)
            && (victim.Some? ==> victim.value !in after && |after| >= maxKeys)
            && (victim.Some? && victim.value in marks && victim.value != key ==>
                  forall k :: k in after ==> marks[victim.value] <= after[k])
  {
    var all := Live(marks, now)[key := now + ttl];
    if victim.Some? {
      assert all.Keys == (all - {victim.value}).Keys + {victim.value};
    }
  }

  // ---- The queue behind it ----

  datatype Entry = Entry(key: Key, exp: int)

  ghost predicate InOrder(order: seq<Entry>) {
    forall i, j :: 0 <= i < j < |order| ==> order[i].exp <= order[j].exp
  }

  /** Every mark has its element in the part of the queue that is still to be looked at. */
  ghost predicate Backed(marks: Marks, order: seq<Entry>, head: nat)
  {
    head <= |order| && forall k :: k in marks ==> Entry(k, marks[k]) in order[head..]
  }

  /** The marks without the one an element of the queue stands for. */
  function Pass(marks: Marks, e: Entry): Marks {
    if e.key in marks && marks[e.key] == e.exp then marks - {e.key} else marks
  }

  lemma PassKeepsBacking(marks: Marks, order: seq<Entry>, head: nat)
    requires head < |order| && Backed(marks, order, head)
    ensures Backed(Pass(marks, order[head]), order, head + 1)
  {
    assert order[head..] == [order[head]] + order[head + 1..];
  }

  lemma HeadIsFirstToExpire(marks: Marks, order: seq<Entry>, head: nat)
    requires head < |order| && Backed(marks, order, head) && InOrder(order)
    ensures forall k :: k in marks ==> order[head].exp <= marks[k]
  {
  }

  lemma NothingBehindTheEnd(marks: Marks, order: seq<Entry>)
    requires Backed(marks, order, |order|)
    ensures marks == map[]
  {
  }

  /** Only expired marks are gone. */
  ghost predicate Pruned(before: Marks, after: Marks, now: int) {
    && (forall k :: k in after ==> k in before && after[k] == before[k])
    && (forall k :: k in before && k !in after ==> before[k] <= now)
  }

  lemma PrunedAndLive(before: Marks, after: Marks, now: int)
    requires Pruned(before, after, now) && forall k :: k in after ==> after[k] > now
    ensures after == Live(before, now)
  {
  }

  lemma LiveStays(marks: Marks, victim: Option<Key>, now: int)
    requires forall k :: k in marks ==> marks[k] > now
    ensures Live(Without(marks, victim), now) == Without(marks, victim)
  {
  }

  /** Passing an element beyond the capacity removes nothing, or the victim. */
  lemma EvictOne(marks: Marks, e: Entry, maxKeys: nat)
    requires |marks| == maxKeys + 1 && forall k :: k in marks ==> e.exp <= marks[k]
    ensures var next := Pass(marks, e);
            next == marks ||
            (|next| == maxKeys && Evicts(marks, maxKeys, Some(e.key)) && next == Without(marks, Some(e.key)))
  {
    if Pass(marks, e) != marks {
      assert marks.Keys == (marks - {e.key}).Keys + {e.key};
    }
  }

  lemma CompactionLosesNothing(marks: Marks, order: seq<Entry>, head: nat)
    requires head <= |order| && Backed(marks, order, head) && InOrder(order)
    ensures Backed(marks, order[head..], 0) && InOrder(order[head..])
    ensures forall e :: e in order[head..] ==> e in order
  {
    assert order[head..][0..] == order[head..];
  }

  /** The part of the queue behind the head is cut off exactly if it is longer than 2048 and than the other part. */
  ghost predicate CompactedAt(before: seq<Entry>, from: nat, after: seq<Entry>, head: nat, passed: nat) {
    && from <= passed <= |before|
    && if passed > 2048 && passed > |before| / 2 then after == before[passed..] && head == 0
       else after == before && head == passed
  }

  lemma EnqueueKeepsBacking(marks: Marks, order: seq<Entry>, head: nat, key: Key, exp: int)
    requires head <= |order| && Backed(marks, order, head) && InOrder(order)
    requires forall e :: e in order ==> e.exp <= exp
    ensures Backed(marks[key := exp], order + [Entry(key, exp)], head) && InOrder(order + [Entry(key, exp)])
  {
    assert (order + [Entry(key, exp)])[head..] == order[head..] + [Entry(key, exp)];
    assert forall i :: 0 <= i < |order| ==> order[i] in order;
  }

  lemma {:induction false} FewerMarks(a: Marks, b: Marks)
    requires forall k :: k in a ==> k in b
    ensures |a| <= |b|
  {
    assert a.Keys <= b.Keys;
    assert b.Keys == a.Keys + (b.Keys - a.Keys);
  }

  class Deduper {
    const ttl: nat
    const maxKeys: nat
    var entries: Marks
    var order: seq<Entry>
    var head: nat
    ghost var clock: int

    constructor (ttl: int, maxKeys: int, ghost clock: int)
      ensures Valid() && entries == map[] && this.clock == clock
      ensures this.ttl == if ttl > 0 then ttl else 600_000_000_000
      ensures this.maxKeys == if maxKeys > 0 then maxKeys else 50_000
    {
      this.ttl := if ttl <= 0 then 600_000_000_000 else ttl;
      this.maxKeys := if maxKeys <= 0 then 50_000 else maxKeys;
      entries, order, head := map[], [], 0;
      this.clock := clock;
    }

    ghost predicate Valid()
      reads this
    {
      && ttl > 0 && maxKeys > 0 && |entries| <= maxKeys
      && head <= |order| && InOrder(order) && Backed(entries, order, head)
      && forall e :: e in order ==> e.exp <= clock + ttl
    }

    /** Takes the front of the queue, with the mark it stands for if that is still there. */
    method PassFront() returns (removed: bool)
      requires head < |order| && Backed(entries, order, head)
      modifies this`entries, this`head
      ensures head == old(head) + 1 && Backed(entries, order, head)
      ensures entries == Pass(old(entries), order[old(head)]) && (removed <==> entries != old(entries))
    {
      var ent := order[head];
      PassKeepsBacking(entries, order, head);
      removed := ent.key in entries && entries[ent.key] == ent.exp;
      if removed {
        entries := entries - {ent.key};
      }
      head := head + 1;
    }

    /** Drops what has expired by now, and compacts the queue once most of it lies behind the head. */
    method PruneLocked(now: int)
      requires head <= |order| && InOrder(order) && Backed(entries, order, head)
      modifies this`entries, this`order, this`head
      ensures head <= |order| && InOrder(order) && Backed(entries, order, head)
      ensures entries == Live(old(entries), now)
      ensures forall e :: e in order ==> e in old(order)
      ensures exists passed :: CompactedAt(old(order), old(head), order, head, passed)
    {
      hide InOrder, Backed, Live;
      while head < |order|
        invariant head <= |order| && InOrder(order) && Backed(entries, order, head) && order == old(order)
        invariant Pruned(old(entries), entries, now) && head >= old(head)
      {
        var ent := order[head];
        HeadIsFirstToExpire(entries, order, head);
        if ent.exp > now {
          break;
        }
        var removed := PassFront();
      }
      if head == |order| {
        NothingBehindTheEnd(entries, order);
      }
      PrunedAndLive(old(entries), entries, now);
      ghost var passed := head;
      if head > COMPACT_AFTER && head > |order| / 2 {
        CompactionLosesNothing(entries, order, head);
        order := order[head..];
        head := 0;
      }
      assert CompactedAt(old(order), old(head), order, head, passed);
    }

    /** Takes marks from the front of the queue until the capacity is kept. */
    method EvictFront() returns (ghost victim: Option<Key>)
      requires head <= |order| && InOrder(order) && Backed(entries, order, head) && |entries| == maxKeys + 1
      modifies this`entries, this`head
      ensures head <= |order| && Backed(entries, order, head)
      ensures Evicts(old(entries), maxKeys, victim) && entries == Without(old(entries), victim)
      ensures |entries| <= maxKeys
    {
      hide InOrder, Backed, Evicts, Pass;
      victim := None;
      while |entries| > maxKeys && head < |order|
        invariant |entries| <= maxKeys + 1
        invariant head <= |order| && InOrder(order) && Backed(entries, order, head) && order == old(order)
        invariant entries == Without(old(entries), victim)
        invariant if |entries| > maxKeys then victim.None? else Evicts(old(entries), maxKeys, victim)
        decreases |order| - head
      {
        EvictOne(entries, order[head], maxKeys) by {
          HeadIsFirstToExpire(entries, order, head);
        }
        var removed := PassFront();
        if removed {
          victim := Some(order[head - 1].key);
        }
      }
      if head == |order| && |entries| > maxKeys {
        NothingBehindTheEnd(entries, order);
      }
    }

    /** Gives up what is beyond the capacity, at most one mark. */
    method EvictLocked(now: int) returns (ghost victim: Option<Key>)
      requires head <= |order| && InOrder(order) && Backed(entries, order, head)
      requires |entries| <= maxKeys + 1 && forall k :: k in entries ==> entries[k] > now
      modifies this`entries, this`order, this`head
      ensures head <= |order| && InOrder(order) && Backed(entries, order, head)
      ensures Evicts(old(entries), maxKeys, victim) && entries == Without(old(entries), victim)
      ensures |entries| <= maxKeys
      ensures forall e :: e in order ==> e in old(order)
    {
      victim := None;
      if |entries| <= maxKeys {
        return;
      }
      hide InOrder, Backed, Live, Without;
      LiveStays(entries, victim, now);
      victim := EvictFront();
      LiveStays(old(entries), victim, now);
      PruneLocked(now);
    }

    /** Whether the message was marked and has not expired since; if not, it is marked now. */
    method Seen(taskID: nat, msgID: int, now: int) returns (seen: bool, ghost victim: Option<Key>)
      requires Valid() && now >= clock
      modifies this
      ensures Valid()
      ensures taskID == 0 || msgID <= 0 ==> !seen && entries == old(entries) && clock == old(clock)
      ensures taskID > 0 && msgID > 0 ==>
                && clock == now
                && (seen <==> Key(taskID, msgID) in Live(old(entries), now))
                && entries == AfterSeen(old(entries), now, ttl, Key(taskID, msgID), victim)
                && (seen <==> Key(taskID, msgID) in old(entries) && old(entries)[Key(taskID, msgID)] > now)
                && (seen ==> victim.None?)
                && (!seen ==> Evicts(Live(old(entries), now)[Key(taskID, msgID) := now + ttl], maxKeys, victim))
    {
      hide InOrder, Backed, Evicts;
      seen, victim := false, None;
      if taskID == 0 || msgID <= 0 {
        return;
      }
      var exp, key := now + ttl, Key(taskID, msgID);
      clock := now;
      PruneLocked(now);
      FewerMarks(entries, old(entries));
      if key in entries && entries[key] > now {
        return true, None;
      }
      EnqueueKeepsBacking(entries, order, head, key, exp);
      assert entries[key := exp].Keys == entries.Keys + {key};
      entries := entries[key := exp];
      order := order + [Entry(key, exp)];
      victim := EvictLocked(now);
    }

    method DropTask(taskID: nat)
      requires Valid()
      modifies this`entries
      ensures Valid()
      ensures entries == if taskID == 0 then old(entries)
                         else map k | k in old(entries) && k.task != taskID :: old(entries)[k]
    {
      if taskID == 0 {
        return;
      }
      entries := map k | k in entries && k.task != taskID :: entries[k];
      FewerMarks(entries, old(entries));
    }

    method Forget(taskID: nat, msgID: int)
      requires Valid()
      modifies this`entries
      ensures Valid()
      ensures entries == if taskID == 0 || msgID <= 0 then old(entries) else old(entries) - {Key(taskID, msgID)}
    {
      if taskID == 0 || msgID <= 0 {
        return;
      }
      entries := entries - {Key(taskID, msgID)};
      FewerMarks(entries, old(entries));
    }
  }

  // ---- Whole runs ----

  datatype Event = SeenEvent(now: int, key: Key, victim: Option<Key>) | ForgetEvent(key: Key) | DropEvent(task: nat)

  function Apply(marks: Marks, ttl: nat, e: Event): Marks {
    match e
    case SeenEvent(now, key, victim) => AfterSeen(marks, now, ttl, key, victim)
    case ForgetEvent(key) => marks - {key}
    case DropEvent(task) => map k | k in marks && k.task != task :: marks[k]
  }

  function After(events: seq<Event>, ttl: nat): Marks {
    if |events| == 0 then map[] else Apply(After(events[..|events| - 1], ttl), ttl, events[|events| - 1])
  }

  /** No call before this instant. */
  ghost predicate Upto(events: seq<Event>, now: int) {
    forall i :: 0 <= i < |events| && events[i].SeenEvent? ==> events[i].now <= now
  }

  ghost predicate ClockGoesOn(events: seq<Event>) {
    forall i :: 0 <= i < |events| && events[i].SeenEvent? ==> Upto(events[..i], events[i].now)
  }

  /** The call marked the key: it answered that it had not seen it. */
  ghost predicate MarkedBy(events: seq<Event>, ttl: nat, i: nat, key: Key)
  {
    i < |events| && events[i].SeenEvent? && events[i].key == key && key !in Live(After(events[..i], ttl), events[i].now)
  }

  predicate Removes(e: Event, key: Key) {
    match e
    case SeenEvent(_, _, victim) => victim == Some(key)
    case ForgetEvent(k) => k == key
    case DropEvent(task) => task == key.task
  }

  /** The i-th call marked the key, its mark has not expired, and it was neither forgotten nor dropped nor
      evicted since. */
  ghost predicate MarkHolds(events: seq<Event>, ttl: nat, now: int, key: Key, i: nat)
  {
    && MarkedBy(events, ttl, i, key) && events[i].now + ttl > now
    && forall j :: i <= j < |events| ==> !Removes(events[j], key)
  }

  ghost predicate StillMarked(events: seq<Event>, ttl: nat, now: int, key: Key) {
    exists i :: 0 <= i < |events| && MarkHolds(events, ttl, now, key, i)
  }

  /** One more call keeps an earlier mark unless it removes the key. */
  lemma MarkHoldsOn(events: seq<Event>, ttl: nat, now: int, key: Key, i: nat)
    requires i < |events| - 1
    ensures var n, init := |events| - 1, events[..|events| - 1];
            MarkHolds(events, ttl, now, key, i) <==> MarkHolds(init, ttl, now, key, i) && !Removes(events[n], key)
  {
    var n, init := |events| - 1, events[..|events| - 1];
    assert init[..i] == events[..i];
    assert forall j :: i <= j < n ==> init[j] == events[j];
  }

  lemma StillMarkedSince(events: seq<Event>, ttl: nat, now: int, key: Key)
    requires |events| > 0
    ensures var n, init := |events| - 1, events[..|events| - 1];
            StillMarked(events, ttl, now, key) <==>
            !Removes(events[n], key) &&
            (StillMarked(init, ttl, now, key) || (MarkedBy(events, ttl, n, key) && events[n].now + ttl > now))
  {
    var n, init := |events| - 1, events[..|events| - 1];
    forall i: nat | i < n
      ensures MarkHolds(events, ttl, now, key, i) <==> MarkHolds(init, ttl, now, key, i) && !Removes(events[n], key)
    {
      MarkHoldsOn(events, ttl, now, key, i);
    }
    assert MarkHolds(events, ttl, now, key, n) <==>
           MarkedBy(events, ttl, n, key) && events[n].now + ttl > now && !Removes(events[n], key);
    hide MarkHolds, MarkedBy, Removes;
    if StillMarked(init, ttl, now, key) && !Removes(events[n], key) {
      var i :| 0 <= i < n && MarkHolds(init, ttl, now, key, i);
      assert MarkHolds(events, ttl, now, key, i);
    }
    if StillMarked(events, ttl, now, key) {
      var i :| 0 <= i < |events| && MarkHolds(events, ttl, now, key, i);
      assert MarkHolds(events, ttl, now, key, i) ==> !Removes(events[n], key) by {
        assert i <= n;
        if i < n {
          MarkHoldsOn(events, ttl, now, key, i);
        }
      }
    }
  }

  /** What one call does to one key. */
  lemma ApplyToKey(marks: Marks, ttl: nat, e: Event, now: int, key: Key)
    requires e.SeenEvent? ==> e.now <= now && (e.key in Live(marks, e.now) ==> e.victim.None?)
    ensures key in Live(Apply(marks, ttl, e), now) <==>
            !Removes(e, key) &&
            (key in Live(marks, now) ||
             (e.SeenEvent? && e.key == key && key !in Live(marks, e.now) && e.now + ttl > now))
  {
  }

  /** The clock never goes back, and a call that sees its key evicts nobody. */
  ghost predicate Sensible(events: seq<Event>, ttl: nat) {
    && ClockGoesOn(events)
    && forall i :: 0 <= i < |events| && events[i].SeenEvent? && !MarkedBy(events, ttl, i, events[i].key) ==>
         events[i].victim.None?
  }

  lemma SensibleBefore(events: seq<Event>, ttl: nat)
    requires Sensible(events, ttl) && |events| > 0
    ensures var init, e := events[..|events| - 1], events[|events| - 1];
            && Sensible(init, ttl)
            && (e.SeenEvent? ==> Upto(init, e.now) && (e.key in Live(After(init, ttl), e.now) ==> e.victim.None?))
  {
    var init, e := events[..|events| - 1], events[|events| - 1];
    assert forall i :: 0 <= i < |init| ==> init[..i] == events[..i];
    if e.SeenEvent? && e.key in Live(After(init, ttl), e.now) {
      assert !MarkedBy(events, ttl, |events| - 1, e.key);
    }
  }

  /** Over every run, a call sees a key exactly if it was marked within the ttl and not removed since. */
  lemma {:induction false} SeenExactlyWhenMarked(events: seq<Event>, ttl: nat, now: int, key: Key)
    requires Sensible(events, ttl) && Upto(events, now)
    ensures key in Live(After(events, ttl), now) <==> StillMarked(events, ttl, now, key)
  {
    if |events| > 0 {
      var init, e := events[..|events| - 1], events[|events| - 1];
      SensibleBefore(events, ttl);
      SeenExactlyWhenMarked(init, ttl, now, key);
      assert e.SeenEvent? ==> e.now <= now;
      hide Live, Sensible, StillMarked, Removes;
      ApplyToKey(After(init, ttl), ttl, e, now, key);
      StillMarkedSince(events, ttl, now, key);
    }
  }
}
