/**
 The debouncing album grouper (AlbumGrouper, internal/engine/grouper.go:14-144).

 A timer that was stopped too late still fires; whether stopping one succeeded is an oracle.  Each call
 holds the lock, so a run is a sequence of calls and firings.
 */
module Grouper {
  /** Task and album; 0 stands for none. */
  datatype Key = Key(task: nat, album: int)

  datatype Message = Message(id: int, text: string)

  datatype Group = Group(timerId: nat, msgs: seq<Message>)

  datatype Arrival = Arrival(key: Key, msg: Message)

  /** A group that has ended: handed to its flush callback, or dropped. */
  datatype Batch = Batch(key: Key, msgs: seq<Message>, delivered: bool)

  /** The grouper, the timers that may still fire, what was accepted, and what has ended. */
  datatype Box = Box(
    groups: map<Key, Group>,
    counter: nat,
    timers: map<nat, Key>,
    accepted: seq<Arrival>,
    ended: seq<Batch>)

  const EMPTY := Box(map[], 0, map[], [], [])

  predicate Groupable(key: Key) {
    key.task != 0 && key.album != 0
  }

  function Pending(groups: map<Key, Group>, key: Key): seq<Message> {
    if key in groups then groups[key].msgs else []
  }

  predicate Holds(msgs: seq<Message>, id: int) {
    exists i :: 0 <= i < |msgs| && msgs[i].id == id
  }

  /** Stopping a timer: it is gone, unless it was already on its way. */
  function StopTimer(timers: map<nat, Key>, id: nat, escapes: bool): map<nat, Key> {
    if escapes then timers else timers - {id}
  }

  // ---- What each call does ----

  function Enter(s: Box, key: Key, msg: Message, escapes: bool): Box {
    var pending := Pending(s.groups, key);
    if !Groupable(key) then
      s.(accepted := s.accepted + [Arrival(key, msg)], ended := s.ended + [Batch(key, [msg], true)])
    else if msg.id != 0 && Holds(pending, msg.id) then s
    else
      var id := s.counter + 1;
      var timers := if key in s.groups then StopTimer(s.timers, s.groups[key].timerId, escapes) else s.timers;
      s.(groups := s.groups[key := Group(id, pending + [msg])],
         counter := id,
         timers := timers[id := key],
         accepted := s.accepted + [Arrival(key, msg)])
  }

  /** A timer goes off; it ends the group only if it is still the group's own. */
  function Expire(s: Box, id: nat): Box
    requires id in s.timers
  {
    var key := s.timers[id];
    var next := s.(timers := s.timers - {id});
    if key in s.groups && s.groups[key].timerId == id then
      next.(groups := s.groups - {key}, ended := s.ended + [Batch(key, s.groups[key].msgs, true)])
    else next
  }

  /** Ends one group ahead of its timer, as flushing or dropping its task does. */
  function Close(s: Box, key: Key, delivered: bool, escapes: bool): Box
    requires key in s.groups
  {
    s.(groups := s.groups - {key},
       timers := StopTimer(s.timers, s.groups[key].timerId, escapes),
       ended := s.ended + [Batch(key, s.groups[key].msgs, delivered)])
  }

  // ---- What always holds ----

  function Arrived(accepted: seq<Arrival>, key: Key): seq<Message> {
    if |accepted| == 0 then []
    else
      var last := accepted[|accepted| - 1];
      Arrived(accepted[..|accepted| - 1], key) + if last.key == key then [last.msg] else []
  }

  function EndedOf(ended: seq<Batch>, key: Key): seq<Message> {
    if |ended| == 0 then []
    else
      var last := ended[|ended| - 1];
      EndedOf(ended[..|ended| - 1], key) + if last.key == key then last.msgs else []
  }

  lemma ArrivedMore(accepted: seq<Arrival>, a: Arrival, key: Key)
    ensures Arrived(accepted + [a], key) == Arrived(accepted, key) + if a.key == key then [a.msg] else []
  {
    assert (accepted + [a])[..|accepted|] == accepted;
  }

  lemma EndedMore(ended: seq<Batch>, b: Batch, key: Key)
    ensures EndedOf(ended + [b], key) == EndedOf(ended, key) + if b.key == key then b.msgs else []
  {
    assert (ended + [b])[..|ended|] == ended;
  }

  ghost predicate NoDuplicates(msgs: seq<Message>) {
    forall i, j :: 0 <= i < j < |msgs| && msgs[i].id != 0 ==> msgs[i].id != msgs[j].id
  }

  /** Per album, the messages accepted are those of the ended groups and those pending, in order. */
  ghost predicate Conserved(s: Box) {
    forall key :: Arrived(s.accepted, key) == EndedOf(s.ended, key) + Pending(s.groups, key)
  }

  /** Every group holds something, without duplicates, and a timer that carries its id is on its way. */
  ghost predicate GroupsAreTimed(s: Box) {
    && (forall key :: key in s.groups ==>
          && Groupable(key) && |s.groups[key].msgs| > 0 && NoDuplicates(s.groups[key].msgs)
          && s.groups[key].timerId in s.timers && s.timers[s.groups[key].timerId] == key)
    && (forall id :: id in s.timers ==> 0 < id <= s.counter)
  }

  ghost predicate BatchesAreClean(s: Box) {
    forall b :: b in s.ended ==> |b.msgs| > 0 && NoDuplicates(b.msgs)
  }

  ghost predicate Invariant(s: Box) {
    Conserved(s) && GroupsAreTimed(s) && BatchesAreClean(s)
  }

  lemma EnterConservesOne(s: Box, key: Key, msg: Message, escapes: bool, k: Key)
    requires Arrived(s.accepted, k) == EndedOf(s.ended, k) + Pending(s.groups, k)
    requires key == k && !Groupable(key) ==> Pending(s.groups, k) == []
    ensures var next := Enter(s, key, msg, escapes);
            Arrived(next.accepted, k) == EndedOf(next.ended, k) + Pending(next.groups, k)
  {
    hide Holds, Arrived, EndedOf, StopTimer;
    ArrivedMore(s.accepted, Arrival(key, msg), k);
    EndedMore(s.ended, Batch(key, [msg], true), k);
    var ended, pending := EndedOf(s.ended, k), Pending(s.groups, k);
    assert ended + pending + [msg] == ended + (pending + [msg]);
  }

  lemma EnterConserves(s: Box, key: Key, msg: Message, escapes: bool)
    requires Conserved(s) && GroupsAreTimed(s)
    ensures Conserved(Enter(s, key, msg, escapes))
  {
    assert !Groupable(key) ==> Pending(s.groups, key) == [];
    forall k
      ensures var next := Enter(s, key, msg, escapes);
              Arrived(next.accepted, k) == EndedOf(next.ended, k) + Pending(next.groups, k)
    {
      hide Enter, GroupsAreTimed;
      assert Arrived(s.accepted, k) == EndedOf(s.ended, k) + Pending(s.groups, k);
      EnterConservesOne(s, key, msg, escapes, k);
    }
  }

  lemma EnterKeepsTimers(s: Box, key: Key, msg: Message, escapes: bool)
    requires GroupsAreTimed(s)
    ensures GroupsAreTimed(Enter(s, key, msg, escapes))
  {
    var pending := Pending(s.groups, key);
    assert msg.id == 0 || !Holds(pending, msg.id) ==> NoDuplicates(pending + [msg]);
  }

  lemma EnterKeepsInvariant(s: Box, key: Key, msg: Message, escapes: bool)
    requires Invariant(s)
    ensures Invariant(Enter(s, key, msg, escapes))
  {
    EnterConserves(s, key, msg, escapes);
    EnterKeepsTimers(s, key, msg, escapes);
    hide Conserved, GroupsAreTimed;
  }

  lemma ExpireKeepsInvariant(s: Box, id: nat)
    requires Invariant(s) && id in s.timers
    ensures Invariant(Expire(s, id))
  {
    var key := s.timers[id];
    if key in s.groups && s.groups[key].timerId == id {
      forall k
        ensures Arrived(s.accepted, k) == EndedOf(Expire(s, id).ended, k) + Pending(Expire(s, id).groups, k)
      {
        EndedMore(s.ended, Batch(key, s.groups[key].msgs, true), k);
      }
    }
  }

  lemma CloseKeepsInvariant(s: Box, key: Key, delivered: bool, escapes: bool)
    requires Invariant(s) && key in s.groups
    ensures Invariant(Close(s, key, delivered, escapes))
  {
    var next := Close(s, key, delivered, escapes);
    forall k
      ensures Arrived(s.accepted, k) == EndedOf(next.ended, k) + Pending(next.groups, k)
    {
      EndedMore(s.ended, Batch(key, s.groups[key].msgs, delivered), k);
    }
  }

  // ---- Whole runs ----

  datatype Event =
    | AddEvent(key: Key, msg: Message, escapes: bool)
    | FireEvent(id: nat)
    | CloseEvent(key: Key, delivered: bool, escapes: bool)

  predicate Enabled(s: Box, e: Event) {
    match e
    case AddEvent(_, _, _) => true
    case FireEvent(id) => id in s.timers
    case CloseEvent(key, _, _) => key in s.groups
  }

  function Step(s: Box, e: Event): Box
    requires Enabled(s, e)
  {
    match e
    case AddEvent(key, msg, escapes) => Enter(s, key, msg, escapes)
    case FireEvent(id) => Expire(s, id)
    case CloseEvent(key, delivered, escapes) => Close(s, key, delivered, escapes)
  }

  predicate Feasible(s: Box, events: seq<Event>)
    decreases |events|
  {
    |events| == 0 || (Enabled(s, events[0]) && Feasible(Step(s, events[0]), events[1..]))
  }

  function After(s: Box, events: seq<Event>): Box
    requires Feasible(s, events)
    decreases |events|
  {
    if |events| == 0 then s else After(Step(s, events[0]), events[1..])
  }

  lemma StepKeepsInvariant(s: Box, e: Event)
    requires Invariant(s) && Enabled(s, e)
    ensures Invariant(Step(s, e))
  {
    hide Invariant, Enter, Expire, Close;
    match e
    case AddEvent(key, msg, escapes) => EnterKeepsInvariant(s, key, msg, escapes);
    case FireEvent(id) => ExpireKeepsInvariant(s, id);
    case CloseEvent(key, delivered, escapes) => CloseKeepsInvariant(s, key, delivered, escapes);
  }

  lemma {:induction false} RunKeepsInvariant(s: Box, events: seq<Event>)
    requires Invariant(s) && Feasible(s, events)
    ensures Invariant(After(s, events))
    decreases |events|
  {
    if |events| > 0 {
      StepKeepsInvariant(s, events[0]);
      hide Invariant, Step;
      RunKeepsInvariant(Step(s, events[0]), events[1..]);
    }
  }

  /** Over every run from an empty grouper: per album, in order of arrival and without one lost or
      repeated, the accepted messages are in ended groups or pending. */
  lemma EveryMessageIsInOnePlace(events: seq<Event>, key: Key)
    requires Feasible(EMPTY, events)
    ensures var s := After(EMPTY, events);
            && Arrived(s.accepted, key) == EndedOf(s.ended, key) + Pending(s.groups, key)
            && NoDuplicates(Pending(s.groups, key))
            && forall b :: b in s.ended ==> |b.msgs| > 0 && NoDuplicates(b.msgs)
  {
    RunKeepsInvariant(EMPTY, events);
  }

  lemma GroupsNeedTimers(s: Box)
    requires GroupsAreTimed(s) && s.groups != map[]
    ensures s.timers != map[]
  {
    var k :| k in s.groups;
    assert s.groups[k].timerId in s.timers;
  }

  /** Once no timer is left to fire, nothing is pending. */
  lemma QuietMeansEmpty(events: seq<Event>, key: Key)
    requires Feasible(EMPTY, events) && After(EMPTY, events).timers == map[]
    ensures var s := After(EMPTY, events);
            s.groups == map[] && Arrived(s.accepted, key) == EndedOf(s.ended, key)
  {
    RunKeepsInvariant(EMPTY, events);
    var s := After(EMPTY, events);
    if s.groups != map[] {
      GroupsNeedTimers(s);
    }
    assert Arrived(s.accepted, key) == EndedOf(s.ended, key) + Pending(s.groups, key);
  }

  /** In every run, a timer ends a group exactly if it is the last one set for it; one that was replaced
      or stopped too late changes nothing but itself. */
  lemma StaleTimersFlushNothing(events: seq<Event>, id: nat)
    requires Feasible(EMPTY, events) && id in After(EMPTY, events).timers
    ensures var s := After(EMPTY, events);
            var key := s.timers[id];
            if key in s.groups && s.groups[key].timerId == id then
              Expire(s, id) == Close(s, key, true, false)
            else
              Expire(s, id) == s.(timers := s.timers - {id})
              && forall k :: k in s.groups ==> s.groups[k].timerId != id
  {
    RunKeepsInvariant(EMPTY, events);
  }

  /** A further message of an album postpones its end: the timer it replaces is gone, or no longer ends the album if
      it could not be stopped. */
  lemma ArrivalPostponesTheEnd(s: Box, key: Key, msg: Message, escapes: bool)
    requires Invariant(s) && key in s.groups
    requires msg.id == 0 || forall i :: 0 <= i < |s.groups[key].msgs| ==> s.groups[key].msgs[i].id != msg.id
    ensures var next := Enter(s, key, msg, escapes);
            var earlier := s.groups[key].timerId;
            && key in next.groups && next.groups[key].msgs == s.groups[key].msgs + [msg]
            && earlier != next.groups[key].timerId && (earlier in next.timers <==> escapes)
            && (escapes ==> Expire(next, earlier).groups == next.groups && Expire(next, earlier).ended == next.ended)
            && next.groups[key].timerId in next.timers && next.timers[next.groups[key].timerId] == key
            && next.groups[key].timerId !in s.timers
  {
    assert !Holds(s.groups[key].msgs, msg.id) || msg.id == 0;
  }

  /** An album that is flushed or dropped leaves no timer behind, unless it could not be stopped. */
  lemma CloseStopsTheTimer(s: Box, key: Key, delivered: bool, escapes: bool)
    requires Invariant(s) && key in s.groups
    ensures var next := Close(s, key, delivered, escapes);
            && next.groups == s.groups - {key} && next.accepted == s.accepted
            && next.ended == s.ended + [Batch(key, s.groups[key].msgs, delivered)]
            && forall id :: id in next.timers <==> id in s.timers && (escapes || id != s.groups[key].timerId)
  {
  }

  // ---- Nothing is turned away ----

  /** A message with the same id is pending in the album. */
  ghost predicate IsPending(s: Box, key: Key, id: int) {
    key in s.groups && exists i :: 0 <= i < |s.groups[key].msgs| && s.groups[key].msgs[i].id == id
  }

  /** A message is accepted, unless it belongs to an album that holds its id already: then nothing happens. */
  lemma OnlyDuplicatesAreTurnedAway(s: Box, key: Key, msg: Message, escapes: bool)
    ensures var next := Enter(s, key, msg, escapes);
            if key.task != 0 && key.album != 0 && msg.id != 0 && IsPending(s, key, msg.id) then next == s
            else next.accepted == s.accepted + [Arrival(key, msg)]
  {
    assert Holds(Pending(s.groups, key), msg.id) ==> IsPending(s, key, msg.id);
  }

  /** A message outside albums, or one whose id is pending in its album, changes no group; any other is appended to its
      own. */
  ghost predicate Joins(before: map<Key, Group>, after: map<Key, Group>, key: Key, msg: Message) {
    var pending := if key in before then before[key].msgs else [];
    if || key.task == 0 || key.album == 0
       || (msg.id != 0 && exists i :: 0 <= i < |pending| && pending[i].id == msg.id) then
      after == before
    else
      && after.Keys == before.Keys + {key} && after[key].msgs == pending + [msg]
      && forall k :: k in before && k != key ==> after[k] == before[k]
  }

  lemma EnterJoins(s: Box, key: Key, msg: Message, escapes: bool)
    ensures Joins(s.groups, Enter(s, key, msg, escapes).groups, key, msg)
  {
  }

  /** The message, or one that stands for it, was accepted. */
  ghost predicate WasTaken(accepted: seq<Arrival>, key: Key, msg: Message) {
    if msg.id == 0 then Arrival(key, msg) in accepted
    else exists i :: 0 <= i < |accepted| && accepted[i].key == key && accepted[i].msg.id == msg.id
  }

  lemma {:induction false} AcceptedGrows(s: Box, events: seq<Event>)
    requires Feasible(s, events)
    ensures s.accepted <= After(s, events).accepted
    decreases |events|
  {
    if |events| > 0 {
      hide Holds, StopTimer;
      AcceptedGrows(Step(s, events[0]), events[1..]);
    }
  }

  lemma {:induction false} WasArrived(accepted: seq<Arrival>, key: Key, id: int)
    requires exists m :: m in Arrived(accepted, key) && m.id == id
    ensures exists i :: 0 <= i < |accepted| && accepted[i].key == key && accepted[i].msg.id == id
  {
    var n := |accepted| - 1;
    if |accepted| > 0 && !(accepted[n].key == key && accepted[n].msg.id == id) {
      WasArrived(accepted[..n], key, id);
      var i :| 0 <= i < n && accepted[..n][i].key == key && accepted[..n][i].msg.id == id;
      assert accepted[i].key == key && accepted[i].msg.id == id;
    }
  }

  lemma EntersOrIsPending(s: Box, key: Key, msg: Message, escapes: bool)
    requires Conserved(s)
    ensures WasTaken(Enter(s, key, msg, escapes).accepted, key, msg)
  {
    OnlyDuplicatesAreTurnedAway(s, key, msg, escapes);
    var next := Enter(s, key, msg, escapes);
    if next == s && msg.id != 0 && IsPending(s, key, msg.id) {
      var i :| 0 <= i < |s.groups[key].msgs| && s.groups[key].msgs[i].id == msg.id;
      assert Arrived(s.accepted, key) == EndedOf(s.ended, key) + Pending(s.groups, key);
      assert s.groups[key].msgs[i] in Arrived(s.accepted, key);
      WasArrived(s.accepted, key, msg.id);
    } else {
      assert next.accepted[|s.accepted|] == Arrival(key, msg);
    }
  }

  lemma TakenStays(before: seq<Arrival>, after: seq<Arrival>, key: Key, msg: Message)
    requires before <= after && WasTaken(before, key, msg)
    ensures WasTaken(after, key, msg)
  {
    if msg.id != 0 {
      var i :| 0 <= i < |before| && before[i].key == key && before[i].msg.id == msg.id;
      assert after[i] == before[i];
    } else {
      assert after == before + after[|before|..];
    }
  }

  /** Over every run, every message added was accepted, itself or, with the same id, into the same album. */
  lemma {:induction false} EveryMessageIsTaken(s: Box, events: seq<Event>, i: nat)
    requires Invariant(s) && Feasible(s, events) && i < |events| && events[i].AddEvent?
    ensures WasTaken(After(s, events).accepted, events[i].key, events[i].msg)
    decreases |events|
  {
    var next := Step(s, events[0]);
    if i == 0 {
      EntersOrIsPending(s, events[0].key, events[0].msg, events[0].escapes);
      AcceptedGrows(next, events[1..]);
      TakenStays(next.accepted, After(s, events).accepted, events[0].key, events[0].msg);
    } else {
      StepKeepsInvariant(s, events[0]);
      EveryMessageIsTaken(next, events[1..], i - 1);
    }
  }

  // ---- The grouper ----

  lemma NothingYet(s: Box)
    ensures Feasible(s, []) && After(s, []) == s
  {
  }

  lemma {:induction false} OneMore(s: Box, events: seq<Event>, e: Event)
    requires Feasible(s, events) && Enabled(After(s, events), e)
    ensures Feasible(s, events + [e]) && After(s, events + [e]) == Step(After(s, events), e)
    decreases |events|
  {
    if |events| == 0 {
      assert [e][1..] == [] && events + [e] == [e];
    } else {
      assert (events + [e])[1..] == events[1..] + [e];
      OneMore(Step(s, events[0]), events[1..], e);
    }
  }

  /** The groups of a task are closed, each once. */
  ghost predicate Closes(groups: map<Key, Group>, task: nat, events: seq<Event>, delivered: bool,
                         escapes: nat -> bool)
  {
    && (forall i :: 0 <= i < |events| ==>
          && events[i].CloseEvent? && events[i].delivered == delivered
          && events[i].key in groups && events[i].key.task == task
          && events[i].escapes == escapes(groups[events[i].key].timerId))
    && (forall i, j :: 0 <= i < j < |events| ==> events[i].key != events[j].key)
  }

  /** A task some of whose groups are still to be closed. */
  ghost predicate PartlyClosed(before: Box, now: Box, task: nat, left: set<Key>, events: seq<Event>,
                               batches: seq<seq<Message>>, delivered: bool, escapes: nat -> bool) {
    && Closes(before.groups, task, events, delivered, escapes)
    && Feasible(before, events) && now == After(before, events)
    && (forall k :: k in left ==> k in before.groups && k.task == task)
    && now.groups == (map k | k in before.groups && (k.task != task || k in left) :: before.groups[k])
    && (forall i :: 0 <= i < |events| ==> events[i].key !in left)
    && |batches| == |events| && (forall i :: 0 <= i < |events| ==> batches[i] == before.groups[events[i].key].msgs)
  }

  lemma CloseOne(before: Box, now: Box, task: nat, left: set<Key>, events: seq<Event>, batches: seq<seq<Message>>,
                 delivered: bool, escapes: nat -> bool, key: Key)
    requires PartlyClosed(before, now, task, left, events, batches, delivered, escapes) && key in left
    ensures key in now.groups && now.groups[key] == before.groups[key]
    ensures var escape := escapes(now.groups[key].timerId);
            PartlyClosed(before, Close(now, key, delivered, escape), task, left - {key},
                         events + [CloseEvent(key, delivered, escape)], batches + [now.groups[key].msgs],
                         delivered, escapes)
  {
    var escape := escapes(now.groups[key].timerId);
    hide Feasible, After;
    OneMore(before, events, CloseEvent(key, delivered, escape));
  }

  lemma AllClosed(before: Box, now: Box, task: nat, events: seq<Event>, batches: seq<seq<Message>>, delivered: bool,
                  escapes: nat -> bool)
    requires PartlyClosed(before, now, task, {}, events, batches, delivered, escapes)
    ensures Closes(before.groups, task, events, delivered, escapes)
    ensures Feasible(before, events) && now == After(before, events)
    ensures now.groups == map k | k in before.groups && k.task != task :: before.groups[k]
    ensures |batches| == |events|
    ensures forall i :: 0 <= i < |events| ==> batches[i] == before.groups[events[i].key].msgs
  {
  }

  lemma NoneClosed(before: Box, task: nat, delivered: bool, escapes: nat -> bool)
    ensures PartlyClosed(before, before, task, set k | k in before.groups && k.task == task, [], [], delivered, escapes)
  {
  }

  class AlbumGrouper {
    var groups: map<Key, Group>
    var counter: nat
    ghost var timers: map<nat, Key>
    ghost var accepted: seq<Arrival>
    ghost var ended: seq<Batch>

    constructor ()
      ensures Valid() && Abs() == EMPTY
    {
      groups, counter, timers, accepted, ended := map[], 0, map[], [], [];
    }

    ghost function Abs(): Box
      reads this
    {
      Box(groups, counter, timers, accepted, ended)
    }

    ghost predicate Valid()
      reads this
    {
      Invariant(Abs())
    }

    static method IsDuplicate(msgs: seq<Message>, id: int) returns (dup: bool)
      ensures dup <==> Holds(msgs, id)
    {
      for i := 0 to |msgs|
        invariant forall k :: 0 <= k < i ==> msgs[k].id != id
      {
        if msgs[i].id == id {
          return true;
        }
      }
      dup := false;
    }

    /** Adds a message to its album, or flushes it at once if it has none. */
    method Add(taskID: nat, groupedID: int, msg: Message, ghost escapes: bool) returns (flushed: seq<seq<Message>>)
      requires Valid()
      modifies this
      ensures Valid() && Abs() == Enter(old(Abs()), Key(taskID, groupedID), msg, escapes)
      ensures Enabled(old(Abs()), AddEvent(Key(taskID, groupedID), msg, escapes))
      ensures flushed == if taskID == 0 || groupedID == 0 then [[msg]] else []
      ensures Joins(old(groups), groups, Key(taskID, groupedID), msg)
    {
      var key := Key(taskID, groupedID);
      EnterKeepsInvariant(Abs(), key, msg, escapes);
      EnterJoins(Abs(), key, msg, escapes);
      hide Invariant, Holds, Joins;
      if taskID == 0 || groupedID == 0 {
        accepted, ended := accepted + [Arrival(key, msg)], ended + [Batch(key, [msg], true)];
        return [[msg]];
      }
      flushed := [];
      var pending := Pending(groups, key);
      if msg.id != 0 {
        var dup := IsDuplicate(pending, msg.id);
        if dup {
          return;
        }
      }
      Insert(key, msg, escapes);
    }

    /** Appends to a group and sets its timer anew (lines 64-78). */
    method Insert(key: Key, msg: Message, ghost escapes: bool)
      requires Groupable(key) && (msg.id == 0 || !Holds(Pending(groups, key), msg.id))
      modifies this
      ensures Abs() == Enter(old(Abs()), key, msg, escapes)
    {
      hide Holds;
      var pending := Pending(groups, key);
      if key in groups {
        timers := StopTimer(timers, groups[key].timerId, escapes);
      }
      counter := counter + 1;
      groups := groups[key := Group(counter, pending + [msg])];
      timers := timers[counter := key];
      accepted := accepted + [Arrival(key, msg)];
    }

    /** A timer set for a group goes off. */
    method Fire(key: Key, timerId: nat) returns (flushed: seq<seq<Message>>)
      requires Valid() && timerId in timers && timers[timerId] == key
      modifies this
      ensures Valid() && Abs() == Expire(old(Abs()), timerId) && Enabled(old(Abs()), FireEvent(timerId))
      ensures flushed == if key in old(groups) && old(groups)[key].timerId == timerId
                         then [old(groups)[key].msgs] else []
    {
      ExpireKeepsInvariant(Abs(), timerId);
      timers := timers - {timerId};
      if key !in groups || groups[key].timerId != timerId {
        return [];
      }
      var msgs := groups[key].msgs;
      groups := groups - {key};
      ended := ended + [Batch(key, msgs, true)];
      flushed := if |msgs| == 0 then [] else [msgs];
    }

    /** Ends one group ahead of its timer. */
    method EndGroup(key: Key, delivered: bool, ghost escapes: bool) returns (msgs: seq<Message>)
      requires Valid() && key in groups
      modifies this
      ensures Valid() && Abs() == Close(old(Abs()), key, delivered, escapes)
      ensures msgs == old(groups)[key].msgs
    {
      CloseKeepsInvariant(Abs(), key, delivered, escapes);
      msgs := groups[key].msgs;
      timers := StopTimer(timers, groups[key].timerId, escapes);
      groups := groups - {key};
      ended := ended + [Batch(key, msgs, delivered)];
    }

    /** Ends every group of a task, in any order, and hands each one out or drops it. */
    method EndTask(taskID: nat, delivered: bool, ghost escapes: nat -> bool)
      returns (batches: seq<seq<Message>>, ghost events: seq<Event>)
      requires Valid()
      modifies this
      ensures Valid() && Closes(old(groups), taskID, events, delivered, escapes)
      ensures Feasible(old(Abs()), events) && Abs() == After(old(Abs()), events)
      ensures groups == map k | k in old(groups) && k.task != taskID :: old(groups)[k]
      ensures |batches| == |events| && forall i :: 0 <= i < |events| ==> batches[i] == old(groups)[events[i].key].msgs
    {
      hide Invariant, PartlyClosed, Close, Feasible, After;
      batches, events := [], [];
      ghost var before := Abs();
      NoneClosed(before, taskID, delivered, escapes);
      var left := set k | k in groups && k.task == taskID;
      while left != {}
        invariant Valid() && PartlyClosed(before, Abs(), taskID, left, events, batches, delivered, escapes)
        decreases |left|
      {
        var key :| key in left;
        CloseOne(before, Abs(), taskID, left, events, batches, delivered, escapes, key);
        ghost var escape := escapes(groups[key].timerId);
        var msgs := EndGroup(key, delivered, escape);
        batches, events := batches + [msgs], events + [CloseEvent(key, delivered, escape)];
        left := left - {key};
      }
      AllClosed(before, Abs(), taskID, events, batches, delivered, escapes);
    }

    method FlushTask(taskID: nat, ghost escapes: nat -> bool)
      returns (flushed: seq<seq<Message>>, ghost events: seq<Event>)
      requires Valid()
      modifies this
      ensures Valid() && Closes(old(groups), taskID, events, true, escapes)
      ensures Feasible(old(Abs()), events) && Abs() == After(old(Abs()), events)
      ensures groups == map k | k in old(groups) && k.task != taskID :: old(groups)[k]
      ensures |flushed| == |events| && forall i :: 0 <= i < |events| ==> flushed[i] == old(groups)[events[i].key].msgs
    {
      flushed, events := [], [];
      NothingYet(Abs());
      if taskID == 0 {
        return;
      }
      flushed, events := EndTask(taskID, true, escapes);
    }

    method DropTask(taskID: nat, ghost escapes: nat -> bool) returns (ghost events: seq<Event>)
      requires Valid()
      modifies this
      ensures Valid() && Closes(old(groups), taskID, events, false, escapes)
      ensures Feasible(old(Abs()), events) && Abs() == After(old(Abs()), events)
      ensures groups == map k | k in old(groups) && k.task != taskID :: old(groups)[k]
    {
      events := [];
      if taskID == 0 {
        return;
      }
      var dropped;
      dropped, events := EndTask(taskID, false, escapes);
    }
  }
}
