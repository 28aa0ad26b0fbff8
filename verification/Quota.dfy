/**
 The daily quota of one worker (waitForQuota, quotaAdd, quotaUnitsFor*, internal/engine/quota.go:90-102,
 209-302, 404-434).  Dates are day numbers; the clock gives a reading each time it is asked.
 */
module Quota {
  import opened Options
  import SlotTime

  datatype Paused = NotPaused | Daily | OutsideWindow

  /** A run window in minutes of the day; equal ends mean the whole day. */
  datatype RunWindow = RunWindow(startMin: nat, endMin: nat) {
    predicate Contains(minute: nat) {
      if startMin == endMin then true
      else if startMin < endMin then startMin <= minute < endMin
      else minute >= startMin || minute < endMin
    }
  }

  /** A window is a stretch of the clock face: it holds the minutes that are reached from its start before its end. */
  lemma WindowGoesRound(w: RunWindow, minute: nat)
    requires w.startMin < 1440 && w.endMin < 1440 && minute < 1440
    ensures w.Contains(minute) <==>
            w.startMin == w.endMin || (minute - w.startMin) % 1440 < (w.endMin - w.startMin) % 1440
  {
    SlotTime.Ahead(w.startMin, minute);
    SlotTime.Ahead(w.startMin, w.endMin);
  }

  datatype Reading = Reading(day: nat, minute: nat)

  // ---- Units ----

  /** A message consumes quota, unless it cannot be sent or is a reply that keeps its target. */
  function UnitsForSingle(keepReply: bool, isReply: bool, sendable: int): nat {
    if sendable <= 0 then 0 else if keepReply && isReply then 0 else 1
  }

  /** An album counts as one, and not at all if one of its messages is a reply that keeps its target. */
  function BatchUnits(keepReply: bool, replies: seq<bool>, sendable: int): nat {
    if sendable > 0 && !(keepReply && true in replies) then 1 else 0
  }

  method UnitsForBatch(keepReply: bool, replies: seq<bool>, sendable: int) returns (units: nat)
    ensures units == BatchUnits(keepReply, replies, sendable)
    ensures units <= 1
    ensures units == 0 <==> sendable <= 0 || (keepReply && exists i :: 0 <= i < |replies| && replies[i])
  {
    if sendable <= 0 {
      return 0;
    }
    if keepReply {
      for i := 0 to |replies|
        invariant true !in replies[..i]
      {
        if replies[i] {
          return 0;
        }
      }
      assert replies[..|replies|] == replies;
    }
    units := 1;
  }

  /** What the messages of a group cost one by one, each as sendable as the group. */
  function UnitsOneByOne(keepReply: bool, replies: seq<bool>, sendable: int): nat {
    if |replies| == 0 then 0
    else UnitsForSingle(keepReply, replies[0], sendable) + UnitsOneByOne(keepReply, replies[1..], sendable)
  }

  /** An album of one costs what its message costs on its own; no album costs more than its messages would one
      by one; and it costs a unit exactly if each of them would. */
  lemma {:induction false} AlbumCountsAsOne(keepReply: bool, replies: seq<bool>, sendable: int)
    requires |replies| > 0
    ensures |replies| == 1 ==>
              BatchUnits(keepReply, replies, sendable) == UnitsForSingle(keepReply, replies[0], sendable)
    ensures BatchUnits(keepReply, replies, sendable) <= UnitsOneByOne(keepReply, replies, sendable) <= |replies|
    ensures BatchUnits(keepReply, replies, sendable) == 1 <==>
            UnitsOneByOne(keepReply, replies, sendable) == |replies|
  {
    if |replies| == 1 {
      assert UnitsOneByOne(keepReply, replies[1..], sendable) == 0;
    } else {
      AlbumCountsAsOne(keepReply, replies[1..], sendable);
    }
  }

  // ---- The counter ----

  /** The counter in memory, with the limit (0: none) and the run window. */
  datatype Counter = Counter(limit: nat, window: Option<RunWindow>, date: nat, count: nat)

  /** A new day starts at zero. */
  function OnDay(c: Counter, day: nat): Counter {
    if c.date != day then c.(date := day, count := 0) else c
  }

  predicate WindowOpen(c: Counter, minute: nat) {
    c.window.None? || c.window.value.Contains(minute)
  }

  predicate HasRoom(c: Counter, need: nat) {
    c.limit == 0 || c.count + need <= c.limit
  }

  /** What is counted for a day. */
  function CountOn(c: Counter, day: nat): nat {
    if c.date == day then c.count else 0
  }

  /** A worker that needs units may go ahead at this reading. */
  predicate Allowed(c: Counter, now: Reading, need: nat) {
    WindowOpen(c, now.minute) && HasRoom(OnDay(c, now.day), need)
  }

  /** Go ahead inside the window, and with the units within the limit of the day, if there is one. */
  lemma AllowedMeans(c: Counter, now: Reading, need: nat)
    ensures Allowed(c, now, need) <==>
            && (c.window.Some? ==> c.window.value.Contains(now.minute))
            && (c.limit > 0 ==> (if c.date == now.day then c.count else 0) + need <= c.limit)
  {
  }

  /** The clock never goes back. */
  ghost predicate Forward(clock: nat -> Reading) {
    forall i: nat, j: nat :: i <= j ==> clock(i).day <= clock(j).day
  }

  datatype Waited = GoAhead(at: nat) | Cancelled(at: nat)

  class TaskQuota {
    var counter: Counter
    var rowDate: nat
    var rowCount: int
    var paused: Paused

    constructor (limit: int, window: Option<RunWindow>, rowDate: nat, rowCount: int)
      ensures this.rowDate == rowDate && this.rowCount == rowCount && paused == NotPaused
      ensures counter == Counter(if limit < 0 then 0 else limit, window, rowDate, if rowCount < 0 then 0 else rowCount)
    {
      counter := Counter(if limit < 0 then 0 else limit, window, rowDate, if rowCount < 0 then 0 else rowCount);
      this.rowDate, this.rowCount, paused := rowDate, rowCount, NotPaused;
    }

    /** The task row agrees with the counter. */
    ghost predicate Valid()
      reads this
    {
      rowDate == counter.date && rowCount == counter.count
    }

    method StartDay(day: nat)
      requires Valid()
      modifies this`counter, this`rowDate, this`rowCount
      ensures Valid() && counter == OnDay(old(counter), day)
    {
      if counter.date != day {
        counter := counter.(date := day, count := 0);
        rowDate, rowCount := day, 0;
      }
    }

    /** Waits, from the reading numbered from on, until the window is open and there is room; it goes
        ahead at the first reading that allows it, unless it is cancelled before. */
    method WaitForQuota(clock: nat -> Reading, cancelled: nat -> bool, from: nat, need: nat, ghost until: nat)
      returns (waited: Waited)
      requires Valid() && Forward(clock) && from <= until && counter.date <= clock(from).day
      requires cancelled(until) || Allowed(counter, clock(until), need)
      modifies this
      ensures Valid() && from <= waited.at <= until
      ensures waited.GoAhead? ==>
                && counter == OnDay(old(counter), clock(waited.at).day)
                && !cancelled(waited.at) && Allowed(old(counter), clock(waited.at), need)
                && HasRoom(counter, need) && WindowOpen(counter, clock(waited.at).minute)
                && (forall k :: from <= k < waited.at ==> !cancelled(k) && !Allowed(old(counter), clock(k), need))
      ensures waited.Cancelled? ==>
                && cancelled(waited.at)
                && (forall k :: from <= k < waited.at ==> !cancelled(k) && !Allowed(old(counter), clock(k), need))
                && counter == if waited.at == from then old(counter) else OnDay(old(counter), clock(waited.at - 1).day)
      ensures waited.GoAhead? ==>
                var c := old(counter);
                c.limit == 0 || CountOn(c, clock(waited.at).day) + need <= c.limit
      ensures var last := if waited.at == from then old(paused)
                          else if WindowOpen(counter, clock(waited.at - 1).minute) then Daily else OutsideWindow;
              if waited.Cancelled? then paused == last
              else paused == if need == 0 && last.Daily? && 0 < counter.limit <= counter.count then Daily else NotPaused
    {
      var k := from;
      while true
        invariant Valid() && from <= k <= until
        invariant counter == if k == from then old(counter) else OnDay(old(counter), clock(k - 1).day)
        invariant forall n :: from <= n < k ==> !cancelled(n) && !Allowed(old(counter), clock(n), need)
        invariant paused == if k == from then old(paused)
                            else if WindowOpen(counter, clock(k - 1).minute) then Daily else OutsideWindow
        decreases until - k
      {
        if cancelled(k) {
          return Cancelled(k);
        }
        var now := clock(k);
        assert OnDay(counter, now.day) == OnDay(old(counter), now.day);
        StartDay(now.day);
        if counter.window.Some? && !counter.window.value.Contains(now.minute) {
          paused := OutsideWindow;
          k := k + 1;
          continue;
        }
        if counter.limit > 0 && counter.count + need > counter.limit {
          paused := Daily;
          k := k + 1;
          continue;
        }
        if need == 0 && paused.Daily? && counter.limit > 0 && counter.count >= counter.limit {
          return GoAhead(k);
        }
        paused := NotPaused;
        return GoAhead(k);
      }
    }

    /** Records units; nothing is recorded once the task is cancelled. */
    method QuotaAdd(cancelled: bool, now: Reading, delta: int)
      requires Valid()
      modifies this`counter, this`rowDate, this`rowCount
      ensures Valid()
      ensures counter == if cancelled || delta <= 0 then old(counter)
                         else Counter(counter.limit, counter.window, now.day, CountOn(old(counter), now.day) + delta)
      ensures counter.limit == old(counter).limit && counter.window == old(counter).window
    {
      if cancelled || delta <= 0 {
        return;
      }
      StartDay(now.day);
      rowCount := rowCount + delta;
      counter := counter.(count := counter.count + delta);
    }
  }

  // ---- Whole runs of one worker ----

  /** The counter, the units the last wait was granted, the last day seen, and what was recorded by date. */
  datatype Worker = Worker(counter: Counter, granted: nat, today: nat, recorded: map<nat, nat>)

  /** A wait that goes ahead, one that is still waiting, the record of a send, and a restart that loads
      the counter from the task row. */
  datatype Event =
    | GoEvent(now: Reading, need: nat)
    | LookEvent(now: Reading)
    | AddEvent(now: Reading, units: nat)
    | RestartEvent

  function RecordedOn(w: Worker, date: nat): nat {
    if date in w.recorded then w.recorded[date] else 0
  }

  function Begin(counter: Counter): Worker {
    Worker(counter, 0, counter.date, map[counter.date := counter.count])
  }

  /** The clock goes on, and a send records no more than its wait was granted. */
  predicate Enabled(w: Worker, e: Event) {
    match e
    case GoEvent(now, need) => now.day >= w.today && Allowed(w.counter, now, need)
    case LookEvent(now) => now.day >= w.today
    case AddEvent(now, units) => now.day >= w.today && units <= w.granted
    case RestartEvent => true
  }

  function Step(w: Worker, e: Event): Worker {
    match e
    case GoEvent(now, need) => w.(counter := OnDay(w.counter, now.day), granted := need, today := now.day)
    case LookEvent(now) => w.(counter := OnDay(w.counter, now.day), granted := 0, today := now.day)
    case AddEvent(now, units) =>
      if units == 0 then w.(granted := 0, today := now.day)
      else
        var c := OnDay(w.counter, now.day);
        w.(counter := c.(count := c.count + units), granted := 0, today := now.day,
           recorded := w.recorded[now.day := RecordedOn(w, now.day) + units])
    case RestartEvent => w.(granted := 0)
  }

  predicate Feasible(w: Worker, events: seq<Event>)
    decreases |events|
  {
    |events| == 0 || (Enabled(w, events[0]) && Feasible(Step(w, events[0]), events[1..]))
  }

  function After(w: Worker, events: seq<Event>): Worker
    decreases |events|
  {
    if |events| == 0 then w else After(Step(w, events[0]), events[1..])
  }

  /** The counter is what was recorded on its date, nothing is recorded for later dates, and what was
      granted still fits. */
  ghost predicate CountsRight(w: Worker) {
    && w.counter.date <= w.today
    && RecordedOn(w, w.counter.date) == w.counter.count
    && (forall d :: d > w.counter.date ==> RecordedOn(w, d) == 0)
    && (w.counter.limit > 0 && w.granted > 0 ==> w.counter.count + w.granted <= w.counter.limit)
  }

  lemma StepCountsRight(w: Worker, e: Event)
    requires CountsRight(w) && Enabled(w, e)
    ensures CountsRight(Step(w, e)) && Step(w, e).counter.limit == w.counter.limit
    ensures w.counter.limit > 0 ==>
              forall d :: RecordedOn(Step(w, e), d) == RecordedOn(w, d) || RecordedOn(Step(w, e), d) <= w.counter.limit
  {
    var next := Step(w, e);
    if !e.AddEvent? || e.units == 0 {
      assert forall d :: RecordedOn(next, d) == RecordedOn(w, d);
    } else {
      assert forall d :: d != e.now.day ==> RecordedOn(next, d) == RecordedOn(w, d);
      assert RecordedOn(next, e.now.day) == RecordedOn(w, e.now.day) + e.units;
    }
  }

  /** A restart is possible at any time, and keeps what was counted and recorded. */
  lemma RestartKeepsTheCount(w: Worker)
    ensures Enabled(w, RestartEvent) && Step(w, RestartEvent) == w.(granted := 0)
  {
  }

  /** However the days pass between waits and sends, no date ever gets more than the limit recorded
      beyond what it started with. */
  lemma {:induction false} LimitHoldsPerDate(w: Worker, events: seq<Event>, date: nat)
    requires CountsRight(w) && Feasible(w, events) && w.counter.limit > 0
    ensures RecordedOn(After(w, events), date) <= w.counter.limit ||
            RecordedOn(After(w, events), date) == RecordedOn(w, date)
    ensures CountsRight(After(w, events))
    decreases |events|
  {
    if |events| > 0 {
      StepCountsRight(w, events[0]);
      LimitHoldsPerDate(Step(w, events[0]), events[1..], date);
    }
  }

  /** From a counter within its limit, no date ever exceeds it. */
  lemma LimitHolds(counter: Counter, events: seq<Event>, date: nat)
    requires 0 < counter.limit && counter.count <= counter.limit && Feasible(Begin(counter), events)
    ensures RecordedOn(After(Begin(counter), events), date) <= counter.limit
  {
    LimitHoldsPerDate(Begin(counter), events, date);
  }
}
