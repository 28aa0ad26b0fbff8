/**
 Whole runs of the slot scheduler: clients reserve tokens and later commit or release exactly what
 they were granted (internal/engine/monitor.go:592-617, 763-769, 898-916), other callers peek, the
 periodic refresh and every start of the task re-read the task row, and the process may restart.  A commit
 whose task has been cancelled is not written to the row.  The rules stay fixed.
 */
module SchedulerRuns {
  import opened Options
  import opened SlotTime
  import opened Scheduler

  /** Tokens out, with the slot key they were taken in; no key when the schedule is not metered. */
  datatype Ticket = Ticket(units: nat, key: Option<SlotKey>)

  datatype Event =
    | ReserveEvent(now: Instant, need: int)
    | CommitEvent(ticket: nat, written: bool)
    | ReleaseEvent(ticket: nat)
    | PeekEvent(now: Instant)
    | RefreshEvent(now: Instant)
    | RegisterEvent
    | RestartEvent

  /** What was committed under one key, and an instant at which that key was active. */
  datatype Entry = Entry(at: Instant, total: nat)

  /** The schedule with its history: the clock, the tokens out, the commits per key, the instant at which the
      current key was entered, and the units per key that re-reading the row has dropped from the count. */
  datatype Run = Run(
    clock: Instant,
    schedule: Schedule,
    tickets: seq<Ticket>,
    ledger: map<SlotKey, Entry>,
    since: Instant,
    forgotten: map<SlotKey, nat>)

  function Start(rules: seq<Rule>): Run {
    Run(0, Fresh(rules, TaskRow(None, 0)), [], map[], 0, map[])
  }

  predicate Enabled(run: Run, e: Event) {
    match e
    case ReserveEvent(now, _) => now >= run.clock
    case PeekEvent(now) => now >= run.clock
    case RefreshEvent(now) => now >= run.clock
    case CommitEvent(i, _) => i < |run.tickets|
    case ReleaseEvent(i) => i < |run.tickets|
    case RegisterEvent => true
    case RestartEvent => true
  }

  function Without(tickets: seq<Ticket>, i: nat): seq<Ticket>
    requires i < |tickets|
  {
    tickets[..i] + tickets[i + 1..]
  }

  /** Moves to a later schedule, noting when a new key is entered. */
  function Advance(run: Run, now: Instant, s: Schedule): Run {
    run.(clock := now,
         schedule := s,
         since := if s.currentSlotKey != run.schedule.currentSlotKey then now else run.since)
  }

  function Record(run: Run, t: Ticket): map<SlotKey, Entry> {
    if t.key.None? then run.ledger
    else if t.key.value in run.ledger then
      run.ledger[t.key.value := Entry(run.ledger[t.key.value].at, run.ledger[t.key.value].total + t.units)]
    else
      run.ledger[t.key.value := Entry(run.since, t.units)]
  }

  function Forgotten(run: Run, key: SlotKey): nat {
    if key in run.forgotten then run.forgotten[key] else 0
  }

  /** What is forgotten once the count is only this. */
  function Forget(run: Run, used: nat): map<SlotKey, nat> {
    var key := run.schedule.currentSlotKey;
    if key.None? || used >= run.schedule.used then run.forgotten
    else run.forgotten[key.value := Forgotten(run, key.value) + run.schedule.used - used]
  }

  /** The schedule takes its row over. */
  function Reread(run: Run): Run {
    var s := SyncRow(run.schedule, run.schedule.row);
    run.(schedule := s, forgotten := Forget(run, s.used))
  }

  function Step(run: Run, e: Event): Run
    requires Enabled(run, e)
  {
    match e
    case ReserveEvent(now, need) =>
      var r := Reserve(run.schedule, now, need);
      var next := Advance(run, now, r.state);
      if r.granted <= 0 then next
      else next.(tickets := run.tickets +
                 [Ticket(r.granted, if Metered(r.state.rules) then r.state.currentSlotKey else None)])
    case PeekEvent(now) =>
      Advance(run, now, Peek(run.schedule, now).state)
    case RefreshEvent(now) =>
      Advance(Reread(run), now, Synced(Reread(run).schedule, now))
    case RegisterEvent => Reread(run)
    case CommitEvent(i, written) =>
      run.(schedule := Commit(run.schedule, run.tickets[i].units, written),
           tickets := Without(run.tickets, i),
           ledger := Record(run, run.tickets[i]))
    case ReleaseEvent(i) =>
      run.(schedule := Release(run.schedule, run.tickets[i].units), tickets := Without(run.tickets, i))
    case RestartEvent =>
      var s := SyncRow(Fresh(run.schedule.rules, run.schedule.row), run.schedule.row);
      run.(schedule := s, tickets := [], forgotten := Forget(run, s.used))
  }

  predicate Feasible(run: Run, events: seq<Event>)
    decreases |events|
  {
    |events| == 0 || (Enabled(run, events[0]) && Feasible(Step(run, events[0]), events[1..]))
  }

  function After(run: Run, events: seq<Event>): Run
    requires Feasible(run, events)
    decreases |events|
  {
    if |events| == 0 then run else After(Step(run, events[0]), events[1..])
  }

  // ---- The ticket protocol ----

  function MeteredUnits(tickets: seq<Ticket>): nat {
    if |tickets| == 0 then 0
    else MeteredUnits(tickets[1..]) + if tickets[0].key.Some? then tickets[0].units else 0
  }

  lemma {:induction false} MeteredUnitsSplit(a: seq<Ticket>, b: seq<Ticket>)
    ensures MeteredUnits(a + b) == MeteredUnits(a) + MeteredUnits(b)
  {
    if |a| == 0 {
      assert a + b == b;
    } else {
      assert (a + b)[1..] == a[1..] + b;
      MeteredUnitsSplit(a[1..], b);
    }
  }

  lemma CutOut<T>(list: seq<T>, i: nat)
    requires i < |list|
    ensures list == list[..i] + ([list[i]] + list[i + 1..])
  {
  }

  lemma MeteredUnitsWithout(tickets: seq<Ticket>, i: nat)
    requires i < |tickets|
    ensures MeteredUnits(tickets) == MeteredUnits(Without(tickets, i)) + MeteredUnits([tickets[i]])
  {
    var front, back := tickets[..i], tickets[i + 1..];
    CutOut(tickets, i);
    hide MeteredUnits;
    MeteredUnitsSplit(front, [tickets[i]] + back);
    MeteredUnitsSplit([tickets[i]], back);
    MeteredUnitsSplit(front, back);
  }

  /** The limit of the slot active at an instant. */
  function LimitAt(rules: seq<Rule>, t: Instant): nat {
    var slot := ActiveSlot(t, rules);
    if slot.None? then 0 else slot.value.limit
  }

  /** Every ticket out was taken in the current slot, the reserved tokens are exactly the tickets
      out, and use and reservations together respect the limit. */
  ghost predicate TicketsSettleInPlace(run: Run) {
    var s := run.schedule;
    && s.reserved == MeteredUnits(run.tickets)
    && (forall i :: 0 <= i < |run.tickets| ==> 0 < run.tickets[i].units)
    && (forall i :: 0 <= i < |run.tickets| ==>
          run.tickets[i].key == if Metered(s.rules) then s.currentSlotKey else None)
    && (Metered(s.rules) && |run.tickets| > 0 ==> s.currentSlotKey.Some?)
    && (s.reserved > 0 ==> s.currentSlotKey.Some? && s.used + s.reserved <= s.limit)
  }

  /** The slot entered is the one that was active when it was entered. */
  ghost predicate SlotIsReal(run: Run) {
    var s := run.schedule;
    && run.since <= run.clock
    && s.row.slotKey == s.currentSlotKey && s.row.slotCount <= s.used
    && (s.currentSlotKey.None? ==> s.used == 0 && s.slotEnd.None?)
    && (s.currentSlotKey.Some? ==>
          KeyAt(s.rules, run.since) == s.currentSlotKey && s.used + s.reserved <= LimitAt(s.rules, run.since))
    && (s.slotEnd.None? <==> s.activeRuleIdx == -1)
    && (s.slotEnd.None? ==> s.limit == 0 && s.reserved == 0)
    && (s.slotEnd.Some? ==> ActiveSlot(run.since, s.rules).Some? && InSlot(s, ActiveSlot(run.since, s.rules).value)
                            && s.limit == LimitAt(s.rules, run.since))
  }

  ghost predicate Invariant(run: Run) {
    TicketsSettleInPlace(run) && SlotIsReal(run)
  }

  lemma StartKeepsInvariant(rules: seq<Rule>)
    ensures Invariant(Start(rules))
  {
  }

  lemma MeteredIffEverActive(rules: seq<Rule>, t: Instant)
    requires ActiveSlot(t, rules).Some?
    ensures Metered(rules)
  {
    assert rules[ActiveSlot(t, rules).value.idx].limit > 0;
  }

  /** Entering the slot of an instant; nothing is out, so nothing is lost. */
  lemma SyncedKeepsInvariant(run: Run, now: Instant)
    requires Invariant(run) && now >= run.clock
    ensures Invariant(Advance(run, now, Synced(run.schedule, now)))
  {
    var s := run.schedule;
    var slot := ActiveSlot(now, s.rules);
    if slot.Some? && !InSlot(s, slot.value) && s.reserved == 0 {
      MeteredIffEverActive(s.rules, now);
      NoTicketsOut(run);
      var key := BuildSlotKey(now, s.rules[slot.value.idx]);
      assert KeyAt(s.rules, now) == Some(key);
      if s.currentSlotKey == Some(key) {
        KeyDeterminesSlot(s.rules, now, run.since);
      }
    }
  }

  lemma NoTicketsOut(run: Run)
    requires Invariant(run) && run.schedule.reserved == 0 && Metered(run.schedule.rules)
    ensures run.tickets == []
  {
  }

  /** Tokens of the current slot, within what is left of it. */
  lemma GrantKeepsInvariant(run: Run, units: nat)
    requires Invariant(run) && Metered(run.schedule.rules) && run.schedule.currentSlotKey.Some?
    requires 0 < units <= Left(run.schedule)
    ensures Invariant(run.(schedule := run.schedule.(reserved := run.schedule.reserved + units),
                           tickets := run.tickets + [Ticket(units, run.schedule.currentSlotKey)]))
  {
    var ticket := Ticket(units, run.schedule.currentSlotKey);
    MeteredUnitsSplit(run.tickets, [ticket]);
    OneTicket(ticket);
    hide MeteredUnits, KeyAt, ActiveSlot, LimitAt;
  }

  lemma UnmeteredGrantKeepsInvariant(run: Run, units: nat)
    requires Invariant(run) && !Metered(run.schedule.rules) && units > 0
    ensures Invariant(run.(tickets := run.tickets + [Ticket(units, None)]))
  {
    var ticket := Ticket(units, None);
    MeteredUnitsSplit(run.tickets, [ticket]);
    OneTicket(ticket);
    hide MeteredUnits, KeyAt, ActiveSlot, LimitAt;
  }

  lemma OneTicket(t: Ticket)
    ensures MeteredUnits([t]) == if t.key.Some? then t.units else 0
  {
  }

  lemma ReserveKeepsInvariant(run: Run, now: Instant, need: int)
    requires Invariant(run) && now >= run.clock
    ensures Invariant(Step(run, ReserveEvent(now, need)))
  {
    SyncedKeepsInvariant(run, now);
    var s, r := run.schedule, Reserve(run.schedule, now, need);
    if need <= 0 {
      IdleKeepsInvariant(run, now);
    } else if r.granted > 0 {
      if ActiveSlot(now, s.rules).None? {
        NextSlotStartIsEarliest(now, s.rules);
        IdleKeepsInvariant(run, now);
        hide Invariant;
        UnmeteredGrantKeepsInvariant(Advance(run, now, s), r.granted);
      } else {
        MeteredIffEverActive(s.rules, now);
        EnteredSlotHasKey(run, now);
        hide Invariant;
        GrantKeepsInvariant(Advance(run, now, Synced(s, now)), r.granted);
      }
    }
  }

  lemma IdleKeepsInvariant(run: Run, now: Instant)
    requires Invariant(run) && now >= run.clock
    ensures Invariant(Advance(run, now, run.schedule))
  {
  }

  lemma EnteredSlotHasKey(run: Run, now: Instant)
    requires Invariant(run) && now >= run.clock
    requires ActiveSlot(now, run.schedule.rules).Some?
    requires !Pinned(run.schedule, ActiveSlot(now, run.schedule.rules).value)
    ensures var t := Synced(run.schedule, now);
            t.currentSlotKey.Some? && t.limit == ActiveSlot(now, run.schedule.rules).value.limit
  {
    var s := run.schedule;
    var slot := ActiveSlot(now, s.rules).value;
    ActiveSlotIsFirstToEnd(now, s.rules);
    if InSlot(s, slot) {
      ActiveSlotIsFirstToEnd(run.since, s.rules);
    }
  }

  lemma UnmeteredIsIdle(run: Run)
    requires Invariant(run) && !Metered(run.schedule.rules)
    ensures run.schedule.limit == 0 && run.schedule.currentSlotKey.None?
  {
    if ActiveSlot(run.since, run.schedule.rules).Some? {
      MeteredIffEverActive(run.schedule.rules, run.since);
    }
  }

  lemma CommitKeepsInvariant(run: Run, i: nat, written: bool)
    requires Invariant(run) && i < |run.tickets|
    ensures Invariant(Step(run, CommitEvent(i, written)))
  {
    MeteredUnitsWithout(run.tickets, i);
    if !Metered(run.schedule.rules) {
      UnmeteredIsIdle(run);
    }
  }

  lemma ReleaseKeepsInvariant(run: Run, i: nat)
    requires Invariant(run) && i < |run.tickets|
    ensures Invariant(Step(run, ReleaseEvent(i)))
  {
    MeteredUnitsWithout(run.tickets, i);
  }

  lemma PeekKeepsInvariant(run: Run, now: Instant)
    requires Invariant(run) && now >= run.clock
    ensures Invariant(Step(run, PeekEvent(now)))
  {
    assert Peek(run.schedule, now).state == Synced(run.schedule, now);
    SyncedKeepsInvariant(run, now);
  }

  lemma RefreshKeepsInvariant(run: Run, now: Instant)
    requires Invariant(run) && now >= run.clock
    ensures Invariant(Step(run, RefreshEvent(now)))
  {
    RereadKeepsInvariant(run);
    hide Invariant, Reread, Synced;
    SyncedKeepsInvariant(Reread(run), now);
  }

  /** Nothing but the count changes, and it only goes down. */
  lemma RereadKeepsInvariant(run: Run)
    requires Invariant(run)
    ensures Invariant(Reread(run)) && Reread(run).schedule == run.schedule.(used := run.schedule.row.slotCount)
    ensures Reread(run).clock == run.clock
  {
  }

  lemma RestartKeepsInvariant(run: Run)
    requires Invariant(run)
    ensures Invariant(Step(run, RestartEvent))
  {
  }

  lemma StepKeepsInvariant(run: Run, e: Event)
    requires Invariant(run) && Enabled(run, e)
    ensures Invariant(Step(run, e))
  {
    match e
    case ReserveEvent(now, need) => ReserveKeepsInvariant(run, now, need);
    case PeekEvent(now) => PeekKeepsInvariant(run, now);
    case RefreshEvent(now) => RefreshKeepsInvariant(run, now);
    case CommitEvent(i, written) => CommitKeepsInvariant(run, i, written);
    case RegisterEvent => RereadKeepsInvariant(run);
    case ReleaseEvent(i) => ReleaseKeepsInvariant(run, i);
    case RestartEvent => RestartKeepsInvariant(run);
  }

  lemma {:induction false} AfterKeepsInvariant(run: Run, events: seq<Event>)
    requires Invariant(run) && Feasible(run, events)
    ensures Invariant(After(run, events))
    decreases |events|
  {
    if |events| > 0 {
      StepKeepsInvariant(run, events[0]);
      AfterKeepsInvariant(Step(run, events[0]), events[1..]);
    }
  }

  lemma RulesNeverChange(run: Run, e: Event)
    requires Enabled(run, e)
    ensures Step(run, e).schedule.rules == run.schedule.rules
  {
  }

  lemma {:induction false} RulesStay(run: Run, events: seq<Event>)
    requires Feasible(run, events)
    ensures After(run, events).schedule.rules == run.schedule.rules
    decreases |events|
  {
    if |events| > 0 {
      RulesNeverChange(run, events[0]);
      RulesStay(Step(run, events[0]), events[1..]);
    }
  }

  /** Over every run: the reserved tokens are the tickets out, each was taken in the slot the schedule
      is still in, and the slot's limit covers use and reservations. */
  lemma TicketProtocol(rules: seq<Rule>, events: seq<Event>)
    requires Feasible(Start(rules), events)
    ensures var run := After(Start(rules), events);
            && run.schedule.rules == rules
            && TicketsSettleInPlace(run)
            && (run.schedule.currentSlotKey.Some? ==>
                  run.schedule.used + run.schedule.reserved <= LimitAt(rules, run.since))
  {
    StartKeepsInvariant(rules);
    AfterKeepsInvariant(Start(rules), events);
    RulesStay(Start(rules), events);
  }

  /** Whatever the clock says by then, a metered ticket is settled in the slot it was taken in: a
      commit moves exactly its units from reserved to used under its key, and a release only frees
      them. */
  lemma TicketSettlesWhereTaken(rules: seq<Rule>, events: seq<Event>, i: nat, written: bool)
    requires Feasible(Start(rules), events) && i < |After(Start(rules), events).tickets|
    requires Metered(rules)
    ensures var run := After(Start(rules), events);
            var s, ticket := run.schedule, run.tickets[i];
            var committed := Step(run, CommitEvent(i, written)).schedule;
            var released := Step(run, ReleaseEvent(i)).schedule;
            && ticket.key.Some? && ticket.key == s.currentSlotKey && ticket.units <= s.reserved
            && committed == s.(used := s.used + ticket.units, reserved := s.reserved - ticket.units,
                               row := if written then TaskRow(ticket.key, s.used + ticket.units) else s.row)
            && released == s.(reserved := s.reserved - ticket.units)
  {
    TicketProtocol(rules, events);
    MeteredUnitsWithout(After(Start(rules), events).tickets, i);
  }

  // ---- The quota per slot key ----

  function Committed(run: Run, key: SlotKey): nat {
    if key in run.ledger then run.ledger[key].total else 0
  }

  /** The units of the tickets of a key that the events commit. */
  ghost function CommittedBy(run: Run, events: seq<Event>, key: SlotKey): nat
    requires Feasible(run, events)
    decreases |events|
  {
    if |events| == 0 then 0
    else
      var e := events[0];
      var now := if e.CommitEvent? && run.tickets[e.ticket].key == Some(key) then run.tickets[e.ticket].units else 0;
      now + CommittedBy(Step(run, e), events[1..], key)
  }

  /** Over every run, what stands under a key is what was committed under it. */
  lemma {:induction false} LedgerCountsCommits(run: Run, events: seq<Event>, key: SlotKey)
    requires Feasible(run, events)
    ensures Committed(After(run, events), key) == Committed(run, key) + CommittedBy(run, events, key)
    decreases |events|
  {
    if |events| > 0 {
      LedgerMoves(run, events[0], key);
      hide Committed, Step;
      LedgerCountsCommits(Step(run, events[0]), events[1..], key);
    }
  }

  lemma LedgerMoves(run: Run, e: Event, key: SlotKey)
    requires Enabled(run, e)
    ensures Committed(Step(run, e), key) ==
            Committed(run, key) +
            if e.CommitEvent? && run.tickets[e.ticket].key == Some(key) then run.tickets[e.ticket].units else 0
  {
    hide Reserve, Peek, Synced, SyncRow, Commit, Release, Forget, Metered;
  }

  /** What was committed under a key is within its limit, but for what was forgotten of it. */
  ghost predicate EntryIsRight(run: Run, k: SlotKey) {
    && k in run.ledger && run.ledger[k].at <= run.since
    && KeyAt(run.schedule.rules, run.ledger[k].at) == Some(k)
    && run.ledger[k].total <= LimitAt(run.schedule.rules, run.ledger[k].at) + Forgotten(run, k)
  }

  /** Under the current key it is what is counted and what was forgotten. */
  ghost predicate LedgerInvariant(run: Run) {
    var s := run.schedule;
    && (forall k :: k in run.ledger ==> EntryIsRight(run, k))
    && (forall k :: k in run.forgotten ==> k in run.ledger)
    && (s.currentSlotKey.None? ==> run.ledger == map[])
    && (s.currentSlotKey.Some? ==>
          Committed(run, s.currentSlotKey.value) == s.used + Forgotten(run, s.currentSlotKey.value))
  }

  lemma AdvanceKeepsLedger(run: Run, now: Instant, s: Schedule)
    requires Invariant(run) && LedgerInvariant(run) && Uninterrupted(run.schedule.rules)
    requires s.rules == run.schedule.rules && Invariant(Advance(run, now, s)) && now >= run.clock
    requires s.currentSlotKey == run.schedule.currentSlotKey ==> s.used == run.schedule.used
    requires s.currentSlotKey != run.schedule.currentSlotKey ==> s.currentSlotKey.Some? && s.used == 0
    ensures LedgerInvariant(Advance(run, now, s))
  {
    if s.currentSlotKey != run.schedule.currentSlotKey {
      EnteredKeyIsNew(run, now, s.currentSlotKey.value);
    }
  }

  lemma EnteredKeyIsNew(run: Run, now: Instant, key: SlotKey)
    requires Invariant(run) && LedgerInvariant(run) && Uninterrupted(run.schedule.rules)
    requires now >= run.clock && KeyAt(run.schedule.rules, now) == Some(key)
    requires run.schedule.currentSlotKey != Some(key)
    ensures key !in run.ledger
  {
  }

  /** What a commit does: nothing without limits, else it fits into the slot it was taken in. */
  lemma CommitFits(run: Run, i: nat, written: bool)
    requires Invariant(run) && i < |run.tickets|
    ensures var s, ticket := run.schedule, run.tickets[i];
            var t := Commit(s, ticket.units, written);
            && t.rules == s.rules && t.currentSlotKey == s.currentSlotKey
            && if !Metered(s.rules) then ticket.key.None? && t == s
               else
                 && ticket.key.Some? && ticket.key == s.currentSlotKey && KeyAt(s.rules, run.since) == ticket.key
                 && t.used == s.used + ticket.units <= LimitAt(s.rules, run.since)
  {
    MeteredUnitsWithout(run.tickets, i);
    hide MeteredUnits, Without, KeyAt, LimitAt, InSlot;
    if !Metered(run.schedule.rules) {
      UnmeteredIsIdle(run);
    }
    assert MeteredUnits([run.tickets[i]]) == if run.tickets[i].key.Some? then run.tickets[i].units else 0 by {
      OneTicket(run.tickets[i]);
    }
  }

  lemma CommitKeepsLedger(run: Run, i: nat, written: bool)
    requires Invariant(run) && LedgerInvariant(run) && i < |run.tickets|
    ensures LedgerInvariant(Step(run, CommitEvent(i, written)))
  {
    var s, ticket := run.schedule, run.tickets[i];
    CommitFits(run, i, written);
    CommitRecords(run, i, written);
    RecordMeans(run, ticket);
    var next := Step(run, CommitEvent(i, written));
    hide Invariant, Commit, KeyAt, LimitAt, Without, Record, Step;
    forall k | k in next.ledger
      ensures EntryIsRight(next, k)
    {
      if ticket.key != Some(k) {
        assert EntryIsRight(run, k);
      } else if k in run.ledger {
        SameKeySameLimit(s.rules, run.ledger[k].at, run.since);
      }
    }
  }

  lemma CommitRecords(run: Run, i: nat, written: bool)
    requires i < |run.tickets|
    ensures var next := Step(run, CommitEvent(i, written));
            && next.schedule == Commit(run.schedule, run.tickets[i].units, written)
            && next.ledger == Record(run, run.tickets[i]) && next.since == run.since
            && next.forgotten == run.forgotten
  {
  }

  lemma RecordMeans(run: Run, t: Ticket)
    ensures t.key.None? ==> Record(run, t) == run.ledger
    ensures t.key.Some? ==>
              var key, total := t.key.value, Committed(run, t.key.value) + t.units;
              var at := if key in run.ledger then run.ledger[key].at else run.since;
              Record(run, t) == run.ledger[key := Entry(at, total)]
  {
  }

  lemma SameKeySameLimit(rules: seq<Rule>, t: Instant, u: Instant)
    requires KeyAt(rules, t).Some? && KeyAt(rules, t) == KeyAt(rules, u)
    ensures LimitAt(rules, t) == LimitAt(rules, u)
  {
    KeyDeterminesSlot(rules, t, u);
  }

  lemma EnteringKeepsLedger(run: Run, now: Instant)
    requires Invariant(run) && LedgerInvariant(run) && Uninterrupted(run.schedule.rules) && now >= run.clock
    ensures LedgerInvariant(Advance(run, now, Synced(run.schedule, now)))
  {
    SyncedKeepsInvariant(run, now);
    AdvanceKeepsLedger(run, now, Synced(run.schedule, now));
  }

  lemma SameLedger(a: Run, b: Run)
    requires LedgerInvariant(a) && a.ledger == b.ledger && a.since == b.since && a.forgotten == b.forgotten
    requires a.schedule.(reserved := 0) == b.schedule.(reserved := 0)
    ensures LedgerInvariant(b)
  {
  }

  lemma ReserveKeepsLedger(run: Run, now: Instant, need: int)
    requires Invariant(run) && LedgerInvariant(run) && Uninterrupted(run.schedule.rules) && now >= run.clock
    ensures LedgerInvariant(Step(run, ReserveEvent(now, need)))
  {
    hide LedgerInvariant, Invariant, Uninterrupted;
    if need > 0 {
      EnteringKeepsLedger(run, now);
      SameLedger(Advance(run, now, Synced(run.schedule, now)), Step(run, ReserveEvent(now, need)));
    } else {
      SameLedger(run, Step(run, ReserveEvent(now, need)));
    }
  }

  /** What a re-read drops from the count is noted as forgotten. */
  lemma RereadKeepsLedger(run: Run)
    requires Invariant(run) && LedgerInvariant(run)
    ensures LedgerInvariant(Reread(run))
  {
    RereadKeepsInvariant(run);
    ForgetMeans(run, run.schedule.row.slotCount);
    hide KeyAt, LimitAt, Invariant, SyncRow, Forget;
  }

  lemma ForgetMeans(run: Run, used: nat)
    requires used <= run.schedule.used && (run.schedule.currentSlotKey.None? ==> run.schedule.used == 0)
    ensures forall r: Run :: r.forgotten == Forget(run, used) ==>
              forall k :: Forgotten(r, k) ==
                          Forgotten(run, k) +
                          if run.schedule.currentSlotKey == Some(k) then run.schedule.used - used else 0
    ensures forall k :: k in Forget(run, used) ==>
                          k in run.forgotten || (run.schedule.currentSlotKey == Some(k) && run.schedule.used > 0)
  {
  }

  lemma RestartKeepsLedger(run: Run)
    requires Invariant(run) && LedgerInvariant(run)
    ensures LedgerInvariant(Step(run, RestartEvent))
  {
    RestartDrops(run);
    ForgetMeans(run, run.schedule.row.slotCount);
    hide KeyAt, LimitAt, Invariant, Step, Forget;
  }

  lemma RestartDrops(run: Run)
    requires Invariant(run)
    ensures var next := Step(run, RestartEvent);
            && next.schedule.rules == run.schedule.rules && next.schedule.currentSlotKey == run.schedule.currentSlotKey
            && next.schedule.used == run.schedule.row.slotCount <= run.schedule.used
            && next.ledger == run.ledger && next.since == run.since
            && next.forgotten == Forget(run, run.schedule.row.slotCount)
            && (run.schedule.currentSlotKey.None? ==> run.schedule.used == 0)
  {
  }

  lemma StepKeepsLedger(run: Run, e: Event)
    requires Invariant(run) && LedgerInvariant(run) && Uninterrupted(run.schedule.rules) && Enabled(run, e)
    ensures LedgerInvariant(Step(run, e))
  {
    hide Uninterrupted, Invariant, LedgerInvariant, Reread;
    match e
    case ReserveEvent(now, need) =>
      ReserveKeepsLedger(run, now, need);
    case PeekEvent(now) =>
      assert Peek(run.schedule, now).state == Synced(run.schedule, now);
      EnteringKeepsLedger(run, now);
    case RefreshEvent(now) =>
      RereadKeepsInvariant(run);
      RereadKeepsLedger(run);
      EnteringKeepsLedger(Reread(run), now);
    case RegisterEvent =>
      RereadKeepsLedger(run);
    case CommitEvent(i, written) =>
      CommitKeepsLedger(run, i, written);
    case ReleaseEvent(i) =>
      SameLedger(run, Step(run, e));
    case RestartEvent =>
      RestartKeepsLedger(run);
  }

  lemma {:induction false} AfterKeepsLedger(run: Run, events: seq<Event>)
    requires Invariant(run) && LedgerInvariant(run) && Uninterrupted(run.schedule.rules) && Feasible(run, events)
    ensures LedgerInvariant(After(run, events))
    decreases |events|
  {
    if |events| > 0 {
      StepKeepsInvariant(run, events[0]);
      StepKeepsLedger(run, events[0]);
      RulesNeverChange(run, events[0]);
      AfterKeepsLedger(Step(run, events[0]), events[1..]);
    }
  }

  /** What was committed under a key never exceeds the limit of the slot the key stands for. */
  ghost predicate WithinLimits(run: Run) {
    forall k, t: Instant ::
      k in run.ledger && KeyAt(run.schedule.rules, t) == Some(k) ==> Committed(run, k) <= LimitAt(run.schedule.rules, t)
  }

  /** The same, but for what was forgotten. */
  ghost predicate WithinForgotten(run: Run) {
    forall k, t: Instant :: k in run.ledger && KeyAt(run.schedule.rules, t) == Some(k) ==>
                              Committed(run, k) <= LimitAt(run.schedule.rules, t) + Forgotten(run, k)
  }

  lemma LedgerIsWithin(run: Run)
    requires LedgerInvariant(run)
    ensures WithinForgotten(run) && (run.forgotten == map[] ==> WithinLimits(run))
  {
    forall k, t: Instant | k in run.ledger && KeyAt(run.schedule.rules, t) == Some(k)
      ensures Committed(run, k) <= LimitAt(run.schedule.rules, t) + Forgotten(run, k)
    {
      SameKeySameLimit(run.schedule.rules, t, run.ledger[k].at);
    }
  }

  /** Over every run of a schedule whose slots are not interrupted, late commits, cut-off row writes, re-reads and
      restarts included, what is committed under a key exceeds its limit at most by the units a re-read of the
      row has made the schedule forget; without such a re-read the limit holds. */
  lemma WholeRunQuota(rules: seq<Rule>, events: seq<Event>)
    requires Uninterrupted(rules) && Feasible(Start(rules), events)
    ensures WithinForgotten(After(Start(rules), events))
    ensures After(Start(rules), events).forgotten == map[] ==> WithinLimits(After(Start(rules), events))
  {
    StartKeepsInvariant(rules);
    AfterKeepsLedger(Start(rules), events);
    LedgerIsWithin(After(Start(rules), events));
  }

  /** Pairwise disjoint windows, as a caller would configure them, are enough. */
  lemma DisjointWindowsKeepQuota(rules: seq<Rule>, events: seq<Event>)
    requires Disjoint(rules) && Feasible(Start(rules), events)
    ensures WithinForgotten(After(Start(rules), events))
    ensures After(Start(rules), events).forgotten == map[] ==> WithinLimits(After(Start(rules), events))
  {
    DisjointIsUninterrupted(rules);
    WholeRunQuota(rules, events);
  }

  // ---- What is forgotten ----

  predicate Rereads(e: Event) {
    e.RefreshEvent? || e.RegisterEvent? || e.RestartEvent?
  }

  /** The units that are in memory and not in the row. */
  function Lag(run: Run): int {
    run.schedule.used - run.schedule.row.slotCount
  }

  /** Only a commit that is cut off makes the row lag behind, and only a re-read of a row that lags forgets units:
      all that it lags by. */
  lemma ForgetsExactlyTheLag(run: Run, e: Event)
    requires Invariant(run) && Enabled(run, e)
    ensures Lag(Step(run, e)) >= 0 && (Lag(Step(run, e)) > Lag(run) ==> e.CommitEvent? && !e.written)
    ensures Step(run, e).forgotten != run.forgotten <==> Rereads(e) && Lag(run) > 0
    ensures Rereads(e) && Lag(run) > 0 ==>
              run.schedule.currentSlotKey.Some? &&
              var key := run.schedule.currentSlotKey.value;
              Step(run, e).forgotten == run.forgotten[key := Forgotten(run, key) + Lag(run)]
  {
    StepKeepsInvariant(run, e);
    RereadForgets(Step(run, e));
    hide Invariant;
    if Rereads(e) {
      RereadForgets(run);
      RereadCatchesUp(run, e);
    } else if e.ReserveEvent? || e.PeekEvent? {
      EnteringKeepsLag(run, e);
    }
  }

  lemma EnteringKeepsLag(run: Run, e: Event)
    requires Enabled(run, e) && (e.ReserveEvent? || e.PeekEvent?)
    ensures Lag(Step(run, e)) == Lag(run) || Lag(Step(run, e)) == 0
    ensures Step(run, e).forgotten == run.forgotten
  {
    if e.PeekEvent? {
      assert Peek(run.schedule, e.now).state == Synced(run.schedule, e.now);
    }
    hide BuildSlotKey, ActiveSlot, NextSlotStart;
  }

  lemma RereadCatchesUp(run: Run, e: Event)
    requires Invariant(run) && Enabled(run, e) && Rereads(e)
    ensures Lag(Step(run, e)) == 0 && Step(run, e).forgotten == Forget(run, run.schedule.row.slotCount)
  {
    RereadKeepsInvariant(run);
    RestartDrops(run);
    hide Invariant, BuildSlotKey, ActiveSlot;
  }

  lemma RereadForgets(run: Run)
    requires Invariant(run)
    ensures Lag(run) >= 0
    ensures var forgotten := Forget(run, run.schedule.row.slotCount);
            && (forgotten != run.forgotten <==> Lag(run) > 0)
            && (Lag(run) > 0 ==>
                  run.schedule.currentSlotKey.Some? &&
                  var key := run.schedule.currentSlotKey.value;
                  forgotten == run.forgotten[key := Forgotten(run, key) + Lag(run)])
  {
    var forgotten := Forget(run, run.schedule.row.slotCount);
    if Lag(run) > 0 {
      var key := run.schedule.currentSlotKey.value;
      assert key in forgotten && (key in run.forgotten ==> forgotten[key] != run.forgotten[key]);
    }
  }

  predicate AllWritten(events: seq<Event>) {
    forall i :: 0 <= i < |events| && events[i].CommitEvent? ==> events[i].written
  }

  /** If no commit is cut off, nothing is ever forgotten. */
  lemma {:induction false} WrittenCommitsAreKept(run: Run, events: seq<Event>)
    requires Invariant(run) && Feasible(run, events) && AllWritten(events) && Lag(run) == 0
    ensures Lag(After(run, events)) == 0 && After(run, events).forgotten == run.forgotten
    decreases |events|
  {
    if |events| > 0 {
      ForgetsExactlyTheLag(run, events[0]);
      StepKeepsInvariant(run, events[0]);
      WrittenCommitsAreKept(Step(run, events[0]), events[1..]);
    }
  }

  /** Takes what the schedule still grants and commits it. */
  function TakeTheRest(run: Run, now: Instant): seq<Event> {
    var rest := LimitAt(run.schedule.rules, now) - run.schedule.used;
    if rest <= 0 then [] else [ReserveEvent(now, rest), CommitEvent(0, true)]
  }

  /** Units that were forgotten in a slot that still runs are granted once more: with nothing out, the commits
      under its key can be brought exactly to its limit and what was forgotten. */
  lemma ForgottenUnitsAreGrantedAgain(run: Run, now: Instant)
    requires Invariant(run) && LedgerInvariant(run) && run.tickets == [] && now >= run.clock
    requires KeyAt(run.schedule.rules, now).Some? && KeyAt(run.schedule.rules, now) == run.schedule.currentSlotKey
    ensures Feasible(run, TakeTheRest(run, now))
    ensures var key := KeyAt(run.schedule.rules, now).value;
            Committed(After(run, TakeTheRest(run, now)), key) ==
            LimitAt(run.schedule.rules, now) + Forgotten(run, key)
  {
    var rules, key := run.schedule.rules, KeyAt(run.schedule.rules, now).value;
    SameKeySameLimit(rules, now, run.since);
    var rest := LimitAt(rules, now) - run.schedule.used;
    if rest > 0 {
      RestIsGranted(run, now);
      var mid := Step(run, ReserveEvent(now, rest));
      StepKeepsInvariant(run, ReserveEvent(now, rest));
      CommitRecords(mid, 0, true);
      RecordMeans(mid, mid.tickets[0]);
      hide Step, Invariant, KeyAt, LimitAt, Record, Commit;
      var next := Step(mid, CommitEvent(0, true));
      var events := TakeTheRest(run, now);
      assert events[0..] == events;
      ConsFeasible(mid, next, events, 1);
      ConsFeasible(run, mid, events, 0);
    }
  }

  lemma RestIsGranted(run: Run, now: Instant)
    requires Invariant(run) && run.tickets == [] && now >= run.clock
    requires KeyAt(run.schedule.rules, now).Some? && KeyAt(run.schedule.rules, now) == run.schedule.currentSlotKey
    requires LimitAt(run.schedule.rules, now) > run.schedule.used
    ensures var rest := LimitAt(run.schedule.rules, now) - run.schedule.used;
            var next := Step(run, ReserveEvent(now, rest));
            && next.tickets == [Ticket(rest, KeyAt(run.schedule.rules, now))]
            && next.ledger == run.ledger && next.forgotten == run.forgotten
  {
    var s := run.schedule;
    KeyDeterminesSlot(s.rules, now, run.since);
    ActiveSlotIsFirstToEnd(now, s.rules);
    MeteredIffEverActive(s.rules, now);
  }

  // ---- Exactly when the quota per key holds ----

  /** A slot entered under a new key starts counting at zero. */
  lemma EnteringStartsAtZero(run: Run, now: Instant, need: int)
    requires Invariant(run) && run.tickets == [] && now >= run.clock
    requires KeyAt(run.schedule.rules, now).Some? && KeyAt(run.schedule.rules, now) != run.schedule.currentSlotKey
    requires 0 < need <= LimitAt(run.schedule.rules, now)
    ensures var next := Step(run, ReserveEvent(now, need));
            && next.tickets == [Ticket(need, KeyAt(run.schedule.rules, now))]
            && next.ledger == run.ledger && next.since == now && next.clock == now
            && next.schedule.rules == run.schedule.rules
  {
    var s := run.schedule;
    var slot := ActiveSlot(now, s.rules).value;
    ActiveSlotIsFirstToEnd(now, s.rules);
    MeteredIffEverActive(s.rules, now);
    if InSlot(s, slot) {
      ActiveSlotIsFirstToEnd(run.since, s.rules);
      SameKeyIffSameEnd(s.rules[slot.idx], now, run.since);
    }
  }

  /** Use a slot up, let another one in between, and come back: the count has started afresh. */
  function Comeback(rules: seq<Rule>, t: Instant, v: Instant, u: Instant): seq<Event> {
    [ReserveEvent(t, LimitAt(rules, t)), CommitEvent(0, true),
     ReserveEvent(v, 1), ReleaseEvent(0),
     ReserveEvent(u, 1), CommitEvent(0, true)]
  }

  /** Enter a slot under a new key, take tokens, and settle them at once. */
  lemma EnterAndSettle(run: Run, now: Instant, need: int, settle: Event)
    requires Invariant(run) && run.tickets == [] && now >= run.clock
    requires KeyAt(run.schedule.rules, now).Some? && KeyAt(run.schedule.rules, now) != run.schedule.currentSlotKey
    requires 0 < need <= LimitAt(run.schedule.rules, now)
    requires settle == ReleaseEvent(0) || (settle.CommitEvent? && settle.ticket == 0)
    ensures var mid := Step(run, ReserveEvent(now, need));
            Enabled(mid, settle) &&
            var next := Step(mid, settle);
            && Invariant(next) && next.tickets == [] && next.clock == now
            && next.schedule.rules == run.schedule.rules
            && next.schedule.currentSlotKey == KeyAt(run.schedule.rules, now)
            && forall k :: Committed(next, k) ==
                           Committed(run, k) +
                           if settle.CommitEvent? && KeyAt(run.schedule.rules, now) == Some(k) then need else 0
  {
    var mid := Step(run, ReserveEvent(now, need));
    EnteringStartsAtZero(run, now, need);
    StepKeepsInvariant(run, ReserveEvent(now, need));
    assert mid.schedule.currentSlotKey == mid.tickets[0].key;
    hide Invariant, Reserve;
    if settle.CommitEvent? {
      CommitKeepsInvariant(mid, 0, settle.written);
    } else {
      ReleaseKeepsInvariant(mid, 0);
    }
  }

  lemma KeyHasLimit(rules: seq<Rule>, t: Instant)
    requires KeyAt(rules, t).Some?
    ensures LimitAt(rules, t) > 0
  {
    ActiveSlotIsFirstToEnd(t, rules);
  }

  /** One visit to a slot, and what it adds to the count of a key. */
  lemma Visit(rules: seq<Rule>, run: Run, now: Instant, need: int, settle: Event, key: SlotKey)
    returns (mid: Run, next: Run)
    requires Invariant(run) && run.tickets == [] && now >= run.clock && run.schedule.rules == rules
    requires KeyAt(rules, now).Some? && KeyAt(rules, now) != run.schedule.currentSlotKey
    requires 0 < need <= LimitAt(rules, now)
    requires settle == ReleaseEvent(0) || (settle.CommitEvent? && settle.ticket == 0)
    ensures Enabled(run, ReserveEvent(now, need)) && mid == Step(run, ReserveEvent(now, need))
    ensures Enabled(mid, settle) && next == Step(mid, settle)
    ensures Invariant(next) && next.tickets == [] && next.clock == now && next.schedule.rules == rules
    ensures next.schedule.currentSlotKey == KeyAt(rules, now)
    ensures Committed(next, key) ==
            Committed(run, key) + if settle.CommitEvent? && KeyAt(rules, now) == Some(key) then need else 0
  {
    EnterAndSettle(run, now, need, settle);
    hide Step, Invariant, KeyAt, LimitAt;
    mid := Step(run, ReserveEvent(now, need));
    next := Step(mid, settle);
  }

  predicate Steps(run: Run, e: Event, next: Run) {
    Enabled(run, e) && next == Step(run, e)
  }

  /** The runs of the three visits. */
  lemma ComebackRuns(rules: seq<Rule>, t: Instant, v: Instant, u: Instant)
    returns (run1: Run, run2: Run, run3: Run, run4: Run, run5: Run, run6: Run)
    requires t <= v <= u && KeyAt(rules, t).Some? && KeyAt(rules, t) == KeyAt(rules, u)
    requires KeyAt(rules, v).Some? && KeyAt(rules, v) != KeyAt(rules, t)
    ensures Steps(Start(rules), ReserveEvent(t, LimitAt(rules, t)), run1) && Steps(run1, CommitEvent(0, true), run2)
    ensures Steps(run2, ReserveEvent(v, 1), run3) && Steps(run3, ReleaseEvent(0), run4)
    ensures Steps(run4, ReserveEvent(u, 1), run5) && Steps(run5, CommitEvent(0, true), run6)
    ensures Committed(run6, KeyAt(rules, t).value) == LimitAt(rules, t) + 1
  {
    StartKeepsInvariant(rules);
    KeyHasLimit(rules, t);
    KeyHasLimit(rules, v);
    KeyHasLimit(rules, u);
    hide Step, Enabled, Invariant, KeyAt, LimitAt;
    var key := KeyAt(rules, t).value;
    run1, run2 := Visit(rules, Start(rules), t, LimitAt(rules, t), CommitEvent(0, true), key);
    run3, run4 := Visit(rules, run2, v, 1, ReleaseEvent(0), key);
    run5, run6 := Visit(rules, run4, u, 1, CommitEvent(0, true), key);
  }

  lemma ComebackExceedsLimit(rules: seq<Rule>, t: Instant, v: Instant, u: Instant)
    requires t <= v <= u && KeyAt(rules, t).Some? && KeyAt(rules, t) == KeyAt(rules, u)
    requires KeyAt(rules, v).Some? && KeyAt(rules, v) != KeyAt(rules, t)
    ensures Feasible(Start(rules), Comeback(rules, t, v, u))
    ensures Committed(After(Start(rules), Comeback(rules, t, v, u)), KeyAt(rules, t).value) == LimitAt(rules, t) + 1
    ensures !WithinLimits(After(Start(rules), Comeback(rules, t, v, u)))
  {
    var events := Comeback(rules, t, v, u);
    var run1, run2, run3, run4, run5, run6 := ComebackRuns(rules, t, v, u);
    ComebackAfter(rules, t, v, u, run1, run2, run3, run4, run5, run6);
    RulesStay(Start(rules), events);
    StartHasRules(rules);
    hide Step, Enabled, KeyAt, LimitAt, Start, Committed, Steps, Feasible, Comeback;
    AboveLimit(After(Start(rules), events), t);
  }

  lemma ComebackAfter(rules: seq<Rule>, t: Instant, v: Instant, u: Instant,
                      run1: Run, run2: Run, run3: Run, run4: Run, run5: Run, run6: Run)
    requires Steps(Start(rules), ReserveEvent(t, LimitAt(rules, t)), run1) && Steps(run1, CommitEvent(0, true), run2)
    requires Steps(run2, ReserveEvent(v, 1), run3) && Steps(run3, ReleaseEvent(0), run4)
    requires Steps(run4, ReserveEvent(u, 1), run5) && Steps(run5, CommitEvent(0, true), run6)
    ensures Feasible(Start(rules), Comeback(rules, t, v, u)) && After(Start(rules), Comeback(rules, t, v, u)) == run6
  {
    var events := Comeback(rules, t, v, u);
    hide Step, Enabled, LimitAt, Start, Steps;
    ConsFeasible(run5, run6, events, 5);
    ConsFeasible(run4, run5, events, 4);
    ConsFeasible(run3, run4, events, 3);
    ConsFeasible(run2, run3, events, 2);
    ConsFeasible(run1, run2, events, 1);
    ConsFeasible(Start(rules), run1, events, 0);
    assert events[0..] == events;
  }

  lemma AboveLimit(run: Run, t: Instant)
    requires KeyAt(run.schedule.rules, t).Some?
    requires Committed(run, KeyAt(run.schedule.rules, t).value) > LimitAt(run.schedule.rules, t)
    ensures !WithinLimits(run)
  {
  }

  lemma StartHasRules(rules: seq<Rule>)
    ensures Start(rules).schedule.rules == rules
  {
  }

  lemma ConsFeasible(run: Run, next: Run, events: seq<Event>, k: nat)
    requires k < |events| && Steps(run, events[k], next)
    requires Feasible(next, events[k + 1..])
    ensures Feasible(run, events[k..]) && After(run, events[k..]) == After(next, events[k + 1..])
  {
    assert events[k..][0] == events[k] && events[k..][1..] == events[k + 1..];
  }

  /** One window: its units are committed while the task is being stopped, and the task is started again. */
  function CutOff(rules: seq<Rule>, t: Instant): seq<Event> {
    [ReserveEvent(t, LimitAt(rules, t)), CommitEvent(0, false), RegisterEvent]
  }

  lemma CutOffIsForgotten(rules: seq<Rule>, t: Instant) returns (run: Run)
    requires KeyAt(rules, t).Some?
    ensures Feasible(Start(rules), CutOff(rules, t)) && run == After(Start(rules), CutOff(rules, t))
    ensures Invariant(run) && run.tickets == [] && run.clock == t && run.schedule.rules == rules
    ensures run.schedule.currentSlotKey == KeyAt(rules, t) && run.schedule.used == 0
    ensures var key := KeyAt(rules, t).value;
            Committed(run, key) == LimitAt(rules, t) && Forgotten(run, key) == LimitAt(rules, t)
  {
    StartKeepsInvariant(rules);
    KeyHasLimit(rules, t);
    var events, key := CutOff(rules, t), KeyAt(rules, t).value;
    var mid, next := Visit(rules, Start(rules), t, LimitAt(rules, t), events[1], key);
    CutOffLags(rules, t, mid, next);
    RereadKeepsInvariant(next);
    RereadForgets(next);
    run := Step(next, events[2]);
    hide Step, Enabled, Invariant, KeyAt, LimitAt, Start, Committed, Forget, SyncRow;
    assert events[0..] == events;
    ConsFeasible(next, run, events, 2);
    ConsFeasible(mid, next, events, 1);
    ConsFeasible(Start(rules), mid, events, 0);
  }

  lemma CutOffLags(rules: seq<Rule>, t: Instant, mid: Run, next: Run)
    requires KeyAt(rules, t).Some? && LimitAt(rules, t) > 0
    requires Steps(Start(rules), ReserveEvent(t, LimitAt(rules, t)), mid) && Steps(mid, CommitEvent(0, false), next)
    ensures next.schedule.used == LimitAt(rules, t) && next.schedule.row.slotCount == 0 && next.forgotten == map[]
  {
    ActiveSlotIsFirstToEnd(t, rules);
    MeteredIffEverActive(rules, t);
  }

  /** A single window is enough: a commit that is cut off, and the start of the task after it, and twice the limit
      is committed under one key. */
  lemma CutOffExceedsLimit(rules: seq<Rule>, t: Instant)
    requires Uninterrupted(rules) && KeyAt(rules, t).Some?
    ensures var run := Start(rules);
            && Feasible(run, CutOff(rules, t))
            && var mid := After(run, CutOff(rules, t));
               Feasible(mid, TakeTheRest(mid, t))
               && Committed(After(mid, TakeTheRest(mid, t)), KeyAt(rules, t).value) == 2 * LimitAt(rules, t)
               && !WithinLimits(After(mid, TakeTheRest(mid, t)))
  {
    var run := CutOffIsForgotten(rules, t);
    StartKeepsInvariant(rules);
    AfterKeepsLedger(Start(rules), CutOff(rules, t));
    KeyHasLimit(rules, t);
    ForgottenUnitsAreGrantedAgain(run, t);
    RulesStay(run, TakeTheRest(run, t));
    hide KeyAt, LimitAt, Invariant, LedgerInvariant, CutOff, TakeTheRest, Committed;
    AboveLimit(After(run, TakeTheRest(run, t)), t);
  }

  lemma {:induction false} AfterConcat(run: Run, a: seq<Event>, b: seq<Event>)
    requires Feasible(run, a) && Feasible(After(run, a), b)
    ensures Feasible(run, a + b) && After(run, a + b) == After(After(run, a), b)
    decreases |a|
  {
    hide Step, Enabled;
    if |a| == 0 {
      assert a + b == b;
    } else {
      assert (a + b)[0] == a[0] && (a + b)[1..] == a[1..] + b;
      AfterConcat(Step(run, a[0]), a[1..], b);
    }
  }

  /** The limit per key holds over all runs, or over all that forget nothing. */
  ghost predicate AlwaysWithinLimits(rules: seq<Rule>, forgetting: bool) {
    forall events ::
      Feasible(Start(rules), events) && (forgetting || After(Start(rules), events).forgotten == map[]) ==>
        WithinLimits(After(Start(rules), events))
  }

  /** The limit per key holds over all runs that forget nothing exactly for schedules that never interrupt a slot;
      over all runs, exactly for those that never have a slot. */
  lemma QuotaHoldsExactlyWhen(rules: seq<Rule>, forgetting: bool)
    ensures AlwaysWithinLimits(rules, forgetting) <==> Uninterrupted(rules) && (forgetting ==> !Metered(rules))
  {
    if !Uninterrupted(rules) {
      InterruptionExceedsLimit(rules, forgetting);
    } else if forgetting && Metered(rules) {
      ForgettingExceedsLimit(rules);
    } else {
      forall events | Feasible(Start(rules), events) && (forgetting || After(Start(rules), events).forgotten == map[])
        ensures WithinLimits(After(Start(rules), events))
      {
        WholeRunQuota(rules, events);
        if !Metered(rules) {
          UnmeteredCommitsNothing(rules, events);
        }
      }
    }
  }

  lemma InterruptionExceedsLimit(rules: seq<Rule>, forgetting: bool)
    requires !Uninterrupted(rules)
    ensures !AlwaysWithinLimits(rules, forgetting)
  {
    var t: Instant, v: Instant, u: Instant :|
      t <= v <= u && KeyAt(rules, t).Some? && KeyAt(rules, t) == KeyAt(rules, u) && KeyAt(rules, v).Some?
      && KeyAt(rules, v) != KeyAt(rules, t);
    ComebackExceedsLimit(rules, t, v, u);
    StartKeepsInvariant(rules);
    hide KeyAt, LimitAt, Invariant, WithinLimits, Step, Enabled;
    WrittenCommitsAreKept(Start(rules), Comeback(rules, t, v, u));
  }

  lemma ForgettingExceedsLimit(rules: seq<Rule>)
    requires Uninterrupted(rules) && Metered(rules)
    ensures !AlwaysWithinLimits(rules, true)
  {
    var t := SomeSlotIsActive(rules);
    CutOffExceedsLimit(rules, t);
    hide KeyAt, LimitAt, WithinLimits, CutOff, TakeTheRest;
    var mid := After(Start(rules), CutOff(rules, t));
    AfterConcat(Start(rules), CutOff(rules, t), TakeTheRest(mid, t));
  }

  lemma SomeSlotIsActive(rules: seq<Rule>) returns (t: Instant)
    requires Metered(rules)
    ensures KeyAt(rules, t).Some?
  {
    var j :| 0 <= j < |rules| && rules[j].limit > 0;
    t := AtMinutes(0, rules[j].startMin);
    AtMinutesSplit(0, rules[j].startMin);
    assert Open(rules[j], t);
    ActiveSlotIsFirstToEnd(t, rules);
  }

  lemma UnmeteredCommitsNothing(rules: seq<Rule>, events: seq<Event>)
    requires !Metered(rules) && Uninterrupted(rules) && Feasible(Start(rules), events)
    ensures After(Start(rules), events).ledger == map[]
  {
    StartKeepsInvariant(rules);
    AfterKeepsInvariant(Start(rules), events);
    AfterKeepsLedger(Start(rules), events);
    RulesStay(Start(rules), events);
    UnmeteredIsIdle(After(Start(rules), events));
  }

  /** 10:00-12:00 with one token, and 10:30-11:00 inside it: the outer slot is resumed at 11:00 and
      forwards a second message. */
  lemma NestedWindowsExceedLimit()
    ensures var rules: seq<Rule> := [Rule(600, 720, 1), Rule(630, 660, 1)];
            && !Disjoint(rules) && !Uninterrupted(rules)
            && Feasible(Start(rules), Comeback(rules, 36600, 38400, 41400))
            && !WithinLimits(After(Start(rules), Comeback(rules, 36600, 38400, 41400)))
  {
    var rules: seq<Rule> := [Rule(600, 720, 1), Rule(630, 660, 1)];
    assert Open(rules[0], 38400) && Open(rules[1], 38400);
    var outer: Slot, inner: Slot := Slot(0, 43200, 1), Slot(1, 39600, 1);
    assert ActiveUpTo(36600, rules, 1) == Some(outer) && ActiveSlot(36600, rules) == Some(outer);
    assert ActiveUpTo(38400, rules, 1) == Some(outer) && ActiveSlot(38400, rules) == Some(inner);
    assert ActiveUpTo(41400, rules, 1) == Some(outer) && ActiveSlot(41400, rules) == Some(outer);
    ComebackExceedsLimit(rules, 36600, 38400, 41400);
  }
}
