/**
 Pull quotas per time slot (internal/engine/scheduler.go).

 A reservation takes tokens of the slot active now; a commit turns them into use, a release gives
 them back.  A slot is never left while tokens are outstanding.  The functions below say what each
 operation does to one task's schedule; the classes carry them out field by field.
 */
module Scheduler {
  import opened Options
  import opened SlotTime

  /** The two scheduler columns of the task table. */
  datatype TaskRow = TaskRow(slotKey: Option<SlotKey>, slotCount: nat)

  datatype Schedule = Schedule(
    rules: seq<Rule>,
    activeRuleIdx: int,
    slotEnd: Option<Instant>,
    limit: nat,
    used: nat,
    reserved: nat,
    currentSlotKey: Option<SlotKey>,
    row: TaskRow)

  /** Tokens granted, and the hint when to come back. */
  datatype Grant = Grant(state: Schedule, granted: int, next: Option<Instant>)

  /** Whether pulling is allowed, with the tokens left (-1: unlimited). */
  datatype Look = Look(state: Schedule, allowed: bool, remaining: int, next: Option<Instant>)

  function Min(a: int, b: int): int {
    if a < b then a else b
  }

  predicate InSlot(s: Schedule, slot: Slot) {
    s.activeRuleIdx == slot.idx && s.slotEnd == Some(slot.end)
  }

  /** The slot active now is another one than the schedule is in. */
  predicate Enters(s: Schedule, now: Instant) {
    var slot := ActiveSlot(now, s.rules);
    slot.Some? && !(s.activeRuleIdx == slot.value.idx && s.slotEnd == Some(slot.value.end))
  }

  /** Enters a slot; the use counted so far survives only if it was counted under the same key. */
  function Enter(s: Schedule, slot: Slot, key: SlotKey): Schedule {
    var entered := s.(activeRuleIdx := slot.idx, slotEnd := Some(slot.end), limit := slot.limit);
    if s.currentSlotKey == Some(key) then entered
    else entered.(currentSlotKey := Some(key), used := 0, reserved := 0, row := TaskRow(Some(key), 0))
  }

  /** The schedule after the slot active now has been entered, unless outstanding tokens forbid it. */
  function Synced(s: Schedule, now: Instant): Schedule {
    var slot := ActiveSlot(now, s.rules);
    if slot.None? || InSlot(s, slot.value) || s.reserved > 0 then s
    else Enter(s, slot.value, BuildSlotKey(now, s.rules[slot.value.idx]))
  }

  /** Outstanding tokens pin the schedule to a slot other than the one active now. */
  predicate Pinned(s: Schedule, slot: Slot) {
    !InSlot(s, slot) && s.reserved > 0
  }

  function Left(s: Schedule): int {
    s.limit - s.used - s.reserved
  }

  function SlotEndOr(s: Schedule, slot: Slot): Option<Instant> {
    if s.slotEnd.Some? then s.slotEnd else Some(slot.end)
  }

  function Reserve(s: Schedule, now: Instant, need: int): Grant {
    var slot := ActiveSlot(now, s.rules);
    if need <= 0 then
      Grant(s, 0, None)
    else if slot.None? then
      var next := NextSlotStart(now, s.rules);
      Grant(s, if next.Some? then 0 else need, next)
    else if Pinned(s, slot.value) then
      Grant(s, 0, SlotEndOr(s, slot.value))
    else
      var t := Synced(s, now);
      if Left(t) <= 0 then Grant(t, 0, t.slotEnd)
      else Grant(t.(reserved := t.reserved + Min(need, Left(t))), Min(need, Left(t)), None)
  }

  function Peek(s: Schedule, now: Instant): Look {
    var slot := ActiveSlot(now, s.rules);
    if slot.None? then
      var next := NextSlotStart(now, s.rules);
      if next.Some? then Look(s, false, 0, next) else Look(s, true, -1, None)
    else if Pinned(s, slot.value) then
      Look(s, false, 0, SlotEndOr(s, slot.value))
    else
      var t := Synced(s, now);
      if Left(t) <= 0 then Look(t, false, 0, t.slotEnd) else Look(t, true, Left(t), None)
  }

  /** Units become use; the row learns of it unless the write is cut off. */
  function Commit(s: Schedule, units: int, written: bool): Schedule {
    if units <= 0 || |s.rules| == 0 || s.limit <= 0 || s.currentSlotKey.None? then s
    else
      var used := s.used + units;
      s.(reserved := if s.reserved > units then s.reserved - units else 0,
         used := used,
         row := if written then TaskRow(s.currentSlotKey, used) else s.row)
  }

  function Release(s: Schedule, units: int): Schedule {
    if units <= 0 then s
    else s.(reserved := if s.reserved > units then s.reserved - units else 0)
  }

  /** Takes the counters of the task row over, but never a slot identity away from outstanding tokens. */
  function SyncRow(s: Schedule, row: TaskRow): Schedule {
    if s.reserved > 0 && s.currentSlotKey.Some? && row.slotKey.Some? && row.slotKey != s.currentSlotKey then s
    else s.(currentSlotKey := row.slotKey, used := row.slotCount)
  }

  /** A schedule as the process knows it before its counters are read back. */
  function Fresh(rules: seq<Rule>, row: TaskRow): Schedule {
    Schedule(rules, -1, None, 0, 0, 0, None, row)
  }

  // ---- Peeking and reserving ----

  /** At one instant, a look tells exactly what a reservation would get, and looking first changes
      nothing about it: same slot, same use, same tokens out. */
  lemma PeekAgreesWithReserve(s: Schedule, now: Instant, need: int)
    requires need > 0
    ensures var look := Peek(s, now);
            var direct := Reserve(s, now, need);
            var after := Reserve(look.state, now, need);
            && after == direct
            && (look.allowed && look.remaining >= 0 ==>
                  direct.granted == Min(need, look.remaining) && direct.granted > 0)
            && (look.allowed && look.remaining < 0 ==> direct.granted == need)
            && (!look.allowed ==> direct.granted == 0 && direct.next == look.next && direct.next.Some?)
            && (look.allowed ==> direct.next.None?)
  {
    ActiveSlotIsFirstToEnd(now, s.rules);
    SyncedIsIdempotent(s, now);
  }

  lemma SyncedIsIdempotent(s: Schedule, now: Instant)
    ensures Synced(Synced(s, now), now) == Synced(s, now)
  {
  }

  // ---- What each operation does to the tokens ----

  /** A reservation grants all that is asked for or all that is left of the limit of its slot, whichever is less; a slot
      under another key begins unused; and a slot is not left while tokens are out. */
  lemma ReserveGrantsWhatIsLeft(s: Schedule, now: Instant, need: int)
    requires need > 0 && ActiveSlot(now, s.rules).Some?
    ensures var r, slot := Reserve(s, now, need), ActiveSlot(now, s.rules).value;
            var here := s.activeRuleIdx == slot.idx && s.slotEnd == Some(slot.end);
            var same := here || s.currentSlotKey == Some(BuildSlotKey(now, s.rules[slot.idx]));
            if !here && s.reserved > 0 then
              r.state == s && r.granted == 0 && r.next == Some(if s.slotEnd.Some? then s.slotEnd.value else slot.end)
            else
              var limit, used := if here then s.limit else slot.limit, if same then s.used else 0;
              && r.state.limit == limit && r.state.used == used
              && r.granted == (if limit - used - s.reserved <= 0 then 0
                               else if need < limit - used - s.reserved then need
                               else limit - used - s.reserved)
              && r.state.reserved == s.reserved + r.granted
              && r.state.activeRuleIdx == slot.idx && r.state.slotEnd == Some(slot.end)
              && r.state.row == (if same then s.row else TaskRow(r.state.currentSlotKey, 0))
              && (!here ==> r.state.currentSlotKey == Some(BuildSlotKey(now, s.rules[slot.idx])))
              && r.next == if r.granted > 0 then None else r.state.slotEnd
  {
    hide ActiveSlot, BuildSlotKey;
  }

  /** Outside every slot everything is granted if no slot can ever open, and nothing otherwise. */
  lemma ReserveOutsideSlots(s: Schedule, now: Instant, need: int)
    requires need > 0 && ActiveSlot(now, s.rules).None?
    ensures var r := Reserve(s, now, need);
            && r.state == s && r.next == NextSlotStart(now, s.rules)
            && r.granted == (if Metered(s.rules) then 0 else need)
  {
    NextSlotStartIsEarliest(now, s.rules);
    hide ActiveSlot, NextSlotStart;
  }

  /** Tokens that are granted and given back leave the counters as they were; committed, they are used and no longer
      reserved, and the row says so if it was written. */
  lemma GrantsAreSettled(s: Schedule, now: Instant, need: int, written: bool)
    requires Reserve(s, now, need).granted > 0 && ActiveSlot(now, s.rules).Some?
    ensures var r := Reserve(s, now, need);
            var back, taken := Release(r.state, r.granted), Commit(r.state, r.granted, written);
            && back == r.state.(reserved := s.reserved) && r.granted <= r.state.reserved
            && (r.state.currentSlotKey.Some? ==>
                  var used := back.used + r.granted;
                  taken == back.(used := used, row := if written then TaskRow(back.currentSlotKey, used) else back.row))
  {
    ReserveGrantsWhatIsLeft(s, now, need);
    ActiveSlotIsFirstToEnd(now, s.rules);
    hide ActiveSlot, BuildSlotKey;
  }

  /** A commit or a release of more than is out leaves nothing out, and only a commit counts as use. */
  lemma SettlingIsBounded(s: Schedule, units: int, written: bool)
    ensures Release(s, units) == s.(reserved := Release(s, units).reserved)
    ensures Release(s, units).reserved == if units <= 0 then s.reserved
                                          else if units <= s.reserved then s.reserved - units else 0
    ensures if units <= 0 || s.rules == [] || s.limit == 0 || s.currentSlotKey.None? then Commit(s, units, written) == s
            else
              && Commit(s, units, written).reserved == Release(s, units).reserved
              && Commit(s, units, written).used == s.used + units
              && Commit(s, units, false).row == s.row
              && Commit(s, units, true).row == TaskRow(s.currentSlotKey, s.used + units)
  {
  }

  /** A row is taken over whole, or, under another key while tokens are out, not at all. */
  lemma RowIsTakenOver(s: Schedule, row: TaskRow)
    ensures var t := SyncRow(s, row);
            || (t.currentSlotKey == row.slotKey && t.used == row.slotCount &&
                t == s.(currentSlotKey := t.currentSlotKey, used := t.used))
            || (&& t == s && s.reserved > 0
                && s.currentSlotKey.Some? && row.slotKey.Some? && s.currentSlotKey != row.slotKey)
    ensures s.reserved == 0 ==> SyncRow(s, row).used == row.slotCount
    ensures s.reserved > 0 && s.currentSlotKey.Some? ==>
              SyncRow(s, row).currentSlotKey == s.currentSlotKey || row.slotKey.None?
  {
  }

  // ---- The code ----

  /** The user and the strategy a task's rules come from. */
  datatype Owner = Owner(userID: nat, strategyID: nat)

  class TaskSchedule {
    var owner: Owner
    var rules: seq<Rule>
    var activeRuleIdx: int
    var slotEnd: Option<Instant>
    var limit: nat
    var used: nat
    var reserved: nat
    var currentSlotKey: Option<SlotKey>
    var nextRun: Option<Instant>
    var row: TaskRow

    function State(): Schedule
      reads this
    {
      Schedule(rules, activeRuleIdx, slotEnd, limit, used, reserved, currentSlotKey, row)
    }

    constructor (owner: Owner, rules: seq<Rule>, row: TaskRow)
      ensures State() == Fresh(rules, row) && this.owner == owner
    {
      this.owner, this.rules := owner, rules;
      activeRuleIdx, slotEnd, limit, used, reserved := -1, None, 0, 0, 0;
      currentSlotKey, nextRun := None, None;
      this.row := row;
    }

    /** Takes over an owner and rules; if they are others, every counter and the slot are dropped. */
    method Install(owner: Owner, rules: seq<Rule>) returns (changed: bool)
      modifies this
      ensures changed <==> old(this.owner) != owner || old(this.rules) != rules
      ensures this.owner == owner && State() == if changed then Fresh(rules, old(row)) else old(State())
    {
      changed := this.owner != owner || this.rules != rules;
      if changed {
        activeRuleIdx, used, reserved := -1, 0, 0;
        currentSlotKey, slotEnd, limit, nextRun := None, None, 0, None;
      }
      this.owner, this.rules := owner, rules;
    }

    /** Moves to a slot; the counters start afresh under a new key. */
    method EnterSlot(now: Instant, slot: Slot)
      requires slot.idx < |rules|
      modifies this
      ensures owner == old(owner) && nextRun.None?
      ensures State() == Enter(old(State()), slot, BuildSlotKey(now, old(rules)[slot.idx]))
    {
      var newKey := BuildSlotKey(now, rules[slot.idx]);
      activeRuleIdx := slot.idx;
      slotEnd := Some(slot.end);
      limit := slot.limit;
      nextRun := None;
      if Some(newKey) != currentSlotKey {
        currentSlotKey := Some(newKey);
        used := 0;
        reserved := 0;
        row := TaskRow(Some(newKey), 0);
      }
    }

    method ReservePull(now: Instant, need: int) returns (granted: int, next: Option<Instant>)
      modifies this
      ensures owner == old(owner)
      ensures var r := Reserve(old(State()), now, need);
              State() == r.state && granted == r.granted && next == r.next
      ensures nextRun == if next.Some? then next else if granted > 0 && Enters(old(State()), now) then None
                         else old(nextRun)
    {
      if need <= 0 {
        return 0, None;
      }
      if |rules| == 0 {
        ActiveSlotIsFirstToEnd(now, rules);
        return need, None;
      }
      var slot := PickActiveSlot(now, rules);
      if slot.None? {
        var start := FindNextSlotStart(now, rules);
        if start.Some? {
          nextRun := start;
          return 0, start;
        }
        return need, None;
      }
      var Slot(idx, end, _) := slot.value;
      if activeRuleIdx != idx || slotEnd != Some(end) {
        if reserved > 0 {
          next := slotEnd;
          if next.None? {
            next := Some(end);
          }
          nextRun := next;
          return 0, next;
        }
        EnterSlot(now, slot.value);
      }
      var remaining := limit - used - reserved;
      if remaining <= 0 {
        nextRun := slotEnd;
        return 0, slotEnd;
      }
      granted := need;
      if granted > remaining {
        granted := remaining;
      }
      reserved := reserved + granted;
      next := None;
    }

    method PeekPull(now: Instant) returns (allowed: bool, remaining: int, next: Option<Instant>)
      modifies this
      ensures owner == old(owner)
      ensures var r := Peek(old(State()), now);
              State() == r.state && allowed == r.allowed && remaining == r.remaining && next == r.next
      ensures nextRun == if next.Some? then next else if Enters(old(State()), now) then None else old(nextRun)
    {
      if |rules| == 0 {
        ActiveSlotIsFirstToEnd(now, rules);
        return true, -1, None;
      }
      var slot := PickActiveSlot(now, rules);
      if slot.None? {
        var start := FindNextSlotStart(now, rules);
        if start.Some? {
          nextRun := start;
          return false, 0, start;
        }
        return true, -1, None;
      }
      var Slot(idx, end, _) := slot.value;
      if activeRuleIdx != idx || slotEnd != Some(end) {
        if reserved > 0 {
          next := slotEnd;
          if next.None? {
            next := Some(end);
          }
          nextRun := next;
          return false, 0, next;
        }
        EnterSlot(now, slot.value);
      }
      remaining := limit - used - reserved;
      if remaining <= 0 {
        nextRun := slotEnd;
        return false, 0, slotEnd;
      }
      return true, remaining, None;
    }

    /** The periodic pass: it switches slots like a reservation would, but takes no tokens. */
    method ComputeNextRun(now: Instant) returns (next: Option<Instant>)
      modifies this
      ensures owner == old(owner)
      ensures State() == Synced(old(State()), now)
      ensures var s, slot := old(State()), ActiveSlot(now, rules);
              next == if slot.None? then NextSlotStart(now, rules)
                      else if InSlot(s, slot.value) && 0 < s.limit <= s.used then s.slotEnd
                      else None
      ensures next.Some? ==> Reserve(State(), now, 1).granted == 0
      ensures nextRun == if |rules| == 0 || (Enters(old(State()), now) && reserved > 0) then old(nextRun) else next
    {
      ActiveSlotIsFirstToEnd(now, rules);
      if |rules| == 0 {
        return None;
      }
      var slot := PickActiveSlot(now, rules);
      if slot.None? {
        var start := FindNextSlotStart(now, rules);
        if start.Some? {
          nextRun := start;
          return start;
        }
        nextRun := None;
        return None;
      }
      var Slot(idx, end, _) := slot.value;
      if activeRuleIdx != idx || slotEnd != Some(end) {
        if reserved == 0 {
          EnterSlot(now, slot.value);
        }
        return None;
      }
      if limit <= 0 {
        nextRun := None;
        return None;
      }
      if used >= limit {
        nextRun := slotEnd;
        return slotEnd;
      }
      nextRun := None;
      return None;
    }

    /** Counts units in memory in any case, and in the row unless the task has been cancelled. */
    method CommitPull(cancelled: bool, usedDelta: int)
      modifies this
      ensures owner == old(owner)
      ensures State() == Commit(old(State()), usedDelta, !cancelled)
    {
      if usedDelta <= 0 {
        return;
      }
      if |rules| == 0 || limit <= 0 {
        return;
      }
      if currentSlotKey.None? {
        return;
      }
      if reserved > 0 {
        reserved := if reserved - usedDelta < 0 then 0 else reserved - usedDelta;
      }
      used := used + usedDelta;
      if !cancelled {
        row := TaskRow(currentSlotKey, used);
      }
    }

    method ReleasePull(reservedDelta: int)
      modifies this
      ensures owner == old(owner)
      ensures State() == Release(old(State()), reservedDelta)
    {
      if reservedDelta <= 0 {
        return;
      }
      if reserved > 0 {
        reserved := if reserved - reservedDelta < 0 then 0 else reserved - reservedDelta;
      }
    }

    method SyncPersistedState(persisted: TaskRow)
      modifies this
      ensures owner == old(owner)
      ensures State() == SyncRow(old(State()), persisted)
    {
      if reserved > 0 && currentSlotKey.Some? && persisted.slotKey.Some? && persisted.slotKey != currentSlotKey {
        return;
      }
      currentSlotKey := persisted.slotKey;
      used := persisted.slotCount;
    }
  }

  /** All schedules, by task.  No two tasks share one. */
  class SchedulerEngine {
    var tasks: map<nat, TaskSchedule>

    ghost predicate Valid()
      reads this
    {
      forall a, b :: a in tasks && b in tasks && a != b ==> tasks[a] != tasks[b]
    }

    function StateOf(taskID: nat): Option<Schedule>
      reads this, tasks.Values
    {
      if taskID in tasks then Some(tasks[taskID].State()) else None
    }

    function OwnerOf(taskID: nat): Option<Owner>
      reads this, tasks.Values
    {
      if taskID in tasks then Some(tasks[taskID].owner) else None
    }

    constructor ()
      ensures Valid() && tasks == map[]
    {
      tasks := map[];
    }

    /** Installs the rules of a task; if they changed, or the user or strategy they come from, every counter
        and the slot are dropped, and the row has to be. */
    method ApplyRules(taskID: nat, owner: Owner, rules: seq<Rule>, row: TaskRow) returns (persistReset: bool)
      requires Valid()
      modifies this, if taskID in tasks then {tasks[taskID]} else {}
      ensures Valid() && (taskID != 0 ==> taskID in tasks)
      ensures forall id :: id in old(tasks) && id != taskID ==>
                id in tasks && StateOf(id) == old(StateOf(id)) && OwnerOf(id) == old(OwnerOf(id))
      ensures taskID == 0 ==> !persistReset && StateOf(0) == old(StateOf(0)) && OwnerOf(0) == old(OwnerOf(0))
      ensures taskID != 0 ==>
                var before := old(StateOf(taskID));
                && OwnerOf(taskID) == Some(owner)
                && (persistReset <==>
                      before.Some? && (old(OwnerOf(taskID)) != Some(owner) || before.value.rules != rules))
                && StateOf(taskID) == (if before.None? then Some(Fresh(rules, row))
                                       else if persistReset then Some(Fresh(rules, before.value.row))
                                       else before)
      ensures persistReset ==>
                var s := StateOf(taskID).value;
                && s.rules == rules && s.used == s.reserved == s.limit == 0 && s.activeRuleIdx == -1
                && s.currentSlotKey.None? && s.slotEnd.None?
    {
      if taskID == 0 {
        return false;
      }
      if taskID !in tasks {
        var st := new TaskSchedule(owner, rules, row);
        tasks := tasks[taskID := st];
        return false;
      }
      persistReset := tasks[taskID].Install(owner, rules);
    }

    /** A task the engine does not know is not limited. */
    method ReservePull(taskID: nat, now: Instant, need: int) returns (granted: int, next: Option<Instant>)
      requires Valid()
      modifies if taskID in tasks then {tasks[taskID]} else {}
      ensures Valid()
      ensures forall id :: id in tasks && id != taskID ==> StateOf(id) == old(StateOf(id))
      ensures taskID in tasks && taskID != 0 ==>
                var r := Reserve(old(StateOf(taskID)).value, now, need);
                StateOf(taskID) == Some(r.state) && granted == r.granted && next == r.next
      ensures taskID !in tasks || taskID == 0 ==>
                StateOf(taskID) == old(StateOf(taskID)) && next.None? && granted == if need <= 0 then 0 else need
    {
      if need <= 0 {
        return 0, None;
      }
      if taskID == 0 {
        return need, None;
      }
      if taskID !in tasks {
        return need, None;
      }
      granted, next := tasks[taskID].ReservePull(now, need);
    }

    method CommitPull(cancelled: bool, taskID: nat, usedDelta: int)
      requires Valid()
      modifies if taskID in tasks then {tasks[taskID]} else {}
      ensures Valid()
      ensures forall id :: id in tasks && id != taskID ==> StateOf(id) == old(StateOf(id))
      ensures taskID in tasks && taskID != 0 ==>
                StateOf(taskID) == Some(Commit(old(StateOf(taskID)).value, usedDelta, !cancelled))
    {
      if usedDelta <= 0 || taskID == 0 || taskID !in tasks {
        return;
      }
      tasks[taskID].CommitPull(cancelled, usedDelta);
    }

    method ReleasePull(taskID: nat, reservedDelta: int)
      requires Valid()
      modifies if taskID in tasks then {tasks[taskID]} else {}
      ensures Valid()
      ensures forall id :: id in tasks && id != taskID ==> StateOf(id) == old(StateOf(id))
      ensures taskID in tasks && taskID != 0 ==>
                StateOf(taskID) == Some(Release(old(StateOf(taskID)).value, reservedDelta))
    {
      if reservedDelta <= 0 || taskID == 0 || taskID !in tasks {
        return;
      }
      tasks[taskID].ReleasePull(reservedDelta);
    }
  }
}
