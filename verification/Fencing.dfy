/**
 Run ids as fencing tokens (StartTask, RestartTask, PauseTask, StopTask, Shutdown, setStateTotal,
 internal/engine/dispatcher.go:92-305, 376-412, 462-478, 527-546; isActiveRun, recordEx, recordDetail,
 markCompleted, setStateStatus, internal/engine/worker.go:356-524).

 A worker belongs to one run of its task and tells its run id with every call; runs are superseded by
 starting, pausing or stopping the task.  Each call holds the manager's lock.
 */
module Fencing {
  const MAX_LOGS := 200

  datatype Status = Stopped | Running | Paused | Error

  datatype Counts = Counts(total: int, processed: int, success: int, fail: int, root: int, reply: int)

  const ZERO := Counts(0, 0, 0, 0, 0, 0)

  datatype TaskState = TaskState(
    runID: nat,
    status: Status,
    realtime: bool,
    completed: bool,
    counts: Counts,
    speedBase: int,
    logs: seq<string>)

  const NEW_STATE := TaskState(0, Stopped, false, false, ZERO, 0, [])

  /** What a start is given: the task row with its persisted progress, and the total its scope implies. */
  datatype Task = Task(id: nat, realtime: bool, status: Status, inferredTotal: int, progress: Counts)

  datatype RunKey = RunKey(task: nat, run: nat)

  /** The states and cancel functions by task, the runs begun, and the runs whose context is cancelled. */
  datatype Manager = Manager(
    states: map<nat, TaskState>,
    cancelers: map<nat, nat>,
    begun: set<RunKey>,
    cancelled: set<RunKey>)

  // ---- Helpers ----

  /** A log with a line more; of the older ones it keeps the newest 199. */
  function AppendLog(logs: seq<string>, line: string): (r: seq<string>)
    ensures |r| == if |logs| < 200 then |logs| + 1 else 200
    ensures r[|r| - 1] == line && forall k :: 0 <= k < |r| - 1 ==> r[k] == logs[|logs| + 1 - |r| + k]
  {
    var all := logs + [line];
    if |all| > MAX_LOGS then all[|all| - MAX_LOGS..] else all
  }

  function StateOf(m: Manager, task: nat): TaskState {
    if task in m.states then m.states[task] else NEW_STATE
  }

  function Raise(persisted: int, current: int): int {
    if persisted > 0 && persisted > current then persisted else current
  }

  /** The state of a task, brought up to its persisted progress. */
  function Ensured(m: Manager, t: Task): TaskState {
    var st := StateOf(m, t.id);
    var total := if st.counts.total <= 0 then t.inferredTotal else st.counts.total;
    var p := t.progress;
    st.(counts := Counts(Raise(p.total, total), Raise(p.processed, st.counts.processed),
                         Raise(p.success, st.counts.success), Raise(p.fail, st.counts.fail),
                         Raise(p.root, st.counts.root), Raise(p.reply, st.counts.reply)),
        status := if st.status.Stopped? then t.status else st.status,
        realtime := t.realtime)
  }

  /** Cancels the run of a task that is still alive. */
  function CancelRun(m: Manager, task: nat): Manager {
    if task in m.cancelers then
      m.(cancelled := m.cancelled + {RunKey(task, m.cancelers[task])}, cancelers := m.cancelers - {task})
    else m
  }

  // ---- Control calls ----

  /** The state of the next run; a task that completed starts over. */
  function Started(st: TaskState, t: Task): TaskState {
    var base := if st.completed && st.status.Stopped? then
                   st.(counts := ZERO.(total := st.counts.total), completed := false, logs := [])
                 else st;
    var total := if base.counts.total <= 0 then t.inferredTotal else base.counts.total;
    base.(runID := st.runID + 1, status := Running, realtime := t.realtime,
          counts := base.counts.(total := total), speedBase := base.counts.processed,
          logs := AppendLog(base.logs, "started"))
  }

  function Start(m: Manager, t: Task): Manager {
    if t.id == 0 then m
    else
      var quiet := CancelRun(m, t.id);
      var next := Started(Ensured(quiet, t), t);
      var run := next.runID;
      quiet.(states := quiet.states[t.id := next],
             cancelers := quiet.cancelers[t.id := run],
             begun := quiet.begun + {RunKey(t.id, run)})
  }

  /** Pausing and stopping supersede the current run. */
  function Halt(m: Manager, task: nat, status: Status, line: string): Manager {
    if task == 0 then m
    else
      var quiet := CancelRun(m, task);
      var st := StateOf(quiet, task);
      quiet.(states := quiet.states[task := st.(runID := st.runID + 1, status := status,
                                                 speedBase := st.counts.processed, logs := AppendLog(st.logs, line))])
  }

  function Reset(m: Manager, task: nat): Manager {
    if task !in m.states then m
    else m.(states := m.states[task := m.states[task].(completed := false, counts := ZERO, speedBase := 0, logs := [])])
  }

  function ShutdownAll(m: Manager): Manager {
    m.(cancelled := m.cancelled + set task | task in m.cancelers :: RunKey(task, m.cancelers[task]), cancelers := map[])
  }

  // ---- Calls by workers ----

  datatype Call =
    | RecordCall(delta: Counts, line: string)
    | DetailCall(line: string)
    | TotalCall(total: int)
    | StatusCall(status: Status)
    | CompleteCall(stopRun: bool)

  function Bump(n: int, delta: int): int {
    if delta == 0 then n else if n + delta < 0 then 0 else n + delta
  }

  function Bumped(c: Counts, d: Counts): Counts {
    Counts(Bump(c.total, d.total), Bump(c.processed, d.processed), Bump(c.success, d.success),
           Bump(c.fail, d.fail), Bump(c.root, d.root), Bump(c.reply, d.reply))
  }

  /** A counter after a delta: moved by it, but not below zero. */
  ghost predicate Moves(was: int, delta: int, now: int) {
    if delta != 0 && was + delta < 0 then now == 0 else now == was + delta
  }

  /** The run is the current one of its task. */
  predicate IsCurrent(m: Manager, key: RunKey) {
    key.task in m.states && m.states[key.task].runID == key.run
  }

  /** Some calls are refused whatever the run: no task, or no run to speak of. */
  predicate Accepts(key: RunKey, call: Call) {
    match call
    case RecordCall(_, _) => true
    case DetailCall(line) => key.task != 0 && key.run != 0 && line != ""
    case TotalCall(_) => key.task != 0 && key.run != 0
    case StatusCall(_) => key.task != 0
    case CompleteCall(_) => true
  }

  function Changed(st: TaskState, call: Call): TaskState {
    match call
    case RecordCall(delta, line) =>
      st.(counts := Bumped(st.counts, delta), logs := if line == "" then st.logs else AppendLog(st.logs, line))
    case DetailCall(line) => st.(logs := AppendLog(st.logs, line))
    case TotalCall(total) => st.(counts := st.counts.(total := if total < 0 then 0 else total))
    case StatusCall(status) =>
      st.(status := status, speedBase := if status.Running? then st.speedBase else st.counts.processed)
    case CompleteCall(stopRun) =>
      if stopRun then st.(completed := true, status := Stopped, speedBase := st.counts.processed)
      else st.(completed := true)
  }

  function Work(m: Manager, key: RunKey, call: Call): Manager {
    if !IsCurrent(m, key) || !Accepts(key, call) then m
    else
      var quiet := if call == CompleteCall(true) then CancelRun(m, key.task) else m;
      quiet.(states := quiet.states[key.task := Changed(quiet.states[key.task], call)])
  }

  // ---- Whole runs ----

  datatype Event =
    | StartEvent(t: Task)
    | HaltEvent(task: nat, status: Status, line: string)
    | ResetEvent(task: nat)
    | ShutdownEvent
    | WorkEvent(key: RunKey, call: Call)

  function Step(m: Manager, e: Event): Manager {
    match e
    case StartEvent(t) => Start(m, t)
    case HaltEvent(task, status, line) => Halt(m, task, status, line)
    case ResetEvent(task) => Reset(m, task)
    case ShutdownEvent => ShutdownAll(m)
    case WorkEvent(key, call) => Work(m, key, call)
  }

  function After(m: Manager, events: seq<Event>): Manager
    decreases |events|
  {
    if |events| == 0 then m else After(Step(m, events[0]), events[1..])
  }

  /** The run has been superseded. */
  predicate Superseded(m: Manager, key: RunKey) {
    key.task in m.states && key.run < m.states[key.task].runID
  }

  /** The events without the calls of one run. */
  function Without(events: seq<Event>, key: RunKey): seq<Event> {
    if |events| == 0 then []
    else if events[0].WorkEvent? && events[0].key == key then Without(events[1..], key)
    else [events[0]] + Without(events[1..], key)
  }

  lemma SupersededStays(m: Manager, key: RunKey, e: Event)
    requires Superseded(m, key)
    ensures Superseded(Step(m, e), key)
  {
  }

  /** Once superseded, a run can change nothing any more: whatever happens later, erasing its calls leads
      to the same counters, status, completion, logs and contexts. */
  lemma {:induction false} SupersededRunChangesNothing(m: Manager, key: RunKey, events: seq<Event>)
    requires Superseded(m, key)
    ensures After(m, events) == After(m, Without(events, key)) && Superseded(After(m, events), key)
    decreases |events|
  {
    if |events| > 0 {
      var next := Step(m, events[0]);
      SupersededStays(m, key, events[0]);
      SupersededRunChangesNothing(next, key, events[1..]);
      if !(events[0].WorkEvent? && events[0].key == key) {
        var rest := Without(events[1..], key);
        assert ([events[0]] + rest)[1..] == rest;
      }
    }
  }

  // ---- One live run ----

  /** The context of a run begun is cancelled, unless it is the current run and can still be cancelled. */
  ghost predicate OneLiveRun(m: Manager) {
    && (forall task :: task in m.cancelers ==>
          IsCurrent(m, RunKey(task, m.cancelers[task])) && RunKey(task, m.cancelers[task]) in m.begun - m.cancelled)
    && (forall key :: key in m.begun && key !in m.cancelled ==>
          key.task in m.cancelers && m.cancelers[key.task] == key.run)
    && (forall key :: key in m.begun ==> key.task in m.states && key.run <= m.states[key.task].runID)
    && m.cancelled <= m.begun
  }

  const EMPTY := Manager(map[], map[], {}, {})

  lemma CancelKeepsOneLiveRun(m: Manager, task: nat)
    requires OneLiveRun(m)
    ensures OneLiveRun(CancelRun(m, task)) && task !in CancelRun(m, task).cancelers
    ensures CancelRun(m, task).states == m.states
  {
  }

  lemma ChangeKeepsOneLiveRun(m: Manager, task: nat, st: TaskState)
    requires OneLiveRun(m) && st.runID >= StateOf(m, task).runID
    requires task in m.cancelers ==> st.runID == StateOf(m, task).runID
    ensures OneLiveRun(m.(states := m.states[task := st]))
  {
  }

  lemma BeginKeepsOneLiveRun(m: Manager, task: nat, st: TaskState)
    requires OneLiveRun(m) && task !in m.cancelers && st.runID > StateOf(m, task).runID
    ensures OneLiveRun(m.(states := m.states[task := st], cancelers := m.cancelers[task := st.runID],
                          begun := m.begun + {RunKey(task, st.runID)}))
  {
  }

  lemma ShutdownKeepsOneLiveRun(m: Manager)
    requires OneLiveRun(m)
    ensures OneLiveRun(ShutdownAll(m))
  {
  }

  lemma StepKeepsOneLiveRun(m: Manager, e: Event)
    requires OneLiveRun(m)
    ensures OneLiveRun(Step(m, e))
  {
    hide OneLiveRun, Ensured;
    match e {
      case StartEvent(t) =>
        CancelKeepsOneLiveRun(m, t.id);
        if t.id != 0 {
          BeginKeepsOneLiveRun(CancelRun(m, t.id), t.id, Start(m, t).states[t.id]) by {
            EnsuredKeepsRun(CancelRun(m, t.id), t);
          }
        }
      case HaltEvent(task, status, line) =>
        CancelKeepsOneLiveRun(m, task);
        if task != 0 {
          ChangeKeepsOneLiveRun(CancelRun(m, task), task, Halt(m, task, status, line).states[task]);
        }
      case ResetEvent(task) =>
        if task in m.states {
          ChangeKeepsOneLiveRun(m, task, Reset(m, task).states[task]);
        }
      case ShutdownEvent =>
        ShutdownKeepsOneLiveRun(m);
      case WorkEvent(key, call) =>
        CancelKeepsOneLiveRun(m, key.task);
        if IsCurrent(m, key) && Accepts(key, call) {
          var quiet := if call == CompleteCall(true) then CancelRun(m, key.task) else m;
          ChangeKeepsOneLiveRun(quiet, key.task, Changed(quiet.states[key.task], call));
        }
    }
  }

  lemma EnsuredKeepsRun(m: Manager, t: Task)
    ensures Ensured(m, t).runID == StateOf(m, t.id).runID
  {
  }

  lemma {:induction false} RunKeepsOneLiveRun(m: Manager, events: seq<Event>)
    requires OneLiveRun(m)
    ensures OneLiveRun(After(m, events))
    decreases |events|
  {
    if |events| > 0 {
      StepKeepsOneLiveRun(m, events[0]);
      RunKeepsOneLiveRun(Step(m, events[0]), events[1..]);
    }
  }

  /** In every run of the manager, a begun run whose context is not cancelled is the current one of its
      task, so a task never has two of them. */
  lemma AtMostOneRunIsLive(events: seq<Event>, a: RunKey, b: RunKey)
    requires var m := After(EMPTY, events); a in m.begun - m.cancelled && b in m.begun - m.cancelled
    ensures IsCurrent(After(EMPTY, events), a)
    ensures a.task == b.task ==> a == b
  {
    RunKeepsOneLiveRun(EMPTY, events);
  }

  /** A worker never cancels a run other than its own. */
  lemma WorkerCancelsOnlyItself(events: seq<Event>, key: RunKey, call: Call)
    ensures var m := After(EMPTY, events);
            Work(m, key, call).cancelled <= m.cancelled + {key}
  {
    RunKeepsOneLiveRun(EMPTY, events);
  }

  // ---- Counters ----

  ghost predicate CountersAreSane(st: TaskState) {
    var c := st.counts;
    && c.total >= 0 && c.processed >= 0 && c.success >= 0 && c.fail >= 0 && c.root >= 0 && c.reply >= 0
    && |st.logs| <= MAX_LOGS
  }

  ghost predicate AllSane(m: Manager) {
    forall task :: task in m.states ==> CountersAreSane(m.states[task])
  }

  lemma OneChangeStaysSane(m: Manager, next: Manager, task: nat, st: TaskState)
    requires AllSane(m) && CountersAreSane(st) && next.states == m.states[task := st]
    ensures AllSane(next)
  {
  }

  lemma StartStaysSane(m: Manager, t: Task)
    requires AllSane(m) && t.inferredTotal >= 0
    ensures AllSane(Start(m, t))
  {
    if t.id != 0 {
      var quiet := CancelRun(m, t.id);
      assert CountersAreSane(StateOf(m, t.id));
      assert CountersAreSane(Ensured(quiet, t));
      hide Ensured;
      OneChangeStaysSane(quiet, Start(m, t), t.id, Start(m, t).states[t.id]);
    }
  }

  lemma StepStaysSane(m: Manager, e: Event)
    requires AllSane(m) && (e.StartEvent? ==> e.t.inferredTotal >= 0)
    ensures AllSane(Step(m, e))
  {
    match e {
      case StartEvent(t) => StartStaysSane(m, t);
      case HaltEvent(task, status, line) =>
        if task != 0 {
          assert CountersAreSane(StateOf(m, task));
          var halted := Halt(m, task, status, line);
          OneChangeStaysSane(CancelRun(m, task), halted, task, halted.states[task]);
        }
      case ResetEvent(task) =>
        if task in m.states {
          OneChangeStaysSane(m, Reset(m, task), task, Reset(m, task).states[task]);
        }
      case ShutdownEvent =>
      case WorkEvent(key, call) =>
        if IsCurrent(m, key) && Accepts(key, call) {
          var quiet := if call == CompleteCall(true) then CancelRun(m, key.task) else m;
          OneChangeStaysSane(quiet, Work(m, key, call), key.task, Changed(m.states[key.task], call));
        }
    }
  }

  /** Whatever deltas workers report, no counter falls below zero and no log grows beyond its limit. */
  lemma {:induction false} CountersStaySane(m: Manager, events: seq<Event>)
    requires AllSane(m)
    requires forall i :: 0 <= i < |events| && events[i].StartEvent? ==> events[i].t.inferredTotal >= 0
    ensures AllSane(After(m, events))
    decreases |events|
  {
    if |events| > 0 {
      StepStaysSane(m, events[0]);
      hide AllSane;
      CountersStaySane(Step(m, events[0]), events[1..]);
    }
  }

  // ---- What the calls amount to ----

  /** A counter after a start: the greater of its value and what was persisted of it. */
  ghost predicate TakenOver(was: int, persisted: int, now: int) {
    && now >= was && (persisted > 0 ==> now >= persisted)
    && (now == was || (now == persisted && persisted > 0))
  }

  ghost predicate OthersStay(m: Manager, next: Manager, task: nat) {
    forall other :: other != task ==>
      && (other in next.states <==> other in m.states)
      && (other in m.states ==> next.states[other] == m.states[other])
  }

  /** A start takes over what is known of the task and begins its next run; a task that completed and is stopped,
      here and in its row, begins from nothing but its total. */
  lemma StartTakesOver(m: Manager, t: Task)
    requires t.id != 0 && t.id in m.states
    ensures var next := Start(m, t);
            var was, now := m.states[t.id], next.states[t.id];
            var c, d, p := was.counts, now.counts, t.progress;
            && OthersStay(m, next, t.id)
            && next.cancelers[t.id] == now.runID == was.runID + 1
            && now.status.Running? && now.realtime == t.realtime && now.speedBase == d.processed
            && TakenOver(if c.total > 0 then c.total else t.inferredTotal, p.total, d.total)
            && if was.completed && was.status.Stopped? && t.status.Stopped? then
                 && d.processed == d.success == d.fail == d.root == d.reply == 0
                 && !now.completed && now.logs == ["started"]
               else
                 && TakenOver(c.processed, p.processed, d.processed) && TakenOver(c.success, p.success, d.success)
                 && TakenOver(c.fail, p.fail, d.fail) && TakenOver(c.root, p.root, d.root)
                 && TakenOver(c.reply, p.reply, d.reply)
                 && now.completed == was.completed && |now.logs| > 0 && now.logs[|now.logs| - 1] == "started"
  {
  }

  /** The first start of a task begins its first run with what was persisted of it. */
  lemma FirstStartTakesOver(m: Manager, t: Task)
    requires t.id != 0 && t.id !in m.states
    ensures var next := Start(m, t);
            var now := next.states[t.id];
            var d, p := now.counts, t.progress;
            && OthersStay(m, next, t.id)
            && next.cancelers[t.id] == now.runID == 1
            && now.status.Running? && now.realtime == t.realtime && now.speedBase == d.processed
            && TakenOver(t.inferredTotal, p.total, d.total)
            && TakenOver(0, p.processed, d.processed) && TakenOver(0, p.success, d.success)
            && TakenOver(0, p.fail, d.fail) && TakenOver(0, p.root, d.root) && TakenOver(0, p.reply, d.reply)
            && !now.completed && now.logs == ["started"]
  {
  }

  /** A restart forgets everything about the task but its runs. */
  lemma RestartForgets(m: Manager, t: Task)
    requires t.id != 0
    ensures var next := After(m, [HaltEvent(t.id, Stopped, "stopped"), ResetEvent(t.id), StartEvent(t)]);
            t.id in next.states &&
            var now := next.states[t.id];
            var d, p := now.counts, t.progress;
            && OthersStay(m, next, t.id)
            && now.status.Running? && !now.completed && now.logs == ["started"] && now.speedBase == d.processed
            && now.runID == 2 + (if t.id in m.states then m.states[t.id].runID else 0)
            && TakenOver(t.inferredTotal, p.total, d.total)
            && TakenOver(0, p.processed, d.processed) && TakenOver(0, p.success, d.success)
            && TakenOver(0, p.fail, d.fail) && TakenOver(0, p.root, d.root) && TakenOver(0, p.reply, d.reply)
  {
    var halted := Halt(m, t.id, Stopped, "stopped");
    var reset := Reset(halted, t.id);
    ThreeSteps(m, HaltEvent(t.id, Stopped, "stopped"), ResetEvent(t.id), StartEvent(t));
    assert OthersStay(m, reset, t.id);
    hide Halt, Reset, Ensured, Started;
    StartTakesOver(reset, t);
  }

  /** A pause or a stop changes the run and the status of its task, and keeps its progress. */
  lemma HaltKeepsProgress(m: Manager, task: nat, status: Status, line: string)
    requires task != 0 && task in m.states
    ensures var next := Halt(m, task, status, line);
            var was, now := m.states[task], next.states[task];
            && OthersStay(m, next, task)
            && task !in next.cancelers && now.runID == was.runID + 1 && now.status == status
            && now.counts == was.counts && now.speedBase == was.counts.processed
            && now.completed == was.completed && now.realtime == was.realtime
            && |now.logs| > 0 && now.logs[|now.logs| - 1] == line
  {
  }

  /** Each call of a worker changes what it is for and nothing else. */
  lemma CallsKeepToTheirPart(m: Manager, key: RunKey, call: Call)
    requires key.task in m.states
    ensures var next := Work(m, key, call);
            var was, now := m.states[key.task], next.states[key.task];
            && OthersStay(m, next, key.task)
            && now.runID == was.runID && now.realtime == was.realtime
            && (now.counts != was.counts ==> call.RecordCall? || call.TotalCall?)
            && (call.TotalCall? && now != was ==> now.counts == was.counts.(total := now.counts.total))
            && (now.status != was.status ==> call == StatusCall(now.status) || call == CompleteCall(true))
            && (now.completed != was.completed ==> call.CompleteCall? && now.completed)
            && (now.logs != was.logs ==> call.DetailCall? || (call.RecordCall? && call.line != ""))
            && (now.speedBase != was.speedBase ==> !now.status.Running? && now.speedBase == now.counts.processed)
  {
  }

  /** Between starts and resets of a task: neither happens, and nobody sets its total. */
  predicate NothingBegins(task: nat, e: Event) {
    match e
    case StartEvent(t) => t.id != task
    case ResetEvent(other) => other != task
    case WorkEvent(key, call) => key.task != task || !call.TotalCall?
    case _ => true
  }

  /** What the runs that were current reported for one of the counters of a task. */
  ghost function Reported(m: Manager, events: seq<Event>, task: nat, part: Counts -> int): int
    decreases |events|
  {
    if |events| == 0 then 0
    else part(DeltaBy(m, events[0], task)) + Reported(Step(m, events[0]), events[1..], task, part)
  }

  ghost function DeltaBy(m: Manager, e: Event, task: nat): Counts {
    if && e.WorkEvent? && e.key.task == task && e.call.RecordCall?
       && task in m.states && m.states[task].runID == e.key.run
    then e.call.delta else Counts(0, 0, 0, 0, 0, 0)
  }

  ghost predicate NoneNegative(c: Counts) {
    c.total >= 0 && c.processed >= 0 && c.success >= 0 && c.fail >= 0 && c.root >= 0 && c.reply >= 0
  }

  lemma ReportMoves(m: Manager, key: RunKey, delta: Counts, line: string)
    requires key.task in m.states && NoneNegative(m.states[key.task].counts) && NoneNegative(delta)
    ensures var next, c, d := Work(m, key, RecordCall(delta, line)), m.states[key.task].counts,
                              DeltaBy(m, WorkEvent(key, RecordCall(delta, line)), key.task);
            && key.task in next.states
            && next.states[key.task].counts ==
               Counts(c.total + d.total, c.processed + d.processed, c.success + d.success,
                      c.fail + d.fail, c.root + d.root, c.reply + d.reply)
  {
    hide AppendLog;
  }

  lemma OthersMoveNothing(m: Manager, e: Event, task: nat)
    requires task in m.states && NothingBegins(task, e)
    requires !(e.WorkEvent? && e.key.task == task && e.call.RecordCall?)
    ensures task in Step(m, e).states && Step(m, e).states[task].counts == m.states[task].counts
    ensures DeltaBy(m, e, task) == Counts(0, 0, 0, 0, 0, 0)
  {
    hide AppendLog, Ensured, Started;
  }

  lemma CountsMove(m: Manager, e: Event, task: nat)
    requires task in m.states && NoneNegative(m.states[task].counts) && NothingBegins(task, e)
    requires e.WorkEvent? && e.call.RecordCall? ==> NoneNegative(e.call.delta)
    ensures task in Step(m, e).states
    ensures var was, now, d := m.states[task].counts, Step(m, e).states[task].counts, DeltaBy(m, e, task);
            && NoneNegative(now)
            && now.total == was.total + d.total && now.processed == was.processed + d.processed
            && now.success == was.success + d.success && now.fail == was.fail + d.fail
            && now.root == was.root + d.root && now.reply == was.reply + d.reply
  {
    if e.WorkEvent? && e.key.task == task && e.call.RecordCall? {
      ReportMoves(m, e.key, e.call.delta, e.call.line);
      hide Work;
    } else {
      OthersMoveNothing(m, e, task);
      hide Step;
    }
  }

  /** Between starts and resets, over every run, each counter is what it was and all that the runs that were current
      have reported for it. */
  lemma {:induction false} CountersAddUp(m: Manager, events: seq<Event>, task: nat)
    requires task in m.states && NoneNegative(m.states[task].counts)
    requires forall i :: 0 <= i < |events| ==> NothingBegins(task, events[i])
    requires forall i :: 0 <= i < |events| && events[i].WorkEvent? && events[i].call.RecordCall? ==>
                           NoneNegative(events[i].call.delta)
    ensures task in After(m, events).states
    ensures var was, now := m.states[task].counts, After(m, events).states[task].counts;
            && now.total == was.total + Reported(m, events, task, (c: Counts) => c.total)
            && now.processed == was.processed + Reported(m, events, task, (c: Counts) => c.processed)
            && now.success == was.success + Reported(m, events, task, (c: Counts) => c.success)
            && now.fail == was.fail + Reported(m, events, task, (c: Counts) => c.fail)
            && now.root == was.root + Reported(m, events, task, (c: Counts) => c.root)
            && now.reply == was.reply + Reported(m, events, task, (c: Counts) => c.reply)
    decreases |events|
  {
    if |events| > 0 {
      CountsMove(m, events[0], task);
      hide Step, NoneNegative, NothingBegins, DeltaBy;
      CountersAddUp(Step(m, events[0]), events[1..], task);
    }
  }

  /** The lines written to the log of a task. */
  ghost function LinesOf(m: Manager, events: seq<Event>, task: nat): seq<string>
    decreases |events|
  {
    if |events| == 0 then [] else LineOf(m, events[0], task) + LinesOf(Step(m, events[0]), events[1..], task)
  }

  ghost function LineOf(m: Manager, e: Event, task: nat): seq<string> {
    match e
    case HaltEvent(other, _, line) => if other == task != 0 then [line] else []
    case WorkEvent(RunKey(other, run), call) =>
      if other != task || task !in m.states || m.states[task].runID != run then []
      else if call.RecordCall? && call.line != "" then [call.line]
      else if call.DetailCall? && call.line != "" && task != 0 && run != 0 then [call.line]
      else []
    case _ => []
  }

  lemma LogMoves(m: Manager, e: Event, task: nat)
    requires task in m.states && NothingBegins(task, e)
    ensures task in Step(m, e).states
    ensures LineOf(m, e, task) == [] ==> Step(m, e).states[task].logs == m.states[task].logs
    ensures LineOf(m, e, task) != [] ==>
              Step(m, e).states[task].logs == AppendLog(m.states[task].logs, LineOf(m, e, task)[0])
    ensures |LineOf(m, e, task)| <= 1
  {
    hide AppendLog;
  }

  function Newest(lines: seq<string>): seq<string> {
    if |lines| <= 200 then lines else lines[|lines| - 200..]
  }

  lemma NewestMore(all: seq<string>, line: string)
    ensures AppendLog(Newest(all), line) == Newest(all + [line])
  {
  }

  /** Between starts and resets, over every run, the log holds the newest 200 lines. */
  lemma {:induction false} LogHoldsTheNewest(m: Manager, events: seq<Event>, task: nat, all: seq<string>)
    requires task in m.states && m.states[task].logs == Newest(all)
    requires forall i :: 0 <= i < |events| ==> NothingBegins(task, events[i])
    ensures task in After(m, events).states
    ensures After(m, events).states[task].logs == Newest(all + LinesOf(m, events, task))
    decreases |events|
  {
    if |events| == 0 {
      assert all + [] == all;
    } else {
      LogHoldsOneMore(m, events[0], task, all);
      hide Newest, LineOf, Step, NothingBegins;
      var next, more := Step(m, events[0]), LineOf(m, events[0], task);
      LogHoldsTheNewest(next, events[1..], task, all + more);
      Associate(all, more, LinesOf(next, events[1..], task));
    }
  }

  lemma Associate(a: seq<string>, b: seq<string>, c: seq<string>)
    ensures a + b + c == a + (b + c)
  {
  }

  lemma LogHoldsOneMore(m: Manager, e: Event, task: nat, all: seq<string>)
    requires task in m.states && m.states[task].logs == Newest(all) && NothingBegins(task, e)
    ensures task in Step(m, e).states && Step(m, e).states[task].logs == Newest(all + LineOf(m, e, task))
  {
    var more := LineOf(m, e, task);
    LogMoves(m, e, task);
    hide Step, NothingBegins, LineOf, AppendLog, Newest;
    if more == [] {
      assert all + more == all;
    } else {
      assert more == [more[0]];
      NewestMore(all, more[0]);
    }
  }

  // ---- The manager ----

  class TaskManager {
    var states: map<nat, TaskState>
    var cancelers: map<nat, nat>
    ghost var begun: set<RunKey>
    ghost var cancelled: set<RunKey>

    constructor ()
      ensures Abs() == EMPTY
    {
      states, cancelers, begun, cancelled := map[], map[], {}, {};
    }

    ghost function Abs(): Manager
      reads this
    {
      Manager(states, cancelers, begun, cancelled)
    }

    method Cancel(task: nat)
      modifies this
      ensures Abs() == CancelRun(old(Abs()), task)
    {
      if task in cancelers {
        cancelled := cancelled + {RunKey(task, cancelers[task])};
        cancelers := cancelers - {task};
      }
    }

    /** A counter brought up to what was persisted of it. */
    static method CatchUp(n: int, persisted: int) returns (r: int)
      ensures r == Raise(persisted, n)
      ensures r >= n && (r > n ==> r == persisted) && (persisted > 0 ==> r >= persisted)
    {
      r := n;
      if persisted > 0 && persisted > n {
        r := persisted;
      }
    }

    method EnsureState(t: Task) returns (st: TaskState)
      ensures st == Ensured(Abs(), t)
    {
      st := TaskState(0, Stopped, false, false, Counts(0, 0, 0, 0, 0, 0), 0, []);
      if t.id in states {
        st := states[t.id];
      }
      var c, p := st.counts, t.progress;
      var total := if c.total <= 0 then t.inferredTotal else c.total;
      total := CatchUp(total, p.total);
      var processed := CatchUp(c.processed, p.processed);
      var success := CatchUp(c.success, p.success);
      var fail := CatchUp(c.fail, p.fail);
      var root := CatchUp(c.root, p.root);
      var reply := CatchUp(c.reply, p.reply);
      st := st.(counts := Counts(total, processed, success, fail, root, reply), realtime := t.realtime);
      if st.status.Stopped? && !t.status.Stopped? {
        st := st.(status := t.status);
      }
    }

    method StartTask(t: Task) returns (runID: nat)
      modifies this
      ensures Abs() == Start(old(Abs()), t)
      ensures if t.id == 0 then runID == 0
              else t.id in cancelers && cancelers[t.id] == runID && IsCurrent(Abs(), RunKey(t.id, runID))
    {
      if t.id == 0 {
        return 0;
      }
      Cancel(t.id);
      var st := EnsureState(t);
      st := BeginRun(st, t);
      hide Ensured, Started;
      runID := st.runID;
      cancelers := cancelers[t.id := runID];
      begun := begun + {RunKey(t.id, runID)};
      states := states[t.id := st];
    }

    method BeginRun(before: TaskState, t: Task) returns (st: TaskState)
      ensures st == Started(before, t)
    {
      hide AppendLog;
      st := before.(runID := before.runID + 1);
      if st.completed && st.status.Stopped? {
        st := st.(counts := Counts(st.counts.total, 0, 0, 0, 0, 0), completed := false, logs := []);
      }
      st := st.(status := Running, realtime := t.realtime);
      if st.counts.total <= 0 {
        st := st.(counts := st.counts.(total := t.inferredTotal));
      }
      st := st.(speedBase := st.counts.processed, logs := AppendLog(st.logs, "started"));
    }

    method HaltTask(taskID: nat, status: Status, line: string)
      modifies this
      ensures Abs() == Halt(old(Abs()), taskID, status, line)
    {
      if taskID == 0 {
        return;
      }
      Cancel(taskID);
      var st := TaskState(0, Stopped, false, false, Counts(0, 0, 0, 0, 0, 0), 0, []);
      if taskID in states {
        st := states[taskID];
      }
      st := st.(runID := st.runID + 1, status := status, speedBase := st.counts.processed);
      states := states[taskID := st.(logs := AppendLog(st.logs, line))];
    }

    method PauseTask(taskID: nat)
      modifies this
      ensures Abs() == Halt(old(Abs()), taskID, Paused, "paused")
    {
      HaltTask(taskID, Paused, "paused");
    }

    method StopTask(taskID: nat)
      modifies this
      ensures Abs() == Halt(old(Abs()), taskID, Stopped, "stopped")
    {
      HaltTask(taskID, Stopped, "stopped");
    }

    method RestartTask(t: Task) returns (runID: nat)
      modifies this
      ensures Abs() == if t.id == 0 then old(Abs())
                       else After(old(Abs()), [HaltEvent(t.id, Stopped, "stopped"), ResetEvent(t.id), StartEvent(t)])
      ensures if t.id == 0 then runID == 0 else runID >= StateOf(old(Abs()), t.id).runID + 2
    {
      if t.id == 0 {
        return 0;
      }
      ghost var before := Abs();
      StopTask(t.id);
      ghost var halted := Abs();
      if t.id in states {
        states := states[t.id := states[t.id].(completed := false, counts := Counts(0, 0, 0, 0, 0, 0), speedBase := 0,
                                               logs := [])];
      }
      ghost var reset := Abs();
      runID := StartTask(t);
      hide Halt, Start, Reset;
      ThreeSteps(before, HaltEvent(t.id, Stopped, "stopped"), ResetEvent(t.id), StartEvent(t));
      assert Abs() == Step(Step(Step(before, HaltEvent(t.id, Stopped, "stopped")), ResetEvent(t.id)), StartEvent(t));
    }

    method Shutdown()
      modifies this
      ensures Abs() == ShutdownAll(old(Abs()))
    {
      cancelled := cancelled + set task | task in cancelers :: RunKey(task, cancelers[task]);
      cancelers := map[];
    }

    method IsActiveRun(taskID: nat, runID: nat) returns (active: bool)
      requires OneLiveRun(Abs())
      ensures active <==> IsCurrent(Abs(), RunKey(taskID, runID)) && taskID in cancelers
      ensures RunKey(taskID, runID) in begun ==> (active <==> RunKey(taskID, runID) !in cancelled)
    {
      if taskID !in states || states[taskID].runID != runID {
        return false;
      }
      active := taskID in cancelers;
    }

    static method Move(n: int, delta: int) returns (r: int)
      ensures r == Bump(n, delta) && Moves(n, delta, r)
    {
      r := n;
      if delta != 0 {
        r := r + delta;
        if r < 0 {
          r := 0;
        }
      }
    }

    /** A report by a worker: the current run's deltas go to their own counters, none of which falls below zero. */
    method RecordEx(taskID: nat, runID: nat, delta: Counts, line: string)
      modifies this`states
      ensures Abs() == Work(old(Abs()), RunKey(taskID, runID), RecordCall(delta, line))
      ensures if taskID in old(states) && old(states)[taskID].runID == runID then
                var was, now := old(states)[taskID].counts, states[taskID].counts;
                && Moves(was.total, delta.total, now.total) && Moves(was.processed, delta.processed, now.processed)
                && Moves(was.success, delta.success, now.success) && Moves(was.fail, delta.fail, now.fail)
                && Moves(was.root, delta.root, now.root) && Moves(was.reply, delta.reply, now.reply)
              else
                states == old(states)
    {
      if taskID !in states || states[taskID].runID != runID {
        return;
      }
      var st := states[taskID];
      var c := st.counts;
      var total := Move(c.total, delta.total);
      var processed := Move(c.processed, delta.processed);
      var success := Move(c.success, delta.success);
      var fail := Move(c.fail, delta.fail);
      var root := Move(c.root, delta.root);
      var reply := Move(c.reply, delta.reply);
      st := st.(counts := Counts(total, processed, success, fail, root, reply));
      if line != "" {
        st := st.(logs := AppendLog(st.logs, line));
      }
      states := states[taskID := st];
    }

    method RecordDetail(taskID: nat, runID: nat, line: string)
      modifies this`states
      ensures Abs() == Work(old(Abs()), RunKey(taskID, runID), DetailCall(line))
    {
      if taskID == 0 || runID == 0 || line == "" {
        return;
      }
      if taskID !in states || states[taskID].runID != runID {
        return;
      }
      var st := states[taskID];
      states := states[taskID := st.(logs := AppendLog(st.logs, line))];
    }

    method SetStateTotal(taskID: nat, runID: nat, total: int)
      modifies this`states
      ensures Abs() == Work(old(Abs()), RunKey(taskID, runID), TotalCall(total))
    {
      if taskID == 0 || runID == 0 || taskID !in states || states[taskID].runID != runID {
        return;
      }
      var st := states[taskID];
      states := states[taskID := st.(counts := st.counts.(total := if total < 0 then 0 else total))];
    }

    method SetStateStatus(taskID: nat, runID: nat, status: Status)
      modifies this`states
      ensures Abs() == Work(old(Abs()), RunKey(taskID, runID), StatusCall(status))
    {
      if taskID == 0 || taskID !in states || states[taskID].runID != runID {
        return;
      }
      var st := states[taskID].(status := status);
      if !status.Running? {
        st := st.(speedBase := st.counts.processed);
      }
      states := states[taskID := st];
    }

    method MarkCompleted(taskID: nat, runID: nat, stopRun: bool)
      modifies this
      ensures Abs() == Work(old(Abs()), RunKey(taskID, runID), CompleteCall(stopRun))
    {
      if taskID !in states || states[taskID].runID != runID {
        return;
      }
      var st := states[taskID].(completed := true);
      if stopRun {
        Cancel(taskID);
        st := st.(status := Stopped, speedBase := st.counts.processed);
      }
      states := states[taskID := st];
    }
  }

  lemma ThreeSteps(m: Manager, a: Event, b: Event, c: Event)
    ensures After(m, [a, b, c]) == Step(Step(Step(m, a), b), c)
  {
    assert [a, b, c][1..] == [b, c] && [b, c][1..] == [c];
    assert After(Step(Step(m, a), b), [c]) == Step(Step(Step(m, a), b), c);
  }
}
