/**
 The real-time worker of a task (runtimeTask.run, internal/engine/monitor.go:537-1000): for each queued
 job it waits for the daily quota, reserves slot tokens, sends, settles the tokens, records the quota and
 moves the cursor.  It is the only client of its schedule and its quota.  Sending, the clock and
 cancellation are oracles: each try of a wait is one reading of both, and so is the end of a send.
 */
module RuntimeWorker {
  import opened Options
  import opened SlotTime
  import opened Scheduler
  import Q = Quota
  import R = SchedulerRuns

  /** A job after planning: what it would send, the quota units it costs, and its greatest message id; a
      filtered one sends nothing. */
  datatype Job = Job(maxId: nat, need: nat, units: nat, filtered: bool)

  predicate WellFormed(job: Job) {
    job.units <= 1 && (job.units > 0 ==> job.need > 0)
  }

  /** The units that messages and albums are planned to cost make well-formed jobs. */
  lemma PlannedJobsAreWellFormed(maxId: nat, need: nat, keepReply: bool, isReply: bool, replies: seq<bool>)
    ensures WellFormed(Job(maxId, need, Q.UnitsForSingle(keepReply, isReply, need), false))
    ensures WellFormed(Job(maxId, need, Q.BatchUnits(keepReply, replies, need), false))
  {
  }

  datatype World = World(clock: nat -> Instant, cancelled: nat -> bool, delivers: nat -> bool)

  /** The clock never goes back, and the task, once cancelled, stays so; it is cancelled in the end. */
  ghost predicate Going(world: World, until: nat) {
    && (forall i: nat, j: nat :: i <= j ==> world.clock(i) <= world.clock(j))
    && (forall i: nat, j: nat :: i <= j && world.cancelled(i) ==> world.cancelled(j))
    && world.cancelled(until)
  }

  function ReadingAt(world: World, k: nat): Q.Reading {
    Q.Reading(DayOf(world.clock(k)), MinuteOf(world.clock(k)))
  }

  function Readings(world: World): nat -> Q.Reading {
    (k: nat) => ReadingAt(world, k)
  }

  lemma DaysGoOn(a: Instant, b: Instant)
    requires a <= b
    ensures DayOf(a) <= DayOf(b)
  {
  }

  lemma ReadingsGoForward(world: World, until: nat)
    requires Going(world, until)
    ensures Q.Forward(Readings(world))
  {
    forall i: nat, j: nat | i <= j
      ensures Readings(world)(i).day <= Readings(world)(j).day
    {
      DaysGoOn(world.clock(i), world.clock(j));
    }
  }

  /** The job ends with a delivery that costs its units. */
  predicate Costs(job: Job, delivers: bool) {
    !job.filtered && delivers && job.units > 0
  }

  function UnitsDelivered(jobs: seq<Job>, world: World): nat {
    if |jobs| == 0 then 0
    else
      var last := |jobs| - 1;
      UnitsDelivered(jobs[..last], world) + if Costs(jobs[last], world.delivers(last)) then jobs[last].units else 0
  }

  function MaxOf(a: nat, b: nat): nat {
    if a > b then a else b
  }

  /** The jobs among the first that ended with a delivery that costs a unit. */
  ghost function Deliveries(jobs: seq<Job>, done: nat, world: World): set<nat>
    requires done <= |jobs|
  {
    set k: nat | k < done && !jobs[k].filtered && world.delivers(k) && jobs[k].units > 0
  }

  lemma {:induction false} UnitsAreDeliveries(jobs: seq<Job>, done: nat, world: World)
    requires done <= |jobs| && forall job :: job in jobs ==> WellFormed(job)
    ensures UnitsDelivered(jobs[..done], world) == |Deliveries(jobs, done, world)|
  {
    if done == 0 {
      assert Deliveries(jobs, 0, world) == {};
    } else {
      var k := done - 1;
      UnitsAreDeliveries(jobs, k, world);
      assert jobs[..done][..k] == jobs[..k];
      assert WellFormed(jobs[k]) by { assert jobs[k] in jobs; }
      var more := if Costs(jobs[k], world.delivers(k)) then {k} else {};
      assert Deliveries(jobs, done, world) == Deliveries(jobs, k, world) + more;
    }
  }

  function CursorAfter(cursor: nat, jobs: seq<Job>): nat {
    if |jobs| == 0 then cursor else MaxOf(CursorAfter(cursor, jobs[..|jobs| - 1]), jobs[|jobs| - 1].maxId)
  }

  /** The cursor is the greatest of what it was and the ids of the jobs. */
  lemma {:induction false} CursorIsGreatest(cursor: nat, jobs: seq<Job>)
    ensures var now := CursorAfter(cursor, jobs);
            && now >= cursor && (forall k :: 0 <= k < |jobs| ==> jobs[k].maxId <= now)
            && (now == cursor || exists k :: 0 <= k < |jobs| && jobs[k].maxId == now)
  {
    if |jobs| > 0 {
      CursorIsGreatest(cursor, jobs[..|jobs| - 1]);
    }
  }

  /** The ticket protocol and, for schedules that never interrupt a slot, the ledger are kept. */
  ghost predicate InProtocol(run: R.Run) {
    R.Invariant(run) && (Uninterrupted(run.schedule.rules) ==> R.LedgerInvariant(run))
  }

  lemma StepStaysInProtocol(run: R.Run, e: R.Event)
    requires InProtocol(run) && R.Enabled(run, e)
    ensures InProtocol(R.Step(run, e)) && R.Step(run, e).schedule.rules == run.schedule.rules
  {
    hide R.Invariant, R.LedgerInvariant, Uninterrupted;
    R.StepKeepsInvariant(run, e);
    R.RulesNeverChange(run, e);
    if Uninterrupted(run.schedule.rules) {
      R.StepKeepsLedger(run, e);
    }
  }

  /** The quota counts right, and no date has more than the limit. */
  ghost predicate InQuota(w: Q.Worker) {
    Q.CountsRight(w) && (w.counter.limit > 0 ==> forall d :: Q.RecordedOn(w, d) <= w.counter.limit)
  }

  lemma StepStaysInQuota(w: Q.Worker, e: Q.Event)
    requires InQuota(w) && Q.Enabled(w, e)
    ensures InQuota(Q.Step(w, e)) && Q.Step(w, e).counter.limit == w.counter.limit
  {
    Q.StepCountsRight(w, e);
    hide Q.CountsRight;
    assert forall d :: Q.RecordedOn(w, d) == Q.RecordedOn(w, d);
  }

  // ---- What the worker does, reading by reading ----

  /** Where the worker stands: at a reading, with the history of its schedule and that of its quota. */
  datatype Place = Place(tick: nat, run: R.Run, worker: Q.Worker)

  ghost predicate Timely(world: World, until: nat, p: Place) {
    && Going(world, until) && p.tick <= until
    && p.run.clock <= world.clock(p.tick) && p.worker.today <= DayOf(world.clock(p.tick))
  }

  lemma ClockGoesOn(world: World, until: nat, i: nat, j: nat)
    requires Going(world, until) && i <= j
    ensures world.clock(i) <= world.clock(j) && DayOf(world.clock(i)) <= DayOf(world.clock(j))
    ensures !world.cancelled(i) && i <= until ==> i < until
  {
    DaysGoOn(world.clock(i), world.clock(j));
  }

  /** The first reading from k on that is cancelled or lets the quota go ahead. */
  ghost function QuotaReading(world: World, until: nat, c: Q.Counter, need: nat, k: nat): (at: nat)
    requires k <= until
    ensures k <= at <= until
    decreases until - k
  {
    if k == until || world.cancelled(k) || Q.Allowed(c, ReadingAt(world, k), need) then k
    else QuotaReading(world, until, c, need, k + 1)
  }

  lemma {:induction false} QuotaReadingIs(world: World, until: nat, c: Q.Counter, need: nat, k: nat, at: nat)
    requires k <= at <= until && (world.cancelled(at) || Q.Allowed(c, Readings(world)(at), need))
    requires forall n :: k <= n < at ==> !world.cancelled(n) && !Q.Allowed(c, Readings(world)(n), need)
    ensures QuotaReading(world, until, c, need, k) == at
    decreases at - k
  {
    assert Readings(world)(k) == ReadingAt(world, k);
    hide Q.Allowed, ReadingAt;
    if k < at {
      QuotaReadingIs(world, until, c, need, k + 1, at);
    }
  }

  /** The time is inside a slot, or no slot can ever open. */
  predicate SlotIsOpen(world: World, rules: seq<Rule>, k: nat) {
    ActiveSlot(world.clock(k), rules).Some? || NextSlotStart(world.clock(k), rules).None?
  }

  /** The first reading from k on that is cancelled or inside a slot. */
  ghost function WindowReading(world: World, until: nat, rules: seq<Rule>, k: nat): (at: nat)
    requires k <= until
    ensures k <= at <= until
    decreases until - k
  {
    if k == until || world.cancelled(k) || SlotIsOpen(world, rules, k) then k
    else WindowReading(world, until, rules, k + 1)
  }

  ghost function AfterQuota(world: World, until: nat, p: Place, need: nat): (q: Place)
    requires Timely(world, until, p)
    ensures Timely(world, until, q) && q.run == p.run && q.tick >= p.tick
  {
    var at := QuotaReading(world, until, p.worker.counter, need, p.tick);
    ClockGoesOn(world, until, p.tick, at);
    if !world.cancelled(at) then
      p.(tick := at, worker := Q.Step(p.worker, Q.GoEvent(ReadingAt(world, at), need)))
    else if at > p.tick then
      ClockGoesOn(world, until, at - 1, at);
      p.(tick := at, worker := Q.Step(p.worker, Q.LookEvent(ReadingAt(world, at - 1))))
    else p
  }

  ghost function AfterWindow(world: World, until: nat, p: Place): (q: Place)
    requires Timely(world, until, p)
    ensures Timely(world, until, q) && q.run == p.run && q.tick >= p.tick
  {
    var at := WindowReading(world, until, p.run.schedule.rules, p.tick);
    ClockGoesOn(world, until, p.tick, at);
    p.(tick := at)
  }

  /** Tries for tokens at every reading until some are granted or the task is cancelled. */
  ghost function AfterReserve(world: World, until: nat, p: Place, need: nat): (q: Place)
    requires Timely(world, until, p) && p.run.tickets == []
    ensures Timely(world, until, q) && q.worker == p.worker && q.tick >= p.tick && q.run.forgotten == p.run.forgotten
    ensures if world.cancelled(q.tick) then q.run.tickets == [] else |q.run.tickets| == 1
    decreases until - p.tick
  {
    if world.cancelled(p.tick) then p
    else
      var run := R.Step(p.run, R.ReserveEvent(world.clock(p.tick), need));
      ClockGoesOn(world, until, p.tick, p.tick + 1);
      if run.tickets != [] then p.(run := run)
      else AfterReserve(world, until, p.(tick := p.tick + 1, run := run), need)
  }

  /** The send takes until the next reading. */
  ghost function Sent(world: World, until: nat, p: Place): (q: Place)
    requires Timely(world, until, p) && !world.cancelled(p.tick)
    ensures Timely(world, until, q) && q.run == p.run && q.worker == p.worker && q.tick == p.tick + 1
  {
    ClockGoesOn(world, until, p.tick, p.tick + 1);
    p.(tick := p.tick + 1)
  }

  /** The tokens are committed or given back; unless the task was cancelled meanwhile, the commit is written to the
      task row and the delivery is recorded. */
  ghost function Settled(world: World, until: nat, p: Place, units: nat, delivers: bool): (q: Place)
    requires Timely(world, until, p) && |p.run.tickets| == 1
    ensures Timely(world, until, q) && q.run.tickets == [] && q.tick == p.tick && q.run.forgotten == p.run.forgotten
  {
    p.(run := R.Step(p.run, if delivers then R.CommitEvent(0, !world.cancelled(p.tick)) else R.ReleaseEvent(0)),
       worker := if delivers && !world.cancelled(p.tick)
                 then Q.Step(p.worker, Q.AddEvent(ReadingAt(world, p.tick), units)) else p.worker)
  }

  datatype Turn = Processed(at: Place) | Stopped(at: Place)

  ghost function AfterJob(world: World, until: nat, p: Place, job: Job, delivers: bool): (turn: Turn)
    requires Timely(world, until, p) && p.run.tickets == [] && !world.cancelled(p.tick)
    ensures Timely(world, until, turn.at) && turn.at.run.tickets == [] && turn.at.run.forgotten == p.run.forgotten
    ensures turn.at.tick >= p.tick && (turn.Stopped? ==> world.cancelled(turn.at.tick))
  {
    if job.filtered then Processed(p)
    else if job.need == 0 then Processed(Sent(world, until, p))
    else
      var w := AfterQuota(world, until, p, job.units);
      if world.cancelled(w.tick) then Stopped(w)
      else if job.units == 0 then
        var o := AfterWindow(world, until, w);
        if world.cancelled(o.tick) then Stopped(o) else Processed(Sent(world, until, o))
      else
        var r := AfterReserve(world, until, w, job.units);
        if world.cancelled(r.tick) then Stopped(r)
        else Processed(Settled(world, until, Sent(world, until, r), job.units, delivers))
  }

  lemma {:induction false} QuotaIsWaitedFor(world: World, until: nat, c: Q.Counter, need: nat, k: nat)
    requires k <= until && world.cancelled(until)
    ensures var at := QuotaReading(world, until, c, need, k);
            && (world.cancelled(at) || Q.Allowed(c, ReadingAt(world, at), need))
            && forall n :: k <= n < at ==> !world.cancelled(n) && !Q.Allowed(c, ReadingAt(world, n), need)
    decreases until - k
  {
    if k < until && !world.cancelled(k) && !Q.Allowed(c, ReadingAt(world, k), need) {
      QuotaIsWaitedFor(world, until, c, need, k + 1);
    }
  }

  lemma {:induction false} WindowIsWaitedFor(world: World, until: nat, rules: seq<Rule>, k: nat)
    requires k <= until && world.cancelled(until)
    ensures var at := WindowReading(world, until, rules, k);
            && (|| world.cancelled(at) || ActiveSlot(world.clock(at), rules).Some?
                || NextSlotStart(world.clock(at), rules).None?)
            && forall n :: k <= n < at ==>
                 && !world.cancelled(n) && ActiveSlot(world.clock(n), rules).None?
                 && NextSlotStart(world.clock(n), rules).Some?
    decreases until - k
  {
    hide ActiveSlot, NextSlotStart;
    if k < until && !world.cancelled(k) && !SlotIsOpen(world, rules, k) {
      WindowIsWaitedFor(world, until, rules, k + 1);
    }
  }

  /** With nothing out, a try at this time brings a ticket. */
  ghost predicate IsGranted(before: R.Run, after: R.Run, now: Instant, need: nat) {
    && before.tickets == [] && before.clock <= now
    && after == R.Step(before, R.ReserveEvent(now, need)) && |after.tickets| == 1
  }

  lemma {:induction false} TokensAreWaitedFor(world: World, until: nat, p: Place, need: nat)
    requires Timely(world, until, p) && p.run.tickets == []
    ensures var q := AfterReserve(world, until, p, need);
            !world.cancelled(q.tick) ==>
              |q.run.tickets| == 1 && exists before: R.Run :: IsGranted(before, q.run, world.clock(q.tick), need)
    decreases until - p.tick
  {
    hide Reserve, Going;
    if !world.cancelled(p.tick) {
      var run := R.Step(p.run, R.ReserveEvent(world.clock(p.tick), need));
      ClockGoesOn(world, until, p.tick, p.tick + 1);
      if run.tickets != [] {
        assert IsGranted(p.run, run, world.clock(p.tick), need);
      } else {
        TokensAreWaitedFor(world, until, p.(tick := p.tick + 1, run := run), need);
      }
    }
  }

  /** The quota allows the units at this time. */
  ghost predicate MayGoAhead(c: Q.Counter, now: Instant, need: nat) {
    Q.Allowed(c, Q.Reading(DayOf(now), MinuteOf(now)), need)
  }

  /** A job that sends something goes ahead only after the quota allowed its units and, at the reading at which it is
      sent, the slot granted its tokens, or is open if it needs none. */
  lemma JobWaitsItsTurn(world: World, until: nat, p: Place, job: Job, delivers: bool)
    requires Timely(world, until, p) && p.run.tickets == [] && !world.cancelled(p.tick)
    requires !job.filtered && job.need > 0
    ensures var turn, rules := AfterJob(world, until, p, job, delivers), p.run.schedule.rules;
            turn.Processed? ==>
              && turn.at.tick > p.tick && !world.cancelled(turn.at.tick - 1)
              && (exists k :: p.tick <= k < turn.at.tick && MayGoAhead(p.worker.counter, world.clock(k), job.units))
              && var sent := world.clock(turn.at.tick - 1);
                 if job.units == 0 then ActiveSlot(sent, rules).Some? || NextSlotStart(sent, rules).None?
                 else exists before: R.Run, after: R.Run :: IsGranted(before, after, sent, job.units)
  {
    hide Q.Allowed, ActiveSlot, NextSlotStart, R.Step, AfterReserve, Settled, QuotaReading, WindowReading, IsGranted;
    QuotaIsWaitedFor(world, until, p.worker.counter, job.units, p.tick);
    var w := AfterQuota(world, until, p, job.units);
    if !world.cancelled(w.tick) {
      assert MayGoAhead(p.worker.counter, world.clock(w.tick), job.units);
      if job.units == 0 {
        WindowIsWaitedFor(world, until, w.run.schedule.rules, w.tick);
      } else {
        TokensAreWaitedFor(world, until, w, job.units);
      }
    }
  }

  /** From job k on: where the worker ends, and the first job it did not finish. */
  ghost function AfterJobs(world: World, until: nat, p: Place, jobs: seq<Job>, k: nat): (Place, nat)
    requires Timely(world, until, p) && p.run.tickets == [] && k <= |jobs|
    decreases |jobs| - k
  {
    if k == |jobs| || world.cancelled(p.tick) then (p, k)
    else
      match AfterJob(world, until, p, jobs[k], world.delivers(k))
      case Stopped(q) => (q, k)
      case Processed(q) => AfterJobs(world, until, q, jobs, k + 1)
  }

  // ---- The ledgers ----

  /** records lists the readings at which deliveries that cost a unit were to be recorded: one for each unit,
      in order, and none but the last cancelled. */
  ghost predicate RecordsAre(world: World, records: seq<nat>, units: nat, tick: nat) {
    && |records| == units
    && (forall i, j :: 0 <= i < j < |records| ==> records[i] < records[j])
    && (forall i :: 0 <= i < |records| ==> records[i] <= tick)
    && (forall i :: 0 <= i < |records| - 1 ==> !world.cancelled(records[i]))
  }

  /** The last delivery could not be recorded any more. */
  ghost predicate LastIsMissing(world: World, records: seq<nat>) {
    |records| > 0 && world.cancelled(records[|records| - 1])
  }

  /** The units given to the slots and to the quota, and the cursor. */
  datatype Books = Books(committed: nat, recorded: nat, cursor: nat)

  /** After the first jobs the slots have been given the units delivered, and the quota the same but for a last
      delivery that came too late for its record; the cursor is at the greatest id. */
  ghost predicate Booked(world: World, jobs: seq<Job>, done: nat, was: Books, now: Books, records: seq<nat>, tick: nat)
  {
    && done <= |jobs| && now.committed == was.committed + UnitsDelivered(jobs[..done], world)
    && RecordsAre(world, records, UnitsDelivered(jobs[..done], world), tick)
    && now.recorded == was.recorded + |records| - (if LastIsMissing(world, records) then 1 else 0)
    && (LastIsMissing(world, records) ==> done > 0 && Costs(jobs[done - 1], world.delivers(done - 1)))
    && now.cursor == CursorAfter(was.cursor, jobs[..done])
  }

  lemma NothingBooked(world: World, jobs: seq<Job>, books: Books, tick: nat)
    ensures Booked(world, jobs, 0, books, books, [], tick)
  {
  }

  /** A further record at a later reading. */
  lemma OneMoreRecord(world: World, until: nat, records: seq<nat>, units: nat, before: nat, at: Place, costs: bool)
    requires Timely(world, until, at) && RecordsAre(world, records, units, before) && !world.cancelled(before)
    requires before <= at.tick && (costs ==> before < at.tick)
    ensures !LastIsMissing(world, records)
    ensures var now := if costs then records + [at.tick] else records;
            && RecordsAre(world, now, units + if costs then 1 else 0, at.tick)
            && (LastIsMissing(world, now) <==> costs && world.cancelled(at.tick))
  {
  }

  /** A job that began uncancelled was processed. */
  lemma OneMoreJob(world: World, until: nat, jobs: seq<Job>, done: nat, was: Books, mid: Books, now: Books,
                   records: seq<nat>, before: nat, at: Place)
    requires done < |jobs| && WellFormed(jobs[done]) && Booked(world, jobs, done, was, mid, records, before)
    requires Timely(world, until, at) && !world.cancelled(before) && before <= at.tick
    requires var costs := Costs(jobs[done], world.delivers(done));
             && (costs ==> before < at.tick)
             && now.committed == mid.committed + (if costs then jobs[done].units else 0)
             && now.recorded == mid.recorded + (if costs && !world.cancelled(at.tick) then jobs[done].units else 0)
             && now.cursor == MaxOf(mid.cursor, jobs[done].maxId)
    ensures var more := if Costs(jobs[done], world.delivers(done)) then records + [at.tick] else records;
            Booked(world, jobs, done + 1, was, now, more, at.tick)
  {
    var costs := Costs(jobs[done], world.delivers(done));
    OneMoreDone(world, jobs, done, was.cursor);
    OneMoreRecord(world, until, records, UnitsDelivered(jobs[..done], world), before, at, costs);
    hide RecordsAre, LastIsMissing, Timely, UnitsDelivered, CursorAfter, Costs;
  }

  lemma OneMoreDone(world: World, jobs: seq<Job>, done: nat, cursor: nat)
    requires done < |jobs|
    ensures UnitsDelivered(jobs[..done + 1], world) ==
            UnitsDelivered(jobs[..done], world) +
            if Costs(jobs[done], world.delivers(done)) then jobs[done].units else 0
    ensures CursorAfter(cursor, jobs[..done + 1]) == MaxOf(CursorAfter(cursor, jobs[..done]), jobs[done].maxId)
  {
    assert jobs[..done + 1][..done] == jobs[..done];
  }

  /** What a stop leaves: a job that is not processed. */
  lemma StoppedJob(world: World, jobs: seq<Job>, done: nat, was: Books, now: Books, records: seq<nat>, before: nat,
                   tick: nat)
    requires done <= |jobs| && Booked(world, jobs, done, was, now, records, before) && before <= tick
    ensures Booked(world, jobs, done, was, now, records, tick)
  {
    hide UnitsDelivered, CursorAfter, Costs;
  }

  lemma BookedMeans(world: World, jobs: seq<Job>, done: nat, was: Books, now: Books, records: seq<nat>, tick: nat)
    requires Booked(world, jobs, done, was, now, records, tick) && forall job :: job in jobs ==> WellFormed(job)
    ensures done <= |jobs| && now.cursor >= was.cursor && (forall k :: 0 <= k < done ==> jobs[k].maxId <= now.cursor)
    ensures now.cursor == was.cursor || exists k :: 0 <= k < done && jobs[k].maxId == now.cursor
    ensures now.committed == was.committed + |Deliveries(jobs, done, world)|
    ensures |records| == |Deliveries(jobs, done, world)|
  {
    CursorIsGreatest(was.cursor, jobs[..done]);
    UnitsAreDeliveries(jobs, done, world);
    hide CursorAfter, UnitsDelivered, Deliveries, LastIsMissing;
    forall k | 0 <= k < done
      ensures jobs[k].maxId <= now.cursor
    {
      assert jobs[..done][k] == jobs[k];
    }
  }

  /** run and worker follow the schedule and the quota through the events of the two protocols;
      committed and recorded are the units given to each so far. */
  class RuntimeTask {
    const schedule: TaskSchedule
    const quota: Q.TaskQuota
    var cursor: nat
    var tick: nat
    ghost var run: R.Run
    ghost var worker: Q.Worker
    ghost var committed: nat
    ghost var recorded: nat

    constructor (schedule: TaskSchedule, quota: Q.TaskQuota, cursor: nat, ghost run: R.Run, ghost worker: Q.Worker)
      requires run.schedule == schedule.State() && InProtocol(run) && run.tickets == []
      requires quota.Valid() && worker.counter == quota.counter && InQuota(worker)
      ensures Valid() && this.schedule == schedule && this.quota == quota && this.cursor == cursor
      ensures Here() == Place(0, run, worker) && committed == 0 && recorded == 0
    {
      this.schedule, this.quota, this.cursor, tick := schedule, quota, cursor, 0;
      this.run, this.worker, committed, recorded := run, worker, 0, 0;
    }

    ghost predicate Valid()
      reads this, schedule, quota
    {
      && run.schedule == schedule.State() && InProtocol(run)
      && quota.Valid() && worker.counter == quota.counter && InQuota(worker)
    }

    ghost function Now(): Books
      reads this
    {
      Books(committed, recorded, cursor)
    }

    ghost function Here(): Place
      reads this
    {
      Place(tick, run, worker)
    }

    /** The wait itself: it ends at the first reading that is cancelled or lets the quota go ahead. */
    method AwaitQuota(world: World, need: nat, ghost until: nat) returns (waited: Q.Waited)
      requires Valid() && Timely(world, until, Here())
      modifies quota
      ensures quota.Valid() && waited.at == QuotaReading(world, until, worker.counter, need, tick)
      ensures waited.GoAhead? <==> !world.cancelled(waited.at)
      ensures waited.GoAhead? ==>
                && Q.Allowed(worker.counter, ReadingAt(world, waited.at), need)
                && quota.counter == Q.OnDay(worker.counter, ReadingAt(world, waited.at).day)
      ensures waited.Cancelled? ==>
                quota.counter == if waited.at == tick then worker.counter
                                 else Q.OnDay(worker.counter, ReadingAt(world, waited.at - 1).day)
    {
      hide InProtocol, InQuota, Q.Allowed, QuotaReading;
      ReadingsGoForward(world, until);
      QuotaHolds(worker);
      waited := quota.WaitForQuota(Readings(world), world.cancelled, tick, need, until);
      QuotaReadingIs(world, until, worker.counter, need, tick, waited.at);
    }

    /** Waits for the daily quota; false when cancelled. */
    method WaitQuota(world: World, need: nat, ghost until: nat) returns (ok: bool)
      requires Valid() && Timely(world, until, Here())
      modifies this`tick, this`worker, quota
      ensures Valid() && Here() == AfterQuota(world, until, old(Here()), need)
      ensures ok <==> !world.cancelled(tick)
      ensures ok ==> worker.granted == need
    {
      hide InProtocol, InQuota, Q.Allowed, QuotaReading;
      ghost var before := worker;
      var waited := AwaitQuota(world, need, until);
      ClockGoesOn(world, until, tick, waited.at);
      match waited
      case GoAhead(at) =>
        ghost var e := Q.GoEvent(ReadingAt(world, at), need);
        StepStaysInQuota(before, e);
        worker := Q.Step(before, e);
        tick := at;
        ok := true;
      case Cancelled(at) =>
        if at > tick {
          ClockGoesOn(world, until, tick, at - 1);
          ghost var e := Q.LookEvent(ReadingAt(world, at - 1));
          StepStaysInQuota(before, e);
          worker := Q.Step(before, e);
        }
        tick := at;
        ok := false;
    }

    /** One try for tokens. */
    method TryReserve(now: Instant, need: nat) returns (granted: nat)
      requires Valid() && run.clock <= now && run.tickets == []
      modifies this`run, schedule
      ensures Valid() && run == R.Step(old(run), R.ReserveEvent(now, need)) && run.clock == now && granted <= need
      ensures if granted == 0 then run.tickets == [] else |run.tickets| == 1 && run.tickets[0].units == granted
    {
      hide InProtocol, InQuota, Reserve;
      ghost var before := run;
      GrantIsBounded(schedule.State(), now, need);
      var got, next := schedule.ReservePull(now, need);
      StepStaysInProtocol(before, R.ReserveEvent(now, need));
      TryLeaves(before, now, need);
      run := R.Step(before, R.ReserveEvent(now, need));
      granted := if got <= 0 then 0 else got;
    }

    /** Waits until the slot grants tokens; none when cancelled. */
    method ReserveSchedule(world: World, need: nat, ghost until: nat) returns (granted: nat)
      requires Valid() && Timely(world, until, Here()) && run.tickets == [] && need > 0
      modifies this`tick, this`run, schedule
      ensures Valid() && Here() == AfterReserve(world, until, old(Here()), need)
      ensures granted <= need && (granted == 0 <==> world.cancelled(tick))
      ensures if granted == 0 then run.tickets == [] else |run.tickets| == 1 && run.tickets[0].units == granted
    {
      hide InProtocol, InQuota, Reserve, Going, R.Step;
      ghost var from := Here();
      while !world.cancelled(tick)
        invariant Valid() && Timely(world, until, Here()) && run.tickets == []
        invariant AfterReserve(world, until, Here(), need) == AfterReserve(world, until, from, need)
        decreases until - tick
      {
        var got := TryReserve(world.clock(tick), need);
        ClockGoesOn(world, until, tick, tick + 1);
        if got > 0 {
          return got;
        }
        tick := tick + 1;
      }
      granted := 0;
    }

    /** Waits until the time is inside a slot, whatever is left of it; false when cancelled. */
    method WaitScheduleWindow(world: World, ghost until: nat) returns (ok: bool)
      requires Valid() && Timely(world, until, Here())
      modifies this`tick
      ensures Valid() && Here() == AfterWindow(world, until, old(Here()))
      ensures ok <==> !world.cancelled(tick)
      ensures ok ==> ActiveSlot(world.clock(tick), schedule.rules).Some? ||
                     NextSlotStart(world.clock(tick), schedule.rules).None?
    {
      hide InProtocol, InQuota, Going, ActiveSlot, NextSlotStart;
      ghost var from := tick;
      while !world.cancelled(tick)
        invariant Valid() && Timely(world, until, Here()) && from <= tick
        invariant WindowReading(world, until, schedule.rules, tick) == WindowReading(world, until, schedule.rules, from)
        decreases until - tick
      {
        var slot := PickActiveSlot(world.clock(tick), schedule.rules);
        var next := FindNextSlotStart(world.clock(tick), schedule.rules);
        if slot.Some? || next.None? {
          return true;
        }
        ClockGoesOn(world, until, tick, tick + 1);
        tick := tick + 1;
      }
      ok := false;
    }

    /** Commits or gives back what was granted; once the task is cancelled, a commit does not reach the row. */
    method Settle(cancelled: bool, delivered: bool, units: nat, granted: nat)
      requires Valid() && |run.tickets| == 1 && run.tickets[0].units == granted && units == granted > 0
      modifies this`run, this`committed, schedule
      ensures Valid()
      ensures run == R.Step(old(run), if delivered then R.CommitEvent(0, !cancelled) else R.ReleaseEvent(0))
      ensures committed == old(committed) + if delivered then units else 0
    {
      hide InProtocol, InQuota;
      ghost var before := run;
      if delivered {
        schedule.CommitPull(cancelled, units);
        StepStaysInProtocol(before, R.CommitEvent(0, !cancelled));
        run := R.Step(before, R.CommitEvent(0, !cancelled));
        committed := committed + units;
      } else {
        schedule.ReleasePull(granted);
        StepStaysInProtocol(before, R.ReleaseEvent(0));
        run := R.Step(before, R.ReleaseEvent(0));
      }
    }

    /** Records the units of a delivery under the date of the reading, unless the task is cancelled by then. */
    method Record(world: World, units: nat)
      requires Valid() && worker.today <= DayOf(world.clock(tick)) && 0 < units <= worker.granted
      modifies this`worker, this`recorded, quota
      ensures Valid()
      ensures worker == if world.cancelled(tick) then old(worker)
                        else Q.Step(old(worker), Q.AddEvent(ReadingAt(world, tick), units))
      ensures recorded == old(recorded) + if world.cancelled(tick) then 0 else units
    {
      hide InProtocol, InQuota;
      ghost var before := worker;
      quota.QuotaAdd(world.cancelled(tick), ReadingAt(world, tick), units);
      if !world.cancelled(tick) {
        ghost var e := Q.AddEvent(ReadingAt(world, tick), units);
        StepStaysInQuota(before, e);
        worker := Q.Step(before, e);
        recorded := recorded + units;
      }
    }

    method AdvanceCursor(id: nat)
      modifies this`cursor
      ensures cursor == MaxOf(old(cursor), id)
      ensures cursor >= old(cursor) && cursor >= id && (cursor == old(cursor) || cursor == id)
    {
      if id > cursor {
        cursor := id;
      }
    }

    method EndOfSend(world: World, ghost until: nat)
      requires Valid() && Timely(world, until, Here()) && !world.cancelled(tick)
      modifies this`tick
      ensures Valid() && Here() == Sent(world, until, old(Here()))
    {
      tick := tick + 1;
    }

    /** Sends with tokens out, settles them, and records a delivery. */
    method SendMetered(world: World, units: nat, granted: nat, delivers: bool, ghost until: nat)
      requires Valid() && Timely(world, until, Here()) && !world.cancelled(tick) && 0 < units <= worker.granted
      requires |run.tickets| == 1 && run.tickets[0].units == granted == units
      modifies this`tick, this`run, this`worker, this`committed, this`recorded, schedule, quota
      ensures Valid() && Here() == Settled(world, until, Sent(world, until, old(Here())), units, delivers)
      ensures committed == old(committed) + if delivers then units else 0
      ensures recorded == old(recorded) + if delivers && !world.cancelled(tick) then units else 0
    {
      hide InProtocol, InQuota, Going;
      ClockGoesOn(world, until, tick, tick + 1);
      tick := tick + 1;
      Settle(world.cancelled(tick), delivers, units, granted);
      if delivers {
        Record(world, units);
      }
    }

    /** One job; false means the worker was cancelled before the job was sent. */
    method ProcessJob(world: World, job: Job, delivers: bool, ghost until: nat) returns (going: bool)
      requires Valid() && Timely(world, until, Here()) && run.tickets == [] && WellFormed(job) && !world.cancelled(tick)
      modifies this, schedule, quota
      ensures Valid()
      ensures AfterJob(world, until, old(Here()), job, delivers) ==
              if going then Processed(Here()) else Stopped(Here())
      ensures going && Costs(job, delivers) ==> tick > old(tick)
      ensures var units := if going && Costs(job, delivers) then job.units else 0;
              Now() == Books(old(committed) + units, old(recorded) + if world.cancelled(tick) then 0 else units,
                             if going then MaxOf(old(cursor), job.maxId) else old(cursor))
      ensures cursor >= old(cursor) && (cursor == old(cursor) || cursor == job.maxId)
      ensures if going then cursor >= job.maxId else cursor == old(cursor)
    {
      hide InProtocol, InQuota, Going, AfterQuota, AfterWindow, AfterReserve, Settled, SlotIsOpen, Timely;
      going := true;
      if job.filtered {
      } else if job.need == 0 {
        EndOfSend(world, until);
      } else {
        var ok := WaitQuota(world, job.units, until);
        if !ok {
          return false;
        }
        if job.units == 0 {
          ok := WaitScheduleWindow(world, until);
          if !ok {
            return false;
          }
          EndOfSend(world, until);
        } else {
          var granted := ReserveSchedule(world, job.units, until);
          if granted == 0 {
            return false;
          }
          SendMetered(world, job.units, granted, delivers, until);
        }
      }
      AdvanceCursor(job.maxId);
    }

    /** Works through the queue until it is empty or the worker is stopped.  Whatever happens to a job, its
        tokens are settled, both ledgers are kept, and both limits hold. */
    method RunQueue(world: World, jobs: seq<Job>, ghost until: nat) returns (done: nat, ghost records: seq<nat>)
      requires Valid() && Timely(world, until, Here()) && run.tickets == []
      requires forall job :: job in jobs ==> WellFormed(job)
      modifies this, schedule, quota
      ensures done <= |jobs| && Valid() && run.tickets == [] && schedule.reserved == 0
      ensures (Here(), done) == AfterJobs(world, until, old(Here()), jobs, 0)
      ensures done == |jobs| || world.cancelled(tick)
      ensures Booked(world, jobs, done, old(Now()), Now(), records, tick)
      ensures cursor >= old(cursor) && (forall k :: 0 <= k < done ==> jobs[k].maxId <= cursor)
      ensures cursor == old(cursor) || exists k :: 0 <= k < done && jobs[k].maxId == cursor
      ensures committed == old(committed) + |Deliveries(jobs, done, world)|
      ensures |records| == |Deliveries(jobs, done, world)|
      ensures run.forgotten == old(run.forgotten)
      ensures Uninterrupted(schedule.rules) ==>
                R.WithinForgotten(run) && (run.forgotten == map[] ==> R.WithinLimits(run))
      ensures quota.counter.limit > 0 ==> forall d :: Q.RecordedOn(worker, d) <= quota.counter.limit
    {
      hide InProtocol, InQuota, Going, AfterJob, Booked, Timely;
      done, records := 0, [];
      NothingBooked(world, jobs, Now(), tick);
      while done < |jobs| && !world.cancelled(tick)
        invariant done <= |jobs| && Valid() && Timely(world, until, Here()) && run.tickets == []
        invariant run.forgotten == old(run.forgotten)
        invariant AfterJobs(world, until, Here(), jobs, done) == AfterJobs(world, until, old(Here()), jobs, 0)
        invariant Booked(world, jobs, done, old(Now()), Now(), records, tick)
      {
        ghost var before, mid := tick, Now();
        var going := ProcessJob(world, jobs[done], world.delivers(done), until);
        if !going {
          StoppedJob(world, jobs, done, old(Now()), Now(), records, before, tick);
          break;
        }
        OneMoreJob(world, until, jobs, done, old(Now()), mid, Now(), records, before, Here());
        records := if Costs(jobs[done], world.delivers(done)) then records + [tick] else records;
        done := done + 1;
      }
      SettledMeansQuiet(run);
      QuotaHolds(worker);
      BookedMeans(world, jobs, done, old(Now()), Now(), records, tick);
    }
  }

  /** The two ledgers over a queue: the slots have been given every unit delivered, the quota at most the units
      of the last job less, and the same exactly if no delivery that costs units was cancelled before its
      record. */
  lemma LedgersAgreeUnlessCutOff(world: World, jobs: seq<Job>, done: nat, was: Books, now: Books, records: seq<nat>,
                                 tick: nat)
    requires done <= |jobs| && Booked(world, jobs, done, was, now, records, tick)
    requires forall job :: job in jobs ==> WellFormed(job)
    ensures var delivered, recorded := now.committed - was.committed, now.recorded - was.recorded;
            && delivered == UnitsDelivered(jobs[..done], world)
            && recorded <= delivered <= recorded + (if done > 0 then jobs[done - 1].units else 0)
            && (recorded == delivered <==> forall i :: 0 <= i < |records| ==> !world.cancelled(records[i]))
  {
    if LastIsMissing(world, records) {
      assert jobs[done - 1] in jobs;
    }
  }

  /** A task that is cancelled while its first message is sent, at 10:10. */
  ghost function CutOff(): World {
    World(_ => 36600, k => k >= 1, _ => true)
  }

  /** Before any job, with one token from 10:00 to 12:00 and a daily limit of one. */
  function Opening(): Place {
    Place(0, R.Start([Rule(600, 720, 1)]), Q.Begin(Q.Counter(1, None, 0, 0)))
  }

  lemma OpeningSlot()
    ensures ActiveSlot(36600, [Rule(600, 720, 1)]) == Some(Slot(0, 43200, 1))
  {
    var rules: seq<Rule> := [Rule(600, 720, 1)];
    var slot: Slot := Slot(0, 43200, 1);
    assert ActiveUpTo(36600, rules, 1) == Some(slot);
  }

  lemma OpeningReserves()
    ensures var run := R.Step(Opening().run, R.ReserveEvent(36600, 1));
            && |run.tickets| == 1 && run.tickets[0].units == 1
            && R.Step(run, R.CommitEvent(0, false)).schedule == run.schedule.(used := 1, reserved := 0)
            && run.schedule.row.slotCount == 0
  {
    OpeningGrants();
    hide Reserve, R.Record;
  }

  lemma OpeningGrants()
    ensures var r := Reserve(Opening().run.schedule, 36600, 1);
            && r.granted == 1 && r.state.used == 0 && r.state.reserved == 1 && r.state.row.slotCount == 0
            && r.state.limit == 1 && r.state.currentSlotKey.Some?
            && r.state.rules == [Rule(600, 720, 1)] && Metered(r.state.rules)
  {
    OpeningSlot();
    hide ActiveSlot, BuildSlotKey;
    assert [Rule(600, 720, 1)][0].limit > 0;
    var s := Opening().run.schedule;
    var t := Synced(s, 36600);
    assert !Pinned(s, Slot(0, 43200, 1)) && t.limit == 1 && t.used == t.reserved == t.row.slotCount == 0;
    assert t.currentSlotKey.Some? && t.rules == s.rules;
    hide Synced, Opening, Pinned;
  }

  lemma CutOffJob()
    ensures Timely(CutOff(), 1, Opening()) && Opening().run.tickets == []
    ensures var turn := AfterJob(CutOff(), 1, Opening(), Job(1, 1, 1, false), true);
            turn.Processed? && turn.at.tick == 1
            && turn.at.run.schedule.used == 1 && turn.at.run.schedule.row.slotCount == 0
            && Q.RecordedOn(turn.at.worker, 0) == 0
  {
    var w := AfterQuota(CutOff(), 1, Opening(), 1);
    assert w.tick == 0;
    OpeningReserves();
    hide R.Step, Q.Allowed;
    var r := AfterReserve(CutOff(), 1, w, 1);
    assert r == w.(run := R.Step(w.run, R.ReserveEvent(36600, 1)));
  }

  /** One job in a slot with one token: the message uses the token up, and the quota never hears of it. */
  lemma CutOffDeliveryIsNotRecorded()
    ensures Timely(CutOff(), 1, Opening()) && Opening().run.tickets == []
    ensures var jobs := [Job(1, 1, 1, false)];
            var (end, done) := AfterJobs(CutOff(), 1, Opening(), jobs, 0);
            && done == 1 && UnitsDelivered(jobs, CutOff()) == 1
            && end.run.schedule.used == 1 && end.run.schedule.row.slotCount == 0
            && Q.RecordedOn(end.worker, 0) == 0
  {
    CutOffJob();
    hide AfterJob, Timely;
    assert [Job(1, 1, 1, false)][..0] == [];
  }

  lemma QuotaHolds(w: Q.Worker)
    requires InQuota(w)
    ensures w.counter.date <= w.today
    ensures w.counter.limit > 0 ==> forall d :: Q.RecordedOn(w, d) <= w.counter.limit
  {
  }

  lemma TryLeaves(run: R.Run, now: Instant, need: int)
    requires now >= run.clock && run.tickets == []
    ensures var r, next := Reserve(run.schedule, now, need), R.Step(run, R.ReserveEvent(now, need));
            && next.schedule == r.state && next.clock == now
            && if r.granted <= 0 then next.tickets == [] else |next.tickets| == 1 && next.tickets[0].units == r.granted
  {
  }

  lemma GrantIsBounded(s: Schedule, now: Instant, need: nat)
    ensures Reserve(s, now, need).granted <= need
  {
  }

  lemma SettledMeansQuiet(run: R.Run)
    requires InProtocol(run) && run.tickets == []
    ensures run.schedule.reserved == 0
    ensures Uninterrupted(run.schedule.rules) ==>
              R.WithinForgotten(run) && (run.forgotten == map[] ==> R.WithinLimits(run))
  {
    if Uninterrupted(run.schedule.rules) {
      R.LedgerIsWithin(run);
    }
  }
}
