/**
 Time-of-day slot arithmetic of the scheduler (internal/engine/scheduler.go).

 An instant is a number of seconds; day d covers [d * DAY, (d + 1) * DAY).  The string slot keys of
 the source are modelled by the data they print.
 */
module SlotTime {
  import opened Options

  const MINUTE := 60
  const DAY := 86400
  const MINUTES_PER_DAY := 1440

  type Instant = nat

  /** A parsed rule: start and end in minutes of the day, the limit already clamped to 0. */
  datatype RawRule = Rule(startMin: nat, endMin: nat, limit: nat) {
    predicate InRange() {
      startMin < MINUTES_PER_DAY && endMin < MINUTES_PER_DAY
    }

    predicate AllDay() {
      startMin == endMin
    }

    predicate CrossMidnight() {
      startMin > endMin
    }
  }

  type Rule = r: RawRule | r.InRange() witness Rule(0, 0, 0)

  datatype SlotKey =
    | AllDayKey(day: int)
    | WindowKey(day: int, startMin: nat, endMin: nat)

  datatype Slot = Slot(idx: nat, end: Instant, limit: nat)

  function DayOf(t: Instant): nat {
    t / DAY
  }

  function MinuteOf(t: Instant): nat {
    t % DAY / MINUTE
  }

  function AtMinutes(day: nat, minutes: nat): Instant {
    day * DAY + minutes * MINUTE
  }

  predicate Contains(r: Rule, now: Instant) {
    if r.AllDay() then
      true
    else if !r.CrossMidnight() then
      r.startMin <= MinuteOf(now) < r.endMin
    else
      MinuteOf(now) >= r.startMin || MinuteOf(now) < r.endMin
  }

  function EndTime(r: Rule, now: Instant): Instant {
    if r.AllDay() then
      AtMinutes(DayOf(now) + 1, 0)
    else if r.CrossMidnight() && MinuteOf(now) >= r.startMin then
      AtMinutes(DayOf(now) + 1, r.endMin)
    else
      AtMinutes(DayOf(now), r.endMin)
  }

  function NextStart(r: Rule, now: Instant): Instant {
    if r.AllDay() then
      now
    else if !r.CrossMidnight() then
      if MinuteOf(now) < r.startMin then AtMinutes(DayOf(now), r.startMin)
      else AtMinutes(DayOf(now) + 1, r.startMin)
    else if r.endMin <= MinuteOf(now) < r.startMin then
      AtMinutes(DayOf(now), r.startMin)
    else
      AtMinutes(DayOf(now) + 1, r.startMin)
  }

  function BuildSlotKey(now: Instant, r: Rule): SlotKey {
    if r.AllDay() then
      AllDayKey(DayOf(now))
    else if r.CrossMidnight() && MinuteOf(now) < r.endMin then
      WindowKey(DayOf(now) - 1, r.startMin, r.endMin)
    else
      WindowKey(DayOf(now), r.startMin, r.endMin)
  }

  // ---- The clock ----

  /** A minute later it is the next minute, and after the last of the 1440 minutes the next day. */
  lemma MinutesGoOn(t: Instant)
    ensures if MinuteOf(t) < 1439 then MinuteOf(t + 60) == MinuteOf(t) + 1 && DayOf(t + 60) == DayOf(t)
            else MinuteOf(t) == 1439 && MinuteOf(t + 60) == 0 && DayOf(t + 60) == DayOf(t) + 1
  {
    var day, second := t / DAY, t % DAY;
    if second + 60 < DAY {
      DayIs(t + 60, day, second + 60);
    } else {
      DayIs(t + 60, day + 1, second + 60 - DAY);
    }
  }

  lemma DayIs(t: Instant, day: nat, second: nat)
    requires second < DAY && t == day * DAY + second
    ensures t / DAY == day && t % DAY == second
  {
  }

  lemma Ahead(from: nat, to: nat)
    requires from < 1440 && to < 1440
    ensures (to - from) % 1440 == if from <= to then to - from else to + 1440 - from
  {
  }

  /** A window is a stretch of the clock face: it holds the minutes that are reached from its start before its end. */
  lemma WindowGoesRound(r: Rule, now: Instant)
    ensures Contains(r, now) <==>
            r.startMin == r.endMin || (MinuteOf(now) - r.startMin) % 1440 < (r.endMin - r.startMin) % 1440
  {
    MinuteBounds(now);
    Ahead(r.startMin, MinuteOf(now));
    Ahead(r.startMin, r.endMin);
    hide MinuteOf;
  }

  // ---- One rule ----

  /** Splitting an instant: minute m of day d starts at AtMinutes(d, m). */
  lemma MinuteBounds(t: Instant)
    ensures MinuteOf(t) < MINUTES_PER_DAY
    ensures AtMinutes(DayOf(t), MinuteOf(t)) <= t < AtMinutes(DayOf(t), MinuteOf(t) + 1)
  {
  }

  /** Within one day, comparing minutes is comparing instants with the start of a minute. */
  lemma MinuteOrder(t: Instant, day: nat, minutes: nat)
    requires minutes <= MINUTES_PER_DAY
    ensures day == DayOf(t) ==> (MinuteOf(t) < minutes <==> t < AtMinutes(day, minutes))
    ensures DayOf(t) < day ==> t < AtMinutes(day, minutes)
    ensures DayOf(t) > day ==> t >= AtMinutes(day, minutes)
  {
    MinuteBounds(t);
  }

  lemma AtMinutesSplit(day: nat, minutes: nat)
    requires minutes < MINUTES_PER_DAY
    ensures DayOf(AtMinutes(day, minutes)) == day
    ensures MinuteOf(AtMinutes(day, minutes)) == minutes
  {
  }

  /** The end of an active window is the first instant, from now on, at which the rule is left. */
  lemma EndTimeIsFirstExit(r: Rule, now: Instant)
    requires Contains(r, now) && !r.AllDay()
    ensures EndTime(r, now) > now
    ensures !Contains(r, EndTime(r, now))
    ensures forall u: Instant :: now <= u < EndTime(r, now) ==> Contains(r, u)
  {
    var end := EndTime(r, now);
    MinuteBounds(now);
    AtMinutesSplit(DayOf(end), r.endMin);
    AtMinutesSplit(DayOf(now), r.endMin);
    AtMinutesSplit(DayOf(now) + 1, r.endMin);
    MinuteOrder(now, DayOf(now), r.endMin);
    forall u: Instant | now <= u < end
      ensures Contains(r, u)
    {
      SameWindowBetween(r, now, u);
    }
  }

  /** Until its end, an active window stays active, with the same end and the same key. */
  lemma SameWindowBetween(r: Rule, now: Instant, u: Instant)
    requires Contains(r, now) && now <= u < EndTime(r, now)
    ensures Contains(r, u)
    ensures EndTime(r, u) == EndTime(r, now)
    ensures BuildSlotKey(u, r) == BuildSlotKey(now, r)
  {
    MinuteBounds(now);
    MinuteBounds(u);
    MinuteOrder(u, DayOf(now), r.endMin);
    MinuteOrder(u, DayOf(now) + 1, r.endMin);
    MinuteOrder(u, DayOf(now) + 1, 0);
    assert DayOf(now) <= DayOf(u) <= DayOf(now) + 1;
  }

  /** The end of an all-day rule is the next midnight. */
  lemma AllDayEndsAtMidnight(r: Rule, now: Instant)
    requires r.AllDay()
    ensures now < EndTime(r, now) <= now + DAY
    ensures EndTime(r, now) % DAY == 0
    ensures forall u: Instant :: now <= u < EndTime(r, now) ==> DayOf(u) == DayOf(now)
  {
  }

  /** When the rule is not active, its next start is the first instant at which it is. */
  lemma NextStartIsFirstEntry(r: Rule, now: Instant)
    requires !Contains(r, now)
    ensures NextStart(r, now) > now
    ensures Contains(r, NextStart(r, now))
    ensures forall u: Instant :: now <= u < NextStart(r, now) ==> !Contains(r, u)
  {
    var start := NextStart(r, now);
    MinuteBounds(now);
    AtMinutesSplit(DayOf(now), r.startMin);
    AtMinutesSplit(DayOf(now) + 1, r.startMin);
    forall u: Instant | now <= u < start
      ensures !Contains(r, u)
    {
      MinuteBounds(u);
      MinuteOrder(u, DayOf(now), r.startMin);
      MinuteOrder(u, DayOf(now) + 1, r.startMin);
      assert DayOf(now) <= DayOf(u) <= DayOf(now) + 1;
    }
  }

  lemma SameTimeOfDay(a: Instant, b: Instant)
    requires a < b && a % DAY == b % DAY
    ensures b - a >= DAY
  {
    assert a == a / DAY * DAY + a % DAY && b == b / DAY * DAY + b % DAY;
  }

  /** Active or not, the next start is the first instant after now at which the start minute begins, or, in the part of
      a window after its midnight, the one a day later; an all-day rule starts now. */
  lemma NextStartIsABeginning(r: Rule, now: Instant)
    ensures r.AllDay() ==> NextStart(r, now) == now
    ensures !r.AllDay() ==>
              var next := if r.CrossMidnight() && MinuteOf(now) < r.endMin then NextStart(r, now) - 86400
                          else NextStart(r, now);
              && now < next <= now + 86400 && next % 86400 == r.startMin * 60
              && forall u: Instant :: now < u < next ==> u % 86400 != r.startMin * 60
  {
    if !r.AllDay() {
      MinuteBounds(now);
      var day := if MinuteOf(now) < r.startMin then DayOf(now) else DayOf(now) + 1;
      var next := AtMinutes(day, r.startMin);
      DayIs(next, day, r.startMin * MINUTE);
      assert AtMinutes(day + 1, r.startMin) == next + DAY;
      assert now < next <= now + DAY;
      forall u: Instant | now < u < next
        ensures u % DAY != r.startMin * MINUTE
      {
        if u % DAY == next % DAY {
          SameTimeOfDay(u, next);
        }
      }
    }
  }

  /** A slot key names one activation of the rule: it is shared exactly by instants with one end. */
  lemma SameKeyIffSameEnd(r: Rule, t: Instant, u: Instant)
    requires Contains(r, t) && Contains(r, u)
    ensures BuildSlotKey(t, r) == BuildSlotKey(u, r) <==> EndTime(r, t) == EndTime(r, u)
  {
    MinuteBounds(t);
    MinuteBounds(u);
  }

  /** Between two instants with one key the rule is never left. */
  lemma KeyIsConvex(r: Rule, t: Instant, v: Instant, u: Instant)
    requires Contains(r, t) && Contains(r, u) && BuildSlotKey(t, r) == BuildSlotKey(u, r)
    requires t <= v <= u
    ensures Contains(r, v) && BuildSlotKey(v, r) == BuildSlotKey(t, r)
  {
    SameKeyIffSameEnd(r, t, u);
    if r.AllDay() {
      AllDayEndsAtMidnight(r, u);
    } else {
      EndTimeIsFirstExit(r, u);
    }
    SameWindowBetween(r, t, v);
  }

  /** A key names the minute its activation began in: from there to now the rule was not left. */
  lemma KeyNamesTheStart(r: Rule, now: Instant)
    requires Contains(r, now)
    ensures match BuildSlotKey(now, r)
            case AllDayKey(day) => r.AllDay() && day == DayOf(now)
            case WindowKey(day, startMin, endMin) =>
              && !r.AllDay() && startMin == r.startMin && endMin == r.endMin
              && day * DAY + startMin * MINUTE <= now
              && forall u: Instant :: day * DAY + startMin * MINUTE <= u <= now ==> Contains(r, u)
  {
    MinuteBounds(now);
    if !r.AllDay() {
      var day := BuildSlotKey(now, r).day;
      forall u: Instant | day * DAY + r.startMin * MINUTE <= u <= now
        ensures Contains(r, u)
      {
        MinuteBounds(u);
        MinuteOrder(u, DayOf(now), r.startMin);
        MinuteOrder(u, DayOf(now), r.endMin);
        assert DayOf(u) == DayOf(now) || DayOf(u) + 1 == DayOf(now);
        if day == DayOf(now) - 1 && DayOf(u) == day {
          MinuteOrder(u, DayOf(u), r.startMin);
        }
      }
    }
  }

  // ---- Several rules ----

  /** The rule is enabled and active. */
  predicate Open(r: Rule, now: Instant) {
    r.limit > 0 && Contains(r, now)
  }

  /** The open rule with the earliest end among the first n, the earliest in the list on a tie. */
  function ActiveUpTo(now: Instant, rules: seq<Rule>, n: nat): (slot: Option<Slot>)
    requires n <= |rules|
    ensures slot.Some? ==> slot.value.idx < n && Open(rules[slot.value.idx], now)
  {
    if n == 0 then
      None
    else
      var best := ActiveUpTo(now, rules, n - 1);
      var r := rules[n - 1];
      if Open(r, now) && (best.None? || EndTime(r, now) < best.value.end)
      then Some(Slot(n - 1, EndTime(r, now), r.limit))
      else best
  }

  function ActiveSlot(now: Instant, rules: seq<Rule>): Option<Slot> {
    ActiveUpTo(now, rules, |rules|)
  }

  /** idx is the open rule that ends first; every earlier rule that is open ends strictly later. */
  predicate IsFirstToEnd(now: Instant, rules: seq<Rule>, n: nat, idx: nat)
  {
    && idx < n <= |rules|
    && Open(rules[idx], now)
    && (forall j :: 0 <= j < n && Open(rules[j], now) ==> EndTime(rules[idx], now) <= EndTime(rules[j], now))
    && (forall j :: 0 <= j < idx && Open(rules[j], now) ==> EndTime(rules[idx], now) < EndTime(rules[j], now))
  }

  lemma {:induction false} ActiveUpToIsFirstToEnd(now: Instant, rules: seq<Rule>, n: nat)
    requires n <= |rules|
    ensures ActiveUpTo(now, rules, n).None? <==> forall j :: 0 <= j < n ==> !Open(rules[j], now)
    ensures ActiveUpTo(now, rules, n).Some? ==>
              var slot := ActiveUpTo(now, rules, n).value;
              && IsFirstToEnd(now, rules, n, slot.idx)
              && slot.end == EndTime(rules[slot.idx], now)
              && slot.limit == rules[slot.idx].limit
  {
    if n > 0 {
      ActiveUpToIsFirstToEnd(now, rules, n - 1);
    }
  }

  /** The active slot is the only index that is first to end, and there is none iff no rule is open. */
  lemma ActiveSlotIsFirstToEnd(now: Instant, rules: seq<Rule>)
    ensures ActiveSlot(now, rules).None? <==> forall j :: 0 <= j < |rules| ==> !Open(rules[j], now)
    ensures ActiveSlot(now, rules).Some? ==>
              var slot := ActiveSlot(now, rules).value;
              && IsFirstToEnd(now, rules, |rules|, slot.idx)
              && slot.end == EndTime(rules[slot.idx], now)
              && slot.limit == rules[slot.idx].limit
    ensures forall i: nat :: IsFirstToEnd(now, rules, |rules|, i) ==>
                               ActiveSlot(now, rules).Some? && ActiveSlot(now, rules).value.idx == i
  {
    ActiveUpToIsFirstToEnd(now, rules, |rules|);
  }

  method PickActiveSlot(now: Instant, rules: seq<Rule>) returns (slot: Option<Slot>)
    ensures slot == ActiveSlot(now, rules)
  {
    slot := None;
    var idx := 0;
    while idx < |rules|
      invariant 0 <= idx <= |rules|
      invariant slot == ActiveUpTo(now, rules, idx)
    {
      var r := rules[idx];
      idx := idx + 1;
      if r.limit <= 0 {
        continue;
      }
      if !Contains(r, now) {
        continue;
      }
      var end := EndTime(r, now);
      if slot.None? || end < slot.value.end {
        slot := Some(Slot(idx - 1, end, r.limit));
      }
    }
  }

  function NextStartUpTo(now: Instant, rules: seq<Rule>, n: nat): Option<Instant>
    requires n <= |rules|
  {
    if n == 0 then
      None
    else
      var next := NextStartUpTo(now, rules, n - 1);
      var r := rules[n - 1];
      if r.limit > 0 && (next.None? || NextStart(r, now) < next.value)
      then Some(NextStart(r, now))
      else next
  }

  function NextSlotStart(now: Instant, rules: seq<Rule>): Option<Instant> {
    NextStartUpTo(now, rules, |rules|)
  }

  method FindNextSlotStart(now: Instant, rules: seq<Rule>) returns (next: Option<Instant>)
    ensures next == NextSlotStart(now, rules)
  {
    next := None;
    var idx := 0;
    while idx < |rules|
      invariant 0 <= idx <= |rules|
      invariant next == NextStartUpTo(now, rules, idx)
    {
      var r := rules[idx];
      idx := idx + 1;
      if r.limit <= 0 {
        continue;
      }
      var t := NextStart(r, now);
      if next.None? || t < next.value {
        next := Some(t);
      }
    }
  }

  /** Some rule can ever open. */
  predicate Metered(rules: seq<Rule>) {
    exists j :: 0 <= j < |rules| && rules[j].limit > 0
  }

  lemma {:induction false} NextStartUpToIsLeast(now: Instant, rules: seq<Rule>, n: nat)
    requires n <= |rules|
    ensures NextStartUpTo(now, rules, n).None? <==> forall j :: 0 <= j < n ==> rules[j].limit == 0
    ensures NextStartUpTo(now, rules, n).Some? ==>
              var next := NextStartUpTo(now, rules, n).value;
              && (forall j :: 0 <= j < n && rules[j].limit > 0 ==> next <= NextStart(rules[j], now))
              && (exists j :: 0 <= j < n && rules[j].limit > 0 && next == NextStart(rules[j], now))
  {
    if n > 0 {
      NextStartUpToIsLeast(now, rules, n - 1);
    }
  }

  /** When no slot is active, the hint is the earliest instant at which one is; there is no hint iff
      no rule is enabled, and then no slot is ever active. */
  lemma NextSlotStartIsEarliest(now: Instant, rules: seq<Rule>)
    requires ActiveSlot(now, rules).None?
    ensures NextSlotStart(now, rules).Some? <==> Metered(rules)
    ensures NextSlotStart(now, rules).None? ==> forall u: Instant :: ActiveSlot(u, rules).None?
    ensures NextSlotStart(now, rules).Some? ==>
              var next := NextSlotStart(now, rules).value;
              && next > now
              && ActiveSlot(next, rules).Some?
              && forall u: Instant :: now <= u < next ==> ActiveSlot(u, rules).None?
  {
    NextStartUpToIsLeast(now, rules, |rules|);
    ActiveSlotIsFirstToEnd(now, rules);
    forall j | 0 <= j < |rules| && rules[j].limit > 0
      ensures !Contains(rules[j], now) && NextStart(rules[j], now) > now
      ensures Contains(rules[j], NextStart(rules[j], now))
      ensures forall u: Instant :: now <= u < NextStart(rules[j], now) ==> !Contains(rules[j], u)
    {
      assert !Open(rules[j], now);
      NextStartIsFirstEntry(rules[j], now);
    }
    forall u: Instant
      ensures NextSlotStart(now, rules).None? ==> ActiveSlot(u, rules).None?
      ensures NextSlotStart(now, rules).Some? && now <= u < NextSlotStart(now, rules).value ==>
                ActiveSlot(u, rules).None?
    {
      ActiveSlotIsFirstToEnd(u, rules);
    }
    if NextSlotStart(now, rules).Some? {
      ActiveSlotIsFirstToEnd(NextSlotStart(now, rules).value, rules);
    }
  }

  // ---- Slot keys over time ----

  /** The key of the slot active at an instant. */
  function KeyAt(rules: seq<Rule>, t: Instant): Option<SlotKey> {
    var slot := ActiveSlot(t, rules);
    if slot.Some? then Some(BuildSlotKey(t, rules[slot.value.idx])) else None
  }

  /** One key always stands for one rule, one end and one limit. */
  lemma KeyDeterminesSlot(rules: seq<Rule>, t: Instant, u: Instant)
    requires KeyAt(rules, t).Some? && KeyAt(rules, t) == KeyAt(rules, u)
    ensures ActiveSlot(t, rules) == ActiveSlot(u, rules)
  {
    ActiveSlotIsFirstToEnd(t, rules);
    ActiveSlotIsFirstToEnd(u, rules);
    var i, j := ActiveSlot(t, rules).value.idx, ActiveSlot(u, rules).value.idx;
    SameTimesSameKey(rules[i], rules[j], t, u);
    SameTimesSameKey(rules[j], rules[i], u, t);
    SameKeyIffSameEnd(rules[i], t, u);
  }

  /** Rules that build one key are active together and end together. */
  lemma SameTimesSameKey(r: Rule, s: Rule, t: Instant, u: Instant)
    requires BuildSlotKey(t, r) == BuildSlotKey(u, s)
    ensures Contains(r, u) == Contains(s, u) && EndTime(r, u) == EndTime(s, u)
    ensures Contains(r, t) == Contains(s, t) && EndTime(r, t) == EndTime(s, t)
    ensures BuildSlotKey(u, r) == BuildSlotKey(u, s)
  {
  }

  /** No two enabled rules are ever active at once. */
  ghost predicate Disjoint(rules: seq<Rule>) {
    forall i, j, t: Instant :: 0 <= i < j < |rules| ==> !(Open(rules[i], t) && Open(rules[j], t))
  }

  /** No slot is interrupted by another and then resumed. */
  ghost predicate Uninterrupted(rules: seq<Rule>) {
    forall t: Instant, v: Instant, u: Instant ::
      t <= v <= u && KeyAt(rules, t).Some? && KeyAt(rules, t) == KeyAt(rules, u) && KeyAt(rules, v).Some? ==>
        KeyAt(rules, v) == KeyAt(rules, t)
  }

  /** The key at a minute, counted from the beginning of day 0. */
  function KeyAtMinute(rules: seq<Rule>, minute: nat): Option<SlotKey> {
    KeyAt(rules, minute * MINUTE)
  }

  /** The same, looked at on every minute of two days only. */
  predicate UninterruptedForTwoDays(rules: seq<Rule>) {
    forall a, b, c :: 0 <= a <= b <= c < 2 * MINUTES_PER_DAY ==>
                        var key := KeyAtMinute(rules, a);
                        key.Some? && key == KeyAtMinute(rules, c) && KeyAtMinute(rules, b).Some? ==>
                          KeyAtMinute(rules, b) == key
  }

  function LaterKey(key: SlotKey, days: nat): SlotKey {
    match key
    case AllDayKey(day) => AllDayKey(day + days)
    case WindowKey(day, startMin, endMin) => WindowKey(day + days, startMin, endMin)
  }

  lemma DaysLater(t: Instant, days: nat)
    ensures DayOf(t + days * DAY) == DayOf(t) + days && MinuteOf(t + days * DAY) == MinuteOf(t)
  {
  }

  lemma RuleRepeats(r: Rule, t: Instant, days: nat)
    ensures Contains(r, t + days * DAY) == Contains(r, t)
    ensures EndTime(r, t + days * DAY) == EndTime(r, t) + days * DAY
    ensures BuildSlotKey(t + days * DAY, r) == LaterKey(BuildSlotKey(t, r), days)
  {
    DaysLater(t, days);
    hide DayOf, MinuteOf;
  }

  lemma {:induction false} ActiveRepeats(rules: seq<Rule>, n: nat, t: Instant, days: nat)
    requires n <= |rules|
    ensures var now, later := ActiveUpTo(t, rules, n), ActiveUpTo(t + days * DAY, rules, n);
            later == if now.None? then None
                     else Some(Slot(now.value.idx, now.value.end + days * DAY, now.value.limit))
  {
    if n > 0 {
      ActiveRepeats(rules, n - 1, t, days);
      RuleRepeats(rules[n - 1], t, days);
      hide Contains, EndTime;
    }
  }

  /** Every day brings the same slots. */
  lemma KeyRepeats(rules: seq<Rule>, t: Instant, days: nat)
    ensures KeyAt(rules, t + days * DAY) ==
            if KeyAt(rules, t).None? then None else Some(LaterKey(KeyAt(rules, t).value, days))
  {
    ActiveRepeats(rules, |rules|, t, days);
    if KeyAt(rules, t).Some? {
      RuleRepeats(rules[ActiveSlot(t, rules).value.idx], t, days);
    }
  }

  lemma SameMinute(t: Instant)
    ensures DayOf(t / MINUTE * MINUTE) == DayOf(t) && MinuteOf(t / MINUTE * MINUTE) == MinuteOf(t)
  {
    MinuteBounds(t);
    var minutes := t / MINUTE;
    assert t / MINUTE * MINUTE == AtMinutes(DayOf(t), MinuteOf(t));
    AtMinutesSplit(DayOf(t), MinuteOf(t));
  }

  lemma {:induction false} ActiveByMinute(rules: seq<Rule>, n: nat, t: Instant)
    requires n <= |rules|
    ensures ActiveUpTo(t / MINUTE * MINUTE, rules, n) == ActiveUpTo(t, rules, n)
  {
    if n > 0 {
      ActiveByMinute(rules, n - 1, t);
      SameMinute(t);
      hide DayOf, MinuteOf;
    }
  }

  lemma KeyByMinute(rules: seq<Rule>, t: Instant)
    ensures KeyAtMinute(rules, t / MINUTE) == KeyAt(rules, t)
  {
    ActiveByMinute(rules, |rules|, t);
    SameMinute(t);
    hide DayOf, MinuteOf;
  }

  /** A slot that began on a day is over within the next one. */
  lemma SlotIsShort(rules: seq<Rule>, t: Instant, u: Instant)
    requires KeyAt(rules, t).Some? && KeyAt(rules, t) == KeyAt(rules, u)
    ensures u < (DayOf(t) + 2) * DAY
  {
    KeyDeterminesSlot(rules, t, u);
    ActiveSlotIsFirstToEnd(t, rules);
    ActiveSlotIsFirstToEnd(u, rules);
    var r := rules[ActiveSlot(t, rules).value.idx];
    if r.AllDay() {
      AllDayEndsAtMidnight(r, u);
    } else {
      EndTimeIsFirstExit(r, u);
    }
    hide ActiveSlot;
  }

  lemma LaterKeyIsInjective(a: SlotKey, b: SlotKey, days: nat)
    ensures LaterKey(a, days) == LaterKey(b, days) <==> a == b
  {
  }

  /** The same instant on day 0 or 1, and its minute. */
  lemma KeyOnFirstDays(rules: seq<Rule>, t: Instant, days: nat)
    requires days * DAY <= t
    ensures var key := KeyAtMinute(rules, (t - days * DAY) / MINUTE);
            KeyAt(rules, t) == if key.None? then None else Some(LaterKey(key.value, days))
  {
    KeyRepeats(rules, t - days * DAY, days);
    KeyByMinute(rules, t - days * DAY);
  }

  lemma ShowsWithinTwoDays(rules: seq<Rule>, t: Instant, v: Instant, u: Instant)
    requires UninterruptedForTwoDays(rules) && t <= v <= u
    requires KeyAt(rules, t).Some? && KeyAt(rules, t) == KeyAt(rules, u) && KeyAt(rules, v).Some?
    ensures KeyAt(rules, v) == KeyAt(rules, t)
  {
    SlotIsShort(rules, t, u);
    var days := DayOf(t);
    KeyOnFirstDays(rules, t, days);
    KeyOnFirstDays(rules, v, days);
    KeyOnFirstDays(rules, u, days);
    hide KeyAt, KeyAtMinute, LaterKey;
    var a, b, c := (t - days * DAY) / MINUTE, (v - days * DAY) / MINUTE, (u - days * DAY) / MINUTE;
    assert 0 <= a <= b <= c < 2 * MINUTES_PER_DAY;
    LaterKeyIsInjective(KeyAtMinute(rules, a).value, KeyAtMinute(rules, c).value, days);
  }

  /** Looking at the minutes of two days is enough. */
  lemma UninterruptedByMinutes(rules: seq<Rule>)
    ensures Uninterrupted(rules) <==> UninterruptedForTwoDays(rules)
  {
    if UninterruptedForTwoDays(rules) {
      forall t: Instant, v: Instant, u: Instant |
        t <= v <= u && KeyAt(rules, t).Some? && KeyAt(rules, t) == KeyAt(rules, u) && KeyAt(rules, v).Some?
        ensures KeyAt(rules, v) == KeyAt(rules, t)
      {
        ShowsWithinTwoDays(rules, t, v, u);
      }
    }
  }

  lemma DisjointIsUninterrupted(rules: seq<Rule>)
    requires Disjoint(rules)
    ensures Uninterrupted(rules)
  {
    forall t: Instant, v: Instant, u: Instant |
      t <= v <= u && KeyAt(rules, t).Some? && KeyAt(rules, t) == KeyAt(rules, u) && KeyAt(rules, v).Some?
      ensures KeyAt(rules, v) == KeyAt(rules, t)
    {
      KeyDeterminesSlot(rules, t, u);
      ActiveSlotIsFirstToEnd(t, rules);
      ActiveSlotIsFirstToEnd(v, rules);
      ActiveSlotIsFirstToEnd(u, rules);
      var i, j := ActiveSlot(t, rules).value.idx, ActiveSlot(v, rules).value.idx;
      KeyIsConvex(rules[i], t, v, u);
      assert Open(rules[i], v) && Open(rules[j], v);
    }
  }
}
