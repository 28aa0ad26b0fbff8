/**
 The log ring buffer (logRing, internal/global/stats.go:85-159): the last events in a fixed buffer,
 read in pages by clients that poll with the last id they have seen.
 */
module LogRing {

  datatype LogEvent = LogEvent(id: nat, message: string)

  const DEFAULT_LIMIT := 50
  const MAX_LIMIT := 200

  // ---- What it stands for ----

  /** The newest n. */
  function Last<T>(s: seq<T>, n: nat): seq<T> {
    if |s| <= n then s else s[|s| - n..]
  }

  function First<T>(s: seq<T>, n: nat): seq<T> {
    if |s| <= n then s else s[..n]
  }

  function Newer(events: seq<LogEvent>, after: nat): seq<LogEvent> {
    if |events| == 0 then []
    else
      var last := events[|events| - 1];
      Newer(events[..|events| - 1], after) + if last.id > after then [last] else []
  }

  function PageLimit(limit: int): (n: nat)
    ensures 0 < n <= 200
    ensures if 1 <= limit <= 200 then n == limit else if limit < 1 then n == 50 else n == 200
  {
    if limit <= 0 then DEFAULT_LIMIT else if limit > MAX_LIMIT then MAX_LIMIT else limit
  }

  /** A page of the retained events: the newest ones for a first visit, else the next ones. */
  function Page(retained: seq<LogEvent>, after: nat, limit: int): seq<LogEvent> {
    if after == 0 then Last(retained, PageLimit(limit)) else First(Newer(retained, after), PageLimit(limit))
  }

  // ---- The buffer ----

  function Slot(start: nat, i: nat, cap: nat): (k: nat)
    requires start < cap && i <= cap
    ensures k < cap
  {
    if start + i < cap then start + i else start + i - cap
  }

  function Wrapped(x: nat, cap: nat): (k: nat)
    requires cap > 0
    ensures k < cap
  {
    x % cap
  }

  lemma Wrap(start: nat, i: nat, cap: nat)
    requires start < cap && i <= cap
    ensures Wrapped(start + i, cap) == Slot(start, i, cap)
  {
    var x := start + i;
    if x >= cap {
      RemainderIs(x, cap, 1, x - cap);
    } else {
      RemainderIs(x, cap, 0, x);
    }
  }

  /** The remainder is what a quotient leaves below the divisor. */
  lemma RemainderIs(x: nat, cap: nat, q: nat, r: nat)
    requires r < cap && x == q * cap + r
    ensures x % cap == r
  {
    var p, d := x / cap, q - x / cap;
    assert x == p * cap + x % cap;
    assert d * cap == q * cap - p * cap == x % cap - r;
    AtLeastOnce(d, cap);
  }

  lemma AtLeastOnce(d: int, cap: int)
    requires cap >= 0
    ensures d >= 1 ==> d * cap >= cap
    ensures d <= -1 ==> d * cap <= -cap
  {
    if d >= 1 {
      assert d * cap == (d - 1) * cap + cap;
    } else if d <= -1 {
      assert d * cap == (d + 1) * cap - cap;
    }
  }

  /** From start on, the cells hold the events given, wrapping around. */
  ghost predicate Holds(cells: seq<LogEvent>, start: nat, retained: seq<LogEvent>) {
    && start < |cells| && |retained| <= |cells|
    && forall i :: 0 <= i < |retained| ==> cells[Slot(start, i, |cells|)] == retained[i]
  }

  lemma HoldsAt(cells: seq<LogEvent>, start: nat, retained: seq<LogEvent>, i: nat)
    requires Holds(cells, start, retained) && i < |retained|
    ensures start < |cells| && i < |cells| && cells[Slot(start, i, |cells|)] == retained[i]
  {
  }

  lemma Fill(cells: seq<LogEvent>, start: nat, retained: seq<LogEvent>, ev: LogEvent)
    requires Holds(cells, start, retained) && |retained| < |cells|
    ensures Holds(cells[Slot(start, |retained|, |cells|) := ev], start, retained + [ev])
  {
  }

  lemma Overwrite(cells: seq<LogEvent>, start: nat, retained: seq<LogEvent>, ev: LogEvent)
    requires Holds(cells, start, retained) && |retained| == |cells|
    ensures Holds(cells[start := ev], Slot(start, 1, |cells|), retained[1..] + [ev])
  {
    var cap, next, later := |cells|, Slot(start, 1, |cells|), retained[1..] + [ev];
    forall i | 0 <= i < |later|
      ensures cells[start := ev][Slot(next, i, cap)] == later[i]
    {
      if i < cap - 1 {
        assert Slot(next, i, cap) == Slot(start, i + 1, cap);
      }
    }
  }

  lemma LastMore<T>(s: seq<T>, x: T, n: nat)
    requires n > 0
    ensures Last(s + [x], n) == if |s| < n then Last(s, n) + [x] else Last(s, n)[1..] + [x]
  {
  }

  class Ring {
    const cap: nat
    const buf: array<LogEvent>
    var start: nat
    var size: nat
    ghost var events: seq<LogEvent>

    constructor (capacity: int)
      ensures Valid() && events == [] && fresh(buf)
      ensures cap == if capacity <= 0 then 1 else capacity
    {
      var n: nat := if capacity <= 0 then 1 else capacity;
      cap := n;
      buf := new LogEvent[n](_ => LogEvent(0, ""));
      start, size, events := 0, 0, [];
    }

    /** The buffer holds exactly the last cap events pushed. */
    ghost predicate Valid()
      reads this, buf
    {
      && cap > 0 && buf.Length == cap && start < cap
      && size == |Last(events, cap)| && Holds(buf[..], start, Last(events, cap))
    }

    method Push(ev: LogEvent)
      requires Valid()
      modifies this, buf
      ensures Valid() && events == old(events) + [ev]
    {
      hide Holds, Wrapped;
      ghost var cells, retained := buf[..], Last(events, cap);
      LastMore(events, ev, cap);
      events := events + [ev];
      if size < cap {
        Wrap(start, size, cap);
        Fill(cells, start, retained, ev);
        buf[Wrapped(start + size, cap)] := ev;
        assert buf[..] == cells[Slot(start, size, cap) := ev];
        size := size + 1;
        return;
      }
      Overwrite(cells, start, retained, ev);
      Wrap(start, 1, cap);
      buf[start] := ev;
      assert buf[..] == cells[start := ev];
      start := Wrapped(start + 1, cap);
    }

    method EventAt(i: nat) returns (ev: LogEvent)
      requires Valid() && i < size
      ensures ev == Last(events, cap)[i]
    {
      hide Holds, Last, Slot, Wrapped;
      ghost var cells, retained := buf[..], Last(events, cap);
      HoldsAt(cells, start, retained, i);
      Wrap(start, i, cap);
      var k := Wrapped(start + i, cap);
      assert cells[k] == buf[k];
      ev := buf[k];
    }

    /** The newest events, at most limit of them. */
    method Newest(limit: nat) returns (out: seq<LogEvent>)
      requires Valid()
      ensures out == Last(Last(events, cap), limit)
    {
      hide Holds;
      ghost var retained := Last(events, cap);
      var from := if size > limit then size - limit else 0;
      out := [];
      for i := from to size
        invariant out == retained[from..i]
      {
        var ev := EventAt(i);
        out := out + [ev];
      }
    }

    /** The first events newer than an id, at most limit of them. */
    method Next(afterID: nat, limit: nat) returns (out: seq<LogEvent>)
      requires Valid() && limit > 0
      ensures out == First(Newer(Last(events, cap), afterID), limit)
    {
      hide Holds, Newer, Last;
      ghost var retained := Last(events, cap);
      out := [];
      NoneNewer(afterID);
      for i := 0 to size
        invariant out == Newer(retained[..i], afterID) && |out| < limit
      {
        var ev := EventAt(i);
        assert retained[..i + 1] == retained[..i] + [ev];
        NewerMore(retained[..i], ev, afterID);
        if ev.id <= afterID {
          continue;
        }
        out := out + [ev];
        if |out| >= limit {
          assert retained == retained[..i + 1] + retained[i + 1..];
          NewerSplits(retained[..i + 1], retained[i + 1..], afterID);
          return;
        }
      }
      assert retained[..size] == retained;
    }

    /** The page a client asks for. */
    method Snapshot(afterID: nat, limit: int) returns (out: seq<LogEvent>)
      requires Valid()
      ensures out == Page(Last(events, cap), afterID, limit)
    {
      var n := limit;
      if n <= 0 {
        n := DEFAULT_LIMIT;
      }
      if n > MAX_LIMIT {
        n := MAX_LIMIT;
      }
      if size == 0 {
        return [];
      }
      if afterID == 0 {
        out := Newest(n);
      } else {
        out := Next(afterID, n);
      }
    }
  }

  lemma NoneNewer(after: nat)
    ensures Newer([], after) == []
  {
  }

  lemma NewerMore(events: seq<LogEvent>, ev: LogEvent, after: nat)
    ensures Newer(events + [ev], after) == Newer(events, after) + if ev.id > after then [ev] else []
  {
    assert (events + [ev])[..|events|] == events;
  }

  lemma {:induction false} NewerSplits(a: seq<LogEvent>, b: seq<LogEvent>, after: nat)
    ensures Newer(a + b, after) == Newer(a, after) + Newer(b, after)
  {
    hide Newer;
    NoneNewer(after);
    if |b| == 0 {
      assert a + b == a;
    } else {
      var init, last := b[..|b| - 1], b[|b| - 1];
      NewerSplits(a, init, after);
      NewerMore(a + init, last, after);
      NewerMore(init, last, after);
      assert a + b == (a + init) + [last] && b == init + [last];
      var x := if last.id > after then [last] else [];
      assert (Newer(a, after) + Newer(init, after)) + x == Newer(a, after) + (Newer(init, after) + x);
    }
  }

  // ---- Polling ----

  /** Ids are handed out in increasing order. */
  ghost predicate Increasing(events: seq<LogEvent>) {
    forall i, j :: 0 <= i < j < |events| ==> events[i].id < events[j].id
  }

  /** The first id is at least 1. */
  predicate Numbered(events: seq<LogEvent>) {
    |events| > 0 ==> events[0].id > 0
  }

  /** How many events are not newer than an id. */
  function Split(events: seq<LogEvent>, after: nat): (k: nat)
    ensures k <= |events|
  {
    if |events| == 0 || events[|events| - 1].id <= after then |events| else Split(events[..|events| - 1], after)
  }

  /** The split divides the events: those before it are not newer, those from it on are. */
  lemma {:induction false} SplitDivides(events: seq<LogEvent>, after: nat)
    requires Increasing(events)
    ensures forall i :: 0 <= i < |events| ==> (events[i].id > after <==> i >= Split(events, after))
  {
    if |events| > 0 && events[|events| - 1].id > after {
      SplitDivides(events[..|events| - 1], after);
    }
  }

  lemma {:induction false} NewerIsRest(events: seq<LogEvent>, after: nat)
    requires Increasing(events)
    ensures Newer(events, after) == events[Split(events, after)..]
  {
    if |events| > 0 {
      var init, last := events[..|events| - 1], events[|events| - 1];
      var k := Split(init, after);
      NewerIsRest(init, after);
      if last.id <= after {
        SplitDivides(events, after);
        NoneIsNewer(init, after);
      } else {
        assert events[k..] == init[k..] + [last];
      }
    }
  }

  lemma {:induction false} NoneIsNewer(events: seq<LogEvent>, after: nat)
    requires forall i :: 0 <= i < |events| ==> events[i].id <= after
    ensures Newer(events, after) == []
  {
    if |events| > 0 {
      NoneIsNewer(events[..|events| - 1], after);
    }
  }

  lemma NewerIsSuffix(events: seq<LogEvent>, after: nat)
    requires Increasing(events)
    ensures Newer(events, after) == events[Split(events, after)..]
    ensures forall i :: 0 <= i < |events| ==> (events[i].id > after <==> i >= Split(events, after))
  {
    NewerIsRest(events, after);
    SplitDivides(events, after);
  }

  lemma SplitMore(events: seq<LogEvent>, ev: LogEvent, after: nat)
    ensures Split(events + [ev], after) == if ev.id <= after then |events| + 1 else Split(events, after)
  {
    assert (events + [ev])[..|events|] == events;
  }

  lemma NewestIsLast(events: seq<LogEvent>, ev: LogEvent)
    requires Increasing(events + [ev])
    ensures forall i :: 0 <= i < |events| ==> events[i].id < ev.id
    ensures forall after: nat :: ev.id <= after ==> Split(events, after) == |events|
  {
    var all := events + [ev];
    assert all[|events|] == ev;
    forall i | 0 <= i < |events|
      ensures events[i].id < ev.id
    {
      assert all[i] == events[i];
    }
  }

  /** A client: what it has polled, and the id it polls with; and all the events so far. */
  datatype Client = Client(events: seq<LogEvent>, after: nat, polled: seq<LogEvent>)

  datatype Action = PushAction(ev: LogEvent) | PollAction(limit: int)

  function Step(c: Client, cap: nat, a: Action): Client {
    match a
    case PushAction(ev) => c.(events := c.events + [ev])
    case PollAction(limit) =>
      var page := Page(Last(c.events, cap), c.after, limit);
      if |page| == 0 then c
      else c.(after := page[|page| - 1].id, polled := c.polled + page)
  }

  function Run(c: Client, cap: nat, actions: seq<Action>): Client
    decreases |actions|
  {
    if |actions| == 0 then c else Run(Step(c, cap, actions[0]), cap, actions[1..])
  }

  /** How far back a poll can reach: with a last id to all that is retained, without one only to the newest
      page. */
  function Reach(after: nat, cap: nat, limit: int): nat {
    if after == 0 && PageLimit(limit) < cap then PageLimit(limit) else cap
  }

  /** Pushed ids increase from 1 on. */
  ghost predicate Ordered(c: Client, cap: nat, actions: seq<Action>)
    decreases |actions|
  {
    && Increasing(c.events) && Numbered(c.events)
    && (|actions| > 0 ==> Ordered(Step(c, cap, actions[0]), cap, actions[1..]))
  }

  /** Whenever the client polls, what it has not seen is within reach. */
  predicate KeepsUp(c: Client, cap: nat, actions: seq<Action>)
    decreases |actions|
  {
    |actions| == 0 ||
    ((actions[0].PollAction? ==> |Newer(c.events, c.after)| <= Reach(c.after, cap, actions[0].limit)) &&
     KeepsUp(Step(c, cap, actions[0]), cap, actions[1..]))
  }

  /** Where a client stands: all newer than first up to its id, or it has missed some of them. */
  ghost predicate Standing(c: Client, first: nat, complete: bool) {
    var from, to := Split(c.events, first), Split(c.events, c.after);
    && Increasing(c.events) && Numbered(c.events) && c.after >= first
    && (c.after == first || exists i :: 0 <= i < |c.events| && c.events[i].id == c.after)
    && from <= to
    && if complete then c.polled == c.events[from..to] else |c.polled| < to - from
  }

  lemma PushKeepsStanding(c: Client, first: nat, complete: bool, ev: LogEvent)
    requires Standing(c, first, complete) && Increasing(c.events + [ev]) && Numbered(c.events + [ev])
    ensures Standing(c.(events := c.events + [ev]), first, complete)
  {
    hide Split, Newer;
    var events := c.events + [ev];
    SplitMore(c.events, ev, first);
    SplitMore(c.events, ev, c.after);
    NewestIsLast(c.events, ev);
    if ev.id <= c.after {
      assert c.after == first;
    }
    if c.after != first {
      var i :| 0 <= i < |c.events| && c.events[i].id == c.after;
      assert events[i].id == c.after;
    }
  }

  /** The events newer than an id that a client can still get begin at the later of two positions. */
  lemma NewerRetained(events: seq<LogEvent>, cap: nat, after: nat)
    requires Increasing(events)
    ensures var from := if |events| - Split(events, after) <= cap then Split(events, after) else |events| - cap;
            Newer(Last(events, cap), after) == events[from..]
  {
    hide Newer, Split, Increasing;
    var cut := |events| - |Last(events, cap)|;
    assert Last(events, cap) == events[cut..];
    NewerFrom(events, cut, after);
  }

  lemma NewerFrom(events: seq<LogEvent>, cut: nat, after: nat)
    requires Increasing(events) && cut <= |events|
    ensures var from := if cut <= Split(events, after) then Split(events, after) else cut;
            Newer(events[cut..], after) == events[from..]
  {
    hide Newer, Split;
    var retained, to := events[cut..], Split(events, after);
    var k := if to <= cut then 0 else to - cut;
    NewerIsSuffix(events, after);
    SuffixIncreases(events, cut);
    hide Increasing;
    assert k > 0 ==> retained[k - 1] == events[to - 1];
    assert k < |retained| ==> retained[k] == events[cut + k];
    SplitIs(retained, after, k);
    NewerIsRest(retained, after);
    assert retained[k..] == events[cut + k..];
  }

  lemma SuffixIncreases(events: seq<LogEvent>, cut: nat)
    requires Increasing(events) && cut <= |events|
    ensures Increasing(events[cut..])
  {
  }

  lemma SplitIs(events: seq<LogEvent>, after: nat, k: nat)
    requires Increasing(events) && k <= |events|
    requires k > 0 ==> events[k - 1].id <= after
    requires k < |events| ==> events[k].id > after
    ensures Split(events, after) == k
  {
    NewerIsSuffix(events, after);
  }

  lemma PollMovesStanding(c: Client, cap: nat, first: nat, complete: bool, limit: int)
    requires Standing(c, first, complete) && cap > 0
    ensures Standing(Step(c, cap, PollAction(limit)), first,
                     complete && |Newer(c.events, c.after)| <= Reach(c.after, cap, limit))
  {
    assert Increasing(c.events) && Numbered(c.events);
    hide Standing, Newer, Split, Page, Last, Reach, Increasing, Numbered, Step;
    var from, end := PollPage(c.events, cap, c.after, limit);
    PollTakes(c, cap, limit, from, end);
    if from < end {
      Advance(c, first, complete, from, end);
    }
  }

  lemma PollTakes(c: Client, cap: nat, limit: int, from: nat, end: nat)
    requires from <= end <= |c.events| && Page(Last(c.events, cap), c.after, limit) == c.events[from..end]
    ensures Step(c, cap, PollAction(limit)) ==
            if from == end then c
            else Client(c.events, c.events[end - 1].id, c.polled + c.events[from..end])
  {
    hide Page, Last;
  }

  /** A poll returns a stretch of the events, from the first unseen one within reach. */
  lemma PollPage(events: seq<LogEvent>, cap: nat, after: nat, limit: int) returns (from: nat, end: nat)
    requires Increasing(events) && Numbered(events) && cap > 0
    ensures Split(events, after) <= from <= end <= |events|
    ensures Page(Last(events, cap), after, limit) == events[from..end]
    ensures from == end ==> from == Split(events, after)
    ensures from == Split(events, after) <==> |Newer(events, after)| <= Reach(after, cap, limit)
  {
    hide Newer, Split, Page, Last, Increasing, Numbered;
    if after == 0 {
      from := NewestFrom(events, cap, limit);
      end := |events|;
      AllIsNewer(events);
    } else {
      from, end := NextFrom(events, cap, after, limit);
    }
  }

  /** Without a last id a poll returns the newest events, however many there are before them. */
  lemma NewestFrom(events: seq<LogEvent>, cap: nat, limit: int) returns (from: nat)
    requires cap > 0
    ensures from <= |events| && Page(Last(events, cap), 0, limit) == events[from..|events|]
    ensures from == if |events| <= Reach(0, cap, limit) then 0 else |events| - Reach(0, cap, limit)
    ensures from == 0 <==> |events| <= Reach(0, cap, limit)
    ensures from == |events| ==> |events| == 0
  {
    var n := Reach(0, cap, limit);
    hide PageLimit;
    LastOfLast(events, cap, PageLimit(limit));
    from := if |events| <= n then 0 else |events| - n;
    LastFrom(events, n);
    hide Last;
  }

  /** With one it returns the first events beyond it that are retained. */
  lemma NextFrom(events: seq<LogEvent>, cap: nat, after: nat, limit: int) returns (from: nat, end: nat)
    requires Increasing(events) && cap > 0 && after > 0
    ensures Split(events, after) <= from <= end <= |events|
    ensures Page(Last(events, cap), after, limit) == events[from..end]
    ensures from == end ==> from == Split(events, after)
    ensures from == Split(events, after) <==> |Newer(events, after)| <= cap
    ensures from == if |events| - Split(events, after) <= cap then Split(events, after) else |events| - cap
    ensures end == if |events| - from <= PageLimit(limit) then |events| else from + PageLimit(limit)
  {
    hide Newer, Split, Last, Increasing, PageLimit;
    from := if |events| - Split(events, after) <= cap then Split(events, after) else |events| - cap;
    NewerRetained(events, cap, after);
    NewerSize(events, after);
    end := FirstTo(events, from, PageLimit(limit));
    hide First;
  }

  /** A page: without a last id the newest 50, or as many as asked for up to 200, of those retained; with one, as
      many of the first retained ones beyond it. */
  lemma PageMeans(events: seq<LogEvent>, cap: nat, after: nat, limit: int) returns (from: nat, end: nat)
    requires Increasing(events) && cap > 0
    ensures from <= end <= |events| && Page(Last(events, cap), after, limit) == events[from..end]
    ensures var n := if limit <= 0 then 50 else if limit > 200 then 200 else limit;
            var oldest := if |events| <= cap then 0 else |events| - cap;
            if after == 0 then
              end == |events| && from == if |events| - n <= oldest then oldest else |events| - n
            else
              && oldest <= from && (forall i :: oldest <= i < |events| ==> (events[i].id > after <==> from <= i))
              && end == if |events| - from <= n then |events| else from + n
  {
    if after == 0 {
      from := NewestFrom(events, cap, limit);
      end := |events|;
    } else {
      SplitDivides(events, after);
      hide Newer, Split, Last, Increasing, Page;
      from, end := NextFrom(events, cap, after, limit);
    }
  }

  lemma LastOfLast<T>(s: seq<T>, m: nat, n: nat)
    ensures Last(Last(s, m), n) == Last(s, if n < m then n else m)
  {
  }

  lemma LastFrom<T>(s: seq<T>, n: nat)
    ensures Last(s, n) == s[if |s| <= n then 0 else |s| - n..|s|]
  {
  }

  lemma AllIsNewer(events: seq<LogEvent>)
    requires Increasing(events) && Numbered(events)
    ensures Split(events, 0) == 0 && |Newer(events, 0)| == |events|
  {
    SplitIs(events, 0, 0);
    NewerSize(events, 0);
  }

  lemma NewerSize(events: seq<LogEvent>, after: nat)
    requires Increasing(events)
    ensures |Newer(events, after)| == |events| - Split(events, after)
  {
    NewerIsRest(events, after);
  }

  lemma FirstTo<T>(s: seq<T>, from: nat, n: nat) returns (end: nat)
    requires from <= |s| && n > 0
    ensures from <= end <= |s| && First(s[from..], n) == s[from..end] && (from == end ==> from == |s|)
    ensures end == if |s| - from <= n then |s| else from + n
  {
    end := if |s| - from <= n then |s| else from + n;
  }

  lemma Advance(c: Client, first: nat, complete: bool, from: nat, end: nat)
    requires Standing(c, first, complete) && Split(c.events, c.after) <= from < end <= |c.events|
    ensures Standing(Client(c.events, c.events[end - 1].id, c.polled + c.events[from..end]), first,
                     complete && from == Split(c.events, c.after))
  {
    var events, begin, to := c.events, Split(c.events, first), Split(c.events, c.after);
    assert events[end - 1].id > c.after by { SplitDivides(events, c.after); }
    SplitIs(events, events[end - 1].id, end);
    hide Split, Increasing, Numbered;
    if complete && from == to {
      assert events[begin..to] + events[to..end] == events[begin..end];
    }
  }

  lemma {:induction false} RunKeepsStanding(c: Client, cap: nat, first: nat, complete: bool, actions: seq<Action>)
    requires Standing(c, first, complete) && cap > 0 && Ordered(c, cap, actions)
    ensures Standing(Run(c, cap, actions), first, complete && KeepsUp(c, cap, actions))
    decreases |actions|
  {
    if |actions| > 0 {
      var next := Step(c, cap, actions[0]);
      hide Standing, Increasing, Numbered;
      match actions[0] {
        case PushAction(ev) =>
          NextIsIncreasing(next, cap, actions[1..]);
          PushKeepsStanding(c, first, complete, ev);
          RunKeepsStanding(next, cap, first, complete, actions[1..]);
        case PollAction(limit) =>
          PollMovesStanding(c, cap, first, complete, limit);
          RunKeepsStanding(next, cap, first, complete && |Newer(c.events, c.after)| <= Reach(c.after, cap, limit),
                           actions[1..]);
      }
    }
  }

  lemma NextIsIncreasing(c: Client, cap: nat, actions: seq<Action>)
    requires Ordered(c, cap, actions)
    ensures Increasing(c.events) && Numbered(c.events)
  {
  }

  /** Over every run, a client that polls with the last id it got has received, each once and in order,
      exactly the events newer than where it began, up to that id, if and only if at every poll what it had
      not seen was within reach.  Beginning with 0 it is to receive every event there has been. */
  lemma PollingIsCompleteExactlyWhenItKeepsUp(events: seq<LogEvent>, first: nat, cap: nat, actions: seq<Action>)
    requires cap > 0 && Ordered(Client(events, first, []), cap, actions)
    ensures var c := Client(events, first, []);
            var end := Run(c, cap, actions);
            end.polled + Newer(end.events, end.after) == Newer(end.events, first) <==> KeepsUp(c, cap, actions)
  {
    var c := Client(events, first, []);
    NextIsIncreasing(c, cap, actions);
    assert Standing(c, first, true);
    hide Standing;
    RunKeepsStanding(c, cap, first, true, actions);
    StandingMeans(Run(c, cap, actions), first, KeepsUp(c, cap, actions));
  }

  lemma StandingMeans(c: Client, first: nat, complete: bool)
    requires Standing(c, first, complete)
    ensures c.polled + Newer(c.events, c.after) == Newer(c.events, first) <==> complete
  {
    NewerIsSuffix(c.events, c.after);
    NewerIsSuffix(c.events, first);
    hide Newer, Split, Increasing;
    var from, to := Split(c.events, first), Split(c.events, c.after);
    assert c.events[from..to] + c.events[to..] == c.events[from..];
  }

  lemma {:induction false} RunAppends(c: Client, cap: nat, before: seq<LogEvent>, actions: seq<Action>)
    ensures Run(c.(polled := before + c.polled), cap, actions) ==
            Run(c, cap, actions).(polled := before + Run(c, cap, actions).polled)
    ensures KeepsUp(c.(polled := before + c.polled), cap, actions) <==> KeepsUp(c, cap, actions)
    ensures Ordered(c.(polled := before + c.polled), cap, actions) <==> Ordered(c, cap, actions)
    decreases |actions|
  {
    if |actions| > 0 {
      var next := Step(c, cap, actions[0]);
      assert Step(c.(polled := before + c.polled), cap, actions[0]) == next.(polled := before + next.polled) by {
        if actions[0].PollAction? {
          var page := Page(Last(c.events, cap), c.after, actions[0].limit);
          assert (before + c.polled) + page == before + (c.polled + page);
        }
      }
      RunAppends(next, cap, before, actions[1..]);
    }
  }

  /** A client that begins with nothing and finds events gets the newest page; of all events after that page it
      misses none, if and only if from then on it keeps up. */
  lemma NewestPageThenAllThatFollows(events: seq<LogEvent>, cap: nat, limit: int, actions: seq<Action>)
    requires cap > 0 && |events| > 0 && Ordered(Client(events, 0, []), cap, [PollAction(limit)] + actions)
    ensures var c := Client(events, 0, []);
            var end := Run(c, cap, [PollAction(limit)] + actions);
            end.polled + Newer(end.events, end.after) ==
            Last(Last(events, cap), PageLimit(limit)) + Newer(end.events, events[|events| - 1].id)
            <==> KeepsUp(Step(c, cap, PollAction(limit)), cap, actions)
  {
    var c, poll := Client(events, 0, []), PollAction(limit);
    var page, newest := Last(Last(events, cap), PageLimit(limit)), events[|events| - 1].id;
    FirstPoll(events, cap, limit);
    RunsOn(c, cap, poll, actions);
    hide Step, Page, Last, PageLimit, Run, KeepsUp, Ordered, Newer;
    RunFromPage(events, newest, page, cap, actions);
    PollingIsCompleteExactlyWhenItKeepsUp(events, newest, cap, actions);
    var end := Run(Client(events, newest, []), cap, actions);
    SameFront(page, end.polled, Newer(end.events, end.after), Newer(end.events, newest));
  }

  lemma RunFromPage(events: seq<LogEvent>, after: nat, page: seq<LogEvent>, cap: nat, actions: seq<Action>)
    ensures var c, later := Client(events, after, page), Client(events, after, []);
            && Run(c, cap, actions) == Run(later, cap, actions).(polled := page + Run(later, cap, actions).polled)
            && (KeepsUp(c, cap, actions) <==> KeepsUp(later, cap, actions))
            && (Ordered(c, cap, actions) <==> Ordered(later, cap, actions))
  {
    hide Run, KeepsUp, Ordered;
    assert page + [] == page;
    RunAppends(Client(events, after, []), cap, page, actions);
  }

  lemma FirstPoll(events: seq<LogEvent>, cap: nat, limit: int)
    requires cap > 0 && |events| > 0
    ensures var page := Last(Last(events, cap), PageLimit(limit));
            Step(Client(events, 0, []), cap, PollAction(limit)) == Client(events, events[|events| - 1].id, page)
  {
    var from := NewestFrom(events, cap, limit);
    hide Last, PageLimit, Reach;
    PollTakes(Client(events, 0, []), cap, limit, from, |events|);
    hide Step;
    assert [] + events[from..|events|] == events[from..|events|];
  }

  lemma RunsOn(c: Client, cap: nat, a: Action, rest: seq<Action>)
    ensures Run(c, cap, [a] + rest) == Run(Step(c, cap, a), cap, rest)
    ensures Ordered(c, cap, [a] + rest) ==> Ordered(Step(c, cap, a), cap, rest)
  {
    assert ([a] + rest)[0] == a && ([a] + rest)[1..] == rest;
  }

  lemma SameFront<T>(front: seq<T>, a: seq<T>, b: seq<T>, c: seq<T>)
    ensures (front + a) + b == front + c <==> a + b == c
  {
    assert (front + a) + b == front + (a + b);
    assert a + b == (front + (a + b))[|front|..] && c == (front + c)[|front|..];
  }

  /** A ring of one, two events between two polls: the client gets the second and never the first. */
  lemma SlowPollMissesAnEvent()
    ensures var first, second := LogEvent(2, "first"), LogEvent(3, "second");
            var c := Client([LogEvent(1, "seen")], 1, []);
            var actions := [PushAction(first), PushAction(second), PollAction(10)];
            Run(c, 1, actions).polled == [second] && !KeepsUp(c, 1, actions)
  {
    var seen, first, second := LogEvent(1, "seen"), LogEvent(2, "first"), LogEvent(3, "second");
    var c0 := Client([seen], 1, []);
    var a, b, poll := PushAction(first), PushAction(second), PollAction(10);
    var c1 := Step(c0, 1, a);
    var c2 := Step(c1, 1, b);
    OneAtATime(c0, 1, a, [b, poll]);
    OneAtATime(c1, 1, b, [poll]);
    OneAtATime(c2, 1, poll, []);
    TwoUnseen(seen, first, second);
    hide Run, KeepsUp, Newer;
    assert [a] + [b, poll] == [a, b, poll] && [b] + [poll] == [b, poll] && [poll] + [] == [poll];
    assert Last(c2.events, 1) == [second];
  }

  /** A client that finds the ring empty, then two events by its next poll with a page of one: it gets the
      second and never the first, although the ring still has room for hundreds. */
  lemma EmptyStartMissesAnEvent()
    ensures var first, second := LogEvent(1, "first"), LogEvent(2, "second");
            var c := Client([], 0, []);
            var actions := [PollAction(1), PushAction(first), PushAction(second), PollAction(1)];
            Run(c, 1000, actions).polled == [second] && !KeepsUp(c, 1000, actions)
  {
    var first, second := LogEvent(1, "first"), LogEvent(2, "second");
    var c := Client([], 0, []);
    var a, b, poll := PushAction(first), PushAction(second), PollAction(1);
    var c1 := Step(c, 1000, a);
    var c2 := Step(c1, 1000, b);
    OneAtATime(c, 1000, poll, [a, b, poll]);
    OneAtATime(c, 1000, a, [b, poll]);
    OneAtATime(c1, 1000, b, [poll]);
    OneAtATime(c2, 1000, poll, []);
    assert Step(c, 1000, poll) == c;
    TwoFromNothing(first, second);
    hide Run, KeepsUp, Newer;
    assert [poll] + [a, b, poll] == [poll, a, b, poll] && [a] + [b, poll] == [a, b, poll];
    assert [b] + [poll] == [b, poll] && [poll] + [] == [poll];
    assert c2.events == [first] + [second];
  }

  lemma TwoFromNothing(first: LogEvent, second: LogEvent)
    requires 0 < first.id < second.id
    ensures |Newer([first] + [second], 0)| == 2
  {
    NoneNewer(0);
    NewerMore([], first, 0);
    NewerMore([first], second, 0);
    hide Newer;
    assert [] + [first] == [first];
  }

  lemma OneAtATime(c: Client, cap: nat, a: Action, rest: seq<Action>)
    ensures Run(c, cap, [a] + rest) == Run(Step(c, cap, a), cap, rest)
    ensures rest == [] ==> Run(c, cap, [a] + rest) == Step(c, cap, a)
    ensures KeepsUp(c, cap, [a] + rest) ==> KeepsUp(Step(c, cap, a), cap, rest)
    ensures a.PollAction? && KeepsUp(c, cap, [a] + rest) ==>
              |Newer(c.events, c.after)| <= Reach(c.after, cap, a.limit)
  {
    assert ([a] + rest)[1..] == rest;
  }

  lemma TwoUnseen(seen: LogEvent, first: LogEvent, second: LogEvent)
    requires seen.id <= 1 < first.id < second.id
    ensures |Newer([seen] + [first] + [second], 1)| == 2 && Newer([second], 1) == [second]
  {
    NoneNewer(1);
    NewerMore([], seen, 1);
    NewerMore([], second, 1);
    NewerMore([seen], first, 1);
    NewerMore([seen] + [first], second, 1);
    hide Newer;
    assert [] + [seen] == [seen] && [] + [second] == [second];
  }
}
