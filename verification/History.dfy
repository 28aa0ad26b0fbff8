/**
 Cloning a channel's history from old to new (cloneHistoryOldToNew, internal/engine/history.go:761-1203,
 with its page size from 97-103 and the cursor it persists, 1829-1844).

 The history is a fixed map from message id to album id (0: no album, or no media).  A page is the set
 of ids the server returned.  Sending is an oracle; a stop anywhere, by an error, a cancellation or a
 crash, ends the run.
 */
module History {
  import opened AscendingIds

  const PAGE_SIZE := 50

  type Messages = map<nat, int>

  /** Inclusive ids and a number of messages; 0 means no bound. */
  datatype Bounds = Bounds(minId: nat, maxId: nat, maxMessages: nat)

  /** What happens to one message or album: it is sent, passed over (filtered, or its media could not
      be downloaded), or the run stops on it, with or without having delivered it. */
  datatype Outcome = Sent | PassedOver | Stopped(delivered: bool)

  datatype World = World(
    messages: Messages,
    page: (nat, bool, nat) -> set<nat>,
    send: seq<nat> -> Outcome,
    cancelled: nat -> bool,
    pageFails: nat -> bool,
    stopsBeforeMessage: nat -> bool)

  // ---- What is asked for ----

  predicate InBounds(id: nat, b: Bounds) {
    (b.minId > 0 ==> id >= b.minId) && (b.maxId > 0 ==> id <= b.maxId)
  }

  /** Where a run starts from: the persisted cursor, or just below the lower bound. */
  function FirstCursor(cursor: int, b: Bounds): int {
    if b.minId > 0 && cursor < b.minId - 1 then b.minId - 1 else cursor
  }

  /** The messages in bounds beyond the persisted cursor. */
  function Wanted(messages: Messages, cursor: int, b: Bounds): set<nat> {
    set id | id in messages && id > 0 && id > cursor && InBounds(id, b)
  }

  /** What a run that is not stopped has to process: all of it, or the first maxMessages. */
  function Expected(messages: Messages, cursor: int, b: Bounds): seq<nat> {
    var all := Sorted(Wanted(messages, cursor, b));
    if b.maxMessages > 0 then Limit(all, b.maxMessages) else all
  }

  /** The entry check ends a run before its first request when only message 1 is asked for
      (lines 808-825). */
  predicate EndsOnEntry(cursor: int, b: Bounds) {
    b.maxId == 1 && FirstCursor(cursor, b) <= 0
  }

  // ---- The server ----

  predicate Beyond(id: nat, cursor: nat, allowEqual: bool) {
    id > cursor || (allowEqual && id == cursor)
  }

  predicate Eligible(id: nat, b: Bounds, cursor: nat, allowEqual: bool) {
    InBounds(id, b) && Beyond(id, cursor, allowEqual)
  }

  /** A page holds the first of the messages asked for: at least one if there is any, at most limit, and
      none is left out before the last one returned.  Messages nobody asked for may come with it. */
  ghost predicate ServesPage(messages: Messages, page: set<nat>, b: Bounds, cursor: nat, allowEqual: bool, limit: nat) {
    var asked := set id | id in page && Eligible(id, b, cursor, allowEqual);
    && page <= messages.Keys
    && |asked| <= limit
    && (asked == {} ==> forall id :: id in messages ==> !Eligible(id, b, cursor, allowEqual))
    && (forall last, id :: last in asked && id in messages && id < last && Eligible(id, b, cursor, allowEqual) ==>
          id in page)
  }

  ghost predicate Serves(world: World, b: Bounds) {
    && 0 !in world.messages
    && forall cursor, allowEqual, limit :: limit > 0 ==>
         ServesPage(world.messages, world.page(cursor, allowEqual, limit), b, cursor, allowEqual, limit)
  }

  // ---- What one run did ----

  /** The cursor before and after, whether the run came to its end, the messages it moved past in order,
      the message or album it was stopped on, and the messages that reached the target. */
  datatype Run = Run(start: int, done: bool, processed: seq<nat>, inFlight: seq<nat>, delivered: seq<nat>, end: int)

  function CursorAfter(cursor: int, processed: seq<nat>): int {
    if |processed| == 0 then cursor else processed[|processed| - 1]
  }

  function MaxAfter(maxId: int, processed: seq<nat>): (r: int)
    ensures r >= maxId && (|processed| > 0 ==> r >= processed[|processed| - 1])
    ensures r == maxId || (|processed| > 0 && r == processed[|processed| - 1])
  {
    if |processed| == 0 || maxId >= processed[|processed| - 1] then maxId else processed[|processed| - 1]
  }

  /** One message, or messages of one album. */
  ghost predicate OneUnit(messages: Messages, ids: seq<nat>) {
    |ids| <= 1 ||
    (ids[0] in messages && messages[ids[0]] != 0 &&
     forall id :: id in ids ==> id in messages && messages[id] == messages[ids[0]])
  }

  /** What a run may do. */
  ghost predicate Legal(messages: Messages, b: Bounds, run: Run) {
    && FirstOf(run.processed, Wanted(messages, run.start, b))
    && FirstOf(run.processed + run.inFlight, Wanted(messages, run.start, b))
    && OneUnit(messages, run.inFlight)
    && run.end == CursorAfter(run.start, run.processed)
    && Ascending(run.delivered)
    && (forall id :: id in run.delivered ==> id in run.processed || id in run.inFlight)
    && (run.done ==> run.inFlight == []
                     && run.processed == if EndsOnEntry(run.start, b) then [] else Expected(messages, run.start, b))
  }

  /** Beyond the persisted cursor, and between the bounds, both included; 0 means no bound. */
  ghost predicate IsAskedFor(id: nat, start: int, b: Bounds) {
    id > start && (b.minId == 0 || b.minId <= id) && (b.maxId == 0 || id <= b.maxId)
  }

  /** In ascending order a run processes messages it was asked for, passes none over, and ends on the last.  One that
      ends by itself leaves none, or has done as many as it should, or was asked for message 1 alone. */
  ghost predicate DoesWhatIsAsked(messages: Messages, b: Bounds, run: Run) {
    && (forall i, j :: 0 <= i < j < |run.processed| ==> run.processed[i] < run.processed[j])
    && (forall id :: id in run.processed ==> id in messages && IsAskedFor(id, run.start, b))
    && (forall id, x :: id in messages && IsAskedFor(id, run.start, b) && x in run.processed && id < x ==>
          id in run.processed)
    && run.end == (if |run.processed| == 0 then run.start else run.processed[|run.processed| - 1])
    && (run.done && b.maxMessages > 0 ==> |run.processed| <= b.maxMessages)
    && (run.done ==>
          || 0 < b.maxMessages == |run.processed|
          || (b.maxId == 1 && run.start <= 0 && b.minId <= 1)
          || forall id :: id in messages && IsAskedFor(id, run.start, b) ==> id in run.processed)
  }

  lemma LegalMeans(messages: Messages, b: Bounds, run: Run)
    requires 0 !in messages && Legal(messages, b, run)
    ensures DoesWhatIsAsked(messages, b, run)
  {
    var wanted := Wanted(messages, run.start, b);
    assert forall id :: id in messages ==> (IsAskedFor(id, run.start, b) <==> id in wanted);
    hide Wanted, IsAskedFor, Sorted;
    forall id, x | id in wanted && x in run.processed && id < x
      ensures id in run.processed
    {
      AtMostLast(run.processed, x);
    }
  }

  // ---- One page ----

  /** The eligible messages among the first i of a page are dealt with. */
  ghost predicate Through(msgs: seq<nat>, i: nat, b: Bounds, cursor: nat, allowEqual: bool, processed: seq<nat>)
  {
    && i <= |msgs| && Ascending(processed)
    && forall id :: id in processed <==> id in msgs[..i] && Eligible(id, b, cursor, allowEqual)
  }

  function CursorWithin(cursor: nat, processed: seq<nat>): nat {
    if |processed| == 0 then cursor else processed[|processed| - 1]
  }

  /** Moving the cursor along with the page drops none of its later messages. */
  lemma StillEligible(msgs: seq<nat>, i: nat, b: Bounds, cursor: nat, allowEqual: bool, processed: seq<nat>)
    requires Ascending(msgs) && i <= |msgs| && Through(msgs, i, b, cursor, allowEqual, processed)
    ensures forall k :: i <= k < |msgs| ==>
              (Eligible(msgs[k], b, CursorWithin(cursor, processed), allowEqual) <==>
               Eligible(msgs[k], b, cursor, allowEqual))
  {
    if |processed| > 0 {
      var last := processed[|processed| - 1];
      assert last in processed;
      var n :| 0 <= n < i && msgs[n] == last;
    }
  }

  lemma ThroughMore(msgs: seq<nat>, i: nat, j: nat, b: Bounds, cursor: nat, allowEqual: bool, processed: seq<nat>,
                    group: seq<nat>)
    requires Ascending(msgs) && i <= j <= |msgs| && Through(msgs, i, b, cursor, allowEqual, processed)
    requires Ascending(group)
    requires forall id :: id in group <==> id in msgs[i..j] && Eligible(id, b, cursor, allowEqual)
    ensures Through(msgs, j, b, cursor, allowEqual, processed + group)
  {
    assert msgs[..j] == msgs[..i] + msgs[i..j];
    if |processed| > 0 && |group| > 0 {
      var last := processed[|processed| - 1];
      assert last in processed && group[0] in group;
      var n :| 0 <= n < i && msgs[n] == last;
      var k :| i <= k < j && msgs[k] == group[0];
    }
    AscendingConcat(processed, group);
  }

  lemma PassIneligible(msgs: seq<nat>, i: nat, b: Bounds, cursor: nat, allowEqual: bool, processed: seq<nat>)
    requires i < |msgs| && Through(msgs, i, b, cursor, allowEqual, processed)
    requires !Eligible(msgs[i], b, cursor, allowEqual)
    ensures Through(msgs, i + 1, b, cursor, allowEqual, processed)
  {
    assert msgs[..i + 1] == msgs[..i] + [msgs[i]];
  }

  /** The delivered messages so far: in order, and among those dealt with. */
  ghost predicate DeliveredWithin(delivered: seq<nat>, processed: seq<nat>) {
    Ascending(delivered) && forall id :: id in delivered ==> id in processed
  }

  lemma DeliveredMore(delivered: seq<nat>, processed: seq<nat>, group: seq<nat>)
    requires DeliveredWithin(delivered, processed) && Ascending(processed + group)
    ensures DeliveredWithin(delivered, processed + group)
    ensures DeliveredWithin(delivered + group, processed + group)
  {
    var n := |processed|;
    forall i, j | 0 <= i < j < |group|
      ensures group[i] < group[j]
    {
      assert (processed + group)[n + i] < (processed + group)[n + j];
    }
    if |delivered| > 0 && |group| > 0 {
      assert delivered[|delivered| - 1] in delivered;
      var k :| 0 <= k < n && processed[k] == delivered[|delivered| - 1];
      assert (processed + group)[k] < (processed + group)[n];
    }
    AscendingConcat(delivered, group);
  }

  /** A message a run moved past went with a message or album that did not stop the run, and reached the
      target exactly if that one was sent. */
  ghost predicate Handled(world: World, processed: seq<nat>, delivered: seq<nat>, id: nat) {
    exists unit: seq<nat> ::
      id in unit && (forall x :: x in unit ==> x in processed) && OneUnit(world.messages, unit)
      && !world.send(unit).Stopped? && (id in delivered <==> world.send(unit).Sent?)
  }

  ghost predicate AllHandled(world: World, processed: seq<nat>, delivered: seq<nat>) {
    forall id :: id in processed ==> Handled(world, processed, delivered, id)
  }

  lemma HandledMore(world: World, processed: seq<nat>, delivered: seq<nat>, unit: seq<nat>, more: seq<nat>)
    requires AllHandled(world, processed, delivered) && DeliveredWithin(delivered, processed)
    requires Ascending(processed + unit) && OneUnit(world.messages, unit) && !world.send(unit).Stopped?
    requires more == if world.send(unit).Sent? then delivered + unit else delivered
    ensures AllHandled(world, processed + unit, more)
  {
    forall id | id in processed + unit
      ensures Handled(world, processed + unit, more, id)
    {
      if id in processed {
        NotInBoth(processed, unit, id);
        var earlier :|
          && id in earlier && (forall x :: x in earlier ==> x in processed) && OneUnit(world.messages, earlier)
          && !world.send(earlier).Stopped? && (id in delivered <==> world.send(earlier).Sent?);
        assert id in more <==> world.send(earlier).Sent?;
      } else {
        assert id in unit;
      }
    }
  }

  lemma HandledKept(world: World, processed: seq<nat>, delivered: seq<nat>, unit: seq<nat>)
    requires AllHandled(world, processed, delivered) && Ascending(processed + unit)
    ensures AllHandled(world, processed, delivered + unit)
  {
    forall id | id in processed
      ensures Handled(world, processed, delivered + unit, id)
    {
      NotInBoth(processed, unit, id);
      assert Handled(world, processed, delivered, id);
      assert id in delivered + unit <==> id in delivered;
    }
  }

  /** The message or album in flight reached the target exactly if the stop says so. */
  ghost predicate InFlightAsSaid(world: World, inFlight: seq<nat>, delivered: seq<nat>) {
    inFlight != [] ==>
      && world.send(inFlight).Stopped?
      && forall id :: id in inFlight ==> (id in delivered <==> world.send(inFlight).delivered)
  }

  lemma StopsAsSaid(world: World, processed: seq<nat>, delivered: seq<nat>, unit: seq<nat>)
    requires DeliveredWithin(delivered, processed) && Ascending(processed + unit) && world.send(unit).Stopped?
    ensures InFlightAsSaid(world, unit, if world.send(unit).delivered then delivered + unit else delivered)
  {
    forall id | id in delivered
      ensures id !in unit
    {
      NotInBoth(processed, unit, id);
    }
  }

  lemma NotInBoth(a: seq<nat>, b: seq<nat>, id: nat)
    requires Ascending(a + b) && id in a
    ensures id !in b
  {
    var n :| 0 <= n < |a| && a[n] == id;
    assert (a + b)[n] == id;
    assert forall k :: 0 <= k < |b| ==> (a + b)[|a| + k] == b[k];
  }

  // ---- One run ----

  /** The least id the next request asks for. */
  function NextId(cursor: nat, allowEqual: bool): nat {
    if allowEqual then cursor else cursor + 1
  }

  /** Everything wanted below the next request is dealt with. */
  ghost predicate CaughtUp(messages: Messages, b: Bounds, start: int, cursor: nat, allowEqual: bool,
                           processed: seq<nat>)
  {
    && FirstOf(processed, Wanted(messages, start, b))
    && NextId(cursor, allowEqual) > 0 && NextId(cursor, allowEqual) > start
    && (forall id :: id in processed ==> id < NextId(cursor, allowEqual))
    && (forall id :: id in Wanted(messages, start, b) && id < NextId(cursor, allowEqual) ==> id in processed)
  }

  lemma BeginsCaughtUp(messages: Messages, b: Bounds, start: int)
    ensures FirstCursor(start, b) > 0 ==> CaughtUp(messages, b, start, FirstCursor(start, b), false, [])
    ensures FirstCursor(start, b) <= 0 ==> CaughtUp(messages, b, start, 1, true, [])
  {
  }

  /** What is eligible on a page is what is still wanted. */
  lemma EligibleIsWanted(messages: Messages, b: Bounds, start: int, cursor: nat, allowEqual: bool, processed: seq<nat>)
    requires CaughtUp(messages, b, start, cursor, allowEqual, processed)
    ensures forall id :: id in messages ==>
              (Eligible(id, b, cursor, allowEqual) <==>
               id in Wanted(messages, start, b) && id >= NextId(cursor, allowEqual))
  {
  }

  lemma ProcessPart(messages: Messages, b: Bounds, start: int, cursor: nat, allowEqual: bool, processed: seq<nat>,
                    page: set<nat>, limit: nat, i: nat, more: seq<nat>)
    requires CaughtUp(messages, b, start, cursor, allowEqual, processed)
    requires ServesPage(messages, page, b, cursor, allowEqual, limit)
    requires i <= |Sorted(page)| && Through(Sorted(page), i, b, cursor, allowEqual, more)
    ensures FirstOf(processed + more, Wanted(messages, start, b)) && |more| <= limit
  {
    var msgs := Sorted(page);
    hide Sorted;
    var asked := set id | id in page && Eligible(id, b, cursor, allowEqual);
    assert forall id :: id in more ==> id in msgs;
    AscendingSize(more, asked);
    EligibleIsWanted(messages, b, start, cursor, allowEqual, processed);
    PageAhead(messages, b, start, cursor, allowEqual, processed, more);
    if |more| > 0 {
      var last := more[|more| - 1];
      assert last in more;
      hide Eligible, CaughtUp;
      var p :| 0 <= p < i && msgs[p] == last;
      forall id | id in messages && id <= last && Eligible(id, b, cursor, allowEqual)
        ensures id in more
      {
        assert last in asked;
        assert id in page;
        var k :| 0 <= k < |msgs| && msgs[k] == id;
        assert k <= p && msgs[..i][k] == id;
      }
    }
    JoinFirst(messages, b, start, cursor, allowEqual, processed, more);
  }

  lemma PageAhead(messages: Messages, b: Bounds, start: int, cursor: nat, allowEqual: bool, processed: seq<nat>,
                  more: seq<nat>)
    requires CaughtUp(messages, b, start, cursor, allowEqual, processed) && Ascending(more)
    requires forall id :: id in more ==> Eligible(id, b, cursor, allowEqual)
    ensures Ascending(processed + more)
  {
    if |processed| > 0 && |more| > 0 {
      assert processed[|processed| - 1] in processed && more[0] in more;
    }
    AscendingConcat(processed, more);
  }

  lemma JoinFirst(messages: Messages, b: Bounds, start: int, cursor: nat, allowEqual: bool, processed: seq<nat>,
                  more: seq<nat>)
    requires CaughtUp(messages, b, start, cursor, allowEqual, processed) && Ascending(processed + more)
    requires forall id :: id in more ==> id in messages && Eligible(id, b, cursor, allowEqual)
    requires |more| > 0 ==>
               forall id :: id in messages && id <= more[|more| - 1] && Eligible(id, b, cursor, allowEqual) ==>
                              id in more
    ensures FirstOf(processed + more, Wanted(messages, start, b))
  {
    EligibleIsWanted(messages, b, start, cursor, allowEqual, processed);
    hide Eligible;
    if |more| == 0 {
      assert processed + more == processed;
    }
  }

  /** A page that was worked through to its end moves the cursor, or there was nothing left to ask for. */
  lemma PageDone(messages: Messages, b: Bounds, start: int, cursor: nat, allowEqual: bool, processed: seq<nat>,
                 page: set<nat>, limit: nat, more: seq<nat>)
    requires CaughtUp(messages, b, start, cursor, allowEqual, processed)
    requires ServesPage(messages, page, b, cursor, allowEqual, limit)
    requires Through(Sorted(page), |Sorted(page)|, b, cursor, allowEqual, more)
    ensures if |more| > 0 then
              && more[|more| - 1] > 0
              && CaughtUp(messages, b, start, more[|more| - 1], false, processed + more)
              && Left(messages, more[|more| - 1] + 1) < Left(messages, NextId(cursor, allowEqual))
            else forall id :: id in Wanted(messages, start, b) ==> id in processed
  {
    var msgs := Sorted(page);
    assert msgs[..|msgs|] == msgs;
    ProcessPart(messages, b, start, cursor, allowEqual, processed, page, limit, |msgs|, more);
    hide Through, Wanted, Sorted, Left, FirstOf, ServesPage, CaughtUp, Eligible;
    ThroughAll(page, b, cursor, allowEqual, more);
    if |more| > 0 {
      var last := more[|more| - 1];
      assert last in more;
      MovesOn(messages, b, start, cursor, allowEqual, processed, more);
      LeftShrinks(messages, NextId(cursor, allowEqual), last);
    } else {
      NothingWanted(messages, b, start, cursor, allowEqual, processed, page, limit);
    }
  }

  lemma ThroughAll(page: set<nat>, b: Bounds, cursor: nat, allowEqual: bool, more: seq<nat>)
    requires Through(Sorted(page), |Sorted(page)|, b, cursor, allowEqual, more)
    ensures forall id :: id in more <==> id in page && Eligible(id, b, cursor, allowEqual)
  {
    assert Sorted(page)[..|Sorted(page)|] == Sorted(page);
  }

  lemma NothingWanted(messages: Messages, b: Bounds, start: int, cursor: nat, allowEqual: bool, processed: seq<nat>,
                      page: set<nat>, limit: nat)
    requires CaughtUp(messages, b, start, cursor, allowEqual, processed)
    requires ServesPage(messages, page, b, cursor, allowEqual, limit)
    requires forall id :: id in page ==> !Eligible(id, b, cursor, allowEqual)
    ensures forall id :: id in Wanted(messages, start, b) ==> id in processed
  {
    EligibleIsWanted(messages, b, start, cursor, allowEqual, processed);
    hide Eligible;
    assert (set id | id in page && Eligible(id, b, cursor, allowEqual)) == {};
  }

  lemma MovesOn(messages: Messages, b: Bounds, start: int, cursor: nat, allowEqual: bool, processed: seq<nat>,
                more: seq<nat>)
    requires CaughtUp(messages, b, start, cursor, allowEqual, processed) && |more| > 0
    requires Eligible(more[|more| - 1], b, cursor, allowEqual)
    requires FirstOf(processed + more, Wanted(messages, start, b))
    ensures more[|more| - 1] in messages && more[|more| - 1] > 0 && more[|more| - 1] >= NextId(cursor, allowEqual)
    ensures CaughtUp(messages, b, start, more[|more| - 1], false, processed + more)
  {
    var all, last := processed + more, more[|more| - 1];
    assert all[|all| - 1] == last && last in all;
    assert forall id :: id in all ==> id <= last;
  }

  lemma LeftShrinks(messages: Messages, from: nat, last: nat)
    requires last in messages && from <= last
    ensures Left(messages, last + 1) < Left(messages, from)
  {
    var after, before := set id | id in messages && id >= last + 1, set id | id in messages && id >= from;
    assert last in before && last !in after;
    ProperSubset(after, before);
  }

  /** How many messages there are from an id on. */
  function Left(messages: Messages, from: nat): nat {
    |set id | id in messages && id >= from|
  }

  /** Two consecutive stretches of a run. */
  lemma Join(world: World, processed: seq<nat>, delivered: seq<nat>, more: seq<nat>, reached: seq<nat>, tail: seq<nat>)
    requires DeliveredWithin(delivered, processed) && AllHandled(world, processed, delivered)
    requires DeliveredWithin(reached, more + tail) && AllHandled(world, more, reached)
    requires Ascending(processed + (more + tail))
    ensures DeliveredWithin(delivered + reached, processed + (more + tail))
    ensures AllHandled(world, processed + more, delivered + reached)
    ensures InFlightAsSaid(world, tail, reached) ==> InFlightAsSaid(world, tail, delivered + reached)
  {
    var both := more + tail;
    forall id | id in delivered
      ensures id !in tail
    {
      NotInBoth(processed, both, id);
    }
    DeliveredJoin(delivered, processed, reached, both);
    forall id | id in processed + more
      ensures Handled(world, processed + more, delivered + reached, id)
    {
      if id in processed {
        NotInBoth(processed, both, id);
        assert id !in reached;
        HandledWithin(world, processed, delivered, processed + more, delivered + reached, id);
      } else {
        assert id in both;
        assert id !in delivered;
        HandledWithin(world, more, reached, processed + more, delivered + reached, id);
      }
    }
  }

  lemma HandledWithin(world: World, processed: seq<nat>, delivered: seq<nat>, all: seq<nat>, reached: seq<nat>, id: nat)
    requires Handled(world, processed, delivered, id)
    requires forall x :: x in processed ==> x in all
    requires id in delivered <==> id in reached
    ensures Handled(world, all, reached, id)
  {
  }

  lemma DeliveredJoin(delivered: seq<nat>, processed: seq<nat>, reached: seq<nat>, more: seq<nat>)
    requires DeliveredWithin(delivered, processed) && DeliveredWithin(reached, more) && Ascending(processed + more)
    ensures DeliveredWithin(delivered + reached, processed + more)
  {
    if |delivered| > 0 && |reached| > 0 {
      assert delivered[|delivered| - 1] in delivered && reached[0] in reached;
      var i :| 0 <= i < |processed| && processed[i] == delivered[|delivered| - 1];
      var j :| 0 <= j < |more| && more[j] == reached[0];
      assert (processed + more)[i] < (processed + more)[|processed| + j];
    }
    AscendingConcat(delivered, reached);
  }

  function Halted(start: int, processed: seq<nat>, inFlight: seq<nat>, delivered: seq<nat>): Run {
    Run(start, false, processed, inFlight, delivered, CursorAfter(start, processed))
  }

  lemma HaltedIsLegal(messages: Messages, b: Bounds, start: int, processed: seq<nat>, inFlight: seq<nat>,
                      delivered: seq<nat>)
    requires FirstOf(processed, Wanted(messages, start, b))
    requires FirstOf(processed + inFlight, Wanted(messages, start, b)) && OneUnit(messages, inFlight)
    requires DeliveredWithin(delivered, processed + inFlight)
    ensures Legal(messages, b, Halted(start, processed, inFlight, delivered))
    ensures 0 !in messages ==> DoesWhatIsAsked(messages, b, Halted(start, processed, inFlight, delivered))
  {
    hide FirstOf, Wanted, OneUnit, DoesWhatIsAsked;
    if 0 !in messages {
      LegalMeans(messages, b, Halted(start, processed, inFlight, delivered));
    }
  }

  function Finished(start: int, processed: seq<nat>, delivered: seq<nat>): Run {
    Run(start, true, processed, [], delivered, CursorAfter(start, processed))
  }

  lemma FinishedIsLegal(messages: Messages, b: Bounds, start: int, processed: seq<nat>, delivered: seq<nat>)
    requires FirstOf(processed, Wanted(messages, start, b)) && DeliveredWithin(delivered, processed)
    requires processed == if EndsOnEntry(start, b) then [] else Expected(messages, start, b)
    ensures Legal(messages, b, Finished(start, processed, delivered))
    ensures 0 !in messages ==> DoesWhatIsAsked(messages, b, Finished(start, processed, delivered))
  {
    hide FirstOf, Wanted, Expected, EndsOnEntry, DoesWhatIsAsked;
    assert processed + [] == processed;
    if 0 !in messages {
      LegalMeans(messages, b, Finished(start, processed, delivered));
    }
  }

  lemma CaughtUpIsFirst(messages: Messages, b: Bounds, start: int, cursor: nat, allowEqual: bool, processed: seq<nat>)
    requires CaughtUp(messages, b, start, cursor, allowEqual, processed)
    ensures FirstOf(processed, Wanted(messages, start, b)) && processed + [] == processed && OneUnit(messages, [])
    ensures b.maxId > 0 && cursor >= b.maxId && !allowEqual ==>
              forall id :: id in Wanted(messages, start, b) ==> id in processed
    ensures allowEqual && cursor == 1 ==> processed == []
  {
    assert |processed| > 0 ==> processed[0] in processed;
  }

  lemma FirstIsWithin(ids: seq<nat>, s: set<nat>)
    requires FirstOf(ids, s)
    ensures Ascending(ids) && forall id :: id in ids ==> id in s
  {
  }

  /** A run that ended by itself has done what was expected. */
  lemma ReachesExpected(messages: Messages, b: Bounds, start: int, processed: seq<nat>)
    requires FirstOf(processed, Wanted(messages, start, b))
    requires b.maxMessages > 0 ==> |processed| <= b.maxMessages
    requires (b.maxMessages > 0 && |processed| >= b.maxMessages) ||
             forall id :: id in Wanted(messages, start, b) ==> id in processed
    ensures processed == Expected(messages, start, b)
  {
    hide Sorted, Wanted, FirstOf;
    var all := Sorted(Wanted(messages, start, b));
    FirstIsWithin(processed, Wanted(messages, start, b));
    FirstOfIsPrefix(processed, Wanted(messages, start, b));
    if forall id :: id in Wanted(messages, start, b) ==> id in processed {
      AscendingUnique(processed, all);
    }
  }

  // ---- What stops a run ----

  /** Where the next request starts from. */
  function RequestCursor(b: Bounds, start: int, processed: seq<nat>): nat {
    if |processed| > 0 then processed[|processed| - 1]
    else if FirstCursor(start, b) <= 0 then 1 else FirstCursor(start, b)
  }

  /** How much it asks for. */
  function RequestLimit(b: Bounds, done: nat): (limit: int)
    ensures limit == if b.maxMessages > 0 && b.maxMessages - done < 50 then b.maxMessages - done else 50
  {
    var pageSize := if 0 < b.maxMessages < PAGE_SIZE then b.maxMessages else PAGE_SIZE;
    if 0 < b.maxMessages < done + pageSize then b.maxMessages - done else pageSize
  }

  /** The first request of a run from the very beginning takes message 1 along. */
  predicate FromTheBeginning(b: Bounds, start: int, processed: seq<nat>) {
    |processed| == 0 && FirstCursor(start, b) <= 0
  }

  /** What the server returns for that request. */
  function PageAt(world: World, b: Bounds, start: int, processed: seq<nat>): set<nat> {
    var limit := RequestLimit(b, |processed|);
    if limit <= 0 then {}
    else world.page(RequestCursor(b, start, processed), FromTheBeginning(b, start, processed), limit)
  }

  /** A message of a page, and the eligible ones before it. */
  ghost predicate UpTo(page: set<nat>, b: Bounds, cursor: nat, allowEqual: bool, more: seq<nat>, id: nat) {
    id in page && forall x :: x in more <==> x in page && x < id && Eligible(x, b, cursor, allowEqual)
  }

  /** With k messages processed, a page was served on which the run was stopped before this message, every
      eligible one before it having been processed. */
  ghost predicate StopsOnPage(world: World, b: Bounds, run: Run, k: nat, id: nat) {
    k <= |run.processed| &&
    var before, more := run.processed[..k], run.processed[k..];
    var cursor, allowEqual := RequestCursor(b, run.start, before), FromTheBeginning(b, run.start, before);
    world.stopsBeforeMessage(id) && UpTo(PageAt(world, b, run.start, before), b, cursor, allowEqual, more, id)
  }

  ghost predicate StopsBetween(world: World, b: Bounds, run: Run) {
    exists k, id :: StopsOnPage(world, b, run, k, id)
  }

  /** What stopped a run stands right where it ended: the message or album in flight, the next request, or the
      next message of the page. */
  ghost predicate HaltedBy(world: World, b: Bounds, run: Run) {
    if run.inFlight != [] then InFlightAsSaid(world, run.inFlight, run.delivered)
    else
      var next := RequestCursor(b, run.start, run.processed);
      world.cancelled(next) || world.pageFails(next) || StopsBetween(world, b, run)
  }

  /** The message or album a page was stopped on, or the message it was stopped before. */
  ghost predicate StoppedOn(world: World, msgs: seq<nat>, i: nat, inFlight: seq<nat>) {
    if inFlight != [] then world.send(inFlight).Stopped?
    else i < |msgs| && world.stopsBeforeMessage(msgs[i])
  }

  lemma HaltedOnRequest(world: World, b: Bounds, start: int, processed: seq<nat>, delivered: seq<nat>)
    requires world.cancelled(RequestCursor(b, start, processed)) || world.pageFails(RequestCursor(b, start, processed))
    ensures HaltedBy(world, b, Halted(start, processed, [], delivered))
  {
  }

  lemma HaltedOnPage(world: World, b: Bounds, start: int, processed: seq<nat>, page: set<nat>, i: nat, more: seq<nat>,
                     inFlight: seq<nat>, delivered: seq<nat>)
    requires page == PageAt(world, b, start, processed)
    requires i <= |Sorted(page)| && StoppedOn(world, Sorted(page), i, inFlight)
    requires InFlightAsSaid(world, inFlight, delivered)
    requires var cursor, allowEqual := RequestCursor(b, start, processed), FromTheBeginning(b, start, processed);
             Through(Sorted(page), i, b, cursor, allowEqual, more)
    ensures HaltedBy(world, b, Halted(start, processed + more, inFlight, delivered))
  {
    if inFlight == [] {
      var cursor, allowEqual := RequestCursor(b, start, processed), FromTheBeginning(b, start, processed);
      ThroughUpTo(page, i, b, cursor, allowEqual, more);
      hide RequestCursor, FromTheBeginning, PageAt, Through, UpTo, Sorted;
      var run, k, id := Halted(start, processed + more, inFlight, delivered), |processed|, Sorted(page)[i];
      assert run.processed[..k] == processed && run.processed[k..] == more;
      assert StopsOnPage(world, b, run, k, id);
    }
  }

  lemma ThroughUpTo(page: set<nat>, i: nat, b: Bounds, cursor: nat, allowEqual: bool, more: seq<nat>)
    requires i < |Sorted(page)| && Through(Sorted(page), i, b, cursor, allowEqual, more)
    ensures UpTo(page, b, cursor, allowEqual, more, Sorted(page)[i])
  {
    var msgs := Sorted(page);
    hide Eligible, Sorted;
    assert msgs[i] in msgs;
    forall x: nat
      ensures x in msgs[..i] <==> x in page && x < msgs[i]
    {
      BeforeAt(msgs, i, x);
    }
  }

  lemma BeforeAt(ids: seq<nat>, i: nat, x: nat)
    requires Ascending(ids) && i < |ids|
    ensures x in ids[..i] <==> x in ids && x < ids[i]
  {
    if x in ids && x < ids[i] {
      var k :| 0 <= k < |ids| && ids[k] == x;
      assert ids[..i][k] == x;
    }
  }

  class HistoryTask {
    var historyCursor: int
    var historyMaxId: int

    constructor (historyCursor: int, historyMaxId: int)
      ensures this.historyCursor == historyCursor && this.historyMaxId == historyMaxId
    {
      this.historyCursor, this.historyMaxId := historyCursor, historyMaxId;
    }

    /** One UPDATE of the task row: the cursor as given, the maximum never lowered. */
    method PersistCursorAndMax(cursor: int)
      modifies this
      ensures historyCursor == cursor
      ensures historyMaxId == if old(historyMaxId) >= cursor then old(historyMaxId) else cursor
    {
      historyCursor := cursor;
      historyMaxId := if historyMaxId >= cursor then historyMaxId else cursor;
    }

    /** The messages of the album that starts at i, up to the next message of another one
        (lines 905-933). */
    method GatherAlbum(msgs: seq<nat>, messages: Messages, i: nat, b: Bounds, cursor: nat, allowEqual: bool)
      returns (j: nat, group: seq<nat>)
      requires Ascending(msgs) && i < |msgs| && forall id :: id in msgs ==> id in messages
      requires messages[msgs[i]] != 0 && Eligible(msgs[i], b, cursor, allowEqual)
      ensures i < j <= |msgs| && |group| > 0 && Ascending(group)
      ensures forall id :: id in group <==> id in msgs[i..j] && Eligible(id, b, cursor, allowEqual)
      ensures forall k :: i <= k < j ==> messages[msgs[k]] == messages[msgs[i]]
      ensures j < |msgs| ==> messages[msgs[j]] != messages[msgs[i]]
    {
      j, group := i, [];
      while j < |msgs| && messages[msgs[j]] == messages[msgs[i]]
        invariant i <= j <= |msgs| && Ascending(group)
        invariant forall id :: id in group <==> id in msgs[i..j] && Eligible(id, b, cursor, allowEqual)
        invariant forall k :: i <= k < j ==> messages[msgs[k]] == messages[msgs[i]]
        invariant j > i ==> msgs[i] in group
      {
        assert msgs[i..j + 1] == msgs[i..j] + [msgs[j]];
        assert forall k :: 0 <= k < |group| ==> group[k] in msgs[i..j];
        if Eligible(msgs[j], b, cursor, allowEqual) {
          group := group + [msgs[j]];
        }
        j := j + 1;
      }
    }

    /** Works through one page; a run that is stopped leaves the message or album it was on in flight
        (lines 876-1196). */
    method SendPage(world: World, msgs: seq<nat>, b: Bounds, start: nat, allowEqual: bool)
      returns (stopped: bool, processed: seq<nat>, inFlight: seq<nat>, delivered: seq<nat>, i: nat, j: nat)
      requires Ascending(msgs) && forall id :: id in msgs ==> id in world.messages
      modifies this
      ensures i <= j <= |msgs| && (!stopped ==> i == |msgs| && inFlight == [])
      ensures Through(msgs, i, b, start, allowEqual, processed)
      ensures Through(msgs, j, b, start, allowEqual, processed + inFlight) && OneUnit(world.messages, inFlight)
      ensures DeliveredWithin(delivered, processed + inFlight) && AllHandled(world, processed, delivered)
      ensures historyCursor == CursorAfter(old(historyCursor), processed)
      ensures historyMaxId == MaxAfter(old(historyMaxId), processed)
      ensures stopped ==> StoppedOn(world, msgs, i, inFlight)
      ensures InFlightAsSaid(world, inFlight, delivered)
    {
      hide Through, Eligible, DeliveredWithin, AllHandled;
      stopped, processed, inFlight, delivered := false, [], [], [];
      i, j := 0, 0;
      var cursor := start;
      PageBegins(world, msgs, b, start, allowEqual);
      while i < |msgs|
        invariant i <= |msgs| && cursor == CursorWithin(start, processed)
        invariant Through(msgs, i, b, start, allowEqual, processed)
        invariant DeliveredWithin(delivered, processed) && AllHandled(world, processed, delivered)
        invariant historyCursor == CursorAfter(old(historyCursor), processed)
        invariant historyMaxId == MaxAfter(old(historyMaxId), processed)
        decreases |msgs| - i
      {
        assert processed + [] == processed;
        j := i;
        if world.stopsBeforeMessage(msgs[i]) {
          stopped := true;
          return;
        }
        StillEligible(msgs, i, b, start, allowEqual, processed);
        if !Eligible(msgs[i], b, cursor, allowEqual) {
          PassIneligible(msgs, i, b, start, allowEqual, processed);
          i := i + 1;
          continue;
        }
        var unit := [msgs[i]];
        j := i + 1;
        if world.messages[msgs[i]] != 0 {
          j, unit := GatherAlbum(msgs, world.messages, i, b, cursor, allowEqual);
        }
        UnitIsNext(world, msgs, i, j, b, start, allowEqual, processed, cursor, unit);
        DeliveredMore(delivered, processed, unit);
        match world.send(unit) {
          case Stopped(reached) =>
            stopped, inFlight := true, unit;
            StopsAsSaid(world, processed, delivered, unit);
            if reached {
              HandledKept(world, processed, delivered, unit);
              delivered := delivered + unit;
            }
            return;
          case Sent =>
            HandledMore(world, processed, delivered, unit, delivered + unit);
            delivered := delivered + unit;
          case PassedOver =>
            HandledMore(world, processed, delivered, unit, delivered);
        }
        cursor := unit[|unit| - 1];
        PersistCursorAndMax(cursor);
        processed := processed + unit;
        i := j;
      }
      j := i;
      assert processed + [] == processed;
    }

    /** One run of the clone loop from the persisted cursor (lines 804-903, 1198-1202). */
    method CloneOldToNew(world: World, b: Bounds) returns (run: Run)
      requires Serves(world, b)
      modifies this
      ensures run.start == old(historyCursor) && run.end == historyCursor
      ensures Legal(world.messages, b, run)
      ensures AllHandled(world, run.processed, run.delivered)
      ensures historyMaxId == MaxAfter(old(historyMaxId), run.processed)
      ensures !run.done ==> HaltedBy(world, b, run)
      ensures DoesWhatIsAsked(world.messages, b, run)
    {
      hide HaltedBy, StoppedOn, CaughtUp, Through, DeliveredWithin, AllHandled, ServesPage, Wanted, Sorted, FirstOf,
           OneUnit, Legal, Expected, CursorAfter, MaxAfter, DoesWhatIsAsked, InFlightAsSaid;
      var pageSize := if 0 < b.maxMessages < PAGE_SIZE then b.maxMessages else PAGE_SIZE;
      var start := historyCursor;
      var cursor, includeCursorOnce := start, false;
      if b.minId > 0 && cursor < b.minId - 1 {
        cursor := b.minId - 1;
      }
      BeginsCaughtUp(world.messages, b, start);
      if cursor <= 0 {
        cursor, includeCursorOnce := 1, true;
      }
      var processed, delivered: seq<nat> := [], [];
      NothingHandled(world, start, historyMaxId);
      while true
        invariant cursor == RequestCursor(b, start, processed)
        invariant includeCursorOnce == FromTheBeginning(b, start, processed)
        invariant cursor > 0 && CaughtUp(world.messages, b, start, cursor, includeCursorOnce, processed)
        invariant if includeCursorOnce then cursor == 1 && FirstCursor(start, b) <= 0 else !EndsOnEntry(start, b)
        invariant b.maxMessages > 0 ==> |processed| <= b.maxMessages
        invariant DeliveredWithin(delivered, processed) && AllHandled(world, processed, delivered)
        invariant historyCursor == CursorAfter(start, processed)
        invariant historyMaxId == MaxAfter(old(historyMaxId), processed)
        decreases Left(world.messages, NextId(cursor, includeCursorOnce))
      {
        CaughtUpIsFirst(world.messages, b, start, cursor, includeCursorOnce, processed);
        if world.cancelled(cursor) {
          HaltedOnRequest(world, b, start, processed, delivered);
          HaltedIsLegal(world.messages, b, start, processed, [], delivered);
          return Halted(start, processed, [], delivered);
        }
        if b.maxMessages > 0 && |processed| >= b.maxMessages {
          ReachesExpected(world.messages, b, start, processed);
          FinishedIsLegal(world.messages, b, start, processed, delivered);
          return Finished(start, processed, delivered);
        }
        if b.maxId > 0 && cursor >= b.maxId {
          if !includeCursorOnce {
            ReachesExpected(world.messages, b, start, processed);
          }
          FinishedIsLegal(world.messages, b, start, processed, delivered);
          return Finished(start, processed, delivered);
        }
        if world.pageFails(cursor) {
          HaltedOnRequest(world, b, start, processed, delivered);
          HaltedIsLegal(world.messages, b, start, processed, [], delivered);
          return Halted(start, processed, [], delivered);
        }
        var limit := if 0 < b.maxMessages < |processed| + pageSize then b.maxMessages - |processed| else pageSize;
        var allowEqual := includeCursorOnce;
        includeCursorOnce := false;
        var page := world.page(cursor, allowEqual, limit);
        var msgs := Sorted(page);
        PageIsServed(world, b, cursor, allowEqual, limit);
        if |msgs| == 0 {
          NothingWanted(world.messages, b, start, cursor, allowEqual, processed, page, limit);
          ReachesExpected(world.messages, b, start, processed);
          FinishedIsLegal(world.messages, b, start, processed, delivered);
          return Finished(start, processed, delivered);
        }
        var stopped, more, inFlight, reached, i, j := SendPage(world, msgs, b, cursor, allowEqual);
        ProcessPart(world.messages, b, start, cursor, allowEqual, processed, page, limit, i, more);
        ProcessPart(world.messages, b, start, cursor, allowEqual, processed, page, limit, j, more + inFlight);
        FirstIsWithin(processed + (more + inFlight), Wanted(world.messages, start, b));
        Join(world, processed, delivered, more, reached, inFlight);
        CursorsMove(start, old(historyMaxId), processed, more, inFlight);
        if stopped {
          HaltedOnPage(world, b, start, processed, page, i, more, inFlight, delivered + reached);
          HaltedIsLegal(world.messages, b, start, processed + more, inFlight, delivered + reached);
          return Halted(start, processed + more, inFlight, delivered + reached);
        }
        assert more + inFlight == more;
        PageDone(world.messages, b, start, cursor, allowEqual, processed, page, limit, more);
        processed, delivered := processed + more, delivered + reached;
        if |more| == 0 {
          ReachesExpected(world.messages, b, start, processed);
          FinishedIsLegal(world.messages, b, start, processed, delivered);
          return Finished(start, processed, delivered);
        }
        cursor := more[|more| - 1];
      }
    }
  }

  lemma NothingHandled(world: World, start: int, maxId: int)
    ensures DeliveredWithin([], []) && AllHandled(world, [], [])
    ensures CursorAfter(start, []) == start && MaxAfter(maxId, []) == maxId
  {
  }

  lemma PageIsServed(world: World, b: Bounds, cursor: nat, allowEqual: bool, limit: nat)
    requires Serves(world, b) && limit > 0
    ensures var page := world.page(cursor, allowEqual, limit);
            ServesPage(world.messages, page, b, cursor, allowEqual, limit)
            && forall id :: id in Sorted(page) ==> id in world.messages
  {
  }

  lemma PageBegins(world: World, msgs: seq<nat>, b: Bounds, cursor: nat, allowEqual: bool)
    ensures Through(msgs, 0, b, cursor, allowEqual, [])
    ensures DeliveredWithin([], []) && AllHandled(world, [], [])
  {
  }

  /** What was gathered by the moving cursor is the next eligible part of the page. */
  lemma UnitIsNext(world: World, msgs: seq<nat>, i: nat, j: nat, b: Bounds, start: nat, allowEqual: bool,
                   processed: seq<nat>, cursor: nat, unit: seq<nat>)
    requires Ascending(msgs) && i < j <= |msgs| && Through(msgs, i, b, start, allowEqual, processed)
    requires forall id :: id in msgs ==> id in world.messages
    requires cursor == CursorWithin(start, processed) && Eligible(msgs[i], b, cursor, allowEqual)
    requires if world.messages[msgs[i]] == 0 then j == i + 1 && unit == [msgs[i]]
             else && Ascending(unit)
                  && (forall id :: id in unit <==> id in msgs[i..j] && Eligible(id, b, cursor, allowEqual))
                  && (forall k :: i <= k < j ==> world.messages[msgs[k]] == world.messages[msgs[i]])
    ensures Through(msgs, j, b, start, allowEqual, processed + unit) && Ascending(processed + unit)
    ensures OneUnit(world.messages, unit) && |unit| > 0
    ensures |processed| > 0 ==> processed[|processed| - 1] < unit[|unit| - 1]
  {
    StillEligible(msgs, i, b, start, allowEqual, processed);
    assert msgs[i] in msgs[i..j];
    assert forall id :: id in msgs[i..j] ==> exists k :: i <= k < j && msgs[k] == id;
    hide Eligible, Through;
    forall id
      ensures id in unit <==> id in msgs[i..j] && Eligible(id, b, start, allowEqual)
    {
      assert j == i + 1 ==> msgs[i..j] == [msgs[i]];
    }
    assert forall id :: id in unit ==> id in msgs;
    assert |unit| > 0 by {
      assert msgs[i] in unit;
    }
    assert unit[0] in unit;
    ThroughMore(msgs, i, j, b, start, allowEqual, processed, unit);
    ThroughIsAscending(msgs, j, b, start, allowEqual, processed + unit);
    LastGrows(processed, unit);
  }

  lemma LastGrows(a: seq<nat>, b: seq<nat>)
    requires Ascending(a + b) && |b| > 0
    ensures (a + b)[|a + b| - 1] == b[|b| - 1] && (|a| > 0 ==> a[|a| - 1] < b[|b| - 1])
  {
    assert |a| > 0 ==> (a + b)[|a| - 1] < (a + b)[|a + b| - 1];
  }

  lemma CursorsMove(start: int, maxId: int, processed: seq<nat>, more: seq<nat>, inFlight: seq<nat>)
    requires Ascending(processed + (more + inFlight))
    ensures CursorAfter(CursorAfter(start, processed), more) == CursorAfter(start, processed + more)
    ensures MaxAfter(MaxAfter(maxId, processed), more) == MaxAfter(maxId, processed + more)
    ensures processed + (more + inFlight) == (processed + more) + inFlight
    ensures |more| == 0 ==> processed + more == processed
  {
    assert processed + (more + inFlight) == (processed + more) + inFlight;
    if |more| > 0 {
      PrefixIsAscending((processed + more) + inFlight, |processed + more|);
      LastGrows(processed, more);
    } else {
      assert processed + more == processed;
    }
  }

  lemma ThroughIsAscending(msgs: seq<nat>, i: nat, b: Bounds, cursor: nat, allowEqual: bool, processed: seq<nat>)
    requires i <= |msgs| && Through(msgs, i, b, cursor, allowEqual, processed)
    ensures Ascending(processed)
  {
  }

  // ---- Complete, but for one message ----

  /** A run that is not stopped does everything expected of it, except when it ends on entry although
      message 1 is there. */
  lemma CompleteExactlyUnlessFirstIsAll(messages: Messages, b: Bounds, run: Run)
    requires 0 !in messages && Legal(messages, b, run) && run.done
    ensures run.processed == Expected(messages, run.start, b) <==> !(EndsOnEntry(run.start, b) && 1 in messages)
  {
    if EndsOnEntry(run.start, b) {
      if 1 in messages {
        assert 1 in Wanted(messages, run.start, b) && 1 in Sorted(Wanted(messages, run.start, b));
      } else {
        assert Wanted(messages, run.start, b) == {};
      }
    }
  }

  /** The range 1-1 over a history whose first message exists: every run leaves it out. */
  lemma FirstMessageAloneIsMissed(run: Run)
    requires Legal(map[1 := 0], Bounds(1, 1, 0), run) && run.start == 0 && run.done
    ensures run.processed == [] && Expected(map[1 := 0], 0, Bounds(1, 1, 0)) == [1]
  {
    CompleteExactlyUnlessFirstIsAll(map[1 := 0], Bounds(1, 1, 0), run);
    assert Wanted(map[1 := 0], 0, Bounds(1, 1, 0)) == {1};
    var all := Sorted({1});
    assert |all| == 1 && all[0] in all;
  }

  // ---- Crash and resume ----

  /** Runs one after another, each from the cursor the one before left behind. */
  ghost predicate Chained(messages: Messages, b: Bounds, runs: seq<Run>) {
    forall k :: 0 <= k < |runs| ==>
      Legal(messages, b, runs[k]) && (k > 0 ==> runs[k].start == runs[k - 1].end)
  }

  function ProcessedBy(runs: seq<Run>): seq<nat> {
    if |runs| == 0 then [] else ProcessedBy(runs[..|runs| - 1]) + runs[|runs| - 1].processed
  }

  /** What is wanted from the new cursor on is what was wanted and is not processed. */
  lemma ResumeContinues(messages: Messages, b: Bounds, start: int, done: seq<nat>, more: seq<nat>)
    requires FirstOf(done, Wanted(messages, start, b))
    requires FirstOf(more, Wanted(messages, CursorAfter(start, done), b))
    ensures FirstOf(done + more, Wanted(messages, start, b))
    ensures CursorAfter(CursorAfter(start, done), more) == CursorAfter(start, done + more)
    ensures CursorAfter(start, done) >= start
  {
    if |done| == 0 {
      assert done + more == more;
    } else {
      assert done[|done| - 1] in done;
      if |more| == 0 {
        assert done + more == done;
      } else {
        assert more[0] in more && more[|more| - 1] in more;
        AscendingConcat(done, more);
      }
    }
  }

  /** Whatever stops the runs, together they have processed, in order and each once, exactly the wanted
      messages up to the cursor; the last one to end by itself leaves none. */
  lemma {:induction false} ResumeLosesNothing(messages: Messages, b: Bounds, runs: seq<Run>)
    requires Chained(messages, b, runs) && |runs| > 0
    ensures FirstOf(ProcessedBy(runs), Wanted(messages, runs[0].start, b))
    ensures runs[|runs| - 1].end == CursorAfter(runs[0].start, ProcessedBy(runs))
    ensures runs[|runs| - 1].done && b.maxMessages == 0 && !EndsOnEntry(runs[|runs| - 1].start, b) ==>
              ProcessedBy(runs) == Sorted(Wanted(messages, runs[0].start, b))
  {
    var init, last := runs[..|runs| - 1], runs[|runs| - 1];
    var start, before := runs[0].start, ProcessedBy(init);
    if |init| > 0 {
      ResumeLosesNothing(messages, b, init);
    }
    assert last.start == CursorAfter(start, before);
    ResumeContinues(messages, b, start, before, last.processed);
    if last.done && b.maxMessages == 0 && !EndsOnEntry(last.start, b) {
      AllProcessed(messages, b, start, before, last.processed);
    }
  }

  lemma AllProcessed(messages: Messages, b: Bounds, start: int, before: seq<nat>, more: seq<nat>)
    requires FirstOf(before, Wanted(messages, start, b)) && FirstOf(before + more, Wanted(messages, start, b))
    requires more == Sorted(Wanted(messages, CursorAfter(start, before), b))
    ensures before + more == Sorted(Wanted(messages, start, b))
  {
    forall id | id in Wanted(messages, start, b)
      ensures id in before + more
    {
      if id !in before {
        assert id in Wanted(messages, CursorAfter(start, before), b);
      }
    }
    AscendingUnique(before + more, Sorted(Wanted(messages, start, b)));
  }

  /** The persisted cursor never moves back. */
  lemma {:induction false} CursorNeverMovesBack(messages: Messages, b: Bounds, runs: seq<Run>, i: nat, j: nat)
    requires Chained(messages, b, runs) && i <= j < |runs|
    ensures runs[i].start <= runs[j].start <= runs[j].end && (i < j ==> runs[i].end <= runs[j].start)
    decreases j
  {
    EndIsBeyondStart(messages, b, runs[j]);
    if i < j {
      CursorNeverMovesBack(messages, b, runs, i, j - 1);
    }
  }

  lemma EndIsBeyondStart(messages: Messages, b: Bounds, run: Run)
    requires Legal(messages, b, run)
    ensures run.start <= run.end
    ensures forall id :: id in run.processed ==> run.start < id <= run.end
    ensures forall id :: id in run.inFlight ==> run.end < id
  {
    var all := run.processed + run.inFlight;
    if |run.processed| > 0 {
      assert run.processed[|run.processed| - 1] in run.processed;
    }
    forall id | id in run.inFlight
      ensures run.end < id
    {
      var k :| 0 <= k < |run.inFlight| && run.inFlight[k] == id;
      assert all[|run.processed| + k] == id && id in all;
      assert |run.processed| > 0 ==> all[|run.processed| - 1] == run.end;
    }
  }

  /** A message a run moved past is never processed or sent again; one that reaches the target twice was
      the message, or in the album, the earlier run was stopped on. */
  lemma OnlyInFlightIsSentAgain(messages: Messages, b: Bounds, runs: seq<Run>, i: nat, j: nat, id: nat)
    requires Chained(messages, b, runs) && i < j < |runs|
    ensures id in runs[i].processed ==> id !in runs[j].processed && id !in runs[j].delivered
    ensures id in runs[i].delivered && id in runs[j].delivered ==>
              id in runs[i].inFlight && !runs[i].done && OneUnit(messages, runs[i].inFlight)
  {
    CursorNeverMovesBack(messages, b, runs, i, j);
    EndIsBeyondStart(messages, b, runs[i]);
    EndIsBeyondStart(messages, b, runs[j]);
  }
}
