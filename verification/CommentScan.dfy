/**
 One consumer pass over the pending comments of a discussion root
 (sendPendingCommentsForRoot, internal/engine/comment_pending_send.go:251-287, 507-1020).

 The pass reads the queue in batches behind a growing cursor, completes the album at the end of a
 batch, and sends batch by batch.  Network outcomes, payload checks and cancellation come from a
 World; edits may land on a row while it is being sent.  A batch is the list of its ids together with
 the rows as they were when it was read.
 */
module CommentScan {
  import opened Options
  import opened AscendingIds
  import opened CommentRow
  import opened CommentBatch

  /** Outcome of sending one comment: the new message id (0: none), or an error. */
  datatype Outcome = Delivered(target: nat) | SendFailed | FloodWait

  datatype AlbumOutcome = AlbumDelivered(targets: seq<nat>) | AlbumFailed | AlbumFloodWait

  /** What the payload of a comment says. */
  datatype Payload = Unreadable | Rejected | Readable(hasText: bool, hasMedia: bool)

  /** cancelled tells of a comment whether the task is cancelled when the pass comes to its group, and
      cancelledAmong whether it is when the pass comes to its own send within an album. */
  datatype World = World(
    payload: nat -> Payload,
    textAllowed: nat -> bool,
    sendOne: nat -> Outcome,
    sendAlbum: seq<nat> -> AlbumOutcome,
    cancelled: nat -> bool,
    cancelledAmong: nat -> bool,
    editWhileSending: nat -> Option<string>)

  // ---- What a pass may do to the queue ----

  /** Only rows in ids were updated; no row moved, settled rows stay, and a target comes with success. */
  ghost predicate Touches(before: Rows, after: Rows, ids: seq<nat>) {
    && before.Keys == after.Keys
    && forall id :: id in before ==>
      && (id !in ids ==> after[id] == before[id])
      && after[id].root == before[id].root && after[id].group == before[id].group
      && (!before[id].status.Pending? ==> after[id] == before[id])
      && (after[id].target != before[id].target ==> after[id].status.Success?)
  }

  lemma TouchesCompose(a: Rows, b: Rows, c: Rows, i: seq<nat>, j: seq<nat>, ids: seq<nat>)
    requires Touches(a, b, i) && Touches(b, c, j)
    requires forall id :: id in i || id in j ==> id in ids
    ensures Touches(a, c, ids)
  {
  }

  /** Work on some ids leaves disjoint ones as they were read. */
  lemma StillAsRead(before: Rows, after: Rows, read: Rows, root: nat, done: seq<nat>, ids: seq<nat>)
    requires AsRead(before, read, root, ids) && Touches(before, after, done)
    requires forall id :: id in ids ==> id !in done
    ensures AsRead(after, read, root, ids)
  {
  }

  /** Cutting an ascending list: both parts are ascending, disjoint, and make up the list. */
  lemma Cut(ids: seq<nat>, i: nat, j: nat)
    requires Ascending(ids) && i <= j <= |ids|
    ensures Ascending(ids[i..j]) && Ascending(ids[j..])
    ensures forall id :: id in ids[j..] ==> id !in ids[i..j]
    ensures forall id :: id in ids[i..j] ==> id in ids[i..]
    ensures forall id :: id in ids[j..] ==> id in ids[i..]
    ensures forall id :: id in ids[..i] || id in ids[i..j] <==> id in ids[..j]
    ensures forall id :: id in ids[..i] ==> id !in ids[i..j]
  {
    assert ids[i..] == ids[i..j] + ids[j..];
    assert ids[..j] == ids[..i] + ids[i..j];
  }

  /** The ids up to i are done and the rest is as it was read. */
  ghost predicate DoneUpTo(start: Rows, now: Rows, read: Rows, root: nat, ids: seq<nat>, i: nat)
  {
    && i <= |ids| && Ascending(ids)
    && Touches(start, now, ids[..i])
    && AsRead(now, read, root, ids[i..])
  }

  lemma Progress(start: Rows, before: Rows, after: Rows, read: Rows, root: nat, ids: seq<nat>, i: nat, j: nat)
    requires i <= j <= |ids| && DoneUpTo(start, before, read, root, ids, i)
    requires Touches(before, after, ids[i..j])
    ensures DoneUpTo(start, after, read, root, ids, j)
    ensures forall id :: id in ids[..i] && id in before ==> after[id] == before[id]
  {
    Cut(ids, i, j);
    TouchesCompose(start, before, after, ids[..i], ids[i..j], ids[..j]);
    StillAsRead(before, after, read, root, ids[i..j], ids[j..]);
  }

  lemma ProgressOne(start: Rows, before: Rows, after: Rows, read: Rows, root: nat, ids: seq<nat>, i: nat)
    requires i < |ids| && DoneUpTo(start, before, read, root, ids, i)
    requires Touches(before, after, [ids[i]])
    ensures DoneUpTo(start, after, read, root, ids, i + 1)
    ensures forall k :: 0 <= k < i && ids[k] in before ==> ids[k] in after && after[ids[k]] == before[ids[k]]
  {
    assert ids[i..i + 1] == [ids[i]];
    assert forall k :: 0 <= k < i ==> ids[k] in ids[..i];
    Progress(start, before, after, read, root, ids, i, i + 1);
  }

  lemma Begin(rows: Rows, read: Rows, root: nat, ids: seq<nat>)
    requires AsRead(rows, read, root, ids)
    ensures DoneUpTo(rows, rows, read, root, ids, 0)
    ensures forall k :: 0 <= k < |ids| ==> ids[k] in read && ids[k] in rows
    ensures forall id :: id in ids ==> id in read
  {
    assert ids[0..] == ids;
    assert forall k :: 0 <= k < |ids| ==> ids[k] in ids;
  }

  lemma SoFar(start: Rows, now: Rows, read: Rows, root: nat, ids: seq<nat>, i: nat)
    requires i <= |ids| && DoneUpTo(start, now, read, root, ids, i)
    ensures Touches(start, now, ids[..i])
  {
  }

  lemma RestAsRead(start: Rows, now: Rows, read: Rows, root: nat, ids: seq<nat>, i: nat)
    requires i <= |ids| && DoneUpTo(start, now, read, root, ids, i)
    ensures Touches(start, now, ids)
    ensures forall k :: i <= k < |ids| ==> PendingIn(now, root, ids[k]) && ids[k] in read && read[ids[k]] == now[ids[k]]
  {
    assert forall k :: i <= k < |ids| ==> ids[k] == ids[i..][k - i];
  }

  // ---- Single comments and albums ----

  /** The row of a comment that is given up. */
  predicate GivenUp(row: Row, before: Row) {
    row == before.(status := Failed, version := row.version)
  }

  /** The row of a comment that was mirrored: it keeps the newest text. */
  predicate Committed(row: Row, before: Row, id: nat, target: nat, world: World) {
    row == before.(status := Success, target := target, text := world.editWhileSending(id).GetOr(before.text),
                   version := row.version)
  }

  /** A row after its send of its own: committed, given up, or left as it was. */
  predicate FollowsOutcome(row: Row, before: Row, id: nat, world: World) {
    match world.sendOne(id)
    case Delivered(target) => if target > 0 then Committed(row, before, id, target, world) else GivenUp(row, before)
    case SendFailed => row == before
    case FloodWait => row == before
  }

  /** An edit is owed exactly by a mirrored comment whose text changed on the way. */
  predicate OwedRightly(row: Row, id: nat, owed: seq<nat>, world: World) {
    id in owed <==> row.status.Success? && row.target > 0 && world.editWhileSending(id).Some?
  }

  predicate Acceptable(id: nat, world: World) {
    world.payload(id).Readable? && world.textAllowed(id)
  }

  /** A comment outside albums: given up for its payload or text, else settled by the outcome of its send. */
  predicate SingleFate(row: Row, before: Row, id: nat, world: World) {
    if Acceptable(id, world) then FollowsOutcome(row, before, id, world) else GivenUp(row, before)
  }

  /** The pass is stopped at a comment sent on its own: before it, or by the answer to it. */
  predicate StopsAt(id: nat, world: World) {
    world.cancelledAmong(id) || world.sendOne(id).FloodWait?
  }

  /** Where, from k on, comments sent one by one are stopped. */
  function Reach(ids: seq<nat>, world: World, k: nat): (n: nat)
    requires k <= |ids|
    ensures k <= n <= |ids|
    ensures forall i :: k <= i < n ==> !StopsAt(ids[i], world)
    ensures n < |ids| ==> StopsAt(ids[n], world)
    decreases |ids| - k
  {
    if k == |ids| || StopsAt(ids[k], world) then k else Reach(ids, world, k + 1)
  }

  lemma ReachIs(ids: seq<nat>, world: World, n: nat)
    requires n <= |ids| && (n < |ids| ==> StopsAt(ids[n], world))
    requires forall i :: 0 <= i < n ==> !StopsAt(ids[i], world)
    ensures Reach(ids, world, 0) == n
  {
  }

  /** A row of comments sent one by one: settled by its outcome if its turn came, else left as it was. */
  predicate EachFate(row: Row, before: Row, ids: seq<nat>, k: nat, world: World) {
    k < |ids| &&
    if k < Reach(ids, world, 0) then FollowsOutcome(row, before, ids[k], world) else row == before
  }

  /** The readable comments of an album, in order. */
  function Sendable(ids: seq<nat>, world: World): (items: seq<nat>)
    ensures forall id :: id in items <==> id in ids && world.payload(id).Readable?
  {
    if |ids| == 0 then []
    else
      var last := ids[|ids| - 1];
      Sendable(ids[..|ids| - 1], world) + if world.payload(last).Readable? then [last] else []
  }

  /** The comments of an album that cannot be read. */
  ghost predicate GivesUp(group: seq<nat>, filtered: seq<nat>, world: World) {
    forall id :: id in filtered <==> id in group && !world.payload(id).Readable?
  }

  lemma GivesUpMeans(group: seq<nat>, filtered: seq<nat>, world: World)
    requires GivesUp(group, filtered, world)
    ensures forall id :: id in filtered <==> id in group && !world.payload(id).Readable?
  {
  }

  lemma TriageNone(group: seq<nat>, world: World)
    ensures Sendable(group[..0], world) == [] && GivesUp(group[..0], [], world)
  {
  }

  lemma TriageOneMore(group: seq<nat>, i: nat, filtered: seq<nat>, world: World)
    requires i < |group| && GivesUp(group[..i], filtered, world)
    ensures var id := group[i];
            if world.payload(id).Readable?
            then Sendable(group[..i + 1], world) == Sendable(group[..i], world) + [id] &&
                 GivesUp(group[..i + 1], filtered, world)
            else Sendable(group[..i + 1], world) == Sendable(group[..i], world) &&
                 GivesUp(group[..i + 1], filtered + [id], world)
  {
    assert group[..i + 1][..i] == group[..i] && group[..i + 1] == group[..i] + [group[i]];
  }

  lemma {:induction false} SendableIsAscending(ids: seq<nat>, world: World)
    requires Ascending(ids)
    ensures Ascending(Sendable(ids, world))
  {
    if |ids| > 0 {
      var init := ids[..|ids| - 1];
      SendableIsAscending(init, world);
      assert forall k :: 0 <= k < |Sendable(init, world)| ==> Sendable(init, world)[k] in init;
    }
  }

  predicate HasText(p: Payload) {
    p.Readable? && p.hasText
  }

  function CaptionFrom(ids: seq<nat>, world: World, k: nat): (idx: nat)
    requires k <= |ids|
    ensures |ids| > 0 ==> idx < |ids|
    decreases |ids| - k
  {
    if k == |ids| then 0
    else if HasText(world.payload(ids[k])) then k
    else CaptionFrom(ids, world, k + 1)
  }

  /** The comment that carries the caption: the first with a text, else the first. */
  function Caption(ids: seq<nat>, world: World): (idx: nat)
    ensures |ids| > 0 ==> idx < |ids|
  {
    CaptionFrom(ids, world, 0)
  }

  predicate CaptionAllowed(items: seq<nat>, world: World) {
    |items| > 0 && world.textAllowed(items[Caption(items, world)])
  }

  /** The payload does not keep its album from being sent as one. */
  predicate FitsAlbum(p: Payload) {
    match p
    case Unreadable => false
    case Rejected => true
    case Readable(_, hasMedia) => hasMedia
  }

  /** The readable comments of an album go out as one, and the target does not refuse that. */
  predicate DecidedAsOne(group: seq<nat>, items: seq<nat>, world: World) {
    && (forall i :: 0 <= i < |group| ==> FitsAlbum(world.payload(group[i])))
    && |items| >= 2 && !world.sendAlbum(items).AlbumFailed?
  }

  /** The id a comment of an accepted album got, if every comment got one. */
  function TargetOf(ids: seq<nat>, targets: seq<nat>, i: nat): Option<nat>
    requires i < |ids|
  {
    if |targets| == |ids| then Some(targets[i]) else None
  }

  /** A row after its album was accepted; an album without ids of its own leaves none behind. */
  predicate FollowsAlbum(row: Row, before: Row, id: nat, target: Option<nat>, world: World) {
    match target
    case None => row == before.(status := Success, version := row.version)
    case Some(t) => if t > 0 then Committed(row, before, id, t, world) else row == before
  }

  /** A readable row after its album: given up for the caption; settled by the answer to the album; or sent
      on its own, unless the pass was stopped before its turn. */
  predicate ItemFate(row: Row, before: Row, items: seq<nat>, k: nat, group: seq<nat>, world: World) {
    k < |items| &&
    if !CaptionAllowed(items, world) then
      GivenUp(row, before)
    else if DecidedAsOne(group, items, world) then
      match world.sendAlbum(items)
      case AlbumDelivered(targets) => FollowsAlbum(row, before, items[k], TargetOf(items, targets, k), world)
      case _ => row == before
    else
      EachFate(row, before, items, k, world)
  }

  /** The comments of an album that the target accepted have each its own id, if it gave one for each; else they are
      done with and have none. */
  ghost predicate Mapped(now: Rows, items: seq<nat>, targets: seq<nat>) {
    forall k :: 0 <= k < |items| ==>
      items[k] in now &&
      if |targets| != |items| then now[items[k]].status.Success? && now[items[k]].target == 0
      else if targets[k] > 0 then now[items[k]].status.Success? && now[items[k]].target == targets[k]
      else now[items[k]].status.Pending? && now[items[k]].target == 0
  }

  /** Every readable comment of the album has media, and none is unreadable. */
  ghost predicate AllFit(group: seq<nat>, world: World) {
    forall i :: 0 <= i < |group| ==>
      var p := world.payload(group[i]);
      p == Rejected || (p.Readable? && p.hasMedia)
  }

  /** If the comments of an album went out as one and were accepted, they are mapped. */
  ghost predicate MappedIfAccepted(now: Rows, group: seq<nat>, world: World) {
    var items := Sendable(group, world);
    |items| >= 2 && CaptionAllowed(items, world) && AllFit(group, world) && world.sendAlbum(items).AlbumDelivered? ==>
      Mapped(now, items, world.sendAlbum(items).targets)
  }

  lemma AcceptedIsMapped(before: Rows, now: Rows, group: seq<nat>, world: World)
    requires AlbumFate(before, now, group, world)
    requires forall id :: id in group && id in before ==> before[id].status.Pending? && before[id].target == 0
    ensures MappedIfAccepted(now, group, world)
  {
    hide CaptionAllowed;
    var items := Sendable(group, world);
    if |items| >= 2 && CaptionAllowed(items, world) && AllFit(group, world) && world.sendAlbum(items).AlbumDelivered? {
      hide Sendable, FitsAlbum;
      var targets := world.sendAlbum(items).targets;
      assert DecidedAsOne(group, items, world);
      forall k | 0 <= k < |items|
        ensures items[k] in items && items[k] in group
        ensures FollowsAlbum(now[items[k]], before[items[k]], items[k], TargetOf(items, targets, k), world)
      {
        assert ItemFate(now[items[k]], before[items[k]], items, k, group, world);
      }
    }
  }

  /** Every readable comment of an album met its fate, and every other one is given up. */
  ghost predicate AlbumFate(before: Rows, after: Rows, group: seq<nat>, world: World) {
    var items := Sendable(group, world);
    && (forall id :: id in group ==> id in before && id in after)
    && (forall id :: id in group && !world.payload(id).Readable? ==> GivenUp(after[id], before[id]))
    && forall k :: 0 <= k < |items| ==>
         && items[k] in before && items[k] in after
         && ItemFate(after[items[k]], before[items[k]], items, k, group, world)
  }

  /** The pass is stopped while an album is sent. */
  predicate ItemsStop(group: seq<nat>, items: seq<nat>, world: World) {
    && CaptionAllowed(items, world)
    && if DecidedAsOne(group, items, world) then world.sendAlbum(items).AlbumFloodWait?
       else Reach(items, world, 0) < |items|
  }

  predicate AlbumStops(group: seq<nat>, world: World) {
    var items := Sendable(group, world);
    |items| > 0 && ItemsStop(group, items, world)
  }

  predicate SingleStops(id: nat, world: World) {
    Acceptable(id, world) && world.sendOne(id).FloodWait?
  }

  /** A row of comment k, sent on its own or, with the ids of the accepted album, as part of it. */
  predicate Settled(row: Row, before: Row, ids: seq<nat>, k: nat, accepted: Option<seq<nat>>, world: World) {
    k < |ids| &&
    match accepted
    case None => FollowsOutcome(row, before, ids[k], world)
    case Some(targets) => FollowsAlbum(row, before, ids[k], TargetOf(ids, targets, k), world)
  }

  /** The first i comments are settled. */
  ghost predicate SettledSoFar(now: Rows, read: Rows, ids: seq<nat>, i: nat, accepted: Option<seq<nat>>, owed: seq<nat>,
                               world: World)
  {
    && i <= |ids| && (forall id :: id in owed ==> id in ids[..i])
    && forall k :: 0 <= k < i ==>
         && ids[k] in now && ids[k] in read && OwedRightly(now[ids[k]], ids[k], owed, world)
         && Settled(now[ids[k]], read[ids[k]], ids, k, accepted, world)
  }

  lemma NoneSettled(rows: Rows, read: Rows, ids: seq<nat>, accepted: Option<seq<nat>>, world: World)
    ensures SettledSoFar(rows, read, ids, 0, accepted, [], world)
  {
  }

  lemma SettledOneMore(before: Rows, now: Rows, read: Rows, ids: seq<nat>, i: nat, accepted: Option<seq<nat>>,
                       owed: seq<nat>, owes: bool, world: World)
    requires Ascending(ids) && i < |ids| && SettledSoFar(before, read, ids, i, accepted, owed, world)
    requires ids[i] in now && ids[i] in read
    requires forall k :: 0 <= k < i && ids[k] in before ==> ids[k] in now && now[ids[k]] == before[ids[k]]
    requires Settled(now[ids[i]], read[ids[i]], ids, i, accepted, world)
    requires OwedRightly(now[ids[i]], ids[i], if owes then [ids[i]] else [], world)
    ensures SettledSoFar(now, read, ids, i + 1, accepted, owed + if owes then [ids[i]] else [], world)
  {
    hide Settled;
    var more := if owes then [ids[i]] else [];
    assert ids[..i + 1] == ids[..i] + [ids[i]];
    assert ids[i] !in ids[..i];
    forall k | 0 <= k < i + 1
      ensures OwedRightly(now[ids[k]], ids[k], owed + more, world)
    {
      if k < i {
        assert ids[k] in ids[..i] && ids[k] !in more;
      }
    }
  }

  /** Those settled so far, and the rest as it was read. */
  lemma SettledAndRest(now: Rows, read: Rows, root: nat, ids: seq<nat>, i: nat, accepted: Option<seq<nat>>,
                       owed: seq<nat>, world: World)
    requires i <= |ids| && SettledSoFar(now, read, ids, i, accepted, owed, world) && Ascending(ids)
    requires forall k :: i <= k < |ids| ==>
               PendingIn(now, root, ids[k]) && ids[k] in read && read[ids[k]] == now[ids[k]]
    ensures forall k :: 0 <= k < |ids| ==>
              && ids[k] in now && ids[k] in read && OwedRightly(now[ids[k]], ids[k], owed, world)
    ensures forall k :: 0 <= k < i ==> Settled(now[ids[k]], read[ids[k]], ids, k, accepted, world)
    ensures forall k :: i <= k < |ids| ==> now[ids[k]] == read[ids[k]]
    ensures forall id :: id in owed ==> id in ids
  {
    hide Settled;
    assert forall k :: i <= k < |ids| ==> ids[k] !in ids[..i];
  }

  /** The comments were sent one by one up to the one that stops, which is left as it was. */
  lemma StopsHere(start: Rows, now: Rows, read: Rows, root: nat, ids: seq<nat>, done: nat, i: nat, owed: seq<nat>,
                  world: World)
    requires i <= done <= |ids| && DoneUpTo(start, now, read, root, ids, done)
    requires SettledSoFar(now, read, ids, done, None, owed, world)
    requires i < |ids| ==> StopsAt(ids[i], world)
    requires done == i || (done == i + 1 && world.sendOne(ids[i]).FloodWait?)
    requires forall k :: 0 <= k < i ==> !StopsAt(ids[k], world)
    ensures Touches(start, now, ids) && Reach(ids, world, 0) == i
    ensures forall k :: 0 <= k < |ids| ==>
              && ids[k] in now && ids[k] in read && OwedRightly(now[ids[k]], ids[k], owed, world)
              && EachFate(now[ids[k]], read[ids[k]], ids, k, world)
    ensures forall id :: id in owed ==> id in ids
  {
    ReachIs(ids, world, i);
    RestAsRead(start, now, read, root, ids, done);
    hide Touches, AsRead, SettledSoFar, OwedRightly;
    SettledAndRest(now, read, root, ids, done, None, owed, world);
  }

  // ---- Groups ----

  /** A group is one comment, or a run of comments of one album. */
  predicate OneGroup(rows: Rows, group: seq<nat>) {
    && |group| > 0 && group[0] in rows
    && (|group| > 1 ==> forall id :: id in group ==> SameAlbum(rows, group[0], id))
  }

  /** A group begins at position x of a batch: every comment without album, and the first of a run. */
  predicate Boundary(read: Rows, ids: seq<nat>, x: nat)
    requires x < |ids|
  {
    x == 0 || !SameAlbum(read, ids[x - 1], ids[x])
  }

  function Last<T>(s: seq<T>): T
    requires |s| > 0
  {
    s[|s| - 1]
  }

  /** The comments of the groups, in order. */
  function Flat(groups: seq<seq<nat>>): seq<nat> {
    if |groups| == 0 then [] else Flat(groups[..|groups| - 1]) + Last(groups)
  }

  lemma FlatMore(groups: seq<seq<nat>>, group: seq<nat>)
    ensures Flat(groups + [group]) == Flat(groups) + group
  {
    assert (groups + [group])[..|groups|] == groups;
  }

  lemma FlatOne(group: seq<nat>)
    ensures Flat([group]) == group
  {
    FlatMore([], group);
    assert [] + [group] == [group];
  }

  lemma {:induction false} FlatConcat(gs: seq<seq<nat>>, hs: seq<seq<nat>>)
    ensures Flat(gs + hs) == Flat(gs) + Flat(hs)
  {
    if |hs| == 0 {
      assert gs + hs == gs;
    } else {
      var init := hs[..|hs| - 1];
      FlatConcat(gs, init);
      FlatMore(gs + init, Last(hs));
      assert gs + hs == gs + init + [Last(hs)];
    }
  }

  lemma {:induction false} InFlat(groups: seq<seq<nat>>, i: nat, id: nat)
    requires i < |groups| && id in groups[i]
    ensures id in Flat(groups)
  {
    if i < |groups| - 1 {
      InFlat(groups[..|groups| - 1], i, id);
    }
  }

  /** Whole groups: no two neighbours belong to one album. */
  predicate Grouped(rows: Rows, groups: seq<seq<nat>>) {
    && (forall i :: 0 <= i < |groups| ==> OneGroup(rows, groups[i]))
    && (forall i :: 0 < i < |groups| ==> !SameAlbum(rows, Last(groups[i - 1]), groups[i][0]))
  }

  lemma FlatEnds(rows: Rows, groups: seq<seq<nat>>)
    requires Grouped(rows, groups) && |groups| > 0
    ensures |Flat(groups)| > 0 && Last(Flat(groups)) == Last(Last(groups))
  {
  }

  lemma {:induction false} FlatBegins(rows: Rows, groups: seq<seq<nat>>)
    requires Grouped(rows, groups) && |groups| > 0
    ensures |Flat(groups)| > 0 && Flat(groups)[0] == groups[0][0]
  {
    if |groups| > 1 {
      FlatBegins(rows, groups[..|groups| - 1]);
    }
  }

  lemma GroupedConcat(rows: Rows, gs: seq<seq<nat>>, hs: seq<seq<nat>>)
    requires Grouped(rows, gs) && Grouped(rows, hs)
    requires |gs| > 0 && |hs| > 0 ==> !SameAlbum(rows, Last(Flat(gs)), Flat(hs)[0])
    ensures Grouped(rows, gs + hs)
  {
    if |gs| > 0 && |hs| > 0 {
      FlatEnds(rows, gs);
      FlatBegins(rows, hs);
    }
    hide OneGroup, SameAlbum, Flat;
  }

  /** What became of a group. */
  ghost predicate GroupDone(before: Rows, after: Rows, group: seq<nat>, owed: seq<nat>, world: World) {
    && |group| > 0
    && (forall id :: id in group ==> id in before && id in after && OwedRightly(after[id], id, owed, world))
    && if before[group[0]].group != 0 then AlbumFate(before, after, group, world)
       else SingleFate(after[group[0]], before[group[0]], group[0], world)
  }

  ghost predicate AllDone(before: Rows, after: Rows, groups: seq<seq<nat>>, owed: seq<nat>, world: World) {
    && (forall i :: 0 <= i < |groups| ==> GroupDone(before, after, groups[i], owed, world))
    && (forall id :: id in owed ==> id in Flat(groups))
  }

  /** A group keeps its fate while other comments are dealt with, before it or after it. */
  lemma GroupKeeps(a: Rows, b: Rows, c: Rows, d: Rows, group: seq<nat>, owed: seq<nat>, all: seq<nat>, world: World)
    requires GroupDone(b, c, group, owed, world)
    requires forall id :: id in group && id in b && id in c ==> id in a && id in d && a[id] == b[id] && c[id] == d[id]
    requires forall id :: id in group ==> (id in owed <==> id in all)
    ensures GroupDone(a, d, group, all, world)
  {
    hide ItemFate, GivenUp, SingleFate;
    assert group[0] in group;
    if b[group[0]].group != 0 {
      var items := Sendable(group, world);
      assert forall k :: 0 <= k < |items| ==> items[k] in items;
    }
  }

  lemma DoneMore(a: Rows, b: Rows, c: Rows, gs: seq<seq<nat>>, hs: seq<seq<nat>>, owed: seq<nat>, more: seq<nat>,
                 world: World)
    requires AllDone(a, b, gs, owed, world) && AllDone(b, c, hs, more, world)
    requires Touches(a, b, Flat(gs)) && Touches(b, c, Flat(hs))
    requires forall id :: id in Flat(gs) ==> id !in Flat(hs)
    ensures AllDone(a, c, gs + hs, owed + more, world)
  {
    hide GroupDone;
    FlatConcat(gs, hs);
    forall i | 0 <= i < |gs + hs|
      ensures GroupDone(a, c, (gs + hs)[i], owed + more, world)
    {
      if i < |gs| {
        forall id | id in gs[i]
          ensures id in Flat(gs) && id !in more
        {
          InFlat(gs, i, id);
        }
        GroupKeeps(a, a, b, c, gs[i], owed, owed + more, world);
      } else {
        forall id | id in hs[i - |gs|]
          ensures id in Flat(hs) && id !in owed
        {
          InFlat(hs, i - |gs|, id);
        }
        GroupKeeps(a, b, c, c, hs[i - |gs|], more, owed + more, world);
      }
    }
  }

  // ---- Where a pass stops ----

  /** Why a pass or a batch ends: everything was dealt with; it was cancelled before the group of a comment;
      or it was stopped within its last group. */
  datatype Stop = Finished | BeforeGroup(id: nat) | InGroup

  predicate GroupStops(rows: Rows, group: seq<nat>, world: World)
    requires |group| > 0 && group[0] in rows
  {
    if rows[group[0]].group != 0 then AlbumStops(group, world) else SingleStops(group[0], world)
  }

  /** The pass was not cancelled before the group, and was stopped within it or not. */
  predicate WentInto(rows: Rows, group: seq<nat>, stopped: bool, world: World) {
    && |group| > 0 && group[0] in rows && !world.cancelled(group[0])
    && GroupStops(rows, group, world) == stopped
  }

  /** The stop is the first thing on the way that stops. */
  predicate StopIs(rows: Rows, groups: seq<seq<nat>>, stop: Stop, world: World) {
    && (stop.InGroup? ==> |groups| > 0)
    && (stop.BeforeGroup? ==> world.cancelled(stop.id))
    && forall i :: 0 <= i < |groups| ==> WentInto(rows, groups[i], stop.InGroup? && i == |groups| - 1, world)
  }

  lemma StopLater(start: Rows, read: Rows, gs: seq<seq<nat>>, hs: seq<seq<nat>>, stop: Stop, world: World)
    requires StopIs(start, gs, Finished, world) && StopIs(read, hs, stop, world)
    requires forall i :: 0 <= i < |hs| && |hs[i]| > 0 && hs[i][0] in read ==>
                           hs[i][0] in start && start[hs[i][0]] == read[hs[i][0]]
    ensures StopIs(start, gs + hs, stop, world)
  {
    hide AlbumStops, SingleStops;
    forall i | 0 <= i < |gs + hs|
      ensures WentInto(start, (gs + hs)[i], stop.InGroup? && i == |gs + hs| - 1, world)
    {
      if i < |gs| {
        assert WentInto(start, gs[i], false, world);
      } else {
        var j := i - |gs|;
        assert WentInto(read, hs[j], stop.InGroup? && j == |hs| - 1, world);
      }
    }
  }

  // ---- What a pass visits ----

  /** Comments of one album are visited in one group. */
  ghost predicate AlbumsWhole(rows: Rows, groups: seq<seq<nat>>) {
    forall i, j, a, b :: 0 <= i < j < |groups| && a in groups[i] && b in groups[j] ==> !SameAlbum(rows, a, b)
  }

  /** The comment stands between two visited ones of an album that it is not part of. */
  ghost predicate Interrupts(rows: Rows, visited: seq<nat>, id: nat) {
    exists a: nat, b: nat ::
      a in visited && b in visited && a < id < b && SameAlbum(rows, a, b) && !SameAlbum(rows, a, id)
  }

  /** Every pending comment of the root up to a bound was visited or interrupts an album. */
  ghost predicate Covers(rows: Rows, root: nat, upTo: int, visited: seq<nat>) {
    forall id: nat :: PendingIn(rows, root, id) && id <= upTo ==> id in visited || Interrupts(rows, visited, id)
  }

  /** What was visited so far, seen from the rows at the start of the pass. */
  ghost predicate Visited(start: Rows, now: Rows, root: nat, groups: seq<seq<nat>>) {
    && Touches(start, now, Flat(groups))
    && Ascending(Flat(groups)) && Grouped(start, groups)
    && (forall id :: id in Flat(groups) ==> PendingIn(start, root, id))
  }

  /** The pass has dealt with everything up to the cursor, and no album goes on beyond it. */
  ghost predicate PassedTo(start: Rows, now: Rows, root: nat, cursor: nat, groups: seq<seq<nat>>) {
    && Visited(start, now, root, groups)
    && (forall id :: id in Flat(groups) ==> id <= cursor)
    && Covers(start, root, cursor, Flat(groups))
    && (forall id: nat :: PendingIn(start, root, id) && id > cursor && |Flat(groups)| > 0 ==>
                            !SameAlbum(start, Last(Flat(groups)), id))
  }

  /** How far a pass got, by the reason it ended: nothing pending before that was left out, but for
      comments that interrupt an album. */
  ghost predicate GotAsFarAs(rows: Rows, root: nat, visited: seq<nat>, stop: Stop) {
    match stop
    case Finished =>
      forall id: nat :: PendingIn(rows, root, id) ==> id in visited || Interrupts(rows, visited, id)
    case BeforeGroup(next) =>
      PendingIn(rows, root, next) && (forall id :: id in visited ==> id < next) && Covers(rows, root, next - 1, visited)
    case InGroup =>
      |visited| > 0 && Covers(rows, root, Last(visited), visited)
  }

  /** Beyond the cursor, nothing has changed since the pass began. */
  lemma AheadIsUntouched(start: Rows, now: Rows, root: nat, cursor: nat, visited: seq<nat>)
    requires Touches(start, now, visited) && forall id :: id in visited ==> id <= cursor
    ensures forall id: nat :: id > cursor && id in start ==> now[id] == start[id]
    ensures forall id: nat :: id > cursor ==> (PendingIn(now, root, id) <==> PendingIn(start, root, id))
  {
  }

  lemma VisitMoreInOrder(start: Rows, read: Rows, now: Rows, root: nat, cursor: nat, visited: seq<nat>, part: seq<nat>)
    requires Touches(start, read, visited) && Touches(read, now, part)
    requires Ascending(visited) && Ascending(part)
    requires forall id :: id in visited ==> id <= cursor && PendingIn(start, root, id)
    requires forall id :: id in part ==> id > cursor && PendingIn(read, root, id)
    ensures Touches(start, now, visited + part) && Ascending(visited + part)
    ensures forall id :: id in visited + part ==> PendingIn(start, root, id) && id in start
  {
    AheadIsUntouched(start, read, root, cursor, visited);
    TouchesCompose(start, read, now, visited, part, visited + part);
    if |visited| > 0 && |part| > 0 {
      assert visited[|visited| - 1] in visited && part[0] in part;
    }
    AscendingConcat(visited, part);
  }

  lemma GroupedThen(start: Rows, read: Rows, groups: seq<seq<nat>>)
    requires Grouped(read, groups)
    requires forall id :: id in Flat(groups) && id in read ==> id in start && start[id].group == read[id].group
    ensures Grouped(start, groups)
  {
    forall i, id | 0 <= i < |groups| && id in groups[i]
      ensures id in Flat(groups)
    {
      InFlat(groups, i, id);
    }
    forall i | 0 <= i < |groups|
      ensures OneGroup(start, groups[i])
    {
      assert OneGroup(read, groups[i]) && groups[i][0] in groups[i];
    }
    forall i | 0 < i < |groups|
      ensures !SameAlbum(start, Last(groups[i - 1]), groups[i][0])
    {
      assert OneGroup(read, groups[i]) && OneGroup(read, groups[i - 1]);
      assert groups[i - 1][0] in groups[i - 1] && Last(groups[i - 1]) in groups[i - 1] && groups[i][0] in groups[i];
    }
  }

  /** A part of a batch, and what a batch says about it. */
  lemma PartOfBatch(rows: Rows, root: nat, cursor: nat, batch: seq<nat>, tail: nat, part: seq<nat>)
    requires IsBatch(rows, root, cursor, batch, tail) && part <= batch
    ensures Ascending(part)
    ensures forall id :: id in part ==> id in batch && id > cursor && PendingIn(rows, root, id)
  {
    PrefixIsAscending(batch, |part|);
    assert part == batch[..|part|];
    assert forall id :: id in part ==> id in batch;
  }

  /** Part of a batch was sent: the visits stay in order and in whole groups. */
  lemma VisitMore(start: Rows, read: Rows, now: Rows, root: nat, cursor: nat, groups: seq<seq<nat>>,
                  batch: seq<nat>, tail: nat, more: seq<seq<nat>>)
    requires PassedTo(start, read, root, cursor, groups) && IsBatch(read, root, cursor, batch, tail)
    requires Flat(more) <= batch && Touches(read, now, Flat(more)) && Grouped(read, more)
    ensures Visited(start, now, root, groups + more)
    ensures forall id :: id in Flat(groups) ==> id !in Flat(more)
  {
    hide IsBatch, Covers, Touches, PendingIn, Grouped;
    var visited, part := Flat(groups), Flat(more);
    PartOfBatch(read, root, cursor, batch, tail, part);
    FlatConcat(groups, more);
    VisitMoreInOrder(start, read, now, root, cursor, visited, part);
    AheadIsUntouched(start, read, root, cursor, visited);
    assert forall id :: id in part ==> id in visited + part;
    GroupedThen(start, read, more);
    if |groups| > 0 && |more| > 0 {
      FlatEnds(start, groups);
      FlatBegins(start, more);
      assert part[0] in part;
    }
    GroupedConcat(start, groups, more);
  }

  lemma CoverMore(start: Rows, read: Rows, root: nat, cursor: nat, visited: seq<nat>, batch: seq<nat>, tail: nat,
                  part: seq<nat>, upTo: int)
    requires Touches(start, read, visited) && forall id :: id in visited ==> id <= cursor
    requires Covers(start, root, cursor, visited) && IsBatch(read, root, cursor, batch, tail)
    requires forall id :: id in batch && id <= upTo ==> id in part
    requires upTo <= tail || (upTo in part && upTo in batch)
    ensures Covers(start, root, upTo, visited + part)
  {
    AheadIsUntouched(start, read, root, cursor, visited);
    forall id: nat | PendingIn(start, root, id) && id <= upTo
      ensures id in visited + part || Interrupts(start, visited + part, id)
    {
      if id <= cursor {
        if id !in visited {
          InterruptsStill(start, visited, part, id);
        }
      } else if id > tail && !SameAlbum(read, tail, id) {
        assert tail in part && SameAlbum(start, tail, upTo);
      }
    }
  }

  lemma InterruptsStill(rows: Rows, visited: seq<nat>, part: seq<nat>, id: nat)
    requires Interrupts(rows, visited, id)
    ensures Interrupts(rows, visited + part, id)
  {
    var a: nat, b: nat :|
      a in visited && b in visited && a < id < b && SameAlbum(rows, a, b) && !SameAlbum(rows, a, id);
    assert a in visited + part && b in visited + part;
  }

  /** A group of a batch that does not begin with the first comment never begins beyond the end of the page. */
  lemma BoundaryIsInPage(read: Rows, root: nat, cursor: nat, batch: seq<nat>, tail: nat, done: nat)
    requires IsBatch(read, root, cursor, batch, tail) && done < |batch| && Boundary(read, batch, done)
    ensures batch[done] <= tail
    ensures forall id :: id in batch && id < batch[done] ==> id in batch[..done]
  {
    assert batch[done] in batch;
    if done > 0 {
      assert batch[done - 1] in batch;
    }
    forall id | id in batch && id < batch[done]
      ensures id in batch[..done]
    {
      var k :| 0 <= k < |batch| && batch[k] == id;
      assert k < done && batch[..done][k] == id;
    }
    var t :| 0 <= t < |batch| && batch[t] == tail;
    assert t >= done;
  }

  /** The pass stopped in the middle of a batch. */
  lemma StopsThere(start: Rows, read: Rows, root: nat, cursor: nat, groups: seq<seq<nat>>, batch: seq<nat>, tail: nat,
                   more: seq<seq<nat>>, stop: Stop)
    requires PassedTo(start, read, root, cursor, groups) && IsBatch(read, root, cursor, batch, tail)
    requires Flat(more) <= batch && !stop.Finished?
    requires stop.InGroup? ==> |Flat(more)| > 0
    requires stop.BeforeGroup? ==>
               var done := |Flat(more)|;
               done < |batch| && stop.id == batch[done] && Boundary(read, batch, done)
    ensures GotAsFarAs(start, root, Flat(groups + more), stop)
  {
    var visited, part := Flat(groups), Flat(more);
    FlatConcat(groups, more);
    hide Grouped, Touches, Covers, PendingIn, Boundary, SameAlbum, Flat, IsBatch, GotAsFarAs;
    if stop.InGroup? {
      StopsWithin(start, read, root, cursor, visited, batch, tail, part);
    } else {
      StopsBefore(start, read, root, cursor, visited, batch, tail, part, stop.id);
    }
  }

  lemma StopsWithin(start: Rows, read: Rows, root: nat, cursor: nat, visited: seq<nat>, batch: seq<nat>, tail: nat,
                    part: seq<nat>)
    requires Touches(start, read, visited) && forall id :: id in visited ==> id <= cursor
    requires Covers(start, root, cursor, visited) && IsBatch(read, root, cursor, batch, tail)
    requires part <= batch && |part| > 0
    ensures GotAsFarAs(start, root, visited + part, InGroup)
  {
    hide Touches, Covers, PendingIn, SameAlbum, Interrupts;
    assert part == batch[..|part|] && Last(part) in part && Last(part) in batch;
    UpToLast(batch, |part|);
    CoverMore(start, read, root, cursor, visited, batch, tail, part, Last(part));
    assert Last(visited + part) == Last(part);
  }

  lemma StopsBefore(start: Rows, read: Rows, root: nat, cursor: nat, visited: seq<nat>, batch: seq<nat>, tail: nat,
                    part: seq<nat>, next: nat)
    requires Touches(start, read, visited) && forall id :: id in visited ==> id <= cursor
    requires Covers(start, root, cursor, visited) && IsBatch(read, root, cursor, batch, tail)
    requires part <= batch && |part| < |batch| && next == batch[|part|] && Boundary(read, batch, |part|)
    ensures GotAsFarAs(start, root, visited + part, BeforeGroup(next))
  {
    assert part == batch[..|part|] && next in batch;
    AheadIsUntouched(start, read, root, cursor, visited);
    BoundaryIsInPage(read, root, cursor, batch, tail, |part|);
    hide Touches, Covers, PendingIn, SameAlbum, Interrupts, Boundary;
    BelowNext(batch, |part|);
    CoverMore(start, read, root, cursor, visited, batch, tail, part, next - 1);
  }

  lemma BelowNext(batch: seq<nat>, n: nat)
    requires Ascending(batch) && n < |batch|
    ensures forall id :: id in batch[..n] ==> id < batch[n]
  {
  }

  lemma UpToLast(batch: seq<nat>, n: nat)
    requires Ascending(batch) && 0 < n <= |batch|
    ensures forall id :: id in batch && id <= batch[n - 1] ==> id in batch[..n]
  {
    forall id | id in batch && id <= batch[n - 1]
      ensures id in batch[..n]
    {
      AscendingPrefix(batch, n, id);
    }
  }

  /** A whole batch was sent: the cursor moves to its last comment. */
  lemma PassOn(start: Rows, read: Rows, now: Rows, root: nat, cursor: nat, groups: seq<seq<nat>>, batch: seq<nat>,
               tail: nat, more: seq<seq<nat>>)
    requires PassedTo(start, read, root, cursor, groups) && IsBatch(read, root, cursor, batch, tail)
    requires Flat(more) == batch && Visited(start, now, root, groups + more)
    ensures PassedTo(start, now, root, Last(batch), groups + more)
  {
    var visited, last := Flat(groups), Last(batch);
    FlatConcat(groups, more);
    hide IsBatch, Covers, Grouped, Ascending, Touches, SameAlbum, PendingIn, Flat;
    BatchEndsLast(read, root, cursor, batch, tail);
    AlbumEnds(start, read, root, cursor, visited, batch, tail);
    CoverMore(start, read, root, cursor, visited, batch, tail, batch, last);
    EndsAt(visited, batch, cursor);
  }

  lemma EndsAt(visited: seq<nat>, batch: seq<nat>, cursor: nat)
    requires |batch| > 0 && Last(batch) > cursor && forall id :: id in batch ==> id <= Last(batch)
    requires forall id :: id in visited ==> id <= cursor
    ensures Last(visited + batch) == Last(batch)
    ensures forall id :: id in visited + batch ==> id <= Last(batch)
  {
  }

  lemma BatchEndsLast(rows: Rows, root: nat, cursor: nat, batch: seq<nat>, tail: nat)
    requires IsBatch(rows, root, cursor, batch, tail)
    ensures |batch| > 0 && Last(batch) in batch && Last(batch) > cursor
    ensures forall id :: id in batch ==> id <= Last(batch)
  {
    assert Last(batch) in batch;
  }

  lemma AlbumEnds(start: Rows, read: Rows, root: nat, cursor: nat, visited: seq<nat>, batch: seq<nat>, tail: nat)
    requires Touches(start, read, visited) && forall id :: id in visited ==> id <= cursor
    requires IsBatch(read, root, cursor, batch, tail)
    ensures forall id: nat :: PendingIn(start, root, id) && id > Last(batch) ==> !SameAlbum(start, Last(batch), id)
  {
    var last := Last(batch);
    assert last in batch && last >= tail;
    AheadIsUntouched(start, read, root, cursor, visited);
    forall id: nat | PendingIn(start, root, id) && id > last
      ensures !SameAlbum(start, last, id)
    {
      assert id !in batch && !SameAlbum(read, tail, id);
    }
  }

  lemma NothingPassed(rows: Rows, root: nat, world: World)
    requires forall id :: id in rows ==> id > 0
    ensures PassedTo(rows, rows, root, 0, []) && AllDone(rows, rows, [], [], world) && StopIs(rows, [], Finished, world)
    ensures forall id :: PendingIn(rows, root, id) ==> id > 0
  {
  }

  /** A whole batch was sent: fewer comments are left beyond the cursor. */
  lemma FewerLeft(read: Rows, now: Rows, root: nat, cursor: nat, batch: seq<nat>, tail: nat)
    requires IsBatch(read, root, cursor, batch, tail) && Touches(read, now, batch)
    ensures |PendingIds(now, root, Last(batch))| < |PendingIds(read, root, cursor)|
  {
    var last := Last(batch);
    assert last in batch;
    assert last in PendingIds(read, root, cursor) && last !in PendingIds(now, root, last);
    ProperSubset(PendingIds(now, root, last), PendingIds(read, root, cursor));
  }

  lemma NothingLeft(start: Rows, now: Rows, root: nat, cursor: nat, groups: seq<seq<nat>>)
    requires PassedTo(start, now, root, cursor, groups) && PendingIds(now, root, cursor) == {}
    ensures GotAsFarAs(start, root, Flat(groups), Finished)
  {
    AheadIsUntouched(start, now, root, cursor, Flat(groups));
    assert forall id: nat :: PendingIn(now, root, id) && id > cursor ==> id in PendingIds(now, root, cursor);
  }

  lemma AscendingParts(a: seq<nat>, b: seq<nat>)
    requires Ascending(a + b)
    ensures Ascending(a) && Ascending(b)
    ensures forall x, y :: x in a && y in b ==> x < y
  {
    assert forall i :: 0 <= i < |a| ==> (a + b)[i] == a[i];
    assert forall i :: 0 <= i < |b| ==> (a + b)[|a| + i] == b[i];
    forall x, y | x in a && y in b
      ensures x < y
    {
      var i :| 0 <= i < |a| && a[i] == x;
      var j :| 0 <= j < |b| && b[j] == y;
      assert (a + b)[i] == x && (a + b)[|a| + j] == y;
    }
  }

  /** Groups within an ascending list follow each other. */
  lemma {:induction false} GroupsAscend(groups: seq<seq<nat>>)
    requires Ascending(Flat(groups))
    ensures forall i :: 0 <= i < |groups| ==> Ascending(groups[i])
    ensures forall i, j, a, b :: 0 <= i < j < |groups| && a in groups[i] && b in groups[j] ==> a < b
  {
    if |groups| > 0 {
      var n := |groups| - 1;
      var init := groups[..n];
      assert Flat(groups) == Flat(init) + groups[n];
      AscendingParts(Flat(init), groups[n]);
      hide Ascending, Flat;
      GroupsAscend(init);
      assert forall i :: 0 <= i < n ==> groups[i] == init[i];
      forall i, j, a, b | 0 <= i < j < |groups| && a in groups[i] && b in groups[j]
        ensures a < b
      {
        if j < n {
          assert a in init[i] && b in init[j];
        } else {
          InFlat(init, i, a);
        }
      }
    }
  }

  /** With contiguous albums no album is cut. */
  lemma GroupsAreWhole(rows: Rows, root: nat, groups: seq<seq<nat>>)
    requires AlbumsContiguous(rows, root) && Grouped(rows, groups) && Ascending(Flat(groups))
    requires forall id :: id in Flat(groups) ==> PendingIn(rows, root, id)
    ensures AlbumsWhole(rows, groups)
  {
    GroupsAscend(groups);
    forall i, j, a, b | 0 <= i < j < |groups| && a in groups[i] && b in groups[j]
      ensures !SameAlbum(rows, a, b)
    {
      assert OneGroup(rows, groups[i]) && OneGroup(rows, groups[i + 1]);
      var c, d := Last(groups[i]), groups[i + 1][0];
      assert c in groups[i] && d in groups[i + 1] && c < d;
      assert a <= c by { AtMostLast(groups[i], a); }
      assert d <= b by { if j == i + 1 { var k :| 0 <= k < |groups[j]| && groups[j][k] == b; } }
      InFlat(groups, i, a);
      InFlat(groups, i, c);
      InFlat(groups, i + 1, d);
      InFlat(groups, j, b);
      hide Grouped, OneGroup, Ascending, Flat;
      assert !SameAlbum(rows, c, d);
    }
  }

  /** With contiguous albums nothing interrupts one. */
  lemma NothingInterrupts(rows: Rows, root: nat, visited: seq<nat>, id: nat)
    requires AlbumsContiguous(rows, root) && PendingIn(rows, root, id)
    requires forall v :: v in visited ==> PendingIn(rows, root, v)
    ensures !Interrupts(rows, visited, id)
  {
  }

  lemma CoversIsFirst(rows: Rows, root: nat, upTo: int, visited: seq<nat>)
    requires AlbumsContiguous(rows, root) && Ascending(visited)
    requires forall id :: PendingIn(rows, root, id) ==> id > 0
    requires forall id :: id in visited ==> PendingIn(rows, root, id)
    requires Covers(rows, root, upTo, visited) && (|visited| > 0 ==> Last(visited) <= upTo)
    ensures FirstOf(visited, PendingIds(rows, root, 0))
  {
    forall id | PendingIn(rows, root, id)
      ensures !Interrupts(rows, visited, id)
    {
      NothingInterrupts(rows, root, visited, id);
    }
    hide AlbumsContiguous, Interrupts, Ascending;
  }

  lemma FirstAndNext(visited: seq<nat>, pending: set<nat>, next: nat)
    requires FirstOf(visited, pending) && next in pending && forall id :: id in visited ==> id < next
    requires forall id :: id in pending && id < next ==> id in visited
    ensures FirstOf(visited + [next], pending)
  {
    if |visited| > 0 {
      assert Last(visited) in visited;
    }
    AscendingConcat(visited, [next]);
    assert (visited + [next])[|visited|] == next;
  }

  /** With contiguous albums a pass takes a first part of the queue, all of it unless stopped. */
  lemma TakesAFirstPart(rows: Rows, root: nat, visited: seq<nat>, stop: Stop)
    requires AlbumsContiguous(rows, root) && Ascending(visited) && GotAsFarAs(rows, root, visited, stop)
    requires forall id :: PendingIn(rows, root, id) ==> id > 0
    requires forall id :: id in visited ==> PendingIn(rows, root, id)
    ensures visited <= Sorted(PendingIds(rows, root, 0))
    ensures stop.Finished? ==> visited == Sorted(PendingIds(rows, root, 0))
    ensures stop.BeforeGroup? ==> visited + [stop.id] <= Sorted(PendingIds(rows, root, 0))
  {
    var pending := PendingIds(rows, root, 0);
    assert forall id :: id in pending <==> PendingIn(rows, root, id);
    forall id | PendingIn(rows, root, id)
      ensures !Interrupts(rows, visited, id)
    {
      NothingInterrupts(rows, root, visited, id);
    }
    hide AlbumsContiguous, Interrupts, Ascending, PendingIds, PendingIn, FirstOf;
    if stop.Finished? {
      AscendingUnique(visited, Sorted(pending));
    } else if stop.InGroup? {
      CoversIsFirst(rows, root, Last(visited), visited);
      FirstOfIsPrefix(visited, pending);
    } else {
      LastIsBelow(visited, stop.id);
      CoversIsFirst(rows, root, stop.id - 1, visited);
      FirstOfIsPrefix(visited, pending);
      FirstAndNext(visited, pending, stop.id);
      FirstOfIsPrefix(visited + [stop.id], pending);
    }
  }

  lemma LastIsBelow(ids: seq<nat>, n: nat)
    requires forall id :: id in ids ==> id < n
    ensures |ids| > 0 ==> Last(ids) < n
  {
    assert |ids| > 0 ==> Last(ids) in ids;
  }

  // ---- The queue ----

  class CommentQueue {
    var rows: Rows
    var clock: nat

    constructor (rows: Rows, clock: nat)
      ensures this.rows == rows && this.clock == clock
    {
      this.rows, this.clock := rows, clock;
    }

    /** Ids are positive, versions lie in the past, and pending rows have no target yet. */
    ghost predicate Valid()
      reads this
    {
      forall id :: id in rows ==>
        id > 0 && rows[id].version < clock && (rows[id].status.Pending? ==> rows[id].target == 0)
    }

    /** One row renewed by an UPDATE. */
    method Update(id: nat, row: Row)
      requires id in rows
      modifies this
      ensures rows == old(rows)[id := row.(version := old(clock))] && clock == old(clock) + 1
    {
      rows := rows[id := row.(version := clock)];
      clock := clock + 1;
    }

    method MarkFailed(root: nat, ids: seq<nat>)
      requires Valid()
      modifies this
      ensures Valid()
      ensures rows == map id | id in old(rows) ::
                        if id in ids && old(rows)[id].root == root && old(rows)[id].status.Pending?
                        then old(rows)[id].(status := Failed, version := old(clock)) else old(rows)[id]
    {
      rows := map id | id in rows ::
        if id in ids && PendingIn(rows, root, id) then rows[id].(status := Failed, version := clock) else rows[id];
      clock := clock + 1;
    }

    /** Commits a delivered comment that was read at the given version; false asks the caller to bring
        the mirrored text up to date. */
    method MarkSuccessWithCAS(root: nat, id: nat, version: nat, target: nat) returns (casOK: bool)
      requires Valid()
      modifies this
      ensures Valid() && clock >= old(clock)
      ensures casOK <==> && id > 0 && target > 0 && id in old(rows) && old(rows)[id].root == root
                         && old(rows)[id].status.Pending? && old(rows)[id].version == version
      ensures rows == if id > 0 && target > 0 && PendingIn(old(rows), root, id)
                      then old(rows)[id := old(rows)[id].(status := Success, target := target, version := old(clock))]
                      else old(rows)
    {
      if id <= 0 || target <= 0 {
        return false;
      }
      if PendingIn(rows, root, id) && rows[id].version == version {
        Update(id, rows[id].(status := Success, target := target));
        return true;
      }
      if PendingIn(rows, root, id) {
        Update(id, rows[id].(status := Success, target := target));
      }
      return false;
    }

    /** Marks a delivered comment whose new message id is unknown. */
    method MarkSuccessUnmapped(root: nat, id: nat)
      requires Valid()
      modifies this
      ensures Valid()
      ensures rows == if PendingIn(old(rows), root, id)
                      then old(rows)[id := old(rows)[id].(status := Success, version := old(clock))] else old(rows)
    {
      if PendingIn(rows, root, id) {
        Update(id, rows[id].(status := Success));
      }
    }

    /** An edit by the producer that lands while the comment is on its way. */
    method LandEdit(id: nat, edit: Option<string>)
      requires Valid() && id in rows
      modifies this
      ensures Valid() && clock >= old(clock)
      ensures rows == if edit.Some? && old(rows)[id].status.Pending?
                      then old(rows)[id := old(rows)[id].(text := edit.value, version := old(clock))]
                      else old(rows)
    {
      if edit.Some? && rows[id].status.Pending? {
        Update(id, rows[id].(text := edit.value));
      }
    }

    /** The end of an accepted send: the row is committed, keeping the newest text, and an edit is owed
        exactly if one landed on the way. */
    method Settle(root: nat, id: nat, read: Row, target: nat, world: World) returns (owesEdit: bool)
      requires Valid() && target > 0 && PendingIn(rows, root, id) && rows[id] == read
      modifies this
      ensures Valid() && Touches(old(rows), rows, [id]) && id in rows
      ensures Committed(rows[id], read, id, target, world)
      ensures owesEdit <==> world.editWhileSending(id).Some?
    {
      LandEdit(id, world.editWhileSending(id));
      var casOK := MarkSuccessWithCAS(root, id, read.version, target);
      owesEdit := !casOK;
    }

    /** Sends one comment on its own; false stops the pass. */
    method SendAlone(root: nat, id: nat, read: Row, world: World) returns (goOn: bool, owesEdit: bool)
      requires Valid() && PendingIn(rows, root, id) && rows[id] == read
      modifies this
      ensures Valid() && Touches(old(rows), rows, [id]) && id in rows
      ensures goOn <==> !world.sendOne(id).FloodWait?
      ensures FollowsOutcome(rows[id], read, id, world)
      ensures OwedRightly(rows[id], id, if owesEdit then [id] else [], world)
    {
      owesEdit := false;
      match world.sendOne(id)
      case FloodWait =>
        goOn := false;
      case SendFailed =>
        goOn := true;
      case Delivered(target) =>
        goOn := true;
        if target > 0 {
          owesEdit := Settle(root, id, read, target, world);
        } else {
          MarkFailed(root, [id]);
        }
    }

    /** One comment outside any album. */
    method SendSingle(root: nat, id: nat, read: Row, world: World) returns (goOn: bool, owesEdit: bool)
      requires Valid() && PendingIn(rows, root, id) && rows[id] == read
      modifies this
      ensures Valid() && Touches(old(rows), rows, [id]) && id in rows
      ensures SingleFate(rows[id], read, id, world)
      ensures goOn <==> !SingleStops(id, world)
      ensures OwedRightly(rows[id], id, if owesEdit then [id] else [], world)
    {
      if !world.payload(id).Readable? || !world.textAllowed(id) {
        MarkFailed(root, [id]);
        return true, false;
      }
      goOn, owesEdit := SendAlone(root, id, read, world);
    }

    /** Splits an album into the comments to send and those to give up (lines 588-617). */
    method Triage(group: seq<nat>, world: World) returns (filtered: seq<nat>, items: seq<nat>, okAlbum: bool)
      ensures items == Sendable(group, world)
      ensures GivesUp(group, filtered, world)
      ensures forall id :: id in items <==> id in group && world.payload(id).Readable?
      ensures forall id :: id in filtered <==> id in group && !world.payload(id).Readable?
      ensures okAlbum <==> forall i :: 0 <= i < |group| ==> FitsAlbum(world.payload(group[i]))
      ensures okAlbum <==> AllFit(group, world)
    {
      hide Sendable, GivesUp;
      filtered, items, okAlbum := [], [], true;
      TriageNone(group, world);
      for i := 0 to |group|
        invariant items == Sendable(group[..i], world) && GivesUp(group[..i], filtered, world)
        invariant okAlbum <==> forall k :: 0 <= k < i ==> FitsAlbum(world.payload(group[k]))
      {
        TriageOneMore(group, i, filtered, world);
        match world.payload(group[i])
        case Unreadable =>
          filtered := filtered + [group[i]];
          okAlbum := false;
        case Rejected =>
          filtered := filtered + [group[i]];
        case Readable(_, hasMedia) =>
          if !hasMedia {
            okAlbum := false;
          }
          items := items + [group[i]];
      }
      assert group[..|group|] == group;
      GivesUpMeans(group, filtered, world);
    }

    /** One comment of an accepted album (lines 876-889). */
    method SettleAlbumItem(root: nat, id: nat, read: Row, target: Option<nat>, world: World) returns (owesEdit: bool)
      requires Valid() && PendingIn(rows, root, id) && rows[id] == read
      modifies this
      ensures Valid() && Touches(old(rows), rows, [id]) && id in rows
      ensures FollowsAlbum(rows[id], read, id, target, world)
      ensures OwedRightly(rows[id], id, if owesEdit then [id] else [], world)
    {
      owesEdit := false;
      if target.None? {
        MarkSuccessUnmapped(root, id);
      } else if target.value > 0 {
        owesEdit := Settle(root, id, read, target.value, world);
      }
    }

    /** Commits an album the target accepted: one by one when every comment got an id of its own, else
        without ids so that nothing is sent again (lines 874-894). */
    method SettleAlbum(root: nat, read: Rows, ids: seq<nat>, targets: seq<nat>, world: World) returns (owed: seq<nat>)
      requires Valid() && AsRead(rows, read, root, ids)
      modifies this
      ensures Valid() && Touches(old(rows), rows, ids)
      ensures forall k :: 0 <= k < |ids| ==>
                && ids[k] in rows && OwedRightly(rows[ids[k]], ids[k], owed, world)
                && FollowsAlbum(rows[ids[k]], read[ids[k]], ids[k], TargetOf(ids, targets, k), world)
      ensures Mapped(rows, ids, targets)
      ensures forall id :: id in owed ==> id in ids
    {
      ghost var unsent := rows;
      hide Mapped;
      hide DoneUpTo, Touches, AsRead, Ascending, FollowsAlbum, OwedRightly, SettledSoFar;
      owed := [];
      ghost var accepted := Some(targets);
      Begin(rows, read, root, ids);
      NoneSettled(rows, read, ids, accepted, world);
      for i := 0 to |ids|
        invariant Valid() && DoneUpTo(old(rows), rows, read, root, ids, i)
        invariant SettledSoFar(rows, read, ids, i, accepted, owed, world)
      {
        ghost var before := rows;
        RestAsRead(old(rows), rows, read, root, ids, i);
        var target := if |targets| == |ids| then Some(targets[i]) else None;
        var owes := SettleAlbumItem(root, ids[i], read[ids[i]], target, world);
        ProgressOne(old(rows), before, rows, read, root, ids, i);
        SettledOneMore(before, rows, read, ids, i, accepted, owed, owes, world);
        owed := owed + if owes then [ids[i]] else [];
      }
      RestAsRead(old(rows), rows, read, root, ids, |ids|);
      SettledAndRest(rows, read, root, ids, |ids|, accepted, owed, world);
      AlbumIsMapped(unsent, rows, read, root, ids, targets, world);
    }

    /** Sends the comments one by one, in order; false stops the pass (lines 909-952). */
    method SendEach(root: nat, read: Rows, ids: seq<nat>, world: World) returns (goOn: bool, owed: seq<nat>)
      requires Valid() && AsRead(rows, read, root, ids)
      modifies this
      ensures Valid() && Touches(old(rows), rows, ids)
      ensures goOn <==> Reach(ids, world, 0) == |ids|
      ensures forall k :: 0 <= k < |ids| ==>
                && ids[k] in rows && OwedRightly(rows[ids[k]], ids[k], owed, world)
                && EachFate(rows[ids[k]], read[ids[k]], ids, k, world)
      ensures forall id :: id in owed ==> id in ids
    {
      hide DoneUpTo, Touches, AsRead, Ascending, OwedRightly, SettledSoFar, FollowsOutcome, Reach, EachFate;
      owed := [];
      Begin(rows, read, root, ids);
      NoneSettled(rows, read, ids, None, world);
      for i := 0 to |ids|
        invariant Valid() && DoneUpTo(old(rows), rows, read, root, ids, i)
        invariant forall k :: 0 <= k < i ==> !StopsAt(ids[k], world)
        invariant SettledSoFar(rows, read, ids, i, None, owed, world)
      {
        if world.cancelledAmong(ids[i]) {
          StopsHere(old(rows), rows, read, root, ids, i, i, owed, world);
          return false, owed;
        }
        ghost var before := rows;
        RestAsRead(old(rows), rows, read, root, ids, i);
        var sent, owes := SendAlone(root, ids[i], read[ids[i]], world);
        ProgressOne(old(rows), before, rows, read, root, ids, i);
        SettledOneMore(before, rows, read, ids, i, None, owed, owes, world);
        owed := owed + if owes then [ids[i]] else [];
        if !sent {
          StopsHere(old(rows), rows, read, root, ids, i + 1, i, owed, world);
          return false, owed;
        }
      }
      StopsHere(old(rows), rows, read, root, ids, |ids|, |ids|, owed, world);
      goOn := true;
    }

    method CaptionIndex(ids: seq<nat>, world: World) returns (idx: nat)
      requires |ids| > 0
      ensures idx == Caption(ids, world)
      ensures idx < |ids|
      ensures forall k :: 0 <= k < idx ==> world.payload(ids[k]).Readable? ==> !world.payload(ids[k]).hasText
      ensures if world.payload(ids[idx]).Readable? && world.payload(ids[idx]).hasText then true
              else idx == 0 && forall k :: 0 <= k < |ids| ==>
                     world.payload(ids[k]).Readable? ==> !world.payload(ids[k]).hasText
      ensures HasText(world.payload(ids[idx])) ||
              (idx == 0 && forall k :: 0 <= k < |ids| ==> !HasText(world.payload(ids[k])))
    {
      idx := 0;
      for k := 0 to |ids|
        invariant idx == 0 && forall n :: 0 <= n < k ==> !HasText(world.payload(ids[n]))
        invariant Caption(ids, world) == CaptionFrom(ids, world, k)
      {
        if HasText(world.payload(ids[k])) {
          return k;
        }
      }
    }

    /** Gives up what cannot be read and returns the rest (lines 588-626). */
    method GiveUpUnreadable(root: nat, read: Rows, group: seq<nat>, world: World)
      returns (items: seq<nat>, okAlbum: bool)
      requires Valid() && AsRead(rows, read, root, group)
      modifies this
      ensures Valid() && Touches(old(rows), rows, group)
      ensures items == Sendable(group, world) && AsRead(rows, read, root, items)
      ensures okAlbum <==> forall i :: 0 <= i < |group| ==> FitsAlbum(world.payload(group[i]))
      ensures forall id :: id in group && !world.payload(id).Readable? ==> id in rows && GivenUp(rows[id], read[id])
    {
      var filtered;
      filtered, items, okAlbum := Triage(group, world);
      SendableIsAscending(group, world);
      if |filtered| > 0 {
        MarkFailed(root, filtered);
      }
    }

    /** As one album when possible, else one by one (lines 627-952). */
    method SendReadable(root: nat, read: Rows, ghost group: seq<nat>, items: seq<nat>, okAlbum: bool, world: World)
      returns (goOn: bool, owed: seq<nat>)
      requires Valid() && AsRead(rows, read, root, items) && |items| > 0
      requires okAlbum <==> forall i :: 0 <= i < |group| ==> FitsAlbum(world.payload(group[i]))
      modifies this
      ensures Valid() && Touches(old(rows), rows, items)
      ensures forall k :: 0 <= k < |items| ==>
                && items[k] in rows && OwedRightly(rows[items[k]], items[k], owed, world)
                && ItemFate(rows[items[k]], read[items[k]], items, k, group, world)
      ensures forall id :: id in owed ==> id in items
      ensures goOn <==> !ItemsStop(group, items, world)
    {
      hide Touches, Reach, EachFate, FollowsAlbum, FitsAlbum;
      var caption := CaptionIndex(items, world);
      if !world.textAllowed(items[caption]) {
        GiveUp(root, read, items, world);
        return true, [];
      }
      if okAlbum && |items| >= 2 {
        match world.sendAlbum(items)
        case AlbumDelivered(targets) =>
          owed := SettleAlbum(root, read, items, targets, world);
          return true, owed;
        case AlbumFloodWait =>
          Untouched(rows, read, root, items, world);
          return false, [];
        case AlbumFailed =>
      }
      goOn, owed := SendEach(root, read, items, world);
    }

    /** The whole album is given up. */
    method GiveUp(root: nat, read: Rows, items: seq<nat>, world: World)
      requires Valid() && AsRead(rows, read, root, items)
      modifies this
      ensures Valid() && Touches(old(rows), rows, items)
      ensures forall k :: 0 <= k < |items| ==>
                && items[k] in rows && OwedRightly(rows[items[k]], items[k], [], world)
                && GivenUp(rows[items[k]], read[items[k]])
    {
      assert forall k :: 0 <= k < |items| ==> items[k] in items;
      MarkFailed(root, items);
    }

    /** One run of comments of one album; false stops the pass. */
    method SendAlbum(root: nat, read: Rows, group: seq<nat>, world: World) returns (goOn: bool, owed: seq<nat>)
      requires Valid() && AsRead(rows, read, root, group)
      modifies this
      ensures Valid() && Touches(old(rows), rows, group)
      ensures AlbumFate(old(rows), rows, group, world) && MappedIfAccepted(rows, group, world)
      ensures forall id :: id in group ==> id in rows && OwedRightly(rows[id], id, owed, world)
      ensures forall id :: id in owed ==> id in group
      ensures goOn <==> !AlbumStops(group, world)
    {
      hide ItemFate, ItemsStop, OwedRightly, MappedIfAccepted;
      var items, okAlbum := GiveUpUnreadable(root, read, group, world);
      ghost var triaged := rows;
      goOn, owed := true, [];
      if |items| > 0 {
        goOn, owed := SendReadable(root, read, group, items, okAlbum, world);
      }
      TouchesCompose(old(rows), triaged, rows, group, items, group);
      AlbumIsDone(old(rows), triaged, rows, read, root, group, owed, world);
      AcceptedIsMapped(old(rows), rows, group, world);
    }

    /** Appends what is left of the album a page ends with (lines 533-556). */
    method CompleteAlbum(root: nat, page: seq<nat>) returns (batch: seq<nat>)
      requires |page| > 0 && page[|page| - 1] in rows
      ensures batch == page + AlbumRest(rows, root, rows[page[|page| - 1]].group, page[|page| - 1])
    {
      hide AlbumRest, Sorted;
      batch := page;
      var tail := page[|page| - 1];
      var group, last := rows[tail].group, tail;
      ghost var rest, n := AlbumRest(rows, root, group, tail), 0;
      var extra := Limit(AlbumRest(rows, root, group, last), BATCH_SIZE);
      while |extra| > 0
        invariant n <= |rest| && batch == page + rest[..n]
        invariant last == if n == 0 then tail else rest[n - 1]
        invariant AlbumRest(rows, root, group, last) == rest[n..]
        invariant extra == Limit(rest[n..], BATCH_SIZE)
        decreases |rest| - n
      {
        batch := batch + extra;
        last := extra[|extra| - 1];
        assert extra == rest[n..n + |extra|];
        n := n + |extra|;
        assert rest[..n] == rest[..n - |extra|] + extra;
        AlbumRestIsSuffix(rows, root, group, tail, n);
        extra := Limit(AlbumRest(rows, root, group, last), BATCH_SIZE);
      }
    }

    /** Reads the next batch, with the album at its end completed (lines 513-556). */
    method ReadBatch(root: nat, cursor: nat) returns (batch: seq<nat>)
      ensures batch == BatchIds(rows, root, cursor)
      ensures |batch| == 0 <==> PendingIds(rows, root, cursor) == {}
      ensures |batch| > 0 ==>
                IsBatch(rows, root, cursor, batch, Tail(rows, root, cursor)) && AsRead(rows, rows, root, batch)
    {
      hide IsBatch, Sorted, AsRead;
      if PendingIds(rows, root, cursor) != {} {
        BatchIdsIsBatch(rows, root, cursor);
      }
      batch := Page(rows, root, cursor);
      if |batch| == 0 {
        return;
      }
      var tail := batch[|batch| - 1];
      assert tail in batch;
      if rows[tail].group != 0 {
        batch := CompleteAlbum(root, batch);
      }
    }

    /** One group of a batch; false stops the pass. */
    method SendGroup(root: nat, read: Rows, group: seq<nat>, world: World) returns (goOn: bool, owed: seq<nat>)
      requires Valid() && AsRead(rows, read, root, group) && OneGroup(read, group)
      modifies this
      ensures Valid() && Touches(old(rows), rows, group)
      ensures GroupDone(old(rows), rows, group, owed, world)
      ensures forall id :: id in owed ==> id in group
      ensures goOn <==> !GroupStops(read, group, world)
    {
      hide AlbumFate, AlbumStops, SingleFate, SingleStops, OwedRightly;
      assert group[0] in group;
      if read[group[0]].group != 0 {
        goOn, owed := SendAlbum(root, read, group, world);
      } else {
        var owes;
        assert group == [group[0]] by { assert |group| > 1 ==> SameAlbum(read, group[0], group[0]); }
        goOn, owes := SendSingle(root, group[0], read[group[0]], world);
        owed := if owes then [group[0]] else [];
      }
    }

    /** The end of the group that starts at i (lines 570-581). */
    method GroupEnd(read: Rows, batch: seq<nat>, i: nat) returns (j: nat)
      requires i < |batch| && forall id :: id in batch ==> id in read
      ensures i < j <= |batch| && (j < |batch| ==> Boundary(read, batch, j))
      ensures OneGroup(read, batch[i..j])
    {
      j := i + 1;
      assert batch[i] in batch;
      if read[batch[i]].group != 0 {
        while j < |batch| && read[batch[j]].group == read[batch[i]].group
          invariant i < j <= |batch| && forall x :: i <= x < j ==> SameAlbum(read, batch[i], batch[x])
        {
          j := j + 1;
        }
      }
    }

    /** Sends a batch group by group and says how it ended (lines 558-1013). */
    method SendBatch(root: nat, read: Rows, batch: seq<nat>, world: World)
      returns (stop: Stop, groups: seq<seq<nat>>, owed: seq<nat>)
      requires Valid() && AsRead(rows, read, root, batch)
      modifies this
      ensures Flat(groups) <= batch && Valid() && Touches(old(rows), rows, Flat(groups))
      ensures Grouped(read, groups) && AllDone(old(rows), rows, groups, owed, world)
      ensures StopIs(read, groups, stop, world)
      ensures stop.Finished? ==> Flat(groups) == batch
      ensures stop.InGroup? ==> |Flat(groups)| > 0
      ensures stop.BeforeGroup? ==>
                var done := |Flat(groups)|;
                done < |batch| && stop.id == batch[done] && Boundary(read, batch, done)
    {
      hide DoneUpTo, Touches, AsRead, Ascending, AllDone, Boundary, Grouped, OneGroup, StopIs, GroupDone, GroupStops;
      groups, owed := [], [];
      var done := 0;
      Begin(rows, read, root, batch);
      NoGroups(rows, read, batch, world);
      while done < |batch|
        invariant done <= |batch| && Valid() && Flat(groups) == batch[..done]
        invariant DoneUpTo(old(rows), rows, read, root, batch, done)
        invariant done < |batch| ==> Boundary(read, batch, done)
        invariant Grouped(read, groups) && StopIs(read, groups, Finished, world)
        invariant AllDone(old(rows), rows, groups, owed, world)
      {
        if world.cancelled(batch[done]) {
          SoFar(old(rows), rows, read, root, batch, done);
          CancelledHere(read, groups, batch[done], world);
          return BeforeGroup(batch[done]), groups, owed;
        }
        var j := GroupEnd(read, batch, done);
        ghost var before := rows;
        GroupIsAsRead(old(rows), rows, read, root, batch, done, j);
        var goOn, owe := SendGroup(root, read, batch[done..j], world);
        GroupSent(old(rows), before, rows, read, root, batch, done, j, groups, owed, owe, world);
        OneGroupMore(read, batch, done, j, groups);
        StopMore(read, groups, batch[done..j], goOn, world);
        groups, owed, done := groups + [batch[done..j]], owed + owe, j;
        if !goOn {
          SoFar(old(rows), rows, read, root, batch, done);
          return InGroup, groups, owed;
        }
      }
      SoFar(old(rows), rows, read, root, batch, done);
      assert batch[..done] == batch;
      stop := Finished;
    }

    /** One pass over the pending comments of a root.  groups lists the comments attempted, each with the album
        it was sent in; owed those whose edit has to be pushed. */
    method SendPending(root: nat, world: World) returns (stop: Stop, groups: seq<seq<nat>>, owed: seq<nat>)
      requires Valid()
      modifies this
      ensures Valid() && Touches(old(rows), rows, Flat(groups))
      ensures Ascending(Flat(groups)) && forall id :: id in Flat(groups) ==> PendingIn(old(rows), root, id)
      ensures Grouped(old(rows), groups) && AllDone(old(rows), rows, groups, owed, world)
      ensures StopIs(old(rows), groups, stop, world) && GotAsFarAs(old(rows), root, Flat(groups), stop)
      ensures forall i :: 0 <= i < |groups| && |groups[i]| > 0 && groups[i][0] in old(rows) ==>
                old(rows)[groups[i][0]].group != 0 ==> MappedIfAccepted(rows, groups[i], world)
      ensures forall id :: id in Flat(groups) ==>
                id in old(rows) && old(rows)[id].root == root && old(rows)[id].status.Pending?
      ensures stop.Finished? && AlbumsContiguous(old(rows), root) ==>
                forall id :: id in old(rows) && old(rows)[id].root == root && old(rows)[id].status.Pending? ==>
                               id in Flat(groups)
      ensures AlbumsContiguous(old(rows), root) ==>
                var visited, queue := Flat(groups), Sorted(PendingIds(old(rows), root, 0));
                && AlbumsWhole(old(rows), groups) && visited <= queue
                && (stop.Finished? ==> visited == queue)
                && (stop.BeforeGroup? ==> visited + [stop.id] <= queue)
    {
      hide PassedTo, Visited, Touches, AlbumsContiguous, AlbumsWhole, PendingIds, PendingIn, BatchIds, Tail, AllDone,
           StopIs, GotAsFarAs, IsBatch, Grouped, AsRead, Boundary, Ascending;
      groups, owed, stop := [], [], Finished;
      NothingPassed(rows, root, world);
      var cursor, goOn := 0, true;
      while goOn
        invariant Valid() && Visited(old(rows), rows, root, groups)
        invariant AllDone(old(rows), rows, groups, owed, world)
        invariant StopIs(old(rows), groups, stop, world)
        invariant if goOn then PassedTo(old(rows), rows, root, cursor, groups) && stop.Finished?
                  else GotAsFarAs(old(rows), root, Flat(groups), stop)
        decreases goOn, |PendingIds(rows, root, cursor)|
      {
        var batch := ReadBatch(root, cursor);
        if |batch| == 0 {
          NothingLeft(old(rows), rows, root, cursor, groups);
          goOn := false;
        } else {
          ghost var read, tail := rows, Tail(rows, root, cursor);
          var more, owe;
          stop, more, owe := SendBatch(root, rows, batch, world);
          PassMore(old(rows), read, rows, root, cursor, groups, batch, tail, more, owed, owe, stop, world);
          if stop.Finished? {
            PassOn(old(rows), read, rows, root, cursor, groups, batch, tail, more);
            FewerLeft(read, rows, root, cursor, batch, tail);
            cursor := batch[|batch| - 1];
          } else {
            StopsThere(old(rows), read, root, cursor, groups, batch, tail, more, stop);
            goOn := false;
          }
          groups, owed := groups + more, owed + owe;
        }
      }
      PassMeans(old(rows), rows, root, groups, stop);
      AcceptedAreMapped(old(rows), rows, root, groups, owed, world);
    }
  }

  lemma AlbumIsMapped(before: Rows, now: Rows, read: Rows, root: nat, ids: seq<nat>, targets: seq<nat>, world: World)
    requires AsRead(before, read, root, ids)
    requires forall id :: id in before && before[id].status.Pending? ==> before[id].target == 0
    requires forall k :: 0 <= k < |ids| ==>
               && ids[k] in now && ids[k] in read
               && FollowsAlbum(now[ids[k]], read[ids[k]], ids[k], TargetOf(ids, targets, k), world)
    ensures Mapped(now, ids, targets)
  {
    hide Ascending;
    forall k | 0 <= k < |ids|
      ensures read[ids[k]].status.Pending? && read[ids[k]].target == 0
    {
      assert ids[k] in ids;
    }
  }

  /** Every album a pass had accepted is mapped. */
  lemma AcceptedAreMapped(start: Rows, now: Rows, root: nat, groups: seq<seq<nat>>, owed: seq<nat>, world: World)
    requires AllDone(start, now, groups, owed, world)
    requires forall id :: id in start && start[id].status.Pending? ==> start[id].target == 0
    requires forall id :: id in Flat(groups) ==> PendingIn(start, root, id)
    ensures forall i :: 0 <= i < |groups| && |groups[i]| > 0 && groups[i][0] in start ==>
              start[groups[i][0]].group != 0 ==> MappedIfAccepted(now, groups[i], world)
  {
    hide AlbumFate, SingleFate, MappedIfAccepted;
    forall i | 0 <= i < |groups| && |groups[i]| > 0 && groups[i][0] in start && start[groups[i][0]].group != 0
      ensures MappedIfAccepted(now, groups[i], world)
    {
      assert GroupDone(start, now, groups[i], owed, world);
      forall id | id in groups[i]
        ensures id in start && start[id].status.Pending? && start[id].target == 0
      {
        InFlat(groups, i, id);
      }
      AcceptedIsMapped(start, now, groups[i], world);
    }
  }

  lemma Untouched(rows: Rows, read: Rows, root: nat, items: seq<nat>, world: World)
    requires AsRead(rows, read, root, items)
    ensures Touches(rows, rows, items)
    ensures forall k :: 0 <= k < |items| ==>
              && items[k] in rows && items[k] in read && rows[items[k]] == read[items[k]]
              && OwedRightly(rows[items[k]], items[k], [], world)
  {
    assert forall k :: 0 <= k < |items| ==> items[k] in items;
  }

  lemma AlbumIsDone(start: Rows, triaged: Rows, now: Rows, read: Rows, root: nat, group: seq<nat>, owed: seq<nat>,
                    world: World)
    requires AsRead(start, read, root, group) && Touches(start, triaged, group)
    requires var items := Sendable(group, world);
             && Touches(triaged, now, items)
             && (forall id :: id in owed ==> id in items)
             && forall k :: 0 <= k < |items| ==>
                  && items[k] in now && items[k] in read && OwedRightly(now[items[k]], items[k], owed, world)
                  && ItemFate(now[items[k]], read[items[k]], items, k, group, world)
    requires forall id :: id in group && !world.payload(id).Readable? ==>
               id in triaged && id in read && GivenUp(triaged[id], read[id])
    ensures AlbumFate(start, now, group, world)
    ensures forall id :: id in group ==> id in now && OwedRightly(now[id], id, owed, world)
  {
    hide ItemFate, Ascending;
    var items := Sendable(group, world);
    assert forall k :: 0 <= k < |items| ==> items[k] in items;
    forall id | id in group
      ensures id in now && OwedRightly(now[id], id, owed, world)
    {
      if world.payload(id).Readable? {
        var k :| 0 <= k < |items| && items[k] == id;
      }
    }
  }

  lemma NoGroups(rows: Rows, read: Rows, batch: seq<nat>, world: World)
    ensures Grouped(read, []) && StopIs(read, [], Finished, world) && AllDone(rows, rows, [], [], world)
    ensures |batch| > 0 ==> Boundary(read, batch, 0)
  {
  }

  lemma CancelledHere(rows: Rows, groups: seq<seq<nat>>, id: nat, world: World)
    requires StopIs(rows, groups, Finished, world) && world.cancelled(id)
    ensures StopIs(rows, groups, BeforeGroup(id), world)
  {
  }

  lemma GroupIsAsRead(start: Rows, now: Rows, read: Rows, root: nat, batch: seq<nat>, i: nat, j: nat)
    requires i < j <= |batch| && DoneUpTo(start, now, read, root, batch, i)
    ensures AsRead(now, read, root, batch[i..j])
  {
    Cut(batch, i, j);
  }

  /** One group of a batch was sent. */
  lemma GroupSent(start: Rows, before: Rows, after: Rows, read: Rows, root: nat, batch: seq<nat>, i: nat, j: nat,
                  groups: seq<seq<nat>>, owed: seq<nat>, owe: seq<nat>, world: World)
    requires i < j <= |batch| && DoneUpTo(start, before, read, root, batch, i)
    requires Flat(groups) == batch[..i] && AllDone(start, before, groups, owed, world)
    requires Touches(before, after, batch[i..j]) && GroupDone(before, after, batch[i..j], owe, world)
    requires forall id :: id in owe ==> id in batch[i..j]
    ensures DoneUpTo(start, after, read, root, batch, j)
    ensures AllDone(start, after, groups + [batch[i..j]], owed + owe, world)
    ensures Flat(groups + [batch[i..j]]) == batch[..j]
  {
    var group := batch[i..j];
    FlatMore(groups, group);
    assert batch[..j] == batch[..i] + group;
    FlatOne(group);
    hide AllDone, Touches, GroupDone, AsRead, Flat;
    SoFar(start, before, read, root, batch, i);
    Apart(start, before, read, root, batch, i, j);
    Progress(start, before, after, read, root, batch, i, j);
    OneDone(before, after, group, owe, world);
    DoneMore(start, before, after, groups, [group], owed, owe, world);
  }

  lemma Apart(start: Rows, now: Rows, read: Rows, root: nat, batch: seq<nat>, i: nat, j: nat)
    requires i <= j <= |batch| && DoneUpTo(start, now, read, root, batch, i)
    ensures forall id :: id in batch[..i] ==> id !in batch[i..j]
  {
    Cut(batch, i, j);
  }

  lemma OneDone(before: Rows, after: Rows, group: seq<nat>, owed: seq<nat>, world: World)
    requires GroupDone(before, after, group, owed, world) && forall id :: id in owed ==> id in group
    ensures AllDone(before, after, [group], owed, world)
  {
    FlatOne(group);
    hide GroupDone;
  }

  lemma OneGroupMore(read: Rows, batch: seq<nat>, i: nat, j: nat, groups: seq<seq<nat>>)
    requires i < j <= |batch| && Flat(groups) == batch[..i] && Grouped(read, groups)
    requires OneGroup(read, batch[i..j]) && Boundary(read, batch, i)
    ensures Grouped(read, groups + [batch[i..j]])
  {
    var group := batch[i..j];
    FlatOne(group);
    assert Grouped(read, [group]);
    hide OneGroup, SameAlbum, Flat;
    if |groups| > 0 {
      FlatEnds(read, groups);
    }
    hide Grouped;
    GroupedConcat(read, groups, [group]);
  }

  lemma StopMore(rows: Rows, groups: seq<seq<nat>>, group: seq<nat>, goOn: bool, world: World)
    requires StopIs(rows, groups, Finished, world) && OneGroup(rows, group)
    requires !world.cancelled(group[0]) && (goOn <==> !GroupStops(rows, group, world))
    ensures StopIs(rows, groups + [group], if goOn then Finished else InGroup, world)
  {
    hide GroupStops, SameAlbum;
  }

  /** What a batch adds to a pass. */
  lemma PassMore(start: Rows, read: Rows, now: Rows, root: nat, cursor: nat, groups: seq<seq<nat>>, batch: seq<nat>,
                 tail: nat, more: seq<seq<nat>>, owed: seq<nat>, owe: seq<nat>, stop: Stop, world: World)
    requires PassedTo(start, read, root, cursor, groups) && IsBatch(read, root, cursor, batch, tail)
    requires Flat(more) <= batch && Touches(read, now, Flat(more)) && Grouped(read, more)
    requires AllDone(start, read, groups, owed, world) && AllDone(read, now, more, owe, world)
    requires StopIs(start, groups, Finished, world) && StopIs(read, more, stop, world)
    ensures Visited(start, now, root, groups + more)
    ensures AllDone(start, now, groups + more, owed + owe, world) && StopIs(start, groups + more, stop, world)
  {
    VisitMore(start, read, now, root, cursor, groups, batch, tail, more);
    hide Covers, IsBatch, Grouped, AllDone, StopIs, PendingIn, Ascending, Touches;
    DoneMore(start, read, now, groups, more, owed, owe, world);
    HeadsAhead(start, read, root, cursor, groups, batch, tail, more);
    StopLater(start, read, groups, more, stop, world);
  }

  lemma HeadsAhead(start: Rows, read: Rows, root: nat, cursor: nat, groups: seq<seq<nat>>, batch: seq<nat>, tail: nat,
                   more: seq<seq<nat>>)
    requires PassedTo(start, read, root, cursor, groups) && IsBatch(read, root, cursor, batch, tail)
    requires Flat(more) <= batch
    ensures forall i :: 0 <= i < |more| && |more[i]| > 0 && more[i][0] in read ==>
                          more[i][0] in start && start[more[i][0]] == read[more[i][0]]
  {
    hide Covers, Grouped, Ascending;
    PartOfBatch(read, root, cursor, batch, tail, Flat(more));
    AheadIsUntouched(start, read, root, cursor, Flat(groups));
    forall i | 0 <= i < |more| && |more[i]| > 0
      ensures more[i][0] in Flat(more)
    {
      InFlat(more, i, more[i][0]);
    }
  }

  lemma PassMeans(start: Rows, now: Rows, root: nat, groups: seq<seq<nat>>, stop: Stop)
    requires Visited(start, now, root, groups) && GotAsFarAs(start, root, Flat(groups), stop)
    requires forall id :: PendingIn(start, root, id) ==> id > 0
    ensures Touches(start, now, Flat(groups)) && Ascending(Flat(groups)) && Grouped(start, groups)
    ensures forall id :: id in Flat(groups) ==> PendingIn(start, root, id)
    ensures forall id :: id in Flat(groups) ==> id in start && start[id].root == root && start[id].status.Pending?
    ensures stop.Finished? && AlbumsContiguous(start, root) ==>
              forall id :: id in start && start[id].root == root && start[id].status.Pending? ==> id in Flat(groups)
    ensures AlbumsContiguous(start, root) ==>
              var visited, queue := Flat(groups), Sorted(PendingIds(start, root, 0));
              && AlbumsWhole(start, groups) && visited <= queue
              && (stop.Finished? ==> visited == queue)
              && (stop.BeforeGroup? ==> visited + [stop.id] <= queue)
  {
    hide Touches, GotAsFarAs, Grouped, Ascending, AlbumsWhole, PendingIds, Sorted, PendingIn, AlbumsContiguous;
    PendingMeans(start, root);
    if AlbumsContiguous(start, root) {
      GroupsAreWhole(start, root, groups);
      TakesAFirstPart(start, root, Flat(groups), stop);
    }
  }
}
