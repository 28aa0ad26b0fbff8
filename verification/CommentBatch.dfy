/**
 What one batch of a consumer pass reads: a page of pending comments and the rest of the album it ends
 with (internal/engine/comment_pending_send.go:513-556).
 */
module CommentBatch {
  import opened AscendingIds
  import opened CommentRow

  const BATCH_SIZE := 50

  type Rows = map<nat, Row>

  // ---- Queries ----

  predicate PendingIn(rows: Rows, root: nat, id: nat) {
    id in rows && rows[id].root == root && rows[id].status.Pending?
  }

  function PendingIds(rows: Rows, root: nat, cursor: nat): set<nat> {
    set id | id in rows && PendingIn(rows, root, id) && id > cursor
  }

  function AlbumIds(rows: Rows, root: nat, group: int, cursor: nat): set<nat> {
    set id | id in rows && PendingIn(rows, root, id) && rows[id].group == group && id > cursor
  }

  /** The first pending rows of the root beyond the cursor. */
  function Page(rows: Rows, root: nat, cursor: nat): (page: seq<nat>)
    ensures Ascending(page)
    ensures forall id :: id in page ==> id in PendingIds(rows, root, cursor)
    ensures |page| <= 50 && (|page| < 50 ==> |page| == |PendingIds(rows, root, cursor)|)
    ensures |page| == 0 <==> PendingIds(rows, root, cursor) == {}
  {
    var all := Sorted(PendingIds(rows, root, cursor));
    var page := Limit(all, BATCH_SIZE);
    assert forall id :: id in page ==> id in all;
    page
  }

  /** The rest of an album beyond an id. */
  function AlbumRest(rows: Rows, root: nat, group: int, last: nat): (rest: seq<nat>)
    ensures Ascending(rest)
    ensures forall id :: id in rest <==> id in AlbumIds(rows, root, group, last)
  {
    Sorted(AlbumIds(rows, root, group, last))
  }

  /** The page, and what is left of the album it ends with. */
  function BatchIds(rows: Rows, root: nat, cursor: nat): (batch: seq<nat>) {
    var page := Page(rows, root, cursor);
    if |page| == 0 then []
    else
      var tail := page[|page| - 1];
      assert tail in page;
      if rows[tail].group == 0 then page else page + AlbumRest(rows, root, rows[tail].group, tail)
  }

  /** Distinct pending rows of the root, as the queue still has them. */
  ghost predicate AsRead(rows: Rows, read: Rows, root: nat, ids: seq<nat>) {
    Ascending(ids) && forall id :: id in ids ==> PendingIn(rows, root, id) && id in read && read[id] == rows[id]
  }

  predicate SameAlbum(rows: Rows, a: nat, b: nat) {
    a in rows && b in rows && rows[a].group == rows[b].group != 0
  }

  /** No other pending comment of the root stands between two of one album. */
  ghost predicate AlbumsContiguous(rows: Rows, root: nat) {
    forall a: nat, b: nat, c: nat ::
      PendingIn(rows, root, a) && PendingIn(rows, root, b) && PendingIn(rows, root, c) && a < b < c &&
      SameAlbum(rows, a, c) ==>
        SameAlbum(rows, a, b)
  }

  lemma PendingMeans(rows: Rows, root: nat)
    ensures forall id :: PendingIn(rows, root, id) <==> id in rows && rows[id].root == root && rows[id].status.Pending?
    ensures forall id :: id in PendingIds(rows, root, 0) <==> PendingIn(rows, root, id) && id > 0
  {
  }

  /** What a batch holds: every pending comment beyond the cursor up to the end of its page, and beyond
      that exactly the rest of the album the page ends with. */
  ghost predicate IsBatch(rows: Rows, root: nat, cursor: nat, batch: seq<nat>, tail: nat) {
    && |batch| > 0 && AsRead(rows, rows, root, batch)
    && tail in batch && tail > cursor
    && (forall id :: id in batch ==> cursor < id <= batch[|batch| - 1])
    && (forall id: nat :: PendingIn(rows, root, id) && cursor < id <= tail ==> id in batch)
    && (forall id: nat :: PendingIn(rows, root, id) && tail < id ==>
          (id in batch <==> SameAlbum(rows, tail, id)))
  }

  function Tail(rows: Rows, root: nat, cursor: nat): nat
    requires PendingIds(rows, root, cursor) != {}
  {
    var page := Page(rows, root, cursor);
    page[|page| - 1]
  }

  lemma BatchIdsIsBatch(rows: Rows, root: nat, cursor: nat)
    requires PendingIds(rows, root, cursor) != {}
    ensures IsBatch(rows, root, cursor, BatchIds(rows, root, cursor), Tail(rows, root, cursor))
    ensures AsRead(rows, rows, root, BatchIds(rows, root, cursor))
  {
    var page, tail := Page(rows, root, cursor), Tail(rows, root, cursor);
    PageMeans(rows, root, cursor);
    hide Page, Sorted, IsBatch, AlbumRest, PendingIds, AsRead;
    if rows[tail].group == 0 {
      assert page + [] == page;
      PageAndRest(rows, root, cursor, page, []);
    } else {
      PageAndRest(rows, root, cursor, page, AlbumRest(rows, root, rows[tail].group, tail));
    }
  }

  lemma PageMeans(rows: Rows, root: nat, cursor: nat)
    requires PendingIds(rows, root, cursor) != {}
    ensures var page, tail := Page(rows, root, cursor), Tail(rows, root, cursor);
            && tail in page && tail in rows && page[|page| - 1] == tail
            && forall id: nat :: id in page <==> PendingIn(rows, root, id) && cursor < id <= tail
  {
    var page, tail := Page(rows, root, cursor), Tail(rows, root, cursor);
    PageTakesAll(rows, root, cursor);
    hide Page, Sorted;
    assert tail in page && tail in PendingIds(rows, root, cursor);
    forall id | id in page
      ensures id <= tail
    {
      AtMostLast(page, id);
    }
  }

  lemma PageAndRest(rows: Rows, root: nat, cursor: nat, page: seq<nat>, rest: seq<nat>)
    requires Ascending(page) && Ascending(rest) && |page| > 0
    requires forall id: nat :: id in page <==> PendingIn(rows, root, id) && cursor < id <= page[|page| - 1]
    requires page[|page| - 1] in rows
    requires forall id: nat :: id in rest <==>
               PendingIn(rows, root, id) && id > page[|page| - 1] && rows[id].group == rows[page[|page| - 1]].group != 0
    ensures IsBatch(rows, root, cursor, page + rest, page[|page| - 1]) && AsRead(rows, rows, root, page + rest)
  {
    hide Ascending;
    var batch, tail := page + rest, page[|page| - 1];
    assert tail in page;
    if |rest| > 0 {
      assert rest[0] in rest;
    }
    AscendingConcat(page, rest);
    forall id: nat
      ensures id in batch <==> id in page || id in rest
      ensures id in batch ==> id <= batch[|batch| - 1]
    {
      InConcat(page, rest, id);
      if id in batch {
        AtMostLast(batch, id);
      }
    }
  }

  lemma InConcat(a: seq<nat>, b: seq<nat>, x: nat)
    ensures x in a + b <==> x in a || x in b
  {
  }

  /** A page leaves out only what lies beyond its tail. */
  lemma PageTakesAll(rows: Rows, root: nat, cursor: nat)
    requires PendingIds(rows, root, cursor) != {}
    ensures var page := Page(rows, root, cursor);
            forall id :: id in PendingIds(rows, root, cursor) && id <= page[|page| - 1] ==> id in page
  {
    var all, page := Sorted(PendingIds(rows, root, cursor)), Page(rows, root, cursor);
    hide Sorted;
    forall id | id in PendingIds(rows, root, cursor) && id <= page[|page| - 1]
      ensures id in page
    {
      PageIsPrefix(all, BATCH_SIZE, id);
    }
  }

  /** A batch covers everything up to its last comment exactly when no comment of another album, or of
      none, stands between the end of its page and that last one. */
  lemma BatchCoversIff(rows: Rows, root: nat, cursor: nat, batch: seq<nat>, tail: nat)
    requires IsBatch(rows, root, cursor, batch, tail)
    ensures (forall id: nat :: PendingIn(rows, root, id) && cursor < id <= batch[|batch| - 1] ==> id in batch) <==>
            (forall id: nat :: PendingIn(rows, root, id) && tail < id <= batch[|batch| - 1] ==>
                                 SameAlbum(rows, tail, id))
  {
    var last := batch[|batch| - 1];
    assert last in batch && PendingIn(rows, root, last);
  }

  /** With contiguous albums a batch leaves nothing out and cuts no album. */
  lemma BatchIsWhole(rows: Rows, root: nat, cursor: nat, batch: seq<nat>, tail: nat)
    requires AlbumsContiguous(rows, root) && IsBatch(rows, root, cursor, batch, tail)
    ensures forall id: nat :: PendingIn(rows, root, id) && cursor < id <= batch[|batch| - 1] ==> id in batch
    ensures forall a: nat, b: nat ::
              PendingIn(rows, root, a) && PendingIn(rows, root, b) && cursor < a <= batch[|batch| - 1] < b ==>
                !SameAlbum(rows, a, b)
  {
    var last := batch[|batch| - 1];
    assert last in batch && PendingIn(rows, root, last) && PendingIn(rows, root, tail);
    BatchCoversIff(rows, root, cursor, batch, tail);
  }

  lemma AlbumRestIsSuffix(rows: Rows, root: nat, group: int, tail: nat, n: nat)
    requires 0 < n <= |AlbumRest(rows, root, group, tail)|
    ensures var all := AlbumRest(rows, root, group, tail); AlbumRest(rows, root, group, all[n - 1]) == all[n..]
  {
    var all := AlbumRest(rows, root, group, tail);
    assert all[n - 1] in all;
    SuffixIsRest(all, AlbumRest(rows, root, group, all[n - 1]), n);
  }
}
