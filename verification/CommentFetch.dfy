/**
 Fetching the comments below a discussion root (fetchRepliesByRoot,
 internal/engine/comment_fetch.go:23-155): backward paging with retries, a fallback page size and
 de-duplication.  The server is an oracle indexed by the number of the call, so it may answer the same
 request differently each time.
 */
module CommentFetch {
  import AscendingIds

  const PAGE_SIZE := 200
  const MAX_TOTAL := 200
  const FALLBACK_LIMIT := 50
  const MSG_ID_INVALID_RETRIES := 4

  datatype Reply = Reply(id: int, date: int)

  datatype Answer = Page(msgs: seq<Reply>) | FloodWait | LimitInvalid | MsgIdInvalid | OtherError

  datatype World = World(answer: (nat, nat, nat) -> Answer, cancelled: nat -> bool)

  datatype Result = Fetched(replies: seq<Reply>) | Failed

  /** A page that was served: the number of the call, what was asked for, and what came. */
  datatype Served = Served(call: nat, offset: nat, limit: nat, msgs: seq<Reply>)

  // ---- Order ----

  predicate Before(a: Reply, b: Reply) {
    a.date < b.date || (a.date == b.date && a.id < b.id)
  }

  ghost predicate InOrder(replies: seq<Reply>) {
    forall i, j :: 0 <= i < j < |replies| ==> Before(replies[i], replies[j])
  }

  ghost predicate DistinctIds(replies: seq<Reply>) {
    forall i, j :: 0 <= i < j < |replies| ==> replies[i].id != replies[j].id
  }

  function Ids(replies: seq<Reply>): set<int> {
    set i | 0 <= i < |replies| :: replies[i].id
  }

  function Insert(m: Reply, sorted: seq<Reply>): (r: seq<Reply>)
    requires InOrder(sorted) && m.id !in Ids(sorted)
    ensures InOrder(r) && |r| == |sorted| + 1
    ensures forall x :: x in r <==> x == m || x in sorted
  {
    if |sorted| == 0 || Before(m, sorted[0]) then [m] + sorted
    else
      InsertBehind(m, sorted);
      [sorted[0]] + Insert(m, sorted[1..])
  }

  lemma InsertBehind(m: Reply, sorted: seq<Reply>)
    requires |sorted| > 0 && InOrder(sorted) && m.id !in Ids(sorted) && !Before(m, sorted[0])
    ensures Before(sorted[0], m) && InOrder(sorted[1..]) && m.id !in Ids(sorted[1..])
    ensures forall x :: x in sorted[1..] ==> Before(sorted[0], x)
    ensures forall x :: x in sorted <==> x == sorted[0] || x in sorted[1..]
  {
    assert sorted[0].id in Ids(sorted);
    assert forall i :: 0 <= i < |sorted[1..]| ==> sorted[1..][i] == sorted[i + 1];
    assert sorted == [sorted[0]] + sorted[1..];
  }

  /** From old to new; the ids are distinct, so there is only one such order. */
  function SortReplies(replies: seq<Reply>): (r: seq<Reply>)
    requires DistinctIds(replies)
    ensures InOrder(r) && |r| == |replies|
    ensures forall x :: x in r <==> x in replies
  {
    if |replies| == 0 then []
    else
      var init, last := replies[..|replies| - 1], replies[|replies| - 1];
      var sorted := SortReplies(init);
      assert last.id !in Ids(sorted) by {
        forall i | 0 <= i < |sorted|
          ensures sorted[i].id != last.id
        {
          assert sorted[i] in init;
        }
      }
      Insert(last, sorted)
  }

  // ---- An honest server ----

  /** The newest comments, by id: every other one is older than all of them, and left out only for room. */
  ghost predicate Newest(comments: map<int, int>, below: int, n: nat, replies: seq<Reply>) {
    && DistinctIds(replies) && |replies| <= n
    && (forall m :: m in replies ==> m.id in comments && comments[m.id] == m.date && (below > 0 ==> m.id < below))
    && (forall id :: id in comments && id !in Ids(replies) && (below > 0 ==> id < below) ==>
          |replies| == n && forall m :: m in replies ==> id < m.id)
  }

  /** Every page it serves holds the newest comments below the offset. */
  ghost predicate Honest(world: World, root: int, comments: map<int, int>) {
    && (forall id :: id in comments ==> id > 0 && id != root)
    && (forall k: nat, offset: nat, limit: nat :: world.answer(k, offset, limit).Page? ==>
          Newest(comments, offset, limit, world.answer(k, offset, limit).msgs))
  }

  // ---- What was fetched ----

  ghost predicate WasServed(pages: seq<Served>, m: Reply) {
    exists i :: 0 <= i < |pages| && m in pages[i].msgs
  }

  /** Distinct comments other than the root that were served. */
  ghost predicate Genuine(pages: seq<Served>, root: int, replies: seq<Reply>) {
    DistinctIds(replies) && forall m :: m in replies ==> m.id > 0 && m.id != root && WasServed(pages, m)
  }

  /** Each page was the answer to its request, and asked for older comments than the one before. */
  ghost predicate Descending(world: World, pages: seq<Served>) {
    && (forall i :: 0 <= i < |pages| ==>
          world.answer(pages[i].call, pages[i].offset, pages[i].limit) == Page(pages[i].msgs))
    && (forall i, j :: 0 <= i < j < |pages| ==>
          && pages[i].call < pages[j].call && pages[j].offset > 0
          && (pages[i].offset > 0 ==> pages[j].offset < pages[i].offset))
  }

  // ---- One page ----

  ghost predicate Valid(m: Reply, root: int) {
    m.id > 0 && m.id != root
  }

  /** The least valid id of a page, 0 if there is none. */
  ghost predicate IsPageMin(min: int, msgs: seq<Reply>, root: int) {
    if min == 0 then forall m :: m in msgs ==> !Valid(m, root)
    else
      && (forall m :: m in msgs && Valid(m, root) ==> min <= m.id)
      && exists m :: m in msgs && Valid(m, root) && m.id == min
  }

  lemma TakeOne(pages: seq<Served>, root: int, out: seq<Reply>, m: Reply)
    requires Genuine(pages, root, out)
    requires |pages| > 0 && m in pages[|pages| - 1].msgs && Valid(m, root) && m.id !in Ids(out)
    ensures Genuine(pages, root, out + [m])
  {
    assert forall i :: 0 <= i < |out| ==> out[i].id in Ids(out);
  }

  lemma IdsMore(out: seq<Reply>, m: Reply)
    ensures Ids(out + [m]) == Ids(out) + {m.id}
  {
    assert (out + [m])[|out|] == m;
    assert forall i :: 0 <= i < |out| ==> (out + [m])[i] == out[i];
  }

  lemma PageMinMore(min: int, msgs: seq<Reply>, m: Reply, root: int)
    requires min >= 0 && IsPageMin(min, msgs, root)
    ensures !Valid(m, root) ==> IsPageMin(min, msgs + [m], root)
    ensures Valid(m, root) ==> IsPageMin(if min == 0 || m.id < min then m.id else min, msgs + [m], root)
  {
    assert m in msgs + [m];
    assert forall x :: x in msgs ==> x in msgs + [m];
  }

  lemma NothingScanned(root: int)
    ensures IsPageMin(0, [], root)
  {
  }

  /** Takes over the valid messages of a page that are new, while there is room (lines 106-126). */
  method TakePage(msgs: seq<Reply>, root: int, out0: seq<Reply>, seen0: set<int>, maxTotal: nat,
                  ghost pages: seq<Served>)
    returns (out: seq<Reply>, seen: set<int>, pageMin: int, scanned: nat)
    requires Genuine(pages, root, out0) && seen0 == Ids(out0) && |out0| < maxTotal
    requires |pages| > 0 && pages[|pages| - 1].msgs == msgs
    ensures Genuine(pages, root, out) && seen == Ids(out) && out0 <= out
    ensures scanned <= |msgs| && |out| <= |out0| + scanned && |out| <= maxTotal
    ensures scanned == |msgs| || |out| == maxTotal
    ensures pageMin >= 0 && IsPageMin(pageMin, msgs[..scanned], root)
    ensures forall m :: m in msgs[..scanned] && Valid(m, root) ==> m.id in Ids(out)
    ensures forall m :: m in out ==> m in out0 || m in msgs
  {
    hide Genuine, Ids, IsPageMin;
    out, seen, pageMin, scanned := out0, seen0, 0, 0;
    NothingScanned(root);
    while scanned < |msgs| && |out| < maxTotal
      invariant scanned <= |msgs| && out0 <= out && |out| <= |out0| + scanned && |out| <= maxTotal
      invariant Genuine(pages, root, out) && seen == Ids(out)
      invariant pageMin >= 0 && IsPageMin(pageMin, msgs[..scanned], root)
      invariant forall m :: m in msgs[..scanned] && Valid(m, root) ==> m.id in Ids(out)
      invariant forall m :: m in out ==> m in out0 || m in msgs
    {
      var msg := msgs[scanned];
      PageMinMore(pageMin, msgs[..scanned], msg, root);
      assert msgs[..scanned + 1] == msgs[..scanned] + [msg];
      scanned := scanned + 1;
      if msg.id <= 0 || msg.id == root {
        continue;
      }
      if pageMin == 0 || msg.id < pageMin {
        pageMin := msg.id;
      }
      if msg.id !in seen {
        TakeOne(pages, root, out, msg);
        IdsMore(out, msg);
        seen := seen + {msg.id};
        out := out + [msg];
      }
    }
  }

  // ---- The loop ----

  /** Everything from the offset on has been collected, and nothing else. */
  ghost predicate Collected(comments: map<int, int>, offset: nat, out: seq<Reply>) {
    && DistinctIds(out)
    && (offset == 0 ==> out == [])
    && (forall m :: m in out ==> m.id in comments && comments[m.id] == m.date && m.id >= offset)
    && (offset > 0 ==> forall id :: id in comments && id >= offset ==> id in Ids(out))
  }

  lemma IdsHas(out: seq<Reply>, m: Reply)
    requires m in out
    ensures m.id in Ids(out)
  {
  }

  /** An honest page is taken over whole and moves the offset down. */
  lemma HonestPage(comments: map<int, int>, root: int, offset: nat, limit: nat, maxTotal: nat, msgs: seq<Reply>,
                   out0: seq<Reply>, out: seq<Reply>, pageMin: int, scanned: nat)
    requires forall id :: id in comments ==> id > 0 && id != root
    requires Collected(comments, offset, out0) && DistinctIds(out) && out0 <= out && |msgs| > 0
    requires Newest(comments, offset, limit, msgs) && limit <= maxTotal - |out0|
    requires scanned <= |msgs| && |out| <= |out0| + scanned && (scanned == |msgs| || |out| == maxTotal)
    requires pageMin >= 0 && IsPageMin(pageMin, msgs[..scanned], root)
    requires forall m :: m in msgs[..scanned] && Valid(m, root) ==> m.id in Ids(out)
    requires forall m :: m in out ==> m in out0 || m in msgs
    ensures scanned == |msgs| && pageMin > 0 && (offset > 0 ==> pageMin < offset) && |out| > |out0|
    ensures Collected(comments, pageMin, out)
    ensures |msgs| < limit ==> forall id :: id in comments ==> id in Ids(out)
  {
    assert msgs[..|msgs|] == msgs;
    assert msgs[0] in msgs;
    HonestPageIsValid(comments, root, offset, limit, msgs);
    assert pageMin > 0;
    NotYet(comments, offset, out0, msgs[0].id);
    assert out != out0;
    forall id | id in comments && id >= pageMin
      ensures id in Ids(out)
    {
      if offset > 0 && id >= offset {
        IdsGrow(out0, out);
      } else {
        HonestPageTakes(comments, root, offset, limit, msgs, pageMin, id);
      }
    }
    forall id | id in comments && |msgs| < limit
      ensures id in Ids(out)
    {
      if offset > 0 && id >= offset {
        IdsGrow(out0, out);
      } else {
        assert id in Ids(msgs);
      }
    }
  }

  lemma NotYet(comments: map<int, int>, offset: nat, out: seq<Reply>, id: int)
    requires Collected(comments, offset, out) && (offset > 0 ==> id < offset)
    ensures id !in Ids(out)
  {
    forall i | 0 <= i < |out|
      ensures out[i].id != id
    {
      assert out[i] in out;
    }
  }

  lemma IdsGrow(a: seq<Reply>, b: seq<Reply>)
    requires a <= b
    ensures Ids(a) <= Ids(b)
  {
    assert forall i :: 0 <= i < |a| ==> b[i] == a[i];
  }

  lemma HonestPageIsValid(comments: map<int, int>, root: int, offset: nat, limit: nat, msgs: seq<Reply>)
    requires forall id :: id in comments ==> id > 0 && id != root
    requires Newest(comments, offset, limit, msgs)
    ensures forall m :: m in msgs ==> Valid(m, root)
    ensures forall id :: id in Ids(msgs) ==> exists m :: m in msgs && m.id == id
  {
    forall id | id in Ids(msgs)
      ensures exists m :: m in msgs && m.id == id
    {
      var i :| 0 <= i < |msgs| && msgs[i].id == id;
      assert msgs[i] in msgs;
    }
  }

  /** A comment not older than the oldest of the page is on the page. */
  lemma HonestPageTakes(comments: map<int, int>, root: int, offset: nat, limit: nat, msgs: seq<Reply>, pageMin: int,
                        id: int)
    requires forall x :: x in comments ==> x > 0 && x != root
    requires Newest(comments, offset, limit, msgs) && IsPageMin(pageMin, msgs, root) && pageMin > 0
    requires id in comments && id >= pageMin && (offset > 0 ==> id < offset)
    ensures exists m :: m in msgs && Valid(m, root) && m.id == id
  {
    HonestPageIsValid(comments, root, offset, limit, msgs);
    var least :| least in msgs && Valid(least, root) && least.id == pageMin;
    assert id in Ids(msgs);
  }

  lemma CollectedEnough(comments: map<int, int>, offset: nat, out: seq<Reply>, n: nat)
    requires Collected(comments, offset, out) && |out| <= n
    requires (|out| == n && offset > 0) || forall id :: id in comments ==> id in Ids(out)
    ensures Newest(comments, 0, n, out)
  {
  }

  lemma EmptyPageEnds(comments: map<int, int>, offset: nat, limit: nat, out: seq<Reply>)
    requires Collected(comments, offset, out) && Newest(comments, offset, limit, []) && limit > 0
    ensures forall id :: id in comments ==> id in Ids(out)
  {
  }

  /** Sorting changes only the order. */
  lemma SortingKeeps(pages: seq<Served>, root: int, comments: map<int, int>, n: nat, out: seq<Reply>)
    requires DistinctIds(out)
    ensures var r := SortReplies(out);
            && (Genuine(pages, root, out) ==> Genuine(pages, root, r))
            && (Newest(comments, 0, n, out) ==> Newest(comments, 0, n, r))
  {
    var r := SortReplies(out);
    forall i, j | 0 <= i < j < |r|
      ensures r[i].id != r[j].id
    {
      assert r[i] in out && r[j] in out;
      assert Before(r[i], r[j]);
    }
    SameIds(out, r);
  }

  lemma SameIds(a: seq<Reply>, b: seq<Reply>)
    requires forall x :: x in a <==> x in b
    ensures Ids(a) == Ids(b)
  {
    forall i | 0 <= i < |a|
      ensures a[i].id in Ids(b)
    {
      IdsHas(b, a[i]);
    }
    forall i | 0 <= i < |b|
      ensures b[i].id in Ids(a)
    {
      IdsHas(a, b[i]);
    }
  }

  lemma DescendingMore(world: World, pages: seq<Served>, s: Served)
    requires Descending(world, pages) && world.answer(s.call, s.offset, s.limit) == Page(s.msgs)
    requires forall p :: p in pages ==> p.call < s.call && s.offset > 0 && (p.offset > 0 ==> s.offset < p.offset)
    ensures Descending(world, pages + [s])
  {
    var all, n := pages + [s], |pages|;
    assert all[n] == s;
    forall i | 0 <= i < n
      ensures all[i] == pages[i] && pages[i] in pages
    {
    }
    forall i, j | 0 <= i < j < |all|
      ensures all[i].call < all[j].call && all[j].offset > 0 && (all[i].offset > 0 ==> all[j].offset < all[i].offset)
    {
      assert all[i] == pages[i];
      if j < n {
        assert all[j] == pages[j];
      }
    }
  }

  lemma GenuineMore(pages: seq<Served>, s: Served, root: int, out: seq<Reply>)
    requires Genuine(pages, root, out)
    ensures Genuine(pages + [s], root, out)
  {
    forall m | m in out
      ensures WasServed(pages + [s], m)
    {
      var i :| 0 <= i < |pages| && m in pages[i].msgs;
      assert (pages + [s])[i] == pages[i];
    }
  }

  /** From some call on the server no longer asks to wait. */
  ghost predicate StopsWaiting(world: World, floods: nat) {
    forall k: nat, offset: nat, n: nat :: k >= floods ==> !world.answer(k, offset, n).FloodWait?
  }

  /** Nobody cancels, and every request is answered in the end: large limits are refused at most on the
      first page, and each offset at most as often as it is retried. */
  ghost predicate Answers(world: World, refused: nat -> set<nat>) {
    && (forall k: nat :: !world.cancelled(k))
    && (forall k: nat, offset: nat, n: nat ::
          var answer := world.answer(k, offset, n);
          && !answer.OtherError?
          && (answer.LimitInvalid? ==> offset == 0 && n > FALLBACK_LIMIT)
          && (answer.MsgIdInvalid? ==> k in refused(offset)))
    && (forall offset: nat :: |refused(offset)| <= MSG_ID_INVALID_RETRIES)
  }

  /** These calls were refused for the current offset. */
  ghost predicate Refusals(world: World, refused: nat -> set<nat>, offset: nat, calls: nat, refusals: set<nat>) {
    && (forall k :: k in refusals ==> k < calls)
    && (Answers(world, refused) ==> refusals <= refused(offset))
  }

  /** n calls were refused for the current offset. */
  ghost predicate Refused(world: World, refused: nat -> set<nat>, offset: nat, n: nat, calls: nat) {
    exists refusals :: Refusals(world, refused, offset, calls, refusals) && |refusals| == n
  }

  lemma RefusedNone(world: World, refused: nat -> set<nat>, offset: nat, calls: nat)
    ensures Refused(world, refused, offset, 0, calls)
  {
    assert Refusals(world, refused, offset, calls, {});
  }

  lemma RefusedMore(world: World, refused: nat -> set<nat>, offset: nat, n: nat, calls: nat)
    requires Refused(world, refused, offset, n, calls) && (Answers(world, refused) ==> calls in refused(offset))
    ensures Refused(world, refused, offset, n + 1, calls + 1)
    ensures Answers(world, refused) ==> n < MSG_ID_INVALID_RETRIES
  {
    hide Answers;
    var refusals :| Refusals(world, refused, offset, calls, refusals) && |refusals| == n;
    var more := refusals + {calls};
    assert |more| == n + 1 && Refusals(world, refused, offset, calls + 1, more);
    if Answers(world, refused) {
      AscendingIds.SubsetSize(more, refused(offset));
      RefusalsAreFew(world, refused, offset);
    }
  }

  lemma RefusalsAreFew(world: World, refused: nat -> set<nat>, offset: nat)
    requires Answers(world, refused)
    ensures |refused(offset)| <= MSG_ID_INVALID_RETRIES
  {
  }

  lemma RefusedLater(world: World, refused: nat -> set<nat>, offset: nat, n: nat, calls: nat)
    requires Refused(world, refused, offset, n, calls)
    ensures Refused(world, refused, offset, n, calls + 1)
  {
    hide Answers;
    var refusals :| Refusals(world, refused, offset, calls, refusals) && |refusals| == n;
    assert Refusals(world, refused, offset, calls + 1, refusals);
  }

  lemma About(world: World, floods: nat, refused: nat -> set<nat>, k: nat, offset: nat, n: nat)
    ensures StopsWaiting(world, floods) && k >= floods ==> !world.answer(k, offset, n).FloodWait?
    ensures Answers(world, refused) ==>
              && !world.cancelled(k) && !world.answer(k, offset, n).OtherError?
              && (world.answer(k, offset, n).LimitInvalid? ==> offset == 0 && n > FALLBACK_LIMIT)
              && (world.answer(k, offset, n).MsgIdInvalid? ==> k in refused(offset))
  {
  }

  /** What one call asked for. */
  datatype Request = Request(offset: nat, limit: nat)

  /** An answer after which the fetch goes on: a page, a wait, a refusal of a large first page, or of the root. */
  ghost predicate GoesOn(world: World, k: nat, r: Request) {
    var answer := world.answer(k, r.offset, r.limit);
    answer.Page? || answer.FloodWait? || answer.MsgIdInvalid? || (answer.LimitInvalid? && r.offset == 0 && r.limit > 50)
  }

  /** Every call but the last was answered so; the last too, unless the fetch failed on it; and a fetch fails only
      when it is cancelled or refused. */
  ghost predicate Asked(world: World, requests: seq<Request>, calls: nat, failed: bool) {
    && |requests| == calls
    && (forall k :: 0 <= k < calls - 1 ==> GoesOn(world, k, requests[k]))
    && if calls > 0 && !GoesOn(world, calls - 1, requests[calls - 1]) then failed
       else failed ==>
              world.cancelled(calls) ||
              (calls > 0 &&
               var last := world.answer(calls - 1, requests[calls - 1].offset, requests[calls - 1].limit);
               !last.Page? && !last.FloodWait?)
  }

  lemma NothingAsked(world: World)
    ensures Asked(world, [], 0, false) && (world.cancelled(0) ==> Asked(world, [], 0, true))
  {
  }

  lemma AskedMore(world: World, requests: seq<Request>, calls: nat, r: Request)
    requires Asked(world, requests, calls, false)
    ensures GoesOn(world, calls, r) ==> Asked(world, requests + [r], calls + 1, false)
    ensures !world.answer(calls, r.offset, r.limit).Page? && !world.answer(calls, r.offset, r.limit).FloodWait? ==>
              Asked(world, requests + [r], calls + 1, true)
    ensures world.cancelled(calls) ==> Asked(world, requests, calls, true)
  {
  }

  /** The first page was asked for in full, and none for more. */
  ghost predicate Sized(pages: seq<Served>, limit: nat) {
    && (|pages| > 0 ==> pages[0].limit == limit)
    && forall i :: 0 <= i < |pages| ==> 0 < pages[i].limit <= limit
  }

  lemma NothingSized()
    ensures forall limit: nat :: Sized([], limit)
  {
  }

  lemma SizedMore(pages: seq<Served>, s: Served, limit: nat)
    requires Sized(pages, limit) && 0 < s.limit <= limit && (pages == [] ==> s.limit == limit)
    ensures Sized(pages + [s], limit)
  {
  }

  /** Where the loop stands before a request for comments below the offset. */
  ghost predicate Collecting(world: World, root: int, comments: map<int, int>, offset: nat, maxTotal: nat, calls: nat,
                             pages: seq<Served>, out: seq<Reply>, seen: set<int>) {
    && |out| <= maxTotal && Genuine(pages, root, out) && seen == Ids(out) && Descending(world, pages)
    && (forall p :: p in pages ==> p.call < calls && offset > 0 && (p.offset > 0 ==> offset < p.offset))
    && (Honest(world, root, comments) ==> Collected(comments, offset, out))
    && (offset == 0 ==> out == [])
  }

  /** The result needs no further page. */
  ghost predicate Complete(world: World, root: int, comments: map<int, int>, maxTotal: nat, pages: seq<Served>,
                           out: seq<Reply>) {
    && |out| <= maxTotal && Genuine(pages, root, out) && Descending(world, pages)
    && (Honest(world, root, comments) ==> Newest(comments, 0, maxTotal, out))
  }

  lemma AtFirst(world: World, root: int, comments: map<int, int>, maxTotal: nat)
    ensures Collecting(world, root, comments, 0, maxTotal, 0, [], [], {})
    ensures Descending(world, []) && Genuine([], root, []) && InOrder([])
  {
    assert Ids([]) == {};
  }

  lemma LaterCalls(world: World, root: int, comments: map<int, int>, offset: nat, maxTotal: nat, calls: nat, later: nat,
                   pages: seq<Served>, out: seq<Reply>, seen: set<int>)
    requires Collecting(world, root, comments, offset, maxTotal, calls, pages, out, seen) && calls <= later
    ensures Collecting(world, root, comments, offset, maxTotal, later, pages, out, seen)
    ensures Descending(world, pages)
  {
  }

  lemma GenuineIsDistinct(pages: seq<Served>, root: int, out: seq<Reply>)
    requires Genuine(pages, root, out)
    ensures DistinctIds(out)
  {
  }

  /** One successful answer (lines 98-142): what is new on the page is taken over, and the offset moves down,
      unless the page shows that there is no more. */
  method UsePage(world: World, root: int, offset: nat, limit: nat, maxTotal: nat, call: nat, msgs: seq<Reply>,
                 out0: seq<Reply>, seen0: set<int>, ghost pages0: seq<Served>, ghost comments: map<int, int>)
    returns (more: bool, next: nat, out: seq<Reply>, seen: set<int>, ghost pages: seq<Served>)
    requires Collecting(world, root, comments, offset, maxTotal, call, pages0, out0, seen0)
    requires 0 < limit <= maxTotal - |out0| && world.answer(call, offset, limit) == Page(msgs)
    ensures |pages| == |pages0| + 1 && pages == pages0 + [Served(call, offset, limit, msgs)]
    ensures more ==>
              && Collecting(world, root, comments, next, maxTotal, call + 1, pages, out, seen)
              && |out| > |out0| && next > 0
    ensures |out| <= maxTotal
    ensures !more || |out| == maxTotal ==> Complete(world, root, comments, maxTotal, pages, out)
  {
    hide Descending, Genuine, Collected, Newest, Ids, DistinctIds, InOrder, IsPageMin, Honest;
    ghost var page := Served(call, offset, limit, msgs);
    DescendingMore(world, pages0, page);
    GenuineMore(pages0, page, root, out0);
    HonestAnswer(world, root, comments, call, offset, limit);
    pages := pages0 + [page];
    more, next, out, seen := false, offset, out0, seen0;
    if |msgs| == 0 {
      if Honest(world, root, comments) {
        EmptyPageEnds(comments, offset, limit, out);
        CollectedEnough(comments, offset, out, maxTotal);
      }
      return;
    }
    var pageMin, scanned;
    out, seen, pageMin, scanned := TakePage(msgs, root, out0, seen0, maxTotal, pages);
    GenuineIsDistinct(pages, root, out);
    if Honest(world, root, comments) {
      HonestPage(comments, root, offset, limit, maxTotal, msgs, out0, out, pageMin, scanned);
      if |msgs| < limit || |out| == maxTotal {
        CollectedEnough(comments, pageMin, out, maxTotal);
      }
    }
    if pageMin <= 0 {
      return;
    }
    if offset > 0 && pageMin >= offset {
      return;
    }
    next := pageMin;
    more := |out| > |out0| && |msgs| >= limit;
  }

  lemma HonestAnswer(world: World, root: int, comments: map<int, int>, k: nat, offset: nat, n: nat)
    ensures Honest(world, root, comments) ==> forall id :: id in comments ==> id > 0 && id != root
    ensures Honest(world, root, comments) && world.answer(k, offset, n).Page? ==>
              Newest(comments, offset, n, world.answer(k, offset, n).msgs)
  {
  }

  /** The loop: pages of at most limit comments, until there are maxTotal or no more (lines 55-143). */
  method FetchUpTo(world: World, root: int, limit0: nat, maxTotal: nat, ghost floods: nat,
                   ghost refused: nat -> set<nat>, ghost comments: map<int, int>)
    returns (result: Result, calls: nat, ghost pages: seq<Served>, ghost requests: seq<Request>)
    requires StopsWaiting(world, floods) && 0 < limit0 <= maxTotal
    ensures Descending(world, pages) && Asked(world, requests, calls, result.Failed?)
    ensures Sized(pages, limit0) || (limit0 > 50 && Sized(pages, 50))
    ensures result.Fetched? ==>
              InOrder(result.replies) && |result.replies| <= maxTotal && Genuine(pages, root, result.replies)
    ensures Honest(world, root, comments) && result.Fetched? ==> Newest(comments, 0, maxTotal, result.replies)
    ensures Answers(world, refused) ==> result.Fetched?
    ensures calls <= floods + 1 + 5 * maxTotal
  {
    hide Descending, Genuine, Collecting, Complete, Honest, Newest, Ids, DistinctIds, InOrder, Answers, StopsWaiting,
         SortReplies, Refused, Sized, Asked;
    calls, pages, requests := 0, [], [];
    AtFirst(world, root, comments, maxTotal);
    NothingAsked(world);
    NothingSized();
    var limit := limit0;
    var out: seq<Reply>, seen: set<int> := [], {};
    var didFallback, offset: nat, invalidRetries, invalidRetriesOffset: int := false, 0, 0, -1;
    ghost var waits, retries := 0, 0;
    RefusedNone(world, refused, offset, calls);
    while |out| < maxTotal
      invariant Collecting(world, root, comments, offset, maxTotal, calls, pages, out, seen)
      invariant |out| == maxTotal ==> Complete(world, root, comments, maxTotal, pages, out)
      invariant 0 < limit <= maxTotal && |out| <= maxTotal
      invariant if didFallback then limit == FALLBACK_LIMIT < limit0 else limit == limit0
      invariant offset == 0 ==> |out| == 0
      invariant Asked(world, requests, calls, false)
      invariant Sized(pages, limit) && (pages == [] ==> |out| == 0)
      invariant 0 <= invalidRetries <= MSG_ID_INVALID_RETRIES
      invariant invalidRetriesOffset != offset ==> invalidRetries == 0
      invariant Refused(world, refused, offset, invalidRetries, calls)
      invariant |pages| <= |out| && 0 <= waits <= floods && waits <= calls
      invariant calls == waits + retries + |pages| + if didFallback then 1 else 0
      invariant |out| == maxTotal ==> invalidRetries == 0
      invariant retries <= MSG_ID_INVALID_RETRIES * |pages| + invalidRetries
      decreases maxTotal - |out|, !didFallback, MSG_ID_INVALID_RETRIES - invalidRetries,
                if calls < floods then floods - calls else 0
    {
      var pageLimit := if maxTotal - |out| < limit then maxTotal - |out| else limit;
      About(world, floods, refused, calls, offset, pageLimit);
      LaterCalls(world, root, comments, offset, maxTotal, calls, calls + 1, pages, out, seen);
      ghost var request := Request(offset, pageLimit);
      AskedMore(world, requests, calls, request);
      if world.cancelled(calls) {
        return Failed, calls, pages, requests;
      }
      var answer := world.answer(calls, offset, pageLimit);
      requests := requests + [request];
      if answer.Page? {
        invalidRetries, invalidRetriesOffset := 0, -1;
        var more;
        ghost var before, from := pages, offset;
        more, offset, out, seen, pages :=
          UsePage(world, root, offset, pageLimit, maxTotal, calls, answer.msgs, out, seen, pages, comments);
        SizedMore(before, Served(calls, from, pageLimit, answer.msgs), limit);
        calls := calls + 1;
        RefusedNone(world, refused, offset, calls);
        if !more {
          break;
        }
        continue;
      }
      RefusedLater(world, refused, offset, invalidRetries, calls);
      ghost var call: nat := calls;
      calls := calls + 1;
      if answer.FloodWait? {
        waits := waits + 1;
        continue;
      }
      if !didFallback && offset == 0 && limit > FALLBACK_LIMIT && answer.LimitInvalid? {
        limit := FALLBACK_LIMIT;
        didFallback := true;
        continue;
      }
      if answer.MsgIdInvalid? {
        if invalidRetriesOffset != offset {
          invalidRetriesOffset := offset;
          invalidRetries := 0;
        }
        RefusedMore(world, refused, offset, invalidRetries, call);
        if invalidRetries < MSG_ID_INVALID_RETRIES {
          invalidRetries := invalidRetries + 1;
          retries := retries + 1;
          continue;
        }
      }
      return Failed, calls, pages, requests;
    }
    CompleteMeans(world, root, comments, maxTotal, pages, out);
    SortingKeeps(pages, root, comments, maxTotal, out);
    result := Fetched(SortReplies(out));
  }

  /** Returns the comments below a root, from old to new, at most as many as asked for, and 200 if none are.  From the
      call numbered floods on the server no longer asks to wait. */
  method FetchRepliesByRoot(world: World, root: int, limit0: int, maxTotal0: int, ghost floods: nat,
                            ghost refused: nat -> set<nat>, ghost comments: map<int, int>)
    returns (result: Result, calls: nat, ghost pages: seq<Served>, ghost requests: seq<Request>)
    requires StopsWaiting(world, floods)
    ensures Descending(world, pages) && Asked(world, requests, calls, result.Failed?)
    ensures var asked := if limit0 > 0 then limit0 else 200;
            var room := if maxTotal0 > 0 then maxTotal0 else 200;
            Sized(pages, if asked < room then asked else room) || (50 < asked && 50 < room && Sized(pages, 50))
    ensures result.Fetched? ==>
              && InOrder(result.replies) && Genuine(pages, root, result.replies)
              && |result.replies| <= (if maxTotal0 > 0 then maxTotal0 else 200)
              && forall i, j :: 0 <= i < j < |result.replies| ==>
                   var a, b := result.replies[i], result.replies[j];
                   a.date < b.date || (a.date == b.date && a.id < b.id)
    ensures Honest(world, root, comments) && root > 0 && result.Fetched? ==>
              && Newest(comments, 0, if maxTotal0 > 0 then maxTotal0 else 200, result.replies)
              && (forall m :: m in result.replies ==> m.id in comments && comments[m.id] == m.date)
              && (|comments| <= (if maxTotal0 > 0 then maxTotal0 else 200) ==>
                    forall id :: id in comments ==> exists m :: m in result.replies && m.id == id)
    ensures root <= 0 && !world.cancelled(0) ==> result == Fetched([]) && calls == 0
    ensures Answers(world, refused) ==> result.Fetched?
    ensures calls <= floods + 1 + 5 * (if maxTotal0 > 0 then maxTotal0 else 200)
  {
    hide Descending, Genuine, Honest, Newest, StopsWaiting, Sized, Asked;
    NothingSized();
    NothingAsked(world);
    AtFirst(world, root, comments, 0);
    if world.cancelled(0) {
      return Failed, 0, [], [];
    }
    if root <= 0 {
      return Fetched([]), 0, [], [];
    }
    var limit, maxTotal := limit0, maxTotal0;
    if limit <= 0 {
      limit := PAGE_SIZE;
    }
    if maxTotal <= 0 {
      maxTotal := MAX_TOTAL;
    }
    if limit > maxTotal {
      limit := maxTotal;
    }
    result, calls, pages, requests := FetchUpTo(world, root, limit, maxTotal, floods, refused, comments);
    if Honest(world, root, comments) && result.Fetched? {
      AllFit(comments, maxTotal, result.replies);
    }
  }

  lemma CompleteMeans(world: World, root: int, comments: map<int, int>, maxTotal: nat, pages: seq<Served>,
                      out: seq<Reply>)
    requires Complete(world, root, comments, maxTotal, pages, out)
    ensures DistinctIds(out) && |out| <= maxTotal && Genuine(pages, root, out) && Descending(world, pages)
    ensures Honest(world, root, comments) ==> Newest(comments, 0, maxTotal, out)
  {
  }

  /** From an honest server every comment is fetched when there is room for all. */
  lemma AllFit(comments: map<int, int>, n: nat, replies: seq<Reply>)
    requires Newest(comments, 0, n, replies)
    ensures forall m :: m in replies ==> m.id in comments && comments[m.id] == m.date
    ensures |comments| <= n ==> forall id :: id in comments ==> exists m :: m in replies && m.id == id
  {
    if |comments| <= n {
      forall id | id in comments
        ensures exists m :: m in replies && m.id == id
      {
        if id !in Ids(replies) {
          IdsSize(replies);
          assert Ids(replies) <= comments.Keys - {id};
          FewerThan(Ids(replies), comments.Keys, id);
        } else {
          var i :| 0 <= i < |replies| && replies[i].id == id;
          assert replies[i] in replies;
        }
      }
    }
  }

  lemma FewerThan(a: set<int>, b: set<int>, x: int)
    requires a <= b - {x} && x in b
    ensures |a| < |b|
  {
    assert b == a + (b - a);
    assert x in b - a;
  }

  lemma {:induction false} IdsSize(replies: seq<Reply>)
    requires DistinctIds(replies)
    ensures |Ids(replies)| == |replies|
  {
    if |replies| > 0 {
      var init, last := replies[..|replies| - 1], replies[|replies| - 1];
      IdsSize(init);
      assert replies == init + [last];
      IdsMore(init, last);
      assert last.id !in Ids(init);
    }
  }
}
