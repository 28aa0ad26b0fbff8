/**
 Mirroring comments while they are being edited.

 A producer inserts and edits queue rows (internal/engine/comment.go, producer.go); one consumer at a
 time sends pending rows and commits them with a compare-and-set on the row's update time
 (internal/engine/comment_pending_send.go); edit workers bring mirrored comments up to date
 (internal/engine/comment_edit_worker.go).  Every database statement, every accepted send and every
 edit job is one atomic action, and the actions of the three interleave freely.
 */
module CommentState {
  import opened Options
  import opened AscendingIds
  import opened CommentRow

  /** A row as the consumer read it. */
  datatype Item = Item(id: nat, text: string, version: nat)

  /** A mirrored comment, with the source comment it mirrors. */
  datatype Copy = Copy(source: nat, text: string)

  datatype Consumer =
    | Scanning
    | Sent(item: Item, target: nat)
    | CasMissed(item: Item, target: nat)
    | OwesEdit(id: nat)

  datatype Producer =
    | Ready
    | NotPending(id: nat, text: string, existed: bool)
    | Selected(id: nat, text: string, status: Status, target: nat)
    | Rewritten(id: nat, status: Status, target: nat)

  /** rows: the queue; mirror: the mirrored comments by target id; jobs: submitted edits, by
      source id; sent: source ids of successful sends; lost: source ids of sends the target took although an
      error was reported; latest: the newest text of each comment, from its last
      edit event, or else as it was first queued; raced: ids whose last edit found no pending row and then
      selected none or a pending one. */
  datatype State = State(
    rows: map<nat, Row>,
    mirror: map<nat, Copy>,
    clock: nat,
    batch: seq<Item>,
    consumer: Consumer,
    producer: Producer,
    jobs: multiset<nat>,
    sent: multiset<nat>,
    lost: multiset<nat>,
    latest: map<nat, string>,
    raced: set<nat>)

  datatype Action =
    | Insert(id: nat, root: nat, group: int, text: string)
    | EditPending(id: nat, text: string)
    | EditSelect
    | EditRewrite
    | EditSubmit
    | BlockEdit(id: nat)
    | Scan(root: nat, ids: seq<nat>)
    | Stop
    | Reject
    | SendOk(target: nat)
    | SendError
    | SendLost(target: nat)
    | Cas
    | Fallback
    | SubmitEdit
    | RunEdit(id: nat)

  const START := State(map[], map[], 0, [], Scanning, Ready, multiset{}, multiset{}, multiset{}, map[], {})

  predicate Blank(text: string) {
    forall i :: 0 <= i < |text| ==> text[i] in " \t\n\r"
  }

  predicate Mirrored(r: Row) {
    r.status == Success && r.target > 0
  }

  predicate Enabled(s: State, a: Action) {
    match a
    case Insert(id, _, _, _) => id > 0
    case EditPending(id, _) => s.producer.Ready? && id > 0
    case EditSelect => s.producer.NotPending?
    case EditRewrite => s.producer.Selected?
    case EditSubmit => s.producer.Rewritten?
    case BlockEdit(_) => s.producer.Ready?
    case Scan(root, ids) =>
      && s.consumer.Scanning? && s.batch == []
      && Ascending(ids) && forall i :: 0 <= i < |ids| ==> IsPending(s, ids[i]) && s.rows[ids[i]].root == root
    case Stop => s.consumer.Scanning?
    case Reject => s.consumer.Scanning? && s.batch != []
    case SendOk(target) => s.consumer.Scanning? && s.batch != [] && target > 0 && target !in s.mirror
    case SendError => s.consumer.Scanning? && s.batch != []
    case SendLost(target) => s.consumer.Scanning? && s.batch != [] && target > 0 && target !in s.mirror
    case Cas => s.consumer.Sent?
    case Fallback => s.consumer.CasMissed?
    case SubmitEdit => s.consumer.OwesEdit?
    case RunEdit(id) => id in s.jobs
  }

  predicate ByProducer(a: Action) {
    a.Insert? || a.EditPending? || a.EditSelect? || a.EditRewrite? || a.EditSubmit? || a.BlockEdit?
  }

  predicate IsPending(s: State, id: nat) {
    id in s.rows && s.rows[id].status.Pending?
  }

  /** An UPDATE of one row. */
  function Put(s: State, id: nat, r: Row): State {
    s.(rows := s.rows[id := r.(version := s.clock)], clock := s.clock + 1)
  }

  function MarkFailed(s: State, id: nat): State {
    if IsPending(s, id) then Put(s, id, s.rows[id].(status := Failed)) else s
  }

  function MarkSuccess(s: State, id: nat, target: nat): State {
    if IsPending(s, id) then Put(s, id, s.rows[id].(status := Success, target := target)) else s
  }

  function Next(s: State, a: Action): State
    requires Enabled(s, a)
  {
    match a
    case Insert(id, root, group, text) =>
      if id in s.rows then s
      else
        Put(s, id, Row(root, group, Pending, 0, text, s.clock)).
          (latest := if id in s.latest then s.latest else s.latest[id := text])
    case EditPending(id, text) =>
      var seen := s.(latest := s.latest[id := text], raced := if id in s.rows then s.raced - {id} else s.raced);
      if IsPending(s, id) then Put(seen, id, s.rows[id].(text := text))
      else seen.(producer := NotPending(id, text, id in s.rows))
    case EditSelect =>
      var NotPending(id, text, _) := s.producer;
      if id !in s.rows then s.(producer := Ready, raced := s.raced + {id})
      else
        s.(producer := Selected(id, text, s.rows[id].status, s.rows[id].target),
           raced := if s.rows[id].status.Pending? then s.raced + {id} else s.raced)
    case EditRewrite =>
      var Selected(id, text, status, target) := s.producer;
      var written := if id in s.rows then Put(s, id, s.rows[id].(text := text)) else s;
      written.(producer := Rewritten(id, status, target))
    case EditSubmit =>
      var Rewritten(id, status, target) := s.producer;
      s.(producer := Ready, jobs := if status.Success? && target > 0 then s.jobs + multiset{id} else s.jobs)
    case BlockEdit(id) => MarkFailed(s, id)
    case Scan(_, ids) =>
      s.(batch := seq(|ids|, i requires 0 <= i < |ids| && ids[i] in s.rows =>
                        Item(ids[i], s.rows[ids[i]].text, s.rows[ids[i]].version)))
    case Stop => s.(batch := [])
    case Reject => MarkFailed(s, s.batch[0].id).(batch := s.batch[1..])
    case SendOk(target) =>
      s.(batch := s.batch[1..], mirror := s.mirror[target := Copy(s.batch[0].id, s.batch[0].text)],
         sent := s.sent + multiset{s.batch[0].id}, consumer := Sent(s.batch[0], target))
    case SendError => s.(batch := s.batch[1..])
    case SendLost(target) =>
      s.(batch := s.batch[1..], mirror := s.mirror[target := Copy(s.batch[0].id, s.batch[0].text)],
         lost := s.lost + multiset{s.batch[0].id})
    case Cas =>
      var Sent(item, target) := s.consumer;
      if IsPending(s, item.id) && s.rows[item.id].version == item.version
      then MarkSuccess(s, item.id, target).(consumer := Scanning)
      else s.(consumer := CasMissed(item, target))
    case Fallback =>
      var CasMissed(item, target) := s.consumer;
      MarkSuccess(s, item.id, target).(consumer := OwesEdit(item.id))
    case SubmitEdit =>
      s.(consumer := Scanning, jobs := s.jobs + multiset{s.consumer.id})
    case RunEdit(id) =>
      var done := s.(jobs := s.jobs - multiset{id});
      if id in s.rows && Mirrored(s.rows[id]) && !Blank(s.rows[id].text)
      then done.(mirror := s.mirror[s.rows[id].target := Copy(id, s.rows[id].text)])
      else done
  }

  predicate Feasible(s: State, actions: seq<Action>)
    decreases |actions|
  {
    |actions| == 0 || (Enabled(s, actions[0]) && Feasible(Next(s, actions[0]), actions[1..]))
  }

  function After(s: State, actions: seq<Action>): State
    requires Feasible(s, actions)
    decreases |actions|
  {
    if |actions| == 0 then s else After(Next(s, actions[0]), actions[1..])
  }

  // ---- What every interleaving keeps ----

  /** The item the consumer has sent but not yet committed. */
  function InFlight(s: State): Option<Item> {
    match s.consumer
    case Sent(item, _) => Some(item)
    case CasMissed(item, _) => Some(item)
    case _ => None
  }

  /** Rows carry a target only when successful, the target mirrors that very row, and times are past. */
  ghost predicate RowsWellFormed(s: State) {
    && (forall id :: id in s.rows ==> id > 0 && s.rows[id].version < s.clock)
    && (forall id :: id in s.rows && s.rows[id].target > 0 ==>
          s.rows[id].status.Success? && s.rows[id].target in s.mirror && s.mirror[s.rows[id].target].source == id)
  }

  /** What the consumer read is an earlier or the current state of the row. */
  ghost predicate ReadFrom(s: State, item: Item) {
    && item.id in s.rows
    && item.version <= s.rows[item.id].version
    && (item.version == s.rows[item.id].version ==> s.rows[item.id].text == item.text)
  }

  ghost predicate ConsumerWellFormed(s: State) {
    && (forall i :: 0 <= i < |s.batch| ==> ReadFrom(s, s.batch[i]) && !s.rows[s.batch[i].id].status.Success?)
    && (forall i, j :: 0 <= i < j < |s.batch| ==> s.batch[i].id != s.batch[j].id)
    && (InFlight(s).Some? ==>
          && ReadFrom(s, InFlight(s).value) && !s.rows[InFlight(s).value.id].status.Success?
          && (forall i :: 0 <= i < |s.batch| ==> s.batch[i].id != InFlight(s).value.id)
          && s.consumer.target > 0 && s.consumer.target in s.mirror
          && s.mirror[s.consumer.target].source == InFlight(s).value.id)
    && (s.consumer.Sent? ==> s.mirror[s.consumer.target].text == s.consumer.item.text)
  }

  /** Whatever status a row had when the producer found it settled, it still has. */
  ghost predicate ProducerWellFormed(s: State) {
    match s.producer
    case Ready => true
    case NotPending(id, _, existed) => existed ==> id in s.rows && !s.rows[id].status.Pending?
    case Selected(id, _, status, target) =>
      id in s.rows && (status.Pending? ==> id in s.raced)
      && (!status.Pending? ==> s.rows[id].status == status && s.rows[id].target == target)
    case Rewritten(id, status, target) =>
      id in s.rows && (status.Pending? ==> id in s.raced)
      && (!status.Pending? ==> s.rows[id].status == status && s.rows[id].target == target)
  }

  /** A comment was sent at most once, and once sent it is no longer up for sending. */
  ghost predicate SentOnceOnly(s: State, id: nat) {
    id in s.sent ==>
      && s.sent[id] == 1
      && id in s.rows
      && (s.rows[id].status.Pending? ==> InFlight(s).Some? && InFlight(s).value.id == id)
      && (forall k :: 0 <= k < |s.batch| ==> s.batch[k].id != id)
  }

  ghost predicate SentOnce(s: State) {
    forall id :: id in s.sent ==> SentOnceOnly(s, id)
  }

  /** The producer is in the middle of an edit of the comment. */
  predicate BeingEdited(s: State, id: nat) {
    (s.producer.NotPending? || s.producer.Selected?) && s.producer.id == id
  }

  /** An edit of the comment is queued, or somebody is about to queue one. */
  predicate EditOwed(s: State, id: nat) {
    || id in s.jobs
    || s.consumer == OwesEdit(id)
    || (s.producer.NotPending? && s.producer.id == id)
    || ((s.producer.Selected? || s.producer.Rewritten?)
        && s.producer.id == id && s.producer.status.Success? && s.producer.target > 0)
  }

  /** A mirrored comment shows its newest text, or an edit is owed (blank texts are never pushed). */
  ghost predicate Settled(s: State, id: nat) {
    id in s.rows && Mirrored(s.rows[id]) && s.rows[id].target in s.mirror && id in s.latest ==>
      || Blank(s.latest[id])
      || s.mirror[s.rows[id].target].text == s.latest[id]
      || EditOwed(s, id)
  }

  /** The comment's copy, sent already, shows the text. */
  ghost predicate Shows(s: State, id: nat, text: string) {
    || (InFlight(s).Some? && InFlight(s).value.id == id
        && s.consumer.target in s.mirror && s.mirror[s.consumer.target].text == text)
    || (id in s.rows && Mirrored(s.rows[id])
        && s.rows[id].target in s.mirror && s.mirror[s.rows[id].target].text == text)
  }

  /** Mirroring the row as it stands shows the text: the row holds it, or holds a blank one, which is never
      pushed, while the copy shows it already. */
  ghost predicate Agrees(s: State, id: nat, text: string)
    requires id in s.rows
  {
    s.rows[id].text == text || (Blank(s.rows[id].text) && Shows(s, id, text))
  }

  /** The comment is settled, and its row holds the newest text unless an edit is on its way to it; an edit
      that takes its row for pending changes nothing about what is shown. */
  ghost predicate Sound(s: State, id: nat) {
    && id in s.rows && id in s.latest && Settled(s, id)
    && (BeingEdited(s, id) || s.rows[id].text == s.latest[id])
    && (s.producer.Selected? && s.producer.id == id && s.producer.status.Pending? ==>
          s.rows[id].status.Failed? || Agrees(s, id, s.producer.text))
  }

  ghost predicate Converging(s: State) {
    && (forall id :: id in s.rows && id !in s.raced ==> Sound(s, id))
    && (forall id :: id in s.latest && id !in s.rows && id !in s.raced ==> BeingEdited(s, id))
  }

  ghost predicate LatestKnown(s: State) {
    && (forall id :: id in s.rows ==> id in s.latest)
    && (s.producer.NotPending? || s.producer.Selected? ==>
          s.producer.id > 0 && s.producer.id in s.latest && s.latest[s.producer.id] == s.producer.text)
  }

  ghost predicate Shape(s: State) {
    RowsWellFormed(s) && ConsumerWellFormed(s) && ProducerWellFormed(s) && LatestKnown(s)
  }

  /** The messages at the target that mirror a comment. */
  function CopiesOf(mirror: map<nat, Copy>, id: nat): set<nat> {
    set t | t in mirror && mirror[t].source == id
  }

  /** They are its successful sends, and those the target took in spite of an error. */
  ghost predicate Counted(s: State) {
    forall id :: |CopiesOf(s.mirror, id)| == s.sent[id] + s.lost[id]
  }

  ghost predicate Invariant(s: State) {
    Shape(s) && SentOnce(s) && Converging(s)
  }
}
