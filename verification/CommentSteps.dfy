/**
 What a single action of the producer, the consumer or an edit worker keeps.

 The invariant of the protocol has three parts, and each is followed through the actions by itself: the
 shape (rows, what the consumer has read and what the producer has found stay in step with one another),
 sending once (a comment is sent successfully at most once, and then no longer up for sending), and
 soundness (a mirrored comment shows its newest text, or an edit is owed to it).  Beside them, the number
 of messages at the target that mirror a comment is followed.
 */
module CommentSteps {
  import opened CommentRow
  import opened CommentState

  // ---- The shape ----

  /** Rewriting a row, or giving it up while pending, disturbs nobody. */
  lemma PutKeepsShape(s: State, id: nat, r: Row)
    requires Shape(s) && id in s.rows && r.target == s.rows[id].target
    requires r.status == s.rows[id].status || (s.rows[id].status.Pending? && r.status.Failed?)
    ensures Shape(Put(s, id, r))
  {
  }

  lemma InsertKeepsShape(s: State, id: nat, root: nat, group: int, text: string)
    requires Shape(s) && id > 0
    ensures Shape(Next(s, Insert(id, root, group, text)))
  {
  }

  /** Committing the item in flight under its own target. */
  lemma CommitKeepsShape(s: State, consumer: Consumer)
    requires Shape(s) && InFlight(s).Some? && (consumer.Scanning? || consumer.OwesEdit?)
    ensures Shape(MarkSuccess(s, InFlight(s).value.id, s.consumer.target).(consumer := consumer))
  {
  }

  lemma SendKeepsShape(s: State, target: nat)
    requires Shape(s) && Enabled(s, SendOk(target))
    ensures Shape(Next(s, SendOk(target)))
  {
  }

  lemma SendLostKeepsShape(s: State, target: nat)
    requires Shape(s) && Enabled(s, SendLost(target))
    ensures Shape(Next(s, SendLost(target)))
  {
  }

  lemma RunEditKeepsConsumer(s: State, id: nat)
    requires RowsWellFormed(s) && ConsumerWellFormed(s) && Enabled(s, RunEdit(id))
    ensures ConsumerWellFormed(Next(s, RunEdit(id)))
  {
  }

  lemma RunEditKeepsShape(s: State, id: nat)
    requires Shape(s) && Enabled(s, RunEdit(id))
    ensures Shape(Next(s, RunEdit(id)))
  {
    RunEditKeepsConsumer(s, id);
    hide ConsumerWellFormed;
  }

  lemma DropHeadKeepsShape(s: State)
    requires Shape(s) && s.batch != [] && s.consumer.Scanning?
    ensures Shape(s.(batch := s.batch[1..]))
  {
  }

  lemma ScanKeepsShape(s: State, root: nat, ids: seq<nat>)
    requires Shape(s) && Enabled(s, Scan(root, ids))
    ensures Shape(Next(s, Scan(root, ids)))
  {
  }

  lemma EditPendingKeepsShape(s: State, id: nat, text: string)
    requires Shape(s) && s.producer.Ready? && id > 0
    ensures Shape(Next(s, EditPending(id, text)))
  {
    var seen := s.(latest := s.latest[id := text], raced := if id in s.rows then s.raced - {id} else s.raced);
    assert Shape(seen);
    if IsPending(s, id) {
      PutKeepsShape(seen, id, s.rows[id].(text := text));
    }
  }

  lemma EditRewriteKeepsShape(s: State)
    requires Shape(s) && s.producer.Selected?
    ensures Shape(Next(s, EditRewrite))
  {
    PutKeepsShape(s, s.producer.id, s.rows[s.producer.id].(text := s.producer.text));
  }

  lemma FailKeepsShape(s: State, id: nat)
    requires Shape(s)
    ensures Shape(MarkFailed(s, id))
  {
    if IsPending(s, id) {
      PutKeepsShape(s, id, s.rows[id].(status := Failed));
    }
  }

  lemma RejectKeepsShape(s: State)
    requires Shape(s) && Enabled(s, Reject)
    ensures Shape(Next(s, Reject))
  {
    FailKeepsShape(s, s.batch[0].id);
    DropHeadKeepsShape(MarkFailed(s, s.batch[0].id));
  }

  lemma CasKeepsShape(s: State)
    requires Shape(s) && s.consumer.Sent?
    ensures Shape(Next(s, Cas))
  {
    CommitKeepsShape(s, Scanning);
  }

  lemma FallbackKeepsShape(s: State)
    requires Shape(s) && s.consumer.CasMissed?
    ensures Shape(Next(s, Fallback))
  {
    CommitKeepsShape(s, OwesEdit(s.consumer.item.id));
  }

  lemma EditSelectKeepsShape(s: State)
    requires Shape(s) && s.producer.NotPending?
    ensures Shape(Next(s, EditSelect))
  {
  }

  lemma EditSubmitKeepsShape(s: State)
    requires Shape(s) && s.producer.Rewritten?
    ensures Shape(Next(s, EditSubmit))
  {
  }

  lemma LeavingKeepsShape(s: State, a: Action)
    requires Shape(s) && Enabled(s, a) && (a.Stop? || a.SubmitEdit?)
    ensures Shape(Next(s, a))
  {
  }

  lemma NextKeepsShape(s: State, a: Action)
    requires Shape(s) && Enabled(s, a)
    ensures Shape(Next(s, a))
  {
    hide Shape;
    match a
    case Insert(id, root, group, text) => InsertKeepsShape(s, id, root, group, text);
    case EditPending(id, text) => EditPendingKeepsShape(s, id, text);
    case EditRewrite => EditRewriteKeepsShape(s);
    case BlockEdit(id) => FailKeepsShape(s, id);
    case Scan(root, ids) => ScanKeepsShape(s, root, ids);
    case Reject => RejectKeepsShape(s);
    case SendOk(target) => SendKeepsShape(s, target);
    case SendError => DropHeadKeepsShape(s);
    case SendLost(target) => SendLostKeepsShape(s, target);
    case Cas => CasKeepsShape(s);
    case Fallback => FallbackKeepsShape(s);
    case RunEdit(id) => RunEditKeepsShape(s, id);
    case EditSelect => EditSelectKeepsShape(s);
    case EditSubmit => EditSubmitKeepsShape(s);
    case Stop => LeavingKeepsShape(s, a);
    case SubmitEdit => LeavingKeepsShape(s, a);
  }

  // ---- Sending once ----

  lemma ProducerKeepsSentOnce(s: State, a: Action, id: nat)
    requires Shape(s) && SentOnceOnly(s, id) && Enabled(s, a) && ByProducer(a)
    ensures SentOnceOnly(Next(s, a), id)
  {
  }

  lemma SendKeepsSentOnce(s: State, target: nat, id: nat)
    requires Shape(s) && SentOnceOnly(s, id) && Enabled(s, SendOk(target))
    ensures SentOnceOnly(Next(s, SendOk(target)), id)
  {
  }

  /** The end of a send. */
  lemma CommitKeepsSentOnce(s: State, a: Action, id: nat)
    requires Shape(s) && SentOnceOnly(s, id) && Enabled(s, a) && (a.Cas? || a.Fallback?)
    ensures SentOnceOnly(Next(s, a), id)
  {
  }

  lemma ConsumerKeepsSentOnce(s: State, a: Action, id: nat)
    requires Shape(s) && SentOnceOnly(s, id) && Enabled(s, a)
    requires !ByProducer(a) && !a.SendOk? && !a.Cas? && !a.Fallback?
    ensures SentOnceOnly(Next(s, a), id)
  {
  }

  lemma SentOnceOnlyStays(s: State, a: Action, id: nat)
    requires Shape(s) && SentOnceOnly(s, id) && Enabled(s, a)
    ensures SentOnceOnly(Next(s, a), id)
  {
    hide Shape, SentOnceOnly, Next;
    if ByProducer(a) {
      ProducerKeepsSentOnce(s, a, id);
    } else if a.SendOk? {
      SendKeepsSentOnce(s, a.target, id);
    } else if a.Cas? || a.Fallback? {
      CommitKeepsSentOnce(s, a, id);
    } else {
      ConsumerKeepsSentOnce(s, a, id);
    }
  }

  lemma NextKeepsSentOnce(s: State, a: Action)
    requires Shape(s) && SentOnce(s) && Enabled(s, a)
    ensures SentOnce(Next(s, a))
  {
    hide Shape, Next, Enabled;
    forall id | id in Next(s, a).sent
      ensures SentOnceOnly(Next(s, a), id)
    {
      SentOnceOnlyStays(s, a, id);
    }
  }

  // ---- Messages at the target ----

  /** A message of its own for a send, whatever was reported of it. */
  lemma SendIsCounted(s: State, a: Action, id: nat)
    requires Enabled(s, a) && (a.SendOk? || a.SendLost?)
    ensures |CopiesOf(Next(s, a).mirror, id)| == |CopiesOf(s.mirror, id)| + if s.batch[0].id == id then 1 else 0
  {
    assert Next(s, a).mirror == s.mirror[a.target := Copy(s.batch[0].id, s.batch[0].text)];
    hide Next, Enabled;
    OneMoreCopy(s.mirror, a.target, Copy(s.batch[0].id, s.batch[0].text), id);
  }

  lemma OneMoreCopy(mirror: map<nat, Copy>, target: nat, copy: Copy, id: nat)
    requires target !in mirror
    ensures |CopiesOf(mirror[target := copy], id)| == |CopiesOf(mirror, id)| + if copy.source == id then 1 else 0
  {
    var added := if copy.source == id then {target} else {};
    assert CopiesOf(mirror[target := copy], id) == CopiesOf(mirror, id) + added;
  }

  lemma NextKeepsCounted(s: State, a: Action)
    requires RowsWellFormed(s) && Counted(s) && Enabled(s, a)
    ensures Counted(Next(s, a))
  {
    forall id: nat
      ensures |CopiesOf(Next(s, a).mirror, id)| == Next(s, a).sent[id] + Next(s, a).lost[id]
    {
      if a.SendOk? || a.SendLost? {
        SendIsCounted(s, a, id);
      } else {
        OthersSendNothing(s, a, id);
      }
    }
  }

  lemma OthersSendNothing(s: State, a: Action, id: nat)
    requires RowsWellFormed(s) && Enabled(s, a) && !a.SendOk? && !a.SendLost?
    ensures CopiesOf(Next(s, a).mirror, id) == CopiesOf(s.mirror, id)
    ensures Next(s, a).sent == s.sent && Next(s, a).lost == s.lost
  {
    hide CopiesOf;
    if a.RunEdit? {
      EditAddsNoCopy(s, a.id, id);
    } else if ByProducer(a) {
      hide RowsWellFormed;
    }
  }

  lemma EditAddsNoCopy(s: State, done: nat, id: nat)
    requires RowsWellFormed(s) && Enabled(s, RunEdit(done))
    ensures CopiesOf(Next(s, RunEdit(done)).mirror, id) == CopiesOf(s.mirror, id)
  {
  }

  // ---- Soundness ----

  /** The edit selects as pending a row whose text is not the edit's. */
  ghost predicate SelectsStale(s: State, a: Action, id: nat) {
    && a.EditSelect? && s.producer.NotPending? && s.producer.id == id
    && IsPending(s, id) && !Agrees(s, id, s.producer.text)
  }

  lemma EditKeepsSound(s: State, a: Action, id: nat)
    requires Shape(s) && Enabled(s, a) && (a.EditSelect? || a.EditRewrite? || a.EditSubmit?)
    requires Sound(s, id) && !SelectsStale(s, a, id)
    ensures Sound(Next(s, a), id)
  {
  }

  /** A comment is queued or given up, or another one's edit begins. */
  lemma ArrivalKeepsSound(s: State, a: Action, id: nat)
    requires Shape(s) && Enabled(s, a) && (a.Insert? || a.EditPending? || a.BlockEdit?)
    requires Sound(s, id)
    ensures Sound(Next(s, a), id)
  {
  }

  lemma CasKeepsSound(s: State, id: nat)
    requires Shape(s) && s.consumer.Sent? && Sound(s, id)
    ensures Sound(Next(s, Cas), id)
  {
  }

  lemma FallbackKeepsSound(s: State, id: nat)
    requires Shape(s) && s.consumer.CasMissed? && Sound(s, id)
    ensures Sound(Next(s, Fallback), id)
  {
  }

  lemma SendKeepsSound(s: State, target: nat, id: nat)
    requires Shape(s) && Enabled(s, SendOk(target)) && Sound(s, id)
    ensures Sound(Next(s, SendOk(target)), id)
  {
  }

  lemma SendLostKeepsSound(s: State, target: nat, id: nat)
    requires Shape(s) && Enabled(s, SendLost(target)) && Sound(s, id)
    ensures Sound(Next(s, SendLost(target)), id)
  {
  }

  lemma RunEditKeepsSound(s: State, done: nat, id: nat)
    requires Shape(s) && Enabled(s, RunEdit(done)) && Sound(s, id)
    ensures Sound(Next(s, RunEdit(done)), id)
  {
  }

  lemma ConsumerKeepsSound(s: State, a: Action, id: nat)
    requires Shape(s) && Enabled(s, a) && !ByProducer(a)
    requires Sound(s, id)
    ensures Sound(Next(s, a), id)
  {
    match a {
      case SendOk(target) => SendKeepsSound(s, target, id);
      case SendLost(target) => SendLostKeepsSound(s, target, id);
      case RunEdit(done) => RunEditKeepsSound(s, done, id);
      case Cas => CasKeepsSound(s, id);
      case Fallback => FallbackKeepsSound(s, id);
      case Reject => RejectKeepsSound(s, id);
      case _ => ScanKeepsSound(s, a, id);
    }
  }

  lemma RejectKeepsSound(s: State, id: nat)
    requires Shape(s) && Enabled(s, Reject) && Sound(s, id)
    ensures Sound(Next(s, Reject), id)
  {
  }

  /** Reading a batch, leaving it, or handing an edit over. */
  lemma ScanKeepsSound(s: State, a: Action, id: nat)
    requires Shape(s) && Enabled(s, a)
    requires a.Scan? || a.Stop? || a.SendError? || a.SubmitEdit?
    requires Sound(s, id)
    ensures Sound(Next(s, a), id)
  {
  }

  lemma SoundStays(s: State, a: Action, id: nat)
    requires Shape(s) && Enabled(s, a) && Sound(s, id) && !SelectsStale(s, a, id)
    ensures Sound(Next(s, a), id)
  {
    hide Shape, Sound, SelectsStale, Next;
    if !ByProducer(a) {
      ConsumerKeepsSound(s, a, id);
    } else if a.Insert? || a.EditPending? || a.BlockEdit? {
      ArrivalKeepsSound(s, a, id);
    } else {
      EditKeepsSound(s, a, id);
    }
  }

  /** An edit event of a comment that is queued makes it sound, whatever became of earlier edits. */
  lemma EditMakesSound(s: State, id: nat, text: string)
    requires Shape(s) && s.producer.Ready? && id > 0 && id in s.rows
    ensures Sound(Next(s, EditPending(id, text)), id)
  {
  }

  // ---- Status ----

  lemma ProducerKeepsStatus(s: State, a: Action, id: nat)
    requires ProducerWellFormed(s) && Enabled(s, a) && ByProducer(a) && id in s.rows
    ensures id in Next(s, a).rows
    ensures !s.rows[id].status.Pending? ==>
              Next(s, a).rows[id].status == s.rows[id].status && Next(s, a).rows[id].target == s.rows[id].target
  {
  }

  lemma ConsumerKeepsStatus(s: State, a: Action, id: nat)
    requires Enabled(s, a) && !ByProducer(a) && id in s.rows
    ensures id in Next(s, a).rows
    ensures !s.rows[id].status.Pending? ==>
              Next(s, a).rows[id].status == s.rows[id].status && Next(s, a).rows[id].target == s.rows[id].target
  {
  }

  // ---- New rows ----

  /** Only an insert adds a row, of a comment without edits or whose edit is under way. */
  lemma NewRowIsInserted(s: State, a: Action, id: nat)
    requires Shape(s) && Enabled(s, a) && id !in s.rows && id in Next(s, a).rows
    ensures a.Insert? && a.id == id && Next(s, a).raced == s.raced
  {
  }

  lemma InsertIsSound(s: State, id: nat, root: nat, group: int, text: string)
    requires Enabled(s, Insert(id, root, group, text)) && id !in s.rows && (id in s.latest ==> BeingEdited(s, id))
    requires ProducerWellFormed(s)
    ensures Sound(Next(s, Insert(id, root, group, text)), id)
  {
  }

  lemma NewRowIsSound(s: State, a: Action, id: nat)
    requires Invariant(s) && Enabled(s, a) && id !in s.rows && id in Next(s, a).rows && id !in Next(s, a).raced
    ensures Sound(Next(s, a), id)
  {
    NewRowIsInserted(s, a, id);
    hide Sound, Next, BeingEdited, RowsWellFormed, ConsumerWellFormed, ProducerWellFormed, LatestKnown, SentOnce;
    InsertIsSound(s, id, a.root, a.group, a.text);
  }

  lemma NextIsSound(s: State, a: Action, id: nat)
    requires Invariant(s) && Enabled(s, a) && id in Next(s, a).rows && id !in Next(s, a).raced
    ensures Sound(Next(s, a), id)
  {
    if id !in s.rows {
      NewRowIsSound(s, a, id);
    } else if a.EditPending? && a.id == id {
      EditMakesSound(s, id, a.text);
    } else {
      RacesAreNoted(s, a, id);
      SoundStays(s, a, id);
    }
  }

  lemma RacesAreNoted(s: State, a: Action, id: nat)
    requires Enabled(s, a) && id in s.rows && id !in Next(s, a).raced && !(a.EditPending? && a.id == id)
    ensures id !in s.raced && !SelectsStale(s, a, id)
  {
  }

  lemma UnqueuedIsKnown(s: State, a: Action, id: nat)
    requires ProducerWellFormed(s) && (id in s.latest && id !in s.rows && id !in s.raced ==> BeingEdited(s, id))
    requires Enabled(s, a) && id in Next(s, a).latest && id !in Next(s, a).rows && id !in Next(s, a).raced
    ensures BeingEdited(Next(s, a), id)
  {
  }
}
