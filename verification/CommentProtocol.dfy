/**
 What every interleaving of producer, consumer and edit workers keeps, and what it comes to
 (internal/engine/comment.go, comment_pending_send.go, comment_edit_worker.go).
 */
module CommentProtocol {
  import opened CommentState
  import opened CommentSteps

  // ---- One action ----

  lemma NextKeepsInvariant(s: State, a: Action)
    requires Invariant(s) && Enabled(s, a)
    ensures Invariant(Next(s, a))
  {
    NextKeepsShape(s, a);
    NextKeepsSentOnce(s, a);
    hide ProducerWellFormed, SentOnce, Sound, BeingEdited, Next, Enabled;
    forall id | id in Next(s, a).rows && id !in Next(s, a).raced
      ensures Sound(Next(s, a), id)
    {
      NextIsSound(s, a, id);
    }
    forall id | id in Next(s, a).latest && id !in Next(s, a).rows && id !in Next(s, a).raced
      ensures BeingEdited(Next(s, a), id)
    {
      UnqueuedIsKnown(s, a, id);
    }
  }

  /** A row never disappears, and success, failure and the target are final. */
  lemma StatusIsFinal(s: State, a: Action, id: nat)
    requires Shape(s) && Enabled(s, a) && id in s.rows
    ensures id in Next(s, a).rows
    ensures !s.rows[id].status.Pending? ==>
              Next(s, a).rows[id].status == s.rows[id].status && Next(s, a).rows[id].target == s.rows[id].target
  {
    if ByProducer(a) {
      ProducerKeepsStatus(s, a, id);
    } else {
      hide Shape;
      ConsumerKeepsStatus(s, a, id);
    }
  }

  /** An edit event clears the mark of an earlier race if it finds its comment queued; the mark is set exactly by a
      SELECT that finds no row or a pending one. */
  lemma RacesAreExact(s: State, a: Action, id: nat)
    requires Enabled(s, a)
    ensures id in Next(s, a).raced <==>
            if a.EditPending? && a.id == id && id in s.rows then false
            else if a.EditSelect? && s.producer.id == id && (id !in s.rows || s.rows[id].status.Pending?) then true
            else id in s.raced
  {
  }

  /** Edits are queued by a producer that found its row successful with a target, and by a consumer whose
      compare-and-set missed; a worker takes one. */
  lemma EditsAreQueued(s: State, a: Action, id: nat)
    requires Enabled(s, a)
    ensures Next(s, a).jobs[id] ==
            if a.EditSubmit? && s.producer.id == id && s.producer.status.Success? && s.producer.target > 0 then
              s.jobs[id] + 1
            else if a.SubmitEdit? && s.consumer.id == id then s.jobs[id] + 1
            else if a == RunEdit(id) then s.jobs[id] - 1
            else s.jobs[id]
  {
  }

  /** A worker shows the text of a mirrored row at its target, unless it is nothing but white space, and changes nothing
      else there. */
  lemma EditShowsTheRow(s: State, id: nat)
    requires Enabled(s, RunEdit(id))
    ensures var next := Next(s, RunEdit(id));
            && next.rows == s.rows && next.consumer == s.consumer && next.producer == s.producer
            && if && id in s.rows && s.rows[id].status.Success? && s.rows[id].target > 0
                  && exists i :: 0 <= i < |s.rows[id].text| && s.rows[id].text[i] !in {' ', '\t', '\n', '\r'}
               then next.mirror == s.mirror[s.rows[id].target := Copy(id, s.rows[id].text)]
               else next.mirror == s.mirror
  {
    assert " \t\n\r"[0] == ' ' && " \t\n\r"[1] == '\t' && " \t\n\r"[2] == '\n' && " \t\n\r"[3] == '\r';
  }

  // ---- Whole runs ----

  lemma {:induction false} AfterKeepsInvariant(s: State, actions: seq<Action>)
    requires Invariant(s) && Feasible(s, actions)
    ensures Invariant(After(s, actions))
    decreases |actions|
  {
    if |actions| > 0 {
      NextKeepsInvariant(s, actions[0]);
      AfterKeepsInvariant(Next(s, actions[0]), actions[1..]);
    }
  }

  lemma {:induction false} AfterKeepsCounted(s: State, actions: seq<Action>)
    requires Invariant(s) && Counted(s) && Feasible(s, actions)
    ensures Counted(After(s, actions))
    decreases |actions|
  {
    if |actions| > 0 {
      NextKeepsInvariant(s, actions[0]);
      NextKeepsCounted(s, actions[0]);
      hide Counted, Invariant;
      AfterKeepsCounted(Next(s, actions[0]), actions[1..]);
    }
  }

  lemma NothingAtTheStart()
    ensures Invariant(START) && Counted(START)
  {
    forall id: nat
      ensures CopiesOf(START.mirror, id) == {}
    {
    }
  }

  lemma {:induction false} StatusStaysFinal(s: State, actions: seq<Action>, id: nat)
    requires Invariant(s) && Feasible(s, actions) && id in s.rows
    ensures id in After(s, actions).rows
    ensures !s.rows[id].status.Pending? ==>
              && After(s, actions).rows[id].status == s.rows[id].status
              && After(s, actions).rows[id].target == s.rows[id].target
    decreases |actions|
  {
    if |actions| > 0 {
      StatusIsFinal(s, actions[0], id);
      NextKeepsInvariant(s, actions[0]);
      StatusStaysFinal(Next(s, actions[0]), actions[1..], id);
    }
  }

  /** Over every interleaving, no comment is sent successfully twice, and the target holds a message for each
      successful send and for each one it took in spite of an error; a row has a target only once it is
      successful, and two rows never share one. */
  lemma SentAtMostOnce(actions: seq<Action>)
    requires Feasible(START, actions)
    ensures var s := After(START, actions);
            && (forall id :: s.sent[id] <= 1 && |CopiesOf(s.mirror, id)| == s.sent[id] + s.lost[id])
            && (forall id :: id in s.rows && s.rows[id].target > 0 ==> s.rows[id].status.Success?)
            && (forall a, b :: a in s.rows && b in s.rows && a != b && s.rows[a].target > 0 ==>
                  s.rows[a].target != s.rows[b].target)
            && (forall id :: id in s.rows && Mirrored(s.rows[id]) ==>
                  s.rows[id].target in s.mirror && s.mirror[s.rows[id].target].source == id)
  {
    NothingAtTheStart();
    AfterKeepsCounted(START, actions);
    AfterKeepsInvariant(START, actions);
    var s := After(START, actions);
    forall id: nat
      ensures s.sent[id] <= 1
    {
      if id in s.sent {
        assert SentOnceOnly(s, id);
      }
    }
  }

  /** Nothing is in progress. */
  predicate Quiet(s: State) {
    s.consumer.Scanning? && s.producer.Ready? && s.jobs == multiset{}
  }

  /** Once nothing is in progress, every mirrored comment shows its newest text, unless that text is blank
      or its last edit lost the one race there is. */
  lemma ConvergesWhenQuiet(actions: seq<Action>, id: nat)
    requires Feasible(START, actions) && Quiet(After(START, actions))
    requires id in After(START, actions).rows && Mirrored(After(START, actions).rows[id])
    ensures var s := After(START, actions);
            && s.rows[id].target in s.mirror && id in s.latest
            && (id in s.raced || Blank(s.latest[id]) || s.mirror[s.rows[id].target].text == s.latest[id])
  {
    AfterKeepsInvariant(START, actions);
  }
}
