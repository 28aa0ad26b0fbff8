/**
 Exactly when an edit of a comment can be lost, and the runs in which a comment ends with an old text or stands
 at the target twice (internal/engine/comment.go:463-524, producer.go:255-269,
 comment_pending_send.go:972-1008).
 */
module CommentRaces {
  import opened CommentRow
  import opened CommentState
  import opened CommentSteps
  import opened CommentProtocol

  // ---- Edits that find their comment queued ----

  /** Every edit event finds its comment already queued. */
  predicate EditsKnownRows(s: State, actions: seq<Action>)
    requires Feasible(s, actions)
    decreases |actions|
  {
    |actions| > 0 ==>
      && (actions[0].EditPending? ==> actions[0].id in s.rows)
      && EditsKnownRows(Next(s, actions[0]), actions[1..])
  }

  /** No edit began before its row was there. */
  ghost predicate NoneRaced(s: State) {
    && s.raced == {}
    && (s.producer.NotPending? ==> s.producer.existed)
  }

  lemma {:induction false} KnownRowsNeverRace(s: State, actions: seq<Action>)
    requires Invariant(s) && Feasible(s, actions) && NoneRaced(s) && EditsKnownRows(s, actions)
    ensures NoneRaced(After(s, actions))
    decreases |actions|
  {
    if |actions| > 0 {
      KnownRowRaces(s, actions[0]);
      NextKeepsInvariant(s, actions[0]);
      hide Invariant, Next, Enabled;
      KnownRowsNeverRace(Next(s, actions[0]), actions[1..]);
    }
  }

  lemma KnownRowRaces(s: State, a: Action)
    requires ProducerWellFormed(s) && Enabled(s, a) && NoneRaced(s) && (a.EditPending? ==> a.id in s.rows)
    ensures NoneRaced(Next(s, a))
  {
  }

  /** If every edit event finds its comment already queued, every interleaving converges: a mirrored
      comment shows its newest text or an edit of it is still owed. */
  lemma KnownRowsConverge(actions: seq<Action>, id: nat)
    requires Feasible(START, actions) && EditsKnownRows(START, actions)
    requires id in After(START, actions).rows
    ensures id in After(START, actions).latest && Settled(After(START, actions), id)
  {
    AfterKeepsInvariant(START, actions);
    KnownRowsNeverRace(START, actions);
  }

  /** The mirrored comment shows a text that is not its newest, and nobody will ever correct it by himself. */
  ghost predicate Lost(s: State, id: nat) {
    && id in s.rows && Mirrored(s.rows[id]) && s.rows[id].target in s.mirror && id in s.latest
    && !Blank(s.latest[id])
    && s.mirror[s.rows[id].target].text != s.latest[id]
    && !EditOwed(s, id)
  }

  /** An edit of the comment to this text can end up lost. */
  ghost predicate CanBeLost(s: State, id: nat, text: string) {
    exists actions ::
      Feasible(s, actions) && Lost(After(s, actions), id) && After(s, actions).latest[id] == text
  }

  /** Sound, and no edit is about to take its pending row for settled. */
  ghost predicate OutOfDanger(s: State, id: nat) {
    Sound(s, id) && !(s.producer.NotPending? && s.producer.id == id && s.rows[id].status.Pending?)
  }

  lemma OutOfDangerStays(s: State, a: Action, id: nat)
    requires Shape(s) && Enabled(s, a) && OutOfDanger(s, id)
    ensures OutOfDanger(Next(s, a), id)
  {
    SoundStays(s, a, id);
    StatusIsFinal(s, a, id);
    NoNewDanger(s, a, id);
  }

  lemma NoNewDanger(s: State, a: Action, id: nat)
    requires Enabled(s, a) && id in s.rows && id in Next(s, a).rows
    requires !s.rows[id].status.Pending? ==> Next(s, a).rows[id].status == s.rows[id].status
    requires !(s.producer.NotPending? && s.producer.id == id && s.rows[id].status.Pending?)
    ensures !(Next(s, a).producer.NotPending? && Next(s, a).producer.id == id && Next(s, a).rows[id].status.Pending?)
  {
  }

  lemma {:induction false} NeverLost(s: State, actions: seq<Action>, id: nat)
    requires Invariant(s) && Feasible(s, actions) && OutOfDanger(s, id)
    ensures !Lost(After(s, actions), id)
    decreases |actions|
  {
    if |actions| > 0 {
      OutOfDangerStays(s, actions[0], id);
      NextKeepsInvariant(s, actions[0]);
      hide Invariant, OutOfDanger, Next, Enabled;
      NeverLost(Next(s, actions[0]), actions[1..], id);
    }
  }

  lemma {:induction false} AfterConcat(s: State, a: seq<Action>, b: seq<Action>)
    requires Feasible(s, a) && Feasible(After(s, a), b)
    ensures Feasible(s, a + b) && After(s, a + b) == After(After(s, a), b)
    decreases |a|
  {
    hide Next, Enabled;
    if |a| == 0 {
      assert a + b == b;
    } else {
      assert (a + b)[0] == a[0] && (a + b)[1..] == a[1..] + b;
      AfterConcat(Next(s, a[0]), a[1..], b);
    }
  }

  lemma OneAction(s: State, a: Action)
    requires Enabled(s, a)
    ensures Feasible(s, [a]) && After(s, [a]) == Next(s, a)
  {
    assert Feasible(Next(s, a), [a][1..]);
  }

  /** Without the producer, the mirrored comment comes to show the row, unless the row's text is blank. */
  ghost predicate FollowsRow(s: State, id: nat) {
    id in s.rows && Mirrored(s.rows[id]) && s.rows[id].target in s.mirror ==>
      || Blank(s.rows[id].text)
      || s.mirror[s.rows[id].target].text == s.rows[id].text
      || id in s.jobs || s.consumer == OwesEdit(id)
  }

  /** Mirroring the row as it stands will not show the text. */
  ghost predicate WillMiss(s: State, id: nat, text: string) {
    && id in s.rows && (s.rows[id].status.Pending? || Mirrored(s.rows[id]))
    && FollowsRow(s, id) && !Agrees(s, id, text)
  }

  /** t follows from s by the consumer and the workers alone, and neither shows the text. */
  ghost predicate Drained(s: State, t: State, id: nat, text: string) {
    Invariant(t) && t.producer == s.producer && t.raced == s.raced && t.latest == s.latest && WillMiss(t, id, text)
  }

  function Rank(c: Consumer): nat {
    match c
    case Sent(_, _) => 3
    case CasMissed(_, _) => 2
    case OwesEdit(_) => 1
    case Scanning => 0
  }

  function ConsumerMove(s: State): Action {
    match s.consumer
    case Sent(_, _) => Cas
    case CasMissed(_, _) => Fallback
    case OwesEdit(_) => SubmitEdit
    case Scanning => Stop
  }

  lemma ConsumerMoveDrains(s: State, id: nat, text: string)
    requires Invariant(s) && WillMiss(s, id, text)
    ensures Enabled(s, ConsumerMove(s))
    ensures Drained(s, Next(s, ConsumerMove(s)), id, text)
    ensures Rank(Next(s, ConsumerMove(s)).consumer) < Rank(s.consumer) ||
            (s.consumer.Scanning? &&
             Next(s, ConsumerMove(s)).consumer.Scanning? && Next(s, ConsumerMove(s)).batch == [])
  {
    ConsumerMoveMisses(s, id, text);
    ConsumerMoves(s);
    hide WillMiss, Next, ConsumerMove, Invariant;
    NextKeepsInvariant(s, ConsumerMove(s));
  }

  lemma ConsumerMoves(s: State)
    ensures Enabled(s, ConsumerMove(s))
    ensures var t := Next(s, ConsumerMove(s));
            && t.producer == s.producer && t.raced == s.raced && t.latest == s.latest
            && (Rank(t.consumer) < Rank(s.consumer) || (s.consumer.Scanning? && t.consumer.Scanning? && t.batch == []))
  {
  }

  lemma ConsumerMoveMisses(s: State, id: nat, text: string)
    requires Shape(s) && WillMiss(s, id, text)
    ensures Enabled(s, ConsumerMove(s)) && WillMiss(Next(s, ConsumerMove(s)), id, text)
  {
    if s.consumer.Sent? || s.consumer.CasMissed? {
      hide Shape, WillMiss, Next;
      CommitMisses(s, id, text);
    }
  }

  lemma CommitMisses(s: State, id: nat, text: string)
    requires Shape(s) && WillMiss(s, id, text) && (s.consumer.Sent? || s.consumer.CasMissed?)
    ensures WillMiss(Next(s, ConsumerMove(s)), id, text)
  {
    hide ProducerWellFormed, LatestKnown;
  }

  /** The consumer can finish what it has begun and stop. */
  lemma ConsumerCanStop(s: State, id: nat, text: string) returns (actions: seq<Action>)
    requires Invariant(s) && WillMiss(s, id, text)
    ensures Feasible(s, actions) && Drained(s, After(s, actions), id, text)
    ensures After(s, actions).consumer.Scanning? && After(s, actions).batch == []
    decreases Rank(s.consumer)
  {
    var a := ConsumerMove(s);
    ConsumerMoveDrains(s, id, text);
    OneAction(s, a);
    actions := [a];
    if !s.consumer.Scanning? {
      hide Invariant, WillMiss, Next, Enabled, ConsumerMove;
      var rest := ConsumerCanStop(Next(s, a), id, text);
      AfterConcat(s, [a], rest);
      actions := [a] + rest;
    }
  }

  lemma FreshTarget(used: set<nat>) returns (target: nat)
    ensures target > 0 && target !in used && forall t :: t in used ==> t < target
  {
    if used == {} {
      return 1;
    }
    var t :| t in used;
    var rest := FreshTarget(used - {t});
    target := if t < rest then rest else t + 1;
    assert forall u :: u in used ==> u == t || u in used - {t};
  }

  /** Reads one pending comment, sends it and commits it. */
  function SendNow(s: State, id: nat, target: nat): seq<Action>
    requires id in s.rows
  {
    [Scan(s.rows[id].root, [id]), SendOk(target), Cas]
  }

  lemma SendNowSteps(s: State, id: nat, target: nat)
    requires IsPending(s, id) && s.consumer.Scanning? && s.batch == [] && target > 0 && target !in s.mirror
    ensures var actions := SendNow(s, id, target);
            Enabled(s, actions[0]) &&
            var s1 := Next(s, actions[0]);
            Enabled(s1, actions[1]) &&
            var s2 := Next(s1, actions[1]);
            Enabled(s2, actions[2]) &&
            Next(s2, actions[2]) == s.(rows := s.rows[id := s.rows[id].(status := Success, target := target,
                                                                        version := s.clock)],
                                       clock := s.clock + 1, mirror := s.mirror[target := Copy(id, s.rows[id].text)],
                                       sent := s.sent + multiset{id})
  {
    var actions := SendNow(s, id, target);
    var s1 := Next(s, actions[0]);
    var item := Item(id, s.rows[id].text, s.rows[id].version);
    assert s1 == s.(batch := [item]);
    var s2 := Next(s1, actions[1]);
    assert s2.consumer == Sent(item, target) && s2.batch == [];
  }

  /** A stopped consumer can send a pending comment and commit it at once. */
  lemma CanBeSent(s: State, id: nat, text: string) returns (actions: seq<Action>)
    requires Invariant(s) && WillMiss(s, id, text)
    requires IsPending(s, id) && s.consumer.Scanning? && s.batch == []
    ensures Feasible(s, actions) && Drained(s, After(s, actions), id, text)
    ensures After(s, actions).consumer.Scanning? && After(s, actions).batch == []
    ensures Mirrored(After(s, actions).rows[id])
  {
    var target := FreshTarget(s.mirror.Keys);
    actions := SendNow(s, id, target);
    SendNowSteps(s, id, target);
    hide Invariant, Next, Enabled;
    ThreeActions(s, actions);
    SentMisses(s, id, text, target, After(s, actions));
  }

  lemma ThreeActions(s: State, actions: seq<Action>)
    requires Invariant(s) && |actions| == 3 && Enabled(s, actions[0]) && Enabled(Next(s, actions[0]), actions[1])
    requires Enabled(Next(Next(s, actions[0]), actions[1]), actions[2])
    ensures Feasible(s, actions) && Invariant(After(s, actions))
    ensures After(s, actions) == Next(Next(Next(s, actions[0]), actions[1]), actions[2])
  {
    hide Invariant, Next, Enabled;
    var s1 := Next(s, actions[0]);
    var s2 := Next(s1, actions[1]);
    NextKeepsInvariant(s, actions[0]);
    NextKeepsInvariant(s1, actions[1]);
    NextKeepsInvariant(s2, actions[2]);
    OneAction(s2, actions[2]);
    assert actions[2..] == [actions[2]] && actions[0..] == actions;
    ThenAfter(s1, s2, actions, 1);
    ThenAfter(s, s1, actions, 0);
  }

  lemma SentMisses(s: State, id: nat, text: string, target: nat, t: State)
    requires WillMiss(s, id, text) && IsPending(s, id) && s.consumer.Scanning? && target > 0
    requires t == s.(rows := s.rows[id := s.rows[id].(status := Success, target := target, version := s.clock)],
                     clock := s.clock + 1, mirror := s.mirror[target := Copy(id, s.rows[id].text)],
                     sent := s.sent + multiset{id})
    ensures WillMiss(t, id, text)
  {
  }

  /** The workers can run every queued edit of the comment. */
  lemma EditsCanRun(s: State, id: nat, text: string) returns (actions: seq<Action>)
    requires Invariant(s) && WillMiss(s, id, text) && Mirrored(s.rows[id])
    requires s.consumer.Scanning? && s.batch == []
    ensures Feasible(s, actions) && Drained(s, After(s, actions), id, text)
    ensures After(s, actions).consumer.Scanning? && After(s, actions).batch == []
    ensures Mirrored(After(s, actions).rows[id]) && id !in After(s, actions).jobs
    decreases s.jobs[id]
  {
    actions := [];
    if id in s.jobs {
      NextKeepsInvariant(s, RunEdit(id));
      RunEditMisses(s, id, text);
      OneAction(s, RunEdit(id));
      hide Invariant, WillMiss;
      var rest := EditsCanRun(Next(s, RunEdit(id)), id, text);
      AfterConcat(s, [RunEdit(id)], rest);
      actions := [RunEdit(id)] + rest;
    }
  }

  lemma RunEditMisses(s: State, id: nat, text: string)
    requires Shape(s) && WillMiss(s, id, text) && id in s.jobs
    ensures WillMiss(Next(s, RunEdit(id)), id, text)
  {
  }

  /** A comment can be mirrored as its row stands before the producer goes on. */
  lemma RowCanBeMirrored(s: State, id: nat, text: string) returns (actions: seq<Action>)
    requires Invariant(s) && WillMiss(s, id, text)
    ensures Feasible(s, actions)
    ensures var t := After(s, actions);
            && Drained(s, t, id, text)
            && t.consumer.Scanning? && Mirrored(t.rows[id]) && id !in t.jobs
  {
    actions := ConsumerCanStop(s, id, text);
    var t := After(s, actions);
    assert id in t.rows && (IsPending(t, id) || Mirrored(t.rows[id]));
    hide Invariant, WillMiss;
    if IsPending(t, id) {
      var more := CanBeSent(t, id, text);
      AfterConcat(s, actions, more);
      actions := actions + more;
    }
    var more := EditsCanRun(After(s, actions), id, text);
    AfterConcat(s, actions, more);
    actions := actions + more;
  }

  /** Mirrored as the row stood, with nothing left to do: another text is lost on it. */
  lemma MissedIsLost(s: State, id: nat, text: string)
    requires Shape(s) && WillMiss(s, id, text) && Mirrored(s.rows[id]) && s.consumer.Scanning? && id !in s.jobs
    ensures s.rows[id].target in s.mirror && s.mirror[s.rows[id].target].text != text
  {
  }

  /** An edit that selected as pending a row that does not show its text can be lost. */
  lemma PendingSelectLosesEdit(s: State)
    requires Invariant(s) && s.producer.Selected? && s.producer.status.Pending? && IsPending(s, s.producer.id)
    requires !Blank(s.producer.text) && !Agrees(s, s.producer.id, s.producer.text)
    ensures CanBeLost(s, s.producer.id, s.producer.text)
  {
    var id, text := s.producer.id, s.producer.text;
    var actions := RowCanBeMirrored(s, id, text);
    var t := After(s, actions);
    MissedIsLost(t, id, text);
    var t1 := Next(t, EditRewrite);
    var t2 := Next(t1, EditSubmit);
    assert Lost(t2, id) && t2.latest[id] == text;
    OneAction(t, EditRewrite);
    OneAction(t1, EditSubmit);
    hide Next, Invariant, WillMiss;
    AfterConcat(t, [EditRewrite], [EditSubmit]);
    AfterConcat(s, actions, [EditRewrite] + [EditSubmit]);
    assert After(s, actions + ([EditRewrite] + [EditSubmit])) == t2;
  }

  /** An edit that found no row can be lost: the history fetch may queue the comment with an older text. */
  lemma DroppedSelectLosesEdit(s: State, id: nat, text: string)
    requires Invariant(s) && s.producer.Ready? && id > 0 && id !in s.rows && id in s.latest && s.latest[id] == text
    requires !Blank(text)
    ensures CanBeLost(s, id, text)
  {
    var older := text + "x";
    var insert := Insert(id, 0, 0, older);
    var s1 := Next(s, insert);
    assert !Blank(older) by {
      assert older[|text|] == 'x';
    }
    assert WillMiss(s1, id, text);
    NextKeepsInvariant(s, insert);
    OneAction(s, insert);
    var actions := RowCanBeMirrored(s1, id, text);
    var t := After(s1, actions);
    MissedIsLost(t, id, text);
    assert Lost(t, id) && t.latest[id] == text;
    AfterConcat(s, [insert], actions);
    assert After(s, [insert] + actions) == t;
  }

  /** Right after its SELECT, an edit can still be lost if and only if the SELECT found no row, or a
      pending one that does not show the edit's text: the two cases the code takes for settled.  A blank
      text is never pushed at all. */
  lemma EditCanBeLostExactlyWhenNotSettled(s: State)
    requires Invariant(s) && s.producer.NotPending?
    ensures var id, text := s.producer.id, s.producer.text;
            CanBeLost(Next(s, EditSelect), id, text) <==>
            !Blank(text) && (id !in s.rows || (s.rows[id].status.Pending? && !Agrees(s, id, text)))
  {
    var id, text, t := s.producer.id, s.producer.text, Next(s, EditSelect);
    NextKeepsInvariant(s, EditSelect);
    assert !Blank(text) || !CanBeLost(t, id, text);
    if !Blank(text) {
      if id !in s.rows {
        DroppedSelectLosesEdit(t, id, text);
      } else if s.rows[id].status.Pending? && !Agrees(s, id, text) {
        assert !Agrees(t, id, text);
        PendingSelectLosesEdit(t);
      } else {
        SelectIsOutOfDanger(s);
        forall actions | Feasible(t, actions)
          ensures !Lost(After(t, actions), id)
        {
          NeverLost(t, actions, id);
        }
      }
    }
  }

  lemma SelectIsOutOfDanger(s: State)
    requires Shape(s) && s.producer.NotPending? && s.producer.id in s.rows
    requires s.rows[s.producer.id].status.Pending? ==> Agrees(s, s.producer.id, s.producer.text)
    ensures OutOfDanger(Next(s, EditSelect), s.producer.id)
  {
  }

  const RACE: seq<Action> := [
    EditPending(7, "new"), Insert(7, 3, 0, "old"), EditSelect, Scan(3, [7]), SendOk(1), Cas, EditRewrite, EditSubmit
  ]

  /** The comment queued with its old text, and its edit having selected it as pending. */
  const RACE_READ: State := START.(
    rows := map[7 := Row(3, 0, Pending, 0, "old", 0)], clock := 1, latest := map[7 := "new"], raced := {7},
    batch := [Item(7, "old", 0)], producer := Selected(7, "new", Pending, 0))

  /** The old text mirrored and committed, before the edit is written. */
  const RACE_COMMITTED: State := RACE_READ.(
    rows := map[7 := Row(3, 0, Success, 1, "old", 1)], clock := 2, batch := [], mirror := map[1 := Copy(7, "old")],
    sent := multiset{7})

  const RACE_END: State := START.(
    rows := map[7 := Row(3, 0, Success, 1, "new", 2)], clock := 3, mirror := map[1 := Copy(7, "old")],
    sent := multiset{7}, latest := map[7 := "new"], raced := {7})

  lemma RaceUntilRead()
    requires Feasible(RACE_READ, RACE[4..]) && After(RACE_READ, RACE[4..]) == RACE_END
    ensures Feasible(START, RACE) && After(START, RACE) == RACE_END
  {
    var s1 := START.(latest := map[7 := "new"], producer := NotPending(7, "new", false));
    var s2 := s1.(rows := map[7 := Row(3, 0, Pending, 0, "old", 0)], clock := 1);
    var s3 := s2.(producer := Selected(7, "new", Pending, 0), raced := {7});
    assert Next(s3, RACE[3]).batch == RACE_READ.batch;
    ThenAfter(s3, RACE_READ, RACE, 3);
    ThenAfter(s2, s3, RACE, 2);
    ThenAfter(s1, s2, RACE, 1);
    ThenAfter(START, s1, RACE, 0);
    assert RACE[0..] == RACE;
  }

  lemma RaceFromCommit()
    ensures Feasible(RACE_COMMITTED, RACE[6..]) && After(RACE_COMMITTED, RACE[6..]) == RACE_END
  {
    var s7 := RACE_END.(producer := Rewritten(7, Pending, 0));
    ThenAfter(s7, RACE_END, RACE, 7);
    ThenAfter(RACE_COMMITTED, s7, RACE, 6);
  }

  lemma RaceFromRead()
    ensures Feasible(RACE_READ, RACE[4..]) && After(RACE_READ, RACE[4..]) == RACE_END
  {
    var s5 := RACE_READ.(batch := [], mirror := map[1 := Copy(7, "old")], sent := multiset{7},
                         consumer := Sent(Item(7, "old", 0), 1));
    RaceFromCommit();
    assert Next(s5, Cas) == RACE_COMMITTED;
    assert Next(RACE_READ, SendOk(1)) == s5;
    hide Next;
    ThenAfter(s5, RACE_COMMITTED, RACE, 5);
    ThenAfter(RACE_READ, s5, RACE, 4);
  }

  /** The race from the start: the edit arrives first, the history fetch then queues the comment with
      its old text, and the comment is sent and committed before the edit writes its text. */
  lemma EditBeforeInsertIsLost()
    ensures Feasible(START, RACE) && Lost(After(START, RACE), 7) && Quiet(After(START, RACE))
  {
    RaceFromRead();
    RaceUntilRead();
    assert !Blank("new") by {
      assert "new"[0] !in " \t\n\r";
    }
  }

  const DROP: seq<Action> := [
    EditPending(7, "new"), EditSelect, Insert(7, 3, 0, "old"), Scan(3, [7]), SendOk(1), Cas
  ]

  /** The comment queued with its old text after its edit found no row. */
  const DROP_READ: State := START.(
    rows := map[7 := Row(3, 0, Pending, 0, "old", 0)], clock := 1, latest := map[7 := "new"], raced := {7},
    batch := [Item(7, "old", 0)])

  const DROP_END: State := START.(
    rows := map[7 := Row(3, 0, Success, 1, "old", 1)], clock := 2, mirror := map[1 := Copy(7, "old")],
    sent := multiset{7}, latest := map[7 := "new"], raced := {7})

  lemma DropUntilRead()
    requires Feasible(DROP_READ, DROP[4..]) && After(DROP_READ, DROP[4..]) == DROP_END
    ensures Feasible(START, DROP) && After(START, DROP) == DROP_END
  {
    var s1 := START.(latest := map[7 := "new"], producer := NotPending(7, "new", false));
    var s2 := s1.(producer := Ready, raced := {7});
    var s3 := s2.(rows := map[7 := Row(3, 0, Pending, 0, "old", 0)], clock := 1);
    assert Next(s3, DROP[3]).batch == DROP_READ.batch;
    ThenAfter(s3, DROP_READ, DROP, 3);
    ThenAfter(s2, s3, DROP, 2);
    ThenAfter(s1, s2, DROP, 1);
    ThenAfter(START, s1, DROP, 0);
    assert DROP[0..] == DROP;
  }

  lemma DropFromRead()
    ensures Feasible(DROP_READ, DROP[4..]) && After(DROP_READ, DROP[4..]) == DROP_END
  {
    var s5 := DROP_READ.(batch := [], mirror := map[1 := Copy(7, "old")], sent := multiset{7},
                         consumer := Sent(Item(7, "old", 0), 1));
    ThenAfter(s5, DROP_END, DROP, 5);
    ThenAfter(DROP_READ, s5, DROP, 4);
  }

  /** The other way: the edit finds no row at all and is dropped, and only then is the comment queued, with
      the text the history fetch read before the edit. */
  lemma EditWithoutRowIsLost()
    ensures Feasible(START, DROP) && Lost(After(START, DROP), 7) && Quiet(After(START, DROP))
  {
    DropFromRead();
    DropUntilRead();
    assert !Blank("new") by {
      assert "new"[0] !in " \t\n\r";
    }
  }

  /** The target takes a comment and the consumer gets an error: it is sent again, and stands there twice. */
  const TWICE: seq<Action> := [
    Insert(7, 3, 0, "text"), Scan(3, [7]), SendLost(1), Scan(3, [7]), SendOk(2), Cas
  ]

  /** The comment still pending after the send that was reported as failed. */
  const TWICE_LOST: State := START.(
    rows := map[7 := Row(3, 0, Pending, 0, "text", 0)], clock := 1, latest := map[7 := "text"],
    mirror := map[1 := Copy(7, "text")], lost := multiset{7})

  const TWICE_END: State := TWICE_LOST.(
    rows := map[7 := Row(3, 0, Success, 2, "text", 1)], clock := 2,
    mirror := map[1 := Copy(7, "text"), 2 := Copy(7, "text")], sent := multiset{7})

  const TWICE_SENT: State := TWICE_END.(
    rows := TWICE_LOST.rows, clock := 1, consumer := Sent(Item(7, "text", 0), 2))

  lemma TwiceUntilLost()
    requires Feasible(TWICE_LOST, TWICE[3..]) && After(TWICE_LOST, TWICE[3..]) == TWICE_END
    ensures Feasible(START, TWICE) && After(START, TWICE) == TWICE_END
  {
    var s1 := START.(rows := map[7 := Row(3, 0, Pending, 0, "text", 0)], clock := 1, latest := map[7 := "text"]);
    var s2 := s1.(batch := [Item(7, "text", 0)]);
    assert Next(s1, TWICE[1]).batch == s2.batch;
    ThenAfter(s2, TWICE_LOST, TWICE, 2);
    ThenAfter(s1, s2, TWICE, 1);
    ThenAfter(START, s1, TWICE, 0);
    assert TWICE[0..] == TWICE;
  }

  lemma TwiceFromSend()
    ensures Feasible(TWICE_SENT, TWICE[5..]) && After(TWICE_SENT, TWICE[5..]) == TWICE_END
  {
    assert Next(TWICE_SENT, Cas) == TWICE_END;
    hide Next;
    ThenAfter(TWICE_SENT, TWICE_END, TWICE, 5);
  }

  lemma TwiceFromLost()
    ensures Feasible(TWICE_LOST, TWICE[3..]) && After(TWICE_LOST, TWICE[3..]) == TWICE_END
  {
    var s4 := TWICE_LOST.(batch := [Item(7, "text", 0)]);
    assert Next(TWICE_LOST, TWICE[3]).batch == s4.batch;
    TwiceFromSend();
    assert Next(s4, SendOk(2)) == TWICE_SENT;
    assert Next(TWICE_LOST, TWICE[3]) == s4;
    hide Next;
    ThenAfter(s4, TWICE_SENT, TWICE, 4);
    ThenAfter(TWICE_LOST, s4, TWICE, 3);
  }

  lemma FailedSendIsRepeated()
    ensures Feasible(START, TWICE) && Quiet(After(START, TWICE))
    ensures CopiesOf(After(START, TWICE).mirror, 7) == {1, 2} && After(START, TWICE).sent[7] == 1
  {
    TwiceFromLost();
    TwiceUntilLost();
  }

  lemma ThenAfter(s: State, next: State, actions: seq<Action>, k: nat)
    requires k < |actions| && Enabled(s, actions[k]) && next == Next(s, actions[k])
    requires Feasible(next, actions[k + 1..])
    ensures Feasible(s, actions[k..]) && After(s, actions[k..]) == After(next, actions[k + 1..])
  {
    assert actions[k..][0] == actions[k] && actions[k..][1..] == actions[k + 1..];
  }
}
