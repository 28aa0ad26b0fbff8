/**
 Planning what to send of a media group (PlanMediaGroup, internal/engine/filter.go:124-223).

 A blank text is modelled as the empty one.  Whether a file suffix passes and whether the media can be
 sent on are facts about the media.
 */
module MediaPlan {
  import opened Options

  datatype Media = Media(contentType: string, suffixAllowed: bool, convertible: bool)

  datatype Message = Message(id: nat, text: string, media: Option<Media>)

  datatype Plan = Plan(
    text: Option<Message>, media: seq<Message>, caption: string, need: nat, skipped: nat, hasMedia: bool)

  type Types = Option<set<string>>

  predicate HasText(m: Message) {
    m.text != ""
  }

  /** The message goes with the group: its media is of an allowed type, its file suffix passes, and it can
      be sent on. */
  predicate Keeps(m: Message, allowed: Types) {
    && m.media.Some?
    && (allowed.Some? ==> m.media.value.contentType in allowed.value)
    && (m.media.value.contentType == "file" ==> m.media.value.suffixAllowed)
    && m.media.value.convertible
  }

  function Kept(msgs: seq<Message>, allowed: Types): (kept: seq<Message>)
    ensures forall m :: m in kept <==> m in msgs && Keeps(m, allowed)
  {
    if |msgs| == 0 then []
    else
      var last := msgs[|msgs| - 1];
      Kept(msgs[..|msgs| - 1], allowed) + if Keeps(last, allowed) then [last] else []
  }

  // ---- Order ----

  ghost predicate InOrder(msgs: seq<Message>) {
    forall i, j :: 0 <= i < j < |msgs| ==> msgs[i].id <= msgs[j].id
  }

  function Place(m: Message, sorted: seq<Message>): (r: seq<Message>)
    requires InOrder(sorted)
    ensures InOrder(r) && multiset(r) == multiset(sorted) + multiset{m}
  {
    if |sorted| == 0 || m.id <= sorted[0].id then [m] + sorted
    else
      var r := Place(m, sorted[1..]);
      PlaceBehind(m, sorted, r);
      [sorted[0]] + r
  }

  lemma PlaceBehind(m: Message, sorted: seq<Message>, r: seq<Message>)
    requires |sorted| > 0 && InOrder(sorted) && sorted[0].id <= m.id
    requires InOrder(r) && multiset(r) == multiset(sorted[1..]) + multiset{m}
    ensures InOrder([sorted[0]] + r) && multiset([sorted[0]] + r) == multiset(sorted) + multiset{m}
  {
    assert sorted == [sorted[0]] + sorted[1..];
    forall i | 0 <= i < |r|
      ensures sorted[0].id <= r[i].id
    {
      assert r[i] in multiset(r);
      assert r[i] == m || r[i] in sorted[1..];
    }
  }

  function SortById(msgs: seq<Message>): (r: seq<Message>)
    ensures InOrder(r) && multiset(r) == multiset(msgs)
  {
    if |msgs| == 0 then []
    else
      assert msgs == msgs[..|msgs| - 1] + [msgs[|msgs| - 1]];
      Place(msgs[|msgs| - 1], SortById(msgs[..|msgs| - 1]))
  }

  // ---- The caption ----

  /** The message whose text stands for the group: the one with the least positive id, else one
      with a text. */
  ghost predicate IsCaptionOf(c: Option<Message>, msgs: seq<Message>) {
    match c
    case None => forall m :: m in msgs ==> !HasText(m)
    case Some(best) =>
      && best in msgs && HasText(best)
      && forall m :: m in msgs && HasText(m) && m.id > 0 ==> 0 < best.id <= m.id
  }

  method FindCaption(msgs: seq<Message>) returns (c: Option<Message>)
    ensures IsCaptionOf(c, msgs)
    ensures if c.Some? then c.value in msgs && c.value.text != "" else forall m :: m in msgs ==> m.text == ""
  {
    c := None;
    for i := 0 to |msgs|
      invariant IsCaptionOf(c, msgs[..i])
    {
      var msg := msgs[i];
      assert msgs[..i + 1] == msgs[..i] + [msg];
      if !HasText(msg) {
        continue;
      }
      if c.None? || (msg.id > 0 && (c.value.id == 0 || msg.id < c.value.id)) {
        c := Some(msg);
      }
    }
    assert msgs[..|msgs|] == msgs;
  }

  // ---- The plan ----

  /** The media sent: the messages kept, by id, with the caption moved to the first one if that one has no
      text of its own. */
  function WithCaption(kept: seq<Message>, c: Option<Message>): seq<Message> {
    if |kept| > 0 && c.Some? && !HasText(kept[0]) then [kept[0].(text := c.value.text)] + kept[1..] else kept
  }

  lemma OnceMore(msgs: seq<Message>, last: Message, m: Message)
    ensures multiset(msgs + [last])[m] == multiset(msgs)[m] + if m == last then 1 else 0
  {
  }

  lemma {:induction false} KeptAsOften(msgs: seq<Message>, allowed: Types, m: Message)
    ensures multiset(Kept(msgs, allowed))[m] == if Keeps(m, allowed) then multiset(msgs)[m] else 0
  {
    if |msgs| > 0 {
      var init, last := msgs[..|msgs| - 1], msgs[|msgs| - 1];
      hide Keeps;
      KeptAsOften(init, allowed, m);
      OnceMore(init, last, m);
      OnceMore(Kept(init, allowed), last, m);
      assert msgs == init + [last];
      assert Kept(init, allowed) + [] == Kept(init, allowed);
      hide Kept;
    }
  }

  method Split(msgs: seq<Message>, allowed: Types) returns (kept: seq<Message>, skipped: nat, hasMedia: bool)
    ensures kept == Kept(msgs, allowed) && |kept| + skipped == |msgs|
    ensures hasMedia <==> exists m :: m in msgs && m.media.Some?
    ensures forall m :: multiset(kept)[m] ==
                        if m.media == None then 0
                        else if allowed.Some? && m.media.value.contentType !in allowed.value then 0
                        else if m.media.value.contentType == "file" && !m.media.value.suffixAllowed then 0
                        else if !m.media.value.convertible then 0
                        else multiset(msgs)[m]
  {
    kept, skipped, hasMedia := [], 0, false;
    for i := 0 to |msgs|
      invariant kept == Kept(msgs[..i], allowed) && |kept| + skipped == i
      invariant hasMedia <==> exists k :: 0 <= k < i && msgs[k].media.Some?
    {
      var msg := msgs[i];
      assert msgs[..i + 1][..i] == msgs[..i];
      if msg.media.None? {
        skipped := skipped + 1;
        continue;
      }
      hasMedia := true;
      var ct := msg.media.value.contentType;
      if allowed.Some? && ct !in allowed.value {
        skipped := skipped + 1;
        continue;
      }
      if ct == "file" && !msg.media.value.suffixAllowed {
        skipped := skipped + 1;
        continue;
      }
      if !msg.media.value.convertible {
        skipped := skipped + 1;
        continue;
      }
      kept := kept + [msg];
    }
    assert msgs[..|msgs|] == msgs;
    forall m
      ensures multiset(kept)[m] == if Keeps(m, allowed) then multiset(msgs)[m] else 0
    {
      KeptAsOften(msgs, allowed, m);
    }
  }

  method PlanMediaGroup(msgs: seq<Message>, allowed: Types) returns (plan: Plan, ghost c: Option<Message>)
    ensures IsCaptionOf(c, msgs) && (c.Some? ==> plan.caption == c.value.text) && (c.None? ==> plan.caption == "")
    ensures |Kept(msgs, allowed)| + plan.skipped == |msgs|
    ensures plan.media == WithCaption(SortById(Kept(msgs, allowed)), c)
    ensures plan.text.Some? <==> |Kept(msgs, allowed)| == 0 && c.Some? && (allowed.None? || "text" in allowed.value)
    ensures plan.text.Some? ==> plan.media == [] && plan.text.value == c.value.(media := None)
    ensures plan.need == |plan.media| + if plan.text.Some? then 1 else 0
    ensures plan.hasMedia <==> exists m :: m in msgs && m.media.Some?
  {
    c := None;
    if |msgs| == 0 {
      return Plan(None, [], "", 0, 0, false), None;
    }
    var captionMsg := FindCaption(msgs);
    c := captionMsg;
    var kept, skipped, hasMedia := Split(msgs, allowed);
    assert |multiset(SortById(kept))| == |multiset(kept)|;
    kept := SortById(kept);
    var caption := if captionMsg.Some? then captionMsg.value.text else "";
    if |kept| == 0 {
      var text := None;
      if captionMsg.Some? && (allowed.None? || "text" in allowed.value) {
        text := Some(captionMsg.value.(media := None));
      }
      return Plan(text, [], caption, if text.Some? then 1 else 0, skipped, hasMedia), captionMsg;
    }
    if captionMsg.Some? && !HasText(kept[0]) {
      kept := [kept[0].(text := captionMsg.value.text)] + kept[1..];
    }
    plan := Plan(None, kept, caption, |kept|, skipped, hasMedia);
  }

  // ---- What a plan promises ----

  lemma CaptionMovesOnly(kept: seq<Message>, c: Option<Message>)
    requires InOrder(kept)
    ensures var media := WithCaption(kept, c);
            && InOrder(media) && |media| == |kept|
            && forall i :: 0 <= i < |media| ==>
                             media[i] == kept[i] || (i == 0 && media[i].(text := "") == kept[i].(text := ""))
  {
    var media := WithCaption(kept, c);
    forall i | 0 <= i < |media|
      ensures media[i].id == kept[i].id
      ensures media[i] == kept[i] || (i == 0 && media[i].(text := "") == kept[i].(text := ""))
    {
      assert i > 0 ==> media[i] == kept[i];
    }
    hide WithCaption;
  }

  /** Sorting keeps each message exactly as often as it came. */
  lemma SortingKeeps(msgs: seq<Message>)
    ensures |SortById(msgs)| == |msgs| && forall m :: m in SortById(msgs) <==> m in msgs
  {
    var sorted := SortById(msgs);
    hide SortById;
    assert |multiset(sorted)| == |multiset(msgs)|;
    forall m
      ensures m in sorted <==> m in msgs
    {
      assert m in sorted <==> m in multiset(sorted);
      assert m in msgs <==> m in multiset(msgs);
    }
  }

  /** The media go out by id, each message kept exactly once; only the text of the first may differ. */
  lemma MediaInOrder(msgs: seq<Message>, allowed: Types, c: Option<Message>)
    ensures var kept, media := SortById(Kept(msgs, allowed)), WithCaption(SortById(Kept(msgs, allowed)), c);
            && InOrder(media) && |media| == |kept|
            && multiset(kept) == multiset(Kept(msgs, allowed))
            && forall i :: 0 <= i < |media| ==>
                             media[i] == kept[i] || (i == 0 && media[i].(text := "") == kept[i].(text := ""))
  {
    var kept := SortById(Kept(msgs, allowed));
    hide SortById, Kept, WithCaption, InOrder;
    CaptionMovesOnly(kept, c);
  }

  /** If some media survive, the first of them carries a text exactly if the group has one at all. */
  lemma SomeCaptionSurvives(msgs: seq<Message>, allowed: Types, c: Option<Message>)
    requires IsCaptionOf(c, msgs) && |Kept(msgs, allowed)| > 0
    ensures var media := WithCaption(SortById(Kept(msgs, allowed)), c);
            |media| > 0 && (media[0].text != "" <==> exists m :: m in msgs && m.text != "")
  {
    var kept := SortById(Kept(msgs, allowed));
    SortingKeeps(Kept(msgs, allowed));
    hide SortById, InOrder;
    assert kept[0] in kept;
  }

  /** The group's caption is sent with its media exactly if the first of them has no text of its own, or a
      message that is kept says the same. */
  lemma CaptionSurvivesExactlyWhen(msgs: seq<Message>, allowed: Types, c: Message)
    requires IsCaptionOf(Some(c), msgs) && |Kept(msgs, allowed)| > 0
    ensures var kept, media := SortById(Kept(msgs, allowed)), WithCaption(SortById(Kept(msgs, allowed)), Some(c));
            |kept| > 0 &&
            ((exists m :: m in media && m.text == c.text) <==>
             !HasText(kept[0]) || exists m :: m in msgs && Keeps(m, allowed) && m.text == c.text)
  {
    var kept, media := SortById(Kept(msgs, allowed)), WithCaption(SortById(Kept(msgs, allowed)), Some(c));
    SortingKeeps(Kept(msgs, allowed));
    hide SortById, InOrder, Keeps;
    if !HasText(kept[0]) {
      assert media[0].text == c.text && media[0] in media;
    } else {
      assert media == kept;
    }
  }

  /** A group with one text never loses it when media survive. */
  lemma OnlyCaptionIsKept(msgs: seq<Message>, allowed: Types, c: Message)
    requires IsCaptionOf(Some(c), msgs) && |Kept(msgs, allowed)| > 0
    requires forall m :: m in msgs && HasText(m) ==> m.text == c.text
    ensures exists m :: m in WithCaption(SortById(Kept(msgs, allowed)), Some(c)) && m.text == c.text
  {
    CaptionSurvivesExactlyWhen(msgs, allowed, c);
    SortingKeeps(Kept(msgs, allowed));
    var kept := SortById(Kept(msgs, allowed));
    hide SortById, InOrder, Keeps, WithCaption;
    assert kept[0] in kept;
  }

  /** With two texts one can be lost: the caption is on a message that is filtered out, and the message that
      stays has a text of its own. */
  lemma CaptionOfSkippedMessageIsLost(a: Message, b: Message, allowed: Types, c: Option<Message>)
    requires 0 < a.id < b.id && HasText(a) && HasText(b) && !Keeps(a, allowed) && Keeps(b, allowed)
    requires IsCaptionOf(c, [a, b])
    ensures c == Some(a)
    ensures forall m :: m in WithCaption(SortById(Kept([a, b], allowed)), c) ==> m.text == b.text
  {
    var msgs := [a, b];
    assert a in msgs && b in msgs;
    assert forall m :: m in msgs ==> m == a || m == b;
    var kept := Kept(msgs, allowed);
    SortingKeeps(kept);
    var sorted := SortById(kept);
    hide SortById, InOrder, Kept, Keeps;
    assert forall m :: m in sorted ==> m == b;
    assert |sorted| > 0 ==> sorted[0] in sorted;
  }

  /** Such a group: a captioned video and a photo with a note, forwarding photos only. */
  lemma VideoCaptionIsLost(c: Option<Message>)
    requires IsCaptionOf(c, [Message(1, "caption", Some(Media("video", true, true))),
                             Message(2, "note", Some(Media("photo", true, true)))])
    ensures var a := Message(1, "caption", Some(Media("video", true, true)));
            var b := Message(2, "note", Some(Media("photo", true, true)));
            forall m :: m in WithCaption(SortById(Kept([a, b], Some({"photo"}))), c) ==> m.text == "note"
  {
    var a := Message(1, "caption", Some(Media("video", true, true)));
    var b := Message(2, "note", Some(Media("photo", true, true)));
    assert "video"[0] != "photo"[0] && "photo"[0] != "file"[0];
    hide SortById, Kept, WithCaption, IsCaptionOf;
    CaptionOfSkippedMessageIsLost(a, b, Some({"photo"}), c);
  }
}
