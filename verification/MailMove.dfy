/** Moving a message on a server without MOVE: COPY, STORE +FLAGS \Deleted, EXPUNGE. */
module MailMove {
  import opened Basics
  import opened MailStore

  type Boxes = map<string, Contents>

  function Box(boxes: Boxes, name: string): Contents {
    if name in boxes then boxes[name] else NEW_MAILBOX
  }

  /** `UID COPY`: a fresh UID in `dest`, everything else carried over. */
  function Copy(boxes: Boxes, src: string, uid: nat, dest: string): Option<Boxes> {
    if src !in boxes then None
    else
      var i := IndexOf(boxes[src].messages, uid);
      if i == |boxes[src].messages| then None
      else
        var m := boxes[src].messages[i];
        Some(boxes[dest := Append(Box(boxes, dest), m.raw, m.envelope, m.flags)])
  }

  function MarkAndExpunge(c: Contents, uid: nat): Contents { Expunge(StoreFlags(c, uid, [DELETED], [])) }

  /** The three commands in order; `None` when the copy fails, and then nothing changes. */
  function Move(boxes: Boxes, src: string, uid: nat, dest: string): Option<Boxes> {
    match Copy(boxes, src, uid, dest)
    case None => None
    case Some(copied) => if src in copied then Some(copied[src := MarkAndExpunge(copied[src], uid)]) else None
  }

  function Without(messages: seq<Message>, uid: nat): seq<Message> { Filter(messages, (m: Message) => m.uid != uid) }

  /** Exactly the moved message leaves the source, in order, and exactly one copy
      of it, under a fresh UID, is added to the destination. */
  ghost predicate MovedExactly(before: Boxes, after: Boxes, src: string, uid: nat, dest: string)
    requires src in before && IndexOf(before[src].messages, uid) < |before[src].messages|
  {
    var m := before[src].messages[IndexOf(before[src].messages, uid)];
    var received := Append(Box(before, dest), m.raw, m.envelope, m.flags);
    if src == dest then after == before[src := received.(messages := Without(received.messages, uid))]
    else after == before[dest := received][src := before[src].(messages := Without(before[src].messages, uid))]
  }

  /** No other message of the source is flagged `\Deleted`; and the moved one is
      not flagged with another spelling of it, which STORE takes for the flag and
      EXPUNGE does not. A move onto its own mailbox must also not find the message
      already flagged, since its copy would be expunged with it. */
  ghost predicate SafeToMove(c: Contents, uid: nat, toItself: bool)
    requires IndexOf(c.messages, uid) < |c.messages|
  {
    var i := IndexOf(c.messages, uid);
    && (forall k :: 0 <= k < |c.messages| && k != i ==> Kept(c.messages[k]))
    && (Mentions(c.messages[i].flags, DELETED) ==> !toItself && DELETED in c.messages[i].flags)
  }

  lemma {:induction false} IndexIsUnique(messages: seq<Message>, i: nat)
    requires i < |messages| && Ascending(messages)
    ensures IndexOf(messages, messages[i].uid) == i
  {
  }

  lemma MarkedFlags(flags: Flags)
    ensures NewFlags(flags, [DELETED], []) == if Mentions(flags, DELETED) then flags else flags + [DELETED]
    ensures DELETED in NewFlags(flags, [DELETED], []) <==> (Mentions(flags, DELETED) ==> DELETED in flags)
  {
    var keep := (f: string) => !Mentions([], f);
    FilterKeepsAll(flags, keep);
    assert NewFlags(flags, [DELETED], []) == AddFlags(Filter(flags, f => !Mentions([], f)), [DELETED]);
    FilterKeepsAll(flags, f => !Mentions([], f));
    assert [DELETED][..0] == [];
    if DELETED in flags {
      var k :| 0 <= k < |flags| && flags[k] == DELETED;
      assert EqIgnoreCase(flags[k], DELETED);
    }
  }

  lemma FlaggedIsMentioned(flags: Flags)
    ensures DELETED in flags ==> Mentions(flags, DELETED)
  {
    if DELETED in flags {
      var k :| 0 <= k < |flags| && flags[k] == DELETED;
      assert EqIgnoreCase(flags[k], DELETED);
    }
  }

  lemma WithoutOne(c: Contents, i: nat)
    requires Valid(c) && i < |c.messages|
    ensures Without(c.messages, c.messages[i].uid) == c.messages[..i] + c.messages[i + 1..]
  {
    var pre, m, post := c.messages[..i], c.messages[i], c.messages[i + 1..];
    var other := (x: Message) => x.uid != m.uid;
    assert c.messages == pre + ([m] + post);
    FilterAroundOne(pre, m, post, other);
    assert [] + post == post;
  }

  lemma FilterAround(pre: seq<Message>, m: Message, post: seq<Message>)
    ensures Filter(pre + ([m] + post), Kept) == pre + post <==>
            !Kept(m) && (forall x :: x in pre ==> Kept(x)) && (forall x :: x in post ==> Kept(x))
  {
    if (forall x :: x in pre ==> Kept(x)) && (forall x :: x in post ==> Kept(x)) {
      FilterAroundOne(pre, m, post, Kept);
      assert Kept(m) ==> |Filter(pre + ([m] + post), Kept)| == |pre| + 1 + |post|;
      assert [] + post == post;
    } else if Filter(pre + ([m] + post), Kept) == pre + post {
      AllKeptIfEqual(pre, [m] + post, post);
    }
  }

  lemma AllKeptIfEqual(pre: seq<Message>, rest: seq<Message>, post: seq<Message>)
    requires Filter(pre + rest, Kept) == pre + post
    ensures (forall x :: x in pre ==> Kept(x)) && (forall x :: x in post ==> Kept(x))
  {
    FilterMembers(pre + rest, Kept);
    forall x | x in pre || x in post ensures Kept(x) {
      assert x in pre + post;
      assert x in Filter(pre + rest, Kept);
    }
  }

  /** Marking one message and expunging removes it alone exactly when it ends up
      marked and no other message was. */
  lemma MarkAndExpungeRemovesOne(c: Contents, i: nat)
    requires Valid(c) && i < |c.messages|
    ensures var m := c.messages[i];
            MarkAndExpunge(c, m.uid) == c.(messages := Without(c.messages, m.uid)) <==>
            && (Mentions(m.flags, DELETED) ==> DELETED in m.flags)
            && (forall k :: 0 <= k < |c.messages| && k != i ==> Kept(c.messages[k]))
  {
    var pre, m, post := c.messages[..i], c.messages[i], c.messages[i + 1..];
    var marked := m.(flags := NewFlags(m.flags, [DELETED], []));
    IndexIsUnique(c.messages, i);
    assert c.messages[i := marked] == pre + ([marked] + post);
    MarkedFlags(m.flags);
    WithoutOne(c, i);
    FilterAround(pre, marked, post);
    OthersAround(c.messages, i);
  }

  lemma OthersAround(messages: seq<Message>, i: nat)
    requires i < |messages|
    ensures (forall k :: 0 <= k < |messages| && k != i ==> Kept(messages[k])) <==>
            (forall x :: x in messages[..i] ==> Kept(x)) && (forall x :: x in messages[i + 1..] ==> Kept(x))
  {
    if (forall x :: x in messages[..i] ==> Kept(x)) && (forall x :: x in messages[i + 1..] ==> Kept(x)) {
      forall k | 0 <= k < |messages| && k != i ensures Kept(messages[k]) {
        assert k < i ==> messages[k] in messages[..i];
        assert k > i ==> messages[i + 1..][k - i - 1] == messages[k];
      }
    }
  }

  /** The fallback does what MOVE would exactly when it is safe: section 3.3 of RFC 6851. */
  lemma MoveIsExactWhenSafe(boxes: Boxes, src: string, uid: nat, dest: string)
    requires src in boxes && (forall name :: name in boxes ==> Valid(boxes[name]))
    requires IndexOf(boxes[src].messages, uid) < |boxes[src].messages|
    ensures Move(boxes, src, uid, dest).Some?
    ensures MovedExactly(boxes, Move(boxes, src, uid, dest).value, src, uid, dest)
            <==> SafeToMove(boxes[src], uid, src == dest)
  {
    if src == dest {
      MoveOntoItself(boxes, src, uid);
    } else {
      var c := boxes[src];
      var m := c.messages[IndexOf(c.messages, uid)];
      MarkAndExpungeRemovesOne(c, IndexOf(c.messages, uid));
      var received := Append(Box(boxes, dest), m.raw, m.envelope, m.flags);
      var after := Move(boxes, src, uid, dest).value;
      assert after == boxes[dest := received][src := MarkAndExpunge(c, uid)];
      assert after[src] == MarkAndExpunge(c, uid);
    }
  }

  lemma MoveOntoItself(boxes: Boxes, src: string, uid: nat)
    requires src in boxes && Valid(boxes[src])
    requires IndexOf(boxes[src].messages, uid) < |boxes[src].messages|
    ensures Move(boxes, src, uid, src).Some?
    ensures MovedExactly(boxes, Move(boxes, src, uid, src).value, src, uid, src)
            <==> SafeToMove(boxes[src], uid, true)
  {
    var c := boxes[src];
    var i, n := IndexOf(c.messages, uid), |c.messages|;
    var m := c.messages[i];
    var received := Append(c, m.raw, m.envelope, m.flags);
    StepKeepsValid(c, CopyIn(m));
    assert forall k :: 0 <= k < n ==> received.messages[k] == c.messages[k];
    assert received.messages[n].flags == m.flags;
    MarkAndExpungeRemovesOne(received, i);
    FlaggedIsMentioned(m.flags);
    var after := Move(boxes, src, uid, src).value;
    assert after == boxes[src := MarkAndExpunge(received, uid)];
    assert after[src] == MarkAndExpunge(received, uid);
  }

  /** The rule the client relies on: with no message of the source flagged
      `\Deleted` in any spelling, every move is exact. */
  lemma MoveIsExactWithoutFlags(boxes: Boxes, src: string, uid: nat, dest: string)
    requires src in boxes && (forall name :: name in boxes ==> Valid(boxes[name]))
    requires IndexOf(boxes[src].messages, uid) < |boxes[src].messages|
    requires forall m :: m in boxes[src].messages ==> !Mentions(m.flags, DELETED)
    ensures Move(boxes, src, uid, dest).Some?
    ensures MovedExactly(boxes, Move(boxes, src, uid, dest).value, src, uid, dest)
  {
    var c := boxes[src];
    forall k | 0 <= k < |c.messages| ensures Kept(c.messages[k]) {
      assert c.messages[k] in c.messages;
      FlaggedIsMentioned(c.messages[k].flags);
    }
    assert c.messages[IndexOf(c.messages, uid)] in c.messages;
    MoveIsExactWhenSafe(boxes, src, uid, dest);
  }

  /** Not having the flag itself is not enough: a message flagged `\deleted` is
      copied and stays where it was. */
  lemma LowerCaseFlagDefeatsMove()
    ensures var m := Message(1, [], NO_ENVELOPE, ["\\deleted"]);
            var boxes: Boxes := map["INBOX" := Contents([m], 1, 2)];
            && Kept(m) && Valid(boxes["INBOX"])
            && var after := Move(boxes, "INBOX", 1, "Trash");
               && after.Some? && "INBOX" in after.value && m in after.value["INBOX"].messages
               && !MovedExactly(boxes, after.value, "INBOX", 1, "Trash")
  {
    var m := Message(1, [], NO_ENVELOPE, ["\\deleted"]);
    var boxes: Boxes := map["INBOX" := Contents([m], 1, 2)];
    assert Lower(m.flags[0]) == "\\deleted" == Lower(DELETED);
    assert EqIgnoreCase(m.flags[0], DELETED);
    assert Mentions(m.flags, DELETED) && m.flags[0] != DELETED;
    assert IndexOf(boxes["INBOX"].messages, 1) == 0;
    MoveIsExactWhenSafe(boxes, "INBOX", 1, "Trash");
    MarkedFlags(m.flags);
    var stored := StoreFlags(boxes["INBOX"], 1, [DELETED], []);
    assert stored.messages == [m];
    assert m in stored.messages;
  }
}
