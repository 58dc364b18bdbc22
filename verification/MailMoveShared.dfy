/** The COPY, STORE, EXPUNGE fallback while other connections use the mailbox: what
    they deliver, copy in, flag and expunge between the three commands. */
module MailMoveShared {
  import opened Basics
  import opened MailStore
  import opened MailMove

  /** Another connection's command that has nothing to do with `\Deleted`: it flags
      no message so, and brings none in. Expunging is such a command too. */
  predicate Calm(op: Op) {
    match op
    case Deliver(_, _) => true
    case CopyIn(m) => Kept(m)
    case Store(_, add, remove) => !Mentions(add, DELETED) && !Mentions(remove, DELETED)
    case ExpungeAll => true
  }

  predicate AllCalm(ops: seq<Op>) { forall i :: 0 <= i < |ops| ==> Calm(ops[i]) }

  /** The source mailbox after the move: the copy was read from `c`; `before` are the
      commands of others up to the STORE, `between` those up to the EXPUNGE. */
  function MovedAmid(c: Contents, uid: nat, before: seq<Op>, between: seq<Op>): Contents {
    Expunge(Run(StoreFlags(Run(c, before), uid, [DELETED], []), between))
  }

  /** Flagging a message, as a change to every message with that UID. */
  function Flagging(m: Message, uid: nat, add: Flags, remove: Flags): Message {
    if m.uid == uid then m.(flags := NewFlags(m.flags, add, remove)) else m
  }

  function FlagAll(messages: seq<Message>, uid: nat, add: Flags, remove: Flags): seq<Message> {
    if messages == [] then [] else [Flagging(messages[0], uid, add, remove)] + FlagAll(messages[1..], uid, add, remove)
  }

  lemma {:induction false} FlagAllAt(messages: seq<Message>, uid: nat, add: Flags, remove: Flags)
    ensures |FlagAll(messages, uid, add, remove)| == |messages|
    ensures forall i :: 0 <= i < |messages| ==>
              FlagAll(messages, uid, add, remove)[i] == Flagging(messages[i], uid, add, remove)
  {
    if messages != [] {
      FlagAllAt(messages[1..], uid, add, remove);
    }
  }

  /** UIDs are unique, so flagging the first message with a UID flags them all. */
  lemma StoreIsFlagAll(c: Contents, uid: nat, add: Flags, remove: Flags)
    requires Valid(c)
    ensures StoreFlags(c, uid, add, remove).messages == FlagAll(c.messages, uid, add, remove)
  {
    FlagAllAt(c.messages, uid, add, remove);
    var i := IndexOf(c.messages, uid);
    forall k | 0 <= k < |c.messages| && k != i ensures c.messages[k].uid != uid {
      assert k < i ==> c.messages[k].uid != uid;
      assert i < k ==> c.messages[i].uid < c.messages[k].uid;
    }
  }

  lemma {:induction false} WithoutFlagAll(messages: seq<Message>, uid: nat, other: nat, add: Flags, remove: Flags)
    ensures Without(FlagAll(messages, other, add, remove), uid) ==
              if other == uid then Without(messages, uid) else FlagAll(Without(messages, uid), other, add, remove)
  {
    if messages != [] {
      WithoutFlagAll(messages[1..], uid, other, add, remove);
      var m, rest := messages[0], messages[1..];
      var flagged := Flagging(m, other, add, remove);
      WithoutCons(flagged, FlagAll(rest, other, add, remove), uid);
      WithoutCons(m, rest, uid);
      assert messages == [m] + rest;
      if m.uid != uid {
        assert ([m] + Without(rest, uid))[1..] == Without(rest, uid);
      }
    }
  }

  lemma WithoutCons(m: Message, rest: seq<Message>, uid: nat)
    ensures Without([m] + rest, uid) == if m.uid != uid then [m] + Without(rest, uid) else Without(rest, uid)
  {
    assert ([m] + rest)[1..] == rest;
  }

  // ----- the mailbox moved from, beside one without the move -----

  /** The two mailboxes differ in the moved message at most. */
  ghost predicate Alike(a: Contents, b: Contents, uid: nat) {
    && Valid(a) && Valid(b) && a.uidNext == b.uidNext && a.uidValidity == b.uidValidity
    && Without(a.messages, uid) == Without(b.messages, uid)
  }

  lemma {:induction false} ExpungeWithout(messages: seq<Message>, uid: nat)
    ensures Without(Filter(messages, Kept), uid) == Filter(Without(messages, uid), Kept)
  {
    if messages != [] {
      var m, rest := messages[0], messages[1..];
      assert messages == [m] + rest;
      ExpungeWithout(rest, uid);
      WithoutCons(m, rest, uid);
      WithoutCons(m, Filter(rest, Kept), uid);
      assert Filter(messages, Kept) == if Kept(m) then [m] + Filter(rest, Kept) else Filter(rest, Kept);
      assert ([m] + Without(rest, uid))[1..] == Without(rest, uid);
    }
  }

  lemma AppendAlike(a: Contents, b: Contents, uid: nat, raw: Raw, envelope: Envelope, flags: Flags)
    requires Alike(a, b, uid)
    ensures Alike(Append(a, raw, envelope, flags), Append(b, raw, envelope, flags), uid)
  {
    var m := Message(a.uidNext, raw, envelope, flags);
    StepKeepsValid(a, CopyIn(m));
    StepKeepsValid(b, CopyIn(m));
    FilterAppend(a.messages, [m], (x: Message) => x.uid != uid);
    FilterAppend(b.messages, [m], (x: Message) => x.uid != uid);
  }

  lemma StepAlike(a: Contents, b: Contents, uid: nat, op: Op)
    requires Alike(a, b, uid)
    ensures Alike(Step(a, op), Step(b, op), uid)
  {
    StepKeepsValid(a, op);
    StepKeepsValid(b, op);
    match op
    case Deliver(raw, envelope) => AppendAlike(a, b, uid, raw, envelope, []);
    case CopyIn(m) => AppendAlike(a, b, uid, m.raw, m.envelope, m.flags);
    case Store(other, add, remove) =>
      StoreIsFlagAll(a, other, add, remove);
      StoreIsFlagAll(b, other, add, remove);
      WithoutFlagAll(a.messages, uid, other, add, remove);
      WithoutFlagAll(b.messages, uid, other, add, remove);
    case ExpungeAll =>
      ExpungeWithout(a.messages, uid);
      ExpungeWithout(b.messages, uid);
  }

  lemma {:induction false} RunAlike(a: Contents, b: Contents, uid: nat, ops: seq<Op>)
    requires Alike(a, b, uid)
    ensures Alike(Run(a, ops), Run(b, ops), uid)
  {
    if ops != [] {
      RunAlike(a, b, uid, ops[..|ops| - 1]);
      StepAlike(Run(a, ops[..|ops| - 1]), Run(b, ops[..|ops| - 1]), uid, ops[|ops| - 1]);
    }
  }

  lemma {:induction false} RunThenRun(c: Contents, a: seq<Op>, b: seq<Op>)
    ensures Run(Run(c, a), b) == Run(c, a + b)
  {
    if b == [] {
      assert a + b == a;
    } else {
      var n := |b| - 1;
      RunThenRun(c, a, b[..n]);
      assert (a + b)[..|a + b| - 1] == a + b[..n];
    }
  }

  /** Whatever other connections do between the three commands, every message but the
      moved one ends as if theirs had run alone and then an EXPUNGE. */
  lemma MoveAmidAnyone(c: Contents, uid: nat, before: seq<Op>, between: seq<Op>)
    requires Valid(c)
    ensures Alike(MovedAmid(c, uid, before, between), Expunge(Run(c, before + between)), uid)
  {
    UidsAreNeverReused(c, before);
    var mid := Run(c, before);
    var marked := StoreFlags(mid, uid, [DELETED], []);
    StepKeepsValid(mid, Store(uid, [DELETED], []));
    StoreIsFlagAll(mid, uid, [DELETED], []);
    WithoutFlagAll(mid.messages, uid, uid, [DELETED], []);
    RunAlike(marked, mid, uid, between);
    RunThenRun(c, before, between);
    StepAlike(Run(marked, between), Run(mid, between), uid, ExpungeAll);
  }

  // ----- the moved message -----

  ghost predicate OthersKept(messages: seq<Message>, uid: nat) {
    forall m :: m in messages ==> m.uid == uid || Kept(m)
  }

  ghost predicate MovedIsMarked(messages: seq<Message>, uid: nat) {
    forall m :: m in messages ==> m.uid != uid || DELETED in m.flags
  }

  ghost predicate Holds(messages: seq<Message>, uid: nat) { exists m :: m in messages && m.uid == uid }

  /** The message has no other spelling of the flag, which STORE would take for it. */
  ghost predicate TakesMark(messages: seq<Message>, uid: nat) {
    forall m :: m in messages && m.uid == uid && Mentions(m.flags, DELETED) ==> DELETED in m.flags
  }

  /** Another connection's STORE that takes the mark off the moved message. */
  predicate Unmarks(op: Op, uid: nat) { op.Store? && op.uid == uid && Mentions(op.remove, DELETED) }

  predicate NoneUnmarks(ops: seq<Op>, uid: nat) { forall i :: 0 <= i < |ops| ==> !Unmarks(ops[i], uid) }

  lemma StoreMarksIff(c: Contents, uid: nat)
    requires Valid(c)
    ensures MovedIsMarked(StoreFlags(c, uid, [DELETED], []).messages, uid) <==> TakesMark(c.messages, uid)
  {
    StoreIsFlagAll(c, uid, [DELETED], []);
    FlagAllAt(c.messages, uid, [DELETED], []);
    var after := FlagAll(c.messages, uid, [DELETED], []);
    forall i | 0 <= i < |after|
      ensures after[i] in after && c.messages[i] in c.messages && after[i].uid == c.messages[i].uid
      ensures after[i].uid == uid ==> (DELETED in after[i].flags <==>
                (Mentions(c.messages[i].flags, DELETED) ==> DELETED in c.messages[i].flags))
    {
      MarkedFlags(c.messages[i].flags);
    }
  }

  lemma {:induction false} AddedFlags(flags: Flags, add: Flags)
    ensures forall f :: f in AddFlags(flags, add) ==> f in flags || f in add
    ensures forall f :: f in flags ==> f in AddFlags(flags, add)
  {
    if add != [] {
      AddedFlags(flags, add[..|add| - 1]);
      assert add == add[..|add| - 1] + [add[|add| - 1]];
    }
  }

  /** A STORE that does not remove the flag leaves a marked message marked. */
  lemma StoreKeepsMark(flags: Flags, add: Flags, remove: Flags)
    requires DELETED in flags && !Mentions(remove, DELETED)
    ensures DELETED in NewFlags(flags, add, remove)
  {
    var stays := (f: string) => !Mentions(remove, f);
    FilterSame(flags, f => !Mentions(remove, f), stays);
    FilterMembers(flags, stays);
    AddedFlags(Filter(flags, stays), add);
  }

  /** One that does not add it leaves an unmarked message unmarked. */
  lemma CalmStoreAddsNoMark(flags: Flags, add: Flags, remove: Flags)
    requires DELETED !in flags && !Mentions(add, DELETED)
    ensures DELETED !in NewFlags(flags, add, remove)
  {
    var stays := (f: string) => !Mentions(remove, f);
    FilterSame(flags, f => !Mentions(remove, f), stays);
    FilterMembers(flags, stays);
    AddedFlags(Filter(flags, stays), add);
    FlaggedIsMentioned(add);
  }

  lemma StepKeepsMarked(c: Contents, uid: nat, op: Op)
    requires Valid(c) && uid < c.uidNext && MovedIsMarked(c.messages, uid) && !Unmarks(op, uid)
    ensures MovedIsMarked(Step(c, op).messages, uid)
  {
    if op.Store? {
      StoreIsFlagAll(c, op.uid, op.add, op.remove);
      FlagAllAt(c.messages, op.uid, op.add, op.remove);
      var after := Step(c, op).messages;
      forall m | m in after && m.uid == uid ensures DELETED in m.flags {
        var i :| 0 <= i < |after| && after[i] == m;
        assert c.messages[i] in c.messages;
        if op.uid == uid {
          StoreKeepsMark(c.messages[i].flags, op.add, op.remove);
        }
      }
    } else if op.ExpungeAll? {
      FilterMembers(c.messages, Kept);
    }
  }

  lemma {:induction false} RunKeepsMarked(c: Contents, uid: nat, ops: seq<Op>)
    requires Valid(c) && uid < c.uidNext && MovedIsMarked(c.messages, uid) && NoneUnmarks(ops, uid)
    ensures MovedIsMarked(Run(c, ops).messages, uid)
  {
    if ops != [] {
      var before := ops[..|ops| - 1];
      RunKeepsMarked(c, uid, before);
      UidsAreNeverReused(c, before);
      StepKeepsMarked(Run(c, before), uid, ops[|ops| - 1]);
    }
  }

  /** The moved message leaves when the STORE's mark takes and nobody takes it off. */
  lemma MovedMessageLeaves(c: Contents, uid: nat, before: seq<Op>, between: seq<Op>)
    requires Valid(c) && uid < c.uidNext && TakesMark(Run(c, before).messages, uid) && NoneUnmarks(between, uid)
    ensures !Holds(MovedAmid(c, uid, before, between).messages, uid)
  {
    UidsAreNeverReused(c, before);
    var mid := Run(c, before);
    var marked := StoreFlags(mid, uid, [DELETED], []);
    StepKeepsValid(mid, Store(uid, [DELETED], []));
    StoreMarksIff(mid, uid);
    RunKeepsMarked(marked, uid, between);
    FilterMembers(Run(marked, between).messages, Kept);
  }

  /** With nobody between STORE and EXPUNGE, the message leaves exactly then. */
  lemma MovedMessageLeavesIff(c: Contents, uid: nat, before: seq<Op>)
    requires Valid(c)
    ensures !Holds(MovedAmid(c, uid, before, []).messages, uid) <==> TakesMark(Run(c, before).messages, uid)
  {
    UidsAreNeverReused(c, before);
    var marked := StoreFlags(Run(c, before), uid, [DELETED], []);
    StoreMarksIff(Run(c, before), uid);
    FilterMembers(marked.messages, Kept);
    if !MovedIsMarked(marked.messages, uid) {
      var m :| m in marked.messages && m.uid == uid && DELETED !in m.flags;
      assert m in Expunge(marked).messages;
    }
  }

  lemma WithoutHolds(messages: seq<Message>, uid: nat)
    ensures !Holds(Without(messages, uid), uid)
    ensures !Holds(messages, uid) ==> Without(messages, uid) == messages
    ensures forall m :: m in Without(messages, uid) <==> m in messages && m.uid != uid
  {
    FilterMembers(messages, (m: Message) => m.uid != uid);
    if !Holds(messages, uid) {
      FilterKeepsAll(messages, (m: Message) => m.uid != uid);
    }
  }

  /** Exactly the moved message is taken out of what the others' commands leave, just
      when it did leave and no other message was marked by then. */
  lemma MoveAmidIsExactIff(c: Contents, uid: nat, before: seq<Op>, between: seq<Op>)
    requires Valid(c)
    ensures var alone, moved := Run(c, before + between), MovedAmid(c, uid, before, between);
            moved == alone.(messages := Without(alone.messages, uid)) <==>
              !Holds(moved.messages, uid) && OthersKept(alone.messages, uid)
  {
    var alone, moved := Run(c, before + between), MovedAmid(c, uid, before, between);
    MoveAmidAnyone(c, uid, before, between);
    WithoutHolds(alone.messages, uid);
    WithoutHolds(moved.messages, uid);
    ExpungeWithout(alone.messages, uid);
    FilterMembers(Without(alone.messages, uid), Kept);
    if OthersKept(alone.messages, uid) {
      FilterKeepsAll(Without(alone.messages, uid), Kept);
    }
    if moved.messages == Without(alone.messages, uid) {
      assert Without(moved.messages, uid) == Filter(Without(alone.messages, uid), Kept);
    }
  }

  // ----- other connections that leave the flag alone -----

  /** No message but the moved one is marked, and that one not in another spelling. */
  ghost predicate Movable(c: Contents, uid: nat) {
    Valid(c) && uid < c.uidNext && OthersKept(c.messages, uid) && TakesMark(c.messages, uid)
  }

  lemma StoreKeepsMovable(c: Contents, uid: nat, other: nat, add: Flags, remove: Flags)
    requires Movable(c, uid) && Calm(Store(other, add, remove))
    ensures Movable(StoreFlags(c, other, add, remove), uid)
  {
    StepKeepsValid(c, Store(other, add, remove));
    StoreIsFlagAll(c, other, add, remove);
    FlagAllAt(c.messages, other, add, remove);
    var after := StoreFlags(c, other, add, remove).messages;
    forall m | m in after
      ensures m.uid == uid || Kept(m)
      ensures m.uid == uid && Mentions(m.flags, DELETED) ==> DELETED in m.flags
    {
      var i :| 0 <= i < |after| && after[i] == m;
      var was := c.messages[i];
      assert was in c.messages;
      if was.uid == other {
        FlagsAfterStore(was.flags, add, remove, DELETED);
        if DELETED in was.flags {
          StoreKeepsMark(was.flags, add, remove);
        } else {
          CalmStoreAddsNoMark(was.flags, add, remove);
        }
      }
    }
  }

  lemma StepKeepsMovable(c: Contents, uid: nat, op: Op)
    requires Movable(c, uid) && Calm(op)
    ensures Movable(Step(c, op), uid)
  {
    StepKeepsValid(c, op);
    match op
    case Deliver(_, _) =>
    case CopyIn(_) =>
    case ExpungeAll => FilterMembers(c.messages, Kept);
    case Store(other, add, remove) => StoreKeepsMovable(c, uid, other, add, remove);
  }

  lemma {:induction false} RunKeepsMovable(c: Contents, uid: nat, ops: seq<Op>)
    requires Movable(c, uid) && AllCalm(ops)
    ensures Movable(Run(c, ops), uid)
  {
    if ops != [] {
      RunKeepsMovable(c, uid, ops[..|ops| - 1]);
      StepKeepsMovable(Run(c, ops[..|ops| - 1]), uid, ops[|ops| - 1]);
    }
  }

  /** Whatever calm commands other connections run between the three, the source ends
      as if they had run alone and then exactly the moved message had been taken out:
      every arrival is there, in order, with its flags. */
  lemma MoveAmidOthers(c: Contents, uid: nat, before: seq<Op>, between: seq<Op>)
    requires Movable(c, uid) && AllCalm(before) && AllCalm(between)
    ensures var alone := Run(c, before + between);
            MovedAmid(c, uid, before, between) == alone.(messages := Without(alone.messages, uid))
  {
    RunKeepsMovable(c, uid, before);
    forall i | 0 <= i < |between| ensures !Unmarks(between[i], uid) {
      assert Calm(between[i]);
    }
    MovedMessageLeaves(c, uid, before, between);
    RunKeepsMovable(Run(c, before), uid, between);
    RunThenRun(c, before, between);
    MoveAmidIsExactIff(c, uid, before, between);
  }

  // ----- the mailbox moved to -----

  /** UIDs and messages as they are once one more arrived under `at`. */
  function Lift(uid: nat, at: nat): nat { if uid < at then uid else uid + 1 }

  function LiftAll(messages: seq<Message>, at: nat): seq<Message> {
    seq(|messages|, i requires 0 <= i < |messages| => messages[i].(uid := Lift(messages[i].uid, at)))
  }

  /** A command as it would have been without that arrival; one on the arrival itself
      names a UID that no message has. */
  function Lower(op: Op, at: nat): Op {
    if op.Store? then op.(uid := if op.uid < at then op.uid else if op.uid == at then 0 else op.uid - 1) else op
  }

  function LowerAll(ops: seq<Op>, at: nat): seq<Op> {
    seq(|ops|, i requires 0 <= i < |ops| => Lower(ops[i], at))
  }

  /** `a` has the message `at`, and `b` is the mailbox it never came to. */
  ghost predicate Gained(a: Contents, b: Contents, at: nat) {
    && Valid(a) && Valid(b) && at <= b.uidNext && a.uidNext == b.uidNext + 1 && a.uidValidity == b.uidValidity
    && Without(a.messages, at) == LiftAll(b.messages, at)
  }

  lemma AppendGained(a: Contents, b: Contents, at: nat, raw: Raw, envelope: Envelope, flags: Flags)
    requires Gained(a, b, at)
    ensures Gained(Append(a, raw, envelope, flags), Append(b, raw, envelope, flags), at)
  {
    var m, n := Message(a.uidNext, raw, envelope, flags), Message(b.uidNext, raw, envelope, flags);
    StepKeepsValid(a, CopyIn(m));
    StepKeepsValid(b, CopyIn(m));
    FilterAppend(a.messages, [m], (x: Message) => x.uid != at);
    assert LiftAll(b.messages + [n], at) == LiftAll(b.messages, at) + [m];
  }

  lemma FlagNone(messages: seq<Message>, uid: nat, add: Flags, remove: Flags)
    requires !Holds(messages, uid)
    ensures FlagAll(messages, uid, add, remove) == messages
  {
    FlagAllAt(messages, uid, add, remove);
    forall i | 0 <= i < |messages| ensures messages[i].uid != uid {
      assert messages[i] in messages;
    }
  }

  lemma FlagLifted(messages: seq<Message>, at: nat, op: Op)
    requires op.Store? && op.uid != at
    ensures FlagAll(LiftAll(messages, at), op.uid, op.add, op.remove)
         == LiftAll(FlagAll(messages, Lower(op, at).uid, op.add, op.remove), at)
  {
    FlagAllAt(messages, Lower(op, at).uid, op.add, op.remove);
    FlagAllAt(LiftAll(messages, at), op.uid, op.add, op.remove);
  }

  lemma StoreGained(a: Contents, b: Contents, at: nat, op: Op)
    requires Gained(a, b, at) && op.Store?
    ensures Gained(Step(a, op), Step(b, Lower(op, at)), at)
  {
    var low := Lower(op, at);
    StepKeepsValid(a, op);
    StepKeepsValid(b, low);
    StoreIsFlagAll(a, op.uid, op.add, op.remove);
    StoreIsFlagAll(b, low.uid, op.add, op.remove);
    WithoutFlagAll(a.messages, at, op.uid, op.add, op.remove);
    if op.uid == at {
      FlagNone(b.messages, 0, op.add, op.remove);
    } else {
      FlagLifted(b.messages, at, op);
    }
  }

  lemma {:induction false} LiftKept(messages: seq<Message>, at: nat)
    ensures Filter(LiftAll(messages, at), Kept) == LiftAll(Filter(messages, Kept), at)
  {
    if messages != [] {
      var lifted := LiftAll(messages, at);
      assert lifted[1..] == LiftAll(messages[1..], at);
      LiftKept(messages[1..], at);
      assert LiftAll([messages[0]] + Filter(messages[1..], Kept), at)
          == [lifted[0]] + LiftAll(Filter(messages[1..], Kept), at);
    }
  }

  lemma StepGained(a: Contents, b: Contents, at: nat, op: Op)
    requires Gained(a, b, at)
    ensures Gained(Step(a, op), Step(b, Lower(op, at)), at)
  {
    match op
    case Deliver(raw, envelope) => AppendGained(a, b, at, raw, envelope, []);
    case CopyIn(m) => AppendGained(a, b, at, m.raw, m.envelope, m.flags);
    case Store(_, _, _) => StoreGained(a, b, at, op);
    case ExpungeAll =>
      StepKeepsValid(a, op);
      StepKeepsValid(b, op);
      ExpungeWithout(a.messages, at);
      LiftKept(b.messages, at);
  }

  lemma {:induction false} RunGained(a: Contents, b: Contents, at: nat, ops: seq<Op>)
    requires Gained(a, b, at)
    ensures Gained(Run(a, ops), Run(b, LowerAll(ops, at)), at)
  {
    if ops != [] {
      var n := |ops| - 1;
      RunGained(a, b, at, ops[..n]);
      assert LowerAll(ops, at)[..n] == LowerAll(ops[..n], at);
      StepGained(Run(a, ops[..n]), Run(b, LowerAll(ops[..n], at)), at, ops[n]);
    }
  }

  lemma CopyGains(d: Contents, m: Message)
    requires Valid(d)
    ensures Gained(Step(d, CopyIn(m)), d, d.uidNext)
  {
    StepKeepsValid(d, CopyIn(m));
    var copy := m.(uid := d.uidNext);
    FilterAppend(d.messages, [copy], (x: Message) => x.uid != d.uidNext);
    FilterKeepsAll(d.messages, (x: Message) => x.uid != d.uidNext);
    assert LiftAll(d.messages, d.uidNext) == d.messages;
  }

  /** A command that marks the message `at`. */
  predicate Marks(op: Op, at: nat) { op.Store? && op.uid == at && Mentions(op.add, DELETED) }

  predicate NoneMarks(ops: seq<Op>, at: nat) { forall i :: 0 <= i < |ops| ==> !Marks(ops[i], at) }

  /** The copy is there under its UID, unmarked, with its bytes and envelope. */
  ghost predicate HasCopy(c: Contents, at: nat, m: Message) {
    exists x :: x in c.messages && Kept(x) && IdentityOf(x) == (at, m.raw, m.envelope)
  }

  lemma StepKeepsCopy(c: Contents, at: nat, m: Message, op: Op)
    requires Valid(c) && HasCopy(c, at, m) && !Marks(op, at)
    ensures HasCopy(Step(c, op), at, m)
  {
    var x :| x in c.messages && Kept(x) && IdentityOf(x) == (at, m.raw, m.envelope);
    match op
    case Deliver(_, _) => assert x in Step(c, op).messages;
    case CopyIn(_) => assert x in Step(c, op).messages;
    case ExpungeAll =>
      FilterMembers(c.messages, Kept);
      assert x in Step(c, op).messages;
    case Store(uid, add, remove) =>
      StoreIsFlagAll(c, uid, add, remove);
      FlagAllAt(c.messages, uid, add, remove);
      var i :| 0 <= i < |c.messages| && c.messages[i] == x;
      if uid == at {
        CalmStoreAddsNoMark(x.flags, add, remove);
      }
      assert Step(c, op).messages[i] in Step(c, op).messages;
  }

  lemma {:induction false} RunKeepsCopy(c: Contents, at: nat, m: Message, ops: seq<Op>)
    requires Valid(c) && HasCopy(c, at, m) && NoneMarks(ops, at)
    ensures HasCopy(Run(c, ops), at, m)
  {
    if ops != [] {
      var before := ops[..|ops| - 1];
      RunKeepsCopy(c, at, m, before);
      UidsAreNeverReused(c, before);
      StepKeepsCopy(Run(c, before), at, m, ops[|ops| - 1]);
    }
  }

  /** Whatever other connections do to the destination before and after the COPY, it
      gains exactly one message: under the UID that was next, and the rest as if it had
      never come but for the UIDs given since. The copy stays as long as nobody marks it. */
  lemma DestinationGainsOneCopy(d: Contents, m: Message, before: seq<Op>, since: seq<Op>)
    requires Valid(d)
    ensures var at := Run(d, before).uidNext;
            var after, alone := Run(d, before + [CopyIn(m)] + since), Run(d, before + LowerAll(since, at));
            && Gained(after, alone, at)
            && (Kept(m) && NoneMarks(since, at) ==> HasCopy(after, at, m))
  {
    UidsAreNeverReused(d, before);
    var mid := Run(d, before);
    var copied := Step(mid, CopyIn(m));
    StepKeepsValid(mid, CopyIn(m));
    assert (before + [CopyIn(m)])[..|before|] == before;
    RunThenRun(d, before + [CopyIn(m)], since);
    RunThenRun(d, before, LowerAll(since, mid.uidNext));
    CopyGains(mid, m);
    RunGained(copied, mid, mid.uidNext, since);
    if Kept(m) && NoneMarks(since, mid.uidNext) {
      assert copied.messages[|mid.messages|] in copied.messages;
      RunKeepsCopy(copied, mid.uidNext, m, since);
    }
  }
}
