/** The server's mailboxes: appending, flags, expunging, copying, and the
    COPY, STORE, EXPUNGE sequence that stands in for MOVE. */
module MailStore {
  import opened Basics

  type Raw = seq<nat>

  /** What `FETCH ENVELOPE` reports about a message. */
  datatype Envelope = Envelope(subject: string, from: string, to: string, date: string, messageId: string)

  const NO_ENVELOPE := Envelope("", "", "", "", "")

  type Flags = seq<string>

  const DELETED := "\\Deleted"

  datatype Message = Message(uid: nat, raw: Raw, envelope: Envelope, flags: Flags)

  datatype Contents = Contents(messages: seq<Message>, uidValidity: nat, uidNext: nat)

  const NEW_MAILBOX := Contents([], 1, 1)

  /** UIDs strictly ascend and stay below `uidNext`: section 2.3.1.1 of RFC 3501. */
  ghost predicate Valid(c: Contents) {
    && c.uidNext >= 1
    && (forall i :: 0 <= i < |c.messages| ==> 1 <= c.messages[i].uid < c.uidNext)
    && Ascending(c.messages)
  }

  ghost predicate Ascending(messages: seq<Message>) {
    forall i, j :: 0 <= i < j < |messages| ==> messages[i].uid < messages[j].uid
  }

  // ----- what each operation does -----

  function Append(c: Contents, raw: Raw, envelope: Envelope, flags: Flags): Contents {
    c.(messages := c.messages + [Message(c.uidNext, raw, envelope, flags)], uidNext := c.uidNext + 1)
  }

  predicate Mentions(flags: Flags, flag: string) { exists i :: 0 <= i < |flags| && EqIgnoreCase(flags[i], flag) }

  function AddFlags(flags: Flags, add: Flags): Flags {
    if add == [] then flags
    else
      var before := AddFlags(flags, add[..|add| - 1]);
      if Mentions(before, add[|add| - 1]) then before else before + [add[|add| - 1]]
  }

  /** Removes first, so that a flag both removed and added ends up set. */
  function NewFlags(flags: Flags, add: Flags, remove: Flags): Flags {
    AddFlags(Filter(flags, f => !Mentions(remove, f)), add)
  }

  lemma {:induction false} FlagsAfterAdding(flags: Flags, add: Flags, flag: string)
    ensures Mentions(AddFlags(flags, add), flag) <==> Mentions(flags, flag) || Mentions(add, flag)
  {
    if add != [] {
      var n := |add| - 1;
      var before := AddFlags(flags, add[..n]);
      FlagsAfterAdding(flags, add[..n], flag);
      MentionsOneMore(add[..n], add[n], flag);
      MentionsOneMore(before, add[n], flag);
      assert add == add[..n] + [add[n]];
    }
  }

  lemma MentionsOneMore(flags: Flags, last: string, flag: string)
    ensures Mentions(flags + [last], flag) <==> Mentions(flags, flag) || EqIgnoreCase(last, flag)
  {
    var all := flags + [last];
    if Mentions(flags, flag) {
      var i :| 0 <= i < |flags| && EqIgnoreCase(flags[i], flag);
      assert EqIgnoreCase(all[i], flag);
    }
    assert all[|flags|] == last;
  }

  /** After a STORE a flag is set, in some spelling, exactly when it was added, or
      was set before and not removed; adding wins over removing, so a replace that
      removes every system flag first ends with the new set. */
  lemma FlagsAfterStore(flags: Flags, add: Flags, remove: Flags, flag: string)
    ensures Mentions(NewFlags(flags, add, remove), flag) <==>
              Mentions(add, flag) || (Mentions(flags, flag) && !Mentions(remove, flag))
  {
    var stays := (f: string) => !Mentions(remove, f);
    var kept := Filter(flags, stays);
    FilterSame(flags, f => !Mentions(remove, f), stays);
    FilterMembers(flags, stays);
    FlagsAfterAdding(kept, add, flag);
    if Mentions(kept, flag) {
      var i :| 0 <= i < |kept| && EqIgnoreCase(kept[i], flag);
      assert kept[i] in flags && stays(kept[i]);
      var k :| 0 <= k < |flags| && flags[k] == kept[i];
    }
    if Mentions(flags, flag) && !Mentions(remove, flag) {
      var i :| 0 <= i < |flags| && EqIgnoreCase(flags[i], flag);
      assert flags[i] in kept;
      var k :| 0 <= k < |kept| && kept[k] == flags[i];
    }
  }

  function IndexOf(messages: seq<Message>, uid: nat): nat { FirstWhere(messages, (m: Message) => m.uid == uid) }

  function StoreFlags(c: Contents, uid: nat, add: Flags, remove: Flags): Contents {
    var i := IndexOf(c.messages, uid);
    if i == |c.messages| then c
    else c.(messages := c.messages[i := c.messages[i].(flags := NewFlags(c.messages[i].flags, add, remove))])
  }

  predicate Kept(m: Message) { DELETED !in m.flags }

  function Expunge(c: Contents): Contents { c.(messages := Filter(c.messages, Kept)) }

  // ----- runs of one mailbox -----

  datatype Op = Deliver(raw: Raw, envelope: Envelope) | CopyIn(message: Message)
              | Store(uid: nat, add: Flags, remove: Flags) | ExpungeAll

  function Step(c: Contents, op: Op): Contents {
    match op
    case Deliver(raw, envelope) => Append(c, raw, envelope, [])
    case CopyIn(m) => Append(c, m.raw, m.envelope, m.flags)
    case Store(uid, add, remove) => StoreFlags(c, uid, add, remove)
    case ExpungeAll => Expunge(c)
  }

  function Run(c: Contents, ops: seq<Op>): Contents {
    if ops == [] then c else Step(Run(c, ops[..|ops| - 1]), ops[|ops| - 1])
  }

  function IdentityOf(m: Message): (nat, Raw, Envelope) { (m.uid, m.raw, m.envelope) }

  /** The messages a run brought in, as they were when they arrived. */
  function Arrivals(c: Contents, ops: seq<Op>): seq<Message> {
    if ops == [] then []
    else
      var before := Run(c, ops[..|ops| - 1]);
      Arrivals(c, ops[..|ops| - 1]) +
      match ops[|ops| - 1]
      case Deliver(raw, envelope) => [Message(before.uidNext, raw, envelope, [])]
      case CopyIn(m) => [m.(uid := before.uidNext)]
      case _ => []
  }

  lemma {:induction false} FilterKeepsOrder(messages: seq<Message>, keep: Message -> bool)
    requires Ascending(messages)
    ensures Ascending(Filter(messages, keep))
  {
    if messages != [] {
      FilterKeepsOrder(messages[1..], keep);
      var rest := Filter(messages[1..], keep);
      FilterMembers(messages[1..], keep);
      forall i | 0 <= i < |rest| ensures messages[0].uid < rest[i].uid {
        assert rest[i] in messages[1..];
        var k :| 0 <= k < |messages[1..]| && messages[1..][k] == rest[i];
      }
      assert Filter(messages, keep) == if keep(messages[0]) then [messages[0]] + rest else rest;
    }
  }

  lemma StepKeepsValid(c: Contents, op: Op)
    requires Valid(c)
    ensures Valid(Step(c, op)) && c.uidNext <= Step(c, op).uidNext && Step(c, op).uidValidity == c.uidValidity
  {
    if op.ExpungeAll? {
      FilterKeepsOrder(c.messages, Kept);
      var kept := Expunge(c).messages;
      FilterMembers(c.messages, Kept);
      forall i | 0 <= i < |kept| ensures 1 <= kept[i].uid < c.uidNext {
        assert kept[i] in c.messages;
      }
    }
  }

  /** Some message of `sources` has this UID, these bytes and this envelope. */
  ghost predicate Known(sources: seq<Message>, m: Message) {
    exists a :: a in sources && IdentityOf(a) == IdentityOf(m)
  }

  ghost predicate AllKnown(sources: seq<Message>, messages: seq<Message>) {
    forall m :: m in messages ==> Known(sources, m)
  }

  /** A step takes every message from the one before it, or has it arrive. */
  lemma StepOrigins(c: Contents, op: Op, m: Message)
    requires m in Step(c, op).messages
    ensures Known(c.messages, m) || m in Arrivals(c, [op])
  {
    assert [op][..0] == [];
    if op.Store? {
      var i := IndexOf(c.messages, op.uid);
      var k :| 0 <= k < |c.messages| && Step(c, op).messages[k] == m;
      assert c.messages[k] in c.messages && IdentityOf(c.messages[k]) == IdentityOf(m);
    } else if op.ExpungeAll? {
      FilterMembers(c.messages, Kept);
    } else if m in c.messages {
      assert IdentityOf(m) == IdentityOf(m);
    }
  }

  /** Over every run the mailbox stays valid, the arrivals take consecutive fresh
      UIDs that are never handed out again, and whatever is still there carries
      the bytes it arrived with. */
  lemma {:induction false} UidsAreNeverReused(c: Contents, ops: seq<Op>)
    requires Valid(c)
    ensures var r, arrivals := Run(c, ops), Arrivals(c, ops);
            && Valid(r) && r.uidValidity == c.uidValidity
            && r.uidNext == c.uidNext + |arrivals|
            && (forall k :: 0 <= k < |arrivals| ==> arrivals[k].uid == c.uidNext + k)
            && AllKnown(c.messages + arrivals, r.messages)
  {
    if ops == [] {
      forall m | m in c.messages ensures Known(c.messages + Arrivals(c, ops), m) {
        assert m in c.messages + [];
      }
    } else {
      var prefix := ops[..|ops| - 1];
      var before, arrived := Run(c, prefix), Arrivals(c, prefix);
      UidsAreNeverReused(c, prefix);
      StepKeepsValid(before, ops[|ops| - 1]);
      var r, arrivals := Run(c, ops), Arrivals(c, ops);
      forall m | m in r.messages
        ensures Known(c.messages + arrivals, m)
      {
        assert r == Step(before, ops[|ops| - 1]);
        StepOrigins(before, ops[|ops| - 1], m);
        if Known(before.messages, m) {
          var b :| b in before.messages && IdentityOf(b) == IdentityOf(m);
          assert Known(c.messages + arrived, b);
          var a :| a in c.messages + arrived && IdentityOf(a) == IdentityOf(b);
          assert a in c.messages + arrivals;
        } else {
          assert [ops[|ops| - 1]][..0] == [];
          assert arrivals == arrived + Arrivals(before, [ops[|ops| - 1]]);
          assert m in arrivals;
          assert m in c.messages + arrivals;
        }
      }
    }
  }
}
