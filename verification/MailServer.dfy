/** The store as the server runs it: mailboxes are objects whose messages, flags
    and `uidNext` change in place, shared by every connection through one map. */
module MailServer {
  import opened Basics
  import opened MailStore
  import opened MailMove

  class Mailbox {
    var messages: seq<Message>
    var uidValidity: nat
    var uidNext: nat

    function View(): Contents
      reads this
    {
      Contents(messages, uidValidity, uidNext)
    }

    constructor (validity: nat)
      ensures View() == Contents([], validity, 1)
    {
      messages, uidValidity, uidNext := [], validity, 1;
    }

    method AppendMessage(raw: Raw, envelope: Envelope, flags: Flags) returns (uid: nat)
      modifies this
      ensures uid == old(uidNext) && View() == Append(old(View()), raw, envelope, flags)
    {
      uid := uidNext;
      uidNext := uidNext + 1;
      messages := messages + [Message(uid, raw, envelope, flags)];
    }

    /** The resulting flags, or `None` when no message has that UID. */
    method ChangeFlags(uid: nat, add: Flags, remove: Flags) returns (result: Option<Flags>)
      modifies this
      ensures View() == StoreFlags(old(View()), uid, add, remove)
      ensures var i := IndexOf(messages, uid);
              result == if i < |messages| then Some(messages[i].flags) else None
    {
      var i := FindMessage(messages, uid);
      if i == |messages| {
        return None;
      }
      var flags := Retain(messages[i].flags, remove);
      for k := 0 to |add|
        invariant flags == AddFlags(Filter(messages[i].flags, f => !Mentions(remove, f)), add[..k])
      {
        assert add[..k + 1][..k] == add[..k];
        if !Mentions(flags, add[k]) {
          flags := flags + [add[k]];
        }
      }
      assert add[..|add|] == add;
      messages := messages[i := messages[i].(flags := flags)];
      FirstWhereIs(messages, (m: Message) => m.uid == uid, i);
      result := Some(flags);
    }

    /** Drops every message flagged `\Deleted` and reports their UIDs, in order. */
    method ExpungeDeleted() returns (removed: seq<nat>)
      modifies this
      ensures View() == Expunge(old(View()))
      ensures removed == DeletedUids(old(messages))
    {
      removed := [];
      var kept := [];
      for i := 0 to |messages|
        invariant View() == old(View())
        invariant kept == Filter(messages[..i], Kept) && removed == DeletedUids(messages[..i])
      {
        assert messages[..i + 1] == messages[..i] + [messages[i]];
        FilterAppend(messages[..i], [messages[i]], Kept);
        DeletedOneMore(messages[..i], messages[i]);
        if DELETED in messages[i].flags {
          removed := removed + [messages[i].uid];
        } else {
          kept := kept + [messages[i]];
        }
      }
      assert messages[..|messages|] == messages;
      messages := kept;
    }
  }

  predicate Deleted(m: Message) { DELETED in m.flags }

  function UidsOf(messages: seq<Message>): seq<nat> {
    seq(|messages|, i requires 0 <= i < |messages| => messages[i].uid)
  }

  function DeletedUids(messages: seq<Message>): seq<nat> { UidsOf(Filter(messages, Deleted)) }

  lemma DeletedOneMore(messages: seq<Message>, m: Message)
    ensures DeletedUids(messages + [m]) == DeletedUids(messages) + if Deleted(m) then [m.uid] else []
  {
    FilterAppend(messages, [m], Deleted);
  }

  /** The first message with this UID (`find`). */
  method FindMessage(messages: seq<Message>, uid: nat) returns (i: nat)
    ensures i == IndexOf(messages, uid)
  {
    i := 0;
    while i < |messages| && messages[i].uid != uid
      invariant i <= |messages|
      invariant forall k :: 0 <= k < i ==> messages[k].uid != uid
    {
      i := i + 1;
    }
    FirstWhereIs(messages, (m: Message) => m.uid == uid, i);
  }

  method Retain(flags: Flags, remove: Flags) returns (kept: Flags)
    ensures kept == Filter(flags, f => !Mentions(remove, f))
  {
    kept := [];
    ghost var keep := f => !Mentions(remove, f);
    for i := 0 to |flags|
      invariant kept == Filter(flags[..i], keep)
    {
      assert flags[..i + 1] == flags[..i] + [flags[i]];
      FilterAppend(flags[..i], [flags[i]], keep);
      if !Mentions(remove, flags[i]) {
        kept := kept + [flags[i]];
      }
    }
    assert flags[..|flags|] == flags;
    FilterSame(flags, keep, f => !Mentions(remove, f));
  }

  class Store {
    var mailboxes: map<string, Mailbox>

    /** Each name has a mailbox object of its own. */
    ghost predicate Separate()
      reads this
    {
      forall a, b :: a in mailboxes && b in mailboxes && a != b ==> mailboxes[a] != mailboxes[b]
    }

    ghost function View(): Boxes
      reads this, mailboxes.Values
    {
      map name | name in mailboxes :: mailboxes[name].View()
    }

    constructor ()
      ensures Separate() && View() == map[]
    {
      mailboxes := map[];
    }

    /** The mailbox of that name, created when it does not exist. */
    method Entry(name: string) returns (box: Mailbox)
      requires Separate()
      modifies `mailboxes
      ensures Separate() && name in mailboxes && mailboxes[name] == box
      ensures old(mailboxes.Values) <= mailboxes.Values
      ensures forall b :: b in mailboxes.Values ==> b in old(mailboxes.Values) || fresh(b)
      ensures View() == old(View())[name := Box(old(View()), name)]
    {
      if name !in mailboxes {
        box := new Mailbox(1);
        ghost var before := mailboxes;
        mailboxes := mailboxes[name := box];
        assert forall n :: n in before ==> before[n] in mailboxes.Values by {
          forall n | n in before ensures before[n] in mailboxes.Values {
            assert mailboxes[n] == before[n];
          }
        }
      }
      box := mailboxes[name];
    }

    /** Appends to the mailbox of that name, which both deliveries and copies do. */
    method AppendTo(name: string, raw: Raw, envelope: Envelope, flags: Flags) returns (uid: nat)
      requires Separate()
      modifies this, mailboxes.Values
      ensures Separate()
      ensures forall b :: b in mailboxes.Values ==> b in old(mailboxes.Values) || fresh(b)
      ensures uid == Box(old(View()), name).uidNext
      ensures View() == old(View())[name := Append(Box(old(View()), name), raw, envelope, flags)]
    {
      var box := Entry(name);
      assert box.View() == View()[name];
      uid := box.AppendMessage(raw, envelope, flags);
    }

    method Deliver(recipient: string, raw: Raw, envelope: Envelope) returns (uid: nat)
      requires Separate()
      modifies this, mailboxes.Values
      ensures Separate()
      ensures uid == Box(old(View()), recipient).uidNext
      ensures View() == old(View())[recipient := Append(Box(old(View()), recipient), raw, envelope, [])]
    {
      uid := AppendTo(recipient, raw, envelope, []);
    }

    method CopyMessage(src: string, uid: nat, dest: string) returns (copied: Option<nat>)
      requires Separate()
      modifies this, mailboxes.Values
      ensures Separate()
      ensures forall b :: b in mailboxes.Values ==> b in old(mailboxes.Values) || fresh(b)
      ensures copied.Some? == Copy(old(View()), src, uid, dest).Some?
      ensures copied.Some? ==> copied.value == Box(old(View()), dest).uidNext
      ensures View() == if copied.Some? then Copy(old(View()), src, uid, dest).value else old(View())
    {
      if src !in mailboxes {
        return None;
      }
      var messages := mailboxes[src].messages;
      assert View()[src].messages == messages;
      var i := FindMessage(messages, uid);
      if i == |messages| {
        return None;
      }
      var newUid := AppendTo(dest, messages[i].raw, messages[i].envelope, messages[i].flags);
      copied := Some(newUid);
    }

    /** The commands `move_message` falls back to, as the server carries them out. */
    method MoveMessage(src: string, uid: nat, dest: string) returns (moved: bool)
      requires Separate()
      modifies this, mailboxes.Values
      ensures Separate()
      ensures moved == Move(old(View()), src, uid, dest).Some?
      ensures View() == if moved then Move(old(View()), src, uid, dest).value else old(View())
    {
      if src !in mailboxes {
        return false;
      }
      var copied := CopyMessage(src, uid, dest);
      if copied.None? {
        return false;
      }
      assert src in View();
      ghost var after := View();
      var box := mailboxes[src];
      var flags := box.ChangeFlags(uid, [DELETED], []);
      var removed := box.ExpungeDeleted();
      assert View() == after[src := MarkAndExpunge(after[src], uid)];
      moved := true;
    }
  }
}
