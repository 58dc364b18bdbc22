/** Runs of a mailbox's server, the events that carry what was seen there, and the
    cache that applies them: deliveries, expunges and renumberings on one side,
    reports, fetches, downloads and moves on the other, in any order. */
module MailboxSync {
  import opened Basics
  import opened MailCache
  import S = MailStore

  /** A mailbox on its server; `given` is history: the envelope each UID was
      given to under the current UIDVALIDITY. */
  datatype Remote = Remote(c: S.Contents, given: map<nat, Envelope>)

  /** An event on its way to the cache. `v` is history except in `Seen`: the
      UIDVALIDITY in force when the event was made. */
  datatype Note =
    | Seen(v: nat, next: nat)                    // what an `EXAMINE` answered
    | Got(v: nat, headers: seq<Header>)          // the answer to a planned fetch
    | Data(v: nat, header: Header, body: string, attachments: Attachments)
    | Flagged(uid: nat, flags: seq<string>)
    | Gone(v: nat, uid: nat)                     // a message reported moved away

  /** What is under way for one mailbox: the first UIDs of the fetches planned, the
      downloads the worker connection has read and not yet sent, and the events
      sent, oldest first. */
  datatype Line = Line(pending: seq<nat>, hand: seq<Note>, notes: seq<Note>)

  const NO_LINE := Line([], [], [])

  datatype State = State(remotes: map<Box, Remote>, t: Tables, lines: map<Box, Line>)

  datatype Event =
    | Serve(op: S.Op)                      // the server's own changes
    | Renumber(c: S.Contents)              // a new UIDVALIDITY, every UID reassigned
    | Examine
    | Fetch(at: nat, headers: seq<Header>) // the actor runs a planned fetch
    | Download(header: Header, body: string, attachments: Attachments)
    | Send(at: nat)                        // the worker sends a download it holds
    | SetFlags(uid: nat, flags: seq<string>)
    | MoveAway(uid: nat)                   // a move is reported done
    | Take(now: int)                       // the cache applies the oldest event

  function LineOf(s: State, box: Box): Line { if box in s.lines then s.lines[box] else NO_LINE }

  function Assign(r: Remote, op: S.Op): map<nat, Envelope> {
    match op
    case Deliver(_, envelope) => r.given[r.c.uidNext := envelope]
    case CopyIn(m) => r.given[r.c.uidNext := m.envelope]
    case _ => r.given
  }

  function Planned(plan: SyncPlan): seq<nat> {
    match plan
    case UpToDate => []
    case FetchFrom(first) => [first]
    case Resync => [1]
  }

  /** What applying an event does to the tables, and the fetches it plans. */
  ghost predicate Applies(t: Tables, box: Box, note: Note, now: int, u: Tables, planned: seq<nat>) {
    match note
    case Seen(v, next) =>
      var (after, plan) := Report(t, box, v, next);
      u == after && planned == Planned(plan)
    case Got(_, headers) => u == IndexHeaders(t, box, headers) && planned == []
    case Data(_, h, body, attachments) =>
      IndexesMail(t, u, box, h, body, attachments, now) && planned == []
    case Flagged(uid, flags) => u == UpdateFlags(t, Key(box, uid), flags) && planned == []
    case Gone(_, uid) => u == RemoveMessage(t, Key(box, uid)) && planned == []
  }

  /** One mailbox's part of a step; the other mailboxes keep theirs. */
  ghost predicate Moves(r: Remote, t: Tables, line: Line, box: Box, e: Event, q: Remote, u: Tables, after: Line) {
    match e
    case Serve(op) => q == Remote(S.Step(r.c, op), Assign(r, op)) && u == t && after == line
    case Renumber(c) =>
      && S.Valid(c) && c.uidValidity > r.c.uidValidity && q.c == c && RemoteInv(q) && u == t && after == line
    case Examine =>
      q == r && u == t && after == line.(notes := line.notes + [Seen(r.c.uidValidity, r.c.uidNext)])
    case Fetch(at, headers) =>
      && at < |line.pending| && Fetched(r.c, line.pending[at], headers) && q == r && u == t
      && after == line.(pending := line.pending[..at] + line.pending[at + 1..],
                        notes := line.notes + [Got(r.c.uidValidity, headers)])
    case Download(h, body, attachments) =>
      && Describes(r.c, h) && q == r && u == t
      && after == line.(hand := line.hand + [Data(r.c.uidValidity, h, body, attachments)])
    case Send(at) =>
      && at < |line.hand| && q == r && u == t
      && after == line.(hand := line.hand[..at] + line.hand[at + 1..], notes := line.notes + [line.hand[at]])
    case SetFlags(uid, flags) => q == r && u == t && after == line.(notes := line.notes + [Flagged(uid, flags)])
    case MoveAway(uid) =>
      && uid < r.c.uidNext && q == r && u == t
      && after == line.(notes := line.notes + [Gone(r.c.uidValidity, uid)])
    case Take(now) =>
      && line.notes != [] && q == r
      && exists planned :: Applies(t, box, line.notes[0], now, u, planned)
           && after == line.(pending := line.pending + planned, notes := line.notes[1..])
  }

  ghost predicate Next(s: State, box: Box, e: Event, u: State) {
    && box in s.remotes && box in u.remotes && box in u.lines
    && Moves(s.remotes[box], s.t, LineOf(s, box), box, e, u.remotes[box], u.t, u.lines[box])
    && u.remotes == s.remotes[box := u.remotes[box]] && u.lines == s.lines[box := u.lines[box]]
  }

  /** Removing an account drops its rows and, with its session, its events. */
  ghost predicate AccountRemoved(s: State, account: string, u: State) {
    u == s.(t := RemoveAccount(s.t, account), lines := map b | b in s.lines && b.account != account :: s.lines[b])
  }

  ghost predicate Init(s: State) {
    && s.t == EMPTY_TABLES
    && (forall b :: LineOf(s, b) == NO_LINE)
    && forall b :: b in s.remotes ==> RemoteInv(s.remotes[b])
  }

  /** What a run is known to keep to. `inTime`: a download is applied only while the
      numbering stored for its mailbox is not newer than the one it was read under.
      `left`: a message reported moved away is no longer there. */
  datatype Terms = Terms(inTime: bool, left: bool)

  const ANY := Terms(false, false)
  const IN_TIME := Terms(true, false)
  const MOVES_LEAVE := Terms(false, true)

  predicate InTime(t: Tables, box: Box, note: Note)
    requires note.Data?
  {
    box in t.mailboxes && t.mailboxes[box].uidValidity <= note.v
  }

  ghost predicate Left(r: Remote, uid: nat) { forall m :: m in r.c.messages ==> m.uid != uid }

  ghost predicate KeepsTo(terms: Terms, r: Remote, t: Tables, line: Line, box: Box, e: Event) {
    && (terms.inTime && e.Take? && line.notes != [] && line.notes[0].Data? ==> InTime(t, box, line.notes[0]))
    && (terms.left && e.MoveAway? ==> Left(r, e.uid))
  }

  ghost predicate BoxStep(s: State, box: Box, e: Event, u: State, terms: Terms) {
    Next(s, box, e, u) && KeepsTo(terms, s.remotes[box], s.t, LineOf(s, box), box, e)
  }

  ghost predicate Steps(s: State, u: State, terms: Terms) {
    || (exists box, e :: BoxStep(s, box, e, u, terms))
    || (exists account :: AccountRemoved(s, account, u))
  }

  ghost predicate StepAt(run: seq<State>, i: nat, terms: Terms)
    requires i + 1 < |run|
  {
    Steps(run[i], run[i + 1], terms)
  }

  ghost predicate IsRun(run: seq<State>, terms: Terms) {
    && |run| > 0 && Init(run[0])
    && forall i :: 0 <= i < |run| - 1 ==> StepAt(run, i, terms)
  }

  // ----- the invariant -----

  ghost predicate RemoteInv(r: Remote) {
    && S.Valid(r.c)
    && (forall m :: m in r.c.messages ==> m.uid in r.given && r.given[m.uid] == m.envelope)
    && (forall uid :: uid in r.given ==> uid < r.c.uidNext)
  }

  ghost predicate Given(r: Remote, h: Header) { h.uid in r.given && r.given[h.uid] == h.envelope }

  /** An event made under the current numbering is true of the server. */
  ghost predicate True(r: Remote, note: Note) {
    match note
    case Seen(v, next) => v <= r.c.uidValidity && (v == r.c.uidValidity ==> next <= r.c.uidNext)
    case Got(v, headers) =>
      v <= r.c.uidValidity && (v == r.c.uidValidity ==> forall h :: h in headers ==> Given(r, h))
    case Data(v, h, _, _) => v <= r.c.uidValidity && (v == r.c.uidValidity ==> Given(r, h))
    case Flagged(_, _) => true
    case Gone(v, uid) => v <= r.c.uidValidity && (v == r.c.uidValidity ==> uid < r.c.uidNext)
  }

  /** The event was not made under a numbering older than `v`. Downloads may be: the
      worker connection sends them when it gets to it. */
  predicate NotOlder(v: nat, note: Note) { note.Flagged? || note.Data? || note.v >= v }

  ghost predicate AllNotOlder(v: nat, notes: seq<Note>) { forall i :: 0 <= i < |notes| ==> NotOlder(v, notes[i]) }

  ghost predicate AllTrue(r: Remote, notes: seq<Note>) { forall i :: 0 <= i < |notes| ==> True(r, notes[i]) }

  /** No event is older than a report sent before it. */
  ghost predicate InOrder(notes: seq<Note>) {
    forall i, j :: 0 <= i < j < |notes| && notes[i].Seen? ==> NotOlder(notes[i].v, notes[j])
  }

  ghost predicate HasLeft(r: Remote, note: Note) { note.Gone? && note.v == r.c.uidValidity ==> Left(r, note.uid) }

  ghost predicate AllLeft(r: Remote, notes: seq<Note>) { forall i :: 0 <= i < |notes| ==> HasLeft(r, notes[i]) }

  ghost predicate LineInv(r: Remote, line: Line, terms: Terms) {
    && AllTrue(r, line.notes) && AllTrue(r, line.hand) && InOrder(line.notes)
    && (terms.left ==> AllLeft(r, line.notes))
    && forall i :: 0 <= i < |line.hand| ==> line.hand[i].Data?
  }

  ghost predicate Owed(pending: seq<nat>, uid: nat) { exists i :: 0 <= i < |pending| && pending[i] <= uid }

  predicate IsGot(note: Note) { note.Got? }

  ghost predicate Coming(notes: seq<Note>, uid: nat) {
    exists i :: 0 <= i < |notes| && IsGot(notes[i]) && Names(notes[i].headers, uid)
  }

  ghost predicate Accounted(t: Tables, line: Line, box: Box, uid: nat) {
    Key(box, uid) in t.messages || Owed(line.pending, uid) || Coming(line.notes, uid)
  }

  /** Below the stored UIDNEXT every message of the server is cached, or an event on
      its way or a planned fetch will bring it. */
  ghost predicate Complete(r: Remote, t: Tables, line: Line, box: Box, next: nat) {
    forall m :: m in r.c.messages && m.uid < next ==> Accounted(t, line, box, m.uid)
  }

  predicate RowTells(row: SearchRow, e: Envelope) { row.subject == e.subject && row.from == e.from && row.to == e.to }

  ghost predicate RowIsCurrent(r: Remote, row: SearchRow) {
    row.key.uid in r.given && RowTells(row, r.given[row.key.uid])
  }

  /** Every row of the mailbox, in each table, is about the message its UID was
      given to under the current numbering. */
  ghost predicate Current(r: Remote, t: Tables, box: Box) {
    && (forall k :: k in t.messages && k.box == box ==>
          k.uid in r.given && r.given[k.uid] == t.messages[k].envelope)
    && (forall k :: k in t.bodies && k.box == box ==> k.uid in r.given)
    && (forall row :: row in t.search && row.key.box == box ==> RowIsCurrent(r, row))
  }

  ghost predicate NoRows(t: Tables, box: Box) {
    && (forall k :: k in t.messages ==> k.box != box)
    && (forall k :: k in t.bodies ==> k.box != box)
    && (forall row :: row in t.search ==> row.key.box != box)
  }

  ghost predicate NoneGot(notes: seq<Note>) { forall i :: 0 <= i < |notes| ==> !IsGot(notes[i]) }

  ghost predicate BoxInv(r: Remote, t: Tables, line: Line, box: Box, terms: Terms) {
    && RemoteInv(r) && LineInv(r, line, terms)
    && (box !in t.mailboxes ==> (terms.inTime ==> NoRows(t, box)) && line.pending == [] && NoneGot(line.notes))
    && (box in t.mailboxes ==> StoredInv(r, t, line, box, terms, t.mailboxes[box]))
  }

  ghost predicate StoredInv(r: Remote, t: Tables, line: Line, box: Box, terms: Terms, stored: SyncState) {
    && stored.uidValidity <= r.c.uidValidity
    && AllNotOlder(stored.uidValidity, line.notes)
    && (stored.uidValidity == r.c.uidValidity ==>
          && stored.uidNext <= r.c.uidNext
          && (terms.left ==> Complete(r, t, line, box, stored.uidNext))
          && (terms.inTime ==> Current(r, t, box)))
  }

  ghost predicate Inv(s: State, terms: Terms) {
    forall b :: b in s.remotes ==> BoxInv(s.remotes[b], s.t, LineOf(s, b), b, terms)
  }

  // ----- other mailboxes -----

  /** The two caches hold the same rows for this mailbox, but for flags and texts. */
  ghost predicate SameBox(t: Tables, u: Tables, box: Box) {
    && Stored(t, box) == Stored(u, box)
    && (forall k: Key :: k.box == box ==>
          && (k in t.messages <==> k in u.messages)
          && (k in t.messages ==> t.messages[k].envelope == u.messages[k].envelope))
    && (forall k: Key :: k.box == box && k in u.bodies ==> k in t.bodies)
    && (forall row :: row in u.search && row.key.box == box ==> row in t.search)
  }

  lemma SameBoxKeeps(r: Remote, t: Tables, u: Tables, line: Line, box: Box, terms: Terms)
    requires BoxInv(r, t, line, box, terms) && SameBox(t, u, box)
    ensures BoxInv(r, u, line, box, terms)
  {
    assert Stored(t, box).Some? <==> box in t.mailboxes;
    assert Stored(u, box).Some? <==> box in u.mailboxes;
    if terms.left && box in t.mailboxes && t.mailboxes[box].uidValidity == r.c.uidValidity {
      forall m | m in r.c.messages && m.uid < u.mailboxes[box].uidNext ensures Accounted(u, line, box, m.uid) {
        assert Accounted(t, line, box, m.uid);
      }
    }
  }

  lemma ForgetRows(t: Tables, goes: Key -> bool)
    ensures forall row :: row in Forget(t, goes).search <==> row in t.search && !goes(row.key)
  {
    FilterMembers(t.search, (r: SearchRow) => !goes(r.key));
  }

  lemma AppliesElsewhere(t: Tables, box: Box, note: Note, now: int, u: Tables, planned: seq<nat>, other: Box)
    requires Applies(t, box, note, now, u, planned) && other != box
    ensures SameBox(t, u, other)
  {
    match note
    case Seen(v, next) => ForgetRows(t, (k: Key) => k.box == box);
    case Got(_, headers) => IndexHeadersRows(t, box, headers);
    case Data(_, h, body, attachments) => WriteElsewhere(t, box, h, body, attachments, now, u, other);
    case Flagged(_, _) =>
    case Gone(_, uid) => ForgetRows(t, (k: Key) => k == Key(box, uid));
  }

  lemma WriteElsewhere(t: Tables, box: Box, h: Header, body: string, attachments: Attachments, now: int, u: Tables,
                       other: Box)
    requires IndexesMail(t, u, box, h, body, attachments, now) && other != box
    ensures SameBox(t, u, other)
  {
    WrittenRows(t, box, h, body, attachments, now);
    var written := WriteMail(t, box, h, body, attachments, now);
    assert u.bodies.Keys <= written.bodies.Keys == t.bodies.Keys + {Key(box, h.uid)};
    assert forall k: Key :: k.box == other ==> k != Key(box, h.uid);
  }

  lemma WrittenRows(t: Tables, box: Box, h: Header, body: string, attachments: Attachments, now: int)
    ensures forall row :: row in WriteMail(t, box, h, body, attachments, now).search ==>
              || row in t.search
              || row == SearchRow(Key(box, h.uid), h.envelope.subject, h.envelope.from, h.envelope.to, body)
  {
    FilterMembers(t.search, (r: SearchRow) => r.key != Key(box, h.uid));
  }

  lemma OthersUntouched(s: State, box: Box, e: Event, u: State, other: Box)
    requires Next(s, box, e, u) && other != box
    ensures SameBox(s.t, u.t, other) && LineOf(u, other) == LineOf(s, other)
    ensures other in u.remotes ==> other in s.remotes && u.remotes[other] == s.remotes[other]
  {
    if e.Take? {
      var line := LineOf(s, box);
      var planned :| Applies(s.t, box, line.notes[0], e.now, u.t, planned)
                     && u.lines[box] == line.(pending := line.pending + planned, notes := line.notes[1..]);
      AppliesElsewhere(s.t, box, line.notes[0], e.now, u.t, planned, other);
    }
  }

  // ----- the server's steps -----

  lemma ServeKeepsRemote(r: Remote, op: S.Op)
    requires RemoteInv(r)
    ensures var q := Remote(S.Step(r.c, op), Assign(r, op));
            && RemoteInv(q)
            && (forall m :: m in q.c.messages ==>
                m.uid >= r.c.uidNext || exists b :: b in r.c.messages && b.uid == m.uid)
  {
    var q := Remote(S.Step(r.c, op), Assign(r, op));
    S.StepKeepsValid(r.c, op);
    forall m | m in q.c.messages
      ensures m.uid in q.given && q.given[m.uid] == m.envelope
      ensures m.uid >= r.c.uidNext || exists b :: b in r.c.messages && b.uid == m.uid
    {
      S.StepOrigins(r.c, op, m);
      assert [op][..0] == [];
      if S.Known(r.c.messages, m) {
        var b :| b in r.c.messages && S.IdentityOf(b) == S.IdentityOf(m);
        assert b.uid < r.c.uidNext;
      }
    }
  }

  lemma ServeKeepsTrue(r: Remote, op: S.Op, notes: seq<Note>)
    requires RemoteInv(r) && AllTrue(r, notes)
    ensures AllTrue(Remote(S.Step(r.c, op), Assign(r, op)), notes)
  {
    var q := Remote(S.Step(r.c, op), Assign(r, op));
    S.StepKeepsValid(r.c, op);
    ServeKeepsRemote(r, op);
    forall i | 0 <= i < |notes| ensures True(q, notes[i]) {
      assert True(r, notes[i]);
    }
  }

  /** What left does not come back: arrivals take fresh UIDs. */
  lemma ServeKeepsLeft(r: Remote, op: S.Op, note: Note)
    requires RemoteInv(r) && True(r, note) && HasLeft(r, note)
    ensures HasLeft(Remote(S.Step(r.c, op), Assign(r, op)), note)
  {
    S.StepKeepsValid(r.c, op);
    ServeKeepsRemote(r, op);
  }

  lemma ServeKeeps(r: Remote, op: S.Op, t: Tables, line: Line, box: Box, terms: Terms)
    requires BoxInv(r, t, line, box, terms)
    ensures BoxInv(Remote(S.Step(r.c, op), Assign(r, op)), t, line, box, terms)
  {
    var q := Remote(S.Step(r.c, op), Assign(r, op));
    S.StepKeepsValid(r.c, op);
    ServeKeepsRemote(r, op);
    ServeKeepsTrue(r, op, line.notes);
    ServeKeepsTrue(r, op, line.hand);
    if terms.left {
      forall i | 0 <= i < |line.notes| ensures HasLeft(q, line.notes[i]) {
        assert True(r, line.notes[i]) && HasLeft(r, line.notes[i]);
        ServeKeepsLeft(r, op, line.notes[i]);
      }
    }
    if box in t.mailboxes && t.mailboxes[box].uidValidity == r.c.uidValidity {
      if terms.left {
        forall m | m in q.c.messages && m.uid < t.mailboxes[box].uidNext ensures Accounted(t, line, box, m.uid) {
          var b :| b in r.c.messages && b.uid == m.uid;
          assert Accounted(t, line, box, b.uid);
        }
      }
      if terms.inTime {
        ServeKeepsCurrent(r, op, t, box);
      }
    }
  }

  lemma ServeKeepsCurrent(r: Remote, op: S.Op, t: Tables, box: Box)
    requires RemoteInv(r) && Current(r, t, box)
    ensures Current(Remote(S.Step(r.c, op), Assign(r, op)), t, box)
  {
    var q := Remote(S.Step(r.c, op), Assign(r, op));
    forall row | row in t.search && row.key.box == box ensures RowIsCurrent(q, row) {
      assert RowIsCurrent(r, row);
    }
  }

  lemma RenumberKeeps(r: Remote, q: Remote, t: Tables, line: Line, box: Box, terms: Terms)
    requires BoxInv(r, t, line, box, terms) && RemoteInv(q) && q.c.uidValidity > r.c.uidValidity
    ensures BoxInv(q, t, line, box, terms)
  {
    forall i | 0 <= i < |line.notes| ensures True(q, line.notes[i]) && HasLeft(q, line.notes[i]) {
      assert True(r, line.notes[i]);
    }
    forall i | 0 <= i < |line.hand| ensures True(q, line.hand[i]) {
      assert True(r, line.hand[i]);
    }
  }

  // ----- sending -----

  /** An event of the current numbering may be sent, and a download at any time. */
  lemma SendKeeps(r: Remote, t: Tables, line: Line, box: Box, note: Note, terms: Terms)
    requires BoxInv(r, t, line, box, terms) && True(r, note)
    requires note.Flagged? || note.Data? || note.v == r.c.uidValidity
    requires note.Got? ==> box in t.mailboxes
    requires terms.left ==> HasLeft(r, note)
    ensures BoxInv(r, t, line.(notes := line.notes + [note]), box, terms)
  {
    var n := |line.notes|;
    var notes := line.notes + [note];
    forall i | 0 <= i < n && line.notes[i].Seen? ensures NotOlder(line.notes[i].v, note) {
      assert True(r, line.notes[i]);
    }
    if terms.left && box in t.mailboxes && t.mailboxes[box].uidValidity == r.c.uidValidity {
      forall m | m in r.c.messages && m.uid < t.mailboxes[box].uidNext
        ensures Accounted(t, line.(notes := notes), box, m.uid)
      {
        assert Accounted(t, line, box, m.uid);
        if Coming(line.notes, m.uid) {
          var i :| 0 <= i < n && IsGot(line.notes[i]) && Names(line.notes[i].headers, m.uid);
          assert IsGot(notes[i]);
        }
      }
    }
  }

  lemma DescribedIsGiven(r: Remote, h: Header)
    requires RemoteInv(r) && Describes(r.c, h)
    ensures Given(r, h)
  {
    var m :| m in r.c.messages && m.uid == h.uid && m.envelope == h.envelope;
  }

  /** A fetch no longer planned is on its way instead. */
  lemma FetchKeeps(r: Remote, t: Tables, line: Line, box: Box, at: nat, headers: seq<Header>, terms: Terms)
    requires BoxInv(r, t, line, box, terms) && at < |line.pending| && Fetched(r.c, line.pending[at], headers)
    ensures BoxInv(r, t, line.(pending := line.pending[..at] + line.pending[at + 1..],
                               notes := line.notes + [Got(r.c.uidValidity, headers)]), box, terms)
  {
    var note := Got(r.c.uidValidity, headers);
    forall h | h in headers ensures Given(r, h) {
      DescribedIsGiven(r, h);
    }
    SendKeeps(r, t, line, box, note, terms);
    var sent := line.(notes := line.notes + [note]);
    var rest := line.pending[..at] + line.pending[at + 1..];
    if terms.left && box in t.mailboxes && t.mailboxes[box].uidValidity == r.c.uidValidity {
      forall m | m in r.c.messages && m.uid < t.mailboxes[box].uidNext
        ensures Accounted(t, sent.(pending := rest), box, m.uid)
      {
        assert Accounted(t, sent, box, m.uid);
        if m.uid >= line.pending[at] {
          assert IsGot(sent.notes[|line.notes|]) && Names(headers, m.uid);
        } else if Owed(line.pending, m.uid) {
          var i :| 0 <= i < |line.pending| && line.pending[i] <= m.uid;
          assert rest[if i < at then i else i - 1] == line.pending[i];
        }
      }
    }
  }

  // ----- applying -----

  lemma RestOfLine(r: Remote, t: Tables, line: Line, box: Box, terms: Terms)
    requires BoxInv(r, t, line, box, terms) && line.notes != []
    ensures LineInv(r, line.(notes := line.notes[1..]), terms)
    ensures line.notes[0].Seen? ==> AllNotOlder(line.notes[0].v, line.notes[1..])
    ensures box in t.mailboxes ==> AllNotOlder(t.mailboxes[box].uidValidity, line.notes[1..])
  {
    forall i | 0 <= i < |line.notes[1..]|
      ensures True(r, line.notes[1..][i]) && (terms.left ==> HasLeft(r, line.notes[1..][i]))
    {
      assert True(r, line.notes[i + 1]) && (terms.left ==> HasLeft(r, line.notes[i + 1]));
    }
  }

  /** What was coming still is, or was in the event just taken. */
  lemma ComingSplits(notes: seq<Note>, uid: nat)
    requires notes != [] && Coming(notes, uid)
    ensures (IsGot(notes[0]) && Names(notes[0].headers, uid)) || Coming(notes[1..], uid)
  {
    var i :| 0 <= i < |notes| && IsGot(notes[i]) && Names(notes[i].headers, uid);
    if i > 0 {
      assert notes[1..][i - 1] == notes[i];
    }
  }

  lemma OwedGrows(pending: seq<nat>, planned: seq<nat>, uid: nat)
    ensures Owed(pending + planned, uid) <==> Owed(pending, uid) || Owed(planned, uid)
  {
    if Owed(pending, uid) {
      var i :| 0 <= i < |pending| && pending[i] <= uid;
      assert (pending + planned)[i] <= uid;
    }
    if Owed(planned, uid) {
      var i :| 0 <= i < |planned| && planned[i] <= uid;
      assert (pending + planned)[|pending| + i] <= uid;
    }
    if Owed(pending + planned, uid) {
      var i :| 0 <= i < |pending + planned| && (pending + planned)[i] <= uid;
      assert if i < |pending| then pending[i] <= uid else planned[i - |pending|] <= uid;
    }
  }

  /** Applying a report leaves every message below the new `uid_next` accounted for. */
  lemma ReportKeeps(r: Remote, t: Tables, line: Line, box: Box, terms: Terms)
    requires BoxInv(r, t, line, box, terms) && line.notes != [] && line.notes[0].Seen?
    ensures var (u, plan) := Report(t, box, line.notes[0].v, line.notes[0].next);
            BoxInv(r, u, line.(pending := line.pending + Planned(plan), notes := line.notes[1..]), box, terms)
  {
    var (v, next) := (line.notes[0].v, line.notes[0].next);
    var (u, plan) := Report(t, box, v, next);
    var after := line.(pending := line.pending + Planned(plan), notes := line.notes[1..]);
    RestOfLine(r, t, line, box, terms);
    assert True(r, line.notes[0]);
    assert box in t.mailboxes ==> NotOlder(t.mailboxes[box].uidValidity, line.notes[0]);
    ForgetRows(t, (k: Key) => k.box == box);
    if terms.left && v == r.c.uidValidity {
      forall m | m in r.c.messages && m.uid < next ensures Accounted(u, after, box, m.uid) {
        OwedGrows(line.pending, Planned(plan), m.uid);
        if plan.FetchFrom? && m.uid >= plan.firstNewUid {
          assert Planned(plan)[0] <= m.uid;
        } else if plan.Resync? {
          assert m.uid >= 1 && Planned(plan)[0] <= m.uid;
        } else if box in t.mailboxes {
          assert Accounted(t, line, box, m.uid);
          if Coming(line.notes, m.uid) {
            ComingSplits(line.notes, m.uid);
          }
        }
      }
    }
  }

  lemma {:induction false} LastOfIsThere(headers: seq<Header>, uid: nat)
    ensures LastOf(headers, uid).Some? <==> Names(headers, uid)
    ensures LastOf(headers, uid).Some? ==>
              LastOf(headers, uid).value in headers && LastOf(headers, uid).value.uid == uid
  {
    if headers != [] {
      var n := |headers| - 1;
      LastOfIsThere(headers[..n], uid);
      assert headers == headers[..n] + [headers[n]];
    }
  }

  lemma IndexKeeps(r: Remote, t: Tables, line: Line, box: Box, terms: Terms)
    requires BoxInv(r, t, line, box, terms) && line.notes != [] && line.notes[0].Got? && box in t.mailboxes
    ensures BoxInv(r, IndexHeaders(t, box, line.notes[0].headers), line.(notes := line.notes[1..]), box, terms)
  {
    var headers := line.notes[0].headers;
    var u, after := IndexHeaders(t, box, headers), line.(notes := line.notes[1..]);
    RestOfLine(r, t, line, box, terms);
    IndexHeadersRows(t, box, headers);
    if t.mailboxes[box].uidValidity == r.c.uidValidity {
      assert True(r, line.notes[0]) && NotOlder(t.mailboxes[box].uidValidity, line.notes[0]);
      forall k | k in u.messages && k.box == box && LastOf(headers, k.uid).Some?
        ensures k.uid in r.given && r.given[k.uid] == u.messages[k].envelope
      {
        LastOfIsThere(headers, k.uid);
        assert Given(r, LastOf(headers, k.uid).value);
      }
      if terms.left {
        forall m | m in r.c.messages && m.uid < t.mailboxes[box].uidNext ensures Accounted(u, after, box, m.uid) {
          LastOfIsThere(headers, m.uid);
          assert Accounted(t, line, box, m.uid);
          if Coming(line.notes, m.uid) {
            ComingSplits(line.notes, m.uid);
          }
        }
      }
    }
  }

  /** The other events bring no header that was coming. */
  lemma StillAccounted(r: Remote, t: Tables, line: Line, box: Box, next: nat, u: Tables)
    requires Complete(r, t, line, box, next) && line.notes != [] && !line.notes[0].Got?
    requires forall m :: m in r.c.messages && Key(box, m.uid) in t.messages ==> Key(box, m.uid) in u.messages
    ensures Complete(r, u, line.(notes := line.notes[1..]), box, next)
  {
    forall m | m in r.c.messages && m.uid < next
      ensures Accounted(u, line.(notes := line.notes[1..]), box, m.uid)
    {
      assert Accounted(t, line, box, m.uid);
      if Coming(line.notes, m.uid) {
        ComingSplits(line.notes, m.uid);
      }
    }
  }

  lemma DataKeeps(r: Remote, t: Tables, line: Line, box: Box, now: int, u: Tables, terms: Terms)
    requires BoxInv(r, t, line, box, terms) && line.notes != [] && line.notes[0].Data?
    requires Applies(t, box, line.notes[0], now, u, [])
    requires terms.inTime ==> InTime(t, box, line.notes[0])
    ensures BoxInv(r, u, line.(notes := line.notes[1..]), box, terms)
  {
    var note := line.notes[0];
    RestOfLine(r, t, line, box, terms);
    if box in t.mailboxes && t.mailboxes[box].uidValidity == r.c.uidValidity {
      if terms.left {
        StillAccounted(r, t, line, box, t.mailboxes[box].uidNext, u);
      }
      if terms.inTime {
        assert True(r, note);
        WriteKeepsCurrent(r, t, box, note.header, note.body, note.attachments, now, u);
      }
    }
  }

  /** A download leaves the mailbox's rows current exactly when it is about the
      message its UID now belongs to. */
  lemma WriteKeepsCurrent(r: Remote, t: Tables, box: Box, h: Header, body: string, attachments: Attachments,
                          now: int, u: Tables)
    requires Current(r, t, box) && IndexesMail(t, u, box, h, body, attachments, now)
    ensures Current(r, u, box) <==> Given(r, h)
  {
    WrittenRows(t, box, h, body, attachments, now);
    var key := Key(box, h.uid);
    assert key in u.messages && u.messages[key].envelope == h.envelope;
    if Given(r, h) {
      forall row | row in u.search && row.key.box == box ensures RowIsCurrent(r, row) {
        if row in t.search {
          assert RowIsCurrent(r, row);
        }
      }
    }
  }

  lemma FlagsKeeps(r: Remote, t: Tables, line: Line, box: Box, terms: Terms)
    requires BoxInv(r, t, line, box, terms) && line.notes != [] && line.notes[0].Flagged?
    ensures BoxInv(r, UpdateFlags(t, Key(box, line.notes[0].uid), line.notes[0].flags),
                   line.(notes := line.notes[1..]), box, terms)
  {
    RestOfLine(r, t, line, box, terms);
    var u := UpdateFlags(t, Key(box, line.notes[0].uid), line.notes[0].flags);
    if box in t.mailboxes && t.mailboxes[box].uidValidity == r.c.uidValidity {
      if terms.left {
        StillAccounted(r, t, line, box, t.mailboxes[box].uidNext, u);
      }
    }
  }

  lemma GoneKeeps(r: Remote, t: Tables, line: Line, box: Box, terms: Terms)
    requires BoxInv(r, t, line, box, terms) && line.notes != [] && line.notes[0].Gone?
    ensures BoxInv(r, RemoveMessage(t, Key(box, line.notes[0].uid)), line.(notes := line.notes[1..]), box, terms)
  {
    var key := Key(box, line.notes[0].uid);
    RestOfLine(r, t, line, box, terms);
    ForgetRows(t, (k: Key) => k == key);
    if box in t.mailboxes && t.mailboxes[box].uidValidity == r.c.uidValidity {
      assert True(r, line.notes[0]) && NotOlder(t.mailboxes[box].uidValidity, line.notes[0]);
      if terms.left {
        assert HasLeft(r, line.notes[0]);
        StillAccounted(r, t, line, box, t.mailboxes[box].uidNext, RemoveMessage(t, key));
      }
    }
  }

  lemma TakeKeeps(r: Remote, t: Tables, line: Line, box: Box, now: int, u: Tables, planned: seq<nat>, terms: Terms)
    requires BoxInv(r, t, line, box, terms) && line.notes != []
    requires Applies(t, box, line.notes[0], now, u, planned)
    requires terms.inTime && line.notes[0].Data? ==> InTime(t, box, line.notes[0])
    ensures BoxInv(r, u, line.(pending := line.pending + planned, notes := line.notes[1..]), box, terms)
  {
    assert planned == [] ==> line.pending + planned == line.pending;
    match line.notes[0]
    case Seen(_, _) => ReportKeeps(r, t, line, box, terms);
    case Got(_, _) =>
      assert IsGot(line.notes[0]);
      IndexKeeps(r, t, line, box, terms);
    case Data(_, _, _, _) => DataKeeps(r, t, line, box, now, u, terms);
    case Flagged(_, _) => FlagsKeeps(r, t, line, box, terms);
    case Gone(_, _) => GoneKeeps(r, t, line, box, terms);
  }

  // ----- every run -----

  lemma NextKeeps(s: State, box: Box, e: Event, u: State, terms: Terms)
    requires Inv(s, terms) && BoxStep(s, box, e, u, terms)
    ensures Inv(u, terms)
  {
    forall b | b in u.remotes ensures BoxInv(u.remotes[b], u.t, LineOf(u, b), b, terms) {
      if b != box {
        OthersUntouched(s, box, e, u, b);
        SameBoxKeeps(s.remotes[b], s.t, u.t, LineOf(s, b), b, terms);
      } else {
        MovesKeep(s, box, e, u, terms);
      }
    }
  }

  lemma MovesKeep(s: State, box: Box, e: Event, u: State, terms: Terms)
    requires Inv(s, terms) && BoxStep(s, box, e, u, terms)
    ensures BoxInv(u.remotes[box], u.t, u.lines[box], box, terms)
  {
    var r, q, line, after := s.remotes[box], u.remotes[box], LineOf(s, box), u.lines[box];
    if e.Serve? || e.Renumber? || e.Take? {
      ServerMovesKeep(r, s.t, line, box, e, q, u.t, after, terms);
    } else {
      ClientMovesKeep(r, s.t, line, box, e, q, u.t, after, terms);
    }
  }

  lemma ServerMovesKeep(r: Remote, t: Tables, line: Line, box: Box, e: Event, q: Remote, u: Tables, after: Line,
                        terms: Terms)
    requires BoxInv(r, t, line, box, terms) && Moves(r, t, line, box, e, q, u, after)
    requires KeepsTo(terms, r, t, line, box, e) && (e.Serve? || e.Renumber? || e.Take?)
    ensures BoxInv(q, u, after, box, terms)
  {
    match e
    case Serve(op) => ServeKeeps(r, op, t, line, box, terms);
    case Renumber(_) => RenumberKeeps(r, q, t, line, box, terms);
    case Take(now) =>
      var planned :| Applies(t, box, line.notes[0], now, u, planned)
                     && after == line.(pending := line.pending + planned, notes := line.notes[1..]);
      TakeKeeps(r, t, line, box, now, u, planned, terms);
  }

  lemma ClientMovesKeep(r: Remote, t: Tables, line: Line, box: Box, e: Event, q: Remote, u: Tables, after: Line,
                        terms: Terms)
    requires BoxInv(r, t, line, box, terms) && Moves(r, t, line, box, e, q, u, after)
    requires KeepsTo(terms, r, t, line, box, e) && !e.Serve? && !e.Renumber? && !e.Take?
    ensures BoxInv(q, u, after, box, terms)
  {
    match e
    case Examine => SendKeeps(r, t, line, box, Seen(r.c.uidValidity, r.c.uidNext), terms);
    case Fetch(at, headers) => FetchKeeps(r, t, line, box, at, headers, terms);
    case Download(h, body, attachments) => DownloadKeeps(r, t, line, box, h, body, attachments, terms);
    case Send(at) => SendHeldKeeps(r, t, line, box, at, terms);
    case SetFlags(uid, flags) => SendKeeps(r, t, line, box, Flagged(uid, flags), terms);
    case MoveAway(uid) => SendKeeps(r, t, line, box, Gone(r.c.uidValidity, uid), terms);
  }

  lemma DownloadKeeps(r: Remote, t: Tables, line: Line, box: Box, h: Header, body: string, attachments: Attachments,
                      terms: Terms)
    requires BoxInv(r, t, line, box, terms) && Describes(r.c, h)
    ensures BoxInv(r, t, line.(hand := line.hand + [Data(r.c.uidValidity, h, body, attachments)]), box, terms)
  {
    DescribedIsGiven(r, h);
    HandKeeps(r, t, line, box, line.hand + [Data(r.c.uidValidity, h, body, attachments)], terms);
  }

  lemma HandKeeps(r: Remote, t: Tables, line: Line, box: Box, hand: seq<Note>, terms: Terms)
    requires BoxInv(r, t, line, box, terms)
    requires AllTrue(r, hand) && forall i :: 0 <= i < |hand| ==> hand[i].Data?
    ensures BoxInv(r, t, line.(hand := hand), box, terms)
  {
    if terms.left && box in t.mailboxes && t.mailboxes[box].uidValidity == r.c.uidValidity {
      forall m | m in r.c.messages && m.uid < t.mailboxes[box].uidNext
        ensures Accounted(t, line.(hand := hand), box, m.uid)
      {
        assert Accounted(t, line, box, m.uid);
      }
    }
  }

  lemma SendHeldKeeps(r: Remote, t: Tables, line: Line, box: Box, at: nat, terms: Terms)
    requires BoxInv(r, t, line, box, terms) && at < |line.hand|
    ensures BoxInv(r, t, line.(hand := line.hand[..at] + line.hand[at + 1..], notes := line.notes + [line.hand[at]]),
                   box, terms)
  {
    var rest := line.hand[..at] + line.hand[at + 1..];
    assert True(r, line.hand[at]);
    SendKeeps(r, t, line, box, line.hand[at], terms);
    forall i | 0 <= i < |rest| ensures True(r, rest[i]) && rest[i].Data? {
      assert rest[i] == line.hand[if i < at then i else i + 1];
    }
    HandKeeps(r, t, line.(notes := line.notes + [line.hand[at]]), box, rest, terms);
  }

  lemma AccountRemovedKeeps(s: State, account: string, u: State, terms: Terms)
    requires Inv(s, terms) && AccountRemoved(s, account, u)
    ensures Inv(u, terms)
  {
    ForgetRows(s.t, (k: Key) => k.box.account == account);
    forall b | b in u.remotes ensures BoxInv(u.remotes[b], u.t, LineOf(u, b), b, terms) {
      if b.account != account {
        SameBoxKeeps(s.remotes[b], s.t, u.t, LineOf(s, b), b, terms);
      }
    }
  }

  lemma StepKeeps(s: State, u: State, terms: Terms)
    requires Inv(s, terms) && Steps(s, u, terms)
    ensures Inv(u, terms)
  {
    if box, e :| BoxStep(s, box, e, u, terms) {
      NextKeeps(s, box, e, u, terms);
    } else {
      var account :| AccountRemoved(s, account, u);
      AccountRemovedKeeps(s, account, u, terms);
    }
  }

  lemma {:induction false} RunKeeps(run: seq<State>, i: nat, terms: Terms)
    requires IsRun(run, terms) && i < |run|
    ensures Inv(run[i], terms)
  {
    if i > 0 {
      RunKeeps(run, i - 1, terms);
      assert StepAt(run, i - 1, terms);
      StepKeeps(run[i - 1], run[i], terms);
    }
  }

  // ----- what holds in every run -----

  /** No fetch of the mailbox is planned, and no answer to one is on its way. */
  ghost predicate RoundDone(line: Line) { line.pending == [] && NoneGot(line.notes) }

  /** In every run whose moves leave no message behind, once the fetches planned for
      a mailbox are done and applied, and while the server keeps the numbering last
      reported, each server message below the stored UIDNEXT is in the cache. */
  lemma CompletedRoundIsComplete(run: seq<State>, i: nat, box: Box)
    requires IsRun(run, MOVES_LEAVE) && i < |run|
    requires box in run[i].remotes && box in run[i].t.mailboxes && RoundDone(LineOf(run[i], box))
    requires run[i].t.mailboxes[box].uidValidity == run[i].remotes[box].c.uidValidity
    ensures forall m :: m in run[i].remotes[box].c.messages && m.uid < run[i].t.mailboxes[box].uidNext ==>
              Key(box, m.uid) in run[i].t.messages
  {
    RunKeeps(run, i, MOVES_LEAVE);
    var s := run[i];
    forall m | m in s.remotes[box].c.messages && m.uid < s.t.mailboxes[box].uidNext
      ensures Key(box, m.uid) in s.t.messages
    {
      assert Accounted(s.t, LineOf(s, box), box, m.uid);
    }
  }

  /** In every run whose downloads are applied in time, while the server keeps the
      numbering last reported, no table holds a row of an older numbering: each row
      is about the message that got its UID, and a message's own row has its envelope. */
  lemma NoRowOfAnOldNumbering(run: seq<State>, i: nat, box: Box)
    requires IsRun(run, IN_TIME) && i < |run| && box in run[i].remotes && box in run[i].t.mailboxes
    requires run[i].t.mailboxes[box].uidValidity == run[i].remotes[box].c.uidValidity
    ensures Current(run[i].remotes[box], run[i].t, box)
    ensures forall m :: m in run[i].remotes[box].c.messages && Key(box, m.uid) in run[i].t.messages ==>
              run[i].t.messages[Key(box, m.uid)].envelope == m.envelope
  {
    RunKeeps(run, i, IN_TIME);
  }

  /** In every such run a mailbox never reported has no row in any table. */
  lemma NoRowBeforeAReport(run: seq<State>, i: nat, box: Box)
    requires IsRun(run, IN_TIME) && i < |run| && box in run[i].remotes && box !in run[i].t.mailboxes
    ensures NoRows(run[i].t, box)
  {
    RunKeeps(run, i, IN_TIME);
  }

  // ----- exactly when a download does no harm -----

  /** What the tables owe a mailbox: rows of the numbering stored, and none before one is. */
  ghost predicate InStep(r: Remote, t: Tables, box: Box) {
    if box in t.mailboxes then Current(r, t, box) else NoRows(t, box)
  }

  /** In any run whatever, applying a download keeps a mailbox in step exactly when it
      is in time: its mailbox was reported, under no newer numbering than the one the
      download was read under. (A header of an old numbering is taken not to be, by
      chance, the one its UID has now.) */
  lemma InStepIffInTime(run: seq<State>, i: nat, box: Box, now: int, u: Tables)
    requires IsRun(run, ANY) && i < |run| && box in run[i].remotes
    requires LineOf(run[i], box).notes != [] && LineOf(run[i], box).notes[0].Data?
    requires box in run[i].t.mailboxes ==> run[i].t.mailboxes[box].uidValidity == run[i].remotes[box].c.uidValidity
    requires InStep(run[i].remotes[box], run[i].t, box)
    requires Applies(run[i].t, box, LineOf(run[i], box).notes[0], now, u, [])
    requires var (r, d) := (run[i].remotes[box], LineOf(run[i], box).notes[0]);
             d.v < r.c.uidValidity ==> !Given(r, d.header)
    ensures InStep(run[i].remotes[box], u, box) <==> InTime(run[i].t, box, LineOf(run[i], box).notes[0])
  {
    RunKeeps(run, i, ANY);
    var (r, t, d) := (run[i].remotes[box], run[i].t, LineOf(run[i], box).notes[0]);
    assert True(r, d);
    if box in t.mailboxes {
      WriteKeepsCurrent(r, t, box, d.header, d.body, d.attachments, now, u);
    } else {
      assert Key(box, d.header.uid) in u.messages;
    }
  }

  /** The first report of a mailbox removes no row. */
  lemma FirstReportWipesNothing(t: Tables, box: Box, validity: nat, next: nat)
    requires box !in t.mailboxes
    ensures Report(t, box, validity, next).0 == t.(mailboxes := t.mailboxes[box := SyncState(validity, next)])
  {
  }

  /** In any run whatever, applying a reported move leaves no server message below the
      stored UIDNEXT out exactly when the message has left, or is to be fetched again. */
  lemma MoveLeavesNoGapIff(run: seq<State>, i: nat, box: Box)
    requires IsRun(run, ANY) && i < |run| && box in run[i].remotes && box in run[i].t.mailboxes
    requires LineOf(run[i], box).notes != [] && LineOf(run[i], box).notes[0].Gone?
    requires Complete(run[i].remotes[box], run[i].t, LineOf(run[i], box), box, run[i].t.mailboxes[box].uidNext)
    ensures var (r, t, line) := (run[i].remotes[box], run[i].t, LineOf(run[i], box));
            var (uid, next, rest) := (line.notes[0].uid, t.mailboxes[box].uidNext, line.(notes := line.notes[1..]));
            Complete(r, RemoveMessage(t, Key(box, uid)), rest, box, next) <==>
              Left(r, uid) || uid >= next || Owed(line.pending, uid) || Coming(rest.notes, uid)
  {
    var (r, t, line) := (run[i].remotes[box], run[i].t, LineOf(run[i], box));
    var (uid, next, rest) := (line.notes[0].uid, t.mailboxes[box].uidNext, line.(notes := line.notes[1..]));
    var u := RemoveMessage(t, Key(box, uid));
    if Left(r, uid) || uid >= next || Owed(line.pending, uid) || Coming(rest.notes, uid) {
      forall m | m in r.c.messages && m.uid < next ensures Accounted(u, rest, box, m.uid) {
        assert Accounted(t, line, box, m.uid);
        if Coming(line.notes, m.uid) {
          ComingSplits(line.notes, m.uid);
        }
      }
    } else {
      var m :| m in r.c.messages && m.uid == uid;
      assert !Accounted(u, rest, box, m.uid);
    }
  }

  // ----- sending in time is enough -----

  /** A download sent while its mailbox has been reported, or is about to be, and
      under no numbering newer than its own. */
  ghost predicate InTimeAt(t: Tables, box: Box, notes: seq<Note>, at: nat)
    requires at < |notes| && notes[at].Data?
  {
    && (box in t.mailboxes || exists i :: 0 <= i < at && notes[i].Seen?)
    && (box in t.mailboxes ==> t.mailboxes[box].uidValidity <= notes[at].v)
    && forall i :: 0 <= i < at && notes[i].Seen? ==> notes[i].v <= notes[at].v
  }

  ghost predicate AllInTime(t: Tables, box: Box, notes: seq<Note>) {
    forall j :: 0 <= j < |notes| && notes[j].Data? ==> InTimeAt(t, box, notes, j)
  }

  ghost predicate SentStep(s: State, box: Box, e: Event, u: State) {
    && BoxStep(s, box, e, u, ANY)
    && (e.Send? && LineOf(s, box).hand[e.at].Data? ==>
          var notes := LineOf(s, box).notes + [LineOf(s, box).hand[e.at]];
          InTimeAt(s.t, box, notes, |notes| - 1))
  }

  ghost predicate SentSteps(s: State, u: State) {
    || (exists box, e :: SentStep(s, box, e, u))
    || (exists account :: AccountRemoved(s, account, u))
  }

  ghost predicate SentStepAt(run: seq<State>, i: nat)
    requires i + 1 < |run|
  {
    SentSteps(run[i], run[i + 1])
  }

  /** A run whose downloads are all sent in time. */
  ghost predicate SentRun(run: seq<State>) {
    && |run| > 0 && Init(run[0])
    && forall i :: 0 <= i < |run| - 1 ==> SentStepAt(run, i)
  }

  ghost predicate AllSentInTime(s: State) { forall b :: AllInTime(s.t, b, LineOf(s, b).notes) }

  lemma SentGrows(t: Tables, box: Box, notes: seq<Note>, note: Note)
    requires AllInTime(t, box, notes) && (note.Data? ==> InTimeAt(t, box, notes + [note], |notes|))
    ensures AllInTime(t, box, notes + [note])
  {
    var all := notes + [note];
    forall j | 0 <= j < |all| && all[j].Data? ensures InTimeAt(t, box, all, j) {
      if j < |notes| {
        assert InTimeAt(t, box, notes, j);
        if i :| 0 <= i < j && notes[i].Seen? {
          assert all[i].Seen?;
        }
      }
    }
  }

  lemma TakenInTime(t: Tables, box: Box, notes: seq<Note>, now: int, u: Tables, planned: seq<nat>)
    requires AllInTime(t, box, notes) && notes != [] && Applies(t, box, notes[0], now, u, planned)
    ensures notes[0].Data? ==> InTime(t, box, notes[0])
    ensures AllInTime(u, box, notes[1..])
  {
    var rest := notes[1..];
    if notes[0].Got? {
      IndexHeadersRows(t, box, notes[0].headers);
    }
    if notes[0].Data? {
      assert InTimeAt(t, box, notes, 0);
    }
    forall j | 0 <= j < |rest| && rest[j].Data? ensures InTimeAt(u, box, rest, j) {
      assert InTimeAt(t, box, notes, j + 1);
      if box !in u.mailboxes {
        var i :| 0 <= i < j + 1 && notes[i].Seen?;
        assert rest[i - 1].Seen?;
      }
      forall i | 0 <= i < j && rest[i].Seen? ensures rest[i].v <= rest[j].v {
        assert notes[i + 1].Seen?;
      }
    }
  }

  lemma SentStepIsInTime(s: State, box: Box, e: Event, u: State)
    requires AllSentInTime(s) && SentStep(s, box, e, u)
    ensures BoxStep(s, box, e, u, IN_TIME) && AllSentInTime(u)
  {
    var line, after := LineOf(s, box), LineOf(u, box);
    assert AllInTime(s.t, box, line.notes);
    if e.Take? {
      var planned :| Applies(s.t, box, line.notes[0], e.now, u.t, planned) && after.notes == line.notes[1..];
      TakenInTime(s.t, box, line.notes, e.now, u.t, planned);
    } else if after.notes != line.notes {
      SentGrows(s.t, box, line.notes, after.notes[|line.notes|]);
      assert after.notes == line.notes + [after.notes[|line.notes|]];
    }
    forall b ensures AllInTime(u.t, b, LineOf(u, b).notes) {
      if b != box {
        assert AllInTime(s.t, b, LineOf(s, b).notes);
        OthersUntouched(s, box, e, u, b);
        SameReport(s.t, u.t, b, LineOf(s, b).notes);
      }
    }
  }

  lemma SameReport(t: Tables, u: Tables, box: Box, notes: seq<Note>)
    requires AllInTime(t, box, notes) && Stored(t, box) == Stored(u, box)
    ensures AllInTime(u, box, notes)
  {
    assert box in t.mailboxes <==> Stored(t, box).Some?;
    assert box in u.mailboxes <==> Stored(u, box).Some?;
    forall j | 0 <= j < |notes| && notes[j].Data? ensures InTimeAt(u, box, notes, j) {
      assert InTimeAt(t, box, notes, j);
    }
  }

  lemma RemovalKeepsSent(s: State, account: string, u: State)
    requires AllSentInTime(s) && AccountRemoved(s, account, u)
    ensures AllSentInTime(u)
  {
    forall b ensures AllInTime(u.t, b, LineOf(u, b).notes) {
      if b.account != account {
        assert AllInTime(s.t, b, LineOf(s, b).notes);
        SameReport(s.t, u.t, b, LineOf(s, b).notes);
      }
    }
  }

  lemma SentStepsAreInTime(s: State, u: State)
    requires AllSentInTime(s) && SentSteps(s, u)
    ensures Steps(s, u, IN_TIME) && AllSentInTime(u)
  {
    if box, e :| SentStep(s, box, e, u) {
      SentStepIsInTime(s, box, e, u);
    } else {
      var account :| AccountRemoved(s, account, u);
      RemovalKeepsSent(s, account, u);
    }
  }

  /** Downloads sent in time are applied in time, so `NoRowOfAnOldNumbering` and
      `NoRowBeforeAReport` hold in every run that sends them so. */
  lemma {:induction false} SentInTimeIsInTime(run: seq<State>)
    requires SentRun(run)
    ensures IsRun(run, IN_TIME) && AllSentInTime(run[|run| - 1])
  {
    if |run| > 1 {
      var n := |run| - 1;
      var before := run[..n];
      forall i | 0 <= i < |before| - 1 ensures SentStepAt(before, i) {
        assert SentStepAt(run, i);
      }
      SentInTimeIsInTime(before);
      assert SentStepAt(run, n - 1) && before[n - 1] == run[n - 1];
      SentStepsAreInTime(run[n - 1], run[n]);
      forall i | 0 <= i < n ensures StepAt(run, i, IN_TIME) {
        assert i < n - 1 ==> StepAt(before, i, IN_TIME);
      }
    }
  }
}
