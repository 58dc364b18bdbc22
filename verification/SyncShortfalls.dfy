/** Three runs of a mailbox in which the cache ends up wrong: a download sent too late,
    one indexed before any report, and a move that left its message. */
module SyncShortfalls {
  import opened Basics
  import opened MailCache
  import opened Sync = MailboxSync
  import S = MailStore

  // ----- runs of one mailbox, scene by scene -----

  datatype Scene = Scene(r: Remote, t: Tables, line: Line)

  function StateOf(box: Box, scene: Scene): State { State(map[box := scene.r], scene.t, map[box := scene.line]) }

  function Play(box: Box, scenes: seq<Scene>): seq<State> {
    seq(|scenes|, i requires 0 <= i < |scenes| => StateOf(box, scenes[i]))
  }

  ghost predicate Follows(box: Box, a: Scene, e: Event, b: Scene) { Moves(a.r, a.t, a.line, box, e, b.r, b.t, b.line) }

  /** Scenes that follow from an empty cache make a run. */
  ghost predicate Plays(box: Box, scenes: seq<Scene>, events: seq<Event>) {
    && |scenes| == |events| + 1
    && scenes[0].t == EMPTY_TABLES && scenes[0].line == NO_LINE && RemoteInv(scenes[0].r)
    && forall i :: 0 <= i < |events| ==> Follows(box, scenes[i], events[i], scenes[i + 1])
  }

  lemma PlayIsRun(box: Box, scenes: seq<Scene>, events: seq<Event>)
    requires Plays(box, scenes, events)
    ensures Sync.IsRun(Play(box, scenes), ANY)
  {
    var run := Play(box, scenes);
    forall i | 0 <= i < |run| - 1 ensures StepAt(run, i, ANY) {
      assert Follows(box, scenes[i], events[i], scenes[i + 1]);
      assert BoxStep(run[i], box, events[i], run[i + 1], ANY);
    }
  }

  const OLD_MAIL := S.Envelope("old", "", "", "", "")
  const NEW_MAIL := S.Envelope("new", "", "", "", "")
  const LATE := Data(1, Header(1, OLD_MAIL, []), "", [])

  function OneMail(validity: nat, envelope: Envelope): Remote {
    Remote(S.Contents([S.Message(1, [], envelope, [])], validity, 2), map[1 := envelope])
  }

  function Reported(t: Tables, box: Box, validity: nat): Tables { t.(mailboxes := map[box := SyncState(validity, 2)]) }

  function Listed(t: Tables, box: Box, envelope: Envelope): Tables {
    t.(messages := map[Key(box, 1) := MessageRow(envelope, "", 0)])
  }

  /** The tables once the download of the old message was indexed. */
  function Indexed(t: Tables, box: Box): Tables {
    Listed(t, box, OLD_MAIL).(bodies := map[Key(box, 1) := BodyRow("", [], 0)],
                              search := [SearchRow(Key(box, 1), "old", "", "", "")])
  }

  lemma MailDescribes(validity: nat, envelope: Envelope)
    ensures RemoteInv(OneMail(validity, envelope)) && Describes(OneMail(validity, envelope).c, Header(1, envelope, []))
    ensures Fetched(OneMail(validity, envelope).c, 1, [Header(1, envelope, [])])
  {
    var (r, h) := (OneMail(validity, envelope), Header(1, envelope, []));
    assert r.c.messages[0] in r.c.messages && [h][0] in [h];
    assert Names([h], 1);
  }

  lemma SceneExamined(box: Box, r: Remote, t: Tables, line: Line)
    ensures var seen := line.(notes := line.notes + [Seen(r.c.uidValidity, r.c.uidNext)]);
            Follows(box, Scene(r, t, line), Examine, Scene(r, t, seen))
  {
  }

  lemma SceneTaken(box: Box, r: Remote, t: Tables, hand: seq<Note>, note: Note, u: Tables, planned: seq<nat>)
    requires Applies(t, box, note, 0, u, planned)
    ensures Follows(box, Scene(r, t, Line([], hand, [note])), Take(0), Scene(r, u, Line(planned, hand, [])))
  {
    var line := Line([], hand, [note]);
    assert [] + planned == planned && line.notes[1..] == [];
  }

  /** The mailbox's one message is fetched and listed, and nothing else is under way. */
  lemma SceneFetched(box: Box, t: Tables, hand: seq<Note>, validity: nat, envelope: Envelope)
    ensures var (r, got) := (OneMail(validity, envelope), Got(validity, [Header(1, envelope, [])]));
            Follows(box, Scene(r, t, Line([1], hand, [])), Fetch(0, got.headers), Scene(r, t, Line([], hand, [got])))
  {
    MailDescribes(validity, envelope);
    assert [1][..0] + [1][1..] == [];
  }

  lemma ListsOne(t: Tables, box: Box, envelope: Envelope)
    requires t.messages == map[] || t.messages == map[Key(box, 1) := MessageRow(OLD_MAIL, "", 0)]
    ensures IndexHeaders(t, box, [Header(1, envelope, [])]) == Listed(t, box, envelope)
  {
    var h := Header(1, envelope, []);
    assert [h][..0] == [] && IndexHeaders(t, box, []) == t;
    assert JoinFlags([]) == "" && SizeOf(t, Key(box, 1)) == 0;
  }

  lemma IndexesLate(t: Tables, box: Box)
    requires t.bodies == map[] && t.search == []
    requires t.messages == map[] || t.messages == Listed(t, box, NEW_MAIL).messages
    ensures Applies(t, box, LATE, 0, Indexed(t, box), [])
  {
    assert WriteMail(t, box, LATE.header, LATE.body, LATE.attachments, 0) == Indexed(t, box);
    assert Indexed(t, box).bodies.Keys == {Key(box, 1)};
  }

  // ----- three runs that fall short -----

  function Opened(box: Box): Tables { Reported(EMPTY_TABLES, box, 1) }

  function Renewed(box: Box): Tables { Reported(EMPTY_TABLES, box, 2) }

  /** A mailbox with one message is reported, fetched and listed. */
  function OpeningScene(box: Box, i: nat): Scene {
    var r := OneMail(1, OLD_MAIL);
    match i
    case 0 => Scene(r, EMPTY_TABLES, NO_LINE)
    case 1 => Scene(r, EMPTY_TABLES, Line([], [], [Seen(1, 2)]))
    case 2 => Scene(r, Opened(box), Line([1], [], []))
    case 3 => Scene(r, Opened(box), Line([], [], [Got(1, [Header(1, OLD_MAIL, [])])]))
    case _ => Scene(r, Listed(Opened(box), box, OLD_MAIL), NO_LINE)
  }

  const OPENING := [Examine, Take(0), Fetch(0, [Header(1, OLD_MAIL, [])]), Take(0)]

  lemma OpeningFollows(box: Box, i: nat)
    requires i < 4
    ensures Follows(box, OpeningScene(box, i), OPENING[i], OpeningScene(box, i + 1))
  {
    var r, got := OneMail(1, OLD_MAIL), [Header(1, OLD_MAIL, [])];
    match i
    case 0 =>
      assert [] + [Seen(1, 2)] == [Seen(1, 2)];
      SceneExamined(box, r, EMPTY_TABLES, NO_LINE);
    case 1 => SceneTaken(box, r, EMPTY_TABLES, [], Seen(1, 2), Opened(box), [1]);
    case 2 => SceneFetched(box, Opened(box), [], 1, OLD_MAIL);
    case 3 =>
      ListsOne(Opened(box), box, OLD_MAIL);
      SceneTaken(box, r, Opened(box), [], Got(1, got), Listed(Opened(box), box, OLD_MAIL), []);
  }

  /** Then its message is downloaded, and the mailbox renumbered, reported, fetched and
      listed again before the download is sent. */
  function LateScene(box: Box, i: nat): Scene {
    var q := OneMail(2, NEW_MAIL);
    match i
    case 5 => Scene(OneMail(1, OLD_MAIL), Listed(Opened(box), box, OLD_MAIL), Line([], [LATE], []))
    case 6 => Scene(q, Listed(Opened(box), box, OLD_MAIL), Line([], [LATE], []))
    case 7 => Scene(q, Listed(Opened(box), box, OLD_MAIL), Line([], [LATE], [Seen(2, 2)]))
    case 8 => Scene(q, Renewed(box), Line([1], [LATE], []))
    case 9 => Scene(q, Renewed(box), Line([], [LATE], [Got(2, [Header(1, NEW_MAIL, [])])]))
    case 10 => Scene(q, Listed(Renewed(box), box, NEW_MAIL), Line([], [LATE], []))
    case 11 => Scene(q, Listed(Renewed(box), box, NEW_MAIL), Line([], [], [LATE]))
    case 12 => Scene(q, Indexed(Renewed(box), box), NO_LINE)
    case _ => OpeningScene(box, i)
  }

  const LATE_EVENTS := OPENING + [Download(LATE.header, "", []), Renumber(OneMail(2, NEW_MAIL).c), Examine, Take(0),
                                  Fetch(0, [Header(1, NEW_MAIL, [])]), Take(0), Send(0), Take(0)]

  lemma LateIsRead(box: Box, t: Tables)
    ensures var r := OneMail(1, OLD_MAIL);
            Follows(box, Scene(r, t, NO_LINE), Download(LATE.header, "", []), Scene(r, t, Line([], [LATE], [])))
  {
    MailDescribes(1, OLD_MAIL);
    assert [] + [LATE] == [LATE];
  }

  lemma LateIsSent(box: Box, r: Remote, t: Tables)
    ensures Follows(box, Scene(r, t, Line([], [LATE], [])), Send(0), Scene(r, t, Line([], [], [LATE])))
  {
    assert [LATE][..0] + [LATE][1..] == [] && [] + [LATE] == [LATE];
  }

  lemma Renumbers(box: Box, t: Tables, line: Line)
    ensures var q := OneMail(2, NEW_MAIL);
            Follows(box, Scene(OneMail(1, OLD_MAIL), t, line), Renumber(q.c), Scene(q, t, line))
  {
    MailDescribes(2, NEW_MAIL);
  }

  lemma RenewalWipes(box: Box)
    ensures Applies(Listed(Opened(box), box, OLD_MAIL), box, Seen(2, 2), 0, Renewed(box), [1])
  {
  }

  lemma LateFollows(box: Box, i: nat)
    requires i < 12
    ensures Follows(box, LateScene(box, i), LATE_EVENTS[i], LateScene(box, i + 1))
  {
    var q, was, got := OneMail(2, NEW_MAIL), Listed(Opened(box), box, OLD_MAIL), Got(2, [Header(1, NEW_MAIL, [])]);
    match i
    case 4 => LateIsRead(box, was);
    case 5 => Renumbers(box, was, Line([], [LATE], []));
    case 6 =>
      assert [] + [Seen(2, 2)] == [Seen(2, 2)];
      SceneExamined(box, q, was, Line([], [LATE], []));
    case 7 =>
      RenewalWipes(box);
      SceneTaken(box, q, was, [LATE], Seen(2, 2), Renewed(box), [1]);
    case 8 => SceneFetched(box, Renewed(box), [LATE], 2, NEW_MAIL);
    case 9 =>
      ListsOne(Renewed(box), box, NEW_MAIL);
      SceneTaken(box, q, Renewed(box), [LATE], got, Listed(Renewed(box), box, NEW_MAIL), []);
    case 10 => LateIsSent(box, q, Listed(Renewed(box), box, NEW_MAIL));
    case 11 =>
      IndexesLate(Listed(Renewed(box), box, NEW_MAIL), box);
      SceneTaken(box, q, Listed(Renewed(box), box, NEW_MAIL), [], LATE, Indexed(Renewed(box), box), []);
    case _ => OpeningFollows(box, i);
  }

  /** A renumbering reported between a download and its event leaves rows of the old
      numbering under the UID of another message, with nothing planned or on its way
      that would correct them. */
  lemma LateDownloadLeavesOldRow(box: Box)
    ensures var run := Play(box, seq(13, i requires i >= 0 => LateScene(box, i)));
            var (r, t) := (run[12].remotes[box], run[12].t);
            && Sync.IsRun(run, ANY) && LineOf(run[12], box) == NO_LINE
            && box in t.mailboxes && t.mailboxes[box].uidValidity == r.c.uidValidity
            && t.messages[Key(box, 1)].envelope == OLD_MAIL != NEW_MAIL == r.given[1]
            && !Current(r, t, box)
  {
    var scenes := seq(13, i requires i >= 0 => LateScene(box, i));
    MailDescribes(1, OLD_MAIL);
    forall i | 0 <= i < 12 ensures Follows(box, scenes[i], LATE_EVENTS[i], scenes[i + 1]) {
      LateFollows(box, i);
    }
    PlayIsRun(box, scenes, LATE_EVENTS);
    assert scenes[12] == LateScene(box, 12);
    assert "old"[0] != "new"[0];
    assert Key(box, 1) in Indexed(Renewed(box), box).messages;
  }

  /** A message is downloaded from a mailbox whose report failed; then the mailbox is
      renumbered, reported for the first time, fetched and listed. */
  function EarlyScene(box: Box, i: nat): Scene {
    var r, q, was := OneMail(1, OLD_MAIL), OneMail(2, NEW_MAIL), Indexed(EMPTY_TABLES, box);
    match i
    case 0 => Scene(r, EMPTY_TABLES, NO_LINE)
    case 1 => Scene(r, EMPTY_TABLES, Line([], [LATE], []))
    case 2 => Scene(r, EMPTY_TABLES, Line([], [], [LATE]))
    case 3 => Scene(r, was, NO_LINE)
    case 4 => Scene(q, was, NO_LINE)
    case 5 => Scene(q, was, Line([], [], [Seen(2, 2)]))
    case 6 => Scene(q, Reported(was, box, 2), Line([1], [], []))
    case 7 => Scene(q, Reported(was, box, 2), Line([], [], [Got(2, [Header(1, NEW_MAIL, [])])]))
    case _ => Scene(q, Listed(Reported(was, box, 2), box, NEW_MAIL), NO_LINE)
  }

  const EARLY_EVENTS := [Download(LATE.header, "", []), Send(0), Take(0), Renumber(OneMail(2, NEW_MAIL).c), Examine,
                         Take(0), Fetch(0, [Header(1, NEW_MAIL, [])]), Take(0)]

  lemma EarlyFollows(box: Box, i: nat)
    requires i < 8
    ensures Follows(box, EarlyScene(box, i), EARLY_EVENTS[i], EarlyScene(box, i + 1))
  {
    var r, q, was := OneMail(1, OLD_MAIL), OneMail(2, NEW_MAIL), Indexed(EMPTY_TABLES, box);
    var renewed, got := Reported(was, box, 2), Got(2, [Header(1, NEW_MAIL, [])]);
    match i
    case 0 => LateIsRead(box, EMPTY_TABLES);
    case 1 => LateIsSent(box, r, EMPTY_TABLES);
    case 2 =>
      IndexesLate(EMPTY_TABLES, box);
      SceneTaken(box, r, EMPTY_TABLES, [], LATE, was, []);
    case 3 => Renumbers(box, was, NO_LINE);
    case 4 =>
      assert [] + [Seen(2, 2)] == [Seen(2, 2)];
      SceneExamined(box, q, was, NO_LINE);
    case 5 =>
      FirstReportWipesNothing(was, box, 2, 2);
      SceneTaken(box, q, was, [], Seen(2, 2), renewed, [1]);
    case 6 => SceneFetched(box, renewed, [], 2, NEW_MAIL);
    case 7 =>
      ListsOne(renewed, box, NEW_MAIL);
      SceneTaken(box, q, renewed, [], got, Listed(renewed, box, NEW_MAIL), []);
  }

  /** A download indexed before its mailbox was ever reported leaves a search row of
      the old numbering, with nothing planned or on its way that would correct it. */
  lemma EarlyDownloadLeavesOldRow(box: Box)
    ensures var run := Play(box, seq(9, i requires i >= 0 => EarlyScene(box, i)));
            var (r, t) := (run[8].remotes[box], run[8].t);
            && Sync.IsRun(run, ANY) && LineOf(run[8], box) == NO_LINE
            && box in t.mailboxes && t.mailboxes[box].uidValidity == r.c.uidValidity
            && t.search == [SearchRow(Key(box, 1), "old", "", "", "")] && r.given[1].subject == "new"
            && !Current(r, t, box)
  {
    var scenes := seq(9, i requires i >= 0 => EarlyScene(box, i));
    MailDescribes(1, OLD_MAIL);
    forall i | 0 <= i < 8 ensures Follows(box, scenes[i], EARLY_EVENTS[i], scenes[i + 1]) {
      EarlyFollows(box, i);
    }
    PlayIsRun(box, scenes, EARLY_EVENTS);
    assert scenes[8] == EarlyScene(box, 8);
    var row := SearchRow(Key(box, 1), "old", "", "", "");
    assert "old"[0] != "new"[0];
    assert row in [row] && !RowIsCurrent(OneMail(2, NEW_MAIL), row);
  }

  /** After the opening, a move of the message is reported done though it stays, as
      `MailMove.LowerCaseFlagDefeatsMove` lets it. */
  function GapScene(box: Box, i: nat): Scene {
    match i
    case 5 => Scene(OneMail(1, OLD_MAIL), Listed(Opened(box), box, OLD_MAIL), Line([], [], [Gone(1, 1)]))
    case 6 => Scene(OneMail(1, OLD_MAIL), Opened(box), NO_LINE)
    case _ => OpeningScene(box, i)
  }

  const GAP_EVENTS := OPENING + [MoveAway(1), Take(0)]

  lemma GapFollows(box: Box, i: nat)
    requires i < 6
    ensures Follows(box, GapScene(box, i), GAP_EVENTS[i], GapScene(box, i + 1))
  {
    var r, listed := OneMail(1, OLD_MAIL), Listed(Opened(box), box, OLD_MAIL);
    match i
    case 4 => assert [] + [Gone(1, 1)] == [Gone(1, 1)];
    case 5 =>
      assert RemoveMessage(listed, Key(box, 1)) == Opened(box);
      SceneTaken(box, r, listed, [], Gone(1, 1), Opened(box), []);
    case _ => OpeningFollows(box, i);
  }

  /** Then the cache has dropped a message that is still on the server, below the
      stored UIDNEXT, with nothing planned or on its way that would bring it back. */
  lemma MoveThatStaysLeavesAGap(box: Box)
    ensures var run := Play(box, seq(7, i requires i >= 0 => GapScene(box, i)));
            var (r, t) := (run[6].remotes[box], run[6].t);
            && Sync.IsRun(run, ANY) && LineOf(run[6], box) == NO_LINE
            && box in t.mailboxes && t.mailboxes[box].uidValidity == r.c.uidValidity
            && (exists m :: m in r.c.messages && m.uid < t.mailboxes[box].uidNext && Key(box, m.uid) !in t.messages)
  {
    var scenes := seq(7, i requires i >= 0 => GapScene(box, i));
    MailDescribes(1, OLD_MAIL);
    forall i | 0 <= i < 6 ensures Follows(box, scenes[i], GAP_EVENTS[i], scenes[i + 1]) {
      GapFollows(box, i);
    }
    PlayIsRun(box, scenes, GAP_EVENTS);
    assert scenes[6] == GapScene(box, 6);
    var m := S.Message(1, [], OLD_MAIL, []);
    assert m in OneMail(1, OLD_MAIL).c.messages;
  }
}
