/** The local cache: the tables `mailboxes`, `messages`, `bodies` and
    `messages_fts`, and what each command does to them. */
module MailCache {
  import opened Basics
  import S = MailStore

  const MAX_CACHED_BODIES := 2000

  /** An account and one of its mailboxes. */
  datatype Box = Box(account: string, mailbox: string)

  datatype Key = Key(box: Box, uid: nat)

  type Envelope = S.Envelope

  /** A `MailHeader`: what the server says about one message. */
  datatype Header = Header(uid: nat, envelope: Envelope, flags: seq<string>)

  type Attachments = seq<seq<nat>>

  /** `size` is the length of the last body indexed, or 0. */
  datatype MessageRow = MessageRow(envelope: Envelope, flags: string, size: nat)

  datatype BodyRow = BodyRow(body: string, attachments: Attachments, cachedAt: int)

  datatype SearchRow = SearchRow(key: Key, subject: string, from: string, to: string, body: string)

  datatype SyncState = SyncState(uidValidity: nat, uidNext: nat)

  datatype SyncPlan = UpToDate | FetchFrom(firstNewUid: nat) | Resync

  /** `search` has no key, so it is a sequence of rows; the other tables are maps. */
  datatype Tables = Tables(mailboxes: map<Box, SyncState>, messages: map<Key, MessageRow>,
                           bodies: map<Key, BodyRow>, search: seq<SearchRow>)

  const EMPTY_TABLES := Tables(map[], map[], map[], [])

  // ----- what a server tells -----

  /** A header the server could report now. */
  ghost predicate Describes(c: S.Contents, h: Header) {
    exists m :: m in c.messages && m.uid == h.uid && m.envelope == h.envelope
  }

  ghost predicate Names(headers: seq<Header>, uid: nat) { exists h :: h in headers && h.uid == uid }

  /** What `UID FETCH first:*` returns: everything from `first` on, perhaps more. */
  ghost predicate Fetched(c: S.Contents, first: nat, headers: seq<Header>) {
    && (forall h :: h in headers ==> Describes(c, h))
    && (forall m :: m in c.messages && m.uid >= first ==> Names(headers, m.uid))
  }

  // ----- the flags column -----

  function JoinFlags(flags: seq<string>): string {
    if flags == [] then "" else if |flags| == 1 then flags[0] else flags[0] + " " + JoinFlags(flags[1..])
  }

  /** `str::split_whitespace`; `word` is the word being read. */
  function SplitWords(s: string, word: string): seq<string> {
    var done := if word == "" then [] else [word];
    if s == [] then done
    else if IsWhitespace(s[0]) then done + SplitWords(s[1..], "")
    else SplitWords(s[1..], word + [s[0]])
  }

  function ParseFlags(column: string): seq<string> { SplitWords(column, "") }

  predicate IsAtom(flag: string) { flag != "" && forall i :: 0 <= i < |flag| ==> !IsWhitespace(flag[i]) }

  lemma {:induction false} SplitWordsAtoms(s: string, word: string)
    requires word == "" || IsAtom(word)
    ensures forall w :: w in SplitWords(s, word) ==> IsAtom(w)
  {
    if s != [] {
      if IsWhitespace(s[0]) {
        SplitWordsAtoms(s[1..], "");
      } else {
        SplitWordsAtoms(s[1..], word + [s[0]]);
      }
    }
  }

  lemma {:induction false} SplitWordsReads(flag: string, rest: string, word: string)
    requires forall i :: 0 <= i < |flag| ==> !IsWhitespace(flag[i])
    ensures SplitWords(flag + rest, word) == SplitWords(rest, word + flag)
  {
    if flag == [] {
      assert flag + rest == rest && word + flag == word;
    } else {
      SplitWordsReads(flag[1..], rest, word + [flag[0]]);
      assert (flag + rest)[1..] == flag[1..] + rest;
      assert word + [flag[0]] + flag[1..] == word + flag;
    }
  }

  /** The column gives the flags back exactly when each is a non-empty word
      without whitespace, as every IMAP flag atom is. */
  lemma {:induction false} FlagsColumnRoundTrip(flags: seq<string>)
    ensures ParseFlags(JoinFlags(flags)) == flags <==> forall i :: 0 <= i < |flags| ==> IsAtom(flags[i])
  {
    if forall i :: 0 <= i < |flags| ==> IsAtom(flags[i]) {
      AtomsRoundTrip(flags);
    } else if ParseFlags(JoinFlags(flags)) == flags {
      SplitWordsAtoms(JoinFlags(flags), "");
    }
  }

  lemma {:induction false} AtomsRoundTrip(flags: seq<string>)
    requires forall i :: 0 <= i < |flags| ==> IsAtom(flags[i])
    ensures ParseFlags(JoinFlags(flags)) == flags
  {
    if |flags| == 1 {
      assert flags[0] + [] == flags[0] && [] + flags[0] == flags[0];
      SplitWordsReads(flags[0], [], "");
    } else if |flags| > 1 {
      var tail := " " + JoinFlags(flags[1..]);
      assert JoinFlags(flags) == flags[0] + tail && "" + flags[0] == flags[0];
      SplitWordsReads(flags[0], tail, "");
      AtomsRoundTrip(flags[1..]);
      assert tail[1..] == JoinFlags(flags[1..]);
    }
  }

  /** A space stands between the flags of the column. */
  lemma {:induction false} FlagsAreSpaced(a: seq<string>, b: seq<string>)
    requires a != [] && b != []
    ensures JoinFlags(a + b) == JoinFlags(a) + " " + JoinFlags(b)
  {
    if |a| == 1 {
      assert (a + b)[0] == a[0] && (a + b)[1..] == b;
    } else {
      assert (a + b)[0] == a[0] && (a + b)[1..] == a[1..] + b;
      FlagsAreSpaced(a[1..], b);
    }
  }

  // ----- what each command does -----

  /** `String::len`, in bytes. */
  function Utf8Length(s: string): nat {
    if s == [] then 0
    else
      var c := s[0] as int;
      Utf8Length(s[1..]) + if c < 0x80 then 1 else if c < 0x800 then 2 else if c < 0x1_0000 then 3 else 4
  }

  function SizeOf(t: Tables, key: Key): nat { if key in t.messages then t.messages[key].size else 0 }

  function Upsert(t: Tables, box: Box, h: Header, size: nat): Tables {
    t.(messages := t.messages[Key(box, h.uid) := RowFor(h, size)])
  }

  function RowFor(h: Header, size: nat): MessageRow { MessageRow(h.envelope, JoinFlags(h.flags), size) }

  function IndexHeaders(t: Tables, box: Box, headers: seq<Header>): Tables {
    if headers == [] then t
    else
      var before, last := IndexHeaders(t, box, headers[..|headers| - 1]), headers[|headers| - 1];
      Upsert(before, box, last, SizeOf(before, Key(box, last.uid)))
  }

  function RowsBut(search: seq<SearchRow>, key: Key): seq<SearchRow> { Filter(search, (r: SearchRow) => r.key != key) }

  /** Everything `index_mail` writes, before the eviction. */
  function WriteMail(t: Tables, box: Box, h: Header, body: string, attachments: Attachments, now: int): Tables {
    var key := Key(box, h.uid);
    var e := h.envelope;
    Upsert(t, box, h, Utf8Length(body)).(
      bodies := t.bodies[key := BodyRow(body, attachments, now)],
      search := RowsBut(t.search, key) + [SearchRow(key, e.subject, e.from, e.to, body)])
  }

  /** Oldest first: at most `max` rows stay, and none that goes is newer than one that stays. */
  ghost predicate Evicts(before: map<Key, BodyRow>, after: map<Key, BodyRow>, max: nat) {
    && after.Keys <= before.Keys
    && (forall k :: k in after ==> after[k] == before[k])
    && |after| == (if |before| <= max then |before| else max)
    && (forall gone, kept :: gone in before.Keys - after.Keys && kept in after ==>
        before[gone].cachedAt <= before[kept].cachedAt)
  }

  ghost predicate IndexesMail(t: Tables, u: Tables, box: Box, h: Header, body: string, attachments: Attachments,
                              now: int)
  {
    var written := WriteMail(t, box, h, body, attachments, now);
    u == written.(bodies := u.bodies) && Evicts(written.bodies, u.bodies, MAX_CACHED_BODIES)
  }

  function SyncDecision(previous: Option<SyncState>, validity: nat, next: nat): SyncPlan {
    match previous
    case None => if next <= 1 then UpToDate else FetchFrom(1)
    case Some(p) =>
      if p.uidValidity != validity then Resync
      else if next > p.uidNext then FetchFrom(p.uidNext)
      else UpToDate
  }

  function Stored(t: Tables, box: Box): Option<SyncState> {
    if box in t.mailboxes then Some(t.mailboxes[box]) else None
  }

  function Forget(t: Tables, goes: Key -> bool): Tables {
    t.(messages := map k | k in t.messages && !goes(k) :: t.messages[k],
       bodies := map k | k in t.bodies && !goes(k) :: t.bodies[k],
       search := Filter(t.search, (r: SearchRow) => !goes(r.key)))
  }

  function Report(t: Tables, box: Box, validity: nat, next: nat): (Tables, SyncPlan) {
    var plan := SyncDecision(Stored(t, box), validity, next);
    var wiped := if plan.Resync? then Forget(t, (k: Key) => k.box == box) else t;
    (wiped.(mailboxes := t.mailboxes[box := SyncState(validity, next)]), plan)
  }

  function UpdateFlags(t: Tables, key: Key, flags: seq<string>): Tables {
    if key in t.messages then t.(messages := t.messages[key := t.messages[key].(flags := JoinFlags(flags))]) else t
  }

  function RemoveMessage(t: Tables, key: Key): Tables { Forget(t, (k: Key) => k == key) }

  function RemoveAccount(t: Tables, account: string): Tables {
    Forget(t, (k: Key) => k.box.account == account).(
      mailboxes := map b: Box | b in t.mailboxes && b.account != account :: t.mailboxes[b])
  }

  datatype Mail = Mail(header: Header, body: string, attachments: Attachments)

  /** The join of `messages` and `bodies`; `None` is the error a caller falls back on. */
  function FetchMail(t: Tables, key: Key): Option<Mail> {
    if key in t.messages && key in t.bodies then
      Some(Mail(Header(key.uid, t.messages[key].envelope, ParseFlags(t.messages[key].flags)),
                t.bodies[key].body, t.bodies[key].attachments))
    else None
  }

  // ----- runs of commands -----

  datatype Command = IndexHeadersCmd(box: Box, headers: seq<Header>)
                   | IndexMailCmd(box: Box, header: Header, body: string, attachments: Attachments, now: int)
                   | ReportCmd(box: Box, validity: nat, next: nat)
                   | UpdateFlagsCmd(key: Key, flags: seq<string>)
                   | RemoveMessageCmd(key: Key)
                   | RemoveAccountCmd(account: string)

  ghost predicate Does(t: Tables, c: Command, u: Tables) {
    match c
    case IndexHeadersCmd(box, headers) => u == IndexHeaders(t, box, headers)
    case IndexMailCmd(box, h, body, attachments, now) => IndexesMail(t, u, box, h, body, attachments, now)
    case ReportCmd(box, validity, next) => u == Report(t, box, validity, next).0
    case UpdateFlagsCmd(key, flags) => u == UpdateFlags(t, key, flags)
    case RemoveMessageCmd(key) => u == RemoveMessage(t, key)
    case RemoveAccountCmd(account) => u == RemoveAccount(t, account)
  }

  ghost predicate IsRun(run: seq<Tables>, commands: seq<Command>) {
    && |run| == |commands| + 1 && run[0] == EMPTY_TABLES
    && forall i :: 0 <= i < |commands| ==> Does(run[i], commands[i], run[i + 1])
  }

  /** One search row for this key, carrying this body text. */
  ghost predicate FoundOnce(search: seq<SearchRow>, key: Key, body: string) {
    var rows := Filter(search, (r: SearchRow) => r.key == key);
    |rows| == 1 && rows[0].body == body
  }

  ghost predicate Backed(t: Tables, key: Key, body: string) {
    key in t.messages && t.messages[key].size == Utf8Length(body) && FoundOnce(t.search, key, body)
  }

  /** Every cached body has a message row with its size and exactly one search row
      with its text, and the cap holds. */
  ghost predicate Consistent(t: Tables) {
    && |t.bodies| <= MAX_CACHED_BODIES
    && forall k :: k in t.bodies ==> Backed(t, k, t.bodies[k].body)
  }

  /** The last header among `headers` for this UID. */
  function LastOf(headers: seq<Header>, uid: nat): Option<Header> {
    if headers == [] then None
    else if headers[|headers| - 1].uid == uid then Some(headers[|headers| - 1])
    else LastOf(headers[..|headers| - 1], uid)
  }

  /** What the last command to write this message's row said its envelope and flags were. */
  function LastWritten(commands: seq<Command>, key: Key): (Envelope, seq<string>) {
    if commands == [] then (S.NO_ENVELOPE, [])
    else
      var before := LastWritten(commands[..|commands| - 1], key);
      match commands[|commands| - 1]
      case IndexHeadersCmd(box, headers) =>
        if box == key.box && LastOf(headers, key.uid).Some? then
          (LastOf(headers, key.uid).value.envelope, LastOf(headers, key.uid).value.flags)
        else before
      case IndexMailCmd(box, h, _, _, _) => if Key(box, h.uid) == key then (h.envelope, h.flags) else before
      case UpdateFlagsCmd(k, flags) => if k == key then (before.0, flags) else before
      case _ => before
  }

  /** The body and attachments last indexed for this message. */
  function LastBody(commands: seq<Command>, key: Key): (string, Attachments) {
    if commands == [] then ("", [])
    else
      match commands[|commands| - 1]
      case IndexMailCmd(box, h, body, attachments, _) =>
        if Key(box, h.uid) == key then (body, attachments) else LastBody(commands[..|commands| - 1], key)
      case _ => LastBody(commands[..|commands| - 1], key)
  }

  ghost predicate RowIsAsWritten(row: MessageRow, written: (Envelope, seq<string>)) {
    row.envelope == written.0 && row.flags == JoinFlags(written.1)
  }

  ghost predicate Faithful(t: Tables, commands: seq<Command>) {
    && (forall k :: k in t.messages ==> RowIsAsWritten(t.messages[k], LastWritten(commands, k)))
    && (forall k :: k in t.bodies ==> (t.bodies[k].body, t.bodies[k].attachments) == LastBody(commands, k))
  }

  // ----- proofs -----

  lemma {:induction false} IndexHeadersRows(t: Tables, box: Box, headers: seq<Header>)
    ensures var u := IndexHeaders(t, box, headers);
            && u == t.(messages := u.messages)
            && t.messages.Keys <= u.messages.Keys
            && (forall k :: k in u.messages <==> k in t.messages || (k.box == box && LastOf(headers, k.uid).Some?))
            && (forall k :: k in u.messages && !(k.box == box && LastOf(headers, k.uid).Some?) ==>
                  u.messages[k] == t.messages[k])
            && (forall k :: k in u.messages && k.box == box && LastOf(headers, k.uid).Some? ==>
                  var h := LastOf(headers, k.uid).value;
                  && u.messages[k].envelope == h.envelope && u.messages[k].flags == JoinFlags(h.flags)
                  && u.messages[k].size == if k in t.messages then t.messages[k].size else 0)
  {
    if headers != [] {
      IndexHeadersRows(t, box, headers[..|headers| - 1]);
    }
  }

  lemma ForgetKeepsFound(t: Tables, goes: Key -> bool, key: Key, body: string)
    requires !goes(key) && Backed(t, key, body)
    ensures Backed(Forget(t, goes), key, body)
  {
    FilterBoth(t.search, (r: SearchRow) => !goes(r.key), (r: SearchRow) => r.key == key);
  }

  lemma WriteKeepsFound(t: Tables, box: Box, h: Header, body: string, attachments: Attachments, now: int, key: Key,
      text: string)
    requires if key == Key(box, h.uid) then text == body else FoundOnce(t.search, key, text)
    ensures FoundOnce(WriteMail(t, box, h, body, attachments, now).search, key, text)
  {
    var written := Key(box, h.uid);
    var row := SearchRow(written, h.envelope.subject, h.envelope.from, h.envelope.to, body);
    var same := (r: SearchRow) => r.key == key;
    var others := RowsBut(t.search, written);
    FilterAppend(others, [row], same);
    if key == written {
      FilterMembers(t.search, (r: SearchRow) => r.key != written);
      FilterNone(others, same);
    } else {
      FilterBoth(t.search, (r: SearchRow) => r.key != written, same);
    }
  }

  lemma ForgetShrinks(t: Tables, goes: Key -> bool)
    ensures |Forget(t, goes).bodies| <= |t.bodies|
  {
    var u := Forget(t, goes);
    assert u.bodies.Keys <= t.bodies.Keys;
    SubsetSize(u.bodies.Keys, t.bodies.Keys);
  }

  lemma {:induction false} SubsetSize<T>(a: set<T>, b: set<T>)
    requires a <= b
    ensures |a| <= |b|
  {
    if a != {} {
      var x :| x in a;
      SubsetSize(a - {x}, b - {x});
    }
  }

  lemma IndexKeepsConsistent(t: Tables, box: Box, headers: seq<Header>)
    requires Consistent(t)
    ensures Consistent(IndexHeaders(t, box, headers))
  {
    var u := IndexHeaders(t, box, headers);
    IndexHeadersRows(t, box, headers);
    forall k | k in u.bodies ensures Backed(u, k, u.bodies[k].body) {
      assert Backed(t, k, t.bodies[k].body);
    }
  }

  lemma WriteKeepsConsistent(t: Tables, u: Tables, box: Box, h: Header, body: string, attachments: Attachments,
                             now: int)
    requires Consistent(t) && IndexesMail(t, u, box, h, body, attachments, now)
    ensures Consistent(u)
  {
    forall k | k in u.bodies ensures Backed(u, k, u.bodies[k].body) {
      assert k in t.bodies && k != Key(box, h.uid) ==> Backed(t, k, t.bodies[k].body);
      WriteKeepsFound(t, box, h, body, attachments, now, k, u.bodies[k].body);
    }
  }

  lemma FlagsKeepConsistent(t: Tables, key: Key, flags: seq<string>)
    requires Consistent(t)
    ensures Consistent(UpdateFlags(t, key, flags))
  {
    var u := UpdateFlags(t, key, flags);
    forall k | k in u.bodies ensures Backed(u, k, u.bodies[k].body) {
      assert Backed(t, k, t.bodies[k].body);
    }
  }

  /** Consistency does not look at the stored reports. */
  lemma ReportedKeepsConsistent(t: Tables, mailboxes: map<Box, SyncState>)
    requires Consistent(t)
    ensures Consistent(t.(mailboxes := mailboxes))
  {
    var u := t.(mailboxes := mailboxes);
    forall k | k in u.bodies ensures Backed(u, k, u.bodies[k].body) {
      assert Backed(t, k, t.bodies[k].body);
    }
  }

  lemma CommandKeepsConsistent(t: Tables, c: Command, u: Tables)
    requires Consistent(t) && Does(t, c, u)
    ensures Consistent(u)
  {
    match c
    case IndexHeadersCmd(box, headers) => IndexKeepsConsistent(t, box, headers);
    case IndexMailCmd(box, h, body, attachments, now) => WriteKeepsConsistent(t, u, box, h, body, attachments, now);
    case ReportCmd(box, validity, next) =>
      ForgetKeepsConsistent(t, (k: Key) => k.box == box);
      ReportedKeepsConsistent(t, u.mailboxes);
      ReportedKeepsConsistent(Forget(t, (k: Key) => k.box == box), u.mailboxes);
    case UpdateFlagsCmd(key, flags) => FlagsKeepConsistent(t, key, flags);
    case RemoveMessageCmd(key) => ForgetKeepsConsistent(t, (k: Key) => k == key);
    case RemoveAccountCmd(account) =>
      ForgetKeepsConsistent(t, (k: Key) => k.box.account == account);
      ReportedKeepsConsistent(Forget(t, (k: Key) => k.box.account == account), u.mailboxes);
  }

  lemma ForgetKeepsConsistent(t: Tables, goes: Key -> bool)
    requires Consistent(t)
    ensures Consistent(Forget(t, goes))
  {
    ForgetShrinks(t, goes);
    var u := Forget(t, goes);
    forall k | k in u.bodies ensures Backed(u, k, u.bodies[k].body) {
      assert Backed(t, k, t.bodies[k].body);
      ForgetKeepsFound(t, goes, k, u.bodies[k].body);
    }
  }

  lemma CommandKeepsFaithful(t: Tables, commands: seq<Command>, c: Command, u: Tables)
    requires Consistent(t) && Faithful(t, commands) && Does(t, c, u)
    ensures Faithful(u, commands + [c])
  {
    var all := commands + [c];
    forall k | k in u.messages ensures RowIsAsWritten(u.messages[k], LastWritten(all, k)) {
      RowAfter(t, commands, c, u, k);
    }
    forall k | k in u.bodies ensures (u.bodies[k].body, u.bodies[k].attachments) == LastBody(all, k) {
      BodyAfter(t, commands, c, u, k);
    }
  }

  lemma RowAfter(t: Tables, commands: seq<Command>, c: Command, u: Tables, k: Key)
    requires Faithful(t, commands) && Does(t, c, u) && k in u.messages
    ensures RowIsAsWritten(u.messages[k], LastWritten(commands + [c], k))
  {
    var all := commands + [c];
    assert all[..|commands|] == commands && all[|commands|] == c;
    if c.IndexHeadersCmd? {
      IndexHeadersRows(t, c.box, c.headers);
    }
  }

  lemma BodyAfter(t: Tables, commands: seq<Command>, c: Command, u: Tables, k: Key)
    requires Faithful(t, commands) && Does(t, c, u) && k in u.bodies
    ensures (u.bodies[k].body, u.bodies[k].attachments) == LastBody(commands + [c], k)
  {
    var all := commands + [c];
    assert all[..|commands|] == commands && all[|commands|] == c;
    if c.IndexHeadersCmd? {
      IndexHeadersRows(t, c.box, c.headers);
    }
  }

  /** Over every run of commands, what is cached stays consistent and capped, and
      each row is as last written. */
  lemma {:induction false} CacheRuns(run: seq<Tables>, commands: seq<Command>)
    requires IsRun(run, commands)
    ensures Consistent(run[|commands|]) && Faithful(run[|commands|], commands)
    decreases |commands|
  {
    if commands != [] {
      var n := |commands| - 1;
      CacheRuns(run[..n + 1], commands[..n]);
      assert Does(run[n], commands[n], run[n + 1]);
      CommandKeepsConsistent(run[n], commands[n], run[n + 1]);
      CommandKeepsFaithful(run[n], commands[..n], commands[n], run[n + 1]);
      assert commands == commands[..n] + [commands[n]];
    }
  }

  /** A mail is found exactly while its body is cached, with the envelope last written
      and the body and attachments last indexed. Its flags are those last written
      exactly when each of those is a word. */
  lemma CachedMailIsAsLastWritten(run: seq<Tables>, commands: seq<Command>, key: Key)
    requires IsRun(run, commands)
    ensures var t := run[|commands|];
            (key in t.bodies <==> FetchMail(t, key).Some?)
    ensures var (t, (envelope, flags), (body, attachments)) :=
              (run[|commands|], LastWritten(commands, key), LastBody(commands, key));
            key in t.bodies ==>
              var mail := FetchMail(t, key).value;
              && mail == Mail(Header(key.uid, envelope, mail.header.flags), body, attachments)
              && (mail.header.flags == flags <==> forall i :: 0 <= i < |flags| ==> IsAtom(flags[i]))
  {
    CacheRuns(run, commands);
    FlagsColumnRoundTrip(LastWritten(commands, key).1);
  }

  lemma EvictsOnlyAtCap(before: map<Key, BodyRow>, after: map<Key, BodyRow>, max: nat, gone: Key)
    requires Evicts(before, after, max) && gone in before && gone !in after
    ensures |before| > max == |after|
  {
    SubsetSize(after.Keys, before.Keys - {gone});
    assert |before.Keys - {gone}| == |before| - 1;
  }

  /** Where one body has to go, it is not one that is newer than another. */
  lemma EvictsOldestFirst(before: map<Key, BodyRow>, after: map<Key, BodyRow>, max: nat, older: Key, newer: Key)
    requires Evicts(before, after, max) && |before| <= max + 1
    requires older in before && newer in before && before[older].cachedAt < before[newer].cachedAt
    ensures newer in after
  {
    if newer !in after {
      EvictsOnlyAtCap(before, after, max, newer);
      assert older !in after;
      SubsetSize(after.Keys, before.Keys - {newer} - {older});
    }
  }

  /** Of the bodies it had and the new one, indexing lets go of the oldest only, and
      only at the cap. */
  lemma IndexingEvictsOldest(t: Tables, u: Tables, box: Box, h: Header, body: string, attachments: Attachments,
                             now: int, gone: Key, kept: Key)
    requires Consistent(t) && IndexesMail(t, u, box, h, body, attachments, now)
    requires gone in WriteMail(t, box, h, body, attachments, now).bodies && gone !in u.bodies && kept in u.bodies
    ensures |t.bodies| == |u.bodies| == MAX_CACHED_BODIES
    ensures var written := WriteMail(t, box, h, body, attachments, now);
            written.bodies[gone].cachedAt <= written.bodies[kept].cachedAt
  {
    EvictsOnlyAtCap(WriteMail(t, box, h, body, attachments, now).bodies, u.bodies, MAX_CACHED_BODIES, gone);
    WrittenSize(t, box, h, body, attachments, now);
  }

  lemma WrittenSize(t: Tables, box: Box, h: Header, body: string, attachments: Attachments, now: int)
    ensures |WriteMail(t, box, h, body, attachments, now).bodies|
         == if Key(box, h.uid) in t.bodies then |t.bodies| else |t.bodies| + 1
  {
    var key := Key(box, h.uid);
    var written := WriteMail(t, box, h, body, attachments, now);
    assert written.bodies.Keys == t.bodies.Keys + {key};
    assert key in t.bodies ==> t.bodies.Keys + {key} == t.bodies.Keys;
  }

  /** The mail just indexed is cached whenever there is room or it was cached
      before, or some other cached body is strictly older than it. */
  lemma JustIndexedIsCached(t: Tables, u: Tables, box: Box, h: Header, body: string, attachments: Attachments, now: int)
    requires Consistent(t) && IndexesMail(t, u, box, h, body, attachments, now)
    requires || |t.bodies| < MAX_CACHED_BODIES || Key(box, h.uid) in t.bodies
             || exists older :: older in t.bodies && t.bodies[older].cachedAt < now
    ensures Key(box, h.uid) in u.bodies && u.bodies[Key(box, h.uid)] == BodyRow(body, attachments, now)
  {
    var key, written := Key(box, h.uid), WriteMail(t, box, h, body, attachments, now).bodies;
    WrittenSize(t, box, h, body, attachments, now);
    if |written| <= MAX_CACHED_BODIES {
      if key !in u.bodies {
        EvictsOnlyAtCap(written, u.bodies, MAX_CACHED_BODIES, key);
      }
    } else {
      var older :| older in t.bodies && t.bodies[older].cachedAt < now;
      EvictsOldestFirst(written, u.bodies, MAX_CACHED_BODIES, older, key);
    }
  }

  /** After a Resync decision no table holds a row of the mailbox, and every other
      mailbox's rows are untouched. */
  lemma ResyncLeavesNoRow(t: Tables, box: Box, validity: nat, next: nat)
    requires box in t.mailboxes && t.mailboxes[box].uidValidity != validity
    ensures var (u, plan) := Report(t, box, validity, next);
            && plan.Resync?
            && (forall k :: k in u.messages <==> k in t.messages && k.box != box)
            && (forall k :: k in u.bodies <==> k in t.bodies && k.box != box)
            && (forall r :: r in u.search <==> r in t.search && r.key.box != box)
            && u.mailboxes == t.mailboxes[box := SyncState(validity, next)]
  {
    FilterMembers(t.search, (r: SearchRow) => !((k: Key) => k.box == box)(r.key));
  }

  /** A report deletes rows only when another UIDVALIDITY was stored. Otherwise it
      changes what is stored alone, and asks for what is new: from the UIDNEXT stored,
      or from the first when nothing was. */
  ghost predicate ReportDoes(t: Tables, box: Box, validity: nat, next: nat, u: Tables, plan: SyncPlan) {
    && u.mailboxes == t.mailboxes[box := SyncState(validity, next)]
    && (plan == Resync <==> box in t.mailboxes && t.mailboxes[box].uidValidity != validity)
    && (plan != Resync ==> u.messages == t.messages && u.bodies == t.bodies && u.search == t.search)
    && (plan != Resync && box in t.mailboxes ==>
          plan == if next > t.mailboxes[box].uidNext then FetchFrom(t.mailboxes[box].uidNext) else UpToDate)
    && (box !in t.mailboxes ==> plan == if next > 1 then FetchFrom(1) else UpToDate)
    && (plan == Resync ==> DropsRows(t, u, iset k: Key | k.box == box))
  }

  /** Exactly these messages lose their rows in the three tables; all other rows stay. */
  ghost predicate DropsRows(t: Tables, u: Tables, gone: iset<Key>) {
    && (forall k :: k in u.messages <==> k in t.messages && k !in gone)
    && (forall k :: k in u.messages ==> u.messages[k] == t.messages[k])
    && (forall k :: k in u.bodies <==> k in t.bodies && k !in gone)
    && (forall k :: k in u.bodies ==> u.bodies[k] == t.bodies[k])
    && (forall row :: row in u.search <==> row in t.search && row.key !in gone)
  }

  lemma ForgetDropsRows(t: Tables, goes: Key -> bool)
    ensures DropsRows(t, Forget(t, goes), iset k: Key | goes(k))
  {
    FilterMembers(t.search, (r: SearchRow) => !goes(r.key));
  }

  lemma ReportIsExact(t: Tables, box: Box, validity: nat, next: nat)
    ensures var (u, plan) := Report(t, box, validity, next); ReportDoes(t, box, validity, next, u, plan)
  {
    var goes := (k: Key) => k.box == box;
    ForgetDropsRows(t, goes);
    assert (iset k: Key | goes(k)) == (iset k: Key | k.box == box);
  }

  /** Removing a message takes its rows from every table and no other's. */
  lemma RemovalIsExact(t: Tables, key: Key)
    ensures var u := RemoveMessage(t, key); DropsRows(t, u, iset{key}) && u.mailboxes == t.mailboxes
  {
    var goes := (k: Key) => k == key;
    ForgetDropsRows(t, goes);
    assert (iset k: Key | goes(k)) == iset{key};
  }

  /** Removing an account takes all its rows, its mailboxes' states too, and no other's. */
  lemma AccountRemovalIsExact(t: Tables, account: string)
    ensures DropsRows(t, RemoveAccount(t, account), iset k: Key | k.box.account == account)
    ensures var u := RemoveAccount(t, account);
            && (forall b :: b in u.mailboxes <==> b in t.mailboxes && b.account != account)
            && (forall b :: b in u.mailboxes ==> u.mailboxes[b] == t.mailboxes[b])
  {
    var goes := (k: Key) => k.box.account == account;
    ForgetDropsRows(t, goes);
    assert (iset k: Key | goes(k)) == (iset k: Key | k.box.account == account);
    var u, kept := RemoveAccount(t, account), Forget(t, goes);
    assert u.messages == kept.messages && u.bodies == kept.bodies && u.search == kept.search;
  }

  /** Indexing a mail writes its message row and its search row, and leaves every other
      row of these tables, and the mailboxes, as they were. */
  lemma IndexingIsExact(t: Tables, u: Tables, box: Box, h: Header, body: string, attachments: Attachments, now: int)
    requires IndexesMail(t, u, box, h, body, attachments, now)
    ensures var (key, e) := (Key(box, h.uid), h.envelope);
            && u.mailboxes == t.mailboxes
            && u.messages == t.messages[key := MessageRow(e, JoinFlags(h.flags), Utf8Length(body))]
            && (forall row :: row in u.search <==>
                  (row in t.search && row.key != key) || row == SearchRow(key, e.subject, e.from, e.to, body))
            && (forall k :: k in u.bodies ==>
                  (k == key && u.bodies[k] == BodyRow(body, attachments, now))
                  || (k != key && k in t.bodies && u.bodies[k] == t.bodies[k]))
  {
    FilterMembers(t.search, (r: SearchRow) => r.key != Key(box, h.uid));
  }

  /** New flags change the flags of the message's row, when there is one, and nothing else. */
  lemma FlagsAreExact(t: Tables, key: Key, flags: seq<string>)
    ensures var u := UpdateFlags(t, key, flags);
            && u.mailboxes == t.mailboxes && u.bodies == t.bodies && u.search == t.search
            && u.messages.Keys == t.messages.Keys
            && (forall k :: k in t.messages && k != key ==> u.messages[k] == t.messages[k])
            && (key in t.messages ==> u.messages[key].flags == JoinFlags(flags)
                                      && u.messages[key].envelope == t.messages[key].envelope
                                      && u.messages[key].size == t.messages[key].size)
  {
  }

  function CountFrom(s: string, least: int): nat {
    if s == [] then 0 else CountFrom(s[1..], least) + if s[0] as int >= least then 1 else 0
  }

  /** A byte for each character, and one more from each of three bounds on. */
  lemma {:induction false} Utf8LengthCounts(s: string)
    ensures Utf8Length(s) == |s| + CountFrom(s, 0x80) + CountFrom(s, 0x800) + CountFrom(s, 0x1_0000)
  {
    if s != [] {
      Utf8LengthCounts(s[1..]);
    }
  }

  // ----- the imperative form -----

  class Cache {
    var mailboxes: map<Box, SyncState>
    var messages: map<Key, MessageRow>
    var bodies: map<Key, BodyRow>
    var search: seq<SearchRow>

    function View(): Tables
      reads this
    {
      Tables(mailboxes, messages, bodies, search)
    }

    constructor ()
      ensures View() == EMPTY_TABLES
    {
      mailboxes, messages, bodies, search := map[], map[], map[], [];
    }

    method IndexAllHeaders(box: Box, headers: seq<Header>)
      modifies `messages
      ensures View() == IndexHeaders(old(View()), box, headers)
    {
      for i := 0 to |headers|
        invariant View() == IndexHeaders(old(View()), box, headers[..i])
      {
        assert headers[..i + 1][..i] == headers[..i];
        var key := Key(box, headers[i].uid);
        var size := if key in messages then messages[key].size else 0;
        messages := messages[key := MessageRow(headers[i].envelope, JoinFlags(headers[i].flags), size)];
      }
      assert headers[..|headers|] == headers;
    }

    method IndexOneMail(box: Box, h: Header, body: string, attachments: Attachments, now: int)
      modifies this
      ensures IndexesMail(old(View()), View(), box, h, body, attachments, now)
    {
      var key := Key(box, h.uid);
      messages := messages[key := MessageRow(h.envelope, JoinFlags(h.flags), Utf8Length(body))];
      bodies := bodies[key := BodyRow(body, attachments, now)];
      search := RowsBut(search, key);
      search := search + [SearchRow(key, h.envelope.subject, h.envelope.from, h.envelope.to, body)];
      EvictLruBodies(MAX_CACHED_BODIES);
    }

    /** Deletes the oldest bodies until at most `max` remain. */
    method EvictLruBodies(max: nat)
      modifies `bodies
      ensures Evicts(old(bodies), bodies, max)
    {
      while |bodies| > max
        invariant bodies.Keys <= old(bodies).Keys
        invariant forall k :: k in bodies ==> bodies[k] == old(bodies)[k]
        invariant |bodies| >= if |old(bodies)| <= max then |old(bodies)| else max
        invariant |bodies| <= |old(bodies)|
        invariant forall gone, kept :: gone in old(bodies).Keys - bodies.Keys && kept in bodies ==>
            old(bodies)[gone].cachedAt <= old(bodies)[kept].cachedAt
        decreases |bodies|
      {
        ghost var before := bodies;
        OldestExists(bodies);
        var oldest :| oldest in bodies && forall k :: k in bodies ==> bodies[oldest].cachedAt <= bodies[k].cachedAt;
        bodies := map k | k in bodies && k != oldest :: bodies[k];
        assert bodies.Keys == before.Keys - {oldest};
      }
    }

    /** The three DELETE statements, one a table. */
    method DeleteWhere(goes: Key -> bool)
      modifies `messages, `bodies, `search
      ensures View() == Forget(old(View()), goes)
    {
      messages := map k | k in messages && !goes(k) :: messages[k];
      bodies := map k | k in bodies && !goes(k) :: bodies[k];
      search := Filter(search, (r: SearchRow) => !goes(r.key));
    }

    method WipeMailbox(box: Box)
      modifies `messages, `bodies, `search
      ensures View() == Forget(old(View()), (k: Key) => k.box == box)
    {
      DeleteWhere((k: Key) => k.box == box);
    }

    method ReportMailboxState(box: Box, validity: nat, next: nat) returns (plan: SyncPlan)
      modifies this
      ensures (View(), plan) == Report(old(View()), box, validity, next)
      ensures ReportDoes(old(View()), box, validity, next, View(), plan)
    {
      ReportIsExact(View(), box, validity, next);
      plan := SyncDecision(if box in mailboxes then Some(mailboxes[box]) else None, validity, next);
      if plan.Resync? {
        WipeMailbox(box);
      }
      mailboxes := mailboxes[box := SyncState(validity, next)];
    }

    method ChangeFlags(key: Key, flags: seq<string>)
      modifies `messages
      ensures View() == UpdateFlags(old(View()), key, flags)
    {
      if key in messages {
        messages := messages[key := messages[key].(flags := JoinFlags(flags))];
      }
    }

    method DropMessage(key: Key)
      modifies this
      ensures View() == RemoveMessage(old(View()), key)
      ensures DropsRows(old(View()), View(), iset{key})
    {
      RemovalIsExact(View(), key);
      DeleteWhere((k: Key) => k == key);
    }

    method DropAccount(account: string)
      modifies this
      ensures View() == RemoveAccount(old(View()), account)
      ensures DropsRows(old(View()), View(), iset k: Key | k.box.account == account)
    {
      AccountRemovalIsExact(View(), account);
      DeleteWhere((k: Key) => k.box.account == account);
      mailboxes := map b: Box | b in mailboxes && b.account != account :: mailboxes[b];
    }
  }

  lemma OldestExists(bodies: map<Key, BodyRow>)
    requires |bodies| > 0
    ensures exists k :: k in bodies && forall j :: j in bodies ==> bodies[k].cachedAt <= bodies[j].cachedAt
  {
    var age := (k: Key) => if k in bodies then bodies[k].cachedAt else 0;
    assert bodies.Keys != {};
    LeastExists(bodies.Keys, age);
    var oldest :| IsLeast(bodies.Keys, age, oldest);
    forall j | j in bodies ensures bodies[oldest].cachedAt <= bodies[j].cachedAt {
      assert age(oldest) <= age(j);
    }
  }
}
