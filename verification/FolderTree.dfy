/** The folder tree built from a flat `LIST`: names are split on their delimiter
    and inserted path by path, then every level is sorted. */
module FolderTree {
  import opened Basics

  datatype SpecialUse = Inbox | Sent | Drafts | Trash | Archive | Junk

  datatype MailboxInfo = MailboxInfo(name: string, delimiter: Option<string>,
                                     specialUse: Option<SpecialUse>, noselect: bool)

  datatype Node = Node(segment: string, fullName: Option<string>,
                       specialUse: Option<SpecialUse>, children: seq<Node>)

  type Path = seq<string>

  // ----- splitting names -----

  /** `str::split` on a non-empty delimiter, from position `at` on. */
  function SplitAt(s: string, d: string, at: nat): (r: seq<string>)
    requires d != [] && at <= |s|
    ensures r != []
    decreases |s|, |s| - at
  {
    if at + |d| > |s| then [s]
    else if s[at..at + |d|] == d then [s[..at]] + SplitAt(s[at + |d|..], d, 0)
    else SplitAt(s, d, at + 1)
  }

  function Join(parts: seq<string>, d: string): string
    requires parts != []
  {
    if |parts| == 1 then parts[0] else parts[0] + d + Join(parts[1..], d)
  }

  /** No character of the name is lost or invented by the split. */
  lemma {:induction false} JoinUndoesSplit(s: string, d: string, at: nat)
    requires d != [] && at <= |s|
    ensures Join(SplitAt(s, d, at), d) == s
    decreases |s|, |s| - at
  {
    if at + |d| <= |s| {
      if s[at..at + |d|] == d {
        JoinUndoesSplit(s[at + |d|..], d, 0);
        assert s == s[..at] + d + s[at + |d|..];
      } else {
        JoinUndoesSplit(s, d, at + 1);
      }
    }
  }

  predicate HoldsAt(s: string, d: string, k: nat) { k + |d| <= |s| && s[k..k + |d|] == d }

  lemma HeldInFront(front: string, s: string, d: string, k: nat)
    requires front <= s
    ensures HoldsAt(front, d, k) ==> HoldsAt(s, d, k)
  {
    if k + |d| <= |front| {
      assert front[k..k + |d|] == s[k..k + |d|];
    }
  }

  /** The pieces are what stands between delimiters: none holds one itself. */
  lemma {:induction false} PiecesHoldNoDelimiter(s: string, d: string, at: nat)
    requires d != [] && at <= |s| && forall k :: 0 <= k < at ==> !HoldsAt(s, d, k)
    ensures forall p, k :: p in SplitAt(s, d, at) ==> !HoldsAt(p, d, k)
    decreases |s|, |s| - at
  {
    if at + |d| > |s| {
      assert SplitAt(s, d, at) == [s];
    } else if s[at..at + |d|] == d {
      var first, rest := s[..at], s[at + |d|..];
      PiecesHoldNoDelimiter(rest, d, 0);
      forall k: nat ensures !HoldsAt(first, d, k) {
        HeldInFront(first, s, d, k);
      }
      assert SplitAt(s, d, at) == [first] + SplitAt(rest, d, 0);
    } else {
      assert !HoldsAt(s, d, at);
      PiecesHoldNoDelimiter(s, d, at + 1);
    }
  }

  /** Joined to what follows, the part ends at the first delimiter. */
  ghost predicate Clear(part: string, d: string) { forall k :: 0 <= k < |part| ==> !HoldsAt(part + d, d, k) }

  /** With a delimiter of one character, that is a part that does not hold it. */
  lemma ClearOfOne(part: string, d: string)
    requires |d| == 1
    ensures Clear(part, d) <==> d[0] !in part
  {
    forall k | 0 <= k < |part| ensures HoldsAt(part + d, d, k) <==> part[k] == d[0] {
      assert (part + d)[k..k + 1] == [part[k]];
    }
  }

  lemma {:induction false} SplitFindsFirst(part: string, rest: string, d: string, at: nat)
    requires d != [] && Clear(part, d) && at <= |part|
    ensures SplitAt(part + d + rest, d, at) == [part] + SplitAt(rest, d, 0)
    decreases |part| - at
  {
    var s := part + d + rest;
    assert s[at..at + |d|] == (part + d)[at..at + |d|];
    if at == |part| {
      assert s[..at] == part && s[at + |d|..] == rest;
    } else {
      assert !HoldsAt(part + d, d, at);
      SplitFindsFirst(part, rest, d, at + 1);
    }
  }

  ghost predicate Free(part: string, d: string) { forall k :: 0 <= k < |part| ==> !HoldsAt(part, d, k) }

  lemma {:induction false} SplitOfLast(part: string, d: string, at: nat)
    requires d != [] && Free(part, d) && at <= |part|
    ensures SplitAt(part, d, at) == [part]
    decreases |part| - at
  {
    if at + |d| <= |part| {
      assert !HoldsAt(part, d, at);
      SplitOfLast(part, d, at + 1);
    }
  }

  /** Parts joined by a delimiter come back from the split, empty ones too. */
  lemma {:induction false} SplitUndoesJoin(parts: seq<string>, d: string)
    requires d != [] && parts != [] && Joins(Join(parts, d), d, parts)
    ensures SplitAt(Join(parts, d), d, 0) == parts
  {
    if |parts| == 1 {
      SplitOfLast(parts[0], d, 0);
    } else {
      SplitUndoesJoin(parts[1..], d);
      SplitFindsFirst(parts[0], Join(parts[1..], d), d, 0);
    }
  }

  function Segments(mb: MailboxInfo): Path {
    if mb.delimiter.Some? && mb.delimiter.value != [] then
      Filter(SplitAt(mb.name, mb.delimiter.value, 0), s => s != "")
    else [mb.name]
  }

  /** The name is written as these parts: joined by its delimiter, with what is empty
      between two delimiters left out; or, without one, it is a part by itself. */
  ghost predicate WrittenAs(mb: MailboxInfo, parts: Path) {
    if mb.delimiter == None || mb.delimiter == Some("") then parts == [mb.name]
    else exists all: seq<string> :: all != [] && Joins(mb.name, mb.delimiter.value, all) && parts == NonEmpty(all)
  }

  /** Each part but the last ends at the first delimiter from its start on, and the last holds none. */
  ghost predicate Joins(name: string, d: string, all: seq<string>)
    requires all != []
  {
    && name == Join(all, d)
    && (forall i :: 0 <= i < |all| - 1 ==> Clear(all[i], d))
    && Free(all[|all| - 1], d)
  }

  function NonEmpty(parts: seq<string>): Path {
    if parts == [] then [] else (if parts[0] == "" then [] else [parts[0]]) + NonEmpty(parts[1..])
  }

  lemma {:induction false} NonEmptyIsFilter(parts: seq<string>)
    ensures Filter(parts, s => s != "") == NonEmpty(parts)
  {
    var keep := (s: string) => s != "";
    FilterSame(parts, s => s != "", keep);
    NonEmptyIsFiltered(parts, keep);
  }

  lemma {:induction false} NonEmptyIsFiltered(parts: seq<string>, keep: string -> bool)
    requires forall s :: keep(s) <==> s != ""
    ensures Filter(parts, keep) == NonEmpty(parts)
  {
    if parts != [] {
      NonEmptyIsFiltered(parts[1..], keep);
    }
  }

  lemma {:induction false} SplitJoins(s: string, d: string, at: nat)
    requires d != [] && at <= |s| && forall k :: 0 <= k < at ==> !HoldsAt(s, d, k)
    ensures Joins(s, d, SplitAt(s, d, at))
    decreases |s|, |s| - at
  {
    JoinUndoesSplit(s, d, at);
    if at + |d| > |s| {
      assert forall k :: at <= k < |s| ==> !HoldsAt(s, d, k);
    } else if s[at..at + |d|] == d {
      var first, rest := s[..at], s[at + |d|..];
      SplitJoins(rest, d, 0);
      assert first + d == s[..at + |d|];
      forall k: nat | k < at ensures !HoldsAt(first + d, d, k) {
        HeldInFront(first + d, s, d, k);
      }
      assert SplitAt(s, d, at) == [first] + SplitAt(rest, d, 0);
    } else {
      assert !HoldsAt(s, d, at);
      SplitJoins(s, d, at + 1);
    }
  }

  /** Every name is written as some parts. */
  lemma EveryNameIsWritten(mb: MailboxInfo)
    ensures WrittenAs(mb, Segments(mb))
  {
    if mb.delimiter.Some? && mb.delimiter != Some("") {
      var all := SplitAt(mb.name, mb.delimiter.value, 0);
      SplitJoins(mb.name, mb.delimiter.value, 0);
      NonEmptyIsFilter(all);
      FilterSame(all, s => s != "", s => s != "");
      assert all != [] && Joins(mb.name, mb.delimiter.value, all) && Segments(mb) == NonEmpty(all);
    }
  }

  /** A name has the segments it is written as, and no others. */
  lemma SegmentsAreTheParts(mb: MailboxInfo, parts: Path)
    requires WrittenAs(mb, parts)
    ensures Segments(mb) == parts
  {
    if mb.delimiter.Some? && mb.delimiter != Some("") {
      var d := mb.delimiter.value;
      var all: seq<string> :| all != [] && Joins(mb.name, d, all) && parts == NonEmpty(all);
      SplitUndoesJoin(all, d);
      NonEmptyIsFilter(all);
      FilterSame(all, s => s != "", s => s != "");
    }
  }

  // ----- inserting -----

  /** The first node with this segment, or `|nodes|`. */
  function Find(nodes: seq<Node>, segment: string): nat { FirstWhere(nodes, (n: Node) => n.segment == segment) }

  function InsertPath(nodes: seq<Node>, path: Path, mb: MailboxInfo): seq<Node>
    decreases |path|
  {
    if path == [] then nodes
    else
      var i := Find(nodes, path[0]);
      var prior := if i < |nodes| then nodes[i] else Node(path[0], None, None, []);
      var node := if |path| == 1
                  then prior.(fullName := if mb.noselect then prior.fullName else Some(mb.name),
                              specialUse := mb.specialUse)
                  else prior.(children := InsertPath(prior.children, path[1..], mb));
      if i < |nodes| then nodes[i := node] else nodes + [node]
  }

  function InsertAll(mailboxes: seq<MailboxInfo>): seq<Node> {
    if mailboxes == [] then []
    else
      var last := mailboxes[|mailboxes| - 1];
      InsertPath(InsertAll(mailboxes[..|mailboxes| - 1]), Segments(last), last)
  }

  // ----- the tree as a map from paths -----

  datatype Info = Info(fullName: Option<string>, specialUse: Option<SpecialUse>)

  /** What the tree says at a path, if it has a node there. */
  function InfoAt(nodes: seq<Node>, path: Path): Option<Info>
    decreases |path|
  {
    if path == [] then None
    else
      var i := Find(nodes, path[0]);
      if i == |nodes| then None
      else if |path| == 1 then Some(Info(nodes[i].fullName, nodes[i].specialUse))
      else InfoAt(nodes[i].children, path[1..])
  }

  function Updated(prior: Option<Info>, exact: bool, mb: MailboxInfo): Info {
    var known := if prior.Some? then prior.value else Info(None, None);
    if exact then Info(if mb.noselect then known.fullName else Some(mb.name), mb.specialUse) else known
  }

  /** An insertion creates the non-empty prefixes of its path, writes only the
      node at its end, and leaves every other path as it was. */
  lemma {:induction false} InsertPathInfo(nodes: seq<Node>, segments: Path, mb: MailboxInfo, path: Path)
    ensures InfoAt(InsertPath(nodes, segments, mb), path) ==
            if path != [] && path <= segments then Some(Updated(InfoAt(nodes, path), path == segments, mb))
            else InfoAt(nodes, path)
    decreases |path|
  {
    if path != [] && segments != [] {
      var after := InsertPath(nodes, segments, mb);
      var i := Find(nodes, segments[0]);
      var prior := if i < |nodes| then nodes[i] else Node(segments[0], None, None, []);
      FindAfterInsert(nodes, segments, mb, path[0]);
      if path[0] == segments[0] {
        assert path <= segments <==> path[1..] <= segments[1..];
        if |path| > 1 && |segments| > 1 {
          InsertPathInfo(prior.children, segments[1..], mb, path[1..]);
        }
      }
    }
  }

  lemma FindAfterInsert(nodes: seq<Node>, segments: Path, mb: MailboxInfo, segment: string)
    requires segments != []
    ensures var after := InsertPath(nodes, segments, mb);
            var i := Find(nodes, segments[0]);
            if segment == segments[0] then Find(after, segment) == i < |after|
            else
              && (Find(nodes, segment) < |nodes| ==>
                    && Find(after, segment) == Find(nodes, segment)
                    && after[Find(after, segment)] == nodes[Find(nodes, segment)])
              && (Find(nodes, segment) == |nodes| ==> Find(after, segment) == |after|)
  {
    var after := InsertPath(nodes, segments, mb);
    assert forall k :: 0 <= k < |nodes| ==> after[k].segment == nodes[k].segment;
    FindIsFirst(after, segment, Find(after, segment));
    if Find(nodes, segment) < |nodes| {
      FindIsFirst(after, segment, Find(nodes, segment));
    } else if segment == segments[0] {
      FindIsFirst(after, segment, |nodes|);
    }
  }

  lemma FindIsFirst(nodes: seq<Node>, segment: string, i: nat)
    requires i <= |nodes| && (i < |nodes| ==> nodes[i].segment == segment)
    requires forall k :: 0 <= k < i ==> nodes[k].segment != segment
    ensures Find(nodes, segment) == i
  {
    FirstWhereIs(nodes, (n: Node) => n.segment == segment, i);
  }

  predicate LeadsTo(path: Path, segments: Path) { path <= segments }

  /** A listed name with the parts it is written as. */
  datatype Listed = Listed(mb: MailboxInfo, parts: Path)

  function Mailboxes(listed: seq<Listed>): seq<MailboxInfo> {
    seq(|listed|, i requires 0 <= i < |listed| => listed[i].mb)
  }

  ghost predicate AllWritten(listed: seq<Listed>) {
    forall i :: 0 <= i < |listed| ==> WrittenAs(listed[i].mb, listed[i].parts)
  }

  /** Some listed name lies at or below the path. */
  ghost predicate Reaches(listed: seq<Listed>, path: Path) {
    exists l :: l in listed && LeadsTo(path, l.parts)
  }

  /** Input `i` is the last at exactly this path among those `keep` selects. */
  ghost predicate LastAt(listed: seq<Listed>, path: Path, i: int, selectable: bool) {
    && 0 <= i < |listed| && listed[i].parts == path && (selectable ==> !listed[i].mb.noselect)
    && forall j :: i < j < |listed| && (selectable ==> !listed[j].mb.noselect) ==> listed[j].parts != path
  }

  ghost predicate NoneAt(listed: seq<Listed>, path: Path, selectable: bool) {
    forall j :: 0 <= j < |listed| && (selectable ==> !listed[j].mb.noselect) ==> listed[j].parts != path
  }

  /** The name is that of the last selectable input at the path, if there is one. */
  ghost predicate NameTells(info: Info, listed: seq<Listed>, path: Path) {
    if info.fullName.Some? then
      exists i :: LastAt(listed, path, i, true) && info.fullName == Some(listed[i].mb.name)
    else NoneAt(listed, path, true)
  }

  /** The role is that of the last input at the path, if there is one. */
  ghost predicate RoleTells(info: Info, listed: seq<Listed>, path: Path) {
    || (exists i :: LastAt(listed, path, i, false) && info.specialUse == listed[i].mb.specialUse)
    || (NoneAt(listed, path, false) && info.specialUse.None?)
  }

  /** The tree before sorting has a node at a path exactly when some listed name
      reaches it, with the name and the role listed last there. */
  ghost predicate Describes(info: Option<Info>, listed: seq<Listed>, path: Path) {
    && (info.Some? <==> Reaches(listed, path))
    && (info.Some? ==> NameTells(info.value, listed, path) && RoleTells(info.value, listed, path))
  }

  lemma {:induction false} InsertAllDescribes(listed: seq<Listed>, path: Path)
    requires path != [] && AllWritten(listed)
    ensures Describes(InfoAt(InsertAll(Mailboxes(listed)), path), listed, path)
  {
    if listed != [] {
      var n := |listed| - 1;
      var before, last := listed[..n], listed[n];
      assert Mailboxes(listed)[..n] == Mailboxes(before);
      InsertAllDescribes(before, path);
      SegmentsAreTheParts(last.mb, last.parts);
      InsertPathInfo(InsertAll(Mailboxes(before)), last.parts, last.mb, path);
      DescribesAfter(InfoAt(InsertAll(Mailboxes(before)), path), listed, path);
    }
  }

  lemma ReachesAfter(listed: seq<Listed>, path: Path)
    requires listed != []
    ensures var n := |listed| - 1;
            Reaches(listed, path) <==> Reaches(listed[..n], path) || LeadsTo(path, listed[n].parts)
  {
    var n := |listed| - 1;
    assert forall l :: l in listed <==> l in listed[..n] || l == listed[n] by {
      assert listed == listed[..n] + [listed[n]];
    }
  }

  /** At a path nothing reaches, nothing is listed. */
  lemma UnreachedHasNone(listed: seq<Listed>, path: Path, selectable: bool)
    requires !Reaches(listed, path)
    ensures NoneAt(listed, path, selectable)
  {
    forall j | 0 <= j < |listed| ensures listed[j].parts != path {
      assert listed[j] in listed;
      assert !LeadsTo(path, listed[j].parts);
    }
  }

  lemma NameAfter(known: Info, listed: seq<Listed>, path: Path)
    requires listed != [] && NameTells(known, listed[..|listed| - 1], path)
    ensures var last := listed[|listed| - 1];
            NameTells(Updated(Some(known), path == last.parts, last.mb), listed, path)
  {
    LastAtExtends(listed, path, true);
    if known.fullName.Some? {
      var before := listed[..|listed| - 1];
      var i :| LastAt(before, path, i, true) && known.fullName == Some(before[i].mb.name);
    }
  }

  lemma RoleAfter(known: Info, listed: seq<Listed>, path: Path)
    requires listed != [] && RoleTells(known, listed[..|listed| - 1], path)
    ensures var last := listed[|listed| - 1];
            RoleTells(Updated(Some(known), path == last.parts, last.mb), listed, path)
  {
    LastAtExtends(listed, path, false);
    var before := listed[..|listed| - 1];
    if i :| LastAt(before, path, i, false) && known.specialUse == before[i].mb.specialUse {
      assert path != listed[|listed| - 1].parts ==> LastAt(listed, path, i, false);
    }
  }

  lemma DescribesAfter(prior: Option<Info>, listed: seq<Listed>, path: Path)
    requires listed != [] && Describes(prior, listed[..|listed| - 1], path)
    ensures var last := listed[|listed| - 1];
            Describes(if path <= last.parts then Some(Updated(prior, path == last.parts, last.mb)) else prior,
                listed, path)
  {
    var before := listed[..|listed| - 1];
    ReachesAfter(listed, path);
    var known := if prior.Some? then prior.value else Info(None, None);
    if prior.None? {
      UnreachedHasNone(before, path, true);
      UnreachedHasNone(before, path, false);
    }
    NameAfter(known, listed, path);
    RoleAfter(known, listed, path);
  }

  lemma LastAtExtends(listed: seq<Listed>, path: Path, selectable: bool)
    requires listed != []
    ensures var n := |listed| - 1;
            var last := listed[n];
            if last.parts == path && (selectable ==> !last.mb.noselect) then LastAt(listed, path, n, selectable)
            else
              && (forall i :: LastAt(listed[..n], path, i, selectable) ==>
                  LastAt(listed, path, i, selectable) && listed[..n][i] == listed[i])
              && (NoneAt(listed[..n], path, selectable) ==> NoneAt(listed, path, selectable))
  {
    var n := |listed| - 1;
    var before, last := listed[..n], listed[n];
    if !(last.parts == path && (selectable ==> !last.mb.noselect)) {
      forall i | LastAt(before, path, i, selectable)
        ensures LastAt(listed, path, i, selectable) && before[i] == listed[i]
      {
        forall j | i < j < |listed| && (selectable ==> !listed[j].mb.noselect)
          ensures listed[j].parts != path
        {
          assert j < n ==> before[j] == listed[j];
        }
      }
      if NoneAt(before, path, selectable) {
        forall j | 0 <= j < |listed| && (selectable ==> !listed[j].mb.noselect)
          ensures listed[j].parts != path
        {
          assert j < n ==> before[j] == listed[j];
        }
      }
    }
  }

  // ----- sibling labels -----

  ghost predicate Distinct(nodes: seq<Node>) {
    forall i, j :: 0 <= i < j < |nodes| ==> nodes[i].segment != nodes[j].segment
  }

  /** Sibling labels are unique at every level. */
  ghost predicate UniqueLabels(nodes: seq<Node>) {
    Distinct(nodes) && forall i :: 0 <= i < |nodes| ==> UniqueLabels(nodes[i].children)
  }

  lemma {:induction false} InsertKeepsUnique(nodes: seq<Node>, path: Path, mb: MailboxInfo)
    requires UniqueLabels(nodes)
    ensures UniqueLabels(InsertPath(nodes, path, mb))
    decreases |path|
  {
    if path != [] {
      var i := Find(nodes, path[0]);
      var prior := if i < |nodes| then nodes[i] else Node(path[0], None, None, []);
      if |path| > 1 {
        InsertKeepsUnique(prior.children, path[1..], mb);
      }
      var after := InsertPath(nodes, path, mb);
      assert forall k :: 0 <= k < |nodes| ==> after[k].segment == nodes[k].segment;
      assert forall k :: 0 <= k < |nodes| && k != i ==> after[k] == nodes[k];
    }
  }

  lemma {:induction false} InsertAllUnique(mailboxes: seq<MailboxInfo>)
    ensures UniqueLabels(InsertAll(mailboxes))
  {
    if mailboxes != [] {
      var n := |mailboxes| - 1;
      InsertAllUnique(mailboxes[..n]);
      InsertKeepsUnique(InsertAll(mailboxes[..n]), Segments(mailboxes[n]), mailboxes[n]);
    }
  }
}
