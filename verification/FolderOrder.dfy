/** Sorting every level of the folder tree: special-use folders first in a fixed
    order, then alphabetically. */
module FolderOrder {
  import opened Basics
  import opened FolderTree

  datatype Key = Key(rank: nat, name: string)

  function SortKey(node: Node): Key {
    Key(match node.specialUse
        case Some(Inbox) => 0
        case Some(Sent) => 1
        case Some(Drafts) => 2
        case Some(Archive) => 3
        case Some(Junk) => 4
        case Some(Trash) => 5
        case None => 6,
        Lower(node.segment))
  }

  /** `str`'s order, character by character. */
  predicate StringLess(a: string, b: string) {
    if b == [] then false
    else if a == [] then true
    else a[0] < b[0] || (a[0] == b[0] && StringLess(a[1..], b[1..]))
  }

  predicate Less(a: Key, b: Key) { a.rank < b.rank || (a.rank == b.rank && StringLess(a.name, b.name)) }

  lemma {:induction false} StringOrder(a: string, b: string, c: string)
    ensures !StringLess(a, a)
    ensures a == b || StringLess(a, b) || StringLess(b, a)
    ensures !(StringLess(a, b) && StringLess(b, a))
    ensures !StringLess(b, a) && !StringLess(c, b) ==> !StringLess(c, a)
  {
    if a != [] && b != [] && c != [] {
      StringOrder(a[1..], b[1..], c[1..]);
    } else if a != [] && b != [] {
      StringOrder(a[1..], b[1..], []);
    } else if a != [] {
      StringOrder(a[1..], [], []);
    }
  }

  lemma KeyOrder(a: Key, b: Key, c: Key)
    ensures !Less(a, a)
    ensures a == b || Less(a, b) || Less(b, a)
    ensures !(Less(a, b) && Less(b, a))
    ensures !Less(b, a) && !Less(c, b) ==> !Less(c, a)
  {
    StringOrder(a.name, b.name, c.name);
  }

  ghost predicate Sorted(nodes: seq<Node>) {
    forall i, j :: 0 <= i < j < |nodes| ==> !Less(SortKey(nodes[j]), SortKey(nodes[i]))
  }

  // ----- `sort_by`, the library's stable sort -----

  function Place(node: Node, nodes: seq<Node>): seq<Node> {
    if nodes == [] || !Less(SortKey(nodes[0]), SortKey(node)) then [node] + nodes
    else [nodes[0]] + Place(node, nodes[1..])
  }

  function SortLevel(nodes: seq<Node>): seq<Node> {
    if nodes == [] then [] else Place(nodes[0], SortLevel(nodes[1..]))
  }

  lemma {:induction false} PlaceHolds(node: Node, nodes: seq<Node>)
    ensures multiset(Place(node, nodes)) == multiset{node} + multiset(nodes)
  {
    if nodes != [] && Less(SortKey(nodes[0]), SortKey(node)) {
      PlaceHolds(node, nodes[1..]);
      assert nodes == [nodes[0]] + nodes[1..];
    }
  }

  lemma {:induction false} PlaceSorts(node: Node, nodes: seq<Node>)
    requires Sorted(nodes)
    ensures Sorted(Place(node, nodes))
  {
    if nodes != [] && Less(SortKey(nodes[0]), SortKey(node)) {
      var rest := Place(node, nodes[1..]);
      PlaceSorts(node, nodes[1..]);
      PlaceHolds(node, nodes[1..]);
      forall j | 0 <= j < |rest| ensures !Less(SortKey(rest[j]), SortKey(nodes[0])) {
        assert rest[j] in multiset(rest);
        if rest[j] == node {
          KeyOrder(SortKey(nodes[0]), SortKey(node), SortKey(nodes[0]));
        } else {
          assert rest[j] in nodes[1..];
          var k :| 1 <= k < |nodes| && nodes[k] == rest[j];
        }
      }
    } else if nodes != [] {
      forall j | 0 <= j < |nodes| ensures !Less(SortKey(nodes[j]), SortKey(node)) {
        KeyOrder(SortKey(node), SortKey(nodes[0]), SortKey(nodes[j]));
      }
    }
  }

  /** The level ends up in order, holding the same nodes. */
  lemma {:induction false} SortLevelSorts(nodes: seq<Node>)
    ensures Sorted(SortLevel(nodes)) && multiset(SortLevel(nodes)) == multiset(nodes)
  {
    if nodes != [] {
      SortLevelSorts(nodes[1..]);
      PlaceSorts(nodes[0], SortLevel(nodes[1..]));
      PlaceHolds(nodes[0], SortLevel(nodes[1..]));
      assert nodes == [nodes[0]] + nodes[1..];
    }
  }

  lemma {:induction false} PlaceIsStable(node: Node, nodes: seq<Node>, key: Key)
    ensures var same := (n: Node) => SortKey(n) == key;
            Filter(Place(node, nodes), same) == Filter([node] + nodes, same)
  {
    var same := (n: Node) => SortKey(n) == key;
    if nodes != [] && Less(SortKey(nodes[0]), SortKey(node)) {
      PlaceIsStable(node, nodes[1..], key);
      KeyOrder(SortKey(node), SortKey(node), SortKey(node));
      assert nodes == [nodes[0]] + nodes[1..];
      FilterAppend([nodes[0]], Place(node, nodes[1..]), same);
      FilterAppend([node], nodes[1..], same);
      FilterAppend([node], nodes, same);
      FilterAppend([nodes[0]], nodes[1..], same);
    }
  }

  /** Folders whose keys tie keep the order they were listed in. */
  lemma {:induction false} SortLevelIsStable(nodes: seq<Node>, key: Key)
    ensures var same := (n: Node) => SortKey(n) == key;
            Filter(SortLevel(nodes), same) == Filter(nodes, same)
  {
    if nodes != [] {
      var same := (n: Node) => SortKey(n) == key;
      SortLevelIsStable(nodes[1..], key);
      PlaceIsStable(nodes[0], SortLevel(nodes[1..]), key);
      FilterAppend([nodes[0]], SortLevel(nodes[1..]), same);
      FilterAppend([nodes[0]], nodes[1..], same);
      assert nodes == [nodes[0]] + nodes[1..];
    }
  }

  // ----- every level -----

  function WithSortedChildren(node: Node): Node
    decreases node, 2
  {
    node.(children := SortTree(node.children))
  }

  function SortChildren(nodes: seq<Node>): seq<Node>
    decreases nodes, 0
  {
    if nodes == [] then []
    else [WithSortedChildren(nodes[0])] + SortChildren(nodes[1..])
  }

  function SortTree(nodes: seq<Node>): seq<Node>
    decreases nodes, 1
  {
    SortLevel(SortChildren(nodes))
  }

  lemma {:induction false} SortChildrenAt(nodes: seq<Node>)
    ensures |SortChildren(nodes)| == |nodes|
    ensures forall i :: 0 <= i < |nodes| ==> SortChildren(nodes)[i] == WithSortedChildren(nodes[i])
  {
    if nodes != [] {
      SortChildrenAt(nodes[1..]);
    }
  }

  lemma SortChildrenCons(node: Node, nodes: seq<Node>)
    ensures SortChildren([node] + nodes) == [WithSortedChildren(node)] + SortChildren(nodes)
  {
    assert ([node] + nodes)[1..] == nodes;
  }

  lemma PlaceBehind(first: Node, node: Node, rest: seq<Node>)
    requires Less(SortKey(first), SortKey(node))
    ensures Place(node, [first] + rest) == [first] + Place(node, rest)
  {
    assert ([first] + rest)[1..] == rest;
  }

  lemma PlaceCommutesBehind(first: Node, node: Node, rest: seq<Node>)
    requires Less(SortKey(first), SortKey(node))
    requires SortChildren(Place(node, rest)) == Place(WithSortedChildren(node), SortChildren(rest))
    ensures SortChildren(Place(node, [first] + rest)) == Place(WithSortedChildren(node), SortChildren([first] + rest))
  {
    PlaceBehind(first, node, rest);
    SortChildrenCons(first, Place(node, rest));
    SortChildrenCons(first, rest);
    PlaceBehind(WithSortedChildren(first), WithSortedChildren(node), SortChildren(rest));
  }

  lemma PlaceCommutesInFront(node: Node, nodes: seq<Node>)
    requires nodes == [] || !Less(SortKey(nodes[0]), SortKey(node))
    ensures SortChildren(Place(node, nodes)) == Place(WithSortedChildren(node), SortChildren(nodes))
  {
    SortChildrenCons(node, nodes);
  }

  lemma {:induction false} PlaceCommutes(node: Node, nodes: seq<Node>)
    ensures SortChildren(Place(node, nodes)) == Place(WithSortedChildren(node), SortChildren(nodes))
  {
    if nodes != [] && Less(SortKey(nodes[0]), SortKey(node)) {
      PlaceCommutes(node, nodes[1..]);
      PlaceCommutesBehind(nodes[0], node, nodes[1..]);
      assert nodes == [nodes[0]] + nodes[1..];
    } else {
      PlaceCommutesInFront(node, nodes);
    }
  }

  /** A key does not look at children, so a level may be sorted before or after them. */
  lemma {:induction false} SortLevelCommutes(nodes: seq<Node>)
    ensures SortChildren(SortLevel(nodes)) == SortLevel(SortChildren(nodes))
  {
    if nodes != [] {
      SortLevelCommutes(nodes[1..]);
      PlaceCommutes(nodes[0], SortLevel(nodes[1..]));
    }
  }

  ghost predicate SortedEverywhere(nodes: seq<Node>) {
    Sorted(nodes) && forall i :: 0 <= i < |nodes| ==> SortedEverywhere(nodes[i].children)
  }

  lemma {:induction false} SortTreeSorts(nodes: seq<Node>)
    ensures SortedEverywhere(SortTree(nodes))
  {
    var inner, sorted := SortChildren(nodes), SortTree(nodes);
    SortLevelSorts(inner);
    SortChildrenAt(nodes);
    forall i | 0 <= i < |sorted| ensures SortedEverywhere(sorted[i].children) {
      assert sorted[i] in multiset(inner);
      var k :| 0 <= k < |nodes| && sorted[i] == inner[k];
      SortTreeSorts(nodes[k].children);
    }
  }

  /** The node with a label is the same one after sorting, but for its children. */
  lemma FindAfterSort(nodes: seq<Node>, segment: string)
    requires Distinct(nodes)
    ensures var i, j := Find(nodes, segment), Find(SortTree(nodes), segment);
            && (i < |nodes| <==> j < |SortTree(nodes)|)
            && (i < |nodes| ==> SortTree(nodes)[j] == WithSortedChildren(nodes[i]))
  {
    var inner, sorted := SortChildren(nodes), SortTree(nodes);
    SortLevelSorts(inner);
    SortChildrenAt(nodes);
    var i, j := Find(nodes, segment), Find(sorted, segment);
    if i < |nodes| {
      assert inner[i] in multiset(sorted);
      var k :| 0 <= k < |sorted| && sorted[k] == inner[i];
      assert j < |sorted|;
    }
    if j < |sorted| {
      assert sorted[j] in multiset(inner);
      var k :| 0 <= k < |nodes| && sorted[j] == inner[k];
      assert nodes[k].segment == segment && i == k;
    }
  }

  lemma {:induction false} SortKeepsInfo(nodes: seq<Node>, path: Path)
    requires UniqueLabels(nodes)
    ensures InfoAt(SortTree(nodes), path) == InfoAt(nodes, path)
    decreases |path|
  {
    if path != [] {
      FindAfterSort(nodes, path[0]);
      var i := Find(nodes, path[0]);
      if i < |nodes| {
        SortKeepsInfo(nodes[i].children, path[1..]);
      }
    }
  }

  lemma {:induction false} PlaceKeepsDistinct(node: Node, nodes: seq<Node>)
    requires Distinct(nodes) && forall n :: n in nodes ==> n.segment != node.segment
    ensures Distinct(Place(node, nodes)) && forall n :: n in Place(node, nodes) <==> n == node || n in nodes
  {
    if nodes != [] && Less(SortKey(nodes[0]), SortKey(node)) {
      PlaceKeepsDistinct(node, nodes[1..]);
      assert nodes == [nodes[0]] + nodes[1..];
      var rest := Place(node, nodes[1..]);
      forall j | 0 <= j < |rest| ensures rest[j].segment != nodes[0].segment {
        if rest[j] != node {
          assert rest[j] in nodes[1..];
        }
      }
    }
  }

  lemma {:induction false} SortLevelKeepsDistinct(nodes: seq<Node>)
    requires Distinct(nodes)
    ensures Distinct(SortLevel(nodes)) && forall n :: n in SortLevel(nodes) <==> n in nodes
  {
    if nodes != [] {
      SortLevelKeepsDistinct(nodes[1..]);
      var rest := SortLevel(nodes[1..]);
      assert nodes == [nodes[0]] + nodes[1..];
      PlaceKeepsDistinct(nodes[0], rest);
    }
  }

  lemma {:induction false} SortKeepsUnique(nodes: seq<Node>)
    requires UniqueLabels(nodes)
    ensures UniqueLabels(SortTree(nodes))
  {
    var inner, sorted := SortChildren(nodes), SortTree(nodes);
    SortChildrenAt(nodes);
    SortLevelKeepsDistinct(inner);
    forall i | 0 <= i < |sorted| ensures UniqueLabels(sorted[i].children) {
      assert sorted[i] in inner;
      var k :| 0 <= k < |nodes| && sorted[i] == inner[k];
      SortKeepsUnique(nodes[k].children);
    }
  }

  // ----- the order, said without the keys -----

  /** Roles in the order they are shown in. */
  const ROLES := [Some(Inbox), Some(Sent), Some(Drafts), Some(Archive), Some(Junk), Some(Trash), None]

  ghost predicate RoleBefore(a: Option<SpecialUse>, b: Option<SpecialUse>) {
    exists i, j :: 0 <= i < j < |ROLES| && ROLES[i] == a && ROLES[j] == b
  }

  /** Two strings part at `k`: there one has ended, or has the smaller character. */
  predicate PartAt(a: string, b: string, k: nat) {
    k <= |a| && k < |b| && a[..k] == b[..k] && (k == |a| || a[k] < b[k])
  }

  /** Alphabetically before, ignoring the case of ASCII letters. */
  ghost predicate LabelBefore(a: string, b: string) { exists k: nat :: PartAt(Lower(a), Lower(b), k) }

  /** Everywhere in the tree a node before another has a role no later, and with the
      same role a label no later. */
  ghost predicate InOrder(nodes: seq<Node>) {
    && (forall i, j :: 0 <= i < j < |nodes| ==>
          && !RoleBefore(nodes[j].specialUse, nodes[i].specialUse)
          && (nodes[i].specialUse == nodes[j].specialUse ==> !LabelBefore(nodes[j].segment, nodes[i].segment)))
    && forall i :: 0 <= i < |nodes| ==> InOrder(nodes[i].children)
  }

  lemma {:induction false} StringLessMeans(a: string, b: string)
    ensures StringLess(a, b) <==> exists k: nat :: PartAt(a, b, k)
  {
    if a != [] && b != [] {
      StringLessMeans(a[1..], b[1..]);
      if a[0] == b[0] {
        if k: nat :| PartAt(a[1..], b[1..], k) {
          assert a[..k + 1] == [a[0]] + a[1..][..k] && b[..k + 1] == [b[0]] + b[1..][..k];
          assert PartAt(a, b, k + 1);
        }
        if k: nat :| PartAt(a, b, k) {
          assert k > 0;
          assert a[1..][..k - 1] == a[..k][1..] && b[1..][..k - 1] == b[..k][1..];
          assert PartAt(a[1..], b[1..], k - 1);
        }
      } else if a[0] < b[0] {
        assert PartAt(a, b, 0);
      } else {
        forall k: nat | 0 < k <= |a| && k < |b| ensures a[..k] != b[..k] {
          assert a[..k][0] != b[..k][0];
        }
      }
    } else if b != [] {
      assert PartAt(a, b, 0);
    }
  }

  lemma RankIsRole(a: Node, b: Node)
    ensures SortKey(a).rank < SortKey(b).rank <==> RoleBefore(a.specialUse, b.specialUse)
  {
    assert ROLES[SortKey(a).rank] == a.specialUse && ROLES[SortKey(b).rank] == b.specialUse;
  }

  lemma {:induction false} SortedIsInOrder(nodes: seq<Node>)
    requires SortedEverywhere(nodes)
    ensures InOrder(nodes)
  {
    forall i, j | 0 <= i < j < |nodes|
      ensures !RoleBefore(nodes[j].specialUse, nodes[i].specialUse)
      ensures nodes[i].specialUse == nodes[j].specialUse ==> !LabelBefore(nodes[j].segment, nodes[i].segment)
    {
      RankIsRole(nodes[j], nodes[i]);
      StringLessMeans(Lower(nodes[j].segment), Lower(nodes[i].segment));
    }
    forall i | 0 <= i < |nodes| ensures InOrder(nodes[i].children) {
      SortedIsInOrder(nodes[i].children);
    }
  }

  // ----- the tree the client shows -----

  function MailboxTree(mailboxes: seq<MailboxInfo>): seq<Node> { SortTree(InsertAll(mailboxes)) }

  /** The tree has a node at a path exactly when some listed name reaches it, with
      the name of the last selectable input there and the role of the last input;
      sibling labels are unique and every level is in order. */
  lemma MailboxTreeDescribes(listed: seq<Listed>, path: Path)
    requires path != [] && AllWritten(listed)
    ensures Describes(InfoAt(MailboxTree(Mailboxes(listed)), path), listed, path)
    ensures UniqueLabels(MailboxTree(Mailboxes(listed))) && InOrder(MailboxTree(Mailboxes(listed)))
  {
    var mailboxes := Mailboxes(listed);
    InsertAllDescribes(listed, path);
    InsertAllUnique(mailboxes);
    SortKeepsInfo(InsertAll(mailboxes), path);
    SortKeepsUnique(InsertAll(mailboxes));
    SortTreeSorts(InsertAll(mailboxes));
    SortedIsInOrder(MailboxTree(mailboxes));
  }

  // ----- the imperative form -----

  method InsertInto(nodes: seq<Node>, path: Path, mb: MailboxInfo) returns (after: seq<Node>)
    ensures after == InsertPath(nodes, path, mb)
    decreases |path|
  {
    after := nodes;
    if path == [] {
      return;
    }
    var at := 0;
    while at < |nodes| && nodes[at].segment != path[0]
      invariant 0 <= at <= |nodes|
      invariant forall k :: 0 <= k < at ==> nodes[k].segment != path[0]
    {
      at := at + 1;
    }
    FindIsFirst(nodes, path[0], at);
    if at == |nodes| {
      after := after + [Node(path[0], None, None, [])];
    }
    var node := after[at];
    if |path| == 1 {
      if !mb.noselect {
        node := node.(fullName := Some(mb.name));
      }
      node := node.(specialUse := mb.specialUse);
    } else {
      var children := InsertInto(node.children, path[1..], mb);
      node := node.(children := children);
    }
    after := after[at := node];
  }

  function Height(nodes: seq<Node>): (h: nat)
    ensures forall n :: n in nodes ==> Height(n.children) < h
  {
    if nodes == [] then 0
    else
      var first, rest := 1 + Height(nodes[0].children), Height(nodes[1..]);
      if first >= rest then first else rest
  }

  /** Sorts this level, then each node's children. */
  method SortInPlace(nodes: seq<Node>) returns (sorted: seq<Node>)
    ensures sorted == SortTree(nodes)
    decreases Height(nodes)
  {
    sorted := SortLevel(nodes);
    SortLevelSorts(nodes);
    ghost var level := sorted;
    for i := 0 to |sorted|
      invariant |sorted| == |level|
      invariant forall k :: 0 <= k < i ==> sorted[k] == WithSortedChildren(level[k])
      invariant forall k :: i <= k < |level| ==> sorted[k] == level[k]
    {
      assert level[i] in multiset(nodes);
      var children := SortInPlace(sorted[i].children);
      sorted := sorted[i := sorted[i].(children := children)];
    }
    SortChildrenAt(level);
    assert sorted == SortChildren(level);
    SortLevelCommutes(nodes);
  }

  method BuildTree(mailboxes: seq<MailboxInfo>) returns (roots: seq<Node>)
    ensures roots == MailboxTree(mailboxes)
  {
    roots := [];
    for i := 0 to |mailboxes|
      invariant roots == InsertAll(mailboxes[..i])
    {
      assert mailboxes[..i + 1][..i] == mailboxes[..i];
      roots := InsertInto(roots, Segments(mailboxes[i]), mailboxes[i]);
    }
    assert mailboxes[..|mailboxes|] == mailboxes;
    roots := SortInPlace(roots);
  }
}
