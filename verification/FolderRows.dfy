/** The folder tree as flat rows: preorder with depths, filtered by one linear
    pass that skips whatever lies below a collapsed row. */
module FolderRows {
  import opened Basics
  import opened FolderTree

  datatype Row = Row(depth: nat, segment: string, fullName: Option<string>,
                     specialUse: Option<SpecialUse>, key: string, hasChildren: bool)

  /** A node of the tree with where it stands. */
  datatype Placed = Placed(node: Node, depth: nat, key: string)

  function KeyOf(parentKey: string, node: Node): string {
    if parentKey == "" then node.segment else parentKey + "/" + node.segment
  }

  function RowOf(p: Placed): Row {
    Row(p.depth, p.node.segment, p.node.fullName, p.node.specialUse, p.key, p.node.children != [])
  }

  /** One row per node, parents before children, followed by `rest`. */
  function Flatten(nodes: seq<Node>, depth: nat, parentKey: string, rest: seq<Row>): seq<Row> {
    if nodes == [] then rest
    else
      var p := Placed(nodes[0], depth, KeyOf(parentKey, nodes[0]));
      [RowOf(p)] + Flatten(nodes[0].children, depth + 1, p.key, Flatten(nodes[1..], depth, parentKey, rest))
  }

  function FlattenTree(nodes: seq<Node>): seq<Row> { Flatten(nodes, 0, "", []) }

  /** The same walk with the children of collapsed nodes cut off. */
  function FlattenCut(nodes: seq<Node>, depth: nat, parentKey: string, collapsed: set<string>,
                      rest: seq<Row>): seq<Row>
  {
    if nodes == [] then rest
    else
      var p := Placed(nodes[0], depth, KeyOf(parentKey, nodes[0]));
      var beside := FlattenCut(nodes[1..], depth, parentKey, collapsed, rest);
      [RowOf(p)] + if p.key in collapsed then beside
          else FlattenCut(nodes[0].children, depth + 1, p.key, collapsed, beside)
  }

  function Size(nodes: seq<Node>): nat {
    if nodes == [] then 0 else 1 + Size(nodes[0].children) + Size(nodes[1..])
  }

  /** The `i`-th node of the tree, parents before children. */
  function NodeAt(nodes: seq<Node>, depth: nat, parentKey: string, i: nat): Placed
    requires i < Size(nodes)
  {
    var p := Placed(nodes[0], depth, KeyOf(parentKey, nodes[0]));
    var below := Size(nodes[0].children);
    if i == 0 then p
    else if i <= below then NodeAt(nodes[0].children, depth + 1, p.key, i - 1)
    else NodeAt(nodes[1..], depth, parentKey, i - 1 - below)
  }

  // ----- ancestry among rows -----

  /** Row `j` is a proper ancestor of row `i`: everything from `j + 1` to `i` lies deeper than `j`. */
  ghost predicate IsAncestor(rows: seq<Row>, j: int, i: int) {
    0 <= j < i < |rows| && forall k :: j < k <= i ==> rows[k].depth > rows[j].depth
  }

  predicate Folds(row: Row, collapsed: set<string>) { row.hasChildren && row.key in collapsed }

  ghost predicate Hides(rows: seq<Row>, collapsed: set<string>, j: int, i: int) {
    IsAncestor(rows, j, i) && rows[j].hasChildren && rows[j].key in collapsed
  }

  ghost predicate IsHidden(rows: seq<Row>, collapsed: set<string>, i: int) { exists j :: Hides(rows, collapsed, j, i) }

  /** The leading rows deeper than `depth`. */
  function Deeper(rows: seq<Row>, depth: nat): seq<Row> {
    if rows == [] || rows[0].depth <= depth then [] else [rows[0]] + Deeper(rows[1..], depth)
  }

  function Descendants(rows: seq<Row>, index: nat): seq<Row>
    requires index < |rows|
  {
    Deeper(rows[index + 1..], rows[index].depth)
  }

  predicate Skips(row: Row, hidden: Option<nat>) { hidden.Some? && row.depth > hidden.value }

  /** The depth being skipped after a row. */
  function HiddenAfter(row: Row, hidden: Option<nat>, collapsed: set<string>): Option<nat> {
    if Skips(row, hidden) then hidden else if Folds(row, collapsed) then Some(row.depth) else None
  }

  /** The rows a scan shows; `hidden` is the depth below which it is skipping. */
  function Shown(rows: seq<Row>, hidden: Option<nat>, collapsed: set<string>): seq<Row> {
    if rows == [] then []
    else
      var later := Shown(rows[1..], HiddenAfter(rows[0], hidden, collapsed), collapsed);
      if Skips(rows[0], hidden) then later else [rows[0]] + later
  }

  function Select(rows: seq<Row>, indices: seq<nat>): seq<Row>
    requires forall i :: 0 <= i < |indices| ==> indices[i] < |rows|
  {
    seq(|indices|, i requires 0 <= i < |indices| => rows[indices[i]])
  }

  /** The indices a scan shows from row `i` on. */
  function VisibleFrom(rows: seq<Row>, i: nat, hidden: Option<nat>, collapsed: set<string>): (r: seq<nat>)
    requires i <= |rows|
    ensures forall k :: 0 <= k < |r| ==> i <= r[k] < |rows|
    decreases |rows| - i
  {
    if i == |rows| then []
    else
      var later := VisibleFrom(rows, i + 1, HiddenAfter(rows[i], hidden, collapsed), collapsed);
      if Skips(rows[i], hidden) then later else [i] + later
  }

  /** Indices of the rows to draw. */
  method VisibleRows(rows: seq<Row>, collapsed: set<string>) returns (visible: seq<nat>)
    ensures visible == VisibleFrom(rows, 0, None, collapsed)
  {
    visible := [];
    var hiddenBelow: Option<nat> := None;
    var index := 0;
    while index < |rows|
      invariant 0 <= index <= |rows|
      invariant visible + VisibleFrom(rows, index, hiddenBelow, collapsed) == VisibleFrom(rows, 0, None, collapsed)
    {
      var row := rows[index];
      ghost var after := HiddenAfter(row, hiddenBelow, collapsed);
      ConcatAssoc(visible, [index], VisibleFrom(rows, index + 1, after, collapsed));
      if hiddenBelow.Some? {
        if row.depth > hiddenBelow.value {
          index := index + 1;
          continue;
        }
        hiddenBelow := None;
      }
      visible := visible + [index];
      if row.hasChildren && row.key in collapsed {
        hiddenBelow := Some(row.depth);
      }
      assert hiddenBelow == after;
      index := index + 1;
    }
  }

  /** Row `j` is folded and everything after it up to `i` lies below it. */
  ghost predicate Covering(rows: seq<Row>, collapsed: set<string>, j: int, i: int) {
    0 <= j < i <= |rows| && Folds(rows[j], collapsed) && forall k :: j < k < i ==> rows[k].depth > rows[j].depth
  }

  ghost predicate ScanState(rows: seq<Row>, collapsed: set<string>, i: int, hidden: Option<nat>) {
    && (forall j :: Covering(rows, collapsed, j, i) ==> hidden.Some? && rows[j].depth >= hidden.value)
    && (hidden.Some? ==> exists j :: Covering(rows, collapsed, j, i) && rows[j].depth == hidden.value)
  }

  lemma HidesIsCovering(rows: seq<Row>, collapsed: set<string>, j: int, i: nat)
    requires i < |rows|
    ensures Hides(rows, collapsed, j, i) <==> Covering(rows, collapsed, j, i) && rows[i].depth > rows[j].depth
  {
  }

  lemma CoveringNext(rows: seq<Row>, collapsed: set<string>, j: nat, i: nat)
    requires j <= i < |rows|
    ensures Covering(rows, collapsed, j, i + 1) <==>
              if j < i then Covering(rows, collapsed, j, i) && rows[i].depth > rows[j].depth
                  else Folds(rows[i], collapsed)
  {
  }

  lemma SkippedMeansHidden(rows: seq<Row>, collapsed: set<string>, i: nat, hidden: Option<nat>)
    requires i < |rows| && ScanState(rows, collapsed, i, hidden)
    ensures Skips(rows[i], hidden) <==> IsHidden(rows, collapsed, i)
  {
    if Skips(rows[i], hidden) {
      var j :| Covering(rows, collapsed, j, i) && rows[j].depth == hidden.value;
      HidesIsCovering(rows, collapsed, j, i);
    } else {
      forall j ensures !Hides(rows, collapsed, j, i) {
        HidesIsCovering(rows, collapsed, j, i);
      }
    }
  }

  lemma ScanStep(rows: seq<Row>, collapsed: set<string>, i: nat, hidden: Option<nat>)
    requires i < |rows| && ScanState(rows, collapsed, i, hidden)
    ensures ScanState(rows, collapsed, i + 1, HiddenAfter(rows[i], hidden, collapsed))
  {
    var after := HiddenAfter(rows[i], hidden, collapsed);
    forall j | Covering(rows, collapsed, j, i + 1) ensures after.Some? && rows[j].depth >= after.value {
      CoveringNext(rows, collapsed, j, i);
    }
    if Skips(rows[i], hidden) {
      var j :| Covering(rows, collapsed, j, i) && rows[j].depth == hidden.value;
      CoveringNext(rows, collapsed, j, i);
    } else {
      CoveringNext(rows, collapsed, i, i);
    }
  }

  lemma {:induction false} VisibleFromAscends(rows: seq<Row>, collapsed: set<string>, i: nat, hidden: Option<nat>)
    requires i <= |rows|
    ensures Increasing(VisibleFrom(rows, i, hidden, collapsed))
    decreases |rows| - i
  {
    if i < |rows| {
      var after := HiddenAfter(rows[i], hidden, collapsed);
      VisibleFromAscends(rows, collapsed, i + 1, after);
      assert Increasing([i] + VisibleFrom(rows, i + 1, after, collapsed));
    }
  }

  lemma {:induction false} VisibleFromIsExact(rows: seq<Row>, collapsed: set<string>, i: nat, hidden: Option<nat>)
    requires i <= |rows| && ScanState(rows, collapsed, i, hidden)
    ensures forall k :: k in VisibleFrom(rows, i, hidden, collapsed) <==>
        i <= k < |rows| && !IsHidden(rows, collapsed, k)
    decreases |rows| - i
  {
    if i < |rows| {
      SkippedMeansHidden(rows, collapsed, i, hidden);
      ScanStep(rows, collapsed, i, hidden);
      VisibleFromIsExact(rows, collapsed, i + 1, HiddenAfter(rows[i], hidden, collapsed));
    }
  }

  /** Of any list of rows the pass draws, in order, exactly those without a
      collapsed proper ancestor. */
  lemma VisibleRowsAreExact(rows: seq<Row>, collapsed: set<string>)
    ensures var r := VisibleFrom(rows, 0, None, collapsed);
            && Increasing(r)
            && (forall k :: k in r <==> 0 <= k < |rows| && !IsHidden(rows, collapsed, k))
  {
    VisibleFromAscends(rows, collapsed, 0, None);
    VisibleFromIsExact(rows, collapsed, 0, None);
  }

  lemma {:induction false} VisibleFromShows(rows: seq<Row>, collapsed: set<string>, i: nat, hidden: Option<nat>)
    requires i <= |rows|
    ensures Select(rows, VisibleFrom(rows, i, hidden, collapsed)) == Shown(rows[i..], hidden, collapsed)
    decreases |rows| - i
  {
    if i < |rows| {
      assert rows[i..][0] == rows[i] && rows[i..][1..] == rows[i + 1..];
      var next := HiddenAfter(rows[i], hidden, collapsed);
      VisibleFromShows(rows, collapsed, i + 1, next);
      var r := VisibleFrom(rows, i + 1, next, collapsed);
      assert Select(rows, [i] + r) == [rows[i]] + Select(rows, r);
    }
  }

  // ----- the linear forms agree with the tree -----

  /** The rest starts no deeper than `depth`, so it is not below a row of that depth. */
  predicate Stops(rest: seq<Row>, depth: nat) { rest == [] || rest[0].depth <= depth }

  lemma {:induction false} FlattenStops(nodes: seq<Node>, depth: nat, parentKey: string, rest: seq<Row>)
    requires Stops(rest, depth)
    ensures Stops(Flatten(nodes, depth, parentKey, rest), depth)
  {
  }

  lemma {:induction false} FlattenAppend(nodes: seq<Node>, depth: nat, parentKey: string, a: seq<Row>, b: seq<Row>)
    ensures Flatten(nodes, depth, parentKey, a) + b == Flatten(nodes, depth, parentKey, a + b)
  {
    if nodes != [] {
      var key := KeyOf(parentKey, nodes[0]);
      FlattenAppend(nodes[1..], depth, parentKey, a, b);
      FlattenAppend(nodes[0].children, depth + 1, key, Flatten(nodes[1..], depth, parentKey, a), b);
    }
  }

  lemma {:induction false} FlattenEnds(nodes: seq<Node>, depth: nat, parentKey: string, rest: seq<Row>, i: nat)
    requires Size(nodes) <= i <= Size(nodes) + |rest|
    ensures |Flatten(nodes, depth, parentKey, rest)| == Size(nodes) + |rest|
    ensures Flatten(nodes, depth, parentKey, rest)[i..] == rest[i - Size(nodes)..]
  {
    if nodes != [] {
      var key := KeyOf(parentKey, nodes[0]);
      var beside := Flatten(nodes[1..], depth, parentKey, rest);
      FlattenEnds(nodes[1..], depth, parentKey, rest, i - 1 - Size(nodes[0].children));
      FlattenEnds(nodes[0].children, depth + 1, key, beside, i - 1);
    }
  }

  lemma {:induction false} DeeperOfFlatten(nodes: seq<Node>, depth: nat, parentKey: string, rest: seq<Row>, above: nat)
    requires above < depth
    ensures Deeper(Flatten(nodes, depth, parentKey, rest), above) ==
        Flatten(nodes, depth, parentKey, Deeper(rest, above))
  {
    if nodes != [] {
      var key := KeyOf(parentKey, nodes[0]);
      DeeperOfFlatten(nodes[1..], depth, parentKey, rest, above);
      DeeperOfFlatten(nodes[0].children, depth + 1, key, Flatten(nodes[1..], depth, parentKey, rest), above);
    }
  }

  /** Row `i` is made from node `i`, and the rows `descendants` returns for it are
      the flattening of that node's children. */
  lemma DescendantsAreTheChildren(nodes: seq<Node>, i: nat)
    requires i < Size(nodes)
    ensures |FlattenTree(nodes)| == Size(nodes)
    ensures var p := NodeAt(nodes, 0, "", i);
            && FlattenTree(nodes)[i] == RowOf(p)
            && Descendants(FlattenTree(nodes), i) == Flatten(p.node.children, p.depth + 1, p.key, [])
  {
    FlattenEnds(nodes, 0, "", [], Size(nodes));
    FlattenTail(nodes, 0, "", [], i);
    var p := NodeAt(nodes, 0, "", i);
    var rest := AfterNode(nodes, 0, "", [], i);
    var tail := FlattenTree(nodes)[i..];
    assert tail[0] == FlattenTree(nodes)[i] && tail[1..] == FlattenTree(nodes)[i + 1..];
    DeeperOfFlatten(p.node.children, p.depth + 1, p.key, rest, p.depth);
  }

  /** The row of a node, its children's rows, then rows that are no longer below it. */
  ghost predicate StartsAt(rows: seq<Row>, p: Placed, after: seq<Row>) {
    Stops(after, p.depth) && rows == [RowOf(p)] + Flatten(p.node.children, p.depth + 1, p.key, after)
  }

  /** The rows after those of node `i` and everything below it. */
  function AfterNode(nodes: seq<Node>, depth: nat, parentKey: string, rest: seq<Row>, i: nat): seq<Row>
    requires i < Size(nodes)
  {
    var key := KeyOf(parentKey, nodes[0]);
    var below := Size(nodes[0].children);
    var beside := Flatten(nodes[1..], depth, parentKey, rest);
    if i == 0 then beside
    else if i <= below then AfterNode(nodes[0].children, depth + 1, key, beside, i - 1)
    else AfterNode(nodes[1..], depth, parentKey, rest, i - 1 - below)
  }

  /** Past the first row comes the walk of the first node's children and what is beside it. */
  lemma {:induction false} FlattenFrom(nodes: seq<Node>, depth: nat, parentKey: string, rest: seq<Row>, i: nat)
    requires nodes != [] && 1 <= i
    ensures var key, all := KeyOf(parentKey, nodes[0]), Flatten(nodes, depth, parentKey, rest);
            var below := Flatten(nodes[0].children, depth + 1, key, Flatten(nodes[1..], depth, parentKey, rest));
            |all| == 1 + |below| && (i <= |all| ==> all[i..] == below[i - 1..])
  {
  }

  /** What `FlattenTail` says of node `i`. */
  ghost predicate TailAt(nodes: seq<Node>, depth: nat, parentKey: string, rest: seq<Row>, i: nat)
    requires i < Size(nodes)
  {
    && i <= |Flatten(nodes, depth, parentKey, rest)|
    && StartsAt(Flatten(nodes, depth, parentKey, rest)[i..], NodeAt(nodes, depth, parentKey, i),
                AfterNode(nodes, depth, parentKey, rest, i))
  }

  lemma {:induction false} TailAtFirst(nodes: seq<Node>, depth: nat, parentKey: string, rest: seq<Row>)
    requires nodes != [] && Stops(rest, depth)
    ensures TailAt(nodes, depth, parentKey, rest, 0)
  {
    FlattenStops(nodes[1..], depth, parentKey, rest);
    assert Flatten(nodes, depth, parentKey, rest)[0..] == Flatten(nodes, depth, parentKey, rest);
  }

  lemma {:induction false} TailAtBelow(nodes: seq<Node>, depth: nat, parentKey: string, rest: seq<Row>, i: nat)
    requires nodes != [] && 1 <= i <= Size(nodes[0].children)
    requires TailAt(nodes[0].children, depth + 1, KeyOf(parentKey, nodes[0]),
        Flatten(nodes[1..], depth, parentKey, rest), i - 1)
    ensures TailAt(nodes, depth, parentKey, rest, i)
  {
    FlattenFrom(nodes, depth, parentKey, rest, i);
  }

  lemma {:induction false} FlattenBeside(nodes: seq<Node>, depth: nat, parentKey: string, rest: seq<Row>, i: nat)
    requires nodes != [] && Size(nodes[0].children) < i
    requires i - 1 - Size(nodes[0].children) <= |Flatten(nodes[1..], depth, parentKey, rest)|
    ensures var all, beside := Flatten(nodes, depth, parentKey, rest), Flatten(nodes[1..], depth, parentKey, rest);
            i <= |all| && all[i..] == beside[i - 1 - Size(nodes[0].children)..]
  {
    var beside := Flatten(nodes[1..], depth, parentKey, rest);
    FlattenFrom(nodes, depth, parentKey, rest, i);
    FlattenEnds(nodes[0].children, depth + 1, KeyOf(parentKey, nodes[0]), beside, i - 1);
  }

  lemma {:induction false} TailAtBeside(nodes: seq<Node>, depth: nat, parentKey: string, rest: seq<Row>, i: nat)
    requires nodes != [] && Size(nodes[0].children) < i < Size(nodes)
    requires TailAt(nodes[1..], depth, parentKey, rest, i - 1 - Size(nodes[0].children))
    ensures TailAt(nodes, depth, parentKey, rest, i)
  {
    FlattenBeside(nodes, depth, parentKey, rest, i);
  }

  lemma {:induction false} FlattenTail(nodes: seq<Node>, depth: nat, parentKey: string, rest: seq<Row>, i: nat)
    requires i < Size(nodes) && Stops(rest, depth)
    ensures TailAt(nodes, depth, parentKey, rest, i)
  {
    var key, size := KeyOf(parentKey, nodes[0]), Size(nodes[0].children);
    if i == 0 {
      TailAtFirst(nodes, depth, parentKey, rest);
    } else if i <= size {
      FlattenStops(nodes[1..], depth, parentKey, rest);
      FlattenTail(nodes[0].children, depth + 1, key, Flatten(nodes[1..], depth, parentKey, rest), i - 1);
      TailAtBelow(nodes, depth, parentKey, rest, i);
    } else {
      FlattenTail(nodes[1..], depth, parentKey, rest, i - 1 - size);
      TailAtBeside(nodes, depth, parentKey, rest, i);
    }
  }

  // ----- the rows, said of the tree alone -----

  /** Where a node stands: its place among the roots, then among their children, and so on. */
  type Address = seq<nat>

  predicate IsAddress(nodes: seq<Node>, a: Address)
    decreases |a|
  {
    a != [] && a[0] < |nodes| && (|a| == 1 || IsAddress(nodes[a[0]].children, a[1..]))
  }

  function NodeOn(nodes: seq<Node>, a: Address): Node
    requires IsAddress(nodes, a)
    decreases |a|
  {
    if |a| == 1 then nodes[a[0]] else NodeOn(nodes[a[0]].children, a[1..])
  }

  /** The labels from the root to the node. */
  function LabelsOn(nodes: seq<Node>, a: Address): Path
    requires IsAddress(nodes, a)
    decreases |a|
  {
    [nodes[a[0]].segment] + if |a| == 1 then [] else LabelsOn(nodes[a[0]].children, a[1..])
  }

  /** Parents come before children, and brothers in order. */
  ghost predicate Precedes(a: Address, b: Address) { exists k: nat :: PartsAt(a, b, k) }

  predicate PartsAt(a: Address, b: Address, k: nat) {
    k <= |a| && k < |b| && a[..k] == b[..k] && (k == |a| || a[k] < b[k])
  }

  function AddressAt(nodes: seq<Node>, i: nat): (a: Address)
    requires i < Size(nodes)
    ensures a != []
  {
    var below := Size(nodes[0].children);
    if i == 0 then [0]
    else if i <= below then [0] + AddressAt(nodes[0].children, i - 1)
    else Bumped(AddressAt(nodes[1..], i - 1 - below))
  }

  /** The same place one brother further on. */
  function Bumped(a: Address): Address
    requires a != []
  {
    [a[0] + 1] + a[1..]
  }

  lemma NotBeforeItself(a: Address)
    ensures !Precedes(a, a)
  {
  }

  lemma SmallerComesFirst(a: Address, b: Address)
    requires a != [] && b != [] && a[0] < b[0]
    ensures Precedes(a, b)
  {
    assert PartsAt(a, b, 0);
  }

  lemma ParentComesFirst(a: Address)
    requires a != []
    ensures Precedes([0], [0] + a)
  {
    assert PartsAt([0], [0] + a, 1);
  }

  lemma ChildrenInOrder(a: Address, b: Address)
    requires Precedes(a, b)
    ensures Precedes([0] + a, [0] + b)
  {
    var k: nat :| PartsAt(a, b, k);
    assert ([0] + a)[..k + 1] == [0] + a[..k] && ([0] + b)[..k + 1] == [0] + b[..k];
    assert PartsAt([0] + a, [0] + b, k + 1);
  }

  lemma BumpedInOrder(a: Address, b: Address)
    requires a != [] && b != [] && Precedes(a, b)
    ensures Precedes(Bumped(a), Bumped(b))
  {
    var k: nat :| PartsAt(a, b, k);
    if k > 0 {
      assert a[..k][0] == b[..k][0];
      forall i | 1 <= i < k ensures a[i] == b[i] {
        assert a[..k][i] == b[..k][i];
      }
      assert Bumped(a)[..k] == Bumped(b)[..k];
    }
    assert PartsAt(Bumped(a), Bumped(b), k);
  }

  /** The key a path of labels has below another. */
  function KeyUnder(parentKey: string, labels: Path): string
    requires labels != []
  {
    if parentKey == "" then Join(labels, "/") else parentKey + "/" + Join(labels, "/")
  }

  lemma {:induction false} NextAddress(nodes: seq<Node>, a: Address)
    requires nodes != [] && IsAddress(nodes[1..], a)
    ensures var b := Bumped(a);
            && IsAddress(nodes, b) && NodeOn(nodes, b) == NodeOn(nodes[1..], a)
            && LabelsOn(nodes, b) == LabelsOn(nodes[1..], a)
  {
    assert Bumped(a)[1..] == a[1..];
  }

  lemma {:induction false} ChildAddress(nodes: seq<Node>, a: Address)
    requires nodes != [] && IsAddress(nodes[0].children, a)
    ensures var b := [0] + a;
            && IsAddress(nodes, b) && NodeOn(nodes, b) == NodeOn(nodes[0].children, a)
            && LabelsOn(nodes, b) == [nodes[0].segment] + LabelsOn(nodes[0].children, a)
  {
    assert ([0] + a)[1..] == a;
  }

  lemma {:induction false} AddressStands(nodes: seq<Node>, depth: nat, parentKey: string, i: nat)
    requires i < Size(nodes)
    ensures var (a, p) := (AddressAt(nodes, i), NodeAt(nodes, depth, parentKey, i));
            IsAddress(nodes, a) && p.node == NodeOn(nodes, a) && p.depth == depth + |a| - 1
  {
    var below := Size(nodes[0].children);
    if 0 < i <= below {
      AddressStands(nodes[0].children, depth + 1, KeyOf(parentKey, nodes[0]), i - 1);
      ChildAddress(nodes, AddressAt(nodes[0].children, i - 1));
    } else if i > 0 {
      AddressStands(nodes[1..], depth, parentKey, i - 1 - below);
      NextAddress(nodes, AddressAt(nodes[1..], i - 1 - below));
    }
  }

  /** No root without a label is above the node. */
  ghost predicate HasKey(nodes: seq<Node>, parentKey: string, a: Address)
    requires IsAddress(nodes, a)
  {
    parentKey != "" || |a| == 1 || nodes[a[0]].segment != ""
  }

  ghost predicate KeyHolds(nodes: seq<Node>, depth: nat, parentKey: string, i: nat)
    requires i < Size(nodes)
  {
    var a := AddressAt(nodes, i);
    && IsAddress(nodes, a)
    && (HasKey(nodes, parentKey, a) ==>
          NodeAt(nodes, depth, parentKey, i).key == KeyUnder(parentKey, LabelsOn(nodes, a)))
  }

  lemma KeyBelow(nodes: seq<Node>, depth: nat, parentKey: string, i: nat)
    requires nodes != [] && 0 < i <= Size(nodes[0].children)
    requires KeyHolds(nodes[0].children, depth + 1, KeyOf(parentKey, nodes[0]), i - 1)
    ensures KeyHolds(nodes, depth, parentKey, i)
  {
    var a := AddressAt(nodes[0].children, i - 1);
    ChildAddress(nodes, a);
    if parentKey != "" || nodes[0].segment != "" {
      KeyGoesOn(parentKey, nodes[0], LabelsOn(nodes[0].children, a));
    }
  }

  lemma KeyBeside(nodes: seq<Node>, depth: nat, parentKey: string, i: nat)
    requires nodes != [] && Size(nodes[0].children) < i < Size(nodes)
    requires KeyHolds(nodes[1..], depth, parentKey, i - 1 - Size(nodes[0].children))
    ensures KeyHolds(nodes, depth, parentKey, i)
  {
    NextAddress(nodes, AddressAt(nodes[1..], i - 1 - Size(nodes[0].children)));
  }

  lemma {:induction false} AddressKey(nodes: seq<Node>, depth: nat, parentKey: string, i: nat)
    requires i < Size(nodes)
    ensures KeyHolds(nodes, depth, parentKey, i)
  {
    var below := Size(nodes[0].children);
    if 0 < i <= below {
      AddressKey(nodes[0].children, depth + 1, KeyOf(parentKey, nodes[0]), i - 1);
      KeyBelow(nodes, depth, parentKey, i);
    } else if i > 0 {
      AddressKey(nodes[1..], depth, parentKey, i - 1 - below);
      KeyBeside(nodes, depth, parentKey, i);
    }
  }

  lemma KeyGoesOn(parentKey: string, node: Node, labels: Path)
    requires labels != [] && (parentKey != "" || node.segment != "")
    ensures KeyUnder(KeyOf(parentKey, node), labels) == KeyUnder(parentKey, [node.segment] + labels)
  {
    var all := [node.segment] + labels;
    assert all[1..] == labels;
    assert Join(all, "/") == node.segment + "/" + Join(labels, "/");
    if parentKey != "" {
      assert parentKey + "/" + node.segment + "/" + Join(labels, "/") == parentKey + "/" + Join(all, "/");
    }
  }

  /** Row `i` is that of the node at address `i`, under its labels from the root. Only
      below a root without a label, which has no name to list it under, is the key another. */
  lemma RowsTellTheTree(nodes: seq<Node>, i: nat)
    requires i < Size(nodes)
    ensures |FlattenTree(nodes)| == Size(nodes) && IsAddress(nodes, AddressAt(nodes, i))
    ensures var (row, a) := (FlattenTree(nodes)[i], AddressAt(nodes, i));
            var (node, labels) := (NodeOn(nodes, a), LabelsOn(nodes, a));
            && row.depth + 1 == |a| && row.segment == node.segment && row.fullName == node.fullName
            && row.specialUse == node.specialUse && (row.hasChildren <==> |node.children| > 0)
            && (|a| == 1 || labels[0] != "" ==> row.key == Join(labels, "/"))
  {
    DescendantsAreTheChildren(nodes, i);
    AddressStands(nodes, 0, "", i);
    AddressKey(nodes, 0, "", i);
  }

  lemma {:induction false} LaterBelow(nodes: seq<Node>, i: nat, j: nat)
    requires nodes != [] && i < j <= Size(nodes[0].children)
    requires i > 0 ==> Precedes(AddressAt(nodes[0].children, i - 1), AddressAt(nodes[0].children, j - 1))
    ensures Precedes(AddressAt(nodes, i), AddressAt(nodes, j))
  {
    if i == 0 {
      ParentComesFirst(AddressAt(nodes[0].children, j - 1));
    } else {
      ChildrenInOrder(AddressAt(nodes[0].children, i - 1), AddressAt(nodes[0].children, j - 1));
    }
  }

  lemma {:induction false} LaterBeside(nodes: seq<Node>, i: nat, j: nat)
    requires nodes != [] && i < j < Size(nodes) && Size(nodes[0].children) < j
    requires var below := Size(nodes[0].children);
             i > below ==> Precedes(AddressAt(nodes[1..], i - 1 - below), AddressAt(nodes[1..], j - 1 - below))
    ensures Precedes(AddressAt(nodes, i), AddressAt(nodes, j))
  {
    var below := Size(nodes[0].children);
    if i <= below {
      SmallerComesFirst(AddressAt(nodes, i), AddressAt(nodes, j));
    } else {
      BumpedInOrder(AddressAt(nodes[1..], i - 1 - below), AddressAt(nodes[1..], j - 1 - below));
    }
  }

  lemma {:induction false} LaterAddress(nodes: seq<Node>, i: nat, j: nat)
    requires i < j < Size(nodes)
    ensures Precedes(AddressAt(nodes, i), AddressAt(nodes, j))
  {
    var below := Size(nodes[0].children);
    if j <= below {
      if i > 0 {
        LaterAddress(nodes[0].children, i - 1, j - 1);
      }
      LaterBelow(nodes, i, j);
    } else {
      if i > below {
        LaterAddress(nodes[1..], i - 1 - below, j - 1 - below);
      }
      LaterBeside(nodes, i, j);
    }
  }

  lemma {:induction false} AddressIsReached(nodes: seq<Node>, a: Address) returns (i: nat)
    requires IsAddress(nodes, a)
    ensures i < Size(nodes) && AddressAt(nodes, i) == a
    decreases nodes
  {
    if a[0] > 0 {
      var b := [a[0] - 1] + a[1..];
      assert b[1..] == a[1..] && Bumped(b) == a;
      var k := AddressIsReached(nodes[1..], b);
      i := 1 + Size(nodes[0].children) + k;
    } else if |a| == 1 {
      i := 0;
    } else {
      var k := AddressIsReached(nodes[0].children, a[1..]);
      i := k + 1;
    }
  }

  ghost predicate HasRow(nodes: seq<Node>, a: Address) {
    exists i :: 0 <= i < Size(nodes) && AddressAt(nodes, i) == a
  }

  /** The rows are the nodes of the tree, each once, parents before children and
      brothers in order. */
  lemma RowsAreTheNodes(nodes: seq<Node>)
    ensures forall i, j :: 0 <= i < j < Size(nodes) ==> Precedes(AddressAt(nodes, i), AddressAt(nodes, j))
    ensures forall a :: IsAddress(nodes, a) <==> HasRow(nodes, a)
  {
    forall i, j | 0 <= i < j < Size(nodes) ensures Precedes(AddressAt(nodes, i), AddressAt(nodes, j)) {
      LaterAddress(nodes, i, j);
    }
    forall a ensures IsAddress(nodes, a) <==> HasRow(nodes, a) {
      if IsAddress(nodes, a) {
        var i := AddressIsReached(nodes, a);
      }
      if HasRow(nodes, a) {
        var i :| 0 <= i < Size(nodes) && AddressAt(nodes, i) == a;
        AddressStands(nodes, 0, "", i);
      }
    }
  }

  // ----- when keys tell rows apart -----

  predicate IsPlain(text: string) { text != "" && '/' !in text }

  ghost predicate PlainLabels(nodes: seq<Node>) {
    forall i :: 0 <= i < |nodes| ==> IsPlain(nodes[i].segment) && PlainLabels(nodes[i].children)
  }

  lemma {:induction false} PlainOn(nodes: seq<Node>, a: Address)
    requires PlainLabels(nodes) && IsAddress(nodes, a)
    ensures IsPlainPath(LabelsOn(nodes, a))
    decreases |a|
  {
    if |a| > 1 {
      PlainOn(nodes[a[0]].children, a[1..]);
    }
  }

  lemma PlainIsClear(text: string)
    requires '/' !in text
    ensures Clear(text, "/") && Free(text, "/")
  {
    ClearOfOne(text, "/");
    forall k | 0 <= k < |text| ensures !HoldsAt(text, "/", k) {
      assert text[k..k + 1] == [text[k]];
    }
  }

  lemma PlainJoins(labels: Path)
    requires IsPlainPath(labels)
    ensures SplitAt(Join(labels, "/"), "/", 0) == labels
  {
    forall i | 0 <= i < |labels| ensures Clear(labels[i], "/") && Free(labels[i], "/") {
      PlainIsClear(labels[i]);
    }
    SplitUndoesJoin(labels, "/");
  }

  lemma LabelsFirst(nodes: seq<Node>, a: Address)
    requires IsAddress(nodes, a)
    ensures |LabelsOn(nodes, a)| == |a| && LabelsOn(nodes, a)[0] == nodes[a[0]].segment
    ensures |a| > 1 ==> LabelsOn(nodes, a)[1..] == LabelsOn(nodes[a[0]].children, a[1..])
  {
    LabelsAreAsMany(nodes, a);
  }

  lemma {:induction false} LabelsGiveAddress(nodes: seq<Node>, a: Address, b: Address)
    requires UniqueLabels(nodes) && IsAddress(nodes, a) && IsAddress(nodes, b)
    requires LabelsOn(nodes, a) == LabelsOn(nodes, b)
    ensures a == b
    decreases |a|
  {
    LabelsFirst(nodes, a);
    LabelsFirst(nodes, b);
    assert a[0] == b[0];
    if |a| > 1 {
      LabelsGiveAddress(nodes[a[0]].children, a[1..], b[1..]);
    }
    assert a == [a[0]] + a[1..] && b == [b[0]] + b[1..];
  }

  lemma {:induction false} LabelsAreAsMany(nodes: seq<Node>, a: Address)
    requires IsAddress(nodes, a)
    ensures |LabelsOn(nodes, a)| == |a|
    decreases |a|
  {
    if |a| > 1 {
      LabelsAreAsMany(nodes[a[0]].children, a[1..]);
    }
  }

  /** With unique sibling labels, none empty or with a slash in it, no two rows share a key. */
  lemma KeysTellRowsApart(nodes: seq<Node>, i: nat, j: nat)
    requires UniqueLabels(nodes) && PlainLabels(nodes) && i < j < Size(nodes)
    ensures |FlattenTree(nodes)| == Size(nodes) && FlattenTree(nodes)[i].key != FlattenTree(nodes)[j].key
  {
    RowsTellTheTree(nodes, i);
    RowsTellTheTree(nodes, j);
    var a, b := AddressAt(nodes, i), AddressAt(nodes, j);
    PlainOn(nodes, a);
    PlainOn(nodes, b);
    PlainJoins(LabelsOn(nodes, a));
    PlainJoins(LabelsOn(nodes, b));
    LaterAddress(nodes, i, j);
    if FlattenTree(nodes)[i].key == FlattenTree(nodes)[j].key {
      LabelsGiveAddress(nodes, a, b);
      NotBeforeItself(a);
      assert false;
    }
  }

  /** A label's key is also that of a path of plain labels below one another exactly
      when the label holds a slash, and none at its ends or beside another. */
  lemma LabelClashesIff(text: string)
    ensures (exists path: Path :: IsPlainPath(path) && path != [text] && Join(path, "/") == text) <==>
              '/' in text && forall i :: 0 <= i < |SplitAt(text, "/", 0)| ==> SplitAt(text, "/", 0)[i] != ""
  {
    var pieces := SplitAt(text, "/", 0);
    JoinUndoesSplit(text, "/", 0);
    PiecesHoldNoDelimiter(text, "/", 0);
    forall p | p in pieces ensures '/' !in p {
      SlashIsHeld(p);
    }
    if path: Path :| IsPlainPath(path) && path != [text] && Join(path, "/") == text {
      PlainJoins(path);
      assert |path| > 1;
      assert Join(path, "/") == path[0] + "/" + Join(path[1..], "/");
      assert text[|path[0]|] == '/';
    }
    if '/' in text && forall i :: 0 <= i < |pieces| ==> pieces[i] != "" {
      forall i | 0 <= i < |pieces| ensures IsPlain(pieces[i]) {
        assert pieces[i] in pieces;
      }
      assert pieces != [text] by {
        assert pieces == [text] ==> text in pieces;
      }
      assert IsPlainPath(pieces);
    }
  }

  predicate IsPlainPath(path: Path) { path != [] && forall i :: 0 <= i < |path| ==> IsPlain(path[i]) }

  lemma SlashIsHeld(p: string)
    requires forall k :: !HoldsAt(p, "/", k)
    ensures '/' !in p
  {
    if '/' in p {
      var k :| 0 <= k < |p| && p[k] == '/';
      assert p[k..k + 1] == "/";
      assert HoldsAt(p, "/", k);
    }
  }

  /** On a server whose delimiter is not the slash, `A/B` and `B` below `A` share a key,
      so that folding one folds the other. */
  lemma SlashLabelsShareAKey()
    ensures var tree := [Node("A/B", None, None, []), Node("A", None, None, [Node("B", None, None, [])])];
            && UniqueLabels(tree) && |FlattenTree(tree)| == 3
            && FlattenTree(tree)[0].key == FlattenTree(tree)[2].key == "A/B"
  {
    var child := Node("B", None, None, []);
    var tree := [Node("A/B", None, None, []), Node("A", None, None, [child])];
    assert tree[0].segment != tree[1].segment by {
      assert |tree[0].segment| == 3;
    }
    assert tree[1..] == [tree[1]] && tree[1..][1..] == [] && [child][1..] == [];
    assert Flatten([child], 1, "A", []) == [RowOf(Placed(child, 1, "A/B"))] by {
      assert KeyOf("A", child) == "A/B";
    }
    assert Flatten(tree[1..], 0, "", []) == [RowOf(Placed(tree[1], 0, "A"))] + Flatten([child], 1, "A", []);
    assert Flatten([], 1, "A/B", Flatten(tree[1..], 0, "", [])) == Flatten(tree[1..], 0, "", []);
    assert KeyOf("", tree[0]) == "A/B";
    assert FlattenTree(tree) == [RowOf(Placed(tree[0], 0, "A/B"))] + Flatten(tree[1..], 0, "", []);
  }

  lemma {:induction false} ShownSkips(nodes: seq<Node>, depth: nat, parentKey: string, rest: seq<Row>, above: nat,
      collapsed: set<string>)
    requires above < depth
    ensures Shown(Flatten(nodes, depth, parentKey, rest), Some(above), collapsed) == Shown(rest, Some(above), collapsed)
  {
    if nodes != [] {
      var key := KeyOf(parentKey, nodes[0]);
      ShownSkips(nodes[1..], depth, parentKey, rest, above, collapsed);
      ShownSkips(nodes[0].children, depth + 1, key, Flatten(nodes[1..], depth, parentKey, rest), above, collapsed);
    }
  }

  /** The linear pass shows the flattening of the tree with the children of collapsed nodes cut off. */
  lemma {:induction false} ShownIsTheCutTree(nodes: seq<Node>, depth: nat, parentKey: string, rest: seq<Row>,
      collapsed: set<string>)
    requires Stops(rest, depth)
    ensures Shown(Flatten(nodes, depth, parentKey, rest), None, collapsed) ==
            FlattenCut(nodes, depth, parentKey, collapsed, Shown(rest, None, collapsed))
  {
    if nodes != [] {
      var key := KeyOf(parentKey, nodes[0]);
      var beside := Flatten(nodes[1..], depth, parentKey, rest);
      FlattenStops(nodes[1..], depth, parentKey, rest);
      ShownIsTheCutTree(nodes[1..], depth, parentKey, rest, collapsed);
      if key in collapsed {
        ShownSkips(nodes[0].children, depth + 1, key, beside, depth, collapsed);
      } else {
        ShownIsTheCutTree(nodes[0].children, depth + 1, key, beside, collapsed);
      }
    }
  }

  lemma VisibleRowsOfTree(nodes: seq<Node>, collapsed: set<string>)
    ensures Select(FlattenTree(nodes), VisibleFrom(FlattenTree(nodes), 0, None, collapsed)) ==
        FlattenCut(nodes, 0, "", collapsed, [])
  {
    VisibleFromShows(FlattenTree(nodes), collapsed, 0, None);
    ShownIsTheCutTree(nodes, 0, "", [], collapsed);
  }

  /** Being an ancestor among the rows is being above in the tree: the rows that
      have row `j` as ancestor are exactly those of node `j`'s children. */
  lemma {:induction false} AncestorsAreParents(rows: seq<Row>, j: nat, i: nat)
    requires j < |rows|
    ensures IsAncestor(rows, j, i) <==> j < i <= j + |Descendants(rows, j)|
  {
    DeeperIsMaximal(rows[j + 1..], rows[j].depth);
    var block := Descendants(rows, j);
    if j < i <= j + |block| {
      forall k | j < k <= i ensures rows[k].depth > rows[j].depth {
        assert rows[k] == rows[j + 1..][k - j - 1];
      }
    } else if j < i < |rows| {
      assert rows[j + 1 + |block|] == rows[j + 1..][|block|];
    }
  }

  lemma {:induction false} DeeperIsMaximal(rows: seq<Row>, depth: nat)
    ensures Deeper(rows, depth) <= rows
    ensures forall k :: 0 <= k < |Deeper(rows, depth)| ==> rows[k].depth > depth
    ensures |Deeper(rows, depth)| < |rows| ==> rows[|Deeper(rows, depth)|].depth <= depth
  {
    if rows != [] && rows[0].depth > depth {
      DeeperIsMaximal(rows[1..], depth);
    }
  }

  lemma PushedInOrder(before: seq<Row>, row: Row, below: seq<Row>, beside: seq<Row>)
    ensures before + [row] + below + beside == before + ([row] + (below + beside))
  {
  }

  /** Pushes the rows of a level and, under each, those of its children. */
  method FlattenInto(nodes: seq<Node>, depth: nat, parentKey: string, rows: seq<Row>) returns (out: seq<Row>)
    ensures out == rows + Flatten(nodes, depth, parentKey, [])
  {
    out := rows;
    for i := 0 to |nodes|
      invariant out + Flatten(nodes[i..], depth, parentKey, []) == rows + Flatten(nodes, depth, parentKey, [])
    {
      ghost var before, beside := out, Flatten(nodes[i..][1..], depth, parentKey, []);
      var key := if parentKey == "" then nodes[i].segment else parentKey + "/" + nodes[i].segment;
      var row := Row(depth, nodes[i].segment, nodes[i].fullName, nodes[i].specialUse, key, nodes[i].children != []);
      out := out + [row];
      out := FlattenInto(nodes[i].children, depth + 1, key, out);
      FlattenAppend(nodes[i].children, depth + 1, key, [], beside);
      assert [] + beside == beside && nodes[i..][1..] == nodes[i + 1..];
      PushedInOrder(before, row, Flatten(nodes[i].children, depth + 1, key, []), beside);
    }
  }
}
