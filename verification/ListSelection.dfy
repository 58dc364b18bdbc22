/** Rows picked in a list, the two rows that ranges and keys start from, and which
    messages all of them stand for while the list changes. */
module ListSelection {
  import opened Basics

  datatype Sel = Sel(selected: seq<nat>, anchor: Option<nat>, focus: Option<nat>)

  const NO_SELECTION := Sel([], None, None)

  /** Every row from `a` to `b`, whichever is smaller first. */
  function Span(a: nat, b: nat): seq<nat> {
    if a <= b then seq(b - a + 1, i requires i >= 0 => a + i) else seq(a - b + 1, i requires i >= 0 => b + i)
  }

  lemma SpanIs(a: nat, b: nat)
    ensures Increasing(Span(a, b)) && forall r :: r in Span(a, b) <==> a <= r <= b || b <= r <= a
  {
    forall r | a <= r <= b || b <= r <= a ensures r in Span(a, b) {
      assert Span(a, b)[if a <= b then r - a else r - b] == r;
    }
  }

  /** How many rows come before `row` in an ascending list. */
  function Position(rows: seq<nat>, row: nat): (p: nat)
    ensures p <= |rows|
    ensures forall i :: 0 <= i < p ==> rows[i] < row
    ensures p < |rows| ==> rows[p] >= row
  {
    if rows == [] || rows[0] >= row then 0 else 1 + Position(rows[1..], row)
  }

  predicate IsAt(rows: seq<nat>, p: nat, row: nat) { p < |rows| && rows[p] == row }

  function Toggle(rows: seq<nat>, row: nat): seq<nat> {
    var p := Position(rows, row);
    if IsAt(rows, p, row) then rows[..p] + rows[p + 1..] else rows[..p] + ([row] + rows[p..])
  }

  function Click(row: nat): Sel { Sel([row], Some(row), Some(row)) }

  function CtrlClick(s: Sel, row: nat): Sel { Sel(Toggle(s.selected, row), Some(row), Some(row)) }

  /** Where a range starts: the anchor, else the focus, else the row itself. */
  function Origin(s: Sel, row: nat): nat {
    if s.anchor.Some? then s.anchor.value else if s.focus.Some? then s.focus.value else row
  }

  function ShiftClick(s: Sel, row: nat): Sel { s.(selected := Span(Origin(s, row), row), focus := Some(row)) }

  function MoveFocus(s: Sel, row: nat, ctrl: bool, shift: bool): Sel {
    if ctrl then s.(focus := Some(row)) else if shift then ShiftClick(s, row) else Click(row)
  }

  function Inserted(at: nat, count: nat, row: nat): nat { if row >= at then row + count else row }

  function Removed(at: nat, count: nat, row: nat): Option<nat> {
    if row >= at + count then Some(row - count) else if row < at then Some(row) else None
  }

  function InsertAll(rows: seq<nat>, at: nat, count: nat): (r: seq<nat>)
    ensures |r| == |rows| && forall i :: 0 <= i < |rows| ==> r[i] == Inserted(at, count, rows[i])
  {
    seq(|rows|, i requires 0 <= i < |rows| => Inserted(at, count, rows[i]))
  }

  function RemoveAll(rows: seq<nat>, at: nat, count: nat): seq<nat> {
    if rows == [] then []
    else
      var r := Removed(at, count, rows[|rows| - 1]);
      RemoveAll(rows[..|rows| - 1], at, count) + if r.Some? then [r.value] else []
  }

  function Insert(s: Sel, at: nat, count: nat): Sel {
    Sel(InsertAll(s.selected, at, count),
        if s.anchor.Some? then Some(Inserted(at, count, s.anchor.value)) else None,
        if s.focus.Some? then Some(Inserted(at, count, s.focus.value)) else None)
  }

  function Remove(s: Sel, at: nat, count: nat): Sel {
    Sel(RemoveAll(s.selected, at, count),
        if s.anchor.Some? then Removed(at, count, s.anchor.value) else None,
        if s.focus.Some? then Removed(at, count, s.focus.value) else None)
  }

  function Upto(len: nat): (rows: seq<nat>)
    ensures |rows| == len && forall r :: 0 <= r < len ==> rows[r] == r
  {
    seq(len, i requires i >= 0 => i)
  }

  function SelectAll(len: nat): Sel { Sel(Upto(len), Some(0), Some(0)) }

  function Place(row: nat, rows: seq<nat>): seq<nat> {
    if rows == [] || rows[0] >= row then [row] + rows else [rows[0]] + Place(row, rows[1..])
  }

  /** `sort_unstable` on plain numbers: equal ones are interchangeable. */
  function Sorted(rows: seq<nat>): seq<nat> { if rows == [] then [] else Place(rows[0], Sorted(rows[1..])) }

  /** `dedup`: drops an element equal to the one kept before it. */
  function Dedup(rows: seq<nat>): seq<nat> {
    if |rows| < 2 then rows
    else
      var before := Dedup(rows[..|rows| - 1]);
      if before != [] && before[|before| - 1] == rows[|rows| - 1] then before else before + [rows[|rows| - 1]]
  }

  function First(rows: seq<nat>): Option<nat> { if rows == [] then None else Some(rows[0]) }

  function Replace(rows: seq<nat>, len: nat): Sel {
    var next := Dedup(Sorted(Filter(rows, r => r < len)));
    Sel(next, First(next), First(next))
  }

  datatype Key = Home | End | Up | Down | PageUp | PageDown | OtherKey

  function NavTarget(key: Key, focus: Option<nat>, len: nat, page: nat): Option<nat> {
    if len == 0 || key.OtherKey? then None
    else
      var last := len - 1;
      var target :=
        match key
        case Home => 0
        case End => last
        case Up => if focus.Some? then Back(focus.value, 1) else last
        case Down => if focus.Some? then focus.value + 1 else 0
        case PageUp => if focus.Some? then Back(focus.value, page) else last
        case PageDown => if focus.Some? then focus.value + page else 0
        case OtherKey => 0;
      Some(if target < last then target else last)
  }

  function Back(row: nat, step: nat): nat { if row >= step then row - step else 0 }

  function Navigate(s: Sel, key: Key, ctrl: bool, shift: bool, len: nat, page: nat): Sel {
    var target := NavTarget(key, s.focus, len, page);
    if target.Some? then MoveFocus(s, target.value, ctrl, shift) else s
  }

  /** A range was extended: to the row, from the anchor or else the focus, and the
      anchor stays for the next one. */
  ghost predicate Extends(s: Sel, row: nat, u: Sel) {
    && u.anchor == s.anchor && u.focus == Some(row) && Increasing(u.selected)
    && var from := if s.anchor.Some? then s.anchor.value else if s.focus.Some? then s.focus.value else row;
       forall r :: r in u.selected <==> from <= r <= row || row <= r <= from
  }

  lemma ExtendsTo(s: Sel, row: nat)
    ensures Extends(s, row, ShiftClick(s, row))
  {
    SpanIs(Origin(s, row), row);
  }

  /** Where a key leads: the arrows by a row, the paging keys by a page, both no further
      than the ends; with nothing focused, down to the first row and up to the last. */
  predicate MovesBy(key: Key, focus: Option<nat>, len: nat, page: nat, to: nat) {
    match key
    case Home => to == 0
    case End => to + 1 == len
    case Up => if focus.None? then to + 1 == len else StepsBack(focus.value, 1, len, to)
    case PageUp => if focus.None? then to + 1 == len else StepsBack(focus.value, page, len, to)
    case Down => if focus.None? then to == 0 else StepsOn(focus.value, 1, len, to)
    case PageDown => if focus.None? then to == 0 else StepsOn(focus.value, page, len, to)
    case OtherKey => false
  }

  predicate StepsBack(row: nat, page: nat, len: nat, to: nat) {
    if row < page then to == 0 else if row - page < len then to == row - page else to + 1 == len
  }

  predicate StepsOn(row: nat, page: nat, len: nat, to: nat) {
    if row + page < len then to == row + page else to + 1 == len
  }

  // ----- the imperative form -----

  class Selection {
    var selected: seq<nat>
    var anchor: Option<nat>
    var focus: Option<nat>

    function View(): Sel
      reads this
    {
      Sel(selected, anchor, focus)
    }

    constructor ()
      ensures View() == NO_SELECTION
    {
      selected, anchor, focus := [], None, None;
    }

    method SelectOnly(row: nat)
      modifies this
      ensures View() == Click(row)
    {
      selected, anchor, focus := [row], Some(row), Some(row);
    }

    /** Where `row` is or belongs, and whether it is there (`binary_search`). */
    method Search(row: nat) returns (found: bool, position: nat)
      requires Increasing(selected)
      ensures position == Position(selected, row) && found == IsAt(selected, position, row)
    {
      var lo, hi := 0, |selected|;
      while lo < hi
        invariant lo <= hi <= |selected|
        invariant forall i :: 0 <= i < lo ==> selected[i] < row
        invariant forall i :: hi <= i < |selected| ==> selected[i] >= row
      {
        var mid := lo + (hi - lo) / 2;
        if selected[mid] < row {
          lo := mid + 1;
        } else {
          hi := mid;
        }
      }
      position := lo;
      found := position < |selected| && selected[position] == row;
    }

    method ToggleRow(row: nat)
      requires Increasing(selected)
      modifies this
      ensures View() == CtrlClick(old(View()), row)
      ensures Increasing(selected) && anchor == Some(row) && focus == Some(row)
      ensures forall r :: r in selected <==> if r == row then row !in old(selected) else r in old(selected)
    {
      forall r ensures r in Toggle(selected, row) <==> if r == row then row !in selected else r in selected {
        ToggleFlipsOne(selected, row, r);
      }
      ToggleAscends(selected, row);
      var found, p := Search(row);
      selected := if found then selected[..p] + selected[p + 1..] else selected[..p] + ([row] + selected[p..]);
      anchor, focus := Some(row), Some(row);
    }

    method Extend(row: nat)
      modifies `selected, `focus
      ensures View() == ShiftClick(old(View()), row)
      ensures Extends(old(View()), row, View())
    {
      ExtendsTo(View(), row);
      selected := Span(if anchor.Some? then anchor.value else if focus.Some? then focus.value else row, row);
      focus := Some(row);
    }

    method MoveTo(row: nat, ctrl: bool, shift: bool)
      modifies this
      ensures View() == MoveFocus(old(View()), row, ctrl, shift)
      ensures ctrl ==> View() == old(View()).(focus := Some(row))
      ensures !ctrl && shift ==> Extends(old(View()), row, View())
      ensures !ctrl && !shift ==> View() == Sel([row], Some(row), Some(row))
    {
      if ctrl {
        focus := Some(row);
      } else if shift {
        Extend(row);
      } else {
        SelectOnly(row);
      }
    }

    method RowsInserted(at: nat, count: nat)
      modifies this
      ensures View() == Insert(old(View()), at, count)
    {
      for i := 0 to |selected|
        invariant |selected| == |old(selected)| && anchor == old(anchor) && focus == old(focus)
        invariant forall j :: 0 <= j < |selected| ==>
                    selected[j] == if j < i then Inserted(at, count, old(selected)[j]) else old(selected)[j]
      {
        selected := selected[i := Inserted(at, count, selected[i])];
      }
      anchor := if anchor.Some? then Some(Inserted(at, count, anchor.value)) else None;
      focus := if focus.Some? then Some(Inserted(at, count, focus.value)) else None;
    }

    method RowsRemoved(at: nat, count: nat)
      modifies this
      ensures View() == Remove(old(View()), at, count)
    {
      var kept: seq<nat> := [];
      for i := 0 to |selected|
        invariant kept == RemoveAll(selected[..i], at, count)
      {
        assert selected[..i + 1][..i] == selected[..i];
        var r := Removed(at, count, selected[i]);
        if r.Some? {
          kept := kept + [r.value];
        }
      }
      assert selected[..|selected|] == selected;
      selected := kept;
      anchor := if anchor.Some? then Removed(at, count, anchor.value) else None;
      focus := if focus.Some? then Removed(at, count, focus.value) else None;
    }

    method SelectEvery(len: nat)
      modifies this
      ensures View() == SelectAll(len)
      ensures Increasing(selected) && (forall r: nat :: r in selected <==> r < len) && anchor == focus == Some(0)
    {
      forall r: nat ensures r in Upto(len) <==> r < len {
        assert r < len ==> Upto(len)[r] == r;
      }
      selected := if len == 0 then [] else Upto(len);
      anchor, focus := Some(0), Some(0);
    }

    method ReplaceWith(rows: seq<nat>, len: nat)
      modifies this
      ensures View() == Replace(rows, len)
      ensures Increasing(selected) && (forall r :: r in selected <==> r in rows && r < len)
      ensures anchor == focus == if selected == [] then None else Some(selected[0])
    {
      ReplaceKeepsExistingRows(rows, len);
      var next := Filter(rows, r => r < len);
      next := Dedup(Sorted(next));
      selected := next;
      anchor := First(selected);
      focus := First(selected);
    }

    method Clear()
      modifies this
      ensures View() == NO_SELECTION
    {
      selected, anchor, focus := [], None, None;
    }

    method Has(row: nat) returns (found: bool)
      requires Increasing(selected)
      ensures found <==> row in selected
    {
      var p;
      found, p := Search(row);
      if !found {
        forall i | 0 <= i < |selected| ensures selected[i] != row {
          assert i >= p ==> selected[i] >= selected[p];
        }
      }
    }

    /** Where the focus moved and whether the selection may have changed. */
    method NavigateBy(key: Key, ctrl: bool, shift: bool, len: nat, page: nat) returns (moved: Option<(nat, bool)>)
      modifies this
      ensures View() == Navigate(old(View()), key, ctrl, shift, len, page)
      ensures moved.Some? <==> len > 0 && !key.OtherKey?
      ensures moved.Some? ==> focus == Some(moved.value.0) && moved.value.0 < len && moved.value.1 == !ctrl
      ensures moved.Some? ==> MovesBy(key, old(focus), len, page, moved.value.0)
    {
      var target := NavTarget(key, focus, len, page);
      if target.None? {
        return None;
      }
      MoveTo(target.value, ctrl, shift);
      moved := Some((target.value, !ctrl));
    }
  }

  // ----- what the operations keep -----

  ghost predicate InBounds(s: Sel, len: nat) {
    && Increasing(s.selected)
    && (forall i :: 0 <= i < |s.selected| ==> s.selected[i] < len)
    && (s.anchor.Some? ==> s.anchor.value < len)
    && (s.focus.Some? ==> s.focus.value < len)
  }

  lemma PlacedAscends(before: seq<nat>, row: nat, after: seq<nat>)
    requires Increasing(before + after)
    requires (forall i :: 0 <= i < |before| ==> before[i] < row) && (forall i :: 0 <= i < |after| ==> after[i] > row)
    ensures Increasing(before + ([row] + after))
  {
    var all, without := before + ([row] + after), before + after;
    forall i, j | 0 <= i < j < |all| ensures all[i] < all[j] {
      var from, to := if i < |before| then i else i - 1, if j < |before| then j else j - 1;
      if i != |before| && j != |before| {
        assert all[i] == without[from] && all[j] == without[to];
      }
    }
  }

  /** From the row's place on, a list without it holds larger rows only. */
  lemma LargerFollow(rows: seq<nat>, row: nat)
    requires Increasing(rows) && !IsAt(rows, Position(rows, row), row)
    ensures forall i :: 0 <= i < |rows[Position(rows, row)..]| ==> rows[Position(rows, row)..][i] > row
  {
    var p := Position(rows, row);
    forall i | 0 <= i < |rows[p..]| ensures rows[p..][i] > row {
      assert rows[p..][i] == rows[p + i] && rows[p] > row;
      assert i > 0 ==> rows[p] < rows[p + i];
    }
  }

  lemma ToggleAscends(rows: seq<nat>, row: nat)
    requires Increasing(rows)
    ensures Increasing(Toggle(rows, row))
  {
    var p := Position(rows, row);
    if !IsAt(rows, p, row) {
      assert rows == rows[..p] + rows[p..];
      LargerFollow(rows, row);
      PlacedAscends(rows[..p], row, rows[p..]);
    }
  }

  lemma RowsAround(rows: seq<nat>, p: nat, other: nat)
    requires p < |rows|
    ensures other in rows <==> other in rows[..p] || other == rows[p] || other in rows[p + 1..]
  {
    assert rows == rows[..p] + ([rows[p]] + rows[p + 1..]);
  }

  lemma ToggleRemoves(rows: seq<nat>, row: nat, other: nat)
    requires Increasing(rows) && IsAt(rows, Position(rows, row), row)
    ensures other in Toggle(rows, row) <==> other in rows && other != row
  {
    var p := Position(rows, row);
    RowsAround(rows, p, other);
    assert row !in rows[..p] && row !in rows[p + 1..];
  }

  lemma ToggleAdds(rows: seq<nat>, row: nat, other: nat)
    requires Increasing(rows) && !IsAt(rows, Position(rows, row), row)
    ensures row !in rows && (other in Toggle(rows, row) <==> other in rows || other == row)
  {
    var p := Position(rows, row);
    assert rows == rows[..p] + rows[p..];
    LargerFollow(rows, row);
  }

  /** Ctrl+click flips one row and leaves every other as it was. */
  lemma ToggleFlipsOne(rows: seq<nat>, row: nat, other: nat)
    requires Increasing(rows)
    ensures Increasing(Toggle(rows, row))
    ensures other in Toggle(rows, row) <==> (if other == row then other !in rows else other in rows)
  {
    ToggleAscends(rows, row);
    var p := Position(rows, row);
    if IsAt(rows, p, row) {
      ToggleRemoves(rows, row, other);
      assert rows[p] in rows;
    } else {
      ToggleAdds(rows, row, other);
    }
  }

  /** The row that is now `r` was selected before the removal. */
  predicate WasAt(rows: seq<nat>, at: nat, count: nat, r: nat) { if r < at then r in rows else r + count in rows }

  lemma {:induction false} RemoveAllIs(rows: seq<nat>, at: nat, count: nat)
    requires Increasing(rows)
    ensures Increasing(RemoveAll(rows, at, count))
    ensures forall r: nat :: r in RemoveAll(rows, at, count) <==> WasAt(rows, at, count, r)
  {
    if rows != [] {
      var n := |rows| - 1;
      var before := rows[..n];
      RemoveAllIs(before, at, count);
      assert rows == before + [rows[n]];
      var kept := RemoveAll(before, at, count);
      var last := Removed(at, count, rows[n]);
      if last.Some? {
        forall i | 0 <= i < |kept| ensures kept[i] < last.value {
          assert kept[i] in kept;
          assert WasAt(before, at, count, kept[i]);
        }
        assert RemoveAll(rows, at, count) == kept + [last.value];
      } else {
        assert RemoveAll(rows, at, count) == kept;
      }
    }
  }

  ghost predicate NeverFalls(rows: seq<nat>) { forall i, j :: 0 <= i < j < |rows| ==> rows[i] <= rows[j] }

  lemma {:induction false} PlaceIs(row: nat, rows: seq<nat>)
    requires NeverFalls(rows)
    ensures NeverFalls(Place(row, rows))
    ensures forall r :: r in Place(row, rows) <==> r == row || r in rows
  {
    if rows != [] && rows[0] < row {
      PlaceIs(row, rows[1..]);
      var rest := Place(row, rows[1..]);
      assert rows == [rows[0]] + rows[1..];
      forall i | 0 <= i < |rest| ensures rows[0] <= rest[i] {
        assert rest[i] in rest;
      }
    }
  }

  lemma {:induction false} SortedIs(rows: seq<nat>)
    ensures NeverFalls(Sorted(rows))
    ensures forall r :: r in Sorted(rows) <==> r in rows
  {
    if rows != [] {
      SortedIs(rows[1..]);
      PlaceIs(rows[0], Sorted(rows[1..]));
      assert rows == [rows[0]] + rows[1..];
    }
  }

  lemma {:induction false} DedupHolds(rows: seq<nat>)
    ensures forall r :: r in Dedup(rows) <==> r in rows
    ensures rows != [] ==> Dedup(rows) != [] && Dedup(rows)[|Dedup(rows)| - 1] == rows[|rows| - 1]
  {
    if |rows| >= 2 {
      var n := |rows| - 1;
      DedupHolds(rows[..n]);
      assert rows == rows[..n] + [rows[n]];
    }
  }

  lemma {:induction false} DedupAscends(rows: seq<nat>)
    requires NeverFalls(rows)
    ensures Increasing(Dedup(rows))
  {
    if |rows| >= 2 {
      var n := |rows| - 1;
      var before := Dedup(rows[..n]);
      DedupAscends(rows[..n]);
      DedupHolds(rows[..n]);
      forall i | 0 <= i < |before| ensures before[i] <= before[|before| - 1] <= rows[n] {
        assert before[i] in before;
      }
    }
  }

  /** Replacing keeps exactly the requested rows that exist, each once, in order. */
  lemma ReplaceKeepsExistingRows(rows: seq<nat>, len: nat)
    ensures InBounds(Replace(rows, len), len)
    ensures forall r :: r in Replace(rows, len).selected <==> r in rows && r < len
  {
    var kept := Filter(rows, r => r < len);
    FilterMembers(rows, r => r < len);
    SortedIs(kept);
    DedupHolds(Sorted(kept));
    DedupAscends(Sorted(kept));
    var next := Replace(rows, len).selected;
    forall i | 0 <= i < |next| ensures next[i] < len {
      assert next[i] in next;
    }
  }

  /** From a click, any run of Shift+key moves selects exactly the rows between
      the clicked one and the focus. */
  lemma {:induction false} ShiftKeysSpanFromTheClick(row: nat, keys: seq<Key>, len: nat, page: nat)
    requires row < len
    ensures var s := ShiftRun(row, keys, len, page);
            && s.anchor == Some(row) && s.focus.Some? && s.focus.value < len
            && s.selected == Span(row, s.focus.value)
  {
    if keys == [] {
      assert Span(row, row) == [row];
    } else {
      ShiftKeysSpanFromTheClick(row, keys[..|keys| - 1], len, page);
    }
  }

  function ShiftRun(row: nat, keys: seq<Key>, len: nat, page: nat): Sel {
    if keys == [] then Click(row)
    else Navigate(ShiftRun(row, keys[..|keys| - 1], len, page), keys[|keys| - 1], false, true, len, page)
  }

  /** Up and Down move by one row, PageUp and PageDown by a page, towards the
      first and the last row, and undo one another unless an end stopped them. */
  lemma KeysUndoOneAnother(row: nat, len: nat, page: nat)
    requires row < len
    ensures NavTarget(Home, Some(row), len, page) == Some(0) && NavTarget(End, Some(row), len, page) == Some(len - 1)
    ensures var up := NavTarget(PageUp, Some(row), len, page).value;
            up <= row && (NavTarget(PageDown, Some(up), len, page) == Some(row) <==> page <= row || row == len - 1)
    ensures var down := NavTarget(PageDown, Some(row), len, page).value;
            && row <= down < len
            && (NavTarget(PageUp, Some(down), len, page) == Some(row) <==> row + page < len || row == 0)
    ensures NavTarget(Up, Some(row), len, page) == NavTarget(PageUp, Some(row), len, 1)
    ensures NavTarget(Down, Some(row), len, page) == NavTarget(PageDown, Some(row), len, 1)
  {
  }

  // ----- rows and the messages they hold -----

  function MessagesAt<T>(messages: seq<T>, rows: seq<nat>): (r: seq<T>)
    requires forall i :: 0 <= i < |rows| ==> rows[i] < |messages|
    ensures |r| == |rows| && forall i :: 0 <= i < |rows| ==> r[i] == messages[rows[i]]
  {
    seq(|rows|, i requires 0 <= i < |rows| => messages[rows[i]])
  }

  function InsertedList<T>(messages: seq<T>, at: nat, arrived: seq<T>): seq<T>
    requires at <= |messages|
  {
    messages[..at] + (arrived + messages[at..])
  }

  function RemovedList<T>(messages: seq<T>, at: nat, count: nat): seq<T>
    requires at + count <= |messages|
  {
    messages[..at] + messages[at + count..]
  }

  /** After an insert the same messages are selected, in the same order, and the
      anchor and focus are on the same messages. */
  lemma InsertKeepsMessages<T>(messages: seq<T>, s: Sel, at: nat, arrived: seq<T>)
    requires InBounds(s, |messages|) && at <= |messages|
    ensures var after, u := InsertedList(messages, at, arrived), Insert(s, at, |arrived|);
            && InBounds(u, |after|)
            && MessagesAt(after, u.selected) == MessagesAt(messages, s.selected)
            && (s.anchor.Some? <==> u.anchor.Some?)
            && (s.anchor.Some? ==> after[u.anchor.value] == messages[s.anchor.value])
            && (s.focus.Some? <==> u.focus.Some?) && (s.focus.Some? ==> after[u.focus.value] == messages[s.focus.value])
  {
  }

  predicate Survives(at: nat, count: nat, row: nat) { !(at <= row < at + count) }

  /** The selected rows that a removal leaves in the list. */
  function Survivors(rows: seq<nat>, at: nat, count: nat): (r: seq<nat>)
    ensures forall i :: 0 <= i < |r| ==> r[i] in rows && Survives(at, count, r[i])
  {
    FilterMembers(rows, (row: nat) => Survives(at, count, row));
    Filter(rows, (row: nat) => Survives(at, count, row))
  }

  /** A removal takes exactly the removed rows' messages out of the selection. */
  lemma {:induction false} RemoveKeepsSurvivors<T>(messages: seq<T>, rows: seq<nat>, at: nat, count: nat)
    requires forall i :: 0 <= i < |rows| ==> rows[i] < |messages|
    requires at + count <= |messages|
    ensures forall i :: 0 <= i < |RemoveAll(rows, at, count)| ==> RemoveAll(rows, at, count)[i] < |messages| - count
    ensures MessagesAt(RemovedList(messages, at, count), RemoveAll(rows, at, count))
         == MessagesAt(messages, Survivors(rows, at, count))
  {
    if rows != [] {
      var n := |rows| - 1;
      RemoveKeepsSurvivors(messages, rows[..n], at, count);
      SurvivorsAppend(rows[..n], rows[n], at, count);
      assert rows == rows[..n] + [rows[n]];
    }
  }

  lemma SurvivorsAppend(rows: seq<nat>, row: nat, at: nat, count: nat)
    ensures Survivors(rows + [row], at, count) ==
              Survivors(rows, at, count) + if Survives(at, count, row) then [row] else []
  {
    FilterAppend(rows, [row], (r: nat) => Survives(at, count, r));
  }

  lemma RemoveKeepsInBounds(s: Sel, len: nat, at: nat, count: nat)
    requires InBounds(s, len) && at + count <= len
    ensures InBounds(Remove(s, at, count), len - count)
  {
    RemoveAllIs(s.selected, at, count);
    var kept := RemoveAll(s.selected, at, count);
    forall i | 0 <= i < |kept| ensures kept[i] < len - count {
      assert WasAt(s.selected, at, count, kept[i]);
    }
  }

  // ----- runs of arrivals and removals -----

  datatype Edit<T> = Arrive(at: nat, arrived: seq<T>) | Leave(at: nat, count: nat)

  datatype Listed<T> = Listed(messages: seq<T>, sel: Sel)

  ghost predicate Distinct<T>(messages: seq<T>) {
    forall i, j :: 0 <= i < j < |messages| ==> messages[i] != messages[j]
  }

  ghost predicate Sound<T>(l: Listed<T>) { Distinct(l.messages) && InBounds(l.sel, |l.messages|) }

  /** Rows that exist, and messages that are not in the list and never were. */
  ghost predicate CanEdit<T>(l: Listed<T>, left: set<T>, e: Edit<T>) {
    match e
    case Arrive(at, arrived) =>
      at <= |l.messages| && Distinct(arrived) && forall m :: m in arrived ==> m !in l.messages && m !in left
    case Leave(at, count) => at + count <= |l.messages|
  }

  function Members<T(==)>(s: seq<T>): set<T> { set m | m in s }

  /** The list after an edit, and the messages that left by it. */
  function Edited<T(==)>(l: Listed<T>, e: Edit<T>): (Listed<T>, set<T>) {
    match e
    case Arrive(at, arrived) =>
      if at <= |l.messages| then (Listed(InsertedList(l.messages, at, arrived), Insert(l.sel, at, |arrived|)), {})
      else (l, {})
    case Leave(at, count) =>
      if at + count <= |l.messages| then
        (Listed(RemovedList(l.messages, at, count), Remove(l.sel, at, count)), Members(l.messages[at..at + count]))
      else (l, {})
  }

  /** The list after all edits, and every message that left. */
  function EditAll<T(==)>(l: Listed<T>, edits: seq<Edit<T>>): (Listed<T>, set<T>) {
    if edits == [] then (l, {})
    else
      var (before, left) := EditAll(l, edits[..|edits| - 1]);
      var (after, leaving) := Edited(before, edits[|edits| - 1]);
      (after, left + leaving)
  }

  ghost predicate CanEditAll<T>(l: Listed<T>, edits: seq<Edit<T>>) {
    forall i :: 0 <= i < |edits| ==> EditFits(l, edits, i)
  }

  ghost predicate EditFits<T>(l: Listed<T>, edits: seq<Edit<T>>, i: nat)
    requires i < |edits|
  {
    CanEdit(EditAll(l, edits[..i]).0, EditAll(l, edits[..i]).1, edits[i])
  }

  ghost predicate Stays<T(!new)>(left: set<T>, m: T) { m !in left }

  ghost function Remaining<T(!new)>(messages: seq<T>, left: set<T>): seq<T> {
    Filter(messages, (m: T) => Stays(left, m))
  }

  function At<T>(messages: seq<T>, row: Option<nat>): Option<T> {
    if row.Some? && row.value < |messages| then Some(messages[row.value]) else None
  }

  function StillThere<T(==)>(m: Option<T>, left: set<T>): Option<T> { if m.Some? && m.value !in left then m else None }

  /** With every message once in the list, the surviving rows are those of the
      messages that did not leave. */
  lemma {:induction false} SurvivorsRemain<T(!new)>(messages: seq<T>, rows: seq<nat>, at: nat, count: nat)
    requires Distinct(messages) && at + count <= |messages|
    requires forall i :: 0 <= i < |rows| ==> rows[i] < |messages|
    ensures MessagesAt(messages, Survivors(rows, at, count))
         == Remaining(MessagesAt(messages, rows), Members(messages[at..at + count]))
  {
    var leaving := Members(messages[at..at + count]);
    if rows != [] {
      var n := |rows| - 1;
      SurvivorsRemain(messages, rows[..n], at, count);
      SurvivorsAppend(rows[..n], rows[n], at, count);
      RowLeaves(messages, rows[n], at, count);
      assert rows == rows[..n] + [rows[n]];
      assert MessagesAt(messages, rows) == MessagesAt(messages, rows[..n]) + [messages[rows[n]]];
      FilterAppend(MessagesAt(messages, rows[..n]), [messages[rows[n]]], (m: T) => Stays(leaving, m));
    }
  }

  lemma RowLeaves<T(!new)>(messages: seq<T>, row: nat, at: nat, count: nat)
    requires Distinct(messages) && at + count <= |messages| && row < |messages|
    ensures messages[row] in messages[at..at + count] <==> !Survives(at, count, row)
  {
    if !Survives(at, count, row) {
      assert messages[at..at + count][row - at] == messages[row];
    }
  }

  /** Leaving one after the other is leaving at once. */
  lemma RemainingTwice<T(!new)>(messages: seq<T>, left: set<T>, leaving: set<T>)
    ensures Remaining(Remaining(messages, left), leaving) == Remaining(messages, left + leaving)
  {
    var first, second := (m: T) => Stays(left, m), (m: T) => Stays(leaving, m);
    var both := (m: T) => Stays(left + leaving, m);
    FilterMembers(messages, first);
    FilterSame(Remaining(messages, left), second, both);
    FilterBoth(messages, first, both);
  }

  /** What an edit does to a selection, an anchor or a focus, as messages. */
  ghost predicate Follows<T(!new)>(l: Listed<T>, u: Listed<T>, left: set<T>) {
    && Sound(l) && Sound(u)
    && MessagesAt(u.messages, u.sel.selected) == Remaining(MessagesAt(l.messages, l.sel.selected), left)
    && At(u.messages, u.sel.anchor) == StillThere(At(l.messages, l.sel.anchor), left)
    && At(u.messages, u.sel.focus) == StillThere(At(l.messages, l.sel.focus), left)
  }

  lemma ArrivalKeepsSound<T(!new)>(l: Listed<T>, left: set<T>, e: Edit<T>)
    requires Sound(l) && e.Arrive? && CanEdit(l, left, e)
    ensures Follows(l, Edited(l, e).0, {})
  {
    var u := Edited(l, e).0;
    InsertKeepsMessages(l.messages, l.sel, e.at, e.arrived);
    FilterKeepsAll(MessagesAt(l.messages, l.sel.selected), (m: T) => Stays({}, m));
    forall i, j | 0 <= i < j < |u.messages| ensures u.messages[i] != u.messages[j] {
      var before, after := l.messages[..e.at], l.messages[e.at..];
      assert l.messages == before + after;
      assert forall k :: 0 <= k < |e.arrived| ==> e.arrived[k] in e.arrived;
    }
  }

  lemma LeavingKeepsDistinct<T>(messages: seq<T>, at: nat, count: nat)
    requires Distinct(messages) && at + count <= |messages|
    ensures Distinct(RemovedList(messages, at, count))
  {
  }

  lemma RowFollows<T(!new)>(messages: seq<T>, row: Option<nat>, at: nat, count: nat)
    requires Distinct(messages) && at + count <= |messages| && (row.Some? ==> row.value < |messages|)
    ensures At(RemovedList(messages, at, count), if row.Some? then Removed(at, count, row.value) else None)
         == StillThere(At(messages, row), Members(messages[at..at + count]))
  {
    if row.Some? {
      RowLeaves(messages, row.value, at, count);
    }
  }

  lemma LeavingKeepsSelected<T(!new)>(l: Listed<T>, at: nat, count: nat)
    requires Sound(l) && at + count <= |l.messages|
    ensures var (left, rows) := (RemovedList(l.messages, at, count), RemoveAll(l.sel.selected, at, count));
            && (forall i :: 0 <= i < |rows| ==> rows[i] < |left|)
            && MessagesAt(left, rows)
               == Remaining(MessagesAt(l.messages, l.sel.selected), Members(l.messages[at..at + count]))
  {
    RemoveKeepsSurvivors(l.messages, l.sel.selected, at, count);
    SurvivorsRemain(l.messages, l.sel.selected, at, count);
  }

  lemma LeavingIsSound<T(!new)>(l: Listed<T>, at: nat, count: nat)
    requires Sound(l) && at + count <= |l.messages|
    ensures Sound(Listed(RemovedList(l.messages, at, count), Remove(l.sel, at, count)))
  {
    LeavingKeepsDistinct(l.messages, at, count);
    RemoveKeepsInBounds(l.sel, |l.messages|, at, count);
  }

  lemma LeavingKeepsRow<T(!new)>(l: Listed<T>, row: Option<nat>, at: nat, count: nat)
    requires Sound(l) && at + count <= |l.messages| && (row.Some? ==> row.value < |l.messages|)
    ensures At(RemovedList(l.messages, at, count), if row.Some? then Removed(at, count, row.value) else None)
         == StillThere(At(l.messages, row), Members(l.messages[at..at + count]))
  {
    RowFollows(l.messages, row, at, count);
  }

  lemma LeavingKeepsSound<T(!new)>(l: Listed<T>, e: Edit<T>)
    requires Sound(l) && e.Leave? && e.at + e.count <= |l.messages|
    ensures Follows(l, Edited(l, e).0, Edited(l, e).1)
  {
    var u, left := Edited(l, e).0, Edited(l, e).1;
    assert Sound(u) by {
      LeavingIsSound(l, e.at, e.count);
    }
    assert MessagesAt(u.messages, u.sel.selected) == Remaining(MessagesAt(l.messages, l.sel.selected), left) by {
      LeavingKeepsSelected(l, e.at, e.count);
    }
    assert At(u.messages, u.sel.anchor) == StillThere(At(l.messages, l.sel.anchor), left) by {
      LeavingKeepsRow(l, l.sel.anchor, e.at, e.count);
    }
    assert At(u.messages, u.sel.focus) == StillThere(At(l.messages, l.sel.focus), left) by {
      LeavingKeepsRow(l, l.sel.focus, e.at, e.count);
    }
  }

  lemma FollowsTwice<T(!new)>(l: Listed<T>, mid: Listed<T>, u: Listed<T>, left: set<T>, leaving: set<T>)
    requires Follows(l, mid, left) && Follows(mid, u, leaving)
    ensures Follows(l, u, left + leaving)
  {
    RemainingTwice(MessagesAt(l.messages, l.sel.selected), left, leaving);
  }

  /** Over every run of arrivals and removals the selected messages are, in order,
      exactly those first selected that did not leave; the anchor and the focus stay
      on their messages, or are dropped with them. */
  lemma {:induction false} SelectionFollowsMessages<T(!new)>(l: Listed<T>, edits: seq<Edit<T>>)
    requires Sound(l) && CanEditAll(l, edits)
    ensures Follows(l, EditAll(l, edits).0, EditAll(l, edits).1)
  {
    if edits == [] {
      FilterKeepsAll(MessagesAt(l.messages, l.sel.selected), (m: T) => Stays({}, m));
    } else {
      var n := |edits| - 1;
      var before := edits[..n];
      forall i | 0 <= i < n ensures EditFits(l, before, i) {
        assert before[..i] == edits[..i] && EditFits(l, edits, i);
      }
      SelectionFollowsMessages(l, before);
      assert EditFits(l, edits, n);
      var (mid, left) := EditAll(l, before);
      if edits[n].Arrive? {
        ArrivalKeepsSound(mid, left, edits[n]);
      } else {
        LeavingKeepsSound(mid, edits[n]);
      }
      FollowsTwice(l, mid, Edited(mid, edits[n]).0, left, Edited(mid, edits[n]).1);
    }
  }
}
