/** The message list's view: how many rows, how far it is scrolled, and what is
    selected, while rows come and go. */
module ListView {
  import opened Basics
  import L = ListSelection

  datatype State = State(len: nat, scroll: real, sel: L.Sel)

  const NEW_VIEW := State(0, 0.0, L.NO_SELECTION)

  /** `as usize`: truncates, and a negative number becomes zero. */
  function ToUsize(x: real): nat { if x < 0.0 then 0 else x.Floor }

  function Insert(v: State, at: nat, count: nat, rowHeight: real): State {
    State(v.len + count,
         if v.scroll > 0.0 && at as real * rowHeight <= v.scroll then v.scroll + count as real * rowHeight
             else v.scroll,
         L.Insert(v.sel, at, count))
  }

  /** The row at the top of the view. With no row height the quotient is not a
      number or infinite, and its only use multiplies it by that height. */
  function TopRow(scroll: real, rowHeight: real): nat {
    if rowHeight == 0.0 then 0 else ToUsize(scroll / rowHeight)
  }

  /** How many of the removed rows were scrolled off the top. */
  function Above(at: nat, count: nat, top: nat): nat {
    var end := if at + count < top then at + count else top;
    if end >= at then end - at else 0
  }

  function Remove(v: State, at: nat, count: nat, rowHeight: real): State {
    State(if v.len >= count then v.len - count else 0,
         Max(v.scroll - Above(at, count, TopRow(v.scroll, rowHeight)) as real * rowHeight, 0.0),
         L.Remove(v.sel, at, count))
  }

  /** A scroll offset from the host, which may be NaN or infinite. */
  datatype Offset = Finite(value: real) | NonFinite

  function MaxScroll(rowHeight: real, viewport: real, len: nat): real { Max(len as real * rowHeight - viewport, 0.0) }

  function ClampScroll(scroll: Offset, rowHeight: real, viewport: real, len: nat): real {
    if scroll.NonFinite? then 0.0 else Max(0.0, Min(scroll.value, MaxScroll(rowHeight, viewport, len)))
  }

  function Ceil(x: real): int { -((-x).Floor) }

  function ClampInt(x: int, lo: nat, hi: nat): nat { if x < lo then lo else if x > hi then hi else x }

  /** The rows from the first to before the second. */
  function VisibleRange(scroll: Offset, viewport: real, rowHeight: real, len: nat): (nat, nat) {
    if len == 0 || viewport <= 0.0 || rowHeight <= 0.0 then (0, 0)
    else
      var at := ClampScroll(scroll, rowHeight, viewport, len);
      var first := ToUsize(at / rowHeight);
      (first, ClampInt(Ceil((at + viewport) / rowHeight), first + 1, len))
  }

  function RowAt(y: real, rowHeight: real, len: nat): Option<nat> {
    if y < 0.0 || rowHeight <= 0.0 then None
    else
      var index := ToUsize(y / rowHeight);
      if index < len then Some(index) else None
  }

  function ScrollForRow(row: nat, rowHeight: real, viewport: real, scroll: real): real {
    var top := row as real * rowHeight;
    var bottom := top + rowHeight;
    if top < scroll then top else if bottom > scroll + viewport then bottom - viewport else scroll
  }

  class ViewState {
    var len: nat
    var scroll: real
    const selection: L.Selection

    function View(): State
      reads this, selection
    {
      State(len, scroll, selection.View())
    }

    constructor ()
      ensures View() == NEW_VIEW && fresh(selection)
    {
      len, scroll := 0, 0.0;
      selection := new L.Selection();
    }

    method SetRows(count: nat)
      modifies this, selection
      ensures View() == NEW_VIEW.(len := count)
    {
      len := count;
      scroll := 0.0;
      selection.Clear();
    }

    method Recount(count: nat)
      modifies `len
      ensures View() == old(View()).(len := count)
    {
      len := count;
    }

    method InsertRows(at: nat, count: nat, rowHeight: real)
      modifies this, selection
      ensures View() == Insert(old(View()), at, count, rowHeight)
    {
      len := len + count;
      selection.RowsInserted(at, count);
      if scroll > 0.0 && at as real * rowHeight <= scroll {
        scroll := scroll + count as real * rowHeight;
      }
    }

    method RemoveRows(at: nat, count: nat, rowHeight: real)
      modifies this, selection
      ensures View() == Remove(old(View()), at, count, rowHeight)
    {
      var top := TopRow(scroll, rowHeight);
      var above := Above(at, count, top);
      len := if len >= count then len - count else 0;
      selection.RowsRemoved(at, count);
      scroll := Max(scroll - above as real * rowHeight, 0.0);
    }
  }

  // ----- which row is where -----

  lemma DivideBounds(x: real, h: real, k: int)
    requires h > 0.0
    ensures k as real <= x / h <==> k as real * h <= x
    ensures k as real >= x / h <==> k as real * h >= x
  {
    var q := x / h;
    assert q * h == x;
    if k as real < q {
      Scale(k as real, q, h);
    } else if k as real > q {
      Scale(q, k as real, h);
    }
  }

  lemma Scale(a: real, b: real, h: real)
    requires a < b && h > 0.0
    ensures a * h < b * h
  {
    assert (b - a) * h > 0.0;
  }

  /** The row whose span `[k*h, (k+1)*h)` holds the offset. */
  lemma TopRowIs(scroll: real, h: real, k: nat)
    requires h > 0.0 && scroll >= 0.0
    ensures k == TopRow(scroll, h) <==> k as real * h <= scroll < (k + 1) as real * h
    ensures k <= TopRow(scroll, h) <==> k as real * h <= scroll
  {
    DivideBounds(scroll, h, 0);
    DivideBounds(scroll, h, k);
    DivideBounds(scroll, h, k + 1);
  }

  lemma Distribute(a: nat, b: nat, h: real)
    ensures (a + b) as real * h == a as real * h + b as real * h
  {
  }

  /** How far the top row's own top is scrolled out of view. */
  function TopOffset(scroll: real, h: real): real { scroll - TopRow(scroll, h) as real * h }

  lemma ShiftedTop(scroll: real, h: real, k: nat, shift: nat, moved: real)
    requires h > 0.0 && scroll >= 0.0 && k == TopRow(scroll, h)
    requires moved == scroll + shift as real * h
    ensures TopRow(moved, h) == k + shift && TopOffset(moved, h) == TopOffset(scroll, h)
  {
    TopRowIs(scroll, h, k);
    Distribute(k, shift, h);
    Distribute(k + 1, shift, h);
    assert shift as real * h >= 0.0;
    TopRowIs(moved, h, k + shift);
  }

  /** A scrolled view keeps its top message, at the same offset, when rows are
      inserted; one at the top stays there and shows the new rows. */
  lemma InsertKeepsTopMessage<T>(v: State, messages: seq<T>, at: nat, arrived: seq<T>, h: real)
    requires h > 0.0 && |messages| == v.len && at <= v.len && v.scroll >= 0.0 && TopRow(v.scroll, h) < v.len
    ensures var u, after := Insert(v, at, |arrived|, h), L.InsertedList(messages, at, arrived);
            && |after| == u.len
            && (v.scroll == 0.0 ==> u.scroll == 0.0)
            && (v.scroll > 0.0 ==>
                  && TopRow(u.scroll, h) < u.len
                  && after[TopRow(u.scroll, h)] == messages[TopRow(v.scroll, h)]
                  && TopOffset(u.scroll, h) == TopOffset(v.scroll, h))
  {
    if v.scroll > 0.0 {
      var top := TopRow(v.scroll, h);
      TopRowIs(v.scroll, h, at);
      if at <= top {
        ShiftedTop(v.scroll, h, top, |arrived|, v.scroll + |arrived| as real * h);
      }
    }
  }

  /** The top message keeps its offset when other rows are removed; when it is
      removed itself, the row after the gap takes its place at that offset. */
  lemma RemoveKeepsTopMessage<T>(v: State, messages: seq<T>, at: nat, count: nat, h: real)
    requires h > 0.0 && |messages| == v.len && at + count <= v.len && v.scroll >= 0.0 && TopRow(v.scroll, h) < v.len
    ensures var u, left, top := Remove(v, at, count, h), L.RemovedList(messages, at, count), TopRow(v.scroll, h);
            && |left| == u.len
            && TopOffset(u.scroll, h) == TopOffset(v.scroll, h)
            && (if L.Survives(at, count, top)
                then TopRow(u.scroll, h) < u.len && left[TopRow(u.scroll, h)] == messages[top]
                else TopRow(u.scroll, h) == at)
  {
    var above := Above(at, count, TopRow(v.scroll, h));
    ShiftedBack(v.scroll, h, above);
    assert Remove(v, at, count, h).scroll == v.scroll - above as real * h;
  }

  lemma ShiftedBack(scroll: real, h: real, above: nat)
    requires h > 0.0 && scroll >= 0.0 && above <= TopRow(scroll, h)
    ensures var to := scroll - above as real * h;
            to >= 0.0 && TopRow(to, h) == TopRow(scroll, h) - above && TopOffset(to, h) == TopOffset(scroll, h)
  {
    var to, top := scroll - above as real * h, TopRow(scroll, h);
    TopRowIs(scroll, h, above);
    TopRowIs(scroll, h, top);
    Distribute(top - above, above, h);
    Distribute(top - above + 1, above, h);
    TopRowIs(to, h, top - above);
  }

  // ----- the top message over runs -----

  predicate Fits<T>(messages: seq<T>, e: L.Edit<T>) {
    match e
    case Arrive(at, _) => at <= |messages|
    case Leave(at, count) => at + count <= |messages|
  }

  /** A view and the messages it lists, after an edit. */
  function Edited<T>(v: State, messages: seq<T>, e: L.Edit<T>, h: real): (State, seq<T>) {
    if !Fits(messages, e) then (v, messages)
    else
      match e
      case Arrive(at, arrived) => (Insert(v, at, |arrived|, h), L.InsertedList(messages, at, arrived))
      case Leave(at, count) => (Remove(v, at, count, h), L.RemovedList(messages, at, count))
  }

  function EditAll<T>(v: State, messages: seq<T>, edits: seq<L.Edit<T>>, h: real): (State, seq<T>) {
    if edits == [] then (v, messages)
    else
      var (u, before) := EditAll(v, messages, edits[..|edits| - 1], h);
      Edited(u, before, edits[|edits| - 1], h)
  }

  /** The view lists these messages and has one at its top. */
  ghost predicate Listing<T>(v: State, messages: seq<T>, h: real) {
    |messages| == v.len && v.scroll >= 0.0 && TopRow(v.scroll, h) < v.len
  }

  /** The message at the top of the view, and its offset there. */
  ghost predicate Shows<T>(v: State, messages: seq<T>, h: real, m: T, offset: real) {
    Listing(v, messages, h) && messages[TopRow(v.scroll, h)] == m && TopOffset(v.scroll, h) == offset
  }

  /** The edit neither removes the top message nor puts new ones in front of it in a
      view that is not scrolled. */
  predicate TopStays<T>(v: State, e: L.Edit<T>, h: real) {
    match e
    case Arrive(at, arrived) => v.scroll != 0.0 || at > 0 || arrived == []
    case Leave(at, count) => L.Survives(at, count, TopRow(v.scroll, h))
  }

  lemma EditKeepsTop<T>(v: State, messages: seq<T>, e: L.Edit<T>, h: real)
    requires h > 0.0 && Listing(v, messages, h) && Fits(messages, e) && TopStays(v, e, h)
    ensures var (u, after) := Edited(v, messages, e, h);
            Shows(u, after, h, messages[TopRow(v.scroll, h)], TopOffset(v.scroll, h))
  {
    match e
    case Arrive(at, arrived) =>
      InsertKeepsTopMessage(v, messages, at, arrived, h);
      TopRowIs(0.0, h, 0);
    case Leave(at, count) => RemoveKeepsTopMessage(v, messages, at, count, h);
  }

  /** With every message once in the list, the top message keeps its offset exactly then. */
  lemma EditKeepsTopIff<T>(v: State, messages: seq<T>, e: L.Edit<T>, h: real)
    requires h > 0.0 && Listing(v, messages, h) && L.Distinct(messages) && Fits(messages, e)
    requires e.Arrive? ==> forall m :: m in e.arrived ==> m !in messages
    ensures var (u, after) := Edited(v, messages, e, h);
            Shows(u, after, h, messages[TopRow(v.scroll, h)], TopOffset(v.scroll, h)) <==> TopStays(v, e, h)
  {
    var (u, after) := Edited(v, messages, e, h);
    if TopStays(v, e, h) {
      EditKeepsTop(v, messages, e, h);
    } else if e.Arrive? {
      TopRowIs(0.0, h, 0);
      assert after[0] == e.arrived[0] && e.arrived[0] in e.arrived;
      assert messages[TopRow(v.scroll, h)] in messages;
    } else {
      RemoveKeepsTopMessage(v, messages, e.at, e.count, h);
      if e.at < |after| {
        assert after[e.at] == messages[e.at + e.count];
      }
    }
  }

  ghost predicate TopStaysAt<T>(v: State, messages: seq<T>, edits: seq<L.Edit<T>>, h: real, i: nat)
    requires i < |edits|
  {
    var (u, before) := EditAll(v, messages, edits[..i], h);
    Fits(before, edits[i]) && TopStays(u, edits[i], h)
  }

  /** Over every run of arrivals and removals that spares the top message and finds
      the view scrolled whenever it puts messages on top, that message keeps its offset. */
  lemma {:induction false} TopMessageStays<T>(v: State, messages: seq<T>, edits: seq<L.Edit<T>>, h: real)
    requires h > 0.0 && Listing(v, messages, h)
    requires forall i :: 0 <= i < |edits| ==> TopStaysAt(v, messages, edits, h, i)
    ensures var (u, after) := EditAll(v, messages, edits, h);
            Shows(u, after, h, messages[TopRow(v.scroll, h)], TopOffset(v.scroll, h))
  {
    if edits != [] {
      var n := |edits| - 1;
      var before := edits[..n];
      forall i | 0 <= i < n ensures TopStaysAt(v, messages, before, h, i) {
        assert before[..i] == edits[..i] && TopStaysAt(v, messages, edits, h, i);
      }
      TopMessageStays(v, messages, before, h);
      assert TopStaysAt(v, messages, edits, h, n);
      var (u, list) := EditAll(v, messages, before, h);
      EditKeepsTop(u, list, edits[n], h);
    }
  }

  lemma {:induction false} InsertThenRemoveRows(rows: seq<nat>, at: nat, count: nat)
    ensures L.RemoveAll(L.InsertAll(rows, at, count), at, count) == rows
  {
    if rows != [] {
      var n := |rows| - 1;
      InsertThenRemoveRows(rows[..n], at, count);
      assert L.InsertAll(rows, at, count)[..n] == L.InsertAll(rows[..n], at, count);
    }
  }

  lemma InsertThenRemoveSel(s: L.Sel, at: nat, count: nat)
    ensures L.Remove(L.Insert(s, at, count), at, count) == s
  {
    InsertThenRemoveRows(s.selected, at, count);
  }

  lemma InsertThenRemoveScroll(v: State, at: nat, count: nat, h: real)
    requires h > 0.0
    ensures Remove(Insert(v, at, count, h), at, count, h).scroll == Max(v.scroll, 0.0)
  {
    var u := Insert(v, at, count, h);
    var top := TopRow(u.scroll, h);
    if v.scroll > 0.0 {
      TopRowIs(v.scroll, h, at);
      if at as real * h <= v.scroll {
        ShiftedTop(v.scroll, h, TopRow(v.scroll, h), count, u.scroll);
        assert Above(at, count, top) == count;
      } else {
        assert Above(at, count, top) == 0;
      }
    } else {
      DivideBounds(v.scroll, h, 0);
      assert top == 0 && Above(at, count, top) == 0;
    }
  }

  /** Inserting rows and removing the same ones gives the view back exactly when
      it was not scrolled above the top. */
  lemma InsertThenRemoveIsIdentity(v: State, at: nat, count: nat, h: real)
    requires h > 0.0
    ensures Remove(Insert(v, at, count, h), at, count, h) == v <==> v.scroll >= 0.0
  {
    InsertThenRemoveSel(v.sel, at, count);
    InsertThenRemoveScroll(v, at, count, h);
  }

  // ----- what is visible -----

  /** Row `i` overlaps the window. */
  predicate Overlaps(i: nat, h: real, at: real, viewport: real) {
    i as real * h < at + viewport && (i + 1) as real * h > at
  }

  lemma ClampedOffset(scroll: Offset, viewport: real, h: real, len: nat)
    requires len > 0 && viewport > 0.0 && h > 0.0
    ensures var at := ClampScroll(scroll, h, viewport, len);
            0.0 <= at <= MaxScroll(h, viewport, len) && at < len as real * h
  {
    assert len as real * h > 0.0;
  }

  /** The largest offset puts the end of the list at the window's end, or is none when
      everything fits; an offset is kept inside, and one that is no number becomes zero. */
  lemma ClampIs(scroll: Offset, viewport: real, h: real, len: nat)
    ensures var most := MaxScroll(h, viewport, len);
            if len as real * h >= viewport then most + viewport == len as real * h else most == 0.0
    ensures var (at, most) := (ClampScroll(scroll, h, viewport, len), MaxScroll(h, viewport, len));
            match scroll
            case NonFinite => at == 0.0
            case Finite(x) => (x <= 0.0 ==> at == 0.0) && (0.0 <= x <= most ==> at == x) && (x >= most ==> at == most)
  {
  }

  /** The range holds exactly the rows that overlap the window at the clamped
      offset, at least one of them, for every offset the host may send. */
  lemma VisibleRangeIsExact(scroll: Offset, viewport: real, h: real, len: nat, i: nat)
    requires len > 0 && viewport > 0.0 && h > 0.0
    ensures var (first, end) := VisibleRange(scroll, viewport, h, len);
            && first < end <= len
            && (first <= i < end <==> i < len && Overlaps(i, h, ClampScroll(scroll, h, viewport, len), viewport))
  {
    var at := ClampScroll(scroll, h, viewport, len);
    ClampedOffset(scroll, viewport, h, len);
    var (first, end) := VisibleRange(scroll, viewport, h, len);
    DivideBounds(at, h, 0);
    DivideBounds(at, h, len);
    DivideBounds(at, h, first);
    DivideBounds(at, h, i + 1);
    DivideBounds(at + viewport, h, i);
    DivideBounds(at + viewport, h, first);
    TopRowIs(at, h, first);
  }

  /** A point is on the row whose span holds it. */
  lemma RowAtIsExact(y: real, h: real, len: nat, i: nat)
    requires h > 0.0
    ensures RowAt(y, h, len) == Some(i) <==> i < len && i as real * h <= y < (i + 1) as real * h
  {
    if y >= 0.0 {
      TopRowIs(y, h, i);
    }
  }

  predicate FullyShown(row: nat, h: real, viewport: real, scroll: real) {
    scroll <= row as real * h && row as real * h + h <= scroll + viewport
  }

  function Distance(a: real, b: real): real { if a >= b then a - b else b - a }

  /** The new offset shows the row in full whenever the window is tall enough for
      it, is the old one when that did already, and otherwise the nearest that does. */
  lemma ScrollForRowIsLeast(row: nat, h: real, viewport: real, scroll: real, other: real)
    requires h > 0.0
    ensures var to := ScrollForRow(row, h, viewport, scroll);
            && (FullyShown(row, h, viewport, to) <==> h <= viewport)
            && (FullyShown(row, h, viewport, scroll) ==> to == scroll)
            && (FullyShown(row, h, viewport, other) ==> Distance(to, scroll) <= Distance(other, scroll))
            && (row as real * h < scroll ==> to == row as real * h)
            && (row as real * h >= scroll && !FullyShown(row, h, viewport, scroll) ==>
                  to + viewport == row as real * h + h)
  {
  }

  // ----- runs -----

  datatype ListOp =
    | SetRowsOp(len: nat) | RecountOp(len: nat)
    | InsertOp(at: nat, count: nat) | RemoveOp(at: nat, count: nat)
    | ClickOp(row: nat) | CtrlClickOp(row: nat) | ShiftClickOp(row: nat)
    | KeyOp(key: L.Key, ctrl: bool, shift: bool, page: nat)
    | SelectAllOp | ReplaceOp(rows: seq<nat>) | ClearOp
    | ScrollOp(offset: Offset, viewport: real)

  function Apply(v: State, op: ListOp, h: real): State
    requires h > 0.0
  {
    match op
    case SetRowsOp(len) => NEW_VIEW.(len := len)
    case RecountOp(len) => v.(len := len)
    case InsertOp(at, count) => Insert(v, at, count, h)
    case RemoveOp(at, count) => Remove(v, at, count, h)
    case ClickOp(row) => v.(sel := L.Click(row))
    case CtrlClickOp(row) => v.(sel := L.CtrlClick(v.sel, row))
    case ShiftClickOp(row) => v.(sel := L.ShiftClick(v.sel, row))
    case KeyOp(key, ctrl, shift, page) => v.(sel := L.Navigate(v.sel, key, ctrl, shift, v.len, page))
    case SelectAllOp => v.(sel := L.SelectAll(v.len))
    case ReplaceOp(rows) => v.(sel := L.Replace(rows, v.len))
    case ClearOp => v.(sel := L.NO_SELECTION)
    case ScrollOp(offset, viewport) => v.(scroll := ClampScroll(offset, h, viewport, v.len))
  }

  /** What the widget passes in: rows that exist, and a recount that only adds. */
  predicate Called(v: State, op: ListOp) {
    match op
    case RecountOp(len) => len >= v.len
    case InsertOp(at, _) => at <= v.len
    case RemoveOp(at, count) => at + count <= v.len
    case ClickOp(row) => row < v.len
    case CtrlClickOp(row) => row < v.len
    case ShiftClickOp(row) => row < v.len
    case _ => true
  }

  function Run(ops: seq<ListOp>, h: real): State
    requires h > 0.0
  {
    if ops == [] then NEW_VIEW else Apply(Run(ops[..|ops| - 1], h), ops[|ops| - 1], h)
  }

  ghost predicate IsRun(ops: seq<ListOp>, h: real)
    requires h > 0.0
  {
    forall i :: 0 <= i < |ops| ==> Called(Run(ops[..i], h), ops[i])
  }

  /** Ctrl+A reached an empty list. */
  ghost predicate SelectsNothing(ops: seq<ListOp>, h: real)
    requires h > 0.0
  {
    exists i :: 0 <= i < |ops| && ops[i].SelectAllOp? && Run(ops[..i], h).len == 0
  }

  lemma ToggleKeepsInBounds(s: L.Sel, len: nat, row: nat)
    requires L.InBounds(s, len) && row < len
    ensures L.InBounds(L.CtrlClick(s, row), len)
  {
    L.ToggleAscends(s.selected, row);
  }

  lemma MoveKeepsInBounds(s: L.Sel, len: nat, row: nat, ctrl: bool, shift: bool)
    requires L.InBounds(s, len) && row < len
    ensures L.InBounds(L.MoveFocus(s, row, ctrl, shift), len)
  {
    SpanInBounds(L.Origin(s, row), row, len);
  }

  lemma ApplyKeepsInBounds(v: State, op: ListOp, h: real)
    requires h > 0.0 && v.scroll >= 0.0 && L.InBounds(v.sel, v.len) && Called(v, op) && (op.SelectAllOp? ==> v.len > 0)
    ensures L.InBounds(Apply(v, op, h).sel, Apply(v, op, h).len) && Apply(v, op, h).scroll >= 0.0
  {
    match op
    case InsertOp(at, count) => assert count as real * h >= 0.0;
    case RemoveOp(at, count) => L.RemoveKeepsInBounds(v.sel, v.len, at, count);
    case CtrlClickOp(row) => ToggleKeepsInBounds(v.sel, v.len, row);
    case ShiftClickOp(row) => MoveKeepsInBounds(v.sel, v.len, row, false, true);
    case KeyOp(key, ctrl, shift, page) =>
      var target := L.NavTarget(key, v.sel.focus, v.len, page);
      if target.Some? {
        MoveKeepsInBounds(v.sel, v.len, target.value, ctrl, shift);
      }
    case ReplaceOp(rows) => L.ReplaceKeepsExistingRows(rows, v.len);
    case _ =>
  }

  lemma SpanInBounds(a: nat, b: nat, len: nat)
    requires a < len && b < len
    ensures Increasing(L.Span(a, b)) && forall i :: 0 <= i < |L.Span(a, b)| ==> L.Span(a, b)[i] < len
  {
    L.SpanIs(a, b);
  }

  lemma ApplyKeepsScroll(v: State, op: ListOp, h: real)
    requires h > 0.0 && v.scroll >= 0.0
    ensures Apply(v, op, h).scroll >= 0.0
  {
    if op.InsertOp? {
      assert op.count as real * h >= 0.0;
    }
  }

  /** Over every run the offset is not negative; and in one in which Ctrl+A never meets
      an empty list, the selection stays strictly ascending, and it, the anchor and the
      focus stay in the list. */
  lemma {:induction false} RunsStayInBounds(ops: seq<ListOp>, h: real)
    requires h > 0.0 && IsRun(ops, h)
    ensures Run(ops, h).scroll >= 0.0
    ensures !SelectsNothing(ops, h) ==> L.InBounds(Run(ops, h).sel, Run(ops, h).len)
  {
    if ops != [] {
      var n := |ops| - 1;
      var before := ops[..n];
      forall i | 0 <= i < n ensures before[..i] == ops[..i] && Called(Run(before[..i], h), before[i]) {
        assert before[..i] == ops[..i];
      }
      RunsStayInBounds(before, h);
      ApplyKeepsScroll(Run(before, h), ops[n], h);
      if !SelectsNothing(ops, h) {
        ApplyKeepsInBounds(Run(before, h), ops[n], h);
      }
    }
  }

  /** Ctrl+A leaves the selection in bounds exactly when the list has a row. */
  lemma SelectAllIsInBoundsIff(len: nat)
    ensures L.InBounds(L.SelectAll(len), len) <==> len > 0
  {
  }

  /** On an empty list Ctrl+A sets an anchor; once five messages arrive and the
      user Shift+clicks the first, a row that does not exist is selected. */
  lemma SelectAllOnEmptyEscapes(h: real)
    requires h > 0.0
    ensures var ops := [SelectAllOp, InsertOp(0, 5), ShiftClickOp(0)];
            && IsRun(ops, h) && SelectsNothing(ops, h)
            && Run(ops, h).len == 5 && 5 in Run(ops, h).sel.selected
  {
    var ops := [SelectAllOp, InsertOp(0, 5), ShiftClickOp(0)];
    assert ops[..0] == [] && ops[..1] == [SelectAllOp] && ops[..2] == [SelectAllOp, InsertOp(0, 5)] && ops[..3] == ops;
    assert ops[..1][..0] == ops[..0] && ops[..2][..1] == ops[..1] && ops[..3][..2] == ops[..2];
    var one, two := Run(ops[..1], h), Run(ops[..2], h);
    assert Run(ops[..0], h) == NEW_VIEW && one == Apply(Run(ops[..0], h), SelectAllOp, h);
    assert one == NEW_VIEW.(sel := L.SelectAll(0));
    assert two.len == 5 && two.sel.anchor == Some(5);
    L.SpanIs(5, 0);
  }
}
