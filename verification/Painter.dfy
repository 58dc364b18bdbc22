/** Replaying a display list onto a canvas, skipping what cannot be seen. */
module Painter {
  import opened Basics
  import opened Geometry
  import opened DisplayList

  /** A clip as the canvas keeps it: a shape, moved as the canvas was when it was pushed. */
  datatype Clip = Clip(rect: Rect, radii: Radii, dx: real, dy: real)

  /** A drawn command, with the clips and the translation in force. */
  datatype Drawn = Drawn(cmd: Cmd, clips: seq<Clip>, dx: real, dy: real)

  datatype Screen = Screen(background: Rgba, clips: seq<Clip>, dx: real, dy: real, drawn: seq<Drawn>)

  const SHARP_CORNERS := Radii(Radius(0.0, 0.0), Radius(0.0, 0.0), Radius(0.0, 0.0), Radius(0.0, 0.0))

  function Moved(p: Point, dx: real, dy: real): Point { Point(p.x + dx, p.y + dy) }

  predicate Covers(clip: Clip, p: Point) { InRounded(clip.rect, clip.radii, Moved(p, -clip.dx, -clip.dy)) }

  type Inks = (Cmd, Point) -> bool

  /** The command's ink reaches the screen point `p`. */
  predicate Shows(d: Drawn, ink: Inks, p: Point) {
    ink(d.cmd, Moved(p, -d.dx, -d.dy)) && forall i :: 0 <= i < |d.clips| ==> Covers(d.clips[i], p)
  }

  /** What the screen shows at `p`: the commands painted there, in order, over the background. */
  function Picture(drawn: seq<Drawn>, ink: Inks, p: Point): seq<Cmd> {
    if drawn == [] then []
    else
      var last := drawn[|drawn| - 1];
      Picture(drawn[..|drawn| - 1], ink, p) + if Shows(last, ink, p) then [last.cmd] else []
  }

  function Cleared(s: Screen, background: Rgba): Screen { s.(background := background, drawn := []) }

  function Pushed(s: Screen, rect: Rect, radii: Radii): Screen {
    s.(clips := s.clips + [Clip(rect, radii, s.dx, s.dy)])
  }

  /** With nothing pushed the canvas reports an error, which the painter ignores. */
  function Popped(s: Screen): Screen { if s.clips == [] then s else s.(clips := s.clips[..|s.clips| - 1]) }

  function Draw(s: Screen, cmd: Cmd): Screen { s.(drawn := s.drawn + [Drawn(cmd, s.clips, s.dx, s.dy)]) }

  function Narrowed(visible: Rect, clips: seq<Rect>): Rect {
    if clips == [] then visible
    else
      var r := Narrowed(visible, clips[..|clips| - 1]).Intersect(clips[|clips| - 1]);
      if r.Some? then r.value else NO_RECT
  }

  predicate Culled(visible: Rect, clips: seq<Rect>, cmd: Cmd) {
    Bounds(cmd).Some? && !Narrowed(visible, clips).Intersects(Bounds(cmd).value)
  }

  /** One command of the replay: the canvas, and the painter's own clip stack. */
  function Replayed(s: Screen, clips: seq<Rect>, visible: Rect, cmd: Cmd, culls: bool): (Screen, seq<Rect>) {
    match cmd
    case PushClip(rect, radii) => (Pushed(s, rect, radii), clips + [rect])
    case PopClip => (Popped(s), if clips == [] then [] else clips[..|clips| - 1])
    case _ => (if culls && Culled(visible, clips, cmd) then s else Draw(s, cmd), clips)
  }

  function Replay(s: Screen, visible: Rect, cmds: seq<Cmd>, culls: bool): (Screen, seq<Rect>) {
    if cmds == [] then (s, [])
    else
      var (t, clips) := Replay(s, visible, cmds[..|cmds| - 1], culls);
      Replayed(t, clips, visible, cmds[|cmds| - 1], culls)
  }

  function Prepared(s: Screen, viewport: Rect, scroll: real, background: Rgba): Screen {
    Pushed(Cleared(s, background), viewport, SHARP_CORNERS).(dx := 0.0, dy := -scroll)
  }

  function Painted(s: Screen, cmds: seq<Cmd>, viewport: Rect, scroll: real, background: Rgba, culls: bool): Screen {
    Replay(Prepared(s, viewport, scroll, background), viewport.Translate(0.0, scroll), cmds, culls).0
  }

  // ----- the imperative form -----

  class Canvas {
    var background: Rgba
    var clips: seq<Clip>
    var dx: real
    var dy: real
    var drawn: seq<Drawn>

    function View(): Screen
      reads this
    {
      Screen(background, clips, dx, dy, drawn)
    }

    method Clear(color: Rgba)
      modifies this
      ensures View() == Cleared(old(View()), color)
    {
      background, drawn := color, [];
    }

    method Push(rect: Rect, radii: Radii)
      modifies `clips
      ensures View() == Pushed(old(View()), rect, radii)
    {
      clips := clips + [Clip(rect, radii, dx, dy)];
    }

    method Pop() returns (ok: bool)
      modifies `clips
      ensures ok == (old(clips) != []) && View() == Popped(old(View()))
    {
      ok := clips != [];
      if ok {
        clips := clips[..|clips| - 1];
      }
    }

    method DrawCommand(cmd: Cmd)
      modifies `drawn
      ensures View() == Draw(old(View()), cmd)
    {
      drawn := drawn + [Drawn(cmd, clips, dx, dy)];
    }
  }

  /** Narrows the visible rectangle by every open clip. */
  method Narrow(visible: Rect, clips: seq<Rect>) returns (r: Rect)
    ensures r == Narrowed(visible, clips)
  {
    r := visible;
    for i := 0 to |clips|
      invariant r == Narrowed(visible, clips[..i])
    {
      assert clips[..i + 1][..i] == clips[..i];
      var common := r.Intersect(clips[i]);
      r := if common.Some? then common.value else NO_RECT;
    }
    assert clips[..|clips|] == clips;
  }

  method Paint(cmds: seq<Cmd>, canvas: Canvas, viewport: Rect, scroll: real, background: Rgba)
    modifies canvas
    ensures canvas.View() == Painted(old(canvas.View()), cmds, viewport, scroll, background, true)
  {
    canvas.Clear(background);
    canvas.Push(viewport, SHARP_CORNERS);
    canvas.dx, canvas.dy := 0.0, -scroll;
    var visible := viewport.Translate(0.0, scroll);
    var clips: seq<Rect> := [];
    ghost var start := canvas.View();
    for i := 0 to |cmds|
      invariant (canvas.View(), clips) == Replay(start, visible, cmds[..i], true)
    {
      assert cmds[..i + 1][..i] == cmds[..i];
      var cmd := cmds[i];
      if cmd.PushClip? {
        clips := clips + [cmd.rect];
        canvas.Push(cmd.rect, cmd.radii);
      } else if cmd.PopClip? {
        if clips != [] {
          clips := clips[..|clips| - 1];
        }
        var _ := canvas.Pop();
      } else {
        var narrowed := Narrow(visible, clips);
        var bounds := Bounds(cmd);
        if bounds.None? || narrowed.Intersects(bounds.value) {
          canvas.DrawCommand(cmd);
        }
      }
    }
    assert cmds[..|cmds|] == cmds;
  }

  // ----- culling changes nothing -----

  /** The canvas ends with the painter's clips, pushed under the scroll. */
  ghost predicate Mirrors(canvas: seq<Clip>, clips: seq<Rect>, scroll: real) {
    && |clips| <= |canvas|
    && forall i :: 0 <= i < |clips| ==> MirrorsAt(canvas, clips, scroll, i)
  }

  predicate MirrorsAt(canvas: seq<Clip>, clips: seq<Rect>, scroll: real, i: nat)
    requires i < |clips| <= |canvas|
  {
    var c := canvas[|canvas| - |clips| + i];
    c.rect == clips[i] && c.dx == 0.0 && c.dy == -scroll
  }

  ghost predicate InkWithin(ink: Inks, cmd: Cmd) {
    forall p :: ink(cmd, p) ==> Bounds(cmd).Some? && Bounds(cmd).value.Contains(p)
  }

  /** A point of the visible rectangle and of every clip is never narrowed away. */
  lemma {:induction false} NarrowedKeeps(visible: Rect, clips: seq<Rect>, p: Point)
    requires visible.Contains(p) && forall i :: 0 <= i < |clips| ==> clips[i].Contains(p)
    ensures Narrowed(visible, clips).Contains(p)
  {
    if clips != [] {
      NarrowedKeeps(visible, clips[..|clips| - 1], p);
      IntersectIsCommonPoints(Narrowed(visible, clips[..|clips| - 1]), clips[|clips| - 1]);
    }
  }

  /** What is left of the visible rectangle is what it and every clip hold. */
  lemma {:induction false} NarrowedIsCommon(visible: Rect, clips: seq<Rect>, p: Point)
    ensures Narrowed(visible, clips).Contains(p) <==>
              visible.Contains(p) && forall i :: 0 <= i < |clips| ==> clips[i].Contains(p)
  {
    if clips != [] {
      var n := |clips| - 1;
      NarrowedIsCommon(visible, clips[..n], p);
      IntersectIsCommonPoints(Narrowed(visible, clips[..n]), clips[n]);
    }
  }

  /** Some point of the document is in view, in every clip, and in the command's bounds. */
  ghost predicate MayShow(visible: Rect, clips: seq<Rect>, bounds: Rect) {
    exists p :: visible.Contains(p) && (forall i :: 0 <= i < |clips| ==> clips[i].Contains(p)) && bounds.Contains(p)
  }

  /** A command is skipped exactly when it has bounds and no point of them can show,
      as long as the bounds and what is left of the view hold points at all. */
  lemma CulledIff(visible: Rect, clips: seq<Rect>, cmd: Cmd)
    requires Narrowed(visible, clips).NonEmpty()
    requires Bounds(cmd).Some? ==> Bounds(cmd).value.NonEmpty()
    ensures Culled(visible, clips, cmd) <==> Bounds(cmd).Some? && !MayShow(visible, clips, Bounds(cmd).value)
  {
    if Bounds(cmd).Some? {
      var left, bounds := Narrowed(visible, clips), Bounds(cmd).value;
      OverlapIsCommonPoint(left, bounds);
      forall p ensures left.Contains(p) <==>
                         visible.Contains(p) && forall i :: 0 <= i < |clips| ==> clips[i].Contains(p)
      {
        NarrowedIsCommon(visible, clips, p);
      }
    }
  }

  /** What is culled would not have shown at any point of the viewport. */
  lemma CulledIsInvisible(s: Screen, clips: seq<Rect>, viewport: Rect, scroll: real, cmd: Cmd, ink: Inks, p: Point)
    requires Mirrors(s.clips, clips, scroll) && s.dx == 0.0 && s.dy == -scroll
    requires Culled(viewport.Translate(0.0, scroll), clips, cmd) && InkWithin(ink, cmd) && viewport.Contains(p)
    ensures !Shows(Drawn(cmd, s.clips, s.dx, s.dy), ink, p)
  {
    var at := Moved(p, 0.0, scroll);
    var visible, bounds := viewport.Translate(0.0, scroll), Bounds(cmd).value;
    if Shows(Drawn(cmd, s.clips, s.dx, s.dy), ink, p) {
      assert at == Moved(p, -s.dx, -s.dy);
      forall i | 0 <= i < |clips| ensures clips[i].Contains(at) {
        assert MirrorsAt(s.clips, clips, scroll, i);
        assert Covers(s.clips[|s.clips| - |clips| + i], p);
      }
      NarrowedKeeps(visible, clips, at);
      OverlapIsCommonPoint(Narrowed(visible, clips), bounds);
    }
  }

  /** The canvas of the culling replay and that of the whole one differ in what
      was drawn, but not in what shows at `p`. */
  ghost predicate Agree(a: Screen, b: Screen, clips: seq<Rect>, scroll: real, ink: Inks, p: Point) {
    && a.dx == 0.0 && a.dy == -scroll && Mirrors(a.clips, clips, scroll)
    && b == a.(drawn := b.drawn) && Picture(a.drawn, ink, p) == Picture(b.drawn, ink, p)
  }

  lemma {:induction false} ReplaysAgree(s: Screen, cmds: seq<Cmd>, viewport: Rect, scroll: real, ink: Inks, p: Point)
    requires s.dx == 0.0 && s.dy == -scroll && viewport.Contains(p)
    requires forall i :: 0 <= i < |cmds| ==> InkWithin(ink, cmds[i])
    ensures var (a, clips) := Replay(s, viewport.Translate(0.0, scroll), cmds, true);
            var (b, same) := Replay(s, viewport.Translate(0.0, scroll), cmds, false);
            clips == same && Agree(a, b, clips, scroll, ink, p) && a.background == s.background
  {
    if cmds != [] {
      var n := |cmds| - 1;
      ReplaysAgree(s, cmds[..n], viewport, scroll, ink, p);
      var visible := viewport.Translate(0.0, scroll);
      var (a, clips) := Replay(s, visible, cmds[..n], true);
      var (b, _) := Replay(s, visible, cmds[..n], false);
      StepsAgree(a, b, clips, cmds[n], viewport, scroll, ink, p);
    }
  }

  lemma StepsAgree(a: Screen, b: Screen, clips: seq<Rect>, cmd: Cmd, viewport: Rect, scroll: real, ink: Inks, p: Point)
    requires viewport.Contains(p) && InkWithin(ink, cmd) && Agree(a, b, clips, scroll, ink, p)
    ensures var (u, after) := Replayed(a, clips, viewport.Translate(0.0, scroll), cmd, true);
            var (v, same) := Replayed(b, clips, viewport.Translate(0.0, scroll), cmd, false);
            after == same && Agree(u, v, after, scroll, ink, p) && u.background == a.background
  {
    if cmd.PushClip? {
      PushAgrees(a, b, clips, cmd.rect, cmd.radii, scroll, ink, p);
    } else if cmd.PopClip? {
      PopAgrees(a, b, clips, scroll, ink, p);
    } else {
      DrawsAgree(a, b, clips, cmd, viewport, scroll, ink, p);
    }
  }

  lemma PictureOfOneMore(drawn: seq<Drawn>, d: Drawn, ink: Inks, p: Point)
    ensures Picture(drawn + [d], ink, p) == Picture(drawn, ink, p) + if Shows(d, ink, p) then [d.cmd] else []
  {
    assert (drawn + [d])[..|drawn|] == drawn;
  }

  lemma DrawsAgree(a: Screen, b: Screen, clips: seq<Rect>, cmd: Cmd, viewport: Rect, scroll: real, ink: Inks, p: Point)
    requires viewport.Contains(p) && InkWithin(ink, cmd) && Agree(a, b, clips, scroll, ink, p)
    ensures var visible := viewport.Translate(0.0, scroll);
            Agree(if Culled(visible, clips, cmd) then a else Draw(a, cmd), Draw(b, cmd), clips, scroll, ink, p)
  {
    var d := Drawn(cmd, a.clips, a.dx, a.dy);
    PictureOfOneMore(a.drawn, d, ink, p);
    PictureOfOneMore(b.drawn, d, ink, p);
    if Culled(viewport.Translate(0.0, scroll), clips, cmd) {
      CulledIsInvisible(a, clips, viewport, scroll, cmd, ink, p);
    }
  }

  lemma PushAgrees(a: Screen, b: Screen, clips: seq<Rect>, rect: Rect, radii: Radii, scroll: real, ink: Inks, p: Point)
    requires Agree(a, b, clips, scroll, ink, p)
    ensures Agree(Pushed(a, rect, radii), Pushed(b, rect, radii), clips + [rect], scroll, ink, p)
  {
    PushMirrors(a, clips, rect, radii, scroll);
  }

  lemma PopAgrees(a: Screen, b: Screen, clips: seq<Rect>, scroll: real, ink: Inks, p: Point)
    requires Agree(a, b, clips, scroll, ink, p)
    ensures Agree(Popped(a), Popped(b), if clips == [] then [] else clips[..|clips| - 1], scroll, ink, p)
  {
    PopMirrors(a, clips, scroll);
  }

  lemma PushMirrors(s: Screen, clips: seq<Rect>, rect: Rect, radii: Radii, scroll: real)
    requires Mirrors(s.clips, clips, scroll) && s.dx == 0.0 && s.dy == -scroll
    ensures Mirrors(Pushed(s, rect, radii).clips, clips + [rect], scroll)
  {
    forall i | 0 <= i < |clips| ensures MirrorsAt(Pushed(s, rect, radii).clips, clips + [rect], scroll, i) {
      assert MirrorsAt(s.clips, clips, scroll, i);
    }
  }

  lemma PopMirrors(s: Screen, clips: seq<Rect>, scroll: real)
    requires Mirrors(s.clips, clips, scroll)
    ensures Mirrors(Popped(s).clips, if clips == [] then [] else clips[..|clips| - 1], scroll)
  {
    if clips != [] {
      var rest := clips[..|clips| - 1];
      forall i | 0 <= i < |rest| ensures MirrorsAt(Popped(s).clips, rest, scroll, i) {
        assert MirrorsAt(s.clips, clips, scroll, i);
      }
    }
  }

  /** For every command list, balanced or not, the replay that culls shows at each
      point of the viewport exactly what replaying every command shows, given
      that each command inks only inside its bounds. */
  lemma CullingChangesNothing(s: Screen, cmds: seq<Cmd>, viewport: Rect, scroll: real, background: Rgba, ink: Inks,
      p: Point)
    requires viewport.Contains(p) && forall i :: 0 <= i < |cmds| ==> InkWithin(ink, cmds[i])
    ensures var culled := Painted(s, cmds, viewport, scroll, background, true);
            var whole := Painted(s, cmds, viewport, scroll, background, false);
            && Picture(culled.drawn, ink, p) == Picture(whole.drawn, ink, p)
            && culled.background == whole.background == background
  {
    ReplaysAgree(Prepared(s, viewport, scroll, background), cmds, viewport, scroll, ink, p);
  }

  /** The clips open after the commands, each pushed under the scroll. */
  function OpenAfter(open: seq<Clip>, cmds: seq<Cmd>, dy: real): seq<Clip> {
    if cmds == [] then open
    else
      var before := OpenAfter(open, cmds[..|cmds| - 1], dy);
      match cmds[|cmds| - 1]
      case PushClip(rect, radii) => before + [Clip(rect, radii, 0.0, dy)]
      case PopClip => if before == [] then [] else before[..|before| - 1]
      case _ => before
  }

  /** Every command but the clips', in order, under the clips open when it comes. */
  function AllDrawn(open: seq<Clip>, cmds: seq<Cmd>, dy: real): seq<Drawn> {
    if cmds == [] then []
    else
      var last, before := cmds[|cmds| - 1], cmds[..|cmds| - 1];
      AllDrawn(open, before, dy)
      + if last.PushClip? || last.PopClip? then [] else [Drawn(last, OpenAfter(open, before, dy), 0.0, dy)]
  }

  lemma {:induction false} ReplayDrawsAll(s: Screen, visible: Rect, cmds: seq<Cmd>)
    requires s.dx == 0.0
    ensures var t := Replay(s, visible, cmds, false).0;
            t == Screen(s.background, OpenAfter(s.clips, cmds, s.dy), 0.0, s.dy,
                        s.drawn + AllDrawn(s.clips, cmds, s.dy))
  {
    if cmds != [] {
      var n := |cmds| - 1;
      ReplayDrawsAll(s, visible, cmds[..n]);
      if !cmds[n].PushClip? && !cmds[n].PopClip? {
        var d := Drawn(cmds[n], OpenAfter(s.clips, cmds[..n], s.dy), 0.0, s.dy);
        ConcatAssoc(s.drawn, AllDrawn(s.clips, cmds[..n], s.dy), [d]);
      } else {
        assert AllDrawn(s.clips, cmds, s.dy) == AllDrawn(s.clips, cmds[..n], s.dy);
      }
    }
  }

  /** The painter's own clips are the rectangles pushed and not popped. */
  function OpenRects(cmds: seq<Cmd>): seq<Rect> {
    if cmds == [] then []
    else
      var before := OpenRects(cmds[..|cmds| - 1]);
      match cmds[|cmds| - 1]
      case PushClip(rect, _) => before + [rect]
      case PopClip => if before == [] then [] else before[..|before| - 1]
      case _ => before
  }

  /** The commands drawn when what cannot be seen is skipped. */
  function SomeDrawn(open: seq<Clip>, visible: Rect, cmds: seq<Cmd>, dy: real): seq<Drawn> {
    if cmds == [] then []
    else
      var last, before := cmds[|cmds| - 1], cmds[..|cmds| - 1];
      SomeDrawn(open, visible, before, dy)
      + if last.PushClip? || last.PopClip? || Culled(visible, OpenRects(before), last) then []
        else [Drawn(last, OpenAfter(open, before, dy), 0.0, dy)]
  }

  lemma {:induction false} ReplayDrawsSome(s: Screen, visible: Rect, cmds: seq<Cmd>)
    requires s.dx == 0.0
    ensures var (t, clips) := Replay(s, visible, cmds, true);
            && clips == OpenRects(cmds)
            && t == Screen(s.background, OpenAfter(s.clips, cmds, s.dy), 0.0, s.dy,
                           s.drawn + SomeDrawn(s.clips, visible, cmds, s.dy))
  {
    if cmds != [] {
      var n := |cmds| - 1;
      ReplayDrawsSome(s, visible, cmds[..n]);
      var d := Drawn(cmds[n], OpenAfter(s.clips, cmds[..n], s.dy), 0.0, s.dy);
      ConcatAssoc(s.drawn, SomeDrawn(s.clips, visible, cmds[..n], s.dy), [d]);
      assert SomeDrawn(s.clips, visible, cmds[..n], s.dy) + [] == SomeDrawn(s.clips, visible, cmds[..n], s.dy);
    }
  }

  /** The painting is the background and every command not skipped, once, in order, under
      the viewport and the clips then open; `CulledIff` says which are skipped. */
  lemma PaintingIs(s: Screen, cmds: seq<Cmd>, viewport: Rect, scroll: real, background: Rgba)
    ensures var t := Painted(s, cmds, viewport, scroll, background, true);
            var view := s.clips + [Clip(viewport, SHARP_CORNERS, s.dx, s.dy)];
            var visible := Rect(viewport.left, viewport.top + scroll, viewport.right, viewport.bottom + scroll);
            && t.background == background && t.dx == 0.0 && t.dy == -scroll
            && t.drawn == SomeDrawn(view, visible, cmds, -scroll) && t.clips == OpenAfter(view, cmds, -scroll)
  {
    ReplayDrawsSome(Prepared(s, viewport, scroll, background), viewport.Translate(0.0, scroll), cmds);
  }

  /** The whole painting is the background and every command once, moved up by the
      scroll, under the viewport, which is not moved, and the clips then open. */
  lemma WholePaintingIs(s: Screen, cmds: seq<Cmd>, viewport: Rect, scroll: real, background: Rgba)
    ensures var t := Painted(s, cmds, viewport, scroll, background, false);
            var view := s.clips + [Clip(viewport, SHARP_CORNERS, s.dx, s.dy)];
            && t.background == background && t.dx == 0.0 && t.dy == -scroll
            && t.drawn == AllDrawn(view, cmds, -scroll) && t.clips == OpenAfter(view, cmds, -scroll)
  {
    ReplayDrawsAll(Prepared(s, viewport, scroll, background), viewport.Translate(0.0, scroll), cmds);
  }

  /** With the shapes of this display list, what is needed is that no outline's
      pen reaches out of its bounds. */
  lemma CullingIsSafeWithoutWideOutlines(s: Screen, cmds: seq<Cmd>, viewport: Rect, scroll: real, background: Rgba,
                                         bleed: real, ink: Inks, p: Point)
    requires viewport.Contains(p) && 0.0 <= bleed < 1.0
    requires forall i :: 0 <= i < |cmds| ==> PensAreReal(cmds[i]) && !PenReachesOut(cmds[i], bleed)
    requires forall cmd, q :: ink(cmd, q) ==> Ink(cmd, bleed, q)
    ensures Picture(Painted(s, cmds, viewport, scroll, background, true).drawn, ink, p)
         == Picture(Painted(s, cmds, viewport, scroll, background, false).drawn, ink, p)
  {
    forall i | 0 <= i < |cmds| ensures InkWithin(ink, cmds[i]) {
      InkStaysInBounds(cmds[i], bleed);
    }
    CullingChangesNothing(s, cmds, viewport, scroll, background, ink, p);
  }

  /** A one-pixel view of the point `p` of the document. */
  function Peephole(p: Point, size: real): Rect { Rect(p.x, p.y, p.x + size, p.y + size) }

  /** Culling the outline alone is right in every view. */
  ghost predicate OutlineAlwaysShows(outline: Cmd, ink: Inks, background: Rgba) {
    forall s, viewport: Rect, scroll, p :: viewport.Contains(p) ==>
      Picture(Painted(s, [outline], viewport, scroll, background, true).drawn, ink, p)
      == Picture(Painted(s, [outline], viewport, scroll, background, false).drawn, ink, p)
  }

  lemma ReplayOne(s: Screen, visible: Rect, cmd: Cmd, culls: bool)
    ensures Replay(s, visible, [cmd], culls) == Replayed(s, [], visible, cmd, culls)
  {
    assert [cmd][..0] == [];
    assert Replay(s, visible, [cmd][..0], culls) == (s, []);
  }

  /** The pen of an outline is not inset, so its culling is right in every view
      exactly when half the pen and the spread come to at most one pixel; a
      wider one loses its edge in a view just outside the bounds. */
  lemma OutlineCullingIff(outline: Cmd, bleed: real, ink: Inks, background: Rgba)
    requires outline.Outline? && outline.stroke.width > 0.0 && 0.0 <= bleed < 1.0
    requires outline.rect.NonEmpty() && RadiiFit(outline.rect, outline.radii)
    requires forall cmd, q :: ink(cmd, q) <==> Ink(cmd, bleed, q)
    ensures OutlineAlwaysShows(outline, ink, background) <==> outline.stroke.width / 2.0 + bleed <= 1.0
  {
    if PenReachesOut(outline, bleed) {
      OutlineLost(outline, bleed, ink, background);
    } else {
      forall s, viewport: Rect, scroll, p | viewport.Contains(p)
        ensures Picture(Painted(s, [outline], viewport, scroll, background, true).drawn, ink, p)
             == Picture(Painted(s, [outline], viewport, scroll, background, false).drawn, ink, p)
      {
        CullingIsSafeWithoutWideOutlines(s, [outline], viewport, scroll, background, bleed, ink, p);
      }
    }
  }

  lemma OutlineLost(outline: Cmd, bleed: real, ink: Inks, background: Rgba)
    requires outline.Outline? && PenReachesOut(outline, bleed) && 0.0 <= bleed < 1.0
    requires outline.rect.NonEmpty() && RadiiFit(outline.rect, outline.radii)
    requires forall cmd, q :: ink(cmd, q) <==> Ink(cmd, bleed, q)
    ensures !OutlineAlwaysShows(outline, ink, background)
  {
    var p := LeftmostInk(outline, bleed);
    OutlineInksItsEdge(outline, bleed);
    var view := Peephole(p, outline.stroke.width / 2.0 + bleed - 1.0);
    var s := Screen(background, [], 0.0, 0.0, []);
    var start := Prepared(s, view, 0.0, background);
    ReplayOne(start, view.Translate(0.0, 0.0), outline, true);
    ReplayOne(start, view.Translate(0.0, 0.0), outline, false);
    assert Culled(view.Translate(0.0, 0.0), [], outline);
    var d := Drawn(outline, start.clips, 0.0, 0.0);
    assert start.clips == [Clip(view, SHARP_CORNERS, 0.0, 0.0)];
    assert Moved(p, -0.0, -0.0) == p;
    assert Shows(d, ink, p);
    assert [d][..0] == [] && Picture([d][..0], ink, p) == [];
    assert Picture(Painted(s, [outline], view, 0.0, background, true).drawn, ink, p) == [];
    assert Picture(Painted(s, [outline], view, 0.0, background, false).drawn, ink, p) == [outline];
    assert view.Contains(p);
  }
}
