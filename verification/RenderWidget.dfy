/** The widget as the UI thread runs it: fields changed by `load`, by the submit
    a paint owes, and by the poll that follows it. */
module RenderWidget {
  import opened Basics
  import opened RenderEngine
  import P = RenderProtocol

  /** The text of a frame, as its signature tells it apart. */
  type Texts = Frame -> string

  predicate Adopts(id: nat, o: Output) { o.Rendered? && o.frame.id == id }

  /** The text selection after the channel is drained: a frame with other text, or
      the first one, drops it. */
  function Kept(held: Option<Frame>, id: nat, inbox: seq<Output>, texts: Texts,
      selection: Option<(nat, nat)>): Option<(nat, nat)>
    decreases |inbox|
  {
    if inbox == [] then selection
    else if !Adopts(id, inbox[0]) then Kept(held, id, inbox[1..], texts, selection)
    else
      var same := held.Some? && texts(held.value) == texts(inbox[0].frame);
      Kept(Some(inbox[0].frame), id, inbox[1..], texts, if same then selection else None)
  }

  class HtmlWidget {
    var html: Html
    var submittedId: nat
    var requestedWidth: real
    var resetImages: bool
    var dirty: bool
    var failed: bool
    var frame: Option<Frame>
    var loads: nat  // history
    var selection: Option<(nat, nat)>
    var scroll: real

    function View(): P.Widget
      reads this
    {
      P.Widget(html, submittedId, requestedWidth, resetImages, dirty, failed, frame, loads)
    }

    constructor (page: Html)
      ensures View() == P.NewWidget(page) && selection == None && scroll == 0.0
    {
      html, submittedId, requestedWidth, resetImages := page, 0, 0.0, false;
      dirty, failed, frame, loads := true, false, None, 0;
      selection, scroll := None, 0.0;
    }

    method LoadPage(page: Html)
      modifies this
      ensures View() == P.Load(old(View()), page) && selection == None && scroll == 0.0
      ensures html == page && frame == None && !failed && resetImages && dirty && submittedId == old(submittedId)
    {
      html := page;
      frame := None;
      selection := None;
      scroll := 0.0;
      failed := false;
      resetImages := true;
      dirty := true;
      loads := loads + 1;
    }

    /** `latest` is what is stored before `job` is sent; `hungUp` is a worker that is gone. */
    method Submit(width: real, hungUp: bool) returns (latest: nat, job: RenderJob)
      modifies this
      ensures latest == old(submittedId) + 1
      ensures job == P.NextJob(old(View()).(submittedId := latest), width)
      ensures job == RenderJob(latest, old(html), width, old(resetImages), old(loads))
      ensures submittedId == latest && requestedWidth == width && !resetImages && !dirty
              && failed == (old(failed) || hungUp) && html == old(html) && frame == old(frame)
      ensures View() == P.Submitted(old(View()).(submittedId := latest, failed := old(failed) || hungUp), width)
      ensures selection == old(selection) && scroll == old(scroll)
    {
      submittedId := submittedId + 1;
      latest := submittedId;
      var reset := resetImages;
      resetImages := false;
      job := RenderJob(submittedId, html, width, reset, loads);
      if hungUp {
        failed := true;
      }
      requestedWidth := width;
      dirty := false;
    }

    /** Drains the output channel; a dead worker marks the widget failed. */
    method Poll(inbox: seq<Output>, hungUp: bool, texts: Texts)
      modifies this
      ensures var all := P.ReceiveAll(old(View()), inbox);
              View() == all.(failed := all.failed || hungUp)
      ensures failed <==> old(failed) || hungUp || Failed(submittedId) in inbox
      ensures HoldsNewest(old(frame), submittedId, inbox, frame)
      ensures selection == Kept(old(frame), submittedId, inbox, texts, old(selection)) && scroll == old(scroll)
    {
      ReceivesNewest(View(), inbox);
      var i := 0;
      while i < |inbox|
        invariant 0 <= i <= |inbox|
        invariant P.ReceiveAll(View(), inbox[i..]) == P.ReceiveAll(old(View()), inbox)
        invariant submittedId == old(submittedId) && scroll == old(scroll)
        invariant Kept(frame, submittedId, inbox[i..], texts, selection)
               == Kept(old(frame), submittedId, inbox, texts, old(selection))
        decreases |inbox| - i
      {
        assert inbox[i..][1..] == inbox[i + 1..];
        match inbox[i] {
          case Rendered(f) =>
            if f.id == submittedId {
              if frame.None? || texts(frame.value) != texts(f) {
                selection := None;
              }
              frame := Some(f);
            }
          case Failed(id) =>
            if id == submittedId {
              failed := true;
            }
        }
        i := i + 1;
      }
      if hungUp {
        failed := true;
      }
    }

    method IsReady() returns (ready: bool)
      ensures ready == View().IsReady()
    {
      ready := frame.Some? && frame.value.id == submittedId;
    }

    /** A paint submits what is due before it polls, so no output for an older
        page can be adopted: with no frame held, whatever is adopted carries the
        id of a job submitted after the load. */
    method Paint(width: real, inbox: seq<Output>, hungUp: bool, texts: Texts) returns (job: Option<RenderJob>)
      requires width >= 1.0
      modifies this
      ensures job.Some? <==> old(dirty) || !(-0.5 <= width - old(requestedWidth) <= 0.5)
      ensures job.Some? ==> submittedId == old(submittedId) + 1 && requestedWidth == width && !resetImages
      ensures job.None? ==> submittedId == old(submittedId) && requestedWidth == old(requestedWidth)
                            && resetImages == old(resetImages)
      ensures -0.5 <= width - requestedWidth <= 0.5
      ensures job.Some? ==>
                job.value == RenderJob(old(submittedId) + 1, old(html), width, old(resetImages), old(loads))
      ensures var all := P.ReceiveAll(AfterSubmit(old(View()), width, hungUp), inbox);
              View() == all.(failed := all.failed || hungUp)
      ensures !dirty
      ensures || frame == old(frame)
              || (frame.Some? && frame.value.id == submittedId && Rendered(frame.value) in inbox)
      ensures selection == Kept(old(frame), submittedId, inbox, texts, old(selection)) && scroll == old(scroll)
    {
      job := None;
      var apart := if width >= requestedWidth then width - requestedWidth else requestedWidth - width;
      if dirty || apart > 0.5 {
        var latest, submitted := Submit(width, hungUp);
        job := Some(submitted);
      }
      ReceiveAllAdopts(View(), inbox);
      Poll(inbox, hungUp, texts);
    }
  }

  /** The widget between a paint's submit, if one is due, and its poll. */
  function AfterSubmit(w: P.Widget, width: real, hungUp: bool): P.Widget {
    if P.NeedsSubmit(w, width) then
      P.Submitted(w.(submittedId := w.submittedId + 1, failed := w.failed || hungUp), width)
    else w
  }

  /** Adopting only frames of the same text keeps the selection; any other drops it. */
  lemma {:induction false} SelectionSurvivesSameText(held: Frame, id: nat, inbox: seq<Output>, texts: Texts,
      selection: (nat, nat))
    ensures Kept(Some(held), id, inbox, texts, Some(selection)) == Some(selection) <==>
              forall i :: 0 <= i < |inbox| && Adopts(id, inbox[i]) ==> texts(inbox[i].frame) == texts(held)
    decreases |inbox|
  {
    if inbox != [] {
      var o, rest := inbox[0], inbox[1..];
      if Adopts(id, o) {
        if texts(o.frame) == texts(held) {
          SelectionSurvivesSameText(o.frame, id, rest, texts, selection);
        } else {
          NothingStaysNothing(Some(o.frame), id, rest, texts);
        }
      } else {
        SelectionSurvivesSameText(held, id, rest, texts, selection);
      }
      assert forall i :: 0 <= i < |rest| ==> rest[i] == inbox[i + 1];
    }
  }

  /** The frame held is the last one of the channel with this id, or as before without one. */
  ghost predicate HoldsNewest(was: Option<Frame>, id: nat, inbox: seq<Output>, held: Option<Frame>) {
    if forall i :: 0 <= i < |inbox| ==> !Adopts(id, inbox[i]) then held == was
    else
      exists i :: 0 <= i < |inbox| && Adopts(id, inbox[i]) && held == Some(inbox[i].frame)
                  && forall j :: i < j < |inbox| ==> !Adopts(id, inbox[j])
  }

  lemma {:induction false} ReceivesNewest(w: P.Widget, inbox: seq<Output>)
    ensures var r := P.ReceiveAll(w, inbox);
            && (r.failed <==> w.failed || Failed(w.submittedId) in inbox)
            && HoldsNewest(w.frame, w.submittedId, inbox, r.frame)
    decreases |inbox|
  {
    if inbox != [] {
      var next, rest := P.Receive(w, inbox[0]), inbox[1..];
      ReceivesNewest(next, rest);
      assert inbox == [inbox[0]] + rest;
      if i :| 0 <= i < |rest| && Adopts(w.submittedId, rest[i]) {
        var k :| 0 <= k < |rest| && Adopts(w.submittedId, rest[k])
                 && P.ReceiveAll(next, rest).frame == Some(rest[k].frame)
                 && forall j :: k < j < |rest| ==> !Adopts(w.submittedId, rest[j]);
        assert inbox[k + 1] == rest[k];
        assert inbox[i + 1] == rest[i];
      } else if Adopts(w.submittedId, inbox[0]) {
        assert forall j :: 0 < j < |inbox| ==> inbox[j] == rest[j - 1];
      }
    }
  }

  lemma {:induction false} NothingStaysNothing(held: Option<Frame>, id: nat, inbox: seq<Output>, texts: Texts)
    ensures Kept(held, id, inbox, texts, None) == None
    decreases |inbox|
  {
    if inbox != [] {
      NothingStaysNothing(if Adopts(id, inbox[0]) then Some(inbox[0].frame) else held, id, inbox[1..], texts);
    }
  }

  lemma {:induction false} ReceiveAllAdopts(w: P.Widget, inbox: seq<Output>)
    ensures var r := P.ReceiveAll(w, inbox);
            && r == w.(frame := r.frame, failed := r.failed)
            && (|| r.frame == w.frame
                || (r.frame.Some? && r.frame.value.id == w.submittedId && Rendered(r.frame.value) in inbox))
    decreases |inbox|
  {
    if inbox != [] {
      ReceiveAllAdopts(P.Receive(w, inbox[0]), inbox[1..]);
    }
  }
}
