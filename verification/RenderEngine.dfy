/** The worker's side of one render job: the image bookkeeping of the litehtml
    container and the pass loop over it. The functions on `Core` say what each
    operation does; the classes do it the way the worker does, field by field. */
module RenderEngine {
  import opened Basics

  type Url = string
  type Html = string

  const MAX_PASSES := 2

  /** `load` is a history variable: how many `load` calls came before the submit. */
  datatype RenderJob = RenderJob(id: nat, html: Html, width: real, resetImages: bool, load: nat)

  /** A display list, reduced to what it was made from: the images decoded when
      it was recorded and, as history, the URLs tried since the last reset and
      the load that reset belonged to. */
  datatype Frame = Frame(id: nat, html: Html, width: real, load: nat,
                         images: set<Url>, tried: set<Url>, clearedLoad: nat)

  datatype Output = Rendered(frame: Frame) | Failed(failedId: nat)
  {
    function Id(): nat { if Rendered? then frame.id else failedId }
  }

  /** The container's image fields and the worker's `reset_images_next`;
      `tried` and `clearedLoad` are history variables. */
  datatype Core = Core(loaded: set<Url>, pending: seq<Url>, requested: set<Url>,
                       resetNext: bool, tried: set<Url>, clearedLoad: nat)

  const NEW_CORE := Core({}, [], {}, false, {}, 0)

  /** What the world answers during one pass: whether the HTML parsed, the URLs
      layout asked for in order, and the URLs whose bytes could be had, with
      whether those bytes decode. */
  datatype Pass = Pass(parsed: bool, asks: seq<Url>, answers: map<Url, bool>)

  datatype Outcome = Again | Abandoned | Sent(output: Output)

  // ----- the container's callbacks -----

  function Request(c: Core, url: Url): Core {
    if url == "" || url in c.loaded || url in c.requested then c
    else c.(requested := c.requested + {url}, pending := c.pending + [url])
  }

  function RequestAll(c: Core, asks: seq<Url>): Core {
    if asks == [] then c else Request(RequestAll(c, asks[..|asks| - 1]), asks[|asks| - 1])
  }

  function Start(c: Core, job: RenderJob): Core {
    if job.resetImages || c.resetNext then
      c.(pending := [], requested := {}, tried := {}, clearedLoad := job.load,
         resetNext := c.resetNext && job.resetImages)
    else c
  }

  function FetchAll(c: Core, urls: seq<Url>, answers: map<Url, bool>): Core {
    c.(loaded := c.loaded + (set u | u in urls && u in answers && answers[u]),
       tried := c.tried + (set u | u in urls))
  }

  predicate AnyFetched(urls: seq<Url>, answers: map<Url, bool>) { exists u :: u in urls && u in answers }

  lemma FetchOneMore(c: Core, urls: seq<Url>, url: Url, answers: map<Url, bool>)
    ensures var before := FetchAll(c, urls, answers);
            FetchAll(c, urls + [url], answers) ==
              before.(loaded := before.loaded + (if url in answers && answers[url] then {url} else {}),
                  tried := before.tried + {url})
    ensures AnyFetched(urls + [url], answers) == (AnyFetched(urls, answers) || url in answers)
  {
    if AnyFetched(urls, answers) {
      var u :| u in urls && u in answers;
      assert u in urls + [url];
    }
    assert url in urls + [url];
  }

  /** The frame of a layout recorded while `images` were decoded. */
  function FrameOf(c: Core, job: RenderJob, images: set<Url>): Frame {
    Frame(job.id, job.html, Max(job.width, 1.0), job.load, images, c.tried, c.clearedLoad)
  }

  /** One pass of a job that was not superseded when it began. */
  function Work(c: Core, job: RenderJob, passes: nat, p: Pass): (Core, Outcome) {
    var asked := RequestAll(c, p.asks);
    if !p.parsed then (asked, Sent(Failed(job.id)))
    else
      var drawn := asked.(pending := []);
      if asked.pending == [] || passes + 1 == MAX_PASSES then 
        (drawn, Sent(Rendered(FrameOf(drawn, job, c.loaded))))
      else
        var fetched := FetchAll(drawn, asked.pending, p.answers);
        if AnyFetched(asked.pending, p.answers) then (fetched, Again)
        else (fetched, Sent(Rendered(FrameOf(fetched, job, c.loaded))))
  }

  function Abandon(c: Core): Core { c.(resetNext := true) }

  /** A whole job, given the ids the worker's checks read and the world's answers. */
  function RenderFrom(c: Core, job: RenderJob, passes: nat, ids: seq<nat>, world: seq<Pass>): (Core, Outcome)
    requires passes < MAX_PASSES && |ids| == |world| == MAX_PASSES - passes
    decreases MAX_PASSES - passes
  {
    if ids[0] != job.id then (Abandon(c), Abandoned)
    else
      var (next, outcome) := Work(c, job, passes, world[0]);
      if outcome.Again? && passes + 1 < MAX_PASSES then RenderFrom(next, job, passes + 1, ids[1..], world[1..])
      else (next, outcome)
  }

  // ----- properties of the bookkeeping -----

  /** Nothing is marked as requested without being loaded, tried, or waiting to be tried. */
  ghost predicate Accounted(c: Core) {
    forall u :: u in c.requested ==> u in c.loaded || u in c.tried || u in c.pending
  }

  /** Every URL of `urls` was loaded or tried since the last reset. */
  ghost predicate Covers(images: set<Url>, tried: set<Url>, urls: set<Url>) {
    forall u :: u in urls && u != "" ==> u in images || u in tried
  }

  lemma {:induction false} RequestAllAccounts(c: Core, asks: seq<Url>)
    requires Accounted(c)
    ensures var r := RequestAll(c, asks);
            && Accounted(r) && c.pending <= r.pending && c.requested <= r.requested
            && r == c.(pending := r.pending, requested := r.requested)
            && (forall u :: u in asks && u != "" ==> u in c.loaded || u in r.requested)
  {
    if asks != [] {
      RequestAllAccounts(c, asks[..|asks| - 1]);
      var before := RequestAll(c, asks[..|asks| - 1]);
      assert asks == asks[..|asks| - 1] + [asks[|asks| - 1]];
    }
  }

  lemma {:induction false} RequestAllIdle(c: Core, asks: seq<Url>)
    requires forall u :: u in asks && u != "" ==> u in c.loaded || u in c.requested
    ensures RequestAll(c, asks) == c
  {
    if asks != [] {
      assert asks == asks[..|asks| - 1] + [asks[|asks| - 1]];
      RequestAllIdle(c, asks[..|asks| - 1]);
    }
  }

  /** What a pass keeps: the first leaves nothing waiting if it goes again, and
      whatever frame is sent covers every URL of its document. */
  lemma WorkKeepsImages(c: Core, job: RenderJob, passes: nat, p: Pass, urls: set<Url>)
    requires passes < MAX_PASSES && Accounted(c)
    requires p.parsed ==> urls == set u | u in p.asks
    requires passes == 1 ==> c.pending == [] && Covers(c.loaded, c.tried, urls)
                             && forall u :: u in urls && u != "" ==> u in c.loaded || u in c.requested
    ensures var (r, o) := Work(c, job, passes, p);
            && Accounted(r) && r.resetNext == c.resetNext && r.clearedLoad == c.clearedLoad
            && !o.Abandoned?
            && (o.Sent? ==> o.output.Id() == job.id)
            && (o.Sent? && o.output.Rendered? ==>
                  && o.output.frame == FrameOf(r, job, c.loaded)
                  && Covers(c.loaded, r.tried, urls))
            && (o.Again? ==> passes == 0 && r.pending == [] && Covers(r.loaded, r.tried, urls)
                             && forall u :: u in urls && u != "" ==> u in r.loaded || u in r.requested)
  {
    RequestAllAccounts(c, p.asks);
    if p.parsed && passes == 1 {
      RequestAllIdle(c, p.asks);
    }
  }

  // ----- what a pass and a start do, said of the world -----

  /** The pass will try this URL: it was waiting, or layout asks for it and it is not
      empty, not loaded, and not requested before. */
  ghost predicate Tries(c: Core, p: Pass, u: Url) {
    u in c.pending || (u in p.asks && u != "" && u !in c.loaded && u !in c.requested)
  }

  /** Some URL it tries has bytes. */
  ghost predicate HasBytes(c: Core, p: Pass) { exists u :: u in p.answers && Tries(c, p, u) }

  /** The display list is what was drawn, with the images that were there then. */
  ghost predicate ShowsDrawing(o: Outcome, job: RenderJob, images: set<Url>) {
    && o.Sent? && o.output.Rendered?
    && var f := o.output.frame;
       && f.id == job.id && f.html == job.html && f.load == job.load && f.images == images
       && f.width == if job.width < 1.0 then 1.0 else job.width
  }

  /** A pass that does not parse fails the job. One that does goes again exactly when
      it is the first of the two and some bytes came, and sends what it drew otherwise;
      bytes that decode make images, on the first pass alone. */
  ghost predicate PassDoes(c: Core, job: RenderJob, passes: nat, p: Pass, r: Core, o: Outcome) {
    && (!p.parsed ==> o == Sent(Failed(job.id)) && r.loaded == c.loaded)
    && (p.parsed && passes == 0 ==>
          && (o.Again? <==> HasBytes(c, p))
          && (forall u :: u in r.loaded <==> u in c.loaded || (Tries(c, p, u) && u in p.answers && p.answers[u]))
          && (forall u :: u in r.tried <==> u in c.tried || Tries(c, p, u)))
    && (p.parsed && passes > 0 ==> !o.Again? && r.loaded == c.loaded && r.tried == c.tried)
    && (p.parsed && !o.Again? ==> ShowsDrawing(o, job, c.loaded))
    && (p.parsed ==> r.pending == [])
    && (forall u :: u in r.requested <==> u in c.requested || (u in p.asks && u != "" && u !in c.loaded))
    && r.resetNext == c.resetNext && r.clearedLoad == c.clearedLoad
  }

  lemma {:induction false} RequestsNew(c: Core, asks: seq<Url>)
    ensures var r := RequestAll(c, asks);
            && r == c.(pending := r.pending, requested := r.requested)
            && (forall u :: u in r.requested <==> u in c.requested || (u in asks && u != "" && u !in c.loaded))
            && (forall u :: u in r.pending <==>
                  u in c.pending || (u in asks && u != "" && u !in c.loaded && u !in c.requested))
  {
    if asks != [] {
      RequestsNew(c, asks[..|asks| - 1]);
      assert asks == asks[..|asks| - 1] + [asks[|asks| - 1]];
    }
  }

  lemma WorkDoesAPass(c: Core, job: RenderJob, passes: nat, p: Pass)
    requires passes < MAX_PASSES
    ensures PassDoes(c, job, passes, p, Work(c, job, passes, p).0, Work(c, job, passes, p).1)
  {
    RequestsNew(c, p.asks);
  }

  ghost predicate GoesAgain(c: Core, p: Pass) { p.parsed && HasBytes(c, p) }

  /** A job is abandoned exactly when another id is read before a pass it comes to, and
      then leaves the flag. Otherwise it answers: it fails when a pass of it does not
      parse, and else shows the images that were there or that its first pass decoded. */
  ghost predicate RenderDoes(c: Core, job: RenderJob, ids: seq<nat>, world: seq<Pass>, r: Core, o: Outcome)
    requires |ids| == |world| == 2
  {
    var again := GoesAgain(c, world[0]);
    && (o.Abandoned? <==> ids[0] != job.id || (again && ids[1] != job.id))
    && r.resetNext == (o.Abandoned? || c.resetNext)
    && (!o.Abandoned? ==>
          && o.Sent?
          && (o == Sent(Failed(job.id)) <==> !world[0].parsed || (again && !world[1].parsed))
          && (o.output.Failed? ==> o.output.failedId == job.id)
          && (o.output.Rendered? ==>
                && ShowsDrawing(o, job, o.output.frame.images)
                && forall u :: u in o.output.frame.images <==>
                     u in c.loaded || (again && Tries(c, world[0], u) && u in world[0].answers && world[0].answers[u])))
  }

  lemma RenderFromDoes(c: Core, job: RenderJob, ids: seq<nat>, world: seq<Pass>)
    requires |ids| == |world| == 2
    ensures var (r, o) := RenderFrom(c, job, 0, ids, world); RenderDoes(c, job, ids, world, r, o)
  {
    var (mid, first) := Work(c, job, 0, world[0]);
    WorkDoesAPass(c, job, 0, world[0]);
    if ids[0] == job.id && first.Again? {
      WorkDoesAPass(mid, job, 1, world[1]);
      assert RenderFrom(c, job, 0, ids, world) == RenderFrom(mid, job, 1, ids[1..], world[1..]);
    }
  }

  /** A job forgets what was requested exactly when it asks for it or an abandoned job
      before it left the flag; the flag is spent unless the job asks itself. Images
      stay in any case. */
  ghost predicate StartDoes(c: Core, job: RenderJob, r: Core) {
    && r.loaded == c.loaded
    && (job.resetImages || c.resetNext ==> 
          r.pending == [] && r.requested == {} && r.tried == {} && r.clearedLoad == job.load)
    && (!job.resetImages && !c.resetNext ==> r == c)
    && (r.resetNext <==> c.resetNext && job.resetImages)
  }

  lemma StartIsRight(c: Core, job: RenderJob)
    ensures StartDoes(c, job, Start(c, job))
  {
  }

  // ----- the imperative form -----

  predicate AnyReset(jobs: seq<RenderJob>) { exists i :: 0 <= i < |jobs| && jobs[i].resetImages }

  /** Keeps the newest of the queued jobs; a reset asked for by any of them survives. */
  method NewestJob(jobs: seq<RenderJob>) returns (newest: Option<RenderJob>)
    ensures jobs == [] <==> newest.None?
    ensures jobs != [] ==> newest.value == jobs[|jobs| - 1].(resetImages := AnyReset(jobs))
  {
    newest := None;
    var resetImages := false;
    for i := 0 to |jobs|
      invariant i == 0 <==> newest.None?
      invariant i > 0 ==> newest == Some(jobs[i - 1])
      invariant resetImages == AnyReset(jobs[..i])
    {
      assert jobs[..i + 1] == jobs[..i] + [jobs[i]];
      if jobs[i].resetImages {
        assert jobs[..i + 1][i].resetImages;
      }
      assert AnyReset(jobs[..i]) ==> AnyReset(jobs[..i + 1]) by {
        if AnyReset(jobs[..i]) {
          var k :| 0 <= k < i && jobs[..i][k].resetImages;
          assert jobs[..i + 1][k].resetImages;
        }
      }
      resetImages := resetImages || jobs[i].resetImages;
      newest := Some(jobs[i]);
    }
    assert jobs[..|jobs|] == jobs;
    if newest.Some? {
      newest := Some(newest.value.(resetImages := resetImages));
    }
  }

  /** The image fields of `D2dContainer`. An image's key is its place in `imageData`. */
  class Container {
    var images: map<Url, nat>
    var imageData: seq<Url>
    var pendingImages: seq<Url>
    var requestedImages: set<Url>
    var tried: set<Url>  // history

    ghost predicate Valid()
      reads this
    {
      && (forall u :: u in images ==> images[u] < |imageData| && imageData[images[u]] == u)
      && (forall i :: 0 <= i < |imageData| ==> imageData[i] in images && images[imageData[i]] == i)
    }

    function View(resetNext: bool, clearedLoad: nat): Core
      reads this
    {
      Core(images.Keys, pendingImages, requestedImages, resetNext, tried, clearedLoad)
    }

    constructor ()
      ensures Valid() && View(false, 0) == NEW_CORE
    {
      images, imageData, pendingImages, requestedImages, tried := map[], [], [], {}, {};
    }

    method LoadImage(src: Url)
      requires Valid()
      modifies `pendingImages, `requestedImages
      ensures Valid()
      ensures forall r, l :: View(r, l) == Request(old(View(r, l)), src)
    {
      if src == "" || src in images || src in requestedImages {
        return;
      }
      requestedImages := requestedImages + {src};
      pendingImages := pendingImages + [src];
    }

    /** One layout, which calls back for each image it meets. */
    method DrawPass(asks: seq<Url>)
      requires Valid()
      modifies `pendingImages, `requestedImages
      ensures Valid()
      ensures forall r, l :: View(r, l) == RequestAll(old(View(r, l)), asks)
    {
      for i := 0 to |asks|
        invariant Valid()
        invariant forall r, l :: View(r, l) == RequestAll(old(View(r, l)), asks[..i])
      {
        assert asks[..i + 1][..i] == asks[..i];
        LoadImage(asks[i]);
      }
      assert asks[..|asks|] == asks;
    }

    method LoadImageData(url: Url, decodes: bool)
      requires Valid()
      modifies `images, `imageData
      ensures Valid()
      ensures images.Keys == old(images.Keys) + if decodes then {url} else {}
      ensures old(imageData) <= imageData
      ensures forall u :: u in old(images) ==> u in images && images[u] == old(images[u])
    {
      if url in images {
        return;
      }
      if !decodes {
        return;
      }
      images := images[url := |imageData|];
      imageData := imageData + [url];
    }

    /** One URL of the worker's loop: `bytes` says whether what was had decodes. */
    method TryUrl(url: Url, bytes: Option<bool>) returns (had: bool)
      requires Valid()
      modifies `images, `imageData, `tried
      ensures Valid() && had == bytes.Some?
      ensures forall r, l :: View(r, l) ==
                old(View(r, l)).(loaded := old(images.Keys) + (if bytes == Some(true) then {url} else {}),
                                 tried := old(tried) + {url})
    {
      had := bytes.Some?;
      if had {
        LoadImageData(url, bytes.value);
      }
      tried := tried + {url};
    }

    method ClearPendingImages()
      requires Valid()
      modifies `pendingImages, `requestedImages, `tried
      ensures Valid() && pendingImages == [] && requestedImages == {} && tried == {}
    {
      pendingImages, requestedImages, tried := [], {}, {};
    }

    method TakePendingImages() returns (taken: seq<Url>)
      requires Valid()
      modifies `pendingImages
      ensures Valid() && taken == old(pendingImages) && pendingImages == []
    {
      taken := pendingImages;
      pendingImages := [];
    }
  }

  class Worker {
    const engine: Container
    var resetImagesNext: bool
    var clearedLoad: nat  // history

    function View(): Core
      reads this, engine
    {
      engine.View(resetImagesNext, clearedLoad)
    }

    ghost predicate Valid()
      reads this, engine
    {
      engine.Valid()
    }

    constructor ()
      ensures Valid() && View() == NEW_CORE && fresh(engine)
    {
      engine := new Container();
      resetImagesNext, clearedLoad := false, 0;
    }

    /** Forgets the requests when the job, or an abandoned one before it, asks for it. */
    method Begin(job: RenderJob)
      requires Valid()
      modifies this, engine
      ensures Valid() && View() == Start(old(View()), job)
      ensures StartDoes(old(View()), job, View())
    {
      var reset := job.resetImages;
      if !reset {
        reset := resetImagesNext;
        resetImagesNext := false;
      }
      if reset {
        engine.ClearPendingImages();
        clearedLoad := job.load;
      }
    }

    /** The body of the loop, past the check. */
    method OnePass(job: RenderJob, passes: nat, p: Pass) returns (outcome: Outcome)
      requires Valid() && passes < MAX_PASSES
      modifies engine
      ensures Valid() && (View(), outcome) == Work(old(View()), job, passes, p)
      ensures PassDoes(old(View()), job, passes, p, View(), outcome)
    {
      WorkDoesAPass(View(), job, passes, p);
      engine.DrawPass(p.asks);
      var drawn := engine.images.Keys;
      if !p.parsed {
        return Sent(Failed(job.id));
      }
      var pending := engine.TakePendingImages();
      if pending == [] || passes + 1 == MAX_PASSES {
        return Sent(Rendered(FrameOf(View(), job, drawn)));
      }
      var loaded := LoadAll(pending, p.answers);
      outcome := if loaded then Again else Sent(Rendered(FrameOf(View(), job, drawn)));
    }

    /** `ids` are the values the checks read from `latest_id`; the UI thread may
        change it between two of them. */
    method Render(job: RenderJob, ids: seq<nat>, world: seq<Pass>) returns (outcome: Outcome)
      requires Valid() && |ids| == |world| == MAX_PASSES
      modifies this, engine
      ensures Valid()
      ensures (View(), outcome) == RenderFrom(Start(old(View()), job), job, 0, ids, world)
      ensures RenderDoes(Start(old(View()), job), job, ids, world, View(), outcome)
    {
      Begin(job);
      ghost var started := View();
      RenderFromDoes(started, job, ids, world);
      var passes := 0;
      outcome := Again;
      while passes < MAX_PASSES
        invariant 0 <= passes <= MAX_PASSES && Valid()
        invariant passes < MAX_PASSES ==>
                    RenderFrom(View(), job, passes, ids[passes..], world[passes..]) ==
                        RenderFrom(started, job, 0, ids, world)
        invariant passes < MAX_PASSES ==> outcome.Again?
        invariant passes == MAX_PASSES ==>
                    (View(), outcome) == RenderFrom(started, job, 0, ids, world) && !outcome.Again?
      {
        assert ids[passes..][1..] == ids[passes + 1..] && world[passes..][1..] == world[passes + 1..];
        if ids[passes] != job.id {
          resetImagesNext := true;
          return Abandoned;
        }
        outcome := OnePass(job, passes, world[passes]);
        if !outcome.Again? {
          return;
        }
        passes := passes + 1;
      }
    }

    /** Decodes or fetches each pending URL and hands the bytes to the engine. */
    method LoadAll(pending: seq<Url>, answers: map<Url, bool>) returns (loaded: bool)
      requires Valid()
      modifies engine
      ensures Valid()
      ensures View() == FetchAll(old(View()), pending, answers)
      ensures loaded == AnyFetched(pending, answers)
    {
      loaded := false;
      for i := 0 to |pending|
        invariant Valid()
        invariant View() == FetchAll(old(View()), pending[..i], answers)
        invariant loaded == AnyFetched(pending[..i], answers)
      {
        var url := pending[i];
        FetchOneMore(old(View()), pending[..i], url, answers);
        assert pending[..i + 1] == pending[..i] + [url];
        var had := engine.TryUrl(url, if url in answers then Some(answers[url]) else None);
        loaded := loaded || had;
      }
      assert pending[..|pending|] == pending;
    }

  }
}
