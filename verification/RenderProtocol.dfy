/** The UI thread, the worker thread, the atomic `latest_id` and the two channels
    between them, as a step relation. Every shared access is a step of its own:
    the store to `latest_id`, the send of the job, each read by the worker's
    check, each output sent, each output received. */
module RenderProtocol {
  import opened Basics
  import opened RenderEngine

  /** The image URLs a document asks for, as a function of its HTML and width. */
  type DocumentUrls = (Html, real) -> set<Url>

  /** `loads` is history: how often `load` was called. */
  datatype Widget = Widget(html: Html, submittedId: nat, requestedWidth: real, resetImages: bool,
                           dirty: bool, failed: bool, frame: Option<Frame>, loads: nat)
  {
    predicate IsReady() { frame.Some? && frame.value.id == submittedId }
  }

  datatype Ui = Idle | Stored(width: real) | Polling

  datatype Phase = Waiting | Checking(job: RenderJob, passes: nat) | Drawing(job: RenderJob, passes: nat)

  datatype Fate = Running | Collapsed | Superseded | Answered(at: nat)

  /** `jobs` and `sent` hold everything ever put into the channels; the queue is
      `jobs[taken..]`, the output channel `sent[received..]`. `fates`, `pages` and
      `painted` are history: what became of each job taken, each page loaded, and the
      width of the last paint. */
  datatype State = State(widget: Widget, ui: Ui, latest: nat,
                         jobs: seq<RenderJob>, taken: nat,
                         core: Core, phase: Phase,
                         sent: seq<Output>, received: nat,
                         fates: seq<Fate>, pages: seq<Html>, painted: real)

  // ----- the widget -----

  function NewWidget(html: Html): Widget { Widget(html, 0, 0.0, false, true, false, None, 0) }

  function Load(w: Widget, html: Html): Widget {
    w.(html := html, frame := None, failed := false, resetImages := true, dirty := true, loads := w.loads + 1)
  }

  predicate NeedsSubmit(w: Widget, width: real) {
    w.dirty || width - w.requestedWidth > 0.5 || w.requestedWidth - width > 0.5
  }

  function NextJob(w: Widget, width: real): RenderJob {
    RenderJob(w.submittedId, w.html, width, w.resetImages, w.loads)
  }

  function Submitted(w: Widget, width: real): Widget {
    w.(resetImages := false, requestedWidth := width, dirty := false)
  }

  function Receive(w: Widget, o: Output): Widget {
    match o
    case Rendered(f) => if f.id == w.submittedId then w.(frame := Some(f)) else w
    case Failed(id) => if id == w.submittedId then w.(failed := true) else w
  }

  function ReceiveAll(w: Widget, inbox: seq<Output>): Widget
    decreases |inbox|
  {
    if inbox == [] then w else ReceiveAll(Receive(w, inbox[0]), inbox[1..])
  }

  // ----- steps -----

  /** Records what became of the job the worker was on. */
  function Settle(fates: seq<Fate>, fate: Fate): seq<Fate> {
    if fates == [] then [] else fates[|fates| - 1 := fate]
  }

  ghost predicate Init(s: State) {
    exists html :: s == State(NewWidget(html), Idle, 0, [], 0, NEW_CORE, Waiting, [], 0, [], [html], 0.0)
  }

  ghost predicate LoadStep(s: State, t: State, html: Html) {
    s.ui.Idle? && t == s.(widget := Load(s.widget, html), pages := s.pages + [html])
  }

  /** A paint begins; when a submit is due it stores the new id first. */
  ghost predicate PaintStep(s: State, t: State, width: real) {
    && s.ui.Idle? && width >= 1.0
    && t == if NeedsSubmit(s.widget, width) then
              s.(widget := s.widget.(submittedId := s.widget.submittedId + 1), latest := s.widget.submittedId + 1,
                  ui := Stored(width), painted := width)
            else s.(ui := Polling, painted := width)
  }

  ghost predicate SendStep(s: State, t: State) {
    && s.ui.Stored?
    && t == s.(jobs := s.jobs + [NextJob(s.widget, s.ui.width)], widget := Submitted(s.widget, s.ui.width),
        ui := Polling)
  }

  ghost predicate PollStep(s: State, t: State) {
    && s.ui.Polling?
    && t == if s.received < |s.sent| then
              s.(widget := Receive(s.widget, s.sent[s.received]), received := s.received + 1)
            else s.(ui := Idle)
  }

  /** The worker takes the `n` oldest queued jobs, keeps the newest and starts it. */
  ghost predicate TakeStep(s: State, t: State, n: nat) {
    && s.phase.Waiting? && 1 <= n && s.taken + n <= |s.jobs|
    && var batch := s.jobs[s.taken..s.taken + n];
       var job := batch[n - 1].(resetImages := AnyReset(batch));
       t == s.(taken := s.taken + n, core := Start(s.core, job), phase := Checking(job, 0),
               fates := s.fates + seq(n - 1, _ => Collapsed) + [Running])
  }

  function Checked(s: State): State
    requires s.phase.Checking?
  {
    if s.latest != s.phase.job.id then
      s.(core := Abandon(s.core), phase := Waiting, fates := Settle(s.fates, Superseded))
    else s.(phase := Drawing(s.phase.job, s.phase.passes))
  }

  ghost predicate CheckStep(s: State, t: State) { s.phase.Checking? && t == Checked(s) }

  function Drawn(s: State, p: Pass): State
    requires s.phase.Drawing?
  {
    var job := s.phase.job;
    var (core, outcome) := Work(s.core, job, s.phase.passes, p);
    if outcome.Sent? then
      s.(core := core, phase := Waiting, sent := s.sent + [outcome.output],
         fates := Settle(s.fates, Answered(|s.sent|)))
    else s.(core := core, phase := Checking(job, s.phase.passes + 1))
  }

  ghost predicate DrawStep(urls: DocumentUrls, s: State, t: State, p: Pass) {
    && s.phase.Drawing?
    && (p.parsed ==> (set u | u in p.asks) == urls(s.phase.job.html, Max(s.phase.job.width, 1.0)))
    && t == Drawn(s, p)
  }

  ghost predicate Next(urls: DocumentUrls, s: State, t: State) {
    || (exists html :: LoadStep(s, t, html))
    || (exists width :: PaintStep(s, t, width))
    || SendStep(s, t)
    || PollStep(s, t)
    || (exists n :: TakeStep(s, t, n))
    || CheckStep(s, t)
    || (exists p :: DrawStep(urls, s, t, p))
  }

  ghost predicate StepAt(urls: DocumentUrls, run: seq<State>, i: nat)
    requires i + 1 < |run|
  {
    Next(urls, run[i], run[i + 1])
  }

  ghost predicate IsRun(urls: DocumentUrls, run: seq<State>) {
    && |run| > 0 && Init(run[0])
    && forall i :: 0 <= i < |run| - 1 ==> StepAt(urls, run, i)
  }

  // ----- the invariant -----

  /** The load of the last of the first `i` jobs. */
  function LoadBefore(jobs: seq<RenderJob>, i: nat): nat
    requires i <= |jobs|
  {
    if i == 0 then 0 else jobs[i - 1].load
  }

  ghost predicate Resets(jobs: seq<RenderJob>, i: nat)
    requires i < |jobs|
  {
    && LoadBefore(jobs, i) <= jobs[i].load
    && jobs[i].resetImages == (LoadBefore(jobs, i) < jobs[i].load)
  }

  /** Ids count the submits, and a job asks for a reset exactly when a page was
      loaded since the submit before it. */
  ghost predicate JobsInv(s: State) {
    && s.taken <= |s.jobs|
    && s.widget.submittedId == |s.jobs| + (if s.ui.Stored? then 1 else 0)
    && s.latest == s.widget.submittedId
    && (forall i :: 0 <= i < |s.jobs| ==> s.jobs[i].id == i + 1)
    && (forall i :: 0 <= i < |s.jobs| ==> s.jobs[i].load <= s.widget.loads)
    && (forall i :: 0 <= i < |s.jobs| ==> Resets(s.jobs, i))
    && s.widget.resetImages == (LoadBefore(s.jobs, |s.jobs|) < s.widget.loads)
  }

  /** Which page each job, and the widget, is about. */
  ghost predicate PagesInv(s: State) {
    && |s.pages| == s.widget.loads + 1
    && s.widget.html == s.pages[s.widget.loads]
    && (forall i :: 0 <= i < |s.jobs| ==> s.jobs[i].load < |s.pages| && s.jobs[i].html == s.pages[s.jobs[i].load])
    && (s.widget.dirty ==> s.widget.frame.None? && !s.widget.failed && !s.ui.Polling?)
    && (!s.widget.dirty ==> s.jobs != [] && LoadBefore(s.jobs, |s.jobs|) == s.widget.loads)
    && (!s.widget.dirty && !s.ui.Stored? ==> s.jobs[|s.jobs| - 1].width == s.widget.requestedWidth)
    && (s.widget.frame.Some? ==> s.widget.frame.value.load == s.widget.loads)
    && (forall i :: 0 <= i < |s.jobs| ==> s.jobs[i].width >= 1.0)
    && (s.ui.Stored? ==> s.ui.width >= 1.0)
  }

  /** The width asked for is within half a pixel of the one last painted. */
  ghost predicate WidthInv(s: State) {
    && (s.ui.Stored? ==> s.ui.width == s.painted)
    && (!s.widget.dirty && !s.ui.Stored? ==> -0.5 <= s.widget.requestedWidth - s.painted <= 0.5)
  }

  /** The job the worker is on is the last one taken, past any reset it needed. */
  ghost predicate WorkerPart(urls: DocumentUrls, jobs: seq<RenderJob>, taken: nat, core: Core, phase: Phase) {
    && taken <= |jobs|
    && core.clearedLoad == LoadBefore(jobs, taken)
    && Accounted(core)
    && (!phase.Waiting? ==>
          && taken > 0 && phase.passes <= 1
          && phase.job == jobs[taken - 1].(resetImages := phase.job.resetImages))
    && (!phase.Waiting? && phase.passes == 1 ==>
          var asked := urls(phase.job.html, Max(phase.job.width, 1.0));
          && core.pending == []
          && Covers(core.loaded, core.tried, asked)
          && forall u :: u in asked && u != "" ==> u in core.loaded || u in core.requested)
  }

  ghost predicate WorkerInv(urls: DocumentUrls, s: State) { WorkerPart(urls, s.jobs, s.taken, s.core, s.phase) }

  /** Every frame sent answers a job taken, shows that job's page, and has each of
      its images loaded or tried since the reset its load asked for. */
  ghost predicate GoodFrame(urls: DocumentUrls, jobs: seq<RenderJob>, taken: nat, f: Frame) {
    && 1 <= f.id <= taken <= |jobs|
    && var job := jobs[f.id - 1];
       && f.html == job.html && f.load == job.load && f.width == Max(job.width, 1.0)
       && f.clearedLoad == f.load
       && Covers(f.images, f.tried, urls(f.html, f.width))
  }

  ghost predicate OutputsPart(urls: DocumentUrls, jobs: seq<RenderJob>, taken: nat, sent: seq<Output>) {
    forall k :: 0 <= k < |sent| && sent[k].Rendered? ==> GoodFrame(urls, jobs, taken, sent[k].frame)
  }

  ghost predicate OutputsInv(urls: DocumentUrls, s: State) {
    s.received <= |s.sent| && OutputsPart(urls, s.jobs, s.taken, s.sent)
  }

  /** What became of each job taken so far. */
  ghost predicate FatesPart(fates: seq<Fate>, taken: nat, waiting: bool, latest: nat, sent: seq<Output>) {
    && |fates| == taken
    && (forall i :: 0 <= i < taken ==> (fates[i].Running? <==> !waiting && i == taken - 1))
    && (forall i :: 0 <= i < taken && fates[i].Collapsed? ==> i + 1 < taken)
    && (forall i :: 0 <= i < taken && fates[i].Superseded? ==> i + 1 < latest)
    && (forall i :: 0 <= i < taken && fates[i].Answered? ==> fates[i].at < |sent| && sent[fates[i].at].Id() == i + 1)
    && (forall k :: 0 <= k < |sent| ==> AnswersItsJob(fates, taken, sent, k))
  }

  ghost predicate AnswersItsJob(fates: seq<Fate>, taken: nat, sent: seq<Output>, k: nat)
    requires |fates| == taken && k < |sent|
  {
    1 <= sent[k].Id() <= taken && fates[sent[k].Id() - 1] == Answered(k)
  }

  ghost predicate FatesInv(s: State) { FatesPart(s.fates, s.taken, s.phase.Waiting?, s.latest, s.sent) }

  ghost predicate Holds(w: Widget, o: Output) {
    match o
    case Rendered(f) => w.frame == Some(f)
    case Failed(_) => w.failed
  }

  ghost predicate HoldsReceivedFrame(s: State) {
    s.widget.frame.Some? ==>
      exists k :: 0 <= k < s.received <= |s.sent| && s.sent[k] == Rendered(s.widget.frame.value)
  }

  ghost predicate HoldsAnswer(s: State) {
    !s.widget.dirty && !s.ui.Stored? ==>
      forall k :: 0 <= k < s.received <= |s.sent| && s.sent[k].Id() == s.widget.submittedId ==>
          Holds(s.widget, s.sent[k])
  }

  /** What the widget holds is what it received for the newest id. */
  ghost predicate ReceivedInv(s: State) { HoldsReceivedFrame(s) && HoldsAnswer(s) }

  ghost predicate Inv(urls: DocumentUrls, s: State) {
    && JobsInv(s) && PagesInv(s) && WorkerInv(urls, s) && OutputsInv(urls, s) && FatesInv(s) && ReceivedInv(s)
    && WidthInv(s)
  }

  // ----- each step keeps it -----

  lemma InitKeeps(urls: DocumentUrls, s: State)
    requires Init(s)
    ensures Inv(urls, s)
  {
  }

  /** What concerns the worker alone is untouched by the UI's steps. */
  lemma UiStepKeepsWorker(urls: DocumentUrls, s: State, t: State)
    requires WorkerInv(urls, s) && OutputsInv(urls, s) && FatesInv(s)
    requires t == s.(widget := t.widget, ui := t.ui, latest := t.latest, pages := t.pages, painted := t.painted)
    requires t.latest >= s.latest
    ensures WorkerInv(urls, t) && OutputsInv(urls, t) && FatesInv(t)
  {
  }

  lemma LoadKeeps(urls: DocumentUrls, s: State, t: State, html: Html)
    requires Inv(urls, s) && LoadStep(s, t, html)
    ensures Inv(urls, t)
  {
    UiStepKeepsWorker(urls, s, t);
    LoadKeepsUi(s, t, html);
  }

  lemma LoadKeepsUi(s: State, t: State, html: Html)
    requires JobsInv(s) && PagesInv(s) && ReceivedInv(s) && LoadStep(s, t, html)
    ensures JobsInv(t) && PagesInv(t) && ReceivedInv(t)
  {
  }

  lemma PaintKeeps(urls: DocumentUrls, s: State, t: State, width: real)
    requires Inv(urls, s) && PaintStep(s, t, width)
    ensures Inv(urls, t)
  {
    UiStepKeepsWorker(urls, s, t);
    PaintKeepsJobs(s, t, width);
    PaintKeepsReceived(s, t, width);
  }

  lemma PaintKeepsJobs(s: State, t: State, width: real)
    requires JobsInv(s) && PagesInv(s) && PaintStep(s, t, width)
    ensures JobsInv(t) && PagesInv(t)
  {
  }

  lemma PaintKeepsReceived(s: State, t: State, width: real)
    requires ReceivedInv(s) && PaintStep(s, t, width)
    ensures ReceivedInv(t)
  {
    if s.widget.frame.Some? {
      var k :| 0 <= k < s.received <= |s.sent| && s.sent[k] == Rendered(s.widget.frame.value);
      assert t.sent[k] == Rendered(t.widget.frame.value);
    }
  }

  lemma SendKeeps(urls: DocumentUrls, s: State, t: State)
    requires Inv(urls, s) && SendStep(s, t)
    ensures Inv(urls, t)
  {
    SendKeepsJobs(s, t);
    SendKeepsWorker(urls, s, t);
    SendKeepsReceived(s, t);
  }

  lemma SendKeepsWorker(urls: DocumentUrls, s: State, t: State)
    requires JobsInv(s) && WorkerInv(urls, s) && OutputsInv(urls, s) && FatesInv(s) && SendStep(s, t)
    ensures WorkerInv(urls, t) && OutputsInv(urls, t) && FatesInv(t)
  {
    assert forall i :: 0 <= i < |s.jobs| ==> t.jobs[i] == s.jobs[i];
    forall k | 0 <= k < |s.sent| && s.sent[k].Rendered?
      ensures GoodFrame(urls, t.jobs, t.taken, s.sent[k].frame)
    {
      assert GoodFrame(urls, s.jobs, s.taken, s.sent[k].frame);
    }
  }

  /** The id just stored is in no output yet: ids sent are those of jobs taken. */
  lemma SendKeepsReceived(s: State, t: State)
    requires JobsInv(s) && FatesInv(s) && ReceivedInv(s) && SendStep(s, t)
    ensures ReceivedInv(t)
  {
    if s.widget.frame.Some? {
      var k :| 0 <= k < s.received <= |s.sent| && s.sent[k] == Rendered(s.widget.frame.value);
      assert t.sent[k] == Rendered(t.widget.frame.value);
    }
    forall k | 0 <= k < |s.sent| ensures s.sent[k].Id() < t.widget.submittedId {
      assert AnswersItsJob(s.fates, s.taken, s.sent, k);
    }
  }

  lemma SendKeepsJobs(s: State, t: State)
    requires JobsInv(s) && PagesInv(s) && SendStep(s, t)
    ensures JobsInv(t) && PagesInv(t)
  {
    assert forall i :: 0 <= i < |s.jobs| ==> Resets(s.jobs, i) == Resets(t.jobs, i);
  }

  lemma PollKeeps(urls: DocumentUrls, s: State, t: State)
    requires Inv(urls, s) && PollStep(s, t)
    ensures Inv(urls, t)
  {
    PollKeepsRest(urls, s, t);
    if s.received < |s.sent| {
      PollKeepsPage(urls, s, t);
      PollKeepsFrame(s, t);
      PollKeepsAnswer(s, t);
    }
  }

  lemma PollKeepsRest(urls: DocumentUrls, s: State, t: State)
    requires JobsInv(s) && WorkerInv(urls, s) && OutputsInv(urls, s) && FatesInv(s) && PollStep(s, t)
    ensures JobsInv(t) && WorkerInv(urls, t) && OutputsInv(urls, t) && FatesInv(t)
  {
  }

  /** A paint polls only after any submit it owed, so the id it adopts belongs to
      the page loaded now. */
  lemma PollKeepsPage(urls: DocumentUrls, s: State, t: State)
    requires JobsInv(s) && PagesInv(s) && OutputsInv(urls, s)
    requires PollStep(s, t) && s.received < |s.sent|
    ensures PagesInv(t)
  {
    var o := s.sent[s.received];
    assert o.Rendered? ==> GoodFrame(urls, s.jobs, s.taken, o.frame);
  }

  lemma PollKeepsFrame(s: State, t: State)
    requires s.received < |s.sent| && HoldsReceivedFrame(s) && PollStep(s, t)
    ensures HoldsReceivedFrame(t)
  {
    if t.widget.frame.Some? {
      if t.widget.frame == s.widget.frame {
        var k :| 0 <= k < s.received <= |s.sent| && s.sent[k] == Rendered(s.widget.frame.value);
        assert t.sent[k] == Rendered(t.widget.frame.value);
      } else {
        assert t.sent[s.received] == Rendered(t.widget.frame.value);
      }
    }
  }

  /** Outputs carry distinct ids, so a later one cannot displace the newest answer. */
  lemma PollKeepsAnswer(s: State, t: State)
    requires s.received < |s.sent| && FatesInv(s) && HoldsAnswer(s) && PollStep(s, t)
    ensures HoldsAnswer(t)
  {
    var o := s.sent[s.received];
    assert AnswersItsJob(s.fates, s.taken, s.sent, s.received);
    if !t.widget.dirty {
      forall k | 0 <= k < t.received && t.sent[k].Id() == t.widget.submittedId ensures Holds(t.widget, t.sent[k]) {
        assert AnswersItsJob(s.fates, s.taken, s.sent, k);
        if k < s.received {
          assert Holds(s.widget, s.sent[k]) && o.Id() != t.widget.submittedId;
        }
      }
    }
  }

  /** The OR over the jobs dropped: the survivor resets exactly when some page
      was loaded since the last job before the batch. */
  lemma {:induction false} BatchReset(s: State, n: nat)
    requires JobsInv(s) && s.taken + n <= |s.jobs|
    ensures var batch := s.jobs[s.taken..s.taken + n];
            && LoadBefore(s.jobs, s.taken) <= LoadBefore(s.jobs, s.taken + n)
            && AnyReset(batch) == (LoadBefore(s.jobs, s.taken) < LoadBefore(s.jobs, s.taken + n))
  {
    if n > 0 {
      BatchReset(s, n - 1);
      var shorter, batch := s.jobs[s.taken..s.taken + n - 1], s.jobs[s.taken..s.taken + n];
      assert batch == shorter + [s.jobs[s.taken + n - 1]];
      assert Resets(s.jobs, s.taken + n - 1);
      if AnyReset(shorter) {
        var k :| 0 <= k < |shorter| && shorter[k].resetImages;
        assert batch[k].resetImages;
      }
      if s.jobs[s.taken + n - 1].resetImages {
        assert batch[n - 1].resetImages;
      }
    }
  }

  lemma TakeKeeps(urls: DocumentUrls, s: State, t: State, n: nat)
    requires Inv(urls, s) && TakeStep(s, t, n)
    ensures Inv(urls, t)
  {
    TakeKeepsWorker(urls, s, t, n);
    TakeKeepsFates(s, t, n);
    TakeKeepsUi(urls, s, t, n);
  }

  lemma TakeKeepsWorker(urls: DocumentUrls, s: State, t: State, n: nat)
    requires JobsInv(s) && WorkerInv(urls, s) && TakeStep(s, t, n)
    ensures WorkerInv(urls, t)
  {
    BatchReset(s, n);
    var batch := s.jobs[s.taken..s.taken + n];
    assert batch[n - 1] == s.jobs[t.taken - 1];
  }

  lemma TakeKeepsFates(s: State, t: State, n: nat)
    requires FatesInv(s) && TakeStep(s, t, n)
    ensures FatesInv(t)
  {
    assert forall i :: 0 <= i < s.taken ==> t.fates[i] == s.fates[i];
    forall k | 0 <= k < |s.sent| ensures AnswersItsJob(t.fates, t.taken, t.sent, k) {
      assert AnswersItsJob(s.fates, s.taken, s.sent, k);
    }
  }

  lemma TakeKeepsUi(urls: DocumentUrls, s: State, t: State, n: nat)
    requires JobsInv(s) && PagesInv(s) && OutputsInv(urls, s) && ReceivedInv(s) && TakeStep(s, t, n)
    ensures JobsInv(t) && PagesInv(t) && OutputsInv(urls, t) && ReceivedInv(t)
  {
  }

  lemma CheckKeeps(urls: DocumentUrls, s: State, t: State)
    requires Inv(urls, s) && CheckStep(s, t)
    ensures Inv(urls, t)
  {
    CheckKeepsFates(urls, s, t);
    CheckKeepsUi(urls, s, t);
    CheckKeepsWorker(urls, s, t);
  }

  lemma CheckKeepsFates(urls: DocumentUrls, s: State, t: State)
    requires JobsInv(s) && WorkerInv(urls, s) && FatesInv(s) && CheckStep(s, t)
    ensures FatesInv(t)
  {
    if t.phase.Waiting? {
      var last := s.taken - 1;
      assert s.fates[last].Running? && t.fates == s.fates[last := Superseded];
      forall k | 0 <= k < |s.sent| ensures AnswersItsJob(t.fates, t.taken, t.sent, k) {
        assert AnswersItsJob(s.fates, s.taken, s.sent, k);
      }
    }
  }

  lemma CheckKeepsUi(urls: DocumentUrls, s: State, t: State)
    requires JobsInv(s) && PagesInv(s) && OutputsInv(urls, s) && ReceivedInv(s) && CheckStep(s, t)
    ensures JobsInv(t) && PagesInv(t) && OutputsInv(urls, t) && ReceivedInv(t)
  {
  }

  lemma CheckKeepsWorker(urls: DocumentUrls, s: State, t: State)
    requires JobsInv(s) && WorkerInv(urls, s) && CheckStep(s, t)
    ensures WorkerInv(urls, t)
  {
  }

  lemma DrawKeeps(urls: DocumentUrls, s: State, t: State, p: Pass)
    requires Inv(urls, s) && DrawStep(urls, s, t, p)
    ensures Inv(urls, t)
  {
    DrawKeepsWorker(urls, s, t, p);
    DrawKeepsOutputs(urls, s, t, p);
    DrawKeepsFates(urls, s, t, p);
    DrawKeepsUi(urls, s, t, p);
  }

  lemma DrawKeepsUi(urls: DocumentUrls, s: State, t: State, p: Pass)
    requires JobsInv(s) && PagesInv(s) && DrawStep(urls, s, t, p)
    ensures JobsInv(t) && PagesInv(t)
  {
  }

  lemma DrawKeepsWorker(urls: DocumentUrls, s: State, t: State, p: Pass)
    requires JobsInv(s) && WorkerInv(urls, s) && DrawStep(urls, s, t, p)
    ensures WorkerInv(urls, t)
  {
    WorkKeepsImages(s.core, s.phase.job, s.phase.passes, p, urls(s.phase.job.html, Max(s.phase.job.width, 1.0)));
  }

  lemma DrawKeepsOutputs(urls: DocumentUrls, s: State, t: State, p: Pass)
    requires JobsInv(s) && WorkerInv(urls, s) && OutputsInv(urls, s)
    requires DrawStep(urls, s, t, p)
    ensures OutputsInv(urls, t)
  {
    WorkKeepsImages(s.core, s.phase.job, s.phase.passes, p, urls(s.phase.job.html, Max(s.phase.job.width, 1.0)));
    assert forall k :: 0 <= k < |s.sent| ==> t.sent[k] == s.sent[k];
  }

  lemma DrawKeepsFates(urls: DocumentUrls, s: State, t: State, p: Pass)
    requires JobsInv(s) && WorkerInv(urls, s) && FatesInv(s) && ReceivedInv(s)
    requires OutputsInv(urls, s) && DrawStep(urls, s, t, p)
    ensures FatesInv(t) && ReceivedInv(t)
  {
    WorkKeepsImages(s.core, s.phase.job, s.phase.passes, p, urls(s.phase.job.html, Max(s.phase.job.width, 1.0)));
    var outcome := Work(s.core, s.phase.job, s.phase.passes, p).1;
    if outcome.Sent? {
      AnswerKeepsFates(s, t, outcome.output);
      AnswerKeepsReceived(s, t, outcome.output);
    }
  }

  lemma AnswerKeepsFates(s: State, t: State, o: Output)
    requires JobsInv(s) && FatesInv(s)
    requires !s.phase.Waiting? && o.Id() == s.taken > 0
    requires t == s.(core := t.core, phase := Waiting, sent := s.sent + [o],
        fates := Settle(s.fates, Answered(|s.sent|)))
    ensures FatesInv(t)
  {
    var last := s.taken - 1;
    assert s.taken > 0 && s.fates[last].Running?;
    forall i | 0 <= i < last
      ensures t.fates[i] == s.fates[i] && !s.fates[i].Running?
    {
    }
    forall k | 0 <= k < |t.sent|
      ensures AnswersItsJob(t.fates, t.taken, t.sent, k)
    {
      if k < |s.sent| {
        assert t.sent[k] == s.sent[k] && AnswersItsJob(s.fates, s.taken, s.sent, k);
      }
    }
  }

  lemma AnswerKeepsReceived(s: State, t: State, o: Output)
    requires ReceivedInv(s) && s.received <= |s.sent|
    requires t == s.(core := t.core, phase := t.phase, sent := s.sent + [o], fates := t.fates)
    ensures ReceivedInv(t)
  {
    assert forall k :: 0 <= k < s.received ==> t.sent[k] == s.sent[k];
    if s.widget.frame.Some? {
      var k :| 0 <= k < s.received <= |s.sent| && s.sent[k] == Rendered(s.widget.frame.value);
      assert t.sent[k] == Rendered(t.widget.frame.value);
    }
  }

  lemma NextKeeps(urls: DocumentUrls, s: State, t: State)
    requires Inv(urls, s) && Next(urls, s, t)
    ensures Inv(urls, t)
  {
    if html :| LoadStep(s, t, html) {
      LoadKeeps(urls, s, t, html);
    } else if width :| PaintStep(s, t, width) {
      PaintKeeps(urls, s, t, width);
    } else if SendStep(s, t) {
      SendKeeps(urls, s, t);
    } else if PollStep(s, t) {
      PollKeeps(urls, s, t);
    } else if n :| TakeStep(s, t, n) {
      TakeKeeps(urls, s, t, n);
    } else if CheckStep(s, t) {
      CheckKeeps(urls, s, t);
    } else {
      var p :| DrawStep(urls, s, t, p);
      DrawKeeps(urls, s, t, p);
    }
  }

  lemma {:induction false} RunKeeps(urls: DocumentUrls, run: seq<State>, i: nat)
    requires IsRun(urls, run) && i < |run|
    ensures Inv(urls, run[i])
  {
    if i == 0 {
      InitKeeps(urls, run[0]);
    } else {
      RunKeeps(urls, run, i - 1);
      assert StepAt(urls, run, i - 1);
      NextKeeps(urls, run[i - 1], run[i]);
    }
  }

  // ----- what every run promises -----

  /** Whatever the interleaving, the page on screen is the page last loaded. */
  lemma FrameShowsLoadedPage(urls: DocumentUrls, run: seq<State>, i: nat)
    requires IsRun(urls, run) && i < |run|
    ensures var w := run[i].widget;
            w.frame.Some? ==> w.frame.value.html == w.html && w.frame.value.load == w.loads
  {
    RunKeeps(urls, run, i);
    var s := run[i];
    if s.widget.frame.Some? {
      var k :| 0 <= k < s.received <= |s.sent| && s.sent[k] == Rendered(s.widget.frame.value);
      assert GoodFrame(urls, s.jobs, s.taken, s.sent[k].frame);
    }
  }

  /** A reset asked for by `load` reaches the worker before the page's first
      frame, and every frame sent has each image URL of its document loaded, or
      tried since that reset. */
  lemma ResetIsNeverLost(urls: DocumentUrls, run: seq<State>, i: nat, k: nat)
    requires IsRun(urls, run) && i < |run|
    requires k < |run[i].sent| && run[i].sent[k].Rendered?
    ensures var f := run[i].sent[k].frame;
            && f.load < |run[i].pages| && f.html == run[i].pages[f.load]
            && f.clearedLoad == f.load
            && forall u :: u in urls(f.html, f.width) && u != "" ==> u in f.images || u in f.tried
  {
    RunKeeps(urls, run, i);
    assert GoodFrame(urls, run[i].jobs, run[i].taken, run[i].sent[k].frame);
  }

  ghost predicate AnsweredOnce(s: State, id: nat) {
    exists k :: 0 <= k < |s.sent| && s.sent[k].Id() == id
                && forall j :: 0 <= j < |s.sent| && s.sent[j].Id() == id ==> j == k
  }

  ghost predicate Unanswered(s: State, id: nat) {
    forall k :: 0 <= k < |s.sent| ==> s.sent[k].Id() != id
  }

  lemma FateTells(s: State, id: nat)
    requires FatesInv(s) && 1 <= id <= s.taken
    ensures if s.fates[id - 1].Answered? then AnsweredOnce(s, id) else Unanswered(s, id)
  {
    forall j | 0 <= j < |s.sent| && s.sent[j].Id() == id ensures s.fates[id - 1] == Answered(j) {
      assert AnswersItsJob(s.fates, s.taken, s.sent, j);
    }
    if s.fates[id - 1].Answered? {
      assert s.sent[s.fates[id - 1].at].Id() == id;
    }
  }

  /** Every job taken is answered exactly once; or it was collapsed into a newer
      job of its batch, or dropped because a newer id was stored, or is still
      being worked on, and then it is not answered at all. */
  lemma EveryJobIsAccountedFor(urls: DocumentUrls, run: seq<State>, i: nat, id: nat)
    requires IsRun(urls, run) && i < |run| && 1 <= id <= run[i].taken
    ensures var s := run[i];
            && |s.fates| == s.taken
            && match s.fates[id - 1]
               case Answered(_) => AnsweredOnce(s, id)
               case Collapsed => Unanswered(s, id) && id < s.taken
               case Superseded => Unanswered(s, id) && id < s.latest
               case Running => Unanswered(s, id) && id == s.taken && !s.phase.Waiting?
  {
    RunKeeps(urls, run, i);
    FateTells(run[i], id);
  }

  /** Nothing is owed: the widget is clean, both channels are empty and the worker waits. */
  ghost predicate Quiet(s: State) {
    && s.ui.Idle? && !s.widget.dirty && s.phase.Waiting?
    && s.taken == |s.jobs| && s.received == |s.sent|
  }

  /** In a quiet state the newest submit has been answered, once, by its own id:
      the widget shows that frame, laid out at the width last asked for, or says it failed. */
  lemma NewestSubmitIsAnswered(urls: DocumentUrls, run: seq<State>, i: nat)
    requires IsRun(urls, run) && i < |run| && Quiet(run[i])
    ensures var s := run[i];
            && AnsweredOnce(s, s.widget.submittedId)
            && (s.widget.IsReady() ==>
                  && Rendered(s.widget.frame.value) in s.sent
                  && s.widget.frame.value.html == s.widget.html
                  && s.widget.frame.value.width == s.widget.requestedWidth
                  && -0.5 <= s.widget.frame.value.width - s.painted <= 0.5)
            && (!s.widget.IsReady() ==> s.widget.failed && Failed(s.widget.submittedId) in s.sent)
  {
    RunKeeps(urls, run, i);
    var s := run[i];
    var id := s.widget.submittedId;
    assert s.fates[id - 1].Answered?;
    EveryJobIsAccountedFor(urls, run, i, id);
    var k := s.fates[id - 1].at;
    assert Holds(s.widget, s.sent[k]);
    if s.sent[k].Rendered? {
      assert GoodFrame(urls, s.jobs, s.taken, s.sent[k].frame);
      FrameShowsLoadedPage(urls, run, i);
    }
  }

  /** The steps of one poll loop add up to receiving the whole channel. */
  lemma {:induction false} PollLoopReceivesAll(run: seq<State>)
    requires |run| > 0 && run[0].ui.Polling? && run[0].received <= |run[0].sent|
    requires forall i :: 0 <= i < |run| - 1 ==> PollStep(run[i], run[i + 1])
    requires run[|run| - 1].ui.Idle?
    ensures run[|run| - 1] == run[0].(widget := ReceiveAll(run[0].widget, run[0].sent[run[0].received..]),
                                      received := |run[0].sent|, ui := Idle)
  {
    var s := run[0];
    assert PollStep(run[0], run[0 + 1]);
    if s.received < |s.sent| {
      assert forall i :: 0 <= i < |run[1..]| - 1 ==> PollStep(run[1..][i], run[1..][i + 1]) by {
        forall i | 0 <= i < |run[1..]| - 1 ensures PollStep(run[1..][i], run[1..][i + 1]) {
          assert PollStep(run[i + 1], run[i + 1 + 1]);
        }
      }
      PollLoopReceivesAll(run[1..]);
      assert s.sent[s.received..][1..] == s.sent[s.received + 1..];
    } else {
      assert |run| > 2 ==> PollStep(run[1], run[1 + 1]);
    }
  }

  /** The worker's steps on one job, with whatever the UI stored before each check. */
  function Worked(s: State, ids: seq<nat>, world: seq<Pass>): State
    requires s.phase.Checking? && s.phase.passes < MAX_PASSES
    requires |ids| == |world| == MAX_PASSES - s.phase.passes
    decreases MAX_PASSES - s.phase.passes
  {
    var checked := Checked(s.(latest := ids[0]));
    if checked.phase.Waiting? then checked
    else
      var drawn := Drawn(checked, world[0]);
      if drawn.phase.Waiting? || drawn.phase.passes == MAX_PASSES then drawn
      else Worked(drawn, ids[1..], world[1..])
  }

  /** The checks and draws of the step relation add up to what `render` does with
      the whole job: the same image fields, and its output or none. */
  lemma {:induction false} StepsAddUpToRender(s: State, ids: seq<nat>, world: seq<Pass>)
    requires s.phase.Checking? && s.phase.passes < MAX_PASSES
    requires |ids| == |world| == MAX_PASSES - s.phase.passes
    ensures var (core, outcome) := RenderFrom(s.core, s.phase.job, s.phase.passes, ids, world);
            var t := Worked(s, ids, world);
            && t.phase.Waiting? && !outcome.Again? && t.core == core && t.widget == s.widget
            && t.sent == s.sent + if outcome.Sent? then [outcome.output] else []
    decreases MAX_PASSES - s.phase.passes
  {
    if ids[0] == s.phase.job.id {
      var drawn := Drawn(Checked(s.(latest := ids[0])), world[0]);
      if drawn.phase.Checking? {
        StepsAddUpToRender(drawn, ids[1..], world[1..]);
      }
    }
  }

  // ----- what the steps come to -----

  /** A paint submits exactly when a load is owed or the width moved by more than half
      a pixel; one that does not leaves the widget, and its id, as they were. */
  lemma PaintSubmitsIff(s: State, t: State, width: real)
    requires PaintStep(s, t, width)
    ensures t.ui.Stored? <==>
              s.widget.dirty || !(-0.5 <= width - s.widget.requestedWidth <= 0.5)
    ensures t.ui.Stored? ==> t.latest == t.widget.submittedId == s.widget.submittedId + 1
    ensures !t.ui.Stored? ==> t.widget == s.widget && t.latest == s.latest
  {
  }

  /** A check goes on to draw exactly when no newer id was stored. */
  lemma CheckGoesOnIff(s: State, t: State)
    requires CheckStep(s, t)
    ensures t.phase.Drawing? <==> s.latest == s.phase.job.id
    ensures !t.phase.Drawing? ==> t.phase.Waiting? && t.sent == s.sent && t.core.resetNext
  {
  }

  lemma {:induction false} LoadedGrows(urls: DocumentUrls, run: seq<State>, j: nat, k: nat)
    requires IsRun(urls, run) && j <= k < |run|
    ensures run[j].core.loaded <= run[k].core.loaded
  {
    if j < k {
      LoadedGrows(urls, run, j, k - 1);
      assert StepAt(urls, run, k - 1);
      StepKeepsLoaded(urls, run[k - 1], run[k]);
    }
  }

  lemma StepKeepsLoaded(urls: DocumentUrls, s: State, t: State)
    requires Next(urls, s, t)
    ensures s.core.loaded <= t.core.loaded
  {
    if p :| DrawStep(urls, s, t, p) {
      RequestsNew(s.core, p.asks);
    }
  }

  /** In every run an image decoded by a job's first pass makes it go again, and every
      frame recorded since, that job's own to begin with, shows it. */
  lemma DecodedImagesAreShown(urls: DocumentUrls, run: seq<State>, j: nat, k: nat, p: Pass, q: Pass, u: Url)
    requires IsRun(urls, run) && j < k && k + 1 < |run|
    requires DrawStep(urls, run[j], run[j + 1], p) && p.parsed && run[j].phase.passes == 0
    requires Tries(run[j].core, p, u) && u in p.answers && p.answers[u]
    requires DrawStep(urls, run[k], run[k + 1], q)
    ensures run[j + 1].phase == Checking(run[j].phase.job, 1)
    ensures |run[k + 1].sent| > |run[k].sent| && run[k + 1].sent[|run[k].sent|].Rendered? ==>
              u in run[k + 1].sent[|run[k].sent|].frame.images
  {
    RunKeeps(urls, run, k);
    WorkDoesAPass(run[j].core, run[j].phase.job, 0, p);
    WorkDoesAPass(run[k].core, run[k].phase.job, run[k].phase.passes, q);
    LoadedGrows(urls, run, j + 1, k);
  }

  /** The job dropped last left the flag, and it is still there. */
  ghost predicate FlagInv(s: State) {
    s.phase.Waiting? && s.fates != [] && s.fates[|s.fates| - 1].Superseded? ==> s.core.resetNext
  }

  lemma {:induction false} FlagIsLeft(urls: DocumentUrls, run: seq<State>, i: nat)
    requires IsRun(urls, run) && i < |run|
    ensures FlagInv(run[i])
  {
    if i > 0 {
      FlagIsLeft(urls, run, i - 1);
      RunKeeps(urls, run, i - 1);
      assert StepAt(urls, run, i - 1);
      StepKeepsFlag(urls, run[i - 1], run[i]);
    }
  }

  lemma StepKeepsFlag(urls: DocumentUrls, s: State, t: State)
    requires Inv(urls, s) && FlagInv(s) && Next(urls, s, t)
    ensures FlagInv(t)
  {
    if p :| DrawStep(urls, s, t, p) {
      WorkDoesAPass(s.core, s.phase.job, s.phase.passes, p);
    }
  }

  /** In every run the job taken after one that was dropped starts with nothing
      requested, so that it tries again what the other did not get to draw. */
  lemma DroppedJobIsMadeGood(urls: DocumentUrls, run: seq<State>, i: nat, n: nat)
    requires IsRun(urls, run) && i + 1 < |run| && TakeStep(run[i], run[i + 1], n)
    requires run[i].fates != [] && run[i].fates[|run[i].fates| - 1].Superseded?
    ensures run[i + 1].core.requested == {} && run[i + 1].core.pending == []
    ensures run[i + 1].core.loaded == run[i].core.loaded
  {
    FlagIsLeft(urls, run, i);
  }

  // ----- progress -----

  ghost predicate WorkerStep(urls: DocumentUrls, s: State, t: State) {
    || (exists n :: TakeStep(s, t, n))
    || CheckStep(s, t)
    || (exists p :: DrawStep(urls, s, t, p))
  }

  predicate WorkerIdle(s: State) { s.phase.Waiting? && s.taken == |s.jobs| }

  /** How many steps the worker can still take on the job it is on. */
  function StepsLeft(phase: Phase): int {
    match phase
    case Waiting => 0
    case Checking(_, passes) => 2 * (MAX_PASSES - passes)
    case Drawing(_, passes) => 2 * (MAX_PASSES - passes) - 1
  }

  function WorkLeft(s: State): int { 5 * (|s.jobs| - s.taken) + StepsLeft(s.phase) }

  /** A worker that is not idle can always go on, whatever is parsed or fetched. */
  lemma WorkerCanStep(urls: DocumentUrls, s: State)
    requires Inv(urls, s) && !WorkerIdle(s)
    ensures exists t :: WorkerStep(urls, s, t)
  {
    if s.phase.Waiting? {
      var batch := s.jobs[s.taken..s.taken + 1];
      var job := batch[0].(resetImages := AnyReset(batch));
      var t := s.(taken := s.taken + 1, core := Start(s.core, job), phase := Checking(job, 0),
                  fates := s.fates + seq(0, _ => Collapsed) + [Running]);
      assert TakeStep(s, t, 1);
      assert WorkerStep(urls, s, t);
    } else if s.phase.Checking? {
      assert CheckStep(s, Checked(s));
      assert WorkerStep(urls, s, Checked(s));
    } else {
      var t := Drawn(s, Pass(false, [], map[]));
      assert DrawStep(urls, s, t, Pass(false, [], map[]));
      assert WorkerStep(urls, s, t);
    }
  }

  /** Every step it takes leaves less to do. */
  lemma WorkerStepLowers(urls: DocumentUrls, s: State, t: State)
    requires Inv(urls, s) && WorkerStep(urls, s, t)
    ensures 0 <= WorkLeft(t) < WorkLeft(s) && t.widget == s.widget && t.ui == s.ui && t.jobs == s.jobs
  {
  }

  /** A step that is no load and submits nothing. */
  ghost predicate CalmStep(urls: DocumentUrls, s: State, t: State) {
    || WorkerStep(urls, s, t)
    || PollStep(s, t)
    || (exists width :: PaintStep(s, t, width) && !NeedsSubmit(s.widget, width))
  }

  lemma CalmStepKeeps(urls: DocumentUrls, s: State, t: State)
    requires Inv(urls, s) && CalmStep(urls, s, t)
    ensures Inv(urls, t) && WorkLeft(t) <= WorkLeft(s)
  {
    if WorkerStep(urls, s, t) {
      WorkerStepLowers(urls, s, t);
    }
    NextKeeps(urls, s, t);
  }

  ghost predicate CalmAt(urls: DocumentUrls, run: seq<State>, i: nat)
    requires i + 1 < |run|
  {
    CalmStep(urls, run[i], run[i + 1])
  }

  ghost function WorkerSteps(urls: DocumentUrls, run: seq<State>): nat {
    if |run| < 2 then 0
    else WorkerSteps(urls, run[..|run| - 1]) + if WorkerStep(urls, run[|run| - 2], run[|run| - 1]) then 1 else 0
  }

  /** While no page is loaded and no submit falls due, the worker takes at most as
      many steps as it had left, and then is idle. */
  lemma {:induction false} WorkIsBounded(urls: DocumentUrls, run: seq<State>)
    requires |run| > 0 && Inv(urls, run[0])
    requires forall i :: 0 <= i < |run| - 1 ==> CalmAt(urls, run, i)
    ensures Inv(urls, run[|run| - 1])
    ensures WorkerSteps(urls, run) + WorkLeft(run[|run| - 1]) <= WorkLeft(run[0])
  {
    if |run| > 1 {
      var n := |run| - 1;
      var before := run[..n];
      forall i | 0 <= i < |before| - 1 ensures CalmAt(urls, before, i) {
        assert CalmAt(urls, run, i);
      }
      WorkIsBounded(urls, before);
      assert CalmAt(urls, run, n - 1);
      CalmStepKeeps(urls, run[n - 1], run[n]);
      if WorkerStep(urls, run[n - 1], run[n]) {
        WorkerStepLowers(urls, run[n - 1], run[n]);
      }
    }
  }

  lemma {:induction false} ReceiveAllKeepsClean(w: Widget, inbox: seq<Output>)
    ensures ReceiveAll(w, inbox).dirty == w.dirty
    decreases |inbox|
  {
    if inbox != [] {
      ReceiveAllKeepsClean(Receive(w, inbox[0]), inbox[1..]);
    }
  }

  /** Once the worker is idle, the poll of any paint ends in a quiet state. */
  lemma PollEndsQuiet(urls: DocumentUrls, run: seq<State>)
    requires |run| > 0 && Inv(urls, run[0]) && WorkerIdle(run[0]) && run[0].ui.Polling?
    requires forall i :: 0 <= i < |run| - 1 ==> PollStep(run[i], run[i + 1])
    requires run[|run| - 1].ui.Idle?
    ensures Quiet(run[|run| - 1])
  {
    var s := run[0];
    PollLoopReceivesAll(run);
    ReceiveAllKeepsClean(s.widget, s.sent[s.received..]);
  }

  /** Work left, and then outputs left to poll. */
  ghost predicate Sooner(t: State, s: State) {
    || WorkLeft(t) < WorkLeft(s)
    || (WorkLeft(t) == WorkLeft(s) && |t.sent| - t.received < |s.sent| - s.received)
  }

  lemma WorkerGoesOn(urls: DocumentUrls, s: State) returns (t: State)
    requires Inv(urls, s) && s.ui.Polling? && !WorkerIdle(s)
    ensures CalmStep(urls, s, t) && Inv(urls, t) && t.ui.Polling? && Sooner(t, s)
  {
    WorkerCanStep(urls, s);
    t :| WorkerStep(urls, s, t);
    WorkerStepLowers(urls, s, t);
    CalmStepKeeps(urls, s, t);
  }

  lemma PollGoesOn(urls: DocumentUrls, s: State) returns (t: State)
    requires Inv(urls, s) && s.ui.Polling? && s.received < |s.sent|
    ensures CalmStep(urls, s, t) && Inv(urls, t) && t.ui.Polling? && Sooner(t, s)
  {
    t := s.(widget := Receive(s.widget, s.sent[s.received]), received := s.received + 1);
    assert PollStep(s, t);
    CalmStepKeeps(urls, s, t);
  }

  lemma PollStops(urls: DocumentUrls, s: State) returns (t: State)
    requires Inv(urls, s) && s.ui.Polling? && WorkerIdle(s) && s.received == |s.sent|
    ensures CalmStep(urls, s, t) && Quiet(t)
  {
    t := s.(ui := Idle);
    assert PollStep(s, t);
  }

  /** From every reachable state of a paint that has submitted what was due, the
      worker's steps and the poll lead to a quiet state. */
  lemma {:induction false} QuietIsReached(urls: DocumentUrls, s: State) returns (run: seq<State>)
    requires Inv(urls, s) && s.ui.Polling?
    ensures |run| > 0 && run[0] == s && Quiet(run[|run| - 1])
    ensures forall i :: 0 <= i < |run| - 1 ==> CalmAt(urls, run, i)
    decreases WorkLeft(s), |s.sent| - s.received
  {
    var t;
    if WorkerIdle(s) && s.received == |s.sent| {
      t := PollStops(urls, s);
      run := Extend(urls, s, [t]);
    } else {
      if WorkerIdle(s) {
        t := PollGoesOn(urls, s);
      } else {
        t := WorkerGoesOn(urls, s);
      }
      var rest := QuietIsReached(urls, t);
      run := Extend(urls, s, rest);
    }
  }

  lemma Extend(urls: DocumentUrls, s: State, rest: seq<State>) returns (run: seq<State>)
    requires rest != [] && CalmStep(urls, s, rest[0])
    requires forall i :: 0 <= i < |rest| - 1 ==> CalmAt(urls, rest, i)
    ensures run == [s] + rest && forall i :: 0 <= i < |run| - 1 ==> CalmAt(urls, run, i)
  {
    run := [s] + rest;
    forall i | 0 <= i < |run| - 1 ensures CalmAt(urls, run, i) {
      assert i > 0 ==> CalmAt(urls, rest, i - 1);
    }
  }
}
