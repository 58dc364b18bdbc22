/** New-mail detection: one account's forwarder, its UID watermark, and runs of
    the mailbox it watches. */
module Watermark {
  import opened Basics
  import opened MailCache
  import S = MailStore

  /** UIDVALIDITY and UIDNEXT as one `EXAMINE` saw them. */
  datatype Mark = Mark(validity: nat, next: nat)

  datatype Update = Baseline | NewMail(first: nat, count: nat) | Unchanged

  function UpdateWatermark(previous: Option<Mark>, current: Mark): (Mark, Update) {
    (current,
     match previous
     case None => Baseline
     case Some(p) =>
       if p.validity != current.validity then Baseline
       else if current.next > p.next then NewMail(p.next, current.next - p.next)
       else Unchanged)
  }

  // ----- the forwarder -----

  datatype Event = Connected | Disconnected
                 | MailboxPolled(mailbox: string, state: Mark)
                 | NewHeaders(mailbox: string, headers: seq<Header>)
                 | OtherEvent(text: string)

  datatype Command = PollMailbox(mailbox: string) | FetchNewHeaders(mailbox: string, first: nat)

  /** What wakes the loop: an actor event and whether the UI still listens, the
      poll timer, or the IDLE watch. */
  datatype Input = FromActor(event: Event, uiOpen: bool) | ActorGone | Tick | Push | WatchClosed

  /** `sent`, `forwarded`, `toasts` and `watches` log what left the forwarder. */
  datatype Relay = Relay(connected: bool, mark: Option<Mark>, idleStart: bool, wakeOpen: bool,
                       sent: seq<Command>, forwarded: seq<Event>, toasts: seq<seq<Header>>, watches: nat)

  const NEW_RELAY := Relay(false, None, true, true, [], [], [], 0)

  function Handle(k: Relay, watched: string, e: Event): Relay {
    match e
    case Connected => k.(connected := true, mark := None, idleStart := false,
        watches := if k.idleStart then k.watches + 1 else k.watches)
    case Disconnected => k.(connected := false)
    case MailboxPolled(mailbox, state) =>
      if mailbox != watched then k
      else
        var (next, update) := UpdateWatermark(k.mark, state);
        k.(mark := Some(next),
            sent := if update.NewMail? then k.sent + [FetchNewHeaders(watched, update.first)] else k.sent)
    case NewHeaders(mailbox, headers) =>
      if mailbox == watched && headers != [] then k.(toasts := k.toasts + [headers]) else k
    case OtherEvent(_) => k
  }

  /** One turn of the loop, and whether there is another. */
  function Turn(k: Relay, watched: string, input: Input): (Relay, bool) {
    match input
    case FromActor(e, uiOpen) =>
      var h := Handle(k, watched, e);
      if uiOpen then (h.(forwarded := h.forwarded + [e]), true) else (h, false)
    case ActorGone => (k, false)
    case Tick => (if k.connected then k.(sent := k.sent + [PollMailbox(watched)]) else k, true)
    case Push => (if k.wakeOpen && k.connected then k.(sent := k.sent + [PollMailbox(watched)]) else k, true)
    case WatchClosed => (k.(wakeOpen := false), true)
  }

  function Forward(k: Relay, watched: string, inputs: seq<Input>): Relay
    decreases |inputs|
  {
    if inputs == [] then k
    else
      var (next, more) := Turn(k, watched, inputs[0]);
      if more then Forward(next, watched, inputs[1..]) else next
  }

  class Forwarder {
    const watched: string
    var connected: bool
    var mark: Option<Mark>
    var idleStart: bool
    var wakeOpen: bool
    var sent: seq<Command>
    var forwarded: seq<Event>
    var toasts: seq<seq<Header>>
    var watches: nat

    function View(): Relay
      reads this
    {
      Relay(connected, mark, idleStart, wakeOpen, sent, forwarded, toasts, watches)
    }

    constructor (mailbox: string)
      ensures watched == mailbox && View() == NEW_RELAY
    {
      watched := mailbox;
      connected, mark, idleStart, wakeOpen := false, None, true, true;
      sent, forwarded, toasts, watches := [], [], [], 0;
    }

    method HandleEvent(e: Event)
      modifies this
      ensures View() == Handle(old(View()), watched, e)
    {
      match e {
        case Connected =>
          connected := true;
          if idleStart {
            idleStart := false;
            watches := watches + 1;
          }
          mark := None;
        case Disconnected => connected := false;
        case MailboxPolled(mailbox, state) =>
          if mailbox == watched {
            var (next, update) := UpdateWatermark(mark, state);
            mark := Some(next);
            if update.NewMail? {
              sent := sent + [FetchNewHeaders(watched, update.first)];
            }
          }
        case NewHeaders(mailbox, headers) =>
          if mailbox == watched && headers != [] {
            toasts := toasts + [headers];
          }
        case OtherEvent(_) =>
      }
    }

    method ForwardAndWatch(inputs: seq<Input>)
      modifies this
      ensures View() == Forward(old(View()), watched, inputs)
    {
      for i := 0 to |inputs|
        invariant Forward(View(), watched, inputs[i..]) == Forward(old(View()), watched, inputs)
      {
        assert inputs[i..][1..] == inputs[i + 1..];
        match inputs[i] {
          case FromActor(e, uiOpen) =>
            HandleEvent(e);
            if !uiOpen {
              return;
            }
            forwarded := forwarded + [e];
          case ActorGone => return;
          case Tick =>
            if connected {
              sent := sent + [PollMailbox(watched)];
            }
          case Push =>
            if wakeOpen && connected {
              sent := sent + [PollMailbox(watched)];
            }
          case WatchClosed => wakeOpen := false;
        }
      }
    }
  }

  /** Whatever happens, one IDLE watch is started, by the first connect and never before it. */
  lemma {:induction false} IdleWatchStartsOnce(k: Relay, watched: string, inputs: seq<Input>)
    requires k.watches == (if k.idleStart then 0 else 1) && (k.connected ==> !k.idleStart)
    ensures var r := Forward(k, watched, inputs);
            && r.watches == (if r.idleStart then 0 else 1)
            && (r.connected ==> r.watches == 1)
            && (r.watches > k.watches ==>
                exists i :: 0 <= i < |inputs| && inputs[i].FromActor? && inputs[i].event.Connected?)
    decreases |inputs|
  {
    if inputs != [] {
      var (next, more) := Turn(k, watched, inputs[0]);
      if more {
        IdleWatchStartsOnce(next, watched, inputs[1..]);
        var r := Forward(next, watched, inputs[1..]);
        if next.watches == k.watches && r.watches > k.watches {
          var i :| 0 <= i < |inputs[1..]| && inputs[1..][i].FromActor? && inputs[1..][i].event.Connected?;
          assert inputs[i + 1] == inputs[1..][i];
        }
      }
    }
  }

  function EventOf(input: Input): seq<Event> { if input.FromActor? then [input.event] else [] }

  function EventsOf(inputs: seq<Input>): seq<Event> {
    if inputs == [] then [] else EventOf(inputs[0]) + EventsOf(inputs[1..])
  }

  /** The headers a toast goes up for. */
  function ToastFor(input: Input, watched: string): seq<seq<Header>> {
    if input.FromActor? && input.event.NewHeaders? && input.event.mailbox == watched && input.event.headers != []
    then [input.event.headers] else []
  }

  function ToastsFor(inputs: seq<Input>, watched: string): seq<seq<Header>> {
    if inputs == [] then [] else ToastFor(inputs[0], watched) + ToastsFor(inputs[1..], watched)
  }

  /** The input does not end the loop. */
  predicate GoesOn(input: Input) { !input.ActorGone? && (input.FromActor? ==> input.uiOpen) }

  lemma FirstTurn(k: Relay, watched: string, inputs: seq<Input>) returns (next: Relay)
    requires inputs != [] && GoesOn(inputs[0])
    ensures Forward(k, watched, inputs) == Forward(next, watched, inputs[1..])
    ensures next.forwarded == k.forwarded + EventOf(inputs[0])
    ensures next.toasts == k.toasts + ToastFor(inputs[0], watched)
    ensures next == Turn(k, watched, inputs[0]).0
  {
    next := Turn(k, watched, inputs[0]).0;
  }

  /** The loop ends with the first input after which the actor or the UI is gone; an event
      the UI no longer takes was handled all the same. */
  lemma LoopEnds(k: Relay, watched: string, inputs: seq<Input>)
    requires inputs != [] && !GoesOn(inputs[0])
    ensures var last := Forward(k, watched, inputs);
            && last.forwarded == k.forwarded
            && (inputs[0].ActorGone? ==> last == k)
            && (inputs[0].FromActor? ==> last == Handle(k, watched, inputs[0].event))
  {
  }

  /** While the actor and the UI are there, every event reaches the UI in order, and
      a toast goes up for exactly the non-empty new headers of the watched mailbox. */
  lemma {:induction false} EveryEventIsForwarded(k: Relay, watched: string, inputs: seq<Input>)
    requires forall i :: 0 <= i < |inputs| ==> GoesOn(inputs[i])
    ensures Forward(k, watched, inputs).forwarded == k.forwarded + EventsOf(inputs)
    ensures Forward(k, watched, inputs).toasts == k.toasts + ToastsFor(inputs, watched)
    decreases |inputs|
  {
    if inputs != [] {
      var next := FirstTurn(k, watched, inputs);
      EveryEventIsForwarded(next, watched, inputs[1..]);
      ConcatAssoc(k.forwarded, EventOf(inputs[0]), EventsOf(inputs[1..]));
      ConcatAssoc(k.toasts, ToastFor(inputs[0], watched), ToastsFor(inputs[1..], watched));
    }
  }

  /** The polls among the commands. */
  function PollsOf(commands: seq<Command>): seq<Command> {
    if commands == [] then []
    else
      var last := commands[|commands| - 1];
      PollsOf(commands[..|commands| - 1]) + if last.PollMailbox? then [last] else []
  }

  predicate OnlineAfter(online: bool, input: Input) {
    match input
    case FromActor(Connected, _) => true
    case FromActor(Disconnected, _) => false
    case _ => online
  }

  /** One poll for a tick, and for a push of a watch still open, that finds the account connected. */
  function DueNow(online: bool, open: bool, input: Input, watched: string): seq<Command> {
    match input
    case Tick => if online then [PollMailbox(watched)] else []
    case Push => if online && open then [PollMailbox(watched)] else []
    case _ => []
  }

  function DuePolls(online: bool, open: bool, inputs: seq<Input>, watched: string): seq<Command>
    decreases |inputs|
  {
    if inputs == [] then []
    else
      DueNow(online, open, inputs[0], watched)
      + DuePolls(OnlineAfter(online, inputs[0]), open && !inputs[0].WatchClosed?, inputs[1..], watched)
  }

  lemma PollsAppend(commands: seq<Command>, last: Command)
    ensures PollsOf(commands + [last]) == PollsOf(commands) + if last.PollMailbox? then [last] else []
  {
    assert (commands + [last])[..|commands|] == commands;
  }

  lemma HandlePolls(k: Relay, watched: string, e: Event)
    ensures var next := Handle(k, watched, e);
            PollsOf(next.sent) == PollsOf(k.sent) && next.wakeOpen == k.wakeOpen
    ensures Handle(k, watched, e).connected == (e.Connected? || (!e.Disconnected? && k.connected))
  {
    var next := Handle(k, watched, e);
    if e.MailboxPolled? && next.sent != k.sent {
      PollsAppend(k.sent, next.sent[|k.sent|]);
      assert next.sent == k.sent + [next.sent[|k.sent|]];
    }
  }

  lemma TurnPolls(k: Relay, watched: string, input: Input)
    requires GoesOn(input)
    ensures var next := Turn(k, watched, input).0;
            && PollsOf(next.sent) == PollsOf(k.sent) + DueNow(k.connected, k.wakeOpen, input, watched)
            && next.connected == OnlineAfter(k.connected, input)
            && next.wakeOpen == (k.wakeOpen && !input.WatchClosed?)
  {
    if input.FromActor? {
      HandlePolls(k, watched, input.event);
    } else {
      PollsAppend(k.sent, PollMailbox(watched));
    }
  }

  /** While the actor and the UI are there, exactly the polls that are due are sent. */
  lemma {:induction false} EveryWakePolls(k: Relay, watched: string, inputs: seq<Input>)
    requires forall i :: 0 <= i < |inputs| ==> GoesOn(inputs[i])
    ensures PollsOf(Forward(k, watched, inputs).sent)
         == PollsOf(k.sent) + DuePolls(k.connected, k.wakeOpen, inputs, watched)
    decreases |inputs|
  {
    if inputs != [] {
      var next := FirstTurn(k, watched, inputs);
      TurnPolls(k, watched, inputs[0]);
      EveryWakePolls(next, watched, inputs[1..]);
      ConcatAssoc(PollsOf(k.sent), DueNow(k.connected, k.wakeOpen, inputs[0], watched),
                  DuePolls(next.connected, next.wakeOpen, inputs[1..], watched));
    }
  }

  // ----- runs of the server, the actor and the forwarder -----

  /** UIDs `first <= uid < end`. */
  datatype Range = Range(first: nat, end: nat)

  /** The ranges follow one another from `start` to `end`, and none is empty. */
  predicate Chain(ranges: seq<Range>, start: nat, end: nat) {
    if ranges == [] then start == end
    else
      var last := ranges[|ranges| - 1];
      last.first < last.end && last.end == end && Chain(ranges[..|ranges| - 1], start, last.first)
  }

  /** The watched mailbox, the actor's events not yet forwarded, and the forwarder.
      `baseline` and `announced` are history: the UIDNEXT the current stretch of
      polls began at and the ranges announced since. */
  datatype World = World(c: S.Contents, queue: seq<Event>, relay: Relay, baseline: Option<nat>, announced: seq<Range>)

  datatype Act =
    | Serve(op: S.Op)            // a delivery, copy, flag change or expunge
    | Renumber(c: S.Contents)    // a new UIDVALIDITY
    | Examine                    // the actor polls the watched mailbox
    | Answer(first: nat, headers: seq<Header>)  // the actor runs a fetch it was sent
    | Emit(event: Event)         // any other event of the actor, a reconnect among them
    | Drain                      // the forwarder takes the next event
    | Wake(input: Input)         // the timer or the IDLE watch

  function Now(c: S.Contents): Mark { Mark(c.uidValidity, c.uidNext) }

  predicate IsPoll(e: Event, watched: string) { e.MailboxPolled? && e.mailbox == watched }

  /** A poll with no earlier one to compare with. */
  predicate StartsOver(k: Relay, watched: string, e: Event) {
    IsPoll(e, watched) && (k.mark.None? || k.mark.value.validity != e.state.validity)
  }

  /** The ranges behind new commands: a fetch says where a range starts, the poll where it ends. */
  function RangesOf(commands: seq<Command>, end: nat): seq<Range> {
    if commands == [] then []
    else
      var last := commands[|commands| - 1];
      RangesOf(commands[..|commands| - 1], end) + if last.FetchNewHeaders? then [Range(last.first, end)] else []
  }

  function AfterDrain(w: World, watched: string): World
    requires w.queue != []
  {
    var e := w.queue[0];
    var u := Handle(w.relay, watched, e);
    var added := RangesOf(u.sent[|w.relay.sent|..], if IsPoll(e, watched) then e.state.next else 0);
    World(w.c, w.queue[1..], u.(forwarded := u.forwarded + [e]),
          if e.Connected? then None else if StartsOver(w.relay, watched, e) then Some(e.state.next) else w.baseline,
          (if e.Connected? || StartsOver(w.relay, watched, e) then [] else w.announced) + added)
  }

  ghost predicate Next(w: World, watched: string, act: Act, v: World) {
    match act
    case Serve(op) => v == w.(c := S.Step(w.c, op))
    case Renumber(c) => S.Valid(c) && c.uidValidity > w.c.uidValidity && v == w.(c := c)
    case Examine => v == w.(queue := w.queue + [MailboxPolled(watched, Now(w.c))])
    case Answer(first, headers) =>
      && FetchNewHeaders(watched, first) in w.relay.sent && Fetched(w.c, first, headers)
      && v == w.(queue := w.queue + [NewHeaders(watched, headers)])
    case Emit(e) => !IsPoll(e, watched) && v == w.(queue := w.queue + [e])
    case Drain => w.queue != [] && v == AfterDrain(w, watched)
    case Wake(input) =>
      && (input.Tick? || input.Push? || input.WatchClosed?)
      && v == w.(relay := Turn(w.relay, watched, input).0)
  }

  ghost predicate Steps(w: World, watched: string, v: World) { exists act :: Next(w, watched, act, v) }

  ghost predicate StepAt(run: seq<World>, watched: string, i: nat)
    requires i + 1 < |run|
  {
    Steps(run[i], watched, run[i + 1])
  }

  ghost predicate IsRun(run: seq<World>, watched: string) {
    && |run| > 0
    && S.Valid(run[0].c) && run[0] == World(run[0].c, [], NEW_RELAY, None, [])
    && forall i :: 0 <= i < |run| - 1 ==> StepAt(run, watched, i)
  }

  /** `b` was seen no earlier than `a`. */
  predicate Before(a: Mark, b: Mark) { a.validity < b.validity || (a.validity == b.validity && a.next <= b.next) }

  /** The queued polls, in order, each no earlier than the one before. */
  ghost predicate InOrder(queue: seq<Event>, watched: string, from: Option<Mark>, to: Mark)
    decreases |queue|
  {
    if queue == [] then from.Some? ==> Before(from.value, to)
    else if IsPoll(queue[0], watched) then
      (from.Some? ==> Before(from.value, queue[0].state)) && InOrder(queue[1..], watched, Some(queue[0].state), to)
    else InOrder(queue[1..], watched, from, to)
  }

  ghost predicate Inv(w: World, watched: string) {
    && S.Valid(w.c)
    && InOrder(w.queue, watched, w.relay.mark, Now(w.c))
    && (w.relay.mark.None? <==> w.baseline.None?)
    && (w.baseline.None? ==> w.announced == [])
    && (w.baseline.Some? ==> Chain(w.announced, w.baseline.value, w.relay.mark.value.next))
  }

  lemma {:induction false} InOrderLater(queue: seq<Event>, watched: string, from: Option<Mark>, to: Mark, later: Mark)
    requires InOrder(queue, watched, from, to) && Before(to, later)
    ensures InOrder(queue, watched, from, later)
    decreases |queue|
  {
    if queue != [] {
      InOrderLater(queue[1..], watched, if IsPoll(queue[0], watched) then Some(queue[0].state) else from, to, later);
    }
  }

  lemma {:induction false} InOrderPush(queue: seq<Event>, watched: string, from: Option<Mark>, to: Mark, e: Event)
    requires InOrder(queue, watched, from, to) && (IsPoll(e, watched) ==> e.state == to)
    ensures InOrder(queue + [e], watched, from, to)
    decreases |queue|
  {
    if queue == [] {
      assert (queue + [e])[1..] == [];
    } else {
      InOrderPush(queue[1..], watched, if IsPoll(queue[0], watched) then Some(queue[0].state) else from, to, e);
      assert (queue + [e])[1..] == queue[1..] + [e];
    }
  }

  lemma {:induction false} InOrderForgets(queue: seq<Event>, watched: string, from: Option<Mark>, to: Mark)
    requires InOrder(queue, watched, from, to)
    ensures InOrder(queue, watched, None, to)
    decreases |queue|
  {
    if queue != [] && !IsPoll(queue[0], watched) {
      InOrderForgets(queue[1..], watched, from, to);
    }
  }

  lemma DrainKeeps(w: World, watched: string)
    requires Inv(w, watched) && w.queue != []
    ensures Inv(AfterDrain(w, watched), watched)
  {
    var e, v := w.queue[0], AfterDrain(w, watched);
    var u := Handle(w.relay, watched, e);
    var added := u.sent[|w.relay.sent|..];
    if e.Connected? {
      InOrderForgets(w.queue[1..], watched, w.relay.mark, Now(w.c));
    }
    if IsPoll(e, watched) && UpdateWatermark(w.relay.mark, e.state).1.NewMail? {
      assert added == [FetchNewHeaders(watched, w.relay.mark.value.next)];
      RangesOfOne(watched, w.relay.mark.value.next, e.state.next);
      assert v.announced[..|v.announced| - 1] == w.announced;
    } else {
      assert added == [];
      assert w.announced + [] == w.announced;
    }
  }

  lemma RangesOfOne(watched: string, first: nat, end: nat)
    ensures RangesOf([FetchNewHeaders(watched, first)], end) == [Range(first, end)]
  {
    assert [FetchNewHeaders(watched, first)][..0] == [];
  }

  lemma NextKeeps(w: World, watched: string, act: Act, v: World)
    requires Inv(w, watched) && Next(w, watched, act, v)
    ensures Inv(v, watched)
  {
    match act
    case Serve(op) =>
      S.StepKeepsValid(w.c, op);
      InOrderLater(w.queue, watched, w.relay.mark, Now(w.c), Now(v.c));
    case Renumber(c) => InOrderLater(w.queue, watched, w.relay.mark, Now(w.c), Now(c));
    case Examine => InOrderPush(w.queue, watched, w.relay.mark, Now(w.c), MailboxPolled(watched, Now(w.c)));
    case Answer(_, headers) =>
      InOrderPush(w.queue, watched, w.relay.mark, Now(w.c), NewHeaders(watched, headers));
    case Emit(e) => InOrderPush(w.queue, watched, w.relay.mark, Now(w.c), e);
    case Drain => DrainKeeps(w, watched);
    case Wake(_) =>
  }

  lemma {:induction false} RunKeeps(run: seq<World>, watched: string, i: nat)
    requires IsRun(run, watched) && i < |run|
    ensures Inv(run[i], watched)
  {
    if i > 0 {
      RunKeeps(run, watched, i - 1);
      assert StepAt(run, watched, i - 1);
      var act :| Next(run[i - 1], watched, act, run[i]);
      NextKeeps(run[i - 1], watched, act, run[i]);
    }
  }

  predicate Covers(ranges: seq<Range>, i: nat, uid: nat)
    requires i < |ranges|
  {
    ranges[i].first <= uid < ranges[i].end
  }

  ghost predicate Announced(ranges: seq<Range>, uid: nat) { exists i :: 0 <= i < |ranges| && Covers(ranges, i, uid) }

  ghost predicate AtMostOnce(ranges: seq<Range>, uid: nat) {
    forall i, j :: 0 <= i < |ranges| && 0 <= j < |ranges| && Covers(ranges, i, uid) && Covers(ranges, j, uid) ==> i == j
  }

  /** A chain covers each UID between its ends once, and no other. */
  lemma {:induction false} ChainCovers(ranges: seq<Range>, start: nat, end: nat, uid: nat)
    requires Chain(ranges, start, end)
    ensures start <= end
    ensures start <= uid < end <==> Announced(ranges, uid)
    ensures AtMostOnce(ranges, uid)
    ensures forall i :: 0 <= i < |ranges| - 1 ==> ranges[i].end == ranges[i + 1].first
  {
    if ranges != [] {
      var n := |ranges| - 1;
      var before := ranges[..n];
      ChainCovers(before, start, ranges[n].first, uid);
      forall i | 0 <= i <= n && Covers(ranges, i, uid) ensures start <= uid < end && (i < n ==> uid < ranges[n].first) {
        if i < n {
          assert Covers(before, i, uid);
        }
      }
      if start <= uid < ranges[n].first {
        var i :| 0 <= i < n && Covers(before, i, uid);
        assert Covers(ranges, i, uid);
      } else if start <= uid < end {
        assert Covers(ranges, n, uid);
      }
      forall i, j | 0 <= i <= n && 0 <= j <= n && Covers(ranges, i, uid) && Covers(ranges, j, uid) ensures i == j {
        if i < n && j < n {
          assert Covers(before, i, uid) && Covers(before, j, uid);
        }
      }
      if n > 0 {
        assert before[n - 1] == ranges[n - 1];
      }
      forall i | 0 <= i < n ensures ranges[i].end == ranges[i + 1].first {
        if i < n - 1 {
          assert before[i].end == before[i + 1].first;
        }
      }
    }
  }

  /** In every run, nothing is announced before a baseline, and since it the
      announced ranges are consecutive, disjoint, and together exactly the UIDs
      from the baseline's UIDNEXT up to the last forwarded one. */
  lemma AnnouncedOnceEach(run: seq<World>, watched: string, i: nat, uid: nat)
    requires IsRun(run, watched) && i < |run|
    ensures run[i].relay.mark.None? ==> run[i].announced == []
    ensures run[i].relay.mark.Some? ==>
              && run[i].baseline.Some?
              && Chain(run[i].announced, run[i].baseline.value, run[i].relay.mark.value.next)
              && (run[i].baseline.value <= uid < run[i].relay.mark.value.next <==> Announced(run[i].announced, uid))
              && AtMostOnce(run[i].announced, uid)
  {
    RunKeeps(run, watched, i);
    if run[i].baseline.Some? {
      ChainCovers(run[i].announced, run[i].baseline.value, run[i].relay.mark.value.next, uid);
    }
  }

  /** Once a poll taken now has been forwarded, every message that arrived since
      the baseline has been announced, and none that was there before it. */
  lemma CaughtUpMeansAnnounced(run: seq<World>, watched: string, i: nat, m: S.Message)
    requires IsRun(run, watched) && i < |run| && m in run[i].c.messages && run[i].relay.mark == Some(Now(run[i].c))
    ensures run[i].baseline.Some?
    ensures run[i].baseline.value <= m.uid <==> Announced(run[i].announced, m.uid)
  {
    RunKeeps(run, watched, i);
    ChainCovers(run[i].announced, run[i].baseline.value, run[i].relay.mark.value.next, m.uid);
  }

  // ----- from the announced ranges to the toasts -----

  ghost predicate AllAsked(w: World, watched: string) {
    forall r :: r in w.announced ==> FetchNewHeaders(watched, r.first) in w.relay.sent
  }

  /** Every non-empty list of new headers forwarded so far went up as a toast. */
  ghost predicate AllShown(k: Relay, watched: string) {
    forall headers :: NewHeaders(watched, headers) in k.forwarded && headers != [] ==> headers in k.toasts
  }

  /** The actor's events in order: those forwarded, then those still queued. */
  function Events(w: World): seq<Event> { w.relay.forwarded + w.queue }

  lemma DrainAsks(w: World, watched: string)
    requires Inv(w, watched) && AllAsked(w, watched) && w.queue != []
    ensures AllAsked(AfterDrain(w, watched), watched)
  {
    var e, v := w.queue[0], AfterDrain(w, watched);
    var added := v.relay.sent[|w.relay.sent|..];
    if IsPoll(e, watched) && UpdateWatermark(w.relay.mark, e.state).1.NewMail? {
      assert added == [FetchNewHeaders(watched, w.relay.mark.value.next)];
      RangesOfOne(watched, w.relay.mark.value.next, e.state.next);
    } else {
      assert added == [];
    }
  }

  lemma DrainShows(w: World, watched: string)
    requires AllShown(w.relay, watched) && w.queue != []
    ensures AllShown(AfterDrain(w, watched).relay, watched)
  {
  }

  lemma DrainKeepsEvents(w: World, watched: string)
    requires w.queue != []
    ensures Events(AfterDrain(w, watched)) == Events(w)
  {
    assert w.queue == [w.queue[0]] + w.queue[1..];
  }

  lemma NextShows(w: World, watched: string, act: Act, v: World)
    requires Inv(w, watched) && AllAsked(w, watched) && AllShown(w.relay, watched) && Next(w, watched, act, v)
    ensures AllAsked(v, watched) && AllShown(v.relay, watched) && Events(w) <= Events(v)
  {
    match act
    case Drain =>
      DrainAsks(w, watched);
      DrainShows(w, watched);
      DrainKeepsEvents(w, watched);
    case Examine => assert Events(v) == Events(w) + [MailboxPolled(watched, Now(w.c))];
    case Answer(_, headers) => assert Events(v) == Events(w) + [NewHeaders(watched, headers)];
    case Emit(e) => assert Events(v) == Events(w) + [e];
    case _ =>
  }

  lemma {:induction false} RunShows(run: seq<World>, watched: string, i: nat)
    requires IsRun(run, watched) && i < |run|
    ensures AllAsked(run[i], watched) && AllShown(run[i].relay, watched)
  {
    if i > 0 {
      RunShows(run, watched, i - 1);
      RunKeeps(run, watched, i - 1);
      assert StepAt(run, watched, i - 1);
      var act :| Next(run[i - 1], watched, act, run[i]);
      NextShows(run[i - 1], watched, act, run[i]);
    }
  }

  lemma {:induction false} EventsGrow(run: seq<World>, watched: string, j: nat, i: nat)
    requires IsRun(run, watched) && j <= i < |run|
    ensures Events(run[j]) <= Events(run[i])
  {
    if j < i {
      EventsGrow(run, watched, j, i - 1);
      RunShows(run, watched, i - 1);
      RunKeeps(run, watched, i - 1);
      assert StepAt(run, watched, i - 1);
      var act :| Next(run[i - 1], watched, act, run[i]);
      NextShows(run[i - 1], watched, act, run[i]);
    }
  }

  /** In every run the headers of each announced range have been asked for. */
  lemma AnnouncedIsAsked(run: seq<World>, watched: string, i: nat, r: Range)
    requires IsRun(run, watched) && i < |run| && r in run[i].announced
    ensures FetchNewHeaders(watched, r.first) in run[i].relay.sent
  {
    RunShows(run, watched, i);
  }

  /** A toast tells of this message. */
  ghost predicate Toasted(toasts: seq<seq<Header>>, m: S.Message) {
    exists headers, h :: headers in toasts && h in headers && h.uid == m.uid && h.envelope == m.envelope
  }

  lemma FetchedTells(c: S.Contents, first: nat, headers: seq<Header>, m: S.Message)
    requires S.Valid(c) && Fetched(c, first, headers) && m in c.messages && first <= m.uid
    ensures exists h :: h in headers && h.uid == m.uid && h.envelope == m.envelope
  {
    assert Names(headers, m.uid);
    var h :| h in headers && h.uid == m.uid;
    assert Describes(c, h);
    var x :| x in c.messages && x.uid == h.uid && x.envelope == h.envelope;
    var a :| 0 <= a < |c.messages| && c.messages[a] == m;
    var b :| 0 <= b < |c.messages| && c.messages[b] == x;
    assert a == b;
  }

  /** In every run, once the fetch of an announced range was answered and the answer
      forwarded, each message of the range that was still there is in a toast. */
  lemma AnsweredRangeIsToasted(run: seq<World>, watched: string, j: nat, i: nat, r: Range, headers: seq<Header>,
                               m: S.Message)
    requires IsRun(run, watched) && j + 1 < |run| && j < i < |run| && r in run[j].announced
    requires Next(run[j], watched, Answer(r.first, headers), run[j + 1])
    requires |run[i].relay.forwarded| > |Events(run[j])|
    requires m in run[j].c.messages && r.first <= m.uid < r.end
    ensures Toasted(run[i].relay.toasts, m)
  {
    var at, e := |Events(run[j])|, NewHeaders(watched, headers);
    EventsGrow(run, watched, j + 1, i);
    assert Events(run[j + 1]) == Events(run[j]) + [e];
    assert run[i].relay.forwarded[at] == Events(run[i])[at] == e;
    assert e in run[i].relay.forwarded;
    RunShows(run, watched, i);
    RunKeeps(run, watched, j);
    FetchedTells(run[j].c, r.first, headers, m);
    var h :| h in headers && h.uid == m.uid && h.envelope == m.envelope;
  }

  /** An answer tells of the announced range alone exactly when nothing has arrived
      since that is still there; what has is told of again by its own range. */
  lemma AnswerIsTheRangeIff(c: S.Contents, r: Range, headers: seq<Header>)
    requires r.first < r.end && Fetched(c, r.first, headers) && forall h :: h in headers ==> r.first <= h.uid
    ensures (forall h :: h in headers ==> h.uid < r.end) <==> (forall m :: m in c.messages ==> m.uid < r.end)
  {
    if m :| m in c.messages && m.uid >= r.end {
      assert Names(headers, m.uid);
    }
    forall h | h in headers ensures exists m :: m in c.messages && m.uid == h.uid {
      assert Describes(c, h);
    }
  }

  /** A message announced, and another that arrived before the fetch was run: the
      answer, all of it from the range's first UID on, tells of both. */
  lemma LaterArrivalIsToldEarly()
    ensures var (a, b) := (S.Message(1, [], S.NO_ENVELOPE, []), S.Message(2, [], S.NO_ENVELOPE, []));
            var (c, polled) := (S.Contents([a, b], 1, 3), Range(1, 2));
            var headers := [Header(1, a.envelope, []), Header(2, b.envelope, [])];
            && S.Valid(c) && c == S.Step(S.Contents([a], 1, polled.end), S.Deliver([], S.NO_ENVELOPE))
            && Fetched(c, polled.first, headers) && headers[1].uid >= polled.end
  {
    var (a, b) := (S.Message(1, [], S.NO_ENVELOPE, []), S.Message(2, [], S.NO_ENVELOPE, []));
    var c, headers := S.Contents([a, b], 1, 3), [Header(1, a.envelope, []), Header(2, b.envelope, [])];
    forall h | h in headers ensures Describes(c, h) {
      assert a in c.messages && b in c.messages;
    }
    assert headers[0] in headers && headers[1] in headers;
    assert Names(headers, 1) && Names(headers, 2);
  }
}
