/**
  The automatic-capture scheduler of `FrameCapture` (src/utils/frameCapture.ts):
  `startAutoCapture`, `stopAutoCapture` and `cleanup`, over the instance's
  `autoCapture` flag and optional `intervalId`.

  Time is logical.  The host's timer table (the intervals `setInterval` armed
  and not yet cleared, and the next handle it will hand out) is part of the
  state, an interval tick is an event naming a handle, and an asynchronous
  capture is an in-flight entry that a later event settles.  Captures are not
  serialised: several may be in flight at once and they may settle in any
  order, also after a stop.
*/
module AutoCapture {
  import opened Wrappers
  import opened Sampler

  /** The settings `startAutoCapture` accepts: its parameter type makes the
      interval period mandatory. */
  type AutoSettings = s: Settings | s.intervalMs.Some?
    witness Settings(0.8, Jpeg, None, None, Some(0))

  /** HTML timer handles are positive, so `if (this.intervalId)` is a test for
      presence. */
  type Handle = h: int | h > 0 witness 1

  /** The `captureLoop` closure of one `startAutoCapture` call: which call it
      was (its session number) and the settings it captures with. */
  datatype Loop = Loop(session: nat, settings: Settings)

  /** An armed interval: the callback and its period. */
  datatype Interval = Interval(loop: Loop, periodMs: nat)

  /** The host's timer table as far as this instance uses it. */
  datatype Timers = Timers(active: map<Handle, Interval>, next: Handle)

  /** A capture started by a loop whose promise has not been consumed yet,
      with the outcome it will settle with. */
  datatype InFlight = InFlight(session: nat, result: Result<Frame, CaptureError>)

  /** One `onFrame(frame)` call, tagged with the session whose callback ran. */
  datatype Delivery = Delivery(session: nat, frame: Frame)

  datatype State = State(
    autoCapture: bool,
    intervalId: Option<Handle>,
    timers: Timers,
    canvas: Canvas,
    sessions: nat,
    inFlight: seq<InFlight>,
    delivered: seq<Delivery>)

  /** A freshly constructed `FrameCapture`. */
  function Init(): State {
    State(false, None, Timers(map[], 1), InitialCanvas, 0, [], [])
  }

  function HandleSet(id: Option<Handle>): set<Handle> {
    if id.Some? then {id.value} else {}
  }

  /** The scheduler's invariant: the flag is set exactly when a handle is
      held, the held handle is the only armed interval of the instance and it
      runs the latest session's loop, and handles are allocated fresh. */
  predicate Valid(s: State) {
    && (s.autoCapture <==> s.intervalId.Some?)
    && s.timers.active.Keys == HandleSet(s.intervalId)
    && (forall h :: h in s.timers.active ==> h < s.timers.next)
    && (forall h :: h in s.timers.active ==> s.timers.active[h].loop.session + 1 == s.sessions)
    && (forall i :: 0 <= i < |s.inFlight| ==> s.inFlight[i].session < s.sessions)
  }

  /** `stopAutoCapture()`: clear the flag and, if a handle is held, clear that
      interval and forget the handle.  Captures in flight are left alone. */
  function Stop(s: State): (r: State)
    ensures !r.autoCapture && r.intervalId.None?
    ensures r.timers.next == s.timers.next
    ensures r.timers.active == s.timers.active - HandleSet(s.intervalId)
    ensures r.canvas == s.canvas && r.sessions == s.sessions
    ensures r.inFlight == s.inFlight && r.delivered == s.delivered
  {
    var s1 := s.(autoCapture := false);
    match s1.intervalId
    case Some(h) => s1.(timers := s1.timers.(active := s1.timers.active - {h}), intervalId := None)
    case None => s1
  }

  /** `cleanup()`: the same as stopping, which is why `Step` maps
      `CleanupEvent` to `Stop`; this is `Stop` restricted to valid states,
      where it also leaves no interval of the instance armed. */
  function Cleanup(s: State): (r: State)
    requires Valid(s)
    ensures r == Stop(s)
    ensures !r.autoCapture && r.intervalId.None? && r.timers.active == map[]
    ensures r.timers.next == s.timers.next && r.canvas == s.canvas && r.sessions == s.sessions
    ensures r.inFlight == s.inFlight && r.delivered == s.delivered
  {
    Stop(s)
  }

  /** One run of `captureLoop` for `loop`: return at once when the flag is
      clear, otherwise start a capture on the shared canvas and leave its
      promise in flight. */
  function RunLoop(s: State, loop: Loop, video: Video, host: Host): (r: State)
    ensures !s.autoCapture ==> r == s
    ensures s.autoCapture ==>
              var c := CaptureFrame(s.canvas, video, Some(loop.settings), host);
              r.inFlight == s.inFlight + [InFlight(loop.session, c.result)] && r.canvas == c.canvas
    ensures r.autoCapture == s.autoCapture && r.intervalId == s.intervalId && r.timers == s.timers
    ensures r.sessions == s.sessions && r.delivered == s.delivered
  {
    if !s.autoCapture then s
    else
      var c := CaptureFrame(s.canvas, video, Some(loop.settings), host);
      s.(canvas := c.canvas, inFlight := s.inFlight + [InFlight(loop.session, c.result)])
  }

  /** `startAutoCapture(video, settings, onFrame)`: stop, set the flag, run
      the loop once straight away, then arm an interval with the next handle and
      the period `settings.intervalMs`. */
  function Start(s: State, settings: AutoSettings, video: Video, host: Host): (r: State)
    ensures r.autoCapture && r.intervalId == Some(s.timers.next)
    ensures r.timers.next == s.timers.next + 1
    ensures r.timers.active == (s.timers.active - HandleSet(s.intervalId))[s.timers.next := Interval(Loop(s.sessions, settings), settings.intervalMs.value)]
    ensures r.sessions == s.sessions + 1
    ensures var c := CaptureFrame(s.canvas, video, Some(settings), host);
            r.inFlight == s.inFlight + [InFlight(s.sessions, c.result)] && r.canvas == c.canvas
    ensures r.delivered == s.delivered
  {
    var stopped := Stop(s);
    var loop := Loop(stopped.sessions, settings);
    var armed := stopped.(autoCapture := true, sessions := stopped.sessions + 1);
    var ran := RunLoop(armed, loop, video, host);
    var h := ran.timers.next;
    ran.(timers := Timers(ran.timers.active[h := Interval(loop, settings.intervalMs.value)], h + 1), intervalId := Some(h))
  }

  /** The interval with handle `h` fires.  A cleared interval never fires, so
      an unknown handle changes nothing; otherwise its loop runs. */
  function Fire(s: State, h: Handle, video: Video, host: Host): (r: State)
    ensures h !in s.timers.active ==> r == s
    ensures h in s.timers.active ==> r == RunLoop(s, s.timers.active[h].loop, video, host)
  {
    if h in s.timers.active then RunLoop(s, s.timers.active[h].loop, video, host) else s
  }

  /** The in-flight capture at position `k` settles.  A frame is handed to
      that session's `onFrame`; an error is logged and swallowed.  Either way
      the flag and the interval stay as they are. */
  function Settle(s: State, k: nat): (r: State)
    ensures k >= |s.inFlight| ==> r == s
    ensures k < |s.inFlight| ==>
              && r.inFlight == s.inFlight[..k] + s.inFlight[k + 1..]
              && (s.inFlight[k].result.Err? ==> r.delivered == s.delivered)
              && (s.inFlight[k].result.Ok? ==>
                    r.delivered == s.delivered + [Delivery(s.inFlight[k].session, s.inFlight[k].result.value)])
    ensures r.autoCapture == s.autoCapture && r.intervalId == s.intervalId && r.timers == s.timers
    ensures r.canvas == s.canvas && r.sessions == s.sessions
  {
    if k >= |s.inFlight| then s
    else
      var f := s.inFlight[k];
      var rest := s.inFlight[..k] + s.inFlight[k + 1..];
      match f.result
      case Ok(frame) => s.(inFlight := rest, delivered := s.delivered + [Delivery(f.session, frame)])
      case Err(_) => s.(inFlight := rest)
  }

  datatype Event =
    | StartEvent(settings: AutoSettings, video: Video, host: Host)
    | StopEvent
    | CleanupEvent
    | FireEvent(handle: Handle, video: Video, host: Host)
    | SettleEvent(index: nat)

  function Step(s: State, e: Event): State {
    match e
    case StartEvent(settings, video, host) => Start(s, settings, video, host)
    case StopEvent => Stop(s)
    case CleanupEvent => Stop(s)
    case FireEvent(h, video, host) => Fire(s, h, video, host)
    case SettleEvent(k) => Settle(s, k)
  }

  function Run(s: State, events: seq<Event>): State
    decreases |events|
  {
    if events == [] then s else Run(Step(s, events[0]), events[1..])
  }

  // ---------------------------------------------------------------------------
  // The invariant
  // ---------------------------------------------------------------------------

  lemma InitValid()
    ensures Valid(Init())
  {
  }

  lemma StepPreservesValid(s: State, e: Event)
    requires Valid(s)
    ensures Valid(Step(s, e))
  {
    match e
    case StartEvent(settings, video, host) =>
      var r := Start(s, settings, video, host);
      assert r.timers.active.Keys == {s.timers.next};
      assert forall i :: 0 <= i < |r.inFlight| ==> r.inFlight[i].session < r.sessions by {
        forall i | 0 <= i < |r.inFlight| ensures r.inFlight[i].session < r.sessions {
          if i < |s.inFlight| { assert r.inFlight[i] == s.inFlight[i]; }
        }
      }
    case StopEvent =>
    case CleanupEvent =>
    case FireEvent(h, video, host) =>
      var r := Fire(s, h, video, host);
      if h in s.timers.active && s.autoCapture {
        assert s.timers.active[h].loop.session + 1 == s.sessions;
        forall i | 0 <= i < |r.inFlight| ensures r.inFlight[i].session < r.sessions {
          if i < |s.inFlight| { assert r.inFlight[i] == s.inFlight[i]; }
        }
      }
    case SettleEvent(k) =>
      var r := Settle(s, k);
      if k < |s.inFlight| {
        forall i | 0 <= i < |r.inFlight| ensures r.inFlight[i].session < r.sessions {
          if i < k { assert r.inFlight[i] == s.inFlight[i]; }
          else { assert r.inFlight[i] == s.inFlight[i + 1]; }
        }
      }
  }

  lemma {:induction false} RunPreservesValid(s: State, events: seq<Event>)
    requires Valid(s)
    ensures Valid(Run(s, events))
    decreases |events|
  {
    if events != [] {
      StepPreservesValid(s, events[0]);
      RunPreservesValid(Step(s, events[0]), events[1..]);
    }
  }

  /** At most one interval of the instance is ever armed. */
  lemma AtMostOneInterval(s: State)
    requires Valid(s)
    ensures |s.timers.active| <= 1
  {
    assert |s.timers.active| == |s.timers.active.Keys|;
  }

  /** Every reachable state keeps at most one interval armed. */
  lemma ReachableHasAtMostOneInterval(events: seq<Event>)
    ensures Valid(Run(Init(), events))
    ensures |Run(Init(), events).timers.active| <= 1
  {
    InitValid();
    RunPreservesValid(Init(), events);
    AtMostOneInterval(Run(Init(), events));
  }

  // ---------------------------------------------------------------------------
  // Start, stop and restart
  // ---------------------------------------------------------------------------

  /** Starting again replaces the running interval instead of adding one: the
      old handle is cleared and the new one is the only armed interval. */
  lemma RestartReplacesInterval(s: State, settings: AutoSettings, video: Video, host: Host)
    requires Valid(s)
    ensures var r := Start(s, settings, video, host);
            && r.timers.active.Keys == {s.timers.next}
            && (s.intervalId.Some? ==> s.intervalId.value !in r.timers.active)
  {
  }

  /** Stopping twice is stopping once. */
  lemma StopIdempotent(s: State)
    ensures Stop(Stop(s)) == Stop(s)
  {
  }

  /** Stopping an instance that is not capturing changes nothing; in
      particular stopping a fresh instance is a no-op. */
  lemma StopWhenIdleIsNoop(s: State)
    requires Valid(s) && !s.autoCapture
    ensures Stop(s) == s
  {
  }

  /** Once stopped, no tick can start a capture: every interval is cleared. */
  lemma NoTickAfterStop(s: State, h: Handle, video: Video, host: Host)
    requires Valid(s)
    ensures Fire(Stop(s), h, video, host) == Stop(s)
  {
  }

  /** Stopping does not cancel captures already in flight: one that settles
      with a frame after the stop is still handed to `onFrame`. */
  lemma InFlightDeliveredAfterStop(s: State, k: nat)
    requires k < |s.inFlight| && s.inFlight[k].result.Ok?
    ensures Settle(Stop(s), k).delivered
            == s.delivered + [Delivery(s.inFlight[k].session, s.inFlight[k].result.value)]
  {
  }

  // ---------------------------------------------------------------------------
  // Ticks and deliveries
  // ---------------------------------------------------------------------------

  /** What the browser supplies on one tick: the video's size and the host. */
  datatype Sample = Sample(video: Video, host: Host)

  function Ticks(h: Handle, samples: seq<Sample>): (es: seq<Event>)
    ensures |es| == |samples|
  {
    seq(|samples|, i requires 0 <= i < |samples| => FireEvent(h, samples[i].video, samples[i].host))
  }

  /** The captures that a run of ticks starts, in tick order. */
  function TickCaptures(session: nat, settings: Settings, canvas: Canvas, samples: seq<Sample>): (fs: seq<InFlight>)
    ensures |fs| == |samples|
  {
    seq(|samples|, i requires 0 <= i < |samples| =>
      InFlight(session, CaptureFrame(canvas, samples[i].video, Some(settings), samples[i].host).result))
  }

  /** While capturing, each tick of the held interval starts exactly one
      capture, with that interval's settings, and changes nothing else. */
  lemma {:induction false} OneCapturePerTick(s: State, samples: seq<Sample>)
    requires Valid(s) && s.autoCapture
    ensures var loop := s.timers.active[s.intervalId.value].loop;
            var r := Run(s, Ticks(s.intervalId.value, samples));
            && r.inFlight == s.inFlight + TickCaptures(loop.session, loop.settings, s.canvas, samples)
            && r.autoCapture && r.intervalId == s.intervalId && r.timers == s.timers
            && r.sessions == s.sessions && r.delivered == s.delivered
    decreases |samples|
  {
    var h := s.intervalId.value;
    var loop := s.timers.active[h].loop;
    if samples != [] {
      var es := Ticks(h, samples);
      var s1 := Step(s, es[0]);
      var c := CaptureFrame(s.canvas, samples[0].video, Some(loop.settings), samples[0].host);
      assert s1.inFlight == s.inFlight + [InFlight(loop.session, c.result)];
      assert es[1..] == Ticks(h, samples[1..]);
      OneCapturePerTick(s1, samples[1..]);
      var tail := TickCaptures(loop.session, loop.settings, s1.canvas, samples[1..]);
      assert tail == TickCaptures(loop.session, loop.settings, s.canvas, samples[1..]) by {
        forall i | 0 <= i < |samples[1..]| ensures tail[i] == TickCaptures(loop.session, loop.settings, s.canvas, samples[1..])[i] {
          CaptureIgnoresPreviousCanvas(s1.canvas, s.canvas, samples[1..][i].video, Some(loop.settings), samples[1..][i].host);
        }
      }
      assert [InFlight(loop.session, c.result)] + tail
             == TickCaptures(loop.session, loop.settings, s.canvas, samples);
    }
  }

  /** A start followed by n ticks of the new interval starts n + 1 captures:
      the immediate one, then one per tick. */
  lemma StartThenTicks(s: State, settings: AutoSettings, video: Video, host: Host, samples: seq<Sample>)
    requires Valid(s)
    ensures var r := Run(Start(s, settings, video, host), Ticks(s.timers.next, samples));
            && r.inFlight == s.inFlight
                             + [InFlight(s.sessions, CaptureFrame(s.canvas, video, Some(settings), host).result)]
                             + TickCaptures(s.sessions, settings, s.canvas, samples)
            && |r.inFlight| == |s.inFlight| + 1 + |samples|
  {
    var s1 := Start(s, settings, video, host);
    StepPreservesValid(s, StartEvent(settings, video, host));
    OneCapturePerTick(s1, samples);
    var t1 := TickCaptures(s.sessions, settings, s1.canvas, samples);
    assert t1 == TickCaptures(s.sessions, settings, s.canvas, samples) by {
      forall i | 0 <= i < |samples| ensures t1[i] == TickCaptures(s.sessions, settings, s.canvas, samples)[i] {
        CaptureIgnoresPreviousCanvas(s1.canvas, s.canvas, samples[i].video, Some(settings), samples[i].host);
      }
    }
  }

  /** The `onFrame` calls a list of in-flight captures yields: the frames,
      in order, with every failed capture dropped. */
  function Deliveries(fs: seq<InFlight>): (ds: seq<Delivery>)
    ensures |ds| <= |fs|
  {
    if fs == [] then []
    else
      var head := if fs[0].result.Ok? then [Delivery(fs[0].session, fs[0].result.value)] else [];
      head + Deliveries(fs[1..])
  }

  function SettleFirst(n: nat): (es: seq<Event>)
    ensures |es| == n
  {
    seq(n, i => SettleEvent(0))
  }

  /** Settling every in-flight capture in start order hands each successful
      frame to `onFrame` exactly once, in order, skips the failed ones, and
      leaves the flag and the interval untouched: a failure stops nothing. */
  lemma {:induction false} SettleAllInOrder(s: State)
    ensures var r := Run(s, SettleFirst(|s.inFlight|));
            && r.inFlight == []
            && r.delivered == s.delivered + Deliveries(s.inFlight)
            && r.autoCapture == s.autoCapture && r.intervalId == s.intervalId && r.timers == s.timers
    decreases |s.inFlight|
  {
    if s.inFlight != [] {
      var es := SettleFirst(|s.inFlight|);
      var s1 := Settle(s, 0);
      assert Step(s, es[0]) == s1;
      assert s1.inFlight == s.inFlight[1..];
      assert es[1..] == SettleFirst(|s1.inFlight|);
      SettleAllInOrder(s1);
      var head := if s.inFlight[0].result.Ok? then [Delivery(s.inFlight[0].session, s.inFlight[0].result.value)] else [];
      assert s1.delivered == s.delivered + head;
      assert s.delivered + head + Deliveries(s1.inFlight) == s.delivered + (head + Deliveries(s.inFlight[1..]));
    }
  }

  /** Failure isolation in one trace: start, tick through `samples`, then
      settle everything in order.  Every successful capture — the immediate
      one and each tick's — reaches `onFrame`, whatever failed in between. */
  lemma FailedTickDoesNotStopLoop(settings: AutoSettings, video: Video, host: Host, samples: seq<Sample>)
    ensures var s1 := Run(Start(Init(), settings, video, host), Ticks(1, samples));
            var r := Run(s1, SettleFirst(|s1.inFlight|));
            && r.autoCapture && r.intervalId == Some(1)
            && r.delivered == Deliveries([InFlight(0, CaptureFrame(InitialCanvas, video, Some(settings), host).result)]
                                         + TickCaptures(0, settings, InitialCanvas, samples))
  {
    InitValid();
    StartThenTicks(Init(), settings, video, host, samples);
    var s0 := Start(Init(), settings, video, host);
    StepPreservesValid(Init(), StartEvent(settings, video, host));
    OneCapturePerTick(s0, samples);
    var s1 := Run(s0, Ticks(1, samples));
    SettleAllInOrder(s1);
  }
}
