/** The photobooth page's state machine: `phase`, `count`, `stripUrl` and
    `cameraReady`, driven by `startSequence` (four timed shots, then the strip)
    and `reset`. Timers, the camera and the canvas are not modelled as such:
    each wait is a step in a ghost trace that records what the page shows
    while it waits, and each capture is a step that yields an opaque still. */
module CaptureSequencer {
  import opened StripComposer

  datatype Option<T> = None | Some(value: T)

  datatype Phase = Idle | Countdown | Result

  /** What the page renders: the phase, the countdown number (null shows the
      filler) and whether a strip is present. */
  datatype View = View(phase: Phase, count: Option<int>, hasStrip: bool)

  /** Steps of a capture session, each with the view at that moment:
      Tick is a one-second countdown wait, Shoot the capture of one still,
      Settle the pause after a capture. */
  datatype Event = Tick(view: View) | Shoot(shot: nat, view: View) | Settle(view: View)

  const ShotCount: nat := 4
  const CountdownStart: nat := 8
  /** Steps per shot: the countdown ticks, the capture, the settle pause. */
  const ShotLength: nat := CountdownStart + 2

  /** The view while the countdown shows n. */
  function Counting(n: int): View {
    View(Countdown, Some(n), false)
  }

  /** The view between the countdown and the next shot: frame shown, no number. */
  function Blank(): View {
    View(Countdown, None, false)
  }

  /** The countdown of one shot: CountdownStart, ..., 2, 1. */
  function CountdownEvents(): seq<Event> {
    seq(CountdownStart, j => Tick(Counting(CountdownStart - j)))
  }

  /** Everything one shot does, in order. */
  function ShotEvents(shot: nat): seq<Event> {
    CountdownEvents() + [Shoot(shot, Blank()), Settle(Blank())]
  }

  /** The first n shots of a session. */
  function SessionEvents(n: nat): seq<Event> {
    if n == 0 then [] else SessionEvents(n - 1) + ShotEvents(n - 1)
  }

  /** The shot numbers captured in a trace, in the order they were captured. */
  function Shots(es: seq<Event>): seq<nat> {
    if es == [] then []
    else Shots(es[..|es| - 1]) + (if es[|es| - 1].Shoot? then [es[|es| - 1].shot] else [])
  }

  /** The stills the camera hands over, shot 0 first. */
  function Captures(capture: nat -> Still): seq<Still> {
    seq(ShotCount, k requires 0 <= k < ShotCount => capture(k))
  }

  lemma {:induction false} SessionLength(n: nat)
    ensures |SessionEvents(n)| == ShotLength * n
  {
    if n > 0 {
      SessionLength(n - 1);
    }
  }

  /** Step p of a session is step p % ShotLength of shot p / ShotLength: the
      session is the shots one after another, each run in full. */
  lemma {:induction false} SessionEventAt(n: nat, p: nat)
    requires p < ShotLength * n
    ensures |SessionEvents(n)| == ShotLength * n
    ensures SessionEvents(n)[p] == ShotEvents(p / ShotLength)[p % ShotLength]
  {
    SessionLength(n);
    SessionLength(n - 1);
    if p < ShotLength * (n - 1) {
      SessionEventAt(n - 1, p);
    } else {
      var q := p - ShotLength * (n - 1);
      assert SessionEvents(n)[p] == ShotEvents(n - 1)[q];
      assert p == ShotLength * (n - 1) + q && 0 <= q < ShotLength;
      assert p / ShotLength == n - 1 && p % ShotLength == q;
    }
  }

  /** Every capture shows the frame without a number, and comes right after a
      full countdown from CountdownStart down to 1 (the step t places before
      the capture shows t); the shot it captures is the one its position in
      the session belongs to. */
  lemma ShootAfterCountdown(n: nat, p: nat)
    requires p < |SessionEvents(n)| && SessionEvents(n)[p].Shoot?
    ensures p >= CountdownStart
    ensures SessionEvents(n)[p] == Shoot(p / ShotLength, Blank())
    ensures forall t | p - CountdownStart <= t < p :: SessionEvents(n)[t] == Tick(Counting(p - t))
  {
    SessionLength(n);
    SessionEventAt(n, p);
    var s, q := p / ShotLength, p % ShotLength;
    assert q == CountdownStart;
    forall t | p - CountdownStart <= t < p
      ensures SessionEvents(n)[t] == Tick(Counting(p - t))
    {
      SessionEventAt(n, t);
      assert t / ShotLength == s;
      assert t % ShotLength == CountdownStart - (p - t);
    }
  }

  /** Throughout the session the page is in the countdown phase and shows no strip. */
  lemma SessionStaysInCountdown(n: nat, p: nat)
    requires p < |SessionEvents(n)|
    ensures SessionEvents(n)[p].view.phase == Countdown
    ensures !SessionEvents(n)[p].view.hasStrip
  {
    SessionLength(n);
    SessionEventAt(n, p);
  }

  lemma {:induction false} ShotsAppend(a: seq<Event>, b: seq<Event>)
    ensures Shots(a + b) == Shots(a) + Shots(b)
  {
    if b != [] {
      assert (a + b)[..|a + b| - 1] == a + b[..|b| - 1];
      ShotsAppend(a, b[..|b| - 1]);
    } else {
      assert a + b == a;
    }
  }

  lemma {:induction false} ShotsOfTicks(k: nat)
    requires k <= CountdownStart
    ensures Shots(CountdownEvents()[..k]) == []
  {
    if k > 0 {
      assert CountdownEvents()[..k][..k - 1] == CountdownEvents()[..k - 1];
      ShotsOfTicks(k - 1);
    }
  }

  /** A session of n shots captures shots 0, 1, ..., n - 1, each exactly
      once, in that order. */
  lemma {:induction false} ShotsInOrder(n: nat)
    ensures Shots(SessionEvents(n)) == seq(n, k => k)
  {
    if n > 0 {
      ShotsInOrder(n - 1);
      ShotsAppend(SessionEvents(n - 1), ShotEvents(n - 1));
      ShotsOfTicks(CountdownStart);
      assert CountdownEvents()[..CountdownStart] == CountdownEvents();
      ShotsAppend(CountdownEvents(), [Shoot(n - 1, Blank())]);
      ShotsAppend(CountdownEvents() + [Shoot(n - 1, Blank())], [Settle(Blank())]);
      assert Shots([Shoot(n - 1, Blank())]) == [n - 1];
      assert Shots([Settle(Blank())]) == [];
      assert ShotEvents(n - 1) == CountdownEvents() + [Shoot(n - 1, Blank())] + [Settle(Blank())];
    }
  }

  /** The page component and its state. */
  class Booth {
    var cameraReady: bool
    var phase: Phase
    var count: Option<int>
    var stripUrl: Option<Strip>
    /** Every session step taken so far. */
    ghost var trace: seq<Event>

    function Current(): View
      reads this
    {
      View(phase, count, stripUrl.Some?)
    }

    /** The state between user actions: no countdown showing, and a strip of
        all the shots exactly when the result is on screen. */
    predicate AtRest()
      reads this
    {
      phase != Countdown && count == None &&
      (phase == Result <==> stripUrl.Some?) &&
      (stripUrl.Some? ==>
        stripUrl.value.width == Width && stripUrl.value.height == StripHeight(ShotCount) &&
        |stripUrl.value.draws| == ShotCount)
    }

    /** The START button is rendered. */
    predicate StartOffered()
      reads this
    {
      phase == Idle && cameraReady
    }

    /** The page as first rendered. */
    constructor ()
      ensures !cameraReady && phase == Idle && count == None && stripUrl == None
      ensures trace == [] && AtRest() && !StartOffered()
    {
      cameraReady := false;
      phase := Idle;
      count := None;
      stripUrl := None;
      trace := [];
    }

    /** The camera stream was attached to the video element. */
    method CameraAttached()
      modifies this`cameraReady
      ensures cameraReady
      ensures phase == old(phase) && count == old(count) && stripUrl == old(stripUrl)
      ensures StartOffered() <==> phase == Idle
      ensures AtRest() == old(AtRest())
    {
      cameraReady := true;
    }

    /** Runs one session: clears the strip, takes ShotCount shots each after
        a countdown from CountdownStart, builds the strip from them and shows it. */
    method StartSequence(capture: nat -> Still)
      requires forall k | 0 <= k < ShotCount :: Decodable(capture(k))
      modifies this`stripUrl, this`phase, this`count, this`trace
      ensures trace == old(trace) + SessionEvents(ShotCount)
      ensures phase == Result && count == None
      ensures stripUrl == Some(Layout(Captures(capture)))
      ensures cameraReady == old(cameraReady)
      ensures AtRest()
    {
      stripUrl := None;
      var shots: seq<Still> := [];
      for shot := 0 to ShotCount
        invariant shots == seq(shot, k requires 0 <= k < shot => capture(k))
        invariant 0 < shot ==> count == None
        invariant stripUrl == None
        invariant trace == old(trace) + SessionEvents(shot)
      {
        phase := Countdown;
        var i := CountdownStart;
        while i > 0
          invariant 0 <= i <= CountdownStart
          invariant phase == Countdown && stripUrl == None
          invariant trace == old(trace) + SessionEvents(shot) + CountdownEvents()[..CountdownStart - i]
        {
          count := Some(i);
          trace := trace + [Tick(Current())];
          i := i - 1;
        }
        assert CountdownEvents()[..CountdownStart] == CountdownEvents();
        count := None;
        shots := shots + [capture(shot)];
        trace := trace + [Shoot(shot, Current())];
        trace := trace + [Settle(Current())];
      }
      assert shots == Captures(capture);
      var strip := BuildStrip(shots);
      stripUrl := Some(strip);
      phase := Result;
    }

    /** RESTART: back to the idle screen; the camera stays ready. */
    method Reset()
      modifies this`stripUrl, this`count, this`phase
      ensures stripUrl == None && count == None && phase == Idle
      ensures cameraReady == old(cameraReady) && trace == old(trace)
      ensures AtRest() && (StartOffered() <==> cameraReady)
    {
      stripUrl := None;
      count := None;
      phase := Idle;
    }
  }
}
