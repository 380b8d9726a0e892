/** `Clock`: the frame clock. Each `tick(currentTime)` (milliseconds) records
    the time since the previous tick in seconds, counts frames into a
    half-second window whose count, doubled, becomes the frames-per-second
    figure, and raises the entity-update flag at most once every 50 ms. */
module Clocks {

  /** Length of the frames-per-second window in milliseconds. */
  const FpsWindow: real := 500.0

  /** Minimum time between two entity updates, in milliseconds: 1000 / 20.
      The source keeps it in a field called `updatesPerSecond`. */
  const UpdateInterval: real := 1000.0 / 20.0

  /** Everything a clock holds. */
  datatype ClockState = ClockState(
    fpsCounter: int,
    previousTime: real,
    previousFpsTime: real,
    updatePreviousTime: real,
    updateEntities: bool,
    deltaTime: real,
    fps: int)

  /** A new clock: every counter and time zero, no update pending. */
  const InitialClock: ClockState := ClockState(0, 0.0, 0.0, 0.0, false, 0.0, 0)

  /** The clock after `tick(t)`: the frame counter either restarts with a
      new window or counts this tick, and a raised update flag always comes
      with a new update interval starting at this tick. */
  function Step(s: ClockState, t: real): (r: ClockState)
    ensures r.fpsCounter == 0 || r.fpsCounter == s.fpsCounter + 1
    ensures r.previousTime == t
    ensures r.updateEntities ==> r.updatePreviousTime == t
    ensures Sane(s) ==> Sane(r)
  {
    var counted := s.fpsCounter + 1;
    var closes := t - s.previousFpsTime >= FpsWindow;
    var update := t - s.updatePreviousTime >= UpdateInterval;
    ClockState(
      fpsCounter := if closes then 0 else counted,
      previousTime := t,
      previousFpsTime := if closes then t else s.previousFpsTime,
      updatePreviousTime := if update then t else s.updatePreviousTime,
      updateEntities := update,
      deltaTime := (t - s.previousTime) * 0.001,
      fps := if closes then counted * 2 else s.fps)
  }

  /** The clock after ticking at each of `ts` in turn. */
  function Run(s: ClockState, ts: seq<real>): ClockState
    decreases |ts|
  {
    if |ts| == 0 then s else Step(Run(s, ts[..|ts| - 1]), ts[|ts| - 1])
  }

  /** Counters are never negative and the frame rate is always even. */
  ghost predicate Sane(s: ClockState) {
    s.fpsCounter >= 0 && s.fps >= 0 && s.fps % 2 == 0
  }

  lemma {:induction false} RunKeepsSane(s: ClockState, ts: seq<real>)
    requires Sane(s)
    ensures Sane(Run(s, ts))
    decreases |ts|
  {
    if |ts| > 0 {
      RunKeepsSane(s, ts[..|ts| - 1]);
    }
  }

  /** A new clock is sane, so every clock the game runs is. */
  lemma InitialClockSane(ts: seq<real>)
    ensures Sane(Run(InitialClock, ts))
  {
    RunKeepsSane(InitialClock, ts);
  }

  /** The window start only moves forward, by at least a window each time
      it moves; while it stays put, every tick is counted. */
  lemma {:induction false} FpsCounterCountsTicks(s: ClockState, ts: seq<real>)
    ensures Run(s, ts).previousFpsTime == s.previousFpsTime ==> Run(s, ts).fpsCounter == s.fpsCounter + |ts|
    ensures Run(s, ts).previousFpsTime != s.previousFpsTime ==> Run(s, ts).previousFpsTime >= s.previousFpsTime + FpsWindow
    decreases |ts|
  {
    if |ts| > 0 {
      FpsCounterCountsTicks(s, ts[..|ts| - 1]);
    }
  }

  /** The figure reported when a window closes is twice the number of
      ticks in it: those of a run that left the window open, plus the
      closing tick. */
  lemma FpsReportsTicksInWindow(s: ClockState, ts: seq<real>, t: real)
    requires Run(s, ts).previousFpsTime == s.previousFpsTime
    requires t - s.previousFpsTime >= FpsWindow
    ensures Run(s, ts + [t]).fps == 2 * (s.fpsCounter + |ts| + 1)
    ensures Run(s, ts + [t]).fpsCounter == 0 && Run(s, ts + [t]).previousFpsTime == t
  {
    FpsCounterCountsTicks(s, ts);
    assert (ts + [t])[..|ts|] == ts;
  }

  /** The `deltaTime` of each tick of a run, in order. */
  function Deltas(s: ClockState, ts: seq<real>): (d: seq<real>)
    ensures |d| == |ts|
    decreases |ts|
  {
    if |ts| == 0 then []
    else Deltas(s, ts[..|ts| - 1]) + [Run(s, ts).deltaTime]
  }

  function Sum(xs: seq<real>): real
    decreases |xs|
  {
    if |xs| == 0 then 0.0 else Sum(xs[..|xs| - 1]) + xs[|xs| - 1]
  }

  /** The seconds reported tick by tick add up to the time elapsed since
      the tick before the run, so no time is lost or counted twice. */
  lemma {:induction false} DeltasTelescope(s: ClockState, ts: seq<real>)
    requires |ts| > 0
    ensures Sum(Deltas(s, ts)) == (ts[|ts| - 1] - s.previousTime) * 0.001
    decreases |ts|
  {
    var init := ts[..|ts| - 1];
    assert Deltas(s, ts)[..|ts| - 1] == Deltas(s, init);
    if |init| > 0 {
      DeltasTelescope(s, init);
      assert init[|init| - 1] == Run(s, init).previousTime;
    }
  }

  /** The times at which a run raised the entity-update flag. */
  function UpdateTimes(s: ClockState, ts: seq<real>): seq<real>
    decreases |ts|
  {
    if |ts| == 0 then []
    else UpdateTimes(s, ts[..|ts| - 1]) + (if Run(s, ts).updateEntities then [ts[|ts| - 1]] else [])
  }

  /** Every update comes at least `UpdateInterval` after the one before it
      (the first one after the clock's last update). */
  ghost predicate Spaced(previous: real, times: seq<real>) {
    (|times| > 0 ==> times[0] - previous >= UpdateInterval) &&
    forall k :: 0 < k < |times| ==> times[k] - times[k - 1] >= UpdateInterval
  }

  /** Entities are updated at most once per interval, however irregular
      the ticks; the clock remembers the time of the last update. */
  lemma {:induction false} UpdatesSpaced(s: ClockState, ts: seq<real>)
    ensures Spaced(s.updatePreviousTime, UpdateTimes(s, ts))
    ensures Run(s, ts).updatePreviousTime ==
      if |UpdateTimes(s, ts)| == 0 then s.updatePreviousTime else UpdateTimes(s, ts)[|UpdateTimes(s, ts)| - 1]
    decreases |ts|
  {
    if |ts| > 0 {
      UpdatesSpaced(s, ts[..|ts| - 1]);
    }
  }

  /** A tick updates entities exactly when at least an interval has passed
      since the last update, and then restarts the interval. */
  lemma UpdateGate(s: ClockState, t: real)
    ensures Step(s, t).updateEntities <==> t >= s.updatePreviousTime + 50.0
    ensures Step(s, t).updateEntities ==> Step(s, t).updatePreviousTime == t
    ensures !Step(s, t).updateEntities ==> Step(s, t).updatePreviousTime == s.updatePreviousTime
  {
  }

  class Clock {
    var fpsCounter: int
    var previousTime: real
    var previousFpsTime: real
    const updatesPerSecond: real := 1000.0 / 20.0
    var updatePreviousTime: real
    var updateEntities: bool
    var deltaTime: real
    var fps: int

    /** The clock's fields as a value. */
    function State(): ClockState
      reads this
    {
      ClockState(fpsCounter, previousTime, previousFpsTime, updatePreviousTime, updateEntities, deltaTime, fps)
    }

    constructor ()
      ensures State() == InitialClock
    {
      fpsCounter := 0;
      previousTime := 0.0;
      previousFpsTime := 0.0;
      updatePreviousTime := 0.0;
      updateEntities := false;
      deltaTime := 0.0;
      fps := 0;
    }

    /** The `updateEntities` getter: whether the last tick updates entities. */
    function UpdateEntities(): (u: bool)
      reads this
      ensures u == State().updateEntities
    {
      updateEntities
    }

    /** `tick(currentTime)`. */
    method Tick(currentTime: real)
      modifies this
      ensures State() == Step(old(State()), currentTime)
      ensures UpdateEntities() <==> currentTime >= old(updatePreviousTime) + 50.0
    {
      fpsCounter := fpsCounter + 1;

      deltaTime := (currentTime - previousTime) * 0.001;
      previousTime := currentTime;

      if currentTime - previousFpsTime >= 500.0 {
        previousFpsTime := currentTime;
        fps := fpsCounter * 2;
        fpsCounter := 0;
      }

      if currentTime - updatePreviousTime >= updatesPerSecond {
        updateEntities := true;
        updatePreviousTime := currentTime;
      } else {
        updateEntities := false;
      }
    }
  }
}
