/** The manual stopwatch (crates/overcrow-core/src/manual_stopwatch.rs). */
module Stopwatch {
  import opened Common
  import opened Processes

  const MILLIS_MAX: nat := 0xFFFF_FFFF_FFFF_FFFF

  /** `as_millis` cut to 64 bits. */
  function Millis(duration: nat): nat { Min(duration / 1_000_000, MILLIS_MAX) }

  datatype Watch = Watch(accumulated: Duration, startedAt: Option<Instant>)

  datatype Reading = Reading(elapsedMs: nat, running: bool)

  const STOPPED := Watch(0, None)

  function Toggled(watch: Watch, now: Instant): Watch
  {
    match watch.startedAt
    case Some(start) => Watch(SaturatingAdd(watch.accumulated, Since(now, start)), None)
    case None => watch.(startedAt := Some(now))
  }

  function ReadAt(watch: Watch, now: Instant): Reading
  {
    var elapsed := match watch.startedAt
                   case Some(start) => SaturatingAdd(watch.accumulated, Since(now, start))
                   case None => watch.accumulated;
    Reading(Millis(elapsed), watch.startedAt.Some?)
  }

  /** Time covered by the runs that a list of toggle times begins and ends: the
      first starts a run, the second ends it, and so on; an open run lasts to `now`. */
  function RunTime(toggles: seq<Instant>, now: Instant): nat
  {
    if toggles == [] then 0
    else if |toggles| == 1 then Since(now, toggles[0])
    else Since(toggles[1], toggles[0]) + RunTime(toggles[2..], now)
  }

  function After(toggles: seq<Instant>): Watch
  {
    if toggles == [] then STOPPED else Toggled(After(toggles[..|toggles| - 1]), toggles[|toggles| - 1])
  }

  lemma AfterLast(toggles: seq<Instant>, last: Instant)
    ensures After(toggles + [last]) == Toggled(After(toggles), last)
  {
    assert (toggles + [last])[..|toggles|] == toggles;
  }

  /** After an even number of toggles every run is over. */
  lemma {:induction false} EvenRuns(toggles: seq<Instant>, now: Instant)
    requires |toggles| % 2 == 0
    ensures After(toggles) == Watch(Min(RunTime(toggles, now), DURATION_MAX), None)
  {
    hide After, RunTime;
    if toggles == [] {
      OneRun(now, now, now);
    } else {
      var even, start, last := toggles[..|toggles| - 2], toggles[|toggles| - 2], toggles[|toggles| - 1];
      EvenRuns(even, now);
      AfterLast(even, start);
      AfterLast(even + [start], last);
      OneRun(start, last, now);
      RunTimeSplit(even, [start, last], now);
      assert toggles == even + [start] + [last] == even + [start, last];
    }
  }

  lemma OneRun(start: Instant, last: Instant, now: Instant)
    ensures RunTime([start, last], now) == Since(last, start)
    ensures RunTime([start], now) == Since(now, start)
    ensures After([]) == STOPPED && RunTime([], now) == 0
  {
    assert RunTime([start, last][2..], now) == 0;
  }

  /** A stopwatch that was reset and then toggled at the given times reads the sum
      of its run intervals, and runs after an odd number of toggles. */
  lemma ReadsRunTime(toggles: seq<Instant>, now: Instant)
    ensures ReadAt(After(toggles), now)
            == Reading(Millis(Min(RunTime(toggles, now), DURATION_MAX)), |toggles| % 2 == 1)
  {
    hide After, RunTime, Millis;
    if |toggles| % 2 == 0 {
      EvenRuns(toggles, now);
    } else {
      var even, last := toggles[..|toggles| - 1], toggles[|toggles| - 1];
      EvenRuns(even, now);
      AfterLast(even, last);
      OneRun(last, last, now);
      RunTimeSplit(even, [last], now);
      assert toggles == even + [last];
    }
  }

  lemma {:induction false} RunTimeSplit(even: seq<Instant>, rest: seq<Instant>, now: Instant)
    requires |even| % 2 == 0
    ensures RunTime(even + rest, now) == RunTime(even, now) + RunTime(rest, now)
  {
    if even == [] {
      assert even + rest == rest;
    } else {
      assert (even + rest)[2..] == even[2..] + rest;
      RunTimeSplit(even[2..], rest, now);
    }
  }

  class ManualStopwatch {
    var accumulated: Duration
    var startedAt: Option<Instant>

    ghost function View(): Watch
      reads this
    {
      Watch(accumulated, startedAt)
    }

    constructor ()
      ensures View() == STOPPED
    {
      accumulated := 0;
      startedAt := None;
    }

    method Toggle(now: Instant)
      modifies this
      ensures View() == Toggled(old(View()), now)
    {
      var taken := startedAt;
      startedAt := None;
      match taken {
        case Some(start) => accumulated := SaturatingAdd(accumulated, Since(now, start));
        case None => startedAt := Some(now);
      }
    }

    method Reset()
      modifies this
      ensures View() == STOPPED
    {
      accumulated := 0;
      startedAt := None;
    }

    method SnapshotAt(now: Instant) returns (reading: Reading)
      ensures reading == ReadAt(View(), now)
    {
      var elapsed := accumulated;
      if startedAt.Some? {
        elapsed := SaturatingAdd(elapsed, Since(now, startedAt.value));
      }
      reading := Reading(Millis(elapsed), startedAt.Some?);
    }
  }
}
