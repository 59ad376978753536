/** The update controller as an object. Because the operation guard is exclusive, a call
    that gets it runs undisturbed: it does what its own steps of the machine do, in a row. */
module UpdatesService {
  import opened Common
  import opened UpdateRelease
  import opened Updates
  import opened UpdatesSafety

  /** The steps of a check. Steps that a shorter course leaves over have no effect. */
  function CheckSteps(t: nat, force: bool, now: int, found: Reply<Option<UpdateCandidate>>): seq<Step>
  {
    [BeginCheck(t, force)] + ([Clock(t, now)] + ([Proceed(t)] + ([Proceed(t)] + QuerySteps(t, found))))
  }

  function QuerySteps(t: nat, found: Reply<Option<UpdateCandidate>>): seq<Step>
  {
    [Queried(t, found)] + LastSteps(t)
  }

  function LastSteps(t: nat): seq<Step> { [Proceed(t)] + ([Proceed(t)] + []) }

  function InstallSteps(t: nat, fetched: Reply<()>, stopped: Reply<()>, installed: Reply<bool>): seq<Step>
  {
    [BeginInstall(t)] + ([Proceed(t)] + ([Proceed(t)] + FetchSteps(t, fetched, stopped, installed)))
  }

  function FetchSteps(t: nat, fetched: Reply<()>, stopped: Reply<()>, installed: Reply<bool>): seq<Step>
  {
    [Fetched(t, fetched)] + ([RuntimeStopped(t, stopped)] + InstallerSteps(t, installed))
  }

  function InstallerSteps(t: nat, installed: Reply<bool>): seq<Step>
  {
    [Proceed(t)] + ([PackageInstalled(t, installed)] + LastSteps(t))
  }

  function RunOn(s: State, steps: seq<Step>): State
    decreases |steps|
  {
    if steps == [] then s else RunOn(Next(s, steps[0]), steps[1..])
  }

  lemma {:induction false} RunOnIsRun(s: State, steps: seq<Step>, done: seq<Step>)
    ensures RunOn(Run(s, done), steps) == Run(s, done + steps)
  {
    if steps == [] {
      assert done + steps == done;
    } else {
      var longer := done + [steps[0]];
      assert longer[..|longer| - 1] == done;
      RunOnIsRun(s, steps[1..], longer);
      assert longer + steps[1..] == done + steps;
    }
  }

  /** What a check amounts to when it gets the guard. */
  function Checked(s: State, force: bool, now: int, found: Reply<Option<UpdateCandidate>>): State
  {
    var s := Log(s, Read(now));
    if TooSoon(s.inner.lastAttempt, now, force) then s
    else
      var s := Log(s, Attempt(now, force)).(inner := Announced(s.inner, now));
      match found
      case Raised(error) => s.(inner := FailedWith(s.inner, error))
      case Returned(candidate) => Log(s, Found(candidate)).(inner := Settled(s.manual, s.inner, now, candidate))
  }

  function InstalledUpdate(s: State, fetched: Reply<()>, stopped: Reply<()>, installed: Reply<bool>): State
  {
    if !Installable(s.manual, s.inner.candidate) then s
    else
      var package := s.inner.candidate.value;
      var s := s.(inner := Entered(s.inner, Downloading));
      if fetched.Raised? then s.(inner := FailedWith(s.inner, fetched.error))
      else
        var s := Log(s, Downloaded(package));
        if stopped.Raised? then s.(inner := FailedWith(s.inner, stopped.error))
        else
          var s := Log(Log(s, Stopped), InstallerRan(package)).(inner := Entered(s.inner, Installing));
          match installed
          case Raised(error) => s.(inner := FailedWith(s.inner, error))
          case Returned(restart) => s.(inner := Entered(s.inner, if restart then RestartRequired else Installed))
  }

  lemma Unfold(s: State, step: Step, steps: seq<Step>)
    ensures RunOn(s, [step] + steps) == RunOn(Next(s, step), steps)
  {
    assert ([step] + steps)[1..] == steps;
  }

  /** Steps of a thread that does not hold the guard and cannot take it have no effect. */
  lemma {:induction false} Absent(s: State, t: nat, steps: seq<Step>)
    requires t !in s.threads
    requires forall k :: 0 <= k < |steps| ==>
               steps[k].thread == t && (s.busy || (!steps[k].BeginCheck? && !steps[k].BeginInstall?))
    ensures RunOn(s, steps) == s
    decreases |steps|
  {
    if steps != [] {
      Absent(s, t, steps[1..]);
    }
  }

  /** The state of a thread that holds the guard. */
  function At(s: State, t: nat, position: Position): State
  {
    s.(busy := true, threads := map[t := position])
  }

  predicate Free(s: State) { !s.busy && s.threads == map[] }

  lemma Finishes(s: State, t: nat, steps: seq<Step>)
    requires Free(s)
    requires forall k :: 0 <= k < |steps| ==> !steps[k].BeginCheck? && !steps[k].BeginInstall? && steps[k].thread == t
    ensures RunOn(At(s, t, Finishing), [Proceed(t)] + steps) == s
  {
    hide RunOn;
    Unfold(At(s, t, Finishing), Proceed(t), steps);
    assert Next(At(s, t, Finishing), Proceed(t)) == s by {
      assert map[t := Finishing] - {t} == map[];
    }
    Absent(s, t, steps);
  }

  lemma FailsAndFinishes(s: State, t: nat, error: UpdateError)
    requires Free(s)
    ensures RunOn(At(s, t, Fail(error)), LastSteps(t)) == s.(inner := FailedWith(s.inner, error))
  {
    hide RunOn;
    var after := s.(inner := FailedWith(s.inner, error));
    Unfold(At(s, t, Fail(error)), Proceed(t), [Proceed(t)] + []);
    assert Next(At(s, t, Fail(error)), Proceed(t)) == At(after, t, Finishing);
    Finishes(after, t, []);
  }

  lemma QueryAlone(s: State, t: nat, now: int, found: Reply<Option<UpdateCandidate>>)
    requires Free(s)
    ensures RunOn(At(s, t, Query(now)), QuerySteps(t, found))
            == match found
               case Raised(error) => s.(inner := FailedWith(s.inner, error))
               case Returned(candidate) =>
                 Log(s, Found(candidate)).(inner := Settled(s.manual, s.inner, now, candidate))
  {
    hide RunOn;
    Unfold(At(s, t, Query(now)), Queried(t, found), LastSteps(t));
    match found {
      case Raised(error) =>
        assert Next(At(s, t, Query(now)), Queried(t, found)) == At(s, t, Fail(error));
        FailsAndFinishes(s, t, error);
      case Returned(candidate) =>
        assert Next(At(s, t, Query(now)), Queried(t, found)) == At(s, t, Settle(now, candidate));
        Unfold(At(s, t, Settle(now, candidate)), Proceed(t), [Proceed(t)] + []);
        var after := Log(s, Found(candidate)).(inner := Settled(s.manual, s.inner, now, candidate));
        assert Next(At(s, t, Settle(now, candidate)), Proceed(t)) == At(after, t, Finishing);
        Finishes(after, t, []);
    }
  }

  lemma GateAlone(s: State, t: nat, force: bool, now: int, found: Reply<Option<UpdateCandidate>>)
    requires Free(s)
    ensures RunOn(At(Log(s, Read(now)), t, Gate(force, now)), [Proceed(t)] + ([Proceed(t)] + QuerySteps(t, found)))
            == Checked(s, force, now, found)
  {
    hide RunOn;
    var rest := QuerySteps(t, found);
    var logged := Log(s, Read(now));
    var gate := At(logged, t, Gate(force, now));
    Unfold(gate, Proceed(t), [Proceed(t)] + rest);
    if TooSoon(s.inner.lastAttempt, now, force) {
      assert Next(gate, Proceed(t)) == At(logged, t, Finishing);
      Finishes(logged, t, rest);
    } else {
      var due := At(logged, t, Announce(force, now));
      assert Next(gate, Proceed(t)) == due;
      Unfold(due, Proceed(t), rest);
      var after := Log(logged, Attempt(now, force)).(inner := Announced(s.inner, now));
      assert Next(due, Proceed(t)) == At(after, t, Query(now));
      QueryAlone(after, t, now, found);
    }
  }

  /** A check that finds the guard taken changes nothing; one that gets it does the whole
      operation and gives the guard back. */
  lemma CheckAlone(s: State, t: nat, force: bool, now: int, found: Reply<Option<UpdateCandidate>>)
    requires Exclusive(s) && t !in s.threads
    ensures RunOn(s, CheckSteps(t, force, now, found)) == if s.busy then s else Checked(s, force, now, found)
  {
    hide RunOn;
    var steps := CheckSteps(t, force, now, found);
    if s.busy {
      Absent(s, t, steps);
    } else {
      var rest := [Proceed(t)] + ([Proceed(t)] + QuerySteps(t, found));
      Unfold(s, BeginCheck(t, force), [Clock(t, now)] + rest);
      assert Next(s, BeginCheck(t, force)) == At(s, t, CheckStart(force));
      Unfold(At(s, t, CheckStart(force)), Clock(t, now), rest);
      assert Next(At(s, t, CheckStart(force)), Clock(t, now)) == At(Log(s, Read(now)), t, Gate(force, now));
      GateAlone(s, t, force, now, found);
    }
  }

  lemma InstallerAlone(s: State, t: nat, package: UpdateCandidate, installed: Reply<bool>)
    requires Free(s)
    ensures RunOn(At(s, t, InstallDue(package)), InstallerSteps(t, installed))
            == var s := Log(s, InstallerRan(package)).(inner := Entered(s.inner, Installing));
               match installed
               case Raised(error) => s.(inner := FailedWith(s.inner, error))
               case Returned(restart) => s.(inner := Entered(s.inner, if restart then RestartRequired else Installed))
  {
    hide RunOn;
    var tail := LastSteps(t);
    Unfold(At(s, t, InstallDue(package)), Proceed(t), [PackageInstalled(t, installed)] + tail);
    var running := Log(s, InstallerRan(package)).(inner := Entered(s.inner, Installing));
    assert Next(At(s, t, InstallDue(package)), Proceed(t)) == At(running, t, Install(package));
    Unfold(At(running, t, Install(package)), PackageInstalled(t, installed), tail);
    match installed {
      case Raised(error) =>
        assert Next(At(running, t, Install(package)), PackageInstalled(t, installed)) == At(running, t, Fail(error));
        FailsAndFinishes(running, t, error);
      case Returned(restart) =>
        assert Next(At(running, t, Install(package)), PackageInstalled(t, installed))
               == At(running, t, Conclude(restart));
        Unfold(At(running, t, Conclude(restart)), Proceed(t), [Proceed(t)] + []);
        var after := running.(inner := Entered(running.inner, if restart then RestartRequired else Installed));
        assert Next(At(running, t, Conclude(restart)), Proceed(t)) == At(after, t, Finishing);
        Finishes(after, t, []);
    }
  }

  /** A failed download or stop leaves the later steps of the list without effect. */
  lemma FailsEarly(s: State, t: nat, error: UpdateError, installed: Reply<bool>)
    requires Free(s)
    ensures RunOn(At(s, t, Fail(error)), InstallerSteps(t, installed))
            == s.(inner := FailedWith(s.inner, error))
  {
    hide RunOn;
    var after := s.(inner := FailedWith(s.inner, error));
    Unfold(At(s, t, Fail(error)), Proceed(t), [PackageInstalled(t, installed)] + LastSteps(t));
    assert Next(At(s, t, Fail(error)), Proceed(t)) == At(after, t, Finishing);
    Unfold(At(after, t, Finishing), PackageInstalled(t, installed), LastSteps(t));
    assert Next(At(after, t, Finishing), PackageInstalled(t, installed)) == At(after, t, Finishing);
    Finishes(after, t, [Proceed(t)] + []);
  }

  lemma FetchAlone(s: State, t: nat, package: UpdateCandidate, fetched: Reply<()>, stopped: Reply<()>,
                   installed: Reply<bool>)
    requires Free(s) && Chosen(s, package)
    ensures RunOn(At(s.(inner := Entered(s.inner, Downloading)), t, Fetch(package)),
                  FetchSteps(t, fetched, stopped, installed))
            == InstalledUpdate(s, fetched, stopped, installed)
  {
    hide RunOn;
    var tail := InstallerSteps(t, installed);
    var loading := s.(inner := Entered(s.inner, Downloading));
    Unfold(At(loading, t, Fetch(package)), Fetched(t, fetched), [RuntimeStopped(t, stopped)] + tail);
    if fetched.Raised? {
      assert Next(At(loading, t, Fetch(package)), Fetched(t, fetched)) == At(loading, t, Fail(fetched.error));
      Unfold(At(loading, t, Fail(fetched.error)), RuntimeStopped(t, stopped), tail);
      FailsEarly(loading, t, fetched.error, installed);
    } else {
      var loaded := Log(loading, Downloaded(package));
      assert Next(At(loading, t, Fetch(package)), Fetched(t, fetched)) == At(loaded, t, StopDue(package));
      Unfold(At(loaded, t, StopDue(package)), RuntimeStopped(t, stopped), tail);
      if stopped.Raised? {
        assert Next(At(loaded, t, StopDue(package)), RuntimeStopped(t, stopped)) == At(loaded, t, Fail(stopped.error));
        FailsEarly(loaded, t, stopped.error, installed);
      } else {
        assert Next(At(loaded, t, StopDue(package)), RuntimeStopped(t, stopped))
               == At(Log(loaded, Stopped), t, InstallDue(package));
        InstallerAlone(Log(loaded, Stopped), t, package, installed);
      }
    }
  }

  lemma StartAlone(s: State, t: nat, fetched: Reply<()>, stopped: Reply<()>, installed: Reply<bool>)
    requires Free(s)
    ensures RunOn(At(s, t, InstallStart), [Proceed(t)] + ([Proceed(t)] + FetchSteps(t, fetched, stopped, installed)))
            == InstalledUpdate(s, fetched, stopped, installed)
  {
    hide RunOn;
    var rest := FetchSteps(t, fetched, stopped, installed);
    Unfold(At(s, t, InstallStart), Proceed(t), [Proceed(t)] + rest);
    if Installable(s.manual, s.inner.candidate) {
      hide FetchSteps, InstalledUpdate;
      var package := s.inner.candidate.value;
      assert Next(At(s, t, InstallStart), Proceed(t)) == At(s, t, DownloadDue(package));
      Unfold(At(s, t, DownloadDue(package)), Proceed(t), rest);
      assert Next(At(s, t, DownloadDue(package)), Proceed(t))
             == At(s.(inner := Entered(s.inner, Downloading)), t, Fetch(package));
      FetchAlone(s, t, package, fetched, stopped, installed);
    } else {
      assert Next(At(s, t, InstallStart), Proceed(t)) == At(s, t, Finishing);
      Finishes(s, t, rest);
    }
  }

  /** The same for an installation. */
  lemma InstallAlone(s: State, t: nat, fetched: Reply<()>, stopped: Reply<()>, installed: Reply<bool>)
    requires Exclusive(s) && t !in s.threads
    ensures RunOn(s, InstallSteps(t, fetched, stopped, installed))
            == if s.busy then s else InstalledUpdate(s, fetched, stopped, installed)
  {
    hide RunOn, InstalledUpdate;
    if s.busy {
      Absent(s, t, InstallSteps(t, fetched, stopped, installed));
    } else {
      hide FetchSteps;
      Unfold(s, BeginInstall(t), [Proceed(t)] + ([Proceed(t)] + FetchSteps(t, fetched, stopped, installed)));
      assert Next(s, BeginInstall(t)) == At(s, t, InstallStart);
      StartAlone(s, t, fetched, stopped, installed);
    }
  }

  // --- what a caller gets -----------------------------------------------------------

  predicate IsLastAttempt(history: seq<Event>, k: int)
  {
    0 <= k < |history| && history[k].Attempt? && forall j :: k < j < |history| ==> !history[j].Attempt?
  }

  /** A query is due: none was attempted before, or the clock has been set back since the
      last one, or a minute has passed since (six hours if nobody asked). */
  ghost predicate Due(history: seq<Event>, now: int, force: bool)
  {
    forall k :: IsLastAttempt(history, k) ==>
      now < history[k].now || now - history[k].now >= if force then 60_000_000_000 else 21_600_000_000_000
  }

  lemma {:induction false} LastAttemptIs(history: seq<Event>)
    ensures match LastAttempt(history)
            case None => forall k :: !IsLastAttempt(history, k)
            case Some(now) => exists k :: IsLastAttempt(history, k) && history[k].now == now
  {
    if history != [] {
      var front := history[..|history| - 1];
      if history[|history| - 1].Attempt? {
        assert IsLastAttempt(history, |history| - 1);
      } else {
        LastAttemptIs(front);
        assert forall k :: IsLastAttempt(history, k) <==> IsLastAttempt(front, k);
      }
    }
  }

  lemma DueExactlyWhenNotTooSoon(history: seq<Event>, now: int, force: bool)
    ensures Due(history, now, force) <==> !TooSoon(LastAttempt(history), now, force)
  {
    hide LastAttempt;
    LastAttemptIs(history);
    if LastAttempt(history).Some? {
      var k :| IsLastAttempt(history, k) && history[k].now == LastAttempt(history).value;
      assert forall j :: IsLastAttempt(history, j) ==> j == k;
    }
  }

  /** What a query that gave this answer leaves for callers to see. */
  predicate Shown(manual: bool, before: Inner, now: int, found: Reply<Option<UpdateCandidate>>, after: Inner)
  {
    && after.lastAttempt == Some(now)
    && match found
       case Raised(error) =>
         && after.phase.Failed? && after.error == Some(error) && after.candidate.None? && after.latest.None?
         && after.lastChecked == before.lastChecked
       case Returned(None) =>
         && after.phase.UpToDate? && after.error.None? && after.candidate.None? && after.latest.None?
         && after.lastChecked == Some(now)
       case Returned(Some(update)) =>
         && (if manual || update.asset.None? then after.phase.Manual? else after.phase.Available?)
         && after.error.None? && after.candidate == Some(update) && after.latest == Some(update.version)
         && after.lastChecked == Some(now)
  }

  /** A check that gets the guard queries exactly if that is due, and then shows what came
      back; otherwise nothing is changed. Either way it gives the guard back. */
  lemma CheckAnswered(s: State, t: nat, force: bool, now: int, found: Reply<Option<UpdateCandidate>>)
    requires Invariant(s) && !s.busy
    ensures var a := RunOn(s, CheckSteps(t, force, now, found));
            && !a.busy && s.history <= a.history
            && (Attempt(now, force) in a.history[|s.history|..] <==> Due(s.history, now, force))
            && if Due(s.history, now, force) then Shown(s.manual, s.inner, now, found, a.inner) else a.inner == s.inner
  {
    hide RunOn, CheckSteps, Coherent, LastAttempt, Due, TooSoon;
    CheckAlone(s, t, force, now, found);
    DueExactlyWhenNotTooSoon(s.history, now, force);
    var a := Checked(s, force, now, found);
    var answer := if found.Returned? then [Found(found.value)] else [];
    var added := [Read(now)] + if Due(s.history, now, force) then [Attempt(now, force)] + answer else [];
    assert a.history == s.history + added;
    assert a.history[|s.history|..] == added;
  }

  /** An installation that gets the guard does nothing without a candidate that comes with a
      package, and nothing on the manual target; otherwise it downloads, stops the runtime
      and runs the installer, each only if what comes before it succeeded, and shows the
      first error or the installer's result. */
  lemma InstallAnswered(s: State, t: nat, fetched: Reply<()>, stopped: Reply<()>, installed: Reply<bool>)
    requires Invariant(s) && !s.busy
    ensures var a := RunOn(s, InstallSteps(t, fetched, stopped, installed));
            if s.manual || s.inner.candidate.None? || s.inner.candidate.value.asset.None? then a == s
            else
              var package := s.inner.candidate.value;
              && a.history == s.history + (if fetched.Raised? then []
                                           else if stopped.Raised? then [Downloaded(package)]
                                           else [Downloaded(package), Stopped, InstallerRan(package)])
              && a.inner.error == FirstError(fetched, stopped, installed)
              && a.inner.phase == (if a.inner.error.Some? then Failed
                                   else if installed.value then RestartRequired else Installed)
              && a.inner.candidate == s.inner.candidate && a.inner.latest == s.inner.latest && !a.busy
  {
    hide RunOn, InstallSteps, Coherent, Recorded;
    InstallAlone(s, t, fetched, stopped, installed);
  }

  function FirstError(fetched: Reply<()>, stopped: Reply<()>, installed: Reply<bool>): (first: Option<UpdateError>)
    ensures first.None? ==> installed.Returned?
  {
    if fetched.Raised? then Some(fetched.error)
    else if stopped.Raised? then Some(stopped.error)
    else if installed.Raised? then Some(installed.error)
    else None
  }

  lemma {:induction false} RunOnKeeps(s: State, steps: seq<Step>)
    requires Invariant(s)
    ensures Invariant(RunOn(s, steps))
    decreases |steps|
  {
    hide Invariant, Next;
    if steps != [] {
      StepKeeps(s, steps[0]);
      RunOnKeeps(Next(s, steps[0]), steps[1..]);
    }
  }

  class UpdateController {
    const manual: bool
    var inner: Inner
    var operationActive: bool
    /** The operations of other threads under way, and what has happened so far. */
    ghost var threads: map<nat, Position>
    ghost var history: seq<Event>

    ghost function View(): State
      reads this
    {
      State(manual, inner, operationActive, threads, history)
    }

    constructor (manual: bool)
      ensures View() == Initial(manual) && Invariant(View())
    {
      this.manual, operationActive, threads, history := manual, false, map[], [];
      inner := Inner(Idle, None, None, None, None, None);
      new;
      InitialKeeps(manual);
    }

    method BeginOperation() returns (ok: bool)
      modifies this`operationActive
      ensures ok == !old(operationActive) && operationActive
    {
      ok := !operationActive;
      operationActive := true;
    }

    /** `publish_failure`, with the guard dropped on return. */
    method PublishFailure(error: UpdateError)
      modifies this`inner, this`operationActive
      ensures inner == FailedWith(old(inner), error) && !operationActive
    {
      inner := inner.(phase := Failed, error := Some(error));
      operationActive := false;
    }

    /** `check` by thread `t`: the clock reads `now` and the release source answers `found`.
        The answer is nothing if another operation is active. */
    method Check(ghost t: nat, force: bool, now: int, found: Reply<Option<UpdateCandidate>>) returns (r: Option<Inner>)
      requires Invariant(View()) && t !in threads
      modifies this
      ensures View() == RunOn(old(View()), CheckSteps(t, force, now, found)) && Invariant(View())
      ensures r == if old(operationActive) then None else Some(inner)
    {
      hide RunOn, Coherent, Recorded;
      CheckAlone(View(), t, force, now, found);
      RunOnKeeps(View(), CheckSteps(t, force, now, found));
      var ok := BeginOperation();
      if !ok {
        return None;
      }
      history := history + [Read(now)];
      var minimum := if force then MANUAL_CHECK_INTERVAL else AUTOMATIC_CHECK_INTERVAL;
      if inner.lastAttempt.Some? && now >= inner.lastAttempt.value && now - inner.lastAttempt.value < minimum {
        operationActive := false;
        return Some(inner);
      }
      inner := inner.(lastAttempt := Some(now), candidate := None, phase := Checking, latest := None, error := None);
      history := history + [Attempt(now, force)];
      if found.Raised? {
        PublishFailure(found.error);
        return Some(inner);
      }
      inner := inner.(lastChecked := Some(now), error := None);
      if found.value.Some? {
        var candidate := found.value.value;
        inner := inner.(latest := Some(candidate.version), candidate := Some(candidate),
                        phase := if manual || candidate.asset.None? then Manual else Available);
      } else {
        inner := inner.(phase := UpToDate, latest := None, candidate := None);
      }
      history := history + [Found(found.value)];
      operationActive := false;
      return Some(inner);
    }

    /** `install_available_update` by thread `t`, with the outcomes of the download, of
        stopping the runtime and of the installer. The answer is nothing if another
        operation is active or nothing can be installed. */
    method InstallAvailableUpdate(ghost t: nat, fetched: Reply<()>, stopped: Reply<()>, installed: Reply<bool>)
      returns (r: Option<Inner>)
      requires Invariant(View()) && t !in threads
      modifies this
      ensures View() == RunOn(old(View()), InstallSteps(t, fetched, stopped, installed)) && Invariant(View())
      ensures r == if old(operationActive) || !Installable(manual, old(inner).candidate) then None else Some(inner)
    {
      hide RunOn, Coherent, Recorded;
      InstallAlone(View(), t, fetched, stopped, installed);
      RunOnKeeps(View(), InstallSteps(t, fetched, stopped, installed));
      var ok := BeginOperation();
      if !ok {
        return None;
      }
      if inner.candidate.None? || inner.candidate.value.asset.None? || manual {
        operationActive := false;
        return None;
      }
      var package := inner.candidate.value;
      inner := inner.(phase := Downloading, error := None);
      if fetched.Raised? {
        PublishFailure(fetched.error);
        return Some(inner);
      }
      history := history + [Downloaded(package)];
      if stopped.Raised? {
        PublishFailure(stopped.error);
        return Some(inner);
      }
      history := history + [Stopped];
      inner := inner.(phase := Installing, error := None);
      history := history + [InstallerRan(package)];
      if installed.Raised? {
        PublishFailure(installed.error);
        return Some(inner);
      }
      inner := inner.(phase := if installed.value then RestartRequired else Installed, error := None);
      operationActive := false;
      return Some(inner);
    }
  }
}
