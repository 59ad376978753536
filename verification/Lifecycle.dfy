/** Enabling and disabling the Core as transactions with rollback
    (crates/overcrow-control/src/lifecycle.rs). The settings file, the Core unit and the
    actions attempted so far are the world; what each step of a call runs into is given
    by the call's faults. Calls are serialised by the transaction lock. */
module Lifecycle {
  import opened Common
  import opened Processes

  datatype Action = Save(enabled: bool) | Integrate | EnableCore | RequestPassive | StopSession | DisableCore

  /** `unitOn`: the Core unit is enabled and running. */
  datatype World = World(disk: Settings, unitOn: bool, log: seq<Action>)

  datatype SaveOutcome = Saved | NotSaved | SavedButUnsynced

  /** A failed unit command may leave the unit either way. */
  datatype CommandOutcome = Done | Broke(unitOn: bool)

  datatype Faults = Faults(
    lockLost: bool, loadWarning: bool, staleGame: ManualGame -> bool, preflightFails: bool, save: SaveOutcome,
    integrationFails: bool, enable: CommandOutcome, reloadWarning: bool, resave: SaveOutcome, passiveFails: bool,
    stopFails: bool, disable: CommandOutcome)

  datatype Cause =
    | LockUnavailable | InvalidSettings | NothingSelected | LoadWarning | StaleIdentity | Preflight
    | SaveFailed(committed: bool) | IntegrationFailed | EnableFailed | PassiveFailed | StopFailed | DisableFailed

  datatype Outcome = Success | Failed(primary: Cause, cleanup: seq<Cause>)

  datatype Finished = Finished(world: World, outcome: Outcome)

  // --- steps ------------------------------------------------------------------------

  function Saving(w: World, settings: Settings, outcome: SaveOutcome): World
  {
    w.(disk := if outcome.NotSaved? then w.disk else settings, log := w.log + [Save(settings.enabled)])
  }

  function SaveErrors(outcome: SaveOutcome): seq<Cause>
  {
    if outcome.Saved? then [] else [SaveFailed(outcome.SavedButUnsynced?)]
  }

  function AfterCommand(done: bool, outcome: CommandOutcome): bool
  {
    if outcome.Done? then done else outcome.unitOn
  }

  /** `run_cleanup`: passive, stop, disable, in that order, whatever fails. */
  function CleanedUp(w: World, faults: Faults): World
  {
    w.(unitOn := AfterCommand(false, faults.disable), log := w.log + [RequestPassive, StopSession, DisableCore])
  }

  function CleanupErrors(faults: Faults): seq<Cause>
  {
    (if faults.passiveFails then [PassiveFailed] else []) + (if faults.stopFails then [StopFailed] else [])
    + (if faults.disable.Done? then [] else [DisableFailed])
  }

  /** Writing back the loaded settings as disabled, unless they could not be loaded. */
  function WrittenOff(w: World, warned: bool, outcome: SaveOutcome): World
  {
    if warned then w else Saving(w, w.disk.(enabled := false), outcome)
  }

  function WriteOffErrors(warned: bool, outcome: SaveOutcome): seq<Cause>
  {
    if warned then [LoadWarning] else SaveErrors(outcome)
  }

  function RolledBack(w: World, faults: Faults, primary: Cause): Finished
  {
    Finished(CleanedUp(WrittenOff(w, faults.reloadWarning, faults.resave), faults),
             Failed(primary, WriteOffErrors(faults.reloadWarning, faults.resave) + CleanupErrors(faults)))
  }

  // --- calls ------------------------------------------------------------------------

  /** Why `enable` gives up before it has touched anything, if it does. */
  function Refusal(settings: Settings, faults: Faults): Option<Cause>
  {
    if faults.lockLost then Some(LockUnavailable)
    else if !ValidSettings(settings) then Some(InvalidSettings)
    else if settings.steamIds == {} && settings.manualGames == [] then Some(NothingSelected)
    else if faults.loadWarning then Some(LoadWarning)
    else if exists game :: game in settings.manualGames && faults.staleGame(game) then Some(StaleIdentity)
    else if faults.preflightFails then Some(Preflight)
    else None
  }

  function Enabled(w: World, settings: Settings, faults: Faults): Finished
  {
    var refusal := Refusal(settings, faults);
    if refusal.Some? then Finished(w, Failed(refusal.value, []))
    else
      var w := Saving(w, settings.(enabled := true), faults.save);
      if !faults.save.Saved? then RolledBack(w, faults, SaveFailed(faults.save.SavedButUnsynced?))
      else
        var w := w.(log := w.log + [Integrate]);
        if faults.integrationFails then RolledBack(w, faults, IntegrationFailed)
        else
          var w := w.(log := w.log + [EnableCore], unitOn := AfterCommand(true, faults.enable));
          if !faults.enable.Done? then RolledBack(w, faults, EnableFailed) else Finished(w, Success)
  }

  function FromErrors(errors: seq<Cause>): Outcome
  {
    if errors == [] then Success else Failed(errors[0], errors[1..])
  }

  function Disabled(w: World, faults: Faults): Finished
  {
    if faults.lockLost then Finished(w, Failed(LockUnavailable, []))
    else
      Finished(CleanedUp(WrittenOff(w, faults.loadWarning, faults.save), faults),
               FromErrors(WriteOffErrors(faults.loadWarning, faults.save) + CleanupErrors(faults)))
  }

  datatype Call = Enable(settings: Settings, faults: Faults) | Disable(faults: Faults)

  function Finish(w: World, call: Call): Finished
  {
    match call
    case Enable(settings, faults) => Enabled(w, settings, faults)
    case Disable(faults) => Disabled(w, faults)
  }

  /** The call returned before it did anything. */
  predicate Refused(call: Call)
  {
    match call
    case Enable(settings, faults) => Refusal(settings, faults).Some?
    case Disable(faults) => faults.lockLost
  }

  /** The call reports nothing left undone: for `enable` no cleanup failure, for `disable`
      no error at all. */
  predicate Clean(call: Call, outcome: Outcome)
  {
    outcome.Success? || (call.Enable? && outcome.cleanup == [])
  }

  predicate Agree(w: World) { w.disk.enabled == w.unitOn }

  // --- what a call guarantees -------------------------------------------------------

  /** A refused call has no effects at all; any other call attempts something. */
  lemma RefusedHasNoEffect(w: World, call: Call)
    ensures Refused(call) <==> Finish(w, call).world.log == w.log
    ensures Refused(call) ==>
              && Finish(w, call).world == w && Finish(w, call).outcome.Failed?
              && Finish(w, call).outcome.cleanup == []
  {
    assert !Refused(call) ==> |Finish(w, call).world.log| > |w.log|;
  }

  const CLEANUP := [RequestPassive, StopSession, DisableCore]

  /** From the save onward every failure of `enable`, and every `disable`, ends with
      passive, stop and disable attempted in that order, whatever else fails. */
  lemma FailureCleansUp(w: World, call: Call)
    requires !Refused(call) && (call.Enable? ==> Finish(w, call).outcome.Failed?)
    ensures exists before :: Finish(w, call).world.log == before + CLEANUP && w.log <= before
  {
    match call {
      case Disable(faults) =>
        var before := WrittenOff(w, faults.loadWarning, faults.save).log;
        assert Finish(w, call).world.log == before + CLEANUP;
      case Enable(settings, faults) =>
        var after := Saving(w, settings.(enabled := true), faults.save);
        var tried := if !faults.save.Saved? then after
                     else if faults.integrationFails then after.(log := after.log + [Integrate])
                     else after.(log := after.log + [Integrate] + [EnableCore]);
        var before := WrittenOff(tried, faults.reloadWarning, faults.resave).log;
        assert Finish(w, call).world.log == before + CLEANUP;
    }
  }

  /** A successful `enable` leaves exactly the requested settings, enabled, and the unit on. */
  lemma EnableSucceeds(w: World, settings: Settings, faults: Faults)
    requires Enabled(w, settings, faults).outcome.Success?
    ensures var after := Enabled(w, settings, faults).world;
            && after.disk == settings.(enabled := true) && after.unitOn
            && after.log == w.log + [Save(true), Integrate, EnableCore]
            && ValidSettings(settings) && (settings.steamIds != {} || settings.manualGames != [])
  {
  }

  /** What may stand in the way of `enable` before it has touched anything, in the order in
      which it is looked at, and whether it does. */
  function Obstacles(settings: Settings, faults: Faults): seq<(Cause, bool)>
  {
    [(LockUnavailable, faults.lockLost), (InvalidSettings, !ValidSettings(settings)),
     (NothingSelected, |settings.steamIds| == 0 && |settings.manualGames| == 0), (LoadWarning, faults.loadWarning),
     (StaleIdentity, exists i :: 0 <= i < |settings.manualGames| && faults.staleGame(settings.manualGames[i])),
     (Preflight, faults.preflightFails)]
  }

  predicate Free(settings: Settings, faults: Faults)
  {
    forall k :: 0 <= k < 6 ==> !Obstacles(settings, faults)[k].1
  }

  /** The first thing that stands in the way. */
  predicate FirstObstacle(settings: Settings, faults: Faults, k: nat)
  {
    && k < 6 && Obstacles(settings, faults)[k].1
    && forall j :: 0 <= j < k ==> !Obstacles(settings, faults)[j].1
  }

  lemma RefusalIs(settings: Settings, faults: Faults, k: nat)
    ensures Refusal(settings, faults).None? <==> Free(settings, faults)
    ensures FirstObstacle(settings, faults, k) ==> Refusal(settings, faults) == Some(Obstacles(settings, faults)[k].0)
  {
    var o := Obstacles(settings, faults);
    assert Free(settings, faults) <==> !o[0].1 && !o[1].1 && !o[2].1 && !o[3].1 && !o[4].1 && !o[5].1;
    if FirstObstacle(settings, faults, k) {
      assert forall j :: 0 <= j < k ==> !o[j].1;
      assert k == 0 || !o[0].1;
      assert k <= 1 || !o[1].1;
      assert k <= 2 || !o[2].1;
      assert k <= 3 || !o[3].1;
      assert k <= 4 || !o[4].1;
    }
  }

  /** `enable` has no effect exactly if something stands in its way, and then reports the
      first such thing and nothing else. */
  lemma EnableRefused(w: World, settings: Settings, faults: Faults, k: nat)
    ensures Enabled(w, settings, faults).world == w <==> !Free(settings, faults)
    ensures Enabled(w, settings, faults).world.log == w.log <==> !Free(settings, faults)
    ensures FirstObstacle(settings, faults, k) ==>
              Enabled(w, settings, faults).outcome == Failed(Obstacles(settings, faults)[k].0, [])
  {
    hide Refusal, Free, FirstObstacle, Obstacles;
    RefusalIs(settings, faults, k);
    RefusedHasNoEffect(w, Enable(settings, faults));
  }

  /** Otherwise it saves the settings as enabled first, and succeeds exactly if the save,
      the integration and the unit command do. */
  lemma EnableAnswered(w: World, settings: Settings, faults: Faults)
    requires Free(settings, faults)
    ensures w.log + [Save(true)] <= Enabled(w, settings, faults).world.log
    ensures Enabled(w, settings, faults).outcome.Success?
            <==> faults.save.Saved? && !faults.integrationFails && faults.enable.Done?
  {
    hide Refusal, Free;
    RefusalIs(settings, faults, 0);
  }

  predicate Reports(outcome: Outcome, cause: Cause)
  {
    outcome.Failed? && (cause == outcome.primary || cause in outcome.cleanup)
  }

  /** What stays undone after an attempt to write the settings off and clean up. */
  predicate LeftUndone(warned: bool, save: SaveOutcome, faults: Faults, cause: Cause)
  {
    match cause
    case LoadWarning => warned
    case SaveFailed(committed) => !warned && !save.Saved? && committed == save.SavedButUnsynced?
    case PassiveFailed => faults.passiveFails
    case StopFailed => faults.stopFails
    case DisableFailed => faults.disable.Broke?
    case _ => false
  }

  /** What the file and the unit are after that, from a file with the given contents. */
  predicate WrittenAndStopped(disk: Settings, warned: bool, save: SaveOutcome, faults: Faults, after: World)
  {
    && after.disk == disk.(enabled := disk.enabled && (warned || save.NotSaved?))
    && after.unitOn == (faults.disable.Broke? && faults.disable.unitOn)
  }

  lemma UndoneListed(warned: bool, save: SaveOutcome, faults: Faults, cause: Cause)
    ensures cause in WriteOffErrors(warned, save) + CleanupErrors(faults) <==> LeftUndone(warned, save, faults, cause)
  {
  }

  /** `disable` reports exactly what stays undone. */
  lemma DisableAnswered(w: World, faults: Faults, cause: Cause)
    requires !faults.lockLost
    ensures Reports(Disabled(w, faults).outcome, cause) <==> LeftUndone(faults.loadWarning, faults.save, faults, cause)
    ensures WrittenAndStopped(w.disk, faults.loadWarning, faults.save, faults, Disabled(w, faults).world)
  {
    hide WriteOffErrors, CleanupErrors, LeftUndone;
    UndoneListed(faults.loadWarning, faults.save, faults, cause);
    var errors := WriteOffErrors(faults.loadWarning, faults.save) + CleanupErrors(faults);
    assert errors != [] ==> errors == [errors[0]] + errors[1..];
  }

  /** A failed `enable` reports the step that failed and exactly what its rollback left
      undone. */
  lemma RollbackAnswered(w: World, settings: Settings, faults: Faults, cause: Cause)
    requires Free(settings, faults)
    requires !(faults.save.Saved? && !faults.integrationFails && faults.enable.Done?)
    ensures var after := Enabled(w, settings, faults);
            && after.outcome.Failed?
            && after.outcome.primary == (if !faults.save.Saved? then SaveFailed(faults.save.SavedButUnsynced?)
                                         else if faults.integrationFails then IntegrationFailed else EnableFailed)
            && (cause in after.outcome.cleanup <==> LeftUndone(faults.reloadWarning, faults.resave, faults, cause))
            && WrittenAndStopped(if faults.save.NotSaved? then w.disk else settings.(enabled := true),
                                 faults.reloadWarning, faults.resave, faults, after.world)
  {
    hide Refusal, Free, WriteOffErrors, CleanupErrors, LeftUndone;
    RefusalIs(settings, faults, 0);
    UndoneListed(faults.reloadWarning, faults.resave, faults, cause);
  }

  /** A rollback without cleanup failures leaves the settings disabled and the unit off. */
  lemma RollbackRestores(w: World, settings: Settings, faults: Faults)
    requires Refusal(settings, faults).None?
    requires var outcome := Enabled(w, settings, faults).outcome; outcome.Failed? && outcome.cleanup == []
    ensures var after := Enabled(w, settings, faults).world; !after.disk.enabled && !after.unitOn
  {
    NoCleanupErrors(WriteOffErrors(faults.reloadWarning, faults.resave), faults);
  }

  /** Whatever fails, the settings on disk keep everything but the enabled flag, except that
      an `enable` whose save replaced the file installs the requested settings. */
  lemma SelectionsKept(w: World, call: Call)
    ensures var kept := if call.Enable? && !Refused(call) && !call.faults.save.NotSaved? then call.settings else w.disk;
            Finish(w, call).world.disk.(enabled := false) == kept.(enabled := false)
  {
    match call {
      case Disable(faults) =>
        assert faults.lockLost || Finish(w, call).world.disk == WrittenOff(w, faults.loadWarning, faults.save).disk;
      case Enable(settings, faults) =>
    }
  }

  lemma NoCleanupErrors(first: seq<Cause>, faults: Faults)
    requires first + CleanupErrors(faults) == []
    ensures first == [] && faults.disable.Done? && !faults.passiveFails && !faults.stopFails
  {
    assert |first + CleanupErrors(faults)| == 0;
  }

  /** A `disable` without errors leaves the loaded settings, disabled, and the unit off. */
  lemma DisableSucceeds(w: World, faults: Faults)
    requires Disabled(w, faults).outcome.Success?
    ensures Disabled(w, faults).world.disk == w.disk.(enabled := false) && !Disabled(w, faults).world.unitOn
  {
    NoCleanupErrors(WriteOffErrors(faults.loadWarning, faults.save), faults);
  }

  /** After a call that reports nothing left undone, the persisted flag and the unit agree
      exactly if the call got as far as the save, or if they agreed before. */
  lemma CleanMeansAgreement(w: World, call: Call)
    requires Clean(call, Finish(w, call).outcome)
    ensures Agree(Finish(w, call).world) <==> (!Refused(call) || Agree(w))
  {
    if Refused(call) {
      RefusedHasNoEffect(w, call);
    } else {
      match call {
        case Disable(faults) => DisableSucceeds(w, faults);
        case Enable(settings, faults) =>
          if Finish(w, call).outcome.Failed? {
            RollbackRestores(w, settings, faults);
          } else {
            EnableSucceeds(w, settings, faults);
          }
      }
    }
  }

  /** Reporting nothing left undone is not by itself enough: enabling with nothing selected,
      while the unit runs although the settings say disabled, is refused and repairs nothing. */
  lemma RefusalRepairsNothing(faults: Faults)
    requires !faults.lockLost
    ensures var w, call := World(DEFAULT_SETTINGS, true, []), Enable(DEFAULT_SETTINGS, faults);
            && Finish(w, call).outcome == Failed(NothingSelected, [])
            && Refused(call) && Clean(call, Finish(w, call).outcome) && !Agree(Finish(w, call).world)
  {
  }

  function Run(w: World, calls: seq<Call>): World
  {
    if calls == [] then w else Finish(Run(w, calls[..|calls| - 1]), calls[|calls| - 1]).world
  }

  /** Leaving refused calls aside, the last call reported nothing left undone; if there is
      none, the world agreed to begin with. */
  predicate Trusted(w: World, calls: seq<Call>)
  {
    if calls == [] then Agree(w)
    else
      var before, call := calls[..|calls| - 1], calls[|calls| - 1];
      if Refused(call) then Trusted(w, before) else Clean(call, Finish(Run(w, before), call).outcome)
  }

  /** Over any run of calls with any faults: as long as the last call that did anything
      reported nothing left undone, the persisted flag and the unit agree. */
  lemma {:induction false} RunAgrees(w: World, calls: seq<Call>)
    requires Trusted(w, calls)
    ensures Agree(Run(w, calls))
  {
    if calls != [] {
      var before, call := calls[..|calls| - 1], calls[|calls| - 1];
      if Refused(call) {
        RunAgrees(w, before);
        RefusedHasNoEffect(Run(w, before), call);
      } else {
        CleanMeansAgreement(Run(w, before), call);
      }
    }
  }

  // --- the controller ---------------------------------------------------------------

  class LifecycleController {
    var disk: Settings
    var unitOn: bool
    var log: seq<Action>

    ghost function View(): World
      reads this
    {
      World(disk, unitOn, log)
    }

    constructor (disk: Settings, unitOn: bool)
      ensures View() == World(disk, unitOn, [])
    {
      this.disk, this.unitOn, log := disk, unitOn, [];
    }

    method SaveSettings(settings: Settings, outcome: SaveOutcome) returns (errors: seq<Cause>)
      modifies this
      ensures View() == Saving(old(View()), settings, outcome) && errors == SaveErrors(outcome)
    {
      log := log + [Save(settings.enabled)];
      if !outcome.NotSaved? {
        disk := settings;
      }
      errors := if outcome.Saved? then [] else [SaveFailed(outcome.SavedButUnsynced?)];
    }

    method RunCleanup(faults: Faults) returns (errors: seq<Cause>)
      modifies this
      ensures View() == CleanedUp(old(View()), faults) && errors == CleanupErrors(faults)
    {
      errors := [];
      log := log + [RequestPassive];
      if faults.passiveFails {
        errors := errors + [PassiveFailed];
      }
      log := log + [StopSession];
      if faults.stopFails {
        errors := errors + [StopFailed];
      }
      log := log + [DisableCore];
      unitOn := AfterCommand(false, faults.disable);
      if !faults.disable.Done? {
        errors := errors + [DisableFailed];
      }
      assert log == old(log) + [RequestPassive, StopSession, DisableCore];
    }

    method RollbackAfterEnable(faults: Faults, primary: Cause) returns (outcome: Outcome)
      modifies this
      ensures Finished(View(), outcome) == RolledBack(old(View()), faults, primary)
    {
      var cleanup := [LoadWarning];
      if !faults.reloadWarning {
        cleanup := SaveSettings(disk.(enabled := false), faults.resave);
      }
      var failures := RunCleanup(faults);
      outcome := Failed(primary, cleanup + failures);
    }

    method EnableWith(settings: Settings, faults: Faults) returns (outcome: Outcome)
      modifies this
      ensures Finished(View(), outcome) == Enabled(old(View()), settings, faults)
    {
      hide RolledBack, ValidSettings;
      if faults.lockLost {
        return Failed(LockUnavailable, []);
      }
      var enabled := settings.(enabled := true);
      EnabledFlagIsNotValidated(settings);
      if !ValidSettings(enabled) {
        return Failed(InvalidSettings, []);
      }
      if enabled.steamIds == {} && enabled.manualGames == [] {
        return Failed(NothingSelected, []);
      }
      if faults.loadWarning {
        return Failed(LoadWarning, []);
      }
      var i := 0;
      while i < |enabled.manualGames|
        invariant 0 <= i <= |enabled.manualGames| && View() == old(View())
        invariant forall j :: 0 <= j < i ==> !faults.staleGame(enabled.manualGames[j])
      {
        if faults.staleGame(enabled.manualGames[i]) {
          return Failed(StaleIdentity, []);
        }
        i := i + 1;
      }
      if faults.preflightFails {
        return Failed(Preflight, []);
      }
      var errors := SaveSettings(enabled, faults.save);
      if errors != [] {
        outcome := RollbackAfterEnable(faults, errors[0]);
        return;
      }
      log := log + [Integrate];
      if faults.integrationFails {
        outcome := RollbackAfterEnable(faults, IntegrationFailed);
        return;
      }
      log := log + [EnableCore];
      unitOn := AfterCommand(true, faults.enable);
      if !faults.enable.Done? {
        outcome := RollbackAfterEnable(faults, EnableFailed);
        return;
      }
      outcome := Success;
    }

    method DisableWith(faults: Faults) returns (outcome: Outcome)
      modifies this
      ensures Finished(View(), outcome) == Disabled(old(View()), faults)
    {
      if faults.lockLost {
        return Failed(LockUnavailable, []);
      }
      var errors := [LoadWarning];
      if !faults.loadWarning {
        errors := SaveSettings(disk.(enabled := false), faults.save);
      }
      var failures := RunCleanup(faults);
      errors := errors + failures;
      outcome := if errors == [] then Success else Failed(errors[0], errors[1..]);
    }
  }

  lemma EnabledFlagIsNotValidated(settings: Settings)
    ensures ValidSettings(settings.(enabled := true)) == ValidSettings(settings)
  {
  }
}
