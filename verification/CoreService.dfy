/** `CoreRuntime` as it is written: fields updated step by step under the mutation lock
    (crates/overcrow-core/src/runtime.rs). Each method does exactly the specified step. */
module CoreService {
  import opened Common
  import opened Processes
  import opened Telemetry
  import opened Stopwatch
  import opened Core
  import opened CoreSafety

  class CoreRuntime {
    var overlay: Overlay
    var table: Table
    var settings: Settings
    var profile: Profile
    var lease: Option<Instant>
    var identity: Option<Identity>
    var process: Option<Instance>
    var timing: Option<Timing>
    var floor: Option<Timing>
    var telemetry: Option<GameTelemetry>
    const sampler: TelemetrySampler
    const stopwatch: ManualStopwatch
    var published: Snapshot
    var revision: nat
    var selectedRunning: bool

    ghost function Meta(): Metadata
      reads this, sampler, stopwatch
    {
      Metadata(lease, identity, process, timing, floor, telemetry, sampler.previous, stopwatch.View())
    }

    ghost function View(): Runtime
      reads this, sampler, stopwatch
    {
      Runtime(overlay, table, settings, profile, Meta(), published, revision, selectedRunning)
    }

    constructor (overlay: Overlay, table: Table, settings: Settings, profile: Profile, now: Instant)
      ensures View() == Started(overlay, table, settings, profile, now) && Invariant(View())
      ensures fresh(sampler) && fresh(stopwatch)
    {
      hide Classify, AllowlistOf, Allows, AnySelected, ValidSettings, SnapshotOf;
      var valid := ValidSettings(settings) && settings.enabled;
      var accepted := if valid then settings else DEFAULT_SETTINGS;
      var list := AllowlistOf(accepted);
      var selected := AnySelectedProcess(list, table);
      var found: Option<Identity> := None;
      if overlay.game.Some? && overlay.game.value.pid.Some? {
        var candidate := ClassifyProcessIdentity(overlay.game.value.pid.value, table);
        if Allows(list, candidate) && overlay.game.value.steamId == candidate.steamId {
          found := Some(candidate);
          AllowedIsListed(list, overlay.game.value.pid.value, table);
        }
      }
      this.overlay := if found.Some? then overlay else NO_GAME;
      this.table, this.settings, this.profile, this.selectedRunning := table, accepted, profile, selected;
      lease, identity, process, timing, floor, telemetry := None, found, None, None, None, None;
      if found.Some? {
        var info := table[overlay.game.value.pid.value];
        process := Some(Instance(overlay.game.value.pid.value, info.startTicks));
        timing, floor := info.timing, info.timing;
      }
      sampler := new TelemetrySampler();
      stopwatch := new ManualStopwatch();
      revision := 0;
      published := Snapshot(None, Passive, None, None, Reading(0, false));
      new;
      published := SnapshotAt(now);
      StartedKeeps(overlay, table, settings, profile, now);
    }

    /** `snapshot_at`. */
    method SnapshotAt(now: Instant) returns (snapshot: Snapshot)
      ensures snapshot == SnapshotOf(overlay, Meta(), now)
    {
      var reading := stopwatch.SnapshotAt(now);
      snapshot := Snapshot(overlay.game, overlay.mode, None, None, reading);
      if overlay.game.Some? {
        if timing.Some? {
          snapshot := snapshot.(sessionMs := Some(Millis(ElapsedAt(timing.value, now))));
        }
        snapshot := snapshot.(telemetry := telemetry);
      }
    }

    method Publish(snapshot: Snapshot)
      modifies this`published, this`revision
      ensures View() == Published(old(View()), snapshot)
    {
      if StateChanged(published, snapshot) {
        revision := Min(revision + 1, REVISION_MAX);
        published := snapshot;
      }
    }

    method PublishAt(now: Instant) returns (snapshot: Snapshot)
      modifies this`published, this`revision
      ensures View() == PublishedAt(old(View()), now)
      ensures snapshot == SnapshotOf(overlay, Meta(), now)
    {
      snapshot := SnapshotAt(now);
      Publish(snapshot);
    }

    /** The reset that the source repeats wherever the game is given up. */
    method ClearState()
      modifies this, sampler, stopwatch
      ensures View() == Cleared(old(View()))
    {
      overlay := NO_GAME;
      lease, identity, process, timing, floor, telemetry := None, None, None, None, None, None;
      sampler.Reset();
      stopwatch.Reset();
    }

    method ClearGame(now: Instant) returns (snapshot: Snapshot)
      requires Invariant(View())
      modifies this, sampler, stopwatch
      ensures View() == Step(old(View()), Clear(now)) && Invariant(View())
      ensures snapshot == SnapshotOf(overlay, Meta(), now)
    {
      hide Invariant, PublishedAt;
      StepKeeps(View(), Clear(now));
      ClearState();
      snapshot := PublishAt(now);
    }

    /** `allowed_process`: the identity of an observed window's process, if allowed. */
    method AllowedProcess(o: Observation) returns (allowed: Option<Identity>)
      ensures allowed == if AllowedObservation(View(), o) then Some(Classify(o.pid.value, table)) else None
    {
      if o.pid.None? || o.pid.value !in table {
        return None;
      }
      var candidate := ClassifyProcessIdentity(o.pid.value, table);
      allowed := if Allows(AllowlistOf(settings), candidate) then Some(candidate) else None;
    }

    method SetTiming(instance: Instance, current: Option<Timing>, now: Instant)
      modifies this`timing, this`floor
      ensures (timing, floor) == Reconciled(process, old(floor), instance, current, now)
    {
      if process != Some(instance) {
        timing, floor := current, current;
      } else if current.None? {
        timing := None;
      } else {
        var kept := current.value;
        if floor.Some? {
          var reached := ElapsedAt(floor.value, now);
          if reached > ElapsedAt(kept, now) {
            kept := Timing(reached, now);
          }
        }
        timing, floor := Some(kept), Some(kept);
      }
    }

    /** An allowed process becomes, or stays, the active one. */
    method Adopt(allowed: Identity, instance: Instance, current: Option<Timing>, newLease: Option<Instant>,
                 now: Instant)
      modifies this`lease, this`identity, this`process, this`timing, this`floor, this`telemetry, sampler, stopwatch
      ensures Meta() == Adopted(old(Meta()), allowed, instance, current, newLease, now)
    {
      hide Reconciled;
      var steamId := if identity.Some? then identity.value.steamId else None;
      if process != Some(instance) || steamId != allowed.steamId {
        telemetry := None;
        sampler.Reset();
      }
      if process != Some(instance) {
        stopwatch.Reset();
      }
      SetTiming(instance, current, now);
      lease := newLease;
      identity := Some(allowed);
      process := Some(instance);
    }

    method Consider(o: Observation, newLease: Option<Instant>, now: Instant)
      modifies this, sampler, stopwatch
      ensures View() == Considered(old(View()), o, newLease, now)
    {
      hide Classify, AllowlistOf, Allows, Adopted;
      var allowed: Option<Identity> := None;
      if ValidGeometry(o) {
        allowed := AllowedProcess(o);
      }
      if allowed.None? {
        ClearState();
      } else {
        var info := table[o.pid.value];
        Adopt(allowed.value, Instance(o.pid.value, info.startTicks), info.timing, newLease, now);
        overlay := overlay.(game := Some(WindowOf(o, allowed.value)));
      }
    }

    method ApplyBridgeObservation(o: Observation, now: Instant) returns (snapshot: Snapshot)
      requires Invariant(View())
      modifies this, sampler, stopwatch
      ensures View() == Step(old(View()), BridgeReport(o, now)) && Invariant(View())
      ensures snapshot == SnapshotOf(overlay, Meta(), now)
    {
      hide Considered, Invariant, PublishedAt;
      StepKeeps(View(), BridgeReport(o, now));
      Consider(o, Some(now), now);
      snapshot := PublishAt(now);
    }

    method ApplyX11Observation(o: Option<Observation>, now: Instant) returns (snapshot: Snapshot)
      requires Invariant(View())
      modifies this, sampler, stopwatch
      ensures View() == Step(old(View()), X11Report(o, now)) && Invariant(View())
      ensures snapshot == SnapshotOf(overlay, Meta(), now)
    {
      hide Considered, Invariant, PublishedAt;
      StepKeeps(View(), X11Report(o, now));
      if o.None? {
        ClearState();
      } else if o.value.appId == Some(OVERLAY_APP_ID) {
        snapshot := SnapshotAt(now);
        return;
      } else {
        Consider(o.value, None, now);
      }
      snapshot := PublishAt(now);
    }

    method ExpireBridgeLease(now: Instant) returns (expired: bool)
      requires Invariant(View())
      modifies this, sampler, stopwatch
      ensures View() == Step(old(View()), LeaseCheck(now)) && Invariant(View())
      ensures expired == LeaseExpired(old(View()).meta, now)
    {
      hide Invariant, PublishedAt;
      StepKeeps(View(), LeaseCheck(now));
      if lease.None? {
        return false;
      }
      if Since(now, lease.value) < BRIDGE_LEASE_TIMEOUT {
        return false;
      }
      ClearState();
      var _ := PublishAt(now);
      expired := true;
    }

    method RefreshProcess(now: Instant)
      modifies this`process, this`timing, this`floor, stopwatch
      ensures View() == old(View()).(meta := ProcessRefreshed(old(Meta()), overlay.game, table, now))
    {
      hide Reconciled;
      if overlay.game.None? || overlay.game.value.pid.None? || overlay.game.value.pid.value !in table {
        process, timing, floor := None, None, None;
        stopwatch.Reset();
        return;
      }
      var pid := overlay.game.value.pid.value;
      var instance := Instance(pid, table[pid].startTicks);
      if process != Some(instance) {
        stopwatch.Reset();
      }
      SetTiming(instance, table[pid].timing, now);
      process := Some(instance);
    }

    method RefreshTelemetry(temperatures: Temperatures, ticksPerSecond: nat, now: Instant)
      modifies this`telemetry, sampler
      ensures View()
              == old(View()).(meta := TelemetryRefreshed(old(Meta()), overlay.game, table, temperatures,
                                                         ticksPerSecond, now))
    {
      hide SampleOf;
      if overlay.game.None? {
        telemetry := None;
        sampler.Reset();
        return;
      }
      var game := overlay.game.value;
      var sample: Option<Sample> := None;
      if game.pid.Some? {
        sample := CollectProcessSample(game.pid.value, game.steamId, table, now);
      }
      var observed := NO_TELEMETRY;
      if sample.Some? {
        observed := sampler.Observe(sample.value, ticksPerSecond);
      } else {
        sampler.Reset();
      }
      telemetry := Some(observed.(cpuTemperature := temperatures.cpu, gpuTemperature := temperatures.gpu));
    }

    /** `active_game_is_current`, or no game at all. */
    method CheckStillValid() returns (valid: bool)
      ensures valid == StillValid(View())
    {
      if overlay.game.None? {
        return true;
      }
      var game := overlay.game.value;
      if game.pid.None? {
        return false;
      }
      var current := ClassifyProcessIdentity(game.pid.value, table);
      valid := && Allows(AllowlistOf(settings), current) && game.steamId == current.steamId && identity == Some(current)
               && game.pid.value in table
               && process == Some(Instance(game.pid.value, table[game.pid.value].startTicks));
    }

    method RefreshState(newTable: Table, temperatures: Temperatures, ticksPerSecond: nat, now: Instant)
      modifies this, sampler, stopwatch
      ensures View() == Refreshed(old(View()), newTable, temperatures, ticksPerSecond, now)
    {
      hide AnySelected, AllowlistOf, StillValid, ProcessRefreshed, TelemetryRefreshed;
      table := newTable;
      selectedRunning := AnySelectedProcess(AllowlistOf(settings), table);
      var valid := CheckStillValid();
      if !valid {
        ClearState();
      } else {
        RefreshProcess(now);
        RefreshTelemetry(temperatures, ticksPerSecond, now);
      }
    }

    method InstallRefreshSnapshot(newTable: Table, temperatures: Temperatures, ticksPerSecond: nat, now: Instant)
      requires Invariant(View())
      modifies this, sampler, stopwatch
      ensures View() == Step(old(View()), Refresh(newTable, temperatures, ticksPerSecond, now)) && Invariant(View())
    {
      hide Refreshed, Invariant, PublishedAt;
      StepKeeps(View(), Refresh(newTable, temperatures, ticksPerSecond, now));
      RefreshState(newTable, temperatures, ticksPerSecond, now);
      var _ := PublishAt(now);
    }

    method ReloadState(newSettings: Settings, now: Instant)
      modifies this, sampler, stopwatch
      ensures View() == Reloaded(old(View()), newSettings, now)
    {
      hide AnySelected, AllowlistOf, StillValid, ProcessRefreshed;
      settings := newSettings;
      selectedRunning := AnySelectedProcess(AllowlistOf(settings), table);
      var valid := CheckStillValid();
      if !valid {
        ClearState();
      } else {
        RefreshProcess(now);
      }
    }

    method ReloadSettingsFrom(newSettings: Settings, now: Instant, later: Instant) returns (accepted: bool)
      requires Invariant(View())
      modifies this, sampler, stopwatch
      ensures View() == Step(old(View()), ReloadSettings(newSettings, now, later)) && Invariant(View())
      ensures accepted == Acceptable(newSettings)
    {
      hide Reloaded, Invariant, PublishedAt, ValidSettings;
      StepKeeps(View(), ReloadSettings(newSettings, now, later));
      if !ValidSettings(newSettings) || !newSettings.enabled {
        return false;
      }
      ReloadState(newSettings, now);
      var _ := PublishAt(later);
      accepted := true;
    }

    method ReloadWidgetProfile(newProfile: Profile, now: Instant) returns (snapshot: Snapshot)
      requires Invariant(View())
      modifies this
      ensures View() == Step(old(View()), ReloadProfile(newProfile, now)) && Invariant(View())
      ensures snapshot == SnapshotOf(overlay, Meta(), now)
    {
      hide Invariant, PublishedAt;
      StepKeeps(View(), ReloadProfile(newProfile, now));
      profile := newProfile;
      snapshot := PublishAt(now);
    }

    method ToggleManualStopwatch(now: Instant) returns (snapshot: Snapshot)
      requires Invariant(View())
      modifies this, stopwatch
      ensures View() == Step(old(View()), ToggleStopwatch(now)) && Invariant(View())
      ensures snapshot == SnapshotOf(overlay, Meta(), now)
    {
      hide Invariant, PublishedAt;
      StepKeeps(View(), ToggleStopwatch(now));
      if profile.stopwatchEnabled && overlay.game.Some? {
        stopwatch.Toggle(now);
      }
      snapshot := PublishAt(now);
    }

    method ResetManualStopwatch(now: Instant) returns (snapshot: Snapshot)
      requires Invariant(View())
      modifies this, stopwatch
      ensures View() == Step(old(View()), ResetStopwatch(now)) && Invariant(View())
      ensures snapshot == SnapshotOf(overlay, Meta(), now)
    {
      hide Invariant, PublishedAt;
      StepKeeps(View(), ResetStopwatch(now));
      if profile.stopwatchEnabled && overlay.game.Some? {
        stopwatch.Reset();
      }
      snapshot := PublishAt(now);
    }

    method ToggleOverlayMode(now: Instant) returns (snapshot: Snapshot)
      requires Invariant(View())
      modifies this
      ensures View() == Step(old(View()), ToggleOverlay(now)) && Invariant(View())
      ensures snapshot == SnapshotOf(overlay, Meta(), now)
    {
      hide Invariant, PublishedAt;
      StepKeeps(View(), ToggleOverlay(now));
      overlay := OverlayToggled(overlay);
      snapshot := PublishAt(now);
    }

    method SetOverlayInteractive(interactive: bool, now: Instant) returns (snapshot: Snapshot)
      requires Invariant(View())
      modifies this
      ensures View() == Step(old(View()), SetInteractive(interactive, now)) && Invariant(View())
      ensures snapshot == SnapshotOf(overlay, Meta(), now)
    {
      hide Invariant, PublishedAt;
      StepKeeps(View(), SetInteractive(interactive, now));
      overlay := OverlaySet(overlay, interactive);
      snapshot := PublishAt(now);
    }
  }

  /** `any_selected_process`: looks at every process until one is selected. */
  method AnySelectedProcess(list: Allowlist, table: Table) returns (found: bool)
    ensures found == AnySelected(list, table)
  {
    hide Classify, Allows;
    var left := table.Keys;
    while left != {}
      invariant left <= table.Keys
      invariant forall p :: p in table && p !in left ==> !Allows(list, Classify(p, table))
    {
      var pid :| pid in left;
      var identity := ClassifyProcessIdentity(pid, table);
      if Allows(list, identity) {
        return true;
      }
      left := left - {pid};
    }
    found := false;
  }
}
