/** The Core authority: which game is active, on whose word, and what is published
    about it (crates/overcrow-core/src/runtime.rs, crates/overcrow-protocol/src/state.rs).
    Every operation runs under one mutation lock, so an operation is one step. */
module Core {
  import opened Common
  import opened Processes
  import opened Telemetry
  import opened Stopwatch

  const BRIDGE_LEASE_TIMEOUT: nat := 5_000_000_000
  const OVERLAY_APP_ID := "io.github.overcrow.Overlay"
  const REVISION_MAX: nat := 0xFFFF_FFFF_FFFF_FFFF

  // --- data -------------------------------------------------------------------------

  datatype Rect = Rect(x: int, y: int, width: nat, height: nat)

  /** A window scale as reported: a float that may not be finite. */
  datatype Scale = Finite(value: real) | NotFinite

  datatype Observation = Observation(
    pid: Option<Pid>, appId: Option<string>, title: string, rect: Rect, scale: Scale, backend: string)

  datatype GameWindow = GameWindow(
    pid: Option<Pid>, steamId: Option<SteamId>, appId: Option<string>, title: string, rect: Rect, scale: Scale,
    backend: string)

  datatype Mode = Passive | Interactive

  /** `CoreState`: its other snapshot fields never leave their defaults. */
  datatype Overlay = Overlay(game: Option<GameWindow>, mode: Mode)

  datatype Instance = Instance(pid: Pid, startTicks: nat)

  datatype Metadata = Metadata(
    lease: Option<Instant>, identity: Option<Identity>, process: Option<Instance>, timing: Option<Timing>,
    floor: Option<Timing>, telemetry: Option<GameTelemetry>, sampler: Option<Sample>, stopwatch: Watch)

  const BLANK := Metadata(None, None, None, None, None, None, None, STOPPED)

  datatype Snapshot = Snapshot(
    game: Option<GameWindow>, mode: Mode, sessionMs: Option<nat>, telemetry: Option<GameTelemetry>, stopwatch: Reading)

  datatype Temperatures = Temperatures(cpu: Option<int>, gpu: Option<int>)

  datatype Profile = Profile(stopwatchEnabled: bool, rest: string)

  datatype Runtime = Runtime(
    overlay: Overlay, table: Table, settings: Settings, profile: Profile, meta: Metadata,
    published: Snapshot, revision: nat, selectedRunning: bool)

  // --- CoreState --------------------------------------------------------------------

  const NO_GAME := Overlay(None, Passive)

  function OverlayToggled(o: Overlay): Overlay
  {
    if o.game.None? then o.(mode := Passive) else o.(mode := if o.mode.Passive? then Interactive else Passive)
  }

  function OverlaySet(o: Overlay, interactive: bool): Overlay
  {
    o.(mode := if interactive && o.game.Some? then Interactive else Passive)
  }

  // --- snapshots --------------------------------------------------------------------

  /** `snapshot_with_runtime`. */
  function SnapshotOf(o: Overlay, meta: Metadata, now: Instant): Snapshot
  {
    Snapshot(o.game, o.mode,
             if o.game.Some? && meta.timing.Some? then Some(Millis(ElapsedAt(meta.timing.value, now))) else None,
             if o.game.Some? then meta.telemetry else None,
             ReadAt(meta.stopwatch, now))
  }

  /** `snapshot_state_changed`. */
  predicate StateChanged(current: Snapshot, next: Snapshot)
  {
    || current.game != next.game
    || current.mode != next.mode
    || current.telemetry != next.telemetry
    || current.stopwatch.running != next.stopwatch.running
    || (!next.stopwatch.running && current.stopwatch.elapsedMs != next.stopwatch.elapsedMs)
  }

  function Published(r: Runtime, snapshot: Snapshot): Runtime
  {
    if StateChanged(r.published, snapshot)
    then r.(published := snapshot, revision := Min(r.revision + 1, REVISION_MAX))
    else r
  }

  function PublishedAt(r: Runtime, now: Instant): Runtime { Published(r, SnapshotOf(r.overlay, r.meta, now)) }

  // --- operations -------------------------------------------------------------------

  function Cleared(r: Runtime): Runtime { r.(overlay := NO_GAME, meta := BLANK) }

  predicate ValidGeometry(o: Observation)
  {
    o.scale.Finite? && o.scale.value > 0.0 && o.rect.width > 0 && o.rect.height > 0
  }

  predicate AllowedObservation(r: Runtime, o: Observation)
  {
    o.pid.Some? && o.pid.value in r.table && Allows(AllowlistOf(r.settings), Classify(o.pid.value, r.table))
  }

  function WindowOf(o: Observation, identity: Identity): GameWindow
  {
    GameWindow(o.pid, identity.steamId, o.appId, o.title, o.rect, o.scale, o.backend)
  }

  /** `reconcile_process_timing`: the new timing and the new floor. */
  function Reconciled(previous: Option<Instance>, floor: Option<Timing>, current: Instance, timing: Option<Timing>,
                      now: Instant): (Option<Timing>, Option<Timing>)
  {
    if previous != Some(current) then (timing, timing)
    else if timing.None? then (None, floor)
    else
      var reached := if floor.Some? then ElapsedAt(floor.value, now) else 0;
      var kept := if floor.Some? && reached > ElapsedAt(timing.value, now) then Timing(reached, now) else timing.value;
      (Some(kept), Some(kept))
  }

  /** An allowed process becomes, or stays, the active one. */
  function Adopted(meta: Metadata, identity: Identity, instance: Instance, timing: Option<Timing>,
                   lease: Option<Instant>, now: Instant): Metadata
  {
    var steamId := if meta.identity.Some? then meta.identity.value.steamId else None;
    var sameGroup := meta.process == Some(instance) && steamId == identity.steamId;
    var (newTiming, newFloor) := Reconciled(meta.process, meta.floor, instance, timing, now);
    Metadata(lease, Some(identity), Some(instance), newTiming, newFloor,
             if sameGroup then meta.telemetry else None, if sameGroup then meta.sampler else None,
             if meta.process == Some(instance) then meta.stopwatch else STOPPED)
  }

  /** The common part of a bridge report and an X11 report: clear, or adopt. */
  function Considered(r: Runtime, o: Observation, lease: Option<Instant>, now: Instant): Runtime
  {
    if !ValidGeometry(o) || !AllowedObservation(r, o) then Cleared(r)
    else
      var pid := o.pid.value;
      var identity := Classify(pid, r.table);
      var process := r.table[pid];
      r.(overlay := r.overlay.(game := Some(WindowOf(o, identity))),
         meta := Adopted(r.meta, identity, Instance(pid, process.startTicks), process.timing, lease, now))
  }

  predicate LeaseExpired(meta: Metadata, now: Instant)
  {
    meta.lease.Some? && Since(now, meta.lease.value) >= BRIDGE_LEASE_TIMEOUT
  }

  /** `active_game_is_current`. */
  predicate GameIsCurrent(game: GameWindow, meta: Metadata, table: Table, list: Allowlist)
  {
    && game.pid.Some?
    && var identity := Classify(game.pid.value, table);
    && Allows(list, identity)
    && game.steamId == identity.steamId
    && meta.identity == Some(identity)
    && game.pid.value in table
    && meta.process == Some(Instance(game.pid.value, table[game.pid.value].startTicks))
  }

  predicate StillValid(r: Runtime)
  {
    r.overlay.game.Some? ==> GameIsCurrent(r.overlay.game.value, r.meta, r.table, AllowlistOf(r.settings))
  }

  /** `refresh_active_process`. */
  function ProcessRefreshed(meta: Metadata, game: Option<GameWindow>, table: Table, now: Instant): Metadata
  {
    if game.None? || game.value.pid.None? || game.value.pid.value !in table
    then meta.(process := None, timing := None, floor := None, stopwatch := STOPPED)
    else
      var process := table[game.value.pid.value];
      var instance := Instance(game.value.pid.value, process.startTicks);
      var (timing, floor) := Reconciled(meta.process, meta.floor, instance, process.timing, now);
      meta.(process := Some(instance), timing := timing, floor := floor,
            stopwatch := if meta.process == Some(instance) then meta.stopwatch else STOPPED)
  }

  /** `refresh_telemetry`. */
  ghost function TelemetryRefreshed(meta: Metadata, game: Option<GameWindow>, table: Table, temperatures: Temperatures,
                                    ticksPerSecond: nat, now: Instant): Metadata
  {
    if game.None? then meta.(telemetry := None, sampler := None)
    else
      var sample :=
        if game.value.pid.Some? then SampleOf(game.value.pid.value, game.value.steamId, table, now) else None;
      var telemetry := if sample.Some? then Observed(meta.sampler, sample.value, ticksPerSecond) else NO_TELEMETRY;
      meta.(sampler := sample,
            telemetry := Some(telemetry.(cpuTemperature := temperatures.cpu, gpuTemperature := temperatures.gpu)))
  }

  /** A new process table: a game that is no longer current is dropped, or else its
      process and its telemetry are brought up to date. */
  ghost function Refreshed(r: Runtime, table: Table, temperatures: Temperatures, ticksPerSecond: nat,
                           now: Instant): Runtime
  {
    var r := r.(table := table, selectedRunning := AnySelected(AllowlistOf(r.settings), table));
    if !StillValid(r) then Cleared(r)
    else
      var meta := ProcessRefreshed(r.meta, r.overlay.game, table, now);
      r.(meta := TelemetryRefreshed(meta, r.overlay.game, table, temperatures, ticksPerSecond, now))
  }

  predicate Acceptable(settings: Settings) { ValidSettings(settings) && settings.enabled }

  function Reloaded(r: Runtime, settings: Settings, now: Instant): Runtime
  {
    var r := r.(settings := settings, selectedRunning := AnySelected(AllowlistOf(settings), r.table));
    if !StillValid(r) then Cleared(r)
    else r.(meta := ProcessRefreshed(r.meta, r.overlay.game, r.table, now))
  }

  predicate StopwatchUsable(r: Runtime) { r.profile.stopwatchEnabled && r.overlay.game.Some? }

  /** `with_settings_and_widget_profile`: settings that do not validate are replaced by
      the (disabled) defaults, and a game that is not allowed is dropped. */
  function Started(overlay: Overlay, table: Table, settings: Settings, profile: Profile, now: Instant): Runtime
  {
    var settings := if ValidSettings(settings) && settings.enabled then settings else DEFAULT_SETTINGS;
    var list := AllowlistOf(settings);
    var game := overlay.game;
    var keep := && game.Some? && game.value.pid.Some?
                && var identity := Classify(game.value.pid.value, table);
                Allows(list, identity) && game.value.steamId == identity.steamId;
    var kept := if keep then overlay else NO_GAME;
    var meta := if keep && game.value.pid.value in table
                then
                  var process := table[game.value.pid.value];
                  BLANK.(identity := Some(Classify(game.value.pid.value, table)),
                         process := Some(Instance(game.value.pid.value, process.startTicks)),
                         timing := process.timing, floor := process.timing)
                else BLANK;
    Runtime(kept, table, settings, profile, meta, SnapshotOf(kept, meta, now), 0, AnySelected(list, table))
  }

  datatype Op =
    | BridgeReport(observation: Observation, at: Instant)
    | X11Report(window: Option<Observation>, at: Instant)
    | Clear(at: Instant)
    | LeaseCheck(at: Instant)
    | Refresh(table: Table, temperatures: Temperatures, ticksPerSecond: nat, at: Instant)
    | ReloadSettings(settings: Settings, refreshedAt: Instant, at: Instant)
    | ReloadProfile(profile: Profile, at: Instant)
    | ToggleStopwatch(at: Instant)
    | ResetStopwatch(at: Instant)
    | ToggleOverlay(at: Instant)
    | SetInteractive(interactive: bool, at: Instant)

  /** The overlay's own window, a lease that still holds and settings that are not
      acceptable are ignored: nothing changes and nothing is published. */
  predicate Ignored(r: Runtime, op: Op)
  {
    match op
    case X11Report(Some(o), _) => o.appId == Some(OVERLAY_APP_ID)
    case LeaseCheck(at) => !LeaseExpired(r.meta, at)
    case ReloadSettings(settings, _, _) => !Acceptable(settings)
    case _ => false
  }

  /** What an operation does before it publishes. */
  ghost function Effect(r: Runtime, op: Op): Runtime
  {
    match op
    case BridgeReport(o, at) => Considered(r, o, Some(at), at)
    case X11Report(None, _) => Cleared(r)
    case X11Report(Some(o), at) => Considered(r, o, None, at)
    case Clear(_) => Cleared(r)
    case LeaseCheck(_) => Cleared(r)
    case Refresh(table, temperatures, ticks, at) => Refreshed(r, table, temperatures, ticks, at)
    case ReloadSettings(settings, refreshedAt, _) => Reloaded(r, settings, refreshedAt)
    case ReloadProfile(profile, _) => r.(profile := profile)
    case ToggleStopwatch(at) =>
      if StopwatchUsable(r) then r.(meta := r.meta.(stopwatch := Toggled(r.meta.stopwatch, at))) else r
    case ResetStopwatch(_) => if StopwatchUsable(r) then r.(meta := r.meta.(stopwatch := STOPPED)) else r
    case ToggleOverlay(_) => r.(overlay := OverlayToggled(r.overlay))
    case SetInteractive(interactive, _) => r.(overlay := OverlaySet(r.overlay, interactive))
  }

  ghost function Step(r: Runtime, op: Op): Runtime
  {
    if Ignored(r, op) then r else PublishedAt(Effect(r, op), op.at)
  }

  ghost function Run(r: Runtime, ops: seq<Op>): Runtime
  {
    if ops == [] then r else Step(Run(r, ops[..|ops| - 1]), ops[|ops| - 1])
  }
}
