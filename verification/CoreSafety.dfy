/** What every run of the Core keeps (crates/overcrow-core/src/runtime.rs). */
module CoreSafety {
  import opened Common
  import opened Processes
  import opened Telemetry
  import opened Stopwatch
  import opened Core

  // --- the published projection -----------------------------------------------------

  /** The part of a snapshot whose change is announced. */
  datatype Projection = Projection(
    game: Option<GameWindow>, mode: Mode, telemetry: Option<GameTelemetry>, running: bool, stoppedMs: Option<nat>)

  function Project(s: Snapshot): Projection
  {
    Projection(s.game, s.mode, s.telemetry, s.stopwatch.running,
               if s.stopwatch.running then None else Some(s.stopwatch.elapsedMs))
  }

  /** The same, of the internal state; it does not depend on the time. */
  function Shown(r: Runtime): Projection
  {
    Projection(r.overlay.game, r.overlay.mode, if r.overlay.game.Some? then r.meta.telemetry else None,
               r.meta.stopwatch.startedAt.Some?,
               if r.meta.stopwatch.startedAt.Some? then None else Some(Millis(r.meta.stopwatch.accumulated)))
  }

  lemma ShownAnyTime(r: Runtime, now: Instant)
    ensures Project(SnapshotOf(r.overlay, r.meta, now)) == Shown(r)
  {
  }

  lemma ChangeIsProjected(a: Snapshot, b: Snapshot)
    ensures StateChanged(a, b) <==> Project(a) != Project(b)
  {
  }

  // --- the invariant ----------------------------------------------------------------

  /** An active game is authorised now: its process is in the current table with the
      accepted start time, is classified as the accepted identity, and the current
      settings allow that identity. */
  predicate Authorised(r: Runtime)
  {
    r.overlay.game.Some? ==>
      && var game := r.overlay.game.value;
      && game.pid.Some? && game.pid.value in r.table
      && r.meta.process == Some(Instance(game.pid.value, r.table[game.pid.value].startTicks))
      && r.meta.identity == Some(Classify(game.pid.value, r.table))
      && game.steamId == r.meta.identity.value.steamId
      && Allows(AllowlistOf(r.settings), r.meta.identity.value)
      && r.selectedRunning
  }

  /** What holds of everything but what is published. */
  predicate Internal(r: Runtime)
  {
    && Authorised(r)
    && r.selectedRunning == AnySelected(AllowlistOf(r.settings), r.table)
    && (r.overlay.game.None? ==> r.meta == BLANK && r.overlay.mode == Passive)
    && (r.meta.timing.Some? ==> r.meta.floor == r.meta.timing)
    && r.revision <= REVISION_MAX
  }

  predicate Invariant(r: Runtime) { Internal(r) && Project(r.published) == Shown(r) }

  /** Publishing makes the projections agree, and counts exactly the changes. */
  lemma PublishKeeps(r: Runtime, now: Instant)
    requires Internal(r)
    ensures Invariant(PublishedAt(r, now)) && Shown(PublishedAt(r, now)) == Shown(r)
    ensures PublishedAt(r, now).revision
            == if Project(r.published) == Shown(r) then r.revision else Min(r.revision + 1, REVISION_MAX)
    ensures PublishedAt(r, now) == r.(published := PublishedAt(r, now).published,
                                      revision := PublishedAt(r, now).revision)
  {
    hide Classify, Allows, AllowlistOf, AnySelected, Millis;
    ShownAnyTime(r, now);
    ChangeIsProjected(r.published, SnapshotOf(r.overlay, r.meta, now));
  }

  lemma ConsideredInternal(r: Runtime, o: Observation, lease: Option<Instant>, now: Instant)
    requires Invariant(r)
    ensures Internal(Considered(r, o, lease, now))
  {
    hide Classify, AllowlistOf, AnySelected, Allows, Millis;
    if ValidGeometry(o) && AllowedObservation(r, o) {
      AllowedIsListed(AllowlistOf(r.settings), o.pid.value, r.table);
    }
  }

  /** A game kept across a change of table or settings is authorised by the new ones. */
  lemma KeptInternal(r: Runtime, now: Instant)
    requires StillValid(r) && r.revision <= REVISION_MAX
    requires r.selectedRunning == AnySelected(AllowlistOf(r.settings), r.table)
    requires r.overlay.game.None? ==> r.meta == BLANK && r.overlay.mode == Passive
    ensures Internal(r.(meta := ProcessRefreshed(r.meta, r.overlay.game, r.table, now)))
  {
    hide Classify, AllowlistOf, AnySelected, Allows, Millis;
    if r.overlay.game.Some? {
      AllowedIsListed(AllowlistOf(r.settings), r.overlay.game.value.pid.value, r.table);
    }
  }

  lemma RefreshedInternal(r: Runtime, table: Table, temperatures: Temperatures, ticksPerSecond: nat, now: Instant)
    requires Invariant(r)
    ensures Internal(Refreshed(r, table, temperatures, ticksPerSecond, now))
  {
    hide Classify, AllowlistOf, AnySelected, Allows, Millis, ProcessRefreshed, GameIsCurrent;
    var s := r.(table := table, selectedRunning := AnySelected(AllowlistOf(r.settings), table));
    if StillValid(s) {
      KeptInternal(s, now);
      BlankStaysBlank(s.table, now);
    }
  }

  lemma BlankStaysBlank(table: Table, now: Instant)
    ensures ProcessRefreshed(BLANK, None, table, now) == BLANK
  {
  }

  lemma EffectInternal(r: Runtime, op: Op)
    requires Invariant(r) && !Ignored(r, op)
    ensures Internal(Effect(r, op))
  {
    hide Classify, AllowlistOf, AnySelected, Allows, Millis, Refreshed, Considered, ProcessRefreshed, GameIsCurrent,
         ValidSettings;
    match op {
      case BridgeReport(o, at) => ConsideredInternal(r, o, Some(at), at);
      case X11Report(Some(o), at) => ConsideredInternal(r, o, None, at);
      case Refresh(table, temperatures, ticks, at) => RefreshedInternal(r, table, temperatures, ticks, at);
      case ReloadSettings(settings, refreshedAt, _) =>
        var s := r.(settings := settings, selectedRunning := AnySelected(AllowlistOf(settings), r.table));
        if StillValid(s) {
          KeptInternal(s, refreshedAt);
        }
      case _ =>
    }
  }

  /** Every operation keeps the invariant. The revision counts exactly the changes of
      what is shown, until it saturates. */
  lemma StepKeeps(r: Runtime, op: Op)
    requires Invariant(r)
    ensures Invariant(Step(r, op))
    ensures Step(r, op).revision
            == if Shown(Step(r, op)) == Shown(r) then r.revision else Min(r.revision + 1, REVISION_MAX)
  {
    hide Invariant, Effect, Ignored, PublishedAt, Shown;
    if !Ignored(r, op) {
      EffectInternal(r, op);
      PublishKeeps(Effect(r, op), op.at);
      EffectNotPublished(r, op);
      InvariantMeans(r);
    }
  }

  lemma EffectNotPublished(r: Runtime, op: Op)
    ensures Effect(r, op).published == r.published && Effect(r, op).revision == r.revision
  {
  }

  lemma {:induction false} RunKeeps(r: Runtime, ops: seq<Op>)
    requires Invariant(r)
    ensures Invariant(Run(r, ops))
  {
    hide Invariant, Step;
    if ops != [] {
      RunKeeps(r, ops[..|ops| - 1]);
      StepKeeps(Run(r, ops[..|ops| - 1]), ops[|ops| - 1]);
    }
  }

  /** A started Core satisfies the invariant, whatever it was started with. */
  lemma StartedKeeps(overlay: Overlay, table: Table, settings: Settings, profile: Profile, now: Instant)
    ensures Invariant(Started(overlay, table, settings, profile, now))
  {
    hide Classify, AllowlistOf, AnySelected, Allows, Millis, ValidSettings;
    var r := Started(overlay, table, settings, profile, now);
    ShownAnyTime(r, now);
    if r.overlay.game.Some? {
      AllowedIsListed(AllowlistOf(r.settings), r.overlay.game.value.pid.value, table);
    }
  }

  /** Safety over whole runs: in every reachable state an active game is authorised by
      the current table and settings, no trace of a game is left when none is active,
      and what is published is what is shown. */
  lemma Safety(overlay: Overlay, table: Table, settings: Settings, profile: Profile, now: Instant, ops: seq<Op>)
    ensures var r := Run(Started(overlay, table, settings, profile, now), ops);
            && Authorised(r)
            && (r.overlay.game.None? ==> r.meta == BLANK && r.overlay.mode == Passive)
            && Project(r.published) == Shown(r)
  {
    hide Run, Started, Authorised, Shown;
    StartedKeeps(overlay, table, settings, profile, now);
    RunKeeps(Started(overlay, table, settings, profile, now), ops);
  }

  /** Revisions never decrease, and below saturation two states of a run with the same
      revision show the same thing. */
  lemma {:induction false} EqualRevisionsShowTheSame(r: Runtime, ops: seq<Op>)
    requires Invariant(r)
    ensures r.revision <= Run(r, ops).revision
    ensures r.revision == Run(r, ops).revision < REVISION_MAX ==> Shown(r) == Shown(Run(r, ops))
  {
    hide Invariant, Step, Shown;
    if ops != [] {
      var before := Run(r, ops[..|ops| - 1]);
      EqualRevisionsShowTheSame(r, ops[..|ops| - 1]);
      RunKeeps(r, ops[..|ops| - 1]);
      StepKeeps(before, ops[|ops| - 1]);
      InvariantMeans(before);
    }
  }

  lemma InvariantMeans(r: Runtime)
    requires Invariant(r)
    ensures Project(r.published) == Shown(r) && r.revision <= REVISION_MAX
  {
  }
}
