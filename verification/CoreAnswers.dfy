/** What the Core answers, told from the raw data: which reports it accepts, which games it
    keeps, and what it publishes about them (crates/overcrow-core/src/runtime.rs). */
module CoreAnswers {
  import opened Common
  import opened Processes
  import opened Telemetry
  import opened Stopwatch
  import opened Core
  import opened CoreSafety

  // --- the line of a process --------------------------------------------------------

  /** The `k`-th process of the line that starts with `pid` and goes from parent to parent. */
  function Kth(table: Table, pid: Pid, k: nat): Option<ProcessInfo>
    decreases k
  {
    if pid !in table then None else if k == 0 then Some(table[pid]) else Kth(table, table[pid].parent, k - 1)
  }

  /** The first Steam id along the nearest 64 processes of the line is `id`. */
  ghost predicate LineHasSteamId(table: Table, pid: Pid, id: SteamId)
  {
    exists k: nat :: k < 64 && FirstAt(table, pid, id, k)
  }

  ghost predicate FirstAt(table: Table, pid: Pid, id: SteamId, k: nat)
  {
    && Kth(table, pid, k).Some? && Kth(table, pid, k).value.steamId == Some(id)
    && forall j: nat :: j < k ==> Kth(table, pid, j).Some? && Kth(table, pid, j).value.steamId.None?
  }

  /** One of the nearest 64 processes of the line runs `path`. */
  ghost predicate LineRuns(table: Table, pid: Pid, path: Path)
  {
    exists k: nat :: k < 64 && Kth(table, pid, k).Some? && Kth(table, pid, k).value.executable == Some(path)
  }

  /** The user has selected the game a process belongs to. */
  ghost predicate Selected(settings: Settings, table: Table, pid: Pid)
  {
    && settings.enabled && ValidSettings(settings)
    && (|| (exists id: SteamId :: id in settings.steamIds && LineHasSteamId(table, pid, id))
        || (exists i :: 0 <= i < |settings.manualGames| && LineRuns(table, pid, settings.manualGames[i].executable)))
  }

  lemma {:induction false} LineIs(table: Table, pid: Pid, n: nat, k: nat)
    ensures k < |Ancestry(table, pid, n)| <==> k < n && Kth(table, pid, k).Some?
    ensures k < |Ancestry(table, pid, n)| ==> Kth(table, pid, k) == Some(Ancestry(table, pid, n)[k])
    decreases n
  {
    if n > 0 && pid in table && k > 0 {
      LineIs(table, table[pid].parent, n - 1, k - 1);
    }
  }

  lemma {:induction false} NearestIs(line: seq<ProcessInfo>, id: SteamId)
    ensures NearestSteamId(line) == Some(id)
            <==> exists k :: && 0 <= k < |line| && line[k].steamId == Some(id)
                             && forall j :: 0 <= j < k ==> line[j].steamId.None?
  {
    if line != [] {
      var front, last := line[..|line| - 1], line[|line| - 1];
      NearestIs(front, id);
      NoSteamId(front);
      assert forall j :: 0 <= j < |front| ==> front[j] in front && front[j] == line[j];
    }
  }

  lemma LineSteamId(table: Table, pid: Pid, id: SteamId)
    ensures Classify(pid, table).steamId == Some(id) <==> LineHasSteamId(table, pid, id)
  {
    hide Ancestry, Kth, NearestSteamId, DistinctExecutables, AnyGameRelated;
    var line := Ancestry(table, pid, MAX_ANCESTORS);
    NearestIs(line, id);
    forall k: nat
      ensures k < |line| <==> k < 64 && Kth(table, pid, k).Some?
      ensures k < |line| ==> Kth(table, pid, k) == Some(line[k])
    {
      LineIs(table, pid, MAX_ANCESTORS, k);
    }
    if k :| 0 <= k < |line| && line[k].steamId == Some(id) && forall j :: 0 <= j < k ==> line[j].steamId.None? {
      assert FirstAt(table, pid, id, k);
    }
  }

  lemma LineExecutable(table: Table, pid: Pid, path: Path)
    ensures path in Classify(pid, table).executables <==> LineRuns(table, pid, path)
  {
    hide Ancestry, Kth, NearestSteamId, DistinctExecutables, AnyGameRelated;
    var line := Ancestry(table, pid, MAX_ANCESTORS);
    ExecutablesListed(line);
    forall k: nat
      ensures k < |line| <==> k < 64 && Kth(table, pid, k).Some?
      ensures k < |line| ==> Kth(table, pid, k) == Some(line[k])
    {
      LineIs(table, pid, MAX_ANCESTORS, k);
    }
    if LineRuns(table, pid, path) {
      var k: nat :| k < 64 && Kth(table, pid, k).Some? && Kth(table, pid, k).value.executable == Some(path);
      assert line[k] in line;
    }
  }

  /** The allowlist allows the identity of a process exactly if the user has selected it. */
  lemma AllowedExactlyWhenSelected(settings: Settings, table: Table, pid: Pid)
    ensures Allows(AllowlistOf(settings), Classify(pid, table)) <==> Selected(settings, table, pid)
  {
    hide Classify, LineHasSteamId, LineRuns, ValidSettings;
    var identity, games, list := Classify(pid, table), settings.manualGames, AllowlistOf(settings);
    forall id: SteamId
      ensures identity.steamId == Some(id) <==> LineHasSteamId(table, pid, id)
    {
      LineSteamId(table, pid, id);
    }
    forall path
      ensures path in identity.executables <==> LineRuns(table, pid, path)
    {
      LineExecutable(table, pid, path);
    }
    if settings.enabled && ValidSettings(settings) {
      assert forall i :: 0 <= i < |games| ==> games[i] in games && games[i].executable in list.executables;
      assert forall path :: path in list.executables ==> exists i :: 0 <= i < |games| && games[i].executable == path;
    }
  }

  /** `selected_processes_running` is true exactly if some process is of a selected game. */
  lemma RunningExactlyWhenSelected(r: Runtime)
    requires Invariant(r)
    ensures r.selectedRunning <==> exists pid :: pid in r.table && Selected(r.settings, r.table, pid)
  {
    hide Selected, Classify, Allows, AllowlistOf;
    forall pid
      ensures Allows(AllowlistOf(r.settings), Classify(pid, r.table)) <==> Selected(r.settings, r.table, pid)
    {
      AllowedExactlyWhenSelected(r.settings, r.table, pid);
    }
  }

  // --- reports ----------------------------------------------------------------------

  predicate Drawable(o: Observation)
  {
    o.rect.width > 0 && o.rect.height > 0 && o.scale.Finite? && o.scale.value > 0.0
  }

  /** The game shown is the window observed, with the Steam id of its line. */
  ghost predicate Shows(game: GameWindow, o: Observation, table: Table)
  {
    && game.pid == o.pid && o.pid.Some? && game.appId == o.appId && game.title == o.title && game.rect == o.rect
    && game.scale == o.scale && game.backend == o.backend
    && forall id: SteamId :: game.steamId == Some(id) <==> LineHasSteamId(table, o.pid.value, id)
  }

  /** The same process of the same Steam game. */
  predicate SameGroup(before: Runtime, after: Runtime)
  {
    && before.overlay.game.Some? && after.overlay.game.Some? && before.meta.process == after.meta.process
    && before.overlay.game.value.steamId == after.overlay.game.value.steamId
  }

  /** A report of a window is accepted exactly if the window can be drawn and belongs to a
      process in the table whose game the user has selected. The game is then that window,
      in the mode there was, on the word of the bridge or of X11, and keeps its telemetry if
      it is of the same group as the game before; else there is no game. */
  lemma ReportAnswered(r: Runtime, o: Observation, at: Instant, op: Op)
    requires Invariant(r)
    requires op == BridgeReport(o, at) || (op == X11Report(Some(o), at) && o.appId != Some(OVERLAY_APP_ID))
    ensures var a := Step(r, op);
            if Drawable(o) && o.pid.Some? && o.pid.value in r.table && Selected(r.settings, r.table, o.pid.value)
            then && a.overlay.game.Some? && Shows(a.overlay.game.value, o, r.table) && a.overlay.mode == r.overlay.mode
                 && a.meta.lease == (if op.BridgeReport? then Some(at) else None)
                 && a.meta.telemetry == if SameGroup(r, a) then r.meta.telemetry else None
            else a.overlay == NO_GAME
  {
    hide Selected, Classify, Allows, AllowlistOf, AnySelected, LineHasSteamId, Reconciled, SnapshotOf, StateChanged;
    if o.pid.Some? {
      AllowedExactlyWhenSelected(r.settings, r.table, o.pid.value);
      forall id: SteamId
        ensures Classify(o.pid.value, r.table).steamId == Some(id) <==> LineHasSteamId(r.table, o.pid.value, id)
      {
        LineSteamId(r.table, o.pid.value, id);
      }
    }
  }

  /** The overlay's own window is ignored, and no window clears the game. */
  lemma OtherReportsAnswered(r: Runtime, o: Observation, at: Instant)
    ensures o.appId == Some(OVERLAY_APP_ID) ==> Step(r, X11Report(Some(o), at)) == r
    ensures Step(r, X11Report(None, at)).overlay == NO_GAME && Step(r, Clear(at)).overlay == NO_GAME
  {
  }

  // --- refreshes and settings -------------------------------------------------------

  /** The active game outlives a change of table or settings: its process is still the same
      instance with the same identity, and still selected. */
  ghost predicate Outlives(r: Runtime, table: Table, settings: Settings)
  {
    && r.overlay.game.Some? && r.overlay.game.value.pid.Some?
    && var pid := r.overlay.game.value.pid.value;
    && pid in table && pid in r.table && table[pid].startTicks == r.table[pid].startTicks
    && Classify(pid, table) == Classify(pid, r.table) && Selected(settings, table, pid)
  }

  /** A new table, or new settings that are enabled and valid, keep the game with its mode
      exactly if it outlives them. Other settings change nothing. */
  lemma ChangeAnswered(r: Runtime, op: Op)
    requires Invariant(r) && (op.Refresh? || op.ReloadSettings?)
    ensures var a := Step(r, op);
            if op.ReloadSettings? && !(op.settings.enabled && ValidSettings(op.settings)) then a == r
            else
              var table := if op.Refresh? then op.table else r.table;
              var settings := if op.Refresh? then r.settings else op.settings;
              && a.table == table && a.settings == settings
              && a.overlay == if Outlives(r, table, settings) then r.overlay else NO_GAME
  {
    hide Selected, Classify, Allows, AllowlistOf, AnySelected, SnapshotOf, StateChanged, ValidSettings, Reconciled;
    if r.overlay.game.Some? {
      var pid := r.overlay.game.value.pid.value;
      AllowedExactlyWhenSelected(r.settings, if op.Refresh? then op.table else r.table, pid);
      if op.ReloadSettings? {
        AllowedExactlyWhenSelected(op.settings, r.table, pid);
      }
    }
  }

  /** A Core starts with the game it is given exactly if its process is in the table, has the
      Steam id the game claims, and is selected by settings that are enabled and valid. */
  lemma StartAnswered(overlay: Overlay, table: Table, settings: Settings, profile: Profile, now: Instant)
    ensures var a := Started(overlay, table, settings, profile, now);
            && a.table == table && a.profile == profile && a.revision == 0
            && a.settings == (if settings.enabled && ValidSettings(settings) then settings else DEFAULT_SETTINGS)
            && a.overlay == if && overlay.game.Some? && overlay.game.value.pid.Some?
                               && var pid := overlay.game.value.pid.value;
                               && Selected(settings, table, pid)
                               && forall id: SteamId ::
                                    overlay.game.value.steamId == Some(id) <==> LineHasSteamId(table, pid, id)
                            then overlay else NO_GAME
  {
    hide Selected, Classify, Allows, AllowlistOf, AnySelected, SnapshotOf, ValidSettings, LineHasSteamId;
    if overlay.game.Some? && overlay.game.value.pid.Some? {
      var pid := overlay.game.value.pid.value;
      AllowedExactlyWhenSelected(settings, table, pid);
      SelectedNeedsValid(settings, table, pid);
      forall id: SteamId
        ensures Classify(pid, table).steamId == Some(id) <==> LineHasSteamId(table, pid, id)
      {
        LineSteamId(table, pid, id);
      }
      assert overlay.game.value.steamId == Classify(pid, table).steamId
             <==> forall id: SteamId ::
                    overlay.game.value.steamId == Some(id) <==> Classify(pid, table).steamId == Some(id);
    }
  }

  lemma SelectedNeedsValid(settings: Settings, table: Table, pid: Pid)
    ensures Selected(settings, table, pid) ==> settings.enabled && ValidSettings(settings)
    ensures !Allows(AllowlistOf(DEFAULT_SETTINGS), Classify(pid, table))
  {
    hide Classify;
  }

  // --- telemetry --------------------------------------------------------------------

  function AncestorAt(table: Table, pid: Pid, k: nat): Option<Pid>
    decreases k
  {
    if k == 0 then Some(pid) else if pid !in table then None else AncestorAt(table, table[pid].parent, k - 1)
  }

  /** A process counts towards a Steam game if its line has that Steam id, and towards any
      other game if the game's process is among the nearest 64 of its line. */
  ghost predicate InGroup(table: Table, p: Pid, active: Pid, steamId: Option<SteamId>)
  {
    match steamId
    case Some(id) => LineHasSteamId(table, p, id)
    case None => AncestorWithin(table, p, active, 64)
  }

  ghost predicate AncestorWithin(table: Table, pid: Pid, active: Pid, n: nat)
  {
    exists k: nat :: k < n && AncestorAt(table, pid, k) == Some(active)
  }

  lemma {:induction false} DescendsIs(table: Table, pid: Pid, active: Pid, n: nat)
    ensures Descends(table, pid, active, n) <==> AncestorWithin(table, pid, active, n)
    decreases n
  {
    if n > 0 {
      var here: nat := 0;
      assert AncestorAt(table, pid, here) == Some(pid);
      if pid in table {
        DescendsIs(table, table[pid].parent, active, n - 1);
        if AncestorWithin(table, pid, active, n) && pid != active {
          var k: nat :| k < n && AncestorAt(table, pid, k) == Some(active);
          assert AncestorAt(table, table[pid].parent, k - 1) == Some(active);
        }
        if AncestorWithin(table, table[pid].parent, active, n - 1) {
          var k: nat :| k < n - 1 && AncestorAt(table, table[pid].parent, k) == Some(active);
          assert AncestorAt(table, pid, k + 1) == Some(active);
        }
      }
    }
  }

  lemma GroupIs(active: Pid, steamId: Option<SteamId>, table: Table)
    ensures Group(active, steamId, table) == set p | p in table && InGroup(table, p, active, steamId)
  {
    hide Classify, LineHasSteamId, Descends, AncestorWithin;
    forall p | p in table
      ensures p in Group(active, steamId, table) <==> InGroup(table, p, active, steamId)
    {
      if steamId.Some? {
        LineSteamId(table, p, steamId.value);
      } else {
        DescendsIs(table, p, active, MAX_ANCESTORS);
        assert p in Group(active, steamId, table) <==> Descends(table, p, active, MAX_ANCESTORS);
      }
    }
  }

  function KeyOf(game: GameWindow, table: Table): GroupKey
    requires game.pid.Some? && game.pid.value in table
  {
    var identity := if game.steamId.Some? then Steam(game.steamId.value) else Native;
    GroupKey(game.pid.value, table[game.pid.value].startTicks, identity)
  }

  /** The processes that count towards a game, summed up. */
  ghost function SummedUp(game: GameWindow, table: Table, at: Instant): Sample
    requires game.pid.Some? && game.pid.value in table
  {
    var group := set p | p in table && InGroup(table, p, game.pid.value, game.steamId);
    Sample(KeyOf(game, table),
           Resources(Min(TotalTicks(group, table), U64_MAX), Min(TotalBytes(group, table), U64_MAX)), at)
  }

  lemma SampleIs(game: GameWindow, table: Table, at: Instant)
    requires game.pid.Some? && game.pid.value in table && Classify(game.pid.value, table).steamId == game.steamId
    ensures SampleOf(game.pid.value, game.steamId, table, at) == Some(SummedUp(game, table, at))
  {
    GroupIs(game.pid.value, game.steamId, table);
    hide Group, InGroup, Classify, TotalTicks, TotalBytes;
  }

  lemma RefreshedMeta(r: Runtime, op: Op)
    requires Invariant(r) && op.Refresh? && Outlives(r, op.table, r.settings)
    ensures var meta := ProcessRefreshed(r.meta, r.overlay.game, op.table, op.at);
            Step(r, op).meta
            == TelemetryRefreshed(meta, r.overlay.game, op.table, op.temperatures, op.ticksPerSecond, op.at)
  {
    assert r.overlay.game.Some?;
    hide Invariant, Outlives, Selected, Classify, Allows, AllowlistOf, AnySelected, SnapshotOf, StateChanged,
         GameIsCurrent, StillValid, TelemetryRefreshed, ProcessRefreshed, ValidSettings;
    ChangeAnswered(r, op);
  }

  /** What a refresh publishes about a game that outlives it: the two temperatures as they
      are, the memory of the processes that count towards the game, and the CPU figure since
      the sample before, if that was of the same process of the same game. */
  lemma TelemetryAnswered(r: Runtime, table: Table, temperatures: Temperatures, ticksPerSecond: nat, at: Instant)
    requires Invariant(r) && Outlives(r, table, r.settings)
    ensures var a, game := Step(r, Refresh(table, temperatures, ticksPerSecond, at)), r.overlay.game.value;
            var before, sample := r.meta.sampler, SummedUp(game, table, at);
            var cpu := if before.Some? && before.value.key == KeyOf(game, table)
                       then CpuHundredths(before.value, sample, ticksPerSecond) else None;
            && a.meta.sampler == Some(sample) && a.published.telemetry == a.meta.telemetry
            && a.meta.telemetry
               == Some(GameTelemetry(cpu, Some(sample.resources.residentBytes), temperatures.cpu, temperatures.gpu))
  {
    var op := Refresh(table, temperatures, ticksPerSecond, at);
    ChangeAnswered(r, op);
    StepKeeps(r, op);
    InvariantMeans(Step(r, op));
    RefreshedMeta(r, op);
    SampleIs(r.overlay.game.value, table, at);
    hide Step, Selected, Classify, Allows, AllowlistOf, AnySelected, Reconciled, SampleOf, SummedUp, CpuHundredths;
  }

  /** The time known of the game's process after an operation: what the table tells, or what
      was reached before if that is more and the process is the same. */
  predicate Timed(before: Metadata, after: Metadata, told: Option<Timing>, at: Instant)
  {
    var reached := if before.process == after.process then before.floor else None;
    && after.timing.Some? == told.Some?
    && after.floor == (if told.Some? then after.timing else reached)
    && (told.Some? ==>
          ElapsedAt(after.timing.value, at)
          == Max(ElapsedAt(told.value, at), if reached.Some? then ElapsedAt(reached.value, at) else 0))
  }

  predicate TakesTimes(op: Op)
  {
    match op
    case BridgeReport(_, _) => true
    case X11Report(o, _) => o.Some? && o.value.appId != Some(OVERLAY_APP_ID)
    case Refresh(_, _, _, _) => true
    case ReloadSettings(settings, _, _) => settings.enabled && ValidSettings(settings)
    case _ => false
  }

  lemma ReconciledTimes(before: Metadata, after: Metadata, instance: Instance, told: Option<Timing>, at: Instant)
    requires after.process == Some(instance)
    requires (after.timing, after.floor) == Reconciled(before.process, before.floor, instance, told, at)
    ensures Timed(before, after, told, at)
  {
  }

  ghost predicate TimeIsTold(r: Runtime, a: Runtime, at: Instant)
  {
    a.overlay.game.Some? ==>
      && a.overlay.game.value.pid.Some? && a.overlay.game.value.pid.value in a.table
      && var pid := a.overlay.game.value.pid.value;
      && a.meta.process == Some(Instance(pid, a.table[pid].startTicks))
      && Timed(r.meta, a.meta, a.table[pid].timing, at)
  }

  lemma ConsideredTimes(r: Runtime, o: Observation, lease: Option<Instant>, at: Instant)
    ensures TimeIsTold(r, Considered(r, o, lease, at), at)
  {
    hide Classify, Allows, AllowlistOf, Timed, Reconciled;
    var a := Considered(r, o, lease, at);
    if a.overlay.game.Some? {
      var pid := o.pid.value;
      ReconciledTimes(r.meta, a.meta, Instance(pid, r.table[pid].startTicks), r.table[pid].timing, at);
    }
  }

  lemma RefreshedTimes(meta: Metadata, game: GameWindow, table: Table, at: Instant)
    requires game.pid.Some? && game.pid.value in table
    ensures var after := ProcessRefreshed(meta, Some(game), table, at);
            && after.process == Some(Instance(game.pid.value, table[game.pid.value].startTicks))
            && Timed(meta, after, table[game.pid.value].timing, at)
  {
    hide Timed, Reconciled;
    var after, process := ProcessRefreshed(meta, Some(game), table, at), table[game.pid.value];
    ReconciledTimes(meta, after, Instance(game.pid.value, process.startTicks), process.timing, at);
  }

  lemma ChangeTimes(r: Runtime, op: Op)
    requires op.Refresh? || op.ReloadSettings?
    ensures TimeIsTold(r, Effect(r, op), if op.ReloadSettings? then op.refreshedAt else op.at)
  {
    hide Classify, Allows, AllowlistOf, AnySelected, Reconciled, ProcessRefreshed, SampleOf, Observed;
    var a, at := Effect(r, op), if op.ReloadSettings? then op.refreshedAt else op.at;
    if a.overlay.game.Some? {
      RefreshedTimes(r.meta, a.overlay.game.value, a.table, at);
    }
  }

  /** Reports, refreshes and new settings bring the time of the game's process up to date. */
  lemma TimingAnswered(r: Runtime, op: Op)
    requires TakesTimes(op)
    ensures TimeIsTold(r, Step(r, op), if op.ReloadSettings? then op.refreshedAt else op.at)
  {
    hide Timed, Considered, Refreshed, Reloaded, ValidSettings, SnapshotOf, StateChanged;
    match op {
      case BridgeReport(o, at) => ConsideredTimes(r, o, Some(at), at);
      case X11Report(o, at) => ConsideredTimes(r, o.value, None, at);
      case _ => ChangeTimes(r, op);
    }
  }

  /** The session time shown is that of the process, as far as it is known. */
  lemma SessionAnswered(r: Runtime, now: Instant)
    ensures SnapshotOf(r.overlay, r.meta, now).sessionMs
            == if r.overlay.game.None? || r.meta.timing.None? then None
               else
                 var timing := r.meta.timing.value;
                 var passed := if timing.observedAt <= now then now - timing.observedAt else 0;
                 Some(Min(Min(timing.elapsed + passed, DURATION_MAX) / 1_000_000, MILLIS_MAX))
  {
  }

  // --- controls ---------------------------------------------------------------------

  /** The overlay is interactive only over a game, and the stopwatch obeys only while there
      is a game and the profile shows the stopwatch. */
  lemma ControlsAnswered(r: Runtime, interactive: bool, profile: Profile, at: Instant)
    requires Invariant(r)
    ensures Step(r, ToggleOverlay(at)).overlay
            == if r.overlay.game.None? then NO_GAME
               else Overlay(r.overlay.game, if r.overlay.mode.Interactive? then Passive else Interactive)
    ensures Step(r, SetInteractive(interactive, at)).overlay
            == Overlay(r.overlay.game, if r.overlay.game.Some? && interactive then Interactive else Passive)
    ensures var watch := Step(r, ToggleStopwatch(at)).meta.stopwatch;
            if r.overlay.game.None? || !r.profile.stopwatchEnabled then watch == r.meta.stopwatch
            else watch.startedAt == (if r.meta.stopwatch.startedAt.None? then Some(at) else None)
    ensures Step(r, ResetStopwatch(at)).meta.stopwatch
            == if r.overlay.game.None? || !r.profile.stopwatchEnabled then r.meta.stopwatch else STOPPED
    ensures var a := Step(r, ReloadProfile(profile, at));
            a.profile == profile && a.overlay == r.overlay && a.meta == r.meta && a.settings == r.settings
  {
    hide Authorised, Classify, Allows, AllowlistOf, AnySelected, SnapshotOf, StateChanged, Shown;
  }
}
