/** Properties of the Core that look back over a run: session time, the stopwatch and
    the bridge lease (crates/overcrow-core/src/runtime.rs). */
module CoreHistory {
  import opened Common
  import opened Processes
  import opened Stopwatch
  import opened Core
  import opened CoreSafety

  // --- session time -----------------------------------------------------------------

  /** `session_elapsed_ms` of a snapshot taken at `now`. */
  function SessionAt(r: Runtime, now: Instant): Option<nat> { SnapshotOf(r.overlay, r.meta, now).sessionMs }

  /** When an operation first reads the clock. */
  function Begin(op: Op): Instant { if op.ReloadSettings? then op.refreshedAt else op.at }

  /** The clock readings of a run never decrease. */
  predicate InOrder(start: Instant, ops: seq<Op>, end: Instant)
  {
    if ops == [] then start <= end
    else
      var last := ops[|ops| - 1];
      InOrder(start, ops[..|ops| - 1], Begin(last)) && Begin(last) <= last.at <= end
  }

  /** The same process instance is active in every state of a run. */
  ghost predicate SameActivation(r: Runtime, ops: seq<Op>, instance: Instance)
  {
    && Run(r, ops).meta.process == Some(instance)
    && (ops != [] ==> SameActivation(r, ops[..|ops| - 1], instance))
  }

  function Reached(floor: Option<Timing>, now: Instant): Duration
  {
    if floor.Some? then ElapsedAt(floor.value, now) else 0
  }

  lemma ReachedGrows(floor: Option<Timing>, now: Instant, later: Instant)
    requires now <= later
    ensures Reached(floor, now) <= Reached(floor, later)
  {
  }

  lemma ReconciledKeepsFloor(floor: Option<Timing>, instance: Instance, timing: Option<Timing>, before: Instant,
                             now: Instant, later: Instant)
    requires before <= now <= later
    ensures var after := Reconciled(Some(instance), floor, instance, timing, now).1;
            Reached(floor, before) <= Reached(after, later)
  {
    var after := Reconciled(Some(instance), floor, instance, timing, now).1;
    ReachedGrows(floor, before, now);
    ReachedGrows(after, now, later);
  }

  lemma StepMeta(r: Runtime, op: Op)
    requires !Ignored(r, op)
    ensures Step(r, op).meta == Effect(r, op).meta && Step(r, op).overlay == Effect(r, op).overlay
  {
    hide Effect;
  }

  /** While an instance stays active the floor under its session time never falls. */
  lemma FloorHolds(r: Runtime, op: Op, instance: Instance, before: Instant, later: Instant)
    requires r.meta.process == Some(instance) == Step(r, op).meta.process
    requires before <= Begin(op) <= op.at <= later
    ensures Reached(r.meta.floor, before) <= Reached(Step(r, op).meta.floor, later)
  {
    hide Reconciled, Classify, AllowlistOf, AnySelected, Allows, Reached, ValidSettings, GameIsCurrent, PublishedAt;
    ReachedGrows(r.meta.floor, before, later);
    if !Ignored(r, op) {
      hide Step;
      StepMeta(r, op);
      match op {
        case BridgeReport(o, at) => ConsideredFloor(r, o, Some(at), instance, before, at, later);
        case X11Report(Some(o), at) => ConsideredFloor(r, o, None, instance, before, at, later);
        case Refresh(table, _, _, at) => RefreshedFloor(r.meta, r.overlay.game, table, instance, before, at, later);
        case ReloadSettings(_, at, _) => RefreshedFloor(r.meta, r.overlay.game, r.table, instance, before, at, later);
        case _ =>
      }
    }
  }

  lemma ConsideredFloor(r: Runtime, o: Observation, lease: Option<Instant>, instance: Instance, before: Instant,
                        now: Instant, later: Instant)
    requires r.meta.process == Some(instance) == Considered(r, o, lease, now).meta.process
    requires before <= now <= later
    ensures Reached(r.meta.floor, before) <= Reached(Considered(r, o, lease, now).meta.floor, later)
  {
    hide Reconciled, Classify, AllowlistOf, AnySelected, Allows, Reached;
    ReconciledKeepsFloor(r.meta.floor, instance, r.table[o.pid.value].timing, before, now, later);
  }

  lemma RefreshedFloor(meta: Metadata, game: Option<GameWindow>, table: Table, instance: Instance, before: Instant,
                       now: Instant, later: Instant)
    requires meta.process == Some(instance) && before <= now <= later
    ensures var after := ProcessRefreshed(meta, game, table, now);
            after.process == Some(instance) ==> Reached(meta.floor, before) <= Reached(after.floor, later)
  {
    hide Reconciled, Reached;
    if game.Some? && game.value.pid.Some? && game.value.pid.value in table {
      ReconciledKeepsFloor(meta.floor, instance, table[game.value.pid.value].timing, before, now, later);
    }
  }

  lemma {:induction false} FloorHoldsOverRun(r: Runtime, ops: seq<Op>, instance: Instance, start: Instant, end: Instant)
    requires InOrder(start, ops, end) && SameActivation(r, ops, instance)
    ensures Reached(r.meta.floor, start) <= Reached(Run(r, ops).meta.floor, end)
  {
    hide Reached, Step;
    if ops == [] {
      ReachedGrows(r.meta.floor, start, end);
    } else {
      var front, last := ops[..|ops| - 1], ops[|ops| - 1];
      FloorHoldsOverRun(r, front, instance, start, Begin(last));
      assert SameActivation(r, front, instance);
      FloorHolds(Run(r, front), last, instance, Begin(last), end);
    }
  }

  lemma SessionIsFloor(r: Runtime, now: Instant)
    requires Invariant(r)
    ensures SessionAt(r, now).Some? ==> SessionAt(r, now).value == Millis(Reached(r.meta.floor, now))
  {
    hide Classify, AllowlistOf, AnySelected, Allows;
  }

  /** The session time reported for one process instance never goes backwards while it
      stays active, even if a scan in between had no timing or a smaller age. */
  lemma SessionNeverGoesBack(r: Runtime, ops: seq<Op>, instance: Instance, start: Instant, end: Instant)
    requires Invariant(r) && InOrder(start, ops, end) && SameActivation(r, ops, instance)
    ensures var before, after := SessionAt(r, start), SessionAt(Run(r, ops), end);
            before.Some? && after.Some? ==> before.value <= after.value
  {
    hide Invariant, Run, SameActivation, InOrder, Reached;
    RunKeeps(r, ops);
    SessionIsFloor(r, start);
    SessionIsFloor(Run(r, ops), end);
    FloorHoldsOverRun(r, ops, instance, start, end);
  }

  // --- the stopwatch ----------------------------------------------------------------

  /** The accepted toggles since the last reset or change of active process. */
  ghost function Toggles(r: Runtime, ops: seq<Op>): seq<Instant>
  {
    if ops == [] then []
    else
      var before, op := Run(r, ops[..|ops| - 1]), ops[|ops| - 1];
      var toggles := Toggles(r, ops[..|ops| - 1]);
      if Run(r, ops).meta.process != before.meta.process then []
      else if op.ToggleStopwatch? && StopwatchUsable(before) then toggles + [op.at]
      else if op.ResetStopwatch? && StopwatchUsable(before) then []
      else toggles
  }

  lemma NoProcessNoWatch(r: Runtime)
    requires Invariant(r) && r.meta.process.None?
    ensures r.meta.stopwatch == STOPPED
  {
    hide Classify, AllowlistOf, AnySelected, Allows, Millis;
  }

  /** One operation: a new process gets a fresh stopwatch, and only an accepted toggle
      or reset touches the one of the same process. */
  lemma StepStopwatch(r: Runtime, op: Op)
    requires Invariant(r)
    ensures var next := Step(r, op);
            next.meta.stopwatch
            == if next.meta.process != r.meta.process then STOPPED
               else if op.ToggleStopwatch? && StopwatchUsable(r) then Toggled(r.meta.stopwatch, op.at)
               else if op.ResetStopwatch? && StopwatchUsable(r) then STOPPED
               else r.meta.stopwatch
  {
    hide Invariant, Reconciled, Classify, AllowlistOf, AnySelected, Allows, ValidSettings, GameIsCurrent, PublishedAt;
    if !Ignored(r, op) {
      StepMeta(r, op);
      hide Step;
      if r.meta.process.None? {
        NoProcessNoWatch(r);
      }
    }
  }

  /** The stopwatch always reads the sum of its run intervals since it was last reset or
      the active process last changed. */
  lemma {:induction false} StopwatchReadsItsRuns(r: Runtime, ops: seq<Op>, now: Instant)
    requires Invariant(r) && r.meta.stopwatch == STOPPED
    ensures Run(r, ops).meta.stopwatch == After(Toggles(r, ops))
    ensures ReadAt(Run(r, ops).meta.stopwatch, now)
            == Reading(Millis(Min(RunTime(Toggles(r, ops), now), DURATION_MAX)), |Toggles(r, ops)| % 2 == 1)
  {
    hide Invariant, Step, Millis, RunTime;
    if ops != [] {
      var front, last := ops[..|ops| - 1], ops[|ops| - 1];
      StopwatchReadsItsRuns(r, front, now);
      RunKeeps(r, front);
      StepStopwatch(Run(r, front), last);
      AfterLast(Toggles(r, front), last.at);
    }
    ReadsRunTime(Toggles(r, ops), now);
  }

  // --- the bridge lease -------------------------------------------------------------

  /** The bridge report the active game rests on: the last accepted report, if it came
      from the bridge. */
  ghost function LastReport(r: Runtime, ops: seq<Op>): Option<Instant>
  {
    if ops == [] || Run(r, ops).overlay.game.None? then None
    else
      var op := ops[|ops| - 1];
      if op.BridgeReport? then Some(op.at)
      else if op.X11Report? && !Ignored(Run(r, ops[..|ops| - 1]), op) then None
      else LastReport(r, ops[..|ops| - 1])
  }

  lemma StepLease(r: Runtime, op: Op)
    requires Invariant(r)
    ensures var next := Step(r, op);
            next.meta.lease
            == if next.overlay.game.None? then None
               else if op.BridgeReport? then Some(op.at)
               else if op.X11Report? && !Ignored(r, op) then None
               else r.meta.lease
  {
    hide Reconciled, Classify, AllowlistOf, AnySelected, Allows, ValidSettings, GameIsCurrent, PublishedAt, Millis,
         Authorised;
    if !Ignored(r, op) {
      StepMeta(r, op);
      hide Step;
    }
  }

  lemma {:induction false} LeaseIsLastReport(r: Runtime, ops: seq<Op>)
    requires Invariant(r) && r.meta.lease.None?
    ensures Run(r, ops).meta.lease == LastReport(r, ops)
  {
    hide Invariant, Step;
    if ops != [] {
      LeaseIsLastReport(r, ops[..|ops| - 1]);
      RunKeeps(r, ops[..|ops| - 1]);
      StepLease(Run(r, ops[..|ops| - 1]), ops[|ops| - 1]);
    }
  }

  /** The watchdog drops the game exactly when it rests on a bridge report that is at
      least five seconds old; otherwise it changes nothing. */
  lemma WatchdogDropsExactlyStale(r: Runtime, ops: seq<Op>, now: Instant)
    requires Invariant(r) && r.meta.lease.None?
    ensures var before := Run(r, ops);
            var after := Run(r, ops + [LeaseCheck(now)]);
            var report := LastReport(r, ops);
            if report.Some? && now >= report.value + BRIDGE_LEASE_TIMEOUT
            then after.overlay == NO_GAME && after.meta == BLANK
            else after == before
  {
    var longer := ops + [LeaseCheck(now)];
    assert longer[..|longer| - 1] == ops;
    LeaseIsLastReport(r, ops);
    hide LastReport;
    LeaseStep(Run(r, ops), now);
  }

  lemma LeaseStep(r: Runtime, now: Instant)
    ensures LeaseExpired(r.meta, now) ==>
              Step(r, LeaseCheck(now)).overlay == NO_GAME && Step(r, LeaseCheck(now)).meta == BLANK
    ensures !LeaseExpired(r.meta, now) ==> Step(r, LeaseCheck(now)) == r
  {
  }

  /** A game that is still active after a watchdog check rests on X11, or on a bridge
      report less than five seconds old. */
  lemma SurvivorIsFresh(r: Runtime, ops: seq<Op>, now: Instant)
    requires Invariant(r) && r.meta.lease.None?
    ensures var longer := ops + [LeaseCheck(now)];
            LastReport(r, longer).Some? ==> now < LastReport(r, longer).value + BRIDGE_LEASE_TIMEOUT
  {
    var longer := ops + [LeaseCheck(now)];
    assert longer[..|longer| - 1] == ops;
    WatchdogDropsExactlyStale(r, ops, now);
  }
}
