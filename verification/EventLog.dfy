/** The coalescing of geometry events (crates/overcrow-core/src/event_log.rs). Instants
    count nanoseconds. */
module EventLog {
  import opened Common
  import Core

  const GEOMETRY_LOG_INTERVAL: int := 1_000_000_000
  const MAX_INSTANT: int := 0x8000_0000_0000_0000 * 1_000_000_000 - 1
  const U64_MAX := 0xFFFF_FFFF_FFFF_FFFF

  type Rect = Core.Rect

  datatype GameId = GameId(pid: Option<nat>, steamId: Option<nat>, appId: Option<string>, backend: string)

  datatype LoggedGame = LoggedGame(id: GameId, rect: Rect)

  type OverlayMode = Core.Mode

  datatype Observation = Observation(game: Option<LoggedGame>, mode: OverlayMode, now: int)

  datatype Event =
    | GameDetected(game: LoggedGame)
    | GameChanged(game: LoggedGame)
    | GeometryChanged(rect: Rect, suppressed: nat)
    | GameCleared
    | OverlayModeChanged(mode: OverlayMode)

  datatype Pending = Pending(rect: Rect, count: nat)

  datatype Tracker = Tracker(game: Option<LoggedGame>, mode: Option<OverlayMode>, next: Option<int>,
                             pending: Option<Pending>)

  const BLANK := Tracker(None, None, None, None)

  datatype Outcome = Outcome(tracker: Tracker, events: seq<Event>)

  /** `checked_add`: no deadline beyond the end of the clock. */
  function Deadline(now: int): Option<int>
  {
    if now + GEOMETRY_LOG_INTERVAL <= MAX_INSTANT then Some(now + GEOMETRY_LOG_INTERVAL) else None
  }

  function Held(t: Tracker): nat { if t.pending.Some? then t.pending.value.count else 0 }

  function Flushed(t: Tracker): seq<Event>
  {
    if t.pending.Some? then [GeometryChanged(t.pending.value.rect, t.pending.value.count)] else []
  }

  function GeometrySeen(t: Tracker, rect: Rect, now: int): Outcome
  {
    if t.next.None? || now >= t.next.value then
      Outcome(t.(pending := None, next := Deadline(now)), [GeometryChanged(rect, Held(t))])
    else Outcome(t.(pending := Some(Pending(rect, Min(Held(t) + 1, U64_MAX)))), [])
  }

  function DueFlushed(t: Tracker, now: int): Outcome
  {
    if t.next.Some? && now >= t.next.value && t.pending.Some? then
      Outcome(t.(pending := None, next := Deadline(now)), Flushed(t))
    else Outcome(t, [])
  }

  /** How an observation relates to the one before it. */
  datatype Turn = Opens | Closes | Switches | Resizes | Keeps

  function TurnOf(before: Option<LoggedGame>, after: Option<LoggedGame>): Turn
  {
    match (before, after)
    case (None, Some(_)) => Opens
    case (Some(_), None) => Closes
    case (Some(previous), Some(game)) =>
      if previous.id != game.id then Switches else if previous.rect != game.rect then Resizes else Keeps
    case _ => Keeps
  }

  /** The game goes on. */
  predicate Continues(turn: Turn) { turn.Resizes? || turn.Keeps? }

  function GameSeen(t: Tracker, o: Observation): Outcome
  {
    match TurnOf(t.game, o.game)
    case Opens => Outcome(t.(next := None, pending := None), [GameDetected(o.game.value)])
    case Closes => Outcome(t.(next := None, pending := None), Flushed(t) + [GameCleared])
    case Switches => Outcome(t.(next := None, pending := None), Flushed(t) + [GameChanged(o.game.value)])
    case Resizes => GeometrySeen(t, o.game.value.rect, o.now)
    case Keeps => DueFlushed(t, o.now)
  }

  function Observed(t: Tracker, o: Observation): Outcome
  {
    var seen := GameSeen(t, o);
    Outcome(seen.tracker.(game := o.game, mode := Some(o.mode)),
            seen.events + if t.mode != Some(o.mode) then [OverlayModeChanged(o.mode)] else [])
  }

  // --- the tracker ------------------------------------------------------------------

  class CoreEventTracker {
    var game: Option<LoggedGame>
    var mode: Option<OverlayMode>
    var nextGeometryLog: Option<int>
    var pendingGeometry: Option<Pending>

    ghost function View(): Tracker
      reads this
    {
      Tracker(game, mode, nextGeometryLog, pendingGeometry)
    }

    constructor ()
      ensures View() == BLANK
    {
      game, mode, nextGeometryLog, pendingGeometry := None, None, None, None;
    }

    method Observe(o: Observation) returns (events: seq<Event>)
      modifies this
      ensures Outcome(View(), events) == Observed(old(View()), o)
    {
      events := [];
      if game.None? && o.game.Some? {
        events := events + [GameDetected(o.game.value)];
        ResetGeometryLimit();
      } else if game.Some? && o.game.None? {
        events := FlushPendingGeometry(events);
        events := events + [GameCleared];
        ResetGeometryLimit();
      } else if game.Some? && game.value.id != o.game.value.id {
        events := FlushPendingGeometry(events);
        events := events + [GameChanged(o.game.value)];
        ResetGeometryLimit();
      } else if game.Some? && game.value.rect != o.game.value.rect {
        events := ObserveGeometry(o.game.value.rect, o.now, events);
      } else {
        events := FlushDueGeometry(o.now, events);
      }
      assert events == GameSeen(old(View()), o).events;
      game := o.game;
      if mode != Some(o.mode) {
        mode := Some(o.mode);
        events := events + [OverlayModeChanged(o.mode)];
      }
    }

    method ObserveGeometry(rect: Rect, now: int, logged: seq<Event>) returns (events: seq<Event>)
      modifies this`nextGeometryLog, this`pendingGeometry
      ensures View() == GeometrySeen(old(View()), rect, now).tracker
      ensures events == logged + GeometrySeen(old(View()), rect, now).events
    {
      events := logged;
      if nextGeometryLog.None? || now >= nextGeometryLog.value {
        var suppressed := if pendingGeometry.Some? then pendingGeometry.value.count else 0;
        pendingGeometry := None;
        events := events + [GeometryChanged(rect, suppressed)];
        nextGeometryLog := Deadline(now);
        return;
      }
      var suppressed := if pendingGeometry.Some? then Min(pendingGeometry.value.count + 1, U64_MAX) else 1;
      pendingGeometry := Some(Pending(rect, suppressed));
    }

    method FlushDueGeometry(now: int, logged: seq<Event>) returns (events: seq<Event>)
      requires logged == []
      modifies this`nextGeometryLog, this`pendingGeometry
      ensures Outcome(View(), events) == DueFlushed(old(View()), now)
    {
      events := logged;
      if nextGeometryLog.Some? && now >= nextGeometryLog.value {
        events := FlushPendingGeometry(events);
        if events != [] && events[|events| - 1].GeometryChanged? {
          nextGeometryLog := Deadline(now);
        }
      }
    }

    method FlushPendingGeometry(logged: seq<Event>) returns (events: seq<Event>)
      modifies this`pendingGeometry
      ensures pendingGeometry == None && events == logged + old(Flushed(View()))
    {
      events := logged;
      if pendingGeometry.Some? {
        events := events + [GeometryChanged(pendingGeometry.value.rect, pendingGeometry.value.count)];
        pendingGeometry := None;
      }
    }

    method ResetGeometryLimit()
      modifies this`nextGeometryLog, this`pendingGeometry
      ensures nextGeometryLog == None && pendingGeometry == None
    {
      nextGeometryLog, pendingGeometry := None, None;
    }
  }

  // --- runs -------------------------------------------------------------------------

  function Front(run: seq<Observation>): seq<Observation>
    requires run != []
  {
    run[..|run| - 1]
  }

  function Last(run: seq<Observation>): Observation
    requires run != []
  {
    run[|run| - 1]
  }

  function After(run: seq<Observation>): Tracker
  {
    if run == [] then BLANK else Observed(After(Front(run)), Last(run)).tracker
  }

  /** The events the last observation of a run gave rise to. */
  function Emitted(run: seq<Observation>): seq<Event>
    requires run != []
  {
    Observed(After(Front(run)), Last(run)).events
  }

  function GameOf(run: seq<Observation>): Option<LoggedGame> { if run == [] then None else Last(run).game }

  /** How the last observation of a run continues it; a matter of the observations alone. */
  function LastTurn(run: seq<Observation>): Turn
    requires run != []
  {
    TurnOf(GameOf(Front(run)), Last(run).game)
  }

  /** Rectangle changes within a game. */
  function Changes(run: seq<Observation>): nat
  {
    if run == [] then 0 else Changes(Front(run)) + if LastTurn(run).Resizes? then 1 else 0
  }

  /** What a list of events says about suppressed changes. */
  function Suppressed(events: seq<Event>): nat
  {
    if events == [] then 0
    else (if events[0].GeometryChanged? then events[0].suppressed else 0) + Suppressed(events[1..])
  }

  predicate LogsGeometry(events: seq<Event>) { exists e :: e in events && e.GeometryChanged? }

  /** Changes the log accounts for: one more than it reports as suppressed for a change
      that is logged as it happens, and those reported as suppressed otherwise. */
  function Covered(run: seq<Observation>): nat
  {
    if run == [] then 0
    else
      Covered(Front(run)) + Suppressed(Emitted(run))
      + if LastTurn(run).Resizes? && LogsGeometry(Emitted(run)) then 1 else 0
  }

  // --- the pace of a run, told from its observations alone --------------------------

  /** When the game now shown last had a geometry event, and how many of its changes
      have come since without one. */
  datatype Pace = Pace(last: Option<int>, waiting: nat)

  /** A change may be logged: no event came before, a second has gone by since, or that
      event came in the last second the clock can tell. */
  predicate Due(last: Option<int>, now: int)
  {
    last.None? || last.value + GEOMETRY_LOG_INTERVAL > MAX_INSTANT || now >= last.value + GEOMETRY_LOG_INTERVAL
  }

  function PaceOf(run: seq<Observation>): Pace
  {
    if run == [] then Pace(None, 0)
    else
      var before, now := PaceOf(Front(run)), Last(run).now;
      match LastTurn(run)
      case Resizes => if Due(before.last, now) then Pace(Some(now), 0) else before.(waiting := before.waiting + 1)
      case Keeps => if before.waiting > 0 && Due(before.last, now) then Pace(Some(now), 0) else before
      case _ => Pace(None, 0)
  }

  function Waiting(run: seq<Observation>): nat { PaceOf(run).waiting }

  /** Changes that come while as many wait as the counter can count. */
  function Dropped(run: seq<Observation>): nat
  {
    if run == [] then 0
    else
      var before := PaceOf(Front(run));
      var full := LastTurn(run).Resizes? && !Due(before.last, Last(run).now) && before.waiting >= U64_MAX;
      Dropped(Front(run)) + if full then 1 else 0
  }

  // --- conservation -----------------------------------------------------------------

  lemma {:induction false} SuppressedSplits(a: seq<Event>, b: seq<Event>)
    ensures Suppressed(a + b) == Suppressed(a) + Suppressed(b)
  {
    if a == [] {
      assert a + b == b;
    } else {
      assert (a + b)[1..] == a[1..] + b;
      SuppressedSplits(a[1..], b);
    }
  }

  /** What one observation emits, apart from the mode. */
  lemma EmittedIs(t: Tracker, o: Observation)
    ensures Suppressed(Observed(t, o).events) == Suppressed(GameSeen(t, o).events)
    ensures LogsGeometry(Observed(t, o).events) <==> LogsGeometry(GameSeen(t, o).events)
  {
    var rest := if t.mode != Some(o.mode) then [OverlayModeChanged(o.mode)] else [];
    SuppressedSplits(GameSeen(t, o).events, rest);
    assert Suppressed(rest) == 0;
    assert forall e :: e in Observed(t, o).events <==> e in GameSeen(t, o).events || e in rest;
  }

  lemma SuppressedFlush(t: Tracker, event: Event)
    requires !event.GeometryChanged?
    ensures Suppressed(Flushed(t)) == Held(t) == Suppressed(Flushed(t) + [event])
  {
    SuppressedSplits(Flushed(t), [event]);
  }

  /** The tracker is at a pace: it holds back what waits, as far as it can count. */
  predicate Keeping(t: Tracker, game: Option<LoggedGame>, pace: Pace)
  {
    && t.game == game
    && t.next == (if pace.last.Some? then Deadline(pace.last.value) else None)
    && Held(t) == Min(pace.waiting, U64_MAX) && (t.pending.Some? <==> pace.waiting > 0)
    && (pace.waiting > 0 ==> game.Some? && t.next.Some?)
  }

  /** One observation: the tracker logs exactly when it is due, and keeps the pace. */
  lemma KeepsPace(run: seq<Observation>)
    requires run != [] && Keeping(After(Front(run)), GameOf(Front(run)), PaceOf(Front(run)))
    ensures Keeping(After(run), GameOf(run), PaceOf(run))
    ensures var due := && Due(PaceOf(Front(run)).last, Last(run).now)
                       && (LastTurn(run).Resizes? || Waiting(Front(run)) > 0);
            Continues(LastTurn(run)) ==> (LogsGeometry(Emitted(run)) <==> due)
  {
    hide Suppressed;
    EmittedIs(After(Front(run)), Last(run));
    var seen := GameSeen(After(Front(run)), Last(run));
    if seen.events != [] {
      assert seen.events[0] in seen.events;
    }
  }

  /** One observation balances: changes that come in are logged, held or dropped. */
  lemma Balances(run: seq<Observation>)
    requires run != [] && Keeping(After(Front(run)), GameOf(Front(run)), PaceOf(Front(run)))
    ensures var resized := LastTurn(run).Resizes?;
            Held(After(Front(run))) + (if resized then 1 else 0)
            == Held(After(run)) + Suppressed(Emitted(run)) + (if resized && LogsGeometry(Emitted(run)) then 1 else 0)
               + Dropped(run) - Dropped(Front(run))
  {
    var t, o := After(Front(run)), Last(run);
    EmittedIs(t, o);
    var seen := GameSeen(t, o);
    match TurnOf(t.game, o.game) {
      case Opens =>
        assert Suppressed(seen.events) == 0;
      case Closes =>
        SuppressedFlush(t, GameCleared);
      case Switches =>
        SuppressedFlush(t, GameChanged(o.game.value));
      case Resizes =>
        if seen.events != [] {
          assert seen.events[0] in seen.events;
        }
      case Keeps =>
    }
  }

  /** Over any run, the rectangle changes within games are exactly those the log accounts
      for, those still pending, and those that came while the 64-bit counter was full. */
  lemma {:induction false} Conservation(run: seq<Observation>)
    ensures Keeping(After(run), GameOf(run), PaceOf(run))
    ensures Changes(run) == Covered(run) + Held(After(run)) + Dropped(run)
  {
    if run != [] {
      Conservation(Front(run));
      KeepsPace(run);
      Balances(run);
    }
  }

  /** Geometry logging loses nothing exactly as long as never more than 2^64 - 1 changes
      wait for an event. */
  lemma NothingLost(run: seq<Observation>)
    ensures Changes(run) == Covered(run) + Held(After(run))
            <==> forall i :: 0 <= i <= |run| ==> Waiting(run[..i]) <= U64_MAX
  {
    Conservation(run);
    DropsExactlyWhenFull(run);
  }

  lemma {:induction false} DropsExactlyWhenFull(run: seq<Observation>)
    ensures Dropped(run) == 0 <==> forall i :: 0 <= i <= |run| ==> Waiting(run[..i]) <= U64_MAX
  {
    assert run[..|run|] == run;
    if run != [] {
      var front := Front(run);
      DropsExactlyWhenFull(front);
      forall i | 0 <= i <= |front|
        ensures run[..i] == front[..i]
      {
      }
      assert front[..|front|] == front;
      assert forall i :: 0 <= i <= |run| ==> i <= |front| || run[..i] == run;
    }
  }

  /** In particular it loses nothing before 2^64 changes. */
  lemma {:induction false} NothingDropped(run: seq<Observation>)
    ensures Waiting(run) <= Changes(run)
    ensures Changes(run) <= U64_MAX ==> Dropped(run) == 0
  {
    if run != [] {
      NothingDropped(Front(run));
    }
  }

  /** One game that shakes between two rectangles, all within one instant. */
  function Shaking(n: nat, now: int): seq<Observation>
  {
    if n == 0 then []
    else
      var game := LoggedGame(GameId(None, None, None, ""), Core.Rect(n % 2, 0, 1, 1));
      Shaking(n - 1, now) + [Observation(Some(game), Core.Passive, now)]
  }

  lemma Shakes(n: nat, now: int)
    requires n > 0
    ensures var run := Shaking(n, now);
            && run != [] && Front(run) == Shaking(n - 1, now) && Last(run).now == now
            && LastTurn(run) == (if n == 1 then Opens else Resizes) && (n == 1 ==> Front(run) == [])
  {
    assert Front(Shaking(n, now)) == Shaking(n - 1, now);
  }

  lemma {:induction false} ShakingWaits(n: nat)
    requires n > 0
    ensures PaceOf(Shaking(n, 0)) == if n == 1 then Pace(None, 0) else Pace(Some(0), n - 2)
    ensures Dropped(Shaking(n, 0)) == Max(n - 2 - U64_MAX, 0)
  {
    hide Shaking, LastTurn;
    Shakes(n, 0);
    if n == 1 {
      assert Front(Shaking(1, 0)) == [];
    } else {
      ShakingWaits(n - 1);
    }
  }

  /** It does lose changes: shaking once too often costs one. */
  lemma ShakingLosesAChange()
    ensures var run := Shaking(U64_MAX + 3, 0); Changes(run) == Covered(run) + Held(After(run)) + 1
  {
    hide Shaking, PaceOf, Dropped, Changes, Covered, After;
    ShakingWaits(U64_MAX + 3);
    Conservation(Shaking(U64_MAX + 3, 0));
  }

  // --- the current rectangle --------------------------------------------------------

  function RectIn(events: seq<Event>): Option<Rect>
  {
    if events == [] then None
    else
      match events[|events| - 1]
      case GameDetected(game) => Some(game.rect)
      case GameChanged(game) => Some(game.rect)
      case GeometryChanged(rect, _) => Some(rect)
      case GameCleared => None
      case OverlayModeChanged(_) => RectIn(events[..|events| - 1])
  }

  /** The rectangle the log shows last. */
  function LoggedRect(run: seq<Observation>): Option<Rect>
  {
    if run == [] then None
    else if forall e :: e in Emitted(run) ==> e.OverlayModeChanged? then LoggedRect(Front(run))
    else RectIn(Emitted(run))
  }

  /** While a game is shown, its rectangle is the one pending or, if none is, the one
      logged last. */
  lemma {:induction false} CurrentRectIsKnown(run: seq<Observation>)
    requires GameOf(run).Some?
    ensures Some(GameOf(run).value.rect)
            == if After(run).pending.Some? then Some(After(run).pending.value.rect) else LoggedRect(run)
  {
    var t := After(Front(run));
    Conservation(Front(run));
    if GameOf(Front(run)).Some? {
      CurrentRectIsKnown(Front(run));
    }
    RectStep(t, Last(run));
  }

  /** The mode says nothing about rectangles. */
  lemma ModeIsNoRect(events: seq<Event>, rest: seq<Event>)
    requires rest == [] || exists mode :: rest == [OverlayModeChanged(mode)]
    requires events != [] ==> !events[|events| - 1].OverlayModeChanged?
    ensures events != [] ==> RectIn(events + rest) == RectIn(events)
    ensures (forall e :: e in events + rest ==> e.OverlayModeChanged?) <==> events == []
  {
    if events != [] {
      assert events[|events| - 1] in events + rest;
      assert rest == [] ==> events + rest == events;
      assert rest != [] ==> (events + rest)[..|events + rest| - 1] == events;
    }
  }

  lemma RectStep(t: Tracker, o: Observation)
    requires o.game.Some?
    ensures var after := Observed(t, o); var silent := forall e :: e in after.events ==> e.OverlayModeChanged?;
            match TurnOf(t.game, o.game)
            case Resizes =>
              if silent then after.tracker.pending.Some? && after.tracker.pending.value.rect == o.game.value.rect
              else after.tracker.pending.None? && RectIn(after.events) == Some(o.game.value.rect)
            case Keeps =>
              if silent then after.tracker.pending == t.pending
              else
                && t.pending.Some? && after.tracker.pending.None?
                && RectIn(after.events) == Some(t.pending.value.rect)
            case _ => !silent && after.tracker.pending.None? && RectIn(after.events) == Some(o.game.value.rect)
  {
    ModeIsNoRect(GameSeen(t, o).events, if t.mode != Some(o.mode) then [OverlayModeChanged(o.mode)] else []);
  }

  // --- the other events -------------------------------------------------------------

  /** What an observation says about the game, after one that showed `before`. */
  function GameNews(before: Option<LoggedGame>, after: Option<LoggedGame>): seq<Event>
  {
    match (before, after)
    case (None, Some(game)) => [GameDetected(game)]
    case (Some(_), None) => [GameCleared]
    case (Some(previous), Some(game)) => if previous.id != game.id then [GameChanged(game)] else []
    case (None, None) => []
  }

  function ModeNews(before: seq<Observation>, mode: OverlayMode): seq<Event>
  {
    if before != [] && Last(before).mode == mode then [] else [OverlayModeChanged(mode)]
  }

  predicate OnlyGeometry(events: seq<Event>) { |events| <= 1 && forall e :: e in events ==> e.GeometryChanged? }

  lemma LogsTheGame(t: Tracker, o: Observation) returns (geometry: seq<Event>)
    ensures OnlyGeometry(geometry) && GameSeen(t, o).events == geometry + GameNews(t.game, o.game)
  {
    geometry := if Continues(TurnOf(t.game, o.game)) then GameSeen(t, o).events
                else if t.game.None? then [] else Flushed(t);
  }

  /** Every observation logs at most one geometry event, then exactly what is new about the
      game and then about the mode. */
  lemma LogsTheNews(run: seq<Observation>) returns (geometry: seq<Event>)
    requires run != []
    ensures OnlyGeometry(geometry)
    ensures Emitted(run)
            == geometry + GameNews(GameOf(Front(run)), Last(run).game) + ModeNews(Front(run), Last(run).mode)
  {
    hide GameSeen, GameNews, OnlyGeometry;
    Conservation(Front(run));
    var t := After(Front(run));
    assert t.mode == if Front(run) == [] then None else Some(Last(Front(run)).mode);
    geometry := LogsTheGame(t, Last(run));
  }

  // --- spacing ----------------------------------------------------------------------

  /** When the game now shown last had a geometry event, according to the log. */
  function LastGeometry(run: seq<Observation>): Option<int>
  {
    if run == [] || !Continues(LastTurn(run)) then None
    else if LogsGeometry(Emitted(run)) then Some(Last(run).now)
    else LastGeometry(Front(run))
  }

  lemma {:induction false} DeadlineFollowsLastEvent(run: seq<Observation>)
    ensures LastGeometry(run) == PaceOf(run).last
    ensures After(run).next == if LastGeometry(run).Some? then Deadline(LastGeometry(run).value) else None
  {
    Conservation(run);
    if run != [] {
      DeadlineFollowsLastEvent(Front(run));
      Conservation(Front(run));
      KeepsPace(run);
    }
  }

  /** Within one game, geometry is logged exactly if something is to be logged, a change
      now or one that waits, and the game had no geometry event yet, or had its last one
      at least a second ago or in the last second the clock can tell. */
  lemma LogsExactlyWhenDue(run: seq<Observation>)
    requires run != [] && Continues(LastTurn(run))
    ensures LogsGeometry(Emitted(run))
            <==> Due(LastGeometry(Front(run)), Last(run).now) && (LastTurn(run).Resizes? || Waiting(Front(run)) > 0)
  {
    DeadlineFollowsLastEvent(Front(run));
    Conservation(Front(run));
    KeepsPace(run);
  }

  /** So a game's geometry events are at least a second apart, closing flushes aside,
      unless the earlier one lies in the last second the clock can tell. */
  lemma OneEventPerSecond(run: seq<Observation>)
    requires run != [] && Continues(LastTurn(run)) && LogsGeometry(Emitted(run)) && LastGeometry(Front(run)).Some?
    ensures var before := LastGeometry(Front(run)).value;
            Last(run).now >= before + GEOMETRY_LOG_INTERVAL || before + GEOMETRY_LOG_INTERVAL > MAX_INSTANT
  {
    LogsExactlyWhenDue(run);
  }

  /** In that second there is no limit at all: a shaking game is logged every time. */
  lemma {:induction false} LastSecondIsNotLimited(n: nat)
    requires n >= 2
    ensures var run := Shaking(n, MAX_INSTANT);
            && LogsGeometry(Emitted(run)) && LastGeometry(run) == Some(MAX_INSTANT)
            && LastGeometry(Front(run)) == if n == 2 then None else Some(MAX_INSTANT)
  {
    hide Shaking, LastTurn, Emitted;
    Shakes(n, MAX_INSTANT);
    Shakes(n - 1, MAX_INSTANT);
    if n > 2 {
      LastSecondIsNotLimited(n - 1);
    }
    LogsExactlyWhenDue(Shaking(n, MAX_INSTANT));
  }
}
