/** What the bridge does about what it sees: which windows it reports and when it clears
    (integrations/gnome/extension.js). */
module BridgeProgress {
  import opened Common
  import opened Bridge
  import opened BridgeSafety

  /** A request was made the newest intent, under the next serial, and was either called for
      at once or waits for the one in flight. */
  predicate Intends(b: State, a: State, request: Request)
  {
    && a.serial == b.serial + 1 == request.serial && a.newest == Some(request) && a.fence == request.ClearRequest?
    && a.generation == b.generation
    && if b.inFlight then a.pending == Some(request) && a.calls == b.calls
       else a.pending.None? && a.calls == b.calls + [WindowCall(b.generation, request.serial, request.ReportRequest?)]
  }

  /** The window can be reported. */
  predicate Reportable(env: Env, window: Win) { !env.isOverlay(window) && env.report(window).Some? }

  /** A request that fails at once while none is pending. */
  lemma FailAlone(b: State, env: Env, request: Request, reported: bool)
    requires b.pending.None? && request.serial == b.serial
    ensures var landed := ToPassive(b).(inFlight := false);
            Fail(b, env, request, reported) == if reported then ScheduleRetry(landed, env, request) else landed
  {
    assert Finish(ToPassive(b), env) == ToPassive(b).(inFlight := false, pending := None);
  }

  /** The newest request is called for; if that fails at once, a report that has retries
      left keeps its window as the candidate. */
  lemma DispatchIntends(b: State, env: Env, request: Request)
    requires b.pending.None? && b.attached && request.serial == b.serial
    requires request.ReportRequest? ==> Reportable(env, request.window)
    ensures var a := Dispatch(b, env, request);
            && a.serial == b.serial && a.newest == b.newest && a.fence == b.fence && a.generation == b.generation
            && a.pending.None? && (a.game == b.game || a.game.None?)
            && a.calls == b.calls + [WindowCall(b.generation, request.serial, request.ReportRequest?)]
            && a.candidate == if env.throws(WindowStage, request.serial) && !Retriable(request) then None
                              else if env.throws(WindowStage, request.serial) then Some(request.window) else b.candidate
  {
    hide Fail;
    var report := if request.ReportRequest? then env.report(request.window) else b.lastReport;
    var flying := b.(inFlight := true, lastReport := report,
                     calls := b.calls + [WindowCall(b.generation, request.serial, request.ReportRequest?)]);
    FailAlone(flying, env, request, request.ReportRequest?);
  }

  predicate Retriable(request: Request) { request.ReportRequest? && request.retries > 0 }

  /** A report intent is followed by its call, and keeps the candidate while it has retries. */
  lemma ReportIntends(b: State, env: Env, window: Win, force: bool, retries: int)
    requires b.attached && (b.pending.Some? ==> b.inFlight)
    requires Reportable(env, window) && (force || env.report(window) != b.lastReport)
    ensures var a := RequestReport(b, env, window, force, retries);
            && Intends(b, a, ReportRequest(window, retries, b.serial + 1))
            && (retries > 0 && b.candidate == Some(window) ==> a.candidate == Some(window))
  {
    hide Dispatch;
    var raised := b.(fence := false, serial := b.serial + 1);
    var request := ReportRequest(window, retries, raised.serial);
    if !b.inFlight {
      DispatchIntends(raised.(newest := Some(request)), env, request);
    }
  }

  lemma ClearIntends(b: State, env: Env)
    requires b.attached && (b.pending.Some? ==> b.inFlight)
    ensures var a := RequestClear(b, env);
            Intends(b, a, ClearRequest(b.serial + 1)) && a.game.None? && a.candidate.None?
  {
    hide Dispatch;
    var raised := ToPassive(CancelRetry(b)).(lastReport := None, fence := true, serial := b.serial + 1);
    var request := ClearRequest(raised.serial);
    if !b.inFlight {
      DispatchIntends(raised.(newest := Some(request)), env, request);
    }
  }

  // --- what is seen and what is done ------------------------------------------------

  /** The game itself, while its overlay is being used. */
  predicate InUse(b: State, window: Win) { b.mode.Interactive? && b.game == Some(window) && b.overlay.Some? }

  lemma FocusHandled(b: State, env: Env, window: Win)
    requires b.attached && (b.pending.Some? ==> b.inFlight) && Reportable(env, window) && !InUse(b, window)
    ensures var a := HandleFocus(b, env, window);
            Intends(b, a, ReportRequest(window, 6, b.serial + 1)) && a.candidate == Some(window)
  {
    hide RequestReport;
    var still := CancelRetry(b);
    var left := if b.game.Some? && b.game != Some(window) then ToPassive(still) else still;
    ReportIntends(left.(candidate := Some(window)), env, window, true, 6);
  }

  /** A window that gets the focus, or still has it after the grace period, is made the
      candidate and reported, with all six retries; not so the game while its overlay is
      being used. */
  lemma FocusIsReported(b: State, env: Env, event: Event, window: Win)
    requires Invariant(b) && b.attached && env.focus == Some(window) && Reportable(env, window) && !InUse(b, window)
    requires event.FocusNotified? || (event.GraceTimeout? && b.grace)
    ensures var a := Step(b, env, event);
            Intends(b, a, ReportRequest(window, 6, b.serial + 1)) && a.candidate == Some(window)
  {
    hide HandleFocus, LiveCount, InSequence, Settled;
    FocusHandled(b.(grace := false), env, window);
  }

  /** So is a window that appears with the focus on it, or changes its identity then. */
  lemma FocusedIdentityIsReported(b: State, env: Env, event: Event, window: Win)
    requires Invariant(b) && b.attached && env.focus == Some(window) && Reportable(env, window)
    requires event == WindowCreated(window) || event == IdentityNotified(window)
    ensures var a := Step(b, env, event);
            Intends(b, a, ReportRequest(window, 6, b.serial + 1)) && a.candidate == Some(window)
  {
    hide RequestReport, LiveCount, InSequence, Settled;
    var seen := b.(windows := if event.WindowCreated? then b.windows + {window} else b.windows);
    ReportIntends(CancelRetry(seen).(candidate := Some(window)), env, window, true, 6);
  }

  /** The focus found when the first snapshot of a Core comes in and names no game. */
  lemma FirstFocusIsReported(b: State, env: Env, i: nat, payload: Payload, window: Win)
    requires Invariant(b) && b.attached && env.focus == Some(window) && Reportable(env, window)
    requires i < |b.outstanding| && b.outstanding[i] == FirstSnapshot(b.generation, b.serial)
    requires !(payload.Snapshot? && payload.active.Game?) && (payload.Malformed? || payload.revision >= b.revision)
    ensures var a := Step(b, env, Answer(i, Reply(payload)));
            Intends(b, a, ReportRequest(window, 6, b.serial + 1)) && a.candidate == Some(window)
  {
    hide HandleFocus, ApplyActive, LiveCount, InSequence, Settled;
    var taken := b.(outstanding := Without(b.outstanding, i));
    FocusHandled(ApplySnapshot(taken, env, payload), env, window);
  }

  function ReportOrClear(b: State, env: Env, window: Win, retries: int): Request
  {
    if Reportable(env, window) then ReportRequest(window, retries, b.serial + 1) else ClearRequest(b.serial + 1)
  }

  /** A game that is current is reported again from time to time while it or its overlay has
      the focus, and is cleared if it cannot be reported any more. */
  lemma GameIsKeptAlive(b: State, env: Env)
    requires Invariant(b) && b.attached && b.game.Some? && (env.focus == b.game || env.focus == b.overlay)
    ensures var a, game := Step(b, env, KeepaliveTimeout), b.game.value;
            Intends(b, a, ReportOrClear(b, env, game, 0))
  {
    hide Queue, LiveCount, InSequence, Settled;
    QueueIntends(b, env, b.game.value, 0);
  }

  /** What reporting a window comes to that is the game or the candidate. */
  lemma QueueIntends(b: State, env: Env, window: Win, retries: int)
    requires b.attached && (b.pending.Some? ==> b.inFlight) && (b.game == Some(window) || b.candidate == Some(window))
    ensures Intends(b, RequestReport(b, env, window, true, retries),
                    ReportOrClear(b, env, window, retries))
  {
    if Reportable(env, window) {
      ReportIntends(b, env, window, true, retries);
    } else {
      ClearIntends(b, env);
    }
    hide RequestClear;
  }

  /** A retry that comes due reports its window again with one retry less, or clears it,
      while the focus is on the window or the overlay. */
  lemma RetryIsReported(b: State, env: Env)
    requires Invariant(b) && b.attached && b.retry.Some?
    requires env.focus == Some(b.retry.value.window) || env.focus == b.overlay
    ensures var a, request := Step(b, env, RetryTimeout), b.retry.value;
            Intends(b, a, ReportOrClear(b, env, request.window, request.retries - 1))
  {
    hide Queue, LiveCount, InSequence, Settled;
    var request := b.retry.value;
    QueueIntends(b.(retry := None, candidate := Some(request.window)), env, request.window, request.retries - 1);
  }

  /** A change of the game or the candidate is reported exactly if it shows in the report. */
  lemma ChangeIsReported(b: State, env: Env, window: Win)
    requires Invariant(b) && b.attached && b.overlay != Some(window)
    requires b.game == Some(window) || b.candidate == Some(window)
    requires Reportable(env, window) && (b.game.Some? ==> Reportable(env, b.game.value))
    ensures var a := Step(b, env, ChangeNotified(window));
            if env.report(window) == b.lastReport then a == b else Intends(b, a, ReportRequest(window, 0, b.serial + 1))
  {
    hide Queue, LiveCount, InSequence, Settled;
    if env.report(window) != b.lastReport {
      ReportIntends(b, env, window, false, 0);
      ReportKeepsGame(b, env, window, false, 0);
    }
  }

  lemma ReportKeepsGame(b: State, env: Env, window: Win, force: bool, retries: int)
    requires b.attached && (b.pending.Some? ==> b.inFlight) && Reportable(env, window)
    ensures var a := RequestReport(b, env, window, force, retries); a.game == b.game || a.game.None?
  {
    hide Dispatch;
    var raised := b.(fence := false, serial := b.serial + 1);
    var request := ReportRequest(window, retries, raised.serial);
    if !b.inFlight {
      DispatchIntends(raised.(newest := Some(request)), env, request);
    }
  }

  /** The game or candidate is cleared when its window goes, and when the focus has been
      away for the grace period. */
  lemma LossIsCleared(b: State, env: Env, event: Event)
    requires Invariant(b) && b.attached
    requires || (event.GraceTimeout? && b.grace && env.focus.None?)
             || (event.UnmanagedNotified? && b.overlay != Some(event.window)
                 && (b.game == Some(event.window) || b.candidate == Some(event.window)))
    ensures var a := Step(b, env, event);
            Intends(b, a, ClearRequest(b.serial + 1)) && a.game.None? && a.candidate.None?
  {
    hide RequestClear, LiveCount, InSequence, Settled;
    if event.GraceTimeout? {
      ClearIntends(b.(grace := false), env);
    } else {
      ClearIntends(b.(windows := b.windows - {event.window}, candidate := None, game := None), env);
    }
  }

  // --- snapshots --------------------------------------------------------------------

  /** A watched window that reports the process and application the Core names. */
  predicate Fits(windows: set<Win>, env: Env, active: Active, window: Win)
    requires active.Game?
  {
    && window in windows && Reportable(env, window)
    && env.report(window).value.pid == active.pid && env.report(window).value.appId == active.appId
  }

  predicate FitsExactly(windows: set<Win>, env: Env, active: Active, window: Win)
    requires active.Game?
  {
    Fits(windows, env, active, window) && env.report(window).value.rect == active.rect
  }

  /** The window meant: the one that fits and has the focus, or else the only one that fits
      exactly, or else the only one that fits. */
  ghost predicate Meant(windows: set<Win>, env: Env, active: Active, window: Win)
    requires active.Game?
  {
    && Fits(windows, env, active, window)
    && (|| env.focus == Some(window)
        || (&& !(env.focus.Some? && Fits(windows, env, active, env.focus.value))
            && (|| (&& FitsExactly(windows, env, active, window)
                    && forall v :: FitsExactly(windows, env, active, v) ==> v == window)
                || (forall v :: Fits(windows, env, active, v) ==> v == window))))
  }

  lemma Single(s: set<Win>, w: Win)
    ensures |s| == 1 && w in s <==> w in s && forall v :: v in s ==> v == w
  {
    if w in s && forall v :: v in s ==> v == w {
      assert s == {w};
    }
    if |s| == 1 && w in s {
      assert |s - {w}| == 0;
      assert forall v :: v in s && v != w ==> v in s - {w};
    }
  }

  lemma FoundExactlyWhenMeant(b: State, env: Env, active: Active, window: Win)
    requires active.Game?
    ensures FindGame(b, env, active) == Some(window) <==> Meant(b.windows, env, active, window)
  {
    var matching, exact := Matching(b, env, active), MatchingExactly(b, env, active);
    assert forall v :: v in matching <==> Fits(b.windows, env, active, v);
    assert forall v :: v in exact <==> FitsExactly(b.windows, env, active, v);
    Single(matching, window);
    Single(exact, window);
    if |exact| == 1 {
      var w :| w in exact;
      Single(exact, w);
    }
    if |matching| == 1 {
      var w :| w in matching;
      Single(matching, w);
    }
  }

  ghost predicate Followed(b: State, env: Env, revision: int, mode: Mode, active: Active, a: State)
    requires active.Game?
  {
    && ((forall w: Win :: !Meant(b.windows, env, active, w)) ==>
          Intends(b, a, ClearRequest(b.serial + 1)) && a.game.None?)
    && forall w: Win :: Meant(b.windows, env, active, w) ==>
         if env.focus.None? || env.focus == b.overlay || env.focus == Some(w)
         then a.game == Some(w) && a.candidate == Some(w) && a.mode == mode && a.revision == revision
              && a.retry.None? && a.serial == b.serial
         else Reportable(env, env.focus.value) ==>
                a.candidate == env.focus && Intends(b, a, ReportRequest(env.focus.value, 6, b.serial + 1))
  }

  lemma ActiveIsFollowed(b: State, env: Env, active: Active)
    requires b.attached && (b.pending.Some? ==> b.inFlight) && active.Game?
    ensures Followed(b, env, b.revision, b.mode, active, ApplyActive(b, env, active))
  {
    hide FindGame, Queue;
    forall w: Win ensures FindGame(b, env, active) == Some(w) <==> Meant(b.windows, env, active, w) {
      FoundExactlyWhenMeant(b, env, active, w);
    }
    ClearIntends(b, env);
    if env.focus.Some? && Reportable(env, env.focus.value) {
      ReportIntends(CancelRetry(b.(candidate := env.focus)), env, env.focus.value, true, 6);
    }
  }

  /** A snapshot that is current and not fenced off and names a game makes the window meant
      current, clears if there is none, and reports the focused window instead if it is
      another one. */
  lemma SnapshotIsFollowed(b: State, env: Env, revision: nat, mode: Mode, active: Active)
    requires Invariant(b) && b.attached && active.Game? && !b.fence && revision >= b.revision
    ensures Followed(b, env, revision, mode, active, Step(b, env, Signal(Snapshot(revision, mode, active))))
  {
    hide ApplyActive, Meant, LiveCount, InSequence, Settled;
    ActiveIsFollowed(b.(revision := revision, mode := mode), env, active);
  }

  /** Otherwise: an older snapshot changes nothing; a fence, no game or nothing readable
      leaves no game current. */
  lemma SnapshotIsDeclined(b: State, env: Env, payload: Payload)
    requires Invariant(b) && b.attached
    requires payload.Snapshot? && payload.active.Game? ==> b.fence || payload.revision < b.revision
    ensures var a := Step(b, env, Signal(payload));
            if !payload.Malformed? && payload.revision < b.revision then a == b
            else a.game.None? && a.candidate.None? && a.mode.Passive? && a.serial == b.serial && a.calls == b.calls
  {
    hide ApplyActive, LiveCount, InSequence, Settled;
  }

  // --- replies ----------------------------------------------------------------------

  /** The reply to the newest window call is followed up by asking for the snapshot. */
  lemma ReplyAsksForSnapshot(b: State, env: Env, i: nat, payload: Payload, request: Request, reported: bool)
    requires b.attached && i < |b.outstanding| && b.outstanding[i] == WindowReply(b.generation, request, reported)
    requires !env.throws(AfterStage, request.serial)
    ensures Step(b, env, Answer(i, Reply(payload)))
            == b.(outstanding := b.outstanding[..i] + b.outstanding[i + 1..]
                                 + [AfterWindow(b.generation, request, reported)])
  {
  }

  /** The retry is armed if one is left and the window can still be reported; no game is
      current until then. */
  predicate Retries(b: State, env: Env, request: Request, a: State)
  {
    var again := Retriable(request) && Reportable(env, request.window);
    && !a.inFlight && a.game.None? && a.mode.Passive? && a.serial == b.serial && a.calls == b.calls
    && a.retry == (if again then Some(request) else None)
    && a.candidate == (if again then Some(request.window) else None)
  }

  predicate Declines(b: State, callback: Callback, outcome: Outcome, request: Request)
  {
    || (callback == WindowReply(b.generation, request, true) && outcome.Failure?)
    || (&& callback == AfterWindow(b.generation, request, true)
        && (outcome.Reply? ==> Gameless(outcome.payload, b.revision)))
  }

  lemma FailedIsRetried(b: State, env: Env, request: Request)
    requires b.attached && b.pending.None? && request.ReportRequest? && request.serial == b.serial
    ensures Retries(b, env, request, Fail(b, env, request, true))
  {
    hide Fail;
    FailAlone(b, env, request, true);
  }

  lemma GamelessIsPassive(b: State, env: Env, payload: Payload)
    requires Gameless(payload, b.revision)
    ensures exists revision :: ApplySnapshot(b, env, payload) == ToPassive(b.(revision := revision))
  {
    hide ApplyActive;
    var revision := if payload.Malformed? then b.revision else payload.revision;
    assert ApplySnapshot(b, env, payload) == ToPassive(b.(revision := revision));
  }

  lemma DeclinedAnswer(b: State, env: Env, callback: Callback, outcome: Outcome, request: Request)
    requires b.attached && b.pending.None? && request.ReportRequest? && request.serial == b.serial
    requires Declines(b, callback, outcome, request)
    ensures Retries(b, env, request, Answered(b, env, callback, outcome))
  {
    hide ApplySnapshot, Finish, Fail;
    FailedIsRetried(b, env, request);
    if outcome.Reply? {
      GamelessIsPassive(b, env, outcome.payload);
      FinishAlone(ApplySnapshot(b, env, outcome.payload), env);
    }
  }

  /** A report that fails, or after which the Core names no game, is retried. */
  lemma DeclinedIsRetried(b: State, env: Env, i: nat, outcome: Outcome, request: Request)
    requires Invariant(b) && b.attached && i < |b.outstanding| && request.ReportRequest? && request.serial == b.serial
    requires Declines(b, b.outstanding[i], outcome, request)
    ensures Retries(b, env, request, Step(b, env, Answer(i, outcome)))
  {
    hide Answered, LiveCount, InSequence;
    assert b.pending.None? by {
      assert IsLive(b.outstanding[i], b.generation) && b.outstanding[i] in b.outstanding;
    }
    DeclinedAnswer(b.(outstanding := Without(b.outstanding, i)), env, b.outstanding[i], outcome, request);
  }

  predicate Gameless(payload: Payload, revision: int)
  {
    payload.Malformed? || (payload.revision >= revision && !(payload.Snapshot? && payload.active.Game?))
  }

  lemma FinishAlone(b: State, env: Env)
    requires b.pending.None?
    ensures Finish(b, env) == b.(inFlight := false)
  {
  }

  /** A Core that appears is attached under a new generation, with the listed windows
      watched, the last overlay among them, nothing else remembered, and its snapshot asked
      for unless that fails at once. */
  lemma CoreIsAttached(b: State, env: Env)
    requires b.started
    ensures var a := Step(b, env, CoreAppeared(true));
            && a.attached && a.generation > b.generation && a.serial > b.serial && a.game.None? && a.candidate.None?
            && a.mode.Passive? && !a.inFlight && !a.fence && !a.grace && a.retry.None? && a.pending.None?
            && (forall w: Win :: w in a.windows <==> w in env.listed) && a.calls == b.calls
            && a.outstanding == b.outstanding + (if env.throws(FirstStage, a.serial) then []
                                                 else [FirstSnapshot(a.generation, a.serial)])
            && LastAmong(env, env.listed, a.overlay)
  {
    LastOverlayIs(env, env.listed);
  }

  ghost predicate LastAmong(env: Env, listed: seq<Win>, overlay: Option<Win>)
  {
    if overlay.None? then forall w: Win :: w in listed ==> !env.isOverlay(w)
    else exists k :: 0 <= k < |listed| && listed[k] == overlay.value && env.isOverlay(overlay.value)
                     && forall w: Win :: w in listed[k + 1..] ==> !env.isOverlay(w)
  }

  lemma {:induction false} LastOverlayIs(env: Env, listed: seq<Win>)
    ensures LastAmong(env, listed, LastOverlay(env, listed))
  {
    if listed != [] {
      var front, last := listed[..|listed| - 1], listed[|listed| - 1];
      assert listed == front + [last];
      if env.isOverlay(last) {
        assert listed[|listed| - 1] == last && listed[|listed|..] == [];
      } else {
        LastOverlayIs(env, front);
        var overlay := LastOverlay(env, front);
        if overlay.Some? {
          var k :| 0 <= k < |front| && front[k] == overlay.value && env.isOverlay(overlay.value)
                   && forall w: Win :: w in front[k + 1..] ==> !env.isOverlay(w);
          assert listed[k] == overlay.value && listed[k + 1..] == front[k + 1..] + [last];
        }
      }
    }
  }

  /** When the overlay gets the focus in interactive mode, the game behind it is reported. */
  lemma OverlayFocusReportsGame(b: State, env: Env, overlay: Win)
    requires Invariant(b) && b.attached && env.focus == Some(overlay) && env.isOverlay(overlay)
    requires b.mode.Interactive? && b.game.Some? && Reportable(env, b.game.value)
    ensures var a := Step(b, env, FocusNotified); Intends(b, a, ReportRequest(b.game.value, 0, b.serial + 1))
  {
    hide Queue, LiveCount, InSequence, Settled;
    ReportIntends(b.(grace := false, overlay := Some(overlay)), env, b.game.value, true, 0);
  }
}
