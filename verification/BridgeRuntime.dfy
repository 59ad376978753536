/** `GnomeBridgeRuntime` as it is written: fields updated by nested handlers
    (integrations/gnome/extension.js). Each handler does exactly the specified step. */
module BridgeRuntime {
  import opened Common
  import opened Bridge
  import opened BridgeSafety

  class GnomeBridgeRuntime {
    var started: bool
    var attached: bool
    var generation: nat
    var windows: set<Win>
    var overlay: Option<Win>
    var candidate: Option<Win>
    var game: Option<Win>
    var mode: Mode
    var revision: int
    var lastReport: Option<Report>
    var fence: bool
    var inFlight: bool
    var pending: Option<Request>
    var serial: nat
    var retry: Option<Request>
    var grace: bool
    // the bus: calls that still wait for an answer, and the history they are judged by
    var outstanding: seq<Callback>
    ghost var newest: Option<Request>
    ghost var calls: seq<WindowCall>

    ghost function View(): State
      reads this
    {
      State(started, attached, generation, windows, overlay, candidate, game, mode, revision, lastReport, fence,
            inFlight, pending, serial, retry, grace, outstanding, newest, calls)
    }

    constructor ()
      ensures View() == INITIAL && Invariant(View())
    {
      started, attached, generation, windows := false, false, 0, {};
      overlay, candidate, game, mode := None, None, None, Passive;
      revision, lastReport, fence, inFlight, pending := -1, None, false, false, None;
      serial, retry, grace, outstanding := 0, None, false, [];
      newest, calls := None, [];
      new;
      InitialGood();
    }

    // --- requests -------------------------------------------------------------------

    method ApplyPassiveState()
      modifies this`mode, this`candidate, this`game
      ensures View() == ToPassive(old(View()))
    {
      mode := Passive;
      candidate := None;
      game := None;
    }

    method CancelCandidateRetry()
      modifies this`retry
      ensures View() == CancelRetry(old(View()))
    {
      retry := None;
    }

    method Call(callback: Callback)
      modifies this`outstanding
      ensures View() == Sent(old(View()), callback)
    {
      outstanding := outstanding + [callback];
    }

    method DispatchWindowRequest(env: Env, request: Request)
      modifies this
      ensures View() == Dispatch(old(View()), env, request)
      decreases Pendings(View()), 2
    {
      inFlight := true;
      var reported := false;
      if request.ReportRequest? {
        var report := Normalized(env, request.window);
        lastReport := report;
        reported := report.Some?;
      }
      calls := calls + [WindowCall(generation, request.serial, reported)];
      if env.throws(WindowStage, request.serial) {
        FailWindowRequest(env, request, reported);
      } else {
        Call(WindowReply(generation, request, reported));
      }
    }

    method FailWindowRequest(env: Env, request: Request, reported: bool)
      modifies this
      ensures View() == Fail(old(View()), env, request, reported)
      decreases Pendings(View()), 1
    {
      var current := request.serial == serial;
      if current {
        ApplyPassiveState();
      }
      FinishWindowRequest(env);
      if current && reported {
        ScheduleCandidateRetry(env, request);
      }
    }

    method FinishWindowRequest(env: Env)
      modifies this
      ensures View() == Finish(old(View()), env)
      decreases Pendings(View()), 0
    {
      inFlight := false;
      var next := pending;
      pending := None;
      if next.Some? {
        DispatchWindowRequest(env, next.value);
      }
    }

    method ScheduleCandidateRetry(env: Env, request: Request)
      modifies this`retry, this`candidate
      ensures View() == ScheduleRetry(old(View()), env, request)
    {
      CancelCandidateRetry();
      if !request.ReportRequest? || request.retries <= 0 || !attached || Normalized(env, request.window).None? {
        return;
      }
      candidate := Some(request.window);
      retry := Some(request);
    }

    method QueueWindowRequest(env: Env, request: Request)
      modifies this
      ensures View() == Queue(old(View()), env, request)
    {
      newest := Some(request);
      if inFlight {
        pending := Some(request);
        return;
      }
      DispatchWindowRequest(env, request);
    }

    method RequestClearing(env: Env)
      modifies this
      ensures View() == RequestClear(old(View()), env)
    {
      CancelCandidateRetry();
      lastReport := None;
      fence := true;
      ApplyPassiveState();
      serial := serial + 1;
      QueueWindowRequest(env, ClearRequest(serial));
    }

    method RequestReporting(env: Env, window: Win, force: bool, retries: int)
      modifies this
      ensures View() == RequestReport(old(View()), env, window, force, retries)
    {
      var report := Normalized(env, window);
      if report.None? {
        if game == Some(window) || candidate == Some(window) {
          RequestClearing(env);
        }
        return;
      }
      if !force && report == lastReport {
        return;
      }
      fence := false;
      serial := serial + 1;
      QueueWindowRequest(env, ReportRequest(window, retries, serial));
    }

    // --- snapshots ------------------------------------------------------------------

    method FindGameWindow(env: Env, active: Active) returns (found: Option<Win>)
      requires active.Game?
      ensures found == FindGame(View(), env, active)
    {
      var matching := set w | w in windows && Normalized(env, w).Some?
                              && Normalized(env, w).value.pid == active.pid
                              && Normalized(env, w).value.appId == active.appId;
      assert matching == Matching(View(), env, active);
      if env.focus.Some? && env.focus.value in matching {
        return env.focus;
      }
      var exact := set w | w in matching && Normalized(env, w).value.rect == active.rect;
      assert exact == MatchingExactly(View(), env, active);
      if |exact| == 1 {
        var w :| w in exact;
        OnlyMember(exact, w);
        return Some(w);
      }
      if |matching| == 1 {
        var w :| w in matching;
        OnlyMember(matching, w);
        return Some(w);
      }
      found := None;
    }

    method PlaceOverlayWindow(env: Env)
      modifies this
      ensures View() == PlaceOverlay(old(View()), env)
    {
      if overlay.None? || game.None? {
        return;
      }
      if Normalized(env, game.value).None? {
        RequestClearing(env);
      }
    }

    method ApplySnapshotJson(env: Env, payload: Payload)
      modifies this
      ensures View() == ApplySnapshot(old(View()), env, payload)
    {
      hide ApplyActive;
      if payload.Malformed? {
        ApplyPassiveState();
        return;
      }
      if payload.revision < revision {
        return;
      }
      revision := payload.revision;
      if payload.BadMode? {
        ApplyPassiveState();
        return;
      }
      mode := payload.mode;
      if fence || !payload.active.Game? {
        ApplyPassiveState();
        return;
      }
      ApplyActiveGame(env, payload.active);
    }

    method ApplyActiveGame(env: Env, active: Active)
      requires active.Game?
      modifies this
      ensures View() == ApplyActive(old(View()), env, active)
    {
      hide FindGame, RequestClear, RequestReport, PlaceOverlay;
      var found := FindGameWindow(env, active);
      if found.None? {
        RequestClearing(env);
        return;
      }
      if env.focus.Some? && env.focus != overlay && env.focus != found {
        candidate := env.focus;
        CancelCandidateRetry();
        RequestReporting(env, env.focus.value, true, MAX_CANDIDATE_RETRIES);
        return;
      }
      CancelCandidateRetry();
      game := found;
      candidate := found;
      PlaceOverlayWindow(env);
    }

    method HandleFocusWindow(env: Env, window: Win)
      modifies this
      ensures View() == HandleFocus(old(View()), env, window)
    {
      hide RequestReport, PlaceOverlay;
      if !attached {
        return;
      }
      if env.isOverlay(window) {
        overlay := Some(window);
        PlaceOverlayWindow(env);
        if game.Some? && mode.Interactive? {
          RequestReporting(env, game.value, true, 0);
        }
        return;
      }
      CancelCandidateRetry();
      if mode.Interactive? && game == Some(window) && overlay.Some? {
        return;
      }
      if game.Some? && game != Some(window) {
        ApplyPassiveState();
      }
      candidate := Some(window);
      RequestReporting(env, window, true, MAX_CANDIDATE_RETRIES);
    }

    // --- the Core comes and goes ----------------------------------------------------

    method ForgetRequests()
      modifies this`revision, this`lastReport, this`fence, this`inFlight, this`pending, this`retry, this`grace,
               this`newest
      ensures revision == -1 && lastReport == None && !fence && !inFlight && pending == None && retry == None && !grace
      ensures newest == None
    {
      revision, lastReport, fence, inFlight, pending := -1, None, false, false, None;
      retry, grace, newest := None, false, None;
    }

    method ForgetWindows()
      modifies this`attached, this`windows, this`overlay, this`candidate, this`game, this`mode
      ensures !attached && windows == {} && overlay == None && candidate == None && game == None && mode == Passive
    {
      attached, windows, overlay := false, {}, None;
      candidate, game, mode := None, None, Passive;
    }

    method ForgetCore()
      modifies this`attached, this`generation, this`windows, this`overlay, this`candidate, this`game, this`mode,
               this`serial
      modifies this`revision, this`lastReport, this`fence, this`inFlight, this`pending, this`retry, this`grace,
               this`newest
      ensures generation == old(generation) + 1 && serial == old(serial) + 1
      ensures !attached && windows == {} && overlay == None && candidate == None && game == None && mode == Passive
      ensures revision == -1 && lastReport == None && !fence && !inFlight && pending == None && retry == None && !grace
      ensures newest == None
    {
      generation := generation + 1;
      ForgetWindows();
      ForgetRequests();
      serial := serial + 1;
    }

    method DetachCore()
      modifies this
      ensures View() == Detach(old(View()))
    {
      ForgetCore();
    }

    method AttachCompositor(env: Env)
      requires overlay.None?
      modifies this`windows, this`overlay
      ensures windows == (set w | w in env.listed) && overlay == LastOverlay(env, env.listed)
    {
      windows := {};
      var i := 0;
      while i < |env.listed|
        invariant 0 <= i <= |env.listed|
        invariant windows == set w | w in env.listed[..i]
        invariant overlay == LastOverlay(env, env.listed[..i])
      {
        assert env.listed[..i + 1] == env.listed[..i] + [env.listed[i]];
        windows := windows + {env.listed[i]};
        if env.isOverlay(env.listed[i]) {
          overlay := Some(env.listed[i]);
        }
        i := i + 1;
      }
      assert env.listed[..i] == env.listed;
    }

    method AttachCore(env: Env)
      modifies this
      ensures View() == Attach(old(View()), env)
    {
      hide LastOverlay;
      DetachCore();
      attached := true;
      generation := generation + 1;
      AttachCompositor(env);
      if !env.throws(FirstStage, serial) {
        Call(FirstSnapshot(generation, serial));
      }
    }

    method OnCoreAppeared(env: Env, named: bool)
      requires Invariant(View())
      modifies this
      ensures View() == Step(old(View()), env, CoreAppeared(named)) && Invariant(View())
    {
      hide Invariant, Attach;
      StepKeeps(View(), env, CoreAppeared(named));
      if started && named {
        AttachCore(env);
      }
    }

    method OnCoreVanished(env: Env)
      requires Invariant(View())
      modifies this
      ensures View() == Step(old(View()), env, CoreVanished) && Invariant(View())
    {
      hide Invariant;
      StepKeeps(View(), env, CoreVanished);
      if attached {
        DetachCore();
      }
    }

    method Stopping(env: Env)
      requires Invariant(View())
      modifies this
      ensures View() == Step(old(View()), env, Stop) && Invariant(View())
    {
      hide Invariant;
      StepKeeps(View(), env, Stop);
      if !started {
        return;
      }
      DetachCore();
      started := false;
    }

    // --- signals and timers ---------------------------------------------------------

    method OnFocusChanged(env: Env)
      requires Invariant(View()) && attached
      modifies this
      ensures View() == Step(old(View()), env, FocusNotified) && Invariant(View())
    {
      hide Invariant, HandleFocus;
      StepKeeps(View(), env, FocusNotified);
      grace := false;
      if env.focus.None? {
        grace := true;
        return;
      }
      HandleFocusWindow(env, env.focus.value);
    }

    method OnGraceTimeout(env: Env)
      requires Invariant(View()) && attached && grace
      modifies this
      ensures View() == Step(old(View()), env, GraceTimeout) && Invariant(View())
    {
      hide Invariant, HandleFocus, RequestClear;
      StepKeeps(View(), env, GraceTimeout);
      grace := false;
      if env.focus.None? {
        RequestClearing(env);
      } else {
        HandleFocusWindow(env, env.focus.value);
      }
    }

    method OnIdentityChanged(env: Env, window: Win)
      modifies this
      ensures View() == IdentityChanged(old(View()), env, window)
    {
      hide RequestReport, PlaceOverlay;
      if env.isOverlay(window) {
        overlay := Some(window);
        PlaceOverlayWindow(env);
        return;
      }
      if env.focus != Some(window) {
        return;
      }
      CancelCandidateRetry();
      candidate := Some(window);
      RequestReporting(env, window, true, MAX_CANDIDATE_RETRIES);
    }

    method OnWindowCreated(env: Env, window: Win)
      requires Invariant(View()) && attached
      modifies this
      ensures View() == Step(old(View()), env, WindowCreated(window)) && Invariant(View())
    {
      hide Invariant, IdentityChanged;
      StepKeeps(View(), env, WindowCreated(window));
      windows := windows + {window};
      OnIdentityChanged(env, window);
    }

    method OnWindowChanged(env: Env, window: Win)
      requires Invariant(View()) && attached
      modifies this
      ensures View() == Step(old(View()), env, ChangeNotified(window)) && Invariant(View())
    {
      hide Invariant, RequestReport, PlaceOverlay;
      StepKeeps(View(), env, ChangeNotified(window));
      if overlay == Some(window) {
        PlaceOverlayWindow(env);
        return;
      }
      if game == Some(window) || candidate == Some(window) {
        RequestReporting(env, window, false, 0);
        PlaceOverlayWindow(env);
      }
    }

    method OnWindowUnmanaged(env: Env, window: Win)
      requires Invariant(View()) && attached
      modifies this
      ensures View() == Step(old(View()), env, UnmanagedNotified(window)) && Invariant(View())
    {
      hide Invariant, Unmanaged;
      StepKeeps(View(), env, UnmanagedNotified(window));
      ForgetWindow(env, window);
    }

    method ForgetWindow(env: Env, window: Win)
      modifies this
      ensures View() == Unmanaged(old(View()), env, window)
    {
      hide RequestClear;
      windows := windows - {window};
      if overlay == Some(window) {
        overlay := None;
        return;
      }
      if candidate == Some(window) || game == Some(window) {
        candidate := None;
        game := None;
        RequestClearing(env);
      }
    }

    method OnKeepalive(env: Env)
      requires Invariant(View()) && attached
      modifies this
      ensures View() == Step(old(View()), env, KeepaliveTimeout) && Invariant(View())
    {
      hide Invariant, RequestReport;
      StepKeeps(View(), env, KeepaliveTimeout);
      if game.Some? && (env.focus == game || env.focus == overlay) {
        RequestReporting(env, game.value, true, 0);
      }
    }

    method OnRetryTimeout(env: Env)
      requires Invariant(View()) && attached && retry.Some?
      modifies this
      ensures View() == Step(old(View()), env, RetryTimeout) && Invariant(View())
    {
      hide Invariant, RetryDue, Good;
      StepKeeps(View(), env, RetryTimeout);
      ArmedForReport(View());
      RetryCandidate(env);
    }

    method RetryCandidate(env: Env)
      requires retry.Some? && retry.value.ReportRequest?
      modifies this
      ensures View() == RetryDue(old(View()), env)
    {
      hide RequestReport;
      var request := retry.value;
      retry := None;
      if env.focus != Some(request.window) && env.focus != overlay {
        return;
      }
      candidate := Some(request.window);
      RequestReporting(env, request.window, true, request.retries - 1);
    }

    method OnSnapshotSignal(env: Env, payload: Payload)
      requires Invariant(View()) && attached
      modifies this
      ensures View() == Step(old(View()), env, Signal(payload)) && Invariant(View())
    {
      hide Invariant, ApplySnapshot;
      StepKeeps(View(), env, Signal(payload));
      ApplySnapshotJson(env, payload);
    }

    // --- replies --------------------------------------------------------------------

    method Answering(env: Env, callback: Callback, outcome: Outcome)
      modifies this
      ensures View() == Answered(old(View()), env, callback, outcome)
    {
      hide Fail, Finish, ApplySnapshot, HandleFocus, ScheduleRetry;
      match callback {
        case WindowReply(_, request, reported) =>
          if outcome.Failure? || env.throws(AfterStage, request.serial) {
            FailWindowRequest(env, request, reported);
          } else {
            Call(AfterWindow(generation, request, reported));
          }
        case AfterWindow(_, request, reported) =>
          if outcome.Failure? {
            FailWindowRequest(env, request, reported);
            return;
          }
          if request.serial == serial {
            ApplySnapshotJson(env, outcome.payload);
          }
          var current := request.serial == serial;
          var accepted := current && request.ReportRequest? && game == Some(request.window);
          FinishWindowRequest(env);
          if current && reported && !accepted {
            ScheduleCandidateRetry(env, request);
          }
        case FirstSnapshot(_, asked) =>
          if outcome.Failure? {
            return;
          }
          if asked == serial {
            ApplySnapshotJson(env, outcome.payload);
          }
          if env.focus.Some? {
            HandleFocusWindow(env, env.focus.value);
          }
        case PlainSnapshot(_, asked) =>
          if outcome.Reply? && asked == serial {
            ApplySnapshotJson(env, outcome.payload);
          }
        case ShortcutCall(_) =>
          if outcome.Reply? && !env.throws(PlainStage, serial) {
            Call(PlainSnapshot(generation, serial));
          }
      }
    }

    method OnAnswer(env: Env, i: nat, outcome: Outcome)
      requires Invariant(View()) && i < |outstanding|
      modifies this
      ensures View() == Step(old(View()), env, Answer(i, outcome)) && Invariant(View())
    {
      hide Invariant, Answered;
      StepKeeps(View(), env, Answer(i, outcome));
      var callback := outstanding[i];
      outstanding := Without(outstanding, i);
      if callback.generation != generation || !attached {
        return;
      }
      Answering(env, callback, outcome);
    }
  }

  lemma ArmedForReport(b: State)
    requires Invariant(b) && b.retry.Some?
    ensures b.retry.value.ReportRequest?
  {
    hide LiveCount;
  }

  lemma OnlyMember(s: set<Win>, w: Win)
    requires |s| == 1 && w in s
    ensures forall v :: v in s ==> v == w
  {
    assert |s - {w}| == 0;
  }
}
