/** Retries run out: how often the bridge reports a candidate again on its own
    (integrations/gnome/extension.js). */
module BridgeRetries {
  import opened Common
  import opened Bridge
  import opened BridgeSafety

  /** Retries a report has left; a fresh one, with all of them, that was made after the
      serial `since` does not count. */
  function Left(since: nat, request: Option<Request>): nat
  {
    if request.None? || !request.value.ReportRequest? then 0
    else if request.value.retries == MAX_CANDIDATE_RETRIES && request.value.serial > since then 0
    else Max(request.value.retries, 0)
  }

  /** Retries the bridge may still make, fresh reports after `since` aside. */
  function Demand(since: nat, b: State): nat
  {
    Max(Left(since, b.retry), Max(Left(since, b.newest), Left(since, b.pending)))
  }

  /** No more retries than `limit`, and new reports come after `since`. */
  predicate Calm(limit: nat, since: nat, b: State) { Demand(since, b) <= limit && since <= b.serial }

  // --- requests ---------------------------------------------------------------------

  lemma {:induction false} DispatchDemand(limit: nat, since: nat, b: State, env: Env, request: Request)
    requires Demand(since, b) <= limit && Left(since, Some(request)) <= limit
    ensures Demand(since, Dispatch(b, env, request)) <= limit
    decreases Pendings(b), 2
  {
    hide Fail;
    var report := if request.ReportRequest? then Normalized(env, request.window) else None;
    var flying := b.(inFlight := true, lastReport := if request.ReportRequest? then report else b.lastReport,
                     calls := b.calls + [WindowCall(b.generation, request.serial, report.Some?)]);
    if env.throws(WindowStage, request.serial) {
      FailDemand(limit, since, flying, env, request, report.Some?);
    }
  }

  lemma {:induction false} FailDemand(limit: nat, since: nat, b: State, env: Env, request: Request, reported: bool)
    requires Demand(since, b) <= limit && (request.serial == b.serial ==> Left(since, Some(request)) <= limit)
    ensures Demand(since, Fail(b, env, request, reported)) <= limit
    decreases Pendings(b), 1
  {
    hide Finish;
    FinishDemand(limit, since, if request.serial == b.serial then ToPassive(b) else b, env);
  }

  lemma {:induction false} FinishDemand(limit: nat, since: nat, b: State, env: Env)
    requires Demand(since, b) <= limit
    ensures Demand(since, Finish(b, env)) <= limit
    decreases Pendings(b), 0
  {
    hide Dispatch;
    if b.pending.Some? {
      DispatchDemand(limit, since, b.(inFlight := false, pending := None), env, b.pending.value);
    }
  }

  lemma QueueDemand(limit: nat, since: nat, b: State, env: Env, request: Request)
    requires Left(since, b.retry) <= limit && Left(since, Some(request)) <= limit
    requires b.inFlight || Left(since, b.pending) <= limit
    ensures Demand(since, Queue(b, env, request)) <= limit
    ensures Queue(b, env, request).newest == Some(request) && Queue(b, env, request).serial == b.serial
  {
    hide Dispatch;
    if !b.inFlight {
      var next := b.(newest := Some(request));
      DispatchDemand(limit, since, next, env, request);
      DispatchForward(next, env, request);
    }
  }

  lemma ClearCalm(limit: nat, since: nat, b: State, env: Env)
    requires Calm(limit, since, b)
    ensures Calm(limit, since, RequestClear(b, env)) && Calm(limit, since, PlaceOverlay(b, env))
  {
    hide Queue;
    var raised := ToPassive(CancelRetry(b)).(lastReport := None, fence := true, serial := b.serial + 1);
    QueueDemand(limit, since, raised, env, ClearRequest(raised.serial));
  }

  lemma ReportCalm(limit: nat, since: nat, b: State, env: Env, window: Win, force: bool, retries: int)
    requires Calm(limit, since, b) && (retries <= limit || retries == MAX_CANDIDATE_RETRIES)
    ensures Calm(limit, since, RequestReport(b, env, window, force, retries))
  {
    hide Queue, RequestClear;
    ClearCalm(limit, since, b, env);
    var raised := b.(fence := false, serial := b.serial + 1);
    QueueDemand(limit, since, raised, env, ReportRequest(window, retries, raised.serial));
  }

  // --- handlers ---------------------------------------------------------------------

  lemma ActiveCalm(limit: nat, since: nat, b: State, env: Env, active: Active)
    requires Calm(limit, since, b) && active.Game?
    ensures Calm(limit, since, ApplyActive(b, env, active))
  {
    hide RequestClear, RequestReport, PlaceOverlay, FindGame;
    var game := FindGame(b, env, active);
    if game.None? {
      ClearCalm(limit, since, b, env);
    } else if env.focus.Some? && env.focus != b.overlay && env.focus != game {
      ReportCalm(limit, since, CancelRetry(b.(candidate := env.focus)), env, env.focus.value, true,
                 MAX_CANDIDATE_RETRIES);
    } else {
      ClearCalm(limit, since, CancelRetry(b).(game := game, candidate := game), env);
    }
  }

  lemma ApplyCalm(limit: nat, since: nat, b: State, env: Env, payload: Payload)
    requires Calm(limit, since, b)
    ensures Calm(limit, since, ApplySnapshot(b, env, payload))
  {
    hide ApplyActive;
    if payload.Snapshot? && payload.revision >= b.revision && payload.active.Game? {
      ActiveCalm(limit, since, b.(revision := payload.revision, mode := payload.mode), env, payload.active);
    }
  }

  lemma FocusCalm(limit: nat, since: nat, b: State, env: Env, window: Win)
    requires Calm(limit, since, b)
    ensures Calm(limit, since, HandleFocus(b, env, window))
  {
    hide RequestReport, PlaceOverlay;
    var shown := b.(overlay := Some(window));
    ClearCalm(limit, since, shown, env);
    var placed := PlaceOverlay(shown, env);
    if placed.game.Some? {
      ReportCalm(limit, since, placed, env, placed.game.value, true, 0);
    }
    var still := CancelRetry(b);
    var left := if still.game.Some? && still.game != Some(window) then ToPassive(still) else still;
    ReportCalm(limit, since, left.(candidate := Some(window)), env, window, true, MAX_CANDIDATE_RETRIES);
  }

  lemma ScheduleDemand(limit: nat, since: nat, b: State, env: Env, request: Request)
    requires Left(since, Some(request)) <= limit
    ensures Demand(since, b) <= limit ==> Demand(since, ScheduleRetry(b, env, request)) <= limit
    ensures ScheduleRetry(b, env, request).serial == b.serial
  {
  }

  lemma AnsweredCalm(limit: nat, since: nat, b: State, env: Env, callback: Callback, outcome: Outcome)
    requires Calm(limit, since, b)
    requires IsWindow(callback) ==>
               && callback.request.serial <= b.serial
               && (callback.request.serial == b.serial ==> Left(since, Some(callback.request)) <= limit)
    ensures Calm(limit, since, Answered(b, env, callback, outcome))
  {
    hide ApplySnapshot, HandleFocus, Fail, Finish, Adds, Left, ScheduleRetry;
    if IsWindow(callback) {
      if callback.request.serial == b.serial {
        ScheduleDemand(limit, since, Finish(b, env), env, callback.request);
      }
      FailDemand(limit, since, b, env, callback.request, callback.reported);
      FailForward(b, env, callback.request, callback.reported);
      FinishDemand(limit, since, b, env);
      FinishForward(b, env);
    }
    if outcome.Reply? {
      ApplyCalm(limit, since, b, env, outcome.payload);
      ApplyForward(b, env, outcome.payload);
      var applied := ApplySnapshot(b, env, outcome.payload);
      FinishDemand(limit, since, applied, env);
      FinishForward(applied, env);
      if IsWindow(callback) && callback.request.serial == applied.serial {
        ScheduleDemand(limit, since, Finish(applied, env), env, callback.request);
      }
      if env.focus.Some? {
        FocusCalm(limit, since, applied, env, env.focus.value);
        FocusCalm(limit, since, b, env, env.focus.value);
      }
    }
  }

  lemma CompositorCalm(limit: nat, since: nat, b: State, env: Env, event: Event)
    requires Calm(limit, since, b) && b.attached && !event.RetryTimeout?
    ensures Calm(limit, since, Compositor(b, env, event))
  {
    hide RequestReport, RequestClear, PlaceOverlay, HandleFocus, ApplySnapshot, IdentityChanged, Left;
    match event {
      case FocusNotified => if env.focus.Some? { FocusCalm(limit, since, b.(grace := false), env, env.focus.value); }
      case GraceTimeout =>
        ClearCalm(limit, since, b.(grace := false), env);
        if env.focus.Some? { FocusCalm(limit, since, b.(grace := false), env, env.focus.value); }
      case WindowCreated(w) => IdentityCalm(limit, since, b.(windows := b.windows + {w}), env, w);
      case IdentityNotified(w) => IdentityCalm(limit, since, b, env, w);
      case ChangeNotified(w) =>
        ClearCalm(limit, since, b, env);
        ReportCalm(limit, since, b, env, w, false, 0);
        ClearCalm(limit, since, RequestReport(b, env, w, false, 0), env);
      case UnmanagedNotified(w) =>
        ClearCalm(limit, since, b.(windows := b.windows - {w}, candidate := None, game := None), env);
      case Restacked => ClearCalm(limit, since, b, env);
      case KeepaliveTimeout => if b.game.Some? { ReportCalm(limit, since, b, env, b.game.value, true, 0); }
      case Signal(payload) => ApplyCalm(limit, since, b, env, payload);
      case _ =>
    }
  }

  lemma IdentityCalm(limit: nat, since: nat, b: State, env: Env, window: Win)
    requires Calm(limit, since, b)
    ensures Calm(limit, since, IdentityChanged(b, env, window))
  {
    hide RequestReport, PlaceOverlay;
    ClearCalm(limit, since, b.(overlay := Some(window)), env);
    ReportCalm(limit, since, CancelRetry(b).(candidate := Some(window)), env, window, true, MAX_CANDIDATE_RETRIES);
  }

  // --- runs -------------------------------------------------------------------------

  /** Retries the bridge may still make. */
  function Budget(b: State): nat { Max(Kept(b.retry), Kept(b.newest)) }

  function Kept(request: Option<Request>): nat
  {
    if request.Some? && request.value.ReportRequest? then Max(request.value.retries, 0) else 0
  }

  predicate IsFresh(request: Option<Request>, since: nat)
  {
    && request.Some? && request.value.ReportRequest?
    && request.value.retries == MAX_CANDIDATE_RETRIES && request.value.serial > since
  }

  /** The step made a fresh report: one with all its retries. */
  predicate ReportsAfresh(before: State, after: State)
  {
    IsFresh(after.retry, before.serial) || IsFresh(after.newest, before.serial)
  }

  /** A retry timer ran out and the candidate was reported again. */
  predicate Retries(before: State, event: Event, after: State)
  {
    event.RetryTimeout? && before.serial < after.serial && after.newest.Some? && after.newest.value.ReportRequest?
  }

  lemma InvariantIsCalm(b: State)
    requires Invariant(b)
    ensures Calm(Budget(b), b.serial, b) && Budget(b) <= MAX_CANDIDATE_RETRIES
  {
    hide LiveCount, InSequence, Settled;
  }

  lemma StepCalm(b: State, env: Env, event: Event)
    requires Invariant(b) && !event.RetryTimeout?
    ensures Demand(b.serial, Step(b, env, event)) <= Budget(b)
  {
    hide Answered, Compositor, LastOverlay, LiveCount, InSequence, Settled;
    InvariantIsCalm(b);
    match event {
      case Answer(i, outcome) =>
        if i < |b.outstanding| && b.outstanding[i].generation == b.generation {
          assert b.outstanding[i] in b.outstanding;
          AnsweredCalm(Budget(b), b.serial, Taken(b, event), env, b.outstanding[i], outcome);
        }
      case Start =>
      case Stop =>
      case CoreAppeared(_) =>
      case CoreVanished =>
      case _ => if b.attached { CompositorCalm(Budget(b), b.serial, b, env, event); }
    }
  }

  /** Queued where no retry is armed, a request leaves no more retries than it has itself. */
  lemma QueuedBudget(b: State, env: Env, request: Request)
    requires b.retry.None? && (b.pending.Some? ==> b.inFlight)
    ensures Queue(b, env, request).newest == Some(request) && Budget(Queue(b, env, request)) <= Kept(Some(request))
  {
    hide Queue;
    var a, limit := Queue(b, env, request), Kept(Some(request));
    QueueDemand(limit, if a.retry.Some? then a.retry.value.serial else 0, b, env, request);
  }

  lemma ReportAgain(b: State, env: Env, window: Win, retries: nat)
    requires b.retry.None? && (b.pending.Some? ==> b.inFlight)
    ensures var a := RequestReport(b, env, window, true, retries);
            || a == b
            || (a.newest.Some? && Budget(a) <= if a.newest.value.ReportRequest? then retries else 0)
  {
    hide Queue;
    var cleared := ToPassive(CancelRetry(b)).(lastReport := None, fence := true, serial := b.serial + 1);
    QueuedBudget(cleared, env, ClearRequest(cleared.serial));
    var raised := b.(fence := false, serial := b.serial + 1);
    QueuedBudget(raised, env, ReportRequest(window, retries, raised.serial));
  }

  /** A retry costs one of those that are left. */
  lemma RetryCosts(b: State, env: Env)
    requires Invariant(b)
    ensures var a := Step(b, env, RetryTimeout);
            Budget(a) + (if Retries(b, RetryTimeout, a) then 1 else 0) <= Budget(b)
  {
    hide RequestReport, LiveCount, InSequence, Settled;
    if b.attached && b.retry.Some? {
      var request := b.retry.value;
      ReportAgain(b.(retry := None, candidate := Some(request.window)), env, request.window, request.retries - 1);
    }
  }

  /** No step makes a fresh report. */
  ghost predicate Steady(b: State, history: seq<Happening>)
  {
    history != [] ==>
      && Steady(b, history[..|history| - 1])
      && !ReportsAfresh(Run(b, history[..|history| - 1]), Run(b, history))
  }

  ghost function RetryCount(b: State, history: seq<Happening>): nat
  {
    if history == [] then 0
    else
      var front := history[..|history| - 1];
      RetryCount(b, front) + if Retries(Run(b, front), history[|history| - 1].event, Run(b, history)) then 1 else 0
  }

  lemma {:induction false} RetriesRunOut(b: State, history: seq<Happening>)
    requires Invariant(b) && Steady(b, history)
    ensures Invariant(Run(b, history))
    ensures RetryCount(b, history) + Budget(Run(b, history)) <= Budget(b)
  {
    hide Invariant, Step;
    if history != [] {
      var front, last := history[..|history| - 1], history[|history| - 1];
      var before := Run(b, front);
      RetriesRunOut(b, front);
      StepKeeps(before, last.env, last.event);
      if last.event.RetryTimeout? {
        RetryCosts(before, last.env);
      } else {
        StepCalm(before, last.env, last.event);
      }
    }
  }

  /** From any reachable state on, over any run without a fresh report, a candidate is
      reported again at most six times. */
  lemma RetriesBounded(b: State, history: seq<Happening>)
    requires Invariant(b) && Steady(b, history)
    ensures RetryCount(b, history) <= MAX_CANDIDATE_RETRIES
  {
    hide Run;
    InvariantIsCalm(b);
    RetriesRunOut(b, history);
  }
}
