/** What every run of the bridge keeps, under every order of calls, replies, errors and
    new intents (integrations/gnome/extension.js). */
module BridgeSafety {
  import opened Common
  import opened Bridge

  // --- the window request in flight ---------------------------------------------------

  predicate IsWindow(callback: Callback) { callback.WindowReply? || callback.AfterWindow? }

  predicate IsLive(callback: Callback, generation: nat) { IsWindow(callback) && callback.generation == generation }

  /** Window requests of a generation that still wait for an answer. */
  function LiveCount(callbacks: seq<Callback>, generation: nat): nat
  {
    if callbacks == [] then 0
    else
      LiveCount(callbacks[..|callbacks| - 1], generation)
      + (if IsLive(callbacks[|callbacks| - 1], generation) then 1 else 0)
  }

  lemma {:induction false} CountSplit(a: seq<Callback>, b: seq<Callback>, generation: nat)
    ensures LiveCount(a + b, generation) == LiveCount(a, generation) + LiveCount(b, generation)
  {
    if b == [] {
      assert a + b == a;
    } else {
      assert (a + b)[..|a + b| - 1] == a + b[..|b| - 1];
      CountSplit(a, b[..|b| - 1], generation);
    }
  }

  lemma CountOne(callback: Callback, generation: nat)
    ensures LiveCount([callback], generation) == if IsLive(callback, generation) then 1 else 0
  {
    assert LiveCount([callback][..0], generation) == 0;
  }

  lemma CountWithout(callbacks: seq<Callback>, i: nat, generation: nat)
    requires i < |callbacks|
    ensures LiveCount(callbacks, generation)
            == LiveCount(Without(callbacks, i), generation) + (if IsLive(callbacks[i], generation) then 1 else 0)
    ensures forall c :: c in Without(callbacks, i) ==> c in callbacks
  {
    hide LiveCount;
    assert callbacks == callbacks[..i] + ([callbacks[i]] + callbacks[i + 1..]);
    CountSplit(callbacks[..i], [callbacks[i]] + callbacks[i + 1..], generation);
    CountSplit([callbacks[i]], callbacks[i + 1..], generation);
    CountSplit(callbacks[..i], callbacks[i + 1..], generation);
    CountOne(callbacks[i], generation);
  }

  /** Nothing is live in a generation no callback was made in. */
  lemma {:induction false} NoneLive(callbacks: seq<Callback>, generation: nat)
    requires forall c :: c in callbacks ==> c.generation != generation
    ensures LiveCount(callbacks, generation) == 0
  {
    if callbacks != [] {
      assert callbacks[|callbacks| - 1] in callbacks;
      NoneLive(callbacks[..|callbacks| - 1], generation);
    }
  }

  // --- the invariant ----------------------------------------------------------------

  predicate RequestOk(request: Request) { request.ReportRequest? ==> request.retries <= MAX_CANDIDATE_RETRIES }

  /** No game, no interactive mode, and nothing that would bring one back. */
  predicate Quiet(b: State)
  {
    b.game.None? && b.candidate.None? && b.mode.Passive? && b.retry.None?
  }

  predicate Orderly(b: State)
  {
    && (forall c :: c in b.outstanding ==> c.generation <= b.generation)
    && (b.newest.Some? ==> b.newest.value.serial == b.serial && RequestOk(b.newest.value))
    && (b.fence <==> b.newest.Some? && b.newest.value.ClearRequest?)
    && (b.fence ==> Quiet(b))
    && (b.retry.Some? ==> b.retry.value.ReportRequest? && 0 < b.retry.value.retries && RequestOk(b.retry.value))
    && (!b.attached ==> b.newest.None? && Quiet(b))
    && InSequence(b.calls, b.serial)
  }

  /** Window calls are made in the order of their intents, and at most one for each. */
  predicate InSequence(calls: seq<WindowCall>, serial: nat)
  {
    && (forall i, j :: 0 <= i < j < |calls| ==> calls[i].serial < calls[j].serial)
    && (calls != [] ==> calls[|calls| - 1].serial <= serial)
  }

  /** A live window callback belongs to the last window call that was made. */
  predicate FlightOk(b: State, callback: Callback)
  {
    && IsLive(callback, b.generation)
    && b.calls != []
    && b.calls[|b.calls| - 1] == WindowCall(b.generation, callback.request.serial, callback.reported)
    && (callback.reported ==> callback.request.ReportRequest?)
    && RequestOk(callback.request)
    && callback.request.serial <= b.serial
    && (callback.request.serial == b.serial ==> b.newest == Some(callback.request))
  }

  /** The last window call was made for the newest request of this generation. */
  predicate Settled(b: State)
  {
    && b.newest.Some? && b.calls != []
    && var last := b.calls[|b.calls| - 1];
    && last.generation == b.generation && last.serial == b.serial
    && (last.reported ==> b.newest.value.ReportRequest?)
  }

  /** `held` is the window callback a handler is just answering: it is no longer in the
      bag, but its request still counts as in flight. */
  predicate Flights(b: State, held: Option<Callback>)
  {
    && LiveCount(b.outstanding, b.generation) + (if held.Some? then 1 else 0) == (if b.inFlight then 1 else 0)
    && (forall c :: c in b.outstanding && IsLive(c, b.generation) ==> FlightOk(b, c))
    && (held.Some? ==> FlightOk(b, held.value))
    && (b.inFlight ==> b.attached && b.newest.Some?)
    && (b.pending.Some? ==> b.inFlight && b.pending == b.newest && b.calls != []
                            && b.calls[|b.calls| - 1].serial < b.serial)
    && (b.pending.None? && b.newest.Some? ==> Settled(b))
  }

  predicate Good(b: State, held: Option<Callback>) { Orderly(b) && Flights(b, held) }

  predicate Invariant(b: State) { Good(b, None) }

  /** A request has just been made the newest and nothing is in flight. */
  predicate Ready(b: State, request: Request)
  {
    && Orderly(b) && b.attached && b.newest == Some(request) && b.pending.None?
    && LiveCount(b.outstanding, b.generation) == 0
    && (b.calls != [] ==> b.calls[|b.calls| - 1].serial < b.serial)
  }

  // --- the queue ----------------------------------------------------------------------

  lemma NoLiveMember(b: State)
    requires LiveCount(b.outstanding, b.generation) == 0
    ensures forall c :: c in b.outstanding ==> !IsLive(c, b.generation)
  {
    hide LiveCount;
    forall c | c in b.outstanding ensures !IsLive(c, b.generation) {
      var i :| 0 <= i < |b.outstanding| && b.outstanding[i] == c;
      CountWithout(b.outstanding, i, b.generation);
    }
  }

  lemma SentCount(b: State, callback: Callback)
    ensures LiveCount(Sent(b, callback).outstanding, b.generation)
            == LiveCount(b.outstanding, b.generation) + (if IsLive(callback, b.generation) then 1 else 0)
  {
    assert (b.outstanding + [callback])[..|b.outstanding|] == b.outstanding;
  }

  /** Making a call for a request leaves it in flight, or already failed and finished. */
  lemma {:induction false} DispatchGood(b: State, env: Env, request: Request)
    requires Ready(b, request)
    ensures Good(Dispatch(b, env, request), None) && SameIntent(Dispatch(b, env, request), b)
    decreases Pendings(b), 2
  {
    hide LiveCount, Fail;
    var report := if request.ReportRequest? then Normalized(env, request.window) else None;
    var flying := b.(inFlight := true, lastReport := if request.ReportRequest? then report else b.lastReport,
                     calls := b.calls + [WindowCall(b.generation, request.serial, report.Some?)]);
    var callback := WindowReply(b.generation, request, report.Some?);
    NoLiveMember(b);
    assert Good(flying, Some(callback));
    if env.throws(WindowStage, request.serial) {
      FailGood(flying, env, callback);
    } else {
      SentCount(flying, callback);
    }
  }

  /** What the handling of an answer or a failure never changes. */
  predicate SameIntent(b: State, a: State)
  {
    && b.newest == a.newest && b.serial == a.serial && b.fence == a.fence
    && b.generation == a.generation && b.attached == a.attached
  }

  lemma {:induction false} FailGood(b: State, env: Env, held: Callback)
    requires Good(b, Some(held))
    ensures var after := Fail(b, env, held.request, held.reported);
            Good(after, None) && SameIntent(after, b)
    decreases Pendings(b), 1
  {
    hide LiveCount, Finish;
    var current := held.request.serial == b.serial;
    var passive := if current then ToPassive(b) else b;
    assert Good(passive, Some(held));
    FinishGood(passive, env, held);
    if current && held.reported {
      RetryGood(Finish(passive, env), env, held.request);
    }
  }

  lemma {:induction false} FinishGood(b: State, env: Env, held: Callback)
    requires Good(b, Some(held))
    ensures Good(Finish(b, env), None) && SameIntent(Finish(b, env), b)
    decreases Pendings(b), 0
  {
    hide LiveCount, Dispatch;
    var landed := b.(inFlight := false, pending := None);
    NoLiveMember(landed);
    if b.pending.Some? {
      DispatchGood(landed, env, b.pending.value);
    }
  }

  lemma RetryGood(b: State, env: Env, request: Request)
    requires Good(b, None) && !b.fence && RequestOk(request)
    ensures Good(ScheduleRetry(b, env, request), None) && SameIntent(ScheduleRetry(b, env, request), b)
  {
    hide LiveCount;
  }

  /** Queueing a new intent keeps everything; while a request is in flight the intent
      waits in the pending slot. */
  lemma QueueGood(b: State, env: Env, request: Request, held: Option<Callback>)
    requires b.attached && Orderly(b.(newest := Some(request)))
    requires LiveCount(b.outstanding, b.generation) + (if held.Some? then 1 else 0) == (if b.inFlight then 1 else 0)
    requires b.pending.Some? ==> b.inFlight
    requires b.calls != [] ==> b.calls[|b.calls| - 1].serial < b.serial
    requires forall c :: c in b.outstanding && IsLive(c, b.generation) ==> FlightOk(b, c) && c.request.serial < b.serial
    requires held.Some? ==> FlightOk(b, held.value) && held.value.request.serial < b.serial
    ensures Good(Queue(b, env, request), held) && SameIntent(Queue(b, env, request), b.(newest := Some(request)))
  {
    hide LiveCount, Dispatch;
    if b.inFlight {
      SomeoneFlies(b, held);
    } else {
      DispatchGood(b.(newest := Some(request)), env, request);
    }
  }

  lemma SomeoneFlies(b: State, held: Option<Callback>)
    requires LiveCount(b.outstanding, b.generation) + (if held.Some? then 1 else 0) == 1
    requires forall c :: c in b.outstanding && IsLive(c, b.generation) ==> FlightOk(b, c) && c.request.serial < b.serial
    requires held.Some? ==> FlightOk(b, held.value) && held.value.request.serial < b.serial
    ensures b.calls != [] && b.calls[|b.calls| - 1].serial < b.serial
  {
    hide LiveCount;
    if held.None? {
      var c := LiveMember(b.outstanding, b.generation);
    }
  }

  lemma {:induction false} LiveMember(callbacks: seq<Callback>, generation: nat) returns (c: Callback)
    requires LiveCount(callbacks, generation) > 0
    ensures c in callbacks && IsLive(c, generation)
  {
    var last := callbacks[|callbacks| - 1];
    if IsLive(last, generation) {
      c := last;
    } else {
      c := LiveMember(callbacks[..|callbacks| - 1], generation);
    }
  }

  lemma ClearGood(b: State, env: Env, held: Option<Callback>)
    requires Good(b, held) && b.attached
    ensures Good(RequestClear(b, env), held) && RequestClear(b, env).attached
    ensures RequestClear(b, env).fence && RequestClear(b, env).serial == b.serial + 1
  {
    hide LiveCount, Queue;
    var quiet := ToPassive(CancelRetry(b)).(lastReport := None, fence := true, serial := b.serial + 1);
    QueueGood(quiet, env, ClearRequest(quiet.serial), held);
  }

  lemma ReportGood(b: State, env: Env, window: Win, force: bool, retries: int, held: Option<Callback>)
    requires GoodExceptCandidate(b, held) && b.attached && retries <= MAX_CANDIDATE_RETRIES
    requires b.candidate.Some? && b.fence ==> b.candidate == Some(window) && force
    ensures Good(RequestReport(b, env, window, force, retries), held)
    ensures RequestReport(b, env, window, force, retries).attached
  {
    hide LiveCount, Queue, RequestClear;
    var report := Normalized(env, window);
    if report.None? {
      if b.game == Some(window) || b.candidate == Some(window) {
        ClearGood(b.(candidate := None), env, held);
        ClearIgnoresCandidate(b, env);
      }
    } else if force || report != b.lastReport {
      var raised := b.(fence := false, serial := b.serial + 1);
      QueueGood(raised, env, ReportRequest(window, retries, raised.serial), held);
    }
  }

  /** Handlers set the candidate just before they report it, even under the fence. */
  predicate GoodExceptCandidate(b: State, held: Option<Callback>) { Good(b.(candidate := None), held) }

  lemma ClearIgnoresCandidate(b: State, env: Env)
    ensures RequestClear(b.(candidate := None), env) == RequestClear(b, env)
  {
    hide Queue;
  }

  // --- the handlers -------------------------------------------------------------------

  /** Fields that do not take part in the protocol may change freely; those the fence
      guards may change when it is down. */
  lemma OtherFields(b: State, a: State, held: Option<Callback>)
    requires Good(b, held) && b.attached
    requires a == b.(windows := a.windows, overlay := a.overlay, candidate := a.candidate, game := a.game,
                     mode := a.mode,
                     revision := a.revision, lastReport := a.lastReport, retry := a.retry, grace := a.grace)
    requires b.fence ==> Quiet(a)
    requires a.retry == b.retry || a.retry.None?
    ensures Good(a, held)
  {
    hide LiveCount;
  }

  lemma PlaceGood(b: State, env: Env, held: Option<Callback>)
    requires Good(b, held) && b.attached
    ensures Good(PlaceOverlay(b, env), held) && PlaceOverlay(b, env).attached
  {
    hide Good, RequestClear;
    if b.overlay.Some? && b.game.Some? && Normalized(env, b.game.value).None? {
      ClearGood(b, env, held);
    }
  }

  lemma GoodMeans(b: State, held: Option<Callback>)
    requires Good(b, held)
    ensures b.fence ==> Quiet(b)
    ensures b.retry.Some? ==> b.retry.value.ReportRequest? && b.retry.value.retries <= MAX_CANDIDATE_RETRIES
  {
  }

  /** Reporting a window that has just been made the candidate. */
  lemma CandidateGood(b: State, env: Env, window: Win, retries: int, held: Option<Callback>)
    requires Good(b, held) && b.attached && retries <= MAX_CANDIDATE_RETRIES
    ensures var after := RequestReport(b.(candidate := Some(window)), env, window, true, retries);
            Good(after, held) && after.attached
  {
    hide Good, RequestReport;
    GoodMeans(b, held);
    OtherFields(b, b.(candidate := None), held);
    assert GoodExceptCandidate(b.(candidate := Some(window)), held) by {
      assert b.(candidate := Some(window)).(candidate := None) == b.(candidate := None);
    }
    ReportGood(b.(candidate := Some(window)), env, window, true, retries, held);
  }

  /** Reporting a window without touching the candidate. */
  lemma AgainGood(b: State, env: Env, window: Win, force: bool, retries: int, held: Option<Callback>)
    requires Good(b, held) && b.attached && retries <= MAX_CANDIDATE_RETRIES
    ensures var after := RequestReport(b, env, window, force, retries);
            Good(after, held) && after.attached
  {
    hide Good, RequestReport;
    GoodMeans(b, held);
    OtherFields(b, b.(candidate := None), held);
    assert GoodExceptCandidate(b, held);
    ReportGood(b, env, window, force, retries, held);
  }

  lemma ApplyGood(b: State, env: Env, payload: Payload, held: Option<Callback>)
    requires Good(b, held) && b.attached
    ensures Good(ApplySnapshot(b, env, payload), held) && ApplySnapshot(b, env, payload).attached
  {
    hide Good, ApplyActive;
    GoodMeans(b, held);
    if payload.Malformed? {
      OtherFields(b, ToPassive(b), held);
    } else if payload.revision >= b.revision {
      var seen := b.(revision := payload.revision);
      if payload.BadMode? {
        OtherFields(b, ToPassive(seen), held);
      } else {
        var moded := seen.(mode := payload.mode);
        if b.fence || !payload.active.Game? {
          OtherFields(b, ToPassive(moded), held);
        } else {
          OtherFields(b, moded, held);
          ApplyGame(moded, env, payload.active, held);
        }
      }
    }
  }

  lemma ApplyGame(b: State, env: Env, active: Active, held: Option<Callback>)
    requires Good(b, held) && b.attached && !b.fence && active.Game?
    ensures Good(ApplyActive(b, env, active), held) && ApplyActive(b, env, active).attached
  {
    hide Good, FindGame, RequestClear, RequestReport, PlaceOverlay;
    var game := FindGame(b, env, active);
    if game.None? {
      ClearGood(b, env, held);
    } else if env.focus.Some? && env.focus != b.overlay && env.focus != game {
      OtherFields(b, CancelRetry(b), held);
      CandidateGood(CancelRetry(b), env, env.focus.value, MAX_CANDIDATE_RETRIES, held);
      assert CancelRetry(b).(candidate := Some(env.focus.value)) == CancelRetry(b.(candidate := env.focus));
    } else {
      OtherFields(b, CancelRetry(b).(game := game, candidate := game), held);
      PlaceGood(CancelRetry(b).(game := game, candidate := game), env, held);
    }
  }

  lemma FocusGood(b: State, env: Env, window: Win)
    requires Good(b, None)
    ensures Good(HandleFocus(b, env, window), None)
  {
    hide Good, RequestReport, PlaceOverlay;
    GoodMeans(b, None);
    if b.attached {
      if env.isOverlay(window) {
        var shown := b.(overlay := Some(window));
        OtherFields(b, shown, None);
        PlaceGood(shown, env, None);
        var placed := PlaceOverlay(shown, env);
        if placed.game.Some? && placed.mode.Interactive? {
          AgainGood(placed, env, placed.game.value, true, 0, None);
        }
      } else {
        var still := CancelRetry(b);
        OtherFields(b, still, None);
        var left := if b.game.Some? && b.game != Some(window) then ToPassive(still) else still;
        OtherFields(b, left, None);
        CandidateGood(left, env, window, MAX_CANDIDATE_RETRIES, None);
      }
    }
  }

  lemma DetachGood(b: State)
    requires Good(b, None)
    ensures Good(Detach(b), None)
  {
    hide LiveCount;
    NoneLive(b.outstanding, b.generation + 1);
  }

  lemma AttachGood(b: State, env: Env)
    requires Good(b, None)
    ensures Good(Attach(b, env), None)
  {
    hide LiveCount, LastOverlay;
    DetachGood(b);
    var d := Detach(b);
    var a := d.(attached := true, generation := d.generation + 1, windows := (set w | w in env.listed),
                overlay := LastOverlay(env, env.listed));
    NoneLive(d.outstanding, a.generation);
    SentCount(a, FirstSnapshot(a.generation, a.serial));
  }

  lemma CompositorGood(b: State, env: Env, event: Event)
    requires Good(b, None) && b.attached
    ensures Good(Compositor(b, env, event), None)
  {
    hide Good, RequestReport, RequestClear, PlaceOverlay, HandleFocus, ApplySnapshot, LiveCount;
    GoodMeans(b, None);
    match event {
      case FocusNotified =>
        OtherFields(b, b.(grace := env.focus.None?), None);
        if env.focus.Some? { FocusGood(b.(grace := false), env, env.focus.value); }
      case GraceTimeout =>
        OtherFields(b, b.(grace := false), None);
        if env.focus.Some? { FocusGood(b.(grace := false), env, env.focus.value); }
        else { ClearGood(b.(grace := false), env, None); }
      case WindowCreated(w) =>
        OtherFields(b, b.(windows := b.windows + {w}), None);
        IdentityGood(b.(windows := b.windows + {w}), env, w);
      case IdentityNotified(w) => IdentityGood(b, env, w);
      case ChangeNotified(w) =>
        PlaceGood(b, env, None);
        AgainGood(b, env, w, false, 0, None);
        PlaceGood(RequestReport(b, env, w, false, 0), env, None);
      case UnmanagedNotified(w) => UnmanagedGood(b, env, w);
      case Restacked => PlaceGood(b, env, None);
      case KeepaliveTimeout =>
        if b.game.Some? { AgainGood(b, env, b.game.value, true, 0, None); }
      case RetryTimeout =>
        OtherFields(b, b.(retry := None), None);
        if b.retry.Some? {
          CandidateGood(b.(retry := None), env, b.retry.value.window, b.retry.value.retries - 1, None);
        }
      case Accelerator => SentGood(b, ShortcutCall(b.generation), None);
      case Signal(payload) => ApplyGood(b, env, payload, None);
      case _ =>
    }
  }

  lemma SentGood(b: State, callback: Callback, held: Option<Callback>)
    requires Good(b, held) && !IsWindow(callback) && callback.generation == b.generation
    ensures Good(Sent(b, callback), held)
  {
    hide LiveCount;
    SentCount(b, callback);
  }

  lemma IdentityGood(b: State, env: Env, window: Win)
    requires Good(b, None) && b.attached
    ensures Good(IdentityChanged(b, env, window), None)
  {
    hide Good, RequestReport, PlaceOverlay;
    GoodMeans(b, None);
    if env.isOverlay(window) {
      OtherFields(b, b.(overlay := Some(window)), None);
      PlaceGood(b.(overlay := Some(window)), env, None);
    } else if env.focus == Some(window) {
      OtherFields(b, CancelRetry(b), None);
      CandidateGood(CancelRetry(b), env, window, MAX_CANDIDATE_RETRIES, None);
    }
  }

  lemma UnmanagedGood(b: State, env: Env, window: Win)
    requires Good(b, None) && b.attached
    ensures Good(Unmanaged(b, env, window), None)
  {
    hide Good, RequestClear;
    GoodMeans(b, None);
    var gone := b.(windows := b.windows - {window});
    OtherFields(b, gone, None);
    OtherFields(b, gone.(overlay := None), None);
    OtherFields(b, gone.(candidate := None, game := None), None);
    ClearGood(gone.(candidate := None, game := None), env, None);
  }

  /** Answering a window call: the request was in flight until the handler ends it. */
  lemma WindowAnswered(b: State, env: Env, held: Callback, outcome: Outcome)
    requires Good(b, Some(held)) && b.attached && IsWindow(held)
    ensures Good(Answered(b, env, held, outcome), None)
  {
    hide LiveCount, Fail, Finish, ApplySnapshot, ScheduleRetry;
    FailGood(b, env, held);
    if held.WindowReply? {
      SentCount(b, AfterWindow(b.generation, held.request, held.reported));
    } else if outcome.Reply? {
      var applied := if held.request.serial == b.serial then ApplySnapshot(b, env, outcome.payload) else b;
      if held.request.serial == b.serial {
        ApplyGood(b, env, outcome.payload, Some(held));
      }
      FinishGood(applied, env, held);
      var finished := Finish(applied, env);
      if held.request.serial == applied.serial && held.reported {
        RetryGood(finished, env, held.request);
      }
    }
  }

  lemma DeliverGood(b: State, env: Env, i: nat, outcome: Outcome)
    requires Good(b, None) && i < |b.outstanding|
    ensures Good(Deliver(b, env, i, outcome), None)
  {
    hide LiveCount, Answered, Without;
    var callback := b.outstanding[i];
    CountWithout(b.outstanding, i, b.generation);
    var taken := b.(outstanding := Without(b.outstanding, i));
    if callback.generation == b.generation && b.attached {
      if IsWindow(callback) {
        assert Good(taken, Some(callback));
        WindowAnswered(taken, env, callback, outcome);
      } else {
        assert Good(taken, None);
        OtherAnswered(taken, env, callback, outcome);
      }
    } else {
      assert Good(taken, None);
    }
  }

  lemma OtherAnswered(b: State, env: Env, callback: Callback, outcome: Outcome)
    requires Good(b, None) && b.attached && !IsWindow(callback)
    ensures Good(Answered(b, env, callback, outcome), None)
  {
    hide Good, ApplySnapshot, HandleFocus;
    match callback {
      case FirstSnapshot(_, serial) =>
        if outcome.Reply? {
          if serial == b.serial { ApplyGood(b, env, outcome.payload, None); }
          var applied := if serial == b.serial then ApplySnapshot(b, env, outcome.payload) else b;
          if env.focus.Some? { FocusGood(applied, env, env.focus.value); }
        }
      case PlainSnapshot(_, _) =>
        if outcome.Reply? { ApplyGood(b, env, outcome.payload, None); }
      case ShortcutCall(_) => SentGood(b, PlainSnapshot(b.generation, b.serial), None);
    }
  }

  lemma StepKeeps(b: State, env: Env, event: Event)
    requires Invariant(b)
    ensures Invariant(Step(b, env, event))
  {
    hide Good, Detach, Attach, Deliver, Compositor;
    match event {
      case Start => StartedGood(b, true);
      case Stop =>
        DetachGood(b);
        StartedGood(Detach(b), false);
      case CoreAppeared(_) => AttachGood(b, env);
      case CoreVanished => DetachGood(b);
      case Answer(i, outcome) => if i < |b.outstanding| { DeliverGood(b, env, i, outcome); }
      case _ => if b.attached { CompositorGood(b, env, event); }
    }
  }

  lemma StartedGood(b: State, started: bool)
    requires Good(b, None)
    ensures Good(b.(started := started), None)
  {
    hide LiveCount;
  }

  lemma {:induction false} RunKeeps(history: seq<Happening>)
    ensures Invariant(Run(INITIAL, history))
  {
    hide Invariant, Step;
    if history == [] {
      InitialGood();
    } else {
      var last := history[|history| - 1];
      RunKeeps(history[..|history| - 1]);
      StepKeeps(Run(INITIAL, history[..|history| - 1]), last.env, last.event);
    }
  }

  lemma InitialGood()
    ensures Invariant(INITIAL)
  {
  }

  // --- what this means for a run ------------------------------------------------------

  /** Single flight: in every reachable state at most one window request of the current
      generation waits for an answer, and exactly one while `inFlight` is set; a pending
      request is the newest intent; and when nothing is in flight the last window call
      was made for the newest intent. Calls follow the order of the intents. */
  lemma SingleFlight(history: seq<Happening>)
    ensures var b := Run(INITIAL, history);
            && LiveCount(b.outstanding, b.generation) == (if b.inFlight then 1 else 0)
            && (b.pending.Some? ==> b.inFlight && b.pending == b.newest && b.pending.value.serial == b.serial)
            && (!b.inFlight && b.newest.Some? ==> Settled(b))
            && InSequence(b.calls, b.serial)
  {
    hide Run, LiveCount, Settled;
    RunKeeps(history);
  }

  /** The clear fence: in every reachable state whose newest intent is a clear, there is
      no game and no candidate, the mode is passive and no retry is armed, whatever
      snapshots came in, in whatever order; and the fence is up exactly then. */
  lemma ClearHolds(history: seq<Happening>)
    ensures var b := Run(INITIAL, history);
            && (b.fence <==> b.newest.Some? && b.newest.value.ClearRequest?)
            && (b.fence ==> b.game.None? && b.candidate.None? && b.mode.Passive? && b.retry.None?)
  {
    hide Run, Flights;
    RunKeeps(history);
  }

  /** Callbacks are only added, and only of the current generation. */
  predicate Adds(before: seq<Callback>, after: seq<Callback>, generation: nat)
  {
    before <= after && forall k :: |before| <= k < |after| ==> after[k].generation == generation
  }

  lemma AddsTrans(a: seq<Callback>, b: seq<Callback>, c: seq<Callback>, generation: nat)
    ensures Adds(a, a, generation) && (Adds(a, b, generation) && Adds(b, c, generation) ==> Adds(a, c, generation))
  {
  }

  /** One step never goes back: within a generation the snapshot revision and the intent
      serial only grow, calls are only added, and as long as no intent is added the newest
      intent, and with it the fence, stays. */
  predicate Forward(b: State, a: State)
  {
    && b.generation == a.generation && b.attached == a.attached
    && b.revision <= a.revision && b.serial <= a.serial && b.calls <= a.calls
    && Adds(b.outstanding, a.outstanding, b.generation)
    && (b.serial == a.serial ==> b.newest == a.newest && b.fence == a.fence)
  }

  lemma {:induction false} DispatchForward(b: State, env: Env, request: Request)
    ensures Forward(b, Dispatch(b, env, request)) && Dispatch(b, env, request).serial == b.serial
    decreases Pendings(b), 2
  {
    hide Fail;
    var report := if request.ReportRequest? then Normalized(env, request.window) else None;
    var flying := b.(inFlight := true, lastReport := if request.ReportRequest? then report else b.lastReport,
                     calls := b.calls + [WindowCall(b.generation, request.serial, report.Some?)]);
    if env.throws(WindowStage, request.serial) {
      FailForward(flying, env, request, report.Some?);
    }
  }

  lemma {:induction false} FailForward(b: State, env: Env, request: Request, reported: bool)
    ensures Forward(b, Fail(b, env, request, reported)) && Fail(b, env, request, reported).serial == b.serial
    decreases Pendings(b), 1
  {
    hide Finish;
    FinishForward(if request.serial == b.serial then ToPassive(b) else b, env);
  }

  lemma {:induction false} FinishForward(b: State, env: Env)
    ensures Forward(b, Finish(b, env)) && Finish(b, env).serial == b.serial
    decreases Pendings(b), 0
  {
    hide Dispatch;
    if b.pending.Some? {
      DispatchForward(b.(inFlight := false, pending := None), env, b.pending.value);
    }
  }

  lemma SentForward(b: State, callback: Callback)
    requires callback.generation == b.generation
    ensures Forward(b, Sent(b, callback)) && Forward(b, b)
  {
  }

  lemma ClearForward(b: State, env: Env)
    ensures Forward(b, RequestClear(b, env))
  {
    hide Dispatch;
    var raised := ToPassive(CancelRetry(b)).(lastReport := None, fence := true, serial := b.serial + 1);
    DispatchForward(raised.(newest := Some(ClearRequest(raised.serial))), env, ClearRequest(raised.serial));
  }

  lemma ReportForward(b: State, env: Env, window: Win, force: bool, retries: int)
    ensures Forward(b, RequestReport(b, env, window, force, retries))
  {
    hide Dispatch, RequestClear;
    ClearForward(b, env);
    var raised := b.(fence := false, serial := b.serial + 1);
    var request := ReportRequest(window, retries, raised.serial);
    DispatchForward(raised.(newest := Some(request)), env, request);
  }

  lemma PlaceForward(b: State, env: Env)
    ensures Forward(b, PlaceOverlay(b, env))
  {
    hide RequestClear;
    ClearForward(b, env);
  }

  lemma ActiveForward(b: State, env: Env, active: Active)
    requires active.Game?
    ensures Forward(b, ApplyActive(b, env, active))
  {
    hide RequestClear, RequestReport, PlaceOverlay, FindGame;
    var game := FindGame(b, env, active);
    if game.None? {
      ClearForward(b, env);
    } else if env.focus.Some? && env.focus != b.overlay && env.focus != game {
      ReportForward(CancelRetry(b.(candidate := env.focus)), env, env.focus.value, true, MAX_CANDIDATE_RETRIES);
    } else {
      PlaceForward(CancelRetry(b).(game := game, candidate := game), env);
    }
  }

  lemma ApplyForward(b: State, env: Env, payload: Payload)
    ensures Forward(b, ApplySnapshot(b, env, payload))
  {
    hide ApplyActive;
    if payload.Snapshot? && payload.revision >= b.revision && payload.active.Game? {
      ActiveForward(b.(revision := payload.revision, mode := payload.mode), env, payload.active);
    }
  }

  lemma FocusForward(b: State, env: Env, window: Win)
    ensures Forward(b, HandleFocus(b, env, window))
  {
    hide RequestReport, PlaceOverlay, Adds;
    var shown := b.(overlay := Some(window));
    SentForward(b, ShortcutCall(b.generation));
    PlaceForward(shown, env);
    var placed := PlaceOverlay(shown, env);
    if placed.game.Some? {
      ReportForward(placed, env, placed.game.value, true, 0);
      AddsTrans(b.outstanding, placed.outstanding, RequestReport(placed, env, placed.game.value, true, 0).outstanding,
                b.generation);
    }
    var still := CancelRetry(b);
    var left := if still.game.Some? && still.game != Some(window) then ToPassive(still) else still;
    ReportForward(left.(candidate := Some(window)), env, window, true, MAX_CANDIDATE_RETRIES);
  }

  lemma WindowAnsweredForward(b: State, env: Env, callback: Callback, outcome: Outcome)
    requires IsWindow(callback)
    ensures Forward(b, Answered(b, env, callback, outcome))
  {
    hide ApplySnapshot, HandleFocus, Fail, Finish, Adds;
    FailForward(b, env, callback.request, callback.reported);
    FinishForward(b, env);
    SentForward(b, AfterWindow(b.generation, callback.request, callback.reported));
    if outcome.Reply? {
      ApplyForward(b, env, outcome.payload);
      var applied := ApplySnapshot(b, env, outcome.payload);
      FinishForward(applied, env);
      AddsTrans(b.outstanding, applied.outstanding, Finish(applied, env).outstanding, b.generation);
    }
  }

  lemma AnsweredForward(b: State, env: Env, callback: Callback, outcome: Outcome)
    ensures Forward(b, Answered(b, env, callback, outcome))
  {
    hide ApplySnapshot, HandleFocus, Fail, Finish, Adds;
    SentForward(b, PlainSnapshot(b.generation, b.serial));
    if IsWindow(callback) {
      WindowAnsweredForward(b, env, callback, outcome);
    } else if outcome.Reply? {
      ApplyForward(b, env, outcome.payload);
      if env.focus.Some? {
        var applied := ApplySnapshot(b, env, outcome.payload);
        FocusForward(applied, env, env.focus.value);
        FocusForward(b, env, env.focus.value);
        AddsTrans(b.outstanding, applied.outstanding, HandleFocus(applied, env, env.focus.value).outstanding,
                  b.generation);
      }
    }
  }

  lemma FocusNotifiedForward(b: State, env: Env)
    ensures Forward(b, FocusChanged(b, env)) && Forward(b, GraceOver(b, env))
  {
    hide RequestClear, HandleFocus;
    ClearForward(b.(grace := false), env);
    if env.focus.Some? {
      FocusForward(b.(grace := false), env, env.focus.value);
    }
  }

  lemma ChangeForward(b: State, env: Env, w: Win)
    ensures Forward(b, WindowChanged(b, env, w))
  {
    hide RequestReport, PlaceOverlay, Adds;
    var reported := RequestReport(b, env, w, false, 0);
    SentForward(b, ShortcutCall(b.generation));
    PlaceForward(b, env);
    ReportForward(b, env, w, false, 0);
    PlaceForward(reported, env);
    AddsTrans(b.outstanding, reported.outstanding, PlaceOverlay(reported, env).outstanding, b.generation);
  }

  lemma UnmanagedForward(b: State, env: Env, w: Win)
    ensures Forward(b, Unmanaged(b, env, w))
  {
    hide RequestClear;
    ClearForward(b.(windows := b.windows - {w}, candidate := None, game := None), env);
  }

  lemma TimersForward(b: State, env: Env)
    ensures Forward(b, Keepalive(b, env)) && Forward(b, RetryDue(b, env))
  {
    hide RequestReport, Adds;
    SentForward(b, ShortcutCall(b.generation));
    if b.game.Some? {
      ReportForward(b, env, b.game.value, true, 0);
    }
    if b.retry.Some? && b.retry.value.ReportRequest? {
      var request := b.retry.value;
      ReportForward(b.(retry := None, candidate := Some(request.window)), env, request.window, true,
                    request.retries - 1);
    }
  }

  lemma CompositorForward(b: State, env: Env, event: Event)
    requires b.attached
    ensures Forward(b, Compositor(b, env, event))
  {
    hide FocusChanged, GraceOver, IdentityChanged, WindowChanged, Unmanaged, PlaceOverlay, Keepalive, RetryDue,
         ApplySnapshot, Adds;
    SentForward(b, ShortcutCall(b.generation));
    match event {
      case FocusNotified => FocusNotifiedForward(b, env);
      case GraceTimeout => FocusNotifiedForward(b, env);
      case WindowCreated(w) => IdentityForward(b.(windows := b.windows + {w}), env, w);
      case IdentityNotified(w) => IdentityForward(b, env, w);
      case ChangeNotified(w) => ChangeForward(b, env, w);
      case UnmanagedNotified(w) => UnmanagedForward(b, env, w);
      case Restacked => PlaceForward(b, env);
      case KeepaliveTimeout => TimersForward(b, env);
      case RetryTimeout => TimersForward(b, env);
      case Signal(payload) => ApplyForward(b, env, payload);
      case _ =>
    }
  }

  lemma IdentityForward(b: State, env: Env, window: Win)
    ensures Forward(b, IdentityChanged(b, env, window))
  {
    hide RequestReport, PlaceOverlay;
    PlaceForward(b.(overlay := Some(window)), env);
    ReportForward(CancelRetry(b).(candidate := Some(window)), env, window, true, MAX_CANDIDATE_RETRIES);
  }

  /** Whatever is answered leaves the bag first. */
  function Taken(b: State, event: Event): State
  {
    if event.Answer? && event.index < |b.outstanding| then b.(outstanding := Without(b.outstanding, event.index)) else b
  }

  /** Every step goes forward, or starts a new generation: the Core came or went. */
  lemma StepForward(b: State, env: Env, event: Event)
    ensures var a := Step(b, env, event);
            || Forward(Taken(b, event), a)
            || (&& b.generation < a.generation && b.serial < a.serial && b.calls == a.calls
                && Adds(b.outstanding, a.outstanding, a.generation))
  {
    hide Answered, Compositor, LastOverlay;
    match event {
      case Answer(i, outcome) =>
        if i < |b.outstanding| {
          AnsweredForward(Taken(b, event), env, b.outstanding[i], outcome);
        }
      case Start =>
      case Stop =>
      case CoreAppeared(_) =>
      case CoreVanished =>
      case _ => if b.attached { CompositorForward(b, env, event); }
    }
  }

  lemma {:induction false} GenerationsGrow(b: State, history: seq<Happening>)
    ensures b.generation <= Run(b, history).generation && b.serial <= Run(b, history).serial
    ensures b.calls <= Run(b, history).calls
  {
    hide Step;
    if history != [] {
      var last := history[|history| - 1];
      GenerationsGrow(b, history[..|history| - 1]);
      StepForward(Run(b, history[..|history| - 1]), last.env, last.event);
    }
  }

  lemma AddsCount(before: seq<Callback>, after: seq<Callback>, current: nat, generation: nat)
    requires Adds(before, after, current) && generation != current
    ensures LiveCount(after, generation) == LiveCount(before, generation)
  {
    hide LiveCount;
    var added := after[|before|..];
    assert after == before + added;
    CountSplit(before, added, generation);
    NoneLive(added, generation);
  }

  /** Not only in the current one: of every generation at most one window request waits
      for an answer. */
  lemma {:induction false} OnePerGeneration(history: seq<Happening>, generation: nat)
    ensures LiveCount(Run(INITIAL, history).outstanding, generation) <= 1
  {
    hide Step, LiveCount, Settled;
    var after := Run(INITIAL, history);
    SingleFlight(history);
    if history == [] {
      NoneLive([], generation);
    } else if generation != after.generation {
      var front, last := history[..|history| - 1], history[|history| - 1];
      var before := Run(INITIAL, front);
      OnePerGeneration(front, generation);
      StepForward(before, last.env, last.event);
      if last.event.Answer? && last.event.index < |before.outstanding| {
        CountWithout(before.outstanding, last.event.index, generation);
      }
      if Forward(Taken(before, last.event), after) {
        AddsCount(Taken(before, last.event).outstanding, after.outstanding, after.generation, generation);
      } else {
        AddsCount(before.outstanding, after.outstanding, after.generation, generation);
      }
    }
  }

  /** A reply to a call of an earlier Core generation changes nothing, ever: once the Core
      has gone, all that is left of its calls is their entry in the bag. */
  lemma EarlierGenerationsAreDead(b: State, history: seq<Happening>, env: Env, i: nat, outcome: Outcome,
                                  callback: Callback)
    requires callback.generation < b.generation
    requires i < |Run(b, history).outstanding| && Run(b, history).outstanding[i] == callback
    ensures var later := Run(b, history);
            Step(later, env, Answer(i, outcome)) == later.(outstanding := Without(later.outstanding, i))
  {
    hide Answered, Run;
    GenerationsGrow(b, history);
  }
}
