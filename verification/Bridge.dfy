/** The GNOME bridge as a protocol (integrations/gnome/extension.js): an asynchronous
    client of the Core with one window request in flight, one pending request, a fence
    after a clear, snapshot revisions and Core generations. A handler is one atomic step;
    the replies that are still to come are a bag, and any of them may come next. */
module Bridge {
  import opened Common

  const MAX_CANDIDATE_RETRIES: int := 6

  type Win = nat

  datatype Rect = Rect(x: int, y: int, width: int, height: int)

  /** What `_normalizedWindow` returns; two reports are equal when their JSON is. */
  datatype Report = Report(pid: nat, appId: string, rect: Rect, titleAndScale: string)

  datatype Stage = WindowStage | AfterStage | FirstStage | PlainStage | ShortcutStage

  /** What a handler finds in the compositor and on the bus while it runs: the usable
      report of a window, which windows are the overlay's, the focused window, and which
      calls fail at once instead of later. */
  datatype Env = Env(
    report: Win -> Option<Report>, isOverlay: Win -> bool, focus: Option<Win>, listed: seq<Win>,
    throws: (Stage, nat) -> bool)

  datatype Request = ReportRequest(window: Win, retries: int, serial: nat) | ClearRequest(serial: nat)

  /** A call whose reply has not come yet, with the generation it was made in. */
  datatype Callback =
    | WindowReply(generation: nat, request: Request, reported: bool)
    | AfterWindow(generation: nat, request: Request, reported: bool)
    | FirstSnapshot(generation: nat, serial: nat)
    | PlainSnapshot(generation: nat, serial: nat)
    | ShortcutCall(generation: nat)

  /** A `ReportWindow` or `ClearWindow` call made for a request. */
  datatype WindowCall = WindowCall(generation: nat, serial: nat, reported: bool)

  datatype Mode = Passive | Interactive

  datatype Active = NoGame | BadGame | Game(pid: nat, appId: string, rect: Rect)

  datatype Payload = Malformed | BadMode(revision: nat) | Snapshot(revision: nat, mode: Mode, active: Active)

  datatype Outcome = Reply(payload: Payload) | Failure

  /** The bridge's fields. Two are only there to state properties: `newest`, the last
      request queued in this generation, and `calls`, the window calls made so far. */
  datatype State = State(
    started: bool, attached: bool, generation: nat, windows: set<Win>, overlay: Option<Win>, candidate: Option<Win>,
    game: Option<Win>, mode: Mode, revision: int, lastReport: Option<Report>, fence: bool, inFlight: bool,
    pending: Option<Request>, serial: nat, retry: Option<Request>, grace: bool,
    outstanding: seq<Callback>, newest: Option<Request>, calls: seq<WindowCall>)

  const INITIAL := State(false, false, 0, {}, None, None, None, Passive, -1, None, false, false, None, 0, None, false,
                         [], None, [])

  // --- requests ---------------------------------------------------------------------

  function Normalized(env: Env, window: Win): Option<Report>
  {
    if env.isOverlay(window) then None else env.report(window)
  }

  function ToPassive(b: State): State { b.(mode := Passive, candidate := None, game := None) }

  function CancelRetry(b: State): State { b.(retry := None) }

  function Sent(b: State, callback: Callback): State { b.(outstanding := b.outstanding + [callback]) }

  function Pendings(b: State): nat { if b.pending.Some? then 1 else 0 }

  function Dispatch(b: State, env: Env, request: Request): State
    decreases Pendings(b), 2
  {
    var report := if request.ReportRequest? then Normalized(env, request.window) else None;
    var flying := b.(inFlight := true, lastReport := if request.ReportRequest? then report else b.lastReport,
                     calls := b.calls + [WindowCall(b.generation, request.serial, report.Some?)]);
    if env.throws(WindowStage, request.serial) then Fail(flying, env, request, report.Some?)
    else Sent(flying, WindowReply(b.generation, request, report.Some?))
  }

  function Fail(b: State, env: Env, request: Request, reported: bool): State
    decreases Pendings(b), 1
  {
    var current := request.serial == b.serial;
    var finished := Finish(if current then ToPassive(b) else b, env);
    if current && reported then ScheduleRetry(finished, env, request) else finished
  }

  function Finish(b: State, env: Env): State
    decreases Pendings(b), 0
  {
    var landed := b.(inFlight := false, pending := None);
    if b.pending.Some? then Dispatch(landed, env, b.pending.value) else landed
  }

  function ScheduleRetry(b: State, env: Env, request: Request): State
  {
    var b := CancelRetry(b);
    if !request.ReportRequest? || request.retries <= 0 || !b.attached || Normalized(env, request.window).None? then b
    else b.(candidate := Some(request.window), retry := Some(request))
  }

  function Queue(b: State, env: Env, request: Request): State
  {
    var b := b.(newest := Some(request));
    if b.inFlight then b.(pending := Some(request)) else Dispatch(b, env, request)
  }

  function RequestClear(b: State, env: Env): State
  {
    var b := ToPassive(CancelRetry(b)).(lastReport := None, fence := true, serial := b.serial + 1);
    Queue(b, env, ClearRequest(b.serial))
  }

  function RequestReport(b: State, env: Env, window: Win, force: bool, retries: int): State
  {
    var report := Normalized(env, window);
    if report.None? then
      if b.game == Some(window) || b.candidate == Some(window) then RequestClear(b, env) else b
    else if !force && report == b.lastReport then b
    else
      var b := b.(fence := false, serial := b.serial + 1);
      Queue(b, env, ReportRequest(window, retries, b.serial))
  }

  // --- snapshots --------------------------------------------------------------------

  function Matching(b: State, env: Env, game: Active): set<Win>
    requires game.Game?
  {
    set w | w in b.windows && Normalized(env, w).Some?
            && Normalized(env, w).value.pid == game.pid && Normalized(env, w).value.appId == game.appId
  }

  function MatchingExactly(b: State, env: Env, game: Active): set<Win>
    requires game.Game?
  {
    set w | w in Matching(b, env, game) && Normalized(env, w).value.rect == game.rect
  }

  /** `_findGameWindow`: the focused match, else the only exact one, else the only one. */
  ghost function FindGame(b: State, env: Env, game: Active): Option<Win>
    requires game.Game?
  {
    var matching, exact := Matching(b, env, game), MatchingExactly(b, env, game);
    if env.focus.Some? && env.focus.value in matching then env.focus
    else if |exact| == 1 then var w :| w in exact; Some(w)
    else if |matching| == 1 then var w :| w in matching; Some(w)
    else None
  }

  function PlaceOverlay(b: State, env: Env): State
  {
    if b.overlay.Some? && b.game.Some? && Normalized(env, b.game.value).None? then RequestClear(b, env) else b
  }

  ghost function ApplySnapshot(b: State, env: Env, payload: Payload): State
  {
    if payload.Malformed? then ToPassive(b)
    else if payload.revision < b.revision then b
    else
      var b := b.(revision := payload.revision);
      if payload.BadMode? then ToPassive(b)
      else
        var b := b.(mode := payload.mode);
        if b.fence || !payload.active.Game? then ToPassive(b) else ApplyActive(b, env, payload.active)
  }

  /** The Core names a game: its window becomes current, unless it cannot be found or
      another window has the focus. */
  ghost function ApplyActive(b: State, env: Env, active: Active): State
    requires active.Game?
  {
    var game := FindGame(b, env, active);
    if game.None? then RequestClear(b, env)
    else if env.focus.Some? && env.focus != b.overlay && env.focus != game then
      RequestReport(CancelRetry(b.(candidate := env.focus)), env, env.focus.value, true, MAX_CANDIDATE_RETRIES)
    else
      PlaceOverlay(CancelRetry(b).(game := game, candidate := game), env)
  }

  function HandleFocus(b: State, env: Env, window: Win): State
  {
    if !b.attached then b
    else if env.isOverlay(window) then
      var b := PlaceOverlay(b.(overlay := Some(window)), env);
      if b.game.Some? && b.mode.Interactive? then RequestReport(b, env, b.game.value, true, 0) else b
    else
      var b := CancelRetry(b);
      if b.mode.Interactive? && b.game == Some(window) && b.overlay.Some? then b
      else
        var b := if b.game.Some? && b.game != Some(window) then ToPassive(b) else b;
        RequestReport(b.(candidate := Some(window)), env, window, true, MAX_CANDIDATE_RETRIES)
  }

  // --- the Core comes and goes -------------------------------------------------------

  /** Everything about the Core that went is forgotten, except the answers to come. */
  function Detach(b: State): State
  {
    State(b.started, false, b.generation + 1, {}, None, None, None, Passive, -1, None, false, false, None,
          b.serial + 1, None, false, b.outstanding, None, b.calls)
  }

  function LastOverlay(env: Env, listed: seq<Win>): Option<Win>
  {
    if listed == [] then None
    else if env.isOverlay(listed[|listed| - 1]) then Some(listed[|listed| - 1])
    else LastOverlay(env, listed[..|listed| - 1])
  }

  function Attach(b: State, env: Env): State
  {
    var b := Detach(b);
    var b := b.(attached := true, generation := b.generation + 1, windows := (set w | w in env.listed),
                overlay := LastOverlay(env, env.listed));
    if env.throws(FirstStage, b.serial) then b else Sent(b, FirstSnapshot(b.generation, b.serial))
  }

  // --- handlers ---------------------------------------------------------------------

  function IdentityChanged(b: State, env: Env, window: Win): State
  {
    if env.isOverlay(window) then PlaceOverlay(b.(overlay := Some(window)), env)
    else if env.focus != Some(window) then b
    else RequestReport(CancelRetry(b).(candidate := Some(window)), env, window, true, MAX_CANDIDATE_RETRIES)
  }

  function WindowChanged(b: State, env: Env, window: Win): State
  {
    if b.overlay == Some(window) then PlaceOverlay(b, env)
    else if b.game == Some(window) || b.candidate == Some(window) then
      PlaceOverlay(RequestReport(b, env, window, false, 0), env)
    else b
  }

  function Unmanaged(b: State, env: Env, window: Win): State
  {
    var b := b.(windows := b.windows - {window});
    if b.overlay == Some(window) then b.(overlay := None)
    else if b.game == Some(window) || b.candidate == Some(window) then
      RequestClear(b.(candidate := None, game := None), env)
    else b
  }

  function FocusChanged(b: State, env: Env): State
  {
    if env.focus.None? then b.(grace := true) else HandleFocus(b.(grace := false), env, env.focus.value)
  }

  function GraceOver(b: State, env: Env): State
  {
    var b := b.(grace := false);
    if env.focus.None? then RequestClear(b, env) else HandleFocus(b, env, env.focus.value)
  }

  function Keepalive(b: State, env: Env): State
  {
    if b.game.Some? && (env.focus == b.game || env.focus == b.overlay) then RequestReport(b, env, b.game.value, true, 0)
    else b
  }

  function RetryDue(b: State, env: Env): State
  {
    if !(b.retry.Some? && b.retry.value.ReportRequest?) then b
    else
      var request := b.retry.value;
      var b := b.(retry := None);
      if env.focus != Some(request.window) && env.focus != b.overlay then b
      else RequestReport(b.(candidate := Some(request.window)), env, request.window, true, request.retries - 1)
  }

  /** A reply, or the failure of a call, from the current generation. */
  ghost function Answered(b: State, env: Env, callback: Callback, outcome: Outcome): State
  {
    match callback
    case WindowReply(_, request, reported) =>
      if outcome.Failure? || env.throws(AfterStage, request.serial) then Fail(b, env, request, reported)
      else Sent(b, AfterWindow(b.generation, request, reported))
    case AfterWindow(_, request, reported) =>
      if outcome.Failure? then Fail(b, env, request, reported)
      else
        var b := if request.serial == b.serial then ApplySnapshot(b, env, outcome.payload) else b;
        var current := request.serial == b.serial;
        var accepted := current && request.ReportRequest? && b.game == Some(request.window);
        var finished := Finish(b, env);
        if current && reported && !accepted then ScheduleRetry(finished, env, request) else finished
    case FirstSnapshot(_, serial) =>
      if outcome.Failure? then b
      else
        var b := if serial == b.serial then ApplySnapshot(b, env, outcome.payload) else b;
        if env.focus.Some? then HandleFocus(b, env, env.focus.value) else b
    case PlainSnapshot(_, serial) =>
      if outcome.Reply? && serial == b.serial then ApplySnapshot(b, env, outcome.payload) else b
    case ShortcutCall(_) =>
      if outcome.Failure? || env.throws(PlainStage, b.serial) then b else Sent(b, PlainSnapshot(b.generation, b.serial))
  }

  function Without(callbacks: seq<Callback>, i: nat): seq<Callback>
    requires i < |callbacks|
  {
    callbacks[..i] + callbacks[i + 1..]
  }

  ghost function Deliver(b: State, env: Env, i: nat, outcome: Outcome): State
    requires i < |b.outstanding|
  {
    var callback := b.outstanding[i];
    var b := b.(outstanding := Without(b.outstanding, i));
    if callback.generation != b.generation || !b.attached then b else Answered(b, env, callback, outcome)
  }

  datatype Event =
    | Start | Stop | CoreAppeared(named: bool) | CoreVanished
    | FocusNotified | GraceTimeout | WindowCreated(window: Win) | IdentityNotified(window: Win)
    | ChangeNotified(window: Win) | UnmanagedNotified(window: Win) | Restacked
    | KeepaliveTimeout | RetryTimeout | Accelerator | Signal(payload: Payload)
    | Answer(index: nat, outcome: Outcome)

  /** The signals and timers below exist only while a Core is attached. */
  ghost function Compositor(b: State, env: Env, event: Event): State
    requires b.attached
  {
    match event
    case FocusNotified => FocusChanged(b, env)
    case GraceTimeout => if b.grace then GraceOver(b, env) else b
    case WindowCreated(w) => IdentityChanged(b.(windows := b.windows + {w}), env, w)
    case IdentityNotified(w) => IdentityChanged(b, env, w)
    case ChangeNotified(w) => WindowChanged(b, env, w)
    case UnmanagedNotified(w) => Unmanaged(b, env, w)
    case Restacked => PlaceOverlay(b, env)
    case KeepaliveTimeout => Keepalive(b, env)
    case RetryTimeout => RetryDue(b, env)
    case Accelerator => if env.throws(ShortcutStage, b.serial) then b else Sent(b, ShortcutCall(b.generation))
    case Signal(payload) => ApplySnapshot(b, env, payload)
    case _ => b
  }

  ghost function Step(b: State, env: Env, event: Event): State
  {
    match event
    case Start => b.(started := true)
    case Stop => if b.started then Detach(b).(started := false) else b
    case CoreAppeared(named) => if b.started && named then Attach(b, env) else b
    case CoreVanished => if b.attached then Detach(b) else b
    case Answer(i, outcome) => if i < |b.outstanding| then Deliver(b, env, i, outcome) else b
    case _ => if b.attached then Compositor(b, env, event) else b
  }

  datatype Happening = Happening(env: Env, event: Event)

  ghost function Run(b: State, history: seq<Happening>): State
  {
    if history == [] then b
    else Step(Run(b, history[..|history| - 1]), history[|history| - 1].env, history[|history| - 1].event)
  }
}
