/** The update controller (crates/overcrow-control/src/updates.rs) as a machine of threads:
    a step is one clock reading, one return of an outside call, or one critical section.
    Any thread may try to begin an operation at any time. */
module Updates {
  import opened Common
  import opened UpdateRelease

  const SECOND := 1_000_000_000
  const MANUAL_CHECK_INTERVAL := 60 * SECOND
  const AUTOMATIC_CHECK_INTERVAL := 6 * 60 * 60 * SECOND

  function Interval(force: bool): int { if force then MANUAL_CHECK_INTERVAL else AUTOMATIC_CHECK_INTERVAL }

  datatype Phase =
    | Idle | Checking | UpToDate | Available | Manual | Downloading | Installing | Installed | RestartRequired | Failed

  datatype UpdateError =
    | InvalidResponse | OperationBusy | Unavailable | Network | TimedOut | UntrustedRedirect | DownloadTooLarge
    | DigestMismatch | UnsafeCache | Download | RuntimeStop | AuthorizationCancelled | Installation | OpenPage

  datatype Reply<+T> = Returned(value: T) | Raised(error: UpdateError)

  datatype Inner = Inner(
    phase: Phase, latest: Option<Version>, lastChecked: Option<int>, error: Option<UpdateError>,
    candidate: Option<UpdateCandidate>, lastAttempt: Option<int>)

  /** What happened, in order; failed calls leave no event. */
  datatype Event =
    | Read(now: int)
    | Attempt(now: int, force: bool)
    | Found(candidate: Option<UpdateCandidate>)
    | Downloaded(package: UpdateCandidate)
    | Stopped
    | InstallerRan(package: UpdateCandidate)

  /** Where a thread that holds the operation guard stands. */
  datatype Position =
    | CheckStart(force: bool)
    | Gate(force: bool, now: int)
    | Announce(force: bool, now: int)
    | Query(now: int)
    | Settle(now: int, found: Option<UpdateCandidate>)
    | InstallStart
    | DownloadDue(package: UpdateCandidate)
    | Fetch(package: UpdateCandidate)
    | StopDue(package: UpdateCandidate)
    | InstallDue(package: UpdateCandidate)
    | Install(package: UpdateCandidate)
    | Conclude(restart: bool)
    | Fail(error: UpdateError)
    | Finishing

  /** `manual`: the package target is the manual one. */
  datatype State = State(manual: bool, inner: Inner, busy: bool, threads: map<nat, Position>, history: seq<Event>)

  function Initial(manual: bool): State
  {
    State(manual, Inner(Idle, None, None, None, None, None), false, map[], [])
  }

  datatype Step =
    | BeginCheck(thread: nat, force: bool)
    | BeginInstall(thread: nat)
    | Clock(thread: nat, now: int)
    | Proceed(thread: nat)
    | Queried(thread: nat, found: Reply<Option<UpdateCandidate>>)
    | Fetched(thread: nat, outcome: Reply<()>)
    | RuntimeStopped(thread: nat, outcome: Reply<()>)
    | PackageInstalled(thread: nat, restart: Reply<bool>)

  // --- critical sections ------------------------------------------------------------

  predicate TooSoon(last: Option<int>, now: int, force: bool)
  {
    last.Some? && now >= last.value && now - last.value < Interval(force)
  }

  predicate Installable(manual: bool, candidate: Option<UpdateCandidate>)
  {
    candidate.Some? && candidate.value.asset.Some? && !manual
  }

  function Announced(inner: Inner, now: int): Inner
  {
    inner.(lastAttempt := Some(now), candidate := None, phase := Checking, latest := None, error := None)
  }

  function Settled(manual: bool, inner: Inner, now: int, found: Option<UpdateCandidate>): Inner
  {
    var inner := inner.(lastChecked := Some(now), error := None);
    match found
    case None => inner.(phase := UpToDate, latest := None, candidate := None)
    case Some(candidate) =>
      inner.(latest := Some(candidate.version), candidate := found,
             phase := if manual || candidate.asset.None? then Manual else Available)
  }

  function Entered(inner: Inner, phase: Phase): Inner { inner.(phase := phase, error := None) }

  function FailedWith(inner: Inner, error: UpdateError): Inner { inner.(phase := Failed, error := Some(error)) }

  // --- steps ------------------------------------------------------------------------

  function Begin(s: State, thread: nat, position: Position): State
  {
    if s.busy || thread in s.threads then s else s.(busy := true, threads := s.threads[thread := position])
  }

  function Go(s: State, thread: nat, position: Position): State { s.(threads := s.threads[thread := position]) }

  function Log(s: State, event: Event): State { s.(history := s.history + [event]) }

  function Section(s: State, thread: nat): State
    requires thread in s.threads
  {
    match s.threads[thread]
    case Gate(force, now) =>
      Go(s, thread, if TooSoon(s.inner.lastAttempt, now, force) then Finishing else Announce(force, now))
    case Announce(force, now) =>
      Go(Log(s, Attempt(now, force)), thread, Query(now)).(inner := Announced(s.inner, now))
    case Settle(now, found) =>
      Go(Log(s, Found(found)), thread, Finishing).(inner := Settled(s.manual, s.inner, now, found))
    case InstallStart =>
      var due := Installable(s.manual, s.inner.candidate);
      Go(s, thread, if due then DownloadDue(s.inner.candidate.value) else Finishing)
    case DownloadDue(package) =>
      Go(s, thread, Fetch(package)).(inner := Entered(s.inner, Downloading))
    case InstallDue(package) =>
      Go(Log(s, InstallerRan(package)), thread, Install(package)).(inner := Entered(s.inner, Installing))
    case Conclude(restart) =>
      Go(s, thread, Finishing).(inner := Entered(s.inner, if restart then RestartRequired else Installed))
    case Fail(error) => Go(s, thread, Finishing).(inner := FailedWith(s.inner, error))
    case Finishing => s.(busy := false, threads := s.threads - {thread})
    case _ => s
  }

  function Next(s: State, step: Step): State
  {
    if step.BeginCheck? then Begin(s, step.thread, CheckStart(step.force))
    else if step.BeginInstall? then Begin(s, step.thread, InstallStart)
    else if step.thread !in s.threads then s
    else
      match (s.threads[step.thread], step)
      case (CheckStart(force), Clock(t, now)) => Go(Log(s, Read(now)), t, Gate(force, now))
      case (Query(now), Queried(t, Returned(found))) => Go(s, t, Settle(now, found))
      case (Query(_), Queried(t, Raised(error))) => Go(s, t, Fail(error))
      case (Fetch(package), Fetched(t, Returned(_))) => Go(Log(s, Downloaded(package)), t, StopDue(package))
      case (Fetch(_), Fetched(t, Raised(error))) => Go(s, t, Fail(error))
      case (StopDue(package), RuntimeStopped(t, Returned(_))) => Go(Log(s, Stopped), t, InstallDue(package))
      case (StopDue(_), RuntimeStopped(t, Raised(error))) => Go(s, t, Fail(error))
      case (Install(_), PackageInstalled(t, Returned(restart))) => Go(s, t, Conclude(restart))
      case (Install(_), PackageInstalled(t, Raised(error))) => Go(s, t, Fail(error))
      case (_, Proceed(t)) => Section(s, t)
      case _ => s
  }

  function Run(s: State, steps: seq<Step>): State
  {
    if steps == [] then s else Next(Run(s, steps[..|steps| - 1]), steps[|steps| - 1])
  }

  // --- what the history says --------------------------------------------------------

  /** The candidate due to the history: that of the last completed query, none while one
      is under way or after one that failed. */
  function CandidateAfter(history: seq<Event>): Option<UpdateCandidate>
  {
    if history == [] then None
    else
      match history[|history| - 1]
      case Attempt(_, _) => None
      case Found(candidate) => candidate
      case _ => CandidateAfter(history[..|history| - 1])
  }

  function LastAttempt(history: seq<Event>): Option<int>
  {
    if history == [] then None
    else if history[|history| - 1].Attempt? then Some(history[|history| - 1].now)
    else LastAttempt(history[..|history| - 1])
  }

  /** The last event that is not a mere look at the clock. */
  function LastDeed(history: seq<Event>): Option<Event>
  {
    if history == [] then None
    else if history[|history| - 1].Read? then LastDeed(history[..|history| - 1])
    else Some(history[|history| - 1])
  }

  /** The `k`-th event is one the controller may produce after those before it: a query is
      attempted at the time just read and not too soon after the last attempt, and the
      installer runs on an installable candidate of the last query, right after that
      candidate's download and a successful stop of the runtime. */
  predicate Lawful(manual: bool, history: seq<Event>, k: nat)
    requires k < |history|
  {
    match history[k]
    case Attempt(now, force) => k > 0 && history[k - 1] == Read(now) && !TooSoon(LastAttempt(history[..k]), now, force)
    case InstallerRan(package) =>
      && k > 1 && history[k - 2] == Downloaded(package) && history[k - 1] == Stopped
      && CandidateAfter(history[..k]) == Some(package) && Installable(manual, Some(package))
    case _ => true
  }

  // --- invariant --------------------------------------------------------------------

  predicate Transient(phase: Phase) { phase.Checking? || phase.Downloading? || phase.Installing? }

  /** What callers see of the state. */
  predicate Coherent(s: State)
  {
    && (s.inner.error.Some? <==> s.inner.phase.Failed?)
    && s.inner.latest == (if s.inner.candidate.Some? then Some(s.inner.candidate.value.version) else None)
    && (Transient(s.inner.phase) ==> s.busy)
    && match s.inner.phase
       case Idle => s.inner.candidate.None? && s.inner.lastAttempt.None?
       case Checking => s.inner.candidate.None?
       case UpToDate => s.inner.candidate.None? && s.inner.lastChecked.Some?
       case Manual => s.inner.candidate.Some? && !Installable(s.manual, s.inner.candidate)
       case Available => Installable(s.manual, s.inner.candidate)
       case Downloading => Installable(s.manual, s.inner.candidate)
       case Installing => Installable(s.manual, s.inner.candidate)
       case Installed => JustRan(s)
       case RestartRequired => JustRan(s)
       case Failed => true
  }

  /** The last thing done was to run the installer on the current candidate. */
  predicate JustRan(s: State)
  {
    s.inner.candidate.Some? && LastDeed(s.history) == Some(InstallerRan(s.inner.candidate.value))
  }

  predicate EndsWith(history: seq<Event>, events: seq<Event>)
  {
    |history| >= |events| && history[|history| - |events|..] == events
  }

  predicate Chosen(s: State, package: UpdateCandidate)
  {
    s.inner.candidate == Some(package) && Installable(s.manual, Some(package))
  }

  /** What holds while a thread stands at a position. */
  predicate Fits(s: State, position: Position)
  {
    match position
    case CheckStart(_) => !Transient(s.inner.phase)
    case Gate(_, now) => !Transient(s.inner.phase) && EndsWith(s.history, [Read(now)])
    case Announce(force, now) =>
      !Transient(s.inner.phase) && EndsWith(s.history, [Read(now)]) && !TooSoon(s.inner.lastAttempt, now, force)
    case Query(_) => s.inner.phase.Checking? && s.inner.candidate.None?
    case Settle(_, _) => s.inner.phase.Checking? && s.inner.candidate.None?
    case InstallStart => !Transient(s.inner.phase)
    case DownloadDue(package) => !Transient(s.inner.phase) && Chosen(s, package)
    case Fetch(package) => s.inner.phase.Downloading? && Chosen(s, package)
    case StopDue(package) =>
      s.inner.phase.Downloading? && Chosen(s, package) && EndsWith(s.history, [Downloaded(package)])
    case InstallDue(package) =>
      s.inner.phase.Downloading? && Chosen(s, package) && EndsWith(s.history, [Downloaded(package), Stopped])
    case Install(package) => s.inner.phase.Installing? && Chosen(s, package) && JustRan(s)
    case Conclude(_) => s.inner.phase.Installing? && JustRan(s)
    case Fail(_) => Transient(s.inner.phase)
    case Finishing => !Transient(s.inner.phase)
  }

  /** No two operations overlap. */
  predicate Exclusive(s: State)
  {
    && (s.busy <==> s.threads != map[])
    && forall t, u :: t in s.threads && u in s.threads ==> t == u
  }

  predicate Recorded(s: State)
  {
    && s.inner.candidate == CandidateAfter(s.history)
    && s.inner.lastAttempt == LastAttempt(s.history)
    && forall k :: 0 <= k < |s.history| ==> Lawful(s.manual, s.history, k)
  }

  predicate Invariant(s: State)
  {
    && Exclusive(s) && Coherent(s) && Recorded(s)
    && forall t :: t in s.threads ==> Fits(s, s.threads[t])
  }
}
