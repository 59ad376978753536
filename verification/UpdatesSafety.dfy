/** The invariant of the update controller over every interleaving, and the spacing of
    its release queries. */
module UpdatesSafety {
  import opened Common
  import opened UpdateRelease
  import opened Updates

  lemma Appended(manual: bool, history: seq<Event>, event: Event)
    requires forall k :: 0 <= k < |history| ==> Lawful(manual, history, k)
    requires Lawful(manual, history + [event], |history|)
    ensures forall k :: 0 <= k < |history + [event]| ==> Lawful(manual, history + [event], k)
    ensures (history + [event])[..|history|] == history
  {
    var after := history + [event];
    assert after[..|history|] == history;
    forall k | 0 <= k < |history|
      ensures Lawful(manual, after, k)
    {
      assert after[..k] == history[..k];
      assert Lawful(manual, history, k);
    }
  }

  /** The thread that holds the guard moves on, alone. */
  lemma Moved(s: State, thread: nat, after: State)
    requires Exclusive(s) && thread in s.threads
    requires after.busy && thread in after.threads && after.threads == s.threads[thread := after.threads[thread]]
    requires Coherent(after) && Recorded(after) && Fits(after, after.threads[thread])
    ensures Invariant(after)
  {
    hide Coherent, Recorded, Fits;
    assert forall t :: t in after.threads ==> t == thread;
  }

  lemma Left(s: State, thread: nat)
    requires Invariant(s) && thread in s.threads && s.threads[thread].Finishing?
    ensures Invariant(Section(s, thread))
  {
    hide Lawful, EndsWith;
    var after := Section(s, thread);
    assert Fits(s, Finishing);
    assert after.threads == map[];
  }

  lemma AnnounceKeeps(s: State, thread: nat)
    requires Invariant(s) && thread in s.threads && s.threads[thread].Announce?
    ensures Invariant(Section(s, thread))
  {
    hide Lawful, EndsWith;
    var position := s.threads[thread];
    assert Fits(s, position);
    AttemptLawful(s, position.force, position.now);
    Appended(s.manual, s.history, Attempt(position.now, position.force));
    Moved(s, thread, Section(s, thread));
  }

  lemma SettleKeeps(s: State, thread: nat)
    requires Invariant(s) && thread in s.threads && s.threads[thread].Settle?
    ensures Invariant(Section(s, thread))
  {
    hide Lawful, EndsWith;
    var position := s.threads[thread];
    assert Fits(s, position);
    PlainLawful(s.manual, s.history, Found(position.found));
    Appended(s.manual, s.history, Found(position.found));
    Moved(s, thread, Section(s, thread));
  }

  lemma InstallDueKeeps(s: State, thread: nat)
    requires Invariant(s) && thread in s.threads && s.threads[thread].InstallDue?
    ensures Invariant(Section(s, thread))
  {
    hide Lawful, EndsWith;
    var position := s.threads[thread];
    assert Fits(s, position);
    InstallerLawful(s, position.package);
    Appended(s.manual, s.history, InstallerRan(position.package));
    Moved(s, thread, Section(s, thread));
  }

  lemma SectionKeeps(s: State, thread: nat)
    requires Invariant(s) && thread in s.threads
    ensures Invariant(Section(s, thread))
  {
    hide Lawful, EndsWith, CandidateAfter, LastAttempt;
    var position := s.threads[thread];
    if position.Announce? {
      AnnounceKeeps(s, thread);
    } else if position.Settle? {
      SettleKeeps(s, thread);
    } else if position.InstallDue? {
      InstallDueKeeps(s, thread);
    } else if position.Finishing? {
      Left(s, thread);
    } else {
      assert Fits(s, position);
      Moved(s, thread, Section(s, thread));
    }
  }

  lemma AttemptLawful(s: State, force: bool, now: int)
    requires Recorded(s) && Fits(s, Announce(force, now))
    ensures Lawful(s.manual, s.history + [Attempt(now, force)], |s.history|)
  {
    assert (s.history + [Attempt(now, force)])[..|s.history|] == s.history;
    assert s.history[|s.history| - 1..][0] == Read(now);
  }

  lemma InstallerLawful(s: State, package: UpdateCandidate)
    requires Recorded(s) && Fits(s, InstallDue(package))
    ensures Lawful(s.manual, s.history + [InstallerRan(package)], |s.history|)
  {
    assert (s.history + [InstallerRan(package)])[..|s.history|] == s.history;
    assert s.history[|s.history| - 2..][0] == Downloaded(package) && s.history[|s.history| - 2..][1] == Stopped;
  }

  lemma PlainLawful(manual: bool, history: seq<Event>, event: Event)
    requires !event.Attempt? && !event.InstallerRan?
    ensures Lawful(manual, history + [event], |history|)
  {
  }

  lemma Logged(s: State, thread: nat, event: Event, position: Position)
    requires Coherent(s) && Recorded(s)
    requires event.Read? || (s.inner.phase.Downloading? && (event.Downloaded? || event.Stopped?))
    ensures var after := Go(Log(s, event), thread, position);
            Coherent(after) && Recorded(after) && Fits(after, position) == Fits(Log(s, event), position)
  {
    hide Lawful;
    PlainLawful(s.manual, s.history, event);
    Appended(s.manual, s.history, event);
  }

  /** An event that needs no leave is recorded and the thread moves on. */
  lemma LogKeeps(s: State, thread: nat, event: Event, position: Position)
    requires Invariant(s) && thread in s.threads
    requires event.Read? || (s.inner.phase.Downloading? && (event.Downloaded? || event.Stopped?))
    requires Fits(Log(s, event), position)
    ensures Invariant(Go(Log(s, event), thread, position))
  {
    hide Lawful, Fits, Coherent, Recorded;
    Logged(s, thread, event, position);
    Moved(s, thread, Go(Log(s, event), thread, position));
  }

  lemma StepKeeps(s: State, step: Step)
    requires Invariant(s)
    ensures Invariant(Next(s, step))
  {
    hide Lawful, Section, CandidateAfter, LastAttempt;
    if !step.BeginCheck? && !step.BeginInstall? && step.thread in s.threads {
      var position := s.threads[step.thread];
      assert Fits(s, position);
      if step.Proceed? {
        SectionKeeps(s, step.thread);
      } else if position.CheckStart? && step.Clock? {
        LogKeeps(s, step.thread, Read(step.now), Gate(position.force, step.now));
      } else if position.Fetch? && step.Fetched? && step.outcome.Returned? {
        LogKeeps(s, step.thread, Downloaded(position.package), StopDue(position.package));
      } else if position.StopDue? && step.RuntimeStopped? && step.outcome.Returned? {
        StopLogged(s.history, position.package);
        LogKeeps(s, step.thread, Stopped, InstallDue(position.package));
      } else if Next(s, step) != s {
        Moved(s, step.thread, Next(s, step));
      }
    }
  }

  lemma StopLogged(history: seq<Event>, package: UpdateCandidate)
    requires EndsWith(history, [Downloaded(package)])
    ensures EndsWith(history + [Stopped], [Downloaded(package), Stopped])
  {
    assert (history + [Stopped])[|history| - 1..] == history[|history| - 1..] + [Stopped];
  }

  lemma InitialKeeps(manual: bool)
    ensures Invariant(Initial(manual))
  {
  }

  /** Over every interleaving of any number of threads: no two operations overlap; what
      callers see is coherent (an error exactly in phase Failed, the latest version that of
      the candidate, Available only with an installable asset, transient phases only while
      an operation is active); and every event of the history is lawful. */
  lemma {:induction false} RunKeeps(manual: bool, steps: seq<Step>)
    ensures Invariant(Run(Initial(manual), steps)) && Run(Initial(manual), steps).manual == manual
  {
    hide Invariant, Lawful;
    InitialKeeps(manual);
    if steps != [] {
      hide Initial;
      RunKeeps(manual, steps[..|steps| - 1]);
      StepKeeps(Run(Initial(manual), steps[..|steps| - 1]), steps[|steps| - 1]);
    }
  }

  // --- spacing ----------------------------------------------------------------------

  predicate ClockMonotone(history: seq<Event>)
  {
    forall i, j :: 0 <= i < j < |history| && history[i].Read? && history[j].Read? ==> history[i].now <= history[j].now
  }

  /** The last attempt before a later one lies between any earlier one and that one. */
  lemma {:induction false} LastAttemptBetween(manual: bool, history: seq<Event>, i: nat, end: nat, j: nat)
    requires forall k :: 0 <= k < |history| ==> Lawful(manual, history, k)
    requires ClockMonotone(history)
    requires i < end <= j < |history| && history[i].Attempt? && history[j].Attempt?
    ensures LastAttempt(history[..end]).Some? && history[i].now <= LastAttempt(history[..end]).value <= history[j].now
  {
    assert history[..end][..end - 1] == history[..end - 1];
    if history[end - 1].Attempt? {
      assert Lawful(manual, history, i) && Lawful(manual, history, end - 1) && Lawful(manual, history, j);
    } else {
      LastAttemptBetween(manual, history, i, end - 1, j);
    }
  }

  /** With a clock that does not run backwards, any two release queries are at least the
      interval of the later one apart: 60 seconds for a forced check, 6 hours otherwise. */
  lemma QueriesSpaced(manual: bool, steps: seq<Step>, i: nat, j: nat)
    requires var history := Run(Initial(manual), steps).history;
             i < j < |history| && history[i].Attempt? && history[j].Attempt? && ClockMonotone(history)
    ensures var history := Run(Initial(manual), steps).history;
            history[j].now - history[i].now >= Interval(history[j].force)
  {
    hide Run, LastAttempt;
    RunKeeps(manual, steps);
    var history := Run(Initial(manual), steps).history;
    LastAttemptBetween(manual, history, i, j, j);
    assert Lawful(manual, history, j);
  }
}
