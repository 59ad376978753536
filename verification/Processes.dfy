/** The process table, the identity of a process and the user's allowlist
    (crates/overcrow-core/src/classifier.rs, crates/overcrow-config/src/allowlist.rs).
    What one process says about itself (its own Steam id, its executable, whether
    its texts look game related) is part of the table. */
module Processes {
  import opened Common

  const MAX_ANCESTORS: nat := 64
  const SETTINGS_SCHEMA_VERSION: nat := 1
  const DURATION_MAX: nat := 0x1_0000_0000_0000_0000 * 1_000_000_000 - 1

  type Pid = nat
  type Path = string
  type SteamId = x: nat | 0 < x < 0x1_0000_0000 witness 1

  /** Nanoseconds on the monotonic clock, and of a duration. */
  type Instant = nat
  type Duration = x: nat | x <= DURATION_MAX

  function SaturatingAdd(a: Duration, b: nat): Duration { Min(a + b, DURATION_MAX) }

  /** `saturating_duration_since`. */
  function Since(now: Instant, earlier: Instant): nat { if earlier <= now then now - earlier else 0 }

  datatype Timing = Timing(elapsed: Duration, observedAt: Instant)

  /** `ProcessTiming::elapsed_at`. */
  function ElapsedAt(timing: Timing, now: Instant): Duration
  {
    SaturatingAdd(timing.elapsed, Since(now, timing.observedAt))
  }

  datatype Resources = Resources(cpuTicks: nat, residentBytes: nat)

  datatype ProcessInfo = ProcessInfo(
    parent: Pid, startTicks: nat, timing: Option<Timing>, resources: Resources,
    steamId: Option<SteamId>, executable: Option<Path>, gameRelated: bool)

  type Table = map<Pid, ProcessInfo>

  datatype Identity = Identity(steamId: Option<SteamId>, executables: seq<Path>, candidate: bool)

  // --- identity by ancestry ---------------------------------------------------------

  /** A process and its ancestors, nearest first, at most `n` of them; the table may
      contain cycles, and they are simply walked round. */
  function Ancestry(table: Table, pid: Pid, n: nat): seq<ProcessInfo>
    decreases n
  {
    if n == 0 || pid !in table then [] else [table[pid]] + Ancestry(table, table[pid].parent, n - 1)
  }

  lemma AncestryStep(table: Table, pid: Pid, n: nat)
    ensures Ancestry(table, pid, n)
            == if n == 0 || pid !in table then [] else [table[pid]] + Ancestry(table, table[pid].parent, n - 1)
  {
  }

  function NearestSteamId(line: seq<ProcessInfo>): Option<SteamId>
  {
    if line == [] then None
    else
      var nearer := NearestSteamId(line[..|line| - 1]);
      if nearer.Some? then nearer else line[|line| - 1].steamId
  }

  function DistinctExecutables(line: seq<ProcessInfo>): seq<Path>
  {
    if line == [] then []
    else
      var nearer := DistinctExecutables(line[..|line| - 1]);
      var executable := line[|line| - 1].executable;
      if executable.Some? && executable.value !in nearer then nearer + [executable.value] else nearer
  }

  predicate AnyGameRelated(line: seq<ProcessInfo>) { exists p :: p in line && p.gameRelated }

  function IdentityOf(line: seq<ProcessInfo>): Identity
  {
    var steamId := NearestSteamId(line);
    Identity(steamId, DistinctExecutables(line), AnyGameRelated(line) || steamId.Some?)
  }

  /** What `classify_process_identity` means: a summary of the nearest 64 processes
      of the line of ancestors, with no cycle detection. */
  function Classify(pid: Pid, table: Table): Identity { IdentityOf(Ancestry(table, pid, MAX_ANCESTORS)) }

  lemma {:induction false} ExecutablesListed(line: seq<ProcessInfo>)
    ensures forall e :: e in DistinctExecutables(line) <==> exists p :: p in line && p.executable == Some(e)
  {
    if line != [] {
      var front, last := line[..|line| - 1], line[|line| - 1];
      assert line == front + [last];
      ExecutablesListed(front);
    }
  }

  lemma {:induction false} NoSteamId(line: seq<ProcessInfo>)
    ensures NearestSteamId(line).None? <==> forall p :: p in line ==> p.steamId.None?
  {
    if line != [] {
      var front, last := line[..|line| - 1], line[|line| - 1];
      assert line == front + [last];
      NoSteamId(front);
    }
  }

  /** Processes already in the line add nothing when met again. */
  lemma {:induction false} Absorbed(line: seq<ProcessInfo>, again: seq<ProcessInfo>)
    requires forall p :: p in again ==> p in line
    ensures IdentityOf(line + again) == IdentityOf(line)
  {
    if again == [] {
      assert line + again == line;
    } else {
      var front, last := again[..|again| - 1], again[|again| - 1];
      Absorbed(line, front);
      var longer := line + again;
      assert longer[..|longer| - 1] == line + front && longer[|longer| - 1] == last;
      NoSteamId(line);
      ExecutablesListed(line);
      assert AnyGameRelated(longer) == AnyGameRelated(line) by {
        assert forall p :: p in longer <==> p in line;
      }
    }
  }

  /** Once the walk is back at a process it has seen, it stays among those. */
  lemma {:induction false} CycleStays(table: Table, seen: set<Pid>, pid: Pid, n: nat)
    requires seen <= table.Keys && pid in seen
    requires forall p :: p in seen ==> table[p].parent in seen
    ensures forall info :: info in Ancestry(table, pid, n) ==> exists p :: p in seen && table[p] == info
    decreases n
  {
    if n > 0 {
      CycleStays(table, seen, table[pid].parent, n - 1);
    }
  }

  /** The loop of the source, with its two sets of things already seen: leaving a
      cycle early never changes the identity. */
  method ClassifyProcessIdentity(pid: Pid, table: Table) returns (identity: Identity)
    ensures identity == Classify(pid, table)
  {
    hide Ancestry, NearestSteamId, DistinctExecutables, AnyGameRelated;
    identity := Identity(None, [], false);
    Nothing();
    var next := pid;
    var seen: set<Pid> := {};
    var seenExecutables: set<Path> := {};
    ghost var line: seq<ProcessInfo> := [];
    var i := 0;
    while i < MAX_ANCESTORS
      invariant 0 <= i <= MAX_ANCESTORS
      invariant Ancestry(table, pid, MAX_ANCESTORS) == line + Ancestry(table, next, MAX_ANCESTORS - i)
      invariant identity == Identity(NearestSteamId(line), DistinctExecutables(line), AnyGameRelated(line))
      invariant seenExecutables == set e | e in identity.executables
      invariant seen <= table.Keys && (forall p :: p in seen ==> table[p] in line && table[p].parent in seen + {next})
      invariant forall info :: info in line ==> exists p :: p in seen && table[p] == info
    {
      AncestryStep(table, next, MAX_ANCESTORS - i);
      if next in seen {
        CycleStays(table, seen, next, MAX_ANCESTORS - i);
        Absorbed(line, Ancestry(table, next, MAX_ANCESTORS - i));
        break;
      }
      seen := seen + {next};
      if next !in table {
        break;
      }
      var process := table[next];
      Longer(line, process);
      if identity.steamId.None? {
        identity := identity.(steamId := process.steamId);
      }
      if process.executable.Some? && process.executable.value !in seenExecutables {
        seenExecutables := seenExecutables + {process.executable.value};
        identity := identity.(executables := identity.executables + [process.executable.value]);
      }
      identity := identity.(candidate := identity.candidate || process.gameRelated);
      line := line + [process];
      next := process.parent;
      i := i + 1;
    }
    AncestryStep(table, next, 0);
    assert line + [] == line;
    identity := identity.(candidate := identity.candidate || identity.steamId.Some?);
  }

  lemma Nothing()
    ensures NearestSteamId([]) == None && DistinctExecutables([]) == [] && !AnyGameRelated([])
  {
  }

  lemma Longer(line: seq<ProcessInfo>, process: ProcessInfo)
    ensures NearestSteamId(line + [process])
            == if NearestSteamId(line).Some? then NearestSteamId(line) else process.steamId
    ensures DistinctExecutables(line + [process])
            == if process.executable.Some? && process.executable.value !in DistinctExecutables(line)
               then DistinctExecutables(line) + [process.executable.value] else DistinctExecutables(line)
    ensures AnyGameRelated(line + [process]) == (AnyGameRelated(line) || process.gameRelated)
  {
    var longer := line + [process];
    assert longer[..|line|] == line;
    assert process in longer;
    assert forall p :: p in line ==> p in longer;
  }

  // --- descent ----------------------------------------------------------------------

  /** `active` is the process itself or one of its nearest 63 ancestors. */
  predicate Descends(table: Table, pid: Pid, active: Pid, n: nat)
    decreases n
  {
    n > 0 && (pid == active || (pid in table && Descends(table, table[pid].parent, active, n - 1)))
  }

  lemma {:induction false} CycleAvoids(table: Table, seen: set<Pid>, pid: Pid, active: Pid, n: nat)
    requires seen <= table.Keys && pid in seen && active !in seen
    requires forall p :: p in seen ==> table[p].parent in seen
    ensures !Descends(table, pid, active, n)
    decreases n
  {
    if n > 0 {
      CycleAvoids(table, seen, table[pid].parent, active, n - 1);
    }
  }

  method IsDescendantOrSelf(pid: Pid, active: Pid, table: Table) returns (r: bool)
    ensures r == Descends(table, pid, active, MAX_ANCESTORS)
  {
    var next := pid;
    var seen: set<Pid> := {};
    for i := 0 to MAX_ANCESTORS
      invariant Descends(table, pid, active, MAX_ANCESTORS) == Descends(table, next, active, MAX_ANCESTORS - i)
      invariant seen <= table.Keys && active !in seen
      invariant forall p :: p in seen ==> table[p].parent in seen + {next}
    {
      if next in seen {
        CycleAvoids(table, seen, next, active, MAX_ANCESTORS - i);
        return false;
      }
      if next == active {
        return true;
      }
      if next !in table {
        return false;
      }
      seen := seen + {next};
      next := table[next].parent;
    }
    r := false;
  }

  // --- the allowlist ----------------------------------------------------------------

  datatype ManualGame = ManualGame(id: string, executable: Path)

  datatype Shortcut = Shortcut(enabled: bool, accelerator: string, wellFormed: bool)

  datatype Settings = Settings(
    schemaVersion: nat, enabled: bool, steamIds: set<nat>, manualGames: seq<ManualGame>, shortcut: Shortcut)

  const DEFAULT_SETTINGS := Settings(SETTINGS_SCHEMA_VERSION, false, {}, [], Shortcut(true, "Meta+Alt+O", true))

  predicate ValidSettings(settings: Settings)
  {
    && settings.schemaVersion == SETTINGS_SCHEMA_VERSION
    && 0 !in settings.steamIds
    && (forall i, j :: 0 <= i < j < |settings.manualGames| ==> settings.manualGames[i].id != settings.manualGames[j].id)
    && (forall i :: 0 <= i < |settings.manualGames| ==>
          |settings.manualGames[i].executable| > 0 && settings.manualGames[i].executable[0] == '/')
    && settings.shortcut.wellFormed
  }

  datatype SettingsError =
    | UnsupportedSchemaVersion | ZeroSteamAppId | DuplicateManualId | NonAbsoluteExecutable | MalformedAccelerator

  /** The id of the `i`-th manual game was given before. */
  ghost predicate Repeated(games: seq<ManualGame>, i: nat)
  {
    i < |games| && exists j :: 0 <= j < i && games[j].id == games[i].id
  }

  predicate Absolute(path: Path) { |path| > 0 && path[0] == '/' }

  /** The `i`-th manual game is the first with anything wrong. */
  ghost predicate FirstWrong(games: seq<ManualGame>, i: nat)
  {
    && i < |games| && (Repeated(games, i) || !Absolute(games[i].executable))
    && forall j: nat :: j < i ==> !Repeated(games, j) && Absolute(games[j].executable)
  }

  /** `LifecycleSettings::validate`: what is wrong first, if anything. */
  method Validate(settings: Settings) returns (error: Option<SettingsError>)
    ensures error.None? <==> ValidSettings(settings)
    ensures error == Some(UnsupportedSchemaVersion) <==> settings.schemaVersion != 1
    ensures error == Some(ZeroSteamAppId) <==> settings.schemaVersion == 1 && 0 in settings.steamIds
    ensures error == Some(DuplicateManualId)
            <==> && settings.schemaVersion == 1 && 0 !in settings.steamIds
                 && exists i: nat :: FirstWrong(settings.manualGames, i) && Repeated(settings.manualGames, i)
    ensures error == Some(NonAbsoluteExecutable)
            <==> && settings.schemaVersion == 1 && 0 !in settings.steamIds
                 && exists i: nat :: FirstWrong(settings.manualGames, i) && !Repeated(settings.manualGames, i)
  {
    var games := settings.manualGames;
    if settings.schemaVersion != SETTINGS_SCHEMA_VERSION {
      return Some(UnsupportedSchemaVersion);
    }
    if 0 in settings.steamIds {
      return Some(ZeroSteamAppId);
    }
    var ids, i := {}, 0;
    while i < |games|
      invariant 0 <= i <= |games| && forall id :: id in ids <==> exists j :: 0 <= j < i && games[j].id == id
      invariant forall j: nat :: j < i ==> !Repeated(games, j) && Absolute(games[j].executable)
    {
      if games[i].id in ids {
        assert Repeated(games, i) && FirstWrong(games, i);
        return Some(DuplicateManualId);
      }
      ids := ids + {games[i].id};
      if !Absolute(games[i].executable) {
        assert !Repeated(games, i) && FirstWrong(games, i);
        return Some(NonAbsoluteExecutable);
      }
      i := i + 1;
    }
    assert forall j: nat :: !FirstWrong(games, j);
    if !settings.shortcut.wellFormed {
      return Some(MalformedAccelerator);
    }
    NoneRepeated(games);
    return None;
  }

  lemma NoneRepeated(games: seq<ManualGame>)
    ensures (forall i: nat :: !Repeated(games, i))
            <==> forall i, j :: 0 <= i < j < |games| ==> games[i].id != games[j].id
  {
    forall i, j | 0 <= i < j < |games| && games[i].id == games[j].id
      ensures exists k: nat :: Repeated(games, k)
    {
      assert Repeated(games, j);
    }
  }

  datatype Allowlist = Allowlist(steamIds: set<nat>, executables: set<Path>)

  function AllowlistOf(settings: Settings): Allowlist
  {
    if !settings.enabled || !ValidSettings(settings) then Allowlist({}, {})
    else Allowlist(settings.steamIds, set game | game in settings.manualGames :: game.executable)
  }

  predicate Allows(list: Allowlist, identity: Identity)
  {
    || (identity.steamId.Some? && identity.steamId.value in list.steamIds)
    || exists path :: path in identity.executables && path in list.executables
  }

  /** `snapshot_has_selected_process`. */
  predicate AnySelected(list: Allowlist, table: Table)
  {
    exists pid :: pid in table && Allows(list, Classify(pid, table))
  }

  /** Only a process in the table can be allowed. */
  lemma AllowedIsListed(list: Allowlist, pid: Pid, table: Table)
    requires Allows(list, Classify(pid, table))
    ensures pid in table && AnySelected(list, table)
  {
    assert pid !in table ==> Ancestry(table, pid, MAX_ANCESTORS) == [];
  }
}
