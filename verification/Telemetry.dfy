/** Resource totals of a process group and the CPU figure between two samples
    (crates/overcrow-core/src/telemetry.rs). */
module Telemetry {
  import opened Common
  import opened Processes

  const U32_MAX: nat := 0xFFFF_FFFF
  const U64_MAX: nat := 0xFFFF_FFFF_FFFF_FFFF
  const U128_MAX: nat := 0xFFFF_FFFF_FFFF_FFFF_FFFF_FFFF_FFFF_FFFF

  datatype GroupIdentity = Steam(id: SteamId) | Native

  datatype GroupKey = GroupKey(pid: Pid, startTicks: nat, identity: GroupIdentity)

  datatype Sample = Sample(key: GroupKey, resources: Resources, observedAt: Instant)

  datatype GameTelemetry = GameTelemetry(
    cpuHundredths: Option<nat>, residentBytes: Option<nat>, cpuTemperature: Option<int>, gpuTemperature: Option<int>)

  const NO_TELEMETRY := GameTelemetry(None, None, None, None)

  // --- totals -----------------------------------------------------------------------

  ghost function TotalTicks(pids: set<Pid>, table: Table): nat
    requires pids <= table.Keys
  {
    if pids == {} then 0
    else var p :| p in pids; table[p].resources.cpuTicks + TotalTicks(pids - {p}, table)
  }

  ghost function TotalBytes(pids: set<Pid>, table: Table): nat
    requires pids <= table.Keys
  {
    if pids == {} then 0
    else var p :| p in pids; table[p].resources.residentBytes + TotalBytes(pids - {p}, table)
  }

  /** The totals do not depend on which process is taken first. */
  lemma {:induction false} TakeOut(pids: set<Pid>, table: Table, p: Pid)
    requires pids <= table.Keys && p in pids
    ensures TotalTicks(pids, table) == table[p].resources.cpuTicks + TotalTicks(pids - {p}, table)
    ensures TotalBytes(pids, table) == table[p].resources.residentBytes + TotalBytes(pids - {p}, table)
    decreases |pids|
  {
    var q :| q in pids && TotalTicks(pids, table) == table[q].resources.cpuTicks + TotalTicks(pids - {q}, table);
    var r :| r in pids && TotalBytes(pids, table) == table[r].resources.residentBytes + TotalBytes(pids - {r}, table);
    if q != p {
      TakeOut(pids - {q}, table, p);
      TakeOut(pids - {p}, table, q);
      assert pids - {q} - {p} == pids - {p} - {q};
    }
    if r != p {
      TakeOut(pids - {r}, table, p);
      TakeOut(pids - {p}, table, r);
      assert pids - {r} - {p} == pids - {p} - {r};
    }
  }

  ghost function Totals(pids: set<Pid>, table: Table): Resources
    requires pids <= table.Keys
  {
    Resources(Min(TotalTicks(pids, table), U64_MAX), Min(TotalBytes(pids, table), U64_MAX))
  }

  /** `aggregate_resources`: adding with saturation, in whatever order the table is
      iterated, gives the true total cut at the largest 64-bit number. */
  method AggregateResources(pids: set<Pid>, table: Table) returns (total: Resources)
    requires pids <= table.Keys
    ensures total == Totals(pids, table)
  {
    total := Resources(0, 0);
    var left := pids;
    while left != {}
      invariant left <= pids
      invariant total.cpuTicks == Min(TotalTicks(pids, table) - TotalTicks(left, table), U64_MAX)
      invariant total.residentBytes == Min(TotalBytes(pids, table) - TotalBytes(left, table), U64_MAX)
      invariant TotalTicks(left, table) <= TotalTicks(pids, table) && TotalBytes(left, table) <= TotalBytes(pids, table)
    {
      var p :| p in left;
      TakeOut(left, table, p);
      total := Resources(Min(total.cpuTicks + table[p].resources.cpuTicks, U64_MAX),
                         Min(total.residentBytes + table[p].resources.residentBytes, U64_MAX));
      left := left - {p};
    }
  }

  /** The processes that count towards the active game. */
  ghost function Group(active: Pid, steamId: Option<SteamId>, table: Table): set<Pid>
  {
    match steamId
    case Some(id) => set p | p in table && Classify(p, table).steamId == Some(id)
    case None => set p | p in table && Descends(table, p, active, MAX_ANCESTORS)
  }

  ghost function SampleOf(active: Pid, steamId: Option<SteamId>, table: Table, now: Instant): Option<Sample>
  {
    if active !in table || (steamId.Some? && Classify(active, table).steamId != steamId) then None
    else
      var identity := match steamId case Some(id) => Steam(id) case None => Native;
      Some(Sample(GroupKey(active, table[active].startTicks, identity),
                  Totals(Group(active, steamId, table), table), now))
  }

  method CollectProcessSample(active: Pid, steamId: Option<SteamId>, table: Table, now: Instant)
      returns (sample: Option<Sample>)
    ensures sample == SampleOf(active, steamId, table, now)
  {
    if active !in table {
      return None;
    }
    if steamId.Some? {
      var identity := ClassifyProcessIdentity(active, table);
      if identity.steamId != steamId {
        return None;
      }
    }
    var group: set<Pid> := {};
    var left := table.Keys;
    while left != {}
      invariant left <= table.Keys
      invariant group == Group(active, steamId, table) - left
    {
      var p :| p in left;
      var member;
      if steamId.Some? {
        var identity := ClassifyProcessIdentity(p, table);
        member := identity.steamId == steamId;
      } else {
        member := IsDescendantOrSelf(p, active, table);
      }
      assert member == (p in Group(active, steamId, table));
      left := left - {p};
      if member {
        group := group + {p};
      }
    }
    assert group == Group(active, steamId, table);
    var resources := AggregateResources(group, table);
    var identity := if steamId.Some? then Steam(steamId.value) else Native;
    sample := Some(Sample(GroupKey(active, table[active].startTicks, identity), resources, now));
  }

  // --- the CPU figure ---------------------------------------------------------------

  /** `cpu_percent_hundredths`, with the 128-bit products as the source writes them. */
  function CpuHundredths(previous: Sample, current: Sample, ticksPerSecond: nat): Option<nat>
  {
    if current.observedAt < previous.observedAt then None
    else
      var elapsed := (current.observedAt - previous.observedAt) * ticksPerSecond;
      if elapsed > U128_MAX || elapsed == 0 then None
      else if current.resources.cpuTicks < previous.resources.cpuTicks then None
      else
        var ticks := current.resources.cpuTicks - previous.resources.cpuTicks;
        var scaled := Min(Min(ticks * 10_000, U128_MAX) * 1_000_000_000, U128_MAX);
        Some(Min(scaled / elapsed, U32_MAX))
  }

  /** There is no figure exactly if the clock or the tick counter went back, no time or no
      tick rate makes it meaningless, or the time in ticks does not fit into 128 bits. */
  lemma NoFigureExactly(previous: Sample, current: Sample, ticksPerSecond: nat)
    ensures CpuHundredths(previous, current, ticksPerSecond).None?
            <==> || current.observedAt <= previous.observedAt || ticksPerSecond == 0
                 || (current.observedAt - previous.observedAt) * ticksPerSecond > U128_MAX
                 || current.resources.cpuTicks < previous.resources.cpuTicks
  {
    if current.observedAt > previous.observedAt && ticksPerSecond > 0 {
      MulOrder(1, current.observedAt - previous.observedAt, ticksPerSecond);
    }
  }

  /** Neither product saturates for 64-bit tick counters, so a figure is the exact
      share of one core in hundredths of a percent, rounded down and cut at 32 bits:
      `f` of them fit into the time that passed and `f + 1` do not. */
  lemma CpuFigureExact(previous: Sample, current: Sample, ticksPerSecond: nat)
    requires current.resources.cpuTicks <= U64_MAX
    requires CpuHundredths(previous, current, ticksPerSecond).Some?
    ensures var figure := CpuHundredths(previous, current, ticksPerSecond).value;
            var ticks := current.resources.cpuTicks - previous.resources.cpuTicks;
            var elapsed := (current.observedAt - previous.observedAt) * ticksPerSecond;
            && 0 <= ticks && elapsed > 0 && figure <= U32_MAX
            && figure * elapsed <= ticks * 10_000_000_000_000
            && (figure < U32_MAX ==> ticks * 10_000_000_000_000 < (figure + 1) * elapsed)
  {
    var ticks := current.resources.cpuTicks - previous.resources.cpuTicks;
    var elapsed := (current.observedAt - previous.observedAt) * ticksPerSecond;
    assert ticks <= U64_MAX;
    var exact := ticks * 10_000_000_000_000;
    assert ticks * 10_000 <= U128_MAX && ticks * 10_000 * 1_000_000_000 == exact <= U128_MAX;
    var quotient := exact / elapsed;
    QuotientBounds(exact, elapsed);
    if quotient > U32_MAX {
      MulOrder(U32_MAX, quotient, elapsed);
    }
  }

  lemma QuotientBounds(a: nat, b: nat)
    requires b > 0
    ensures (a / b) * b <= a < (a / b + 1) * b
  {
    assert a == (a / b) * b + a % b;
  }

  lemma MulOrder(a: nat, b: nat, c: nat)
    requires a <= b
    ensures a * c <= b * c
  {
  }

  // --- the sampler ------------------------------------------------------------------

  function Observed(previous: Option<Sample>, sample: Sample, ticksPerSecond: nat): GameTelemetry
  {
    var cpu := if previous.Some? && previous.value.key == sample.key
               then CpuHundredths(previous.value, sample, ticksPerSecond) else None;
    NO_TELEMETRY.(cpuHundredths := cpu, residentBytes := Some(sample.resources.residentBytes))
  }

  class TelemetrySampler {
    var previous: Option<Sample>

    constructor ()
      ensures previous == None
    {
      previous := None;
    }

    method Observe(sample: Sample, ticksPerSecond: nat) returns (telemetry: GameTelemetry)
      modifies this
      ensures telemetry == Observed(old(previous), sample, ticksPerSecond)
      ensures previous == Some(sample)
    {
      var cpu: Option<nat> := None;
      if previous.Some? && previous.value.key == sample.key {
        cpu := CpuHundredths(previous.value, sample, ticksPerSecond);
      }
      previous := Some(sample);
      telemetry := NO_TELEMETRY.(cpuHundredths := cpu, residentBytes := Some(sample.resources.residentBytes));
    }

    method Reset()
      modifies this
      ensures previous == None
    {
      previous := None;
    }
  }
}
