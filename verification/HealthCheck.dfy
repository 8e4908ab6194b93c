/**
 The health verdict over five gated collectors (tools/storage.go:592-727, tools/handler.go:65-75).

 Collector outcomes are inputs: a value or an error text.  Percentages and loads are exact; the printed
 detail texts are not modelled.
 */
module HealthCheck {
  import opened Wrappers
  import opened Sequences

  datatype Status = Good | Warning | Critical

  datatype Check = Check(component: string, status: Status)

  datatype Overall = CRITICAL | WARNING | UNKNOWN | OK

  datatype Partition = Partition(mountPoint: string, usedPercent: real)

  /** The outcomes of the gated collectors; a disabled collector is not run, its outcome is an error saying so. */
  datatype Collected = Collected(
    memory: Result<real, string>,
    disk: Result<seq<Partition>, string>,
    cpuCores: Result<int, string>,
    load15: Result<real, string>,
    failedUnits: Result<seq<string>, string>)

  function ErrorLine(name: string, error: string): string {
    name + ": " + error
  }

  function ErrorText<T>(name: string, outcome: Result<T, string>): seq<string> {
    match outcome
    case Ok(_) => []
    case Err(e) => [ErrorLine(name, e)]
  }

  /** One error per failed or disabled collector, in the order of the calls. */
  function Errors(c: Collected): seq<string> {
    ErrorText("get_memory_info", c.memory) + ErrorText("get_disk_info", c.disk) + ErrorText("get_cpu_info", c.cpuCores)
    + ErrorText("get_load_average", c.load15) + ErrorText("get_systemd_units", c.failedUnits)
  }

  ghost predicate HasStatus(checks: seq<Check>, status: Status) {
    exists i :: 0 <= i < |checks| && checks[i].status == status
  }

  /** What the final switch decides from the checks and errors alone. */
  ghost function Verdict(checks: seq<Check>, errs: seq<string>): Overall {
    if HasStatus(checks, Critical) then CRITICAL
    else if HasStatus(checks, Warning) then WARNING
    else if errs != [] then UNKNOWN
    else OK
  }

  function DiskCheck(p: Partition): Check {
    Check("disk:" + p.mountPoint, if p.usedPercent >= 90.0 then Critical else Warning)
  }

  function DiskChecks(ps: seq<Partition>): seq<Check> {
    if ps == [] then [Check("disk", Good)] else seq(|ps|, i requires 0 <= i < |ps| => DiskCheck(ps[i]))
  }

  function Grade(critical: bool, warning: bool): Status {
    if critical then Critical else if warning then Warning else Good
  }

  /** The checks each collector contributes; a failed one contributes none. */
  function MemoryChecks(memory: Result<real, string>): seq<Check> {
    match memory
    case Err(_) => []
    case Ok(used) => [Check("memory", Grade(used > 90.0, used > 80.0))]
  }

  function LoadChecks(cpuCores: Result<int, string>, load15: Result<real, string>): seq<Check> {
    if load15.Err? || cpuCores.Err? || cpuCores.value <= 0 then []
    else
      var ratio := load15.value / cpuCores.value as real;
      [Check("load", Grade(ratio > 2.0, ratio > 1.0))]
  }

  function UnitChecks(failedUnits: Result<seq<string>, string>): seq<Check> {
    match failedUnits
    case Err(_) => []
    case Ok(units) => if units != [] then [Check("systemd_failed", Critical)] else [Check("systemd", Good)]
  }

  function Checks(c: Collected): seq<Check> {
    MemoryChecks(c.memory) + (if c.disk.Err? then [] else DiskChecks(c.disk.value))
    + LoadChecks(c.cpuCores, c.load15) + UnitChecks(c.failedUnits)
  }

  /** The two flags say what the checks so far contain. */
  ghost predicate Flags(checks: seq<Check>, hasWarning: bool, hasCritical: bool) {
    (hasWarning <==> HasStatus(checks, Warning)) && (hasCritical <==> HasStatus(checks, Critical))
  }

  lemma FlagsAppend(checks: seq<Check>, c: Check, w: bool, k: bool)
    requires Flags(checks, w, k)
    ensures Flags(checks + [c], w || c.status == Warning, k || c.status == Critical)
  {
    var all := checks + [c];
    assert all[|checks|] == c;
    assert forall i :: 0 <= i < |checks| ==> all[i] == checks[i];
  }

  /** The variables that GatherSystemHealthCheck updates step by step. */
  class Report {
    var checks: seq<Check>
    var errs: seq<string>
    var hasWarning: bool
    var hasCritical: bool

    ghost predicate Valid()
      reads this
    {
      Flags(checks, hasWarning, hasCritical)
    }

    constructor ()
      ensures Valid() && checks == [] && errs == []
    {
      checks, errs, hasWarning, hasCritical := [], [], false, false;
    }

    /** appendErr (tools/util.go:55-59). */
    method AppendErr(name: string, error: string)
      requires Valid()
      modifies this`errs
      ensures Valid() && errs == old(errs) + [ErrorLine(name, error)]
    {
      errs := errs + [name + ": " + error];
    }

    /** One check with three grades: memory use, or load per core. */
    method AddGraded(component: string, critical: bool, warning: bool)
      requires Valid()
      modifies this`checks, this`hasWarning, this`hasCritical
      ensures Valid() && checks == old(checks) + [Check(component, Grade(critical, warning))]
    {
      FlagsAppend(checks, Check(component, Grade(critical, warning)), hasWarning, hasCritical);
      if critical {
        hasCritical := true;
        checks := checks + [Check(component, Critical)];
      } else if warning {
        hasWarning := true;
        checks := checks + [Check(component, Warning)];
      } else {
        checks := checks + [Check(component, Good)];
      }
    }

    method AddMemory(memory: Result<real, string>)
      requires Valid()
      modifies this
      ensures Valid() && checks == old(checks) + MemoryChecks(memory)
      ensures errs == old(errs) + ErrorText("get_memory_info", memory)
    {
      match memory {
        case Ok(used) => AddGraded("memory", used > 90.0, used > 80.0);
        case Err(e) => AppendErr("get_memory_info", e);
      }
    }

    method AddDisk(disk: Result<seq<Partition>, string>)
      requires Valid()
      modifies this
      ensures Valid() && checks == old(checks) + (if disk.Err? then [] else DiskChecks(disk.value))
      ensures errs == old(errs) + ErrorText("get_disk_info", disk)
    {
      match disk {
        case Err(e) => AppendErr("get_disk_info", e);
        case Ok(partitions) =>
          for i := 0 to |partitions|
            invariant Valid() && errs == old(errs)
            invariant checks == old(checks) + seq(i, j requires 0 <= j < i => DiskCheck(partitions[j]))
          {
            var p := partitions[i];
            var item := Check("disk:" + p.mountPoint, if p.usedPercent >= 90.0 then Critical else Warning);
            FlagsAppend(checks, item, hasWarning, hasCritical);
            if p.usedPercent >= 90.0 {
              hasCritical := true;
            } else {
              hasWarning := true;
            }
            checks := checks + [item];
          }
          if |partitions| == 0 {
            FlagsAppend(checks, Check("disk", Good), hasWarning, hasCritical);
            checks := checks + [Check("disk", Good)];
          }
      }
    }

    method AddLoad(cpuCores: Result<int, string>, load15: Result<real, string>)
      requires Valid()
      modifies this
      ensures Valid() && checks == old(checks) + LoadChecks(cpuCores, load15)
      ensures errs == old(errs) + ErrorText("get_cpu_info", cpuCores) + ErrorText("get_load_average", load15)
    {
      if cpuCores.Err? {
        AppendErr("get_cpu_info", cpuCores.error);
      }
      match load15 {
        case Err(e) => AppendErr("get_load_average", e);
        case Ok(load) =>
          if cpuCores.Ok? && cpuCores.value > 0 {
            var ratio := load / cpuCores.value as real;
            AddGraded("load", ratio > 2.0, ratio > 1.0);
          }
      }
    }

    method AddUnits(failedUnits: Result<seq<string>, string>)
      requires Valid()
      modifies this
      ensures Valid() && checks == old(checks) + UnitChecks(failedUnits)
      ensures errs == old(errs) + ErrorText("get_systemd_units", failedUnits)
    {
      match failedUnits {
        case Err(e) => AppendErr("get_systemd_units", e);
        case Ok(units) =>
          var item := if |units| > 0 then Check("systemd_failed", Critical) else Check("systemd", Good);
          FlagsAppend(checks, item, hasWarning, hasCritical);
          if |units| > 0 {
            hasCritical := true;
          }
          checks := checks + [item];
      }
    }
  }

  // ---------------------------------------------------------------- what the verdict means

  ghost predicate SomeCritical(c: Collected) {
    || (c.memory.Ok? && c.memory.value > 90.0)
    || (c.disk.Ok? && exists p :: p in c.disk.value && p.usedPercent >= 90.0)
    || (c.load15.Ok? && c.cpuCores.Ok? && c.cpuCores.value > 0 && c.load15.value > 2.0 * c.cpuCores.value as real)
    || (c.failedUnits.Ok? && c.failedUnits.value != [])
  }

  ghost predicate SomeWarning(c: Collected) {
    || (c.memory.Ok? && 80.0 < c.memory.value <= 90.0)
    || (c.disk.Ok? && exists p :: p in c.disk.value && p.usedPercent < 90.0)
    || (c.load15.Ok? && c.cpuCores.Ok? && c.cpuCores.value > 0
        && c.cpuCores.value as real < c.load15.value <= 2.0 * c.cpuCores.value as real)
  }

  predicate AllAnswered(c: Collected) {
    c.memory.Ok? && c.disk.Ok? && c.cpuCores.Ok? && c.load15.Ok? && c.failedUnits.Ok?
  }

  lemma HasStatusConcat(a: seq<Check>, b: seq<Check>, s: Status)
    ensures HasStatus(a + b, s) <==> HasStatus(a, s) || HasStatus(b, s)
  {
    if i :| 0 <= i < |b| && b[i].status == s {
      assert (a + b)[|a| + i] == b[i];
    }
    if i :| 0 <= i < |a| && a[i].status == s {
      assert (a + b)[i] == a[i];
    }
    if i :| 0 <= i < |a + b| && (a + b)[i].status == s {
      assert if i < |a| then a[i].status == s else b[i - |a|].status == s;
    }
  }

  lemma DiskStatus(ps: seq<Partition>)
    ensures HasStatus(DiskChecks(ps), Critical) <==> exists p :: p in ps && p.usedPercent >= 90.0
    ensures HasStatus(DiskChecks(ps), Warning) <==> exists p :: p in ps && p.usedPercent < 90.0
  {
    if p :| p in ps && p.usedPercent >= 90.0 {
      var i :| 0 <= i < |ps| && ps[i] == p;
      assert DiskChecks(ps)[i].status == Critical;
    }
    if p :| p in ps && p.usedPercent < 90.0 {
      var i :| 0 <= i < |ps| && ps[i] == p;
      assert DiskChecks(ps)[i].status == Warning;
    }
  }

  lemma Quotient(load: real, cores: int, bound: real)
    requires cores > 0
    ensures load / cores as real > bound <==> load > bound * cores as real
  {
    var r, n := load / cores as real, cores as real;
    assert load == r * n;
    if r > bound {
      assert (r - bound) * n > 0.0;
    } else {
      assert (bound - r) * n >= 0.0;
    }
  }

  lemma LoadStatus(c: Collected)
    ensures HasStatus(LoadChecks(c.cpuCores, c.load15), Critical) <==>
            c.load15.Ok? && c.cpuCores.Ok? && c.cpuCores.value > 0 && c.load15.value > 2.0 * c.cpuCores.value as real
    ensures HasStatus(LoadChecks(c.cpuCores, c.load15), Warning) <==>
            c.load15.Ok? && c.cpuCores.Ok? && c.cpuCores.value > 0
            && c.cpuCores.value as real < c.load15.value <= 2.0 * c.cpuCores.value as real
  {
    if c.load15.Ok? && c.cpuCores.Ok? && c.cpuCores.value > 0 {
      Quotient(c.load15.value, c.cpuCores.value, 2.0);
      Quotient(c.load15.value, c.cpuCores.value, 1.0);
      var ratio := c.load15.value / c.cpuCores.value as real;
      assert LoadChecks(c.cpuCores, c.load15)[0].status == Grade(ratio > 2.0, ratio > 1.0);
    }
  }

  lemma ChecksStatus(c: Collected, s: Status)
    ensures HasStatus(Checks(c), s) <==>
            || HasStatus(MemoryChecks(c.memory), s)
            || (c.disk.Ok? && HasStatus(DiskChecks(c.disk.value), s))
            || HasStatus(LoadChecks(c.cpuCores, c.load15), s)
            || HasStatus(UnitChecks(c.failedUnits), s)
  {
    var disk := if c.disk.Err? then [] else DiskChecks(c.disk.value);
    HasStatusConcat(MemoryChecks(c.memory), disk, s);
    HasStatusConcat(MemoryChecks(c.memory) + disk, LoadChecks(c.cpuCores, c.load15), s);
    HasStatusConcat(MemoryChecks(c.memory) + disk + LoadChecks(c.cpuCores, c.load15), UnitChecks(c.failedUnits), s);
  }

  /** The verdict in terms of what was measured: the worst measurement wins, then missing answers, then OK. */
  lemma VerdictMeaning(c: Collected)
    ensures Verdict(Checks(c), Errors(c))
            == if SomeCritical(c) then CRITICAL
               else if SomeWarning(c) then WARNING
               else if !AllAnswered(c) then UNKNOWN
               else OK
  {
    ChecksStatus(c, Critical);
    ChecksStatus(c, Warning);
    LoadStatus(c);
    if c.disk.Ok? {
      DiskStatus(c.disk.value);
    }
    MemoryUnitStatus(c);
  }

  lemma MemoryUnitStatus(c: Collected)
    ensures HasStatus(MemoryChecks(c.memory), Critical) <==> c.memory.Ok? && c.memory.value > 90.0
    ensures HasStatus(MemoryChecks(c.memory), Warning) <==> c.memory.Ok? && 80.0 < c.memory.value <= 90.0
    ensures HasStatus(UnitChecks(c.failedUnits), Critical) <==> c.failedUnits.Ok? && c.failedUnits.value != []
    ensures !HasStatus(UnitChecks(c.failedUnits), Warning)
  {
    assert c.memory.Ok? ==> MemoryChecks(c.memory)[0].status == Grade(c.memory.value > 90.0, c.memory.value > 80.0);
    assert c.failedUnits.Ok? ==> UnitChecks(c.failedUnits)[0].status == Grade(c.failedUnits.value != [], false);
  }

  // ---------------------------------------------------------------- what the answer lists

  /** One memory check if the memory was read, none otherwise. */
  ghost predicate MemoryPart(memory: Result<real, string>, part: seq<Check>) {
    match memory
    case Err(_) => part == []
    case Ok(used) =>
      && |part| == 1 && part[0].component == "memory"
      && (part[0].status == Critical <==> used > 90.0) && (part[0].status == Warning <==> 80.0 < used <= 90.0)
  }

  /** One check per listed partition, in order, or a single one if none is listed. */
  ghost predicate DiskPart(disk: Result<seq<Partition>, string>, part: seq<Check>) {
    match disk
    case Err(_) => part == []
    case Ok(ps) =>
      if ps == [] then |part| == 1 && part[0].component == "disk" && part[0].status == Good
      else
        && |part| == |ps|
        && forall i :: 0 <= i < |ps| ==>
             && part[i].component == "disk:" + ps[i].mountPoint
             && (if ps[i].usedPercent >= 90.0 then part[i].status == Critical else part[i].status == Warning)
  }

  /** One load check if the load and a positive number of cores were read. */
  ghost predicate LoadPart(cpuCores: Result<int, string>, load15: Result<real, string>, part: seq<Check>) {
    if load15.Ok? && cpuCores.Ok? && cpuCores.value > 0 then
      && |part| == 1 && part[0].component == "load"
      && (part[0].status == Critical <==> load15.value > 2.0 * cpuCores.value as real)
      && (part[0].status == Warning <==> cpuCores.value as real < load15.value <= 2.0 * cpuCores.value as real)
    else part == []
  }

  /** One systemd check if the units were read. */
  ghost predicate UnitPart(failedUnits: Result<seq<string>, string>, part: seq<Check>) {
    match failedUnits
    case Err(_) => part == []
    case Ok(units) =>
      && |part| == 1
      && (if units == [] then part[0].component == "systemd" && part[0].status == Good
          else part[0].component == "systemd_failed" && part[0].status == Critical)
  }

  /** The checks of memory, disk, load and units, in this order. */
  ghost predicate Reports(c: Collected, checks: seq<Check>) {
    exists m, d, l, u ::
      && MemoryPart(c.memory, m) && DiskPart(c.disk, d) && LoadPart(c.cpuCores, c.load15, l)
      && UnitPart(c.failedUnits, u) && checks == m + d + l + u
  }

  lemma LoadReported(cpuCores: Result<int, string>, load15: Result<real, string>)
    ensures LoadPart(cpuCores, load15, LoadChecks(cpuCores, load15))
  {
    if load15.Ok? && cpuCores.Ok? && cpuCores.value > 0 {
      Quotient(load15.value, cpuCores.value, 2.0);
      Quotient(load15.value, cpuCores.value, 1.0);
    }
  }

  lemma ChecksReported(c: Collected)
    ensures Reports(c, Checks(c))
  {
    var d := if c.disk.Err? then [] else DiskChecks(c.disk.value);
    LoadReported(c.cpuCores, c.load15);
    assert MemoryPart(c.memory, MemoryChecks(c.memory)) && DiskPart(c.disk, d);
    assert UnitPart(c.failedUnits, UnitChecks(c.failedUnits));
  }

  /** The tools in call order, each with its error if it failed. */
  function Failures(c: Collected): (r: seq<(string, Option<string>)>)
    ensures |r| == 5
  {
    [ ("get_memory_info", ErrorOf(c.memory)), ("get_disk_info", ErrorOf(c.disk)), ("get_cpu_info", ErrorOf(c.cpuCores)),
      ("get_load_average", ErrorOf(c.load15)), ("get_systemd_units", ErrorOf(c.failedUnits)) ]
  }

  function ErrorOf<T>(outcome: Result<T, string>): (e: Option<string>)
    ensures e.Some? <==> outcome.Err?
    ensures e.Some? ==> outcome == Err(e.value)
  {
    match outcome
    case Ok(_) => None
    case Err(e) => Some(e)
  }

  /** One text per failed tool, in call order: its name and its error. */
  ghost predicate ErrorsAt(c: Collected, errs: seq<string>, idx: seq<nat>) {
    && Increasing(idx, 5) && |idx| == |errs|
    && (forall i: nat :: i < 5 ==> (i in idx <==> Failures(c)[i].1.Some?))
    && forall k :: 0 <= k < |idx| ==>
         var (name, error) := Failures(c)[idx[k]]; error.Some? && errs[k] == name + ": " + error.value
  }

  function FailureText(f: (string, Option<string>)): seq<string> {
    match f.1
    case None => []
    case Some(e) => [ErrorLine(f.0, e)]
  }

  lemma ErrorsPicked(c: Collected) returns (idx: seq<nat>)
    ensures ErrorsAt(c, Errors(c), idx)
  {
    var fs := Failures(c);
    idx := FlatMapPicks(FailureText, fs);
    FlatMapFive(FailureText, fs);
    assert FailureText(fs[0]) == ErrorText("get_memory_info", c.memory);
    assert FailureText(fs[1]) == ErrorText("get_disk_info", c.disk);
    assert FailureText(fs[2]) == ErrorText("get_cpu_info", c.cpuCores);
    assert FailureText(fs[3]) == ErrorText("get_load_average", c.load15);
    assert FailureText(fs[4]) == ErrorText("get_systemd_units", c.failedUnits);
    assert FlatMap(FailureText, fs) == Errors(c);
    forall k | 0 <= k < |idx|
      ensures var (name, error) := fs[idx[k]]; error.Some? && Errors(c)[k] == name + ": " + error.value
    {
      assert FailureText(fs[idx[k]]) == [Errors(c)[k]];
    }
  }

  lemma FlatMapFive<A, B>(f: A -> seq<B>, s: seq<A>)
    requires |s| == 5
    ensures FlatMap(f, s) == f(s[0]) + f(s[1]) + f(s[2]) + f(s[3]) + f(s[4])
  {
    assert s == [s[0]] + [s[1]] + [s[2]] + [s[3]] + [s[4]];
    FlatMapLast(f, [], s[0]);
    FlatMapLast(f, [s[0]], s[1]);
    FlatMapLast(f, [s[0]] + [s[1]], s[2]);
    FlatMapLast(f, [s[0]] + [s[1]] + [s[2]], s[3]);
    FlatMapLast(f, [s[0]] + [s[1]] + [s[2]] + [s[3]], s[4]);
    assert [] + [s[0]] == [s[0]];
  }

  method GatherSystemHealthCheck(c: Collected) returns (overall: Overall, checks: seq<Check>, errs: seq<string>)
    ensures checks == Checks(c) && errs == Errors(c) && overall == Verdict(checks, errs)
    ensures Reports(c, checks) && exists idx :: ErrorsAt(c, errs, idx)
    ensures overall == if SomeCritical(c) then CRITICAL
                       else if SomeWarning(c) then WARNING
                       else if !AllAnswered(c) then UNKNOWN
                       else OK
  {
    var r := new Report();
    r.AddMemory(c.memory);
    assert r.checks == MemoryChecks(c.memory) && r.errs == ErrorText("get_memory_info", c.memory);
    r.AddDisk(c.disk);
    r.AddLoad(c.cpuCores, c.load15);
    r.AddUnits(c.failedUnits);
    assert r.checks == Checks(c) && r.errs == Errors(c);
    ChecksReported(c);
    ghost var idx := ErrorsPicked(c);
    VerdictMeaning(c);
    overall :=
      if r.hasCritical then CRITICAL else if r.hasWarning then WARNING else if |r.errs| > 0 then UNKNOWN else OK;
    checks, errs := r.checks, r.errs;
  }
}
