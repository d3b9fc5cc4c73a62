/**
  The scheduler (taskqueue/scheduler.py), its cadence policy (taskqueue/cadence.py) and
  the last-run state it keeps (db/schedule.py).  Times are in seconds.
*/
module Scheduler {
  import opened Wrappers
  import opened ScanRuns

  // ----- cadence --------------------------------------------------------------------

  const MIN_INTERVAL := 300
  const CANCEL_COOLOFF := 1800.0
  const BOOTSTRAP_RETRY := 1800
  const FULL := "full"
  const NOTIFY := "notify"

  /** Pipelines in order, each with its built-in interval. */
  type Cadence = seq<(string, int)>

  const DEFAULT_CADENCE: Cadence := [
    ("notify", 60), ("cve_watch", 900), ("probe", 7200), ("ingest", 21600), ("scan", 43200), ("crawl", 86400),
    ("takeover", 86400), ("port_scan", 86400), ("content_discovery", 86400), ("secrets", 86400),
    ("github_osint", 86400), ("domain_intel", 43200), ("js_mine", 86400), ("broken_links", 86400), ("tls", 86400),
    ("uncover", 86400), ("service_scan", 86400), ("cloud_buckets", 86400), ("nuclei_watch", 43200), ("dork", 86400),
    ("api_surface", 86400), ("http_misconfig", 86400), ("supply_chain", 86400), ("typosquat", 86400),
    ("reverse_dns", 86400), ("param_discovery", 86400), ("cloud_assets", 43200)]

  /** What the arguments below use of the built-in table. */
  ghost predicate IsTable(table: Cadence) {
    && (forall i, j :: 0 <= i < j < |table| ==> table[i].0 != table[j].0)
    && (forall i :: 0 <= i < |table| ==> table[i].0 != FULL && ':' !in table[i].0)
    && (forall i :: 0 <= i < |table| ==> table[i].1 >= if table[i].0 == NOTIFY then 1 else MIN_INTERVAL)
  }

  lemma BuiltInIsTable()
    ensures IsTable(DEFAULT_CADENCE)
  {
    BuiltInNamesDiffer();
    BuiltInNamesArePhases();
    BuiltInNamesHaveNoColon();
    BuiltInIntervals();
  }

  lemma BuiltInNamesDiffer()
    ensures forall i, j :: 0 <= i < j < |DEFAULT_CADENCE| ==> DEFAULT_CADENCE[i].0 != DEFAULT_CADENCE[j].0
  {}

  lemma BuiltInNamesArePhases()
    ensures forall i :: 0 <= i < |DEFAULT_CADENCE| ==> DEFAULT_CADENCE[i].0 != FULL
  {}

  lemma BuiltInNamesHaveNoColon()
    ensures forall i :: 0 <= i < |DEFAULT_CADENCE| ==> ':' !in DEFAULT_CADENCE[i].0
  {}

  lemma BuiltInIntervals()
    ensures forall i :: 0 <= i < |DEFAULT_CADENCE| ==>
              DEFAULT_CADENCE[i].1 >= if DEFAULT_CADENCE[i].0 == NOTIFY then 1 else MIN_INTERVAL
  {}

  /** A stored override: what int() makes of it, if anything. */
  datatype Override = Seconds(n: int) | NotANumber

  function Max(a: int, b: int): int { if a >= b then a else b }

  function Low(pipeline: string, floor: int): int {
    if pipeline == NOTIFY then 0 else Max(MIN_INTERVAL, floor)
  }

  predicate Usable(o: Override) { o.Seconds? && o.n > 0 }

  function Names(table: Cadence): set<string> {
    set e | e in table :: e.0
  }

  /** Known pipelines with a usable interval, raised to the floor. */
  function Sanitized(table: Cadence, overrides: map<string, Override>, floor: int): map<string, int> {
    map k | k in overrides && k in Names(table) && Usable(overrides[k]) :: Max(overrides[k].n, Low(k, floor))
  }

  method SanitizeOverrides(table: Cadence, overrides: map<string, Override>, floor: int) returns (out: map<string, int>)
    ensures out == Sanitized(table, overrides, floor)
  {
    out := map[];
    var todo := overrides.Keys;
    while todo != {}
      invariant todo <= overrides.Keys
      invariant out == Sanitized(table, map k | k in overrides && k !in todo :: overrides[k], floor)
    {
      var key :| key in todo;
      todo := todo - {key};
      if key in Names(table) && overrides[key].Seconds? && overrides[key].n > 0 {
        out := out[key := Max(overrides[key].n, Low(key, floor))];
      }
    }
    assert (map k | k in overrides && k !in todo :: overrides[k]) == overrides;
  }

  function Interval(e: (string, int), program: map<string, int>, tenant: map<string, int>, floor: int): int {
    if e.0 in program then program[e.0]
    else if e.0 in tenant then tenant[e.0]
    else BuiltIn(e, floor)
  }

  predicate IsLarger(r: int, a: int, b: int) { r >= a && r >= b && (r == a || r == b) }

  predicate IsOverridden(overrides: map<string, Override>, pipeline: string) {
    pipeline in overrides && overrides[pipeline].Seconds? && overrides[pipeline].n > 0
  }

  /** `n` is the interval of a pipeline with built-in interval `builtIn`: the program's usable
      override, else the tenant's, neither below five minutes nor the floor, else the built-in
      one, not below the floor.  Alerts, which contact no target, have no floor. */
  predicate IsMostSpecific(pipeline: string, builtIn: int, program: map<string, Override>,
                           tenant: map<string, Override>, floor: int, n: int) {
    var least := if pipeline == "notify" then 0 else if floor > 300 then floor else 300;
    if IsOverridden(program, pipeline) then IsLarger(n, program[pipeline].n, least)
    else if IsOverridden(tenant, pipeline) then IsLarger(n, tenant[pipeline].n, least)
    else if pipeline == "notify" then n == builtIn
    else IsLarger(n, builtIn, floor)
  }

  /** Built-in intervals, overlaid by the tenant's, overlaid by the program's own. */
  function EffectiveCadence(table: Cadence, program: map<string, Override>, tenant: map<string, Override>,
                            floor: int): (out: Cadence)
    ensures |out| == |table| && forall i :: 0 <= i < |table| ==> out[i].0 == table[i].0
    ensures forall i :: 0 <= i < |table| ==>
              IsMostSpecific(table[i].0, table[i].1, program, tenant, floor, out[i].1)
  {
    var p, t := Sanitized(table, program, floor), Sanitized(table, tenant, floor);
    seq(|table|, i requires 0 <= i < |table| => (table[i].0, Interval(table[i], p, t, floor)))
  }

  function BuiltIn(e: (string, int), floor: int): int {
    if e.0 == NOTIFY then e.1 else Max(e.1, floor)
  }

  method FlooredCadence(table: Cadence, floor: int) returns (merged: map<string, int>)
    requires IsTable(table)
    ensures merged.Keys == Names(table)
    ensures forall i :: 0 <= i < |table| ==> merged[table[i].0] == BuiltIn(table[i], floor)
  {
    hide BuiltIn;
    merged := map[];
    for i := 0 to |table|
      invariant merged.Keys == Names(table[..i])
      invariant forall k :: 0 <= k < i ==> table[k].0 in merged && merged[table[k].0] == BuiltIn(table[k], floor)
    {
      assert table[..i + 1] == table[..i] + [table[i]];
      assert Names(table[..i + 1]) == Names(table[..i]) + {table[i].0};
      merged := merged[table[i].0 := BuiltIn(table[i], floor)];
    }
    assert table[..|table|] == table;
  }

  /** Three dictionaries laid over one another give each pipeline its most specific usable
      interval. */
  method MergeCadence(table: Cadence, program: map<string, Override>, tenant: map<string, Override>, floor: int)
    returns (merged: map<string, int>)
    requires IsTable(table)
    ensures merged.Keys == Names(table)
    ensures forall i :: 0 <= i < |table| ==> merged[table[i].0] == EffectiveCadence(table, program, tenant, floor)[i].1
    ensures forall i :: 0 <= i < |table| ==>
              IsMostSpecific(table[i].0, table[i].1, program, tenant, floor, merged[table[i].0])
  {
    merged := FlooredCadence(table, floor);
    var t := SanitizeOverrides(table, tenant, floor);
    var p := SanitizeOverrides(table, program, floor);
    merged := merged + t + p;
  }

  /** The least time between two jobs for one pipeline of a program. */
  function MinGap(pipeline: string, floor: int): int {
    if pipeline == FULL then BOOTSTRAP_RETRY
    else if pipeline == NOTIFY then 1
    else Max(MIN_INTERVAL, floor)
  }

  /** No override, of tenant or program, makes a pipeline run faster than its floor. */
  lemma CadenceRespectsFloor(table: Cadence, program: map<string, Override>, tenant: map<string, Override>, floor: int)
    requires IsTable(table)
    ensures var c := EffectiveCadence(table, program, tenant, floor);
            forall i :: 0 <= i < |c| ==> c[i].1 >= MinGap(c[i].0, floor)
  {}

  predicate IsDue(last: Option<real>, now: real, interval: int) {
    last.None? || now - last.value >= interval as real
  }

  // ----- last-run state -------------------------------------------------------------

  /** The state is keyed by tenant and by program and pipeline joined with a colon. */
  type Schedule = map<(string, string), real>

  function ScheduleKey(program: string, pipeline: string): string { program + ":" + pipeline }

  /** Pipelines do not share state, since their names hold no colon. */
  lemma ScheduleKeyInjective(p: string, x: string, q: string, y: string)
    requires ':' !in x && ':' !in y
    ensures ScheduleKey(p, x) == ScheduleKey(q, y) <==> p == q && x == y
  {
    var k, l := ScheduleKey(p, x), ScheduleKey(q, y);
    assert k[|p|] == ':' && forall i :: |p| < i < |k| ==> k[i] == x[i - |p| - 1];
    assert l[|q|] == ':' && forall i :: |q| < i < |l| ==> l[i] == y[i - |q| - 1];
    if k == l {
      assert k[..|p|] == p && l[..|q|] == q && k[|p| + 1..] == x && l[|q| + 1..] == y;
    }
  }

  function LastRun(schedule: Schedule, tenant: string, program: string, pipeline: string): Option<real> {
    var key := (tenant, ScheduleKey(program, pipeline));
    if key in schedule then Some(schedule[key]) else None
  }

  // ----- planning -------------------------------------------------------------------

  const NEW_ASSET := 10
  const NORMAL := 50

  datatype Job = Job(tenant: string, program: string, pipeline: string, priority: int)

  datatype Program = Program(
    tenant: string, id: string, enabled: bool, verified: bool, authorized: bool,
    initialScanDone: bool,
    overrides: map<string, Override>,
    modules: set<string>)

  /** What a tick reads: the trail of runs, the last-run state, the tenants' cadences and
      the settings. */
  datatype Env = Env(
    now: real, runs: seq<ScanRun>, schedule: Schedule,
    tenantOverrides: map<string, map<string, Override>>,
    table: Cadence, floor: int, stale: real, maxPerTenant: int)

  predicate Ready(p: Program) { p.enabled && p.verified && p.authorized }

  /** A run in flight, or one the user just stopped, keeps a program out of the plan. */
  predicate HeldBack(env: Env, p: Program) {
    || FindActiveFull(env.runs, p.tenant, p.id, env.now, env.stale).Some?
    || RecentCancelledFull(env.runs, p.tenant, p.id, CANCEL_COOLOFF, env.now).Some?
  }

  function TenantOverrides(env: Env, tenant: string): map<string, Override> {
    if tenant in env.tenantOverrides then env.tenantOverrides[tenant] else map[]
  }

  function CadenceOf(env: Env, p: Program): Cadence {
    EffectiveCadence(env.table, p.overrides, TenantOverrides(env, p.tenant), env.floor)
  }

  predicate PipelineDue(env: Env, p: Program, e: (string, int)) {
    e.0 in p.modules && IsDue(LastRun(env.schedule, p.tenant, p.id, e.0), env.now, e.1)
  }

  function PhaseJob(env: Env, p: Program, pipeline: string): Job {
    Job(p.tenant, p.id, pipeline, if LastRun(env.schedule, p.tenant, p.id, pipeline).None? then NEW_ASSET else NORMAL)
  }

  /** The first `room` phases that are due. */
  function PhaseJobs(env: Env, p: Program, cadence: Cadence, room: int): seq<Job> {
    if cadence == [] then []
    else
      var front, e := PhaseJobs(env, p, cadence[..|cadence| - 1], room), cadence[|cadence| - 1];
      if PipelineDue(env, p, e) && |front| < room then front + [PhaseJob(env, p, e.0)] else front
  }

  /** What one program contributes when its tenant may still have `room` jobs. */
  function ProgramJobs(env: Env, p: Program, room: int): seq<Job> {
    if !Ready(p) || HeldBack(env, p) then []
    else if !p.initialScanDone then
      if room > 0 && IsDue(LastRun(env.schedule, p.tenant, p.id, FULL), env.now, BOOTSTRAP_RETRY)
      then [Job(p.tenant, p.id, FULL, NEW_ASSET)] else []
    else PhaseJobs(env, p, CadenceOf(env, p), room)
  }

  function CountFor(jobs: seq<Job>, tenant: string): nat {
    if jobs == [] then 0
    else CountFor(jobs[..|jobs| - 1], tenant) + if jobs[|jobs| - 1].tenant == tenant then 1 else 0
  }

  /** The jobs in the order of the programs, before sorting. */
  function Listed(env: Env, programs: seq<Program>): seq<Job> {
    if programs == [] then []
    else
      var front, p := Listed(env, programs[..|programs| - 1]), programs[|programs| - 1];
      front + ProgramJobs(env, p, env.maxPerTenant - CountFor(front, p.tenant))
  }

  function Insert(j: Job, sorted: seq<Job>): seq<Job> {
    if sorted == [] || j.priority <= sorted[0].priority then [j] + sorted
    else [sorted[0]] + Insert(j, sorted[1..])
  }

  /** Sorting by priority; jobs of one priority keep their order. */
  function SortByPriority(jobs: seq<Job>): seq<Job> {
    if jobs == [] then [] else Insert(jobs[0], SortByPriority(jobs[1..]))
  }

  ghost predicate ByPriority(jobs: seq<Job>) {
    forall i, j :: 0 <= i < j < |jobs| ==> jobs[i].priority <= jobs[j].priority
  }

  function Planned(env: Env, programs: seq<Program>): seq<Job> {
    SortByPriority(Listed(env, programs))
  }

  /** Appends the phases of one program that are due, while the cap allows. */
  method PlanPhases(env: Env, p: Program, jobs0: seq<Job>, perTenant0: map<string, int>)
    returns (jobs: seq<Job>, perTenant: map<string, int>)
    requires Tallies(perTenant0, jobs0)
    ensures jobs == jobs0 + PhaseJobs(env, p, CadenceOf(env, p), env.maxPerTenant - CountFor(jobs0, p.tenant))
    ensures Tallies(perTenant, jobs)
  {
    hide PhaseJobs, CountFor, Tallies, LastRun, IsDue, CadenceOf;
    var cadence := CadenceOf(env, p);
    ghost var room := env.maxPerTenant - CountFor(jobs0, p.tenant);
    jobs, perTenant := jobs0, perTenant0;
    PhasesNone(env, p, room);
    for i := 0 to |cadence|
      invariant jobs == jobs0 + PhaseJobs(env, p, cadence[..i], room)
      invariant Tallies(perTenant, jobs)
    {
      PhasesStep(env, p, cadence, i, room);
      RoomLeft(env, p, cadence[..i], jobs0, perTenant, room);
      var (pipeline, interval) := cadence[i];
      if pipeline in p.modules {
        var last := LastRun(env.schedule, p.tenant, p.id, pipeline);
        if IsDue(last, env.now, interval) && Tally(perTenant, p.tenant) < env.maxPerTenant {
          var job := Job(p.tenant, p.id, pipeline, if last.None? then NEW_ASSET else NORMAL);
          TallyOne(perTenant, jobs, job);
          jobs := jobs + [job];
          perTenant := perTenant[p.tenant := Tally(perTenant, p.tenant) + 1];
        }
      }
    }
    assert cadence[..|cadence|] == cadence;
  }

  lemma PhasesNone(env: Env, p: Program, room: int)
    ensures PhaseJobs(env, p, [], room) == []
  {}

  lemma PhasesStep(env: Env, p: Program, cadence: Cadence, i: nat, room: int)
    requires i < |cadence|
    ensures var before, e := PhaseJobs(env, p, cadence[..i], room), cadence[i];
            PhaseJobs(env, p, cadence[..i + 1], room)
            == if e.0 in p.modules && IsDue(LastRun(env.schedule, p.tenant, p.id, e.0), env.now, e.1) && |before| < room
               then before + [PhaseJob(env, p, e.0)] else before
  {
    assert cadence[..i + 1][..i] == cadence[..i];
  }

  lemma RoomLeft(env: Env, p: Program, cadence: Cadence, jobs0: seq<Job>, perTenant: map<string, int>, room: int)
    requires room == env.maxPerTenant - CountFor(jobs0, p.tenant)
    requires Tallies(perTenant, jobs0 + PhaseJobs(env, p, cadence, room))
    ensures Tally(perTenant, p.tenant) < env.maxPerTenant <==> |PhaseJobs(env, p, cadence, room)| < room
  {
    hide PhaseJobs, CountFor;
    var before := PhaseJobs(env, p, cadence, room);
    PhaseJobsAreOwn(env, p, cadence, room);
    CountConcat(jobs0, before, p.tenant);
    CountOwn(before, p.tenant);
  }

  function Tally(perTenant: map<string, int>, tenant: string): int {
    if tenant in perTenant then perTenant[tenant] else 0
  }

  /** The per-tenant counters count the jobs planned so far. */
  ghost predicate Tallies(perTenant: map<string, int>, jobs: seq<Job>) {
    forall t :: Tally(perTenant, t) == CountFor(jobs, t)
  }

  lemma TallyOne(perTenant: map<string, int>, jobs: seq<Job>, job: Job)
    requires Tallies(perTenant, jobs)
    ensures Tallies(perTenant[job.tenant := Tally(perTenant, job.tenant) + 1], jobs + [job])
  {
    assert (jobs + [job])[..|jobs|] == jobs;
    var more := perTenant[job.tenant := Tally(perTenant, job.tenant) + 1];
    forall t ensures Tally(more, t) == CountFor(jobs + [job], t) {
      assert Tally(perTenant, t) == CountFor(jobs, t);
    }
  }

  /** One tick's jobs, most urgent first. */
  method Plan(env: Env, programs: seq<Program>) returns (jobs: seq<Job>)
    ensures jobs == Planned(env, programs)
  {
    hide PhaseJobs, CadenceOf, SortByPriority, HeldBack, CountFor, Tallies, LastRun, IsDue, Listed, Ready;
    jobs := [];
    var perTenant: map<string, int> := map[];
    NothingPlanned(env, perTenant);
    for i := 0 to |programs|
      invariant jobs == Listed(env, programs[..i])
      invariant Tallies(perTenant, jobs)
    {
      var p := programs[i];
      assert programs[..i + 1] == programs[..i] + [p];
      ListedStep(env, programs[..i], p);
      TallyIs(perTenant, jobs, p.tenant);
      if !Ready(p) { continue; }
      if HeldBack(env, p) { continue; }
      if !p.initialScanDone {
        if Tally(perTenant, p.tenant) >= env.maxPerTenant { continue; }
        var last := LastRun(env.schedule, p.tenant, p.id, FULL);
        if IsDue(last, env.now, BOOTSTRAP_RETRY) {
          var job := Job(p.tenant, p.id, FULL, NEW_ASSET);
          TallyOne(perTenant, jobs, job);
          jobs := jobs + [job];
          perTenant := perTenant[p.tenant := Tally(perTenant, p.tenant) + 1];
        }
        continue;
      }
      jobs, perTenant := PlanPhases(env, p, jobs, perTenant);
    }
    assert programs[..|programs|] == programs;
    jobs := SortByPriority(jobs);
  }

  lemma TallyIs(perTenant: map<string, int>, jobs: seq<Job>, tenant: string)
    requires Tallies(perTenant, jobs)
    ensures Tally(perTenant, tenant) == CountFor(jobs, tenant)
  {}

  lemma NothingPlanned(env: Env, perTenant: map<string, int>)
    requires perTenant == map[]
    ensures Tallies(perTenant, []) && Listed(env, []) == []
  {}

  // ----- what a program's jobs are --------------------------------------------------

  lemma {:induction false} PhaseJobsAreOwn(env: Env, p: Program, cadence: Cadence, room: int)
    ensures var js := PhaseJobs(env, p, cadence, room);
            && (forall j :: j in js ==> j.tenant == p.tenant && j.program == p.id)
            && (room >= 0 ==> |js| <= room) && (room < 0 ==> js == [])
            && (forall j :: j in js ==> j == PhaseJob(env, p, j.pipeline))
            && (forall j :: j in js ==> exists e :: e in cadence && e.0 == j.pipeline && PipelineDue(env, p, e))
  {
    hide PipelineDue;
    if cadence != [] {
      var front, e := cadence[..|cadence| - 1], cadence[|cadence| - 1];
      PhaseJobsAreOwn(env, p, front, room);
      assert forall f :: f in front ==> f in cadence;
    }
  }

  lemma {:induction false} PhaseJobsDiffer(env: Env, p: Program, cadence: Cadence, room: int)
    requires forall i, j :: 0 <= i < j < |cadence| ==> cadence[i].0 != cadence[j].0
    ensures var js := PhaseJobs(env, p, cadence, room);
            forall i, j :: 0 <= i < j < |js| ==> js[i].pipeline != js[j].pipeline
  {
    hide PipelineDue;
    if cadence != [] {
      var n := |cadence| - 1;
      PhaseJobsDiffer(env, p, cadence[..n], room);
      PhaseJobsAreOwn(env, p, cadence[..n], room);
      var front := PhaseJobs(env, p, cadence[..n], room);
      forall i | 0 <= i < |front| ensures front[i].pipeline != cadence[n].0 {
        assert front[i] in front;
        var e :| e in cadence[..n] && e.0 == front[i].pipeline;
      }
    }
  }

  /** A job is due, and belongs to the program; there is one at most for a program that has
      not completed its first full run, and that is the full run. */
  lemma ProgramJobsAreOwn(env: Env, p: Program, room: int)
    requires IsTable(env.table)
    ensures var js := ProgramJobs(env, p, room);
            && (forall j :: j in js ==> j.tenant == p.tenant && j.program == p.id)
            && (forall j :: j in js ==>
                  IsDue(LastRun(env.schedule, p.tenant, p.id, j.pipeline), env.now, MinGap(j.pipeline, env.floor)))
            && (forall i, j :: 0 <= i < j < |js| ==> js[i].pipeline != js[j].pipeline)
            && |js| <= Max(room, 0)
            && (!p.initialScanDone ==> |js| <= 1 && forall j :: j in js ==> j.pipeline == FULL)
  {
    if Ready(p) && !HeldBack(env, p) && p.initialScanDone {
      var cadence := CadenceOf(env, p);
      PhaseJobsAreOwn(env, p, cadence, room);
      PhaseJobsDiffer(env, p, cadence, room);
      CadenceRespectsFloor(env.table, p.overrides, TenantOverrides(env, p.tenant), env.floor);
    }
  }

  // ----- fairness -------------------------------------------------------------------

  ghost function JobsOf(jobs: seq<Job>, tenant: string): seq<Job> {
    if jobs == [] then []
    else JobsOf(jobs[..|jobs| - 1], tenant) + if jobs[|jobs| - 1].tenant == tenant then [jobs[|jobs| - 1]] else []
  }

  ghost function ProgramsOf(programs: seq<Program>, tenant: string): seq<Program> {
    if programs == [] then []
    else
      var front, p := ProgramsOf(programs[..|programs| - 1], tenant), programs[|programs| - 1];
      if p.tenant == tenant then front + [p] else front
  }

  lemma {:induction false} JobsOfConcat(a: seq<Job>, b: seq<Job>, tenant: string)
    ensures JobsOf(a + b, tenant) == JobsOf(a, tenant) + JobsOf(b, tenant)
  {
    if b == [] {
      assert a + b == a;
    } else {
      var n := |b| - 1;
      JobsOfConcat(a, b[..n], tenant);
      assert (a + b)[..|a + b| - 1] == a + b[..n];
    }
  }

  lemma {:induction false} CountConcat(a: seq<Job>, b: seq<Job>, tenant: string)
    ensures CountFor(a + b, tenant) == CountFor(a, tenant) + CountFor(b, tenant)
  {
    if b == [] {
      assert a + b == a;
    } else {
      var n := |b| - 1;
      CountConcat(a, b[..n], tenant);
      assert (a + b)[..|a + b| - 1] == a + b[..n];
    }
  }

  lemma {:induction false} CountOwn(jobs: seq<Job>, tenant: string)
    ensures (forall j :: j in jobs ==> j.tenant == tenant) ==>
              CountFor(jobs, tenant) == |jobs| && JobsOf(jobs, tenant) == jobs
    ensures (forall j :: j in jobs ==> j.tenant != tenant) ==> CountFor(jobs, tenant) == 0 && JobsOf(jobs, tenant) == []
    ensures CountFor(jobs, tenant) == |JobsOf(jobs, tenant)|
  {
    if jobs != [] {
      CountOwn(jobs[..|jobs| - 1], tenant);
      assert jobs == jobs[..|jobs| - 1] + [jobs[|jobs| - 1]];
    }
  }

  lemma ListedStep(env: Env, programs: seq<Program>, p: Program)
    ensures var front := Listed(env, programs);
            Listed(env, programs + [p]) == front + ProgramJobs(env, p, env.maxPerTenant - CountFor(front, p.tenant))
  {
    hide ProgramJobs, CountFor;
    assert (programs + [p])[..|programs|] == programs;
  }

  /** Before sorting, a tenant's jobs are those of its programs alone, within the cap. */
  lemma {:induction false} ListedByTenant(env: Env, programs: seq<Program>, tenant: string)
    requires IsTable(env.table)
    ensures JobsOf(Listed(env, programs), tenant) == Listed(env, ProgramsOf(programs, tenant))
    ensures CountFor(Listed(env, programs), tenant) <= Max(env.maxPerTenant, 0)
  {
    hide ProgramJobs, IsTable, Listed, JobsOf, CountFor;
    if programs == [] {
      NothingListed(env, tenant);
    } else {
      var front, p := programs[..|programs| - 1], programs[|programs| - 1];
      ListedByTenant(env, front, tenant);
      assert programs == front + [p];
      var before := Listed(env, front);
      var room := env.maxPerTenant - CountFor(before, p.tenant);
      var js := ProgramJobs(env, p, room);
      ListedStep(env, front, p);
      ProgramJobsAreOwn(env, p, room);
      JobsOfConcat(before, js, tenant);
      CountConcat(before, js, tenant);
      CountOwn(js, tenant);
      CountOwn(before, tenant);
      if p.tenant == tenant {
        var own := ProgramsOf(front, tenant);
        ListedStep(env, own, p);
        ProgramsOfMembers(front, tenant);
        ListedIsOwn(env, own, tenant);
        CountOwn(Listed(env, own), tenant);
      }
    }
  }

  lemma NothingListed(env: Env, tenant: string)
    ensures Listed(env, []) == [] && JobsOf([], tenant) == [] && CountFor([], tenant) == 0
  {}

  lemma {:induction false} ListedIsOwn(env: Env, programs: seq<Program>, tenant: string)
    requires IsTable(env.table)
    requires forall p :: p in programs ==> p.tenant == tenant
    ensures forall j :: j in Listed(env, programs) ==> j.tenant == tenant
  {
    hide ProgramJobs, IsTable;
    if programs != [] {
      var front, p := programs[..|programs| - 1], programs[|programs| - 1];
      ListedIsOwn(env, front, tenant);
      ProgramJobsAreOwn(env, p, env.maxPerTenant - CountFor(Listed(env, front), p.tenant));
    }
  }

  lemma {:induction false} ProgramsOfMembers(programs: seq<Program>, tenant: string)
    ensures forall p :: p in ProgramsOf(programs, tenant) <==> p in programs && p.tenant == tenant
  {
    if programs != [] { ProgramsOfMembers(programs[..|programs| - 1], tenant); }
  }

  // Sorting, and picking one tenant's jobs, commute.

  lemma JobsOfCons(j: Job, rest: seq<Job>, tenant: string)
    ensures JobsOf([j] + rest, tenant) == (if j.tenant == tenant then [j] else []) + JobsOf(rest, tenant)
  {
    JobsOfConcat([j], rest, tenant);
    assert [j][..0] == [];
  }

  lemma {:induction false} InsertMembers(j: Job, sorted: seq<Job>)
    ensures multiset(Insert(j, sorted)) == multiset(sorted) + multiset{j}
    ensures forall x :: x in Insert(j, sorted) <==> x == j || x in sorted
  {
    if sorted != [] && j.priority > sorted[0].priority {
      InsertMembers(j, sorted[1..]);
      assert sorted == [sorted[0]] + sorted[1..];
    }
  }

  lemma ConsByPriority(h: Job, t: seq<Job>)
    requires ByPriority(t) && forall x :: x in t ==> h.priority <= x.priority
    ensures ByPriority([h] + t)
  {
    assert forall i :: 0 <= i < |t| ==> t[i] in t;
  }

  lemma {:induction false} InsertKeeps(j: Job, sorted: seq<Job>)
    requires ByPriority(sorted)
    ensures ByPriority(Insert(j, sorted)) && multiset(Insert(j, sorted)) == multiset(sorted) + multiset{j}
  {
    InsertMembers(j, sorted);
    if sorted != [] && j.priority > sorted[0].priority {
      InsertKeeps(j, sorted[1..]);
      InsertMembers(j, sorted[1..]);
      ConsByPriority(sorted[0], Insert(j, sorted[1..]));
    } else {
      ConsByPriority(j, sorted);
    }
  }

  lemma {:induction false} SortKeeps(jobs: seq<Job>)
    ensures ByPriority(SortByPriority(jobs)) && multiset(SortByPriority(jobs)) == multiset(jobs)
  {
    if jobs != [] {
      SortKeeps(jobs[1..]);
      InsertKeeps(jobs[0], SortByPriority(jobs[1..]));
      assert jobs == [jobs[0]] + jobs[1..];
    }
  }

  lemma {:induction false} InsertOf(j: Job, sorted: seq<Job>, tenant: string)
    requires ByPriority(sorted)
    ensures JobsOf(Insert(j, sorted), tenant)
            == if j.tenant == tenant then Insert(j, JobsOf(sorted, tenant)) else JobsOf(sorted, tenant)
  {
    hide JobsOf;
    if sorted == [] || j.priority <= sorted[0].priority {
      JobsOfCons(j, sorted, tenant);
      AllAtLeast(sorted, tenant, j.priority);
    } else {
      var h, rest := sorted[0], sorted[1..];
      InsertOf(j, rest, tenant);
      JobsOfCons(h, Insert(j, rest), tenant);
      JobsOfCons(h, rest, tenant);
      assert [h] + rest == sorted;
      assert [] + JobsOf(Insert(j, rest), tenant) == JobsOf(Insert(j, rest), tenant);
      assert [] + JobsOf(rest, tenant) == JobsOf(rest, tenant);
      if h.tenant == tenant {
        assert ([h] + JobsOf(rest, tenant))[1..] == JobsOf(rest, tenant);
      }
    }
  }

  lemma {:induction false} AllAtLeast(sorted: seq<Job>, tenant: string, priority: int)
    requires forall i :: 0 <= i < |sorted| ==> priority <= sorted[i].priority
    ensures forall i :: 0 <= i < |JobsOf(sorted, tenant)| ==> priority <= JobsOf(sorted, tenant)[i].priority
  {
    if sorted != [] { AllAtLeast(sorted[..|sorted| - 1], tenant, priority); }
  }

  lemma {:induction false} SortOf(jobs: seq<Job>, tenant: string)
    ensures JobsOf(SortByPriority(jobs), tenant) == SortByPriority(JobsOf(jobs, tenant))
  {
    if jobs != [] {
      SortOf(jobs[1..], tenant);
      SortKeeps(jobs[1..]);
      InsertOf(jobs[0], SortByPriority(jobs[1..]), tenant);
      assert jobs == [jobs[0]] + jobs[1..];
      JobsOfCons(jobs[0], jobs[1..], tenant);
      if jobs[0].tenant == tenant {
        assert ([jobs[0]] + JobsOf(jobs[1..], tenant))[1..] == JobsOf(jobs[1..], tenant);
      } else {
        assert [] + JobsOf(jobs[1..], tenant) == JobsOf(jobs[1..], tenant);
      }
    }
  }

  /** The jobs of one priority, in their order. */
  ghost function WithPriority(jobs: seq<Job>, priority: int): seq<Job> {
    if jobs == [] then []
    else (if jobs[0].priority == priority then [jobs[0]] else []) + WithPriority(jobs[1..], priority)
  }

  lemma {:induction false} InsertIsStable(j: Job, sorted: seq<Job>, priority: int)
    ensures WithPriority(Insert(j, sorted), priority)
            == (if j.priority == priority then [j] else []) + WithPriority(sorted, priority)
  {
    if sorted == [] || j.priority <= sorted[0].priority {
      assert ([j] + sorted)[1..] == sorted;
    } else {
      InsertIsStable(j, sorted[1..], priority);
    }
  }

  lemma {:induction false} SortIsStable(jobs: seq<Job>, priority: int)
    ensures WithPriority(SortByPriority(jobs), priority) == WithPriority(jobs, priority)
  {
    if jobs != [] {
      SortIsStable(jobs[1..], priority);
      InsertIsStable(jobs[0], SortByPriority(jobs[1..]), priority);
    }
  }

  /** Tenants do not interfere: the jobs a plan holds for a tenant, in their order, are the
      plan for that tenant's programs alone, and no more than the cap. */
  lemma TenantsDoNotInterfere(env: Env, programs: seq<Program>, tenant: string)
    requires IsTable(env.table)
    ensures JobsOf(Planned(env, programs), tenant) == Planned(env, ProgramsOf(programs, tenant))
    ensures |JobsOf(Planned(env, programs), tenant)| <= Max(env.maxPerTenant, 0)
  {
    ListedByTenant(env, programs, tenant);
    CountOwn(Listed(env, programs), tenant);
    SortOf(Listed(env, programs), tenant);
    var own := Listed(env, ProgramsOf(programs, tenant));
    SortKeeps(own);
    assert |multiset(SortByPriority(own))| == |multiset(own)|;
  }

  // ----- what a plan holds ----------------------------------------------------------

  /** Programs are stored once for each tenant and identifier. */
  ghost predicate AreDistinct(programs: seq<Program>) {
    forall i, j :: 0 <= i < j < |programs| ==>
        programs[i].tenant != programs[j].tenant || programs[i].id != programs[j].id
  }

  ghost predicate SameWork(a: Job, b: Job) {
    a.tenant == b.tenant && a.program == b.program && a.pipeline == b.pipeline
  }

  ghost predicate NoRepeats(jobs: seq<Job>) {
    forall i, j :: 0 <= i < j < |jobs| ==> !SameWork(jobs[i], jobs[j])
  }

  ghost predicate AllDue(env: Env, jobs: seq<Job>) {
    forall j :: j in jobs ==>
        IsDue(LastRun(env.schedule, j.tenant, j.program, j.pipeline), env.now, MinGap(j.pipeline, env.floor))
  }

  /** Every job belongs to one of the programs. */
  ghost predicate Belong(jobs: seq<Job>, programs: seq<Program>) {
    forall j :: j in jobs ==> exists p :: p in programs && j.tenant == p.tenant && j.program == p.id
  }

  /** A program without a completed full run appears with that run only. */
  ghost predicate FullFirst(jobs: seq<Job>, programs: seq<Program>) {
    forall p, j :: p in programs && !p.initialScanDone && j in jobs && j.tenant == p.tenant && j.program == p.id ==>
      j.pipeline == FULL
  }

  lemma {:induction false} ListedIsSound(env: Env, programs: seq<Program>)
    requires IsTable(env.table) && AreDistinct(programs)
    ensures NoRepeats(Listed(env, programs)) && AllDue(env, Listed(env, programs))
    ensures Belong(Listed(env, programs), programs) && FullFirst(Listed(env, programs), programs)
  {
    hide ProgramJobs, IsTable, IsDue, MinGap, Listed, Belong, FullFirst, AllDue, NoRepeats;
    if programs == [] {
      NothingIsSound(env);
    } else {
      var front, p := programs[..|programs| - 1], programs[|programs| - 1];
      ListedIsSound(env, front);
      assert programs == front + [p];
      ListedStep(env, front, p);
      var before := Listed(env, front);
      var room := env.maxPerTenant - CountFor(before, p.tenant);
      ProgramJobsAreOwn(env, p, room);
      assert forall q :: q in front ==> q.tenant != p.tenant || q.id != p.id;
      OneProgramMore(env, front, p, before, ProgramJobs(env, p, room));
    }
  }

  lemma NothingIsSound(env: Env)
    ensures Listed(env, []) == [] && NoRepeats([]) && AllDue(env, []) && Belong([], []) && FullFirst([], [])
  {}

  lemma OneProgramMore(env: Env, front: seq<Program>, p: Program, before: seq<Job>, js: seq<Job>)
    requires forall q :: q in front ==> q.tenant != p.tenant || q.id != p.id
    requires NoRepeats(before) && AllDue(env, before) && Belong(before, front) && FullFirst(before, front)
    requires forall j :: j in js ==> j.tenant == p.tenant && j.program == p.id
    requires forall j :: j in js ==>
               IsDue(LastRun(env.schedule, p.tenant, p.id, j.pipeline), env.now, MinGap(j.pipeline, env.floor))
    requires forall i, j :: 0 <= i < j < |js| ==> js[i].pipeline != js[j].pipeline
    requires !p.initialScanDone ==> forall j :: j in js ==> j.pipeline == FULL
    ensures NoRepeats(before + js) && AllDue(env, before + js)
    ensures Belong(before + js, front + [p]) && FullFirst(before + js, front + [p])
  {
    hide IsDue, MinGap, LastRun;
    forall j | j in before ensures j.tenant != p.tenant || j.program != p.id {
      var q :| q in front && j.tenant == q.tenant && j.program == q.id;
    }
    assert NoRepeats(before + js) by {
      assert forall i :: 0 <= i < |before| ==> before[i] in before;
      assert forall i :: 0 <= i < |js| ==> js[i] in js;
    }
    assert p in front + [p];
    forall j | j in before + js ensures exists q :: q in front + [p] && j.tenant == q.tenant && j.program == q.id {
      if j in before {
        var q :| q in front && j.tenant == q.tenant && j.program == q.id;
        assert q in front + [p];
      }
    }
  }

  /** A plan holds only jobs that are due, none of them twice, most urgent first; a program
      that has not completed its first full run gets that run alone. */
  lemma PlanIsSound(env: Env, programs: seq<Program>)
    requires IsTable(env.table) && AreDistinct(programs)
    ensures NoRepeats(Planned(env, programs)) && AllDue(env, Planned(env, programs))
            && ByPriority(Planned(env, programs))
    ensures FullFirst(Planned(env, programs), programs)
  {
    hide Listed, SortByPriority, IsTable, IsDue, MinGap, NoRepeats;
    ListedIsSound(env, programs);
    var jobs := Listed(env, programs);
    SortKeeps(jobs);
    PermutedNoRepeats(jobs, SortByPriority(jobs));
    forall j ensures j in jobs <==> j in SortByPriority(jobs) {
      assert j in jobs <==> j in multiset(jobs);
    }
  }

  lemma PermutedNoRepeats(a: seq<Job>, b: seq<Job>)
    requires multiset(a) == multiset(b) && NoRepeats(a)
    ensures NoRepeats(b)
  {
    forall i, j | 0 <= i < j < |b| ensures !SameWork(b[i], b[j]) {
      if SameWork(b[i], b[j]) {
        assert b[i] in multiset(a) && b[j] in multiset(a);
        var k, l :| 0 <= k < |a| && a[k] == b[i] && 0 <= l < |a| && a[l] == b[j];
        if b[i] == b[j] {
          Twice(b, i, j);
          OnceIn(a, k);
        }
      }
    }
  }

  lemma Twice(b: seq<Job>, i: nat, j: nat)
    requires i < j < |b| && b[i] == b[j]
    ensures multiset(b)[b[i]] >= 2
  {
    assert b == b[..j] + [b[j]] + b[j + 1..];
    assert b[i] in b[..j];
  }

  lemma OnceIn(a: seq<Job>, k: nat)
    requires k < |a| && NoRepeats(a)
    ensures multiset(a)[a[k]] == 1
  {
    assert a == a[..k] + [a[k]] + a[k + 1..];
    assert a[k] !in a[..k] && a[k] !in a[k + 1..];
  }

  lemma {:induction false} PhaseJobsAreAll(env: Env, p: Program, cadence: Cadence, room: int, e: (string, int))
    requires e in cadence && PipelineDue(env, p, e)
    ensures |PhaseJobs(env, p, cadence, room)| >= room || PhaseJob(env, p, e.0) in PhaseJobs(env, p, cadence, room)
  {
    hide PipelineDue, PhaseJob;
    var front, last := cadence[..|cadence| - 1], cadence[|cadence| - 1];
    if e in front { PhaseJobsAreAll(env, p, front, room, e); }
  }

  /** No full run of the program is in flight, unless it has gone stale, and none was stopped
      in the last half hour. */
  ghost predicate NoRunBlocks(env: Env, p: Program) {
    forall r :: r in env.runs && r.tenant == p.tenant && r.program == p.id && r.pipeline == "full" ==>
      var since := if r.startedAt.Some? then r.startedAt else r.createdAt;
      var over := if r.finishedAt.Some? then r.finishedAt else r.cancelledAt;
      && (r.status == QUEUED || r.status == RUNNING ==> since.Some? && env.now - since.value >= env.stale)
      && (r.status == CANCELLED && over.Some? ==> env.now - over.value > 1800.0)
  }

  lemma HeldBackIff(env: Env, p: Program)
    ensures HeldBack(env, p) <==> !NoRunBlocks(env, p)
  {
    ActiveFullIff(env.runs, p.tenant, p.id, env.now, env.stale);
    CancelledFullIff(env.runs, p.tenant, p.id, CANCEL_COOLOFF, env.now);
  }

  /** Pipeline `x` of the program was last enqueued `interval` seconds ago or earlier, if ever. */
  predicate HasWaited(env: Env, p: Program, x: string, interval: int) {
    var key := (p.tenant, p.id + ":" + x);
    key !in env.schedule || env.now - env.schedule[key] >= interval as real
  }

  predicate HasInterval(env: Env, p: Program, x: string, n: int) {
    exists i :: 0 <= i < |env.table| && env.table[i].0 == x
                && IsMostSpecific(x, env.table[i].1, p.overrides,
                                  if p.tenant in env.tenantOverrides then env.tenantOverrides[p.tenant] else map[],
                                  env.floor, n)
  }

  /** A program that may run and has pipeline `x` due: once its first full run is done a
      module that is on and has waited for its interval, until then the full run alone. */
  ghost predicate IsOwed(env: Env, p: Program, x: string) {
    && p.enabled && p.verified && p.authorized && NoRunBlocks(env, p)
    && if p.initialScanDone then x in p.modules && exists n :: HasInterval(env, p, x, n) && HasWaited(env, p, x, n)
       else x == "full" && HasWaited(env, p, x, 1800)
  }

  /** The job is owed to the program; it is urgent if it is a first run. */
  ghost predicate IsWorkOf(env: Env, p: Program, j: Job) {
    && j.tenant == p.tenant && j.program == p.id && IsOwed(env, p, j.pipeline)
    && j.priority == if !p.initialScanDone || (p.tenant, p.id + ":" + j.pipeline) !in env.schedule then 10 else 50
  }

  /** The intervals of a program are those of its cadence. */
  lemma IntervalIsCadence(env: Env, p: Program, x: string, n: int)
    ensures HasInterval(env, p, x, n) <==> exists e :: e in CadenceOf(env, p) && e == (x, n)
  {
    hide IsMostSpecific;
    var c := CadenceOf(env, p);
    forall i, n | 0 <= i < |env.table| && n != c[i].1
      ensures !IsMostSpecific(env.table[i].0, env.table[i].1, p.overrides, TenantOverrides(env, p.tenant), env.floor, n)
    {
      OneInterval(env.table[i].0, env.table[i].1, p.overrides, TenantOverrides(env, p.tenant), env.floor, n, c[i].1);
    }
    forall i | 0 <= i < |env.table| ensures c[i] in c && c[i].0 == env.table[i].0 {}
  }

  lemma OneInterval(x: string, builtIn: int, program: map<string, Override>, tenant: map<string, Override>, floor: int,
                    n: int, m: int)
    requires IsMostSpecific(x, builtIn, program, tenant, floor, m)
    ensures IsMostSpecific(x, builtIn, program, tenant, floor, n) ==> n == m
  {}

  lemma DueIsWaited(env: Env, p: Program, x: string, n: int)
    ensures IsDue(LastRun(env.schedule, p.tenant, p.id, x), env.now, n) <==> HasWaited(env, p, x, n)
    ensures LastRun(env.schedule, p.tenant, p.id, x).None? <==> (p.tenant, p.id + ":" + x) !in env.schedule
  {}

  lemma ProgramJobsAreOwed(env: Env, p: Program, room: int)
    ensures forall j :: j in ProgramJobs(env, p, room) ==> IsWorkOf(env, p, j)
  {
    hide HeldBack, NoRunBlocks, CadenceOf, LastRun, IsDue, HasWaited, HasInterval;
    HeldBackIff(env, p);
    var cadence := CadenceOf(env, p);
    PhaseJobsAreOwn(env, p, cadence, room);
    DueIsWaited(env, p, "full", 1800);
    forall j | j in ProgramJobs(env, p, room) && p.initialScanDone ensures IsWorkOf(env, p, j) {
      var e :| e in cadence && e.0 == j.pipeline && PipelineDue(env, p, e);
      IntervalIsCadence(env, p, e.0, e.1);
      DueIsWaited(env, p, e.0, e.1);
    }
  }

  lemma {:induction false} ListedIsOwed(env: Env, programs: seq<Program>, j: Job)
    requires j in Listed(env, programs)
    ensures exists p :: p in programs && IsWorkOf(env, p, j)
  {
    hide ProgramJobs, IsWorkOf, CountFor;
    var front, p := programs[..|programs| - 1], programs[|programs| - 1];
    if j in Listed(env, front) {
      ListedIsOwed(env, front, j);
      var q :| q in front && IsWorkOf(env, q, j);
      assert q in programs;
    } else {
      ProgramJobsAreOwed(env, p, env.maxPerTenant - CountFor(Listed(env, front), p.tenant));
    }
  }

  /** Every job of a plan is owed to one of the programs: enabled, verified and authorized,
      held back by no run, and due by its own cadence. */
  lemma PlannedIsOwed(env: Env, programs: seq<Program>, j: Job)
    requires j in Planned(env, programs)
    ensures exists p :: p in programs && IsWorkOf(env, p, j)
  {
    hide Listed, SortByPriority, IsWorkOf;
    SortKeeps(Listed(env, programs));
    assert j in multiset(SortByPriority(Listed(env, programs)));
    ListedIsOwed(env, programs, j);
  }

  ghost predicate HoldsWork(jobs: seq<Job>, p: Program, x: string) {
    exists j :: j in jobs && j.tenant == p.tenant && j.program == p.id && j.pipeline == x
  }

  lemma ProgramJobsAreAll(env: Env, p: Program, room: int, x: string)
    requires IsOwed(env, p, x)
    ensures |ProgramJobs(env, p, room)| >= room || HoldsWork(ProgramJobs(env, p, room), p, x)
  {
    hide HeldBack, NoRunBlocks, CadenceOf, LastRun, IsDue, HasWaited, HasInterval, PhaseJobs;
    HeldBackIff(env, p);
    DueIsWaited(env, p, "full", 1800);
    if p.initialScanDone {
      var n :| HasInterval(env, p, x, n) && HasWaited(env, p, x, n);
      IntervalIsCadence(env, p, x, n);
      DueIsWaited(env, p, x, n);
      assert PipelineDue(env, p, (x, n));
      PhaseJobsAreAll(env, p, CadenceOf(env, p), room, (x, n));
    }
  }

  lemma ProgramIsServed(env: Env, p: Program, x: string, before: seq<Job>)
    requires IsTable(env.table) && IsOwed(env, p, x)
    ensures var js := ProgramJobs(env, p, env.maxPerTenant - CountFor(before, p.tenant));
            CountFor(before + js, p.tenant) >= env.maxPerTenant || HoldsWork(js, p, x)
  {
    hide ProgramJobs, IsTable, CountFor, IsOwed, HoldsWork;
    var room := env.maxPerTenant - CountFor(before, p.tenant);
    var js := ProgramJobs(env, p, room);
    CountConcat(before, js, p.tenant);
    ProgramJobsAreAll(env, p, room, x);
    ProgramJobsAreOwn(env, p, room);
    CountOwn(js, p.tenant);
  }

  lemma {:induction false} ListedIsComplete(env: Env, programs: seq<Program>, p: Program, x: string)
    requires IsTable(env.table) && p in programs && IsOwed(env, p, x)
    ensures CountFor(Listed(env, programs), p.tenant) >= env.maxPerTenant || HoldsWork(Listed(env, programs), p, x)
  {
    hide ProgramJobs, IsTable, Listed, CountFor, IsOwed, HoldsWork;
    var front, q := programs[..|programs| - 1], programs[|programs| - 1];
    assert programs == front + [q];
    ListedStep(env, front, q);
    var before := Listed(env, front);
    var room := env.maxPerTenant - CountFor(before, q.tenant);
    var js := ProgramJobs(env, q, room);
    CountConcat(before, js, p.tenant);
    WorkInConcat(before, js, p, x);
    if p == q {
      ProgramIsServed(env, p, x, before);
    } else {
      ListedIsComplete(env, front, p, x);
    }
  }

  lemma WorkInConcat(a: seq<Job>, b: seq<Job>, p: Program, x: string)
    ensures HoldsWork(a, p, x) || HoldsWork(b, p, x) ==> HoldsWork(a + b, p, x)
  {
    if HoldsWork(a, p, x) {
      var j :| j in a && j.tenant == p.tenant && j.program == p.id && j.pipeline == x;
      assert j in a + b;
    }
    if HoldsWork(b, p, x) {
      var j :| j in b && j.tenant == p.tenant && j.program == p.id && j.pipeline == x;
      assert j in a + b;
    }
  }

  /** Nothing that is due is left out of a plan but by the cap of its tenant. */
  lemma PlanIsComplete(env: Env, programs: seq<Program>, p: Program, x: string)
    requires IsTable(env.table) && p in programs && IsOwed(env, p, x)
    ensures |JobsOf(Planned(env, programs), p.tenant)| >= env.maxPerTenant || HoldsWork(Planned(env, programs), p, x)
  {
    hide IsTable, Listed, CountFor, IsOwed, JobsOf, SortByPriority;
    var jobs := Listed(env, programs);
    ListedIsComplete(env, programs, p, x);
    SortKeeps(jobs);
    SortOf(jobs, p.tenant);
    CountOwn(jobs, p.tenant);
    SortKeeps(JobsOf(jobs, p.tenant));
    assert |multiset(SortByPriority(JobsOf(jobs, p.tenant)))| == |multiset(JobsOf(jobs, p.tenant))|;
    if HoldsWork(jobs, p, x) {
      var j :| j in jobs && j.tenant == p.tenant && j.program == p.id && j.pipeline == x;
      assert j in multiset(jobs);
      assert j in SortByPriority(jobs);
    }
  }

  /** Programs are served in their order: nothing due to program `k` is left out but by jobs
      of its tenant that the programs up to it take, and jobs of one priority keep the order
      of the programs. */
  lemma FirstComeFirstServed(env: Env, programs: seq<Program>, k: nat, x: string, priority: int)
    requires IsTable(env.table) && k < |programs| && IsOwed(env, programs[k], x)
    ensures |JobsOf(Planned(env, programs[..k + 1]), programs[k].tenant)| >= env.maxPerTenant
            || HoldsWork(Planned(env, programs), programs[k], x)
    ensures Listed(env, programs[..k + 1]) <= Listed(env, programs)
    ensures WithPriority(Planned(env, programs), priority) == WithPriority(Listed(env, programs), priority)
  {
    hide IsTable, Listed, CountFor, IsOwed, JobsOf, SortByPriority;
    var upTo, jobs := programs[..k + 1], Listed(env, programs);
    assert programs[k] in upTo by { assert upTo[k] == programs[k]; }
    PlanIsComplete(env, upTo, programs[k], x);
    ListedGrows(env, programs, k + 1);
    SortIsStable(jobs, priority);
    SortKeeps(jobs);
    SortKeeps(Listed(env, upTo));
    if HoldsWork(Planned(env, upTo), programs[k], x) {
      var j :| j in Planned(env, upTo) && j.tenant == programs[k].tenant && j.program == programs[k].id
               && j.pipeline == x;
      assert j in multiset(Listed(env, upTo));
      assert j in multiset(jobs);
      assert j in Planned(env, programs);
    }
  }

  lemma {:induction false} ListedGrows(env: Env, programs: seq<Program>, k: nat)
    requires k <= |programs|
    ensures Listed(env, programs[..k]) <= Listed(env, programs)
  {
    hide ProgramJobs, CountFor;
    if k == |programs| {
      assert programs[..k] == programs;
    } else {
      var front := programs[..|programs| - 1];
      ListedGrows(env, front, k);
      assert front[..k] == programs[..k];
    }
  }

  // ----- runs of the scheduler ------------------------------------------------------

  function Marked(schedule: Schedule, jobs: seq<Job>, now: real): Schedule {
    if jobs == [] then schedule
    else
      var j := jobs[|jobs| - 1];
      Marked(schedule, jobs[..|jobs| - 1], now)[(j.tenant, ScheduleKey(j.program, j.pipeline)) := now]
  }

  /** The scan runs and last-run state that the scheduler works on. */
  class Store {
    const repo: ScanRunRepo
    var schedule: Schedule

    constructor (repo: ScanRunRepo)
      ensures this.repo == repo && schedule == map[]
    {
      this.repo := repo;
      schedule := map[];
    }

    /** One tick: reap, plan, then enqueue and mark job after job.  The queue takes the
        first `accepts` of them and then fails, ending the tick. */
    method RunOnce(env: Env, programs: seq<Program>, accepts: nat) returns (enqueued: seq<Job>)
      requires env.runs == repo.runs && env.schedule == schedule
      modifies this, repo
      ensures repo.runs == Reaped(old(repo.runs), env.stale, env.now)
      ensures var plan := Planned(env, programs);
              enqueued == plan[..if accepts <= |plan| then accepts else |plan|]
      ensures schedule == Marked(old(schedule), enqueued, env.now)
    {
      hide Marked, Reaped, Planned;
      var _ := repo.ReapStale(env.stale, env.now);
      var jobs := Plan(env.(runs := repo.runs), programs);
      ReapingKeepsThePlan(env, programs);
      MarkedPrefixes(schedule, jobs, env.now);
      enqueued := [];
      for i := 0 to |jobs|
        invariant repo.runs == Reaped(old(repo.runs), env.stale, env.now)
        invariant i <= accepts && enqueued == jobs[..i]
        invariant schedule == Marked(old(schedule), enqueued, env.now)
      {
        if i == accepts { return; }
        var job := jobs[i];
        enqueued := enqueued + [job];
        schedule := schedule[(job.tenant, ScheduleKey(job.program, job.pipeline)) := env.now];
      }
    }
  }

  lemma MarkedPrefixes(schedule: Schedule, jobs: seq<Job>, now: real)
    ensures Marked(schedule, jobs[..0], now) == schedule
    ensures forall i :: 0 <= i < |jobs| ==>
              Marked(schedule, jobs[..i + 1], now)
              == Marked(schedule, jobs[..i], now)[
                   (jobs[i].tenant, ScheduleKey(jobs[i].program, jobs[i].pipeline)) := now]
  {
    hide ScheduleKey;
    forall i | 0 <= i < |jobs|
      ensures Marked(schedule, jobs[..i + 1], now)
              == Marked(schedule, jobs[..i], now)[
                   (jobs[i].tenant, ScheduleKey(jobs[i].program, jobs[i].pipeline)) := now]
    {
      assert jobs[..i + 1][..i] == jobs[..i];
    }
  }

  /** Reaping first changes nothing in the plan. */
  lemma {:induction false} ReapingKeepsThePlan(env: Env, programs: seq<Program>)
    ensures Planned(env.(runs := Reaped(env.runs, env.stale, env.now)), programs) == Planned(env, programs)
  {
    ReapingKeepsListed(env, programs);
  }

  lemma {:induction false} ReapingKeepsListed(env: Env, programs: seq<Program>)
    ensures Listed(env.(runs := Reaped(env.runs, env.stale, env.now)), programs) == Listed(env, programs)
  {
    hide CountFor, ProgramJobs, Reaped;
    var env' := env.(runs := Reaped(env.runs, env.stale, env.now));
    if programs != [] {
      var front, p := programs[..|programs| - 1], programs[|programs| - 1];
      assert programs == front + [p];
      ReapingKeepsListed(env, front);
      ListedStep(env, front, p);
      ListedStep(env', front, p);
      ReapingKeepsProgram(env, p, env.maxPerTenant - CountFor(Listed(env, front), p.tenant));
    }
  }

  lemma ReapingKeepsProgram(env: Env, p: Program, room: int)
    ensures ProgramJobs(env.(runs := Reaped(env.runs, env.stale, env.now)), p, room) == ProgramJobs(env, p, room)
  {
    hide EffectiveCadence, FindActiveFull, RecentCancelledFull, Reaped;
    var env' := env.(runs := Reaped(env.runs, env.stale, env.now));
    ReapingIsInvisible(env.runs, p.tenant, p.id, env.stale, CANCEL_COOLOFF, env.now);
    PhasesIgnoreRuns(env, env', p, CadenceOf(env, p), room);
  }

  lemma {:induction false} PhasesIgnoreRuns(env: Env, env': Env, p: Program, cadence: Cadence, room: int)
    requires env' == env.(runs := env'.runs)
    ensures PhaseJobs(env', p, cadence, room) == PhaseJobs(env, p, cadence, room)
  {
    if cadence != [] { PhasesIgnoreRuns(env, env', p, cadence[..|cadence| - 1], room); }
  }

  /** One tick as seen from outside: what it read, and how many jobs the queue took. */
  datatype TickRecord = TickRecord(env: Env, programs: seq<Program>, accepts: nat)

  datatype Enqueue = Enqueue(job: Job, at: real)

  ghost function Sent(t: TickRecord): seq<Job> {
    var jobs := Planned(t.env, t.programs);
    jobs[..if t.accepts <= |jobs| then t.accepts else |jobs|]
  }

  ghost function Stamped(jobs: seq<Job>, at: real): (es: seq<Enqueue>)
    ensures |es| == |jobs| && forall i :: 0 <= i < |jobs| ==> es[i] == Enqueue(jobs[i], at)
  {
    seq(|jobs|, i requires 0 <= i < |jobs| => Enqueue(jobs[i], at))
  }

  /** Everything enqueued by a run of ticks. */
  ghost function Log(ticks: seq<TickRecord>): seq<Enqueue> {
    if ticks == [] then []
    else
      var t := ticks[|ticks| - 1];
      Log(ticks[..|ticks| - 1]) + Stamped(Sent(t), t.env.now)
  }

  ghost function ScheduleAfter(start: Schedule, ticks: seq<TickRecord>): Schedule {
    if ticks == [] then start
    else
      var t := ticks[|ticks| - 1];
      Marked(ScheduleAfter(start, ticks[..|ticks| - 1]), Sent(t), t.env.now)
  }

  /** The ticks of one scheduler: time does not run backwards and each tick reads the state
      its predecessors left.  Programs, overrides, runs and even the floor, as long as it
      is not lowered below `floor`, may change freely in between. */
  ghost predicate IsRun(start: Schedule, ticks: seq<TickRecord>, floor: int) {
    && (forall i, j :: 0 <= i <= j < |ticks| ==> ticks[i].env.now <= ticks[j].env.now)
    && (forall i :: 0 <= i < |ticks| ==>
          && IsTable(ticks[i].env.table) && AreDistinct(ticks[i].programs) && ticks[i].env.floor >= floor
          && ticks[i].env.schedule == ScheduleAfter(start, ticks[..i]))
  }

  ghost predicate AreSpaced(log: seq<Enqueue>, floor: int) {
    forall i, j :: 0 <= i < j < |log| && SameWork(log[i].job, log[j].job) ==>
      log[j].at - log[i].at >= MinGap(log[j].job.pipeline, floor) as real
  }

  /** The state remembers, for everything enqueued, a time no earlier. */
  ghost predicate Remembers(schedule: Schedule, log: seq<Enqueue>) {
    forall i :: 0 <= i < |log| ==>
      var last := LastRun(schedule, log[i].job.tenant, log[i].job.program, log[i].job.pipeline);
      last.Some? && last.value >= log[i].at
  }

  lemma {:induction false} MarkedRemembers(schedule: Schedule, jobs: seq<Job>, now: real)
    ensures forall j :: j in jobs ==> LastRun(Marked(schedule, jobs, now), j.tenant, j.program, j.pipeline) == Some(now)
    ensures forall t, p, x :: LastRun(schedule, t, p, x).Some? && LastRun(schedule, t, p, x).value <= now ==>
              var last := LastRun(Marked(schedule, jobs, now), t, p, x);
              last.Some? && LastRun(schedule, t, p, x).value <= last.value <= now
  {
    if jobs != [] {
      MarkedRemembers(schedule, jobs[..|jobs| - 1], now);
    }
  }

  ghost predicate AllBy(schedule: Schedule, log: seq<Enqueue>, now: real) {
    forall i :: 0 <= i < |log| ==>
      var last := LastRun(schedule, log[i].job.tenant, log[i].job.program, log[i].job.pipeline);
      last.Some? && last.value <= now
  }

  lemma SentIsSound(t: TickRecord)
    requires IsTable(t.env.table) && AreDistinct(t.programs)
    ensures NoRepeats(Sent(t)) && AllDue(t.env, Sent(t))
  {
    PlanIsSound(t.env, t.programs);
    var jobs := Planned(t.env, t.programs);
    assert forall j :: j in Sent(t) ==> j in jobs;
  }

  /** Spacing: over every run of ticks, two jobs for the same pipeline of a program are at
      least its minimum gap apart, however the overrides change between ticks. */
  lemma {:induction false} JobsAreSpaced(start: Schedule, ticks: seq<TickRecord>, floor: int)
    requires IsRun(start, ticks, floor)
    ensures AreSpaced(Log(ticks), floor)
    ensures Remembers(ScheduleAfter(start, ticks), Log(ticks))
    ensures ticks != [] ==> AllBy(ScheduleAfter(start, ticks), Log(ticks), ticks[|ticks| - 1].env.now)
  {
    hide AreSpaced, Remembers, AllBy, NoRepeats, AllDue, Marked, Sent, Stamped, IsTable, AreDistinct;
    if ticks == [] {
      NothingSent(start, floor);
    } else {
      var n := |ticks| - 1;
      var t, front := ticks[n], ticks[..n];
      RunPrefix(start, ticks, floor);
      JobsAreSpaced(start, front, floor);
      var earlier, state := Log(front), ScheduleAfter(start, front);
      if n > 0 {
        AllByLater(state, earlier, front[n - 1].env.now, t.env.now);
      } else {
        NothingBy(state, t.env.now);
      }
      SentIsSound(t);
      OneTickMore(state, earlier, t, floor);
    }
  }

  lemma NothingSent(start: Schedule, floor: int)
    ensures AreSpaced([], floor) && Remembers(start, [])
  {}

  lemma NothingBy(state: Schedule, now: real)
    ensures AllBy(state, [], now)
  {}

  lemma AllByLater(state: Schedule, log: seq<Enqueue>, now: real, later: real)
    requires AllBy(state, log, now) && now <= later
    ensures AllBy(state, log, later)
  {}

  lemma RunPrefix(start: Schedule, ticks: seq<TickRecord>, floor: int)
    requires IsRun(start, ticks, floor) && ticks != []
    ensures var n := |ticks| - 1;
            && IsRun(start, ticks[..n], floor)
            && IsTable(ticks[n].env.table) && AreDistinct(ticks[n].programs) && ticks[n].env.floor >= floor
            && ticks[n].env.schedule == ScheduleAfter(start, ticks[..n])
            && (n > 0 ==> ticks[n - 1].env.now <= ticks[n].env.now)
  {
    hide IsTable, AreDistinct, ScheduleAfter;
    var n := |ticks| - 1;
    assert forall i :: 0 <= i < n ==> ticks[..n][..i] == ticks[..i];
  }

  lemma OneTickMore(state: Schedule, earlier: seq<Enqueue>, t: TickRecord, floor: int)
    requires AreSpaced(earlier, floor) && Remembers(state, earlier) && AllBy(state, earlier, t.env.now)
    requires NoRepeats(Sent(t)) && AllDue(t.env, Sent(t)) && t.env.schedule == state && t.env.floor >= floor
    ensures var log := earlier + Stamped(Sent(t), t.env.now);
            && AreSpaced(log, floor)
            && Remembers(Marked(state, Sent(t), t.env.now), log)
            && AllBy(Marked(state, Sent(t), t.env.now), log, t.env.now)
  {
    hide Sent, LastRun, Marked;
    var jobs := Sent(t);
    var log := earlier + Stamped(jobs, t.env.now);
    MarkedRemembers(state, jobs, t.env.now);
    forall i, j | |earlier| <= i < j < |log| ensures !SameWork(log[i].job, log[j].job) {
      assert !SameWork(jobs[i - |earlier|], jobs[j - |earlier|]);
    }
    forall i, j | 0 <= i < j < |log| && SameWork(log[i].job, log[j].job)
      ensures log[j].at - log[i].at >= MinGap(log[j].job.pipeline, floor) as real
    {
      assert i < |earlier| && log[i] == earlier[i];
      if j < |earlier| {
        assert log[j] == earlier[j];
      } else {
        var job := jobs[j - |earlier|];
        assert log[j] == Enqueue(job, t.env.now) && job in jobs;
        assert IsDue(LastRun(state, job.tenant, job.program, job.pipeline), t.env.now,
                     MinGap(job.pipeline, t.env.floor));
      }
    }
  }
}
