/**
  Scan runs: the stored trail of runs and its reaper (db/audit.py), and the stage machine
  of a full run (pipelines/orchestrate.py).  Times are in seconds.
*/
module ScanRuns {
  import opened Wrappers

  datatype ScanStatus = QUEUED | RUNNING | SUCCESS | FAILED | SKIPPED | CANCELLED

  predicate Terminal(st: ScanStatus) { st != QUEUED && st != RUNNING }

  // ----- the trail ------------------------------------------------------------------

  datatype Stage = Stage(name: string, status: ScanStatus, finishedAt: Option<real>)

  datatype ScanRun = ScanRun(
    tenant: string, scanId: string, program: string, pipeline: string, status: ScanStatus,
    startedAt: Option<real>, createdAt: Option<real>, finishedAt: Option<real>, cancelledAt: Option<real>,
    error: string, stages: seq<Stage>)

  /** The age of a run counts from its start, or else from its creation. */
  function Since(r: ScanRun): Option<real> {
    if r.startedAt.Some? then r.startedAt else r.createdAt
  }

  predicate InFlight(r: ScanRun) { r.status == QUEUED || r.status == RUNNING }

  predicate IsStale(r: ScanRun, olderThan: real, now: real) {
    InFlight(r) && Since(r).Some? && Since(r).value < now - olderThan
  }

  function ReapedStage(s: Stage, now: real): Stage {
    match s.status
    case RUNNING => s.(status := FAILED, finishedAt := Some(now))
    case QUEUED => s.(status := SKIPPED)
    case _ => s
  }

  function ReapedStages(stages: seq<Stage>, now: real): (out: seq<Stage>)
    ensures |out| == |stages| && forall i :: 0 <= i < |stages| ==> out[i] == ReapedStage(stages[i], now)
  {
    seq(|stages|, i requires 0 <= i < |stages| => ReapedStage(stages[i], now))
  }

  function ReapedRun(r: ScanRun, olderThan: real, now: real): ScanRun {
    if IsStale(r, olderThan, now)
    then r.(status := FAILED, finishedAt := Some(now), error := "orphaned", stages := ReapedStages(r.stages, now))
    else r
  }

  function Reaped(runs: seq<ScanRun>, olderThan: real, now: real): (out: seq<ScanRun>)
    ensures |out| == |runs| && forall i :: 0 <= i < |runs| ==> out[i] == ReapedRun(runs[i], olderThan, now)
  {
    seq(|runs|, i requires 0 <= i < |runs| => ReapedRun(runs[i], olderThan, now))
  }

  function CountStale(runs: seq<ScanRun>, olderThan: real, now: real): nat {
    if runs == [] then 0
    else CountStale(runs[..|runs| - 1], olderThan, now) + if IsStale(runs[|runs| - 1], olderThan, now) then 1 else 0
  }

  /** `c` is what a sweep leaves of `r`: a run begun more than `olderThan` ago and still in
      flight is over, its running stage failed and the stages not begun skipped; any other
      run is as it was. */
  ghost predicate IsSwept(r: ScanRun, c: ScanRun, olderThan: real, now: real) {
    var since := if r.startedAt.Some? then r.startedAt else r.createdAt;
    if (r.status == QUEUED || r.status == RUNNING) && since.Some? && now - since.value > olderThan then
      && c == r.(status := FAILED, finishedAt := Some(now), error := "orphaned", stages := c.stages)
      && |c.stages| == |r.stages|
      && forall k :: 0 <= k < |r.stages| ==>
           var s := r.stages[k];
           c.stages[k] == if s.status == RUNNING then s.(status := FAILED, finishedAt := Some(now))
                          else if s.status == QUEUED then s.(status := SKIPPED) else s
    else c == r
  }

  lemma SweptRuns(runs: seq<ScanRun>, olderThan: real, now: real)
    ensures var swept := Reaped(runs, olderThan, now);
            forall i :: 0 <= i < |runs| ==>
              IsSwept(runs[i], swept[i], olderThan, now) && (IsStale(runs[i], olderThan, now) <==> runs[i] != swept[i])
  {}

  ghost function StaleAt(runs: seq<ScanRun>, n: nat, olderThan: real, now: real): set<nat>
    requires n <= |runs|
  {
    set i: nat | i < n && IsStale(runs[i], olderThan, now)
  }

  lemma {:induction false} StaleAreCounted(runs: seq<ScanRun>, n: nat, olderThan: real, now: real)
    requires n <= |runs|
    ensures CountStale(runs[..n], olderThan, now) == |StaleAt(runs, n, olderThan, now)|
  {
    hide IsStale;
    var stale := StaleAt(runs, n, olderThan, now);
    if n == 0 {
      assert stale == {};
    } else {
      StaleAreCounted(runs, n - 1, olderThan, now);
      var before := StaleAt(runs, n - 1, olderThan, now);
      assert runs[..n][..n - 1] == runs[..n - 1];
      if IsStale(runs[n - 1], olderThan, now) {
        assert stale == before + {n - 1};
      } else {
        assert stale == before;
      }
    }
  }

  lemma SweptAreCounted(runs: seq<ScanRun>, olderThan: real, now: real)
    ensures CountStale(runs, olderThan, now) == |set i: nat | i < |runs| && runs[i] != Reaped(runs, olderThan, now)[i]|
  {
    SweptRuns(runs, olderThan, now);
    hide IsStale, IsSwept, ReapedRun, CountStale;
    StaleAreCounted(runs, |runs|, olderThan, now);
    assert runs[..|runs|] == runs;
    assert (set i: nat | i < |runs| && runs[i] != Reaped(runs, olderThan, now)[i])
           == StaleAt(runs, |runs|, olderThan, now);
  }

  class ScanRunRepo {
    var runs: seq<ScanRun>

    /** Closes out one orphaned run, stage by stage. */
    static method CloseOut(doc: ScanRun, now: real) returns (closed: ScanRun)
      ensures closed == doc.(status := FAILED, finishedAt := Some(now), error := "orphaned",
                             stages := ReapedStages(doc.stages, now))
    {
      var stages := doc.stages;
      for j := 0 to |stages|
        invariant |stages| == |doc.stages|
        invariant forall k :: 0 <= k < j ==> stages[k] == ReapedStage(doc.stages[k], now)
        invariant forall k :: j <= k < |stages| ==> stages[k] == doc.stages[k]
      {
        if stages[j].status == RUNNING {
          stages := stages[j := stages[j].(status := FAILED, finishedAt := Some(now))];
        } else if stages[j].status == QUEUED {
          stages := stages[j := stages[j].(status := SKIPPED)];
        }
      }
      closed := doc.(status := FAILED, finishedAt := Some(now), error := "orphaned", stages := stages);
    }

    method ReapStale(olderThan: real, now: real) returns (reaped: nat)
      modifies this
      ensures runs == Reaped(old(runs), olderThan, now)
      ensures |runs| == |old(runs)| && forall i :: 0 <= i < |runs| ==> IsSwept(old(runs)[i], runs[i], olderThan, now)
      ensures reaped == CountStale(old(runs), olderThan, now)
      ensures reaped == |set i: nat | i < |runs| && old(runs)[i] != runs[i]|
    {
      hide IsStale, IsSwept;
      reaped := 0;
      var before := runs;
      SweptRuns(before, olderThan, now);
      SweptAreCounted(before, olderThan, now);
      for i := 0 to |before|
        invariant |runs| == |before|
        invariant forall k :: 0 <= k < i ==> runs[k] == ReapedRun(before[k], olderThan, now)
        invariant forall k :: i <= k < |before| ==> runs[k] == before[k]
        invariant reaped == CountStale(before[..i], olderThan, now)
      {
        assert before[..i + 1][..i] == before[..i];
        if IsStale(before[i], olderThan, now) {
          var closed := CloseOut(runs[i], now);
          runs := runs[i := closed];
          reaped := reaped + 1;
        }
      }
      assert before[..|before|] == before;
      assert runs == Reaped(before, olderThan, now);
    }
  }

  predicate IsFullOf(r: ScanRun, tenant: string, program: string) {
    r.tenant == tenant && r.program == program && r.pipeline == "full"
  }

  /** A run that has gone stale does not count as active. */
  predicate IsActiveFull(r: ScanRun, tenant: string, program: string, now: real, stale: real) {
    IsFullOf(r, tenant, program) && InFlight(r) && !(Since(r).Some? && now - Since(r).value >= stale)
  }

  function FindActiveFull(runs: seq<ScanRun>, tenant: string, program: string, now: real,
                          stale: real): Option<ScanRun> {
    if runs == [] then None
    else if IsActiveFull(runs[0], tenant, program, now, stale) then Some(runs[0])
    else FindActiveFull(runs[1..], tenant, program, now, stale)
  }

  lemma {:induction false} ActiveFullIff(runs: seq<ScanRun>, tenant: string, program: string, now: real, stale: real)
    ensures FindActiveFull(runs, tenant, program, now, stale).Some?
            <==> exists r :: r in runs && IsActiveFull(r, tenant, program, now, stale)
  {
    hide IsActiveFull;
    if runs != [] { ActiveFullIff(runs[1..], tenant, program, now, stale); }
  }

  lemma {:induction false} CancelledFullIff(runs: seq<ScanRun>, tenant: string, program: string, within: real,
                                            now: real)
    ensures RecentCancelledFull(runs, tenant, program, within, now).Some?
            <==> exists r :: r in runs && IsRecentCancelled(r, tenant, program, within, now)
  {
    hide IsRecentCancelled;
    if runs != [] { CancelledFullIff(runs[1..], tenant, program, within, now); }
  }

  predicate IsRecentCancelled(r: ScanRun, tenant: string, program: string, within: real, now: real) {
    var finished := if r.finishedAt.Some? then r.finishedAt else r.cancelledAt;
    IsFullOf(r, tenant, program) && r.status == CANCELLED && finished.Some? && finished.value >= now - within
  }

  function RecentCancelledFull(runs: seq<ScanRun>, tenant: string, program: string, within: real,
                               now: real): Option<ScanRun> {
    if runs == [] then None
    else if IsRecentCancelled(runs[0], tenant, program, within, now) then Some(runs[0])
    else RecentCancelledFull(runs[1..], tenant, program, within, now)
  }

  /** Reaping changes neither answer the scheduler plans by: a run is reaped only after it
      has stopped counting as active, and reaping never looks like a user's stop. */
  lemma {:induction false} ReapingIsInvisible(runs: seq<ScanRun>, tenant: string, program: string, stale: real,
                                              within: real, now: real)
    ensures FindActiveFull(Reaped(runs, stale, now), tenant, program, now, stale)
            == FindActiveFull(runs, tenant, program, now, stale)
    ensures RecentCancelledFull(Reaped(runs, stale, now), tenant, program, within, now)
            == RecentCancelledFull(runs, tenant, program, within, now)
  {
    if runs != [] {
      ReapingIsInvisible(runs[1..], tenant, program, stale, within, now);
      assert Reaped(runs, stale, now)[1..] == Reaped(runs[1..], stale, now);
    }
  }

  /** A reaped run is over, with all of its stages; a second sweep finds nothing to do. */
  lemma ReapedIsOver(runs: seq<ScanRun>, olderThan: real, now: real)
    ensures forall i :: 0 <= i < |runs| && IsStale(runs[i], olderThan, now) ==>
              var r := Reaped(runs, olderThan, now)[i];
              r.status == FAILED && forall k :: 0 <= k < |r.stages| ==> Terminal(r.stages[k].status)
    ensures Reaped(Reaped(runs, olderThan, now), olderThan, now) == Reaped(runs, olderThan, now)
  {
    var once := Reaped(runs, olderThan, now);
    assert forall i :: 0 <= i < |runs| ==> !IsStale(once[i], olderThan, now);
  }

  // ----- awaiting one stage ---------------------------------------------------------

  const HEARTBEAT := 45.0

  /** What a tick of the heartbeat brings: the stage returned, it raised, the whole job is
      being killed, the user's stop is seen, or nothing. */
  datatype Tick = Returned(skipped: bool) | Raised | Killed | StopSeen | Quiet

  datatype Outcome = Done(skipped: bool) | Failure | Timeout | Stopped | Aborted

  /** The ticks that fit into what is left of the budget. */
  function TicksLeft(left: real): nat {
    if left <= 0.0 then 0 else (left / HEARTBEAT).Floor + 1
  }

  lemma OneTickLess(left: real)
    requires left > 0.0
    ensures TicksLeft(left - HEARTBEAT) < TicksLeft(left) && TicksLeft(0.0) < TicksLeft(left)
  {
    if left > HEARTBEAT {
      assert (left - HEARTBEAT) / HEARTBEAT == left / HEARTBEAT - 1.0;
    }
  }

  /** What awaiting a stage comes to, from tick `k` on with `left` seconds of budget. */
  ghost function Awaited(left: real, tick: nat -> Tick, k: nat): Outcome
    decreases TicksLeft(left)
  {
    if left <= 0.0 then Timeout
    else
      match tick(k)
      case Returned(skipped) => Done(skipped)
      case Raised => Failure
      case Killed => Aborted
      case StopSeen => Stopped
      case Quiet =>
        OneTickLess(left);
        Awaited(left - if left <= HEARTBEAT then left else HEARTBEAT, tick, k + 1)
  }

  /** Tick number `n` starts before the budget is spent. */
  predicate Within(left: real, n: nat) { n as real * HEARTBEAT < left }

  /** The quiet ticks that pass while a stage is awaited. */
  ghost function Beats(left: real, tick: nat -> Tick, k: nat): nat
    decreases TicksLeft(left)
  {
    if left <= 0.0 || tick(k) != Quiet then 0
    else
      OneTickLess(left);
      1 + Beats(left - if left <= HEARTBEAT then left else HEARTBEAT, tick, k + 1)
  }

  /** The stage is awaited through the quiet ticks to the first other one, which decides, or
      to the end of the budget. */
  lemma {:induction false} AwaitedBy(left: real, tick: nat -> Tick, k: nat)
    ensures var n, outcome := Beats(left, tick, k), Awaited(left, tick, k);
            && (forall i: nat :: i < n ==> Within(left, i) && tick(k + i) == Quiet)
            && (if Within(left, n) then tick(k + n) != Quiet && outcome == Decided(tick(k + n)) else outcome == Timeout)
    decreases TicksLeft(left)
  {
    if left > 0.0 && tick(k) == Quiet {
      OneTickLess(left);
      var rest := left - if left <= HEARTBEAT then left else HEARTBEAT;
      AwaitedBy(rest, tick, k + 1);
      var n := Beats(left, tick, k);
      forall i: nat ensures Within(rest, i) <==> Within(left, i + 1) {}
      forall i: nat | i < n ensures Within(left, i) && tick(k + i) == Quiet {
        if i > 0 {
          assert Within(rest, i - 1);
          assert k + 1 + (i - 1) == k + i;
        }
      }
      assert k + 1 + (n - 1) == k + n;
    }
  }

  function Decided(t: Tick): Outcome {
    match t
    case Returned(skipped) => Done(skipped)
    case Raised => Failure
    case Killed => Aborted
    case StopSeen => Stopped
    case Quiet => Timeout
  }

  /** Tick `n` starts within the budget and is the first that is not quiet. */
  ghost predicate FirstLoud(budget: real, tick: nat -> Tick, n: nat) {
    n as real * 45.0 < budget && tick(n) != Quiet && forall i: nat :: i < n ==> tick(i) == Quiet
  }

  ghost predicate AllQuiet(budget: real, tick: nat -> Tick) {
    forall i: nat :: i as real * 45.0 < budget ==> tick(i) == Quiet
  }

  /** What awaiting a stage comes to: the stage's own end if that is the first thing to happen,
      a failure if it raised first, a stop if one was seen first, an abort if the job was
      killed first, and a timeout if nothing happens within the budget. */
  ghost predicate ComesTo(budget: real, tick: nat -> Tick, outcome: Outcome) {
    && (AllQuiet(budget, tick) || exists n :: FirstLoud(budget, tick, n))
    && (AllQuiet(budget, tick) ==> outcome == Timeout)
    && forall n :: FirstLoud(budget, tick, n) ==>
         && (tick(n) == Returned(true) ==> outcome == Done(true))
         && (tick(n) == Returned(false) ==> outcome == Done(false))
         && (tick(n) == Raised ==> outcome == Failure)
         && (tick(n) == StopSeen ==> outcome == Stopped)
         && (tick(n) == Killed ==> outcome == Aborted)
  }

  lemma BeatsAreQuiet(budget: real, tick: nat -> Tick)
    ensures forall i: nat :: i < Beats(budget, tick, 0) ==> Within(budget, i) && tick(i) == Quiet
    ensures var n, outcome := Beats(budget, tick, 0), Awaited(budget, tick, 0);
            if n as real * 45.0 < budget then tick(n) != Quiet && outcome == Decided(tick(n)) else outcome == Timeout
  {
    AwaitedBy(budget, tick, 0);
    hide Beats, Awaited;
    forall i: nat | i < Beats(budget, tick, 0) ensures Within(budget, i) && tick(i) == Quiet {
      assert Within(budget, i) && 0 + i == i;
    }
    assert 0 + Beats(budget, tick, 0) == Beats(budget, tick, 0);
  }

  /** The first loud tick comes after the heartbeats, if there is one. */
  lemma LoudAfterBeats(budget: real, tick: nat -> Tick)
    ensures var n := Beats(budget, tick, 0);
            if n as real * 45.0 < budget then FirstLoud(budget, tick, n) && !AllQuiet(budget, tick)
            else AllQuiet(budget, tick) && forall m :: !FirstLoud(budget, tick, m)
    ensures forall m :: FirstLoud(budget, tick, m) ==> m == Beats(budget, tick, 0)
  {
    hide Beats;
    BeatsAreQuiet(budget, tick);
    var n := Beats(budget, tick, 0);
    if !(n as real * 45.0 < budget) {
      forall i: nat | i as real * 45.0 < budget ensures tick(i) == Quiet {
        assert i < n;
      }
    }
    forall m | FirstLoud(budget, tick, m) ensures m == n {
      assert m < n ==> tick(m) == Quiet;
      assert n < m ==> n as real * 45.0 < budget;
    }
  }

  lemma AwaitedComesTo(budget: real, tick: nat -> Tick)
    ensures ComesTo(budget, tick, Awaited(budget, tick, 0))
  {
    hide FirstLoud, AllQuiet, Beats, Awaited;
    BeatsAreQuiet(budget, tick);
    LoudAfterBeats(budget, tick);
  }

  /** By the time it counts, a stage never outlives its budget by a tick: it times out
      exactly when all the ticks that fit into the budget stay quiet.  What checking for a
      stop and saving the run take between ticks is not counted. */
  lemma {:induction false} TimesOutIff(left: real, tick: nat -> Tick, k: nat)
    ensures Awaited(left, tick, k) == Timeout <==> forall i: nat :: Within(left, i) ==> tick(k + i) == Quiet
    decreases TicksLeft(left)
  {
    if left > 0.0 {
      assert Within(left, 0);
      assert tick(k + 0) == tick(k);
      if tick(k) == Quiet {
        OneTickLess(left);
        var rest := left - if left <= HEARTBEAT then left else HEARTBEAT;
        TimesOutIff(rest, tick, k + 1);
        forall i: nat ensures Within(rest, i) <==> Within(left, i + 1) {}
        if forall i: nat :: Within(left, i) ==> tick(k + i) == Quiet {
          forall i: nat | Within(rest, i) ensures tick(k + 1 + i) == Quiet {
            assert Within(left, i + 1);
            assert k + 1 + i == k + (i + 1);
          }
        }
        if forall i: nat :: Within(rest, i) ==> tick(k + 1 + i) == Quiet {
          forall i: nat | Within(left, i) ensures tick(k + i) == Quiet {
            if i > 0 {
              assert Within(rest, i - 1);
              assert k + 1 + (i - 1) == k + i;
            }
          }
        }
      }
    }
  }

  // ----- the stage machine ----------------------------------------------------------

  /** What one write of the run to the database holds. */
  datatype Snapshot = Snapshot(status: ScanStatus, stages: seq<ScanStatus>)

  /** Stages done, then at most one running, then stages not begun. */
  ghost predicate IsStepper(stages: seq<ScanStatus>) {
    exists k :: 0 <= k <= |stages| && IsStepperAt(stages, k)
  }

  ghost predicate IsStepperAt(stages: seq<ScanStatus>, k: int) {
    && (forall i :: 0 <= i < |stages| && i < k ==> Terminal(stages[i]))
    && (forall i :: 0 <= i < |stages| && i == k ==> stages[i] == QUEUED || stages[i] == RUNNING)
    && (forall i :: 0 <= i < |stages| && i > k ==> stages[i] == QUEUED)
  }

  ghost predicate OnlyEnabledRun(names: seq<string>, enabled: set<string>, stages: seq<ScanStatus>) {
    |stages| == |names| && forall i :: 0 <= i < |stages| && stages[i] == RUNNING ==> names[i] in enabled
  }

  ghost predicate ProperSaves(names: seq<string>, enabled: set<string>, saves: seq<Snapshot>) {
    forall s :: s in saves ==>
      OnlyEnabledRun(names, enabled, s.stages) && (s.status == RUNNING ==> IsStepper(s.stages))
  }

  /** No write shows a stage after `k` as anything but not begun or called off. */
  ghost predicate NotBegunAfter(saves: seq<Snapshot>, k: int) {
    forall s, i :: s in saves && 0 <= i < |s.stages| && k < i ==> s.stages[i] == QUEUED || s.stages[i] == CANCELLED
  }

  datatype Ending = Finished | CalledOff | CutShort

  /** The status a stage ends with if the run gets past it. */
  ghost function StageStatus(enabled: bool, outcome: Outcome): ScanStatus {
    if !enabled then SKIPPED
    else match outcome
      case Done(skipped) => if skipped then SKIPPED else SUCCESS
      case _ => FAILED
  }

  /** The stop request is seen before stage `i`, or while it runs. */
  ghost predicate StopsAt(names: seq<string>, enabled: set<string>, stopBefore: nat -> bool, outcome: nat -> Outcome,
                          i: nat)
    requires i < |names|
  {
    stopBefore(i) || (names[i] in enabled && outcome(i) == Stopped)
  }

  ghost predicate DiesAt(names: seq<string>, enabled: set<string>, stopBefore: nat -> bool, outcome: nat -> Outcome,
                         i: nat)
    requires i < |names|
  {
    !stopBefore(i) && names[i] in enabled && outcome(i) == Aborted
  }

  ghost predicate GetsPast(names: seq<string>, enabled: set<string>, stopBefore: nat -> bool, outcome: nat -> Outcome,
                           n: nat)
    requires n <= |names|
  {
    forall i :: 0 <= i < n ==>
      !StopsAt(names, enabled, stopBefore, outcome, i) && !DiesAt(names, enabled, stopBefore, outcome, i)
  }

  ghost predicate DoneUpTo(names: seq<string>, enabled: set<string>, outcome: nat -> Outcome, stages: seq<ScanStatus>,
                           n: nat)
    requires n <= |names| == |stages|
  {
    forall i :: 0 <= i < n ==> stages[i] == StageStatus(names[i] in enabled, outcome(i))
  }

  function Repeated(s: Snapshot, n: nat): (out: seq<Snapshot>)
    ensures |out| == n && forall i :: 0 <= i < n ==> out[i] == s
  {
    seq(n, _ => s)
  }

  /** The stages `begun`, and the rest of `n` not begun. */
  function Padded(begun: seq<ScanStatus>, n: nat): (out: seq<ScanStatus>)
    ensures |out| == if |begun| <= n then n else |begun|
    ensures forall i :: 0 <= i < |out| ==> out[i] == if i < |begun| then begun[i] else QUEUED
  {
    begun + seq(if |begun| <= n then n - |begun| else 0, _ => QUEUED)
  }

  /** What is written while a stage runs, after those that ended as `done`: one write as it
      begins, and one with every heartbeat; nothing if it does not begin. */
  ghost function StageTrail(begins: bool, n: nat, done: seq<ScanStatus>, budget: real,
                            tick: nat -> Tick): seq<Snapshot> {
    if begins then Repeated(Snapshot(RUNNING, Padded(done + [RUNNING], n)), 1 + Beats(budget, tick, 0)) else []
  }

  /** Every write up to the one that shows the first stages ended as `done`. */
  ghost function Trail(names: seq<string>, enabled: set<string>, budget: nat -> real, ticks: nat -> nat -> Tick,
                       done: seq<ScanStatus>): seq<Snapshot>
    requires |done| <= |names|
  {
    if done == [] then [Snapshot(RUNNING, Padded([], |names|))]
    else
      var i, front := |done| - 1, done[..|done| - 1];
      Trail(names, enabled, budget, ticks, front)
      + StageTrail(names[i] in enabled, |names|, front, budget(i), ticks(i))
      + [Snapshot(RUNNING, Padded(done, |names|))]
  }

  /** The status a stage ends with if the run gets past it, by what happens while it runs. */
  ghost predicate EndsBy(enabled: bool, budget: real, tick: nat -> Tick, st: ScanStatus) {
    if !enabled then st == SKIPPED
    else
      && (AllQuiet(budget, tick) || exists n :: FirstLoud(budget, tick, n) && (tick(n).Returned? || tick(n).Raised?))
      && (AllQuiet(budget, tick) ==> st == FAILED)
      && forall n :: FirstLoud(budget, tick, n) ==>
           && (tick(n) == Returned(true) ==> st == SKIPPED)
           && (tick(n) == Returned(false) ==> st == SUCCESS)
           && (tick(n) == Raised ==> st == FAILED)
  }

  /** No stop was asked for before any of the first `n` stages, and each ended by its ticks. */
  ghost predicate PassedBy(names: seq<string>, enabled: set<string>, stopBefore: nat -> bool, budget: nat -> real,
                           ticks: nat -> nat -> Tick, stages: seq<ScanStatus>, n: nat)
    requires n <= |names| == |stages|
  {
    forall i :: 0 <= i < n ==> !stopBefore(i) && EndsBy(names[i] in enabled, budget(i), ticks(i), stages[i])
  }

  /** What happened at the stage where the run ended. */
  ghost predicate EndedBy(enabled: bool, stopBefore: bool, budget: real, tick: nat -> Tick, end: Ending) {
    && (end == CalledOff ==>
          stopBefore || (enabled && exists n :: FirstLoud(budget, tick, n) && tick(n) == StopSeen))
    && (end == CutShort ==>
          !stopBefore && enabled && exists n :: FirstLoud(budget, tick, n) && tick(n) == Killed)
  }

  lemma PassedByTicks(enabled: bool, budget: real, tick: nat -> Tick)
    requires enabled ==> Awaited(budget, tick, 0) != Stopped && Awaited(budget, tick, 0) != Aborted
    ensures EndsBy(enabled, budget, tick, StageStatus(enabled, Awaited(budget, tick, 0)))
  {
    AwaitedComesTo(budget, tick);
  }

  lemma EndedByTicks(names: seq<string>, enabled: set<string>, stopBefore: nat -> bool, outcome: nat -> Outcome,
                     budget: real, tick: nat -> Tick, n: nat)
    requires n < |names| && outcome(n) == Awaited(budget, tick, 0)
    ensures StopsAt(names, enabled, stopBefore, outcome, n) ==>
              EndedBy(names[n] in enabled, stopBefore(n), budget, tick, CalledOff)
    ensures DiesAt(names, enabled, stopBefore, outcome, n) ==>
              EndedBy(names[n] in enabled, stopBefore(n), budget, tick, CutShort)
  {
    AwaitedComesTo(budget, tick);
  }

  lemma AllPassedByTicks(names: seq<string>, enabled: set<string>, stopBefore: nat -> bool, outcome: nat -> Outcome,
                         budget: nat -> real, ticks: nat -> nat -> Tick, stages: seq<ScanStatus>, n: nat)
    requires n <= |names| == |stages| && GetsPast(names, enabled, stopBefore, outcome, n)
    requires DoneUpTo(names, enabled, outcome, stages, n)
    requires forall i: nat :: outcome(i) == Awaited(budget(i), ticks(i), 0)
    ensures PassedBy(names, enabled, stopBefore, budget, ticks, stages, n)
  {
    hide EndsBy, Awaited;
    forall i | 0 <= i < n ensures !stopBefore(i) && EndsBy(names[i] in enabled, budget(i), ticks(i), stages[i]) {
      assert !StopsAt(names, enabled, stopBefore, outcome, i) && !DiesAt(names, enabled, stopBefore, outcome, i);
      PassedByTicks(names[i] in enabled, budget(i), ticks(i));
    }
  }

  class FullRun {
    const names: seq<string>
    var status: ScanStatus
    var stages: seq<ScanStatus>
    var saves: seq<Snapshot>
    var failed: seq<string>

    constructor (names: seq<string>)
      ensures this.names == names && status == RUNNING && saves == [] && failed == []
      ensures stages == seq(|names|, i => QUEUED)
    {
      this.names := names;
      status := RUNNING;
      stages := seq(|names|, i => QUEUED);
      saves := [];
      failed := [];
    }

    method Save()
      modifies this`saves
      ensures saves == old(saves) + [Snapshot(status, stages)]
    {
      saves := saves + [Snapshot(status, stages)];
    }

    /** Awaits a stage within its budget, writing the run on every quiet tick. */
    method AwaitStage(budget: real, tick: nat -> Tick) returns (outcome: Outcome)
      modifies this`saves
      ensures outcome == Awaited(budget, tick, 0) && ComesTo(budget, tick, outcome)
      ensures saves == old(saves) + Repeated(Snapshot(status, stages), Beats(budget, tick, 0))
      ensures forall s :: s in saves ==> s in old(saves) || s == Snapshot(status, stages)
    {
      hide ComesTo, FirstLoud, AllQuiet, Within;
      AwaitedComesTo(budget, tick);
      var elapsed, k := 0.0, 0;
      while true
        invariant Awaited(budget - elapsed, tick, k) == Awaited(budget, tick, 0)
        invariant k + Beats(budget - elapsed, tick, k) == Beats(budget, tick, 0)
        invariant saves == old(saves) + Repeated(Snapshot(status, stages), k)
        invariant forall s :: s in saves ==> s in old(saves) || s == Snapshot(status, stages)
        decreases TicksLeft(budget - elapsed)
      {
        var remaining := budget - elapsed;
        if remaining <= 0.0 { return Timeout; }
        var wait := if remaining <= HEARTBEAT then remaining else HEARTBEAT;
        OneTickLess(remaining);
        match tick(k) {
          case Returned(skipped) => return Done(skipped);
          case Raised => return Failure;
          case Killed => return Aborted;
          case StopSeen => return Stopped;
          case Quiet =>
            assert remaining - wait == budget - (elapsed + wait);
            elapsed := elapsed + wait;
            k := k + 1;
            Save();
        }
      }
    }

    /** Calls off every stage that has not begun; the caller has settled the others. */
    method CallOff()
      requires status == RUNNING
      modifies this`status, this`stages
      ensures status == CANCELLED && |stages| == |old(stages)|
      ensures forall i :: 0 <= i < |stages| ==>
                stages[i] == if old(stages)[i] == QUEUED then CANCELLED else old(stages)[i]
    {
      var before := stages;
      for i := 0 to |before|
        invariant |stages| == |before|
        invariant forall k :: 0 <= k < i ==> stages[k] == if before[k] == QUEUED then CANCELLED else before[k]
        invariant forall k :: i <= k < |before| ==> stages[k] == before[k]
      {
        if stages[i] == QUEUED { stages := stages[i := CANCELLED]; }
      }
      status := CANCELLED;
    }

    /** Takes the run past stage `n`, or ends it there. */
    method TakeStage(n: nat, enabled: set<string>, stopBefore: nat -> bool, budget: real, tick: nat -> Tick,
                     ghost outcome: nat -> Outcome)
      returns (end: Ending)
      requires n < |names| && Underway(names, enabled, stopBefore, outcome, status, stages, saves, n)
      requires outcome(n) == Awaited(budget, tick, 0)
      modifies this
      ensures end == Finished ==> Underway(names, enabled, stopBefore, outcome, status, stages, saves, n + 1)
      ensures end == Finished ==> |stages| == |old(stages)| == |names| && stages == old(stages)[n := stages[n]]
      ensures end == Finished ==> failed == old(failed) + if stages[n] == FAILED then [names[n]] else []
      ensures end != Finished ==> Ended(names, enabled, stopBefore, outcome, status, stages, saves, n)
      ensures end == CalledOff ==> CalledOffAt(names, enabled, stopBefore, outcome, status, stages, saves, n)
      ensures end == CutShort ==> CutShortAt(names, enabled, stopBefore, outcome, status, stages, n)
      ensures end == Finished ==> !stopBefore(n)
      ensures |stages| == |old(stages)| == |names| && forall i :: 0 <= i < n ==> stages[i] == old(stages)[i]
      ensures saves == old(saves)
                       + StageTrail(!stopBefore(n) && names[n] in enabled, |names|, old(stages)[..n], budget, tick)
                       + [Snapshot(status, stages)]
    {
      hide *;
      ghost var before, early := stages, saves;
      AtStage(names, enabled, stopBefore, outcome, status, stages, saves, n);
      NothingWritten(|names|, stages[..n], budget, tick);
      if stopBefore(n) {
        CallOff();
        Save();
        EndsBefore(names, enabled, stopBefore, outcome, before, early, status, stages, saves, n);
        return CalledOff;
      }
      if names[n] !in enabled {
        stages := stages[n := SKIPPED];
        Save();
        GetsPastStage(names, enabled, stopBefore, outcome, before, early, stages, saves, n);
        return Finished;
      }
      stages := stages[n := RUNNING];
      Save();
      assert saves == early + [Snapshot(RUNNING, stages)];
      var result := AwaitStage(budget, tick);
      assert saves == early + StageTrail(true, |names|, before[..n], budget, tick) by {
        WrittenWhileRunning(|names|, before, n, budget, tick);
        assert stages == before[n := RUNNING];
      }
      StageBegun(names, enabled, stopBefore, outcome, before, early, stages, saves, n);
      ghost var late := saves;
      match result {
        case Stopped =>
          stages := stages[n := CANCELLED];
          CallOff();
          Save();
          EndsDuring(names, enabled, stopBefore, outcome, before, late, status, stages, saves, n);
          return CalledOff;
        case Aborted =>
          stages := stages[n := FAILED];
          status := FAILED;
          Save();
          EndsDuring(names, enabled, stopBefore, outcome, before, late, status, stages, saves, n);
          return CutShort;
        case Done(skipped) => stages := stages[n := if skipped then SKIPPED else SUCCESS];
        case Failure => stages, failed := stages[n := FAILED], failed + [names[n]];
        case Timeout => stages, failed := stages[n := FAILED], failed + [names[n]];
      }
      Save();
      assert stages == before[n := stages[n]];
      GetsPastStage(names, enabled, stopBefore, outcome, before, late, stages, saves, n);
      return Finished;
    }

    /** Runs the stages in order.  `enabled` are the modules switched on, `stopBefore(i)` is
        what polling for a stop before stage i answers, and `ticks(i)` what happens while
        stage i runs, for at most `budget(i)` seconds. */
    method Execute(enabled: set<string>, stopBefore: nat -> bool, budget: nat -> real, ticks: nat -> nat -> Tick,
                   ghost outcome: nat -> Outcome)
      returns (end: Ending, at: nat)
      requires status == RUNNING && saves == [] && failed == [] && stages == seq(|names|, i => QUEUED)
      requires forall i :: outcome(i) == Awaited(budget(i), ticks(i), 0)
      modifies this
      ensures |stages| == |names| && at <= |names| && (end == Finished <==> at == |names|)
      ensures ProperSaves(names, enabled, saves)
      ensures saves != [] && saves[|saves| - 1] == Snapshot(status, stages)
      ensures GetsPast(names, enabled, stopBefore, outcome, at) && DoneUpTo(names, enabled, outcome, stages, at)
      ensures end == Finished ==> status == if FAILED in stages then FAILED else SUCCESS
      ensures end != CutShort ==> forall i :: 0 <= i < |stages| ==> Terminal(stages[i])
      ensures end == CalledOff ==> CalledOffAt(names, enabled, stopBefore, outcome, status, stages, saves, at)
      ensures end == CutShort ==> CutShortAt(names, enabled, stopBefore, outcome, status, stages, at)
      ensures PassedBy(names, enabled, stopBefore, budget, ticks, stages, at)
      ensures at < |names| ==> EndedBy(names[at] in enabled, stopBefore(at), budget(at), ticks(at), end)
      ensures saves == Trail(names, enabled, budget, ticks, stages[..at])
                       + StageTrail(at < |names| && !stopBefore(at) && names[at] in enabled, |names|, stages[..at],
                                    budget(at), ticks(at))
                       + [Snapshot(status, stages)]
    {
      hide *;
      Save();
      BeforeStart(names, enabled, stopBefore, outcome, stages);
      assert saves == [Snapshot(RUNNING, stages)];
      TrailStarts(names, enabled, budget, ticks, stages);
      at := 0;
      while at < |names|
        invariant at <= |names| == |stages| && Underway(names, enabled, stopBefore, outcome, status, stages, saves, at)
        invariant failed != [] <==> FAILED in stages[..at]
        invariant saves == Trail(names, enabled, budget, ticks, stages[..at])
      {
        ghost var before := stages;
        UnderwayIs(names, enabled, stopBefore, outcome, status, stages, saves, at);
        end := TakeStage(at, enabled, stopBefore, budget(at), ticks(at), outcome);
        assert stages[..at] == before[..at];
        if end != Finished {
          EndedIs(names, enabled, stopBefore, outcome, status, stages, saves, at);
          AllPassedByTicks(names, enabled, stopBefore, outcome, budget, ticks, stages, at);
          EndedByTicks(names, enabled, stopBefore, outcome, budget(at), ticks(at), at);
          EndedAt(names, enabled, stopBefore, outcome, status, stages, saves, at);
          return;
        }
        assert stages[..at + 1] == before[..at] + [stages[at]];
        UnderwayIs(names, enabled, stopBefore, outcome, status, stages, saves, at + 1);
        TrailGrows(names, enabled, budget, ticks, stages, at);
        at := at + 1;
      }
      ghost var early := saves;
      assert stages[..|names|] == stages;
      UnderwayIs(names, enabled, stopBefore, outcome, status, stages, saves, |names|);
      AllPassedByTicks(names, enabled, stopBefore, outcome, budget, ticks, stages, |names|);
      NothingWritten(|names|, stages, budget(|names|), ticks(|names|));
      status := if failed != [] then FAILED else SUCCESS;
      Save();
      AllDone(names, enabled, outcome, stages);
      SavedOver(names, enabled, early, saves, status, stages, |names| - 1);
      end := Finished;
    }
  }

  /** The run has got past the first `n` stages and begun no other. */
  ghost predicate Underway(names: seq<string>, enabled: set<string>, stopBefore: nat -> bool, outcome: nat -> Outcome,
                           status: ScanStatus, stages: seq<ScanStatus>, saves: seq<Snapshot>, n: nat) {
    && status == RUNNING && n <= |names| == |stages|
    && (forall i :: n <= i < |names| ==> stages[i] == QUEUED)
    && ProperSaves(names, enabled, saves) && NotBegunAfter(saves, n - 1)
    && GetsPast(names, enabled, stopBefore, outcome, n) && DoneUpTo(names, enabled, outcome, stages, n)
  }

  /** The run ended at stage `n`, and that was written. */
  ghost predicate Ended(names: seq<string>, enabled: set<string>, stopBefore: nat -> bool, outcome: nat -> Outcome,
                        status: ScanStatus, stages: seq<ScanStatus>, saves: seq<Snapshot>, n: nat) {
    && n < |names| == |stages|
    && ProperSaves(names, enabled, saves) && saves != [] && saves[|saves| - 1] == Snapshot(status, stages)
    && GetsPast(names, enabled, stopBefore, outcome, n) && DoneUpTo(names, enabled, outcome, stages, n)
  }

  /** A stop was seen at stage `n`: it and all later stages are called off, and no later
      stage ever began; nor did `n` itself if the stop was seen before it. */
  ghost predicate CalledOffAt(names: seq<string>, enabled: set<string>, stopBefore: nat -> bool,
                              outcome: nat -> Outcome,
                              status: ScanStatus, stages: seq<ScanStatus>, saves: seq<Snapshot>, n: nat) {
    && n < |names| == |stages| && StopsAt(names, enabled, stopBefore, outcome, n)
    && status == CANCELLED && (forall i :: n <= i < |stages| ==> stages[i] == CANCELLED)
    && NotBegunAfter(saves, n) && (stopBefore(n) ==> NotBegunAfter(saves, n - 1))
  }

  /** The whole job was killed at stage `n`; the later stages stay as they were. */
  ghost predicate CutShortAt(names: seq<string>, enabled: set<string>, stopBefore: nat -> bool, outcome: nat -> Outcome,
                             status: ScanStatus, stages: seq<ScanStatus>, n: nat) {
    && n < |names| == |stages| && DiesAt(names, enabled, stopBefore, outcome, n)
    && status == FAILED && stages[n] == FAILED && forall i :: n < i < |stages| ==> stages[i] == QUEUED
  }

  // What the steps of Execute keep.

  lemma UnderwayIs(names: seq<string>, enabled: set<string>, stopBefore: nat -> bool, outcome: nat -> Outcome,
                   status: ScanStatus, stages: seq<ScanStatus>, saves: seq<Snapshot>, n: nat)
    requires Underway(names, enabled, stopBefore, outcome, status, stages, saves, n)
    ensures status == RUNNING && n <= |names| == |stages| && forall i :: n <= i < |names| ==> stages[i] == QUEUED
    ensures GetsPast(names, enabled, stopBefore, outcome, n) && DoneUpTo(names, enabled, outcome, stages, n)
    ensures ProperSaves(names, enabled, saves) && NotBegunAfter(saves, n - 1)
  {}

  lemma EndedAt(names: seq<string>, enabled: set<string>, stopBefore: nat -> bool, outcome: nat -> Outcome,
                status: ScanStatus, stages: seq<ScanStatus>, saves: seq<Snapshot>, n: nat)
    ensures CalledOffAt(names, enabled, stopBefore, outcome, status, stages, saves, n) ==>
              n < |names| && StopsAt(names, enabled, stopBefore, outcome, n)
    ensures CutShortAt(names, enabled, stopBefore, outcome, status, stages, n) ==>
              n < |names| && DiesAt(names, enabled, stopBefore, outcome, n)
  {}

  lemma TrailStarts(names: seq<string>, enabled: set<string>, budget: nat -> real, ticks: nat -> nat -> Tick,
                    stages: seq<ScanStatus>)
    requires |stages| == |names| && forall i :: 0 <= i < |names| ==> stages[i] == QUEUED
    ensures Trail(names, enabled, budget, ticks, stages[..0]) == [Snapshot(RUNNING, stages)]
  {
    assert Padded([], |names|) == stages;
  }

  /** One stage more has ended, and that is the last thing written. */
  lemma TrailGrows(names: seq<string>, enabled: set<string>, budget: nat -> real, ticks: nat -> nat -> Tick,
                   stages: seq<ScanStatus>, n: nat)
    requires n < |names| == |stages| && forall i :: n < i < |names| ==> stages[i] == QUEUED
    ensures Trail(names, enabled, budget, ticks, stages[..n + 1])
            == Trail(names, enabled, budget, ticks, stages[..n])
               + StageTrail(names[n] in enabled, |names|, stages[..n], budget(n), ticks(n))
               + [Snapshot(RUNNING, stages)]
  {
    hide StageTrail;
    assert stages[..n + 1][..n] == stages[..n];
    assert Padded(stages[..n + 1], |names|) == stages;
  }

  lemma NothingWritten(n: nat, done: seq<ScanStatus>, budget: real, tick: nat -> Tick)
    ensures StageTrail(false, n, done, budget, tick) == []
  {}

  lemma WrittenWhileRunning(size: nat, before: seq<ScanStatus>, n: nat, budget: real, tick: nat -> Tick)
    requires n < size == |before| && forall i :: n <= i < size ==> before[i] == QUEUED
    ensures StageTrail(true, size, before[..n], budget, tick)
            == [Snapshot(RUNNING, before[n := RUNNING])]
               + Repeated(Snapshot(RUNNING, before[n := RUNNING]), Beats(budget, tick, 0))
  {
    assert Padded(before[..n] + [RUNNING], size) == before[n := RUNNING];
  }

  lemma BeforeStart(names: seq<string>, enabled: set<string>, stopBefore: nat -> bool, outcome: nat -> Outcome,
                    stages: seq<ScanStatus>)
    requires |stages| == |names| && forall i :: 0 <= i < |stages| ==> stages[i] == QUEUED
    ensures Underway(names, enabled, stopBefore, outcome, RUNNING, stages, [Snapshot(RUNNING, stages)], 0)
  {
    assert IsStepperAt(stages, 0);
  }

  lemma AtStage(names: seq<string>, enabled: set<string>, stopBefore: nat -> bool, outcome: nat -> Outcome,
                status: ScanStatus, stages: seq<ScanStatus>, saves: seq<Snapshot>, n: nat)
    requires n < |names| && Underway(names, enabled, stopBefore, outcome, status, stages, saves, n)
    ensures status == RUNNING && |stages| == |names| && (forall i :: n <= i < |names| ==> stages[i] == QUEUED)
    ensures forall i :: 0 <= i < n ==> stages[i] != QUEUED && stages[i] != RUNNING
    ensures Begins(names, enabled, stopBefore, outcome, stages, saves, n)
  {}

  /** The facts about stage `n` as it is reached. */
  ghost predicate Begins(names: seq<string>, enabled: set<string>, stopBefore: nat -> bool, outcome: nat -> Outcome,
                         before: seq<ScanStatus>, early: seq<Snapshot>, n: nat) {
    && n < |names| && Underway(names, enabled, stopBefore, outcome, RUNNING, before, early, n)
  }

  lemma StageBegun(names: seq<string>, enabled: set<string>, stopBefore: nat -> bool, outcome: nat -> Outcome,
                   before: seq<ScanStatus>, early: seq<Snapshot>, stages: seq<ScanStatus>, saves: seq<Snapshot>, n: nat)
    requires Begins(names, enabled, stopBefore, outcome, before, early, n) && names[n] in enabled
    requires |before| == |names| && stages == before[n := RUNNING]
    requires forall s :: s in saves ==> s in early || s == Snapshot(RUNNING, stages)
    ensures During(names, enabled, stopBefore, outcome, before, saves, n)
  {
    assert IsStepperAt(stages, n);
    SavedRunning(names, enabled, early, saves, stages, n, n);
  }

  ghost predicate During(names: seq<string>, enabled: set<string>, stopBefore: nat -> bool, outcome: nat -> Outcome,
                         before: seq<ScanStatus>, late: seq<Snapshot>, n: nat) {
    && n < |names| == |before| && (forall i :: n <= i < |names| ==> before[i] == QUEUED)
    && ProperSaves(names, enabled, late) && NotBegunAfter(late, n)
    && GetsPast(names, enabled, stopBefore, outcome, n) && DoneUpTo(names, enabled, outcome, before, n)
  }

  lemma GetsPastStage(names: seq<string>, enabled: set<string>, stopBefore: nat -> bool, outcome: nat -> Outcome,
                      before: seq<ScanStatus>, late: seq<Snapshot>, stages: seq<ScanStatus>, saves: seq<Snapshot>,
                      n: nat)
    requires Begins(names, enabled, stopBefore, outcome, before, late, n)
             || During(names, enabled, stopBefore, outcome, before, late, n)
    requires n < |names| == |before| && !stopBefore(n)
    requires names[n] in enabled ==> outcome(n) != Stopped && outcome(n) != Aborted
    requires |stages| == |names| && stages == before[n := stages[n]]
    requires stages[n] == if names[n] !in enabled then SKIPPED
                          else if outcome(n).Done? then (if outcome(n).skipped then SKIPPED else SUCCESS) else FAILED
    requires saves == late + [Snapshot(RUNNING, stages)]
    ensures Underway(names, enabled, stopBefore, outcome, RUNNING, stages, saves, n + 1)
  {
    assert IsStepperAt(stages, n + 1);
    SavedRunning(names, enabled, late, saves, stages, n + 1, n);
  }

  lemma EndsBefore(names: seq<string>, enabled: set<string>, stopBefore: nat -> bool, outcome: nat -> Outcome,
                   before: seq<ScanStatus>, early: seq<Snapshot>, status: ScanStatus, stages: seq<ScanStatus>,
                   saves: seq<Snapshot>, n: nat)
    requires Begins(names, enabled, stopBefore, outcome, before, early, n) && stopBefore(n)
    requires |before| == |names| == |stages| && status == CANCELLED
    requires forall i :: 0 <= i < |stages| ==> stages[i] == if before[i] == QUEUED then CANCELLED else before[i]
    requires saves == early + [Snapshot(status, stages)]
    ensures Ended(names, enabled, stopBefore, outcome, status, stages, saves, n)
    ensures CalledOffAt(names, enabled, stopBefore, outcome, status, stages, saves, n)
  {
    SavedOver(names, enabled, early, saves, status, stages, n - 1);
  }

  lemma EndsDuring(names: seq<string>, enabled: set<string>, stopBefore: nat -> bool, outcome: nat -> Outcome,
                   before: seq<ScanStatus>, late: seq<Snapshot>, status: ScanStatus, stages: seq<ScanStatus>,
                   saves: seq<Snapshot>, n: nat)
    requires During(names, enabled, stopBefore, outcome, before, late, n) && !stopBefore(n) && names[n] in enabled
    requires |before| == |names| == |stages|
    requires forall i :: 0 <= i < n ==> stages[i] == before[i]
    requires saves == late + [Snapshot(status, stages)]
    requires if outcome(n) == Stopped then
               status == CANCELLED && forall i :: n <= i < |stages| ==> stages[i] == CANCELLED
             else
               && outcome(n) == Aborted && status == FAILED && stages[n] == FAILED
               && forall i :: n < i < |stages| ==> stages[i] == QUEUED
    ensures Ended(names, enabled, stopBefore, outcome, status, stages, saves, n)
    ensures outcome(n) == Stopped ==> CalledOffAt(names, enabled, stopBefore, outcome, status, stages, saves, n)
    ensures outcome(n) == Aborted ==> CutShortAt(names, enabled, stopBefore, outcome, status, stages, n)
  {
    SavedOver(names, enabled, late, saves, status, stages, n);
  }

  lemma EndedIs(names: seq<string>, enabled: set<string>, stopBefore: nat -> bool, outcome: nat -> Outcome,
                status: ScanStatus, stages: seq<ScanStatus>, saves: seq<Snapshot>, n: nat)
    requires Ended(names, enabled, stopBefore, outcome, status, stages, saves, n)
    ensures n < |names| == |stages|
    ensures ProperSaves(names, enabled, saves) && saves != [] && saves[|saves| - 1] == Snapshot(status, stages)
    ensures GetsPast(names, enabled, stopBefore, outcome, n) && DoneUpTo(names, enabled, outcome, stages, n)
    ensures CalledOffAt(names, enabled, stopBefore, outcome, status, stages, saves, n) ==>
              forall i :: 0 <= i < |stages| ==> Terminal(stages[i])
  {}

  /** Writes of a running, well-formed run keep the trail proper. */
  lemma SavedRunning(names: seq<string>, enabled: set<string>, early: seq<Snapshot>, saves: seq<Snapshot>,
                     stages: seq<ScanStatus>, k: int, n: int)
    requires ProperSaves(names, enabled, early) && (NotBegunAfter(early, n - 1) || NotBegunAfter(early, n))
    requires forall s :: s in saves ==> s in early || s == Snapshot(RUNNING, stages)
    requires 0 <= k <= |stages| && IsStepperAt(stages, k)
    requires forall i :: 0 <= i < |stages| && n < i ==> stages[i] == QUEUED
    requires OnlyEnabledRun(names, enabled, stages)
    ensures ProperSaves(names, enabled, saves) && NotBegunAfter(saves, n)
  {}

  /** So does a write of a run that is over. */
  lemma SavedOver(names: seq<string>, enabled: set<string>, early: seq<Snapshot>, saves: seq<Snapshot>,
                  status: ScanStatus, stages: seq<ScanStatus>, n: int)
    requires ProperSaves(names, enabled, early) && NotBegunAfter(early, n)
    requires saves == early + [Snapshot(status, stages)] && status != RUNNING
    requires |stages| == |names| && forall i :: 0 <= i < |stages| ==> stages[i] != RUNNING
    requires forall i :: 0 <= i < |stages| && n < i ==> stages[i] == QUEUED || stages[i] == CANCELLED
    ensures ProperSaves(names, enabled, saves) && NotBegunAfter(saves, n) && NotBegunAfter(saves, n + 1)
  {}

  lemma AllDone(names: seq<string>, enabled: set<string>, outcome: nat -> Outcome, stages: seq<ScanStatus>)
    requires |names| == |stages| && DoneUpTo(names, enabled, outcome, stages, |names|)
    ensures forall i :: 0 <= i < |stages| ==> stages[i] == SUCCESS || stages[i] == FAILED || stages[i] == SKIPPED
    ensures forall i :: 0 <= i < |stages| ==> Terminal(stages[i])
  {}
}
