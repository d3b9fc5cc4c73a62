/**
  Politeness across a fleet of workers (core/ratelimit.py): the store that degrades to a
  divided local bucket while the shared one cannot be reached, and what a whole fleet may
  admit for one target.
*/
module Fleet {
  import opened Wrappers
  import opened RateLimit

  // ----- the degrading store --------------------------------------------------------

  /** What the shared store did with a call: it answered, or the call raised. */
  datatype PrimaryOutcome = Answered(allowed: bool) | Raised

  /** A smaller configured fleet size raises. */
  type FleetSize = n: int | n >= 1 witness 1

  /** One process's share of the ceiling while the shared store is down. */
  function LocalLimit(limit: Limit, fleetSize: FleetSize): Limit {
    Limit(limit.rate / fleetSize as real, Max(1.0, limit.burst / fleetSize as real))
  }

  class DegradingBucketStore {
    const fleetSize: FleetSize
    const fallback: InMemoryBucketStore
    var degraded: bool

    constructor (fallback: InMemoryBucketStore, fleetSize: FleetSize)
      ensures this.fallback == fallback && this.fleetSize == fleetSize && !degraded
    {
      this.fallback := fallback;
      this.fleetSize := fleetSize;
      degraded := false;
    }

    /** The local bucket is consulted, at the divided limit, only when the primary raised. */
    method Take(key: string, limit: Limit, cost: real, now: real, primary: PrimaryOutcome) returns (ok: bool)
      modifies this, fallback
      ensures degraded == primary.Raised?
      ensures primary.Answered? ==> ok == primary.allowed && fallback.buckets == old(fallback.buckets)
      ensures primary.Raised? ==>
                var b := Lookup(old(fallback.buckets), key);
                var share := LocalLimit(limit, fleetSize);
                && ok == Admits(b, share, cost, now)
                && fallback.buckets == old(fallback.buckets)[key := AfterTake(b, share, cost, now)]
    {
      match primary
      case Answered(allowed) =>
        degraded := false;
        return allowed;
      case Raised =>
        degraded := true;
        ok := fallback.Take(key, LocalLimit(limit, fleetSize), cost, now);
    }
  }

  // ----- a whole fleet, for one target ----------------------------------------------

  /** What reaches a store, at the time `at` of a clock common to all.  A call runs the
      script, whose answer may get lost; or falls back, having read its process's clock
      `lag` earlier, before it tried the shared store; or does first one, then the other. */
  datatype Event =
    | Script(cost: real, at: real, answered: bool)
    | Fallback(proc: nat, cost: real, at: real, lag: real)

  type Late = e: Event | e.Fallback? witness Fallback(0, 0.0, 0.0, 0.0)

  /** The reading that a call hands to its local bucket; `epoch(p)` is what the clock of
      process `p` shows at time zero. */
  ghost function Reading(e: Late, epoch: nat -> real): real { e.at - e.lag + epoch(e.proc) }

  /** The shared keys in Redis and the local bucket of each process. */
  datatype FleetState = FleetState(shared: RedisKeys, local: map<nat, Bucket>)

  ghost function FleetAfter(es: seq<Event>, limit: Limit, n: FleetSize, epoch: nat -> real): FleetState {
    if es == [] then FleetState(RedisKeys(None, None), map[])
    else
      var f, e := FleetAfter(es[..|es| - 1], limit, n, epoch), es[|es| - 1];
      match e
      case Script(cost, at, _) => f.(shared := ScriptAfter(f.shared, limit, cost, at))
      case Fallback(p, cost, _, _) =>
        f.(local := f.local[p := AfterTake(Lookup(f.local, p), LocalLimit(limit, n), cost, Reading(e, epoch))])
  }

  ghost predicate FleetAdmits(es: seq<Event>, limit: Limit, n: FleetSize, epoch: nat -> real, i: nat)
    requires i < |es|
  {
    var f, e := FleetAfter(es[..i], limit, n, epoch), es[i];
    match e
    case Script(cost, at, answered) => answered && ScriptAdmits(f.shared, limit, cost, at)
    case Fallback(p, cost, _, _) => Admits(Lookup(f.local, p), LocalLimit(limit, n), cost, Reading(e, epoch))
  }

  /** The cost the fleet admits in the window from `s` to `t`. */
  ghost function FleetWithin(es: seq<Event>, limit: Limit, n: FleetSize, epoch: nat -> real, s: real, t: real): real {
    if es == [] then 0.0
    else
      var k := |es| - 1;
      FleetWithin(es[..k], limit, n, epoch, s, t)
      + if FleetAdmits(es, limit, n, epoch, k) && s <= es[k].at <= t then es[k].cost else 0.0
  }

  /** How long the calls that fell back in the window had waited for the shared store. */
  ghost function Lag(es: seq<Event>, s: real, t: real): real {
    if es == [] then 0.0
    else
      var k := |es| - 1;
      Lag(es[..k], s, t) + if es[k].Fallback? && s <= es[k].at <= t then es[k].lag else 0.0
  }

  /** The order of events is the order of time.  That of clock readings may differ. */
  ghost predicate FleetOrdered(es: seq<Event>, w: nat) {
    && (forall i, j :: 0 <= i <= j < |es| ==> es[i].at <= es[j].at)
    && (forall i :: 0 <= i < |es| ==> es[i].cost >= 0.0)
    && (forall i :: 0 <= i < |es| && es[i].Fallback? ==> es[i].proc < w && es[i].lag >= 0.0)
  }

  lemma FleetOrderedPrefix(es: seq<Event>, w: nat)
    requires FleetOrdered(es, w) && es != []
    ensures FleetOrdered(es[..|es| - 1], w)
  {}

  /** The requests that reached the script. */
  ghost function SharedRequests(es: seq<Event>): seq<Request> {
    if es == [] then []
    else
      var rs, e := SharedRequests(es[..|es| - 1]), es[|es| - 1];
      if e.Script? then rs + [Request(e.cost, e.at)] else rs
  }

  /** The calls of process `p` that fell back. */
  ghost function Fallbacks(es: seq<Event>, p: nat): seq<Late> {
    if es == [] then []
    else
      var ls, e := Fallbacks(es[..|es| - 1], p), es[|es| - 1];
      if e.Fallback? && e.proc == p then ls + [e] else ls
  }

  /** The same calls as the local bucket sees them, by their clock readings. */
  ghost function Readings(ls: seq<Late>, epoch: nat -> real): seq<Request> {
    if ls == [] then []
    else
      var e := ls[|ls| - 1];
      Readings(ls[..|ls| - 1], epoch) + [Request(e.cost, Reading(e, epoch))]
  }

  lemma BucketAppend(rs: seq<Request>, q: Request, limit: Limit)
    ensures BucketAfter(rs + [q], limit) == Some(AfterTake(BucketAfter(rs, limit), limit, q.cost, q.now))
  {
    hide AfterTake;
    assert (rs + [q])[..|rs|] == rs;
  }

  lemma RedisAppend(rs: seq<Request>, q: Request, limit: Limit)
    ensures RedisAfter(rs + [q], limit) == ScriptAfter(RedisAfter(rs, limit), limit, q.cost, q.now)
  {
    hide ScriptAfter;
    assert (rs + [q])[..|rs|] == rs;
  }

  lemma ReadingsAppend(ls: seq<Late>, e: Late, epoch: nat -> real)
    ensures Readings(ls + [e], epoch) == Readings(ls, epoch) + [Request(e.cost, Reading(e, epoch))]
  {
    assert (ls + [e])[..|ls|] == ls;
  }

  /** The fleet is one shared bucket beside one local bucket for each process. */
  lemma {:induction false} FleetSplits(es: seq<Event>, limit: Limit, n: FleetSize, epoch: nat -> real, p: nat)
    ensures var f := FleetAfter(es, limit, n, epoch);
            && f.shared == RedisAfter(SharedRequests(es), limit)
            && Lookup(f.local, p) == BucketAfter(Readings(Fallbacks(es, p), epoch), LocalLimit(limit, n))
  {
    hide AfterTake, ScriptAfter, LocalLimit, RedisAfter, BucketAfter, Reading, Readings;
    if es == [] {
      EmptyHistories(limit, LocalLimit(limit, n), epoch);
    } else {
      var front, e := es[..|es| - 1], es[|es| - 1];
      FleetSplits(front, limit, n, epoch, p);
      if e.Script? {
        RedisAppend(SharedRequests(front), Request(e.cost, e.at), limit);
      } else if e.proc == p {
        var ls := Fallbacks(front, p);
        ReadingsAppend(ls, e, epoch);
        BucketAppend(Readings(ls, epoch), Request(e.cost, Reading(e, epoch)), LocalLimit(limit, n));
      }
    }
  }

  lemma EmptyHistories(limit: Limit, share: Limit, epoch: nat -> real)
    ensures RedisAfter([], limit) == RedisKeys(None, None) && BucketAfter(Readings([], epoch), share) == None
  {}

  // ----- one local bucket -----------------------------------------------------------

  ghost predicate LateAdmitted(ls: seq<Late>, limit: Limit, epoch: nat -> real)
    requires ls != []
  {
    var e := ls[|ls| - 1];
    Admits(BucketAfter(Readings(ls[..|ls| - 1], epoch), limit), limit, e.cost, Reading(e, epoch))
  }

  /** The cost that a local bucket admits in a window of the common time. */
  ghost function LateWithin(ls: seq<Late>, limit: Limit, epoch: nat -> real, s: real, t: real): real {
    if ls == [] then 0.0
    else
      var e := ls[|ls| - 1];
      LateWithin(ls[..|ls| - 1], limit, epoch, s, t)
      + if LateAdmitted(ls, limit, epoch) && s <= e.at <= t then e.cost else 0.0
  }

  ghost predicate LateOrdered(ls: seq<Late>, p: nat) {
    && (forall i, j :: 0 <= i <= j < |ls| ==> ls[i].at <= ls[j].at)
    && (forall i :: 0 <= i < |ls| ==> ls[i].cost >= 0.0 && ls[i].proc == p && ls[i].lag >= 0.0)
  }

  /** The most that a bucket can have granted and still hold after time `d`. */
  ghost function Budget(limit: Limit, d: real): real { limit.burst + Earned(limit, 0.0, d) }

  lemma BudgetStep(limit: Limit, b: Bucket, now: real, c: real, d: real)
    requires limit.rate >= 0.0 && d >= 0.0 && now - b.lastTs <= d
    ensures Available(Some(b), now, limit) <= limit.burst
    ensures Available(Some(b), now, limit) - b.tokens <= Budget(limit, c + d) - Budget(limit, c)
    ensures limit.burst >= 0.0 && b.tokens >= 0.0 ==> Available(Some(b), now, limit) >= 0.0
  {
    var elapsed := Max(0.0, now - b.lastTs);
    EarnedMonotone(limit, 0.0, elapsed, 0.0, d);
    EarnedMonotone(limit, 0.0, 0.0, 0.0, elapsed);
    EarnedSplit(limit, 0.0, c, c + d);
    EarnedMonotone(limit, c, c + d, 0.0, d);
    EarnedMonotone(limit, 0.0, d, c, c + d);
  }

  /** What call `e` is granted after the calls `ls`. */
  ghost function Granted(ls: seq<Late>, e: Late, limit: Limit, epoch: nat -> real): real {
    if Admits(BucketAfter(Readings(ls, epoch), limit), limit, e.cost, Reading(e, epoch)) then e.cost else 0.0
  }

  lemma LateAppend(ls: seq<Late>, e: Late, limit: Limit, epoch: nat -> real, s: real, t: real)
    ensures var now := Reading(e, epoch);
            var left := Available(BucketAfter(Readings(ls, epoch), limit), now, limit) - Granted(ls, e, limit, epoch);
            && BucketAfter(Readings(ls + [e], epoch), limit) == Some(Bucket(left, now))
            && LateWithin(ls + [e], limit, epoch, s, t)
               == LateWithin(ls, limit, epoch, s, t) + (if s <= e.at <= t then Granted(ls, e, limit, epoch) else 0.0)
            && Lag(ls + [e], s, t) == Lag(ls, s, t) + (if s <= e.at <= t then e.lag else 0.0)
            && (e.cost >= 0.0 && left + Granted(ls, e, limit, epoch) >= 0.0 ==> left >= 0.0)
  {
    hide Available;
    assert (ls + [e])[..|ls|] == ls;
    ReadingsAppend(ls, e, epoch);
    BucketAppend(Readings(ls, epoch), Request(e.cost, Reading(e, epoch)), limit);
  }

  /** With any order of the readings: what was granted since `s`, and what is left, is at
      most the burst and the refill of the time since `s`, counting again the time that
      each earlier call of the window had waited before it fell back. */
  ghost predicate InBudget(ls: seq<Late>, limit: Limit, epoch: nat -> real, s: real, t: real)
    requires ls != []
  {
    var front, e := ls[..|ls| - 1], ls[|ls| - 1];
    var b := BucketAfter(Readings(ls, epoch), limit);
    && b.Some? && b.value.lastTs == Reading(e, epoch) && b.value.tokens >= 0.0
    && Lag(front, s, t) >= 0.0 && Lag(ls, s, t) == Lag(front, s, t) + (if s <= e.at then e.lag else 0.0)
    && if s <= e.at then
         LateWithin(ls, limit, epoch, s, t) + b.value.tokens <= Budget(limit, e.at - s + Lag(front, s, t))
       else
         LateWithin(ls, limit, epoch, s, t) == 0.0 == Lag(ls, s, t)
  }

  lemma InBudgetStep(ls: seq<Late>, e: Late, limit: Limit, epoch: nat -> real, p: nat, s: real, t: real)
    requires LateOrdered(ls + [e], p) && limit.rate >= 0.0 && limit.burst >= 0.0 && e.at <= t
    requires ls != [] && InBudget(ls, limit, epoch, s, t)
    ensures InBudget(ls + [e], limit, epoch, s, t)
  {
    hide Available, BucketAfter, Readings, Budget, LateWithin, Lag, Granted;
    var all, front, last := ls + [e], ls[..|ls| - 1], ls[|ls| - 1];
    assert all[..|all| - 1] == ls && all[|all| - 1] == e && all[|ls| - 1] == last;
    var b := BucketAfter(Readings(ls, epoch), limit).value;
    LateAppend(ls, e, limit, epoch, s, t);
    var spent := if s <= last.at then last.at - s + Lag(front, s, t) else 0.0;
    BudgetStep(limit, b, Reading(e, epoch), spent, e.at - last.at + last.lag);
    if s <= e.at { BudgetGrows(limit, 0.0, e.at - s); }
  }

  lemma InBudgetFirst(e: Late, limit: Limit, epoch: nat -> real, s: real, t: real)
    requires limit.rate >= 0.0 && limit.burst >= 0.0 && e.at <= t && e.cost >= 0.0
    ensures InBudget([e], limit, epoch, s, t)
  {
    hide Available, BucketAfter, Readings, Budget, Granted;
    assert [] + [e] == [e] && [e][..0] == [];
    LateAppend([], e, limit, epoch, s, t);
    EmptyHistories(limit, limit, epoch);
    FullBucket(limit, Reading(e, epoch));
    if s <= e.at { BudgetGrows(limit, 0.0, e.at - s); }
  }

  lemma {:induction false} LateStep(ls: seq<Late>, limit: Limit, epoch: nat -> real, p: nat, s: real, t: real)
    requires ls != [] && LateOrdered(ls, p) && limit.rate >= 0.0 && limit.burst >= 0.0
    requires ls[|ls| - 1].at <= t
    ensures InBudget(ls, limit, epoch, s, t)
  {
    hide InBudget;
    var front, e := ls[..|ls| - 1], ls[|ls| - 1];
    assert front + [e] == ls;
    if front == [] {
      InBudgetFirst(e, limit, epoch, s, t);
    } else {
      LateStep(front, limit, epoch, p, s, t);
      InBudgetStep(front, e, limit, epoch, p, s, t);
    }
  }

  lemma FullBucket(limit: Limit, now: real)
    ensures Available(None, now, limit) == limit.burst
  {}

  lemma BudgetGrows(limit: Limit, c: real, d: real)
    requires limit.rate >= 0.0 && c <= d
    ensures Budget(limit, 0.0) == limit.burst && Budget(limit, c) <= Budget(limit, d)
  {
    EarnedMonotone(limit, 0.0, c, 0.0, d);
  }

  /** Whatever the order of the readings, a local bucket admits in a window at most its burst
      and the refill of the window and of the lags within it. */
  lemma {:induction false} LateBound(ls: seq<Late>, limit: Limit, epoch: nat -> real, p: nat, s: real, t: real)
    requires LateOrdered(ls, p) && limit.rate >= 0.0 && limit.burst >= 0.0 && s <= t
    ensures LateWithin(ls, limit, epoch, s, t) <= Budget(limit, t - s + Lag(ls, s, t))
    ensures Lag(ls, s, t) >= 0.0
  {
    hide LateAdmitted, Budget;
    if ls == [] {
      BudgetGrows(limit, 0.0, t - s);
    } else {
      var front, e := ls[..|ls| - 1], ls[|ls| - 1];
      LateBound(front, limit, epoch, p, s, t);
      if e.at <= t {
        LateStep(ls, limit, epoch, p, s, t);
        if s <= e.at {
          BudgetGrows(limit, e.at - s + Lag(front, s, t), t - s + Lag(ls, s, t));
        } else {
          BudgetGrows(limit, 0.0, t - s);
        }
      }
    }
  }

  // ----- all local buckets together -------------------------------------------------

  /** The cost the local buckets of the first `m` processes admit in a window. */
  ghost function LocalWithin(es: seq<Event>, share: Limit, epoch: nat -> real, m: nat, s: real, t: real): real {
    if m == 0 then 0.0
    else LocalWithin(es, share, epoch, m - 1, s, t) + LateWithin(Fallbacks(es, m - 1), share, epoch, s, t)
  }

  ghost function LocalLag(es: seq<Event>, m: nat, s: real, t: real): real {
    if m == 0 then 0.0 else LocalLag(es, m - 1, s, t) + Lag(Fallbacks(es, m - 1), s, t)
  }

  lemma FallbacksAppend(es: seq<Event>, e: Event, p: nat)
    ensures Fallbacks(es + [e], p) == if e.Fallback? && e.proc == p then Fallbacks(es, p) + [e] else Fallbacks(es, p)
  {
    assert (es + [e])[..|es|] == es;
  }

  lemma {:induction false} LocalAppend(es: seq<Event>, e: Event, share: Limit, epoch: nat -> real, m: nat, s: real,
                                       t: real)
    ensures var mine := e.Fallback? && e.proc < m && s <= e.at <= t;
            && LocalWithin(es + [e], share, epoch, m, s, t)
               == LocalWithin(es, share, epoch, m, s, t)
                  + (if mine then Granted(Fallbacks(es, e.proc), e, share, epoch) else 0.0)
            && LocalLag(es + [e], m, s, t) == LocalLag(es, m, s, t) + (if mine then e.lag else 0.0)
  {
    hide Granted, LateWithin, Lag, Fallbacks, BucketAfter, Available;
    if m != 0 {
      var p := m - 1;
      LocalAppend(es, e, share, epoch, p, s, t);
      FallbacksAppend(es, e, p);
      if e.Fallback? && e.proc == p {
        LateAppend(Fallbacks(es, p), e, share, epoch, s, t);
      }
    }
  }

  /** The lags of the processes are those of the fleet. */
  lemma {:induction false} LagsAddUp(es: seq<Event>, w: nat, s: real, t: real)
    requires FleetOrdered(es, w)
    ensures LocalLag(es, w, s, t) == Lag(es, s, t) >= 0.0
  {
    if es == [] {
      NothingLocal(PerSecond(0.0), _ => 0.0, w, s, t);
    } else {
      var front, e := es[..|es| - 1], es[|es| - 1];
      LagsAddUp(front, w, s, t);
      LocalAppend(front, e, PerSecond(0.0), _ => 0.0, w, s, t);
      assert front + [e] == es;
    }
  }

  lemma {:induction false} NothingLocal(share: Limit, epoch: nat -> real, m: nat, s: real, t: real)
    ensures LocalWithin([], share, epoch, m, s, t) == 0.0 == LocalLag([], m, s, t)
  {
    if m != 0 {
      NothingLocal(share, epoch, m - 1, s, t);
    }
  }

  lemma {:induction false} FallbacksOrdered(es: seq<Event>, w: nat, p: nat, now: real)
    requires FleetOrdered(es, w)
    requires forall i :: 0 <= i < |es| ==> es[i].at <= now
    ensures var ls := Fallbacks(es, p);
            LateOrdered(ls, p) && forall i :: 0 <= i < |ls| ==> ls[i].at <= now
  {
    if es != [] {
      FleetOrderedPrefix(es, w);
      FallbacksOrdered(es[..|es| - 1], w, p, es[|es| - 1].at);
    }
  }

  lemma FallbacksInOrder(es: seq<Event>, w: nat, p: nat)
    requires FleetOrdered(es, w)
    ensures LateOrdered(Fallbacks(es, p), p)
  {
    FallbacksOrdered(es, w, p, Latest(es));
  }

  ghost function Latest(es: seq<Event>): real { if es == [] then 0.0 else es[|es| - 1].at }

  lemma BudgetIs(limit: Limit, s: real, t: real, lag: real)
    ensures Budget(limit, t - s + lag) == limit.burst + Earned(limit, s, t) + Earned(limit, 0.0, lag)
  {
    EarnedSum(limit, t - s, lag);
  }

  lemma EarnedSum(limit: Limit, a: real, b: real)
    ensures Earned(limit, 0.0, a + b) == Earned(limit, 0.0, a) + Earned(limit, 0.0, b)
  {
    Distribute(limit.rate, a, b);
  }

  lemma {:induction false} LocalBound(es: seq<Event>, w: nat, share: Limit, epoch: nat -> real, m: nat, s: real,
                                      t: real)
    requires FleetOrdered(es, w) && share.rate >= 0.0 && share.burst >= 0.0 && s <= t
    ensures LocalWithin(es, share, epoch, m, s, t)
            <= Times(m, share.burst + Earned(share, s, t)) + Earned(share, 0.0, LocalLag(es, m, s, t))
  {
    hide LateOrdered, FleetOrdered, Fallbacks, LateWithin, Earned, Times, Lag;
    TimesStep(m, share.burst + Earned(share, s, t));
    NothingEarned(share, 0.0);
    if m != 0 {
      var p := m - 1;
      LocalBound(es, w, share, epoch, p, s, t);
      FallbacksInOrder(es, w, p);
      LateBound(Fallbacks(es, p), share, epoch, p, s, t);
      BudgetIs(share, s, t, Lag(Fallbacks(es, p), s, t));
      EarnedSum(share, LocalLag(es, p, s, t), Lag(Fallbacks(es, p), s, t));
    }
  }

  /** What `w` local buckets may admit in time `d`, each with its share of a fleet of `n`. */
  ghost function Shares(limit: Limit, n: FleetSize, w: nat, d: real): real {
    Times(w, LocalLimit(limit, n).burst + Earned(LocalLimit(limit, n), 0.0, d))
  }

  /** Dividing the limit by the fleet size makes the shares add up to the ceiling again, if
      there are that many processes; fewer stay below it. */
  lemma SharesAddUp(limit: Limit, n: FleetSize, w: nat, d: real)
    requires limit.rate >= 0.0 && d >= 0.0
    ensures w == n ==> Shares(limit, n, w, d) == Max(n as real, limit.burst) + Earned(limit, 0.0, d)
    ensures w <= n ==> Shares(limit, n, w, d) <= Max(n as real, limit.burst) + Earned(limit, 0.0, d)
  {
    var share := LocalLimit(limit, n);
    SharesNonNegative(limit, n);
    EarnedMonotone(share, 0.0, 0.0, 0.0, d);
    NothingEarned(share, 0.0);
    assert Shares(limit, n, n, d) == Max(n as real, limit.burst) + Earned(limit, 0.0, d) by {
      FullShares(limit, n, d);
    }
    if w <= n { TimesMonotone(w, n, share.burst + Earned(share, 0.0, d)); }
  }

  lemma FullShares(limit: Limit, n: FleetSize, d: real)
    ensures Shares(limit, n, n, d) == Max(n as real, limit.burst) + Earned(limit, 0.0, d)
  {}

  lemma TimesMonotone(a: nat, b: nat, x: real)
    requires a <= b && x >= 0.0
    ensures Times(a, x) <= Times(b, x)
  {
    if a < b {
      TimesStep(b, x);
      TimesMonotone(a, b - 1, x);
    }
  }

  lemma SharesNonNegative(limit: Limit, n: FleetSize)
    requires limit.rate >= 0.0
    ensures var share := LocalLimit(limit, n); share.rate >= 0.0 && share.burst >= 1.0
  {}

  /** The refill that calls may earn twice because their clock readings were old. */
  ghost function LateRefill(es: seq<Event>, limit: Limit, n: FleetSize, s: real, t: real): real {
    Earned(LocalLimit(limit, n), 0.0, Lag(es, s, t))
  }

  /** All local buckets of `w` processes together, whatever fleet size `n` is configured. */
  lemma FallbackBound(es: seq<Event>, limit: Limit, n: FleetSize, w: nat, epoch: nat -> real, s: real, t: real)
    requires FleetOrdered(es, w) && s <= t && limit.rate >= 0.0
    ensures LocalWithin(es, LocalLimit(limit, n), epoch, w, s, t)
            <= Shares(limit, n, w, t - s) + LateRefill(es, limit, n, s, t)
  {
    hide FleetOrdered, LocalWithin, LocalLag, LocalLimit, Times;
    SharesNonNegative(limit, n);
    LocalBound(es, w, LocalLimit(limit, n), epoch, w, s, t);
    LagsAddUp(es, w, s, t);
  }

  // ----- the fleet ------------------------------------------------------------------

  lemma SharedAppend(rs: seq<Request>, q: Request, limit: Limit, s: real, t: real)
    ensures AdmittedWithin(rs + [q], limit, s, t)
            == AdmittedWithin(rs, limit, s, t)
               + if Admits(BucketAfter(rs, limit), limit, q.cost, q.now) && s <= q.now <= t then q.cost else 0.0
  {
    hide Admits, BucketAfter;
    assert (rs + [q])[..|rs|] == rs;
  }

  /** Ordered events give an ordered history to the shared store. */
  lemma {:induction false} SharedOrdered(es: seq<Event>, w: nat, now: real)
    requires FleetOrdered(es, w)
    requires forall i :: 0 <= i < |es| ==> es[i].at <= now
    ensures Ordered(SharedRequests(es))
    ensures forall i :: 0 <= i < |SharedRequests(es)| ==> SharedRequests(es)[i].now <= now
  {
    if es != [] {
      FleetOrderedPrefix(es, w);
      SharedOrdered(es[..|es| - 1], w, es[|es| - 1].at);
    }
  }

  /** What the last event added. */
  ghost function LastGrant(es: seq<Event>, limit: Limit, n: FleetSize, epoch: nat -> real, s: real, t: real): real
    requires es != []
  {
    var k := |es| - 1;
    if FleetAdmits(es, limit, n, epoch, k) && s <= es[k].at <= t then es[k].cost else 0.0
  }

  lemma LastFallback(es: seq<Event>, limit: Limit, n: FleetSize, w: nat, epoch: nat -> real, s: real, t: real)
    requires FleetOrdered(es, w) && es != []
    ensures var front, e := es[..|es| - 1], es[|es| - 1];
            LocalWithin(es, LocalLimit(limit, n), epoch, w, s, t)
            == LocalWithin(front, LocalLimit(limit, n), epoch, w, s, t)
               + if e.Fallback? then LastGrant(es, limit, n, epoch, s, t) else 0.0
  {
    hide Admits, ScriptAdmits, LocalLimit, RedisAfter, BucketAfter, LocalWithin, SharedRequests, Fallbacks, Reading;
    var front, e := es[..|es| - 1], es[|es| - 1];
    assert front + [e] == es;
    LocalAppend(front, e, LocalLimit(limit, n), epoch, w, s, t);
    if e.Fallback? {
      FleetSplits(front, limit, n, epoch, e.proc);
    }
  }

  lemma LastScript(es: seq<Event>, limit: Limit, n: FleetSize, w: nat, epoch: nat -> real, s: real, t: real)
    requires FleetOrdered(es, w) && es != []
    requires limit.rate >= 0.0 && 0.0 <= limit.burst <= TTL * limit.rate
    ensures var front, e := es[..|es| - 1], es[|es| - 1];
            AdmittedWithin(SharedRequests(es), limit, s, t)
            >= AdmittedWithin(SharedRequests(front), limit, s, t)
               + if e.Script? then LastGrant(es, limit, n, epoch, s, t) else 0.0
  {
    hide Admits, ScriptAdmits, LocalLimit, RedisAfter, BucketAfter, AdmittedWithin;
    var front, e := es[..|es| - 1], es[|es| - 1];
    if e.Script? {
      var rs, q := SharedRequests(front), Request(e.cost, e.at);
      FleetSplits(front, limit, n, epoch, 0);
      SharedAppend(rs, q, limit, s, t);
      SharedOrdered(es, w, e.at);
      RedisAdmitsTheSame(rs + [q], limit, |rs|);
      assert (rs + [q])[..|rs|] == rs;
    }
  }

  /** Everything the fleet admits is admitted by the shared bucket or by some local one. */
  lemma {:induction false} FleetWithinSplits(es: seq<Event>, limit: Limit, n: FleetSize, w: nat, epoch: nat -> real,
                                             s: real, t: real)
    requires FleetOrdered(es, w)
    requires limit.rate >= 0.0 && 0.0 <= limit.burst <= TTL * limit.rate
    ensures FleetWithin(es, limit, n, epoch, s, t)
            <= AdmittedWithin(SharedRequests(es), limit, s, t) + LocalWithin(es, LocalLimit(limit, n), epoch, w, s, t)
  {
    hide FleetAdmits, LocalLimit, SharedRequests, LocalWithin, AdmittedWithin;
    if es == [] {
      NothingShared(limit, s, t);
      NothingLocal(LocalLimit(limit, n), epoch, w, s, t);
    } else {
      FleetOrderedPrefix(es, w);
      FleetWithinSplits(es[..|es| - 1], limit, n, w, epoch, s, t);
      LastFallback(es, limit, n, w, epoch, s, t);
      LastScript(es, limit, n, w, epoch, s, t);
    }
  }

  lemma NothingShared(limit: Limit, s: real, t: real)
    ensures AdmittedWithin(SharedRequests([]), limit, s, t) == 0.0
  {}

  /** Fleet bound: whatever calls are lost and whichever processes degrade and recover, in
      no window does the fleet admit more than one shared bucket plus one divided bucket per
      process, and the refill of the lags.  For up to `n` processes that is
      burst + max(n, burst) + 2 * rate * d. */
  lemma FleetBound(es: seq<Event>, limit: Limit, n: FleetSize, w: nat, epoch: nat -> real, s: real, t: real)
    requires FleetOrdered(es, w) && s <= t
    requires limit.rate >= 0.0 && 0.0 <= limit.burst <= TTL * limit.rate
    ensures FleetWithin(es, limit, n, epoch, s, t)
            <= limit.burst + Earned(limit, s, t) + Shares(limit, n, w, t - s) + LateRefill(es, limit, n, s, t)
    ensures w <= n ==>
              FleetWithin(es, limit, n, epoch, s, t)
              <= limit.burst + Max(n as real, limit.burst) + 2.0 * Earned(limit, s, t) + LateRefill(es, limit, n, s, t)
  {
    hide FleetWithin, LocalWithin, LocalLimit, AdmittedWithin, LateRefill, Shares;
    SharesAddUp(limit, n, w, t - s);
    FleetWithinSplits(es, limit, n, w, epoch, s, t);
    SharedOrdered(es, w, Latest(es));
    WindowBound(SharedRequests(es), limit, s, t);
    FallbackBound(es, limit, n, w, epoch, s, t);
  }

  /** The shared store answers nobody. */
  ghost predicate Outage(es: seq<Event>) {
    forall i :: 0 <= i < |es| && es[i].Script? ==> !es[i].answered
  }

  lemma {:induction false} OutageIsLocal(es: seq<Event>, limit: Limit, n: FleetSize, w: nat, epoch: nat -> real,
                                         s: real, t: real)
    requires FleetOrdered(es, w) && Outage(es)
    ensures FleetWithin(es, limit, n, epoch, s, t) == LocalWithin(es, LocalLimit(limit, n), epoch, w, s, t)
  {
    hide LocalLimit, LocalWithin;
    if es == [] {
      NothingLocal(LocalLimit(limit, n), epoch, w, s, t);
    } else {
      FleetOrderedPrefix(es, w);
      OutageIsLocal(es[..|es| - 1], limit, n, w, epoch, s, t);
      LastFallback(es, limit, n, w, epoch, s, t);
    }
  }

  /** During a total outage the shared bucket adds nothing: for up to `n` processes that
      leaves max(n, burst) + rate * d, and the refill of the lags. */
  lemma OutageBound(es: seq<Event>, limit: Limit, n: FleetSize, w: nat, epoch: nat -> real, s: real, t: real)
    requires FleetOrdered(es, w) && Outage(es) && s <= t && limit.rate >= 0.0
    ensures FleetWithin(es, limit, n, epoch, s, t)
            <= Shares(limit, n, w, t - s) + LateRefill(es, limit, n, s, t)
    ensures w <= n ==>
              FleetWithin(es, limit, n, epoch, s, t)
              <= Max(n as real, limit.burst) + Earned(limit, s, t) + LateRefill(es, limit, n, s, t)
  {
    hide FleetWithin, LocalWithin, LocalLimit, LateRefill, Shares;
    SharesAddUp(limit, n, w, t - s);
    OutageIsLocal(es, limit, n, w, epoch, s, t);
    FallbackBound(es, limit, n, w, epoch, s, t);
  }

  // ----- when the documented cap holds ----------------------------------------------

  /** The first `m` processes each spend `cost` at the time `now`. */
  ghost function Spend(m: nat, cost: real, now: real): (es: seq<Event>)
    ensures |es| == m && forall i :: 0 <= i < m ==> es[i] == Fallback(i, cost, now, 0.0)
  {
    seq(m, i requires 0 <= i < m => Fallback(i, cost, now, 0.0))
  }

  lemma FallbackAppend(es: seq<Event>, e: Late, limit: Limit, n: FleetSize, epoch: nat -> real, s: real, t: real)
    ensures var f, share := FleetAfter(es, limit, n, epoch), LocalLimit(limit, n);
            var b, now := Lookup(f.local, e.proc), Reading(e, epoch);
            && FleetAfter(es + [e], limit, n, epoch)
               == f.(local := f.local[e.proc := AfterTake(b, share, e.cost, now)])
            && FleetWithin(es + [e], limit, n, epoch, s, t)
               == FleetWithin(es, limit, n, epoch, s, t)
                  + (if Admits(b, share, e.cost, now) && s <= e.at <= t then e.cost else 0.0)
            && Lag(es + [e], s, t) == Lag(es, s, t) + (if s <= e.at <= t then e.lag else 0.0)
  {
    hide Admits, AfterTake, LocalLimit, Reading;
    assert (es + [e])[..|es|] == es;
  }

  lemma ScriptAppend(es: seq<Event>, cost: real, at: real, limit: Limit, n: FleetSize, epoch: nat -> real,
                     s: real, t: real)
    requires s <= at <= t
    requires ScriptAdmits(FleetAfter(es, limit, n, epoch).shared, limit, cost, at)
    ensures var all, f := es + [Script(cost, at, true)], FleetAfter(es, limit, n, epoch);
            && FleetAfter(all, limit, n, epoch) == f.(shared := ScriptAfter(f.shared, limit, cost, at))
            && FleetWithin(all, limit, n, epoch, s, t) == FleetWithin(es, limit, n, epoch, s, t) + cost
            && Lag(all, s, t) == Lag(es, s, t)
  {
    hide ScriptAdmits, ScriptAfter;
    var all := es + [Script(cost, at, true)];
    assert all[..|es|] == es;
  }

  lemma TakeAll(b: Option<Bucket>, limit: Limit, now: real)
    ensures var all := Available(b, now, limit);
            Admits(b, limit, all, now) && AfterTake(b, limit, all, now) == Bucket(0.0, now)
  {}

  /** Processes that spend all they have leave their buckets empty. */
  lemma {:induction false} SpendEmpties(es: seq<Event>, limit: Limit, n: FleetSize, epoch: nat -> real, m: nat,
                                        cost: real, now: real, s: real, t: real)
    requires s <= now <= t
    requires var f := FleetAfter(es, limit, n, epoch);
             forall p: nat :: p < m ==> Available(Lookup(f.local, p), now + epoch(p), LocalLimit(limit, n)) == cost
    ensures var f, after := FleetAfter(es, limit, n, epoch), FleetAfter(es + Spend(m, cost, now), limit, n, epoch);
            && after.shared == f.shared
            && forall p: nat :: Lookup(after.local, p)
                                == if p < m then Some(Bucket(0.0, now + epoch(p))) else Lookup(f.local, p)
    ensures FleetWithin(es + Spend(m, cost, now), limit, n, epoch, s, t)
            == FleetWithin(es, limit, n, epoch, s, t) + Times(m, cost)
    ensures Lag(es + Spend(m, cost, now), s, t) == Lag(es, s, t)
  {
    hide Available, Admits, AfterTake, LocalLimit, Times, FleetWithin, Lag, FleetAfter;
    TimesStep(m, cost);
    if m == 0 {
      assert es + Spend(m, cost, now) == es;
    } else {
      var share, p := LocalLimit(limit, n), m - 1;
      var most, e := es + Spend(p, cost, now), Fallback(p, cost, now, 0.0);
      SpendEmpties(es, limit, n, epoch, p, cost, now, s, t);
      assert es + Spend(m, cost, now) == most + [e];
      FallbackAppend(most, e, limit, n, epoch, s, t);
      var before := FleetAfter(most, limit, n, epoch).local;
      assert Reading(e, epoch) == now + epoch(p);
      TakeAll(Lookup(before, p), share, now + epoch(p));
      var after := FleetAfter(es + Spend(m, cost, now), limit, n, epoch).local;
      assert after == before[p := Bucket(0.0, now + epoch(p))];
      assert forall q: nat :: q != p ==> Lookup(after, q) == Lookup(before, q);
    }
  }

  /** The shared bucket and those of the first `m` processes are all empty. */
  ghost predicate Drained(f: FleetState, epoch: nat -> real, m: nat, now: real) {
    && f.shared == RedisKeys(Some(Entry(0.0, now + TTL)), Some(Entry(now, now + TTL)))
    && forall p: nat :: p < m ==> Lookup(f.local, p) == Some(Bucket(0.0, now + epoch(p)))
  }

  /** At `now` the script admits all that is in the shared bucket, and each of the first `m`
      processes, cut off from it, all that is in its own. */
  lemma Round(es: seq<Event>, limit: Limit, n: FleetSize, epoch: nat -> real, m: nat, both: real, cost: real, now: real,
              s: real, t: real) returns (all: seq<Event>)
    requires s <= now <= t && m <= n && both >= 0.0 && cost >= 0.0
    requires FleetOrdered(es, m) && forall i :: 0 <= i < |es| ==> es[i].at <= now
    requires var f := FleetAfter(es, limit, n, epoch);
             && ScriptAvailable(f.shared, limit, now) == both
             && forall p: nat :: p < m ==> Available(Lookup(f.local, p), now + epoch(p), LocalLimit(limit, n)) == cost
    ensures FleetOrdered(all, m) && forall i :: 0 <= i < |all| ==> all[i].at <= now
    ensures Drained(FleetAfter(all, limit, n, epoch), epoch, m, now)
    ensures FleetWithin(all, limit, n, epoch, s, t) == FleetWithin(es, limit, n, epoch, s, t) + both + Times(m, cost)
    ensures Lag(all, s, t) == Lag(es, s, t)
  {
    hide Available, ScriptAvailable, LocalLimit, Times, FleetWithin, Lag, FleetAfter;
    ScriptAppend(es, both, now, limit, n, epoch, s, t);
    var one := es + [Script(both, now, true)];
    SpendEmpties(one, limit, n, epoch, m, cost, now, s, t);
    all := one + Spend(m, cost, now);
  }

  lemma Refilled(f: FleetState, limit: Limit, n: FleetSize, epoch: nat -> real, m: nat, last: real, d: real)
    requires Drained(f, epoch, m, last) && limit.rate >= 0.0
    requires 0.0 <= d < TTL && Earned(limit, 0.0, d) <= limit.burst
    ensures ScriptAvailable(f.shared, limit, last + d) == Earned(limit, 0.0, d) >= 0.0
    ensures Earned(LocalLimit(limit, n), 0.0, d) >= 0.0
    ensures forall p: nat :: p < m ==>
              Available(Lookup(f.local, p), last + d + epoch(p), LocalLimit(limit, n))
              == Earned(LocalLimit(limit, n), 0.0, d)
  {
    hide LocalLimit;
    var share := LocalLimit(limit, n);
    EarnedMonotone(limit, 0.0, 0.0, 0.0, d);
    NothingEarned(limit, 0.0);
    ShareOfRefill(limit, n, d);
    forall p: nat | p < m
      ensures Available(Lookup(f.local, p), last + d + epoch(p), share) == Earned(share, 0.0, d)
    {
      AvailableNow(Bucket(0.0, last + epoch(p)), share, last + d + epoch(p));
      EarnedMonotone(share, last + epoch(p), last + d + epoch(p), 0.0, d);
      EarnedMonotone(share, 0.0, d, last + epoch(p), last + d + epoch(p));
    }
  }

  lemma ShareOfRefill(limit: Limit, n: FleetSize, d: real)
    requires limit.rate >= 0.0 && d >= 0.0 && Earned(limit, 0.0, d) <= limit.burst
    ensures 0.0 <= Earned(LocalLimit(limit, n), 0.0, d) <= LocalLimit(limit, n).burst
    ensures LocalLimit(limit, n).rate >= 0.0
  {
    var share, k := LocalLimit(limit, n), n as real;
    assert k * share.rate == limit.rate;
    assert k * (share.rate * d) == limit.rate * d;
    assert k * (limit.burst / k) == limit.burst;
    assert share.rate * d >= 0.0;
    if share.rate * d > limit.burst / k {
      assert k * (share.rate * d) > k * (limit.burst / k);
    }
  }

  /** One round at once, and `k` more, a time `d` apart. */
  lemma {:induction false} Rounds(limit: Limit, n: FleetSize, epoch: nat -> real, m: nat, d: real, k: nat, t: real)
    returns (es: seq<Event>)
    requires 1 <= m <= n && limit.rate >= 0.0 && limit.burst >= 0.0
    requires 0.0 <= d < TTL && Earned(limit, 0.0, d) <= limit.burst && 0.0 <= Times(k, d) <= t
    ensures FleetOrdered(es, m) && (forall i :: 0 <= i < |es| ==> es[i].at <= Times(k, d)) && Lag(es, 0.0, t) == 0.0
    ensures Drained(FleetAfter(es, limit, n, epoch), epoch, m, Times(k, d))
    ensures FleetWithin(es, limit, n, epoch, 0.0, t)
            == limit.burst + Times(m, LocalLimit(limit, n).burst)
               + Times(k, Earned(limit, 0.0, d) + Times(m, Earned(LocalLimit(limit, n), 0.0, d)))
  {
    hide FleetWithin, FleetAfter, Lag, LocalLimit, Earned, Times, Drained;
    var share := LocalLimit(limit, n);
    var gain := Earned(limit, 0.0, d) + Times(m, Earned(share, 0.0, d));
    TimesStep(k, d);
    TimesStep(k, gain);
    if k == 0 {
      FullAtFirst(limit, n, epoch, t);
      SharesNonNegative(limit, n);
      es := Round([], limit, n, epoch, m, limit.burst, share.burst, 0.0, 0.0, t);
    } else {
      TimesStep(k - 1, d);
      TimesNonNegative(k - 1, d);
      es := Rounds(limit, n, epoch, m, d, k - 1, t);
      Refilled(FleetAfter(es, limit, n, epoch), limit, n, epoch, m, Times(k - 1, d), d);
      es := Round(es, limit, n, epoch, m, Earned(limit, 0.0, d), Earned(share, 0.0, d), Times(k, d), 0.0, t);
    }
  }

  lemma TimesNonNegative(m: nat, x: real)
    requires x >= 0.0
    ensures Times(m, x) >= 0.0
  {}

  lemma FullAtFirst(limit: Limit, n: FleetSize, epoch: nat -> real, t: real)
    ensures var f := FleetAfter([], limit, n, epoch);
            && ScriptAvailable(f.shared, limit, 0.0) == limit.burst
            && forall p: nat ::
                 Available(Lookup(f.local, p), 0.0 + epoch(p), LocalLimit(limit, n)) == LocalLimit(limit, n).burst
    ensures FleetWithin([], limit, n, epoch, 0.0, t) == 0.0 == Lag([], 0.0, t)
  {
    var elapsed := 0.0 - 0.0;
    ZeroTimes(elapsed, limit.rate);
    forall p: nat { FullBucket(LocalLimit(limit, n), epoch(p)); }
  }

  lemma ZeroTimes(x: real, r: real)
    requires x == 0.0
    ensures x * r == 0.0
  {}

  /** A time `d` cut into `k` equal steps, each too short for a key to expire or the shared
      bucket to fill up. */
  lemma Slices(limit: Limit, d: real) returns (k: nat, step: real)
    requires limit.rate >= 0.0 && limit.burst >= 0.0 && d >= 0.0 && (d == 0.0 || limit.burst > 0.0)
    ensures Times(k, step) == d && 0.0 <= step < TTL && Earned(limit, 0.0, step) <= limit.burst
  {
    if d == 0.0 {
      k, step := 0, 0.0;
    } else {
      var a, b := d / TTL, limit.rate * d / limit.burst;
      assert limit.rate * d >= 0.0;
      assert b * limit.burst == limit.rate * d;
      assert a >= 0.0 && b >= 0.0;
      k := a.Floor + b.Floor + 2;
      var n := k as real;
      step := d / n;
      assert n * step == d;
      Smaller(n, step, TTL, a);
      assert n * (limit.rate * step) == limit.rate * d;
      Smaller(n, limit.rate * step, limit.burst, b);
    }
  }

  /** If `n` times `x` is `q` times `y`, and `n` is more than `q`, then `x` is less than `y`. */
  lemma Smaller(n: real, x: real, y: real, q: real)
    requires n >= 1.0 && y > 0.0 && n > q && n * x == q * y
    ensures x < y
  {
    assert n * y > q * y;
  }

  /** Processes that lose the shared store while others use it add all of their shares to the
      full rate: whatever the length of the window, `m` of them add `m` bursts and `m / n` of
      the sustained rate to the cap.  One is enough to exceed it, and all `n` reach the fleet
      bound. */
  lemma PartialOutageExceeds(limit: Limit, n: FleetSize, epoch: nat -> real, m: nat, d: real) returns (es: seq<Event>)
    requires 1 <= m <= n && limit.rate >= 0.0 && limit.burst >= 0.0 && d >= 0.0 && (d == 0.0 || limit.burst > 0.0)
    ensures FleetOrdered(es, m) && Lag(es, 0.0, d) == 0.0
    ensures FleetWithin(es, limit, n, epoch, 0.0, d) == limit.burst + Earned(limit, 0.0, d) + Shares(limit, n, m, d)
    ensures Shares(limit, n, m, d) >= 1.0 + Earned(limit, 0.0, d) * (m as real / n as real)
    ensures m == n ==>
              FleetWithin(es, limit, n, epoch, 0.0, d)
              == limit.burst + Max(n as real, limit.burst) + 2.0 * Earned(limit, 0.0, d)
  {
    hide FleetOrdered, FleetWithin, FleetAfter, Lag, LocalLimit, Earned, Times;
    var k, step := Slices(limit, d);
    es := Rounds(limit, n, epoch, m, step, k, d);
    var share := LocalLimit(limit, n);
    TimesSplit(k, Earned(limit, 0.0, step), Times(m, Earned(share, 0.0, step)));
    TimesSwap(k, m, Earned(share, 0.0, step));
    EarnedTimes(limit, k, step);
    EarnedTimes(share, k, step);
    TimesSplit(m, share.burst, Earned(share, 0.0, d));
    SharesAddUp(limit, n, m, d);
    SharesGrow(limit, n, m, d);
  }

  lemma TimesSplit(m: nat, x: real, y: real)
    ensures Times(m, x + y) == Times(m, x) + Times(m, y)
  {}

  lemma TimesSwap(k: nat, m: nat, x: real)
    ensures Times(k, Times(m, x)) == Times(m, Times(k, x))
  {
    var a, b := k as real, m as real;
    assert a * (b * x) == b * (a * x);
  }

  lemma EarnedTimes(limit: Limit, k: nat, d: real)
    ensures Times(k, Earned(limit, 0.0, d)) == Earned(limit, 0.0, Times(k, d))
  {
    var a := k as real;
    assert a * (limit.rate * d) == limit.rate * (a * d);
  }

  lemma SharesGrow(limit: Limit, n: FleetSize, m: nat, d: real)
    requires 1 <= m <= n && limit.rate >= 0.0 && d >= 0.0
    ensures Shares(limit, n, m, d) >= 1.0 + Earned(limit, 0.0, d) * (m as real / n as real)
  {
    var share, a, b := LocalLimit(limit, n), m as real, n as real;
    assert share.rate == limit.rate / b;
    Reorder(a, b, limit.rate, d);
    assert share.burst >= 1.0;
    assert a * share.burst >= a >= 1.0;
    Distribute(a, share.burst, Earned(share, 0.0, d));
  }

  lemma Reorder(a: real, b: real, r: real, d: real)
    requires b > 0.0
    ensures a * ((r / b) * d) == r * d * (a / b)
  {
    var x, y := r / b, a / b;
    assert x * b == r && y * b == a;
    assert a * (x * d) == (y * b) * (x * d) == (x * b) * d * y;
  }

  /** A total outage, for `w` processes, in which no call had waited longer than `patience`. */
  ghost predicate OutageRun(es: seq<Event>, w: nat, patience: real) {
    FleetOrdered(es, w) && Outage(es) && forall i :: 0 <= i < |es| && es[i].Fallback? ==> es[i].lag <= patience
  }

  /** Does every such run keep to the configured burst and rate, if the configured fleet size
      is `n`? */
  ghost predicate KeepsCap(limit: Limit, n: FleetSize, w: nat, epoch: nat -> real, patience: real) {
    forall es, s, t :: OutageRun(es, w, patience) && s <= t ==>
      FleetWithin(es, limit, n, epoch, s, t) <= limit.burst + Earned(limit, s, t)
  }

  /** The fleet keeps to the cap in every total outage exactly if it has no more processes
      than configured, no more than the burst has tokens, and no call waits for the shared
      store before it falls back (or nothing ever refills). */
  lemma CapHoldsIff(limit: Limit, n: FleetSize, w: nat, epoch: nat -> real, patience: real)
    requires w >= 1 && limit.rate >= 0.0 && limit.burst >= 0.0 && patience >= 0.0
    ensures KeepsCap(limit, n, w, epoch, patience)
            <==> w <= n && w as real <= limit.burst && (patience == 0.0 || limit.rate == 0.0)
  {
    hide FleetWithin, LateRefill, Earned, Shares;
    if w <= n && w as real <= limit.burst && (patience == 0.0 || limit.rate == 0.0) {
      forall es, s, t | OutageRun(es, w, patience) && s <= t
        ensures FleetWithin(es, limit, n, epoch, s, t) <= limit.burst + Earned(limit, s, t)
      {
        OutageBound(es, limit, n, w, epoch, s, t);
        SharesWithinCap(limit, n, w, t - s);
        EarnedMonotone(limit, 0.0, t - s, s, t);
        if patience == 0.0 { NoLag(es, limit, n, w, s, t); } else { NoRefill(es, limit, n, s, t); }
      }
    } else {
      Overshoot(limit, n, w, epoch, patience);
    }
  }

  lemma SharesWithinCap(limit: Limit, n: FleetSize, w: nat, d: real)
    requires 1 <= w <= n && w as real <= limit.burst && limit.rate >= 0.0 && d >= 0.0
    ensures Shares(limit, n, w, d) <= limit.burst + Earned(limit, 0.0, d)
  {
    hide Earned, Times;
    var share := LocalLimit(limit, n);
    SharesBurstIff(limit, n, w);
    TimesSplit(w, share.burst, Earned(share, 0.0, d));
    RefillAddsUp(limit, n, d);
    EarnedMonotone(share, 0.0, 0.0, 0.0, d);
    NothingEarned(share, 0.0);
    TimesMonotone(w, n, Earned(share, 0.0, d));
  }

  lemma RefillAddsUp(limit: Limit, n: FleetSize, d: real)
    ensures Times(n, Earned(LocalLimit(limit, n), 0.0, d)) == Earned(limit, 0.0, d)
    ensures limit.rate >= 0.0 ==> LocalLimit(limit, n).rate >= 0.0
  {
    var k, r := n as real, LocalLimit(limit, n).rate;
    assert k * r == limit.rate;
    assert k * (r * d) == (k * r) * d;
  }

  /** The shares of `w` processes stay within the burst exactly if the fleet size covers them
      and the burst has a token for each. */
  lemma SharesBurstIff(limit: Limit, n: FleetSize, w: nat)
    requires w >= 1 && limit.burst >= 0.0
    ensures Times(w, LocalLimit(limit, n).burst) <= limit.burst <==> w <= n && w as real <= limit.burst
  {
    var q := limit.burst / n as real;
    assert q * n as real == limit.burst;
    assert LocalLimit(limit, n).burst == Max(1.0, q);
    BurstIff(w as real, n as real, q);
  }

  lemma BurstIff(a: real, b: real, q: real)
    requires a >= 1.0 && b >= 1.0
    ensures a * Max(1.0, q) <= q * b <==> a <= b && a <= q * b
  {
    if q <= 1.0 {
      assert q * b <= b;
    } else {
      assert q * b > b;
      if a <= b { assert a * q <= b * q; } else { assert a * q > b * q; }
    }
  }

  lemma NoRefill(es: seq<Event>, limit: Limit, n: FleetSize, s: real, t: real)
    requires limit.rate == 0.0
    ensures LateRefill(es, limit, n, s, t) == 0.0
  {
    assert LocalLimit(limit, n).rate == 0.0;
  }

  lemma {:induction false} NoLag(es: seq<Event>, limit: Limit, n: FleetSize, w: nat, s: real, t: real)
    requires OutageRun(es, w, 0.0)
    ensures Lag(es, s, t) == 0.0 && LateRefill(es, limit, n, s, t) == 0.0
  {
    if es != [] {
      FleetOrderedPrefix(es, w);
      NoLag(es[..|es| - 1], limit, n, w, s, t);
    }
  }

  /** What an old reading lets an empty bucket earn a second time. */
  ghost function Again(limit: Limit, n: FleetSize, patience: real): real {
    Min(LocalLimit(limit, n).burst, LocalLimit(limit, n).rate * patience)
  }

  /** Calls of process 0 at time zero. */
  ghost predicate AtOnce(es: seq<Event>, patience: real) {
    forall i :: 0 <= i < |es| ==>
      es[i].Fallback? && es[i].proc == 0 && es[i].cost >= 0.0 && es[i].at == 0.0 && 0.0 <= es[i].lag <= patience
  }

  /** One old reading sets an empty bucket's clock back, and the next, a current one, earns
      that time once more; as often as such pairs occur. */
  lemma {:induction false} EarnsAgain(es: seq<Event>, limit: Limit, n: FleetSize, epoch: nat -> real,
                                      patience: real, k: nat)
    returns (more: seq<Event>)
    requires limit.rate > 0.0 && patience > 0.0
    requires Lookup(FleetAfter(es, limit, n, epoch).local, 0) == Some(Bucket(0.0, epoch(0)))
    ensures AtOnce(more, patience)
    ensures Lookup(FleetAfter(es + more, limit, n, epoch).local, 0) == Some(Bucket(0.0, epoch(0)))
    ensures FleetWithin(es + more, limit, n, epoch, 0.0, 0.0)
            == FleetWithin(es, limit, n, epoch, 0.0, 0.0) + Times(k, Again(limit, n, patience))
  {
    hide LocalLimit, FleetWithin, FleetAfter, Lag, Admits, AfterTake, Again, Times;
    TimesStep(k, Again(limit, n, patience));
    if k == 0 {
      more := [];
      assert es + more == es;
    } else {
      var before := EarnsAgain(es, limit, n, epoch, patience, k - 1);
      var stale, current := Fallback(0, 1.0, 0.0, patience), Fallback(0, Again(limit, n, patience), 0.0, 0.0);
      more := before + [stale, current];
      assert es + more == es + before + [stale] + [current];
      PairEarns(limit, n, patience, epoch(0));
      FallbackAppend(es + before, stale, limit, n, epoch, 0.0, 0.0);
      FallbackAppend(es + before + [stale], current, limit, n, epoch, 0.0, 0.0);
    }
  }

  lemma PairEarns(limit: Limit, n: FleetSize, patience: real, now: real)
    requires limit.rate > 0.0 && patience > 0.0
    ensures var share := LocalLimit(limit, n);
            && Again(limit, n, patience) > 0.0
            && !Admits(Some(Bucket(0.0, now)), share, 1.0, now - patience)
            && AfterTake(Some(Bucket(0.0, now)), share, 1.0, now - patience) == Bucket(0.0, now - patience)
            && Admits(Some(Bucket(0.0, now - patience)), share, Again(limit, n, patience), now)
            && AfterTake(Some(Bucket(0.0, now - patience)), share, Again(limit, n, patience), now) == Bucket(0.0, now)
  {
    var share := LocalLimit(limit, n);
    assert n as real * share.rate == limit.rate;
    assert share.rate > 0.0;
    assert share.rate * patience > 0.0;
  }

  lemma Enough(x: real, y: real) returns (k: nat)
    requires x > 0.0 && y >= 0.0
    ensures Times(k, x) > y
  {
    var q := y / x;
    assert q * x == y && q >= 0.0;
    k := q.Floor + 1;
    assert (k as real - q) * x > 0.0;
  }

  lemma Overshoot(limit: Limit, n: FleetSize, w: nat, epoch: nat -> real, patience: real)
    requires w >= 1 && limit.rate >= 0.0 && limit.burst >= 0.0 && patience >= 0.0
    requires w > n || w as real > limit.burst || (patience > 0.0 && limit.rate > 0.0)
    ensures !KeepsCap(limit, n, w, epoch, patience)
  {
    hide Times, LocalLimit, FleetWithin, FleetAfter, Lag, OutageRun, Available, Again;
    var share := LocalLimit(limit, n);
    SharesNonNegative(limit, n);
    SharesBurstIff(limit, n, w);
    FullAtFirst(limit, n, epoch, 0.0);
    SpendEmpties([], limit, n, epoch, w, share.burst, 0.0, 0.0, 0.0);
    var es := Spend(w, share.burst, 0.0);
    assert [] + es == es;
    if w <= n && w as real <= limit.burst {
      PairEarns(limit, n, patience, 0.0);
      var k := Enough(Again(limit, n, patience), limit.burst);
      var more := EarnsAgain(es, limit, n, epoch, patience, k);
      TimesNonNegative(w, share.burst);
      AtTimeZero(es + more, w, patience);
      es := es + more;
    } else {
      AtTimeZero(es, w, patience);
    }
    NothingEarned(limit, 0.0);
    assert FleetWithin(es, limit, n, epoch, 0.0, 0.0) > limit.burst + Earned(limit, 0.0, 0.0);
  }

  lemma AtTimeZero(es: seq<Event>, w: nat, patience: real)
    requires forall i :: 0 <= i < |es| ==> es[i].Fallback? && es[i].proc < w && es[i].cost >= 0.0
                                           && es[i].at == 0.0 && 0.0 <= es[i].lag <= patience
    ensures OutageRun(es, w, patience)
  {}
}
