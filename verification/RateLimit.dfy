/**
  The politeness limiter (core/ratelimit.py): the token bucket, its in-memory store, the
  Redis script with expiring keys, the waiting loop and the rates of scanner subprocesses.
  Floats are modelled as reals.
*/
module RateLimit {
  import opened Wrappers

  datatype Limit = Limit(rate: real, burst: real)

  datatype Bucket = Bucket(tokens: real, lastTs: real)

  function PerSecond(n: real): Limit { Limit(n, n) }

  function Min(a: real, b: real): real { if a <= b then a else b }

  function Max(a: real, b: real): real { if a <= b then b else a }

  // ----- one bucket -----------------------------------------------------------------

  /** The bucket after refilling up to `now`; the clock of the bucket moves to `now`. */
  function Refill(b: Bucket, now: real, limit: Limit): Bucket {
    var elapsed := Max(0.0, now - b.lastTs);
    Bucket(Min(limit.burst, b.tokens + elapsed * limit.rate), now)
  }

  /** A key never seen before holds a full bucket. */
  function Stored(b: Option<Bucket>, now: real, limit: Limit): Bucket {
    match b
    case Some(bucket) => bucket
    case None => Bucket(limit.burst, now)
  }

  function Available(b: Option<Bucket>, now: real, limit: Limit): real {
    Refill(Stored(b, now, limit), now, limit).tokens
  }

  predicate Admits(b: Option<Bucket>, limit: Limit, cost: real, now: real) {
    Available(b, now, limit) >= cost
  }

  function AfterTake(b: Option<Bucket>, limit: Limit, cost: real, now: real): Bucket {
    var tokens := Available(b, now, limit);
    Bucket(if Admits(b, limit, cost, now) then tokens - cost else tokens, now)
  }

  // ----- runs of one bucket ---------------------------------------------------------

  datatype Request = Request(cost: real, now: real)

  ghost predicate Ordered(rs: seq<Request>) {
    && (forall i, j :: 0 <= i <= j < |rs| ==> rs[i].now <= rs[j].now)
    && (forall i :: 0 <= i < |rs| ==> rs[i].cost >= 0.0)
  }

  /** The bucket left by the requests `rs`, none if there were no requests. */
  ghost function BucketAfter(rs: seq<Request>, limit: Limit): Option<Bucket> {
    if rs == [] then None
    else
      var n := |rs| - 1;
      Some(AfterTake(BucketAfter(rs[..n], limit), limit, rs[n].cost, rs[n].now))
  }

  /** Was request `i` of the run admitted? */
  ghost predicate Admitted(rs: seq<Request>, limit: Limit, i: nat)
    requires i < |rs|
  {
    Admits(BucketAfter(rs[..i], limit), limit, rs[i].cost, rs[i].now)
  }

  /** The cost admitted from request `i` on. */
  ghost function AdmittedFrom(rs: seq<Request>, limit: Limit, i: nat): real
    requires i <= |rs|
  {
    if i == |rs| then 0.0
    else
      var n := |rs| - 1;
      AdmittedFrom(rs[..n], limit, i) + if Admitted(rs, limit, n) then rs[n].cost else 0.0
  }

  /** The cost admitted at a time in the window from `s` to `t`. */
  ghost function AdmittedWithin(rs: seq<Request>, limit: Limit, s: real, t: real): real {
    if rs == [] then 0.0
    else
      var n := |rs| - 1;
      AdmittedWithin(rs[..n], limit, s, t)
      + if Admitted(rs, limit, n) && s <= rs[n].now <= t then rs[n].cost else 0.0
  }

  /** The tokens that flow in between two times. */
  ghost function Earned(limit: Limit, from: real, to: real): real {
    limit.rate * (to - from)
  }

  /** What the earlier admission `i` leaves for an op at `now`: a line of slope `rate`. */
  ghost function Headroom(rs: seq<Request>, limit: Limit, i: nat, now: real): real
    requires i < |rs|
  {
    limit.burst + Earned(limit, rs[i].now, now) - AdmittedFrom(rs, limit, i)
  }

  lemma EarnedSplit(limit: Limit, a: real, b: real, c: real)
    ensures Earned(limit, a, c) == Earned(limit, a, b) + Earned(limit, b, c)
  {
    Distribute(limit.rate, b - a, c - b);
  }

  lemma Distribute(r: real, a: real, b: real)
    ensures r * (a + b) == r * a + r * b
  {}

  lemma EarnedMonotone(limit: Limit, a: real, b: real, c: real, d: real)
    requires limit.rate >= 0.0 && b - a <= d - c
    ensures Earned(limit, a, b) <= Earned(limit, c, d)
  {}

  /** The cost that request `n`, the last one, was granted. */
  ghost function Spent(rs: seq<Request>, limit: Limit): real
    requires rs != []
  {
    if Admitted(rs, limit, |rs| - 1) then rs[|rs| - 1].cost else 0.0
  }

  lemma AvailableNow(b: Bucket, limit: Limit, now: real)
    requires b.lastTs <= now
    ensures Available(Some(b), now, limit) == Min(limit.burst, b.tokens + Earned(limit, b.lastTs, now))
  {}

  lemma AvailableStep(rs: seq<Request>, limit: Limit, now: real)
    requires rs != [] && rs[|rs| - 1].now <= now
    ensures var n := |rs| - 1;
            Available(BucketAfter(rs, limit), now, limit)
            == Min(limit.burst, Available(BucketAfter(rs[..n], limit), rs[n].now, limit)
                                - Spent(rs, limit) + Earned(limit, rs[n].now, now))
  {
    var n := |rs| - 1;
    var b := AfterTake(BucketAfter(rs[..n], limit), limit, rs[n].cost, rs[n].now);
    assert BucketAfter(rs, limit) == Some(b);
    AvailableNow(b, limit, now);
  }

  lemma AdmittedPrefix(rs: seq<Request>, limit: Limit, i: nat, n: nat)
    requires i < n <= |rs|
    ensures Admitted(rs[..n], limit, i) == Admitted(rs, limit, i)
  {
    assert rs[..n][..i] == rs[..i];
  }

  lemma HeadroomStep(rs: seq<Request>, limit: Limit, i: nat, now: real)
    requires i + 1 < |rs|
    ensures var n := |rs| - 1;
            Headroom(rs, limit, i, now)
            == Headroom(rs[..n], limit, i, rs[n].now) + Earned(limit, rs[n].now, now) - Spent(rs, limit)
  {
    var n := |rs| - 1;
    EarnedSplit(limit, rs[i].now, rs[n].now, now);
    assert rs[..n][i] == rs[i];
  }

  /** The tokens on hand at `now` are the least of the burst and of the lines that the
      earlier admissions draw. */
  lemma {:induction false} AvailableIsLeastHeadroom(rs: seq<Request>, limit: Limit, now: real)
    returns (w: int)
    requires Ordered(rs) && limit.rate >= 0.0
    requires forall i :: 0 <= i < |rs| ==> rs[i].now <= now
    ensures var a := Available(BucketAfter(rs, limit), now, limit);
            && a <= limit.burst
            && (forall i :: 0 <= i < |rs| && Admitted(rs, limit, i) ==> a <= Headroom(rs, limit, i, now))
            && -1 <= w < |rs|
            && (w == -1 ==> a == limit.burst)
            && (w >= 0 ==> Admitted(rs, limit, w) && a == Headroom(rs, limit, w, now))
  {
    if rs == [] {
      w := -1;
    } else {
      var n := |rs| - 1;
      var q := rs[n];
      w := AvailableIsLeastHeadroom(rs[..n], limit, q.now);
      var a := Available(BucketAfter(rs, limit), now, limit);
      AvailableStep(rs, limit, now);
      EarnedMonotone(limit, now, now, q.now, now);
      LastHeadroom(rs, limit, now);
      forall i | 0 <= i < |rs| && Admitted(rs, limit, i)
        ensures a <= Headroom(rs, limit, i, now)
      {
        if i < n {
          AdmittedPrefix(rs, limit, i, n);
          HeadroomStep(rs, limit, i, now);
        }
      }
      if a == limit.burst {
        w := -1;
      } else if w >= 0 {
        AdmittedPrefix(rs, limit, w, n);
        HeadroomStep(rs, limit, w, now);
      } else {
        w := n;
      }
    }
  }

  lemma LastHeadroom(rs: seq<Request>, limit: Limit, now: real)
    requires rs != []
    ensures var n := |rs| - 1;
            Headroom(rs, limit, n, now) == limit.burst + Earned(limit, rs[n].now, now) - Spent(rs, limit)
  {
    assert AdmittedFrom(rs[..|rs| - 1], limit, |rs| - 1) == 0.0;
  }

  /** The bucket is exact: an op is admitted if and only if it fits in the burst and, for
      every earlier admitted op, the cost admitted since then fits in burst plus refill. */
  lemma TakeIsExact(rs: seq<Request>, limit: Limit, q: Request)
    requires Ordered(rs + [q]) && limit.rate >= 0.0
    ensures Admits(BucketAfter(rs, limit), limit, q.cost, q.now)
            <==> && q.cost <= limit.burst
                 && forall i :: 0 <= i < |rs| && Admitted(rs, limit, i) ==>
                      AdmittedFrom(rs, limit, i) + q.cost <= limit.burst + Earned(limit, rs[i].now, q.now)
  {
    OrderedPrefix(rs, q);
    var w := AvailableIsLeastHeadroom(rs, limit, q.now);
  }

  lemma OrderedPrefix(rs: seq<Request>, q: Request)
    requires Ordered(rs + [q])
    ensures Ordered(rs) && q.cost >= 0.0
    ensures forall i :: 0 <= i < |rs| ==> rs[i].now <= q.now
  {
    assert (rs + [q])[|rs|] == q;
    assert forall i :: 0 <= i < |rs| ==> rs[i] == (rs + [q])[i];
  }

  /** All admissions of a window fall in the tail that starts at its first admission. */
  lemma {:induction false} WindowStart(rs: seq<Request>, limit: Limit, s: real, t: real) returns (w: int)
    requires Ordered(rs)
    ensures -1 <= w < |rs|
    ensures w == -1 ==> AdmittedWithin(rs, limit, s, t) == 0.0
    ensures w >= 0 ==> && Admitted(rs, limit, w) && s <= rs[w].now
                       && AdmittedWithin(rs, limit, s, t) <= AdmittedFrom(rs, limit, w)
  {
    if rs == [] {
      w := -1;
    } else {
      var n := |rs| - 1;
      w := WindowStart(rs[..n], limit, s, t);
      if w >= 0 {
        AdmittedPrefix(rs, limit, w, n);
      } else if Admitted(rs, limit, n) && s <= rs[n].now <= t {
        w := n;
        assert AdmittedFrom(rs, limit, n) == AdmittedFrom(rs[..n], limit, n) + rs[n].cost;
      }
    }
  }

  /** No window ever admits more than the burst plus the refill of its length. */
  lemma {:induction false} WindowBound(rs: seq<Request>, limit: Limit, s: real, t: real)
    requires Ordered(rs) && limit.rate >= 0.0 && limit.burst >= 0.0 && s <= t
    ensures AdmittedWithin(rs, limit, s, t) <= limit.burst + Earned(limit, s, t)
  {
    EarnedMonotone(limit, s, s, s, t);
    if rs != [] {
      var n := |rs| - 1;
      WindowBound(rs[..n], limit, s, t);
      if Admitted(rs, limit, n) && s <= rs[n].now <= t {
        var w := WindowStart(rs[..n], limit, s, t);
        assert rs[..n] + [rs[n]] == rs;
        TakeIsExact(rs[..n], limit, rs[n]);
        if w >= 0 {
          EarnedMonotone(limit, rs[w].now, rs[n].now, s, t);
        }
      }
    }
  }

  // ----- the in-memory store --------------------------------------------------------

  function Lookup<K, V>(m: map<K, V>, k: K): Option<V> {
    if k in m then Some(m[k]) else None
  }

  /** The process-local store. */
  class InMemoryBucketStore {
    var buckets: map<string, Bucket>

    constructor ()
      ensures buckets == map[]
    {
      buckets := map[];
    }

    method Take(key: string, limit: Limit, cost: real, now: real) returns (ok: bool)
      modifies this
      ensures ok == Admits(Lookup(old(buckets), key), limit, cost, now)
      ensures buckets == old(buckets)[key := AfterTake(Lookup(old(buckets), key), limit, cost, now)]
    {
      var b := if key in buckets then buckets[key] else Bucket(limit.burst, now);
      b := Refill(b, now, limit);
      if b.tokens >= cost {
        b := Bucket(b.tokens - cost, b.lastTs);
        buckets := buckets[key := b];
        return true;
      }
      buckets := buckets[key := b];
      return false;
    }
  }

  // Runs of a whole store, over any type of key.

  datatype Call<K> = Call(key: K, req: Request)

  ghost function StoreAfter<K>(cs: seq<Call<K>>, limit: Limit): map<K, Bucket> {
    if cs == [] then map[]
    else
      var n := |cs| - 1;
      var m := StoreAfter(cs[..n], limit);
      m[cs[n].key := AfterTake(Lookup(m, cs[n].key), limit, cs[n].req.cost, cs[n].req.now)]
  }

  ghost predicate StoreAdmits<K>(cs: seq<Call<K>>, limit: Limit, i: nat)
    requires i < |cs|
  {
    Admits(Lookup(StoreAfter(cs[..i], limit), cs[i].key), limit, cs[i].req.cost, cs[i].req.now)
  }

  /** The requests made under one key. */
  ghost function Requests<K>(cs: seq<Call<K>>, k: K): seq<Request> {
    if cs == [] then []
    else
      var n := |cs| - 1;
      Requests(cs[..n], k) + if cs[n].key == k then [cs[n].req] else []
  }

  /** Keys do not interfere: each sees the bucket that its own requests alone produce. */
  lemma {:induction false} KeyIsolation<K>(cs: seq<Call<K>>, limit: Limit, k: K)
    ensures Lookup(StoreAfter(cs, limit), k) == BucketAfter(Requests(cs, k), limit)
  {
    if cs != [] {
      var n := |cs| - 1;
      KeyIsolation(cs[..n], limit, k);
      var rs := Requests(cs[..n], k);
      if cs[n].key == k {
        assert (rs + [cs[n].req])[..|rs|] == rs;
      } else {
        assert rs + [] == rs;
      }
    }
  }

  /** Hence an op is admitted under a key if and only if it is by that key's own history. */
  lemma StoreAdmitsByKey<K>(cs: seq<Call<K>>, limit: Limit, i: nat)
    requires i < |cs|
    ensures StoreAdmits(cs, limit, i)
            == Admits(BucketAfter(Requests(cs[..i], cs[i].key), limit), limit, cs[i].req.cost, cs[i].req.now)
  {
    KeyIsolation(cs[..i], limit, cs[i].key);
  }

  // ----- the Redis script -----------------------------------------------------------

  /** A Redis string key with the time at which it expires. */
  datatype Entry = Entry(value: real, expireAt: real)

  datatype RedisKeys = RedisKeys(tokens: Option<Entry>, ts: Option<Entry>)

  const TTL := 3600.0

  function Get(e: Option<Entry>, now: real): Option<real> {
    if e.Some? && now < e.value.expireAt then Some(e.value.value) else None
  }

  function ScriptAvailable(k: RedisKeys, limit: Limit, now: real): real {
    var tokens := if Get(k.tokens, now).Some? then Get(k.tokens, now).value else limit.burst;
    var last := if Get(k.ts, now).Some? then Get(k.ts, now).value else now;
    var elapsed := if now - last < 0.0 then 0.0 else now - last;
    Min(limit.burst, tokens + elapsed * limit.rate)
  }

  predicate ScriptAdmits(k: RedisKeys, limit: Limit, cost: real, now: real) {
    ScriptAvailable(k, limit, now) >= cost
  }

  function ScriptAfter(k: RedisKeys, limit: Limit, cost: real, now: real): RedisKeys {
    var tokens := ScriptAvailable(k, limit, now);
    var left := if ScriptAdmits(k, limit, cost, now) then tokens - cost else tokens;
    RedisKeys(Some(Entry(left, now + TTL)), Some(Entry(now, now + TTL)))
  }

  /** The two keys of every target, as the script leaves them; `clock` is Redis's own. */
  class RedisBucketStore {
    var keys: map<string, RedisKeys>

    method Take(key: string, limit: Limit, cost: real, clock: real) returns (ok: bool)
      modifies this
      ensures var before := if key in old(keys) then old(keys)[key] else RedisKeys(None, None);
              && ok == ScriptAdmits(before, limit, cost, clock)
              && keys == old(keys)[key := ScriptAfter(before, limit, cost, clock)]
    {
      var stored := if key in keys then keys[key] else RedisKeys(None, None);
      var tokens, last := Get(stored.tokens, clock), Get(stored.ts, clock);
      if tokens.None? { tokens := Some(limit.burst); }
      if last.None? { last := Some(clock); }
      var elapsed := clock - last.value;
      if elapsed < 0.0 { elapsed := 0.0; }
      var left := Min(limit.burst, tokens.value + elapsed * limit.rate);
      ok := false;
      if left >= cost {
        left := left - cost;
        ok := true;
      }
      keys := keys[key := RedisKeys(Some(Entry(left, clock + TTL)), Some(Entry(clock, clock + TTL)))];
    }
  }

  ghost function RedisAfter(rs: seq<Request>, limit: Limit): RedisKeys {
    if rs == [] then RedisKeys(None, None)
    else
      var n := |rs| - 1;
      ScriptAfter(RedisAfter(rs[..n], limit), limit, rs[n].cost, rs[n].now)
  }

  ghost predicate RedisAdmitted(rs: seq<Request>, limit: Limit, i: nat)
    requires i < |rs|
  {
    ScriptAdmits(RedisAfter(rs[..i], limit), limit, rs[i].cost, rs[i].now)
  }

  /** What the script must have stored when the never-expiring store holds `b`. */
  ghost predicate Agrees(k: RedisKeys, b: Option<Bucket>) {
    match b
    case None => k == RedisKeys(None, None)
    case Some(b) => && b.tokens >= 0.0
                    && k == RedisKeys(Some(Entry(b.tokens, b.lastTs + TTL)), Some(Entry(b.lastTs, b.lastTs + TTL)))
  }

  lemma ScriptAvailableAgrees(k: RedisKeys, b: Option<Bucket>, limit: Limit, now: real)
    requires Agrees(k, b) && limit.rate >= 0.0 && 0.0 <= limit.burst <= TTL * limit.rate
    requires b.Some? ==> b.value.lastTs <= now
    ensures 0.0 <= ScriptAvailable(k, limit, now) == Available(b, now, limit)
  {
    if b.Some? {
      AvailableNow(b.value, limit, now);
      EarnedMonotone(limit, now, now, b.value.lastTs, now);
      if now - b.value.lastTs >= TTL {
        EarnedMonotone(limit, 0.0, TTL, b.value.lastTs, now);
      }
    }
  }

  lemma {:induction false} RedisAgrees(rs: seq<Request>, limit: Limit)
    requires Ordered(rs) && limit.rate >= 0.0 && 0.0 <= limit.burst <= TTL * limit.rate
    ensures Agrees(RedisAfter(rs, limit), BucketAfter(rs, limit))
  {
    if rs != [] {
      var n := |rs| - 1;
      RedisAgrees(rs[..n], limit);
      ScriptAvailableAgrees(RedisAfter(rs[..n], limit), BucketAfter(rs[..n], limit), limit, rs[n].now);
    }
  }

  lemma RedisAdmitsTheSame(rs: seq<Request>, limit: Limit, i: nat)
    requires i < |rs| && Ordered(rs) && limit.rate >= 0.0 && 0.0 <= limit.burst <= TTL * limit.rate
    ensures RedisAdmitted(rs, limit, i) == Admitted(rs, limit, i)
  {
    RedisAgrees(rs[..i], limit);
    ScriptAvailableAgrees(RedisAfter(rs[..i], limit), BucketAfter(rs[..i], limit), limit, rs[i].now);
  }

  ghost predicate SameDecisions(rs: seq<Request>, limit: Limit) {
    forall i :: 0 <= i < |rs| ==> RedisAdmitted(rs, limit, i) == Admitted(rs, limit, i)
  }

  /** Expiring keys are harmless exactly when an expired bucket would have been full anyway. */
  lemma ExpiryIsInvisibleIff(limit: Limit)
    requires limit.rate >= 0.0 && limit.burst >= 0.0
    ensures (forall rs :: Ordered(rs) ==> SameDecisions(rs, limit)) <==> limit.burst <= 3600.0 * limit.rate
  {
    if limit.burst <= TTL * limit.rate {
      forall rs, i | Ordered(rs) && 0 <= i < |rs|
        ensures RedisAdmitted(rs, limit, i) == Admitted(rs, limit, i)
      {
        RedisAdmitsTheSame(rs, limit, i);
      }
    } else {
      var drain, again := Request(limit.burst, 0.0), Request(limit.burst, TTL);
      var rs := [drain, again];
      assert rs[..0] == [] && rs[..1] == [drain] && [drain][..0] == [];
      AvailableNow(Bucket(0.0, 0.0), limit, TTL);
      assert BucketAfter([drain], limit) == Some(Bucket(0.0, 0.0));
      assert !Admitted(rs, limit, 1) && RedisAdmitted(rs, limit, 1);
      assert Ordered(rs);
    }
  }

  /** The limits the application builds always meet that condition. */
  lemma PerSecondNeverExpires(n: real)
    requires n >= 0.0
    ensures forall rs :: Ordered(rs) ==> SameDecisions(rs, PerSecond(n))
  {
    ExpiryIsInvisibleIff(PerSecond(n));
  }

  /** `n` operations a second: a fresh target takes up to `n` at once, and one drained of its
      tokens takes, `d` seconds later, what has flowed in at that rate, up to `n` again. */
  lemma PerSecondIs(n: real, cost: real, start: real, d: real)
    requires n >= 0.0 && d >= 0.0
    ensures Admits(None, PerSecond(n), cost, start) <==> cost <= n
    ensures Admits(Some(Bucket(0.0, start)), PerSecond(n), cost, start + d) <==> cost <= n && cost <= n * d
  {
    AvailableNow(Bucket(0.0, start), PerSecond(n), start + d);
    assert Earned(PerSecond(n), start, start + d) == n * d;
  }

  // ----- waiting --------------------------------------------------------------------

  ghost function Times(m: nat, x: real): real { m as real * x }

  lemma TimesStep(m: nat, x: real)
    ensures Times(m, x) == if m == 0 then 0.0 else Times(m - 1, x) + x
  {}

  /** The length of one sleep: one token's worth of time, between a millisecond and a second. */
  function WaitStep(limit: Limit, cost: real): (step: real)
    ensures 0.001 <= step <= 1.0
  {
    Min(Max(cost / Max(limit.rate, 0.000000001), 0.001), 1.0)
  }

  /** A sleep earns exactly one op's cost, unless that takes less than a millisecond or
      more than a second. */
  lemma SleepEarnsTheCostIff(limit: Limit, cost: real)
    requires limit.rate >= 0.000000001
    ensures Earned(limit, 0.0, WaitStep(limit, cost)) == cost <==> 0.001 * limit.rate <= cost <= limit.rate
    ensures cost <= 0.001 * limit.rate ==> WaitStep(limit, cost) == 0.001
    ensures cost >= limit.rate ==> WaitStep(limit, cost) == 1.0
  {
    var q, step := cost / limit.rate, WaitStep(limit, cost);
    assert q * limit.rate == cost;
    assert limit.rate * (step - q) == limit.rate * step - cost;
    assert limit.rate * (q - 0.001) == cost - 0.001 * limit.rate;
    assert limit.rate * (1.0 - q) == limit.rate - cost;
    Sign(limit.rate, step - q);
    Sign(limit.rate, q - 0.001);
    Sign(limit.rate, 1.0 - q);
  }

  lemma Sign(r: real, x: real)
    requires r > 0.0
    ensures (r * x == 0.0 <==> x == 0.0) && (r * x >= 0.0 <==> x >= 0.0)
  {
    if x > 0.0 { assert r * x > 0.0; }
    if x < 0.0 { assert r * x < 0.0; }
  }

  /** Waits until attempt number `attempts - 1` is allowed or the patience is spent;
      `allow(k)` is the store's answer to attempt `k`.  `granted` tells a grant from
      proceeding without one. */
  method Acquire(limit: Limit, cost: real, maxWait: real, allow: nat -> bool)
    returns (waited: real, attempts: nat, granted: bool)
    ensures attempts >= 1 && waited == Times(attempts - 1, WaitStep(limit, cost))
    ensures granted == allow(attempts - 1)
    ensures forall k :: 0 <= k < attempts - 1 ==> !allow(k)
    ensures !granted ==> waited >= maxWait
    ensures waited < Max(maxWait, 0.0) + WaitStep(limit, cost)
  {
    waited, attempts := 0.0, 0;
    var step := WaitStep(limit, cost);
    while true
      invariant waited == Times(attempts, step)
      invariant forall k :: 0 <= k < attempts ==> !allow(k)
      invariant waited < Max(maxWait, 0.0) + step
      decreases WaitsLeft(waited, maxWait, step)
    {
      attempts := attempts + 1;
      if allow(attempts - 1) {
        return waited, attempts, true;
      }
      if waited >= maxWait {
        return waited, attempts, false;
      }
      OneWaitLess(waited, maxWait, step);
      TimesStep(attempts, step);
      waited := waited + step;
    }
  }

  ghost function WaitsLeft(waited: real, maxWait: real, step: real): nat
    requires step > 0.0
  {
    if waited >= maxWait then 0 else ((maxWait - waited) / step).Floor + 1
  }

  lemma OneWaitLess(waited: real, maxWait: real, step: real)
    requires step > 0.0 && waited < maxWait
    ensures WaitsLeft(waited + step, maxWait, step) < WaitsLeft(waited, maxWait, step)
  {
    var q := (maxWait - waited) / step;
    assert q * step == maxWait - waited;
    Distribute(step, q, -1.0);
    Quotient(maxWait - (waited + step), step, q - 1.0);
    Quotient(0.0, step, 0.0);
  }

  lemma Quotient(a: real, n: real, q: real)
    requires n > 0.0 && a == n * q
    ensures a / n == q
  {
    var p := a / n;
    assert n * (p - q) == n * p - n * q == 0.0;
  }

  /** The first `k` attempts to take `cost`, made at the times `clock`. */
  ghost function Attempts(cost: real, clock: nat -> real, k: nat): (rs: seq<Request>)
    ensures |rs| == k && forall j :: 0 <= j < k ==> rs[j] == Request(cost, clock(j))
  {
    seq(k, j requires 0 <= j < k => Request(cost, clock(j)))
  }

  /** Attempts of one caller that has the target to itself, each at least `step` after the last. */
  ghost predicate Alone(rs: seq<Request>, cost: real, clock: nat -> real, step: real) {
    && Ordered(rs) && cost >= 0.0 && step >= 0.0
    && (forall i :: 0 <= i < |rs| ==> rs[i].now <= clock(0))
    && forall j: nat :: clock(j) + step <= clock(j + 1)
  }

  lemma {:induction false} TokensNonNegative(rs: seq<Request>, limit: Limit)
    requires Ordered(rs) && limit.rate >= 0.0 && limit.burst >= 0.0
    ensures BucketAfter(rs, limit).Some? ==> BucketAfter(rs, limit).value.tokens >= 0.0
  {
    if rs != [] {
      var n := |rs| - 1;
      TokensNonNegative(rs[..n], limit);
      var b := BucketAfter(rs[..n], limit);
      var q := rs[n];
      if b.Some? {
        LastTs(rs[..n], limit);
        AvailableNow(b.value, limit, q.now);
        EarnedMonotone(limit, q.now, q.now, b.value.lastTs, q.now);
      }
    }
  }

  lemma LastTs(rs: seq<Request>, limit: Limit)
    requires rs != []
    ensures BucketAfter(rs, limit).value.lastTs == rs[|rs| - 1].now
  {}

  lemma AvailableNonNegative(rs: seq<Request>, limit: Limit, now: real)
    requires Ordered(rs) && limit.rate >= 0.0 && limit.burst >= 0.0
    requires forall i :: 0 <= i < |rs| ==> rs[i].now <= now
    ensures Available(BucketAfter(rs, limit), now, limit) >= 0.0
  {
    TokensNonNegative(rs, limit);
    if rs != [] {
      LastTs(rs, limit);
      var b := BucketAfter(rs, limit).value;
      AvailableNow(b, limit, now);
      EarnedMonotone(limit, now, now, b.lastTs, now);
    }
  }

  /** While every attempt so far was refused, the bucket has filled by `k` steps of refill. */
  lemma {:induction false} RefusalsLeaveTheRefill(rs: seq<Request>, limit: Limit, cost: real, clock: nat -> real,
                                                  step: real, k: nat)
    requires Alone(rs, cost, clock, step) && limit.rate >= 0.0 && limit.burst >= 0.0
    requires forall j :: |rs| <= j < |rs| + k ==> !Admitted(rs + Attempts(cost, clock, k), limit, j)
    ensures Available(BucketAfter(rs + Attempts(cost, clock, k), limit), clock(k), limit)
            >= Min(limit.burst, Earned(limit, 0.0, Times(k, step)))
  {
    hide Available, BucketAfter, Admitted, Earned, Times;
    var all := rs + Attempts(cost, clock, k);
    if k == 0 {
      assert all == rs;
      AvailableNonNegative(rs, limit, clock(0));
      NothingEarned(limit, step);
    } else {
      var shorter := rs + Attempts(cost, clock, k - 1);
      assert all[..|all| - 1] == shorter;
      forall j | |rs| <= j < |rs| + k - 1
        ensures !Admitted(shorter, limit, j)
      {
        AdmittedPrefix(all, limit, j, |all| - 1);
      }
      RefusalsLeaveTheRefill(rs, limit, cost, clock, step, k - 1);
      assert all[|all| - 1] == Request(cost, clock(k - 1));
      assert clock(k - 1) + step <= clock(k - 1 + 1);
      AvailableStep(all, limit, clock(k));
      EarnedMonotone(limit, 0.0, step, clock(k - 1), clock(k));
      EarnedMonotone(limit, 0.0, 0.0, 0.0, step);
      NothingEarned(limit, step);
      StepsAddUp(limit, k, step);
    }
  }

  lemma NothingEarned(limit: Limit, step: real)
    ensures Earned(limit, 0.0, 0.0) == 0.0 == Earned(limit, 0.0, Times(0, step))
  {}

  lemma StepsAddUp(limit: Limit, k: nat, step: real)
    requires k > 0
    ensures Earned(limit, 0.0, Times(k, step)) == Earned(limit, 0.0, Times(k - 1, step)) + Earned(limit, 0.0, step)
  {
    TimesStep(k, step);
    Distribute(limit.rate, Times(k - 1, step), step);
  }

  /** A caller that has the target to itself is always granted its op, never told to go
      ahead without, if the op fits in the burst and the patience covers its refill. */
  lemma AloneIsGranted(rs: seq<Request>, limit: Limit, cost: real, clock: nat -> real, maxWait: real, attempts: nat)
    requires limit.rate >= 0.0 && limit.burst >= cost && cost <= Earned(limit, 0.0, maxWait)
    requires Alone(rs, cost, clock, WaitStep(limit, cost))
    requires attempts >= 1 && Times(attempts - 1, WaitStep(limit, cost)) >= maxWait
    ensures exists j :: |rs| <= j < |rs| + attempts && Admitted(rs + Attempts(cost, clock, attempts), limit, j)
  {
    hide Available, BucketAfter, Earned, Times;
    var all, k := rs + Attempts(cost, clock, attempts), attempts - 1;
    if forall j :: |rs| <= j < |all| ==> !Admitted(all, limit, j) {
      var shorter := rs + Attempts(cost, clock, k);
      assert all[..|all| - 1] == shorter;
      forall j | |rs| <= j < |rs| + k
        ensures !Admitted(shorter, limit, j)
      {
        AdmittedPrefix(all, limit, j, |all| - 1);
      }
      EarnedMonotone(limit, 0.0, maxWait, 0.0, Times(k, WaitStep(limit, cost)));
      assert !Admitted(all, limit, |rs| + k);
      RefusalsLeaveTheRefill(rs, limit, cost, clock, WaitStep(limit, cost), k);
    }
  }

  /** The bucket's own answers to the attempts of one caller, after the requests `rs`. */
  ghost predicate Answers(allow: nat -> bool, rs: seq<Request>, limit: Limit, cost: real, clock: nat -> real) {
    forall k: nat :: allow(k) == Admitted(rs + Attempts(cost, clock, k + 1), limit, |rs| + k)
  }

  lemma SomeAnswerIsYes(allow: nat -> bool, rs: seq<Request>, limit: Limit, cost: real, clock: nat -> real,
                        maxWait: real, attempts: nat)
    requires Answers(allow, rs, limit, cost, clock)
    requires limit.rate >= 0.0 && limit.burst >= cost && cost <= Earned(limit, 0.0, maxWait)
    requires Alone(rs, cost, clock, WaitStep(limit, cost))
    requires attempts >= 1 && Times(attempts - 1, WaitStep(limit, cost)) >= maxWait
    ensures exists k: nat :: k < attempts && allow(k)
  {
    hide Admitted, Earned, Times, Alone;
    AloneIsGranted(rs, limit, cost, clock, maxWait, attempts);
    var all := rs + Attempts(cost, clock, attempts);
    var j :| |rs| <= j < |rs| + attempts && Admitted(all, limit, j);
    var k: nat := j - |rs|;
    AdmittedPrefix(all, limit, j, j + 1);
    assert all[..j + 1] == rs + Attempts(cost, clock, k + 1);
    assert allow(k);
  }

  /** Waiting on a bucket that one has to oneself ends with a grant. */
  method AcquireAlone(rs: seq<Request>, limit: Limit, cost: real, maxWait: real, clock: nat -> real,
                      allow: nat -> bool)
    returns (waited: real, attempts: nat, granted: bool)
    requires Answers(allow, rs, limit, cost, clock) && Alone(rs, cost, clock, WaitStep(limit, cost))
    requires limit.rate >= 0.0 && limit.burst >= cost && cost <= Earned(limit, 0.0, maxWait)
    ensures granted && attempts >= 1 && Admitted(rs + Attempts(cost, clock, attempts), limit, |rs| + attempts - 1)
    ensures forall k :: 0 <= k < attempts - 1 ==> !allow(k)
    ensures waited == Times(attempts - 1, WaitStep(limit, cost)) < Max(maxWait, 0.0) + WaitStep(limit, cost)
  {
    hide Admitted, Earned, Times, Alone;
    waited, attempts, granted := Acquire(limit, cost, maxWait, allow);
    if waited >= maxWait {
      SomeAnswerIsYes(allow, rs, limit, cost, clock, maxWait, attempts);
    }
  }

  // ----- scanner subprocesses -------------------------------------------------------

  /** Conversion of a float to an int truncates towards zero. */
  function Truncate(x: real): int {
    if x >= 0.0 then x.Floor else -((-x).Floor)
  }

  function MaxInt(a: int, b: int): int { if a <= b then b else a }

  function MinInt(a: int, b: int): int { if a <= b then a else b }

  function SubprocessRateFor(hostCount: int, perTargetCap: real, ceiling: int): int {
    var n := MaxInt(1, hostCount);
    MaxInt(1, MinInt(ceiling, Truncate(perTargetCap * n as real)))
  }

  /** The rate each target sees stays within the cap exactly when the hosts together are
      due at least one packet per second: the floor of one packet is what can break it.  The
      rate is then the largest that respects both the cap and the ceiling. */
  lemma WithinCapIff(hostCount: int, perTargetCap: real, ceiling: int)
    ensures var n := MaxInt(1, hostCount) as real;
            var rate := SubprocessRateFor(hostCount, perTargetCap, ceiling);
            && (rate as real / n <= perTargetCap <==> perTargetCap * n >= 1.0)
            && (perTargetCap * n >= 1.0 && ceiling >= 1 ==>
                  rate <= ceiling && (rate == ceiling || perTargetCap * n < (rate + 1) as real))
            && (perTargetCap * n < 1.0 || ceiling < 1 ==> rate == 1)
  {
    var n := MaxInt(1, hostCount) as real;
    DivideBothSides(SubprocessRateFor(hostCount, perTargetCap, ceiling) as real, n, perTargetCap);
  }

  lemma DivideBothSides(a: real, n: real, c: real)
    requires n >= 1.0
    ensures a / n <= c <==> a <= c * n
  {
    var q := a / n;
    assert q * n == a;
    if q <= c {
      assert q * n <= c * n;
    } else {
      assert q * n > c * n;
    }
  }
}
