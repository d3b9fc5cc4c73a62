/**
  Adaptive bisection of parameter names (pipelines/param_discovery.py): a batch that
  moves nothing clears all its names with one request, a batch that moves the response is
  split in halves.
*/
module ParamDiscovery {
  import opened Powers
  import opened Wrappers

  datatype Response = Response(status: int, length: nat)

  /** What a probe with a batch of names came to. */
  datatype Reply = Failed | Unmoved | Moved

  const STABLE_DRIFT_BYTES := 4096

  /** The page answers the control like the bare request: same status, and a length within
      four kilobytes or two percent of the longer; so neither is more than four kilobytes, or
      more than a forty-ninth, longer than the other. */
  predicate Stable(baseline: Response, control: Response): (stable: bool)
    ensures stable <==> && control.status == baseline.status
                        && var (a, b) := (baseline.length, control.length);
                           (a <= b + 4096 && b <= a + 4096) || (49 * a <= 50 * b && 49 * b <= 50 * a)
  {
    var noise := if control.length >= baseline.length
                 then control.length - baseline.length else baseline.length - control.length;
    var larger := if control.length >= baseline.length then control.length else baseline.length;
    control.status == baseline.status && (noise <= STABLE_DRIFT_BYTES || 100 * noise <= 2 * larger)
  }

  // ----- sequences of names ---------------------------------------------------------

  function Flatten(queue: seq<seq<string>>): seq<string> {
    if queue == [] then [] else Flatten(queue[..|queue| - 1]) + queue[|queue| - 1]
  }

  ghost function Filter(s: seq<string>, accepted: string -> bool): seq<string> {
    if s == [] then []
    else Filter(s[..|s| - 1], accepted) + if accepted(s[|s| - 1]) then [s[|s| - 1]] else []
  }

  ghost function Reverse(s: seq<string>): seq<string> {
    if s == [] then [] else [s[|s| - 1]] + Reverse(s[..|s| - 1])
  }

  /** The accepted names of `s`, last first. */
  ghost function Backwards(s: seq<string>, accepted: string -> bool): seq<string> {
    Reverse(Filter(s, accepted))
  }

  lemma {:induction false} FilterConcat(a: seq<string>, b: seq<string>, accepted: string -> bool)
    ensures Filter(a + b, accepted) == Filter(a, accepted) + Filter(b, accepted)
  {
    if b == [] {
      assert a + b == a;
    } else {
      var n := |b| - 1;
      FilterConcat(a, b[..n], accepted);
      assert (a + b)[..|a + b| - 1] == a + b[..n];
    }
  }

  lemma {:induction false} ReverseConcat(a: seq<string>, b: seq<string>)
    ensures Reverse(a + b) == Reverse(b) + Reverse(a)
  {
    if b == [] {
      assert a + b == a;
    } else {
      var n := |b| - 1;
      ReverseConcat(a, b[..n]);
      assert (a + b)[..|a + b| - 1] == a + b[..n];
      assert Reverse(a + b) == [b[n]] + Reverse(a + b[..n]);
    }
  }

  lemma BackwardsConcat(a: seq<string>, b: seq<string>, accepted: string -> bool)
    ensures Backwards(a + b, accepted) == Backwards(b, accepted) + Backwards(a, accepted)
  {
    FilterConcat(a, b, accepted);
    ReverseConcat(Filter(a, accepted), Filter(b, accepted));
  }

  ghost predicate AnyAccepted(s: seq<string>, accepted: string -> bool) {
    exists n :: n in s && accepted(n)
  }

  lemma {:induction false} FilterEmptyIff(s: seq<string>, accepted: string -> bool)
    ensures Filter(s, accepted) != [] <==> AnyAccepted(s, accepted)
    ensures forall n :: n in Filter(s, accepted) <==> n in s && accepted(n)
  {
    if s != [] { FilterEmptyIff(s[..|s| - 1], accepted); }
  }

  lemma {:induction false} ReverseKeepsMembers(s: seq<string>)
    ensures |Reverse(s)| == |s| && forall n :: n in Reverse(s) <==> n in s
  {
    if s != [] { ReverseKeepsMembers(s[..|s| - 1]); }
  }

  /** The backlog of a batch that nothing, or only its single name, can move. */
  lemma BackwardsOfBatch(b: seq<string>, accepted: string -> bool)
    ensures !AnyAccepted(b, accepted) ==> Backwards(b, accepted) == []
    ensures |b| == 1 && AnyAccepted(b, accepted) ==> Backwards(b, accepted) == b
  {
    FilterEmptyIff(b, accepted);
    if |b| == 1 && AnyAccepted(b, accepted) {
      BackwardsOfOne(b[0], accepted);
      assert b == [b[0]];
    }
  }

  lemma BackwardsOfOne(n: string, accepted: string -> bool)
    requires accepted(n)
    ensures Backwards([n], accepted) == [n]
  {
    assert [n][..0] == [];
    assert Filter([n], accepted) == [n] && Reverse([n]) == [n];
  }

  // ----- what a run costs -----------------------------------------------------------

  /** The requests spent on one batch when a batch moves exactly if it holds an accepted name. */
  ghost function Cost(b: seq<string>, accepted: string -> bool): nat
    decreases |b|
  {
    if !AnyAccepted(b, accepted) || |b| <= 1 then 1
    else 1 + Cost(b[..|b| / 2], accepted) + Cost(b[|b| / 2..], accepted)
  }

  ghost function TotalCost(queue: seq<seq<string>>, accepted: string -> bool): nat {
    if queue == [] then 0 else TotalCost(queue[..|queue| - 1], accepted) + Cost(queue[|queue| - 1], accepted)
  }

  /** No replies whatsoever make a batch of size m cost more than 2m - 1 requests. */
  ghost function Worst(queue: seq<seq<string>>): nat {
    if queue == [] then 0
    else Worst(queue[..|queue| - 1]) + if queue[|queue| - 1] == [] then 1 else 2 * |queue[|queue| - 1]| - 1
  }

  ghost predicate NonEmpty(queue: seq<seq<string>>) {
    forall i :: 0 <= i < |queue| ==> |queue[i]| > 0
  }

  function CeilLog2(m: nat): nat {
    if m <= 1 then 0 else 1 + CeilLog2((m + 1) / 2)
  }

  lemma {:induction false} CeilLog2IsLogarithm(m: nat)
    ensures m <= Pow2(CeilLog2(m)) && (m > 1 ==> Pow2(CeilLog2(m) - 1) < m)
  {
    if m > 1 {
      CeilLog2IsLogarithm((m + 1) / 2);
      if m > 2 { assert Pow2(CeilLog2(m) - 1) == 2 * Pow2(CeilLog2(m) - 2); }
    }
  }

  lemma {:induction false} CeilLog2Monotone(a: nat, b: nat)
    requires a <= b
    ensures CeilLog2(a) <= CeilLog2(b)
  {
    if a > 1 { CeilLog2Monotone((a + 1) / 2, (b + 1) / 2); }
  }

  lemma CostUnfolds(b: seq<string>, accepted: string -> bool)
    ensures !AnyAccepted(b, accepted) || |b| <= 1 ==> Cost(b, accepted) == 1
    ensures AnyAccepted(b, accepted) && |b| > 1 ==>
              && Cost(b, accepted) == 1 + Cost(b[..|b| / 2], accepted) + Cost(b[|b| / 2..], accepted)
              && CeilLog2(|b|) == 1 + CeilLog2((|b| + 1) / 2)
  {}

  /** A batch of size m with k accepted names costs at most 1 + 2k * ceil(log2 m) requests. */
  lemma {:induction false} CostIsLogarithmic(b: seq<string>, accepted: string -> bool)
    ensures Cost(b, accepted) <= 1 + 2 * |Filter(b, accepted)| * CeilLog2(|b|)
    decreases |b|
  {
    CostUnfolds(b, accepted);
    FilterEmptyIff(b, accepted);
    hide Filter, Cost, CeilLog2, AnyAccepted;
    if AnyAccepted(b, accepted) && |b| > 1 {
      var l, r := b[..|b| / 2], b[|b| / 2..];
      assert l + r == b;
      FilterConcat(l, r, accepted);
      CostIsLogarithmic(l, accepted);
      CostIsLogarithmic(r, accepted);
      CeilLog2Monotone(|l|, (|b| + 1) / 2);
      CeilLog2Monotone(|r|, (|b| + 1) / 2);
      HalvesAddUp(Cost(l, accepted), |Filter(l, accepted)|, CeilLog2(|l|),
                  Cost(r, accepted), |Filter(r, accepted)|, CeilLog2(|r|), CeilLog2((|b| + 1) / 2));
    }
  }

  lemma HalvesAddUp(cl: nat, kl: nat, dl: nat, cr: nat, kr: nat, dr: nat, d: nat)
    requires cl <= 1 + 2 * kl * dl && cr <= 1 + 2 * kr * dr && dl <= d && dr <= d && kl + kr >= 1
    ensures 1 + cl + cr <= 1 + 2 * (kl + kr) * (1 + d)
  {
    Scale(2 * kl, dl, d);
    Scale(2 * kr, dr, d);
    Spread(kl, kr, d);
  }

  lemma Spread(a: nat, b: nat, d: nat)
    ensures 2 * (a + b) * (1 + d) == 2 * a * d + 2 * b * d + 2 * (a + b)
    ensures 2 * (a + b) * d == 2 * a * d + 2 * b * d
  {}

  lemma Scale(k: nat, a: nat, b: nat)
    requires a <= b
    ensures k * a <= k * b
  {}

  lemma {:induction false} TotalCostIsLogarithmic(queue: seq<seq<string>>, accepted: string -> bool, size: nat)
    requires forall i :: 0 <= i < |queue| ==> |queue[i]| <= size
    ensures TotalCost(queue, accepted) <= |queue| + 2 * |Filter(Flatten(queue), accepted)| * CeilLog2(size)
  {
    hide Filter, Cost, CeilLog2;
    if queue == [] {
    } else {
      var rest, b := queue[..|queue| - 1], queue[|queue| - 1];
      TotalCostIsLogarithmic(rest, accepted, size);
      CostIsLogarithmic(b, accepted);
      FilterConcat(Flatten(rest), b, accepted);
      CeilLog2Monotone(|b|, size);
      Scale(2 * |Filter(b, accepted)|, CeilLog2(|b|), CeilLog2(size));
      Spread(|Filter(Flatten(rest), accepted)|, |Filter(b, accepted)|, CeilLog2(size));
    }
  }

  // ----- the worklist ---------------------------------------------------------------

  method Chunks(names: seq<string>, size: nat) returns (queue: seq<seq<string>>)
    requires size > 0
    ensures Flatten(queue) == names
    ensures NonEmpty(queue) && forall i :: 0 <= i < |queue| ==> |queue[i]| <= size
    ensures |queue| == (|names| + size - 1) / size
  {
    queue := [];
    var i := 0;
    while i < |names|
      invariant 0 <= i == |queue| * size
      invariant |queue| > 0 ==> (|queue| - 1) * size < |names|
      invariant Flatten(queue) == names[..Least(i, |names|)]
      invariant NonEmpty(queue) && forall k :: 0 <= k < |queue| ==> |queue[k]| <= size
      decreases |names| - i
    {
      var chunk := names[i..Least(i + size, |names|)];
      assert (queue + [chunk])[..|queue|] == queue;
      assert names[..i] + chunk == names[..Least(i + size, |names|)];
      queue := queue + [chunk];
      i := i + size;
    }
    assert names[..|names|] == names;
    RoundUp(|names|, |queue|, size);
  }

  function Least(a: nat, b: nat): nat { if a <= b then a else b }

  lemma RoundUp(n: nat, k: nat, size: nat)
    requires size > 0 && n <= k * size && (k > 0 ==> (k - 1) * size < n)
    ensures k == (n + size - 1) / size
  {
    var q, r := (n + size - 1) / size, (n + size - 1) % size;
    assert n + size - 1 == q * size + r;
    if q < k { ScaleUp(q, k - 1, size); }
    if q > k { ScaleUp(k + 1, q, size); }
  }

  lemma ScaleUp(a: int, b: int, size: nat)
    requires a <= b
    ensures a * size <= b * size
  {}

  /** A batch moves the response exactly when the application accepts one of its names. */
  ghost predicate Honest(answer: (nat, seq<string>) -> Reply, accepted: string -> bool) {
    forall i, b :: answer(i, b) != Failed ==> (answer(i, b) == Moved <==> AnyAccepted(b, accepted))
  }

  ghost predicate AllAnswered(answer: (nat, seq<string>) -> Reply, asked: seq<seq<string>>) {
    forall i :: 0 <= i < |asked| ==> answer(i, asked[i]) != Failed
  }

  /** The accepted name `n` was in a batch whose probe failed. */
  ghost predicate Unresolved(answer: (nat, seq<string>) -> Reply, asked: seq<seq<string>>, n: string) {
    exists i :: 0 <= i < |asked| && answer(i, asked[i]) == Failed && n in asked[i]
  }

  /** Bisects the batches of `queue0`, last first.  `answer(i, b)` is the reply to the i-th
      request when it probes batch `b`; `asked` are the batches probed, and `singles` the
      names that move the response alone, which go on to be classified. */
  method Bisect(queue0: seq<seq<string>>, answer: (nat, seq<string>) -> Reply, ghost accepted: string -> bool)
    returns (singles: seq<string>, asked: seq<seq<string>>, complete: bool)
    requires NonEmpty(queue0)
    ensures |asked| <= Worst(queue0)
    ensures complete <==> AllAnswered(answer, asked)
    ensures Honest(answer, accepted) ==> forall n :: n in singles ==> accepted(n)
    ensures Honest(answer, accepted) ==>
              forall n :: n in Flatten(queue0) && accepted(n) ==> n in singles || Unresolved(answer, asked, n)
    ensures Honest(answer, accepted) && complete ==> singles == Backwards(Flatten(queue0), accepted)
    ensures Honest(answer, accepted) && complete ==> |asked| == TotalCost(queue0, accepted)
  {
    hide *;
    singles, asked, complete := [], [], true;
    var queue := queue0;
    OnTrackAtStart(answer, accepted, queue0);
    while queue != []
      invariant NonEmpty(queue)
      invariant |asked| + Worst(queue) <= Worst(queue0)
      invariant complete <==> AllAnswered(answer, asked)
      invariant Honest(answer, accepted) ==> OnTrack(answer, accepted, queue0, queue, singles, asked, complete)
      decreases Worst(queue)
    {
      var batch := queue[|queue| - 1];
      var rest := queue[..|queue| - 1];
      var reply := answer(|asked|, batch);
      PopCosts(queue, accepted);
      StillUnresolved(answer, asked, batch);
      if Honest(answer, accepted) { OnTrackStep(answer, accepted, queue0, queue, singles, asked, complete); }
      queue, asked := rest, asked + [batch];
      match reply {
        case Failed =>
          complete := false;
        case Unmoved =>
        case Moved =>
          if |batch| == 1 {
            singles := singles + batch;
          } else {
            var mid := |batch| / 2;
            PushCosts(rest, batch[..mid], batch[mid..], accepted);
            assert batch[..mid] + batch[mid..] == batch;
            queue := rest + [batch[..mid], batch[mid..]];
          }
      }
    }
    OnTrackAtEnd(answer, accepted, queue0, singles, asked, complete);
  }

  /** What is found, what is still queued and what failed account for all accepted names. */
  ghost predicate OnTrack(answer: (nat, seq<string>) -> Reply, accepted: string -> bool, queue0: seq<seq<string>>,
                          queue: seq<seq<string>>, singles: seq<string>, asked: seq<seq<string>>, complete: bool) {
    && (forall n :: n in singles ==> accepted(n))
    && (forall n :: n in Flatten(queue0) && accepted(n) ==>
          n in singles || n in Flatten(queue) || Unresolved(answer, asked, n))
    && (complete ==> singles + Backwards(Flatten(queue), accepted) == Backwards(Flatten(queue0), accepted))
    && (complete ==> |asked| + TotalCost(queue, accepted) == TotalCost(queue0, accepted))
  }

  lemma OnTrackAtStart(answer: (nat, seq<string>) -> Reply, accepted: string -> bool, queue0: seq<seq<string>>)
    ensures OnTrack(answer, accepted, queue0, queue0, [], [], true) && AllAnswered(answer, [])
  {}

  lemma OnTrackAtEnd(answer: (nat, seq<string>) -> Reply, accepted: string -> bool, queue0: seq<seq<string>>,
                     singles: seq<string>, asked: seq<seq<string>>, complete: bool)
    ensures OnTrack(answer, accepted, queue0, [], singles, asked, complete) ==>
              && (forall n :: n in singles ==> accepted(n))
              && (forall n :: n in Flatten(queue0) && accepted(n) ==> n in singles || Unresolved(answer, asked, n))
              && (complete ==>
                    singles == Backwards(Flatten(queue0), accepted) && |asked| == TotalCost(queue0, accepted))
  {
    assert Flatten([]) == [] && Backwards([], accepted) == [] && TotalCost([], accepted) == 0;
  }

  /** One turn of the worklist, whatever the reply. */
  lemma OnTrackStep(answer: (nat, seq<string>) -> Reply, accepted: string -> bool, queue0: seq<seq<string>>,
                    queue: seq<seq<string>>, singles: seq<string>, asked: seq<seq<string>>, complete: bool)
    requires queue != [] && NonEmpty(queue) && Honest(answer, accepted)
    requires OnTrack(answer, accepted, queue0, queue, singles, asked, complete)
    ensures var rest, batch := queue[..|queue| - 1], queue[|queue| - 1];
            var mid, more := |batch| / 2, asked + [batch];
            match answer(|asked|, batch)
            case Failed => OnTrack(answer, accepted, queue0, rest, singles, more, false)
            case Unmoved => OnTrack(answer, accepted, queue0, rest, singles, more, complete)
            case Moved =>
              if |batch| == 1 then OnTrack(answer, accepted, queue0, rest, singles + batch, more, complete)
              else OnTrack(answer, accepted, queue0, rest + [batch[..mid], batch[mid..]], singles, more, complete)
  {
    hide Honest, Backwards, Unresolved, Flatten, TotalCost, AnyAccepted;
    var rest, batch := queue[..|queue| - 1], queue[|queue| - 1];
    PopCosts(queue, accepted);
    StillUnresolved(answer, asked, batch);
    Believe(answer, accepted, |asked|, batch);
    BackwardsOfBatch(batch, accepted);
    CostOfBatch(batch, accepted);
    match answer(|asked|, batch) {
      case Failed =>
      case Unmoved =>
      case Moved =>
        if |batch| > 1 {
          var mid := |batch| / 2;
          PushCosts(rest, batch[..mid], batch[mid..], accepted);
          assert batch[..mid] + batch[mid..] == batch;
        } else {
          assert singles + batch + Backwards(Flatten(rest), accepted)
                 == singles + (batch + Backwards(Flatten(rest), accepted));
        }
    }
  }

  lemma CostOfBatch(b: seq<string>, accepted: string -> bool)
    ensures !AnyAccepted(b, accepted) ==> Cost(b, accepted) == 1 && forall n :: n in b ==> !accepted(n)
    ensures |b| == 1 ==> Cost(b, accepted) == 1 && (AnyAccepted(b, accepted) <==> accepted(b[0]))
    ensures |b| > 1 && AnyAccepted(b, accepted) ==>
              Cost(b, accepted) == 1 + Cost(b[..|b| / 2], accepted) + Cost(b[|b| / 2..], accepted)
  {}

  lemma Believe(answer: (nat, seq<string>) -> Reply, accepted: string -> bool, i: nat, b: seq<string>)
    requires Honest(answer, accepted)
    ensures answer(i, b) != Failed ==> (answer(i, b) == Moved <==> AnyAccepted(b, accepted))
  {}

  /** Taking the last batch off the queue. */
  lemma PopCosts(queue: seq<seq<string>>, accepted: string -> bool)
    requires queue != [] && NonEmpty(queue)
    ensures var rest, b := queue[..|queue| - 1], queue[|queue| - 1];
            && NonEmpty(rest) && |b| > 0
            && Worst(queue) == Worst(rest) + 2 * |b| - 1
            && TotalCost(queue, accepted) == TotalCost(rest, accepted) + Cost(b, accepted)
            && Flatten(queue) == Flatten(rest) + b
            && Backwards(Flatten(queue), accepted) == Backwards(b, accepted) + Backwards(Flatten(rest), accepted)
  {
    hide Cost, Backwards;
    BackwardsConcat(Flatten(queue[..|queue| - 1]), queue[|queue| - 1], accepted);
  }

  /** Putting the two halves of a batch on the queue. */
  lemma PushCosts(rest: seq<seq<string>>, l: seq<string>, r: seq<string>, accepted: string -> bool)
    requires |l| > 0 && |r| > 0 && NonEmpty(rest)
    ensures var queue := rest + [l, r];
            && NonEmpty(queue)
            && Worst(queue) == Worst(rest) + 2 * |l + r| - 2
            && TotalCost(queue, accepted) == TotalCost(rest, accepted) + Cost(l, accepted) + Cost(r, accepted)
            && Flatten(queue) == Flatten(rest) + (l + r)
            && Backwards(Flatten(queue), accepted) == Backwards(l + r, accepted) + Backwards(Flatten(rest), accepted)
  {
    hide Cost, Backwards;
    var queue := rest + [l, r];
    assert queue[..|queue| - 1] == rest + [l] && (rest + [l])[..|rest|] == rest;
    PopCosts(queue, accepted);
    PopCosts(rest + [l], accepted);
    BackwardsConcat(Flatten(rest), l + r, accepted);
    assert Flatten(rest) + l + r == Flatten(rest) + (l + r);
  }

  lemma StillUnresolved(answer: (nat, seq<string>) -> Reply, asked: seq<seq<string>>, b: seq<string>)
    ensures forall n :: Unresolved(answer, asked, n) ==> Unresolved(answer, asked + [b], n)
    ensures answer(|asked|, b) == Failed ==> forall n :: n in b ==> Unresolved(answer, asked + [b], n)
    ensures AllAnswered(answer, asked + [b]) <==> AllAnswered(answer, asked) && answer(|asked|, b) != Failed
  {
    var more := asked + [b];
    assert more[|asked|] == b;
    forall n | Unresolved(answer, asked, n) ensures Unresolved(answer, more, n) {
      var i :| 0 <= i < |asked| && answer(i, asked[i]) == Failed && n in asked[i];
      assert more[i] == asked[i];
    }
    assert forall i :: 0 <= i < |asked| ==> more[i] == asked[i];
  }

  // ----- one URL --------------------------------------------------------------------

  /** Probes one URL: nothing without a baseline, a control and a stable page.  Where the
      page answers honestly and no request fails, the names that reach classification are
      exactly the accepted candidates, and the requests are logarithmic in the batch size
      for each of them. */
  method ProbeUrl(baseline: Option<Response>, control: Option<Response>, candidates: seq<string>, size: nat,
                  answer: (nat, seq<string>) -> Reply, ghost accepted: string -> bool)
    returns (singles: seq<string>, asked: seq<seq<string>>, fullyProbed: bool)
    requires size > 0
    ensures |asked| <= 2 * |candidates|
    ensures baseline.None? || control.None? || !Stable(baseline.value, control.value) ==> asked == [] && singles == []
    ensures fullyProbed
            <==> baseline.Some? && control.Some? && Stable(baseline.value, control.value) && AllAnswered(answer, asked)
    ensures Honest(answer, accepted) ==> forall n :: n in singles ==> accepted(n)
    ensures Honest(answer, accepted) && fullyProbed ==>
              && singles == Backwards(candidates, accepted)
              && |asked| <= (|candidates| + size - 1) / size + 2 * |Filter(candidates, accepted)| * CeilLog2(size)
    ensures baseline.Some? && control.Some? && Stable(baseline.value, control.value) && Honest(answer, accepted) ==>
              forall n :: n in candidates && accepted(n) ==> n in singles || Unresolved(answer, asked, n)
  {
    singles, asked, fullyProbed := [], [], false;
    if baseline.None? { return; }
    if control.None? { return; }
    if !Stable(baseline.value, control.value) { return; }
    var queue := Chunks(candidates, size);
    singles, asked, fullyProbed := Bisect(queue, answer, accepted);
    WorstIsLinear(queue);
    TotalCostIsLogarithmic(queue, accepted, size);
  }

  lemma {:induction false} WorstIsLinear(queue: seq<seq<string>>)
    requires NonEmpty(queue)
    ensures Worst(queue) == 2 * |Flatten(queue)| - |queue|
  {
    if queue != [] { WorstIsLinear(queue[..|queue| - 1]); }
  }
}
