/**
  Delivery of new documents as alerts (pipelines/notify.py): which of them are listed, which
  of those are sent, and what is then marked seen.
*/
module Notify {
  import opened Ordering
  import opened Repository

  // ----- which documents are listed -------------------------------------------------

  const MAX_ALERTS_PER_SOURCE := 100
  const LIST_LIMIT := 1000

  /** Severities as the enumeration declares them. */
  const SEVERITY_ORDER := ["info", "low", "medium", "high", "critical"]

  /** The sort key: the place in that declaration, so that info comes first.  A document
      without a severity counts as info, an unknown one comes last. */
  function SeverityRank(doc: Doc): nat {
    if "severity" !in doc || doc["severity"] == Text(SEVERITY_ORDER[0]) then 0
    else if doc["severity"] == Text(SEVERITY_ORDER[1]) then 1
    else if doc["severity"] == Text(SEVERITY_ORDER[2]) then 2
    else if doc["severity"] == Text(SEVERITY_ORDER[3]) then 3
    else if doc["severity"] == Text(SEVERITY_ORDER[4]) then 4
    else 99
  }

  /** In a stable sort by rank, item `i` comes before item `j`. */
  predicate Precedes(ranks: seq<nat>, i: nat, j: nat)
    requires i < |ranks| && j < |ranks|
  {
    ranks[i] < ranks[j] || (ranks[i] == ranks[j] && i < j)
  }

  ghost function Ahead(ranks: seq<nat>, i: nat): set<nat>
    requires i < |ranks|
  {
    set j: nat | j < |ranks| && Precedes(ranks, j, i)
  }

  /** Item `i` makes the list: fewer than the maximum are ahead of it. */
  ghost predicate Makes(ranks: seq<nat>, i: nat) {
    i < |ranks| && |Ahead(ranks, i)| < MAX_ALERTS_PER_SOURCE
  }

  /** A stable order of the first `n` items. */
  ghost predicate Orders(ranks: seq<nat>, order: seq<nat>, n: nat)
    requires n <= |ranks|
  {
    && (forall k :: 0 <= k < |order| ==> order[k] < n)
    && (forall i: nat :: i < n ==> i in order)
    && forall j, k :: 0 <= j < k < |order| ==> Precedes(ranks, order[j], order[k])
  }

  /** Items are ranked by a stable sort and cut off: an item makes the list exactly if fewer
      than the maximum are ahead of it, and the list is in that order. */
  method Shortlist(ranks: seq<nat>) returns (top: seq<nat>)
    ensures forall i: nat :: i in top <==> Makes(ranks, i)
    ensures forall k :: 0 <= k < |top| ==> top[k] < |ranks|
    ensures forall j, k :: 0 <= j < k < |top| ==> Precedes(ranks, top[j], top[k])
    ensures forall j, k :: 0 <= j < k < |top| ==>
              ranks[top[j]] < ranks[top[k]] || (ranks[top[j]] == ranks[top[k]] && top[j] < top[k])
    ensures |top| <= 100
  {
    var order: seq<nat> := [];
    for n := 0 to |ranks|
      invariant Orders(ranks, order, n)
    {
      var at := |order|;
      while at > 0 && ranks[n] < ranks[order[at - 1]]
        invariant 0 <= at <= |order|
        invariant forall k :: at <= k < |order| ==> ranks[n] < ranks[order[k]]
      {
        at := at - 1;
      }
      InsertKeepsOrder(ranks, order, n, at);
      order := order[..at] + [n] + order[at..];
    }
    top := if |order| <= MAX_ALERTS_PER_SOURCE then order else order[..MAX_ALERTS_PER_SOURCE];
    forall i: nat ensures i in top <==> Makes(ranks, i) {
      if i < |ranks| {
        assert i in order;
        var k :| 0 <= k < |order| && order[k] == i;
        AheadIsPrefix(ranks, order, k);
        if i in top {
          var m :| 0 <= m < |top| && top[m] == i;
          AheadIsPrefix(ranks, order, m);
        }
      }
    }
  }

  lemma InsertKeepsOrder(ranks: seq<nat>, order: seq<nat>, n: nat, at: nat)
    requires n < |ranks| && Orders(ranks, order, n) && at <= |order|
    requires forall k :: at <= k < |order| ==> ranks[n] < ranks[order[k]]
    requires at > 0 ==> ranks[order[at - 1]] <= ranks[n]
    ensures Orders(ranks, order[..at] + [n] + order[at..], n + 1)
  {
    var next := order[..at] + [n] + order[at..];
    assert next[at] == n;
    forall i: nat | i < n ensures i in next {
      assert i in order;
      var k :| 0 <= k < |order| && order[k] == i;
      assert next[if k < at then k else k + 1] == i;
    }
    forall j, k | 0 <= j < k < |next| ensures Precedes(ranks, next[j], next[k]) {
      PairKeepsOrder(ranks, order, n, at, j, k);
    }
  }

  lemma PairKeepsOrder(ranks: seq<nat>, order: seq<nat>, n: nat, at: nat, j: nat, k: nat)
    requires n < |ranks| && Orders(ranks, order, n) && at <= |order| && j < k <= |order|
    requires forall k :: at <= k < |order| ==> ranks[n] < ranks[order[k]]
    requires at > 0 ==> ranks[order[at - 1]] <= ranks[n]
    ensures var next := order[..at] + [n] + order[at..];
            next[j] < |ranks| && next[k] < |ranks| && Precedes(ranks, next[j], next[k])
  {
    var next := order[..at] + [n] + order[at..];
    if k == at {
      assert next[j] == order[j] && order[j] < n;
      if j < at - 1 { assert Precedes(ranks, order[j], order[at - 1]); }
    } else if j == at {
      assert next[k] == order[k - 1];
    } else {
      assert next[j] == order[if j < at then j else j - 1] && next[k] == order[if k < at then k else k - 1];
    }
  }

  lemma {:induction false} CountDistinct(order: seq<nat>, s: set<nat>)
    requires forall i, j :: 0 <= i < j < |order| ==> order[i] != order[j]
    requires forall x :: x in s <==> x in order
    ensures |s| == |order|
  {
    if order == [] {
      assert s == {};
    } else {
      var front, last := order[..|order| - 1], order[|order| - 1];
      assert order == front + [last];
      CountDistinct(front, s - {last});
    }
  }

  lemma AheadIsPrefix(ranks: seq<nat>, order: seq<nat>, k: nat)
    requires Orders(ranks, order, |ranks|) && k < |order|
    ensures |Ahead(ranks, order[k])| == k
  {
    var i := order[k];
    forall j: nat ensures j in Ahead(ranks, i) <==> j in order[..k] {
      if j in Ahead(ranks, i) {
        assert j in order;
        var m :| 0 <= m < |order| && order[m] == j;
        assert m < k;
        assert order[..k][m] == j;
      }
      if j in order[..k] {
        var m :| 0 <= m < k && order[m] == j;
        assert Precedes(ranks, order[m], order[k]);
      }
    }
    forall x, y | 0 <= x < y < k ensures order[x] != order[y] {
      assert Precedes(ranks, order[x], order[y]);
    }
    CountDistinct(order[..k], Ahead(ranks, i));
  }

  // ----- delivering alerts ----------------------------------------------------------

  function DocAt(docs: Docs, tenant: string, fp: string): Doc {
    if (tenant, fp) in docs then docs[(tenant, fp)] else map[]
  }

  /** Document `fp` goes to channel `c`: change events bypass the channel's threshold. */
  predicate Planned(doc: Doc, c: nat, keep: Doc -> bool, passes: (Doc, nat) -> bool, isEvent: bool) {
    keep(doc) && (isEvent || passes(doc, c))
  }

  /** Some channel took the alert. */
  ghost predicate Taken(doc: Doc, fp: string, channels: nat, keep: Doc -> bool, passes: (Doc, nat) -> bool,
                        isEvent: bool, sent: (string, nat) -> bool) {
    exists c :: 0 <= c < channels && Planned(doc, c, keep, passes, isEvent) && sent(fp, c)
  }

  /** The channels that a document is sent to and that take it: none if it does not pass the
      filter, and else those whose threshold it clears, or that it bypasses. */
  ghost function Takers(doc: Doc, fp: string, channels: nat, keep: Doc -> bool, passes: (Doc, nat) -> bool,
                        isEvent: bool, sent: (string, nat) -> bool): set<nat> {
    set c: nat | c < channels && keep(doc) && (isEvent || passes(doc, c)) && sent(fp, c)
  }

  lemma TakersStep(doc: Doc, fp: string, c: nat, keep: Doc -> bool, passes: (Doc, nat) -> bool, isEvent: bool,
                   sent: (string, nat) -> bool)
    ensures |Takers(doc, fp, c + 1, keep, passes, isEvent, sent)|
            == |Takers(doc, fp, c, keep, passes, isEvent, sent)|
               + if keep(doc) && (isEvent || passes(doc, c)) && sent(fp, c) then 1 else 0
  {
    var before, after := Takers(doc, fp, c, keep, passes, isEvent, sent),
                         Takers(doc, fp, c + 1, keep, passes, isEvent, sent);
    assert c !in before && forall d :: d in after <==> d in before || (d == c && c in after);
    if c in after {
      assert after == before + {c};
    } else {
      assert after == before;
    }
  }

  lemma NoTakers(doc: Doc, fp: string, channels: nat, keep: Doc -> bool, passes: (Doc, nat) -> bool, isEvent: bool,
                 sent: (string, nat) -> bool)
    requires !keep(doc) || channels == 0
    ensures Takers(doc, fp, channels, keep, passes, isEvent, sent) == {}
  {}

  /** Sends one document to the channels; counts those that took it. */
  method Send(doc: Doc, fp: string, channels: nat, keep: Doc -> bool, passes: (Doc, nat) -> bool, isEvent: bool,
              sent: (string, nat) -> bool) returns (taken: nat)
    ensures taken == |set c: nat | c < channels && keep(doc) && (isEvent || passes(doc, c)) && sent(fp, c)|
    ensures taken > 0 <==> Taken(doc, fp, channels, keep, passes, isEvent, sent)
    ensures taken <= channels
  {
    taken := 0;
    assert (set c: nat | c < channels && keep(doc) && (isEvent || passes(doc, c)) && sent(fp, c))
           == Takers(doc, fp, channels, keep, passes, isEvent, sent);
    hide Takers;
    if !keep(doc) {
      NoTakers(doc, fp, channels, keep, passes, isEvent, sent);
      return;
    }
    NoTakers(doc, fp, 0, keep, passes, isEvent, sent);
    for c := 0 to channels
      invariant taken <= c && taken == |Takers(doc, fp, c, keep, passes, isEvent, sent)|
      invariant taken > 0 <==> exists d :: 0 <= d < c && Planned(doc, d, keep, passes, isEvent) && sent(fp, d)
    {
      TakersStep(doc, fp, c, keep, passes, isEvent, sent);
      if (isEvent || passes(doc, c)) && sent(fp, c) {
        assert Planned(doc, c, keep, passes, isEvent);
        taken := taken + 1;
      }
    }
  }

  /** The sum of `f(i)` over the members `i` of `s` below `n`. */
  ghost function Sum(f: nat -> nat, s: set<nat>, n: nat): nat {
    if n == 0 then 0 else Sum(f, s, n - 1) + if n - 1 in s then f(n - 1) else 0
  }

  lemma {:induction false} SumOfMore(f: nat -> nat, s: set<nat>, x: nat, n: nat)
    requires x !in s
    ensures Sum(f, s + {x}, n) == Sum(f, s, n) + if x < n then f(x) else 0
  {
    if n != 0 { SumOfMore(f, s, x, n - 1); }
  }

  lemma {:induction false} SumOfNone(f: nat -> nat, n: nat)
    ensures Sum(f, {}, n) == 0
  {
    if n != 0 { SumOfNone(f, n - 1); }
  }

  lemma {:induction false} SumDepends(f: nat -> nat, s: set<nat>, t: set<nat>, n: nat)
    requires forall i :: 0 <= i < n ==> (i in s <==> i in t)
    ensures Sum(f, s, n) == Sum(f, t, n)
  {
    if n != 0 { SumDepends(f, s, t, n - 1); }
  }

  /** The documents the store lists, in its own order. */
  function Listed(found: seq<string>): seq<string> {
    if |found| <= LIST_LIMIT then found else found[..LIST_LIMIT]
  }

  function Ranks(docs: Docs, tenant: string, items: seq<string>): (ranks: seq<nat>)
    ensures |ranks| == |items| && forall i :: 0 <= i < |items| ==>
              ranks[i] == SeverityRank(DocAt(docs, tenant, items[i]))
  {
    seq(|items|, i requires 0 <= i < |items| => SeverityRank(DocAt(docs, tenant, items[i])))
  }

  /** Document `fp` is considered: of those listed, whether or not they pass the filter, fewer
      than the maximum are ahead of it. */
  ghost predicate Considered(docs: Docs, tenant: string, found: seq<string>, fp: string) {
    exists i :: 0 <= i < |Listed(found)| && Listed(found)[i] == fp && Makes(Ranks(docs, tenant, Listed(found)), i)
  }

  /** The places of the list that are considered. */
  ghost function Places(docs: Docs, tenant: string, found: seq<string>): set<nat> {
    set i: nat | i < |Listed(found)| && Makes(Ranks(docs, tenant, Listed(found)), i)
  }

  /** The number of channels that take the document at place `i` of the list. */
  ghost function TakenAt(docs: Docs, tenant: string, items: seq<string>, channels: nat, keep: Doc -> bool,
                         passes: (Doc, nat) -> bool, isEvent: bool, sent: (string, nat) -> bool): nat -> nat {
    (i: nat) => if i < |items|
         then |Takers(DocAt(docs, tenant, items[i]), items[i], channels, keep, passes, isEvent, sent)| else 0
  }

  /** What has been counted after the first `k` picks is the sum over their places. */
  lemma PicksAddUp(f: nat -> nat, top: seq<nat>, k: nat, n: nat)
    requires k < |top| && top[k] < n && forall i, j :: 0 <= i < j < |top| ==> top[i] != top[j]
    ensures var before, after := Elems(top[..k]), Elems(top[..k + 1]);
            Sum(f, after, n) == Sum(f, before, n) + f(top[k])
  {
    var before, after := Elems(top[..k]), Elems(top[..k + 1]);
    assert top[..k + 1] == top[..k] + [top[k]];
    assert after == before + {top[k]};
    SumOfMore(f, before, top[k], n);
  }

  lemma PicksDiffer(ranks: seq<nat>, top: seq<nat>)
    requires forall k :: 0 <= k < |top| ==> top[k] < |ranks|
    requires forall j, k :: 0 <= j < k < |top| ==> Precedes(ranks, top[j], top[k])
    ensures forall j, k :: 0 <= j < k < |top| ==> top[j] != top[k]
  {}

  lemma PickedAreConsidered(docs: Docs, tenant: string, found: seq<string>, top: seq<nat>, picked: seq<string>)
    requires var ranks := Ranks(docs, tenant, Listed(found));
             && (forall i: nat :: i in top <==> Makes(ranks, i))
             && |picked| == |top|
             && forall k :: 0 <= k < |top| ==> top[k] < |ranks| && picked[k] == Listed(found)[top[k]]
    ensures forall fp :: fp in picked <==> Considered(docs, tenant, found, fp)
    ensures forall fp :: fp in picked ==> fp in found
  {
    hide Ahead;
    var items := Listed(found);
    forall fp
      ensures fp in picked <==> Considered(docs, tenant, found, fp)
      ensures fp in picked ==> fp in found
    {
      if Considered(docs, tenant, found, fp) {
        var i :| 0 <= i < |items| && items[i] == fp && Makes(Ranks(docs, tenant, items), i);
        assert i in top;
        var k :| 0 <= k < |top| && top[k] == i;
        assert picked[k] == fp;
      }
      if fp in picked {
        var k :| 0 <= k < |top| && picked[k] == fp;
        assert top[k] in top;
      }
    }
  }

  lemma ClearedAreSeen(docs: Docs, tenant: string, fps: set<string>)
    ensures fps == {} ==> Cleared(docs, tenant, fps) == docs
    ensures forall fp :: IsNew(docs, (tenant, fp)) ==> (IsNew(Cleared(docs, tenant, fps), (tenant, fp)) <==> fp !in fps)
  {
    if fps == {} { assert Cleared(docs, tenant, fps) == docs; }
  }

  /** One source of alerts.  `found` are the new documents in the store's order; `sent(fp, c)`
      tells whether channel `c`, of `channels`, took the alert.  A document is delivered if it
      is considered and some channel took it, and exactly the delivered ones are marked seen. */
  method NotifySource(repo: Repository, tenant: string, found: seq<string>, channels: nat,
                      keep: Doc -> bool, passes: (Doc, nat) -> bool, isEvent: bool, sent: (string, nat) -> bool)
    returns (deliveries: nat, delivered: set<string>)
    requires forall fp :: fp in found ==> IsNew(repo.docs, (tenant, fp))
    modifies repo
    ensures forall fp :: fp in delivered <==>
              && Considered(old(repo.docs), tenant, found, fp)
              && Taken(DocAt(old(repo.docs), tenant, fp), fp, channels, keep, passes, isEvent, sent)
    ensures repo.docs == Cleared(old(repo.docs), tenant, delivered)
    ensures deliveries >= |delivered|
    ensures deliveries == Sum(TakenAt(old(repo.docs), tenant, Listed(found), channels, keep, passes, isEvent, sent),
                              Places(old(repo.docs), tenant, found), |Listed(found)|)
    ensures forall fp :: fp in found ==> (IsNew(repo.docs, (tenant, fp)) <==> fp !in delivered)
  {
    hide Planned, Taken, Ahead, SeverityRank, Considered, Listed, Precedes, DocAt, Cleared, Sum, Makes;
    deliveries, delivered := 0, {};
    var items := Listed(found);
    var top := Shortlist(Ranks(repo.docs, tenant, items));
    var picked := seq(|top|, k requires 0 <= k < |top| => items[top[k]]);
    ghost var count := TakenAt(repo.docs, tenant, items, channels, keep, passes, isEvent, sent);
    PicksDiffer(Ranks(repo.docs, tenant, items), top);
    SumOfNone(count, |items|);
    assert Elems(top[..0]) == {};
    for k := 0 to |picked|
      invariant repo.docs == old(repo.docs) && deliveries >= |delivered|
      invariant deliveries == Sum(count, Elems(top[..k]), |items|)
      invariant forall fp :: fp in delivered <==>
                  fp in picked[..k] && Taken(DocAt(repo.docs, tenant, fp), fp, channels, keep, passes, isEvent, sent)
    {
      var fp := picked[k];
      var taken := Send(DocAt(repo.docs, tenant, fp), fp, channels, keep, passes, isEvent, sent);
      PicksAddUp(count, top, k, |items|);
      assert taken == count(top[k]);
      deliveries := deliveries + taken;
      if taken > 0 {
        delivered := delivered + {fp};
      }
      assert picked[..k + 1] == picked[..k] + [fp];
    }
    assert picked[..|picked|] == picked && top[..|top|] == top;
    SumDepends(count, Elems(top), Places(repo.docs, tenant, found), |items|);
    PickedAreConsidered(repo.docs, tenant, found, top, picked);
    ClearedAreSeen(repo.docs, tenant, delivered);
    if delivered != {} {
      repo.ClearIsNew(tenant, delivered);
    }
  }

  // ----- the promise: the most severe first -----------------------------------------

  /** How severe a document is: critical most, an unknown severity least of all. */
  function Severity(doc: Doc): int {
    if "severity" !in doc then 0
    else if doc["severity"] == Text("critical") then 4
    else if doc["severity"] == Text("high") then 3
    else if doc["severity"] == Text("medium") then 2
    else if doc["severity"] == Text("low") then 1
    else if doc["severity"] == Text("info") then 0
    else -1
  }

  lemma RankIsSeverity(doc: Doc)
    ensures SeverityRank(doc) == (if Severity(doc) < 0 then 99 else Severity(doc)) <= 99 && -1 <= Severity(doc) <= 4
  {}

  function Weight(rank: nat): int { if rank == 99 then -1 else rank }

  /** The items of known severity. */
  ghost function Known(ranks: seq<nat>): set<nat> {
    set i: nat | i < |ranks| && ranks[i] != 99
  }

  ghost predicate AllAlike(ranks: seq<nat>) {
    forall i, j :: i in Known(ranks) && j in Known(ranks) ==> ranks[i] == ranks[j]
  }

  /** Whatever is cut off is no more severe than what makes the list. */
  ghost predicate CutIsFair(ranks: seq<nat>) {
    forall i: nat, j: nat ::
      i < |ranks| && j < |ranks| && Makes(ranks, i) && !Makes(ranks, j) ==>
        Weight(ranks[j]) <= Weight(ranks[i])
  }

  /** Nothing in `s` comes before `first` or after `last`. */
  ghost predicate Spans(ranks: seq<nat>, s: set<nat>, first: nat, last: nat) {
    forall y :: y in s ==>
      first < |ranks| && last < |ranks| && y < |ranks| && !Precedes(ranks, y, first) && !Precedes(ranks, last, y)
  }

  lemma {:induction false} FirstAndLast(ranks: seq<nat>, s: set<nat>) returns (first: nat, last: nat)
    requires s != {} && forall x :: x in s ==> x < |ranks|
    ensures {first, last} <= s && Spans(ranks, s, first, last)
  {
    var x :| x in s;
    first, last := x, x;
    if other :| other in s && other != x {
      assert other in s - {x};
      var f, l := FirstAndLast(ranks, s - {x});
      assert f in {f, l} && l in {f, l};
      first := if Precedes(ranks, x, f) then x else f;
      last := if Precedes(ranks, l, x) then x else l;
      forall y | y in s ensures !Precedes(ranks, y, first) && !Precedes(ranks, last, y) {
        if y != x { assert y in s - {x}; }
      }
    }
  }

  /** The cut is fair exactly if it leaves out nothing of known severity, or there is only
      one such severity. */
  lemma CutIsFairIff(ranks: seq<nat>)
    requires forall i :: 0 <= i < |ranks| ==> ranks[i] <= 99
    ensures CutIsFair(ranks) <==> |Known(ranks)| <= MAX_ALERTS_PER_SOURCE || AllAlike(ranks)
  {
    if |Known(ranks)| <= MAX_ALERTS_PER_SOURCE || AllAlike(ranks) {
      forall i: nat, j: nat | i < |ranks| && j < |ranks| && Makes(ranks, i) && !Makes(ranks, j)
        ensures Weight(ranks[j]) <= Weight(ranks[i])
      {
        FairPair(ranks, i, j);
      }
    } else {
      var first, last := FirstAndLast(ranks, Known(ranks));
      assert {first, last} <= Known(ranks) && first in {first, last} && last in {first, last};
      forall j: nat | j < |ranks| ensures !Precedes(ranks, j, first) {
        assert j in Known(ranks) || ranks[j] == 99;
      }
      assert Ahead(ranks, first) == {};
      SubsetSize(Known(ranks) - {last}, Ahead(ranks, last));
      assert ranks[first] < ranks[last];
      assert !CutIsFair(ranks);
    }
  }

  lemma FairPair(ranks: seq<nat>, i: nat, j: nat)
    requires forall i :: 0 <= i < |ranks| ==> ranks[i] <= 99
    requires |Known(ranks)| <= MAX_ALERTS_PER_SOURCE || AllAlike(ranks)
    requires i < |ranks| && j < |ranks| && Makes(ranks, i) && !Makes(ranks, j)
    ensures Weight(ranks[j]) <= Weight(ranks[i])
  {
    if j in Known(ranks) {
      assert Ahead(ranks, j) <= Known(ranks) - {j};
      SubsetSize(Ahead(ranks, j), Known(ranks) - {j});
      if i !in Known(ranks) {
        assert Ahead(ranks, j) <= Ahead(ranks, i);
        SubsetSize(Ahead(ranks, j), Ahead(ranks, i));
      }
    }
  }

  function Severities(docs: Docs, tenant: string, found: seq<string>): (sev: seq<int>)
    ensures |sev| == |found| && forall i :: 0 <= i < |found| ==> sev[i] == Severity(DocAt(docs, tenant, found[i]))
  {
    seq(|found|, i requires 0 <= i < |found| => Severity(DocAt(docs, tenant, found[i])))
  }

  /** The documents of known severity, by place. */
  ghost function Graded(sev: seq<int>): set<nat> {
    set i: nat | i < |sev| && sev[i] >= 0
  }

  /** The list leaves out nothing of known severity, or all of that is equally severe. */
  ghost predicate ListSuffices(sev: seq<int>) {
    || |Graded(sev)| <= MAX_ALERTS_PER_SOURCE
    || forall i, j :: i in Graded(sev) && j in Graded(sev) ==> sev[i] == sev[j]
  }

  /** What the store does not list is no more severe than what it lists and is graded, nor
      than the rest of that if the graded documents leave room. */
  ghost predicate NothingGraverBeyond(sev: seq<int>, beyond: seq<int>) {
    forall i: nat, j: nat ::
      i < |sev| && j < |beyond| && (i in Graded(sev) || |Graded(sev)| < MAX_ALERTS_PER_SOURCE) ==> beyond[j] <= sev[i]
  }

  /** Nothing is passed over for something less severe. */
  ghost predicate IsFair(ranks: seq<nat>, sev: seq<int>) {
    forall i: nat, j: nat :: i < |sev| && j < |sev| && Makes(ranks, i) && !Makes(ranks, j) ==> sev[j] <= sev[i]
  }

  lemma IsFairIff(ranks: seq<nat>, sev: seq<int>, beyond: seq<int>)
    requires |ranks| == |sev| && forall i :: 0 <= i < |ranks| ==> ranks[i] <= 99 && Weight(ranks[i]) == sev[i] >= -1
    ensures IsFair(ranks, sev + beyond) <==> ListSuffices(sev) && NothingGraverBeyond(sev, beyond)
  {
    hide Ahead;
    var all, n := sev + beyond, |sev|;
    assert Known(ranks) == Graded(sev);
    CutIsFairIff(ranks);
    if IsFair(ranks, all) {
      forall i: nat, j: nat |
        i < n && j < |beyond| && (i in Known(ranks) || |Known(ranks)| < MAX_ALERTS_PER_SOURCE)
        ensures beyond[j] <= sev[i]
      {
        var least := SomethingConsidered(ranks, i);
        assert Makes(ranks, least) && !Makes(ranks, n + j) && all[n + j] == beyond[j];
      }
      forall i: nat, j: nat | i < n && j < n && Makes(ranks, i) && !Makes(ranks, j)
        ensures Weight(ranks[j]) <= Weight(ranks[i])
      {
        assert all[i] == sev[i] && all[j] == sev[j];
      }
    }
    if CutIsFair(ranks) && NothingGraverBeyond(sev, beyond) {
      forall i: nat, j: nat | i < |all| && j < |all| && Makes(ranks, i) && !Makes(ranks, j)
        ensures all[j] <= all[i]
      {
        UngradedComesLast(ranks, i);
        if j >= n { assert all[j] == beyond[j - n]; }
      }
    }
  }

  /** No new document is passed over for something less severe. */
  ghost predicate MostSevereFirst(docs: Docs, tenant: string, found: seq<string>) {
    IsFair(Ranks(docs, tenant, Listed(found)), Severities(docs, tenant, found))
  }

  /** Alerts are promised to go out most severe first, a hundred at a time.  They do exactly
      if at most a hundred of the thousand listed documents have a known severity, or all of
      those the same, and nothing beyond them is graver. */
  lemma MostSevereFirstIff(docs: Docs, tenant: string, found: seq<string>)
    ensures var sev, n := Severities(docs, tenant, found), |Listed(found)|;
            MostSevereFirst(docs, tenant, found) <==> ListSuffices(sev[..n]) && NothingGraverBeyond(sev[..n], sev[n..])
  {
    hide SeverityRank, Severity, DocAt, IsFair, ListSuffices, NothingGraverBeyond;
    var ranks, sev := Ranks(docs, tenant, Listed(found)), Severities(docs, tenant, found);
    var n := |ranks|;
    forall i | 0 <= i < n ensures ranks[i] <= 99 && Weight(ranks[i]) == sev[..n][i] >= -1 {
      RankIsSeverity(DocAt(docs, tenant, found[i]));
    }
    assert sev == sev[..n] + sev[n..];
    IsFairIff(ranks, sev[..n], sev[n..]);
  }

  /** Something no more severe than item `i` makes the list, if `i` is graded or the graded
      items leave room. */
  lemma SomethingConsidered(ranks: seq<nat>, i: nat) returns (least: nat)
    requires forall i :: 0 <= i < |ranks| ==> ranks[i] <= 99
    requires i < |ranks| && (i in Known(ranks) || |Known(ranks)| < MAX_ALERTS_PER_SOURCE)
    ensures Makes(ranks, least) && Weight(ranks[least]) <= Weight(ranks[i])
  {
    var alike := set j: nat | j < |ranks| && (ranks[j] == 99 <==> ranks[i] == 99);
    assert i in alike;
    var last: nat;
    least, last := FirstAndLast(ranks, alike);
    assert least in {least, last};
    forall j: nat | j < |ranks| && Precedes(ranks, j, least) ensures ranks[i] == 99 && j in Known(ranks) {
      assert j !in alike;
    }
    if ranks[i] == 99 {
      assert Ahead(ranks, least) <= Known(ranks);
      SubsetSize(Ahead(ranks, least), Known(ranks));
    } else {
      assert Ahead(ranks, least) == {};
    }
  }

  lemma UngradedComesLast(ranks: seq<nat>, i: nat)
    requires forall i :: 0 <= i < |ranks| ==> ranks[i] <= 99
    requires Makes(ranks, i)
    ensures i in Known(ranks) || |Known(ranks)| < MAX_ALERTS_PER_SOURCE
  {
    if i !in Known(ranks) {
      assert Known(ranks) <= Ahead(ranks, i);
      SubsetSize(Known(ranks), Ahead(ranks, i));
    }
  }

  /** One document is left out by any hundred that rank before it, whether or not they ever
      pass the filter and so go away. */
  lemma LesserFindingsStarve(docs: Docs, tenant: string, found: seq<string>, i: nat, lesser: set<nat>)
    requires NoDup(found) && i < |Listed(found)| && |lesser| >= MAX_ALERTS_PER_SOURCE
    requires var ranks := Ranks(docs, tenant, Listed(found));
             forall j :: j in lesser ==> j < |ranks| && ranks[j] < ranks[i]
    ensures !Considered(docs, tenant, found, Listed(found)[i])
  {
    hide SeverityRank;
    var ranks := Ranks(docs, tenant, Listed(found));
    assert lesser <= Ahead(ranks, i);
    SubsetSize(lesser, Ahead(ranks, i));
  }

  function Name(k: nat): (name: string)
    ensures |name| == k
  {
    seq(k, _ => 'f')
  }

  const INFO: Doc := map["is_new" := Bool(true), "severity" := Text("info")]
  const CRITICAL: Doc := map["is_new" := Bool(true), "severity" := Text("critical")]

  /** `k` new documents of severity info. */
  ghost function Infos(k: nat): Docs {
    if k == 0 then map[] else Infos(k - 1)[("t", Name(k - 1)) := INFO]
  }

  lemma {:induction false} InfosAt(k: nat, i: nat)
    requires i < k
    ensures DocAt(Infos(k), "t", Name(i)) == INFO
  {
    if i < k - 1 {
      InfosAt(k - 1, i);
      assert |Name(i)| != |Name(k - 1)|;
    }
  }

  /** A hundred infos and one critical finding, all new: the critical one is left out. */
  lemma HundredInfosHideACritical() returns (docs: Docs, found: seq<string>)
    ensures |found| == 101 && NoDup(found)
    ensures forall i :: 0 <= i < |found| ==> DocAt(docs, "t", found[i]) == if i < 100 then INFO else CRITICAL
    ensures !Considered(docs, "t", found, found[100])
  {
    hide Infos, Considered, Name, Ahead;
    docs := Infos(100)[("t", Name(100)) := CRITICAL];
    found := seq(101, i requires 0 <= i < 101 => Name(i));
    assert forall i :: 0 <= i < |found| ==> |found[i]| == i;
    forall i: nat | i < 100 ensures DocAt(docs, "t", Name(i)) == INFO {
      InfosAt(100, i);
      assert |Name(i)| != |Name(100)|;
    }
    var places: seq<nat> := seq(100, i requires 0 <= i < 100 => i);
    var lesser := set i | i in places;
    CountDistinct(places, lesser);
    LesserFindingsStarve(docs, "t", found, 100, lesser);
  }

  // ----- one source of alerts as a step of the store --------------------------------

  /** A call of `NotifySource` continues a trail: what it sends out is new when it is sent. */
  method NotifyOnTrail(repo: Repository, tenant: string, found: seq<string>, channels: nat,
                       keep: Doc -> bool, passes: (Doc, nat) -> bool, isEvent: bool, sent: (string, nat) -> bool,
                       ghost start: Docs, ghost ops: seq<Op>)
    returns (deliveries: nat, delivered: set<string>)
    requires forall fp :: fp in found ==> IsNew(repo.docs, (tenant, fp))
    requires IsTrail(start, ops, repo.preserve) && repo.docs == Replay(start, ops, repo.preserve)
    modifies repo
    ensures IsTrail(start, ops + [Notify(tenant, delivered)], repo.preserve)
    ensures repo.docs == Replay(start, ops + [Notify(tenant, delivered)], repo.preserve)
    ensures forall fp :: fp in delivered <==>
              && Considered(old(repo.docs), tenant, found, fp)
              && Taken(DocAt(old(repo.docs), tenant, fp), fp, channels, keep, passes, isEvent, sent)
    ensures deliveries == Sum(TakenAt(old(repo.docs), tenant, Listed(found), channels, keep, passes, isEvent, sent),
                              Places(old(repo.docs), tenant, found), |Listed(found)|)
  {
    hide Considered, Taken, IsNew, Replay, IsTrail, Sum, TakenAt, Places;
    deliveries, delivered := NotifySource(repo, tenant, found, channels, keep, passes, isEvent, sent);
    forall fp | fp in delivered ensures IsNew(old(repo.docs), (tenant, fp)) {
      ConsideredIsListed(old(repo.docs), tenant, found, fp);
    }
    TrailGrows(start, ops, repo.preserve, tenant, delivered);
  }

  lemma ConsideredIsListed(docs: Docs, tenant: string, found: seq<string>, fp: string)
    requires Considered(docs, tenant, found, fp)
    ensures fp in found
  {}

  lemma TrailGrows(start: Docs, ops: seq<Op>, preserve: set<string>, tenant: string, delivered: set<string>)
    requires IsTrail(start, ops, preserve)
    requires forall fp :: fp in delivered ==> IsNew(Replay(start, ops, preserve), (tenant, fp))
    ensures var all := ops + [Notify(tenant, delivered)];
            IsTrail(start, all, preserve)
            && Replay(start, all, preserve) == Cleared(Replay(start, ops, preserve), tenant, delivered)
  {
    hide IsNew, Cleared;
    var all := ops + [Notify(tenant, delivered)];
    assert all[..|ops|] == ops;
    forall i | 0 <= i < |ops| ensures all[..i] == ops[..i] {}
  }
}
