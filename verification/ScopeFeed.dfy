/**
  The feed of CDN and cloud ranges: its refresh (scripts/update_scope_feeds.py), the
  shared copy and the choice of the feed to load (db/scope_feed.py), and the engine built
  from it (core/scope.py).
*/
module ScopeFeed {
  import opened Wrappers
  import opened Scope

  /** `cls` is the provider's class as text; without one it counts as a CDN. */
  datatype Provider = Provider(name: string, cls: Option<string>, cidrs: seq<CidrText>)

  type Feed = seq<Provider>

  /** The ranges that one refresh fetched. */
  datatype Fetched = Fetched(cloudflare: seq<CidrText>, awsCdn: seq<CidrText>, awsShared: seq<CidrText>)

  const MANAGED := ["cloudflare", "aws_cloudfront", "aws_cloud"]

  function CidrCount(feed: Feed): nat {
    if feed == [] then 0 else CidrCount(feed[..|feed| - 1]) + |feed[|feed| - 1].cidrs|
  }

  function Unmanaged(feed: Feed): Feed {
    if feed == [] then []
    else
      var front, p := Unmanaged(feed[..|feed| - 1]), feed[|feed| - 1];
      if p.name in MANAGED then front else front + [p]
  }

  function FetchedProviders(f: Fetched): Feed {
    [Provider("cloudflare", Some("cdn"), f.cloudflare),
     Provider("aws_cloudfront", Some("cdn"), f.awsCdn),
     Provider("aws_cloud", Some("cloud_shared"), f.awsShared)]
  }

  function BuildFeed(f: Fetched, current: Feed): Feed {
    Unmanaged(current) + FetchedProviders(f)
  }

  /** The number of ranges of a provider; of two with one name the last counts. */
  function CountOf(feed: Feed, name: string): Option<nat> {
    if feed == [] then None
    else if feed[|feed| - 1].name == name then Some(|feed[|feed| - 1].cidrs|)
    else CountOf(feed[..|feed| - 1], name)
  }

  datatype Rejection = ZeroRanges(name: string) | Disappears(name: string) | Shrank(name: string)

  /** A provider may lose at most 30 percent of its ranges. */
  predicate Keeps(before: nat, after: Option<nat>) {
    after.Some? && 10 * after.value >= 7 * before
  }

  ghost predicate Accepted(new_: Feed, current: Feed) {
    && (forall name :: name in MANAGED ==> CountOf(new_, name).Some? && CountOf(new_, name).value > 0)
    && (forall name :: CountOf(current, name).Some? ==> Keeps(CountOf(current, name).value, CountOf(new_, name)))
  }

  lemma {:induction false} CountedIsListed(feed: Feed, name: string)
    ensures CountOf(feed, name).Some? <==> exists p :: p in feed && p.name == name
  {
    if feed != [] {
      CountedIsListed(feed[..|feed| - 1], name);
      if feed[|feed| - 1].name != name && exists p :: p in feed && p.name == name {
        var p :| p in feed && p.name == name;
        assert p in feed[..|feed| - 1];
      }
    }
  }

  /** The reason for a rejection is really there. */
  ghost predicate IsDefect(new_: Feed, current: Feed, why: Rejection) {
    match why
    case ZeroRanges(name) => name in MANAGED && (CountOf(new_, name).None? || CountOf(new_, name) == Some(0))
    case Disappears(name) => CountOf(current, name).Some? && CountOf(new_, name).None?
    case Shrank(name) =>
      && CountOf(current, name).Some? && CountOf(new_, name).Some?
      && 10 * CountOf(new_, name).value < 7 * CountOf(current, name).value
  }

  function OrZero(n: Option<nat>): nat { if n.Some? then n.value else 0 }

  method ValidateFeed(new_: Feed, current: Feed) returns (r: Option<Rejection>)
    ensures r.None? <==> Accepted(new_, current)
    ensures r.Some? ==> IsDefect(new_, current, r.value)
  {
    for i := 0 to |MANAGED|
      invariant forall k :: 0 <= k < i ==> CountOf(new_, MANAGED[k]).Some? && CountOf(new_, MANAGED[k]).value > 0
    {
      var n := CountOf(new_, MANAGED[i]);
      if n.None? || n.value == 0 {
        assert MANAGED[i] in MANAGED;
        return Some(ZeroRanges(MANAGED[i]));
      }
    }
    for i := 0 to |current|
      invariant forall k :: 0 <= k < i ==>
                  Keeps(OrZero(CountOf(current, current[k].name)), CountOf(new_, current[k].name))
    {
      var name := current[i].name;
      CountedIsListed(current, name);
      var before, after := CountOf(current, name).value, CountOf(new_, name);
      if after.None? { return Some(Disappears(name)); }
      if before > 0 && 10 * after.value < 7 * before { return Some(Shrank(name)); }
    }
    forall name | CountOf(current, name).Some? ensures Keeps(CountOf(current, name).value, CountOf(new_, name)) {
      CountedIsListed(current, name);
    }
    return None;
  }

  // ----- the shared copy ------------------------------------------------------------

  /** The more protective of the stored copy and the bundled file, by the number of ranges. */
  function Preferred(baseline: Feed, stored: Option<Feed>): Feed {
    if stored.None? || CidrCount(stored.value) < CidrCount(baseline) then baseline else stored.value
  }

  /** One refresh: `fetched` is none when the fetch itself failed. */
  ghost function Refreshed(baseline: Feed, stored: Option<Feed>, fetched: Option<Fetched>): Option<Feed> {
    if fetched.None? then stored
    else
      var current := Preferred(baseline, stored);
      var feed := BuildFeed(fetched.value, current);
      if Accepted(feed, current) then Some(feed) else stored
  }

  /** The document that every process reads. */
  class ScopeFeedRepo {
    var stored: Option<Feed>

    constructor ()
      ensures stored == None
    {
      stored := None;
    }

    method Refresh(baseline: Feed, fetched: Option<Fetched>) returns (ok: bool)
      modifies this
      ensures stored == Refreshed(baseline, old(stored), fetched)
      ensures ok ==> fetched.Some? && stored == Some(BuildFeed(fetched.value, Preferred(baseline, old(stored))))
      ensures !ok ==> stored == old(stored)
      ensures var own := old(stored).None? || CidrCount(old(stored).value) < CidrCount(baseline);
              var current := if own then baseline else old(stored).value;
              && (ok <==> fetched.Some? && Accepted(BuildFeed(fetched.value, current), current))
              && (ok ==> stored == Some(BuildFeed(fetched.value, current)))
              && (ok ==> forall name :: CountOf(current, name).Some? ==>
                    && CountOf(stored.value, name).Some?
                    && (CountOf(current, name).value - CountOf(stored.value, name).value) as real
                       <= 0.3 * CountOf(current, name).value as real)
    {
      if fetched.None? { return false; }
      var current := Preferred(baseline, stored);
      var feed := BuildFeed(fetched.value, current);
      var rejection := ValidateFeed(feed, current);
      if rejection.Some? { return false; }
      stored := Some(feed);
      return true;
    }
  }

  /** One refresh job: the file bundled with the image that runs it, and what it fetched. */
  datatype Attempt = Attempt(bundled: Feed, fetched: Option<Fetched>)

  /** The copy left by a run of refreshes that starts with an empty store.  The store outlives
      the images: each job may bundle another file. */
  ghost function StoredAfter(run: seq<Attempt>): Option<Feed> {
    if run == [] then None
    else
      var last := run[|run| - 1];
      Refreshed(last.bundled, StoredAfter(run[..|run| - 1]), last.fetched)
  }

  /** What a process whose image bundles `current` loads after the run. */
  ghost function Loaded(current: Feed, run: seq<Attempt>): Feed { Preferred(current, StoredAfter(run)) }

  /** Attempt `i` starts the copy afresh from the file bundled with it. */
  ghost predicate Seeds(run: seq<Attempt>, i: nat)
    requires i < |run|
  {
    var before := StoredAfter(run[..i]);
    && (before.None? || CidrCount(before.value) < CidrCount(run[i].bundled))
    && run[i].fetched.Some? && Accepted(BuildFeed(run[i].fetched.value, run[i].bundled), run[i].bundled)
  }

  lemma {:induction false} UnmanagedConcat(a: Feed, b: Feed)
    ensures Unmanaged(a + b) == Unmanaged(a) + Unmanaged(b)
  {
    if b == [] {
      assert a + b == a;
    } else {
      var n := |b| - 1;
      UnmanagedConcat(a, b[..n]);
      assert (a + b)[..|a + b| - 1] == a + b[..n];
    }
  }

  lemma {:induction false} UnmanagedTwice(feed: Feed)
    ensures Unmanaged(Unmanaged(feed)) == Unmanaged(feed)
  {
    if feed != [] {
      var front, p := feed[..|feed| - 1], feed[|feed| - 1];
      UnmanagedTwice(front);
      if p.name !in MANAGED {
        assert (Unmanaged(front) + [p])[..|Unmanaged(front)|] == Unmanaged(front);
      }
    }
  }

  lemma BuiltKeepsUnmanaged(f: Fetched, current: Feed)
    ensures Unmanaged(BuildFeed(f, current)) == Unmanaged(current)
  {
    UnmanagedConcat(Unmanaged(current), FetchedProviders(f));
    UnmanagedTwice(current);
    AllManaged(FetchedProviders(f));
  }

  lemma {:induction false} AllManaged(feed: Feed)
    requires forall p :: p in feed ==> p.name in MANAGED
    ensures Unmanaged(feed) == []
  {
    if feed != [] { AllManaged(feed[..|feed| - 1]); }
  }

  /** Whatever was fetched, accepted or rejected: the copy holds, word for word, the providers
      that the refresh does not fetch as the last seeding image bundled them. */
  lemma {:induction false} UnmanagedSurvive(run: seq<Attempt>) returns (seed: int)
    ensures -1 <= seed < |run| && (seed == -1 <==> StoredAfter(run).None?)
    ensures seed >= 0 ==> Seeds(run, seed) && Unmanaged(StoredAfter(run).value) == Unmanaged(run[seed].bundled)
    ensures forall i :: seed < i < |run| ==> !Seeds(run, i)
  {
    hide Accepted, CidrCount, Unmanaged, BuildFeed;
    if run == [] {
      seed := -1;
    } else {
      var n := |run| - 1;
      seed := UnmanagedSurvive(run[..n]);
      forall i | 0 <= i < n ensures Seeds(run[..n], i) == Seeds(run, i) {
        assert run[..n][..i] == run[..i];
      }
      var before, last := StoredAfter(run[..n]), run[n];
      if last.fetched.Some? {
        BuiltKeepsUnmanaged(last.fetched.value, Preferred(last.bundled, before));
      }
      if Seeds(run, n) { seed := n; }
    }
  }

  /** So a process loads its own bundled file, or the unmanaged providers of that image;
      never fewer ranges than its own file has. */
  lemma LoadedProviders(current: Feed, run: seq<Attempt>)
    ensures var loaded := Loaded(current, run);
            && CidrCount(loaded) >= CidrCount(current)
            && (loaded == current
                || exists i :: 0 <= i < |run| && Seeds(run, i) && Unmanaged(loaded) == Unmanaged(run[i].bundled)
                               && forall j :: i < j < |run| ==> !Seeds(run, j))
  {
    var seed := UnmanagedSurvive(run);
  }

  // ----- the engine built from a feed -----------------------------------------------

  predicate IsCdnProvider(p: Provider) { p.cls.None? || p.cls == Some("cdn") }

  function NetworksOf(feed: Feed, cdn: bool): seq<Network> {
    if feed == [] then []
    else
      var p := feed[|feed| - 1];
      NetworksOf(feed[..|feed| - 1], cdn) + if IsCdnProvider(p) == cdn then ParseNetworks(p.cidrs) else []
  }

  function EngineOf(feed: Feed, allowPrivate: bool, flags: Address -> Flags): Engine {
    Engine(NetworksOf(feed, true), NetworksOf(feed, false), allowPrivate, flags)
  }

  method FromFeed(feed: Feed, allowPrivate: bool, flags: Address -> Flags) returns (engine: Engine)
    ensures engine == EngineOf(feed, allowPrivate, flags)
  {
    var cdn, shared := [], [];
    for i := 0 to |feed|
      invariant cdn == NetworksOf(feed[..i], true) && shared == NetworksOf(feed[..i], false)
    {
      assert feed[..i + 1][..i] == feed[..i];
      if IsCdnProvider(feed[i]) {
        cdn := cdn + ParseNetworks(feed[i].cidrs);
      } else {
        shared := shared + ParseNetworks(feed[i].cidrs);
      }
    }
    assert feed[..|feed|] == feed;
    engine := Engine(cdn, shared, allowPrivate, flags);
  }

  /** `read` is the stored copy, none if there is none or it could not be read. */
  method BuildScopeEngine(baseline: Feed, read: Option<Feed>, allowPrivate: bool, flags: Address -> Flags)
    returns (engine: Engine)
    ensures engine == EngineOf(Preferred(baseline, read), allowPrivate, flags)
    ensures engine.allowPrivate == allowPrivate && engine.flags == flags
    ensures read.Some? && CidrCount(read.value) >= CidrCount(baseline) ==>
              engine == EngineOf(read.value, allowPrivate, flags)
    ensures read.None? || CidrCount(read.value) < CidrCount(baseline) ==>
              engine == EngineOf(baseline, allowPrivate, flags)
  {
    if read.None? {
      engine := FromFeed(baseline, allowPrivate, flags);
    } else if CidrCount(read.value) < CidrCount(baseline) {
      engine := FromFeed(baseline, allowPrivate, flags);
    } else {
      engine := FromFeed(read.value, allowPrivate, flags);
    }
  }

  /** The provider's ranges hold `a`; with `cdnOnly`, and it is a CDN. */
  ghost predicate Covers(p: Provider, cdnOnly: bool, a: Address) {
    InAny(ParseNetworks(p.cidrs), a) && (cdnOnly ==> p.cls.None? || p.cls == Some("cdn"))
  }

  ghost predicate Covered(feed: Feed, cdnOnly: bool, a: Address) {
    exists p :: p in feed && Covers(p, cdnOnly, a)
  }

  lemma {:induction false} CoveredByClass(feed: Feed, cdn: bool, a: Address)
    ensures InAny(NetworksOf(feed, cdn), a) <==> exists p :: p in feed && IsCdnProvider(p) == cdn && Covers(p, false, a)
  {
    if feed != [] {
      var front, p := feed[..|feed| - 1], feed[|feed| - 1];
      CoveredByClass(front, cdn, a);
      var nets, more := NetworksOf(front, cdn), ParseNetworks(p.cidrs);
      assert InAny(nets + more, a) <==> InAny(nets, a) || InAny(more, a);
      assert nets + [] == nets;
      if exists q :: q in feed && IsCdnProvider(q) == cdn && Covers(q, false, a) {
        var q :| q in feed && IsCdnProvider(q) == cdn && Covers(q, false, a);
        assert q in front || q == p;
      }
    }
  }

  lemma {:induction false} UnmanagedMembers(feed: Feed)
    ensures forall p :: p in Unmanaged(feed) <==>
              p in feed && p.name != "cloudflare" && p.name != "aws_cloudfront" && p.name != "aws_cloud"
  {
    if feed != [] { UnmanagedMembers(feed[..|feed| - 1]); }
  }

  /** Coverage decides the class of an address that is not special-purpose. */
  lemma CoverageClassifies(feed: Feed, allowPrivate: bool, flags: Address -> Flags, a: Address)
    ensures var cls := ClassifyIp(EngineOf(feed, allowPrivate, flags), Ip(a));
            cls in HARD_DENY
              || ((cls == PUBLIC <==> !Covered(feed, false, a)) && (cls == CDN <==> Covered(feed, true, a)))
  {
    hide ParseNetworks, NetworksOf;
    CoveredByClass(feed, true, a);
    CoveredByClass(feed, false, a);
  }

  /** What a refreshed feed makes of an address that is not special-purpose: CDN if Cloudflare's
      or CloudFront's fetched ranges hold it or an unmanaged CDN covers it, PUBLIC if no fetched
      range holds it and no unmanaged provider covers it, and else CLOUD_SHARED. */
  lemma RefreshedClassifies(f: Fetched, current: Feed, allowPrivate: bool, flags: Address -> Flags, a: Address)
    ensures var cls := ClassifyIp(EngineOf(BuildFeed(f, current), allowPrivate, flags), Ip(a));
            var byCdn := InAny(ParseNetworks(f.cloudflare), a) || InAny(ParseNetworks(f.awsCdn), a)
                         || Covered(Unmanaged(current), true, a);
            cls in HARD_DENY
              || (cls == if byCdn then CDN
                         else if InAny(ParseNetworks(f.awsShared), a) || Covered(Unmanaged(current), false, a)
                         then CLOUD_SHARED
                         else PUBLIC)
  {
    hide ParseNetworks, Unmanaged, InAny;
    var ps := FetchedProviders(f);
    forall cdnOnly
      ensures Covered(BuildFeed(f, current), cdnOnly, a)
              <==> Covered(Unmanaged(current), cdnOnly, a)
                   || Covers(ps[0], cdnOnly, a) || Covers(ps[1], cdnOnly, a) || Covers(ps[2], cdnOnly, a)
    {
      CoveredByMore(Unmanaged(current), ps, cdnOnly, a);
    }
    CoverageClassifies(BuildFeed(f, current), allowPrivate, flags, a);
  }

  lemma CoveredByMore(feed: Feed, ps: Feed, cdnOnly: bool, a: Address)
    requires |ps| == 3
    ensures Covered(feed + ps, cdnOnly, a)
            <==> Covered(feed, cdnOnly, a)
                 || Covers(ps[0], cdnOnly, a) || Covers(ps[1], cdnOnly, a) || Covers(ps[2], cdnOnly, a)
  {
    hide Covers;
    assert ps[0] in feed + ps && ps[1] in feed + ps && ps[2] in feed + ps;
    assert forall p :: p in feed + ps <==> p in feed || p == ps[0] || p == ps[1] || p == ps[2];
  }

  // ----- what no refresh takes away -------------------------------------------------

  /** The run's jobs ran in images that bundle these files, in this order. */
  ghost predicate Ships(run: seq<Attempt>, bundles: seq<Feed>) {
    |run| == |bundles| && forall i :: 0 <= i < |run| ==> run[i].bundled == bundles[i]
  }

  /** Whatever the refreshes fetch, a process that bundles `current` knows the address. */
  ghost predicate AlwaysKnown(bundles: seq<Feed>, current: Feed, cdnOnly: bool, a: Address) {
    forall run :: Ships(run, bundles) ==> Covered(Loaded(current, run), cdnOnly, a)
  }

  lemma {:induction false} CountConcat(a: Feed, b: Feed)
    ensures CidrCount(a + b) == CidrCount(a) + CidrCount(b)
    ensures forall name :: CountOf(a + b, name) == if CountOf(b, name).Some? then CountOf(b, name) else CountOf(a, name)
  {
    if b == [] {
      assert a + b == a;
    } else {
      var n := |b| - 1;
      CountConcat(a, b[..n]);
      assert (a + b)[..|a + b| - 1] == a + b[..n];
    }
  }

  lemma {:induction false} UnmanagedCounts(feed: Feed)
    ensures forall name :: name !in MANAGED ==> CountOf(Unmanaged(feed), name) == CountOf(feed, name)
    ensures forall name :: CountOf(feed, name).Some? ==> CountOf(feed, name).value <= CidrCount(feed)
  {
    if feed != [] {
      var front, p := feed[..|feed| - 1], feed[|feed| - 1];
      UnmanagedCounts(front);
      if p.name !in MANAGED {
        assert (Unmanaged(front) + [p])[..|Unmanaged(front)|] == Unmanaged(front);
      }
    }
  }

  /** A fetch of ranges that cover nothing, but many of them. */
  ghost function Junk(n: nat): seq<CidrText> { seq(n, i => BadCidr) }

  lemma {:induction false} JunkCoversNothing(n: nat, a: Address)
    ensures !InAny(ParseNetworks(Junk(n)), a)
  {
    if n != 0 {
      assert Junk(n)[1..] == Junk(n - 1);
      JunkCoversNothing(n - 1, a);
    }
  }

  lemma FetchedCounts(f: Fetched, name: string)
    ensures CountOf(FetchedProviders(f), name)
            == if name == "aws_cloud" then Some(|f.awsShared|)
               else if name == "aws_cloudfront" then Some(|f.awsCdn|)
               else if name == "cloudflare" then Some(|f.cloudflare|)
               else None
    ensures CidrCount(FetchedProviders(f)) == |f.cloudflare| + |f.awsCdn| + |f.awsShared|
  {
    var ps := FetchedProviders(f);
    assert ps[..2] == [ps[0], ps[1]] && ps[..2][..1] == [ps[0]] && [ps[0]][..0] == [];
    assert CountOf([ps[0]], name) == if name == "cloudflare" then Some(|f.cloudflare|) else None;
    assert CidrCount([ps[0]]) == |f.cloudflare|;
    assert CidrCount(ps[..2]) == CidrCount([ps[0]]) + |f.awsCdn|;
  }

  lemma JunkIsAccepted(baseline: Feed, n: nat)
    requires n > CidrCount(baseline)
    ensures var feed := BuildFeed(Fetched(Junk(n), Junk(n), Junk(n)), baseline);
            Accepted(feed, baseline) && CidrCount(feed) >= CidrCount(baseline)
  {
    hide CountOf, CidrCount, Unmanaged, FetchedProviders;
    var f := Fetched(Junk(n), Junk(n), Junk(n));
    CountConcat(Unmanaged(baseline), FetchedProviders(f));
    UnmanagedCounts(baseline);
    FetchedCounts(f, "");
    forall name
      ensures name in MANAGED ==> CountOf(FetchedProviders(f), name) == Some(n)
      ensures name !in MANAGED ==> CountOf(FetchedProviders(f), name) == None
    {
      FetchedCounts(f, name);
    }
  }

  /** An address is always known exactly if the file in force covers it, and so does, by the
      providers that the refresh does not fetch, every file that any refresh has run with. */
  lemma AlwaysKnownIff(bundles: seq<Feed>, current: Feed, cdnOnly: bool, a: Address)
    ensures AlwaysKnown(bundles, current, cdnOnly, a)
            <==> Covered(current, cdnOnly, a) && forall b :: b in bundles ==> Covered(Unmanaged(b), cdnOnly, a)
  {
    hide StoredAfter, Covered, Preferred, Seeds;
    if Covered(current, cdnOnly, a) && forall b :: b in bundles ==> Covered(Unmanaged(b), cdnOnly, a) {
      forall run | Ships(run, bundles) ensures Covered(Loaded(current, run), cdnOnly, a) {
        LoadedProviders(current, run);
        UnmanagedCover(Loaded(current, run), cdnOnly, a);
      }
    }
    if AlwaysKnown(bundles, current, cdnOnly, a) {
      var quiet := seq(|bundles|, i requires 0 <= i < |bundles| => Attempt(bundles[i], None));
      assert Ships(quiet, bundles);
      QuietRun(quiet);
      assert Loaded(current, quiet) == current by { NothingStored(current); }
      forall k | 0 <= k < |bundles| ensures Covered(Unmanaged(bundles[k]), cdnOnly, a) {
        var run := JunkRun(bundles, current, k, cdnOnly, a);
      }
    }
  }

  lemma NothingStored(current: Feed)
    ensures Preferred(current, None) == current
  {}

  lemma UnmanagedCover(feed: Feed, cdnOnly: bool, a: Address)
    ensures Covered(Unmanaged(feed), cdnOnly, a) ==> Covered(feed, cdnOnly, a)
  {
    UnmanagedMembers(feed);
  }

  lemma {:induction false} QuietRun(run: seq<Attempt>)
    requires forall i :: 0 <= i < |run| ==> run[i].fetched.None?
    ensures StoredAfter(run).None?
  {
    if run != [] { QuietRun(run[..|run| - 1]); }
  }

  lemma {:induction false} QuietTail(run: seq<Attempt>, k: nat)
    requires k <= |run| && forall i :: k <= i < |run| ==> run[i].fetched.None?
    ensures StoredAfter(run) == StoredAfter(run[..k])
  {
    if k == |run| {
      assert run[..k] == run;
    } else {
      QuietTail(run[..|run| - 1], k);
      assert run[..|run| - 1][..k] == run[..k];
    }
  }

  /** Only refresh `k` fetches, and only junk: after it just the unmanaged ranges are known. */
  lemma JunkRun(bundles: seq<Feed>, current: Feed, k: nat, cdnOnly: bool, a: Address) returns (run: seq<Attempt>)
    requires k < |bundles|
    ensures Ships(run, bundles)
    ensures Covered(Loaded(current, run), cdnOnly, a) ==> Covered(Unmanaged(bundles[k]), cdnOnly, a)
  {
    hide Accepted, Unmanaged, Covers;
    var n := CidrCount(bundles[k]) + CidrCount(current) + 1;
    var f := Fetched(Junk(n), Junk(n), Junk(n));
    run := seq(|bundles|, i requires 0 <= i < |bundles| => Attempt(bundles[i], if i == k then Some(f) else None));
    QuietRun(run[..k]);
    assert run[..k + 1][..k] == run[..k];
    JunkIsAccepted(bundles[k], n);
    var feed := BuildFeed(f, bundles[k]);
    assert StoredAfter(run[..k + 1]) == Some(feed);
    QuietTail(run, k + 1);
    assert Loaded(current, run) == feed;
    if Covered(feed, cdnOnly, a) {
      JunkKnowsNothing(bundles[k], n, cdnOnly, a);
    }
  }

  lemma JunkKnowsNothing(baseline: Feed, n: nat, cdnOnly: bool, a: Address)
    requires Covered(BuildFeed(Fetched(Junk(n), Junk(n), Junk(n)), baseline), cdnOnly, a)
    ensures Covered(Unmanaged(baseline), cdnOnly, a)
  {
    var feed := BuildFeed(Fetched(Junk(n), Junk(n), Junk(n)), baseline);
    var p :| p in feed && Covers(p, cdnOnly, a);
    JunkCoversNothing(n, a);
    assert p in Unmanaged(baseline);
  }

  /** Loading never drops a range, or the CDN class of one, that the file in force has. */
  ghost predicate NeverLessProtective(bundles: seq<Feed>, current: Feed) {
    forall cdnOnly, a :: Covered(current, cdnOnly, a) ==> AlwaysKnown(bundles, current, cdnOnly, a)
  }

  /** The load path is documented to be never less protective than the bundled file.  It
      compares numbers of ranges only, so that holds exactly if every file bundled with a
      refresh covers, by the providers that the refresh does not fetch, all that the file
      in force covers. */
  lemma NeverLessProtectiveIff(bundles: seq<Feed>, current: Feed)
    ensures NeverLessProtective(bundles, current)
            <==> forall b, cdnOnly, a :: b in bundles && Covered(current, cdnOnly, a) ==>
                   Covered(Unmanaged(b), cdnOnly, a)
  {
    hide AlwaysKnown, Covered;
    forall cdnOnly, a
      ensures AlwaysKnown(bundles, current, cdnOnly, a)
              <==> Covered(current, cdnOnly, a) && forall b :: b in bundles ==> Covered(Unmanaged(b), cdnOnly, a)
    {
      AlwaysKnownIff(bundles, current, cdnOnly, a);
    }
  }

  /** In terms of engines: a routable address is never PUBLIC, and always a CDN's, on the
      same condition. */
  lemma NeverPublicIff(bundles: seq<Feed>, current: Feed, allowPrivate: bool, flags: Address -> Flags, a: Address)
    requires ClassifyIp(EngineOf([], allowPrivate, flags), Ip(a)) !in HARD_DENY
    ensures (forall run :: Ships(run, bundles) ==>
               ClassifyIp(EngineOf(Loaded(current, run), allowPrivate, flags), Ip(a)) != PUBLIC)
            <==> Covered(current, false, a) && forall b :: b in bundles ==> Covered(Unmanaged(b), false, a)
    ensures (forall run :: Ships(run, bundles) ==>
               ClassifyIp(EngineOf(Loaded(current, run), allowPrivate, flags), Ip(a)) == CDN)
            <==> Covered(current, true, a) && forall b :: b in bundles ==> Covered(Unmanaged(b), true, a)
  {
    hide Loaded, Covered;
    AlwaysKnownIff(bundles, current, false, a);
    AlwaysKnownIff(bundles, current, true, a);
    forall run
      ensures ClassifyIp(EngineOf(Loaded(current, run), allowPrivate, flags), Ip(a)) != PUBLIC
              <==> Covered(Loaded(current, run), false, a)
      ensures ClassifyIp(EngineOf(Loaded(current, run), allowPrivate, flags), Ip(a)) == CDN
              <==> Covered(Loaded(current, run), true, a)
    {
      CoverageClassifies(Loaded(current, run), allowPrivate, flags, a);
    }
  }

  /** An address in the ranges of a provider that the refresh does not fetch, and that every
      image so far has bundled, is never PUBLIC in any engine built later, and never
      CLOUD_SHARED if they are a CDN's. */
  lemma UnmanagedNeverPublic(run: seq<Attempt>, current: Feed, allowPrivate: bool, flags: Address -> Flags,
                             p: Provider, a: Address)
    requires p.name !in MANAGED && Covers(p, false, a)
    requires p in current && forall i :: 0 <= i < |run| ==> p in run[i].bundled
    ensures var cls := ClassifyIp(EngineOf(Loaded(current, run), allowPrivate, flags), Ip(a));
            cls != PUBLIC && (IsCdnProvider(p) ==> cls != CLOUD_SHARED)
  {
    hide StoredAfter, Preferred, Unmanaged, ClassifyIp, Seeds;
    var loaded := Loaded(current, run);
    LoadedProviders(current, run);
    UnmanagedMembers(loaded);
    forall i | 0 <= i < |run| ensures p in Unmanaged(run[i].bundled) {
      UnmanagedMembers(run[i].bundled);
    }
    assert p in loaded;
    CoverageClassifies(loaded, allowPrivate, flags, a);
    assert CLOUD_SHARED !in HARD_DENY && PUBLIC !in HARD_DENY;
  }

  /** A single address, written as a range. */
  ghost function One(value: nat): CidrText { Cidr(4, value, 32) }

  lemma OneCovers(p: Provider, value: nat, cdnOnly: bool, a: Address)
    requires p.cidrs == [One(value)]
    ensures Covers(p, cdnOnly, a) <==> a == Address(4, value) && (cdnOnly ==> IsCdnProvider(p))
  {
    var net := Network(4, value, 32);
    SameQuotient(value, value, 1);
    assert ParseNetwork(One(value)) == Some(net);
    assert ParseNetworks(p.cidrs) == [net] + ParseNetworks([]);
    assert Contains(net, a) <==> a == Address(4, value);
    assert net in [net];
  }

  lemma {:induction false} OnesCounted(feed: Feed)
    requires forall p :: p in feed ==> |p.cidrs| == 1
    ensures CidrCount(feed) == |feed|
    ensures forall name :: CountOf(feed, name) == if exists p :: p in feed && p.name == name then Some(1) else None
  {
    if feed != [] {
      OnesCounted(feed[..|feed| - 1]);
      forall name ensures CountOf(feed, name) == if exists p :: p in feed && p.name == name then Some(1) else None {
        CountedIsListed(feed, name);
      }
    }
  }

  lemma FirstRefresh(bundled: Feed, f: Fetched)
    requires Accepted(BuildFeed(f, bundled), bundled)
    ensures StoredAfter([Attempt(bundled, Some(f))]) == Some(BuildFeed(f, bundled))
  {
    hide Accepted, BuildFeed;
    var run := [Attempt(bundled, Some(f))];
    assert run[..0] == [];
  }

  const FASTLY := Provider("fastly", Some("cdn"), [Cidr(4, 1, 32)])
  const AKAMAI := Provider("akamai", Some("cdn"), [Cidr(4, 2, 32)])
  const FETCHED := Fetched([Cidr(4, 3, 32)], [Cidr(4, 4, 32)], [Cidr(4, 5, 32)])

  lemma FastlyIsKept()
    ensures BuildFeed(FETCHED, [FASTLY]) == [FASTLY] + FetchedProviders(FETCHED)
    ensures Accepted(BuildFeed(FETCHED, [FASTLY]), [FASTLY])
    ensures CidrCount(BuildFeed(FETCHED, [FASTLY])) == 4 && CidrCount([FASTLY, AKAMAI]) == 2
  {
    hide CountOf, CidrCount;
    var stored := [FASTLY] + FetchedProviders(FETCHED);
    assert [FASTLY][..0] == [] && Unmanaged([FASTLY]) == [] + [FASTLY];
    OnesCounted(stored);
    OnesCounted([FASTLY]);
    OnesCounted([FASTLY, AKAMAI]);
    assert stored[0] == FASTLY && stored[1].name == "cloudflare" && stored[2].name == "aws_cloudfront"
           && stored[3].name == "aws_cloud";
    assert forall p :: p in [FASTLY] ==> p == FASTLY;
  }

  /** A newer image's additions can be lost, although they are ranges that the refresh does
      not own: here the copy was seeded by an image that lacks one of them. */
  lemma UpgradeLosesRange() returns (run: seq<Attempt>, current: Feed, a: Address)
    ensures forall p :: p in current ==> p.name !in MANAGED
    ensures |run| == 1 && run[0].bundled <= current
    ensures Covered(current, true, a) && !Covered(Loaded(current, run), false, a)
  {
    hide CountOf, CidrCount, Covers, BuildFeed, Accepted, StoredAfter;
    current, a := [FASTLY, AKAMAI], Address(4, 2);
    run := [Attempt([FASTLY], Some(FETCHED))];
    var stored := [FASTLY] + FetchedProviders(FETCHED);
    FastlyIsKept();
    FirstRefresh([FASTLY], FETCHED);
    assert Loaded(current, run) == stored;
    OneCovers(AKAMAI, 2, true, a);
    assert AKAMAI in current;
    forall p | p in stored ensures !Covers(p, false, a) {
      var i :| 0 <= i < 4 && p == stored[i];
      OneCovers(p, [1, 3, 4, 5][i], false, a);
    }
  }
}
