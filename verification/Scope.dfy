/**
  The scope engine (core/scope.py): what a scan may do to a host, given the addresses it
  resolves to.  Addresses and networks are numbers; how Python's ipaddress module sorts
  the special-purpose addresses is a parameter.
*/
module Scope {
  import opened Powers
  import opened Splitting
  import opened Wrappers

  // ----- addresses and networks -----------------------------------------------------

  datatype Address = Address(version: int, value: nat)

  /** An address as text: either it parses or it does not. */
  datatype IpText = BadIp | Ip(addr: Address)

  /** A block in prefix notation: `base` is a multiple of the block size. */
  datatype Network = Network(version: int, base: nat, prefix: nat)

  /** A CIDR as text: absent or empty, unparseable, or an address with a prefix length. */
  datatype CidrText = NoCidr | BadCidr | Cidr(version: int, value: nat, prefix: nat)

  function Width(version: int): nat { if version == 4 then 32 else 128 }

  function BlockSize(version: int, prefix: nat): (size: nat)
    ensures size >= 1
  {
    if prefix <= Width(version) then Pow2(Width(version) - prefix) else 1
  }

  predicate Contains(net: Network, a: Address) {
    a.version == net.version && net.base <= a.value < net.base + BlockSize(net.version, net.prefix)
  }

  predicate SubnetOf(a: Network, b: Network) {
    a.version == b.version && b.base <= a.base
    && a.base + BlockSize(a.version, a.prefix) <= b.base + BlockSize(b.version, b.prefix)
  }

  /** The multiple of `size` at or below `x`: masking off the host bits. */
  function RoundDown(x: nat, size: nat): (r: nat)
    requires size >= 1
    ensures r <= x < r + size
  {
    assert x == x / size * size + x % size;
    x / size * size
  }

  /** Parsing with host bits allowed: they are masked off. */
  function ParseNetwork(c: CidrText): (net: Option<Network>)
    ensures net.Some? <==> c.Cidr?
  {
    match c
    case Cidr(version, value, prefix) => Some(Network(version, RoundDown(value, BlockSize(version, prefix)), prefix))
    case _ => None
  }

  /** A block holds exactly the addresses that share the prefix bits of the given one. */
  lemma BlockIsPrefix(c: CidrText, a: Address)
    requires c.Cidr?
    ensures var size := BlockSize(c.version, c.prefix);
            Contains(ParseNetwork(c).value, a) <==> a.version == c.version && a.value / size == c.value / size
  {
    hide BlockSize;
    var size := BlockSize(c.version, c.prefix);
    SameQuotient(a.value, c.value / size, size);
  }

  lemma SameQuotient(x: nat, q: nat, size: nat)
    requires size >= 1
    ensures q * size <= x < q * size + size <==> x / size == q
  {
    var k, r := x / size, x % size;
    assert x == k * size + r;
    if k < q { ScaleUp(k + 1, q, size); }
    if k > q { ScaleUp(q + 1, k, size); }
  }

  lemma ScaleUp(a: nat, b: nat, size: nat)
    requires a <= b
    ensures a * size <= b * size
  {}

  /** A subnet is a subset. */
  lemma SubnetIsSubset(a: Network, b: Network)
    ensures SubnetOf(a, b) <==> forall x :: Contains(a, x) ==> Contains(b, x)
  {
    var first := Address(a.version, a.base);
    var last := Address(a.version, a.base + BlockSize(a.version, a.prefix) - 1);
    assert Contains(a, first) && Contains(a, last);
    if forall x :: Contains(a, x) ==> Contains(b, x) {
      assert Contains(b, first) && Contains(b, last);
    }
  }

  /** Unparseable entries are dropped. */
  function ParseNetworks(cs: seq<CidrText>): seq<Network> {
    if cs == [] then []
    else
      var net := ParseNetwork(cs[0]);
      (if net.Some? then [net.value] else []) + ParseNetworks(cs[1..])
  }

  lemma {:induction false} ParsedNetworks(cs: seq<CidrText>, net: Network)
    ensures net in ParseNetworks(cs) <==> exists c :: c in cs && ParseNetwork(c) == Some(net)
  {
    if cs != [] {
      ParsedNetworks(cs[1..], net);
      if net in ParseNetworks(cs) {
        if ParseNetwork(cs[0]) != Some(net) {
          var c :| c in cs[1..] && ParseNetwork(c) == Some(net);
        }
      }
    }
  }

  predicate InAny(nets: seq<Network>, a: Address) {
    exists n :: n in nets && Contains(n, a)
  }

  // ----- classification -------------------------------------------------------------

  datatype IpClass =
    | DEDICATED | CDN | CLOUD_SHARED | PUBLIC | PRIVATE | LOOPBACK
    | LINK_LOCAL | CGNAT | MULTICAST | RESERVED | UNSPECIFIED

  const HARD_DENY := {PRIVATE, LOOPBACK, LINK_LOCAL, CGNAT, MULTICAST, RESERVED, UNSPECIFIED}
  const NEVER_OVERRIDABLE := {LINK_LOCAL}

  datatype Action = PASSIVE_RECON | HTTP_PROBE | TLS_INSPECT | PORT_SCAN | CONTENT_DISCOVERY | ACTIVE_SCAN

  const FULL_ACTIONS := {PASSIVE_RECON, HTTP_PROBE, TLS_INSPECT, PORT_SCAN, CONTENT_DISCOVERY, ACTIVE_SCAN}
  const HTTP_LAYER_ACTIONS := {PASSIVE_RECON, HTTP_PROBE, TLS_INSPECT}

  /** What ipaddress says of an address. */
  datatype Flags = Flags(unspecified: bool, loopback: bool, linkLocal: bool, multicast: bool, isPrivate: bool,
                         reserved: bool)

  const CGNAT_BLOCK := Network(4, 0x6440_0000, 10)

  datatype Engine = Engine(cdn: seq<Network>, cloudShared: seq<Network>, allowPrivate: bool, flags: Address -> Flags)

  /** Never DEDICATED: that is a decision about ownership, not a property of an address. */
  function ClassifyIp(engine: Engine, ip: IpText): (cls: IpClass)
    ensures cls != DEDICATED
    ensures ip.BadIp? ==> cls in HARD_DENY && cls !in NEVER_OVERRIDABLE
    ensures cls == CDN ==> InAny(engine.cdn, ip.addr)
    ensures cls == PUBLIC ==> !InAny(engine.cdn, ip.addr) && !InAny(engine.cloudShared, ip.addr)
    ensures cls == CLOUD_SHARED ==> !InAny(engine.cdn, ip.addr) && InAny(engine.cloudShared, ip.addr)
  {
    match ip
    case BadIp => RESERVED
    case Ip(a) =>
      var f := engine.flags(a);
      if f.unspecified then UNSPECIFIED
      else if f.loopback then LOOPBACK
      else if f.linkLocal then LINK_LOCAL
      else if f.multicast then MULTICAST
      else if a.version == 4 && Contains(CGNAT_BLOCK, a) then CGNAT
      else if f.isPrivate then PRIVATE
      else if f.reserved then RESERVED
      else if InAny(engine.cdn, a) then CDN
      else if InAny(engine.cloudShared, a) then CLOUD_SHARED
      else PUBLIC
  }

  /** The shared address space: 100.64.0.0 to 100.127.255.255, by its first two octets. */
  predicate IsCgnat(a: Address) {
    a.version == 4 && a.value / 0x100_0000 == 100 && 64 <= a.value / 0x1_0000 % 0x100 <= 127
  }

  lemma CgnatByOctets(a: Address)
    ensures a.version == 4 && Contains(CGNAT_BLOCK, a) <==> IsCgnat(a)
  {
    assert Pow2(6) == 64 && Pow2(12) == 64 * Pow2(6) && Pow2(18) == 64 * Pow2(12) && Pow2(22) == 16 * Pow2(18);
    assert BlockSize(4, 10) == 0x40_0000;
    var high := a.value / 0x1_0000;
    assert a.value / 0x100_0000 == high / 0x100;
  }

  /** Private, and nothing that is checked before that. */
  predicate JustPrivate(f: Flags, a: Address) {
    f.isPrivate && !f.unspecified && !f.loopback && !f.linkLocal && !f.multicast && !IsCgnat(a)
  }

  /** Some special-purpose range holds the address. */
  predicate IsSpecial(f: Flags, a: Address) {
    f.unspecified || f.loopback || f.linkLocal || f.multicast || f.isPrivate || f.reserved || IsCgnat(a)
  }

  /** Each class, from the flags: the first of the checks that applies decides. */
  lemma ClassesByFlags(engine: Engine, a: Address)
    ensures var f, cls := engine.flags(a), ClassifyIp(engine, Ip(a));
            && (cls == UNSPECIFIED <==> f.unspecified)
            && (cls == LOOPBACK <==> f.loopback && !f.unspecified)
            && (cls == LINK_LOCAL <==> f.linkLocal && !f.loopback && !f.unspecified)
            && (cls == MULTICAST <==> f.multicast && !f.linkLocal && !f.loopback && !f.unspecified)
            && (cls == CGNAT <==> IsCgnat(a) && !f.multicast && !f.linkLocal && !f.loopback && !f.unspecified)
            && (cls == PRIVATE <==> JustPrivate(f, a))
            && (cls == RESERVED <==> f.reserved && !f.isPrivate && !IsCgnat(a) && !f.multicast && !f.linkLocal
                                     && !f.loopback && !f.unspecified)
            && (cls in HARD_DENY <==> IsSpecial(f, a))
            && (cls == CDN <==> !IsSpecial(f, a) && InAny(engine.cdn, a))
            && (cls == CLOUD_SHARED <==> !IsSpecial(f, a) && !InAny(engine.cdn, a) && InAny(engine.cloudShared, a))
            && (cls == PUBLIC <==> !IsSpecial(f, a) && !InAny(engine.cdn, a) && !InAny(engine.cloudShared, a))
    ensures ClassifyIp(engine, BadIp) == RESERVED
  {
    hide Contains, IsCgnat;
    CgnatByOctets(a);
  }

  // ----- hosts ----------------------------------------------------------------------

  function LowerChar(c: char): (l: char)
    ensures !('A' <= l <= 'Z')
    ensures l == c || ('A' <= c <= 'Z' && l as int - 'a' as int == c as int - 'A' as int)
  {
    if 'A' <= c <= 'Z' then (c as int - 'A' as int + 'a' as int) as char else c
  }

  function Lower(s: string): (l: string)
    ensures |l| == |s| && forall i :: 0 <= i < |s| ==> l[i] == LowerChar(s[i])
  {
    seq(|s|, i requires 0 <= i < |s| => LowerChar(s[i]))
  }

  function StripDots(s: string): (r: string)
    ensures r <= s && (r != [] ==> r[|r| - 1] != '.') && forall i :: |r| <= i < |s| ==> s[i] == '.'
  {
    if s != [] && s[|s| - 1] == '.' then StripDots(s[..|s| - 1]) else s
  }

  /** Hosts are compared in lower case, without trailing dots. */
  function Normal(host: string): string { StripDots(Lower(host)) }

  predicate EndsWith<T(==)>(s: seq<T>, tail: seq<T>) {
    |tail| <= |s| && s[|s| - |tail|..] == tail
  }

  predicate IsUnder(h: string, a: string) {
    h == a || EndsWith(h, "." + a)
  }

  /** Being under an apex is a matter of whole labels: evilexample.com is not under example.com. */
  lemma UnderIsByLabels(h: string, a: string)
    ensures IsUnder(h, a) <==> EndsWith(Split(h, '.'), Split(a, '.'))
  {
    if EndsWith(h, "." + a) { TailIsLabels(h, a); }
    if EndsWith(Split(h, '.'), Split(a, '.')) { LabelsAreTail(h, a); }
    assert Split(h, '.')[0..] == Split(h, '.');
  }

  lemma TailIsLabels(h: string, a: string)
    requires EndsWith(h, "." + a)
    ensures EndsWith(Split(h, '.'), Split(a, '.'))
  {
    var x := h[..|h| - |a| - 1];
    assert h == x + ['.'] + a;
    SplitConcat(x, a, '.');
  }

  lemma LabelsAreTail(h: string, a: string)
    requires EndsWith(Split(h, '.'), Split(a, '.'))
    ensures IsUnder(h, a)
  {
    hide Split, Join;
    JoinSplit(h, '.');
    JoinSplit(a, '.');
    var hs, ls := Split(h, '.'), Split(a, '.');
    var front := hs[..|hs| - |ls|];
    assert hs == front + ls;
    if front == [] {
      assert hs == ls;
    } else {
      JoinConcat(front, ls, '.');
      var x := Join(front, '.');
      assert h == x + ['.'] + a;
      assert h[|h| - |a| - 1..] == "." + a;
    }
  }

  // ----- scopes and decisions -------------------------------------------------------

  datatype ProgramScope = ProgramScope(
    verifiedApexes: seq<string>,
    excludedHosts: set<string>,
    excludedCidrs: seq<CidrText>,
    dedicatedCidrs: seq<CidrText>,
    scanSharedInfra: bool,
    scopeOverride: bool)

  predicate OwnsHost(scope: ProgramScope, host: string) {
    exists a :: a in scope.verifiedApexes && IsUnder(Normal(host), Normal(a))
  }

  predicate HostExcluded(scope: ProgramScope, host: string) {
    exists h :: h in scope.excludedHosts && Normal(h) == Normal(host)
  }

  datatype Decision = Decision(allowed: bool, ipClass: Option<IpClass>, actions: set<Action>)

  /** evaluate parses each address a second time and lets the failure escape. */
  datatype ValueError = ValueError

  predicate HardDenied(engine: Engine, scope: ProgramScope, ip: IpText) {
    var cls := ClassifyIp(engine, ip);
    && cls in HARD_DENY
    && !(engine.allowPrivate && cls == PRIVATE)
    && !(scope.scopeOverride && cls !in NEVER_OVERRIDABLE)
  }

  predicate CidrExcluded(scope: ProgramScope, ip: IpText) {
    ip.Ip? && InAny(ParseNetworks(scope.excludedCidrs), ip.addr)
  }

  /** One such address denies the host. */
  predicate Refused(engine: Engine, scope: ProgramScope, ip: IpText) {
    HardDenied(engine, scope, ip) || CidrExcluded(scope, ip)
  }

  predicate IsDedicated(engine: Engine, scope: ProgramScope, ip: IpText) {
    var cls := ClassifyIp(engine, ip);
    || scope.scopeOverride
    || (engine.allowPrivate && cls == PRIVATE)
    || (scope.scanSharedInfra && cls in {CLOUD_SHARED, PUBLIC})
    || (cls != CDN && ip.Ip? && InAny(ParseNetworks(scope.dedicatedCidrs), ip.addr))
  }

  ghost predicate HostPasses(scope: ProgramScope, host: string) {
    (OwnsHost(scope, host) || scope.scopeOverride) && !HostExcluded(scope, host)
  }

  /** The verdict, in terms of the set of addresses: order and repetition do not matter. */
  ghost predicate MayTouch(engine: Engine, scope: ProgramScope, host: string, ips: set<IpText>) {
    HostPasses(scope, host) && forall ip :: ip in ips ==> !Refused(engine, scope, ip)
  }

  ghost function Granted(engine: Engine, scope: ProgramScope, host: string, ips: set<IpText>): set<Action> {
    if !MayTouch(engine, scope, host, ips) then {}
    else if ips == {} then {PASSIVE_RECON}
    else if forall ip :: ip in ips ==> IsDedicated(engine, scope, ip) then FULL_ACTIONS
    else HTTP_LAYER_ACTIONS
  }

  ghost function IpSet(ips: seq<IpText>): set<IpText> { set ip | ip in ips }

  /** The call fails when the override waives the denial of an unparseable address that is
      reached before any address that denies the host. */
  ghost predicate Fails(engine: Engine, scope: ProgramScope, host: string, ips: seq<IpText>) {
    && HostPasses(scope, host) && scope.scopeOverride
    && exists i :: 0 <= i < |ips| && ips[i].BadIp? && forall j :: 0 <= j < i ==> !Refused(engine, scope, ips[j])
  }

  method Evaluate(engine: Engine, host: string, ips: seq<IpText>, scope: ProgramScope)
    returns (r: Result<Decision, ValueError>)
    ensures r.Err? <==> Fails(engine, scope, host, ips)
    ensures r.Ok? ==> r.value.allowed == MayTouch(engine, scope, host, IpSet(ips))
    ensures r.Ok? ==> r.value.actions == Granted(engine, scope, host, IpSet(ips))
    ensures r.Ok? && PORT_SCAN in r.value.actions ==> r.value.ipClass == Some(DEDICATED)
    ensures r.Ok? && r.value.actions == HTTP_LAYER_ACTIONS ==>
              exists i :: 0 <= i < |ips| && r.value.ipClass == Some(ClassifyIp(engine, ips[i]))
                          && !IsDedicated(engine, scope, ips[i])
                          && forall j :: 0 <= j < i ==> IsDedicated(engine, scope, ips[j])
    ensures r.Ok? && !r.value.allowed && HostPasses(scope, host) ==>
              exists i :: 0 <= i < |ips| && r.value.ipClass == Some(ClassifyIp(engine, ips[i]))
                          && Refused(engine, scope, ips[i])
                          && forall j :: 0 <= j < i ==> !Refused(engine, scope, ips[j])
    ensures r.Ok? && (ips == [] || !HostPasses(scope, host)) ==> r.value.ipClass == None
    ensures r.Ok? ==> DecidesByFlags(engine, host, ips, scope, r.value)
    ensures r.Err? ==> scope.scopeOverride && BadIp in ips
  {
    hide *;
    HostVerdict(engine, scope, host, ips);
    if !Fails(engine, scope, host, ips) { DecisionsByFlags(engine, host, ips, scope); }
    FailureNeedsBadIp(engine, scope, host, ips);
    if !OwnsHost(scope, host) && !scope.scopeOverride { return Ok(Decision(false, None, {})); }
    if HostExcluded(scope, host) { return Ok(Decision(false, None, {})); }
    if ips == [] { return Ok(Decision(true, None, {PASSIVE_RECON})); }

    var excludedNets, dedicatedNets := ParseNetworks(scope.excludedCidrs), ParseNetworks(scope.dedicatedCidrs);
    var representative: Option<IpClass> := None;
    for i := 0 to |ips|
      invariant forall j :: 0 <= j < i ==> ips[j].Ip? && !Refused(engine, scope, ips[j])
      invariant representative.None? <==> forall j :: 0 <= j < i ==> IsDedicated(engine, scope, ips[j])
      invariant representative.Some? ==>
                  exists k :: 0 <= k < i && representative == Some(ClassifyIp(engine, ips[k]))
                              && !IsDedicated(engine, scope, ips[k])
                              && forall j :: 0 <= j < k ==> IsDedicated(engine, scope, ips[j])
    {
      var judgement := Judge(engine, scope, ips[i], excludedNets, dedicatedNets);
      match judgement {
        case Deny(cls) =>
          VerdictWhenRefused(engine, scope, host, ips, i);
          return Ok(Decision(false, Some(cls), {}));
        case Raise =>
          VerdictWhenRaised(engine, scope, host, ips, i);
          return Err(ValueError);
        case Own =>
        case Shared(cls) => if representative.None? { representative := Some(cls); }
      }
    }
    VerdictOtherwise(engine, scope, host, ips);
    if representative.None? {
      return Ok(Decision(true, Some(DEDICATED), FULL_ACTIONS));
    }
    return Ok(Decision(true, representative, HTTP_LAYER_ACTIONS));
  }

  lemma HostVerdict(engine: Engine, scope: ProgramScope, host: string, ips: seq<IpText>)
    ensures HostPasses(scope, host) <==> (OwnsHost(scope, host) || scope.scopeOverride) && !HostExcluded(scope, host)
    ensures !HostPasses(scope, host) || ips == [] ==> !Fails(engine, scope, host, ips)
    ensures !HostPasses(scope, host) ==>
              !MayTouch(engine, scope, host, IpSet(ips)) && Granted(engine, scope, host, IpSet(ips)) == {}
    ensures HostPasses(scope, host) && ips == [] ==>
              MayTouch(engine, scope, host, IpSet(ips)) && Granted(engine, scope, host, IpSet(ips)) == {PASSIVE_RECON}
    ensures PORT_SCAN in FULL_ACTIONS && PORT_SCAN !in HTTP_LAYER_ACTIONS && HTTP_PROBE in HTTP_LAYER_ACTIONS
    ensures {PASSIVE_RECON} != HTTP_LAYER_ACTIONS && FULL_ACTIONS != HTTP_LAYER_ACTIONS && {} != HTTP_LAYER_ACTIONS
  {
    assert HTTP_PROBE in HTTP_LAYER_ACTIONS && PORT_SCAN in FULL_ACTIONS;
  }

  lemma FailureNeedsBadIp(engine: Engine, scope: ProgramScope, host: string, ips: seq<IpText>)
    ensures Fails(engine, scope, host, ips) ==> scope.scopeOverride && BadIp in ips
  {}

  lemma VerdictWhenRefused(engine: Engine, scope: ProgramScope, host: string, ips: seq<IpText>, i: nat)
    requires i < |ips| && Refused(engine, scope, ips[i]) && forall j :: 0 <= j < i ==> ips[j].Ip?
    ensures !MayTouch(engine, scope, host, IpSet(ips)) && Granted(engine, scope, host, IpSet(ips)) == {}
    ensures !Fails(engine, scope, host, ips)
  {
    assert ips[i] in IpSet(ips);
    assert ips[i].BadIp? ==> !scope.scopeOverride;
  }

  lemma VerdictWhenRaised(engine: Engine, scope: ProgramScope, host: string, ips: seq<IpText>, i: nat)
    requires i < |ips| && HostPasses(scope, host)
    requires ips[i].BadIp? && scope.scopeOverride && forall j :: 0 <= j < i ==> !Refused(engine, scope, ips[j])
    ensures Fails(engine, scope, host, ips)
  {}

  lemma VerdictOtherwise(engine: Engine, scope: ProgramScope, host: string, ips: seq<IpText>)
    requires ips != [] && HostPasses(scope, host)
    requires forall j :: 0 <= j < |ips| ==> ips[j].Ip? && !Refused(engine, scope, ips[j])
    ensures !Fails(engine, scope, host, ips) && MayTouch(engine, scope, host, IpSet(ips))
    ensures Granted(engine, scope, host, IpSet(ips))
            == if forall j :: 0 <= j < |ips| ==> IsDedicated(engine, scope, ips[j]) then FULL_ACTIONS
               else HTTP_LAYER_ACTIONS
  {
    hide IsDedicated, Refused;
    assert ips[0] in IpSet(ips);
    assert forall j :: 0 <= j < |ips| ==> ips[j] in IpSet(ips);
  }

  /** What one address says about its host. */
  datatype Judgement = Deny(cls: IpClass) | Raise | Own | Shared(cls: IpClass)

  method Judge(engine: Engine, scope: ProgramScope, ip: IpText, excludedNets: seq<Network>, dedicatedNets: seq<Network>)
    returns (j: Judgement)
    requires excludedNets == ParseNetworks(scope.excludedCidrs) && dedicatedNets == ParseNetworks(scope.dedicatedCidrs)
    ensures j.Deny? <==> Refused(engine, scope, ip)
    ensures j.Raise? <==> ip.BadIp? && !Refused(engine, scope, ip)
    ensures ip.BadIp? && !Refused(engine, scope, ip) ==> scope.scopeOverride
    ensures !j.Deny? && !j.Raise? ==> (j.Own? <==> IsDedicated(engine, scope, ip))
    ensures j.Deny? || j.Shared? ==> j.cls == ClassifyIp(engine, ip)
  {
    var cls := ClassifyIp(engine, ip);
    var labPrivate := engine.allowPrivate && cls == PRIVATE;
    var waived := scope.scopeOverride && cls !in NEVER_OVERRIDABLE;
    if cls in HARD_DENY && !labPrivate && !waived { return Deny(cls); }
    if ip.BadIp? { return Raise; }
    if InAny(excludedNets, ip.addr) { return Deny(cls); }
    var sharedOk := scope.scanSharedInfra && (cls == CLOUD_SHARED || cls == PUBLIC);
    var inDedicated := cls != CDN && InAny(dedicatedNets, ip.addr);
    return if scope.scopeOverride || labPrivate || sharedOk || inDedicated then Own else Shared(cls);
  }

  // ----- the verdict, from the flags of the addresses -------------------------------

  /** Nothing forbids contact with the address: it is not excluded and, unless the override
      is on, not special-purpose; lab mode spares exactly the private ones, and nothing the
      link-local ones. */
  predicate Reachable(engine: Engine, scope: ProgramScope, a: Address) {
    var f := engine.flags(a);
    && !InAny(ParseNetworks(scope.excludedCidrs), a)
    && if scope.scopeOverride then !f.linkLocal || f.loopback || f.unspecified
       else !IsSpecial(f, a) || (engine.allowPrivate && JustPrivate(f, a))
  }

  /** The address, if reachable, may be scanned in full: it is private, in lab mode, or in no
      CDN range and either shared infrastructure is opened up or a dedicated range holds it. */
  predicate FullyOpen(engine: Engine, scope: ProgramScope, a: Address) {
    || scope.scopeOverride
    || IsSpecial(engine.flags(a), a)
    || (!InAny(engine.cdn, a) && (scope.scanSharedInfra || InAny(ParseNetworks(scope.dedicatedCidrs), a)))
  }

  lemma VerdictByFlags(engine: Engine, scope: ProgramScope, a: Address)
    ensures Refused(engine, scope, Ip(a)) <==> !Reachable(engine, scope, a)
    ensures Reachable(engine, scope, a) ==> (IsDedicated(engine, scope, Ip(a)) <==> FullyOpen(engine, scope, a))
    ensures Refused(engine, scope, BadIp) <==> !scope.scopeOverride
  {
    hide ClassifyIp, InAny, ParseNetworks, IsCgnat;
    ClassesByFlags(engine, a);
  }

  /** The labels of an apex end those of the host, or the override is on; and no exclusion
      names the host. */
  predicate MayContact(scope: ProgramScope, host: string) {
    && (scope.scopeOverride
        || exists a :: a in scope.verifiedApexes && EndsWith(Split(Normal(host), '.'), Split(Normal(a), '.')))
    && forall h :: h in scope.excludedHosts ==> Normal(h) != Normal(host)
  }

  lemma ContactByLabels(scope: ProgramScope, host: string)
    ensures MayContact(scope, host) <==> HostPasses(scope, host)
  {
    hide IsUnder, EndsWith, Normal, Split;
    forall a ensures IsUnder(Normal(host), Normal(a)) <==> EndsWith(Split(Normal(host), '.'), Split(Normal(a), '.')) {
      UnderIsByLabels(Normal(host), Normal(a));
    }
  }

  /** What the decision says, in terms of addresses and their flags. */
  ghost predicate DecidesByFlags(engine: Engine, host: string, ips: seq<IpText>, scope: ProgramScope, d: Decision) {
    && (d.allowed <==> MayContact(scope, host)
                       && forall i :: 0 <= i < |ips| ==> ips[i].Ip? && Reachable(engine, scope, ips[i].addr))
    && (!d.allowed ==> d.actions == {})
    && (d.allowed && ips == [] ==> d.actions == {PASSIVE_RECON})
    && (d.allowed && ips != [] ==>
          d.actions == if forall i :: 0 <= i < |ips| ==> FullyOpen(engine, scope, ips[i].addr)
                       then {PASSIVE_RECON, HTTP_PROBE, TLS_INSPECT, PORT_SCAN, CONTENT_DISCOVERY, ACTIVE_SCAN}
                       else {PASSIVE_RECON, HTTP_PROBE, TLS_INSPECT})
  }

  lemma DecisionsByFlags(engine: Engine, host: string, ips: seq<IpText>, scope: ProgramScope)
    requires !Fails(engine, scope, host, ips)
    ensures forall d: Decision |
              d.allowed == MayTouch(engine, scope, host, IpSet(ips))
              && d.actions == Granted(engine, scope, host, IpSet(ips)) :: DecidesByFlags(engine, host, ips, scope, d)
  {
    hide Refused, IsDedicated, Reachable, FullyOpen, HostPasses, MayContact;
    forall a
      ensures Refused(engine, scope, Ip(a)) <==> !Reachable(engine, scope, a)
      ensures Reachable(engine, scope, a) ==> (IsDedicated(engine, scope, Ip(a)) <==> FullyOpen(engine, scope, a))
      ensures Refused(engine, scope, BadIp) <==> !scope.scopeOverride
    {
      VerdictByFlags(engine, scope, a);
    }
    assert Refused(engine, scope, Ip(Address(4, 0))) <==> !Reachable(engine, scope, Address(4, 0));
    assert forall i :: 0 <= i < |ips| ==> ips[i] in IpSet(ips);
    assert ips != [] ==> ips[0] in IpSet(ips);
    ContactByLabels(scope, host);
    if MayTouch(engine, scope, host, IpSet(ips)) {
      forall i | 0 <= i < |ips| ensures ips[i].Ip? {
        assert !Refused(engine, scope, ips[i]);
      }
    }
  }

  // ----- monotonicity ---------------------------------------------------------------

  /** `b` is at least as permissive a scope as `a`. */
  ghost predicate AtMostAsWide(a: ProgramScope, b: ProgramScope) {
    && (forall x :: x in a.verifiedApexes ==> x in b.verifiedApexes)
    && b.excludedHosts <= a.excludedHosts
    && (forall c :: c in b.excludedCidrs ==> c in a.excludedCidrs)
    && (forall c :: c in a.dedicatedCidrs ==> c in b.dedicatedCidrs)
    && (a.scanSharedInfra ==> b.scanSharedInfra)
    && (a.scopeOverride ==> b.scopeOverride)
  }

  lemma MoreCidrsCoverMore(cs: seq<CidrText>, cs': seq<CidrText>, a: Address)
    requires forall c :: c in cs ==> c in cs'
    requires InAny(ParseNetworks(cs), a)
    ensures InAny(ParseNetworks(cs'), a)
  {
    var n :| n in ParseNetworks(cs) && Contains(n, a);
    ParsedNetworks(cs, n);
    ParsedNetworks(cs', n);
  }

  lemma WiderRefusesLess(engine: Engine, a: ProgramScope, b: ProgramScope, ip: IpText)
    requires AtMostAsWide(a, b)
    ensures Refused(engine, b, ip) ==> Refused(engine, a, ip)
    ensures IsDedicated(engine, a, ip) ==> IsDedicated(engine, b, ip)
  {
    if CidrExcluded(b, ip) { MoreCidrsCoverMore(b.excludedCidrs, a.excludedCidrs, ip.addr); }
    if ip.Ip? && InAny(ParseNetworks(a.dedicatedCidrs), ip.addr) {
      MoreCidrsCoverMore(a.dedicatedCidrs, b.dedicatedCidrs, ip.addr);
    }
  }

  /** What is granted only grows when apexes or dedicated ranges are added, exclusions or
      addresses are dropped, or the shared-infrastructure or override switch is turned on. */
  lemma GrantsAreMonotone(engine: Engine, a: ProgramScope, b: ProgramScope, host: string, ips: set<IpText>,
                          fewer: set<IpText>)
    requires AtMostAsWide(a, b) && fewer <= ips && fewer != {}
    ensures MayTouch(engine, a, host, ips) ==> MayTouch(engine, b, host, fewer)
    ensures Granted(engine, a, host, ips) <= Granted(engine, b, host, fewer)
  {
    hide Refused, IsDedicated;
    forall ip ensures Refused(engine, b, ip) ==> Refused(engine, a, ip)
    {
      WiderRefusesLess(engine, a, b, ip);
    }
    forall ip ensures IsDedicated(engine, a, ip) ==> IsDedicated(engine, b, ip)
    {
      WiderRefusesLess(engine, a, b, ip);
    }
    assert MayTouch(engine, a, host, ips) ==> HostPasses(b, host);
  }

  // ----- corollaries: what no switch unlocks ----------------------------------------

  /** By the verdict of `Evaluate`, a link-local address, and so the cloud metadata service,
      denies its host whatever the program's switches and even in lab mode. */
  lemma LinkLocalIsNeverReached(engine: Engine, scope: ProgramScope, host: string, ips: set<IpText>, a: Address)
    requires Ip(a) in ips
    requires engine.flags(a).linkLocal && !engine.flags(a).unspecified && !engine.flags(a).loopback
    ensures !MayTouch(engine, scope, host, ips) && Granted(engine, scope, host, ips) == {}
  {
    assert Refused(engine, scope, Ip(a));
  }

  /** So does one address that is not routable, unless the override is on; lab mode spares
      private addresses only. */
  lemma InternalPoisonsTheHost(engine: Engine, scope: ProgramScope, host: string, ips: set<IpText>, ip: IpText)
    requires ip in ips && !scope.scopeOverride && ClassifyIp(engine, ip) in HARD_DENY
    requires !engine.allowPrivate || ClassifyIp(engine, ip) != PRIVATE
    ensures Granted(engine, scope, host, ips) == {}
  {
    assert Refused(engine, scope, ip);
  }

  /** And one CDN address keeps a host to the HTTP layer, even when it lies in a dedicated
      range and shared infrastructure is opened up; only the override lifts that. */
  lemma CdnStaysHttpOnly(engine: Engine, scope: ProgramScope, host: string, ips: set<IpText>, ip: IpText)
    requires ip in ips && !scope.scopeOverride && ClassifyIp(engine, ip) == CDN
    ensures Granted(engine, scope, host, ips) <= HTTP_LAYER_ACTIONS
  {
    assert !IsDedicated(engine, scope, ip);
  }
}
