/**
  From the ranges an operator asks for to what a scan may do: server-side confirmation
  (core/scope.py), and the scope a run is given (pipelines/orchestrate.py,
  pipelines/playground.py).
*/
module Authority {
  import opened Wrappers
  import opened Scope
  import opened Splitting

  const ASN_CONFIRMED_PREFIX := "asnmap:"
  const UNCONFIRMED := "unconfirmed"
  const CDN_NEVER_DEDICATED := "cdn_edge_never_dedicated"

  datatype IpScopeEntry = IpScopeEntry(cidr: CidrText, ipClass: IpClass, actions: set<Action>, confirmedVia: string)

  predicate IsAsnConfirmed(e: IpScopeEntry) {
    e.ipClass == DEDICATED && ASN_CONFIRMED_PREFIX <= e.confirmedVia
  }

  function FirstContaining(nets: seq<Network>, net: Network): (n: Option<Network>)
    ensures n.None? <==> forall m :: m in nets ==> !SubnetOf(net, m)
    ensures n.Some? ==> n.value in nets && SubnetOf(net, n.value)
  {
    if nets == [] then None
    else if SubnetOf(net, nets[0]) then Some(nets[0])
    else FirstContaining(nets[1..], net)
  }

  /** A requested range may become dedicated: its first address is neither internal nor a
      CDN edge, and the apex's network announces a range around it. */
  ghost predicate Confirmable(engine: Engine, announced: seq<CidrText>, net: Network) {
    && !StartsInternal(engine, net) && !InAny(engine.cdn, Address(net.version, net.base))
    && exists n :: n in ParseNetworks(announced) && SubnetOf(net, n)
  }

  /** The range's first address is special-purpose. */
  predicate StartsInternal(engine: Engine, net: Network) {
    IsSpecial(engine.flags(Address(net.version, net.base)), Address(net.version, net.base))
  }

  /** The class of a range's first address. */
  function FirstClass(engine: Engine, net: Network): IpClass {
    ClassifyIp(engine, Ip(Address(net.version, net.base)))
  }

  /** How a range is recorded: with full actions if it is confirmable, and else with the
      class of its first address and the HTTP layer. */
  ghost predicate Records(engine: Engine, announced: seq<CidrText>, net: Network, e: IpScopeEntry) {
    && ParseNetwork(e.cidr) == Some(net) && !StartsInternal(engine, net)
    && (IsAsnConfirmed(e) <==> Confirmable(engine, announced, net))
    && e.ipClass == (if IsAsnConfirmed(e) then DEDICATED else ClassifyIp(engine, Ip(Address(net.version, net.base))))
    && (!IsAsnConfirmed(e) ==>
          e.confirmedVia == if InAny(engine.cdn, Address(net.version, net.base)) then "cdn_edge_never_dedicated"
                            else "unconfirmed")
    && e.actions == (if IsAsnConfirmed(e) then FULL_ACTIONS else HTTP_LAYER_ACTIONS)
  }

  /** The ranges to be recorded, in the order of the request. */
  ghost function Recordable(engine: Engine, requested: seq<CidrText>): seq<Network> {
    if requested == [] then []
    else
      var c := requested[|requested| - 1];
      Recordable(engine, requested[..|requested| - 1])
      + if ParseNetwork(c).Some? && !StartsInternal(engine, ParseNetwork(c).value) then [ParseNetwork(c).value] else []
  }

  /** Entry by entry, `out` records the ranges `nets`. */
  ghost predicate InOrder(out: seq<IpScopeEntry>, nets: seq<Network>) {
    |out| == |nets| && forall i :: 0 <= i < |out| ==> ParseNetwork(out[i].cidr) == Some(nets[i])
  }

  lemma RecordableStep(engine: Engine, requested: seq<CidrText>, c: CidrText, out: seq<IpScopeEntry>,
                       entry: Option<IpScopeEntry>)
    requires InOrder(out, Recordable(engine, requested))
    requires entry.Some? <==> ParseNetwork(c).Some? && !StartsInternal(engine, ParseNetwork(c).value)
    requires entry.Some? ==> ParseNetwork(entry.value.cidr) == ParseNetwork(c)
    ensures InOrder(if entry.Some? then out + [entry.value] else out, Recordable(engine, requested + [c]))
  {
    hide ParseNetwork, StartsInternal;
    assert (requested + [c])[..|requested|] == requested;
  }

  lemma NothingRecordable(engine: Engine)
    ensures InOrder([], Recordable(engine, []))
  {}

  /** Unparseable ranges, and those that start at an internal address, are not recorded; all
      others are, and exactly the confirmable ones come out ASN-confirmed.  `show` prints a
      network. */
  method ConfirmIpScope(requested: seq<CidrText>, announced: seq<CidrText>, engine: Engine, show: Network -> string)
    returns (out: seq<IpScopeEntry>)
    ensures forall net :: (exists e :: e in out && ParseNetwork(e.cidr) == Some(net))
              <==> (exists c :: c in requested && ParseNetwork(c) == Some(net)) && !StartsInternal(engine, net)
    ensures forall e :: e in out ==>
              ParseNetwork(e.cidr).Some? && Records(engine, announced, ParseNetwork(e.cidr).value, e)
    ensures InOrder(out, Recordable(engine, requested))
  {
    hide *;
    out := [];
    NothingRecordable(engine);
    assert requested[..0] == [];
    for i := 0 to |requested|
      invariant InOrder(out, Recordable(engine, requested[..i]))
      invariant forall e :: e in out ==> IsVerdict(engine, announced, requested[..i], e)
      invariant forall c :: c in requested[..i] ==> HasVerdict(engine, c, out)
    {
      var c := requested[i];
      assert requested[..i + 1] == requested[..i] + [c];
      var entry := ConfirmOne(c, announced, engine, show);
      VerdictsGrow(engine, announced, requested[..i], c, out, entry);
      if entry.Some? { RecordsMeans(engine, announced, ParseNetwork(c).value, entry.value); }
      RecordableStep(engine, requested[..i], c, out, entry);
      if entry.Some? {
        out := out + [entry.value];
      }
    }
    assert requested[..|requested|] == requested;
    VerdictsMean(engine, announced, requested, out);
  }

  /** The entry is the verdict on one of the ranges. */
  ghost predicate IsVerdict(engine: Engine, announced: seq<CidrText>, requested: seq<CidrText>, e: IpScopeEntry) {
    exists c :: c in requested && ParseNetwork(c).Some? && ParseNetwork(c) == ParseNetwork(e.cidr)
                && Records(engine, announced, ParseNetwork(c).value, e)
  }

  /** The range has its verdict, if it gets one at all. */
  ghost predicate HasVerdict(engine: Engine, c: CidrText, out: seq<IpScopeEntry>) {
    ParseNetwork(c).Some? && !StartsInternal(engine, ParseNetwork(c).value) ==>
      exists e :: e in out && ParseNetwork(e.cidr) == ParseNetwork(c)
  }

  lemma VerdictsGrow(engine: Engine, announced: seq<CidrText>, requested: seq<CidrText>, c: CidrText,
                     out: seq<IpScopeEntry>, entry: Option<IpScopeEntry>)
    requires forall e :: e in out ==> IsVerdict(engine, announced, requested, e)
    requires forall d :: d in requested ==> HasVerdict(engine, d, out)
    requires entry.Some? <==> ParseNetwork(c).Some? && !StartsInternal(engine, ParseNetwork(c).value)
    requires entry.Some? ==> Records(engine, announced, ParseNetwork(c).value, entry.value)
    ensures var next := if entry.Some? then out + [entry.value] else out;
            && (forall e :: e in next ==> IsVerdict(engine, announced, requested + [c], e))
            && forall d :: d in requested + [c] ==> HasVerdict(engine, d, next)
  {
    hide StartsInternal, ParseNetwork;
    var next := if entry.Some? then out + [entry.value] else out;
    assert c in requested + [c];
    forall e | e in next ensures IsVerdict(engine, announced, requested + [c], e) {
      if e in out { assert IsVerdict(engine, announced, requested, e); }
    }
    assert entry.Some? ==> entry.value in next;
    forall d | d in requested + [c] ensures HasVerdict(engine, d, next) {
      if d in requested { assert HasVerdict(engine, d, out); }
    }
  }

  lemma VerdictsMean(engine: Engine, announced: seq<CidrText>, requested: seq<CidrText>, out: seq<IpScopeEntry>)
    requires forall e :: e in out ==> IsVerdict(engine, announced, requested, e)
    requires forall c :: c in requested ==> HasVerdict(engine, c, out)
    ensures forall net :: (exists e :: e in out && ParseNetwork(e.cidr) == Some(net))
              <==> (exists c :: c in requested && ParseNetwork(c) == Some(net)) && !StartsInternal(engine, net)
    ensures forall e :: e in out ==>
              ParseNetwork(e.cidr).Some? && Records(engine, announced, ParseNetwork(e.cidr).value, e)
  {
    hide StartsInternal, ParseNetwork;
    forall net
      ensures (exists e :: e in out && ParseNetwork(e.cidr) == Some(net))
              <==> (exists c :: c in requested && ParseNetwork(c) == Some(net)) && !StartsInternal(engine, net)
    {
      if c :| c in requested && ParseNetwork(c) == Some(net) { assert HasVerdict(engine, c, out); }
      if e :| e in out && ParseNetwork(e.cidr) == Some(net) {
        assert IsVerdict(engine, announced, requested, e);
        RecordsMeans(engine, announced, net, e);
      }
    }
  }

  lemma RecordsMeans(engine: Engine, announced: seq<CidrText>, net: Network, e: IpScopeEntry)
    requires Records(engine, announced, net, e)
    ensures ParseNetwork(e.cidr) == Some(net) && !StartsInternal(engine, net)
    ensures IsAsnConfirmed(e) <==> Confirmable(engine, announced, net)
  {}

  /** The verdict on one requested range, if it is recorded at all. */
  method ConfirmOne(c: CidrText, announced: seq<CidrText>, engine: Engine, show: Network -> string)
    returns (entry: Option<IpScopeEntry>)
    ensures entry.Some? <==> ParseNetwork(c).Some? && !StartsInternal(engine, ParseNetwork(c).value)
    ensures entry.Some? ==> Records(engine, announced, ParseNetwork(c).value, entry.value)
  {
    hide ClassifyIp, IsSpecial;
    var parsed := ParseNetwork(c);
    if parsed.None? { return None; }
    var net := parsed.value;
    var cls := FirstClass(engine, net);
    ClassesByFlags(engine, Address(net.version, net.base));
    if cls in HARD_DENY { return None; }
    Reparses(c);
    var containing := FirstContaining(ParseNetworks(announced), net);
    var cidr := Cidr(net.version, net.base, net.prefix);
    if cls == CDN {
      return Some(IpScopeEntry(cidr, cls, HTTP_LAYER_ACTIONS, CDN_NEVER_DEDICATED));
    } else if containing.Some? {
      return Some(IpScopeEntry(cidr, DEDICATED, FULL_ACTIONS, ASN_CONFIRMED_PREFIX + show(containing.value)));
    } else {
      return Some(IpScopeEntry(cidr, cls, HTTP_LAYER_ACTIONS, UNCONFIRMED));
    }
  }

  /** A network printed and parsed again is the same network. */
  lemma Reparses(c: CidrText)
    requires c.Cidr?
    ensures var net := ParseNetwork(c).value;
            ParseNetwork(Cidr(net.version, net.base, net.prefix)) == Some(net)
  {
    RoundingDownTwice(c.value, BlockSize(c.version, c.prefix));
  }

  lemma RoundingDownTwice(x: nat, size: nat)
    requires size >= 1
    ensures RoundDown(RoundDown(x, size), size) == RoundDown(x, size)
  {
    var q := x / size;
    SameQuotient(q * size, q, size);
  }

  // ----- the scope of a run ---------------------------------------------------------

  datatype Program = Program(
    apex: string,
    excludedHosts: set<string>,
    excludedCidrs: seq<CidrText>,
    scanSharedInfra: bool,
    scopeOverride: bool)

  datatype Authorization = Authorization(ipScope: seq<IpScopeEntry>, apexVerified: bool, revoked: bool)

  function ConfirmedCidrs(entries: seq<IpScopeEntry>): (cs: seq<CidrText>)
    ensures forall c :: c in cs <==> exists e :: e in entries && IsAsnConfirmed(e) && e.cidr == c
  {
    if entries == [] then []
    else (if IsAsnConfirmed(entries[0]) then [entries[0].cidr] else []) + ConfirmedCidrs(entries[1..])
  }

  function BuildProgramScope(program: Program, auth: Option<Authorization>): ProgramScope {
    ProgramScope([program.apex], program.excludedHosts, program.excludedCidrs,
                 if auth.Some? then ConfirmedCidrs(auth.value.ipScope) else [],
                 program.scanSharedInfra, program.scopeOverride)
  }

  function RequestedCidrs(entries: seq<IpScopeEntry>): (cs: seq<CidrText>)
    ensures forall c :: c in cs <==> c != NoCidr && exists e :: e in entries && e.cidr == c
  {
    if entries == [] then []
    else (if entries[0].cidr != NoCidr then [entries[0].cidr] else []) + RequestedCidrs(entries[1..])
  }

  /** The record holds this range, confirmed or not. */
  ghost predicate Recorded(auth: Authorization, net: Network) {
    exists e :: e in auth.ipScope && ParseNetwork(e.cidr) == Some(net)
  }

  /** The range is one that the scope built from the record treats as dedicated. */
  ghost predicate Dedicates(auth: Authorization, net: Network) {
    net in ParseNetworks(ConfirmedCidrs(auth.ipScope))
  }

  /** What a confirmation makes of a record; without ASN data it confirms nothing. */
  ghost predicate Confirms(engine: Engine, lookup: Option<seq<CidrText>>, auth: Authorization,
                           confirmed: Authorization) {
    && confirmed.apexVerified == auth.apexVerified && confirmed.revoked == auth.revoked
    && (forall net :: Recorded(confirmed, net) <==> Recorded(auth, net) && !StartsInternal(engine, net))
    && (forall net :: Dedicates(confirmed, net) <==>
          lookup.Some? && Confirmable(engine, lookup.value, net) && Recorded(auth, net))
  }

  /** `lookup` is what asnmap announced for the apex, none if it failed. */
  method ConfirmAuthorization(auth: Authorization, lookup: Option<seq<CidrText>>, engine: Engine,
                              show: Network -> string)
    returns (confirmed: Authorization)
    ensures Confirms(engine, lookup, auth, confirmed)
  {
    hide Confirmable, ParseNetwork, ParseNetworks, ConfirmedCidrs, StartsInternal;
    var requested := RequestedCidrs(auth.ipScope);
    if requested == [] {
      confirmed := auth;
      forall net ensures !Dedicates(auth, net) && !Recorded(auth, net) {
        ConfirmedNetworks(auth.ipScope, net);
        RequestedNetworks(auth.ipScope, net);
      }
    } else {
      var ranges := if lookup.Some? then lookup.value else [];
      var entries := ConfirmIpScope(requested, ranges, engine, show);
      confirmed := auth.(ipScope := entries);
      forall net
        ensures Dedicates(confirmed, net)
                <==> lookup.Some? && Confirmable(engine, lookup.value, net) && Recorded(auth, net)
        ensures Recorded(confirmed, net) <==> Recorded(auth, net) && !StartsInternal(engine, net)
      {
        ConfirmedNetworks(entries, net);
        RequestedNetworks(auth.ipScope, net);
        NothingAnnounced(engine, net);
        ConfirmedIffConfirmable(engine, ranges, entries, net);
      }
    }
  }

  lemma ConfirmedIffConfirmable(engine: Engine, announced: seq<CidrText>, entries: seq<IpScopeEntry>, net: Network)
    requires forall e :: e in entries ==>
               ParseNetwork(e.cidr).Some? && Records(engine, announced, ParseNetwork(e.cidr).value, e)
    ensures (exists e :: e in entries && ParseNetwork(e.cidr) == Some(net) && IsAsnConfirmed(e))
            <==> (exists e :: e in entries && ParseNetwork(e.cidr) == Some(net)) && Confirmable(engine, announced, net)
    ensures Confirmable(engine, announced, net) ==> !StartsInternal(engine, net)
  {
    hide ParseNetwork, IsAsnConfirmed;
  }

  lemma NothingAnnounced(engine: Engine, net: Network)
    ensures !Confirmable(engine, [], net)
  {}

  lemma ConfirmedNetworks(entries: seq<IpScopeEntry>, net: Network)
    ensures net in ParseNetworks(ConfirmedCidrs(entries))
            <==> exists e :: e in entries && ParseNetwork(e.cidr) == Some(net) && IsAsnConfirmed(e)
  {
    ParsedNetworks(ConfirmedCidrs(entries), net);
  }

  lemma RequestedNetworks(entries: seq<IpScopeEntry>, net: Network)
    ensures (exists c :: c in RequestedCidrs(entries) && ParseNetwork(c) == Some(net))
            <==> exists e :: e in entries && ParseNetwork(e.cidr) == Some(net)
  {
    if e :| e in entries && ParseNetwork(e.cidr) == Some(net) {
      assert e.cidr in RequestedCidrs(entries);
    }
  }

  // ----- end to end -----------------------------------------------------------------

  /** With the switches off, an address that is fully scannable under a record. */
  ghost predicate ScannableUnder(engine: Engine, program: Program, record: Authorization, ip: IpText) {
    && ip.Ip?
    && !IsSpecial(engine.flags(ip.addr), ip.addr) && !InAny(engine.cdn, ip.addr)
    && !InAny(ParseNetworks(program.excludedCidrs), ip.addr)
    && exists net :: Contains(net, ip.addr) && Dedicates(record, net)
  }

  /** With override, shared-infrastructure and lab mode off. */
  predicate Strict(program: Program, engine: Engine) {
    !program.scopeOverride && !program.scanSharedInfra && !engine.allowPrivate
  }

  ghost predicate HostIsOwn(program: Program, host: string) {
    && EndsWith(Split(Normal(host), '.'), Split(Normal(program.apex), '.'))
    && forall h :: h in program.excludedHosts ==> Normal(h) != Normal(host)
  }

  /** What a record grants: port and active scanning exactly when the host is the program's
      own and not excluded, and every address, of at least one, is scannable under it. */
  lemma RecordDecides(engine: Engine, program: Program, record: Authorization, host: string, ips: set<IpText>)
    requires Strict(program, engine)
    ensures var granted := Granted(engine, BuildProgramScope(program, Some(record)), host, ips);
            && (PORT_SCAN in granted <==>
                  HostIsOwn(program, host) && ips != {} && forall ip :: ip in ips ==>
                      ScannableUnder(engine, program, record, ip))
            && (ACTIVE_SCAN in granted <==> PORT_SCAN in granted)
  {
    hide HostIsOwn, HostPasses, Refused, IsDedicated, ScannableUnder;
    var scope := BuildProgramScope(program, Some(record));
    OwnByLabels(engine, program, record, host);
    forall ip
      ensures !Refused(engine, scope, ip) && IsDedicated(engine, scope, ip)
              <==> ScannableUnder(engine, program, record, ip)
    {
      ScannableUnderIff(engine, program, record, ip);
    }
  }

  lemma OwnByLabels(engine: Engine, program: Program, record: Authorization, host: string)
    requires Strict(program, engine)
    ensures HostPasses(BuildProgramScope(program, Some(record)), host) <==> HostIsOwn(program, host)
  {
    hide HostPasses, EndsWith, Split, Normal;
    var scope := BuildProgramScope(program, Some(record));
    ContactByLabels(scope, host);
    assert scope.verifiedApexes == [program.apex];
  }

  lemma ScannableUnderIff(engine: Engine, program: Program, record: Authorization, ip: IpText)
    requires Strict(program, engine)
    ensures var scope := BuildProgramScope(program, Some(record));
            !Refused(engine, scope, ip) && IsDedicated(engine, scope, ip)
            <==> ScannableUnder(engine, program, record, ip)
  {
    hide ClassifyIp, IsSpecial;
    var scope := BuildProgramScope(program, Some(record));
    if ip.Ip? { VerdictByFlags(engine, scope, ip.addr); } else { VerdictByFlags(engine, scope, Address(4, 0)); }
    var nets := ParseNetworks(ConfirmedCidrs(record.ipScope));
    if ip.Ip? && InAny(nets, ip.addr) {
      var net :| net in nets && Contains(net, ip.addr);
      assert Dedicates(record, net);
    }
  }

  /** An address that confirmation, the feeds and the exclusions leave fully scannable. */
  ghost predicate Scannable(engine: Engine, program: Program, auth: Authorization, announced: seq<CidrText>,
                            ip: IpText) {
    && ip.Ip?
    && !IsSpecial(engine.flags(ip.addr), ip.addr) && !InAny(engine.cdn, ip.addr)
    && !InAny(ParseNetworks(program.excludedCidrs), ip.addr)
    && exists net :: Contains(net, ip.addr) && Confirmable(engine, announced, net) && Recorded(auth, net)
  }

  function Announced(lookup: Option<seq<CidrText>>): seq<CidrText> { if lookup.Some? then lookup.value else [] }

  lemma FreshRecord(engine: Engine, program: Program, auth: Authorization, confirmed: Authorization,
                    lookup: Option<seq<CidrText>>, ip: IpText)
    requires Confirms(engine, lookup, auth, confirmed)
    ensures ScannableUnder(engine, program, confirmed, ip) <==> Scannable(engine, program, auth, Announced(lookup), ip)
  {
    hide Confirmable, Dedicates, Recorded, ClassifyIp, Contains;
    forall net
      ensures Dedicates(confirmed, net) <==> Confirmable(engine, Announced(lookup), net) && Recorded(auth, net)
    {
      NothingAnnounced(engine, net);
    }
  }

  /** The scope of a run, field by field; the dedicated ranges are the confirmable ones that
      were requested, and none without ASN data. */
  ghost predicate IsScopeOf(engine: Engine, program: Program, auth: Authorization, lookup: Option<seq<CidrText>>,
                            scope: ProgramScope) {
    && scope.verifiedApexes == [program.apex]
    && scope.excludedHosts == program.excludedHosts && scope.excludedCidrs == program.excludedCidrs
    && scope.scanSharedInfra == program.scanSharedInfra && scope.scopeOverride == program.scopeOverride
    && forall net :: net in ParseNetworks(scope.dedicatedCidrs) <==>
         lookup.Some? && Confirmable(engine, lookup.value, net) && Recorded(auth, net)
  }

  predicate IsCurrent(auth: Option<Authorization>) {
    auth.Some? && auth.value.apexVerified && !auth.value.revoked
  }

  /** Why a run fails: it has no current authorization, or `evaluate` let a failure escape. */
  datatype RunError = AuthorizationRequired | Escaped(e: ValueError)

  /** A full run, from the record to the verdict on one host: it confirms the record, builds
      the scope and evaluates.  The verdict is that of the addresses' flags under the scope
      that the program and the confirmable ranges make up.  In strict mode port and active
      scanning are permitted exactly when the host is the program's own and every address, of
      at least one, is scannable. */
  method AuthorizeHost(program: Program, auth: Option<Authorization>, lookup: Option<seq<CidrText>>, engine: Engine,
                       show: Network -> string, host: string, ips: seq<IpText>)
    returns (r: Result<(Authorization, Decision), RunError>)
    ensures r == Err(AuthorizationRequired) <==> auth.None? || !auth.value.apexVerified || auth.value.revoked
    ensures r.Ok? ==>
              exists scope :: IsScopeOf(engine, program, auth.value, lookup, scope)
                              && DecidesByFlags(engine, host, ips, scope, r.value.1)
    ensures r.Err? && r.error.Escaped? ==> program.scopeOverride && BadIp in ips
    ensures r.Ok? ==> Confirms(engine, lookup, auth.value, r.value.0)
    ensures IsCurrent(auth) && Strict(program, engine) ==>
              && r.Ok?
              && (PORT_SCAN in r.value.1.actions <==>
                    HostIsOwn(program, host) && ips != []
                    && forall i :: 0 <= i < |ips| ==> Scannable(engine, program, auth.value, Announced(lookup), ips[i]))
              && (ACTIVE_SCAN in r.value.1.actions <==> PORT_SCAN in r.value.1.actions)
  {
    hide Scannable, ScannableUnder, Granted, Confirms, MayTouch, HostIsOwn, IsScopeOf, DecidesByFlags, Fails;
    if !IsCurrent(auth) { return Err(AuthorizationRequired); }
    var confirmed := ConfirmAuthorization(auth.value, lookup, engine, show);
    var scope := BuildProgramScope(program, Some(confirmed));
    ScopeOfRun(engine, program, auth.value, lookup, confirmed);
    NoFailureWhenStrict(engine, program, confirmed, host, ips);
    var decision := Evaluate(engine, host, ips, scope);
    if decision.Err? { r := Err(Escaped(decision.error)); } else { r := Ok((confirmed, decision.value)); }
    if Strict(program, engine) {
      RecordDecides(engine, program, confirmed, host, IpSet(ips));
      forall ip
        ensures ScannableUnder(engine, program, confirmed, ip)
                <==> Scannable(engine, program, auth.value, Announced(lookup), ip)
      {
        FreshRecord(engine, program, auth.value, confirmed, lookup, ip);
      }
      AllOfThem(ips, ip => Scannable(engine, program, auth.value, Announced(lookup), ip));
    }
  }

  lemma ScopeOfRun(engine: Engine, program: Program, auth: Authorization, lookup: Option<seq<CidrText>>,
                   confirmed: Authorization)
    requires Confirms(engine, lookup, auth, confirmed)
    ensures IsScopeOf(engine, program, auth, lookup, BuildProgramScope(program, Some(confirmed)))
    ensures BuildProgramScope(program, Some(confirmed)).scopeOverride == program.scopeOverride
  {
    hide Confirmable, Recorded, ParseNetworks;
    assert forall net :: Dedicates(confirmed, net) <==> net in ParseNetworks(ConfirmedCidrs(confirmed.ipScope));
  }

  lemma NoFailureWhenStrict(engine: Engine, program: Program, confirmed: Authorization, host: string,
                            ips: seq<IpText>)
    ensures Strict(program, engine) ==> !Fails(engine, BuildProgramScope(program, Some(confirmed)), host, ips)
  {}

  lemma AllOfThem(ips: seq<IpText>, p: IpText -> bool)
    ensures (IpSet(ips) == {} <==> ips == [])
    ensures (forall ip :: ip in IpSet(ips) ==> p(ip)) <==> forall i :: 0 <= i < |ips| ==> p(ips[i])
  {
    assert ips != [] ==> ips[0] in IpSet(ips);
    assert forall i :: 0 <= i < |ips| ==> ips[i] in IpSet(ips);
  }

  // ----- stored records -------------------------------------------------------------

  /** One full run's confirmation: the engine it had and what asnmap said. */
  datatype Confirmation = Confirmation(engine: Engine, lookup: Option<seq<CidrText>>)

  /** The record as created, with nothing confirmed, and after each confirmation. */
  ghost predicate IsHistory(records: seq<Authorization>, cs: seq<Confirmation>) {
    && |records| == |cs| + 1
    && (forall e :: e in records[0].ipScope ==> e.ipClass != DEDICATED || !("asnmap:" <= e.confirmedVia))
    && forall i :: 0 <= i < |cs| ==> Confirms(cs[i].engine, cs[i].lookup, records[i], records[i + 1])
  }

  /** A range that the creation of the record requested and the confirmations left in it. */
  ghost predicate StillRecorded(created: Authorization, cs: seq<Confirmation>, net: Network) {
    Recorded(created, net) && forall i :: 0 <= i < |cs| ==> !StartsInternal(cs[i].engine, net)
  }

  lemma {:induction false} HistoryRecords(records: seq<Authorization>, cs: seq<Confirmation>, net: Network)
    requires IsHistory(records, cs)
    ensures Recorded(records[|cs|], net) <==> StillRecorded(records[0], cs, net)
  {
    hide Recorded, StartsInternal;
    if cs != [] {
      var n := |cs| - 1;
      assert IsHistory(records[..n + 1], cs[..n]);
      HistoryRecords(records[..n + 1], cs[..n], net);
      assert Confirms(cs[n].engine, cs[n].lookup, records[n], records[n + 1]);
    }
  }

  /** A stored record dedicates what its last confirmation found confirmable, by the feed
      and the announcements of that time. */
  lemma StoredRecord(records: seq<Authorization>, cs: seq<Confirmation>, net: Network)
    requires IsHistory(records, cs)
    ensures Dedicates(records[|cs|], net)
            <==> && cs != [] && cs[|cs| - 1].lookup.Some?
                 && Confirmable(cs[|cs| - 1].engine, cs[|cs| - 1].lookup.value, net)
                 && StillRecorded(records[0], cs[..|cs| - 1], net)
  {
    hide Recorded, StillRecorded, Dedicates, Confirmable;
    if cs == [] {
      NothingConfirmed(records[0], net);
    } else {
      var n := |cs| - 1;
      assert IsHistory(records[..n + 1], cs[..n]);
      HistoryRecords(records[..n + 1], cs[..n], net);
      assert Confirms(cs[n].engine, cs[n].lookup, records[n], records[n + 1]);
    }
  }

  lemma NothingConfirmed(created: Authorization, net: Network)
    requires forall e :: e in created.ipScope ==> e.ipClass != DEDICATED || !("asnmap:" <= e.confirmedVia)
    ensures !Dedicates(created, net)
  {
    ConfirmedNetworks(created.ipScope, net);
  }

  /** A phase dispatched later, with the record as stored and an engine of its own: what it
      may port-scan was announced when the record was last confirmed, and is in no CDN range
      of the feed in force now. */
  lemma StoredScanIsConfirmed(records: seq<Authorization>, cs: seq<Confirmation>, engine: Engine, program: Program,
                              host: string, ips: set<IpText>, ip: IpText)
    requires IsHistory(records, cs) && Strict(program, engine) && ip in ips
    requires PORT_SCAN in Granted(engine, BuildProgramScope(program, Some(records[|cs|])), host, ips)
    ensures ip.Ip? && cs != [] && cs[|cs| - 1].lookup.Some?
    ensures InAny(ParseNetworks(cs[|cs| - 1].lookup.value), ip.addr)
    ensures !InAny(engine.cdn, ip.addr) && !IsSpecial(engine.flags(ip.addr), ip.addr)
  {
    hide Granted, Contains, StillRecorded, Dedicates, Confirmable;
    RecordDecides(engine, program, records[|cs|], host, ips);
    var net :| Contains(net, ip.addr) && Dedicates(records[|cs|], net);
    StoredRecord(records, cs, net);
    ConfirmableIsAnnounced(cs[|cs| - 1].engine, cs[|cs| - 1].lookup.value, net, ip.addr);
  }

  lemma ConfirmableIsAnnounced(engine: Engine, announced: seq<CidrText>, net: Network, a: Address)
    requires Confirmable(engine, announced, net) && Contains(net, a)
    ensures InAny(ParseNetworks(announced), a)
  {
    hide Contains;
    var n :| n in ParseNetworks(announced) && SubnetOf(net, n);
    SubnetIsSubset(net, n);
    assert Contains(n, a);
  }

  /** In particular such an address lies in a range that the apex's network announces and
      in no CDN range, even where a confirmed range encloses CDN space. */
  lemma ScannableIsAnnouncedAndNoCdn(engine: Engine, program: Program, auth: Authorization, announced: seq<CidrText>,
                                     ip: IpText)
    requires Scannable(engine, program, auth, announced, ip)
    ensures InAny(ParseNetworks(announced), ip.addr) && !InAny(engine.cdn, ip.addr)
    ensures !IsSpecial(engine.flags(ip.addr), ip.addr)
  {
    hide Contains, Confirmable;
    var net :| Contains(net, ip.addr) && Confirmable(engine, announced, net);
    ConfirmableIsAnnounced(engine, announced, net, ip.addr);
  }

  // ----- the ephemeral scope of a workflow ------------------------------------------

  function FreeformScope(hosts: seq<string>, program: Program): ProgramScope {
    ProgramScope(hosts, program.excludedHosts, program.excludedCidrs, [], false, false)
  }

  /** Typed hostnames stand in for verified apexes, and nothing else comes with them: a host
      under one of them, not excluded, may be contacted if all its addresses are neither
      excluded nor special-purpose, private ones in lab mode aside; and a port scan is
      permitted only if all its addresses, of at least one, are private, in lab mode. */
  lemma FreeformIsHttpOnly(engine: Engine, hosts: seq<string>, program: Program, host: string, ips: set<IpText>)
    ensures var scope := FreeformScope(hosts, program);
            var granted := Granted(engine, scope, host, ips);
            && (MayTouch(engine, scope, host, ips) <==>
                  && (exists a :: a in hosts && EndsWith(Split(Normal(host), '.'), Split(Normal(a), '.')))
                  && (forall h :: h in program.excludedHosts ==> Normal(h) != Normal(host))
                  && forall ip :: ip in ips ==> ip.Ip? && IsOpenToTyped(engine, program, ip.addr))
            && (granted != {} <==> MayTouch(engine, scope, host, ips))
            && (PORT_SCAN in granted <==>
                  MayTouch(engine, scope, host, ips) && ips != {}
                  && forall ip :: ip in ips ==> IsSpecial(engine.flags(ip.addr), ip.addr))
            && (PORT_SCAN !in granted ==> granted <= HTTP_LAYER_ACTIONS)
  {
    hide IsSpecial, JustPrivate, Refused, IsDedicated, HostPasses, Normal, EndsWith, Split;
    var scope := FreeformScope(hosts, program);
    assert ParseNetworks([]) == [];
    ContactByLabels(scope, host);
    forall ip
      ensures Refused(engine, scope, ip) <==> !(ip.Ip? && IsOpenToTyped(engine, program, ip.addr))
      ensures ip.Ip? && IsOpenToTyped(engine, program, ip.addr) ==>
                (IsDedicated(engine, scope, ip) <==> IsSpecial(engine.flags(ip.addr), ip.addr))
    {
      VerdictByFlags(engine, scope, if ip.Ip? then ip.addr else Address(4, 0));
    }
  }

  /** Contact with the address needs no more than a typed hostname. */
  ghost predicate IsOpenToTyped(engine: Engine, program: Program, a: Address) {
    var f := engine.flags(a);
    && !InAny(ParseNetworks(program.excludedCidrs), a)
    && (!IsSpecial(f, a) || (engine.allowPrivate && JustPrivate(f, a)))
  }
}
