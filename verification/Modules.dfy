/**
  The module registry (core/modules.py): which modules run given a user's choices and
  the modules each one needs, and what switching one off costs.
*/
module Modules {
  import opened Wrappers

  datatype ModuleSpec = ModuleSpec(name: string, requirements: seq<string>, defaultEnabled: bool, essential: bool)

  type Registry = seq<ModuleSpec>

  ghost predicate IsRegistry(reg: Registry) {
    && (forall i, j :: 0 <= i < j < |reg| ==> reg[i].name != reg[j].name)
    && (forall m :: m in reg ==> forall r :: r in m.requirements ==> r in Names(reg))
  }

  ghost function Names(reg: Registry): set<string> {
    set m | m in reg :: m.name
  }

  /** `a` consumes the output of `b`. */
  ghost predicate Needs(reg: Registry, a: string, b: string) {
    exists m :: m in reg && m.name == a && b in m.requirements
  }

  ghost predicate Closed(reg: Registry, s: set<string>) {
    forall a, b :: a in s && Needs(reg, a, b) ==> b in s
  }

  /** What the user's choices alone would run, dependencies aside. */
  predicate Chosen(m: ModuleSpec, optedIn: set<string>, optedOut: set<string>) {
    m.essential || (m.name !in optedOut && (m.defaultEnabled || m.name in optedIn))
  }

  ghost function FirstPass(reg: Registry, optedIn: set<string>, optedOut: set<string>): set<string> {
    set m | m in reg && Chosen(m, optedIn, optedOut) :: m.name
  }

  /** The largest set of chosen modules in which everything needed is present. */
  ghost predicate IsGreatest(reg: Registry, base: set<string>, s: set<string>) {
    && s <= base && Closed(reg, s)
    && forall t :: t <= base && Closed(reg, t) ==> t <= s
  }

  // ----- resolve --------------------------------------------------------------------

  datatype Reason = TurnedOff | NotEnabled | NeedsOff(requirement: string)

  datatype ModuleState = ModuleState(enabled: set<string>, skipped: map<string, Reason>)

  /** Each skipped module has the reason that applies to it: what the user chose, or a
      requirement of its own that indeed does not run. */
  ghost predicate Explains(reg: Registry, optedIn: set<string>, optedOut: set<string>, enabled: set<string>,
                           n: string, why: Reason) {
    exists m :: m in reg && m.name == n &&
      match why
      case TurnedOff => !m.essential && n in optedOut
      case NotEnabled => !m.essential && n !in optedOut && !m.defaultEnabled && n !in optedIn
      case NeedsOff(r) => Chosen(m, optedIn, optedOut) && r in m.requirements && r !in enabled
  }

  ghost predicate Accounts(reg: Registry, names: set<string>, optedIn: set<string>, optedOut: set<string>,
                           enabled: set<string>, skipped: map<string, Reason>) {
    && skipped.Keys == names - enabled
    && forall n :: n in skipped ==> Explains(reg, optedIn, optedOut, enabled, n, skipped[n])
  }

  lemma NameOfOne(reg: Registry, m: ModuleSpec, n: ModuleSpec)
    requires IsRegistry(reg) && m in reg && n in reg && m.name == n.name
    ensures m == n
  {}

  function FirstMissing(requirements: seq<string>, enabled: set<string>): Option<string> {
    if requirements == [] then None
    else if requirements[0] !in enabled then Some(requirements[0])
    else FirstMissing(requirements[1..], enabled)
  }

  lemma {:induction false} FirstMissingIsMissing(requirements: seq<string>, enabled: set<string>)
    ensures var f := FirstMissing(requirements, enabled);
            && (f.None? <==> forall r :: r in requirements ==> r in enabled)
            && (f.Some? ==> f.value in requirements && f.value !in enabled)
  {
    if requirements != [] { FirstMissingIsMissing(requirements[1..], enabled); }
  }

  method ApplyChoices(reg: Registry, optedIn: set<string>, optedOut: set<string>)
    returns (enabled: set<string>, skipped: map<string, Reason>)
    requires IsRegistry(reg)
    ensures enabled == FirstPass(reg, optedIn, optedOut)
    ensures Accounts(reg, Names(reg), optedIn, optedOut, enabled, skipped)
  {
    enabled, skipped := {}, map[];
    for i := 0 to |reg|
      invariant enabled == FirstPass(reg[..i], optedIn, optedOut)
      invariant skipped.Keys == Names(reg[..i]) - enabled
      invariant forall n :: n in skipped ==>
                  Explains(reg, optedIn, optedOut, {}, n, skipped[n]) && !skipped[n].NeedsOff?
    {
      var spec := reg[i];
      assert reg[..i + 1] == reg[..i] + [spec];
      assert spec.name !in Names(reg[..i]);
      assert Names(reg[..i + 1]) == Names(reg[..i]) + {spec.name};
      assert FirstPass(reg[..i + 1], optedIn, optedOut)
          == FirstPass(reg[..i], optedIn, optedOut) + if Chosen(spec, optedIn, optedOut) then {spec.name} else {};
      if spec.essential {
        enabled := enabled + {spec.name};
      } else if spec.name in optedOut {
        skipped := skipped[spec.name := TurnedOff];
      } else if !spec.defaultEnabled && spec.name !in optedIn {
        skipped := skipped[spec.name := NotEnabled];
      } else {
        enabled := enabled + {spec.name};
      }
    }
    assert reg[..|reg|] == reg;
  }

  /** One sweep over the registry, dropping every module with a requirement that is off. */
  method Sweep(reg: Registry, optedIn: set<string>, optedOut: set<string>, enabled0: set<string>,
               skipped0: map<string, Reason>)
    returns (enabled: set<string>, skipped: map<string, Reason>, changed: bool)
    requires IsRegistry(reg) && enabled0 <= FirstPass(reg, optedIn, optedOut)
    requires Accounts(reg, Names(reg), optedIn, optedOut, enabled0, skipped0)
    ensures enabled <= enabled0 && (changed <==> enabled != enabled0)
    ensures Accounts(reg, Names(reg), optedIn, optedOut, enabled, skipped)
    ensures forall t :: t <= enabled0 && Closed(reg, t) ==> t <= enabled
    ensures !changed ==> Closed(reg, enabled)
  {
    enabled, skipped, changed := enabled0, skipped0, false;
    for i := 0 to |reg|
      invariant enabled <= enabled0 && (changed <==> enabled != enabled0)
      invariant Accounts(reg, Names(reg), optedIn, optedOut, enabled, skipped)
      invariant forall t :: t <= enabled0 && Closed(reg, t) ==> t <= enabled
      invariant !changed ==> forall k :: 0 <= k < i && reg[k].name in enabled ==>
                  forall r :: r in reg[k].requirements ==> r in enabled
    {
      var spec := reg[i];
      if spec.name in enabled {
        FirstMissingIsMissing(spec.requirements, enabled);
        var missing := FirstMissing(spec.requirements, enabled);
        if missing.Some? {
          DropOne(reg, optedIn, optedOut, enabled, skipped, spec, missing.value);
          assert Needs(reg, spec.name, missing.value);
          enabled := enabled - {spec.name};
          skipped := skipped[spec.name := NeedsOff(missing.value)];
          changed := true;
        }
      }
    }
  }

  lemma DropOne(reg: Registry, optedIn: set<string>, optedOut: set<string>, enabled: set<string>,
                skipped: map<string, Reason>, spec: ModuleSpec, missing: string)
    requires IsRegistry(reg) && spec in reg && spec.name in enabled && enabled <= FirstPass(reg, optedIn, optedOut)
    requires missing in spec.requirements && missing !in enabled
    requires Accounts(reg, Names(reg), optedIn, optedOut, enabled, skipped)
    ensures Accounts(reg, Names(reg), optedIn, optedOut, enabled - {spec.name}, skipped[spec.name := NeedsOff(missing)])
  {
    var left, skipped' := enabled - {spec.name}, skipped[spec.name := NeedsOff(missing)];
    assert spec.name in Names(reg);
    assert skipped'.Keys == Names(reg) - left;
    var m :| m in reg && Chosen(m, optedIn, optedOut) && m.name == spec.name;
    NameOfOne(reg, m, spec);
    forall n | n in skipped' ensures Explains(reg, optedIn, optedOut, left, n, skipped'[n]) {
      if n != spec.name {
        assert Explains(reg, optedIn, optedOut, enabled, n, skipped[n]);
      } else {
        assert Chosen(spec, optedIn, optedOut);
      }
    }
  }

  /** The module is essential, or not turned off and on by default or turned on; and all it
      needs runs as well. */
  ghost predicate IsWanted(reg: Registry, optedIn: set<string>, optedOut: set<string>, enabled: set<string>,
                           n: string) {
    exists m :: m in reg && m.name == n
                && (m.essential || n !in optedOut) && (m.essential || m.defaultEnabled || n in optedIn)
                && forall r :: r in m.requirements ==> r in enabled
  }

  /** What runs is the greatest requirement-closed set of chosen modules, and everything
      else is accounted for. */
  method Resolve(reg: Registry, optedIn: set<string>, optedOut: set<string>) returns (state: ModuleState)
    requires IsRegistry(reg)
    ensures IsGreatest(reg, FirstPass(reg, optedIn, optedOut), state.enabled)
    ensures Accounts(reg, Names(reg), optedIn, optedOut, state.enabled, state.skipped)
    ensures forall n :: n in state.enabled ==> IsWanted(reg, optedIn, optedOut, state.enabled, n)
  {
    var enabled, skipped := ApplyChoices(reg, optedIn, optedOut);
    var changed := true;
    while changed
      invariant enabled <= FirstPass(reg, optedIn, optedOut)
      invariant Accounts(reg, Names(reg), optedIn, optedOut, enabled, skipped)
      invariant forall t :: t <= FirstPass(reg, optedIn, optedOut) && Closed(reg, t) ==> t <= enabled
      invariant !changed ==> Closed(reg, enabled)
      decreases enabled, changed
    {
      enabled, skipped, changed := Sweep(reg, optedIn, optedOut, enabled, skipped);
    }
    state := ModuleState(enabled, skipped);
    forall n | n in enabled ensures IsWanted(reg, optedIn, optedOut, enabled, n) {
      var m :| m in reg && Chosen(m, optedIn, optedOut) && m.name == n;
      assert forall r :: r in m.requirements ==> Needs(reg, n, r);
    }
  }

  // ----- the order of declaration, and the essential modules ------------------------

  /** Two registries that declare the same modules in different orders run the same ones. */
  lemma OrderIsIrrelevant(reg: Registry, reg': Registry, optedIn: set<string>, optedOut: set<string>, s: set<string>,
                          s': set<string>)
    requires forall m :: m in reg <==> m in reg'
    requires IsGreatest(reg, FirstPass(reg, optedIn, optedOut), s)
    requires IsGreatest(reg', FirstPass(reg', optedIn, optedOut), s')
    ensures s == s'
  {
    assert FirstPass(reg, optedIn, optedOut) == FirstPass(reg', optedIn, optedOut);
    SameClosed(reg, reg', s');
    SameClosed(reg', reg, s);
  }

  lemma SameClosed(reg: Registry, reg': Registry, s: set<string>)
    requires (forall m :: m in reg <==> m in reg') && Closed(reg', s)
    ensures Closed(reg, s)
  {
    forall a, b | a in s && Needs(reg, a, b) ensures b in s {
      assert Needs(reg', a, b);
    }
  }

  ghost function Essentials(reg: Registry): set<string> {
    set m | m in reg && m.essential :: m.name
  }

  /** In any registry, whatever the user chooses, essential modules always run exactly when
      they need only essential modules. */
  lemma EssentialsNeverOffIff(reg: Registry)
    ensures (forall optedIn, optedOut, s :: IsGreatest(reg, FirstPass(reg, optedIn, optedOut), s) ==>
               Essentials(reg) <= s)
            <==> Closed(reg, Essentials(reg))
  {
    if Closed(reg, Essentials(reg)) {
      forall optedIn, optedOut, s | IsGreatest(reg, FirstPass(reg, optedIn, optedOut), s) ensures Essentials(reg) <= s {
        assert Essentials(reg) <= FirstPass(reg, optedIn, optedOut);
      }
    } else {
      var optedOut := Names(reg);
      var base := FirstPass(reg, {}, optedOut);
      assert base == Essentials(reg);
      var s := SomeGreatest(reg, base);
      assert s != Essentials(reg);
      assert IsGreatest(reg, FirstPass(reg, {}, optedOut), s) && !(Essentials(reg) <= s);
    }
  }

  lemma {:induction false} SomeGreatest(reg: Registry, base: set<string>) returns (s: set<string>)
    ensures IsGreatest(reg, base, s)
  {
    if Closed(reg, base) {
      s := base;
    } else {
      var a, b :| a in base && Needs(reg, a, b) && b !in base;
      s := SomeGreatest(reg, base - {a});
      forall t | t <= base && Closed(reg, t) ensures t <= s {
        assert a !in t;
      }
    }
  }

  // ----- the modules the program ships ----------------------------------------------

  const MODULE_NAMES := [
    "domain_intel", "ingest", "cloud_assets", "uncover", "reverse_dns", "probe", "tls", "takeover", "crawl",
    "content_discovery", "js_mine", "api_surface", "http_misconfig", "param_discovery", "broken_links", "port_scan",
    "service_scan", "scan", "secrets", "cve_watch", "github_osint", "cloud_buckets", "nuclei_watch", "dork",
    "supply_chain", "typosquat", "correlate", "notify"]

  const ESSENTIAL := {"ingest", "probe"}

  const OPT_IN := {
    "cloud_assets", "uncover", "reverse_dns", "tls", "param_discovery", "service_scan", "cloud_buckets",
    "nuclei_watch", "dork", "typosquat"}

  function RequirementsOf(name: string): seq<string> {
    if name in ["reverse_dns", "probe", "tls", "takeover", "port_scan"] then ["ingest"]
    else if name in ["crawl", "content_discovery", "api_surface", "http_misconfig", "scan", "secrets", "cve_watch",
                     "nuclei_watch"] then ["probe"]
    else if name in ["js_mine", "param_discovery", "broken_links"] then ["crawl"]
    else if name == "service_scan" then ["port_scan"]
    else if name == "supply_chain" then ["js_mine"]
    else []
  }

  /** The program's own table. */
  function Shipped(): Registry {
    seq(|MODULE_NAMES|, i requires 0 <= i < |MODULE_NAMES| =>
      var n := MODULE_NAMES[i];
      ModuleSpec(n, RequirementsOf(n), n !in OPT_IN, n in ESSENTIAL))
  }

  lemma ShippedNamesDiffer()
    ensures forall i, j :: 0 <= i < j < |MODULE_NAMES| ==> MODULE_NAMES[i] != MODULE_NAMES[j]
  {}

  lemma RequiredAreShipped()
    ensures forall r :: r in ["ingest", "probe", "crawl", "port_scan", "js_mine"] ==> r in MODULE_NAMES
  {
    var ns := MODULE_NAMES;
    assert ns[1] == "ingest" && ns[5] == "probe" && ns[8] == "crawl" && ns[15] == "port_scan" && ns[10] == "js_mine";
  }

  lemma ShippedIsRegistry()
    ensures IsRegistry(Shipped())
  {
    hide MODULE_NAMES, OPT_IN, ESSENTIAL;
    ShippedNamesDiffer();
    RequiredAreShipped();
    var reg := Shipped();
    forall m, r | m in reg && r in m.requirements ensures r in Names(reg) {
      assert r in ["ingest", "probe", "crawl", "port_scan", "js_mine"];
      var i :| 0 <= i < |MODULE_NAMES| && MODULE_NAMES[i] == r;
      assert reg[i] in reg;
    }
  }

  lemma ShippedEssentials()
    ensures Essentials(Shipped()) == {"ingest", "probe"}
    ensures Closed(Shipped(), Essentials(Shipped()))
  {
    hide MODULE_NAMES, OPT_IN, IsRegistry;
    var reg := Shipped();
    RequiredAreShipped();
    forall name | name in ESSENTIAL ensures name in Essentials(reg) {
      assert name in ["ingest", "probe", "crawl", "port_scan", "js_mine"];
      var i :| 0 <= i < |MODULE_NAMES| && MODULE_NAMES[i] == name;
      assert reg[i] in reg && reg[i].essential;
    }
  }

  /** Discovery and probing always run, whatever the user turns off. */
  lemma ShippedEssentialsNeverOff(optedIn: set<string>, optedOut: set<string>, s: set<string>)
    requires IsGreatest(Shipped(), FirstPass(Shipped(), optedIn, optedOut), s)
    ensures {"ingest", "probe"} <= s
  {
    hide *;
    ShippedEssentials();
    EssentialsNeverOffIff(Shipped());
  }

  // ----- what a toggle costs --------------------------------------------------------

  ghost predicate IsChain(reg: Registry, p: seq<string>) {
    |p| > 1 && forall i :: 0 <= i < |p| - 1 ==> Needs(reg, p[i], p[i + 1])
  }

  /** `a` needs `b`, directly or through others. */
  ghost predicate DependsOn(reg: Registry, a: string, b: string) {
    exists p :: IsChain(reg, p) && p[0] == a && p[|p| - 1] == b
  }

  lemma DirectDependence(reg: Registry, a: string, b: string)
    requires Needs(reg, a, b)
    ensures DependsOn(reg, a, b)
  {
    assert IsChain(reg, [a, b]) && [a, b][0] == a && [a, b][|[a, b]| - 1] == b;
  }

  lemma LongerDependence(reg: Registry, a: string, b: string, c: string)
    requires Needs(reg, a, b) && DependsOn(reg, b, c)
    ensures DependsOn(reg, a, c)
  {
    hide Needs;
    var p :| IsChain(reg, p) && p[0] == b && p[|p| - 1] == c;
    var q := [a] + p;
    forall i | 0 <= i < |q| - 1 ensures Needs(reg, q[i], q[i + 1]) {
      if i > 0 { assert Needs(reg, p[i - 1], p[i - 1 + 1]); }
    }
    assert IsChain(reg, q);
  }

  /** A closed set that contains the start of a chain contains its end. */
  lemma {:induction false} ClosedFollowsChain(reg: Registry, s: set<string>, p: seq<string>)
    requires Closed(reg, s) && IsChain(reg, p) && p[0] in s
    ensures p[|p| - 1] in s
  {
    hide Needs;
    assert Needs(reg, p[0], p[0 + 1]);
    if |p| > 2 {
      var q := p[1..];
      forall i | 0 <= i < |q| - 1 ensures Needs(reg, q[i], q[i + 1]) {
        assert Needs(reg, p[i + 1], p[i + 1 + 1]);
      }
      ClosedFollowsChain(reg, s, q);
    }
  }

  /** A set closed under "is needed by", from `name` on, holds all that depend on `name`. */
  lemma {:induction false} ConsumersFollowChain(reg: Registry, name: string, out: set<string>, p: seq<string>)
    requires IsChain(reg, p) && p[|p| - 1] == name
    requires forall a, b :: Needs(reg, a, b) && (b == name || b in out) ==> a in out
    ensures p[0] in out
  {
    hide Needs;
    assert Needs(reg, p[0], p[0 + 1]);
    if |p| > 2 {
      var q := p[1..];
      forall i | 0 <= i < |q| - 1 ensures Needs(reg, q[i], q[i + 1]) {
        assert Needs(reg, p[i + 1], p[i + 1 + 1]);
      }
      ConsumersFollowChain(reg, name, out, q);
    }
  }

  /** Adds the modules that need `current` directly. */
  method Consumers(reg: Registry, current: string, out0: set<string>, frontier0: set<string>)
    returns (out: set<string>, frontier: set<string>)
    ensures out == out0 + Direct(reg, current)
    ensures frontier == frontier0 + (Direct(reg, current) - out0)
  {
    out, frontier := out0, frontier0;
    for i := 0 to |reg|
      invariant out == out0 + Direct(reg[..i], current)
      invariant frontier == frontier0 + (Direct(reg[..i], current) - out0)
    {
      var spec := reg[i];
      assert reg[..i + 1] == reg[..i] + [spec];
      assert Direct(reg[..i + 1], current)
             == Direct(reg[..i], current) + if current in spec.requirements then {spec.name} else {};
      if current in spec.requirements && spec.name !in out {
        out := out + {spec.name};
        frontier := frontier + {spec.name};
      }
    }
    assert reg[..|reg|] == reg;
  }

  ghost function Direct(reg: Registry, b: string): set<string> {
    set m | m in reg && b in m.requirements :: m.name
  }

  lemma DirectIsNeeds(reg: Registry, b: string)
    ensures forall a :: a in Direct(reg, b) <==> Needs(reg, a, b)
  {}

  /** Exactly the modules that depend on `name`, found by a worklist. */
  method Closure(reg: Registry, name: string) returns (out: set<string>)
    ensures out <= Names(reg) && forall a :: a in out <==> DependsOn(reg, a, name)
  {
    hide Needs, DependsOn, Direct, Names;
    out := {};
    var frontier := {name};
    ghost var done: set<string> := {};
    while frontier != {}
      invariant out <= Names(reg)
      invariant frontier + done == out + {name}
      invariant forall a :: a in out ==> DependsOn(reg, a, name)
      invariant forall a, b :: Needs(reg, a, b) && b in done ==> a in out
      decreases Names(reg) - out, frontier
    {
      var current :| current in frontier;
      frontier := frontier - {current};
      ghost var out0 := out;
      DirectIsNeeds(reg, current);
      DirectNames(reg, current);
      out, frontier := Consumers(reg, current, out, frontier);
      done := done + {current};
      forall a | a in out ensures DependsOn(reg, a, name) {
        if a !in out0 {
          if current == name { DirectDependence(reg, a, name); } else { LongerDependence(reg, a, current, name); }
        }
      }
      if out == out0 {
        assert Direct(reg, current) - out0 == {};
      } else {
        assert Names(reg) - out < Names(reg) - out0;
      }
    }
    forall a | DependsOn(reg, a, name) ensures a in out {
      DependentIsIn(reg, a, name, out);
    }
  }

  /** Exactly the modules that depend on `name`, in the order of declaration. */
  method DependentsOf(reg: Registry, name: string) returns (dependents: seq<string>)
    requires IsRegistry(reg)
    ensures forall a :: a in dependents <==> DependsOn(reg, a, name)
    ensures exists ks :: AreDeclaredAt(reg, dependents, ks)
  {
    hide DependsOn;
    var out := Closure(reg, name);
    dependents := [];
    ghost var ks: seq<nat> := [];
    for i := 0 to |reg|
      invariant AreDeclaredAt(reg, dependents, ks) && forall j :: 0 <= j < |ks| ==> ks[j] < i
      invariant forall a :: a in dependents <==> a in Names(reg[..i]) && a in out
    {
      assert reg[..i + 1] == reg[..i] + [reg[i]];
      assert Names(reg[..i + 1]) == Names(reg[..i]) + {reg[i].name};
      if reg[i].name in out {
        dependents := dependents + [reg[i].name];
        ks := ks + [i];
      }
    }
    assert reg[..|reg|] == reg;
  }

  /** The names stand at the increasing positions `ks` of the registry. */
  ghost predicate AreDeclaredAt(reg: Registry, names: seq<string>, ks: seq<nat>) {
    && |ks| == |names|
    && (forall i, j :: 0 <= i < j < |ks| ==> ks[i] < ks[j])
    && forall i :: 0 <= i < |ks| ==> ks[i] < |reg| && names[i] == reg[ks[i]].name
  }

  lemma DirectNames(reg: Registry, b: string)
    ensures Direct(reg, b) <= Names(reg)
  {}

  lemma DependentIsIn(reg: Registry, a: string, name: string, out: set<string>)
    requires DependsOn(reg, a, name)
    requires forall a, b :: Needs(reg, a, b) && b in out + {name} ==> a in out
    ensures a in out
  {
    hide Needs;
    var p :| IsChain(reg, p) && p[0] == a && p[|p| - 1] == name;
    ConsumersFollowChain(reg, name, out, p);
  }

  /** Switching off a module that is not essential removes exactly it and its dependents. */
  lemma DisablingCosts(reg: Registry, optedIn: set<string>, optedOut: set<string>, x: string, before: set<string>,
                       after: set<string>)
    requires IsRegistry(reg) && x !in Essentials(reg)
    requires IsGreatest(reg, FirstPass(reg, optedIn, optedOut), before)
    requires IsGreatest(reg, FirstPass(reg, optedIn, optedOut + {x}), after)
    ensures forall n :: n in after <==> n in before && n != x && !DependsOn(reg, n, x)
  {
    hide Needs, DependsOn;
    var base, base' := FirstPass(reg, optedIn, optedOut), FirstPass(reg, optedIn, optedOut + {x});
    assert base' == base - {x};
    var left := set n | n in before && n != x && !DependsOn(reg, n, x);
    forall a, b | a in left && Needs(reg, a, b) ensures b in left {
      if b == x { DirectDependence(reg, a, x); }
      if DependsOn(reg, b, x) { LongerDependence(reg, a, b, x); }
    }
    assert left <= after;
    forall n | n in after ensures !DependsOn(reg, n, x) {
      if DependsOn(reg, n, x) { ClosedFollowsDependence(reg, after, n, x); }
    }
  }

  lemma ClosedFollowsDependence(reg: Registry, s: set<string>, a: string, b: string)
    requires Closed(reg, s) && a in s && DependsOn(reg, a, b)
    ensures b in s
  {
    hide Needs;
    var p :| IsChain(reg, p) && p[0] == a && p[|p| - 1] == b;
    ClosedFollowsChain(reg, s, p);
  }

  /** Switching off an essential module changes nothing. */
  lemma DisablingEssentialIsIgnored(reg: Registry, optedIn: set<string>, optedOut: set<string>, x: string,
                                    before: set<string>, after: set<string>)
    requires IsRegistry(reg) && x in Essentials(reg)
    requires IsGreatest(reg, FirstPass(reg, optedIn, optedOut), before)
    requires IsGreatest(reg, FirstPass(reg, optedIn, optedOut + {x}), after)
    ensures before == after
  {
    var e :| e in reg && e.essential && e.name == x;
    forall m | m in reg && m.name == x ensures m.essential {
      NameOfOne(reg, m, e);
    }
    assert FirstPass(reg, optedIn, optedOut + {x}) == FirstPass(reg, optedIn, optedOut);
  }

  // ----- stored choices -------------------------------------------------------------

  /** The names worth storing as disabled: registered and not essential. */
  ghost function SanitizeDisabled(reg: Registry, names: set<string>): set<string> {
    names * (Names(reg) - Essentials(reg))
  }

  /** Sanitising a disabled list never changes what runs. */
  lemma SanitizingIsHarmless(reg: Registry, optedIn: set<string>, names: set<string>, s: set<string>)
    requires IsRegistry(reg)
    ensures IsGreatest(reg, FirstPass(reg, optedIn, names), s)
            <==> IsGreatest(reg, FirstPass(reg, optedIn, SanitizeDisabled(reg, names)), s)
  {
    forall m | m in reg ensures Chosen(m, optedIn, names) == Chosen(m, optedIn, SanitizeDisabled(reg, names)) {
      if m.name in Essentials(reg) {
        var e :| e in reg && e.essential && e.name == m.name;
        NameOfOne(reg, m, e);
      }
    }
    assert FirstPass(reg, optedIn, names) == FirstPass(reg, optedIn, SanitizeDisabled(reg, names));
  }
}
