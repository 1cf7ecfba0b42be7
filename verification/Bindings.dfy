/**
 Which unit of the configuration a name is bound to: the functional specifications of
 startup and reload, how they differ, and both again in terms of unit names alone.
 */
module Bindings {

  import opened Units
  import opened Registry
  import opened Instances

  // ---- the first of a list

  /** The first unit of the list with the property. */
  function First(us: seq<UnitConfig>, p: UnitConfig -> bool): Option<UnitConfig> {
    if |us| == 0 then None
    else
      var k := |us| - 1;
      var earlier := First(us[..k], p);
      if earlier.Some? then earlier else if p(us[k]) then Some(us[k]) else None
  }

  predicate IsFirst(us: seq<UnitConfig>, p: UnitConfig -> bool, i: nat) {
    i < |us| && p(us[i]) && forall j | 0 <= j < i :: !p(us[j])
  }

  lemma {:induction false} FirstFacts(us: seq<UnitConfig>, p: UnitConfig -> bool)
    ensures First(us, p).Some? ==> exists i: nat :: IsFirst(us, p, i) && us[i] == First(us, p).value
    ensures First(us, p).None? ==> forall i | 0 <= i < |us| :: !p(us[i])
    decreases |us|
  {
    if |us| > 0 {
      var k := |us| - 1;
      var front := us[..k];
      FirstFacts(front, p);
      assert forall j | 0 <= j < k :: us[j] == front[j];
      if First(front, p).Some? {
        var i: nat :| IsFirst(front, p, i) && front[i] == First(front, p).value;
        assert IsFirst(us, p, i);
      } else if p(us[k]) {
        assert IsFirst(us, p, k);
      }
    }
  }

  lemma FirstSnoc(us: seq<UnitConfig>, k: nat, p: UnitConfig -> bool)
    requires k < |us|
    ensures First(us[..k + 1], p) ==
              if First(us[..k], p).Some? then First(us[..k], p) else if p(us[k]) then Some(us[k]) else None
  {
    assert us[..k + 1][..k] == us[..k];
  }

  lemma {:induction false} FirstStays(us: seq<UnitConfig>, k: nat, p: UnitConfig -> bool)
    requires k <= |us| && First(us[..k], p).Some?
    ensures First(us, p) == First(us[..k], p)
    decreases |us| - k
  {
    if k == |us| {
      assert us[..k] == us;
    } else {
      FirstSnoc(us, k, p);
      FirstStays(us, k + 1, p);
    }
  }

  // ---- templates

  function MatchesName(m: Matcher, name: string): UnitConfig -> bool {
    (t: UnitConfig) => Matches(m, t, name)
  }

  /** The first template, in configuration order, that the name is an instance of. */
  function FirstMatch(m: Matcher, templates: seq<UnitConfig>, name: string): Option<UnitConfig> {
    First(templates, MatchesName(m, name))
  }

  predicate MatchesFirst(m: Matcher, ts: seq<UnitConfig>, name: string, i: nat) {
    i < |ts| && Matches(m, ts[i], name) && forall j | 0 <= j < i :: !Matches(m, ts[j], name)
  }

  /** The first match is a template of the list that the name is an instance of, with none
      before it; no match means the name is an instance of none. */
  lemma FirstMatchFacts(m: Matcher, ts: seq<UnitConfig>, name: string)
    ensures var r := FirstMatch(m, ts, name);
      && (r.Some? ==> exists i: nat :: MatchesFirst(m, ts, name, i) && ts[i] == r.value)
      && (r.None? ==> forall i | 0 <= i < |ts| :: !Matches(m, ts[i], name))
  {
    var p := MatchesName(m, name);
    FirstFacts(ts, p);
    assert forall i | 0 <= i < |ts| :: p(ts[i]) == Matches(m, ts[i], name);
    if FirstMatch(m, ts, name).Some? {
      var i: nat :| IsFirst(ts, p, i) && ts[i] == First(ts, p).value;
      assert MatchesFirst(m, ts, name, i);
    }
  }

  lemma FirstMatchIn(m: Matcher, ts: seq<UnitConfig>, name: string)
    ensures FirstMatch(m, ts, name).Some? ==> FirstMatch(m, ts, name).value in ts
  {
    FirstMatchFacts(m, ts, name);
  }

  // ---- the functional specification of reload

  /** The enabled explicit units, by full name. */
  function NewUnits(cfg: seq<UnitConfig>): map<string, UnitConfig> {
    if |cfg| == 0 then map[]
    else
      var u, front := cfg[|cfg| - 1], NewUnits(cfg[..|cfg| - 1]);
      if u.IsEnabled() && !u.IsTemplate() then front[u.UnitName() := u] else front
  }

  /** The enabled templates, in configuration order. */
  function Templates(cfg: seq<UnitConfig>): seq<UnitConfig> {
    if |cfg| == 0 then []
    else
      var u, front := cfg[|cfg| - 1], Templates(cfg[..|cfg| - 1]);
      if u.IsEnabled() && u.IsTemplate() then front + [u] else front
  }

  /** The configuration a name is bound to: its explicit unit, or else its first template. */
  function Binding(m: Matcher, cfg: seq<UnitConfig>, name: string): Option<UnitConfig> {
    if name in NewUnits(cfg) then Some(NewUnits(cfg)[name]) else FirstMatch(m, Templates(cfg), name)
  }

  /** What systemd lists: the live units, the prefixes for which listing fails, and the
      state it reports for each unit. */
  datatype Systemd = Systemd(live: set<string>, unlisted: set<string>, report: string -> Reported)

  /** A live name that some template discovers. */
  predicate Discovered(m: Matcher, sys: Systemd, templates: seq<UnitConfig>, name: string) {
    && name in sys.live
    && FirstMatch(m, templates, name).Some?
    && FirstMatch(m, templates, name).value.TemplatePrefix() !in sys.unlisted
  }

  /** The names registered after a reload: the explicit units, the old names that are
      instances of a template, and the live instances. */
  ghost function ReloadNames(m: Matcher, sys: Systemd, cfg: seq<UnitConfig>, oldNames: set<string>): set<string> {
    NewUnits(cfg).Keys
    + (set n | n in oldNames && FirstMatch(m, Templates(cfg), n).Some?)
    + (set n | n in sys.live && Discovered(m, sys, Templates(cfg), n))
  }

  /** Each bound to its explicit unit or first template. */
  ghost predicate IsReloaded(m: Matcher, sys: Systemd, cfg: seq<UnitConfig>, oldNames: set<string>, contexts: map<string, UnitConfig>) {
    && contexts.Keys == ReloadNames(m, sys, cfg, oldNames)
    && forall n <- contexts :: Binding(m, cfg, n) == Some(contexts[n])
  }

  /** Every unit has a restart policy, and no reloaded name is a socket backend. */
  ghost predicate CanAgree(m: Matcher, sys: Systemd, cfg: seq<UnitConfig>, oldNames: set<string>, sockets: set<string>) {
    (forall u <- cfg :: u.restart.Some?) && ReloadNames(m, sys, cfg, oldNames) !! sockets
  }

  // ---- the functional specification of startup

  /** An enabled unit of the configuration registers this name when its turn comes. */
  predicate Claims(m: Matcher, sys: Systemd, u: UnitConfig, name: string) {
    && u.IsEnabled()
    && (if u.IsTemplate() then name in sys.live && Matches(m, u, name) && u.TemplatePrefix() !in sys.unlisted
        else u.UnitName() == name)
  }

  function ClaimsName(m: Matcher, sys: Systemd, name: string): UnitConfig -> bool {
    (u: UnitConfig) => Claims(m, sys, u, name)
  }

  /** The first unit, in configuration order, that claims the name. */
  function FirstClaim(m: Matcher, sys: Systemd, cfg: seq<UnitConfig>, name: string): Option<UnitConfig> {
    First(cfg, ClaimsName(m, sys, name))
  }

  ghost predicate IsStarted(m: Matcher, sys: Systemd, cfg: seq<UnitConfig>, contexts: map<string, UnitConfig>) {
    && (forall n :: n in contexts <==> FirstClaim(m, sys, cfg, n).Some?)
    && forall n <- contexts :: FirstClaim(m, sys, cfg, n) == Some(contexts[n])
  }

  /** Every unit has a restart policy, and none claims the name of a socket backend. */
  ghost predicate CanStart(m: Matcher, sys: Systemd, cfg: seq<UnitConfig>, sockets: set<string>) {
    (forall u <- cfg :: u.restart.Some?) && forall n <- sockets :: FirstClaim(m, sys, cfg, n).None?
  }

  lemma StartStep(m: Matcher, sys: Systemd, cfg: seq<UnitConfig>, k: nat, before: map<string, UnitConfig>, after: map<string, UnitConfig>)
    requires k < |cfg| && IsStarted(m, sys, cfg[..k], before)
    requires !cfg[k].IsEnabled() ==> after == before
    requires cfg[k].IsEnabled() && cfg[k].IsTemplate() ==> IsDiscovered(m, sys, cfg[k], before, after)
    requires cfg[k].IsEnabled() && !cfg[k].IsTemplate() ==>
      after == if cfg[k].UnitName() in before then before else before[cfg[k].UnitName() := cfg[k]]
    ensures IsStarted(m, sys, cfg[..k + 1], after)
  {
    forall n
      ensures n in after <==> FirstClaim(m, sys, cfg[..k + 1], n).Some?
      ensures n in after ==> FirstClaim(m, sys, cfg[..k + 1], n) == Some(after[n])
    {
      FirstSnoc(cfg, k, ClaimsName(m, sys, n));
    }
  }

  // ---- startup against reload

  predicate DistinctUnitNames(cfg: seq<UnitConfig>) {
    forall i, j | 0 <= i < j < |cfg| :: cfg[i].UnitName() != cfg[j].UnitName()
  }

  /** Some enabled template before the unit at `i` discovers that unit's own name. */
  predicate Shadowed(m: Matcher, sys: Systemd, cfg: seq<UnitConfig>, i: nat)
    requires i < |cfg|
  {
    exists j :: 0 <= j < i && cfg[j].IsTemplate() && Claims(m, sys, cfg[j], cfg[i].UnitName())
  }

  predicate ClaimsFirst(m: Matcher, sys: Systemd, cfg: seq<UnitConfig>, name: string, i: nat) {
    i < |cfg| && Claims(m, sys, cfg[i], name) && forall j | 0 <= j < i :: !Claims(m, sys, cfg[j], name)
  }

  lemma FirstClaimFacts(m: Matcher, sys: Systemd, cfg: seq<UnitConfig>, name: string)
    ensures var r := FirstClaim(m, sys, cfg, name);
      && (r.Some? ==> exists i: nat :: ClaimsFirst(m, sys, cfg, name, i) && cfg[i] == r.value)
      && (r.None? ==> forall i | 0 <= i < |cfg| :: !Claims(m, sys, cfg[i], name))
  {
    var p := ClaimsName(m, sys, name);
    FirstFacts(cfg, p);
    assert forall i | 0 <= i < |cfg| :: p(cfg[i]) == Claims(m, sys, cfg[i], name);
    if FirstClaim(m, sys, cfg, name).Some? {
      var i: nat :| IsFirst(cfg, p, i) && cfg[i] == First(cfg, p).value;
      assert ClaimsFirst(m, sys, cfg, name, i);
    }
  }

  lemma {:induction false} NewUnitAt(cfg: seq<UnitConfig>, i: nat)
    requires i < |cfg| && DistinctUnitNames(cfg) && cfg[i].IsEnabled() && !cfg[i].IsTemplate()
    ensures cfg[i].UnitName() in NewUnits(cfg) && NewUnits(cfg)[cfg[i].UnitName()] == cfg[i]
    decreases |cfg|
  {
    if i < |cfg| - 1 {
      assert cfg[i].UnitName() != cfg[|cfg| - 1].UnitName();
      NewUnitAt(cfg[..|cfg| - 1], i);
    }
  }

  /** Starting with a configuration binds an explicit unit's name as reloading it does
      exactly when no earlier template discovers that name. */
  lemma StartupBindsLikeReload(m: Matcher, sys: Systemd, cfg: seq<UnitConfig>, i: nat)
    requires i < |cfg| && DistinctUnitNames(cfg) && cfg[i].IsEnabled() && !cfg[i].IsTemplate()
    ensures FirstClaim(m, sys, cfg, cfg[i].UnitName()) == Binding(m, cfg, cfg[i].UnitName()) <==> !Shadowed(m, sys, cfg, i)
    ensures Binding(m, cfg, cfg[i].UnitName()) == Some(cfg[i])
  {
    var name := cfg[i].UnitName();
    NewUnitAt(cfg, i);
    FirstClaimFacts(m, sys, cfg, name);
    assert Claims(m, sys, cfg[i], name);
    var k: nat :| ClaimsFirst(m, sys, cfg, name, k) && cfg[k] == FirstClaim(m, sys, cfg, name).value;
    if k < i {
      assert cfg[k].UnitName() != name;
      assert Shadowed(m, sys, cfg, i);
    }
  }

  /** A name is claimed when it is explicit or discovered, and by its first template unless
      it is explicit. */
  lemma {:induction false} ClaimsAreBindings(m: Matcher, sys: Systemd, cfg: seq<UnitConfig>, name: string)
    ensures FirstClaim(m, sys, cfg, name).Some? <==> name in NewUnits(cfg) || Discovered(m, sys, Templates(cfg), name)
    ensures name !in NewUnits(cfg) && Discovered(m, sys, Templates(cfg), name) ==>
              FirstClaim(m, sys, cfg, name) == FirstMatch(m, Templates(cfg), name)
    decreases |cfg|
  {
    if |cfg| > 0 {
      var front, u := cfg[..|cfg| - 1], cfg[|cfg| - 1];
      ClaimsAreBindings(m, sys, front, name);
      if u.IsEnabled() && u.IsTemplate() {
        var ts := Templates(cfg);
        TemplatesAreTemplates(cfg);
        assert ts[..|ts| - 1] == Templates(front) && ts[..|ts|] == ts;
        DiscoveredSnoc(m, sys, ts, |ts| - 1, name);
      }
    }
  }

  ghost predicate NoneShadowed(m: Matcher, sys: Systemd, cfg: seq<UnitConfig>) {
    forall i | 0 <= i < |cfg| && cfg[i].IsEnabled() && !cfg[i].IsTemplate() :: !Shadowed(m, sys, cfg, i)
  }

  lemma {:induction false} NewUnitIndex(cfg: seq<UnitConfig>, name: string) returns (i: nat)
    requires name in NewUnits(cfg)
    ensures i < |cfg| && cfg[i].IsEnabled() && !cfg[i].IsTemplate() && cfg[i].UnitName() == name
    decreases |cfg|
  {
    var u := cfg[|cfg| - 1];
    if u.IsEnabled() && !u.IsTemplate() && u.UnitName() == name {
      i := |cfg| - 1;
    } else {
      i := NewUnitIndex(cfg[..|cfg| - 1], name);
    }
  }

  lemma SameBindings(m: Matcher, sys: Systemd, cfg: seq<UnitConfig>)
    requires DistinctUnitNames(cfg)
    ensures (forall n | FirstClaim(m, sys, cfg, n).Some? :: FirstClaim(m, sys, cfg, n) == Binding(m, cfg, n))
            <==> NoneShadowed(m, sys, cfg)
  {
    if NoneShadowed(m, sys, cfg) {
      forall n | FirstClaim(m, sys, cfg, n).Some? ensures FirstClaim(m, sys, cfg, n) == Binding(m, cfg, n) {
        ClaimsAreBindings(m, sys, cfg, n);
        if n in NewUnits(cfg) {
          var i := NewUnitIndex(cfg, n);
          StartupBindsLikeReload(m, sys, cfg, i);
        }
      }
    }
    if forall n | FirstClaim(m, sys, cfg, n).Some? :: FirstClaim(m, sys, cfg, n) == Binding(m, cfg, n) {
      forall i | 0 <= i < |cfg| && cfg[i].IsEnabled() && !cfg[i].IsTemplate() ensures !Shadowed(m, sys, cfg, i) {
        NewUnitAt(cfg, i);
        ClaimsAreBindings(m, sys, cfg, cfg[i].UnitName());
        StartupBindsLikeReload(m, sys, cfg, i);
      }
    }
  }

  /** Every old name that is an instance of a template is still explicit or live. */
  ghost predicate NoneLingers(m: Matcher, sys: Systemd, cfg: seq<UnitConfig>, oldNames: set<string>) {
    forall n <- oldNames :: FirstMatch(m, Templates(cfg), n).Some? ==>
      n in NewUnits(cfg) || Discovered(m, sys, Templates(cfg), n)
  }

  /** What reloading a configuration registers against what starting with it registers:
      everything that starting does, and nothing more exactly when no instance lingers from
      before; and then the two agree on the bindings exactly when no earlier template
      discovers the name of an explicit unit. */
  lemma ReloadAgainstStartup(m: Matcher, sys: Systemd, cfg: seq<UnitConfig>, oldNames: set<string>,
                             started: map<string, UnitConfig>, reloaded: map<string, UnitConfig>)
    requires DistinctUnitNames(cfg)
    requires IsStarted(m, sys, cfg, started) && IsReloaded(m, sys, cfg, oldNames, reloaded)
    ensures started.Keys <= reloaded.Keys
    ensures started.Keys == reloaded.Keys <==> NoneLingers(m, sys, cfg, oldNames)
    ensures started == reloaded <==> NoneLingers(m, sys, cfg, oldNames) && NoneShadowed(m, sys, cfg)
  {
    StartedKeys(m, sys, cfg, oldNames, started, reloaded);
    SameBindings(m, sys, cfg);
    forall n <- started ensures n in reloaded && (started[n] == reloaded[n] <==> FirstClaim(m, sys, cfg, n) == Binding(m, cfg, n)) {}
    if started.Keys == reloaded.Keys && NoneShadowed(m, sys, cfg) {
      assert forall n <- started :: started[n] == reloaded[n];
    }
  }

  lemma StartedKeys(m: Matcher, sys: Systemd, cfg: seq<UnitConfig>, oldNames: set<string>,
                    started: map<string, UnitConfig>, reloaded: map<string, UnitConfig>)
    requires IsStarted(m, sys, cfg, started) && IsReloaded(m, sys, cfg, oldNames, reloaded)
    ensures started.Keys <= reloaded.Keys
    ensures started.Keys == reloaded.Keys <==> NoneLingers(m, sys, cfg, oldNames)
  {
    forall n ensures n in started <==> n in NewUnits(cfg) || Discovered(m, sys, Templates(cfg), n) {
      ClaimsAreBindings(m, sys, cfg, n);
    }
    forall n ensures n in reloaded <==> n in started || (n in oldNames && FirstMatch(m, Templates(cfg), n).Some?) {
      assert n in reloaded.Keys <==> n in ReloadNames(m, sys, cfg, oldNames);
    }
  }

  const TEMPLATE := UnitConfig("f@", "service", None, false, 0, [], [], None, None)
  const INSTANCE := UnitConfig("f@x", "service", None, true, 0, [], [], None, None)

  /** They can disagree: a template before an explicit instance that is live takes its name
      at startup, and loses it on reload. */
  lemma TemplateCanShadow(m: Matcher, report: string -> Reported)
    ensures var cfg, sys := [TEMPLATE, INSTANCE], Systemd({"f@x.service"}, {}, report);
      && DistinctUnitNames(cfg) && INSTANCE.UnitName() == "f@x.service"
      && FirstClaim(m, sys, cfg, "f@x.service") == Some(TEMPLATE)
      && Binding(m, cfg, "f@x.service") == Some(INSTANCE)
  {
    var cfg, sys := [TEMPLATE, INSTANCE], Systemd({"f@x.service"}, {}, report);
    ShadowNames(m);
    assert cfg[..1] == [TEMPLATE] && [TEMPLATE][..0] == [];
    assert Claims(m, sys, TEMPLATE, "f@x.service");
    var p := ClaimsName(m, sys, "f@x.service");
    assert First([], p) == None && p(TEMPLATE);
    assert First([TEMPLATE], p) == Some(TEMPLATE);
    assert First(cfg[..1], p) == Some(TEMPLATE);
    NewUnitAt(cfg, 1);
  }

  lemma ShadowNames(m: Matcher)
    ensures TEMPLATE.IsTemplate() && Matches(m, TEMPLATE, "f@x.service")
    ensures !INSTANCE.IsTemplate() && INSTANCE.UnitName() == "f@x.service" != TEMPLATE.UnitName()
  {
    TemplateTakes(m, "f", "x", TEMPLATE);
    SplitAt("f@x", "f", "x");
    assert "f" + "@" + "x" + "." + "service" == "f@x.service";
  }

  lemma TemplateTakes(m: Matcher, base: string, instance: string, t: UnitConfig)
    requires t.name == base + "@" && '@' !in base && t.instanceMatch.None?
    ensures t.IsTemplate() && Matches(m, t, base + "@" + instance + "." + t.kind)
  {
    assert Splits(t.name, base, "");
    SplitIsTemplate(t, base, "");
    var name := base + "@" + instance + "." + t.kind;
    assert Names(t, name, instance);
    InstanceMatches(m, t, name);
  }

  // ---- the templates of a configuration

  /** `r` is the first of the templates that the name is an instance of. */
  ghost predicate FindsFirst(m: Matcher, ts: seq<UnitConfig>, name: string, r: Option<UnitConfig>) {
    match r
    case None => forall t <- ts :: !IsInstance(m, t, name)
    case Some(u) =>
      exists i: nat :: i < |ts| && ts[i] == u && IsInstance(m, ts[i], name) && forall j | 0 <= j < i :: !IsInstance(m, ts[j], name)
  }

  lemma FirstMatchIsFirst(m: Matcher, ts: seq<UnitConfig>, name: string)
    ensures (forall t <- ts :: t.IsTemplate() && '@' !in t.kind) ==> FindsFirst(m, ts, name, FirstMatch(m, ts, name))
  {
    FirstMatchFacts(m, ts, name);
    if forall t <- ts :: t.IsTemplate() && '@' !in t.kind {
      forall i | 0 <= i < |ts| ensures Matches(m, ts[i], name) <==> IsInstance(m, ts[i], name) {
        MatchesExactly(m, ts[i], name);
      }
    }
  }

  lemma {:induction false} TemplatesAreTemplates(cfg: seq<UnitConfig>)
    ensures forall t <- Templates(cfg) :: t in cfg && t.IsEnabled() && t.IsTemplate()
    ensures forall n <- NewUnits(cfg) :: NewUnits(cfg)[n] in cfg && NewUnits(cfg)[n].IsEnabled() && !NewUnits(cfg)[n].IsTemplate()
    decreases |cfg|
  {
    if |cfg| > 0 {
      TemplatesAreTemplates(cfg[..|cfg| - 1]);
      assert cfg == cfg[..|cfg| - 1] + [cfg[|cfg| - 1]];
    }
  }

  lemma FirstMatchSnoc(m: Matcher, ts: seq<UnitConfig>, k: nat, name: string)
    requires k < |ts|
    ensures FirstMatch(m, ts[..k + 1], name) ==
              if FirstMatch(m, ts[..k], name).Some? then FirstMatch(m, ts[..k], name)
              else if Matches(m, ts[k], name) then Some(ts[k]) else None
  {
    FirstSnoc(ts, k, MatchesName(m, name));
  }

  lemma FirstMatchStays(m: Matcher, ts: seq<UnitConfig>, k: nat, name: string)
    requires k <= |ts| && FirstMatch(m, ts[..k], name).Some?
    ensures FirstMatch(m, ts, name) == FirstMatch(m, ts[..k], name)
  {
    FirstStays(ts, k, MatchesName(m, name));
  }

  /** Only live instances of the template have been added, nothing else has changed. */
  ghost predicate IsPartlyDiscovered(m: Matcher, sys: Systemd, tmpl: UnitConfig, before: map<string, UnitConfig>, after: map<string, UnitConfig>) {
    && (forall n <- before :: n in after && after[n] == before[n])
    && (forall n <- after :: n in before ||
         (after[n] == tmpl && n in sys.live && Matches(m, tmpl, n) && tmpl.TemplatePrefix() !in sys.unlisted))
  }

  /** The live instances of the template have been added, nothing else has changed. */
  ghost predicate IsDiscovered(m: Matcher, sys: Systemd, tmpl: UnitConfig, before: map<string, UnitConfig>, after: map<string, UnitConfig>) {
    && IsPartlyDiscovered(m, sys, tmpl, before, after)
    && (tmpl.TemplatePrefix() !in sys.unlisted ==> forall n <- sys.live :: Matches(m, tmpl, n) ==> n in after)
  }

  /** One more template discovers the live names it is the first to match. */
  lemma DiscoveredSnoc(m: Matcher, sys: Systemd, templates: seq<UnitConfig>, k: nat, n: string)
    requires k < |templates| && (forall t <- templates :: t.IsTemplate())
    ensures Discovered(m, sys, templates[..k + 1], n) <==>
              Discovered(m, sys, templates[..k], n) ||
              (n in sys.live && Matches(m, templates[k], n) && templates[k].TemplatePrefix() !in sys.unlisted)
    ensures !Discovered(m, sys, templates[..k], n) && Discovered(m, sys, templates[..k + 1], n) ==>
              FirstMatch(m, templates[..k + 1], n) == Some(templates[k])
  {
    FirstMatchSnoc(m, templates, k, n);
    FirstMatchFacts(m, templates[..k], n);
    var earlier := FirstMatch(m, templates[..k], n);
    if earlier.Some? && Matches(m, templates[k], n) {
      MatchingPrefix(earlier.value, n);
      MatchingPrefix(templates[k], n);
    }
  }

  // ---- the same in terms of unit names alone

  /** The unit at `i` is enabled, and no template, and has this full name. */
  ghost predicate Explicit(cfg: seq<UnitConfig>, i: nat, name: string) {
    && i < |cfg| && cfg[i].enabled != Some(false)
    && (forall base, rest :: !Splits(cfg[i].name, base, rest))
    && name == cfg[i].name + "." + cfg[i].kind
  }

  /** The unit at `i` is an enabled template, and this is one of its instances. */
  ghost predicate Instance(m: Matcher, cfg: seq<UnitConfig>, i: nat, name: string) {
    i < |cfg| && cfg[i].enabled != Some(false) && IsInstance(m, cfg[i], name)
  }

  /** systemd lists the name when asked for the template's units. */
  predicate Listed(sys: Systemd, t: UnitConfig, name: string) {
    name in sys.live && t.TemplatePrefix() !in sys.unlisted
  }

  /** What reload registers: the explicit units, the instances that were registered before,
      and the instances that are live. An explicit unit is bound to itself, an instance to
      the first template in the configuration that it is an instance of. */
  ghost predicate ReloadsExactly(m: Matcher, sys: Systemd, cfg: seq<UnitConfig>, oldNames: set<string>, contexts: map<string, UnitConfig>) {
    && (forall n :: n in contexts <==> Kept(m, sys, cfg, oldNames, n))
    && forall n <- contexts :: BoundTo(m, cfg, n, contexts[n])
  }

  ghost predicate Kept(m: Matcher, sys: Systemd, cfg: seq<UnitConfig>, oldNames: set<string>, name: string) {
    || (exists i: nat :: Explicit(cfg, i, name))
    || (exists i: nat :: Instance(m, cfg, i, name) && (name in oldNames || Listed(sys, cfg[i], name)))
  }

  ghost predicate BoundTo(m: Matcher, cfg: seq<UnitConfig>, name: string, u: UnitConfig) {
    exists i: nat :: i < |cfg| && cfg[i] == u && (Explicit(cfg, i, name) || FirstInstance(m, cfg, i, name))
  }

  ghost predicate FirstInstance(m: Matcher, cfg: seq<UnitConfig>, i: nat, name: string) {
    && Instance(m, cfg, i, name)
    && (forall j: nat :: !Explicit(cfg, j, name))
    && (forall j: nat | j < i :: !Instance(m, cfg, j, name))
  }

  /** What starting registers: each name for the first unit in the configuration that is it,
      or is a template of which it is a live instance. */
  ghost predicate StartsExactly(m: Matcher, sys: Systemd, cfg: seq<UnitConfig>, contexts: map<string, UnitConfig>) {
    && (forall n :: n in contexts <==> exists i: nat :: Taken(m, sys, cfg, i, n))
    && forall n <- contexts :: exists i: nat :: Taken(m, sys, cfg, i, n) && cfg[i] == contexts[n]
                                 && forall j: nat | j < i :: !Taken(m, sys, cfg, j, n)
  }

  ghost predicate Taken(m: Matcher, sys: Systemd, cfg: seq<UnitConfig>, i: nat, name: string) {
    Explicit(cfg, i, name) || (Instance(m, cfg, i, name) && Listed(sys, cfg[i], name))
  }

  /** Units have distinct full names, and their types contain no @: they are service and timer. */
  ghost predicate WellNamed(cfg: seq<UnitConfig>) {
    DistinctUnitNames(cfg) && forall u <- cfg :: '@' !in u.kind
  }

  lemma UnitSays(m: Matcher, cfg: seq<UnitConfig>, i: nat, name: string)
    requires i < |cfg| && '@' !in cfg[i].kind
    ensures Explicit(cfg, i, name) <==> cfg[i].IsEnabled() && !cfg[i].IsTemplate() && cfg[i].UnitName() == name
    ensures Instance(m, cfg, i, name) <==> cfg[i].IsEnabled() && cfg[i].IsTemplate() && Matches(m, cfg[i], name)
  {
    TemplateShape(cfg[i]);
    if cfg[i].IsTemplate() {
      MatchesExactly(m, cfg[i], name);
    } else if IsInstance(m, cfg[i], name) {
      var instance :| Names(cfg[i], name, instance);
      assert false;
    }
  }

  lemma ClaimSays(m: Matcher, sys: Systemd, cfg: seq<UnitConfig>, i: nat, name: string)
    requires i < |cfg| && '@' !in cfg[i].kind
    ensures Claims(m, sys, cfg[i], name) <==> Taken(m, sys, cfg, i, name)
  {
    UnitSays(m, cfg, i, name);
  }

  lemma StartedExactly(m: Matcher, sys: Systemd, cfg: seq<UnitConfig>, contexts: map<string, UnitConfig>)
    requires IsStarted(m, sys, cfg, contexts) && forall u <- cfg :: '@' !in u.kind
    ensures StartsExactly(m, sys, cfg, contexts)
  {
    forall n
      ensures n in contexts <==> exists i: nat :: Taken(m, sys, cfg, i, n)
      ensures n in contexts ==> exists i: nat :: Taken(m, sys, cfg, i, n) && cfg[i] == contexts[n]
                                  && forall j: nat | j < i :: !Taken(m, sys, cfg, j, n)
    {
      FirstClaimFacts(m, sys, cfg, n);
      forall i: nat | i < |cfg| ensures Claims(m, sys, cfg[i], n) <==> Taken(m, sys, cfg, i, n) {
        ClaimSays(m, sys, cfg, i, n);
      }
    }
  }

  /** The first match among the templates is the first in the configuration. */
  lemma {:induction false} FirstMatchInConfig(m: Matcher, cfg: seq<UnitConfig>, name: string)
    requires forall u <- cfg :: '@' !in u.kind
    ensures var r := FirstMatch(m, Templates(cfg), name);
      && (r.Some? ==> exists i: nat :: Instance(m, cfg, i, name) && cfg[i] == r.value && forall j: nat | j < i :: !Instance(m, cfg, j, name))
      && (r.None? ==> forall i: nat :: !Instance(m, cfg, i, name))
    decreases |cfg|
  {
    if |cfg| > 0 {
      var k := |cfg| - 1;
      var front := cfg[..k];
      FirstMatchInConfig(m, front, name);
      forall i: nat | i < k ensures Instance(m, front, i, name) <==> Instance(m, cfg, i, name) {
        assert front[i] == cfg[i];
      }
      UnitSays(m, cfg, k, name);
      if cfg[k].IsEnabled() && cfg[k].IsTemplate() {
        assert Templates(cfg)[..|Templates(cfg)| - 1] == Templates(front);
      }
    }
  }

  lemma NewUnitSays(m: Matcher, cfg: seq<UnitConfig>, name: string)
    requires WellNamed(cfg)
    ensures name in NewUnits(cfg) <==> exists i: nat :: Explicit(cfg, i, name)
    ensures name in NewUnits(cfg) ==> exists i: nat :: Explicit(cfg, i, name) && cfg[i] == NewUnits(cfg)[name]
  {
    if name in NewUnits(cfg) {
      var i := NewUnitIndex(cfg, name);
      UnitSays(m, cfg, i, name);
      NewUnitAt(cfg, i);
      assert Explicit(cfg, i, name);
    }
    forall i: nat | Explicit(cfg, i, name) ensures name in NewUnits(cfg) {
      UnitSays(m, cfg, i, name);
      NewUnitAt(cfg, i);
    }
  }

  lemma BindingSays(m: Matcher, sys: Systemd, cfg: seq<UnitConfig>, oldNames: set<string>, name: string)
    requires WellNamed(cfg)
    ensures Kept(m, sys, cfg, oldNames, name) <==>
              || name in NewUnits(cfg)
              || (name in oldNames && FirstMatch(m, Templates(cfg), name).Some?)
              || Discovered(m, sys, Templates(cfg), name)
    ensures Binding(m, cfg, name).Some? ==> BoundTo(m, cfg, name, Binding(m, cfg, name).value)
  {
    NewUnitSays(m, cfg, name);
    FirstMatchInConfig(m, cfg, name);
    if FirstMatch(m, Templates(cfg), name).Some? {
      var i: nat :| Instance(m, cfg, i, name) && cfg[i] == FirstMatch(m, Templates(cfg), name).value
                    && forall j: nat | j < i :: !Instance(m, cfg, j, name);
      SamePrefix(m, cfg, i, name);
    }
  }

  lemma ReloadedExactly(m: Matcher, sys: Systemd, cfg: seq<UnitConfig>, oldNames: set<string>, contexts: map<string, UnitConfig>)
    requires IsReloaded(m, sys, cfg, oldNames, contexts) && WellNamed(cfg)
    ensures ReloadsExactly(m, sys, cfg, oldNames, contexts)
  {
    forall n
      ensures n in contexts <==> Kept(m, sys, cfg, oldNames, n)
      ensures n in contexts ==> BoundTo(m, cfg, n, contexts[n])
    {
      assert n in contexts.Keys <==> n in ReloadNames(m, sys, cfg, oldNames);
      BindingSays(m, sys, cfg, oldNames, n);
    }
  }

  /** All templates of a name are listed, or none. */
  lemma SamePrefix(m: Matcher, cfg: seq<UnitConfig>, i: nat, name: string)
    requires Instance(m, cfg, i, name) && forall u <- cfg :: '@' !in u.kind
    ensures forall j: nat | Instance(m, cfg, j, name) :: cfg[j].TemplatePrefix() == cfg[i].TemplatePrefix()
  {
    UnitSays(m, cfg, i, name);
    MatchingPrefix(cfg[i], name);
    forall j: nat | Instance(m, cfg, j, name) ensures cfg[j].TemplatePrefix() == cfg[i].TemplatePrefix() {
      UnitSays(m, cfg, j, name);
      MatchingPrefix(cfg[j], name);
    }
  }
}
