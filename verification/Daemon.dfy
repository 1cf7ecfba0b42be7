/**
 The daemon's registry operations and configuration reload. Go iterates maps in arbitrary
 order, so the loops here pick the next name nondeterministically.
 */
module Daemon {

  import opened Units
  import opened Registry
  import opened Instances
  import opened Bindings
  import SM = StateManager
  import R = Restarter
  import D = Dependents

  // ---- the daemon

  class Daemon {
    const matcher: Matcher
    const sys: Systemd
    const sm: SM.StateManager
    const restarter: R.Restarter
    ghost const sockets: set<string>   // the unit names socket activation is configured for
    var registeredUnits: set<string>
    var criticalUnits: set<string>
    var unitCancels: map<string, UnitConfig>
    var socketMonitors: map<string, seq<HealthCheck>>

    ghost function View(): Registry
      reads this, sm, restarter
    {
      Registry(registeredUnits, criticalUnits, unitCancels, socketMonitors, sm.units, restarter.View())
    }

    constructor (matcher: Matcher, sys: Systemd, sm: SM.StateManager, restarter: R.Restarter, ghost sockets: set<string>)
      ensures this.matcher == matcher && this.sys == sys && this.sm == sm && this.restarter == restarter
      ensures this.sockets == sockets
      ensures View() == Registry({}, {}, map[], map[], sm.units, restarter.View())
      ensures sm.units == map[] && restarter.trackers == map[] ==> InAgreement()
    {
      this.matcher, this.sys, this.sm, this.restarter, this.sockets := matcher, sys, sm, restarter, sockets;
      registeredUnits, criticalUnits, unitCancels, socketMonitors := {}, {}, map[], map[];
    }

    /** The maps agree, as `Registry.Agreed` says. */
    ghost predicate InAgreement()
      reads this, sm, restarter
    {
      Agreed(View(), sockets)
    }

    method RegisterUnit(name: string, unit: UnitConfig, now: int)
      modifies this, sm, restarter
      ensures View() == RegisterSpec(old(View()), name, unit, sys.report(name), now)
      ensures sm.emitted == old(sm.emitted) + if name in old(registeredUnits) then [] else InitialEvents(name, sys.report(name), now)
      ensures old(Valid(View())) ==> Valid(View())
      ensures old(InAgreement()) && name !in sockets && unit.restart.Some? ==> InAgreement()
    {
      if name in registeredUnits {
        return;
      }
      ghost var d := View();
      AddUnit(name, unit, now);
      Keeps(d, Register(name, unit, sys.report(name), now));
    }

    method AddUnit(name: string, unit: UnitConfig, now: int)
      requires name !in registeredUnits
      modifies this, sm, restarter
      ensures View() == RegisterSpec(old(View()), name, unit, sys.report(name), now)
      ensures sm.emitted == old(sm.emitted) + InitialEvents(name, sys.report(name), now)
    {
      registeredUnits := registeredUnits + {name};
      unitCancels := unitCancels[name := unit];
      if unit.critical {
        criticalUnits := criticalUnits + {name};
      }
      sm.Register(name);
      if unit.restart.Some? {
        restarter.Register(name, unit.restart.value);
      }
      ReportState(name, now);
      InitialStatusAgain(name, old(sm.units), sys.report(name), now);
    }

    /** The initial state systemd reports reaches the state manager. */
    method ReportState(name: string, now: int)
      requires name in sm.units && sm.units[name] == SM.FRESH
      modifies sm
      ensures sm.units == InitialStatus(name, old(sm.units), sys.report(name), now)
      ensures sm.emitted == old(sm.emitted) + InitialEvents(name, sys.report(name), now)
    {
      assert sm.units[name := SM.FRESH] == sm.units;
      var state := sys.report(name);
      if state.Some? {
        sm.UpdateState(name, state.value.0, state.value.1, now);
      }
    }

    lemma Keeps(d: Registry, op: Op)
      ensures Valid(d) ==> Valid(Apply(d, op))
      ensures Agreed(d, sockets) && Separated(op, sockets) ==> Agreed(Apply(d, op), sockets)
    {
      if Agreed(d, sockets) && Separated(op, sockets) {
        OperationAgrees(d, op, sockets);
      }
      if Valid(d) {
        OperationKeepsValid(d, op);
      }
    }

    method UnregisterUnit(name: string)
      modifies this, sm, restarter
      ensures View() == UnregisterSpec(old(View()), name)
      ensures old(Valid(View())) ==> Valid(View())
      ensures old(InAgreement()) && name !in sockets ==> InAgreement()
    {
      if name !in unitCancels {
        return;
      }
      ghost var d := View();
      registeredUnits := registeredUnits - {name};
      unitCancels := unitCancels - {name};
      criticalUnits := criticalUnits - {name};
      restarter.Unregister(name);
      sm.Unregister(name);
      Keeps(d, Unregister(name));
    }

    method UpdateUnit(name: string, unit: UnitConfig, now: int)
      modifies this, sm, restarter
      ensures View() == UpdateSpec(old(View()), name, unit, sys.report(name), now)
      ensures old(Valid(View())) ==> Valid(View())
      ensures old(InAgreement()) && name !in sockets && unit.restart.Some? ==> InAgreement()
    {
      UnregisterUnit(name);
      RegisterUnit(name, unit, now);
    }

    method Watch(unit: string, checks: seq<HealthCheck>, policy: RestartPolicy)
      modifies this, sm, restarter
      ensures View() == WatchSpec(old(View()), unit, checks, policy)
      ensures old(Valid(View())) ==> Valid(View())
      ensures old(InAgreement()) && unit in sockets ==> InAgreement()
    {
      ghost var d := View();
      if |checks| == 0 {
        return;
      }
      socketMonitors := socketMonitors[unit := checks];
      sm.Register(unit);
      restarter.Register(unit, policy);
      Keeps(d, Op.Watch(unit, checks, policy));
    }

    method Unwatch(unit: string)
      modifies this, sm, restarter
      ensures View() == UnwatchSpec(old(View()), unit)
      ensures old(Valid(View())) ==> Valid(View())
      ensures old(InAgreement()) && unit in sockets ==> InAgreement()
    {
      ghost var d := View();
      if unit !in socketMonitors {
        return;
      }
      socketMonitors := socketMonitors - {unit};
      restarter.Unregister(unit);
      sm.Unregister(unit);
      Keeps(d, Op.Unwatch(unit));
    }

    method FindMatchingTemplate(name: string, templates: seq<UnitConfig>) returns (r: Option<UnitConfig>)
      ensures r == FirstMatch(matcher, templates, name)
      ensures (forall t <- templates :: t.IsTemplate() && '@' !in t.kind) ==> FindsFirst(matcher, templates, name, r)
    {
      FirstMatchIsFirst(matcher, templates, name);
      for k := 0 to |templates|
        invariant FirstMatch(matcher, templates[..k], name).None?
      {
        var tmpl := templates[k];
        FirstMatchSnoc(matcher, templates, k, name);
        var prefix := tmpl.TemplatePrefix();
        if HasPrefix(name, prefix) && HasSuffix(name, "." + tmpl.kind) {
          var instance := ExtractInstance(name, prefix, tmpl.kind);
          if tmpl.instanceMatch.None? || matcher(tmpl.instanceMatch.value, instance) {
            FirstMatchStays(matcher, templates, k + 1, name);
            return Some(tmpl);
          }
        }
      }
      assert templates[..|templates|] == templates;
      return None;
    }

    /** The live units with a prefix, in any order; None when the call fails. */
    method ListUnits(prefix: string) returns (names: Option<seq<string>>)
      ensures names.None? <==> prefix in sys.unlisted
      ensures names.Some? ==> forall n :: n in names.value <==> n in sys.live && HasPrefix(n, prefix)
    {
      if prefix in sys.unlisted {
        return None;
      }
      var todo, out := sys.live, [];
      while todo != {}
        invariant todo <= sys.live
        invariant forall n :: n in out <==> n in sys.live - todo && HasPrefix(n, prefix)
        decreases todo
      {
        var n :| n in todo;
        if HasPrefix(n, prefix) {
          out := out + [n];
        }
        todo := todo - {n};
      }
      return Some(out);
    }
  
    /** Registers every live instance of the template that is not registered yet. */
    method DiscoverInstances(tmpl: UnitConfig, now: int)
      requires Valid(View())
      modifies this, sm, restarter
      ensures Valid(View()) && socketMonitors == old(socketMonitors) && restarter.dependents == old(restarter.dependents)
      ensures IsDiscovered(matcher, sys, tmpl, old(unitCancels), unitCancels)
      ensures old(InAgreement()) && tmpl.restart.Some? && unitCancels.Keys !! sockets ==> InAgreement()
    {
      var prefix := tmpl.TemplatePrefix();
      var units := ListUnits(prefix);
      if units.None? {
        return;
      }
      var names := units.value;
      ghost var start := View();
      for k := 0 to |names|
        invariant Discovering(matcher, sys, tmpl, sockets, start, View())
        invariant forall j | 0 <= j < k :: Matches(matcher, tmpl, names[j]) ==> names[j] in unitCancels
      {
        var name := names[k];
        if HasSuffix(name, "." + tmpl.kind) {
          var instance := ExtractInstance(name, prefix, tmpl.kind);
          if tmpl.instanceMatch.None? || matcher(tmpl.instanceMatch.value, instance) {
            ghost var d := View();
            DiscoverStep(matcher, sys, tmpl, sockets, start, d, name, now);
            RegisterUnit(name, tmpl, now);
          }
        }
      }
    }

    /** The registration part of Run: the reverse-dependency index, then the units in
        configuration order, templates discovered when their turn comes, names already
        registered kept. */
    method Startup(cfg: seq<UnitConfig>, now: int)
      requires Valid(View()) && unitCancels == map[]
      modifies this, sm, restarter
      ensures Valid(View()) && IsStarted(matcher, sys, cfg, unitCancels)
      ensures (forall u <- cfg :: '@' !in u.kind) ==> StartsExactly(matcher, sys, cfg, unitCancels)
      ensures D.IsIndex(cfg, restarter.dependents)
      ensures old(InAgreement()) && CanStart(matcher, sys, cfg, sockets) ==> InAgreement()
    {
      ghost var start := View();
      var index := D.BuildDependents(cfg);
      restarter.SetDependents(index);
      IndexAgrees(start, View(), sockets);
      for k := 0 to |cfg|
        invariant Valid(View()) && IsStarted(matcher, sys, cfg[..k], unitCancels)
        invariant restarter.dependents == index
        invariant Agreed(start, sockets) && (forall u <- cfg :: u.restart.Some?) && unitCancels.Keys !! sockets ==>
                    InAgreement()
      {
        var unit := cfg[k];
        ghost var before := unitCancels;
        if unit.IsEnabled() {
          if unit.IsTemplate() {
            DiscoverInstances(unit, now);
          } else {
            RegisterUnit(unit.UnitName(), unit, now);
          }
        }
        StartStep(matcher, sys, cfg, k, before, unitCancels);
        assert before.Keys <= unitCancels.Keys && unit in cfg;
      }
      assert cfg[..|cfg|] == cfg;
      if forall u <- cfg :: '@' !in u.kind {
        StartedExactly(matcher, sys, cfg, unitCancels);
      }
    }

    /** Reload's loop over the names registered before it, in any order. */
    method RebindOldUnits(newUnits: map<string, UnitConfig>, templates: seq<UnitConfig>, now: int)
      requires Valid(View())
      modifies this, sm, restarter
      ensures Rebinding(matcher, newUnits, templates, sockets, old(View()), View(), {})
    {
      ghost var start := View();
      var todo := registeredUnits;
      while todo != {}
        invariant Rebinding(matcher, newUnits, templates, sockets, start, View(), todo)
        decreases todo
      {
        var name :| name in todo;
        assert todo == todo - {name} + {name};
        todo := todo - {name};
        RebindUnit(newUnits, templates, now, name, start, todo);
      }
    }

    method RebindUnit(newUnits: map<string, UnitConfig>, templates: seq<UnitConfig>, now: int, name: string,
                      ghost start: Registry, ghost todo: set<string>)
      requires Valid(start) && name !in todo
      requires Rebinding(matcher, newUnits, templates, sockets, start, View(), todo + {name})
      modifies this, sm, restarter
      ensures Rebinding(matcher, newUnits, templates, sockets, start, View(), todo)
    {
      ghost var d := View();
      if name in newUnits {
        KeepOld(matcher, newUnits, templates, sockets, start, d, todo, name);
      } else {
        var tmpl := FindMatchingTemplate(name, templates);
        RebindStep(matcher, newUnits, templates, sockets, start, d, todo, name, sys.report(name), now);
        if tmpl.Some? {
          UpdateUnit(name, tmpl.value, now);
        } else {
          UnregisterUnit(name);
        }
      }
    }

    /** Reload's loop over the new explicit units, in any order. */
    method ApplyNewUnits(newUnits: map<string, UnitConfig>, now: int)
      requires Valid(View())
      modifies this, sm, restarter
      ensures Applying(newUnits, sockets, old(View()), View(), {})
    {
      ghost var start := View();
      var todo := newUnits.Keys;
      while todo != {}
        invariant Applying(newUnits, sockets, start, View(), todo)
        decreases todo
      {
        var name :| name in todo;
        var unit := newUnits[name];
        ghost var d := View();
        todo := todo - {name};
        ApplyStep(newUnits, sockets, start, d, todo, name, sys.report(name), now);
        if name !in registeredUnits {
          RegisterUnit(name, unit, now);
        } else {
          UpdateUnit(name, unit, now);
        }
      }
    }

    /** Reload's loop over the templates. */
    method DiscoverAll(templates: seq<UnitConfig>, now: int)
      requires Valid(View()) && forall t <- templates :: t.IsTemplate()
      modifies this, sm, restarter
      ensures Finding(matcher, sys, templates, sockets, old(View()), View(), |templates|)
    {
      ghost var start := View();
      FindingNothing(matcher, sys, templates, sockets, start);
      for k := 0 to |templates|
        invariant Finding(matcher, sys, templates, sockets, start, View(), k)
      {
        ghost var d := View();
        DiscoverInstances(templates[k], now);
        FindingStep(matcher, sys, templates, sockets, start, d, View(), k);
      }
    }

    /** Reload: whatever order the maps are iterated in, the registered names are the enabled
        explicit units, the old names that are instances of a template, and the discovered
        live instances, each bound to its explicit unit or else its first template; the
        critical names are those of the units bound to a critical configuration. A
        configuration that fails to load changes nothing. */
    method Reload(loaded: Option<seq<UnitConfig>>, now: int)
      requires Valid(View())
      modifies this, sm, restarter
      ensures loaded.None? ==> View() == old(View())
      ensures loaded.Some? ==>
                && IsReloaded(matcher, sys, loaded.value, old(registeredUnits), unitCancels)
                && registeredUnits == unitCancels.Keys
                && criticalUnits == (set n | n in unitCancels && unitCancels[n].critical)
                && socketMonitors == old(socketMonitors)
                && D.IsIndex(loaded.value, restarter.dependents)
      ensures loaded.Some? && WellNamed(loaded.value) ==>
                ReloadsExactly(matcher, sys, loaded.value, old(registeredUnits), unitCancels)
      ensures loaded.Some? && old(InAgreement()) && CanAgree(matcher, sys, loaded.value, old(registeredUnits), sockets) ==>
                InAgreement()
    {
      if loaded.None? {
        return;
      }
      var cfg := loaded.value;
      var newUnits, templates := map[], [];
      for i := 0 to |cfg|
        invariant newUnits == NewUnits(cfg[..i]) && templates == Templates(cfg[..i])
      {
        var unit := cfg[i];
        assert cfg[..i + 1][..i] == cfg[..i];
        if unit.IsEnabled() {
          if unit.IsTemplate() {
            templates := templates + [unit];
          } else {
            newUnits := newUnits[unit.UnitName() := unit];
          }
        }
      }
      assert cfg[..|cfg|] == cfg;
      TemplatesAreTemplates(cfg);
      ghost var start := View();
      RebindOldUnits(newUnits, templates, now);
      ghost var rebound := View();
      var index := D.BuildDependents(cfg);
      restarter.SetDependents(index);
      ghost var indexed := View();
      ApplyNewUnits(newUnits, now);
      ghost var applied := View();
      DiscoverAll(templates, now);
      ReloadPhases(matcher, sys, cfg, sockets, start, rebound, indexed, applied, View());
      if WellNamed(cfg) {
        ReloadedExactly(matcher, sys, cfg, start.registered, unitCancels);
      }
    }
  }

  /** The registry while the template's instances are being registered. */
  ghost predicate Discovering(m: Matcher, sys: Systemd, tmpl: UnitConfig, sockets: set<string>, start: Registry, d: Registry) {
    && Valid(d) && d.socketMonitors == start.socketMonitors && d.restarter.dependents == start.restarter.dependents
    && IsPartlyDiscovered(m, sys, tmpl, start.contexts, d.contexts)
    && (Agreed(start, sockets) && tmpl.restart.Some? && d.contexts.Keys !! sockets ==> Agreed(d, sockets))
  }

  lemma DiscoverStep(m: Matcher, sys: Systemd, tmpl: UnitConfig, sockets: set<string>, start: Registry, d: Registry, name: string, now: int)
    requires Discovering(m, sys, tmpl, sockets, start, d)
    requires name in sys.live && Matches(m, tmpl, name) && tmpl.TemplatePrefix() !in sys.unlisted
    ensures var r := RegisterSpec(d, name, tmpl, sys.report(name), now);
      && Discovering(m, sys, tmpl, sockets, start, r) && name in r.contexts && forall n <- d.contexts :: n in r.contexts
  {
    var r := RegisterSpec(d, name, tmpl, sys.report(name), now);
    RegisterKeepsValid(d, name, tmpl, sys.report(name), now);
    assert IsPartlyDiscovered(m, sys, tmpl, start.contexts, r.contexts);
    if Agreed(start, sockets) && tmpl.restart.Some? && r.contexts.Keys !! sockets {
      assert d.contexts.Keys <= r.contexts.Keys;
      OperationAgrees(d, Register(name, tmpl, sys.report(name), now), sockets);
    }
  }

  // ---- the phases of reload

  ghost predicate AllHavePolicies(units: map<string, UnitConfig>, templates: seq<UnitConfig>) {
    (forall n <- units :: units[n].restart.Some?) && (forall t <- templates :: t.restart.Some?)
  }

  ghost predicate SameElsewhere(start: Registry, d: Registry) {
    Valid(d) && d.socketMonitors == start.socketMonitors && d.restarter.dependents == start.restarter.dependents
  }

  /** While the old names are rebound: the names in `todo` and the explicit ones are as they
      were, the others are bound to their first template or gone. */
  ghost predicate Rebinding(m: Matcher, newUnits: map<string, UnitConfig>, templates: seq<UnitConfig>, sockets: set<string>,
                            start: Registry, d: Registry, todo: set<string>) {
    && SameElsewhere(start, d) && todo <= start.registered
    && Rebound(m, newUnits, templates, start.contexts, d.contexts, todo)
    && (Agreed(start, sockets) && AllHavePolicies(newUnits, templates) ==> Agreed(d, sockets))
  }

  ghost predicate Rebound(m: Matcher, newUnits: map<string, UnitConfig>, templates: seq<UnitConfig>,
                          start: map<string, UnitConfig>, d: map<string, UnitConfig>, todo: set<string>) {
    && (forall n :: n in d <==> n in start && (n in todo || n in newUnits || FirstMatch(m, templates, n).Some?))
    && (forall n <- d :: Some(d[n]) == if n in todo || n in newUnits then Some(start[n]) else FirstMatch(m, templates, n))
  }

  lemma ReboundNext(m: Matcher, newUnits: map<string, UnitConfig>, templates: seq<UnitConfig>,
                    start: map<string, UnitConfig>, d: map<string, UnitConfig>, todo: set<string>, name: string)
    requires Rebound(m, newUnits, templates, start, d, todo + {name}) && name !in newUnits && name !in todo && name in start
    ensures var tmpl := FirstMatch(m, templates, name);
      Rebound(m, newUnits, templates, start, if tmpl.Some? then d[name := tmpl.value] else d - {name}, todo)
  {
  }

  lemma KeepOld(m: Matcher, newUnits: map<string, UnitConfig>, templates: seq<UnitConfig>, sockets: set<string>,
                start: Registry, d: Registry, todo: set<string>, name: string)
    requires Rebinding(m, newUnits, templates, sockets, start, d, todo + {name}) && name in newUnits && name !in todo
    ensures Rebinding(m, newUnits, templates, sockets, start, d, todo)
  {
  }

  /** `r` is `d` with other contexts and the bookkeeping that goes with them. */
  ghost predicate Follows(d: Registry, r: Registry, contexts: map<string, UnitConfig>, sockets: set<string>, separated: bool) {
    SameElsewhere(d, r) && r.contexts == contexts && (Agreed(d, sockets) && separated ==> Agreed(r, sockets))
  }

  lemma RegisterFollows(d: Registry, name: string, u: UnitConfig, reported: Reported, now: int, sockets: set<string>)
    requires Valid(d) && name !in d.registered
    ensures Follows(d, RegisterSpec(d, name, u, reported, now), d.contexts[name := u], sockets, name !in sockets && u.restart.Some?)
  {
    RegisterKeepsValid(d, name, u, reported, now);
    if Agreed(d, sockets) && name !in sockets && u.restart.Some? {
      OperationAgrees(d, Register(name, u, reported, now), sockets);
    }
  }

  lemma UnregisterFollows(d: Registry, name: string, sockets: set<string>)
    requires Valid(d)
    ensures Follows(d, UnregisterSpec(d, name), d.contexts - {name}, sockets, name !in sockets)
  {
    UnregisterKeepsValid(d, name);
    assert name !in d.contexts ==> d.contexts - {name} == d.contexts;
    if Agreed(d, sockets) && name !in sockets {
      OperationAgrees(d, Unregister(name), sockets);
    }
  }

  lemma UpdateFollows(d: Registry, name: string, u: UnitConfig, reported: Reported, now: int, sockets: set<string>)
    requires Valid(d)
    ensures Follows(d, UpdateSpec(d, name, u, reported, now), d.contexts[name := u], sockets, name !in sockets && u.restart.Some?)
  {
    var mid := UnregisterSpec(d, name);
    UnregisterFollows(d, name, sockets);
    RegisterFollows(mid, name, u, reported, now, sockets);
    assert mid.contexts[name := u] == d.contexts[name := u];
  }

  lemma RebindStep(m: Matcher, newUnits: map<string, UnitConfig>, templates: seq<UnitConfig>, sockets: set<string>,
                   start: Registry, d: Registry, todo: set<string>, name: string, reported: Reported, now: int)
    requires Valid(start)
    requires Rebinding(m, newUnits, templates, sockets, start, d, todo + {name}) && name !in newUnits && name !in todo
    ensures var tmpl := FirstMatch(m, templates, name);
      Rebinding(m, newUnits, templates, sockets, start,
                if tmpl.Some? then UpdateSpec(d, name, tmpl.value, reported, now) else UnregisterSpec(d, name), todo)
  {
    var tmpl := FirstMatch(m, templates, name);
    if tmpl.Some? {
      UpdateFollows(d, name, tmpl.value, reported, now, sockets);
      RebindNext(m, newUnits, templates, sockets, start, d, UpdateSpec(d, name, tmpl.value, reported, now), todo, name);
    } else {
      UnregisterFollows(d, name, sockets);
      RebindNext(m, newUnits, templates, sockets, start, d, UnregisterSpec(d, name), todo, name);
    }
  }

  lemma RebindNext(m: Matcher, newUnits: map<string, UnitConfig>, templates: seq<UnitConfig>, sockets: set<string>,
                   start: Registry, d: Registry, r: Registry, todo: set<string>, name: string)
    requires Valid(start)
    requires Rebinding(m, newUnits, templates, sockets, start, d, todo + {name}) && name !in newUnits && name !in todo
    requires var tmpl := FirstMatch(m, templates, name);
      Follows(d, r, if tmpl.Some? then d.contexts[name := tmpl.value] else d.contexts - {name}, sockets,
              name !in sockets && (tmpl.Some? ==> tmpl.value.restart.Some?))
    ensures Rebinding(m, newUnits, templates, sockets, start, r, todo)
  {
    FirstMatchIn(m, templates, name);
    assert name in todo + {name} && name in start.registered;
    ReboundNext(m, newUnits, templates, start.contexts, d.contexts, todo, name);
  }

  /** While the explicit units are applied. */
  ghost predicate Applying(newUnits: map<string, UnitConfig>, sockets: set<string>, start: Registry, d: Registry, todo: set<string>) {
    && SameElsewhere(start, d)
    && d.contexts.Keys == start.contexts.Keys + (newUnits.Keys - todo)
    && (forall n <- d.contexts :: d.contexts[n] ==
          if n in newUnits && n !in todo then newUnits[n] else start.contexts[n])
    && (Agreed(start, sockets) && AllHavePolicies(newUnits, []) && newUnits.Keys !! sockets ==> Agreed(d, sockets))
  }

  lemma ApplyStep(newUnits: map<string, UnitConfig>, sockets: set<string>, start: Registry, d: Registry, todo: set<string>,
                  name: string, reported: Reported, now: int)
    requires Applying(newUnits, sockets, start, d, todo + {name}) && name in newUnits && name !in todo
    ensures Applying(newUnits, sockets, start,
                     if name in d.registered then UpdateSpec(d, name, newUnits[name], reported, now)
                     else RegisterSpec(d, name, newUnits[name], reported, now), todo)
  {
    var u := newUnits[name];
    if name in d.registered {
      UpdateFollows(d, name, u, reported, now, sockets);
      ApplyNext(newUnits, sockets, start, d, UpdateSpec(d, name, u, reported, now), todo, name);
    } else {
      RegisterFollows(d, name, u, reported, now, sockets);
      ApplyNext(newUnits, sockets, start, d, RegisterSpec(d, name, u, reported, now), todo, name);
    }
  }

  lemma ApplyNext(newUnits: map<string, UnitConfig>, sockets: set<string>, start: Registry, d: Registry, r: Registry,
                  todo: set<string>, name: string)
    requires Applying(newUnits, sockets, start, d, todo + {name}) && name in newUnits && name !in todo
    requires Follows(d, r, d.contexts[name := newUnits[name]], sockets, name !in sockets && newUnits[name].restart.Some?)
    ensures Applying(newUnits, sockets, start, r, todo)
  {
  }

  /** After the first `k` templates have been discovered. */
  ghost predicate Finding(m: Matcher, sys: Systemd, templates: seq<UnitConfig>, sockets: set<string>, start: Registry, d: Registry, k: nat)
    requires k <= |templates|
  {
    && SameElsewhere(start, d)
    && (forall n :: n in d.contexts <==> n in start.contexts || Discovered(m, sys, templates[..k], n))
    && (forall n <- d.contexts :: Some(d.contexts[n]) ==
          if n in start.contexts then Some(start.contexts[n]) else FirstMatch(m, templates, n))
    && (Agreed(start, sockets) && AllHavePolicies(map[], templates) && d.contexts.Keys !! sockets ==> Agreed(d, sockets))
  }

  lemma FindingNothing(m: Matcher, sys: Systemd, templates: seq<UnitConfig>, sockets: set<string>, start: Registry)
    requires Valid(start)
    ensures Finding(m, sys, templates, sockets, start, start, 0)
  {
  }

  lemma FindingStep(m: Matcher, sys: Systemd, templates: seq<UnitConfig>, sockets: set<string>,
                    start: Registry, d: Registry, r: Registry, k: nat)
    requires k < |templates| && (forall t <- templates :: t.IsTemplate())
    requires Finding(m, sys, templates, sockets, start, d, k)
    requires SameElsewhere(d, r) && IsDiscovered(m, sys, templates[k], d.contexts, r.contexts)
    requires Agreed(d, sockets) && templates[k].restart.Some? && r.contexts.Keys !! sockets ==> Agreed(r, sockets)
    ensures Finding(m, sys, templates, sockets, start, r, k + 1)
  {
    forall n
      ensures n in r.contexts <==> n in start.contexts || Discovered(m, sys, templates[..k + 1], n)
      ensures n in r.contexts && n !in d.contexts ==> FirstMatch(m, templates, n) == Some(r.contexts[n])
    {
      FoundName(m, sys, templates, k, start.contexts, d.contexts, r.contexts, n);
    }
    assert d.contexts.Keys <= r.contexts.Keys;
    assert templates[k] in templates;
  }

  lemma FoundName(m: Matcher, sys: Systemd, templates: seq<UnitConfig>, k: nat,
                  start: map<string, UnitConfig>, d: map<string, UnitConfig>, r: map<string, UnitConfig>, n: string)
    requires k < |templates| && (forall t <- templates :: t.IsTemplate())
    requires n in d <==> n in start || Discovered(m, sys, templates[..k], n)
    requires IsDiscovered(m, sys, templates[k], d, r)
    ensures n in r <==> n in start || Discovered(m, sys, templates[..k + 1], n)
    ensures n in r && n !in d ==> FirstMatch(m, templates, n) == Some(r[n])
  {
    DiscoveredSnoc(m, sys, templates, k, n);
    if n in r && n !in d { FirstMatchStays(m, templates, k + 1, n); }
  }

  lemma ReloadPhases(m: Matcher, sys: Systemd, cfg: seq<UnitConfig>, sockets: set<string>,
                     start: Registry, rebound: Registry, indexed: Registry, applied: Registry, done: Registry)
    requires Valid(start)
    requires Rebinding(m, NewUnits(cfg), Templates(cfg), sockets, start, rebound, {})
    requires indexed == rebound.(restarter := rebound.restarter.(dependents := indexed.restarter.dependents))
    requires Applying(NewUnits(cfg), sockets, indexed, applied, {})
    requires Finding(m, sys, Templates(cfg), sockets, applied, done, |Templates(cfg)|)
    ensures IsReloaded(m, sys, cfg, start.registered, done.contexts)
    ensures Agreed(start, sockets) && CanAgree(m, sys, cfg, start.registered, sockets) ==> Agreed(done, sockets)
  {
    var ts := Templates(cfg);
    assert ts[..|ts|] == ts;
    PhasesBind(m, sys, cfg, start.registered, start.contexts, rebound.contexts, applied.contexts, done.contexts);
    if CanAgree(m, sys, cfg, start.registered, sockets) {
      PoliciesOf(cfg);
      NewNamesReloaded(m, sys, cfg, start.registered, sockets);
      IndexAgrees(rebound, indexed, sockets);
    }
  }

  lemma NewNamesReloaded(m: Matcher, sys: Systemd, cfg: seq<UnitConfig>, oldNames: set<string>, sockets: set<string>)
    requires ReloadNames(m, sys, cfg, oldNames) !! sockets
    ensures NewUnits(cfg).Keys !! sockets
  {
    assert NewUnits(cfg).Keys <= ReloadNames(m, sys, cfg, oldNames);
  }

  lemma PoliciesOf(cfg: seq<UnitConfig>)
    requires forall u <- cfg :: u.restart.Some?
    ensures AllHavePolicies(NewUnits(cfg), Templates(cfg)) && AllHavePolicies(NewUnits(cfg), [])
    ensures AllHavePolicies(map[], Templates(cfg))
  {
    TemplatesAreTemplates(cfg);
  }

  lemma IndexAgrees(d: Registry, r: Registry, sockets: set<string>)
    requires Valid(d) && r == d.(restarter := d.restarter.(dependents := r.restarter.dependents))
    ensures Valid(r) && (Agreed(d, sockets) ==> Agreed(r, sockets))
  {
  }

  /** The three loops together bind every name as the specification says. */
  lemma PhasesBind(m: Matcher, sys: Systemd, cfg: seq<UnitConfig>, oldNames: set<string>, c0: map<string, UnitConfig>,
                   c1: map<string, UnitConfig>, c2: map<string, UnitConfig>, c3: map<string, UnitConfig>)
    requires oldNames == c0.Keys
    requires forall n :: n in c1 <==> n in c0 && (n in NewUnits(cfg) || FirstMatch(m, Templates(cfg), n).Some?)
    requires forall n <- c1 :: n !in NewUnits(cfg) ==> Some(c1[n]) == FirstMatch(m, Templates(cfg), n)
    requires forall n :: n in c2 <==> n in c1 || n in NewUnits(cfg)
    requires forall n <- c2 :: c2[n] == if n in NewUnits(cfg) then NewUnits(cfg)[n] else c1[n]
    requires forall n :: n in c3 <==> n in c2 || Discovered(m, sys, Templates(cfg), n)
    requires forall n <- c3 :: Some(c3[n]) == if n in c2 then Some(c2[n]) else FirstMatch(m, Templates(cfg), n)
    ensures IsReloaded(m, sys, cfg, oldNames, c3)
  {
    forall n ensures n in c3.Keys <==> n in ReloadNames(m, sys, cfg, oldNames) {}
  }
}
