/** Template units and their instances: which unit names belong to a template. */
module Instances {

  import opened Units

  /** Instance patterns, uninterpreted. */
  type Matcher = (Pattern, string) -> bool

  function ExtractInstance(unitName: string, prefix: string, kind: string): string {
    TrimSuffix(TrimPrefix(unitName, prefix), "." + kind)
  }

  predicate Matches(m: Matcher, tmpl: UnitConfig, name: string) {
    && HasPrefix(name, tmpl.TemplatePrefix())
    && HasSuffix(name, "." + tmpl.kind)
    && (tmpl.instanceMatch.None? ||
        m(tmpl.instanceMatch.value, ExtractInstance(name, tmpl.TemplatePrefix(), tmpl.kind)))
  }

  /** All templates a name is an instance of have the same prefix: up to the name's first '@'. */
  lemma MatchingPrefix(t: UnitConfig, name: string)
    requires t.IsTemplate() && HasPrefix(name, t.TemplatePrefix())
    ensures IndexOf(name, '@').Some? && t.TemplatePrefix() == name[..IndexOf(name, '@').value + 1]
  {
    var i := IndexOf(t.name, '@').value;
    var p := t.TemplatePrefix();
    assert name[..|p|] == p && name[i] == p[i] == '@';
    assert name[..i] == name[..|p|][..i] == t.name[..i];
    FirstIndex(name, i);
  }

  lemma {:induction false} FirstIndex(s: string, i: nat)
    requires i < |s| && s[i] == '@' && '@' !in s[..i]
    ensures IndexOf(s, '@') == Some(i)
    decreases i
  {
    if i > 0 {
      assert s[..i][0] == s[0];
      assert s[1..][..i - 1] == s[..i][1..];
      FirstIndex(s[1..], i - 1);
    }
  }

  // ---- what a template is

  /** The name is `base@`, or `base@{...}`, with the first @ after `base`. */
  ghost predicate Splits(name: string, base: string, rest: string) {
    && name == base + "@" + rest && '@' !in base
    && (rest == "" || (rest[0] == '{' && rest[|rest| - 1] == '}'))
  }

  lemma SplitAt(name: string, base: string, rest: string)
    requires name == base + "@" + rest && '@' !in base
    ensures IndexOf(name, '@') == Some(|base|) && name[|base| + 1..] == rest && name[..|base| + 1] == base + "@"
  {
    assert name[..|base|] == base && name[|base|] == '@';
    FirstIndex(name, |base|);
  }

  lemma Bracketed(s: string)
    ensures HasPrefix(s, "{") && HasSuffix(s, "}") <==> s != "" && s[0] == '{' && s[|s| - 1] == '}'
  {
    if s != "" {
      assert s[..1] == [s[0]] && s[|s| - 1..] == [s[|s| - 1]];
    }
  }

  lemma SplitIsTemplate(t: UnitConfig, base: string, rest: string)
    requires Splits(t.name, base, rest)
    ensures t.IsTemplate() && t.TemplatePrefix() == base + "@"
  {
    SplitAt(t.name, base, rest);
    Bracketed(rest);
  }

  lemma TemplateSplits(t: UnitConfig) returns (base: string, rest: string)
    requires t.IsTemplate()
    ensures Splits(t.name, base, rest)
  {
    var i := IndexOf(t.name, '@').value;
    base, rest := t.name[..i], t.name[i + 1..];
    assert t.name == base + "@" + rest;
    Bracketed(rest);
  }

  /** A unit is a template exactly when its name has that form; its prefix then ends with the
      first @. */
  lemma TemplateShape(t: UnitConfig)
    ensures t.IsTemplate() <==> exists base, rest :: Splits(t.name, base, rest)
    ensures forall base, rest | Splits(t.name, base, rest) :: t.TemplatePrefix() == base + "@"
  {
    forall base, rest | Splits(t.name, base, rest) ensures t.IsTemplate() && t.TemplatePrefix() == base + "@" {
      SplitIsTemplate(t, base, rest);
    }
    if t.IsTemplate() {
      var base, rest := TemplateSplits(t);
    }
  }

  // ---- what an instance is

  /** The name is the template's with `instance` after the @, before the type. */
  ghost predicate Names(t: UnitConfig, name: string, instance: string) {
    exists base, rest :: Splits(t.name, base, rest) && name == base + "@" + instance + "." + t.kind
  }

  /** And the template's pattern, if it has one, accepts the instance. */
  ghost predicate IsInstance(m: Matcher, t: UnitConfig, name: string) {
    exists instance :: Names(t, name, instance) && (t.instanceMatch.Some? ==> m(t.instanceMatch.value, instance))
  }

  /** The instance is what stands between prefix and type, whatever it is. */
  lemma ExtractsInstance(prefix: string, instance: string, kind: string)
    ensures ExtractInstance(prefix + instance + "." + kind, prefix, kind) == instance
    ensures HasPrefix(prefix + instance + "." + kind, prefix) && HasSuffix(prefix + instance + "." + kind, "." + kind)
  {
    var name := prefix + instance + "." + kind;
    assert name[..|prefix|] == prefix && name[|prefix|..] == instance + "." + kind;
    var tail := instance + "." + kind;
    assert tail == instance + ("." + kind);
    assert tail[..|tail| - |"." + kind|] == instance && tail[|tail| - |"." + kind|..] == "." + kind;
    assert name[|name| - |"." + kind|..] == "." + kind;
  }

  /** Prefix and type can overlap in a name only if the type contains an @, which no unit
      type does. */
  lemma NoOverlap(prefix: string, kind: string, name: string) returns (instance: string)
    requires prefix != "" && prefix[|prefix| - 1] == '@' && '@' !in kind
    requires HasPrefix(name, prefix) && HasSuffix(name, "." + kind)
    ensures name == prefix + instance + "." + kind
  {
    var suffix := "." + kind;
    var from := |name| - |suffix|;
    assert name[..|prefix|][|prefix| - 1] == name[|prefix| - 1] == '@';
    forall x | from <= x < |name| ensures name[x] != '@' {
      assert name[x] == name[from..][x - from] == suffix[x - from];
    }
    instance := name[|prefix|..from];
    assert name == name[..|prefix|] + name[|prefix|..from] + name[from..];
    assert prefix + instance + suffix == prefix + instance + "." + kind;
  }

  lemma NamesPrefix(t: UnitConfig, name: string, instance: string)
    requires t.IsTemplate()
    ensures Names(t, name, instance) <==> name == t.TemplatePrefix() + instance + "." + t.kind
  {
    TemplateShape(t);
    var base, rest :| Splits(t.name, base, rest);
    assert t.TemplatePrefix() == base + "@";
  }

  lemma MatchedInstance(m: Matcher, t: UnitConfig, prefix: string, name: string) returns (i: string)
    requires prefix == t.TemplatePrefix() && prefix != "" && prefix[|prefix| - 1] == '@'
    requires '@' !in t.kind && Matches(m, t, name)
    ensures name == prefix + i + "." + t.kind && (t.instanceMatch.Some? ==> m(t.instanceMatch.value, i))
  {
    i := NoOverlap(prefix, t.kind, name);
    ExtractsInstance(prefix, i, t.kind);
  }

  lemma MatchIsInstance(m: Matcher, t: UnitConfig, name: string)
    requires t.IsTemplate() && '@' !in t.kind && Matches(m, t, name)
    ensures IsInstance(m, t, name)
  {
    var base, rest := TemplateSplits(t);
    SplitIsTemplate(t, base, rest);
    var i := MatchedInstance(m, t, base + "@", name);
    assert Names(t, name, i);
  }

  lemma InstanceMatches(m: Matcher, t: UnitConfig, name: string)
    requires t.IsTemplate() && IsInstance(m, t, name)
    ensures Matches(m, t, name)
  {
    var i :| Names(t, name, i) && (t.instanceMatch.Some? ==> m(t.instanceMatch.value, i));
    NamesPrefix(t, name, i);
    ExtractsInstance(t.TemplatePrefix(), i, t.kind);
  }

  /** The test the daemon makes accepts exactly the instances of the template. */
  lemma MatchesExactly(m: Matcher, t: UnitConfig, name: string)
    requires t.IsTemplate() && '@' !in t.kind
    ensures Matches(m, t, name) <==> IsInstance(m, t, name)
  {
    if Matches(m, t, name) { MatchIsInstance(m, t, name); }
    if IsInstance(m, t, name) { InstanceMatches(m, t, name); }
  }
}
