/** Unit configuration, unit names and the string functions they use. */
module Units {

  datatype Option<+T> = None | Some(value: T)

  // ---- strings

  predicate HasPrefix(s: string, p: string) {
    |p| <= |s| && s[..|p|] == p
  }

  predicate HasSuffix(s: string, p: string) {
    |p| <= |s| && s[|s| - |p|..] == p
  }

  function TrimPrefix(s: string, p: string): string {
    if HasPrefix(s, p) then s[|p|..] else s
  }

  function TrimSuffix(s: string, p: string): string {
    if HasSuffix(s, p) then s[..|s| - |p|] else s
  }

  /** The position of the first `ch` in `s`, if any. */
  function IndexOf(s: string, ch: char): (r: Option<nat>)
    ensures r.None? <==> ch !in s
    ensures r.Some? ==> r.value < |s| && s[r.value] == ch && ch !in s[..r.value]
  {
    if s == "" then None
    else if s[0] == ch then Some(0)
    else
      match IndexOf(s[1..], ch)
      case None => None
      case Some(i) =>
        assert s[..i + 1] == [s[0]] + s[1..][..i];
        Some(i + 1)
  }

  // ---- units

  datatype RestartPolicy = RestartPolicy(enabled: bool, backoff: int, cooldown: int)

  /** A compiled instance pattern or a health check, as far as units carry them. */
  type Pattern = string
  type HealthCheck = string

  datatype UnitConfig = UnitConfig(
    name: string, kind: string,
    enabled: Option<bool>,
    critical: bool, priority: int,
    dependsOn: seq<string>,
    healthChecks: seq<HealthCheck>,
    restart: Option<RestartPolicy>,
    instanceMatch: Option<Pattern>)
  {
    predicate IsEnabled() {
      enabled.None? || enabled.value
    }

    predicate IsTemplate() {
      match IndexOf(name, '@')
      case None => false
      case Some(i) =>
        var after := name[i + 1..];
        after == "" || (HasPrefix(after, "{") && HasSuffix(after, "}"))
    }

    function UnitName(): string {
      name + "." + kind
    }

    function TemplatePrefix(): string {
      if IsTemplate() then name[..IndexOf(name, '@').value + 1] else ""
    }
  }

  datatype KeyResult = Key(name: string, kind: string) | BadKey

  function ParseUnitKey(key: string): KeyResult {
    if HasSuffix(key, ".service") then
      var name := TrimSuffix(key, ".service");
      if name == "" then BadKey else Key(name, "service")
    else if HasSuffix(key, ".timer") then
      var name := TrimSuffix(key, ".timer");
      if name == "" then BadKey else Key(name, "timer")
    else BadKey
  }

  predicate IsQualifiedDep(dep: string) {
    HasSuffix(dep, ".service") || HasSuffix(dep, ".timer")
  }

  function DepBareName(dep: string): string {
    if IsQualifiedDep(dep) then TrimSuffix(TrimSuffix(dep, ".service"), ".timer") else dep
  }

  // ---- names and keys

  lemma SuffixOfConcat(a: string, b: string, p: string)
    requires |p| <= |b|
    ensures HasSuffix(a + b, p) <==> HasSuffix(b, p)
    ensures HasSuffix(b, p) ==> TrimSuffix(a + b, p) == a + TrimSuffix(b, p)
  {
    var s := a + b;
    assert s[|s| - |p|..] == b[|b| - |p|..];
    if HasSuffix(b, p) {
      assert s[..|s| - |p|] == a + b[..|b| - |p|];
    }
  }

  lemma KindSuffixes()
    ensures "." + "service" == ".service" && "." + "timer" == ".timer"
    ensures HasSuffix(".service", ".service") && TrimSuffix(".service", ".service") == ""
    ensures HasSuffix(".timer", ".timer") && TrimSuffix(".timer", ".timer") == ""
    ensures !HasSuffix(".service", ".timer")
  {
    assert ".service"[|".service"| - |".timer"|..][0] == 'e';
  }

  /** A parsed key is the unit's full name again: keys and unit names determine each other,
      so units with different keys have different full names. */
  lemma ParsedKeyIsUnitName(key: string, u: UnitConfig)
    requires ParseUnitKey(key) == Key(u.name, u.kind)
    ensures u.UnitName() == key
  {
    KindSuffixes();
    var suffix := if HasSuffix(key, ".service") then ".service" else ".timer";
    assert key == key[..|key| - |suffix|] + suffix;
    assert u.name + "." + u.kind == u.name + ("." + u.kind);
  }

  /** A key parses to a name and a type exactly when it is a nonempty name, a dot, and that
      type, which is service or timer. */
  lemma ParsesExactly(key: string, name: string, kind: string)
    ensures ParseUnitKey(key) == Key(name, kind) <==>
              name != "" && (kind == "service" || kind == "timer") && key == name + "." + kind
  {
    KindSuffixes();
    SuffixesDiffer(key);
    if ParseUnitKey(key) == Key(name, kind) {
      var suffix := if HasSuffix(key, ".service") then ".service" else ".timer";
      assert key == key[..|key| - |suffix|] + suffix;
      assert name + "." + kind == name + ("." + kind);
    }
    if name != "" && (kind == "service" || kind == "timer") && key == name + "." + kind {
      assert key == name + ("." + kind);
      assert name + "" == name;
      if kind == "service" {
        SuffixOfConcat(name, ".service", ".service");
      } else {
        SuffixOfConcat(name, ".timer", ".timer");
      }
    }
  }

  /** A full name ending in ".timer" cannot end in ".service". */
  lemma SuffixesDiffer(s: string)
    ensures !(HasSuffix(s, ".service") && HasSuffix(s, ".timer"))
  {
    if HasSuffix(s, ".service") {
      assert s[|s| - 8..][7] == s[|s| - 1] == 'e';
    }
  }

  /** The bare name a qualified dependency resolves to is the unit's own name, except for
      services whose name itself ends in ".timer". */
  lemma QualifiedDepResolves(u: UnitConfig)
    requires u.kind == "service" || u.kind == "timer"
    ensures DepBareName(u.UnitName()) == u.name <==> !(u.kind == "service" && HasSuffix(u.name, ".timer"))
  {
    var full := u.UnitName();
    KindSuffixes();
    assert full == u.name + ("." + u.kind);
    assert u.name + "" == u.name;
    if u.kind == "service" {
      SuffixOfConcat(u.name, ".service", ".service");
    } else {
      SuffixOfConcat(u.name, ".timer", ".timer");
      SuffixesDiffer(full);
    }
  }
}
