/**
 * validate_pom: the rule set the POM tool reports issues with, in the order
 * the rules run. Project coordinates first, then dependencies without a
 * version, self-dependencies, repeated group:artifact keys, and string
 * properties whose placeholders resolve to nothing.
 */
module PomValidation {
  import opened Wrappers
  import opened PyLang
  import opened PomModel
  import opened PropertyResolver

  function MissingGroupIdMessage(filePath: string): string { "Missing groupId in " + filePath }

  function MissingArtifactIdMessage(filePath: string): string { "Missing artifactId in " + filePath }

  function MissingVersionMessage(filePath: string): string { "Missing version in " + filePath + " (non-parent POM)" }

  function VersionlessMessage(dep: Dependency, filePath: string): string
  {
    "Dependency " + FStr(dep.gav.groupId) + ":" + FStr(dep.gav.artifactId) + " has no version and no parent in " + filePath
  }

  function CircularMessage(dep: Dependency, filePath: string): string
  {
    "Circular dependency detected: " + FStr(dep.gav.groupId) + ":" + FStr(dep.gav.artifactId) + " in " + filePath
  }

  /** f"{group_id}:{artifact_id}", the key the duplicate rule compares. */
  function DepKey(dep: Dependency): string
  {
    FStr(dep.gav.groupId) + ":" + FStr(dep.gav.artifactId)
  }

  function DuplicateMessage(key: string, filePath: string): string { "Duplicate dependency " + key + " in " + filePath }

  function PlaceholderMessage(value: string, filePath: string): string
  {
    "Unresolvable property placeholder " + value + " in " + filePath
  }

  // ---------- The rules, one section each ----------

  function ProjectIssues(pom: Pom, filePath: string): seq<string>
  {
    (if !Truthy(pom.gav.groupId) then [MissingGroupIdMessage(filePath)] else [])
    + (if !Truthy(pom.gav.artifactId) then [MissingArtifactIdMessage(filePath)] else [])
    + (if !Truthy(pom.gav.version) && pom.packaging != Some("pom") then [MissingVersionMessage(filePath)] else [])
  }

  /** A dependency without a version is an issue only when the POM has no parent. */
  predicate VersionlessReported(pom: Pom, dep: Dependency)
  {
    !Truthy(dep.gav.version) && pom.parent.None?
  }

  function VersionlessIssues(pom: Pom, deps: seq<Dependency>, filePath: string): seq<string>
  {
    if deps == [] then []
    else
      var last := deps[|deps| - 1];
      VersionlessIssues(pom, deps[..|deps| - 1], filePath)
      + (if VersionlessReported(pom, last) then [VersionlessMessage(last, filePath)] else [])
  }

  /** The self-dependency check runs only for a POM with both coordinates and some dependencies. */
  predicate CircularCheckRuns(pom: Pom)
  {
    Truthy(pom.gav.groupId) && Truthy(pom.gav.artifactId) && pom.dependencies != []
  }

  predicate IsSelfDependency(pom: Pom, dep: Dependency)
  {
    dep.gav.groupId == pom.gav.groupId && dep.gav.artifactId == pom.gav.artifactId
  }

  function CircularIssues(pom: Pom, deps: seq<Dependency>, filePath: string): seq<string>
  {
    if deps == [] then []
    else
      var last := deps[|deps| - 1];
      CircularIssues(pom, deps[..|deps| - 1], filePath)
      + (if IsSelfDependency(pom, last) then [CircularMessage(last, filePath)] else [])
  }

  /** The keys of the given dependencies, as the `seen_deps` set holds them. */
  function KeySet(deps: seq<Dependency>): set<string>
  {
    set k | 0 <= k < |deps| :: DepKey(deps[k])
  }

  function DuplicateIssues(deps: seq<Dependency>, filePath: string): seq<string>
  {
    if deps == [] then []
    else
      var init, last := deps[..|deps| - 1], deps[|deps| - 1];
      DuplicateIssues(init, filePath)
      + (if DepKey(last) in KeySet(init) then [DuplicateMessage(DepKey(last), filePath)] else [])
  }

  /** A string property with "${" that resolve leaves exactly as it was. */
  predicate Unresolvable(v: PropValue, props: Properties)
  {
    v.PStr? && Contains(v.s, "${") && ResolveSpec(v.s, props) == v.s
  }

  function PlaceholderIssues(items: Properties, props: Properties, filePath: string): seq<string>
  {
    if items == [] then []
    else
      var last := items[|items| - 1].1;
      PlaceholderIssues(items[..|items| - 1], props, filePath)
      + (if Unresolvable(last, props) then [PlaceholderMessage(last.s, filePath)] else [])
  }

  /** Everything validate_pom reports, in order. */
  function PomIssues(pom: Pom, filePath: string): seq<string>
  {
    ProjectIssues(pom, filePath)
    + VersionlessIssues(pom, pom.dependencies, filePath)
    + (if CircularCheckRuns(pom) then CircularIssues(pom, pom.dependencies, filePath) else [])
    + DuplicateIssues(pom.dependencies, filePath)
    + PlaceholderIssues(pom.properties, pom.properties, filePath)
  }

  /** validate_pom: the checks in order, each rule's loop appending to `issues`. */
  method ValidatePom(pom: Pom, filePath: string) returns (issues: seq<string>)
    ensures issues == PomIssues(pom, filePath)
  {
    issues := [];
    if !Truthy(pom.gav.groupId) {
      issues := issues + [MissingGroupIdMessage(filePath)];
    }
    if !Truthy(pom.gav.artifactId) {
      issues := issues + [MissingArtifactIdMessage(filePath)];
    }
    if !Truthy(pom.gav.version) && pom.packaging != Some("pom") {
      issues := issues + [MissingVersionMessage(filePath)];
    }
    assert issues == ProjectIssues(pom, filePath);
    var found := CheckVersionless(pom, filePath);
    issues := issues + found;
    ghost var before := issues;
    if Truthy(pom.gav.groupId) && Truthy(pom.gav.artifactId) && pom.dependencies != [] {
      found := CheckCircular(pom, filePath);
      issues := issues + found;
    }
    assert issues == before + (if CircularCheckRuns(pom) then CircularIssues(pom, pom.dependencies, filePath) else []);
    found := CheckDuplicates(pom.dependencies, filePath);
    issues := issues + found;
    found := CheckPlaceholders(pom.properties, filePath);
    issues := issues + found;
  }

  /** The loop over the dependencies that lack a version. */
  method CheckVersionless(pom: Pom, filePath: string) returns (issues: seq<string>)
    ensures issues == VersionlessIssues(pom, pom.dependencies, filePath)
  {
    var deps := pom.dependencies;
    issues := [];
    var i := 0;
    while i < |deps|
      invariant 0 <= i <= |deps|
      invariant issues == VersionlessIssues(pom, deps[..i], filePath)
    {
      assert deps[..i + 1][..i] == deps[..i];
      if !Truthy(deps[i].gav.version) && pom.parent.None? {
        issues := issues + [VersionlessMessage(deps[i], filePath)];
      }
      i := i + 1;
    }
    assert deps[..i] == deps;
  }

  /** The loop over the dependencies that name the project itself. */
  method CheckCircular(pom: Pom, filePath: string) returns (issues: seq<string>)
    ensures issues == CircularIssues(pom, pom.dependencies, filePath)
  {
    var deps := pom.dependencies;
    issues := [];
    var i := 0;
    while i < |deps|
      invariant 0 <= i <= |deps|
      invariant issues == CircularIssues(pom, deps[..i], filePath)
    {
      assert deps[..i + 1][..i] == deps[..i];
      if deps[i].gav.groupId == pom.gav.groupId && deps[i].gav.artifactId == pom.gav.artifactId {
        issues := issues + [CircularMessage(deps[i], filePath)];
      }
      i := i + 1;
    }
    assert deps[..i] == deps;
  }

  /** The loop that fills `seen_deps` and reports every key already in it. */
  method CheckDuplicates(deps: seq<Dependency>, filePath: string) returns (issues: seq<string>)
    ensures issues == DuplicateIssues(deps, filePath)
  {
    issues := [];
    var seen: set<string> := {};
    var i := 0;
    while i < |deps|
      invariant 0 <= i <= |deps|
      invariant seen == KeySet(deps[..i])
      invariant issues == DuplicateIssues(deps[..i], filePath)
    {
      assert deps[..i + 1][..i] == deps[..i];
      KeySetSnoc(deps, i);
      var key := FStr(deps[i].gav.groupId) + ":" + FStr(deps[i].gav.artifactId);
      if key in seen {
        issues := issues + [DuplicateMessage(key, filePath)];
      }
      seen := seen + {key};
      i := i + 1;
    }
    assert deps[..i] == deps;
  }

  /** The loop over the properties, resolving each string value that holds "${". */
  method CheckPlaceholders(props: Properties, filePath: string) returns (issues: seq<string>)
    ensures issues == PlaceholderIssues(props, props, filePath)
  {
    issues := [];
    var i := 0;
    while i < |props|
      invariant 0 <= i <= |props|
      invariant issues == PlaceholderIssues(props[..i], props, filePath)
    {
      assert props[..i + 1][..i] == props[..i];
      var (name, value) := props[i];
      if value.PStr? && Contains(value.s, "${") {
        var resolved := Resolve(value.s, props);
        if resolved == value.s {
          issues := issues + [PlaceholderMessage(value.s, filePath)];
        }
      }
      i := i + 1;
    }
    assert props[..i] == props;
  }

  lemma KeySetSnoc(deps: seq<Dependency>, i: int)
    requires 0 <= i < |deps|
    ensures KeySet(deps[..i + 1]) == KeySet(deps[..i]) + {DepKey(deps[i])}
  {
    var a, b := deps[..i + 1], deps[..i];
    forall key | key in KeySet(a)
      ensures key in KeySet(b) + {DepKey(deps[i])}
    {
      var k :| 0 <= k < |a| && DepKey(a[k]) == key;
      if k < i {
        assert b[k] == a[k];
      }
    }
    forall key | key in KeySet(b) + {DepKey(deps[i])}
      ensures key in KeySet(a)
    {
      if key == DepKey(deps[i]) {
        assert a[i] == deps[i];
      } else {
        var k :| 0 <= k < |b| && DepKey(b[k]) == key;
        assert a[k] == b[k];
      }
    }
  }

  // ---------- Properties of the rule set ----------

  /** A missing version is reported exactly when packaging is not "pom". */
  lemma MissingVersionRule(pom: Pom, filePath: string)
    ensures MissingVersionMessage(filePath) in ProjectIssues(pom, filePath)
            <==> !Truthy(pom.gav.version) && pom.packaging != Some("pom")
    ensures MissingGroupIdMessage(filePath) in ProjectIssues(pom, filePath) <==> !Truthy(pom.gav.groupId)
    ensures MissingArtifactIdMessage(filePath) in ProjectIssues(pom, filePath) <==> !Truthy(pom.gav.artifactId)
  {
    var g, a, v := MissingGroupIdMessage(filePath), MissingArtifactIdMessage(filePath), MissingVersionMessage(filePath);
    assert g[8] == 'g' && a[8] == 'a' && v[8] == 'v';
  }

  /** Counts the dependencies the predicate holds for. */
  function CountVersionless(pom: Pom, deps: seq<Dependency>): nat
  {
    if deps == [] then 0
    else CountVersionless(pom, deps[..|deps| - 1]) + (if VersionlessReported(pom, deps[|deps| - 1]) then 1 else 0)
  }

  /** With a parent no dependency is reported for lacking a version; without one, each versionless one is. */
  lemma {:induction false} VersionlessRule(pom: Pom, deps: seq<Dependency>, filePath: string)
    ensures pom.parent.Some? ==> VersionlessIssues(pom, deps, filePath) == []
    ensures |VersionlessIssues(pom, deps, filePath)| == CountVersionless(pom, deps)
    ensures forall k | 0 <= k < |deps| :: pom.parent.None? && !Truthy(deps[k].gav.version)
              ==> VersionlessMessage(deps[k], filePath) in VersionlessIssues(pom, deps, filePath)
  {
    if deps != [] {
      var n := |deps| - 1;
      var init := deps[..n];
      VersionlessRule(pom, init, filePath);
      var here := if VersionlessReported(pom, deps[n]) then [VersionlessMessage(deps[n], filePath)] else [];
      assert VersionlessIssues(pom, deps, filePath) == VersionlessIssues(pom, init, filePath) + here;
      forall k | 0 <= k < n
        ensures deps[k] == init[k]
      {
      }
    }
  }

  /** A self-dependency is reported once per occurrence; no other dependency is. */
  lemma {:induction false} CircularRule(pom: Pom, deps: seq<Dependency>, filePath: string)
    ensures forall k | 0 <= k < |deps| :: IsSelfDependency(pom, deps[k])
              ==> CircularMessage(deps[k], filePath) in CircularIssues(pom, deps, filePath)
    ensures forall k | 0 <= k < |CircularIssues(pom, deps, filePath)| ::
              CircularIssues(pom, deps, filePath)[k] == CircularMessage(Dependency(pom.gav, None), filePath)
  {
    if deps != [] {
      var init := deps[..|deps| - 1];
      CircularRule(pom, init, filePath);
      forall k | 0 <= k < |deps| - 1
        ensures deps[k] == init[k]
      {
      }
      var last := deps[|deps| - 1];
      if IsSelfDependency(pom, last) {
        assert CircularMessage(last, filePath) == CircularMessage(Dependency(pom.gav, None), filePath);
      }
    }
  }

  /**
   * Every occurrence of a key after its first is one duplicate issue: the
   * issues and the distinct keys together account for every dependency.
   */
  lemma {:induction false} DuplicateCount(deps: seq<Dependency>, filePath: string)
    ensures |DuplicateIssues(deps, filePath)| + |KeySet(deps)| == |deps|
  {
    if deps != [] {
      var n := |deps| - 1;
      DuplicateCount(deps[..n], filePath);
      KeySetSnoc(deps, n);
      assert deps[..n + 1] == deps;
      var key := DepKey(deps[n]);
      if key in KeySet(deps[..n]) {
        assert KeySet(deps) == KeySet(deps[..n]);
      } else {
        assert |KeySet(deps)| == |KeySet(deps[..n])| + 1;
      }
    }
  }

  /** Dependencies with pairwise distinct keys produce no duplicate issue. */
  lemma DistinctKeysNoDuplicates(deps: seq<Dependency>, filePath: string)
    requires forall i, j | 0 <= i < j < |deps| :: DepKey(deps[i]) != DepKey(deps[j])
    ensures DuplicateIssues(deps, filePath) == []
  {
    DuplicateCount(deps, filePath);
    InjectiveKeys(deps, |deps|);
    assert deps[..|deps|] == deps;
  }

  lemma {:induction false} InjectiveKeys(deps: seq<Dependency>, n: nat)
    requires n <= |deps|
    requires forall i, j | 0 <= i < j < |deps| :: DepKey(deps[i]) != DepKey(deps[j])
    ensures |KeySet(deps[..n])| == n
  {
    if n > 0 {
      var m := n - 1;
      InjectiveKeys(deps, m);
      KeySetSnoc(deps, m);
      assert DepKey(deps[m]) !in KeySet(deps[..m]);
    } else {
      assert KeySet(deps[..0]) == {};
    }
  }

  /** A placeholder property is reported iff it is among the items and resolve leaves it unchanged. */
  lemma {:induction false} PlaceholderRule(items: Properties, props: Properties, filePath: string, value: string)
    ensures PlaceholderMessage(value, filePath) in PlaceholderIssues(items, props, filePath)
            <==> (exists k | 0 <= k < |items| :: items[k].1 == PStr(value)) && Unresolvable(PStr(value), props)
  {
    if items != [] {
      var n := |items| - 1;
      var init := items[..n];
      PlaceholderRule(init, props, filePath, value);
      var last := items[n].1;
      var here := if Unresolvable(last, props) then [PlaceholderMessage(last.s, filePath)] else [];
      assert PlaceholderIssues(items, props, filePath) == PlaceholderIssues(init, props, filePath) + here;
      assert PlaceholderMessage(value, filePath) in here <==> last == PStr(value) && Unresolvable(last, props) by {
        if PlaceholderMessage(value, filePath) in here {
          PlaceholderMessageInjective(last.s, value, filePath);
        }
      }
      assert forall k | 0 <= k < n :: init[k] == items[k];
    }
  }

  lemma PlaceholderMessageInjective(v1: string, v2: string, filePath: string)
    requires PlaceholderMessage(v1, filePath) == PlaceholderMessage(v2, filePath)
    ensures v1 == v2
  {
    var prefix := "Unresolvable property placeholder ";
    var m1, m2 := PlaceholderMessage(v1, filePath), PlaceholderMessage(v2, filePath);
    assert |v1| == |v2|;
    assert m1[|prefix|..|prefix| + |v1|] == v1;
    assert m2[|prefix|..|prefix| + |v2|] == v2;
  }

  /** A POM with its coordinates, no dependencies and no properties has no issues. */
  lemma CompletePomIsClean(gav: Gav, packaging: Option<string>, filePath: string)
    requires Truthy(gav.groupId) && Truthy(gav.artifactId) && Truthy(gav.version)
    ensures PomIssues(Pom(gav, packaging, None, None, None, [], [], []), filePath) == []
  {
  }
}
