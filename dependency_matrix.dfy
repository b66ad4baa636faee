/**
 * `create_dict` and `prepare_for_serialization`: the dependency matrix that
 * maps group id, then artifact id, then resolved version, to the set of
 * projects that use it, and its JSON-ready form with every key list sorted.
 */
module DependencyMatrix {
  import opened Wrappers
  import opened PyLang
  import opened PomModel
  import opened PropertyResolver

  /** `{group_id: {artifact_id: {version: {project_names}}}}`; only the keys ever written are present. */
  type Matrix = map<string, map<string, map<string, set<string>>>>

  /** One `matrix[group_id][artifact_id][resolved_version].add(project_name)`. */
  datatype Entry = Entry(groupId: string, artifactId: string, version: string, project: string)

  /** `pom.gav.artifact_id or "unknown"`. */
  function ProjectName(pom: Pom): string
  {
    if Truthy(pom.gav.artifactId) then pom.gav.artifactId.value else "unknown"
  }

  /** The version a dependency is filed under: resolved against the POM's properties, or "inherited". */
  function ResolvedVersion(pom: Pom, dep: Dependency): string
  {
    if Truthy(dep.gav.version) then ResolveSpec(dep.gav.version.value, pom.properties) else "inherited"
  }

  /** Dependencies lacking a group id or an artifact id are skipped. */
  predicate Counted(dep: Dependency)
  {
    Truthy(dep.gav.groupId) && Truthy(dep.gav.artifactId)
  }

  /** The additions one list of a POM's dependencies makes, in order. */
  function DepEntries(pom: Pom, deps: seq<Dependency>): seq<Entry>
  {
    if deps == [] then []
    else
      var last := deps[|deps| - 1];
      DepEntries(pom, deps[..|deps| - 1])
      + (if Counted(last)
         then [Entry(last.gav.groupId.value, last.gav.artifactId.value, ResolvedVersion(pom, last), ProjectName(pom))]
         else [])
  }

  /** Every addition `create_dict` makes, POM by POM: its dependencies, then its managed dependencies. */
  function Entries(poms: seq<Pom>): seq<Entry>
  {
    if poms == [] then []
    else
      var last := poms[|poms| - 1];
      Entries(poms[..|poms| - 1]) + DepEntries(last, last.dependencies) + DepEntries(last, last.managedDependencies)
  }

  /** The nested `defaultdict` update: missing levels are created empty, then the project is added. */
  function Add(m: Matrix, e: Entry): Matrix
  {
    var byArtifact := if e.groupId in m then m[e.groupId] else map[];
    var byVersion := if e.artifactId in byArtifact then byArtifact[e.artifactId] else map[];
    var projects := if e.version in byVersion then byVersion[e.version] else {};
    m[e.groupId := byArtifact[e.artifactId := byVersion[e.version := projects + {e.project}]]]
  }

  /** The matrix the additions produce, one after the other from an empty one. */
  function Build(es: seq<Entry>): Matrix
  {
    if es == [] then map[] else Add(Build(es[..|es| - 1]), es[|es| - 1])
  }

  /** Whether the project is filed under the group, artifact and version. */
  predicate Holds(m: Matrix, g: string, a: string, v: string, p: string)
  {
    g in m && HoldsArtifact(m[g], a, v, p)
  }

  predicate HoldsArtifact(byArtifact: map<string, map<string, set<string>>>, a: string, v: string, p: string)
  {
    a in byArtifact && HoldsVersion(byArtifact[a], v, p)
  }

  predicate HoldsVersion(byVersion: map<string, set<string>>, v: string, p: string)
  {
    v in byVersion && p in byVersion[v]
  }

  /** No level holds an empty map or set: a `defaultdict` level exists only once something was added below it. */
  predicate NoEmptyLevels(m: Matrix)
  {
    forall g | g in m :: NoEmptyArtifacts(m[g])
  }

  predicate NoEmptyArtifacts(byArtifact: map<string, map<string, set<string>>>)
  {
    byArtifact != map[] && forall a | a in byArtifact :: NoEmptyVersions(byArtifact[a])
  }

  predicate NoEmptyVersions(byVersion: map<string, set<string>>)
  {
    byVersion != map[] && forall v | v in byVersion :: byVersion[v] != {}
  }

  // ---------- create_dict ----------

  /** `create_dict`: the nested loops over the POMs and their two dependency lists. */
  method CreateDict(poms: seq<Pom>) returns (matrix: Matrix)
    ensures matrix == Build(Entries(poms))
  {
    matrix := map[];
    var i := 0;
    while i < |poms|
      invariant 0 <= i <= |poms|
      invariant matrix == Build(Entries(poms[..i]))
    {
      var pom := poms[i];
      assert poms[..i + 1][..i] == poms[..i];
      ghost var done := Entries(poms[..i]);
      matrix := AddDependencies(matrix, pom, pom.dependencies, done);
      matrix := AddDependencies(matrix, pom, pom.managedDependencies, done + DepEntries(pom, pom.dependencies));
      i := i + 1;
    }
    assert poms[..i] == poms;
  }

  /** One of the two inner loops: files each counted dependency of the list under its resolved version. */
  method AddDependencies(m0: Matrix, pom: Pom, deps: seq<Dependency>, ghost done: seq<Entry>) returns (matrix: Matrix)
    requires m0 == Build(done)
    ensures matrix == Build(done + DepEntries(pom, deps))
  {
    matrix := m0;
    ghost var acc := done;
    var j := 0;
    assert done + [] == done;
    while j < |deps|
      invariant 0 <= j <= |deps|
      invariant acc == done + DepEntries(pom, deps[..j])
      invariant matrix == Build(acc)
    {
      var dep := deps[j];
      DepEntriesSnoc(pom, deps, j);
      if Truthy(dep.gav.groupId) && Truthy(dep.gav.artifactId) {
        var e := DependencyEntry(pom, dep);
        BuildSnoc(acc, e);
        matrix := Add(matrix, e);
        acc := acc + [e];
      }
      j := j + 1;
    }
    assert deps[..j] == deps;
  }

  /** The group id, artifact id, resolved version and project name one counted dependency is filed under. */
  method DependencyEntry(pom: Pom, dep: Dependency) returns (e: Entry)
    requires Counted(dep)
    ensures e == Entry(dep.gav.groupId.value, dep.gav.artifactId.value, ResolvedVersion(pom, dep), ProjectName(pom))
  {
    var projectName := if Truthy(pom.gav.artifactId) then pom.gav.artifactId.value else "unknown";
    var resolvedVersion;
    if Truthy(dep.gav.version) {
      resolvedVersion := Resolve(dep.gav.version.value, pom.properties);
    } else {
      resolvedVersion := "inherited";
    }
    e := Entry(dep.gav.groupId.value, dep.gav.artifactId.value, resolvedVersion, projectName);
  }

  lemma DepEntriesSnoc(pom: Pom, deps: seq<Dependency>, j: int)
    requires 0 <= j < |deps|
    ensures DepEntries(pom, deps[..j + 1]) == DepEntries(pom, deps[..j])
              + (if Counted(deps[j])
                 then [Entry(deps[j].gav.groupId.value, deps[j].gav.artifactId.value, ResolvedVersion(pom, deps[j]),
                             ProjectName(pom))]
                 else [])
  {
    assert deps[..j + 1][..j] == deps[..j];
  }

  lemma BuildSnoc(es: seq<Entry>, e: Entry)
    ensures Build(es + [e]) == Add(Build(es), e)
  {
    assert (es + [e])[..|es|] == es;
  }

  // ---------- Properties ----------

  /** An addition files exactly its own project and keeps everything already filed. */
  lemma AddHolds(m: Matrix, e: Entry, g: string, a: string, v: string, p: string)
    ensures Holds(Add(m, e), g, a, v, p) <==> Holds(m, g, a, v, p) || e == Entry(g, a, v, p)
  {
  }

  lemma AddKeepsNoEmptyLevels(m: Matrix, e: Entry)
    requires NoEmptyLevels(m)
    ensures NoEmptyLevels(Add(m, e))
  {
    var m' := Add(m, e);
    forall g | g in m'
      ensures NoEmptyArtifacts(m'[g])
    {
      if g == e.groupId {
        var byArtifact := m'[g];
        forall a | a in byArtifact
          ensures NoEmptyVersions(byArtifact[a])
        {
          if a == e.artifactId {
            assert e.project in byArtifact[a][e.version];
          }
        }
      }
    }
  }

  /** A project is filed under g, a, v exactly when some addition put it there. */
  lemma {:induction false} BuildHolds(es: seq<Entry>, g: string, a: string, v: string, p: string)
    ensures Holds(Build(es), g, a, v, p) <==> Entry(g, a, v, p) in es
  {
    if es != [] {
      var init := es[..|es| - 1];
      BuildHolds(init, g, a, v, p);
      AddHolds(Build(init), es[|es| - 1], g, a, v, p);
      assert es == init + [es[|es| - 1]];
    }
  }

  lemma {:induction false} BuildNoEmptyLevels(es: seq<Entry>)
    ensures NoEmptyLevels(Build(es))
  {
    if es != [] {
      BuildNoEmptyLevels(es[..|es| - 1]);
      AddKeepsNoEmptyLevels(Build(es[..|es| - 1]), es[|es| - 1]);
    }
  }

  /** Adding the same project twice changes nothing: the innermost level is a set. */
  lemma AddIdempotent(m: Matrix, e: Entry)
    ensures Add(Add(m, e), e) == Add(m, e)
  {
    var m1 := Add(m, e);
    var byArtifact := m1[e.groupId];
    var byVersion := byArtifact[e.artifactId];
    var projects := byVersion[e.version];
    assert projects + {e.project} == projects;
    assert byVersion[e.version := projects] == byVersion;
    assert byArtifact[e.artifactId := byVersion] == byArtifact;
    assert m1[e.groupId := byArtifact] == m1;
  }

  /** Two matrices without empty levels that file the same projects are equal. */
  lemma Extensional(m1: Matrix, m2: Matrix)
    requires NoEmptyLevels(m1) && NoEmptyLevels(m2)
    requires forall g, a, v, p :: Holds(m1, g, a, v, p) <==> Holds(m2, g, a, v, p)
    ensures m1 == m2
  {
    forall g | g in m1
      ensures g in m2 && m1[g] == m2[g]
    {
      var a :| a in m1[g];
      var v :| v in m1[g][a];
      var p :| p in m1[g][a][v];
      assert Holds(m1, g, a, v, p);
      forall a, v, p
        ensures HoldsArtifact(m1[g], a, v, p) <==> HoldsArtifact(m2[g], a, v, p)
      {
        assert Holds(m1, g, a, v, p) <==> Holds(m2, g, a, v, p);
      }
      ArtifactsExtensional(m1[g], m2[g]);
    }
    forall g | g in m2
      ensures g in m1
    {
      var a :| a in m2[g];
      var v :| v in m2[g][a];
      var p :| p in m2[g][a][v];
      assert Holds(m2, g, a, v, p);
    }
  }

  lemma ArtifactsExtensional(x: map<string, map<string, set<string>>>, y: map<string, map<string, set<string>>>)
    requires NoEmptyArtifacts(x) && NoEmptyArtifacts(y)
    requires forall a, v, p :: HoldsArtifact(x, a, v, p) <==> HoldsArtifact(y, a, v, p)
    ensures x == y
  {
    forall a | a in x
      ensures a in y && x[a] == y[a]
    {
      var v :| v in x[a];
      var p :| p in x[a][v];
      assert HoldsArtifact(x, a, v, p);
      forall v, p
        ensures HoldsVersion(x[a], v, p) <==> HoldsVersion(y[a], v, p)
      {
        assert HoldsArtifact(x, a, v, p) <==> HoldsArtifact(y, a, v, p);
      }
      VersionsExtensional(x[a], y[a]);
    }
    forall a | a in y
      ensures a in x
    {
      var v :| v in y[a];
      var p :| p in y[a][v];
      assert HoldsArtifact(y, a, v, p);
    }
  }

  lemma VersionsExtensional(x: map<string, set<string>>, y: map<string, set<string>>)
    requires NoEmptyVersions(x) && NoEmptyVersions(y)
    requires forall v, p :: HoldsVersion(x, v, p) <==> HoldsVersion(y, v, p)
    ensures x == y
  {
    forall v | v in x
      ensures v in y && x[v] == y[v]
    {
      var p :| p in x[v];
      assert HoldsVersion(x, v, p);
      assert forall q :: q in x[v] <==> HoldsVersion(x, v, q);
      assert forall q :: q in y[v] <==> HoldsVersion(y, v, q);
    }
    forall v | v in y
      ensures v in x
    {
      var p :| p in y[v];
      assert HoldsVersion(y, v, p);
    }
  }

  /**
   * The matrix depends only on which additions are made: the order of the
   * POMs and of their dependencies, and repetitions, change nothing.
   */
  lemma BuildOrderIndependent(es1: seq<Entry>, es2: seq<Entry>)
    requires forall e :: e in es1 <==> e in es2
    ensures Build(es1) == Build(es2)
  {
    BuildNoEmptyLevels(es1);
    BuildNoEmptyLevels(es2);
    forall g, a, v, p
      ensures Holds(Build(es1), g, a, v, p) <==> Holds(Build(es2), g, a, v, p)
    {
      BuildHolds(es1, g, a, v, p);
      BuildHolds(es2, g, a, v, p);
    }
    Extensional(Build(es1), Build(es2));
  }

  /** Some counted dependency of the list has these coordinates and resolved version. */
  predicate Filed(pom: Pom, deps: seq<Dependency>, g: string, a: string, v: string)
  {
    exists k | 0 <= k < |deps| :: Counted(deps[k]) && deps[k].gav.groupId.value == g
                                  && deps[k].gav.artifactId.value == a && ResolvedVersion(pom, deps[k]) == v
  }

  /** The additions of one dependency list are exactly its counted dependencies, under the POM's project name. */
  lemma {:induction false} DepEntriesMembers(pom: Pom, deps: seq<Dependency>, g: string, a: string, v: string, p: string)
    ensures Entry(g, a, v, p) in DepEntries(pom, deps) <==> p == ProjectName(pom) && Filed(pom, deps, g, a, v)
  {
    if deps != [] {
      var init := deps[..|deps| - 1];
      DepEntriesMembers(pom, init, g, a, v, p);
      assert forall k | 0 <= k < |init| :: init[k] == deps[k];
    }
  }

  /** The additions of all POMs are those of each POM's two lists. */
  lemma {:induction false} EntriesMembers(poms: seq<Pom>, e: Entry)
    ensures e in Entries(poms) <==>
              exists i | 0 <= i < |poms| :: e in DepEntries(poms[i], poms[i].dependencies)
                                           || e in DepEntries(poms[i], poms[i].managedDependencies)
  {
    if poms != [] {
      var init := poms[..|poms| - 1];
      EntriesMembers(init, e);
      assert forall i | 0 <= i < |init| :: init[i] == poms[i];
    }
  }

  /**
   * `create_dict` files project p under g, a, v exactly when some POM named p
   * has a dependency or managed dependency with those coordinates whose
   * version resolves to v (or that has none, for v = "inherited").
   */
  lemma CreateDictHolds(poms: seq<Pom>, g: string, a: string, v: string, p: string)
    ensures Holds(Build(Entries(poms)), g, a, v, p) <==>
              exists i | 0 <= i < |poms| :: p == ProjectName(poms[i]) &&
                (Filed(poms[i], poms[i].dependencies, g, a, v) || Filed(poms[i], poms[i].managedDependencies, g, a, v))
  {
    var e := Entry(g, a, v, p);
    BuildHolds(Entries(poms), g, a, v, p);
    EntriesMembers(poms, e);
    forall i | 0 <= i < |poms|
      ensures (e in DepEntries(poms[i], poms[i].dependencies) || e in DepEntries(poms[i], poms[i].managedDependencies))
              <==> p == ProjectName(poms[i]) &&
                   (Filed(poms[i], poms[i].dependencies, g, a, v) || Filed(poms[i], poms[i].managedDependencies, g, a, v))
    {
      DepEntriesMembers(poms[i], poms[i].dependencies, g, a, v, p);
      DepEntriesMembers(poms[i], poms[i].managedDependencies, g, a, v, p);
    }
  }

  // ---------- prepare_for_serialization ----------

  /** A finite set of strings has a least element in Python's string order. */
  lemma {:induction false} LeastExists(s: set<string>)
    requires s != {}
    ensures exists x | x in s :: forall y | y in s :: StrLe(x, y)
    decreases |s|
  {
    var z :| z in s;
    if s - {z} == {} {
      assert s == {z};
      assert forall y | y in s :: StrLe(z, y);
    } else {
      LeastExists(s - {z});
      var x :| x in s - {z} && forall y | y in s - {z} :: StrLe(x, y);
      StrLeTotal(x, z);
      if StrLe(x, z) {
        assert forall y | y in s :: StrLe(x, y);
      } else {
        forall y | y in s
          ensures StrLe(z, y)
        {
          if y != z {
            StrLeTransitive(z, x, y);
          }
        }
      }
    }
  }

  ghost function Least(s: set<string>): (x: string)
    requires s != {}
    ensures x in s && forall y | y in s :: StrLe(x, y)
  {
    LeastExists(s);
    var x :| x in s && forall y | y in s :: StrLe(x, y);
    x
  }

  predicate Increasing(r: seq<string>)
  {
    forall i, j | 0 <= i < j < |r| :: StrLt(r[i], r[j])
  }

  lemma ConsIncreasing(x: string, rest: seq<string>)
    requires Increasing(rest)
    requires forall j | 0 <= j < |rest| :: StrLt(x, rest[j])
    ensures Increasing([x] + rest)
  {
    var r := [x] + rest;
    forall i, j | 0 <= i < j < |r|
      ensures StrLt(r[i], r[j])
    {
      assert r[j] == rest[j - 1];
      if i > 0 {
        assert r[i] == rest[i - 1];
      }
    }
  }

  /** `sorted(list(s))`: the elements in strictly increasing order. */
  ghost function SortedList(s: set<string>): (r: seq<string>)
    ensures |r| == |s|
    ensures forall x :: x in r <==> x in s
    ensures Increasing(r)
    decreases |s|
  {
    if s == {} then []
    else
      var x := Least(s);
      var rest := SortedList(s - {x});
      assert forall j | 0 <= j < |rest| :: StrLt(x, rest[j]) by {
        forall j | 0 <= j < |rest|
          ensures StrLt(x, rest[j])
        {
          assert rest[j] in s - {x};
        }
      }
      ConsIncreasing(x, rest);
      [x] + rest
  }

  /** The given keys, each paired with its prepared value. */
  ghost function Pairs<V, W>(m: map<string, V>, prepare: V -> W, keys: seq<string>): (r: seq<(string, W)>)
    requires forall k | k in keys :: k in m
    ensures |r| == |keys|
    ensures forall i | 0 <= i < |r| :: r[i] == (keys[i], prepare(m[keys[i]]))
  {
    if keys == [] then [] else [(keys[0], prepare(m[keys[0]]))] + Pairs(m, prepare, keys[1..])
  }

  /** `dict(sorted(result.items()))` for one level: the keys in order, each with its prepared value. */
  ghost function PrepareLevel<V, W>(m: map<string, V>, prepare: V -> W): (r: seq<(string, W)>)
    ensures |r| == |m|
    ensures forall i | 0 <= i < |r| :: r[i] == (SortedList(m.Keys)[i], prepare(m[SortedList(m.Keys)[i]]))
  {
    Pairs(m, prepare, SortedList(m.Keys))
  }

  type Prepared = seq<(string, seq<(string, seq<(string, seq<string>)>)>)>

  /**
   * `prepare_for_serialization` on the matrix: every level's keys sorted,
   * and each project set turned into a sorted list.
   */
  ghost function PrepareForSerialization(m: Matrix): Prepared
  {
    PrepareLevel(m, (byArtifact: map<string, map<string, set<string>>>) =>
      PrepareLevel(byArtifact, (byVersion: map<string, set<string>>) => PrepareLevel(byVersion, SortedList)))
  }

  /** The value a JSON object (a list of key-value pairs) holds under the key. */
  function Find<W>(r: seq<(string, W)>, k: string): Option<W>
  {
    if r == [] then None else if r[0].0 == k then Some(r[0].1) else Find(r[1..], k)
  }

  lemma {:induction false} FindPairs<V, W>(m: map<string, V>, prepare: V -> W, keys: seq<string>, k: string)
    requires forall x | x in keys :: x in m
    ensures Find(Pairs(m, prepare, keys), k) == if k in keys then Some(prepare(m[k])) else None
  {
    if keys != [] {
      assert forall x | x in keys[1..] :: x in keys;
      FindPairs(m, prepare, keys[1..], k);
      assert k in keys <==> k == keys[0] || k in keys[1..];
    }
  }

  /** Each level of the prepared form holds exactly the level's keys, with their prepared values. */
  lemma FindPrepared<V, W>(m: map<string, V>, prepare: V -> W, k: string)
    ensures Find(PrepareLevel(m, prepare), k) == if k in m then Some(prepare(m[k])) else None
  {
    FindPairs(m, prepare, SortedList(m.Keys), k);
  }

  /** A prepared level lists its keys in strictly increasing order. */
  lemma PreparedIncreasing<V, W>(m: map<string, V>, prepare: V -> W)
    ensures forall i, j | 0 <= i < j < |PrepareLevel(m, prepare)| ::
              StrLt(PrepareLevel(m, prepare)[i].0, PrepareLevel(m, prepare)[j].0)
  {
    var keys := SortedList(m.Keys);
    assert Increasing(keys);
  }

  /** The sorted project list under g, a and v in the prepared form, if each level has the key. */
  function FindProjects(r: Prepared, g: string, a: string, v: string): Option<seq<string>>
  {
    match Find(r, g)
    case None => None
    case Some(byArtifact) =>
      match Find(byArtifact, a)
      case None => None
      case Some(byVersion) => Find(byVersion, v)
  }

  /** The prepared form lists p under g, a, v exactly when the matrix files it there, in sorted order. */
  lemma PrepareHolds(m: Matrix, g: string, a: string, v: string, p: string)
    ensures Holds(m, g, a, v, p) <==>
              var found := FindProjects(PrepareForSerialization(m), g, a, v);
              found.Some? && p in found.value
  {
    var fa := (byVersion: map<string, set<string>>) => PrepareLevel(byVersion, SortedList);
    var fg := (byArtifact: map<string, map<string, set<string>>>) => PrepareLevel(byArtifact, fa);
    var r := PrepareForSerialization(m);
    assert r == PrepareLevel(m, fg);
    FindPrepared(m, fg, g);
    if g in m {
      var byArtifact := PrepareLevel(m[g], fa);
      assert Find(r, g) == Some(byArtifact);
      FindPrepared(m[g], fa, a);
      if a in m[g] {
        var byVersion := PrepareLevel(m[g][a], SortedList);
        assert Find(byArtifact, a) == Some(byVersion);
        FindPrepared(m[g][a], SortedList, v);
        assert FindProjects(r, g, a, v) == Find(byVersion, v);
        if v in m[g][a] {
          assert Find(byVersion, v) == Some(SortedList(m[g][a][v]));
        }
      } else {
        assert FindProjects(r, g, a, v) == None;
      }
    } else {
      assert FindProjects(r, g, a, v) == None;
    }
  }
}
