/**
 * The POM tool's one-line renderings of coordinates and dependencies, and the
 * namespace prefix it reads off the root element's tag.
 */
module PomFormatter {
  import opened Wrappers
  import opened PyLang
  import opened PomModel

  /** The labelled parts `format_gav` collects, one per truthy coordinate. */
  function GavParts(gav: Gav): (parts: seq<string>)
    ensures |parts| == (if Truthy(gav.groupId) then 1 else 0) + (if Truthy(gav.artifactId) then 1 else 0)
                       + (if Truthy(gav.version) then 1 else 0)
    ensures forall k | 0 <= k < |parts| :: parts[k] != ""
  {
    (if Truthy(gav.groupId) then ["groupId: " + gav.groupId.value] else [])
    + (if Truthy(gav.artifactId) then ["artifactId: " + gav.artifactId.value] else [])
    + (if Truthy(gav.version) then ["version: " + gav.version.value] else [])
  }

  /** `format_gav`: the parts joined with ", ". */
  function FormatGav(gav: Gav): string
  {
    Join(GavParts(gav), ", ")
  }

  lemma {:induction false} JoinNonEmpty(parts: seq<string>, sep: string)
    requires parts != [] && parts[0] != ""
    ensures Join(parts, sep) != ""
  {
    if |parts| > 1 {
      assert Join(parts, sep) == parts[0] + sep + Join(parts[1..], sep);
    }
  }

  /** The rendering is empty exactly when no coordinate is set. */
  lemma FormatGavEmpty(gav: Gav)
    ensures FormatGav(gav) == "" <==> !Truthy(gav.groupId) && !Truthy(gav.artifactId) && !Truthy(gav.version)
  {
    var parts := GavParts(gav);
    if parts != [] {
      JoinNonEmpty(parts, ", ");
    }
  }

  /** With all three coordinates set, they appear in order, separated by ", ". */
  lemma FormatGavFull(gav: Gav)
    requires Truthy(gav.groupId) && Truthy(gav.artifactId) && Truthy(gav.version)
    ensures FormatGav(gav) == "groupId: " + gav.groupId.value + ", artifactId: " + gav.artifactId.value
                              + ", version: " + gav.version.value
  {
    var parts := GavParts(gav);
    assert |parts| == 3;
    assert parts[1..][1..] == [parts[2]];
    assert Join(parts[1..], ", ") == parts[1] + ", " + parts[2];
    assert Join(parts, ", ") == parts[0] + ", " + Join(parts[1..], ", ");
  }

  /** A single set coordinate is rendered alone, with no separator. */
  lemma FormatGavSingle(gav: Gav)
    requires Truthy(gav.groupId) && !Truthy(gav.artifactId) && !Truthy(gav.version)
    ensures FormatGav(gav) == "groupId: " + gav.groupId.value
  {
  }

  /** Whether `format_dependency` appends the scope. */
  predicate ShowsScope(dep: Dependency)
  {
    Truthy(dep.scope) && dep.scope.value != "compile"
  }

  /** `format_dependency`: the coordinates, then " (scope: s)" unless the scope is unset or "compile". */
  function FormatDependency(dep: Dependency): (r: string)
    ensures ShowsScope(dep) ==> r == FormatGav(dep.gav) + " (scope: " + dep.scope.value + ")"
    ensures r == FormatGav(dep.gav) <==> !ShowsScope(dep)
    ensures StartsWith(r, FormatGav(dep.gav))
  {
    var gavStr := FormatGav(dep.gav);
    if ShowsScope(dep) then gavStr + " (scope: " + dep.scope.value + ")" else gavStr
  }

  /**
   * `_extract_namespace`: `tag.split("}")[0] + "}"` when the tag holds a "}",
   * otherwise "".
   */
  function ExtractNamespace(tag: string): (ns: string)
    ensures ns == "" <==> '}' !in tag
    ensures ns != "" ==> StartsWith(tag, ns) && ns[|ns| - 1] == '}' && '}' !in ns[..|ns| - 1]
  {
    if '}' in tag then
      var i := IndexOf(tag, '}').value;
      assert Split(tag, '}')[0] == tag[..i];
      assert tag[..i + 1] == tag[..i] + "}";
      Split(tag, '}')[0] + "}"
    else ""
  }

  /** An ElementTree tag "{uri}local" yields "{uri}". */
  lemma ExtractNamespaceOfQualified(uri: string, local: string)
    requires '}' !in uri
    ensures ExtractNamespace("{" + uri + "}" + local) == "{" + uri + "}"
  {
    var tag := "{" + uri + "}" + local;
    var j := |uri| + 1;
    assert tag[j] == '}';
    assert tag[..j] == "{" + uri;
    assert '}' !in tag[..j];
    IndexOfFirst(tag, '}', j);
    assert Split(tag, '}')[0] == tag[..j];
  }
}
