/**
 * The parsed form of a Maven POM that the POM tool works on: GAV
 * coordinates, dependencies, the parent reference and the properties table.
 * Every text field is `str | None`; a properties value is a string, or the
 * int or float the parser made of it.
 */
module PomModel {
  import opened Wrappers
  import opened JavaLang
  import opened PyLang

  datatype Gav = Gav(groupId: Option<string>, artifactId: Option<string>, version: Option<string>)

  datatype Dependency = Dependency(gav: Gav, scope: Option<string>)

  datatype Parent = Parent(gav: Gav, relativePath: Option<string>)

  /**
   * A properties value. Python's float formatting is not modelled: a float
   * carries the text that `str()` gives for it.
   */
  datatype PropValue = PStr(s: string) | PInt(i: int) | PFloat(text: string)

  /** The properties dict, as its items in insertion order. */
  type Properties = seq<(string, PropValue)>

  datatype Pom = Pom(gav: Gav, packaging: Option<string>, name: Option<string>, description: Option<string>,
                     parent: Option<Parent>, dependencies: seq<Dependency>, managedDependencies: seq<Dependency>,
                     properties: Properties)

  /** `name in properties`. */
  predicate HasKey(props: Properties, name: string)
  {
    exists k | 0 <= k < |props| :: props[k].0 == name
  }

  /** `properties[name]`: the value stored under the name. */
  function Lookup(props: Properties, name: string): (v: PropValue)
    requires HasKey(props, name)
    ensures exists k | 0 <= k < |props| :: props[k] == (name, v)
  {
    if props[0].0 == name then props[0].1
    else
      assert HasKey(props[1..], name) by {
        var k :| 0 <= k < |props| && props[k].0 == name;
        assert props[1..][k - 1].0 == name;
      }
      var v := Lookup(props[1..], name);
      ghost var k :| 0 <= k < |props[1..]| && props[1..][k] == (name, v);
      assert props[k + 1] == (name, v);
      v
  }

  /** A dict holds each key once, so the items of a parsed properties table have distinct keys. */
  predicate UniqueKeys(props: Properties)
  {
    forall i, j | 0 <= i < j < |props| :: props[i].0 != props[j].0
  }

  /** With distinct keys, `properties[name]` is the value stored under the name, whichever item holds it. */
  lemma LookupUnique(props: Properties, name: string, v: PropValue)
    requires UniqueKeys(props) && (name, v) in props
    ensures HasKey(props, name) && Lookup(props, name) == v
  {
    var k :| 0 <= k < |props| && props[k] == (name, v);
    assert props[k].0 == name;
    var k' :| 0 <= k' < |props| && props[k'] == (name, Lookup(props, name));
  }

  /** `str(value)`. */
  function PyStr(v: PropValue): (r: string)
    ensures v.PStr? ==> r == v.s
    ensures v.PInt? ==> r == IntToString(v.i)
  {
    match v
    case PStr(s) => s
    case PInt(i) => IntToString(i)
    case PFloat(text) => text
  }
}
