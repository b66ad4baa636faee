/**
 * `_sort_version_keys`: the order the dependency matrix lists versions in.
 * Each version gets the tuple key that `version_key` builds: "inherited"
 * first, then `${...}` property references, then the rest. A version with
 * three or more dot-separated parts sorts by descending major, minor and
 * patch number. Python compares the keys as tuples, and a tuple
 * `(2, int, ...)` meets a tuple `(2, str)` only with a TypeError, so a list
 * that holds both kinds of plain version is an error here.
 */
module VersionSort {
  import opened Wrappers
  import opened JavaLang
  import opened PyLang

  /** The key tuple, one variant per shape `version_key` returns. */
  datatype VersionKey =
    | InheritedKey                                                     // (0, "inherited")
    | PropertyKey(text: string)                                        // (1, version)
    | SemanticKey(major: nat, minor: nat, patch: nat, text: string)    // (2, -major, -minor, -patch, version)
    | PlainKey(text: string)                                           // (2, version)

  /** The first element of the tuple. */
  function Rank(k: VersionKey): nat
  {
    match k
    case InheritedKey => 0
    case PropertyKey(_) => 1
    case _ => 2
  }

  /** The version string the key was built from: its last element. */
  function KeyText(k: VersionKey): string
  {
    if k.InheritedKey? then "inherited" else k.text
  }

  /** `int(p) if p.isdigit() else 0`; `isdigit` is false for the empty string. */
  function PartValue(p: string): nat
  {
    if p != [] && IsDigits(p) then DigitsValue(p) else 0
  }

  predicate IsPropertyReference(version: string)
  {
    StartsWith(version, "${") && EndsWith(version, "}")
  }

  /** `version_key`: the key keeps the version, so no two versions share a key. */
  function Key(version: string): (k: VersionKey)
    ensures KeyText(k) == version
  {
    if version == "inherited" then InheritedKey
    else if IsPropertyReference(version) then PropertyKey(version)
    else
      var parts := Split(version, '.');
      if |parts| >= 3 then SemanticKey(PartValue(parts[0]), PartValue(parts[1]), PartValue(parts[2]), version)
      else PlainKey(version)
  }

  /** The three groups, by the first element of the key. */
  lemma KeyRank(version: string)
    ensures Rank(Key(version)) == 0 <==> version == "inherited"
    ensures Rank(Key(version)) == 1 <==> version != "inherited" && IsPropertyReference(version)
    ensures Key(version).SemanticKey? <==>
              version != "inherited" && !IsPropertyReference(version) && |Split(version, '.')| >= 3
  {
  }

  lemma KeyInjective(a: string, b: string)
    requires Key(a) == Key(b)
    ensures a == b
  {
    assert KeyText(Key(a)) == a;
  }

  /** Python's `<` on two keys; false for the pair shapes it cannot compare. */
  predicate KeyLt(a: VersionKey, b: VersionKey)
  {
    if Rank(a) != Rank(b) then Rank(a) < Rank(b)
    else
      match (a, b)
      case (PropertyKey(x), PropertyKey(y)) => StrLt(x, y)
      case (PlainKey(x), PlainKey(y)) => StrLt(x, y)
      case (SemanticKey(m1, n1, p1, x), SemanticKey(m2, n2, p2, y)) =>
        m1 > m2 || (m1 == m2 && (n1 > n2 || (n1 == n2 && (p1 > p2 || (p1 == p2 && StrLt(x, y))))))
      case _ => false
  }

  predicate KeyLe(a: VersionKey, b: VersionKey)
  {
    a == b || KeyLt(a, b)
  }

  /** Whether Python can compare the two keys without a TypeError. */
  predicate Comparable(a: VersionKey, b: VersionKey)
  {
    !(a.SemanticKey? && b.PlainKey?) && !(a.PlainKey? && b.SemanticKey?)
  }

  lemma KeyLtIrreflexive(a: VersionKey)
    ensures !KeyLt(a, a)
  {
    if a.PropertyKey? || a.PlainKey? || a.SemanticKey? {
      StrLtIrreflexive(a.text);
    }
  }

  lemma KeyLtTransitive(a: VersionKey, b: VersionKey, c: VersionKey)
    requires KeyLt(a, b) && KeyLt(b, c)
    ensures KeyLt(a, c)
  {
    if Rank(a) == Rank(b) == Rank(c) && !a.InheritedKey? {
      if a.PropertyKey? || a.PlainKey? {
        StrLtTransitive(a.text, b.text, c.text);
      } else if a.major == b.major == c.major && a.minor == b.minor == c.minor && a.patch == b.patch == c.patch {
        StrLtTransitive(a.text, b.text, c.text);
      }
    }
  }

  lemma KeyLtTotal(a: VersionKey, b: VersionKey)
    requires Comparable(a, b)
    ensures a == b || KeyLt(a, b) || KeyLt(b, a)
  {
    if Rank(a) == Rank(b) && !a.InheritedKey? {
      StrLtTotal(a.text, b.text);
    }
  }

  lemma KeyLeAntisymmetric(a: VersionKey, b: VersionKey)
    requires KeyLe(a, b) && KeyLe(b, a)
    ensures a == b
  {
    if a != b {
      KeyLtTransitive(a, b, a);
      KeyLtIrreflexive(a);
    }
  }

  lemma KeyLeTransitive(a: VersionKey, b: VersionKey, c: VersionKey)
    requires KeyLe(a, b) && KeyLe(b, c)
    ensures KeyLe(a, c)
  {
    if a != b && b != c {
      KeyLtTransitive(a, b, c);
    }
  }

  // ---------- Sorting ----------

  /*
   * `sorted(versions, key=version_key)`. The sort takes the key function as
   * a parameter, as `sorted` does; the proofs use only the order on keys.
   */

  predicate HasSemantic(vs: seq<string>)
  {
    exists i | 0 <= i < |vs| :: Key(vs[i]).SemanticKey?
  }

  predicate HasPlain(vs: seq<string>)
  {
    exists i | 0 <= i < |vs| :: Key(vs[i]).PlainKey?
  }

  /** No two keys of the list are a pair Python cannot compare. */
  predicate ComparableBy(key: string -> VersionKey, vs: seq<string>)
  {
    forall i, j | 0 <= i < |vs| && 0 <= j < |vs| :: Comparable(key(vs[i]), key(vs[j]))
  }

  /** Ordered by key: every earlier version's key is at most every later one's. */
  predicate SortedBy(key: string -> VersionKey, vs: seq<string>)
  {
    forall i, j | 0 <= i < j < |vs| :: KeyLe(key(vs[i]), key(vs[j]))
  }

  predicate Sorted(vs: seq<string>)
  {
    SortedBy(Key, vs)
  }

  /** Puts x before the first version whose key is not below x's. */
  function InsertBy(key: string -> VersionKey, x: string, s: seq<string>): (r: seq<string>)
    ensures multiset(r) == multiset(s) + multiset{x}
    ensures forall y | y in r :: y == x || y in s
  {
    if s == [] then [x]
    else if KeyLe(key(x), key(s[0])) then [x] + s
    else
      assert s == [s[0]] + s[1..];
      [s[0]] + InsertBy(key, x, s[1..])
  }

  /** Insertion sort by key: a reference definition of the order `sorted` produces. */
  function SortBy(key: string -> VersionKey, vs: seq<string>): (r: seq<string>)
    ensures multiset(r) == multiset(vs)
    ensures forall y | y in r :: y in vs
  {
    if vs == [] then []
    else
      assert vs == [vs[0]] + vs[1..];
      InsertBy(key, vs[0], SortBy(key, vs[1..]))
  }

  /** The head of a sorted list is at most every element of it. */
  lemma HeadIsLeast(key: string -> VersionKey, s: seq<string>, y: string)
    requires SortedBy(key, s) && y in s
    ensures KeyLe(key(s[0]), key(y))
  {
    var i :| 0 <= i < |s| && s[i] == y;
    if i > 0 {
      assert KeyLe(key(s[0]), key(s[i]));
    }
  }

  lemma SortedTail(key: string -> VersionKey, s: seq<string>)
    requires s != [] && SortedBy(key, s)
    ensures SortedBy(key, s[1..])
  {
    var t := s[1..];
    forall i, j | 0 <= i < j < |t|
      ensures KeyLe(key(t[i]), key(t[j]))
    {
      assert t[i] == s[i + 1] && t[j] == s[j + 1];
    }
  }

  /** A sorted list stays sorted with a least element put in front. */
  lemma SortedCons(key: string -> VersionKey, h: string, s: seq<string>)
    requires SortedBy(key, s)
    requires forall y | y in s :: KeyLe(key(h), key(y))
    ensures SortedBy(key, [h] + s)
  {
    var r := [h] + s;
    forall i, j | 0 <= i < j < |r|
      ensures KeyLe(key(r[i]), key(r[j]))
    {
      assert r[j] == s[j - 1];
      if i > 0 {
        assert r[i] == s[i - 1];
      }
    }
  }

  lemma {:induction false} InsertSorted(key: string -> VersionKey, x: string, s: seq<string>)
    requires SortedBy(key, s)
    requires forall y | y in s :: Comparable(key(x), key(y))
    ensures SortedBy(key, InsertBy(key, x, s))
  {
    if s == [] {
    } else if KeyLe(key(x), key(s[0])) {
      forall y | y in s
        ensures KeyLe(key(x), key(y))
      {
        HeadIsLeast(key, s, y);
        KeyLeTransitive(key(x), key(s[0]), key(y));
      }
      SortedCons(key, x, s);
    } else {
      KeyLtTotal(key(x), key(s[0]));
      var tail := s[1..];
      assert forall y | y in tail :: y in s;
      SortedTail(key, s);
      InsertSorted(key, x, tail);
      var rest := InsertBy(key, x, tail);
      forall y | y in rest
        ensures KeyLe(key(s[0]), key(y))
      {
        if y != x {
          HeadIsLeast(key, s, y);
        }
      }
      SortedCons(key, s[0], rest);
    }
  }

  lemma {:induction false} SortSorted(key: string -> VersionKey, vs: seq<string>)
    requires ComparableBy(key, vs)
    ensures SortedBy(key, SortBy(key, vs))
  {
    if vs != [] {
      var tail := vs[1..];
      assert forall i | 0 <= i < |tail| :: tail[i] == vs[i + 1];
      SortSorted(key, tail);
      var sorted := SortBy(key, tail);
      forall y | y in sorted
        ensures Comparable(key(vs[0]), key(y))
      {
        var m :| 0 <= m < |tail| && tail[m] == y;
        assert vs[m + 1] == y;
      }
      InsertSorted(key, vs[0], sorted);
    }
  }

  /**
   * Two arrangements of the same versions that are both sorted by an
   * injective key are the same list: the key order decides every position,
   * so the result does not depend on the sorting algorithm.
   */
  lemma {:induction false} SortedUnique(key: string -> VersionKey, a: seq<string>, b: seq<string>)
    requires forall x, y :: key(x) == key(y) ==> x == y
    requires SortedBy(key, a) && SortedBy(key, b)
    requires multiset(a) == multiset(b)
    ensures a == b
    decreases |a|
  {
    if a != [] {
      SortedSameHead(key, a, b);
      TailMultiset(a);
      TailMultiset(b);
      SortedTail(key, a);
      SortedTail(key, b);
      SortedUnique(key, a[1..], b[1..]);
      assert a == [a[0]] + a[1..] && b == [b[0]] + b[1..];
    }
  }

  /** Two sorted arrangements of the same versions under an injective key start with the same version. */
  lemma SortedSameHead(key: string -> VersionKey, a: seq<string>, b: seq<string>)
    requires forall x, y :: key(x) == key(y) ==> x == y
    requires SortedBy(key, a) && SortedBy(key, b)
    requires multiset(a) == multiset(b) && a != []
    ensures b != [] && a[0] == b[0]
  {
    assert |b| == |multiset(b)| == |a|;
    assert a[0] in multiset(b) && b[0] in multiset(a);
    HeadIsLeast(key, a, b[0]);
    HeadIsLeast(key, b, a[0]);
    KeyLeAntisymmetric(key(a[0]), key(b[0]));
  }

  lemma TailMultiset(s: seq<string>)
    requires s != []
    ensures multiset(s[1..]) == multiset(s) - multiset{s[0]}
  {
    assert s == [s[0]] + s[1..];
  }

  lemma ComparableWhenNotMixed(vs: seq<string>)
    requires !(HasSemantic(vs) && HasPlain(vs))
    ensures ComparableBy(Key, vs)
  {
  }

  /**
   * `_sort_version_keys`: the versions in key order, or the TypeError Python
   * raises when versions with three or more parts meet versions with fewer.
   */
  function SortVersionKeys(vs: seq<string>): (r: Result<seq<string>, string>)
    ensures r.Err? <==> HasSemantic(vs) && HasPlain(vs)
    ensures r.Ok? ==> multiset(r.value) == multiset(vs) && Sorted(r.value)
  {
    if HasSemantic(vs) && HasPlain(vs) then Err("TypeError")
    else
      ComparableWhenNotMixed(vs);
      SortSorted(Key, vs);
      Ok(SortBy(Key, vs))
  }

  /** Any sorted arrangement of the versions is the one `_sort_version_keys` returns. */
  lemma SortVersionKeysUnique(vs: seq<string>, r: seq<string>)
    requires !(HasSemantic(vs) && HasPlain(vs))
    requires multiset(r) == multiset(vs) && Sorted(r)
    ensures SortVersionKeys(vs) == Ok(r)
  {
    forall x, y | Key(x) == Key(y)
      ensures x == y
    {
      KeyInjective(x, y);
    }
    SortedUnique(Key, SortVersionKeys(vs).value, r);
  }

  /** In a sorted list "inherited" comes first, property references next, and the rest last. */
  lemma SortedGroups(vs: seq<string>, i: int, j: int)
    requires Sorted(vs) && 0 <= i < j < |vs|
    ensures Rank(Key(vs[i])) <= Rank(Key(vs[j]))
    ensures vs[j] == "inherited" ==> vs[i] == "inherited"
    ensures IsPropertyReference(vs[j]) && vs[j] != "inherited" ==> vs[i] == "inherited" || IsPropertyReference(vs[i])
  {
    KeyRank(vs[i]);
    KeyRank(vs[j]);
    assert KeyLe(Key(vs[i]), Key(vs[j]));
  }

  /** Versions with three or more parts come by descending major, then minor, then patch number. */
  lemma SortedSemanticDescending(vs: seq<string>, i: int, j: int)
    requires Sorted(vs) && 0 <= i < j < |vs|
    requires Key(vs[i]).SemanticKey? && Key(vs[j]).SemanticKey?
    ensures Key(vs[i]).major >= Key(vs[j]).major
    ensures Key(vs[i]).major == Key(vs[j]).major ==> Key(vs[i]).minor >= Key(vs[j]).minor
    ensures Key(vs[i]).major == Key(vs[j]).major && Key(vs[i]).minor == Key(vs[j]).minor
            ==> Key(vs[i]).patch >= Key(vs[j]).patch
  {
    assert KeyLe(Key(vs[i]), Key(vs[j]));
  }
}
