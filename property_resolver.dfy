/**
 * PropertyResolver.resolve: substitution of `${name}` placeholders. The
 * placeholders are those `re.finditer(r"\$\{([^}]+)\}", value)` finds in the
 * ORIGINAL value, scanned left to right without overlap. For each one whose
 * name is a key of the properties, every occurrence of its text in the
 * current result is replaced (`str.replace`) by `str(value)`.
 */
module PropertyResolver {
  import opened Wrappers
  import opened PyLang
  import opened PomModel

  /** A match of the placeholder pattern: `s[start..end]` is `${name}`. */
  datatype Placeholder = Placeholder(start: nat, end: nat)

  predicate IsPlaceholderAt(s: string, m: Placeholder)
  {
    && m.start + 4 <= m.end <= |s|
    && s[m.start] == '$' && s[m.start + 1] == '{' && s[m.end - 1] == '}'
    && '}' !in s[m.start + 2..m.end - 1]
  }

  /** match.group(1) */
  function Name(s: string, m: Placeholder): string
    requires IsPlaceholderAt(s, m)
  {
    s[m.start + 2..m.end - 1]
  }

  /** match.group(0) */
  function Text(s: string, m: Placeholder): string
    requires IsPlaceholderAt(s, m)
  {
    s[m.start..m.end]
  }

  /** The matches finditer yields from position i on, in order and without overlap. */
  function Matches(s: string, i: nat): (ms: seq<Placeholder>)
    requires i <= |s|
    ensures forall k | 0 <= k < |ms| :: IsPlaceholderAt(s, ms[k]) && i <= ms[k].start
    ensures forall k | 0 <= k < |ms| - 1 :: ms[k].end <= ms[k + 1].start
    decreases |s| - i
  {
    if i + 1 >= |s| then []
    else if s[i] == '$' && s[i + 1] == '{' then
      match IndexOf(s[i + 2..], '}')
      case Some(k) =>
        if k > 0 then
          assert s[i + 2..i + 2 + k] == s[i + 2..][..k];
          [Placeholder(i, i + k + 3)] + Matches(s, i + k + 3)
        else Matches(s, i + 1)
      case None => Matches(s, i + 1)
    else Matches(s, i + 1)
  }

  /** `s.replace(pat, rep)` for a non-empty pattern: leftmost occurrences, without overlap. */
  function ReplaceAll(s: string, pat: string, rep: string): (r: string)
    requires pat != []
    ensures !Contains(s, pat) ==> r == s
    decreases |s|
  {
    if StartsWith(s, pat) then rep + ReplaceAll(s[|pat|..], pat, rep)
    else if s == [] then []
    else [s[0]] + ReplaceAll(s[1..], pat, rep)
  }

  /** One loop iteration: replace the placeholder's text if its name is a known property. */
  function Step(result: string, value: string, m: Placeholder, props: Properties): string
    requires IsPlaceholderAt(value, m)
  {
    var name := Name(value, m);
    if HasKey(props, name) then ReplaceAll(result, Text(value, m), PyStr(Lookup(props, name))) else result
  }

  /** The result after the loop has handled the given matches of `value`, in order. */
  function ApplyAll(value: string, ms: seq<Placeholder>, props: Properties): string
    requires forall k | 0 <= k < |ms| :: IsPlaceholderAt(value, ms[k])
  {
    if ms == [] then value
    else Step(ApplyAll(value, ms[..|ms| - 1], props), value, ms[|ms| - 1], props)
  }

  /** Handling one more match is one more step. */
  lemma ApplyAllStep(value: string, ms: seq<Placeholder>, i: nat, props: Properties)
    requires i < |ms| && forall k | 0 <= k < |ms| :: IsPlaceholderAt(value, ms[k])
    ensures ApplyAll(value, ms[..i + 1], props) == Step(ApplyAll(value, ms[..i], props), value, ms[i], props)
  {
    assert ms[..i + 1][..i] == ms[..i];
  }

  /** What resolve returns. */
  function ResolveSpec(value: string, props: Properties): string
  {
    if !Contains(value, "${") then value else ApplyAll(value, Matches(value, 0), props)
  }

  /** resolve, with its early return and its loop over the matches. */
  method Resolve(value: string, props: Properties) returns (result: string)
    ensures result == ResolveSpec(value, props)
  {
    if !Contains(value, "${") {
      return value;
    }
    result := value;
    var ms := Matches(value, 0);
    var i := 0;
    while i < |ms|
      invariant 0 <= i <= |ms|
      invariant result == ApplyAll(value, ms[..i], props)
    {
      ApplyAllStep(value, ms, i, props);
      var m := ms[i];
      var name := Name(value, m);
      if HasKey(props, name) {
        result := ReplaceAll(result, Text(value, m), PyStr(Lookup(props, name)));
      }
      i := i + 1;
    }
    assert ms[..i] == ms;
  }

  // ---------- The scan ----------

  /** Positions holding no `$` start no match. */
  lemma {:induction false} MatchesSkip(s: string, i: nat, j: nat)
    requires i <= j <= |s|
    requires forall k | i <= k < j :: s[k] != '$'
    ensures Matches(s, i) == Matches(s, j)
    decreases j - i
  {
    if i < j {
      MatchesSkip(s, i + 1, j);
    }
  }

  /** At an opener with a closing brace after a non-empty name, the scan takes that match. */
  lemma MatchesAtOpener(s: string, i: nat, k: nat)
    requires i + 1 < |s| && s[i] == '$' && s[i + 1] == '{'
    requires IndexOf(s[i + 2..], '}') == Some(k) && k > 0
    ensures Matches(s, i) == [Placeholder(i, i + k + 3)] + Matches(s, i + k + 3)
  {
  }

  /** A string without "${" has no placeholder at all, so the early return changes nothing. */
  lemma {:induction false} NoOpenerNoMatches(s: string, i: nat)
    requires i <= |s|
    requires !Contains(s, "${")
    ensures Matches(s, i) == []
    decreases |s| - i
  {
    if i + 1 < |s| {
      if s[i] == '$' && s[i + 1] == '{' {
        assert s[i..i + 2] == "${";
        ContainsAt(s, "${", i);
      }
      NoOpenerNoMatches(s, i + 1);
    }
  }

  lemma EarlyReturnIsOptimisation(value: string, props: Properties)
    ensures ResolveSpec(value, props) == ApplyAll(value, Matches(value, 0), props)
  {
    if !Contains(value, "${") {
      NoOpenerNoMatches(value, 0);
    }
  }

  /** resolve returns its input unchanged when the input contains no "${". */
  lemma ResolveWithoutOpener(value: string, props: Properties)
    requires !Contains(value, "${")
    ensures ResolveSpec(value, props) == value
    ensures Matches(value, 0) == []
  {
    NoOpenerNoMatches(value, 0);
  }

  // ---------- Unknown names ----------

  lemma {:induction false} ApplyAllUnknown(value: string, ms: seq<Placeholder>, props: Properties)
    requires forall k | 0 <= k < |ms| :: IsPlaceholderAt(value, ms[k]) && !HasKey(props, Name(value, ms[k]))
    ensures ApplyAll(value, ms, props) == value
  {
    if ms != [] {
      ApplyAllUnknown(value, ms[..|ms| - 1], props);
    }
  }

  /** Placeholders whose names are not properties are left intact: with none known, nothing changes. */
  lemma ResolveUnknownIntact(value: string, props: Properties)
    requires forall k | 0 <= k < |Matches(value, 0)| :: !HasKey(props, Name(value, Matches(value, 0)[k]))
    ensures ResolveSpec(value, props) == value
  {
    ApplyAllUnknown(value, Matches(value, 0), props);
  }

  /** With an empty properties table resolve is the identity. */
  lemma ResolveEmptyProperties(value: string)
    ensures ResolveSpec(value, []) == value
  {
    ResolveUnknownIntact(value, []);
  }

  // ---------- A single known placeholder ----------

  lemma {:induction false} ReplaceAllAbsentHead(s: string, pat: string, rep: string)
    requires pat != [] && pat[0] !in s
    ensures ReplaceAll(s, pat, rep) == s
    decreases |s|
  {
    if s != [] {
      assert !StartsWith(s, pat);
      ReplaceAllAbsentHead(s[1..], pat, rep);
    }
  }

  lemma {:induction false} ReplaceAllSkipPrefix(a: string, b: string, pat: string, rep: string)
    requires pat != [] && pat[0] !in a
    ensures ReplaceAll(a + b, pat, rep) == a + ReplaceAll(b, pat, rep)
    decreases |a|
  {
    if a != [] {
      assert (a + b)[0] == a[0];
      assert !StartsWith(a + b, pat) by {
        if |pat| <= |a + b| {
          assert (a + b)[..|pat|][0] == a[0];
        }
      }
      assert (a + b)[1..] == a[1..] + b;
      assert ReplaceAll(a + b, pat, rep) == [a[0]] + ReplaceAll(a[1..] + b, pat, rep);
      ReplaceAllSkipPrefix(a[1..], b, pat, rep);
      assert a == [a[0]] + a[1..];
    } else {
      assert a + b == b;
    }
  }

  /** The placeholder text built from a name. */
  function PlaceholderText(name: string): string
  {
    "${" + name + "}"
  }

  /** No `$` from position i on: no match from there. */
  lemma NoDollarNoMatches(s: string, i: nat)
    requires i <= |s|
    requires forall k | i <= k < |s| :: s[k] != '$'
    ensures Matches(s, i) == []
  {
    MatchesSkip(s, i, |s|);
  }

  /** The placeholder at p, followed by nothing the scan matches. */
  lemma MatchesOnlyAt(value: string, p: nat, e: nat)
    requires p + 4 <= e <= |value|
    requires value[p] == '$' && value[p + 1] == '{' && value[e - 1] == '}' && '}' !in value[p + 2..e - 1]
    requires Matches(value, e) == []
    ensures Matches(value, p) == [Placeholder(p, e)]
  {
    var n: nat := e - p - 3;
    ClosingBraceAt(value, p, e);
    MatchesAtOpener(value, p, n);
  }

  /** The first `}` after an opener at p is the one at e - 1 when none comes before it. */
  lemma ClosingBraceAt(value: string, p: nat, e: nat)
    requires p + 4 <= e <= |value|
    requires value[e - 1] == '}' && '}' !in value[p + 2..e - 1]
    ensures IndexOf(value[p + 2..], '}') == Some(e - p - 3)
  {
    var rest := value[p + 2..];
    assert rest[..e - p - 3] == value[p + 2..e - 1];
    IndexOfFirst(rest, '}', e - p - 3);
  }

  /** A value whose only `$` opens one placeholder is scanned to exactly that placeholder. */
  lemma MatchesSingleAt(value: string, p: nat, e: nat)
    requires p + 4 <= e <= |value|
    requires forall k | 0 <= k < p :: value[k] != '$'
    requires forall k | e <= k < |value| :: value[k] != '$'
    requires value[p] == '$' && value[p + 1] == '{' && value[e - 1] == '}' && '}' !in value[p + 2..e - 1]
    ensures Matches(value, 0) == [Placeholder(p, e)]
  {
    MatchesSkip(value, 0, p);
    NoDollarNoMatches(value, e);
    MatchesOnlyAt(value, p, e);
  }

  /** The pieces of `pre + "${name}" + post`, by index. */
  lemma SingleShape(pre: string, name: string, post: string)
    ensures var value := pre + PlaceholderText(name) + post;
            var p, e := |pre|, |pre| + |name| + 3;
            && |value| == e + |post|
            && (forall k | 0 <= k < p :: value[k] == pre[k])
            && (forall k | e <= k < |value| :: value[k] == post[k - e])
            && value[p] == '$' && value[p + 1] == '{' && value[e - 1] == '}'
            && value[p + 2..e - 1] == name && value[p..e] == PlaceholderText(name)
  {
  }

  /** Replacing the placeholder's text touches only that occurrence. */
  lemma ReplaceSingle(pre: string, name: string, post: string, rep: string)
    requires '$' !in pre && '$' !in post
    ensures ReplaceAll(pre + PlaceholderText(name) + post, PlaceholderText(name), rep) == pre + rep + post
  {
    var pat := PlaceholderText(name);
    assert pre + pat + post == pre + (pat + post);
    ReplaceAllSkipPrefix(pre, pat + post, pat, rep);
    assert StartsWith(pat + post, pat);
    assert (pat + post)[|pat|..] == post;
    ReplaceAllAbsentHead(post, pat, rep);
  }

  /**
   * A value with one placeholder for a known property, and no other `$`, has
   * exactly that placeholder replaced by the property's string form.
   */
  lemma ResolveSingle(pre: string, name: string, post: string, props: Properties)
    requires '$' !in pre && '$' !in post
    requires name != [] && '}' !in name
    requires HasKey(props, name)
    ensures ResolveSpec(pre + PlaceholderText(name) + post, props) == pre + PyStr(Lookup(props, name)) + post
  {
    var value := pre + PlaceholderText(name) + post;
    var m := Placeholder(|pre|, |pre| + |name| + 3);
    SingleShape(pre, name, post);
    MatchesSingleAt(value, m.start, m.end);
    assert Name(value, m) == name && Text(value, m) == PlaceholderText(name);
    EarlyReturnIsOptimisation(value, props);
    assert [m][..0] == [];
    assert ApplyAll(value, [m], props) == Step(value, value, m, props);
    ReplaceSingle(pre, name, post, PyStr(Lookup(props, name)));
  }

  // ---------- Any number of placeholders ----------

  /** A name the pattern captures and no other placeholder can start inside: no `}` and no `$`. */
  predicate PropertyName(n: string)
  {
    n != [] && '}' !in n && '$' !in n
  }

  /** `segs[0] + toks[0] + segs[1] + ... + toks[k - 1] + segs[k]`. */
  function Interleave(segs: seq<string>, toks: seq<string>): (s: string)
    requires |segs| == |toks| + 1
    ensures toks == [] ==> s == segs[0]
    decreases |toks|
  {
    if toks == [] then segs[0] else segs[0] + toks[0] + Interleave(segs[1..], toks[1..])
  }

  /** The placeholder texts of the names, in order. */
  function Placeholders(names: seq<string>): (ps: seq<string>)
    ensures |ps| == |names|
  {
    if names == [] then [] else [PlaceholderText(names[0])] + Placeholders(names[1..])
  }

  /** What resolve puts where `${n}` stood: the property's string form, or the placeholder itself. */
  function Substitute(n: string, props: Properties): string
  {
    if HasKey(props, n) then PyStr(Lookup(props, n)) else PlaceholderText(n)
  }

  function SubstituteAll(names: seq<string>, props: Properties): (r: seq<string>)
    ensures |r| == |names|
  {
    if names == [] then [] else [Substitute(names[0], props)] + SubstituteAll(names[1..], props)
  }

  /** A placeholder's text is `${` + its name + `}`. */
  lemma TextOfPlaceholder(s: string, m: Placeholder)
    requires IsPlaceholderAt(s, m)
    ensures Text(s, m) == PlaceholderText(Name(s, m))
  {
    assert Text(s, m) == [s[m.start], s[m.start + 1]] + Name(s, m) + [s[m.end - 1]];
  }

  /** The text of `${n}` at p, character by character. */
  lemma PlaceholderShape(s: string, p: nat, n: string)
    requires p + |n| + 3 <= |s| && s[p..p + |n| + 3] == PlaceholderText(n)
    ensures s[p] == '$' && s[p + 1] == '{' && s[p + |n| + 2] == '}' && s[p + 2..p + |n| + 2] == n
  {
    var pt := PlaceholderText(n);
    assert s[p] == pt[0] && s[p + 1] == pt[1] && s[p + |n| + 2] == pt[|n| + 2];
    assert forall k | 0 <= k < |n| :: s[p + 2..p + |n| + 2][k] == s[p..p + |n| + 3][k + 2] == pt[k + 2] == n[k];
  }

  /** At the text of `${n}` the scan takes exactly that placeholder. */
  lemma MatchesAtPlaceholder(s: string, p: nat, n: string)
    requires PropertyName(n) && p + |n| + 3 <= |s| && s[p..p + |n| + 3] == PlaceholderText(n)
    ensures IsPlaceholderAt(s, Placeholder(p, p + |n| + 3)) && Name(s, Placeholder(p, p + |n| + 3)) == n
    ensures Matches(s, p) == [Placeholder(p, p + |n| + 3)] + Matches(s, p + |n| + 3)
  {
    PlaceholderShape(s, p, n);
    CloseAfterName(s[p + 2..], n);
    MatchesAtOpener(s, p, |n|);
  }

  /** The first `}` after a name without `}` is the one right after it. */
  lemma CloseAfterName(r: string, n: string)
    requires '}' !in n && |n| < |r| && r[..|n|] == n && r[|n|] == '}'
    ensures IndexOf(r, '}') == Some(|n|)
  {
    IndexOfFirst(r, '}', |n|);
  }

  /** The scan passes text without `$` from a to p and then takes the placeholder `${n}` at p. */
  lemma ScanStep(s: string, a: nat, p: nat, n: string)
    requires a <= p && PropertyName(n) && p + |n| + 3 <= |s| && s[p..p + |n| + 3] == PlaceholderText(n)
    requires forall k | a <= k < p :: s[k] != '$'
    ensures IsPlaceholderAt(s, Placeholder(p, p + |n| + 3)) && Name(s, Placeholder(p, p + |n| + 3)) == n
    ensures Matches(s, a) == [Placeholder(p, p + |n| + 3)] + Matches(s, p + |n| + 3)
  {
    MatchesSkip(s, a, p);
    MatchesAtPlaceholder(s, p, n);
  }

  /** Where the pieces of `seg + "${n}" + rest` lie when they make up `s[a..]`. */
  lemma PiecesAt(s: string, a: nat, seg: string, n: string, rest: string)
    requires '$' !in seg && a <= |s| && s[a..] == seg + PlaceholderText(n) + rest
    ensures var p := a + |seg|;
            && p + |n| + 3 <= |s|
            && (forall k | a <= k < p :: s[k] != '$')
            && s[p..p + |n| + 3] == PlaceholderText(n)
            && s[p + |n| + 3..] == rest
  {
    var pt := PlaceholderText(n);
    var t := s[a..];
    var p := a + |seg|;
    forall k | a <= k < p
      ensures s[k] != '$'
    {
      assert s[k] == t[k - a] == seg[k - a];
    }
    assert forall k | 0 <= k < |pt| :: s[p..p + |n| + 3][k] == t[|seg| + k] == pt[k];
    assert forall k | 0 <= k < |rest| :: s[p + |n| + 3..][k] == t[|seg| + |pt| + k] == rest[k];
  }

  /**
   * Scanning `s` from a, where `s[a..]` is `Interleave(segs, Placeholders(names))`,
   * finds one match per name, in order, each capturing that name.
   */
  lemma {:induction false} ScanInterleaved(s: string, a: nat, segs: seq<string>, names: seq<string>)
    requires |segs| == |names| + 1
    requires forall j | 0 <= j < |segs| :: '$' !in segs[j]
    requires forall j | 0 <= j < |names| :: PropertyName(names[j])
    requires a <= |s| && s[a..] == Interleave(segs, Placeholders(names))
    ensures |Matches(s, a)| == |names|
    ensures forall j | 0 <= j < |names| :: Name(s, Matches(s, a)[j]) == names[j]
    decreases |names|
  {
    if names == [] {
      assert forall k | a <= k < |s| :: s[k] == s[a..][k - a] == segs[0][k - a];
      NoDollarNoMatches(s, a);
    } else {
      var n := names[0];
      var rest := Interleave(segs[1..], Placeholders(names[1..]));
      assert Placeholders(names)[1..] == Placeholders(names[1..]);
      assert s[a..] == segs[0] + PlaceholderText(n) + rest;
      PiecesAt(s, a, segs[0], n, rest);
      var p := a + |segs[0]|;
      var e := p + |n| + 3;
      ScanStep(s, a, p, n);
      assert '$' !in segs[0];
      ScanInterleaved(s, e, segs[1..], names[1..]);
      var ms := Matches(s, a);
      assert ms == [Placeholder(p, e)] + Matches(s, e);
      forall j | 0 <= j < |names|
        ensures Name(s, ms[j]) == names[j]
      {
        if j > 0 {
          assert ms[j] == Matches(s, e)[j - 1] && names[j] == names[1..][j - 1];
        }
      }
    }
  }

  /** What the result holds for one placeholder once the names in `done` have been replaced. */
  function Token(n: string, done: set<string>, props: Properties): string
  {
    if n in done && HasKey(props, n) then PyStr(Lookup(props, n)) else PlaceholderText(n)
  }

  function Tokens(names: seq<string>, done: set<string>, props: Properties): (r: seq<string>)
    ensures |r| == |names|
  {
    if names == [] then [] else [Token(names[0], done, props)] + Tokens(names[1..], done, props)
  }

  /** Property values whose string form has no `$`, so a replacement never makes a new placeholder. */
  predicate PlainReplacements(names: seq<string>, props: Properties)
  {
    forall j | 0 <= j < |names| :: HasKey(props, names[j]) ==> '$' !in PyStr(Lookup(props, names[j]))
  }

  /** `${m}` followed by anything does not start with `${n}`, unless m == n. */
  lemma PlaceholderNoPrefix(m: string, n: string, x: string)
    requires PropertyName(m) && PropertyName(n) && m != n
    ensures !StartsWith(PlaceholderText(m) + x, PlaceholderText(n))
  {
    var t := PlaceholderText(m) + x;
    var pn := PlaceholderText(n);
    var k: nat;
    if |n| < |m| {
      k := |n| + 2;
      assert t[k] == m[|n|] && pn[k] == '}';
    } else if |n| > |m| {
      k := |m| + 2;
      assert t[k] == '}' && pn[k] == n[|m|];
    } else {
      var d :| 0 <= d < |n| && m[d] != n[d];
      k := d + 2;
      assert t[k] == m[d] && pn[k] == n[d];
    }
    assert k < |pn| && k < |t| && t[k] != pn[k];
    if |pn| <= |t| {
      assert t[..|pn|][k] != pn[k];
    }
  }

  /** A token is skipped by replace unless it is the pattern itself. */
  lemma ReplaceAfterToken(t: string, m: string, x: string, n: string, rep: string)
    requires PropertyName(n) && PropertyName(m)
    requires '$' !in t || t == PlaceholderText(m)
    ensures ReplaceAll(t + x, PlaceholderText(n), rep) == (if t == PlaceholderText(n) then rep else t) + ReplaceAll(x, PlaceholderText(n), rep)
  {
    var pn := PlaceholderText(n);
    if t == pn {
      ReplaceAtPattern(x, pn, rep);
    } else if '$' !in t {
      ReplaceAllSkipPrefix(t, x, pn, rep);
    } else {
      ReplaceAfterOtherPlaceholder(m, x, n, rep);
    }
  }

  /** replace takes the pattern where the text starts with it. */
  lemma ReplaceAtPattern(x: string, pat: string, rep: string)
    requires pat != []
    ensures ReplaceAll(pat + x, pat, rep) == rep + ReplaceAll(x, pat, rep)
  {
    assert StartsWith(pat + x, pat);
    assert (pat + x)[|pat|..] == x;
  }

  /** `${m}` is passed over by the replacement of `${n}` when m != n. */
  lemma ReplaceAfterOtherPlaceholder(m: string, x: string, n: string, rep: string)
    requires PropertyName(n) && PropertyName(m) && m != n
    ensures ReplaceAll(PlaceholderText(m) + x, PlaceholderText(n), rep) == PlaceholderText(m) + ReplaceAll(x, PlaceholderText(n), rep)
  {
    var pn, t := PlaceholderText(n), PlaceholderText(m);
    PlaceholderNoPrefix(m, n, x);
    var tail := "{" + m + "}";
    assert t == "$" + tail && '$' !in tail;
    assert t + x == "$" + (tail + x);
    assert ReplaceAll(t + x, pn, rep) == "$" + ReplaceAll(tail + x, pn, rep);
    ReplaceAllSkipPrefix(tail, x, pn, rep);
  }

  lemma PlainReplacementsTail(names: seq<string>, props: Properties)
    requires names != [] && PlainReplacements(names, props)
    ensures PlainReplacements(names[1..], props)
  {
    forall j | 0 <= j < |names[1..]| && HasKey(props, names[1..][j])
      ensures '$' !in PyStr(Lookup(props, names[1..][j]))
    {
      assert names[1..][j] == names[j + 1];
    }
  }

  /**
   * Replacing `${n}` in the interleaving replaces exactly the tokens that are
   * still `${n}`: the result is the interleaving with `n` added to the done names.
   */
  lemma {:induction false} ReplaceInterleaved(segs: seq<string>, names: seq<string>, done: set<string>, n: string, props: Properties)
    requires |segs| == |names| + 1
    requires forall j | 0 <= j < |segs| :: '$' !in segs[j]
    requires forall j | 0 <= j < |names| :: PropertyName(names[j])
    requires PropertyName(n) && HasKey(props, n) && '$' !in PyStr(Lookup(props, n))
    requires PlainReplacements(names, props)
    ensures ReplaceAll(Interleave(segs, Tokens(names, done, props)), PlaceholderText(n), PyStr(Lookup(props, n)))
            == Interleave(segs, Tokens(names, done + {n}, props))
    decreases |names|
  {
    var pn, rep := PlaceholderText(n), PyStr(Lookup(props, n));
    if names == [] {
      ReplaceAllAbsentHead(segs[0], pn, rep);
    } else {
      var t, t' := Token(names[0], done, props), Token(names[0], done + {n}, props);
      var rest := Interleave(segs[1..], Tokens(names[1..], done, props));
      var rest' := Interleave(segs[1..], Tokens(names[1..], done + {n}, props));
      assert Interleave(segs, Tokens(names, done, props)) == segs[0] + (t + rest);
      assert Interleave(segs, Tokens(names, done + {n}, props)) == segs[0] + (t' + rest');
      ReplaceAllSkipPrefix(segs[0], t + rest, pn, rep);
      TokenStep(names[0], done, n, props);
      ReplaceAfterToken(t, names[0], rest, n, rep);
      PlainReplacementsTail(names, props);
      ReplaceInterleaved(segs[1..], names[1..], done, n, props);
    }
  }

  /** Replacing `${n}` turns the token of `m` into its token with n done. */
  lemma TokenStep(m: string, done: set<string>, n: string, props: Properties)
    requires PropertyName(m) && HasKey(props, n)
    requires HasKey(props, m) ==> '$' !in PyStr(Lookup(props, m))
    ensures var t := Token(m, done, props);
            && ('$' !in t || t == PlaceholderText(m))
            && (if t == PlaceholderText(n) then PyStr(Lookup(props, n)) else t) == Token(m, done + {n}, props)
  {
    var t := Token(m, done, props);
    if t == PlaceholderText(n) {
      assert '$' in t;
      assert t == PlaceholderText(m);
      assert m == n by {
        assert m == t[2..|t| - 1] == n;
      }
    }
  }

  /** The names among `ns` that are properties: those the loop has replaced after handling `ns`. */
  function KnownNames(ns: seq<string>, props: Properties): set<string>
  {
    set n | n in ns && HasKey(props, n)
  }

  /** The input of `ResolveInterleaved`: literal text without `$` around placeholders for property names. */
  predicate InterleavedInput(segs: seq<string>, names: seq<string>, props: Properties)
  {
    && |segs| == |names| + 1
    && (forall j | 0 <= j < |segs| :: '$' !in segs[j])
    && (forall j | 0 <= j < |names| :: PropertyName(names[j]))
    && PlainReplacements(names, props)
  }

  lemma KnownNamesSnoc(ns: seq<string>, n: string, props: Properties)
    ensures KnownNames(ns + [n], props) == if HasKey(props, n) then KnownNames(ns, props) + {n} else KnownNames(ns, props)
  {
    assert forall x :: x in ns + [n] <==> x in ns || x == n;
  }

  lemma KnownNamesPrefix(names: seq<string>, i: nat, props: Properties)
    requires i < |names|
    ensures KnownNames(names[..i + 1], props)
            == if HasKey(props, names[i]) then KnownNames(names[..i], props) + {names[i]} else KnownNames(names[..i], props)
  {
    assert names[..i + 1] == names[..i] + [names[i]];
    KnownNamesSnoc(names[..i], names[i], props);
  }

  /** One more loop iteration, on the interleaving: the i-th name joins the replaced ones if it is known. */
  lemma ApplyStepInterleaved(segs: seq<string>, names: seq<string>, props: Properties, value: string, ms: seq<Placeholder>, i: nat)
    requires InterleavedInput(segs, names, props) && value == Interleave(segs, Placeholders(names))
    requires i < |names| == |ms|
    requires forall j | 0 <= j < |ms| :: IsPlaceholderAt(value, ms[j]) && Name(value, ms[j]) == names[j]
    requires ApplyAll(value, ms[..i], props) == Interleave(segs, Tokens(names, KnownNames(names[..i], props), props))
    ensures ApplyAll(value, ms[..i + 1], props) == Interleave(segs, Tokens(names, KnownNames(names[..i + 1], props), props))
  {
    var n := names[i];
    var done := KnownNames(names[..i], props);
    ApplyAllStep(value, ms, i, props);
    StepByName(ApplyAll(value, ms[..i], props), value, ms[i], n, props);
    KnownNamesPrefix(names, i, props);
    if HasKey(props, n) {
      ReplaceInterleaved(segs, names, done, n, props);
    }
  }

  /** One step on the placeholder of name n replaces `${n}` when n is a property, and does nothing otherwise. */
  lemma StepByName(result: string, value: string, m: Placeholder, n: string, props: Properties)
    requires IsPlaceholderAt(value, m) && Name(value, m) == n
    ensures Step(result, value, m, props)
            == if HasKey(props, n) then ReplaceAll(result, PlaceholderText(n), PyStr(Lookup(props, n))) else result
  {
    TextOfPlaceholder(value, m);
  }

  /** After the loop has handled the first i matches, the result is the interleaving with their known names replaced. */
  lemma {:induction false} ApplyAllInterleaved(segs: seq<string>, names: seq<string>, props: Properties, value: string, ms: seq<Placeholder>, i: nat)
    requires InterleavedInput(segs, names, props) && value == Interleave(segs, Placeholders(names))
    requires i <= |names| == |ms|
    requires forall j | 0 <= j < |ms| :: IsPlaceholderAt(value, ms[j]) && Name(value, ms[j]) == names[j]
    ensures ApplyAll(value, ms[..i], props) == Interleave(segs, Tokens(names, KnownNames(names[..i], props), props))
  {
    if i == 0 {
      assert ms[..0] == [] && names[..0] == [];
      assert KnownNames(names[..0], props) == {};
      TokensNone(names, props);
    } else {
      ApplyAllInterleaved(segs, names, props, value, ms, i - 1);
      ApplyStepInterleaved(segs, names, props, value, ms, i - 1);
    }
  }

  lemma {:induction false} TokensNone(names: seq<string>, props: Properties)
    ensures Tokens(names, {}, props) == Placeholders(names)
  {
    if names != [] {
      TokensNone(names[1..], props);
    }
  }

  lemma {:induction false} TokensAll(names: seq<string>, done: set<string>, props: Properties)
    requires forall j | 0 <= j < |names| :: HasKey(props, names[j]) ==> names[j] in done
    ensures Tokens(names, done, props) == SubstituteAll(names, props)
  {
    if names != [] {
      TokensAll(names[1..], done, props);
    }
  }

  /**
   * resolve on literal text interleaved with any number of placeholders:
   * every placeholder whose name is a property is replaced by the property's
   * string form and every other one is left as it is. Names may repeat.
   */
  lemma ResolveInterleaved(segs: seq<string>, names: seq<string>, props: Properties)
    requires |segs| == |names| + 1
    requires forall j | 0 <= j < |segs| :: '$' !in segs[j]
    requires forall j | 0 <= j < |names| :: PropertyName(names[j])
    requires PlainReplacements(names, props)
    ensures ResolveSpec(Interleave(segs, Placeholders(names)), props) == Interleave(segs, SubstituteAll(names, props))
  {
    var value := Interleave(segs, Placeholders(names));
    ScanInterleaved(value, 0, segs, names);
    var ms := Matches(value, 0);
    ApplyAllInterleaved(segs, names, props, value, ms, |names|);
    assert ms[..|names|] == ms;
    assert names[..|names|] == names;
    TokensAll(names, KnownNames(names, props), props);
    EarlyReturnIsOptimisation(value, props);
  }
}
