/**
 * The product service of the Elasticsearch example: the defaults filled in
 * before a product is saved, and the JSON query strings handed to the search
 * engine by the full-text and the advanced search.
 *
 * A `BigDecimal` price is carried as its `toString()` text, which is what
 * `String.format("%s", …)` inserts; the repository and the search call are
 * outside the model, so the searches return the query string they would send.
 */
module ProductService {
  import opened Wrappers
  import opened JavaLang

  /** The field values of a product document, a null field being `None`. */
  datatype ProductRecord = ProductRecord(
    id: Option<string>,
    name: Option<string>,
    description: Option<string>,
    category: Option<string>,
    price: Option<string>,
    stockQuantity: Option<int>,
    brand: Option<string>,
    createdAt: Option<string>,
    active: Option<bool>)

  /** The mutable product entity. */
  class Product {
    var id: Option<string>
    var name: Option<string>
    var description: Option<string>
    var category: Option<string>
    var price: Option<string>
    var stockQuantity: Option<int>
    var brand: Option<string>
    var createdAt: Option<string>
    var active: Option<bool>

    /** The no-argument constructor: every field is null. */
    constructor ()
      ensures Record() == ProductRecord(None, None, None, None, None, None, None, None, None)
    {
      id, name, description, category := None, None, None, None;
      price, stockQuantity, brand, createdAt, active := None, None, None, None, None;
    }

    function Record(): ProductRecord
      reads this
    {
      ProductRecord(id, name, description, category, price, stockQuantity, brand, createdAt, active)
    }
  }

  /**
   * The defaults `saveProduct` fills in: the creation time when it is null and
   * `active = true` when it is null; no other field is touched.
   */
  function WithDefaults(p: ProductRecord, now: string): (r: ProductRecord)
    ensures r.createdAt.Some? && r.active.Some?
    ensures p.createdAt.Some? ==> r.createdAt == p.createdAt
    ensures p.active.Some? ==> r.active == p.active
    ensures p.createdAt.None? ==> r.createdAt == Some(now)
    ensures p.active.None? ==> r.active == Some(true)
    ensures r.(createdAt := p.createdAt, active := p.active) == p
  {
    p.(createdAt := if p.createdAt.None? then Some(now) else p.createdAt,
       active := if p.active.None? then Some(true) else p.active)
  }

  /** Saving again, at any later time, changes nothing more. */
  lemma WithDefaultsIdempotent(p: ProductRecord, now: string, later: string)
    ensures WithDefaults(WithDefaults(p, now), later) == WithDefaults(p, now)
  {
  }

  /** An explicit `active = false` survives the defaulting. */
  lemma WithDefaultsKeepsInactive(p: ProductRecord, now: string)
    requires p.active == Some(false)
    ensures WithDefaults(p, now).active == Some(false)
  {
  }

  /**
   * `saveProduct`: fill in the defaults in place, then hand the product to the
   * repository, which returns it. `now` is `LocalDateTime.now().toString()`.
   */
  method SaveProduct(product: Product, now: string) returns (saved: Product)
    modifies product
    ensures saved == product
    ensures product.Record() == WithDefaults(old(product.Record()), now)
  {
    if product.createdAt.None? {
      product.createdAt := Some(now);
    }
    if product.active.None? {
      product.active := Some(true);
    }
    saved := product;
  }

  // ---------- fullTextSearch ----------

  const MultiMatchHead: string := "{\n  \"multi_match\": {\n    \"query\": \""
  const MultiMatchTail: string :=
    "\",\n    \"fields\": [\"name^2.0\", \"description^1.0\", \"category^1.5\", \"brand^1.5\"]\n  }\n}\n"

  /** The `fullTextSearch` query: the text block with the query inserted verbatim. */
  function FullTextQuery(query: Option<string>): (r: string)
    ensures |r| == |MultiMatchHead| + |StringValueOf(query)| + |MultiMatchTail|
    ensures r[|MultiMatchHead|..|r| - |MultiMatchTail|] == StringValueOf(query)
  {
    MultiMatchHead + StringValueOf(query) + MultiMatchTail
  }

  /** Distinct query texts give distinct search strings. */
  lemma FullTextQueryInjective(a: string, b: string)
    requires FullTextQuery(Some(a)) == FullTextQuery(Some(b))
    ensures a == b
  {
    var ra, rb := FullTextQuery(Some(a)), FullTextQuery(Some(b));
    assert a == ra[|MultiMatchHead|..|ra| - |MultiMatchTail|];
  }

  /** A null query cannot be told apart from the query text "null". */
  lemma FullTextQueryNull()
    ensures FullTextQuery(None) == FullTextQuery(Some("null"))
  {
  }

  // ---------- advancedSearch ----------

  const BoolHead: string := "{ \"bool\": { \"must\": ["
  const BoolTail: string := "] } }"
  const Separator: string := ", "

  /** The clauses `advancedSearch` can emit, one per text block. */
  datatype Clause =
    | Wildcard(name: string)
    | Term(category: string)
    | RangeBetween(gte: string, lte: string)
    | RangeFrom(gte: string)
    | RangeTo(lte: string)

  /** The position of a clause kind in the query: name, then category, then price. */
  function Rank(c: Clause): nat
  {
    match c
    case Wildcard(_) => 0
    case Term(_) => 1
    case _ => 2
  }

  // The five text blocks, each stripped of its common indentation and ending
  // with the newline before the closing quotes; `Body` is what lies between
  // the opening brace and the closing "}\n", split around the arguments.
  const WildcardHead: string := "\n  \"wildcard\": {\n    \"name\": {\n      \"value\": \"*"
  const WildcardTail: string := "*\"\n    }\n  }\n"
  const TermHead: string := "\n  \"term\": {\n    \"category\": \""
  const TermTail: string := "\"\n  }\n"
  const RangeGte: string := "\n  \"range\": {\n    \"price\": {\n      \"gte\": "
  const RangeLte: string := "\n  \"range\": {\n    \"price\": {\n      \"lte\": "
  const RangeMid: string := ",\n      \"lte\": "
  const RangeTail: string := "\n    }\n  }\n"

  function Body(c: Clause): string
  {
    match c
    case Wildcard(n) => WildcardHead + n + WildcardTail
    case Term(t) => TermHead + t + TermTail
    case RangeBetween(lo, hi) => RangeGte + lo + RangeMid + hi + RangeTail
    case RangeFrom(lo) => RangeGte + lo + RangeTail
    case RangeTo(hi) => RangeLte + hi + RangeTail
  }

  /** The text block of a clause, with its argument inserted verbatim. */
  function Render(c: Clause): (r: string)
    ensures |r| >= 2
  {
    "{" + Body(c) + "}\n"
  }

  /** Every block opens with "{" and closes with "}\n". */
  lemma RenderBraces(c: Clause)
    ensures Render(c)[0] == '{' && Render(c)[|Render(c)| - 2..] == "}\n"
  {
    var b := Body(c);
    assert Render(c) == "{" + b + "}\n";
  }

  /**
   * `s != null && !s.trim().isEmpty()`: some char of `s` is above U+0020, so
   * trimming leaves something.
   */
  predicate NonBlank(s: Option<string>)
  {
    s.Some? && exists i | 0 <= i < |s.value| :: !IsTrimmed(s.value[i])
  }

  lemma NonBlankIff(s: Option<string>)
    ensures NonBlank(s) <==> s.Some? && Trim(s.value) != ""
  {
    if s.Some? {
      TrimEmptyIff(s.value);
    }
  }

  /** The test `s != null && !s.trim().isEmpty()` as the source evaluates it. */
  method IsNonBlank(s: Option<string>) returns (b: bool)
    ensures b == NonBlank(s)
  {
    NonBlankIff(s);
    b := s.Some? && Trim(s.value) != "";
  }

  /** The price clause: one range with both bounds, a one-sided range, or none. */
  function PriceClauses(minPrice: Option<string>, maxPrice: Option<string>): (cs: seq<Clause>)
    ensures |cs| <= 1
    ensures cs == [] <==> minPrice.None? && maxPrice.None?
    ensures minPrice.Some? && maxPrice.Some? ==> cs == [RangeBetween(minPrice.value, maxPrice.value)]
    ensures minPrice.Some? && maxPrice.None? ==> cs == [RangeFrom(minPrice.value)]
    ensures minPrice.None? && maxPrice.Some? ==> cs == [RangeTo(maxPrice.value)]
  {
    if minPrice.Some? && maxPrice.Some? then [RangeBetween(minPrice.value, maxPrice.value)]
    else if minPrice.Some? then [RangeFrom(minPrice.value)]
    else if maxPrice.Some? then [RangeTo(maxPrice.value)]
    else []
  }

  /** The name clause, present when the name is non-blank; the name goes in untrimmed. */
  function NameClauses(name: Option<string>): seq<Clause>
  {
    if NonBlank(name) then [Wildcard(name.value)] else []
  }

  /** The category clause, present when the category is non-blank. */
  function CategoryClauses(category: Option<string>): seq<Clause>
  {
    if NonBlank(category) then [Term(category.value)] else []
  }

  /** The clauses of an advanced search, in the order they are appended. */
  function Clauses(name: Option<string>, category: Option<string>,
                   minPrice: Option<string>, maxPrice: Option<string>): (cs: seq<Clause>)
  {
    NameClauses(name) + CategoryClauses(category) + PriceClauses(minPrice, maxPrice)
  }

  /** The rendered clauses with ", " between neighbours. */
  function JoinClauses(cs: seq<Clause>): (r: string)
    ensures cs == [] <==> r == ""
  {
    if cs == [] then ""
    else if |cs| == 1 then Render(cs[0])
    else JoinClauses(cs[..|cs| - 1]) + Separator + Render(cs[|cs| - 1])
  }

  /** The joined list begins with the first block and ends with the last. */
  lemma {:induction false} JoinClausesEnds(cs: seq<Clause>)
    requires cs != []
    ensures var r, first, last := JoinClauses(cs), Render(cs[0]), Render(cs[|cs| - 1]);
      |r| >= |first| && |r| >= |last| && r[..|first|] == first && r[|r| - |last|..] == last
  {
    if |cs| > 1 {
      var init := cs[..|cs| - 1];
      JoinClausesEnds(init);
      var j := JoinClauses(init);
      assert JoinClauses(cs) == j + Separator + Render(cs[|cs| - 1]);
      assert init[0] == cs[0];
    }
  }

  lemma JoinClausesBraces(cs: seq<Clause>)
    requires cs != []
    ensures var m := JoinClauses(cs); |m| >= 2 && m[0] == '{' && m[|m| - 2..] == "}\n"
  {
    var m := JoinClauses(cs);
    var first, last := Render(cs[0]), Render(cs[|cs| - 1]);
    JoinClausesEnds(cs);
    RenderBraces(cs[0]);
    RenderBraces(cs[|cs| - 1]);
    assert m[0] == first[0];
    assert m[|m| - 2..] == last[|last| - 2..];
  }

  lemma JoinClausesSnoc(cs: seq<Clause>, c: Clause)
    ensures JoinClauses(cs + [c]) == if cs == [] then Render(c) else JoinClauses(cs) + Separator + Render(c)
  {
    assert (cs + [c])[..|cs|] == cs;
  }

  /** The must list: the rendered clauses of a search. */
  function MustList(name: Option<string>, category: Option<string>,
                    minPrice: Option<string>, maxPrice: Option<string>): string
  {
    JoinClauses(Clauses(name, category, minPrice, maxPrice))
  }

  /** The whole `advancedSearch` query string. */
  function AdvancedQuery(name: Option<string>, category: Option<string>,
                         minPrice: Option<string>, maxPrice: Option<string>): string
  {
    BoolHead + MustList(name, category, minPrice, maxPrice) + BoolTail
  }

  lemma ConcatAssoc(a: string, b: string, c: string, d: string)
    ensures a + b + c + d == a + (b + c + d)
  {
  }

  lemma AppendNothing(cs: seq<Clause>, more: seq<Clause>)
    requires more == []
    ensures cs + more == cs
  {
  }

  /**
   * One `if (cond) { … }` block of `advancedSearch`: a separator when a clause
   * was already appended, then the clause's text block.
   */
  method AppendClause(builder: string, hasConditions: bool, c: Clause, ghost appended: seq<Clause>)
    returns (builder': string, hasConditions': bool)
    requires builder == BoolHead + JoinClauses(appended) && hasConditions == (appended != [])
    ensures builder' == BoolHead + JoinClauses(appended + [c]) && hasConditions'
  {
    builder' := builder;
    if hasConditions {
      builder' := builder' + Separator;
    }
    builder' := builder' + Render(c);
    hasConditions' := true;
    JoinClausesSnoc(appended, c);
    if hasConditions {
      ConcatAssoc(BoolHead, JoinClauses(appended), Separator, Render(c));
    } else {
      assert builder == BoolHead;
    }
  }

  /**
   * `advancedSearch`: append the head, then each clause whose condition holds,
   * preceded by ", " once an earlier clause was appended, then the tail.
   */
  method AdvancedSearch(name: Option<string>, category: Option<string>,
                        minPrice: Option<string>, maxPrice: Option<string>) returns (query: string)
    ensures query == AdvancedQuery(name, category, minPrice, maxPrice)
  {
    var builder := BoolHead;
    var hasConditions := false;

    var nameGiven := IsNonBlank(name);
    if nameGiven {
      builder, hasConditions := AppendClause(builder, hasConditions, Wildcard(name.value), []);
    }
    ghost var appended := NameClauses(name);
    assert builder == BoolHead + JoinClauses(appended) && hasConditions == (appended != []);

    var categoryGiven := IsNonBlank(category);
    if categoryGiven {
      builder, hasConditions := AppendClause(builder, hasConditions, Term(category.value), appended);
    }
    appended := appended + CategoryClauses(category);
    assert builder == BoolHead + JoinClauses(appended) && hasConditions == (appended != []);

    ghost var before := appended;
    appended := appended + PriceClauses(minPrice, maxPrice);
    if minPrice.Some? && maxPrice.Some? {
      builder, hasConditions := AppendClause(builder, hasConditions, RangeBetween(minPrice.value, maxPrice.value), before);
    } else if minPrice.Some? {
      builder, hasConditions := AppendClause(builder, hasConditions, RangeFrom(minPrice.value), before);
    } else if maxPrice.Some? {
      builder, hasConditions := AppendClause(builder, hasConditions, RangeTo(maxPrice.value), before);
    } else {
      AppendNothing(before, PriceClauses(minPrice, maxPrice));
    }
    assert builder == BoolHead + JoinClauses(appended);

    query := builder + BoolTail;
  }

  /** The query is the bool/must head, the must list and the tail, in that order. */
  lemma AdvancedQueryFrame(name: Option<string>, category: Option<string>,
                           minPrice: Option<string>, maxPrice: Option<string>)
    ensures var q, m := AdvancedQuery(name, category, minPrice, maxPrice), MustList(name, category, minPrice, maxPrice);
      |q| == |BoolHead| + |m| + |BoolTail| && q[..|BoolHead|] == BoolHead
      && q[|BoolHead|..|q| - |BoolTail|] == m && q[|q| - |BoolTail|..] == BoolTail
  {
    SplitThree(BoolHead, MustList(name, category, minPrice, maxPrice), BoolTail);
  }

  /** With no condition the must list is empty; with any condition it is not. */
  lemma MustListEmpty(name: Option<string>, category: Option<string>,
                      minPrice: Option<string>, maxPrice: Option<string>)
    ensures MustList(name, category, minPrice, maxPrice) == ""
            <==> !NonBlank(name) && !NonBlank(category) && minPrice.None? && maxPrice.None?
  {
  }

  /**
   * The must list never starts with a separator and never ends with one: it
   * opens with the first clause's brace and closes with the last clause's.
   */
  lemma MustListSeparators(name: Option<string>, category: Option<string>,
                           minPrice: Option<string>, maxPrice: Option<string>)
    requires Clauses(name, category, minPrice, maxPrice) != []
    ensures var m := MustList(name, category, minPrice, maxPrice);
      |m| >= 2 && m[0] == '{' && m[|m| - 2..] == "}\n"
  {
    JoinClausesBraces(Clauses(name, category, minPrice, maxPrice));
  }

  /**
   * The name clause is present exactly when the name is non-blank, and it
   * carries the name as given, untrimmed; likewise the category clause.
   */
  lemma ClausePresence(name: Option<string>, category: Option<string>,
                       minPrice: Option<string>, maxPrice: Option<string>)
    ensures var cs := Clauses(name, category, minPrice, maxPrice);
      && ((exists i | 0 <= i < |cs| :: cs[i].Wildcard?) <==> NonBlank(name))
      && ((exists i | 0 <= i < |cs| :: cs[i].Term?) <==> NonBlank(category))
      && (forall i | 0 <= i < |cs| && cs[i].Wildcard? :: cs[i].name == name.value)
      && (forall i | 0 <= i < |cs| && cs[i].Term? :: cs[i].category == category.value)
  {
    var cs := Clauses(name, category, minPrice, maxPrice);
    if NonBlank(name) {
      assert cs[0].Wildcard?;
    }
    if NonBlank(category) {
      var k := if NonBlank(name) then 1 else 0;
      assert cs[k].Term?;
    }
  }

  /** There is a price clause exactly when a bound is given, and never two. */
  lemma PricePresence(name: Option<string>, category: Option<string>,
                      minPrice: Option<string>, maxPrice: Option<string>)
    ensures var cs := Clauses(name, category, minPrice, maxPrice);
      && ((exists i | 0 <= i < |cs| :: Rank(cs[i]) == 2) <==> minPrice.Some? || maxPrice.Some?)
      && (forall i, j | 0 <= i < j < |cs| :: Rank(cs[i]) != 2 || Rank(cs[j]) != 2)
  {
    var cs := Clauses(name, category, minPrice, maxPrice);
    if minPrice.Some? || maxPrice.Some? {
      assert Rank(cs[|cs| - 1]) == 2;
    }
  }

  /** Clauses appear strictly in the order name, category, price. */
  lemma ClauseOrder(name: Option<string>, category: Option<string>,
                    minPrice: Option<string>, maxPrice: Option<string>)
    ensures var cs := Clauses(name, category, minPrice, maxPrice);
      forall i, j | 0 <= i < j < |cs| :: Rank(cs[i]) < Rank(cs[j])
  {
  }

  /** A search by name alone is exactly the head, the wildcard block and the tail. */
  lemma AdvancedQueryNameOnly(name: string)
    requires NonBlank(Some(name))
    ensures MustList(Some(name), None, None, None) == "{" + WildcardHead + name + WildcardTail + "}\n"
  {
  }

  /** Name and both bounds: two clauses joined by one separator. */
  lemma AdvancedQueryNameAndRange(name: string, lo: string, hi: string)
    requires NonBlank(Some(name))
    ensures MustList(Some(name), None, Some(lo), Some(hi))
            == Render(Wildcard(name)) + Separator + Render(RangeBetween(lo, hi))
  {
    var cs := Clauses(Some(name), None, Some(lo), Some(hi));
    assert cs == [Wildcard(name), RangeBetween(lo, hi)];
    assert cs[..1] == [Wildcard(name)];
    assert JoinClauses(cs) == JoinClauses(cs[..1]) + Separator + Render(cs[1]);
  }
}
