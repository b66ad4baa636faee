/**
 * The message types of the FizzBuzz websocket: five enum constants, each with
 * a wire value and a description, and the two listings built over `values()`.
 */
module MessageTypes {
  import opened Wrappers
  import opened JavaLang

  datatype MessageType = Fizz | Buzz | FizzBuzz | Number | Welcome
  {
    /** `getValue()`: the value sent on the wire. */
    function Value(): string
    {
      match this
      case Fizz => "fizz"
      case Buzz => "buzz"
      case FizzBuzz => "fizzbuzz"
      case Number => "number"
      case Welcome => "welcome"
    }

    /** `getDescription()`. */
    function Description(): string
    {
      match this
      case Fizz => "Numbers divisible by 3"
      case Buzz => "Numbers divisible by 5"
      case FizzBuzz => "Numbers divisible by both 3 and 5"
      case Number => "All other numbers"
      case Welcome => "Welcome messages"
    }
  }

  /** `toString()` is overridden to give the wire value, not the constant's name. */
  function ToString(t: MessageType): (s: string)
    ensures s == t.Value() && s in GetAllValues()
  {
    t.Value()
  }

  /** `values()`: the constants in declaration order. */
  const AllTypes: seq<MessageType> := [Fizz, Buzz, FizzBuzz, Number, Welcome]

  /** `values()` lists every constant exactly once. */
  lemma AllTypesComplete(t: MessageType)
    ensures t in AllTypes
    ensures forall i, j | 0 <= i < j < |AllTypes| :: AllTypes[i] != AllTypes[j]
  {
  }

  /** Distinct constants have distinct wire values. */
  lemma ValueInjective(s: MessageType, t: MessageType)
    requires s.Value() == t.Value()
    ensures s == t
  {
    // The values differ in their first char, except "fizz" and "fizzbuzz", which differ in length.
    assert s.Value()[0] == t.Value()[0];
  }

  /** `stream.map(MessageType::getValue).toList()` over a list of constants. */
  function Values(ts: seq<MessageType>): (vs: seq<string>)
    ensures |vs| == |ts|
    ensures forall i | 0 <= i < |ts| :: vs[i] == ts[i].Value()
  {
    if ts == [] then [] else Values(ts[..|ts| - 1]) + [ts[|ts| - 1].Value()]
  }

  /** `getAllValues()`. */
  function GetAllValues(): (vs: seq<string>)
    ensures vs == ["fizz", "buzz", "fizzbuzz", "number", "welcome"]
  {
    Values(AllTypes)
  }

  /** The message `Collectors.toMap` throws on a repeated key (Java 9 and later). */
  function DuplicateKeyMessage(key: string, first: string, second: string): string
  {
    "Duplicate key " + key + " (attempted merging values " + first + " and " + second + ")"
  }

  /** Whether a list of keys is free of repeats. */
  predicate Distinct<K(==)>(keys: seq<K>)
  {
    forall i, j | 0 <= i < j < |keys| :: keys[i] != keys[j]
  }

  /** A list is repeat-free when its front is and its last key is new. */
  lemma DistinctSnoc<K>(keys: seq<K>)
    requires keys != []
    ensures var n := |keys| - 1;
      Distinct(keys) <==> Distinct(keys[..n]) && keys[n] !in keys[..n]
  {
    var n := |keys| - 1;
    assert forall i | 0 <= i < n :: keys[..n][i] == keys[i];
    if keys[n] in keys[..n] {
      var i :| 0 <= i < n && keys[..n][i] == keys[n];
      assert keys[i] == keys[n];
    }
  }

  /** A list's members are its front's members and its last element. */
  lemma SnocMembers<K>(keys: seq<K>)
    requires keys != []
    ensures forall k :: k in keys <==> k in keys[..|keys| - 1] || k == keys[|keys| - 1]
  {
    assert keys == keys[..|keys| - 1] + [keys[|keys| - 1]];
  }

  /** The collision `Collectors.toMap` reports: the key and the two values it would merge. */
  datatype Collision<K, V> = Collision(key: K, first: V, second: V)

  /**
   * `Collectors.toMap` over a stream of (key, value) pairs: entries are added
   * in stream order and the first repeated key stops the collection.
   */
  function ToMap<K(==,!new), V>(keys: seq<K>, vals: seq<V>): (r: Result<map<K, V>, Collision<K, V>>)
    requires |keys| == |vals|
    ensures r.Ok? <==> Distinct(keys)
    ensures r.Ok? ==> forall k :: k in r.value <==> k in keys
    ensures r.Err? ==> r.error.key in keys
  {
    if keys == [] then Ok(map[])
    else
      var n := |keys| - 1;
      DistinctSnoc(keys);
      match ToMap(keys[..n], vals[..n])
      case Err(c) => Err(c)
      case Ok(m) =>
        SnocMembers(keys);
        if keys[n] in m then Err(Collision(keys[n], m[keys[n]], vals[n]))
        else Ok(m[keys[n] := vals[n]])
  }

  /** Without a repeated key, the last pair is added to the map of the others. */
  lemma ToMapSnoc<K(!new), V>(keys: seq<K>, vals: seq<V>)
    requires |keys| == |vals| && keys != [] && Distinct(keys)
    ensures var n := |keys| - 1;
      ToMap(keys[..n], vals[..n]).Ok? && ToMap(keys, vals).Ok?
      && keys[n] !in ToMap(keys[..n], vals[..n]).value
      && ToMap(keys, vals).value == ToMap(keys[..n], vals[..n]).value[keys[n] := vals[n]]
  {
    DistinctSnoc(keys);
  }

  /** Without a repeated key the map holds exactly the pairs, one entry per key. */
  lemma {:induction false} ToMapContents<K(!new), V>(keys: seq<K>, vals: seq<V>)
    requires |keys| == |vals| && Distinct(keys)
    ensures ToMap(keys, vals).Ok?
    ensures var m := ToMap(keys, vals).value;
      |m| == |keys| && (forall k :: k in m <==> k in keys) && forall i | 0 <= i < |keys| :: m[keys[i]] == vals[i]
  {
    if keys != [] {
      var n := |keys| - 1;
      ToMapSnoc(keys, vals);
      assert Distinct(keys[..n]) by {
        DistinctSnoc(keys);
      }
      ToMapContents(keys[..n], vals[..n]);
      SnocMembers(keys);
      forall i | 0 <= i < n ensures keys[i] == keys[..n][i] && vals[i] == vals[..n][i] {
      }
    }
  }

  /** The IllegalStateException `Collectors.toMap` throws for a collision. */
  function CollisionException(c: Collision<string, string>): Throwable
  {
    IllegalStateException(DuplicateKeyMessage(c.key, c.first, c.second))
  }

  /** `stream.map(MessageType::getDescription)` over a list of constants. */
  function Descriptions(ts: seq<MessageType>): (ds: seq<string>)
    ensures |ds| == |ts|
    ensures forall i | 0 <= i < |ts| :: ds[i] == ts[i].Description()
  {
    if ts == [] then [] else Descriptions(ts[..|ts| - 1]) + [ts[|ts| - 1].Description()]
  }

  /** No two constants share a wire value. */
  lemma AllValuesDistinct()
    ensures Distinct(Values(AllTypes))
  {
    var vs := Values(AllTypes);
    forall i, j | 0 <= i < j < |vs| ensures vs[i] != vs[j] {
      if vs[i] == vs[j] {
        ValueInjective(AllTypes[i], AllTypes[j]);
      }
    }
  }

  /** `ordinal()`: the position of a constant in `values()`. */
  lemma Ordinal(t: MessageType) returns (i: nat)
    ensures i < |AllTypes| && AllTypes[i] == t
  {
    i := match t
      case Fizz => 0
      case Buzz => 1
      case FizzBuzz => 2
      case Number => 3
      case Welcome => 4;
  }

  /** `getAllWithDescriptions()`: one entry per constant, value to description; no key repeats. */
  function GetAllWithDescriptions(): (r: Result<map<string, string>, Throwable>)
    ensures r.Ok? && |r.value| == |AllTypes|
    ensures forall t: MessageType :: t.Value() in r.value && r.value[t.Value()] == t.Description()
  {
    var vs, ds := Values(AllTypes), Descriptions(AllTypes);
    AllValuesDistinct();
    var r := ToMap(vs, ds);
    ToMapContents(vs, ds);
    forall t: MessageType ensures t.Value() in r.value && r.value[t.Value()] == t.Description() {
      var i := Ordinal(t);
      assert vs[i] == t.Value() && ds[i] == t.Description();
    }
    match r
    case Ok(m) => Ok(m)
    case Err(c) => Err(CollisionException(c))
  }
}
