/**
 * The parts of Java's language semantics the models rely on: 32- and 64-bit
 * two's-complement arithmetic, the truncating `/` and `%`, String.trim,
 * Integer.toString and the shape of a thrown exception.
 */
module JavaLang {
  import opened Wrappers

  const INT_MIN: int := -0x8000_0000
  const INT_MAX: int := 0x7fff_ffff
  const LONG_MIN: int := -0x8000_0000_0000_0000
  const LONG_MAX: int := 0x7fff_ffff_ffff_ffff

  predicate IsInt(x: int) { INT_MIN <= x <= INT_MAX }
  predicate IsLong(x: int) { LONG_MIN <= x <= LONG_MAX }

  /** The `int` that Java arithmetic leaves when the exact result is x. */
  function WrapInt(x: int): (r: int)
    ensures IsInt(r)
    ensures (r - x) % 0x1_0000_0000 == 0
    ensures IsInt(x) ==> r == x
  {
    (x - INT_MIN) % 0x1_0000_0000 + INT_MIN
  }

  /** The `long` that Java arithmetic leaves when the exact result is x. */
  function WrapLong(x: int): (r: int)
    ensures IsLong(r)
    ensures (r - x) % 0x1_0000_0000_0000_0000 == 0
    ensures IsLong(x) ==> r == x
  {
    (x - LONG_MIN) % 0x1_0000_0000_0000_0000 + LONG_MIN
  }

  lemma LongModUnique(a: int, q: int, r: int)
    requires a == q * 0x1_0000_0000_0000_0000 + r && 0 <= r < 0x1_0000_0000_0000_0000
    ensures a % 0x1_0000_0000_0000_0000 == r
  {
  }

  /** Wrapping after each `long` addition ends where wrapping once at the end does. */
  lemma WrapLongAdd(x: int, b: int)
    ensures WrapLong(WrapLong(x) + b) == WrapLong(x + b)
  {
    var m := 0x1_0000_0000_0000_0000;
    var q, r := (x - LONG_MIN) / m, (x - LONG_MIN) % m;
    assert WrapLong(x) == x - q * m;
    var q', r' := (x + b - LONG_MIN) / m, (x + b - LONG_MIN) % m;
    assert WrapLong(x) + b - LONG_MIN == (q' - q) * m + r';
    LongModUnique(WrapLong(x) + b - LONG_MIN, q' - q, r');
  }

  function Abs(x: int): int { if x < 0 then -x else x }

  /** Euclidean division of naturals brackets the dividend between two multiples of the divisor. */
  lemma DivBounds(n: nat, d: nat)
    requires d > 0
    ensures 0 <= n / d && n / d * d <= n < n / d * d + d
  {
  }

  lemma AbsMul(x: int, y: int)
    ensures Abs(x * y) == Abs(x) * Abs(y)
  {
    if x < 0 && y < 0 {
      assert x * y == (-x) * (-y);
    } else if x < 0 {
      assert -(x * y) == (-x) * y;
    } else if y < 0 {
      assert -(x * y) == x * (-y);
    }
  }

  /** Java's `a / b`: the quotient rounded toward zero. */
  function JDiv(a: int, b: int): (q: int)
    requires b != 0
    ensures Abs(q * b) <= Abs(a) < Abs(q * b) + Abs(b)
    ensures (a < 0) == (b < 0) ==> q >= 0
    ensures (a < 0) != (b < 0) ==> q <= 0
    ensures a >= 0 && b > 0 ==> q == a / b
  {
    var m := Abs(a) / Abs(b);
    DivBounds(Abs(a), Abs(b));
    var q := if (a < 0) == (b < 0) then m else -m;
    AbsMul(q, b);
    q
  }

  lemma MulMono(x: nat, y: nat, d: nat)
    requires x <= y
    ensures x * d <= y * d
  {
  }

  /** Only one natural k brackets n between k * d and k * d + d. */
  lemma DivUnique(n: nat, d: nat, k: nat)
    requires d > 0 && k * d <= n < k * d + d
    ensures k == n / d
  {
    DivBounds(n, d);
    if k < n / d {
      MulMono(k + 1, n / d, d);
    } else if k > n / d {
      MulMono(n / d + 1, k, d);
    }
  }

  /**
   * The bounds and the sign in JDiv's contract determine the quotient: any q
   * meeting them is JDiv(a, b), so they state rounding toward zero in full.
   */
  lemma JDivUnique(a: int, b: int, q: int)
    requires b != 0
    requires Abs(q * b) <= Abs(a) < Abs(q * b) + Abs(b)
    requires (a < 0) == (b < 0) ==> q >= 0
    requires (a < 0) != (b < 0) ==> q <= 0
    ensures q == JDiv(a, b)
  {
    AbsMul(q, b);
    DivUnique(Abs(a), Abs(b), Abs(q));
    var r := JDiv(a, b);
    AbsMul(r, b);
    DivUnique(Abs(a), Abs(b), Abs(r));
  }

  /**
   * Java's `a % b` for a positive divisor: the remainder takes the sign of the
   * dividend, where Dafny's `%` is never negative.
   */
  function JRem(a: int, b: int): (r: int)
    requires b > 0
    ensures a >= 0 ==> r == a % b
    ensures a < 0 ==> -b < r <= 0 && (r == 0 || r == a % b - b)
    ensures r == 0 <==> a % b == 0
  {
    if a >= 0 || a % b == 0 then a % b else a % b - b
  }

  // ---------- Strings ----------

  /** A concatenation of three strings splits back into them. */
  lemma SplitThree(a: string, m: string, b: string)
    ensures var q := a + m + b;
      |q| == |a| + |m| + |b| && q[..|a|] == a && q[|a|..|q| - |b|] == m && q[|q| - |b|..] == b
  {
  }

  /** `String.valueOf(s)`, as `+` and `%s` render a possibly-null string. */
  function StringValueOf(s: Option<string>): (r: string)
    ensures s.Some? ==> r == s.value
    ensures s.None? ==> r == "null"
  {
    if s.Some? then s.value else "null"
  }

  /** String.trim drops every leading and trailing char at or below U+0020. */
  predicate IsTrimmed(c: char) { c <= ' ' }

  function TrimStart(s: string): (r: string)
    ensures |r| <= |s| && r == s[|s| - |r|..]
    ensures forall i | 0 <= i < |s| - |r| :: IsTrimmed(s[i])
    ensures r != [] ==> !IsTrimmed(r[0])
  {
    if s != [] && IsTrimmed(s[0]) then TrimStart(s[1..]) else s
  }

  function TrimEnd(s: string): (r: string)
    ensures |r| <= |s| && r == s[..|r|]
    ensures forall i | |r| <= i < |s| :: IsTrimmed(s[i])
    ensures r != [] ==> !IsTrimmed(r[|r| - 1])
  {
    if s != [] && IsTrimmed(s[|s| - 1]) then TrimEnd(s[..|s| - 1]) else s
  }

  /** String.trim(). */
  function Trim(s: string): string
  {
    TrimEnd(TrimStart(s))
  }

  /** `s.trim().isEmpty()`: s consists only of chars at or below U+0020. */
  lemma TrimEmptyIff(s: string)
    ensures Trim(s) == [] <==> forall i | 0 <= i < |s| :: IsTrimmed(s[i])
  {
  }

  // ---------- Integer.toString / String.valueOf(long) ----------

  predicate IsDigit(c: char) { '0' <= c <= '9' }

  predicate IsDigits(s: string) { forall i | 0 <= i < |s| :: IsDigit(s[i]) }

  function DigitChar(d: nat): (c: char)
    requires d < 10
    ensures IsDigit(c) && c as int - '0' as int == d
  {
    ('0' as int + d) as char
  }

  /** The decimal digits of n, without leading zeros. */
  function NatToString(n: nat): (s: string)
    ensures |s| >= 1 && IsDigits(s)
    ensures s[0] == '0' ==> n == 0
  {
    if n < 10 then [DigitChar(n)] else NatToString(n / 10) + [DigitChar(n % 10)]
  }

  /** Integer.toString / Long.toString: an optional minus sign, then the digits. */
  function IntToString(x: int): (s: string)
    ensures |s| >= 1
    ensures x < 0 ==> s[0] == '-'
    ensures x >= 0 <==> IsDigits(s)
  {
    if x < 0 then "-" + NatToString(-x) else NatToString(x)
  }

  /** The value of a string of decimal digits (Python's int() on such a string). */
  function DigitsValue(s: string): nat
    requires IsDigits(s)
  {
    if s == [] then 0 else 10 * DigitsValue(s[..|s| - 1]) + (s[|s| - 1] as int - '0' as int)
  }

  lemma {:induction false} NatToStringRoundTrip(n: nat)
    ensures DigitsValue(NatToString(n)) == n
  {
    var s := NatToString(n);
    if n >= 10 {
      NatToStringRoundTrip(n / 10);
      assert s[..|s| - 1] == NatToString(n / 10);
    }
  }

  /** Distinct naturals print differently. */
  lemma NatToStringInjective(a: nat, b: nat)
    requires NatToString(a) == NatToString(b)
    ensures a == b
  {
    NatToStringRoundTrip(a);
    NatToStringRoundTrip(b);
  }

  /** Distinct numbers print differently, so a printed number identifies its value. */
  lemma IntToStringInjective(x: int, y: int)
    requires IntToString(x) == IntToString(y)
    ensures x == y
  {
    var s := IntToString(x);
    if x < 0 && y < 0 {
      assert s[1..] == NatToString(-x) by {
        assert s == "-" + NatToString(-x);
      }
      assert s[1..] == NatToString(-y) by {
        assert s == "-" + NatToString(-y);
      }
      NatToStringInjective(-x, -y);
    } else if x >= 0 && y >= 0 {
      NatToStringInjective(x, y);
    }
  }

  // ---------- Throwables ----------

  /** Whether a throwable is a java.lang.Exception (caught by `catch (Exception e)`) or not (an Error). */
  datatype ThrowableKind = ExceptionKind | ErrorKind

  datatype Throwable = Throwable(kind: ThrowableKind, className: string, message: Option<string>, cause: Option<Throwable>)
  {
    predicate IsException() { kind == ExceptionKind }
  }

  function NullPointerException(message: Option<string>): Throwable
  {
    Throwable(ExceptionKind, "NullPointerException", message, None)
  }

  function IllegalArgumentException(message: string, cause: Option<Throwable>): Throwable
  {
    Throwable(ExceptionKind, "IllegalArgumentException", Some(message), cause)
  }

  function IllegalStateException(message: string): Throwable
  {
    Throwable(ExceptionKind, "IllegalStateException", Some(message), None)
  }

  /** `new RuntimeException(message, cause)`. */
  function RuntimeException(message: string, cause: Throwable): Throwable
  {
    Throwable(ExceptionKind, "RuntimeException", Some(message), Some(cause))
  }
}
