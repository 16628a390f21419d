/** Java-level building blocks shared by the model: nullable references,
    thrown exceptions, the fixed-width integer arithmetic of `short`, `int` and
    `long`, instants, and the few `String` operations the core relies on. */
module Java {

  /** A Java reference that may be `null`. */
  datatype Option<+T> = None | Some(value: T)

  /** The exceptions the modelled code can raise or let escape. */
  datatype Exception =
    | NullPointer
    | IllegalArgument(message: string)
    | Arithmetic(message: string)
    | Runtime(message: string)
    | NoSuchElement
      /** Spring Data's IncorrectResultSizeDataAccessException: a single-result query matched several rows. */
    | IncorrectResultSize(expected: nat, actual: nat)
      /** A row violating a NOT NULL column is rejected by the database on save. */
    | ConstraintViolation(column: string)

  /** The outcome of a Java call: a returned value or a thrown exception. */
  datatype Checked<+T> = Returns(value: T) | Throws(exception: Exception)

  // ---------------------------------------------------------------------------
  // Fixed-width two's-complement integers

  const SHORT_MIN: int := -0x8000
  const SHORT_MAX: int := 0x7FFF
  const INT_MIN: int := -0x8000_0000
  const INT_MAX: int := 0x7FFF_FFFF
  const LONG_MIN: int := -0x8000_0000_0000_0000
  const LONG_MAX: int := 0x7FFF_FFFF_FFFF_FFFF

  predicate InShort(x: int) { SHORT_MIN <= x <= SHORT_MAX }
  predicate InInt(x: int) { INT_MIN <= x <= INT_MAX }
  predicate InLong(x: int) { LONG_MIN <= x <= LONG_MAX }

  /** The values a field of Java type `short`, `int` or `long` can hold. */
  type Short = x: int | SHORT_MIN <= x <= SHORT_MAX
  type Int = x: int | INT_MIN <= x <= INT_MAX
  type Long = x: int | LONG_MIN <= x <= LONG_MAX

  /** The value a Java `short` holds after an assignment of `x` (for example `strike++`). */
  function WrapShort(x: int): (r: int)
    ensures InShort(r)
    ensures InShort(x) ==> r == x
    ensures (r - x) % 0x1_0000 == 0
  {
    (x - SHORT_MIN) % 0x1_0000 + SHORT_MIN
  }

  /** The result of `int` arithmetic, or of an `(int)` cast, whose exact value is `x`. */
  function WrapInt(x: int): (r: int)
    ensures InInt(r)
    ensures InInt(x) ==> r == x
    ensures (r - x) % 0x1_0000_0000 == 0
  {
    (x - INT_MIN) % 0x1_0000_0000 + INT_MIN
  }

  /** The result of `long` arithmetic whose exact value is `x`. Wrapping each
      intermediate product of a chain such as `d * 24L * 60L * 60L` leaves the
      same residue as wrapping the exact product once. */
  function WrapLong(x: int): (r: int)
    ensures InLong(r)
    ensures InLong(x) ==> r == x
    ensures (r - x) % 0x1_0000_0000_0000_0000 == 0
  {
    (x - LONG_MIN) % 0x1_0000_0000_0000_0000 + LONG_MIN
  }

  /** Java's `/` on integers, which truncates toward zero. */
  function JavaDiv(a: int, b: int): int
    requires b > 0
  {
    if a >= 0 then a / b else -((-a) / b)
  }

  /** `Math.multiplyExact(long, long)`. */
  function MultiplyExact(a: int, b: int): (r: Checked<int>)
    ensures r.Returns? <==> InLong(a * b)
    ensures r.Returns? ==> r.value == a * b
    ensures r.Throws? ==> r.exception == Arithmetic("long overflow")
  {
    if InLong(a * b) then Returns(a * b) else Throws(Arithmetic("long overflow"))
  }

  /** `Math.toIntExact(long)`. */
  function ToIntExact(x: int): (r: Checked<int>)
    ensures r.Returns? <==> InInt(x)
    ensures r.Returns? ==> r.value == x
    ensures r.Throws? ==> r.exception == Arithmetic("integer overflow")
  {
    if InInt(x) then Returns(x) else Throws(Arithmetic("integer overflow"))
  }

  // ---------------------------------------------------------------------------
  // Instants

  /** A `java.time.Instant`, in milliseconds since the epoch. `System.currentTimeMillis()`
      and `Date` use the same scale. */
  type Instant = int

  const MILLIS_PER_SECOND: int := 1000

  /** `Instant.plusSeconds`. */
  function PlusSeconds(t: Instant, seconds: int): Instant
  {
    t + seconds * MILLIS_PER_SECOND
  }

  // ---------------------------------------------------------------------------
  // Strings

  /** `Character.isWhitespace`: the Unicode space, line and paragraph separators
      other than the three no-break spaces, and nine control characters. */
  predicate IsWhitespace(c: char)
  {
    || c == ' ' || c == '\t' || c == '\n' || c == '\U{000B}' || c == '\U{000C}' || c == '\r'
    || ('\U{001C}' <= c <= '\U{001F}')
    || c == '\U{1680}'
    || ('\U{2000}' <= c <= '\U{2006}') || ('\U{2008}' <= c <= '\U{200A}')
    || c == '\U{2028}' || c == '\U{2029}' || c == '\U{205F}' || c == '\U{3000}'
  }

  /** `String.isBlank`: empty or white space only. */
  predicate IsBlank(s: string)
  {
    forall i :: 0 <= i < |s| ==> IsWhitespace(s[i])
  }

  function LowerChar(c: char): char
  {
    if 'A' <= c <= 'Z' then (c as int + 32) as char else c
  }

  /** `String.toLowerCase` on the ASCII letters. */
  function ToLowerCase(s: string): (r: string)
    ensures |r| == |s|
    ensures forall i :: 0 <= i < |s| ==> r[i] == LowerChar(s[i])
  {
    if s == [] then [] else [LowerChar(s[0])] + ToLowerCase(s[1..])
  }

  lemma {:induction false} ToLowerCaseIdempotent(s: string)
    ensures ToLowerCase(ToLowerCase(s)) == ToLowerCase(s)
  {
    if s != [] {
      ToLowerCaseIdempotent(s[1..]);
    }
  }

  /** The decimal digit `d`. */
  function DigitChar(d: nat): (c: char)
    requires d < 10
    ensures '0' <= c <= '9'
    ensures c as int - '0' as int == d
  {
    ('0' as int + d) as char
  }

  predicate IsDigits(s: string)
  {
    forall i :: 0 <= i < |s| ==> '0' <= s[i] <= '9'
  }

  /** `Long.toString` of a non-negative value: its decimal digits, most significant first. */
  function NatToString(n: nat): (s: string)
    ensures |s| >= 1 && IsDigits(s)
  {
    if n < 10 then [DigitChar(n)] else NatToString(n / 10) + [DigitChar(n % 10)]
  }

  /** `Long.toString` / `String.valueOf(long)` / `StringBuilder.append(int)`. */
  function LongToString(n: int): (s: string)
    ensures |s| >= 1
    ensures ':' !in s
  {
    if n < 0 then "-" + NatToString(-n) else NatToString(n)
  }

  /** The number a string of decimal digits denotes; it reads `NatToString` back. */
  function DigitsValue(s: string): nat
    requires IsDigits(s)
  {
    if s == [] then 0 else 10 * DigitsValue(s[..|s| - 1]) + (s[|s| - 1] as int - '0' as int)
  }

  lemma {:induction false} NatToStringRoundTrip(n: nat)
    ensures DigitsValue(NatToString(n)) == n
  {
    var s := NatToString(n);
    if n >= 10 {
      NatToStringRoundTrip(n / 10);
      assert s[..|s| - 1] == NatToString(n / 10);
    }
  }

  /** Decimal rendering is injective, so a rendered number can be read back. */
  lemma LongToStringInjective(a: int, b: int)
    requires LongToString(a) == LongToString(b)
    ensures a == b
  {
    var sa, sb := LongToString(a), LongToString(b);
    assert (a < 0) == (sa[0] == '-') && (b < 0) == (sb[0] == '-');
    if a < 0 && b < 0 {
      assert NatToString(-a) == sa[1..] == NatToString(-b);
      NatToStringRoundTrip(-a);
      NatToStringRoundTrip(-b);
    } else if a >= 0 && b >= 0 {
      NatToStringRoundTrip(a);
      NatToStringRoundTrip(b);
    }
  }
}
