/**
 * The elapsed-time arithmetic of the stopwatch label: a long count of
 * milliseconds split into minutes, seconds and milliseconds for the
 * "mm:ss.SSS" display, with Java's truncating / and % and its (int) cast.
 */
module Stopwatch {
  import Text

  /** Java's integer division on long: the quotient is truncated toward zero. */
  function JavaDiv(a: int, b: int): (q: int)
    requires b > 0
    ensures 0 <= a ==> 0 <= q && q * b <= a < q * b + b
    ensures a < 0 ==> q <= 0 && q * b - b < a <= q * b
  {
    if a >= 0 then
      QuotientBounds(a, b);
      a / b
    else
      QuotientBounds(-a, b);
      NegatedProduct(-a / b, b);
      -(-a / b)
  }

  lemma QuotientBounds(n: nat, b: int)
    requires b > 0
    ensures 0 <= n / b && (n / b) * b <= n < (n / b) * b + b
  {
  }

  lemma NegatedProduct(d: int, b: int)
    ensures (-d) * b == -(d * b)
  {
  }

  /** Java's remainder on long: it takes the sign of the dividend. */
  function JavaRem(a: int, b: int): (r: int)
    requires b > 0
    ensures JavaDiv(a, b) * b + r == a
    ensures 0 <= a ==> 0 <= r < b
    ensures a < 0 ==> -b < r <= 0
  {
    a - JavaDiv(a, b) * b
  }

  /** The narrowing cast (int) of a long: keep the low 32 bits, two's complement. */
  function ToInt32(x: int): (y: int)
    ensures Text.IntMin <= y <= Text.IntMax
    ensures Text.IntMin <= x <= Text.IntMax ==> y == x
    ensures (x - y) % 0x1_0000_0000 == 0
  {
    (x - Text.IntMin) % 0x1_0000_0000 + Text.IntMin
  }

  datatype Elapsed = Elapsed(minutes: int, seconds: int, millis: int)

  /** The largest count whose minutes survive the (int) cast. */
  const MaxMillis: int := Text.IntMax * 60000 + 59999

  /** The three numbers the timer label shows for an elapsed count of milliseconds. */
  function Decompose(millis: int): (e: Elapsed)
    ensures Text.IntMin <= e.minutes <= Text.IntMax
    ensures -60 < e.seconds < 60 && -1000 < e.millis < 1000
  {
    Elapsed(ToInt32(JavaDiv(millis, 60000)),
            ToInt32(JavaRem(JavaDiv(millis, 1000), 60)),
            ToInt32(JavaRem(millis, 1000)))
  }

  /** The inverse of Decompose: a reading back in milliseconds. */
  function Compose(e: Elapsed): int {
    e.minutes * 60000 + e.seconds * 1000 + e.millis
  }

  /** A reading as the label shows it for a non-negative count. */
  predicate WellFormed(e: Elapsed) {
    0 <= e.minutes <= Text.IntMax && 0 <= e.seconds < 60 && 0 <= e.millis < 1000
  }

  lemma DivNested(m: nat)
    ensures m / 60000 == (m / 1000) / 60
    ensures m % 60000 == ((m / 1000) % 60) * 1000 + m % 1000
  {
    var q := m / 1000;
    assert m == q * 1000 + m % 1000;
    assert q == (q / 60) * 60 + q % 60;
    assert m == (q / 60) * 60000 + ((q % 60) * 1000 + m % 1000);
  }

  /** For a non-negative count the parts are in range and add back up to it. */
  lemma DecomposeNonNegative(millis: int)
    requires 0 <= millis <= MaxMillis
    ensures WellFormed(Decompose(millis))
    ensures Compose(Decompose(millis)) == millis
  {
    DivNested(millis);
  }

  /** For a negative count (a clock that went backwards) every part is at most zero,
      the seconds and milliseconds keep their magnitude bounds, and the parts still add up. */
  lemma DecomposeNegative(millis: int)
    requires -MaxMillis <= millis < 0
    ensures var e := Decompose(millis);
      -Text.IntMax <= e.minutes <= 0 && -60 < e.seconds <= 0 && -1000 < e.millis <= 0 &&
      Compose(e) == millis
  {
    DivNested(-millis);
  }

  /** Decompose is a left inverse of Compose on well-formed readings. */
  lemma DecomposeCompose(e: Elapsed)
    requires WellFormed(e)
    ensures Compose(e) <= MaxMillis
    ensures Decompose(Compose(e)) == e
  {
    var m := Compose(e);
    var t := e.minutes * 60 + e.seconds;
    assert m == t * 1000 + e.millis;
    assert m / 1000 == t;
    assert m % 1000 == e.millis;
    assert t / 60 == e.minutes && t % 60 == e.seconds;
    DivNested(m);
  }

  /** Lexicographic order on readings: the order in which a person reads minutes, then seconds, then milliseconds. */
  predicate Before(a: Elapsed, b: Elapsed) {
    a.minutes < b.minutes ||
    (a.minutes == b.minutes && (a.seconds < b.seconds ||
                                (a.seconds == b.seconds && a.millis < b.millis)))
  }

  /** A later clock reading never shows an earlier or equal time: the display strictly increases. */
  lemma DecomposeStrictlyMonotone(a: int, b: int)
    requires 0 <= a < b <= MaxMillis
    ensures Before(Decompose(a), Decompose(b))
  {
    DecomposeNonNegative(a);
    DecomposeNonNegative(b);
  }
}
