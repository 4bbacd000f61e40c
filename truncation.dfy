/**
 * The numeric truncation utility of the staff report: every score, sum and
 * percentage is cut (never rounded) to one decimal place, toward zero.
 */
module Truncation {

  /** `r` is a whole number of tenths. */
  predicate IsTenth(r: real) {
    (r * 10.0).Floor as real == r * 10.0
  }

  /**
   * `math.trunc(x * 10) / 10`: the multiple of 0.1 nearest to `x` on the side
   * of zero. The result is a whole number of tenths, has the sign of `x`
   * (or is zero), is no farther from zero than `x`, and is less than 0.1 away.
   */
  function Trunc1(x: real): (r: real)
    ensures IsTenth(r)
    ensures 0.0 <= x ==> 0.0 <= r <= x && x - r < 0.1
    ensures x <= 0.0 ==> x <= r <= 0.0 && r - x < 0.1
  {
    if x >= 0.0 then
      TenthsBelow(x);
      (x * 10.0).Floor as real / 10.0
    else
      TenthsBelow(-x);
      var t := (-x * 10.0).Floor as real / 10.0;
      TenthNegated(t);
      -t
  }

  /** The whole tenths in a non-negative `y`. */
  lemma TenthsBelow(y: real)
    requires 0.0 <= y
    ensures var t := (y * 10.0).Floor as real / 10.0;
      IsTenth(t) && 0.0 <= t <= y && y - t < 0.1
  {
    var k := (y * 10.0).Floor;
    assert k as real <= y * 10.0 < k as real + 1.0;
    assert (k as real / 10.0) * 10.0 == k as real;
  }

  lemma TenthNegated(t: real)
    requires IsTenth(t)
    ensures IsTenth(-t)
  {
    var k := (t * 10.0).Floor;
    assert (-t) * 10.0 == (-k) as real;
  }

  /** The three facts of Trunc1's contract determine its result. */
  lemma Trunc1Unique(x: real, q: real)
    requires IsTenth(q)
    requires 0.0 <= x ==> 0.0 <= q <= x && x - q < 0.1
    requires x <= 0.0 ==> x <= q <= 0.0 && q - x < 0.1
    ensures q == Trunc1(x)
  {
    var r := Trunc1(x);
    var k, j := (q * 10.0).Floor, (r * 10.0).Floor;
    assert k as real == q * 10.0 && j as real == r * 10.0;
    if 0.0 <= x {
      assert x * 10.0 - 1.0 < k as real <= x * 10.0;
      assert x * 10.0 - 1.0 < j as real <= x * 10.0;
    } else {
      assert x * 10.0 <= k as real < x * 10.0 + 1.0;
      assert x * 10.0 <= j as real < x * 10.0 + 1.0;
    }
    assert k == j;
  }

  /** A whole number of tenths is left as it is. */
  lemma Trunc1OfTenth(x: real)
    requires IsTenth(x)
    ensures Trunc1(x) == x
  {
    Trunc1Unique(x, x);
  }

  /** Truncating twice is truncating once. */
  lemma Trunc1Idempotent(x: real)
    ensures Trunc1(Trunc1(x)) == Trunc1(x)
  {
    Trunc1OfTenth(Trunc1(x));
  }

  /** Truncation toward zero is monotone. */
  lemma Trunc1Monotone(x: real, y: real)
    requires x <= y
    ensures Trunc1(x) <= Trunc1(y)
  {
    if 0.0 <= x {
      assert (x * 10.0).Floor <= (y * 10.0).Floor;
    } else if y < 0.0 {
      assert (-y * 10.0).Floor <= (-x * 10.0).Floor;
    }
  }

  /** Truncation is symmetric about zero, which is what sets it apart from floor. */
  lemma Trunc1Odd(x: real)
    ensures Trunc1(-x) == -Trunc1(x)
  {
    var r := Trunc1(x);
    var k := (r * 10.0).Floor;
    assert (-r) * 10.0 == (-k) as real;
    assert ((-k) as real).Floor == -k;
    Trunc1Unique(-x, -r);
  }

  /** The two worked examples: 12.37 becomes 12.3 and -12.37 becomes -12.3. */
  lemma Trunc1Examples()
    ensures Trunc1(12.37) == 12.3
    ensures Trunc1(-12.37) == -12.3
  {
    assert (12.37 * 10.0).Floor == 123;
  }

  /** What `float(x)` may be given: a number, or something it rejects. */
  datatype Numeric = Number(value: real) | NotANumber

  /**
   * The guarded form `_trunc1` takes: a value that cannot be converted to a
   * float, or whose truncation raises, yields 0.
   */
  function Trunc1Value(x: Numeric): (r: real)
    ensures x.NotANumber? ==> r == 0.0
    ensures x.Number? ==> r == Trunc1(x.value)
    ensures x.Number? ==> IsTenth(r) && (0.0 <= x.value ==> 0.0 <= r <= x.value)
    ensures x.Number? ==> (x.value <= 0.0 ==> x.value <= r <= 0.0)
  {
    match x
    case Number(v) => Trunc1(v)
    case NotANumber => 0.0
  }
}
