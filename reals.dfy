/**
 * Facts about products of reals, used by the geometry of path flattening.
 * Squares are kept behind `Sq` so that the lemmas that combine these facts
 * reason linearly over them.
 */
module RealArith {

  function Sq(a: real): real
  {
    a * a
  }

  function Abs(r: real): real
  {
    if r < 0.0 then -r else r
  }

  lemma MulNonneg(a: real, b: real)
    requires 0.0 <= a && 0.0 <= b
    ensures 0.0 <= a * b
  {
  }

  lemma MulZero(a: real)
    ensures a * 0.0 == 0.0
  {
  }

  lemma SqOfZero(a: real)
    requires a == 0.0
    ensures Sq(a) == 0.0
  {
  }

  lemma MulPos(a: real, b: real)
    requires 0.0 < a && 0.0 < b
    ensures 0.0 < a * b
  {
  }

  /** Multiplying both sides by a non-negative factor keeps `<=`. */
  lemma MulLeft(c: real, a: real, b: real)
    requires 0.0 <= c && a <= b
    ensures c * a <= c * b
  {
    MulNonneg(c, b - a);
    assert c * (b - a) == c * b - c * a;
  }

  /** Multiplying both sides by a positive factor keeps `<`. */
  lemma MulLeftStrict(c: real, a: real, b: real)
    requires 0.0 < c && a < b
    ensures c * a < c * b
  {
    MulPos(c, b - a);
    assert c * (b - a) == c * b - c * a;
  }

  lemma SqMono(a: real, b: real)
    requires 0.0 <= a <= b
    ensures Sq(a) <= Sq(b)
  {
    MulLeft(a, a, b);
    MulLeft(b, a, b);
    assert b * a == a * b;
  }

  lemma SqMonoStrict(a: real, b: real)
    requires 0.0 <= a < b
    ensures Sq(a) < Sq(b)
  {
    MulPos(b - a, b + a);
    assert (b - a) * (b + a) == b * b - a * a;
  }

  /** Between non-negative reals, comparing squares compares the reals. */
  lemma SqLeImpliesLe(a: real, b: real)
    requires 0.0 <= a && 0.0 <= b && Sq(a) <= Sq(b)
    ensures a <= b
  {
    if b < a {
      SqMonoStrict(b, a);
    }
  }

  lemma SqNeg(a: real)
    ensures Sq(-a) == Sq(a)
  {
  }

  lemma SqAbs(a: real)
    ensures Sq(Abs(a)) == Sq(a)
  {
    SqNeg(a);
  }

  lemma SqNonneg(a: real)
    ensures 0.0 <= Sq(a)
  {
    SqMono(0.0, Abs(a));
    SqAbs(a);
  }

  lemma SqPos(a: real)
    requires a != 0.0
    ensures 0.0 < Sq(a)
  {
    SqMonoStrict(0.0, Abs(a));
    SqAbs(a);
  }

  lemma SqZero(a: real)
    requires Sq(a) == 0.0
    ensures a == 0.0
  {
    if a != 0.0 {
      SqPos(a);
    }
  }

  lemma SqProduct(a: real, b: real)
    ensures Sq(a * b) == Sq(a) * Sq(b)
  {
  }

  /** `(a + b)² <= 2a² + 2b²`, from `(a + b)² + (a - b)² == 2a² + 2b²`. */
  lemma SqSumBound(a: real, b: real)
    ensures Sq(a + b) <= 2.0 * Sq(a) + 2.0 * Sq(b)
  {
    assert Sq(a + b) + Sq(a - b) == 2.0 * Sq(a) + 2.0 * Sq(b);
    SqNonneg(a - b);
  }

  /** For `len > 0`: `q / len <= t` exactly when `q <= t * len`. */
  lemma DivLe(q: real, len: real, t: real)
    requires 0.0 < len
    ensures q / len <= t <==> q <= t * len
  {
    var f := q / len;
    assert f * len == q;
    if f <= t {
      assert f * len <= t * len;
    } else {
      assert t * len < f * len;
    }
  }

  lemma DivNonneg(q: real, len: real)
    requires 0.0 <= q && 0.0 < len
    ensures 0.0 <= q / len
  {
  }
}
