/** Amounts of money as exact reals, and the two roundings to cents the
    service relies on: Python's `round(x, 2)` and PostgreSQL's `NUMERIC(18, 2)`. */
module Money {

  function Abs(x: real): real { if x < 0.0 then -x else x }

  function Min(x: real, y: real): real { if x <= y then x else y }

  function Max(x: real, y: real): real { if x <= y then y else x }

  /** Round to the nearest integer, ties to the even one. */
  function RoundHalfEven(x: real): int {
    var f := x.Floor;
    var d := x - f as real;
    if d < 0.5 || (d == 0.5 && f % 2 == 0) then f else f + 1
  }

  /** `round(x, 2)` on exact amounts. */
  function Round2(x: real): real { RoundHalfEven(x * 100.0) as real / 100.0 }

  /** Round to the nearest integer, ties away from zero. */
  function RoundHalfAway(x: real): int {
    if x >= 0.0 then (x + 0.5).Floor else -((0.5 - x).Floor)
  }

  /** What a `NUMERIC(18, 2)` column keeps of a value. */
  function Numeric2(x: real): real { RoundHalfAway(x * 100.0) as real / 100.0 }

  predicate WholeCents(x: real) { x * 100.0 == (x * 100.0).Floor as real }

  /** Half-even rounding, characterised: the one integer nearer than a half, or
      the even one of the two at exactly a half. */
  lemma HalfEvenIs(x: real, k: int)
    ensures RoundHalfEven(x) == k <==>
            Abs(k as real - x) < 0.5 || (Abs(k as real - x) == 0.5 && k % 2 == 0)
  {
    var f := x.Floor;
    if k >= f + 2 { assert k as real >= f as real + 2.0; }
    else if k <= f - 1 { assert k as real <= f as real - 1.0; }
    else if k == f { }
    else { assert k as real == f as real + 1.0; }
  }

  lemma Round2Error(x: real)
    ensures Abs(Round2(x) - x) <= 0.005
    ensures WholeCents(Round2(x))
    ensures WholeCents(x) ==> Round2(x) == x
  {
    var k := RoundHalfEven(x * 100.0);
    HalfEvenIs(x * 100.0, k);
    CentsAreWhole(Round2(x), k);
    if WholeCents(x) { WholeIsFixed(x, (x * 100.0).Floor); }
  }

  /** `round(x, 2)` is the nearest whole cent, at a tie the even one. */
  lemma Round2Is(x: real, k: int)
    ensures Round2(x) == k as real / 100.0 <==>
            Abs(k as real - x * 100.0) < 0.5 || (Abs(k as real - x * 100.0) == 0.5 && k % 2 == 0)
  {
    HalfEvenIs(x * 100.0, k);
    SameCents(RoundHalfEven(x * 100.0), k);
  }

  lemma SameCents(j: int, k: int)
    ensures j as real / 100.0 == k as real / 100.0 <==> j == k
  {
  }

  /** A `NUMERIC(18, 2)` column keeps the nearest whole cent, at a tie the one
      further from zero. */
  lemma Numeric2Is(x: real, k: int)
    ensures Numeric2(x) == k as real / 100.0 <==>
            Abs(k as real - x * 100.0) < 0.5
            || (Abs(k as real - x * 100.0) == 0.5 && Abs(k as real) > Abs(x * 100.0))
  {
    HalfAwayIs(x * 100.0, k);
    SameCents(RoundHalfAway(x * 100.0), k);
  }

  lemma HalfAwayIs(y: real, k: int)
    ensures RoundHalfAway(y) == k <==>
            Abs(k as real - y) < 0.5 || (Abs(k as real - y) == 0.5 && Abs(k as real) > Abs(y))
  {
    var j := RoundHalfAway(y);
    if k >= j + 1 {
      assert k as real >= j as real + 1.0;
    } else if k <= j - 1 {
      assert k as real <= j as real - 1.0;
    }
  }

  lemma CentsAreWhole(y: real, k: int)
    requires y == k as real / 100.0
    ensures WholeCents(y)
  {
    assert y * 100.0 == k as real;
  }

  lemma WholeIsFixed(x: real, k: int)
    requires x * 100.0 == k as real
    ensures Round2(x) == x
  {
    HalfEvenIs(x * 100.0, k);
    assert RoundHalfEven(x * 100.0) == k;
  }

  /** `NUMERIC(18, 2)` is also a nearest-cent rounding; at a half cent it goes
      away from zero, and two amounts in whole cents never meet there. */
  lemma Numeric2Error(x: real)
    ensures Abs(Numeric2(x) - x) <= 0.005
    ensures WholeCents(Numeric2(x))
    ensures forall c :: WholeCents(c) && Abs(c - x) < 0.005 ==> c == Numeric2(x)
  {
    var k := RoundHalfAway(x * 100.0);
    assert Abs(k as real - x * 100.0) <= 0.5;
    assert Numeric2(x) * 100.0 == k as real;
    forall c | WholeCents(c) && Abs(c - x) < 0.005 ensures c == Numeric2(x) {
      var j := (c * 100.0).Floor;
      assert Abs(j as real - x * 100.0) < 0.5;
      assert Abs(j as real - k as real) < 1.0;
      assert j == k;
    }
  }

  lemma AddWholeCents(x: real, y: real)
    requires WholeCents(x) && WholeCents(y)
    ensures WholeCents(x + y)
  {
    var i, j := (x * 100.0).Floor, (y * 100.0).Floor;
    assert (x + y) * 100.0 == (i + j) as real;
  }

  lemma SubWholeCents(x: real, y: real)
    requires WholeCents(x) && WholeCents(y)
    ensures WholeCents(x - y)
  {
    var i, j := (x * 100.0).Floor, (y * 100.0).Floor;
    assert (x - y) * 100.0 == (i - j) as real;
  }
}
