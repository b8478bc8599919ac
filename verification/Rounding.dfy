/** Amounts as the code rounds them and as decimal columns keep them. */
module Rounding {
  const CENTS := 100.0
  const MILLIONTHS := 1_000_000.0
  const TEN_THOUSANDTHS := 10_000.0

  /** The multiple of 1/unit nearest to x, halves up, as the code rounds. */
  function Round(x: real, unit: real): real
    requires unit > 0.0
  {
    (x * unit + 0.5).Floor as real / unit
  }

  /** The same with halves away from zero, as a decimal column of that scale keeps x. */
  function Column(x: real, unit: real): real
    requires unit > 0.0
  {
    if x < 0.0 then -Round(-x, unit) else Round(x, unit)
  }

  lemma RoundIsNearest(x: real, unit: real)
    requires unit > 0.0
    ensures -0.5 < (Round(x, unit) - x) * unit <= 0.5
  {
    var y := x * unit + 0.5;
    assert y - 1.0 < y.Floor as real <= y;
    MulDiv(y.Floor as real, unit);
    assert (Round(x, unit) - x) * unit == y.Floor as real - x * unit;
  }

  /** A column keeps the nearest multiple, of two as near the one further from zero, and treats both signs alike. */
  lemma ColumnIsNearest(x: real, unit: real)
    requires unit > 0.0
    ensures Column(-x, unit) == -Column(x, unit)
    ensures x >= 0.0 ==> -0.5 < (Column(x, unit) - x) * unit <= 0.5
    ensures x <= 0.0 ==> -0.5 <= (Column(x, unit) - x) * unit < 0.5
  {
    RoundIsNearest(x, unit);
    RoundIsNearest(-x, unit);
    if x == 0.0 {
      assert x * unit == 0.0 && (0.5).Floor == 0;
    } else if x < 0.0 {
      assert (Column(x, unit) - x) * unit == -((Round(-x, unit) - -x) * unit);
    }
  }

  /** x is a multiple of 1/unit. */
  predicate Fits(x: real, unit: real)
    requires unit > 0.0
  {
    (x * unit).Floor as real == x * unit
  }

  lemma MulDiv(x: real, u: real)
    requires u != 0.0
    ensures x * u / u == x
    ensures x / u * u == x
  {
  }

  lemma FloorOfWhole(y: real)
    ensures y.Floor as real == y <==> (y + 0.5).Floor as real == y
  {
    if y.Floor as real == y {
      var k := y.Floor;
      assert k as real <= y + 0.5 < (k + 1) as real;
      assert (y + 0.5).Floor == k;
    }
  }

  lemma RoundFits(x: real, unit: real)
    requires unit > 0.0
    ensures Fits(x, unit) <==> Round(x, unit) == x
  {
    FloorOfWhole(x * unit);
    MulDiv(x, unit);
    MulDiv((x * unit + 0.5).Floor as real, unit);
  }

  lemma RoundIsNear(x: real)
    ensures -0.005 <= Round(x, CENTS) - x <= 0.005
  {
    var y := x * CENTS + 0.5;
    assert y - 1.0 < y.Floor as real <= y;
    MulDiv(y.Floor as real, CENTS);
  }

  lemma WholeFits(y: real, k: int)
    requires y == k as real
    ensures y.Floor as real == y
  {
  }

  lemma NegativeFits(x: real, unit: real)
    requires unit > 0.0
    ensures Fits(x, unit) <==> Fits(-x, unit)
  {
    var y := x * unit;
    assert -x * unit == -y;
    if y.Floor as real == y {
      WholeFits(-y, -y.Floor);
    }
    if (-y).Floor as real == -y {
      WholeFits(y, -(-y).Floor);
    }
  }

  /** A column keeps exactly the amounts of its scale. */
  lemma ColumnFits(x: real, unit: real)
    requires unit > 0.0
    ensures Fits(x, unit) <==> Column(x, unit) == x
  {
    RoundFits(x, unit);
    RoundFits(-x, unit);
    NegativeFits(x, unit);
  }

  lemma CentsFitMillionths(x: real)
    requires Fits(x, CENTS)
    ensures Fits(x, MILLIONTHS)
  {
    var cents := (x * 100.0).Floor;
    assert x * 1000000.0 == (x * 100.0) * 10000.0;
    WholeFits(x * 1000000.0, cents * 10000);
  }
}
