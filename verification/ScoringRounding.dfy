/** Where rounding can add a point to a price, over all arithmetics the theorems cover. */
module ScoringRounding {
  import opened DynamicScoring

  // ---- exact arithmetic but for one number ------------------------------------------------------------------

  /** A little above a negative number, by less than half a unit in its last place. */
  function Up(q: real): real {
    q - q / 18014398509481984.0
  }

  function Nudged(q: real, x: real): real {
    if q <= x <= Up(q) then Up(q) else x
  }

  function Nudging(q: real): Arithmetic {
    Arithmetic(x => Nudged(q, x), false)
  }

  lemma NudgedGrows(q: real, x: real, y: real)
    requires x <= y
    ensures Nudged(q, x) <= Nudged(q, y)
  {
  }

  lemma NudgedIsNear(q: real, x: real)
    requires q < 0.0
    ensures IsNear(Nudged(q, x), x)
  {
  }

  lemma DividesEvenly(x: int, d: int)
    requires d > 0
    ensures (x * d) % d == 0
  {
    Divides(x, d);
  }

  /** No whole number lies between a fraction that is none and what it is nudged to. */
  lemma NoWholeBetween(range: int, d: int, m: int, q: real)
    requires 0 < range <= WHOLE && d >= 1 && range % d != 0 && q * Whole(d) == Whole(-range)
    ensures !(q <= Whole(m) < Up(q))
  {
    if q <= Whole(m) < Up(q) {
      WholeTimes(m, d);
      TimesGrows(q, Whole(m), Whole(d));
      UpTimes(q, Whole(d), Whole(-range));
      TimesGrows(Whole(m), Up(q), Whole(d));
      assert m * d == -range;
      assert (-m) * d == range;
      DividesEvenly(-m, d);
    }
  }

  lemma UpTimes(q: real, s: real, qs: real)
    requires qs == q * s
    ensures Up(q) * s == Up(qs)
  {
  }

  lemma NudgingIsFloat64(range: int, d: int, q: real)
    requires 0 < range <= WHOLE && d >= 1 && range % d != 0 && q * Whole(d) == Whole(-range) && q < 0.0
    ensures IsFloat64(Nudging(q))
  {
    hide Nudged, IsNear, Whole, Up;
    forall x, y | x <= y ensures Nudging(q).round(x) <= Nudging(q).round(y) {
      NudgedGrows(q, x, y);
    }
    forall n | -WHOLE <= n <= WHOLE ensures Nudging(q).round(Whole(n)) == Whole(n) {
      NoWholeBetween(range, d, n, q);
      NudgedWhole(q, n);
    }
    forall x ensures IsNear(Nudging(q).round(x), x) {
      NudgedIsNear(q, x);
    }
  }

  lemma NudgedWhole(q: real, n: int)
    requires !(q <= Whole(n) < Up(q))
    ensures Nudged(q, Whole(n)) == Whole(n)
  {
  }

  /** Multiplying the nudged quotient passes the nudge on. */
  lemma NudgedProduct(q: real, s: real, k: int)
    requires q < 0.0 && s >= 2.0 && q * s == Whole(-k)
    ensures Times(Up(q), s) == Up(Whole(-k)) && Nudged(q, Times(Up(q), s)) == Times(Up(q), s)
  {
    UpTimes(q, s, Whole(-k));
    ProductFalls(Up(q), 2.0, s);
    assert Up(q) * 2.0 < q;
  }

  /** And the sum is nudged above the whole number that is the exact price. */
  lemma NudgedSum(q: real, initial: int, k: int)
    requires 0 < k <= WHOLE && !(q <= Whole(initial - k + 1) < Up(q)) && q < 0.0
    ensures Whole(initial - k) < Nudged(q, Whole(initial) + Up(Whole(-k))) <= Whole(initial - k + 1)
  {
    var x := Whole(initial) + Up(Whole(-k));
    assert Whole(initial - k) < x <= Whole(initial - k + 1);
    NudgedGrows(q, x, Whole(initial - k + 1));
    NudgedWhole(q, initial - k + 1);
    assert x <= Nudged(q, x);
  }

  lemma NudgedParabola(initial: int, range: int, d: int, s: int, k: int, q: real)
    requires 0 < range <= WHOLE && d >= 1 && range % d != 0 && q * Whole(d) == Whole(-range) && q < 0.0
    requires s >= 2 && q * Whole(s) == Whole(-k) && 0 < k <= WHOLE
    ensures Ceil(Parabola(Nudging(q), Whole(initial), Nudging(q).round(q), Whole(s))) == initial - k + 1
  {
    NudgedProduct(q, Whole(s), k);
    NoWholeBetween(range, d, initial - k + 1, q);
    NudgedSum(q, initial, k);
    assert Nudging(q).round(q) == Up(q);
    var v := Parabola(Nudging(q), Whole(initial), Nudging(q).round(q), Whole(s));
    assert v == Nudged(q, Whole(initial) + Up(Whole(-k)));
    hide Nudged, Up, Times, Parabola;
    CeilIs(v, initial - k + 1);
  }

  /** The quotient of the parabola, and its product with the squared solves, in whole numbers. */
  lemma QuotientTimes(range: int, d: int, s: int, q: real)
    requires d >= 1 && range > 0 && q == Over(Whole(-range), Whole(d)) && (range * s) % d == 0
    ensures q * Whole(d) == Whole(-range) && q < 0.0 && q * Whole(s) == Whole(-((range * s) / d))
  {
    var k := (range * s) / d;
    assert q * Whole(d) == Whole(-range);
    assert range * s == k * d;
    SameProduct(q, range, d, s, k);
  }

  lemma SameProduct(q: real, range: int, d: int, s: int, k: int)
    requires d >= 1 && q * Whole(d) == Whole(-range) && range * s == k * d
    ensures q * Whole(s) == Whole(-k)
  {
    var x := q * Whole(s) - Whole(-k);
    calc {
      x * Whole(d);
      (q * Whole(s)) * Whole(d) - Whole(-k) * Whole(d);
      { WholeTimes(-k, d); }
      (q * Whole(d)) * Whole(s) - Whole(-k * d);
      { WholeTimes(-range, s); }
      Whole(-range * s) - Whole(-k * d);
      0.0;
    }
    if x > 0.0 {
      TimesGrows(0.0, x, Whole(d));
    }
  }

  lemma PointOneMore(initial: int, range: int, d: int, s: int, q: real)
    requires 0 < range <= WHOLE && d >= 1 && range % d != 0 && q == Over(Whole(-range), Whole(d))
    requires 2 <= s <= d && (range * s) % d == 0
    ensures IsFloat64(Nudging(q))
    ensures Ceil(Parabola(Nudging(q), Whole(initial), Nudging(q).round(q), Whole(s))) == initial - (range * s) / d + 1
  {
    hide IsFloat64, Over, Whole, Parabola, Ceil, Nudging;
    var k := (range * s) / d;
    QuotientTimes(range, d, s, q);
    PartIsLess(range, s, d, k);
    NudgingIsFloat64(range, d, q);
    NudgedParabola(initial, range, d, s, k, q);
  }

  lemma PartIsLess(range: int, s: int, d: int, k: int)
    requires 0 < range && 1 <= s <= d && range * s == k * d
    ensures 0 < k <= range
  {
    IntTimesGrows(range, 1, s);
    IntTimesGrows(range, s, d);
    if k <= 0 {
      IntTimesGrows(d, k, 0);
    } else if k > range {
      IntTimesGrows(d, range + 1, k);
    }
  }

  lemma SecondSolveIsNotWhole(range: nat, decay: int, n: int)
    requires decay >= 1 && 0 < n < decay && IsWhole(range, decay, n) && range % Squared(decay) != 0
    ensures n >= 2 && 2 <= Squared(n) <= Squared(decay) && range > 0 && (range * Squared(n)) % Squared(decay) == 0
  {
    SquareIsPositive(decay);
    if n == 1 {
      assert false;
    } else {
      IntSquaresGrow(2, n);
      IntSquaresGrow(n, decay);
    }
  }

  /** Where the exact price is whole although the quotient is not, some arithmetic makes it a point more. */
  lemma RoundingCanAddAPoint(initial: int, minScore: int, decay: int, solves: int) returns (a: Arithmetic)
    requires IsModest(initial, minScore, decay) && minScore <= initial && 2 <= solves <= decay
    requires IsWhole(initial - minScore, decay, solves - 1) && (initial - minScore) % Squared(decay) != 0
    ensures IsFloat64(a)
    ensures CalculateDynamicScore(a, initial, minScore, decay, solves) == initial - Drop(initial - minScore, decay, solves - 1) + 1
  {
    hide IsFloat64, IsModest, Value, Over, Whole, Parabola, Ceil, Squared, Drop, IsWhole, Nudging;
    var range, n, d := initial - minScore, solves - 1, Squared(decay);
    SecondSolveIsNotWhole(range, decay, n);
    ModestIsWhole(initial, minScore, decay, n);
    DropIs(range, decay, n);
    DropBounds(range, decay, n);
    var q := Over(Whole(-range), Whole(d));
    a := Nudging(q);
    PointOneMore(initial, range, d, Squared(n), q);
    ModestValue(a, initial, minScore, decay, n);
  }

  /** The price is the integer form in every arithmetic the theorems cover exactly when the exact price is not
      whole, or it is the first solve's, or the squared decay divides the range. */
  lemma IntegerFormIff(initial: int, minScore: int, decay: int, solves: int)
    requires IsModest(initial, minScore, decay) && minScore <= initial && 1 <= solves <= decay
    ensures
      (forall a: Arithmetic :: IsFloat64(a) ==>
        CalculateDynamicScore(a, initial, minScore, decay, solves) == initial - Drop(initial - minScore, decay, solves - 1))
      <==> !IsWhole(initial - minScore, decay, solves - 1) || solves == 1 || (initial - minScore) % Squared(decay) == 0
  {
    hide IsFloat64, IsModest, CalculateDynamicScore, Squared, Drop, IsWhole;
    var range := initial - minScore;
    SquareIsPositive(decay);
    if !IsWhole(range, decay, solves - 1) || solves == 1 || range % Squared(decay) == 0 {
      forall a: Arithmetic | IsFloat64(a)
        ensures CalculateDynamicScore(a, initial, minScore, decay, solves) == initial - Drop(range, decay, solves - 1)
      {
        if !IsWhole(range, decay, solves - 1) {
          ScoreInIntegers(a, initial, minScore, decay, solves);
        } else if solves == 1 {
          FirstPriceIsInitial(a, initial, minScore, decay);
        } else {
          WholeQuotientIsExact(a, initial, minScore, decay, solves);
        }
      }
    } else {
      var a := RoundingCanAddAPoint(initial, minScore, decay, solves);
    }
  }

  lemma FirstPriceIsInitial(a: Arithmetic, initial: int, minScore: int, decay: int)
    requires IsFloat64(a) && IsModest(initial, minScore, decay) && minScore <= initial
    ensures CalculateDynamicScore(a, initial, minScore, decay, 1) == initial - Drop(initial - minScore, decay, 0)
  {
    hide IsFloat64, CalculateDynamicScore;
    ModestIsWhole(initial, minScore, decay, 0);
    PriceFalls(a, initial, minScore, decay, 1, 1);
    DropIs(initial - minScore, decay, 0);
    assert (initial - minScore) * Squared(0) == 0;
  }

  // ---- at ordinary values -----------------------------------------------------------------------------------

  /** Rounding does add a point at ordinary values. A challenge falling from 500 to 100 points over 35 solves
      is worth 244 at the 29th by the exact formula; with the float64 nearest to -400 / 1225 and then the one
      nearest to 784 times that, the sum is above 244, and the price 245. */
  lemma RoundingAddsAPoint(a: Arithmetic)
    requires !a.fused && IsFloat64(a)
    requires a.round(Over(Whole(-400), Whole(1225))) == -5882252574524729.0 / 18014398509481984.0
    requires a.round(Times(-5882252574524729.0 / 18014398509481984.0, Whole(784))) == -9007199254740991.0 / 35184372088832.0
    requires a.round(Whole(500) + -9007199254740991.0 / 35184372088832.0) == 8584986789675009.0 / 35184372088832.0
    ensures 500 - Drop(400, 35, 28) == 244 && CalculateDynamicScore(a, 500, 100, 35, 29) == 245
  {
    ModestValue(a, 500, 100, 35, 28);
    hide IsFloat64, Value;
    assert Squared(35) == 1225 && Squared(28) == 784;
    var v := Value(a, 500, 100, 35, 28);
    assert v == 8584986789675009.0 / 35184372088832.0;
    assert Whole(244) < v < Whole(245);
    CeilIs(v, 245);
  }

  /** Exact arithmetic but for the two results that are rounded there. */
  function Snapped(x: real): real {
    if -400.0 / 1225.0 <= x <= -5882252574524729.0 / 18014398509481984.0 then -5882252574524729.0 / 18014398509481984.0
    else if -4611686018427387536.0 / 18014398509481984.0 <= x <= -9007199254740991.0 / 35184372088832.0 then -9007199254740991.0 / 35184372088832.0
    else x
  }

  function Snapping(): Arithmetic {
    Arithmetic(x => Snapped(x), false)
  }

  lemma SnappedGrows(x: real, y: real)
    requires x <= y
    ensures Snapped(x) <= Snapped(y)
  {
  }

  lemma SnappedWhole(n: int)
    ensures Snapped(Whole(n)) == Whole(n)
  {
    if -256 < n < 0 {
      assert -255.0 <= Whole(n) <= -1.0;
    }
  }

  lemma SnappedIsNear(x: real)
    ensures IsNear(Snapped(x), x)
  {
  }

  lemma SnappingIsFloat64()
    ensures IsFloat64(Snapping())
  {
    hide Snapped, IsNear, Whole;
    forall x, y | x <= y ensures Snapping().round(x) <= Snapping().round(y) {
      SnappedGrows(x, y);
    }
    forall n | -WHOLE <= n <= WHOLE ensures Snapping().round(Whole(n)) == Whole(n) {
      SnappedWhole(n);
    }
    forall x ensures IsNear(Snapping().round(x), x) {
      SnappedIsNear(x);
    }
  }

  lemma SnappedSteps()
    ensures Snapped(Over(Whole(-400), Whole(1225))) == -5882252574524729.0 / 18014398509481984.0
    ensures Snapped(Times(-5882252574524729.0 / 18014398509481984.0, Whole(784))) == -9007199254740991.0 / 35184372088832.0
    ensures Snapped(Whole(500) + -9007199254740991.0 / 35184372088832.0) == 8584986789675009.0 / 35184372088832.0
  {
    assert Over(Whole(-400), Whole(1225)) == -400.0 / 1225.0;
    assert Times(-5882252574524729.0 / 18014398509481984.0, Whole(784)) == -4611686018427387536.0 / 18014398509481984.0;
    assert Whole(500) + -9007199254740991.0 / 35184372088832.0 == 8584986789675009.0 / 35184372088832.0;
  }

  /** There is such arithmetic, so the point can be added. */
  lemma RoundingExists()
    ensures IsFloat64(Snapping()) && CalculateDynamicScore(Snapping(), 500, 100, 35, 29) == 245
  {
    SnappingIsFloat64();
    SnappedSteps();
    hide IsFloat64, Snapped, CalculateDynamicScore, Over, Times, Whole, Drop;
    RoundingAddsAPoint(Snapping());
  }
}
