/** backend/internal/usecase/competition/scoring.go: what a challenge is worth after a number of solves,
    in floating-point arithmetic of which only this is used: rounding is monotone, leaves small whole
    numbers alone, and is off by half a unit in the last place at most. */
module DynamicScoring {

  // ---- float64 --------------------------------------------------------------------------------------------

  /** Up to here every whole number is a float64. */
  const WHOLE: int := 0x20_0000_0000_0000

  /** `round` is the rounding of a result; `fused` says whether x + y * z is rounded once, as the compiler
      may do on some machines, or twice. */
  datatype Arithmetic = Arithmetic(round: real -> real, fused: bool)

  /** float64(n), before it is rounded. */
  function Whole(n: int): real {
    n as real
  }

  function Abs(x: real): real {
    if x < 0.0 then -x else x
  }

  /** Off by at most 2^-53 of the value, half a unit in the last place, or by what underflow loses. */
  predicate IsNear(y: real, x: real) {
    9007199254740992.0 * Abs(y - x) <= Abs(x) + 0.0000000000000001
  }

  ghost predicate IsMonotone(a: Arithmetic) {
    forall x, y :: x <= y ==> a.round(x) <= a.round(y)
  }

  ghost predicate KeepsWholes(a: Arithmetic) {
    forall n :: -WHOLE <= n <= WHOLE ==> a.round(Whole(n)) == Whole(n)
  }

  ghost predicate IsClose(a: Arithmetic) {
    forall x :: IsNear(a.round(x), x)
  }

  /** True of round-to-nearest. */
  ghost predicate IsFloat64(a: Arithmetic) {
    IsMonotone(a) && KeepsWholes(a) && IsClose(a)
  }

  lemma RoundGrows(a: Arithmetic, x: real, y: real)
    requires IsMonotone(a) && x <= y
    ensures a.round(x) <= a.round(y)
  {
  }

  lemma RoundKeeps(a: Arithmetic, n: int)
    requires KeepsWholes(a) && -WHOLE <= n <= WHOLE
    ensures a.round(Whole(n)) == Whole(n)
  {
  }

  lemma RoundIsClose(a: Arithmetic, x: real)
    requires IsClose(a)
    ensures IsNear(a.round(x), x)
  {
  }

  // ---- the price ------------------------------------------------------------------------------------------

  function Ceil(x: real): int {
    -((-x).Floor)
  }

  function Square(x: real): real {
    x * x
  }

  function Times(x: real, y: real): real {
    x * y
  }

  /** Division; the divisor here is never zero. */
  function Over(x: real, y: real): real {
    if y == 0.0 then 0.0 else x / y
  }

  function Quotient(a: Arithmetic, initial: int, minScore: int, decay: int): real {
    var d := a.round(Whole(decay));
    a.round(Over(a.round(a.round(Whole(minScore)) - a.round(Whole(initial))), a.round(Square(d))))
  }

  /** The parabola, `n` solves after the first, with every operation rounded. */
  function Value(a: Arithmetic, initial: int, minScore: int, decay: int, n: int): real {
    var i, q, s := a.round(Whole(initial)), Quotient(a, initial, minScore, decay), a.round(Whole(n));
    Parabola(a, i, q, a.round(Square(s)))
  }

  function Parabola(a: Arithmetic, i: real, q: real, squares: real): real {
    if a.fused then a.round(i + Times(q, squares)) else a.round(i + a.round(Times(q, squares)))
  }

  function CalculateDynamicScore(a: Arithmetic, initial: int, minScore: int, decay: int, solves: int): int {
    if solves <= 0 then initial
    else
      var span := if decay == 0 then 1 else decay;
      if solves > span then minScore
      else
        var score := Ceil(Value(a, initial, minScore, span, solves - 1));
        if score < minScore then minScore else score
  }

  lemma DivisorIsPositive(a: Arithmetic, decay: int)
    requires IsFloat64(a) && decay >= 1
    ensures a.round(Square(a.round(Whole(decay)))) >= 1.0
  {
    hide IsMonotone, KeepsWholes, IsClose;
    var d := a.round(Whole(decay));
    RoundKeeps(a, 1);
    RoundGrows(a, Whole(1), Whole(decay));
    SquaresGrow(1.0, d);
    assert Whole(1) == 1.0 && Square(d) >= 1.0;
    RoundGrows(a, Whole(1), Square(d));
    assert a.round(Square(d)) >= 1.0;
  }

  // ---- prices fall, however rounding goes -----------------------------------------------------------------

  lemma QuotientIsNotPositive(a: Arithmetic, initial: int, minScore: int, decay: int)
    requires IsFloat64(a) && minScore <= initial && decay >= 1
    ensures Quotient(a, initial, minScore, decay) <= 0.0
  {
    hide IsMonotone, KeepsWholes, IsClose;
    DivisorIsPositive(a, decay);
    var i, m, d := a.round(Whole(initial)), a.round(Whole(minScore)), a.round(Whole(decay));
    RoundKeeps(a, 0);
    RoundGrows(a, Whole(minScore), Whole(initial));
    assert Whole(0) == 0.0;
    RoundGrows(a, m - i, Whole(0));
    assert a.round(Square(d)) >= 1.0;
    NotPositive(a.round(m - i), a.round(Square(d)));
    RoundGrows(a, Over(a.round(m - i), a.round(Square(d))), Whole(0));
    assert a.round(Over(a.round(m - i), a.round(Square(d)))) <= 0.0;
  }

  lemma NotPositive(x: real, y: real)
    requires x <= 0.0 && y > 0.0
    ensures Over(x, y) <= 0.0
  {
  }

  lemma ProductFalls(q: real, x: real, y: real)
    requires q <= 0.0 && x <= y
    ensures q * y <= q * x
  {
  }

  lemma SquaresGrow(x: real, y: real)
    requires 0.0 <= x <= y
    ensures Square(x) <= Square(y)
  {
  }

  lemma ParabolaFalls(a: Arithmetic, i: real, q: real, x: real, y: real)
    requires IsMonotone(a) && q <= 0.0 && x <= y
    ensures Parabola(a, i, q, y) <= Parabola(a, i, q, x)
  {
    hide IsMonotone;
    ProductFalls(q, x, y);
    RoundGrows(a, Times(q, y), Times(q, x));
    RoundGrows(a, i + a.round(Times(q, y)), i + a.round(Times(q, x)));
    RoundGrows(a, i + Times(q, y), i + Times(q, x));
  }

  lemma ValueFalls(a: Arithmetic, initial: int, minScore: int, decay: int, n: int, later: int)
    requires IsFloat64(a) && minScore <= initial && decay >= 1 && 0 <= n <= later
    ensures Value(a, initial, minScore, decay, later) <= Value(a, initial, minScore, decay, n)
  {
    hide IsMonotone, KeepsWholes, IsClose, Quotient, Parabola;
    QuotientIsNotPositive(a, initial, minScore, decay);
    var s, t := a.round(Whole(n)), a.round(Whole(later));
    RoundKeeps(a, 0);
    RoundGrows(a, Whole(0), Whole(n));
    RoundGrows(a, Whole(n), Whole(later));
    SquaresGrow(s, t);
    RoundGrows(a, Square(s), Square(t));
    assert Value(a, initial, minScore, decay, n) == Parabola(a, a.round(Whole(initial)), Quotient(a, initial, minScore, decay), a.round(Square(s)));
    assert Value(a, initial, minScore, decay, later) == Parabola(a, a.round(Whole(initial)), Quotient(a, initial, minScore, decay), a.round(Square(t)));
    ParabolaFalls(a, a.round(Whole(initial)), Quotient(a, initial, minScore, decay), a.round(Square(s)), a.round(Square(t)));
  }

  lemma FirstValueIsInitial(a: Arithmetic, initial: int, minScore: int, decay: int)
    requires IsFloat64(a) && -WHOLE <= initial <= WHOLE
    ensures Value(a, initial, minScore, decay, 0) == Whole(initial)
  {
    hide IsMonotone, KeepsWholes, IsClose, Quotient;
    RoundKeeps(a, 0);
    RoundKeeps(a, initial);
    var z, q := a.round(Whole(0)), Quotient(a, initial, minScore, decay);
    assert z == Whole(0) == 0.0;
    assert Square(z) == Whole(0) && a.round(Square(z)) == z;
    assert Times(q, z) == Whole(0) && a.round(Times(q, z)) == z;
    assert Whole(initial) + z == Whole(initial);
    assert Value(a, initial, minScore, decay, 0) == Parabola(a, Whole(initial), q, z);
  }

  lemma CeilGrows(x: real, y: real)
    requires x <= y
    ensures Ceil(x) <= Ceil(y)
  {
  }

  /** A price stays between the minimum and the initial value, never rises from one solve to the next, starts
      at the initial value and is the minimum above `decay` solves, however the operations round (the comment
      in the source says from `decay` solves on). */
  lemma PriceFalls(a: Arithmetic, initial: int, minScore: int, decay: int, solves: int, later: int)
    requires IsFloat64(a) && minScore <= initial && decay > 0 && solves <= later && -WHOLE <= initial <= WHOLE
    ensures minScore <= CalculateDynamicScore(a, initial, minScore, decay, solves) <= initial
    ensures CalculateDynamicScore(a, initial, minScore, decay, later) <= CalculateDynamicScore(a, initial, minScore, decay, solves)
    ensures CalculateDynamicScore(a, initial, minScore, decay, 1) == initial
    ensures solves > decay ==> CalculateDynamicScore(a, initial, minScore, decay, solves) == minScore
  {
    hide IsFloat64, Value;
    FirstValueIsInitial(a, initial, minScore, decay);
    assert Ceil(Whole(initial)) == initial;
    if 1 <= solves <= decay {
      ValueFalls(a, initial, minScore, decay, 0, solves - 1);
      CeilGrows(Value(a, initial, minScore, decay, solves - 1), Whole(initial));
      if later <= decay {
        ValueFalls(a, initial, minScore, decay, solves - 1, later - 1);
        CeilGrows(Value(a, initial, minScore, decay, later - 1), Value(a, initial, minScore, decay, solves - 1));
      }
    } else if solves <= 0 && 1 <= later <= decay {
      ValueFalls(a, initial, minScore, decay, 0, later - 1);
      CeilGrows(Value(a, initial, minScore, decay, later - 1), Whole(initial));
    }
    hide Ceil;
  }

  /** A decay of zero counts as one, so only the first solve is worth more than the minimum; below zero none is. */
  lemma NoDecayIs(a: Arithmetic, initial: int, minScore: int, decay: int, solves: int)
    requires IsFloat64(a) && minScore <= initial && decay <= 0 && -WHOLE <= initial <= WHOLE
    ensures solves <= 0 ==> CalculateDynamicScore(a, initial, minScore, decay, solves) == initial
    ensures solves > 1 || (solves == 1 && decay < 0) ==> CalculateDynamicScore(a, initial, minScore, decay, solves) == minScore
    ensures CalculateDynamicScore(a, initial, minScore, 0, 1) == initial
  {
    hide IsFloat64, Value;
    FirstValueIsInitial(a, initial, minScore, 1);
    assert Ceil(Whole(initial)) == initial;
  }

  // ---- how far rounding takes a price -----------------------------------------------------------------------

  function Squared(n: int): int {
    n * n
  }

  function Magnitude(n: int): nat {
    if n < 0 then -n else n
  }

  function Weight(initial: int, minScore: int): nat {
    Magnitude(initial) + 3 * Magnitude(minScore - initial) + 8
  }

  /** The values are small enough for the error to stay below the distance between two possible prices. A
      challenge of 10 000 points may decay over 470 000 solves. */
  predicate IsModest(initial: int, minScore: int, decay: int) {
    decay >= 1 && Weight(initial, minScore) * Squared(decay) < WHOLE
  }

  /** The parabola without any rounding. */
  function Exact(initial: int, minScore: int, decay: int, n: int): real
    requires decay >= 1
  {
    Whole(initial) + Share(minScore - initial, decay, n)
  }

  function Share(range: int, decay: int, n: int): real
    requires decay >= 1
  {
    SquareIsPositive(decay);
    Whole(range * Squared(n)) / Whole(Squared(decay))
  }

  lemma SquareIsPositive(decay: int)
    requires decay >= 1
    ensures Squared(decay) >= 1 && Whole(Squared(decay)) >= 1.0 && Squared(decay) >= decay
  {
  }

  lemma AbsOfProduct(x: real, s: real, p: real)
    requires s >= 0.0 && p == x * s
    ensures Abs(p) == Abs(x) * s
  {
    if x < 0.0 {
      assert -x * s == -(x * s);
      TimesGrows(0.0, -x, s);
    } else {
      TimesGrows(0.0, x, s);
    }
  }

  lemma TimesGrows(x: real, y: real, s: real)
    requires x <= y && s >= 0.0
    ensures x * s <= y * s
  {
  }

  lemma ScaledBound(e: real, f: real, s: real, es: real, fs: real)
    requires 9007199254740992.0 * e <= f + 0.0000000000000001 && s >= 0.0 && es == e * s && fs == f * s
    ensures 9007199254740992.0 * es <= fs + 0.0000000000000001 * s
  {
    var slack := f + 0.0000000000000001 - 9007199254740992.0 * e;
    TimesGrows(0.0, slack, s);
    assert slack * s == f * s + 0.0000000000000001 * s - 9007199254740992.0 * (e * s);
  }

  lemma ProductError(q: real, r: real, s: real, m: real)
    requires IsNear(q, r) && 0.0 <= s <= 9007199254740992.0 && Abs(Times(r, s)) <= m
    ensures 9007199254740992.0 * Abs(Times(q, s) - Times(r, s)) <= m + 1.0
  {
    var x := q - r;
    assert x * s == q * s - r * s;
    AbsOfProduct(x, s, Times(q, s) - Times(r, s));
    AbsOfProduct(r, s, Times(r, s));
    ScaledBound(Abs(x), Abs(r), s, Abs(Times(q, s) - Times(r, s)), Abs(Times(r, s)));
    hide Abs;
  }

  /** Rounding a product that is off, and then a sum with i. */
  lemma SumError(a: Arithmetic, i: real, product: real, t: real, m: real)
    requires IsClose(a) && 0.0 <= m <= 9007199254740992.0 && Abs(t) <= m
    requires 9007199254740992.0 * Abs(product - t) <= m + 1.0
    ensures
      var v := if a.fused then a.round(i + product) else a.round(i + a.round(product));
      9007199254740992.0 * Abs(v - (i + t)) <= Abs(i) + 3.0 * m + 8.0
  {
    hide IsClose, IsNear, Abs;
    if a.fused {
      RoundIsClose(a, i + product);
      TwoErrors(a.round(i + product), i, product, t, m, m + 1.0);
    } else {
      var p := a.round(product);
      RoundIsClose(a, product);
      RoundIsClose(a, i + p);
      OneError(p, product, t, m);
      TwoErrors(a.round(i + p), i, p, t, m, 2.0 * m + 4.0);
    }
  }

  lemma OneError(p: real, product: real, t: real, m: real)
    requires IsNear(p, product) && 0.0 <= m <= 9007199254740992.0 && Abs(t) <= m
    requires 9007199254740992.0 * Abs(product - t) <= m + 1.0
    ensures 9007199254740992.0 * Abs(p - t) <= 2.0 * m + 4.0
  {
  }

  lemma TwoErrors(v: real, i: real, p: real, t: real, m: real, e: real)
    requires IsNear(v, i + p) && 0.0 <= m <= 9007199254740992.0 && Abs(t) <= m
    requires 9007199254740992.0 * Abs(p - t) <= e && e <= 2.0 * m + 4.0
    ensures 9007199254740992.0 * Abs(v - (i + t)) <= Abs(i) + 3.0 * m + 8.0
  {
  }

  lemma ModestIsWhole(initial: int, minScore: int, decay: int, n: int)
    requires IsModest(initial, minScore, decay) && 0 <= n < decay
    ensures 1 <= Squared(decay) <= WHOLE && 0 <= Squared(n) <= Squared(decay) && n <= WHOLE && decay <= WHOLE
    ensures -WHOLE <= initial <= WHOLE && -WHOLE <= minScore <= WHOLE && -WHOLE <= minScore - initial <= WHOLE
  {
    SquareIsPositive(decay);
    var w, d := Weight(initial, minScore), Squared(decay);
    ProductIsMore(w, d);
    ProductIsMore(d, w);
    IntSquaresGrow(n, decay);
  }

  lemma ProductIsMore(x: nat, y: nat)
    requires x >= 1
    ensures y <= x * y
  {
  }

  lemma IntSquaresGrow(x: nat, y: nat)
    requires x <= y
    ensures x * x <= y * y
    ensures x < y ==> x * x < y * y
  {
  }

  /** With modest values only the quotient, the product and the sum are rounded. */
  lemma ModestValue(a: Arithmetic, initial: int, minScore: int, decay: int, n: int)
    requires IsFloat64(a) && IsModest(initial, minScore, decay) && 0 <= n < decay
    ensures
      var q := a.round(Over(Whole(minScore - initial), Whole(Squared(decay))));
      Value(a, initial, minScore, decay, n) == Parabola(a, Whole(initial), q, Whole(Squared(n)))
  {
    hide IsMonotone, KeepsWholes, IsClose, Over, Parabola, IsModest;
    ModestIsWhole(initial, minScore, decay, n);
    RoundKeeps(a, initial);
    RoundKeeps(a, minScore);
    RoundKeeps(a, decay);
    RoundKeeps(a, n);
    RoundKeeps(a, minScore - initial);
    RoundKeeps(a, Squared(decay));
    RoundKeeps(a, Squared(n));
    assert Square(Whole(decay)) == Whole(Squared(decay)) && Square(Whole(n)) == Whole(Squared(n));
    assert Whole(minScore) - Whole(initial) == Whole(minScore - initial);
  }

  lemma ShareIsProduct(range: int, decay: int, n: int)
    requires decay >= 1 && 0 <= n < decay
    ensures Times(Over(Whole(range), Whole(Squared(decay))), Whole(Squared(n))) == Share(range, decay, n)
    ensures Abs(Share(range, decay, n)) <= Whole(Magnitude(range))
  {
    SquareIsPositive(decay);
    IntSquaresGrow(n, decay);
    var r, d, s := Whole(range), Whole(Squared(decay)), Whole(Squared(n));
    assert Whole(range * Squared(n)) == r * s;
    assert (r / d) * s == (r * s) / d;
    FractionIsLess(r, s, d);
  }

  lemma FractionIsLess(r: real, s: real, d: real)
    requires 0.0 <= s <= d && d > 0.0
    ensures Abs((r * s) / d) <= Abs(r)
  {
    var x := (r * s) / d;
    assert x * d == r * s;
    if r >= 0.0 {
      TimesGrows(0.0, r, s);
      TimesGrows(s, d, r);
      if x > r { TimesGrows(r, x, d); assert (x - r) * d > 0.0; }
      if x < 0.0 { assert -x * d > 0.0; }
    } else {
      TimesGrows(0.0, -r, s);
      TimesGrows(s, d, -r);
      if x < r { assert (r - x) * d > 0.0; }
      if x > 0.0 { assert x * d > 0.0; }
    }
  }

  lemma RoundedParabola(a: Arithmetic, i: real, r: real, s: real, m: real)
    requires IsFloat64(a) && 0.0 <= s <= 9007199254740992.0 && 0.0 <= m <= 9007199254740992.0 && Abs(Times(r, s)) <= m
    ensures 9007199254740992.0 * Abs(Parabola(a, i, a.round(r), s) - (i + Times(r, s))) <= Abs(i) + 3.0 * m + 8.0
  {
    hide IsMonotone, KeepsWholes, IsClose, IsNear, Abs, Times;
    RoundIsClose(a, r);
    var q := a.round(r);
    ProductError(q, r, s, m);
    SumError(a, i, Times(q, s), Times(r, s), m);
  }

  /** Closer than weight / 2^53. */
  predicate IsWithin(x: real, y: real, weight: int) {
    9007199254740992.0 * Abs(x - y) <= Whole(weight)
  }

  lemma RoundedWholes(a: Arithmetic, i: int, range: int, d: int, squares: int)
    requires IsFloat64(a) && 0 <= squares <= WHOLE && Magnitude(range) <= WHOLE
    requires Abs(Times(Over(Whole(range), Whole(d)), Whole(squares))) <= Whole(Magnitude(range))
    ensures
      var r := Over(Whole(range), Whole(d));
      IsWithin(Parabola(a, Whole(i), a.round(r), Whole(squares)), Whole(i) + Times(r, Whole(squares)),
               Magnitude(i) + 3 * Magnitude(range) + 8)
  {
    hide IsFloat64, Over, Parabola, Times;
    assert Abs(Whole(i)) == Whole(Magnitude(i));
    hide Abs;
    RoundedParabola(a, Whole(i), Over(Whole(range), Whole(d)), Whole(squares), Whole(Magnitude(range)));
  }

  lemma ModestFacts(a: Arithmetic, initial: int, minScore: int, decay: int, n: int)
    requires IsFloat64(a) && IsModest(initial, minScore, decay) && 0 <= n < decay
    ensures
      var range := minScore - initial;
      var r := Over(Whole(range), Whole(Squared(decay)));
      && Value(a, initial, minScore, decay, n) == Parabola(a, Whole(initial), a.round(r), Whole(Squared(n)))
      && Exact(initial, minScore, decay, n) == Whole(initial) + Times(r, Whole(Squared(n)))
      && Abs(Times(r, Whole(Squared(n)))) <= Whole(Magnitude(range))
      && 0 <= Squared(n) <= WHOLE && Magnitude(range) <= WHOLE
  {
    var range := minScore - initial;
    ModestIsWhole(initial, minScore, decay, n);
    ModestValue(a, initial, minScore, decay, n);
    ShareIsProduct(range, decay, n);
    hide IsFloat64, Over, Share, IsModest, Value, Parabola, Times, Abs, Squared;
  }

  /** The rounded parabola is within Weight / 2^53 of the exact one. */
  lemma ValueIsNear(a: Arithmetic, initial: int, minScore: int, decay: int, n: int)
    requires IsFloat64(a) && IsModest(initial, minScore, decay) && 0 <= n < decay
    ensures IsWithin(Value(a, initial, minScore, decay, n), Exact(initial, minScore, decay, n), Weight(initial, minScore))
  {
    hide *;
    ModestFacts(a, initial, minScore, decay, n);
    WeightIs(initial, minScore);
    RoundedWholes(a, initial, minScore - initial, Squared(decay), Squared(n));
  }

  lemma WeightIs(initial: int, minScore: int)
    ensures Weight(initial, minScore) == Magnitude(initial) + 3 * Magnitude(minScore - initial) + 8
  {
  }

  // ---- the price in integers ----------------------------------------------------------------------------------

  /** The drop from the initial value, in whole points. */
  function Drop(range: nat, decay: nat, n: nat): int
    requires decay >= 1
  {
    SquareIsPositive(decay);
    (range * Squared(n)) / Squared(decay)
  }

  /** The parabola itself is at a whole number of points. */
  predicate IsWhole(range: nat, decay: nat, n: nat)
    requires decay >= 1
  {
    SquareIsPositive(decay);
    (range * Squared(n)) % Squared(decay) == 0
  }

  lemma WholeBelow(v: real, vd: real, k: int, d: int, kd: int)
    requires d >= 1 && vd == v * Whole(d) && kd == k * d && vd < Whole(kd)
    ensures v < Whole(k)
  {
    WholeTimes(k, d);
    if v >= Whole(k) {
      TimesGrows(Whole(k), v, Whole(d));
    }
  }

  lemma WholeAbove(v: real, vd: real, k: int, d: int, kd: int)
    requires d >= 1 && vd == v * Whole(d) && kd == k * d && Whole(kd) < vd
    ensures Whole(k) < v
  {
    WholeTimes(k, d);
    if v <= Whole(k) {
      TimesGrows(v, Whole(k), Whole(d));
    }
  }

  lemma WholeTimes(k: int, d: int)
    ensures Whole(k) * Whole(d) == Whole(k * d)
  {
  }

  lemma NextMultiple(k: int, d: int)
    ensures (k + 1) * d == k * d + d && (k - 1) * d == k * d - d
  {
  }

  /** Two numbers that are close are close when both are multiplied by d. */
  lemma CloseTimes(v: real, x: real, w: int, d: int, vd: real, xd: real)
    requires IsWithin(v, x, w) && w >= 0 && d >= 1 && w * d < WHOLE
    requires vd == v * Whole(d) && xd == x * Whole(d)
    ensures xd - 1.0 < vd < xd + 1.0
  {
    ErrorTimes(v - x, w, d, vd - xd);
  }

  /** v is closer than 1 / d to the point rem / d below k. */
  lemma BetweenWholes(v: real, x: real, w: int, k: int, rem: int, d: int)
    requires IsWithin(v, x, w) && 0 <= rem < d && w >= 0 && w * d < WHOLE
    requires x * Whole(d) == Whole(k * d - rem)
    ensures Whole(k - 1) < v && (if rem == 0 then v < Whole(k + 1) else v < Whole(k))
  {
    var vd, kd := v * Whole(d), k * d;
    CloseTimes(v, x, w, d, vd, x * Whole(d));
    NextMultiple(k, d);
    AroundWhole(v, vd, k, rem, d, kd);
  }

  lemma AroundWhole(v: real, vd: real, k: int, rem: int, d: int, kd: int)
    requires 0 <= rem < d && vd == v * Whole(d) && kd == k * d
    requires kd + d == (k + 1) * d && kd - d == (k - 1) * d
    requires Whole(kd - rem) - 1.0 < vd < Whole(kd - rem) + 1.0
    ensures Whole(k - 1) < v && (if rem == 0 then v < Whole(k + 1) else v < Whole(k))
  {
    assert Whole(kd - d) < vd && (if rem == 0 then vd < Whole(kd + d) else vd < Whole(kd));
    hide Whole;
    WholeAbove(v, vd, k - 1, d, kd - d);
    if rem == 0 {
      WholeBelow(v, vd, k + 1, d, kd + d);
    } else {
      WholeBelow(v, vd, k, d, kd);
    }
  }

  lemma ScaledBy(f: real, w: real, d: real, fd: real, wd: real)
    requires 9007199254740992.0 * f <= w && d >= 0.0 && fd == f * d && wd == w * d
    ensures 9007199254740992.0 * fd <= wd
  {
    var slack := w - 9007199254740992.0 * f;
    TimesGrows(0.0, slack, d);
    assert slack * d == w * d - 9007199254740992.0 * (f * d);
  }

  lemma ErrorTimes(e: real, w: int, d: int, ed: real)
    requires 9007199254740992.0 * Abs(e) <= Whole(w) && w >= 0 && d >= 1 && w * d < WHOLE && ed == e * Whole(d)
    ensures -1.0 < ed < 1.0
  {
    AbsOfProduct(e, Whole(d), ed);
    WholeTimes(w, d);
    ScaledBy(Abs(e), Whole(w), Whole(d), Abs(ed), Whole(w * d));
    assert Whole(w * d) < 9007199254740992.0;
    hide Abs;
    BelowOne(ed);
  }

  lemma BelowOne(x: real)
    requires 9007199254740992.0 * Abs(x) < 9007199254740992.0
    ensures -1.0 < x < 1.0
  {
  }

  lemma CeilIs(x: real, k: int)
    requires Whole(k - 1) < x
    ensures x <= Whole(k) ==> Ceil(x) == k
    ensures x < Whole(k + 1) ==> k <= Ceil(x) <= k + 1
  {
  }

  lemma ExactTimes(initial: int, minScore: int, decay: int, n: int)
    requires minScore <= initial && decay >= 1 && 0 <= n
    ensures
      var range := initial - minScore;
      && Squared(decay) >= 1
      && var rem := (range * Squared(n)) % Squared(decay);
      && 0 <= rem < Squared(decay)
      && Exact(initial, minScore, decay, n) * Whole(Squared(decay))
        == Whole((initial - Drop(range, decay, n)) * Squared(decay) - rem)
  {
    SquareIsPositive(decay);
    hide Squared;
    var range, d, s := initial - minScore, Squared(decay), Squared(n);
    var top := range * s;
    assert (minScore - initial) * s == -top;
    assert Share(minScore - initial, decay, n) * Whole(d) == Whole(-top);
    assert top == Drop(range, decay, n) * d + top % d;
    assert (initial - Drop(range, decay, n)) * d - top % d == initial * d - top;
    assert Whole(initial) * Whole(d) == Whole(initial * d);
  }

  lemma CeilFits(v: real, x: real, w: int, k: int, rem: int, d: int)
    requires IsWithin(v, x, w) && 0 <= rem < d && w >= 0 && w * d < WHOLE
    requires x * Whole(d) == Whole(k * d - rem)
    ensures Ceil(v) == k || (Ceil(v) == k + 1 && rem == 0)
  {
    BetweenWholes(v, x, w, k, rem, d);
    CeilIs(v, k);
    hide IsWithin, Ceil;
  }

  lemma CeilOfValue(a: Arithmetic, initial: int, minScore: int, decay: int, n: int)
    requires IsFloat64(a) && IsModest(initial, minScore, decay) && 0 <= n < decay && minScore <= initial
    ensures
      var form, c := initial - Drop(initial - minScore, decay, n), Ceil(Value(a, initial, minScore, decay, n));
      c == form || (c == form + 1 && IsWhole(initial - minScore, decay, n))
  {
    hide IsFloat64, Value, Exact, IsWithin, Weight, Squared, Drop, Ceil;
    var range := initial - minScore;
    ValueIsNear(a, initial, minScore, decay, n);
    ExactTimes(initial, minScore, decay, n);
    var rem := (range * Squared(n)) % Squared(decay);
    assert IsWhole(range, decay, n) <==> rem == 0;
    hide IsWhole, IsModest;
    assert Weight(initial, minScore) * Squared(decay) < WHOLE by { ModestMeans(initial, minScore, decay); }
    CeilFits(Value(a, initial, minScore, decay, n), Exact(initial, minScore, decay, n), Weight(initial, minScore),
             initial - Drop(range, decay, n), rem, Squared(decay));
  }

  lemma ModestMeans(initial: int, minScore: int, decay: int)
    requires IsModest(initial, minScore, decay)
    ensures Weight(initial, minScore) * Squared(decay) < WHOLE && decay >= 1
  {
  }

  /** Before the decay has passed, part of the range is left. */
  lemma DropBounds(range: nat, decay: nat, n: nat)
    requires decay > 0 && n < decay
    ensures 0 <= Drop(range, decay, n) <= range
    ensures range > 0 ==> Drop(range, decay, n) < range
  {
    SquareIsPositive(decay);
    IntSquaresGrow(n, decay);
    var s, d := Squared(n), Squared(decay);
    QuotientBelow(range, s, d);
  }

  lemma QuotientBelow(range: nat, s: nat, d: nat)
    requires s < d
    ensures 0 <= (range * s) / d <= range
    ensures range > 0 ==> (range * s) / d < range
  {
    var top := range * s;
    var q := top / d;
    assert top == q * d + top % d;
    IntTimesGrows(range, s, d - 1);
    assert range * (d - 1) == range * d - range;
    if q > range || (q == range && range > 0) {
      IntTimesGrows(d, range, q);
      assert false;
    }
  }

  lemma IntTimesGrows(a: nat, x: int, y: int)
    requires x <= y
    ensures a * x <= a * y
  {
  }

  /** The price in integers, independently of the formula and of how the operations round: what the challenge
      has lost is the range times the squared fraction of the decay that has passed, rounded down. Only where
      the exact price is a whole number can rounding add a point. */
  lemma ScoreInIntegers(a: Arithmetic, initial: int, minScore: int, decay: int, solves: int)
    requires IsFloat64(a) && IsModest(initial, minScore, decay) && minScore <= initial && 1 <= solves <= decay
    ensures
      var form := initial - Drop(initial - minScore, decay, solves - 1);
      var price := CalculateDynamicScore(a, initial, minScore, decay, solves);
      price == form || (price == form + 1 && IsWhole(initial - minScore, decay, solves - 1))
  {
    hide Ceil, Drop, Value, IsFloat64, IsWhole, IsModest;
    CeilOfValue(a, initial, minScore, decay, solves - 1);
    DropBounds(initial - minScore, decay, solves - 1);
  }

  /** The minimum is the price exactly above `decay` solves. */
  lemma MinimumIff(a: Arithmetic, initial: int, minScore: int, decay: int, solves: int)
    requires IsFloat64(a) && IsModest(initial, minScore, decay) && minScore < initial
    ensures CalculateDynamicScore(a, initial, minScore, decay, solves) == minScore <==> solves > decay
  {
    hide Ceil, Value, IsFloat64, IsModest, Drop, IsWhole;
    ModestMeans(initial, minScore, decay);
    if 1 <= solves <= decay {
      ScoreInIntegers(a, initial, minScore, decay, solves);
      DropBounds(initial - minScore, decay, solves - 1);
    }
  }

  /** When the whole range divides by the square of the decay nothing is rounded, and the price is the integer
      form at every count. */
  lemma WholeQuotientIsExact(a: Arithmetic, initial: int, minScore: int, decay: int, solves: int)
    requires IsFloat64(a) && IsModest(initial, minScore, decay) && minScore <= initial && 1 <= solves <= decay
    requires (initial - minScore) % Squared(decay) == 0
    ensures CalculateDynamicScore(a, initial, minScore, decay, solves) == initial - Drop(initial - minScore, decay, solves - 1)
  {
    var n := solves - 1;
    WholeQuotientValue(a, initial, minScore, decay, n);
    DropBounds(initial - minScore, decay, n);
    CeilOfWhole(initial - Drop(initial - minScore, decay, n));
    hide IsFloat64, IsModest, Value, Squared, Drop, Ceil, Whole;
  }

  lemma WholeQuotientValue(a: Arithmetic, initial: int, minScore: int, decay: int, n: int)
    requires IsFloat64(a) && IsModest(initial, minScore, decay) && minScore <= initial && 0 <= n < decay
    requires (initial - minScore) % Squared(decay) == 0
    ensures Value(a, initial, minScore, decay, n) == Whole(initial - Drop(initial - minScore, decay, n))
  {
    hide *;
    var range := initial - minScore;
    ModestIsWhole(initial, minScore, decay, n);
    ModestValue(a, initial, minScore, decay, n);
    DropBounds(range, decay, n);
    DropIs(range, decay, n);
    var k := range / Squared(decay);
    WholeDrop(range, k, Squared(decay), Squared(n));
    WholeParabola(a, initial, k, Squared(decay), Squared(n));
  }

  lemma DropIs(range: nat, decay: nat, n: nat)
    requires decay >= 1
    ensures Squared(decay) >= 1 && Drop(range, decay, n) == (range * Squared(n)) / Squared(decay)
  {
    SquareIsPositive(decay);
  }

  lemma WholeDrop(range: nat, k: int, d: int, s: nat)
    requires d > 0 && range % d == 0 && k == range / d
    ensures range == k * d && 0 <= k <= range && (range * s) / d == k * s
  {
    assert range == k * d;
    assert range * s == (k * s) * d;
    Divides(k * s, d);
    Divides(k, d);
    IntTimesGrows(k, 1, d);
  }

  lemma Divides(x: int, d: int)
    requires d > 0
    ensures (x * d) / d == x
  {
    var q, r := (x * d) / d, (x * d) % d;
    assert x * d == q * d + r;
    assert (x - q) * d == r;
    if x > q {
      IntTimesGrows(d, 1, x - q);
    } else if x < q {
      IntTimesGrows(d, x - q, -1);
    }
  }

  lemma WholeParabola(a: Arithmetic, initial: int, k: int, d: int, s: nat)
    requires IsFloat64(a) && d > 0 && -WHOLE <= initial <= WHOLE && 0 <= k <= WHOLE && 0 <= k * s && k * s <= WHOLE && -WHOLE <= initial - k * s
    ensures Parabola(a, Whole(initial), a.round(Over(Whole(-(k * d)), Whole(d))), Whole(s)) == Whole(initial - k * s)
  {
    hide IsMonotone, KeepsWholes, IsClose;
    assert Over(Whole(-(k * d)), Whole(d)) == Whole(-k);
    RoundKeeps(a, -k);
    assert Times(Whole(-k), Whole(s)) == Whole(-(k * s));
    RoundKeeps(a, -(k * s));
    assert Whole(initial) + Whole(-(k * s)) == Whole(initial - k * s);
    RoundKeeps(a, initial - k * s);
  }

  /** With the minimum at or above the initial value every solved challenge is worth the minimum. */
  lemma MisorderedPriceIsMinimum(a: Arithmetic, initial: int, minScore: int, decay: int, solves: int)
    requires IsFloat64(a) && initial <= minScore && solves > 0
    requires solves <= decay ==> IsModest(initial, minScore, decay)
    requires solves == 1 && decay == 0 ==> IsModest(initial, minScore, 1)
    ensures CalculateDynamicScore(a, initial, minScore, decay, solves) == minScore
  {
    hide IsFloat64, Value, IsModest, Ceil;
    var span := if decay == 0 then 1 else decay;
    if solves <= span {
      MisorderedValue(a, initial, minScore, span, solves - 1);
      CeilGrows(Value(a, initial, minScore, span, solves - 1), Whole(minScore));
      CeilOfWhole(minScore);
    }
  }

  lemma CeilOfWhole(k: int)
    ensures Ceil(Whole(k)) == k
  {
  }

  lemma MisorderedValue(a: Arithmetic, initial: int, minScore: int, decay: int, n: int)
    requires IsFloat64(a) && IsModest(initial, minScore, decay) && 0 <= n < decay && initial <= minScore
    ensures Value(a, initial, minScore, decay, n) <= Whole(minScore)
  {
    hide *;
    if initial == minScore {
      LevelValue(a, initial, decay, n);
    } else {
      RisingValue(a, initial, minScore, decay, n);
    }
  }

  lemma RisingValue(a: Arithmetic, initial: int, minScore: int, decay: int, n: int)
    requires IsFloat64(a) && IsModest(initial, minScore, decay) && 0 <= n < decay && initial < minScore
    ensures Value(a, initial, minScore, decay, n) <= Whole(minScore)
  {
    hide *;
    ValueIsNear(a, initial, minScore, decay, n);
    ModestMeans(initial, minScore, decay);
    SquaredGrows(n, decay);
    ShareTimes(initial, minScore - initial, decay, n);
    StaysBelow(Value(a, initial, minScore, decay, n), Exact(initial, minScore, decay, n), Weight(initial, minScore),
               initial, minScore - initial, Squared(decay), Squared(n));
  }

  lemma SquaredGrows(n: int, decay: int)
    requires 0 <= n < decay
    ensures 0 <= Squared(n) <= Squared(decay) - 1
  {
    IntSquaresGrow(n, decay);
  }

  lemma LevelValue(a: Arithmetic, initial: int, decay: int, n: int)
    requires IsFloat64(a) && IsModest(initial, initial, decay) && 0 <= n < decay
    ensures Value(a, initial, initial, decay, n) == Whole(initial)
  {
    SquareIsPositive(decay);
    ModestIsWhole(initial, initial, decay, n);
    ModestValue(a, initial, initial, decay, n);
    hide IsFloat64, Value, Squared, IsModest, Parabola;
    WholeParabola(a, initial, 0, Squared(decay), Squared(n));
  }

  lemma ShareTimes(initial: int, range: int, decay: int, n: int)
    requires decay >= 1
    ensures
      && Squared(decay) >= 1
      && Exact(initial, initial + range, decay, n) * Whole(Squared(decay)) == Whole(initial * Squared(decay) + range * Squared(n))
  {
    SquareIsPositive(decay);
    hide Squared;
    var d := Squared(decay);
    assert initial + range - initial == range;
    assert Share(range, decay, n) * Whole(d) == Whole(range * Squared(n));
    assert Whole(initial) * Whole(d) == Whole(initial * d);
  }

  lemma StaysBelow(v: real, x: real, w: int, initial: int, range: int, d: int, s: int)
    requires IsWithin(v, x, w) && w >= 0 && d >= 1 && w * d < WHOLE && range >= 1 && 0 <= s <= d - 1
    requires x * Whole(d) == Whole(initial * d + range * s)
    ensures v <= Whole(initial + range)
  {
    var vd, top := v * Whole(d), initial * d + range * s;
    CloseTimes(v, x, w, d, vd, x * Whole(d));
    SumTimes(initial, range, d, s);
    assert vd < Whole(top) + 1.0 <= Whole((initial + range) * d);
    hide Whole;
    WholeBelow(v, vd, initial + range, d, (initial + range) * d);
  }

  lemma SumTimes(initial: int, range: int, d: int, s: int)
    requires range >= 1 && s <= d - 1
    ensures initial * d + range * s + 1 <= (initial + range) * d
  {
    IntTimesGrows(range, s, d - 1);
    assert range * (d - 1) == range * d - range;
    assert (initial + range) * d == initial * d + range * d;
  }
}
