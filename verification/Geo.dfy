/**
  * The local east-north-up and north-east-down frames of the embedded profile, over the reals: the cosine
  * polynomial, the WGS-84 scale series built on it, and the forward and inverse conversions.
  */
module Geo {
  import opened Can

  // `core::f64::consts::PI`, the double nearest to pi, as an exact decimal.
  const PI: real := 3.141592653589793115997963468544185161590576171875

  datatype Wgs = Wgs(latitude: real, longitude: real, altitude: real)
  datatype Enu = Enu(east: real, north: real, up: real, origin: Wgs)
  datatype Ned = Ned(north: real, east: real, down: real, origin: Wgs)

  // ----- the operations

  /** Named, so that a proof can treat a product as one quantity. */
  function Mul(x: real, y: real): real {
    x * y
  }

  function Power(x: real, k: nat): real {
    if k == 0 then 1.0 else Mul(Power(x, k - 1), x)
  }

  function CosUnitInterval(x: real): real {
    CosPoly(Power(x, 2))
  }

  // The coefficients of `cos_unit_interval`, in the square of the angle.
  const COSINE: seq<real> := [1.0, -1.0 / 2.0, 1.0 / 24.0, -1.0 / 720.0, 1.0 / 40320.0, -1.0 / 3628800.0,
                              1.0 / 479001600.0, -1.0 / 87178291200.0]

  function CosPoly(x2: real): real {
    Poly(COSINE, x2, 0)
  }

  /** The sum of the coefficients times the powers from `k` on. */
  function Poly(coefficients: seq<real>, x: real, k: nat): real {
    if coefficients == [] then 0.0 else coefficients[0] * Power(x, k) + Poly(coefficients[1..], x, k + 1)
  }

  function Phi(latitude: real): real {
    latitude * PI / 180.0
  }

  function Cos1(latitude: real): real {
    CosUnitInterval(Phi(latitude))
  }

  // The harmonics, expanded from the first.
  function C2(c1: real): real { 2.0 * Power(c1, 2) - 1.0 }
  function C3(c1: real): real { 4.0 * Power(c1, 3) - 3.0 * c1 }
  function C4(c1: real): real { 2.0 * Power(C2(c1), 2) - 1.0 }
  function C5(c1: real): real { 16.0 * Power(c1, 5) - 20.0 * Power(c1, 3) + 5.0 * c1 }
  function C6(c1: real): real { 2.0 * Power(C3(c1), 2) - 1.0 }

  function PerLat(c1: real): real {
    111132.92 - 559.82 * C2(c1) + 1.175 * C4(c1) - 0.0023 * C6(c1)
  }

  function PerLon(c1: real): real {
    111412.84 * c1 - 93.5 * C3(c1) + 0.118 * C5(c1)
  }

  function MetresPerDegreeAt(latitude: real): (real, real) {
    (PerLat(Cos1(latitude)), PerLon(Cos1(latitude)))
  }

  function ToEnu(origin: Wgs, w: Wgs): Enu {
    Scaled(MetresPerDegreeAt(origin.latitude), origin, w)
  }

  function Scaled(metres: (real, real), origin: Wgs, w: Wgs): Enu {
    Enu((w.longitude - origin.longitude) * metres.1, (w.latitude - origin.latitude) * metres.0,
        w.altitude - origin.altitude, origin)
  }

  function ToNed(origin: Wgs, w: Wgs): Ned {
    var enu := ToEnu(origin, w);
    Ned(enu.north, enu.east, -enu.up, origin)
  }

  function FromEnu(enu: Enu): Option<Wgs> {
    Unscaled(MetresPerDegreeAt(enu.origin.latitude), enu)
  }

  /** None: a scale is zero, and the division has no finite result. */
  function Unscaled(metres: (real, real), enu: Enu): Option<Wgs> {
    if metres.0 == 0.0 || metres.1 == 0.0 then None
    else Some(Wgs(enu.origin.latitude + enu.north / metres.0, enu.origin.longitude + enu.east / metres.1,
                  enu.origin.altitude + enu.up))
  }

  function BatchToEnu(origin: Wgs, coords: seq<Wgs>): seq<Enu> {
    seq(|coords|, i requires 0 <= i < |coords| => ToEnu(origin, coords[i]))
  }

  function BatchToNed(origin: Wgs, coords: seq<Wgs>): seq<Ned> {
    seq(|coords|, i requires 0 <= i < |coords| => ToNed(origin, coords[i]))
  }

  function BatchFromEnu(enus: seq<Enu>): seq<Option<Wgs>> {
    seq(|enus|, i requires 0 <= i < |enus| => FromEnu(enus[i]))
  }

  function BatchFromNed(neds: seq<Ned>): seq<Option<Wgs>> {
    BatchFromEnu(seq(|neds|, i requires 0 <= i < |neds| =>
                             Enu(neds[i].east, neds[i].north, -neds[i].down, neds[i].origin)))
  }

  // ----- products of reals

  lemma Written(u: real)
    ensures CosPoly(u) == 1.0 - Power(u, 1) / 2.0 + Power(u, 2) / 24.0 - Power(u, 3) / 720.0 + Power(u, 4) / 40320.0
                          - Power(u, 5) / 3628800.0 + Power(u, 6) / 479001600.0 - Power(u, 7) / 87178291200.0
  {
    var c := COSINE;
    assert Poly(c[7..], u, 7) == c[7] * Power(u, 7) + Poly(c[8..], u, 8) by { assert c[7..][1..] == c[8..]; }
    assert Poly(c[6..], u, 6) == c[6] * Power(u, 6) + Poly(c[7..], u, 7) by { assert c[6..][1..] == c[7..]; }
    assert Poly(c[5..], u, 5) == c[5] * Power(u, 5) + Poly(c[6..], u, 6) by { assert c[5..][1..] == c[6..]; }
    assert Poly(c[4..], u, 4) == c[4] * Power(u, 4) + Poly(c[5..], u, 5) by { assert c[4..][1..] == c[5..]; }
    assert Poly(c[3..], u, 3) == c[3] * Power(u, 3) + Poly(c[4..], u, 4) by { assert c[3..][1..] == c[4..]; }
    assert Poly(c[2..], u, 2) == c[2] * Power(u, 2) + Poly(c[3..], u, 3) by { assert c[2..][1..] == c[3..]; }
    assert Poly(c[1..], u, 1) == c[1] * Power(u, 1) + Poly(c[2..], u, 2) by { assert c[1..][1..] == c[2..]; }
  }

  lemma Powers(x: real)
    ensures Power(x, 1) == x && Power(x, 2) == x * x
  {
    assert Power(x, 1) == Mul(Power(x, 0), x) == x;
    assert Power(x, 2) == Mul(Power(x, 1), x);
  }

  lemma NonNegative(a: real, b: real)
    requires a >= 0.0 && b >= 0.0
    ensures Mul(a, b) >= 0.0
  {
  }

  lemma Bounded(a: real, b: real)
    requires a >= 0.0 && 0.0 <= b <= 2.5
    ensures 0.0 <= Mul(a, b) <= 2.5 * a
  {
    NonNegative(a, b);
    NonNegative(a, 2.5 - b);
  }

  lemma Scale(k: real, d: real, w: real)
    requires 0.0 <= 12.0 * k <= 1.0 && 0.0 <= d <= 6.0 * w
    ensures 0.0 <= Mul(k, d) && 2.0 * Mul(k, d) <= w
  {
    NonNegative(k, d);
    NonNegative(1.0 - 12.0 * k, d);
  }

  lemma Monotone(k: real, x: real, y: real)
    requires 0.0 <= k && x <= y
    ensures Mul(k, x) <= Mul(k, y)
  {
    NonNegative(k, y - x);
  }

  lemma Distributes(k: real, x: real, y: real)
    ensures Mul(k, x) - Mul(k, y) == Mul(k, x - y)
  {
  }

  lemma Rises(p: real, q: real, r: real)
    requires 0.0 < r && p < q
    ensures Mul(p, r) < Mul(q, r)
  {
  }

  lemma Commutes(p: real, q: real)
    ensures Mul(p, q) == Mul(q, p)
  {
  }

  // ----- the cosine series

  function Divisor(k: nat): (d: nat)
    requires k > 0
    ensures d >= 2 && (k > 1 ==> d >= 12)
  {
    (2 * k - 1) * (2 * k)
  }

  function Inverse(k: nat): (r: real)
    requires k > 0
    ensures 0.0 < r && (k > 1 ==> 12.0 * r <= 1.0)
  {
    Reciprocal(Divisor(k) as real);
    1.0 / Divisor(k) as real
  }

  lemma Reciprocal(n: real)
    requires n > 0.0
    ensures 0.0 < 1.0 / n && (n >= 12.0 ==> 12.0 * (1.0 / n) <= 1.0)
  {
    var r := 1.0 / n;
    assert r * n == 1.0;
  }

  /** `u^k / (2k)!`, the k-th term of the series of the cosine in `u = x * x`. */
  function Term(u: real, k: nat): real {
    if k == 0 then 1.0 else Mul(Mul(Term(u, k - 1), u), Inverse(k))
  }

  /** The alternating sum of the terms from `m` to `n`, the first with a plus sign. */
  function Tail(u: real, m: nat, n: nat): real
    decreases n + 1 - m
  {
    if m > n then 0.0 else Term(u, m) - Tail(u, m + 1, n)
  }

  lemma {:induction false} TermShrinks(u: real, k: nat)
    requires 0.0 <= u <= 2.5
    ensures 0.0 <= Term(u, k) && (k > 1 ==> Term(u, k) <= Term(u, k - 1))
  {
    if k > 0 {
      var t := Term(u, k - 1);
      TermShrinks(u, k - 1);
      Bounded(t, u);
      NonNegative(Mul(t, u), Inverse(k));
      if k > 1 {
        Scale(Inverse(k), Mul(t, u), t);
        Commutes(Inverse(k), Mul(t, u));
      }
    }
  }

  lemma {:induction false} TailBounds(u: real, m: nat, n: nat)
    requires 0.0 <= u <= 2.5 && m > 0
    ensures 0.0 <= Tail(u, m, n) <= Term(u, m)
    decreases n + 1 - m
  {
    TermShrinks(u, m);
    if m <= n {
      TermShrinks(u, m + 1);
      TailBounds(u, m + 1, n);
    }
  }

  /** `1 / (2k)!`. */
  function Coefficient(k: nat): real {
    if k == 0 then 1.0 else Mul(Coefficient(k - 1), Inverse(k))
  }

  lemma {:induction false} TermIs(u: real, k: nat)
    ensures Term(u, k) == Mul(Power(u, k), Coefficient(k))
  {
    if k > 0 {
      TermIs(u, k - 1);
      Rearranged(Power(u, k - 1), Coefficient(k - 1), u, Inverse(k));
    }
  }

  lemma Rearranged(p: real, c: real, u: real, i: real)
    ensures Mul(Mul(Mul(p, c), u), i) == Mul(Mul(p, u), Mul(c, i))
  {
  }

  lemma Coefficients()
    ensures Coefficient(1) == 1.0 / 2.0 && Coefficient(2) == 1.0 / 24.0 && Coefficient(3) == 1.0 / 720.0
    ensures Coefficient(4) == 1.0 / 40320.0 && Coefficient(5) == 1.0 / 3628800.0
    ensures Coefficient(6) == 1.0 / 479001600.0 && Coefficient(7) == 1.0 / 87178291200.0
    ensures Coefficient(8) == 1.0 / 20922789888000.0
  {
  }

  lemma Terms(u: real)
    ensures Term(u, 0) - Term(u, 1) + Term(u, 2) - Term(u, 3) + Term(u, 4) - Term(u, 5) + Term(u, 6) - Term(u, 7)
            == CosPoly(u)
  {
    Coefficients();
    Written(u);
    TermIs(u, 1);
    TermIs(u, 2);
    TermIs(u, 3);
    TermIs(u, 4);
    TermIs(u, 5);
    TermIs(u, 6);
    TermIs(u, 7);
  }

  lemma Unfold(u: real, n: nat)
    requires n >= 7
    ensures Tail(u, 0, n) == Term(u, 0) - Term(u, 1) + Term(u, 2) - Term(u, 3) + Term(u, 4) - Term(u, 5)
                             + Term(u, 6) - Term(u, 7) + Tail(u, 8, n)
  {
    assert Tail(u, 6, n) == Term(u, 6) - Tail(u, 7, n);
    assert Tail(u, 4, n) == Term(u, 4) - Tail(u, 5, n);
    assert Tail(u, 2, n) == Term(u, 2) - Tail(u, 3, n);
  }

  lemma PolyBelowSeries(u: real, n: nat)
    requires 0.0 <= u <= 2.5 && n >= 7
    ensures 0.0 <= Tail(u, 0, n) - CosPoly(u) <= Term(u, 8)
  {
    Terms(u);
    Unfold(u, n);
    TailBounds(u, 8, n);
  }

  lemma SquareNonNegative(x: real)
    ensures Power(x, 2) == Mul(x, x) >= 0.0
  {
    Powers(x);
  }

  // MAIN RESULT. The polynomial is never above the cosine series and at most `x^16 / 16!` below it, however
  // many more terms the series is given.
  lemma TruncationError(x: real, n: nat)
    requires Power(x, 2) <= 2.5 && n >= 7
    ensures 0.0 <= Tail(Power(x, 2), 0, n) - CosUnitInterval(x) <= Term(Power(x, 2), 8)
  {
    SquareNonNegative(x);
    PolyBelowSeries(Power(x, 2), n);
  }

  // ----- the polynomial falls from the equator to the pole

  lemma GapStep(s: real, t: real, u: real, v: real, i: real)
    ensures Mul(Mul(s, v), i) - Mul(Mul(t, u), i) == Mul(i, Mul(s - t, v) + Mul(v - u, t))
    ensures Mul(v - u, Mul(Mul(t, u), i)) == Mul(i, Mul(u, Mul(v - u, t)))
  {
  }

  // How far each term grows from `u` to `v`, and how much of that the growth of the argument explains.
  lemma {:induction false} GapFacts(u: real, v: real, k: nat)
    requires 0.0 <= u < v <= 2.5 && k >= 1
    ensures var d := Term(v, k) - Term(u, k); 0.0 <= d && 0.0 <= Mul(v - u, Term(u, k)) <= 2.5 * d
  {
    TermShrinks(u, k);
    NonNegative(v - u, Term(u, k));
    if k == 1 {
      FirstTerm(u);
      FirstTerm(v);
      Bounded((v - u) / 2.0, u);
      assert Mul(v - u, u / 2.0) == Mul((v - u) / 2.0, u);
    } else {
      GapFacts(u, v, k - 1);
      var s, t, i := Term(v, k - 1), Term(u, k - 1), Inverse(k);
      var d, e := s - t, Mul(v - u, t);
      GapStep(s, t, u, v, i);
      NonNegative(d, v);
      NonNegative(i, Mul(d, v) + e);
      ExplainedPart(u, v, d, e);
      Monotone(i, Mul(u, e), 2.5 * (Mul(d, v) + e));
      Constant(i, Mul(d, v) + e);
    }
  }

  lemma FirstTerm(u: real)
    ensures Term(u, 1) == u / 2.0
  {
    assert Term(u, 0) == 1.0;
    assert Inverse(1) == 1.0 / 2.0;
  }

  lemma Constant(k: real, x: real)
    ensures Mul(k, 2.5 * x) == 2.5 * Mul(k, x)
  {
  }

  lemma ExplainedPart(u: real, v: real, d: real, e: real)
    requires 0.0 <= u < v && 0.0 <= d && 0.0 <= e <= 2.5 * d
    ensures Mul(u, e) <= 2.5 * (Mul(d, v) + e)
  {
    Monotone(u, e, 2.5 * d);
    Constant(u, d);
    Monotone(d, u, v);
    Commutes(u, d);
  }

  lemma GapShrinks(u: real, v: real, k: nat)
    requires 0.0 <= u < v <= 2.5 && k >= 1
    ensures 2.0 * (Term(v, k + 1) - Term(u, k + 1)) <= Term(v, k) - Term(u, k)
  {
    GapFacts(u, v, k);
    var s, t := Term(v, k), Term(u, k);
    Bounded(s - t, v);
    GapStep(s, t, u, v, Inverse(k + 1));
    Scale(Inverse(k + 1), Mul(s - t, v) + Mul(v - u, t), s - t);
  }

  lemma {:induction false} TailGap(u: real, v: real, m: nat, n: nat)
    requires 0.0 <= u < v <= 2.5 && m >= 1
    ensures 0.0 <= Tail(v, m, n) - Tail(u, m, n) <= Term(v, m) - Term(u, m)
    decreases n + 1 - m
  {
    GapFacts(u, v, m);
    if m <= n {
      TailGap(u, v, m + 1, n);
      GapShrinks(u, v, m);
    }
  }

  // Every partial sum of the cosine series falls on this range.
  lemma PartialSumFalls(u: real, v: real, n: nat)
    requires 0.0 <= u < v <= 2.5 && n >= 1
    ensures Tail(v, 0, n) < Tail(u, 0, n)
  {
    FirstTerm(u);
    FirstTerm(v);
    GapShrinks(u, v, 1);
    TailGap(u, v, 2, n);
    assert Tail(u, 1, n) == Term(u, 1) - Tail(u, 2, n);
    assert Tail(v, 1, n) == Term(v, 1) - Tail(v, 2, n);
  }

  lemma PolyIsPartialSum(u: real)
    ensures CosPoly(u) == Tail(u, 0, 7)
  {
    Terms(u);
    Unfold(u, 7);
  }

  lemma CosPolyFalls(u: real, v: real)
    requires 0.0 <= u < v <= 2.5
    ensures CosPoly(v) < CosPoly(u) <= 1.0 && CosPoly(v) >= -0.25
  {
    PolyIsPartialSum(u);
    PolyIsPartialSum(v);
    PartialSumFalls(u, v, 7);
    TailBounds(u, 1, 7);
    TailBounds(v, 1, 7);
    FirstTerm(v);
  }

  function Abs(x: real): real {
    if x < 0.0 then -x else x
  }

  lemma SquaresOrdered(p: real, q: real)
    requires 0.0 <= p < q <= 1.571
    ensures 0.0 <= Mul(p, p) < Mul(q, q) <= 2.5
  {
    NonNegative(p, p);
    Commutes(p, q);
    Rises(p, q, q);
    NonNegative(q - p, p);
    Distributes(p, q, p);
    Commutes(q - p, p);
    NonNegative(1.571 - q, 1.571 + q);
  }

  lemma SquareGrows(a: real, b: real)
    requires Abs(a) < Abs(b) <= 90.0
    ensures 0.0 <= Power(Phi(a), 2) < Power(Phi(b), 2) <= 2.5
  {
    SquaresOrdered(Phi(Abs(a)), Phi(Abs(b)));
    SquareOfAbs(a);
    SquareOfAbs(b);
  }

  lemma SquareOfAbs(a: real)
    ensures Power(Phi(a), 2) == Mul(Phi(Abs(a)), Phi(Abs(a)))
  {
    Powers(Phi(a));
  }

  // MAIN RESULT. From the equator to either pole the scale's cosine strictly falls.
  lemma CosineFallsTowardsThePoles(a: real, b: real)
    requires Abs(a) < Abs(b) <= 90.0
    ensures -0.25 <= Cos1(b) < Cos1(a) <= 1.0
  {
    SquareGrows(a, b);
    CosPolyFalls(Power(Phi(a), 2), Power(Phi(b), 2));
  }

  // ----- near the poles

  lemma CosineInRange(latitude: real)
    requires Abs(latitude) <= 90.0
    ensures -0.25 <= Cos1(latitude) <= 1.0
  {
    if Abs(latitude) < 90.0 {
      CosineFallsTowardsThePoles(latitude, 90.0);
    } else {
      CosineFallsTowardsThePoles(0.0, latitude);
    }
  }

  lemma PolyNearTheRoot()
    ensures CosPoly(2.4674010998) > 0.0 && CosPoly(2.46740110026) < -0.00000000006
  {
    Written(2.4674010998);
    Written(2.46740110026);
  }

  lemma SquareNearThePole(latitude: real)
    ensures Abs(latitude) <= 89.99999999 ==> Power(Phi(latitude), 2) < 2.4674010998
    ensures Abs(latitude) == 90.0 ==> 2.46740110026 < Power(Phi(latitude), 2)
  {
    var limit := 89.99999999;
    Powers(Phi(limit));
    Powers(Phi(latitude));
    if Abs(latitude) < limit {
      SquareGrows(latitude, limit);
    }
  }

  // MAIN RESULT. The cosine is positive up to a hundred-millionth of a degree from the pole; at the pole
  // itself it is negative.
  lemma CosineChangesSignBeforeThePole(latitude: real)
    ensures Abs(latitude) <= 89.99999999 ==> Cos1(latitude) > 0.0
    ensures Abs(latitude) == 90.0 ==> Cos1(latitude) < -0.00000000006
  {
    PolyNearTheRoot();
    SquareNearThePole(latitude);
    var u := Power(Phi(latitude), 2);
    if Abs(latitude) <= 89.99999999 {
      SquareNonNegative(Phi(latitude));
      CosPolyFalls(u, 2.4674010998);
    } else if Abs(latitude) == 90.0 {
      SquareGrows(0.0, latitude);
      CosPolyFalls(2.46740110026, u);
    }
  }

  lemma {:induction false} PowerGrows(u: real, v: real, k: nat)
    requires 0.0 <= u <= v
    ensures 0.0 <= Power(u, k) <= Power(v, k)
  {
    if k > 0 {
      PowerGrows(u, v, k - 1);
      var p, q := Power(u, k - 1), Power(v, k - 1);
      NonNegative(p, u);
      NonNegative(q - p, v);
      NonNegative(p, v - u);
      Distributes(p, v, u);
      Commutes(q - p, v);
      Distributes(v, q, p);
      Commutes(v, q);
      Commutes(v, p);
    }
  }

  lemma EighthPower()
    ensures Power(2.467, 8) > 1371.0
  {
  }

  // The first dropped term at the poles is over three times the 2e-11 that the comment on
  // `cos_unit_interval` gives for it.
  lemma DroppedTermAtThePole()
    ensures Term(Power(Phi(90.0), 2), 8) > 0.00000000006
  {
    var u := Power(Phi(90.0), 2);
    SquareNearThePole(90.0);
    PowerGrows(2.467, u, 8);
    EighthPower();
    Coefficients();
    TermIs(u, 8);
  }

  // ----- the harmonics

  /** `cos(n t)` and `sin(n t) / sin(t)` for `c = cos(t)`, by the addition formulas. */
  function Multiple(c: real, n: nat): (real, real) {
    if n == 0 then (1.0, 0.0)
    else Turn(c, Multiple(c, n - 1))
  }

  /** One more angle `t`. */
  function Turn(c: real, m: (real, real)): (real, real) {
    (Mul(c, m.0) - Mul(1.0 - Mul(c, c), m.1), Mul(c, m.1) + m.0)
  }

  function Harmonic(c: real, n: nat): real {
    Multiple(c, n).0
  }

  lemma Rotated(c: real, a: real, b: real)
    ensures var s := 1.0 - Mul(c, c); var p := Mul(c, a) - Mul(s, b); var q := Mul(c, b) + a;
            Mul(p, p) + Mul(s, Mul(q, q)) == Mul(a, a) + Mul(s, Mul(b, b))
  {
  }

  /** The sum of the squares of cosine and sine. */
  lemma {:induction false} MultipleOnCircle(c: real, n: nat)
    ensures var (a, b) := Multiple(c, n); Mul(a, a) + Mul(1.0 - Mul(c, c), Mul(b, b)) == 1.0
  {
    if n > 0 {
      MultipleOnCircle(c, n - 1);
      Rotated(c, Multiple(c, n - 1).0, Multiple(c, n - 1).1);
    }
  }

  lemma UnitSquare(a: real)
    requires Mul(a, a) <= 1.0
    ensures -1.0 <= a <= 1.0
  {
  }

  lemma SquareBelowOne(c: real)
    requires -1.0 <= c <= 1.0
    ensures 0.0 <= Mul(c, c) <= 1.0
  {
    SquareNonNegative(c);
    NonNegative(1.0 - c, 1.0 + c);
  }

  lemma HarmonicInRange(c: real, n: nat)
    requires -1.0 <= c <= 1.0
    ensures -1.0 <= Harmonic(c, n) <= 1.0
  {
    var (a, b) := Multiple(c, n);
    MultipleOnCircle(c, n);
    SquareBelowOne(c);
    SquareNonNegative(b);
    NonNegative(1.0 - Mul(c, c), Mul(b, b));
    UnitSquare(a);
  }

  // MAIN RESULT. The double- and triple-angle expansions in the code are the harmonics: the two scales are
  // the WGS-84 series in `cos(2t)`, `cos(4t)`, `cos(6t)` and in `cos(t)`, `cos(3t)`, `cos(5t)`.
  lemma ScalesAreSeries(c: real)
    ensures PerLat(c) == 111132.92 - 559.82 * Harmonic(c, 2) + 1.175 * Harmonic(c, 4) - 0.0023 * Harmonic(c, 6)
    ensures PerLon(c) == 111412.84 * Harmonic(c, 1) - 93.5 * Harmonic(c, 3) + 0.118 * Harmonic(c, 5)
  {
    Harmonics(c);
  }

  lemma TurnIs(c: real, a: real, b: real, p: real, q: real)
    requires c * a - (1.0 - c * c) * b == p && c * b + a == q
    ensures Turn(c, (a, b)) == (p, q)
  {
    assert Mul(c, c) == c * c;
    assert Mul(1.0 - Mul(c, c), b) == (1.0 - c * c) * b;
    assert Turn(c, (a, b)).0 == p;
    assert Turn(c, (a, b)).1 == q;
  }

  lemma Expanded(c: real)
    ensures C2(c) == 2.0 * c * c - 1.0 && C3(c) == 4.0 * c * c * c - 3.0 * c
    ensures C5(c) == 16.0 * c * c * c * c * c - 20.0 * c * c * c + 5.0 * c
  {
    Powers(c);
    assert Power(c, 3) == Mul(c * c, c);
    assert Power(c, 4) == Mul(c * c * c, c);
    assert Power(c, 5) == Mul(c * c * c * c, c);
  }

  lemma Harmonics(c: real)
    ensures Harmonic(c, 1) == c && Harmonic(c, 2) == C2(c) && Harmonic(c, 3) == C3(c)
    ensures Harmonic(c, 4) == C4(c) && Harmonic(c, 5) == C5(c) && Harmonic(c, 6) == C6(c)
  {
    Expanded(c);
    Powers(C2(c));
    Powers(C3(c));
    TurnIs(c, 1.0, 0.0, c, 1.0);
    assert Multiple(c, 1) == Turn(c, Multiple(c, 0)) == (c, 1.0);
    TurnIs(c, c, 1.0, C2(c), 2.0 * c);
    assert Multiple(c, 2) == (C2(c), 2.0 * c);
    TurnIs(c, C2(c), 2.0 * c, C3(c), 4.0 * c * c - 1.0);
    assert Multiple(c, 3) == (C3(c), 4.0 * c * c - 1.0);
    var b4, b5 := 8.0 * c * c * c - 4.0 * c, 16.0 * c * c * c * c - 12.0 * c * c + 1.0;
    TurnIs(c, C3(c), 4.0 * c * c - 1.0, C4(c), b4);
    assert Multiple(c, 4) == (C4(c), b4);
    TurnIs(c, C4(c), b4, C5(c), b5);
    assert Multiple(c, 5) == (C5(c), b5);
    TurnIs(c, C5(c), b5, C6(c), c * b5 + C5(c));
  }

  lemma PerLonFactor(c: real) returns (f: real)
    requires -1.0 <= c <= 1.0
    ensures PerLon(c) == Mul(c, f) && f > 100000.0
  {
    var s := Mul(c, c);
    SquareBelowOne(c);
    NonNegative(s, s);
    f := 111693.93 - 376.36 * s + 1.888 * Mul(s, s);
    PerLonFactored(c);
  }

  lemma PerLonFactored(c: real)
    ensures var s := Mul(c, c); PerLon(c) == Mul(c, 111693.93 - 376.36 * s + 1.888 * Mul(s, s))
  {
    Expanded(c);
  }

  lemma SignOfProduct(c: real, f: real)
    requires f > 0.0
    ensures Mul(c, f) > 0.0 <==> c > 0.0
    ensures Mul(c, f) == 0.0 <==> c == 0.0
  {
  }

  // MAIN RESULT. Everywhere on the globe a degree of latitude is between 110.5 and 111.7 kilometres, and
  // the longitude scale has exactly the sign of the cosine.
  lemma ScalesOnTheGlobe(latitude: real)
    requires Abs(latitude) <= 90.0
    ensures var (perLat, perLon) := MetresPerDegreeAt(latitude);
            && 110500.0 < perLat < 111700.0
            && (perLon > 0.0 <==> Cos1(latitude) > 0.0)
            && (perLon == 0.0 <==> Cos1(latitude) == 0.0)
  {
    var c := Cos1(latitude);
    CosineInRange(latitude);
    ScalesAreSeries(c);
    HarmonicInRange(c, 2);
    HarmonicInRange(c, 4);
    HarmonicInRange(c, 6);
    var f := PerLonFactor(c);
    SignOfProduct(c, f);
  }

  // ----- there and back

  lemma Undo(base: real, x: real, scale: real)
    requires scale != 0.0
    ensures base + (x - base) * scale / scale == x
  {
  }

  lemma ScalingUndone(metres: (real, real), origin: Wgs, w: Wgs)
    ensures Unscaled(metres, Scaled(metres, origin, w)) == Some(w) <==> metres.0 != 0.0 && metres.1 != 0.0
  {
    if metres.0 != 0.0 && metres.1 != 0.0 {
      var back := Unscaled(metres, Scaled(metres, origin, w)).value;
      assert back.latitude == w.latitude by { Undo(origin.latitude, w.latitude, metres.0); }
      assert back.longitude == w.longitude by { Undo(origin.longitude, w.longitude, metres.1); }
    }
  }

  // MAIN RESULT. From any origin on the globe, a point comes back exactly if and only if the cosine at the
  // origin is not zero.
  lemma EnuRoundTripIff(origin: Wgs, w: Wgs)
    requires Abs(origin.latitude) <= 90.0
    ensures FromEnu(ToEnu(origin, w)) == Some(w) <==> Cos1(origin.latitude) != 0.0
  {
    ScalesOnTheGlobe(origin.latitude);
    ScalingUndone(MetresPerDegreeAt(origin.latitude), origin, w);
  }

  // MAIN RESULT. Up to a hundred-millionth of a degree from a pole, and at the pole itself, a whole batch
  // taken into either local frame comes back exactly, in order.
  lemma BatchesComeBack(origin: Wgs, coords: seq<Wgs>)
    requires Abs(origin.latitude) <= 89.99999999 || Abs(origin.latitude) == 90.0
    ensures BatchFromEnu(BatchToEnu(origin, coords)) == Located(coords)
    ensures BatchFromNed(BatchToNed(origin, coords)) == Located(coords)
  {
    CosineChangesSignBeforeThePole(origin.latitude);
    forall i | 0 <= i < |coords|
      ensures FromEnu(ToEnu(origin, coords[i])) == Some(coords[i])
    {
      EnuRoundTripIff(origin, coords[i]);
    }
    var enus := BatchToEnu(origin, coords);
    var neds := BatchToNed(origin, coords);
    assert seq(|neds|, i requires 0 <= i < |neds| =>
                       Enu(neds[i].east, neds[i].north, -neds[i].down, neds[i].origin)) == enus;
  }

  function Located(coords: seq<Wgs>): seq<Option<Wgs>> {
    seq(|coords|, i requires 0 <= i < |coords| => Some(coords[i]))
  }

  // MAIN RESULT. East is positive exactly while the cosine is: at the pole the axis points the other way.
  lemma EastIsPositiveIff(origin: Wgs, w: Wgs)
    requires Abs(origin.latitude) <= 90.0 && origin.longitude < w.longitude
    ensures ToEnu(origin, w).east > 0.0 <==> Cos1(origin.latitude) > 0.0
    ensures Abs(origin.latitude) <= 89.99999999 ==> ToEnu(origin, w).east > 0.0
    ensures Abs(origin.latitude) == 90.0 ==> ToEnu(origin, w).east < 0.0
  {
    ScalesOnTheGlobe(origin.latitude);
    CosineChangesSignBeforeThePole(origin.latitude);
    EastSign(MetresPerDegreeAt(origin.latitude), origin, w);
  }

  lemma EastSign(metres: (real, real), origin: Wgs, w: Wgs)
    requires origin.longitude < w.longitude
    ensures Scaled(metres, origin, w).east > 0.0 <==> metres.1 > 0.0
    ensures Scaled(metres, origin, w).east == 0.0 <==> metres.1 == 0.0
  {
    SignOfProduct(metres.1, w.longitude - origin.longitude);
  }

  // MAIN RESULT. North is positive exactly towards the north pole, and every degree counts for 110.5 to 111.7
  // kilometres; up and down are the difference in altitude itself.
  lemma NorthAndUp(origin: Wgs, w: Wgs)
    requires Abs(origin.latitude) <= 90.0
    ensures var enu, ned, d := ToEnu(origin, w), ToNed(origin, w), w.latitude - origin.latitude;
            && (d > 0.0 ==> 110500.0 * d < enu.north < 111700.0 * d)
            && (d < 0.0 ==> 111700.0 * d < enu.north < 110500.0 * d)
            && (d == 0.0 ==> enu.north == 0.0)
            && enu.up == w.altitude - origin.altitude && enu.origin == origin
            && ned.north == enu.north && ned.east == enu.east && ned.down == origin.altitude - w.altitude
            && ned.origin == origin
  {
    ScalesOnTheGlobe(origin.latitude);
    NorthSize(MetresPerDegreeAt(origin.latitude), origin, w);
  }

  lemma NorthSize(metres: (real, real), origin: Wgs, w: Wgs)
    requires 110500.0 < metres.0 < 111700.0
    ensures var north, d := Scaled(metres, origin, w).north, w.latitude - origin.latitude;
            && (d > 0.0 ==> 110500.0 * d < north < 111700.0 * d)
            && (d < 0.0 ==> 111700.0 * d < north < 110500.0 * d)
            && (d == 0.0 ==> north == 0.0)
  {
    var d := w.latitude - origin.latitude;
    if d > 0.0 {
      SignOfProduct(metres.0 - 110500.0, d);
      SignOfProduct(111700.0 - metres.0, d);
    } else if d < 0.0 {
      SignOfProduct(metres.0 - 110500.0, -d);
      SignOfProduct(111700.0 - metres.0, -d);
    }
  }
}
