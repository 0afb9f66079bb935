/**
  The least-squares refit of a consensus boundary: a centred fit through every inlier.
 */
module ConsensusFit {
  import opened Market
  import A = Arithmetic

  /** A confirmed pivot with the ATR at its candle. */
  datatype Point = Point(index: int, price: real, atr: real)

  predicate Increasing(ps: seq<Point>) {
    forall i, j :: 0 <= i < j < |ps| ==> ps[i].index < ps[j].index
  }

  function Sum(ps: seq<Point>, f: Point -> real): real {
    if ps == [] then 0.0 else f(ps[0]) + Sum(ps[1..], f)
  }

  function IndexOffset(mx: real): Point -> real {
    (p: Point) => p.index as real - mx
  }

  function PriceOffset(my: real): Point -> real {
    (p: Point) => p.price - my
  }

  function Products(f: Point -> real, g: Point -> real): Point -> real {
    (p: Point) => f(p) * g(p)
  }

  function MeanIndex(ps: seq<Point>): real
    requires ps != []
  {
    Sum(ps, IndexOffset(0.0)) / |ps| as real
  }

  function MeanPrice(ps: seq<Point>): real
    requires ps != []
  {
    Sum(ps, PriceOffset(0.0)) / |ps| as real
  }

  /** Sum of (index - mx)^2. */
  function Spread(ps: seq<Point>, mx: real): real {
    Sum(ps, Products(IndexOffset(mx), IndexOffset(mx)))
  }

  /** Sum of (index - mx)(price - my). */
  function Covariance(ps: seq<Point>, mx: real, my: real): real {
    Sum(ps, Products(IndexOffset(mx), PriceOffset(my)))
  }

  function Refit(ps: seq<Point>): Line
    requires 2 <= |ps| && Increasing(ps)
  {
    var mx, my := MeanIndex(ps), MeanPrice(ps);
    SpreadIsPositive(ps, mx);
    var slope := Covariance(ps, mx, my) / Spread(ps, mx);
    Line(slope, my - slope * mx)
  }

  function Residual(line: Line, p: Point): real {
    p.price - ValueAt(line, p.index as real)
  }

  function Residuals(line: Line): Point -> real {
    (p: Point) => Residual(line, p)
  }

  function SquaredError(line: Line, ps: seq<Point>): real {
    Sum(ps, Products(Residuals(line), Residuals(line)))
  }

  // ----- sums -----

  lemma {:induction false} NonNegativeSum(ps: seq<Point>, f: Point -> real)
    requires forall p :: 0.0 <= f(p)
    ensures 0.0 <= Sum(ps, f)
  {
    if ps != [] {
      NonNegativeSum(ps[1..], f);
    }
  }

  /** Sums are linear: subtracting a multiple of one function from another. */
  lemma {:induction false} SumMinus(ps: seq<Point>, h: Point -> real, f: Point -> real, g: Point -> real, s: real)
    requires forall p {:trigger h(p)} :: h(p) == f(p) - s * g(p)
    ensures Sum(ps, h) == Sum(ps, f) - s * Sum(ps, g)
  {
    if ps == [] {
      A.TimesZero(s, Sum(ps, g));
    } else {
      SumMinus(ps[1..], h, f, g, s);
      A.DistributesTo(s, g(ps[0]), Sum(ps[1..], g), Sum(ps, g));
    }
  }

  lemma {:induction false} SumOfOnes(ps: seq<Point>, one: Point -> real)
    requires forall p :: one(p) == 1.0
    ensures Sum(ps, one) == |ps| as real
  {
    if ps != [] { SumOfOnes(ps[1..], one); }
  }

  /** Deviations from the mean cancel. */
  lemma DeviationsCancel(ps: seq<Point>, f: Point -> real, g: Point -> real, mean: real)
    requires ps != [] && mean == Sum(ps, f) / |ps| as real && forall p :: g(p) == f(p) - mean
    ensures Sum(ps, g) == 0.0
  {
    var one := (p: Point) => 1.0;
    SumOfOnes(ps, one);
    SumMinus(ps, g, f, one, mean);
    A.DivideBack(Sum(ps, f), |ps| as real);
    A.TimesTo(mean, Sum(ps, one), |ps| as real);
  }

  lemma CentredSumsVanish(ps: seq<Point>)
    requires ps != []
    ensures Sum(ps, IndexOffset(MeanIndex(ps))) == 0.0
    ensures Sum(ps, PriceOffset(MeanPrice(ps))) == 0.0
  {
    DeviationsCancel(ps, IndexOffset(0.0), IndexOffset(MeanIndex(ps)), MeanIndex(ps));
    DeviationsCancel(ps, PriceOffset(0.0), PriceOffset(MeanPrice(ps)), MeanPrice(ps));
  }

  lemma Square(x: real, square: real)
    requires square == x * x
    ensures 0.0 <= square
    ensures square == 0.0 ==> x == 0.0
  {
    if x != 0.0 { A.DivideBack(x, x); }
  }

  /** A vanishing sum of squares vanishes at the first two points; any other one is positive. */
  lemma SquaresVanish(ps: seq<Point>, g: Point -> real)
    requires 2 <= |ps|
    ensures 0.0 <= Sum(ps, Products(g, g))
    ensures Sum(ps, Products(g, g)) == 0.0 ==> g(ps[0]) == 0.0 && g(ps[1]) == 0.0
  {
    var f := Products(g, g);
    forall p: Point ensures 0.0 <= f(p) {
      Square(g(p), f(p));
    }
    NonNegativeSum(ps[1..][1..], f);
    assert Sum(ps, f) == f(ps[0]) + (f(ps[1]) + Sum(ps[1..][1..], f));
    Square(g(ps[0]), f(ps[0]));
    Square(g(ps[1]), f(ps[1]));
  }

  lemma SpreadIsPositive(ps: seq<Point>, mx: real)
    requires 2 <= |ps| && Increasing(ps)
    ensures 0.0 < Spread(ps, mx)
  {
    SquaresVanish(ps, IndexOffset(mx));
  }

  // ----- normal equations -----

  lemma AroundCentre(line: Line, mx: real, my: real, p: Point)
    requires ValueAt(line, mx) == my
    ensures Residuals(line)(p) == PriceOffset(my)(p) - line.slope * IndexOffset(mx)(p)
  {
    A.Distributes(line.slope, p.index as real, mx);
  }

  /** The moment of residuals r == v - s * u against u. */
  lemma ResidualMoment(ps: seq<Point>, r: Point -> real, u: Point -> real, v: Point -> real, s: real)
    requires forall p {:trigger r(p)} :: r(p) == v(p) - s * u(p)
    ensures Sum(ps, Products(r, u)) == Sum(ps, Products(u, v)) - s * Sum(ps, Products(u, u))
  {
    forall p: Point ensures Products(r, u)(p) == Products(u, v)(p) - s * Products(u, u)(p) {
      MomentTerm(s, u(p), v(p), r(p));
    }
    SumMinus(ps, Products(r, u), Products(u, v), Products(u, u), s);
  }

  lemma MomentTerm(s: real, u: real, v: real, r: real)
    requires r == v - s * u
    ensures r * u == u * v - s * (u * u)
  {
    A.Commutes(u, v);
    A.Distributes(u, v, s * u);
    A.Associates(s, u, u);
  }

  lemma RefitThroughMeans(ps: seq<Point>)
    requires 2 <= |ps| && Increasing(ps)
    ensures ValueAt(Refit(ps), MeanIndex(ps)) == MeanPrice(ps)
    ensures Refit(ps).slope * Spread(ps, MeanIndex(ps)) == Covariance(ps, MeanIndex(ps), MeanPrice(ps))
  {
    SpreadIsPositive(ps, MeanIndex(ps));
    A.DivideBack(Covariance(ps, MeanIndex(ps), MeanPrice(ps)), Spread(ps, MeanIndex(ps)));
  }

  lemma ResidualsAroundCentre(line: Line, mx: real, my: real)
    requires ValueAt(line, mx) == my
    ensures forall p {:trigger Residuals(line)(p)} ::
      Residuals(line)(p) == PriceOffset(my)(p) - line.slope * IndexOffset(mx)(p)
  {
    forall p: Point ensures Residuals(line)(p) == PriceOffset(my)(p) - line.slope * IndexOffset(mx)(p) {
      AroundCentre(line, mx, my, p);
    }
  }

  lemma ResidualsCancel(ps: seq<Point>, line: Line, mx: real, my: real)
    requires ValueAt(line, mx) == my && Sum(ps, IndexOffset(mx)) == 0.0 && Sum(ps, PriceOffset(my)) == 0.0
    ensures Sum(ps, Residuals(line)) == 0.0
  {
    ResidualsAroundCentre(line, mx, my);
    SumMinus(ps, Residuals(line), PriceOffset(my), IndexOffset(mx), line.slope);
    A.TimesZero(line.slope, Sum(ps, IndexOffset(mx)));
  }

  lemma ResidualsUncorrelated(ps: seq<Point>, line: Line, mx: real, my: real)
    requires ValueAt(line, mx) == my && line.slope * Spread(ps, mx) == Covariance(ps, mx, my)
    ensures Sum(ps, Products(Residuals(line), IndexOffset(mx))) == 0.0
  {
    ResidualsAroundCentre(line, mx, my);
    ResidualMoment(ps, Residuals(line), IndexOffset(mx), PriceOffset(my), line.slope);
  }

  /** The refit leaves residuals that sum to zero and do not correlate with the candle index. */
  lemma ResidualsBalance(ps: seq<Point>)
    requires 2 <= |ps| && Increasing(ps)
    ensures Sum(ps, Residuals(Refit(ps))) == 0.0
    ensures Sum(ps, Products(Residuals(Refit(ps)), IndexOffset(MeanIndex(ps)))) == 0.0
  {
    RefitThroughMeans(ps);
    CentredSumsVanish(ps);
    ResidualsCancel(ps, Refit(ps), MeanIndex(ps), MeanPrice(ps));
    ResidualsUncorrelated(ps, Refit(ps), MeanIndex(ps), MeanPrice(ps));
  }

  // ----- optimality -----

  function Gap(a: Line, b: Line): Point -> real {
    (p: Point) => ValueAt(a, p.index as real) - ValueAt(b, p.index as real)
  }

  lemma {:induction false} SquaresSplit(ps: seq<Point>, whole: Point -> real, r: Point -> real, g: Point -> real)
    requires forall p {:trigger whole(p)} :: whole(p) == r(p) + g(p)
    ensures Sum(ps, Products(whole, whole)) ==
            Sum(ps, Products(r, r)) + 2.0 * Sum(ps, Products(r, g)) + Sum(ps, Products(g, g))
  {
    if ps != [] {
      SquaresSplit(ps[1..], whole, r, g);
      SquareOfSum(r(ps[0]), g(ps[0]), whole(ps[0]));
    }
  }

  lemma SquareOfSum(r: real, g: real, whole: real)
    requires whole == r + g
    ensures whole * whole == r * r + 2.0 * (r * g) + g * g
  {
    A.Distributes(r + g, r, g);
    A.Distributes(r, r, g);
    A.Distributes(g, r, g);
    A.Commutes(g, r);
  }

  /** A function that is affine in u, summed against r, from its two moments. */
  lemma {:induction false} AffineSum(ps: seq<Point>, r: Point -> real, g: Point -> real, u: Point -> real, offset: real, turn: real)
    requires forall p {:trigger g(p)} :: g(p) == offset + turn * u(p)
    ensures Sum(ps, Products(r, g)) == offset * Sum(ps, r) + turn * Sum(ps, Products(r, u))
  {
    if ps == [] {
      A.TimesZero(offset, Sum(ps, r));
      A.TimesZero(turn, Sum(ps, Products(r, u)));
    } else {
      AffineSum(ps[1..], r, g, u, offset, turn);
      AffineTerm(r(ps[0]), offset, turn, u(ps[0]), g(ps[0]));
      A.DistributesTo(offset, r(ps[0]), Sum(ps[1..], r), Sum(ps, r));
      A.DistributesTo(turn, r(ps[0]) * u(ps[0]), Sum(ps[1..], Products(r, u)), Sum(ps, Products(r, u)));
    }
  }

  lemma AffineTerm(r: real, offset: real, turn: real, u: real, g: real)
    requires g == offset + turn * u
    ensures r * g == offset * r + turn * (r * u)
  {
    A.Distributes(r, offset, turn * u);
    A.Associates(r, turn, u);
    A.Associates(turn, r, u);
    A.Commutes(r, turn);
    A.Commutes(r, offset);
  }

  lemma GapIsAffine(a: Line, b: Line, mx: real, p: Point)
    ensures Gap(a, b)(p) == (ValueAt(a, mx) - ValueAt(b, mx)) + (a.slope - b.slope) * IndexOffset(mx)(p)
  {
    var x := p.index as real;
    A.Distributes(a.slope - b.slope, x, mx);
    A.Distributes(x, a.slope, b.slope);
    A.Distributes(mx, a.slope, b.slope);
  }

  /** Any line's squared error is the refit's plus the squared distance between the two lines. */
  lemma ErrorAboveRefit(ps: seq<Point>, line: Line)
    requires 2 <= |ps| && Increasing(ps)
    ensures var gap := Gap(Refit(ps), line);
            SquaredError(line, ps) == SquaredError(Refit(ps), ps) + Sum(ps, Products(gap, gap))
  {
    var best := Refit(ps);
    ResidualsBalance(ps);
    CrossTermVanishes(ps, best, line, MeanIndex(ps));
    SquaresSplit(ps, Residuals(line), Residuals(best), Gap(best, line));
  }

  lemma CrossTermVanishes(ps: seq<Point>, best: Line, line: Line, mx: real)
    requires Sum(ps, Residuals(best)) == 0.0 && Sum(ps, Products(Residuals(best), IndexOffset(mx))) == 0.0
    ensures Sum(ps, Products(Residuals(best), Gap(best, line))) == 0.0
  {
    var gap, offset, turn := Gap(best, line), ValueAt(best, mx) - ValueAt(line, mx), best.slope - line.slope;
    forall p: Point ensures gap(p) == offset + turn * IndexOffset(mx)(p) {
      GapIsAffine(best, line, mx, p);
    }
    AffineSum(ps, Residuals(best), gap, IndexOffset(mx), offset, turn);
    A.TimesZero(offset, Sum(ps, Residuals(best)));
    A.TimesZero(turn, Sum(ps, Products(Residuals(best), IndexOffset(mx))));
  }

  /** The refit is the least-squares line: no line has a smaller squared error, and no other line
      has the same one. */
  lemma RefitIsLeastSquares(ps: seq<Point>, line: Line)
    requires 2 <= |ps| && Increasing(ps)
    ensures SquaredError(Refit(ps), ps) <= SquaredError(line, ps)
    ensures SquaredError(Refit(ps), ps) == SquaredError(line, ps) ==> line == Refit(ps)
  {
    var gap := Gap(Refit(ps), line);
    ErrorAboveRefit(ps, line);
    SquaresVanish(ps, gap);
    if gap(ps[0]) == 0.0 && gap(ps[1]) == 0.0 {
      SameLine(Refit(ps), line, ps[0], ps[1]);
    }
  }

  lemma SameLine(a: Line, b: Line, p: Point, q: Point)
    requires p.index < q.index && Gap(a, b)(p) == 0.0 && Gap(a, b)(q) == 0.0
    ensures a == b
  {
    var x, y, turn := p.index as real, q.index as real, a.slope - b.slope;
    A.Distributes(turn, y, x);
    A.Distributes(x, a.slope, b.slope);
    A.Distributes(y, a.slope, b.slope);
    A.ProductSigns(turn, y - x);
    A.ProductSigns(-turn, y - x);
    assert turn == 0.0;
  }
}
