/** Least squares over finite samples: the algebra behind the capacity forecast, over the reals. */
module Regression {
  datatype Sample = Sample(x: real, y: real)

  function SumX(s: seq<Sample>): real {
    if s == [] then 0.0 else SumX(s[..|s| - 1]) + s[|s| - 1].x
  }

  function SumY(s: seq<Sample>): real {
    if s == [] then 0.0 else SumY(s[..|s| - 1]) + s[|s| - 1].y
  }

  function Product(a: real, b: real): real {
    a * b
  }

  function SumXY(s: seq<Sample>): real {
    if s == [] then 0.0 else SumXY(s[..|s| - 1]) + Product(s[|s| - 1].x, s[|s| - 1].y)
  }

  function SumXX(s: seq<Sample>): real {
    if s == [] then 0.0 else SumXX(s[..|s| - 1]) + Product(s[|s| - 1].x, s[|s| - 1].x)
  }

  function Count(s: seq<Sample>): real {
    |s| as real
  }

  function Cofactor(n: real, sum: real, left: real, right: real): real {
    n * sum - left * right
  }

  function Denominator(s: seq<Sample>): real {
    Cofactor(Count(s), SumXX(s), SumX(s), SumX(s))
  }

  function Numerator(s: seq<Sample>): real {
    Cofactor(Count(s), SumXY(s), SumX(s), SumY(s))
  }

  function Slope(s: seq<Sample>): real
    requires Denominator(s) != 0.0
  {
    Numerator(s) / Denominator(s)
  }

  // ---------- sums over pairs ----------

  /** The sum over the samples p of s of (p.x - q.x) * (p.y - q.y). */
  function CrossWith(s: seq<Sample>, q: Sample): real {
    if s == [] then 0.0
    else CrossWith(s[..|s| - 1], q) + Product(s[|s| - 1].x - q.x, s[|s| - 1].y - q.y)
  }

  /** The sum over all pairs i < j of (x_i - x_j) * (y_i - y_j). */
  function PairCross(s: seq<Sample>): real {
    if s == [] then 0.0 else PairCross(s[..|s| - 1]) + CrossWith(s[..|s| - 1], s[|s| - 1])
  }

  /** The samples with y replaced by x. */
  function Diagonal(s: seq<Sample>): (d: seq<Sample>)
    ensures |d| == |s| && forall i | 0 <= i < |s| :: d[i] == Sample(s[i].x, s[i].x)
  {
    seq(|s|, i requires 0 <= i < |s| => Sample(s[i].x, s[i].x))
  }

  function CrossForm(n: real, sx: real, sy: real, sxy: real, q: Sample): real {
    sxy - q.y * sx - q.x * sy + n * (q.x * q.y)
  }

  lemma {:induction false} CrossExpansion(s: seq<Sample>, q: Sample)
    ensures CrossWith(s, q) == CrossForm(Count(s), SumX(s), SumY(s), SumXY(s), q)
  {
    if s == [] {
      assert CrossForm(0.0, 0.0, 0.0, 0.0, q) == 0.0;
    } else {
      var init, p := s[..|s| - 1], s[|s| - 1];
      CrossGrows(Count(init), SumX(init), SumY(init), SumXY(init), p, q);
      hide CrossForm, Product;
      CrossExpansion(init, q);
    }
  }

  lemma CrossGrows(n: real, sx: real, sy: real, sxy: real, p: Sample, q: Sample)
    ensures CrossForm(n + 1.0, sx + p.x, sy + p.y, sxy + Product(p.x, p.y), q) ==
            CrossForm(n, sx, sy, sxy, q) + Product(p.x - q.x, p.y - q.y)
  {
    ProductOfDifferences(p.x, q.x, p.y, q.y);
    Distribute(q.y, sx, p.x);
    Distribute(q.x, sy, p.y);
    Distribute(q.x * q.y, n, 1.0);
  }

  lemma ProductOfDifferences(a: real, b: real, c: real, d: real)
    ensures (a - b) * (c - d) == a * c - d * a - b * c + b * d
  {
    assert (a - b) * (c - d) == (a - b) * c - (a - b) * d;
  }

  lemma Distribute(k: real, a: real, b: real)
    ensures k * (a + b) == k * a + k * b
  {
  }

  /** Lagrange's identity for two sequences. */
  lemma {:induction false} NumeratorIsPairSum(s: seq<Sample>)
    ensures Numerator(s) == PairCross(s)
  {
    if s != [] {
      var init, q := s[..|s| - 1], s[|s| - 1];
      CrossExpansion(init, q);
      CofactorGrows(Count(init), SumX(init), SumY(init), SumXY(init), q);
      hide Cofactor, CrossForm, Product;
      NumeratorIsPairSum(init);
    }
  }

  lemma CofactorGrows(n: real, sx: real, sy: real, sxy: real, q: Sample)
    ensures Cofactor(n + 1.0, sxy + Product(q.x, q.y), sx + q.x, sy + q.y) ==
            Cofactor(n, sxy, sx, sy) + CrossForm(n, sx, sy, sxy, q)
  {
    var x, y := q.x, q.y;
    Distribute(n + 1.0, sxy, x * y);
    assert (sx + x) * (sy + y) == sx * sy + sx * y + x * sy + x * y;
    assert (n + 1.0) * sxy == n * sxy + sxy;
    assert (n + 1.0) * (x * y) == n * (x * y) + x * y;
  }

  lemma {:induction false} DiagonalSums(s: seq<Sample>)
    ensures var d := Diagonal(s);
            SumX(d) == SumX(s) && SumY(d) == SumX(s) && SumXY(d) == SumXX(s) && SumXX(d) == SumXX(s) && Count(d) == Count(s)
  {
    if s != [] {
      DiagonalSums(s[..|s| - 1]);
      assert Diagonal(s)[..|s| - 1] == Diagonal(s[..|s| - 1]);
    }
  }

  /** Lagrange's identity for the denominator: it is the sum over pairs of (x_i - x_j) squared. */
  lemma DenominatorIsPairSum(s: seq<Sample>)
    ensures Denominator(s) == PairCross(Diagonal(s))
  {
    DiagonalSums(s);
    NumeratorIsPairSum(Diagonal(s));
  }

  /** Over pairs that never go opposite ways, the pair sum is not negative (Chebyshev's sum inequality). */
  ghost predicate SameWay(s: seq<Sample>) {
    forall p, q | p in s && q in s :: p.x < q.x ==> p.y <= q.y
  }

  lemma {:induction false} CrossNonNegative(s: seq<Sample>, q: Sample)
    requires forall p | p in s :: 0.0 <= Product(p.x - q.x, p.y - q.y)
    ensures 0.0 <= CrossWith(s, q)
  {
    hide Product;
    if s != [] {
      var init, last := s[..|s| - 1], s[|s| - 1];
      assert s == init + [last];
      CrossNonNegative(init, q);
    }
  }

  lemma SameWayPair(p: Sample, q: Sample)
    requires (p.x < q.x ==> p.y <= q.y) && (q.x < p.x ==> q.y <= p.y)
    ensures 0.0 <= Product(p.x - q.x, p.y - q.y)
  {
    var dx, dy := p.x - q.x, p.y - q.y;
    if p.x < q.x {
      SignsCancel(dx, dy);
      NonNegativeProduct(-dx, -dy);
    } else if q.x < p.x {
      NonNegativeProduct(dx, dy);
    } else {
      assert Product(0.0, dy) == 0.0;
    }
  }

  lemma NonNegativeProduct(a: real, b: real)
    requires 0.0 <= a && 0.0 <= b
    ensures 0.0 <= Product(a, b)
  {
  }

  lemma {:induction false} PairsNonNegative(s: seq<Sample>)
    requires SameWay(s)
    ensures 0.0 <= PairCross(s)
  {
    if s != [] {
      var init, q := s[..|s| - 1], s[|s| - 1];
      assert s == init + [q];
      PairsNonNegative(init);
      hide Product;
      forall p | p in init ensures 0.0 <= Product(p.x - q.x, p.y - q.y) {
        assert p in s && q in s;
        SameWayPair(p, q);
      }
      CrossNonNegative(init, q);
    }
  }

  lemma DenominatorNonNegative(s: seq<Sample>)
    ensures 0.0 <= Denominator(s)
  {
    DenominatorIsPairSum(s);
    PairsNonNegative(Diagonal(s));
  }

  ghost predicate AllSameX(s: seq<Sample>) {
    forall i | 0 <= i < |s| :: s[i].x == s[0].x
  }

  /** The guard `denom == 0` is exactly the undefined case: all time stamps are equal. */
  lemma DenominatorZeroIff(s: seq<Sample>)
    ensures Denominator(s) == 0.0 <==> AllSameX(s)
  {
    DenominatorIsPairSum(s);
    PairZeroIff(s);
  }

  lemma {:induction false} PairZeroIff(s: seq<Sample>)
    ensures PairCross(Diagonal(s)) == 0.0 <==> AllSameX(s)
  {
    var d := Diagonal(s);
    hide Product;
    if s != [] {
      var init, q := s[..|s| - 1], d[|s| - 1];
      assert d[..|s| - 1] == Diagonal(init);
      PairZeroIff(init);
      PairsNonNegative(Diagonal(init));
      DiagonalCross(init, q.x);
      assert AllSameX(s) <==> AllSameX(init) && s[|s| - 1].x == s[0].x;
    }
  }

  /** A new time stamp adds nothing to the pair sum exactly when it equals all the earlier ones. */
  lemma {:induction false} DiagonalCross(s: seq<Sample>, x: real)
    ensures 0.0 <= CrossWith(Diagonal(s), Sample(x, x))
    ensures CrossWith(Diagonal(s), Sample(x, x)) == 0.0 <==> forall i | 0 <= i < |s| :: s[i].x == x
  {
    if s != [] {
      var init, last := s[..|s| - 1], s[|s| - 1];
      assert Diagonal(s)[..|s| - 1] == Diagonal(init);
      SquareNonNegative(last.x - x);
      assert Diagonal(s)[|s| - 1] == Sample(last.x, last.x);
      hide Product;
      DiagonalCross(init, x);
      assert (forall i | 0 <= i < |s| :: s[i].x == x) <==> last.x == x && forall i | 0 <= i < |init| :: init[i].x == x;
    }
  }

  lemma SquarePositive(a: real)
    requires a != 0.0
    ensures 0.0 < Product(a, a)
  {
    hide Product;
    if a < 0.0 {
      PositiveProduct(-a, -a);
      SignsCancel(a, a);
    } else {
      PositiveProduct(a, a);
    }
  }

  lemma PositiveProduct(a: real, b: real)
    requires 0.0 < a && 0.0 < b
    ensures 0.0 < Product(a, b)
  {
  }

  lemma SignsCancel(a: real, b: real)
    ensures Product(-a, -b) == Product(a, b)
  {
  }

  /** The samples with every x moved by c. */
  function Shifted(s: seq<Sample>, c: real): (d: seq<Sample>)
    ensures |d| == |s| && forall i | 0 <= i < |s| :: d[i] == Sample(s[i].x + c, s[i].y)
  {
    seq(|s|, i requires 0 <= i < |s| => Sample(s[i].x + c, s[i].y))
  }

  /** `t` is `s` with every x moved by c and every y by d. */
  ghost predicate Moved(s: seq<Sample>, t: seq<Sample>, c: real, d: real) {
    |s| == |t| && forall i | 0 <= i < |s| :: t[i] == Sample(s[i].x + c, s[i].y + d)
  }

  lemma {:induction false} CrossMoved(s: seq<Sample>, t: seq<Sample>, c: real, d: real, q: Sample)
    requires Moved(s, t, c, d)
    ensures CrossWith(t, Sample(q.x + c, q.y + d)) == CrossWith(s, q)
  {
    hide Product;
    if s != [] {
      CrossMoved(s[..|s| - 1], t[..|t| - 1], c, d, q);
      assert t[|t| - 1].x - (q.x + c) == s[|s| - 1].x - q.x && t[|t| - 1].y - (q.y + d) == s[|s| - 1].y - q.y;
    }
  }

  lemma {:induction false} PairsMoved(s: seq<Sample>, t: seq<Sample>, c: real, d: real)
    requires Moved(s, t, c, d)
    ensures PairCross(t) == PairCross(s)
  {
    hide CrossWith;
    if s != [] {
      PairsMoved(s[..|s| - 1], t[..|t| - 1], c, d);
      CrossMoved(s[..|s| - 1], t[..|t| - 1], c, d, s[|s| - 1]);
    }
  }

  /** The origin of time does not matter: moving every time stamp leaves both halves of the slope. */
  lemma ShiftInvariant(s: seq<Sample>, c: real)
    ensures Numerator(Shifted(s, c)) == Numerator(s) && Denominator(Shifted(s, c)) == Denominator(s)
  {
    hide Numerator, Denominator, PairCross;
    NumeratorIsPairSum(s);
    NumeratorIsPairSum(Shifted(s, c));
    DenominatorIsPairSum(s);
    DenominatorIsPairSum(Shifted(s, c));
    PairsMoved(s, Shifted(s, c), c, 0.0);
    PairsMoved(Diagonal(s), Diagonal(Shifted(s, c)), c, c);
  }

  // ---------- what the slope means ----------

  /** Usage that never falls along increasing time has a slope that is not negative. */
  lemma RisingSlope(s: seq<Sample>)
    requires SameWay(s) && Denominator(s) != 0.0
    ensures 0.0 <= Slope(s)
  {
    NumeratorIsPairSum(s);
    PairsNonNegative(s);
    DenominatorNonNegative(s);
  }

  /** k * u + l * v. */
  function Combine(k: real, u: real, l: real, v: real): real {
    k * u + l * v
  }

  lemma {:induction false} LinearSums(s: seq<Sample>, a: real, b: real)
    requires forall p | p in s :: p.y == a + b * p.x
    ensures SumY(s) == Combine(a, Count(s), b, SumX(s))
    ensures SumXY(s) == Combine(a, SumX(s), b, SumXX(s))
  {
    if s == [] {
      assert Combine(a, 0.0, b, 0.0) == 0.0;
    } else {
      var init, p := s[..|s| - 1], s[|s| - 1];
      assert s == init + [p] && p in s;
      LinearProduct(p.x, p.y, a, b);
      CombineGrows(a, Count(init), 1.0, b, SumX(init), p.x);
      CombineGrows(a, SumX(init), p.x, b, SumXX(init), Product(p.x, p.x));
      hide Combine, Product;
      LinearSums(init, a, b);
    }
  }

  lemma CombineGrows(k: real, u: real, du: real, l: real, v: real, dv: real)
    ensures Combine(k, u + du, l, v + dv) == Combine(k, u, l, v) + Combine(k, du, l, dv)
  {
  }

  lemma LinearProduct(x: real, y: real, a: real, b: real)
    requires y == a + b * x
    ensures y == Combine(a, 1.0, b, x) && Product(x, y) == Combine(a, x, b, Product(x, x))
  {
    assert x * y == x * a + x * (b * x);
  }

  lemma LinearNumerator(n: real, sx: real, sxx: real, a: real, b: real)
    ensures Cofactor(n, Combine(a, sx, b, sxx), sx, Combine(a, n, b, sx)) == b * Cofactor(n, sxx, sx, sx)
  {
    Distribute(n, a * sx, b * sxx);
    Distribute(sx, a * n, b * sx);
    assert n * (a * sx) == sx * (a * n);
    assert n * (b * sxx) == b * (n * sxx);
    assert sx * (b * sx) == b * (sx * sx);
  }

  lemma QuotientOf(p: real, q: real, b: real)
    requires q != 0.0 && p == b * q
    ensures p / q == b
  {
  }

  /** On usage that is exactly a + b * x the fitted slope is exactly b. */
  lemma LinearSlope(s: seq<Sample>, a: real, b: real)
    requires Denominator(s) != 0.0 && forall p | p in s :: p.y == a + b * p.x
    ensures Slope(s) == b
  {
    hide Cofactor, Combine, SumX, SumY, SumXY, SumXX;
    LinearSums(s, a, b);
    LinearNumerator(Count(s), SumX(s), SumXX(s), a, b);
    QuotientOf(Numerator(s), Denominator(s), b);
  }

  /** The sum of squared residuals of the line a + b * x. */
  function SquaredError(s: seq<Sample>, a: real, b: real): real {
    if s == [] then 0.0
    else
      var p := s[|s| - 1];
      SquaredError(s[..|s| - 1], a, b) + Square(Residual(p.x, p.y, a, b))
  }

  function Square(a: real): real {
    Product(a, a)
  }

  function Residual(x: real, y: real, a: real, b: real): real {
    y - a - b * x
  }

  function Intercept(s: seq<Sample>): real
    requires s != [] && Denominator(s) != 0.0
  {
    (SumY(s) - Slope(s) * SumX(s)) / Count(s)
  }

  /** The change of squared error when a line (a, b) is moved by (da, db), in terms of the sums. */
  function Rise(n: real, sx: real, sy: real, sxy: real, sxx: real, a: real, b: real, da: real, db: real): real {
    n * (da * da) + 2.0 * (da * db) * sx + (db * db) * sxx
    - 2.0 * da * (sy - n * a - b * sx) - 2.0 * db * (sxy - a * sx - b * sxx)
  }

  lemma {:induction false} ErrorShift(s: seq<Sample>, a: real, b: real, da: real, db: real)
    ensures SquaredError(s, a + da, b + db) - SquaredError(s, a, b) ==
            Rise(Count(s), SumX(s), SumY(s), SumXY(s), SumXX(s), a, b, da, db)
  {
    if s == [] {
      ZeroRise(a, b, da, db);
    } else {
      var init, p := s[..|s| - 1], s[|s| - 1];
      ResidualShift(p.x, p.y, a, b, da, db);
      ShiftGrows(Count(init), SumX(init), SumY(init), SumXY(init), SumXX(init), p.x, p.y, a, b, da, db);
      hide Rise, Residual, Product, Square;
      ErrorShift(init, a, b, da, db);
    }
  }

  lemma ZeroRise(a: real, b: real, da: real, db: real)
    ensures Rise(0.0, 0.0, 0.0, 0.0, 0.0, a, b, da, db) == 0.0
  {
  }

  lemma ResidualShift(x: real, y: real, a: real, b: real, da: real, db: real)
    ensures Square(Residual(x, y, a + da, b + db)) - Square(Residual(x, y, a, b)) ==
            Rise(1.0, x, y, Product(x, y), Product(x, x), a, b, da, db)
  {
    var r := y - a - b * x;
    var d := da + db * x;
    Distribute(x, b, db);
    assert y - (a + da) - (b + db) * x == r - d;
    assert (r - d) * (r - d) == r * r - 2.0 * (d * r) + d * d;
    assert d * d == da * da + 2.0 * (da * (db * x)) + (db * x) * (db * x);
    assert (db * x) * (db * x) == (db * db) * (x * x);
    assert da * (db * x) == (da * db) * x;
    assert d * r == da * r + db * (x * r);
    assert x * r == x * y - a * x - b * (x * x);
  }

  lemma ShiftGrows(n: real, sx: real, sy: real, sxy: real, sxx: real, x: real, y: real,
                   a: real, b: real, da: real, db: real)
    ensures Rise(n + 1.0, sx + x, sy + y, sxy + Product(x, y), sxx + Product(x, x), a, b, da, db) ==
            Rise(n, sx, sy, sxy, sxx, a, b, da, db) + Rise(1.0, x, y, Product(x, y), Product(x, x), a, b, da, db)
  {
    Distribute(da * da, n, 1.0);
    Distribute(2.0 * (da * db), sx, x);
    Distribute(db * db, sxx, x * x);
    Distribute(a, n, 1.0);
    Distribute(b, sx, x);
    Distribute(a, sx, x);
    Distribute(b, sxx, x * x);
    Distribute(2.0 * da, sy - n * a - b * sx, y - a - b * x);
    Distribute(2.0 * db, sxy - a * sx - b * sxx, x * y - a * x - b * (x * x));
  }

  /** The normal equations hold at the fitted line. */
  lemma NormalEquations(n: real, sx: real, sy: real, sxy: real, sxx: real, b: real, a: real)
    requires 0.0 < n && n * sxx - sx * sx != 0.0
    requires b == (n * sxy - sx * sy) / (n * sxx - sx * sx) && a == (sy - b * sx) / n
    ensures sy - n * a - b * sx == 0.0 && sxy - a * sx - b * sxx == 0.0
  {
    assert n * a == sy - b * sx;
    assert b * (n * sxx - sx * sx) == n * sxy - sx * sy;
    var r := sxy - a * sx - b * sxx;
    NormalSecond(n, sx, sy, sxy, sxx, b, a);
    if r != 0.0 { ProductNonZero(n, r); }
  }

  lemma NormalSecond(n: real, sx: real, sy: real, sxy: real, sxx: real, b: real, a: real)
    requires n * a == sy - b * sx && b * (n * sxx - sx * sx) == n * sxy - sx * sy
    ensures n * (sxy - a * sx - b * sxx) == 0.0
  {
    assert n * (sxy - a * sx - b * sxx) == n * sxy - (n * a) * sx - b * (n * sxx);
    assert (sy - b * sx) * sx == sx * sy - b * (sx * sx);
    assert b * (n * sxx - sx * sx) == b * (n * sxx) - b * (sx * sx);
  }

  lemma ProductNonZero(a: real, b: real)
    requires a != 0.0 && b != 0.0
    ensures a * b != 0.0
  {
  }

  /** The fitted line is the line of least squared error, and it is the only one. */
  lemma FittedLineIsBest(s: seq<Sample>, a: real, b: real)
    requires s != [] && Denominator(s) != 0.0
    ensures SquaredError(s, Intercept(s), Slope(s)) <= SquaredError(s, a, b)
    ensures SquaredError(s, a, b) == SquaredError(s, Intercept(s), Slope(s)) ==> a == Intercept(s) && b == Slope(s)
  {
    hide Rise, Cofactor, SquaredError, SumX, SumY, SumXX, SumXY;
    var a0, b0 := Intercept(s), Slope(s);
    assert a0 + (a - a0) == a && b0 + (b - b0) == b;
    ErrorShift(s, a0, b0, a - a0, b - b0);
    DenominatorNonNegative(s);
    BestAlgebra(Count(s), SumX(s), SumY(s), SumXY(s), SumXX(s), a0, b0, a - a0, b - b0);
  }

  lemma BestAlgebra(n: real, sx: real, sy: real, sxy: real, sxx: real, a: real, b: real, da: real, db: real)
    requires 0.0 < n && 0.0 < Cofactor(n, sxx, sx, sx)
    requires b == Cofactor(n, sxy, sx, sy) / Cofactor(n, sxx, sx, sx) && a == (sy - b * sx) / n
    ensures 0.0 <= Rise(n, sx, sy, sxy, sxx, a, b, da, db)
    ensures Rise(n, sx, sy, sxy, sxx, a, b, da, db) == 0.0 ==> da == 0.0 && db == 0.0
  {
    NormalEquations(n, sx, sy, sxy, sxx, b, a);
    PositiveForm(n, sx, sxx, da, db);
  }

  lemma PositiveForm(n: real, sx: real, sxx: real, da: real, db: real)
    requires 0.0 < n && 0.0 < n * sxx - sx * sx
    ensures 0.0 <= n * (da * da) + 2.0 * (da * db) * sx + (db * db) * sxx
    ensures n * (da * da) + 2.0 * (da * db) * sx + (db * db) * sxx == 0.0 ==> da == 0.0 && db == 0.0
  {
    var form := n * (da * da) + 2.0 * (da * db) * sx + (db * db) * sxx;
    CompleteSquare(n, sx, sxx, da, db);
    SquareNonNegative(n * da + db * sx);
    SquareNonNegative(da);
    SquareNonNegative(db);
    if db != 0.0 {
      PositiveTimes(db * db, n * sxx - sx * sx);
      PositiveFactor(n, form);
    } else if da != 0.0 {
      PositiveTimes(n, da * da);
    }
  }

  lemma PositiveTimes(a: real, b: real)
    requires 0.0 < a && 0.0 < b
    ensures 0.0 < a * b
  {
  }

  lemma PositiveFactor(n: real, x: real)
    requires 0.0 < n && 0.0 < n * x
    ensures 0.0 < x
  {
    if x < 0.0 { NegativeTimes(n, x); }
  }

  lemma NegativeTimes(n: real, x: real)
    requires 0.0 < n && x < 0.0
    ensures n * x < 0.0
  {
  }

  lemma SquareNonNegative(a: real)
    ensures 0.0 <= Product(a, a)
    ensures Product(a, a) == 0.0 <==> a == 0.0
  {
    if a != 0.0 { SquarePositive(a); }
  }

  lemma CompleteSquare(n: real, sx: real, sxx: real, da: real, db: real)
    ensures n * (n * (da * da) + 2.0 * (da * db) * sx + (db * db) * sxx)
            == (n * da + db * sx) * (n * da + db * sx) + (db * db) * (n * sxx - sx * sx)
  {
    var p, q := n * da, db * sx;
    assert (p + q) * (p + q) == p * p + 2.0 * (p * q) + q * q;
    assert p * p == n * (n * (da * da));
    assert p * q == n * ((da * db) * sx);
    assert q * q == (db * db) * (sx * sx);
    assert (db * db) * (n * sxx - sx * sx) == n * ((db * db) * sxx) - (db * db) * (sx * sx);
  }
}
