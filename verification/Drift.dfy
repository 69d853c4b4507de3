/** The rate refinement's least-squares fit of lag against position over the longest smooth run. */
module Drift {
  import opened Seqs
  import opened Windows
  import opened Runs

  const SMOOTH_FRAMES: nat := 25
  const MIN_RUN: nat := 4

  datatype Slope = Unknown | Slope(value: real)

  function X(w: Window): real { w.start as real }

  function Y(w: Window): real { w.lag as real }

  // The sums the loop keeps.

  function SumX(r: seq<Window>): real { if r == [] then 0.0 else SumX(r[..|r| - 1]) + X(Last(r)) }

  function SumY(r: seq<Window>): real { if r == [] then 0.0 else SumY(r[..|r| - 1]) + Y(Last(r)) }

  function SumXX(r: seq<Window>): real { if r == [] then 0.0 else SumXX(r[..|r| - 1]) + X(Last(r)) * X(Last(r)) }

  function SumXY(r: seq<Window>): real { if r == [] then 0.0 else SumXY(r[..|r| - 1]) + X(Last(r)) * Y(Last(r)) }

  function Count(r: seq<Window>): real { |r| as real }

  /** The sums one window on. */
  lemma SumsGrow(r: seq<Window>)
    requires r != []
    ensures var init, x, y := r[..|r| - 1], X(Last(r)), Y(Last(r));
            && Count(r) == Count(init) + 1.0 && Count(init) >= 0.0
            && SumX(r) == SumX(init) + x && SumXX(r) == SumXX(init) + x * x
            && SumY(r) == SumY(init) + y && SumXY(r) == SumXY(init) + x * y
  {}

  lemma SumsOfNothing()
    ensures Count([]) == SumX([]) == SumY([]) == SumXX([]) == SumXY([]) == 0.0
  {}

  function Den(r: seq<Window>): real { Count(r) * SumXX(r) - SumX(r) * SumX(r) }

  function Num(r: seq<Window>): real { Count(r) * SumXY(r) - SumX(r) * SumY(r) }

  /** The first of the longest runs. */
  function Longest(rs: seq<Run>): seq<Window> {
    if rs == [] then [] else Longer(Longest(rs[..|rs| - 1]), Last(rs))
  }

  function Longer(best: seq<Window>, r: seq<Window>): seq<Window> { if |r| > |best| then r else best }

  lemma {:induction false} LongestIsFirstLongest(rs: seq<Run>) returns (i: nat)
    requires rs != []
    ensures i < |rs| && rs[i] == Longest(rs)
    ensures forall j :: 0 <= j < |rs| ==> |rs[j]| <= |rs[i]|
    ensures forall j :: 0 <= j < i ==> |rs[j]| < |rs[i]|
  {
    var init, r := rs[..|rs| - 1], Last(rs);
    if init == [] {
      i := 0;
      assert Longest(init) == [];
    } else {
      i := LongestIsFirstLongest(init);
      if |r| > |init[i]| { i := |init|; }
    }
  }

  /** The run the drift is read from. */
  function DriftRun(ws: seq<Window>): seq<Window> { Longest(Group(Confident(ws), SMOOTH_FRAMES)) }

  function SlopeOf(r: seq<Window>): Slope {
    if |r| < MIN_RUN || Den(r) == 0.0 then Unknown else Slope(Num(r) / Den(r))
  }

  method DriftSlope(ws: seq<Window>) returns (s: Slope)
    ensures s == SlopeOf(DriftRun(ws))
  {
    var bestRun: seq<Window>, run: seq<Window> := [], [];
    ghost var done: seq<Run> := [];
    for i := 0 to |ws|
      invariant run == [] ==> done == []
      invariant Group(Confident(ws[..i]), SMOOTH_FRAMES) == Open(done, run)
      invariant bestRun == Longest(done)
    {
      assert ws[..i + 1][..i] == ws[..i];
      var w := ws[i];
      if !w.confident {
        assert Confident(ws[..i + 1]) == Confident(ws[..i]);
        continue;
      }
      assert Confident(ws[..i + 1]) == Confident(ws[..i]) + [w];
      GroupSnoc(Confident(ws[..i]), w, SMOOTH_FRAMES);
      OpenGrows(done, run, w, SMOOTH_FRAMES);
      if |run| > 0 && Abs(w.lag - run[|run| - 1].lag) > SMOOTH_FRAMES {
        if |run| > |bestRun| {
          bestRun := run;
        }
        LongestSnoc(done, run);
        done := done + [run];
        run := [];
        assert run + [w] == [w];
      }
      run := run + [w];
    }
    assert ws[..|ws|] == ws;
    if |run| > |bestRun| {
      bestRun := run;
    }
    if run != [] { LongestSnoc(done, run); }
    s := FitLine(bestRun);
  }

  lemma LongestSnoc(rs: seq<Run>, r: Run)
    ensures Longest(rs + [r]) == Longer(Longest(rs), r)
  {
    assert (rs + [r])[..|rs|] == rs;
  }

  /** The fit over the run chosen. */
  method FitLine(bestRun: seq<Window>) returns (s: Slope)
    ensures s == SlopeOf(bestRun)
  {
    SumsOfNothing();
    hide SumX, SumY, SumXX, SumXY;
    if |bestRun| < MIN_RUN {
      return Unknown;
    }
    var sx, sy, sxx, sxy := 0.0, 0.0, 0.0, 0.0;
    var n := |bestRun| as real;
    for i := 0 to |bestRun|
      invariant sx == SumX(bestRun[..i]) && sy == SumY(bestRun[..i])
      invariant sxx == SumXX(bestRun[..i]) && sxy == SumXY(bestRun[..i])
    {
      assert bestRun[..i + 1][..i] == bestRun[..i];
      SumsGrow(bestRun[..i + 1]);
      var x, y := bestRun[i].start as real, bestRun[i].lag as real;
      sx, sy, sxx, sxy := sx + x, sy + y, sxx + x * x, sxy + x * y;
    }
    assert bestRun[..|bestRun|] == bestRun;
    var den := n * sxx - sx * sx;
    if den == 0.0 {
      return Unknown;
    }
    s := Slope((n * sxy - sx * sy) / den);
  }

  // The denominator.

  function Sq(e: real): real { e * e }

  /** The sum of (x - X(w))^2 over r. */
  function Spread(r: seq<Window>, x: real): real {
    if r == [] then 0.0 else Spread(r[..|r| - 1], x) + Sq(x - X(Last(r)))
  }

  /** The same sum from the count, the sum and the sum of squares. */
  function SpreadSums(n: real, sx: real, sxx: real, x: real): real { sxx - 2.0 * (x * sx) + n * (x * x) }

  lemma {:induction false} SpreadExpanded(r: seq<Window>, x: real)
    ensures Spread(r, x) == SpreadSums(Count(r), SumX(r), SumXX(r), x)
  {
    hide SumX, SumXX, Count, X, Y, Sq, SpreadSums;
    if r == [] {
      SumsOfNothing();
      NoSpread(x);
    } else {
      var init, y := r[..|r| - 1], X(Last(r));
      SumsGrow(r);
      assert SumX(r) == SumX(init) + y && SumXX(r) == SumXX(init) + y * y && Count(r) == Count(init) + 1.0;
      SpreadExpanded(init, x);
      SpreadStep(Count(init), SumX(init), SumXX(init), x, y);
    }
  }

  lemma NoSpread(x: real)
    ensures SpreadSums(0.0, 0.0, 0.0, x) == 0.0
  {}

  lemma SpreadStep(n: real, sx: real, sxx: real, x: real, y: real)
    ensures SpreadSums(n + 1.0, sx + y, sxx + y * y, x) == SpreadSums(n, sx, sxx, x) + Sq(x - y)
  {
    assert x * (sx + y) == x * sx + x * y;
    assert (n + 1.0) * (x * x) == n * (x * x) + x * x;
    assert Sq(x - y) == x * x - 2.0 * (x * y) + y * y;
  }

  lemma {:induction false} SpreadPositive(r: seq<Window>, x: real)
    requires forall i :: 0 <= i < |r| ==> X(r[i]) < x
    ensures Spread(r, x) >= 0.0 && (r != [] ==> Spread(r, x) > 0.0)
  {
    hide Sq;
    if r != [] {
      SpreadPositive(r[..|r| - 1], x);
      SquarePositive(x - X(Last(r)));
    }
  }

  lemma GrownDen(n: real, sx: real, sxx: real, x: real)
    ensures (n + 1.0) * (sxx + x * x) - (sx + x) * (sx + x) == (n * sxx - sx * sx) + SpreadSums(n, sx, sxx, x)
  {
    assert (n + 1.0) * (sxx + x * x) == n * sxx + n * (x * x) + sxx + x * x;
    assert (sx + x) * (sx + x) == sx * sx + 2.0 * (x * sx) + x * x;
  }

  lemma SquarePositive(d: real)
    requires d > 0.0
    ensures Sq(d) > 0.0
  {
    calc { 0.0; < d * d; == Sq(d); }
  }

  /** Windows at two or more places: the least-squares denominator is positive. */
  lemma {:induction false} DenPositive(r: seq<Window>)
    requires Increasing(r)
    ensures Den(r) >= 0.0 && (|r| >= 2 ==> Den(r) > 0.0)
  {
    if r == [] {
      SumsOfNothing();
    } else {
      var init, x := r[..|r| - 1], X(Last(r));
      DenPositive(init);
      SpreadPositive(init, x);
      hide *;
      DenGrows(r);
    }
  }

  lemma DenGrows(r: seq<Window>)
    requires r != []
    ensures Den(r) == Den(r[..|r| - 1]) + Spread(r[..|r| - 1], X(Last(r)))
  {
    hide SumX, SumXX, Count, X, Spread;
    var init, x := r[..|r| - 1], X(Last(r));
    SumsGrow(r);
    SpreadExpanded(init, x);
    GrownDen(Count(init), SumX(init), SumXX(init), x);
  }

  /** With increasing starts the fit is known exactly from four windows on. */
  lemma SlopeKnown(ws: seq<Window>)
    requires Increasing(ws)
    ensures SlopeOf(DriftRun(ws)).Slope? <==> |DriftRun(ws)| >= MIN_RUN
  {
    hide Den;
    ConfidentIncreasing(ws);
    var rs := Group(Confident(ws), SMOOTH_FRAMES);
    GroupInOrder(Confident(ws), SMOOTH_FRAMES);
    if rs != [] {
      var _ := LongestIsFirstLongest(rs);
      DenPositive(DriftRun(ws));
    }
  }

  // What the fit means.

  lemma {:induction false} OnLineSums(r: seq<Window>, a: real, m: real)
    requires forall i :: 0 <= i < |r| ==> Y(r[i]) == a + m * X(r[i])
    ensures SumY(r) == Count(r) * a + m * SumX(r)
    ensures SumXY(r) == a * SumX(r) + m * SumXX(r)
  {
    hide SumX, SumXX, SumY, SumXY, Count, X, Y;
    if r == [] {
      SumsOfNothing();
    } else {
      var init, x := r[..|r| - 1], X(Last(r));
      SumsGrow(r);
      OnLineSums(init, a, m);
      assert Y(Last(r)) == a + m * x;
      OnLineStep(Count(init), SumX(init), SumXX(init), x, a, m);
    }
  }

  lemma OnLineStep(n: real, sx: real, sxx: real, x: real, a: real, m: real)
    ensures (n * a + m * sx) + (a + m * x) == (n + 1.0) * a + m * (sx + x)
    ensures (a * sx + m * sxx) + x * (a + m * x) == a * (sx + x) + m * (sxx + x * x)
  {}

  /** Lags exactly on a line: the slope is the line's. */
  lemma LineSlope(r: seq<Window>, a: real, m: real)
    requires Increasing(r) && |r| >= MIN_RUN
    requires forall i :: 0 <= i < |r| ==> Y(r[i]) == a + m * X(r[i])
    ensures SlopeOf(r) == Slope(m)
  {
    hide SumX, SumXX, SumY, SumXY, Count, X, Y;
    DenPositive(r);
    OnLineSums(r, a, m);
    LineNumerator(Count(r), SumX(r), SumXX(r), a, m);
    var den := Den(r);
    assert Num(r) == m * den;
    hide Den, Num;
    assert (m * den) / den == m;
  }

  lemma LineNumerator(n: real, sx: real, sxx: real, a: real, m: real)
    ensures n * (a * sx + m * sxx) - sx * (n * a + m * sx) == m * (n * sxx - sx * sx)
  {}

  /** How far the window lies off the line y = c + m x. */
  function Err(w: Window, c: real, m: real): real { Y(w) - c - m * X(w) }

  /** The squared error of the line y = c + m x over r. */
  function Residual(r: seq<Window>, c: real, m: real): real {
    if r == [] then 0.0 else Residual(r[..|r| - 1], c, m) + Sq(Err(Last(r), c, m))
  }

  /** (u + v x)^2, and its sum over r. */
  function Offset(x: real, u: real, v: real): real { u * u + 2.0 * ((u * v) * x) + (v * v) * (x * x) }

  function OffsetSquares(r: seq<Window>, u: real, v: real): real {
    Count(r) * (u * u) + 2.0 * ((u * v) * SumX(r)) + (v * v) * SumXX(r)
  }

  /** Moving the line by u + v x changes the error by that offset's square, less twice its product with the errors. */
  lemma {:induction false} ResidualMoved(r: seq<Window>, c: real, m: real, u: real, v: real)
    ensures Residual(r, c + u, m + v) == Residual(r, c, m) + OffsetSquares(r, u, v) - 2.0 * Cross(r, c, m, u, v)
  {
    if r == [] {
      MovedNothing(c, m, u, v);
    } else {
      ResidualGrows(r, c, m);
      ResidualGrows(r, c + u, m + v);
      hide *;
      ResidualMoved(r[..|r| - 1], c, m, u, v);
      MovedTerm(Last(r), c, m, u, v);
      MovedSums(r, u, v);
      CrossGrows(r, c, m, u, v);
    }
  }

  lemma MovedNothing(c: real, m: real, u: real, v: real)
    ensures OffsetSquares([], u, v) == Cross([], c, m, u, v) == 0.0
  {
    SumsOfNothing();
    assert SumError([], c, m) == 0.0 && SumWeightedError([], c, m) == 0.0;
  }

  lemma ResidualGrows(r: seq<Window>, c: real, m: real)
    requires r != []
    ensures Residual(r, c, m) == Residual(r[..|r| - 1], c, m) + Sq(Err(Last(r), c, m))
  {}

  /** The errors of the line y = c + m x over r, summed plainly and weighted by x. */
  function SumError(r: seq<Window>, c: real, m: real): real { SumY(r) - Count(r) * c - m * SumX(r) }

  function SumWeightedError(r: seq<Window>, c: real, m: real): real { SumXY(r) - c * SumX(r) - m * SumXX(r) }

  lemma MovedTerm(w: Window, c: real, m: real, u: real, v: real)
    ensures Sq(Err(w, c + u, m + v)) == Sq(Err(w, c, m)) + Offset(X(w), u, v) - 2.0 * CrossTerm(w, c, m, u, v)
  {
    var x, e := X(w), Err(w, c, m);
    var d := u + v * x;
    assert Err(w, c + u, m + v) == e - d;
    hide X, Y, Err;
    assert (e - d) * (e - d) == e * e - 2.0 * (e * d) + d * d;
    SquareOfOffset(x, u, v);
    assert e * d == u * e + v * (x * e);
  }

  lemma SquareOfOffset(x: real, u: real, v: real)
    ensures (u + v * x) * (u + v * x) == Offset(x, u, v)
  {
    var t := v * x;
    assert (u + t) * (u + t) == u * u + 2.0 * (u * t) + t * t;
    assert t * t == (v * v) * (x * x);
    assert u * t == (u * v) * x;
  }

  lemma MovedSums(r: seq<Window>, u: real, v: real)
    requires r != []
    ensures OffsetSquares(r, u, v) == OffsetSquares(r[..|r| - 1], u, v) + Offset(X(Last(r)), u, v)
  {
    hide SumX, SumXX, Count, X, Y;
    SumsGrow(r);
    var init, x := r[..|r| - 1], X(Last(r));
    SplitTerms(Count(init), u * u, u * v, v * v, SumX(init), SumXX(init), x);
  }

  lemma SplitTerms(n: real, uu: real, uv: real, vv: real, sx: real, sxx: real, x: real)
    ensures (n + 1.0) * uu == n * uu + uu
    ensures uv * (sx + x) == uv * sx + uv * x
    ensures vv * (sxx + x * x) == vv * sxx + vv * (x * x)
  {}

  /** The offset u + v x times the errors, over r and for one window. */
  function Cross(r: seq<Window>, c: real, m: real, u: real, v: real): real {
    u * SumError(r, c, m) + v * SumWeightedError(r, c, m)
  }

  function CrossTerm(w: Window, c: real, m: real, u: real, v: real): real {
    u * Err(w, c, m) + v * (X(w) * Err(w, c, m))
  }

  lemma CrossGrows(r: seq<Window>, c: real, m: real, u: real, v: real)
    requires r != []
    ensures Cross(r, c, m, u, v) == Cross(r[..|r| - 1], c, m, u, v) + CrossTerm(Last(r), c, m, u, v)
  {
    hide SumError, SumWeightedError, Err, X;
    ErrorGrows(r, c, m);
    var init, e, xe := r[..|r| - 1], Err(Last(r), c, m), X(Last(r)) * Err(Last(r), c, m);
    assert u * (SumError(init, c, m) + e) == u * SumError(init, c, m) + u * e;
    assert v * (SumWeightedError(init, c, m) + xe) == v * SumWeightedError(init, c, m) + v * xe;
  }

  lemma ErrorGrows(r: seq<Window>, c: real, m: real)
    requires r != []
    ensures var init, w := r[..|r| - 1], Last(r);
            && SumError(r, c, m) == SumError(init, c, m) + Err(w, c, m)
            && SumWeightedError(r, c, m) == SumWeightedError(init, c, m) + X(w) * Err(w, c, m)
  {
    hide SumX, SumXX, SumY, SumXY, Count, X, Y;
    SumsGrow(r);
    var init, x, y := r[..|r| - 1], X(Last(r)), Y(Last(r));
    SplitErrors(Count(init), SumX(init), SumXX(init), x, y, c, m);
  }

  lemma SplitErrors(n: real, sx: real, sxx: real, x: real, y: real, c: real, m: real)
    ensures (n + 1.0) * c == n * c + c
    ensures m * (sx + x) == m * sx + m * x
    ensures c * (sx + x) == c * sx + c * x
    ensures m * (sxx + x * x) == m * sxx + m * (x * x)
    ensures x * (y - c - m * x) == x * y - c * x - m * (x * x)
  {}

  lemma OffsetSquaresNonnegative(r: seq<Window>, u: real, v: real)
    requires Increasing(r) && r != []
    ensures OffsetSquares(r, u, v) >= 0.0
  {
    hide SumX, SumXX, X;
    DenPositive(r);
    CompleteSquare(Count(r), SumX(r), SumXX(r), u, v);
    NonnegativeOver(Count(r), OffsetSquares(r, u, v), Count(r) * u + v * SumX(r), v, Den(r));
  }

  lemma NonnegativeOver(n: real, q: real, d: real, v: real, den: real)
    requires n > 0.0 && den >= 0.0 && n * q == d * d + (v * v) * den
    ensures q >= 0.0
  {
    assert d * d >= 0.0 && v * v >= 0.0;
    assert (v * v) * den >= 0.0;
    var p := -q;
    assert p > 0.0 ==> n * p > 0.0;
    assert n * p == -(n * q);
  }

  lemma CompleteSquare(n: real, sx: real, sxx: real, u: real, v: real)
    ensures n * (n * (u * u) + 2.0 * ((u * v) * sx) + (v * v) * sxx)
         == (n * u + v * sx) * (n * u + v * sx) + (v * v) * (n * sxx - sx * sx)
  {
    var a, b := n * u, v * sx;
    assert (a + b) * (a + b) == a * a + 2.0 * (a * b) + b * b;
    assert a * a == n * (n * (u * u));
    assert a * b == n * ((u * v) * sx);
    assert b * b == (v * v) * (sx * sx);
    assert (v * v) * (n * sxx - sx * sx) == (v * v) * (n * sxx) - (v * v) * (sx * sx);
    assert (v * v) * (n * sxx) == n * ((v * v) * sxx);
  }

  /** The intercept that puts the line of slope m through the means. */
  function Intercept(r: seq<Window>, m: real): real
    requires r != []
  {
    (SumY(r) - m * SumX(r)) / Count(r)
  }

  /** The slope returned is the least-squares one: with the intercept through the means, no line
      fits the run's lags with a smaller squared error. */
  lemma SlopeIsLeastSquares(r: seq<Window>, c: real, m: real)
    requires Increasing(r) && SlopeOf(r).Slope?
    ensures var best := SlopeOf(r).value;
            Residual(r, Intercept(r, best), best) <= Residual(r, c, m)
  {
    hide SumX, SumXX, SumY, SumXY, X, Y, Residual;
    var best := SlopeOf(r).value;
    var b := Intercept(r, best);
    assert best * Den(r) == Num(r);
    assert b * Count(r) == SumY(r) - best * SumX(r);
    NormalEquations(Count(r), SumX(r), SumY(r), SumXX(r), SumXY(r), best, b);
    assert SumError(r, b, best) == 0.0 && SumWeightedError(r, b, best) == 0.0;
    assert r != [];
    LowestAt(r, b, best, c, m);
  }

  /** A line whose errors sum to nothing, plainly and weighted, is the least-squares one. */
  lemma LowestAt(r: seq<Window>, b: real, best: real, c: real, m: real)
    requires Increasing(r) && r != []
    requires SumError(r, b, best) == 0.0 && SumWeightedError(r, b, best) == 0.0
    ensures Residual(r, b, best) <= Residual(r, c, m)
  {
    hide *;
    ResidualMoved(r, b, best, c - b, m - best);
    OffsetSquaresNonnegative(r, c - b, m - best);
    assert b + (c - b) == c && best + (m - best) == m;
    NoCross(r, b, best, c - b, m - best);
  }

  lemma NoCross(r: seq<Window>, b: real, best: real, u: real, v: real)
    requires SumError(r, b, best) == 0.0 && SumWeightedError(r, b, best) == 0.0
    ensures Cross(r, b, best, u, v) == 0.0
  {
    hide SumError, SumWeightedError;
  }

  lemma NormalEquations(n: real, sx: real, sy: real, sxx: real, sxy: real, best: real, b: real)
    requires n > 0.0 && best * (n * sxx - sx * sx) == n * sxy - sx * sy && b * n == sy - best * sx
    ensures sy - n * b - best * sx == 0.0
    ensures sxy - b * sx - best * sxx == 0.0
  {
    var z := sxy - b * sx - best * sxx;
    assert n * z == n * sxy - (b * n) * sx - best * (n * sxx);
    assert (b * n) * sx == sy * sx - best * (sx * sx);
    assert best * (n * sxx - sx * sx) == best * (n * sxx) - best * (sx * sx);
    NonzeroFactor(n, z);
  }

  lemma NonzeroFactor(n: real, z: real)
    requires n > 0.0 && n * z == 0.0
    ensures z == 0.0
  {}
}
