/** Fitting a panel's layout to the buttons already on it, one axis at a time
    (`tools/rigexec_control_surface.py`), over exact arithmetic. */
module LeastSquares {
  import opened Options
  import opened Reals

  /** A world coordinate and the panel coordinate of the button for it. */
  datatype Sample = Sample(world: real, panel: real)

  datatype Line = Line(scale: real, offset: real)

  /** The sums a fit is computed from. */
  datatype Sums = Sums(n: real, x: real, y: real, xx: real, xy: real)

  function SumsOf(samples: seq<Sample>): (s: Sums)
    ensures s.n == |samples| as real
  {
    if samples == [] then Sums(0.0, 0.0, 0.0, 0.0, 0.0)
    else
      var s, last := SumsOf(samples[..|samples| - 1]), samples[|samples| - 1];
      Add(s, last)
  }

  function Add(s: Sums, p: Sample): Sums {
    Sums(s.n + 1.0, s.x + p.world, s.y + p.panel, s.xx + p.world * p.world, s.xy + p.world * p.panel)
  }

  /** How far off a line a sample is. */
  function Residual(p: Sample, line: Line): real {
    p.panel - (line.scale * p.world + line.offset)
  }

  function Denominator(s: Sums): real {
    s.n * s.xx - s.x * s.x
  }

  const TINY := 0.000000001

  function Fit(samples: seq<Sample>): Option<Line> {
    var s := SumsOf(samples);
    if |samples| < 3 || -TINY < Denominator(s) < TINY then None
    else
      var scale := (s.n * s.xy - s.x * s.y) / Denominator(s);
      Some(Line(scale, (s.y - scale * s.x) / s.n))
  }

  /** The sum of the squared distances of the samples from a line. */
  function Error(samples: seq<Sample>, line: Line): real {
    if samples == [] then 0.0
    else
      var last := samples[|samples| - 1];
      Error(samples[..|samples| - 1], line) + Square(Residual(last, line))
  }

  /** The error of a line in terms of its differences from another. */
  function Excess(s: Sums, ds: real, dc: real): real {
    s.xx * ds * ds + 2.0 * s.x * ds * dc + s.n * dc * dc
  }

  /** How far a line is from meeting the normal equations. */
  function Slope(s: Sums, line: Line): real {
    s.xy - (line.scale * s.xx + line.offset * s.x)
  }

  function Level(s: Sums, line: Line): real {
    s.y - (line.scale * s.x + line.offset * s.n)
  }

  /** The first-order change of the error, up to a factor. */
  function Tilt(s: Sums, line: Line, ds: real, dc: real): real {
    ds * Slope(s, line) + dc * Level(s, line)
  }

  /** Taylor expansion of the error around a line: exact, since it is quadratic. */
  lemma {:induction false} ErrorExpands(samples: seq<Sample>, line: Line, other: Line)
    ensures
      var s, ds, dc := SumsOf(samples), other.scale - line.scale, other.offset - line.offset;
      Error(samples, other) ==
        Error(samples, line) - 2.0 * Tilt(s, line, ds, dc) + Excess(s, ds, dc)
  {
    hide Square, Slope, Level, Tilt, Excess, Add, Residual;
    if samples == [] {
      NoSamples(line, other.scale - line.scale, other.offset - line.offset);
    } else {
      var last, rest := samples[|samples| - 1], samples[..|samples| - 1];
      ErrorExpands(rest, line, other);
      OneSample(SumsOf(rest), last, line, other);
    }
  }

  lemma NoSamples(line: Line, ds: real, dc: real)
    ensures Tilt(SumsOf([]), line, ds, dc) == 0.0 && Excess(SumsOf([]), ds, dc) == 0.0
  {}

  /** One sample's share of the expansion. */
  lemma OneSample(s: Sums, p: Sample, line: Line, other: Line)
    ensures
      var t, ds, dc := Add(s, p), other.scale - line.scale, other.offset - line.offset;
      Square(Residual(p, other)) - Square(Residual(p, line)) ==
        (Excess(t, ds, dc) - Excess(s, ds, dc)) - 2.0 * (Tilt(t, line, ds, dc) - Tilt(s, line, ds, dc))
  {
    hide Add, Residual, Square, Excess, Slope, Level;
    var t, ds, dc := Add(s, p), other.scale - line.scale, other.offset - line.offset;
    var r, d := Residual(p, line), ds * p.world + dc;
    SlopeStep(s, p, line);
    LevelStep(s, p, line);
    ExcessStep(s, p, ds, dc);
    ResidualStep(p, line, other);
    TiltStep(Slope(s, line), Level(s, line), Slope(t, line), Level(t, line), ds, dc, p.world, r, d);
    SquareOfDifference(r, d, d * r);
    assert Tilt(t, line, ds, dc) == Tilt(s, line, ds, dc) + d * r;
    assert Residual(p, other) == r - d;
  }

  lemma SlopeStep(s: Sums, p: Sample, line: Line)
    ensures Slope(Add(s, p), line) == Slope(s, line) + p.world * Residual(p, line)
  {}

  lemma LevelStep(s: Sums, p: Sample, line: Line)
    ensures Level(Add(s, p), line) == Level(s, line) + Residual(p, line)
  {}

  lemma ExcessStep(s: Sums, p: Sample, ds: real, dc: real)
    ensures Excess(Add(s, p), ds, dc) == Excess(s, ds, dc) + Square(ds * p.world + dc)
  {
    var x, u := p.world, ds * p.world;
    assert Square(u + dc) == u * u + 2.0 * (u * dc) + dc * dc;
    assert u * u == x * x * ds * ds && u * dc == x * ds * dc;
  }

  lemma ResidualStep(p: Sample, line: Line, other: Line)
    ensures Residual(p, other) ==
            Residual(p, line) - ((other.scale - line.scale) * p.world + (other.offset - line.offset))
  {}

  lemma TiltStep(
      slope: real, level: real, nextSlope: real, nextLevel: real, ds: real, dc: real, x: real, r: real, d: real)
    requires nextSlope == slope + x * r && nextLevel == level + r && d == ds * x + dc
    ensures ds * nextSlope + dc * nextLevel == ds * slope + dc * level + d * r
  {
    assert ds * (slope + x * r) == ds * slope + ds * x * r;
    assert (ds * x + dc) * r == ds * x * r + dc * r;
  }

  lemma SquareOfDifference(r: real, d: real, product: real)
    requires product == d * r
    ensures Square(r - d) == Square(r) - 2.0 * product + Square(d)
  {}

  // ---- The denominator -----------------------------------------------------------------

  ghost predicate AllAt(samples: seq<Sample>, x: real) {
    forall k | 0 <= k < |samples| :: samples[k].world == x
  }

  /** Squared distances of the world coordinates from `x`. */
  function Spread(samples: seq<Sample>, x: real): real {
    if samples == [] then 0.0
    else Spread(samples[..|samples| - 1], x) + Square(samples[|samples| - 1].world - x)
  }

  /** The same, from the sums. */
  function SpreadFrom(s: Sums, x: real): real {
    s.xx - 2.0 * (x * s.x) + s.n * (x * x)
  }

  lemma NextSpread(s: Sums, p: Sample, x: real)
    ensures SpreadFrom(Add(s, p), x) == SpreadFrom(s, x) + Square(p.world - x)
  {
    assert Square(p.world - x) == p.world * p.world - 2.0 * (x * p.world) + x * x;
    assert x * (s.x + p.world) == x * s.x + x * p.world;
    assert (s.n + 1.0) * (x * x) == s.n * (x * x) + x * x;
  }

  lemma {:induction false} SpreadMeaning(samples: seq<Sample>, x: real)
    ensures Spread(samples, x) == SpreadFrom(SumsOf(samples), x)
    ensures Spread(samples, x) >= 0.0
    ensures Spread(samples, x) == 0.0 <==> AllAt(samples, x)
  {
    hide Square, Add, SpreadFrom;
    if samples == [] {
      NoSpread(x);
    } else {
      var last, rest := samples[|samples| - 1], samples[..|samples| - 1];
      SpreadMeaning(rest, x);
      NextSpread(SumsOf(rest), last, x);
      SquareSign(last.world - x);
      assert AllAt(samples, x) <==> AllAt(rest, x) && last.world == x;
    }
  }

  lemma NoSpread(x: real)
    ensures SpreadFrom(SumsOf([]), x) == 0.0
  {}

  lemma SquareSign(d: real)
    ensures Square(d) >= 0.0
    ensures Square(d) == 0.0 <==> d == 0.0
  {
    SquareIsNotNegative(d);
    if d > 0.0 {
      SquareIsPositive(d);
    } else if d < 0.0 {
      SquareIsPositive(-d);
      assert Square(d) == Square(-d);
    }
  }

  ghost predicate OneColumn(samples: seq<Sample>) {
    forall j, k | 0 <= j < |samples| && 0 <= k < |samples| :: samples[j].world == samples[k].world
  }

  /** The denominator is never negative, and zero exactly when all the world
      coordinates coincide. */
  lemma {:induction false} DenominatorMeaning(samples: seq<Sample>)
    ensures Denominator(SumsOf(samples)) >= 0.0
    ensures Denominator(SumsOf(samples)) == 0.0 <==> OneColumn(samples)
  {
    hide Add, SpreadFrom, Spread;
    if samples == [] {
    } else {
      var last, rest := samples[|samples| - 1], samples[..|samples| - 1];
      hide Denominator;
      DenominatorMeaning(rest);
      SpreadMeaning(rest, last.world);
      NextDenominator(SumsOf(rest), last);
      assert OneColumn(samples) <==> OneColumn(rest) && AllAt(rest, last.world);
    }
  }

  lemma NextDenominator(s: Sums, p: Sample)
    ensures Denominator(Add(s, p)) == Denominator(s) + SpreadFrom(s, p.world)
  {
    var x := p.world;
    assert (s.n + 1.0) * (s.xx + x * x) == s.n * s.xx + s.n * (x * x) + s.xx + x * x;
    assert (s.x + x) * (s.x + x) == s.x * s.x + 2.0 * (x * s.x) + x * x;
  }

  // ---- Optimality ----------------------------------------------------------------------

  /** A returned fit meets the normal equations. */
  lemma FitMeetsNormalEquations(samples: seq<Sample>)
    requires Fit(samples).Some?
    ensures Slope(SumsOf(samples), Fit(samples).value) == 0.0
    ensures Level(SumsOf(samples), Fit(samples).value) == 0.0
  {
    hide SumsOf;
    var s, line := SumsOf(samples), Fit(samples).value;
    NormalEquations(s, line.scale, line.offset);
  }

  lemma NormalEquations(s: Sums, scale: real, offset: real)
    requires s.n > 0.0 && Denominator(s) != 0.0
    requires scale == (s.n * s.xy - s.x * s.y) / Denominator(s) && offset == (s.y - scale * s.x) / s.n
    ensures Slope(s, Line(scale, offset)) == 0.0 && Level(s, Line(scale, offset)) == 0.0
  {
    var d := Denominator(s);
    assert scale * d == s.n * s.xy - s.x * s.y;
    assert offset * s.n == s.y - scale * s.x;
    Eliminate(s, scale, offset);
  }

  lemma Eliminate(s: Sums, scale: real, offset: real)
    requires s.n > 0.0
    requires scale * (s.n * s.xx - s.x * s.x) == s.n * s.xy - s.x * s.y
    requires offset * s.n == s.y - scale * s.x
    ensures s.xy - (scale * s.xx + offset * s.x) == 0.0
  {
    var r := s.xy - (scale * s.xx + offset * s.x);
    assert s.n * r == s.n * s.xy - scale * (s.n * s.xx) - (offset * s.n) * s.x;
    assert (s.y - scale * s.x) * s.x == s.x * s.y - scale * (s.x * s.x);
    assert scale * (s.n * s.xx - s.x * s.x) == scale * (s.n * s.xx) - scale * (s.x * s.x);
    assert s.n * r == 0.0;
  }

  /** The quadratic form of the error is positive definite when the world
      coordinates differ. */
  lemma ExcessIsPositive(s: Sums, ds: real, dc: real)
    requires s.n > 0.0 && Denominator(s) > 0.0
    ensures Excess(s, ds, dc) >= 0.0
    ensures Excess(s, ds, dc) == 0.0 <==> ds == 0.0 && dc == 0.0
  {
    var e, u := Excess(s, ds, dc), s.n * dc + s.x * ds;
    CompleteSquare(s, ds, dc);
    SquareSign(u);
    SquareSign(ds);
    NonNegativeProduct(Denominator(s), Square(ds));
    SignOf(s.n, e);
    if e == 0.0 {
      if Square(ds) > 0.0 {
        PositiveProduct(Denominator(s), Square(ds));
      }
      assert ds == 0.0 && u == 0.0;
      assert s.n * dc == 0.0;
    }
  }

  lemma SignOf(n: real, e: real)
    requires n > 0.0
    ensures n * e >= 0.0 ==> e >= 0.0
    ensures n * e == 0.0 <==> e == 0.0
  {}

  lemma CompleteSquare(s: Sums, ds: real, dc: real)
    ensures s.n * Excess(s, ds, dc) == Square(s.n * dc + s.x * ds) + Denominator(s) * Square(ds)
  {
    var a, b := s.n * dc, s.x * ds;
    assert Square(a + b) == a * a + 2.0 * (a * b) + b * b;
    assert a * a == s.n * (s.n * dc * dc);
    assert a * b == s.n * (s.x * ds * dc);
    assert b * b == (s.x * s.x) * (ds * ds);
    assert Denominator(s) * Square(ds) == s.n * (s.xx * ds * ds) - (s.x * s.x) * (ds * ds);
  }

  /** The fit is the one best line: any other has a strictly larger error. */
  lemma FitIsOptimal(samples: seq<Sample>, other: Line)
    requires Fit(samples).Some?
    ensures Error(samples, Fit(samples).value) <= Error(samples, other)
    ensures Error(samples, Fit(samples).value) == Error(samples, other) ==> other == Fit(samples).value
  {
    var s, line := SumsOf(samples), Fit(samples).value;
    var ds, dc := other.scale - line.scale, other.offset - line.offset;
    DenominatorMeaning(samples);
    FitMeetsNormalEquations(samples);
    hide *;
    FitHasSpread(samples);
    ErrorExpands(samples, line, other);
    NoTilt(s, line, ds, dc);
    ExcessIsPositive(s, ds, dc);
  }

  lemma NoTilt(s: Sums, line: Line, ds: real, dc: real)
    requires Slope(s, line) == 0.0 && Level(s, line) == 0.0
    ensures Tilt(s, line, ds, dc) == 0.0
  {}

  lemma FitHasSpread(samples: seq<Sample>)
    requires Fit(samples).Some?
    ensures SumsOf(samples).n > 0.0 && Denominator(SumsOf(samples)) > 0.0
  {
    DenominatorMeaning(samples);
  }

  ghost predicate OnLine(samples: seq<Sample>, line: Line) {
    forall k | 0 <= k < |samples| :: Residual(samples[k], line) == 0.0
  }

  lemma {:induction false} ErrorMeaning(samples: seq<Sample>, line: Line)
    ensures Error(samples, line) >= 0.0
    ensures Error(samples, line) == 0.0 <==> OnLine(samples, line)
  {
    hide Residual, Square;
    if samples == [] {
    } else {
      var last, rest := samples[|samples| - 1], samples[..|samples| - 1];
      ErrorMeaning(rest, line);
      SquareSign(Residual(last, line));
      assert OnLine(samples, line) <==> OnLine(rest, line) && Residual(last, line) == 0.0;
    }
  }

  /** Samples that lie on a line are recovered exactly. */
  lemma LineIsRecovered(samples: seq<Sample>, line: Line)
    requires Fit(samples).Some? && OnLine(samples, line)
    ensures Fit(samples).value == line
  {
    hide *;
    ErrorMeaning(samples, line);
    ErrorMeaning(samples, Fit(samples).value);
    FitIsOptimal(samples, line);
  }

  /** There is no fit exactly when there are fewer than three samples or the
      world coordinates all but coincide; three samples in one column have none. */
  lemma NoFitMeaning(samples: seq<Sample>)
    ensures Fit(samples).None? <==> |samples| < 3 || Denominator(SumsOf(samples)) < 0.000000001
    ensures OneColumn(samples) ==> Fit(samples).None?
  {
    DenominatorMeaning(samples);
  }
}
