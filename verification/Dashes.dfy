/** Walking a clipped segment in dashes (`docs/render_media.py`). */
module Dashes {
  import opened Options
  import opened Clipping
  import opened Reals

  /** The square root the length is taken with. */
  ghost predicate IsRoot(root: real -> real) {
    forall r | r >= 0.0 :: root(r) >= 0.0 && root(r) * root(r) == r
  }

  function SquaredLength(s: Segment): (q: real)
    ensures q >= 0.0
  {
    var dx, dy := s.b.x - s.a.x, s.b.y - s.a.y;
    SquareIsNotNegative(dx);
    SquareIsNotNegative(dy);
    dx * dx + dy * dy
  }

  /** The point a distance `walked` along the segment. */
  function Along(s: Segment, length: real, walked: real): Point
    requires length > 0.0
  {
    var ux, uy := (s.b.x - s.a.x) / length, (s.b.y - s.a.y) / length;
    Point(s.a.x + ux * walked, s.a.y + uy * walked)
  }

  function Least(a: real, b: real): real {
    if a <= b then a else b
  }

  /** Where period `k` of the pattern starts. */
  function Periods(k: nat, dash: real, gap: real): real {
    k as real * (dash + gap)
  }

  /** Dash `k` starts after `k` whole periods and is cut off at the end. */
  function Dash(s: Segment, length: real, dash: real, gap: real, k: nat): Segment
    requires length > 0.0
  {
    var start := Periods(k, dash, gap);
    Segment(Along(s, length, start), Along(s, length, Least(start + dash, length)))
  }

  /** The dashes of a walk over `length`: as many as start before its end. */
  ghost predicate Walk(s: Segment, length: real, dash: real, gap: real, lines: seq<Segment>)
    requires length > 0.0
  {
    && lines != []
    && Periods(|lines| - 1, dash, gap) < length <= Periods(|lines|, dash, gap)
    && forall k | 0 <= k < |lines| :: lines[k] == Dash(s, length, dash, gap, k)
  }

  method DashWalk(s: Segment, length: real, dash: real, gap: real) returns (lines: seq<Segment>)
    requires length > 0.0 && dash > 0.0 && gap >= 0.0
    ensures Walk(s, length, dash, gap, lines)
  {
    hide Along, Periods, PeriodsLeft;
    lines := [];
    var walked := 0.0;
    NoPeriods(dash, gap);
    while walked < length
      invariant forall k | 0 <= k < |lines| :: lines[k] == Dash(s, length, dash, gap, k)
      invariant |lines| == 0 ==> walked == 0.0
      invariant |lines| > 0 ==> Periods(|lines| - 1, dash, gap) < length
      invariant walked < length ==> walked == Periods(|lines|, dash, gap)
      invariant walked >= length ==> length <= Periods(|lines|, dash, gap)
      decreases PeriodsLeft(length, walked, dash + gap)
    {
      ghost var n := |lines|;
      var end := Least(walked + dash, length);
      NextPeriod(n, dash, gap);
      lines := lines + [Segment(Along(s, length, walked), Along(s, length, end))];
      assert lines[n] == Dash(s, length, dash, gap, n);
      OnePeriodLess(length, walked, end + gap, dash + gap);
      walked := end + gap;
    }
  }

  lemma NoPeriods(dash: real, gap: real)
    ensures Periods(0, dash, gap) == 0.0
  {}

  lemma NextPeriod(n: nat, dash: real, gap: real)
    ensures Periods(n + 1, dash, gap) == Periods(n, dash, gap) + dash + gap
  {
    assert (n + 1) as real == n as real + 1.0;
  }

  /** How often the loop can still turn. */
  function PeriodsLeft(length: real, walked: real, period: real): int
    requires period > 0.0
  {
    if walked < length then ((length - walked) / period).Floor + 1 else 0
  }

  lemma OnePeriodLess(length: real, walked: real, next: real, period: real)
    requires walked < length && period > 0.0
    requires next == walked + period || next >= length
    ensures 0 <= PeriodsLeft(length, next, period) < PeriodsLeft(length, walked, period)
  {
    var left := (length - walked) / period;
    assert left * period == length - walked;
    assert left >= 0.0;
    if next < length {
      assert (left - 1.0) * period == left * period - period;
      QuotientIs(length - next, period, left - 1.0);
      assert (length - next) / period >= 0.0;
    }
  }

  const SHORTEST := 0.000001

  /** What there is to walk: the segment, or its part inside the clip rectangle. */
  ghost predicate Drawn(s: Segment, clip: Option<(real, real)>, drawn: Option<Segment>) {
    match clip
    case None => drawn == Some(s)
    case Some((width, height)) =>
      exists range: Option<(real, real)> :: Accepted(Edges(s, width, height), range) && drawn == Clipped(s, range)
  }

  method Dashed(s: Segment, clip: Option<(real, real)>, root: real -> real, dash: real, gap: real)
    returns (lines: seq<Segment>, ghost drawn: Option<Segment>)
    requires IsRoot(root) && dash > 0.0 && gap >= 0.0
    ensures Drawn(s, clip, drawn)
    ensures clip.None? ==> drawn == Some(s)
    ensures drawn.None? || root(SquaredLength(drawn.value)) < 0.000001 ==> lines == []
    ensures drawn.Some? && root(SquaredLength(drawn.value)) >= 0.000001 ==>
              Walk(drawn.value, root(SquaredLength(drawn.value)), dash, gap, lines)
  {
    hide SquaredLength;
    var part := s;
    drawn := Some(s);
    if clip.Some? {
      var clipped := ClipSegment(s, clip.value.0, clip.value.1);
      drawn := clipped;
      if clipped.None? {
        return [], drawn;
      }
      part := clipped.value;
    }
    var length := root(SquaredLength(part));
    if length < SHORTEST {
      return [], drawn;
    }
    lines := DashWalk(part, length, dash, gap);
  }

  // ---- Where the dashes are ------------------------------------------------------------

  /** `length` is the length of the segment. */
  ghost predicate HasLength(s: Segment, length: real) {
    length > 0.0 && length * length == SquaredLength(s)
  }

  /** The direction walked in is a unit vector, so distances walked are real
      distances. */
  lemma WalkedIsDistance(s: Segment, length: real, from: real, to: real)
    requires HasLength(s, length)
    ensures SquaredLength(Segment(Along(s, length, from), Along(s, length, to))) == (to - from) * (to - from)
  {
    var dx, dy := s.b.x - s.a.x, s.b.y - s.a.y;
    var ux, uy := dx / length, dy / length;
    assert ux * length == dx && uy * length == dy;
    UnitDirection(dx, dy, ux, uy, length);
    var d, walked := to - from, Segment(Along(s, length, from), Along(s, length, to));
    Difference(s.a.x, ux, from, to);
    Difference(s.a.y, uy, from, to);
    assert walked.b.x - walked.a.x == ux * d && walked.b.y - walked.a.y == uy * d;
    ScaledSquares(ux, uy, d);
    hide Along;
    assert SquaredLength(walked) == (ux * d) * (ux * d) + (uy * d) * (uy * d);
  }

  lemma Difference(a: real, u: real, from: real, to: real)
    ensures a + u * to - (a + u * from) == u * (to - from)
  {}

  lemma UnitDirection(dx: real, dy: real, ux: real, uy: real, length: real)
    requires length > 0.0 && Square(length) == Square(dx) + Square(dy)
    requires ux * length == dx && uy * length == dy
    ensures Square(ux) + Square(uy) == 1.0
  {
    hide Square;
    SquareOfProduct(ux, length);
    SquareOfProduct(uy, length);
    SquareIsPositive(length);
    UnitShares(Square(ux), Square(uy), Square(length), Square(dx), Square(dy));
  }

  lemma ScaledSquares(ux: real, uy: real, d: real)
    requires ux * ux + uy * uy == 1.0
    ensures (ux * d) * (ux * d) + (uy * d) * (uy * d) == d * d
  {
    assert (ux * d) * (ux * d) + (uy * d) * (uy * d) == (ux * ux + uy * uy) * (d * d);
  }

  /** Every full dash is `dash` long, the gap to the next one is exactly `gap`,
      and only the last may be cut short. */
  lemma DashesAreSpaced(s: Segment, length: real, dash: real, gap: real, lines: seq<Segment>, k: nat)
    requires HasLength(s, length) && dash > 0.0 && gap >= 0.0
    requires Walk(s, length, dash, gap, lines) && k + 1 < |lines|
    ensures SquaredLength(lines[k]) == dash * dash
    ensures SquaredLength(Segment(lines[k].b, lines[k + 1].a)) == gap * gap
  {
    hide SquaredLength, Along, Periods, HasLength;
    var start := Periods(k, dash, gap);
    NextPeriod(k, dash, gap);
    PeriodsGrow(k + 1, |lines| - 1, dash, gap);
    assert Least(start + dash, length) == start + dash;
    WalkedIsDistance(s, length, start, start + dash);
    WalkedIsDistance(s, length, start + dash, Periods(k + 1, dash, gap));
    assert start + dash - start == dash && Periods(k + 1, dash, gap) - (start + dash) == gap;
  }

  /** The walk starts where the segment does, and goes on to its end: the last dash
      ends there, or is whole and less than a gap away. */
  lemma DashesReachBothEnds(s: Segment, length: real, dash: real, gap: real, lines: seq<Segment>)
    requires length > 0.0 && HasLength(s, length) && dash > 0.0 && gap >= 0.0 && Walk(s, length, dash, gap, lines)
    ensures lines[0].a == s.a
    ensures
      var last := lines[|lines| - 1];
      || (last.b == s.b && SquaredLength(last) <= dash * dash)
      || (SquaredLength(last) == dash * dash && SquaredLength(Segment(last.b, s.b)) <= gap * gap)
  {
    hide SquaredLength, Along, Periods, HasLength;
    var n := |lines| - 1;
    var start := Periods(n, dash, gap);
    NoPeriods(dash, gap);
    AlongEnds(s, length);
    NextPeriod(n, dash, gap);
    PeriodsGrow(0, n, dash, gap);
    if start + dash >= length {
      WalkedIsDistance(s, length, start, length);
      SquareOfPart(length - start, dash);
    } else {
      WalkedIsDistance(s, length, start, start + dash);
      assert start + dash - start == dash;
      WalkedIsDistance(s, length, start + dash, length);
      SquareOfPart(length - (start + dash), gap);
    }
  }

  lemma AlongEnds(s: Segment, length: real)
    requires length > 0.0
    ensures Along(s, length, 0.0) == s.a && Along(s, length, length) == s.b
  {
    var ux, uy := (s.b.x - s.a.x) / length, (s.b.y - s.a.y) / length;
    assert ux * length == s.b.x - s.a.x && uy * length == s.b.y - s.a.y;
  }

  lemma {:induction false} PeriodsGrow(j: nat, k: nat, dash: real, gap: real)
    requires j <= k && dash > 0.0 && gap >= 0.0
    ensures 0.0 <= Periods(j, dash, gap) <= Periods(k, dash, gap)
  {
    hide Periods;
    NoPeriods(dash, gap);
    if j < k {
      NextPeriod(k - 1, dash, gap);
      PeriodsGrow(j, k - 1, dash, gap);
    } else if k > 0 {
      NextPeriod(k - 1, dash, gap);
      PeriodsGrow(k - 1, k - 1, dash, gap);
    }
  }

  lemma AlongIsAt(s: Segment, length: real, walked: real)
    requires length > 0.0 && 0.0 <= walked <= length
    ensures Unit(walked / length)
    ensures Along(s, length, walked) == At(s, walked / length)
  {
    var t := walked / length;
    assert t * length == walked;
    CrossingTime(walked, length);
    Swap(s.b.x - s.a.x, length, walked);
    Swap(s.b.y - s.a.y, length, walked);
  }

  lemma Swap(d: real, length: real, walked: real)
    requires length > 0.0
    ensures d / length * walked == d * (walked / length)
  {
    var u, t := d / length, walked / length;
    assert u * length == d && t * length == walked;
    assert u * (t * length) == (u * length) * t;
  }

  /** Each dash runs forward along the walked segment and never leaves it. */
  lemma DashIsOnSegment(s: Segment, length: real, dash: real, gap: real, lines: seq<Segment>, k: nat, p: Point)
    requires length > 0.0 && dash > 0.0 && gap >= 0.0
    requires Walk(s, length, dash, gap, lines) && k < |lines| && OnSegment(lines[k], p)
    ensures OnSegment(s, p)
  {
    hide Along, At, Periods;
    var start := Periods(k, dash, gap);
    var end := Least(start + dash, length);
    PeriodsGrow(k, |lines| - 1, dash, gap);
    AlongIsAt(s, length, start);
    AlongIsAt(s, length, end);
    var u :| Unit(u) && At(lines[k], u) == p;
    AtOfAt(s, start / length, end / length, u);
    Divided(start, end, length);
    Between(start / length, end / length, u);
    assert Unit(Lerp(start / length, end / length, u));
  }

  lemma Divided(a: real, b: real, c: real)
    requires a <= b && c > 0.0
    ensures a / c <= b / c
  {
    var x, y := a / c, b / c;
    assert x * c == a && y * c == b;
    assert (y - x) * c >= 0.0;
  }

  /** Everything drawn lies on the original segment and inside the clip
      rectangle. */
  lemma DashesAreVisible(s: Segment, width: real, height: real, drawn: Segment, length: real, dash: real, gap: real,
      lines: seq<Segment>, k: nat, p: Point)
    requires width >= 0.0 && height >= 0.0 && length > 0.0 && dash > 0.0 && gap >= 0.0
    requires Steady(s.a.x, s.b.x, width) && Steady(s.a.y, s.b.y, height)
    requires Drawn(s, Some((width, height)), Some(drawn))
    requires Walk(drawn, length, dash, gap, lines) && k < |lines| && OnSegment(lines[k], p)
    ensures OnSegment(s, p) && InRectangle(p, width, height)
  {
    hide Steady, Walk, OnSegment, InRectangle;
    DashIsOnSegment(drawn, length, dash, gap, lines, k, p);
    var range: Option<(real, real)> :| Accepted(Edges(s, width, height), range) && Some(drawn) == Clipped(s, range);
    ClipIsExact(s, width, height, range);
  }

  /** However far off-screen the ends are, the walk takes no more turns than the
      rectangle's diagonal has room for. */
  lemma WalkIsBounded(s: Segment, width: real, height: real, drawn: Segment, root: real -> real, dash: real, gap: real,
      lines: seq<Segment>)
    requires width >= 0.0 && height >= 0.0 && dash > 0.0 && gap >= 0.0 && IsRoot(root)
    requires Steady(s.a.x, s.b.x, width) && Steady(s.a.y, s.b.y, height)
    requires Drawn(s, Some((width, height)), Some(drawn)) && root(SquaredLength(drawn)) > 0.0
    requires Walk(drawn, root(SquaredLength(drawn)), dash, gap, lines)
    ensures |lines| as real < root(width * width + height * height) / (dash + gap) + 1.0
  {
    var length, diagonal := root(SquaredLength(drawn)), root(width * width + height * height);
    DrawnIsInside(s, width, height, drawn);
    InsideIsShort(drawn, width, height);
    SquareIsNotNegative(width);
    SquareIsNotNegative(height);
    SquaresCompare(length, diagonal);
    Turns(|lines| - 1, dash, gap, diagonal);
  }

  lemma DrawnIsInside(s: Segment, width: real, height: real, drawn: Segment)
    requires width >= 0.0 && height >= 0.0
    requires Steady(s.a.x, s.b.x, width) && Steady(s.a.y, s.b.y, height)
    requires Drawn(s, Some((width, height)), Some(drawn))
    ensures InRectangle(drawn.a, width, height) && InRectangle(drawn.b, width, height)
  {
    hide Steady, InRectangle;
    var range: Option<(real, real)> :| Accepted(Edges(s, width, height), range) && Some(drawn) == Clipped(s, range);
    ClipIsExact(s, width, height, range);
    assert Unit(0.0) && At(drawn, 0.0) == drawn.a && Unit(1.0) && At(drawn, 1.0) == drawn.b;
    assert OnSegment(drawn, drawn.a) && OnSegment(drawn, drawn.b);
  }

  lemma InsideIsShort(s: Segment, width: real, height: real)
    requires InRectangle(s.a, width, height) && InRectangle(s.b, width, height)
    ensures SquaredLength(s) <= width * width + height * height
  {
    SquareOfPart(s.b.x - s.a.x, width);
    SquareOfPart(s.b.y - s.a.y, height);
  }

  lemma SquareOfPart(d: real, size: real)
    requires -size <= d <= size
    ensures d * d <= size * size
  {
    NonNegativeProduct(size - d, size + d);
    assert (size - d) * (size + d) == size * size - d * d;
  }

  lemma Turns(n: nat, dash: real, gap: real, diagonal: real)
    requires dash > 0.0 && gap >= 0.0 && Periods(n, dash, gap) < diagonal
    ensures n as real < diagonal / (dash + gap)
  {
    var p, q := dash + gap, diagonal / (dash + gap);
    assert q * p == diagonal;
    if n as real >= q {
      NonNegativeProduct(n as real - q, p);
    }
  }
}
