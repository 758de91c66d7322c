/** Clipping a segment to the viewport and walking it in dashes
    (`docs/render_media.py`), over exact arithmetic. */
module Clipping {
  import opened Options
  import opened Reals

  datatype Point = Point(x: real, y: real)

  datatype Segment = Segment(a: Point, b: Point)

  function Part(d: real, t: real): real {
    d * t
  }

  function Lerp(start: real, end: real, t: real): real {
    start + Part(end - start, t)
  }

  /** The point at parameter `t` of the segment. */
  function At(s: Segment, t: real): Point {
    Point(Lerp(s.a.x, s.b.x, t), Lerp(s.a.y, s.b.y, t))
  }

  predicate InRectangle(p: Point, width: real, height: real) {
    0.0 <= p.x <= width && 0.0 <= p.y <= height
  }

  predicate Unit(t: real) {
    0.0 <= t <= 1.0
  }

  // ---- Liang-Barsky --------------------------------------------------------------------

  const PARALLEL := 0.000000000001

  function Abs(r: real): real {
    if r < 0.0 then -r else r
  }

  /** One edge of the rectangle: the segment is on its inner side at `t` when
      `rate * t <= distance`. */
  datatype Edge = Edge(rate: real, distance: real)

  function Edges(s: Segment, width: real, height: real): (e: seq<Edge>)
    ensures |e| == 4
  {
    var dx, dy := s.b.x - s.a.x, s.b.y - s.a.y;
    [Edge(-dx, s.a.x), Edge(dx, width - s.a.x), Edge(-dy, s.a.y), Edge(dy, height - s.a.y)]
  }

  /** What the code tests: a nearly parallel edge is judged at the start only. */
  predicate Accepts(e: Edge, t: real) {
    if Abs(e.rate) < PARALLEL then e.distance >= 0.0 else e.rate * t <= e.distance
  }

  ghost predicate AllAccept(edges: seq<Edge>, t: real) {
    forall k | 0 <= k < |edges| :: Accepts(edges[k], t)
  }

  lemma CutMeaning(e: Edge, t: real)
    requires e.rate != 0.0
    ensures e.rate < 0.0 ==> (e.rate * t <= e.distance <==> t >= e.distance / e.rate)
    ensures e.rate > 0.0 ==> (e.rate * t <= e.distance <==> t <= e.distance / e.rate)
  {
    var cut := e.distance / e.rate;
    assert cut * e.rate == e.distance;
    var gap := t - cut;
    assert e.rate * t - e.distance == e.rate * gap;
    SignOfProduct(e.rate, gap);
  }

  lemma SignOfProduct(a: real, b: real)
    requires a != 0.0
    ensures a < 0.0 ==> (a * b <= 0.0 <==> b >= 0.0)
    ensures a > 0.0 ==> (a * b <= 0.0 <==> b <= 0.0)
  {
    if a < 0.0 {
      if b < 0.0 { assert a * b > 0.0; }
    } else {
      if b > 0.0 { assert a * b > 0.0; }
    }
  }

  /** The accepted parameters: nothing, or an interval of the unit interval. */
  ghost predicate Accepted(edges: seq<Edge>, range: Option<(real, real)>) {
    match range
    case None => forall t | Unit(t) :: !AllAccept(edges, t)
    case Some((low, high)) =>
      && 0.0 <= low <= high <= 1.0
      && forall t | Unit(t) :: AllAccept(edges, t) <==> low <= t <= high
  }

  lemma OneMoreEdge(edges: seq<Edge>, k: nat, t: real)
    requires k < |edges|
    ensures AllAccept(edges[..k + 1], t) <==> AllAccept(edges[..k], t) && Accepts(edges[k], t)
  {
    assert edges[..k + 1] == edges[..k] + [edges[k]];
  }

  lemma NoneForAll(edges: seq<Edge>, k: nat)
    requires k <= |edges| && Accepted(edges[..k], None)
    ensures Accepted(edges, None)
  {
    forall t | Unit(t) ensures !AllAccept(edges, t) {
      PrefixAccepts(edges, k, t);
    }
  }

  lemma PrefixAccepts(edges: seq<Edge>, k: nat, t: real)
    requires k <= |edges|
    ensures AllAccept(edges, t) ==> AllAccept(edges[..k], t)
  {
    forall j | AllAccept(edges, t) && 0 <= j < k ensures Accepts(edges[..k][j], t) {
      assert edges[..k][j] == edges[j];
    }
  }

  method ClipRange(edges: seq<Edge>) returns (range: Option<(real, real)>)
    ensures Accepted(edges, range)
  {
    hide Accepts;
    var low, high := 0.0, 1.0;
    for k := 0 to |edges|
      invariant 0.0 <= low <= high <= 1.0
      invariant forall t | Unit(t) :: AllAccept(edges[..k], t) <==> low <= t <= high
    {
      forall t ensures AllAccept(edges[..k + 1], t) <==> AllAccept(edges[..k], t) && Accepts(edges[k], t) {
        OneMoreEdge(edges, k, t);
      }
      var wasLow, wasHigh := low, high;
      var next := ClipEdge(edges[k], low, high);
      match next {
        case None =>
          NoneForAll(edges, k + 1);
          return None;
        case Some((l, h)) =>
          low, high := l, h;
      }
    }
    assert edges[..|edges|] == edges;
    return Some((low, high));
  }

  /** One turn of the loop: the interval shrinks to what the edge accepts. */
  method ClipEdge(e: Edge, low: real, high: real) returns (range: Option<(real, real)>)
    requires 0.0 <= low <= high <= 1.0
    ensures range.None? ==> forall t | low <= t <= high :: !Accepts(e, t)
    ensures range.Some? ==>
              && low <= range.value.0 <= range.value.1 <= high
              && forall t | low <= t <= high :: Accepts(e, t) <==> range.value.0 <= t <= range.value.1
  {
    if Abs(e.rate) < PARALLEL {
      if e.distance < 0.0 {
        return None;
      }
      return Some((low, high));
    }
    var cut := e.distance / e.rate;
    forall t ensures
      && (e.rate < 0.0 ==> (Accepts(e, t) <==> t >= cut))
      && (e.rate > 0.0 ==> (Accepts(e, t) <==> t <= cut))
    {
      CutMeaning(e, t);
    }
    if e.rate < 0.0 {
      if cut > high {
        return None;
      }
      return Some((if low >= cut then low else cut, high));
    } else {
      if cut < low {
        return None;
      }
      return Some((low, if high <= cut then high else cut));
    }
  }

  /** The part of the segment inside the viewport, or None. */
  method ClipSegment(s: Segment, width: real, height: real) returns (clipped: Option<Segment>)
    ensures exists range: Option<(real, real)> ::
      && Accepted(Edges(s, width, height), range)
      && clipped == Clipped(s, range)
  {
    var range := ClipRange(Edges(s, width, height));
    match range {
      case None => clipped := None;
      case Some((low, high)) => clipped := Some(Segment(At(s, low), At(s, high)));
    }
    assert clipped == Clipped(s, range);
  }

  function Clipped(s: Segment, range: Option<(real, real)>): Option<Segment> {
    match range
    case None => None
    case Some((low, high)) => Some(Segment(At(s, low), At(s, high)))
  }

  // ---- Exactness -----------------------------------------------------------------------

  /** One coordinate runs from `start` to `end` along the segment; the two edges
      it is judged by. */
  ghost predicate AxisAccepts(start: real, end: real, size: real, t: real) {
    Accepts(Edge(-(end - start), start), t) && Accepts(Edge(end - start, size - start), t)
  }

  ghost predicate AxisInside(start: real, end: real, size: real, t: real) {
    0.0 <= Lerp(start, end, t) <= size
  }

  ghost predicate AxisExact(start: real, end: real, size: real) {
    forall t | Unit(t) :: AxisAccepts(start, end, size, t) <==> AxisInside(start, end, size, t)
  }

  /** The coordinate does not move, or moves by more than rounding noise, or
      both ends are on one and the same side of both edges. */
  predicate Steady(start: real, end: real, size: real) {
    || start == end
    || Abs(end - start) >= 0.000000000001
    || (0.0 <= start <= size && 0.0 <= end <= size)
    || (start < 0.0 && end < 0.0)
    || (start > size && end > size)
  }

  lemma Between(start: real, end: real, t: real)
    requires Unit(t)
    ensures start <= end ==> start <= Lerp(start, end, t) <= end
    ensures end <= start ==> end <= Lerp(start, end, t) <= start
    ensures start == end ==> Lerp(start, end, t) == start
  {
    hide Part;
    Portion(end - start, t);
  }

  lemma Portion(d: real, t: real)
    requires Unit(t)
    ensures d >= 0.0 ==> 0.0 <= Part(d, t) <= d
    ensures d <= 0.0 ==> d <= Part(d, t) <= 0.0
  {
    var rest := d * (1.0 - t);
    assert d * t + rest == d;
    if d > 0.0 {
      assert d * t >= 0.0;
      assert rest >= 0.0;
    } else if d < 0.0 {
      assert d * t <= 0.0;
      assert rest <= 0.0;
    }
  }

  /** Clipping treats a coordinate exactly if and only if it is steady. */
  lemma AxisIsExactIffSteady(start: real, end: real, size: real)
    requires size >= 0.0
    ensures AxisExact(start, end, size) <==> Steady(start, end, size)
  {
    if Steady(start, end, size) {
      forall t | Unit(t) ensures AxisAccepts(start, end, size, t) <==> AxisInside(start, end, size, t) {
        SteadyAxis(start, end, size, t);
      }
    } else if AxisExact(start, end, size) {
      assert Unit(0.0) && Unit(1.0);
      assert AxisInside(start, end, size, 1.0) <==> 0.0 <= end <= size;
      UnsteadyCrosses(start, end, size);
    }
  }

  lemma SteadyAxis(start: real, end: real, size: real, t: real)
    requires size >= 0.0 && Unit(t) && Steady(start, end, size)
    ensures AxisAccepts(start, end, size, t) <==> AxisInside(start, end, size, t)
  {
    hide Lerp;
    Between(start, end, t);
    LerpEdges(start, end, size, t);
  }

  lemma LerpEdges(start: real, end: real, size: real, t: real)
    ensures -(end - start) * t <= start <==> 0.0 <= Lerp(start, end, t)
    ensures (end - start) * t <= size - start <==> Lerp(start, end, t) <= size
  {
    var d := end - start;
    NegatedProduct(d, t);
    assert Lerp(start, end, t) == start + d * t;
  }

  lemma NegatedProduct(d: real, t: real)
    ensures -d * t == -(d * t)
  {}

  /** A tiny move across an edge: one end is inside and the other is not, or the
      middle alone is. */
  lemma UnsteadyCrosses(start: real, end: real, size: real)
    requires size >= 0.0 && !Steady(start, end, size)
    ensures !AxisExact(start, end, size)
  {
    assert Unit(0.0) && Unit(1.0);
    if 0.0 <= start <= size {
      assert AxisAccepts(start, end, size, 1.0);
      assert start + (end - start) * 1.0 == end;
      assert !AxisInside(start, end, size, 1.0);
    } else {
      var edge := if start < 0.0 then 0.0 else size;
      var t := (edge - start) / (end - start);
      assert t * (end - start) == edge - start;
      CrossingTime(edge - start, end - start);
      assert Unit(t) && AxisInside(start, end, size, t);
      assert !AxisAccepts(start, end, size, t);
    }
  }

  lemma CrossingTime(part: real, whole: real)
    requires whole != 0.0 && (0.0 <= part <= whole || whole <= part <= 0.0)
    ensures Unit(part / whole)
  {
    if whole > 0.0 {
      UnitQuotient(part, whole);
    } else {
      UnitQuotient(-part, -whole);
      assert (part / whole) * whole == part;
      QuotientIs(-part, -whole, part / whole);
    }
  }

  lemma UnitQuotient(part: real, whole: real)
    requires 0.0 <= part <= whole && whole > 0.0
    ensures Unit(part / whole)
  {
    var t := part / whole;
    assert t * whole == part;
    if t < 0.0 {
      PositiveProduct(-t, whole);
    }
    if t > 1.0 {
      PositiveProduct(t - 1.0, whole);
    }
  }

  /** With both coordinates steady, what is accepted is what is inside. */
  lemma SteadyIsExact(s: Segment, width: real, height: real, t: real)
    requires width >= 0.0 && height >= 0.0 && Unit(t)
    requires Steady(s.a.x, s.b.x, width) && Steady(s.a.y, s.b.y, height)
    ensures AllAccept(Edges(s, width, height), t) <==> InRectangle(At(s, t), width, height)
  {
    hide Steady, AxisAccepts, AxisInside, AllAccept, Edges, At, InRectangle;
    AxisIsExactIffSteady(s.a.x, s.b.x, width);
    AxisIsExactIffSteady(s.a.y, s.b.y, height);
    ByCoordinate(s, width, height, t);
  }

  lemma AtOfAt(s: Segment, low: real, high: real, u: real)
    ensures At(Segment(At(s, low), At(s, high)), u) == At(s, Lerp(low, high, u))
  {
    Affine(s.a.x, s.b.x - s.a.x, low, high, u);
    Affine(s.a.y, s.b.y - s.a.y, low, high, u);
  }

  lemma Affine(a: real, d: real, low: real, high: real, u: real)
    ensures Lerp(a + d * low, a + d * high, u) == a + d * Lerp(low, high, u)
  {
    assert (a + d * high - (a + d * low)) == d * (high - low);
    assert d * (high - low) * u == d * ((high - low) * u);
  }

  ghost predicate OnSegment(s: Segment, p: Point) {
    exists t :: Unit(t) && At(s, t) == p
  }

  /** Clipping is exact: the clipped segment is precisely the part of the segment
      inside the viewport, and there is none exactly when no point is. */
  lemma ClipIsExact(s: Segment, width: real, height: real, range: Option<(real, real)>)
    requires width >= 0.0 && height >= 0.0
    requires Steady(s.a.x, s.b.x, width) && Steady(s.a.y, s.b.y, height)
    requires Accepted(Edges(s, width, height), range)
    ensures Clipped(s, range).None? <==> forall p | OnSegment(s, p) :: !InRectangle(p, width, height)
    ensures Clipped(s, range).Some? ==>
              forall p :: OnSegment(Clipped(s, range).value, p) <==> OnSegment(s, p) && InRectangle(p, width, height)
  {
    hide Steady, InRectangle, Edges, AllAccept, At;
    forall t | Unit(t)
      ensures AllAccept(Edges(s, width, height), t) <==> InRectangle(At(s, t), width, height)
    {
      SteadyIsExact(s, width, height, t);
    }
    if range.Some? {
      var low, high := range.value.0, range.value.1;
      assert OnSegment(s, At(s, low));
      forall p ensures OnSegment(Clipped(s, range).value, p) <==> OnSegment(s, p) && InRectangle(p, width, height) {
        if OnSegment(Clipped(s, range).value, p) {
          var u :| Unit(u) && At(Clipped(s, range).value, u) == p;
          AtOfAt(s, low, high, u);
          Between(low, high, u);
          assert Unit(Lerp(low, high, u));
        }
        if OnSegment(s, p) && InRectangle(p, width, height) {
          var t :| Unit(t) && At(s, t) == p;
          Reparametrize(s, low, high, t);
        }
      }
    }
  }

  lemma Reparametrize(s: Segment, low: real, high: real, t: real)
    requires low <= t <= high
    ensures OnSegment(Segment(At(s, low), At(s, high)), At(s, t))
  {
    hide At;
    if low == high {
      AtOfAt(s, low, high, 0.0);
      assert Unit(0.0);
    } else {
      CrossingTime(t - low, high - low);
      var u := (t - low) / (high - low);
      assert u * (high - low) == t - low;
      assert Lerp(low, high, u) == low + u * (high - low) == t;
      AtOfAt(s, low, high, u);
    }
  }

  /** At every parameter, what is accepted is what is inside. */
  ghost predicate ExactOn(s: Segment, width: real, height: real) {
    forall t | Unit(t) :: AllAccept(Edges(s, width, height), t) <==> InRectangle(At(s, t), width, height)
  }

  /** Steadiness is the exact condition on a horizontal coordinate: it is steady
      if and only if every segment with it, whatever its other coordinate does
      steadily, is clipped exactly. */
  lemma ExactIffSteadyAcross(start: real, end: real, width: real)
    requires width >= 0.0
    ensures Steady(start, end, width) <==>
              forall s: Segment, height
                | s.a.x == start && s.b.x == end && height >= 0.0 && Steady(s.a.y, s.b.y, height) ::
                ExactOn(s, width, height)
  {
    hide Steady, Accepts;
    forall s: Segment, height
      | Steady(start, end, width) && s.a.x == start && s.b.x == end && height >= 0.0 && Steady(s.a.y, s.b.y, height)
      ensures ExactOn(s, width, height)
    {
      SteadySegment(s, width, height);
    }
    if !Steady(start, end, width) {
      var s := Segment(Point(start, 0.0), Point(end, 0.0));
      StandingStill();
      FlatSegment(start, end, width);
      assert s.a.x == start && s.b.x == end && s.a.y == s.b.y == 0.0;
      assert !ExactOn(s, width, 0.0);
    }
  }

  /** And likewise on a vertical one. */
  lemma ExactIffSteadyDown(start: real, end: real, height: real)
    requires height >= 0.0
    ensures Steady(start, end, height) <==>
              forall s: Segment, width
                | s.a.y == start && s.b.y == end && width >= 0.0 && Steady(s.a.x, s.b.x, width) ::
                ExactOn(s, width, height)
  {
    hide Steady, Accepts;
    forall s: Segment, width
      | Steady(start, end, height) && s.a.y == start && s.b.y == end && width >= 0.0 && Steady(s.a.x, s.b.x, width)
      ensures ExactOn(s, width, height)
    {
      SteadySegment(s, width, height);
    }
    if !Steady(start, end, height) {
      var s := Segment(Point(0.0, start), Point(0.0, end));
      StandingStill();
      UprightSegment(start, end, height);
      assert s.a.y == start && s.b.y == end && s.a.x == s.b.x == 0.0;
      assert !ExactOn(s, 0.0, height);
    }
  }

  lemma SteadySegment(s: Segment, width: real, height: real)
    requires width >= 0.0 && height >= 0.0
    requires Steady(s.a.x, s.b.x, width) && Steady(s.a.y, s.b.y, height)
    ensures ExactOn(s, width, height)
  {
    hide Steady, Edges, At, InRectangle;
    forall t | Unit(t) ensures AllAccept(Edges(s, width, height), t) <==> InRectangle(At(s, t), width, height) {
      SteadyIsExact(s, width, height, t);
    }
  }

  lemma StandingStill()
    ensures Steady(0.0, 0.0, 0.0) && AxisExact(0.0, 0.0, 0.0)
    ensures forall t | Unit(t) :: AxisInside(0.0, 0.0, 0.0, t)
  {
    forall t | Unit(t) ensures AxisInside(0.0, 0.0, 0.0, t) {
      assert Lerp(0.0, 0.0, t) == 0.0;
    }
    AxisIsExactIffSteady(0.0, 0.0, 0.0);
  }

  /** The two coordinates are judged one by one. */
  lemma ByCoordinate(s: Segment, width: real, height: real, t: real)
    ensures AllAccept(Edges(s, width, height), t) <==>
              AxisAccepts(s.a.x, s.b.x, width, t) && AxisAccepts(s.a.y, s.b.y, height, t)
    ensures InRectangle(At(s, t), width, height) <==>
              AxisInside(s.a.x, s.b.x, width, t) && AxisInside(s.a.y, s.b.y, height, t)
  {
    hide Accepts, Lerp;
    var e := Edges(s, width, height);
    assert AllAccept(e, t) <==> Accepts(e[0], t) && Accepts(e[1], t) && Accepts(e[2], t) && Accepts(e[3], t);
  }

  lemma UnsteadyAt(start: real, end: real, size: real) returns (t: real)
    requires size >= 0.0 && !Steady(start, end, size)
    ensures Unit(t) && AxisAccepts(start, end, size, t) != AxisInside(start, end, size, t)
  {
    hide Steady, AxisAccepts, AxisInside;
    AxisIsExactIffSteady(start, end, size);
    t :| Unit(t) && AxisAccepts(start, end, size, t) != AxisInside(start, end, size, t);
  }

  /** Along an edge of the rectangle only the moving coordinate decides. */
  lemma FlatSegment(start: real, end: real, width: real)
    requires width >= 0.0 && !Steady(start, end, width)
    ensures !ExactOn(Segment(Point(start, 0.0), Point(end, 0.0)), width, 0.0)
  {
    hide Steady, AxisAccepts, AxisInside, AllAccept, Edges, At, InRectangle;
    var t := UnsteadyAt(start, end, width);
    StandingStill();
    ByCoordinate(Segment(Point(start, 0.0), Point(end, 0.0)), width, 0.0, t);
    assert AxisAccepts(0.0, 0.0, 0.0, t) && AxisInside(0.0, 0.0, 0.0, t);
  }

  lemma UprightSegment(start: real, end: real, height: real)
    requires height >= 0.0 && !Steady(start, end, height)
    ensures !ExactOn(Segment(Point(0.0, start), Point(0.0, end)), 0.0, height)
  {
    hide Steady, AxisAccepts, AxisInside, AllAccept, Edges, At, InRectangle;
    var t := UnsteadyAt(start, end, height);
    StandingStill();
    ByCoordinate(Segment(Point(0.0, start), Point(0.0, end)), 0.0, height, t);
    assert AxisAccepts(0.0, 0.0, 0.0, t) && AxisInside(0.0, 0.0, 0.0, t);
  }

  /** A segment that creeps across the left edge by less than the parallel
      tolerance is dropped although part of it is visible. */
  lemma CreepingSegmentIsLost()
    ensures
      var s := Segment(Point(-0.0000000000001, 1.0), Point(0.0000000000004, 1.0));
      && Accepted(Edges(s, 640.0, 360.0), None)
      && OnSegment(s, s.b) && InRectangle(s.b, 640.0, 360.0)
  {
    var s := Segment(Point(-0.0000000000001, 1.0), Point(0.0000000000004, 1.0));
    var e := Edges(s, 640.0, 360.0);
    forall t | Unit(t) ensures !AllAccept(e, t) {
      assert !Accepts(e[0], t);
    }
    assert At(s, 1.0) == s.b && Unit(1.0);
  }
}
