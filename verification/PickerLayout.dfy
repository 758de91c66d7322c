/** Finding a free place for a picker button and adding buttons to a panel
    (`tools/rigexec_control_surface.py`). */
module PickerLayout {
  import opened Options
  import opened FiniteSets
  import opened LeastSquares

  datatype Pair = Pair(x: real, y: real)

  datatype Box = Box(x0: real, y0: real, x1: real, y1: real)

  /** A button of the panel; a foreign one may lack a position or a size. */
  datatype Button = Button(position: Option<Pair>, size: Option<Pair>, controls: seq<string>)

  /** A prim of the panel, by its name under the panel. */
  datatype Entry = Entry(name: string, button: Button)

  // ---- Samples -------------------------------------------------------------------------

  function Centre(b: Button): Pair
    requires b.position.Some?
  {
    var size := if b.size.Some? then b.size.value else Pair(0.0, 0.0);
    Pair(b.position.value.x + size.x * 0.5, b.position.value.y + size.y * 0.5)
  }

  /** One sample per control of the button that has a world position. */
  function ButtonSamples(b: Button, positions: map<string, Pair>, n: nat): (seq<Sample>, seq<Sample>)
    requires b.position.Some? && n <= |b.controls|
  {
    if n == 0 then ([], [])
    else
      var (xs, ys), control := ButtonSamples(b, positions, n - 1), b.controls[n - 1];
      if control !in positions then (xs, ys)
      else
        (xs + [Sample(positions[control].x, Centre(b).x)], ys + [Sample(positions[control].y, Centre(b).y)])
  }

  function PanelSamples(buttons: seq<Entry>, positions: map<string, Pair>): (seq<Sample>, seq<Sample>) {
    if buttons == [] then ([], [])
    else
      var (xs, ys), b := PanelSamples(buttons[..|buttons| - 1], positions), buttons[|buttons| - 1].button;
      if b.position.None? then (xs, ys)
      else
        var (moreX, moreY) := ButtonSamples(b, positions, |b.controls|);
        (xs + moreX, ys + moreY)
  }

  /** A fit on each axis, or none at all. */
  function FitFor(samples: (seq<Sample>, seq<Sample>)): Option<(Line, Line)> {
    match (Fit(samples.0), Fit(samples.1))
    case (Some(fx), Some(fy)) => Some((fx, fy))
    case _ => None
  }

  method FitProjection(buttons: seq<Entry>, positions: map<string, Pair>) returns (fits: Option<(Line, Line)>)
    ensures fits == FitFor(PanelSamples(buttons, positions))
  {
    hide Fit;
    var xs: seq<Sample>, ys: seq<Sample> := [], [];
    for k := 0 to |buttons|
      invariant (xs, ys) == PanelSamples(buttons[..k], positions)
    {
      assert buttons[..k + 1][..k] == buttons[..k];
      var b := buttons[k].button;
      if b.position.Some? {
        ghost var beforeX, beforeY := xs, ys;
        for c := 0 to |b.controls|
          invariant xs == beforeX + ButtonSamples(b, positions, c).0
          invariant ys == beforeY + ButtonSamples(b, positions, c).1
        {
          if b.controls[c] in positions {
            var world := positions[b.controls[c]];
            xs := xs + [Sample(world.x, Centre(b).x)];
            ys := ys + [Sample(world.y, Centre(b).y)];
          }
        }
      }
    }
    assert buttons[..|buttons|] == buttons;
    var fx := Fit(xs);
    if fx.None? {
      return None;
    }
    var fy := Fit(ys);
    if fy.None? {
      return None;
    }
    return Some((fx.value, fy.value));
  }

  // ---- Overlap -------------------------------------------------------------------------

  predicate Overlap(a: Box, b: Box) {
    a.x0 < b.x1 && b.x0 < a.x1 && a.y0 < b.y1 && b.y0 < a.y1
  }

  function BoxOf(b: Button): Box
    requires b.position.Some? && b.size.Some?
  {
    var p, s := b.position.value, b.size.value;
    Box(p.x, p.y, p.x + s.x, p.y + s.y)
  }

  /** A box of the given size around a centre. */
  function Around(centre: Pair, size: Pair): Box {
    var x0, y0 := centre.x - size.x * 0.5, centre.y - size.y * 0.5;
    Box(x0, y0, x0 + size.x, y0 + size.y)
  }

  const STEP := 1.25
  const TRIES: nat := 40

  /** The centre tried at attempt `k`. */
  function Spot(centre: Pair, size: Pair, k: nat): Pair {
    Pair(centre.x, centre.y + k as real * (size.y * STEP))
  }

  ghost predicate Free(boxes: seq<Box>, box: Box) {
    forall j | 0 <= j < |boxes| :: !Overlap(box, boxes[j])
  }

  /** Nothing is in the way at attempt `k`. */
  ghost predicate FreeAt(boxes: seq<Box>, centre: Pair, size: Pair, k: nat) {
    Free(boxes, Around(Spot(centre, size, k), size))
  }

  /** The search ends at the first free attempt of the forty, or at the spot
      after them all, which it does not try. */
  ghost predicate EndsAt(boxes: seq<Box>, centre: Pair, size: Pair, k: nat) {
    && k <= TRIES
    && (forall j: nat | j < k :: !FreeAt(boxes, centre, size, j))
    && (k < TRIES ==> FreeAt(boxes, centre, size, k))
  }

  ghost function End(boxes: seq<Box>, centre: Pair, size: Pair, k: nat): (end: nat)
    requires k <= TRIES && forall j: nat | j < k :: !FreeAt(boxes, centre, size, j)
    ensures EndsAt(boxes, centre, size, end)
    decreases TRIES - k
  {
    if k == TRIES || FreeAt(boxes, centre, size, k) then k else End(boxes, centre, size, k + 1)
  }

  lemma SearchIsDetermined(boxes: seq<Box>, centre: Pair, size: Pair, k: nat)
    requires EndsAt(boxes, centre, size, k)
    ensures k == End(boxes, centre, size, 0)
  {
    hide FreeAt;
    assert EndsAt(boxes, centre, size, End(boxes, centre, size, 0));
  }

  /** The spot returned is free if and only if some attempt is, the one past the
      last included. */
  lemma FreeIffSomeAttemptIs(boxes: seq<Box>, centre: Pair, size: Pair, k: nat)
    requires EndsAt(boxes, centre, size, k)
    ensures FreeAt(boxes, centre, size, k) <==> exists j: nat :: j <= 40 && FreeAt(boxes, centre, size, j)
  {
    hide FreeAt;
  }

  method OverlapsAny(boxes: seq<Box>, box: Box) returns (any: bool)
    ensures any <==> !Free(boxes, box)
  {
    for j := 0 to |boxes|
      invariant forall i | 0 <= i < j :: !Overlap(box, boxes[i])
    {
      if Overlap(box, boxes[j]) {
        return true;
      }
    }
    return false;
  }

  method ClearSpot(boxes: seq<Box>, centre: Pair, size: Pair) returns (spot: Pair, ghost tries: nat)
    ensures spot == Spot(centre, size, End(boxes, centre, size, 0))
    ensures EndsAt(boxes, centre, size, tries) && spot == Spot(centre, size, tries)
  {
    hide Free, End;
    var cy := centre.y;
    tries := 0;
    for k := 0 to TRIES
      invariant tries == k && Pair(centre.x, cy) == Spot(centre, size, k)
      invariant forall j: nat | j < k :: !FreeAt(boxes, centre, size, j)
    {
      var x0, y0 := centre.x - size.x * 0.5, cy - size.y * 0.5;
      var taken := OverlapsAny(boxes, Box(x0, y0, x0 + size.x, y0 + size.y));
      if !taken {
        SearchIsDetermined(boxes, centre, size, k);
        return Pair(centre.x, cy), k;
      }
      NextSpot(centre, size, k);
      cy := cy + size.y * STEP;
      tries := k + 1;
    }
    SearchIsDetermined(boxes, centre, size, TRIES);
    spot := Pair(centre.x, cy);
  }

  lemma NextSpot(centre: Pair, size: Pair, k: nat)
    ensures Spot(centre, size, k + 1).y == Spot(centre, size, k).y + size.y * STEP
  {
    var step := size.y * STEP;
    assert (k + 1) as real * step == k as real * step + step;
  }

  // ---- A free spot by counting ---------------------------------------------------------

  function Times(k: nat, step: real): real {
    k as real * step
  }

  lemma TimesGrow(j: nat, k: nat, step: real)
    requires step > 0.0
    ensures j <= k ==> Times(j, step) <= Times(k, step)
    ensures Times(j + k, step) == Times(j, step) + Times(k, step)
  {
    assert (j + k) as real == j as real + k as real;
    if j <= k {
      assert k as real * step == j as real * step + (k as real - j as real) * step;
      assert (k as real - j as real) * step >= 0.0;
    }
  }

  function Scaled(factor: real, height: real): real {
    factor * height
  }

  lemma ScaledGrow(a: real, b: real, height: real)
    requires a <= b && height > 0.0
    ensures Scaled(a, height) <= Scaled(b, height)
    ensures a < b ==> Scaled(a, height) < Scaled(b, height)
  {
    var gap := b - a;
    assert gap * height >= 0.0;
    assert a < b ==> gap * height > 0.0;
    assert b * height == a * height + gap * height;
  }

  /** Boxes no taller than `factor` times the new button. */
  ghost predicate LowBoxes(boxes: seq<Box>, size: Pair, factor: real) {
    forall j | 0 <= j < |boxes| :: boxes[j].y1 - boxes[j].y0 <= Scaled(factor, size.y)
  }

  /** Boxes `factor` times as tall as the button reach over `m` attempts at most,
      and can reach over as many. */
  ghost predicate Spans(factor: real, m: nat) {
    m > 0 && (m - 1) as real * STEP - 1.0 < factor <= m as real * STEP - 1.0
  }

  lemma SpanHeights(factor: real, m: nat, height: real, step: real)
    requires Spans(factor, m) && height > 0.0 && step == height * STEP
    ensures Times(m - 1, step) - height < Scaled(factor, height) <= Times(m, step) - height
  {
    var less, more := (m - 1) as real * STEP - 1.0, m as real * STEP - 1.0;
    ScaledGrow(less, factor, height);
    ScaledGrow(factor, more, height);
    Unscale((m - 1) as real, height);
    Unscale(m as real, height);
  }

  lemma Unscale(m: real, height: real)
    ensures Scaled(m * STEP - 1.0, height) == m * (height * STEP) - height
  {}

  ghost predicate Blocks(b: Box, centre: Pair, size: Pair, k: nat) {
    Overlap(Around(Spot(centre, size, k), size), b)
  }

  /** Attempts `m` steps apart cannot run into the same box. */
  lemma FarAttempts(b: Box, centre: Pair, size: Pair, factor: real, m: nat, j: nat, k: nat)
    requires size.y > 0.0 && Spans(factor, m) && b.y1 - b.y0 <= Scaled(factor, size.y)
    requires j + m <= k && Blocks(b, centre, size, j)
    ensures !Blocks(b, centre, size, k)
  {
    var step := size.y * STEP;
    SpanHeights(factor, m, size.y, step);
    TimesGrow(j + m, k, step);
    TimesGrow(j, m, step);
    SpotAt(centre, size, j);
    SpotAt(centre, size, k);
    hide Spot, Times, Scaled, Spans;
  }

  lemma SpotAt(centre: Pair, size: Pair, k: nat)
    ensures Spot(centre, size, k) == Pair(centre.x, centre.y + Times(k, size.y * STEP))
  {}

  ghost function Blocker(boxes: seq<Box>, centre: Pair, size: Pair, k: nat): (j: nat)
    requires !FreeAt(boxes, centre, size, k)
    ensures j < |boxes| && Blocks(boxes[j], centre, size, k)
  {
    var j: nat :| j < |boxes| && Blocks(boxes[j], centre, size, k);
    j
  }

  /** Of every `m`-th attempt, up to as many as there are boxes, one is free:
      otherwise each would need a box of its own. */
  lemma SomeAttemptIsFree(boxes: seq<Box>, centre: Pair, size: Pair, factor: real, m: nat) returns (i: nat)
    requires size.y > 0.0 && LowBoxes(boxes, size, factor) && Spans(factor, m)
    ensures i <= |boxes| && FreeAt(boxes, centre, size, i * m)
  {
    hide FreeAt, Blocks, Spans;
    if forall i: nat | i <= |boxes| :: !FreeAt(boxes, centre, size, i * m) {
      var blockers := seq(|boxes| + 1, i requires 0 <= i <= |boxes| => Blocker(boxes, centre, size, i * m));
      forall i: nat, j: nat | i < j < |blockers| ensures blockers[i] != blockers[j] {
        OneMoreSpan(i, j, m);
        if blockers[i] == blockers[j] {
          FarAttempts(boxes[blockers[i]], centre, size, factor, m, i * m, j * m);
        }
      }
      DistinctBounded(blockers, |boxes|);
    }
    i :| i <= |boxes| && FreeAt(boxes, centre, size, i * m);
  }

  lemma {:induction false} OneMoreSpan(i: nat, j: nat, m: nat)
    requires i < j
    ensures i * m + m <= j * m
  {
    NextSpan(j - 1, m);
    if i < j - 1 {
      OneMoreSpan(i, j - 1, m);
    }
  }

  lemma NextSpan(i: nat, m: nat)
    ensures (i + 1) * m == i * m + m
  {}

  lemma SpansWithin(i: nat, n: nat, m: nat)
    requires i <= n
    ensures i * m <= n * m
  {
    if i < n {
      OneMoreSpan(i, n, m);
    }
  }

  /** With few enough boxes for their height, the spot returned is free. */
  lemma FreeSpotIsFound(boxes: seq<Box>, centre: Pair, size: Pair, factor: real, m: nat, k: nat)
    requires size.y > 0.0 && LowBoxes(boxes, size, factor) && Spans(factor, m) && |boxes| * m <= 40
    requires EndsAt(boxes, centre, size, k)
    ensures FreeAt(boxes, centre, size, k)
  {
    hide FreeAt, LowBoxes, Spans;
    var i := SomeAttemptIsFree(boxes, centre, size, factor, m);
    SpansWithin(i, |boxes|, m);
    FreeIffSomeAttemptIs(boxes, centre, size, k);
  }

  /** A box as tall as allowed across attempts `i * m` to `i * m + m - 1`. */
  ghost function Barrier(size: Pair, factor: real, m: nat, i: nat): Box
    requires m > 0
  {
    var step, tall, wide := size.y * STEP, Scaled(factor, size.y), if size.x < 0.0 then -size.x else size.x;
    var spare := tall - (Times(m - 1, step) - size.y);
    var y0 := Times(i * m, step) + size.y * 0.5 - spare * 0.5;
    Box(-wide - 1.0, y0, wide + 1.0, y0 + tall)
  }

  lemma BarrierBlocks(size: Pair, factor: real, m: nat, i: nat, k: nat)
    requires size.y > 0.0 && Spans(factor, m) && i * m <= k < i * m + m
    ensures Blocks(Barrier(size, factor, m, i), Pair(0.0, 0.0), size, k)
  {
    var step := size.y * STEP;
    SpanHeights(factor, m, size.y, step);
    TimesGrow(i * m, k, step);
    TimesGrow(k, i * m + (m - 1), step);
    TimesGrow(i * m, m - 1, step);
    SpotAt(Pair(0.0, 0.0), size, k);
    hide Spot, Times, Scaled, Spans;
  }

  lemma {:induction false} SpanOf(k: nat, m: nat) returns (i: nat)
    requires m > 0
    ensures i * m <= k < i * m + m
  {
    if k < m {
      i := 0;
    } else {
      i := SpanOf(k - m, m);
      NextSpan(i, m);
      i := i + 1;
    }
  }

  ghost function Barriers(size: Pair, factor: real, m: nat, n: nat): (boxes: seq<Box>)
    requires m > 0
    ensures |boxes| == n
  {
    seq(n, i requires 0 <= i < n => Barrier(size, factor, m, i))
  }

  /** With one box more, all forty-one spots can be taken. */
  lemma BarriersDefeatSearch(size: Pair, factor: real, m: nat, n: nat)
    requires size.y > 0.0 && Spans(factor, m) && n * m > TRIES
    ensures LowBoxes(Barriers(size, factor, m, n), size, factor)
    ensures EndsAt(Barriers(size, factor, m, n), Pair(0.0, 0.0), size, TRIES)
    ensures !FreeAt(Barriers(size, factor, m, n), Pair(0.0, 0.0), size, TRIES)
  {
    hide Blocks, Spans;
    var boxes := Barriers(size, factor, m, n);
    forall k: nat | k <= TRIES ensures !FreeAt(boxes, Pair(0.0, 0.0), size, k) {
      var i := SpanOf(k, m);
      if i >= n {
        SpansWithin(n, i, m);
      }
      BarrierBlocks(size, factor, m, i, k);
      BlockedByOne(boxes, i, size, k);
    }
  }

  lemma BlockedByOne(boxes: seq<Box>, i: nat, size: Pair, k: nat)
    requires i < |boxes| && Blocks(boxes[i], Pair(0.0, 0.0), size, k)
    ensures !FreeAt(boxes, Pair(0.0, 0.0), size, k)
  {}

  /** The exact reach of the search. For boxes up to `factor` times as tall as
      the button, each of which can reach over `m` attempts, `n` boxes always
      leave the spot returned free if and only if `n * m` is at most forty: with
      a factor of one and a half, twenty boxes and no more. */
  lemma GuaranteeIsExact(size: Pair, factor: real, m: nat, n: nat)
    requires size.y > 0.0 && Spans(factor, m)
    ensures
      (forall boxes, centre, k | |boxes| == n && LowBoxes(boxes, size, factor) && EndsAt(boxes, centre, size, k) ::
         FreeAt(boxes, centre, size, k))
      <==> n * m <= 40
  {
    hide FreeAt, LowBoxes, Spans, EndsAt, Barriers;
    if n * m <= TRIES {
      forall boxes, centre, k | |boxes| == n && LowBoxes(boxes, size, factor) && EndsAt(boxes, centre, size, k)
        ensures FreeAt(boxes, centre, size, k)
      {
        FreeSpotIsFound(boxes, centre, size, factor, m, k);
      }
    } else {
      SpansArePositive(factor, m);
      BarriersDefeatSearch(size, factor, m, n);
      assert |Barriers(size, factor, m, n)| == n;
    }
  }

  /** One box fifty buttons tall takes every spot there is. */
  lemma TallBoxDefeatsSearch(size: Pair) returns (tall: Box)
    requires size.y > 0.0
    ensures tall.y1 - tall.y0 <= Scaled(50.0, size.y)
    ensures EndsAt([tall], Pair(0.0, 0.0), size, TRIES) && !FreeAt([tall], Pair(0.0, 0.0), size, TRIES)
  {
    hide FreeAt, EndsAt, Scaled;
    BarriersDefeatSearch(size, 50.0, 41, 1);
    tall := Barriers(size, 50.0, 41, 1)[0];
    assert Barriers(size, 50.0, 41, 1) == [tall];
  }

  lemma SpansArePositive(factor: real, m: nat)
    requires Spans(factor, m)
    ensures m > 0
  {}

  lemma HalfAsTallAgainSpansTwo()
    ensures Spans(1.5, 2)
  {}

  // ---- Adding buttons ------------------------------------------------------------------

  predicate HasBox(b: Button) {
    b.position.Some? && b.size.Some?
  }

  ghost predicate UniqueNames(buttons: seq<Entry>) {
    forall j, k | 0 <= j < k < |buttons| :: buttons[j].name != buttons[k].name
  }

  /** A prim defined under a name: a new one at the end, or the old one with its
      attributes overwritten. */
  function Define(buttons: seq<Entry>, name: string, b: Button): seq<Entry> {
    if buttons == [] then [Entry(name, b)]
    else if buttons[0].name == name then [Entry(name, b)] + buttons[1..]
    else [buttons[0]] + Define(buttons[1..], name, b)
  }

  lemma {:induction false} DefineMeaning(buttons: seq<Entry>, name: string, b: Button)
    requires UniqueNames(buttons)
    ensures UniqueNames(Define(buttons, name, b))
    ensures |Define(buttons, name, b)| <= |buttons| + 1
    ensures forall e :: e in Define(buttons, name, b) <==> e == Entry(name, b) || (e in buttons && e.name != name)
  {
    if buttons == [] {
    } else {
      var rest := buttons[1..];
      assert buttons == [buttons[0]] + rest;
      if buttons[0].name == name {
        assert forall e <- rest :: e.name != name;
      } else {
        DefineMeaning(rest, name, b);
        var defined := Define(rest, name, b);
        forall k | 0 <= k < |defined| ensures defined[k].name != buttons[0].name {
          assert defined[k] in defined;
        }
      }
    }
  }

  /** The boxes of the panel's buttons. */
  function PanelBoxes(buttons: seq<Entry>): (boxes: seq<Box>)
    ensures |boxes| <= |buttons|
    ensures forall box :: box in boxes <==> exists e <- buttons :: HasBox(e.button) && BoxOf(e.button) == box
  {
    if buttons == [] then []
    else
      var rest, last := PanelBoxes(buttons[..|buttons| - 1]), buttons[|buttons| - 1];
      assert buttons == buttons[..|buttons| - 1] + [last];
      rest + if HasBox(last.button) then [BoxOf(last.button)] else []
  }

  method CollectBoxes(buttons: seq<Entry>) returns (boxes: seq<Box>)
    ensures boxes == PanelBoxes(buttons)
  {
    boxes := [];
    for k := 0 to |buttons|
      invariant boxes == PanelBoxes(buttons[..k])
    {
      assert buttons[..k + 1][..k] == buttons[..k];
      if HasBox(buttons[k].button) {
        boxes := boxes + [BoxOf(buttons[k].button)];
      }
    }
    assert buttons[..|buttons|] == buttons;
  }

  /** Buttons named in `placed` overlap no other button of the panel. */
  ghost predicate Disjoint(buttons: seq<Entry>, placed: set<string>) {
    forall e, f
      | e in buttons && f in buttons && e.name in placed && f.name != e.name
        && HasBox(e.button) && HasBox(f.button) ::
      !Overlap(BoxOf(e.button), BoxOf(f.button))
  }

  /** A button put into a free box joins the ones that overlap nothing, even when
      it takes the name of one of them. */
  lemma PlacingKeepsDisjoint(buttons: seq<Entry>, placed: set<string>, name: string, b: Button)
    requires UniqueNames(buttons) && Disjoint(buttons, placed) && HasBox(b)
    requires Free(PanelBoxes(buttons), BoxOf(b))
    ensures Disjoint(Define(buttons, name, b), placed + {name})
  {
    hide BoxOf, Define;
    DefineMeaning(buttons, name, b);
    var boxes := PanelBoxes(buttons);
    forall e | e in buttons && HasBox(e.button) ensures !Overlap(BoxOf(b), BoxOf(e.button)) {
      assert BoxOf(e.button) in boxes;
      var j :| 0 <= j < |boxes| && boxes[j] == BoxOf(e.button);
    }
  }

  ghost predicate LowButtons(buttons: seq<Entry>, size: Pair) {
    forall e | e in buttons && HasBox(e.button) :: e.button.size.value.y <= Scaled(1.5, size.y)
  }

  lemma LowButtonsAreLowBoxes(buttons: seq<Entry>, size: Pair)
    requires LowButtons(buttons, size)
    ensures LowBoxes(PanelBoxes(buttons), size, 1.5)
  {
    forall j | 0 <= j < |PanelBoxes(buttons)|
      ensures PanelBoxes(buttons)[j].y1 - PanelBoxes(buttons)[j].y0 <= Scaled(1.5, size.y)
    {
      assert PanelBoxes(buttons)[j] in PanelBoxes(buttons);
      var e :| e in buttons && HasBox(e.button) && BoxOf(e.button) == PanelBoxes(buttons)[j];
    }
  }

  function Underscored(text: string): (name: string)
    ensures |name| == |text|
    ensures forall k | 0 <= k < |text| :: name[k] == if text[k] == ':' then '_' else text[k]
  {
    seq(|text|, k requires 0 <= k < |text| => if text[k] == ':' then '_' else text[k])
  }

  /** A control to place and the label its button is named by. */
  datatype Request = Request(path: string, text: string) {
    function Name(): string { "b_" + Underscored(text) }
  }

  function NewButton(centre: Pair, size: Pair, path: string): Button {
    Button(Some(Pair(centre.x - size.x * 0.5, centre.y - size.y * 0.5)), Some(size), [path])
  }

  function Projected(fit: (Line, Line), world: Pair): Pair {
    Pair(fit.0.scale * world.x + fit.0.offset, fit.1.scale * world.y + fit.1.offset)
  }

  /** The names of the buttons added. */
  function NamesIn(added: seq<(string, Pair)>): (names: set<string>)
    ensures forall k | 0 <= k < |added| :: added[k].0 in names
  {
    if added == [] then {} else NamesIn(added[..|added| - 1]) + {added[|added| - 1].0}
  }

  datatype Outcome = Outcome(buttons: seq<Entry>, added: seq<(string, Pair)>, skipped: seq<string>, free: bool)

  /** The panel after the requests: each is skipped if nothing says where its
      control is, and otherwise placed where the search from its projection
      ends, around everything on the panel by then. */
  ghost function Placements(
      buttons: seq<Entry>, requests: seq<Request>, positions: map<string, Pair>, fit: (Line, Line), size: Pair)
    : Outcome {
    if requests == [] then Outcome(buttons, [], [], true)
    else
      var o := Placements(buttons, requests[..|requests| - 1], positions, fit, size);
      OneMore(o, requests[|requests| - 1], positions, fit, size)
  }

  ghost function OneMore(o: Outcome, r: Request, positions: map<string, Pair>, fit: (Line, Line), size: Pair): Outcome {
    if r.path !in positions then o.(skipped := o.skipped + [r.text])
    else
      var centre := Projected(fit, positions[r.path]);
      var spot := Spot(centre, size, End(PanelBoxes(o.buttons), centre, size, 0));
      Outcome(
        Define(o.buttons, r.Name(), NewButton(spot, size, r.path)),
        o.added + [(r.Name(), spot)],
        o.skipped,
        o.free && Free(PanelBoxes(o.buttons), Around(spot, size)))
  }

  class Panel {
    var buttons: seq<Entry>

    constructor (b: seq<Entry>)
      ensures buttons == b
    {
      buttons := b;
    }

    /** One button, at the first free spot at or below its projected place. */
    method Place(request: Request, centre: Pair, size: Pair) returns (spot: Pair, ghost free: bool)
      requires UniqueNames(buttons)
      modifies this
      ensures spot == Spot(centre, size, End(PanelBoxes(old(buttons)), centre, size, 0))
      ensures buttons == Define(old(buttons), request.Name(), NewButton(spot, size, request.path))
      ensures free <==> Free(PanelBoxes(old(buttons)), Around(spot, size))
      ensures free <==> exists j: nat :: j <= 40 && FreeAt(PanelBoxes(old(buttons)), centre, size, j)
      ensures free <==> Free(PanelBoxes(old(buttons)), BoxOf(NewButton(spot, size, request.path)))
    {
      hide Spot, Free, End;
      var boxes := CollectBoxes(buttons);
      ghost var tries;
      spot, tries := ClearSpot(boxes, centre, size);
      SearchIsDetermined(boxes, centre, size, tries);
      FreeIffSomeAttemptIs(boxes, centre, size, tries);
      free := Free(boxes, Around(spot, size));
      buttons := Define(buttons, request.Name(), NewButton(spot, size, request.path));
    }

    /** A button for every request with a world position. Buttons whose name is
        not asked for stay as they are; and as long as every spot is free, no new
        button overlaps any button, old or new. On a panel that ends up with no
        more than twenty-one, none much taller than the new ones, every spot is. */
    method AddButtons(requests: seq<Request>, positions: map<string, Pair>, given: Option<(Line, Line)>, size: Pair)
      returns (added: seq<(string, Pair)>, skipped: seq<string>, ghost free: bool, ghost fit: Option<(Line, Line)>)
      requires UniqueNames(buttons)
      modifies this
      ensures given.Some? ==> fit == given
      ensures given.None? ==> fit == FitFor(PanelSamples(old(buttons), positions))
      ensures fit.None? ==> buttons == old(buttons) && added == [] && skipped == []
      ensures fit.Some? ==>
                Outcome(buttons, added, skipped, free) == Placements(old(buttons), requests, positions, fit.value, size)
      ensures UniqueNames(buttons)
      ensures forall e | e in old(buttons) && (forall k | 0 <= k < |requests| :: requests[k].Name() != e.name) ::
          e in buttons
      ensures forall e | e in buttons && e !in old(buttons) ::
                exists k :: 0 <= k < |requests| && requests[k].Name() == e.name && requests[k].path in positions
                            && e.button.controls == [requests[k].path] && e.button.size == Some(size)
      ensures free ==> Disjoint(buttons, NamesIn(added))
      ensures size.y > 0.0 && LowButtons(old(buttons), size) && |old(buttons)| + |requests| <= 21 ==> free
    {
      hide Define, PanelBoxes, Disjoint, LowButtons, UniqueNames, NewButton, EndsAt, FreeAt, Free, End, OneMore, Fit,
        Spot, Around, Overlap, BoxOf, HasBox, Projected, PanelSamples, FitFor, Placements, NamesIn, Underscored;
      added, skipped, free := [], [], true;
      var used := given;
      if used.None? {
        used := FitProjection(buttons, positions);
      }
      fit := used;
      NothingPlaced(buttons);
      NoNames();
      if used.None? {
        return;
      }
      NoPlacements(buttons, positions, used.value, size);
      ghost var placed: set<string> := {};
      ghost var modest := size.y > 0.0 && LowButtons(buttons, size) && |buttons| + |requests| <= 21;
      for k := 0 to |requests|
        invariant Outcome(buttons, added, skipped, free)
               == Placements(old(buttons), requests[..k], positions, used.value, size)
        invariant UniqueNames(buttons) && |buttons| <= |old(buttons)| + k
        invariant forall e | e in old(buttons) && (forall j | 0 <= j < k :: requests[j].Name() != e.name) ::
            e in buttons
        invariant forall e | e in buttons && e !in old(buttons) ::
                    exists j :: 0 <= j < k && requests[j].Name() == e.name && requests[j].path in positions
                                && e.button.controls == [requests[j].path] && e.button.size == Some(size)
        invariant placed == NamesIn(added)
        invariant free ==> Disjoint(buttons, placed)
        invariant modest ==> free && LowButtons(buttons, size)
      {
        var request := requests[k];
        PlacementsNext(old(buttons), requests, k, positions, used.value, size);
        ghost var soFar := Outcome(buttons, added, skipped, free);
        if request.path !in positions {
          skipped := skipped + [request.text];
        } else {
          ghost var before := buttons;
          var centre := Projected(used.value, positions[request.path]);
          var spot;
          ghost var found;
          spot, found := Place(request, centre, size);
          ghost var button := NewButton(spot, size, request.path);
          NewButtonFields(spot, size, request.path);
          DefineMeaning(before, request.Name(), button);
          if found && free {
            PlacingKeepsDisjoint(before, placed, request.Name(), button);
          }
          if modest {
            SearchOnModestPanel(before, centre, size, spot);
            LowAfterPlacing(before, size, request.Name(), button);
          }
          free := free && found;
          NamesNext(added, request.Name(), spot);
          added := added + [(request.Name(), spot)];
          placed := placed + {request.Name()};
        }
        OneMoreMeaning(soFar, request, positions, used.value, size);
      }
      assert requests[..|requests|] == requests;
    }
  }

  lemma NoPlacements(buttons: seq<Entry>, positions: map<string, Pair>, fit: (Line, Line), size: Pair)
    ensures Placements(buttons, [], positions, fit, size) == Outcome(buttons, [], [], true)
  {}

  lemma PlacementsNext(
      buttons: seq<Entry>, requests: seq<Request>, k: nat, positions: map<string, Pair>, fit: (Line, Line), size: Pair)
    requires k < |requests|
    ensures Placements(buttons, requests[..k + 1], positions, fit, size) ==
              OneMore(Placements(buttons, requests[..k], positions, fit, size), requests[k], positions, fit, size)
  {
    hide OneMore;
    assert requests[..k + 1][..k] == requests[..k];
  }

  lemma NoNames()
    ensures NamesIn([]) == {}
  {}

  lemma NamesNext(added: seq<(string, Pair)>, name: string, spot: Pair)
    ensures NamesIn(added + [(name, spot)]) == NamesIn(added) + {name}
  {
    assert (added + [(name, spot)])[..|added|] == added;
  }

  lemma OneMoreMeaning(o: Outcome, r: Request, positions: map<string, Pair>, fit: (Line, Line), size: Pair)
    ensures r.path !in positions ==> OneMore(o, r, positions, fit, size) == o.(skipped := o.skipped + [r.text])
    ensures r.path in positions ==>
              var centre := Projected(fit, positions[r.path]);
              var spot := Spot(centre, size, End(PanelBoxes(o.buttons), centre, size, 0));
              OneMore(o, r, positions, fit, size) ==
                Outcome(
                  Define(o.buttons, r.Name(), NewButton(spot, size, r.path)),
                  o.added + [(r.Name(), spot)],
                  o.skipped,
                  o.free && Free(PanelBoxes(o.buttons), Around(spot, size)))
  {}

  lemma NothingPlaced(buttons: seq<Entry>)
    ensures Disjoint(buttons, {})
  {}

  lemma NewButtonFields(spot: Pair, size: Pair, path: string)
    ensures
      var b := NewButton(spot, size, path);
      HasBox(b) && b.size == Some(size) && b.controls == [path]
  {}

  lemma LowAfterPlacing(buttons: seq<Entry>, size: Pair, name: string, b: Button)
    requires UniqueNames(buttons) && LowButtons(buttons, size) && size.y > 0.0 && b.size == Some(size)
    ensures LowButtons(Define(buttons, name, b), size)
  {
    ScaledGrow(1.0, 1.5, size.y);
    DefineMeaning(buttons, name, b);
  }

  lemma SearchOnModestPanel(buttons: seq<Entry>, centre: Pair, size: Pair, spot: Pair)
    requires size.y > 0.0 && LowButtons(buttons, size) && |buttons| <= 20
    requires spot == Spot(centre, size, End(PanelBoxes(buttons), centre, size, 0))
    ensures Free(PanelBoxes(buttons), Around(spot, size))
  {
    hide LowButtons, LowBoxes, Spot, PanelBoxes, Spans;
    LowButtonsAreLowBoxes(buttons, size);
    HalfAsTallAgainSpansTwo();
    FreeSpotIsFound(PanelBoxes(buttons), centre, size, 1.5, 2, End(PanelBoxes(buttons), centre, size, 0));
  }
}
