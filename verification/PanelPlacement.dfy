/** What the samples of a panel are and where a button is put, in plain numbers. */
module PanelPlacement {
  import opened Options
  import opened LeastSquares
  import opened PickerLayout

  // ---- Samples -------------------------------------------------------------------------

  /** Control `at.1` of button `at.0` has a world position, and the button one on
      the panel. */
  ghost predicate Wired(buttons: seq<Entry>, positions: map<string, Pair>, at: (nat, nat)) {
    && at.0 < |buttons| && buttons[at.0].button.position.Some?
    && at.1 < |buttons[at.0].button.controls| && buttons[at.0].button.controls[at.1] in positions
  }

  /** The wired controls in order: button by button, control by control. */
  ghost predicate InOrder(ats: seq<(nat, nat)>) {
    forall i, j | 0 <= i < j < |ats| :: ats[i].0 < ats[j].0 || (ats[i].0 == ats[j].0 && ats[i].1 < ats[j].1)
  }

  /** The sample of a wired control: where it is in the world against the middle of
      its button, which is its corner if it has no size. */
  ghost predicate SampleOf(buttons: seq<Entry>, positions: map<string, Pair>, at: (nat, nat), x: Sample, y: Sample)
    requires Wired(buttons, positions, at)
  {
    var b := buttons[at.0].button;
    var world := positions[b.controls[at.1]];
    && x.world == world.x && y.world == world.y
    && x.panel == b.position.value.x + (if b.size.Some? then b.size.value.x / 2.0 else 0.0)
    && y.panel == b.position.value.y + (if b.size.Some? then b.size.value.y / 2.0 else 0.0)
  }

  /** `ats` lists the wired controls of the buttons before the `n`-th, and of the
      `n`-th the first `c`, each once and in order. */
  ghost predicate ListsWired(
      buttons: seq<Entry>, positions: map<string, Pair>, n: nat, c: nat, ats: seq<(nat, nat)>) {
    && InOrder(ats)
    && (forall k | 0 <= k < |ats| :: Wired(buttons, positions, ats[k]) && Before(ats[k], n, c))
    && (forall at | Wired(buttons, positions, at) && Before(at, n, c) :: at in ats)
  }

  ghost predicate Before(at: (nat, nat), n: nat, c: nat) {
    at.0 < n || (at.0 == n && at.1 < c)
  }

  ghost predicate SamplesOf(
      buttons: seq<Entry>, positions: map<string, Pair>, ats: seq<(nat, nat)>, xs: seq<Sample>, ys: seq<Sample>) {
    && |xs| == |ys| == |ats|
    && forall k | 0 <= k < |ats| ::
         Wired(buttons, positions, ats[k]) && SampleOf(buttons, positions, ats[k], xs[k], ys[k])
  }

  lemma CentreSample(buttons: seq<Entry>, positions: map<string, Pair>, at: (nat, nat))
    requires Wired(buttons, positions, at)
    ensures
      var b := buttons[at.0].button;
      var world := positions[b.controls[at.1]];
      SampleOf(buttons, positions, at, Sample(world.x, Centre(b).x), Sample(world.y, Centre(b).y))
  {}

  lemma ListsNext(buttons: seq<Entry>, positions: map<string, Pair>, n: nat, c: nat, ats: seq<(nat, nat)>)
    requires ListsWired(buttons, positions, n, c, ats)
    ensures Wired(buttons, positions, (n, c)) ==> ListsWired(buttons, positions, n, c + 1, ats + [(n, c)])
    ensures !Wired(buttons, positions, (n, c)) ==> ListsWired(buttons, positions, n, c + 1, ats)
  {
    hide Wired;
    forall e: (nat, nat) ensures Before(e, n, c + 1) <==> Before(e, n, c) || e == (n, c) {}
    var all := ats + [(n, c)];
    forall at | Wired(buttons, positions, at) && Before(at, n, c + 1) ensures at in all {
      assert at == (n, c) || at in ats;
      assert all[|ats|] == (n, c);
    }
    if !Wired(buttons, positions, (n, c)) {
      forall at | Wired(buttons, positions, at) && Before(at, n, c + 1) ensures at in ats {}
    }
  }

  lemma SamplesNext(
      buttons: seq<Entry>, positions: map<string, Pair>, ats: seq<(nat, nat)>, xs: seq<Sample>, ys: seq<Sample>,
      at: (nat, nat), x: Sample, y: Sample)
    requires SamplesOf(buttons, positions, ats, xs, ys)
    requires Wired(buttons, positions, at) && SampleOf(buttons, positions, at, x, y)
    ensures SamplesOf(buttons, positions, ats + [at], xs + [x], ys + [y])
  {
    hide Wired, SampleOf;
  }

  lemma {:induction false} ButtonSamplesAreWired(
      buttons: seq<Entry>, positions: map<string, Pair>, n: nat, c: nat,
      ats: seq<(nat, nat)>, xs: seq<Sample>, ys: seq<Sample>)
    returns (all: seq<(nat, nat)>)
    requires n < |buttons| && buttons[n].button.position.Some? && c <= |buttons[n].button.controls|
    requires ListsWired(buttons, positions, n, 0, ats) && SamplesOf(buttons, positions, ats, xs, ys)
    ensures ListsWired(buttons, positions, n, c, all)
    ensures
      var (moreX, moreY) := ButtonSamples(buttons[n].button, positions, c);
      SamplesOf(buttons, positions, all, xs + moreX, ys + moreY)
  {
    hide SampleOf, SamplesOf, ListsWired, Centre;
    if c == 0 {
      all := ats;
      assert xs + [] == xs && ys + [] == ys;
    } else {
      all := ButtonSamplesAreWired(buttons, positions, n, c - 1, ats, xs, ys);
      ListsNext(buttons, positions, n, c - 1, all);
      var b, at := buttons[n].button, (n, c - 1);
      if b.controls[c - 1] in positions {
        CentreSample(buttons, positions, at);
        var (moreX, moreY) := ButtonSamples(b, positions, c - 1);
        var world := positions[b.controls[c - 1]];
        var x, y := Sample(world.x, Centre(b).x), Sample(world.y, Centre(b).y);
        SamplesNext(buttons, positions, all, xs + moreX, ys + moreY, at, x, y);
        assert xs + (moreX + [x]) == (xs + moreX) + [x] && ys + (moreY + [y]) == (ys + moreY) + [y];
        all := all + [at];
      }
    }
  }

  lemma {:induction false} PanelSamplesAreWired(buttons: seq<Entry>, positions: map<string, Pair>, n: nat)
    returns (ats: seq<(nat, nat)>)
    requires n <= |buttons|
    ensures ListsWired(buttons, positions, n, 0, ats)
    ensures
      var (xs, ys) := PanelSamples(buttons[..n], positions);
      SamplesOf(buttons, positions, ats, xs, ys)
  {
    hide SampleOf, ButtonSamples;
    if n == 0 {
      ats := [];
    } else {
      ats := PanelSamplesAreWired(buttons, positions, n - 1);
      assert buttons[..n][..n - 1] == buttons[..n - 1] && buttons[..n][n - 1] == buttons[n - 1];
      var b := buttons[n - 1].button;
      if b.position.Some? {
        var (xs, ys) := PanelSamples(buttons[..n - 1], positions);
        ats := ButtonSamplesAreWired(buttons, positions, n - 1, |b.controls|, ats, xs, ys);
      }
      assert forall at | Wired(buttons, positions, at) :: Before(at, n, 0) <==> Before(at, n - 1, |b.controls|);
    }
  }

  /** One sample on each axis for every wired control, each once and in order. */
  lemma SamplesAreWired(buttons: seq<Entry>, positions: map<string, Pair>)
    ensures
      var (xs, ys) := PanelSamples(buttons, positions);
      exists ats :: SamplesOf(buttons, positions, ats, xs, ys) && InOrder(ats)
                    && forall at :: at in ats <==> Wired(buttons, positions, at)
  {
    hide SamplesOf, Wired;
    var ats := PanelSamplesAreWired(buttons, positions, |buttons|);
    assert buttons[..|buttons|] == buttons;
    forall at ensures at in ats <==> Wired(buttons, positions, at) {
      WiredInRange(buttons, positions, at);
      if at in ats {
        var k :| 0 <= k < |ats| && ats[k] == at;
      }
    }
  }

  lemma WiredInRange(buttons: seq<Entry>, positions: map<string, Pair>, at: (nat, nat))
    ensures Wired(buttons, positions, at) ==> Before(at, |buttons|, 0)
  {}

  // ---- Overlap -------------------------------------------------------------------------

  ghost predicate Within(b: Box, x: real, y: real) {
    b.x0 < x < b.x1 && b.y0 < y < b.y1
  }

  /** Boxes overlap exactly if some point is inside both. */
  lemma OverlapMeaning(a: Box, b: Box)
    requires a.x0 < a.x1 && a.y0 < a.y1 && b.x0 < b.x1 && b.y0 < b.y1
    ensures Overlap(a, b) <==> exists x, y :: Within(a, x, y) && Within(b, x, y)
  {
    if Overlap(a, b) {
      var x := Between(a.x0, a.x1, b.x0, b.x1);
      var y := Between(a.y0, a.y1, b.y0, b.y1);
      assert Within(a, x, y) && Within(b, x, y);
    }
  }

  lemma Between(a0: real, a1: real, b0: real, b1: real) returns (x: real)
    requires a0 < a1 && b0 < b1 && a0 < b1 && b0 < a1
    ensures a0 < x < a1 && b0 < x < b1
  {
    var low, high := if a0 < b0 then b0 else a0, if a1 < b1 then a1 else b1;
    x := (low + high) / 2.0;
  }

  // ---- Where a button is put -----------------------------------------------------------

  /** A button of the size with its corner at `x0`, `y0` overlaps `b`, if `b` has
      a place at all. */
  ghost predicate Hits(b: Button, x0: real, y0: real, size: Pair) {
    && b.position.Some? && b.size.Some?
    && x0 < b.position.value.x + b.size.value.x && b.position.value.x < x0 + size.x
    && y0 < b.position.value.y + b.size.value.y && b.position.value.y < y0 + size.y
  }

  /** Centred so many steps of one and a quarter of its height below the projection
      of `world`, the new button would overlap a button of the panel. */
  ghost predicate Blocked(buttons: seq<Entry>, fit: (Line, Line), world: Pair, size: Pair, steps: nat) {
    HitsAny(buttons, CornerX(fit, world, size), CornerY(fit, world, size, steps), size)
  }

  function CornerX(fit: (Line, Line), world: Pair, size: Pair): real {
    fit.0.scale * world.x + fit.0.offset - size.x / 2.0
  }

  function CornerY(fit: (Line, Line), world: Pair, size: Pair, steps: nat): real {
    fit.1.scale * world.y + fit.1.offset + steps as real * (size.y * 1.25) - size.y / 2.0
  }

  ghost predicate HitsAny(buttons: seq<Entry>, x0: real, y0: real, size: Pair) {
    exists e :: e in buttons && Hits(e.button, x0, y0, size)
  }

  lemma HitsIsOverlap(b: Button, x0: real, y0: real, size: Pair)
    ensures Hits(b, x0, y0, size) <==> HasBox(b) && Overlap(Box(x0, y0, x0 + size.x, y0 + size.y), BoxOf(b))
  {}

  lemma SpotIs(fit: (Line, Line), world: Pair, size: Pair, k: nat)
    ensures
      var x0, y0 := CornerX(fit, world, size), CornerY(fit, world, size, k);
      Around(Spot(Projected(fit, world), size, k), size) == Box(x0, y0, x0 + size.x, y0 + size.y)
  {}

  lemma FreeIsNotBlocked(buttons: seq<Entry>, fit: (Line, Line), world: Pair, size: Pair, k: nat)
    ensures FreeAt(PanelBoxes(buttons), Projected(fit, world), size, k) <==> !Blocked(buttons, fit, world, size, k)
  {
    hide Projected, Spot, Around, PanelBoxes, HitsAny, Free, CornerX, CornerY;
    SpotIs(fit, world, size, k);
    FreeIsNoHit(
      buttons, Around(Spot(Projected(fit, world), size, k), size), CornerX(fit, world, size),
      CornerY(fit, world, size, k), size);
  }

  lemma FreeIsNoHit(buttons: seq<Entry>, box: Box, x0: real, y0: real, size: Pair)
    requires box == Box(x0, y0, x0 + size.x, y0 + size.y)
    ensures Free(PanelBoxes(buttons), box) <==> !HitsAny(buttons, x0, y0, size)
  {
    hide Hits, Overlap, BoxOf, PanelBoxes;
    var boxes := PanelBoxes(buttons);
    forall e | e in buttons
      ensures Hits(e.button, x0, y0, size) <==> HasBox(e.button) && Overlap(box, BoxOf(e.button))
    {
      HitsIsOverlap(e.button, x0, y0, size);
    }
    if j :| 0 <= j < |boxes| && Overlap(box, boxes[j]) {
      assert boxes[j] in boxes;
      var e :| e in buttons && HasBox(e.button) && BoxOf(e.button) == boxes[j];
      assert Hits(e.button, x0, y0, size);
    }
    if e :| e in buttons && Hits(e.button, x0, y0, size) {
      assert BoxOf(e.button) in boxes;
      var j :| 0 <= j < |boxes| && boxes[j] == BoxOf(e.button);
    }
  }

  /** A button is centred at the projection of its control through the fit, or as
      many steps of one and a quarter of its height below as are blocked before
      it, at most forty. It is named `b_` and its label, and it alone is new. */
  lemma ButtonIsPut(o: Outcome, r: Request, positions: map<string, Pair>, fit: (Line, Line), size: Pair)
    returns (steps: nat, x: real, y: real)
    requires UniqueNames(o.buttons) && r.path in positions
    ensures
      var world := positions[r.path];
      && x == fit.0.scale * world.x + fit.0.offset
      && y == fit.1.scale * world.y + fit.1.offset + steps as real * (size.y * 1.25)
      && steps <= 40
      && (forall k: nat | k < steps :: Blocked(o.buttons, fit, world, size, k))
      && (steps < 40 ==> !Blocked(o.buttons, fit, world, size, steps))
    ensures
      var after, name := OneMore(o, r, positions, fit, size), "b_" + Underscored(r.text);
      && after.added == o.added + [(name, Pair(x, y))] && after.skipped == o.skipped
      && forall e :: e in after.buttons <==>
           || e == Entry(name, Button(Some(Pair(x - size.x / 2.0, y - size.y / 2.0)), Some(size), [r.path]))
           || (e in o.buttons && e.name != name)
  {
    hide FreeAt, Blocked, Define, PanelBoxes, End, UniqueNames, Underscored, Projected, Spot, NewButton, OneMore;
    var world := positions[r.path];
    var centre := Projected(fit, world);
    steps := End(PanelBoxes(o.buttons), centre, size, 0);
    var spot := Spot(centre, size, steps);
    DefineMeaning(o.buttons, r.Name(), NewButton(spot, size, r.path));
    forall k: nat
      ensures FreeAt(PanelBoxes(o.buttons), centre, size, k) <==> !Blocked(o.buttons, fit, world, size, k)
    {
      FreeIsNotBlocked(o.buttons, fit, world, size, k);
    }
    OneMoreMeaning(o, r, positions, fit, size);
    x, y := spot.x, spot.y;
    SpotIsAt(fit, world, size, steps);
    NewButtonIs(spot, size, r.path);
  }

  lemma SpotIsAt(fit: (Line, Line), world: Pair, size: Pair, k: nat)
    ensures Spot(Projected(fit, world), size, k).x == fit.0.scale * world.x + fit.0.offset
    ensures Spot(Projected(fit, world), size, k).y
         == fit.1.scale * world.y + fit.1.offset + k as real * (size.y * 1.25)
  {}

  lemma NewButtonIs(spot: Pair, size: Pair, path: string)
    ensures NewButton(spot, size, path)
         == Button(Some(Pair(spot.x - size.x / 2.0, spot.y - size.y / 2.0)), Some(size), [path])
  {}
}
