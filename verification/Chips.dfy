/** Placing value chips inside the safe area, off the blockers and off each
    other (`docs/render_media.py`). */
module Chips {
  import opened FiniteSets
  import opened Options

  const SAFE := 20.0
  const VIEW_W := 640.0
  const VIEW_H := 360.0
  const ATTEMPTS: nat := 12

  datatype Box = Box(x0: real, y0: real, x1: real, y1: real)

  /** What is asked for: where the ring is, the preferred side, how wide the
      text is, and whether the chip must go out to the margin. */
  datatype Wish = Wish(ax: real, ay: real, side: int, textWidth: real, margin: bool)

  function Min(a: real, b: real): real {
    if b < a then b else a
  }

  function Max(a: real, b: real): real {
    if b > a then b else a
  }

  function Width(w: Wish): real {
    w.textWidth + 14.0
  }

  /** A chip at `x`, `y` is within 4 pixels sideways and 3 up and down. */
  predicate Near(other: Box, x: real, width: real, y: real) {
    x < other.x1 + 4.0 && x + width > other.x0 - 4.0 && y < other.y1 + 3.0 && y + 19.0 > other.y0 - 3.0
  }

  /** The first obstacle, in the order they were placed. */
  function FirstClash(taken: seq<Box>, x: real, width: real, y: real): (clash: Option<Box>)
    ensures clash.None? <==> forall k | 0 <= k < |taken| :: !Near(taken[k], x, width, y)
    ensures clash.Some? ==> clash.value in taken && Near(clash.value, x, width, y)
  {
    if taken == [] then None
    else if Near(taken[0], x, width, y) then Some(taken[0])
    else FirstClash(taken[1..], x, width, y)
  }

  /** Below the obstacle if there is room, otherwise above it. */
  function Pushed(clash: Box): real {
    if clash.y1 + 5.0 + 19.0 > VIEW_H - SAFE then Max(SAFE, clash.y0 - 24.0) else clash.y1 + 5.0
  }

  /** Where the search ends, and whether it ended because nothing clashed. */
  function Search(taken: seq<Box>, x: real, width: real, y: real, attempts: nat): (real, bool)
    decreases attempts
  {
    if attempts == 0 then (y, false)
    else
      var clash := FirstClash(taken, x, width, y);
      if clash.None? then (y, true) else Search(taken, x, width, Pushed(clash.value), attempts - 1)
  }

  function StartX(w: Wish): real {
    var width := Width(w);
    var x :=
      if w.margin then if w.side >= 0 then SAFE else VIEW_W - SAFE - width
      else if w.side >= 0 then w.ax + 14.0 else w.ax - 14.0 - width;
    Min(Max(x, SAFE), VIEW_W - SAFE - width)
  }

  function StartY(w: Wish): real {
    Min(Max(w.ay - 24.0, SAFE), VIEW_H - SAFE - 20.0)
  }

  function Chip(taken: seq<Box>, w: Wish): (Box, bool) {
    var (y, clear) := Search(taken, StartX(w), Width(w), StartY(w), ATTEMPTS);
    (Box(StartX(w), y, StartX(w) + Width(w), y + 19.0), clear)
  }

  /** The chips in order, each placed around the blockers and the chips before
      it; `clear` says whose search ended without a clash. */
  ghost predicate Placed(wanted: seq<Wish>, blockers: seq<Box>, boxes: seq<Box>, clear: seq<bool>) {
    && |boxes| == |clear| == |wanted|
    && forall i | 0 <= i < |boxes| :: (boxes[i], clear[i]) == Chip(blockers + boxes[..i], wanted[i])
  }

  method FindClash(taken: seq<Box>, x: real, width: real, y: real) returns (clash: Option<Box>)
    ensures clash == FirstClash(taken, x, width, y)
  {
    for k := 0 to |taken|
      invariant FirstClash(taken[k..], x, width, y) == FirstClash(taken, x, width, y)
    {
      var other := taken[k];
      if Near(other, x, width, y) {
        return Some(other);
      }
      assert taken[k..][1..] == taken[k + 1..];
    }
    return None;
  }

  /** At most twelve pushes. */
  method SearchFree(taken: seq<Box>, x: real, width: real, start: real) returns (y: real, ghost clear: bool)
    ensures y == Search(taken, x, width, start, ATTEMPTS).0
    ensures clear == Search(taken, x, width, start, ATTEMPTS).1
  {
    hide FirstClash;
    y, clear := start, false;
    var attempt := 0;
    while attempt < ATTEMPTS
      invariant 0 <= attempt <= ATTEMPTS && !clear
      invariant Search(taken, x, width, y, ATTEMPTS - attempt) == Search(taken, x, width, start, ATTEMPTS)
    {
      var clash := FindClash(taken, x, width, y);
      if clash.None? {
        clear := true;
        break;
      }
      y := clash.value.y1 + 5.0;
      if y + 19.0 > VIEW_H - SAFE {
        y := Max(SAFE, clash.value.y0 - 24.0);
      }
      attempt := attempt + 1;
    }
  }

  method PlaceChips(wanted: seq<Wish>, blockers: seq<Box>) returns (boxes: seq<Box>, ghost clear: seq<bool>)
    ensures |boxes| == |wanted| && forall i | 0 <= i < |boxes| :: boxes[i] == Chip(blockers + boxes[..i], wanted[i]).0
    ensures Placed(wanted, blockers, boxes, clear)
  {
    hide Search;
    var taken := blockers;
    boxes, clear := [], [];
    for i := 0 to |wanted|
      invariant |boxes| == |clear| == i && taken == blockers + boxes
      invariant forall j | 0 <= j < i :: (boxes[j], clear[j]) == Chip(blockers + boxes[..j], wanted[j])
    {
      var w := wanted[i];
      var width := w.textWidth + 14.0;
      var x := if w.side >= 0 then w.ax + 14.0 else w.ax - 14.0 - width;
      if w.margin {
        x := if w.side >= 0 then SAFE else VIEW_W - SAFE - width;
      }
      var y := w.ay - 24.0;
      x := Min(Max(x, SAFE), VIEW_W - SAFE - width);
      y := Min(Max(y, SAFE), VIEW_H - SAFE - 20.0);
      ghost var found;
      y, found := SearchFree(taken, x, width, y);
      var box := Box(x, y, x + width, y + 19.0);
      assert (box, found) == Chip(taken, w);
      hide Chip;
      ghost var before := boxes;
      taken := taken + [box];
      boxes, clear := boxes + [box], clear + [found];
      assert before == boxes[..i];
      forall j | 0 <= j < i ensures boxes[..j] == before[..j] {}
    }
  }

  // ---- The safe area -------------------------------------------------------------------

  ghost predicate SafeY(y: real) {
    SAFE <= y && y + 19.0 <= VIEW_H - SAFE
  }

  /** Whatever the obstacle, a push from inside the safe area ends inside it. */
  lemma PushStaysSafe(clash: Box, x: real, width: real, y: real)
    requires SafeY(y) && Near(clash, x, width, y)
    ensures SafeY(Pushed(clash))
  {}

  lemma {:induction false} SearchStaysSafe(taken: seq<Box>, x: real, width: real, y: real, attempts: nat)
    requires SafeY(y)
    ensures SafeY(Search(taken, x, width, y, attempts).0)
    decreases attempts
  {
    if attempts > 0 {
      var clash := FirstClash(taken, x, width, y);
      if clash.Some? {
        PushStaysSafe(clash.value, x, width, y);
        SearchStaysSafe(taken, x, width, Pushed(clash.value), attempts - 1);
      }
    }
  }

  /** Every chip keeps to the safe area up and down, for whatever blockers; and
      sideways if and only if it is narrow enough to. */
  lemma ChipsStaySafe(wanted: seq<Wish>, blockers: seq<Box>, boxes: seq<Box>, clear: seq<bool>, i: nat)
    requires Placed(wanted, blockers, boxes, clear) && i < |boxes|
    ensures SAFE <= boxes[i].y0 && boxes[i].y1 == boxes[i].y0 + 19.0 <= VIEW_H - SAFE
    ensures boxes[i].x1 == boxes[i].x0 + Width(wanted[i]) <= VIEW_W - SAFE
    ensures SAFE <= boxes[i].x0 <==> Width(wanted[i]) <= VIEW_W - 2.0 * SAFE
  {
    var w := wanted[i];
    assert (boxes[i], clear[i]) == Chip(blockers + boxes[..i], w);
    SearchStaysSafe(blockers + boxes[..i], StartX(w), Width(w), StartY(w), ATTEMPTS);
  }

  // ---- Clearance -----------------------------------------------------------------------

  lemma {:induction false} ClearSearchIsClear(taken: seq<Box>, x: real, width: real, y: real, attempts: nat)
    ensures Search(taken, x, width, y, attempts).1 ==>
              forall k | 0 <= k < |taken| :: !Near(taken[k], x, width, Search(taken, x, width, y, attempts).0)
    decreases attempts
  {
    if attempts > 0 {
      var clash := FirstClash(taken, x, width, y);
      if clash.Some? {
        ClearSearchIsClear(taken, x, width, Pushed(clash.value), attempts - 1);
      }
    }
  }

  /** The boxes are at least 4 pixels apart sideways or 3 up and down. */
  ghost predicate Apart(a: Box, b: Box) {
    || a.x0 >= b.x1 + 4.0
    || a.x1 <= b.x0 - 4.0
    || a.y0 >= b.y1 + 3.0
    || a.y1 <= b.y0 - 3.0
  }

  /** A chip whose search ended without a clash keeps its distance from every
      blocker and from every chip placed before it. */
  lemma ClearChipsKeepDistance(wanted: seq<Wish>, blockers: seq<Box>, boxes: seq<Box>, clear: seq<bool>, i: nat)
    requires Placed(wanted, blockers, boxes, clear) && i < |boxes| && clear[i]
    ensures forall k | 0 <= k < |blockers| :: Apart(boxes[i], blockers[k])
    ensures forall j | 0 <= j < i :: Apart(boxes[i], boxes[j])
  {
    var w, taken := wanted[i], blockers + boxes[..i];
    assert (boxes[i], clear[i]) == Chip(taken, w);
    ClearSearchIsClear(taken, StartX(w), Width(w), StartY(w), ATTEMPTS);
    forall k | 0 <= k < |blockers| ensures Apart(boxes[i], blockers[k]) {
      assert taken[k] == blockers[k];
    }
    forall j | 0 <= j < i ensures Apart(boxes[i], boxes[j]) {
      assert taken[|blockers| + j] == boxes[j];
    }
  }

  // ---- When the search succeeds --------------------------------------------------------

  /** How many boxes the search has not been pushed past yet. */
  ghost function Ahead(taken: seq<Box>, y: real): nat {
    if taken == [] then 0
    else (if y < taken[0].y1 + 3.0 then 1 else 0) + Ahead(taken[1..], y)
  }

  lemma {:induction false} AheadShrinks(taken: seq<Box>, y: real, next: real)
    requires y <= next
    ensures Ahead(taken, next) <= Ahead(taken, y) <= |taken|
    ensures (exists b :: b in taken && y < b.y1 + 3.0 <= next) ==> Ahead(taken, next) < Ahead(taken, y)
  {
    if taken != [] {
      AheadShrinks(taken[1..], y, next);
      if b :| b in taken && y < b.y1 + 3.0 <= next {
        assert b == taken[0] || b in taken[1..];
      }
    }
  }

  /** Every box leaves room for a chip under it. */
  ghost predicate RoomBelow(taken: seq<Box>) {
    forall b <- taken :: b.y1 + 24.0 <= VIEW_H - SAFE
  }

  lemma {:induction false} SearchSucceeds(taken: seq<Box>, x: real, width: real, y: real, attempts: nat)
    requires RoomBelow(taken) && Ahead(taken, y) < attempts
    ensures Search(taken, x, width, y, attempts).1
    decreases attempts
  {
    var clash := FirstClash(taken, x, width, y);
    if clash.Some? {
      var next := clash.value.y1 + 5.0;
      assert clash.value in taken && Pushed(clash.value) == next;
      AheadShrinks(taken, y, next);
      SearchSucceeds(taken, x, width, next, attempts - 1);
    }
  }

  // ---- Going on for ever ---------------------------------------------------------------

  /** Where `k` pushes lead; a place where nothing clashes is not left again. */
  ghost function Pushes(taken: seq<Box>, x: real, width: real, y: real, k: nat): real {
    if k == 0 then y
    else
      var before := Pushes(taken, x, width, y, k - 1);
      var clash := FirstClash(taken, x, width, before);
      if clash.None? then before else Pushed(clash.value)
  }

  /** Something is in the way after `k` pushes. */
  ghost predicate ClashAt(taken: seq<Box>, x: real, width: real, y: real, k: nat) {
    FirstClash(taken, x, width, Pushes(taken, x, width, y, k)).Some?
  }

  lemma {:induction false} PushedFirst(taken: seq<Box>, x: real, width: real, y: real, k: nat)
    requires ClashAt(taken, x, width, y, 0)
    ensures Pushes(taken, x, width, y, k + 1)
         == Pushes(taken, x, width, Pushed(FirstClash(taken, x, width, y).value), k)
  {
    if k > 0 {
      PushedFirst(taken, x, width, y, k - 1);
    }
  }

  /** A search fails exactly when every attempt it makes clashes. */
  lemma {:induction false} SearchFailsIffAllClash(taken: seq<Box>, x: real, width: real, y: real, attempts: nat)
    ensures !Search(taken, x, width, y, attempts).1 <==> forall k: nat | k < attempts :: ClashAt(taken, x, width, y, k)
    decreases attempts
  {
    if attempts > 0 && ClashAt(taken, x, width, y, 0) {
      var next := Pushed(FirstClash(taken, x, width, y).value);
      SearchFailsIffAllClash(taken, x, width, next, attempts - 1);
      forall k: nat ensures ClashAt(taken, x, width, y, k + 1) <==> ClashAt(taken, x, width, next, k) {
        PushedFirst(taken, x, width, y, k);
      }
      forall k: nat | 0 < k ensures ClashAt(taken, x, width, y, k) <==> ClashAt(taken, x, width, next, k - 1) {
        PushedFirst(taken, x, width, y, k - 1);
      }
    }
  }

  /** The chip is put where twelve pushes lead. */
  lemma {:induction false} SearchEndsAtPushes(taken: seq<Box>, x: real, width: real, y: real, attempts: nat)
    ensures Search(taken, x, width, y, attempts).0 == Pushes(taken, x, width, y, attempts)
    decreases attempts
  {
    if attempts > 0 {
      if ClashAt(taken, x, width, y, 0) {
        SearchEndsAtPushes(taken, x, width, Pushed(FirstClash(taken, x, width, y).value), attempts - 1);
        PushedFirst(taken, x, width, y, attempts - 1);
      } else {
        ClearIsKept(taken, x, width, y, 0, attempts);
      }
    }
  }

  /** A place where nothing clashes is not left again. */
  lemma {:induction false} ClearIsKept(taken: seq<Box>, x: real, width: real, y: real, i: nat, k: nat)
    requires i <= k && !ClashAt(taken, x, width, y, i)
    ensures Pushes(taken, x, width, y, k) == Pushes(taken, x, width, y, i) && !ClashAt(taken, x, width, y, k)
  {
    if i < k {
      ClearIsKept(taken, x, width, y, i, k - 1);
    }
  }

  /** The chip, where it is put, keeps its distance from every obstacle. */
  ghost predicate LandsClear(taken: seq<Box>, w: Wish) {
    forall k | 0 <= k < |taken| :: !Near(taken[k], StartX(w), Width(w), Chip(taken, w).0.y0)
  }

  /** It does so if and only if one of thirteen places is clear: where it starts,
      and where each push leads, the last included, which is not looked at. */
  lemma LandsClearIffSomePlaceIs(taken: seq<Box>, w: Wish)
    ensures LandsClear(taken, w) <==>
      exists k: nat :: k <= 12 && !ClashAt(taken, StartX(w), Width(w), StartY(w), k)
  {
    hide Search, Near;
    var x, width, y := StartX(w), Width(w), StartY(w);
    SearchEndsAtPushes(taken, x, width, y, ATTEMPTS);
    assert LandsClear(taken, w) <==> !ClashAt(taken, x, width, y, ATTEMPTS);
    if k: nat :| k <= ATTEMPTS && !ClashAt(taken, x, width, y, k) {
      ClearIsKept(taken, x, width, y, k, ATTEMPTS);
    }
  }

  ghost predicate KeepsDistance(box: Box, others: seq<Box>) {
    forall k | 0 <= k < |others| :: Apart(box, others[k])
  }

  /** A chip keeps its distance from every blocker and every earlier chip if and
      only if it lands clear of them, whichever way its search ended. */
  lemma KeepsDistanceIffLandsClear(wanted: seq<Wish>, blockers: seq<Box>, boxes: seq<Box>, clear: seq<bool>, i: nat)
    requires Placed(wanted, blockers, boxes, clear) && i < |boxes|
    ensures KeepsDistance(boxes[i], blockers) && KeepsDistance(boxes[i], boxes[..i]) <==>
              LandsClear(blockers + boxes[..i], wanted[i])
  {
    hide Search;
    var w, taken := wanted[i], blockers + boxes[..i];
    assert (boxes[i], clear[i]) == Chip(taken, w);
    assert LandsClear(taken, w) <==> KeepsDistance(boxes[i], taken);
    DistanceFromBoth(boxes[i], blockers, boxes[..i]);
  }

  lemma DistanceFromBoth(box: Box, a: seq<Box>, b: seq<Box>)
    ensures KeepsDistance(box, a + b) <==> KeepsDistance(box, a) && KeepsDistance(box, b)
  {
    hide Apart;
    forall k | 0 <= k < |a| ensures (a + b)[k] == a[k] {}
    forall k | 0 <= k < |b| ensures (a + b)[|a| + k] == b[k] {}
    if KeepsDistance(box, a + b) {
      forall k | 0 <= k < |b| ensures Apart(box, b[k]) {
        assert Apart(box, (a + b)[|a| + k]);
      }
    }
  }

  /** With at most twelve obstacles and room for a chip under each of them, it
      always lands clear. */
  lemma FewObstaclesAlwaysClear(taken: seq<Box>, w: Wish)
    requires |taken| <= 12 && RoomBelow(taken)
    ensures LandsClear(taken, w)
  {
    hide Search, ClashAt;
    AheadShrinks(taken, StartY(w), StartY(w));
    SearchSucceeds(taken, StartX(w), Width(w), StartY(w), ATTEMPTS + 1);
    SearchFailsIffAllClash(taken, StartX(w), Width(w), StartY(w), ATTEMPTS + 1);
    LandsClearIffSomePlaceIs(taken, w);
  }

  lemma SamePlaceSamePush(taken: seq<Box>, x: real, width: real, y: real, a: nat, b: nat)
    requires Pushes(taken, x, width, y, a) == Pushes(taken, x, width, y, b)
    ensures Pushes(taken, x, width, y, a + 1) == Pushes(taken, x, width, y, b + 1)
    ensures ClashAt(taken, x, width, y, a) == ClashAt(taken, x, width, y, b)
  {}

  /** Back where it has been, the search repeats itself. */
  lemma {:induction false} CycleRepeats(taken: seq<Box>, x: real, width: real, y: real, i: nat, j: nat, k: nat)
    requires i < j <= k && Pushes(taken, x, width, y, i) == Pushes(taken, x, width, y, j)
    ensures Pushes(taken, x, width, y, k) == Pushes(taken, x, width, y, k - (j - i))
  {
    hide *;
    if k > j {
      CycleRepeats(taken, x, width, y, i, j, k - 1);
      SamePlaceSamePush(taken, x, width, y, k - 1, k - 1 - (j - i));
    }
  }

  lemma {:induction false} CycleClashes(taken: seq<Box>, x: real, width: real, y: real, i: nat, j: nat, k: nat)
    requires i < j && Pushes(taken, x, width, y, i) == Pushes(taken, x, width, y, j)
    requires forall m: nat | m < j :: ClashAt(taken, x, width, y, m)
    ensures ClashAt(taken, x, width, y, k)
  {
    hide *;
    if k >= j {
      CycleRepeats(taken, x, width, y, i, j, k);
      SamePlaceSamePush(taken, x, width, y, k, k - (j - i));
      CycleClashes(taken, x, width, y, i, j, k - (j - i));
    }
  }

  /** The obstacle that makes push `k + 1`. */
  ghost function Obstacle(taken: seq<Box>, x: real, width: real, y: real, k: nat): (b: Box)
    requires ClashAt(taken, x, width, y, k)
    ensures b in taken && Pushes(taken, x, width, y, k + 1) == Pushed(b)
  {
    FirstClash(taken, x, width, Pushes(taken, x, width, y, k)).value
  }

  /** With as many clashes as there are obstacles and one more, some obstacle was
      met twice, and no number of attempts will do. */
  lemma ManyClashesNeverEnd(taken: seq<Box>, x: real, width: real, y: real, k: nat)
    requires forall m: nat | m <= |taken| :: ClashAt(taken, x, width, y, m)
    ensures ClashAt(taken, x, width, y, k)
  {
    hide *;
    var boxes := seq(|taken| + 1, m requires 0 <= m <= |taken| => Obstacle(taken, x, width, y, m));
    if forall i: nat, j: nat | i < j < |boxes| :: boxes[i] != boxes[j] {
      DistinctWithin(boxes, taken);
    }
    var i: nat, j: nat :| i < j < |boxes| && boxes[i] == boxes[j];
    CycleClashes(taken, x, width, y, i + 1, j + 1, k);
  }

  /** Among at most twelve obstacles twelve attempts are enough: a chip that does
      not land clear would not with any number of them. */
  lemma TwelveAttemptsAreEnough(taken: seq<Box>, w: Wish, k: nat)
    requires |taken| <= 12 && !ClashAt(taken, StartX(w), Width(w), StartY(w), k)
    ensures LandsClear(taken, w)
  {
    hide ClashAt, LandsClear;
    LandsClearIffSomePlaceIs(taken, w);
    if !LandsClear(taken, w) {
      ManyClashesNeverEnd(taken, StartX(w), Width(w), StartY(w), k);
    }
  }

  // ---- Exactly when a chip can land on something ---------------------------------------

  /** A single obstacle keeps the chip from landing clear if and only if it is in
      the way, ends too low for a chip under it, and starts too high for one
      above it. */
  lemma OneObstacleIsExact(b: Box, w: Wish)
    ensures !LandsClear([b], w) <==> Near(b, StartX(w), Width(w), StartY(w)) && b.y1 > 316.0 && b.y0 < 42.0
  {
    hide LandsClear;
    var x, width, y := StartX(w), Width(w), StartY(w);
    assert [b][1..] == [];
    LandsClearIffSomePlaceIs([b], w);
    if Near(b, x, width, y) {
      if b.y1 > 316.0 && b.y0 < 42.0 {
        forall k: nat ensures ClashAt([b], x, width, y, k) {
          StuckAtTheTop(b, x, width, y, k);
        }
      } else {
        assert Pushes([b], x, width, y, 0) == y;
        assert !ClashAt([b], x, width, y, 1);
      }
    } else {
      assert !ClashAt([b], x, width, y, 0);
    }
  }

  lemma {:induction false} StuckAtTheTop(b: Box, x: real, width: real, y: real, k: nat)
    requires Near(b, x, width, y) && b.y1 > 316.0 && b.y0 < 42.0
    ensures Near(b, x, width, Pushes([b], x, width, y, k)) && ClashAt([b], x, width, y, k)
  {
    assert [b][1..] == [];
    if k > 0 {
      StuckAtTheTop(b, x, width, y, k - 1);
    }
  }

  /** No obstacle ends below `limit`. */
  ghost predicate EndBy(taken: seq<Box>, limit: real) {
    forall b <- taken :: b.y1 <= limit
  }

  /** High obstacles run out before the attempts do. */
  lemma {:induction false} HighObstaclesRunOut(taken: seq<Box>, x: real, width: real, y: real, attempts: nat)
    requires EndBy(taken, 41.0) && attempts > 0 && y >= 46.0 - 2.0 * attempts as real
    ensures Search(taken, x, width, y, attempts).1
    decreases attempts
  {
    var clash := FirstClash(taken, x, width, y);
    if clash.Some? {
      assert clash.value.y1 <= 41.0;
      HighObstaclesRunOut(taken, x, width, Pushed(clash.value), attempts - 1);
    }
  }

  /** A wish at the top of the safe area. */
  const TOP := Wish(300.0, 40.0, 1, 60.0, false)

  lemma TopStarts()
    ensures StartX(TOP) == 314.0 && Width(TOP) == 74.0 && StartY(TOP) == 20.0
  {}

  /** Step `k` of a stair of obstacles, each ending a little more than two pixels
      below the one before; past the thirteenth they stay there. */
  ghost function Stair(more: real, k: nat): Box {
    var n := if k <= ATTEMPTS then k else ATTEMPTS;
    var y1 := 17.0 + 2.0 * n as real + Times(n + 1, more);
    Box(289.0, y1 - 22.0, 640.0, y1)
  }

  function Times(k: nat, more: real): real {
    k as real * more
  }

  lemma TimesNext(k: nat, more: real)
    ensures Times(k + 1, more) == Times(k, more) + more && Times(0, more) == 0.0
  {
    assert (k + 1) as real == k as real + 1.0;
  }

  ghost function Stairs(more: real, n: nat): (taken: seq<Box>)
    ensures |taken| == n && forall k | 0 <= k < n :: taken[k] == Stair(more, k)
  {
    seq(n, k requires 0 <= k < n => Stair(more, k))
  }

  lemma {:induction false} TimesGrow(j: nat, k: nat, more: real)
    requires j <= k && more >= 0.0
    ensures Times(j, more) <= Times(k, more)
  {
    if j < k {
      TimesGrow(j, k - 1, more);
      TimesNext(k - 1, more);
    }
  }

  lemma {:induction false} FirstClashIs(taken: seq<Box>, x: real, width: real, y: real, k: nat)
    requires k < |taken| && Near(taken[k], x, width, y)
    requires forall j | 0 <= j < k :: !Near(taken[j], x, width, y)
    ensures FirstClash(taken, x, width, y) == Some(taken[k])
  {
    if k > 0 {
      assert taken[1..][k - 1] == taken[k];
      assert forall j | 0 <= j < k - 1 :: taken[1..][j] == taken[j + 1];
      FirstClashIs(taken[1..], x, width, y, k - 1);
    }
  }

  /** Each push down the stair ends on the next step. */
  lemma {:induction false} DownTheStairs(more: real, n: nat, k: nat)
    requires 0.0 < more <= 2.0 && n > ATTEMPTS && k <= ATTEMPTS
    ensures Pushes(Stairs(more, n), 314.0, 74.0, 20.0, k) == 20.0 + 2.0 * k as real + Times(k, more)
    ensures FirstClash(Stairs(more, n), 314.0, 74.0, Pushes(Stairs(more, n), 314.0, 74.0, 20.0, k))
         == Some(Stair(more, k))
  {
    hide FirstClash, Times;
    var taken := Stairs(more, n);
    if k == 0 {
      TimesNext(0, more);
    } else {
      DownTheStairs(more, n, k - 1);
      StairIsHigh(more, k - 1);
    }
    var y := Pushes(taken, 314.0, 74.0, 20.0, k);
    TimesNext(k, more);
    assert Near(taken[k], 314.0, 74.0, y);
    forall j | 0 <= j < k ensures !Near(taken[j], 314.0, 74.0, y) {
      TimesGrow(j + 1, k, more);
    }
    FirstClashIs(taken, 314.0, 74.0, y, k);
  }

  lemma StairIsHigh(more: real, k: nat)
    requires 0.0 < more <= 2.0 && k <= ATTEMPTS
    ensures 17.0 <= Stair(more, k).y1 <= 41.0 + Times(ATTEMPTS + 1, more) <= 67.0
  {
    hide Times;
    TimesGrow(0, k + 1, more);
    TimesGrow(k + 1, ATTEMPTS + 1, more);
    TimesNext(0, more);
    ThirteenTimes(more);
  }

  lemma ThirteenTimes(more: real)
    ensures Times(ATTEMPTS + 1, more) == 13.0 * more
  {}

  lemma NowhereClear(taken: seq<Box>, w: Wish)
    requires forall k: nat | k <= ATTEMPTS :: ClashAt(taken, StartX(w), Width(w), StartY(w), k)
    ensures !LandsClear(taken, w)
  {
    hide LandsClear;
    LandsClearIffSomePlaceIs(taken, w);
  }

  /** Thirteen obstacles and more can use up the attempts one by one. */
  lemma StairsDefeatSearch(limit: real, n: nat)
    requires limit > 41.0 && n > ATTEMPTS
    ensures exists taken :: |taken| == n && EndBy(taken, limit) && !LandsClear(taken, TOP)
  {
    hide FirstClash, Times, LandsClear;
    var more := if limit < 67.0 then (limit - 41.0) / 13.0 else 2.0;
    var taken := Stairs(more, n);
    forall b <- taken ensures b.y1 <= limit {
      var k: nat :| k < n && taken[k] == b;
      StairIsHigh(more, if k <= ATTEMPTS then k else ATTEMPTS);
      ThirteenTimes(more);
    }
    TopStarts();
    forall k: nat | k <= ATTEMPTS ensures ClashAt(taken, 314.0, 74.0, 20.0, k) {
      DownTheStairs(more, n, k);
    }
    NowhereClear(taken, TOP);
  }

  /** One obstacle that leaves no room under it, as often as it takes. */
  lemma TallDefeatsSearch(limit: real, n: nat)
    requires limit > 316.0 && n > 0
    ensures exists taken :: |taken| == n && EndBy(taken, limit) && !LandsClear(taken, TOP)
  {
    hide LandsClear;
    var b := Box(289.0, 0.0, 640.0, limit);
    var taken := seq(n, _ => b);
    TopStarts();
    forall k: nat ensures ClashAt(taken, 314.0, 74.0, 20.0, k) {
      StuckInACopy(b, taken, k);
    }
    NowhereClear(taken, TOP);
  }

  lemma {:induction false} StuckInACopy(b: Box, taken: seq<Box>, k: nat)
    requires b.x0 == 289.0 && b.x1 == 640.0 && b.y0 == 0.0 && b.y1 > 316.0
    requires taken != [] && forall j | 0 <= j < |taken| :: taken[j] == b
    ensures Pushes(taken, 314.0, 74.0, 20.0, k) == 20.0 && ClashAt(taken, 314.0, 74.0, 20.0, k)
  {
    FirstClashIs(taken, 314.0, 74.0, 20.0, 0);
    if k > 0 {
      StuckInACopy(b, taken, k - 1);
    }
  }

  /** The exact reach of the search. A chip is sure to land clear, whatever is
      wished for and however `n` obstacles that end by `limit` are arranged, if
      and only if there are none, or they all end so high that the pushes clear
      them, or there are at most twelve and a chip fits under each. */
  lemma GuaranteeIsExact(n: nat, limit: real)
    ensures (forall taken, w | |taken| == n && EndBy(taken, limit) :: LandsClear(taken, w))
      <==> n == 0 || limit <= 41.0 || (n <= 12 && limit <= 316.0)
  {
    hide Search, StartX, Width, LandsClear;
    forall taken: seq<Box>, w
      | |taken| == n && EndBy(taken, limit) && (n == 0 || limit <= 41.0 || (n <= ATTEMPTS && limit <= 316.0))
      ensures LandsClear(taken, w)
    {
      if n == 0 || limit > 41.0 {
        FewObstaclesAlwaysClear(taken, w);
      } else {
        HighObstaclesAlwaysClear(taken, w);
      }
    }
    if n > ATTEMPTS && limit > 41.0 {
      StairsDefeatSearch(limit, n);
    } else if n > 0 && limit > 316.0 {
      TallDefeatsSearch(limit, n);
    }
  }

  lemma HighObstaclesAlwaysClear(taken: seq<Box>, w: Wish)
    requires EndBy(taken, 41.0)
    ensures LandsClear(taken, w)
  {
    hide Search, ClashAt, LandsClear;
    HighObstaclesRunOut(taken, StartX(w), Width(w), StartY(w), ATTEMPTS + 1);
    SearchFailsIffAllClash(taken, StartX(w), Width(w), StartY(w), ATTEMPTS + 1);
    LandsClearIffSomePlaceIs(taken, w);
  }

  // ---- A chip on a ring ----------------------------------------------------------------

  /** The rings around two controls one above the other, as the page draws them,
      and the wish of a driver that is out of the picture: the corner slot. */
  const LOW_RING := Box(69.0, 297.0, 91.0, 319.0)
  const HIGH_RING := Box(69.0, 259.0, 91.0, 281.0)
  const CORNER := Wish(28.0, 314.0, 1, 60.0, false)

  ghost predicate Overlap(a: Box, b: Box) {
    a.x0 < b.x1 && b.x0 < a.x1 && a.y0 < b.y1 && b.y0 < a.y1
  }

  lemma CornerStarts()
    ensures StartX(CORNER) == 42.0 && Width(CORNER) == 74.0 && StartY(CORNER) == 290.0
  {}

  lemma RingsBounce(more: seq<Box>, y: real)
    requires y == 290.0 || y == 286.0 || y == 273.0
    ensures FirstClash([LOW_RING, HIGH_RING] + more, 42.0, 74.0, y)
         == Some(if y == 273.0 then HIGH_RING else LOW_RING)
    ensures Pushed(if y == 273.0 then HIGH_RING else LOW_RING) == if y == 273.0 then 286.0 else 273.0
  {
    FirstClashIs([LOW_RING, HIGH_RING] + more, 42.0, 74.0, y, if y == 273.0 then 1 else 0);
  }

  lemma {:induction false} RingsBounceForEver(more: seq<Box>, k: nat)
    ensures Pushes([LOW_RING, HIGH_RING] + more, 42.0, 74.0, 290.0, k) ==
      if k == 0 then 290.0 else if k % 2 == 0 then 286.0 else 273.0
    ensures ClashAt([LOW_RING, HIGH_RING] + more, 42.0, 74.0, 290.0, k)
  {
    hide FirstClash, Pushed;
    if k > 0 {
      RingsBounceForEver(more, k - 1);
      RingsBounce(more, Pushes([LOW_RING, HIGH_RING] + more, 42.0, 74.0, 290.0, k - 1));
    }
    RingsBounce(more, Pushes([LOW_RING, HIGH_RING] + more, 42.0, 74.0, 290.0, k));
  }

  /** A chip in the corner is pushed from one ring to the other and back for ever.
      Where it is put its box overlaps the lower ring, whatever else is there,
      although it would fit in the safe area clear of both. */
  lemma ClashCanRemain(more: seq<Box>, k: nat)
    ensures Overlap(Chip([LOW_RING, HIGH_RING] + more, CORNER).0, LOW_RING)
    ensures ClashAt([LOW_RING, HIGH_RING] + more, StartX(CORNER), Width(CORNER), StartY(CORNER), k)
    ensures FirstClash([LOW_RING, HIGH_RING], StartX(CORNER), Width(CORNER), 100.0).None? && SafeY(100.0)
  {
    hide Search, FirstClash, StartX, StartY, Width, ClashAt, Pushed;
    CornerStarts();
    RingsLeaveRoom();
    SearchEndsAtPushes([LOW_RING, HIGH_RING] + more, 42.0, 74.0, 290.0, ATTEMPTS);
    RingsBounceForEver(more, ATTEMPTS);
    RingsBounceForEver(more, k);
  }

  lemma RingsLeaveRoom()
    ensures FirstClash([LOW_RING, HIGH_RING], 42.0, 74.0, 100.0).None? && SafeY(100.0)
  {
    var rings := [LOW_RING, HIGH_RING];
    forall j | 0 <= j < |rings| ensures !Near(rings[j], 42.0, 74.0, 100.0) {}
  }

  // ---- Where a chip starts and is pushed, in numbers -----------------------------------

  /** The obstacle pushed off is the first of those in the way: less than 4 pixels
      from the chip sideways and less than 3 up and down. */
  lemma {:induction false} FirstClashMeaning(taken: seq<Box>, x: real, width: real, y: real, k: nat)
    requires k < |taken|
    requires x - 4.0 < taken[k].x1 && taken[k].x0 < x + width + 4.0
    requires y - 3.0 < taken[k].y1 && taken[k].y0 < y + 22.0
    requires forall j | 0 <= j < k ::
               || x - 4.0 >= taken[j].x1 || taken[j].x0 >= x + width + 4.0
               || y - 3.0 >= taken[j].y1 || taken[j].y0 >= y + 22.0
    ensures FirstClash(taken, x, width, y) == Some(taken[k])
  {
    if k > 0 {
      assert !Near(taken[0], x, width, y);
      forall j | 0 <= j < k - 1
        ensures || x - 4.0 >= taken[1..][j].x1 || taken[1..][j].x0 >= x + width + 4.0
                || y - 3.0 >= taken[1..][j].y1 || taken[1..][j].y0 >= y + 22.0
      {
        assert taken[1..][j] == taken[j + 1];
      }
      FirstClashMeaning(taken[1..], x, width, y, k - 1);
    }
  }

  /** Off an obstacle a chip goes 5 pixels below it if it still ends 20 above the
      bottom there, and otherwise 5 above it, or as high as the safe area goes. */
  lemma PushMeaning(taken: seq<Box>, x: real, width: real, y: real, clash: Box, k: nat)
    requires FirstClash(taken, x, width, Pushes(taken, x, width, y, k)) == Some(clash)
    ensures
      var after := Pushes(taken, x, width, y, k + 1);
      if clash.y1 + 24.0 <= 340.0 then after == clash.y1 + 5.0
      else if clash.y0 - 24.0 >= 20.0 then after + 19.0 == clash.y0 - 5.0
      else after == 20.0
  {}

  /** A chip is 14 pixels wider than its text and 19 high. It stands 14 pixels to
      the right of its ring, or to the left if that side is asked for, or at the
      edge of the safe area if it must go out to the margin; the safe area holds it
      back. It starts 24 pixels above its ring, held back likewise. */
  lemma ChipPlace(taken: seq<Box>, w: Wish)
    requires 0.0 <= w.textWidth <= 586.0
    ensures
      var (box, width) := (Chip(taken, w).0, w.textWidth + 14.0);
      && box.x1 == box.x0 + width && box.y1 == box.y0 + 19.0
      && (w.margin && w.side >= 0 ==> box.x0 == 20.0)
      && (w.margin && w.side < 0 ==> box.x1 == 620.0)
      && (!w.margin && w.side >= 0 ==>
            box.x0 == if w.ax + 14.0 < 20.0 then 20.0 else if w.ax + 14.0 + width > 620.0 then 620.0 - width
                      else w.ax + 14.0)
      && (!w.margin && w.side < 0 ==>
            box.x1 == if w.ax - 14.0 > 620.0 then 620.0 else if w.ax - 14.0 - width < 20.0 then 20.0 + width
                      else w.ax - 14.0)
      && (FirstClash(taken, box.x0, width, StartY(w)) == None ==> box.y0 == StartY(w))
    ensures StartY(w) == if w.ay < 44.0 then 20.0 else if w.ay > 344.0 then 320.0 else w.ay - 24.0
  {
    hide FirstClash;
  }
}
