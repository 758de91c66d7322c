/** What drives what on a rig, and re-pointing pickers from joints onto the
    controls behind them (`tools/rigexec_control_surface.py`). */
module Retarget {
  import Maps

  type Path = string

  type Drivers = map<Path, Path>

  // ---- Choosing one driver per joint ---------------------------------------------------

  /** A control that poses a joint; rank 0 writes the whole frame. */
  datatype Offer = Offer(joint: Path, control: Path, rank: int)

  /** Visible before hidden, then by rank. */
  predicate Before(a: Offer, b: Offer, hidden: Path -> bool) {
    if hidden(a.control) != hidden(b.control) then hidden(b.control) else a.rank < b.rank
  }

  /** `offers[k]` is the first of the best offers for its joint. */
  ghost predicate Chosen(offers: seq<Offer>, hidden: Path -> bool, k: nat) {
    && k < |offers|
    && (forall j | 0 <= j < |offers| && offers[j].joint == offers[k].joint :: !Before(offers[j], offers[k], hidden))
    && (forall j | 0 <= j < k && offers[j].joint == offers[k].joint :: Before(offers[k], offers[j], hidden))
  }

  ghost predicate OffersChosen(offers: seq<Offer>, hidden: Path -> bool, driver: Drivers) {
    && (forall joint :: joint in driver <==> exists k :: 0 <= k < |offers| && offers[k].joint == joint)
    && (forall joint | joint in driver ::
          exists k: nat :: Chosen(offers, hidden, k) && offers[k].joint == joint && offers[k].control == driver[joint])
  }

  lemma OneMoreOffer(offers: seq<Offer>, hidden: Path -> bool, n: nat, best: nat)
    requires n < |offers| && Chosen(offers[..n], hidden, best) && offers[n].joint == offers[best].joint
    ensures Chosen(offers[..n + 1], hidden, if Before(offers[n], offers[best], hidden) then n else best)
  {
    var now := if Before(offers[n], offers[best], hidden) then n else best;
    forall j | 0 <= j <= n && offers[j].joint == offers[now].joint
      ensures !Before(offers[j], offers[now], hidden)
      ensures j < now ==> Before(offers[now], offers[j], hidden)
    {
      if j < n {
        assert offers[..n][j] == offers[j] && offers[..n][best] == offers[best];
      }
    }
  }

  lemma OtherOffer(offers: seq<Offer>, hidden: Path -> bool, n: nat, best: nat)
    requires n < |offers| && Chosen(offers[..n], hidden, best) && offers[n].joint != offers[best].joint
    ensures Chosen(offers[..n + 1], hidden, best)
  {
    assert offers[..n][best] == offers[best];
    forall j | 0 <= j <= n && offers[j].joint == offers[best].joint
      ensures !Before(offers[j], offers[best], hidden)
      ensures j < best ==> Before(offers[best], offers[j], hidden)
    {
      assert offers[..n][j] == offers[j];
    }
  }

  lemma FirstOffer(offers: seq<Offer>, hidden: Path -> bool, n: nat)
    requires n < |offers| && forall k | 0 <= k < n :: offers[k].joint != offers[n].joint
    ensures Chosen(offers[..n + 1], hidden, n)
  {}

  /** After `n` offers: per joint met, the position of its choice. */
  ghost predicate BestSoFar(offers: seq<Offer>, hidden: Path -> bool, n: nat, best: map<Path, nat>) {
    && n <= |offers|
    && (forall k | 0 <= k < n :: offers[k].joint in best)
    && forall joint | joint in best ::
         && best[joint] < n && offers[best[joint]].joint == joint
         && Chosen(offers[..n], hidden, best[joint])
  }

  predicate Replaces(offers: seq<Offer>, hidden: Path -> bool, n: nat, best: map<Path, nat>)
    requires n < |offers| && forall joint | joint in best :: best[joint] < |offers|
  {
    offers[n].joint !in best || Before(offers[n], offers[best[offers[n].joint]], hidden)
  }

  lemma OneMoreChoice(offers: seq<Offer>, hidden: Path -> bool, n: nat, best: map<Path, nat>)
    requires n < |offers| && BestSoFar(offers, hidden, n, best)
    ensures BestSoFar(offers, hidden, n + 1,
              if Replaces(offers, hidden, n, best) then best[offers[n].joint := n] else best)
  {
    hide Chosen, Before;
    var now := if Replaces(offers, hidden, n, best) then best[offers[n].joint := n] else best;
    forall joint | joint in now ensures Chosen(offers[..n + 1], hidden, now[joint]) {
      if joint !in best {
        FirstOffer(offers, hidden, n);
      } else if joint == offers[n].joint {
        OneMoreOffer(offers, hidden, n, best[joint]);
      } else {
        OtherOffer(offers, hidden, n, best[joint]);
      }
    }
  }

  /** One pass over the offers: a joint with several keeps a visible control if
      it has one, then a whole-frame writer, then the first in traversal order. */
  method ChooseDrivers(offers: seq<Offer>, hidden: Path -> bool) returns (driver: Drivers)
    ensures OffersChosen(offers, hidden, driver)
  {
    hide Chosen, Before;
    driver := map[];
    var best: map<Path, nat> := map[];
    for n := 0 to |offers|
      invariant BestSoFar(offers, hidden, n, best)
      invariant driver.Keys == best.Keys && forall joint | joint in best :: driver[joint] == offers[best[joint]].control
    {
      OneMoreChoice(offers, hidden, n, best);
      if Replaces(offers, hidden, n, best) {
        best := best[offers[n].joint := n];
        driver := driver[offers[n].joint := offers[n].control];
      }
    }
    assert offers[..|offers|] == offers;
  }

  /** What is chosen, told by its three rules: of the offers for a joint a visible
      control if there is one; among those no less hidden one of least rank; and
      among these the first. */
  lemma ChoiceMeaning(offers: seq<Offer>, hidden: Path -> bool, driver: Drivers, joint: Path)
    requires OffersChosen(offers, hidden, driver)
    ensures joint in driver <==> exists k :: 0 <= k < |offers| && offers[k].joint == joint
    ensures joint in driver ==> exists k ::
      && 0 <= k < |offers| && offers[k].joint == joint && offers[k].control == driver[joint]
      && (hidden(offers[k].control) ==>
            forall j | 0 <= j < |offers| && offers[j].joint == joint :: hidden(offers[j].control))
      && (forall j | 0 <= j < |offers| && offers[j].joint == joint
                     && hidden(offers[j].control) == hidden(offers[k].control) ::
            offers[k].rank < offers[j].rank || (offers[k].rank == offers[j].rank && k <= j))
  {
    if joint in driver {
      var k: nat :| Chosen(offers, hidden, k) && offers[k].joint == joint && offers[k].control == driver[joint];
      assert forall j | 0 <= j < |offers| && offers[j].joint == joint :: !Before(offers[j], offers[k], hidden);
      assert forall j | 0 <= j < k && offers[j].joint == joint :: Before(offers[k], offers[j], hidden);
    }
  }

  // ---- Following the chain -------------------------------------------------------------

  /** A chain of drivers from `joint`: distinct driven prims, each driven by the
      next, and the last by `end`. */
  ghost predicate Chain(driver: Drivers, joint: Path, trail: seq<Path>, end: Path) {
    && trail != [] && trail[0] == joint
    && (forall i | 0 <= i < |trail| :: trail[i] in driver)
    && (forall i | 0 <= i < |trail| - 1 :: driver[trail[i]] == trail[i + 1])
    && (forall i, j | 0 <= i < j < |trail| :: trail[i] != trail[j])
    && driver[trail[|trail| - 1]] == end
  }

  /** `end` is where the chain stops: at something nothing drives, or at the
      first prim met twice. */
  ghost predicate ResolvesTo(driver: Drivers, joint: Path, end: Path) {
    exists trail :: Chain(driver, joint, trail, end) && (end !in driver || end in trail)
  }

  /** The guarded walk. */
  method Resolve(driver: Drivers, joint: Path) returns (control: Path)
    requires joint in driver
    ensures ResolvesTo(driver, joint, control)
  {
    control := driver[joint];
    var seen := {joint};
    ghost var trail := [joint];
    while control in driver && control !in seen
      invariant Chain(driver, joint, trail, control)
      invariant seen == (set p | p in trail) && seen <= driver.Keys
      decreases driver.Keys - seen
    {
      seen := seen + {control};
      trail := trail + [control];
      control := driver[control];
    }
  }

  method DrivingControls(driver: Drivers) returns (resolved: Drivers)
    ensures resolved.Keys == driver.Keys
    ensures forall joint | joint in driver :: ResolvesTo(driver, joint, resolved[joint])
  {
    resolved := map[];
    var todo := driver.Keys;
    while todo != {}
      invariant todo <= driver.Keys && resolved.Keys == driver.Keys - todo
      invariant forall joint | joint in resolved :: ResolvesTo(driver, joint, resolved[joint])
    {
      var joint :| joint in todo;
      var control := Resolve(driver, joint);
      resolved := resolved[joint := control];
      todo := todo - {joint};
    }
  }

  /** Two chains from one joint agree for as long as both last. */
  lemma {:induction false} ChainsAgree(
      driver: Drivers, joint: Path, t: seq<Path>, e: Path, u: seq<Path>, f: Path, i: nat)
    requires Chain(driver, joint, t, e) && Chain(driver, joint, u, f) && i < |t| && i < |u|
    ensures t[i] == u[i]
  {
    if i > 0 {
      ChainsAgree(driver, joint, t, e, u, f, i - 1);
      assert driver[t[i - 1]] == t[i] && driver[u[i - 1]] == u[i];
    }
  }

  /** Where a chain stops is determined by the drivers alone. */
  lemma ResolutionIsUnique(driver: Drivers, joint: Path, e: Path, f: Path)
    requires ResolvesTo(driver, joint, e) && ResolvesTo(driver, joint, f)
    ensures e == f
  {
    var t :| Chain(driver, joint, t, e) && (e !in driver || e in t);
    var u :| Chain(driver, joint, u, f) && (f !in driver || f in u);
    if |t| < |u| {
      LongerChainStops(driver, joint, t, e, u, f);
    } else if |u| < |t| {
      LongerChainStops(driver, joint, u, f, t, e);
    } else {
      ChainsAgree(driver, joint, t, e, u, f, |t| - 1);
    }
  }

  /** A chain that has stopped does not go on. */
  lemma LongerChainStops(driver: Drivers, joint: Path, t: seq<Path>, e: Path, u: seq<Path>, f: Path)
    requires Chain(driver, joint, t, e) && (e !in driver || e in t)
    requires Chain(driver, joint, u, f)
    ensures |u| <= |t|
  {
    if |t| < |u| {
      ChainsAgree(driver, joint, t, e, u, f, |t| - 1);
      assert driver[u[|t| - 1]] == u[|t|] == e;
      if e in t {
        var i :| 0 <= i < |t| && t[i] == e;
        ChainsAgree(driver, joint, t, e, u, f, i);
      }
    }
  }

  /** Where a walk stops, nothing moves any more: the end is undriven, or it is
      the way into a cycle and resolves to itself. */
  lemma EndIsFixed(driver: Drivers, joint: Path, end: Path)
    requires ResolvesTo(driver, joint, end)
    ensures end !in driver || ResolvesTo(driver, end, end)
  {
    var t :| Chain(driver, joint, t, end) && (end !in driver || end in t);
    if end in driver {
      var i :| 0 <= i < |t| && t[i] == end;
      var cycle := t[i..];
      assert Chain(driver, end, cycle, end) && cycle[0] == end;
    }
  }

  /** A joint on a cycle resolves to itself. */
  lemma CycleResolvesToItself(driver: Drivers, joint: Path, trail: seq<Path>)
    requires Chain(driver, joint, trail, joint)
    ensures ResolvesTo(driver, joint, joint)
  {
    assert trail[0] == joint;
  }

  // ---- Retargeting ---------------------------------------------------------------------

  function Retargeted(pairs: Drivers, target: Path): Path {
    if target in pairs then pairs[target] else target
  }

  function AllRetargeted(pairs: Drivers, targets: seq<Path>): (r: seq<Path>)
    ensures |r| == |targets|
    ensures forall k | 0 <= k < |targets| :: r[k] == Retargeted(pairs, targets[k])
  {
    seq(|targets|, k requires 0 <= k < |targets| => Retargeted(pairs, targets[k]))
  }

  /** `pairs` is what `DrivingControls` computes. */
  ghost predicate Resolved(driver: Drivers, pairs: Drivers) {
    && pairs.Keys == driver.Keys
    && forall joint | joint in driver :: ResolvesTo(driver, joint, pairs[joint])
  }

  /** For every rig, cycles included, retargeting a path twice is retargeting it
      once. */
  lemma RetargetIsIdempotent(driver: Drivers, pairs: Drivers, target: Path)
    requires Resolved(driver, pairs)
    ensures Retargeted(pairs, Retargeted(pairs, target)) == Retargeted(pairs, target)
  {
    if target in driver {
      var end := pairs[target];
      EndIsFixed(driver, target, end);
      if end in driver {
        ResolutionIsUnique(driver, end, end, pairs[end]);
      }
    }
  }

  /** The relationships a retarget edits: picker buttons and touch regions by
      prim, each with its targets. */
  class Surface {
    var buttons: map<Path, seq<Path>>
    var regions: map<Path, seq<Path>>

    constructor (b: map<Path, seq<Path>>, r: map<Path, seq<Path>>)
      ensures buttons == b && regions == r
    {
      buttons, regions := b, r;
    }

    method Retarget(pairs: Drivers) returns (movedButtons: set<Path>, movedRegions: set<Path>)
      modifies this
      ensures buttons == RetargetedPrims(pairs, old(buttons))
      ensures regions == RetargetedPrims(pairs, old(regions))
      ensures buttons.Keys == old(buttons).Keys && regions.Keys == old(regions).Keys
      ensures forall p | p in buttons :: Moves(pairs, old(buttons)[p], buttons[p])
      ensures forall p | p in regions :: Moves(pairs, old(regions)[p], regions[p])
      ensures movedButtons == set p | p in old(buttons) && buttons[p] != old(buttons)[p]
      ensures movedRegions == set p | p in old(regions) && regions[p] != old(regions)[p]
    {
      buttons, movedButtons := RetargetPrims(pairs, buttons);
      regions, movedRegions := RetargetPrims(pairs, regions);
    }

    /** A second retarget finds nothing to move. */
    method RetargetTwice(ghost driver: Drivers, pairs: Drivers)
      returns (movedButtons: set<Path>, movedRegions: set<Path>)
      requires Resolved(driver, pairs)
      modifies this
      ensures buttons == RetargetedPrims(pairs, old(buttons))
      ensures regions == RetargetedPrims(pairs, old(regions))
      ensures movedButtons == {} && movedRegions == {}
    {
      var firstButtons, firstRegions := Retarget(pairs);
      RetargetedTwice(driver, pairs, old(buttons));
      RetargetedTwice(driver, pairs, old(regions));
      movedButtons, movedRegions := Retarget(pairs);
    }
  }

  /** Target by target, one that has a pair becomes its pair and any other stays. */
  ghost predicate Moves(pairs: Drivers, before: seq<Path>, after: seq<Path>) {
    && |after| == |before|
    && forall k | 0 <= k < |before| ::
         && (before[k] in pairs ==> after[k] == pairs[before[k]])
         && (before[k] !in pairs ==> after[k] == before[k])
  }

  ghost function RetargetedPrims(pairs: Drivers, prims: map<Path, seq<Path>>): map<Path, seq<Path>> {
    Maps.Tabulate(prims.Keys, p requires p in prims => AllRetargeted(pairs, prims[p]))
  }

  method RetargetPrims(pairs: Drivers, prims: map<Path, seq<Path>>)
    returns (after: map<Path, seq<Path>>, moved: set<Path>)
    ensures after == RetargetedPrims(pairs, prims)
    ensures moved == set p | p in prims && after[p] != prims[p]
  {
    after, moved := prims, {};
    var todo := prims.Keys;
    while todo != {}
      invariant todo <= prims.Keys == after.Keys
      invariant forall p | p in prims :: after[p] == if p in todo then prims[p] else AllRetargeted(pairs, prims[p])
      invariant moved == set p | p in prims && after[p] != prims[p]
    {
      var p :| p in todo;
      var wanted := AllRetargeted(pairs, prims[p]);
      todo := todo - {p};
      if wanted != prims[p] {
        after, moved := after[p := wanted], moved + {p};
      }
    }
  }

  lemma RetargetedTwice(driver: Drivers, pairs: Drivers, prims: map<Path, seq<Path>>)
    requires Resolved(driver, pairs)
    ensures RetargetedPrims(pairs, RetargetedPrims(pairs, prims)) == RetargetedPrims(pairs, prims)
  {
    hide Resolved, Retargeted;
    forall p | p in prims
      ensures AllRetargeted(pairs, AllRetargeted(pairs, prims[p])) == AllRetargeted(pairs, prims[p])
    {
      var once := AllRetargeted(pairs, prims[p]);
      var twice := AllRetargeted(pairs, once);
      forall k | 0 <= k < |once| ensures twice[k] == once[k] {
        RetargetIsIdempotent(driver, pairs, prims[p][k]);
      }
    }
  }

  // ---- Updating a published picker -----------------------------------------------------

  /** What an update asks the stage about a path, and the selectable controls
      that carry a path's name. */
  datatype Rig = Rig(
    valid: Path -> bool,
    isJoint: Path -> bool,
    selectable: Path -> bool,
    namesakes: Path -> seq<Path>)

  /** A selectable control is a prim and no joint. */
  ghost predicate WellTyped(rig: Rig) {
    && (forall p :: rig.selectable(p) ==> rig.valid(p) && !rig.isJoint(p))
    && (forall p, k | 0 <= k < |rig.namesakes(p)| :: rig.selectable(rig.namesakes(p)[k]))
  }

  /** A dead path is found again by name, if exactly one control carries it. */
  function Relocated(rig: Rig, target: Path): Path {
    if !rig.valid(target) && |rig.namesakes(target)| == 1 then rig.namesakes(target)[0] else target
  }

  /** Only a joint moves, and only onto a control that can be selected. */
  function Updated(rig: Rig, pairs: Drivers, target: Path): Path {
    var current := Relocated(rig, target);
    var candidate := Retargeted(pairs, current);
    if candidate != current && rig.isJoint(current) && rig.selectable(candidate) then candidate else current
  }

  /** An update settles every target, for any rig and any pairs, resolved or
      not, and an authored control stays what it is. */
  lemma UpdateIsIdempotent(rig: Rig, pairs: Drivers, target: Path)
    requires WellTyped(rig)
    ensures Updated(rig, pairs, Updated(rig, pairs, target)) == Updated(rig, pairs, target)
    ensures rig.selectable(target) ==> Updated(rig, pairs, target) == target
    ensures Updated(rig, pairs, target) != target ==> rig.selectable(Updated(rig, pairs, target))
  {
    if !rig.valid(target) && |rig.namesakes(target)| == 1 {
      assert rig.selectable(rig.namesakes(target)[0]);
    }
  }

  /** What an update makes of a target: a dead path becomes the one selectable
      control of its name; a joint that is there becomes what drives it, if that can
      be selected; and anything else stays. */
  lemma UpdateMeaning(rig: Rig, pairs: Drivers, target: Path)
    requires WellTyped(rig)
    ensures !rig.valid(target) && |rig.namesakes(target)| == 1 ==>
              Updated(rig, pairs, target) == rig.namesakes(target)[0]
    ensures !rig.valid(target) && |rig.namesakes(target)| != 1 && !rig.isJoint(target) ==>
              Updated(rig, pairs, target) == target
    ensures rig.valid(target) && rig.isJoint(target) && target in pairs && rig.selectable(pairs[target]) ==>
              Updated(rig, pairs, target) == pairs[target]
    ensures rig.valid(target) && (!rig.isJoint(target) || target !in pairs || !rig.selectable(pairs[target])) ==>
              Updated(rig, pairs, target) == target
  {
    if !rig.valid(target) && |rig.namesakes(target)| == 1 {
      assert rig.selectable(rig.namesakes(target)[0]);
    }
  }
}
