/**
  Whether the kills still to be eaten in a cell stay within the visible prey there, the check that
  the C ancestor calls "prey escaped". Two predators can both succeed against one prey, so they need
  not; they do exactly as long as no predator hits where all visible prey is already claimed.
 */
module KillBounds {
  import opened SimProgram
  import opened Census

  // The visible prey in a cell, counted anew.
  ghost function VisiblePrey(w: World, p: (int, int)): int {
    Tally(w.bodies + w.newborn, p.0, p.1, Prey, Active)
  }

  ghost predicate Bounded(w: World) {
    forall p | p in w.kills :: w.kills[p] <= VisiblePrey(w, p)
  }

  // Before the turn: creature `i` is a predator that is to hunt, is not resting, has the luck to hit,
  // and comes to a cell with visible prey, all of which is already to be eaten.
  ghost predicate Overkill(w: World, i: nat, action: Action, roll: int, x: nat, y: nat)
    requires i < |w.bodies| && IsWorld(w, x, y)
  {
    BodyInGrid(w, i, x, y);
    var b := w.bodies[i];
    var at := Destination(b, action, x, y);
    && b.kind == Predator && Aged(b).countDown == 0
    && action.Hunt? && b.energy - 1 > roll
    && VisiblePrey(w, at) > 0 && w.kills[at] == VisiblePrey(w, at)
  }

  // These are the turns that add a kill to a cell where all visible prey is already claimed.
  lemma OverkillHitsClaimedPrey(w: World, i: nat, action: Action, roll: int, x: nat, y: nat)
    requires i < |w.bodies| && IsWorld(w, x, y)
    ensures var o := NaiveOutcome(w, i, action, roll, x, y);
      var at := (o.body.x, o.body.y);
      Overkill(w, i, action, roll, x, y) <==> o.hit && at in w.kills && w.kills[at] == VisiblePrey(w, at)
  {
    hide Tally;
    BodyInGrid(w, i, x, y);
    OutcomeInGrid(w, i, action, roll, x, y);
  }

  // ------------------------------------------------------------------ one turn

  // A turn changes the visible prey of a cell by the creature's own share alone: the young rest.
  lemma VisiblePreyAfter(w: World, i: nat, action: Action, roll: int, x: nat, y: nat, p: (int, int))
    requires i < |w.bodies| && IsWorld(w, x, y)
    ensures VisiblePrey(NaiveStep(w, i, action, roll, x, y), p)
         == VisiblePrey(w, p) - LiveShare(w.bodies[i], p.0, p.1, Prey, Active)
          + LiveShare(NaiveOutcome(w, i, action, roll, x, y).body, p.0, p.1, Prey, Active)
  {
    hide NaiveOutcome, Tally, LiveShare, IsWorld;
    var o := NaiveOutcome(w, i, action, roll, x, y);
    TallyAppend(w.bodies, w.newborn, p.0, p.1, Prey, Active);
    TallyUpdate(w.bodies, i, o.body, p.0, p.1, Prey, Active);
    TallyAppend(w.newborn, Litter(o), p.0, p.1, Prey, Active);
    TallyAppend(w.bodies[i := o.body], w.newborn + Litter(o), p.0, p.1, Prey, Active);
    YoungRest(o, p);
  }

  lemma YoungRest(o: Outcome, p: (int, int))
    ensures Tally(Litter(o), p.0, p.1, Prey, Active) == 0
  {
    var baby := Newborn(o.body.kind, o.body.x, o.body.y);
    assert [baby, baby] == [baby] + [baby];
    TallyAppend([baby], [baby], p.0, p.1, Prey, Active);
    TallySingle(baby, p.0, p.1, Prey, Active);
  }

  // A visible prey leaves the count of its cell only where no kill waits, or by being eaten; and a
  // hunter that hits is no prey.
  lemma PreyIsEatenFirst(w: World, i: nat, action: Action, roll: int, x: nat, y: nat, p: (int, int))
    requires i < |w.bodies| && IsWorld(w, x, y) && p in w.kills && IsAlive(w.bodies[i])
    ensures var b, o := w.bodies[i], NaiveOutcome(w, i, action, roll, x, y);
      var before, after := LiveShare(b, p.0, p.1, Prey, Active), LiveShare(o.body, p.0, p.1, Prey, Active);
      if o.eaten then !o.hit && after == 0 && before == if p == (o.body.x, o.body.y) then 1 else 0
      else if o.hit then before == 0 && after == 0
      else before == 1 ==> w.kills[p] <= 0
  {
    hide Tally, Bred, Rested, Moved;
    BodyInGrid(w, i, x, y);
  }

  // From a bounded state a turn leads to a bounded one if and only if it is no overkill.
  lemma StepKeepsBound(w: World, i: nat, action: Action, roll: int, x: nat, y: nat)
    requires i < |w.bodies| && IsWorld(w, x, y) && IsAlive(w.bodies[i]) && Bounded(w)
    ensures Bounded(NaiveStep(w, i, action, roll, x, y)) <==> !Overkill(w, i, action, roll, x, y)
  {
    hide NaiveOutcome, Tally, LiveShare, Overkill;
    var o := NaiveOutcome(w, i, action, roll, x, y);
    OverkillHitsClaimedPrey(w, i, action, roll, x, y);
    var w', at := NaiveStep(w, i, action, roll, x, y), (o.body.x, o.body.y);
    OutcomeInGrid(w, i, action, roll, x, y);
    forall p | p in w.kills
      ensures w'.kills[p] <= VisiblePrey(w', p) <==> !(p == at && Overkill(w, i, action, roll, x, y))
    {
      VisiblePreyAfter(w, i, action, roll, x, y, p);
      PreyIsEatenFirst(w, i, action, roll, x, y, p);
      TallyIsSane(w'.bodies + w'.newborn, p.0, p.1, Prey);
      ShareIsNatural(w.bodies[i], p);
      ShareIsNatural(o.body, p);
    }
  }

  lemma ShareIsNatural(b: Body, p: (int, int))
    ensures 0 <= LiveShare(b, p.0, p.1, Prey, Active) <= 1
  {
  }

  // ------------------------------------------------------------------ rounds and runs

  // Before the first turn of a round and after each of the first `n`.
  ghost predicate BoundedTurns(w: World, n: nat, decide: nat -> (Action, int), x: nat, y: nat)
    requires n <= |w.bodies| && IsWorld(w, x, y)
  {
    Bounded(NaiveTurns(w, n, decide, x, y)) && (n > 0 ==> BoundedTurns(w, n - 1, decide, x, y))
  }

  // None of the first `n` turns of a round is an overkill.
  ghost predicate FairTurns(w: World, n: nat, decide: nat -> (Action, int), x: nat, y: nat)
    requires n <= |w.bodies| && IsWorld(w, x, y)
  {
    n > 0 ==>
      && FairTurns(w, n - 1, decide, x, y)
      && !Overkill(NaiveTurns(w, n - 1, decide, x, y), n - 1, decide(n - 1).0, decide(n - 1).1, x, y)
  }

  lemma {:induction false} TurnsKeepBound(w: World, n: nat, decide: nat -> (Action, int), x: nat, y: nat)
    requires n <= |w.bodies| && IsWorld(w, x, y) && w.newborn == [] && AllAlive(w.bodies) && Bounded(w)
    ensures BoundedTurns(w, n, decide, x, y) <==> FairTurns(w, n, decide, x, y)
    ensures BoundedTurns(w, n, decide, x, y) ==> Bounded(NaiveTurns(w, n, decide, x, y))
  {
    hide Bounded, Overkill, NaiveStep, IsWorld, AllAlive, IsAlive;
    if n > 0 {
      TurnsKeepBound(w, n - 1, decide, x, y);
      BodyBeforeTurn(w, n - 1, decide, x, y);
      var before := NaiveTurns(w, n - 1, decide, x, y);
      if Bounded(before) {
        StepKeepsBound(before, n - 1, decide(n - 1).0, decide(n - 1).1, x, y);
      }
    }
  }

  // Dropping the dead and appending the newborn leaves the visible prey as it is.
  lemma RoundEndKeepsPrey(bs: seq<Body>, newborn: seq<Body>, p: (int, int))
    ensures Tally(Survivors(bs) + newborn, p.0, p.1, Prey, Active) == Tally(bs + newborn, p.0, p.1, Prey, Active)
  {
    hide Tally, Survivors;
    TallyAppend(bs, newborn, p.0, p.1, Prey, Active);
    TallySurvivors(bs, p.0, p.1, Prey, Active);
    TallyAppend(Survivors(bs), newborn, p.0, p.1, Prey, Active);
  }

  lemma RoundEndKeepsBound(w: World, decide: nat -> (Action, int), x: nat, y: nat)
    requires IsWorld(w, x, y)
    ensures Bounded(NaiveTurns(w, |w.bodies|, decide, x, y)) ==> Bounded(NaiveRound(w, decide, x, y))
  {
    hide Tally, NaiveTurns, Survivors, IsWorld;
    var w1, w2 := NaiveTurns(w, |w.bodies|, decide, x, y), NaiveRound(w, decide, x, y);
    assert w2.bodies + w2.newborn == Survivors(w1.bodies) + w1.newborn;
    forall p ensures VisiblePrey(w2, p) == VisiblePrey(w1, p) {
      RoundEndKeepsPrey(w1.bodies, w1.newborn, p);
    }
  }

  // In the first `n` rounds, the bound holds before and after every turn.
  ghost predicate BoundedRounds(w: World, n: nat, decide: nat -> nat -> (Action, int), x: nat, y: nat)
    requires IsWorld(w, x, y)
  {
    n > 0 ==>
      var v := NaiveRounds(w, n - 1, decide, x, y);
      BoundedRounds(w, n - 1, decide, x, y) && BoundedTurns(v, |v.bodies|, decide(n - 1), x, y)
  }

  // In the first `n` rounds, no turn is an overkill.
  ghost predicate FairRounds(w: World, n: nat, decide: nat -> nat -> (Action, int), x: nat, y: nat)
    requires IsWorld(w, x, y)
  {
    n > 0 ==>
      var v := NaiveRounds(w, n - 1, decide, x, y);
      FairRounds(w, n - 1, decide, x, y) && FairTurns(v, |v.bodies|, decide(n - 1), x, y)
  }

  // Through any number of rounds the bound holds after every turn if and only if no turn is an
  // overkill.
  lemma {:induction false} RoundsKeepBound(w: World, n: nat, decide: nat -> nat -> (Action, int), x: nat, y: nat)
    requires IsWorld(w, x, y) && w.newborn == [] && AllAlive(w.bodies) && Bounded(w)
    ensures BoundedRounds(w, n, decide, x, y) <==> FairRounds(w, n, decide, x, y)
    ensures BoundedRounds(w, n, decide, x, y) ==> Bounded(NaiveRounds(w, n, decide, x, y))
  {
    hide Bounded, NaiveRound, IsWorld, BoundedTurns, FairTurns, NaiveTurns, AllAlive;
    if n > 0 {
      RoundsKeepBound(w, n - 1, decide, x, y);
      RoundsStayAlive(w, n - 1, decide, x, y);
      var v := NaiveRounds(w, n - 1, decide, x, y);
      if Bounded(v) {
        TurnsKeepBound(v, |v.bodies|, decide(n - 1), x, y);
        if BoundedTurns(v, |v.bodies|, decide(n - 1), x, y) {
          RoundEndKeepsBound(v, decide(n - 1), x, y);
        }
      }
    }
  }

  lemma {:induction false} RoundsStayAlive(w: World, n: nat, decide: nat -> nat -> (Action, int), x: nat, y: nat)
    requires IsWorld(w, x, y) && w.newborn == [] && AllAlive(w.bodies)
    ensures var v := NaiveRounds(w, n, decide, x, y); v.newborn == [] && AllAlive(v.bodies)
  {
    hide NaiveRound, IsWorld, NaiveTurns, IsAlive;
    if n > 0 {
      RoundsStayAlive(w, n - 1, decide, x, y);
      var v := NaiveRounds(w, n - 1, decide, x, y);
      NaiveRoundFacts(v, decide(n - 1), x, y);
      var next := NaiveRound(v, decide(n - 1), x, y);
      assert forall i :: 0 <= i < |next.bodies| ==> next.bodies[i] in next.bodies;
    }
  }

  // The first state of a simulation is bounded, with everybody alive.
  lemma FirstWorldIsBounded(predators: seq<(int, int)>, prey: seq<(int, int)>, x: nat, y: nat)
    ensures var w := FirstWorld(predators, prey, x, y); Bounded(w) && AllAlive(w.bodies) && w.newborn == []
  {
    var w := FirstWorld(predators, prey, x, y);
    forall p | p in w.kills ensures w.kills[p] <= VisiblePrey(w, p) {
      TallyIsSane(w.bodies + w.newborn, p.0, p.1, Prey);
    }
  }

  // In particular from the first state of any simulation.
  lemma RunsKeepBound(
    predators: seq<(int, int)>, prey: seq<(int, int)>, n: nat, decide: nat -> nat -> (Action, int), x: nat, y: nat)
    requires IsWorld(FirstWorld(predators, prey, x, y), x, y)
    ensures var w := FirstWorld(predators, prey, x, y);
      && (BoundedRounds(w, n, decide, x, y) <==> FairRounds(w, n, decide, x, y))
      && (FairRounds(w, n, decide, x, y) ==> Bounded(NaiveRounds(w, n, decide, x, y)))
  {
    hide Bounded, IsWorld, FirstWorld, AllAlive, BoundedRounds, FairRounds, NaiveRounds;
    FirstWorldIsBounded(predators, prey, x, y);
    RoundsKeepBound(FirstWorld(predators, prey, x, y), n, decide, x, y);
  }

  // ------------------------------------------------------------------ two hunters and one prey

  function Hunters(k: nat): (Action, int) {
    (Hunt(N), 0)
  }

  // Any predator as it starts, hunting where some prey is visible, hits when the roll is 0.
  lemma HunterHits(w: World, i: nat)
    requires IsWorld(w, 1, 1) && i < |w.bodies| && w.bodies[i] == Placed(Predator, [(0, 0)])[0]
    requires VisiblePrey(w, (0, 0)) > 0
    ensures var o := NaiveOutcome(w, i, Hunt(N), 0, 1, 1);
      o.hit && !o.eaten && (o.body.x, o.body.y) == (0, 0) && o.body.kind == Predator
  {
    hide Tally;
    BodyInGrid(w, i, 1, 1);
  }

  // On a grid of one cell, two predators hit one prey, and then more prey is to be eaten than there
  // is.
  lemma PreyCanEscape()
    ensures var w := FirstWorld([(0, 0), (0, 0)], [(0, 0)], 1, 1);
      && IsWorld(w, 1, 1) && |w.bodies| == 3 && !FairTurns(w, 3, Hunters, 1, 1)
      && var v := NaiveTurns(w, 2, Hunters, 1, 1); v.kills[(0, 0)] == 2 && VisiblePrey(v, (0, 0)) == 1
  {
    hide Tally, NaiveOutcome;
    var w := FirstWorld([(0, 0), (0, 0)], [(0, 0)], 1, 1);
    OnePreyThere(w);
    HunterHits(w, 0);
    var w1 := NaiveTurns(w, 1, Hunters, 1, 1);
    VisiblePreyAfter(w, 0, Hunt(N), 0, 1, 1, (0, 0));
    HunterHits(w1, 1);
    VisiblePreyAfter(w1, 1, Hunt(N), 0, 1, 1, (0, 0));
  }

  lemma OnePreyThere(w: World)
    requires w == FirstWorld([(0, 0), (0, 0)], [(0, 0)], 1, 1)
    ensures VisiblePrey(w, (0, 0)) == 1 && IsWorld(w, 1, 1)
  {
    var hunter, prey := Placed(Predator, [(0, 0)])[0], Placed(Prey, [(0, 0)])[0];
    assert w.bodies + w.newborn == [hunter] + [hunter] + [prey];
    TallyAppend([hunter] + [hunter], [prey], 0, 0, Prey, Active);
    TallyAppend([hunter], [hunter], 0, 0, Prey, Active);
    TallySingle(hunter, 0, 0, Prey, Active);
    TallySingle(prey, 0, 0, Prey, Active);
  }
}
