/**
  The rules of the predator-prey game, told in numbers: where a move leads, what a turn does to the
  creature and to the world, when young are born, what the counters count and who survives a round.
 */
module Rules {
  import opened SimProgram
  import opened Census

  // ------------------------------------------------------------------ where a move leads

  // North lowers y and west lowers x, by one, and from 0 to the far border.
  lemma StraightMoves(b: Body, m: nat, n: nat)
    requires InGrid(b, m, n)
    ensures Moved(b, N, m, n) == b.(y := if b.y == 0 then n - 1 else b.y - 1, energy := b.energy - 1)
    ensures Moved(b, S, m, n) == b.(y := if b.y == n - 1 then 0 else b.y + 1, energy := b.energy - 1)
    ensures Moved(b, E, m, n) == b.(x := if b.x == m - 1 then 0 else b.x + 1, energy := b.energy - 1)
    ensures Moved(b, W, m, n) == b.(x := if b.x == 0 then m - 1 else b.x - 1, energy := b.energy - 1)
  {
    OneAround(b.x, 1, m);
    OneAround(b.x, -1, m);
    OneAround(b.y, 1, n);
    OneAround(b.y, -1, n);
    hide Around;
    AroundOfSum(b.x, 0, m);
    AroundOfSum(b.y, 0, n);
  }

  lemma OneAround(v: int, step: int, size: nat)
    requires 0 <= v < size && (step == 1 || step == -1)
    ensures Around(v + step, size) == if v + step == size then 0 else if v + step < 0 then size - 1 else v + step
  {
    if v + step == size {
      assert size % size == 0;
    }
  }

  // A diagonal move leads where its two straight moves lead, at the cost of one.
  lemma DiagonalMoves(b: Body, m: nat, n: nat)
    requires InGrid(b, m, n)
    ensures Moved(b, NE, m, n) == Moved(b, N, m, n).(x := Moved(b, E, m, n).x)
    ensures Moved(b, NW, m, n) == Moved(b, N, m, n).(x := Moved(b, W, m, n).x)
    ensures Moved(b, SE, m, n) == Moved(b, S, m, n).(x := Moved(b, E, m, n).x)
    ensures Moved(b, SW, m, n) == Moved(b, S, m, n).(x := Moved(b, W, m, n).x)
  {
    hide Around;
    AroundOfSum(b.x, 0, m);
    AroundOfSum(b.y, 0, n);
  }

  // The neighbouring cell, by comparisons.
  function Neighbour(d: Direction, x: int, y: int, m: nat, n: nat): (int, int) {
    var west, east := if x == 0 then m - 1 else x - 1, if x == m - 1 then 0 else x + 1;
    var north, south := if y == 0 then n - 1 else y - 1, if y == n - 1 then 0 else y + 1;
    match d
    case N => (x, north)
    case NE => (east, north)
    case E => (east, y)
    case SE => (east, south)
    case S => (x, south)
    case SW => (west, south)
    case W => (west, y)
    case NW => (west, north)
  }

  lemma MovedToNeighbour(b: Body, d: Direction, m: nat, n: nat)
    requires InGrid(b, m, n)
    ensures var p := Neighbour(d, b.x, b.y, m, n); Moved(b, d, m, n) == b.(x := p.0, y := p.1, energy := b.energy - 1)
  {
    StraightMoves(b, m, n);
    DiagonalMoves(b, m, n);
    hide Moved;
  }

  // Every move can be taken back.
  function Opposite(d: Direction): Direction {
    match d
    case N => S case NE => SW case E => W case SE => NW case S => N case SW => NE case W => E case NW => SE
  }

  lemma MoveBack(b: Body, d: Direction, m: nat, n: nat)
    requires InGrid(b, m, n)
    ensures MovedAll(b, [d] + [Opposite(d)], m, n) == b.(energy := b.energy - 2)
  {
    hide Moved;
    MovedToNeighbour(b, d, m, n);
    MovedToNeighbour(Moved(b, d, m, n), Opposite(d), m, n);
    MovedTwice(b, d, Opposite(d), m, n);
  }

  lemma MovedTwice(b: Body, d: Direction, e: Direction, m: nat, n: nat)
    requires InGrid(b, m, n)
    ensures MovedAll(b, [d] + [e], m, n) == Moved(Moved(b, d, m, n), e, m, n)
  {
    hide Moved;
    var b1 := Moved(b, d, m, n);
    assert ([d] + [e])[1..] == [e] && [e][1..] == [];
    assert MovedAll(b1, [e], m, n) == MovedAll(Moved(b1, e, m, n), [], m, n);
  }

  // ------------------------------------------------------------------ what the counters count

  function Places(bs: seq<Body>, p: Body -> bool): set<int> {
    set i | 0 <= i < |bs| && p(bs[i])
  }

  lemma {:induction false} TallyIsPlaces(bs: seq<Body>, p: Body -> bool, x: int, y: int, k: Kind, r: Role)
    requires forall b :: LiveShare(b, x, y, k, r) == if p(b) then 1 else 0
    ensures Tally(bs, x, y, k, r) == |Places(bs, p)|
  {
    hide LiveShare;
    if bs == [] {
      assert Places(bs, p) == {};
    } else {
      var front, last := bs[..|bs| - 1], |bs| - 1;
      TallyIsPlaces(front, p, x, y, k, r);
      assert Places(bs, p) == Places(front, p) + if p(bs[last]) then {last} else {};
    }
  }

  // A counter should be the number of live creatures of the kind in the cell that are visible, or
  // visible with an energy above 25, or not visible.
  lemma TallyCounts(bs: seq<Body>, x: int, y: int, k: Kind)
    ensures Tally(bs, x, y, k, Active)
         == |set i | 0 <= i < |bs| && bs[i].kind == k && bs[i].x == x && bs[i].y == y
                     && bs[i].energy > 0 && bs[i].visible|
    ensures Tally(bs, x, y, k, Breeding)
         == |set i | 0 <= i < |bs| && bs[i].kind == k && bs[i].x == x && bs[i].y == y
                     && bs[i].energy > 25 && bs[i].visible|
    ensures Tally(bs, x, y, k, Resting)
         == |set i | 0 <= i < |bs| && bs[i].kind == k && bs[i].x == x && bs[i].y == y
                     && bs[i].energy > 0 && !bs[i].visible|
  {
    hide Tally;
    var active := (b: Body) => b.kind == k && b.x == x && b.y == y && b.energy > 0 && b.visible;
    var breeding := (b: Body) => b.kind == k && b.x == x && b.y == y && b.energy > 25 && b.visible;
    var resting := (b: Body) => b.kind == k && b.x == x && b.y == y && b.energy > 0 && !b.visible;
    TallyIsPlaces(bs, active, x, y, k, Active);
    TallyIsPlaces(bs, breeding, x, y, k, Breeding);
    TallyIsPlaces(bs, resting, x, y, k, Resting);
    assert Places(bs, active) ==
      set i | 0 <= i < |bs| && bs[i].kind == k && bs[i].x == x && bs[i].y == y && bs[i].energy > 0 && bs[i].visible;
    assert Places(bs, breeding) ==
      set i | 0 <= i < |bs| && bs[i].kind == k && bs[i].x == x && bs[i].y == y && bs[i].energy > 25 && bs[i].visible;
    assert Places(bs, resting) ==
      set i | 0 <= i < |bs| && bs[i].kind == k && bs[i].x == x && bs[i].y == y && bs[i].energy > 0 && !bs[i].visible;
  }

  lemma {:induction false} SomeoneCounts(bs: seq<Body>, x: int, y: int, k: Kind, r: Role)
    ensures Tally(bs, x, y, k, r) >= 0
    ensures Tally(bs, x, y, k, r) > 0 <==> exists j :: 0 <= j < |bs| && LiveShare(bs[j], x, y, k, r) == 1
  {
    hide LiveShare;
    if bs != [] {
      var front, last := bs[..|bs| - 1], |bs| - 1;
      SomeoneCounts(front, x, y, k, r);
      ShareIsBit(bs[last], x, y, k, r);
      assert forall j :: 0 <= j < last ==> front[j] == bs[j];
    }
  }

  lemma {:induction false} TwoCount(bs: seq<Body>, x: int, y: int, k: Kind, r: Role)
    ensures Tally(bs, x, y, k, r) > 1 <==>
      exists j, l :: 0 <= j < l < |bs| && LiveShare(bs[j], x, y, k, r) == 1 && LiveShare(bs[l], x, y, k, r) == 1
  {
    hide LiveShare;
    if bs != [] {
      var front, last := bs[..|bs| - 1], |bs| - 1;
      TwoCount(front, x, y, k, r);
      SomeoneCounts(front, x, y, k, r);
      ShareIsBit(bs[last], x, y, k, r);
      assert forall j :: 0 <= j < last ==> front[j] == bs[j];
    }
  }

  lemma ShareIsBit(b: Body, x: int, y: int, k: Kind, r: Role)
    ensures LiveShare(b, x, y, k, r) == 0 || LiveShare(b, x, y, k, r) == 1
  {
  }

  // ------------------------------------------------------------------ turns

  // A visible prey in a cell where some prey is to be eaten is eaten, whatever it would have done.
  ghost predicate IsEaten(w: World, i: nat)
    requires i < |w.bodies|
  {
    var b := w.bodies[i];
    b.kind == Prey && b.visible && (b.x, b.y) in w.kills && w.kills[(b.x, b.y)] > 0
  }

  // A creature acts in this turn if it is not eaten and its last action has run out.
  ghost predicate Acts(w: World, i: nat)
    requires i < |w.bodies|
  {
    !IsEaten(w, i) && (w.bodies[i].countDown == 0 || w.bodies[i].countDown == 1)
  }

  function Older(b: Body): Body {
    b.(countDown := if b.countDown > 0 then b.countDown - 1 else b.countDown,
       awakeDaily := if b.resting then b.awakeDaily else b.awakeDaily + 1)
  }

  // How a creature that acts comes to its action: awake, and visible.
  function Ready(b: Body): Body {
    b.(countDown := 0, visible := true, awakeDaily := if b.resting then b.awakeDaily else b.awakeDaily + 1)
  }

  lemma EatenTurn(w: World, i: nat, action: Action, roll: int, x: nat, y: nat)
    requires i < |w.bodies| && IsWorld(w, x, y) && IsEaten(w, i)
    ensures var b := w.bodies[i];
      NaiveStep(w, i, action, roll, x, y)
      == w.(bodies := w.bodies[i := Older(b).(energy := 0)], kills := w.kills[(b.x, b.y) := w.kills[(b.x, b.y)] - 1],
            meals := w.meals + multiset{(b.x, b.y)})
  {
    hide Performed;
    BodyInGrid(w, i, x, y);
    OutcomeInGrid(w, i, action, roll, x, y);
  }

  // Who waits for the end of a longer action only grows older.
  lemma WaitingTurn(w: World, i: nat, action: Action, roll: int, x: nat, y: nat)
    requires i < |w.bodies| && IsWorld(w, x, y) && !IsEaten(w, i) && !Acts(w, i)
    ensures var b := w.bodies[i];
      NaiveStep(w, i, action, roll, x, y) == w.(bodies := w.bodies[i := Older(b)])
  {
    hide Performed;
    BodyInGrid(w, i, x, y);
    OutcomeInGrid(w, i, action, roll, x, y);
    var o := NaiveOutcome(w, i, action, roll, x, y);
    QuietOutcome(w, i, o);
  }

  // An outcome without young, hit or meal changes the creature alone.
  lemma QuietOutcome(w: World, i: nat, o: Outcome)
    requires i < |w.bodies| && (o.body.x, o.body.y) in w.kills && !o.eaten && !o.hit && !o.bred
    ensures After(w, i, o) == w.(bodies := w.bodies[i := o.body])
  {
  }

  // What a creature that acts makes of itself, seen from the deed alone.
  lemma ActingOutcome(w: World, i: nat, action: Action, roll: int, x: nat, y: nat)
    requires i < |w.bodies| && IsWorld(w, x, y) && Acts(w, i)
    ensures InGrid(w.bodies[i], x, y)
    ensures var b, n := w.bodies[i], Scan(w.bodies + w.newborn, x, y);
      var d := Destination(b, action, x, y);
      NaiveOutcome(w, i, action, roll, x, y)
      == Performed(Ready(b), action, roll, n[(d.0, d.1, Prey, Active)] > 0, Others(n, b, d), x, y)
  {
    hide Performed;
    BodyInGrid(w, i, x, y);
  }

  // Moving costs one unit of energy, and doing nothing costs nothing.
  lemma MovingTurn(w: World, i: nat, d: Direction, roll: int, x: nat, y: nat)
    requires i < |w.bodies| && IsWorld(w, x, y) && Acts(w, i)
    ensures var b := w.bodies[i];
      var p := Neighbour(d, b.x, b.y, x, y);
      && NaiveStep(w, i, Action.Move(d), roll, x, y)
         == w.(bodies := w.bodies[i := Ready(b).(x := p.0, y := p.1, energy := b.energy - 1)])
      && NaiveStep(w, i, Nothing, roll, x, y) == w.(bodies := w.bodies[i := Ready(b)])
  {
    hide NaiveOutcome, Moved, Neighbour;
    ActingOutcome(w, i, Action.Move(d), roll, x, y);
    ActingOutcome(w, i, Nothing, roll, x, y);
    MovedToNeighbour(Ready(w.bodies[i]), d, x, y);
    NaiveStepIs(w, i, Action.Move(d), roll, x, y);
    NaiveStepIs(w, i, Nothing, roll, x, y);
    QuietOutcome(w, i, NaiveOutcome(w, i, Action.Move(d), roll, x, y));
    QuietOutcome(w, i, NaiveOutcome(w, i, Nothing, roll, x, y));
  }

  // A short rest costs one unit of energy, a long one five and one between nothing; it hides the
  // creature, and its day begins anew.
  lemma RestingTurn(w: World, i: nat, count: int, roll: int, x: nat, y: nat)
    requires i < |w.bodies| && IsWorld(w, x, y) && Acts(w, i)
    ensures var b := w.bodies[i];
      NaiveStep(w, i, Action.Rest(count), roll, x, y)
      == w.(bodies := w.bodies[i := b.(countDown := count, visible := false, awakeDaily := 0,
              energy := if count < 8 then b.energy - 1 else if count < 24 then b.energy else b.energy - 5)])
  {
    hide NaiveOutcome;
    ActingOutcome(w, i, Action.Rest(count), roll, x, y);
    NaiveStepIs(w, i, Action.Rest(count), roll, x, y);
    QuietOutcome(w, i, NaiveOutcome(w, i, Action.Rest(count), roll, x, y));
  }

  // Some visible prey is alive in the cell.
  ghost predicate PreyAt(w: World, p: (int, int)) {
    exists j :: 0 <= j < |w.bodies + w.newborn| &&
      var o := (w.bodies + w.newborn)[j];
      o.kind == Prey && o.visible && o.energy > 0 && (o.x, o.y) == p
  }

  lemma PreyIsSeen(w: World, p: (int, int))
    ensures PreyAt(w, p) <==> Tally(w.bodies + w.newborn, p.0, p.1, Prey, Active) > 0
  {
    SomeoneCounts(w.bodies + w.newborn, p.0, p.1, Prey, Active);
    var all := w.bodies + w.newborn;
    assert forall j :: 0 <= j < |all| ==>
      (LiveShare(all[j], p.0, p.1, Prey, Active) == 1
       <==> all[j].kind == Prey && all[j].visible && all[j].energy > 0 && (all[j].x, all[j].y) == p);
  }

  // Grazing brings one unit of energy in all. A predator that finds no prey has only moved; with more
  // energy than the roll it gains 14 in all, waits for 3 turns and leaves a prey to be eaten, and
  // otherwise it loses 11 in all.
  lemma HuntingTurn(w: World, i: nat, d: Direction, roll: int, x: nat, y: nat)
    requires i < |w.bodies| && IsWorld(w, x, y) && Acts(w, i)
    ensures var b, w' := w.bodies[i], NaiveStep(w, i, Action.Hunt(d), roll, x, y);
      var p := Neighbour(d, b.x, b.y, x, y);
      var there := Ready(b).(x := p.0, y := p.1);
      && p in w.kills
      && (b.kind == Prey ==> w' == w.(bodies := w.bodies[i := there.(energy := b.energy + 1)]))
      && (b.kind == Predator && !PreyAt(w, p) ==> w' == w.(bodies := w.bodies[i := there.(energy := b.energy - 1)]))
      && (b.kind == Predator && PreyAt(w, p) && b.energy - 1 > roll ==>
           w' == w.(bodies := w.bodies[i := there.(energy := b.energy + 14, countDown := 3)],
                    kills := w.kills[p := w.kills[p] + 1], hits := w.hits + multiset{p}))
      && (b.kind == Predator && PreyAt(w, p) && b.energy - 1 <= roll ==>
           w' == w.(bodies := w.bodies[i := there.(energy := b.energy - 11)]))
  {
    hide NaiveOutcome, Moved, Neighbour, Tally, PreyAt;
    var b := w.bodies[i];
    var p := Neighbour(d, b.x, b.y, x, y);
    ActingOutcome(w, i, Action.Hunt(d), roll, x, y);
    MovedToNeighbour(Ready(b), d, x, y);
    MovedToNeighbour(b, d, x, y);
    NaiveStepIs(w, i, Action.Hunt(d), roll, x, y);
    PreyIsSeen(w, p);
    var o := NaiveOutcome(w, i, Action.Hunt(d), roll, x, y);
    if !o.hit {
      QuietOutcome(w, i, o);
    }
  }

  // The creatures as they are when `i` has come to cell `p`, with `energy` left.
  ghost function Arrived(w: World, i: nat, p: (int, int)): seq<Body>
    requires i < |w.bodies|
  {
    var b := w.bodies[i];
    (w.bodies + w.newborn)[i := Ready(b).(x := p.0, y := p.1, energy := b.energy - 1)]
  }

  // At least two creatures of the kind, in the cell, are visible and have an energy above 25.
  ghost predicate PairAt(bs: seq<Body>, p: (int, int), kind: Kind) {
    exists j, l :: 0 <= j < l < |bs|
      && bs[j].kind == kind && bs[j].visible && bs[j].energy > 25 && (bs[j].x, bs[j].y) == p
      && bs[l].kind == kind && bs[l].visible && bs[l].energy > 25 && (bs[l].x, bs[l].y) == p
  }

  lemma PairIsSeen(bs: seq<Body>, p: (int, int), kind: Kind)
    ensures PairAt(bs, p, kind) <==> Tally(bs, p.0, p.1, kind, Breeding) > 1
  {
    hide Tally;
    TwoCount(bs, p.0, p.1, kind, Breeding);
    assert forall j :: 0 <= j < |bs| ==>
      (LiveShare(bs[j], p.0, p.1, kind, Breeding) == 1
       <==> bs[j].kind == kind && bs[j].visible && bs[j].energy > 25 && (bs[j].x, bs[j].y) == p);
  }

  // With a partner, counted after its own move, a creature loses 26 units of energy in all, hides for
  // 6 turns and bears two young, who hide beside it; without one it has only moved.
  lemma BreedingTurn(w: World, i: nat, d: Direction, roll: int, x: nat, y: nat)
    requires i < |w.bodies| && IsWorld(w, x, y) && Acts(w, i)
    ensures var b, w' := w.bodies[i], NaiveStep(w, i, Action.Breed(d), roll, x, y);
      var p := Neighbour(d, b.x, b.y, x, y);
      var there := Ready(b).(x := p.0, y := p.1);
      var baby := Body(b.kind, 99, p.0, p.1, 0, 6, false, false);
      if PairAt(Arrived(w, i, p), p, b.kind)
      then w' == w.(bodies := w.bodies[i := there.(energy := b.energy - 26, countDown := 6, visible := false)],
                    newborn := w.newborn + [baby, baby])
      else w' == w.(bodies := w.bodies[i := there.(energy := b.energy - 1)])
  {
    hide NaiveOutcome, Moved, Neighbour, Tally, PairAt, LiveShare;
    var b := w.bodies[i];
    var p := Neighbour(d, b.x, b.y, x, y);
    ActingOutcome(w, i, Action.Breed(d), roll, x, y);
    MovedToNeighbour(Ready(b), d, x, y);
    MovedToNeighbour(b, d, x, y);
    NaiveStepIs(w, i, Action.Breed(d), roll, x, y);
    PairIsSeen(Arrived(w, i, p), p, b.kind);
    BreedersAre(w, i, p, x, y);
    var o := NaiveOutcome(w, i, Action.Breed(d), roll, x, y);
    if !o.bred {
      QuietOutcome(w, i, o);
    }
  }

  // The others that could breed, and the creature itself.
  lemma BreedersAre(w: World, i: nat, p: (int, int), x: nat, y: nat)
    requires i < |w.bodies| && IsWorld(w, x, y) && 0 <= p.0 < x && 0 <= p.1 < y
    ensures var b, n := w.bodies[i], Scan(w.bodies + w.newborn, x, y);
      Tally(Arrived(w, i, p), p.0, p.1, b.kind, Breeding) == Others(n, b, p) + if b.energy - 1 > 25 then 1 else 0
  {
    hide Tally;
    var b, all := w.bodies[i], w.bodies + w.newborn;
    TallyUpdate(all, i, Arrived(w, i, p)[i], p.0, p.1, b.kind, Breeding);
  }

  // A turn adds young if and only if the creature acts, is to breed, and finds a partner.
  lemma YoungAreBorn(w: World, i: nat, action: Action, roll: int, x: nat, y: nat)
    requires i < |w.bodies| && IsWorld(w, x, y)
    ensures var b, w' := w.bodies[i], NaiveStep(w, i, action, roll, x, y);
      var p := if action.Breed? then Neighbour(action.dir, b.x, b.y, x, y) else (b.x, b.y);
      var baby := Body(b.kind, 99, p.0, p.1, 0, 6, false, false);
      if !IsEaten(w, i) && (b.countDown == 0 || b.countDown == 1)
         && action.Breed? && PairAt(Arrived(w, i, p), p, b.kind)
      then w'.newborn == w.newborn + [baby, baby]
      else w'.newborn == w.newborn
  {
    hide NaiveStep, Neighbour, PairAt, Arrived, IsEaten;
    if IsEaten(w, i) {
      EatenTurn(w, i, action, roll, x, y);
    } else if !Acts(w, i) {
      WaitingTurn(w, i, action, roll, x, y);
    } else {
      match action {
        case Move(d) => MovingTurn(w, i, d, roll, x, y);
        case Hunt(d) => HuntingTurn(w, i, d, roll, x, y);
        case Breed(d) => BreedingTurn(w, i, d, roll, x, y);
        case Rest(count) => RestingTurn(w, i, count, roll, x, y);
        case Nothing => MovingTurn(w, i, N, roll, x, y);
      }
    }
  }

  // ------------------------------------------------------------------ rounds

  // The places of those who have energy left.
  function Living(bs: seq<Body>): seq<int> {
    if bs == [] then []
    else Living(bs[..|bs| - 1]) + if bs[|bs| - 1].energy > 0 then [|bs| - 1] else []
  }

  lemma {:induction false} LivingAre(bs: seq<Body>)
    ensures forall k :: 0 <= k < |Living(bs)| ==> 0 <= Living(bs)[k] < |bs| && bs[Living(bs)[k]].energy > 0
    ensures forall k, l :: 0 <= k < l < |Living(bs)| ==> Living(bs)[k] < Living(bs)[l]
  {
    if bs != [] {
      LivingAre(bs[..|bs| - 1]);
    }
  }

  lemma {:induction false} LivingHas(bs: seq<Body>, i: nat)
    requires i < |bs| && bs[i].energy > 0
    ensures i in Living(bs)
  {
    var last := |bs| - 1;
    if i < last {
      LivingHas(bs[..last], i);
    } else {
      assert Living(bs)[|Living(bs)| - 1] == last;
    }
  }

  // Who has energy left stays, in order.
  lemma {:induction false} SurvivorsAre(bs: seq<Body>)
    ensures |Survivors(bs)| == |Living(bs)|
    ensures forall k :: 0 <= k < |Living(bs)| ==> 0 <= Living(bs)[k] < |bs| && Survivors(bs)[k] == bs[Living(bs)[k]]
  {
    if bs != [] {
      SurvivorsAre(bs[..|bs| - 1]);
    }
  }

  // Of a round's creatures exactly those with energy left go on to the next round, in their order,
  // and the newborn ones come behind them.
  lemma WhoGoesOn(w: World, decide: nat -> (Action, int), x: nat, y: nat) returns (at: seq<int>)
    requires IsWorld(w, x, y)
    ensures var w1, w' := NaiveTurns(w, |w.bodies|, decide, x, y), NaiveRound(w, decide, x, y);
      && |w'.bodies| == |at| + |w1.newborn| && w'.bodies[|at|..] == w1.newborn && w'.newborn == []
      && (forall k :: 0 <= k < |at| ==> 0 <= at[k] < |w.bodies| && w'.bodies[k] == w1.bodies[at[k]])
      && (forall k, l :: 0 <= k < l < |at| ==> at[k] < at[l])
      && (forall i :: 0 <= i < |w.bodies| ==> (i in at <==> w1.bodies[i].energy > 0))
  {
    hide NaiveTurns, Survivors, Living;
    var bs := NaiveTurns(w, |w.bodies|, decide, x, y).bodies;
    LivingAre(bs);
    SurvivorsAre(bs);
    at := Living(bs);
    forall i | 0 <= i < |bs| && bs[i].energy > 0 ensures i in at {
      LivingHas(bs, i);
    }
  }

  // A creature is placed with 100 units of energy, visible and about to act.
  lemma PlacedCreatures(kind: Kind, places: seq<(int, int)>)
    ensures |Placed(kind, places)| == |places|
    ensures forall i :: 0 <= i < |places| ==>
      Placed(kind, places)[i] == Body(kind, 100, places[i].0, places[i].1, 0, 0, true, false)
  {
  }
}
