/**
  The predator-prey simulation: cells with incremental counters, the grid of cells, the creatures
  that act on it and the simulation loop.

  Random numbers and the action a creature's program decides on are arbitrary inputs.  Where the
  source has one method for predators and one for prey, there is one method with a `kind` here.
 */
module Locations {
  import opened Census

  // What a visible creature adds to the counters of its cell.
  function Weight(kind: Kind, energy: int, k: Kind, r: Role): int {
    if k == kind && (r == Active || (r == Breeding && energy > BREED_ENERGY_THRESHOLD)) then 1 else 0
  }

  function Only(kind: Kind, role: Role, k: Kind, r: Role): int {
    if k == kind && r == role then 1 else 0
  }

  class Location {
    var preyNum: int
    var predNum: int
    var preyBreed: int
    var predBreed: int
    var preyResting: int
    var predResting: int
    var preyKill: int
    ghost const x: int
    ghost const y: int

    constructor (ghost x: int, ghost y: int)
      ensures this.x == x && this.y == y
      ensures preyKill == 0 && forall k, r :: Count(k, r) == 0
    {
      preyNum, predNum, preyBreed, predBreed, preyResting, predResting, preyKill := 0, 0, 0, 0, 0, 0, 0;
      this.x := x;
      this.y := y;
    }

    function Count(k: Kind, r: Role): int
      reads this
    {
      match (k, r)
      case (Prey, Active) => preyNum
      case (Prey, Breeding) => preyBreed
      case (Prey, Resting) => preyResting
      case (Predator, Active) => predNum
      case (Predator, Breeding) => predBreed
      case (Predator, Resting) => predResting
    }

    // All the creatures counted here.
    ghost function Creatures(): int
      reads this
    {
      preyNum + predNum + preyResting + predResting
    }

    // What the C ancestor checks of a single cell.
    ghost predicate Sane()
      reads this
    {
      && 0 <= preyBreed <= preyNum && 0 <= predBreed <= predNum
      && 0 <= preyResting && 0 <= predResting && 0 <= preyKill
    }

    predicate HasPrey()
      reads this
    {
      preyNum > 0
    }

    predicate HasKilledPrey()
      reads this
    {
      preyKill > 0
    }

    predicate HasPartner(kind: Kind)
      reads this
    {
      if kind == Predator then predBreed > 1 else preyBreed > 1
    }

    method AddBreeding(kind: Kind)
      modifies this
      ensures preyKill == old(preyKill)
      ensures forall k, r :: Count(k, r) == old(Count(k, r)) + Only(kind, Breeding, k, r)
    {
      match kind {
        case Predator => predBreed := predBreed + 1;
        case Prey => preyBreed := preyBreed + 1;
      }
    }

    method RemoveBreeding(kind: Kind)
      modifies this
      ensures preyKill == old(preyKill)
      ensures forall k, r :: Count(k, r) == old(Count(k, r)) - Only(kind, Breeding, k, r)
    {
      match kind {
        case Predator => predBreed := predBreed - 1;
        case Prey => preyBreed := preyBreed - 1;
      }
    }

    method Add(kind: Kind, energy: int)
      modifies this
      ensures preyKill == old(preyKill)
      ensures forall k, r :: Count(k, r) == old(Count(k, r)) + Weight(kind, energy, k, r)
    {
      match kind {
        case Predator =>
          predNum := predNum + 1;
          if energy > 25 {
            predBreed := predBreed + 1;
          }
        case Prey =>
          preyNum := preyNum + 1;
          if energy > 25 {
            preyBreed := preyBreed + 1;
          }
      }
    }

    method Remove(kind: Kind, energy: int)
      modifies this
      ensures preyKill == old(preyKill)
      ensures forall k, r :: Count(k, r) == old(Count(k, r)) - Weight(kind, energy, k, r)
    {
      match kind {
        case Predator =>
          predNum := predNum - 1;
          if energy > 25 {
            predBreed := predBreed - 1;
          }
        case Prey =>
          preyNum := preyNum - 1;
          if energy > 25 {
            preyBreed := preyBreed - 1;
          }
      }
    }

    method AddResting(kind: Kind)
      modifies this
      ensures preyKill == old(preyKill)
      ensures forall k, r :: Count(k, r) == old(Count(k, r)) + Only(kind, Resting, k, r)
    {
      match kind {
        case Predator => predResting := predResting + 1;
        case Prey => preyResting := preyResting + 1;
      }
    }

    method RemoveResting(kind: Kind)
      modifies this
      ensures preyKill == old(preyKill)
      ensures forall k, r :: Count(k, r) == old(Count(k, r)) - Only(kind, Resting, k, r)
    {
      match kind {
        case Predator => predResting := predResting - 1;
        case Prey => preyResting := preyResting - 1;
      }
    }

    method KillPrey()
      modifies this
      ensures preyKill == old(preyKill) + 1
      ensures forall k, r :: Count(k, r) == old(Count(k, r))
    {
      preyKill := preyKill + 1;
    }

    method RemoveKilledPrey()
      modifies this
      ensures preyKill == old(preyKill) - 1
      ensures forall k, r :: Count(k, r) == old(Count(k, r)) - Only(Prey, Active, k, r)
    {
      preyNum := preyNum - 1;
      preyKill := preyKill - 1;
    }

    method Rest(kind: Kind, energy: int)
      modifies this
      ensures preyKill == old(preyKill)
      ensures forall k, r :: Count(k, r) == old(Count(k, r)) - Weight(kind, energy, k, r) + Only(kind, Resting, k, r)
    {
      Remove(kind, energy);
      AddResting(kind);
    }

    method Awake(kind: Kind, energy: int)
      modifies this
      ensures preyKill == old(preyKill)
      ensures forall k, r :: Count(k, r) == old(Count(k, r)) + Weight(kind, energy, k, r) - Only(kind, Resting, k, r)
    {
      Add(kind, energy);
      RemoveResting(kind);
    }
  }
}

module Grids {
  import opened Census
  import opened Locations

  class Grid {
    const loc: seq<seq<Location>>
    const xsize: nat
    const ysize: nat
    ghost const cells: set<Location>

    // The grid is fully built, and different coordinates lead to different cells.
    ghost predicate Valid() {
      && |loc| == xsize
      && (forall i :: 0 <= i < xsize ==> |loc[i]| == ysize)
      && (forall i, j :: 0 <= i < xsize && 0 <= j < ysize ==>
            loc[i][j] in cells && loc[i][j].x == i && loc[i][j].y == j)
    }

    predicate Covers(x: int, y: int) {
      0 <= x < xsize && 0 <= y < ysize
    }

    function At(x: int, y: int): Location
      requires Valid() && Covers(x, y)
    {
      loc[x][y]
    }

    // The values of all counters.
    ghost function Counts(): (n: Counts)
      requires Valid()
      reads cells
      ensures IsFull(n, xsize, ysize)
    {
      imap c: (int, int, Kind, Role) | Covers(c.0, c.1) :: At(c.0, c.1).Count(c.2, c.3)
    }

    ghost function Kills(): (k: Kills)
      requires Valid()
      reads cells
      ensures forall p: (int, int) :: p in k <==> Covers(p.0, p.1)
    {
      imap p: (int, int) | Covers(p.0, p.1) :: At(p.0, p.1).preyKill
    }

    // What the C ancestor sums up over a column of cells, and over the whole grid.
    ghost function ColumnPopulation(x: nat, n: nat): int
      requires Valid() && x < xsize && n <= ysize
      reads cells
    {
      if n == 0 then 0
      else
        ColumnPopulation(x, n - 1) + At(x, n - 1).Creatures()
    }

    ghost function Population(m: nat): int
      requires Valid() && m <= xsize
      reads cells
    {
      if m == 0 then 0 else Population(m - 1) + ColumnPopulation(m - 1, ysize)
    }

    lemma {:induction false} ColumnIsTally(bs: seq<Body>, x: nat, n: nat)
      requires Valid() && x < xsize && n <= ysize && IsCensus(Counts(), bs)
      ensures ColumnPopulation(x, n) == ColumnTally(bs, x, n)
    {
      hide Tally;
      if n > 0 {
        ColumnIsTally(bs, x, n - 1);
        Look(x, n - 1, Prey, Active);
        Look(x, n - 1, Predator, Active);
        Look(x, n - 1, Prey, Resting);
        Look(x, n - 1, Predator, Resting);
      }
    }

    // Counters that are a census add up to the tally of the creatures over the whole grid.
    lemma {:induction false} PopulationIsTally(bs: seq<Body>, m: nat)
      requires Valid() && m <= xsize && IsCensus(Counts(), bs)
      ensures Population(m) == GridTally(bs, m, ysize)
    {
      hide IsCensus, Counts;
      if m > 0 {
        PopulationIsTally(bs, m - 1);
        ColumnIsTally(bs, m - 1, ysize);
      }
    }

    lemma Look(x: int, y: int, k: Kind, r: Role)
      requires Valid() && Covers(x, y)
      ensures (x, y) in Kills() && Kills()[(x, y)] == At(x, y).preyKill
      ensures (x, y, k, r) in Counts() && Counts()[(x, y, k, r)] == At(x, y).Count(k, r)
    {
    }

    constructor (xsize: nat, ysize: nat)
      ensures Valid() && fresh(cells) && this.xsize == xsize && this.ysize == ysize
      ensures forall c | c in Counts() :: Counts()[c] == 0
      ensures forall p | p in Kills() :: Kills()[p] == 0
    {
      var rows: seq<seq<Location>> := [];
      ghost var made: set<Location> := {};
      for i := 0 to xsize
        invariant |rows| == i && fresh(made)
        invariant forall a :: 0 <= a < i ==> |rows[a]| == ysize
        invariant forall a, b :: 0 <= a < i && 0 <= b < ysize ==>
          rows[a][b] in made && rows[a][b].x == a && rows[a][b].y == b
        invariant forall c <- made :: c.preyKill == 0 && forall k, r :: c.Count(k, r) == 0
      {
        var row: seq<Location> := [];
        for j := 0 to ysize
          invariant |row| == j && fresh(made)
          invariant forall a, b :: 0 <= a < i && 0 <= b < ysize ==>
          rows[a][b] in made && rows[a][b].x == a && rows[a][b].y == b
          invariant forall b :: 0 <= b < j ==> row[b] in made && row[b].x == i && row[b].y == b
          invariant forall c <- made :: c.preyKill == 0 && forall k, r :: c.Count(k, r) == 0
        {
          var cell := new Location(i, j);
          made := made + {cell};
          row := row + [cell];
        }
        rows := rows + [row];
      }
      this.loc := rows;
      this.xsize := xsize;
      this.ysize := ysize;
      this.cells := made;
    }
  }
}

module Creatures {
  import opened SimProgram
  import opened Census
  import opened Rules
  import opened Locations
  import opened Grids

  function Wrapped(v: int, size: nat): int {
    if v >= size then 0 else if v < 0 then size - 1 else v
  }

  // The source wraps a coordinate by comparisons; for steps of one that is arithmetic modulo the size.
  lemma WrapAround(v: int, step: int, size: nat)
    requires 0 <= v < size && -1 <= step <= 1
    ensures (v + step) % size == Wrapped(v + step, size)
  {
    if v + step == size {
      assert size % size == 0;
    }
  }

  class Creature {
    const kind: Kind
    var energy: int
    var xCoord: int
    var yCoord: int
    var awakeDaily: int
    var countDown: int
    var visible: bool
    var resting: bool

    function View(): Body
      reads this
    {
      Body(kind, energy, xCoord, yCoord, awakeDaily, countDown, visible, resting)
    }

    predicate OnGrid(g: Grid)
      reads this
    {
      g.Covers(xCoord, yCoord)
    }

    predicate IsDead()
      reads this
    {
      energy <= 0
    }

    constructor (kind: Kind, x: int, y: int, g: Grid)
      requires g.Valid() && g.Covers(x, y)
      modifies g.cells
      ensures View() == Body(kind, INIT_ENERGY, x, y, 0, 0, true, false)
      ensures Added(old(g.Counts()), g.Counts(), View()) && g.Kills() == old(g.Kills())
    {
      this.kind := kind;
      this.energy := INIT_ENERGY;
      this.xCoord := x;
      this.yCoord := y;
      this.awakeDaily := 0;
      this.countDown := 0;
      this.visible := true;
      this.resting := false;
      new;
      g.At(x, y).Add(kind, energy);
    }

    method ChangeEnergy(delta: int, g: Grid)
      requires g.Valid() && OnGrid(g) && visible
      modifies this, g.cells
      ensures View() == old(View()).(energy := old(energy) + delta)
      ensures Recounted(old(g.Counts()), g.Counts(), old(View()), View()) && g.Kills() == old(g.Kills())
    {
      var original := energy;
      energy := energy + delta;
      if original > BREED_ENERGY_THRESHOLD && energy <= BREED_ENERGY_THRESHOLD {
        g.At(xCoord, yCoord).RemoveBreeding(kind);
      } else if original <= BREED_ENERGY_THRESHOLD && energy > BREED_ENERGY_THRESHOLD {
        g.At(xCoord, yCoord).AddBreeding(kind);
      }
    }

    method SetInvisible(g: Grid)
      requires g.Valid() && OnGrid(g) && visible
      modifies this, g.cells
      ensures View() == old(View()).(visible := false)
      ensures Recounted(old(g.Counts()), g.Counts(), old(View()), View()) && g.Kills() == old(g.Kills())
    {
      g.At(xCoord, yCoord).Rest(kind, energy);
      visible := false;
    }

    method SetVisible(g: Grid)
      requires g.Valid() && OnGrid(g) && !visible
      modifies this, g.cells
      ensures View() == old(View()).(visible := true)
      ensures Recounted(old(g.Counts()), g.Counts(), old(View()), View()) && g.Kills() == old(g.Kills())
    {
      g.At(xCoord, yCoord).Awake(kind, energy);
      visible := true;
    }

    // The part of a move that only concerns the creature itself.
    method Step(dir: Direction, g: Grid)
      requires OnGrid(g)
      modifies this
      ensures View() == Moved(old(View()), dir, g.xsize, g.ysize)
    {
      WrapAround(xCoord, StepX(dir), g.xsize);
      WrapAround(yCoord, StepY(dir), g.ysize);
      energy := energy - 1;
      match dir {
        case NW | N | NE => yCoord := yCoord - 1;
        case SW | S | SE => yCoord := yCoord + 1;
        case _ =>
      }
      match dir {
        case NE | E | SE => xCoord := xCoord + 1;
        case NW | W | SW => xCoord := xCoord - 1;
        case _ =>
      }
      if xCoord >= g.xsize {
        xCoord := 0;
      } else if xCoord < 0 {
        xCoord := g.xsize - 1;
      }
      if yCoord >= g.ysize {
        yCoord := 0;
      } else if yCoord < 0 {
        yCoord := g.ysize - 1;
      }
    }

    method Move(dir: Direction, g: Grid)
      requires g.Valid() && OnGrid(g) && visible
      modifies this, g.cells
      ensures View() == Moved(old(View()), dir, g.xsize, g.ysize)
      ensures (xCoord, yCoord) == Neighbour(dir, old(xCoord), old(yCoord), g.xsize, g.ysize)
      ensures energy == old(energy) - 1
      ensures Recounted(old(g.Counts()), g.Counts(), old(View()), View()) && g.Kills() == old(g.Kills())
    {
      hide Recounted, Removed, Added, Grid.Counts, Grid.Kills, Neighbour;
      ghost var n0, b0 := g.Counts(), View();
      MovedToNeighbour(b0, dir, g.xsize, g.ysize);
      Leave(g);
      ghost var n1 := g.Counts();
      Step(dir, g);
      Enter(g);
      RemovedAndAdded(n0, n1, g.Counts(), b0, View());
    }

    method Leave(g: Grid)
      requires g.Valid() && OnGrid(g) && visible
      modifies g.cells
      ensures Removed(old(g.Counts()), g.Counts(), View()) && g.Kills() == old(g.Kills())
    {
      g.At(xCoord, yCoord).Remove(kind, energy);
    }

    method Enter(g: Grid)
      requires g.Valid() && OnGrid(g) && visible
      modifies g.cells
      ensures Added(old(g.Counts()), g.Counts(), View()) && g.Kills() == old(g.Kills())
    {
      g.At(xCoord, yCoord).Add(kind, energy);
    }

    method Rest(count: int, g: Grid)
      requires g.Valid() && OnGrid(g) && visible
      modifies this, g.cells
      ensures View() == Rested(old(View()), count)
      ensures Recounted(old(g.Counts()), g.Counts(), old(View()), View()) && g.Kills() == old(g.Kills())
    {
      hide Recounted, Grid.Counts, Grid.Kills;
      ghost var b0 := View();
      countDown := count;
      ghost var b1 := View();
      SetInvisible(g);
      ghost var b2 := View();
      if countDown < 8 {
        energy := energy - 1;
      } else if countDown >= 24 {
        energy := energy - 5;
      }
      awakeDaily := 0;
      RecountedAlike(old(g.Counts()), g.Counts(), b1, b2, b0, View());
    }

    method Kill(g: Grid)
      requires g.Valid() && OnGrid(g)
      modifies g.cells
      ensures g.Counts() == old(g.Counts())
      ensures KillsChanged(old(g.Kills()), g.Kills(), (xCoord, yCoord), 1)
    {
      g.At(xCoord, yCoord).KillPrey();
    }

    // A predator goes for the prey around it.
    method Strike(roll: int, g: Grid) returns (ghost hit: bool)
      requires g.Valid() && OnGrid(g) && visible
      modifies this, g.cells
      ensures hit == (old(energy) > roll)
      ensures View() == if hit then old(View()).(energy := old(energy) + 15, countDown := 3)
                        else old(View()).(energy := old(energy) - 10)
      ensures KillsChanged(old(g.Kills()), g.Kills(), (xCoord, yCoord), if hit then 1 else 0)
      ensures Recounted(old(g.Counts()), g.Counts(), old(View()), View())
    {
      hide Recounted, Grid.Counts, Grid.Kills;
      ghost var n0, b0 := g.Counts(), View();
      hit := energy > roll;
      if energy > roll {
        ChangeEnergy(25, g);
        ghost var n1, b1 := g.Counts(), View();
        countDown := 3;
        Kill(g);
        ghost var b2 := View();
        ChangeEnergy(-10, g);
        RecountedAlike(n0, n1, b0, b1, b0, b2);
        RecountedTwice(n0, n1, g.Counts(), b0, b2, View());
      } else {
        ChangeEnergy(-10, g);
      }
    }

    method Hunt(dir: Direction, roll: int, g: Grid) returns (ghost hit: bool)
      requires g.Valid() && OnGrid(g) && visible
      modifies this, g.cells
      ensures var d := Destination(old(View()), Action.Hunt(dir), g.xsize, g.ysize);
              var o := Hunted(old(View()), dir, roll, old(g.Counts()[(d.0, d.1, Prey, Active)]) > 0, g.xsize, g.ysize);
              && View() == o.body && hit == o.hit
              && KillsChanged(old(g.Kills()), g.Kills(), d, if hit then 1 else 0)
      ensures Recounted(old(g.Counts()), g.Counts(), old(View()), View())
    {
      hide Recounted, Grid.Counts, Grid.Kills, Neighbour;
      ghost var n0, b0 := g.Counts(), View();
      hit := false;
      Move(dir, g);
      ghost var n1, b1 := g.Counts(), View();
      if kind == Prey {
        ChangeEnergy(2, g);
        RecountedTwice(n0, n1, g.Counts(), b0, b1, View());
      } else {
        g.Look(xCoord, yCoord, Prey, Active);
        OtherKindKept(n0, n1, b0, b1, (xCoord, yCoord, Prey, Active));
        if g.At(xCoord, yCoord).HasPrey() {
          hit := Strike(roll, g);
          RecountedTwice(n0, n1, g.Counts(), b0, b1, View());
        }
      }
    }

    method BecomeParent(g: Grid)
      requires g.Valid() && OnGrid(g) && visible
      modifies this, g.cells
      ensures View() == old(View()).(countDown := 6, visible := false, energy := old(energy) - 25)
      ensures Recounted(old(g.Counts()), g.Counts(), old(View()), View()) && g.Kills() == old(g.Kills())
    {
      hide Recounted, Grid.Counts, Grid.Kills;
      ghost var b0 := View();
      countDown := 6;
      ghost var b1 := View();
      SetInvisible(g);
      ghost var b2 := View();
      energy := energy - 25;
      RecountedAlike(old(g.Counts()), g.Counts(), b1, b2, b0, View());
    }

    method MakeTwins(g: Grid) returns (baby1: Creature, baby2: Creature, ghost n1: Counts)
      requires g.Valid() && OnGrid(g)
      modifies g.cells
      ensures fresh(baby1) && fresh(baby2) && baby1 != baby2 && baby1.View() == baby2.View()
      ensures baby1.View() == Body(kind, INIT_ENERGY, xCoord, yCoord, 0, 0, true, false)
      ensures Added(old(g.Counts()), n1, baby1.View()) && Added(n1, g.Counts(), baby1.View())
      ensures g.Kills() == old(g.Kills())
    {
      hide Grid.Counts, Grid.Kills, Added;
      baby1 := new Creature(kind, xCoord, yCoord, g);
      n1 := g.Counts();
      baby2 := new Creature(kind, xCoord, yCoord, g);
    }

    method BearTwins(g: Grid) returns (babies: seq<Creature>)
      requires g.Valid() && OnGrid(g)
      modifies g.cells
      ensures AreBodies(babies, [Newborn(kind, xCoord, yCoord), Newborn(kind, xCoord, yCoord)]) && AreNew(babies)
      ensures TwinsAdded(old(g.Counts()), g.Counts(), Newborn(kind, xCoord, yCoord)) && g.Kills() == old(g.Kills())
    {
      hide Recounted, Grid.Counts, Grid.Kills, Added, TwinsAdded, Rested;
      var baby1, baby2, n1 := MakeTwins(g);
      ghost var n2, baby := g.Counts(), baby1.View();
      baby1.Rest(6, g);
      ghost var n3 := g.Counts();
      baby2.Rest(6, g);
      babies := [baby1, baby2];
      TwinsBorn(old(g.Counts()), n1, n2, n3, g.Counts(), baby, Newborn(kind, xCoord, yCoord));
    }

    method Breed(dir: Direction, g: Grid) returns (babies: seq<Creature>)
      requires g.Valid() && OnGrid(g) && visible
      modifies this, g.cells
      ensures var d := Destination(old(View()), Action.Breed(dir), g.xsize, g.ysize);
              var c := (d.0, d.1, kind, Breeding);
              var o := Bred(old(View()), dir, old(g.Counts()[c] - ShareIn(View(), c)), g.xsize, g.ysize);
              && View() == o.body && AreBodies(babies, Litter(o))
              && RecountedWithLitter(old(g.Counts()), g.Counts(), old(View()), o)
      ensures AreNew(babies) && g.Kills() == old(g.Kills())
    {
      hide Recounted, RecountedWithLitter, Grid.Counts, Grid.Kills, TwinsAdded, Neighbour;
      ghost var n0, b0 := g.Counts(), View();
      Move(dir, g);
      ghost var n1, b1 := g.Counts(), View();
      g.Look(xCoord, yCoord, kind, Breeding);
      OthersKept(n0, n1, b0, b1, (xCoord, yCoord, kind, Breeding));
      if g.At(xCoord, yCoord).HasPartner(kind) {
        BecomeParent(g);
        ghost var n2 := g.Counts();
        RecountedTwice(n0, n1, n2, b0, b1, View());
        babies := BearTwins(g);
        LitterAdded(n0, n2, g.Counts(), b0, Outcome(View(), false, false, true));
      } else {
        babies := [];
        NoLitter(n0, n1, b0, Just(View()));
      }
    }

    method Perform(action: Action, roll: int, g: Grid) returns (babies: seq<Creature>)
      requires g.Valid() && OnGrid(g) && visible
      modifies this, g.cells
      ensures var o := Deed(old(View()), action, roll, old(g.Counts()), g.xsize, g.ysize);
              && View() == o.body && AreBodies(babies, Litter(o))
              && RecountedWithLitter(old(g.Counts()), g.Counts(), old(View()), o)
              && TurnKills(old(g.Kills()), g.Kills(), o)
      ensures AreNew(babies)
    {
      hide Recounted, RecountedWithLitter, Hunted, Moved, Bred, Grid.Counts, Grid.Kills, Neighbour;
      babies := [];
      ghost var hit := false;
      match action {
        case Move(dir) => Move(dir, g);
        case Rest(count) => Rest(count, g);
        case Hunt(dir) => hit := Hunt(dir, roll, g);
        case Breed(dir) => babies := Breed(dir, g);
        case Nothing => Unchanged(g.Counts(), View());
      }
      if !action.Breed? {
        NoLitter(old(g.Counts()), g.Counts(), old(View()), Outcome(View(), false, hit, false));
      }
    }

    // A creature without energy leaves the grid; the simulation drops it later.
    method LeaveIfDead(g: Grid)
      requires g.Valid() && OnGrid(g)
      modifies g.cells
      ensures g.Kills() == old(g.Kills())
      ensures if IsDead() then Removed(old(g.Counts()), g.Counts(), View()) else g.Counts() == old(g.Counts())
    {
      if IsDead() {
        if visible {
          g.At(xCoord, yCoord).Remove(kind, 0);
        } else {
          g.At(xCoord, yCoord).RemoveResting(kind);
        }
      }
    }

    method IsEaten(g: Grid) returns (eaten: bool)
      requires g.Valid() && OnGrid(g)
      modifies this, g.cells
      ensures eaten <==> kind == Prey && old(g.Kills()[(xCoord, yCoord)]) > 0 && old(visible)
      ensures View() == if eaten then old(View()).(energy := 0) else old(View())
      ensures if eaten then
                && Removed(old(g.Counts()), g.Counts(), old(View()))
                && KillsChanged(old(g.Kills()), g.Kills(), (xCoord, yCoord), -1)
              else g.Counts() == old(g.Counts()) && g.Kills() == old(g.Kills())
    {
      if kind == Prey && g.At(xCoord, yCoord).HasKilledPrey() && visible {
        ChangeEnergy(-energy, g);
        g.At(xCoord, yCoord).RemoveKilledPrey();
        return true;
      }
      return false;
    }

    // A new action, which makes the creature visible if it was not.
    method ActNow(action: Action, roll: int, g: Grid) returns (babies: seq<Creature>)
      requires g.Valid() && OnGrid(g) && !IsDead()
      modifies this, g.cells
      ensures var o := DeedOnWaking(old(View()), action, roll, old(g.Counts()), g.xsize, g.ysize);
              && View() == o.body && AreBodies(babies, Litter(o))
              && TurnCounted(old(g.Counts()), g.Counts(), old(View()), o)
              && TurnKills(old(g.Kills()), g.Kills(), o)
      ensures AreNew(babies)
    {
      hide Recounted, RecountedWithLitter, TurnCounted, Performed, Deed, Grid.Counts, Grid.Kills, Removed;
      ghost var n0, b0 := g.Counts(), View();
      if !visible {
        SetVisible(g);
      } else {
        Unchanged(g.Counts(), View());
      }
      ghost var n1, b1 := g.Counts(), View();
      WakingKeepsDeed(n0, n1, b0, b1, action, roll, g.xsize, g.ysize);
      ghost var o := Deed(b1, action, roll, n1, g.xsize, g.ysize);
      babies := Perform(action, roll, g);
      ghost var n2 := g.Counts();
      RecountedAgain(n0, n1, n2, b0, b1, o);
      LeaveIfDead(g);
      TurnIsCounted(n0, n2, g.Counts(), b0, o);
    }

    method Age()
      modifies this
      ensures View() == Aged(old(View()))
    {
      if countDown > 0 {
        countDown := countDown - 1;
      }
      if !resting {
        awakeDaily := awakeDaily + 1;
      }
    }

    method Act(action: Action, roll: int, g: Grid) returns (babies: seq<Creature>)
      requires g.Valid() && OnGrid(g) && !IsDead()
      modifies this, g.cells
      ensures var o := TurnAmong(old(View()), action, roll, old(g.Kills()[(xCoord, yCoord)]) > 0,
                                 old(g.Counts()), g.xsize, g.ysize);
              && View() == o.body && AreBodies(babies, Litter(o))
              && TurnCounted(old(g.Counts()), g.Counts(), old(View()), o)
              && TurnKills(old(g.Kills()), g.Kills(), o)
      ensures AreNew(babies)
    {
      hide Recounted, TurnCounted, TurnAmong, DeedOnWaking, Grid.Counts, Grid.Kills, Removed;
      ghost var n0, b0 := g.Counts(), View();
      g.Look(xCoord, yCoord, kind, Active);
      TurnOfAged(b0, action, roll, g.Kills()[(xCoord, yCoord)] > 0, n0, g.xsize, g.ysize);
      Age();
      ghost var b1 := View();
      var eaten := IsEaten(g);
      if eaten {
        EatenIsCounted(n0, g.Counts(), b0, b1, View());
        return [];
      }
      if countDown == 0 {
        babies := ActNow(action, roll, g);
        TurnCountedAlike(n0, g.Counts(), b0, b1, DeedOnWaking(b1, action, roll, n0, g.xsize, g.ysize));
        return;
      }
      WaitingIsCounted(n0, b0, View());
      return [];
    }
  }

  ghost predicate AreBodies(cs: seq<Creature>, bs: seq<Body>)
    reads cs
  {
    |cs| == |bs| && forall i :: 0 <= i < |cs| ==> cs[i].View() == bs[i]
  }

  twostate predicate AreNew(new cs: seq<Creature>) {
    && (forall i :: 0 <= i < |cs| ==> fresh(cs[i]))
    && (forall i, j :: 0 <= i < j < |cs| ==> cs[i] != cs[j])
  }
}

module Simulations {
  import opened SimProgram
  import opened Census
  import opened KillBounds
  import opened Locations
  import opened Grids
  import opened Creatures

  ghost function BodiesOf(cs: seq<Creature>): (bs: seq<Body>)
    reads cs
    ensures |bs| == |cs| && forall i :: 0 <= i < |cs| ==> bs[i] == cs[i].View()
  {
    seq(|cs|, i requires 0 <= i < |cs| reads cs => cs[i].View())
  }

  predicate Distinct(cs: seq<Creature>) {
    forall i, j :: 0 <= i < j < |cs| ==> cs[i] != cs[j]
  }

  // `retain` of the source: the living creatures, in order.
  method Retain(cs: seq<Creature>) returns (kept: seq<Creature>)
    requires Distinct(cs)
    ensures BodiesOf(kept) == Survivors(BodiesOf(cs))
    ensures Distinct(kept) && forall c <- kept :: c in cs
  {
    ghost var bs := BodiesOf(cs);
    kept := [];
    for i := 0 to |cs|
      invariant BodiesOf(kept) == Survivors(bs[..i])
      invariant Distinct(kept) && forall j :: 0 <= j < |kept| ==> kept[j] in cs[..i]
    {
      assert bs[..i + 1][..i] == bs[..i];
      ghost var before := kept;
      if !cs[i].IsDead() {
        kept := kept + [cs[i]];
        assert BodiesOf(kept) == BodiesOf(before) + [bs[i]];
      } else {
        assert BodiesOf(kept) == BodiesOf(before) + [];
      }
      assert cs[..i + 1] == cs[..i] + [cs[i]];
    }
    assert cs[..|cs|] == cs && bs[..|cs|] == bs;
  }

  class Simulation {
    var run: bool
    var creatures: seq<Creature>
    var validConfiguration: bool
    const grid: Grid
    ghost var hits: multiset<(int, int)>
    ghost var meals: multiset<(int, int)>

    ghost predicate Valid()
      reads `creatures, creatures
    {
      && grid.Valid()
      && Distinct(creatures)
      && (forall c <- creatures :: c.OnGrid(grid) && !c.IsDead())
    }

    ghost function Bodies(): seq<Body>
      reads `creatures, creatures
    {
      BodiesOf(creatures)
    }

    // The counters of the grid are a census of the creatures.
    ghost predicate Counted()
      requires grid.Valid()
      reads `creatures, creatures, grid.cells
    {
      IsCensus(grid.Counts(), Bodies())
    }

    ghost function AsWorld(): World
      requires grid.Valid()
      reads `creatures, `hits, `meals, creatures, grid.cells
    {
      World(Bodies(), [], grid.Kills(), hits, meals)
    }

    constructor (xsize: nat, ysize: nat)
      ensures Valid() && Counted() && creatures == [] && !run && !validConfiguration
      ensures fresh(grid) && fresh(grid.cells) && grid.xsize == xsize && grid.ysize == ysize
      ensures forall c | c in grid.Counts() :: grid.Counts()[c] == 0
      ensures AsWorld() == World([], [], NoKills(xsize, ysize), multiset{}, multiset{}) && KillsBalance(AsWorld())
    {
      run := false;
      validConfiguration := false;
      creatures := [];
      grid := new Grid(xsize, ysize);
      hits, meals := multiset{}, multiset{};
    }

    method SetRun(val: bool)
      modifies `run
      ensures run == (val && validConfiguration)
    {
      run := val && validConfiguration;
    }

    method SpawnOne(kind: Kind, x: int, y: int)
      requires Valid() && grid.Covers(x, y)
      modifies `creatures, grid.cells
      ensures Valid() && grid.Kills() == old(grid.Kills())
      ensures Bodies() == old(Bodies()) + [Body(kind, INIT_ENERGY, x, y, 0, 0, true, false)]
      ensures Added(old(grid.Counts()), grid.Counts(), Body(kind, INIT_ENERGY, x, y, 0, 0, true, false))
      ensures forall c <- creatures :: c in old(creatures) || fresh(c)
    {
      hide Grid.Counts, Grid.Kills, Added;
      ghost var bs := Bodies();
      var c := new Creature(kind, x, y, grid);
      assert BodiesOf(creatures) == bs;
      creatures := creatures + [c];
      assert Bodies() == bs + [c.View()];
    }

    // Places creatures of one kind and appends them.
    method Spawn(kind: Kind, places: seq<(int, int)>)
      requires Valid() && forall i :: 0 <= i < |places| ==> grid.Covers(places[i].0, places[i].1)
      modifies `creatures, grid.cells
      ensures Valid() && grid.Kills() == old(grid.Kills())
      ensures Bodies() == old(Bodies()) + Placed(kind, places)
      ensures Gained(old(grid.Counts()), grid.Counts(), Placed(kind, places))
      ensures forall c <- creatures :: c in old(creatures) || fresh(c)
    {
      hide Grid.Counts, Grid.Kills, Added, Bodies;
      ghost var n0, bs0 := grid.Counts(), Bodies();
      assert bs0 == bs0 + Placed(kind, places[..0]);
      for i := 0 to |places|
        invariant Valid() && grid.Kills() == old(grid.Kills())
        invariant Bodies() == bs0 + Placed(kind, places[..i])
        invariant Gained(n0, grid.Counts(), Placed(kind, places[..i]))
        invariant forall c <- creatures :: c in old(creatures) || fresh(c)
      {
        hide Gained;
        ghost var n := grid.Counts();
        SpawnOne(kind, places[i].0, places[i].1);
        ghost var b := Body(kind, INIT_ENERGY, places[i].0, places[i].1, 0, 0, true, false);
        assert Placed(kind, places[..i + 1]) == Placed(kind, places[..i]) + [b];
        GainedOneMore(n0, n, grid.Counts(), Placed(kind, places[..i]), b);
      }
      assert places[..|places|] == places;
    }

    // The part of the configuration that follows once both programs are compiled.  The creatures are
    // replaced, but the counters of the grid are not reset: they are a census afterwards exactly if they
    // were all zero before.
    method Config(predators: seq<(int, int)>, prey: seq<(int, int)>)
      requires grid.Valid()
      requires forall i :: 0 <= i < |predators| ==> grid.Covers(predators[i].0, predators[i].1)
      requires forall i :: 0 <= i < |prey| ==> grid.Covers(prey[i].0, prey[i].1)
      modifies this, grid.cells
      ensures Valid() && validConfiguration && run == old(run) && hits == old(hits) && meals == old(meals)
      ensures Bodies() == Placed(Predator, predators) + Placed(Prey, prey)
      ensures Counted() <==> forall c | c in old(grid.Counts()) :: old(grid.Counts())[c] == 0
      ensures grid.Kills() == old(grid.Kills()) && forall c <- creatures :: fresh(c)
    {
      hide Grid.Counts, Grid.Kills, Gained, IsCensus, Placed, Valid, Bodies, Distinct;
      ghost var n0 := grid.Counts();
      creatures := [];
      NobodyIsValid();
      Spawn(Predator, predators);
      ghost var n1 := grid.Counts();
      Spawn(Prey, prey);
      validConfiguration := true;
      assert [] + Placed(Predator, predators) == Placed(Predator, predators);
      GainedTwice(n0, n1, grid.Counts(), Placed(Predator, predators), Placed(Prey, prey));
      GainedIsCensus(n0, grid.Counts(), Bodies());
    }

    lemma NobodyIsValid()
      requires grid.Valid() && creatures == []
      ensures Valid() && Bodies() == []
    {
    }

    ghost method Record(at: (int, int), hit: bool, eaten: bool)
      modifies `hits, `meals
      ensures hits == old(hits) + (if hit then multiset{at} else multiset{})
      ensures meals == old(meals) + (if eaten then multiset{at} else multiset{})
    {
      hits := hits + (if hit then multiset{at} else multiset{});
      meals := meals + (if eaten then multiset{at} else multiset{});
    }

    // The state within a round, with the creatures born so far.
    ghost function WorldWith(newborn: seq<Creature>): World
      requires grid.Valid()
      reads this, creatures, newborn, grid.cells
    {
      World(Bodies(), BodiesOf(newborn), grid.Kills(), hits, meals)
    }

    method ActFor(i: nat, newborn: seq<Creature>, action: Action, roll: int)
      returns (babies: seq<Creature>, ghost o: Outcome)
      requires grid.Valid() && i < |creatures| && Distinct(creatures + newborn)
      requires creatures[i].OnGrid(grid) && !creatures[i].IsDead()
      modifies creatures[i], grid.cells
      ensures var b := old(Bodies()[i]);
              o == TurnAmong(b, action, roll, old(grid.Kills())[(b.x, b.y)] > 0, old(grid.Counts()),
                             grid.xsize, grid.ysize)
      ensures Bodies() == old(Bodies())[i := o.body] && BodiesOf(newborn) == old(BodiesOf(newborn))
      ensures BodiesOf(babies) == Litter(o) && Distinct(creatures + (newborn + babies)) && AreNew(babies)
      ensures TurnCounted(old(grid.Counts()), grid.Counts(), old(Bodies()[i]), o)
      ensures TurnKills(old(grid.Kills()), grid.Kills(), o)
    {
      hide Grid.Counts, Grid.Kills, TurnCounted, TurnAmong, Litter, TurnKills;
      ghost var b, bs := creatures[i].View(), Bodies();
      OthersDiffer(creatures, newborn, i);
      o := TurnAmong(b, action, roll, grid.Kills()[(b.x, b.y)] > 0, grid.Counts(), grid.xsize, grid.ysize);
      babies := creatures[i].Act(action, roll, grid);
      assert Bodies() == bs[i := o.body];
      DistinctGrows(creatures, newborn, babies);
    }

    // One creature's turn within a round, after which `newborn + babies` are the newborn creatures.
    method TakeTurn(i: nat, newborn: seq<Creature>, action: Action, roll: int) returns (babies: seq<Creature>)
      requires grid.Valid() && i < |creatures| && Distinct(creatures + newborn) && IsAlive(Bodies()[i])
      requires IsWorld(WorldWith(newborn), grid.xsize, grid.ysize)
      requires IsCensus(grid.Counts(), Bodies() + BodiesOf(newborn))
      modifies `hits, `meals, creatures[i], grid.cells
      ensures AreNew(babies) && Distinct(creatures + (newborn + babies))
      ensures WorldWith(newborn + babies)
              == NaiveStep(old(WorldWith(newborn)), i, action, roll, grid.xsize, grid.ysize)
      ensures IsCensus(grid.Counts(), Bodies() + BodiesOf(newborn + babies))
    {
      hide *;
      ghost var n0, w := grid.Counts(), WorldWith(newborn);
      WorldParts(newborn);
      CensusIsScan(n0, w.bodies + w.newborn, grid.xsize, grid.ysize);
      BodyInGrid(w, i, grid.xsize, grid.ysize);
      BodyIsOnGrid(i);
      NaiveOutcomeIs(w, i, n0, action, roll, grid.xsize, grid.ysize);
      ghost var o;
      babies, o := ActFor(i, newborn, action, roll);
      Record((o.body.x, o.body.y), o.hit, o.eaten);
      BodiesAppend(newborn, babies);
      WorldParts(newborn + babies);
      NaiveStepIs(w, i, action, roll, grid.xsize, grid.ysize);
      AfterIs(w, WorldWith(newborn + babies), i, o);
      TurnKeepsCensus(n0, grid.Counts(), w.bodies, w.newborn, i, o);
    }

    lemma WorldParts(newborn: seq<Creature>)
      requires grid.Valid()
      ensures var w := WorldWith(newborn);
        && w.bodies == Bodies() && w.newborn == BodiesOf(newborn) && w.kills == grid.Kills()
        && w.hits == hits && w.meals == meals && |w.bodies| == |creatures|
    {
    }

    lemma BodyIsOnGrid(i: nat)
      requires i < |creatures| && InGrid(Bodies()[i], grid.xsize, grid.ysize) && IsAlive(Bodies()[i])
      ensures creatures[i].OnGrid(grid) && !creatures[i].IsDead()
    {
    }

    lemma BodiesAppend(cs: seq<Creature>, ds: seq<Creature>)
      ensures BodiesOf(cs + ds) == BodiesOf(cs) + BodiesOf(ds)
    {
    }

    lemma DistinctGrows(cs: seq<Creature>, newborn: seq<Creature>, babies: seq<Creature>)
      requires Distinct(cs + newborn) && Distinct(babies)
      requires forall i, j :: 0 <= i < |babies| && 0 <= j < |cs + newborn| ==> babies[i] != (cs + newborn)[j]
      ensures Distinct(cs + (newborn + babies))
    {
      assert cs + (newborn + babies) == (cs + newborn) + babies;
    }

    lemma OthersDiffer(cs: seq<Creature>, newborn: seq<Creature>, i: nat)
      requires Distinct(cs + newborn) && i < |cs|
      ensures forall j :: 0 <= j < |cs| && j != i ==> cs[j] != cs[i]
      ensures forall j :: 0 <= j < |newborn| ==> newborn[j] != cs[i]
    {
      var all := cs + newborn;
      assert forall j :: 0 <= j < |cs| ==> cs[j] == all[j];
      assert forall j :: 0 <= j < |newborn| ==> newborn[j] == all[|cs| + j];
    }

    // Gives every creature its turn and returns those that were born meanwhile.
    method TakeTurns(decide: nat -> (Action, int)) returns (newborn: seq<Creature>)
      requires Valid() && Counted()
      modifies `hits, `meals, creatures, grid.cells
      ensures IsWorld(old(AsWorld()), grid.xsize, grid.ysize)
      ensures grid.Valid() && Distinct(creatures + newborn) && forall c <- newborn :: fresh(c)
      ensures WorldWith(newborn) == NaiveTurns(old(AsWorld()), |creatures|, decide, grid.xsize, grid.ysize)
      ensures IsCensus(grid.Counts(), Bodies() + BodiesOf(newborn))
    {
      hide Grid.Counts, Grid.Kills, IsCensus, NaiveStep, NaiveTurns, IsWorld, Distinct, Grid.Valid, AllAlive;
      hide Valid, Counted, Bodies, BodiesOf, WorldWith, AsWorld, IsAlive;
      WorldOfValid();
      ghost var w := AsWorld();
      NobodyBorn();
      NoTurn(w, decide, grid.xsize, grid.ysize);
      newborn := [];
      for i := 0 to |creatures|
        invariant grid.Valid() && Distinct(creatures + newborn) && |w.bodies| == |creatures|
        invariant forall c <- newborn :: fresh(c)
        invariant WorldWith(newborn) == NaiveTurns(w, i, decide, grid.xsize, grid.ysize)
        invariant IsCensus(grid.Counts(), Bodies() + BodiesOf(newborn))
      {
        BodyBeforeTurn(w, i, decide, grid.xsize, grid.ysize);
        OneMoreTurn(w, i, decide, grid.xsize, grid.ysize);
        WorldParts(newborn);
        var (action, roll) := decide(i);
        var babies := TakeTurn(i, newborn, action, roll);
        newborn := newborn + babies;
      }
    }

    lemma NobodyBorn()
      requires Valid() && Counted()
      ensures Distinct(creatures + []) && WorldWith([]) == AsWorld() && AsWorld().newborn == []
      ensures AsWorld().bodies == Bodies() && IsCensus(grid.Counts(), Bodies() + BodiesOf([]))
    {
      hide Grid.Counts, Grid.Kills, IsCensus;
      assert Bodies() + [] == Bodies() && creatures + [] == creatures;
    }

    // One round.  The counters stay a census, and the round is exactly the one of the simulation that
    // has no counters and scans all creatures instead.
    method Iteration(decide: nat -> (Action, int)) returns (ran: bool)
      requires Valid() && Counted()
      modifies `creatures, `hits, `meals, creatures, grid.cells
      ensures Valid() && Counted() && ran == run
      ensures IsWorld(old(AsWorld()), grid.xsize, grid.ysize)
      ensures AsWorld() == if ran then NaiveRound(old(AsWorld()), decide, grid.xsize, grid.ysize) else old(AsWorld())
      ensures forall c <- creatures :: c in old(creatures) || fresh(c)
    {
      if run {
        PlayRound(decide);
      } else {
        WorldOfValid();
      }
      return run;
    }

    method PlayRound(decide: nat -> (Action, int))
      requires Valid() && Counted()
      modifies `creatures, `hits, `meals, creatures, grid.cells
      ensures Valid() && Counted()
      ensures IsWorld(old(AsWorld()), grid.xsize, grid.ysize)
      ensures AsWorld() == NaiveRound(old(AsWorld()), decide, grid.xsize, grid.ysize)
      ensures forall c <- creatures :: c in old(creatures) || fresh(c)
    {
      hide *;
      WorldOfValid();
      ghost var w := AsWorld();
      AsWorldParts();
      var newborn := TakeTurns(decide);
      WorldParts(newborn);
      NaiveRoundFacts(w, decide, grid.xsize, grid.ysize);
      EndRound(newborn);
      AsWorldParts();
    }

    lemma AsWorldParts()
      requires grid.Valid()
      ensures AsWorld() == World(Bodies(), [], grid.Kills(), hits, meals) && |Bodies()| == |creatures|
    {
    }

    // Drops the dead creatures and appends the newborn ones.
    method EndRound(newborn: seq<Creature>)
      requires grid.Valid() && Distinct(creatures + newborn)
      requires forall b <- Survivors(Bodies()) + BodiesOf(newborn) :: IsAlive(b) && InGrid(b, grid.xsize, grid.ysize)
      requires IsCensus(grid.Counts(), Bodies() + BodiesOf(newborn))
      modifies `creatures
      ensures Valid() && Counted()
      ensures Bodies() == Survivors(old(Bodies())) + old(BodiesOf(newborn))
      ensures forall c <- creatures :: c in old(creatures) || c in newborn
    {
      hide IsCensus, Census.Survivors, Distinct, Grid.Counts, Grid.Kills, Grid.Valid, Tally;
      ghost var bs := Bodies();
      OthersDistinct(creatures, newborn);
      var kept := Retain(creatures);
      creatures := kept + newborn;
      BodiesAppend(kept, newborn);
      RoundKeepsCensus(grid.Counts(), bs, BodiesOf(newborn));
      assert Bodies() == Survivors(bs) + BodiesOf(newborn);
      DistinctJoin(kept, newborn);
      AliveOnGrid(creatures);
    }

    lemma DistinctJoin(kept: seq<Creature>, newborn: seq<Creature>)
      requires Distinct(kept) && Distinct(newborn)
      requires forall c <- kept :: c !in newborn
      ensures Distinct(kept + newborn)
    {
      forall i, j | 0 <= i < j < |kept + newborn| ensures (kept + newborn)[i] != (kept + newborn)[j] {
        if i < |kept| <= j {
          assert kept[i] in kept && newborn[j - |kept|] in newborn;
        }
      }
    }

    lemma OthersDistinct(cs: seq<Creature>, newborn: seq<Creature>)
      requires Distinct(cs + newborn)
      ensures Distinct(cs) && Distinct(newborn)
      ensures forall i, j :: 0 <= i < |cs| && 0 <= j < |newborn| ==> cs[i] != newborn[j]
    {
      var all := cs + newborn;
      assert forall j :: 0 <= j < |cs| ==> cs[j] == all[j];
      assert forall j :: 0 <= j < |newborn| ==> newborn[j] == all[|cs| + j];
    }

    lemma AliveOnGrid(cs: seq<Creature>)
      requires forall b <- BodiesOf(cs) :: IsAlive(b) && InGrid(b, grid.xsize, grid.ysize)
      ensures forall c <- cs :: c.OnGrid(grid) && !c.IsDead()
    {
      forall c <- cs ensures c.OnGrid(grid) && !c.IsDead() {
        var k :| 0 <= k < |cs| && cs[k] == c;
        assert BodiesOf(cs)[k] in BodiesOf(cs);
      }
    }

    lemma WorldOfValid()
      requires Valid()
      ensures grid.Valid() && IsWorld(AsWorld(), grid.xsize, grid.ysize) && AllAlive(Bodies())
      ensures |Bodies()| == |creatures|
    {
      hide Grid.Counts, IsCensus;
      forall k | 0 <= k < |creatures| ensures IsAlive(Bodies()[k]) && InGrid(Bodies()[k], grid.xsize, grid.ysize) {
        assert creatures[k] in creatures;
      }
    }

    // The number check of the C ancestor: the counters for visible and resting creatures of all cells
    // add up to the length of the list.
    lemma PopulationMatches()
      requires Valid() && Counted()
      ensures grid.Population(grid.xsize) == |creatures|
    {
      hide IsCensus, Grid.Counts;
      WorldOfValid();
      var bs := Bodies();
      assert forall b <- bs :: b in bs + [];
      grid.PopulationIsTally(bs, grid.xsize);
      GridTallyIsPopulation(bs, grid.xsize, grid.ysize);
    }

    // The other checks of the C ancestor, on the counters of every cell.
    lemma SanityChecks()
      requires Valid() && Counted() && KillsBalance(AsWorld())
      ensures forall x, y :: grid.Covers(x, y) ==> grid.At(x, y).Sane()
    {
      hide Tally, IsCensus;
      CensusIsSane(grid.Counts(), Bodies(), grid.xsize, grid.ysize);
      forall x, y | grid.Covers(x, y) ensures grid.At(x, y).Sane()
      {
        grid.Look(x, y, Prey, Active);
        grid.Look(x, y, Prey, Breeding);
        grid.Look(x, y, Prey, Resting);
        grid.Look(x, y, Predator, Active);
        grid.Look(x, y, Predator, Breeding);
        grid.Look(x, y, Predator, Resting);
        assert (x, y) in AsWorld().kills;
      }
    }

    // The escape check of the C ancestor, on the counters, is the bound on kills.
    lemma EscapeCheck()
      requires Valid() && Counted()
      ensures Bounded(AsWorld()) <==>
        forall x, y :: grid.Covers(x, y) ==> grid.At(x, y).preyKill <= grid.At(x, y).preyNum
    {
      hide Tally;
      assert Bodies() + [] == Bodies();
      forall x, y | grid.Covers(x, y)
        ensures AsWorld().kills[(x, y)] == grid.At(x, y).preyKill
        ensures VisiblePrey(AsWorld(), (x, y)) == grid.At(x, y).preyNum
      {
        grid.Look(x, y, Prey, Active);
      }
      if forall x, y :: grid.Covers(x, y) ==> grid.At(x, y).preyKill <= grid.At(x, y).preyNum {
        forall p | p in AsWorld().kills ensures AsWorld().kills[p] <= VisiblePrey(AsWorld(), p) {
          assert grid.Covers(p.0, p.1) && p == (p.0, p.1);
        }
      }
    }
  }

  // Any run from one configuration of a new simulation.
  method Simulate(xsize: nat, ysize: nat, predators: seq<(int, int)>, prey: seq<(int, int)>,
                  rounds: nat, decide: nat -> nat -> (Action, int)) returns (s: Simulation)
    requires forall i :: 0 <= i < |predators| ==> 0 <= predators[i].0 < xsize && 0 <= predators[i].1 < ysize
    requires forall i :: 0 <= i < |prey| ==> 0 <= prey[i].0 < xsize && 0 <= prey[i].1 < ysize
    ensures s.Valid() && s.Counted() && KillsBalance(s.AsWorld())
    ensures IsWorld(FirstWorld(predators, prey, xsize, ysize), xsize, ysize)
    ensures s.AsWorld() == NaiveRounds(FirstWorld(predators, prey, xsize, ysize), rounds, decide, xsize, ysize)
    ensures FairRounds(FirstWorld(predators, prey, xsize, ysize), rounds, decide, xsize, ysize) ==> Bounded(s.AsWorld())
  {
    hide Grid.Counts, Grid.Kills, IsCensus, NaiveRound, KillsBalance, IsWorld, Placed, FirstWorld, Bounded, FairRounds;
    hide Simulation.Counted, Simulation.Bodies, Grid.Valid;
    s := Start(xsize, ysize, predators, prey);
    ghost var w := FirstWorld(predators, prey, xsize, ysize);
    s.WorldOfValid();
    for n := 0 to rounds
      invariant fresh(s) && fresh(s.grid.cells)
      invariant forall i :: 0 <= i < |s.creatures| ==> fresh(s.creatures[i])
      invariant s.run && s.grid.xsize == xsize && s.grid.ysize == ysize
      invariant s.Valid() && s.Counted()
      invariant s.AsWorld() == NaiveRounds(w, n, decide, xsize, ysize)
    {
      var ran := s.Iteration(decide(n));
      assert forall i :: 0 <= i < |s.creatures| ==> s.creatures[i] in s.creatures;
    }
    RoundsKeepBalance(w, rounds, decide, xsize, ysize);
    RunsKeepBound(predators, prey, rounds, decide, xsize, ysize);
  }

  method Start(xsize: nat, ysize: nat, predators: seq<(int, int)>, prey: seq<(int, int)>) returns (s: Simulation)
    requires forall i :: 0 <= i < |predators| ==> 0 <= predators[i].0 < xsize && 0 <= predators[i].1 < ysize
    requires forall i :: 0 <= i < |prey| ==> 0 <= prey[i].0 < xsize && 0 <= prey[i].1 < ysize
    ensures fresh(s) && fresh(s.grid.cells) && forall i :: 0 <= i < |s.creatures| ==> fresh(s.creatures[i])
    ensures s.run && s.grid.xsize == xsize && s.grid.ysize == ysize
    ensures s.Valid() && s.Counted() && KillsBalance(s.AsWorld())
    ensures s.AsWorld() == FirstWorld(predators, prey, xsize, ysize)
  {
    hide Grid.Counts, Grid.Kills, IsCensus, Placed, Simulation.Valid;
    s := new Simulation(xsize, ysize);
    s.Config(predators, prey);
    assert forall i :: 0 <= i < |s.creatures| ==> s.creatures[i] in s.creatures;
    s.SetRun(true);
  }

  // Configuring a second time leaves the counters a census if and only if nobody had been placed the
  // first time.
  method ConfigureTwice(xsize: nat, ysize: nat, predators: seq<(int, int)>, prey: seq<(int, int)>,
                        predatorsAgain: seq<(int, int)>, preyAgain: seq<(int, int)>)
    returns (s: Simulation)
    requires forall i :: 0 <= i < |predators| ==> 0 <= predators[i].0 < xsize && 0 <= predators[i].1 < ysize
    requires forall i :: 0 <= i < |prey| ==> 0 <= prey[i].0 < xsize && 0 <= prey[i].1 < ysize
    requires forall i :: 0 <= i < |predatorsAgain| ==>
      0 <= predatorsAgain[i].0 < xsize && 0 <= predatorsAgain[i].1 < ysize
    requires forall i :: 0 <= i < |preyAgain| ==> 0 <= preyAgain[i].0 < xsize && 0 <= preyAgain[i].1 < ysize
    ensures s.Valid() && s.Bodies() == Placed(Predator, predatorsAgain) + Placed(Prey, preyAgain)
    ensures s.Counted() <==> predators == [] && prey == []
  {
    hide Grid.Counts, Grid.Kills, IsCensus, Simulation.Valid, Simulation.Bodies;
    s := new Simulation(xsize, ysize);
    s.Config(predators, prey);
    ghost var n, bs := s.grid.Counts(), s.Bodies();
    CensusIsZero(n, bs, xsize, ysize);
    s.Config(predatorsAgain, preyAgain);
  }
}
