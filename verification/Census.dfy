/**
  What the counters of the predator-prey grid are supposed to mean: a census of the creatures.

  A `Body` is the state of one creature.  The grid keeps three counters for each kind of creature in
  each cell, and every counter should be the number of live creatures there that are visible, visible
  with energy enough to breed, or invisible.
 */
module Census {
  import opened SimProgram

  const INIT_ENERGY := 100
  const BREED_ENERGY_THRESHOLD := 25

  datatype Kind = Predator | Prey

  datatype Role = Active | Breeding | Resting

  datatype Body = Body(kind: Kind, energy: int, x: int, y: int, awakeDaily: int, countDown: int,
                       visible: bool, resting: bool)

  predicate IsAlive(b: Body) {
    b.energy > 0
  }

  // Whether a creature still on the grid is to be counted under `k` and `r` in the cell (x, y).
  predicate Counted(b: Body, x: int, y: int, k: Kind, r: Role) {
    && b.kind == k && b.x == x && b.y == y
    && match r
       case Active => b.visible
       case Breeding => b.visible && b.energy > BREED_ENERGY_THRESHOLD
       case Resting => !b.visible
  }

  // The share of a creature in a counter while it acts; its death is only noticed afterwards.
  function Share(b: Body, x: int, y: int, k: Kind, r: Role): int {
    if Counted(b, x, y, k, r) then 1 else 0
  }

  function LiveShare(b: Body, x: int, y: int, k: Kind, r: Role): int {
    if IsAlive(b) then Share(b, x, y, k, r) else 0
  }

  function Tally(bs: seq<Body>, x: int, y: int, k: Kind, r: Role): int {
    if bs == [] then 0 else Tally(bs[..|bs| - 1], x, y, k, r) + LiveShare(bs[|bs| - 1], x, y, k, r)
  }

  lemma {:induction false} TallyAppend(front: seq<Body>, bs: seq<Body>, x: int, y: int, k: Kind, r: Role)
    ensures Tally(front + bs, x, y, k, r) == Tally(front, x, y, k, r) + Tally(bs, x, y, k, r)
  {
    if bs == [] {
      assert front + bs == front;
    } else {
      var last := |bs| - 1;
      assert (front + bs)[..|front + bs| - 1] == front + bs[..last];
      TallyAppend(front, bs[..last], x, y, k, r);
    }
  }

  lemma TallyUpdate(bs: seq<Body>, i: nat, b: Body, x: int, y: int, k: Kind, r: Role)
    requires i < |bs|
    ensures Tally(bs[i := b], x, y, k, r) ==
            Tally(bs, x, y, k, r) - LiveShare(bs[i], x, y, k, r) + LiveShare(b, x, y, k, r)
  {
    TallySplit(bs, i, x, y, k, r);
    TallySplit(bs[i := b], i, x, y, k, r);
    assert bs[i := b][..i] == bs[..i] && bs[i := b][i + 1..] == bs[i + 1..];
  }

  lemma TallySplit(bs: seq<Body>, i: nat, x: int, y: int, k: Kind, r: Role)
    requires i < |bs|
    ensures Tally(bs, x, y, k, r) ==
            Tally(bs[..i], x, y, k, r) + LiveShare(bs[i], x, y, k, r) + Tally(bs[i + 1..], x, y, k, r)
  {
    assert bs == bs[..i] + [bs[i]] + bs[i + 1..];
    TallyAppend(bs[..i] + [bs[i]], bs[i + 1..], x, y, k, r);
    TallyAppend(bs[..i], [bs[i]], x, y, k, r);
    TallySingle(bs[i], x, y, k, r);
  }

  lemma TallySingle(b: Body, x: int, y: int, k: Kind, r: Role)
    ensures Tally([b], x, y, k, r) == LiveShare(b, x, y, k, r)
  {
    assert [b][..0] == [];
  }

  function Survivors(bs: seq<Body>): seq<Body> {
    if bs == [] then []
    else Survivors(bs[..|bs| - 1]) + if IsAlive(bs[|bs| - 1]) then [bs[|bs| - 1]] else []
  }

  lemma DeadShare(b: Body, x: int, y: int, k: Kind, r: Role)
    ensures !IsAlive(b) ==> LiveShare(b, x, y, k, r) == 0
  {
  }

  lemma {:induction false} TallySurvivors(bs: seq<Body>, x: int, y: int, k: Kind, r: Role)
    ensures Tally(Survivors(bs), x, y, k, r) == Tally(bs, x, y, k, r)
  {
    hide LiveShare;
    if bs != [] {
      var front, last := bs[..|bs| - 1], bs[|bs| - 1];
      TallySurvivors(front, x, y, k, r);
      TallySingle(last, x, y, k, r);
      assert !IsAlive(last) ==> LiveShare(last, x, y, k, r) == 0 by { DeadShare(last, x, y, k, r); }
      TallyAppend(Survivors(front), if IsAlive(last) then [last] else [], x, y, k, r);
    }
  }

  // A census is never negative, and nobody breeds unseen.
  lemma {:induction false} TallyIsSane(bs: seq<Body>, x: int, y: int, k: Kind)
    ensures 0 <= Tally(bs, x, y, k, Breeding) <= Tally(bs, x, y, k, Active)
    ensures 0 <= Tally(bs, x, y, k, Resting)
  {
    if bs != [] {
      TallyIsSane(bs[..|bs| - 1], x, y, k);
    }
  }

  // ------------------------------------------------------------------ all counters at once

  type Counts = imap<(int, int, Kind, Role), int>
  type Kills = imap<(int, int), int>

  function ShareIn(b: Body, c: (int, int, Kind, Role)): int {
    Share(b, c.0, c.1, c.2, c.3)
  }

  // From `n0` to `n1` the counters have lost the share of `out` and gained that of `now`.
  ghost predicate Recounted(n0: Counts, n1: Counts, out: Body, now: Body) {
    && n1.Keys == n0.Keys
    && forall c | c in n0 :: n1[c] == n0[c] - ShareIn(out, c) + ShareIn(now, c)
  }

  ghost predicate Added(n0: Counts, n1: Counts, b: Body) {
    && n1.Keys == n0.Keys
    && forall c | c in n0 :: n1[c] == n0[c] + ShareIn(b, c)
  }

  ghost predicate Removed(n0: Counts, n1: Counts, b: Body) {
    && n1.Keys == n0.Keys
    && forall c | c in n0 :: n1[c] == n0[c] - ShareIn(b, c)
  }

  lemma Unchanged(n: Counts, b: Body)
    ensures Recounted(n, n, b, b)
  {
  }

  lemma RecountedTwice(n0: Counts, n1: Counts, n2: Counts, a: Body, b: Body, c: Body)
    requires Recounted(n0, n1, a, b) && Recounted(n1, n2, b, c)
    ensures Recounted(n0, n2, a, c)
  {
  }

  lemma RemovedAndAdded(n0: Counts, n1: Counts, n2: Counts, a: Body, b: Body)
    requires Removed(n0, n1, a) && Added(n1, n2, b)
    ensures Recounted(n0, n2, a, b)
  {
  }

  // Only the place, the kind, the visibility and the ability to breed are counted.
  predicate Alike(b: Body, b': Body) {
    && b.kind == b'.kind && b.x == b'.x && b.y == b'.y && b.visible == b'.visible
    && (b.visible ==> (b.energy > BREED_ENERGY_THRESHOLD <==> b'.energy > BREED_ENERGY_THRESHOLD))
  }

  lemma RecountedAlike(n0: Counts, n1: Counts, a: Body, b: Body, a': Body, b': Body)
    requires Recounted(n0, n1, a, b) && Alike(a, a') && Alike(b, b')
    ensures Recounted(n0, n1, a', b')
  {
  }

  lemma OtherKindKept(n0: Counts, n1: Counts, a: Body, b: Body, c: (int, int, Kind, Role))
    requires Recounted(n0, n1, a, b) && a.kind == b.kind != c.2 && c in n1
    ensures n1[c] == n0[c]
  {
  }

  // The kills still to be eaten have changed by `change` in the cell `at` and nowhere else.
  ghost predicate KillsChanged(k0: Kills, k1: Kills, at: (int, int), change: int) {
    && k1.Keys == k0.Keys
    && forall p | p in k0 :: k1[p] == k0[p] + if p == at then change else 0
  }

  // The whole point of the counters.
  ghost predicate IsCensus(n: Counts, bs: seq<Body>) {
    forall c | c in n :: n[c] == Tally(bs, c.0, c.1, c.2, c.3)
  }

  // ------------------------------------------------------------------ the population

  function CellTally(bs: seq<Body>, x: int, y: int): int {
    Tally(bs, x, y, Prey, Active) + Tally(bs, x, y, Predator, Active)
    + Tally(bs, x, y, Prey, Resting) + Tally(bs, x, y, Predator, Resting)
  }

  // The sum over the cells (x, 0), ..., (x, n - 1).
  function ColumnTally(bs: seq<Body>, x: int, n: nat): int {
    if n == 0 then 0 else ColumnTally(bs, x, n - 1) + CellTally(bs, x, n - 1)
  }

  // The sum over the whole grid of m by n cells.
  function GridTally(bs: seq<Body>, m: nat, n: nat): int {
    if m == 0 then 0 else GridTally(bs, m - 1, n) + ColumnTally(bs, m - 1, n)
  }

  predicate InGrid(b: Body, m: nat, n: nat) {
    0 <= b.x < m && 0 <= b.y < n
  }

  lemma {:induction false} ColumnTallyGrows(bs: seq<Body>, b: Body, x: int, n: nat)
    requires IsAlive(b)
    ensures ColumnTally(bs + [b], x, n) == ColumnTally(bs, x, n) + if b.x == x && 0 <= b.y < n then 1 else 0
  {
    if n > 0 {
      ColumnTallyGrows(bs, b, x, n - 1);
      assert (bs + [b])[..|bs|] == bs;
    }
  }

  lemma {:induction false} GridTallyGrows(bs: seq<Body>, b: Body, m: nat, n: nat)
    requires IsAlive(b)
    ensures GridTally(bs + [b], m, n) == GridTally(bs, m, n) + if InGrid(b, m, n) then 1 else 0
  {
    if m > 0 {
      GridTallyGrows(bs, b, m - 1, n);
      ColumnTallyGrows(bs, b, m - 1, n);
    }
  }

  lemma {:induction false} EmptyGridTally(m: nat, n: nat)
    ensures GridTally([], m, n) == 0
  {
    if m > 0 {
      EmptyGridTally(m - 1, n);
      EmptyColumnTally(m - 1, n);
    }
  }

  lemma {:induction false} EmptyColumnTally(x: int, n: nat)
    ensures ColumnTally([], x, n) == 0
  {
    if n > 0 {
      EmptyColumnTally(x, n - 1);
    }
  }

  // Summing the visible and the resting counters over all cells gives the number of creatures.
  lemma {:induction false} GridTallyIsPopulation(bs: seq<Body>, m: nat, n: nat)
    requires forall b <- bs :: IsAlive(b) && InGrid(b, m, n)
    ensures GridTally(bs, m, n) == |bs|
  {
    if bs == [] {
      EmptyGridTally(m, n);
    } else {
      var front, last := bs[..|bs| - 1], bs[|bs| - 1];
      assert bs == front + [last];
      GridTallyIsPopulation(front, m, n);
      GridTallyGrows(front, last, m, n);
    }
  }

  // ------------------------------------------------------------------ moving on the torus

  function StepX(d: Direction): int {
    match d
    case NE | E | SE => 1
    case NW | W | SW => -1
    case N | S => 0
  }

  function StepY(d: Direction): int {
    match d
    case NW | N | NE => -1
    case SW | S | SE => 1
    case E | W => 0
  }

  function Around(a: int, m: nat): int
    requires m > 0
  {
    a % m
  }

  // Where a creature is after one move: the grid wraps around at its borders.
  function Moved(b: Body, d: Direction, m: nat, n: nat): (b': Body)
    requires InGrid(b, m, n)
    ensures InGrid(b', m, n)
  {
    b.(x := Around(b.x + StepX(d), m), y := Around(b.y + StepY(d), n), energy := b.energy - 1)
  }

  function MovedAll(b: Body, ds: seq<Direction>, m: nat, n: nat): Body
    requires InGrid(b, m, n)
    decreases |ds|
  {
    if ds == [] then b else MovedAll(Moved(b, ds[0], m, n), ds[1..], m, n)
  }

  function Displacement(ds: seq<Direction>, step: Direction -> int): int {
    if ds == [] then 0 else step(ds[0]) + Displacement(ds[1..], step)
  }

  lemma {:induction false} Multiple(k: nat, m: nat)
    requires k > 0
    ensures k * m >= m
  {
  }

  lemma Distribute(q: int, q': int, m: int)
    ensures (q - q') * m == q * m - q' * m
  {
  }

  lemma UniqueRemainder(qm: int, q: int, r: int, q': int, r': int, m: nat)
    requires q * m + r == qm == q' * m + r'
    requires 0 <= r < m && 0 <= r' < m
    ensures r == r'
  {
    Distribute(q, q', m);
    Distribute(q', q, m);
    if q > q' {
      Multiple(q - q', m);
    } else if q < q' {
      Multiple(q' - q, m);
    }
  }

  lemma AroundOfSum(a: int, b: int, m: nat)
    requires m > 0
    ensures Around(Around(a, m) + b, m) == Around(a + b, m)
    ensures 0 <= a < m ==> Around(a, m) == a
  {
    var s := a % m + b;
    var q := a / m + s / m;
    assert q * m == a / m * m + s / m * m;
    UniqueRemainder(a + b, q, s % m, (a + b) / m, (a + b) % m, m);
  }

  lemma OneMove(b: Body, d: Direction, m: nat, n: nat)
    requires InGrid(b, m, n)
    ensures var b' := Moved(b, d, m, n);
            && b'.x == Around(b.x + StepX(d), m) && b'.y == Around(b.y + StepY(d), n)
            && b' == b.(x := b'.x, y := b'.y, energy := b.energy - 1)
  {
  }

  // Any sequence of moves ends at the summed displacement, modulo the size of the grid.
  lemma {:induction false} MovesAddUp(b: Body, ds: seq<Direction>, m: nat, n: nat)
    requires InGrid(b, m, n)
    ensures MovedAll(b, ds, m, n) ==
            b.(x := Around(b.x + Displacement(ds, StepX), m),
               y := Around(b.y + Displacement(ds, StepY), n),
               energy := b.energy - |ds|)
    decreases |ds|
  {
    hide Moved, Around;
    if ds == [] {
      AroundOfSum(b.x, 0, m);
      AroundOfSum(b.y, 0, n);
    } else {
      var b1 := Moved(b, ds[0], m, n);
      OneMove(b, ds[0], m, n);
      MovesAddUp(b1, ds[1..], m, n);
      AroundOfSum(b.x + StepX(ds[0]), Displacement(ds[1..], StepX), m);
      AroundOfSum(b.y + StepY(ds[0]), Displacement(ds[1..], StepY), n);
    }
  }

  // ------------------------------------------------------------------ one turn of a creature

  function Rested(b: Body, count: int): Body {
    var cost := if count < 8 then 1 else if count >= 24 then 5 else 0;
    b.(countDown := count, visible := false, awakeDaily := 0, energy := b.energy - cost)
  }

  function Newborn(kind: Kind, x: int, y: int): Body {
    Rested(Body(kind, INIT_ENERGY, x, y, 0, 0, true, false), 6)
  }

  // What became of a creature in its turn.
  datatype Outcome = Outcome(body: Body, eaten: bool, hit: bool, bred: bool)

  function Just(b: Body): Outcome {
    Outcome(b, false, false, false)
  }

  // A predator gets its prey if there is some and its energy beats the roll; prey always grazes.
  function Hunted(b: Body, d: Direction, roll: int, preyThere: bool, m: nat, n: nat): (o: Outcome)
    requires InGrid(b, m, n)
    ensures o.body.x == Moved(b, d, m, n).x && o.body.y == Moved(b, d, m, n).y && o.body.kind == b.kind
    ensures !o.eaten && !o.bred
  {
    var b1 := Moved(b, d, m, n);
    if b.kind == Prey then Just(b1.(energy := b1.energy + 2))
    else if !preyThere then Just(b1)
    else if b1.energy > roll then
      Outcome(b1.(energy := b1.energy + 15, countDown := 3), false, true, false)
    else Just(b1.(energy := b1.energy - 10))
  }

  // Breeding takes two: the creature itself, if it has the energy, and the others of its kind there.
  function Bred(b: Body, d: Direction, others: int, m: nat, n: nat): (o: Outcome)
    requires InGrid(b, m, n)
    ensures o.body.x == Moved(b, d, m, n).x && o.body.y == Moved(b, d, m, n).y && o.body.kind == b.kind
    ensures !o.eaten && !o.hit
  {
    var b1 := Moved(b, d, m, n);
    var breeders := others + if b1.visible && b1.energy > BREED_ENERGY_THRESHOLD then 1 else 0;
    if breeders > 1 then
      Outcome(b1.(energy := b1.energy - 25, countDown := 6, visible := false), false, false, true)
    else Just(b1)
  }

  function Performed(b: Body, action: Action, roll: int, preyThere: bool, others: int, m: nat, n: nat): (o: Outcome)
    requires InGrid(b, m, n)
    ensures InGrid(o.body, m, n) && o.body.kind == b.kind && !o.eaten
  {
    match action
    case Move(d) => Just(Moved(b, d, m, n))
    case Rest(count) => Just(Rested(b, count))
    case Hunt(d) => Hunted(b, d, roll, preyThere, m, n)
    case Breed(d) => Bred(b, d, others, m, n)
    case Nothing => Just(b)
  }

  function Aged(b: Body): Body {
    b.(countDown := if b.countDown > 0 then b.countDown - 1 else b.countDown,
       awakeDaily := if b.resting then b.awakeDaily else b.awakeDaily + 1)
  }

  // The cell that a turn looks at: where the creature stands after the move its action implies.
  function Destination(b: Body, action: Action, m: nat, n: nat): (int, int)
    requires InGrid(b, m, n)
  {
    match action
    case Move(d) => (Moved(b, d, m, n).x, Moved(b, d, m, n).y)
    case Hunt(d) => (Moved(b, d, m, n).x, Moved(b, d, m, n).y)
    case Breed(d) => (Moved(b, d, m, n).x, Moved(b, d, m, n).y)
    case _ => (b.x, b.y)
  }

  // `killHere`: some prey in its cell is to be eaten; `preyThere`: the destination holds visible prey;
  // `others`: so many other creatures of its kind could breed at the destination.
  function Turn(b: Body, action: Action, roll: int, killHere: bool, preyThere: bool, others: int,
                m: nat, n: nat): Outcome
    requires InGrid(b, m, n)
  {
    var b1 := Aged(b);
    if b.kind == Prey && killHere && b.visible then Outcome(b1.(energy := 0), true, false, false)
    else if b1.countDown != 0 then Just(b1)
    else Performed(b1.(visible := true), action, roll, preyThere, others, m, n)
  }

  // ------------------------------------------------------------------ what a turn does to the counters

  function Litter(o: Outcome): seq<Body> {
    var baby := Newborn(o.body.kind, o.body.x, o.body.y);
    if o.bred then [baby, baby] else []
  }

  ghost predicate RecountedWithLitter(n0: Counts, n1: Counts, out: Body, o: Outcome) {
    && n1.Keys == n0.Keys
    && forall c | c in n0 ::
         n1[c] == n0[c] - ShareIn(out, c) + ShareIn(o.body, c)
                  + if o.bred then 2 * ShareIn(Newborn(o.body.kind, o.body.x, o.body.y), c) else 0
  }

  // The same once the dead are off the grid.
  ghost predicate TurnCounted(n0: Counts, n1: Counts, out: Body, o: Outcome) {
    && n1.Keys == n0.Keys
    && forall c | c in n0 ::
         n1[c] == n0[c] - LiveShare(out, c.0, c.1, c.2, c.3) + LiveShare(o.body, c.0, c.1, c.2, c.3)
                  + Tally(Litter(o), c.0, c.1, c.2, c.3)
  }

  ghost predicate TurnKills(k0: Kills, k1: Kills, o: Outcome) {
    KillsChanged(k0, k1, (o.body.x, o.body.y), if o.eaten then -1 else if o.hit then 1 else 0)
  }

  ghost predicate TwinsAdded(n0: Counts, n1: Counts, b: Body) {
    n1.Keys == n0.Keys && forall c | c in n0 :: n1[c] == n0[c] + 2 * ShareIn(b, c)
  }

  lemma TwinsBorn(n0: Counts, n1: Counts, n2: Counts, n3: Counts, n4: Counts, b: Body, newborn: Body)
    requires Added(n0, n1, b) && Added(n1, n2, b) && Recounted(n2, n3, b, newborn) && Recounted(n3, n4, b, newborn)
    ensures TwinsAdded(n0, n4, newborn)
  {
    hide Share;
    forall c | c in n0 ensures n4[c] == n0[c] + 2 * ShareIn(newborn, c) {
      assert n2[c] == n0[c] + 2 * ShareIn(b, c);
    }
  }

  lemma LitterAdded(n0: Counts, n1: Counts, n2: Counts, out: Body, o: Outcome)
    requires o.bred && Recounted(n0, n1, out, o.body) && TwinsAdded(n1, n2, Newborn(o.body.kind, o.body.x, o.body.y))
    ensures RecountedWithLitter(n0, n2, out, o)
  {
    hide Share;
  }

  lemma NoLitter(n0: Counts, n1: Counts, out: Body, o: Outcome)
    requires !o.bred && Recounted(n0, n1, out, o.body)
    ensures RecountedWithLitter(n0, n1, out, o)
  {
  }

  lemma LitterTally(o: Outcome, c: (int, int, Kind, Role))
    ensures Tally(Litter(o), c.0, c.1, c.2, c.3) ==
            if o.bred then 2 * ShareIn(Newborn(o.body.kind, o.body.x, o.body.y), c) else 0
  {
    hide Share;
    var baby := Newborn(o.body.kind, o.body.x, o.body.y);
    if o.bred {
      assert Litter(o) == [baby] + [baby];
      TallyAppend([baby], [baby], c.0, c.1, c.2, c.3);
      TallySingle(baby, c.0, c.1, c.2, c.3);
    }
  }

  lemma TurnIsCounted(n0: Counts, n1: Counts, n2: Counts, out: Body, o: Outcome)
    requires IsAlive(out) && RecountedWithLitter(n0, n1, out, o)
    requires if IsAlive(o.body) then n2 == n1 else Removed(n1, n2, o.body)
    ensures TurnCounted(n0, n2, out, o)
  {
    hide Share, Tally;
    forall c | c in n0 ensures n2[c] ==
      n0[c] - ShareIn(out, c) + LiveShare(o.body, c.0, c.1, c.2, c.3) + Tally(Litter(o), c.0, c.1, c.2, c.3)
    {
      LitterTally(o, c);
    }
  }

  lemma RecountedAgain(n0: Counts, n1: Counts, n2: Counts, a: Body, b: Body, o: Outcome)
    requires Recounted(n0, n1, a, b) && RecountedWithLitter(n1, n2, b, o)
    ensures RecountedWithLitter(n0, n2, a, o)
  {
    hide Share;
    forall c | c in n0 ensures n1[c] == n0[c] - ShareIn(a, c) + ShareIn(b, c) {
    }
  }

  lemma OthersKept(n0: Counts, n1: Counts, a: Body, b: Body, c: (int, int, Kind, Role))
    requires Recounted(n0, n1, a, b) && c in n1
    ensures n1[c] - ShareIn(b, c) == n0[c] - ShareIn(a, c)
  {
  }

  lemma EatenIsCounted(n0: Counts, n1: Counts, b0: Body, b1: Body, b2: Body)
    requires IsAlive(b0) && Alike(b0, b1) && Removed(n0, n1, b1) && !IsAlive(b2)
    ensures TurnCounted(n0, n1, b0, Outcome(b2, true, false, false))
  {
  }

  lemma WaitingIsCounted(n: Counts, b0: Body, b1: Body)
    requires IsAlive(b0) && IsAlive(b1) && Alike(b0, b1)
    ensures TurnCounted(n, n, b0, Just(b1))
  {
  }

  // The number of creatures of this kind, but for `b` itself, that could breed in cell `d`.
  function Others(n: Counts, b: Body, d: (int, int)): int
    requires (d.0, d.1, b.kind, Breeding) in n
  {
    n[(d.0, d.1, b.kind, Breeding)] - ShareIn(b, (d.0, d.1, b.kind, Breeding))
  }

  ghost predicate IsFull(n: Counts, x: nat, y: nat) {
    forall c: (int, int, Kind, Role) :: c in n <==> 0 <= c.0 < x && 0 <= c.1 < y
  }

  // What a creature that is awake does, seen from the counters `n` that it acts on.
  function Deed(b: Body, action: Action, roll: int, n: Counts, x: nat, y: nat): (o: Outcome)
    requires InGrid(b, x, y) && IsFull(n, x, y)
    ensures InGrid(o.body, x, y) && o.body.kind == b.kind && !o.eaten
  {
    var d := Destination(b, action, x, y);
    Performed(b, action, roll, n[(d.0, d.1, Prey, Active)] > 0, Others(n, b, d), x, y)
  }

  // Waking up changes the creature's own share and nothing that its deed depends on.
  lemma WakingKeepsDeed(n0: Counts, n1: Counts, b0: Body, b1: Body, action: Action, roll: int, x: nat, y: nat)
    requires InGrid(b0, x, y) && IsFull(n0, x, y) && IsFull(n1, x, y)
    requires b1 == b0.(visible := true) && Recounted(n0, n1, b0, b1)
    ensures var d := Destination(b0, action, x, y);
            Deed(b1, action, roll, n1, x, y) ==
            Performed(b1, action, roll, n0[(d.0, d.1, Prey, Active)] > 0, Others(n0, b0, d), x, y)
  {
    hide Recounted, Share;
    var d := Destination(b0, action, x, y);
    OthersKept(n0, n1, b0, b1, (d.0, d.1, b0.kind, Breeding));
    if b0.kind == Predator {
      OtherKindKept(n0, n1, b0, b1, (d.0, d.1, Prey, Active));
    }
  }

  // A turn, seen from the counters that the creature acts on.
  function TurnAmong(b: Body, action: Action, roll: int, killHere: bool, n: Counts, x: nat, y: nat): Outcome
    requires InGrid(b, x, y) && IsFull(n, x, y)
  {
    var d := Destination(b, action, x, y);
    Turn(b, action, roll, killHere, n[(d.0, d.1, Prey, Active)] > 0, Others(n, b, d), x, y)
  }

  // An awake creature's deed, with what it sees taken before it woke up.
  function DeedOnWaking(b: Body, action: Action, roll: int, n: Counts, x: nat, y: nat): Outcome
    requires InGrid(b, x, y) && IsFull(n, x, y)
  {
    var d := Destination(b, action, x, y);
    Performed(b.(visible := true), action, roll, n[(d.0, d.1, Prey, Active)] > 0, Others(n, b, d), x, y)
  }

  lemma TurnOfAged(b: Body, action: Action, roll: int, killHere: bool, n: Counts, x: nat, y: nat)
    requires InGrid(b, x, y) && IsFull(n, x, y)
    ensures TurnAmong(b, action, roll, killHere, n, x, y) ==
            if b.kind == Prey && killHere && b.visible then Outcome(Aged(b).(energy := 0), true, false, false)
            else if Aged(b).countDown != 0 then Just(Aged(b))
            else DeedOnWaking(Aged(b), action, roll, n, x, y)
  {
    hide Performed;
  }

  lemma TurnCountedAlike(n0: Counts, n1: Counts, b0: Body, b1: Body, o: Outcome)
    requires TurnCounted(n0, n1, b1, o) && Alike(b0, b1) && (IsAlive(b0) <==> IsAlive(b1))
    ensures TurnCounted(n0, n1, b0, o)
  {
    hide Tally;
  }

  // ------------------------------------------------------------------ the simulation without counters

  // A simulation that has no counters: whenever something has to be known about a cell, all creatures,
  // the newborn ones included, are counted anew.
  // `hits` and `meals` keep a record of the cells where predators struck and where prey was eaten.
  datatype World = World(bodies: seq<Body>, newborn: seq<Body>, kills: Kills,
                         hits: multiset<(int, int)>, meals: multiset<(int, int)>)

  ghost function Scan(bs: seq<Body>, x: nat, y: nat): (n: Counts)
    ensures IsFull(n, x, y) && IsCensus(n, bs)
  {
    imap c: (int, int, Kind, Role) | 0 <= c.0 < x && 0 <= c.1 < y :: Tally(bs, c.0, c.1, c.2, c.3)
  }

  ghost predicate IsWorld(w: World, x: nat, y: nat) {
    && (forall b <- w.bodies + w.newborn :: InGrid(b, x, y))
    && (forall p: (int, int) :: p in w.kills <==> 0 <= p.0 < x && 0 <= p.1 < y)
  }

  ghost function NaiveOutcome(w: World, i: nat, action: Action, roll: int, x: nat, y: nat): Outcome
    requires i < |w.bodies| && IsWorld(w, x, y)
  {
    var b := w.bodies[i];
    assert b in w.bodies + w.newborn;
    TurnAmong(b, action, roll, w.kills[(b.x, b.y)] > 0, Scan(w.bodies + w.newborn, x, y), x, y)
  }

  // What a turn with the outcome `o` makes of the world.
  ghost function After(w: World, i: nat, o: Outcome): World
    requires i < |w.bodies| && (o.body.x, o.body.y) in w.kills
  {
    var at := (o.body.x, o.body.y);
    var change := if o.eaten then -1 else if o.hit then 1 else 0;
    World(w.bodies[i := o.body], w.newborn + Litter(o), w.kills[at := w.kills[at] + change],
          w.hits + (if o.hit then multiset{at} else multiset{}),
          w.meals + (if o.eaten then multiset{at} else multiset{}))
  }

  ghost function NaiveStep(w: World, i: nat, action: Action, roll: int, x: nat, y: nat): (w': World)
    requires i < |w.bodies| && IsWorld(w, x, y)
    ensures IsWorld(w', x, y) && |w'.bodies| == |w.bodies|
  {
    OutcomeInGrid(w, i, action, roll, x, y);
    After(w, i, NaiveOutcome(w, i, action, roll, x, y))
  }

  // In each cell the kills still to be eaten are the hits without the meals, and never less than none.
  ghost predicate KillsBalance(w: World) {
    forall p | p in w.kills :: w.kills[p] >= 0 && w.kills[p] + w.meals[p] == w.hits[p]
  }

  lemma StepKeepsBalance(w: World, i: nat, action: Action, roll: int, x: nat, y: nat)
    requires i < |w.bodies| && IsWorld(w, x, y) && KillsBalance(w)
    ensures KillsBalance(NaiveStep(w, i, action, roll, x, y))
  {
    hide NaiveOutcome;
    var o := NaiveOutcome(w, i, action, roll, x, y);
    assert w.bodies[i] in w.bodies + w.newborn;
    EatenFacts(w, i, action, roll, x, y);
  }

  lemma EatenFacts(w: World, i: nat, action: Action, roll: int, x: nat, y: nat)
    requires i < |w.bodies| && IsWorld(w, x, y)
    ensures var o := NaiveOutcome(w, i, action, roll, x, y);
            o.eaten ==> InGrid(o.body, x, y) && w.kills[(o.body.x, o.body.y)] > 0 && !o.hit
  {
    hide Performed;
    assert w.bodies[i] in w.bodies + w.newborn;
  }

  lemma {:induction false} TurnsKeepBalance(w: World, i: nat, decide: nat -> (Action, int), x: nat, y: nat)
    requires i <= |w.bodies| && IsWorld(w, x, y) && KillsBalance(w)
    ensures KillsBalance(NaiveTurns(w, i, decide, x, y))
  {
    hide NaiveStep, KillsBalance, IsWorld;
    if i > 0 {
      TurnsKeepBalance(w, i - 1, decide, x, y);
      StepKeepsBalance(NaiveTurns(w, i - 1, decide, x, y), i - 1, decide(i - 1).0, decide(i - 1).1, x, y);
    }
  }

  lemma RoundKeepsBalance(w: World, decide: nat -> (Action, int), x: nat, y: nat)
    requires IsWorld(w, x, y) && KillsBalance(w)
    ensures KillsBalance(NaiveRound(w, decide, x, y))
  {
    TurnsKeepBalance(w, |w.bodies|, decide, x, y);
  }

  lemma BodyInGrid(w: World, i: nat, x: nat, y: nat)
    requires i < |w.bodies| && IsWorld(w, x, y)
    ensures InGrid(w.bodies[i], x, y) && (w.bodies[i].x, w.bodies[i].y) in w.kills
  {
    assert w.bodies[i] in w.bodies + w.newborn;
  }

  lemma OutcomeInGrid(w: World, i: nat, action: Action, roll: int, x: nat, y: nat)
    requires i < |w.bodies| && IsWorld(w, x, y)
    ensures InGrid(NaiveOutcome(w, i, action, roll, x, y).body, x, y)
  {
    assert w.bodies[i] in w.bodies + w.newborn;
  }

  // The first `i` creatures have had their turns.
  ghost function NaiveTurns(w: World, i: nat, decide: nat -> (Action, int), x: nat, y: nat): (w': World)
    requires i <= |w.bodies| && IsWorld(w, x, y)
    ensures IsWorld(w', x, y) && |w'.bodies| == |w.bodies|
  {
    if i == 0 then w
    else NaiveStep(NaiveTurns(w, i - 1, decide, x, y), i - 1, decide(i - 1).0, decide(i - 1).1, x, y)
  }

  lemma OneMoreTurn(w: World, i: nat, decide: nat -> (Action, int), x: nat, y: nat)
    requires i < |w.bodies| && IsWorld(w, x, y)
    ensures NaiveTurns(w, i + 1, decide, x, y)
         == NaiveStep(NaiveTurns(w, i, decide, x, y), i, decide(i).0, decide(i).1, x, y)
  {
    hide NaiveStep;
  }

  lemma NoTurn(w: World, decide: nat -> (Action, int), x: nat, y: nat)
    requires IsWorld(w, x, y)
    ensures NaiveTurns(w, 0, decide, x, y) == w
  {
  }

  // One round: every creature has its turn, the dead are dropped, the newborn creatures join.
  ghost function NaiveRound(w: World, decide: nat -> (Action, int), x: nat, y: nat): (w': World)
    requires IsWorld(w, x, y)
    ensures IsWorld(w', x, y)
  {
    var w1 := NaiveTurns(w, |w.bodies|, decide, x, y);
    SurvivorsAreMembers(w1.bodies);
    World(Survivors(w1.bodies) + w1.newborn, [], w1.kills, w1.hits, w1.meals)
  }

  lemma {:induction false} SurvivorsAreMembers(bs: seq<Body>)
    ensures forall b <- Survivors(bs) :: b in bs && IsAlive(b)
  {
    if bs != [] {
      SurvivorsAreMembers(bs[..|bs| - 1]);
    }
  }

  lemma CensusIsScan(n: Counts, bs: seq<Body>, x: nat, y: nat)
    requires IsFull(n, x, y) && IsCensus(n, bs)
    ensures n == Scan(bs, x, y)
  {
  }

  lemma KillsChangedIsUpdate(k0: Kills, k1: Kills, at: (int, int), change: int)
    requires KillsChanged(k0, k1, at, change) && at in k0
    ensures k1 == k0[at := k0[at] + change]
  {
  }

  // If the counters were a census before a turn, they are one after it.
  lemma TurnKeepsCensus(n0: Counts, n1: Counts, bs: seq<Body>, newborn: seq<Body>, i: nat, o: Outcome)
    requires i < |bs| && IsCensus(n0, bs + newborn) && TurnCounted(n0, n1, bs[i], o)
    ensures IsCensus(n1, bs[i := o.body] + (newborn + Litter(o)))
  {
    hide Tally, LiveShare;
    forall c | c in n0
      ensures n1[c] == Tally(bs[i := o.body] + (newborn + Litter(o)), c.0, c.1, c.2, c.3)
    {
      TallyAppend(bs, newborn, c.0, c.1, c.2, c.3);
      TallyUpdate(bs, i, o.body, c.0, c.1, c.2, c.3);
      TallyAppend(newborn, Litter(o), c.0, c.1, c.2, c.3);
      TallyAppend(bs[i := o.body], newborn + Litter(o), c.0, c.1, c.2, c.3);
    }
  }

  // The end of a round: the dead have no share, and the newborn creatures are counted already.
  lemma RoundKeepsCensus(n: Counts, bs: seq<Body>, newborn: seq<Body>)
    requires IsCensus(n, bs + newborn)
    ensures IsCensus(n, Survivors(bs) + newborn)
  {
    hide Tally;
    forall c | c in n ensures n[c] == Tally(Survivors(bs) + newborn, c.0, c.1, c.2, c.3) {
      TallyAppend(bs, newborn, c.0, c.1, c.2, c.3);
      TallyAppend(Survivors(bs), newborn, c.0, c.1, c.2, c.3);
      TallySurvivors(bs, c.0, c.1, c.2, c.3);
    }
  }

  // The sanity checks that the C ancestor of the simulation makes on its counters.
  lemma CensusIsSane(n: Counts, bs: seq<Body>, x: nat, y: nat)
    requires IsFull(n, x, y) && IsCensus(n, bs)
    ensures forall c | c in n :: n[c] >= 0
    ensures forall i, j, k | (i, j, k, Breeding) in n :: n[(i, j, k, Breeding)] <= n[(i, j, k, Active)]
  {
    hide Tally;
    forall c | c in n ensures n[c] >= 0 {
      TallyIsSane(bs, c.0, c.1, c.2);
      match c.3 {
        case Active => assert n[c] == Tally(bs, c.0, c.1, c.2, Active);
        case Breeding => assert n[c] == Tally(bs, c.0, c.1, c.2, Breeding);
        case Resting => assert n[c] == Tally(bs, c.0, c.1, c.2, Resting);
      }
    }
    forall i, j, k | (i, j, k, Breeding) in n ensures n[(i, j, k, Breeding)] <= n[(i, j, k, Active)] {
      TallyIsSane(bs, i, j, k);
    }
  }

  // ------------------------------------------------------------------ placing creatures

  // The counters have gained the census of `bs`.
  ghost predicate Gained(n0: Counts, n1: Counts, bs: seq<Body>) {
    && n1.Keys == n0.Keys
    && forall c | c in n0 :: n1[c] == n0[c] + Tally(bs, c.0, c.1, c.2, c.3)
  }

  lemma GainedOneMore(n0: Counts, n1: Counts, n2: Counts, bs: seq<Body>, b: Body)
    requires Gained(n0, n1, bs) && Added(n1, n2, b) && IsAlive(b)
    ensures Gained(n0, n2, bs + [b])
  {
    hide Tally, Share;
    forall c | c in n0 ensures n2[c] == n0[c] + Tally(bs + [b], c.0, c.1, c.2, c.3) {
      TallyAppend(bs, [b], c.0, c.1, c.2, c.3);
      TallySingle(b, c.0, c.1, c.2, c.3);
    }
  }

  lemma GainedTwice(n0: Counts, n1: Counts, n2: Counts, front: seq<Body>, bs: seq<Body>)
    requires Gained(n0, n1, front) && Gained(n1, n2, bs)
    ensures Gained(n0, n2, front + bs)
  {
    hide Tally;
    forall c | c in n0 ensures n2[c] == n0[c] + Tally(front + bs, c.0, c.1, c.2, c.3) {
      TallyAppend(front, bs, c.0, c.1, c.2, c.3);
    }
  }

  // Counters that have gained the census of all creatures are a census just if they were zero before.
  lemma GainedIsCensus(n0: Counts, n1: Counts, bs: seq<Body>)
    requires Gained(n0, n1, bs)
    ensures IsCensus(n1, bs) <==> forall c | c in n0 :: n0[c] == 0
  {
    hide Tally;
    if IsCensus(n1, bs) {
      forall c | c in n0 ensures n0[c] == 0 {
        assert n1[c] == Tally(bs, c.0, c.1, c.2, c.3);
      }
    }
  }

  // The census of creatures on the grid is zero everywhere only if there are none.
  lemma CensusIsZero(n: Counts, bs: seq<Body>, x: nat, y: nat)
    requires IsFull(n, x, y) && IsCensus(n, bs) && forall b <- bs :: IsAlive(b) && InGrid(b, x, y) && b.visible
    ensures (forall c | c in n :: n[c] == 0) <==> bs == []
  {
    hide Tally;
    if bs == [] {
      forall c | c in n ensures n[c] == 0 {
        NobodyCounts(c);
      }
    } else {
      var b := bs[0];
      assert b in bs && (b.x, b.y, b.kind, Active) in n;
      TallySplit(bs, 0, b.x, b.y, b.kind, Active);
      TallyIsSane(bs[..0], b.x, b.y, b.kind);
      TallyIsSane(bs[1..], b.x, b.y, b.kind);
    }
  }

  lemma NobodyCounts(c: (int, int, Kind, Role))
    ensures Tally([], c.0, c.1, c.2, c.3) == 0
  {
  }

  lemma StepFacts(w: World, i: nat, action: Action, roll: int, x: nat, y: nat)
    requires i < |w.bodies| && IsWorld(w, x, y) && forall b <- w.newborn :: IsAlive(b)
    ensures var w' := NaiveStep(w, i, action, roll, x, y);
            && (forall j :: 0 <= j < |w.bodies| && j != i ==> w'.bodies[j] == w.bodies[j])
            && (forall b <- w'.newborn :: IsAlive(b))
  {
    hide NaiveOutcome;
    var o := NaiveOutcome(w, i, action, roll, x, y);
    assert forall b <- Litter(o) :: IsAlive(b);
  }

  // In a round, those who have not had their turn are as before and the newborn creatures are alive.
  lemma {:induction false} TurnsFacts(w: World, i: nat, decide: nat -> (Action, int), x: nat, y: nat)
    requires i <= |w.bodies| && IsWorld(w, x, y) && w.newborn == []
    ensures var w' := NaiveTurns(w, i, decide, x, y);
            && (forall j :: i <= j < |w.bodies| ==> w'.bodies[j] == w.bodies[j])
            && (forall b <- w'.newborn :: IsAlive(b))
  {
    hide NaiveStep, IsWorld, IsAlive;
    if i > 0 {
      TurnsFacts(w, i - 1, decide, x, y);
      StepFacts(NaiveTurns(w, i - 1, decide, x, y), i - 1, decide(i - 1).0, decide(i - 1).1, x, y);
    }
  }

  ghost predicate AllAlive(bs: seq<Body>) {
    forall i :: 0 <= i < |bs| ==> IsAlive(bs[i])
  }

  lemma BodyBeforeTurn(w: World, i: nat, decide: nat -> (Action, int), x: nat, y: nat)
    requires i < |w.bodies| && IsWorld(w, x, y) && w.newborn == [] && AllAlive(w.bodies)
    ensures IsAlive(NaiveTurns(w, i, decide, x, y).bodies[i])
  {
    TurnsFacts(w, i, decide, x, y);
  }

  lemma NaiveOutcomeIs(w: World, i: nat, n: Counts, action: Action, roll: int, x: nat, y: nat)
    requires i < |w.bodies| && IsWorld(w, x, y) && n == Scan(w.bodies + w.newborn, x, y)
    ensures var b := w.bodies[i];
            && InGrid(b, x, y) && (b.x, b.y) in w.kills && IsFull(n, x, y)
            && NaiveOutcome(w, i, action, roll, x, y) == TurnAmong(b, action, roll, w.kills[(b.x, b.y)] > 0, n, x, y)
  {
    BodyInGrid(w, i, x, y);
  }

  lemma NaiveRoundFacts(w: World, decide: nat -> (Action, int), x: nat, y: nat)
    requires IsWorld(w, x, y) && w.newborn == []
    ensures var w1 := NaiveTurns(w, |w.bodies|, decide, x, y);
            && NaiveRound(w, decide, x, y) == World(Survivors(w1.bodies) + w1.newborn, [], w1.kills, w1.hits, w1.meals)
            && (forall b <- Survivors(w1.bodies) + w1.newborn :: IsAlive(b) && InGrid(b, x, y))
  {
    hide NaiveTurns;
    TurnsFacts(w, |w.bodies|, decide, x, y);
    SurvivorsAreMembers(NaiveTurns(w, |w.bodies|, decide, x, y).bodies);
  }

  lemma AfterIs(w: World, w': World, i: nat, o: Outcome)
    requires i < |w.bodies| && (o.body.x, o.body.y) in w.kills
    requires w'.bodies == w.bodies[i := o.body] && w'.newborn == w.newborn + Litter(o)
    requires TurnKills(w.kills, w'.kills, o)
    requires w'.hits == w.hits + (if o.hit then multiset{(o.body.x, o.body.y)} else multiset{})
    requires w'.meals == w.meals + (if o.eaten then multiset{(o.body.x, o.body.y)} else multiset{})
    ensures w' == After(w, i, o)
  {
    hide Litter;
    KillsChangedIsUpdate(w.kills, w'.kills, (o.body.x, o.body.y), if o.eaten then -1 else if o.hit then 1 else 0);
  }

  lemma NaiveStepIs(w: World, i: nat, action: Action, roll: int, x: nat, y: nat)
    requires i < |w.bodies| && IsWorld(w, x, y)
    ensures var o := NaiveOutcome(w, i, action, roll, x, y);
            (o.body.x, o.body.y) in w.kills && NaiveStep(w, i, action, roll, x, y) == After(w, i, o)
  {
    hide NaiveOutcome, After;
    OutcomeInGrid(w, i, action, roll, x, y);
  }

  ghost function NaiveRounds(w: World, n: nat, decide: nat -> nat -> (Action, int), x: nat, y: nat): (w': World)
    requires IsWorld(w, x, y)
    ensures IsWorld(w', x, y)
  {
    if n == 0 then w else NaiveRound(NaiveRounds(w, n - 1, decide, x, y), decide(n - 1), x, y)
  }

  function Placed(kind: Kind, places: seq<(int, int)>): seq<Body> {
    seq(|places|, i requires 0 <= i < |places| => Body(kind, INIT_ENERGY, places[i].0, places[i].1, 0, 0, true, false))
  }

  ghost function NoKills(x: nat, y: nat): Kills {
    imap p: (int, int) | 0 <= p.0 < x && 0 <= p.1 < y :: 0
  }

  ghost function FirstWorld(predators: seq<(int, int)>, prey: seq<(int, int)>, x: nat, y: nat): World {
    World(Placed(Predator, predators) + Placed(Prey, prey), [], NoKills(x, y), multiset{}, multiset{})
  }

  lemma {:induction false} RoundsKeepBalance(w: World, n: nat, decide: nat -> nat -> (Action, int), x: nat, y: nat)
    requires IsWorld(w, x, y) && KillsBalance(w)
    ensures KillsBalance(NaiveRounds(w, n, decide, x, y))
  {
    hide IsWorld, KillsBalance, NaiveRound;
    if n > 0 {
      RoundsKeepBalance(w, n - 1, decide, x, y);
      RoundKeepsBalance(NaiveRounds(w, n - 1, decide, x, y), decide(n - 1), x, y);
    }
  }
}
