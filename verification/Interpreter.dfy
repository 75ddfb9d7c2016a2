/**
  Executing sim^2 programs, and when that is safe.

  A variable that has no value yet makes the source panic (`unwrap` on a missing map entry).  The
  random numbers are an arbitrary sequence `rng`, consumed from position `pos` on.
 */
module Interpreter {
  import opened Results
  import opened SimProgram

  datatype Stats = Stats(energy: int, dailyRest: int)

  type Vars = map<string, int>
  type Draw = d: int | 0 <= d < 1000
  type Draws = nat -> Draw

  // A value and the position of the next random number, or `None` for a panic.
  type Evaluated = Option<(int, nat)>

  datatype Outcome = Panicked | Done(action: Action, vars: Vars, pos: nat)

  // ------------------------------------------------------------------ expressions

  function EvalIdentifier(id: Identifier, cs: Stats, vars: Vars, rng: Draws, pos: nat): Evaluated {
    match id
    case Special(Energy) => Some((cs.energy, pos))
    case Special(DailyRest) => Some((cs.dailyRest, pos))
    case Special(Rand) => Some((rng(pos), pos + 1))
    case Variable(key) => if key in vars then Some((vars[key], pos)) else None
    case Constant(v) => Some((v, pos))
  }

  function EvalPair(a: Identifier, b: Identifier, f: (int, int) -> int,
                    cs: Stats, vars: Vars, rng: Draws, pos: nat): Evaluated {
    match EvalIdentifier(a, cs, vars, rng, pos)
    case None => None
    case Some((x, pos1)) =>
      match EvalIdentifier(b, cs, vars, rng, pos1)
      case None => None
      case Some((y, pos2)) => Some((f(x, y), pos2))
  }

  function Apply(op: ArithmeticOp, x: int, y: int): int {
    match op
    case AddOp => x + y
    case SubOp => x - y
  }

  // Truth is 1 and falsehood 0.
  function Compare(op: ConditionOp, x: int, y: int): int {
    var holds := match op case LtOp => x < y case GtOp => x > y case EqOp => x == y;
    if holds then 1 else 0
  }

  function EvalCondition(c: Condition, cs: Stats, vars: Vars, rng: Draws, pos: nat): Evaluated {
    EvalPair(c.a, c.b, (x, y) => Compare(c.op, x, y), cs, vars, rng, pos)
  }

  function EvalExpression(e: Expression, cs: Stats, vars: Vars, rng: Draws, pos: nat): Evaluated {
    match e
    case IdentifierExpr(id) => EvalIdentifier(id, cs, vars, rng, pos)
    case ConditionExpr(c) => EvalCondition(c, cs, vars, rng, pos)
    case ArithmeticExpr(a) => EvalPair(a.a, a.b, (x, y) => Apply(a.op, x, y), cs, vars, rng, pos)
  }

  // ------------------------------------------------------------------ statements

  function Execute(s: Statement, cs: Stats, vars: Vars, rng: Draws, pos: nat): Outcome
    decreases s, 1
  {
    match s
    case Act(a) => Done(a, vars, pos)
    case Assign(key, e) => (
      match EvalExpression(e, cs, vars, rng, pos)
      case None => Panicked
      case Some((v, pos1)) => Done(Nothing, vars[key := v], pos1))
    case IfThen(c, t, e) => (
      match EvalCondition(c, cs, vars, rng, pos)
      case None => Panicked
      case Some((v, pos1)) =>
        if v == 1 then Execute(t, cs, vars, rng, pos1)
        else match e
          case None => Done(Nothing, vars, pos1)
          case Some(s1) => Execute(s1, cs, vars, rng, pos1))
    case Block(ss) => ExecuteAll(ss, Nothing, cs, vars, rng, pos)
  }

  // The result of a block is the action of its last statement.
  function ExecuteAll(ss: seq<Statement>, last: Action, cs: Stats, vars: Vars, rng: Draws, pos: nat): Outcome
    decreases ss, 0
  {
    if ss == [] then Done(last, vars, pos)
    else match Execute(ss[0], cs, vars, rng, pos)
      case Panicked => Panicked
      case Done(a, vars1, pos1) => ExecuteAll(ss[1..], a, cs, vars1, rng, pos1)
  }

  // ------------------------------------------------------------------ what execution computes

  // What an identifier stands for, and how many random numbers it takes to know.
  lemma IdentifierStandsFor(id: Identifier, cs: Stats, vars: Vars, rng: Draws, pos: nat)
    ensures EvalIdentifier(Special(Energy), cs, vars, rng, pos) == Some((cs.energy, pos))
    ensures EvalIdentifier(Special(DailyRest), cs, vars, rng, pos) == Some((cs.dailyRest, pos))
    ensures EvalIdentifier(Special(Rand), cs, vars, rng, pos) == Some((rng(pos), pos + 1))
    ensures forall v :: EvalIdentifier(Constant(v), cs, vars, rng, pos) == Some((v, pos))
    ensures forall key :: EvalIdentifier(Variable(key), cs, vars, rng, pos)
                       == if key in vars then Some((vars[key], pos)) else None
    ensures id.Variable? && id.key !in vars <==> EvalIdentifier(id, cs, vars, rng, pos) == None
  {
  }

  // `x = id` gives x what the identifier stands for.
  lemma AssigningIdentifier(key: string, id: Identifier, cs: Stats, vars: Vars, rng: Draws, pos: nat)
    ensures var r := EvalIdentifier(id, cs, vars, rng, pos);
      Execute(Assign(key, IdentifierExpr(id)), cs, vars, rng, pos)
      == if r == None then Panicked else Done(Nothing, vars[key := r.value.0], r.value.1)
  {
  }

  // The two operands, the left one first.
  ghost predicate Operands(a: Identifier, b: Identifier, cs: Stats, vars: Vars, rng: Draws, pos: nat,
                           x: int, y: int, pos': nat)
  {
    exists mid: nat :: EvalIdentifier(a, cs, vars, rng, pos) == Some((x, mid))
                    && EvalIdentifier(b, cs, vars, rng, mid) == Some((y, pos'))
  }

  // `add a b` and `sub a b` leave the sum and the difference of what a and b stand for, and a
  // condition leaves 1 if it holds and else 0.
  lemma AssigningOperation(key: string, a: Identifier, b: Identifier, cs: Stats, vars: Vars, rng: Draws, pos: nat,
                           x: int, y: int, pos': nat)
    requires Operands(a, b, cs, vars, rng, pos, x, y, pos')
    ensures Execute(Assign(key, ArithmeticExpr(Arithmetic(a, b, AddOp))), cs, vars, rng, pos)
         == Done(Nothing, vars[key := x + y], pos')
    ensures Execute(Assign(key, ArithmeticExpr(Arithmetic(a, b, SubOp))), cs, vars, rng, pos)
         == Done(Nothing, vars[key := x - y], pos')
    ensures Execute(Assign(key, ConditionExpr(Condition(a, b, LtOp))), cs, vars, rng, pos)
         == Done(Nothing, vars[key := if x < y then 1 else 0], pos')
    ensures Execute(Assign(key, ConditionExpr(Condition(a, b, GtOp))), cs, vars, rng, pos)
         == Done(Nothing, vars[key := if x > y then 1 else 0], pos')
    ensures Execute(Assign(key, ConditionExpr(Condition(a, b, EqOp))), cs, vars, rng, pos)
         == Done(Nothing, vars[key := if x == y then 1 else 0], pos')
  {
  }

  // An `if` ends as its then part exactly when the two numbers compare as the sign says, and else
  // as its else part, or with nothing done.
  lemma Branching(a: Identifier, b: Identifier, t: Statement, e: Option<Statement>,
                  cs: Stats, vars: Vars, rng: Draws, pos: nat, x: int, y: int, pos': nat)
    requires Operands(a, b, cs, vars, rng, pos, x, y, pos')
    ensures var otherwise := if e.Some? then Execute(e.value, cs, vars, rng, pos') else Done(Nothing, vars, pos');
      && Execute(IfThen(Condition(a, b, LtOp), t, e), cs, vars, rng, pos)
         == (if x < y then Execute(t, cs, vars, rng, pos') else otherwise)
      && Execute(IfThen(Condition(a, b, GtOp), t, e), cs, vars, rng, pos)
         == (if x > y then Execute(t, cs, vars, rng, pos') else otherwise)
      && Execute(IfThen(Condition(a, b, EqOp), t, e), cs, vars, rng, pos)
         == (if x == y then Execute(t, cs, vars, rng, pos') else otherwise)
  {
    hide EvalIdentifier;
    ConditionHolds(Condition(a, b, LtOp), cs, vars, rng, pos, x, y, pos');
    ConditionHolds(Condition(a, b, GtOp), cs, vars, rng, pos, x, y, pos');
    ConditionHolds(Condition(a, b, EqOp), cs, vars, rng, pos, x, y, pos');
  }

  lemma ConditionHolds(c: Condition, cs: Stats, vars: Vars, rng: Draws, pos: nat, x: int, y: int, pos': nat)
    requires Operands(c.a, c.b, cs, vars, rng, pos, x, y, pos')
    ensures var holds := (c.op == LtOp && x < y) || (c.op == GtOp && x > y) || (c.op == EqOp && x == y);
            EvalCondition(c, cs, vars, rng, pos) == Some((if holds then 1 else 0, pos'))
  {
    hide EvalIdentifier;
  }

  // A block ends as its last statement does, run in the state that those before it leave.
  lemma BlockEndsAsLast(ss: seq<Statement>, s: Statement, cs: Stats, vars: Vars, rng: Draws, pos: nat)
    ensures Execute(Block([]), cs, vars, rng, pos) == Done(Nothing, vars, pos)
    ensures var before := Execute(Block(ss), cs, vars, rng, pos);
      Execute(Block(ss + [s]), cs, vars, rng, pos)
      == if before == Panicked then Panicked else Execute(s, cs, before.vars, rng, before.pos)
  {
    AllButLast(ss, s, Nothing, cs, vars, rng, pos);
  }

  lemma {:induction false} AllButLast(ss: seq<Statement>, s: Statement, last: Action,
                                      cs: Stats, vars: Vars, rng: Draws, pos: nat)
    ensures var before := ExecuteAll(ss, last, cs, vars, rng, pos);
      ExecuteAll(ss + [s], last, cs, vars, rng, pos)
      == if before == Panicked then Panicked else Execute(s, cs, before.vars, rng, before.pos)
    decreases |ss|
  {
    hide Execute;
    if ss == [] {
      assert ss + [s] == [s] && [s][1..] == [];
      LastAlone(s, last, cs, vars, rng, pos);
    } else {
      assert (ss + [s])[0] == ss[0] && (ss + [s])[1..] == ss[1..] + [s];
      var first := Execute(ss[0], cs, vars, rng, pos);
      if first.Done? {
        AllButLast(ss[1..], s, first.action, cs, first.vars, rng, first.pos);
      }
    }
  }

  lemma LastAlone(s: Statement, last: Action, cs: Stats, vars: Vars, rng: Draws, pos: nat)
    ensures ExecuteAll([s], last, cs, vars, rng, pos) == Execute(s, cs, vars, rng, pos)
  {
  }

  lemma VariableOperands(a: string, b: string, cs: Stats, vars: Vars, rng: Draws, pos: nat)
    requires a in vars && b in vars
    ensures Operands(Variable(a), Variable(b), cs, vars, rng, pos, vars[a], vars[b], pos)
  {
    assert EvalIdentifier(Variable(a), cs, vars, rng, pos) == Some((vars[a], pos));
    assert EvalIdentifier(Variable(b), cs, vars, rng, pos) == Some((vars[b], pos));
  }

  // Subtracting what was added gives back the first number, whatever the two variables hold.
  lemma SubUndoesAdd(x: string, y: string, z: string, cs: Stats, vars: Vars, rng: Draws, pos: nat)
    requires x in vars && y in vars && y != z
    ensures var add := Assign(z, ArithmeticExpr(Arithmetic(Variable(x), Variable(y), AddOp)));
      var sub := Assign(z, ArithmeticExpr(Arithmetic(Variable(z), Variable(y), SubOp)));
      Execute(Block([add] + [sub]), cs, vars, rng, pos) == Done(Nothing, vars[z := vars[x]], pos)
  {
    hide Execute;
    var add := Assign(z, ArithmeticExpr(Arithmetic(Variable(x), Variable(y), AddOp)));
    var sub := Assign(z, ArithmeticExpr(Arithmetic(Variable(z), Variable(y), SubOp)));
    var sum := vars[z := vars[x] + vars[y]];
    BlockEndsAsLast([add], sub, cs, vars, rng, pos);
    BlockEndsAsLast([], add, cs, vars, rng, pos);
    assert [] + [add] == [add];
    VariableOperands(x, y, cs, vars, rng, pos);
    AssigningOperation(z, Variable(x), Variable(y), cs, vars, rng, pos, vars[x], vars[y], pos);
    VariableOperands(z, y, cs, sum, rng, pos);
    AssigningOperation(z, Variable(z), Variable(y), cs, sum, rng, pos, vars[x] + vars[y], vars[y], pos);
    assert sum[z := vars[x]] == vars[z := vars[x]];
  }

  // The interpreter of the source: one map of variables, changed in place.
  class Machine {
    var vars: Vars
    var pos: nat
    const rng: Draws

    // Every execution of a program starts from an empty map.
    constructor (rng: Draws)
      ensures vars == map[] && pos == 0 && this.rng == rng
    {
      this.vars := map[];
      this.pos := 0;
      this.rng := rng;
    }

    // Returns `None` where the source panics.
    method Run(s: Statement, cs: Stats) returns (r: Option<Action>)
      modifies this
      ensures match Execute(s, cs, old(vars), rng, old(pos)) {
        case Panicked => r == None
        case Done(a, vars', pos') => r == Some(a) && vars == vars' && pos == pos'
      }
      decreases s
    {
      match s {
        case Act(a) =>
          return Some(a);
        case Assign(key, e) =>
          var value := EvalExpression(e, cs, vars, rng, pos);
          if value == None {
            return None;
          }
          vars := vars[key := value.value.0];
          pos := value.value.1;
          return Some(Nothing);
        case IfThen(c, t, e) =>
          var value := EvalCondition(c, cs, vars, rng, pos);
          if value == None {
            return None;
          }
          pos := value.value.1;
          if value.value.0 == 1 {
            r := Run(t, cs);
          } else if e.Some? {
            r := Run(e.value, cs);
          } else {
            return Some(Nothing);
          }
        case Block(ss) =>
          var action := Nothing;
          var i := 0;
          ghost var rest := ss;
          while i < |ss|
            invariant 0 <= i <= |ss| && rest == ss[i..]
            invariant Execute(s, cs, old(vars), rng, old(pos)) == ExecuteAll(rest, action, cs, vars, rng, pos)
          {
            var step := Run(ss[i], cs);
            if step == None {
              return None;
            }
            action := step.value;
            rest := rest[1..];
            i := i + 1;
          }
          return Some(action);
      }
    }
  }

  // ------------------------------------------------------------------ definite assignment

  function IdentifierReads(id: Identifier): set<string> {
    if id.Variable? then {id.key} else {}
  }

  function Reads(e: Expression): set<string> {
    match e
    case IdentifierExpr(id) => IdentifierReads(id)
    case ConditionExpr(c) => IdentifierReads(c.a) + IdentifierReads(c.b)
    case ArithmeticExpr(a) => IdentifierReads(a.a) + IdentifierReads(a.b)
  }

  // The variables that every path through `s` assigns.
  function Assigns(s: Statement): set<string>
    decreases s, 1
  {
    match s
    case Act(_) => {}
    case Assign(key, _) => {key}
    case IfThen(_, t, e) => if e.None? then {} else Assigns(t) * Assigns(e.value)
    case Block(ss) => AssignsAll(ss)
  }

  function AssignsAll(ss: seq<Statement>): set<string>
    decreases ss, 0
  {
    if ss == [] then {} else Assigns(ss[0]) + AssignsAll(ss[1..])
  }

  // The variables that must have a value before `s`: those some path reads before it assigns them.
  function Needs(s: Statement): set<string>
    decreases s, 1
  {
    match s
    case Act(_) => {}
    case Assign(_, e) => Reads(e)
    case IfThen(c, t, e) =>
      Reads(ConditionExpr(c)) + Needs(t) + if e.None? then {} else Needs(e.value)
    case Block(ss) => NeedsAll(ss)
  }

  function NeedsAll(ss: seq<Statement>): set<string>
    decreases ss, 0
  {
    if ss == [] then {} else Needs(ss[0]) + (NeedsAll(ss[1..]) - Assigns(ss[0]))
  }

  // Some path through `s`, either branch of every `if` being possible, starts with the variables `d`
  // assigned and ends with `out` assigned, or (`None`) reads a variable without a value.
  ghost predicate Path(s: Statement, d: set<string>, out: Option<set<string>>)
    decreases s, 1
  {
    match s
    case Act(_) => out == Some(d)
    case Assign(key, e) => out == if Reads(e) <= d then Some(d + {key}) else None
    case IfThen(c, t, e) =>
      if !(Reads(ConditionExpr(c)) <= d) then out == None
      else Path(t, d, out) || if e.None? then out == Some(d) else Path(e.value, d, out)
    case Block(ss) => PathAll(ss, d, out)
  }

  ghost predicate PathAll(ss: seq<Statement>, d: set<string>, out: Option<set<string>>)
    decreases ss, 0
  {
    if ss == [] then out == Some(d)
    else exists mid :: Path(ss[0], d, mid) && if mid.None? then out == None else PathAll(ss[1..], mid.value, out)
  }

  function Abstract(o: Outcome): Option<set<string>> {
    match o
    case Panicked => None
    case Done(_, vars, _) => Some(vars.Keys)
  }

  lemma EvaluationReads(e: Expression, cs: Stats, vars: Vars, rng: Draws, pos: nat)
    ensures EvalExpression(e, cs, vars, rng, pos) == None <==> !(Reads(e) <= vars.Keys)
  {
  }

  // Every execution follows one of the paths.
  lemma {:induction false} ExecutionFollowsPath(s: Statement, cs: Stats, vars: Vars, rng: Draws, pos: nat)
    ensures Path(s, vars.Keys, Abstract(Execute(s, cs, vars, rng, pos)))
    decreases s, 1
  {
    match s {
      case Act(_) =>
      case Assign(key, e) =>
        EvaluationReads(e, cs, vars, rng, pos);
        var value := EvalExpression(e, cs, vars, rng, pos);
        assert value.Some? ==> vars[key := value.value.0].Keys == vars.Keys + {key};
      case IfThen(c, t, e) =>
        EvaluationReads(ConditionExpr(c), cs, vars, rng, pos);
        var value := EvalCondition(c, cs, vars, rng, pos);
        if value.Some? {
          ExecutionFollowsPath(t, cs, vars, rng, value.value.1);
          if e.Some? {
            ExecutionFollowsPath(e.value, cs, vars, rng, value.value.1);
          }
        }
      case Block(ss) =>
        ExecutionsFollowPath(ss, Nothing, cs, vars, rng, pos);
    }
  }

  lemma {:induction false} ExecutionsFollowPath(ss: seq<Statement>, last: Action, cs: Stats, vars: Vars, rng: Draws,
                                                pos: nat)
    ensures PathAll(ss, vars.Keys, Abstract(ExecuteAll(ss, last, cs, vars, rng, pos)))
    decreases ss, 0
  {
    if ss != [] {
      ExecutionFollowsPath(ss[0], cs, vars, rng, pos);
      var first := Execute(ss[0], cs, vars, rng, pos);
      assert Path(ss[0], vars.Keys, Abstract(first));
      if first.Done? {
        ExecutionsFollowPath(ss[1..], first.action, cs, first.vars, rng, first.pos);
      }
    }
  }

  // If all that `s` needs is assigned, no path fails and every path assigns at least `Assigns(s)`.
  lemma {:induction false} NeedsSuffice(s: Statement, d: set<string>, out: Option<set<string>>)
    requires Needs(s) <= d && Path(s, d, out)
    ensures out.Some? && d + Assigns(s) <= out.value
    decreases s, 1
  {
    match s {
      case Act(_) =>
      case Assign(_, _) =>
      case IfThen(c, t, e) =>
        if Path(t, d, out) {
          NeedsSuffice(t, d, out);
        } else if e.Some? {
          NeedsSuffice(e.value, d, out);
        }
      case Block(ss) =>
        NeedsAllSuffice(ss, d, out);
    }
  }

  lemma {:induction false} NeedsAllSuffice(ss: seq<Statement>, d: set<string>, out: Option<set<string>>)
    requires NeedsAll(ss) <= d && PathAll(ss, d, out)
    ensures out.Some? && d + AssignsAll(ss) <= out.value
    decreases ss, 0
  {
    if ss != [] {
      var mid :| Path(ss[0], d, mid) && if mid.None? then out == None else PathAll(ss[1..], mid.value, out);
      NeedsSuffice(ss[0], d, mid);
      NeedsAllSuffice(ss[1..], mid.value, out);
    }
  }

  // A variable that `s` does not surely assign stays without a value on some path, unless one fails.
  lemma {:induction false} SkippingPath(s: Statement, d: set<string>, x: string) returns (out: Option<set<string>>)
    requires x !in Assigns(s) && x !in d
    ensures Path(s, d, out) && (out.Some? ==> x !in out.value)
    decreases s, 1
  {
    match s {
      case Act(_) => out := Some(d);
      case Assign(key, e) => out := if Reads(e) <= d then Some(d + {key}) else None;
      case IfThen(c, t, e) =>
        if !(Reads(ConditionExpr(c)) <= d) {
          out := None;
        } else if e.None? {
          out := Some(d);
        } else if x !in Assigns(t) {
          out := SkippingPath(t, d, x);
        } else {
          out := SkippingPath(e.value, d, x);
        }
      case Block(ss) =>
        out := SkippingPaths(ss, d, x);
    }
  }

  lemma {:induction false} SkippingPaths(ss: seq<Statement>, d: set<string>, x: string)
    returns (out: Option<set<string>>)
    requires x !in AssignsAll(ss) && x !in d
    ensures PathAll(ss, d, out) && (out.Some? ==> x !in out.value)
    decreases ss, 0
  {
    if ss == [] {
      out := Some(d);
    } else {
      var mid := SkippingPath(ss[0], d, x);
      out := None;
      if mid.Some? {
        out := SkippingPaths(ss[1..], mid.value, x);
      }
      assert Path(ss[0], d, mid);
    }
  }

  // A needed variable without a value makes some path fail.
  lemma {:induction false} FailingPath(s: Statement, d: set<string>, x: string)
    requires x in Needs(s) && x !in d
    ensures Path(s, d, None)
    decreases s, 1
  {
    match s {
      case Act(_) =>
      case Assign(_, _) =>
      case IfThen(c, t, e) =>
        if x in Needs(t) {
          FailingPath(t, d, x);
        } else if e.Some? && x in Needs(e.value) {
          FailingPath(e.value, d, x);
        }
      case Block(ss) =>
        FailingPaths(ss, d, x);
    }
  }

  lemma {:induction false} FailingPaths(ss: seq<Statement>, d: set<string>, x: string)
    requires x in NeedsAll(ss) && x !in d
    ensures PathAll(ss, d, None)
    decreases ss, 0
  {
    if x in Needs(ss[0]) {
      FailingPath(ss[0], d, x);
      assert Path(ss[0], d, None);
    } else {
      var mid := SkippingPath(ss[0], d, x);
      if mid.Some? {
        FailingPaths(ss[1..], mid.value, x);
      }
      assert Path(ss[0], d, mid);
    }
  }

  // The analysis is exact for paths: nothing is needed beyond `d` if and only if no path fails.
  lemma DefiniteAssignmentIsExact(s: Statement, d: set<string>)
    ensures Needs(s) <= d <==> !Path(s, d, None)
  {
    if Needs(s) <= d && Path(s, d, None) {
      NeedsSuffice(s, d, None);
    }
    if !(Needs(s) <= d) {
      var x :| x in Needs(s) && x !in d;
      FailingPath(s, d, x);
    }
  }

  // A program that needs no variable never panics, whatever the creature's state and the random
  // numbers, and afterwards every variable it surely assigns has a value.
  lemma DefinitelyAssignedProgramsAreSafe(p: Program, cs: Stats, rng: Draws)
    requires Needs(p.statement) == {}
    ensures var r := Execute(p.statement, cs, map[], rng, 0);
            r.Done? && Assigns(p.statement) <= r.vars.Keys
  {
    var r := Execute(p.statement, cs, map[], rng, 0);
    var empty: Vars := map[];
    ExecutionFollowsPath(p.statement, cs, empty, rng, 0);
    NeedsSuffice(p.statement, empty.Keys, Abstract(r));
  }
}
