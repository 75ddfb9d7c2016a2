/**
  The grammar of the sim^2 language, production by production and error by error, told in tokens.
 */
module Grammar {
  import opened Results
  import opened SimProgram
  import opened Compiler
  import Lexer

  const DIRECTION_TOKENS: Tokens :=
    [Lexer.DirN, Lexer.DirNE, Lexer.DirE, Lexer.DirSE, Lexer.DirS, Lexer.DirSW, Lexer.DirW, Lexer.DirNW]

  // ------------------------------------------------------------------ actions

  lemma Directions(ts: Tokens)
    ensures GetStatement([Lexer.Token.Move, Lexer.DirN] + ts) == Success((Act(Move(N)), ts))
    ensures GetStatement([Lexer.Token.Move, Lexer.DirNE] + ts) == Success((Act(Move(NE)), ts))
    ensures GetStatement([Lexer.Token.Move, Lexer.DirE] + ts) == Success((Act(Move(E)), ts))
    ensures GetStatement([Lexer.Token.Move, Lexer.DirSE] + ts) == Success((Act(Move(SE)), ts))
    ensures GetStatement([Lexer.Token.Move, Lexer.DirS] + ts) == Success((Act(Move(S)), ts))
    ensures GetStatement([Lexer.Token.Move, Lexer.DirSW] + ts) == Success((Act(Move(SW)), ts))
    ensures GetStatement([Lexer.Token.Move, Lexer.DirW] + ts) == Success((Act(Move(W)), ts))
    ensures GetStatement([Lexer.Token.Move, Lexer.DirNW] + ts) == Success((Act(Move(NW)), ts))
  {
    hide GetStatement;
    MoveReadsBack(N, ts); MoveReadsBack(NE, ts); MoveReadsBack(E, ts); MoveReadsBack(SE, ts);
    MoveReadsBack(S, ts); MoveReadsBack(SW, ts); MoveReadsBack(W, ts); MoveReadsBack(NW, ts);
  }

  lemma MoveReadsBack(d: Direction, ts: Tokens)
    ensures GetStatement([Lexer.Token.Move, DirectionToken(d)] + ts) == Success((Act(Move(d)), ts))
  {
    hide GetStatement, DirectionToken;
    StatementReadsBack(Act(Move(d)), ts);
  }

  // `hunt` and `breed` take the directions that `move` takes, and `rest` takes a constant.
  lemma Actions(t: Token, d: Direction, n: int, ts: Tokens)
    requires GetStatement([Lexer.Token.Move, t]) == Success((Act(Move(d)), []))
    ensures GetStatement([Lexer.Token.Move, t] + ts) == Success((Act(Move(d)), ts))
    ensures GetStatement([Lexer.Token.Hunt, t] + ts) == Success((Act(Hunt(d)), ts))
    ensures GetStatement([Lexer.Token.Breed, t] + ts) == Success((Act(Breed(d)), ts))
    ensures GetStatement([Lexer.Token.Rest, Lexer.Int(n)] + ts) == Success((Act(Rest(n)), ts))
  {
    hide GetStatement, DirectionToken;
    MoveIs(t, d);
    MoveReadsBack(d, ts);
    HuntReadsBack(d, ts);
    BreedReadsBack(d, ts);
    RestReadsBack(n, ts);
  }

  lemma HuntReadsBack(d: Direction, ts: Tokens)
    ensures GetStatement([Lexer.Token.Hunt, DirectionToken(d)] + ts) == Success((Act(Hunt(d)), ts))
  {
    hide GetStatement, DirectionToken;
    StatementReadsBack(Act(Hunt(d)), ts);
  }

  lemma BreedReadsBack(d: Direction, ts: Tokens)
    ensures GetStatement([Lexer.Token.Breed, DirectionToken(d)] + ts) == Success((Act(Breed(d)), ts))
  {
    hide GetStatement, DirectionToken;
    StatementReadsBack(Act(Breed(d)), ts);
  }

  lemma RestReadsBack(n: int, ts: Tokens)
    ensures GetStatement([Lexer.Token.Rest, Lexer.Int(n)] + ts) == Success((Act(Rest(n)), ts))
  {
    hide GetStatement;
    StatementReadsBack(Act(Rest(n)), ts);
  }

  lemma MoveIs(t: Token, d: Direction)
    requires GetStatement([Lexer.Token.Move, t]) == Success((Act(Move(d)), []))
    ensures t == DirectionToken(d)
  {
    hide GetStatement, DirectionToken;
    ParserInvertsPrinter([Lexer.Token.Move, t], Act(Move(d)), []);
    assert [Lexer.Token.Move, t][1] == (PrintStatement(Act(Move(d))) + [])[1] == DirectionToken(d);
  }

  lemma UnendedActions()
    ensures GetStatement([Lexer.Token.Move]) == Failure(MoveNotFollowedByDirection)
    ensures GetStatement([Lexer.Token.Hunt]) == Failure(HuntNotFollowedByDirection)
    ensures GetStatement([Lexer.Token.Breed]) == Failure(BreedNotFollowedByDirection)
    ensures GetStatement([Lexer.Token.Rest]) == Failure(RestNotFollowedByCount)
  {
  }

  lemma BadActions(t: Token, ts: Tokens)
    ensures t !in DIRECTION_TOKENS ==> GetStatement([Lexer.Token.Move, t] + ts) == Failure(NotADirectionToken)
    ensures t !in DIRECTION_TOKENS ==> GetStatement([Lexer.Token.Hunt, t] + ts) == Failure(NotADirectionToken)
    ensures t !in DIRECTION_TOKENS ==> GetStatement([Lexer.Token.Breed, t] + ts) == Failure(NotADirectionToken)
    ensures !t.Int? ==> GetStatement([Lexer.Token.Rest, t] + ts) == Failure(RestNotFollowedByCount)
  {
    hide MapDirection;
    NotADirection(t);
  }

  lemma NotADirection(t: Token)
    ensures t !in DIRECTION_TOKENS ==> MapDirection(t) == Failure(NotADirectionToken)
  {
    assert DIRECTION_TOKENS[0] == Lexer.DirN && DIRECTION_TOKENS[1] == Lexer.DirNE;
    assert DIRECTION_TOKENS[2] == Lexer.DirE && DIRECTION_TOKENS[3] == Lexer.DirSE;
    assert DIRECTION_TOKENS[4] == Lexer.DirS && DIRECTION_TOKENS[5] == Lexer.DirSW;
    assert DIRECTION_TOKENS[6] == Lexer.DirW && DIRECTION_TOKENS[7] == Lexer.DirNW;
  }

  lemma BadStart(t: Token, ts: Tokens)
    requires !t.Block? && !t.If? && !t.Id? && !t.Move? && !t.Hunt? && !t.Breed? && !t.Rest?
    ensures GetStatement([]) == Failure(ImproperStartOfStatement)
    ensures GetStatement([t] + ts) == Failure(ImproperStartOfStatement)
  {
  }

  // ------------------------------------------------------------------ assignments

  lemma Identifiers(key: string, name: string, n: int, ts: Tokens)
    ensures GetStatement([Lexer.Id(key), Lexer.OneEq, Lexer.Id(name)] + ts)
         == Success((Assign(key, IdentifierExpr(Variable(name))), ts))
    ensures GetStatement([Lexer.Id(key), Lexer.OneEq, Lexer.Int(n)] + ts)
         == Success((Assign(key, IdentifierExpr(Constant(n))), ts))
    ensures GetStatement([Lexer.Id(key), Lexer.OneEq, Lexer.IdRest] + ts)
         == Success((Assign(key, IdentifierExpr(Special(DailyRest))), ts))
    ensures GetStatement([Lexer.Id(key), Lexer.OneEq, Lexer.IdEnergy] + ts)
         == Success((Assign(key, IdentifierExpr(Special(Energy))), ts))
    ensures GetStatement([Lexer.Id(key), Lexer.OneEq, Lexer.Token.Rand] + ts)
         == Success((Assign(key, IdentifierExpr(Special(SpecialIdentifier.Rand))), ts))
  {
    hide GetStatement;
    IdentifierAssigned(key, Variable(name), ts);
    IdentifierAssigned(key, Constant(n), ts);
    IdentifierAssigned(key, Special(DailyRest), ts);
    IdentifierAssigned(key, Special(Energy), ts);
    IdentifierAssigned(key, Special(SpecialIdentifier.Rand), ts);
  }

  lemma IdentifierAssigned(key: string, id: Identifier, ts: Tokens)
    ensures GetStatement([Lexer.Id(key), Lexer.OneEq, PrintIdentifier(id)] + ts)
         == Success((Assign(key, IdentifierExpr(id)), ts))
  {
    hide GetStatement, PrintIdentifier;
    AssignReadsBack(key, IdentifierExpr(id), ts);
    assert [Lexer.Id(key), Lexer.OneEq] + [PrintIdentifier(id)] == [Lexer.Id(key), Lexer.OneEq, PrintIdentifier(id)];
  }

  // The token `t` is what `id` is written as, known from an assignment.
  ghost predicate Stands(t: Token, id: Identifier) {
    GetStatement([Lexer.Id("x"), Lexer.OneEq, t]) == Success((Assign("x", IdentifierExpr(id)), []))
  }

  lemma StandsIs(t: Token, id: Identifier)
    ensures Stands(t, id) <==> t == PrintIdentifier(id)
  {
    var ts, s := [Lexer.Id("x"), Lexer.OneEq, t], Assign("x", IdentifierExpr(id));
    ParserInvertsPrinter(ts, s, []);
    assert (PrintStatement(s) + [])[2] == PrintIdentifier(id);
  }

  lemma Operations(key: string, ta: Token, a: Identifier, tb: Token, b: Identifier, ts: Tokens)
    requires Stands(ta, a) && Stands(tb, b)
    ensures GetStatement([Lexer.Id(key), Lexer.OneEq, Lexer.Add, ta, tb] + ts)
         == Success((Assign(key, ArithmeticExpr(Arithmetic(a, b, AddOp))), ts))
    ensures GetStatement([Lexer.Id(key), Lexer.OneEq, Lexer.Sub, ta, tb] + ts)
         == Success((Assign(key, ArithmeticExpr(Arithmetic(a, b, SubOp))), ts))
    ensures GetStatement([Lexer.Id(key), Lexer.OneEq, Lexer.Lpar, ta, Lexer.Lt, tb, Lexer.Rpar] + ts)
         == Success((Assign(key, ConditionExpr(Condition(a, b, LtOp))), ts))
    ensures GetStatement([Lexer.Id(key), Lexer.OneEq, Lexer.Lpar, ta, Lexer.Gt, tb, Lexer.Rpar] + ts)
         == Success((Assign(key, ConditionExpr(Condition(a, b, GtOp))), ts))
    ensures GetStatement([Lexer.Id(key), Lexer.OneEq, Lexer.Lpar, ta, Lexer.TwoEq, tb, Lexer.Rpar] + ts)
         == Success((Assign(key, ConditionExpr(Condition(a, b, EqOp))), ts))
  {
    StandsIs(ta, a);
    StandsIs(tb, b);
    hide GetStatement, PrintIdentifier, Stands;
    AssignReadsBack(key, ArithmeticExpr(Arithmetic(a, b, AddOp)), ts);
    AssignReadsBack(key, ArithmeticExpr(Arithmetic(a, b, SubOp)), ts);
    AssignReadsBack(key, ConditionExpr(Condition(a, b, LtOp)), ts);
    AssignReadsBack(key, ConditionExpr(Condition(a, b, GtOp)), ts);
    AssignReadsBack(key, ConditionExpr(Condition(a, b, EqOp)), ts);
    assert [Lexer.Id(key), Lexer.OneEq] + [Lexer.Add, ta, tb] == [Lexer.Id(key), Lexer.OneEq, Lexer.Add, ta, tb];
    assert [Lexer.Id(key), Lexer.OneEq] + [Lexer.Sub, ta, tb] == [Lexer.Id(key), Lexer.OneEq, Lexer.Sub, ta, tb];
    forall op: Token ensures [Lexer.Id(key), Lexer.OneEq] + [Lexer.Lpar, ta, op, tb, Lexer.Rpar]
      == [Lexer.Id(key), Lexer.OneEq, Lexer.Lpar, ta, op, tb, Lexer.Rpar] {
    }
  }

  // What no identifier is written as.
  predicate NoIdentifier(t: Token) {
    !t.Id? && !t.Int? && t !in {Lexer.IdRest, Lexer.IdEnergy, Lexer.Token.Rand}
  }

  lemma BadAssignments(key: string, t: Token, ts: Tokens)
    ensures GetStatement([Lexer.Id(key)]) == Failure(InvalidAssignStatement)
    ensures t != Lexer.OneEq ==> GetStatement([Lexer.Id(key), t] + ts) == Failure(InvalidAssignStatement)
    ensures GetStatement([Lexer.Id(key), Lexer.OneEq]) == Failure(NoExpressionFound)
    ensures NoIdentifier(t) && t !in {Lexer.Lpar, Lexer.Add, Lexer.Sub} ==>
      GetStatement([Lexer.Id(key), Lexer.OneEq, t] + ts) == Failure(InvalidIdentifier)
  {
    hide GetStatement, GetExpression;
    NoAssignment(key, t, ts);
    BadExpressions(t, ts);
    AssignFails(key, [], NoExpressionFound);
    assert [Lexer.Id(key), Lexer.OneEq] + [] == [Lexer.Id(key), Lexer.OneEq];
    if NoIdentifier(t) && t !in {Lexer.Lpar, Lexer.Add, Lexer.Sub} {
      AssignFails(key, [t] + ts, InvalidIdentifier);
      assert [Lexer.Id(key), Lexer.OneEq] + ([t] + ts) == [Lexer.Id(key), Lexer.OneEq, t] + ts;
    }
  }

  lemma NoAssignment(key: string, t: Token, ts: Tokens)
    ensures GetStatement([Lexer.Id(key)]) == Failure(InvalidAssignStatement)
    ensures t != Lexer.OneEq ==> GetStatement([Lexer.Id(key), t] + ts) == Failure(InvalidAssignStatement)
  {
    hide GetExpression;
  }

  lemma BadExpressions(t: Token, ts: Tokens)
    ensures GetExpression([]) == Failure(NoExpressionFound)
    ensures NoIdentifier(t) && t !in {Lexer.Lpar, Lexer.Add, Lexer.Sub} ==>
      GetExpression([t] + ts) == Failure(InvalidIdentifier)
  {
    hide GetCondition, GetArithmetic;
  }

  lemma AssignFails(key: string, ts: Tokens, e: CompilerError)
    requires GetExpression(ts) == Failure(e)
    ensures GetStatement([Lexer.Id(key), Lexer.OneEq] + ts) == Failure(e)
  {
    hide GetExpression;
    var us := [Lexer.Id(key), Lexer.OneEq] + ts;
    assert us[1..][1..] == ts;
  }

  lemma BadOperations(key: string, k: Token, ta: Token, a: Identifier, t: Token, ts: Tokens)
    requires k in {Lexer.Add, Lexer.Sub} && Stands(ta, a) && NoIdentifier(t)
    ensures GetStatement([Lexer.Id(key), Lexer.OneEq, k]) == Failure(InvalidIdentifier)
    ensures GetStatement([Lexer.Id(key), Lexer.OneEq, k, t] + ts) == Failure(InvalidIdentifier)
    ensures GetStatement([Lexer.Id(key), Lexer.OneEq, k, ta]) == Failure(InvalidIdentifier)
    ensures GetStatement([Lexer.Id(key), Lexer.OneEq, k, ta, t] + ts) == Failure(InvalidIdentifier)
  {
    StandsIs(ta, a);
    hide Stands, GetStatement, GetExpression;
    BadOperands(k, a, t, ts);
    AssignFails(key, [k], InvalidIdentifier);
    AssignFails(key, [k, t] + ts, InvalidIdentifier);
    AssignFails(key, [k, ta], InvalidIdentifier);
    AssignFails(key, [k, ta, t] + ts, InvalidIdentifier);
    var front := [Lexer.Id(key), Lexer.OneEq];
    assert front + [k] == [Lexer.Id(key), Lexer.OneEq, k];
    assert front + ([k, t] + ts) == [Lexer.Id(key), Lexer.OneEq, k, t] + ts;
    assert front + [k, ta] == [Lexer.Id(key), Lexer.OneEq, k, ta];
    assert front + ([k, ta, t] + ts) == [Lexer.Id(key), Lexer.OneEq, k, ta, t] + ts;
  }

  lemma BadOperands(k: Token, a: Identifier, t: Token, ts: Tokens)
    requires k in {Lexer.Add, Lexer.Sub} && NoIdentifier(t)
    ensures GetExpression([k]) == Failure(InvalidIdentifier)
    ensures GetExpression([k, t] + ts) == Failure(InvalidIdentifier)
    ensures GetExpression([k, PrintIdentifier(a)]) == Failure(InvalidIdentifier)
    ensures GetExpression([k, PrintIdentifier(a), t] + ts) == Failure(InvalidIdentifier)
  {
    hide PrintIdentifier;
    IdentifierReadsBack(a, []);
    IdentifierReadsBack(a, [t] + ts);
    assert [k, PrintIdentifier(a)][1..] == [PrintIdentifier(a)] + [];
    assert ([k, PrintIdentifier(a), t] + ts)[1..] == [PrintIdentifier(a)] + ([t] + ts);
  }

  // ------------------------------------------------------------------ conditions

  // The three signs of comparison.
  predicate Compares(t: Token, op: ConditionOp) {
    (t == Lexer.Lt && op == LtOp) || (t == Lexer.Gt && op == GtOp) || (t == Lexer.TwoEq && op == EqOp)
  }

  lemma BadConditions(ta: Token, a: Identifier, k: Token, op: ConditionOp, tb: Token, b: Identifier,
                      t: Token, ts: Tokens)
    requires Stands(ta, a) && Compares(k, op) && Stands(tb, b)
    ensures GetCondition([]) == Failure(ConditionMissingLPar)
    ensures t != Lexer.Lpar ==> GetCondition([t] + ts) == Failure(ConditionMissingLPar)
    ensures GetCondition([Lexer.Lpar]) == Failure(InvalidIdentifier)
    ensures NoIdentifier(t) ==> GetCondition([Lexer.Lpar, t] + ts) == Failure(InvalidIdentifier)
    ensures GetCondition([Lexer.Lpar, ta]) == Failure(ConditionMissingOperator)
    ensures t !in {Lexer.Lt, Lexer.Gt, Lexer.TwoEq} ==>
      GetCondition([Lexer.Lpar, ta, t] + ts) == Failure(NoConditionOperator)
    ensures GetCondition([Lexer.Lpar, ta, k]) == Failure(InvalidIdentifier)
    ensures NoIdentifier(t) ==> GetCondition([Lexer.Lpar, ta, k, t] + ts) == Failure(InvalidIdentifier)
    ensures GetCondition([Lexer.Lpar, ta, k, tb]) == Failure(ConditionMissingRPar)
    ensures t != Lexer.Rpar ==> GetCondition([Lexer.Lpar, ta, k, tb, t] + ts) == Failure(ConditionMissingRPar)
  {
    StandsIs(ta, a);
    StandsIs(tb, b);
    hide Stands, PrintIdentifier, GetCondition;
    BadFirstOperand(t, ts);
    BadComparison(a, t, ts);
    BadSecondOperand(a, k, op, t, ts);
    BadClose(a, k, op, b, t, ts);
  }

  lemma BadFirstOperand(t: Token, ts: Tokens)
    ensures GetCondition([]) == Failure(ConditionMissingLPar)
    ensures t != Lexer.Lpar ==> GetCondition([t] + ts) == Failure(ConditionMissingLPar)
    ensures GetCondition([Lexer.Lpar]) == Failure(InvalidIdentifier)
    ensures NoIdentifier(t) ==> GetCondition([Lexer.Lpar, t] + ts) == Failure(InvalidIdentifier)
  {
  }

  // A condition up to its first operand.
  lemma AfterFirst(a: Identifier, us: Tokens)
    ensures var ts := [Lexer.Lpar, PrintIdentifier(a)] + us;
      ts[1..] == [PrintIdentifier(a)] + us && GetIdentifier(ts[1..]) == Success((a, us))
  {
    hide PrintIdentifier, GetIdentifier;
    IdentifierReadsBack(a, us);
    assert ([Lexer.Lpar, PrintIdentifier(a)] + us)[1..] == [PrintIdentifier(a)] + us;
  }

  lemma BadComparison(a: Identifier, t: Token, ts: Tokens)
    ensures GetCondition([Lexer.Lpar, PrintIdentifier(a)]) == Failure(ConditionMissingOperator)
    ensures t !in {Lexer.Lt, Lexer.Gt, Lexer.TwoEq} ==>
      GetCondition([Lexer.Lpar, PrintIdentifier(a), t] + ts) == Failure(NoConditionOperator)
  {
    hide PrintIdentifier, GetIdentifier;
    AfterFirst(a, []);
    AfterFirst(a, [t] + ts);
    assert [Lexer.Lpar, PrintIdentifier(a)] + [] == [Lexer.Lpar, PrintIdentifier(a)];
    assert [Lexer.Lpar, PrintIdentifier(a)] + ([t] + ts) == [Lexer.Lpar, PrintIdentifier(a), t] + ts;
  }

  lemma NoOperand(t: Token, ts: Tokens)
    ensures GetIdentifier([]) == Failure(InvalidIdentifier)
    ensures NoIdentifier(t) ==> GetIdentifier([t] + ts) == Failure(InvalidIdentifier)
  {
  }

  lemma BadSecondOperand(a: Identifier, k: Token, op: ConditionOp, t: Token, ts: Tokens)
    requires Compares(k, op)
    ensures GetCondition([Lexer.Lpar, PrintIdentifier(a), k]) == Failure(InvalidIdentifier)
    ensures NoIdentifier(t) ==> GetCondition([Lexer.Lpar, PrintIdentifier(a), k, t] + ts) == Failure(InvalidIdentifier)
  {
    hide PrintIdentifier, GetIdentifier;
    NoOperand(t, ts);
    AfterFirst(a, [k]);
    AfterFirst(a, [k, t] + ts);
    assert [Lexer.Lpar, PrintIdentifier(a)] + [k] == [Lexer.Lpar, PrintIdentifier(a), k];
    assert [Lexer.Lpar, PrintIdentifier(a)] + ([k, t] + ts) == [Lexer.Lpar, PrintIdentifier(a), k, t] + ts;
    assert [k][1..] == [] && ([k, t] + ts)[1..] == [t] + ts;
  }

  lemma BadClose(a: Identifier, k: Token, op: ConditionOp, b: Identifier, t: Token, ts: Tokens)
    requires Compares(k, op)
    ensures GetCondition([Lexer.Lpar, PrintIdentifier(a), k, PrintIdentifier(b)]) == Failure(ConditionMissingRPar)
    ensures t != Lexer.Rpar ==>
      GetCondition([Lexer.Lpar, PrintIdentifier(a), k, PrintIdentifier(b), t] + ts) == Failure(ConditionMissingRPar)
  {
    hide PrintIdentifier, GetIdentifier;
    var front := [Lexer.Lpar, PrintIdentifier(a)];
    AfterFirst(a, [k, PrintIdentifier(b)]);
    AfterFirst(a, [k, PrintIdentifier(b), t] + ts);
    assert front + [k, PrintIdentifier(b)] == [Lexer.Lpar, PrintIdentifier(a), k, PrintIdentifier(b)];
    assert front + ([k, PrintIdentifier(b), t] + ts) == [Lexer.Lpar, PrintIdentifier(a), k, PrintIdentifier(b), t] + ts;
    IdentifierReadsBack(b, []);
    IdentifierReadsBack(b, [t] + ts);
    assert [k, PrintIdentifier(b)][1..] == [PrintIdentifier(b)] + [];
    assert ([k, PrintIdentifier(b), t] + ts)[1..] == [PrintIdentifier(b)] + ([t] + ts);
  }

  // Where a condition fails, the `if` or the assignment does, with the same error.
  lemma ConditionFails(key: string, ts: Tokens, e: CompilerError)
    requires GetCondition(ts) == Failure(e)
    ensures GetStatement([Lexer.If] + ts) == Failure(e)
    ensures ts != [] && ts[0] == Lexer.Lpar ==> GetStatement([Lexer.Id(key), Lexer.OneEq] + ts) == Failure(e)
  {
    hide GetCondition;
    assert ([Lexer.If] + ts)[1..] == ts;
    if ts != [] && ts[0] == Lexer.Lpar {
      AssignFails(key, ts, e);
    }
  }

  // ------------------------------------------------------------------ `if`, `block` and programs

  // After the condition comes `then`, a statement, and `end` or `else`; after `else` a statement
  // and `end`. Errors come from the first part that has one.
  lemma IfStatements(ta: Token, a: Identifier, k: Token, op: ConditionOp, tb: Token, b: Identifier, us: Tokens)
    requires Stands(ta, a) && Compares(k, op) && Stands(tb, b)
    ensures us == [] || us[0] != Lexer.Then ==>
      GetStatement([Lexer.If, Lexer.Lpar, ta, k, tb, Lexer.Rpar] + us) == Failure(NoThenKeyword)
    ensures us != [] && us[0] == Lexer.Then ==>
      var first := GetStatement(us[1..]);
      GetStatement([Lexer.If, Lexer.Lpar, ta, k, tb, Lexer.Rpar] + us) ==
        if first.Failure? then Failure(first.error)
        else if first.value.1 == [] || first.value.1[0] !in {Lexer.End, Lexer.Else} then Failure(NoElseOrEnd)
        else if first.value.1[0] == Lexer.End then
          Success((IfThen(Condition(a, b, op), first.value.0, None), first.value.1[1..]))
        else
          var otherwise := GetStatement(first.value.1[1..]);
          if otherwise.Failure? then Failure(otherwise.error)
          else if otherwise.value.1 == [] || otherwise.value.1[0] != Lexer.End then Failure(NoEndKeyword)
          else Success((IfThen(Condition(a, b, op), first.value.0, Some(otherwise.value.0)), otherwise.value.1[1..]))
  {
    StandsIs(ta, a);
    StandsIs(tb, b);
    hide Stands, PrintIdentifier, GetCondition;
    ConditionReadsBack(Condition(a, b, op), us);
    var ts := [Lexer.If, Lexer.Lpar, ta, k, tb, Lexer.Rpar] + us;
    assert ts[1..] == PrintCondition(Condition(a, b, op)) + us;
    IfIs(ts);
  }

  lemma IfIs(ts: Tokens)
    requires ts != [] && ts[0] == Lexer.If
    ensures GetStatement(ts) == GetIfThen(ts[1..])
  {
    hide GetIfThen;
  }

  // Between `block` and its `end` there are statements, any number of them.
  lemma Blocks(ts: Tokens)
    ensures GetStatement([Lexer.Token.Block]) == Failure(NoEndBlockFound)
    ensures GetStatement([Lexer.Token.Block, Lexer.End] + ts) == Success((Block([]), ts))
    ensures ts != [] && ts[0] != Lexer.End ==>
      var first := GetStatement(ts);
      GetStatement([Lexer.Token.Block] + ts) ==
        if first.Failure? then Failure(first.error)
        else
          var more := GetStatement([Lexer.Token.Block] + first.value.1);
          if more.Failure? then more
          else Success((Block([first.value.0] + more.value.0.statements), more.value.1))
  {
    BlockIs([]);
    BlockIs([Lexer.End] + ts);
    BlockIs(ts);
    assert [Lexer.Token.Block] + [] == [Lexer.Token.Block];
    assert [Lexer.Token.Block] + ([Lexer.End] + ts) == [Lexer.Token.Block, Lexer.End] + ts;
    if ts != [] && ts[0] != Lexer.End && GetStatement(ts).Success? {
      BlockIs(GetStatement(ts).value.1);
    }
    hide GetStatement;
  }

  lemma BlockIs(ts: Tokens)
    ensures var r := GetStatements(ts);
      GetStatement([Lexer.Token.Block] + ts)
      == if r.Failure? then Failure(r.error) else Success((Block(r.value.0), r.value.1))
  {
    hide GetStatements;
    assert ([Lexer.Token.Block] + ts)[1..] == ts;
  }

  // A program is `sim`, one statement and `end`; what follows is not looked at.
  lemma Programs(tokens: Tokens)
    ensures GetProgramTokens(tokens) ==
      if tokens == [] || tokens[0] != Lexer.Sim then Failure(NoSimKeyword)
      else
        var r := GetStatement(tokens[1..]);
        if r.Failure? then Failure(r.error)
        else if r.value.1 == [] || r.value.1[0] != Lexer.End then Failure(EndOfProgramNotLastToken)
        else Success(Program(r.value.0))
  {
    hide GetStatement;
  }
}
