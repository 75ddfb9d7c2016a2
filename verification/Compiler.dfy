/**
  The recursive-descent compiler of the sim^2 language and the grammar it accepts.

  Every `Get...` function consumes tokens from the front and returns what is left.  `PrintStatement`
  writes the concrete syntax, and the lemmas show that parsing and printing undo each other.
 */
module Compiler {
  import opened Results
  import opened SimProgram
  import Lexer

  type Token = Lexer.Token
  type Tokens = seq<Token>

  datatype CompilerError =
    | BreedNotFollowedByDirection
    | ConditionMissingLPar
    | ConditionMissingOperator
    | ConditionMissingRPar
    | EndOfProgramNotLastToken
    | HuntNotFollowedByDirection
    | ImproperStartOfStatement
    | InvalidAssignStatement
    | InvalidIdentifier
    | MoveNotFollowedByDirection
    | NoAddOrSubtract
    | NoConditionOperator
    | NoEndBlockFound
    | NoEndKeyword
    | NoElseOrEnd
    | NoExpressionFound
    | NoThenKeyword
    | NotADirectionToken
    | NoSimKeyword
    | RestNotFollowedByCount

  datatype CompilerOrLexerError = C(compilerError: CompilerError) | L(lexerError: Lexer.LexerError)

  type Parsed<+T> = Result<(T, Tokens), CompilerError>

  // ------------------------------------------------------------------ single tokens

  function MapDirection(t: Token): Result<Direction, CompilerError> {
    match t
    case DirN => Success(N)
    case DirNE => Success(NE)
    case DirE => Success(E)
    case DirSE => Success(SE)
    case DirS => Success(S)
    case DirSW => Success(SW)
    case DirW => Success(W)
    case DirNW => Success(NW)
    case _ => Failure(NotADirectionToken)
  }

  function MapOperator(t: Token): Result<ConditionOp, CompilerError> {
    match t
    case Lt => Success(LtOp)
    case Gt => Success(GtOp)
    case TwoEq => Success(EqOp)
    case _ => Failure(NoConditionOperator)
  }

  function MapArithmeticOperator(t: Token): Result<ArithmeticOp, CompilerError> {
    match t
    case Add => Success(AddOp)
    case Sub => Success(SubOp)
    case _ => Failure(NoAddOrSubtract)
  }

  function HeadToken(tokens: Tokens, error: CompilerError): Parsed<Token> {
    if tokens == [] then Failure(error) else Success((tokens[0], tokens[1..]))
  }

  function ConsumeToken(t: Token, tokens: Tokens, error: CompilerError): Result<Tokens, CompilerError> {
    var (first, rest) :- HeadToken(tokens, error);
    if first != t then Failure(error) else Success(rest)
  }

  // ------------------------------------------------------------------ expressions

  function GetIdentifier(tokens: Tokens): Parsed<Identifier> {
    var (t, rest) :- HeadToken(tokens, InvalidIdentifier);
    match t
    case Id(key) => Success((Variable(key), rest))
    case Int(v) => Success((Constant(v), rest))
    case IdRest => Success((Special(DailyRest), rest))
    case IdEnergy => Success((Special(Energy), rest))
    case Rand => Success((Special(SpecialIdentifier.Rand), rest))
    case _ => Failure(InvalidIdentifier)
  }

  function GetCondition(tokens: Tokens): (r: Parsed<Condition>)
    ensures r.Success? ==> |r.value.1| < |tokens|
  {
    var tokens :- ConsumeToken(Lexer.Lpar, tokens, ConditionMissingLPar);
    var (a, tokens) :- GetIdentifier(tokens);
    var (t, tokens) :- HeadToken(tokens, ConditionMissingOperator);
    var op :- MapOperator(t);
    var (b, tokens) :- GetIdentifier(tokens);
    var tokens :- ConsumeToken(Lexer.Rpar, tokens, ConditionMissingRPar);
    Success((Condition(a, b, op), tokens))
  }

  function GetArithmetic(tokens: Tokens): Parsed<Arithmetic> {
    var (t, tokens) :- HeadToken(tokens, NoAddOrSubtract);
    var op :- MapArithmeticOperator(t);
    var (a, tokens) :- GetIdentifier(tokens);
    var (b, tokens) :- GetIdentifier(tokens);
    Success((Arithmetic(a, b, op), tokens))
  }

  // Looks at the first token without consuming it.
  function GetExpression(tokens: Tokens): (r: Parsed<Expression>)
    ensures r.Success? ==> |r.value.1| < |tokens|
  {
    if tokens == [] then Failure(NoExpressionFound)
    else match tokens[0]
      case Lpar =>
        var (cond, tokens) :- GetCondition(tokens);
        Success((ConditionExpr(cond), tokens))
      case Add | Sub =>
        var (arith, tokens) :- GetArithmetic(tokens);
        Success((ArithmeticExpr(arith), tokens))
      case _ =>
        var (id, tokens) :- GetIdentifier(tokens);
        Success((IdentifierExpr(id), tokens))
  }

  // ------------------------------------------------------------------ statements

  function GetMove(tokens: Tokens): (r: Parsed<Statement>)
    ensures r.Success? ==> |r.value.1| < |tokens|
  {
    var (t, tokens) :- HeadToken(tokens, MoveNotFollowedByDirection);
    var dir :- MapDirection(t);
    Success((Act(Move(dir)), tokens))
  }

  function GetHunt(tokens: Tokens): (r: Parsed<Statement>)
    ensures r.Success? ==> |r.value.1| < |tokens|
  {
    var (t, tokens) :- HeadToken(tokens, HuntNotFollowedByDirection);
    var dir :- MapDirection(t);
    Success((Act(Hunt(dir)), tokens))
  }

  function GetBreed(tokens: Tokens): (r: Parsed<Statement>)
    ensures r.Success? ==> |r.value.1| < |tokens|
  {
    var (t, tokens) :- HeadToken(tokens, BreedNotFollowedByDirection);
    var dir :- MapDirection(t);
    Success((Act(Breed(dir)), tokens))
  }

  function GetRest(tokens: Tokens): (r: Parsed<Statement>)
    ensures r.Success? ==> |r.value.1| < |tokens|
  {
    var (t, tokens) :- HeadToken(tokens, RestNotFollowedByCount);
    if t.Int? then Success((Act(Rest(t.val)), tokens)) else Failure(RestNotFollowedByCount)
  }

  function GetAssign(tokens: Tokens, key: string): (r: Parsed<Statement>)
    ensures r.Success? ==> |r.value.1| < |tokens|
  {
    var tokens :- ConsumeToken(Lexer.OneEq, tokens, InvalidAssignStatement);
    var (expr, tokens) :- GetExpression(tokens);
    Success((Assign(key, expr), tokens))
  }

  function GetIfThen(tokens: Tokens): (r: Parsed<Statement>)
    ensures r.Success? ==> |r.value.1| < |tokens|
    decreases |tokens|, 0
  {
    hide GetCondition;
    var (cond, tokens1) :- GetCondition(tokens);
    var tokens2 :- ConsumeToken(Lexer.Then, tokens1, NoThenKeyword);
    var (thenPart, tokens3) :- GetStatement(tokens2);
    var (elseOrEnd, tokens4) :- HeadToken(tokens3, NoElseOrEnd);
    if elseOrEnd == Lexer.End then Success((IfThen(cond, thenPart, None), tokens4))
    else if elseOrEnd != Lexer.Else then Failure(NoElseOrEnd)
    else
      var (elsePart, tokens5) :- GetStatement(tokens4);
      var tokens6 :- ConsumeToken(Lexer.End, tokens5, NoEndKeyword);
      Success((IfThen(cond, thenPart, Some(elsePart)), tokens6))
  }

  // The statements up to the `end` of a block, and the tokens behind that `end`.
  function GetStatements(tokens: Tokens): (r: Parsed<seq<Statement>>)
    ensures r.Success? ==> |r.value.1| < |tokens|
    decreases |tokens|, 1
  {
    if tokens == [] then Failure(NoEndBlockFound)
    else if tokens[0] == Lexer.End then Success(([], tokens[1..]))
    else
      var (statement, tokens1) :- GetStatement(tokens);
      var (more, tokens2) :- GetStatements(tokens1);
      Success(([statement] + more, tokens2))
  }

  function GetStatement(tokens: Tokens): (r: Parsed<Statement>)
    ensures r.Success? ==> |r.value.1| < |tokens|
    decreases |tokens|, 0
  {
    hide GetMove, GetHunt, GetBreed, GetRest, GetAssign;
    var (t, rest) :- HeadToken(tokens, ImproperStartOfStatement);
    if t.Block? then
      var (statements, tokens1) :- GetStatements(rest);
      Success((Block(statements), tokens1))
    else if t.If? then GetIfThen(rest)
    else if t.Id? then GetAssign(rest, t.name)
    else if t.Move? then GetMove(rest)
    else if t.Hunt? then GetHunt(rest)
    else if t.Breed? then GetBreed(rest)
    else if t.Rest? then GetRest(rest)
    else Failure(ImproperStartOfStatement)
  }

  // The loop of the source: it walks over the block and pushes one statement after the other.
  method GetBlock(tokens: Tokens) returns (r: Parsed<Statement>)
    ensures match GetStatements(tokens) {
      case Success((statements, rest)) => r == Success((Block(statements), rest))
      case Failure(e) => r == Failure(e)
    }
  {
    var statements: seq<Statement> := [];
    var loopTokens := tokens;
    while true
      invariant GetStatements(tokens).Failure? <==> GetStatements(loopTokens).Failure?
      invariant GetStatements(tokens).Failure? ==> GetStatements(tokens) == GetStatements(loopTokens)
      invariant GetStatements(tokens).Success? ==>
        && GetStatements(tokens).value.0 == statements + GetStatements(loopTokens).value.0
        && GetStatements(tokens).value.1 == GetStatements(loopTokens).value.1
      decreases |loopTokens|
    {
      if loopTokens == [] {
        return Failure(NoEndBlockFound);
      }
      if loopTokens[0] == Lexer.End {
        assert statements + [] == statements;
        return Success((Block(statements), loopTokens[1..]));
      }
      var parsed :- GetStatement(loopTokens);
      loopTokens := parsed.1;
      statements := statements + [parsed.0];
    }
  }

  // ------------------------------------------------------------------ programs

  function GetProgramTokens(tokens: Tokens): Result<Program, CompilerError> {
    var tokens :- ConsumeToken(Lexer.Sim, tokens, NoSimKeyword);
    var (statement, tokens) :- GetStatement(tokens);
    var _ :- ConsumeToken(Lexer.End, tokens, EndOfProgramNotLastToken);
    Success(Program(statement))
  }

  function Compile(text: string): Result<Program, CompilerOrLexerError> {
    match Lexer.Lex(text)
    case Failure(e) => Failure(L(e))
    case Success(tokens) =>
      match GetProgramTokens(tokens)
      case Failure(e) => Failure(C(e))
      case Success(p) => Success(p)
  }

  method GetProgram(text: string) returns (r: Result<Program, CompilerOrLexerError>)
    ensures r == Compile(text)
  {
    var tokens := Lexer.Tokenize(text);
    if tokens.Failure? {
      return Failure(L(tokens.error));
    }
    var program := GetProgramTokens(tokens.value);
    if program.Failure? {
      return Failure(C(program.error));
    }
    return Success(program.value);
  }

  // ------------------------------------------------------------------ the grammar

  function DirectionToken(d: Direction): Token {
    match d
    case N => Lexer.DirN
    case NE => Lexer.DirNE
    case E => Lexer.DirE
    case SE => Lexer.DirSE
    case S => Lexer.DirS
    case SW => Lexer.DirSW
    case W => Lexer.DirW
    case NW => Lexer.DirNW
  }

  function PrintIdentifier(id: Identifier): Token {
    match id
    case Variable(key) => Lexer.Id(key)
    case Constant(v) => Lexer.Int(v)
    case Special(DailyRest) => Lexer.IdRest
    case Special(Energy) => Lexer.IdEnergy
    case Special(Rand) => Lexer.Token.Rand
  }

  function OperatorToken(op: ConditionOp): Token {
    match op case LtOp => Lexer.Lt case GtOp => Lexer.Gt case EqOp => Lexer.TwoEq
  }

  function PrintCondition(c: Condition): Tokens {
    [Lexer.Lpar, PrintIdentifier(c.a), OperatorToken(c.op), PrintIdentifier(c.b), Lexer.Rpar]
  }

  function PrintArithmetic(a: Arithmetic): Tokens {
    [if a.op == AddOp then Lexer.Add else Lexer.Sub, PrintIdentifier(a.a), PrintIdentifier(a.b)]
  }

  function PrintExpression(e: Expression): Tokens {
    match e
    case IdentifierExpr(id) => [PrintIdentifier(id)]
    case ConditionExpr(c) => PrintCondition(c)
    case ArithmeticExpr(a) => PrintArithmetic(a)
  }

  // The statements that have a concrete syntax: all but the bare do-nothing action.
  predicate Concrete(s: Statement) {
    match s
    case Act(a) => a != Nothing
    case Assign(_, _) => true
    case IfThen(_, t, e) => Concrete(t) && (e.Some? ==> Concrete(e.value))
    case Block(ss) => forall i :: 0 <= i < |ss| ==> Concrete(ss[i])
  }

  function PrintStatement(s: Statement): Tokens
    requires Concrete(s)
    decreases s, 1
  {
    match s
    case Act(Move(d)) => [Lexer.Token.Move, DirectionToken(d)]
    case Act(Hunt(d)) => [Lexer.Token.Hunt, DirectionToken(d)]
    case Act(Breed(d)) => [Lexer.Token.Breed, DirectionToken(d)]
    case Act(Rest(n)) => [Lexer.Token.Rest, Lexer.Int(n)]
    case Assign(key, e) => [Lexer.Id(key), Lexer.OneEq] + PrintExpression(e)
    case IfThen(c, t, None) => [Lexer.If] + PrintIfPart(c, t) + [Lexer.End]
    case IfThen(c, t, Some(e)) =>
      [Lexer.If] + PrintIfPart(c, t) + [Lexer.Else] + PrintStatement(e) + [Lexer.End]
    case Block(ss) => [Lexer.Token.Block] + PrintStatements(ss) + [Lexer.End]
  }

  // What both forms of an if statement have between `if` and `else` or `end`.
  function PrintIfPart(c: Condition, t: Statement): Tokens
    requires Concrete(t)
    decreases t, 2
  {
    PrintCondition(c) + [Lexer.Then] + PrintStatement(t)
  }

  function PrintStatements(ss: seq<Statement>): Tokens
    requires forall i :: 0 <= i < |ss| ==> Concrete(ss[i])
    decreases ss, 0
  {
    if ss == [] then [] else PrintStatement(ss[0]) + PrintStatements(ss[1..])
  }

  // ------------------------------------------------------------------ parsing undoes printing

  lemma IdentifierReadsBack(id: Identifier, tail: Tokens)
    ensures GetIdentifier([PrintIdentifier(id)] + tail) == Success((id, tail))
  {
    assert ([PrintIdentifier(id)] + tail)[1..] == tail;
  }

  lemma ConditionReadsBack(c: Condition, tail: Tokens)
    ensures GetCondition(PrintCondition(c) + tail) == Success((c, tail))
  {
    hide GetIdentifier, PrintIdentifier;
    var ts := PrintCondition(c) + tail;
    IdentifierReadsBack(c.a, ts[2..]);
    IdentifierReadsBack(c.b, ts[4..]);
    assert ts[1..] == [PrintIdentifier(c.a)] + ts[2..];
    assert ts[2..][1..] == [PrintIdentifier(c.b)] + ts[4..];
    assert ts[4..][1..] == tail;
  }

  lemma ArithmeticReadsBack(a: Arithmetic, tail: Tokens)
    ensures GetArithmetic(PrintArithmetic(a) + tail) == Success((a, tail))
  {
    var ts := PrintArithmetic(a) + tail;
    assert ts[1..][1..] == ts[2..] && ts[2..][1..] == tail;
  }

  lemma ExpressionReadsBack(e: Expression, tail: Tokens)
    ensures GetExpression(PrintExpression(e) + tail) == Success((e, tail))
  {
    match e {
      case IdentifierExpr(id) => assert ([PrintIdentifier(id)] + tail)[1..] == tail;
      case ConditionExpr(c) => ConditionReadsBack(c, tail);
      case ArithmeticExpr(a) => ArithmeticReadsBack(a, tail);
    }
  }

  lemma ActionReadsBack(a: Action, tail: Tokens)
    requires a != Nothing
    ensures var ts := PrintStatement(Act(a));
      ts != [] && ts[0] != Lexer.End && GetStatement(ts + tail) == Success((Act(a), tail))
  {
    hide MapDirection, DirectionToken;
    if a.Move? || a.Hunt? || a.Breed? {
      DirectionReadsBack(a.dir);
    }
    var ts := PrintStatement(Act(a)) + tail;
    assert ts[1..][1..] == tail;
  }

  lemma DirectionReadsBack(d: Direction)
    ensures MapDirection(DirectionToken(d)) == Success(d)
  {
  }

  lemma AssignReadsBack(key: string, e: Expression, tail: Tokens)
    ensures GetStatement([Lexer.Id(key), Lexer.OneEq] + PrintExpression(e) + tail) == Success((Assign(key, e), tail))
  {
    hide PrintExpression, GetExpression;
    var ts := [Lexer.Id(key), Lexer.OneEq] + PrintExpression(e) + tail;
    assert ts[1..][1..] == PrintExpression(e) + tail;
    ExpressionReadsBack(e, tail);
  }

  lemma {:induction false} StatementReadsBack(s: Statement, tail: Tokens)
    requires Concrete(s)
    ensures PrintStatement(s) != [] && PrintStatement(s)[0] != Lexer.End
    ensures GetStatement(PrintStatement(s) + tail) == Success((s, tail))
    decreases s, 1
  {
    hide PrintIfPart, PrintExpression, GetExpression, GetIfThen;
    var ts := PrintStatement(s) + tail;
    match s {
      case Act(a) =>
        ActionReadsBack(a, tail);
      case Assign(key, e) =>
        AssignReadsBack(key, e, tail);
      case IfThen(c, t, None) =>
        IfThenReadsBack(s, tail);
        assert ts[1..] == PrintIfPart(c, t) + [Lexer.End] + tail;
      case IfThen(c, t, Some(e)) =>
        IfThenReadsBack(s, tail);
        assert ts[1..] == PrintIfPart(c, t) + ([Lexer.Else] + PrintStatement(e) + [Lexer.End]) + tail;
      case Block(ss) =>
        assert ts[1..] == PrintStatements(ss) + [Lexer.End] + tail;
        StatementsReadBack(ss, tail);
    }
  }

  lemma {:induction false} IfThenReadsBack(s: Statement, tail: Tokens)
    requires s.IfThen? && Concrete(s)
    ensures var e := s.elsePart;
            var close := if e.Some? then [Lexer.Else] + PrintStatement(e.value) + [Lexer.End] else [Lexer.End];
            GetIfThen(PrintIfPart(s.cond, s.thenPart) + close + tail) == Success((s, tail))
    decreases s, 0
  {
    hide GetCondition, GetStatement, PrintStatement, PrintCondition;
    var IfThen(c, t, e) := s;
    var close := if e.Some? then [Lexer.Else] + PrintStatement(e.value) + [Lexer.End] else [Lexer.End];
    var more := close + tail;
    IfPartReadsBack(c, t, more);
    var ts := PrintIfPart(c, t) + more;
    assert PrintIfPart(c, t) + close + tail == ts;
    if e.Some? {
      assert more[1..] == PrintStatement(e.value) + ([Lexer.End] + tail);
      StatementReadsBack(e.value, [Lexer.End] + tail);
    }
    assert ([Lexer.End] + tail)[1..] == tail;
  }

  lemma {:induction false} IfPartReadsBack(c: Condition, t: Statement, more: Tokens)
    requires Concrete(t)
    ensures var ts := PrintIfPart(c, t) + more;
            && |ts| > 5 && ts[5] == Lexer.Then
            && GetCondition(ts) == Success((c, ts[5..]))
            && GetStatement(ts[5..][1..]) == Success((t, more))
    decreases t, 2
  {
    hide GetCondition, GetStatement, PrintStatement;
    var ts := PrintIfPart(c, t) + more;
    assert ts == PrintCondition(c) + ts[5..];
    ConditionReadsBack(c, ts[5..]);
    assert ts[5..][1..] == PrintStatement(t) + more;
    StatementReadsBack(t, more);
  }

  lemma {:induction false} StatementsReadBack(ss: seq<Statement>, tail: Tokens)
    requires forall i :: 0 <= i < |ss| ==> Concrete(ss[i])
    ensures GetStatements(PrintStatements(ss) + [Lexer.End] + tail) == Success((ss, tail))
    decreases ss, 0
  {
    var ts := PrintStatements(ss) + [Lexer.End] + tail;
    if ss == [] {
      assert ts[1..] == tail;
    } else {
      var more := PrintStatements(ss[1..]) + [Lexer.End] + tail;
      assert ts == PrintStatement(ss[0]) + more;
      StatementReadsBack(ss[0], more);
      StatementsReadBack(ss[1..], tail);
      assert [ss[0]] + ss[1..] == ss;
    }
  }

  // ------------------------------------------------------------------ printing undoes parsing

  lemma ParsedIdentifier(tokens: Tokens)
    requires GetIdentifier(tokens).Success?
    ensures tokens != [] && GetIdentifier(tokens).value.1 == tokens[1..]
    ensures tokens[0] == PrintIdentifier(GetIdentifier(tokens).value.0)
  {
  }

  lemma ParsedOperator(t: Token)
    requires MapOperator(t).Success?
    ensures t == OperatorToken(MapOperator(t).value)
  {
  }

  lemma ParsedCondition(tokens: Tokens)
    requires GetCondition(tokens).Success?
    ensures var (c, rest) := GetCondition(tokens).value; tokens == PrintCondition(c) + rest
  {
    hide GetIdentifier, PrintIdentifier, MapOperator;
    var t1 := tokens[1..];
    ParsedIdentifier(t1);
    var t2 := t1[1..];
    ParsedOperator(t2[0]);
    var t3 := t2[1..];
    ParsedIdentifier(t3);
    var t4 := t3[1..];
    assert tokens == [tokens[0]] + ([t1[0]] + ([t2[0]] + ([t3[0]] + ([t4[0]] + t4[1..]))));
  }

  lemma ParsedArithmetic(tokens: Tokens)
    requires GetArithmetic(tokens).Success?
    ensures var (a, rest) := GetArithmetic(tokens).value; tokens == PrintArithmetic(a) + rest
  {
    hide GetIdentifier, PrintIdentifier;
    var t1 := tokens[1..];
    ParsedIdentifier(t1);
    var t2 := t1[1..];
    ParsedIdentifier(t2);
    assert tokens == [tokens[0]] + ([t1[0]] + ([t2[0]] + t2[1..]));
  }

  lemma ParsedExpression(tokens: Tokens)
    requires GetExpression(tokens).Success?
    ensures var (e, rest) := GetExpression(tokens).value; tokens == PrintExpression(e) + rest
  {
    hide GetIdentifier, PrintIdentifier, GetCondition, PrintCondition, GetArithmetic, PrintArithmetic;
    if tokens[0] == Lexer.Lpar {
      ParsedCondition(tokens);
    } else if tokens[0] == Lexer.Add || tokens[0] == Lexer.Sub {
      ParsedArithmetic(tokens);
    } else {
      ParsedIdentifier(tokens);
      assert tokens == [tokens[0]] + tokens[1..];
    }
  }

  lemma {:induction false} ParsedStatement(tokens: Tokens)
    requires GetStatement(tokens).Success?
    ensures var (s, rest) := GetStatement(tokens).value; Concrete(s) && tokens == PrintStatement(s) + rest
    decreases |tokens|, 0
  {
    var (s, rest) := GetStatement(tokens).value;
    var ts := tokens[1..];
    assert tokens == [tokens[0]] + ts;
    if tokens[0].Block? {
      ParsedStatements(ts);
      assert tokens == [Lexer.Token.Block] + PrintStatements(s.statements) + [Lexer.End] + rest;
    } else if tokens[0].If? {
      ParsedIfThen(ts);
    } else {
      ParsedSimple(tokens);
    }
  }

  lemma ParsedDirection(t: Token)
    requires MapDirection(t).Success?
    ensures t == DirectionToken(MapDirection(t).value)
  {
  }

  lemma ParsedSimple(tokens: Tokens)
    requires GetStatement(tokens).Success? && !tokens[0].Block? && !tokens[0].If?
    ensures var (s, rest) := GetStatement(tokens).value; Concrete(s) && tokens == PrintStatement(s) + rest
  {
    hide GetIfThen, GetStatements, GetAssign, PrintExpression, MapDirection, DirectionToken;
    var (s, rest) := GetStatement(tokens).value;
    var ts := tokens[1..];
    assert tokens == [tokens[0]] + ts;
    if tokens[0].Id? {
      ParsedAssign(ts, tokens[0].name);
      assert tokens == [tokens[0], Lexer.OneEq] + PrintExpression(s.expr) + rest;
    } else {
      assert ts == [ts[0]] + ts[1..];
      if !tokens[0].Rest? {
        ParsedDirection(ts[0]);
      }
      assert tokens == [tokens[0], ts[0]] + rest;
    }
  }

  lemma ParsedAssign(ts: Tokens, key: string)
    requires GetAssign(ts, key).Success?
    ensures var (s, rest) := GetAssign(ts, key).value;
            s.Assign? && s.key == key && ts == [Lexer.OneEq] + PrintExpression(s.expr) + rest
  {
    hide GetExpression, PrintExpression;
    assert ts == [Lexer.OneEq] + ts[1..];
    ParsedExpression(ts[1..]);
  }

  lemma IfEnds(c: Condition, t: Statement, ts: Tokens, ts3: Tokens)
    requires Concrete(t) && ts == PrintIfPart(c, t) + ts3 && ts3 != [] && ts3[0] == Lexer.End
    ensures var s := IfThen(c, t, None); Concrete(s) && [Lexer.If] + ts == PrintStatement(s) + ts3[1..]
  {
    hide PrintIfPart;
    assert ts3 == [Lexer.End] + ts3[1..];
  }

  lemma ElseEnds(c: Condition, t: Statement, e: Statement, ts: Tokens, ts3: Tokens, ts5: Tokens)
    requires Concrete(t) && Concrete(e) && ts == PrintIfPart(c, t) + ts3
    requires ts3 != [] && ts3[0] == Lexer.Else && ts3[1..] == PrintStatement(e) + ts5
    requires ts5 != [] && ts5[0] == Lexer.End
    ensures var s := IfThen(c, t, Some(e)); Concrete(s) && [Lexer.If] + ts == PrintStatement(s) + ts5[1..]
  {
    hide PrintIfPart, PrintStatement;
    IfElseText(c, t, e);
    Regroup(ts, PrintIfPart(c, t), ts3, PrintStatement(e), ts5);
  }

  lemma IfElseText(c: Condition, t: Statement, e: Statement)
    requires Concrete(t) && Concrete(e)
    ensures PrintStatement(IfThen(c, t, Some(e))) ==
            [Lexer.If] + PrintIfPart(c, t) + [Lexer.Else] + PrintStatement(e) + [Lexer.End]
  {
    hide PrintIfPart;
  }

  lemma Regroup(ts: Tokens, front: Tokens, ts3: Tokens, elsePart: Tokens, ts5: Tokens)
    requires ts == front + ts3 && ts3 != [] && ts3[0] == Lexer.Else && ts3[1..] == elsePart + ts5
    requires ts5 != [] && ts5[0] == Lexer.End
    ensures [Lexer.If] + ts == [Lexer.If] + front + [Lexer.Else] + elsePart + [Lexer.End] + ts5[1..]
  {
    assert ts3 == [Lexer.Else] + (elsePart + ts5);
    assert ts5 == [Lexer.End] + ts5[1..];
  }

  lemma {:induction false} ParsedIfThen(ts: Tokens)
    requires GetIfThen(ts).Success?
    ensures var (s, rest) := GetIfThen(ts).value; Concrete(s) && [Lexer.If] + ts == PrintStatement(s) + rest
    decreases |ts|, 1
  {
    hide PrintCondition, GetCondition, GetStatement, PrintIfPart, PrintStatement, Concrete;
    ParsedCondition(ts);
    var (c, ts1) := GetCondition(ts).value;
    var (t, ts3) := GetStatement(ts1[1..]).value;
    ParsedIfPart(ts);
    if ts3[0] == Lexer.End {
      IfEnds(c, t, ts, ts3);
    } else {
      ParsedStatement(ts3[1..]);
      var (e, ts5) := GetStatement(ts3[1..]).value;
      ElseEnds(c, t, e, ts, ts3, ts5);
    }
  }

  lemma {:induction false} ParsedIfPart(ts: Tokens)
    requires GetCondition(ts).Success?
    requires var ts1 := GetCondition(ts).value.1;
             ts1 != [] && ts1[0] == Lexer.Then && |ts1| <= |ts| && GetStatement(ts1[1..]).Success?
    ensures var (c, ts1) := GetCondition(ts).value;
            var (t, ts3) := GetStatement(ts1[1..]).value;
            Concrete(t) && ts == PrintIfPart(c, t) + ts3
    decreases |ts|, 0
  {
    hide PrintCondition, GetCondition, GetStatement, PrintStatement;
    ParsedCondition(ts);
    var (c, ts1) := GetCondition(ts).value;
    ParsedStatement(ts1[1..]);
    assert ts1 == [Lexer.Then] + ts1[1..];
  }

  lemma {:induction false} ParsedStatements(tokens: Tokens)
    requires GetStatements(tokens).Success?
    ensures var (ss, rest) := GetStatements(tokens).value;
            && (forall i :: 0 <= i < |ss| ==> Concrete(ss[i]))
            && tokens == PrintStatements(ss) + [Lexer.End] + rest
    decreases |tokens|, 1
  {
    hide PrintStatement, GetStatement, Concrete;
    if tokens[0] == Lexer.End {
      assert tokens == [] + [Lexer.End] + tokens[1..];
    } else {
      ParsedStatement(tokens);
      var (s, tokens1) := GetStatement(tokens).value;
      ParsedStatements(tokens1);
      var (more, rest) := GetStatements(tokens1).value;
      assert ([s] + more)[1..] == more;
      assert tokens == PrintStatement(s) + PrintStatements(more) + [Lexer.End] + rest;
    }
  }

  // ------------------------------------------------------------------ the two together

  // The parser accepts exactly the printed statements, and returns the tree they were printed from.
  lemma ParserInvertsPrinter(tokens: Tokens, s: Statement, rest: Tokens)
    ensures GetStatement(tokens) == Success((s, rest)) <==>
            Concrete(s) && tokens == PrintStatement(s) + rest
  {
    if GetStatement(tokens).Success? {
      ParsedStatement(tokens);
    }
    if Concrete(s) && tokens == PrintStatement(s) + rest {
      StatementReadsBack(s, rest);
    }
  }

  // No printed statement begins another one: the grammar is unambiguous.
  lemma GrammarIsUnambiguous(s: Statement, rest: Tokens, s': Statement, rest': Tokens)
    requires Concrete(s) && Concrete(s')
    requires PrintStatement(s) + rest == PrintStatement(s') + rest'
    ensures s == s' && rest == rest'
  {
    StatementReadsBack(s, rest);
    StatementReadsBack(s', rest');
  }

  // ------------------------------------------------------------------ programs and their text

  predicate WritableIdentifier(id: Identifier) {
    Lexer.Writable(PrintIdentifier(id))
  }

  predicate WritableExpression(e: Expression) {
    match e
    case IdentifierExpr(id) => WritableIdentifier(id)
    case ConditionExpr(c) => WritableIdentifier(c.a) && WritableIdentifier(c.b)
    case ArithmeticExpr(a) => WritableIdentifier(a.a) && WritableIdentifier(a.b)
  }

  // Names are no keywords, and constants lie between 0 and the largest signed 32-bit integer.
  predicate WellFormed(s: Statement) {
    match s
    case Act(Rest(n)) => 0 <= n <= Lexer.I32_MAX
    case Act(a) => a != Nothing
    case Assign(key, e) => WritableIdentifier(Variable(key)) && WritableExpression(e)
    case IfThen(c, t, e) =>
      && WritableIdentifier(c.a) && WritableIdentifier(c.b)
      && WellFormed(t) && (e.Some? ==> WellFormed(e.value))
    case Block(ss) => forall i :: 0 <= i < |ss| ==> WellFormed(ss[i])
  }

  ghost predicate AllWritable(ts: Tokens) {
    forall i :: 0 <= i < |ts| ==> Lexer.Writable(ts[i])
  }

  lemma WritableParts(a: Tokens, b: Tokens)
    ensures AllWritable(a + b) <==> AllWritable(a) && AllWritable(b)
  {
    if AllWritable(a + b) {
      assert forall i :: 0 <= i < |a| ==> a[i] == (a + b)[i];
      assert forall i :: 0 <= i < |b| ==> b[i] == (a + b)[|a| + i];
    }
  }

  lemma WritableExpressionTokens(e: Expression)
    ensures AllWritable(PrintExpression(e)) <==> WritableExpression(e)
  {
    var ts := PrintExpression(e);
    match e {
      case IdentifierExpr(id) => assert ts[0] == PrintIdentifier(id);
      case ConditionExpr(c) => WritableConditionTokens(c);
      case ArithmeticExpr(a) =>
        assert ts[1] == PrintIdentifier(a.a) && ts[2] == PrintIdentifier(a.b);
        assert Lexer.Writable(ts[0]);
    }
  }

  lemma WritableConditionTokens(c: Condition)
    ensures AllWritable(PrintCondition(c)) <==> WritableIdentifier(c.a) && WritableIdentifier(c.b)
  {
    var ts := PrintCondition(c);
    assert ts[1] == PrintIdentifier(c.a) && ts[3] == PrintIdentifier(c.b);
  }

  lemma {:induction false} WellFormedTokens(s: Statement)
    requires Concrete(s)
    ensures AllWritable(PrintStatement(s)) <==> WellFormed(s)
    decreases s, 1
  {
    hide Lexer.Writable, PrintExpression, PrintCondition, AllWritable;
    match s {
      case Act(a) =>
        WellFormedActionTokens(a);
      case Assign(key, e) =>
        WritableAssign(key);
        WritableParts([Lexer.Id(key), Lexer.OneEq], PrintExpression(e));
        WritableExpressionTokens(e);
      case IfThen(c, t, e) =>
        var front, close := [Lexer.If] + PrintIfPart(c, t), [Lexer.End];
        WritableKeyword(Lexer.If); WritableKeyword(Lexer.Then); WritableKeyword(Lexer.End);
        WritableParts([Lexer.If], PrintIfPart(c, t));
        WritableParts(PrintCondition(c) + [Lexer.Then], PrintStatement(t));
        WritableParts(PrintCondition(c), [Lexer.Then]);
        WritableConditionTokens(c);
        WellFormedTokens(t);
        if e.Some? {
          WritableKeyword(Lexer.Else);
          WellFormedTokens(e.value);
          WritableParts(front + [Lexer.Else] + PrintStatement(e.value), close);
          WritableParts(front + [Lexer.Else], PrintStatement(e.value));
          WritableParts(front, [Lexer.Else]);
        } else {
          WritableParts(front, close);
        }
      case Block(ss) =>
        WritableKeyword(Lexer.Token.Block); WritableKeyword(Lexer.End);
        WritableParts([Lexer.Token.Block] + PrintStatements(ss), [Lexer.End]);
        WritableParts([Lexer.Token.Block], PrintStatements(ss));
        WellFormedStatementsTokens(ss);
    }
  }

  lemma {:induction false} WellFormedStatementsTokens(ss: seq<Statement>)
    requires forall i :: 0 <= i < |ss| ==> Concrete(ss[i])
    ensures AllWritable(PrintStatements(ss)) <==> forall i :: 0 <= i < |ss| ==> WellFormed(ss[i])
    decreases ss, 0
  {
    hide Lexer.Writable, PrintStatement;
    if ss != [] {
      WellFormedTokens(ss[0]);
      WellFormedStatementsTokens(ss[1..]);
      WritableParts(PrintStatement(ss[0]), PrintStatements(ss[1..]));
      assert forall i :: 1 <= i < |ss| ==> ss[i] == ss[1..][i - 1];
    }
  }

  lemma WritableKeyword(t: Token)
    requires !t.Id? && !t.Int?
    ensures AllWritable([t])
  {
  }

  lemma WritableAssign(key: string)
    ensures AllWritable([Lexer.Id(key), Lexer.OneEq]) <==> WritableIdentifier(Variable(key))
  {
    var ts := [Lexer.Id(key), Lexer.OneEq];
    assert ts[0] == PrintIdentifier(Variable(key));
  }

  lemma WellFormedActionTokens(a: Action)
    requires a != Nothing
    ensures AllWritable(PrintStatement(Act(a))) <==> WellFormed(Act(a))
  {
    var ts := PrintStatement(Act(a));
    assert ts[0] == ts[0] && ts[1] == ts[1];
  }

  lemma {:induction false} WellFormedIsConcrete(s: Statement)
    ensures WellFormed(s) ==> Concrete(s)
  {
    match s {
      case Act(_) =>
      case Assign(_, _) =>
      case IfThen(_, t, e) =>
        WellFormedIsConcrete(t);
        if e.Some? {
          WellFormedIsConcrete(e.value);
        }
      case Block(ss) =>
        forall i | 0 <= i < |ss| ensures WellFormed(ss[i]) ==> Concrete(ss[i]) {
          WellFormedIsConcrete(ss[i]);
        }
    }
  }

  function ProgramTokens(p: Program): Tokens
    requires Concrete(p.statement)
  {
    [Lexer.Sim] + PrintStatement(p.statement) + [Lexer.End]
  }

  // The tokens of a program are accepted, and whatever follows its closing `end` is ignored.
  lemma ProgramsAreAccepted(tokens: Tokens, p: Program)
    ensures GetProgramTokens(tokens) == Success(p) <==>
            Concrete(p.statement) && ProgramTokens(p) <= tokens
  {
    hide GetStatement, PrintStatement;
    if GetProgramTokens(tokens) == Success(p) {
      ParsedStatement(tokens[1..]);
      var rest := GetStatement(tokens[1..]).value.1;
      assert tokens == [Lexer.Sim] + tokens[1..] && rest == [Lexer.End] + rest[1..];
      assert tokens == ProgramTokens(p) + rest[1..];
    }
    if Concrete(p.statement) && ProgramTokens(p) <= tokens {
      var rest := tokens[|ProgramTokens(p)|..];
      assert tokens == ProgramTokens(p) + rest;
      assert tokens[1..] == PrintStatement(p.statement) + ([Lexer.End] + rest);
      StatementReadsBack(p.statement, [Lexer.End] + rest);
    }
  }

  lemma ProgramTokensAreWritable(p: Program)
    requires Concrete(p.statement)
    ensures AllWritable(ProgramTokens(p)) <==> WellFormed(p.statement)
  {
    hide PrintStatement, AllWritable;
    WellFormedTokens(p.statement);
    WritableKeyword(Lexer.Sim);
    WritableKeyword(Lexer.End);
    WritableParts([Lexer.Sim], PrintStatement(p.statement));
    WritableParts([Lexer.Sim] + PrintStatement(p.statement), [Lexer.End]);
  }

  // `text` is the program written out, with `rest` behind it and white space wherever two tokens
  // would run together. The last token may touch the end of the text.
  ghost predicate IsLayoutOf(text: string, p: Program, lead: string, gaps: seq<string>, rest: Tokens)
    requires WellFormed(p.statement)
  {
    WellFormedIsConcrete(p.statement);
    && Lexer.AllWhite(lead)
    && |gaps| == |ProgramTokens(p) + rest| && Lexer.FitsButLast(ProgramTokens(p) + rest, gaps)
    && AllWritable(ProgramTokens(p) + rest)
    && text == lead + Lexer.Layout(ProgramTokens(p) + rest, gaps)
  }

  // Compiling the text of a well-formed program returns that program, whatever white space parts its
  // tokens and whatever tokens come behind it, if and only if the closing `end` does not touch the
  // end of the text. Then it is never turned into a token, and the program is refused although all
  // of it is there.
  lemma TextRoundTrip(text: string, p: Program, lead: string, gaps: seq<string>, rest: Tokens)
    requires WellFormed(p.statement) && IsLayoutOf(text, p, lead, gaps, rest)
    ensures Compile(text) == Success(p) <==> gaps[|gaps| - 1] != "" || rest != []
    ensures gaps[|gaps| - 1] == "" && rest == [] ==> Compile(text) == Failure(C(EndOfProgramNotLastToken))
  {
    hide Lexer.Lex, Lexer.Writable, Lexer.FitsButLast, Lexer.Layout, GetProgramTokens, PrintStatement;
    WellFormedIsConcrete(p.statement);
    var tokens := ProgramTokens(p) + rest;
    Lexer.LexSkipsWhite(lead, Lexer.Layout(tokens, gaps));
    assert forall t <- tokens :: Lexer.Writable(t);
    Lexer.LayoutReadsBack(tokens, gaps);
    if gaps[|gaps| - 1] != "" {
      ProgramsAreAccepted(tokens, p);
    } else if rest != [] {
      assert tokens[..|tokens| - 1] == ProgramTokens(p) + rest[..|rest| - 1];
      ProgramsAreAccepted(tokens[..|tokens| - 1], p);
    } else {
      NoEndNoProgram(p.statement);
      assert tokens[..|tokens| - 1] == [Lexer.Sim] + PrintStatement(p.statement);
    }
  }

  lemma NoEndNoProgram(s: Statement)
    requires Concrete(s)
    ensures GetProgramTokens([Lexer.Sim] + PrintStatement(s)) == Failure(EndOfProgramNotLastToken)
  {
    hide GetStatement, PrintStatement;
    var tokens := [Lexer.Sim] + PrintStatement(s);
    assert tokens[1..] == PrintStatement(s) + [];
    StatementReadsBack(s, []);
  }

  function SingleSpaced(p: Program): string
    requires WellFormed(p.statement)
  {
    WellFormedIsConcrete(p.statement);
    ProgramTokensAreWritable(p);
    var tokens := ProgramTokens(p);
    Lexer.Layout(tokens, seq(|tokens|, _ => " "))
  }

  // The programs that some text compiles to are exactly the well-formed ones, so the output of the
  // compiler can always be written down and compiled again.
  lemma CompilablePrograms(p: Program)
    ensures (exists text :: Compile(text) == Success(p)) <==> WellFormed(p.statement)
    ensures WellFormed(p.statement) ==> Compile(SingleSpaced(p)) == Success(p)
  {
    forall text | Compile(text) == Success(p) ensures WellFormed(p.statement) {
      var tokens := Lexer.Lex(text).value;
      ProgramsAreAccepted(tokens, p);
      Lexer.LexedTokensAreWritable(text);
      var rest := tokens[|ProgramTokens(p)|..];
      assert tokens == ProgramTokens(p) + rest;
      WritableParts(ProgramTokens(p), rest);
      ProgramTokensAreWritable(p);
    }
    if WellFormed(p.statement) {
      WellFormedIsConcrete(p.statement);
      ProgramTokensAreWritable(p);
      var tokens := ProgramTokens(p);
      var gaps := seq(|tokens|, _ => " ");
      assert tokens + [] == tokens && "" + SingleSpaced(p) == SingleSpaced(p);
      TextRoundTrip(SingleSpaced(p), p, "", gaps, []);
    }
  }
}
