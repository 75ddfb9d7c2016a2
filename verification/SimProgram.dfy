/** The syntax trees of the sim^2 language. */
module SimProgram {
  import opened Results

  datatype Direction = N | NE | E | SE | S | SW | W | NW

  datatype ConditionOp = LtOp | GtOp | EqOp

  datatype ArithmeticOp = AddOp | SubOp

  datatype SpecialIdentifier = Rand | Energy | DailyRest

  datatype Identifier =
    | Special(special: SpecialIdentifier)
    | Variable(key: string)
    | Constant(val: int)

  datatype Condition = Condition(a: Identifier, b: Identifier, op: ConditionOp)

  datatype Arithmetic = Arithmetic(a: Identifier, b: Identifier, op: ArithmeticOp)

  datatype Expression =
    | IdentifierExpr(id: Identifier)
    | ConditionExpr(cond: Condition)
    | ArithmeticExpr(arith: Arithmetic)

  // What a program decides; it is also the simplest kind of statement.
  datatype Action =
    | Move(dir: Direction)
    | Hunt(dir: Direction)
    | Breed(dir: Direction)
    | Rest(count: int)
    | Nothing

  datatype Statement =
    | Act(action: Action)
    | Assign(key: string, expr: Expression)
    | IfThen(cond: Condition, thenPart: Statement, elsePart: Option<Statement>)
    | Block(statements: seq<Statement>)

  datatype Program = Program(statement: Statement)
}
