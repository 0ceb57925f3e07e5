/** The expression tree of Interpreter.cpp (`Element`, `Integer`,
    `BinaryOperation`) and its evaluation. The tree is a value: the shared
    pointers and virtual dispatch of the source become a datatype and a
    `match`. A child pointer that `parse` never set is `None`. */
module Element {
  import opened Common

  /** `BinaryOperation::Type`. */
  datatype Op = Addition | Subtraction

  datatype Expr =
    | Literal(value: Int32)
    | Binary(op: Op, lhs: Option<Expr>, rhs: Option<Expr>)

  /** Every binary node has both children. */
  predicate Complete(e: Expr) {
    match e
    case Literal(_) => true
    case Binary(_, lhs, rhs) =>
      lhs.Some? && rhs.Some? && Complete(lhs.value) && Complete(rhs.value)
  }

  /** The value of a complete tree in unbounded integer arithmetic. */
  function Value(e: Expr): int
    requires Complete(e)
  {
    match e
    case Literal(v) => v
    case Binary(Addition, lhs, rhs) => Value(lhs.value) + Value(rhs.value)
    case Binary(Subtraction, lhs, rhs) => Value(lhs.value) - Value(rhs.value)
  }

  /** No node of a complete tree has a value outside the range of `int`. */
  predicate Fits(e: Expr)
    requires Complete(e)
  {
    match e
    case Literal(_) => true
    case Binary(_, lhs, rhs) => Fits(lhs.value) && Fits(rhs.value) && InIntRange(Value(e))
  }

  /** `Integer::eval` and `BinaryOperation::eval` (Interpreter.cpp:68,
      75-80). Where the source has undefined behaviour, a null child or a
      signed overflow, the model fails instead. Evaluation succeeds exactly
      on complete trees whose every node fits in an `int`, and then yields
      the arithmetic value of the tree. */
  function Eval(e: Expr): (r: Result<Int32>)
    ensures r.Ok? <==> Complete(e) && Fits(e)
    ensures r.Ok? ==> r.value == Value(e)
    ensures r.Err? ==> r.failure == MissingOperand || r.failure == Overflow
  {
    match e
    case Literal(v) => Ok(v)
    case Binary(op, Some(lhs), Some(rhs)) =>
      (match Eval(lhs)
       case Err(f) => Err(f)
       case Ok(a) =>
         match Eval(rhs)
         case Err(f) => Err(f)
         case Ok(b) =>
           var v := if op == Addition then a + b else a - b;
           if InIntRange(v) then Ok(v) else Err(Overflow))
    case Binary(_, _, _) => Err(MissingOperand)
  }
}
