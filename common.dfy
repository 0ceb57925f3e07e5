/** Shared vocabulary of the interpreter model: optional values, the ways a
    run can fail, and the range of the C++ `int` the source computes with. */
module Common {

  datatype Option<+T> = None | Some(value: T)

  /** Everything that stops a run of the interpreter. In the source these are
      either an exception (`boost::bad_lexical_cast`) or undefined behaviour
      (reading past the end of the token vector, calling through a null
      child pointer, signed overflow); the model reports each as a value. */
  datatype Failure =
    | BadLexicalCast      // integer token text that `lexical_cast<int>` refuses
    | UnterminatedParen   // an lparen with no rparen after it
    | MissingOperand      // a binary node evaluated with a null lhs or rhs
    | Overflow            // an addition or subtraction outside the `int` range

  datatype Result<+T> = Ok(value: T) | Err(failure: Failure)

  /** Bounds of a 32-bit two's complement `int`. */
  const IntMin: int := -0x8000_0000
  const IntMax: int := 0x7fff_ffff

  predicate InIntRange(v: int) {
    IntMin <= v <= IntMax
  }

  /** The values a C++ `int` can hold. */
  type Int32 = v: int | InIntRange(v)
}
