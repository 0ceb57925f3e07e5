/** `parse` of Interpreter.cpp (lines 83-127): one pass over the tokens that
    fills in a single binary node, recursing on the tokens inside each pair
    of parentheses. `ParseTokens`/`ParseFrom` are the specification, `Parse`
    the loop of the source proved equal to it. */
module Parser {
  import opened Common
  import opened Lexer
  import opened LexicalCast
  import opened Element

  /** Where an operand goes: the first one to `lhs`, every later one to
      `rhs`, overwriting the previous `rhs`. */
  function Place(x: Expr, lhs: Option<Expr>, rhs: Option<Expr>): (slots: (Option<Expr>, Option<Expr>))
    ensures slots.0.Some?
  {
    if lhs.None? then (Some(x), rhs) else (lhs, Some(x))
  }

  /** The first rparen at or after `i`: the inner loop of the lparen case,
      which does not count nesting depth. */
  function FindRParen(toks: seq<Token>, i: nat): (r: Option<nat>)
    requires i <= |toks|
    ensures r.Some? ==> i <= r.value < |toks| && toks[r.value].kind == RParen
    ensures r.Some? ==> forall k :: i <= k < r.value ==> toks[k].kind != RParen
    ensures r.None? ==> forall k :: i <= k < |toks| ==> toks[k].kind != RParen
    decreases |toks| - i
  {
    if i == |toks| then None
    else if toks[i].kind == RParen then Some(i)
    else FindRParen(toks, i + 1)
  }

  /** What `parse` returns for `toks`: a fresh node starts as an addition
      with no children. */
  function ParseTokens(toks: seq<Token>): Result<Expr>
    decreases |toks|, 1, 0
  {
    ParseFrom(toks, 0, Addition, None, None)
  }

  /** The rest of the pass from token `i`, with the node's operation and
      children as far as they have been filled in. */
  function ParseFrom(toks: seq<Token>, i: nat, op: Op, lhs: Option<Expr>, rhs: Option<Expr>): Result<Expr>
    requires i <= |toks|
    decreases |toks|, 0, |toks| - i
  {
    if i == |toks| then Ok(Binary(op, lhs, rhs))
    else
      match toks[i].kind
      case Integer =>
        (match CastToInt(toks[i].text)
         case None => Err(BadLexicalCast)
         case Some(v) =>
           var slots := Place(Literal(v), lhs, rhs);
           // no `break`: the integer case falls into the plus case
           ParseFrom(toks, i + 1, Addition, slots.0, slots.1))
      case Plus => ParseFrom(toks, i + 1, Addition, lhs, rhs)
      case Minus => ParseFrom(toks, i + 1, Subtraction, lhs, rhs)
      case LParen =>
        (match FindRParen(toks, i)
         case None => Err(UnterminatedParen)
         case Some(j) =>
           match ParseTokens(toks[i + 1..j])
           case Err(f) => Err(f)
           case Ok(element) =>
             var slots := Place(element, lhs, rhs);
             ParseFrom(toks, j + 1, op, slots.0, slots.1))
      case RParen => ParseFrom(toks, i + 1, op, lhs, rhs)
  }

  /** `parse` (Interpreter.cpp:83-127). The node under construction is held
      in local variables; `have_lhs` records whether `lhs` has been set. */
  method Parse(tokens: seq<Token>) returns (r: Result<Expr>)
    ensures r == ParseTokens(tokens)
    decreases |tokens|
  {
    var op := Addition;
    var lhs: Option<Expr> := None;
    var rhs: Option<Expr> := None;
    var haveLhs := false;
    var i := 0;
    while i < |tokens|
      invariant 0 <= i <= |tokens|
      invariant haveLhs <==> lhs.Some?
      invariant ParseFrom(tokens, i, op, lhs, rhs) == ParseTokens(tokens)
    {
      var token := tokens[i];
      match token.kind {
        case Integer =>
          var value := CastToInt(token.text);
          if value.None? {
            return Err(BadLexicalCast);
          }
          var integer := Literal(value.value);
          if !haveLhs {
            lhs := Some(integer);
            haveLhs := true;
          } else {
            rhs := Some(integer);
          }
          // falls through into the plus case
          op := Addition;
        case Plus =>
          op := Addition;
        case Minus =>
          op := Subtraction;
        case LParen =>
          var j := i;
          while j < |tokens| && tokens[j].kind != RParen
            invariant i <= j <= |tokens|
            invariant FindRParen(tokens, j) == FindRParen(tokens, i)
          {
            j := j + 1;
          }
          if j == |tokens| {
            return Err(UnterminatedParen);
          }
          var element := Parse(tokens[i + 1..j]);
          if element.Err? {
            return element;
          }
          if !haveLhs {
            lhs := Some(element.value);
            haveLhs := true;
          } else {
            rhs := Some(element.value);
          }
          i := j;
        case RParen =>
      }
      i := i + 1;
    }
    r := Ok(Binary(op, lhs, rhs));
  }
}
