/** Whole runs of the interpreter on concrete inputs: lexing, parsing and
    evaluating, as `main` does with its fixed input. */
module Scenarios {
  import opened Common
  import opened Lexer
  import opened Element
  import opened Parser
  import opened LexicalCast
  import opened ParserItems
  import opened LexExamples

  function Run(input: string): Result<Int32> {
    match ParseTokens(TokensOf(input))
    case Err(f) => Err(f)
    case Ok(e) => Eval(e)
  }

  lemma SmallCasts()
    ensures CastToInt("1") == Some(1) && CastToInt("2") == Some(2) && CastToInt("4") == Some(4)
    ensures CastToInt("10") == Some(10) && CastToInt("12") == Some(12) && CastToInt("13") == Some(13)
  {
    assert "10"[..1] == "1" && "12"[..1] == "1" && "13"[..1] == "1";
  }

  lemma GroupParses(a: string, o: Token, b: string, x: Int32, y: Int32)
    requires CastToInt(a) == Some(x) && CastToInt(b) == Some(y) && (o.kind == Plus || o.kind == Minus)
    ensures ParseTokens([Token(Integer, a), o, Token(Integer, b)]) ==
      Ok(Binary(Addition, Some(Literal(x)), Some(Literal(y))))
  {
    var toks := [Token(Integer, a), o, Token(Integer, b)];
    var op := if o.kind == Plus then Addition else Subtraction;
    assert ParseFrom(toks, 3, Addition, Some(Literal(x)), Some(Literal(y))) ==
      Ok(Binary(Addition, Some(Literal(x)), Some(Literal(y))));
    assert ParseFrom(toks, 2, op, Some(Literal(x)), None) ==
      ParseFrom(toks, 3, Addition, Some(Literal(x)), Some(Literal(y)));
    assert ParseFrom(toks, 1, Addition, Some(Literal(x)), None) == ParseFrom(toks, 2, op, Some(Literal(x)), None);
    assert ParseFrom(toks, 0, Addition, None, None) == ParseFrom(toks, 1, Addition, Some(Literal(x)), None);
  }

  /** The outer level of the sample: two groups around a minus. */
  lemma GroupMinusGroup(toks: seq<Token>, e1: Expr, e2: Expr)
    requires |toks| == 11 && toks[0].kind == LParen && toks[5].kind == Minus && toks[6].kind == LParen
    requires FindRParen(toks, 0) == Some(4) && FindRParen(toks, 6) == Some(10)
    requires ParseTokens(toks[1..4]) == Ok(e1) && ParseTokens(toks[7..10]) == Ok(e2)
    ensures ParseTokens(toks) == Ok(Binary(Subtraction, Some(e1), Some(e2)))
  {
    assert ParseFrom(toks, 11, Subtraction, Some(e1), Some(e2)) == Ok(Binary(Subtraction, Some(e1), Some(e2)));
    assert ParseFrom(toks, 6, Subtraction, Some(e1), None) == ParseFrom(toks, 11, Subtraction, Some(e1), Some(e2));
    assert ParseFrom(toks, 5, Addition, Some(e1), None) == ParseFrom(toks, 6, Subtraction, Some(e1), None);
    assert ParseFrom(toks, 0, Addition, None, None) == ParseFrom(toks, 5, Addition, Some(e1), None);
  }

  /** Where the sample's parentheses close, and what they enclose. */
  lemma SampleGroups(toks: seq<Token>)
    requires toks == SampleLexed
    ensures FindRParen(toks, 0) == Some(4) && FindRParen(toks, 6) == Some(10)
    ensures toks[1..4] == [Token(Integer, "13"), Token(Minus, "-"), Token(Integer, "4")]
    ensures toks[7..10] == [Token(Integer, "12"), Token(Plus, "+"), Token(Integer, "1")]
  {
    assert FindRParen(toks, 4) == Some(4);
    assert FindRParen(toks, 3) == FindRParen(toks, 4);
    assert FindRParen(toks, 2) == FindRParen(toks, 3);
    assert FindRParen(toks, 1) == FindRParen(toks, 2);
    assert FindRParen(toks, 0) == FindRParen(toks, 1);
    assert FindRParen(toks, 10) == Some(10);
    assert FindRParen(toks, 9) == FindRParen(toks, 10);
    assert FindRParen(toks, 8) == FindRParen(toks, 9);
    assert FindRParen(toks, 7) == FindRParen(toks, 8);
    assert FindRParen(toks, 6) == FindRParen(toks, 7);
  }

  lemma SampleParse(toks: seq<Token>)
    requires toks == SampleLexed
    ensures ParseTokens(toks) == Ok(Binary(Subtraction,
      Some(Binary(Addition, Some(Literal(13)), Some(Literal(4)))),
      Some(Binary(Addition, Some(Literal(12)), Some(Literal(1))))))
  {
    SmallCasts();
    SampleGroups(toks);
    GroupParses("13", Token(Minus, "-"), "4", 13, 4);
    GroupParses("12", Token(Plus, "+"), "1", 12, 1);
    GroupMinusGroup(toks, Binary(Addition, Some(Literal(13)), Some(Literal(4))),
      Binary(Addition, Some(Literal(12)), Some(Literal(1))));
  }

  /** The input of `main`. Each parenthesised pair evaluates as an addition,
      because its last integer token resets the operation: (13-4) gives 17
      and (12+1) gives 13, so the run yields 17 - 13 = 4, not the -4 that
      the comment beside `main` claims. */
  lemma SampleRun()
    ensures Run(Sample) == Ok(4)
  {
    SampleTokens(Sample);
    SampleParse(SampleLexed);
    var e1 := Binary(Addition, Some(Literal(13)), Some(Literal(4)));
    var e2 := Binary(Addition, Some(Literal(12)), Some(Literal(1)));
    assert Eval(e1) == Ok(17);
    assert Eval(e2) == Ok(13);
    assert Eval(Binary(Subtraction, Some(e1), Some(e2))) == Ok(4);
  }

  /** The last number of "3+4" reaches the end of the input and is dropped,
      so the node has no right operand and evaluation fails. */
  lemma TrailingNumberRun()
    ensures TokensOf("3+4") == [Token(Integer, "3"), Token(Plus, "+")]
    ensures Run("3+4") == Err(MissingOperand)
  {
    TrailingNumberTokens("3+4");
    TrailingNumberParse([Token(Integer, "3"), Token(Plus, "+")]);
  }

  lemma TrailingNumberParse(toks: seq<Token>)
    requires toks == [Token(Integer, "3"), Token(Plus, "+")]
    ensures ParseTokens(toks) == Ok(Binary(Addition, Some(Literal(3)), None))
  {
    assert CastToInt("3") == Some(3);
    assert ParseFrom(toks, 1, Addition, Some(Literal(3)), None) == Ok(Binary(Addition, Some(Literal(3)), None));
  }

  /** With a closing character after it the last number is kept, and the
      integer token that ends the expression turns the subtraction back
      into an addition: "10-2)" yields 12. */
  lemma FallThroughRun()
    ensures Run("10-2)") == Ok(12)
  {
    FallThroughTokens("10-2)");
    FallThroughParse([Token(Integer, "10"), Token(Minus, "-"), Token(Integer, "2"), Token(RParen, ")")]);
  }

  lemma FallThroughParse(toks: seq<Token>)
    requires toks == [Token(Integer, "10"), Token(Minus, "-"), Token(Integer, "2"), Token(RParen, ")")]
    ensures ParseTokens(toks) == Ok(Binary(Addition, Some(Literal(10)), Some(Literal(2))))
  {
    SmallCasts();
    var e := Binary(Addition, Some(Literal(10)), Some(Literal(2)));
    assert ParseFrom(toks, 4, Addition, Some(Literal(10)), Some(Literal(2))) == Ok(e);
    assert ParseFrom(toks, 2, Subtraction, Some(Literal(10)), None) == Ok(e);
    assert ParseFrom(toks, 0, Addition, None, None) == ParseFrom(toks, 2, Subtraction, Some(Literal(10)), None);
  }

  /** A lone parenthesised expression fills only `lhs`: "(1+2)" parses to a
      node without a right operand, which cannot be evaluated. */
  lemma LoneGroupRun()
    ensures Run("(1+2)") == Err(MissingOperand)
  {
    LoneGroupTokens("(1+2)");
    var toks := [Token(LParen, "("), Token(Integer, "1"), Token(Plus, "+"), Token(Integer, "2"), Token(RParen, ")")];
    LoneGroupParse(toks);
  }

  lemma LoneGroupParse(toks: seq<Token>)
    requires toks == [Token(LParen, "("), Token(Integer, "1"), Token(Plus, "+"), Token(Integer, "2"), Token(RParen, ")")]
    ensures ParseTokens(toks) == Ok(Binary(Addition, Some(Binary(Addition, Some(Literal(1)), Some(Literal(2)))), None))
  {
    SmallCasts();
    LoneGroupCloses(toks);
    GroupParses("1", Token(Plus, "+"), "2", 1, 2);
    var e := Binary(Addition, Some(Literal(1)), Some(Literal(2)));
    assert ParseFrom(toks, 5, Addition, Some(e), None) == Ok(Binary(Addition, Some(e), None));
  }

  lemma LoneGroupCloses(toks: seq<Token>)
    requires toks == [Token(LParen, "("), Token(Integer, "1"), Token(Plus, "+"), Token(Integer, "2"), Token(RParen, ")")]
    ensures FindRParen(toks, 0) == Some(4)
    ensures toks[1..4] == [Token(Integer, "1"), Token(Plus, "+"), Token(Integer, "2")]
  {
    assert FindRParen(toks, 4) == Some(4);
    assert FindRParen(toks, 3) == FindRParen(toks, 4);
    assert FindRParen(toks, 2) == FindRParen(toks, 3);
    assert FindRParen(toks, 1) == FindRParen(toks, 2);
  }

  /** Parentheses are matched with the first rparen, not by depth: in
      "((1+2)+3)" the outer lparen is closed after 2, and the tokens inside,
      "((1+2", hold an lparen with no rparen after it. */
  lemma NestedParensRun()
    ensures Run("((1+2)+3)") == Err(UnterminatedParen)
  {
    NestedParensTokens("((1+2)+3)");
    NestedParensFail(TokensOf("((1+2)+3)"));
  }

  lemma NestedParensFail(toks: seq<Token>)
    requires |toks| >= 6
    requires toks[..6] ==
      [Token(LParen, "("), Token(LParen, "("), Token(Integer, "1"), Token(Plus, "+"), Token(Integer, "2"), Token(RParen, ")")]
    ensures ParseTokens(toks) == Err(UnterminatedParen)
  {
    assert toks[0].kind == LParen && toks[1].kind == LParen && toks[2].kind == Integer;
    assert toks[3].kind == Plus && toks[4].kind == Integer && toks[5].kind == RParen;
    FindRParenAt(toks, 0, 5);
    var inner := toks[1..5];
    assert inner[0].kind == LParen;
    assert FindRParen(inner, 4) == None;
    assert FindRParen(inner, 3) == None;
    assert FindRParen(inner, 2) == None;
    assert FindRParen(inner, 1) == None;
    assert FindRParen(inner, 0) == None;
    assert ParseTokens(inner) == Err(UnterminatedParen);
  }

  /** A number run led by a space becomes an integer token whose text the
      cast refuses. */
  lemma LeadingSpaceRun()
    ensures Run(" 5)") == Err(BadLexicalCast)
  {
    LeadingSpaceTokens(" 5)");
    assert CastToInt(" 5") == None;
  }
}
