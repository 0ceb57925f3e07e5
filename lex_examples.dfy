/** `lex` on the concrete inputs of the scenarios. Each lemma takes the
    input as a parameter equal to the literal and steps through the lexing
    one token at a time. The proofs are cut this way to keep each one small
    for the solver: stating them directly about the string literal lets it
    unfold `LexFrom` over the whole literal at once, so the sample is lexed
    in three pieces (`SampleTail`, `SampleMiddle`, `SampleHead`), and the
    pieces are joined by the list lemmas `FiveThen` and `SampleSplit`, which
    mention no input at all. */
module LexExamples {
  import opened Lexer

  /** The fixed input of `main` (Interpreter.cpp:133). */
  const Sample: string := "(13-4)-(12+1)"

  const SampleLexed: seq<Token> := [
    Token(LParen, "("), Token(Integer, "13"), Token(Minus, "-"), Token(Integer, "4"), Token(RParen, ")"),
    Token(Minus, "-"),
    Token(LParen, "("), Token(Integer, "12"), Token(Plus, "+"), Token(Integer, "1"), Token(RParen, ")")]

  /** The second parenthesised pair of the sample. */
  lemma SampleTail(s: string)
    requires s == Sample
    ensures LexFrom(s, 6) ==
      [Token(Minus, "-"), Token(LParen, "("), Token(Integer, "12"), Token(Plus, "+"), Token(Integer, "1"), Token(RParen, ")")]
  {
    assert LexFrom(s, 13) == [];
    assert LexFrom(s, 12) == [Token(RParen, ")")];
    assert RunEnd(s, 12) == 12 && s[11..12] == "1";
    assert LexFrom(s, 11) == [Token(Integer, "1"), Token(RParen, ")")];
    assert LexFrom(s, 10) == [Token(Plus, "+")] + LexFrom(s, 11);
    assert RunEnd(s, 10) == 10 && RunEnd(s, 9) == 10 && s[8..10] == "12";
    assert LexFrom(s, 8) == [Token(Integer, "12")] + LexFrom(s, 10);
    assert LexFrom(s, 7) == [Token(LParen, "(")] + LexFrom(s, 8);
    assert LexFrom(s, 6) == [Token(Minus, "-")] + LexFrom(s, 7);
  }

  /** The end of the first parenthesised pair, in front of whatever the
      rest lexes to. */
  lemma SampleMiddle(s: string, rest: seq<Token>)
    requires s == Sample && LexFrom(s, 6) == rest
    ensures LexFrom(s, 3) == [Token(Minus, "-")] + ([Token(Integer, "4")] + ([Token(RParen, ")")] + rest))
  {
    assert LexFrom(s, 5) == [Token(RParen, ")")] + rest;
    assert RunEnd(s, 5) == 5 && s[4..5] == "4";
    assert LexFrom(s, 4) == [Token(Integer, "4")] + LexFrom(s, 5);
  }

  lemma SampleHead(s: string, rest: seq<Token>)
    requires s == Sample && LexFrom(s, 3) == rest
    ensures LexFrom(s, 0) == [Token(LParen, "(")] + ([Token(Integer, "13")] + rest)
  {
    assert RunEnd(s, 3) == 3 && RunEnd(s, 2) == 3 && s[1..3] == "13";
    assert LexFrom(s, 1) == [Token(Integer, "13")] + rest;
  }

  lemma FiveThen<T>(a: T, b: T, c: T, d: T, e: T, rest: seq<T>)
    ensures [a] + ([b] + ([c] + ([d] + ([e] + rest)))) == [a, b, c, d, e] + rest
  {
  }

  lemma SampleTokens(s: string)
    requires s == Sample
    ensures TokensOf(s) == SampleLexed
  {
    SampleTail(s);
    var rest := LexFrom(s, 6);
    SampleMiddle(s, rest);
    SampleHead(s, LexFrom(s, 3));
    var head := [Token(LParen, "("), Token(Integer, "13"), Token(Minus, "-"), Token(Integer, "4"), Token(RParen, ")")];
    FiveThen(head[0], head[1], head[2], head[3], head[4], rest);
    assert LexFrom(s, 0) == head + rest;
    SampleSplit();
  }

  lemma SampleSplit()
    ensures [Token(LParen, "("), Token(Integer, "13"), Token(Minus, "-"), Token(Integer, "4"), Token(RParen, ")")] +
      [Token(Minus, "-"), Token(LParen, "("), Token(Integer, "12"), Token(Plus, "+"), Token(Integer, "1"), Token(RParen, ")")]
      == SampleLexed
  {
  }

  /** "3+4": the last number reaches the end of the input and is dropped. */
  lemma TrailingNumberTokens(s: string)
    requires s == "3+4"
    ensures TokensOf(s) == [Token(Integer, "3"), Token(Plus, "+")]
  {
    assert RunEnd(s, 3) == 3 && LexFrom(s, 2) == [];
    assert LexFrom(s, 1) == [Token(Plus, "+")];
    assert RunEnd(s, 1) == 1 && s[0..1] == "3";
    assert LexFrom(s, 0) == [Token(Integer, "3")] + LexFrom(s, 1);
  }

  lemma FallThroughTokens(s: string)
    requires s == "10-2)"
    ensures TokensOf(s) == [Token(Integer, "10"), Token(Minus, "-"), Token(Integer, "2"), Token(RParen, ")")]
  {
    assert LexFrom(s, 5) == [];
    assert LexFrom(s, 4) == [Token(RParen, ")")];
    assert RunEnd(s, 4) == 4 && s[3..4] == "2";
    assert LexFrom(s, 3) == [Token(Integer, "2"), Token(RParen, ")")];
    assert LexFrom(s, 2) == [Token(Minus, "-")] + LexFrom(s, 3);
    assert RunEnd(s, 2) == 2 && RunEnd(s, 1) == 2 && s[0..2] == "10";
    assert LexFrom(s, 0) == [Token(Integer, "10")] + LexFrom(s, 2);
  }

  lemma LoneGroupTokens(s: string)
    requires s == "(1+2)"
    ensures TokensOf(s) ==
      [Token(LParen, "("), Token(Integer, "1"), Token(Plus, "+"), Token(Integer, "2"), Token(RParen, ")")]
  {
    assert LexFrom(s, 5) == [];
    assert LexFrom(s, 4) == [Token(RParen, ")")];
    assert RunEnd(s, 4) == 4 && s[3..4] == "2";
    assert LexFrom(s, 3) == [Token(Integer, "2"), Token(RParen, ")")];
    assert LexFrom(s, 2) == [Token(Plus, "+")] + LexFrom(s, 3);
    assert RunEnd(s, 2) == 2 && s[1..2] == "1";
    assert LexFrom(s, 1) == [Token(Integer, "1")] + LexFrom(s, 2);
    assert LexFrom(s, 0) == [Token(LParen, "(")] + LexFrom(s, 1);
  }

  /** Only the first six tokens of "((1+2)+3)" matter to the parse. */
  lemma NestedParensTokens(s: string)
    requires s == "((1+2)+3)"
    ensures |TokensOf(s)| >= 6
    ensures TokensOf(s)[..6] ==
      [Token(LParen, "("), Token(LParen, "("), Token(Integer, "1"), Token(Plus, "+"), Token(Integer, "2"), Token(RParen, ")")]
  {
    var rest := LexFrom(s, 6);
    assert RunEnd(s, 5) == 5 && s[4..5] == "2";
    assert LexFrom(s, 4) == [Token(Integer, "2"), Token(RParen, ")")] + rest;
    assert LexFrom(s, 3) == [Token(Plus, "+")] + LexFrom(s, 4);
    assert RunEnd(s, 3) == 3 && s[2..3] == "1";
    assert LexFrom(s, 2) == [Token(Integer, "1")] + LexFrom(s, 3);
    assert LexFrom(s, 1) == [Token(LParen, "(")] + LexFrom(s, 2);
    assert LexFrom(s, 0) == [Token(LParen, "(")] + LexFrom(s, 1);
  }

  /** A number run led by a space becomes an integer token " 5". */
  lemma LeadingSpaceTokens(s: string)
    requires s == " 5)"
    ensures TokensOf(s) == [Token(Integer, " 5"), Token(RParen, ")")]
  {
    assert LexFrom(s, 2) == [Token(RParen, ")")];
    assert RunEnd(s, 2) == 2 && RunEnd(s, 1) == 2 && s[0..2] == " 5";
    assert LexFrom(s, 0) == [Token(Integer, " 5")] + LexFrom(s, 2);
  }
}
