/** The lexer of Interpreter.cpp: `lex` turns the input string into a vector
    of tokens. `TokensOf` is the specification, `Lex` the loop of the source
    proved equal to it, and `Tokenizes` an independent description of every
    correct token sequence, shown to hold of `TokensOf` and of nothing else. */
module Lexer {

  /** `Token::Type` of the source. */
  datatype Kind = Integer | Plus | Minus | LParen | RParen

  datatype Token = Token(kind: Kind, text: string)

  /** `isdigit` in the C locale. */
  predicate IsDigit(c: char) {
    '0' <= c <= '9'
  }

  /** The four characters `lex` turns into a token of their own. */
  predicate IsSymbol(c: char) {
    c == '+' || c == '-' || c == '(' || c == ')'
  }

  /** The token `lex` pushes for a symbol character. */
  function SymbolToken(c: char): (t: Token)
    requires IsSymbol(c)
    ensures t.kind != Integer && t.text == [c]
    ensures WellFormed(t)
  {
    if c == '+' then Token(Plus, "+")
    else if c == '-' then Token(Minus, "-")
    else if c == '(' then Token(LParen, "(")
    else Token(RParen, ")")
  }

  /** The shapes of token `lex` can produce: a symbol token carries its own
      character, and an integer token is one non-symbol character followed
      by zero or more digits. */
  predicate WellFormed(t: Token) {
    match t.kind
    case Integer =>
      |t.text| >= 1 && !IsSymbol(t.text[0]) &&
      forall k :: 1 <= k < |t.text| ==> IsDigit(t.text[k])
    case Plus => t.text == "+"
    case Minus => t.text == "-"
    case LParen => t.text == "("
    case RParen => t.text == ")"
  }

  /** A number run that reaches the end of the input: it produces no token. */
  predicate IsDroppedRun(r: string) {
    r == [] || (!IsSymbol(r[0]) && forall k :: 1 <= k < |r| ==> IsDigit(r[k]))
  }

  /** The input text the tokens were cut from, in order. */
  function Texts(toks: seq<Token>): string {
    if toks == [] then [] else toks[0].text + Texts(toks[1..])
  }

  /** `toks` is a correct lexing of `s`: each token is well formed and is the
      next piece of `s`, an integer token is followed in `s` by a non-digit
      (maximal munch), and what is left at the end is a dropped run. */
  predicate Tokenizes(s: string, toks: seq<Token>)
    decreases toks
  {
    if toks == [] then IsDroppedRun(s)
    else
      var t := toks[0];
      WellFormed(t) && t.text <= s &&
      (t.kind == Integer ==> |t.text| < |s| && !IsDigit(s[|t.text|])) &&
      Tokenizes(s[|t.text|..], toks[1..])
  }

  /** The first index at or after `j` that does not hold a digit. */
  function RunEnd(s: string, j: nat): (e: nat)
    requires j <= |s|
    ensures j <= e <= |s|
    ensures forall m :: j <= m < e ==> IsDigit(s[m])
    ensures e < |s| ==> !IsDigit(s[e])
    decreases |s| - j
  {
    if j == |s| || !IsDigit(s[j]) then j else RunEnd(s, j + 1)
  }

  /** What `lex` produces from position `i` on. */
  function LexFrom(s: string, i: nat): seq<Token>
    requires i <= |s|
    decreases |s| - i
  {
    if i == |s| then []
    else if IsSymbol(s[i]) then [SymbolToken(s[i])] + LexFrom(s, i + 1)
    else
      var e := RunEnd(s, i + 1);
      if e == |s| then [] else [Token(Integer, s[i..e])] + LexFrom(s, e)
  }

  function TokensOf(s: string): seq<Token> {
    LexFrom(s, 0)
  }

  /** `lex` (Interpreter.cpp:22-56). The inner loop advances the outer index
      `i` over every digit it appends to the buffer, and pushes the integer
      token only when it meets a non-digit. */
  method Lex(input: string) returns (result: seq<Token>)
    ensures result == TokensOf(input)
  {
    result := [];
    var i := 0;
    while i < |input|
      invariant 0 <= i <= |input|
      invariant result + LexFrom(input, i) == TokensOf(input)
    {
      var c := input[i];
      if c == '+' {
        SymbolStep(input, i, result, Token(Plus, "+"));
        result := result + [Token(Plus, "+")];
      } else if c == '-' {
        SymbolStep(input, i, result, Token(Minus, "-"));
        result := result + [Token(Minus, "-")];
      } else if c == '(' {
        SymbolStep(input, i, result, Token(LParen, "("));
        result := result + [Token(LParen, "(")];
      } else if c == ')' {
        SymbolStep(input, i, result, Token(RParen, ")"));
        result := result + [Token(RParen, ")")];
      } else {
        result, i := LexRun(input, i, result);
      }
      i := i + 1;
    }
  }

  /** The `default` branch of `lex`: the character at `i` starts a number
      run. Digits are appended to the buffer while `i` advances over them;
      the integer token is pushed only when a non-digit follows, so a run
      that reaches the end of the input pushes nothing. On return `i` is the
      last index of the run, which the outer loop then steps past. */
  method LexRun(input: string, i0: nat, result0: seq<Token>) returns (result: seq<Token>, i: nat)
    requires i0 < |input| && !IsSymbol(input[i0])
    ensures i0 <= i < |input|
    ensures result + LexFrom(input, i + 1) == result0 + LexFrom(input, i0)
    ensures i + 1 == RunEnd(input, i0 + 1)
    ensures result == result0 + (if i + 1 < |input| then [Token(Integer, input[i0..i + 1])] else [])
  {
    result, i := result0, i0;
    var buffer := [input[i0]];
    var j := i0 + 1;
    while j < |input|
      invariant i0 < j <= |input| && i == j - 1
      invariant buffer == input[i0..j]
      invariant RunEnd(input, i0 + 1) == RunEnd(input, j)
      invariant result == result0
    {
      if IsDigit(input[j]) {
        assert RunEnd(input, j) == RunEnd(input, j + 1);
        SliceExtend(input, i0, j);
        buffer := buffer + [input[j]];
        i := i + 1;
      } else {
        RunStep(input, i0, j, result, Token(Integer, buffer));
        result := result + [Token(Integer, buffer)];
        return;
      }
      j := j + 1;
    }
    RunDropped(input, i0, result);
  }

  lemma SliceExtend(s: string, a: nat, b: nat)
    requires a <= b < |s|
    ensures s[a..b + 1] == s[a..b] + [s[b]]
  {
  }

  lemma SymbolStep(s: string, i: nat, done: seq<Token>, t: Token)
    requires i < |s| && IsSymbol(s[i]) && t == SymbolToken(s[i])
    ensures done + LexFrom(s, i) == (done + [t]) + LexFrom(s, i + 1)
  {
    assert LexFrom(s, i) == [t] + LexFrom(s, i + 1);
    assert (done + [t]) + LexFrom(s, i + 1) == done + ([t] + LexFrom(s, i + 1));
  }

  lemma RunStep(s: string, start: nat, j: nat, done: seq<Token>, t: Token)
    requires start < j < |s| && !IsSymbol(s[start]) && !IsDigit(s[j])
    requires RunEnd(s, start + 1) == RunEnd(s, j) && t == Token(Integer, s[start..j])
    ensures done + LexFrom(s, start) == (done + [t]) + LexFrom(s, j)
  {
    assert LexFrom(s, start) == [t] + LexFrom(s, j);
    assert (done + [t]) + LexFrom(s, j) == done + ([t] + LexFrom(s, j));
  }

  lemma RunDropped(s: string, start: nat, done: seq<Token>)
    requires start < |s| && !IsSymbol(s[start]) && RunEnd(s, start + 1) == |s|
    ensures done + LexFrom(s, |s|) == done + LexFrom(s, start)
  {
    assert LexFrom(s, start) == [] && LexFrom(s, |s|) == [];
    assert done + [] == done;
  }

  /** The lexing `lex` computes from position `i` is a correct lexing of the
      rest of the input. */
  lemma {:induction false} LexFromTokenizes(s: string, i: nat)
    requires i <= |s|
    ensures Tokenizes(s[i..], LexFrom(s, i))
    decreases |s| - i
  {
    if i == |s| {
    } else if IsSymbol(s[i]) {
      LexFromTokenizes(s, i + 1);
      assert s[i..][1..] == s[i + 1..];
      TokenizesCons(s[i..], SymbolToken(s[i]), LexFrom(s, i + 1));
    } else {
      var e := RunEnd(s, i + 1);
      if e < |s| {
        LexFromTokenizes(s, e);
        RunTokenFits(s, i, e);
        TokenizesCons(s[i..], Token(Integer, s[i..e]), LexFrom(s, e));
      } else {
        RunDroppedAtEnd(s, i);
      }
    }
  }

  /** One well-formed, maximally munched token in front of a correct lexing
      of the rest is a correct lexing. */
  lemma TokenizesCons(s: string, t: Token, rest: seq<Token>)
    requires WellFormed(t) && t.text <= s
    requires t.kind == Integer ==> |t.text| < |s| && !IsDigit(s[|t.text|])
    requires Tokenizes(s[|t.text|..], rest)
    ensures Tokenizes(s, [t] + rest)
  {
    assert ([t] + rest)[0] == t && ([t] + rest)[1..] == rest;
  }

  /** The number run from `i` to its end `e` makes a well-formed integer
      token followed by a non-digit. */
  lemma RunTokenFits(s: string, i: nat, e: nat)
    requires i < e < |s| && !IsSymbol(s[i]) && e == RunEnd(s, i + 1)
    ensures WellFormed(Token(Integer, s[i..e])) && s[i..e] <= s[i..]
    ensures |s[i..e]| < |s[i..]| && !IsDigit(s[i..][|s[i..e]|])
    ensures s[i..][|s[i..e]|..] == s[e..]
  {
    var text := s[i..e];
    assert text[0] == s[i];
    forall k | 1 <= k < |text|
      ensures IsDigit(text[k])
    {
      assert text[k] == s[i + k];
    }
    assert s[i..][|text|] == s[e];
  }

  lemma RunDroppedAtEnd(s: string, i: nat)
    requires i < |s| && !IsSymbol(s[i]) && RunEnd(s, i + 1) == |s|
    ensures IsDroppedRun(s[i..])
  {
  }

  /** Nothing remains of a dropped run: no token can be cut from it. */
  lemma NoTokenInDroppedRun(s: string, toks: seq<Token>)
    requires IsDroppedRun(s) && Tokenizes(s, toks)
    ensures toks == []
  {
  }

  /** Two correct lexings agree on their first token. */
  lemma FirstTokenDetermined(s: string, a: Token, b: Token)
    requires WellFormed(a) && a.text <= s && (a.kind == Integer ==> |a.text| < |s| && !IsDigit(s[|a.text|]))
    requires WellFormed(b) && b.text <= s && (b.kind == Integer ==> |b.text| < |s| && !IsDigit(s[|b.text|]))
    ensures a == b
  {
    assert a.text[0] == s[0] == b.text[0];
    if a.kind == Integer && b.kind == Integer {
      var m, n := |a.text|, |b.text|;
      assert a.text == s[..m] && b.text == s[..n];
    }
  }

  lemma {:induction false} TokenizesUnique(s: string, a: seq<Token>, b: seq<Token>)
    requires Tokenizes(s, a) && Tokenizes(s, b)
    ensures a == b
    decreases |a|
  {
    if a == [] {
      NoTokenInDroppedRun(s, b);
    } else if b == [] {
      NoTokenInDroppedRun(s, a);
    } else {
      FirstTokenDetermined(s, a[0], b[0]);
      TokenizesUnique(s[|a[0].text|..], a[1..], b[1..]);
      assert a == [a[0]] + a[1..] && b == [b[0]] + b[1..];
    }
  }

  /** `lex` meets its description: a token sequence is a correct lexing of
      `s` exactly when it is the one `lex` produces. */
  lemma LexCharacterized(s: string, toks: seq<Token>)
    ensures Tokenizes(s, toks) <==> toks == TokensOf(s)
  {
    LexFromTokenizes(s, 0);
    assert s[0..] == s;
    if Tokenizes(s, toks) {
      TokenizesUnique(s, toks, TokensOf(s));
    }
  }

  /** What a correct lexing keeps of its input: every token is well formed,
      there are at most as many tokens as characters, and the token texts,
      in order, spell the input up to a dropped run at its end. */
  lemma {:induction false} TokenizesKeepsInput(s: string, toks: seq<Token>)
    requires Tokenizes(s, toks)
    ensures forall k :: 0 <= k < |toks| ==> WellFormed(toks[k])
    ensures |toks| <= |s|
    ensures Texts(toks) <= s && IsDroppedRun(s[|Texts(toks)|..])
    decreases toks
  {
    if toks == [] {
      assert s[0..] == s;
    } else {
      var t := toks[0];
      var rest := s[|t.text|..];
      TokenizesKeepsInput(rest, toks[1..]);
      assert s == t.text + rest;
      assert Texts(toks) == t.text + Texts(toks[1..]);
      assert s[|Texts(toks)|..] == rest[|Texts(toks[1..])|..];
      forall k | 0 <= k < |toks|
        ensures WellFormed(toks[k])
      {
        if k > 0 {
          assert toks[k] == toks[1..][k - 1];
        }
      }
    }
  }

  function CountKind(toks: seq<Token>, k: Kind): nat {
    if toks == [] then 0 else (if toks[0].kind == k then 1 else 0) + CountKind(toks[1..], k)
  }

  /** Each `+`, `-`, `(` and `)` of the input becomes exactly one token of
      its kind: a correct lexing has as many tokens of that kind as the
      input has occurrences of the character. */
  lemma {:induction false} SymbolsKept(s: string, toks: seq<Token>, c: char)
    requires Tokenizes(s, toks) && IsSymbol(c)
    ensures CountKind(toks, SymbolToken(c).kind) == multiset(s)[c]
    decreases toks
  {
    if toks == [] {
      NoSymbolInRun(s, c);
    } else {
      var t := toks[0];
      var n := |t.text|;
      TokenizesUncons(s, toks);
      SymbolsKept(s[n..], toks[1..], c);
      MultisetSplit(s, n, c);
      if t.kind == Integer {
        NoSymbolInRun(t.text, c);
      } else {
        SymbolTokenCount(t, c);
      }
    }
  }

  /** The facts a correct lexing states about its first token. */
  lemma TokenizesUncons(s: string, toks: seq<Token>)
    requires Tokenizes(s, toks) && toks != []
    ensures WellFormed(toks[0]) && |toks[0].text| <= |s| && toks[0].text == s[..|toks[0].text|]
    ensures toks[0].kind == Integer ==> |toks[0].text| < |s| && !IsDigit(s[|toks[0].text|])
    ensures Tokenizes(s[|toks[0].text|..], toks[1..])
  {
  }

  lemma MultisetSplit(s: string, n: nat, c: char)
    requires n <= |s|
    ensures multiset(s)[c] == multiset(s[..n])[c] + multiset(s[n..])[c]
  {
    assert s == s[..n] + s[n..];
  }

  lemma SymbolTokenCount(t: Token, c: char)
    requires WellFormed(t) && t.kind != Integer && IsSymbol(c)
    ensures multiset(t.text)[c] == if t.kind == SymbolToken(c).kind then 1 else 0
  {
  }

  lemma NoSymbolInRun(r: string, c: char)
    requires IsDroppedRun(r) && IsSymbol(c)
    ensures multiset(r)[c] == 0
  {
    assert c !in r;
  }

  /** Appending a number run to an input that lexes completely adds no
      token: the run is dropped. */
  lemma {:induction false} DroppedRunAddsNothing(p: string, toks: seq<Token>, r: string)
    requires Tokenizes(p, toks) && Texts(toks) == p && IsDroppedRun(r)
    ensures Tokenizes(p + r, toks)
    decreases toks
  {
    if toks == [] {
      assert p + r == r;
    } else {
      var t := toks[0];
      var n := |t.text|;
      TokenizesUncons(p, toks);
      assert Texts(toks) == t.text + Texts(toks[1..]);
      TextsRest(p, t.text, Texts(toks[1..]));
      DroppedRunAddsNothing(p[n..], toks[1..], r);
      AppendAfterPrefix(p, r, n);
      assert toks == [t] + toks[1..];
      TokenizesCons(p + r, t, toks[1..]);
    }
  }

  lemma TextsRest(p: string, a: string, b: string)
    requires p == a + b
    ensures p[|a|..] == b
  {
  }

  lemma AppendAfterPrefix(p: string, r: string, n: nat)
    requires n <= |p|
    ensures (p + r)[..n] == p[..n] && (p + r)[n..] == p[n..] + r
    ensures n < |p| ==> (p + r)[n] == p[n]
  {
  }

  /** Corollary for `lex` itself. */
  lemma TrailingRunDropped(p: string, r: string)
    requires Texts(TokensOf(p)) == p && IsDroppedRun(r)
    ensures TokensOf(p + r) == TokensOf(p)
  {
    LexCharacterized(p, TokensOf(p));
    DroppedRunAddsNothing(p, TokensOf(p), r);
    LexCharacterized(p + r, TokensOf(p));
  }
}
