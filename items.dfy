/** What `parse` computes, stated without its loop. A token sequence whose
    every lparen has an rparen after it splits into top-level items: single
    tokens and parenthesised groups. `parse` puts the first operand item in
    `lhs` and the last one in `rhs` (when there are two or more), takes the
    operation from the last integer, plus or minus token at the top level,
    and ignores stray rparens. A sequence with an lparen that no rparen
    follows makes it fail. */
module ParserItems {
  import opened Common
  import opened Lexer
  import opened LexicalCast
  import opened Element
  import opened Parser

  /** A top-level piece of a token sequence: a token other than an lparen,
      or an lparen, the tokens up to the first rparen, and that rparen. */
  datatype Item =
    | Single(tok: Token)
    | Group(open: Token, inner: seq<Token>, close: Token)

  predicate ItemShape(it: Item) {
    match it
    case Single(t) => t.kind != LParen
    case Group(o, inner, c) =>
      o.kind == LParen && c.kind == RParen &&
      forall k :: 0 <= k < |inner| ==> inner[k].kind != RParen
  }

  predicate AllShaped(items: seq<Item>) {
    forall k :: 0 <= k < |items| ==> ItemShape(items[k])
  }

  function ItemTokens(it: Item): seq<Token> {
    match it
    case Single(t) => [t]
    case Group(o, inner, c) => [o] + inner + [c]
  }

  function Flatten(items: seq<Item>): seq<Token> {
    if items == [] then [] else ItemTokens(items[0]) + Flatten(items[1..])
  }

  /** An lparen that no rparen follows. */
  predicate Unterminated(toks: seq<Token>) {
    exists k :: 0 <= k < |toks| && toks[k].kind == LParen &&
      forall m :: k < m < |toks| ==> toks[m].kind != RParen
  }

  predicate IsOperand(it: Item) {
    it.Group? || it.tok.kind == Integer
  }

  /** An operand item that can be turned into an expression: integer text
      the cast accepts, or a group whose tokens parse. */
  predicate Converts(it: Item) {
    match it
    case Single(t) => t.kind == Integer ==> CastToInt(t.text).Some?
    case Group(_, inner, _) => ParseTokens(inner).Ok?
  }

  predicate AllConvert(items: seq<Item>) {
    forall k :: 0 <= k < |items| ==> Converts(items[k])
  }

  function OperandExpr(it: Item): Expr
    requires IsOperand(it) && Converts(it)
  {
    match it
    case Single(t) => Literal(CastToInt(t.text).value)
    case Group(_, inner, _) => ParseTokens(inner).value
  }

  /** The operands of the items, in order. */
  function Operands(items: seq<Item>): seq<Expr>
    requires AllConvert(items)
  {
    if items == [] then []
    else
      var rest := Operands(items[1..]);
      if IsOperand(items[0]) then [OperandExpr(items[0])] + rest else rest
  }

  /** The operation chosen by the last integer, plus or minus token among
      the items; a later one overrides an earlier one. */
  function ChosenOp(items: seq<Item>): Option<Op> {
    if items == [] then None
    else
      var later := ChosenOp(items[1..]);
      if later.Some? then later
      else match items[0]
        case Single(t) =>
          if t.kind == Integer || t.kind == Plus then Some(Addition)
          else if t.kind == Minus then Some(Subtraction)
          else None
        case Group(_, _, _) => None
  }

  function FinalOp(op: Op, items: seq<Item>): Op {
    if ChosenOp(items).Some? then ChosenOp(items).value else op
  }

  function FinalLhs(lhs: Option<Expr>, xs: seq<Expr>): Option<Expr> {
    if lhs.Some? || xs == [] then lhs else Some(xs[0])
  }

  function FinalRhs(lhs: Option<Expr>, rhs: Option<Expr>, xs: seq<Expr>): Option<Expr> {
    if xs == [] || (lhs.None? && |xs| == 1) then rhs else Some(xs[|xs| - 1])
  }

  lemma FindRParenAt(toks: seq<Token>, i: nat, j: nat)
    requires i <= j < |toks| && toks[j].kind == RParen
    requires forall k :: i <= k < j ==> toks[k].kind != RParen
    ensures FindRParen(toks, i) == Some(j)
  {
  }

  /** Facts about the first item and the rest of a non-empty item list. */
  lemma UnconsItems(items: seq<Item>)
    requires items != []
    ensures AllShaped(items) <==> ItemShape(items[0]) && AllShaped(items[1..])
    ensures AllConvert(items) <==> Converts(items[0]) && AllConvert(items[1..])
    ensures Flatten(items) == ItemTokens(items[0]) + Flatten(items[1..])
  {
    var rest := items[1..];
    if ItemShape(items[0]) && AllShaped(rest) {
      forall k | 0 <= k < |items| ensures ItemShape(items[k]) {
        if k > 0 { assert items[k] == rest[k - 1]; }
      }
    }
    if Converts(items[0]) && AllConvert(rest) {
      forall k | 0 <= k < |items| ensures Converts(items[k]) {
        if k > 0 { assert items[k] == rest[k - 1]; }
      }
    }
  }

  /** Placing one more operand and then the rest gives the same children as
      placing all of them. */
  lemma PlaceThenRest(x: Expr, lhs: Option<Expr>, rhs: Option<Expr>, xs: seq<Expr>)
    ensures var slots := Place(x, lhs, rhs);
      FinalLhs(slots.0, xs) == FinalLhs(lhs, [x] + xs) &&
      FinalRhs(slots.0, slots.1, xs) == FinalRhs(lhs, rhs, [x] + xs)
  {
  }

  /** The pass over the tokens of well-shaped items, from any partly built
      node, fails exactly when an operand does not convert, and otherwise
      ends with the node the item-level description gives. */
  lemma {:induction false} ParseFromItems(toks: seq<Token>, i: nat, items: seq<Item>, op: Op, lhs: Option<Expr>, rhs: Option<Expr>)
    requires i <= |toks| && toks[i..] == Flatten(items) && AllShaped(items)
    ensures ParseFrom(toks, i, op, lhs, rhs).Ok? <==> AllConvert(items)
    ensures AllConvert(items) ==>
      ParseFrom(toks, i, op, lhs, rhs) ==
      Ok(Binary(FinalOp(op, items), FinalLhs(lhs, Operands(items)), FinalRhs(lhs, rhs, Operands(items))))
    decreases |items|, 2
  {
    if items == [] {
      assert |toks[i..]| == 0;
    } else {
      var rest := items[1..];
      UnconsItems(items);
      assert items == [items[0]] + rest;
      match items[0]
      case Single(t) =>
        SingleSlices(toks, i, t, Flatten(rest));
        if t.kind == Integer {
          ParseFromInteger(toks, i, t, rest, op, lhs, rhs);
        } else {
          ParseFromMarker(toks, i, t, rest, op, lhs, rhs);
        }
      case Group(o, inner, c) =>
        GroupSlices(toks, i, o, inner, c, Flatten(rest));
        ParseFromGroup(toks, i, o, inner, c, rest, op, lhs, rhs);
    }
  }

  lemma SingleSlices(toks: seq<Token>, i: nat, t: Token, tail: seq<Token>)
    requires i <= |toks| && toks[i..] == [t] + tail
    ensures i < |toks| && toks[i] == t && toks[i + 1..] == tail
  {
    assert toks[i] == toks[i..][0];
    assert toks[i + 1..] == toks[i..][1..];
  }

  lemma GroupSlices(toks: seq<Token>, i: nat, o: Token, inner: seq<Token>, c: Token, tail: seq<Token>)
    requires i <= |toks| && toks[i..] == [o] + inner + [c] + tail
    ensures i + |inner| + 1 < |toks|
    ensures toks[i] == o && toks[i + 1..i + 1 + |inner|] == inner && toks[i + 1 + |inner|] == c
    ensures toks[i + |inner| + 2..] == tail
  {
    var n := |inner|;
    var g := toks[i..];
    assert g[1..n + 1] == inner;
    assert toks[i] == g[0];
    assert toks[i + 1..i + 1 + n] == g[1..n + 1];
    assert toks[i + 1 + n] == g[n + 1];
    assert toks[i + n + 2..] == g[n + 2..];
  }

  /** An integer token: its literal is placed and the operation becomes an
      addition. */
  lemma {:induction false} ParseFromInteger(toks: seq<Token>, i: nat, t: Token, rest: seq<Item>, op: Op, lhs: Option<Expr>, rhs: Option<Expr>)
    requires i < |toks| && toks[i] == t && t.kind == Integer
    requires toks[i + 1..] == Flatten(rest) && AllShaped(rest)
    ensures var items := [Single(t)] + rest;
      (ParseFrom(toks, i, op, lhs, rhs).Ok? <==> AllConvert(items)) &&
      (AllConvert(items) ==>
        ParseFrom(toks, i, op, lhs, rhs) ==
        Ok(Binary(FinalOp(op, items), FinalLhs(lhs, Operands(items)), FinalRhs(lhs, rhs, Operands(items)))))
    decreases |rest| + 1, 1
  {
    var items := [Single(t)] + rest;
    assert items[0] == Single(t) && items[1..] == rest;
    UnconsItems(items);
    if CastToInt(t.text).Some? {
      var x := Literal(CastToInt(t.text).value);
      var slots := Place(x, lhs, rhs);
      assert ParseFrom(toks, i, op, lhs, rhs) == ParseFrom(toks, i + 1, Addition, slots.0, slots.1);
      ParseFromItems(toks, i + 1, rest, Addition, slots.0, slots.1);
      assert FinalOp(op, items) == FinalOp(Addition, rest);
      if AllConvert(items) {
        assert Operands(items) == [x] + Operands(rest);
        PlaceThenRest(x, lhs, rhs, Operands(rest));
      }
    } else {
      assert ParseFrom(toks, i, op, lhs, rhs) == Err(BadLexicalCast);
    }
  }

  /** A plus, minus or stray rparen token: only the operation may change. */
  lemma {:induction false} ParseFromMarker(toks: seq<Token>, i: nat, t: Token, rest: seq<Item>, op: Op, lhs: Option<Expr>, rhs: Option<Expr>)
    requires i < |toks| && toks[i] == t && t.kind != Integer && t.kind != LParen
    requires toks[i + 1..] == Flatten(rest) && AllShaped(rest)
    ensures var items := [Single(t)] + rest;
      (ParseFrom(toks, i, op, lhs, rhs).Ok? <==> AllConvert(items)) &&
      (AllConvert(items) ==>
        ParseFrom(toks, i, op, lhs, rhs) ==
        Ok(Binary(FinalOp(op, items), FinalLhs(lhs, Operands(items)), FinalRhs(lhs, rhs, Operands(items)))))
    decreases |rest| + 1, 1
  {
    var items := [Single(t)] + rest;
    assert items[0] == Single(t) && items[1..] == rest;
    UnconsItems(items);
    var next := if t.kind == Plus then Addition else if t.kind == Minus then Subtraction else op;
    assert ParseFrom(toks, i, op, lhs, rhs) == ParseFrom(toks, i + 1, next, lhs, rhs);
    ParseFromItems(toks, i + 1, rest, next, lhs, rhs);
    assert FinalOp(op, items) == FinalOp(next, rest);
    if AllConvert(items) {
      assert Operands(items) == Operands(rest);
    }
  }

  /** A group: the tokens inside are parsed on their own and the result is
      placed; the operation does not change. */
  lemma {:induction false} ParseFromGroup(toks: seq<Token>, i: nat, o: Token, inner: seq<Token>, c: Token, rest: seq<Item>, op: Op, lhs: Option<Expr>, rhs: Option<Expr>)
    requires ItemShape(Group(o, inner, c)) && AllShaped(rest)
    requires i + |inner| + 1 < |toks|
    requires toks[i] == o && toks[i + 1..i + 1 + |inner|] == inner && toks[i + 1 + |inner|] == c
    requires toks[i + |inner| + 2..] == Flatten(rest)
    ensures var items := [Group(o, inner, c)] + rest;
      (ParseFrom(toks, i, op, lhs, rhs).Ok? <==> AllConvert(items)) &&
      (AllConvert(items) ==>
        ParseFrom(toks, i, op, lhs, rhs) ==
        Ok(Binary(FinalOp(op, items), FinalLhs(lhs, Operands(items)), FinalRhs(lhs, rhs, Operands(items)))))
    decreases |rest| + 1, 1
  {
    var items := [Group(o, inner, c)] + rest;
    var j := i + 1 + |inner|;
    GroupClosedAt(toks, i, inner);
    var sub := ParseTokens(inner);
    assert ParseTokens(toks[i + 1..j]) == sub;
    GroupStep(toks, i, j, op, lhs, rhs);
    if sub.Ok? {
      GroupParsed(toks, j + 1, o, inner, c, rest, op, lhs, rhs);
    } else {
      assert !Converts(items[0]);
      assert !AllConvert(items);
    }
  }

  /** The rest of the pass after a group whose tokens parsed. */
  lemma {:induction false} GroupParsed(toks: seq<Token>, k: nat, o: Token, inner: seq<Token>, c: Token, rest: seq<Item>, op: Op, lhs: Option<Expr>, rhs: Option<Expr>)
    requires ItemShape(Group(o, inner, c)) && AllShaped(rest) && ParseTokens(inner).Ok?
    requires k <= |toks| && toks[k..] == Flatten(rest)
    ensures var items := [Group(o, inner, c)] + rest;
      var x := ParseTokens(inner).value;
      var slots := Place(x, lhs, rhs);
      (ParseFrom(toks, k, op, slots.0, slots.1).Ok? <==> AllConvert(items)) &&
      (AllConvert(items) ==>
        ParseFrom(toks, k, op, slots.0, slots.1) ==
        Ok(Binary(FinalOp(op, items), FinalLhs(lhs, Operands(items)), FinalRhs(lhs, rhs, Operands(items)))))
    decreases |rest| + 1, 0
  {
    var items := [Group(o, inner, c)] + rest;
    assert items[0] == Group(o, inner, c) && items[1..] == rest;
    UnconsItems(items);
    var x := ParseTokens(inner).value;
    var slots := Place(x, lhs, rhs);
    ParseFromItems(toks, k, rest, op, slots.0, slots.1);
    assert FinalOp(op, items) == FinalOp(op, rest);
    if AllConvert(items) {
      assert Operands(items) == [x] + Operands(rest);
      PlaceThenRest(x, lhs, rhs, Operands(rest));
    }
  }

  lemma GroupClosedAt(toks: seq<Token>, i: nat, inner: seq<Token>)
    requires i + |inner| + 1 < |toks| && toks[i + 1..i + 1 + |inner|] == inner
    requires toks[i].kind == LParen && toks[i + 1 + |inner|].kind == RParen
    requires forall k :: 0 <= k < |inner| ==> inner[k].kind != RParen
    ensures FindRParen(toks, i) == Some(i + 1 + |inner|)
  {
    forall k | i <= k < i + 1 + |inner|
      ensures toks[k].kind != RParen
    {
      if k > i {
        assert toks[k] == inner[k - i - 1];
      }
    }
    FindRParenAt(toks, i, i + 1 + |inner|);
  }

  /** One step of the pass over an lparen whose first rparen is at `j`. */
  lemma GroupStep(toks: seq<Token>, i: nat, j: nat, op: Op, lhs: Option<Expr>, rhs: Option<Expr>)
    requires i < j < |toks| && toks[i].kind == LParen && FindRParen(toks, i) == Some(j)
    ensures ParseTokens(toks[i + 1..j]).Err? ==>
      ParseFrom(toks, i, op, lhs, rhs) == Err(ParseTokens(toks[i + 1..j]).failure)
    ensures ParseTokens(toks[i + 1..j]).Ok? ==>
      var slots := Place(ParseTokens(toks[i + 1..j]).value, lhs, rhs);
      ParseFrom(toks, i, op, lhs, rhs) == ParseFrom(toks, j + 1, op, slots.0, slots.1)
  {
  }

  /** `parse` on the tokens of well-shaped items succeeds exactly when every
      operand converts. Then the node is an addition unless the last
      integer, plus or minus token at the top level is a minus; its `lhs` is
      the first operand and its `rhs` the last one, each missing when there
      are too few operands. */
  lemma ParseItems(items: seq<Item>)
    requires AllShaped(items)
    ensures ParseTokens(Flatten(items)).Ok? <==> AllConvert(items)
    ensures AllConvert(items) ==>
      var xs := Operands(items);
      ParseTokens(Flatten(items)) ==
      Ok(Binary(if ChosenOp(items) == Some(Subtraction) then Subtraction else Addition,
                if |xs| >= 1 then Some(xs[0]) else None,
                if |xs| >= 2 then Some(xs[|xs| - 1]) else None))
  {
    var toks := Flatten(items);
    assert toks[0..] == toks;
    ParseFromItems(toks, 0, items, Addition, None, None);
    if AllConvert(items) {
      var xs := Operands(items);
      assert FinalOp(Addition, items) == if ChosenOp(items) == Some(Subtraction) then Subtraction else Addition;
      assert FinalLhs(None, xs) == if |xs| >= 1 then Some(xs[0]) else None;
      assert FinalRhs(None, None, xs) == if |xs| >= 2 then Some(xs[|xs| - 1]) else None;
    }
  }

  /** An lparen at or after `i` with no rparen after it makes the pass fail. */
  lemma {:induction false} UnterminatedFrom(toks: seq<Token>, i: nat, k: nat, op: Op, lhs: Option<Expr>, rhs: Option<Expr>)
    requires i <= k < |toks| && toks[k].kind == LParen
    requires forall m :: k < m < |toks| ==> toks[m].kind != RParen
    ensures ParseFrom(toks, i, op, lhs, rhs).Err?
    decreases |toks| - i
  {
    match toks[i].kind
    case Integer =>
      if CastToInt(toks[i].text).Some? {
        var slots := Place(Literal(CastToInt(toks[i].text).value), lhs, rhs);
        UnterminatedFrom(toks, i + 1, k, Addition, slots.0, slots.1);
      }
    case Plus => UnterminatedFrom(toks, i + 1, k, Addition, lhs, rhs);
    case Minus => UnterminatedFrom(toks, i + 1, k, Subtraction, lhs, rhs);
    case RParen => UnterminatedFrom(toks, i + 1, k, op, lhs, rhs);
    case LParen =>
      var found := FindRParen(toks, i);
      if found.Some? && ParseTokens(toks[i + 1..found.value]).Ok? {
        var j := found.value;
        var slots := Place(ParseTokens(toks[i + 1..j]).value, lhs, rhs);
        UnterminatedFrom(toks, j + 1, k, op, slots.0, slots.1);
      }
  }

  /** `parse` fails on a token sequence with an unterminated lparen, where
      the source reads past the end of the vector. */
  lemma UnterminatedFails(toks: seq<Token>)
    requires Unterminated(toks)
    ensures ParseTokens(toks).Err?
  {
    var k :| 0 <= k < |toks| && toks[k].kind == LParen &&
      forall m :: k < m < |toks| ==> toks[m].kind != RParen;
    UnterminatedFrom(toks, 0, k, Addition, None, None);
  }

  /** Dropping a prefix cannot leave an lparen unterminated. */
  lemma TerminatedSuffix(toks: seq<Token>, n: nat)
    requires n <= |toks| && !Unterminated(toks)
    ensures !Unterminated(toks[n..])
  {
    var tail := toks[n..];
    forall k | 0 <= k < |tail| && tail[k].kind == LParen
      ensures exists m :: k < m < |tail| && tail[m].kind == RParen
    {
      assert toks[n + k].kind == LParen;
      var m :| n + k < m < |toks| && toks[m].kind == RParen;
      assert tail[m - n].kind == RParen;
    }
  }

  /** The first item of a non-empty token sequence without an unterminated
      lparen, and the number of tokens it covers. */
  lemma FirstItem(toks: seq<Token>) returns (first: Item, n: nat)
    requires toks != [] && !Unterminated(toks)
    ensures 0 < n <= |toks| && ItemShape(first) && ItemTokens(first) == toks[..n]
  {
    if toks[0].kind != LParen {
      first, n := Single(toks[0]), 1;
    } else {
      var m :| 0 < m < |toks| && toks[m].kind == RParen;
      assert FindRParen(toks, 1).Some?;
      var j := FindRParen(toks, 1).value;
      first, n := Group(toks[0], toks[1..j], toks[j]), j + 1;
      assert ItemTokens(first) == toks[..n];
    }
  }

  /** Every token sequence without an unterminated lparen splits into
      well-shaped items, so `ParseItems` describes `parse` on all of them. */
  lemma {:induction false} SplitIntoItems(toks: seq<Token>) returns (items: seq<Item>)
    requires !Unterminated(toks)
    ensures AllShaped(items) && Flatten(items) == toks
    decreases |toks|
  {
    if toks == [] {
      return [];
    }
    var first, n := FirstItem(toks);
    TerminatedSuffix(toks, n);
    var rest := SplitIntoItems(toks[n..]);
    items := [first] + rest;
    assert items[0] == first && items[1..] == rest;
    UnconsItems(items);
    assert toks == toks[..n] + toks[n..];
  }
}
