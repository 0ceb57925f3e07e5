/** `boost::lexical_cast<int>` as `parse` uses it on integer token text
    (Interpreter.cpp:92). The library itself is not part of this model; this
    module states the conversion it performs: an optional `+` or `-`, then
    one or more ASCII digits, the value within the range of `int`; any other
    text makes the cast throw. */
module LexicalCast {
  import opened Common
  import opened Lexer

  predicate AllDigits(s: string) {
    forall k :: 0 <= k < |s| ==> IsDigit(s[k])
  }

  function DigitValue(c: char): nat
    requires IsDigit(c)
  {
    c as int - '0' as int
  }

  /** The value of a string of decimal digits, most significant first. */
  function DigitsValue(s: string): nat
    requires AllDigits(s)
  {
    if s == [] then 0 else DigitsValue(s[..|s| - 1]) * 10 + DigitValue(s[|s| - 1])
  }

  function CastToInt(text: string): (r: Option<Int32>)
    ensures r.Some? ==> |text| >= 1 && (IsDigit(text[0]) || text[0] == '+' || text[0] == '-')
    ensures r.Some? && text[0] != '-' ==> r.value >= 0
  {
    if |text| == 0 then None
    else
      var signed := text[0] == '-' || text[0] == '+';
      var digits := if signed then text[1..] else text;
      if |digits| == 0 || !AllDigits(digits) then None
      else
        var v: int := if text[0] == '-' then -(DigitsValue(digits) as int) else DigitsValue(digits);
        if InIntRange(v) then Some(v) else None
  }

  function DigitChar(d: nat): (c: char)
    requires d < 10
    ensures IsDigit(c) && DigitValue(c) == d
  {
    ('0' as int + d) as char
  }

  /** The decimal spelling of a natural number, without leading zeros. */
  function Decimal(n: nat): (s: string)
    decreases n
  {
    if n < 10 then [DigitChar(n)] else Decimal(n / 10) + [DigitChar(n % 10)]
  }

  /** How `int` values are written: a minus sign for negative values. */
  function Spelling(n: int): string {
    if n < 0 then "-" + Decimal(-n) else Decimal(n)
  }

  lemma {:induction false} DecimalValue(n: nat)
    ensures |Decimal(n)| >= 1 && AllDigits(Decimal(n)) && DigitsValue(Decimal(n)) == n
    decreases n
  {
    if n >= 10 {
      DecimalValue(n / 10);
      var s := Decimal(n);
      assert s[..|s| - 1] == Decimal(n / 10);
    }
  }

  lemma CastDigits(ds: string)
    requires |ds| >= 1 && AllDigits(ds) && DigitsValue(ds) <= IntMax
    ensures CastToInt(ds) == Some(DigitsValue(ds))
  {
    assert IsDigit(ds[0]);
  }

  lemma CastMinusDigits(ds: string)
    requires |ds| >= 1 && AllDigits(ds) && DigitsValue(ds) <= -IntMin
    ensures CastToInt("-" + ds) == Some(-(DigitsValue(ds) as int))
  {
    assert ("-" + ds)[0] == '-' && ("-" + ds)[1..] == ds;
  }

  /** Casting the spelling of any `int` gives that `int` back. */
  lemma CastSpelling(n: Int32)
    ensures CastToInt(Spelling(n)) == Some(n)
  {
    var m: int := n;
    assert InIntRange(n);
    if m < 0 {
      DecimalValue(-m);
      CastMinusDigits(Decimal(-m));
    } else {
      DecimalValue(m);
      CastDigits(Decimal(m));
    }
  }

  /** On the text of an integer token, which `lex` starts with a character
      that is not `+` or `-`, the cast succeeds exactly when the text is all
      digits and its value fits in an `int`; a run led by a space, a letter or
      any other non-digit is refused. */
  lemma IntegerTokenCast(t: Token)
    requires WellFormed(t) && t.kind == Integer
    ensures CastToInt(t.text).Some? <==> AllDigits(t.text) && DigitsValue(t.text) <= IntMax
    ensures CastToInt(t.text).Some? ==> CastToInt(t.text).value == DigitsValue(t.text)
  {
  }
}
