/**
 * A stand-in for the `eval(test_expr)` call of the relaxed integer check: a
 * lexer and a recursive-descent recogniser for arithmetic over numbers,
 * `+ - * / **` and parentheses, with white space and comments between
 * tokens. It reports whether the text parses as one such expression;
 * nothing is evaluated. Texts that parse as a call (`(1)(2)`) throw when
 * evaluated, so they are rejected here too. A `/` always reads as division:
 * a text JavaScript reads as a regular-expression literal, such as `/1/`,
 * does not throw under `eval` but is rejected here.
 */
module Arith {
  import opened JsText
  import opened Patterns

  /**
   * Tokens of the arithmetic text. `Bad` stands for what a strict-mode
   * JavaScript lexer turns into an early error here: `++`, `--` and a number
   * with a leading zero (a legacy octal literal).
   */
  datatype ATok = Num | Pow | Sym(c: char) | Bad

  /** End of the run of digits starting at `i`. */
  function DigitsEnd(s: string, i: nat): (j: nat)
    requires i <= |s|
    ensures i <= j <= |s|
    ensures forall k :: i <= k < j ==> IsDigit(s[k])
    ensures j == |s| || !IsDigit(s[j])
    decreases |s| - i
  {
    if i < |s| && IsDigit(s[i]) then DigitsEnd(s, i + 1) else i
  }

  /** Index of the first line terminator at or after `i`, or `|s|`. */
  function LineEnd(s: string, i: nat): (j: nat)
    requires i <= |s|
    ensures i <= j <= |s|
    decreases |s| - i
  {
    if i == |s| || IsLineTerminator(s[i]) then i else LineEnd(s, i + 1)
  }

  // Index just after the first star-slash at or after `i`, if there is one.
  function BlockCommentEnd(s: string, i: nat): (r: Option<nat>)
    requires i <= |s|
    ensures r.Some? ==> i < r.value <= |s|
    decreases |s| - i
  {
    if i + 2 > |s| then None
    else if s[i..i + 2] == "*/" then Some(i + 2)
    else BlockCommentEnd(s, i + 1)
  }

  // The tokens of `s`. White space and comments (double slash to the end of
  // the line, slash-star to the next star-slash) separate tokens; an
  // unterminated block comment is an error.
  function Lex(s: string): seq<ATok>
    decreases |s|
  {
    if s == [] then []
    else if IsSpace(s[0]) then Lex(s[1..])
    else if |s| >= 2 && s[..2] == "//" then Lex(s[LineEnd(s, 2)..])
    else if |s| >= 2 && s[..2] == "/*" then
      match BlockCommentEnd(s, 2)
      case None => [Bad]
      case Some(k) => Lex(s[k..])
    else if IsDigit(s[0]) then
      var n := DigitsEnd(s, 0);
      [if s[0] == '0' && n > 1 then Bad else Num] + Lex(s[n..])
    else if |s| >= 2 && (s[..2] == "++" || s[..2] == "--") then [Bad] + Lex(s[2..])
    else if |s| >= 2 && s[..2] == "**" then [Pow] + Lex(s[2..])
    else [Sym(s[0])] + Lex(s[1..])
  }

  predicate IsBinary(t: ATok) {
    t == Sym('+') || t == Sym('-') || t == Sym('*') || t == Sym('/')
  }

  /**
   * An operand: signs, then a number or a parenthesised expression. Yields
   * where it ends and whether it began with a sign.
   */
  function Operand(ts: seq<ATok>, i: nat): (r: Option<(nat, bool)>)
    requires i <= |ts|
    ensures r.Some? ==> i < r.value.0 <= |ts|
    decreases |ts| - i, 1
  {
    if i == |ts| then None
    else if ts[i] == Sym('+') || ts[i] == Sym('-') then
      match Operand(ts, i + 1)
      case None => None
      case Some((j, _)) => Some((j, true))
    else if ts[i] == Num then Some((i + 1, false))
    else if ts[i] == Sym('(') then
      match Expr(ts, i + 1)
      case None => None
      case Some(j) => if j < |ts| && ts[j] == Sym(')') then Some((j + 1, false)) else None
    else None
  }

  /** An expression starting at `i`: an operand followed by operator-operand pairs. */
  function Expr(ts: seq<ATok>, i: nat): (r: Option<nat>)
    requires i <= |ts|
    ensures r.Some? ==> i < r.value <= |ts|
    decreases |ts| - i, 2
  {
    match Operand(ts, i)
    case None => None
    case Some((j, signed)) => ExprTail(ts, j, signed)
  }

  /**
   * The operator-operand pairs after an operand ending at `j`. A signed
   * operand may not be the base of `**`.
   */
  function ExprTail(ts: seq<ATok>, j: nat, signed: bool): (r: Option<nat>)
    requires j <= |ts|
    ensures r.Some? ==> j <= r.value <= |ts|
    decreases |ts| - j, 0
  {
    if j < |ts| && (IsBinary(ts[j]) || (ts[j] == Pow && !signed)) then
      match Operand(ts, j + 1)
      case None => None
      case Some((k, sg)) => ExprTail(ts, k, sg)
    else if j < |ts| && ts[j] == Pow then None
    else Some(j)
  }

  /** `eval(text)` does not throw: the text is empty of tokens or is exactly one expression. */
  predicate Evaluates(text: string) {
    var ts := Lex(text);
    ts == [] || Expr(ts, 0) == Some(|ts|)
  }

  lemma {:induction false} LexDigits(s: string)
    requires IsDigits(s) && (s[0] != '0' || |s| == 1)
    ensures Lex(s) == [Num]
  {
    var n := DigitsEnd(s, 0);
    assert n == |s|;
    assert s[n..] == [];
  }

  /** Any unsigned integer literal without a leading zero evaluates. */
  lemma NumberEvaluates(s: string)
    requires IsDigits(s) && (s[0] != '0' || |s| == 1)
    ensures Evaluates(s)
  {
    LexDigits(s);
    assert Operand([Num], 0) == Some((1, false));
  }

  /** A regular-expression literal is not arithmetic here, though `eval` accepts it. */
  lemma RegexLiteralRejected()
    ensures !Evaluates("/1/")
  {
    assert Lex("/1/") == [Sym('/'), Num, Sym('/')];
  }
}
