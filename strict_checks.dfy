/**
 * The value, expression, loop-header and condition checks of the strict
 * validator (`YantraBhashaValidator` in validator.js), as predicates over the
 * symbol table.
 */
module StrictChecks {
  import opened JsText
  import opened Language
  import opened Patterns

  /** `check_type_value`, on a value the caller has already trimmed. */
  predicate CheckTypeValue(ty: Ty, value: string) {
    if ty == ANKHE then IsIntLiteral(value) else IsQuoted(value)
  }

  /** A name the table holds as `ANKHE`. */
  predicate IsIntegerVariable(table: Table, t: string) {
    t in table && table[t] == ANKHE
  }

  /**
   * `expr.replace(/\b\w+\b/g, ...)` on the tokens of `expr`: every word that
   * names an `ANKHE` variable becomes `1`, everything else is kept.
   */
  function ReplaceIntegerWords(table: Table, ts: seq<string>): (r: seq<string>)
    ensures |r| == |ts|
  {
    if ts == [] then []
    else [if IsWord(ts[0]) && IsIntegerVariable(table, ts[0]) then "1" else ts[0]] + ReplaceIntegerWords(table, ts[1..])
  }

  /** The text `replaced` holds in `check_expr_type`. */
  function Replaced(table: Table, expr: string): string {
    Concat(ReplaceIntegerWords(table, Tokens(expr)))
  }

  /**
   * `check_expr_type`: for `ANKHE`, an integer literal, or a text that is
   * only digits, white space and `+-*\/()` once its integer variables read
   * `1`; for `VARTTAI`, a quoted literal or a variable declared `VARTTAI`.
   */
  predicate CheckExprType(table: Table, ty: Ty, expr: string) {
    var e := Trim(expr);
    if ty == ANKHE then IsIntLiteral(e) || IsArithChars(Replaced(table, e))
    else IsQuoted(e) || (IsIdentifier(e) && e in table && table[e] == VARTTAI)
  }

  /** `.map(p => p.trim()).filter(Boolean)` */
  function TrimmedNonEmpty(parts: seq<string>): (r: seq<string>)
    ensures |r| <= |parts|
    ensures forall i :: 0 <= i < |r| ==> r[i] != ""
  {
    if parts == [] then []
    else (if Trim(parts[0]) == "" then [] else [Trim(parts[0])]) + TrimmedNonEmpty(parts[1..])
  }

  /**
   * `validate_loop`: three non-empty `;`-parts once empty ones are dropped,
   * `PADAM v:ANKHE = <int>`, `w <op> <int>` and `u = u + 1`; the three
   * names need not agree.
   */
  predicate ValidateLoop(header: string) {
    var parts := TrimmedNonEmpty(Split(header, ';'));
    && |parts| == 3
    && LoopDeclVar(parts[0]).Some?
    && MatchComparison(parts[1], IntBound).Some?
    && UpdateVar(parts[2]).Some?
  }

  const OrderingOps: seq<string> := ["<", ">", "<=", ">="]

  /** `^(-?\d+|\w+)$` */
  predicate IsSimpleOperand(s: string) {
    IsIntLiteral(s) || IsWord(s)
  }

  /**
   * `validate_condition`: a comparison whose left side is declared; a string
   * variable may not be ordered, and an integer variable must be compared
   * with one literal or one word.
   */
  predicate ValidateCondition(table: Table, cond: string) {
    match MatchComparison(cond, AnyText)
    case None => false
    case Some(c) =>
      && c.name in table
      && !(table[c.name] == VARTTAI && c.op in OrderingOps)
      && !(table[c.name] == ANKHE && !IsSimpleOperand(Trim(c.rest)))
  }

  // ---------------------------------------------------------------------
  // Properties

  lemma {:induction false} ReplaceIntegerWordsAt(table: Table, ts: seq<string>)
    ensures forall i :: 0 <= i < |ts| ==>
      ReplaceIntegerWords(table, ts)[i] == (if IsWord(ts[i]) && IsIntegerVariable(table, ts[i]) then "1" else ts[i])
  {
    if ts != [] {
      ReplaceIntegerWordsAt(table, ts[1..]);
    }
  }

  /** A character of a piece the replacement keeps is a character of the replaced text. */
  lemma KeptCharSurvives(table: Table, ts: seq<string>, i: nat, j: nat)
    requires i < |ts| && j < |ts[i]|
    requires !(IsWord(ts[i]) && IsIntegerVariable(table, ts[i]))
    ensures ts[i][j] in Concat(ReplaceIntegerWords(table, ts))
  {
    ReplaceIntegerWordsAt(table, ts);
    TokenCharsInConcat(ReplaceIntegerWords(table, ts), i, j);
  }

  /** A text of arithmetic characters holds only such characters. */
  lemma ArithCharsIn(s: string, c: char)
    requires IsArithChars(s) && c in s
    ensures ArithChar(c)
  {
  }

  /** A letter or `_` is not arithmetic. */
  lemma LetterNotArith(c: char)
    requires IsWordChar(c) && !IsDigit(c)
    ensures !ArithChar(c)
  {
  }

  /**
   * The strict integer check accepts no `"`: it would survive the
   * replacement as a character that is not arithmetic.
   */
  lemma IntegerCheckNoQuote(table: Table, expr: string)
    requires CheckExprType(table, ANKHE, expr)
    ensures '"' !in Trim(expr)
  {
    AcceptedIntegerNoQuote(table, Trim(expr));
  }

  lemma AcceptedIntegerNoQuote(table: Table, e: string)
    requires IsIntLiteral(e) || IsArithChars(Replaced(table, e))
    ensures '"' !in e
  {
    if IsIntLiteral(e) {
      IntLiteralChars(e);
    } else if '"' in e {
      var ts := Tokens(e);
      var k :| 0 <= k < |e| && e[k] == '"';
      var i, j := TokenOf(ts, k);
      KeptCharSurvives(table, ts, i, j);
      ArithCharsIn(Replaced(table, e), '"');
    }
  }

  /**
   * The strict integer check accepts no identifier other than a variable
   * declared `ANKHE`: its first character would survive the replacement and
   * is not arithmetic.
   */
  lemma IntegerCheckNamesDeclared(table: Table, expr: string, t: string)
    requires CheckExprType(table, ANKHE, expr)
    requires t in Tokens(Trim(expr)) && IsIdentifier(t)
    ensures IsIntegerVariable(table, t)
  {
    var e := Trim(expr);
    var ts := Tokens(e);
    var i :| 0 <= i < |ts| && ts[i] == t;
    if IsIntLiteral(e) {
      IntLiteralChars(e);
      TokenCharsInConcat(ts, i, 0);
      assert false;
    } else if !IsIntegerVariable(table, t) {
      KeptCharSurvives(table, ts, i, 0);
      ArithCharsIn(Replaced(table, e), t[0]);
      LetterNotArith(t[0]);
      assert false;
    }
  }

  /**
   * No text passes both assignment checks, and no initializer is a literal
   * of both types: a quote would survive the integer check's replacement,
   * and so would the first letter of a string variable.
   */
  lemma ExprTypesExclusive(table: Table, expr: string)
    ensures !(CheckTypeValue(ANKHE, expr) && CheckTypeValue(VARTTAI, expr))
    ensures !(CheckExprType(table, ANKHE, expr) && CheckExprType(table, VARTTAI, expr))
  {
    if IsIntLiteral(expr) && IsQuoted(expr) {
      IntLiteralChars(expr);
      assert false;
    }
    var e := Trim(expr);
    if CheckExprType(table, ANKHE, expr) && CheckExprType(table, VARTTAI, expr) {
      AcceptedIntegerNoQuote(table, e);
      if IsQuoted(e) {
        assert false;
      }
      WordTokens(e);
      IntegerCheckNamesDeclared(table, expr, e);
      assert false;
    }
  }

  /** An initializer accepted in a declaration is accepted in an assignment too. */
  lemma InitializerPassesAssignmentCheck(table: Table, ty: Ty, value: string)
    requires CheckTypeValue(ty, Trim(value))
    ensures CheckExprType(table, ty, value)
  {
  }
}
