/**
 * The expression, loop-header and condition checks of the relaxed validator
 * (`SubmissionService` in backend/src/services/submissionService.js), as
 * predicates over the symbol table. The class that owns the table, and the
 * loop that rewrites the expression for the integer check, are in module
 * RelaxedValidator.
 */
module RelaxedChecks {
  import opened JsText
  import opened Language
  import opened Patterns
  import Arith

  /** `check_type_value`: an initializer is a literal of the declared type. */
  predicate CheckTypeValue(ty: Ty, value: string) {
    var v := Trim(value);
    if ty == ANKHE then IsIntLiteral(v) else IsQuoted(v)
  }

  /** Every token that is one of `names` replaced by `1`, the others kept. */
  function ReplaceTokens(ts: seq<string>, names: seq<string>): (r: seq<string>)
    ensures |r| == |ts|
  {
    if ts == [] then [] else [if ts[0] in names then "1" else ts[0]] + ReplaceTokens(ts[1..], names)
  }

  lemma {:induction false} ReplaceTokensAt(ts: seq<string>, names: seq<string>)
    ensures forall i :: 0 <= i < |ts| ==> ReplaceTokens(ts, names)[i] == (if ts[i] in names then "1" else ts[i])
  {
    if ts != [] {
      ReplaceTokensAt(ts[1..], names);
    }
  }

  /** The text `test_expr` holds once every identifier of `expr` has been replaced by `1`. */
  function Substituted(expr: string): string {
    Concat(ReplaceTokens(Tokens(expr), Identifiers(expr)))
  }

  /** Every name of the list is declared `ANKHE`. */
  predicate AllInteger(table: Table, names: seq<string>) {
    forall i :: 0 <= i < |names| ==> names[i] in table && table[names[i]] == ANKHE
  }

  /**
   * `is_valid_integer_expression`: an integer literal, a variable declared
   * `ANKHE`, or a quote-free expression whose identifiers are all `ANKHE`
   * variables and which, with each identifier read as `1`, is arithmetic that
   * evaluates.
   */
  predicate IntExprOk(table: Table, expr: string) {
    if IsIntLiteral(expr) then true
    else if IsWord(expr) then expr in table && table[expr] == ANKHE
    else if '"' in expr then false
    else
      AllInteger(table, Identifiers(expr)) &&
      IsArithChars(Substituted(expr)) && Arith.Evaluates(Substituted(expr))
  }

  /** `is_valid_string_expression`: a quoted literal or a variable declared `VARTTAI`. */
  predicate StringExprOk(table: Table, expr: string) {
    IsQuoted(expr) || (IsWord(expr) && expr in table && table[expr] == VARTTAI)
  }

  /** `check_expr_type` */
  predicate CheckExprType(table: Table, ty: Ty, expr: string) {
    var e := Trim(expr);
    if ty == ANKHE then IntExprOk(table, e) else StringExprOk(table, e)
  }

  /** `/[\+\-\*\/]/` */
  predicate HasArithOperator(s: string) {
    s != [] && (s[0] in "+-*/" || HasArithOperator(s[1..]))
  }

  const Descriptions: set<string> := {
    "integer literal", "string literal", "integer variable", "string variable",
    "undeclared variable", "mixed string and arithmetic expression",
    "arithmetic expression", "invalid expression" }

  /** `get_expression_type_description`: the first description that fits, in a fixed order. */
  function Describe(table: Table, expr: string): (d: string)
    ensures d in Descriptions
  {
    DescribeTrimmed(table, Trim(expr))
  }

  /** `describe_expr` on an expression already trimmed. */
  function DescribeTrimmed(table: Table, e: string): (d: string)
    ensures d in Descriptions
  {
    if IsIntLiteral(e) then "integer literal"
    else if IsQuoted(e) then "string literal"
    else if IsWord(e) then (if e !in table then "undeclared variable"
                            else if table[e] == ANKHE then "integer variable" else "string variable")
    else if '"' in e then "mixed string and arithmetic expression"
    else if HasArithOperator(e) then "arithmetic expression"
    else "invalid expression"
  }

  /** The `Type mismatch` message of an assignment. */
  function TypeMismatch(table: Table, ty: Ty, name: string, expr: string): string {
    "Type mismatch: Cannot assign " + Describe(table, expr) + " to " + TypeWord(ty) + " variable '" + name + "'."
  }

  /** The message for a declaration whose initializer is not a literal of its type. */
  function InvalidValue(ty: Ty, name: string): string {
    "Invalid " + TypeWord(ty) + " value for '" + name + "'. Expected " +
    (if ty == ANKHE then "integer" else "string in quotes") + "."
  }

  /**
   * `validate_loop`: after white space is collapsed, the header has no `;;`
   * and three non-empty `;`-parts, `PADAM v:ANKHE = <int>`, `v <op> <text>`
   * and `v = v + 1`, all naming the same `v`.
   */
  predicate ValidateLoop(header: string) {
    var normalized := Trim(CollapseSpaces(header));
    var parts := Split(normalized, ';');
    && !Contains(normalized, ";;")
    && |parts| == 3
    && var decl := Trim(parts[0]);
    var cond := Trim(parts[1]);
    var update := Trim(parts[2]);
    && decl != "" && cond != "" && update != ""
    && LoopDeclVar(decl).Some?
    && var v := LoopDeclVar(decl).value;
    && MatchComparison(cond, AnyText).Some?
    && MatchComparison(cond, AnyText).value.name == v
    && UpdateVar(update) == Some(v)
  }

  const OrderingOps: seq<string> := ["<", ">", "<=", ">="]

  /**
   * `validate_condition` (defined, never called by `validate_code`): a
   * string variable may only be compared for (in)equality with a quoted
   * literal or another string variable, an integer variable with an integer
   * literal or another integer variable; an undeclared left side passes.
   */
  predicate ValidateCondition(table: Table, cond: string) {
    match MatchComparison(cond, AnyText)
    case None => false
    case Some(c) =>
      var val := Trim(c.rest);
      if c.name in table && table[c.name] == VARTTAI then
        c.op !in OrderingOps && (IsQuoted(val) || (val in table && table[val] == VARTTAI))
      else if c.name in table && table[c.name] == ANKHE then
        IsIntLiteral(val) || (val in table && table[val] == ANKHE)
      else true
  }

  // ---------------------------------------------------------------------
  // Properties

  /** An integer literal holds no identifier. */
  lemma {:induction false} IntLiteralNoIdentifiers(s: string)
    requires IsIntLiteral(s)
    ensures Identifiers(s) == []
  {
    var ids := Identifiers(s);
    if ids != [] {
      var id := ids[0];
      var ts := Tokens(s);
      FilterIdentifiersIn(ts);
      assert id in ids;
      var i :| 0 <= i < |ts| && ts[i] == id;
      TokenCharsInConcat(ts, i, 0);
      var c := id[0];
      assert c in s;
      var k :| 0 <= k < |s| && s[k] == c;
      IntLiteralChars(s);
      assert false;
    }
  }

  /**
   * The relaxed integer check rejects every expression holding a `"` and
   * every expression naming a variable that is not declared `ANKHE`.
   */
  lemma {:induction false} IntExprOkSound(table: Table, expr: string)
    requires IntExprOk(table, expr)
    ensures '"' !in expr
    ensures forall id :: id in Identifiers(expr) ==> id in table && table[id] == ANKHE
  {
    if IsIntLiteral(expr) {
      IntLiteralNoIdentifiers(expr);
      IntLiteralChars(expr);
    } else if IsWord(expr) {
      WordTokens(expr);
      FilterIdentifiersIn(Tokens(expr));
    } else {
      forall id | id in Identifiers(expr)
        ensures id in table && table[id] == ANKHE
      {
        var i :| 0 <= i < |Identifiers(expr)| && Identifiers(expr)[i] == id;
      }
    }
  }

  /**
   * A value described as a literal or a variable of some type passes the
   * check for that type, so the type-mismatch message never describes the
   * value as having the target's own type.
   */
  lemma OwnTypeDescriptionPasses(table: Table, expr: string)
    ensures Describe(table, expr) in {"integer literal", "integer variable"} ==> CheckExprType(table, ANKHE, expr)
    ensures Describe(table, expr) in {"string literal", "string variable"} ==> CheckExprType(table, VARTTAI, expr)
  {
    if Describe(table, expr) in {"integer literal", "integer variable"} {
      IntegerDescriptionPasses(table, Trim(expr));
    }
    if Describe(table, expr) in {"string literal", "string variable"} {
      StringDescriptionPasses(table, Trim(expr));
    }
  }

  lemma IntegerDescriptionPasses(table: Table, e: string)
    requires DescribeTrimmed(table, e) == "integer literal" || DescribeTrimmed(table, e) == "integer variable"
    ensures IntExprOk(table, e)
  {
    var d := DescribeTrimmed(table, e);
    assert d[0] == 'i' && d[2] == 't';
    if !IsIntLiteral(e) && !IsQuoted(e) && IsWord(e) && e in table && table[e] != ANKHE {
      assert false;
    }
  }

  lemma StringDescriptionPasses(table: Table, e: string)
    requires DescribeTrimmed(table, e) == "string literal" || DescribeTrimmed(table, e) == "string variable"
    ensures StringExprOk(table, e)
  {
    var d := DescribeTrimmed(table, e);
    assert d[0] == 's';
    if !IsQuoted(e) && !IsIntLiteral(e) && IsWord(e) && e in table && table[e] == ANKHE {
      assert false;
    }
  }

  /**
   * No initializer is a literal of both types. A text passes both
   * assignment checks only when it is a run of digits that is also the name
   * of a `VARTTAI` variable, as `PADAM 12:VARTTAI;` can declare.
   */
  lemma ExprTypesOverlap(table: Table, expr: string)
    ensures !(CheckTypeValue(ANKHE, expr) && CheckTypeValue(VARTTAI, expr))
    ensures CheckExprType(table, ANKHE, expr) && CheckExprType(table, VARTTAI, expr) ==>
      var e := Trim(expr); IsIntLiteral(e) && e in table && table[e] == VARTTAI
  {
    var e := Trim(expr);
    if IsIntLiteral(e) && IsQuoted(e) {
      IntLiteralChars(e);
      assert false;
    }
    if IntExprOk(table, e) && StringExprOk(table, e) {
      IntExprOkSound(table, e);
      if IsQuoted(e) {
        assert false;
      }
    }
  }

  /** An initializer accepted in a declaration is accepted in an assignment too. */
  lemma {:induction false} InitializerPassesAssignmentCheck(table: Table, ty: Ty, value: string)
    requires CheckTypeValue(ty, value)
    ensures CheckExprType(table, ty, value)
  {
    TrimIdempotent(value);
  }
}
