/**
 * What the strict validator (`YantraBhashaValidator.validate_code` in
 * validator.js) does with each statement: the block rule, the effect of each
 * form of the cascade, and the shape of the whole diagnostic list.
 */
module StrictFacts {
  import opened JsText
  import opened Language
  import opened Patterns
  import opened StrictChecks
  import opened StrictValidator
  import opened ValidatorState

  /** A classification that reports at most once and leaves the blocks alone. */
  predicate AtMostOneReport(a: CheckState, b: CheckState, n: int) {
    && Extends(a, b, n)
    && b.blocks == a.blocks
    && |b.errors| <= |a.errors| + 1
  }

  lemma DeclaredReports(st: CheckState, d: Declaration, n: int)
    ensures AtMostOneReport(st, Declared(st, d, n), n)
  {
    if !IsReserved(d.name) && d.name !in st.table {
      var st2 := st.(table := st.table[d.name := d.ty]);
      assert Extends(st, st2, n);
      EmitKeepsExtends(st, st2, n, InvalidValue(d.ty, d.name));
    }
  }

  lemma AssignedReports(st: CheckState, a: Assignment, fits: bool, n: int)
    ensures AtMostOneReport(st, Assigned(st, a, fits, n), n)
  {
  }

  lemma InOutReports(st: CheckState, c: IoCall, n: int)
    ensures AtMostOneReport(st, InOut(st, c, n), n)
  {
  }

  lemma ConditionalReports(st: CheckState, valid: bool, n: int)
    ensures AtMostOneReport(st, Conditional(st, valid, n), n)
  {
  }

  lemma UnrecognisedReports(st: CheckState, line: string, n: int)
    ensures AtMostOneReport(st, Unrecognised(st, line, n), n)
  {
  }

  /** Whichever form a statement takes, the cascade reports it at most once and never touches the blocks. */
  lemma ClassifyReports(st: CheckState, line: string, n: int)
    ensures AtMostOneReport(st, Classify(st, line, n), n)
  {
    match MatchDeclaration(line)
    case Some(d) =>
      ClassifyDeclaration(st, line, n, d);
      DeclaredReports(st, d, n);
    case None =>
      ReportsAfterDeclaration(st, line, n);
  }

  lemma ReportsAfterDeclaration(st: CheckState, line: string, n: int)
    requires MatchDeclaration(line).None?
    ensures AtMostOneReport(st, Classify(st, line, n), n)
  {
    match MatchAssignment(line)
    case Some(a) =>
      ClassifyAssignment(st, line, n, a);
      AssignedReports(st, a, Fits(st.table, a), n);
    case None =>
      match MatchIo(line)
      case Some(c) =>
        ClassifyIo(st, line, n, c);
        InOutReports(st, c, n);
      case None =>
        ReportsAfterIo(st, line, n);
  }

  lemma ReportsAfterIo(st: CheckState, line: string, n: int)
    requires MatchDeclaration(line).None? && MatchAssignment(line).None? && MatchIo(line).None?
    ensures AtMostOneReport(st, Classify(st, line, n), n)
  {
    match BracketHeader(line, "ELAITHE", false)
    case Some(c) =>
      ClassifyCondition(st, line, n, c);
      ConditionalReports(st, ValidateCondition(st.table, Trim(c)), n);
    case None =>
      if IsElseOpener(line) {
        ClassifyElse(st, line, n);
      } else {
        match BracketHeader(line, "MALLI-MALLI", true)
        case Some(h) =>
          ClassifyLoop(st, line, n, h);
          LoopVerdictExtends(st, ValidateLoop(Trim(h)), Trim(h), n);
        case None =>
          ClassifyUnrecognised(st, line, n);
          UnrecognisedReports(st, line, n);
      }
  }

  // Each arm of the cascade, given that the patterns before it failed.

  lemma ClassifyDeclaration(st: CheckState, line: string, n: int, d: Declaration)
    requires MatchDeclaration(line) == Some(d)
    ensures Classify(st, line, n) == Declared(st, d, n)
  {
  }

  lemma ClassifyCondition(st: CheckState, line: string, n: int, c: string)
    requires MatchDeclaration(line).None? && MatchAssignment(line).None? && MatchIo(line).None?
    requires BracketHeader(line, "ELAITHE", false) == Some(c)
    ensures Classify(st, line, n) == Conditional(st, ValidateCondition(st.table, Trim(c)), n)
  {
  }

  lemma ClassifyElse(st: CheckState, line: string, n: int)
    requires MatchDeclaration(line).None? && MatchAssignment(line).None? && MatchIo(line).None?
    requires BracketHeader(line, "ELAITHE", false).None? && IsElseOpener(line)
    ensures Classify(st, line, n) == st
  {
  }

  lemma ClassifyLoop(st: CheckState, line: string, n: int, h: string)
    requires MatchDeclaration(line).None? && MatchAssignment(line).None? && MatchIo(line).None?
    requires BracketHeader(line, "ELAITHE", false).None? && !IsElseOpener(line)
    requires BracketHeader(line, "MALLI-MALLI", true) == Some(h)
    ensures Classify(st, line, n) == LoopVerdict(st, ValidateLoop(Trim(h)), Trim(h), n)
  {
  }

  lemma ClassifyUnrecognised(st: CheckState, line: string, n: int)
    requires MatchDeclaration(line).None? && MatchAssignment(line).None? && MatchIo(line).None?
    requires BracketHeader(line, "ELAITHE", false).None? && !IsElseOpener(line)
    requires BracketHeader(line, "MALLI-MALLI", true).None?
    ensures Classify(st, line, n) == Unrecognised(st, line, n)
  {
  }

  /**
   * One statement adds at most one diagnostic, at the statement's line, and
   * no name leaves the table.
   */
  lemma StepReports(st: CheckState, s: Stmt)
    ensures Extends(st, Step(st, s), s.line)
    ensures |Step(st, s).errors| <= |st.errors| + 1
  {
    var line := Trim(s.text);
    if line == "" || "#" <= line {
    } else if line == "]" {
      CloseInnermostEffect(st, s.line);
    } else {
      var o := Open(st, line, s.line);
      assert Extends(st, o, s.line);
      var r := Classify(o, line, s.line);
      ClassifyReports(o, line, s.line);
      ExtendsTrans(st, o, r, s.line);
    }
  }

  /**
   * The strict block rule: blank and comment statements change nothing; only
   * a statement that is exactly `]` closes a block, or is reported when none
   * is open; every other statement opens a block exactly when it ends in `[`.
   */
  lemma StepBlocks(st: CheckState, s: Stmt)
    ensures var r := Step(st, s);
      var line := Trim(s.text);
      && (line == "" || "#" <= line ==> r == st)
      && (line == "]" ==>
            && r.table == st.table
            && r.blocks == Pop(st.blocks)
            && (st.blocks == [] <==> r.errors == st.errors + [Diagnostic(s.line, UnmatchedCloser)]))
      && (line != "" && !("#" <= line) && line != "]" ==>
            r.blocks == (if EndsWithOpener(line) then st.blocks + [s.line] else st.blocks))
  {
    var line := Trim(s.text);
    if line == "" || "#" <= line {
    } else if line == "]" {
      CloseInnermostEffect(st, s.line);
    } else {
      var o := Open(st, line, s.line);
      ClassifyReports(o, line, s.line);
    }
  }

  /** A statement that passes the declaration pattern is neither blank, a comment nor a closer. */
  lemma DeclarationIsStatement(line: string)
    requires MatchDeclaration(line).Some?
    ensures line != "" && !("#" <= line) && line != "]" && !EndsWithOpener(line)
  {
    assert line[0] == 'P';
  }

  /** A statement that is not blank, a comment or a closer goes through the cascade, after its opener if any. */
  lemma StepClassifies(st: CheckState, s: Stmt)
    requires var line := Trim(s.text); line != "" && !("#" <= line) && line != "]"
    ensures var line := Trim(s.text); Step(st, s) == Classify(Open(st, line, s.line), line, s.line)
  {
  }

  /** The effect of a declaration on the state. */
  lemma DeclaredEffect(st: CheckState, d: Declaration, n: int)
    ensures var r := Declared(st, d, n);
      && r.blocks == st.blocks
      && (IsReserved(d.name) ==>
            r.table == st.table && r.errors == st.errors + [Diagnostic(n, ReservedName(d.name))])
      && (!IsReserved(d.name) && d.name in st.table ==>
            r.table == st.table && r.errors == st.errors + [Diagnostic(n, AlreadyDeclared(d.name))])
      && (!IsReserved(d.name) && d.name !in st.table ==>
            && r.table == st.table[d.name := d.ty]
            && (r.errors == st.errors <==> d.value.None? || CheckTypeValue(d.ty, Trim(d.value.value)))
            && (r.errors != st.errors ==> r.errors == st.errors + [Diagnostic(n, InvalidValue(d.ty, d.name))]))
  {
  }

  /**
   * A declaration statement: a reserved or already declared name is
   * reported and leaves the table as it was; a new name is declared with its
   * type even when its initializer is then rejected as "Invalid <type>
   * value".
   */
  lemma StepDeclaration(st: CheckState, s: Stmt, d: Declaration)
    requires MatchDeclaration(Trim(s.text)) == Some(d)
    ensures Step(st, s) == Declared(st, d, s.line)
  {
    var line := Trim(s.text);
    DeclarationIsStatement(line);
    StepClassifies(st, s);
    NothingOpened(st, line, s.line);
    ClassifyDeclaration(st, line, s.line, d);
  }

  // ---------------------------------------------------------------------
  // Which form a statement takes: the patterns tried first never match the
  // statements of a later form, so each form's lemma needs only its own match.

  /** A word that starts `s` ends where the first non-word character is. */
  lemma WordEndAt(s: string, k: nat)
    requires 0 < k < |s| && !IsWordChar(s[k])
    requires forall i :: 0 <= i < k ==> IsWordChar(s[i])
    ensures WordEnd(s, 0) == k
  {
  }

  /** The keywords that start the forms after the declaration are words. */
  lemma KeywordsAreWords()
    ensures IsWord("CHATIMPU") && IsWord("CHEPPU") && IsWord("ELAITHE") && IsWord("ALAITHE") && IsWord("MALLI")
  {
  }

  /** After a keyword and optional spaces comes a character other than `=`: no assignment. */
  lemma NotAssignment(s: string, kw: string)
    requires IsWord(kw) && |kw| < |s| && kw <= s && !IsWordChar(s[|kw|])
    requires SkipSpaces(s, |kw|) == |s| || s[SkipSpaces(s, |kw|)] != '='
    ensures MatchAssignment(s).None?
  {
    WordEndAt(s, |kw|);
  }

  /** A text whose first word is followed by `=` does not start a declaration. */
  lemma AssignmentNotDeclaration(s: string)
    requires SkipSpaces(s, WordEnd(s, 0)) < |s| && s[SkipSpaces(s, WordEnd(s, 0))] == '='
    ensures DeclHead(s).None?
  {
    if DeclHead(s).Some? {
      WordEndAt(s, 5);
    }
  }

  /** A print or scan call is neither a declaration nor an assignment. */
  lemma IoNotEarlier(s: string)
    requires MatchIo(s).Some?
    ensures DeclHead(s).None? && MatchAssignment(s).None?
  {
    if MatchIo(s).value.isPrint {
      CallNotEarlier(s, "CHATIMPU");
    } else {
      CallNotEarlier(s, "CHEPPU");
    }
  }

  /** A text starting with `CHATIMPU(` or `CHEPPU(` is neither a declaration nor an assignment. */
  lemma CallNotEarlier(s: string, kw: string)
    requires kw == "CHATIMPU" || kw == "CHEPPU"
    requires kw + "(" <= s
    ensures DeclHead(s).None? && MatchAssignment(s).None?
  {
    assert s[|kw|] == '(' && s[0] == 'C';
    KeywordsAreWords();
    NotAssignment(s, kw);
  }

  /** An `ELAITHE` header is no declaration, assignment, print or scan. */
  lemma ConditionNotEarlier(s: string)
    requires BracketHeader(s, "ELAITHE", false).Some?
    ensures DeclHead(s).None? && MatchAssignment(s).None? && MatchIo(s).None?
  {
    KeywordsAreWords();
    NotAssignment(s, "ELAITHE");
  }

  /** An `ALAITHE [` opener matches none of the forms tried before it. */
  lemma ElseNotEarlier(s: string)
    requires IsElseOpener(s)
    ensures DeclHead(s).None? && MatchAssignment(s).None? && MatchIo(s).None?
    ensures BracketHeader(s, "ELAITHE", false).None?
  {
    KeywordsAreWords();
    NotAssignment(s, "ALAITHE");
  }

  /** A `MALLI-MALLI` header matches none of the forms tried before it. */
  lemma LoopNotEarlier(s: string)
    requires BracketHeader(s, "MALLI-MALLI", true).Some?
    ensures DeclHead(s).None? && MatchAssignment(s).None? && MatchIo(s).None?
    ensures BracketHeader(s, "ELAITHE", false).None? && !IsElseOpener(s)
  {
    KeywordsAreWords();
    NotAssignment(s, "MALLI");
  }

  /** A statement that starts with `]` matches no form at all. */
  lemma ClosingPrefixNoForm(s: string)
    requires |s| > 0 && s[0] == ']'
    ensures DeclHead(s).None? && MatchAssignment(s).None? && MatchIo(s).None?
    ensures BracketHeader(s, "ELAITHE", false).None? && !IsElseOpener(s)
    ensures BracketHeader(s, "MALLI-MALLI", true).None?
  {
  }

  // ---------------------------------------------------------------------
  // Each form, statement by statement

  lemma ClassifyAssignment(st: CheckState, line: string, n: int, a: Assignment)
    requires MatchAssignment(line) == Some(a)
    ensures Classify(st, line, n) == Assigned(st, a, Fits(st.table, a), n)
  {
    AssignmentNotDeclaration(line);
  }

  /** A statement of the assignment form is handled as an assignment. */
  lemma StepAssignment(st: CheckState, s: Stmt, a: Assignment)
    requires MatchAssignment(Trim(s.text)) == Some(a)
    ensures Step(st, s) == Assigned(st, a, Fits(st.table, a), s.line)
  {
    var line := Trim(s.text);
    AssignmentIsStatement(line, a);
    StepClassifies(st, s);
    NothingOpened(st, line, s.line);
    ClassifyAssignment(st, line, s.line, a);
  }

  /** A statement that passes the assignment pattern is neither blank, a comment, a closer nor an opener. */
  lemma AssignmentIsStatement(line: string, a: Assignment)
    requires MatchAssignment(line) == Some(a)
    ensures line != "" && !("#" <= line) && line != "]" && !EndsWithOpener(line)
  {
    assert IsWordChar(line[0]);
  }

  /** A statement that does not end in `[` opens nothing. */
  lemma NothingOpened(st: CheckState, line: string, n: int)
    requires !EndsWithOpener(line)
    ensures Open(st, line, n) == st
  {
  }

  /**
   * An assignment leaves the table and the blocks alone; an undeclared
   * target is reported, and a declared one gets "Invalid <type>
   * assignment" exactly when `check_expr_type` rejects the value.
   */
  lemma AssignedEffect(st: CheckState, a: Assignment, n: int)
    ensures var r := Assigned(st, a, Fits(st.table, a), n);
      && r.table == st.table
      && r.blocks == st.blocks
      && (a.name !in st.table ==> r.errors == st.errors + [Diagnostic(n, UndeclaredTarget(a.name))])
      && (a.name in st.table ==>
            && (r.errors == st.errors <==> CheckExprType(st.table, st.table[a.name], Trim(a.expr)))
            && (r.errors != st.errors ==>
                  r.errors == st.errors + [Diagnostic(n, InvalidAssignment(st.table[a.name], a.name))]))
  {
  }

  /**
   * An assignment to an integer variable that draws no report has no `"` in
   * its value, and every identifier in the value is an integer variable.
   */
  lemma IntegerAssignmentAccepted(st: CheckState, a: Assignment, n: int)
    requires IsIntegerVariable(st.table, a.name)
    requires Assigned(st, a, Fits(st.table, a), n).errors == st.errors
    ensures '"' !in Trim(a.expr)
    ensures forall t :: t in Tokens(Trim(a.expr)) && IsIdentifier(t) ==> IsIntegerVariable(st.table, t)
  {
    var e := Trim(a.expr);
    AssignedEffect(st, a, n);
    assert CheckExprType(st.table, ANKHE, e);
    TrimIdempotent(a.expr);
    IntegerCheckNoQuote(st.table, e);
    forall t | t in Tokens(e) && IsIdentifier(t)
      ensures IsIntegerVariable(st.table, t)
    {
      IntegerCheckNamesDeclared(st.table, e, t);
    }
  }

  /** A print or scan statement is handled as one. */
  lemma StepIo(st: CheckState, s: Stmt, c: IoCall)
    requires MatchIo(Trim(s.text)) == Some(c)
    ensures Step(st, s) == InOut(st, c, s.line)
  {
    var line := Trim(s.text);
    IoIsStatement(line, c);
    StepClassifies(st, s);
    NothingOpened(st, line, s.line);
    ClassifyIo(st, line, s.line, c);
  }

  /** A print or scan statement is neither blank, a comment, a closer nor an opener, and no earlier form matches it. */
  lemma IoIsStatement(line: string, c: IoCall)
    requires MatchIo(line) == Some(c)
    ensures line != "" && !("#" <= line) && line != "]" && !EndsWithOpener(line)
    ensures MatchDeclaration(line).None? && MatchAssignment(line).None?
  {
    IoNotEarlier(line);
    assert line[0] == 'C';
  }

  lemma ClassifyIo(st: CheckState, line: string, n: int, c: IoCall)
    requires MatchIo(line) == Some(c)
    requires MatchDeclaration(line).None? && MatchAssignment(line).None?
    ensures Classify(st, line, n) == InOut(st, c, n)
  {
  }

  /**
   * A print or scan is silent exactly when its argument is a quoted
   * literal or a declared name; otherwise it gets one report naming the
   * argument and the kind of call.
   */
  lemma InOutEffect(st: CheckState, c: IoCall, n: int)
    ensures var r := InOut(st, c, n);
      && r.table == st.table
      && r.blocks == st.blocks
      && (r.errors == st.errors <==> QuoteDelimited(c.arg) || c.arg in st.table)
      && (r.errors != st.errors ==> r.errors == st.errors + [Diagnostic(n, UndeclaredInIo(c.arg, c.isPrint))])
  {
  }

  /** An `ELAITHE (...) [` header opens a block and has its condition checked. */
  lemma StepCondition(st: CheckState, s: Stmt, c: string)
    requires BracketHeader(Trim(s.text), "ELAITHE", false) == Some(c)
    ensures Step(st, s) == Conditional(st.(blocks := st.blocks + [s.line]), ValidateCondition(st.table, Trim(c)), s.line)
  {
    var line := Trim(s.text);
    ConditionIsStatement(line);
    StepClassifies(st, s);
    var o := Open(st, line, s.line);
    Opened(st, line, s.line);
    ClassifyCondition(o, line, s.line, c);
  }

  /** An `ELAITHE` header is an opener that no earlier form matches. */
  lemma ConditionIsStatement(line: string)
    requires BracketHeader(line, "ELAITHE", false).Some?
    ensures line != "" && !("#" <= line) && line != "]" && EndsWithOpener(line)
    ensures MatchDeclaration(line).None? && MatchAssignment(line).None? && MatchIo(line).None?
  {
    ConditionNotEarlier(line);
    assert line[0] == 'E';
  }

  /** A statement ending in `[` opens a block at its line. */
  lemma Opened(st: CheckState, line: string, n: int)
    requires EndsWithOpener(line)
    ensures Open(st, line, n) == st.(blocks := st.blocks + [n])
  {
  }

  /** A condition is reported, as "Invalid condition in ELAITHE.", exactly when `validate_condition` rejects it. */
  lemma ConditionalEffect(st: CheckState, valid: bool, n: int)
    ensures var r := Conditional(st, valid, n);
      && r.table == st.table
      && r.blocks == st.blocks
      && (r.errors == st.errors <==> valid)
      && (!valid ==> r.errors == st.errors + [Diagnostic(n, InvalidCondition)])
  {
  }

  /** `ALAITHE [` only opens a block. */
  lemma StepElse(st: CheckState, s: Stmt)
    requires IsElseOpener(Trim(s.text))
    ensures Step(st, s) == st.(blocks := st.blocks + [s.line])
  {
    var line := Trim(s.text);
    ElseIsStatement(line);
    StepClassifies(st, s);
    var o := Open(st, line, s.line);
    Opened(st, line, s.line);
    ClassifyElse(o, line, s.line);
  }

  /** `ALAITHE [` is an opener that no earlier form matches. */
  lemma ElseIsStatement(line: string)
    requires IsElseOpener(line)
    ensures line != "" && !("#" <= line) && line != "]" && EndsWithOpener(line)
    ensures MatchDeclaration(line).None? && MatchAssignment(line).None? && MatchIo(line).None?
    ensures BracketHeader(line, "ELAITHE", false).None?
  {
    ElseNotEarlier(line);
    assert line[0] == 'A';
    var j := SkipSpaces(line, 7);
    assert "[" <= line[j..] && j + 1 == |line|;
  }

  /** A `MALLI-MALLI (...) [` header opens a block and is judged by `validate_loop`. */
  lemma StepLoop(st: CheckState, s: Stmt, h: string)
    requires BracketHeader(Trim(s.text), "MALLI-MALLI", true) == Some(h)
    ensures Step(st, s) == LoopVerdict(st.(blocks := st.blocks + [s.line]), ValidateLoop(Trim(h)), Trim(h), s.line)
  {
    var line := Trim(s.text);
    LoopIsStatement(line);
    StepClassifies(st, s);
    var o := Open(st, line, s.line);
    Opened(st, line, s.line);
    ClassifyLoop(o, line, s.line, h);
  }

  /** A `MALLI-MALLI` header is an opener that no earlier form matches. */
  lemma LoopIsStatement(line: string)
    requires BracketHeader(line, "MALLI-MALLI", true).Some?
    ensures line != "" && !("#" <= line) && line != "]" && EndsWithOpener(line)
    ensures MatchDeclaration(line).None? && MatchAssignment(line).None? && MatchIo(line).None?
    ensures BracketHeader(line, "ELAITHE", false).None? && !IsElseOpener(line)
  {
    LoopNotEarlier(line);
    assert line[0] == 'M';
  }

  /**
   * A statement that starts with `]` but is more than `]` closes nothing:
   * it is a statement of no known form, and opens a block when it ends in
   * `[`.
   */
  lemma StepClosingPrefix(st: CheckState, s: Stmt)
    requires var line := Trim(s.text); |line| > 1 && line[0] == ']'
    ensures var line := Trim(s.text); Step(st, s) == Unrecognised(Open(st, line, s.line), line, s.line)
  {
    var line := Trim(s.text);
    ClosingPrefixNoForm(line);
    assert line != "" && !("#" <= line) && line != "]";
    StepClassifies(st, s);
    ClassifyUnrecognised(Open(st, line, s.line), line, s.line);
  }

  /**
   * `] ALAITHE [` does not close the `ELAITHE` block: it opens one more and
   * is reported as an unknown statement.
   */
  lemma StepCloseElse(st: CheckState, s: Stmt)
    requires IsCloseElse(Trim(s.text))
    ensures Step(st, s) == st.(blocks := st.blocks + [s.line], errors := st.errors + [Diagnostic(s.line, UnknownStatement)])
  {
    var line := Trim(s.text);
    CloseElseUnrecognised(st, line, s.line);
    StepClosingPrefix(st, s);
  }

  /** `] ALAITHE [` is longer than `]`, and as a statement of no known form it opens a block and is reported. */
  lemma CloseElseUnrecognised(st: CheckState, line: string, n: int)
    requires IsCloseElse(line)
    ensures |line| > 1 && line[0] == ']'
    ensures Unrecognised(Open(st, line, n), line, n) == st.(blocks := st.blocks + [n], errors := st.errors + [Diagnostic(n, UnknownStatement)])
  {
    assert "]" <= line && "ALAITHE" <= line[SkipSpaces(line, 1)..];
    assert EndsWithOpener(line);
  }

  /**
   * A statement of no known form gets exactly one report: "Missing
   * semicolon." when it ends in neither `;` nor `[`, "Unknown or invalid
   * statement." otherwise.
   */
  lemma UnrecognisedEffect(st: CheckState, line: string, n: int)
    ensures var r := Unrecognised(st, line, n);
      && r.table == st.table
      && r.blocks == st.blocks
      && |r.errors| == |st.errors| + 1
      && r.errors[..|st.errors|] == st.errors
      && (r.errors[|st.errors|] == Diagnostic(n, MissingSemicolon) <==> !EndsWith(line, ";") && !EndsWithOpener(line))
      && (r.errors[|st.errors|] == Diagnostic(n, UnknownStatement) <==> EndsWith(line, ";") || EndsWithOpener(line))
  {
  }

  // ---------------------------------------------------------------------
  // The whole list

  /**
   * After `k` statements there are at most `k` diagnostics, and every
   * diagnostic and every open block is at the line one of them starts on.
   */
  lemma RunReports(stmts: seq<Stmt>, k: nat)
    requires k <= |stmts|
    ensures |Run(stmts, k).errors| <= k
    ensures AtLines(Run(stmts, k), StartLines(stmts, k))
  {
    forall st: CheckState, s: Stmt
      ensures Extends(st, Step(st, s), s.line) && |Step(st, s).errors| <= |st.errors| + 1
    {
      StepReports(st, s);
    }
    FoldReports(Step, stmts, k);
  }

  /** The same for any step that extends the state and reports at most once. */
  lemma {:induction false} FoldReports(step: (CheckState, Stmt) -> CheckState, stmts: seq<Stmt>, k: nat)
    requires k <= |stmts|
    requires forall st, s :: Extends(st, step(st, s), s.line) && |step(st, s).errors| <= |st.errors| + 1
    ensures |Fold(step, stmts, k).errors| <= k
    ensures AtLines(Fold(step, stmts, k), StartLines(stmts, k))
  {
    if k > 0 {
      FoldReports(step, stmts, k - 1);
      var prev := Fold(step, stmts, k - 1);
      var s := stmts[k - 1];
      StartLinesSnoc(stmts, k);
      ReportsCarry(prev, step(prev, s), s.line, k, StartLines(stmts, k - 1), StartLines(stmts, k));
    }
  }

  /** The induction step of `FoldReports`, apart from the statement that makes it. */
  lemma ReportsCarry(a: CheckState, b: CheckState, n: int, k: int, before: set<int>, after: set<int>)
    requires |a.errors| <= k - 1 && AtLines(a, before) && after == before + {n}
    requires Extends(a, b, n) && |b.errors| <= |a.errors| + 1
    ensures |b.errors| <= k && AtLines(b, after)
  {
    AtMoreLines(a, before, after);
    ExtendsAtLines(a, b, n, after);
  }

  /**
   * Every diagnostic `validate_code` returns is at the line a statement
   * starts on, whether it reports the statement or a block it left open.
   */
  lemma DiagnosticLines(code: string)
    ensures var stmts := Segment(code);
      forall d :: d in Diagnostics(code) ==> d.line in StartLines(stmts, |stmts|)
  {
    var stmts := Segment(code);
    var st := Run(stmts, |stmts|);
    RunReports(stmts, |stmts|);
    assert AtLines(st, StartLines(stmts, |stmts|));
    ReportsAtLines(st, StartLines(stmts, |stmts|));
  }

  // ---------------------------------------------------------------------
  // The loop check does not compare names

  /** Parts that are already trimmed and non-empty are all kept, unchanged. */
  lemma {:induction false} TrimmedNonEmptyKeeps(parts: seq<string>)
    requires forall i :: 0 <= i < |parts| ==> parts[i] != "" && Trim(parts[i]) == parts[i]
    ensures TrimmedNonEmpty(parts) == parts
  {
    if parts != [] {
      TrimmedNonEmptyKeeps(parts[1..]);
      assert parts == [parts[0]] + parts[1..];
    }
  }

  /**
   * A header of three trimmed parts, each passing its own check, passes the
   * loop check whatever names the three parts use: nothing ties the tested
   * or the incremented variable to the declared one.
   */
  lemma LoopFromParts(header: string)
    requires var parts := Split(header, ';');
      && |parts| == 3
      && (forall i :: 0 <= i < 3 ==> parts[i] != "" && Trim(parts[i]) == parts[i])
      && LoopDeclVar(parts[0]).Some? && MatchComparison(parts[1], IntBound).Some? && UpdateVar(parts[2]).Some?
    ensures ValidateLoop(header)
  {
    TrimmedNonEmptyKeeps(Split(header, ';'));
  }
}
