/**
 * `YantraBhashaValidator.validate_code` (validator.js), the strict
 * validator: the same three passes as the relaxed one, with a segmenter that
 * keeps comments, an exact `]` as the only closer, and whole-statement
 * patterns for each form. The functions state what the method computes;
 * class YantraBhashaValidator runs the steps as the source does and is
 * proved to agree with them.
 */
module StrictValidator {
  import opened JsText
  import opened Language
  import opened Patterns
  import opened StrictChecks
  import opened ValidatorState

  // ---------------------------------------------------------------------
  // Segmenter

  /** What the segmenter does with physical line `raw`, the `i`-th (from 0). */
  function SegStep(st: SegState, raw: string, i: nat): SegState {
    var start := if st.buffer == "" then i + 1 else st.start;
    var t := Trim(raw);
    if t == "" || "#" <= t then st.(start := start)
    else
      var inLoop := st.inLoop || "MALLI-MALLI(" <= t;
      var buffer := st.buffer + (if st.buffer == "" then "" else "\n") + t;
      if inLoop then
        if EndsWithParenOpener(buffer) then SegState(st.done + [Stmt(buffer, start)], "", start, false)
        else SegState(st.done, buffer, start, true)
      else if ClosesStatement(buffer) then SegState(st.done + [Stmt(buffer, start)], "", start, false)
      else SegState(st.done, buffer, start, false)
  }

  /** The segmenter's state after the first `n` physical lines. */
  function SegRun(lines: seq<string>, n: nat): SegState
    requires n <= |lines|
  {
    if n == 0 then SegState([], "", 0, false) else SegStep(SegRun(lines, n - 1), lines[n - 1], n - 1)
  }

  /** `processed_lines`: the statements, with a leftover buffer flushed at the end. */
  function Segment(code: string): seq<Stmt> {
    var lines := SplitLines(code);
    Flush(SegRun(lines, |lines|))
  }

  /**
   * One pass of the segmenting loop, on physical line `current`, the `i`-th
   * (from 0); a `return` is the source's `continue`.
   */
  method SegmentLine(processed: seq<Stmt>, buffer: string, start: int, inLoop: bool, current: string, i: nat)
    returns (processed': seq<Stmt>, buffer': string, start': int, inLoop': bool)
    ensures SegState(processed', buffer', start', inLoop') == SegStep(SegState(processed, buffer, start, inLoop), current, i)
  {
    processed', buffer', start', inLoop' := processed, buffer, start, inLoop;
    if buffer == "" {
      start' := i + 1;
    }
    var line := Trim(current);
    if line == "" || "#" <= line {
      return;
    }
    if !inLoop && "MALLI-MALLI(" <= line {
      inLoop' := true;
    }
    buffer' := buffer + (if buffer == "" then "" else "\n") + line;
    if inLoop' {
      if EndsWithParenOpener(buffer') {
        processed' := processed + [Stmt(buffer', start')];
        buffer' := "";
        inLoop' := false;
      }
      return;
    }
    if ClosesStatement(buffer') {
      processed' := processed + [Stmt(buffer', start')];
      buffer' := "";
    }
  }

  // ---------------------------------------------------------------------
  // Statement patterns

  /**
   * `\s*(.+)` up to the last character of `s`, from `i`: the greedy spaces
   * give back one character when nothing else is left for `.+`.
   */
  function TextBeforeLast(s: string, i: nat): (r: Option<string>)
    requires i < |s|
    ensures r.Some? ==> |r.value| > 0
  {
    var last := |s| - 1;
    var w := SkipSpaces(s, i);
    if w < last then Some(s[w..last])
    else if i < last then Some(s[last - 1..last])
    else None
  }

  /** The captures of a declaration: name, type and the initializer when there is one. */
  datatype Declaration = Declaration(name: string, ty: Ty, value: Option<string>)

  /** `^PADAM\s+(\w+)\s*:\s*(VARTTAI|ANKHE)\s*(=\s*(.+))?\s*;$` (flag `s`) */
  function MatchDeclaration(s: string): (r: Option<Declaration>)
    ensures r.Some? ==> IsWord(r.value.name) && EndsWith(s, ";") && DeclHead(s).Some?
  {
    if !EndsWith(s, ";") then None
    else match DeclHead(s)
      case None => None
      case Some((name, ty, e)) =>
        var last := |s| - 1;
        var u := SkipSpaces(s, e);
        if u == last then Some(Declaration(name, ty, None))
        else if u < last && s[u] == '=' then
          match TextBeforeLast(s, u + 1)
          case None => None
          case Some(v) => Some(Declaration(name, ty, Some(v)))
        else None
  }

  /** The captures of an assignment: target and expression. */
  datatype Assignment = Assignment(name: string, expr: string)

  /** `^(\w+)\s*=\s*(.+);$` (flag `s`) */
  function MatchAssignment(s: string): (r: Option<Assignment>)
    ensures r.Some? ==> IsWord(r.value.name) && EndsWith(s, ";") && r.value.name <= s
    ensures r.Some? ==> SkipSpaces(s, WordEnd(s, 0)) < |s| && s[SkipSpaces(s, WordEnd(s, 0))] == '='
  {
    var n := WordEnd(s, 0);
    if !EndsWith(s, ";") || n == 0 then None
    else
      var u := SkipSpaces(s, n);
      if u >= |s| - 1 || s[u] != '=' then None
      else match TextBeforeLast(s, u + 1)
        case None => None
        case Some(e) =>
          assert IsWord(s[..n]);
          Some(Assignment(s[..n], e))
  }

  /** A print (`CHATIMPU`) or a scan (`CHEPPU`) and its argument, trimmed. */
  datatype IoCall = IoCall(isPrint: bool, arg: string)

  /** `^KW\((.+)\);$` (no `s` flag): the text between the parentheses. */
  function CallArgument(s: string, kw: string): (r: Option<string>)
    ensures r.Some? ==> |r.value| > 0 && NoTerminators(r.value)
  {
    if kw + "(" <= s && |s| >= |kw| + 4 && s[|s| - 2..] == ");" && NoTerminators(s[|kw| + 1..|s| - 2])
    then Some(s[|kw| + 1..|s| - 2])
    else None
  }

  /** `^CHATIMPU\((.+)\);$` or `^CHEPPU\((.+)\);$` */
  function MatchIo(s: string): (r: Option<IoCall>)
    ensures r.Some? ==> EndsWith(s, ";") && (if r.value.isPrint then "CHATIMPU(" else "CHEPPU(") <= s
  {
    match CallArgument(s, "CHATIMPU")
    case Some(a) => Some(IoCall(true, Trim(a)))
    case None =>
      match CallArgument(s, "CHEPPU")
      case Some(a) => Some(IoCall(false, Trim(a)))
      case None => None
  }

  /** Starts and ends with `"` (one `"` alone does both). */
  predicate QuoteDelimited(s: string) {
    |s| > 0 && s[0] == '"' && s[|s| - 1] == '"'
  }

  const InvalidCondition := "Invalid condition in ELAITHE."

  function InvalidAssignment(ty: Ty, name: string): string {
    "Invalid " + TypeWord(ty) + " assignment to '" + name + "'."
  }

  function InvalidValue(ty: Ty, name: string): string {
    "Invalid " + TypeWord(ty) + " value for '" + name + "'."
  }

  // ---------------------------------------------------------------------
  // Classifier

  /** A declaration: reserved and declared names are reported; otherwise the name is declared, then its initializer checked. */
  function Declared(st: CheckState, d: Declaration, n: int): CheckState {
    if IsReserved(d.name) then Emit(st, n, ReservedName(d.name))
    else if d.name in st.table then Emit(st, n, AlreadyDeclared(d.name))
    else
      var st2 := st.(table := st.table[d.name := d.ty]);
      if d.value.Some? && !CheckTypeValue(d.ty, Trim(d.value.value)) then Emit(st2, n, InvalidValue(d.ty, d.name))
      else st2
  }

  /** The target is declared and `check_expr_type` accepts the value for its type. */
  predicate Fits(table: Table, a: Assignment) {
    a.name in table && CheckExprType(table, table[a.name], Trim(a.expr))
  }

  /** An assignment, given whether it `Fits`: the target must be declared and the value must fit its type. */
  function Assigned(st: CheckState, a: Assignment, fits: bool, n: int): CheckState {
    if a.name !in st.table then Emit(st, n, UndeclaredTarget(a.name))
    else if !fits then Emit(st, n, InvalidAssignment(st.table[a.name], a.name))
    else st
  }

  /** A print or scan: a quoted argument passes, anything else must be a declared name. */
  function InOut(st: CheckState, c: IoCall, n: int): CheckState {
    if QuoteDelimited(c.arg) || c.arg in st.table then st
    else Emit(st, n, UndeclaredInIo(c.arg, c.isPrint))
  }

  /** An `ELAITHE` header, given whether its condition passes `validate_condition`. */
  function Conditional(st: CheckState, valid: bool, n: int): CheckState {
    if valid then st else Emit(st, n, InvalidCondition)
  }

  /** A statement of no known form: one report. */
  function Unrecognised(st: CheckState, line: string, n: int): CheckState {
    if !EndsWith(line, ";") && !EndsWithOpener(line) then Emit(st, n, MissingSemicolon)
    else Emit(st, n, UnknownStatement)
  }

  /** The forms tried in order on a statement that is not a closer; the first that matches decides. */
  function Classify(st: CheckState, line: string, n: int): CheckState {
    match MatchDeclaration(line)
    case Some(d) => Declared(st, d, n)
    case None =>
      match MatchAssignment(line)
      case Some(a) => Assigned(st, a, Fits(st.table, a), n)
      case None =>
        match MatchIo(line)
        case Some(c) => InOut(st, c, n)
        case None =>
          match BracketHeader(line, "ELAITHE", false)
          case Some(c) => Conditional(st, ValidateCondition(st.table, Trim(c)), n)
          case None =>
            if IsElseOpener(line) then st
            else match BracketHeader(line, "MALLI-MALLI", true)
              case Some(h) => LoopVerdict(st, ValidateLoop(Trim(h)), Trim(h), n)
              case None => Unrecognised(st, line, n)
  }

  /** A statement ending in `[` opens a block at line `n`. */
  function Open(st: CheckState, line: string, n: int): CheckState {
    if EndsWithOpener(line) then st.(blocks := st.blocks + [n]) else st
  }

  /** One pass of the statement loop. */
  function Step(st: CheckState, s: Stmt): CheckState {
    var line := Trim(s.text);
    if line == "" || "#" <= line then st
    else if line == "]" then CloseInnermost(st, s.line)
    else Classify(Open(st, line, s.line), line, s.line)
  }

  /** The state after the first `k` statements. */
  function Run(stmts: seq<Stmt>, k: nat): CheckState
    requires k <= |stmts|
  {
    Fold(Step, stmts, k)
  }

  /** The state after every statement of `code`. */
  function Checked(code: string): CheckState {
    var stmts := Segment(code);
    Run(stmts, |stmts|)
  }

  /** The list `validate_code` returns. */
  function Diagnostics(code: string): seq<Diagnostic> {
    var st := Checked(code);
    st.errors + MissingClosers(st.blocks)
  }

  // ---------------------------------------------------------------------
  // The validator

  class YantraBhashaValidator {
    var variableTable: Table
    var errorList: seq<Diagnostic>

    constructor()
      ensures variableTable == map[] && errorList == []
    {
      variableTable := map[];
      errorList := [];
    }

    /**
     * `validate_code`. The table and the list are reset first, so the result
     * depends on `code` alone.
     */
    method ValidateCode(code: string) returns (errors: seq<Diagnostic>)
      modifies this
      ensures errors == errorList == Diagnostics(code)
      ensures variableTable == Checked(code).table
    {
      variableTable := map[];
      errorList := [];
      var processed := SegmentLines(SplitLines(code));
      var openBlocks := CheckStatements(processed);
      ReportUnclosed(openBlocks);
      errors := errorList;
    }

    /** The segmenting loop over the physical lines. */
    method SegmentLines(rawLines: seq<string>) returns (processed: seq<Stmt>)
      ensures processed == Flush(SegRun(rawLines, |rawLines|))
    {
      processed := [];
      var buffer := "";
      var start := 0;
      var inLoop := false;
      for i := 0 to |rawLines|
        invariant SegState(processed, buffer, start, inLoop) == SegRun(rawLines, i)
      {
        processed, buffer, start, inLoop := SegmentLine(processed, buffer, start, inLoop, rawLines[i], i);
      }
      if buffer != "" {
        processed := processed + [Stmt(buffer, start)];
      }
    }

    /** The statement loop, from an empty table and list. */
    method CheckStatements(processed: seq<Stmt>) returns (openBlocks: seq<int>)
      modifies this
      requires variableTable == map[] && errorList == []
      ensures CheckState(variableTable, errorList, openBlocks) == Run(processed, |processed|)
    {
      openBlocks := [];
      for idx := 0 to |processed|
        invariant CheckState(variableTable, errorList, openBlocks) == Run(processed, idx)
      {
        openBlocks := CheckStatement(processed[idx], openBlocks);
      }
    }

    /** The closing pass: one diagnostic per block left open, innermost last. */
    method ReportUnclosed(openBlocks: seq<int>)
      modifies this
      ensures errorList == old(errorList) + MissingClosers(openBlocks)
      ensures variableTable == old(variableTable)
    {
      for j := 0 to |openBlocks|
        invariant errorList == old(errorList) + MissingClosers(openBlocks[..j])
        invariant variableTable == old(variableTable)
      {
        errorList := errorList + [Diagnostic(openBlocks[j], MissingCloser)];
        MissingClosersSnoc(openBlocks, j);
      }
      assert openBlocks[..|openBlocks|] == openBlocks;
    }

    /** The body of the statement loop for one statement, given the open blocks. */
    method CheckStatement(s: Stmt, blocks: seq<int>) returns (openBlocks: seq<int>)
      modifies this
      ensures CheckState(variableTable, errorList, openBlocks) == Step(CheckState(old(variableTable), old(errorList), blocks), s)
    {
      openBlocks := blocks;
      var n := s.line;
      var line := Trim(s.text);
      if line == "" || "#" <= line {
      } else if line == "]" {
        if openBlocks == [] {
          errorList := errorList + [Diagnostic(n, UnmatchedCloser)];
        } else {
          openBlocks := openBlocks[..|openBlocks| - 1];
        }
      } else {
        if EndsWithOpener(line) {
          openBlocks := openBlocks + [n];
        }
        ClassifyStatement(line, n, openBlocks);
      }
    }

    /** The forms tried in order; each `continue` of the source ends a branch. */
    method ClassifyStatement(line: string, n: int, blocks: seq<int>)
      modifies this
      ensures CheckState(variableTable, errorList, blocks) == Classify(CheckState(old(variableTable), old(errorList), blocks), line, n)
    {
      var declMatch := MatchDeclaration(line);
      if declMatch.Some? {
        Declare(declMatch.value, n, blocks);
        return;
      }
      var assignMatch := MatchAssignment(line);
      if assignMatch.Some? {
        var fits := Fits(variableTable, assignMatch.value);
        Assign(assignMatch.value, fits, n, blocks);
        return;
      }
      var ioMatch := MatchIo(line);
      if ioMatch.Some? {
        InputOutput(ioMatch.value, n, blocks);
        return;
      }
      var ifStart := BracketHeader(line, "ELAITHE", false);
      if ifStart.Some? {
        var valid := ValidateCondition(variableTable, Trim(ifStart.value));
        if !valid {
          errorList := errorList + [Diagnostic(n, InvalidCondition)];
        }
        return;
      }
      if IsElseOpener(line) {
        return;
      }
      var loopStart := BracketHeader(line, "MALLI-MALLI", true);
      if loopStart.Some? {
        var header := Trim(loopStart.value);
        var valid := ValidateLoop(header);
        Loop(valid, header, n, blocks);
        return;
      }
      if !EndsWith(line, ";") && !EndsWithOpener(line) {
        errorList := errorList + [Diagnostic(n, MissingSemicolon)];
      } else {
        errorList := errorList + [Diagnostic(n, UnknownStatement)];
      }
    }

    method Declare(d: Declaration, n: int, blocks: seq<int>)
      modifies this
      ensures CheckState(variableTable, errorList, blocks) == Declared(CheckState(old(variableTable), old(errorList), blocks), d, n)
    {
      if IsReserved(d.name) {
        errorList := errorList + [Diagnostic(n, ReservedName(d.name))];
      } else if d.name in variableTable {
        errorList := errorList + [Diagnostic(n, AlreadyDeclared(d.name))];
      } else {
        variableTable := variableTable[d.name := d.ty];
        if d.value.Some? && !CheckTypeValue(d.ty, Trim(d.value.value)) {
          errorList := errorList + [Diagnostic(n, InvalidValue(d.ty, d.name))];
        }
      }
    }

    /** An assignment, given whether its value fits the target's type. */
    method Assign(a: Assignment, fits: bool, n: int, blocks: seq<int>)
      modifies this
      ensures CheckState(variableTable, errorList, blocks) == Assigned(CheckState(old(variableTable), old(errorList), blocks), a, fits, n)
    {
      if a.name !in variableTable {
        errorList := errorList + [Diagnostic(n, UndeclaredTarget(a.name))];
      } else if !fits {
        errorList := errorList + [Diagnostic(n, InvalidAssignment(variableTable[a.name], a.name))];
      }
    }

    method InputOutput(c: IoCall, n: int, blocks: seq<int>)
      modifies this
      ensures CheckState(variableTable, errorList, blocks) == InOut(CheckState(old(variableTable), old(errorList), blocks), c, n)
    {
      if QuoteDelimited(c.arg) {
      } else if c.arg !in variableTable {
        errorList := errorList + [Diagnostic(n, UndeclaredInIo(c.arg, c.isPrint))];
      }
    }

    /** A loop header: reported when invalid, else its declared variable becomes `ANKHE`. */
    method Loop(valid: bool, header: string, n: int, blocks: seq<int>)
      modifies this
      ensures CheckState(variableTable, errorList, blocks) == LoopVerdict(CheckState(old(variableTable), old(errorList), blocks), valid, header, n)
    {
      if !valid {
        errorList := errorList + [Diagnostic(n, InvalidLoop)];
      } else {
        var declVar := LoopDeclVar(Split(header, ';')[0]);
        if declVar.Some? {
          variableTable := variableTable[declVar.value := ANKHE];
        }
      }
    }
  }
}
