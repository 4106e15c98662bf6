/**
 * `SubmissionService.validate_code` (backend/src/services/submissionService.js),
 * the relaxed validator: a segmenter that folds physical lines into logical
 * statements, a classifier cascade run on each statement, and a closing pass
 * over the blocks left open. The functions state what the method computes;
 * class SubmissionService runs the same steps as the source does, updating
 * its table and error list in place, and is proved to agree with them.
 */
module RelaxedValidator {
  import opened JsText
  import opened Language
  import opened Patterns
  import opened RelaxedChecks
  import opened ValidatorState

  // ---------------------------------------------------------------------
  // Segmenter

  /**
   * Where `/#.*$/` matches: the first `#` with no line terminator after it
   * (`.` stops at terminators and `$` only matches at the very end).
   */
  function CommentStart(s: string, i: nat): (k: nat)
    requires i <= |s|
    ensures i <= k <= |s|
    ensures k < |s| ==> s[k] == '#' && NoTerminators(s[k + 1..])
    decreases |s| - i
  {
    if i == |s| || (s[i] == '#' && NoTerminators(s[i + 1..])) then i else CommentStart(s, i + 1)
  }

  /** `line.replace(/#.*$/, '')` */
  function StripComment(line: string): string {
    line[..CommentStart(line, 0)]
  }

  /** What the segmenter does with physical line `raw`, the `i`-th (from 0). */
  function SegStep(st: SegState, raw: string, i: nat): SegState {
    var start := if st.buffer == "" then i + 1 else st.start;
    var t := Trim(raw);
    if t == "" || "#" <= t then st.(start := start)
    else
      var p := Trim(StripComment(raw));
      if p == "" then st.(start := start)
      else
        var buffer := st.buffer + (if st.buffer == "" then "" else "\n") + p;
        var inLoop := st.inLoop || HasLoopOpener(buffer);
        if inLoop then
          if EndsWithParenOpener(buffer) then SegState(st.done + [Stmt(buffer, start)], "", start, false)
          else SegState(st.done, buffer, start, true)
        else if ClosesStatement(buffer) then SegState(st.done + [Stmt(buffer, start)], "", start, false)
        else SegState(st.done, buffer, start, false)
  }

  /** The state `step` reaches after the first `n` physical lines, from an empty buffer. */
  function SegFold(step: (SegState, string, nat) -> SegState, lines: seq<string>, n: nat): SegState
    requires n <= |lines|
  {
    if n == 0 then SegState([], "", 0, false) else step(SegFold(step, lines, n - 1), lines[n - 1], n - 1)
  }

  /** The segmenter's state after the first `n` physical lines. */
  function SegRun(lines: seq<string>, n: nat): SegState
    requires n <= |lines|
  {
    SegFold(SegStep, lines, n)
  }

  /** `processed_lines`: the statements, with a leftover buffer flushed at the end. */
  function Segment(code: string): seq<Stmt> {
    var lines := SplitLines(code);
    Flush(SegRun(lines, |lines|))
  }

  /**
   * One pass of the segmenting loop, on physical line `current`, the `i`-th
   * (from 0); a `return` is the source's `continue`.
   */
  method SegmentLine(processed: seq<Stmt>, buffer: string, start: int, inLoop: bool, current: string, i: nat)
    returns (processed': seq<Stmt>, buffer': string, start': int, inLoop': bool)
    ensures SegState(processed', buffer', start', inLoop') == SegStep(SegState(processed, buffer, start, inLoop), current, i)
  {
    processed', buffer', start', inLoop' := processed, buffer, start, inLoop;
    if buffer == "" {
      start' := i + 1;
    }
    if Trim(current) == "" || "#" <= Trim(current) {
      return;
    }
    var line := Trim(StripComment(current));
    if line == "" {
      return;
    }
    buffer' := buffer + (if buffer == "" then "" else "\n") + line;
    if !inLoop && HasLoopOpener(buffer') {
      inLoop' := true;
    }
    if inLoop' {
      if EndsWithParenOpener(buffer') {
        processed' := processed + [Stmt(buffer', start')];
        buffer' := "";
        inLoop' := false;
      }
      return;
    }
    if ClosesStatement(buffer') {
      processed' := processed + [Stmt(buffer', start')];
      buffer' := "";
    }
  }

  // ---------------------------------------------------------------------
  // Classifier cascade

  /**
   * A statement between two steps of the cascade: finished (`continue`) or
   * still to be classified, with the text that is left of it.
   */
  datatype Phase = Done(st: CheckState) | Go(st: CheckState, line: string)

  const ElseSemicolonAfter := "Invalid syntax: Remove semicolon between '] ALAITHE' and '['."
  const ElseSemicolonBefore := "Invalid syntax: Remove semicolon between ']' and 'ALAITHE'."
  const ElseSemicolon := "Invalid ALAITHE syntax. Remove semicolon before '['."
  const DeclarationSemicolon := "Missing semicolon in variable declaration."

  /** The statement text trimmed, white space collapsed, and cut at the first `#`. */
  function Normalize(text: string): string {
    var l := CollapseSpaces(Trim(text));
    var k := FindChar(l, '#', 0);
    if k < |l| then Trim(l[..k]) else l
  }

  /**
   * A leading `]` pops a block (or is reported when none is open); what
   * follows it may reopen an `ALAITHE` block or be misplaced semicolons.
   */
  function ClosePhase(st: CheckState, line: string, n: int): Phase {
    if !("]" <= line) then Go(st, line)
    else
      var st1 := CloseInnermost(st, n);
      var remaining := Trim(line[1..]);
      if IsElseOpener(remaining) then Done(st1.(blocks := st1.blocks + [n]))
      else if SpacedPieces(remaining, 0, ["ALAITHE", ";", "["]) then Done(Emit(st1, n, ElseSemicolonAfter))
      else if SpacedPieces(remaining, 0, [";", "ALAITHE", "["]) then Done(Emit(st1, n, ElseSemicolonBefore))
      else if remaining != "" then Go(st1, remaining)
      else Done(st1)
  }

  /** A statement ending in `[` opens a block, unless it is `] ALAITHE [`. */
  function OpenPhase(p: Phase, n: int): Phase {
    if p.Done? then p
    else if EndsWithOpener(p.line) && !IsCloseElse(p.line) then Go(p.st.(blocks := p.st.blocks + [n]), p.line)
    else p
  }

  /** The captures of a declaration and the text after its first `;`, trimmed. */
  datatype Declaration = Declaration(name: string, ty: Ty, value: Option<string>, rest: string)

  /** `^PADAM\s+(\w+)\s*:\s*(VARTTAI|ANKHE)\s*(=\s*([^;]+))?\s*;+` (flag `s`) */
  function MatchDeclaration(s: string): (r: Option<Declaration>)
    ensures r.Some? ==> IsWord(r.value.name)
  {
    match DeclHead(s)
    case None => None
    case Some((name, ty, e)) =>
      var u := SkipSpaces(s, e);
      if u < |s| && s[u] == ';' then Some(Declaration(name, ty, None, Trim(s[u + 1..])))
      else if u < |s| && s[u] == '=' then
        var k := FindChar(s, ';', u + 1);
        if k < |s| && u + 1 < k then Some(Declaration(name, ty, Some(s[u + 1..k]), Trim(s[k + 1..])))
        else None
      else None
  }

  /**
   * A declaration: a reserved or already declared name is reported and the
   * table left alone; otherwise the name is declared, and an initializer that
   * is not a literal of its type is reported.
   */
  function DeclarePhase(p: Phase, n: int): Phase {
    if p.Done? then p
    else match MatchDeclaration(p.line)
      case None => p
      case Some(d) =>
        var st := p.st;
        var st1 :=
          if IsReserved(d.name) then Emit(st, n, ReservedName(d.name))
          else if d.name in st.table then Emit(st, n, AlreadyDeclared(d.name))
          else
            var st2 := st.(table := st.table[d.name := d.ty]);
            if d.value.Some? && !CheckTypeValue(d.ty, Trim(d.value.value)) then Emit(st2, n, InvalidValue(d.ty, d.name))
            else st2;
        if d.rest == "" then Done(st1) else Go(st1, d.rest)
  }

  /** `^PADAM\s+(\w+)\s*:\s*(VARTTAI|ANKHE)(\s*(=\s*([^;]+)))?$` (flag `s`) */
  predicate IsUnterminatedDeclaration(s: string) {
    match DeclHead(s)
    case None => false
    case Some((_, _, e)) =>
      e == |s| ||
      var u := SkipSpaces(s, e);
      u + 1 < |s| && s[u] == '=' && ';' !in s[u + 1..]
  }

  function UnterminatedPhase(p: Phase, n: int): Phase {
    if p.Done? then p
    else if IsUnterminatedDeclaration(p.line) then Done(Emit(p.st, n, DeclarationSemicolon))
    else p
  }

  /** The captures of an assignment and the text after its first `;`, trimmed. */
  datatype Assignment = Assignment(name: string, expr: string, rest: string)

  /** `^(\w+)\s*=\s*([^;]+)\s*;` (flag `s`) */
  function MatchAssignment(s: string): (r: Option<Assignment>)
    ensures r.Some? ==> IsWord(r.value.name)
  {
    var n := WordEnd(s, 0);
    if n == 0 then None
    else
      var u := SkipSpaces(s, n);
      if u == |s| || s[u] != '=' then None
      else
        var k := FindChar(s, ';', u + 1);
        if k == |s| || k == u + 1 then None
        else
          assert IsWord(s[..n]);
          Some(Assignment(s[..n], s[u + 1..k], Trim(s[k + 1..])))
  }

  /** An assignment: the target must be declared and the value must fit its type. */
  function AssignPhase(p: Phase, n: int): Phase {
    if p.Done? then p
    else match MatchAssignment(p.line)
      case None => p
      case Some(a) =>
        var st := p.st;
        var st1 :=
          if a.name !in st.table then Emit(st, n, UndeclaredTarget(a.name))
          else if !CheckExprType(st.table, st.table[a.name], Trim(a.expr)) then
            Emit(st, n, TypeMismatch(st.table, st.table[a.name], a.name, a.expr))
          else st;
        if a.rest == "" then Done(st1) else Go(st1, a.rest)
  }

  /** The trimmed argument of a print or scan and the text after its `;`s, trimmed. */
  datatype IoCall = IoCall(isPrint: bool, arg: string, rest: string)

  /** The first `)` at or after `i` that white space and a `;` follow. */
  function CloseBeforeSemicolon(s: string, i: nat): (r: Option<nat>)
    requires i <= |s|
    ensures r.Some? ==> i <= r.value < |s| && s[r.value] == ')'
    decreases |s| - i
  {
    if i == |s| then None
    else if s[i] == ')' && SkipSpaces(s, i + 1) < |s| && s[SkipSpaces(s, i + 1)] == ';' then Some(i)
    else CloseBeforeSemicolon(s, i + 1)
  }

  /** End of the run of `;` starting at `i`. */
  function SemicolonsEnd(s: string, i: nat): (j: nat)
    requires i <= |s|
    ensures i <= j <= |s|
    decreases |s| - i
  {
    if i < |s| && s[i] == ';' then SemicolonsEnd(s, i + 1) else i
  }

  /** `^KW\s*\(\s*(.*?)\s*\)\s*;+` (flag `s`) after the keyword, of length `kw`. */
  function MatchCall(s: string, kw: nat, isPrint: bool): Option<IoCall>
    requires kw <= |s|
  {
    var u := SkipSpaces(s, kw);
    if u == |s| || s[u] != '(' then None
    else match CloseBeforeSemicolon(s, u + 1)
      case None => None
      case Some(q) => Some(IoCall(isPrint, Trim(s[u + 1..q]), Trim(s[SemicolonsEnd(s, SkipSpaces(s, q + 1))..])))
  }

  /** `CHATIMPU(...)` (print) or `CHEPPU(...)` (scan) */
  function MatchIo(s: string): Option<IoCall> {
    if "CHATIMPU" <= s then MatchCall(s, 8, true)
    else if "CHEPPU" <= s then MatchCall(s, 6, false)
    else None
  }

  /** Starts and ends with `"` (one `"` alone does both). */
  predicate QuoteDelimited(s: string) {
    |s| > 0 && s[0] == '"' && s[|s| - 1] == '"'
  }

  /** A print or scan: a quoted argument passes, anything else must be a declared name. */
  function IoPhase(p: Phase, n: int): Phase {
    if p.Done? then p
    else match MatchIo(p.line)
      case None => p
      case Some(c) =>
        var st1 := if QuoteDelimited(c.arg) || c.arg in p.st.table then p.st
                   else Emit(p.st, n, UndeclaredInIo(c.arg, c.isPrint));
        if c.rest == "" then Done(st1) else Go(st1, c.rest)
  }

  /** `ELAITHE (...) [` and `ALAITHE [` are accepted as they are; `ALAITHE ; [` is reported. */
  function BranchPhase(p: Phase, n: int): Phase {
    if p.Done? then p
    else if BracketHeader(p.line, "ELAITHE", false).Some? || IsElseOpener(p.line) then Done(p.st)
    else if SpacedPieces(p.line, 0, ["ALAITHE", ";", "["]) then Done(Emit(p.st, n, ElseSemicolon))
    else p
  }

  /**
   * A loop header: an invalid one is reported; a valid one declares its
   * variable `ANKHE` when the first `;`-part of the header, untrimmed, is a
   * loop declaration.
   */
  function LoopPhase(p: Phase, n: int): Phase {
    if p.Done? then p
    else match BracketHeader(p.line, "MALLI-MALLI", true)
      case None => p
      case Some(h) => Done(LoopVerdict(p.st, ValidateLoop(Trim(h)), Trim(h), n))
  }

  /** `^PADAM|^ELAITHE|^ALAITHE|^MALLI-MALLI|^CHATIMPU|^CHEPPU|^\w+\s*=|^\]|.*\[$` */
  predicate KnownStart(s: string) {
    || "PADAM" <= s || "ELAITHE" <= s || "ALAITHE" <= s || "MALLI-MALLI" <= s
    || "CHATIMPU" <= s || "CHEPPU" <= s
    || (WordEnd(s, 0) > 0 && SkipSpaces(s, WordEnd(s, 0)) < |s| && s[SkipSpaces(s, WordEnd(s, 0))] == '=')
    || "]" <= s || EndsWithOpener(s)
  }

  /** Whatever is left: a missing `;`, or else a statement of no known form. */
  function FallbackPhase(p: Phase, n: int): Phase {
    if p.Done? then p
    else if !EndsWith(p.line, ";") && !EndsWithOpener(p.line) && !IsCloseElse(p.line) then Done(Emit(p.st, n, MissingSemicolon))
    else if !KnownStart(p.line) then Done(Emit(p.st, n, UnknownStatement))
    else Done(p.st)
  }

  /** One pass of the statement loop. */
  function Step(st: CheckState, s: Stmt): CheckState {
    var line := Normalize(s.text);
    if line == "" then st
    else
      var n := s.line;
      FallbackPhase(LoopPhase(BranchPhase(IoPhase(AssignPhase(UnterminatedPhase(DeclarePhase(
        OpenPhase(ClosePhase(st, line, n), n), n), n), n), n), n), n), n).st
  }

  /** The state after the first `k` statements. */
  function Run(stmts: seq<Stmt>, k: nat): CheckState
    requires k <= |stmts|
  {
    Fold(Step, stmts, k)
  }

  /** The state after every statement of `code`. */
  function Checked(code: string): CheckState {
    var stmts := Segment(code);
    Run(stmts, |stmts|)
  }

  /** The list `validate_code` returns. */
  function Diagnostics(code: string): seq<Diagnostic> {
    var st := Checked(code);
    st.errors + MissingClosers(st.blocks)
  }

  // ---------------------------------------------------------------------
  // The service

  class SubmissionService {
    var variableTable: Table
    var errorList: seq<Diagnostic>

    constructor()
      ensures variableTable == map[] && errorList == []
    {
      variableTable := map[];
      errorList := [];
    }

    /**
     * `validate_code`. The table and the list are reset first, so the result
     * depends on `code` alone.
     */
    method ValidateCode(code: string) returns (errors: seq<Diagnostic>)
      modifies this
      ensures errors == errorList == Diagnostics(code)
      ensures variableTable == Checked(code).table
    {
      variableTable := map[];
      errorList := [];
      var processed := SegmentLines(SplitLines(code));
      var openBlocks := CheckStatements(processed);
      ReportUnclosed(openBlocks);
      errors := errorList;
    }

    /** The segmenting loop over the physical lines. */
    method SegmentLines(rawLines: seq<string>) returns (processed: seq<Stmt>)
      ensures processed == Flush(SegRun(rawLines, |rawLines|))
    {
      processed := [];
      var buffer := "";
      var start := 0;
      var inLoop := false;
      for i := 0 to |rawLines|
        invariant SegState(processed, buffer, start, inLoop) == SegRun(rawLines, i)
      {
        processed, buffer, start, inLoop := SegmentLine(processed, buffer, start, inLoop, rawLines[i], i);
      }
      if buffer != "" {
        processed := processed + [Stmt(buffer, start)];
      }
    }

    /** The statement loop, from an empty table and list. */
    method CheckStatements(processed: seq<Stmt>) returns (openBlocks: seq<int>)
      modifies this
      requires variableTable == map[] && errorList == []
      ensures CheckState(variableTable, errorList, openBlocks) == Run(processed, |processed|)
    {
      openBlocks := [];
      for idx := 0 to |processed|
        invariant CheckState(variableTable, errorList, openBlocks) == Run(processed, idx)
      {
        openBlocks := CheckStatement(processed[idx], openBlocks);
      }
    }

    /** The closing pass: one diagnostic per block left open, innermost last. */
    method ReportUnclosed(openBlocks: seq<int>)
      modifies this
      ensures errorList == old(errorList) + MissingClosers(openBlocks)
      ensures variableTable == old(variableTable)
    {
      for j := 0 to |openBlocks|
        invariant errorList == old(errorList) + MissingClosers(openBlocks[..j])
        invariant variableTable == old(variableTable)
      {
        errorList := errorList + [Diagnostic(openBlocks[j], MissingCloser)];
        MissingClosersSnoc(openBlocks, j);
      }
      assert openBlocks[..|openBlocks|] == openBlocks;
    }

    /** The state a phase leaves: finished, or still to classify `rest`. */
    function Outcome(done: bool, rest: string, blocks: seq<int>): Phase
      reads this
    {
      var st := CheckState(variableTable, errorList, blocks);
      if done then Done(st) else Go(st, rest)
    }

    /**
     * The body of the statement loop for one statement, given the open
     * blocks. `done` stands for the `continue`s of the source; the ghost
     * phase `p` follows the cascade of `Step`.
     */
    method CheckStatement(s: Stmt, blocks: seq<int>) returns (openBlocks: seq<int>)
      modifies this
      ensures CheckState(variableTable, errorList, openBlocks) == Step(CheckState(old(variableTable), old(errorList), blocks), s)
    {
      openBlocks := blocks;
      var n := s.line;
      var line := Normalize(s.text);
      if line == "" {
        return;
      }
      ghost var st0 := CheckState(variableTable, errorList, blocks);
      var done;
      line, openBlocks, done := CloseBlock(line, n, openBlocks);
      ghost var p := ClosePhase(st0, Normalize(s.text), n);

      if !done && EndsWithOpener(line) && !IsCloseElse(line) {
        openBlocks := openBlocks + [n];
      }
      p := OpenPhase(p, n);
      assert Outcome(done, line, openBlocks) == p;

      if !done {
        line, done := Declare(line, n, openBlocks);
      }
      p := DeclarePhase(p, n);
      assert Outcome(done, line, openBlocks) == p;

      if !done {
        done := Unterminated(line, n, openBlocks);
      }
      p := UnterminatedPhase(p, n);
      assert Outcome(done, line, openBlocks) == p;

      if !done {
        line, done := Assign(line, n, openBlocks);
      }
      p := AssignPhase(p, n);
      assert Outcome(done, line, openBlocks) == p;

      if !done {
        line, done := InputOutput(line, n, openBlocks);
      }
      p := IoPhase(p, n);
      assert Outcome(done, line, openBlocks) == p;

      if !done {
        done := Branch(line, n, openBlocks);
      }
      p := BranchPhase(p, n);
      assert Outcome(done, line, openBlocks) == p;

      if !done {
        done := Loop(line, n, openBlocks);
      }
      p := LoopPhase(p, n);
      assert Outcome(done, line, openBlocks) == p;

      if !done {
        Fallback(line, n, openBlocks);
      }
      p := FallbackPhase(p, n);
      assert Outcome(true, line, openBlocks) == p;
    }

    /** A leading `]`: pop or report, then the `ALAITHE` forms after it. */
    method CloseBlock(line: string, n: int, blocks: seq<int>) returns (rest: string, openBlocks: seq<int>, done: bool)
      modifies this
      ensures Outcome(done, rest, openBlocks) == ClosePhase(CheckState(old(variableTable), old(errorList), blocks), line, n)
    {
      rest, openBlocks, done := line, blocks, false;
      if !("]" <= line) {
        return;
      }
      if openBlocks == [] {
        errorList := errorList + [Diagnostic(n, UnmatchedCloser)];
      } else {
        openBlocks := openBlocks[..|openBlocks| - 1];
      }
      assert CheckState(variableTable, errorList, openBlocks) == CloseInnermost(CheckState(old(variableTable), old(errorList), blocks), n);
      var remaining := Trim(line[1..]);
      done := true;
      if IsElseOpener(remaining) {
        openBlocks := openBlocks + [n];
      } else if SpacedPieces(remaining, 0, ["ALAITHE", ";", "["]) {
        errorList := errorList + [Diagnostic(n, ElseSemicolonAfter)];
      } else if SpacedPieces(remaining, 0, [";", "ALAITHE", "["]) {
        errorList := errorList + [Diagnostic(n, ElseSemicolonBefore)];
      } else if remaining != "" {
        rest, done := remaining, false;
      }
    }

    /** A declaration, and the text after it. */
    method Declare(line: string, n: int, blocks: seq<int>) returns (rest: string, done: bool)
      modifies this
      ensures Outcome(done, rest, blocks) == DeclarePhase(Go(CheckState(old(variableTable), old(errorList), blocks), line), n)
    {
      rest, done := line, false;
      var decl := MatchDeclaration(line);
      if decl.None? {
        return;
      }
      var d := decl.value;
      if IsReserved(d.name) {
        errorList := errorList + [Diagnostic(n, ReservedName(d.name))];
      } else if d.name in variableTable {
        errorList := errorList + [Diagnostic(n, AlreadyDeclared(d.name))];
      } else {
        variableTable := variableTable[d.name := d.ty];
        if d.value.Some? && !CheckTypeValue(d.ty, Trim(d.value.value)) {
          errorList := errorList + [Diagnostic(n, InvalidValue(d.ty, d.name))];
        }
      }
      rest := d.rest;
      done := rest == "";
    }

    /** An assignment, and the text after it. */
    method Assign(line: string, n: int, blocks: seq<int>) returns (rest: string, done: bool)
      modifies this
      ensures Outcome(done, rest, blocks) == AssignPhase(Go(CheckState(old(variableTable), old(errorList), blocks), line), n)
    {
      rest, done := line, false;
      var assign := MatchAssignment(line);
      if assign.None? {
        return;
      }
      var a := assign.value;
      if a.name !in variableTable {
        errorList := errorList + [Diagnostic(n, UndeclaredTarget(a.name))];
      } else {
        var expectedType := variableTable[a.name];
        var ok := CheckExpression(expectedType, Trim(a.expr));
        if !ok {
          errorList := errorList + [Diagnostic(n, TypeMismatch(variableTable, expectedType, a.name, a.expr))];
        }
      }
      rest := a.rest;
      done := rest == "";
    }

    /** A print or scan, and the text after it. */
    method InputOutput(line: string, n: int, blocks: seq<int>) returns (rest: string, done: bool)
      modifies this
      ensures Outcome(done, rest, blocks) == IoPhase(Go(CheckState(old(variableTable), old(errorList), blocks), line), n)
    {
      rest, done := line, false;
      var io := MatchIo(line);
      if io.None? {
        return;
      }
      var c := io.value;
      if QuoteDelimited(c.arg) {
        // a string literal is printed as it is
      } else if c.arg !in variableTable {
        errorList := errorList + [Diagnostic(n, UndeclaredInIo(c.arg, c.isPrint))];
      }
      rest := c.rest;
      done := rest == "";
    }

    /** A declaration without its `;`. */
    method Unterminated(line: string, n: int, blocks: seq<int>) returns (done: bool)
      modifies this
      ensures Outcome(done, line, blocks) == UnterminatedPhase(Go(CheckState(old(variableTable), old(errorList), blocks), line), n)
    {
      done := IsUnterminatedDeclaration(line);
      if done {
        errorList := errorList + [Diagnostic(n, DeclarationSemicolon)];
      }
    }

    /** The `ELAITHE` and `ALAITHE` headers. */
    method Branch(line: string, n: int, blocks: seq<int>) returns (done: bool)
      modifies this
      ensures Outcome(done, line, blocks) == BranchPhase(Go(CheckState(old(variableTable), old(errorList), blocks), line), n)
    {
      if BracketHeader(line, "ELAITHE", false).Some? {
        return true;
      }
      if IsElseOpener(line) {
        return true;
      }
      done := SpacedPieces(line, 0, ["ALAITHE", ";", "["]);
      if done {
        errorList := errorList + [Diagnostic(n, ElseSemicolon)];
      }
    }

    /** The last two checks of the cascade, which finish every statement that reaches them. */
    method Fallback(line: string, n: int, blocks: seq<int>)
      modifies this
      ensures Outcome(true, line, blocks) == FallbackPhase(Go(CheckState(old(variableTable), old(errorList), blocks), line), n)
    {
      if !EndsWith(line, ";") && !EndsWithOpener(line) && !IsCloseElse(line) {
        errorList := errorList + [Diagnostic(n, MissingSemicolon)];
      } else if !KnownStart(line) {
        errorList := errorList + [Diagnostic(n, UnknownStatement)];
      }
    }

    /** A loop header: report it, or declare its variable. */
    method Loop(line: string, n: int, blocks: seq<int>) returns (done: bool)
      modifies this
      ensures Outcome(done, line, blocks) == LoopPhase(Go(CheckState(old(variableTable), old(errorList), blocks), line), n)
    {
      var loopStart := BracketHeader(line, "MALLI-MALLI", true);
      if loopStart.None? {
        return false;
      }
      var header := Trim(loopStart.value);
      LoopHeader(ValidateLoop(header), header, n, blocks);
      return true;
    }

    /** The report of an invalid header, or the declaration of the loop variable. */
    method LoopHeader(valid: bool, header: string, n: int, blocks: seq<int>)
      modifies this
      ensures CheckState(variableTable, errorList, blocks) == LoopVerdict(CheckState(old(variableTable), old(errorList), blocks), valid, header, n)
    {
      if !valid {
        errorList := errorList + [Diagnostic(n, InvalidLoop)];
        return;
      }
      var loopVar := LoopDeclVar(Split(header, ';')[0]);
      if loopVar.Some? {
        variableTable := variableTable[loopVar.value := ANKHE];
      }
    }

    /** `check_expr_type` */
    method CheckExpression(expectedType: Ty, expr: string) returns (ok: bool)
      ensures ok == CheckExprType(variableTable, expectedType, expr)
    {
      var e := Trim(expr);
      if expectedType == ANKHE {
        ok := IsValidIntegerExpression(e);
      } else {
        ok := StringExprOk(variableTable, e);
      }
    }

    /**
     * The loop of `is_valid_integer_expression`: each identifier in turn must
     * be an `ANKHE` variable and is replaced, as a whole word, by `1`.
     */
    method SubstituteIdentifiers(expr: string) returns (ok: bool, testExpr: string)
      ensures ok == AllInteger(variableTable, Identifiers(expr))
      ensures ok ==> testExpr == Substituted(expr)
    {
      testExpr := expr;
      var variables := Identifiers(expr);
      NothingReplaced(expr);
      for k := 0 to |variables|
        invariant AllInteger(variableTable, variables[..k])
        invariant testExpr == Concat(ReplaceTokens(Tokens(expr), variables[..k]))
      {
        var v := variables[k];
        if v !in variableTable || variableTable[v] != ANKHE {
          AllIntegerPrefix(variableTable, variables, k);
          return false, testExpr;
        }
        AllIntegerSnoc(variableTable, variables, k);
        SubstituteStep(expr, variables, k);
        testExpr := ReplaceWord(testExpr, v);
      }
      assert variables[..|variables|] == variables;
      ok := true;
    }

    /**
     * `is_valid_integer_expression`: each identifier in turn must be an
     * `ANKHE` variable and is replaced, as a whole word, by `1`; the text
     * left must be arithmetic that evaluates.
     */
    method IsValidIntegerExpression(expr: string) returns (ok: bool)
      ensures ok == IntExprOk(variableTable, expr)
    {
      if IsIntLiteral(expr) {
        return true;
      }
      if IsWord(expr) {
        return expr in variableTable && variableTable[expr] == ANKHE;
      }
      if '"' in expr || IsQuoted(expr) {
        return false;
      }
      var allInteger, testExpr := SubstituteIdentifiers(expr);
      if !allInteger {
        return false;
      }
      if !IsArithChars(testExpr) {
        return false;
      }
      ok := Arith.Evaluates(testExpr);
    }
  }

  /** `s.replace(new RegExp('\\b' + v + '\\b', 'g'), '1')`: every token `v` of `s` becomes `1`. */
  function ReplaceWord(s: string, v: string): string {
    Concat(ReplaceTokens(Tokens(s), [v]))
  }

  lemma NothingReplaced(expr: string)
    ensures Concat(ReplaceTokens(Tokens(expr), [])) == expr
  {
    ReplaceTokensAt(Tokens(expr), []);
    assert ReplaceTokens(Tokens(expr), []) == Tokens(expr);
  }

  /** A name that is not an `ANKHE` variable fails the check of any list holding it. */
  lemma AllIntegerPrefix(table: Table, names: seq<string>, k: nat)
    requires k < |names|
    requires names[k] !in table || table[names[k]] != ANKHE
    ensures !AllInteger(table, names)
  {
  }

  lemma AllIntegerSnoc(table: Table, names: seq<string>, k: nat)
    requires k < |names| && AllInteger(table, names[..k])
    requires names[k] in table && table[names[k]] == ANKHE
    ensures AllInteger(table, names[..k + 1])
  {
    assert forall i :: 0 <= i < k ==> names[..k + 1][i] == names[..k][i];
  }

  /** One more identifier replaced in the text where the first `k` identifiers already are. */
  lemma SubstituteStep(expr: string, variables: seq<string>, k: nat)
    requires k < |variables|
    requires forall i :: 0 <= i < |variables| ==> IsIdentifier(variables[i])
    ensures ReplaceWord(Concat(ReplaceTokens(Tokens(expr), variables[..k])), variables[k])
         == Concat(ReplaceTokens(Tokens(expr), variables[..k + 1]))
  {
    var done := variables[..k];
    var ts := ReplaceTokens(Tokens(expr), done);
    TokensWellFormed(expr);
    ReplacePreservesTokens(Tokens(expr), done);
    TokensOfConcat(ts);
    ReplaceAgain(Tokens(expr), done, variables[k]);
    assert variables[..k + 1] == done + [variables[k]];
  }

  /** Replacing words by `1` keeps a token list well formed. */
  lemma ReplacePreservesTokens(ts: seq<string>, names: seq<string>)
    requires WellFormedTokens(ts)
    requires forall i :: 0 <= i < |names| ==> IsIdentifier(names[i])
    ensures WellFormedTokens(ReplaceTokens(ts, names))
  {
    var r := ReplaceTokens(ts, names);
    ReplaceTokensAt(ts, names);
    assert IsWord("1");
    forall i | 0 <= i < |r| - 1
      ensures !(IsWord(r[i]) && IsWord(r[i + 1]))
    {
      assert IsWord(r[i]) ==> IsWord(ts[i]);
      assert IsWord(r[i + 1]) ==> IsWord(ts[i + 1]);
    }
  }

  /** Replacing `A` and then `v` is replacing `A` and `v` at once, as `1` is not an identifier. */
  lemma ReplaceAgain(ts: seq<string>, names: seq<string>, v: string)
    requires IsIdentifier(v)
    ensures ReplaceTokens(ReplaceTokens(ts, names), [v]) == ReplaceTokens(ts, names + [v])
  {
    assert !IsDigit(v[0]);
    assert v != "1";
    ReplaceTokensAt(ts, names);
    ReplaceTokensAt(ReplaceTokens(ts, names), [v]);
    ReplaceTokensAt(ts, names + [v]);
  }
}
