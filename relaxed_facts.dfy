/**
 * What the relaxed validator promises, stated over the functions of module
 * RelaxedValidator: where its statements come from, how one statement can
 * change the table, the error list and the block stack, and what each phase
 * of the per-statement cascade reports.
 */
module RelaxedFacts {
  import opened JsText
  import opened Language
  import opened Patterns
  import opened RelaxedChecks
  import opened RelaxedValidator
  import opened ValidatorState

  // ---------------------------------------------------------------------
  // Segmenter

  /** What is left of a physical line once its comment and surrounding white space are gone. */
  function Content(raw: string): string {
    Trim(StripComment(raw))
  }

  /** A physical line the segmenter adds to its buffer: not blank, not a comment, not empty once its comment is cut. */
  predicate IsContentLine(raw: string) {
    Trim(raw) != "" && !("#" <= Trim(raw)) && Content(raw) != ""
  }

  /** The content of every physical line. */
  function LineContents(lines: seq<string>): (r: seq<string>)
    ensures |r| == |lines|
  {
    if lines == [] then [] else LineContents(lines[..|lines| - 1]) + [Content(lines[|lines| - 1])]
  }

  lemma {:induction false} LineContentsAt(lines: seq<string>, k: nat)
    requires k < |lines|
    ensures LineContents(lines)[k] == Content(lines[k])
    decreases |lines|
  {
    if k < |lines| - 1 {
      LineContentsAt(lines[..|lines| - 1], k);
      assert lines[..|lines| - 1][k] == lines[k];
    }
  }

  /**
   * Text `text` starts at line `line` (from 1) of `lines`: that line holds
   * program text once its comment is cut, and `text` begins with it.
   */
  predicate StartsAt(lines: seq<string>, text: string, line: int) {
    1 <= line <= |lines| && LineContents(lines)[line - 1] != "" && LineContents(lines)[line - 1] <= text
  }

  /**
   * How a finished statement ends: one that holds a loop opener ends in
   * `)` and `[`; any other ends in `;`, in `[`, or is `]`.
   */
  predicate Closed(text: string) {
    if HasLoopOpener(text) then EndsWithParenOpener(text) else ClosesStatement(text)
  }

  /**
   * No line break inside `text` comes where the text before it was already
   * closed: the segmenter ends a statement at the first line that closes it.
   */
  predicate NoEarlyClose(text: string) {
    forall k :: 0 <= k < |text| && text[k] == '\n' ==> !Closed(text[..k])
  }

  /** A finished statement: it starts at a content line, is closed, and was not closed before its last line. */
  predicate GoodStatement(lines: seq<string>, s: Stmt) {
    StartsAt(lines, s.text, s.line) && Closed(s.text) && NoEarlyClose(s.text)
  }

  predicate AllGood(lines: seq<string>, stmts: seq<Stmt>) {
    forall j :: 0 <= j < |stmts| ==> GoodStatement(lines, stmts[j])
  }

  /**
   * The pending buffer starts at a content line, is not closed and was not
   * closed before its last line; loop mode is on exactly when it holds a
   * loop opener.
   */
  predicate BufferOk(lines: seq<string>, buffer: string, start: int, inLoop: bool) {
    && (buffer != "" ==> StartsAt(lines, buffer, start) && !Closed(buffer) && NoEarlyClose(buffer))
    && inLoop == HasLoopOpener(buffer)
  }

  predicate SegInvariant(lines: seq<string>, st: SegState) {
    AllGood(lines, st.done) && BufferOk(lines, st.buffer, st.start, st.inLoop)
  }

  lemma AllGoodSnoc(lines: seq<string>, stmts: seq<Stmt>, s: Stmt)
    requires AllGood(lines, stmts) && GoodStatement(lines, s)
    ensures AllGood(lines, stmts + [s])
  {
    assert forall j :: 0 <= j < |stmts| ==> (stmts + [s])[j] == stmts[j];
  }

  lemma PrefixOfLonger(a: string, b: string, c: string)
    requires a <= b
    ensures a <= b + c
  {
    assert (b + c)[..|a|] == b[..|a|];
  }

  /** White space skipped in `s` stops at the same place once more text is appended. */
  lemma {:induction false} SkipSpacesAppend(s: string, t: string, i: nat)
    requires i <= |s| && SkipSpaces(s, i) < |s|
    ensures SkipSpaces(s + t, i) == SkipSpaces(s, i)
    decreases |s| - i
  {
    if IsSpace(s[i]) {
      SkipSpacesAppend(s, t, i + 1);
    }
  }

  /** A loop opener stays one when text is appended. */
  lemma {:induction false} LoopOpenerAppend(s: string, t: string, i: nat)
    requires i <= |s| && LoopOpenerFrom(s, i)
    ensures LoopOpenerFrom(s + t, i)
    decreases |s| - i
  {
    if LoopOpenerAt(s, i) {
      assert (s + t)[i..i + 11] == s[i..i + 11];
      SkipSpacesAppend(s, t, i + 11);
      assert LoopOpenerAt(s + t, i);
    } else {
      LoopOpenerAppend(s, t, i + 1);
    }
  }

  lemma NoLoopOpenerInEmpty()
    ensures !HasLoopOpener("")
  {
  }

  /** A physical line has no line feed, and neither has its content. */
  lemma ContentNoLineFeed(raw: string)
    requires '\n' !in raw
    ensures '\n' !in Content(raw)
  {
    var c := StripComment(raw);
    assert forall m :: 0 <= m < |c| ==> c[m] == raw[m];
    TrimNoLineFeed(c);
  }

  /** A text without line feeds was never closed before a line break. */
  lemma NoEarlyCloseOneLine(p: string)
    requires '\n' !in p
    ensures NoEarlyClose(p)
  {
  }

  /** An open buffer with one more line keeps every earlier line break clear of a close. */
  lemma NoEarlyCloseAppend(b: string, p: string)
    requires NoEarlyClose(b) && !Closed(b) && '\n' !in p
    ensures NoEarlyClose(b + "\n" + p)
  {
    var s := b + "\n" + p;
    forall k | 0 <= k < |s| && s[k] == '\n'
      ensures !Closed(s[..k])
    {
      if k < |b| {
        assert s[..k] == b[..k];
        assert b[k] == s[k];
      } else if k == |b| {
        assert s[..k] == b;
      } else {
        assert false;
      }
    }
  }

  /** A content line `i` (from 0) appended to the buffer: the buffer still starts where it did, at line `i + 1` when it was empty. */
  lemma ExtendBuffer(lines: seq<string>, buffer: string, start: int, inLoop: bool, i: nat)
    requires i < |lines| && BufferOk(lines, buffer, start, inLoop) && IsContentLine(lines[i])
    requires '\n' !in lines[i]
    ensures buffer == "" ==> StartsAt(lines, Content(lines[i]), i + 1) && NoEarlyClose(Content(lines[i]))
    ensures buffer != "" ==> StartsAt(lines, buffer + "\n" + Content(lines[i]), start)
    ensures buffer != "" ==> NoEarlyClose(buffer + "\n" + Content(lines[i]))
    ensures inLoop ==> buffer != "" && HasLoopOpener(buffer + "\n" + Content(lines[i]))
  {
    NoLoopOpenerInEmpty();
    LineContentsAt(lines, i);
    ContentNoLineFeed(lines[i]);
    if buffer == "" {
      NoEarlyCloseOneLine(Content(lines[i]));
    } else {
      var p := Content(lines[i]);
      NoEarlyCloseAppend(buffer, p);
      PrefixOfLonger(LineContents(lines)[start - 1], buffer, "\n" + p);
      assert buffer + "\n" + p == buffer + ("\n" + p);
      if inLoop {
        LoopOpenerAppend(buffer, "\n" + p, 0);
      }
    }
  }

  /** The state after a content line keeps the invariant, whichever way the line ends. */
  lemma AfterContentLine(lines: seq<string>, st: SegState, buffer: string, start: int, next: SegState)
    requires AllGood(lines, st.done)
    requires buffer != "" && StartsAt(lines, buffer, start) && NoEarlyClose(buffer)
    requires var inLoop := st.inLoop || HasLoopOpener(buffer);
      next == if inLoop then
          if EndsWithParenOpener(buffer) then SegState(st.done + [Stmt(buffer, start)], "", start, false)
          else SegState(st.done, buffer, start, true)
        else if ClosesStatement(buffer) then SegState(st.done + [Stmt(buffer, start)], "", start, false)
        else SegState(st.done, buffer, start, false)
    requires st.inLoop ==> HasLoopOpener(buffer)
    ensures SegInvariant(lines, next)
  {
    NoLoopOpenerInEmpty();
    if next.done != st.done {
      AllGoodSnoc(lines, st.done, Stmt(buffer, start));
    }
  }

  /** One physical line keeps the invariant. */
  lemma SegStepInvariant(lines: seq<string>, st: SegState, i: nat)
    requires i < |lines| && SegInvariant(lines, st) && '\n' !in lines[i]
    ensures SegInvariant(lines, SegStep(st, lines[i], i))
  {
    var raw := lines[i];
    if IsContentLine(raw) {
      var buffer := st.buffer + (if st.buffer == "" then "" else "\n") + Content(raw);
      ExtendBuffer(lines, st.buffer, st.start, st.inLoop, i);
      if st.buffer == "" {
        assert buffer == Content(raw);
      }
      AfterContentLine(lines, st, buffer, if st.buffer == "" then i + 1 else st.start, SegStep(st, raw, i));
    }
  }

  /** A step that keeps the invariant keeps it after every prefix of the physical lines. */
  lemma {:induction false} SegFoldKeeps(step: (SegState, string, nat) -> SegState, lines: seq<string>, n: nat)
    requires n <= |lines|
    requires SegInvariant(lines, SegState([], "", 0, false))
    requires forall st: SegState, i: nat :: i < |lines| && SegInvariant(lines, st) ==> SegInvariant(lines, step(st, lines[i], i))
    ensures SegInvariant(lines, SegFold(step, lines, n))
  {
    if n > 0 {
      SegFoldKeeps(step, lines, n - 1);
    }
  }

  /** The segmenter's state after the last physical line keeps the invariant. */
  lemma SegRunInvariant(lines: seq<string>)
    requires forall i :: 0 <= i < |lines| ==> '\n' !in lines[i]
    ensures SegInvariant(lines, SegRun(lines, |lines|))
  {
    NoLoopOpenerInEmpty();
    forall st: SegState, i: nat | i < |lines| && SegInvariant(lines, st)
      ensures SegInvariant(lines, SegStep(st, lines[i], i))
    {
      SegStepInvariant(lines, st, i);
    }
    SegFoldKeeps(SegStep, lines, |lines|);
  }

  /**
   * Every statement of the segmenter starts at a content line (blank and
   * comment lines never start one), its text begins with that line's
   * content, and every statement but a flushed last one is closed. No
   * statement was already closed at one of its inner line breaks, so each
   * ends at the first line that closes it and no two are merged.
   */
  lemma SegmentStatements(code: string)
    ensures forall j :: 0 <= j < |Segment(code)| ==> StartsAt(SplitLines(code), Segment(code)[j].text, Segment(code)[j].line)
    ensures forall j :: 0 <= j < |Segment(code)| - 1 ==> Closed(Segment(code)[j].text)
    ensures forall j :: 0 <= j < |Segment(code)| ==> NoEarlyClose(Segment(code)[j].text)
  {
    var lines := SplitLines(code);
    SegRunInvariant(lines);
  }

  // ---------------------------------------------------------------------
  // Classifier cascade

  /** The states a leading `]` can leave, from the state `st1` after the pop. */
  lemma CloseOutcomes(st1: CheckState, st: CheckState, n: int)
    requires Extends(st, st1, n)
    ensures Extends(st, st1.(blocks := st1.blocks + [n]), n)
    ensures Extends(st, Emit(st1, n, ElseSemicolonAfter), n)
    ensures Extends(st, Emit(st1, n, ElseSemicolonBefore), n)
  {
    EmitExtends(st1, n, ElseSemicolonAfter);
    EmitExtends(st1, n, ElseSemicolonBefore);
    ExtendsTrans(st, st1, Emit(st1, n, ElseSemicolonAfter), n);
    ExtendsTrans(st, st1, Emit(st1, n, ElseSemicolonBefore), n);
  }

  lemma CloseExtends(st: CheckState, line: string, n: int)
    ensures Extends(st, ClosePhase(st, line, n).st, n)
  {
    if "]" <= line {
      var st1 := CloseInnermost(st, n);
      CloseInnermostEffect(st, n);
      CloseOutcomes(st1, st, n);
      CloseCases(st, line, n);
    }
  }

  /**
   * The result of each form after a leading `]`, from the state `st1` the
   * pop leaves: `ALAITHE [` reopens a block, the two misplaced-semicolon
   * forms are reported, any other non-empty rest goes on down the cascade,
   * and a lone `]` is finished.
   */
  lemma CloseCases(st: CheckState, line: string, n: int)
    requires "]" <= line
    ensures var st1 := CloseInnermost(st, n);
      var r := ClosePhase(st, line, n).st;
      r == st1 || r == st1.(blocks := st1.blocks + [n]) || r == Emit(st1, n, ElseSemicolonAfter) || r == Emit(st1, n, ElseSemicolonBefore)
    ensures var st1 := CloseInnermost(st, n);
      var rest := Trim(line[1..]);
      var after := SpacedPieces(rest, 0, ["ALAITHE", ";", "["]);
      var before := SpacedPieces(rest, 0, [";", "ALAITHE", "["]);
      var r := ClosePhase(st, line, n);
      && (IsElseOpener(rest) ==> r == Done(st1.(blocks := st1.blocks + [n])))
      && (!IsElseOpener(rest) && after ==> r == Done(Emit(st1, n, ElseSemicolonAfter)))
      && (!IsElseOpener(rest) && !after && before ==> r == Done(Emit(st1, n, ElseSemicolonBefore)))
      && (!IsElseOpener(rest) && !after && !before && rest != "" ==> r == Go(st1, rest))
      && (rest == "" ==> r == Done(st1))
  {
    var remaining := Trim(line[1..]);
    if IsElseOpener(remaining) {
    } else if SpacedPieces(remaining, 0, ["ALAITHE", ";", "["]) {
    } else if SpacedPieces(remaining, 0, [";", "ALAITHE", "["]) {
    }
  }

  /**
   * Each phase of the cascade: if the state before it extends `a`, so does
   * the state after it.
   */
  lemma OpenExtends(a: CheckState, p: Phase, n: int)
    requires Extends(a, p.st, n)
    ensures Extends(a, OpenPhase(p, n).st, n)
  {
  }

  lemma DeclareExtends(a: CheckState, p: Phase, n: int)
    requires Extends(a, p.st, n)
    ensures Extends(a, DeclarePhase(p, n).st, n)
    ensures DeclarePhase(p, n).st.blocks == p.st.blocks
  {
    if p.Go? && MatchDeclaration(p.line).Some? {
      var d := MatchDeclaration(p.line).value;
      var st := p.st;
      DeclareCases(p, n);
      if IsReserved(d.name) || d.name in st.table {
        var m := if IsReserved(d.name) then ReservedName(d.name) else AlreadyDeclared(d.name);
        EmitKeepsExtends(a, st, n, m);
      } else {
        var st2 := st.(table := st.table[d.name := d.ty]);
        assert Extends(a, st2, n);
        EmitKeepsExtends(a, st2, n, InvalidValue(d.ty, d.name));
      }
    }
  }

  /** The states a declaration can leave. */
  lemma DeclareCases(p: Phase, n: int)
    requires p.Go? && MatchDeclaration(p.line).Some?
    ensures var d := MatchDeclaration(p.line).value;
      var st := p.st;
      var st2 := st.(table := st.table[d.name := d.ty]);
      var r := DeclarePhase(p, n).st;
      && (IsReserved(d.name) || d.name in st.table ==>
            r == Emit(st, n, if IsReserved(d.name) then ReservedName(d.name) else AlreadyDeclared(d.name)))
      && (!IsReserved(d.name) && d.name !in st.table ==>
            r == if d.value.Some? && !CheckTypeValue(d.ty, Trim(d.value.value)) then Emit(st2, n, InvalidValue(d.ty, d.name)) else st2)
  {
  }

  lemma UnterminatedExtends(a: CheckState, p: Phase, n: int)
    requires Extends(a, p.st, n)
    ensures Extends(a, UnterminatedPhase(p, n).st, n)
    ensures UnterminatedPhase(p, n).st.blocks == p.st.blocks
  {
    EmitExtends(p.st, n, DeclarationSemicolon);
    ExtendsTrans(a, p.st, Emit(p.st, n, DeclarationSemicolon), n);
  }

  lemma AssignExtends(a: CheckState, p: Phase, n: int)
    requires Extends(a, p.st, n)
    ensures Extends(a, AssignPhase(p, n).st, n)
    ensures AssignPhase(p, n).st.blocks == p.st.blocks
  {
    if p.Go? && MatchAssignment(p.line).Some? {
      AssignMatched(a, p, n);
    }
  }

  lemma AssignMatched(a: CheckState, p: Phase, n: int)
    requires Extends(a, p.st, n) && p.Go? && MatchAssignment(p.line).Some?
    ensures Extends(a, AssignPhase(p, n).st, n)
    ensures AssignPhase(p, n).st.blocks == p.st.blocks
  {
    var x := MatchAssignment(p.line).value;
    var st := p.st;
    var m := if x.name !in st.table then UndeclaredTarget(x.name)
             else TypeMismatch(st.table, st.table[x.name], x.name, x.expr);
    EmitExtends(st, n, m);
    ExtendsTrans(a, st, Emit(st, n, m), n);
    assert AssignPhase(p, n).st == st || AssignPhase(p, n).st == Emit(st, n, m);
  }

  lemma IoExtends(a: CheckState, p: Phase, n: int)
    requires Extends(a, p.st, n)
    ensures Extends(a, IoPhase(p, n).st, n)
    ensures IoPhase(p, n).st.blocks == p.st.blocks
  {
    if p.Go? && MatchIo(p.line).Some? {
      var c := MatchIo(p.line).value;
      if QuoteDelimited(c.arg) || c.arg in p.st.table {
        assert IoPhase(p, n).st == p.st;
      } else {
        var m := UndeclaredInIo(c.arg, c.isPrint);
        assert IoPhase(p, n).st == Emit(p.st, n, m);
        EmitExtends(p.st, n, m);
        ExtendsTrans(a, p.st, Emit(p.st, n, m), n);
      }
    }
  }

  lemma BranchExtends(a: CheckState, p: Phase, n: int)
    requires Extends(a, p.st, n)
    ensures Extends(a, BranchPhase(p, n).st, n)
    ensures BranchPhase(p, n).st.blocks == p.st.blocks
  {
    EmitExtends(p.st, n, ElseSemicolon);
    ExtendsTrans(a, p.st, Emit(p.st, n, ElseSemicolon), n);
  }

  lemma LoopExtends(a: CheckState, p: Phase, n: int)
    requires Extends(a, p.st, n)
    ensures Extends(a, LoopPhase(p, n).st, n)
    ensures LoopPhase(p, n).st.blocks == p.st.blocks
  {
    if p.Go? {
      match BracketHeader(p.line, "MALLI-MALLI", true)
      case None =>
      case Some(h) =>
        var header := Trim(h);
        var valid := ValidateLoop(header);
        var v := LoopVerdict(p.st, valid, header, n);
        LoopVerdictExtends(p.st, valid, header, n);
        ExtendsTrans(a, p.st, v, n);
    }
  }

  lemma FallbackExtends(a: CheckState, p: Phase, n: int)
    requires Extends(a, p.st, n)
    ensures Extends(a, FallbackPhase(p, n).st, n)
    ensures FallbackPhase(p, n).st.blocks == p.st.blocks
  {
    EmitKeepsExtends(a, p.st, n, MissingSemicolon);
    EmitKeepsExtends(a, p.st, n, UnknownStatement);
  }

  /**
   * Classifying one statement extends the state, at the statement's line;
   * the stack of open blocks sees at most one pop (a leading `]`) and at
   * most one push, of the statement's own line.
   */
  lemma StepExtends(st: CheckState, s: Stmt)
    ensures Extends(st, Step(st, s), s.line)
    ensures var line := Normalize(s.text);
      var b := Step(st, s).blocks;
      && (line == "" ==> b == st.blocks)
      && (line != "" && "]" <= line ==> b == Pop(st.blocks) || b == Pop(st.blocks) + [s.line])
      && (line != "" && !("]" <= line) ==>
            b == if EndsWithOpener(line) && !IsCloseElse(line) then st.blocks + [s.line] else st.blocks)
  {
    var line := Normalize(s.text);
    if line != "" {
      var n := s.line;
      var p1 := ClosePhase(st, line, n);
      CloseExtends(st, line, n);
      OpenExtends(st, p1, n);
      var p2 := OpenPhase(p1, n);
      if "]" <= line {
        if IsElseOpener(Trim(line[1..])) {
          CloseElseReopens(st, line, n);
        } else {
          ClosePops(st, line, n);
        }
        assert p2.st.blocks == Pop(st.blocks) || p2.st.blocks == Pop(st.blocks) + [n];
      } else {
        OpenBlocks(st, line, n);
      }
      DeclareExtends(st, p2, n);
      var p3 := DeclarePhase(p2, n);
      UnterminatedExtends(st, p3, n);
      var p4 := UnterminatedPhase(p3, n);
      AssignExtends(st, p4, n);
      var p5 := AssignPhase(p4, n);
      IoExtends(st, p5, n);
      var p6 := IoPhase(p5, n);
      BranchExtends(st, p6, n);
      var p7 := BranchPhase(p6, n);
      LoopExtends(st, p7, n);
      var p8 := LoopPhase(p7, n);
      FallbackExtends(st, p8, n);
    }
  }

  // ---------------------------------------------------------------------
  // Block stack

  /** A leading `]` pops exactly one block (none when none is open)... */
  lemma ClosePops(st: CheckState, line: string, n: int)
    requires "]" <= line && !IsElseOpener(Trim(line[1..]))
    ensures ClosePhase(st, line, n).st.blocks == Pop(st.blocks)
  {
    CloseInnermostEffect(st, n);
    CloseCases(st, line, n);
  }

  /** ...and `] ALAITHE [` then opens one block at its own line, which ends the statement. */
  lemma CloseElseReopens(st: CheckState, line: string, n: int)
    requires "]" <= line && IsElseOpener(Trim(line[1..]))
    ensures ClosePhase(st, line, n).Done?
    ensures ClosePhase(st, line, n).st.blocks == Pop(st.blocks) + [n]
  {
    var st1 := CloseInnermost(st, n);
    CloseInnermostEffect(st, n);
    assert ClosePhase(st, line, n) == Done(st1.(blocks := st1.blocks + [n]));
  }

  /** A leading `]` reports an unmatched closer, right after the earlier errors, exactly when no block is open. */
  lemma CloseUnmatched(st: CheckState, line: string, n: int)
    requires "]" <= line
    ensures var r := ClosePhase(st, line, n);
      st.blocks == [] <==> |r.st.errors| > |st.errors| && r.st.errors[|st.errors|] == Diagnostic(n, UnmatchedCloser)
  {
    CloseCases(st, line, n);
  }

  /** `] ALAITHE ; [` and `] ; ALAITHE [` report their own misplaced semicolon. */
  lemma CloseElseSemicolons(st: CheckState, line: string, n: int)
    requires "]" <= line && !IsElseOpener(Trim(line[1..]))
    ensures var r := ClosePhase(st, line, n);
      var k := if st.blocks == [] then |st.errors| + 1 else |st.errors|;
      && (SpacedPieces(Trim(line[1..]), 0, ["ALAITHE", ";", "["]) ==>
            r.Done? && r.st.errors == r.st.errors[..k] + [Diagnostic(n, ElseSemicolonAfter)])
      && (!SpacedPieces(Trim(line[1..]), 0, ["ALAITHE", ";", "["]) && SpacedPieces(Trim(line[1..]), 0, [";", "ALAITHE", "["]) ==>
            r.Done? && r.st.errors == r.st.errors[..k] + [Diagnostic(n, ElseSemicolonBefore)])
  {
  }

  /** A statement that does not start with `]` opens a block exactly when it ends in `[` and is not `] ALAITHE [`. */
  lemma OpenBlocks(st: CheckState, line: string, n: int)
    requires !("]" <= line)
    ensures OpenPhase(ClosePhase(st, line, n), n).st.blocks ==
      if EndsWithOpener(line) && !IsCloseElse(line) then st.blocks + [n] else st.blocks
  {
  }

  // ---------------------------------------------------------------------
  // The phases of the cascade

  /** A reserved or already declared name is reported once and leaves the table as it was. */
  lemma DeclareRejects(p: Phase, n: int)
    requires p.Go? && MatchDeclaration(p.line).Some?
    requires var d := MatchDeclaration(p.line).value; IsReserved(d.name) || d.name in p.st.table
    ensures var d := MatchDeclaration(p.line).value;
      var r := DeclarePhase(p, n).st;
      && r.table == p.st.table
      && r.errors == p.st.errors + [Diagnostic(n, if IsReserved(d.name) then ReservedName(d.name) else AlreadyDeclared(d.name))]
  {
    DeclareCases(p, n);
  }

  /**
   * Any other name is declared with its type, and stays declared when its
   * initializer is reported: the report comes exactly when the initializer
   * is not a literal of the type.
   */
  lemma DeclareAccepts(p: Phase, n: int)
    requires p.Go? && MatchDeclaration(p.line).Some?
    requires var d := MatchDeclaration(p.line).value; !IsReserved(d.name) && d.name !in p.st.table
    ensures var d := MatchDeclaration(p.line).value;
      var bad := d.value.Some? && !CheckTypeValue(d.ty, Trim(d.value.value));
      var r := DeclarePhase(p, n).st;
      && r.table == p.st.table[d.name := d.ty]
      && (bad ==> r.errors == p.st.errors + [Diagnostic(n, InvalidValue(d.ty, d.name))])
      && (!bad ==> r.errors == p.st.errors)
  {
    DeclareCases(p, n);
  }

  /**
   * An assignment to an undeclared name is reported as such; to a declared
   * one, a type mismatch is reported exactly when the value fails the check
   * for the name's type. The table never changes.
   */
  lemma AssignReports(p: Phase, n: int)
    requires p.Go? && MatchAssignment(p.line).Some?
    ensures var a := MatchAssignment(p.line).value;
      var st := p.st;
      var r := AssignPhase(p, n).st;
      && r.table == st.table
      && (a.name !in st.table ==> r.errors == st.errors + [Diagnostic(n, UndeclaredTarget(a.name))])
      && (a.name in st.table && !CheckExprType(st.table, st.table[a.name], Trim(a.expr)) ==>
            r.errors == st.errors + [Diagnostic(n, TypeMismatch(st.table, st.table[a.name], a.name, a.expr))])
      && (a.name in st.table && CheckExprType(st.table, st.table[a.name], Trim(a.expr)) ==> r.errors == st.errors)
  {
    var a := MatchAssignment(p.line).value;
    var st := p.st;
    if a.name !in st.table {
      assert AssignPhase(p, n).st == Emit(st, n, UndeclaredTarget(a.name));
    } else if !CheckExprType(st.table, st.table[a.name], Trim(a.expr)) {
      assert AssignPhase(p, n).st == Emit(st, n, TypeMismatch(st.table, st.table[a.name], a.name, a.expr));
    } else {
      assert AssignPhase(p, n).st == st;
    }
  }

  /**
   * A print or scan of a quoted literal passes whatever the table holds; a
   * declared name passes too; an undeclared name is reported, naming the
   * print or the scan. Nothing else changes.
   */
  lemma IoReports(p: Phase, n: int)
    requires p.Go? && MatchIo(p.line).Some?
    ensures var c := MatchIo(p.line).value;
      var r := IoPhase(p, n).st;
      && (QuoteDelimited(c.arg) ==> r == p.st)
      && (!QuoteDelimited(c.arg) && c.arg in p.st.table ==> r == p.st)
      && (!QuoteDelimited(c.arg) && c.arg !in p.st.table ==>
            r == p.st.(errors := p.st.errors + [Diagnostic(n, UndeclaredInIo(c.arg, c.isPrint))]))
      && (r == p.st <==> QuoteDelimited(c.arg) || c.arg in p.st.table)
  {
  }

  /**
   * A statement left to the fallback gets exactly one diagnostic or none:
   * "Missing semicolon." when it ends in neither `;` nor `[` (and is not
   * `] ALAITHE [`), else "Unknown or invalid statement." when it starts with
   * no known form.
   */
  lemma FallbackReports(p: Phase, n: int)
    requires p.Go?
    ensures var r := FallbackPhase(p, n);
      var missing := !EndsWith(p.line, ";") && !EndsWithOpener(p.line) && !IsCloseElse(p.line);
      && r.Done?
      && r.st.table == p.st.table
      && (missing ==> r.st.errors == p.st.errors + [Diagnostic(n, MissingSemicolon)])
      && (!missing && !KnownStart(p.line) ==> r.st.errors == p.st.errors + [Diagnostic(n, UnknownStatement)])
      && (!missing && KnownStart(p.line) ==> r.st.errors == p.st.errors)
  {
  }

  // ---------------------------------------------------------------------
  // The whole list

  /**
   * After `k` statements every diagnostic and every open block is at the
   * line one of them starts on.
   */
  lemma RunAtLines(stmts: seq<Stmt>, k: nat)
    requires k <= |stmts|
    ensures AtLines(Run(stmts, k), StartLines(stmts, k))
  {
    forall st: CheckState, s: Stmt
      ensures Extends(st, Step(st, s), s.line)
    {
      StepExtends(st, s);
    }
    FoldAtLines(Step, stmts, k);
  }

  /** The same for any step that only extends the state at the statement's own line. */
  lemma {:induction false} FoldAtLines(step: (CheckState, Stmt) -> CheckState, stmts: seq<Stmt>, k: nat)
    requires k <= |stmts|
    requires forall st, s :: Extends(st, step(st, s), s.line)
    ensures AtLines(Fold(step, stmts, k), StartLines(stmts, k))
  {
    if k > 0 {
      FoldAtLines(step, stmts, k - 1);
      var prev := Fold(step, stmts, k - 1);
      var s := stmts[k - 1];
      StartLinesSnoc(stmts, k);
      LinesCarry(prev, step(prev, s), s.line, StartLines(stmts, k - 1), StartLines(stmts, k));
    }
  }

  /** The induction step of `FoldAtLines`, apart from the statement that makes it. */
  lemma LinesCarry(a: CheckState, b: CheckState, n: int, before: set<int>, after: set<int>)
    requires AtLines(a, before) && after == before + {n} && Extends(a, b, n)
    ensures AtLines(b, after)
  {
    AtMoreLines(a, before, after);
    ExtendsAtLines(a, b, n, after);
  }

  /**
   * Every diagnostic `validate_code` returns is at the line a statement
   * starts on, whether it reports the statement or a block it left open.
   */
  lemma DiagnosticLines(code: string)
    ensures var stmts := Segment(code);
      forall d :: d in Diagnostics(code) ==> d.line in StartLines(stmts, |stmts|)
  {
    var stmts := Segment(code);
    RunAtLines(stmts, |stmts|);
    ReportsAtLines(Run(stmts, |stmts|), StartLines(stmts, |stmts|));
  }
}
