/**
 * The rule-based part of the AI corrector (backend/src/utils/aiCorrector.cjs):
 * `validateAndFixCode`, the line fixer every answer goes through before it is
 * returned; `createFallbackResponse`, used when no AI provider is available;
 * and `createCorrectionPrompt`, the text sent to a provider. The calls to the
 * providers themselves are not part of this model.
 */
module AiCorrector {
  import opened JsText
  import opened Language
  import opened Patterns

  /** What `validateAndFixCode` returns. */
  datatype Fixed = Fixed(correctedCode: string, corrections: seq<string>)

  /** The object `createFallbackResponse` returns (its `opts` argument is never read). */
  datatype Response = Response(
    success: bool, correctedCode: string, corrections: seq<string>,
    explanation: string, aiProvider: string)

  // ---------------------------------------------------------------------
  // validateAndFixCode

  /** `candidateCode || originalCode`: a missing or empty candidate falls back to the original. */
  function Source(candidate: Option<string>, original: string): string {
    if candidate.Some? && candidate.value != "" then candidate.value else original
  }

  /** `!line || !line.trim()`: the line is empty or all white space, and is skipped. */
  predicate IsBlank(line: string) {
    AllSpaces(line)
  }

  /** An odd number of double quotes: a string literal is left open. */
  predicate OddQuotes(line: string) {
    Count(line, '"') % 2 != 0
  }

  /** `/\[\s*$/` */
  predicate EndsWithBracket(line: string) {
    var t := TrimEnd(line);
    |t| > 0 && t[|t| - 1] == '['
  }

  /** `/;\s*$/`, `/\[\s*$/`, `/\]$/` or `/\)$/`: the line already ends a statement or a header. */
  predicate Terminated(line: string) {
    EndsWithSemicolon(line) || EndsWithBracket(line)
    || (|line| > 0 && (line[|line| - 1] == ']' || line[|line| - 1] == ')'))
  }

  /** `kw` at the start of `t`, followed by a word boundary. */
  predicate StartsWithWord(t: string, kw: string) {
    kw <= t && (|t| == |kw| || !IsWordChar(t[|kw|]))
  }

  /** `/^(ELAITHE|ALAITHE|MALLI-MALLI)\b/` on the trimmed line. */
  predicate IsHeader(t: string) {
    StartsWithWord(t, "ELAITHE") || StartsWithWord(t, "ALAITHE") || StartsWithWord(t, "MALLI-MALLI")
  }

  /** The line gets a semicolon: it ends nothing and is not a block header. */
  predicate NeedsSemicolon(line: string) {
    !Terminated(line) && !IsHeader(Trim(line))
  }

  function QuoteFixed(line: string): string {
    if OddQuotes(line) then line + "\"" else line
  }

  /** The line as the loop body leaves it. */
  function FixedLine(line: string): string {
    if IsBlank(line) then line
    else
      var q := QuoteFixed(line);
      if NeedsSemicolon(q) then q + ";" else q
  }

  function QuoteNote(n: nat): string {
    "Added missing closing quote at line " + NatToString(n)
  }

  function SemicolonNote(n: nat): string {
    "Added missing semicolon at line " + NatToString(n)
  }

  /** The corrections the loop body records for `line`, numbered `n` from one. */
  function LineNotes(line: string, n: nat): seq<string> {
    if IsBlank(line) then []
    else
      (if OddQuotes(line) then [QuoteNote(n)] else [])
      + (if NeedsSemicolon(QuoteFixed(line)) then [SemicolonNote(n)] else [])
  }

  /** `FixedLine` applied to every line. */
  function FixAll(lines: seq<string>): seq<string> {
    MapLines(FixedLine, lines)
  }

  lemma FixAllAt(lines: seq<string>, i: nat)
    requires i < |lines|
    ensures |FixAll(lines)| == |lines|
    ensures FixAll(lines)[i] == FixedLine(lines[i])
  {
    MapLinesAt(FixedLine, lines, i);
  }

  /** The notes `g` records for the first `k` lines, numbered from one, in order. */
  function CollectNotes(g: (string, nat) -> seq<string>, lines: seq<string>, k: nat): seq<string>
    requires k <= |lines|
  {
    if k == 0 then [] else CollectNotes(g, lines, k - 1) + g(lines[k - 1], k)
  }

  lemma {:induction false} CollectNotesEmpty(g: (string, nat) -> seq<string>, lines: seq<string>, k: nat)
    requires k <= |lines|
    ensures CollectNotes(g, lines, k) == [] <==> forall j :: 0 <= j < k ==> g(lines[j], j + 1) == []
  {
    if k > 0 {
      CollectNotesEmpty(g, lines, k - 1);
      var prev := CollectNotes(g, lines, k - 1);
      assert |prev + g(lines[k - 1], k)| == |prev| + |g(lines[k - 1], k)|;
    }
  }

  /** The corrections recorded for the first `k` lines, in order. */
  function Notes(lines: seq<string>, k: nat): seq<string>
    requires k <= |lines|
  {
    CollectNotes(LineNotes, lines, k)
  }

  /** The fixer run on the text `src`. */
  function FixText(src: string): Fixed {
    var lines := SplitLines(src);
    Fixed(Join(FixAll(lines), "\n"), Notes(lines, |lines|))
  }

  /** What `validateAndFixCode(candidateCode, originalCode)` returns. */
  function ValidateAndFix(candidate: Option<string>, original: string): Fixed {
    FixText(Source(candidate, original))
  }

  /**
   * The body of `validateAndFixCode`'s loop for one line, numbered `n` from
   * one: the line as it is written back and the corrections pushed for it.
   */
  method FixLine(line: string, n: nat) returns (fixed: string, notes: seq<string>)
    ensures fixed == FixedLine(line)
    ensures notes == LineNotes(line, n)
  {
    if line == "" || Trim(line) == "" {
      BlankLineKept(line, n);
      return line, [];
    }
    BlankIsAllSpaces(line);
    fixed, notes := CloseQuote(line, n);
    fixed, notes := AddSemicolon(line, n, fixed, notes);
  }

  /** A line that is empty or trims to nothing is written back as it is, with no correction. */
  lemma BlankLineKept(line: string, n: nat)
    requires line == "" || Trim(line) == ""
    ensures FixedLine(line) == line && LineNotes(line, n) == []
  {
    BlankIsAllSpaces(line);
  }

  /** The first half of the loop body: an odd number of quotes gets a closing quote. */
  method CloseQuote(line: string, n: nat) returns (fixed: string, notes: seq<string>)
    ensures fixed == QuoteFixed(line)
    ensures notes == if OddQuotes(line) then [QuoteNote(n)] else []
  {
    fixed, notes := line, [];
    var dq := Count(fixed, '"');
    if dq % 2 != 0 {
      fixed := fixed + "\"";
      notes := notes + [QuoteNote(n)];
    }
  }

  /** The second half: a line that ends nothing and is no header gets a semicolon. */
  method AddSemicolon(line: string, n: nat, quoted: string, quoteNotes: seq<string>)
    returns (fixed: string, notes: seq<string>)
    requires !IsBlank(line)
    requires quoted == QuoteFixed(line)
    requires quoteNotes == if OddQuotes(line) then [QuoteNote(n)] else []
    ensures fixed == FixedLine(line)
    ensures notes == LineNotes(line, n)
  {
    fixed, notes := quoted, quoteNotes;
    if !Terminated(fixed) {
      var header := IsHeader(Trim(fixed));
      if !header {
        fixed := fixed + ";";
        notes := notes + [SemicolonNote(n)];
      }
    }
  }

  /** The loop of `validateAndFixCode`, rewriting its array of lines in place. */
  method ValidateAndFixCode(candidate: Option<string>, original: string) returns (r: Fixed)
    ensures r == ValidateAndFix(candidate, original)
  {
    var lines := SplitLines(if candidate.Some? && candidate.value != "" then candidate.value else original);
    ghost var input := lines;
    var corrections: seq<string> := [];
    for i := 0 to |lines|
      invariant lines == FixAll(input[..i]) + input[i..]
      invariant corrections == Notes(input, i)
    {
      assert lines[i] == input[i];
      MapLinesStep(FixedLine, input, i);
      var line, notes := FixLine(lines[i], i + 1);
      corrections := corrections + notes;
      lines := lines[i := line];
    }
    assert input[..|input|] == input;
    assert lines == FixAll(input);
    r := Fixed(Join(lines, "\n"), corrections);
  }

  // ---------------------------------------------------------------------
  // What the fixer guarantees line by line

  /** `trim` leaves nothing exactly when the text is all white space. */
  lemma {:induction false} BlankIsAllSpaces(s: string)
    ensures Trim(s) == "" <==> IsBlank(s)
  {
    var t := TrimStart(s);
    if t == [] {
      assert s[..|s|] == s;
    } else {
      assert s[|s| - |t|] == t[0];
      assert t[0..] == t;
    }
  }

  /** The fixer only appends: nothing, a quote, a semicolon, or a quote then a semicolon. */
  lemma FixedLineAppends(line: string)
    ensures line <= FixedLine(line)
    ensures var added := FixedLine(line)[|line|..];
      added == "" || added == "\"" || added == ";" || added == "\";"
    ensures forall j :: |line| <= j < |FixedLine(line)| ==> FixedLine(line)[j] == '"' || FixedLine(line)[j] == ';'
    ensures IsBlank(line) ==> FixedLine(line) == line
  {
    var f := FixedLine(line);
    if !IsBlank(line) {
      var q := QuoteFixed(line);
      assert q == line + (if OddQuotes(line) then "\"" else "");
      if NeedsSemicolon(q) {
        assert f == line + (if OddQuotes(line) then "\";" else ";");
      } else {
        assert f == q;
      }
    }
  }

  /** A non-blank fixed line holds an even number of double quotes. */
  lemma FixedLineBalancesQuotes(line: string)
    requires !IsBlank(line)
    ensures Count(FixedLine(line), '"') % 2 == 0
  {
    var q := QuoteFixed(line);
    var c := Count(line, '"');
    if OddQuotes(line) {
      CountAppend(line, "\"", '"');
      assert Count("\"", '"') == 1;
      assert Count(q, '"') == c + 1;
    }
    assert Count(q, '"') % 2 == 0;
    if NeedsSemicolon(q) {
      CountAppend(q, ";", '"');
      assert Count(";", '"') == 0;
      assert FixedLine(line) == q + ";";
    } else {
      assert FixedLine(line) == q;
    }
    assert Count(FixedLine(line), '"') == Count(q, '"');
  }

  lemma SemicolonEnds(q: string)
    ensures EndsWithSemicolon(q + ";")
  {
    TrimEndNoTrail(q + ";");
  }

  /** A non-blank fixed line ends a statement or a block, or is an `ELAITHE`/`ALAITHE`/`MALLI-MALLI` header. */
  lemma FixedLineTerminates(line: string)
    requires !IsBlank(line)
    ensures Terminated(FixedLine(line)) || IsHeader(Trim(FixedLine(line)))
  {
    var q := QuoteFixed(line);
    if NeedsSemicolon(q) {
      SemicolonEnds(q);
    }
  }

  /** Blank lines stay blank and non-blank lines stay non-blank. */
  lemma FixedLineKeepsBlankness(line: string)
    ensures IsBlank(FixedLine(line)) <==> IsBlank(line)
  {
    BlankIsAllSpaces(line);
    var f := FixedLine(line);
    BlankIsAllSpaces(f);
    FixedLineAppends(line);
    if !IsBlank(line) {
      var k :| 0 <= k < |line| && !IsSpace(line[k]);
      assert f[k] == line[k];
    }
  }

  /** Fixing a fixed line changes nothing and records nothing. */
  lemma {:induction false} FixedLineIdempotent(line: string, n: nat)
    ensures FixedLine(FixedLine(line)) == FixedLine(line)
    ensures LineNotes(FixedLine(line), n) == []
  {
    var f := FixedLine(line);
    FixedLineKeepsBlankness(line);
    if !IsBlank(line) {
      FixedLineBalancesQuotes(line);
      FixedLineTerminates(line);
      assert QuoteFixed(f) == f;
      assert !NeedsSemicolon(f);
    }
  }

  /** One correction per appended character, naming what was appended and the line number. */
  lemma LineNotesMatchAppends(line: string, n: nat)
    ensures var added := FixedLine(line)[|line|..];
      |LineNotes(line, n)| == |added|
      && forall j :: 0 <= j < |added| ==>
           LineNotes(line, n)[j] == (if added[j] == '"' then QuoteNote(n) else SemicolonNote(n))
  {
    var quote, semi := FixedLineShape(line, n);
    NotesMatchSuffix(line, FixedLine(line), LineNotes(line, n), quote, semi, n);
  }

  /** The fixed line and its notes, as two choices: whether a quote and whether a semicolon is appended. */
  lemma FixedLineShape(line: string, n: nat) returns (quote: bool, semi: bool)
    ensures FixedLine(line) == line + (if quote then "\"" else "") + (if semi then ";" else "")
    ensures LineNotes(line, n) == (if quote then [QuoteNote(n)] else []) + (if semi then [SemicolonNote(n)] else [])
  {
    quote, semi := false, false;
    if !IsBlank(line) {
      var q := QuoteFixed(line);
      quote := OddQuotes(line);
      semi := NeedsSemicolon(q);
      assert q == line + (if quote then "\"" else "");
      assert FixedLine(line) == q + (if semi then ";" else "");
    } else {
      assert line + "" + "" == line;
    }
  }

  lemma NotesMatchSuffix(line: string, f: string, notes: seq<string>, quote: bool, semi: bool, n: nat)
    requires f == line + (if quote then "\"" else "") + (if semi then ";" else "")
    requires notes == (if quote then [QuoteNote(n)] else []) + (if semi then [SemicolonNote(n)] else [])
    ensures var added := f[|line|..];
      |notes| == |added|
      && forall j :: 0 <= j < |added| ==> notes[j] == (if added[j] == '"' then QuoteNote(n) else SemicolonNote(n))
  {
    assert f[|line|..] == (if quote then "\"" else "") + (if semi then ";" else "");
  }

  /** A line gets no correction exactly when the fixer leaves it as it is. */
  lemma LineNotesEmptyIff(line: string, n: nat)
    ensures LineNotes(line, n) == [] <==> FixedLine(line) == line
  {
    LineNotesMatchAppends(line, n);
    FixedLineAppends(line);
    var f := FixedLine(line);
    assert f == line + f[|line|..];
  }

  // ---------------------------------------------------------------------
  // What the fixer guarantees for the whole text

  /** No line but the last ends in a carriage return (the text holds no `\r\r\n`). */
  predicate NoStrayReturns(lines: seq<string>) {
    forall i :: 0 <= i < |lines| - 1 ==> lines[i] == [] || lines[i][|lines[i]| - 1] != '\r'
  }

  /** A character other than a quote or a semicolon is in the fixed line only if it was in the line. */
  lemma FixedLineKeepsOut(line: string, c: char)
    requires c != '"' && c != ';' && c !in line
    ensures c !in FixedLine(line)
  {
    var f := FixedLine(line);
    FixedLineAppends(line);
    forall k | 0 <= k < |f| ensures f[k] != c {
      if k < |line| {
        assert f[k] == line[k];
      }
    }
  }

  /** A changed line ends in the quote or the semicolon that was appended. */
  lemma FixedLineEnd(line: string)
    ensures FixedLine(line) == line || FixedLine(line)[|FixedLine(line)| - 1] in "\";"
  {
    var f := FixedLine(line);
    FixedLineAppends(line);
    var added := f[|line|..];
    if added != "" {
      assert f[|f| - 1] == added[|added| - 1];
    } else {
      assert f == line;
    }
  }

  lemma FixAllKeepsOut(lines: seq<string>, c: char)
    requires c != '"' && c != ';'
    requires forall i :: 0 <= i < |lines| ==> c !in lines[i]
    ensures forall i :: 0 <= i < |lines| ==> c !in FixAll(lines)[i]
  {
    forall i | 0 <= i < |lines| ensures c !in FixAll(lines)[i] {
      FixAllAt(lines, i);
      FixedLineKeepsOut(lines[i], c);
    }
  }

  lemma FixAllNoStrayReturns(lines: seq<string>)
    requires NoStrayReturns(lines)
    ensures NoStrayReturns(FixAll(lines))
  {
    var out := FixAll(lines);
    forall i | 0 <= i < |lines| - 1
      ensures out[i] == [] || out[i][|out[i]| - 1] != '\r'
    {
      FixAllEnd(lines, i);
    }
  }

  /** Line `i` of the fixed lines is line `i` itself or ends in an appended quote or semicolon. */
  lemma FixAllEnd(lines: seq<string>, i: nat)
    requires i < |lines|
    ensures |FixAll(lines)| == |lines|
    ensures FixAll(lines)[i] == lines[i] || (FixAll(lines)[i] != [] && FixAll(lines)[i][|FixAll(lines)[i]| - 1] in "\";")
  {
    FixAllAt(lines, i);
    FixedLineEnd(lines[i]);
  }

  /** The corrected text has exactly as many lines as the source text. */
  lemma FixKeepsLineCount(src: string)
    ensures |SplitLines(FixText(src).correctedCode)| == |SplitLines(src)|
  {
    var lines := SplitLines(src);
    FixAllKeepsOut(lines, '\n');
    SplitLinesJoinCount(FixAll(lines));
  }

  /** Line `i` of the corrected text is line `i` of the source, fixed. */
  lemma FixedTextLines(src: string)
    requires NoStrayReturns(SplitLines(src))
    ensures SplitLines(FixText(src).correctedCode) == FixAll(SplitLines(src))
  {
    var lines := SplitLines(src);
    FixAllKeepsOut(lines, '\n');
    FixAllNoStrayReturns(lines);
    SplitLinesJoin(FixAll(lines));
  }

  lemma NotesOfFixedLines(lines: seq<string>, k: nat)
    requires k <= |lines|
    ensures Notes(FixAll(lines), k) == []
  {
    var out := FixAll(lines);
    forall j | 0 <= j < k ensures LineNotes(out[j], j + 1) == [] {
      FixAllAt(lines, j);
      FixedLineIdempotent(lines[j], j + 1);
    }
    CollectNotesEmpty(LineNotes, out, k);
  }

  /** The fixer records a correction exactly when it changes some line. */
  lemma NoCorrectionsIffUnchanged(src: string)
    ensures FixText(src).corrections == [] <==> FixAll(SplitLines(src)) == SplitLines(src)
  {
    var lines := SplitLines(src);
    var out := FixAll(lines);
    CollectNotesEmpty(LineNotes, lines, |lines|);
    forall j | 0 <= j < |lines|
      ensures LineNotes(lines[j], j + 1) == [] <==> out[j] == lines[j]
    {
      FixAllAt(lines, j);
      LineNotesEmptyIff(lines[j], j + 1);
    }
    FixAllAt(lines, 0);
  }

  lemma FixAllIdempotent(lines: seq<string>)
    ensures FixAll(FixAll(lines)) == FixAll(lines)
  {
    var out := FixAll(lines);
    forall i | 0 <= i < |out| ensures FixAll(out)[i] == out[i] {
      FixAllAt(lines, i);
      FixAllAt(out, i);
      FixedLineIdempotent(lines[i], 0);
    }
  }

  /** Fixing the fixer's output changes nothing and records no correction. */
  lemma FixTextIdempotent(src: string)
    requires NoStrayReturns(SplitLines(src))
    ensures FixText(FixText(src).correctedCode) == Fixed(FixText(src).correctedCode, [])
  {
    var lines := SplitLines(src);
    var out := FixAll(lines);
    FixedTextLines(src);
    FixAllIdempotent(lines);
    NotesOfFixedLines(lines, |out|);
  }

  /** The corrected text is empty only when the source text is. */
  lemma FixTextEmpty(src: string)
    requires FixText(src).correctedCode == ""
    ensures src == ""
  {
    var lines := SplitLines(src);
    var out := FixAll(lines);
    JoinEmpty(out, "\n");
    FixAllAt(lines, 0);
    FixedLineKeepsBlankness(lines[0]);
    assert lines == [lines[0]];
    assert lines[0] == "" by {
      FixedLineAppends(lines[0]);
    }
    SplitLinesEmpty(src);
  }

  /**
   * Passing the fixer's output back as the candidate changes nothing and
   * records no correction.
   */
  lemma ValidateAndFixIdempotent(candidate: Option<string>, original: string)
    requires NoStrayReturns(SplitLines(Source(candidate, original)))
    ensures var r := ValidateAndFix(candidate, original);
      ValidateAndFix(Some(r.correctedCode), original) == Fixed(r.correctedCode, [])
  {
    var src := Source(candidate, original);
    var text := FixText(src).correctedCode;
    assert Source(Some(text), original) == text by {
      if text == "" {
        FixTextEmpty(src);
      }
    }
    FixTextIdempotent(src);
  }

  /** A missing or empty candidate means the original is fixed; any other candidate replaces it. */
  lemma CandidateOrOriginal(candidate: string, original: string, other: string)
    ensures ValidateAndFix(None, original) == ValidateAndFix(Some(""), original)
    ensures original != "" ==> ValidateAndFix(None, original) == ValidateAndFix(Some(original), other)
    ensures candidate != "" ==> ValidateAndFix(Some(candidate), original) == ValidateAndFix(Some(candidate), other)
  {
    assert Source(None, original) == original == Source(Some(""), original);
    assert original != "" ==> Source(Some(original), other) == original;
    assert candidate != "" ==> Source(Some(candidate), original) == candidate == Source(Some(candidate), other);
  }

  // ---------------------------------------------------------------------
  // createFallbackResponse

  /** `errors || []` */
  function ErrorList(errors: Option<seq<Diagnostic>>): seq<Diagnostic> {
    if errors.Some? then errors.value else []
  }

  function AppliedNote(line: int): string {
    "Added semicolon at line " + IntToString(line)
  }

  /** The text being corrected and the corrections applied to it so far. */
  datatype Pass = Pass(text: string, applied: seq<string>)

  /** `arr[idx] && !/;\s*$/.test(arr[idx])` with `idx = line - 1`. */
  predicate Applies(arr: seq<string>, line: int) {
    0 <= line - 1 < |arr| && arr[line - 1] != "" && !EndsWithSemicolon(arr[line - 1])
  }

  /** `arr[idx].trimEnd() + ';'` */
  function Terminate(s: string): string {
    TrimEnd(s) + ";"
  }

  /** One call of the `forEach` callback, for an error reported at `line`. */
  function SemicolonPass(p: Pass, line: int): Pass {
    if line == 0 then p
    else
      var arr := SplitLines(p.text);
      if Applies(arr, line) then
        Pass(Join(arr[line - 1 := Terminate(arr[line - 1])], "\n"), p.applied + [AppliedNote(line)])
      else
        Pass(Join(arr, "\n"), p.applied)
  }

  /** The callback run on the first `k` errors, in order. */
  function SemicolonPasses(p: Pass, errors: seq<Diagnostic>, k: nat): Pass
    requires k <= |errors|
  {
    if k == 0 then p else SemicolonPass(SemicolonPasses(p, errors, k - 1), errors[k - 1].line)
  }

  /** What `createFallbackResponse(code, errors)` returns. */
  function FallbackResponse(code: string, errors: Option<seq<Diagnostic>>): Response {
    var list := ErrorList(errors);
    var p := SemicolonPasses(Pass(ReplaceChar(code, '\'', '"'), []), list, |list|);
    var v := ValidateAndFix(Some(p.text), code);
    Response(true, v.correctedCode, p.applied + v.corrections, "Rule-based fallback applied", "fallback")
  }

  method CreateFallbackResponse(code: string, errors: Option<seq<Diagnostic>>) returns (r: Response)
    ensures r == FallbackResponse(code, errors)
  {
    var corrected := ReplaceChar(code, '\'', '"');
    var applied: seq<string> := [];
    var list := if errors.Some? then errors.value else [];
    for k := 0 to |list|
      invariant Pass(corrected, applied) == SemicolonPasses(Pass(ReplaceChar(code, '\'', '"'), []), list, k)
    {
      var err := list[k];
      if err.line != 0 {
        var idx := err.line - 1;
        var arr := SplitLines(corrected);
        if 0 <= idx < |arr| && arr[idx] != "" && !EndsWithSemicolon(arr[idx]) {
          arr := arr[idx := TrimEnd(arr[idx]) + ";"];
          applied := applied + [AppliedNote(err.line)];
        }
        corrected := Join(arr, "\n");
      }
    }
    var validated := ValidateAndFixCode(Some(corrected), code);
    r := Response(true, validated.correctedCode, applied + validated.corrections,
                  "Rule-based fallback applied", "fallback");
  }

  /** What a pass does to the lines of the text, when no line but the last ends in a carriage return. */
  lemma SemicolonPassLines(p: Pass, line: int)
    requires line != 0
    requires NoStrayReturns(SplitLines(p.text))
    ensures var arr := SplitLines(p.text);
      SplitLines(SemicolonPass(p, line).text)
        == (if Applies(arr, line) then arr[line - 1 := Terminate(arr[line - 1])] else arr)
    ensures Applies(SplitLines(p.text), line) ==> EndsWithSemicolon(Terminate(SplitLines(p.text)[line - 1]))
  {
    var arr := SplitLines(p.text);
    if Applies(arr, line) {
      var t := Terminate(arr[line - 1]);
      SemicolonEnds(TrimEnd(arr[line - 1]));
      var arr' := arr[line - 1 := t];
      assert '\n' !in t by {
        assert t == TrimEnd(arr[line - 1]) + ";";
        assert forall j :: 0 <= j < |t| - 1 ==> t[j] == arr[line - 1][j];
      }
      assert NoStrayReturns(arr') by {
        assert t[|t| - 1] == ';';
      }
      SplitLinesJoin(arr');
    } else {
      SplitLinesJoin(arr);
    }
  }

  /** A pass only ever records a correction for an error whose line it terminated. */
  lemma SemicolonPassRecords(p: Pass, line: int)
    ensures var q := SemicolonPass(p, line);
      q.applied == p.applied + (if line != 0 && Applies(SplitLines(p.text), line) then [AppliedNote(line)] else [])
  {
  }

  lemma SemicolonPassKeepsOut(p: Pass, line: int, c: char)
    requires c != ';' && c != '\n' && c !in p.text
    ensures c !in SemicolonPass(p, line).text
    ensures SemicolonPass(p, line).text == "" ==> p.text == ""
  {
    if line != 0 {
      var arr := SplitLines(p.text);
      SplitLinesKeepsOut(p.text, c);
      var arr' := if Applies(arr, line) then arr[line - 1 := Terminate(arr[line - 1])] else arr;
      if Applies(arr, line) {
        var t := Terminate(arr[line - 1]);
        assert c !in t by {
          assert t == TrimEnd(arr[line - 1]) + ";";
          assert forall j :: 0 <= j < |t| - 1 ==> t[j] == arr[line - 1][j];
        }
      }
      assert forall i :: 0 <= i < |arr'| ==> c !in arr'[i];
      JoinKeepsOut(arr', "\n", c);
      if Join(arr', "\n") == "" {
        JoinEmpty(arr', "\n");
        SplitLinesEmpty(p.text);
      }
    }
  }

  lemma {:induction false} SemicolonPassesKeepOut(p: Pass, errors: seq<Diagnostic>, k: nat, c: char)
    requires k <= |errors|
    requires c != ';' && c != '\n' && c !in p.text
    ensures c !in SemicolonPasses(p, errors, k).text
    ensures SemicolonPasses(p, errors, k).text == "" ==> p.text == ""
    ensures |SemicolonPasses(p, errors, k).applied| <= |p.applied| + k
  {
    if k > 0 {
      SemicolonPassesKeepOut(p, errors, k - 1, c);
      var q := SemicolonPasses(p, errors, k - 1);
      SemicolonPassKeepsOut(q, errors[k - 1].line, c);
      SemicolonPassRecords(q, errors[k - 1].line);
    }
  }

  lemma FixTextKeepsOut(src: string, c: char)
    requires c != '"' && c != ';' && c != '\n' && c !in src
    ensures c !in FixText(src).correctedCode
  {
    var lines := SplitLines(src);
    SplitLinesKeepsOut(src, c);
    FixAllKeepsOut(lines, c);
    FixAllAt(lines, 0);
    JoinKeepsOut(FixAll(lines), "\n", c);
  }

  /**
   * The fallback always answers, as the `fallback` provider, with code in
   * which every single quote has become a double quote, and records at most
   * one semicolon correction per reported error ahead of the fixer's own.
   */
  lemma FallbackResponseShape(code: string, errors: Option<seq<Diagnostic>>)
    ensures var r := FallbackResponse(code, errors);
      r.success && r.aiProvider == "fallback" && '\'' !in r.correctedCode
    ensures var list := ErrorList(errors);
      var p := SemicolonPasses(Pass(ReplaceChar(code, '\'', '"'), []), list, |list|);
      |p.applied| <= |list| && FallbackResponse(code, errors).corrections[..|p.applied|] == p.applied
  {
    var list := ErrorList(errors);
    var start := ReplaceChar(code, '\'', '"');
    assert '\'' !in start;
    SemicolonPassesKeepOut(Pass(start, []), list, |list|, '\'');
    var p := SemicolonPasses(Pass(start, []), list, |list|);
    var src := Source(Some(p.text), code);
    assert '\'' !in src by {
      if p.text == "" {
        assert |code| == |start|;
      }
    }
    FixTextKeepsOut(src, '\'');
  }

  // ---------------------------------------------------------------------
  // createCorrectionPrompt

  const PromptIntro := "You are an expert in Yantrabhashi programming language. Return ONLY JSON with keys: correctedCode, corrections, explanation."
  const PromptRules := "RULES: variables PADAM..., statements end with ;, use double quotes, blocks in [ ]"

  /** `` `Line ${e.line}: ${e.message}` `` */
  function ErrorLine(e: Diagnostic): string {
    "Line " + IntToString(e.line) + ": " + e.message
  }

  function ErrorLines(errors: seq<Diagnostic>): (r: seq<string>)
    ensures |r| == |errors|
  {
    if errors == [] then [] else [ErrorLine(errors[0])] + ErrorLines(errors[1..])
  }

  /** What `createCorrectionPrompt(code, errors)` returns. */
  function CorrectionPrompt(code: string, errors: Option<seq<Diagnostic>>): string {
    var errorList := Join(ErrorLines(ErrorList(errors)), "\n");
    Join([PromptIntro, PromptRules, "BUGGY CODE START", code, "BUGGY CODE END", "DETECTED ERRORS:",
          if errorList == "" then "none" else errorList], "\n")
  }

  lemma {:induction false} ErrorLinesAt(errors: seq<Diagnostic>, i: nat)
    requires i < |errors|
    ensures ErrorLines(errors)[i] == ErrorLine(errors[i])
  {
    if i > 0 {
      ErrorLinesAt(errors[1..], i - 1);
    }
  }

  /** The error section reads `none` exactly when no error was passed. */
  lemma ErrorSectionEmpty(errors: seq<Diagnostic>)
    ensures Join(ErrorLines(errors), "\n") == "" <==> errors == []
  {
    if errors != [] {
      var lines := ErrorLines(errors);
      ErrorLinesAt(errors, 0);
      if |lines| > 1 {
        assert Join(lines, "\n") == lines[0] + "\n" + Join(lines[1..], "\n");
      }
      assert |Join(lines, "\n")| >= |lines[0]| > 0;
    }
  }

  /** The rendered error has no line feed, and ends in a carriage return only if its message does. */
  lemma ErrorLineShape(e: Diagnostic)
    requires '\n' !in e.message
    ensures '\n' !in ErrorLine(e)
    ensures var l := ErrorLine(e); l[|l| - 1] == '\r' ==> e.message != [] && e.message[|e.message| - 1] == '\r'
  {
    var num := IntToString(e.line);
    assert '\n' !in num by {
      if e.line < 0 {
        assert num == "-" + NatToString(-e.line);
      }
    }
    assert ErrorLine(e) == "Line " + num + ": " + e.message;
  }

  /**
   * Each error is on a line of its own in the error section: splitting the
   * section at line breaks gives the rendered errors back, one per error,
   * provided no message holds a line feed or ends in a carriage return.
   */
  lemma ErrorSectionLines(errors: seq<Diagnostic>)
    requires errors != []
    requires forall i :: 0 <= i < |errors| ==> '\n' !in errors[i].message
    requires forall i :: 0 <= i < |errors| ==>
      errors[i].message == [] || errors[i].message[|errors[i].message| - 1] != '\r'
    ensures SplitLines(Join(ErrorLines(errors), "\n")) == ErrorLines(errors)
    ensures forall i :: 0 <= i < |errors| ==> ErrorLines(errors)[i] == ErrorLine(errors[i])
  {
    var lines := ErrorLines(errors);
    forall i | 0 <= i < |errors| ensures lines[i] == ErrorLine(errors[i]) {
      ErrorLinesAt(errors, i);
    }
    ErrorLinesSeparate(errors);
    SplitLinesJoin(lines);
  }

  /** No rendered error holds a line feed or ends in a carriage return. */
  lemma ErrorLinesSeparate(errors: seq<Diagnostic>)
    requires forall i :: 0 <= i < |errors| ==> '\n' !in errors[i].message
    requires forall i :: 0 <= i < |errors| ==>
      errors[i].message == [] || errors[i].message[|errors[i].message| - 1] != '\r'
    ensures forall i :: 0 <= i < |errors| ==>
      '\n' !in ErrorLines(errors)[i] && ErrorLines(errors)[i] != []
      && ErrorLines(errors)[i][|ErrorLines(errors)[i]| - 1] != '\r'
  {
    forall i | 0 <= i < |errors|
      ensures '\n' !in ErrorLines(errors)[i] && ErrorLines(errors)[i] != []
      && ErrorLines(errors)[i][|ErrorLines(errors)[i]| - 1] != '\r'
    {
      ErrorLinesAt(errors, i);
      ErrorLineShape(errors[i]);
    }
  }

  /**
   * The prompt is the two instruction lines, the code verbatim between the
   * `BUGGY CODE START` and `BUGGY CODE END` markers, and the error section,
   * which is `none` when there are no errors.
   */
  lemma CorrectionPromptLayout(code: string, errors: Option<seq<Diagnostic>>)
    ensures var list := ErrorList(errors);
      CorrectionPrompt(code, errors)
        == PromptIntro + "\n" + PromptRules + "\n" + "BUGGY CODE START" + "\n" + code + "\n"
           + "BUGGY CODE END" + "\n" + "DETECTED ERRORS:" + "\n"
           + (if list == [] then "none" else Join(ErrorLines(list), "\n"))
  {
    var list := ErrorList(errors);
    var errorList := Join(ErrorLines(list), "\n");
    ErrorSectionEmpty(list);
    var last := if errorList == "" then "none" else errorList;
    var parts := [PromptIntro, PromptRules, "BUGGY CODE START", code, "BUGGY CODE END", "DETECTED ERRORS:", last];
    JoinSeven(parts, "\n");
  }

  lemma JoinSeven(parts: seq<string>, sep: string)
    requires |parts| == 7
    ensures Join(parts, sep)
      == parts[0] + sep + parts[1] + sep + parts[2] + sep + parts[3] + sep + parts[4] + sep + parts[5] + sep + parts[6]
  {
    assert Join(parts[6..], sep) == parts[6];
    assert Join(parts[5..], sep) == parts[5] + sep + Join(parts[6..], sep);
    assert Join(parts[4..], sep) == parts[4] + sep + Join(parts[5..], sep);
    assert Join(parts[3..], sep) == parts[3] + sep + Join(parts[4..], sep);
    assert Join(parts[2..], sep) == parts[2] + sep + Join(parts[3..], sep);
    assert Join(parts[1..], sep) == parts[1] + sep + Join(parts[2..], sep);
  }
}
