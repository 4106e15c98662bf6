/**
 * Where the strict validator's statements come from (validator.js:14-44):
 * each starts at a physical line that is neither blank nor a comment, ends
 * the way the segmenter's mode requires, and ends at the first line that
 * closes it. Loop mode is entered by a line that starts with
 * `MALLI-MALLI(`, not by an opener anywhere in the buffer as in the relaxed
 * validator.
 */
module StrictSegments {
  import opened JsText
  import opened Language
  import opened Patterns
  import opened StrictValidator
  import opened ValidatorState

  /** A physical line the strict segmenter adds to its buffer: not blank and not a comment once trimmed. */
  predicate IsCodeLine(raw: string) {
    Trim(raw) != "" && !("#" <= Trim(raw))
  }

  /** The line after the line feed at `k` starts with `MALLI-MALLI(`. */
  predicate LoopLineAfter(text: string, k: int) {
    0 <= k < |text| && text[k] == '\n' && "MALLI-MALLI(" <= text[k + 1..]
  }

  /** Some line of `text` (lines are separated by line feeds) starts with `MALLI-MALLI(`. */
  predicate HasLoopLine(text: string) {
    "MALLI-MALLI(" <= text || exists k {:trigger LoopLineAfter(text, k)} :: 0 <= k < |text| && LoopLineAfter(text, k)
  }

  /**
   * How a finished statement ends: one with a line starting with
   * `MALLI-MALLI(` ends in `)` and `[`; any other ends in `;`, in `[`, or
   * is `]`.
   */
  predicate Closed(text: string) {
    if HasLoopLine(text) then EndsWithParenOpener(text) else ClosesStatement(text)
  }

  /** There is a line break at `k`, and the text before it is closed. */
  predicate ClosedAtBreak(text: string, k: int) {
    0 <= k < |text| && text[k] == '\n' && Closed(text[..k])
  }

  /** No line break inside `text` comes where the text before it was already closed. */
  predicate NoEarlyClose(text: string) {
    forall k {:trigger ClosedAtBreak(text, k)} :: 0 <= k < |text| ==> !ClosedAtBreak(text, k)
  }

  /** Text `text` starts at line `line` (from 1): that line is a code line and `text` begins with it, trimmed. */
  predicate StartsAt(lines: seq<string>, text: string, line: int) {
    1 <= line <= |lines| && IsCodeLine(lines[line - 1]) && Trim(lines[line - 1]) <= text
  }

  /** A finished statement: it starts at a code line, is closed, and was not closed before its last line. */
  predicate GoodStatement(lines: seq<string>, s: Stmt) {
    StartsAt(lines, s.text, s.line) && Closed(s.text) && NoEarlyClose(s.text)
  }

  /**
   * The statements so far are finished ones; the pending buffer starts at a
   * code line, is not closed and was not closed before its last line; loop
   * mode is on exactly when one of its lines starts with `MALLI-MALLI(`.
   */
  predicate SegInvariant(lines: seq<string>, st: SegState) {
    && (forall j :: 0 <= j < |st.done| ==> GoodStatement(lines, st.done[j]))
    && (st.buffer != "" ==> StartsAt(lines, st.buffer, st.start) && !Closed(st.buffer) && NoEarlyClose(st.buffer))
    && st.inLoop == HasLoopLine(st.buffer)
  }

  /** On a single line, loop mode is the line's own prefix. */
  lemma LoopLineOne(t: string)
    requires '\n' !in t
    ensures HasLoopLine(t) <==> "MALLI-MALLI(" <= t
  {
  }

  /** A keyword without line feeds that starts `b`, a line feed and more starts `b` itself. */
  lemma KeywordInFirstLine(b: string, t: string)
    requires "MALLI-MALLI(" <= b + "\n" + t
    ensures "MALLI-MALLI(" <= b
  {
    var kw := "MALLI-MALLI(";
    var s := b + "\n" + t;
    assert s[|b|] == '\n';
    assert s[..|kw|] == b[..|kw|];
  }

  lemma KeywordInLonger(b: string, t: string)
    requires "MALLI-MALLI(" <= b
    ensures "MALLI-MALLI(" <= b + t
  {
    assert (b + t)[..12] == b[..12];
  }

  /** A loop line of `b`, a line feed and `t` is one of `b` or is `t`. */
  lemma LoopLineAppendBack(b: string, t: string)
    requires '\n' !in t && HasLoopLine(b + "\n" + t)
    ensures HasLoopLine(b) || "MALLI-MALLI(" <= t
  {
    var s := b + "\n" + t;
    if "MALLI-MALLI(" <= s {
      KeywordInFirstLine(b, t);
    } else {
      var k :| 0 <= k < |s| && LoopLineAfter(s, k);
      assert s[k] == '\n' && "MALLI-MALLI(" <= s[k + 1..];
      if k < |b| {
        var tail := b[k + 1..];
        assert s[k + 1..] == tail + "\n" + t;
        KeywordInFirstLine(tail, t);
        assert b[k] == '\n';
        assert LoopLineAfter(b, k);
      } else if k == |b| {
        assert s[k + 1..] == t;
      } else {
        assert false;
      }
    }
  }

  /** A loop line of `b`, or `t` starting with the keyword, is a loop line of `b`, a line feed and `t`. */
  lemma LoopLineAppendForth(b: string, t: string)
    requires HasLoopLine(b) || "MALLI-MALLI(" <= t
    ensures HasLoopLine(b + "\n" + t)
  {
    var s := b + "\n" + t;
    var rest := "\n" + t;
    assert s == b + rest;
    if "MALLI-MALLI(" <= b {
      KeywordInLonger(b, rest);
    } else if HasLoopLine(b) {
      var k :| 0 <= k < |b| && LoopLineAfter(b, k);
      var tail := b[k + 1..];
      assert s[k + 1..] == tail + rest;
      KeywordInLonger(tail, rest);
      assert s[k] == '\n';
      assert LoopLineAfter(s, k);
    } else {
      assert s[|b|] == '\n' && s[|b| + 1..] == t;
      assert LoopLineAfter(s, |b|);
    }
  }

  /** The new line puts the buffer in loop mode exactly when the buffer already was or the line starts with `MALLI-MALLI(`. */
  lemma LoopLineAppend(b: string, t: string)
    requires '\n' !in t
    ensures HasLoopLine(b + "\n" + t) <==> HasLoopLine(b) || "MALLI-MALLI(" <= t
  {
    if HasLoopLine(b + "\n" + t) {
      LoopLineAppendBack(b, t);
    }
    if HasLoopLine(b) || "MALLI-MALLI(" <= t {
      LoopLineAppendForth(b, t);
    }
  }

  /** An open buffer with one more line keeps every earlier line break clear of a close. */
  lemma NoEarlyCloseAppend(b: string, p: string)
    requires NoEarlyClose(b) && !Closed(b) && '\n' !in p
    ensures NoEarlyClose(b + "\n" + p)
  {
    var s := b + "\n" + p;
    forall k | 0 <= k < |s| && s[k] == '\n'
      ensures !ClosedAtBreak(s, k)
    {
      if k < |b| {
        assert s[..k] == b[..k];
        assert b[k] == s[k];
        assert !ClosedAtBreak(b, k);
      } else if k == |b| {
        assert s[..k] == b;
      } else {
        assert false;
      }
    }
  }

  lemma PrefixOfLonger(a: string, b: string, c: string)
    requires a <= b
    ensures a <= b + c
  {
    assert (b + c)[..|a|] == b[..|a|];
  }

  /** The first code line of a statement. */
  lemma FirstLine(lines: seq<string>, i: nat)
    requires i < |lines| && IsCodeLine(lines[i]) && '\n' !in lines[i]
    ensures var t := Trim(lines[i]);
      StartsAt(lines, t, i + 1) && NoEarlyClose(t) && (HasLoopLine(t) <==> "MALLI-MALLI(" <= t)
  {
    TrimNoLineFeed(lines[i]);
    LoopLineOne(Trim(lines[i]));
  }

  /**
   * Code line `i` (from 0) appended to an open buffer: the buffer still
   * starts where it did, has no early close, and is in loop mode exactly when
   * the old buffer was or the line starts with `MALLI-MALLI(`.
   */
  lemma ExtendBuffer(lines: seq<string>, buffer: string, start: int, i: nat)
    requires i < |lines| && IsCodeLine(lines[i]) && '\n' !in lines[i]
    requires buffer != "" && StartsAt(lines, buffer, start) && !Closed(buffer) && NoEarlyClose(buffer)
    ensures var t := Trim(lines[i]);
      var next := buffer + "\n" + t;
      && StartsAt(lines, next, start)
      && NoEarlyClose(next)
      && (HasLoopLine(next) <==> HasLoopLine(buffer) || "MALLI-MALLI(" <= t)
  {
    var t := Trim(lines[i]);
    TrimNoLineFeed(lines[i]);
    NoEarlyCloseAppend(buffer, t);
    PrefixOfLonger(Trim(lines[start - 1]), buffer, "\n" + t);
    assert buffer + "\n" + t == buffer + ("\n" + t);
    LoopLineAppend(buffer, t);
  }

  /** The state after a code line keeps the invariant, whichever way the buffer ends. */
  lemma AfterCodeLine(lines: seq<string>, st: SegState, buffer: string, start: int, inLoop: bool, next: SegState)
    requires forall j :: 0 <= j < |st.done| ==> GoodStatement(lines, st.done[j])
    requires buffer != "" && StartsAt(lines, buffer, start) && NoEarlyClose(buffer) && inLoop == HasLoopLine(buffer)
    requires next == if inLoop then
          if EndsWithParenOpener(buffer) then SegState(st.done + [Stmt(buffer, start)], "", start, false)
          else SegState(st.done, buffer, start, true)
        else if ClosesStatement(buffer) then SegState(st.done + [Stmt(buffer, start)], "", start, false)
        else SegState(st.done, buffer, start, false)
    ensures SegInvariant(lines, next)
  {
    if next.done != st.done {
      var s := Stmt(buffer, start);
      assert forall j :: 0 <= j < |st.done| ==> (st.done + [s])[j] == st.done[j];
    }
  }

  /** One physical line keeps the invariant. */
  lemma SegStepInvariant(lines: seq<string>, st: SegState, i: nat)
    requires i < |lines| && SegInvariant(lines, st) && '\n' !in lines[i]
    ensures SegInvariant(lines, SegStep(st, lines[i], i))
  {
    if IsCodeLine(lines[i]) {
      var t := Trim(lines[i]);
      var buffer := st.buffer + (if st.buffer == "" then "" else "\n") + t;
      var start := if st.buffer == "" then i + 1 else st.start;
      if st.buffer == "" {
        FirstLine(lines, i);
        assert buffer == t;
      } else {
        ExtendBuffer(lines, st.buffer, st.start, i);
      }
      AfterCodeLine(lines, st, buffer, start, st.inLoop || "MALLI-MALLI(" <= t, SegStep(st, lines[i], i));
    }
  }

  lemma SegRunStart(lines: seq<string>)
    ensures SegInvariant(lines, SegRun(lines, 0))
  {
  }

  lemma SegRunStep(lines: seq<string>, n: nat)
    requires 0 < n <= |lines| && '\n' !in lines[n - 1]
    requires SegInvariant(lines, SegRun(lines, n - 1))
    ensures SegInvariant(lines, SegRun(lines, n))
  {
    var st := SegRun(lines, n - 1);
    SegStepInvariant(lines, st, n - 1);
    assert SegRun(lines, n) == SegStep(st, lines[n - 1], n - 1);
  }

  /** The invariant holds after every prefix of the physical lines. */
  lemma {:induction false} SegRunInvariant(lines: seq<string>, n: nat)
    requires n <= |lines|
    requires forall i :: 0 <= i < |lines| ==> '\n' !in lines[i]
    ensures SegInvariant(lines, SegRun(lines, n))
  {
    if n == 0 {
      SegRunStart(lines);
    } else {
      var st := SegRun(lines, n - 1);
      SegRunInvariant(lines, n - 1);
      assert SegInvariant(lines, st);
      assert '\n' !in lines[n - 1];
      SegRunStep(lines, n);
    }
  }

  /**
   * Every statement of the strict segmenter starts at a code line (blank and
   * comment lines never start one) and begins with that line, trimmed; every
   * statement but a flushed last one is closed; and no statement was already
   * closed at one of its inner line breaks, so each ends at the first line
   * that closes it and no two are merged.
   */
  lemma SegmentStatements(code: string)
    ensures forall j :: 0 <= j < |Segment(code)| ==> StartsAt(SplitLines(code), Segment(code)[j].text, Segment(code)[j].line)
    ensures forall j :: 0 <= j < |Segment(code)| - 1 ==> Closed(Segment(code)[j].text)
    ensures forall j :: 0 <= j < |Segment(code)| ==> NoEarlyClose(Segment(code)[j].text)
  {
    var lines := SplitLines(code);
    SegRunInvariant(lines, |lines|);
  }
}
