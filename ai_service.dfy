/**
 * The placeholder correction of `generateCorrection`
 * (backend/src/services/aiService.js): what the service answers when the AI
 * corrector cannot be loaded or gives no successful result. It strips the
 * trailing white space of every line, keeps one empty line of every run of
 * empty lines, and ends the text with exactly one line feed.
 */
module AiService {
  import opened JsText
  import opened Patterns

  /** The object the placeholder branch returns. */
  datatype Correction = Correction(correctedCode: string, notes: string)

  /** `l.replace(/\s+$/, '')`: without the `m` flag, `$` is the end of the line. */
  function StripTrailing(l: string): string {
    TrimEnd(l)
  }

  /** The line is the second or a later empty line of a run, and is dropped. */
  predicate Repeated(lines: seq<string>, i: nat)
    requires i < |lines|
  {
    i > 0 && lines[i] == "" && lines[i - 1] == ""
  }

  /** `compressed` once the loop has looked at the first `k` lines. */
  function Kept(lines: seq<string>, k: nat): seq<string>
    requires k <= |lines|
  {
    if k == 0 then []
    else Kept(lines, k - 1) + (if Repeated(lines, k - 1) then [] else [lines[k - 1]])
  }

  /** The text the placeholder branch answers with, for a string `code`. */
  function Placeholder(code: string): string {
    var lines := MapLines(StripTrailing, SplitLines(code));
    TrimEnd(Join(Kept(lines, |lines|), "\n")) + "\n"
  }

  /** `generateCorrection` when no AI corrector answers: `null` for anything but a string. */
  function GenerateCorrection(code: Option<string>): Option<Correction> {
    if code.None? then None
    else Some(Correction(Placeholder(code.value), "Placeholder correction applied"))
  }

  /** The placeholder branch, pushing the lines it keeps onto `compressed`. */
  method PlaceholderCorrection(code: Option<string>) returns (r: Option<Correction>)
    ensures r == GenerateCorrection(code)
  {
    if code.None? {
      return None;
    }
    var lines := MapLines(StripTrailing, SplitLines(code.value));
    var compressed: seq<string> := [];
    for i := 0 to |lines|
      invariant compressed == Kept(lines, i)
    {
      if i > 0 && lines[i] == "" && lines[i - 1] == "" {
        continue;
      }
      compressed := compressed + [lines[i]];
    }
    var corrected := TrimEnd(Join(compressed, "\n")) + "\n";
    r := Some(Correction(corrected, "Placeholder correction applied"));
  }

  // ---------------------------------------------------------------------
  // What the placeholder guarantees

  predicate NoTrailingSpace(l: string) {
    l == [] || !IsSpace(l[|l| - 1])
  }

  /** Every kept line is one of the lines looked at. */
  lemma {:induction false} KeptFromLines(lines: seq<string>, k: nat)
    requires k <= |lines|
    ensures forall x :: x in Kept(lines, k) ==> x in lines[..k]
  {
    if k > 0 {
      KeptFromLines(lines, k - 1);
      assert lines[..k] == lines[..k - 1] + [lines[k - 1]];
    }
  }

  /**
   * The last kept line is empty exactly when the last line looked at is, and
   * no two kept lines in a row are empty.
   */
  lemma {:induction false} KeptNoDoubleBlank(lines: seq<string>, k: nat)
    requires k <= |lines|
    ensures var K := Kept(lines, k);
      (k > 0 ==> K != [] && (K[|K| - 1] == "" <==> lines[k - 1] == ""))
      && forall i :: 0 <= i < |K| - 1 ==> !(K[i] == "" && K[i + 1] == "")
  {
    if k > 0 {
      KeptNoDoubleBlank(lines, k - 1);
    }
  }

  /** The lines that are not empty, in order. */
  function NonEmptyLines(s: seq<string>): seq<string> {
    if s == [] then []
    else NonEmptyLines(s[..|s| - 1]) + (if s[|s| - 1] != "" then [s[|s| - 1]] else [])
  }

  /** Only empty lines are dropped: the non-empty lines are all kept, in their order. */
  lemma {:induction false} KeptNonEmpty(lines: seq<string>, k: nat)
    requires k <= |lines|
    ensures NonEmptyLines(Kept(lines, k)) == NonEmptyLines(lines[..k])
  {
    if k > 0 {
      KeptNonEmpty(lines, k - 1);
      var x := lines[k - 1];
      assert lines[..k] == lines[..k - 1] + [x];
      NonEmptySnoc(lines[..k - 1], x);
      var prev := Kept(lines, k - 1);
      if Repeated(lines, k - 1) {
        assert x == "" && Kept(lines, k) == prev + [];
        assert prev + [] == prev;
      } else {
        assert Kept(lines, k) == prev + [x];
        NonEmptySnoc(prev, x);
      }
    }
  }

  lemma NonEmptySnoc(s: seq<string>, x: string)
    ensures NonEmptyLines(s + [x]) == NonEmptyLines(s) + (if x != "" then [x] else [])
  {
    var t := s + [x];
    assert t[..|t| - 1] == s && t[|t| - 1] == x;
  }

  /** The positions of the lines `Kept` keeps, in order. */
  function KeptIndices(lines: seq<string>, k: nat): seq<nat>
    requires k <= |lines|
  {
    if k == 0 then []
    else KeptIndices(lines, k - 1) + (if Repeated(lines, k - 1) then [] else [k - 1])
  }

  /**
   * The kept lines are the lines looked at with exactly the repeated empty
   * lines dropped: they sit at increasing positions, and a position is kept
   * exactly when its line is not an empty line following an empty line. So
   * the first empty line of every run stays.
   */
  lemma {:induction false} KeptDropsRepeated(lines: seq<string>, k: nat)
    requires k <= |lines|
    ensures var K := Kept(lines, k);
      var idx := KeptIndices(lines, k);
      && |idx| == |K|
      && (forall j :: 0 <= j < |idx| ==> idx[j] < k && K[j] == lines[idx[j]])
      && (forall j, j' :: 0 <= j < j' < |idx| ==> idx[j] < idx[j'])
      && (forall i :: 0 <= i < k ==> (i in idx <==> !Repeated(lines, i)))
  {
    if k > 0 {
      KeptDropsRepeated(lines, k - 1);
    }
  }

  lemma StripTrailingLines(code: string)
    ensures forall l :: l in MapLines(StripTrailing, SplitLines(code)) ==> NoTrailingSpace(l)
  {
    var lines := SplitLines(code);
    var out := MapLines(StripTrailing, lines);
    forall l | l in out ensures NoTrailingSpace(l) {
      var i :| 0 <= i < |out| && out[i] == l;
      MapLinesAt(StripTrailing, lines, i);
    }
  }

  /** The placeholder text ends in one line feed with no white space before it. */
  lemma PlaceholderEnds(code: string)
    ensures var out := Placeholder(code);
      |out| >= 1 && out[|out| - 1] == '\n' && (|out| == 1 || !IsSpace(out[|out| - 2]))
  {
    var lines := MapLines(StripTrailing, SplitLines(code));
    var t := TrimEnd(Join(Kept(lines, |lines|), "\n"));
    assert Placeholder(code) == t + "\n";
    assert (t + "\n")[..|t|] == t;
  }

  /** All that `Kept` does to a whole list of lines. */
  lemma KeptAll(lines: seq<string>)
    ensures var K := Kept(lines, |lines|);
      var idx := KeptIndices(lines, |lines|);
      (forall l :: l in K ==> l in lines)
      && (forall i :: 0 <= i < |K| - 1 ==> !(K[i] == "" && K[i + 1] == ""))
      && NonEmptyLines(K) == NonEmptyLines(lines)
      && |idx| == |K|
      && (forall j :: 0 <= j < |idx| ==> idx[j] < |lines| && K[j] == lines[idx[j]])
      && (forall j, j' :: 0 <= j < j' < |idx| ==> idx[j] < idx[j'])
      && (forall i :: 0 <= i < |lines| ==> (i in idx <==> !Repeated(lines, i)))
  {
    KeptFromLines(lines, |lines|);
    KeptNoDoubleBlank(lines, |lines|);
    KeptNonEmpty(lines, |lines|);
    KeptDropsRepeated(lines, |lines|);
    assert lines[..|lines|] == lines;
  }

  /**
   * The kept lines, joined and right-trimmed, make the placeholder text: no
   * kept line has trailing white space, no two kept lines in a row are empty,
   * and the non-empty lines are those of the input with their trailing white
   * space removed, in order. They are the input lines, right-trimmed, with
   * exactly the second and later empty lines of each run dropped, so every
   * run of empty lines leaves one.
   */
  lemma PlaceholderLines(code: string)
    ensures var lines := MapLines(StripTrailing, SplitLines(code));
      var K := Kept(lines, |lines|);
      var idx := KeptIndices(lines, |lines|);
      (forall l :: l in K ==> NoTrailingSpace(l))
      && (forall i :: 0 <= i < |K| - 1 ==> !(K[i] == "" && K[i + 1] == ""))
      && NonEmptyLines(K) == NonEmptyLines(lines)
      && |idx| == |K|
      && (forall j :: 0 <= j < |idx| ==> idx[j] < |lines| && K[j] == lines[idx[j]])
      && (forall j, j' :: 0 <= j < j' < |idx| ==> idx[j] < idx[j'])
      && (forall i :: 0 <= i < |lines| ==> (i in idx <==> !Repeated(lines, i)))
  {
    var lines := MapLines(StripTrailing, SplitLines(code));
    KeptAll(lines);
    StripTrailingLines(code);
  }
}
