/**
 * The handful of JavaScript string operations the validators and the fixers
 * are built from, stated over Dafny strings (sequences of Unicode scalar
 * values): the `\s` character class, `trim`, `trimEnd`, `split(/\r?\n/)`,
 * `split(';')`, `join` and decimal rendering of numbers.
 */
module JsText {

  /** JavaScript line terminators: the characters `.` does not match without the `s` flag. */
  predicate IsLineTerminator(c: char) {
    c == '\n' || c == '\r' || c == '\U{2028}' || c == '\U{2029}'
  }

  /** The `\s` class of JavaScript regular expressions, which is also what `trim` removes. */
  predicate IsSpace(c: char) {
    c == '\t' || c == '\n' || c == '\U{000B}' || c == '\U{000C}' || c == '\r' || c == ' '
    || c == '\U{00A0}' || c == '\U{1680}' || ('\U{2000}' <= c <= '\U{200A}')
    || c == '\U{2028}' || c == '\U{2029}' || c == '\U{202F}' || c == '\U{205F}'
    || c == '\U{3000}' || c == '\U{FEFF}'
  }

  /** `\d` */
  predicate IsDigit(c: char) { '0' <= c <= '9' }

  /** `\w` (no `u` flag): ASCII letters, digits and underscore. */
  predicate IsWordChar(c: char) {
    ('a' <= c <= 'z') || ('A' <= c <= 'Z') || IsDigit(c) || c == '_'
  }

  predicate AllSpaces(s: string) { forall i :: 0 <= i < |s| ==> IsSpace(s[i]) }

  predicate NoTerminators(s: string) { forall i :: 0 <= i < |s| ==> !IsLineTerminator(s[i]) }

  predicate EndsWith(s: string, suffix: string) {
    |suffix| <= |s| && s[|s| - |suffix|..] == suffix
  }

  /** `s.includes(sub)` */
  predicate Contains(s: string, sub: string)
    decreases |s|
  {
    sub <= s || (s != [] && Contains(s[1..], sub))
  }

  /** `s.trimStart()` */
  function TrimStart(s: string): (r: string)
    ensures |r| <= |s| && r == s[|s| - |r|..]
    ensures AllSpaces(s[..|s| - |r|])
    ensures r == [] || !IsSpace(r[0])
  {
    if s != [] && IsSpace(s[0]) then
      var t := s[1..];
      var r := TrimStart(t);
      assert t[|t| - |r|..] == s[|s| - |r|..];
      assert s[..|s| - |r|] == [s[0]] + t[..|t| - |r|];
      r
    else s
  }

  /** `s.trimEnd()` */
  function TrimEnd(s: string): (r: string)
    ensures |r| <= |s| && r == s[..|r|]
    ensures AllSpaces(s[|r|..])
    ensures r == [] || !IsSpace(r[|r| - 1])
  {
    if s != [] && IsSpace(s[|s| - 1]) then TrimEnd(s[..|s| - 1]) else s
  }

  /** `s.trim()` */
  function Trim(s: string): (r: string)
    ensures |r| <= |s|
    ensures r == [] || (!IsSpace(r[0]) && !IsSpace(r[|r| - 1]))
  {
    TrimEnd(TrimStart(s))
  }

  /** `trim` removes white space from the two ends and nothing else. */
  lemma TrimRemovesSpaces(s: string)
    ensures exists i, j :: 0 <= i <= j <= |s| && Trim(s) == s[i..j] && AllSpaces(s[..i]) && AllSpaces(s[j..])
  {
    var t := TrimStart(s);
    var r := Trim(s);
    assert r == TrimEnd(t);
    TrimmedParts(s, t, r);
  }

  /** A prefix `r` of a suffix `t` of `s`, with only spaces cut off, is an inner slice of `s`. */
  lemma TrimmedParts(s: string, t: string, r: string)
    requires |t| <= |s| && t == s[|s| - |t|..] && AllSpaces(s[..|s| - |t|])
    requires |r| <= |t| && r == t[..|r|] && AllSpaces(t[|r|..])
    ensures exists i, j :: 0 <= i <= j <= |s| && r == s[i..j] && AllSpaces(s[..i]) && AllSpaces(s[j..])
  {
    var i := |s| - |t|;
    var j := i + |r|;
    assert r == s[i..j];
    assert s[j..] == t[|r|..];
  }

  /** `trim` adds no line feed. */
  lemma TrimNoLineFeed(raw: string)
    requires '\n' !in raw
    ensures '\n' !in Trim(raw)
  {
    var t := TrimStart(raw);
    var d := |raw| - |t|;
    forall m | 0 <= m < |t|
      ensures t[m] != '\n'
    {
      assert t[m] == raw[d + m];
    }
    var r := TrimEnd(t);
    forall m | 0 <= m < |r|
      ensures r[m] != '\n'
    {
      assert r[m] == t[m];
    }
  }

  lemma {:induction false} TrimIdempotent(s: string)
    ensures Trim(Trim(s)) == Trim(s)
  {
    var r := Trim(s);
    TrimStartNoLead(r);
    TrimEndNoTrail(r);
  }

  lemma TrimStartNoLead(s: string)
    requires s == [] || !IsSpace(s[0])
    ensures TrimStart(s) == s
  {
  }

  lemma TrimEndNoTrail(s: string)
    requires s == [] || !IsSpace(s[|s| - 1])
    ensures TrimEnd(s) == s
  {
  }

  /** First index at or after `from` holding `c`, or `|s|` when there is none (`indexOf`). */
  function FindChar(s: string, c: char, from: nat): (k: nat)
    requires from <= |s|
    ensures from <= k <= |s|
    ensures k < |s| ==> s[k] == c
    ensures forall j :: from <= j < k ==> s[j] != c
    decreases |s| - from
  {
    if from == |s| || s[from] == c then from else FindChar(s, c, from + 1)
  }

  /** Number of occurrences of `c` in `s` (`(s.match(/c/g) || []).length`). */
  function Count(s: string, c: char): (n: nat)
    ensures n <= |s|
    ensures n == 0 <==> c !in s
  {
    if s == [] then 0 else (if s[0] == c then 1 else 0) + Count(s[1..], c)
  }

  lemma {:induction false} CountAppend(s: string, t: string, c: char)
    ensures Count(s + t, c) == Count(s, c) + Count(t, c)
  {
    if s != [] {
      assert (s + t)[1..] == s[1..] + t;
      CountAppend(s[1..], t, c);
    } else {
      assert s + t == t;
    }
  }

  /** The characters of `s` that are not white space, in order. */
  function NonSpace(s: string): string {
    if s == [] then [] else (if IsSpace(s[0]) then [] else [s[0]]) + NonSpace(s[1..])
  }

  /** Leading white space holds nothing that is not white space. */
  lemma {:induction false} NonSpaceTrimStart(s: string)
    ensures NonSpace(TrimStart(s)) == NonSpace(s)
  {
    if s != [] && IsSpace(s[0]) {
      NonSpaceTrimStart(s[1..]);
    }
  }

  /** `s.replace(/\s+/g, ' ')`: every maximal run of white space becomes one blank. */
  function CollapseSpaces(s: string): (r: string)
    ensures forall i :: 0 <= i < |r| && IsSpace(r[i]) ==> r[i] == ' '
    ensures forall i, j {:trigger r[i], r[j]} :: 0 <= i < j < |r| && j == i + 1 ==> !(r[i] == ' ' && r[j] == ' ')
    ensures |r| <= |s|
    ensures r == [] <==> s == []
    ensures r != [] ==> (IsSpace(r[0]) <==> IsSpace(s[0]))
    ensures r != [] ==> (IsSpace(r[|r| - 1]) <==> IsSpace(s[|s| - 1]))
  {
    if s == [] then []
    else if IsSpace(s[0]) then
      var t := TrimStart(s);
      assert |t| < |s|;
      var rest := CollapseSpaces(t);
      assert rest != [] ==> !IsSpace(rest[0]);
      [' '] + rest
    else [s[0]] + CollapseSpaces(s[1..])
  }

  /** Collapsing white space keeps every other character, in order. */
  lemma {:induction false} CollapseKeepsNonSpace(s: string)
    ensures NonSpace(CollapseSpaces(s)) == NonSpace(s)
    decreases |s|
  {
    if s != [] {
      var r := CollapseSpaces(s);
      if IsSpace(s[0]) {
        var t := TrimStart(s);
        CollapseKeepsNonSpace(t);
        NonSpaceTrimStart(s);
        assert r[1..] == CollapseSpaces(t);
      } else {
        CollapseKeepsNonSpace(s[1..]);
        assert r[1..] == CollapseSpaces(s[1..]);
      }
    }
  }

  /**
   * `s.split(/\r?\n/)`: the pieces between line breaks, where a break is a
   * line feed together with a carriage return just before it.
   */
  function SplitLines(s: string): (lines: seq<string>)
    ensures |lines| >= 1
    ensures forall i :: 0 <= i < |lines| ==> '\n' !in lines[i]
    decreases |s|
  {
    var k := FindChar(s, '\n', 0);
    if k == |s| then [s]
    else
      var piece := if k > 0 && s[k - 1] == '\r' then s[..k - 1] else s[..k];
      [piece] + SplitLines(s[k + 1..])
  }

  /** `parts.join(sep)` */
  function Join(parts: seq<string>, sep: string): string {
    if parts == [] then ""
    else if |parts| == 1 then parts[0]
    else parts[0] + sep + Join(parts[1..], sep)
  }

  /** `s.split(c)` for a one-character separator. */
  function Split(s: string, c: char): (parts: seq<string>)
    ensures |parts| >= 1
    decreases |s|
  {
    var k := FindChar(s, c, 0);
    if k == |s| then [s] else [s[..k]] + Split(s[k + 1..], c)
  }

  /** The pieces of `split` hold no separator, and joining them with it gives the text back. */
  lemma {:induction false} SplitJoin(s: string, c: char)
    ensures forall i :: 0 <= i < |Split(s, c)| ==> c !in Split(s, c)[i]
    ensures Join(Split(s, c), [c]) == s
    decreases |s|
  {
    var k := FindChar(s, c, 0);
    if k == |s| {
      assert c !in s;
    } else {
      SplitJoin(s[k + 1..], c);
      assert s == s[..k] + [c] + s[k + 1..];
    }
  }

  lemma {:induction false} SplitLinesJoin(lines: seq<string>)
    requires |lines| >= 1
    requires forall i :: 0 <= i < |lines| ==> '\n' !in lines[i]
    requires forall i :: 0 <= i < |lines| - 1 ==> lines[i] == [] || lines[i][|lines[i]| - 1] != '\r'
    ensures SplitLines(Join(lines, "\n")) == lines
  {
    var s := Join(lines, "\n");
    if |lines| == 1 {
      var k := FindChar(s, '\n', 0);
      assert k == |s|;
    } else {
      var head := lines[0];
      JoinFirstLine(lines);
      var k := |head|;
      assert k > 0 ==> s[k - 1] == head[|head| - 1];
      SplitLinesJoin(lines[1..]);
      assert lines == [head] + lines[1..];
    }
  }

  /** The first line feed of the joined text ends the first line, and the rest is the join of the other lines. */
  lemma JoinFirstLine(lines: seq<string>)
    requires |lines| >= 2 && '\n' !in lines[0]
    ensures var s := Join(lines, "\n"); var k := |lines[0]|;
      && FindChar(s, '\n', 0) == k < |s|
      && s[..k] == lines[0] && s[k + 1..] == Join(lines[1..], "\n")
  {
    var s := Join(lines, "\n");
    var head := lines[0];
    assert s == head + "\n" + Join(lines[1..], "\n");
    assert s[|head|] == '\n';
    assert forall j :: 0 <= j < |head| ==> s[j] == head[j];
    assert s[..|head|] == head;
  }

  /** Joining line-feed-free pieces with line feeds and splitting again gives as many lines back. */
  lemma {:induction false} SplitLinesJoinCount(lines: seq<string>)
    requires |lines| >= 1
    requires forall i :: 0 <= i < |lines| ==> '\n' !in lines[i]
    ensures |SplitLines(Join(lines, "\n"))| == |lines|
  {
    var s := Join(lines, "\n");
    if |lines| == 1 {
      var k := FindChar(s, '\n', 0);
      assert k == |s|;
    } else {
      JoinFirstLine(lines);
      SplitLinesJoinCount(lines[1..]);
    }
  }

  /** Only the text `""` splits into the single empty line. */
  lemma SplitLinesEmpty(s: string)
    requires SplitLines(s) == [""]
    ensures s == ""
  {
    var k := FindChar(s, '\n', 0);
    if k < |s| {
      assert false;
    }
  }

  /** A character absent from the text is absent from each of its lines. */
  lemma {:induction false} SplitLinesKeepsOut(s: string, c: char)
    requires c !in s
    ensures forall i :: 0 <= i < |SplitLines(s)| ==> c !in SplitLines(s)[i]
    decreases |s|
  {
    var k := FindChar(s, '\n', 0);
    if k < |s| {
      SplitLinesKeepsOut(s[k + 1..], c);
      var piece := if k > 0 && s[k - 1] == '\r' then s[..k - 1] else s[..k];
      assert c !in piece by {
        forall j | 0 <= j < |piece| ensures piece[j] != c {
          assert piece[j] == s[j];
        }
      }
      assert SplitLines(s) == [piece] + SplitLines(s[k + 1..]);
    }
  }

  /** A character absent from every piece and from the separator is absent from the join. */
  lemma {:induction false} JoinKeepsOut(parts: seq<string>, sep: string, c: char)
    requires forall i :: 0 <= i < |parts| ==> c !in parts[i]
    requires c !in sep
    ensures c !in Join(parts, sep)
  {
    if |parts| > 1 {
      JoinKeepsOut(parts[1..], sep, c);
    }
  }

  /** Joining with a non-empty separator gives `""` only for a single empty piece or none. */
  lemma JoinEmpty(parts: seq<string>, sep: string)
    requires |parts| >= 1 && |sep| > 0
    requires Join(parts, sep) == ""
    ensures parts == [""]
  {
  }

  /** `lines.map(f)` */
  function MapLines(f: string -> string, lines: seq<string>): (r: seq<string>)
    ensures |r| == |lines|
  {
    if lines == [] then [] else [f(lines[0])] + MapLines(f, lines[1..])
  }

  lemma {:induction false} MapLinesAt(f: string -> string, lines: seq<string>, i: nat)
    requires i < |lines|
    ensures MapLines(f, lines)[i] == f(lines[i])
  {
    if i > 0 {
      MapLinesAt(f, lines[1..], i - 1);
    }
  }

  lemma {:induction false} MapLinesAppend(f: string -> string, a: seq<string>, b: seq<string>)
    ensures MapLines(f, a + b) == MapLines(f, a) + MapLines(f, b)
  {
    if a != [] {
      MapLinesAppend(f, a[1..], b);
      assert (a + b)[1..] == a[1..] + b;
    } else {
      assert a + b == b;
    }
  }

  /** One more line mapped: the step the fixer's loop takes. */
  lemma MapLinesStep(f: string -> string, lines: seq<string>, i: nat)
    requires i < |lines|
    ensures MapLines(f, lines[..i + 1]) + lines[i + 1..] == (MapLines(f, lines[..i]) + lines[i..])[i := f(lines[i])]
  {
    var done := MapLines(f, lines[..i]);
    MapLinesAppend(f, lines[..i], [lines[i]]);
    assert lines[..i] + [lines[i]] == lines[..i + 1];
    assert MapLines(f, [lines[i]]) == [f(lines[i])];
    var lhs := MapLines(f, lines[..i + 1]) + lines[i + 1..];
    var rhs := (done + lines[i..])[i := f(lines[i])];
    assert lhs == done + [f(lines[i])] + lines[i + 1..];
    forall k | 0 <= k < |lhs| ensures lhs[k] == rhs[k] {
      if k > i {
        assert lhs[k] == lines[k];
      }
    }
  }

  /** `s.replace(/a/g, b)` for single characters. */
  function ReplaceChar(s: string, a: char, b: char): (r: string)
    ensures |r| == |s|
    ensures forall i :: 0 <= i < |s| ==> r[i] == (if s[i] == a then b else s[i])
  {
    if s == [] then [] else [if s[0] == a then b else s[0]] + ReplaceChar(s[1..], a, b)
  }

  function DigitChar(d: nat): char
    requires d < 10
  {
    "0123456789"[d]
  }

  /** Decimal rendering of a natural number, as a template literal prints it. */
  function NatToString(n: nat): (r: string)
    ensures |r| >= 1
    ensures forall i :: 0 <= i < |r| ==> IsDigit(r[i])
  {
    if n < 10 then [DigitChar(n)] else NatToString(n / 10) + [DigitChar(n % 10)]
  }

  function IntToString(n: int): (r: string)
    ensures |r| >= 1
  {
    if n < 0 then "-" + NatToString(-n) else NatToString(n)
  }
}
