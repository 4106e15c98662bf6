/**
 * The loop-header and condition checks of the two validators side by side.
 * On a header written the documented way, `PADAM v:ANKHE = <int>; w <op>
 * <int>; u = u + 1`, the strict check accepts whatever the three names are,
 * and the relaxed one exactly when they are one name. The relaxed check also
 * rejects every header without exactly two semicolons, where the strict one
 * drops empty parts. For conditions, the relaxed check lets an undeclared
 * left side through, and the strict one does not.
 */
module LoopHeaders {
  import opened JsText
  import opened Language
  import opened Patterns
  import RelaxedChecks
  import StrictChecks

  // ---------------------------------------------------------------------
  // Headers as the documentation writes them

  /** `PADAM v:ANKHE = <init>` */
  function DeclPart(v: string, init: string): string {
    "PADAM " + v + ":ANKHE = " + init
  }

  /** `w <op> <bound>` */
  function CondPart(w: string, op: string, bound: string): string {
    w + " " + op + " " + bound
  }

  /** `u = u + 1` */
  function UpdatePart(u: string): string {
    u + " = " + u + " + 1"
  }

  /** The three parts joined by `; `: `d; c; u`. */
  function Header(d: string, c: string, u: string): string {
    d + ";" + (" " + c + ";" + (" " + u))
  }

  /** Every white-space character is a blank, and no white space follows it. */
  ghost predicate SingleBlanks(s: string) {
    && (forall i :: 0 <= i < |s| && IsSpace(s[i]) ==> s[i] == ' ')
    && (forall i, j {:trigger s[i], s[j]} :: 0 <= i < j < |s| && j == i + 1 ==> !(IsSpace(s[i]) && IsSpace(s[j])))
  }

  /** No `;` is followed by another. */
  ghost predicate NoDoubleSemicolon(s: string) {
    forall i, j {:trigger s[i], s[j]} :: 0 <= i < j < |s| && j == i + 1 ==> !(s[i] == ';' && s[j] == ';')
  }

  /** A text with no white space and no `;`, such as a word or an integer literal. */
  predicate Solid(s: string) {
    |s| > 0 && forall i :: 0 <= i < |s| ==> !IsSpace(s[i]) && s[i] != ';'
  }

  // ---------------------------------------------------------------------
  // Scanning facts

  lemma SkipNone(s: string, i: nat)
    requires i < |s| && !IsSpace(s[i])
    ensures SkipSpaces(s, i) == i
  {
  }

  lemma SkipOne(s: string, i: nat)
    requires i + 1 < |s| && IsSpace(s[i]) && !IsSpace(s[i + 1])
    ensures SkipSpaces(s, i) == i + 1
  {
  }

  lemma WordEndAt(s: string, i: nat, j: nat)
    requires i <= j <= |s|
    requires forall k :: i <= k < j ==> IsWordChar(s[k])
    requires j == |s| || !IsWordChar(s[j])
    ensures WordEnd(s, i) == j
  {
  }

  lemma WordSolid(s: string)
    requires IsWord(s)
    ensures Solid(s)
  {
  }

  lemma IntLiteralSolid(s: string)
    requires IsIntLiteral(s)
    ensures Solid(s) && NoTerminators(s)
  {
    IntLiteralChars(s);
  }

  lemma {:induction false} ChooseOpFinds(r: string, ops: seq<string>, tail: Tail, i: nat)
    requires i < |ops| && ops[i] <= r && TailMatches(r[|ops[i]|..], tail)
    ensures ChooseOp(r, ops, tail).Some?
  {
    if i > 0 && !(ops[0] <= r && TailMatches(r[|ops[0]|..], tail)) {
      ChooseOpFinds(r, ops[1..], tail, i - 1);
    }
  }

  // ---------------------------------------------------------------------
  // The three parts are recognised

  /** A word `w` at the start of `s`, then one blank and no more white space. */
  lemma ScanName(s: string, w: string)
    requires IsWord(w) && |w| + 1 < |s| && s[..|w|] == w
    requires s[|w|] == ' ' && !IsSpace(s[|w| + 1])
    ensures WordEnd(s, 0) == |w| && SkipSpaces(s, |w|) == |w| + 1
  {
    forall k | 0 <= k < |w|
      ensures IsWordChar(s[k])
    {
      assert s[k] == s[..|w|][k];
    }
    WordEndAt(s, 0, |w|);
    SkipOne(s, |w|);
  }

  /** `PADAM`, white space, the name `v` up to `n`, then `:ANKHE`. */
  lemma DeclHeadIs(s: string, n: nat, v: string)
    requires 6 < n < |s| && "PADAM" <= s && SkipSpaces(s, 5) == 6 && WordEnd(s, 6) == n && s[6..n] == v
    requires s[n] == ':' && "ANKHE" <= s[n + 1..]
    ensures DeclHead(s) == Some((v, ANKHE, n + 6))
  {
    var r := s[n + 1..];
    assert r[0] == 'A' && s[n + 1] == r[0];
    SkipNone(s, n);
    SkipNone(s, n + 1);
    assert !("VARTTAI" <= r);
  }

  /** A declaration head of type `ANKHE`, then ` = ` and an integer literal. */
  lemma LoopDeclVarIs(s: string, n: nat, v: string)
    requires n + 9 < |s| && DeclHead(s) == Some((v, ANKHE, n + 6))
    requires s[n + 6] == ' ' && s[n + 7] == '=' && s[n + 8] == ' ' && IsIntLiteral(s[n + 9..])
    ensures LoopDeclVar(s) == Some(v)
  {
    var lit := s[n + 9..];
    IntLiteralSolid(lit);
    assert lit[0] == s[n + 9];
    SkipOne(s, n + 6);
    SkipOne(s, n + 8);
  }

  /** The text after the name of a declaration part is recognised. */
  lemma DeclAfterName(s: string, n: nat, v: string, init: string)
    requires 6 < n <= |s| && "PADAM" <= s && SkipSpaces(s, 5) == 6 && WordEnd(s, 6) == n && s[6..n] == v
    requires s[n..] == ":ANKHE = " + init && IsIntLiteral(init)
    ensures LoopDeclVar(s) == Some(v)
  {
    var x := s[n..];
    assert |x| == 9 + |init|;
    var x1 := x[1..];
    assert x[0] == ':' && "ANKHE" <= x1 && x[6] == ' ' && x[7] == '=' && x[8] == ' ' && x[9..] == init;
    assert s[n] == x[0] && s[n + 1..] == x1;
    DeclHeadIs(s, n, v);
    assert s[n + 6] == x[6] && s[n + 7] == x[7] && s[n + 8] == x[8] && s[n + 9..] == x[9..];
    LoopDeclVarIs(s, n, v);
  }

  /** The declaration part declares `v`. */
  lemma DeclPartVar(v: string, init: string)
    requires IsWord(v) && IsIntLiteral(init)
    ensures LoopDeclVar(DeclPart(v, init)) == Some(v)
  {
    var s := DeclPart(v, init);
    var n := 6 + |v|;
    var t := v + ":ANKHE = " + init;
    assert s == "PADAM " + t;
    assert s[..5] == "PADAM" && s[5] == ' ' && s[6..] == t;
    assert t[..|v|] == v && t[|v|] == ':';
    forall k | 6 <= k < n
      ensures IsWordChar(s[k])
    {
      assert s[k] == t[k - 6] == v[k - 6];
    }
    SkipOne(s, 5);
    WordEndAt(s, 6, n);
    assert s[6..n] == t[..|v|];
    assert s[n..] == t[|v|..] == ":ANKHE = " + init;
    DeclAfterName(s, n, v, init);
  }

  /** A comparison `name op t`, where `t` is a tail that fits. */
  lemma MatchAfterName(s: string, n: nat, op: string, t: string, tail: Tail)
    requires 0 < n < |s| && WordEnd(s, 0) == n && SkipSpaces(s, n) == n + 1
    requires s[n + 1..] == op + t && op in RelOps && TailMatches(t, tail)
    ensures MatchComparison(s, tail).Some? && MatchComparison(s, tail).value.name == s[..n]
  {
    var r := s[n + 1..];
    assert r[|op|..] == t;
    var i :| 0 <= i < |RelOps| && RelOps[i] == op;
    ChooseOpFinds(r, RelOps, tail, i);
  }

  /** A blank and an integer literal fit both comparison tails. */
  lemma BlankBoundFits(bound: string, tail: Tail)
    requires IsIntLiteral(bound)
    ensures TailMatches(" " + bound, tail)
  {
    IntLiteralSolid(bound);
    var t := " " + bound;
    SkipOne(t, 0);
    assert t[1..] == bound;
  }

  /** The condition part is a comparison of `w`, with any tail and with an integer bound. */
  lemma CondPartMatches(w: string, op: string, bound: string, tail: Tail)
    requires IsWord(w) && op in RelOps && IsIntLiteral(bound)
    ensures MatchComparison(CondPart(w, op, bound), tail).Some?
    ensures MatchComparison(CondPart(w, op, bound), tail).value.name == w
  {
    var s := CondPart(w, op, bound);
    var n := |w|;
    var t := op + (" " + bound);
    assert s == w + (" " + t);
    assert s[..n] == w && s[n] == ' ' && s[n + 1..] == t && s[n + 1] == op[0];
    ScanName(s, w);
    BlankBoundFits(bound, tail);
    MatchAfterName(s, n, op, " " + bound, tail);
  }

  /** After `u =`, a blank, `u`, and ` + 1`. */
  lemma UpdateTailIs(s: string, u: string)
    requires IsWord(u) && 2 * |u| + 7 == |s| && s[..|u|] == u && WordEnd(s, 0) == |u| && SkipSpaces(s, |u|) == |u| + 1
    requires s[|u| + 1] == '=' && s[|u| + 2] == ' ' && s[|u| + 3..2 * |u| + 3] == u
    requires s[2 * |u| + 3] == ' ' && s[2 * |u| + 4] == '+' && s[2 * |u| + 5] == ' ' && s[2 * |u| + 6] == '1'
    ensures UpdateVar(s) == Some(u)
  {
    var n := |u|;
    assert u[0] == s[n + 3];
    SkipOne(s, n + 2);
    assert s[n + 3..][..n] == s[n + 3..2 * n + 3];
    SkipOne(s, 2 * n + 3);
    SkipOne(s, 2 * n + 5);
    assert s[2 * n + 6..] == [s[2 * n + 6]];
  }

  /** The text after the name of an update part is recognised. */
  lemma UpdateAfterName(s: string, u: string)
    requires IsWord(u) && |u| < |s| && s[..|u|] == u && WordEnd(s, 0) == |u| && SkipSpaces(s, |u|) == |u| + 1
    requires s[|u| + 1..] == "= " + u + " + 1"
    ensures UpdateVar(s) == Some(u)
  {
    var n := |u|;
    var x := s[n + 1..];
    assert |x| == n + 6;
    assert x[0] == '=' && x[1] == ' ' && x[2..n + 2] == u && x[n + 2] == ' ' && x[n + 3] == '+' && x[n + 4] == ' ' && x[n + 5] == '1';
    assert s[n + 1] == x[0] && s[n + 2] == x[1] && s[n + 3..2 * n + 3] == x[2..n + 2];
    assert s[2 * n + 3] == x[n + 2] && s[2 * n + 4] == x[n + 3] && s[2 * n + 5] == x[n + 4] && s[2 * n + 6] == x[n + 5];
    UpdateTailIs(s, u);
  }

  /** The update part increments `u`. */
  lemma UpdatePartVar(u: string)
    requires IsWord(u)
    ensures UpdateVar(UpdatePart(u)) == Some(u)
  {
    var s := UpdatePart(u);
    var n := |u|;
    var t := "= " + u + " + 1";
    assert s == u + (" " + t);
    assert s[..n] == u && s[n] == ' ' && s[n + 1..] == t && s[n + 1] == '=';
    ScanName(s, u);
    UpdateAfterName(s, u);
  }

  // ---------------------------------------------------------------------
  // Splitting, trimming and collapsing a documented header

  lemma SplitAfter(a: string, b: string)
    requires ';' !in a
    ensures Split(a + ";" + b, ';') == [a] + Split(b, ';')
  {
    var s := a + ";" + b;
    var k := FindChar(s, ';', 0);
    assert s[|a|] == ';';
    forall j | 0 <= j < |a|
      ensures s[j] != ';'
    {
      assert s[j] == a[j];
    }
    assert k == |a|;
    assert s[..k] == a && s[k + 1..] == b;
  }

  lemma SplitNone(a: string)
    requires ';' !in a
    ensures Split(a, ';') == [a]
  {
  }

  lemma SplitHeader(d: string, c: string, u: string)
    requires ';' !in d && ';' !in c && ';' !in u
    ensures Split(Header(d, c, u), ';') == [d] + ([" " + c] + [" " + u])
  {
    var mid := " " + c;
    var last := " " + u;
    var rest := mid + ";" + last;
    SplitNone(last);
    SplitAfter(mid, last);
    SplitAfter(d, rest);
  }

  lemma TrimBare(s: string)
    requires s != [] && !IsSpace(s[0]) && !IsSpace(s[|s| - 1])
    ensures Trim(s) == s
  {
    TrimStartNoLead(s);
    TrimEndNoTrail(s);
  }

  lemma TrimBlankFirst(s: string)
    requires s != [] && !IsSpace(s[0]) && !IsSpace(s[|s| - 1])
    ensures Trim(" " + s) == s
  {
    assert (" " + s)[1..] == s;
    TrimBare(s);
  }

  lemma SingleBlanksAppend(x: string, y: string)
    requires SingleBlanks(x) && SingleBlanks(y)
    requires x == [] || y == [] || !IsSpace(x[|x| - 1]) || !IsSpace(y[0])
    ensures SingleBlanks(x + y)
  {
    var s := x + y;
    forall i | 0 <= i < |s| && IsSpace(s[i])
      ensures s[i] == ' '
    {
      if i < |x| {
        assert s[i] == x[i];
      } else {
        assert s[i] == y[i - |x|];
      }
    }
    forall i, j | 0 <= i < j < |s| && j == i + 1
      ensures !(IsSpace(s[i]) && IsSpace(s[j]))
    {
      if j < |x| {
        assert s[i] == x[i] && s[j] == x[j];
      } else if i < |x| {
        assert s[i] == x[|x| - 1] && s[j] == y[0];
      } else {
        assert s[i] == y[i - |x|] && s[j] == y[j - |x|];
      }
    }
  }

  lemma SolidBlanks(s: string)
    requires Solid(s)
    ensures SingleBlanks(s)
  {
  }

  lemma SingleBlanksTail(s: string)
    requires s != [] && SingleBlanks(s)
    ensures SingleBlanks(s[1..])
  {
    var t := s[1..];
    forall i | 0 <= i < |t| && IsSpace(t[i])
      ensures t[i] == ' '
    {
      assert t[i] == s[i + 1];
    }
    forall i, j | 0 <= i < j < |t| && j == i + 1
      ensures !(IsSpace(t[i]) && IsSpace(t[j]))
    {
      assert t[i] == s[i + 1] && t[j] == s[j + 1];
    }
  }

  /** A blank followed by no more white space is all `trimStart` removes. */
  lemma TrimStartOneBlank(s: string)
    requires s != [] && IsSpace(s[0]) && SingleBlanks(s)
    ensures TrimStart(s) == s[1..]
  {
    var t := s[1..];
    if t != [] {
      assert t[0] == s[1];
      assert !(IsSpace(s[0]) && IsSpace(s[1]));
    }
    TrimStartNoLead(t);
  }

  lemma ConsTail(s: string)
    requires s != []
    ensures [s[0]] + s[1..] == s
  {
  }

  lemma {:induction false} CollapseSingleBlanks(s: string)
    requires SingleBlanks(s)
    ensures CollapseSpaces(s) == s
    decreases |s|
  {
    if s != [] {
      var t := s[1..];
      SingleBlanksTail(s);
      CollapseSingleBlanks(t);
      if IsSpace(s[0]) {
        TrimStartOneBlank(s);
      }
      ConsTail(s);
    }
  }

  /** A text that starts and ends with a character other than white space. */
  predicate Bare(s: string) {
    s != [] && !IsSpace(s[0]) && !IsSpace(s[|s| - 1])
  }

  lemma DeclKeywordsBlanks()
    ensures SingleBlanks("PADAM ") && SingleBlanks(":ANKHE = ")
  {
  }

  /** The character-level shape of a declaration part. */
  lemma DeclShape(v: string, init: string)
    requires IsWord(v) && IsIntLiteral(init)
    ensures var d := DeclPart(v, init); ';' !in d && Bare(d) && SingleBlanks(d)
  {
    WordSolid(v);
    IntLiteralSolid(init);
    SolidBlanks(v);
    SolidBlanks(init);
    var k1 := "PADAM ";
    var k2 := ":ANKHE = ";
    DeclKeywordsBlanks();
    var p1 := k1 + v;
    SingleBlanksAppend(k1, v);
    var p2 := p1 + k2;
    SingleBlanksAppend(p1, k2);
    var d := p2 + init;
    SingleBlanksAppend(p2, init);
    assert d[0] == 'P' && d[|d| - 1] == init[|init| - 1];
  }

  /** The character-level shape of a condition part. */
  lemma CondShape(w: string, op: string, bound: string)
    requires IsWord(w) && op in RelOps && IsIntLiteral(bound)
    ensures var c := CondPart(w, op, bound); ';' !in c && Bare(c) && SingleBlanks(c)
  {
    WordSolid(w);
    IntLiteralSolid(bound);
    assert Solid(op);
    SolidBlanks(w);
    SolidBlanks(op);
    SolidBlanks(bound);
    var b := " ";
    assert SingleBlanks(b);
    var p1 := w + b;
    SingleBlanksAppend(w, b);
    var p2 := p1 + op;
    SingleBlanksAppend(p1, op);
    var p3 := p2 + b;
    SingleBlanksAppend(p2, b);
    var c := p3 + bound;
    SingleBlanksAppend(p3, bound);
    assert c[0] == w[0] && c[|c| - 1] == bound[|bound| - 1];
  }

  /** The character-level shape of an update part. */
  lemma UpdateShape(u: string)
    requires IsWord(u)
    ensures var up := UpdatePart(u); ';' !in up && Bare(up) && SingleBlanks(up)
  {
    WordSolid(u);
    SolidBlanks(u);
    var k1 := " = ";
    var k2 := " + 1";
    assert SingleBlanks(k1) && SingleBlanks(k2);
    var p1 := u + k1;
    SingleBlanksAppend(u, k1);
    var p2 := p1 + u;
    SingleBlanksAppend(p1, u);
    var up := p2 + k2;
    SingleBlanksAppend(p2, k2);
    assert up[0] == u[0] && up[|up| - 1] == '1';
  }

  lemma HeaderBlanks(d: string, c: string, u: string)
    requires SingleBlanks(d) && SingleBlanks(c) && SingleBlanks(u)
    requires Bare(c) && Bare(u)
    ensures SingleBlanks(Header(d, c, u))
  {
    var b := " ";
    var semi := ";";
    assert SingleBlanks(b) && SingleBlanks(semi);
    var a1 := b + c;
    SingleBlanksAppend(b, c);
    var a2 := a1 + semi;
    SingleBlanksAppend(a1, semi);
    var a3 := b + u;
    SingleBlanksAppend(b, u);
    var a4 := a2 + a3;
    SingleBlanksAppend(a2, a3);
    var a5 := d + semi;
    SingleBlanksAppend(d, semi);
    SingleBlanksAppend(a5, a4);
  }

  /** With no `;` followed by another, `includes(";;")` is false. */
  lemma {:induction false} NoDoubleSemicolonNotContained(s: string)
    requires NoDoubleSemicolon(s)
    ensures !Contains(s, ";;")
    decreases |s|
  {
    if s != [] {
      var t := s[1..];
      forall i, j | 0 <= i < j < |t| && j == i + 1
        ensures !(t[i] == ';' && t[j] == ';')
      {
        assert t[i] == s[i + 1] && t[j] == s[j + 1];
      }
      NoDoubleSemicolonNotContained(t);
      if |s| >= 2 {
        assert !(s[0] == ';' && s[1] == ';');
      }
    }
  }

  lemma HeaderNoDoubleSemicolon(d: string, c: string, u: string)
    requires ';' !in d && ';' !in c && ';' !in u
    ensures !Contains(Header(d, c, u), ";;")
  {
    var s := Header(d, c, u);
    var p := |d|;
    var q := |d| + 2 + |c|;
    forall i, j | 0 <= i < j < |s| && j == i + 1
      ensures !(s[i] == ';' && s[j] == ';')
    {
      if i < p {
        assert s[i] == d[i];
      } else if i == p || i == q {
        assert s[j] == ' ';
      } else if i == p + 1 || i == q + 1 {
        assert s[i] == ' ';
      } else if i < q {
        assert s[i] == c[i - p - 2];
      } else {
        assert s[i] == u[i - q - 2];
      }
    }
    NoDoubleSemicolonNotContained(s);
  }

  // ---------------------------------------------------------------------
  // Counting semicolons

  lemma {:induction false} SplitCount(s: string, c: char)
    ensures |Split(s, c)| == Count(s, c) + 1
    decreases |s|
  {
    var k := FindChar(s, c, 0);
    if k < |s| {
      var pre := s[..k];
      var rest := s[k + 1..];
      var tl := [c] + rest;
      SplitCount(rest, c);
      assert s == pre + tl;
      CountAppend(pre, tl, c);
      CountAppend([c], rest, c);
    }
  }

  lemma TrimStartKeepsCount(s: string, c: char)
    requires !IsSpace(c)
    ensures Count(TrimStart(s), c) == Count(s, c)
  {
    var t := TrimStart(s);
    var pre := s[..|s| - |t|];
    assert s == pre + t;
    CountAppend(pre, t, c);
    assert c !in pre;
  }

  lemma TrimEndKeepsCount(s: string, c: char)
    requires !IsSpace(c)
    ensures Count(TrimEnd(s), c) == Count(s, c)
  {
    var r := TrimEnd(s);
    var post := s[|r|..];
    assert s == r + post;
    CountAppend(r, post, c);
    assert c !in post;
  }

  lemma TrimKeepsCount(s: string, c: char)
    requires !IsSpace(c)
    ensures Count(Trim(s), c) == Count(s, c)
  {
    var t := TrimStart(s);
    TrimStartKeepsCount(s, c);
    TrimEndKeepsCount(t, c);
  }

  lemma {:induction false} NonSpaceKeepsCount(s: string, c: char)
    requires !IsSpace(c)
    ensures Count(NonSpace(s), c) == Count(s, c)
  {
    if s != [] {
      NonSpaceKeepsCount(s[1..], c);
      var head := if IsSpace(s[0]) then [] else [s[0]];
      CountAppend(head, NonSpace(s[1..]), c);
    }
  }

  lemma CollapseKeepsCount(s: string, c: char)
    requires !IsSpace(c)
    ensures Count(CollapseSpaces(s), c) == Count(s, c)
  {
    CollapseKeepsNonSpace(s);
    NonSpaceKeepsCount(s, c);
    NonSpaceKeepsCount(CollapseSpaces(s), c);
  }

  // ---------------------------------------------------------------------
  // The verdicts

  /** What both checks find in the parts of a documented header. */
  lemma DocumentedParts(v: string, init: string, w: string, op: string, bound: string, u: string)
    requires IsWord(v) && IsWord(w) && IsWord(u) && IsIntLiteral(init) && IsIntLiteral(bound) && op in RelOps
    ensures var d := DeclPart(v, init);
      var c := CondPart(w, op, bound);
      var up := UpdatePart(u);
      && Split(Header(d, c, up), ';') == [d] + ([" " + c] + [" " + up])
      && d != "" && c != "" && up != ""
      && Trim(d) == d && Trim(" " + c) == c && Trim(" " + up) == up
      && LoopDeclVar(d) == Some(v) && UpdateVar(up) == Some(u)
      && MatchComparison(c, IntBound).Some?
      && MatchComparison(c, AnyText).Some? && MatchComparison(c, AnyText).value.name == w
  {
    var d := DeclPart(v, init);
    var c := CondPart(w, op, bound);
    var up := UpdatePart(u);
    DeclShape(v, init);
    CondShape(w, op, bound);
    UpdateShape(u);
    SplitHeader(d, c, up);
    TrimBare(d);
    TrimBlankFirst(c);
    TrimBlankFirst(up);
    DeclPartVar(v, init);
    CondPartMatches(w, op, bound, IntBound);
    CondPartMatches(w, op, bound, AnyText);
    UpdatePartVar(u);
  }

  lemma TrimmedCons(x: string, rest: seq<string>)
    ensures StrictChecks.TrimmedNonEmpty([x] + rest)
      == (if Trim(x) == "" then [] else [Trim(x)]) + StrictChecks.TrimmedNonEmpty(rest)
  {
    var p := [x] + rest;
    assert p[0] == x && p[1..] == rest;
  }

  lemma TrimmedOne(x: string)
    ensures StrictChecks.TrimmedNonEmpty([x]) == if Trim(x) == "" then [] else [Trim(x)]
  {
    var p := [x];
    assert p[1..] == [];
  }

  /** `.map(p => p.trim()).filter(Boolean)` on three parts that trim to non-empty texts. */
  lemma TrimmedThree(a: string, b: string, c: string)
    requires Trim(a) != "" && Trim(b) != "" && Trim(c) != ""
    ensures StrictChecks.TrimmedNonEmpty([a] + ([b] + [c])) == [Trim(a)] + ([Trim(b)] + [Trim(c)])
  {
    TrimmedOne(c);
    var l1 := [c];
    TrimmedCons(b, l1);
    var l2 := [b] + l1;
    TrimmedCons(a, l2);
  }

  lemma ThreeItems(s: seq<string>, x: string, y: string, z: string)
    requires s == [x] + ([y] + [z])
    ensures |s| == 3 && s[0] == x && s[1] == y && s[2] == z
  {
  }

  /** The strict check accepts a header whose non-empty trimmed parts are a declaration, a bound and an update. */
  lemma StrictFromParts(h: string, p0: string, p1: string, p2: string)
    requires StrictChecks.TrimmedNonEmpty(Split(h, ';')) == [p0] + ([p1] + [p2])
    requires LoopDeclVar(p0).Some? && MatchComparison(p1, IntBound).Some? && UpdateVar(p2).Some?
    ensures StrictChecks.ValidateLoop(h)
  {
    var parts := StrictChecks.TrimmedNonEmpty(Split(h, ';'));
    ThreeItems(parts, p0, p1, p2);
  }

  /** The strict check on a header split into three parts. */
  lemma StrictThreeParts(h: string, a: string, b: string, c: string, p0: string, p1: string, p2: string)
    requires Split(h, ';') == [a] + ([b] + [c])
    requires Trim(a) == p0 && Trim(b) == p1 && Trim(c) == p2 && p0 != "" && p1 != "" && p2 != ""
    requires LoopDeclVar(p0).Some? && MatchComparison(p1, IntBound).Some? && UpdateVar(p2).Some?
    ensures StrictChecks.ValidateLoop(h)
  {
    TrimmedThree(a, b, c);
    StrictFromParts(h, p0, p1, p2);
  }

  /** On a documented header, the strict check accepts whatever the three names are. */
  lemma StrictAcceptsDocumented(v: string, init: string, w: string, op: string, bound: string, u: string)
    requires IsWord(v) && IsWord(w) && IsWord(u) && IsIntLiteral(init) && IsIntLiteral(bound) && op in RelOps
    ensures StrictChecks.ValidateLoop(Header(DeclPart(v, init), CondPart(w, op, bound), UpdatePart(u)))
  {
    var d := DeclPart(v, init);
    var c := CondPart(w, op, bound);
    var up := UpdatePart(u);
    DocumentedParts(v, init, w, op, bound, u);
    StrictThreeParts(Header(d, c, up), d, " " + c, " " + up, d, c, up);
  }

  /** A documented header is left as it is by the relaxed check's normalisation. */
  lemma DocumentedNormalized(v: string, init: string, w: string, op: string, bound: string, u: string)
    requires IsWord(v) && IsWord(w) && IsWord(u) && IsIntLiteral(init) && IsIntLiteral(bound) && op in RelOps
    ensures var h := Header(DeclPart(v, init), CondPart(w, op, bound), UpdatePart(u));
      Trim(CollapseSpaces(h)) == h && !Contains(h, ";;")
  {
    var d := DeclPart(v, init);
    var c := CondPart(w, op, bound);
    var up := UpdatePart(u);
    var h := Header(d, c, up);
    DeclShape(v, init);
    CondShape(w, op, bound);
    UpdateShape(u);
    HeaderBlanks(d, c, up);
    CollapseSingleBlanks(h);
    assert h[0] == d[0] && h[|h| - 1] == up[|up| - 1];
    TrimBare(h);
    HeaderNoDoubleSemicolon(d, c, up);
  }

  /** The relaxed check on a normalised header split into three parts. */
  lemma RelaxedThreeParts(h: string, a: string, b: string, c: string, p0: string, p1: string, p2: string,
                          v: string, w: string, u: string)
    requires Trim(CollapseSpaces(h)) == h && !Contains(h, ";;")
    requires Split(h, ';') == [a] + ([b] + [c])
    requires Trim(a) == p0 && Trim(b) == p1 && Trim(c) == p2 && p0 != "" && p1 != "" && p2 != ""
    requires LoopDeclVar(p0) == Some(v) && UpdateVar(p2) == Some(u)
    requires MatchComparison(p1, AnyText).Some? && MatchComparison(p1, AnyText).value.name == w
    ensures RelaxedChecks.ValidateLoop(h) <==> w == v && u == v
  {
    ThreeItems(Split(h, ';'), a, b, c);
  }

  /**
   * On a documented header, the relaxed check accepts exactly when the
   * comparison and the update name the declared variable.
   */
  lemma RelaxedDocumented(v: string, init: string, w: string, op: string, bound: string, u: string)
    requires IsWord(v) && IsWord(w) && IsWord(u) && IsIntLiteral(init) && IsIntLiteral(bound) && op in RelOps
    ensures RelaxedChecks.ValidateLoop(Header(DeclPart(v, init), CondPart(w, op, bound), UpdatePart(u))) <==> w == v && u == v
  {
    var d := DeclPart(v, init);
    var c := CondPart(w, op, bound);
    var up := UpdatePart(u);
    DocumentedParts(v, init, w, op, bound, u);
    DocumentedNormalized(v, init, w, op, bound, u);
    RelaxedThreeParts(Header(d, c, up), d, " " + c, " " + up, d, c, up, v, w, u);
  }

  /**
   * On a documented header, the strict check accepts whatever the three
   * names are; the relaxed check accepts exactly when the comparison and the
   * update name the declared variable.
   */
  lemma DocumentedHeaderVerdicts(v: string, init: string, w: string, op: string, bound: string, u: string)
    requires IsWord(v) && IsWord(w) && IsWord(u) && IsIntLiteral(init) && IsIntLiteral(bound) && op in RelOps
    ensures var h := Header(DeclPart(v, init), CondPart(w, op, bound), UpdatePart(u));
      && StrictChecks.ValidateLoop(h)
      && (RelaxedChecks.ValidateLoop(h) <==> w == v && u == v)
  {
    StrictAcceptsDocumented(v, init, w, op, bound, u);
    RelaxedDocumented(v, init, w, op, bound, u);
  }

  /** The relaxed check accepts only a header with exactly two semicolons. */
  lemma RelaxedNeedsTwoSemicolons(header: string)
    ensures Count(header, ';') != 2 ==> !RelaxedChecks.ValidateLoop(header)
  {
    var collapsed := CollapseSpaces(header);
    var normalized := Trim(collapsed);
    SplitCount(normalized, ';');
    TrimKeepsCount(collapsed, ';');
    CollapseKeepsCount(header, ';');
  }

  /** The parts of a header with an empty part after the declaration. */
  lemma SplitEmptyPart(d: string, c: string, up: string)
    requires ';' !in d && ';' !in c && ';' !in up
    ensures Split(d + ";" + Header("", c, up), ';') == [d] + ([""] + ([" " + c] + [" " + up]))
  {
    var inner := Header("", c, up);
    SplitHeader("", c, up);
    SplitAfter(d, inner);
  }

  /** The empty part is dropped by the strict check's filter. */
  lemma TrimmedSkipsEmpty(a: string, b: string, c: string)
    requires Trim(a) != "" && Trim(b) != "" && Trim(c) != ""
    ensures StrictChecks.TrimmedNonEmpty([a] + ([""] + ([b] + [c]))) == [Trim(a)] + ([Trim(b)] + [Trim(c)])
  {
    TrimmedOne(c);
    var l1 := [c];
    TrimmedCons(b, l1);
    var l2 := [b] + l1;
    TrimmedCons("", l2);
    assert Trim("") == "";
    var l3 := [""] + l2;
    TrimmedCons(a, l3);
  }

  /**
   * A documented header with one more `;` after the declaration: the strict
   * check drops the empty part and accepts it, the relaxed check counts three
   * semicolons and rejects it.
   */
  lemma EmptyPartVerdicts(v: string, init: string, op: string, bound: string)
    requires IsWord(v) && IsIntLiteral(init) && IsIntLiteral(bound) && op in RelOps
    ensures var h := DeclPart(v, init) + ";" + Header("", CondPart(v, op, bound), UpdatePart(v));
      StrictChecks.ValidateLoop(h) && !RelaxedChecks.ValidateLoop(h)
  {
    var d := DeclPart(v, init);
    var c := CondPart(v, op, bound);
    var up := UpdatePart(v);
    var h := d + ";" + Header("", c, up);
    DocumentedParts(v, init, v, op, bound, v);
    DeclShape(v, init);
    CondShape(v, op, bound);
    UpdateShape(v);
    SplitEmptyPart(d, c, up);
    TrimmedSkipsEmpty(d, " " + c, " " + up);
    StrictFromParts(h, d, c, up);
    SplitCount(h, ';');
    RelaxedNeedsTwoSemicolons(h);
  }

  // ---------------------------------------------------------------------
  // Conditions

  /**
   * The two condition checks compared, when every name in the table is a
   * word (declarations and loop headers only ever add words): neither
   * accepts a text that is not a comparison; the relaxed check accepts a
   * comparison whose left side is undeclared, which the strict check
   * rejects; and on a declared left side the relaxed check is the stricter
   * one, rejecting in addition a string compared with anything but a quoted
   * literal or a string variable, and an integer compared with anything but
   * an integer literal or an integer variable.
   */
  lemma ConditionVerdicts(table: Table, cond: string)
    requires forall x :: x in table ==> IsWord(x)
    ensures var m := MatchComparison(cond, AnyText);
      && (m.None? ==> !RelaxedChecks.ValidateCondition(table, cond) && !StrictChecks.ValidateCondition(table, cond))
      && (m.Some? && m.value.name !in table ==>
            RelaxedChecks.ValidateCondition(table, cond) && !StrictChecks.ValidateCondition(table, cond))
      && (m.Some? && m.value.name in table && RelaxedChecks.ValidateCondition(table, cond) ==>
            StrictChecks.ValidateCondition(table, cond))
      && (m.Some? && m.value.name in table && table[m.value.name] == VARTTAI ==>
            (RelaxedChecks.ValidateCondition(table, cond) <==>
               StrictChecks.ValidateCondition(table, cond) && (IsQuoted(Trim(m.value.rest)) || (Trim(m.value.rest) in table && table[Trim(m.value.rest)] == VARTTAI))))
  {
  }
}
