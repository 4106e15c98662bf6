/**
 * Hand-written matchers for the regular expressions the validators use.
 * Each matcher follows the backtracking semantics of the JavaScript engine:
 * `\s`, `\w` and `\d` are the classes of module JsText, `^`/`$` anchor at the
 * ends of the whole string (no `m` flag), and `.` excludes line terminators
 * unless the pattern carries the `s` flag.
 */
module Patterns {
  import opened JsText
  import opened Language

  datatype Option<T> = None | Some(value: T)

  /** Index of the first non-`\s` character at or after `i`. */
  function SkipSpaces(s: string, i: nat): (j: nat)
    requires i <= |s|
    ensures i <= j <= |s|
    ensures forall k :: i <= k < j ==> IsSpace(s[k])
    ensures j == |s| || !IsSpace(s[j])
    decreases |s| - i
  {
    if i < |s| && IsSpace(s[i]) then SkipSpaces(s, i + 1) else i
  }

  /** End of the maximal run of `\w` characters starting at `i`. */
  function WordEnd(s: string, i: nat): (j: nat)
    requires i <= |s|
    ensures i <= j <= |s|
    ensures forall k :: i <= k < j ==> IsWordChar(s[k])
    ensures j == |s| || !IsWordChar(s[j])
    decreases |s| - i
  {
    if i < |s| && IsWordChar(s[i]) then WordEnd(s, i + 1) else i
  }

  /** `^\w+$` */
  predicate IsWord(s: string) {
    |s| > 0 && forall i :: 0 <= i < |s| ==> IsWordChar(s[i])
  }

  /** `^\d+$` */
  predicate IsDigits(s: string) {
    |s| > 0 && forall i :: 0 <= i < |s| ==> IsDigit(s[i])
  }

  /** `^-?\d+$` */
  predicate IsIntLiteral(s: string) {
    if |s| > 0 && s[0] == '-' then IsDigits(s[1..]) else IsDigits(s)
  }

  /** `^".*"$` (no `s` flag) */
  predicate IsQuoted(s: string) {
    |s| >= 2 && s[0] == '"' && s[|s| - 1] == '"' && NoTerminators(s)
  }

  /** `^[a-zA-Z_]\w*$` */
  predicate IsIdentifier(s: string) {
    IsWord(s) && !IsDigit(s[0])
  }

  /** `^[\d\s\+\-\*\/\(\)]+$` */
  predicate IsArithChars(s: string) {
    |s| > 0 && forall i :: 0 <= i < |s| ==> ArithChar(s[i])
  }

  predicate ArithChar(c: char) {
    IsDigit(c) || IsSpace(c) || c in "+-*/()"
  }

  /** `\s*(.+)$` without the `s` flag, matched against all of `t`. */
  predicate SpacesThenText(t: string) {
    var k := SkipSpaces(t, 0);
    if k < |t| then NoTerminators(t[k..]) else |t| > 0 && !IsLineTerminator(t[|t| - 1])
  }

  /**
   * `^t0\s*t1\s*...\s*tn$` from position `i`, for literal pieces that do not
   * start with white space.
   */
  predicate SpacedPieces(s: string, i: nat, pieces: seq<string>)
    requires i <= |s|
    decreases |pieces|
  {
    if pieces == [] then i == |s|
    else
      pieces[0] <= s[i..] &&
      var j := i + |pieces[0]|;
      if |pieces| == 1 then j == |s| else SpacedPieces(s, SkipSpaces(s, j), pieces[1..])
  }

  /** `^ALAITHE\s*\[$` */
  predicate IsElseOpener(s: string) { SpacedPieces(s, 0, ["ALAITHE", "["]) }

  /** `^]\s*ALAITHE\s*\[$` */
  predicate IsCloseElse(s: string) { SpacedPieces(s, 0, ["]", "ALAITHE", "["]) }

  /** `/\[$/` */
  predicate EndsWithOpener(s: string) { |s| > 0 && s[|s| - 1] == '[' }

  /** `/;\s*$/` */
  predicate EndsWithSemicolon(s: string) {
    var t := TrimEnd(s);
    |t| > 0 && t[|t| - 1] == ';'
  }

  /** `/;\s*$|\[$|^]$/`: the buffer ends a statement outside a loop header. */
  predicate ClosesStatement(buffer: string) {
    EndsWithSemicolon(buffer) || EndsWithOpener(buffer) || buffer == "]"
  }

  /** `/\)\s*\[$/` */
  predicate EndsWithParenOpener(s: string) {
    EndsWithOpener(s) &&
    var t := TrimEnd(s[..|s| - 1]);
    |t| > 0 && t[|t| - 1] == ')'
  }

  /** `/MALLI-MALLI\s*\(/`, anywhere in `s`. */
  predicate HasLoopOpener(s: string) {
    LoopOpenerFrom(s, 0)
  }

  /** A loop opener starts at `i` or later. */
  predicate LoopOpenerFrom(s: string, i: nat)
    requires i <= |s|
    decreases |s| - i
  {
    LoopOpenerAt(s, i) || (i < |s| && LoopOpenerFrom(s, i + 1))
  }

  predicate LoopOpenerAt(s: string, i: nat)
    requires i <= |s|
  {
    i + 11 <= |s| && s[i..i + 11] == "MALLI-MALLI" &&
    var k := SkipSpaces(s, i + 11);
    k < |s| && s[k] == '('
  }

  /**
   * `^KW\s*\((.+)\)\s*\[$`, the shape of the `ELAITHE` and `MALLI-MALLI`
   * headers; yields the text captured between the parentheses. `dotAll` is
   * the `s` flag.
   */
  function BracketHeader(s: string, kw: string, dotAll: bool): (r: Option<string>)
    ensures r.Some? ==> |r.value| > 0 && (dotAll || NoTerminators(r.value))
    ensures r.Some? ==> kw <= s && EndsWithParenOpener(s)
    ensures r.Some? ==> SkipSpaces(s, |kw|) < |s| && s[SkipSpaces(s, |kw|)] == '('
  {
    if !(kw <= s) || !EndsWithOpener(s) then None
    else
      var u := SkipSpaces(s, |kw|);
      var v := |TrimEnd(s[..|s| - 1])| - 1;
      if u < |s| && s[u] == '(' && u + 2 <= v && s[v] == ')' && (dotAll || NoTerminators(s[u + 1..v]))
      then Some(s[u + 1..v])
      else None
  }

  /**
   * `^PADAM\s+(\w+)\s*:\s*(VARTTAI|ANKHE)`: the declared name, its type and
   * the position just after the type keyword.
   */
  function DeclHead(s: string): (r: Option<(string, Ty, nat)>)
    ensures r.Some? ==> IsWord(r.value.0) && r.value.2 <= |s|
    ensures r.Some? ==> "PADAM" <= s && 5 < |s| && IsSpace(s[5]) && SkipSpaces(s, 5) < |s| && IsWordChar(s[SkipSpaces(s, 5)])
  {
    if !("PADAM" <= s) then None
    else
      var q := SkipSpaces(s, 5);
      var n := WordEnd(s, q);
      if q == 5 || n == q then None
      else
        var c := SkipSpaces(s, n);
        if c == |s| || s[c] != ':' then None
        else
          var t := SkipSpaces(s, c + 1);
          if "VARTTAI" <= s[t..] then Some((s[q..n], VARTTAI, t + 7))
          else if "ANKHE" <= s[t..] then Some((s[q..n], ANKHE, t + 5))
          else None
  }

  /** `^PADAM\s+(\w+)\s*:\s*ANKHE\s*=\s*-?\d+$`: the loop variable it declares. */
  function LoopDeclVar(s: string): (r: Option<string>)
    ensures r.Some? ==> IsWord(r.value)
  {
    match DeclHead(s)
    case Some((name, ANKHE, e)) =>
      var u := SkipSpaces(s, e);
      if u < |s| && s[u] == '=' && IsIntLiteral(s[SkipSpaces(s, u + 1)..]) then Some(name) else None
    case _ => None
  }

  /** The relational operators, in the order the alternation `(==|!=|<=|>=|<|>)` tries them. */
  const RelOps: seq<string> := ["==", "!=", "<=", ">=", "<", ">"]

  /** Which pattern follows the operator of a comparison. */
  datatype Tail = AnyText   // `\s*(.+)$`
                | IntBound  // `\s*-?\d+$`

  predicate TailMatches(t: string, tail: Tail) {
    match tail
    case AnyText => SpacesThenText(t)
    case IntBound => IsIntLiteral(t[SkipSpaces(t, 0)..])
  }

  /** The first operator of `ops` that starts `r` and leaves a text the tail accepts. */
  function ChooseOp(r: string, ops: seq<string>, tail: Tail): (o: Option<string>)
    ensures o.Some? ==> o.value in ops && o.value <= r && TailMatches(r[|o.value|..], tail)
  {
    if ops == [] then None
    else if ops[0] <= r && TailMatches(r[|ops[0]|..], tail) then Some(ops[0])
    else ChooseOp(r, ops[1..], tail)
  }

  /** A comparison `name op rest`: the three captures of `^(\w+)\s*(==|!=|<=|>=|<|>)` + tail. */
  datatype Comparison = Comparison(name: string, op: string, rest: string)

  function MatchComparison(s: string, tail: Tail): (r: Option<Comparison>)
    ensures r.Some? ==> IsWord(r.value.name) && r.value.op in RelOps
  {
    var n := WordEnd(s, 0);
    if n == 0 then None
    else
      var r := s[SkipSpaces(s, n)..];
      match ChooseOp(r, RelOps, tail)
      case None => None
      case Some(op) => Some(Comparison(s[..n], op, r[|op|..]))
  }

  /** `^(\w+)\s*=\s*\1\s*\+\s*1$`: the variable the update increments. */
  function UpdateVar(s: string): (r: Option<string>)
    ensures r.Some? ==> IsWord(r.value)
  {
    var n := WordEnd(s, 0);
    if n == 0 then None
    else
      var w := s[..n];
      var u := SkipSpaces(s, n);
      if u == |s| || s[u] != '=' then None
      else
        var v := SkipSpaces(s, u + 1);
        if !(w <= s[v..]) then None
        else
          var x := SkipSpaces(s, v + n);
          if x == |s| || s[x] != '+' then None
          else if s[SkipSpaces(s, x + 1)..] == "1" then Some(w) else None
  }

  /**
   * The lexical pieces `\b` sees: maximal runs of `\w` characters and single
   * other characters, in order.
   */
  function Tokens(s: string): (ts: seq<string>)
    ensures Concat(ts) == s
    decreases |s|
  {
    if s == [] then []
    else if IsWordChar(s[0]) then
      var n := WordEnd(s, 0);
      assert s == s[..n] + s[n..];
      [s[..n]] + Tokens(s[n..])
    else
      assert s == s[..1] + s[1..];
      [s[..1]] + Tokens(s[1..])
  }

  /** The tokens of `s` are well formed, and the first begins with the first character of `s`. */
  lemma {:induction false} TokensWellFormed(s: string)
    ensures WellFormedTokens(Tokens(s))
    ensures s == [] <==> Tokens(s) == []
    ensures Tokens(s) != [] ==> Tokens(s)[0][0] == s[0]
    decreases |s|
  {
    if s != [] {
      var n := if IsWordChar(s[0]) then WordEnd(s, 0) else 1;
      TokensWellFormed(s[n..]);
      var rest := Tokens(s[n..]);
      assert Tokens(s) == [s[..n]] + rest;
      if IsWordChar(s[0]) {
        assert IsWord(s[..n]);
        assert rest != [] ==> !IsWordChar(rest[0][0]);
      }
    }
  }

  /** A token is a maximal word or one other character: no two words touch. */
  predicate WellFormedTokens(ts: seq<string>) {
    && (forall i :: 0 <= i < |ts| ==> IsWord(ts[i]) || (|ts[i]| == 1 && !IsWordChar(ts[i][0])))
    && (forall i :: 0 <= i < |ts| - 1 ==> !(IsWord(ts[i]) && IsWord(ts[i + 1])))
  }

  /** Tokenising the text of well-formed tokens gives them back. */
  lemma {:induction false} TokensOfConcat(ts: seq<string>)
    requires WellFormedTokens(ts)
    ensures Tokens(Concat(ts)) == ts
  {
    if ts != [] {
      var s := Concat(ts);
      var t := ts[0];
      var rest := Concat(ts[1..]);
      assert s == t + rest;
      assert WellFormedTokens(ts[1..]);
      TokensOfConcat(ts[1..]);
      ConcatHead(ts[1..]);
      if IsWord(t) {
        assert rest != [] ==> !IsWordChar(rest[0]);
        assert forall k :: 0 <= k < |t| ==> s[k] == t[k];
        assert rest != [] ==> s[|t|] == rest[0];
        var n := WordEnd(s, 0);
        assert n == |t|;
        assert s[..n] == t && s[n..] == rest;
      } else {
        assert s[..1] == t && s[1..] == rest;
      }
    }
  }

  lemma ConcatHead(ts: seq<string>)
    requires WellFormedTokens(ts)
    ensures ts != [] ==> Concat(ts) != [] && Concat(ts)[0] == ts[0][0]
  {
  }

  function Concat(ts: seq<string>): string {
    if ts == [] then "" else ts[0] + Concat(ts[1..])
  }

  /** Every character of a token is a character of the text. */
  lemma {:induction false} TokenCharsInConcat(ts: seq<string>, i: nat, j: nat)
    requires i < |ts| && j < |ts[i]|
    ensures ts[i][j] in Concat(ts)
  {
    if i == 0 {
      assert Concat(ts) == ts[0] + Concat(ts[1..]);
      assert Concat(ts)[j] == ts[0][j];
    } else {
      TokenCharsInConcat(ts[1..], i - 1, j);
      assert Concat(ts) == ts[0] + Concat(ts[1..]);
    }
  }

  /** The piece and the position in it that hold character `k` of the concatenation. */
  lemma {:induction false} TokenOf(ts: seq<string>, k: nat) returns (i: nat, j: nat)
    requires k < |Concat(ts)|
    ensures i < |ts| && j < |ts[i]| && ts[i][j] == Concat(ts)[k]
  {
    assert Concat(ts) == ts[0] + Concat(ts[1..]);
    if k < |ts[0]| {
      i, j := 0, k;
    } else {
      var i', j' := TokenOf(ts[1..], k - |ts[0]|);
      i, j := i' + 1, j';
    }
  }

  /** A word is one token. */
  lemma WordTokens(s: string)
    requires IsWord(s)
    ensures Tokens(s) == [s]
  {
    var n := WordEnd(s, 0);
    assert n == |s|;
    assert s[..n] == s;
  }

  /** An integer literal is a `-` and digits. */
  lemma IntLiteralChars(s: string)
    requires IsIntLiteral(s)
    ensures forall k :: 0 <= k < |s| ==> s[k] == '-' || IsDigit(s[k])
  {
    if |s| > 0 && s[0] == '-' {
      assert forall k :: 1 <= k < |s| ==> s[k] == s[1..][k - 1];
    }
  }

  /** The matches of `/\b[a-zA-Z_]\w*\b/g`, in order: the tokens that are identifiers. */
  function Identifiers(s: string): (ids: seq<string>)
    ensures forall i :: 0 <= i < |ids| ==> IsIdentifier(ids[i])
  {
    FilterIdentifiers(Tokens(s))
  }

  function FilterIdentifiers(ts: seq<string>): (ids: seq<string>)
    ensures forall i :: 0 <= i < |ids| ==> IsIdentifier(ids[i])
  {
    if ts == [] then []
    else (if IsIdentifier(ts[0]) then [ts[0]] else []) + FilterIdentifiers(ts[1..])
  }

  /** The identifiers of `s` are exactly its tokens that are identifiers. */
  lemma {:induction false} FilterIdentifiersIn(ts: seq<string>)
    ensures forall t :: t in FilterIdentifiers(ts) <==> t in ts && IsIdentifier(t)
  {
    if ts != [] {
      FilterIdentifiersIn(ts[1..]);
      assert ts == [ts[0]] + ts[1..];
    }
  }
}
