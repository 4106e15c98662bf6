/**
 * What both validators keep while they run: the segmenter's state between
 * physical lines, and the table, error list and open blocks between
 * statements, with the updates the two share.
 */
module ValidatorState {
  import opened JsText
  import opened Language
  import opened Patterns

  /** The segmenter's state between two physical lines. */
  datatype SegState = SegState(done: seq<Stmt>, buffer: string, start: int, inLoop: bool)

  /** The statements so far, and the buffer as one more when it holds text. */
  function Flush(st: SegState): seq<Stmt> {
    if st.buffer != "" then st.done + [Stmt(st.buffer, st.start)] else st.done
  }

  /** What a validator keeps while it checks statements: the table, the error list and the open blocks' opening lines. */
  datatype CheckState = CheckState(table: Table, errors: seq<Diagnostic>, blocks: seq<int>)

  /** `error_list.push({ line: n, message })` */
  function Emit(st: CheckState, n: int, message: string): CheckState {
    st.(errors := st.errors + [Diagnostic(n, message)])
  }

  /** A closing `]`: the innermost open block is closed, or the closer is reported when none is open. */
  function CloseInnermost(st: CheckState, n: int): CheckState {
    if st.blocks == [] then Emit(st, n, UnmatchedCloser) else st.(blocks := st.blocks[..|st.blocks| - 1])
  }

  /** The state after the loop header `header` (trimmed) on line `n`, valid or not. */
  function LoopVerdict(st: CheckState, valid: bool, header: string, n: int): CheckState {
    if !valid then Emit(st, n, InvalidLoop)
    else match LoopDeclVar(Split(header, ';')[0])
      case None => st
      case Some(v) => st.(table := st.table[v := ANKHE])
  }

  /** One diagnostic per still-open block, at the line that opened it, oldest first. */
  function MissingClosers(blocks: seq<int>): (ds: seq<Diagnostic>)
    ensures |ds| == |blocks|
    ensures forall i :: 0 <= i < |ds| ==> ds[i] == Diagnostic(blocks[i], MissingCloser)
  {
    if blocks == [] then [] else [Diagnostic(blocks[0], MissingCloser)] + MissingClosers(blocks[1..])
  }

  /** The closing pass reporting one more block. */
  lemma MissingClosersSnoc(blocks: seq<int>, j: nat)
    requires j < |blocks|
    ensures MissingClosers(blocks[..j + 1]) == MissingClosers(blocks[..j]) + [Diagnostic(blocks[j], MissingCloser)]
  {
    var a := MissingClosers(blocks[..j + 1]);
    var b := MissingClosers(blocks[..j]) + [Diagnostic(blocks[j], MissingCloser)];
    assert |a| == |b|;
    forall i | 0 <= i < |a|
      ensures a[i] == b[i]
    {
    }
  }

  // ---------------------------------------------------------------------
  // How a statement may change the state

  /**
   * How a state may change while statement line `n` is classified: the
   * error list only grows, and every new entry is at line `n`; no name
   * leaves the table, and a name keeps its type unless it becomes `ANKHE`
   * (a loop header re-declaring it); a block left open was open before or
   * was opened at line `n`.
   */
  predicate Extends(a: CheckState, b: CheckState, n: int) {
    && a.errors <= b.errors
    && (forall k :: |a.errors| <= k < |b.errors| ==> b.errors[k].line == n)
    && (forall v :: v in a.table ==> v in b.table && (b.table[v] == a.table[v] || b.table[v] == ANKHE))
    && (forall x :: x in b.blocks ==> x in a.blocks || x == n)
  }

  /** The state `step` reaches after the first `k` statements, from an empty table, list and stack. */
  function Fold(step: (CheckState, Stmt) -> CheckState, stmts: seq<Stmt>, k: nat): CheckState
    requires k <= |stmts|
  {
    if k == 0 then CheckState(map[], [], []) else step(Fold(step, stmts, k - 1), stmts[k - 1])
  }

  /** The stack with its top removed; an empty stack stays empty. */
  function Pop(blocks: seq<int>): seq<int> {
    if blocks == [] then [] else blocks[..|blocks| - 1]
  }

  lemma ExtendsTrans(a: CheckState, b: CheckState, c: CheckState, n: int)
    requires Extends(a, b, n) && Extends(b, c, n)
    ensures Extends(a, c, n)
  {
    assert a.errors <= c.errors by {
      assert c.errors[..|a.errors|] == c.errors[..|b.errors|][..|a.errors|];
    }
    forall k | |a.errors| <= k < |c.errors|
      ensures c.errors[k].line == n
    {
      if k < |b.errors| {
        assert c.errors[k] == b.errors[k];
      }
    }
  }

  lemma EmitExtends(st: CheckState, n: int, message: string)
    ensures Extends(st, Emit(st, n, message), n)
  {
  }

  /** One more report at line `n` keeps a state an extension of `a`. */
  lemma EmitKeepsExtends(a: CheckState, st: CheckState, n: int, message: string)
    requires Extends(a, st, n)
    ensures Extends(a, Emit(st, n, message), n)
  {
    EmitExtends(st, n, message);
    ExtendsTrans(a, st, Emit(st, n, message), n);
  }

  /** A closer pops exactly one block, or reports itself, right after the earlier errors, when none is open. */
  lemma CloseInnermostEffect(st: CheckState, n: int)
    ensures var r := CloseInnermost(st, n);
      && Extends(st, r, n)
      && r.table == st.table
      && r.blocks == Pop(st.blocks)
      && (st.blocks == [] <==> r.errors == st.errors + [Diagnostic(n, UnmatchedCloser)])
      && (st.blocks != [] <==> r.errors == st.errors)
  {
  }

  /** A loop header never touches the blocks. */
  lemma LoopVerdictExtends(st: CheckState, valid: bool, header: string, n: int)
    ensures Extends(st, LoopVerdict(st, valid, header, n), n)
    ensures LoopVerdict(st, valid, header, n).blocks == st.blocks
  {
  }

  /**
   * An invalid loop header is reported and leaves the table alone; a valid
   * one reports nothing and makes the declared loop variable `ANKHE`,
   * whatever its type was, changing no other entry; a valid header whose
   * first part, untrimmed, declares no variable changes nothing at all.
   */
  lemma LoopVerdictEffect(st: CheckState, valid: bool, header: string, n: int)
    ensures var r := LoopVerdict(st, valid, header, n);
      && r.blocks == st.blocks
      && (!valid ==> r.table == st.table && r.errors == st.errors + [Diagnostic(n, InvalidLoop)])
      && (valid ==> r.errors == st.errors && r.table.Keys >= st.table.Keys)
      && (valid && LoopDeclVar(Split(header, ';')[0]).Some? ==>
            var v := LoopDeclVar(Split(header, ';')[0]).value;
            && v in r.table && r.table[v] == ANKHE
            && r.table == st.table[v := ANKHE]
            && (forall x :: x in st.table && x != v ==> x in r.table && r.table[x] == st.table[x]))
      && (valid && LoopDeclVar(Split(header, ';')[0]).None? ==> r == st)
  {
  }

  // ---------------------------------------------------------------------
  // Where the diagnostics are

  /** The lines the first `k` statements start on. */
  function StartLines(stmts: seq<Stmt>, k: nat): set<int>
    requires k <= |stmts|
  {
    set j | 0 <= j < k :: stmts[j].line
  }

  lemma StartLinesSnoc(stmts: seq<Stmt>, k: nat)
    requires 0 < k <= |stmts|
    ensures StartLines(stmts, k) == StartLines(stmts, k - 1) + {stmts[k - 1].line}
  {
  }

  /** Every diagnostic and every open block of `st` is at one of the `lines`. */
  predicate AtLines(st: CheckState, lines: set<int>) {
    && (forall e :: e in st.errors ==> e.line in lines)
    && (forall x :: x in st.blocks ==> x in lines)
  }

  lemma ExtendsAtLines(a: CheckState, b: CheckState, n: int, lines: set<int>)
    requires Extends(a, b, n) && AtLines(a, lines) && n in lines
    ensures AtLines(b, lines)
  {
    forall e | e in b.errors
      ensures e.line in lines
    {
      var i :| 0 <= i < |b.errors| && b.errors[i] == e;
      if i < |a.errors| {
        assert e in a.errors;
      }
    }
  }

  lemma AtMoreLines(st: CheckState, lines: set<int>, more: set<int>)
    requires AtLines(st, lines) && lines <= more
    ensures AtLines(st, more)
  {
  }

  /** A state whose diagnostics and open blocks are at `lines` reports only at `lines`, closers included. */
  lemma ReportsAtLines(st: CheckState, lines: set<int>)
    requires AtLines(st, lines)
    ensures forall d :: d in st.errors + MissingClosers(st.blocks) ==> d.line in lines
  {
    var closers := MissingClosers(st.blocks);
    forall d | d in st.errors + closers
      ensures d.line in lines
    {
      if d !in st.errors {
        var i :| 0 <= i < |closers| && closers[i] == d;
        assert st.blocks[i] in st.blocks;
      }
    }
  }
}
