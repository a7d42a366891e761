/** Indentation of EXPLAIN output: explain_data_prepare, shell.c 1374-1460. */
module ExplainIndent {

  /** One row of an EXPLAIN result: address, opcode, P1 and P2. */
  datatype Op = Op(addr: int, name: string, p1: int, p2: int)

  const NEXT_OPS: seq<string> :=
    ["Next", "Prev", "VPrev", "VNext", "SorterNext", "NextIfOpen", "PrevIfOpen"]
  const YIELD_OPS: seq<string> := ["Yield", "SeekLT", "SeekGT", "RowSetRead", "Rewind"]
  const GOTO_OPS: seq<string> := ["Goto"]

  /** The row a jump of row k goes to; rows and addresses differ inside sub-programs. */
  function Target(ops: seq<Op>, k: nat): int
    requires k < |ops|
  {
    ops[k].p2 + (k - ops[k].addr)
  }

  predicate Jumps(op: Op) {
    op.name in NEXT_OPS || op.name in GOTO_OPS
  }

  /** Row j closes a loop that starts at or before row k: k lies in target..j. */
  predicate LoopsOver(ops: seq<Op>, j: nat, k: nat)
    requires j < |ops|
  {
    ops[j].name in NEXT_OPS && Target(ops, j) <= k < j
  }

  /** Row j is a qualifying Goto back to before row k. */
  predicate GoesBackOver(ops: seq<Op>, j: nat, k: nat)
    requires j < |ops|
  {
    && ops[j].name in GOTO_OPS
    && 0 <= Target(ops, j) <= j
    && (ops[Target(ops, j)].name in YIELD_OPS || ops[j].p1 != 0)
    && Target(ops, j) < k < j
  }

  /** The loop-closing rows before row n that row k lies within. */
  ghost function LoopsAround(ops: seq<Op>, k: nat, n: nat): set<nat>
    requires n <= |ops|
  {
    set j: nat | j < n && LoopsOver(ops, j, k)
  }

  ghost function GotosAround(ops: seq<Op>, k: nat, n: nat): set<nat>
    requires n <= |ops|
  {
    set j: nat | j < n && GoesBackOver(ops, j, k)
  }

  /** Two spaces for every enclosing loop and every enclosing backward Goto. */
  ghost function Indent(ops: seq<Op>, k: nat, n: nat): nat
    requires n <= |ops|
  {
    2 * |LoopsAround(ops, k, n)| + 2 * |GotosAround(ops, k, n)|
  }

  lemma IndentNext(ops: seq<Op>, k: nat, n: nat)
    requires n < |ops|
    ensures Indent(ops, k, n + 1) ==
            Indent(ops, k, n) + (if LoopsOver(ops, n, k) then 2 else 0) + (if GoesBackOver(ops, n, k) then 2 else 0)
  {
    LoopsNext(ops, k, n);
    GotosNext(ops, k, n);
    hide LoopsAround, GotosAround, LoopsOver, GoesBackOver;
  }

  lemma LoopsNext(ops: seq<Op>, k: nat, n: nat)
    requires n < |ops|
    ensures |LoopsAround(ops, k, n + 1)| == |LoopsAround(ops, k, n)| + if LoopsOver(ops, n, k) then 1 else 0
  {
    hide LoopsOver;
    var l := LoopsAround(ops, k, n);
    assert LoopsAround(ops, k, n + 1) == if LoopsOver(ops, n, k) then l + {n} else l;
  }

  lemma GotosNext(ops: seq<Op>, k: nat, n: nat)
    requires n < |ops|
    ensures |GotosAround(ops, k, n + 1)| == |GotosAround(ops, k, n)| + if GoesBackOver(ops, n, k) then 1 else 0
  {
    hide GoesBackOver;
    var g := GotosAround(ops, k, n);
    assert GotosAround(ops, k, n + 1) == if GoesBackOver(ops, n, k) then g + {n} else g;
  }

  /** Later rows only: a row's own indentation starts at nothing. */
  lemma IndentStartsAtNothing(ops: seq<Op>, k: nat, n: nat)
    requires n <= |ops| && n <= k + 1
    ensures Indent(ops, k, n) == 0
  {
    assert LoopsAround(ops, k, n) == {} && GotosAround(ops, k, n) == {};
  }

  method StrInArray(zStr: string, azArray: seq<string>) returns (r: bool)
    ensures r <==> zStr in azArray
  {
    for i := 0 to |azArray|
      invariant zStr !in azArray[..i]
    {
      if zStr == azArray[i] {
        return true;
      }
    }
    r := false;
  }

  /** Adds two to the entries from..to. */
  method AddTwo(a: array<int>, from: int, to: nat)
    requires 0 <= from && to <= a.Length
    modifies a
    ensures forall k :: 0 <= k < a.Length ==> a[k] == old(a[k]) + (if from <= k < to then 2 else 0)
  {
    var i := from;
    while i < to
      invariant from <= i && (i <= to || i == from)
      invariant forall k :: 0 <= k < a.Length ==> a[k] == old(a[k]) + (if from <= k < i then 2 else 0)
    {
      a[i] := a[i] + 2;
      i := i + 1;
    }
  }

  method Grow<T(0)>(a: array<T>, n: nat) returns (b: array<T>)
    requires n <= a.Length
    ensures fresh(b) && b.Length == a.Length + 100
    ensures forall k :: 0 <= k < n ==> b[k] == a[k]
  {
    b := new T[a.Length + 100];
    for i := 0 to n
      invariant forall k :: 0 <= k < i ==> b[k] == a[k]
    {
      b[i] := a[i];
    }
  }

  /** What the arrays hold after n rows. */
  ghost predicate Prepared(ops: seq<Op>, n: nat, aiIndent: array<int>, abYield: array<bool>)
    requires n <= |ops|
    reads aiIndent, abYield
  {
    && n <= aiIndent.Length && n <= abYield.Length
    && (forall k :: 0 <= k < n ==> aiIndent[k] == Indent(ops, k, n))
    && (forall k :: 0 <= k < n ==> (abYield[k] <==> ops[k].name in YIELD_OPS))
  }

  /** What a row adds to the indentation of the rows before it. */
  lemma RowAdds(ops: seq<Op>, n: nat, before: seq<int>, after: seq<int>)
    requires n < |ops| && |before| == |after| > n
    requires forall k :: 0 <= k < n ==> before[k] == Indent(ops, k, n)
    requires forall k :: 0 <= k <= n ==> (
               after[k] == (if k < n then before[k] else 0)
               + (if LoopsOver(ops, n, k) then 2 else 0) + (if GoesBackOver(ops, n, k) then 2 else 0))
    ensures forall k :: 0 <= k <= n ==> after[k] == Indent(ops, k, n + 1)
  {
    hide Indent, LoopsOver, GoesBackOver;
    forall k | 0 <= k <= n
      ensures after[k] == Indent(ops, k, n + 1)
    {
      IndentNext(ops, k, n);
      IndentStartsAtNothing(ops, n, n);
    }
  }

  /** Two spaces more for every row that row n, if it closes a loop, jumps back over. */
  method IndentLoop(ops: seq<Op>, n: nat, p2op: int, aiIndent: array<int>)
    requires n < |ops| && n < aiIndent.Length && p2op == Target(ops, n)
    requires Jumps(ops[n]) ==> p2op >= 0
    modifies aiIndent
    ensures forall k :: 0 <= k <= n ==> aiIndent[k] == old(aiIndent[k]) + if LoopsOver(ops, n, k) then 2 else 0
  {
    var isNext := StrInArray(ops[n].name, NEXT_OPS);
    if isNext {
      AddTwo(aiIndent, p2op, n);
    }
  }

  /** Two spaces more for every row strictly between a qualifying Goto and its target. */
  method IndentGoto(ops: seq<Op>, n: nat, p2op: int, aiIndent: array<int>, abYield: array<bool>)
    requires n < |ops| && n < aiIndent.Length && n < abYield.Length && p2op == Target(ops, n)
    requires Jumps(ops[n]) ==> p2op >= 0
    requires forall k :: 0 <= k <= n ==> (abYield[k] <==> ops[k].name in YIELD_OPS)
    modifies aiIndent
    ensures forall k :: 0 <= k <= n ==> aiIndent[k] == old(aiIndent[k]) + if GoesBackOver(ops, n, k) then 2 else 0
  {
    var isGoto := StrInArray(ops[n].name, GOTO_OPS);
    if isGoto && p2op < n + 1 && (abYield[p2op] || ops[n].p1 != 0) {
      AddTwo(aiIndent, p2op + 1, n);
    }
  }

  /** One row: note it, then indent what it jumps back over. */
  method PrepareRow(ops: seq<Op>, n: nat, aiIndent: array<int>, abYield: array<bool>)
    requires n < |ops| && Prepared(ops, n, aiIndent, abYield)
    requires n < aiIndent.Length && n < abYield.Length
    requires Jumps(ops[n]) ==> Target(ops, n) >= 0
    modifies aiIndent, abYield
    ensures Prepared(ops, n + 1, aiIndent, abYield)
  {
    hide Indent, LoopsOver, GoesBackOver;
    ghost var before := aiIndent[..];
    var p2op := ops[n].p2 + (n - ops[n].addr);
    var isYield := StrInArray(ops[n].name, YIELD_OPS);
    abYield[n] := isYield;
    aiIndent[n] := 0;
    IndentLoop(ops, n, p2op, aiIndent);
    IndentGoto(ops, n, p2op, aiIndent, abYield);
    RowAdds(ops, n, before, aiIndent[..]);
  }

  /** The whole result set: every row's indentation in closed form. */
  method ExplainDataPrepare(ops: seq<Op>) returns (aiIndent: array<int>, nIndent: nat)
    requires forall k :: 0 <= k < |ops| && Jumps(ops[k]) ==> Target(ops, k) >= 0
    ensures nIndent == |ops| <= aiIndent.Length
    ensures forall k :: 0 <= k < nIndent ==> aiIndent[k] == Indent(ops, k, |ops|)
  {
    hide Indent;
    aiIndent := new int[0];
    var abYield := new bool[0];
    nIndent := 0;
    for iOp := 0 to |ops|
      invariant nIndent == iOp && fresh(aiIndent) && fresh(abYield)
      invariant aiIndent.Length == abYield.Length && Prepared(ops, iOp, aiIndent, abYield)
    {
      if iOp >= aiIndent.Length {
        aiIndent := Grow(aiIndent, iOp);
        abYield := Grow(abYield, iOp);
      }
      PrepareRow(ops, iOp, aiIndent, abYield);
      nIndent := iOp + 1;
    }
  }

  /** A row is indented exactly when some later row loops or goes back over it. */
  lemma IndentedIffEnclosed(ops: seq<Op>, k: nat)
    ensures Indent(ops, k, |ops|) > 0
       <==> exists j: nat :: j < |ops| && (LoopsOver(ops, j, k) || GoesBackOver(ops, j, k))
  {
    if j: nat :| j < |ops| && (LoopsOver(ops, j, k) || GoesBackOver(ops, j, k)) {
      assert j in LoopsAround(ops, k, |ops|) || j in GotosAround(ops, k, |ops|);
    } else {
      assert LoopsAround(ops, k, |ops|) == {} && GotosAround(ops, k, |ops|) == {};
    }
  }
}
