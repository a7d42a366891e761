/** What the indentation of EXPLAIN output is for: rows stand as deep as the loops around them are nested. */
module ExplainNesting {
  import opened ExplainIndent

  /** A row that jumps back over nothing, a loop that an opcode like Next closes, or one that a Goto closes. */
  datatype Block = Leaf | Scan(body: seq<Block>) | Repeat(body: seq<Block>)

  /** How many rows there are: a Scan is its body and the closing row, a Repeat has an opening one as well. */
  function Size(blocks: seq<Block>): nat {
    if blocks == [] then 0 else BlockSize(blocks[0]) + Size(blocks[1..])
  }

  function BlockSize(b: Block): (n: nat)
    ensures n > 0
  {
    match b
    case Leaf => 1
    case Scan(body) => Size(body) + 1
    case Repeat(body) => Size(body) + 2
  }

  /** How deep each row stands, the first of them at depth d. */
  function Depths(blocks: seq<Block>, d: nat): (ds: seq<nat>)
    ensures |ds| == Size(blocks)
  {
    if blocks == [] then [] else BlockDepths(blocks[0], d) + Depths(blocks[1..], d)
  }

  function BlockDepths(b: Block, d: nat): (ds: seq<nat>)
    ensures |ds| == BlockSize(b)
  {
    match b
    case Leaf => [d]
    case Scan(body) => Depths(body, d + 1) + [d]
    case Repeat(body) => [d] + Depths(body, d + 1) + [d]
  }

  /** The opcodes that close a loop. */
  predicate Closes(name: string) {
    || name == "Next" || name == "Prev" || name == "VPrev" || name == "VNext" || name == "SorterNext"
    || name == "NextIfOpen" || name == "PrevIfOpen"
  }

  /** The opcodes that a Goto may repeat from. */
  predicate Opens(name: string) {
    name == "Yield" || name == "SeekLT" || name == "SeekGT" || name == "RowSetRead" || name == "Rewind"
  }

  /** Row j jumps to row t: as far in addresses as in rows, which differ from them in a sub-program. */
  predicate JumpsTo(ops: seq<Op>, j: nat, t: int)
    requires j < |ops|
  {
    ops[j].p2 - ops[j].addr == t - j
  }

  /** The row closes no loop: no such opcode, and if a Goto then to itself, ahead, or to where none repeats from. */
  predicate IsLeaf(ops: seq<Op>, j: nat)
    requires j < |ops|
  {
    && !Closes(ops[j].name)
    && (ops[j].name == "Goto" ==>
          || ops[j].p2 >= ops[j].addr
          || (ops[j].p1 == 0 && exists t: nat :: t < j && JumpsTo(ops, j, t) && !Opens(ops[t].name)))
  }

  /** The blocks stand in the program from a row on. */
  predicate Stands(ops: seq<Op>, row: nat, blocks: seq<Block>)
    decreases blocks
  {
    && row + Size(blocks) <= |ops|
    && (blocks != [] ==>
          StandsBlock(ops, row, blocks[0]) && Stands(ops, row + BlockSize(blocks[0]), blocks[1..]))
  }

  predicate StandsBlock(ops: seq<Op>, row: nat, b: Block)
    requires row + BlockSize(b) <= |ops|
    decreases b
  {
    var e := row + BlockSize(b) - 1;
    match b
    case Leaf => IsLeaf(ops, row)
    case Scan(body) => Stands(ops, row, body) && Closes(ops[e].name) && JumpsTo(ops, e, row)
    case Repeat(body) =>
      && IsLeaf(ops, row) && Stands(ops, row + 1, body) && ops[e].name == "Goto" && JumpsTo(ops, e, row)
      && (Opens(ops[row].name) || ops[e].p1 != 0)
  }

  /** How many of the rows a to b - 1 indent row k. */
  function Over(ops: seq<Op>, k: nat, a: nat, b: nat): nat
    requires a <= b <= |ops|
    decreases b
  {
    if a == b then 0
    else
      Over(ops, k, a, b - 1)
      + (if LoopsOver(ops, b - 1, k) then 1 else 0) + if GoesBackOver(ops, b - 1, k) then 1 else 0
  }

  lemma {:induction false} OverSplits(ops: seq<Op>, k: nat, a: nat, b: nat, c: nat)
    requires a <= b <= c <= |ops|
    ensures Over(ops, k, a, c) == Over(ops, k, a, b) + Over(ops, k, b, c)
    decreases c
  {
    hide LoopsOver, GoesBackOver;
    if b < c {
      OverSplits(ops, k, a, b, c - 1);
    }
  }

  lemma {:induction false} IndentIsOver(ops: seq<Op>, k: nat, n: nat)
    requires n <= |ops|
    ensures Indent(ops, k, n) == 2 * Over(ops, k, 0, n)
    decreases n
  {
    hide Indent, LoopsOver, GoesBackOver;
    if n == 0 {
      IndentStartsAtNothing(ops, k, 0);
    } else {
      IndentIsOver(ops, k, n - 1);
      IndentNext(ops, k, n - 1);
    }
  }

  lemma LeafOver(ops: seq<Op>, j: nat, k: nat)
    requires j < |ops| && IsLeaf(ops, j)
    ensures Over(ops, k, j, j + 1) == 0
  {
    assert Over(ops, k, j, j) == 0;
  }

  lemma ScanOver(ops: seq<Op>, row: nat, e: nat, k: nat)
    requires row <= e < |ops| && Closes(ops[e].name) && JumpsTo(ops, e, row)
    ensures Over(ops, k, e, e + 1) == if row <= k < e then 1 else 0
  {
    assert Over(ops, k, e, e) == 0;
  }

  lemma RepeatOver(ops: seq<Op>, row: nat, e: nat, k: nat)
    requires row < e < |ops| && ops[e].name == "Goto" && JumpsTo(ops, e, row)
    requires Opens(ops[row].name) || ops[e].p1 != 0
    ensures Over(ops, k, e, e + 1) == if row < k < e then 1 else 0
  {
    assert Over(ops, k, e, e) == 0;
  }

  /** Depth d + 1 is one more than depth d. */
  lemma {:induction false} Deeper(blocks: seq<Block>, d: nat)
    ensures forall i :: 0 <= i < Size(blocks) ==> Depths(blocks, d)[i] == Depths(blocks, 0)[i] + d
    decreases blocks
  {
    if blocks != [] {
      DeeperBlock(blocks[0], d);
      Deeper(blocks[1..], d);
      hide BlockDepths;
    }
  }

  lemma {:induction false} DeeperBlock(b: Block, d: nat)
    ensures forall i :: 0 <= i < BlockSize(b) ==> BlockDepths(b, d)[i] == BlockDepths(b, 0)[i] + d
    decreases b
  {
    match b
    case Leaf =>
    case Scan(body) =>
      Deeper(body, d + 1);
      Deeper(body, 1);
    case Repeat(body) =>
      Deeper(body, d + 1);
      Deeper(body, 1);
  }

  /** The rows of a program indent each other as deep as they are nested, and no other rows. */
  lemma {:induction false} NestedOver(ops: seq<Op>, row: nat, blocks: seq<Block>, k: nat)
    requires Stands(ops, row, blocks)
    ensures var end := row + Size(blocks);
            Over(ops, k, row, end) == if row <= k < end then Depths(blocks, 0)[k - row] else 0
    decreases blocks
  {
    hide Over, BlockDepths, StandsBlock, BlockSize;
    if blocks == [] {
      NothingOver(ops, row, k);
    } else {
      var mid := row + BlockSize(blocks[0]);
      BlockOver(ops, row, blocks[0], k);
      NestedOver(ops, mid, blocks[1..], k);
      hide Stands;
      OverSplits(ops, k, row, mid, row + Size(blocks));
    }
  }

  lemma NothingOver(ops: seq<Op>, row: nat, k: nat)
    requires row <= |ops|
    ensures Over(ops, k, row, row) == 0
  {
  }

  lemma {:induction false} BlockOver(ops: seq<Op>, row: nat, b: Block, k: nat)
    requires row + BlockSize(b) <= |ops| && StandsBlock(ops, row, b)
    ensures var end := row + BlockSize(b);
            Over(ops, k, row, end) == if row <= k < end then BlockDepths(b, 0)[k - row] else 0
    decreases b
  {
    hide Over, IsLeaf, Closes, Opens, JumpsTo;
    match b
    case Leaf => LeafOver(ops, row, k);
    case Scan(body) =>
      var e := row + Size(body);
      NestedOver(ops, row, body, k);
      OverSplits(ops, k, row, e, e + 1);
      ScanOver(ops, row, e, k);
      Deeper(body, 1);
    case Repeat(body) =>
      var e := row + 1 + Size(body);
      NestedOver(ops, row + 1, body, k);
      OverSplits(ops, k, row, row + 1, e + 1);
      OverSplits(ops, k, row + 1, e, e + 1);
      LeafOver(ops, row, k);
      RepeatOver(ops, row, e, k);
      Deeper(body, 1);
  }

  /** A program of properly nested loops is indented by two spaces for every loop around a row. */
  lemma IndentIsDepth(ops: seq<Op>, blocks: seq<Block>, k: nat)
    requires Stands(ops, 0, blocks) && Size(blocks) == |ops| && k < |ops|
    ensures Indent(ops, k, |ops|) == 2 * Depths(blocks, 0)[k]
  {
    hide Stands, Over, Indent, Size, Depths;
    NestedOver(ops, 0, blocks, k);
    IndentIsOver(ops, k, |ops|);
  }

  /** Row j, further down than row k, jumps back to it or before it, or as a Goto to before it. */
  predicate JumpsOver(ops: seq<Op>, j: nat, k: nat)
    requires j < |ops|
  {
    var t := j + (ops[j].p2 - ops[j].addr);
    && k < j
    && if Closes(ops[j].name) then t <= k
       else ops[j].name == "Goto" && 0 <= t < k && (Opens(ops[t].name) || ops[j].p1 != 0)
  }

  /** In any program a row is indented by two spaces for every later row that jumps back over it. */
  lemma IndentCounts(ops: seq<Op>, k: nat)
    ensures Indent(ops, k, |ops|) == 2 * |set j: nat | j < |ops| && JumpsOver(ops, j, k)|
  {
    forall j: nat | j < |ops|
      ensures JumpsOver(ops, j, k) <==> LoopsOver(ops, j, k) || GoesBackOver(ops, j, k)
      ensures !(LoopsOver(ops, j, k) && GoesBackOver(ops, j, k))
    {
    }
    hide JumpsOver, LoopsOver, GoesBackOver;
    var all := set j: nat | j < |ops| && JumpsOver(ops, j, k);
    assert all == LoopsAround(ops, k, |ops|) + GotosAround(ops, k, |ops|);
    assert LoopsAround(ops, k, |ops|) * GotosAround(ops, k, |ops|) == {};
  }
}
