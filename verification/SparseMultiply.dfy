/** `multiply` on the linked nodes: three nested loops over rows, columns and their entries,
    building the list of the product in place behind `head3`.

    The ghost arguments name what is linked: the header nodes, the nodes of every row and
    column, and the values they hold.  `inputs` is a set of nodes that holds all of these and
    not `head3`.
 */
module SparseMultiply {
  import opened SparseProduct

  class Node {
    var ri: nat
    var ci: nat
    var value: int
    var right: Node?
    var down: Node?
  }

  /** The nodes `ns`, linked by `right` behind the row header `h`, hold the row `row`.  The row
      ends at the end of the list or where a node of another row follows. */
  ghost predicate RowLinked(h: Node, ns: seq<Node>, row: Line, inputs: set<Node>)
    reads inputs
  {
    && h in inputs && |ns| == |row.es| && row.header >= 1
    && h.right == (if ns == [] then null else ns[0])
    && (forall i {:trigger ns[i]} :: 0 <= i < |ns| ==>
          ns[i] in inputs && ns[i].ri == row.header && ns[i].ci == row.es[i].ix && ns[i].value == row.es[i].v)
    && (forall i :: 0 <= i < |ns| - 1 ==> ns[i].right == ns[i + 1])
    && (ns != [] && ns[|ns| - 1].right != null ==>
          ns[|ns| - 1].right in inputs && ns[|ns| - 1].right.ri != row.header)
  }

  /** The nodes `ns`, linked by `down` behind the column header `k`, hold the column `col`. */
  ghost predicate ColumnLinked(k: Node, ns: seq<Node>, col: Line, inputs: set<Node>)
    reads inputs
  {
    && k in inputs && |ns| == |col.es|
    && k.down == (if ns == [] then null else ns[0])
    && (forall i {:trigger ns[i]} :: 0 <= i < |ns| ==>
          ns[i] in inputs && ns[i].ci == col.header && ns[i].ri == col.es[i].ix && ns[i].value == col.es[i].v)
    && (forall i :: 0 <= i < |ns| - 1 ==> ns[i].down == ns[i + 1])
    && (ns != [] ==> ns[|ns| - 1].down == null)
  }

  datatype Shape = Shape(heads: seq<Node>, nodes: seq<seq<Node>>, lines: seq<Line>)

  /** The rows of the first matrix, linked by `down` from the first row header. */
  ghost predicate RowsLinked(first: Node, a: Shape, inputs: set<Node>)
    reads inputs
  {
    && |a.heads| == |a.nodes| == |a.lines| && a.heads != [] && a.heads[0] == first
    && (forall i {:trigger a.heads[i]} :: 0 <= i < |a.heads| ==> RowLinked(a.heads[i], a.nodes[i], a.lines[i], inputs))
    && (forall i :: 0 <= i < |a.heads| - 1 ==> a.heads[i].down == a.heads[i + 1])
    && a.heads[|a.heads| - 1].down == null
  }

  /** The columns of the second matrix, linked by `right` behind the node `colHead`. */
  ghost predicate ColumnsLinked(colHead: Node, b: Shape, inputs: set<Node>)
    reads inputs
  {
    && colHead in inputs && |b.heads| == |b.nodes| == |b.lines|
    && colHead.right == (if b.heads == [] then null else b.heads[0])
    && (forall j {:trigger b.heads[j]} :: 0 <= j < |b.heads| ==>
          ColumnLinked(b.heads[j], b.nodes[j], b.lines[j], inputs))
    && (forall j :: 0 <= j < |b.heads| - 1 ==> b.heads[j].right == b.heads[j + 1])
    && (b.heads != [] ==> b.heads[|b.heads| - 1].right == null)
  }

  /** The nodes `outs`, linked by `right`, hold `cells`, all of them non-zero; one more node
      follows, and is the last. */
  ghost predicate OutputHolds(outs: seq<Node>, cells: seq<Cell>, inputs: set<Node>)
    reads outs
  {
    && |outs| == |cells| + 1
    && (forall i, j :: 0 <= i < j < |outs| ==> outs[i] != outs[j])
    && (forall i {:trigger outs[i]} :: 0 <= i < |outs| ==> outs[i] !in inputs)
    && (forall i {:trigger cells[i]} :: 0 <= i < |cells| ==>
          outs[i].ri == cells[i].ri && outs[i].ci == cells[i].ci && outs[i].value == cells[i].value
            && cells[i].value != 0)
    && (forall i :: 0 <= i < |cells| ==> outs[i].right == outs[i + 1])
    && outs[|cells|].right == null
    && (forall i :: 0 < i < |outs| ==> outs[i].down == null)
  }

  /** The entries `t1` and `p2` meet in the cell `t3`. */
  method AddProduct(t3: Node, t1: Node, p2: Node, ghost row: Line, ghost col: Line, ghost a: nat, ghost b: nat)
    requires t3 != t1 && t3 != p2 && a < |row.es| && b < |col.es| && row.es[a].ix == col.es[b].ix
    requires t1.value == row.es[a].v && p2.value == col.es[b].v && t3.value == SoFar(row, col, a, b)
    modifies t3`value, t3`ri, t3`ci
    ensures t3.value == SoFar(row, col, a + 1, b + 1) && t3.ri == t1.ri && t3.ci == p2.ci
  {
    MergeAdvance(row.es, col.es, a, b, Dot(row.es, col.es), t3.value);
    t3.value := Wrap(t3.value + Wrap(t1.value * p2.value));
    t3.ri := t1.ri;
    t3.ci := p2.ci;
  }

  /** What the merge has left in the cell at the positions `a` and `b`. */
  ghost function SoFar(row: Line, col: Line, a: nat, b: nat): int
    requires a <= |row.es| && b <= |col.es|
  {
    Wrap(Dot(row.es, col.es) - Dot(row.es[a..], col.es[b..]))
  }

  /** Passing an entry that has no partner changes nothing, and so does the end of a line. */
  lemma SoFarStays(row: Line, col: Line, a: nat, b: nat)
    requires a <= |row.es| && b <= |col.es|
    ensures SoFar(row, col, 0, 0) == 0
    ensures a == |row.es| || b == |col.es| ==> SoFar(row, col, a, b) == Merged(row.es, col.es)
    ensures a < |row.es| && b < |col.es| && row.es[a].ix < col.es[b].ix ==>
              SoFar(row, col, a + 1, b) == SoFar(row, col, a, b)
    ensures a < |row.es| && b < |col.es| && row.es[a].ix > col.es[b].ix ==>
              SoFar(row, col, a, b + 1) == SoFar(row, col, a, b)
  {
    assert row.es[0..] == row.es && col.es[0..] == col.es;
    MergeAdvance(row.es, col.es, a, b, Dot(row.es, col.es), SoFar(row, col, a, b));
  }

  /** The position of the row's cursor `t1` and of the column's cursor `p2`. */
  ghost predicate AtEntries(t1: Node?, p2: Node?, ns: seq<Node>, ms: seq<Node>, a: nat, b: nat)
    reads ns
  {
    && a <= |ns| && b <= |ms|
    && t1 == (if a < |ns| then ns[a] else if ns == [] then null else ns[|ns| - 1].right)
    && p2 == (if b < |ms| then ms[b] else null)
  }

  /** What the cursors point to, and where they go. */
  lemma {:induction false} EntriesHere(t1: Node?, p2: Node?, l: Node, k: Node, ns: seq<Node>, row: Line, ms: seq<Node>,
                                       col: Line, inputs: set<Node>, a: nat, b: nat)
    requires RowLinked(l, ns, row, inputs) && ColumnLinked(k, ms, col, inputs) && AtEntries(t1, p2, ns, ms, a, b)
    ensures a < |ns| ==>
              && t1 != null && t1 in inputs && t1.ri == row.header && t1.ci == row.es[a].ix && t1.value == row.es[a].v
              && AtEntries(t1.right, p2, ns, ms, a + 1, b)
    ensures b < |ms| ==>
              && p2 != null && p2 in inputs && p2.ri == col.es[b].ix && p2.ci == col.header && p2.value == col.es[b].v
              && AtEntries(t1, p2.down, ns, ms, a, b + 1)
    ensures a < |ns| && b < |ms| ==> AtEntries(t1.right, p2.down, ns, ms, a + 1, b + 1)
    ensures a == |ns| && t1 != null ==> a > 0 && t1 in inputs && t1.ri != row.header
    ensures b == |ms| ==> p2 == null
  {
  }

  /** The innermost loop: merge the row of `l` with the column of `k` into the node `t3`.
      `advances` counts the moves of its two pointers. */
  method MergeCell(t3: Node, l: Node, k: Node, ghost ns: seq<Node>, ghost row: Line, ghost ms: seq<Node>,
                   ghost col: Line, ghost inputs: set<Node>) returns (ghost advances: nat)
    requires RowLinked(l, ns, row, inputs) && ColumnLinked(k, ms, col, inputs)
    requires t3 !in inputs && t3.value == 0
    modifies t3`value, t3`ri, t3`ci
    ensures t3.value == Merged(row.es, col.es)
    ensures t3.value != 0 ==> t3.ri == row.header && t3.ci == col.header
    ensures advances <= |row.es| + |col.es|
  {
    var t1, p2, r := l.right, k.down, 0;
    ghost var a, b := 0, 0;
    advances := 0;
    SoFarStays(row, col, 0, 0);
    while true
      invariant AtEntries(t1, p2, ns, ms, a, b) && advances == a + b
      invariant r == if a == 0 then 0 else row.header
      invariant t3.value == SoFar(row, col, a, b)
      invariant t3.value != 0 ==> t3.ri == row.header && t3.ci == col.header
      decreases |ns| + |ms| - a - b
    {
      EntriesHere(t1, p2, l, k, ns, row, ms, col, inputs, a, b);
      SoFarStays(row, col, a, b);
      if t1 == null { break; }
      if p2 == null || (t1.ri != r && r != 0) {
        break;
      } else if t1.ci == p2.ri {
        AddProduct(t3, t1, p2, row, col, a, b);
        r := t1.ri;
        t1 := t1.right;
        p2 := p2.down;
        a, b, advances := a + 1, b + 1, advances + 2;
      } else if t1.ci < p2.ri {
        r := t1.ri;
        t1 := t1.right;
        a, advances := a + 1, advances + 1;
      } else {
        p2 := p2.down;
        b, advances := b + 1, advances + 1;
      }
    }
  }

  /** Once a cell is complete a fresh node of value zero takes over as the last one. */
  method NextNode(t: Node, ghost outs: seq<Node>, ghost cells: seq<Cell>, ghost inputs: set<Node>)
    returns (n: Node, ghost outs1: seq<Node>)
    requires OutputHolds(outs, cells, inputs) && t == outs[|outs| - 1] && t.value != 0
    modifies t`right
    ensures fresh(n) && outs1 == outs + [n] && n.value == 0
    ensures OutputHolds(outs1, cells + [Cell(t.ri, t.ci, t.value)], inputs)
  {
    n := new Node;
    t.right := n;
    n.right := null;
    n.down := null;
    n.value := 0;
    outs1 := outs + [n];
  }

  /** The body of the middle loop: the cell of one row and one column. */
  method MultiplyCell(t3: Node, l: Node, k: Node, ghost outs: seq<Node>, ghost cells: seq<Cell>,
                      ghost ns: seq<Node>, ghost row: Line, ghost ms: seq<Node>, ghost col: Line,
                      ghost inputs: set<Node>)
    returns (t: Node, ghost outs1: seq<Node>, ghost advances: nat)
    requires RowLinked(l, ns, row, inputs) && ColumnLinked(k, ms, col, inputs)
    requires OutputHolds(outs, cells, inputs) && t3 == outs[|outs| - 1] && t3.value == 0
    modifies t3
    ensures OutputHolds(outs1, cells + OneCell(row, col), inputs) && t == outs1[|outs1| - 1] && t.value == 0
    ensures outs1[0] == outs[0] && forall o :: o in outs1 ==> o in outs || fresh(o)
    ensures (t == t3 || fresh(t)) && t3.down == old(t3.down)
    ensures advances <= |row.es| + |col.es|
  {
    t, outs1 := t3, outs;
    advances := MergeCell(t3, l, k, ns, row, ms, col, inputs);
    assert OutputHolds(outs, cells, inputs);
    if t3.value != 0 {
      t, outs1 := NextNode(t3, outs, cells, inputs);
    } else {
      assert cells + OneCell(row, col) == cells;
    }
  }

  /** The middle loop: all columns for the row of `l`.  The product so far is in `outs`; its
      last node `t3` takes the next cell. */
  method MultiplyRow(t3: Node, l: Node, colHead: Node, ghost outs: seq<Node>, ghost cells: seq<Cell>,
                     ghost ns: seq<Node>, ghost row: Line, ghost b: Shape, ghost inputs: set<Node>)
    returns (t: Node, ghost outs1: seq<Node>, ghost advances: nat)
    requires RowLinked(l, ns, row, inputs) && ColumnsLinked(colHead, b, inputs) && b.heads != []
    requires OutputHolds(outs, cells, inputs) && t3 == outs[|outs| - 1] && t3.value == 0
    modifies t3
    ensures OutputHolds(outs1, cells + RowCells(row, b.lines), inputs) && t == outs1[|outs1| - 1] && t.value == 0
    ensures outs1[0] == outs[0] && forall o :: o in outs1 ==> o in outs || fresh(o)
    ensures (t == t3 || fresh(t)) && t3.down == old(t3.down)
    ensures advances <= MergeBound(row, b.lines)
  {
    t, outs1 := t3, outs;
    var k := colHead.right;
    ghost var j, done, all := 0, cells, cells + RowCells(row, b.lines);
    advances := 0;
    assert b.lines[0..] == b.lines;
    while true
      invariant 0 <= j < |b.heads| && k == b.heads[j]
      invariant (t == t3 || fresh(t)) && t3.down == old(t3.down)
      invariant OutputHolds(outs1, done, inputs) && t == outs1[|outs1| - 1] && t.value == 0
      invariant outs1[0] == outs[0] && forall o :: o in outs1 ==> o in outs || fresh(o)
      invariant done + RowCells(row, b.lines[j..]) == all
      invariant advances + MergeBound(row, b.lines[j..]) <= MergeBound(row, b.lines)
      decreases |b.heads| - j
    {
      ghost var moves: nat;
      ghost var col := b.lines[j];
      NextColumn(colHead, b, inputs, j);
      ghost var follow := k.right;
      t, outs1, moves := MultiplyCell(t, l, k, outs1, done, ns, row, b.nodes[j], col, inputs);
      RowAdvance(row, b.lines, j, done, all, advances, moves);
      advances, done, j := advances + moves, done + OneCell(row, col), j + 1;
      assert k.right == follow;
      k := k.right;
      if k == null { break; }
    }
  }

  /** The column after column `j`. */
  lemma NextColumn(colHead: Node, b: Shape, inputs: set<Node>, j: nat)
    requires ColumnsLinked(colHead, b, inputs) && j < |b.heads|
    ensures ColumnLinked(b.heads[j], b.nodes[j], b.lines[j], inputs)
    ensures b.heads[j].right == if j + 1 < |b.heads| then b.heads[j + 1] else null
  {
  }

  /** The row after row `i`. */
  lemma NextRow(first: Node, a: Shape, inputs: set<Node>, i: nat)
    requires RowsLinked(first, a, inputs) && i < |a.heads|
    ensures RowLinked(a.heads[i], a.nodes[i], a.lines[i], inputs)
    ensures a.heads[i].down == if i + 1 < |a.heads| then a.heads[i + 1] else null
  {
  }

  /** The outer loop, over all rows.  The product so far is in `outs`. */
  method MultiplyRows(t0: Node, rowHead: Node, colHead: Node, ghost outs: seq<Node>, ghost cells: seq<Cell>,
                      ghost a: Shape, ghost b: Shape, ghost inputs: set<Node>)
    returns (ghost outs1: seq<Node>, ghost advances: nat)
    requires RowsLinked(rowHead, a, inputs) && ColumnsLinked(colHead, b, inputs) && b.heads != []
    requires OutputHolds(outs, cells, inputs) && t0 == outs[|outs| - 1] && t0.value == 0
    modifies t0
    ensures OutputHolds(outs1, cells + ProductCells(a.lines, b.lines), inputs) && outs1[|outs1| - 1].value == 0
    ensures t0.down == old(t0.down)
    ensures outs1[0] == outs[0] && forall o :: o in outs1 ==> o in outs || fresh(o)
    ensures advances <= ProductBound(a.lines, b.lines)
  {
    var t3, l := t0, rowHead;
    outs1 := outs;
    ghost var i, done, all := 0, cells, cells + ProductCells(a.lines, b.lines);
    advances := 0;
    assert a.lines[0..] == a.lines;
    while true
      invariant 0 <= i < |a.heads| && l == a.heads[i]
      invariant (t3 == t0 || fresh(t3)) && t0.down == old(t0.down)
      invariant OutputHolds(outs1, done, inputs) && t3 == outs1[|outs1| - 1] && t3.value == 0
      invariant outs1[0] == outs[0] && forall o :: o in outs1 ==> o in outs || fresh(o)
      invariant done + ProductCells(a.lines[i..], b.lines) == all
      invariant advances + ProductBound(a.lines[i..], b.lines) <= ProductBound(a.lines, b.lines)
      decreases |a.heads| - i
    {
      ghost var moves: nat;
      ghost var row := a.lines[i];
      NextRow(rowHead, a, inputs, i);
      ghost var follow := l.down;
      t3, outs1, moves := MultiplyRow(t3, l, colHead, outs1, done, a.nodes[i], row, b, inputs);
      ProductAdvance(a.lines, b.lines, i, done, all, advances, moves);
      advances, done, i := advances + moves, done + RowCells(row, b.lines), i + 1;
      assert l.down == follow;
      l := l.down;
      if l == null { break; }
    }
  }

  // ---------- what the list behind `head3` says ----------

  /** The list from `t` on, read by a caller: `cells`, none of them zero, and one last node of
      value zero. */
  ghost predicate HoldsList(t: Node?, cells: seq<Cell>)
    reads *
    decreases |cells|
  {
    && t != null
    && if cells == [] then t.right == null && t.value == 0
       else t.value != 0 && Cell(t.ri, t.ci, t.value) == cells[0] && HoldsList(t.right, cells[1..])
  }

  lemma {:induction false} EmptyListHolds(t: Node, cells: seq<Cell>)
    requires HoldsList(t, [])
    ensures HoldsList(t, cells) <==> cells == []
  {
  }

  lemma OutputIsListFrom(outs: seq<Node>, cells: seq<Cell>, inputs: set<Node>, i: nat)
    requires OutputHolds(outs, cells, inputs) && outs[|cells|].value == 0 && i <= |cells|
    ensures HoldsList(outs[i], cells[i..])
    decreases |cells| - i
  {
    if i < |cells| {
      assert outs[i].right == outs[i + 1];
      assert cells[i..] != [] && cells[i..][0] == cells[i] && cells[i..][1..] == cells[i + 1..];
      OutputIsListFrom(outs, cells, inputs, i + 1);
    } else {
      assert cells[i..] == [];
    }
  }

  lemma {:induction false} OutputIsList(outs: seq<Node>, cells: seq<Cell>, inputs: set<Node>)
    requires OutputHolds(outs, cells, inputs) && outs[|cells|].value == 0
    ensures HoldsList(outs[0], cells)
  {
    OutputIsListFrom(outs, cells, inputs, 0);
    assert cells[0..] == cells;
  }

  /** One of the nodes, not counting the last, holds `v` at `(i, j)`. */
  ghost predicate NodeHolds(outs: seq<Node>, i: nat, j: nat, v: int)
    reads outs
  {
    exists k :: 0 <= k < |outs| - 1 && outs[k].ri == i && outs[k].ci == j && outs[k].value == v
  }

  /** The nodes hold exactly the non-zero cells of the dense product of dimension `n`. */
  ghost predicate HoldsDense(outs: seq<Node>, rows: seq<Line>, cols: seq<Line>, n: nat)
    reads outs
  {
    forall i: nat, j: nat, v: int :: NodeHolds(outs, i, j, v) <==> v != 0 && v == DenseCell(rows, cols, i, j, n)
  }

  /** The same, with every cell wrapped to 64 bits; no cell is held twice. */
  ghost predicate HoldsWrapped(outs: seq<Node>, rows: seq<Line>, cols: seq<Line>, n: nat)
    reads outs
  {
    && (forall i: nat, j: nat, v: int ::
          NodeHolds(outs, i, j, v) <==> v != 0 && v == Wrap(DenseCell(rows, cols, i, j, n)))
    && (forall k, m :: 0 <= k < m < |outs| - 1 ==> outs[k].ri != outs[m].ri || outs[k].ci != outs[m].ci)
  }

  lemma NodesAreCells(outs: seq<Node>, cells: seq<Cell>, inputs: set<Node>)
    requires OutputHolds(outs, cells, inputs)
    ensures forall i: nat, j: nat, v: int :: NodeHolds(outs, i, j, v) <==> Cell(i, j, v) in cells
  {
    forall i: nat, j: nat, v: int ensures NodeHolds(outs, i, j, v) <==> Cell(i, j, v) in cells {
      if NodeHolds(outs, i, j, v) {
        var k :| 0 <= k < |outs| - 1 && outs[k].ri == i && outs[k].ci == j && outs[k].value == v;
        assert cells[k] == Cell(i, j, v);
      }
      if Cell(i, j, v) in cells {
        var k :| 0 <= k < |cells| && cells[k] == Cell(i, j, v);
        assert outs[k].ri == i;
      }
    }
  }

  /** The nodes hold the dense product if and only if its cells fit into 64 bits. */
  lemma {:induction false} OutputIsDense(outs: seq<Node>, rows: seq<Line>, cols: seq<Line>, inputs: set<Node>, n: nat)
    requires OutputHolds(outs, ProductCells(rows, cols), inputs) && Lines(rows, n) && Lines(cols, n)
    ensures HoldsWrapped(outs, rows, cols, n)
    ensures HoldsDense(outs, rows, cols, n) <==> Fits(rows, cols, n)
  {
    var cells := ProductCells(rows, cols);
    NodesAreCells(outs, cells, inputs);
    forall i: nat, j: nat, v: int
      ensures NodeHolds(outs, i, j, v) <==> v != 0 && v == Wrap(DenseCell(rows, cols, i, j, n))
    {
      ProductIsDense(rows, cols, n, i, j, v);
    }
    ProductCellsDistinct(rows, cols, n);
    forall k, m | 0 <= k < m < |outs| - 1 ensures outs[k].ri != outs[m].ri || outs[k].ci != outs[m].ci {
      assert cells[k] == Cell(outs[k].ri, outs[k].ci, outs[k].value);
      assert cells[m] == Cell(outs[m].ri, outs[m].ci, outs[m].value);
    }
    DenseExactlyWhenItFits(rows, cols, n);
    HoldsDenseIsDense(outs, cells, rows, cols, n);
  }

  lemma HoldsDenseIsDense(outs: seq<Node>, cells: seq<Cell>, rows: seq<Line>, cols: seq<Line>, n: nat)
    requires forall i: nat, j: nat, v: int :: NodeHolds(outs, i, j, v) <==> Cell(i, j, v) in cells
    ensures HoldsDense(outs, rows, cols, n) <==> IsDense(cells, rows, cols, n)
  {
    if IsDense(cells, rows, cols, n) {
      forall i: nat, j: nat, v: int
        ensures NodeHolds(outs, i, j, v) <==> v != 0 && v == DenseCell(rows, cols, i, j, n)
      {
        assert NodeHolds(outs, i, j, v) <==> Cell(i, j, v) in cells;
      }
    }
  }

  lemma {:induction false} OutputIsDenseInAll(outs: seq<Node>, rows: seq<Line>, cols: seq<Line>, inputs: set<Node>)
    requires OutputHolds(outs, ProductCells(rows, cols), inputs)
    ensures forall n {:trigger Lines(rows, n)} :: Lines(rows, n) && Lines(cols, n) ==>
              HoldsWrapped(outs, rows, cols, n) && (HoldsDense(outs, rows, cols, n) <==> Fits(rows, cols, n))
  {
    forall n | Lines(rows, n) && Lines(cols, n)
      ensures HoldsWrapped(outs, rows, cols, n) && (HoldsDense(outs, rows, cols, n) <==> Fits(rows, cols, n))
    {
      OutputIsDense(outs, rows, cols, inputs, n);
    }
  }

  // ---------- the whole function ----------

  /** All rows, from an empty product. */
  method MultiplyFrom(head3: Node, rowHead: Node, colHead: Node, ghost a: Shape, ghost b: Shape,
                      ghost inputs: set<Node>)
    returns (ghost outs: seq<Node>, ghost advances: nat)
    requires RowsLinked(rowHead, a, inputs) && ColumnsLinked(colHead, b, inputs) && b.heads != []
    requires head3 !in inputs && head3.right == null && head3.value == 0
    modifies head3
    ensures OutputHolds(outs, ProductCells(a.lines, b.lines), inputs) && outs[|outs| - 1].value == 0
    ensures head3.down == old(head3.down)
    ensures HoldsList(head3, ProductCells(a.lines, b.lines))
    ensures forall n {:trigger Lines(a.lines, n)} :: Lines(a.lines, n) && Lines(b.lines, n) ==>
              && HoldsWrapped(outs, a.lines, b.lines, n)
              && (HoldsDense(outs, a.lines, b.lines, n) <==> Fits(a.lines, b.lines, n))
    ensures outs[0] == head3 && forall o :: o in outs ==> o == head3 || fresh(o)
    ensures advances <= ProductBound(a.lines, b.lines)
  {
    ghost var start, cells: seq<Cell> := [head3], [];
    outs, advances := MultiplyRows(head3, rowHead, colHead, start, cells, a, b, inputs);
    NoCellsBefore(ProductCells(a.lines, b.lines));
    OutputIsList(outs, ProductCells(a.lines, b.lines), inputs);
    OutputIsDenseInAll(outs, a.lines, b.lines, inputs);
  }

  lemma NoCellsBefore(cs: seq<Cell>)
    ensures [] + cs == cs
  {
  }

  /** `multiply`.  Nothing happens when the first row or the list of columns is empty; otherwise
      the list behind `head3` becomes the product, followed by one node of value zero.  So the
      list is the product afterwards if and only if neither is empty or it was the product
      before; for an empty list, as the caller makes it, if and only if neither is empty or the
      product has no cells. */
  method Multiply(colHead: Node, rowHead: Node, head3: Node, ghost a: Shape, ghost b: Shape, ghost inputs: set<Node>)
    returns (ghost outs: seq<Node>, ghost advances: nat)
    requires RowsLinked(rowHead, a, inputs) && ColumnsLinked(colHead, b, inputs) && head3 !in inputs
    modifies head3
    ensures a.nodes[0] == [] || b.heads == [] ==>
              && head3.right == old(head3.right) && head3.value == old(head3.value) && head3.ri == old(head3.ri)
              && head3.ci == old(head3.ci) && advances == 0
    ensures a.nodes[0] != [] && b.heads != [] ==>
              && OutputHolds(outs, ProductCells(a.lines, b.lines), inputs)
              && outs[0] == head3 && (forall o :: o in outs ==> o == head3 || fresh(o))
              && outs[|outs| - 1].value == 0
              && (forall n {:trigger Lines(a.lines, n)} :: Lines(a.lines, n) && Lines(b.lines, n) ==>
                    && HoldsWrapped(outs, a.lines, b.lines, n)
                    && (HoldsDense(outs, a.lines, b.lines, n) <==> Fits(a.lines, b.lines, n)))
    ensures head3.down == old(head3.down)
    ensures HoldsList(head3, ProductCells(a.lines, b.lines))
            <==> (a.nodes[0] != [] && b.heads != []) || old(HoldsList(head3, ProductCells(a.lines, b.lines)))
    ensures old(HoldsList(head3, [])) ==>
              (HoldsList(head3, ProductCells(a.lines, b.lines))
               <==> (a.nodes[0] != [] && b.heads != []) || ProductCells(a.lines, b.lines) == [])
    ensures advances <= ProductBound(a.lines, b.lines)
    ensures ProductBound(a.lines, b.lines) == |b.lines| * Entries(a.lines) + |a.lines| * Entries(b.lines)
  {
    outs, advances := [], 0;
    ProductBoundIs(a.lines, b.lines);
    NextRow(rowHead, a, inputs, 0);
    if HoldsList(head3, []) { EmptyListHolds(head3, ProductCells(a.lines, b.lines)); }
    if rowHead.right == null || colHead.right == null { return; }
    head3.right := null;
    head3.value := 0;
    outs, advances := MultiplyFrom(head3, rowHead, colHead, a, b, inputs);
  }

  // ---------- an empty first row ----------

  lemma SmallProduct()
    ensures ProductCells([Line(1, []), Line(2, [Entry(1, 1)])], [Line(1, [Entry(1, 1)])]) == [Cell(2, 1, 1)]
  {
    var r1, r2, k := Line(1, []), Line(2, [Entry(1, 1)]), Line(1, [Entry(1, 1)]);
    assert [r1, r2][1..] == [r2] && [r2][1..] == [] && [k][1..] == [] && k.es[1..] == [];
    assert Dot(r2.es, k.es) == 1 && Dot(r1.es, k.es) == 0;
    assert RowCells(r1, [k]) == [] && RowCells(r2, [k]) == [Cell(2, 1, 1)];
    assert ProductCells([r2], [k]) == [Cell(2, 1, 1)];
  }

  lemma SmallRows(r1: Node, r2: Node, x: Node, inputs: set<Node>)
    requires {r1, r2, x} <= inputs
    requires r1.right == null && r1.down == r2 && r2.right == x && r2.down == null
    requires x.ri == 2 && x.ci == 1 && x.value == 1 && x.right == null
    ensures RowsLinked(r1, Shape([r1, r2], [[], [x]], [Line(1, []), Line(2, [Entry(1, 1)])]), inputs)
  {
    assert RowLinked(r1, [], Line(1, []), inputs) && RowLinked(r2, [x], Line(2, [Entry(1, 1)]), inputs);
  }

  lemma SmallColumns(c: Node, c1: Node, y: Node, inputs: set<Node>)
    requires {c, c1, y} <= inputs
    requires c.right == c1 && c1.right == null && c1.down == y
    requires y.ri == 1 && y.ci == 1 && y.value == 1 && y.down == null
    ensures ColumnsLinked(c, Shape([c1], [[y]], [Line(1, [Entry(1, 1)])]), inputs)
  {
    assert ColumnLinked(c1, [y], Line(1, [Entry(1, 1)]), inputs);
  }

  method SmallRowNodes() returns (r1: Node, r2: Node, x: Node)
    ensures r1.right == null && r1.down == r2 && r2.right == x && r2.down == null
    ensures x.ri == 2 && x.ci == 1 && x.value == 1 && x.right == null
  {
    x := new Node;
    x.ri, x.ci, x.value, x.right := 2, 1, 1, null;
    r2 := new Node;
    r2.right, r2.down := x, null;
    r1 := new Node;
    r1.right, r1.down := null, r2;
  }

  method SmallColumnNodes() returns (c: Node, c1: Node, y: Node)
    ensures c.right == c1 && c1.right == null && c1.down == y
    ensures y.ri == 1 && y.ci == 1 && y.value == 1 && y.down == null
  {
    y := new Node;
    y.ri, y.ci, y.value, y.down := 1, 1, 1, null;
    c1 := new Node;
    c1.right, c1.down := null, y;
    c := new Node;
    c.right := c1;
  }

  method SmallInput()
    returns (rowHead: Node, colHead: Node, head3: Node, ghost a: Shape, ghost b: Shape, ghost inputs: set<Node>)
    ensures RowsLinked(rowHead, a, inputs) && ColumnsLinked(colHead, b, inputs) && head3 !in inputs && fresh(head3)
    ensures a.lines == [Line(1, []), Line(2, [Entry(1, 1)])] && b.lines == [Line(1, [Entry(1, 1)])]
    ensures a.nodes[0] == [] && HoldsList(head3, [])
  {
    var r1, r2, x := SmallRowNodes();
    var c, c1, y := SmallColumnNodes();
    head3 := new Node;
    head3.value, head3.right := 0, null;
    rowHead, colHead := r1, c;
    a := Shape([r1, r2], [[], [x]], [Line(1, []), Line(2, [Entry(1, 1)])]);
    b := Shape([c1], [[y]], [Line(1, [Entry(1, 1)])]);
    inputs := {r1, r2, x, c, c1, y};
    SmallRows(r1, r2, x, inputs);
    SmallColumns(c, c1, y, inputs);
  }

  /** Two rows, the first of them empty, and one column: the product has the cell (2, 1), and
      `multiply` leaves the list behind `head3` empty. */
  method EmptyFirstRowIsMissed() returns (head3: Node, ghost rows: seq<Line>, ghost cols: seq<Line>)
    ensures rows == [Line(1, []), Line(2, [Entry(1, 1)])] && cols == [Line(1, [Entry(1, 1)])]
    ensures ProductCells(rows, cols) == [Cell(2, 1, 1)]
    ensures HoldsList(head3, []) && !HoldsList(head3, ProductCells(rows, cols))
  {
    var rowHead, colHead;
    ghost var a, b, inputs;
    rowHead, colHead, head3, a, b, inputs := SmallInput();
    rows, cols := a.lines, b.lines;
    SmallProduct();
    ghost var outs, advances := Multiply(colHead, rowHead, head3, a, b, inputs);
  }
}
