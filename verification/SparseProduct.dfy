/** The product of two sparse matrices, as values: a row of the first and a column of the
    second are lists of entries with ascending positions.
 */
module SparseProduct {
  datatype Entry = Entry(ix: nat, v: int)
  datatype Line = Line(header: nat, es: seq<Entry>)
  datatype Cell = Cell(ri: nat, ci: nat, value: int)

  ghost predicate Ascending(es: seq<Entry>) {
    forall i, j :: 0 <= i < j < |es| ==> es[i].ix < es[j].ix
  }

  /** The sum that the merge of a row and a column computes. */
  function Dot(row: seq<Entry>, col: seq<Entry>): int
    decreases |row| + |col|
  {
    if row == [] || col == [] then 0
    else if row[0].ix == col[0].ix then row[0].v * col[0].v + Dot(row[1..], col[1..])
    else if row[0].ix < col[0].ix then Dot(row[1..], col)
    else Dot(row, col[1..])
  }

  const RANGE := 0x1_0000_0000_0000_0000

  predicate InRange(x: int) {
    -RANGE / 2 <= x < RANGE / 2
  }

  /** The 64-bit value that `x` wraps to, in two's complement. */
  function Wrap(x: int): (r: int)
    ensures InRange(r)
  {
    (x + RANGE / 2) % RANGE - RANGE / 2
  }

  lemma WrapIsExact(x: int)
    ensures Wrap(x) == x <==> InRange(x)
  {
  }

  /** Wrapping the operands changes nothing. */
  lemma WrapAdd(x: int, y: int)
    ensures Wrap(Wrap(x) + Wrap(y)) == Wrap(x + y)
  {
    var h := RANGE / 2;
    var p, q := (x + h) / RANGE, (y + h) / RANGE;
    assert Wrap(x) == x - p * RANGE && Wrap(y) == y - q * RANGE;
    WrapShift(x + y, -p - q);
  }

  /** One product is added to what the merge has so far: `rest` is still to come before, `rest1` after. */
  lemma WrapStep(total: int, rest: int, rest1: int, v: int)
    requires rest == v + rest1
    ensures Wrap(Wrap(total - rest) + Wrap(v)) == Wrap(total - rest1)
  {
    WrapAdd(total - rest, v);
  }

  lemma WrapShift(x: int, k: int)
    ensures Wrap(x + k * RANGE) == Wrap(x)
  {
    var y := x + RANGE / 2;
    assert y + k * RANGE == (y / RANGE + k) * RANGE + y % RANGE;
    UniqueRemainder(y + k * RANGE, y / RANGE + k, y % RANGE);
  }

  lemma UniqueRemainder(y: int, q: int, r: int)
    requires y == q * RANGE + r && 0 <= r < RANGE
    ensures y % RANGE == r
  {
  }

  /** What the merge leaves: the sum, wrapped to 64 bits. */
  function Merged(row: seq<Entry>, col: seq<Entry>): int {
    Wrap(Dot(row, col))
  }

  /** One step of the merge, at the positions `a` and `b` of its two cursors. */
  lemma DotAdvance(row: seq<Entry>, col: seq<Entry>, a: nat, b: nat)
    requires a <= |row| && b <= |col|
    ensures a == |row| || b == |col| ==> Dot(row[a..], col[b..]) == 0
    ensures a < |row| && b < |col| ==>
              Dot(row[a..], col[b..]) ==
              if row[a].ix == col[b].ix then row[a].v * col[b].v + Dot(row[a + 1..], col[b + 1..])
              else if row[a].ix < col[b].ix then Dot(row[a + 1..], col[b..])
              else Dot(row[a..], col[b + 1..])
  {
    if a < |row| && b < |col| {
      assert row[a..][1..] == row[a + 1..] && col[b..][1..] == col[b + 1..];
    }
  }

  /** The three moves of the merge, told of the wrapped value it has so far. */
  lemma {:induction false} MergeAdvance(row: seq<Entry>, col: seq<Entry>, a: nat, b: nat, total: int, value: int)
    requires a <= |row| && b <= |col| && value == Wrap(total - Dot(row[a..], col[b..]))
    ensures a == |row| || b == |col| ==> value == Wrap(total)
    ensures a < |row| && b < |col| ==>
              if row[a].ix == col[b].ix then
                Wrap(value + Wrap(row[a].v * col[b].v)) == Wrap(total - Dot(row[a + 1..], col[b + 1..]))
              else if row[a].ix < col[b].ix then value == Wrap(total - Dot(row[a + 1..], col[b..]))
              else value == Wrap(total - Dot(row[a..], col[b + 1..]))
  {
    DotAdvance(row, col, a, b);
    if a < |row| && b < |col| && row[a].ix == col[b].ix {
      WrapStep(total, Dot(row[a..], col[b..]), Dot(row[a + 1..], col[b + 1..]), row[a].v * col[b].v);
    }
  }

  /** The value stored at position `k`, zero where nothing is stored. */
  function At(es: seq<Entry>, k: nat): int {
    if es == [] then 0 else if es[0].ix == k then es[0].v else At(es[1..], k)
  }

  /** The product of a row and a column of dense matrices of `n` columns and rows. */
  function DenseDot(row: seq<Entry>, col: seq<Entry>, n: nat): int {
    if n == 0 then 0 else DenseDot(row, col, n - 1) + At(row, n - 1) * At(col, n - 1)
  }

  ghost predicate Within(es: seq<Entry>, n: nat) {
    forall i :: 0 <= i < |es| ==> es[i].ix < n
  }

  // ---------- the merge computes the dense product ----------

  lemma {:induction false} AtBelowHead(es: seq<Entry>, k: nat)
    requires Ascending(es) && es != [] && k < es[0].ix
    ensures At(es, k) == 0
  {
    if |es| > 1 {
      assert es[1..][0] == es[1];
      AtBelowHead(es[1..], k);
    }
  }

  lemma TailAscends(es: seq<Entry>, n: nat)
    requires Ascending(es) && es != [] && Within(es, n)
    ensures Ascending(es[1..]) && Within(es[1..], n)
    ensures At(es[1..], es[0].ix) == 0
  {
    if |es| > 1 {
      assert es[1..][0] == es[1];
      AtBelowHead(es[1..], es[0].ix);
    }
  }

  /** Two pairs of lines that differ only at position `j`, and there by `d`. */
  lemma {:induction false} DenseDiffers(row: seq<Entry>, col: seq<Entry>, row1: seq<Entry>, col1: seq<Entry>, j: nat,
                                        d: int, n: nat)
    requires forall k: nat :: k < n ==> At(row, k) * At(col, k) == At(row1, k) * At(col1, k) + (if k == j then d else 0)
    ensures DenseDot(row, col, n) == DenseDot(row1, col1, n) + (if j < n then d else 0)
  {
    if n > 0 {
      DenseDiffers(row, col, row1, col1, j, d, n - 1);
    }
  }

  /** The merge of two ascending lines is the sum over all positions. */
  lemma {:induction false} DotIsDense(row: seq<Entry>, col: seq<Entry>, n: nat)
    requires Ascending(row) && Ascending(col) && Within(row, n) && Within(col, n)
    ensures Dot(row, col) == DenseDot(row, col, n)
    decreases |row| + |col|
  {
    if row == [] || col == [] {
      assert forall k: nat :: k < n ==> At(row, k) * At(col, k) == 0;
      DenseDiffers(row, col, [], [], 0, 0, n);
      DenseOfNothing(n);
    } else {
      TailAscends(row, n);
      TailAscends(col, n);
      var j, i := row[0].ix, col[0].ix;
      if j == i {
        DotIsDense(row[1..], col[1..], n);
        DenseDiffers(row, col, row[1..], col[1..], j, row[0].v * col[0].v, n);
      } else if j < i {
        AtBelowHead(col, j);
        DotIsDense(row[1..], col, n);
        DenseDiffers(row, col, row[1..], col, j, 0, n);
      } else {
        AtBelowHead(row, i);
        DotIsDense(row, col[1..], n);
        DenseDiffers(row, col, row, col[1..], i, 0, n);
      }
    }
  }

  lemma {:induction false} DenseOfNothing(n: nat)
    ensures DenseDot([], [], n) == 0
  {
    if n > 0 { DenseOfNothing(n - 1); }
  }

  // ---------- the whole product ----------

  function RowCells(row: Line, cols: seq<Line>): seq<Cell> {
    if cols == [] then []
    else OneCell(row, cols[0]) + RowCells(row, cols[1..])
  }

  /** The cell that one row and one column add to the product, if any. */
  function OneCell(row: Line, col: Line): seq<Cell> {
    var d := Merged(row.es, col.es);
    if d != 0 then [Cell(row.header, col.header, d)] else []
  }

  /** The non-zero cells, row by row and in each row column by column. */
  function ProductCells(rows: seq<Line>, cols: seq<Line>): seq<Cell> {
    if rows == [] then [] else RowCells(rows[0], cols) + ProductCells(rows[1..], cols)
  }

  /** The dense matrix that a list of lines stands for: the value at `k` of the line `h`. */
  function Matrix(lines: seq<Line>, h: nat, k: nat): int {
    if lines == [] then 0 else if lines[0].header == h then At(lines[0].es, k) else Matrix(lines[1..], h, k)
  }

  /** The cell `(i, j)` of the dense product: the sum of `A[i,k] * B[k,j]` over `k < n`. */
  function DenseCell(rows: seq<Line>, cols: seq<Line>, i: nat, j: nat, n: nat): int {
    if n == 0 then 0 else DenseCell(rows, cols, i, j, n - 1) + Matrix(rows, i, n - 1) * Matrix(cols, j, n - 1)
  }

  /** Lines with different headers, each ascending and within the dimension `n`. */
  ghost predicate Lines(ls: seq<Line>, n: nat) {
    && (forall i, j :: 0 <= i < j < |ls| ==> ls[i].header != ls[j].header)
    && (forall i :: 0 <= i < |ls| ==> Ascending(ls[i].es) && Within(ls[i].es, n))
  }

  ghost predicate HasHeader(ls: seq<Line>, h: nat) {
    exists i :: 0 <= i < |ls| && ls[i].header == h
  }

  lemma {:induction false} MatrixOfLine(ls: seq<Line>, x: nat, k: nat)
    requires x < |ls| && forall i, j :: 0 <= i < j < |ls| ==> ls[i].header != ls[j].header
    ensures Matrix(ls, ls[x].header, k) == At(ls[x].es, k)
  {
    if x > 0 {
      assert ls[0].header != ls[x].header;
      MatrixOfLine(ls[1..], x - 1, k);
    }
  }

  lemma {:induction false} MatrixOfNoLine(ls: seq<Line>, h: nat, k: nat)
    requires !HasHeader(ls, h)
    ensures Matrix(ls, h, k) == 0
  {
    if ls != [] {
      assert ls[0].header != h;
      forall i | 0 <= i < |ls[1..]| ensures ls[1..][i].header != h { assert ls[i + 1].header != h; }
      MatrixOfNoLine(ls[1..], h, k);
    }
  }

  lemma {:induction false} DenseCellOfLines(rows: seq<Line>, cols: seq<Line>, x: nat, y: nat, n: nat)
    requires x < |rows| && y < |cols|
    requires forall i, j :: 0 <= i < j < |rows| ==> rows[i].header != rows[j].header
    requires forall i, j :: 0 <= i < j < |cols| ==> cols[i].header != cols[j].header
    ensures DenseCell(rows, cols, rows[x].header, cols[y].header, n) == DenseDot(rows[x].es, cols[y].es, n)
  {
    if n > 0 {
      DenseCellOfLines(rows, cols, x, y, n - 1);
      MatrixOfLine(rows, x, n - 1);
      MatrixOfLine(cols, y, n - 1);
    }
  }

  lemma {:induction false} DenseCellOutside(rows: seq<Line>, cols: seq<Line>, i: nat, j: nat, n: nat)
    requires !HasHeader(rows, i) || !HasHeader(cols, j)
    ensures DenseCell(rows, cols, i, j, n) == 0
  {
    if n > 0 {
      DenseCellOutside(rows, cols, i, j, n - 1);
      if !HasHeader(rows, i) { MatrixOfNoLine(rows, i, n - 1); } else { MatrixOfNoLine(cols, j, n - 1); }
    }
  }

  // ---------- which cells are in the product ----------

  /** `c` is the non-zero cell of row `x` and column `y`. */
  ghost predicate CellAt(rows: seq<Line>, cols: seq<Line>, x: int, y: int, c: Cell) {
    && 0 <= x < |rows| && 0 <= y < |cols|
    && c == Cell(rows[x].header, cols[y].header, Merged(rows[x].es, cols[y].es)) && c.value != 0
  }

  lemma RowCellsHold(row: Line, cols: seq<Line>, c: Cell) returns (y: int)
    requires c in RowCells(row, cols)
    ensures CellAt([row], cols, 0, y, c)
  {
    var d := Merged(row.es, cols[0].es);
    if d != 0 && c == Cell(row.header, cols[0].header, d) {
      y := 0;
    } else {
      var z := RowCellsHold(row, cols[1..], c);
      y := z + 1;
    }
  }

  lemma {:induction false} RowCellsAll(row: Line, cols: seq<Line>, y: int)
    requires 0 <= y < |cols| && Merged(row.es, cols[y].es) != 0
    ensures Cell(row.header, cols[y].header, Merged(row.es, cols[y].es)) in RowCells(row, cols)
  {
    if y > 0 { RowCellsAll(row, cols[1..], y - 1); }
  }

  lemma CellsHold(rows: seq<Line>, cols: seq<Line>, c: Cell) returns (x: int, y: int)
    requires c in ProductCells(rows, cols)
    ensures CellAt(rows, cols, x, y, c)
  {
    if c in RowCells(rows[0], cols) {
      x := 0;
      y := RowCellsHold(rows[0], cols, c);
    } else {
      var z;
      z, y := CellsHold(rows[1..], cols, c);
      x := z + 1;
    }
  }

  lemma {:induction false} CellsAll(rows: seq<Line>, cols: seq<Line>, x: int, y: int)
    requires 0 <= x < |rows| && 0 <= y < |cols| && Merged(rows[x].es, cols[y].es) != 0
    ensures Cell(rows[x].header, cols[y].header, Merged(rows[x].es, cols[y].es)) in ProductCells(rows, cols)
  {
    if x > 0 { CellsAll(rows[1..], cols, x - 1, y); } else { RowCellsAll(rows[0], cols, y); }
  }

  /** The product lists a cell `(i, j)` with value `v` if and only if `v` is the dense product
      there, wrapped to 64 bits, and is not zero. */
  lemma {:induction false} ProductIsDense(rows: seq<Line>, cols: seq<Line>, n: nat, i: nat, j: nat, v: int)
    requires Lines(rows, n) && Lines(cols, n)
    ensures Cell(i, j, v) in ProductCells(rows, cols) <==> v != 0 && v == Wrap(DenseCell(rows, cols, i, j, n))
  {
    if Cell(i, j, v) in ProductCells(rows, cols) {
      var x, y := CellsHold(rows, cols, Cell(i, j, v));
      DotIsDense(rows[x].es, cols[y].es, n);
      DenseCellOfLines(rows, cols, x, y, n);
    }
    if v != 0 && v == Wrap(DenseCell(rows, cols, i, j, n)) {
      if HasHeader(rows, i) && HasHeader(cols, j) {
        var x :| 0 <= x < |rows| && rows[x].header == i;
        var y :| 0 <= y < |cols| && cols[y].header == j;
        DotIsDense(rows[x].es, cols[y].es, n);
        DenseCellOfLines(rows, cols, x, y, n);
        CellsAll(rows, cols, x, y);
      } else {
        DenseCellOutside(rows, cols, i, j, n);
      }
    }
  }

  /** Every cell of the dense product fits into 64 bits. */
  ghost predicate Fits(rows: seq<Line>, cols: seq<Line>, n: nat) {
    forall i: nat, j: nat :: InRange(DenseCell(rows, cols, i, j, n))
  }

  /** The list is the dense product itself. */
  ghost predicate IsDense(cells: seq<Cell>, rows: seq<Line>, cols: seq<Line>, n: nat) {
    forall i: nat, j: nat, v: int :: Cell(i, j, v) in cells <==> v != 0 && v == DenseCell(rows, cols, i, j, n)
  }

  /** The list is the dense product if and only if every cell of that fits into 64 bits. */
  lemma {:induction false} DenseExactlyWhenItFits(rows: seq<Line>, cols: seq<Line>, n: nat)
    requires Lines(rows, n) && Lines(cols, n)
    ensures IsDense(ProductCells(rows, cols), rows, cols, n) <==> Fits(rows, cols, n)
  {
    forall i: nat, j: nat, v: int
      ensures Cell(i, j, v) in ProductCells(rows, cols) <==> v != 0 && v == Wrap(DenseCell(rows, cols, i, j, n))
    {
      ProductIsDense(rows, cols, n, i, j, v);
    }
    forall i: nat, j: nat
      ensures var v := DenseCell(rows, cols, i, j, n); InRange(v) <==> Wrap(v) == v
    {
      WrapIsExact(DenseCell(rows, cols, i, j, n));
    }
    if IsDense(ProductCells(rows, cols), rows, cols, n) {
      forall i: nat, j: nat ensures InRange(DenseCell(rows, cols, i, j, n)) {
        var v := DenseCell(rows, cols, i, j, n);
        if v != 0 { assert Cell(i, j, v) in ProductCells(rows, cols); }
      }
    }
  }

  /** A product that wraps to zero is not listed at all. */
  lemma LargeProductIsLost()
    ensures var rows, cols := [Line(1, [Entry(0, 0x1_0000_0000)])], [Line(1, [Entry(0, 0x1_0000_0000)])];
            && Lines(rows, 1) && Lines(cols, 1)
            && DenseCell(rows, cols, 1, 1, 1) == RANGE && ProductCells(rows, cols) == []
  {
    var l := Line(1, [Entry(0, 0x1_0000_0000)]);
    assert l.es[1..] == [] && [l][1..] == [];
    assert Dot(l.es, l.es) == RANGE && Merged(l.es, l.es) == 0;
    assert RowCells(l, [l]) == [];
    assert Matrix([l], 1, 0) == 0x1_0000_0000;
    assert DenseCell([l], [l], 1, 1, 0) == 0;
  }

  // ---------- no cell is listed twice, and they come in order ----------

  ghost predicate DistinctCells(cs: seq<Cell>) {
    forall a, b :: 0 <= a < b < |cs| ==> cs[a].ri != cs[b].ri || cs[a].ci != cs[b].ci
  }

  lemma {:induction false} RowCellsDistinct(row: Line, cols: seq<Line>, n: nat)
    requires Lines(cols, n)
    ensures DistinctCells(RowCells(row, cols))
  {
    if cols != [] {
      LinesTail(cols, n);
      RowCellsDistinct(row, cols[1..], n);
      var rest := RowCells(row, cols[1..]);
      forall b | 0 <= b < |rest| ensures rest[b].ci != cols[0].header {
        var y := RowCellsHold(row, cols[1..], rest[b]);
        assert cols[y + 1].header == rest[b].ci;
      }
    }
  }

  lemma LinesTail(ls: seq<Line>, n: nat)
    requires Lines(ls, n) && ls != []
    ensures Lines(ls[1..], n)
  {
    forall i, j | 0 <= i < j < |ls[1..]| ensures ls[1..][i].header != ls[1..][j].header {
      assert ls[i + 1].header != ls[j + 1].header;
    }
  }

  /** No cell of the product is listed twice. */
  lemma {:induction false} ProductCellsDistinct(rows: seq<Line>, cols: seq<Line>, n: nat)
    requires Lines(rows, n) && Lines(cols, n)
    ensures DistinctCells(ProductCells(rows, cols))
  {
    if rows != [] {
      LinesTail(rows, n);
      ProductCellsDistinct(rows[1..], cols, n);
      RowCellsDistinct(rows[0], cols, n);
      var first, rest := RowCells(rows[0], cols), ProductCells(rows[1..], cols);
      forall a, b | 0 <= a < |first| && 0 <= b < |rest| ensures first[a].ri != rest[b].ri {
        var y := RowCellsHold(rows[0], cols, first[a]);
        var x, z := CellsHold(rows[1..], cols, rest[b]);
        assert rows[x + 1].header == rest[b].ri;
      }
    }
  }

  // ---------- work ----------

  function Entries(ls: seq<Line>): nat {
    if ls == [] then 0 else |ls[0].es| + Entries(ls[1..])
  }

  /** The moves allowed for one row against all columns. */
  function MergeBound(row: Line, cols: seq<Line>): nat {
    if cols == [] then 0 else |row.es| + |cols[0].es| + MergeBound(row, cols[1..])
  }

  function ProductBound(rows: seq<Line>, cols: seq<Line>): nat {
    if rows == [] then 0 else MergeBound(rows[0], cols) + ProductBound(rows[1..], cols)
  }

  /** What the columns from `j` on add, in cells and in moves. */
  lemma {:induction false} RowFrom(row: Line, cols: seq<Line>, j: nat)
    requires j <= |cols|
    ensures j == |cols| ==> RowCells(row, cols[j..]) == [] && MergeBound(row, cols[j..]) == 0
    ensures j < |cols| ==>
              && RowCells(row, cols[j..]) == OneCell(row, cols[j]) + RowCells(row, cols[j + 1..])
              && MergeBound(row, cols[j..]) == |row.es| + |cols[j].es| + MergeBound(row, cols[j + 1..])
  {
    if j < |cols| { assert cols[j..][0] == cols[j] && cols[j..][1..] == cols[j + 1..]; }
  }

  lemma {:induction false} ProductFrom(rows: seq<Line>, cols: seq<Line>, i: nat)
    requires i <= |rows|
    ensures i == |rows| ==> ProductCells(rows[i..], cols) == [] && ProductBound(rows[i..], cols) == 0
    ensures i < |rows| ==>
              && ProductCells(rows[i..], cols) == RowCells(rows[i], cols) + ProductCells(rows[i + 1..], cols)
              && ProductBound(rows[i..], cols) == MergeBound(rows[i], cols) + ProductBound(rows[i + 1..], cols)
  {
    if i < |rows| { assert rows[i..][0] == rows[i] && rows[i..][1..] == rows[i + 1..]; }
  }

  /** Column `j` done: what is listed and what is still to come make up the same whole. */
  lemma {:induction false} RowProgress(row: Line, cols: seq<Line>, j: nat, done: seq<Cell>, all: seq<Cell>)
    requires j < |cols| && done + RowCells(row, cols[j..]) == all
    ensures done + OneCell(row, cols[j]) + RowCells(row, cols[j + 1..]) == all
    ensures j + 1 == |cols| ==> done + OneCell(row, cols[j]) == all
  {
    RowFrom(row, cols, j);
    RowFrom(row, cols, j + 1);
  }

  /** Row `i` done. */
  lemma {:induction false} ProductProgress(rows: seq<Line>, cols: seq<Line>, i: nat, done: seq<Cell>, all: seq<Cell>)
    requires i < |rows| && done + ProductCells(rows[i..], cols) == all
    ensures done + RowCells(rows[i], cols) + ProductCells(rows[i + 1..], cols) == all
    ensures i + 1 == |rows| ==> done + RowCells(rows[i], cols) == all
  {
    ProductFrom(rows, cols, i);
    ProductFrom(rows, cols, i + 1);
  }

  /** The whole of one round of the middle loop. */
  lemma {:induction false} RowAdvance(row: Line, cols: seq<Line>, j: nat, done: seq<Cell>, all: seq<Cell>,
                                      advances: nat, moves: nat)
    requires j < |cols| && done + RowCells(row, cols[j..]) == all
    requires advances + MergeBound(row, cols[j..]) <= MergeBound(row, cols) && moves <= |row.es| + |cols[j].es|
    ensures var done1 := done + OneCell(row, cols[j]);
            if j + 1 < |cols| then
              && done1 + RowCells(row, cols[j + 1..]) == all
              && advances + moves + MergeBound(row, cols[j + 1..]) <= MergeBound(row, cols)
            else done1 == all && advances + moves <= MergeBound(row, cols)
  {
    RowProgress(row, cols, j, done, all);
    RowFrom(row, cols, j);
    RowFrom(row, cols, j + 1);
  }

  /** The whole of one round of the outer loop. */
  lemma {:induction false} ProductAdvance(rows: seq<Line>, cols: seq<Line>, i: nat, done: seq<Cell>, all: seq<Cell>,
                                          advances: nat, moves: nat)
    requires i < |rows| && done + ProductCells(rows[i..], cols) == all
    requires advances + ProductBound(rows[i..], cols) <= ProductBound(rows, cols) && moves <= MergeBound(rows[i], cols)
    ensures var done1 := done + RowCells(rows[i], cols);
            if i + 1 < |rows| then
              && done1 + ProductCells(rows[i + 1..], cols) == all
              && advances + moves + ProductBound(rows[i + 1..], cols) <= ProductBound(rows, cols)
            else done1 == all && advances + moves <= ProductBound(rows, cols)
  {
    ProductProgress(rows, cols, i, done, all);
    ProductFrom(rows, cols, i);
    ProductFrom(rows, cols, i + 1);
  }

  lemma {:induction false} MergeBoundIs(row: Line, cols: seq<Line>)
    ensures MergeBound(row, cols) == |cols| * |row.es| + Entries(cols)
  {
    if cols != [] {
      MergeBoundIs(row, cols[1..]);
      assert |cols| * |row.es| == |row.es| + (|cols| - 1) * |row.es|;
    }
  }

  /** Every entry of a row is passed once per column, every entry of a column once per row. */
  lemma {:induction false} ProductBoundIs(rows: seq<Line>, cols: seq<Line>)
    ensures ProductBound(rows, cols) == |cols| * Entries(rows) + |rows| * Entries(cols)
  {
    if rows != [] {
      MergeBoundIs(rows[0], cols);
      ProductBoundIs(rows[1..], cols);
      assert |rows| * Entries(cols) == Entries(cols) + (|rows| - 1) * Entries(cols);
      assert |cols| * (|rows[0].es| + Entries(rows[1..])) == |cols| * |rows[0].es| + |cols| * Entries(rows[1..]);
    }
  }
}
