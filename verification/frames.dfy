/** Per-position plate data. A pandas DataFrame whose index and columns are
    the row and column numbers of a plate (as strings) is modelled as a map
    from (row, column) pairs to float values. */
module Frames {
  import opened Floats

  datatype Pos = Pos(row: int, col: int)

  type Frame = map<Pos, Value>

  /** The row and column labels of a plate table, in table order. The readers
      pivot over the rows and columns that occur and sort them, so a table
      need not have every row 1..R or every column 1..C. */
  datatype Shape = Shape(rows: seq<int>, cols: seq<int>)

  predicate InPlate(sh: Shape, p: Pos) {
    p.row in sh.rows && p.col in sh.cols
  }

  function Cells(sh: Shape): (cells: set<Pos>)
    ensures forall p :: p in cells <==> InPlate(sh, p)
  {
    var cells := set r, c | r in sh.rows && c in sh.cols :: Pos(r, c);
    assert forall p | InPlate(sh, p) :: Pos(p.row, p.col) in cells;
    cells
  }

  /** In the first or last row, or the first or last column, by position in
      the table (pandas' `iloc[0]` and `iloc[-1]`). */
  predicate OnEdge(sh: Shape, p: Pos) {
    || (|sh.rows| > 0 && (p.row == sh.rows[0] || p.row == sh.rows[|sh.rows| - 1]))
    || (|sh.cols| > 0 && (p.col == sh.cols[0] || p.col == sh.cols[|sh.cols| - 1]))
  }

  /** The labels 1..n in order. */
  function Labels(n: nat): (ls: seq<int>)
    ensures |ls| == n
    ensures forall i :: 0 <= i < n ==> ls[i] == i + 1
  {
    seq(n, i => i + 1)
  }

  /** A full plate: rows 1..nrows and columns 1..ncols. */
  function FullPlate(nrows: nat, ncols: nat): Shape {
    Shape(Labels(nrows), Labels(ncols))
  }

  /** On a full plate the cells are the positions 1..R x 1..C and the edges
      are rows 1 and R and columns 1 and C. */
  lemma FullPlateCells(nrows: nat, ncols: nat, p: Pos)
    requires nrows > 0 && ncols > 0
    ensures InPlate(FullPlate(nrows, ncols), p) <==> 1 <= p.row <= nrows && 1 <= p.col <= ncols
    ensures OnEdge(FullPlate(nrows, ncols), p) <==>
      p.row == 1 || p.row == nrows || p.col == 1 || p.col == ncols
  {
    var sh := FullPlate(nrows, ncols);
    if 1 <= p.row <= nrows {
      assert sh.rows[p.row - 1] == p.row;
    }
    if 1 <= p.col <= ncols {
      assert sh.cols[p.col - 1] == p.col;
    }
  }

  /** Chebyshev distance at most one: the position itself or one of its eight
      neighbours. */
  predicate Near(q: Pos, p: Pos) {
    -1 <= q.row - p.row <= 1 && -1 <= q.col - p.col <= 1
  }

  function Neighbourhood(p: Pos): (n: set<Pos>)
    ensures forall q :: q in n <==> Near(q, p)
  {
    var n := set r, c | p.row - 1 <= r <= p.row + 1 && p.col - 1 <= c <= p.col + 1 :: Pos(r, c);
    assert forall q | Near(q, p) :: Pos(q.row, q.col) in n;
    n
  }
}
