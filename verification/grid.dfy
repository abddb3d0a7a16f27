/**
 * The 3D grid of thermal cells: its dimensions, the (layer, row, column)
 * coordinates of a cell, the single flat index every array of the simulator
 * uses, and the six neighbour directions of a cell.
 *
 * The flat index of a cell is  layer * NRows * NColumns + row * NColumns + column,
 * the expression written out in every stencil builder of the system matrix.
 */
module Grid {
  import opened Wrappers

  /** Number of layers, rows and columns of the grid. */
  datatype Dimensions = Dimensions(nLayers: nat, nRows: nat, nColumns: nat)

  /** Cells of one layer (the LAYER_OFFSET of the stencil code). */
  function LayerArea(d: Dimensions): nat
  {
    d.nRows * d.nColumns
  }

  /** Cells of the whole grid: the size of every per-cell array. */
  function NumberOfCells(d: Dimensions): nat
  {
    d.nLayers * LayerArea(d)
  }

  datatype Cell = Cell(layer: nat, row: nat, column: nat)

  predicate InGrid(d: Dimensions, x: Cell)
  {
    x.layer < d.nLayers && x.row < d.nRows && x.column < d.nColumns
  }

  /** The flat index of a cell; every cell of the grid gets a distinct index below NumberOfCells. */
  function Index(d: Dimensions, x: Cell): (i: nat)
    requires InGrid(d, x)
    ensures i < NumberOfCells(d)
    ensures CellOf(d, i) == x
  {
    var i := x.layer * LayerArea(d) + x.row * d.nColumns + x.column;
    IndexBound(d, x);
    IndexDecomposes(d, x);
    i
  }

  /** The cell a flat index denotes: the inverse of Index. */
  function CellOf(d: Dimensions, i: nat): (x: Cell)
    requires i < NumberOfCells(d)
    ensures InGrid(d, x)
  {
    CoordinatesInGrid(d, i);
    var rest := i % LayerArea(d);
    Cell(i / LayerArea(d), rest / d.nColumns, rest % d.nColumns)
  }

  /** The layer, row and column a flat index decomposes into are within the grid. */
  lemma CoordinatesInGrid(d: Dimensions, i: nat)
    requires i < NumberOfCells(d)
    ensures LayerArea(d) > 0 && d.nColumns > 0
    ensures i / LayerArea(d) < d.nLayers
    ensures (i % LayerArea(d)) / d.nColumns < d.nRows && (i % LayerArea(d)) % d.nColumns < d.nColumns
  {
    var a := LayerArea(d);
    ProductPositive(d.nLayers, a);
    ProductPositive(d.nRows, d.nColumns);
    DivBelow(i, a, d.nLayers);
    DivBelow(i % a, d.nColumns, d.nRows);
  }

  lemma ProductPositive(a: nat, b: nat)
    requires a * b > 0
    ensures a > 0 && b > 0
  {
  }

  lemma DivBelow(n: nat, m: nat, k: nat)
    requires m > 0 && n < k * m
    ensures n / m < k
  {
    assert (n / m) * m <= n;
    MulStrictCancel(n / m, k, m);
  }

  lemma MulStrictCancel(a: nat, b: nat, m: nat)
    requires a * m < b * m
    ensures a < b
  {
  }

  lemma MulMonotone(a: nat, b: nat, m: nat)
    requires a <= b
    ensures a * m <= b * m
  {
  }

  lemma IndexBound(d: Dimensions, x: Cell)
    requires InGrid(d, x)
    ensures x.layer * LayerArea(d) + x.row * d.nColumns + x.column < NumberOfCells(d)
  {
    var a := LayerArea(d);
    MulMonotone(x.row + 1, d.nRows, d.nColumns);
    assert x.row * d.nColumns + x.column < a;
    MulMonotone(x.layer + 1, d.nLayers, a);
  }

  /** Division by a positive number has a unique quotient and remainder. */
  lemma DivModUnique(n: nat, q: nat, r: nat, m: nat)
    requires m > 0 && r < m && n == q * m + r
    ensures n / m == q && n % m == r
  {
    var q', r' := n / m, n % m;
    assert n == q' * m + r';
    if q' > q {
      MulMonotone(q + 1, q', m);
      assert false;
    } else if q' < q {
      MulMonotone(q' + 1, q, m);
      assert false;
    }
  }

  lemma IndexDecomposes(d: Dimensions, x: Cell)
    requires InGrid(d, x)
    ensures x.layer * LayerArea(d) + x.row * d.nColumns + x.column < NumberOfCells(d)
    ensures CellOf(d, x.layer * LayerArea(d) + x.row * d.nColumns + x.column) == x
  {
    IndexBound(d, x);
    var a := LayerArea(d);
    var s := x.row * d.nColumns + x.column;
    var i := x.layer * a + s;
    MulMonotone(x.row + 1, d.nRows, d.nColumns);
    assert (x.row + 1) * d.nColumns == x.row * d.nColumns + d.nColumns;
    assert s < a;
    DivModUnique(i, x.layer, s, a);
    DivModUnique(s, x.row, x.column, d.nColumns);
    assert i / a == x.layer && i % a == s;
    assert s / d.nColumns == x.row && s % d.nColumns == x.column;
  }

  /** Index and CellOf are inverse bijections between grid cells and [0, NumberOfCells). */
  lemma IndexOfCellOf(d: Dimensions, i: nat)
    requires i < NumberOfCells(d)
    ensures Index(d, CellOf(d, i)) == i
  {
    var a := LayerArea(d);
    var rest := i % a;
    assert i == (i / a) * a + rest;
    assert rest == (rest / d.nColumns) * d.nColumns + rest % d.nColumns;
  }

  lemma IndexInjective(d: Dimensions, x: Cell, y: Cell)
    requires InGrid(d, x) && InGrid(d, y)
    ensures Index(d, x) == Index(d, y) <==> x == y
  {
  }

  /** The six faces of a cell, each facing one neighbour. */
  datatype Dir = Bottom | South | West | East | North | Top

  function Opposite(dir: Dir): Dir
  {
    match dir
    case Bottom => Top
    case South => North
    case West => East
    case East => West
    case North => South
    case Top => Bottom
  }

  /** The neighbour across face dir lies inside the grid. */
  predicate HasNeighbour(d: Dimensions, x: Cell, dir: Dir)
  {
    match dir
    case Bottom => x.layer > 0
    case South => x.row > 0
    case West => x.column > 0
    case East => x.column + 1 < d.nColumns
    case North => x.row + 1 < d.nRows
    case Top => x.layer + 1 < d.nLayers
  }

  /** The neighbour across face dir. */
  function Step(d: Dimensions, x: Cell, dir: Dir): (y: Cell)
    requires HasNeighbour(d, x, dir)
    ensures InGrid(d, x) ==> InGrid(d, y)
  {
    match dir
    case Bottom => x.(layer := x.layer - 1)
    case South => x.(row := x.row - 1)
    case West => x.(column := x.column - 1)
    case East => x.(column := x.column + 1)
    case North => x.(row := x.row + 1)
    case Top => x.(layer := x.layer + 1)
  }

  /** How far the neighbour across face dir lies in the flat numbering. */
  function Offset(d: Dimensions, dir: Dir): int
  {
    match dir
    case Bottom => -(LayerArea(d) as int)
    case South => -(d.nColumns as int)
    case West => -1
    case East => 1
    case North => d.nColumns
    case Top => LayerArea(d)
  }

  /** Moving across a face moves the flat index by the offset of that face. */
  lemma StepIndex(d: Dimensions, x: Cell, dir: Dir)
    requires InGrid(d, x) && HasNeighbour(d, x, dir)
    ensures Index(d, Step(d, x, dir)) == Index(d, x) + Offset(d, dir)
  {
    var a := LayerArea(d);
    match dir
    case Bottom =>
      MulSucc(x.layer - 1, a);
    case Top =>
      MulSucc(x.layer, a);
    case South =>
      MulSucc(x.row - 1, d.nColumns);
    case North =>
      MulSucc(x.row, d.nColumns);
    case West =>
    case East =>
  }

  lemma MulSucc(n: nat, m: nat)
    ensures (n + 1) * m == n * m + m
  {
  }

  /** The face of x that y lies across, if y is one of the six neighbours of x. */
  function DirTo(x: Cell, y: Cell): Option<Dir>
  {
    if y.row == x.row && y.column == x.column && y.layer + 1 == x.layer then Some(Bottom)
    else if y.layer == x.layer && y.column == x.column && y.row + 1 == x.row then Some(South)
    else if y.layer == x.layer && y.row == x.row && y.column + 1 == x.column then Some(West)
    else if y.layer == x.layer && y.row == x.row && y.column == x.column + 1 then Some(East)
    else if y.layer == x.layer && y.column == x.column && y.row == x.row + 1 then Some(North)
    else if y.row == x.row && y.column == x.column && y.layer == x.layer + 1 then Some(Top)
    else None
  }

  predicate Adjacent(x: Cell, y: Cell)
  {
    DirTo(x, y).Some?
  }

  /** DirTo names exactly the face a step was taken across, and only grid neighbours. */
  lemma DirToStep(d: Dimensions, x: Cell, dir: Dir)
    requires HasNeighbour(d, x, dir)
    ensures DirTo(x, Step(d, x, dir)) == Some(dir)
  {
  }

  lemma DirToSome(d: Dimensions, x: Cell, y: Cell)
    requires InGrid(d, y) && DirTo(x, y).Some?
    ensures HasNeighbour(d, x, DirTo(x, y).value)
    ensures Step(d, x, DirTo(x, y).value) == y
  {
  }

  /** Adjacency is symmetric, with the opposite face seen from the other side. */
  lemma DirToOpposite(x: Cell, y: Cell)
    ensures DirTo(x, y).Some? <==> DirTo(y, x).Some?
    ensures DirTo(x, y).Some? ==> DirTo(y, x) == Some(Opposite(DirTo(x, y).value))
  {
  }
}
