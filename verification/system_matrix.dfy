/**
 * The system matrix object: allocation of its three arrays
 * (sources/system_matrix.c, Sources/system_matrix.c), release, and the
 * column-by-column assembly of a whole grid in compressed-column storage.
 *
 * malloc is not modelled; whether each of the three allocations succeeds is
 * a parameter, and the set of live buffers records what is left allocated.
 */
module SystemMatrix {
  import opened Wrappers
  import opened Grid
  import opened Conductance
  import opened Stencil

  /** MatrixStorage_t: the two supported layouts, or any other code. */
  datatype Storage = Ccs | Crs | Unsupported(code: int)

  datatype Buffer = ColumnsBuffer | RowsBuffer | ValuesBuffer

  /**
   * The SystemMatrix structure: sizes and storage kind, the lengths of the
   * Columns and Rows arrays, and the live buffers with their element counts.
   */
  datatype Matrix = Matrix(size: int, nnz: int, storage: Storage, columnsSize: int, rowsSize: int, live: map<Buffer, int>)

  /** The outcome of each malloc call, in the order the code performs them. */
  datatype Heap = Heap(columnsOk: bool, rowsOk: bool, valuesOk: bool)

  /**
   * alloc_system_matrix (sources/system_matrix.c): records size, nnz and
   * storage; sizes Columns/Rows by storage kind; allocates the three arrays
   * and, when one allocation fails, frees the ones already obtained.
   */
  function AllocSystemMatrix(m: Matrix, storage: Storage, nvalues: int, nnz: int, heap: Heap): (r: (int, Matrix))
    requires m.live == map[]
    ensures r.1.size == nvalues && r.1.nnz == nnz && r.1.storage == storage
    ensures storage.Ccs? ==> r.1.columnsSize == nvalues + 1 && r.1.rowsSize == nnz
    ensures storage.Crs? ==> r.1.columnsSize == nnz && r.1.rowsSize == nvalues + 1
    ensures storage.Unsupported? ==> r.0 == 0 && r.1.columnsSize == m.columnsSize && r.1.rowsSize == m.rowsSize
    ensures r.0 == 1 <==> !storage.Unsupported? && heap.columnsOk && heap.rowsOk && heap.valuesOk
    ensures r.0 == 0 || r.0 == 1
    ensures r.0 == 1 ==> r.1.live == map[ColumnsBuffer := r.1.columnsSize, RowsBuffer := r.1.rowsSize, ValuesBuffer := nnz]
    ensures r.0 == 0 ==> r.1.live == map[]
  {
    var m := m.(size := nvalues, nnz := nnz, storage := storage);
    match storage
    case Unsupported(_) => (0, m)
    case _ =>
      var m := if storage.Ccs? then m.(columnsSize := nvalues + 1, rowsSize := nnz)
               else m.(columnsSize := nnz, rowsSize := nvalues + 1);
      if !heap.columnsOk then (0, m)
      else
        var m := m.(live := m.live[ColumnsBuffer := m.columnsSize]);
        if !heap.rowsOk then (0, m.(live := m.live - {ColumnsBuffer}))
        else
          var m := m.(live := m.live[RowsBuffer := m.rowsSize]);
          if !heap.valuesOk then (0, m.(live := m.live - {ColumnsBuffer} - {RowsBuffer}))
          else (1, m.(live := m.live[ValuesBuffer := nnz]))
  }

  /**
   * alloc_system_matrix (Sources/system_matrix.c): the older CCS-only
   * variant; a NULL matrix is refused before anything is recorded.
   */
  function AllocResistanceMatrix(m: Option<Matrix>, nvalues: int, nnz: int, heap: Heap): (r: (int, Option<Matrix>))
    requires m.Some? ==> m.value.live == map[]
    ensures m.None? ==> r == (0, None)
    ensures m.Some? ==> r.1.Some? && r.1.value.size == nvalues && r.1.value.nnz == nnz
    ensures r.0 == 1 <==> m.Some? && heap.columnsOk && heap.rowsOk && heap.valuesOk
    ensures r.0 == 1 ==> r.1.Some? && r.1.value.live == map[ColumnsBuffer := nvalues + 1, RowsBuffer := nnz, ValuesBuffer := nnz]
    ensures r.0 != 1 ==> r.1.None? || r.1.value.live == map[]
  {
    match m
    case None => (0, None)
    case Some(mat) =>
      var mat := mat.(size := nvalues, nnz := nnz);
      if !heap.columnsOk then (0, Some(mat))
      else if !heap.rowsOk then (0, Some(mat))
      else if !heap.valuesOk then (0, Some(mat))
      else (1, Some(mat.(live := map[ColumnsBuffer := nvalues + 1, RowsBuffer := nnz, ValuesBuffer := nnz])))
  }

  /** free_system_matrix: releases the three arrays; a NULL matrix is left alone. */
  function FreeSystemMatrix(m: Option<Matrix>): (r: Option<Matrix>)
    ensures r.None? <==> m.None?
    ensures r.Some? ==> r.value.live == map[] && r.value == m.value.(live := map[])
  {
    match m
    case None => None
    case Some(mat) => Some(mat.(live := map[]))
  }

  /* ---------------------------------------------------------------------- */
  /* Whole-grid assembly                                                     */

  /** The builder the stack description picks for cell c: liquid or solid column. */
  function Column(d: Dimensions, g: ThermalGrid, liquid: seq<bool>, c: nat, previous: int): SparseBlock
    requires Fits(d, g) && |liquid| == NumberOfCells(d) && c < NumberOfCells(d)
  {
    if liquid[c] then AddCcsLiquidColumn(d, g, CellOf(d, c), previous)
    else AddCcsSolidColumn(d, g, CellOf(d, c), previous)
  }

  /**
   * The slice of Rows/Values of matrix column c is column c of the reference
   * matrix: strictly ascending row indices, exactly the cell and its
   * neighbours, and the reference values; a liquid column holds its own
   * cell's raw North and South coefficients on the south and north entries.
   */
  ghost predicate ColumnOk(d: Dimensions, g: ThermalGrid, liquid: seq<bool>, c: nat, rs: seq<int>, vs: seq<real>)
    requires Fits(d, g) && |liquid| == NumberOfCells(d) && c < NumberOfCells(d)
  {
    var x := CellOf(d, c);
    && |rs| == |vs| && 1 <= |rs| <= 7
    && (forall i, j :: 0 <= i < j < |rs| ==> rs[i] < rs[j])
    && (forall i :: 0 <= i < |rs| ==> 0 <= rs[i] < NumberOfCells(d))
    && (forall y :: InGrid(d, y) ==> (Index(d, y) in rs <==> y == x || Adjacent(x, y)))
    && (!liquid[c] ==> forall i :: 0 <= i < |rs| ==> vs[i] == SolidEntry(d, g, false, CellOf(d, rs[i]), x))
    && (liquid[c] ==> forall i :: 0 <= i < |rs| ==> CcsLiquidValueOk(d, g, x, CellOf(d, rs[i]), vs[i]))
  }

  function Values(es: seq<Entry>): (vs: seq<real>)
    ensures |vs| == |es| && forall k :: 0 <= k < |es| ==> vs[k] == es[k].value
  {
    seq(|es|, k requires 0 <= k < |es| => es[k].value)
  }

  lemma BlockColumnOk(d: Dimensions, g: ThermalGrid, liquid: seq<bool>, c: nat, previous: int)
    requires Fits(d, g) && |liquid| == NumberOfCells(d) && c < NumberOfCells(d)
    ensures var b := Column(d, g, liquid, c, previous);
      ColumnOk(d, g, liquid, c, Indices(b.entries), Values(b.entries))
  {
  }

  /** Columns 0..c-1 of the matrix have been assembled into the three arrays. */
  ghost predicate Assembled(d: Dimensions, g: ThermalGrid, liquid: seq<bool>, c: nat,
                            columns: seq<int>, rows: seq<int>, values: seq<real>)
    requires Fits(d, g) && |liquid| == NumberOfCells(d) && c <= NumberOfCells(d)
  {
    && Pointers(c, columns, rows, values)
    && (forall k :: 0 <= k < c ==>
          ColumnOk(d, g, liquid, k, rows[columns[k]..columns[k + 1]], values[columns[k]..columns[k + 1]]))
  }

  /** The column pointers of c assembled columns: from 0, each step 1 to 7 entries, within the arrays. */
  ghost predicate Pointers(c: nat, columns: seq<int>, rows: seq<int>, values: seq<real>)
  {
    && |columns| == c + 1 && columns[0] == 0 && |rows| == |values| == columns[c]
    && (forall k :: 0 <= k < c ==> columns[k] < columns[k + 1] <= columns[k] + 7)
    && (forall k :: 0 <= k <= c ==> 0 <= columns[k] <= |rows|)
  }

  lemma PointersStep(c: nat, columns: seq<int>, rows: seq<int>, values: seq<real>, rs: seq<int>, vs: seq<real>)
    requires Pointers(c, columns, rows, values) && |rs| == |vs| && 1 <= |rs| <= 7
    ensures Pointers(c + 1, columns + [columns[c] + |rs|], rows + rs, values + vs)
  {
  }

  /**
   * Appending a next column to compressed arrays keeps every earlier column's
   * slice, so whatever held of each column still holds, and of the new one too.
   */
  lemma SlicesStep(p: (nat, seq<int>, seq<real>) -> bool, c: nat,
                   columns: seq<int>, rows: seq<int>, values: seq<real>, rs: seq<int>, vs: seq<real>)
    requires Pointers(c, columns, rows, values) && |rs| == |vs| && 1 <= |rs| <= 7
    requires forall k :: 0 <= k < c ==> p(k, rows[columns[k]..columns[k + 1]], values[columns[k]..columns[k + 1]])
    requires p(c, rs, vs)
    ensures Pointers(c + 1, columns + [columns[c] + |rs|], rows + rs, values + vs)
    ensures var columns' := columns + [columns[c] + |rs|];
      forall k :: 0 <= k < c + 1 ==>
        p(k, (rows + rs)[columns'[k]..columns'[k + 1]], (values + vs)[columns'[k]..columns'[k + 1]])
  {
    PointersStep(c, columns, rows, values, rs, vs);
    var columns' := columns + [columns[c] + |rs|];
    forall k | 0 <= k < c + 1
      ensures p(k, (rows + rs)[columns'[k]..columns'[k + 1]], (values + vs)[columns'[k]..columns'[k + 1]])
    {
      if k < c {
        assert columns'[k] == columns[k] && columns'[k + 1] == columns[k + 1];
        assert (rows + rs)[columns[k]..columns[k + 1]] == rows[columns[k]..columns[k + 1]];
        assert (values + vs)[columns[k]..columns[k + 1]] == values[columns[k]..columns[k + 1]];
      } else {
        assert columns'[k] == |rows| && columns'[k + 1] == |rows| + |rs|;
        assert (rows + rs)[|rows|..|rows| + |rs|] == rs;
        assert (values + vs)[|values|..|values| + |vs|] == vs;
      }
    }
  }

  /** Appending a correct next column keeps every column assembled so far and adds the new one. */
  lemma ColumnsStep(d: Dimensions, g: ThermalGrid, liquid: seq<bool>, c: nat,
                    columns: seq<int>, rows: seq<int>, values: seq<real>, rs: seq<int>, vs: seq<real>)
    requires Fits(d, g) && |liquid| == NumberOfCells(d) && c < NumberOfCells(d)
    requires Assembled(d, g, liquid, c, columns, rows, values)
    requires ColumnOk(d, g, liquid, c, rs, vs)
    ensures Pointers(c + 1, columns + [columns[c] + |rs|], rows + rs, values + vs)
    ensures var columns' := columns + [columns[c] + |rs|];
      forall k :: 0 <= k < c + 1 ==>
        ColumnOk(d, g, liquid, k, (rows + rs)[columns'[k]..columns'[k + 1]], (values + vs)[columns'[k]..columns'[k + 1]])
  {
    var p := (k: nat, r: seq<int>, v: seq<real>) => k < NumberOfCells(d) && ColumnOk(d, g, liquid, k, r, v);
    assert p(c, rs, vs);
    SlicesStep(p, c, columns, rows, values, rs, vs);
  }

  /** Appending a correct next column extends the assembly by one column. */
  lemma AssembleStep(d: Dimensions, g: ThermalGrid, liquid: seq<bool>, c: nat,
                     columns: seq<int>, rows: seq<int>, values: seq<real>, rs: seq<int>, vs: seq<real>)
    requires Fits(d, g) && |liquid| == NumberOfCells(d) && c < NumberOfCells(d)
    requires Assembled(d, g, liquid, c, columns, rows, values)
    requires ColumnOk(d, g, liquid, c, rs, vs)
    ensures Assembled(d, g, liquid, c + 1, columns + [columns[c] + |rs|], rows + rs, values + vs)
  {
    ColumnsStep(d, g, liquid, c, columns, rows, values, rs, vs);
  }

  /**
   * fill_system_matrix (Sources/system_matrix.c) over the cells of the grid
   * in flat-index order: Columns starts at 0 and every column appends its
   * builder's entries to Rows and Values.
   */
  method FillSystemMatrix(d: Dimensions, g: ThermalGrid, liquid: seq<bool>)
    returns (columns: seq<int>, rows: seq<int>, values: seq<real>)
    requires Fits(d, g) && |liquid| == NumberOfCells(d)
    ensures |columns| == NumberOfCells(d) + 1 && columns[0] == 0
    ensures |rows| == |values| == columns[NumberOfCells(d)]
    ensures forall c :: 0 <= c < NumberOfCells(d) ==> columns[c] < columns[c + 1] <= columns[c] + 7
    ensures forall c :: 0 <= c <= NumberOfCells(d) ==> 0 <= columns[c] <= |rows|
    ensures forall c :: 0 <= c < NumberOfCells(d) ==>
      ColumnOk(d, g, liquid, c, rows[columns[c]..columns[c + 1]], values[columns[c]..columns[c + 1]])
  {
    var n := NumberOfCells(d);
    columns, rows, values := [0], [], [];
    var c := 0;
    while c < n
      invariant 0 <= c <= n
      invariant Assembled(d, g, liquid, c, columns, rows, values)
    {
      var b := Column(d, g, liquid, c, columns[c]);
      BlockColumnOk(d, g, liquid, c, columns[c]);
      AssembleStep(d, g, liquid, c, columns, rows, values, Indices(b.entries), Values(b.entries));
      columns, rows, values := columns + [b.pointer], rows + Indices(b.entries), values + Values(b.entries);
      c := c + 1;
    }
  }
}
