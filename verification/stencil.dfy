/**
 * Sparse stencil assembly of the system matrix (sources/system_matrix.c).
 *
 * For one cell the builders emit the nonzeros of its matrix column
 * (compressed-column storage, CCS) or of its matrix row (compressed-row
 * storage, CRS): one entry per neighbour that exists, plus the diagonal,
 * in ascending (CCS) or descending (CRS) index order, and advance the running
 * column/row pointer by the number of entries emitted.
 *
 * Each builder is related to an independent reference: the dense entry
 * SolidEntry(row, col) of the matrix, defined from cell coordinates alone.
 */
module Stencil {
  import opened Wrappers
  import opened Grid
  import opened Conductance

  /** Per-cell input of the assembly: six face conductances and the capacity of every cell. */
  datatype ThermalGrid = ThermalGrid(conductances: seq<Conductances>, capacities: seq<real>)

  predicate Fits(d: Dimensions, g: ThermalGrid)
  {
    |g.conductances| == NumberOfCells(d) && |g.capacities| == NumberOfCells(d)
  }

  function Cond(d: Dimensions, g: ThermalGrid, x: Cell): Conductances
    requires Fits(d, g) && InGrid(d, x)
  {
    g.conductances[Index(d, x)]
  }

  function Capacity(d: Dimensions, g: ThermalGrid, x: Cell): real
    requires Fits(d, g) && InGrid(d, x)
  {
    g.capacities[Index(d, x)]
  }

  /** Conductance between x and its neighbour across dir: PARALLEL of the two facing half-cell faces. */
  function Coupling(d: Dimensions, g: ThermalGrid, x: Cell, dir: Dir): real
    requires Fits(d, g) && InGrid(d, x) && HasNeighbour(d, x, dir)
  {
    Parallel(Face(Cond(d, g, x), dir), Face(Cond(d, g, Step(d, x, dir)), Opposite(dir)))
  }

  /** The coupling seen from either side of a face is the same number. */
  lemma CouplingSymmetric(d: Dimensions, g: ThermalGrid, x: Cell, dir: Dir)
    requires Fits(d, g) && InGrid(d, x) && HasNeighbour(d, x, dir)
    ensures HasNeighbour(d, Step(d, x, dir), Opposite(dir))
    ensures Step(d, Step(d, x, dir), Opposite(dir)) == x
    ensures Coupling(d, g, x, dir) == Coupling(d, g, Step(d, x, dir), Opposite(dir))
  {
    var y := Step(d, x, dir);
    assert Opposite(Opposite(dir)) == dir;
    ParallelCommutes(Face(Cond(d, g, x), dir), Face(Cond(d, g, y), Opposite(dir)));
  }

  /** The coupling across dir when that neighbour exists, 0 otherwise. */
  function Contribution(d: Dimensions, g: ThermalGrid, x: Cell, dir: Dir): real
    requires Fits(d, g) && InGrid(d, x)
  {
    if HasNeighbour(d, x, dir) then Coupling(d, g, x, dir) else 0.0
  }

  /** Ambient term of a top-layer cell when an environment heat sink is attached (diagonal only). */
  function SinkTerm(d: Dimensions, g: ThermalGrid, sink: bool, x: Cell): real
    requires Fits(d, g) && InGrid(d, x)
  {
    if sink && !HasNeighbour(d, x, Top) then Cond(d, g, x).top else 0.0
  }

  /** Diagonal of a solid cell: capacity plus every coupling to an existing neighbour (plus the sink term). */
  function SolidDiagonal(d: Dimensions, g: ThermalGrid, sink: bool, x: Cell): real
    requires Fits(d, g) && InGrid(d, x)
  {
    Capacity(d, g, x)
    + Contribution(d, g, x, Bottom) + Contribution(d, g, x, South) + Contribution(d, g, x, West)
    + Contribution(d, g, x, East) + Contribution(d, g, x, North) + Contribution(d, g, x, Top)
    + SinkTerm(d, g, sink, x)
  }

  /**
   * Reference definition of the system matrix of an all-solid grid, entry
   * (row, col): the diagonal, minus the coupling of two adjacent cells, or 0.
   */
  function SolidEntry(d: Dimensions, g: ThermalGrid, sink: bool, row: Cell, col: Cell): real
    requires Fits(d, g) && InGrid(d, row) && InGrid(d, col)
  {
    if row == col then SolidDiagonal(d, g, sink, col)
    else
      match DirTo(col, row)
      case Some(dir) =>
        DirToSome(d, col, row);
        -Coupling(d, g, col, dir)
      case None => 0.0
  }

  /** The solid system matrix is symmetric, structurally and numerically. */
  lemma SolidEntrySymmetric(d: Dimensions, g: ThermalGrid, sink: bool, x: Cell, y: Cell)
    requires Fits(d, g) && InGrid(d, x) && InGrid(d, y)
    ensures SolidEntry(d, g, sink, x, y) == SolidEntry(d, g, sink, y, x)
  {
    if x != y {
      DirToOpposite(y, x);
      match DirTo(y, x)
      case Some(dir) =>
        DirToSome(d, y, x);
        CouplingSymmetric(d, g, y, dir);
      case None =>
    }
  }

  /** A solid off-diagonal entry is nonzero exactly between adjacent cells (for positive faces). */
  lemma SolidEntryPattern(d: Dimensions, g: ThermalGrid, sink: bool, x: Cell, y: Cell)
    requires Fits(d, g) && InGrid(d, x) && InGrid(d, y) && x != y
    requires forall i :: 0 <= i < |g.conductances| ==> Positive(g.conductances[i])
    ensures SolidEntry(d, g, sink, x, y) != 0.0 <==> Adjacent(y, x)
    ensures SolidEntry(d, g, sink, x, y) <= 0.0
  {
    if Adjacent(y, x) {
      DirToSome(d, y, x);
      var dir := DirTo(y, x).value;
      var z := Step(d, y, dir);
      assert Positive(g.conductances[Index(d, y)]);
      assert Positive(g.conductances[Index(d, z)]);
    }
  }

  predicate Positive(c: Conductances)
  {
    c.north > 0.0 && c.south > 0.0 && c.east > 0.0 && c.west > 0.0 && c.top > 0.0 && c.bottom > 0.0
  }

  /* ---------------------------------------------------------------------- */
  /* Emission order                                                          */

  /** One emission slot of a builder: the diagonal or the neighbour across a face. */
  datatype Slot = Diagonal | Off(dir: Dir)

  /** Position of a slot in ascending flat-index order; the diagonal is 0. */
  function Rank(s: Slot): int
  {
    match s
    case Diagonal => 0
    case Off(dir) =>
      match dir
      case Bottom => -3
      case South => -2
      case West => -1
      case East => 1
      case North => 2
      case Top => 3
  }

  predicate Present(d: Dimensions, x: Cell, s: Slot)
  {
    s.Diagonal? || HasNeighbour(d, x, s.dir)
  }

  predicate Before(s: Slot, t: Slot, ascending: bool)
  {
    if ascending then Rank(s) < Rank(t) else Rank(s) > Rank(t)
  }

  predicate Ordered(ss: seq<Slot>, ascending: bool)
  {
    forall i, j :: 0 <= i < j < |ss| ==> Before(ss[i], ss[j], ascending)
  }

  /** The slots of ss whose neighbour exists, in the order of ss. */
  function Keep(d: Dimensions, x: Cell, ss: seq<Slot>): (ps: seq<Slot>)
    ensures |ps| <= |ss|
    ensures forall s :: s in ps <==> s in ss && Present(d, x, s)
    ensures Ordered(ss, true) ==> Ordered(ps, true)
    ensures Ordered(ss, false) ==> Ordered(ps, false)
  {
    if ss == [] then []
    else
      var rest := Keep(d, x, ss[1..]);
      assert forall s :: s in ss[1..] ==> s in ss;
      if Present(d, x, ss[0]) then
        OrderedCons(ss, rest, true);
        OrderedCons(ss, rest, false);
        [ss[0]] + rest
      else
        OrderedTail(ss, true);
        OrderedTail(ss, false);
        rest
  }

  /** A suffix of an ordered sequence is ordered. */
  lemma OrderedTail(ss: seq<Slot>, ascending: bool)
    requires |ss| > 0
    ensures Ordered(ss, ascending) ==> Ordered(ss[1..], ascending)
  {
    if Ordered(ss, ascending) {
      forall i, j | 0 <= i < j < |ss[1..]|
        ensures Before(ss[1..][i], ss[1..][j], ascending)
      {
        assert ss[1..][i] == ss[i + 1] && ss[1..][j] == ss[j + 1];
      }
    }
  }

  /** Putting the head of an ordered sequence in front of an ordered subsequence of its tail keeps the order. */
  lemma OrderedCons(ss: seq<Slot>, rest: seq<Slot>, ascending: bool)
    requires |ss| > 0
    requires forall s :: s in rest ==> s in ss[1..]
    requires Ordered(ss[1..], ascending) ==> Ordered(rest, ascending)
    ensures Ordered(ss, ascending) ==> Ordered([ss[0]] + rest, ascending)
  {
    if Ordered(ss, ascending) {
      OrderedTail(ss, ascending);
      var ps := [ss[0]] + rest;
      forall i, j | 0 <= i < j < |ps|
        ensures Before(ps[i], ps[j], ascending)
      {
        if i == 0 {
          assert ps[j] in ss[1..] by { assert ps[j] == rest[j - 1]; }
          var k :| 0 <= k < |ss[1..]| && ss[1..][k] == ps[j];
          assert ss[k + 1] == ps[j];
        } else {
          assert ps[i] == rest[i - 1] && ps[j] == rest[j - 1];
        }
      }
    }
  }

  /** Which cell a slot denotes, as flat-index arithmetic around the cell. */
  function SlotIndex(d: Dimensions, x: Cell, s: Slot): int
    requires InGrid(d, x)
  {
    if s.Diagonal? then Index(d, x) else Index(d, x) + Offset(d, s.dir)
  }

  /** Present slots with smaller rank denote smaller flat indices. */
  lemma SlotIndexOrder(d: Dimensions, x: Cell, s: Slot, t: Slot)
    requires InGrid(d, x) && Present(d, x, s) && Present(d, x, t) && Rank(s) < Rank(t)
    ensures SlotIndex(d, x, s) < SlotIndex(d, x, t)
  {
    MulMonotone(1, d.nRows, d.nColumns);
    if d.nRows >= 2 {
      MulMonotone(2, d.nRows, d.nColumns);
    }
  }

  /** A present slot denotes the cell itself or its neighbour. */
  lemma SlotCell(d: Dimensions, x: Cell, s: Slot)
    requires InGrid(d, x) && Present(d, x, s)
    ensures 0 <= SlotIndex(d, x, s) < NumberOfCells(d)
    ensures s.Diagonal? ==> CellOf(d, SlotIndex(d, x, s)) == x
    ensures s.Off? ==> CellOf(d, SlotIndex(d, x, s)) == Step(d, x, s.dir)
  {
    if s.Off? {
      StepIndex(d, x, s.dir);
    }
  }

  /* ---------------------------------------------------------------------- */
  /* The four builders                                                       */

  /** add_ccs_solid_column, add_crs_solid_column (with or without heat sink), add_ccs_liquid_column, add_crs_liquid_column. */
  datatype Builder = CcsSolid | CrsSolid(sink: bool) | CcsLiquid | CrsLiquid

  predicate IsCcs(b: Builder)
  {
    b.CcsSolid? || b.CcsLiquid?
  }

  /** Emission order: CCS walks bottom, south, west, diagonal, east, north, top; CRS the reverse. */
  function Layout(b: Builder): (ss: seq<Slot>)
    ensures |ss| == 7
    ensures forall k :: 0 <= k < 7 ==> Rank(ss[k]) == if IsCcs(b) then k - 3 else 3 - k
    ensures Ordered(ss, IsCcs(b))
  {
    if IsCcs(b) then
      [Off(Bottom), Off(South), Off(West), Diagonal, Off(East), Off(North), Off(Top)]
    else
      [Off(Top), Off(North), Off(East), Diagonal, Off(West), Off(South), Off(Bottom)]
  }

  /** Every slot occurs in every layout. */
  lemma LayoutComplete(b: Builder, s: Slot)
    ensures s in Layout(b)
  {
    var ss := Layout(b);
    if IsCcs(b) {
      match s
      case Diagonal => assert ss[3] == s;
      case Off(dir) =>
        match dir
        case Bottom => assert ss[0] == s;
        case South => assert ss[1] == s;
        case West => assert ss[2] == s;
        case East => assert ss[4] == s;
        case North => assert ss[5] == s;
        case Top => assert ss[6] == s;
    } else {
      match s
      case Diagonal => assert ss[3] == s;
      case Off(dir) =>
        match dir
        case Top => assert ss[0] == s;
        case North => assert ss[1] == s;
        case East => assert ss[2] == s;
        case West => assert ss[4] == s;
        case South => assert ss[5] == s;
        case Bottom => assert ss[6] == s;
    }
  }

  /** Row 0 and the last row of a liquid column add the raw North coefficient to the diagonal once. */
  function EdgeTerm(d: Dimensions, g: ThermalGrid, x: Cell): real
    requires Fits(d, g) && InGrid(d, x)
  {
    if x.row == 0 || x.row + 1 == d.nRows then Cond(d, g, x).north else 0.0
  }

  /** Diagonal of a liquid cell: capacity, the four conductive couplings and the edge term. */
  function LiquidDiagonal(d: Dimensions, g: ThermalGrid, x: Cell): real
    requires Fits(d, g) && InGrid(d, x)
  {
    Capacity(d, g, x)
    + Contribution(d, g, x, Bottom) + Contribution(d, g, x, West)
    + Contribution(d, g, x, East) + Contribution(d, g, x, Top)
    + EdgeTerm(d, g, x)
  }

  /** The value the builder accumulates on the diagonal, in the order the C code adds the terms. */
  function DiagonalValue(b: Builder, d: Dimensions, g: ThermalGrid, x: Cell): real
    requires Fits(d, g) && InGrid(d, x)
  {
    match b
    case CcsSolid =>
      Capacity(d, g, x)
      + (Contribution(d, g, x, Bottom) + Contribution(d, g, x, South) + Contribution(d, g, x, West)
         + Contribution(d, g, x, East) + Contribution(d, g, x, North) + Contribution(d, g, x, Top))
    case CrsSolid(sink) =>
      Capacity(d, g, x)
      + (Contribution(d, g, x, Top) + SinkTerm(d, g, sink, x) + Contribution(d, g, x, North)
         + Contribution(d, g, x, East) + Contribution(d, g, x, West) + Contribution(d, g, x, South)
         + Contribution(d, g, x, Bottom))
    case CcsLiquid =>
      Capacity(d, g, x)
      + (Contribution(d, g, x, Bottom) + Contribution(d, g, x, West)
         + Contribution(d, g, x, East) + Contribution(d, g, x, Top))
      + EdgeTerm(d, g, x)
    case CrsLiquid =>
      Capacity(d, g, x)
      + (Contribution(d, g, x, Top) + Contribution(d, g, x, East)
         + Contribution(d, g, x, West) + Contribution(d, g, x, Bottom))
      + EdgeTerm(d, g, x)
  }

  /** The value written for one slot. */
  function SlotValue(b: Builder, d: Dimensions, g: ThermalGrid, x: Cell, s: Slot): real
    requires Fits(d, g) && InGrid(d, x) && Present(d, x, s)
  {
    match s
    case Diagonal => DiagonalValue(b, d, g, x)
    case Off(dir) =>
      if b.CcsLiquid? && dir == South then Cond(d, g, x).north
      else if b.CcsLiquid? && dir == North then Cond(d, g, x).south
      else if b.CrsLiquid? && dir == North then Cond(d, g, x).north
      else if b.CrsLiquid? && dir == South then Cond(d, g, x).south
      else -Coupling(d, g, x, dir)
  }

  /** One nonzero: its row (CCS) or column (CRS) index and its value. */
  datatype Entry = Entry(index: int, value: real)

  /** What one builder call produces: the new running pointer, the entries written, and `added`. */
  datatype SparseBlock = SparseBlock(pointer: int, entries: seq<Entry>, added: nat)

  function Indices(es: seq<Entry>): (ix: seq<int>)
    ensures |ix| == |es| && forall k :: 0 <= k < |es| ==> ix[k] == es[k].index
  {
    seq(|es|, k requires 0 <= k < |es| => es[k].index)
  }

  predicate Increasing(es: seq<Entry>)
  {
    forall i, j :: 0 <= i < j < |es| ==> es[i].index < es[j].index
  }

  predicate Decreasing(es: seq<Entry>)
  {
    forall i, j :: 0 <= i < j < |es| ==> es[i].index > es[j].index
  }

  /** The entries name exactly the cell itself and its grid neighbours. */
  ghost predicate ListsNeighbourhood(d: Dimensions, x: Cell, es: seq<Entry>)
    requires InGrid(d, x)
  {
    forall y :: InGrid(d, y) ==> (Index(d, y) in Indices(es) <==> y == x || Adjacent(x, y))
  }

  predicate InRange(d: Dimensions, es: seq<Entry>)
  {
    forall k :: 0 <= k < |es| ==> 0 <= es[k].index < NumberOfCells(d)
  }

  /** The entries a sequence of present slots produces, in order. */
  function Emit(b: Builder, d: Dimensions, g: ThermalGrid, x: Cell, ps: seq<Slot>): (es: seq<Entry>)
    requires Fits(d, g) && InGrid(d, x)
    requires forall s :: s in ps ==> Present(d, x, s)
    ensures |es| == |ps|
  {
    seq(|ps|, k requires 0 <= k < |ps| => Entry(SlotIndex(d, x, ps[k]), SlotValue(b, d, g, x, ps[k])))
  }

  /** The slots a builder emits for cell x, in emission order. */
  function Slots(b: Builder, d: Dimensions, x: Cell): (ps: seq<Slot>)
    ensures forall s :: s in ps ==> Present(d, x, s)
  {
    Keep(d, x, Layout(b))
  }

  /** The generic builder every add_*_column function instantiates. */
  function Build(b: Builder, d: Dimensions, g: ThermalGrid, x: Cell, previous: int): SparseBlock
    requires Fits(d, g) && InGrid(d, x)
  {
    var es := Emit(b, d, g, x, Slots(b, d, x));
    SparseBlock(previous + |es|, es, |es|)
  }

  /** A present slot names the cell itself (diagonal) or the adjacent cell across its face. */
  lemma SlotMeaning(d: Dimensions, x: Cell, s: Slot)
    requires InGrid(d, x) && Present(d, x, s)
    ensures 0 <= SlotIndex(d, x, s) < NumberOfCells(d)
    ensures s.Diagonal? ==> CellOf(d, SlotIndex(d, x, s)) == x
    ensures s.Off? ==> CellOf(d, SlotIndex(d, x, s)) == Step(d, x, s.dir) && DirTo(x, Step(d, x, s.dir)) == Some(s.dir)
  {
    SlotCell(d, x, s);
    if s.Off? {
      DirToStep(d, x, s.dir);
    }
  }

  /** Shape of every builder's output: count, pointer, order and exactly the neighbourhood of x. */
  lemma BuildShape(b: Builder, d: Dimensions, g: ThermalGrid, x: Cell, previous: int)
    requires Fits(d, g) && InGrid(d, x)
    ensures var r := Build(b, d, g, x, previous);
      && r.added == |r.entries| && r.pointer == previous + r.added
      && 1 <= r.added <= 7
      && InRange(d, r.entries)
      && (IsCcs(b) ==> Increasing(r.entries))
      && (!IsCcs(b) ==> Decreasing(r.entries))
      && ListsNeighbourhood(d, x, r.entries)
  {
    var ps := Slots(b, d, x);
    LayoutComplete(b, Diagonal);
    assert Diagonal in ps;
    EmitRange(b, d, g, x, ps);
    EmitOrder(b, d, g, x);
    EmitNeighbourhood(b, d, g, x);
  }

  lemma EmitRange(b: Builder, d: Dimensions, g: ThermalGrid, x: Cell, ps: seq<Slot>)
    requires Fits(d, g) && InGrid(d, x) && forall s :: s in ps ==> Present(d, x, s)
    ensures InRange(d, Emit(b, d, g, x, ps))
  {
    var es := Emit(b, d, g, x, ps);
    forall k | 0 <= k < |es|
      ensures 0 <= es[k].index < NumberOfCells(d)
    {
      assert ps[k] in ps;
      SlotCell(d, x, ps[k]);
    }
  }

  lemma EmitOrder(b: Builder, d: Dimensions, g: ThermalGrid, x: Cell)
    requires Fits(d, g) && InGrid(d, x)
    ensures IsCcs(b) ==> Increasing(Emit(b, d, g, x, Slots(b, d, x)))
    ensures !IsCcs(b) ==> Decreasing(Emit(b, d, g, x, Slots(b, d, x)))
  {
    var ps := Slots(b, d, x);
    var es := Emit(b, d, g, x, ps);
    assert Ordered(ps, IsCcs(b));
    forall i, j | 0 <= i < j < |es|
      ensures IsCcs(b) ==> es[i].index < es[j].index
      ensures !IsCcs(b) ==> es[i].index > es[j].index
    {
      assert ps[i] in ps && ps[j] in ps;
      assert Before(ps[i], ps[j], IsCcs(b));
      if IsCcs(b) {
        SlotIndexOrder(d, x, ps[i], ps[j]);
      } else {
        SlotIndexOrder(d, x, ps[j], ps[i]);
      }
    }
  }

  lemma EmitNeighbourhood(b: Builder, d: Dimensions, g: ThermalGrid, x: Cell)
    requires Fits(d, g) && InGrid(d, x)
    ensures ListsNeighbourhood(d, x, Emit(b, d, g, x, Slots(b, d, x)))
  {
    var ps := Slots(b, d, x);
    var es := Emit(b, d, g, x, ps);
    forall y | InGrid(d, y)
      ensures Index(d, y) in Indices(es) <==> y == x || Adjacent(x, y)
    {
      if Index(d, y) in Indices(es) {
        EmitListsOnlyNeighbours(b, d, g, x, ps, y);
      }
      if y == x || Adjacent(x, y) {
        EmitListsNeighbour(b, d, g, x, y);
      }
    }
  }

  lemma EmitListsOnlyNeighbours(b: Builder, d: Dimensions, g: ThermalGrid, x: Cell, ps: seq<Slot>, y: Cell)
    requires Fits(d, g) && InGrid(d, x) && InGrid(d, y) && forall s :: s in ps ==> Present(d, x, s)
    requires Index(d, y) in Indices(Emit(b, d, g, x, ps))
    ensures y == x || Adjacent(x, y)
  {
    var es := Emit(b, d, g, x, ps);
    var k :| 0 <= k < |es| && Indices(es)[k] == Index(d, y);
    assert ps[k] in ps;
    SlotMeaning(d, x, ps[k]);
    assert CellOf(d, Index(d, y)) == y;
  }

  lemma EmitListsNeighbour(b: Builder, d: Dimensions, g: ThermalGrid, x: Cell, y: Cell)
    requires Fits(d, g) && InGrid(d, x) && InGrid(d, y) && (y == x || Adjacent(x, y))
    ensures Index(d, y) in Indices(Emit(b, d, g, x, Slots(b, d, x)))
  {
    var ps := Slots(b, d, x);
    var es := Emit(b, d, g, x, ps);
    if y == x {
      LayoutComplete(b, Diagonal);
      assert Diagonal in ps;
      var k :| 0 <= k < |ps| && ps[k] == Diagonal;
      assert Indices(es)[k] == Index(d, y);
    } else {
      var dir := DirTo(x, y).value;
      DirToSome(d, x, y);
      LayoutComplete(b, Off(dir));
      assert Off(dir) in ps;
      var k :| 0 <= k < |ps| && ps[k] == Off(dir);
      StepIndex(d, x, dir);
      assert Indices(es)[k] == Index(d, y);
    }
  }

  /** The CCS solid column holds column x of the reference matrix. */
  lemma CcsSolidValue(d: Dimensions, g: ThermalGrid, x: Cell, s: Slot)
    requires Fits(d, g) && InGrid(d, x) && Present(d, x, s)
    ensures 0 <= SlotIndex(d, x, s) < NumberOfCells(d)
    ensures SlotValue(CcsSolid, d, g, x, s) == SolidEntry(d, g, false, CellOf(d, SlotIndex(d, x, s)), x)
  {
    SlotMeaning(d, x, s);
  }

  /** The CRS solid row holds row x of the reference matrix. */
  lemma CrsSolidValue(d: Dimensions, g: ThermalGrid, sink: bool, x: Cell, s: Slot)
    requires Fits(d, g) && InGrid(d, x) && Present(d, x, s)
    ensures 0 <= SlotIndex(d, x, s) < NumberOfCells(d)
    ensures SlotValue(CrsSolid(sink), d, g, x, s) == SolidEntry(d, g, sink, x, CellOf(d, SlotIndex(d, x, s)))
  {
    SlotMeaning(d, x, s);
    if s.Off? {
      var y := Step(d, x, s.dir);
      DirToOpposite(x, y);
      CouplingSymmetric(d, g, x, s.dir);
      SolidEntrySymmetric(d, g, sink, x, y);
    }
  }

  /**
   * add_ccs_solid_column: the nonzeros of column x of the solid system matrix,
   * in ascending row order, appended after `previous`.
   */
  function AddCcsSolidColumn(d: Dimensions, g: ThermalGrid, x: Cell, previous: int): (r: SparseBlock)
    requires Fits(d, g) && InGrid(d, x)
    ensures r.added == |r.entries| && r.pointer == previous + r.added && 1 <= r.added <= 7
    ensures Increasing(r.entries) && InRange(d, r.entries)
    ensures ListsNeighbourhood(d, x, r.entries)
    ensures forall k :: 0 <= k < |r.entries| ==>
      r.entries[k].value == SolidEntry(d, g, false, CellOf(d, r.entries[k].index), x)
  {
    BuildShape(CcsSolid, d, g, x, previous);
    var ps := Slots(CcsSolid, d, x);
    assert forall k :: 0 <= k < |ps| ==> ps[k] in ps;
    forall s | s in ps { CcsSolidValue(d, g, x, s); }
    Build(CcsSolid, d, g, x, previous)
  }

  /**
   * add_crs_solid_column: the nonzeros of row x of the solid system matrix,
   * in descending column order; with a heat sink attached, a top-layer cell
   * adds its own top conductance to the diagonal.
   */
  function AddCrsSolidColumn(d: Dimensions, g: ThermalGrid, sink: bool, x: Cell, previous: int): (r: SparseBlock)
    requires Fits(d, g) && InGrid(d, x)
    ensures r.added == |r.entries| && r.pointer == previous + r.added && 1 <= r.added <= 7
    ensures Decreasing(r.entries) && InRange(d, r.entries)
    ensures ListsNeighbourhood(d, x, r.entries)
    ensures forall k :: 0 <= k < |r.entries| ==>
      r.entries[k].value == SolidEntry(d, g, sink, x, CellOf(d, r.entries[k].index))
  {
    BuildShape(CrsSolid(sink), d, g, x, previous);
    var ps := Slots(CrsSolid(sink), d, x);
    assert forall k :: 0 <= k < |ps| ==> ps[k] in ps;
    forall s | s in ps { CrsSolidValue(d, g, sink, x, s); }
    Build(CrsSolid(sink), d, g, x, previous)
  }

  /* ---------------------------------------------------------------------- */
  /* Liquid cells                                                            */

  /** y lies upstream or downstream of x along the flow (north/south). */
  predicate Streamwise(x: Cell, y: Cell)
  {
    DirTo(x, y) == Some(North) || DirTo(x, y) == Some(South)
  }

  /** Two cells carry the same advection coefficients. */
  predicate SameFlow(d: Dimensions, g: ThermalGrid, x: Cell, y: Cell)
    requires Fits(d, g) && InGrid(d, x) && InGrid(d, y)
  {
    Cond(d, g, x).north == Cond(d, g, y).north && Cond(d, g, x).south == Cond(d, g, y).south
  }

  /**
   * Reference definition of row `row` of the system matrix of a liquid cell:
   * conductive couplings east, west, top and bottom; the raw advection
   * coefficients North and South on the downstream and upstream neighbours;
   * a diagonal without north/south conduction.
   */
  function LiquidEntry(d: Dimensions, g: ThermalGrid, row: Cell, col: Cell): real
    requires Fits(d, g) && InGrid(d, row) && InGrid(d, col)
  {
    if row == col then LiquidDiagonal(d, g, row)
    else
      match DirTo(row, col)
      case Some(dir) =>
        DirToSome(d, row, col);
        if dir == North then Cond(d, g, row).north
        else if dir == South then Cond(d, g, row).south
        else -Coupling(d, g, row, dir)
      case None => 0.0
  }

  lemma CrsLiquidValue(d: Dimensions, g: ThermalGrid, x: Cell, s: Slot)
    requires Fits(d, g) && InGrid(d, x) && Present(d, x, s)
    ensures 0 <= SlotIndex(d, x, s) < NumberOfCells(d)
    ensures SlotValue(CrsLiquid, d, g, x, s) == LiquidEntry(d, g, x, CellOf(d, SlotIndex(d, x, s)))
  {
    SlotMeaning(d, x, s);
  }

  /**
   * v is what the CCS liquid column of x holds in row y: the raw North
   * coefficient of x on its south neighbour, the raw South coefficient of x
   * on its north neighbour, and the row-wise reference value wherever the
   * reference applies.
   */
  predicate CcsLiquidValueOk(d: Dimensions, g: ThermalGrid, x: Cell, y: Cell, v: real)
    requires Fits(d, g) && InGrid(d, x) && InGrid(d, y)
  {
    && (SameFlow(d, g, x, y) || !Streamwise(x, y) ==> v == LiquidEntry(d, g, y, x))
    && (DirTo(x, y) == Some(South) ==> v == Cond(d, g, x).north)
    && (DirTo(x, y) == Some(North) ==> v == Cond(d, g, x).south)
  }

  lemma CcsLiquidValue(d: Dimensions, g: ThermalGrid, x: Cell, s: Slot)
    requires Fits(d, g) && InGrid(d, x) && Present(d, x, s)
    ensures 0 <= SlotIndex(d, x, s) < NumberOfCells(d)
    ensures CcsLiquidValueOk(d, g, x, CellOf(d, SlotIndex(d, x, s)), SlotValue(CcsLiquid, d, g, x, s))
  {
    SlotMeaning(d, x, s);
    if s.Off? {
      var y := Step(d, x, s.dir);
      DirToOpposite(x, y);
      CouplingSymmetric(d, g, x, s.dir);
    }
  }

  /**
   * add_crs_liquid_column: the nonzeros of row x of a liquid cell, in
   * descending column order; the north and south neighbours get the raw
   * North and South coefficients of x.
   */
  function AddCrsLiquidColumn(d: Dimensions, g: ThermalGrid, x: Cell, previous: int): (r: SparseBlock)
    requires Fits(d, g) && InGrid(d, x)
    ensures r.added == |r.entries| && r.pointer == previous + r.added && 1 <= r.added <= 7
    ensures Decreasing(r.entries) && InRange(d, r.entries)
    ensures ListsNeighbourhood(d, x, r.entries)
    ensures forall k :: 0 <= k < |r.entries| ==>
      r.entries[k].value == LiquidEntry(d, g, x, CellOf(d, r.entries[k].index))
  {
    BuildShape(CrsLiquid, d, g, x, previous);
    var ps := Slots(CrsLiquid, d, x);
    assert forall k :: 0 <= k < |ps| ==> ps[k] in ps;
    forall s | s in ps { CrsLiquidValue(d, g, x, s); }
    Build(CrsLiquid, d, g, x, previous)
  }

  /**
   * add_ccs_liquid_column: the nonzeros of column x of a liquid cell, in
   * ascending row order. The column uses the coefficients of x itself: the
   * south neighbour's entry is x's raw North coefficient and the north
   * neighbour's entry x's raw South coefficient, whatever the neighbours
   * carry; so it agrees with the row-wise reference wherever the neighbour
   * along the flow carries the same coefficients.
   */
  function AddCcsLiquidColumn(d: Dimensions, g: ThermalGrid, x: Cell, previous: int): (r: SparseBlock)
    requires Fits(d, g) && InGrid(d, x)
    ensures r.added == |r.entries| && r.pointer == previous + r.added && 1 <= r.added <= 7
    ensures Increasing(r.entries) && InRange(d, r.entries)
    ensures ListsNeighbourhood(d, x, r.entries)
    ensures forall k :: 0 <= k < |r.entries| ==>
      CcsLiquidValueOk(d, g, x, CellOf(d, r.entries[k].index), r.entries[k].value)
  {
    BuildShape(CcsLiquid, d, g, x, previous);
    var ps := Slots(CcsLiquid, d, x);
    assert forall k :: 0 <= k < |ps| ==> ps[k] in ps;
    forall s | s in ps { CcsLiquidValue(d, g, x, s); }
    Build(CcsLiquid, d, g, x, previous)
  }

  /* ---------------------------------------------------------------------- */
  /* Properties relating the builders                                        */

  function SumValues(es: seq<Entry>): real
  {
    if es == [] then 0.0 else es[0].value + SumValues(es[1..])
  }

  /** The value a slot contributes to a block: its value when present, else nothing. */
  function Term(b: Builder, d: Dimensions, g: ThermalGrid, x: Cell, s: Slot): real
    requires Fits(d, g) && InGrid(d, x)
  {
    if Present(d, x, s) then SlotValue(b, d, g, x, s) else 0.0
  }

  /** Sum of the values of the present slots of ss. */
  function SlotSum(b: Builder, d: Dimensions, g: ThermalGrid, x: Cell, ss: seq<Slot>): real
    requires Fits(d, g) && InGrid(d, x)
  {
    if ss == [] then 0.0 else Term(b, d, g, x, ss[0]) + SlotSum(b, d, g, x, ss[1..])
  }

  /** Emitting a present slot in front of others adds its value to their sum. */
  lemma EmitCons(b: Builder, d: Dimensions, g: ThermalGrid, x: Cell, s: Slot, ps: seq<Slot>)
    requires Fits(d, g) && InGrid(d, x) && Present(d, x, s)
    requires forall t :: t in ps ==> Present(d, x, t)
    ensures SumValues(Emit(b, d, g, x, [s] + ps)) == SlotValue(b, d, g, x, s) + SumValues(Emit(b, d, g, x, ps))
  {
    var es := Emit(b, d, g, x, [s] + ps);
    assert es[1..] == Emit(b, d, g, x, ps);
  }

  lemma {:induction false} EmitSum(b: Builder, d: Dimensions, g: ThermalGrid, x: Cell, ss: seq<Slot>)
    requires Fits(d, g) && InGrid(d, x)
    ensures SumValues(Emit(b, d, g, x, Keep(d, x, ss))) == SlotSum(b, d, g, x, ss)
  {
    if ss != [] {
      var rest := Keep(d, x, ss[1..]);
      EmitSum(b, d, g, x, ss[1..]);
      if Present(d, x, ss[0]) {
        assert Keep(d, x, ss) == [ss[0]] + rest;
        EmitCons(b, d, g, x, ss[0], rest);
      } else {
        assert Keep(d, x, ss) == rest;
      }
    }
  }

  /** The seven-slot layout sum, unfolded. */
  lemma {:induction false} LayoutSum(b: Builder, d: Dimensions, g: ThermalGrid, x: Cell, ss: seq<Slot>)
    requires Fits(d, g) && InGrid(d, x) && |ss| == 7
    ensures SlotSum(b, d, g, x, ss)
      == Term(b, d, g, x, ss[0]) + Term(b, d, g, x, ss[1]) + Term(b, d, g, x, ss[2]) + Term(b, d, g, x, ss[3])
       + Term(b, d, g, x, ss[4]) + Term(b, d, g, x, ss[5]) + Term(b, d, g, x, ss[6])
  {
    assert ss[6..][1..] == [];
    assert ss[5..][1..] == ss[6..];
    assert ss[4..][1..] == ss[5..];
    assert ss[3..][1..] == ss[4..];
    assert ss[2..][1..] == ss[3..];
    assert ss[1..][1..] == ss[2..];
    assert SlotSum(b, d, g, x, ss[6..]) == Term(b, d, g, x, ss[6]);
    assert SlotSum(b, d, g, x, ss[5..]) == Term(b, d, g, x, ss[5]) + SlotSum(b, d, g, x, ss[6..]);
    assert SlotSum(b, d, g, x, ss[4..]) == Term(b, d, g, x, ss[4]) + SlotSum(b, d, g, x, ss[5..]);
    assert SlotSum(b, d, g, x, ss[3..]) == Term(b, d, g, x, ss[3]) + SlotSum(b, d, g, x, ss[4..]);
    assert SlotSum(b, d, g, x, ss[2..]) == Term(b, d, g, x, ss[2]) + SlotSum(b, d, g, x, ss[3..]);
    assert SlotSum(b, d, g, x, ss[1..]) == Term(b, d, g, x, ss[1]) + SlotSum(b, d, g, x, ss[2..]);
  }

  /** The values of a block sum to the terms of its seven layout slots. */
  lemma BuildSum(b: Builder, d: Dimensions, g: ThermalGrid, x: Cell, previous: int)
    requires Fits(d, g) && InGrid(d, x)
    ensures var ss := Layout(b);
      SumValues(Build(b, d, g, x, previous).entries)
      == Term(b, d, g, x, ss[0]) + Term(b, d, g, x, ss[1]) + Term(b, d, g, x, ss[2]) + Term(b, d, g, x, ss[3])
       + Term(b, d, g, x, ss[4]) + Term(b, d, g, x, ss[5]) + Term(b, d, g, x, ss[6])
  {
    EmitSum(b, d, g, x, Layout(b));
    LayoutSum(b, d, g, x, Layout(b));
  }

  /** A conductive off-diagonal slot contributes minus the coupling it adds to the diagonal. */
  lemma ConductiveTerm(b: Builder, d: Dimensions, g: ThermalGrid, x: Cell, dir: Dir)
    requires Fits(d, g) && InGrid(d, x)
    requires b.CcsSolid? || b.CrsSolid? || (dir != North && dir != South)
    ensures Term(b, d, g, x, Off(dir)) == -Contribution(d, g, x, dir)
  {
  }

  /**
   * Every column of the CCS solid matrix sums to the capacity of its cell:
   * conduction only moves heat between cells.
   */
  lemma CcsSolidColumnSum(d: Dimensions, g: ThermalGrid, x: Cell, previous: int)
    requires Fits(d, g) && InGrid(d, x)
    ensures SumValues(AddCcsSolidColumn(d, g, x, previous).entries) == Capacity(d, g, x)
  {
    var b := CcsSolid;
    BuildSum(b, d, g, x, previous);
    assert Layout(b) == [Off(Bottom), Off(South), Off(West), Diagonal, Off(East), Off(North), Off(Top)];
    ConductiveTerm(b, d, g, x, Bottom);
    ConductiveTerm(b, d, g, x, South);
    ConductiveTerm(b, d, g, x, West);
    ConductiveTerm(b, d, g, x, East);
    ConductiveTerm(b, d, g, x, North);
    ConductiveTerm(b, d, g, x, Top);
    assert Term(b, d, g, x, Diagonal) == DiagonalValue(b, d, g, x);
  }

  /**
   * Every row of the CRS solid matrix sums to the capacity of its cell, plus
   * the heat-sink conductance of a top-layer cell when a sink is attached.
   */
  lemma CrsSolidRowSum(d: Dimensions, g: ThermalGrid, sink: bool, x: Cell, previous: int)
    requires Fits(d, g) && InGrid(d, x)
    ensures SumValues(AddCrsSolidColumn(d, g, sink, x, previous).entries) == Capacity(d, g, x) + SinkTerm(d, g, sink, x)
  {
    var b := CrsSolid(sink);
    BuildSum(b, d, g, x, previous);
    assert Layout(b) == [Off(Top), Off(North), Off(East), Diagonal, Off(West), Off(South), Off(Bottom)];
    ConductiveTerm(b, d, g, x, Bottom);
    ConductiveTerm(b, d, g, x, South);
    ConductiveTerm(b, d, g, x, West);
    ConductiveTerm(b, d, g, x, East);
    ConductiveTerm(b, d, g, x, North);
    ConductiveTerm(b, d, g, x, Top);
    assert Term(b, d, g, x, Diagonal) == DiagonalValue(b, d, g, x);
  }

  /**
   * An interior liquid row whose advection coefficients cancel
   * (North == C, South == -C) sums to the capacity of its cell.
   */
  lemma CrsLiquidRowSum(d: Dimensions, g: ThermalGrid, x: Cell, previous: int)
    requires Fits(d, g) && InGrid(d, x)
    requires 0 < x.row && x.row + 1 < d.nRows
    requires Cond(d, g, x).north + Cond(d, g, x).south == 0.0
    ensures SumValues(AddCrsLiquidColumn(d, g, x, previous).entries) == Capacity(d, g, x)
  {
    var b := CrsLiquid;
    BuildSum(b, d, g, x, previous);
    assert Layout(b) == [Off(Top), Off(North), Off(East), Diagonal, Off(West), Off(South), Off(Bottom)];
    ConductiveTerm(b, d, g, x, Bottom);
    ConductiveTerm(b, d, g, x, West);
    ConductiveTerm(b, d, g, x, East);
    ConductiveTerm(b, d, g, x, Top);
    assert Term(b, d, g, x, Off(North)) == Cond(d, g, x).north;
    assert Term(b, d, g, x, Off(South)) == Cond(d, g, x).south;
    assert Term(b, d, g, x, Diagonal) == DiagonalValue(b, d, g, x);
  }

  /** A column lists y and a row lists x exactly when x and y are the same cell or neighbours. */
  lemma ListsEachOther(d: Dimensions, x: Cell, y: Cell, column: seq<Entry>, row: seq<Entry>)
    requires InGrid(d, x) && InGrid(d, y)
    requires ListsNeighbourhood(d, x, column) && ListsNeighbourhood(d, y, row)
    ensures Index(d, y) in Indices(column) <==> Index(d, x) in Indices(row)
  {
    DirToOpposite(x, y);
    assert Index(d, y) in Indices(column) <==> y == x || Adjacent(x, y);
    assert Index(d, x) in Indices(row) <==> x == y || Adjacent(y, x);
  }

  /**
   * The CCS and CRS solid builders (without heat sink) describe the same
   * matrix: entry (y, x) is in column x exactly when it is in row y, with the
   * same value.
   */
  lemma SolidLayoutsAgree(d: Dimensions, g: ThermalGrid, x: Cell, y: Cell, p: int, q: int)
    requires Fits(d, g) && InGrid(d, x) && InGrid(d, y)
    ensures var column := AddCcsSolidColumn(d, g, x, p).entries;
      var row := AddCrsSolidColumn(d, g, false, y, q).entries;
      && (Index(d, y) in Indices(column) <==> Index(d, x) in Indices(row))
      && forall i, j :: 0 <= i < |column| && 0 <= j < |row| && column[i].index == Index(d, y) && row[j].index == Index(d, x)
           ==> column[i].value == row[j].value
  {
    var column := AddCcsSolidColumn(d, g, x, p).entries;
    var row := AddCrsSolidColumn(d, g, false, y, q).entries;
    ListsEachOther(d, x, y, column, row);
    assert CellOf(d, Index(d, y)) == y;
    assert CellOf(d, Index(d, x)) == x;
  }

  /**
   * With the same advection coefficients all along the flow, the CCS and CRS
   * liquid builders describe the same matrix.
   */
  lemma LiquidLayoutsAgree(d: Dimensions, g: ThermalGrid, x: Cell, y: Cell, p: int, q: int)
    requires Fits(d, g) && InGrid(d, x) && InGrid(d, y) && SameFlow(d, g, x, y)
    ensures var column := AddCcsLiquidColumn(d, g, x, p).entries;
      var row := AddCrsLiquidColumn(d, g, y, q).entries;
      && (Index(d, y) in Indices(column) <==> Index(d, x) in Indices(row))
      && forall i, j :: 0 <= i < |column| && 0 <= j < |row| && column[i].index == Index(d, y) && row[j].index == Index(d, x)
           ==> column[i].value == row[j].value
  {
    var column := AddCcsLiquidColumn(d, g, x, p).entries;
    var row := AddCrsLiquidColumn(d, g, y, q).entries;
    ListsEachOther(d, x, y, column, row);
    DirToOpposite(x, y);
    assert CellOf(d, Index(d, y)) == y;
    assert CellOf(d, Index(d, x)) == x;
  }
}
