/**
 * Floorplans of the earlier code base (Sources/floorplan.c): the list of
 * rectangular power elements of a die, the checks made when an element is
 * read, and the alignment of an element to the cells of the grid. Lengths
 * of the chip are in millimetres, those of cells and elements in
 * micrometres, hence the factor 1000.
 */
module Floorplan {
  import opened Wrappers

  /** struct FloorplanElement: a rectangle and the cells it is aligned to. */
  datatype FloorplanElement = FloorplanElement(
    id: string, swX: real, swY: real, length: real, width: real,
    swRow: int, swColumn: int, neRow: int, neColumn: int, powerValue: real)

  datatype Floorplan = Floorplan(fileName: Option<string>, nElements: nat, elements: seq<FloorplanElement>)

  /** ChipDimensions, in millimetres. */
  datatype Chip = Chip(length: real, width: real)

  /**
   * The parts of Dimensions the alignment reads: the lengths of the first,
   * the inner and the last column, the width of every row, the number of
   * columns and the chip.
   */
  datatype Geometry = Geometry(firstLength: real, length: real, lastLength: real, cellWidth: real, nColumns: nat, chip: Chip)

  /** init_floorplan: no file name, no elements; nothing to do on NULL. */
  function InitFloorplan(f: Option<Floorplan>): (r: Option<Floorplan>)
    ensures f.None? <==> r.None?
    ensures r.Some? ==> r.value.fileName.None? && r.value.nElements == 0 && r.value.elements == []
  {
    if f.None? then None else Some(Floorplan(None, 0, []))
  }

  /**
   * check_intersections: how many elements already in the list intersect
   * the new one (check_intersection, the pairwise test, is a parameter).
   */
  function CheckIntersections(elements: seq<FloorplanElement>, e: FloorplanElement, intersects: (FloorplanElement, FloorplanElement) -> bool): (n: nat)
    ensures n <= |elements|
    ensures n == 0 <==> forall k :: 0 <= k < |elements| ==> !intersects(elements[k], e)
    ensures n == |elements| <==> forall k :: 0 <= k < |elements| ==> intersects(elements[k], e)
  {
    if elements == [] then 0
    else
      var rest := CheckIntersections(elements[1..], e, intersects);
      assert forall k :: 1 <= k < |elements| ==> elements[k] == elements[1..][k - 1];
      (if intersects(elements[0], e) then 1 else 0) + rest
  }

  /** Adding an element to the list adds one to the count exactly when it intersects. */
  lemma {:induction false} IntersectionsAppend(elements: seq<FloorplanElement>, x: FloorplanElement, e: FloorplanElement, intersects: (FloorplanElement, FloorplanElement) -> bool)
    ensures CheckIntersections(elements + [x], e, intersects)
      == CheckIntersections(elements, e, intersects) + (if intersects(x, e) then 1 else 0)
  {
    if elements != [] {
      assert (elements + [x])[1..] == elements[1..] + [x];
      IntersectionsAppend(elements[1..], x, e, intersects);
    }
  }

  /** The rectangle of an element lies within the chip, both in micrometres. */
  predicate WithinChip(e: FloorplanElement, chip: Chip)
  {
    0.0 <= e.swX && e.swX + e.length <= chip.length * 1000.0
    && 0.0 <= e.swY && e.swY + e.width <= chip.width * 1000.0
  }

  /** check_location: 1 when the element leaves the chip on any side, 0 otherwise. */
  function CheckLocation(e: FloorplanElement, chip: Chip): (r: int)
    ensures r == 0 || r == 1
    ensures r == 0 <==> WithinChip(e, chip)
  {
    if e.swX < 0.0 || e.swX + e.length > chip.length * 1000.0
       || e.swY < 0.0 || e.swY + e.width > chip.width * 1000.0
    then 1 else 0
  }

  /** An element within the chip has its four corners within it. */
  lemma LocatedCornersInside(e: FloorplanElement, chip: Chip, x: real, y: real)
    requires CheckLocation(e, chip) == 0 && e.length >= 0.0 && e.width >= 0.0
    requires x in {e.swX, e.swX + e.length} && y in {e.swY, e.swY + e.width}
    ensures 0.0 <= x <= chip.length * 1000.0 && 0.0 <= y <= chip.width * 1000.0
  {
  }

  // ----- Termination of the scans over real coordinates -----

  /** How many advances of at least `step` still fit in `gap`. */
  function Steps(gap: real, step: real): nat
    requires step > 0.0
  {
    if gap <= 0.0 then 0 else (gap / step).Floor + 1
  }

  lemma StepsDrop(gap: real, advance: real, step: real)
    requires step > 0.0 && advance >= step && gap > 0.0
    ensures Steps(gap - advance, step) < Steps(gap, step)
  {
    if gap - advance > 0.0 {
      var q, q' := gap / step, (gap - advance) / step;
      assert q * step == gap;
      assert q' * step == gap - advance;
      assert (q - q' - 1.0) * step == advance - step;
      NonNegativeFactor(q - q' - 1.0, step);
    }
  }

  lemma NonNegativeFactor(e: real, step: real)
    requires step > 0.0 && e * step >= 0.0
    ensures e >= 0.0
  {
  }

  // ----- Rows -----

  /** The centre of a row, in micrometres from the south edge. */
  function RowCentre(g: Geometry, row: nat): real
  {
    g.cellWidth / 2.0 + row as real * g.cellWidth
  }

  lemma RowCentreStep(g: Geometry, row: nat)
    ensures RowCentre(g, row + 1) == RowCentre(g, row) + g.cellWidth
  {
    assert (row + 1) as real * g.cellWidth == row as real * g.cellWidth + g.cellWidth;
  }

  /** South side: the rows are passed while their centre is below SW_Y. */
  function SouthScan(g: Geometry, swY: real, row: nat, cy: real): (r: nat)
    requires g.cellWidth > 0.0 && cy == RowCentre(g, row)
    ensures r >= row && RowCentre(g, r) >= swY
    ensures forall k :: row <= k < r ==> RowCentre(g, k) < swY
    decreases Steps(swY - cy, g.cellWidth)
  {
    if cy >= swY then row
    else
      StepsDrop(swY - cy, g.cellWidth, g.cellWidth);
      RowCentreStep(g, row);
      assert swY - (cy + g.cellWidth) == swY - cy - g.cellWidth;
      SouthScan(g, swY, row + 1, cy + g.cellWidth)
  }

  /** North side: from SW_Row on, the rows are passed while their centre is at most the north edge. */
  function NorthScan(g: Geometry, north: real, row: nat, cy: real): (r: nat)
    requires g.cellWidth > 0.0 && cy == RowCentre(g, row)
    ensures r >= row && RowCentre(g, r) > north
    ensures forall k :: row <= k < r ==> RowCentre(g, k) <= north
    decreases Steps(north - cy + g.cellWidth, g.cellWidth)
  {
    if cy > north then row
    else
      StepsDrop(north - cy + g.cellWidth, g.cellWidth, g.cellWidth);
      RowCentreStep(g, row);
      assert north - (cy + g.cellWidth) + g.cellWidth == north - cy + g.cellWidth - g.cellWidth;
      NorthScan(g, north, row + 1, cy + g.cellWidth)
  }

  // ----- Columns -----

  /** The centres the west-side loop steps through: the first column, then inner columns. */
  function WestCentre(g: Geometry, column: nat): real
  {
    if column == 0 then g.firstLength / 2.0
    else g.firstLength + (column - 1) as real * g.length + g.length / 2.0
  }

  lemma WestCentreStep(g: Geometry, column: nat)
    ensures WestCentre(g, column + 1) == WestCentre(g, column) + (if column == 0 then g.firstLength / 2.0 + g.length / 2.0 else g.length)
  {
    if column > 0 {
      assert column as real * g.length == (column - 1) as real * g.length + g.length;
    }
  }

  /** West side: the columns are passed while their centre is west of SW_X. */
  function WestScan(g: Geometry, swX: real, column: nat, cx: real): (r: nat)
    requires g.length > 0.0 && g.firstLength >= 0.0 && cx == WestCentre(g, column)
    ensures r >= column && WestCentre(g, r) >= swX
    ensures forall k :: column <= k < r ==> WestCentre(g, k) < swX
    decreases Steps(swX - cx, g.length / 2.0)
  {
    if cx >= swX then column
    else
      var advance := if column == 0 then g.firstLength / 2.0 + g.length / 2.0 else g.length;
      StepsDrop(swX - cx, advance, g.length / 2.0);
      WestCentreStep(g, column);
      assert swX - (cx + advance) == swX - cx - advance;
      WestScan(g, swX, column + 1, cx + advance)
  }

  /** The centre of the last column, from the chip length: the east-side loop sets it directly. */
  function LastCentre(g: Geometry): real
  {
    g.chip.length * 1000.0 - g.lastLength / 2.0
  }

  /** Columns still to come before the last one; it bounds the steps that may move backwards. */
  function Phase(g: Geometry, column: nat): nat
  {
    var bound := if g.nColumns == 0 then 1 else g.nColumns;
    if column < bound then bound - column else 0
  }

  /**
   * East side as written: the step taken after column c is chosen by c
   * itself (centre of column 0 for c = 0, the last centre for the last
   * column, one inner length otherwise), so the value tested at column c + 1
   * is the centre of column c. NE_Column is the column the loop stops at,
   * minus one.
   */
  function EastScanAsWritten(g: Geometry, east: real, column: nat, cx: real): (r: int)
    requires g.length > 0.0
    ensures r >= column - 1
    ensures cx <= east ==> r >= column
    decreases Phase(g, column), Steps(east - cx + g.length, g.length)
  {
    if cx > east then column - 1
    else
      var next :=
        if column == 0 then g.firstLength / 2.0
        else if column == g.nColumns - 1 then LastCentre(g)
        else cx + g.length;
      if Phase(g, column) == 0 then
        StepsDrop(east - cx + g.length, g.length, g.length);
        assert east - next + g.length == east - cx + g.length - g.length;
        EastScanAsWritten(g, east, column + 1, next)
      else
        EastScanAsWritten(g, east, column + 1, next)
  }

  /**
   * The centres the east side is meant to step through: the first column,
   * the inner columns, the last column as the chip length places it, and,
   * past the grid, one inner length further each time.
   */
  function EastCentre(g: Geometry, column: nat): real
  {
    if column == 0 then g.firstLength / 2.0
    else if g.nColumns >= 2 && column >= g.nColumns - 1 then
      LastCentre(g) + (column - (g.nColumns - 1)) as real * g.length
    else g.firstLength + (column - 1) as real * g.length + g.length / 2.0
  }

  /** The step of the corrected east side, from the centre of column to that of column + 1. */
  function EastNext(g: Geometry, column: nat, cx: real): real
  {
    if column + 1 == g.nColumns - 1 then LastCentre(g)
    else if column == 0 then cx + g.firstLength / 2.0 + g.length / 2.0
    else cx + g.length
  }

  lemma EastCentreStep(g: Geometry, column: nat)
    ensures EastNext(g, column, EastCentre(g, column)) == EastCentre(g, column + 1)
  {
    if column > 0 && !(column + 1 == g.nColumns - 1) {
      if g.nColumns >= 2 && column >= g.nColumns - 1 {
        var past := column - (g.nColumns - 1);
        assert (past + 1) as real * g.length == past as real * g.length + g.length;
      } else {
        assert column as real * g.length == (column - 1) as real * g.length + g.length;
      }
    }
  }

  /**
   * East side as evidently intended: the step after column c leads to the
   * centre of column c + 1, as on the west side, so the loop stops at the
   * first column whose centre lies east of the element and NE_Column is the
   * last column whose centre lies within it.
   */
  function EastScan(g: Geometry, east: real, column: nat, cx: real): (r: int)
    requires g.length > 0.0 && g.firstLength >= 0.0 && cx == EastCentre(g, column)
    ensures r >= column - 1 && EastCentre(g, r + 1) > east
    ensures forall k :: column <= k <= r ==> EastCentre(g, k) <= east
    decreases Phase(g, column), Steps(east - cx + g.length, g.length)
  {
    if cx > east then column - 1
    else
      var next := EastNext(g, column, cx);
      EastCentreStep(g, column);
      if Phase(g, column) == 0 then
        StepsDrop(east - cx + g.length, g.length, g.length);
        assert east - next + g.length == east - cx + g.length - g.length;
        EastScan(g, east, column + 1, next)
      else
        EastScan(g, east, column + 1, next)
  }

  /**
   * The corners of an element in cells: 1 is returned when the element is
   * one row high and one column wide (NE equals SW on both axes), 0
   * otherwise.
   */
  function Aligned(e: FloorplanElement, swRow: int, swColumn: int, neRow: int, neColumn: int): (r: (int, FloorplanElement))
    ensures r.1 == e.(swRow := swRow, swColumn := swColumn, neRow := neRow, neColumn := neColumn)
    ensures r.0 == 1 <==> neRow == swRow && neColumn == swColumn
    ensures r.0 == 0 || r.0 == 1
  {
    (if neRow - swRow == 0 && neColumn - swColumn == 0 then 1 else 0,
     e.(swRow := swRow, swColumn := swColumn, neRow := neRow, neColumn := neColumn))
  }

  /** Cell sizes the scans can step by. */
  predicate Steppable(g: Geometry)
  {
    g.firstLength >= 0.0 && g.length > 0.0 && g.cellWidth > 0.0
  }

  /** align_to_grid as written. */
  function AlignToGridAsWritten(g: Geometry, e: FloorplanElement): (r: (int, FloorplanElement))
    requires Steppable(g)
    ensures r.1 == AlignToGrid(g, e).1.(neColumn := r.1.neColumn)
    ensures r.1.neColumn >= r.1.swColumn - 1
    ensures r.0 == 1 <==> r.1.neRow == r.1.swRow && r.1.neColumn == r.1.swColumn
  {
    var swColumn := WestScan(g, e.swX, 0, WestCentre(g, 0));
    var neColumn := EastScanAsWritten(g, e.swX + e.length, swColumn, WestCentre(g, swColumn));
    var swRow := SouthScan(g, e.swY, 0, RowCentre(g, 0));
    var neRow := NorthScan(g, e.swY + e.width, swRow, RowCentre(g, swRow)) - 1;
    Aligned(e, swRow, swColumn, neRow, neColumn)
  }

  /** Three columns of 100 micrometres, one row of 100, on a chip of 0.3 by 0.1 millimetres. */
  function SmallGrid(): Geometry
  {
    Geometry(100.0, 100.0, 100.0, 100.0, 3, Chip(0.3, 0.1))
  }

  /**
   * An element covering the whole chip passes check_location, yet the east
   * side as written aligns it up to column 3 of a grid whose columns are 0
   * to 2; an element covering column 0 alone is aligned to columns 0 and 1.
   */
  lemma EastOverrun()
    ensures var e := FloorplanElement("e", 0.0, 0.0, 300.0, 100.0, 0, 0, 0, 0, 0.0);
      CheckLocation(e, SmallGrid().chip) == 0 && AlignToGridAsWritten(SmallGrid(), e).1.neColumn == 3
    ensures var e := FloorplanElement("e", 0.0, 0.0, 100.0, 100.0, 0, 0, 0, 0, 0.0);
      AlignToGridAsWritten(SmallGrid(), e).1.neColumn == 1
  {
    var g := SmallGrid();
    assert LastCentre(g) == 250.0;
    assert WestScan(g, 0.0, 0, 50.0) == 0;
    assert EastScanAsWritten(g, 300.0, 4, 350.0) == 3;
    assert EastScanAsWritten(g, 300.0, 3, 250.0) == 3;
    assert EastScanAsWritten(g, 300.0, 2, 150.0) == 3;
    assert EastScanAsWritten(g, 300.0, 1, 50.0) == 3;
    assert EastScanAsWritten(g, 300.0, 0, 50.0) == 3;
    assert EastScanAsWritten(g, 100.0, 2, 150.0) == 1;
    assert EastScanAsWritten(g, 100.0, 1, 50.0) == 1;
    assert EastScanAsWritten(g, 100.0, 0, 50.0) == 1;
  }

  /**
   * align_to_grid with the east side corrected (and started from the
   * centre of SW_Column as the east side measures it): SW_Column is the
   * first column whose centre is not west of the element, NE_Column the
   * last whose centre is not east of it, and likewise for rows.
   */
  function AlignToGrid(g: Geometry, e: FloorplanElement): (r: (int, FloorplanElement))
    requires Steppable(g)
    ensures r.1.swColumn >= 0 && r.1.swRow >= 0
    ensures WestCentre(g, r.1.swColumn) >= e.swX
    ensures forall k :: 0 <= k < r.1.swColumn ==> WestCentre(g, k) < e.swX
    ensures r.1.neColumn >= r.1.swColumn - 1 && EastCentre(g, r.1.neColumn + 1) > e.swX + e.length
    ensures forall k :: r.1.swColumn <= k <= r.1.neColumn ==> EastCentre(g, k) <= e.swX + e.length
    ensures RowCentre(g, r.1.swRow) >= e.swY
    ensures forall k :: 0 <= k < r.1.swRow ==> RowCentre(g, k) < e.swY
    ensures r.1.neRow >= r.1.swRow - 1 && RowCentre(g, r.1.neRow + 1) > e.swY + e.width
    ensures forall k :: r.1.swRow <= k <= r.1.neRow ==> RowCentre(g, k) <= e.swY + e.width
    ensures r.0 == 1 <==> r.1.neRow == r.1.swRow && r.1.neColumn == r.1.swColumn
    ensures r.1.id == e.id && r.1.powerValue == e.powerValue
  {
    var swColumn := WestScan(g, e.swX, 0, WestCentre(g, 0));
    var neColumn := EastScan(g, e.swX + e.length, swColumn, EastCentre(g, swColumn));
    var swRow := SouthScan(g, e.swY, 0, RowCentre(g, 0));
    var northStop := NorthScan(g, e.swY + e.width, swRow, RowCentre(g, swRow));
    Aligned(e, swRow, swColumn, northStop - 1, neColumn)
  }

  /** The two east sides start from the same centre except at and past the last column. */
  lemma CentresAgree(g: Geometry, column: nat)
    requires column == 0 || column + 1 < g.nColumns
    ensures WestCentre(g, column) == EastCentre(g, column)
  {
  }

  /**
   * A grid whose column lengths add up to the chip length, with a last
   * column no longer than the inner ones.
   */
  predicate Consistent(g: Geometry)
  {
    Steppable(g) && g.nColumns >= 2 && g.firstLength > 0.0 && 0.0 < g.lastLength <= g.length
    && g.chip.length * 1000.0 == g.firstLength + (g.nColumns - 2) as real * g.length + g.lastLength
  }

  lemma PastLastCentres(g: Geometry)
    requires Consistent(g)
    ensures EastCentre(g, g.nColumns) > g.chip.length * 1000.0
    ensures WestCentre(g, g.nColumns) >= g.chip.length * 1000.0
  {
    var n := g.nColumns;
    assert (n - 1) as real * g.length == (n - 2) as real * g.length + g.length;
    assert (n - (n - 1)) as real * g.length == g.length;
  }

  /**
   * With the corrected east side, an element that passes check_location
   * on a consistent grid is aligned to columns of the grid: the east
   * corner column is at most the last column, whereas the code as written
   * can go one past it.
   */
  lemma AlignedWithinGrid(g: Geometry, e: FloorplanElement)
    requires Consistent(g) && CheckLocation(e, g.chip) == 0 && e.length >= 0.0
    ensures AlignToGrid(g, e).1.swColumn <= g.nColumns
    ensures AlignToGrid(g, e).1.neColumn <= g.nColumns - 1
  {
    PastLastCentres(g);
  }

  /**
   * insert_power_values: walking the list, the k-th element gets values[k];
   * nothing else changes.
   */
  method InsertPowerValues(f: Floorplan, values: seq<real>) returns (r: Floorplan)
    requires |values| >= |f.elements|
    ensures r.fileName == f.fileName && r.nElements == f.nElements && |r.elements| == |f.elements|
    ensures forall k :: 0 <= k < |f.elements| ==> r.elements[k] == f.elements[k].(powerValue := values[k])
  {
    var elements: seq<FloorplanElement> := [];
    var k := 0;
    while k < |f.elements|
      invariant k <= |f.elements| && |elements| == k
      invariant forall j :: 0 <= j < k ==> elements[j] == f.elements[j].(powerValue := values[j])
    {
      elements := elements + [f.elements[k].(powerValue := values[k])];
      k := k + 1;
    }
    r := f.(elements := elements);
  }
}
