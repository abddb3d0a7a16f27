/**
 * The read-only queries of the driver (include/thermal_data.h): the
 * temperature of one cell and the statistics of floorplan elements, with the
 * return codes their headers document. How an element's minimum, average or
 * maximum is computed is not part of this model; it is a parameter.
 */
module Queries {
  import opened Wrappers
  import opened Grid
  import opened Lists

  /** get_cell_temperature: 0 and the cell's temperature when the cell exists, -1 otherwise. */
  function GetCellTemperature(d: Dimensions, temperatures: seq<real>, layer: nat, row: nat, column: nat): (r: (int, Option<real>))
    requires |temperatures| == NumberOfCells(d)
    ensures r.0 == 0 <==> InGrid(d, Cell(layer, row, column))
    ensures r.0 != 0 ==> r.0 == -1 && r.1.None?
    ensures r.0 == 0 ==> r.1 == Some(temperatures[Index(d, Cell(layer, row, column))])
  {
    var x := Cell(layer, row, column);
    if InGrid(d, x) then (0, Some(temperatures[Index(d, x)])) else (-1, None)
  }

  /** Every flat position is reached by querying the cell it stands for. */
  lemma CellQueryRoundTrip(d: Dimensions, temperatures: seq<real>, i: nat)
    requires |temperatures| == NumberOfCells(d) && i < NumberOfCells(d)
    ensures var x := CellOf(d, i); GetCellTemperature(d, temperatures, x.layer, x.row, x.column) == (0, Some(temperatures[i]))
  {
    var x := CellOf(d, i);
    assert Cell(x.layer, x.row, x.column) == x;
  }

  /** A named floorplan element. */
  datatype Element = Element(id: string)

  /**
   * A stack element as the queries see it: its name, and the floorplan it
   * carries (None when it is not a die, or a die without a floorplan).
   */
  datatype StackElement = StackElement(id: string, floorplan: Option<seq<Element>>)

  /** Position k holds the first stack element named id. */
  predicate FirstNamed(stack: seq<StackElement>, id: string, k: nat)
    requires k < |stack|
  {
    stack[k].id == id && forall j :: 0 <= j < k ==> stack[j].id != id
  }

  /** Only one position can hold the first element of a name. */
  lemma OnlyFirstNamed(stack: seq<StackElement>, id: string, k: nat)
    requires k < |stack| && FirstNamed(stack, id, k)
    ensures forall j :: 0 <= j < |stack| && FirstNamed(stack, id, j) ==> j == k
  {
  }

  /**
   * get_{max,min,avg}_temperature_of_floorplan_element: 0 and the element's
   * statistic when both names resolve; -1 when no stack element has that
   * name, -2 when it has no floorplan, -3 when the floorplan has no element
   * of that name. The first match wins at each level.
   */
  function ElementStatistic(stack: seq<StackElement>, floorplanId: string, elementId: string, statistic: Element -> real): (r: (int, Option<real>))
    ensures r.0 in {0, -1, -2, -3}
    ensures r.0 == -1 <==> forall k :: 0 <= k < |stack| ==> stack[k].id != floorplanId
    ensures r.0 == -2 <==> exists k :: (0 <= k < |stack| && FirstNamed(stack, floorplanId, k)
      && stack[k].floorplan.None?)
    ensures r.0 == -3 <==> exists k :: (0 <= k < |stack| && FirstNamed(stack, floorplanId, k)
      && stack[k].floorplan.Some?
      && forall e :: 0 <= e < |stack[k].floorplan.value| ==> stack[k].floorplan.value[e].id != elementId)
    ensures r.0 == 0 <==> r.1.Some?
    ensures r.0 == 0 ==> exists k, e :: (0 <= k < |stack| && FirstNamed(stack, floorplanId, k)
      && stack[k].floorplan.Some? && 0 <= e < |stack[k].floorplan.value|
      && stack[k].floorplan.value[e].id == elementId && r.1 == Some(statistic(stack[k].floorplan.value[e])))
  {
    match FindFirst(stack, (s: StackElement) => s.id == floorplanId)
    case None => (-1, None)
    case Some(k) =>
      OnlyFirstNamed(stack, floorplanId, k);
      match stack[k].floorplan
      case None => (-2, None)
      case Some(elements) =>
        match FindFirst(elements, (e: Element) => e.id == elementId)
        case None => (-3, None)
        case Some(e) => (0, Some(statistic(elements[e])))
  }

  /**
   * get_all_{max,min,avg}_temperatures_of_floorplan: 0 and one value per
   * element in declaration order; -1 and -2 as for a single element.
   */
  function AllStatistics(stack: seq<StackElement>, floorplanId: string, statistic: Element -> real): (r: (int, seq<real>))
    ensures r.0 in {0, -1, -2}
    ensures r.0 == -1 <==> forall k :: 0 <= k < |stack| ==> stack[k].id != floorplanId
    ensures r.0 == -2 <==> exists k :: (0 <= k < |stack| && FirstNamed(stack, floorplanId, k)
      && stack[k].floorplan.None?)
    ensures r.0 == 0 ==> exists k :: (0 <= k < |stack| && FirstNamed(stack, floorplanId, k)
      && stack[k].floorplan.Some? && |r.1| == |stack[k].floorplan.value|
      && forall e :: 0 <= e < |r.1| ==> r.1[e] == statistic(stack[k].floorplan.value[e]))
    ensures r.0 != 0 ==> r.1 == []
  {
    match FindFirst(stack, (s: StackElement) => s.id == floorplanId)
    case None => (-1, [])
    case Some(k) =>
      OnlyFirstNamed(stack, floorplanId, k);
      match stack[k].floorplan
      case None => (-2, [])
      case Some(elements) => (0, seq(|elements|, e requires 0 <= e < |elements| => statistic(elements[e])))
  }

  /**
   * The two kinds of query agree: the value the whole-floorplan query writes
   * for an element is the one the single-element query returns for its name,
   * when no earlier element carries the same name.
   */
  lemma AllStatisticsAgree(stack: seq<StackElement>, floorplanId: string, statistic: Element -> real, k: nat, e: nat)
    requires k < |stack| && FirstNamed(stack, floorplanId, k)
    requires stack[k].floorplan.Some? && e < |stack[k].floorplan.value|
    requires forall j :: 0 <= j < e ==> stack[k].floorplan.value[j].id != stack[k].floorplan.value[e].id
    ensures var all := AllStatistics(stack, floorplanId, statistic);
      var one := ElementStatistic(stack, floorplanId, stack[k].floorplan.value[e].id, statistic);
      all.0 == 0 && one.0 == 0 && one.1 == Some(all.1[e])
  {
    var elements := stack[k].floorplan.value;
    var found := FindFirst(stack, (s: StackElement) => s.id == floorplanId);
    assert found == Some(k);
    var at := FindFirst(elements, (x: Element) => x.id == elements[e].id);
    assert at == Some(e);
  }
}
