/**
 * Microchannel and pin-fin cavities (sources/channel.c): which thermal-cell
 * filler and which matrix-column builder every cell of a channel gets, and
 * where the coolant inlet sources go.
 *
 * The physics behind the fillers, the builders, IS_CHANNEL_COLUMN and the
 * CCONV_* convection formulas are not shown in these sources; they are
 * parameters or named by tag only.
 */
module Channel {
  import opened Wrappers
  import opened Grid
  import opened Traversal
  import opened Material

  /** ChannelModel_t; Undefined stands for CHANNELMODEL_I, the value init_channel stores. */
  datatype ChannelModel = Undefined | Mc4Rm | Mc2Rm | PfInline | PfStaggered

  predicate IsPinFin(m: ChannelModel)
  {
    m == PfInline || m == PfStaggered
  }

  /** The fields of struct Channel the modelled code reads; the coolant HTCs are kept opaque. */
  datatype Channel = Channel(
    model: ChannelModel,
    height: real, length: real, pitch: real, porosity: real,
    nChannels: nat,
    coolantHtcs: real, coolantVhc: real, coolantTIn: real, coolantFr: real,
    darcyVelocity: real,
    wallMaterial: Option<Material>)

  /**
   * init_channel: every field at its default (zero, per the header's
   * description of the defaults) and no wall material.
   */
  function InitChannel(): (c: Channel)
    ensures c.model == Undefined && c.wallMaterial.None?
    ensures c.height == 0.0 && c.length == 0.0 && c.pitch == 0.0 && c.porosity == 0.0 && c.nChannels == 0
    ensures c.coolantHtcs == 0.0 && c.coolantVhc == 0.0 && c.coolantTIn == 0.0 && c.coolantFr == 0.0
    ensures c.darcyVelocity == 0.0
  {
    Channel(Undefined, 0.0, 0.0, 0.0, 0.0, 0, 0.0, 0.0, 0.0, 0.0, 0.0, None)
  }

  /* ---------------------------------------------------------------------- */
  /* Thermal cells                                                           */

  /** The thermal-cell filler used for a cell. */
  datatype CellFiller =
    | LiquidMc4Rm | SolidCentral
    | WallPf | VirtualWallPf | LiquidPf
    | WallMc2Rm | VirtualWallMc2Rm | LiquidMc2Rm

  predicate IsLiquidFiller(f: CellFiller)
  {
    f == LiquidMc4Rm || f == LiquidPf || f == LiquidMc2Rm
  }

  /** The layers a channel occupies: one for 4RM, four for every other model. */
  function ChannelLayers(m: ChannelModel): nat
  {
    if m == Mc4Rm then 1 else 4
  }

  /**
   * The filler of a cell in the given sublayer of a channel: 4RM has one
   * layer, liquid on channel columns and wall material elsewhere; every other
   * model has a bottom wall, a virtual wall, a liquid and a top wall layer.
   */
  function FillerOf(ch: Channel, isChannelColumn: nat -> bool, sublayer: nat): Cell -> CellFiller
  {
    if ch.model == Mc4Rm then (x: Cell) => if isChannelColumn(x.column) then LiquidMc4Rm else SolidCentral
    else
      var pf := IsPinFin(ch.model);
      if sublayer == 1 then (x: Cell) => if pf then VirtualWallPf else VirtualWallMc2Rm
      else if sublayer == 2 then (x: Cell) => if pf then LiquidPf else LiquidMc2Rm
      else (x: Cell) => if pf then WallPf else WallMc2Rm
  }

  /**
   * The cells the thermal-cell fill visits, in order, with the filler of
   * each: 4RM walks one layer; every other model walks four layers.
   */
  ghost predicate ThermalCellsOf(d: Dimensions, layerIndex: nat, ch: Channel, isChannelColumn: nat -> bool, ws: seq<Write<CellFiller>>)
  {
    var a := LayerArea(d);
    && |ws| == (if ch.model == Mc4Rm then a else 4 * a)
    && (forall m :: 0 <= m < |ws| ==> ws[m].at == layerIndex * a + m)
    && (ch.model == Mc4Rm ==> Walk(d, layerIndex, layerIndex * a, FillerOf(ch, isChannelColumn, 0), ws))
    && (ch.model != Mc4Rm ==>
          && Walk(d, layerIndex, layerIndex * a, FillerOf(ch, isChannelColumn, 0), ws[..a])
          && Walk(d, layerIndex + 1, (layerIndex + 1) * a, FillerOf(ch, isChannelColumn, 1), ws[a..2 * a])
          && Walk(d, layerIndex + 2, (layerIndex + 2) * a, FillerOf(ch, isChannelColumn, 2), ws[2 * a..3 * a])
          && Walk(d, layerIndex + 3, (layerIndex + 3) * a, FillerOf(ch, isChannelColumn, 3), ws[3 * a..]))
  }

  /**
   * fill_thermal_cell_channel. 4RM: one layer, liquid on channel columns and
   * wall material elsewhere. Otherwise four consecutive layers (bottom wall,
   * virtual wall, liquid, top wall) with the pin-fin or the 2RM fillers. The
   * cell pointer runs on without reset from the first cell of the channel.
   */
  method FillThermalCellChannel(d: Dimensions, layerIndex: nat, ch: Channel, isChannelColumn: nat -> bool)
    returns (ws: seq<Write<CellFiller>>)
    requires layerIndex + ChannelLayers(ch.model) <= d.nLayers
    ensures ThermalCellsOf(d, layerIndex, ch, isChannelColumn, ws)
  {
    var a := LayerArea(d);
    if ch.model == Mc4Rm {
      ws := VisitLayer(d, layerIndex, FillerOf(ch, isChannelColumn, 0));
    } else {
      var bottom := VisitLayer(d, layerIndex, FillerOf(ch, isChannelColumn, 0));
      var virtual := VisitLayer(d, layerIndex + 1, FillerOf(ch, isChannelColumn, 1));
      var liquid := VisitLayer(d, layerIndex + 2, FillerOf(ch, isChannelColumn, 2));
      var top := VisitLayer(d, layerIndex + 3, FillerOf(ch, isChannelColumn, 3));
      ws := bottom + virtual + liquid + top;
      assert ws[..a] == bottom && ws[a..2 * a] == virtual && ws[2 * a..3 * a] == liquid && ws[3 * a..] == top;
    }
  }

  /* ---------------------------------------------------------------------- */
  /* System matrix                                                           */

  /** The matrix-column builder used for a cell. */
  datatype ColumnBuilder =
    | LiquidColumnMc4Rm | SolidColumn
    | BottomWallPf | VirtualWallColumnPf | LiquidColumnPf | TopWallPf
    | BottomWallMc2Rm | VirtualWallColumnMc2Rm | LiquidColumnMc2Rm | TopWallMc2Rm

  predicate IsLiquidBuilder(b: ColumnBuilder)
  {
    b == LiquidColumnMc4Rm || b == LiquidColumnPf || b == LiquidColumnMc2Rm
  }

  /** The column builder of a cell in the given sublayer, layer for layer like FillerOf. */
  function BuilderOf(ch: Channel, isChannelColumn: nat -> bool, sublayer: nat): Cell -> ColumnBuilder
  {
    if ch.model == Mc4Rm then (x: Cell) => if isChannelColumn(x.column) then LiquidColumnMc4Rm else SolidColumn
    else
      var pf := IsPinFin(ch.model);
      if sublayer == 0 then (x: Cell) => if pf then BottomWallPf else BottomWallMc2Rm
      else if sublayer == 1 then (x: Cell) => if pf then VirtualWallColumnPf else VirtualWallColumnMc2Rm
      else if sublayer == 2 then (x: Cell) => if pf then LiquidColumnPf else LiquidColumnMc2Rm
      else (x: Cell) => if pf then TopWallPf else TopWallMc2Rm
  }

  /** The cells the matrix fill visits, in order, with the column builder of each. */
  ghost predicate MatrixColumnsOf(d: Dimensions, layerIndex: nat, ch: Channel, isChannelColumn: nat -> bool, ws: seq<Write<ColumnBuilder>>)
  {
    var a := LayerArea(d);
    && |ws| == (if ch.model == Mc4Rm then a else 4 * a)
    && (forall m :: 0 <= m < |ws| ==> ws[m].at == layerIndex * a + m)
    && (ch.model == Mc4Rm ==> Walk(d, layerIndex, layerIndex * a, BuilderOf(ch, isChannelColumn, 0), ws))
    && (ch.model != Mc4Rm ==>
          && Walk(d, layerIndex, layerIndex * a, BuilderOf(ch, isChannelColumn, 0), ws[..a])
          && Walk(d, layerIndex + 1, (layerIndex + 1) * a, BuilderOf(ch, isChannelColumn, 1), ws[a..2 * a])
          && Walk(d, layerIndex + 2, (layerIndex + 2) * a, BuilderOf(ch, isChannelColumn, 2), ws[2 * a..3 * a])
          && Walk(d, layerIndex + 3, (layerIndex + 3) * a, BuilderOf(ch, isChannelColumn, 3), ws[3 * a..]))
  }

  /** Filler and builder agree, cell by cell, on whether the cell is liquid. */
  lemma LiquidAgrees(ch: Channel, isChannelColumn: nat -> bool, sublayer: nat, x: Cell)
    ensures IsLiquidFiller(FillerOf(ch, isChannelColumn, sublayer)(x)) <==> IsLiquidBuilder(BuilderOf(ch, isChannelColumn, sublayer)(x))
  {
  }

  /**
   * fill_system_matrix_channel: the same layer and cell order as the thermal
   * cells, with the liquid or solid builder per column in 4RM, and the
   * bottom-wall, virtual-wall, liquid and top-wall builders otherwise.
   */
  method FillSystemMatrixChannel(d: Dimensions, layerIndex: nat, ch: Channel, isChannelColumn: nat -> bool)
    returns (ws: seq<Write<ColumnBuilder>>)
    requires layerIndex + ChannelLayers(ch.model) <= d.nLayers
    ensures MatrixColumnsOf(d, layerIndex, ch, isChannelColumn, ws)
  {
    var a := LayerArea(d);
    if ch.model == Mc4Rm {
      ws := VisitLayer(d, layerIndex, BuilderOf(ch, isChannelColumn, 0));
    } else {
      var bottom := VisitLayer(d, layerIndex, BuilderOf(ch, isChannelColumn, 0));
      var virtual := VisitLayer(d, layerIndex + 1, BuilderOf(ch, isChannelColumn, 1));
      var liquid := VisitLayer(d, layerIndex + 2, BuilderOf(ch, isChannelColumn, 2));
      var top := VisitLayer(d, layerIndex + 3, BuilderOf(ch, isChannelColumn, 3));
      ws := bottom + virtual + liquid + top;
      assert ws[..a] == bottom && ws[a..2 * a] == virtual && ws[2 * a..3 * a] == liquid && ws[3 * a..] == top;
    }
  }

  /** A thermal-cell visit and a matrix-column visit at the same cell, both liquid or both not. */
  predicate Agree(c: Write<CellFiller>, b: Write<ColumnBuilder>)
  {
    c.cell == b.cell && (IsLiquidFiller(c.kind) <==> IsLiquidBuilder(b.kind))
  }

  /** The two fills of one sublayer visit the same cells in the same order and agree on which are liquid. */
  lemma SublayerAgrees(d: Dimensions, layer: nat, start: nat, ch: Channel, isChannelColumn: nat -> bool, sublayer: nat,
                       cells: seq<Write<CellFiller>>, columns: seq<Write<ColumnBuilder>>)
    requires Walk(d, layer, start, FillerOf(ch, isChannelColumn, sublayer), cells)
    requires Walk(d, layer, start, BuilderOf(ch, isChannelColumn, sublayer), columns)
    ensures |cells| == |columns| == LayerArea(d)
    ensures forall m :: 0 <= m < |cells| ==> Agree(cells[m], columns[m])
  {
    WalksAgree(d, layer, start, FillerOf(ch, isChannelColumn, sublayer), BuilderOf(ch, isChannelColumn, sublayer), cells, columns);
    forall m | 0 <= m < |cells|
      ensures Agree(cells[m], columns[m])
    {
      LiquidAgrees(ch, isChannelColumn, sublayer, cells[m].cell);
    }
  }

  /**
   * The thermal-cell fill and the matrix fill of a channel walk the same
   * cells in the same order, and agree on which of them are liquid.
   */
  lemma ChannelFillsAgree(d: Dimensions, layerIndex: nat, ch: Channel, isChannelColumn: nat -> bool,
                          cells: seq<Write<CellFiller>>, columns: seq<Write<ColumnBuilder>>)
    requires ThermalCellsOf(d, layerIndex, ch, isChannelColumn, cells)
    requires MatrixColumnsOf(d, layerIndex, ch, isChannelColumn, columns)
    ensures |cells| == |columns|
    ensures forall m :: 0 <= m < |cells| ==>
      cells[m].cell == columns[m].cell && (IsLiquidFiller(cells[m].kind) <==> IsLiquidBuilder(columns[m].kind))
  {
    var a := LayerArea(d);
    if ch.model == Mc4Rm {
      SublayerAgrees(d, layerIndex, layerIndex * a, ch, isChannelColumn, 0, cells, columns);
    } else {
      SublayerAgrees(d, layerIndex, layerIndex * a, ch, isChannelColumn, 0, cells[..a], columns[..a]);
      SublayerAgrees(d, layerIndex + 1, (layerIndex + 1) * a, ch, isChannelColumn, 1, cells[a..2 * a], columns[a..2 * a]);
      SublayerAgrees(d, layerIndex + 2, (layerIndex + 2) * a, ch, isChannelColumn, 2, cells[2 * a..3 * a], columns[2 * a..3 * a]);
      SublayerAgrees(d, layerIndex + 3, (layerIndex + 3) * a, ch, isChannelColumn, 3, cells[3 * a..], columns[3 * a..]);
      JoinBlocks(Agree, a, cells, columns);
    }
  }

  /* ---------------------------------------------------------------------- */
  /* Inlet sources                                                           */

  /** The arguments of the CCONV_* macro the model selects; the formulas themselves are a parameter. */
  datatype Convection =
    | ConvPf(vhc: real, darcyVelocity: real, cellLength: real, height: real)
    | ConvMc2Rm(nChannels: int, vhc: real, flowRate: real, porosity: real, cellLength: real, length: real)
    | ConvMc4Rm(nChannels: int, vhc: real, flowRate: real)

  /** `(Quantity_t)(q + 0.5)` for a non-negative q: rounding half up. */
  function RoundHalfUp(q: real): (n: int)
    requires q >= 0.0
    ensures n >= 0 && n as real - 0.5 <= q < n as real + 0.5
  {
    (q + 0.5).Floor
  }

  /** `(NColumns - 1) / 2` on 32-bit unsigned values: the number of channels of a 4RM cavity. */
  function Channels4Rm(d: Dimensions): (n: int)
    ensures d.nColumns > 0 ==> 2 * n + 1 <= d.nColumns <= 2 * n + 2
    ensures d.nColumns == 0 ==> n == 0x7FFF_FFFF
  {
    if d.nColumns == 0 then (0x1_0000_0000 - 1) / 2 else (d.nColumns - 1) / 2
  }

  /** The convection arguments fill_sources_channel passes, chosen by channel model. */
  function ConvectionOf(d: Dimensions, ch: Channel, cellLength0: real, chipLength: real): Convection
    requires ch.model == Mc2Rm ==> ch.pitch > 0.0 && chipLength >= 0.0
  {
    if IsPinFin(ch.model) then
      ConvPf(ch.coolantVhc, ch.darcyVelocity, cellLength0, ch.height)
    else if ch.model == Mc2Rm then
      ConvMc2Rm(RoundHalfUp(chipLength / ch.pitch), ch.coolantVhc, ch.coolantFr, ch.porosity, cellLength0, ch.length)
    else
      ConvMc4Rm(Channels4Rm(d), ch.coolantVhc, ch.coolantFr)
  }

  /** The layer holding the coolant: the third sub-layer in 2RM and pin-fin models, the channel layer otherwise. */
  function SourcesLayer(m: ChannelModel, layerIndex: nat): nat
  {
    if m == Mc2Rm || IsPinFin(m) then layerIndex + 2 else layerIndex
  }

  /** The cells that receive the inlet source: row 0 of the coolant layer, and in 4RM only channel columns. */
  predicate InletCell(ch: Channel, layerIndex: nat, isChannelColumn: nat -> bool, x: Cell)
  {
    x.layer == SourcesLayer(ch.model, layerIndex) && x.row == 0
    && (ch.model != Mc4Rm || isChannelColumn(x.column))
  }

  /** The flat indices of row 0 of a layer are exactly the row-0 cells of that layer. */
  lemma RowZeroIndex(d: Dimensions, layer: nat, x: Cell)
    requires InGrid(d, x) && layer < d.nLayers
    ensures var base := layer * LayerArea(d);
      base <= Index(d, x) < base + d.nColumns <==> x.layer == layer && x.row == 0
  {
    var base := layer * LayerArea(d);
    var i := Index(d, x);
    if base <= i < base + d.nColumns {
      var y := Cell(layer, 0, i - base);
      assert d.nRows > 0;
      IndexInjective(d, x, y);
    }
  }

  /**
   * fill_sources_channel: writes 2·C·Tin into row 0 of the coolant layer
   * (in 4RM only on channel columns) and leaves every other source as it was.
   */
  method FillSourcesChannel(sources: seq<real>, d: Dimensions, layerIndex: nat, ch: Channel,
                            isChannelColumn: nat -> bool, cconv: Convection -> real,
                            cellLength0: real, chipLength: real)
    returns (r: seq<real>)
    requires |sources| == NumberOfCells(d)
    requires SourcesLayer(ch.model, layerIndex) < d.nLayers && (d.nColumns > 0 ==> d.nRows > 0)
    requires ch.model == Mc2Rm ==> ch.pitch > 0.0 && chipLength >= 0.0
    ensures |r| == |sources|
    ensures forall x :: InGrid(d, x) ==>
      r[Index(d, x)] == if InletCell(ch, layerIndex, isChannelColumn, x)
                        then 2.0 * cconv(ConvectionOf(d, ch, cellLength0, chipLength)) * ch.coolantTIn
                        else sources[Index(d, x)]
  {
    var layer := SourcesLayer(ch.model, layerIndex);
    var c := cconv(ConvectionOf(d, ch, cellLength0, chipLength));
    var v := 2.0 * c * ch.coolantTIn;
    var base := layer * LayerArea(d);
    RowZeroFits(d, layer);
    r := sources;
    var column := 0;
    while column < d.nColumns
      invariant 0 <= column <= d.nColumns && |r| == |sources|
      invariant forall i :: 0 <= i < |r| ==>
        r[i] == if base <= i < base + column && (ch.model != Mc4Rm || isChannelColumn(i - base)) then v else sources[i]
    {
      if ch.model != Mc4Rm || isChannelColumn(column) {
        r := r[base + column := v];
      }
      column := column + 1;
    }
    forall x | InGrid(d, x)
      ensures r[Index(d, x)] == if InletCell(ch, layerIndex, isChannelColumn, x) then v else sources[Index(d, x)]
    {
      RowZeroIndex(d, layer, x);
    }
  }

  lemma RowZeroFits(d: Dimensions, layer: nat)
    requires layer < d.nLayers && (d.nColumns > 0 ==> d.nRows > 0)
    ensures layer * LayerArea(d) + d.nColumns <= NumberOfCells(d)
  {
    if d.nColumns > 0 {
      MulMonotone(layer + 1, d.nLayers, LayerArea(d));
      MulMonotone(1, d.nRows, d.nColumns);
      assert (layer + 1) * LayerArea(d) == layer * LayerArea(d) + LayerArea(d);
    }
  }

  /** In every defined model, the inlet sources land on cells the thermal fill made liquid. */
  lemma InletCellsAreLiquid(d: Dimensions, layerIndex: nat, ch: Channel, isChannelColumn: nat -> bool,
                            cells: seq<Write<CellFiller>>, x: Cell)
    requires ch.model != Undefined
    requires ThermalCellsOf(d, layerIndex, ch, isChannelColumn, cells)
    requires InGrid(d, x) && InletCell(ch, layerIndex, isChannelColumn, x)
    ensures exists m :: 0 <= m < |cells| && cells[m].cell == x && IsLiquidFiller(cells[m].kind)
  {
    var a := LayerArea(d);
    if ch.model == Mc4Rm {
      WalkVisitsOnce(d, layerIndex, FillerOf(ch, isChannelColumn, 0), cells, x);
    } else {
      var liquid := cells[2 * a..3 * a];
      WalkVisitsOnce(d, layerIndex + 2, FillerOf(ch, isChannelColumn, 2), liquid, x);
      var k :| 0 <= k < |liquid| && liquid[k].cell == x;
      assert cells[2 * a + k] == liquid[k];
    }
  }
}
