/**
 * Dies of the stack (sources/die.c): lookup by name and the order in which
 * the per-layer fillers are called. The layer fillers themselves are not
 * part of this model; each call is recorded with the stack layer it targets.
 */
module Die {
  import opened Wrappers
  import opened Lists

  /** A layer of a die; only its offset within the die matters here. Its identity is its position. */
  datatype Layer = Layer(offset: nat)

  /** struct Die: the layers in list order, and SourceLayer as the position of the active layer (or NULL). */
  datatype Die = Die(id: Option<string>, used: nat, nLayers: nat, layers: seq<Layer>, sourceLayer: Option<nat>)

  /** init_die: Id NULL, counters 0, no layers, no source layer. */
  function InitDie(): (d: Die)
    ensures d.id.None? && d.used == 0 && d.nLayers == 0 && d.layers == [] && d.sourceLayer.None?
  {
    Die(None, 0, 0, [], None)
  }

  /** find_die_in_list: the first die whose Id equals id, or None. */
  function FindDieInList(list: seq<Die>, id: string): (r: Option<nat>)
    requires forall k :: 0 <= k < |list| ==> list[k].id.Some?
    ensures r.Some? ==> r.value < |list| && list[r.value].id == Some(id)
    ensures r.Some? ==> forall j :: 0 <= j < r.value ==> list[j].id != Some(id)
    ensures r.None? <==> forall j :: 0 <= j < |list| ==> list[j].id != Some(id)
  {
    FindFirst(list, (die: Die) => die.id == Some(id))
  }

  /** One call of a layer filler: which filler, on which stack layer. */
  datatype LayerCall = Active(layerIndex: nat) | Empty(layerIndex: nat) | Plain(layerIndex: nat)

  /**
   * fill_thermal_grid_data_die: one call per layer, in list order, on
   * consecutive stack layers starting at layerIndex (the index is incremented
   * after each call, whatever the layer's Offset).
   */
  function FillThermalGridDataDie(layerIndex: nat, layers: seq<Layer>): (calls: seq<LayerCall>)
    ensures |calls| == |layers|
    ensures forall k :: 0 <= k < |layers| ==> calls[k] == Plain(layerIndex + k)
    decreases |layers|
  {
    if layers == [] then []
    else [Plain(layerIndex)] + FillThermalGridDataDie(layerIndex + 1, layers[1..])
  }

  /**
   * fill_sources_die: for each layer in list order, the active-layer filler
   * when it is the die's SourceLayer and the empty-layer filler otherwise,
   * both on stack layer layerIndex + Offset.
   */
  function FillSourcesDie(layerIndex: nat, die: Die): (calls: seq<LayerCall>)
    ensures |calls| == |die.layers|
    ensures forall k :: 0 <= k < |die.layers| ==>
      calls[k].layerIndex == layerIndex + die.layers[k].offset
      && (calls[k].Active? <==> die.sourceLayer == Some(k))
      && (calls[k].Active? || calls[k].Empty?)
  {
    SourceCalls(layerIndex, die.layers, die.sourceLayer, 0)
  }

  function SourceCalls(layerIndex: nat, layers: seq<Layer>, source: Option<nat>, position: nat): (calls: seq<LayerCall>)
    ensures |calls| == |layers|
    ensures forall k :: 0 <= k < |layers| ==>
      calls[k].layerIndex == layerIndex + layers[k].offset
      && (calls[k].Active? <==> source == Some(position + k))
      && (calls[k].Active? || calls[k].Empty?)
    decreases |layers|
  {
    if layers == [] then []
    else
      var here := layerIndex + layers[0].offset;
      [if source == Some(position) then Active(here) else Empty(here)]
      + SourceCalls(layerIndex, layers[1..], source, position + 1)
  }

  /**
   * fill_system_matrix_die: one matrix-filling call per layer, in list order,
   * on stack layer layerIndex + Offset.
   */
  function FillSystemMatrixDie(layerIndex: nat, layers: seq<Layer>): (calls: seq<LayerCall>)
    ensures |calls| == |layers|
    ensures forall k :: 0 <= k < |layers| ==> calls[k] == Plain(layerIndex + layers[k].offset)
  {
    if layers == [] then []
    else [Plain(layerIndex + layers[0].offset)] + FillSystemMatrixDie(layerIndex, layers[1..])
  }

  function CountActive(calls: seq<LayerCall>): nat
  {
    if calls == [] then 0 else (if calls[0].Active? then 1 else 0) + CountActive(calls[1..])
  }

  /** Exactly one layer gets the active filler when SourceLayer is one of the die's layers, none otherwise. */
  lemma {:induction false} OneActiveLayer(layerIndex: nat, die: Die)
    ensures CountActive(FillSourcesDie(layerIndex, die)) == if die.sourceLayer.Some? && die.sourceLayer.value < |die.layers| then 1 else 0
  {
    ActiveCount(FillSourcesDie(layerIndex, die), die.sourceLayer, 0);
  }

  lemma {:induction false} ActiveCount(calls: seq<LayerCall>, source: Option<nat>, position: nat)
    requires forall k :: 0 <= k < |calls| ==> (calls[k].Active? <==> source == Some(position + k))
    ensures CountActive(calls) == if source.Some? && position <= source.value < position + |calls| then 1 else 0
    decreases |calls|
  {
    if calls != [] {
      ActiveCount(calls[1..], source, position + 1);
    }
  }

  /**
   * When the layer offsets are 0, 1, 2, ... (each layer sits at its list
   * position), the thermal-grid, source and matrix fills address the same
   * stack layer for every die layer.
   */
  lemma DieFillsAgree(layerIndex: nat, die: Die)
    requires forall k :: 0 <= k < |die.layers| ==> die.layers[k].offset == k
    ensures var grid := FillThermalGridDataDie(layerIndex, die.layers);
      var sources := FillSourcesDie(layerIndex, die);
      var matrix := FillSystemMatrixDie(layerIndex, die.layers);
      forall k :: 0 <= k < |die.layers| ==>
        grid[k].layerIndex == sources[k].layerIndex == matrix[k].layerIndex == layerIndex + k
  {
  }
}
