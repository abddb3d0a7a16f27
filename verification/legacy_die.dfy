/**
 * Dies of the resistance-based stack (Sources/die.c): lookup, the order of
 * the per-layer calls, and how fill_system_matrix_die threads the
 * Columns/Rows/Values pointers and the count of added entries.
 */
module LegacyDie {
  import opened Wrappers
  import opened Lists
  import opened Grid

  /** A layer of the older stack, identified by an integer Id. */
  datatype Layer = Layer(id: int)

  /** struct Die of the older code: SourcesId names the active layer by Id. */
  datatype Die = Die(id: Option<string>, layers: seq<Layer>, nLayers: nat, sourcesId: int)

  /** init_die: Id and LayersList NULL, NLayers and SourcesId 0. */
  function InitDie(): (d: Die)
    ensures d.id.None? && d.layers == [] && d.nLayers == 0 && d.sourcesId == 0
  {
    Die(None, [], 0, 0)
  }

  /**
   * find_die_in_list: the first die whose Id equals id, or None. It is the
   * same search as Die.FindDieInList, over the older Die type.
   */
  function FindDieInList(list: seq<Die>, id: string): (r: Option<nat>)
    requires forall k :: 0 <= k < |list| ==> list[k].id.Some?
    ensures r.Some? ==> r.value < |list| && list[r.value].id == Some(id)
    ensures r.Some? ==> forall j :: 0 <= j < r.value ==> list[j].id != Some(id)
    ensures r.None? <==> forall j :: 0 <= j < |list| ==> list[j].id != Some(id)
  {
    FindFirst(list, (die: Die) => die.id == Some(id))
  }

  /** fill_resistances_die: one call per layer in list order, current_layer incremented after each. */
  function FillResistancesDie(currentLayer: int, layers: seq<Layer>): (calls: seq<int>)
    ensures |calls| == |layers|
    ensures forall k :: 0 <= k < |layers| ==> calls[k] == currentLayer + k
    decreases |layers|
  {
    if layers == [] then [] else [currentLayer] + FillResistancesDie(currentLayer + 1, layers[1..])
  }

  /** One filler call of fill_sources_die: the layer, which filler, and the sources pointer passed. */
  datatype SourceCall = SourceCall(layer: Layer, active: bool, sources: int)

  /** The calls fill_sources_die makes, in order, and the sources pointer it returns. */
  datatype SourcesFill = SourcesFill(calls: seq<SourceCall>, sources: int)

  /**
   * fill_sources_die: for each layer in list order, the active-layer filler
   * when the layer's Id equals SourcesId and the empty-layer filler
   * otherwise. Each filler gets the sources pointer the previous one
   * returned; both fill one layer of sources and return the pointer past
   * it, so they advance it by the layer area.
   */
  function FillSourcesDie(die: Die, layerArea: nat, sources: int): (r: SourcesFill)
    ensures |r.calls| == |die.layers|
    ensures forall k :: 0 <= k < |die.layers| ==>
      && r.calls[k].layer == die.layers[k]
      && (r.calls[k].active <==> die.layers[k].id == die.sourcesId)
      && r.calls[k].sources == sources + k * layerArea
    ensures r.sources == sources + |die.layers| * layerArea
  {
    SourceCalls(die.layers, die.sourcesId, layerArea, sources)
  }

  function SourceCalls(layers: seq<Layer>, sourcesId: int, layerArea: nat, sources: int): (r: SourcesFill)
    ensures |r.calls| == |layers|
    ensures forall k :: 0 <= k < |layers| ==>
      && r.calls[k].layer == layers[k]
      && (r.calls[k].active <==> layers[k].id == sourcesId)
      && r.calls[k].sources == sources + k * layerArea
    ensures r.sources == sources + |layers| * layerArea
    decreases |layers|
  {
    if layers == [] then SourcesFill([], sources)
    else
      var rest := SourceCalls(layers[1..], sourcesId, layerArea, sources + layerArea);
      var here := SourceCall(layers[0], layers[0].id == sourcesId, sources);
      var r := SourcesFill([here] + rest.calls, rest.sources);
      assert forall k :: 1 <= k < |layers| ==> r.calls[k] == rest.calls[k - 1];
      SourcesShift(|layers|, layerArea);
      r
  }

  /** The pointer arithmetic of one step of SourceCalls. */
  lemma SourcesShift(n: nat, layerArea: nat)
    requires n > 0
    ensures forall k :: 1 <= k < n ==> layerArea + (k - 1) * layerArea == k * layerArea
    ensures layerArea + (n - 1) * layerArea == n * layerArea
  {
    forall k | 1 <= k < n
      ensures layerArea + (k - 1) * layerArea == k * layerArea
    {
      MulSucc(k - 1, layerArea);
    }
    MulSucc(n - 1, layerArea);
  }

  /** Number of calls that get the active-layer filler. */
  function CountActive(calls: seq<SourceCall>): nat
  {
    if calls == [] then 0 else (if calls[0].active then 1 else 0) + CountActive(calls[1..])
  }

  /** No two layers of the list share an Id. */
  predicate DistinctIds(layers: seq<Layer>)
  {
    forall i, j :: 0 <= i < j < |layers| ==> layers[i].id != layers[j].id
  }

  /**
   * When the layer Ids are distinct, exactly one layer gets the active
   * filler if some layer carries SourcesId, and none if no layer does.
   */
  lemma OneActiveLayer(die: Die, layerArea: nat, sources: int)
    requires DistinctIds(die.layers)
    ensures CountActive(FillSourcesDie(die, layerArea, sources).calls)
      == if exists k :: 0 <= k < |die.layers| && die.layers[k].id == die.sourcesId then 1 else 0
  {
    ActiveCount(FillSourcesDie(die, layerArea, sources).calls, die.layers, die.sourcesId);
  }

  lemma {:induction false} ActiveCount(calls: seq<SourceCall>, layers: seq<Layer>, sourcesId: int)
    requires |calls| == |layers| && DistinctIds(layers)
    requires forall k :: 0 <= k < |calls| ==> (calls[k].active <==> layers[k].id == sourcesId)
    ensures CountActive(calls)
      == if exists k :: 0 <= k < |layers| && layers[k].id == sourcesId then 1 else 0
    decreases |calls|
  {
    if calls != [] {
      var tail := layers[1..];
      assert forall k :: 0 <= k < |tail| ==> tail[k] == layers[k + 1];
      ActiveCount(calls[1..], tail, sourcesId);
      if layers[0].id == sourcesId {
        assert forall k :: 0 <= k < |tail| ==> tail[k].id != sourcesId;
      } else if k :| 0 <= k < |layers| && layers[k].id == sourcesId {
        assert tail[k - 1].id == sourcesId;
      }
    }
  }

  /** The arguments of one fill_system_matrix_layer call. */
  datatype LayerCall = LayerCall(layer: Layer, currentLayer: int, cellOffset: int, entryOffset: int)

  /** Total of the entries added by the first k calls. */
  function AddedBefore(calls: seq<LayerCall>, added: LayerCall -> nat, k: nat): int
    requires k <= |calls|
  {
    if k == 0 then 0 else AddedBefore(calls, added, k - 1) + added(calls[k - 1])
  }

  /** calls are the first |calls| calls of the loop below. */
  ghost predicate CallsSoFar(die: Die, layerArea: nat, currentLayer: int, added: LayerCall -> nat, calls: seq<LayerCall>)
  {
    && |calls| <= |die.layers|
    && forall k :: 0 <= k < |calls| ==>
         calls[k] == LayerCall(die.layers[k], currentLayer + k, k * layerArea, AddedBefore(calls, added, k))
  }

  /** The state of the loop below after the calls made so far. */
  ghost predicate LoopState(die: Die, layerArea: nat, currentLayer: int, added: LayerCall -> nat,
                            calls: seq<LayerCall>, current: int, cells: int, entries: int)
  {
    && CallsSoFar(die, layerArea, currentLayer, added, calls)
    && current == currentLayer + |calls| && cells == |calls| * layerArea
    && entries == AddedBefore(calls, added, |calls|)
  }

  /** One more call keeps the loop state, with the pointers advanced as the code advances them. */
  lemma LoopStep(die: Die, layerArea: nat, currentLayer: int, added: LayerCall -> nat,
                 calls: seq<LayerCall>, current: int, cells: int, entries: int)
    requires LoopState(die, layerArea, currentLayer, added, calls, current, cells, entries)
    requires |calls| < |die.layers|
    ensures var call := LayerCall(die.layers[|calls|], current, cells, entries);
      LoopState(die, layerArea, currentLayer, added, calls + [call],
                current + 1, cells + layerArea, entries + added(call))
  {
    var n := |calls|;
    var call := LayerCall(die.layers[n], current, cells, entries);
    var calls' := calls + [call];
    PrefixStable(calls, [call], added, n);
    forall k | 0 <= k < n + 1
      ensures calls'[k] == LayerCall(die.layers[k], currentLayer + k, k * layerArea, AddedBefore(calls', added, k))
    {
      if k < n {
        assert calls'[k] == calls[k];
      } else {
        assert calls'[k] == call && AddedBefore(calls', added, n) == AddedBefore(calls, added, n);
      }
    }
    assert AddedBefore(calls', added, n + 1) == AddedBefore(calls', added, n) + added(call);
    MulSucc(n, layerArea);
  }

  /**
   * fill_system_matrix_die: calls fill_system_matrix_layer once per layer in
   * list order. Between calls current_layer advances by one, the
   * resistances, capacities and Columns pointers by the layer area, and the
   * Rows/Values pointers and the total by the entries the layer added.
   * `added` stands for what each fill_system_matrix_layer call returns.
   */
  method FillSystemMatrixDie(die: Die, layerArea: nat, currentLayer: int, added: LayerCall -> nat)
    returns (total: int, calls: seq<LayerCall>)
    ensures |calls| == |die.layers|
    ensures forall k :: 0 <= k < |calls| ==>
      calls[k] == LayerCall(die.layers[k], currentLayer + k, k * layerArea, AddedBefore(calls, added, k))
    ensures total == AddedBefore(calls, added, |calls|)
  {
    total := 0;
    calls := [];
    var current, cells, entries := currentLayer, 0, 0;
    while |calls| < |die.layers|
      invariant |calls| <= |die.layers|
      invariant LoopState(die, layerArea, currentLayer, added, calls, current, cells, entries)
      invariant total == entries
      decreases |die.layers| - |calls|
    {
      var call := LayerCall(die.layers[|calls|], current, cells, entries);
      var a := added(call);
      LoopStep(die, layerArea, currentLayer, added, calls, current, cells, entries);
      calls := calls + [call];
      current, cells, entries, total := current + 1, cells + layerArea, entries + a, total + a;
    }
  }

  /** Appending calls does not change the totals of the earlier ones. */
  lemma {:induction false} PrefixStable(calls: seq<LayerCall>, more: seq<LayerCall>, added: LayerCall -> nat, k: nat)
    requires k <= |calls|
    ensures forall j :: 0 <= j <= k ==> AddedBefore(calls + more, added, j) == AddedBefore(calls, added, j)
  {
    if k > 0 {
      PrefixStable(calls, more, added, k - 1);
      assert (calls + more)[k - 1] == calls[k - 1];
    }
  }
}
