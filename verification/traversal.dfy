/**
 * The FOR_EVERY_ROW / FOR_EVERY_COLUMN walk over one layer, with a pointer
 * that starts at the layer's first cell and advances by one per cell.
 */
module Traversal {
  import opened Grid

  /** One visit: the pointer offset used, the cell visited, and what was done there. */
  datatype Write<K> = Write(at: nat, cell: Cell, kind: K)

  /** ws visits the cells of `layer` with a pointer running from start, doing kind(cell) at each. */
  ghost predicate Walk<K>(d: Dimensions, layer: nat, start: nat, kind: Cell -> K, ws: seq<Write<K>>)
  {
    && |ws| == LayerArea(d)
    && (forall k :: 0 <= k < |ws| ==> ws[k].at == start + k)
    && (forall k :: 0 <= k < |ws| ==>
          InGrid(d, ws[k].cell) && ws[k].cell.layer == layer
          && Index(d, ws[k].cell) == ws[k].at && ws[k].kind == kind(ws[k].cell))
  }

  /** The row-major walk over one layer, as the nested FOR_EVERY_ROW/FOR_EVERY_COLUMN loops do it. */
  method VisitLayer<K>(d: Dimensions, layer: nat, kind: Cell -> K) returns (ws: seq<Write<K>>)
    requires layer < d.nLayers
    ensures Walk(d, layer, layer * LayerArea(d), kind, ws)
  {
    var start := layer * LayerArea(d);
    ws := [];
    var p := start;
    var r := 0;
    while r < d.nRows
      invariant 0 <= r <= d.nRows
      invariant |ws| == r * d.nColumns && p == start + |ws|
      invariant forall k :: 0 <= k < |ws| ==> ws[k].at == start + k
      invariant forall k :: 0 <= k < |ws| ==>
        InGrid(d, ws[k].cell) && ws[k].cell.layer == layer
        && Index(d, ws[k].cell) == ws[k].at && ws[k].kind == kind(ws[k].cell)
    {
      var c := 0;
      while c < d.nColumns
        invariant 0 <= c <= d.nColumns
        invariant |ws| == r * d.nColumns + c && p == start + |ws|
        invariant forall k :: 0 <= k < |ws| ==> ws[k].at == start + k
        invariant forall k :: 0 <= k < |ws| ==>
          InGrid(d, ws[k].cell) && ws[k].cell.layer == layer
          && Index(d, ws[k].cell) == ws[k].at && ws[k].kind == kind(ws[k].cell)
      {
        var x := Cell(layer, r, c);
        assert Index(d, x) == p;
        ws := ws + [Write(p, x, kind(x))];
        p := p + 1;
        c := c + 1;
      }
      assert (r + 1) * d.nColumns == r * d.nColumns + d.nColumns;
      r := r + 1;
    }
  }

  /** A walk over a layer visits every cell of that layer exactly once. */
  lemma WalkVisitsOnce<K>(d: Dimensions, layer: nat, kind: Cell -> K, ws: seq<Write<K>>, x: Cell)
    requires Walk(d, layer, layer * LayerArea(d), kind, ws)
    requires InGrid(d, x) && x.layer == layer
    ensures exists k :: 0 <= k < |ws| && ws[k].cell == x
    ensures forall i, j :: 0 <= i < |ws| && 0 <= j < |ws| && ws[i].cell == x && ws[j].cell == x ==> i == j
  {
    var k := x.row * d.nColumns + x.column;
    MulMonotone(x.row + 1, d.nRows, d.nColumns);
    assert (x.row + 1) * d.nColumns == x.row * d.nColumns + d.nColumns;
    assert k < |ws|;
    IndexInjective(d, ws[k].cell, x);
  }

  /** Two walks of the same layer from the same start visit the same cells in the same order. */
  lemma WalksAgree<K, L>(d: Dimensions, layer: nat, start: nat, kind: Cell -> K, kind': Cell -> L,
                         ws: seq<Write<K>>, vs: seq<Write<L>>)
    requires Walk(d, layer, start, kind, ws) && Walk(d, layer, start, kind', vs)
    ensures |ws| == |vs|
    ensures forall m :: 0 <= m < |ws| ==> ws[m].cell == vs[m].cell
  {
    forall m | 0 <= m < |ws|
      ensures ws[m].cell == vs[m].cell
    {
      IndexInjective(d, ws[m].cell, vs[m].cell);
    }
  }

  /**
   * Four consecutive blocks of a layer's area each: a relation that holds
   * position by position in every block holds position by position overall.
   */
  lemma JoinBlocks<K, L>(p: (K, L) -> bool, a: nat, xs: seq<K>, ys: seq<L>)
    requires |xs| == |ys| == 4 * a
    requires forall m :: 0 <= m < a ==> p(xs[..a][m], ys[..a][m])
    requires forall m :: 0 <= m < a ==> p(xs[a..2 * a][m], ys[a..2 * a][m])
    requires forall m :: 0 <= m < a ==> p(xs[2 * a..3 * a][m], ys[2 * a..3 * a][m])
    requires forall m :: 0 <= m < a ==> p(xs[3 * a..][m], ys[3 * a..][m])
    ensures forall m :: 0 <= m < |xs| ==> p(xs[m], ys[m])
  {
    forall m | 0 <= m < |xs|
      ensures p(xs[m], ys[m])
    {
      if m < a {
        assert xs[..a][m] == xs[m] && ys[..a][m] == ys[m];
      } else if m < 2 * a {
        assert xs[a..2 * a][m - a] == xs[m] && ys[a..2 * a][m - a] == ys[m];
      } else if m < 3 * a {
        assert xs[2 * a..3 * a][m - 2 * a] == xs[m] && ys[2 * a..3 * a][m - 2 * a] == ys[m];
      } else {
        assert xs[3 * a..][m - 3 * a] == xs[m] && ys[3 * a..][m - 3 * a] == ys[m];
      }
    }
  }
}
