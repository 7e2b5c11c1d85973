/** The tile map: three sets of packed cell keys and a cell size, loaded from a parsed document of layers. */
module TileMap {

  import opened Options

  // ---- Cells ----

  const TWO_32: int := 0x1_0000_0000

  predicate IsInt32(x: int) {
    -0x8000_0000 <= x < 0x8000_0000
  }

  /** The row in the upper half of the key, the column's 32 bits in the lower half. */
  function PackCell(cx: int, cy: int): int {
    cy * TWO_32 + cx % TWO_32
  }

  lemma PackCellParts(cx: int, cy: int)
    ensures PackCell(cx, cy) / TWO_32 == cy && PackCell(cx, cy) % TWO_32 == cx % TWO_32
  {
  }

  /** Cells share a key if they are in the same row and their columns agree in 32 bits. */
  lemma SameKey(cx: int, cy: int, dx: int, dy: int)
    ensures PackCell(cx, cy) == PackCell(dx, dy) <==> cx % TWO_32 == dx % TWO_32 && cy == dy
  {
    PackCellParts(cx, cy);
    PackCellParts(dx, dy);
  }

  /** Two cells with 32-bit columns share a key only if they are the same cell. */
  lemma PackCellInjective(cx: int, cy: int, dx: int, dy: int)
    requires IsInt32(cx) && IsInt32(dx)
    ensures PackCell(cx, cy) == PackCell(dx, dy) <==> cx == dx && cy == dy
  {
    SameKey(cx, cy, dx, dy);
    assert cx % TWO_32 == (if cx >= 0 then cx else cx + TWO_32);
    assert dx % TWO_32 == (if dx >= 0 then dx else dx + TWO_32);
  }

  function WorldToCell(world: real, cellSize: real): int
    requires cellSize > 0.0
  {
    (world / cellSize).Floor
  }

  /** The lower boundary of a cell. */
  function Edge(c: int, cellSize: real): real {
    c as real * cellSize
  }

  lemma EdgeIs(c: int, size: real)
    ensures Edge(c, size) == c as real * size
  {
  }

  lemma NextEdge(c: int, cellSize: real)
    ensures Edge(c + 1, cellSize) == Edge(c, cellSize) + cellSize
  {
    assert (c + 1) as real == c as real + 1.0;
  }

  lemma MulMono(a: real, b: real, k: real)
    requires a <= b && k >= 0.0
    ensures a * k <= b * k
  {
    assert (b - a) * k >= 0.0;
  }

  lemma EdgeMono(c: int, d: int, cellSize: real)
    requires c <= d && cellSize > 0.0
    ensures Edge(c, cellSize) <= Edge(d, cellSize)
  {
    MulMono(c as real, d as real, cellSize);
  }

  lemma MulLess(a: real, b: real, k: real)
    requires a < b && k > 0.0
    ensures a * k < b * k
  {
    assert (b - a) * k > 0.0;
  }

  lemma AtMostQuotient(a: real, world: real, cellSize: real)
    requires cellSize > 0.0
    ensures a <= world / cellSize <==> a * cellSize <= world
  {
    var q := world / cellSize;
    assert q * cellSize == world;
    if a <= q {
      MulMono(a, q, cellSize);
    } else {
      MulLess(q, a, cellSize);
    }
  }

  lemma FloorIs(q: real, c: int)
    ensures q.Floor == c <==> c as real <= q < (c + 1) as real
  {
    assert q.Floor as real <= q < q.Floor as real + 1.0;
    assert (c + 1) as real == c as real + 1.0;
  }

  /** The cell is the one whose half-open interval contains the coordinate. */
  lemma CellOf(world: real, cellSize: real, c: int)
    requires cellSize > 0.0
    ensures WorldToCell(world, cellSize) == c <==> Edge(c, cellSize) <= world < Edge(c + 1, cellSize)
  {
    AtMostQuotient(c as real, world, cellSize);
    AtMostQuotient((c + 1) as real, world, cellSize);
    FloorIs(world / cellSize, c);
  }

  /** Larger coordinates lie in the same cell or a later one. */
  lemma CellMono(a: real, b: real, cellSize: real)
    requires cellSize > 0.0 && a <= b
    ensures WorldToCell(a, cellSize) <= WorldToCell(b, cellSize)
  {
    var p, q := a / cellSize, b / cellSize;
    if q < p {
      MulLess(q, p, cellSize);
    }
    FloorIs(p, p.Floor);
    FloorIs(q, q.Floor);
  }

  // ---- A loaded map as a value ----

  datatype Tiles = Tiles(
    solid: set<int>, ladder: set<int>, floating: set<int>, csx: real, csy: real, loaded: bool
  ) {
    predicate IsSolid(cx: int, cy: int) { PackCell(cx, cy) in solid }

    predicate IsLadder(cx: int, cy: int) { PackCell(cx, cy) in ladder }

    predicate IsFloatingGround(cx: int, cy: int) { PackCell(cx, cy) in floating }

    function CellTopY(cy: int): real { Edge(cy + 1, csy) }

    function CellBottomY(cy: int): real { Edge(cy, csy) }

    function CellRightX(cx: int): real { Edge(cx + 1, csx) }

    function CellLeftX(cx: int): real { Edge(cx, csx) }
  }

  /** A map whose cells have a positive size. */
  type Grid = t: Tiles | t.csx > 0.0 && t.csy > 0.0 witness Tiles({}, {}, {}, 1.0, 1.0, false)

  // ---- Loading ----

  datatype TileEntry = TileEntry(x: Option<int>, y: Option<int>)

  datatype Layer = Layer(
    name: Option<string>, cellSizeX: Option<real>, cellSizeY: Option<real>, tiles: Option<seq<TileEntry>>)

  /** A parsed document, or why there is none. */
  datatype Document = NoFile | Malformed | NoLayers | Layers(layers: seq<Layer>)

  function KeyOf(t: TileEntry): int {
    PackCell(t.x.GetOr(0), t.y.GetOr(0))
  }

  function EntryKeys(tiles: seq<TileEntry>): set<int> {
    if tiles == [] then {} else EntryKeys(tiles[..|tiles| - 1]) + {KeyOf(tiles[|tiles| - 1])}
  }

  function LayerKeys(layer: Layer, name: string): set<int> {
    if layer.name.GetOr("") == name then EntryKeys(layer.tiles.GetOr([])) else {}
  }

  function Keys(layers: seq<Layer>, name: string): set<int> {
    if layers == [] then {} else Keys(layers[..|layers| - 1], name) + LayerKeys(layers[|layers| - 1], name)
  }

  function SizeAfter(size: (real, real), layer: Layer): (real, real) {
    if size == (1.0, 1.0) then (layer.cellSizeX.GetOr(1.0), layer.cellSizeY.GetOr(1.0)) else size
  }

  function SizeAfterAll(size: (real, real), layers: seq<Layer>): (real, real) {
    if layers == [] then size
    else SizeAfter(SizeAfterAll(size, layers[..|layers| - 1]), layers[|layers| - 1])
  }

  /** Some layer of this name lists the cell. */
  ghost predicate Listed(layers: seq<Layer>, name: string, cx: int, cy: int) {
    exists i, k ::
      && 0 <= i < |layers| && layers[i].name.GetOr("") == name
      && 0 <= k < |layers[i].tiles.GetOr([])|
      && layers[i].tiles.GetOr([])[k].x.GetOr(0) == cx
      && layers[i].tiles.GetOr([])[k].y.GetOr(0) == cy
  }

  /** Every listed column is a 32-bit integer. */
  predicate Columns32(layers: seq<Layer>) {
    forall i, k :: 0 <= i < |layers| && 0 <= k < |layers[i].tiles.GetOr([])| ==>
                     IsInt32(layers[i].tiles.GetOr([])[k].x.GetOr(0))
  }

  lemma {:induction false} EntryKeysAre(tiles: seq<TileEntry>, key: int)
    ensures key in EntryKeys(tiles) <==> exists k :: 0 <= k < |tiles| && KeyOf(tiles[k]) == key
  {
    if tiles != [] {
      var init := tiles[..|tiles| - 1];
      EntryKeysAre(init, key);
      if key in EntryKeys(init) {
        var k :| 0 <= k < |init| && KeyOf(init[k]) == key;
        assert tiles[k] == init[k];
      }
      forall k | 0 <= k < |tiles| && KeyOf(tiles[k]) == key ensures key in EntryKeys(tiles) {
        if k < |init| {
          assert init[k] == tiles[k];
        }
      }
    }
  }

  lemma {:induction false} KeysAre(layers: seq<Layer>, name: string, key: int)
    ensures key in Keys(layers, name) <==> exists i :: 0 <= i < |layers| && key in LayerKeys(layers[i], name)
  {
    if layers != [] {
      var init := layers[..|layers| - 1];
      KeysAre(init, name, key);
      if key in Keys(init, name) {
        var i :| 0 <= i < |init| && key in LayerKeys(init[i], name);
        assert layers[i] == init[i];
      }
      forall i | 0 <= i < |layers| && key in LayerKeys(layers[i], name) ensures key in Keys(layers, name) {
        if i < |init| {
          assert init[i] == layers[i];
        }
      }
    }
  }

  /** A cell's key is in the set for a name exactly when a layer of that name lists the cell, whatever the order
      of the layers and however often a cell or a name occurs. */
  lemma KeysAreListed(layers: seq<Layer>, name: string, cx: int, cy: int)
    requires Columns32(layers) && IsInt32(cx)
    ensures PackCell(cx, cy) in Keys(layers, name) <==> Listed(layers, name, cx, cy)
  {
    var key := PackCell(cx, cy);
    KeysAre(layers, name, key);
    if key in Keys(layers, name) {
      var i :| 0 <= i < |layers| && key in LayerKeys(layers[i], name);
      var tiles := layers[i].tiles.GetOr([]);
      EntryKeysAre(tiles, key);
      var k :| 0 <= k < |tiles| && KeyOf(tiles[k]) == key;
      PackCellInjective(tiles[k].x.GetOr(0), tiles[k].y.GetOr(0), cx, cy);
    }
    if Listed(layers, name, cx, cy) {
      var i, k :| 0 <= i < |layers| && layers[i].name.GetOr("") == name
                  && 0 <= k < |layers[i].tiles.GetOr([])|
                  && layers[i].tiles.GetOr([])[k].x.GetOr(0) == cx
                  && layers[i].tiles.GetOr([])[k].y.GetOr(0) == cy;
      var tiles := layers[i].tiles.GetOr([]);
      assert KeyOf(tiles[k]) == key;
      EntryKeysAre(tiles, key);
      assert key in LayerKeys(layers[i], name);
    }
  }

  /** Each query answers true for exactly the cells that layers of its name list. */
  ghost predicate Indexes(t: Tiles, layers: seq<Layer>) {
    forall cx, cy :: IsInt32(cx) ==>
      && (t.IsSolid(cx, cy) <==> Listed(layers, "Ground", cx, cy))
      && (t.IsLadder(cx, cy) <==> Listed(layers, "Ladder", cx, cy))
      && (t.IsFloatingGround(cx, cy) <==> Listed(layers, "Floating Ground", cx, cy))
  }

  lemma IndexFromKeys(t: Tiles, layers: seq<Layer>)
    requires Columns32(layers)
    requires t.solid == Keys(layers, "Ground")
    requires t.ladder == Keys(layers, "Ladder")
    requires t.floating == Keys(layers, "Floating Ground")
    ensures Indexes(t, layers)
  {
    forall cx, cy | IsInt32(cx)
      ensures && (t.IsSolid(cx, cy) <==> Listed(layers, "Ground", cx, cy))
              && (t.IsLadder(cx, cy) <==> Listed(layers, "Ladder", cx, cy))
              && (t.IsFloatingGround(cx, cy) <==> Listed(layers, "Floating Ground", cx, cy))
    {
      KeysAreListed(layers, "Ground", cx, cy);
      KeysAreListed(layers, "Ladder", cx, cy);
      KeysAreListed(layers, "Floating Ground", cx, cy);
    }
  }

  lemma {:induction false} AllOnes(layers: seq<Layer>)
    requires forall k :: 0 <= k < |layers| ==> SizeAfter((1.0, 1.0), layers[k]) == (1.0, 1.0)
    ensures SizeAfterAll((1.0, 1.0), layers) == (1.0, 1.0)
  {
    if layers != [] {
      AllOnes(layers[..|layers| - 1]);
    }
  }

  /** The size kept is that of the first layer, of any name, whose size is not one by one. */
  lemma {:induction false} SizeIsFirstDeclared(layers: seq<Layer>, i: nat)
    requires i < |layers| && (layers[i].cellSizeX.GetOr(1.0) != 1.0 || layers[i].cellSizeY.GetOr(1.0) != 1.0)
    requires forall k :: 0 <= k < i ==> layers[k].cellSizeX.GetOr(1.0) == 1.0 && layers[k].cellSizeY.GetOr(1.0) == 1.0
    ensures var (width, height) := SizeAfterAll((1.0, 1.0), layers);
            width == layers[i].cellSizeX.GetOr(1.0) && height == layers[i].cellSizeY.GetOr(1.0)
  {
    var init := layers[..|layers| - 1];
    if i < |init| {
      SizeIsFirstDeclared(init, i);
    } else {
      AllOnes(init);
    }
  }

  /** What loading one layer does to the tiles. */
  function AddLayer(t: Tiles, layer: Layer): Tiles {
    var size := SizeAfter((t.csx, t.csy), layer);
    t.(solid := t.solid + LayerKeys(layer, "Ground"),
       ladder := t.ladder + LayerKeys(layer, "Ladder"),
       floating := t.floating + LayerKeys(layer, "Floating Ground"),
       csx := size.0,
       csy := size.1)
  }

  function AddLayers(t: Tiles, layers: seq<Layer>): Tiles {
    if layers == [] then t else AddLayer(AddLayers(t, layers[..|layers| - 1]), layers[|layers| - 1])
  }

  lemma AddLayersExtend(t: Tiles, layers: seq<Layer>, i: nat)
    requires i < |layers|
    ensures AddLayers(t, layers[..i + 1]) == AddLayer(AddLayers(t, layers[..i]), layers[i])
  {
    assert layers[..i + 1][..i] == layers[..i];
  }

  /** Loading onto cleared sets leaves exactly the keys of the document. */
  lemma {:induction false} AddLayersAre(t: Tiles, layers: seq<Layer>)
    requires t.solid == t.ladder == t.floating == {}
    ensures var r := AddLayers(t, layers);
            && r.solid == Keys(layers, "Ground")
            && r.ladder == Keys(layers, "Ladder")
            && r.floating == Keys(layers, "Floating Ground")
            && (r.csx, r.csy) == SizeAfterAll((t.csx, t.csy), layers)
            && r.loaded == t.loaded
  {
    if layers != [] {
      AddLayersAre(t, layers[..|layers| - 1]);
    }
  }

  class Map {
    var solid: set<int>
    var ladder: set<int>
    var floatingGround: set<int>
    var cellSizeX: real
    var cellSizeY: real
    var loaded: bool

    constructor ()
      ensures AsTiles() == Tiles({}, {}, {}, 1.0, 1.0, false)
    {
      solid, ladder, floatingGround := {}, {}, {};
      cellSizeX, cellSizeY, loaded := 1.0, 1.0, false;
    }

    function AsTiles(): Tiles
      reads this
    {
      Tiles(solid, ladder, floatingGround, cellSizeX, cellSizeY, loaded)
    }

    predicate Valid()
      reads this
    {
      cellSizeX > 0.0 && cellSizeY > 0.0
    }

    /** The cell size is read until it differs from one by one; tiles go to the set that the name selects. */
    method LoadLayer(layer: Layer)
      modifies this
      ensures AsTiles() == AddLayer(old(AsTiles()), layer)
    {
      var name := layer.name.GetOr("");
      if cellSizeX == 1.0 && cellSizeY == 1.0 {
        cellSizeX := layer.cellSizeX.GetOr(1.0);
        cellSizeY := layer.cellSizeY.GetOr(1.0);
      }
      var isGround, isLadder, isFloating := name == "Ground", name == "Ladder", name == "Floating Ground";
      if (!isGround && !isLadder && !isFloating) || layer.tiles.None? {
        return;
      }
      var keys := CollectKeys(if isGround then solid else if isLadder then ladder else floatingGround,
                              layer.tiles.value);
      if isGround {
        solid := keys;
      } else if isLadder {
        ladder := keys;
      } else {
        floatingGround := keys;
      }
    }

    /** Replaces the tiles by those of the document. A document without layers changes nothing. */
    method Load(doc: Document) returns (ok: bool)
      modifies this
      ensures ok == doc.Layers?
      ensures !ok ==> AsTiles() == old(AsTiles())
      ensures ok ==>
                && solid == Keys(doc.layers, "Ground")
                && ladder == Keys(doc.layers, "Ladder")
                && floatingGround == Keys(doc.layers, "Floating Ground")
                && (cellSizeX, cellSizeY) == SizeAfterAll(old((cellSizeX, cellSizeY)), doc.layers)
                && loaded
      ensures ok && Columns32(doc.layers) ==> Indexes(AsTiles(), doc.layers)
    {
      if !doc.Layers? {
        return false;
      }
      var layers := doc.layers;
      solid, ladder, floatingGround := {}, {}, {};
      ghost var cleared := AsTiles();
      for i := 0 to |layers|
        invariant AsTiles() == AddLayers(cleared, layers[..i])
      {
        AddLayersExtend(cleared, layers, i);
        LoadLayer(layers[i]);
      }
      assert layers[..|layers|] == layers;
      AddLayersAre(cleared, layers);
      loaded, ok := true, true;
      if Columns32(layers) {
        IndexFromKeys(AsTiles(), layers);
      }
    }
  }

  method CollectKeys(target: set<int>, tiles: seq<TileEntry>) returns (keys: set<int>)
    ensures keys == target + EntryKeys(tiles)
  {
    keys := target;
    for k := 0 to |tiles|
      invariant keys == target + EntryKeys(tiles[..k])
    {
      assert tiles[..k + 1][..k] == tiles[..k];
      keys := keys + {KeyOf(tiles[k])};
    }
    assert tiles[..|tiles|] == tiles;
  }
}
