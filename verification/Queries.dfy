/** What the three collision queries answer, said in the edges of single cells, which lie at multiples of
    the cell size (`TileMap.EdgeIs`). */
module Queries {
  import opened TileMap
  import opened Physics
  import opened Falling
  import opened Containment

  /** The cell's columns reach under or over the player's box, less a hundredth on either side. */
  predicate Spans(m: Grid, x: real, cx: int) {
    Edge(cx, m.csx) <= x + 0.29 && x - 0.29 < Edge(cx + 1, m.csx)
  }

  /** The row that the feet, lowered by a tenth, are in has its top at most a tenth above them. */
  predicate UnderFeet(m: Grid, y: real, cy: int) {
    && Edge(cy, m.csy) <= y - 0.6 < Edge(cy + 1, m.csy) <= y - 0.4
    && Edge(cy + 1, m.csy) > -1000000000.0
  }

  /** Some solid cell, or floating one where that counts, is under the feet with this top. Without a map the ground is
      at zero. */
  ghost predicate GroundAt(m: Grid, x: real, y: real, floating: bool, top: real) {
    if !m.loaded then y - 0.5 <= 0.1 && top == 0.0
    else
      exists cx: int, cy: int ::
        && (m.IsSolid(cx, cy) || (floating && m.IsFloatingGround(cx, cy)))
        && Spans(m, x, cx) && UnderFeet(m, y, cy) && top == Edge(cy + 1, m.csy)
  }

  /** The row that the head, raised by a tenth, is in. */
  predicate OverHead(m: Grid, y: real, cy: int) {
    Edge(cy, m.csy) <= y + 0.6 < Edge(cy + 1, m.csy) && Edge(cy, m.csy) < 1000000000.0
  }

  ghost predicate CeilingAt(m: Grid, x: real, y: real, bottom: real) {
    && m.loaded
    && exists cx: int, cy: int ::
         m.IsSolid(cx, cy) && Spans(m, x, cx) && OverHead(m, y, cy) && bottom == Edge(cy, m.csy)
  }

  /** The column that a point just beyond the player's side is in. */
  predicate Beside(m: Grid, x: real, right: bool, cx: int) {
    var side := if right then x + 0.31 else x - 0.31;
    Edge(cx, m.csx) <= side < Edge(cx + 1, m.csx)
  }

  /** The row overlaps the player's box, less a twentieth above and below. */
  predicate Alongside(m: Grid, y: real, cy: int) {
    Edge(cy, m.csy) <= y + 0.45 && y - 0.45 < Edge(cy + 1, m.csy)
  }

  /** Some solid cell is beside the player, who then stands at its near face. */
  ghost predicate WallAt(m: Grid, x: real, y: real, right: bool, stop: real) {
    && m.loaded
    && exists cx: int, cy: int ::
         && m.IsSolid(cx, cy) && Beside(m, x, right, cx) && Alongside(m, y, cy)
         && stop == (if right then Edge(cx, m.csx) - 0.3 else Edge(cx + 1, m.csx) + 0.3)
  }

  lemma SpanIs(m: Grid, x: real, cx: int)
    ensures Spans(m, x, cx) <==> SpanMin(m, x) <= cx <= SpanMax(m, x)
  {
    CellBetween(x + 0.29, m.csx, cx);
    CellBetween(x - 0.29, m.csx, cx + 1);
  }

  lemma UnderIs(m: Grid, y: real, cy: int)
    ensures UnderFeet(m, y, cy) <==>
            FootRow(m, y) == cy && -FAR < m.CellTopY(cy) <= y - PLAYER_HALF_H + GROUND_THRESHOLD
  {
    hide WorldToCell, Edge;
    CellOf(y - PLAYER_HALF_H - GROUND_THRESHOLD, m.csy, cy);
  }

  lemma OverIs(m: Grid, y: real, cy: int)
    ensures OverHead(m, y, cy) <==> HeadRow(m, y) == cy && m.CellBottomY(cy) < FAR
  {
    hide WorldToCell, Edge;
    CellOf(y + PLAYER_HALF_H + GROUND_THRESHOLD, m.csy, cy);
  }

  /** On every map the ground query hits at a top exactly if some cell is under the feet with that top, and otherwise
      answers no hit. */
  lemma GroundExactly(m: Grid, x: real, y: real, floating: bool, top: real)
    ensures Ground(m, x, y, !floating) == Hit(true, top) <==> GroundAt(m, x, y, floating, top)
    ensures Ground(m, x, y, !floating).hit || Ground(m, x, y, !floating) == Hit(false, 0.0)
  {
    hide WorldToCell, UnderFeet, Spans, SpanMin, SpanMax, FootRow;
    if m.loaded {
      var row := FootRow(m, y);
      UnderIs(m, y, row);
      if Ground(m, x, y, !floating) == Hit(true, top) {
        var cx :| SpanMin(m, x) <= cx <= SpanMax(m, x) && Supports(m, cx, row, !floating);
        SpanIs(m, x, cx);
      }
      forall cx: int, cy: int |
        (m.IsSolid(cx, cy) || (floating && m.IsFloatingGround(cx, cy))) && Spans(m, x, cx) && UnderFeet(m, y, cy)
        ensures Ground(m, x, y, !floating) == Hit(true, Edge(cy + 1, m.csy))
      {
        SpanIs(m, x, cx);
        UnderIs(m, y, cy);
        assert Supports(m, cx, cy, !floating);
      }
    }
  }

  lemma CeilingExactly(m: Grid, x: real, y: real, bottom: real)
    ensures Ceiling(m, x, y) == Hit(true, bottom) <==> CeilingAt(m, x, y, bottom)
    ensures Ceiling(m, x, y).hit || Ceiling(m, x, y) == Hit(false, 0.0)
  {
    hide WorldToCell, OverHead, Spans, SpanMin, SpanMax, HeadRow;
    if m.loaded {
      var row := HeadRow(m, y);
      OverIs(m, y, row);
      if Ceiling(m, x, y) == Hit(true, bottom) {
        var cx :| SpanMin(m, x) <= cx <= SpanMax(m, x) && m.IsSolid(cx, row);
        SpanIs(m, x, cx);
      }
      forall cx: int, cy: int | m.IsSolid(cx, cy) && Spans(m, x, cx) && OverHead(m, y, cy)
        ensures Ceiling(m, x, y) == Hit(true, Edge(cy, m.csy))
      {
        SpanIs(m, x, cx);
        OverIs(m, y, cy);
      }
    }
  }

  lemma RowsIs(m: Grid, y: real, cy: int)
    ensures Alongside(m, y, cy) <==>
            WorldToCell(y - PLAYER_HALF_H + 0.05, m.csy) <= cy <= WorldToCell(y + PLAYER_HALF_H - 0.05, m.csy)
  {
    CellBetween(y + 0.45, m.csy, cy);
    CellBetween(y - 0.45, m.csy, cy + 1);
  }

  lemma BesideIs(m: Grid, x: real, right: bool, cx: int)
    ensures Beside(m, x, right, cx) <==>
            WorldToCell(if right then x + PLAYER_HALF_W + 0.01 else x - PLAYER_HALF_W - 0.01, m.csx) == cx
  {
    hide Edge, WorldToCell;
    CellOf(if right then x + PLAYER_HALF_W + 0.01 else x - PLAYER_HALF_W - 0.01, m.csx, cx);
  }

  /** The direction of a move. */
  function Towards(right: bool): real { if right then 1.0 else -1.0 }

  /** A move to the right or left is stopped exactly if some solid cell is beside the new position. */
  lemma WallExactly(m: Grid, x: real, y: real, right: bool, stop: real)
    ensures Wall(m, x, y, Towards(right)) == Hit(true, stop) <==> WallAt(m, x, y, right, stop)
    ensures Wall(m, x, y, Towards(right)).hit || Wall(m, x, y, Towards(right)) == Hit(false, 0.0)
  {
    hide WorldToCell, Edge, Beside, Alongside;
    var col := WorldToCell(if right then x + PLAYER_HALF_W + 0.01 else x - PLAYER_HALF_W - 0.01, m.csx);
    BesideIs(m, x, right, col);
    if Wall(m, x, y, Towards(right)) == Hit(true, stop) {
      var cy :| WorldToCell(y - PLAYER_HALF_H + 0.05, m.csy) <= cy <= WorldToCell(y + PLAYER_HALF_H - 0.05, m.csy)
                && m.IsSolid(col, cy);
      RowsIs(m, y, cy);
      assert m.IsSolid(col, cy) && Beside(m, x, right, col) && Alongside(m, y, cy);
    }
    if WallAt(m, x, y, right, stop) {
      var cx, cy :| m.IsSolid(cx, cy) && Beside(m, x, right, cx) && Alongside(m, y, cy)
                    && stop == (if right then Edge(cx, m.csx) - 0.3 else Edge(cx + 1, m.csx) + 0.3);
      BesideIs(m, x, right, cx);
      RowsIs(m, y, cy);
    }
  }
}
