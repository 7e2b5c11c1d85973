/** Which cell sizes let closed rooms hold their players: the exact condition, about the states that the program
    reaches. Where it fails, a room and a history of a player who leaves it. */
module CellSizes {
  import opened TileMap
  import opened Physics
  import opened Motion
  import opened Reach
  import opened Falling
  import opened Containment
  import opened Ladders

  /** A player fits into fewer than 2^30 cells of this size, well within the range of cell coordinates. */
  const FINEST: real := 0.000000001
  const MAX_CELLS: int := 0x4000_0000

  predicate InRange(b: Room) {
    IsInt32(b.left) && IsInt32(b.right) && IsInt32(b.floor) && IsInt32(b.ceiling)
  }

  predicate Escapes(m: Grid, b: Room, s: Phys, cmd: InputCmd, dt: real) {
    var t := Simulate(m, s, cmd, dt);
    !Inside(m, b, t.x, t.y)
  }

  /** On maps with these cell sizes, no step off the ladders takes a player out of a closed room, from any state in it
      that the program reaches. */
  ghost predicate Confines(csx: real, csy: real) {
    forall m: Grid, b, s, cmd, dt ::
      && m.csx == csx && m.csy == csy && ClosedRoom(m, b) && InRange(b) && 0.0 < dt < 0.1
      && Reachable(m, s, dt) && !s.isOnLadder && Inside(m, b, s.x, s.y) ==>
        !Escapes(m, b, s, cmd, dt)
  }

  // ---- Boxes of every size ----

  /** A border around `n` columns and `k` rows. */
  function Border(n: nat, k: nat): set<int> {
    set c, r | -1 <= c <= n && -1 <= r <= k && (c == -1 || c == n || r == -1 || r == k) :: PackCell(c, r)
  }

  function Box(csx: real, csy: real, n: nat, k: nat, floating: set<int>): Grid
    requires csx > 0.0 && csy > 0.0
  {
    Tiles(Border(n, k), {}, floating, csx, csy, true)
  }

  function Walls(n: nat, k: nat): Room { Room(-1, n, -1, k) }

  lemma EdgeSum(c: int, n: int, size: real)
    ensures Edge(c + n, size) == Edge(c, size) + n as real * size
  {
    assert (c + n) as real == c as real + n as real;
  }

  /** The columns and rows that a length takes. */
  function Cells(length: real, size: real): (n: nat)
    requires length > 0.0 && size > 0.0
    ensures n >= 1
  {
    assert length / size > 0.0;
    Ceil(length / size)
  }

  lemma BelowQuotient(n: int, length: real, size: real)
    requires size > 0.0 && (n - 1) as real < length / size
    ensures (n - 1) as real * size < length
  {
    var q := length / size;
    assert q * size == length;
    MulLess((n - 1) as real, q, size);
  }

  lemma QuotientAtMost(a: real, length: real, size: real)
    requires size > 0.0 && length / size <= a
    ensures length <= a * size
  {
    var q := length / size;
    assert q * size == length;
    MulMono(q, a, size);
  }

  /** Enough, and one fewer is not enough. */
  lemma CellsCover(length: real, size: real)
    requires length > 0.0 && size > 0.0
    ensures length <= Edge(Cells(length, size), size) < length + size
  {
    hide Edge;
    var q := length / size;
    var n := Cells(length, size);
    CeilAtLeast(q);
    assert q <= n as real && (n - 1) as real < q;
    QuotientAtMost(n as real, length, size);
    EdgeIs(n, size);
    EdgeIs(n - 1, size);
    NextEdge(n - 1, size);
    BelowQuotient(n, length, size);
  }

  /** No fewer would do. */
  lemma CellsFewest(length: real, size: real, limit: int)
    requires length > 0.0 && size > 0.0 && Edge(limit, size) >= length
    ensures Cells(length, size) <= limit
  {
    hide Edge, Cells;
    var n := Cells(length, size);
    CellsCover(length, size);
    NextEdge(n - 1, size);
    if limit < n {
      EdgeMono(limit, n - 1, size);
    }
  }

  /** The columns of the narrowest boxes, and the rows of the lowest ones that are this high. */
  lemma BoxCells(csx: real, csy: real, height: real)
    requires csx >= FINEST && FINEST <= csy < FAR && 1.0 <= height <= 2.0 && (csy > 0.1 || height == 1.0)
    ensures var n, k := Cells(2.0 * PLAYER_HALF_W, csx), Cells(height, csy);
            && 1 <= n <= MAX_CELLS && n as real * csx >= 2.0 * PLAYER_HALF_W
            && 1 <= k <= MAX_CELLS && height <= k as real * csy < FAR
  {
    hide Cells;
    CellsCover(2.0 * PLAYER_HALF_W, csx);
    CellsFewest(2.0 * PLAYER_HALF_W, csx, MAX_CELLS);
    CellsCover(height, csy);
    if csy > 0.1 {
      CellsFewest(height, csy, 20);
    } else {
      CellsFewest(height, csy, MAX_CELLS);
    }
    if csy >= height {
      CellsFewest(height, csy, 1);
    }
  }

  lemma BorderCells(n: nat, k: nat, cx: int, cy: int)
    requires 1 <= n <= MAX_CELLS
    ensures cy < -1 || cy > k ==> PackCell(cx, cy) !in Border(n, k)
    ensures 0 <= cy < k ==> (PackCell(cx, cy) in Border(n, k) <==> cx % TWO_32 in {TWO_32 - 1, n})
    ensures (cy == -1 || cy == k) && 0 <= cx < n ==> PackCell(cx, cy) in Border(n, k)
  {
    SameKey(cx, cy, -1, cy);
    SameKey(cx, cy, n, cy);
    if PackCell(cx, cy) in Border(n, k) {
      var c, r :| -1 <= c <= n && -1 <= r <= k && (c == -1 || c == n || r == -1 || r == k)
                  && PackCell(c, r) == PackCell(cx, cy);
      SameKey(cx, cy, c, r);
    }
    if 0 <= cy < k {
      assert PackCell(-1, cy) in Border(n, k) && PackCell(n, cy) in Border(n, k);
    }
  }

  lemma BoxEdges(csx: real, csy: real, n: nat, k: nat, floating: set<int>)
    requires csx > 0.0 && csy > 0.0
    ensures var m, b := Box(csx, csy, n, k, floating), Walls(n, k);
            && InnerLeft(m, b) == 0.0 && InnerRight(m, b) == n as real * csx
            && InnerFloor(m, b) == 0.0 && InnerCeiling(m, b) == k as real * csy
  {
  }

  lemma BoxIsClosed(csx: real, csy: real, n: nat, k: nat, floating: set<int>)
    requires csx > 0.0 && csy > 0.0 && 1 <= n <= MAX_CELLS
    requires n as real * csx >= 2.0 * PLAYER_HALF_W && 2.0 * PLAYER_HALF_H <= k as real * csy < FAR
    ensures ClosedRoom(Box(csx, csy, n, k, floating), Walls(n, k))
  {
    hide Border, PackCell, Edge;
    var m := Box(csx, csy, n, k, floating);
    BoxEdges(csx, csy, n, k, floating);
    forall cx, cy
      ensures 0 <= cy < k ==> (m.IsSolid(cx, cy) <==> cx % TWO_32 in {TWO_32 - 1, n})
      ensures (cy == -1 || cy == k) && 0 <= cx < n ==> m.IsSolid(cx, cy)
    {
      BorderCells(n, k, cx, cy);
    }
  }

  /** No row of a box within the player's width is solid inside it or above it. */
  lemma BoxRowsFree(csx: real, csy: real, n: nat, k: nat, floating: set<int>, x: real, cy: int)
    requires csx > 0.0 && csy > 0.0 && 1 <= n <= MAX_CELLS
    requires PLAYER_HALF_W <= x <= n as real * csx - PLAYER_HALF_W
    ensures var m := Box(csx, csy, n, k, floating);
            && 0 <= SpanMin(m, x) <= SpanMax(m, x) < n
            && (0 <= cy < k || cy > k ==> !RowSolid(m, x, cy))
            && (cy == -1 ==> RowSolid(m, x, cy))
  {
    hide Border, PackCell, Edge, WorldToCell;
    var m := Box(csx, csy, n, k, floating);
    BoxEdges(csx, csy, n, k, floating);
    SpanInside(m, Walls(n, k), x);
    forall cx | 0 <= cx < n
      ensures 0 <= cy < k || cy > k ==> !m.IsSolid(cx, cy)
      ensures cy == -1 ==> m.IsSolid(cx, cy)
    {
      BorderCells(n, k, cx, cy);
    }
    assert cy == -1 ==> m.IsSolid(SpanMin(m, x), cy);
  }

  lemma FootRowFrom(m: Grid, y: real, r: int)
    requires Edge(r, m.csy) <= y - PLAYER_HALF_H - GROUND_THRESHOLD < Edge(r, m.csy) + m.csy
    ensures FootRow(m, y) == r
  {
    NextEdge(r, m.csy);
    CellOf(y - PLAYER_HALF_H - GROUND_THRESHOLD, m.csy, r);
  }

  lemma BoxSize(csx: real, csy: real, n: nat, k: nat, floating: set<int>)
    requires csx > 0.0 && csy > 0.0
    ensures Box(csx, csy, n, k, floating).csy == csy && Box(csx, csy, n, k, floating).loaded
  {
  }

  /** Whatever row the head is in, it is above the ceiling row. */
  lemma PastCeiling(csx: real, csy: real, n: nat, k: nat, x: real, y: real)
    requires csx > 0.0 && csy > 0.0 && 1 <= n <= MAX_CELLS
    requires PLAYER_HALF_W <= x <= n as real * csx - PLAYER_HALF_W
    requires y + PLAYER_HALF_H + GROUND_THRESHOLD >= k as real * csy + csy
    ensures !Ceiling(Box(csx, csy, n, k, {}), x, y).hit
  {
    hide Edge, WorldToCell, RowSolid, Box;
    var m := Box(csx, csy, n, k, {});
    assert m.csy == csy && m.loaded by { BoxEdges(csx, csy, n, k, {}); BoxSize(csx, csy, n, k, {}); }
    EdgeIs(k, csy);
    NextEdge(k, csy);
    CellBetween(y + PLAYER_HALF_H + GROUND_THRESHOLD, csy, k + 1);
    BoxRowsFree(csx, csy, n, k, {}, x, HeadRow(m, y));
  }

  // ---- Which sizes have closed rooms at all ----

  lemma NoRoomTooHigh(m: Grid, b: Room)
    requires m.csy >= FAR
    ensures !ClosedRoom(m, b)
  {
    hide Edge;
    EdgeIs(-1, m.csy);
    EdgeIs(1, m.csy);
    if b.floor + 1 <= -1 {
      EdgeMono(b.floor + 1, -1, m.csy);
    } else if b.ceiling >= 1 {
      EdgeMono(1, b.ceiling, m.csy);
    } else {
      EdgeMono(b.ceiling, b.floor + 1, m.csy);
    }
  }

  /** Closed rooms exist unless a single row is out of range of the collision queries. */
  lemma RoomsExactly(csx: real, csy: real)
    requires csx >= FINEST && csy >= FINEST
    ensures (exists m: Grid, b :: m.csx == csx && m.csy == csy && ClosedRoom(m, b) && InRange(b)) <==> csy < FAR
  {
    if csy < FAR {
      var n, k := Cells(2.0 * PLAYER_HALF_W, csx), Cells(1.0, csy);
      BoxCells(csx, csy, 1.0);
      BoxIsClosed(csx, csy, n, k, {});
      assert Box(csx, csy, n, k, {}).csx == csx && InRange(Walls(n, k));
    } else {
      forall m: Grid, b | m.csx == csx && m.csy == csy ensures !ClosedRoom(m, b) {
        NoRoomTooHigh(m, b);
      }
    }
  }

  // ---- Narrow cells: over the wall's column ----

  /** The first column boundary past the side margin. */
  lemma PastMargin(csx: real) returns (j: int)
    requires FINEST <= csx < 0.51
    ensures 1 <= j <= 10_000_001 && 0.01 < Edge(j, csx) < 0.51
  {
    hide Edge, WorldToCell;
    j := WorldToCell(0.01, csx) + 1;
    CellOf(0.01, csx, j - 1);
    NextEdge(j - 1, csx);
    EdgeIs(0, csx);
    EdgeIs(1, csx);
    EdgeIs(10_000_001, csx);
    CellBetween(0.01, csx, 0);
    CellBetween(0.01, csx, 1);
    CellBetween(0.01, csx, 10_000_001);
  }

  lemma WallMissed(csx: real, csy: real, n: nat, k: nat, j: int, x: real, y: real)
    requires csx > 0.0 && csy > 0.0 && 1 <= n <= MAX_CELLS && 1 <= j <= 10_000_001
    requires x + PLAYER_HALF_W + 0.01 == (n + j) as real * csx
    requires 0.0 <= y - PLAYER_HALF_H && y + PLAYER_HALF_H <= k as real * csy
    ensures !Wall(Box(csx, csy, n, k, {}), x, y, 1.0).hit
  {
    hide Border, PackCell;
    var m := Box(csx, csy, n, k, {});
    BoxEdges(csx, csy, n, k, {});
    RowsInside(m, Walls(n, k), y);
    NextEdge(n + j, csx);
    CellOf((n + j) as real * csx, csx, n + j);
    var cx := n + j;
    forall cy | 0 <= cy < k ensures !m.IsSolid(cx, cy) {
      BorderCells(n, k, cx, cy);
    }
  }

  /** At rest against the right wall, the player steps over the wall's column. */
  lemma NarrowCellsLeak(csx: real, csy: real)
    requires FINEST <= csx && FINEST <= csy < FAR && !HoldsWidth(csx)
    ensures !Confines(csx, csy)
  {
    hide Border, PackCell, ClosedRoom, WorldToCell, Ground, MoveUpDown, Reachable;
    var n, k := Cells(2.0 * PLAYER_HALF_W, csx), Cells(1.0, csy);
    BoxCells(csx, csy, 1.0);
    var j := PastMargin(csx);
    var m, b := Box(csx, csy, n, k, {}), Walls(n, k);
    var s := RestAt(n as real * csx - PLAYER_HALF_W, PLAYER_HALF_H);
    var move := Edge(j, csx) - 0.01;
    var h := move / 5.0;
    var cmd := IDLE_INPUT.(deltaTime := h, moveRight := true);
    BoxIsClosed(csx, csy, n, k, {});
    BoxEdges(csx, csy, n, k, {});
    AtRestAnywhere(m, s.x, s.y, CLIENT_DT);
    assert Inside(m, b, s.x, s.y);
    EdgeSum(n, j, csx);
    WallMissed(csx, csy, n, k, j, s.x + move, s.y);
    WalkFrame(m, s, cmd, CLIENT_DT);
    var t := Accelerate(m, Steer(s, cmd, h), cmd, h);
    AccelerateFrame(m, Steer(s, cmd, h), cmd, h);
    assert MoveX(cmd) * MOVE_SPEED * h == move;
    assert MoveAcross(m, t, cmd, h).x == s.x + move;
    assert Escapes(m, b, s, cmd, CLIENT_DT) && InRange(b);
  }

  // ---- Rising past the ceiling ----

  /** A state in a box with what follows from it being there. */
  ghost predicate Stands(csx: real, csy: real, n: nat, k: nat, s: Phys) {
    && csx > 0.0 && csy > 0.0 && 1 <= n <= MAX_CELLS && 1 <= k <= MAX_CELLS
    && n as real * csx >= 2.0 * PLAYER_HALF_W && 2.0 * PLAYER_HALF_H <= k as real * csy < FAR
    && Reachable(Box(csx, csy, n, k, {}), s, CLIENT_DT) && !s.isOnLadder && s.x == PLAYER_HALF_W
    && 0.0 <= s.y - PLAYER_HALF_H && s.y + PLAYER_HALF_H <= k as real * csy
  }

  /** A rise that reaches past the ceiling row leaves the box. */
  lemma RiseEscapes(csx: real, csy: real, n: nat, k: nat, s: Phys, h: real, vy: real)
    requires Stands(csx, csy, n, k, s) && 0.0 < h < 0.1
    requires var cmd := IDLE_INPUT.(deltaTime := h);
             Accelerate(Box(csx, csy, n, k, {}), Steer(s, cmd, h), cmd, h).vy == vy
    requires vy > 0.0
    requires s.y + Travel(vy, h) + PLAYER_HALF_H > k as real * csy
    requires s.y + Travel(vy, h) + PLAYER_HALF_H + GROUND_THRESHOLD >= k as real * csy + csy
    ensures !Confines(csx, csy)
  {
    hide Border, PackCell, ClosedRoom, WorldToCell, Ground, Ceiling, Wall, Reachable, Travel;
    var m, b := Box(csx, csy, n, k, {}), Walls(n, k);
    var cmd := IDLE_INPUT.(deltaTime := h);
    BoxIsClosed(csx, csy, n, k, {});
    BoxEdges(csx, csy, n, k, {});
    assert Inside(m, b, s.x, s.y) && InRange(b);
    WalkFrame(m, s, cmd, CLIENT_DT);
    BeforeFallFrame(m, s, cmd, h);
    var mid := BeforeFall(m, s, cmd, h);
    PastCeiling(csx, csy, n, k, mid.x, mid.y + Travel(mid.vy, h));
    assert Rise(m, mid, h).y == mid.y + Travel(mid.vy, h);
    assert Escapes(m, b, s, cmd, CLIENT_DT);
  }

  lemma SupportsSolid(m: Grid, x: real, r: int, ign: bool)
    ensures m.floating == {} ==> (RowSupports(m, x, r, ign) <==> RowSolid(m, x, r))
  {
    if m.floating == {} {
      forall cx ensures Supports(m, cx, r, ign) == m.IsSolid(cx, r) {
      }
    }
  }

  /** Whether a player in a box is on the ground. */
  lemma BoxGround(csx: real, csy: real, n: nat, k: nat, s: Phys)
    requires csx > 0.0 && csy > 0.0 && 1 <= n <= MAX_CELLS && n as real * csx >= 2.0 * PLAYER_HALF_W
    requires s.x == PLAYER_HALF_W
    ensures var foot := s.y - PLAYER_HALF_H;
            && (GROUND_THRESHOLD <= foot && foot - GROUND_THRESHOLD < k as real * csy ==>
                  !StartsGrounded(Box(csx, csy, n, k, {}), s))
            && (0.0 <= foot < GROUND_THRESHOLD && foot - GROUND_THRESHOLD >= -csy ==>
                  StartsGrounded(Box(csx, csy, n, k, {}), s))
  {
    hide Border, PackCell, WorldToCell, Edge, RowSolid;
    var m := Box(csx, csy, n, k, {});
    var ign := s.dropThroughTimer > 0.0 || s.vy > 0.0;
    var r := FootRow(m, s.y);
    EdgeIs(-1, csy);
    EdgeIs(0, csy);
    EdgeIs(k, csy);
    CellBetween(s.y - PLAYER_HALF_H - GROUND_THRESHOLD, csy, -1);
    CellBetween(s.y - PLAYER_HALF_H - GROUND_THRESHOLD, csy, 0);
    CellBetween(s.y - PLAYER_HALF_H - GROUND_THRESHOLD, csy, k);
    BoxRowsFree(csx, csy, n, k, {}, s.x, r);
    SupportsSolid(m, s.x, r, ign);
    GroundHit(m, s.x, s.y, ign);
  }

  /** Below the ceiling row and clear of it, a player in a box can be rising. */
  lemma RisingInBox(csx: real, csy: real, n: nat, k: nat, y: real, h: real)
    requires csx > 0.0 && csy > 0.0 && 1 <= n <= MAX_CELLS && 1 <= k <= MAX_CELLS
    requires n as real * csx >= 2.0 * PLAYER_HALF_W && 2.0 * PLAYER_HALF_H <= k as real * csy < FAR
    requires 0.0 < h < 0.1 && 0.0 <= y - PLAYER_HALF_H && y + PLAYER_HALF_H <= k as real * csy
    requires || y + PLAYER_HALF_H + GROUND_THRESHOLD < k as real * csy
             || y + PLAYER_HALF_H + GROUND_THRESHOLD >= k as real * csy + csy
    ensures Stands(csx, csy, n, k, RisingAt(PLAYER_HALF_W, y, h))
  {
    hide Border, PackCell, WorldToCell, Edge, RowSolid, Reachable;
    var m := Box(csx, csy, n, k, {});
    var head := y + PLAYER_HALF_H + GROUND_THRESHOLD;
    if head < k as real * csy {
      EdgeIs(0, csy);
      EdgeIs(k, csy);
      CellBetween(head, csy, 0);
      CellBetween(head, csy, k);
      BoxRowsFree(csx, csy, n, k, {}, PLAYER_HALF_W, HeadRow(m, y));
    } else {
      PastCeiling(csx, csy, n, k, PLAYER_HALF_W, y);
    }
    RisingAnywhere(m, PLAYER_HALF_W, y, h, CLIENT_DT);
  }

  /** Rows no higher than the threshold: the search for the ceiling looks past it. */
  lemma ThinCeilingLeaks(csx: real, csy: real)
    requires FINEST <= csx && FINEST <= csy <= 0.1
    ensures !Confines(csx, csy)
  {
    hide Border, PackCell, ClosedRoom, Confines, Wall, Ceiling, WorldToCell, Ground, Stands, Box, Cells;
    var n, k := Cells(2.0 * PLAYER_HALF_W, csx), Cells(1.0, csy);
    BoxCells(csx, csy, 1.0);
    var h := 0.01;
    var y := k as real * csy - PLAYER_HALF_H;
    var s, cmd := RisingAt(PLAYER_HALF_W, y, h), IDLE_INPUT.(deltaTime := h);
    RisingInBox(csx, csy, n, k, y, h);
    var vy := Accelerate(Box(csx, csy, n, k, {}), Steer(s, cmd, h), cmd, h).vy;
    assert vy >= 9.0;
    assert Travel(vy, h) > 0.0;
    RiseEscapes(csx, csy, n, k, s, h, vy);
  }

  lemma HeavyRise(d: real)
    requires 0.0 < d < HEAVY_RISE - 0.1
    ensures 0.0 < d / GRAVITY < 0.1
    ensures var h := 0.1 - d / 20.0;
            var vy := JUMP_FORCE - d - GRAVITY * h;
            0.0 < h < 0.1 && vy > 0.0 && Travel(vy, h) >= HEAVY_RISE - 0.75 * d
  {
    var e := d / 20.0;
    var h := 0.1 - e;
    assert HEAVY_RISE == 0.7057;
    assert h * h == 0.01 - 0.2 * e + e * e;
    var vy := JUMP_FORCE - d - GRAVITY * h;
    assert vy * h == JUMP_FORCE * h - d * h - GRAVITY * (h * h);
    assert GRAVITY * (h * h) == 0.2943 - 5.886 * e + GRAVITY * (e * e);
    MulMono(e, 0.05, e);
    MulMono(h, 0.1, d);
    assert d * h == h * d;
    assert Travel(vy, h) == vy * h;
  }

  /** A rise in the air that starts clear of the ceiling by just more than the threshold. */
  lemma LowestCellsLeak(csx: real, csy: real)
    requires FINEST <= csx && 0.1 < csy < HEAVY_RISE
    ensures !Confines(csx, csy)
  {
    hide Border, PackCell, ClosedRoom, Confines, Wall, Ceiling, WorldToCell, Ground, Stands, Box, Cells;
    var n, k := Cells(2.0 * PLAYER_HALF_W, csx), Cells(1.5, csy);
    BoxCells(csx, csy, 1.5);
    var d := HEAVY_RISE - csy;
    var h1, h := d / GRAVITY, 0.1 - d / 20.0;
    var y := k as real * csy - PLAYER_HALF_H - GROUND_THRESHOLD - d / 4.0;
    var s, cmd := RisingAt(PLAYER_HALF_W, y, h1), IDLE_INPUT.(deltaTime := h);
    HeavyRise(d);
    RisingInBox(csx, csy, n, k, y, h1);
    BoxGround(csx, csy, n, k, Steer(s, cmd, h));
    var vy := JUMP_FORCE - d - GRAVITY * h;
    assert Launch(h1) == JUMP_FORCE - d;
    assert Accelerate(Box(csx, csy, n, k, {}), Steer(s, cmd, h), cmd, h).vy == vy;
    RiseEscapes(csx, csy, n, k, s, h, vy);
  }

  /** From just under the threshold above the floor of two rows, a rise that skips gravity. */
  lemma LowCellsLeak(csx: real, csy: real)
    requires FINEST <= csx && HEAVY_RISE <= csy && 3.0 * csy < 2.2
    ensures !Confines(csx, csy)
  {
    hide Border, PackCell, ClosedRoom, Confines, Wall, Ceiling, WorldToCell, Ground, Stands, Box, Cells;
    var n := Cells(2.0 * PLAYER_HALF_W, csx);
    BoxCells(csx, csy, 1.0);
    var d := 2.2 - 3.0 * csy;
    var h1, h := d / 4.0 / GRAVITY, 0.1 - d / 40.0;
    var y := PLAYER_HALF_H + GROUND_THRESHOLD - d / 4.0;
    var s, cmd := RisingAt(PLAYER_HALF_W, y, h1), IDLE_INPUT.(deltaTime := h);
    assert 2 as real * csy == 2.0 * csy;
    RisingInBox(csx, csy, n, 2, y, h1);
    BoxGround(csx, csy, n, 2, Steer(s, cmd, h));
    var vy := JUMP_FORCE - d / 4.0;
    assert Launch(h1) == vy;
    assert Accelerate(Box(csx, csy, n, 2, {}), Steer(s, cmd, h), cmd, h).vy == vy;
    assert Travel(vy, h) == 1.0 - 0.275 * d + d * d / 160.0;
    RiseEscapes(csx, csy, n, 2, s, h, vy);
  }

  // ---- Lifted past the ceiling ----

  function Platform(n: nat): set<int> {
    set c | 0 <= c < n :: PackCell(c, 0)
  }

  lemma PlatformRow(csx: real, csy: real, n: nat, x: real)
    requires csx > 0.0 && csy > 0.0 && 1 <= n <= MAX_CELLS
    requires PLAYER_HALF_W <= x <= n as real * csx - PLAYER_HALF_W
    ensures var m := Box(csx, csy, n, 2, Platform(n));
            RowSupports(m, x, 0, false)
  {
    hide Border, WorldToCell;
    var m := Box(csx, csy, n, 2, Platform(n));
    BoxRowsFree(csx, csy, n, 2, Platform(n), x, 0);
    assert m.IsFloatingGround(SpanMin(m, x), 0);
    assert Supports(m, SpanMin(m, x), 0, false);
  }

  /** Two rows a little lower than the player with floating ground in the lower one. At rest with the head against the
      ceiling, the player's feet are within the threshold below the platform, and landing lifts the player. */
  lemma PlatformLeaks(csx: real, csy: real)
    requires FINEST <= csx && 0.9 < csy < 1.0
    ensures !Confines(csx, csy)
  {
    hide Border, PackCell, ClosedRoom, WorldToCell, RowSupports, Wall, Platform, StepsFor, Drop, Fall, Reachable;
    var n := Cells(2.0 * PLAYER_HALF_W, csx);
    BoxCells(csx, csy, 1.0);
    var m, b := Box(csx, csy, n, 2, Platform(n)), Walls(n, 2);
    var h := (csy - 0.9) / 4.0;
    var s, cmd := RestAt(PLAYER_HALF_W, 2.0 * csy - PLAYER_HALF_H), IDLE_INPUT.(deltaTime := h);
    BoxIsClosed(csx, csy, n, 2, Platform(n));
    BoxEdges(csx, csy, n, 2, Platform(n));
    AtRestAnywhere(m, s.x, s.y, CLIENT_DT);
    assert Inside(m, b, s.x, s.y) && InRange(b);
    PlatformRow(csx, csy, n, s.x);
    FootRowFrom(m, s.y, 0);
    FootRowFrom(m, s.y - 2.0 * h, 0);
    TopStep(m, 0);
    WalkFrame(m, s, cmd, CLIENT_DT);
    BeforeFallFrame(m, s, cmd, h);
    var mid := BeforeFall(m, s, cmd, h);
    assert mid.vy == -2.0 && mid.y == s.y && mid.x == s.x && mid.dropThroughTimer == 0.0;
    assert Travel(-2.0, h) == -2.0 * h;
    SingleSubStep(-2.0, h);
    OneSubStep(m, mid.x, mid.y, -2.0 * h, false);
    assert Sink(m, mid, h).y == csy + PLAYER_HALF_H;
    assert Escapes(m, b, s, cmd, CLIENT_DT);
  }

  // ---- The theorem ----

  /** No player leaves any closed room of a cell size exactly if the columns are at least 0.51 wide, one step's longest
      move and the side margin, and the rows at least 1 high or from 2.2 / 3 up to 0.9; or if there are no closed
      rooms of that size. The default cell size of one by one is among them. */
  lemma ConfinesExactlyFrom(csx: real, csy: real)
    requires csx >= FINEST && csy >= FINEST
    ensures Confines(csx, csy) <==> csy >= FAR || (HoldsWidth(csx) && HoldsHeight(csy))
    ensures HoldsWidth(csx) <==> csx >= 0.51
    ensures HoldsHeight(csy) <==> csy >= 1.0 || (2.2 <= 3.0 * csy && csy <= 0.9)
  {
    hide Simulate, ClosedRoom, Inside, Reachable;
    if csy >= FAR {
      RoomsExactly(csx, csy);
    } else if !HoldsWidth(csx) {
      NarrowCellsLeak(csx, csy);
    } else if csy <= 0.1 {
      ThinCeilingLeaks(csx, csy);
    } else if csy < HEAVY_RISE {
      LowestCellsLeak(csx, csy);
    } else if 3.0 * csy < 2.2 {
      LowCellsLeak(csx, csy);
    } else if 0.9 < csy < 1.0 {
      PlatformLeaks(csx, csy);
    } else {
      forall m: Grid, b, s, cmd, dt |
        && m.csx == csx && m.csy == csy && ClosedRoom(m, b) && 0.0 < dt < 0.1
        && Reachable(m, s, dt) && !s.isOnLadder && Inside(m, b, s.x, s.y)
        ensures !Escapes(m, b, s, cmd, dt)
      {
        ReachableInRoom(m, b, s, dt);
        StepStays(m, b, s, cmd, dt);
      }
    }
  }

  /** On a map of such a cell size, whatever a client has sent before, a player in a closed room stays in it for as
      long as it is off the ladders. */
  lemma ConfinedRuns(m: Grid, b: Room, s: Phys, cmds: seq<InputCmd>, dt: real)
    requires HoldsWidth(m.csx) && HoldsHeight(m.csy) && ClosedRoom(m, b) && 0.0 < dt < 0.1
    requires Reachable(m, s, dt) && !s.isOnLadder && Inside(m, b, s.x, s.y)
    ensures var t := Steps(m, s, cmds, dt);
            !t.isOnLadder && Inside(m, b, t.x, t.y)
  {
    hide Reachable, ClosedRoom;
    ReachableInRoom(m, b, s, dt);
    RoomContains(m, b, s, cmds, dt);
  }
}
