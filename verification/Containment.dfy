/** A closed room of solid tiles keeps its player in, for every run of inputs with any client delta times, when its
    cells have sizes that no step can pass. */
module Containment {
  import opened TileMap
  import opened Physics
  import opened Motion
  import opened Falling

  /** Columns `left` and `right` and rows `floor` and `ceiling` enclose the cells between them. */
  datatype Room = Room(left: int, right: int, floor: int, ceiling: int)

  function InnerLeft(m: Grid, b: Room): real { m.CellRightX(b.left) }

  function InnerRight(m: Grid, b: Room): real { m.CellLeftX(b.right) }

  function InnerFloor(m: Grid, b: Room): real { m.CellTopY(b.floor) }

  function InnerCeiling(m: Grid, b: Room): real { m.CellBottomY(b.ceiling) }

  /** The enclosing cells are solid, the cells inside are not (floating ground is allowed), and a player fits. */
  ghost predicate ClosedRoom(m: Grid, b: Room) {
    && m.loaded
    && b.left < b.right && b.floor < b.ceiling
    && (forall cy {:trigger m.IsSolid(b.left, cy)} :: b.floor < cy < b.ceiling ==> m.IsSolid(b.left, cy))
    && (forall cy {:trigger m.IsSolid(b.right, cy)} :: b.floor < cy < b.ceiling ==> m.IsSolid(b.right, cy))
    && (forall cx {:trigger m.IsSolid(cx, b.floor)} :: b.left < cx < b.right ==> m.IsSolid(cx, b.floor))
    && (forall cx {:trigger m.IsSolid(cx, b.ceiling)} :: b.left < cx < b.right ==> m.IsSolid(cx, b.ceiling))
    && (forall cx, cy {:trigger m.IsSolid(cx, cy)} ::
          b.left < cx < b.right && b.floor < cy < b.ceiling ==> !m.IsSolid(cx, cy))
    && InnerRight(m, b) - InnerLeft(m, b) >= 2.0 * PLAYER_HALF_W
    && InnerCeiling(m, b) - InnerFloor(m, b) >= 2.0 * PLAYER_HALF_H
    && -FAR < InnerFloor(m, b) && InnerCeiling(m, b) < FAR
  }

  /** The player's box is in the room. */
  predicate Inside(m: Grid, b: Room, x: real, y: real) {
    && InnerLeft(m, b) <= x - PLAYER_HALF_W && x + PLAYER_HALF_W <= InnerRight(m, b)
    && InnerFloor(m, b) <= y - PLAYER_HALF_H && y + PLAYER_HALF_H <= InnerCeiling(m, b)
  }

  predicate BoundedSpeed(s: Phys) {
    MAX_FALL_SPEED <= s.vy <= JUMP_FORCE
  }

  /** A rise goes on only while there is no ceiling within the threshold above the head. */
  predicate Clear(m: Grid, s: Phys) {
    s.vy > 0.0 ==> !Ceiling(m, s.x, s.y).hit
  }

  predicate InRoom(m: Grid, b: Room, s: Phys) {
    !s.isOnLadder && Inside(m, b, s.x, s.y) && BoundedSpeed(s) && Clear(m, s)
  }

  /** The longest rise of a step in which gravity acts. */
  const HEAVY_RISE: real := 0.1 * (JUMP_FORCE - 0.1 * GRAVITY)

  /** Rows that no step can pass or be lifted past: as high as the player, or low enough for no row's top to lie just
      under the feet of a player at the ceiling, and three of them higher than the player, the longest rise of all
      and a threshold at either end. */
  predicate HoldsHeight(csy: real) {
    || csy >= 2.0 * PLAYER_HALF_H
    || (csy <= 2.0 * PLAYER_HALF_H - GROUND_THRESHOLD
        && 3.0 * csy >= 2.0 * PLAYER_HALF_H + 0.1 * JUMP_FORCE + 2.0 * GROUND_THRESHOLD)
  }

  /** Columns as wide as the longest move and the side margin. */
  predicate HoldsWidth(csx: real) {
    csx >= 0.1 * MOVE_SPEED + 0.01
  }

  // ---- Which cells a player inside touches ----

  /** A coordinate on one side of a boundary is in a cell on that side. */
  lemma CellBetween(w: real, cellSize: real, c: int)
    requires cellSize > 0.0
    ensures Edge(c, cellSize) <= w <==> c <= WorldToCell(w, cellSize)
  {
    hide Edge, WorldToCell;
    var d := WorldToCell(w, cellSize);
    CellOf(w, cellSize, d);
    if c <= d {
      EdgeMono(c, d, cellSize);
    } else {
      EdgeMono(d + 1, c, cellSize);
    }
  }

  /** The column span lies strictly between the walls. */
  lemma SpanInside(m: Grid, b: Room, x: real)
    requires InnerLeft(m, b) <= x - PLAYER_HALF_W && x + PLAYER_HALF_W <= InnerRight(m, b)
    ensures b.left < SpanMin(m, x) <= SpanMax(m, x) < b.right
  {
    hide Edge, WorldToCell;
    CellBetween(x - PLAYER_HALF_W + 0.01, m.csx, b.left + 1);
    CellBetween(x + PLAYER_HALF_W - 0.01, m.csx, b.right);
    CellMono(x - PLAYER_HALF_W + 0.01, x + PLAYER_HALF_W - 0.01, m.csx);
  }

  /** The rows checked for walls lie strictly between floor and ceiling. */
  lemma RowsInside(m: Grid, b: Room, y: real)
    requires InnerFloor(m, b) <= y - PLAYER_HALF_H && y + PLAYER_HALF_H <= InnerCeiling(m, b)
    ensures b.floor < WorldToCell(y - PLAYER_HALF_H + 0.05, m.csy)
                  <= WorldToCell(y + PLAYER_HALF_H - 0.05, m.csy) < b.ceiling
  {
    hide Edge, WorldToCell;
    CellBetween(y - PLAYER_HALF_H + 0.05, m.csy, b.floor + 1);
    CellBetween(y + PLAYER_HALF_H - 0.05, m.csy, b.ceiling);
    CellMono(y - PLAYER_HALF_H + 0.05, y + PLAYER_HALF_H - 0.05, m.csy);
  }

  // ---- Horizontally ----

  /** A wall column is hit; a column between the walls is not. */
  lemma ColumnsOfRoom(m: Grid, b: Room, cx: int, y: real)
    requires ClosedRoom(m, b)
    requires InnerFloor(m, b) <= y - PLAYER_HALF_H && y + PLAYER_HALF_H <= InnerCeiling(m, b)
    ensures cx == b.left || cx == b.right ==> ColumnSolid(m, cx, y)
    ensures b.left < cx < b.right ==> !ColumnSolid(m, cx, y)
  {
    RowsInside(m, b, y);
    var cy := WorldToCell(y - PLAYER_HALF_H + 0.05, m.csy);
    if cx == b.left {
      assert m.IsSolid(b.left, cy);
    } else if cx == b.right {
      assert m.IsSolid(b.right, cy);
    }
  }

  lemma RightStays(m: Grid, b: Room, x: real, y: real, move: real)
    requires ClosedRoom(m, b) && HoldsWidth(m.csx) && Inside(m, b, x, y) && 0.0 <= move < 0.5
    ensures var w := Wall(m, x + move, y, 1.0);
            Inside(m, b, if w.hit then w.at else x + move, y)
  {
    hide Edge, WorldToCell, ColumnSolid;
    var side := x + move + PLAYER_HALF_W + 0.01;
    var cx := WorldToCell(side, m.csx);
    NextEdge(b.right, m.csx);
    CellBetween(side, m.csx, b.left + 1);
    CellBetween(side, m.csx, b.right);
    CellBetween(side, m.csx, b.right + 1);
    ColumnsOfRoom(m, b, cx, y);
    assert Wall(m, x + move, y, 1.0) ==
           if ColumnSolid(m, cx, y) then Hit(true, m.CellLeftX(cx) - PLAYER_HALF_W) else Hit(false, 0.0);
  }

  lemma LeftStays(m: Grid, b: Room, x: real, y: real, move: real)
    requires ClosedRoom(m, b) && HoldsWidth(m.csx) && Inside(m, b, x, y) && 0.0 <= move < 0.5
    ensures var w := Wall(m, x - move, y, -1.0);
            Inside(m, b, if w.hit then w.at else x - move, y)
  {
    hide Edge, WorldToCell, ColumnSolid;
    var side := x - move - PLAYER_HALF_W - 0.01;
    var cx := WorldToCell(side, m.csx);
    NextEdge(b.left, m.csx);
    CellBetween(side, m.csx, b.left);
    CellBetween(side, m.csx, b.left + 1);
    CellBetween(side, m.csx, b.right);
    ColumnsOfRoom(m, b, cx, y);
    assert Wall(m, x - move, y, -1.0) ==
           if ColumnSolid(m, cx, y) then Hit(true, m.CellRightX(cx) + PLAYER_HALF_W) else Hit(false, 0.0);
  }

  lemma AcrossStays(m: Grid, b: Room, s: Phys, cmd: InputCmd, h: real)
    requires ClosedRoom(m, b) && HoldsWidth(m.csx) && 0.0 < h < 0.1 && Inside(m, b, s.x, s.y)
    ensures Inside(m, b, MoveAcross(m, s, cmd, h).x, s.y)
  {
    var move := MOVE_SPEED * h;
    if MoveX(cmd) == 1.0 {
      RightStays(m, b, s.x, s.y, move);
    } else if MoveX(cmd) == -1.0 {
      LeftStays(m, b, s.x, s.y, move);
    }
  }

  // ---- Vertically ----

  /** The ceiling row is solid over the player; the rows below it are not. */
  lemma RowsOfRoom(m: Grid, b: Room, x: real, cy: int)
    requires ClosedRoom(m, b)
    requires InnerLeft(m, b) <= x - PLAYER_HALF_W && x + PLAYER_HALF_W <= InnerRight(m, b)
    ensures cy == b.ceiling || cy == b.floor ==> RowSolid(m, x, cy)
    ensures b.floor < cy < b.ceiling ==> !RowSolid(m, x, cy)
  {
    SpanInside(m, b, x);
    if cy == b.ceiling {
      assert m.IsSolid(SpanMin(m, x), b.ceiling);
    } else if cy == b.floor {
      assert m.IsSolid(SpanMin(m, x), b.floor);
    }
  }

  /** A rise that does not reach past the ceiling row stays below it. */
  lemma CeilingStops(m: Grid, b: Room, x: real, y: real, y': real)
    requires ClosedRoom(m, b) && Inside(m, b, x, y) && y <= y'
    requires y' + PLAYER_HALF_H + GROUND_THRESHOLD < InnerCeiling(m, b) + m.csy
    ensures var c := Ceiling(m, x, y');
            Inside(m, b, x, if c.hit then c.at - PLAYER_HALF_H else y')
  {
    hide Edge, WorldToCell, RowSolid;
    var head := y' + PLAYER_HALF_H + GROUND_THRESHOLD;
    NextEdge(b.ceiling, m.csy);
    CellBetween(head, m.csy, b.floor + 1);
    CellBetween(head, m.csy, b.ceiling);
    CellBetween(head, m.csy, b.ceiling + 1);
    RowsOfRoom(m, b, x, HeadRow(m, y'));
  }

  /** A room of rows lower than the player has at least two of them. */
  lemma TwoRows(m: Grid, b: Room)
    requires ClosedRoom(m, b) && m.csy < 1.0
    ensures InnerCeiling(m, b) >= InnerFloor(m, b) + 2.0 * m.csy
  {
    hide Edge;
    NextEdge(b.floor + 1, m.csy);
    NextEdge(b.floor + 2, m.csy);
    if b.ceiling <= b.floor + 2 {
      EdgeMono(b.ceiling, b.floor + 2, m.csy);
    } else {
      EdgeMono(b.floor + 3, b.ceiling, m.csy);
    }
  }

  /** Rising from within the threshold of solid ground means rising from the floor. */
  lemma GroundedLow(m: Grid, b: Room, s: Phys)
    requires ClosedRoom(m, b) && HoldsHeight(m.csy) && Inside(m, b, s.x, s.y)
    requires s.vy > 0.0 && StartsGrounded(m, s)
    ensures s.y - PLAYER_HALF_H < InnerFloor(m, b) + GROUND_THRESHOLD
  {
    hide Edge, WorldToCell;
    var w := s.y - PLAYER_HALF_H - GROUND_THRESHOLD;
    var r := FootRow(m, s.y);
    var cx :| SpanMin(m, s.x) <= cx <= SpanMax(m, s.x) && Supports(m, cx, r, true);
    SpanInside(m, b, s.x);
    CellBetween(w, m.csy, b.floor + 1);
    CellBetween(w, m.csy, b.ceiling);
    assert m.IsSolid(cx, r);
  }

  lemma RiseLength(vy: real, h: real)
    requires 0.0 < vy <= JUMP_FORCE && 0.0 < h < 0.1
    ensures 0.0 < Travel(vy, h) < 1.0
  {
    MulLess(0.0, vy, h);
    MulMono(vy, JUMP_FORCE, h);
  }

  /** Under gravity a rise is shorter. */
  lemma HeavyRiseLength(vy: real, h: real)
    requires 0.0 < vy <= JUMP_FORCE - GRAVITY * h && 0.0 < h < 0.1
    ensures 0.0 < Travel(vy, h) < HEAVY_RISE
  {
    var d := 0.1 - h;
    MulLess(0.0, vy, h);
    MulMono(vy, JUMP_FORCE - GRAVITY * h, h);
    assert d * d >= 0.0;
    assert GRAVITY * h * h == GRAVITY * (h * h);
    assert h * h == 0.01 - 0.2 * d + d * d;
    assert (JUMP_FORCE - GRAVITY * h) * h == 0.7057 - 4.114 * d - GRAVITY * (d * d);
  }

  /** Rising, the head is clear of the ceiling by the threshold. */
  lemma HeadLow(m: Grid, b: Room, s: Phys)
    requires ClosedRoom(m, b) && HoldsHeight(m.csy) && Inside(m, b, s.x, s.y) && !Ceiling(m, s.x, s.y).hit
    ensures s.y + PLAYER_HALF_H + GROUND_THRESHOLD < InnerCeiling(m, b)
  {
    hide Edge, WorldToCell, RowSolid;
    var head := s.y + PLAYER_HALF_H + GROUND_THRESHOLD;
    NextEdge(b.ceiling, m.csy);
    CellBetween(head, m.csy, b.ceiling);
    CellBetween(head, m.csy, b.ceiling + 1);
    RowsOfRoom(m, b, s.x, HeadRow(m, s.y));
  }

  /** On rows lower than the player, anything stood on is at least two rows below the ceiling. */
  lemma StandingLow(m: Grid, b: Room, s: Phys)
    requires m.loaded && m.csy < 0.9 && s.y + PLAYER_HALF_H <= InnerCeiling(m, b) && StartsGrounded(m, s)
    ensures s.y - PLAYER_HALF_H < InnerCeiling(m, b) - 2.0 * m.csy + GROUND_THRESHOLD
  {
    hide Edge;
    var r := FootRow(m, s.y);
    GroundHit(m, s.x, s.y, s.dropThroughTimer > 0.0 || s.vy > 0.0);
    FootRowIs(m, s.y, r);
    NextEdge(r + 1, m.csy);
    NextEdge(r + 2, m.csy);
    if r >= b.ceiling - 1 {
      EdgeMono(b.ceiling, r + 1, m.csy);
    } else if r < b.ceiling - 2 {
      EdgeMono(r + 3, b.ceiling, m.csy);
    }
  }

  lemma RoomLoaded(m: Grid, b: Room)
    requires ClosedRoom(m, b)
    ensures m.loaded
  {
  }

  /** A jump, or a rise in the air, does not reach past the ceiling row. */
  lemma HeavyReach(m: Grid, b: Room, s: Phys, vy: real, h: real)
    requires ClosedRoom(m, b) && HoldsHeight(m.csy) && 0.0 < h < 0.1 && InRoom(m, b, s)
    requires 0.0 < vy <= JUMP_FORCE - GRAVITY * h && (s.vy > 0.0 || StartsGrounded(m, s))
    ensures s.y + Travel(vy, h) + PLAYER_HALF_H + GROUND_THRESHOLD < InnerCeiling(m, b) + m.csy
  {
    hide ClosedRoom, Ground, Ceiling, Travel, Edge;
    HeavyRiseLength(vy, h);
    if s.vy > 0.0 {
      HeadLow(m, b, s);
    } else if m.csy < 0.9 {
      assert m.loaded by { RoomLoaded(m, b); }
      StandingLow(m, b, s);
    }
  }

  /** A rise that skips gravity does not either. */
  lemma SkippingReach(m: Grid, b: Room, s: Phys, h: real)
    requires ClosedRoom(m, b) && HoldsHeight(m.csy) && 0.0 < h < 0.1 && InRoom(m, b, s)
    requires s.vy > 0.0 && StartsGrounded(m, s)
    ensures s.y + Travel(s.vy, h) + PLAYER_HALF_H + GROUND_THRESHOLD < InnerCeiling(m, b) + m.csy
  {
    hide ClosedRoom, Ground, Ceiling, Travel, Edge;
    RiseLength(s.vy, h);
    HeadLow(m, b, s);
    if m.csy < 1.0 {
      GroundedLow(m, b, s);
      TwoRows(m, b);
    }
  }

  /** The vertical move starts too low or is too short to reach past the ceiling row, and starts below the ceiling if
      it does not move at all. */
  lemma RiseReach(m: Grid, b: Room, s: Phys, cmd: InputCmd, h: real)
    requires ClosedRoom(m, b) && HoldsHeight(m.csy) && 0.0 < h < 0.1 && InRoom(m, b, s)
    ensures var vy := BeforeFall(m, s, cmd, h).vy;
            && (vy > 0.0 ==>
                  s.y + Travel(vy, h) + PLAYER_HALF_H + GROUND_THRESHOLD < InnerCeiling(m, b) + m.csy)
            && (vy == 0.0 ==> s.y + PLAYER_HALF_H < InnerCeiling(m, b))
  {
    hide ClosedRoom, Ground, Ceiling, Travel, Edge, HoldsHeight;
    BeforeFallFrame(m, s, cmd, h);
    var t := Steer(s, cmd, h);
    var vy := Accelerate(m, t, cmd, h).vy;
    assert GRAVITY * h > 0.0;
    if vy == 0.0 {
      HeadLow(m, b, s);
    } else if vy > 0.0 {
      if StartsGrounded(m, t) && !cmd.jump {
        SkippingReach(m, b, t, h);
      } else {
        HeavyReach(m, b, t, vy, h);
      }
    }
  }

  lemma RiseStays(m: Grid, b: Room, s: Phys, h: real)
    requires ClosedRoom(m, b) && 0.0 < h < 0.1 && Inside(m, b, s.x, s.y) && 0.0 < s.vy <= JUMP_FORCE
    requires s.y + Travel(s.vy, h) + PLAYER_HALF_H + GROUND_THRESHOLD < InnerCeiling(m, b) + m.csy
    ensures Inside(m, b, s.x, Rise(m, s, h).y)
  {
    hide Ceiling, ClosedRoom, Inside, Travel;
    RiseLength(s.vy, h);
    CeilingStops(m, b, s.x, s.y, s.y + Travel(s.vy, h));
  }

  /** Anything landed on leaves room for the player below the ceiling. */
  lemma LandingFits(m: Grid, b: Room, y: real, r: int)
    requires HoldsHeight(m.csy) && y + PLAYER_HALF_H <= InnerCeiling(m, b)
    requires m.csy >= 1.0 || y + PLAYER_HALF_H < InnerCeiling(m, b)
    requires Top(m, r) <= y - PLAYER_HALF_H + GROUND_THRESHOLD
    ensures Top(m, r) + 2.0 * PLAYER_HALF_H <= InnerCeiling(m, b)
  {
    hide Edge;
    NextEdge(r + 1, m.csy);
    NextEdge(r + 2, m.csy);
    if r >= b.ceiling - 1 {
      EdgeMono(b.ceiling, r + 1, m.csy);
    } else if r < b.ceiling - 2 {
      EdgeMono(r + 3, b.ceiling, m.csy);
    }
  }

  lemma {:induction false} FallFits(m: Grid, b: Room, x: real, y: real, drop: real, ign: bool, n: nat)
    requires m.loaded && HoldsHeight(m.csy) && drop <= 0.0 && y + PLAYER_HALF_H <= InnerCeiling(m, b)
    requires drop < 0.0 || y + PLAYER_HALF_H < InnerCeiling(m, b)
    ensures Fall(m, x, y, drop, ign, n).y + PLAYER_HALF_H <= InnerCeiling(m, b)
    decreases n
  {
    if n > 0 {
      var y' := y + drop;
      GroundHit(m, x, y', ign);
      if Ground(m, x, y', ign).hit {
        LandingFits(m, b, y', FootRow(m, y'));
      } else {
        FallFits(m, b, x, y', drop, ign, n - 1);
      }
    }
  }

  lemma SinkStays(m: Grid, b: Room, s: Phys, h: real)
    requires ClosedRoom(m, b) && HoldsHeight(m.csy) && 0.0 < h && Inside(m, b, s.x, s.y) && s.vy <= 0.0
    requires s.vy == 0.0 ==> s.y + PLAYER_HALF_H < InnerCeiling(m, b)
    ensures Inside(m, b, s.x, Sink(m, s, h).y)
  {
    var ign := s.dropThroughTimer > 0.0;
    SpanInside(m, b, s.x);
    assert m.IsSolid(SpanMin(m, s.x), b.floor);
    assert Supports(m, SpanMin(m, s.x), b.floor, ign);
    SinkStaysAbove(m, s, h, b.floor);
    SubSteps(s.vy, h);
    if s.vy < 0.0 {
      MulLess(s.vy, 0.0, h);
    }
    FallFits(m, b, s.x, s.y, Drop(s.vy, h), ign, StepsFor(s.vy, h));
  }

  // ---- Speed ----

  lemma AccelerateBounded(m: Grid, s: Phys, cmd: InputCmd, h: real)
    requires BoundedSpeed(s) && h > 0.0
    ensures BoundedSpeed(Accelerate(m, s, cmd, h))
  {
    assert GRAVITY * h > 0.0;
  }

  lemma UpDownBounded(m: Grid, s: Phys, h: real)
    requires BoundedSpeed(s)
    ensures BoundedSpeed(MoveUpDown(m, s, h))
  {
  }

  lemma WalkBounded(m: Grid, s: Phys, cmd: InputCmd, dt: real)
    requires BoundedSpeed(s) && UseDt(cmd, dt) > 0.0
    ensures BoundedSpeed(Walk(m, s, cmd, dt))
  {
    hide Rise, Sink;
    var h := UseDt(cmd, dt);
    BeforeFallFrame(m, s, cmd, h);
    AccelerateBounded(m, Steer(s, cmd, h), cmd, h);
    UpDownBounded(m, BeforeFall(m, s, cmd, h), h);
    WalkFrame(m, s, cmd, dt);
  }

  // ---- The theorem ----

  lemma UpDownStays(m: Grid, b: Room, s: Phys, h: real)
    requires ClosedRoom(m, b) && HoldsHeight(m.csy) && 0.0 < h < 0.1 && Inside(m, b, s.x, s.y) && s.vy <= JUMP_FORCE
    requires s.vy > 0.0 ==>
               s.y + Travel(s.vy, h) + PLAYER_HALF_H + GROUND_THRESHOLD < InnerCeiling(m, b) + m.csy
    requires s.vy == 0.0 ==> s.y + PLAYER_HALF_H < InnerCeiling(m, b)
    ensures Inside(m, b, s.x, MoveUpDown(m, s, h).y)
  {
    if s.vy > 0.0 {
      RiseStays(m, b, s, h);
    } else {
      SinkStays(m, b, s, h);
    }
  }

  /** The position and speed reached before the vertical move. */
  lemma BeforeFallStays(m: Grid, b: Room, s: Phys, cmd: InputCmd, h: real)
    requires ClosedRoom(m, b) && HoldsWidth(m.csx) && 0.0 < h < 0.1 && InRoom(m, b, s)
    ensures var t := BeforeFall(m, s, cmd, h);
            !t.isOnLadder && Inside(m, b, t.x, t.y) && BoundedSpeed(t)
  {
    hide Wall, Ground;
    var t := Accelerate(m, Steer(s, cmd, h), cmd, h);
    AccelerateFrame(m, Steer(s, cmd, h), cmd, h);
    AccelerateBounded(m, Steer(s, cmd, h), cmd, h);
    AcrossStays(m, b, t, cmd, h);
    BeforeFallFrame(m, s, cmd, h);
  }

  lemma MoveClear(m: Grid, s: Phys, h: real)
    ensures Clear(m, MoveUpDown(m, s, h))
  {
    hide Ceiling, FallFrom;
  }

  lemma StepStays(m: Grid, b: Room, s: Phys, cmd: InputCmd, dt: real)
    requires ClosedRoom(m, b) && HoldsWidth(m.csx) && HoldsHeight(m.csy) && 0.0 < dt < 0.1 && InRoom(m, b, s)
    ensures InRoom(m, b, Simulate(m, s, cmd, dt))
  {
    hide BeforeFall, MoveUpDown, Ceiling;
    var h := UseDt(cmd, dt);
    WalkFrame(m, s, cmd, dt);
    MoveClear(m, BeforeFall(m, s, cmd, h), h);
    WalkBounded(m, s, cmd, dt);
    BeforeFallStays(m, b, s, cmd, h);
    RiseReach(m, b, s, cmd, h);
    BeforeFallFrame(m, s, cmd, h);
    UpDownStays(m, b, BeforeFall(m, s, cmd, h), h);
  }

  /** A player in a closed room stays in it through every run off the ladders, with any inputs and delta times. */
  lemma {:induction false} RoomContains(m: Grid, b: Room, s: Phys, cmds: seq<InputCmd>, dt: real)
    requires ClosedRoom(m, b) && HoldsWidth(m.csx) && HoldsHeight(m.csy) && 0.0 < dt < 0.1 && InRoom(m, b, s)
    ensures InRoom(m, b, Steps(m, s, cmds, dt))
    decreases |cmds|
  {
    if cmds != [] {
      StepStays(m, b, s, cmds[0], dt);
      RoomContains(m, b, Simulate(m, s, cmds[0], dt), cmds[1..], dt);
    }
  }
}
