/** The simulation as the room runs it: a physics state updated in place, collision queries that scan cells, and
    the falling loop. Each method is proved to do what the functions of `Physics` say. */
module Simulation {
  import opened TileMap
  import opened Physics

  /** A player's physics state. */
  class PhysicsState {
    var x: real
    var y: real
    var vx: real
    var vy: real
    var dir: MoveDir
    var isMoving: bool
    var isJumping: bool
    var isGrounded: bool
    var isOnLadder: bool
    var isCrouching: bool
    var ladderCenterX: real
    var ladderMinY: real
    var ladderMaxY: real
    var dropThroughTimer: real
    var lastInputSeq: nat

    constructor ()
      ensures Value() == INITIAL_PHYS
      ensures x == y == vx == vy == 0.0 && dir == Right && isGrounded
      ensures !isMoving && !isJumping && !isOnLadder && !isCrouching
      ensures ladderCenterX == ladderMinY == ladderMaxY == dropThroughTimer == 0.0 && lastInputSeq == 0
    {
      x, y, vx, vy, dir := 0.0, 0.0, 0.0, 0.0, Right;
      isMoving, isJumping, isGrounded, isOnLadder, isCrouching := false, false, true, false, false;
      ladderCenterX, ladderMinY, ladderMaxY, dropThroughTimer, lastInputSeq := 0.0, 0.0, 0.0, 0.0, 0;
    }

    function Value(): Phys
      reads this
    {
      Phys(x, y, vx, vy, dir, isMoving, isJumping, isGrounded, isOnLadder, isCrouching,
           ladderCenterX, ladderMinY, ladderMaxY, dropThroughTimer, lastInputSeq)
    }
  }

  method CheckGround(m: Grid, x: real, y: real, ignoreFloating: bool) returns (r: Hit)
    ensures r == Ground(m, x, y, ignoreFloating)
  {
    var footY := y - PLAYER_HALF_H;
    if !m.loaded {
      return Hit(footY <= GROUND_THRESHOLD, 0.0);
    }
    var cy := WorldToCell(footY - GROUND_THRESHOLD, m.csy);
    var cxMin, cxMax := SpanMin(m, x), SpanMax(m, x);
    var best, hit := -FAR, false;
    var cx := cxMin;
    while cx <= cxMax
      invariant cxMin <= cx
      invariant hit <==> m.CellTopY(cy) <= footY + GROUND_THRESHOLD && m.CellTopY(cy) > -FAR
                         && exists c :: cxMin <= c < cx && c <= cxMax && Supports(m, c, cy, ignoreFloating)
      invariant best == if hit then m.CellTopY(cy) else -FAR
      decreases cxMax - cx
    {
      var solid := m.IsSolid(cx, cy);
      var floating := !ignoreFloating && m.IsFloatingGround(cx, cy);
      assert (solid || floating) == Supports(m, cx, cy, ignoreFloating);
      if solid || floating {
        var tileTop := m.CellTopY(cy);
        if tileTop <= footY + GROUND_THRESHOLD && tileTop > best {
          best, hit := tileTop, true;
        }
      }
      cx := cx + 1;
    }
    return Hit(hit, if hit then best else 0.0);
  }

  method CheckCeiling(m: Grid, x: real, y: real) returns (r: Hit)
    ensures r == Ceiling(m, x, y)
  {
    if !m.loaded {
      return Hit(false, 0.0);
    }
    var cy := WorldToCell(y + PLAYER_HALF_H + GROUND_THRESHOLD, m.csy);
    var cxMin, cxMax := SpanMin(m, x), SpanMax(m, x);
    var best, hit := FAR, false;
    var cx := cxMin;
    while cx <= cxMax
      invariant cxMin <= cx
      invariant hit <==> m.CellBottomY(cy) < FAR && exists c :: cxMin <= c < cx && c <= cxMax && m.IsSolid(c, cy)
      invariant best == if hit then m.CellBottomY(cy) else FAR
      decreases cxMax - cx
    {
      if m.IsSolid(cx, cy) && m.CellBottomY(cy) < best {
        best, hit := m.CellBottomY(cy), true;
      }
      cx := cx + 1;
    }
    return Hit(hit, if hit then best else 0.0);
  }

  method CheckWall(m: Grid, x: real, y: real, moveX: real) returns (r: Hit)
    ensures r == Wall(m, x, y, moveX)
  {
    if !m.loaded || moveX == 0.0 {
      return Hit(false, 0.0);
    }
    var sideX := if moveX > 0.0 then x + PLAYER_HALF_W + 0.01 else x - PLAYER_HALF_W - 0.01;
    var cx := WorldToCell(sideX, m.csx);
    var cyMin := WorldToCell(y - PLAYER_HALF_H + 0.05, m.csy);
    var cyMax := WorldToCell(y + PLAYER_HALF_H - 0.05, m.csy);
    var cy := cyMin;
    while cy <= cyMax
      invariant cyMin <= cy
      invariant forall c :: cyMin <= c < cy && c <= cyMax ==> !m.IsSolid(cx, c)
      decreases cyMax - cy
    {
      if m.IsSolid(cx, cy) {
        return Hit(true, if moveX > 0.0 then m.CellLeftX(cx) - PLAYER_HALF_W else m.CellRightX(cx) + PLAYER_HALF_W);
      }
      cy := cy + 1;
    }
    return Hit(false, 0.0);
  }

  method GetLadderExtent(m: Grid, cx: int, startCy: int) returns (centerX: real, minY: real, maxY: real)
    ensures centerX == (cx as real + 0.5) * m.csx
    ensures minY == m.CellBottomY(LadderLow(m, cx, startCy))
    ensures maxY == m.CellTopY(LadderHigh(m, cx, startCy))
  {
    centerX := (cx as real + 0.5) * m.csx;
    var yMin := startCy;
    while m.IsLadder(cx, yMin - 1)
      invariant LadderLow(m, cx, yMin) == LadderLow(m, cx, startCy)
      decreases Below(m, cx, yMin)
    {
      assert PackCell(cx, yMin - 1) in Below(m, cx, yMin) - Below(m, cx, yMin - 1);
      yMin := yMin - 1;
    }
    var yMax := startCy;
    while m.IsLadder(cx, yMax + 1)
      invariant LadderHigh(m, cx, yMax) == LadderHigh(m, cx, startCy)
      decreases Above(m, cx, yMax)
    {
      assert PackCell(cx, yMax + 1) in Above(m, cx, yMax) - Above(m, cx, yMax + 1);
      yMax := yMax + 1;
    }
    minY := m.CellBottomY(yMin);
    maxY := m.CellTopY(yMax);
  }

  method FindLadder(m: Grid, s: PhysicsState, px: real, py: real)
    modifies s`ladderCenterX, s`ladderMinY, s`ladderMaxY
    ensures s.Value() == WithExtent(m, old(s.Value()), px, py)
  {
    var cx := WorldToCell(px, m.csx);
    var cy := WorldToCell(py, m.csy);
    if !m.IsLadder(cx, cy) {
      cy := cy - 1;
    }
    if m.IsLadder(cx, cy) {
      s.ladderCenterX, s.ladderMinY, s.ladderMaxY := GetLadderExtent(m, cx, cy);
    } else {
      s.ladderCenterX := px;
      s.ladderMinY := py - 0.5;
      s.ladderMaxY := py + 10.0;
    }
  }

  method HandleLadderState(m: Grid, s: PhysicsState, onLadder: bool, px: real, py: real)
    modifies s
    ensures s.Value() == BoardLadder(m, old(s.Value()), onLadder, px, py)
  {
    if !onLadder {
      return;
    }
    s.isOnLadder := true;
    s.x, s.y := px, py;
    s.vx, s.vy := 0.0, 0.0;
    s.isGrounded := false;
    s.isJumping := false;
    if m.loaded {
      FindLadder(m, s, px, py);
    }
  }

  /** Moves along the ladder, no further than its ends. */
  method ClimbWithin(s: PhysicsState, cmd: InputCmd, useDt: real) returns (vy: real)
    modifies s`x, s`y, s`vx, s`vy
    ensures vy == ClimbSpeed(cmd)
    ensures s.Value() == old(s.Value()).(
              vx := 0.0, vy := vy, x := old(s.ladderCenterX), y := ClimbedY(old(s.Value()), cmd, useDt))
  {
    vy := 0.0;
    if cmd.moveUp { vy := CLIMB_SPEED; }
    if cmd.moveDown { vy := -CLIMB_SPEED; }
    s.vx := 0.0;
    s.vy := vy;
    s.x := s.ladderCenterX;
    s.y := s.y + vy * useDt;
    if s.y < s.ladderMinY { s.y := s.ladderMinY; }
    if s.y > s.ladderMaxY + PLAYER_HALF_H { s.y := s.ladderMaxY + PLAYER_HALF_H; }
  }

  /** Whether climbing down has reached solid ground, after the move. */
  method CheckFooting(m: Grid, s: PhysicsState, ghost before: Phys, cmd: InputCmd, ghost h: real) returns (r: Hit)
    requires s.x == before.ladderCenterX && s.y == ClimbedY(before, cmd, h) && s.vy == ClimbSpeed(cmd)
    ensures r == Footing(m, before, cmd, h)
  {
    r := Hit(false, 0.0);
    if s.vy < 0.0 {
      r := CheckGround(m, s.x, s.y, true);
    }
  }

  method StepOff(s: PhysicsState, groundY: real)
    modifies s`isOnLadder, s`y, s`vy, s`vx, s`isGrounded
    ensures s.Value() ==
            old(s.Value()).(isOnLadder := false, y := groundY + PLAYER_HALF_H, vy := 0.0, vx := 0.0, isGrounded := true)
  {
    s.isOnLadder := false;
    s.y := groundY + PLAYER_HALF_H;
    s.vy := 0.0;
    s.vx := 0.0;
    s.isGrounded := true;
  }

  /** A climbing step: at the bottom it may end on solid ground, at the top it leaves the ladder. */
  method ClimbStep(m: Grid, s: PhysicsState, cmd: InputCmd, useDt: real) returns (atBottom: bool)
    requires s.isOnLadder
    modifies s
    ensures atBottom == Footing(m, old(s.Value()), cmd, useDt).hit
    ensures s.Value() == Climb(m, old(s.Value()), cmd, useDt)
  {
    hide Ground;
    s.isCrouching := false;
    ghost var before := s.Value();
    var vy := ClimbWithin(s, cmd, useDt);
    var gr := CheckFooting(m, s, before, cmd, useDt);
    atBottom := gr.hit;
    if gr.hit {
      StepOff(s, gr.at);
    }
    if s.isOnLadder && vy > 0.0 && s.y >= s.ladderMaxY + PLAYER_HALF_H {
      s.isOnLadder := false;
      s.vy := 0.0;
      s.vx := 0.0;
    }
  }

  /** The ladder part of a step; `onFoot` says that ordinary physics follows in the same step. Leaving the ladder
      at the top ends the step. */
  method SimulateLadder(m: Grid, s: PhysicsState, cmd: InputCmd, dt: real) returns (onFoot: bool)
    requires s.isOnLadder
    modifies s
    ensures onFoot == (cmd.jump || Footing(m, old(s.Value()), cmd, UseDt(cmd, dt)).hit)
    ensures s.Value() == if cmd.jump then JumpOff(old(s.Value())) else Climb(m, old(s.Value()), cmd, UseDt(cmd, dt))
  {
    if cmd.jump {
      s.isCrouching := false;
      s.isOnLadder := false;
      s.vy := JUMP_FORCE;
      s.vx := 0.0;
      s.isJumping := true;
      s.isGrounded := false;
      return true;
    }
    onFoot := ClimbStep(m, s, cmd, UseDt(cmd, dt));
  }

  method UpdateSteering(s: PhysicsState, cmd: InputCmd, useDt: real, moveX: real)
    requires moveX == MoveX(cmd)
    modifies s`dropThroughTimer, s`isMoving, s`isCrouching, s`dir
    ensures s.Value() == Steer(old(s.Value()), cmd, useDt)
  {
    if cmd.dropThrough {
      s.dropThroughTimer := 0.25;
    } else if s.dropThroughTimer > 0.0 {
      s.dropThroughTimer := if s.dropThroughTimer - useDt > 0.0 then s.dropThroughTimer - useDt else 0.0;
    }
    assert s.dropThroughTimer == Timer(old(s.Value()), cmd, useDt);
    s.isMoving := moveX != 0.0;
    s.isCrouching := s.isGrounded && cmd.moveDown && !cmd.moveLeft && !cmd.moveRight && !cmd.jump;
    if moveX < 0.0 { s.dir := Left; } else if moveX > 0.0 { s.dir := Right; }
    if cmd.faceDir != NoDir { s.dir := cmd.faceDir; }
    assert s.dir == Facing(old(s.Value()), cmd);
  }

  method UpdateVelocity(m: Grid, s: PhysicsState, cmd: InputCmd, useDt: real)
    modifies s`isGrounded, s`vy, s`isJumping
    ensures s.Value() == Accelerate(m, old(s.Value()), cmd, useDt)
  {
    var ignoreFloating := s.dropThroughTimer > 0.0;
    var ground := CheckGround(m, s.x, s.y, ignoreFloating || s.vy > 0.0);
    assert ground.hit == StartsGrounded(m, old(s.Value()));
    s.isGrounded := ground.hit;
    if s.isGrounded && s.vy <= 0.0 {
      s.vy := -2.0;
    }
    if cmd.jump && s.isGrounded {
      s.vy := JUMP_FORCE;
      s.isJumping := true;
      s.isGrounded := false;
    }
    if !s.isGrounded {
      s.vy := s.vy - GRAVITY * useDt;
      if s.vy < MAX_FALL_SPEED { s.vy := MAX_FALL_SPEED; }
    }
  }

  method Land(s: PhysicsState, groundY: real)
    modifies s`y, s`vy, s`isGrounded, s`isJumping
    ensures s.Value() ==
            old(s.Value()).(y := groundY + PLAYER_HALF_H, vy := -2.0, isGrounded := true, isJumping := false)
  {
    s.y := groundY + PLAYER_HALF_H;
    s.vy := -2.0;
    s.isGrounded := true;
    s.isJumping := false;
  }

  /** The loop of sub-steps, ended by ground. */
  method FallBy(m: Grid, s: PhysicsState, subDt: real, numSteps: nat, ignoreFloating: bool)
    modifies s`y, s`vy, s`isGrounded, s`isJumping
    ensures var f := Fall(m, s.x, old(s.y), Travel(old(s.vy), subDt), ignoreFloating, numSteps);
            s.Value() == if f.landed then old(s.Value()).(y := f.y, vy := -2.0, isGrounded := true, isJumping := false)
                         else old(s.Value()).(y := f.y)
  {
    hide Ground, Travel;
    ghost var drop := Travel(s.vy, subDt);
    var i := 0;
    while i < numSteps
      invariant 0 <= i <= numSteps
      invariant s.vy == old(s.vy) && s.isGrounded == old(s.isGrounded) && s.isJumping == old(s.isJumping)
      invariant Fall(m, s.x, s.y, drop, ignoreFloating, numSteps - i)
             == Fall(m, s.x, old(s.y), drop, ignoreFloating, numSteps)
    {
      s.y := s.y + Travel(s.vy, subDt);
      var gr := CheckGround(m, s.x, s.y, ignoreFloating);
      if gr.hit {
        Land(s, gr.at);
        return;
      }
      i := i + 1;
    }
  }

  method FallInSubSteps(m: Grid, s: PhysicsState, useDt: real, ignoreFloating: bool)
    requires s.vy <= 0.0 && ignoreFloating == (s.dropThroughTimer > 0.0)
    modifies s`y, s`vy, s`isGrounded, s`isJumping
    ensures s.Value() == Sink(m, old(s.Value()), useDt)
  {
    hide Fall, NumSteps, Abs, Travel, Share;
    var totalMove := Abs(Travel(s.vy, useDt));
    var numSteps := NumSteps(totalMove);
    FallBy(m, s, Share(useDt, numSteps), numSteps, ignoreFloating);
  }

  method MoveHorizontally(m: Grid, s: PhysicsState, cmd: InputCmd, useDt: real, moveX: real)
    requires moveX == MoveX(cmd)
    modifies s`x, s`vx
    ensures s.Value() == MoveAcross(m, old(s.Value()), cmd, useDt)
  {
    s.x := s.x + Across(moveX, useDt);
    if moveX != 0.0 {
      var wall := CheckWall(m, s.x, s.y, moveX);
      if wall.hit {
        s.x := wall.at;
        s.vx := 0.0;
      }
    }
  }

  method MoveUp(m: Grid, s: PhysicsState, useDt: real)
    modifies s`y, s`vy
    ensures s.Value() == Rise(m, old(s.Value()), useDt)
  {
    s.y := s.y + s.vy * useDt;
    var ceil := CheckCeiling(m, s.x, s.y);
    if ceil.hit {
      s.y := ceil.at - PLAYER_HALF_H;
      s.vy := 0.0;
    }
  }

  /** Ordinary physics, in the order: timers and facing, velocity, walls, then ground or ceiling. */
  method SimulateOnFoot(m: Grid, s: PhysicsState, cmd: InputCmd, dt: real)
    modifies s
    ensures s.Value() == Walk(m, old(s.Value()), cmd, dt)
  {
    var useDt := if 0.0 < cmd.deltaTime < 0.1 then cmd.deltaTime else dt;
    var moveX := 0.0;
    if cmd.moveLeft { moveX := -1.0; }
    if cmd.moveRight { moveX := 1.0; }
    UpdateSteering(s, cmd, useDt, moveX);
    UpdateVelocity(m, s, cmd, useDt);
    MoveHorizontally(m, s, cmd, useDt, moveX);
    assert s.Value() == BeforeFall(m, old(s.Value()), cmd, useDt);
    if s.vy > 0.0 {
      MoveUp(m, s, useDt);
    } else {
      FallInSubSteps(m, s, useDt, s.dropThroughTimer > 0.0);
    }
    if cmd.inputSeq != 0 {
      s.lastInputSeq := cmd.inputSeq;
    }
  }

  method SimulatePlayer(m: Grid, s: PhysicsState, cmd: InputCmd, dt: real)
    modifies s
    ensures s.Value() == Simulate(m, old(s.Value()), cmd, dt)
  {
    if s.isOnLadder {
      var onFoot := SimulateLadder(m, s, cmd, dt);
      if !onFoot {
        return;
      }
    }
    SimulateOnFoot(m, s, cmd, dt);
  }
}
