/** The authoritative player physics over a tile map, as functions. Lengths and times are exact reals.
    The position is the centre of the player's box; y grows upwards. */
module Physics {
  import opened TileMap

  const MOVE_SPEED: real := 5.0
  const JUMP_FORCE: real := 10.0
  const GRAVITY: real := 29.43
  const GROUND_THRESHOLD: real := 0.1
  const MAX_FALL_SPEED: real := -15.0
  const CLIMB_SPEED: real := 3.0
  const PLAYER_HALF_W: real := 0.3
  const PLAYER_HALF_H: real := 0.5
  const CLIENT_DT: real := 0.02
  const SUB_STEP: real := 0.09
  const FAR: real := 1000000000.0

  datatype MoveDir = NoDir | Left | Right

  datatype InputCmd = InputCmd(
    inputSeq: nat, deltaTime: real, moveLeft: bool, moveRight: bool, jump: bool, dropThrough: bool,
    faceDir: MoveDir, moveUp: bool, moveDown: bool)

  const IDLE_INPUT: InputCmd := InputCmd(0, 0.0, false, false, false, false, NoDir, false, false)

  datatype Phys = Phys(
    x: real, y: real, vx: real, vy: real, dir: MoveDir,
    isMoving: bool, isJumping: bool, isGrounded: bool, isOnLadder: bool, isCrouching: bool,
    ladderCenterX: real, ladderMinY: real, ladderMaxY: real, dropThroughTimer: real, lastInputSeq: nat)

  const INITIAL_PHYS: Phys :=
    Phys(0.0, 0.0, 0.0, 0.0, Right, false, false, true, false, false, 0.0, 0.0, 0.0, 0.0, 0)

  // ---- Collision queries ----

  /** `at` is the ground, ceiling or wall coordinate when there is a hit. */
  datatype Hit = Hit(hit: bool, at: real)

  predicate Supports(m: Grid, cx: int, cy: int, ignoreFloating: bool) {
    m.IsSolid(cx, cy) || (!ignoreFloating && m.IsFloatingGround(cx, cy))
  }

  function SpanMin(m: Grid, x: real): int { WorldToCell(x - PLAYER_HALF_W + 0.01, m.csx) }

  function SpanMax(m: Grid, x: real): int { WorldToCell(x + PLAYER_HALF_W - 0.01, m.csx) }

  /** Some cell of the row within the player's width holds the player up. */
  predicate RowSupports(m: Grid, x: real, cy: int, ignoreFloating: bool) {
    exists cx :: SpanMin(m, x) <= cx <= SpanMax(m, x) && Supports(m, cx, cy, ignoreFloating)
  }

  predicate RowSolid(m: Grid, x: real, cy: int) {
    exists cx :: SpanMin(m, x) <= cx <= SpanMax(m, x) && m.IsSolid(cx, cy)
  }

  predicate ColumnSolid(m: Grid, cx: int, y: real) {
    exists cy :: WorldToCell(y - PLAYER_HALF_H + 0.05, m.csy) <= cy <= WorldToCell(y + PLAYER_HALF_H - 0.05, m.csy)
                 && m.IsSolid(cx, cy)
  }

  function FootRow(m: Grid, y: real): int { WorldToCell(y - PLAYER_HALF_H - GROUND_THRESHOLD, m.csy) }

  function HeadRow(m: Grid, y: real): int { WorldToCell(y + PLAYER_HALF_H + GROUND_THRESHOLD, m.csy) }

  function Ground(m: Grid, x: real, y: real, ignoreFloating: bool): Hit {
    var foot := y - PLAYER_HALF_H;
    if !m.loaded then Hit(foot <= GROUND_THRESHOLD, 0.0)
    else
      var cy := FootRow(m, y);
      var top := m.CellTopY(cy);
      if RowSupports(m, x, cy, ignoreFloating) && -FAR < top <= foot + GROUND_THRESHOLD
      then Hit(true, top) else Hit(false, 0.0)
  }

  function Ceiling(m: Grid, x: real, y: real): Hit {
    if !m.loaded then Hit(false, 0.0)
    else
      var cy := HeadRow(m, y);
      if RowSolid(m, x, cy) && m.CellBottomY(cy) < FAR
      then Hit(true, m.CellBottomY(cy)) else Hit(false, 0.0)
  }

  function Wall(m: Grid, x: real, y: real, moveX: real): Hit {
    if !m.loaded || moveX == 0.0 then Hit(false, 0.0)
    else
      var sideX := if moveX > 0.0 then x + PLAYER_HALF_W + 0.01 else x - PLAYER_HALF_W - 0.01;
      var cx := WorldToCell(sideX, m.csx);
      if ColumnSolid(m, cx, y)
      then Hit(true, if moveX > 0.0 then m.CellLeftX(cx) - PLAYER_HALF_W else m.CellRightX(cx) + PLAYER_HALF_W)
      else Hit(false, 0.0)
  }

  // ---- Falling in sub-steps ----

  function Abs(r: real): real { if r < 0.0 then -r else r }

  function Ceil(r: real): int { -((-r).Floor) }

  function NumSteps(totalMove: real): (n: int)
    ensures n >= 1
  {
    if totalMove > 0.0 && Ceil(totalMove / SUB_STEP) > 1 then Ceil(totalMove / SUB_STEP) else 1
  }

  datatype Landing = Landing(landed: bool, y: real)

  /** `n` sub-steps of `drop` each, ending early on ground. */
  function Fall(m: Grid, x: real, y: real, drop: real, ignoreFloating: bool, n: nat): Landing
    decreases n
  {
    if n == 0 then Landing(false, y)
    else
      var y' := y + drop;
      var g := Ground(m, x, y', ignoreFloating);
      if g.hit then Landing(true, g.at + PLAYER_HALF_H)
      else Fall(m, x, y', drop, ignoreFloating, n - 1)
  }

  // ---- One step on foot or in the air ----

  function UseDt(cmd: InputCmd, dt: real): real {
    if 0.0 < cmd.deltaTime < 0.1 then cmd.deltaTime else dt
  }

  function MoveX(cmd: InputCmd): real {
    if cmd.moveRight then 1.0 else if cmd.moveLeft then -1.0 else 0.0
  }

  function Timer(s: Phys, cmd: InputCmd, h: real): real {
    if cmd.dropThrough then 0.25
    else if s.dropThroughTimer > 0.0 then (if s.dropThroughTimer - h > 0.0 then s.dropThroughTimer - h else 0.0)
    else s.dropThroughTimer
  }

  function Facing(s: Phys, cmd: InputCmd): MoveDir {
    if cmd.faceDir != NoDir then cmd.faceDir
    else if MoveX(cmd) < 0.0 then Left
    else if MoveX(cmd) > 0.0 then Right
    else s.dir
  }

  function Steer(s: Phys, cmd: InputCmd, h: real): Phys {
    s.(dropThroughTimer := Timer(s, cmd, h),
       isMoving := MoveX(cmd) != 0.0,
       isCrouching := s.isGrounded && cmd.moveDown && !cmd.moveLeft && !cmd.moveRight && !cmd.jump,
       dir := Facing(s, cmd))
  }

  /** Whether the step starts on the ground. Floating ground counts only while not rising. */
  function StartsGrounded(m: Grid, s: Phys): bool {
    Ground(m, s.x, s.y, s.dropThroughTimer > 0.0 || s.vy > 0.0).hit
  }

  function Clamped(vy: real): real {
    if vy < MAX_FALL_SPEED then MAX_FALL_SPEED else vy
  }

  /** Sticks to the ground, jumps from it, or falls. */
  function Accelerate(m: Grid, s: Phys, cmd: InputCmd, h: real): Phys {
    var grounded := StartsGrounded(m, s);
    if cmd.jump && grounded then
      s.(vy := Clamped(JUMP_FORCE - GRAVITY * h), isJumping := true, isGrounded := false)
    else if grounded then
      s.(vy := if s.vy <= 0.0 then -2.0 else s.vy, isGrounded := true)
    else
      s.(vy := Clamped(s.vy - GRAVITY * h), isGrounded := false)
  }

  function Across(moveX: real, h: real): real { moveX * MOVE_SPEED * h }

  function MoveAcross(m: Grid, s: Phys, cmd: InputCmd, h: real): Phys {
    var x := s.x + Across(MoveX(cmd), h);
    var w := Wall(m, x, s.y, MoveX(cmd));
    if w.hit then s.(x := w.at, vx := 0.0) else s.(x := x)
  }

  function Travel(v: real, h: real): real { v * h }

  function Share(h: real, n: int): real
    requires n >= 1
  {
    h / n as real
  }

  function StepsFor(vy: real, h: real): (n: int)
    ensures n >= 1
  {
    NumSteps(Abs(Travel(vy, h)))
  }

  /** The vertical move of one sub-step. */
  function Drop(vy: real, h: real): real { Travel(vy, Share(h, StepsFor(vy, h))) }

  function FallFrom(m: Grid, s: Phys, h: real): Landing {
    Fall(m, s.x, s.y, Drop(s.vy, h), s.dropThroughTimer > 0.0, StepsFor(s.vy, h))
  }

  /** Rising is one move, stopped by a ceiling. */
  function Rise(m: Grid, s: Phys, h: real): Phys {
    var y := s.y + Travel(s.vy, h);
    var c := Ceiling(m, s.x, y);
    if c.hit then s.(y := c.at - PLAYER_HALF_H, vy := 0.0) else s.(y := y)
  }

  function Sink(m: Grid, s: Phys, h: real): Phys {
    var f := FallFrom(m, s, h);
    if f.landed then s.(y := f.y, vy := -2.0, isGrounded := true, isJumping := false) else s.(y := f.y)
  }

  function MoveUpDown(m: Grid, s: Phys, h: real): Phys {
    if s.vy > 0.0 then Rise(m, s, h) else Sink(m, s, h)
  }

  function Acknowledge(s: Phys, cmd: InputCmd): Phys {
    if cmd.inputSeq != 0 then s.(lastInputSeq := cmd.inputSeq) else s
  }

  /** The state that the vertical move starts from. */
  function BeforeFall(m: Grid, s: Phys, cmd: InputCmd, h: real): Phys {
    MoveAcross(m, Accelerate(m, Steer(s, cmd, h), cmd, h), cmd, h)
  }

  function Walk(m: Grid, s: Phys, cmd: InputCmd, dt: real): Phys {
    var h := UseDt(cmd, dt);
    Acknowledge(MoveUpDown(m, BeforeFall(m, s, cmd, h), h), cmd)
  }

  // ---- On a ladder ----

  function ClimbSpeed(cmd: InputCmd): real {
    if cmd.moveDown then -CLIMB_SPEED else if cmd.moveUp then CLIMB_SPEED else 0.0
  }

  function LadderTop(s: Phys): real { s.ladderMaxY + PLAYER_HALF_H }

  function ClimbedY(s: Phys, cmd: InputCmd, h: real): real {
    var y := s.y + ClimbSpeed(cmd) * h;
    var y' := if y < s.ladderMinY then s.ladderMinY else y;
    if y' > LadderTop(s) then LadderTop(s) else y'
  }

  /** Climbing down has reached solid ground. */
  function Footing(m: Grid, s: Phys, cmd: InputCmd, h: real): Hit {
    if ClimbSpeed(cmd) < 0.0 then Ground(m, s.ladderCenterX, ClimbedY(s, cmd, h), true) else Hit(false, 0.0)
  }

  function Climb(m: Grid, s: Phys, cmd: InputCmd, h: real): Phys {
    var y := ClimbedY(s, cmd, h);
    var vy := ClimbSpeed(cmd);
    var g := Footing(m, s, cmd, h);
    var s' := s.(vx := 0.0, vy := vy, x := s.ladderCenterX, y := y, isCrouching := false);
    if g.hit then s'.(isOnLadder := false, y := g.at + PLAYER_HALF_H, vy := 0.0, isGrounded := true)
    else if vy > 0.0 && y >= LadderTop(s) then s'.(isOnLadder := false, vy := 0.0)
    else s'
  }

  function JumpOff(s: Phys): Phys {
    s.(isCrouching := false, isOnLadder := false, vy := JUMP_FORCE, vx := 0.0, isJumping := true, isGrounded := false)
  }

  // ---- One simulation step ----

  function Simulate(m: Grid, s: Phys, cmd: InputCmd, dt: real): Phys {
    if !s.isOnLadder then Walk(m, s, cmd, dt)
    else if cmd.jump then Walk(m, JumpOff(s), cmd, dt)
    else
      var h := UseDt(cmd, dt);
      if Footing(m, s, cmd, h).hit then Walk(m, Climb(m, s, cmd, h), cmd, dt) else Climb(m, s, cmd, h)
  }

  // ---- Getting on a ladder ----

  /** The ladder cells of the column below a row; it shrinks as a scan passes them. */
  function Below(m: Tiles, cx: int, cy: int): set<int> {
    set k | k in m.ladder && k < PackCell(cx, cy)
  }

  function Above(m: Tiles, cx: int, cy: int): set<int> {
    set k | k in m.ladder && k > PackCell(cx, cy)
  }

  /** The lowest row reached downwards from `cy` through ladder cells. */
  function LadderLow(m: Tiles, cx: int, cy: int): int
    decreases Below(m, cx, cy)
  {
    if m.IsLadder(cx, cy - 1) then
      assert PackCell(cx, cy - 1) in Below(m, cx, cy) - Below(m, cx, cy - 1);
      LadderLow(m, cx, cy - 1)
    else cy
  }

  function LadderHigh(m: Tiles, cx: int, cy: int): int
    decreases Above(m, cx, cy)
  {
    if m.IsLadder(cx, cy + 1) then
      assert PackCell(cx, cy + 1) in Above(m, cx, cy) - Above(m, cx, cy + 1);
      LadderHigh(m, cx, cy + 1)
    else cy
  }

  /** The extent of the ladder at a position, or one cell below it; a default if there is none. */
  function WithExtent(m: Grid, s: Phys, px: real, py: real): Phys {
    var cx := WorldToCell(px, m.csx);
    var row := WorldToCell(py, m.csy);
    var cy := if m.IsLadder(cx, row) then row else row - 1;
    if m.IsLadder(cx, cy) then
      s.(ladderCenterX := (cx as real + 0.5) * m.csx,
         ladderMinY := m.CellBottomY(LadderLow(m, cx, cy)),
         ladderMaxY := m.CellTopY(LadderHigh(m, cx, cy)))
    else
      s.(ladderCenterX := px, ladderMinY := py - 0.5, ladderMaxY := py + 10.0)
  }

  /** The client reports that it is on a ladder at a position. A report that it has left one is ignored. */
  function BoardLadder(m: Grid, s: Phys, onLadder: bool, px: real, py: real): Phys {
    if !onLadder then s
    else
      var s' := s.(isOnLadder := true, x := px, y := py, vx := 0.0, vy := 0.0, isGrounded := false, isJumping := false);
      if m.loaded then WithExtent(m, s', px, py) else s'
  }
}
