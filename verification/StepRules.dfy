/** What one simulation step and one ladder report do to a player, in the units of the world: metres, metres per second
    and seconds, and the edges of cells. */
module StepRules {
  import opened TileMap
  import opened Physics
  import opened Motion
  import opened Queries
  import opened Falling
  import opened Ladders

  /** A client's delta time counts if it is between zero and a tenth of a second. */
  function StepTime(cmd: InputCmd, dt: real): real {
    if 0.0 < cmd.deltaTime < 0.1 then cmd.deltaTime else dt
  }

  // ---- Across ----

  /** The right key wins over the left one. */
  function Goal(s: Phys, cmd: InputCmd, h: real): real {
    if cmd.moveRight then s.x + 5.0 * h else if cmd.moveLeft then s.x - 5.0 * h else s.x
  }

  lemma GoalIs(s: Phys, cmd: InputCmd, h: real)
    ensures s.x + Across(MoveX(cmd), h) == Goal(s, cmd, h)
  {
  }

  ghost predicate SomeWall(m: Grid, x: real, y: real, right: bool) {
    exists stop :: WallAt(m, x, y, right, stop)
  }

  lemma WallIs(m: Grid, x: real, y: real, right: bool)
    ensures Wall(m, x, y, Towards(right)).hit == SomeWall(m, x, y, right)
    ensures forall stop :: WallAt(m, x, y, right, stop) ==> stop == Wall(m, x, y, Towards(right)).at
  {
    hide Wall, WallAt;
    WallExactly(m, x, y, right, Wall(m, x, y, Towards(right)).at);
    forall stop | WallAt(m, x, y, right, stop) ensures Wall(m, x, y, Towards(right)) == Hit(true, stop) {
      WallExactly(m, x, y, right, stop);
    }
  }

  /** A move stops at what the wall query answers for its goal. */
  lemma StopsAt(m: Grid, s: Phys, cmd: InputCmd, h: real, w: Hit)
    requires w == Wall(m, Goal(s, cmd, h), s.y, MoveX(cmd))
    ensures MoveAcross(m, s, cmd, h) == if w.hit then s.(x := w.at, vx := 0.0) else s.(x := Goal(s, cmd, h))
  {
    hide Wall, Goal, MoveX, Across;
    GoalIs(s, cmd, h);
  }

  lemma NoWall(m: Grid, x: real, y: real)
    ensures Wall(m, x, y, 0.0) == Hit(false, 0.0)
  {
  }

  lemma MovesAcross(m: Grid, s: Phys, cmd: InputCmd, h: real)
    ensures var t := MoveAcross(m, s, cmd, h);
            var goal := Goal(s, cmd, h);
            && t == s.(x := t.x, vx := t.vx)
            && (forall stop :: (cmd.moveRight || cmd.moveLeft) && WallAt(m, goal, s.y, cmd.moveRight, stop) ==>
                  t.x == stop && t.vx == 0.0)
            && (!((cmd.moveRight || cmd.moveLeft) && SomeWall(m, goal, s.y, cmd.moveRight)) ==>
                  t.x == goal && t.vx == s.vx)
  {
    hide Wall, WallAt, Goal, MoveAcross;
    var goal := Goal(s, cmd, h);
    var w := Wall(m, goal, s.y, MoveX(cmd));
    StopsAt(m, s, cmd, h, w);
    if cmd.moveRight {
      WallIs(m, goal, s.y, true);
    } else if cmd.moveLeft {
      WallIs(m, goal, s.y, false);
    } else {
      NoWall(m, goal, s.y);
    }
  }

  /** Off the ladders, a player moves at five metres a second in the direction of the key. It stops, with no speed
      across, exactly at the face of a solid cell beside its goal. */
  lemma AcrossExactly(m: Grid, s: Phys, cmd: InputCmd, dt: real)
    requires !s.isOnLadder
    ensures var t := Simulate(m, s, cmd, dt);
            var goal := Goal(s, cmd, StepTime(cmd, dt));
            var moves := cmd.moveRight || cmd.moveLeft;
            && (forall stop :: moves && WallAt(m, goal, s.y, cmd.moveRight, stop) ==> t.x == stop && t.vx == 0.0)
            && (!(moves && SomeWall(m, goal, s.y, cmd.moveRight)) ==> t.x == goal && t.vx == s.vx)
  {
    hide MoveAcross, StartsGrounded, MoveUpDown, WallAt, SomeWall;
    var h := UseDt(cmd, dt);
    var t := Accelerate(m, Steer(s, cmd, h), cmd, h);
    assert t.x == s.x && t.y == s.y && t.vx == s.vx;
    MovesAcross(m, t, cmd, h);
    MoveUpDownFrame(m, BeforeFall(m, s, cmd, h), h);
  }

  /** The player faces the way the input says, or else the way it goes, and crouches only on the ground, with down
      pressed and nothing else. */
  lemma LooksExactly(m: Grid, s: Phys, cmd: InputCmd, dt: real)
    requires !s.isOnLadder
    ensures var t := Simulate(m, s, cmd, dt);
            && t.isMoving == (cmd.moveRight || cmd.moveLeft)
            && t.dir == (if cmd.faceDir != NoDir then cmd.faceDir
                         else if cmd.moveRight then Right
                         else if cmd.moveLeft then Left
                         else s.dir)
            && t.isCrouching == (s.isGrounded && cmd.moveDown && !cmd.moveLeft && !cmd.moveRight && !cmd.jump)
  {
    hide Wall, StartsGrounded, MoveUpDown, Timer, Clamped;
    MoveUpDownFrame(m, BeforeFall(m, s, cmd, UseDt(cmd, dt)), UseDt(cmd, dt));
  }

  // ---- Up and down ----

  /** Pressing drop-through lets a player through floating ground for a quarter of a second. */
  function TimeToDrop(s: Phys, cmd: InputCmd, h: real): real {
    if cmd.dropThrough then 0.25
    else if s.dropThroughTimer > h then s.dropThroughTimer - h
    else if s.dropThroughTimer > 0.0 then 0.0
    else s.dropThroughTimer
  }

  ghost predicate SomeGround(m: Grid, x: real, y: real, floating: bool) {
    exists top :: GroundAt(m, x, y, floating, top)
  }

  /** Solid ground within a tenth of the feet, or floating ground if the player neither rises nor drops through. */
  ghost predicate OnGround(m: Grid, s: Phys, cmd: InputCmd, h: real) {
    SomeGround(m, s.x, s.y, TimeToDrop(s, cmd, h) <= 0.0 && s.vy <= 0.0)
  }

  /** A jump starts at ten metres a second, gravity is 29.43, falling is at most fifteen, and standing presses down at
      two. */
  ghost function Speed(m: Grid, s: Phys, cmd: InputCmd, h: real): real {
    if cmd.jump && OnGround(m, s, cmd, h) then 10.0 - 29.43 * h
    else if OnGround(m, s, cmd, h) then (if s.vy <= 0.0 then -2.0 else s.vy)
    else if s.vy - 29.43 * h < -15.0 then -15.0
    else s.vy - 29.43 * h
  }

  lemma GroundIs(m: Grid, x: real, y: real, floating: bool)
    ensures Ground(m, x, y, !floating).hit == SomeGround(m, x, y, floating)
    ensures forall top :: GroundAt(m, x, y, floating, top) ==> top == Ground(m, x, y, !floating).at
  {
    hide Ground, GroundAt;
    GroundExactly(m, x, y, floating, Ground(m, x, y, !floating).at);
    forall top | GroundAt(m, x, y, floating, top) ensures Ground(m, x, y, !floating) == Hit(true, top) {
      GroundExactly(m, x, y, floating, top);
    }
  }

  lemma SpeedIs(m: Grid, s: Phys, cmd: InputCmd, h: real)
    requires 0.0 < h < 0.1
    ensures var t := BeforeFall(m, s, cmd, h);
            var grounded := OnGround(m, s, cmd, h);
            && t.vy == Speed(m, s, cmd, h) && t.y == s.y && t.dropThroughTimer == TimeToDrop(s, cmd, h)
            && t.isGrounded == (grounded && !cmd.jump)
            && t.isJumping == (s.isJumping || (grounded && cmd.jump))
  {
    hide Ground, SomeGround, Wall;
    var t := Steer(s, cmd, h);
    assert Timer(s, cmd, h) == TimeToDrop(s, cmd, h);
    BeforeFallFrame(m, s, cmd, h);
    GroundIs(m, s.x, s.y, true);
    GroundIs(m, s.x, s.y, false);
    assert StartsGrounded(m, t) == OnGround(m, s, cmd, h);
  }

  lemma CeilingIs(m: Grid, x: real, y: real)
    ensures Ceiling(m, x, y).hit <==> exists bottom :: CeilingAt(m, x, y, bottom)
    ensures forall bottom :: CeilingAt(m, x, y, bottom) ==> bottom == Ceiling(m, x, y).at
  {
    hide Ceiling, CeilingAt;
    CeilingExactly(m, x, y, Ceiling(m, x, y).at);
    forall bottom | CeilingAt(m, x, y, bottom) ensures Ceiling(m, x, y) == Hit(true, bottom) {
      CeilingExactly(m, x, y, bottom);
    }
  }

  /** A rise is stopped exactly by a solid cell over the head where it ends. */
  lemma RisesExactly(m: Grid, s: Phys, cmd: InputCmd, dt: real)
    requires !s.isOnLadder && 0.0 < dt < 0.1 && Speed(m, s, cmd, StepTime(cmd, dt)) > 0.0
    ensures var t := Simulate(m, s, cmd, dt);
            var h := StepTime(cmd, dt);
            var vy := Speed(m, s, cmd, h);
            var y := s.y + Travel(vy, h);
            && (forall bottom :: CeilingAt(m, t.x, y, bottom) ==> t.y == bottom - 0.5 && t.vy == 0.0)
            && ((!exists bottom :: CeilingAt(m, t.x, y, bottom)) ==> t.y == y && t.vy == vy)
            && t.isGrounded == (OnGround(m, s, cmd, h) && !cmd.jump)
            && t.isJumping == (s.isJumping || (OnGround(m, s, cmd, h) && cmd.jump))
            && t.dropThroughTimer == TimeToDrop(s, cmd, h)
  {
    hide Speed, OnGround, Ceiling, CeilingAt, BeforeFall, TimeToDrop, Travel, FallFrom;
    var h := StepTime(cmd, dt);
    var mid := BeforeFall(m, s, cmd, h);
    SpeedIs(m, s, cmd, h);
    WalkFrame(m, s, cmd, dt);
    CeilingIs(m, mid.x, mid.y + Travel(mid.vy, h));
  }

  /** The fewest equal parts of at most nine hundredths. */
  predicate FewestParts(n: int, distance: real) {
    n >= 1 && distance <= 0.09 * n as real && (n == 1 || 0.09 * (n - 1) as real < distance)
  }

  lemma PartsAre(vy: real, h: real)
    requires vy <= 0.0 && h > 0.0
    ensures StepsFor(vy, h) >= 1 && FewestParts(StepsFor(vy, h), -Travel(vy, h))
    ensures Drop(vy, h) == Travel(vy, h) / StepsFor(vy, h) as real
  {
    var n := StepsFor(vy, h);
    var total := -(vy * h);
    SubSteps(vy, h);
    MulMono(0.0, -vy, h);
    DropIsShare(vy, h, n as real);
    var q := total / 0.09;
    CeilAtLeast(q);
    assert q * 0.09 == total;
    assert Abs(Travel(vy, h)) == total;
  }

  function Below(y: real, part: real, i: int): real { y + i as real * part }

  /** There is ground at `top` after `i` parts. */
  ghost predicate GroundAfter(m: Grid, x: real, y: real, part: real, floating: bool, i: int, top: real) {
    GroundAt(m, x, Below(y, part, i), floating, top)
  }

  /** There is, and not before. */
  ghost predicate FirstGround(m: Grid, x: real, y: real, part: real, floating: bool, i: int, top: real) {
    && GroundAfter(m, x, y, part, floating, i, top)
    && forall j, other :: 1 <= j < i ==> !GroundAfter(m, x, y, part, floating, j, other)
  }

  lemma BelowNext(y: real, part: real, i: int)
    ensures Below(y, part, i + 1) == Below(y + part, part, i)
    ensures Below(y, part, 0) == y
  {
    assert (i + 1) as real * part == i as real * part + part;
  }

  lemma {:induction false} FallExactly(m: Grid, x: real, y: real, part: real, floating: bool, n: nat) returns (i: int)
    ensures var f := Fall(m, x, y, part, !floating, n);
            if f.landed then 1 <= i <= n && FirstGround(m, x, y, part, floating, i, f.y - 0.5)
            else f.y == Below(y, part, n)
                 && forall j, top :: 1 <= j <= n ==> !GroundAfter(m, x, y, part, floating, j, top)
    decreases n
  {
    hide Ground, GroundAt, Below;
    i := 1;
    BelowNext(y, part, 0);
    if n > 0 {
      var y' := y + part;
      BelowNext(y', part, 0);
      BelowNext(y, part, n - 1);
      GroundIs(m, x, y', floating);
      GroundExactly(m, x, y', floating, Ground(m, x, y', !floating).at);
      if !Ground(m, x, y', !floating).hit {
        i := FallExactly(m, x, y', part, floating, n - 1);
        forall j, top | 1 <= j
          ensures GroundAfter(m, x, y, part, floating, j, top) ==
                  if j == 1 then false else GroundAfter(m, x, y', part, floating, j - 1, top)
        {
          BelowNext(y, part, j - 1);
        }
        i := i + 1;
      }
    }
  }

  lemma WholeFall(y: real, vy: real, h: real)
    requires vy <= 0.0 && h > 0.0
    ensures Below(y, Drop(vy, h), StepsFor(vy, h)) == y + Travel(vy, h)
  {
    SubSteps(vy, h);
  }

  /** A fall ends on the first ground that it finds after one of its parts, and otherwise goes all the way. */
  lemma FallsExactly(m: Grid, s: Phys, cmd: InputCmd, dt: real) returns (n: int, i: int, top: real)
    requires !s.isOnLadder && 0.0 < dt < 0.1 && Speed(m, s, cmd, StepTime(cmd, dt)) <= 0.0
    ensures var h := StepTime(cmd, dt);
            FewestParts(n, -Travel(Speed(m, s, cmd, h), h))
    ensures var t := Simulate(m, s, cmd, dt);
            var h := StepTime(cmd, dt);
            var vy := Speed(m, s, cmd, h);
            var part := Travel(vy, h) / n as real;
            var floating := TimeToDrop(s, cmd, h) <= 0.0;
            && t.dropThroughTimer == TimeToDrop(s, cmd, h)
            && (if 1 <= i <= n
                then FirstGround(m, t.x, s.y, part, floating, i, top)
                     && t.y == top + 0.5 && t.vy == -2.0 && t.isGrounded && !t.isJumping
                else (forall j, any :: 1 <= j <= n ==> !GroundAfter(m, t.x, s.y, part, floating, j, any))
                     && t.y == s.y + Travel(vy, h) && t.vy == vy
                     && t.isGrounded == (OnGround(m, s, cmd, h) && !cmd.jump)
                     && t.isJumping == (s.isJumping || (OnGround(m, s, cmd, h) && cmd.jump)))
  {
    hide Speed, OnGround, Ground, GroundAfter, BeforeFall, TimeToDrop, Travel, Fall, StepsFor, Drop, FirstGround, Below;
    var h := StepTime(cmd, dt);
    var mid := BeforeFall(m, s, cmd, h);
    SpeedIs(m, s, cmd, h);
    WalkFrame(m, s, cmd, dt);
    PartsAre(mid.vy, h);
    n := StepsFor(mid.vy, h);
    var floating := mid.dropThroughTimer <= 0.0;
    i := FallExactly(m, mid.x, mid.y, Drop(mid.vy, h), floating, n);
    var f := FallFrom(m, mid, h);
    top := f.y - 0.5;
    if !f.landed {
      i := 0;
      WholeFall(mid.y, mid.vy, h);
    }
  }

  // ---- Dropping through ----

  function SolidOnly(m: Grid): Grid { m.(floating := {}) }

  lemma SolidQueries(m: Grid, x: real, y: real)
    ensures Ground(m, x, y, true) == Ground(SolidOnly(m), x, y, true)
    ensures Ceiling(m, x, y) == Ceiling(SolidOnly(m), x, y)
    ensures forall moveX :: Wall(m, x, y, moveX) == Wall(SolidOnly(m), x, y, moveX)
  {
    var m' := SolidOnly(m);
    hide WorldToCell, Edge;
    forall cx, cy
      ensures m.IsSolid(cx, cy) == m'.IsSolid(cx, cy) && Supports(m, cx, cy, true) == Supports(m', cx, cy, true)
    {
    }
    assert forall cy :: RowSupports(m, x, cy, true) == RowSupports(m', x, cy, true);
    assert forall cy :: RowSolid(m, x, cy) == RowSolid(m', x, cy);
    assert forall cx :: ColumnSolid(m, cx, y) == ColumnSolid(m', cx, y);
  }

  lemma {:induction false} SolidFall(m: Grid, x: real, y: real, drop: real, n: nat)
    ensures Fall(m, x, y, drop, true, n) == Fall(SolidOnly(m), x, y, drop, true, n)
    decreases n
  {
    hide Ground;
    if n > 0 {
      SolidQueries(m, x, y + drop);
      SolidFall(m, x, y + drop, drop, n - 1);
    }
  }

  /** While there is time left to drop through, a step is one on the map without its floating ground. */
  lemma SolidStep(m: Grid, s: Phys, cmd: InputCmd, dt: real)
    requires !s.isOnLadder && dt > 0.0 && TimeToDrop(s, cmd, StepTime(cmd, dt)) > 0.0
    ensures Simulate(m, s, cmd, dt) == Simulate(SolidOnly(m), s, cmd, dt)
  {
    hide Ground, Ceiling, Wall, Fall, StepsFor, Drop, Travel;
    var h := UseDt(cmd, dt);
    SolidQueries(m, s.x, s.y);
    SolidQueries(m, s.x + Across(MoveX(cmd), h), s.y);
    var mid := BeforeFall(m, s, cmd, h);
    assert mid == BeforeFall(SolidOnly(m), s, cmd, h);
    BeforeFallFrame(m, s, cmd, h);
    SolidQueries(m, mid.x, mid.y + Travel(mid.vy, h));
    SolidFall(m, mid.x, mid.y, Drop(mid.vy, h), StepsFor(mid.vy, h));
  }

  lemma WalkKeepsTime(m: Grid, s: Phys, cmd: InputCmd, dt: real)
    requires !s.isOnLadder && dt > 0.0
    ensures var t := Simulate(m, s, cmd, dt);
            !t.isOnLadder && t.dropThroughTimer == TimeToDrop(s, cmd, StepTime(cmd, dt))
  {
    hide BeforeFall, MoveUpDown;
    WalkFrame(m, s, cmd, dt);
  }

  lemma {:induction false} SolidRun(m: Grid, s: Phys, cmds: seq<InputCmd>, dt: real)
    requires !s.isOnLadder && dt > 0.0 && Duration(cmds, dt) < 0.25 && Duration(cmds, dt) < s.dropThroughTimer
    ensures Steps(m, s, cmds, dt) == Steps(SolidOnly(m), s, cmds, dt)
    decreases |cmds|
  {
    hide Simulate;
    if cmds != [] {
      DurationAtLeast(cmds[1..], dt, 0.0);
      SolidStep(m, s, cmds[0], dt);
      WalkKeepsTime(m, s, cmds[0], dt);
      SolidRun(m, Simulate(m, s, cmds[0], dt), cmds[1..], dt);
    }
  }

  /** From the step that presses drop-through on, and for less than a quarter of a second after it, a run off the
      ladders is one on the map without its floating ground. */
  lemma DropsThrough(m: Grid, s: Phys, cmds: seq<InputCmd>, dt: real)
    requires !s.isOnLadder && dt > 0.0 && cmds != [] && cmds[0].dropThrough && Duration(cmds[1..], dt) < 0.25
    ensures Steps(m, s, cmds, dt) == Steps(SolidOnly(m), s, cmds, dt)
  {
    hide Simulate;
    SolidStep(m, s, cmds[0], dt);
    WalkKeepsTime(m, s, cmds[0], dt);
    SolidRun(m, Simulate(m, s, cmds[0], dt), cmds[1..], dt);
  }

  /** Unless pressed again, the time runs out with the steps. */
  lemma {:induction false} DropTimeExactly(m: Grid, s: Phys, cmds: seq<InputCmd>, dt: real)
    requires !s.isOnLadder && dt > 0.0 && 0.0 <= s.dropThroughTimer
    requires forall i :: 0 <= i < |cmds| ==> !cmds[i].dropThrough
    ensures var left := s.dropThroughTimer - Duration(cmds, dt);
            Steps(m, s, cmds, dt).dropThroughTimer == if left > 0.0 then left else 0.0
    decreases |cmds|
  {
    hide Simulate;
    if cmds != [] {
      DurationAtLeast(cmds[1..], dt, 0.0);
      WalkKeepsTime(m, s, cmds[0], dt);
      DropTimeExactly(m, Simulate(m, s, cmds[0], dt), cmds[1..], dt);
    }
  }

  lemma DropTime(s: Phys, cmd: InputCmd, h: real)
    requires cmd.dropThrough
    ensures TimeToDrop(s, cmd, h) == 0.25
  {
  }

  lemma FreeSpeed(m: Grid, s: Phys, cmd: InputCmd, h: real)
    requires !OnGround(m, s, cmd, h) && s.vy <= 0.0 && h > 0.0
    ensures Speed(m, s, cmd, h) < 0.0
  {
    hide OnGround;
  }

  /** Where all ground is floating, pressing drop-through takes the player down, whatever it stands on. */
  lemma DropFalls(m: Grid, s: Phys, cmd: InputCmd, dt: real)
    requires m.loaded && m.solid == {} && !s.isOnLadder && s.vy <= 0.0 && cmd.dropThrough && 0.0 < dt < 0.1
    ensures Simulate(m, s, cmd, dt).y < s.y
  {
    hide Simulate, Speed, TimeToDrop, FewestParts;
    var h := StepTime(cmd, dt);
    assert TimeToDrop(s, cmd, h) == 0.25 by { DropTime(s, cmd, h); }
    forall x, y, top ensures !GroundAt(m, x, y, false, top) {
    }
    assert !OnGround(m, s, cmd, h);
    assert Speed(m, s, cmd, h) < 0.0 by { FreeSpeed(m, s, cmd, h); }
    var n, i, top := FallsExactly(m, s, cmd, dt);
    MulLess(Speed(m, s, cmd, h), 0.0, h);
  }

  // ---- On a ladder ----

  /** Three metres a second; down wins over up. */
  function ClimbingSpeed(cmd: InputCmd): real {
    if cmd.moveDown then -3.0 else if cmd.moveUp then 3.0 else 0.0
  }

  /** The player climbs in the middle of the ladder, from its bottom to half a metre above its top. */
  function Climbing(s: Phys, cmd: InputCmd, h: real): Phys {
    var y := s.y + ClimbingSpeed(cmd) * h;
    var above := if y < s.ladderMinY then s.ladderMinY else y;
    s.(x := s.ladderCenterX, vx := 0.0, vy := ClimbingSpeed(cmd), isCrouching := false,
       y := if above > s.ladderMaxY + 0.5 then s.ladderMaxY + 0.5 else above)
  }

  /** Climbing down onto solid ground goes on as a step of a player standing there; climbing up to the top leaves the
      ladder at rest; anything else stays on it. */
  lemma ClimbsExactly(m: Grid, s: Phys, cmd: InputCmd, dt: real)
    requires s.isOnLadder && !cmd.jump
    ensures var t := Simulate(m, s, cmd, dt);
            var c := Climbing(s, cmd, StepTime(cmd, dt));
            && (forall top :: cmd.moveDown && GroundAt(m, c.x, c.y, false, top) ==>
                  t == Simulate(m, c.(isOnLadder := false, y := top + 0.5, vy := 0.0, isGrounded := true), cmd, dt))
            && (!(cmd.moveDown && exists top :: GroundAt(m, c.x, c.y, false, top)) ==>
                  t == if cmd.moveUp && !cmd.moveDown && c.y >= s.ladderMaxY + 0.5
                       then c.(isOnLadder := false, vy := 0.0) else c)
  {
    hide Ground, GroundAt, Walk;
    var h := UseDt(cmd, dt);
    GroundIs(m, s.ladderCenterX, ClimbedY(s, cmd, h), false);
    assert ClimbedY(s, cmd, h) == Climbing(s, cmd, h).y;
  }

  /** A jump leaves the ladder at the speed of a jump, and the same step goes on from there. */
  lemma JumpsOffExactly(m: Grid, s: Phys, cmd: InputCmd, dt: real)
    requires s.isOnLadder && cmd.jump
    ensures var off := s.(isOnLadder := false, isCrouching := false, isJumping := true, isGrounded := false,
                          vx := 0.0, vy := 10.0);
            Simulate(m, s, cmd, dt) == Simulate(m, off, cmd, dt)
  {
  }

  // ---- Boarding ----

  /** The reported position is where the player is put; the ladder is the whole run of ladder cells at that place, or
      else at the cell below it, and only if there is none, a ladder of ten and a half metres about the place. */
  lemma BoardsExactly(m: Grid, s: Phys, px: real, py: real, cx: int, row: int)
    requires m.loaded
    requires Edge(cx, m.csx) <= px < Edge(cx + 1, m.csx) && Edge(row, m.csy) <= py < Edge(row + 1, m.csy)
    ensures var t := BoardLadder(m, s, true, px, py);
            && t == s.(isOnLadder := true, x := px, y := py, vx := 0.0, vy := 0.0, isGrounded := false,
                       isJumping := false, ladderCenterX := t.ladderCenterX, ladderMinY := t.ladderMinY,
                       ladderMaxY := t.ladderMaxY)
            && var cell := if m.IsLadder(cx, row) then row else row - 1;
               if m.IsLadder(cx, cell)
               then exists lo, hi ::
                      && MaximalRun(m, cx, lo, hi) && lo <= cell <= hi
                      && t.ladderMinY == Edge(lo, m.csy) && t.ladderMaxY == Edge(hi + 1, m.csy)
                      && t.ladderCenterX == (cx as real + 0.5) * m.csx
               else t.ladderMinY == py - 0.5 && t.ladderMaxY == py + 10.0 && t.ladderCenterX == px
    ensures BoardLadder(m, s, false, px, py) == s
  {
    hide WorldToCell, Edge, LadderLow, LadderHigh;
    CellOf(px, m.csx, cx);
    CellOf(py, m.csy, row);
    var cell := if m.IsLadder(cx, row) then row else row - 1;
    if m.IsLadder(cx, cell) {
      ExtentIsMaximalRun(m, cx, cell, LadderLow(m, cx, cell), LadderHigh(m, cx, cell));
    }
  }

  /** Without a map the player is put there, and the ladder last stored stays. */
  lemma BoardsWithoutMap(m: Grid, s: Phys, px: real, py: real)
    requires !m.loaded
    ensures BoardLadder(m, s, true, px, py) ==
            s.(isOnLadder := true, x := px, y := py, vx := 0.0, vy := 0.0, isGrounded := false, isJumping := false)
  {
  }
}
