/** How high a jump can take a player. In open air the energy, height plus the square of the vertical speed over
    twice the gravity, never increases, whatever the client's delta times; near the ground it can. */
module Energy {
  import opened TileMap
  import opened Physics
  import opened Motion
  import opened Reach
  import opened Falling
  import Containment

  function Lift(vy: real): real { vy * vy / (2.0 * GRAVITY) }

  function EnergyOf(s: Phys): real { s.y + Lift(s.vy) }

  /** The vertical move meets nothing. */
  predicate InAir(m: Grid, mid: Phys, h: real) {
    if mid.vy > 0.0 then !Ceiling(m, mid.x, mid.y + Travel(mid.vy, h)).hit else !FallFrom(m, mid, h).landed
  }

  /** A step off the ladders that touches neither ground nor ceiling. */
  predicate OpenAir(m: Grid, s: Phys, cmd: InputCmd, dt: real) {
    var h := UseDt(cmd, dt);
    var mid := BeforeFall(m, s, cmd, h);
    && !s.isOnLadder
    && !StartsGrounded(m, Steer(s, cmd, h))
    && InAir(m, mid, h)
  }

  // ---- The vertical motion of a step in open air ----

  lemma {:induction false} FallFullDistance(m: Grid, x: real, y: real, drop: real, ign: bool, n: nat)
    requires !Fall(m, x, y, drop, ign, n).landed
    ensures Fall(m, x, y, drop, ign, n).y == y + n as real * drop
    decreases n
  {
    if n > 0 {
      FallFullDistance(m, x, y + drop, drop, ign, n - 1);
      assert n as real * drop == (n - 1) as real * drop + drop;
    }
  }

  lemma AirMove(m: Grid, mid: Phys, h: real)
    requires InAir(m, mid, h) && h > 0.0
    ensures MoveUpDown(m, mid, h) == mid.(y := mid.y + Travel(mid.vy, h))
  {
    hide Fall, Ceiling, StepsFor, Drop;
    if mid.vy <= 0.0 {
      SubSteps(mid.vy, h);
      FallFullDistance(m, mid.x, mid.y, Drop(mid.vy, h), mid.dropThroughTimer > 0.0, StepsFor(mid.vy, h));
    }
  }

  /** Gravity, clamped at the terminal speed, then the move at the new speed. */
  lemma AirStep(m: Grid, s: Phys, cmd: InputCmd, dt: real)
    requires OpenAir(m, s, cmd, dt) && UseDt(cmd, dt) > 0.0
    ensures var h := UseDt(cmd, dt);
            var s' := Simulate(m, s, cmd, dt);
            && s'.vy == Clamped(s.vy - GRAVITY * h)
            && s'.y == s.y + Travel(s'.vy, h)
            && !s'.isOnLadder
  {
    hide MoveUpDown, InAir;
    var h := UseDt(cmd, dt);
    BeforeFallFrame(m, s, cmd, h);
    AirMove(m, BeforeFall(m, s, cmd, h), h);
    WalkFrame(m, s, cmd, dt);
  }

  // ---- Energy ----

  /** Falling freely for h and then moving at the new speed loses half of g h squared. */
  lemma FreeFallEnergy(vy: real, h: real)
    ensures Lift(vy) - Lift(vy - GRAVITY * h) == Travel(vy, h) - GRAVITY * h * h / 2.0
    ensures Travel(vy - GRAVITY * h, h) == Travel(vy, h) - GRAVITY * h * h
  {
    var w := vy - GRAVITY * h;
    assert w * w == vy * vy - 2.0 * GRAVITY * (vy * h) + GRAVITY * GRAVITY * (h * h);
    assert w * h == vy * h - GRAVITY * (h * h);
  }

  /** Clamping the speed at the terminal speed only loses more. */
  lemma ClampedEnergy(vy: real, h: real)
    requires vy >= MAX_FALL_SPEED && vy - GRAVITY * h < MAX_FALL_SPEED && h > 0.0
    ensures Travel(MAX_FALL_SPEED, h) + Lift(MAX_FALL_SPEED) <= Lift(vy)
  {
    var t := (vy - MAX_FALL_SPEED) / GRAVITY;
    assert 0.0 <= t < h;
    FreeFallEnergy(vy, t);
    assert vy - GRAVITY * t == MAX_FALL_SPEED;
    assert GRAVITY * t * t / 2.0 >= 0.0;
    assert Travel(MAX_FALL_SPEED, t) + Lift(MAX_FALL_SPEED) <= Lift(vy);
    assert Travel(MAX_FALL_SPEED, h) <= Travel(MAX_FALL_SPEED, t);
  }

  lemma VerticalEnergy(y: real, vy: real, h: real)
    requires vy >= MAX_FALL_SPEED && h > 0.0
    ensures var w := Clamped(vy - GRAVITY * h);
            y + Travel(w, h) + Lift(w) <= y + Lift(vy)
  {
    if vy - GRAVITY * h < MAX_FALL_SPEED {
      ClampedEnergy(vy, h);
    } else {
      FreeFallEnergy(vy, h);
      assert GRAVITY * h * h >= 0.0;
    }
  }

  lemma EnergyNeverRises(m: Grid, s: Phys, cmd: InputCmd, dt: real)
    requires OpenAir(m, s, cmd, dt) && UseDt(cmd, dt) > 0.0 && s.vy >= MAX_FALL_SPEED
    ensures var s' := Simulate(m, s, cmd, dt);
            EnergyOf(s') <= EnergyOf(s) && s'.vy >= MAX_FALL_SPEED && !s'.isOnLadder
  {
    hide OpenAir, Simulate, Lift, Travel;
    AirStep(m, s, cmd, dt);
    VerticalEnergy(s.y, s.vy, UseDt(cmd, dt));
  }

  /** Every step of the run is in open air. */
  predicate Flight(m: Grid, s: Phys, cmds: seq<InputCmd>, dt: real)
    decreases |cmds|
  {
    cmds == [] || (OpenAir(m, s, cmds[0], dt) && Flight(m, Simulate(m, s, cmds[0], dt), cmds[1..], dt))
  }

  lemma {:induction false} FlightEnergy(m: Grid, s: Phys, cmds: seq<InputCmd>, dt: real)
    requires dt > 0.0 && Flight(m, s, cmds, dt) && s.vy >= MAX_FALL_SPEED
    ensures EnergyOf(Steps(m, s, cmds, dt)) <= EnergyOf(s)
    decreases |cmds|
  {
    hide OpenAir, Simulate, EnergyOf;
    if cmds != [] {
      EnergyNeverRises(m, s, cmds[0], dt);
      FlightEnergy(m, Simulate(m, s, cmds[0], dt), cmds[1..], dt);
    }
  }

  lemma LiftPositive(vy: real)
    ensures Lift(vy) >= 0.0
  {
    assert vy * vy >= 0.0;
  }

  /** A step that takes off: a jump from the ground whose own move meets nothing. */
  predicate TakeOff(m: Grid, s: Phys, cmd: InputCmd, dt: real) {
    var h := UseDt(cmd, dt);
    !s.isOnLadder && cmd.jump && StartsGrounded(m, Steer(s, cmd, h)) && InAir(m, BeforeFall(m, s, cmd, h), h)
  }

  lemma TakeOffEnergy(m: Grid, s: Phys, cmd: InputCmd, dt: real)
    requires TakeOff(m, s, cmd, dt) && UseDt(cmd, dt) > 0.0
    ensures var s' := Simulate(m, s, cmd, dt);
            EnergyOf(s') <= s.y + Lift(JUMP_FORCE) && s'.vy >= MAX_FALL_SPEED && !s'.isOnLadder
  {
    hide MoveUpDown, InAir, Lift, Travel;
    var h := UseDt(cmd, dt);
    BeforeFallFrame(m, s, cmd, h);
    AirMove(m, BeforeFall(m, s, cmd, h), h);
    WalkFrame(m, s, cmd, dt);
    VerticalEnergy(s.y, JUMP_FORCE, h);
  }

  /** From take-off through any flight, with any delta times, a jump gains at most the height that its initial
      speed allows. */
  lemma JumpHeight(m: Grid, s: Phys, jump: InputCmd, cmds: seq<InputCmd>, dt: real)
    requires dt > 0.0 && TakeOff(m, s, jump, dt) && Flight(m, Simulate(m, s, jump, dt), cmds, dt)
    ensures Steps(m, Simulate(m, s, jump, dt), cmds, dt).y <= s.y + JUMP_FORCE * JUMP_FORCE / (2.0 * GRAVITY)
  {
    hide TakeOff, Flight, Simulate, Steps;
    var s' := Simulate(m, s, jump, dt);
    TakeOffEnergy(m, s, jump, dt);
    FlightEnergy(m, s', cmds, dt);
    LiftPositive(Steps(m, s', cmds, dt).vy);
  }

  // ---- Near the ground ----

  /** A rising step without a jump that meets nothing above or below while it moves. */
  predicate RisingFreely(m: Grid, s: Phys, cmd: InputCmd, dt: real) {
    var h := UseDt(cmd, dt);
    !s.isOnLadder && s.vy > 0.0 && !cmd.jump && h > 0.0 && InAir(m, BeforeFall(m, s, cmd, h), h)
  }

  lemma SkippedGravity(m: Grid, s: Phys, cmd: InputCmd, dt: real)
    requires RisingFreely(m, s, cmd, dt) && StartsGrounded(m, Steer(s, cmd, UseDt(cmd, dt)))
    ensures EnergyOf(Simulate(m, s, cmd, dt)) > EnergyOf(s)
  {
    hide MoveUpDown, InAir, Lift;
    var h := UseDt(cmd, dt);
    BeforeFallFrame(m, s, cmd, h);
    AirMove(m, BeforeFall(m, s, cmd, h), h);
    WalkFrame(m, s, cmd, dt);
    MulLess(0.0, s.vy, h);
  }

  /** While rising, the energy fails to decrease exactly when the step still starts within the threshold of
      ground: gravity is skipped and the player rises at undiminished speed. */
  lemma EnergyRisesExactlyNearGround(m: Grid, s: Phys, cmd: InputCmd, dt: real)
    requires RisingFreely(m, s, cmd, dt)
    ensures var h := UseDt(cmd, dt);
            EnergyOf(Simulate(m, s, cmd, dt)) > EnergyOf(s) <==> StartsGrounded(m, Steer(s, cmd, h))
  {
    var h := UseDt(cmd, dt);
    var mid := BeforeFall(m, s, cmd, h);
    if StartsGrounded(m, Steer(s, cmd, h)) {
      SkippedGravity(m, s, cmd, dt);
    } else {
      EnergyNeverRises(m, s, cmd, dt);
    }
  }

  // ---- Every run over a flat floor ----

  /** All ground, solid or floating, is in one row, with any gaps. */
  ghost predicate FlatFloor(m: Grid, r: int) {
    m.loaded && forall cx, cy :: m.IsSolid(cx, cy) || m.IsFloatingGround(cx, cy) ==> cy == r
  }

  /** The height that the player would rise to. */
  function Peak(s: Phys): real {
    s.y + (if s.vy > 0.0 then Lift(s.vy) else 0.0)
  }

  /** Standing, plus the threshold, plus the longest rise that skips gravity, plus the height of a jump. */
  function HighestPeak(m: Grid, r: int): real {
    Top(m, r) + PLAYER_HALF_H + GROUND_THRESHOLD + 0.1 * JUMP_FORCE + Lift(JUMP_FORCE)
  }

  lemma FlatGround(m: Grid, r: int, x: real, y: real, ign: bool)
    requires FlatFloor(m, r)
    ensures var g := Ground(m, x, y, ign);
            g.hit ==> g.at == Top(m, r) && y - PLAYER_HALF_H < Top(m, r) + GROUND_THRESHOLD
  {
    var row := FootRow(m, y);
    GroundHit(m, x, y, ign);
    FootRowIs(m, y, row);
  }

  lemma FlatCeiling(m: Grid, r: int, x: real, y: real)
    requires FlatFloor(m, r)
    ensures var c := Ceiling(m, x, y);
            c.hit ==> c.at == Top(m, r) - m.csy
  {
    TopStep(m, r);
  }

  lemma {:induction false} FlatFall(m: Grid, r: int, x: real, y: real, drop: real, ign: bool, n: nat)
    requires FlatFloor(m, r) && drop <= 0.0
    ensures var f := Fall(m, x, y, drop, ign, n);
            f.y <= y || f.y == Top(m, r) + PLAYER_HALF_H
    decreases n
  {
    hide FlatFloor, Ground;
    if n > 0 {
      FlatGround(m, r, x, y + drop, ign);
      if !Ground(m, x, y + drop, ign).hit {
        FlatFall(m, r, x, y + drop, drop, ign, n - 1);
      }
    }
  }

  /** The vertical move keeps the peak in the limit if its own peak is. */
  lemma FlatMove(m: Grid, r: int, mid: Phys, h: real)
    requires FlatFloor(m, r) && h > 0.0
    requires (if mid.vy > 0.0 then mid.y + Travel(mid.vy, h) + Lift(mid.vy) else mid.y) <= HighestPeak(m, r)
    ensures Peak(MoveUpDown(m, mid, h)) <= HighestPeak(m, r)
  {
    hide FlatFloor, Ground, Ceiling, Fall, Travel, Lift, Drop, StepsFor;
    LiftPositive(JUMP_FORCE);
    if mid.vy > 0.0 {
      FlatCeiling(m, r, mid.x, mid.y + Travel(mid.vy, h));
    } else {
      SubSteps(mid.vy, h);
      FlatFall(m, r, mid.x, mid.y, Drop(mid.vy, h), mid.dropThroughTimer > 0.0, StepsFor(mid.vy, h));
    }
  }

  lemma LiftMono(v: real, w: real)
    requires 0.0 <= v <= w
    ensures Lift(v) <= Lift(w)
  {
    MulMono(v, w, v);
    MulMono(v, w, w);
    assert v * v <= w * v == v * w <= w * w;
    MulMono(v * v, w * w, 1.0 / (2.0 * GRAVITY));
  }

  /** Before the vertical move: from the ground the player takes off no faster than a jump; in the air it loses
      energy. */
  lemma FlatStart(m: Grid, r: int, s: Phys, cmd: InputCmd, h: real)
    requires FlatFloor(m, r) && 0.0 < h < 0.1 && s.vy <= JUMP_FORCE && Peak(s) <= HighestPeak(m, r)
    ensures var vy := BeforeFall(m, s, cmd, h).vy;
            && vy <= JUMP_FORCE
            && (if vy > 0.0 then s.y + Travel(vy, h) + Lift(vy) else s.y) <= HighestPeak(m, r)
  {
    hide FlatFloor, Ground, Travel, Lift;
    var t := Steer(s, cmd, h);
    BeforeFallFrame(m, s, cmd, h);
    var vy := Accelerate(m, t, cmd, h).vy;
    assert GRAVITY * h > 0.0;
    LiftPositive(JUMP_FORCE);
    LiftPositive(s.vy);
    FlatGround(m, r, s.x, s.y, t.dropThroughTimer > 0.0 || t.vy > 0.0);
    if vy > 0.0 {
      if !StartsGrounded(m, t) {
        VerticalEnergy(s.y, s.vy, h);
      } else if cmd.jump {
        VerticalEnergy(s.y, JUMP_FORCE, h);
      } else {
        Containment.RiseLength(s.vy, h);
        LiftMono(s.vy, JUMP_FORCE);
      }
    }
  }

  lemma FlatStep(m: Grid, r: int, s: Phys, cmd: InputCmd, dt: real)
    requires FlatFloor(m, r) && 0.0 < dt < 0.1 && !s.isOnLadder && s.vy <= JUMP_FORCE && Peak(s) <= HighestPeak(m, r)
    ensures var t := Simulate(m, s, cmd, dt);
            !t.isOnLadder && t.vy <= JUMP_FORCE && Peak(t) <= HighestPeak(m, r)
  {
    hide FlatFloor, BeforeFall, Lift, FallFrom, Ceiling;
    var h := UseDt(cmd, dt);
    WalkFrame(m, s, cmd, dt);
    FlatStart(m, r, s, cmd, h);
    FlatMove(m, r, BeforeFall(m, s, cmd, h), h);
  }

  /** Over a flat floor no run off the ladders, with any inputs and any delta times, gets higher than standing, plus
      the threshold, plus one rise that skips gravity, plus the height of a jump. */
  lemma {:induction false} HighestOverFlatFloor(m: Grid, r: int, s: Phys, cmds: seq<InputCmd>, dt: real)
    requires FlatFloor(m, r) && 0.0 < dt < 0.1 && !s.isOnLadder && s.vy <= JUMP_FORCE && Peak(s) <= HighestPeak(m, r)
    ensures Steps(m, s, cmds, dt).y <= HighestPeak(m, r)
    decreases |cmds|
  {
    hide FlatFloor, Simulate, HighestPeak, Lift;
    if cmds == [] {
      LiftPositive(s.vy);
    } else {
      FlatStep(m, r, s, cmds[0], dt);
      HighestOverFlatFloor(m, r, Simulate(m, s, cmds[0], dt), cmds[1..], dt);
    }
  }

  // ---- The height is approached ----

  /** From the floor up, there is no ceiling over a flat floor. */
  lemma FlatOpen(m: Grid, r: int, x: real, y: real)
    requires FlatFloor(m, r) && y - PLAYER_HALF_H >= Top(m, r)
    ensures !Ceiling(m, x, y).hit
  {
    hide Edge, WorldToCell;
    var head := y + PLAYER_HALF_H + GROUND_THRESHOLD;
    Containment.CellBetween(head, m.csy, r + 1);
    assert HeadRow(m, y) > r;
  }

  /** Within the threshold above the row that the player stands over, it counts as grounded. */
  lemma FlatGrounded(m: Grid, r: int, s: Phys)
    requires m.loaded && m.csy >= 0.1 && Supported(m, s.x, true, r)
    requires Top(m, r) <= s.y - PLAYER_HALF_H < Top(m, r) + GROUND_THRESHOLD
    ensures StartsGrounded(m, s)
  {
    var ign := s.dropThroughTimer > 0.0 || s.vy > 0.0;
    FootRowIs(m, s.y, r);
    SolidSupports(m, s.x, r);
    GroundHit(m, s.x, s.y, ign);
  }

  function Wait(h: real): InputCmd { IDLE_INPUT.(deltaTime := h) }

  lemma FlatLoaded(m: Grid, r: int)
    requires FlatFloor(m, r)
    ensures m.loaded
  {
  }

  lemma TravelPositive(vy: real, h: real)
    requires vy > 0.0 && h > 0.0
    ensures Travel(vy, h) > 0.0
  {
    MulLess(0.0, vy, h);
  }

  /** Rising from the floor, by a jump or by carrying on. */
  lemma FloorStep(m: Grid, r: int, s: Phys, jump: bool, h: real, dt: real)
    requires FlatFloor(m, r) && m.csy >= 0.1 && !s.isOnLadder && Supported(m, s.x, true, r) && 0.0 < h < 0.1
    requires Top(m, r) <= s.y - PLAYER_HALF_H < Top(m, r) + GROUND_THRESHOLD && (jump || s.vy > 0.0)
    ensures var t := Simulate(m, s, if jump then Jump(h) else Wait(h), dt);
            var vy := if jump then Launch(h) else s.vy;
            t.y == s.y + Travel(vy, h) && t.vy == vy && t.x == s.x && !t.isOnLadder
  {
    hide FlatFloor, Ceiling, Ground, Supported, Top, Travel;
    var cmd := if jump then Jump(h) else Wait(h);
    var vy := if jump then Launch(h) else s.vy;
    FlatGrounded(m, r, Steer(s, cmd, h)) by { FlatLoaded(m, r); }
    BeforeFallFrame(m, s, cmd, h);
    assert Travel(vy, h) > 0.0 by { TravelPositive(vy, h); }
    FlatOpen(m, r, s.x, s.y + Travel(vy, h));
    WalkFrame(m, s, cmd, dt);
  }

  lemma SoarStep(m: Grid, r: int, s: Phys, h: real, dt: real)
    requires FlatFloor(m, r) && !s.isOnLadder && 0.0 < h < 0.1 && s.vy > GRAVITY * h
    requires s.y - PLAYER_HALF_H >= Top(m, r) + GROUND_THRESHOLD
    ensures var t := Simulate(m, s, Wait(h), dt);
            t.y == s.y + Travel(t.vy, h) && t.vy == s.vy - GRAVITY * h && !t.isOnLadder && t.y >= s.y
  {
    hide FlatFloor, Ceiling, Ground, Top, Travel;
    var vy := s.vy - GRAVITY * h;
    var t := Steer(s, Wait(h), h);
    BeforeFallFrame(m, s, Wait(h), h);
    FlatGround(m, r, t.x, t.y, t.dropThroughTimer > 0.0 || t.vy > 0.0);
    TravelPositive(vy, h);
    FlatOpen(m, r, s.x, s.y + Travel(vy, h));
    AirStep(m, s, Wait(h), dt);
  }

  lemma OneLess(a: real, b: real)
    requires b > 0.0
    ensures (a - b) / b == a / b - 1.0
  {
    var p, q := (a - b) / b, a / b;
    assert p * b == a - b && q * b == a;
    if p < q - 1.0 {
      MulLess(p, q - 1.0, b);
    } else if p > q - 1.0 {
      MulLess(q - 1.0, p, b);
    }
  }

  /** Tiny steps carry a player in the air to within a step of the height that its energy allows. */
  lemma {:induction false} Soar(m: Grid, r: int, s: Phys, h: real, dt: real) returns (cmds: seq<InputCmd>)
    requires FlatFloor(m, r) && !s.isOnLadder && 0.0 <= s.vy && 0.0 < h < 0.1
    requires s.y - PLAYER_HALF_H >= Top(m, r) + GROUND_THRESHOLD
    ensures Steps(m, s, cmds, dt).y >= EnergyOf(s) - s.vy * h / 2.0
    decreases s.vy / (GRAVITY * h)
  {
    hide FlatFloor, Simulate, Ceiling, Ground, Top;
    if s.vy <= GRAVITY * h {
      cmds := [];
      MulMono(s.vy, GRAVITY * h, s.vy);
      assert s.vy * s.vy <= GRAVITY * (s.vy * h);
    } else {
      var t := Simulate(m, s, Wait(h), dt);
      SoarStep(m, r, s, h, dt);
      FreeFallEnergy(s.vy, h);
      assert t.vy * h == s.vy * h - GRAVITY * h * h;
      assert t.vy / (GRAVITY * h) == s.vy / (GRAVITY * h) - 1.0 by { OneLess(s.vy, GRAVITY * h); }
      cmds := Soar(m, r, t, h, dt);
      cmds := [Wait(h)] + cmds;
      assert cmds[1..] == cmds[1..];
    }
  }

  lemma SmallRise(e: real)
    requires 0.0 < e <= 0.1
    ensures 0.0 < Travel(JUMP_FORCE - e, e / GRAVITY) <= 0.034
  {
    var h := e / GRAVITY;
    assert 0.0 < h <= 0.0034;
    assert Travel(JUMP_FORCE - e, h) == (JUMP_FORCE - e) * h;
    MulMono(JUMP_FORCE - e, 10.0, h);
    TravelPositive(JUMP_FORCE - e, e / GRAVITY);
  }

  /** The step that takes a rise. */
  lemma ShortStep(rise: real, v: real)
    requires 0.0 < rise <= 0.1 && v >= 9.9
    ensures 0.0 < rise / v < 0.1 && Travel(v, rise / v) == rise
  {
    var h := rise / v;
    assert h * v == rise;
    if h <= 0.0 {
      MulMono(h, 0.0, v);
    } else if h >= 0.1 {
      MulMono(0.1, h, v);
    }
  }

  lemma StepsHead(m: Grid, s: Phys, a: InputCmd, rest: seq<InputCmd>, dt: real)
    ensures Steps(m, s, [a] + rest, dt) == Steps(m, Simulate(m, s, a, dt), rest, dt)
  {
    hide Simulate;
    assert ([a] + rest)[1..] == rest;
  }

  lemma ThreeSteps(m: Grid, s: Phys, a: InputCmd, b: InputCmd, c: InputCmd, rest: seq<InputCmd>, dt: real)
    ensures var t := Simulate(m, Simulate(m, Simulate(m, s, a, dt), b, dt), c, dt);
            Steps(m, s, [a, b, c] + rest, dt) == Steps(m, t, rest, dt)
  {
    hide Simulate, Steps;
    var s1 := Simulate(m, s, a, dt);
    assert [a, b, c] + rest == [a] + ([b] + ([c] + rest));
    StepsHead(m, s, a, [b] + ([c] + rest), dt);
    StepsHead(m, s1, b, [c] + rest, dt);
    StepsHead(m, Simulate(m, s1, b, dt), c, rest, dt);
  }

  /** What the long step and the speed left after the jump lose is small. */
  lemma NearPeak(e: real)
    requires 0.0 < e <= 0.1
    ensures var v := JUMP_FORCE - e;
            && Travel(v, 0.1 - e / 20.0) >= 1.0 - 0.6 * e
            && Lift(v) >= Lift(JUMP_FORCE) - 0.35 * e
            && v * (e / 10.0) / 2.0 <= 0.5 * e
  {
    var v := JUMP_FORCE - e;
    assert Travel(v, 0.1 - e / 20.0) == 1.0 - 0.6 * e + e * e / 20.0;
    assert v * v == 100.0 - 20.0 * e + e * e;
    assert v * e == 10.0 * e - e * e;
    assert e * e >= 0.0;
  }

  /** A tiny jump, a step to just within the threshold, and one long step. */
  lemma LongRise(m: Grid, r: int, s: Phys, dt: real, e: real) returns (h1: real, h2: real, h3: real)
    requires FlatFloor(m, r) && m.csy >= 0.1 && !s.isOnLadder && Supported(m, s.x, true, r)
    requires s.y - PLAYER_HALF_H == Top(m, r) && 0.0 < e <= 0.1
    ensures var t := Simulate(m, Simulate(m, Simulate(m, s, Jump(h1), dt), Wait(h2), dt), Wait(h3), dt);
            && !t.isOnLadder && t.vy == JUMP_FORCE - e
            && t.y == s.y + 0.1 - e / 2.0 + Travel(JUMP_FORCE - e, 0.1 - e / 20.0)
  {
    hide FlatFloor, Simulate, Top, Supported, Travel;
    var v := JUMP_FORCE - e;
    h1 := e / GRAVITY;
    assert Launch(h1) == v;
    var rise := Travel(v, h1);
    assert 0.0 < rise <= 0.034 by { SmallRise(e); }
    var rest := 0.1 - e / 2.0 - rise;
    ShortStep(rest, v);
    h2, h3 := rest / v, 0.1 - e / 20.0;
    FloorStep(m, r, s, true, h1, dt);
    var s1 := Simulate(m, s, Jump(h1), dt);
    FloorStep(m, r, s1, false, h2, dt);
    var s2 := Simulate(m, s1, Wait(h2), dt);
    FloorStep(m, r, s2, false, h3, dt);
  }

  /** Over a flat floor the bound is approached as closely as one likes: after the long rise, tiny steps up. */
  lemma HighestIsApproached(m: Grid, r: int, s: Phys, dt: real, eps: real) returns (cmds: seq<InputCmd>)
    requires FlatFloor(m, r) && m.csy >= 0.1 && !s.isOnLadder && Supported(m, s.x, true, r)
    requires s.y - PLAYER_HALF_H == Top(m, r) && 0.0 < eps
    ensures Steps(m, s, cmds, dt).y > HighestPeak(m, r) - eps
  {
    hide FlatFloor, Simulate, Top, Supported, Steps, Lift, Travel;
    var e := if eps < 1.0 then eps / 10.0 else 0.1;
    var h1, h2, h3 := LongRise(m, r, s, dt, e);
    var t := Simulate(m, Simulate(m, Simulate(m, s, Jump(h1), dt), Wait(h2), dt), Wait(h3), dt);
    NearPeak(e);
    var rest := Soar(m, r, t, e / 10.0, dt);
    cmds := [Jump(h1), Wait(h2), Wait(h3)] + rest;
    ThreeSteps(m, s, Jump(h1), Wait(h2), Wait(h3), rest, dt);
  }

  // ---- Such steps exist ----

  lemma FirstStep(m: Grid)
    requires !m.loaded
    ensures var s := Simulate(m, INITIAL_PHYS, IDLE_INPUT, CLIENT_DT);
            !s.isOnLadder && s.x == 0.0 && s.y == PLAYER_HALF_H && s.vy == -2.0 && s.dropThroughTimer == 0.0
  {
    hide Fall, StepsFor, Drop;
    BeforeFallFrame(m, INITIAL_PHYS, IDLE_INPUT, CLIENT_DT);
    assert Travel(-2.0, CLIENT_DT) == -0.04;
    SingleSubStep(-2.0, CLIENT_DT);
    OneSubStep(m, 0.0, 0.0, -0.04, false);
  }

  /** A jump from the ground of no map takes off. */
  lemma FirstJump(m: Grid, s: Phys, h: real)
    requires !m.loaded && !s.isOnLadder && s.y == PLAYER_HALF_H && 0.0 < h < 0.1
    ensures var t := Simulate(m, s, Jump(h), CLIENT_DT);
            TakeOff(m, s, Jump(h), CLIENT_DT) && !t.isOnLadder && t.vy == Launch(h) && t.y == s.y + Travel(Launch(h), h)
  {
    hide Fall, StepsFor, Drop, Wall, Travel;
    BeforeFallFrame(m, s, Jump(h), h);
    WalkFrame(m, s, Jump(h), CLIENT_DT);
  }

  /** Well above the ground of no map, a rising player is in open air. */
  lemma RisesOpen(m: Grid, s: Phys)
    requires !m.loaded && !s.isOnLadder && s.y > 0.6 && s.vy > 1.0
    ensures OpenAir(m, s, IDLE_INPUT, CLIENT_DT)
  {
    hide Fall, StepsFor, Drop, Wall, Travel;
    BeforeFallFrame(m, s, IDLE_INPUT, CLIENT_DT);
  }

  /** Within the threshold above it, it gains energy. */
  lemma RisesNearGround(m: Grid, s: Phys)
    requires !m.loaded && !s.isOnLadder && s.y <= 0.6 && s.vy > 0.0
    ensures EnergyOf(Simulate(m, s, IDLE_INPUT, CLIENT_DT)) > EnergyOf(s)
  {
    hide Fall, StepsFor, Drop, Wall, Travel, Lift, Simulate;
    BeforeFallFrame(m, s, IDLE_INPUT, CLIENT_DT);
    SkippedGravity(m, s, IDLE_INPUT, CLIENT_DT);
  }

  /** Without a map the ground is at height zero. A player who stands there, as one does after the first step, can
      jump into open air; and after a short step of jumping it gains energy. */
  lemma JumpsHappen(m: Grid, s: Phys)
    requires !m.loaded && !s.isOnLadder && s.y == PLAYER_HALF_H
    ensures TakeOff(m, s, Jump(CLIENT_DT), CLIENT_DT)
    ensures Flight(m, Simulate(m, s, Jump(CLIENT_DT), CLIENT_DT), [IDLE_INPUT], CLIENT_DT)
    ensures var t := Simulate(m, s, Jump(0.005), CLIENT_DT);
            EnergyOf(Simulate(m, t, IDLE_INPUT, CLIENT_DT)) > EnergyOf(t)
  {
    hide Simulate, TakeOff, OpenAir, EnergyOf;
    FirstJump(m, s, CLIENT_DT);
    FirstJump(m, s, 0.005);
    assert [IDLE_INPUT][1..] == [];
    RisesOpen(m, Simulate(m, s, Jump(CLIENT_DT), CLIENT_DT));
    RisesNearGround(m, Simulate(m, s, Jump(0.005), CLIENT_DT));
  }
}
