/** Ladders: the extent found by scanning is the maximal run of ladder cells, the ladder state keeps its invariant
    over every run of steps and client reports, and climbing up leaves the ladder at exactly the computed step. */
module Ladders {
  import opened TileMap
  import opened Physics
  import opened Motion
  import opened Reach
  import opened Falling
  import opened Containment

  // ---- The extent of a ladder ----

  /** Rows lo..hi of the column are ladder cells and the cells just outside are not. */
  predicate MaximalRun(m: Tiles, cx: int, lo: int, hi: int) {
    && lo <= hi
    && (forall cy :: lo <= cy <= hi ==> m.IsLadder(cx, cy))
    && !m.IsLadder(cx, lo - 1)
    && !m.IsLadder(cx, hi + 1)
  }

  lemma {:induction false} LowEnd(m: Tiles, cx: int, cy: int)
    ensures var lo := LadderLow(m, cx, cy);
            lo <= cy && !m.IsLadder(cx, lo - 1) && forall c :: lo <= c < cy ==> m.IsLadder(cx, c)
    decreases Below(m, cx, cy)
  {
    if m.IsLadder(cx, cy - 1) {
      assert PackCell(cx, cy - 1) in Below(m, cx, cy) - Below(m, cx, cy - 1);
      LowEnd(m, cx, cy - 1);
    }
  }

  lemma {:induction false} HighEnd(m: Tiles, cx: int, cy: int)
    ensures var hi := LadderHigh(m, cx, cy);
            cy <= hi && !m.IsLadder(cx, hi + 1) && forall c :: cy < c <= hi ==> m.IsLadder(cx, c)
    decreases Above(m, cx, cy)
  {
    if m.IsLadder(cx, cy + 1) {
      assert PackCell(cx, cy + 1) in Above(m, cx, cy) - Above(m, cx, cy + 1);
      HighEnd(m, cx, cy + 1);
    }
  }

  /** From a ladder cell the scan finds the one maximal run that contains it; so it finds the same run from every
      cell of the run. */
  lemma ExtentIsMaximalRun(m: Tiles, cx: int, cy: int, lo: int, hi: int)
    requires m.IsLadder(cx, cy)
    ensures LadderLow(m, cx, cy) == lo && LadderHigh(m, cx, cy) == hi <==>
            MaximalRun(m, cx, lo, hi) && lo <= cy <= hi
  {
    LowEnd(m, cx, cy);
    HighEnd(m, cx, cy);
    var lo', hi' := LadderLow(m, cx, cy), LadderHigh(m, cx, cy);
    if MaximalRun(m, cx, lo, hi) && lo <= cy <= hi {
      assert lo' < lo ==> m.IsLadder(cx, lo - 1);
      assert lo < lo' ==> m.IsLadder(cx, lo' - 1);
      assert hi < hi' ==> m.IsLadder(cx, hi + 1);
      assert hi' < hi ==> m.IsLadder(cx, hi' + 1);
    }
  }

  // ---- What every run keeps ----

  predicate StateInv(s: Phys) {
    && MAX_FALL_SPEED <= s.vy <= JUMP_FORCE
    && 0.0 <= s.dropThroughTimer <= 0.25
    && s.ladderMinY <= s.ladderMaxY
    && (s.isOnLadder ==> !s.isGrounded && !s.isJumping && -CLIMB_SPEED <= s.vy <= CLIMB_SPEED)
  }

  lemma TimerRange(s: Phys, cmd: InputCmd, h: real)
    requires 0.0 <= s.dropThroughTimer <= 0.25 && h > 0.0
    ensures 0.0 <= Timer(s, cmd, h) <= 0.25
  {
  }

  lemma WalkKeeps(m: Grid, s: Phys, cmd: InputCmd, dt: real)
    requires !s.isOnLadder && BoundedSpeed(s) && 0.0 <= s.dropThroughTimer <= 0.25 && s.ladderMinY <= s.ladderMaxY
    requires UseDt(cmd, dt) > 0.0
    ensures StateInv(Walk(m, s, cmd, dt)) && !Walk(m, s, cmd, dt).isOnLadder
  {
    hide Walk;
    WalkFrame(m, s, cmd, dt);
    WalkBounded(m, s, cmd, dt);
    TimerRange(s, cmd, UseDt(cmd, dt));
  }

  /** Where a climbing step can end. */
  lemma ClimbKeeps(m: Grid, s: Phys, cmd: InputCmd, h: real)
    requires StateInv(s) && s.isOnLadder
    ensures var t := Climb(m, s, cmd, h);
            && BoundedSpeed(t) && t.dropThroughTimer == s.dropThroughTimer
            && t.ladderMinY == s.ladderMinY && t.ladderMaxY == s.ladderMaxY
            && (Footing(m, s, cmd, h).hit ==> !t.isOnLadder)
            && (!Footing(m, s, cmd, h).hit ==> StateInv(t))
            && (t.isOnLadder ==> t.x == s.ladderCenterX && s.ladderMinY <= t.y <= LadderTop(s)
                                 && t.ladderCenterX == s.ladderCenterX)
  {
    hide Ground;
  }

  lemma SimulateKeeps(m: Grid, s: Phys, cmd: InputCmd, dt: real)
    requires StateInv(s) && UseDt(cmd, dt) > 0.0
    ensures var t := Simulate(m, s, cmd, dt);
            && StateInv(t)
            && (t.isOnLadder ==> t.x == t.ladderCenterX && t.ladderMinY <= t.y <= LadderTop(t))
            && (!s.isOnLadder ==> !t.isOnLadder)
  {
    hide Walk, Climb;
    var h := UseDt(cmd, dt);
    if !s.isOnLadder {
      WalkKeeps(m, s, cmd, dt);
    } else if cmd.jump {
      WalkKeeps(m, JumpOff(s), cmd, dt);
    } else {
      ClimbKeeps(m, s, cmd, h);
      if Footing(m, s, cmd, h).hit {
        WalkKeeps(m, Climb(m, s, cmd, h), cmd, dt);
      }
    }
  }

  lemma BoardKeeps(m: Grid, s: Phys, onLadder: bool, px: real, py: real)
    requires StateInv(s)
    ensures StateInv(BoardLadder(m, s, onLadder, px, py))
  {
    if onLadder && m.loaded {
      var cx, row := WorldToCell(px, m.csx), WorldToCell(py, m.csy);
      var cy := if m.IsLadder(cx, row) then row else row - 1;
      LowEnd(m, cx, cy);
      HighEnd(m, cx, cy);
      EdgeMono(LadderLow(m, cx, cy), LadderHigh(m, cx, cy) + 1, m.csy);
    }
  }

  /** In every state that any run of inputs and ladder reports reaches from the initial one, the speed and the
      drop timer are in range, the ladder's bottom is not above its top, and a player on a ladder is neither
      grounded nor jumping and moves no faster than it climbs. */
  lemma {:induction false} HistoryKeeps(m: Grid, s: Phys, events: seq<Event>, dt: real)
    requires StateInv(s) && dt > 0.0
    ensures StateInv(History(m, s, events, dt))
    decreases |events|
  {
    hide Simulate, BoardLadder;
    if events != [] {
      match events[0] {
        case Input(cmd) => SimulateKeeps(m, s, cmd, dt);
        case Report(onLadder, px, py) => BoardKeeps(m, s, onLadder, px, py);
      }
      HistoryKeeps(m, Apply(m, s, events[0], dt), events[1..], dt);
    }
  }

  lemma ReachableStates(m: Grid, events: seq<Event>, dt: real)
    requires dt > 0.0
    ensures StateInv(History(m, INITIAL_PHYS, events, dt))
  {
    HistoryKeeps(m, INITIAL_PHYS, events, dt);
  }

  // ---- Rising states ----

  lemma StepClear(m: Grid, s: Phys, e: Event, dt: real)
    requires s.isOnLadder || Clear(m, s)
    ensures Apply(m, s, e, dt).isOnLadder || Clear(m, Apply(m, s, e, dt))
  {
    hide Ceiling, Ground, BeforeFall, MoveUpDown;
    if e.Input? {
      var h := UseDt(e.cmd, dt);
      MoveClear(m, BeforeFall(m, s, e.cmd, h), h);
      MoveClear(m, BeforeFall(m, JumpOff(s), e.cmd, h), h);
      MoveClear(m, BeforeFall(m, Climb(m, s, e.cmd, h), e.cmd, h), h);
    }
  }

  lemma {:induction false} HistoryClear(m: Grid, s: Phys, events: seq<Event>, dt: real)
    requires s.isOnLadder || Clear(m, s)
    ensures var t := History(m, s, events, dt);
            t.isOnLadder || Clear(m, t)
    decreases |events|
  {
    hide Apply, Clear;
    if events != [] {
      StepClear(m, s, events[0], dt);
      HistoryClear(m, Apply(m, s, events[0], dt), events[1..], dt);
    }
  }

  /** In every reachable state off the ladders the speed is in range and, if the player rises, no ceiling is within
      the threshold of its head: so in a closed room it is in the state that containment starts from. */
  lemma ReachableInRoom(m: Grid, b: Room, s: Phys, dt: real)
    requires dt > 0.0 && Reachable(m, s, dt) && !s.isOnLadder
    ensures BoundedSpeed(s) && Clear(m, s)
    ensures Inside(m, b, s.x, s.y) ==> InRoom(m, b, s)
  {
    hide History, Ceiling;
    var events :| History(m, INITIAL_PHYS, events, dt) == s;
    ReachableStates(m, events, dt);
    HistoryClear(m, INITIAL_PHYS, events, dt);
  }

  // ---- Climbing up ----

  predicate ClimbsUp(cmd: InputCmd) {
    cmd.moveUp && !cmd.moveDown && !cmd.jump
  }

  predicate AllClimbUp(cmds: seq<InputCmd>) {
    forall i :: 0 <= i < |cmds| ==> ClimbsUp(cmds[i])
  }

  /** The time the steps take. */
  function Duration(cmds: seq<InputCmd>, dt: real): real {
    if cmds == [] then 0.0 else UseDt(cmds[0], dt) + Duration(cmds[1..], dt)
  }

  lemma {:induction false} DurationAtLeast(cmds: seq<InputCmd>, dt: real, d: real)
    requires forall i :: 0 <= i < |cmds| ==> UseDt(cmds[i], dt) >= d
    ensures Duration(cmds, dt) >= |cmds| as real * d
  {
    if cmds != [] {
      DurationAtLeast(cmds[1..], dt, d);
      assert |cmds| as real * d == (|cmds| - 1) as real * d + d;
    }
  }

  lemma ClimbUpStep(m: Grid, s: Phys, cmd: InputCmd, dt: real)
    requires s.isOnLadder && ClimbsUp(cmd) && UseDt(cmd, dt) > 0.0 && s.ladderMinY <= s.y < LadderTop(s)
    ensures var t := Simulate(m, s, cmd, dt);
            var y := s.y + CLIMB_SPEED * UseDt(cmd, dt);
            && t.isOnLadder == (y < LadderTop(s))
            && t.y == (if y < LadderTop(s) then y else LadderTop(s))
            && t.ladderMinY == s.ladderMinY && t.ladderMaxY == s.ladderMaxY
            && t.lastInputSeq == s.lastInputSeq
  {
    hide Walk;
    assert !Footing(m, s, cmd, UseDt(cmd, dt)).hit;
  }

  lemma OffStaysOff(m: Grid, s: Phys, cmds: seq<InputCmd>, dt: real)
    requires !s.isOnLadder
    ensures !Steps(m, s, cmds, dt).isOnLadder
    decreases |cmds|
  {
    if cmds != [] {
      WalkFrame(m, s, cmds[0], dt);
      OffStaysOff(m, Simulate(m, s, cmds[0], dt), cmds[1..], dt);
    }
  }

  /** Holding up, the player is still on the ladder, at the height climbed, exactly while that is below the top. */
  lemma {:induction false} ClimbUpExact(m: Grid, s: Phys, cmds: seq<InputCmd>, dt: real)
    requires s.isOnLadder && s.ladderMinY <= s.y < LadderTop(s) && dt > 0.0 && AllClimbUp(cmds)
    ensures var t := Steps(m, s, cmds, dt);
            && (t.isOnLadder <==> s.y + CLIMB_SPEED * Duration(cmds, dt) < LadderTop(s))
            && (t.isOnLadder ==> t.y == s.y + CLIMB_SPEED * Duration(cmds, dt))
    decreases |cmds|
  {
    hide Simulate;
    if cmds != [] {
      var t := Simulate(m, s, cmds[0], dt);
      ClimbUpStep(m, s, cmds[0], dt);
      DurationAtLeast(cmds[1..], dt, 0.0);
      if t.isOnLadder {
        ClimbUpExact(m, t, cmds[1..], dt);
      } else {
        OffStaysOff(m, t, cmds[1..], dt);
      }
    }
  }

  lemma CoversHeight(height: real, d: real, n: int, duration: real)
    requires d > 0.0 && n >= Ceil(height / (CLIMB_SPEED * d)) && duration >= n as real * d
    ensures CLIMB_SPEED * duration >= height
  {
    var share := CLIMB_SPEED * d;
    var q := height / share;
    assert q * share == height;
    CeilAtLeast(q);
    assert q <= n as real;
    MulMono(q, n as real, share);
    assert n as real * share == CLIMB_SPEED * (n as real * d);
  }

  /** With steps no shorter than d, holding up leaves the ladder within the number of steps that cover the
      remaining height at CLIMB_SPEED * d each. */
  lemma ClimbUpLeaves(m: Grid, s: Phys, cmds: seq<InputCmd>, dt: real, d: real)
    requires s.isOnLadder && s.ladderMinY <= s.y < LadderTop(s) && dt > 0.0 && AllClimbUp(cmds) && d > 0.0
    requires forall i :: 0 <= i < |cmds| ==> UseDt(cmds[i], dt) >= d
    requires |cmds| >= Ceil((LadderTop(s) - s.y) / (CLIMB_SPEED * d))
    ensures !Steps(m, s, cmds, dt).isOnLadder
  {
    hide Steps, Duration, Ceil;
    DurationAtLeast(cmds, dt, d);
    CoversHeight(LadderTop(s) - s.y, d, |cmds|, Duration(cmds, dt));
    ClimbUpExact(m, s, cmds, dt);
  }

  // ---- Climbing down ----

  predicate ClimbsDown(cmd: InputCmd) {
    cmd.moveDown && !cmd.jump
  }

  predicate AllClimbDown(cmds: seq<InputCmd>) {
    forall i :: 0 <= i < |cmds| ==> ClimbsDown(cmds[i])
  }

  function DescentY(s: Phys, time: real): real {
    var y := s.y - CLIMB_SPEED * time;
    if y < s.ladderMinY then s.ladderMinY else y
  }

  /** The height after the first `i` steps of the descent is on solid ground. */
  predicate FindsFooting(m: Grid, s: Phys, cmds: seq<InputCmd>, dt: real, i: nat)
    requires i <= |cmds|
  {
    Ground(m, s.ladderCenterX, DescentY(s, Duration(cmds[..i], dt)), true).hit
  }

  lemma ClimbDownStep(m: Grid, s: Phys, cmd: InputCmd, dt: real)
    requires s.isOnLadder && ClimbsDown(cmd) && UseDt(cmd, dt) > 0.0 && s.ladderMinY <= s.y <= LadderTop(s)
    ensures var t := Simulate(m, s, cmd, dt);
            var y := DescentY(s, UseDt(cmd, dt));
            && t.isOnLadder == !Ground(m, s.ladderCenterX, y, true).hit
            && (t.isOnLadder ==>
                  && t.y == y && t.ladderCenterX == s.ladderCenterX
                  && t.ladderMinY == s.ladderMinY && t.ladderMaxY == s.ladderMaxY)
  {
    hide Ground;
    var h := UseDt(cmd, dt);
    assert ClimbedY(s, cmd, h) == DescentY(s, h);
    if Footing(m, s, cmd, h).hit {
      WalkFrame(m, Climb(m, s, cmd, h), cmd, dt);
    }
  }

  /** Holding down, the player is still on the ladder, at the height descended to or the ladder's bottom, exactly if
      no step on the way ended on solid ground. */
  lemma {:induction false} ClimbDownExact(m: Grid, s: Phys, cmds: seq<InputCmd>, dt: real)
    requires s.isOnLadder && s.ladderMinY <= s.y <= LadderTop(s) && dt > 0.0 && AllClimbDown(cmds)
    ensures var t := Steps(m, s, cmds, dt);
            && (t.isOnLadder <==> forall i :: 1 <= i <= |cmds| ==> !FindsFooting(m, s, cmds, dt, i))
            && (t.isOnLadder ==> t.y == DescentY(s, Duration(cmds, dt)))
    decreases |cmds|
  {
    hide Simulate, Ground;
    if cmds != [] {
      var t, rest := Simulate(m, s, cmds[0], dt), cmds[1..];
      ClimbDownStep(m, s, cmds[0], dt);
      assert cmds[..1][0] == cmds[0] && cmds[..1][1..] == [];
      assert Duration(cmds[..1], dt) == UseDt(cmds[0], dt);
      assert t.isOnLadder == !FindsFooting(m, s, cmds, dt, 1);
      if t.isOnLadder {
        ClimbDownExact(m, t, rest, dt);
        DurationAtLeast(rest, dt, 0.0);
        forall i | 1 <= i <= |rest| ensures FindsFooting(m, t, rest, dt, i) == FindsFooting(m, s, cmds, dt, i + 1) {
          assert cmds[..i + 1][1..] == rest[..i];
          DurationAtLeast(rest[..i], dt, 0.0);
        }
        forall i | 2 <= i <= |cmds| ensures FindsFooting(m, s, cmds, dt, i) == FindsFooting(m, t, rest, dt, i - 1) {
        }
      } else {
        OffStaysOff(m, t, rest, dt);
      }
    }
  }

  /** The descent does not pass over the row's top between two steps: its steps are no longer than the two
      thresholds about the top, or the ladder ends there. */
  predicate CannotPass(m: Grid, s: Phys, cmds: seq<InputCmd>, dt: real, r: int) {
    || s.ladderMinY - PLAYER_HALF_H >= Top(m, r) - GROUND_THRESHOLD
    || forall i :: 0 <= i < |cmds| ==> CLIMB_SPEED * UseDt(cmds[i], dt) <= 2.0 * GROUND_THRESHOLD
  }

  /** A solid row on the way down, which the ladder reaches. */
  predicate SolidBelow(m: Grid, s: Phys, r: int) {
    && m.loaded && m.csy >= 0.2 && Supported(m, s.ladderCenterX, true, r)
    && s.ladderMinY - PLAYER_HALF_H < Top(m, r) + GROUND_THRESHOLD <= s.y - PLAYER_HALF_H
  }

  lemma {:induction false} DescentEnds(m: Grid, s: Phys, cmds: seq<InputCmd>, dt: real, r: int)
    requires s.isOnLadder && s.ladderMinY <= s.y <= LadderTop(s) && dt > 0.0 && AllClimbDown(cmds)
    requires SolidBelow(m, s, r) && CannotPass(m, s, cmds, dt, r)
    requires CLIMB_SPEED * Duration(cmds, dt) >= s.y - PLAYER_HALF_H - Top(m, r)
    ensures !Steps(m, s, cmds, dt).isOnLadder
    decreases |cmds|
  {
    hide Simulate, Top, Supported, Ground;
    var t, rest := Simulate(m, s, cmds[0], dt), cmds[1..];
    var y := DescentY(s, UseDt(cmds[0], dt));
    ClimbDownStep(m, s, cmds[0], dt);
    if y - PLAYER_HALF_H < Top(m, r) + GROUND_THRESHOLD {
      FootRowIs(m, y, r);
      GroundHit(m, s.ladderCenterX, y, true);
    }
    if t.isOnLadder {
      DescentEnds(m, t, rest, dt, r);
    } else {
      OffStaysOff(m, t, rest, dt);
    }
  }

  /** With steps no shorter than d, holding down leaves the ladder within the number of steps that cover the height
      above a solid row that the descent cannot pass. */
  lemma ClimbDownLeaves(m: Grid, s: Phys, cmds: seq<InputCmd>, dt: real, d: real, r: int)
    requires s.isOnLadder && s.ladderMinY <= s.y <= LadderTop(s) && dt > 0.0 && AllClimbDown(cmds) && d > 0.0
    requires SolidBelow(m, s, r) && CannotPass(m, s, cmds, dt, r)
    requires forall i :: 0 <= i < |cmds| ==> UseDt(cmds[i], dt) >= d
    requires |cmds| >= Ceil((s.y - PLAYER_HALF_H - Top(m, r)) / (CLIMB_SPEED * d))
    ensures !Steps(m, s, cmds, dt).isOnLadder
  {
    hide Steps, Duration, Ceil, SolidBelow, CannotPass;
    DurationAtLeast(cmds, dt, d);
    CoversHeight(s.y - PLAYER_HALF_H - Top(m, r), d, |cmds|, Duration(cmds, dt));
    DescentEnds(m, s, cmds, dt, r);
  }

  /** Any longer step can pass a solid row: from a boarded ladder just above the threshold to below it. */
  lemma LongStepPasses(h: real)
    requires 2.0 * GROUND_THRESHOLD < CLIMB_SPEED * h && h < 0.1
    ensures var m := OneTile(1.0);
            var s := BoardLadder(m, INITIAL_PHYS, true, 0.5, 1.0 + GROUND_THRESHOLD + PLAYER_HALF_H);
            var t := Simulate(m, s, IDLE_INPUT.(moveDown := true, deltaTime := h), CLIENT_DT);
            SolidBelow(m, s, 0) && t.isOnLadder && t.y - PLAYER_HALF_H < Top(m, 0) - GROUND_THRESHOLD
  {
    var m := OneTile(1.0);
    var s := BoardLadder(m, INITIAL_PHYS, true, 0.5, 1.0 + GROUND_THRESHOLD + PLAYER_HALF_H);
    var cmd := IDLE_INPUT.(moveDown := true, deltaTime := h);
    OneTileRow(1.0, 0);
    ClimbDownStep(m, s, cmd, CLIENT_DT);
    var y := DescentY(s, h);
    FootRowIs(m, y, 0);
    GroundHit(m, 0.5, y, true);
  }

  // ---- The acknowledged input ----

  /** The step ends on the ladder, or by climbing off its top. */
  predicate EndsOnLadder(m: Grid, s: Phys, cmd: InputCmd, dt: real) {
    s.isOnLadder && !cmd.jump && !Footing(m, s, cmd, UseDt(cmd, dt)).hit
  }

  /** A step acknowledges its input exactly when it does not end in the ladder part. The protocol describes the
      acknowledged number as that of the last input processed; for a new number that holds for precisely these
      steps. */
  lemma AcknowledgedExactly(m: Grid, s: Phys, cmd: InputCmd, dt: real)
    ensures var t := Simulate(m, s, cmd, dt);
            && t.lastInputSeq == (if cmd.inputSeq != 0 && !EndsOnLadder(m, s, cmd, dt) then cmd.inputSeq
                                  else s.lastInputSeq)
            && (cmd.inputSeq != 0 && cmd.inputSeq != s.lastInputSeq ==>
                  (t.lastInputSeq == cmd.inputSeq <==> !EndsOnLadder(m, s, cmd, dt)))
  {
    hide Walk, Ground;
    if !s.isOnLadder {
      WalkFrame(m, s, cmd, dt);
    } else if cmd.jump {
      WalkFrame(m, JumpOff(s), cmd, dt);
    } else {
      WalkFrame(m, Climb(m, s, cmd, UseDt(cmd, dt)), cmd, dt);
    }
  }

  /** It happens on every map: a player boards a ladder at any place, and its next input is not acknowledged. */
  lemma LadderInputUnacknowledged(m: Grid, px: real, py: real, seqNo: nat, dt: real)
    requires seqNo != 0
    ensures var s := BoardLadder(m, INITIAL_PHYS, true, px, py);
            var cmd := IDLE_INPUT.(inputSeq := seqNo);
            EndsOnLadder(m, s, cmd, dt) && Simulate(m, s, cmd, dt).lastInputSeq == 0
  {
    AcknowledgedExactly(m, BoardLadder(m, INITIAL_PHYS, true, px, py), IDLE_INPUT.(inputSeq := seqNo), dt);
  }
}
