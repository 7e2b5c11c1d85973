/** What a simulation step leaves alone, and sequences of steps. */
module Motion {
  import opened TileMap
  import opened Physics

  /** Two states agree on everything about ladders and on the acknowledged input. */
  predicate SameLadder(s: Phys, t: Phys) {
    && t.isOnLadder == s.isOnLadder
    && t.ladderCenterX == s.ladderCenterX
    && t.ladderMinY == s.ladderMinY
    && t.ladderMaxY == s.ladderMaxY
    && t.lastInputSeq == s.lastInputSeq
  }

  lemma AccelerateFrame(m: Grid, s: Phys, cmd: InputCmd, h: real)
    ensures var t := Accelerate(m, s, cmd, h);
            SameLadder(s, t) && t.x == s.x && t.y == s.y && t.dropThroughTimer == s.dropThroughTimer
  {
  }

  /** Up to the vertical move, a step leaves the height and the ladder alone. */
  lemma BeforeFallFrame(m: Grid, s: Phys, cmd: InputCmd, h: real)
    ensures var t := BeforeFall(m, s, cmd, h);
            && SameLadder(s, t) && t.y == s.y && t.dropThroughTimer == Timer(s, cmd, h)
            && t.vy == Accelerate(m, Steer(s, cmd, h), cmd, h).vy
            && t.isGrounded == Accelerate(m, Steer(s, cmd, h), cmd, h).isGrounded
            && (MoveX(cmd) == 0.0 ==> t.x == s.x)
  {
    var s1 := Steer(s, cmd, h);
    AccelerateFrame(m, s1, cmd, h);
    var s2 := Accelerate(m, s1, cmd, h);
    var t := MoveAcross(m, s2, cmd, h);
    if MoveX(cmd) == 0.0 {
      assert MoveX(cmd) * MOVE_SPEED * h == 0.0;
    }
  }

  /** The vertical move changes only the height, its velocity, and whether the player is grounded or jumping. */
  lemma MoveUpDownFrame(m: Grid, s: Phys, h: real)
    ensures var t := MoveUpDown(m, s, h);
            t == s.(y := t.y, vy := t.vy, isGrounded := t.isGrounded, isJumping := t.isJumping)
  {
    hide FallFrom, Ceiling;
  }

  lemma FinishFrame(m: Grid, mid: Phys, cmd: InputCmd, h: real)
    ensures var t := Acknowledge(MoveUpDown(m, mid, h), cmd);
            && t.x == mid.x && t.dropThroughTimer == mid.dropThroughTimer
            && SameLadder(mid.(lastInputSeq := t.lastInputSeq), t)
            && t.lastInputSeq == (if cmd.inputSeq != 0 then cmd.inputSeq else mid.lastInputSeq)
  {
    MoveUpDownFrame(m, mid, h);
  }

  lemma WalkFrame(m: Grid, s: Phys, cmd: InputCmd, dt: real)
    ensures var t := Walk(m, s, cmd, dt);
            var mid := BeforeFall(m, s, cmd, UseDt(cmd, dt));
            && t == Acknowledge(MoveUpDown(m, mid, UseDt(cmd, dt)), cmd)
            && t.x == mid.x && mid.y == s.y
            && t.dropThroughTimer == mid.dropThroughTimer == Timer(s, cmd, UseDt(cmd, dt))
            && SameLadder(s.(lastInputSeq := t.lastInputSeq), t)
            && t.lastInputSeq == (if cmd.inputSeq != 0 then cmd.inputSeq else s.lastInputSeq)
  {
    hide MoveUpDown, BeforeFall;
    BeforeFallFrame(m, s, cmd, UseDt(cmd, dt));
    FinishFrame(m, BeforeFall(m, s, cmd, UseDt(cmd, dt)), cmd, UseDt(cmd, dt));
  }

  function Steps(m: Grid, s: Phys, cmds: seq<InputCmd>, dt: real): Phys
    decreases |cmds|
  {
    if cmds == [] then s else Steps(m, Simulate(m, s, cmds[0], dt), cmds[1..], dt)
  }
}
