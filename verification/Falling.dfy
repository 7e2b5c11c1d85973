/** Falling onto tiles. The loop of sub-steps lands exactly where a continuous sweep would, and a player on or
    above a supporting tile stays on or above it, as long as tiles are tall enough; how tall, exactly, for each. */
module Falling {
  import opened TileMap
  import opened Physics
  import opened Motion
  import opened Reach

  // ---- Rows and their tops ----

  function Top(m: Grid, r: int): real { m.CellTopY(r) }

  lemma TopStep(m: Grid, r: int)
    ensures Top(m, r) == Edge(r, m.csy) + m.csy
    ensures Top(m, r + 1) == Top(m, r) + m.csy
  {
    NextEdge(r, m.csy);
    NextEdge(r + 1, m.csy);
  }

  lemma TopGap(m: Grid, r: int, r': int)
    requires r < r'
    ensures Top(m, r) + m.csy <= Top(m, r')
  {
    TopStep(m, r);
    EdgeMono(r + 2, r' + 1, m.csy);
  }

  lemma FootRowIs(m: Grid, y: real, r: int)
    ensures FootRow(m, y) == r <==> Top(m, r) - m.csy <= y - PLAYER_HALF_H - GROUND_THRESHOLD < Top(m, r)
  {
    CellOf(y - PLAYER_HALF_H - GROUND_THRESHOLD, m.csy, r);
    TopStep(m, r);
  }

  /** The row holds the player up at this column span. */
  predicate Supported(m: Grid, x: real, ignoreFloating: bool, r: int) {
    RowSupports(m, x, r, ignoreFloating) && Top(m, r) > -FAR
  }

  // ---- Sub-steps ----

  lemma CeilAtLeast(r: real)
    ensures Ceil(r) as real >= r
  {
  }

  lemma DropIsShare(vy: real, h: real, n: real)
    requires n >= 1.0
    ensures vy * (h / n) == -(-(vy * h) / n)
    ensures n * (vy * (h / n)) == vy * h
  {
    var q := h / n;
    assert q * n == h;
    assert n * (vy * q) == vy * (q * n);
    var p := -(vy * h) / n;
    assert p * n == -(vy * h);
    assert (vy * q + p) * n == 0.0;
  }

  lemma ShareBound(total: real, n: real, bound: real)
    requires n >= 1.0 && 0.0 <= total <= n * bound
    ensures 0.0 <= total / n <= bound
  {
    var q := total / n;
    assert q * n == total;
    if q < 0.0 {
      MulLess(q, 0.0, n);
    }
    if q > bound {
      MulLess(bound, q, n);
    }
  }

  /** A sub-step is never longer than SUB_STEP, and the sub-steps add up to the whole move. */
  lemma SubSteps(vy: real, h: real)
    requires vy <= 0.0 && h > 0.0
    ensures -SUB_STEP <= Drop(vy, h) <= 0.0
    ensures StepsFor(vy, h) as real * Drop(vy, h) == vy * h
  {
    var n := StepsFor(vy, h);
    var total := -(vy * h);
    assert total >= 0.0 by { MulMono(0.0, -vy, h); }
    DropIsShare(vy, h, n as real);
    var drop := Drop(vy, h);
    assert drop == -(total / n as real);
    if total > 0.0 {
      CeilAtLeast(total / SUB_STEP);
      assert total / SUB_STEP <= n as real;
      assert total <= n as real * SUB_STEP;
    }
    ShareBound(total, n as real, SUB_STEP);
  }

  lemma GroundHit(m: Grid, x: real, y: real, ign: bool)
    requires m.loaded
    ensures var r := FootRow(m, y);
            Ground(m, x, y, ign) ==
            if Supported(m, x, ign, r) && Top(m, r) <= y - PLAYER_HALF_H + GROUND_THRESHOLD
            then Hit(true, Top(m, r)) else Hit(false, 0.0)
  {
  }

  // ---- Staying above a supporting row ----

  /** One sub-step from on or above a supporting row lands on or above it, or ends clear of it. */
  lemma SubStepStaysAbove(m: Grid, x: real, y: real, drop: real, ign: bool, r: int)
    requires m.loaded && m.csy >= 0.19 && -SUB_STEP <= drop <= 0.0
    requires Supported(m, x, ign, r) && y - PLAYER_HALF_H >= Top(m, r)
    ensures var g := Ground(m, x, y + drop, ign);
            if g.hit then g.at >= Top(m, r) else y + drop - PLAYER_HALF_H >= Top(m, r)
  {
    var y' := y + drop;
    var r' := FootRow(m, y');
    GroundHit(m, x, y', ign);
    FootRowIs(m, y', r');
    FootRowIs(m, y', r);
    if r' < r {
      TopGap(m, r', r);
    } else if r < r' {
      TopGap(m, r, r');
    }
  }

  lemma {:induction false} FallStaysAbove(m: Grid, x: real, y: real, drop: real, ign: bool, n: nat, r: int)
    requires m.loaded && m.csy >= 0.19 && -SUB_STEP <= drop <= 0.0
    requires Supported(m, x, ign, r) && y - PLAYER_HALF_H >= Top(m, r)
    ensures Fall(m, x, y, drop, ign, n).y - PLAYER_HALF_H >= Top(m, r)
    decreases n
  {
    if n > 0 {
      SubStepStaysAbove(m, x, y, drop, ign, r);
      if !Ground(m, x, y + drop, ign).hit {
        FallStaysAbove(m, x, y + drop, drop, ign, n - 1, r);
      }
    }
  }

  /** The vertical velocity with which the step moves: falling or at rest, not rising. */
  predicate Sinking(m: Grid, s: Phys, cmd: InputCmd, dt: real) {
    BeforeFall(m, s, cmd, UseDt(cmd, dt)).vy <= 0.0
  }

  /** The row supports the player where the horizontal move of this step takes it. */
  predicate SupportsStep(m: Grid, s: Phys, cmd: InputCmd, dt: real, r: int) {
    var mid := BeforeFall(m, s, cmd, UseDt(cmd, dt));
    Supported(m, mid.x, mid.dropThroughTimer > 0.0, r)
  }

  /** An off-ladder, non-rising step in which a row that supports the player and is not above its feet ends up
      above them. */
  predicate FallsThrough(m: Grid, s: Phys, cmd: InputCmd, dt: real, r: int) {
    && m.loaded && !s.isOnLadder && 0.0 < UseDt(cmd, dt) < 0.1
    && Sinking(m, s, cmd, dt) && SupportsStep(m, s, cmd, dt, r)
    && s.y - PLAYER_HALF_H >= Top(m, r)
    && Simulate(m, s, cmd, dt).y - PLAYER_HALF_H < Top(m, r)
  }

  lemma SinkingStep(m: Grid, s: Phys, cmd: InputCmd, dt: real)
    requires !s.isOnLadder && Sinking(m, s, cmd, dt)
    ensures var mid := BeforeFall(m, s, cmd, UseDt(cmd, dt));
            mid.y == s.y && Simulate(m, s, cmd, dt) == Acknowledge(Sink(m, mid, UseDt(cmd, dt)), cmd)
  {
    WalkFrame(m, s, cmd, dt);
  }

  lemma SinkStaysAbove(m: Grid, mid: Phys, h: real, r: int)
    requires m.loaded && m.csy >= 0.19 && mid.vy <= 0.0 && h > 0.0
    requires Supported(m, mid.x, mid.dropThroughTimer > 0.0, r) && mid.y - PLAYER_HALF_H >= Top(m, r)
    ensures Sink(m, mid, h).y - PLAYER_HALF_H >= Top(m, r)
  {
    SubSteps(mid.vy, h);
    FallStaysAbove(m, mid.x, mid.y, Drop(mid.vy, h), mid.dropThroughTimer > 0.0, StepsFor(mid.vy, h), r);
  }

  lemma NoFallThrough(m: Grid, s: Phys, cmd: InputCmd, dt: real, r: int)
    requires m.csy >= 0.19
    ensures !FallsThrough(m, s, cmd, dt, r)
  {
    if FallsThrough(m, s, cmd, dt, r) {
      SinkingStep(m, s, cmd, dt);
      SinkStaysAbove(m, BeforeFall(m, s, cmd, UseDt(cmd, dt)), UseDt(cmd, dt), r);
    }
  }

  // ---- Thinner tiles do not hold ----

  /** A single tile. */
  function OneTile(csy: real): Grid
    requires csy > 0.0
  {
    Tiles({PackCell(0, 0)}, {}, {}, 1.0, csy, true)
  }

  lemma OneTileSize(csy: real)
    requires csy > 0.0
    ensures var m := OneTile(csy);
            m.csy == csy && m.loaded && m.ladder == {}
  {
  }

  lemma OneTileRow(csy: real, r: int)
    requires csy > 0.0
    ensures RowSupports(OneTile(csy), 0.5, r, true) <==> r == 0
    ensures RowSupports(OneTile(csy), 0.5, r, false) <==> r == 0
  {
    var m := OneTile(csy);
    CellOf(0.5 - PLAYER_HALF_W + 0.01, 1.0, 0);
    CellOf(0.5 + PLAYER_HALF_W - 0.01, 1.0, 0);
    PackCellInjective(0, r, 0, 0);
    if r == 0 {
      assert Supports(m, 0, r, true) && Supports(m, 0, r, false);
    }
  }

  const SLOW_TICK: InputCmd := IDLE_INPUT.(deltaTime := 0.045)

  /** A short move is a single sub-step. */
  lemma SingleSubStep(vy: real, h: real)
    requires h > 0.0 && -SUB_STEP <= Travel(vy, h) <= 0.0
    ensures StepsFor(vy, h) == 1 && Drop(vy, h) == Travel(vy, h)
  {
    hide Travel;
    assert -Travel(vy, h) / SUB_STEP <= 1.0;
    assert Share(h, 1) == h;
  }

  lemma OneSubStep(m: Grid, x: real, y: real, drop: real, ign: bool)
    ensures Fall(m, x, y, drop, ign, 1) ==
            if Ground(m, x, y + drop, ign).hit
            then Landing(true, Ground(m, x, y + drop, ign).at + PLAYER_HALF_H)
            else Landing(false, y + drop)
  {
    hide Ground;
    assert Fall(m, x, y + drop, drop, ign, 0) == Landing(false, y + drop);
  }

  /** Feet exactly on the tile, at rest: the next step looks for ground in the row below. If the tile is at least as
      high as the threshold that happens after a full sub-step, otherwise at once. */
  lemma ThinTileFallsThrough(csy: real)
    requires 0.0 < csy < 0.19
    ensures var s := RestAt(0.5, csy + PLAYER_HALF_H);
            Reachable(OneTile(csy), s, CLIENT_DT) && FallsThrough(OneTile(csy), s, SLOW_TICK, CLIENT_DT, 0)
  {
    hide Reachable, Ground, Wall, Fall, StepsFor, Drop, RowSupports;
    var m, s := OneTile(csy), RestAt(0.5, csy + PLAYER_HALF_H);
    AtRestAnywhere(m, s.x, s.y, CLIENT_DT);
    var r := FootRow(m, s.y);
    GroundHit(m, 0.5, s.y, false);
    FootRowIs(m, s.y, 0);
    OneTileRow(csy, r);
    OneTileRow(csy, 0);
    TopStep(m, 0);
    BeforeFallFrame(m, s, SLOW_TICK, 0.045);
    var mid := BeforeFall(m, s, SLOW_TICK, 0.045);
    assert mid.vy == (if csy >= 0.1 then -2.0 else -GRAVITY * 0.045) && mid.x == 0.5;
    var drop := Travel(mid.vy, 0.045);
    SingleSubStep(mid.vy, 0.045);
    var y' := s.y + drop;
    var r' := FootRow(m, y');
    FootRowIs(m, y', 0);
    OneTileRow(csy, r');
    GroundHit(m, 0.5, y', false);
    OneSubStep(m, 0.5, s.y, drop, false);
    SinkingStep(m, s, SLOW_TICK, CLIENT_DT);
  }

  /** On maps with this cell height nobody ever falls through a supporting tile. */
  ghost predicate HoldsEveryone(csy: real) {
    forall m: Grid, s, cmd, dt, r :: m.csy == csy && Reachable(m, s, dt) ==> !FallsThrough(m, s, cmd, dt, r)
  }

  /** The cell height that the sub-stepping needs is exactly 0.19, the sub-step and the threshold together. */
  lemma HoldsExactlyFrom(csy: real)
    requires csy > 0.0
    ensures HoldsEveryone(csy) <==> csy >= SUB_STEP + GROUND_THRESHOLD
  {
    hide Reachable, FallsThrough, OneTile;
    if csy >= 0.19 {
      forall m: Grid, s, cmd, dt, r | m.csy == csy ensures !FallsThrough(m, s, cmd, dt, r) {
        NoFallThrough(m, s, cmd, dt, r);
      }
    } else {
      ThinTileFallsThrough(csy);
      OneTileSize(csy);
    }
  }

  // ---- The sub-step loop is a sweep ----

  /** The row's top lies in the window that the feet, give or take the threshold, pass over. */
  predicate InSweep(m: Grid, y: real, drop: real, n: nat, r: int) {
    var foot := y - PLAYER_HALF_H;
    foot + n as real * drop - GROUND_THRESHOLD < Top(m, r) <= foot + drop + GROUND_THRESHOLD
  }

  /** The highest supporting row whose top is passed over. */
  ghost predicate FirstMet(m: Grid, x: real, y: real, drop: real, ign: bool, n: nat, r: int) {
    && Supported(m, x, ign, r) && InSweep(m, y, drop, n, r)
    && forall r' :: Supported(m, x, ign, r') && InSweep(m, y, drop, n, r') ==> r' <= r
  }

  lemma SweepSplits(m: Grid, y: real, drop: real, n: nat, r: int)
    requires n >= 1 && -SUB_STEP <= drop <= 0.0
    ensures InSweep(m, y, drop, n, r) <==>
            InSweep(m, y, drop, 1, r) || (n > 1 && InSweep(m, y + drop, drop, n - 1, r))
  {
    assert n as real * drop == (n - 1) as real * drop + drop;
    MulMono(0.0, (n - 1) as real, -drop);
    if n > 1 {
      MulMono(1.0, (n - 1) as real, -drop);
    }
  }

  lemma FirstWindow(m: Grid, x: real, y: real, drop: real, ign: bool, r: int)
    requires m.loaded && m.csy >= 0.2 && -SUB_STEP <= drop <= 0.0
    requires InSweep(m, y, drop, 1, r)
    ensures FootRow(m, y + drop) == r
  {
    FootRowIs(m, y + drop, r);
  }

  /** No supporting top is passed over. */
  ghost predicate NoneMet(m: Grid, x: real, y: real, drop: real, ign: bool, n: nat) {
    forall r :: Supported(m, x, ign, r) ==> !InSweep(m, y, drop, n, r)
  }

  lemma HitIsFirstMet(m: Grid, x: real, y: real, drop: real, ign: bool, n: nat)
    requires m.loaded && m.csy >= 0.2 && -SUB_STEP <= drop <= 0.0 && n >= 1
    requires Ground(m, x, y + drop, ign).hit
    ensures var r := FootRow(m, y + drop);
            FirstMet(m, x, y, drop, ign, n, r) && Ground(m, x, y + drop, ign).at == Top(m, r)
  {
    var r := FootRow(m, y + drop);
    GroundHit(m, x, y + drop, ign);
    FootRowIs(m, y + drop, r);
    assert 1 as real * drop == drop;
    SweepSplits(m, y, drop, n, r);
    forall r' | Supported(m, x, ign, r') && InSweep(m, y, drop, n, r') ensures r' <= r {
      if r < r' {
        TopGap(m, r, r');
      }
    }
  }

  lemma MissIsNoneMet(m: Grid, x: real, y: real, drop: real, ign: bool)
    requires m.loaded && m.csy >= 0.2 && -SUB_STEP <= drop <= 0.0
    requires !Ground(m, x, y + drop, ign).hit
    ensures NoneMet(m, x, y, drop, ign, 1)
  {
    GroundHit(m, x, y + drop, ign);
    forall r | Supported(m, x, ign, r) ensures !InSweep(m, y, drop, 1, r) {
      if InSweep(m, y, drop, 1, r) {
        FirstWindow(m, x, y, drop, ign, r);
      }
    }
  }

  lemma MissThenRest(m: Grid, x: real, y: real, drop: real, ign: bool, n: nat)
    requires n > 1 && -SUB_STEP <= drop <= 0.0 && NoneMet(m, x, y, drop, ign, 1)
    ensures forall r :: FirstMet(m, x, y + drop, drop, ign, n - 1, r) ==> FirstMet(m, x, y, drop, ign, n, r)
    ensures NoneMet(m, x, y + drop, drop, ign, n - 1) ==> NoneMet(m, x, y, drop, ign, n)
  {
    forall r | Supported(m, x, ign, r)
      ensures InSweep(m, y, drop, n, r) <==> InSweep(m, y + drop, drop, n - 1, r)
    {
      SweepSplits(m, y, drop, n, r);
    }
  }

  lemma {:induction false} FallSweeps(m: Grid, x: real, y: real, drop: real, ign: bool, n: nat) returns (r: int)
    requires m.loaded && m.csy >= 0.2 && -SUB_STEP <= drop <= 0.0 && n >= 1
    ensures var f := Fall(m, x, y, drop, ign, n);
            if f.landed then FirstMet(m, x, y, drop, ign, n, r) && f.y == Top(m, r) + PLAYER_HALF_H
            else NoneMet(m, x, y, drop, ign, n) && f.y == y + n as real * drop
    decreases n
  {
    var y' := y + drop;
    r := FootRow(m, y');
    if Ground(m, x, y', ign).hit {
      HitIsFirstMet(m, x, y, drop, ign, n);
    } else {
      MissIsNoneMet(m, x, y, drop, ign);
      if n > 1 {
        r := FallSweeps(m, x, y', drop, ign, n - 1);
        MissThenRest(m, x, y, drop, ign, n);
        assert n as real * drop == (n - 1) as real * drop + drop;
      } else {
        assert Fall(m, x, y', drop, ign, 0) == Landing(false, y');
        assert 1 as real * drop == drop;
      }
    }
  }

  /** Where the vertical move from `mid` ends: on the highest supporting top that it passes, or after the full
      distance if it passes none. */
  ghost predicate EndsAsSweep(m: Grid, mid: Phys, h: real, s': Phys) {
    var ign := mid.dropThroughTimer > 0.0;
    var drop, n := Drop(mid.vy, h), StepsFor(mid.vy, h);
    && (forall r :: FirstMet(m, mid.x, mid.y, drop, ign, n, r) ==>
          s'.y == Top(m, r) + PLAYER_HALF_H && s'.isGrounded && s'.vy == -2.0 && !s'.isJumping)
    && (NoneMet(m, mid.x, mid.y, drop, ign, n) ==>
          s'.y == mid.y + mid.vy * h && s'.vy == mid.vy && s'.isGrounded == mid.isGrounded)
  }

  lemma SinkSweeps(m: Grid, mid: Phys, h: real)
    requires m.loaded && m.csy >= 0.2 && h > 0.0 && mid.vy <= 0.0
    ensures EndsAsSweep(m, mid, h, Sink(m, mid, h))
  {
    hide Fall, InSweep, Supported, Top;
    SubSteps(mid.vy, h);
    var ign := mid.dropThroughTimer > 0.0;
    var drop, n := Drop(mid.vy, h), StepsFor(mid.vy, h);
    var r := FallSweeps(m, mid.x, mid.y, drop, ign, n);
    assert FallFrom(m, mid, h) == Fall(m, mid.x, mid.y, drop, ign, n);
    if FallFrom(m, mid, h).landed {
      assert forall r' :: FirstMet(m, mid.x, mid.y, drop, ign, n, r') ==> r' == r;
    } else {
      assert forall r' :: !FirstMet(m, mid.x, mid.y, drop, ign, n, r');
    }
  }

  /** The two outcomes are all there is. */
  lemma MeetsOrNot(m: Grid, mid: Phys, h: real)
    requires m.loaded && m.csy >= 0.2 && h > 0.0 && mid.vy <= 0.0
    ensures var ign := mid.dropThroughTimer > 0.0;
            var drop, n := Drop(mid.vy, h), StepsFor(mid.vy, h);
            (exists r :: FirstMet(m, mid.x, mid.y, drop, ign, n, r)) <==> !NoneMet(m, mid.x, mid.y, drop, ign, n)
  {
    SubSteps(mid.vy, h);
    var r := FallSweeps(m, mid.x, mid.y, Drop(mid.vy, h), mid.dropThroughTimer > 0.0, StepsFor(mid.vy, h));
  }

  /** An off-ladder, non-rising step lands exactly when it passes a supporting top, stops exactly on the highest
      one it passes, and otherwise moves by the full distance. */
  lemma LandsOnFirstMet(m: Grid, s: Phys, cmd: InputCmd, dt: real)
    requires m.loaded && m.csy >= 0.2 && !s.isOnLadder && UseDt(cmd, dt) > 0.0 && Sinking(m, s, cmd, dt)
    ensures var mid := BeforeFall(m, s, cmd, UseDt(cmd, dt));
            mid.y == s.y && EndsAsSweep(m, mid, UseDt(cmd, dt), Simulate(m, s, cmd, dt))
  {
    var h := UseDt(cmd, dt);
    var mid := BeforeFall(m, s, cmd, h);
    SinkingStep(m, s, cmd, dt);
    SinkSweeps(m, mid, h);
  }

  predicate SinksOffLadder(m: Grid, s: Phys, cmd: InputCmd, dt: real) {
    m.loaded && !s.isOnLadder && UseDt(cmd, dt) > 0.0 && Sinking(m, s, cmd, dt)
  }

  ghost predicate LandsAsSweep(m: Grid, s: Phys, cmd: InputCmd, dt: real) {
    EndsAsSweep(m, BeforeFall(m, s, cmd, UseDt(cmd, dt)), UseDt(cmd, dt), Simulate(m, s, cmd, dt))
  }

  /** On maps with this cell height every off-ladder, non-rising step lands as the sweep does. */
  ghost predicate SweepsAlways(csy: real) {
    forall m: Grid, s, cmd, dt ::
      m.csy == csy && Reachable(m, s, dt) && SinksOffLadder(m, s, cmd, dt) ==> LandsAsSweep(m, s, cmd, dt)
  }

  /** Just inside the window below a tile's top, the feet are in the row below the tile. */
  lemma TileTooThin(csy: real, y: real)
    requires 0.0 < csy < 0.2 && csy - GROUND_THRESHOLD <= y - PLAYER_HALF_H < GROUND_THRESHOLD
    ensures var m := OneTile(csy);
            m.loaded && m.csy == csy && Top(m, 0) == csy && forall ign :: !Ground(m, 0.5, y, ign).hit
  {
    hide Ground;
    var m := OneTile(csy);
    var r := FootRow(m, y);
    TopStep(m, 0);
    FootRowIs(m, y, 0);
    OneTileRow(csy, r);
    forall ign ensures !Ground(m, 0.5, y, ign).hit {
      GroundHit(m, 0.5, y, ign);
    }
  }

  lemma TileMet(csy: real, y: real, drop: real)
    requires 0.0 < csy && drop <= 0.0 && y + drop == csy - GROUND_THRESHOLD + PLAYER_HALF_H
    ensures FirstMet(OneTile(csy), 0.5, y, drop, false, 1, 0)
  {
    var m := OneTile(csy);
    TopStep(m, 0);
    OneTileRow(csy, 0);
    assert 1 as real * drop == drop;
    forall r | Supported(m, 0.5, false, r) ensures r == 0 {
      OneTileRow(csy, r);
    }
  }

  /** A short step from rest falls by little. */
  lemma ShortFall(vy: real, h: real)
    requires 0.0 < h <= 0.02 && vy == -GRAVITY * h
    ensures -h < Travel(vy, h) < 0.0
  {
    MulLess(vy, 0.0, h);
    MulLess(-1.0, vy, h);
  }

  /** Falling from rest into the window below the top of a tile that is too thin. */
  lemma ThinTileMissed(csy: real)
    requires 0.0 < csy < 0.2
    ensures !SweepsAlways(csy)
  {
    hide Ground, OneTile, Wall, Fall, StepsFor, Drop, FirstMet, NoneMet, Reachable, Travel;
    var m, h := OneTile(csy), (0.2 - csy) / 10.0;
    var cmd := IDLE_INPUT.(deltaTime := h);
    var vy := -GRAVITY * h;
    var drop := Travel(vy, h);
    ShortFall(vy, h);
    var y' := csy - GROUND_THRESHOLD + PLAYER_HALF_H;
    var s := RestAt(0.5, y' - drop);
    TileTooThin(csy, s.y);
    TileTooThin(csy, y');
    OneTileSize(csy);
    AtRestAnywhere(m, 0.5, s.y, CLIENT_DT);
    BeforeFallFrame(m, s, cmd, h);
    var mid := BeforeFall(m, s, cmd, h);
    assert mid.vy == vy && mid.x == s.x && mid.y == s.y && mid.dropThroughTimer == 0.0;
    SinkingStep(m, s, cmd, CLIENT_DT);
    SingleSubStep(mid.vy, h);
    OneSubStep(m, 0.5, s.y, drop, false);
    TileMet(csy, s.y, drop);
    assert Sink(m, mid, h).y == mid.y + drop;
    assert SinksOffLadder(m, s, cmd, CLIENT_DT) && !LandsAsSweep(m, s, cmd, CLIENT_DT);
  }

  /** The cell height that the sweep needs is exactly 0.2, the window of two thresholds about the feet. */
  lemma SweepsExactlyFrom(csy: real)
    requires csy > 0.0
    ensures SweepsAlways(csy) <==> csy >= 2.0 * GROUND_THRESHOLD
  {
    hide Reachable;
    if csy >= 0.2 {
      forall m: Grid, s, cmd, dt | m.csy == csy && SinksOffLadder(m, s, cmd, dt)
        ensures LandsAsSweep(m, s, cmd, dt)
      {
        LandsOnFirstMet(m, s, cmd, dt);
      }
    } else {
      ThinTileMissed(csy);
    }
  }

  // ---- Standing still ----

  lemma StandsGrounded(m: Grid, s: Phys, r: int)
    requires m.loaded && m.csy >= 0.19 && s.vy <= 0.0 && s.y - PLAYER_HALF_H == Top(m, r)
    requires Supported(m, s.x, s.dropThroughTimer > 0.0, r)
    ensures StartsGrounded(m, s)
  {
    FootRowIs(m, s.y, r);
    GroundHit(m, s.x, s.y, s.dropThroughTimer > 0.0);
  }

  lemma SinkInPlace(m: Grid, mid: Phys, h: real, r: int)
    requires m.loaded && m.csy >= 0.19 && mid.vy <= 0.0 && h > 0.0 && mid.y - PLAYER_HALF_H == Top(m, r)
    requires Supported(m, mid.x, mid.dropThroughTimer > 0.0, r)
    ensures FallFrom(m, mid, h) == Landing(true, mid.y)
  {
    SubSteps(mid.vy, h);
    var y' := mid.y + Drop(mid.vy, h);
    FootRowIs(m, y', r);
    GroundHit(m, mid.x, y', mid.dropThroughTimer > 0.0);
  }

  /** With feet exactly on a supporting top, any step without a jump that stays on that row keeps the height. */
  lemma StandingStep(m: Grid, s: Phys, cmd: InputCmd, dt: real, r: int)
    requires m.loaded && m.csy >= 0.19 && !s.isOnLadder && 0.0 < UseDt(cmd, dt) && !cmd.jump && s.vy <= 0.0
    requires s.y - PLAYER_HALF_H == Top(m, r)
    requires Supported(m, s.x, Timer(s, cmd, UseDt(cmd, dt)) > 0.0, r)
    requires SupportsStep(m, s, cmd, dt, r)
    ensures var s' := Simulate(m, s, cmd, dt);
            s'.y == s.y && s'.vy == -2.0 && s'.isGrounded && !s'.isJumping
  {
    var h := UseDt(cmd, dt);
    var t := Steer(s, cmd, h);
    var mid := BeforeFall(m, s, cmd, h);
    BeforeFallFrame(m, s, cmd, h);
    StandsGrounded(m, t, r);
    assert mid.vy == -2.0;
    SinkingStep(m, s, cmd, dt);
    SinkInPlace(m, mid, h, r);
  }

  /** Neither moves, jumps nor drops through. */
  predicate Idle(cmd: InputCmd) {
    !cmd.jump && !cmd.moveLeft && !cmd.moveRight && !cmd.dropThrough
  }

  /** Standing exactly on a solid row. */
  predicate Resting(m: Grid, s: Phys, r: int) {
    !s.isOnLadder && s.vy <= 0.0 && s.y - PLAYER_HALF_H == Top(m, r) && Supported(m, s.x, true, r)
  }

  lemma SolidSupports(m: Grid, x: real, r: int)
    requires Supported(m, x, true, r)
    ensures Supported(m, x, false, r)
  {
    var cx :| SpanMin(m, x) <= cx <= SpanMax(m, x) && Supports(m, cx, r, true);
    assert Supports(m, cx, r, false);
  }

  lemma RestingStep(m: Grid, s: Phys, cmd: InputCmd, dt: real, r: int)
    requires m.loaded && m.csy >= 0.19 && dt > 0.0 && Resting(m, s, r) && Idle(cmd)
    ensures var s' := Simulate(m, s, cmd, dt);
            Resting(m, s', r) && s'.x == s.x && s'.y == s.y && s'.isGrounded && s'.vy == -2.0
  {
    var h := UseDt(cmd, dt);
    BeforeFallFrame(m, s, cmd, h);
    SolidSupports(m, s.x, r);
    StandingStep(m, s, cmd, dt, r);
    WalkFrame(m, s, cmd, dt);
  }

  /** A player standing exactly on a solid top stays exactly there through any number of idle steps. */
  lemma {:induction false} RestIsFixed(m: Grid, s: Phys, cmds: seq<InputCmd>, dt: real, r: int)
    requires m.loaded && m.csy >= 0.19 && dt > 0.0 && Resting(m, s, r)
    requires forall i :: 0 <= i < |cmds| ==> Idle(cmds[i])
    ensures var s' := Steps(m, s, cmds, dt);
            Resting(m, s', r) && s'.x == s.x && s'.y == s.y && (cmds != [] ==> s'.isGrounded && s'.vy == -2.0)
    decreases |cmds|
  {
    if cmds != [] {
      RestingStep(m, s, cmds[0], dt, r);
      RestIsFixed(m, Simulate(m, s, cmds[0], dt), cmds[1..], dt, r);
    }
  }
}
