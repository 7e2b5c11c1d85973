/** What the room does to one player, and states that such histories reach: at rest or rising, anywhere. */
module Reach {
  import opened TileMap
  import opened Physics
  import opened Motion

  /** A simulation step, or a client's report about a ladder. */
  datatype Event = Input(cmd: InputCmd) | Report(onLadder: bool, px: real, py: real)

  function Apply(m: Grid, s: Phys, e: Event, dt: real): Phys {
    match e
    case Input(cmd) => Simulate(m, s, cmd, dt)
    case Report(onLadder, px, py) => BoardLadder(m, s, onLadder, px, py)
  }

  function History(m: Grid, s: Phys, events: seq<Event>, dt: real): Phys
    decreases |events|
  {
    if events == [] then s else History(m, Apply(m, s, events[0], dt), events[1..], dt)
  }

  /** The states of a player on this map, whatever its client sends. */
  ghost predicate Reachable(m: Grid, s: Phys, dt: real) {
    exists events :: History(m, INITIAL_PHYS, events, dt) == s
  }

  lemma {:induction false} HistoryThen(m: Grid, s: Phys, events: seq<Event>, e: Event, dt: real)
    ensures History(m, s, events + [e], dt) == Apply(m, History(m, s, events, dt), e, dt)
    decreases |events|
  {
    hide Apply;
    if events == [] {
      assert ([] + [e])[1..] == [] && ([] + [e])[0] == e;
      assert events + [e] == [e];
    } else {
      assert (events + [e])[1..] == events[1..] + [e];
      HistoryThen(m, Apply(m, s, events[0], dt), events[1..], e, dt);
    }
  }

  lemma ReachableThen(m: Grid, s: Phys, e: Event, dt: real)
    requires Reachable(m, s, dt)
    ensures Reachable(m, Apply(m, s, e, dt), dt)
  {
    hide Apply;
    var events :| History(m, INITIAL_PHYS, events, dt) == s;
    HistoryThen(m, INITIAL_PHYS, events, e, dt);
    assert History(m, INITIAL_PHYS, events + [e], dt) == Apply(m, s, e, dt);
  }

  lemma InitialReachable(m: Grid, dt: real)
    ensures Reachable(m, INITIAL_PHYS, dt)
  {
    assert History(m, INITIAL_PHYS, [], dt) == INITIAL_PHYS;
  }

  // ---- At rest anywhere ----

  const CLIMB: InputCmd := IDLE_INPUT.(moveUp := true, deltaTime := 0.09)

  function OffTop(s: Phys): Phys {
    s.(isOnLadder := false, isCrouching := false, x := s.ladderCenterX, y := LadderTop(s), vx := 0.0, vy := 0.0)
  }

  /** Holding up, a player ends at rest above the ladder. */
  lemma {:induction false} ClimbsOff(m: Grid, s: Phys, dt: real)
    requires Reachable(m, s, dt) && s.isOnLadder && s.ladderMinY <= s.y < LadderTop(s)
    ensures Reachable(m, OffTop(s), dt)
    decreases (LadderTop(s) - s.y) / 0.27
  {
    hide Walk, Ground, Reachable;
    var t := Simulate(m, s, CLIMB, dt);
    ReachableThen(m, s, Input(CLIMB), dt);
    assert ClimbedY(s, CLIMB, 0.09) == if s.y + 0.27 > LadderTop(s) then LadderTop(s) else s.y + 0.27;
    if t.isOnLadder {
      assert OffTop(t) == OffTop(s);
      ClimbsOff(m, t, dt);
    } else {
      assert t == OffTop(s);
    }
  }

  /** Where a player is after climbing off the ladder that it reported below this position. */
  function RestAt(x: real, y: real): Phys {
    INITIAL_PHYS.(x := x, y := y, isGrounded := false,
                  ladderCenterX := x, ladderMinY := y - 11.0, ladderMaxY := y - PLAYER_HALF_H)
  }

  /** Without ladders on the map the reported ladder is ten high, and its top is wherever the client likes. */
  lemma AtRestAnywhere(m: Grid, x: real, y: real, dt: real)
    requires m.loaded && m.ladder == {}
    ensures Reachable(m, RestAt(x, y), dt)
  {
    hide Reachable;
    var s := BoardLadder(m, INITIAL_PHYS, true, x, y - 10.5);
    InitialReachable(m, dt);
    ReachableThen(m, INITIAL_PHYS, Report(true, x, y - 10.5), dt);
    ClimbsOff(m, s, dt);
    assert OffTop(s) == RestAt(x, y);
  }

  // ---- Rising anywhere ----

  function Jump(h: real): InputCmd { IDLE_INPUT.(jump := true, deltaTime := h) }

  /** A jump lets gravity act once. */
  function Launch(h: real): real { JUMP_FORCE - GRAVITY * h }

  /** A player who has jumped off a reported ladder to this position. */
  function RisingAt(x: real, y: real, h: real): Phys {
    var py := y - Travel(Launch(h), h);
    INITIAL_PHYS.(x := x, y := y, vy := Launch(h), isJumping := true, isGrounded := false,
                  ladderCenterX := x, ladderMinY := py - 0.5, ladderMaxY := py + 10.0)
  }

  lemma RisingAnywhere(m: Grid, x: real, y: real, h: real, dt: real)
    requires m.loaded && m.ladder == {} && 0.0 < h < 0.1 && !Ceiling(m, x, y).hit
    ensures Reachable(m, RisingAt(x, y, h), dt)
  {
    hide Reachable, Ground, Ceiling, Travel, Wall;
    var py := y - Travel(Launch(h), h);
    var s := BoardLadder(m, INITIAL_PHYS, true, x, py);
    InitialReachable(m, dt);
    ReachableThen(m, INITIAL_PHYS, Report(true, x, py), dt);
    ReachableThen(m, s, Input(Jump(h)), dt);
    BeforeFallFrame(m, JumpOff(s), Jump(h), h);
    WalkFrame(m, JumpOff(s), Jump(h), dt);
    assert Simulate(m, s, Jump(h), dt) == RisingAt(x, y, h);
  }
}
