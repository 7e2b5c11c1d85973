/** A player's input buffer, filled by the I/O thread and drained by the game loop. The two threads interleave at
    every lock: an arrival may come between the loop's test for input and its taking of one. */
module Inputs {
  import opened TileMap
  import opened Physics
  import opened Motion
  import opened Ladders
  import opened Energy

  const MAX_INPUT_BUFFER: nat := 32
  const MAX_STEPS_PER_TICK: nat := 8

  // ---- The critical sections ----

  /** A full buffer drops its oldest input. */
  function Push(buffer: seq<InputCmd>, cmd: InputCmd): seq<InputCmd> {
    (if |buffer| >= MAX_INPUT_BUFFER then buffer[1..] else buffer) + [cmd]
  }

  /** The oldest input, or an idle one if there is none. */
  function Pop(buffer: seq<InputCmd>): (InputCmd, seq<InputCmd>) {
    if buffer == [] then (IDLE_INPUT, []) else (buffer[0], buffer[1..])
  }

  // ---- The interleaved system ----

  /** Where the game loop is: between ticks, about to test for input after so many steps, or about to take one. */
  datatype Place = Between | Testing(steps: nat) | Taking(steps: nat)

  datatype Fate = Simulated | Dropped

  /** `fates` says what became of each enqueued input that is no longer buffered. `arrivals` counts the inputs of
      each tick interval, an interval reaching from the end of one tick to the end of the next. */
  datatype System = System(
    buffer: seq<InputCmd>, phys: Phys, place: Place,
    enqueued: seq<InputCmd>, fates: seq<Fate>, dequeued: seq<InputCmd>, dropped: seq<InputCmd>, fallbacks: nat,
    arrivals: seq<nat>)

  datatype Event =
    | Arrive(cmd: InputCmd)
    | BeginTick
    | Test
    | TakeInput
    | LadderReport(onLadder: bool, px: real, py: real)

  function Init(phys: Phys): System {
    System([], phys, Between, [], [], [], [], 0, [0])
  }

  predicate Enabled(s: System, e: Event) {
    match e
    case Arrive(_) => true
    case BeginTick => s.place.Between?
    case Test => s.place.Testing?
    case TakeInput => s.place.Taking?
    case LadderReport(_, _, _) => s.place.Between?
  }

  function IdleSteps(m: Grid, s: Phys): Phys {
    Steps(m, s, [IDLE_INPUT, IDLE_INPUT, IDLE_INPUT], CLIENT_DT)
  }

  function Next(m: Grid, s: System, e: Event): (t: System)
    requires Enabled(s, e) && s.arrivals != []
    ensures t.arrivals != []
  {
    match e
    case Arrive(cmd) =>
      var full := |s.buffer| >= MAX_INPUT_BUFFER;
      s.(buffer := Push(s.buffer, cmd),
         enqueued := s.enqueued + [cmd],
         fates := if full then s.fates + [Dropped] else s.fates,
         dropped := if full then s.dropped + [s.buffer[0]] else s.dropped,
         arrivals := s.arrivals[|s.arrivals| - 1 := s.arrivals[|s.arrivals| - 1] + 1])
    case BeginTick => s.(place := Testing(0))
    case Test =>
      if s.buffer != [] && s.place.steps < MAX_STEPS_PER_TICK then s.(place := Taking(s.place.steps))
      else s.(place := Between,
              phys := if s.place.steps == 0 then IdleSteps(m, s.phys) else s.phys,
              arrivals := s.arrivals + [0])
    case TakeInput =>
      var (cmd, rest) := Pop(s.buffer);
      s.(buffer := rest,
         phys := Simulate(m, s.phys, cmd, CLIENT_DT),
         place := Testing(s.place.steps + 1),
         fates := if s.buffer == [] then s.fates else s.fates + [Simulated],
         dequeued := s.dequeued + [cmd],
         fallbacks := if s.buffer == [] then s.fallbacks + 1 else s.fallbacks)
    case LadderReport(onLadder, px, py) => s.(phys := BoardLadder(m, s.phys, onLadder, px, py))
  }

  predicate ValidRun(m: Grid, s: System, events: seq<Event>)
    requires s.arrivals != []
    decreases |events|
  {
    events == [] || (Enabled(s, events[0]) && ValidRun(m, Next(m, s, events[0]), events[1..]))
  }

  function Run(m: Grid, s: System, events: seq<Event>): (t: System)
    requires s.arrivals != [] && ValidRun(m, s, events)
    ensures t.arrivals != []
    decreases |events|
  {
    if events == [] then s else Run(m, Next(m, s, events[0]), events[1..])
  }

  // ---- Conservation ----

  /** The inputs with the given fate, in order. */
  function Pick<T>(cmds: seq<T>, fates: seq<Fate>, fate: Fate): seq<T>
    requires |cmds| == |fates|
  {
    if cmds == [] then []
    else
      var n := |cmds| - 1;
      Pick(cmds[..n], fates[..n], fate) + (if fates[n] == fate then [cmds[n]] else [])
  }

  lemma PickExtend<T>(cmds: seq<T>, fates: seq<Fate>, fate: Fate, cmd: T, f: Fate)
    requires |cmds| == |fates|
    ensures Pick(cmds + [cmd], fates + [f], fate) == Pick(cmds, fates, fate) + (if f == fate then [cmd] else [])
  {
    assert (cmds + [cmd])[..|cmds|] == cmds && (fates + [f])[..|fates|] == fates;
  }

  predicate Conserved(s: System) {
    && |s.buffer| <= MAX_INPUT_BUFFER
    && |s.fates| <= |s.enqueued|
    && s.buffer == s.enqueued[|s.fates|..]
    && s.dequeued == Pick(s.enqueued[..|s.fates|], s.fates, Simulated)
    && s.dropped == Pick(s.enqueued[..|s.fates|], s.fates, Dropped)
    && s.fallbacks == 0
    && (s.place.Taking? ==> s.buffer != [] && s.place.steps < MAX_STEPS_PER_TICK)
    && (s.place.Testing? ==> s.place.steps <= MAX_STEPS_PER_TICK)
  }

  /** Settling the fate of the oldest buffered input. */
  lemma Settle(enqueued: seq<InputCmd>, fates: seq<Fate>, f: Fate, fate: Fate)
    requires |fates| < |enqueued|
    ensures enqueued[|fates|..][1..] == enqueued[|fates + [f]|..]
    ensures Pick(enqueued[..|fates + [f]|], fates + [f], fate) ==
            Pick(enqueued[..|fates|], fates, fate) + (if f == fate then [enqueued[|fates|]] else [])
  {
    assert enqueued[..|fates + [f]|] == enqueued[..|fates|] + [enqueued[|fates|]];
    PickExtend(enqueued[..|fates|], fates, fate, enqueued[|fates|], f);
  }

  lemma ArriveConserves(m: Grid, s: System, cmd: InputCmd)
    requires Conserved(s) && s.arrivals != []
    ensures Conserved(Next(m, s, Arrive(cmd)))
  {
    var t := Next(m, s, Arrive(cmd));
    if |s.buffer| >= MAX_INPUT_BUFFER {
      Settle(s.enqueued, s.fates, Dropped, Simulated);
      Settle(s.enqueued, s.fates, Dropped, Dropped);
    }
    assert t.enqueued[..|t.fates|] == s.enqueued[..|t.fates|];
    assert t.enqueued[|t.fates|..] == s.enqueued[|t.fates|..] + [cmd];
  }

  lemma TakeConserves(m: Grid, s: System)
    requires Conserved(s) && s.arrivals != [] && s.place.Taking?
    ensures Conserved(Next(m, s, TakeInput))
    ensures Pop(s.buffer).0 == s.enqueued[|s.fates|]
  {
    Settle(s.enqueued, s.fates, Simulated, Simulated);
    Settle(s.enqueued, s.fates, Simulated, Dropped);
  }

  lemma NextConserves(m: Grid, s: System, e: Event)
    requires Conserved(s) && s.arrivals != [] && Enabled(s, e)
    ensures Conserved(Next(m, s, e))
  {
    match e
    case Arrive(cmd) => ArriveConserves(m, s, cmd);
    case TakeInput => TakeConserves(m, s);
    case _ =>
  }

  lemma {:induction false} RunConserves(m: Grid, s: System, events: seq<Event>)
    requires Conserved(s) && s.arrivals != [] && ValidRun(m, s, events)
    ensures Conserved(Run(m, s, events))
    decreases |events|
  {
    hide Conserved;
    if events != [] {
      NextConserves(m, s, events[0]);
      RunConserves(m, Next(m, s, events[0]), events[1..]);
    }
  }

  lemma {:induction false} PicksPartition<T>(cmds: seq<T>, fates: seq<Fate>)
    requires |cmds| == |fates|
    ensures |cmds| == |Pick(cmds, fates, Simulated)| + |Pick(cmds, fates, Dropped)|
  {
    if cmds != [] {
      PicksPartition(cmds[..|cmds| - 1], fates[..|cmds| - 1]);
    }
  }

  /** Under every interleaving each enqueued input is simulated, dropped or still buffered, and only one of these;
      those buffered are the latest, those simulated and those dropped are in their order of arrival, and the game
      loop never takes from an empty buffer. */
  lemma InputsConserved(m: Grid, phys: Phys, events: seq<Event>)
    requires ValidRun(m, Init(phys), events)
    ensures var s := Run(m, Init(phys), events);
            && |s.fates| <= |s.enqueued|
            && s.buffer == s.enqueued[|s.fates|..]
            && s.dequeued == Pick(s.enqueued[..|s.fates|], s.fates, Simulated)
            && s.dropped == Pick(s.enqueued[..|s.fates|], s.fates, Dropped)
            && |s.enqueued| == |s.dequeued| + |s.dropped| + |s.buffer|
            && s.fallbacks == 0
            && |s.buffer| <= 32
  {
    RunConserves(m, Init(phys), events);
    var s := Run(m, Init(phys), events);
    PicksPartition(s.enqueued[..|s.fates|], s.fates);
  }

  /** Picking keeps the order: positions in the picked sequence come from increasing positions. */
  lemma {:induction false} PickIsSubsequence<T>(cmds: seq<T>, fates: seq<Fate>, fate: Fate)
    returns (at: seq<nat>)
    requires |cmds| == |fates|
    ensures |at| == |Pick(cmds, fates, fate)|
    ensures forall i :: 0 <= i < |at| ==> at[i] < |cmds| && Pick(cmds, fates, fate)[i] == cmds[at[i]]
    ensures forall i, j :: 0 <= i < j < |at| ==> at[i] < at[j]
  {
    at := [];
    if cmds != [] {
      var n := |cmds| - 1;
      at := PickIsSubsequence(cmds[..n], fates[..n], fate);
      if fates[n] == fate {
        at := at + [n];
      }
    }
  }

  // ---- No input is lost when arrivals keep within what ticks take ----

  function Sum(counts: seq<nat>): nat {
    if counts == [] then 0 else Sum(counts[..|counts| - 1]) + counts[|counts| - 1]
  }

  /** Every run of k consecutive tick intervals brings at most 8 k + 24 inputs. */
  predicate Smooth(arrivals: seq<nat>) {
    forall i, j :: 0 <= i < j <= |arrivals| ==>
      Sum(arrivals[i..j]) <= 8 * (j - i) + 24
  }

  /** The steps already taken in the current interval. */
  function StepsTaken(s: System): nat {
    match s.place
    case Between => 0
    case Testing(k) => k
    case Taking(k) => k
  }

  /** Since some interval began with an empty buffer, every tick has taken its full share. */
  predicate Busy(s: System, since: nat) {
    since < |s.arrivals|
    && |s.buffer| + StepsTaken(s) + MAX_STEPS_PER_TICK * (|s.arrivals| - 1 - since) <= Sum(s.arrivals[since..])
  }

  lemma SumLast(counts: seq<nat>, i: nat, extra: nat)
    requires i < |counts|
    ensures var n := |counts| - 1;
            Sum(counts[n := counts[n] + extra][i..]) == Sum(counts[i..]) + extra
    ensures Sum((counts + [0])[i..]) == Sum(counts[i..])
  {
    var n := |counts| - 1;
    var more := counts[n := counts[n] + extra];
    assert more[i..][..n - i] == counts[i..][..n - i];
    assert (counts + [0])[i..][..|counts| - i] == counts[i..];
  }

  lemma SmoothBefore(m: Grid, s: System, e: Event)
    requires s.arrivals != [] && Enabled(s, e) && Smooth(Next(m, s, e).arrivals)
    ensures Smooth(s.arrivals)
  {
    var a, b := s.arrivals, Next(m, s, e).arrivals;
    forall i, j | 0 <= i < j <= |a|
      ensures Sum(a[i..j]) <= MAX_STEPS_PER_TICK * (j - i) + (MAX_INPUT_BUFFER - MAX_STEPS_PER_TICK)
    {
      if e.Arrive? && j == |a| {
        SumLast(a, i, 1);
        assert a[i..j] == a[i..] && b[i..j] == b[i..];
      } else {
        assert b[i..j] == a[i..j];
      }
    }
  }

  lemma ArriveBusy(m: Grid, s: System, cmd: InputCmd, since: nat)
    requires Conserved(s) && s.arrivals != [] && Busy(s, since) && Smooth(Next(m, s, Arrive(cmd)).arrivals)
    ensures Busy(Next(m, s, Arrive(cmd)), since) && Next(m, s, Arrive(cmd)).dropped == s.dropped
  {
    hide Conserved;
    var t := Next(m, s, Arrive(cmd));
    SumLast(s.arrivals, since, 1);
    assert t.arrivals[since..|t.arrivals|] == t.arrivals[since..];
    assert Sum(t.arrivals[since..]) <= MAX_STEPS_PER_TICK * (|t.arrivals| - since) + 24;
  }

  lemma TestBusy(m: Grid, s: System, since: nat) returns (since': nat)
    requires Conserved(s) && s.arrivals != [] && s.place.Testing? && Busy(s, since)
    ensures Busy(Next(m, s, Test), since')
  {
    hide IdleSteps;
    var t := Next(m, s, Test);
    since' := since;
    SumLast(s.arrivals, since, 0);
    if t.place.Between? && s.buffer == [] {
      since' := |s.arrivals|;
      assert t.arrivals[since'..] == [0];
    }
  }

  /** One event: the busy period goes on or a new one begins, and nothing is dropped. */
  lemma NextBusy(m: Grid, s: System, e: Event, since: nat) returns (since': nat)
    requires Conserved(s) && s.arrivals != [] && Enabled(s, e) && Busy(s, since)
    requires Smooth(Next(m, s, e).arrivals)
    ensures Busy(Next(m, s, e), since') && Next(m, s, e).dropped == s.dropped
  {
    hide Smooth, Simulate, IdleSteps, BoardLadder;
    since' := since;
    match e {
      case Arrive(cmd) => ArriveBusy(m, s, cmd, since);
      case Test => since' := TestBusy(m, s, since);
      case _ =>
    }
  }

  lemma {:induction false} SmoothBack(m: Grid, s: System, events: seq<Event>)
    requires s.arrivals != [] && ValidRun(m, s, events) && Smooth(Run(m, s, events).arrivals)
    ensures Smooth(s.arrivals)
    decreases |events|
  {
    hide Smooth, Next;
    if events != [] {
      SmoothBack(m, Next(m, s, events[0]), events[1..]);
      SmoothBefore(m, s, events[0]);
    }
  }

  lemma {:induction false} RunBusy(m: Grid, s: System, events: seq<Event>, since: nat)
    requires Conserved(s) && s.arrivals != [] && ValidRun(m, s, events) && Busy(s, since)
    requires Smooth(Run(m, s, events).arrivals)
    ensures Run(m, s, events).dropped == s.dropped
    decreases |events|
  {
    hide Smooth, Next, Conserved, Busy;
    if events != [] {
      SmoothBack(m, Next(m, s, events[0]), events[1..]);
      var since' := NextBusy(m, s, events[0], since);
      NextConserves(m, s, events[0]);
      RunBusy(m, Next(m, s, events[0]), events[1..], since');
    }
  }

  /** Under every interleaving whose arrivals keep to the bound, no input is ever dropped. */
  lemma NothingDropped(m: Grid, phys: Phys, events: seq<Event>)
    requires ValidRun(m, Init(phys), events) && Smooth(Run(m, Init(phys), events).arrivals)
    ensures Run(m, Init(phys), events).dropped == []
  {
    assert Init(phys).arrivals[0..] == [0];
    RunBusy(m, Init(phys), events, 0);
  }

  // ---- The acknowledged input ----

  predicate Increasing(cmds: seq<InputCmd>) {
    forall i, j :: 0 <= i < j < |cmds| ==> cmds[i].inputSeq < cmds[j].inputSeq
  }

  function LastSeq(cmds: seq<InputCmd>): nat {
    if cmds == [] then 0 else cmds[|cmds| - 1].inputSeq
  }

  /** The acknowledged number is never ahead of the last input taken. */
  predicate NotAhead(s: System) {
    s.phys.lastInputSeq <= LastSeq(s.dequeued)
  }

  lemma {:induction false} IdleAcknowledgesNothing(m: Grid, s: Phys, cmds: seq<InputCmd>)
    requires forall i :: 0 <= i < |cmds| ==> cmds[i].inputSeq == 0
    ensures Steps(m, s, cmds, CLIENT_DT).lastInputSeq == s.lastInputSeq
    decreases |cmds|
  {
    hide Simulate;
    if cmds != [] {
      AcknowledgedExactly(m, s, cmds[0], CLIENT_DT);
      IdleAcknowledgesNothing(m, Simulate(m, s, cmds[0], CLIENT_DT), cmds[1..]);
    }
  }

  /** With increasing numbers, what is taken next has a greater number than anything taken before. */
  lemma NextIsNewer(s: System)
    requires Conserved(s) && Increasing(s.enqueued) && |s.fates| < |s.enqueued| && s.dequeued != []
    ensures LastSeq(s.dequeued) < s.enqueued[|s.fates|].inputSeq
  {
    var at := PickIsSubsequence(s.enqueued[..|s.fates|], s.fates, Simulated);
    var last := at[|at| - 1];
    assert s.dequeued[|at| - 1] == s.enqueued[..|s.fates|][last] == s.enqueued[last];
  }

  lemma NextMarker(m: Grid, s: System, e: Event)
    requires Conserved(s) && s.arrivals != [] && Enabled(s, e) && NotAhead(s) && Increasing(Next(m, s, e).enqueued)
    ensures NotAhead(Next(m, s, e)) && s.phys.lastInputSeq <= Next(m, s, e).phys.lastInputSeq
  {
    hide Simulate;
    match e {
      case TakeInput =>
        TakeConserves(m, s);
        AcknowledgedExactly(m, s.phys, Pop(s.buffer).0, CLIENT_DT);
        if s.dequeued != [] {
          NextIsNewer(s);
        }
      case Test => IdleAcknowledgesNothing(m, s.phys, [IDLE_INPUT, IDLE_INPUT, IDLE_INPUT]);
      case _ =>
    }
  }

  lemma {:induction false} IncreasingBack(m: Grid, s: System, events: seq<Event>)
    requires s.arrivals != [] && ValidRun(m, s, events) && Increasing(Run(m, s, events).enqueued)
    ensures Increasing(s.enqueued)
    decreases |events|
  {
    if events != [] {
      var t := Next(m, s, events[0]);
      IncreasingBack(m, t, events[1..]);
      assert s.enqueued <= t.enqueued;
    }
  }

  lemma {:induction false} RunMarker(m: Grid, s: System, events: seq<Event>)
    requires Conserved(s) && s.arrivals != [] && ValidRun(m, s, events) && NotAhead(s)
    requires Increasing(Run(m, s, events).enqueued)
    ensures NotAhead(Run(m, s, events)) && s.phys.lastInputSeq <= Run(m, s, events).phys.lastInputSeq
    decreases |events|
  {
    hide Next, Conserved, Increasing, NotAhead;
    if events != [] {
      IncreasingBack(m, Next(m, s, events[0]), events[1..]);
      NextMarker(m, s, events[0]);
      NextConserves(m, s, events[0]);
      RunMarker(m, Next(m, s, events[0]), events[1..]);
    }
  }

  /** If a client numbers its inputs increasingly, then under every interleaving of arrivals, ticks and ladder
      reports the acknowledged number never goes back, from any point of the run to any later one, and is never
      ahead of the last input taken. */
  lemma MarkerNeverGoesBack(m: Grid, phys: Phys, events: seq<Event>, later: seq<Event>)
    requires phys.lastInputSeq == 0 && ValidRun(m, Init(phys), events)
    requires ValidRun(m, Run(m, Init(phys), events), later)
    requires Increasing(Run(m, Run(m, Init(phys), events), later).enqueued)
    ensures var s, t := Run(m, Init(phys), events), Run(m, Run(m, Init(phys), events), later);
            && s.phys.lastInputSeq <= t.phys.lastInputSeq
            && s.phys.lastInputSeq <= LastSeq(s.dequeued)
            && t.phys.lastInputSeq <= LastSeq(t.dequeued)
  {
    var s := Run(m, Init(phys), events);
    IncreasingBack(m, s, later);
    RunConserves(m, Init(phys), events);
    RunMarker(m, Init(phys), events);
    RunMarker(m, s, later);
  }

  // ---- A tick that no arrival interrupts ----

  function TickTakes(buffer: seq<InputCmd>): nat {
    if |buffer| < MAX_STEPS_PER_TICK then |buffer| else MAX_STEPS_PER_TICK
  }

  function TickLeaves(buffer: seq<InputCmd>): seq<InputCmd> { buffer[TickTakes(buffer)..] }

  /** Up to eight inputs are simulated in order; without any, three idle steps keep the physics going. */
  function TickPhys(m: Grid, s: Phys, buffer: seq<InputCmd>): Phys {
    if buffer == [] then IdleSteps(m, s) else Steps(m, s, buffer[..TickTakes(buffer)], CLIENT_DT)
  }

  function TickEvents(n: nat): seq<Event> {
    if n == 0 then [Test] else [Test, TakeInput] + TickEvents(n - 1)
  }

  lemma {:induction false} TestingToEnd(m: Grid, s: System, n: nat)
    requires s.arrivals != [] && s.place.Testing? && n <= |s.buffer|
    requires s.place.steps + n <= MAX_STEPS_PER_TICK && (n == |s.buffer| || s.place.steps + n == MAX_STEPS_PER_TICK)
    ensures ValidRun(m, s, TickEvents(n))
    ensures var t := Run(m, s, TickEvents(n));
            && t.place == Between && t.buffer == s.buffer[n..]
            && t.arrivals == s.arrivals + [0] && t.dropped == s.dropped
            && t.phys == (if n == 0 && s.place.steps == 0 then IdleSteps(m, s.phys)
                          else Steps(m, s.phys, s.buffer[..n], CLIENT_DT))
    decreases n
  {
    var events := TickEvents(n);
    hide Simulate, IdleSteps;
    if n == 0 {
      assert events[1..] == [];
      assert s.buffer[..0] == [];
    } else {
      var s1 := Next(m, s, Test);
      assert events[1..] == [TakeInput] + TickEvents(n - 1);
      var s2 := Next(m, s1, TakeInput);
      assert events[1..][1..] == TickEvents(n - 1);
      TestingToEnd(m, s2, n - 1);
      assert s.buffer[..n][1..] == s2.buffer[..n - 1];
      assert Run(m, s, events) == Run(m, s1, events[1..]) == Run(m, s2, TickEvents(n - 1));
    }
  }

  /** A tick without interruption is a run of the system, and has this effect. */
  lemma TickAlone(m: Grid, s: System)
    requires s.arrivals != [] && s.place == Between
    ensures var events := [BeginTick] + TickEvents(TickTakes(s.buffer));
            && ValidRun(m, s, events)
            && var t := Run(m, s, events);
               t.place == Between && t.phys == TickPhys(m, s.phys, s.buffer)
               && t.buffer == TickLeaves(s.buffer) && t.arrivals == s.arrivals + [0] && t.dropped == s.dropped
  {
    hide Steps, IdleSteps;
    var n := TickTakes(s.buffer);
    var events := [BeginTick] + TickEvents(n);
    assert events[1..] == TickEvents(n);
    TestingToEnd(m, Next(m, s, BeginTick), n);
  }

  /** An input that presses nothing and is not to be acknowledged. */
  const NOTHING: InputCmd := InputCmd(0, 0.0, false, false, false, false, NoDir, false, false)

  /** A tick takes the oldest eight inputs, or fewer if there are fewer, in steps of a fiftieth of a second; without any
      it takes three steps that press nothing. */
  lemma TickExactly(m: Grid, s: Phys, buffer: seq<InputCmd>)
    ensures var n := if |buffer| < 8 then |buffer| else 8;
            && TickLeaves(buffer) == buffer[n..]
            && TickPhys(m, s, buffer) ==
               if buffer == [] then Steps(m, s, [NOTHING, NOTHING, NOTHING], 0.02) else Steps(m, s, buffer[..n], 0.02)
  {
  }

  /** In open air a tick without inputs is six hundredths of a second of falling. */
  lemma QuietTickFalls(m: Grid, s: Phys)
    requires Flight(m, s, [NOTHING, NOTHING, NOTHING], 0.02)
    ensures TickPhys(m, s, []).vy == if s.vy - 1.7658 < -15.0 then -15.0 else s.vy - 1.7658
  {
    hide Simulate, OpenAir;
    var s1 := Simulate(m, s, NOTHING, 0.02);
    var s2 := Simulate(m, s1, NOTHING, 0.02);
    assert [NOTHING, NOTHING, NOTHING][1..] == [NOTHING, NOTHING];
    assert [NOTHING, NOTHING][1..] == [NOTHING];
    assert Flight(m, s1, [NOTHING, NOTHING], 0.02) && Flight(m, s2, [NOTHING], 0.02);
    AirStep(m, s, NOTHING, 0.02);
    AirStep(m, s1, NOTHING, 0.02);
    AirStep(m, s2, NOTHING, 0.02);
    ThreeSteps(m, s, NOTHING, NOTHING, NOTHING, [], 0.02);
    assert [NOTHING, NOTHING, NOTHING] + [] == [NOTHING, NOTHING, NOTHING];
  }

  // ---- The bound on arrivals is exact ----

  function Arrivals(n: nat): seq<Event> {
    if n == 0 then [] else [Arrive(IDLE_INPUT)] + Arrivals(n - 1)
  }

  lemma {:induction false} RunThen(m: Grid, s: System, before: seq<Event>, after: seq<Event>)
    requires s.arrivals != [] && ValidRun(m, s, before) && ValidRun(m, Run(m, s, before), after)
    ensures ValidRun(m, s, before + after)
    ensures Run(m, s, before + after) == Run(m, Run(m, s, before), after)
    decreases |before|
  {
    hide Next, Enabled;
    if before == [] {
      assert before + after == after;
    } else {
      assert (before + after)[1..] == before[1..] + after;
      assert (before + after)[0] == before[0];
      RunThen(m, Next(m, s, before[0]), before[1..], after);
    }
  }

  lemma {:induction false} DroppedGrows(m: Grid, s: System, events: seq<Event>)
    requires s.arrivals != [] && ValidRun(m, s, events)
    ensures |s.dropped| <= |Run(m, s, events).dropped|
    decreases |events|
  {
    if events != [] {
      DroppedGrows(m, Next(m, s, events[0]), events[1..]);
    }
  }

  /** Inputs that arrive together fit, or one is dropped. */
  lemma {:induction false} Burst(m: Grid, s: System, n: nat)
    requires s.arrivals != [] && Conserved(s)
    ensures ValidRun(m, s, Arrivals(n))
    ensures var t := Run(m, s, Arrivals(n));
            var last := |s.arrivals| - 1;
            && Conserved(t) && t.place == s.place
            && t.arrivals == s.arrivals[last := s.arrivals[last] + n]
            && |s.dropped| <= |t.dropped|
            && (|t.dropped| == |s.dropped| ==> |t.buffer| == |s.buffer| + n)
    decreases n
  {
    hide Conserved;
    if n > 0 {
      var t := Next(m, s, Arrive(IDLE_INPUT));
      ArriveConserves(m, s, IDLE_INPUT);
      assert Arrivals(n)[1..] == Arrivals(n - 1);
      Burst(m, t, n - 1);
    }
  }

  lemma SumFirst(counts: seq<nat>, i: nat, j: nat)
    requires i < j <= |counts|
    ensures Sum(counts[i..j]) == counts[i] + Sum(counts[i + 1..j])
    decreases j
  {
    if i + 1 == j {
      assert counts[i..j] == [counts[i]];
      assert counts[i..j][..0] == [];
    } else {
      assert counts[i..j][..j - i - 1] == counts[i..j - 1];
      assert counts[i + 1..j][..j - i - 2] == counts[i + 1..j - 1];
      SumFirst(counts, i, j - 1);
    }
  }

  /** What the intervals bring, on top of what is buffered, stays within what the ticks between them take and the
      buffer holds. */
  predicate Fits(buffered: nat, counts: seq<nat>) {
    forall j :: 1 <= j <= |counts| ==> buffered + Sum(counts[0..j]) <= MAX_STEPS_PER_TICK * (j - 1) + MAX_INPUT_BUFFER
  }

  /** One more interval before some that fit. */
  lemma FitsBefore(buffered: nat, left: nat, counts: seq<nat>)
    requires counts != [] && buffered + counts[0] <= MAX_INPUT_BUFFER
    requires left + MAX_STEPS_PER_TICK >= buffered + counts[0] && Fits(left, counts[1..])
    ensures Fits(buffered, counts)
  {
    forall j | 1 <= j <= |counts|
      ensures buffered + Sum(counts[0..j]) <= MAX_STEPS_PER_TICK * (j - 1) + MAX_INPUT_BUFFER
    {
      SumFirst(counts, 0, j);
      if j > 1 {
        assert counts[1..j] == counts[1..][0..j - 1];
      } else {
        assert counts[1..j] == [];
      }
    }
  }

  lemma SliceOfTail(counts: seq<nat>, i: nat, j: nat)
    requires 1 <= i <= j <= |counts|
    ensures counts[i..j] == counts[1..][i - 1..j - 1]
  {
    var tail := counts[1..];
    forall k | 0 <= k < j - i ensures counts[i..j][k] == tail[i - 1..j - 1][k] {
      assert tail[i - 1 + k] == counts[i + k];
    }
  }

  lemma SmoothBeforeFirst(counts: seq<nat>)
    requires counts != [] && Fits(0, counts) && Smooth(counts[1..])
    ensures Smooth(counts)
  {
    forall i, j | 0 <= i < j <= |counts|
      ensures Sum(counts[i..j]) <= MAX_STEPS_PER_TICK * (j - i) + (MAX_INPUT_BUFFER - MAX_STEPS_PER_TICK)
    {
      if i > 0 {
        SliceOfTail(counts, i, j);
      }
    }
  }

  lemma FitsLess(buffered: nat, counts: seq<nat>)
    requires Fits(buffered, counts)
    ensures Fits(0, counts)
  {
  }

  lemma LastFits(buffered: nat, counts: seq<nat>)
    requires |counts| == 1 && buffered + counts[0] <= MAX_INPUT_BUFFER
    ensures Fits(buffered, counts) && Smooth(counts)
  {
    assert counts[0..1] == counts && counts[..0] == [];
  }

  lemma BufferBound(s: System)
    requires Conserved(s)
    ensures |s.buffer| <= MAX_INPUT_BUFFER
  {
  }

  /** A run with these arrivals, the inputs of each interval before its tick: unless it drops one, they are smooth. */
  lemma {:induction false} EarlyRun(m: Grid, s: System, counts: seq<nat>) returns (events: seq<Event>)
    requires s.arrivals != [] && Conserved(s) && s.place == Between && s.arrivals[|s.arrivals| - 1] == 0 && counts != []
    ensures ValidRun(m, s, events)
    ensures var t := Run(m, s, events);
            && t.arrivals == s.arrivals[..|s.arrivals| - 1] + counts
            && (|t.dropped| == |s.dropped| ==> Fits(|s.buffer|, counts) && Smooth(counts))
    decreases |counts|
  {
    hide Conserved, Next, Smooth, Fits;
    events := Arrivals(counts[0]);
    Burst(m, s, counts[0]);
    var s1 := Run(m, s, events);
    BufferBound(s1);
    if |counts| == 1 {
      assert s1.arrivals == s.arrivals[..|s.arrivals| - 1] + counts;
      if |s1.dropped| == |s.dropped| {
        LastFits(|s.buffer|, counts);
      }
    } else {
      var tick := [BeginTick] + TickEvents(TickTakes(s1.buffer));
      TickAlone(m, s1);
      RunConserves(m, s1, tick);
      var s2 := Run(m, s1, tick);
      var rest := EarlyRun(m, s2, counts[1..]);
      RunThen(m, s1, tick, rest);
      RunThen(m, s, events, tick + rest);
      events := events + (tick + rest);
      DroppedGrows(m, s2, rest);
      assert s2.arrivals[..|s2.arrivals| - 1] + counts[1..] == s.arrivals[..|s.arrivals| - 1] + counts;
      if |Run(m, s2, rest).dropped| == |s.dropped| {
        FitsBefore(|s.buffer|, |s2.buffer|, counts);
        FitsLess(|s.buffer|, counts);
        SmoothBeforeFirst(counts);
      }
    }
  }

  /** Arrivals are smooth exactly if no interleaving with these arrivals ever drops an input. */
  lemma SmoothExactly(m: Grid, phys: Phys, arrivals: seq<nat>)
    requires arrivals != []
    ensures Smooth(arrivals) <==>
            forall events :: ValidRun(m, Init(phys), events) && Run(m, Init(phys), events).arrivals == arrivals ==>
              Run(m, Init(phys), events).dropped == []
  {
    forall events | ValidRun(m, Init(phys), events) && Run(m, Init(phys), events).arrivals == arrivals
      ensures Smooth(arrivals) ==> Run(m, Init(phys), events).dropped == []
    {
      if Smooth(arrivals) {
        NothingDropped(m, phys, events);
      }
    }
    var events := EarlyRun(m, Init(phys), arrivals);
    assert Run(m, Init(phys), events).arrivals == arrivals;
  }
}
