/** The room as the server keeps it: players, their input buffers and physics states, the map and the task queue.
    Each method, run without interruption, is a run of the systems in `Rooms` and `Inputs`. */
module GameRooms {
  import opened TileMap
  import opened Physics
  import opened Motion
  import opened Simulation
  import Inputs
  import Rooms

  /** `connected` says that the player has a session; `inbox` is what that session has accepted. */
  class Player {
    const id: Rooms.Id
    const phys: PhysicsState
    var name: string
    var entered: bool
    var connected: bool
    var inbox: seq<Rooms.Message>
    var inputBuffer: seq<InputCmd>

    constructor (id: Rooms.Id)
      ensures this.id == id && fresh(phys) && phys.Value() == INITIAL_PHYS
      ensures name == "" && !entered && !connected && inbox == [] && inputBuffer == []
    {
      this.id := id;
      phys := new PhysicsState();
      name, entered, connected, inbox, inputBuffer := "", false, false, [], [];
    }

    method SetName(newName: string)
      modifies this`name, this`entered
      ensures name == newName && entered
    {
      name, entered := newName, true;
    }

    method EnqueueInput(cmd: InputCmd)
      modifies this`inputBuffer
      ensures inputBuffer == Inputs.Push(old(inputBuffer), cmd)
      ensures |old(inputBuffer)| <= Inputs.MAX_INPUT_BUFFER ==> |inputBuffer| <= Inputs.MAX_INPUT_BUFFER
    {
      if |inputBuffer| >= Inputs.MAX_INPUT_BUFFER {
        inputBuffer := inputBuffer[1..];
      }
      inputBuffer := inputBuffer + [cmd];
    }

    method DequeueInput() returns (cmd: InputCmd)
      modifies this`inputBuffer
      ensures (cmd, inputBuffer) == Inputs.Pop(old(inputBuffer))
      ensures old(inputBuffer) != [] ==> [cmd] + inputBuffer == old(inputBuffer)
    {
      if inputBuffer == [] {
        return IDLE_INPUT;
      }
      cmd := inputBuffer[0];
      inputBuffer := inputBuffer[1..];
    }

    predicate HasInput()
      reads this
    {
      inputBuffer != []
    }

    method Idle(m: Grid)
      modifies phys
      ensures phys.Value() == Inputs.IdleSteps(m, old(phys.Value()))
    {
      ghost var start, idle := phys.Value(), [IDLE_INPUT, IDLE_INPUT, IDLE_INPUT];
      for i := 0 to 3
        invariant Steps(m, phys.Value(), idle[i..], CLIENT_DT) == Steps(m, start, idle, CLIENT_DT)
      {
        assert idle[i..][1..] == idle[i + 1..];
        SimulatePlayer(m, phys, IDLE_INPUT, CLIENT_DT);
      }
    }

    /** Up to eight buffered inputs in order, or three idle steps when there are none. */
    method Tick(m: Grid)
      modifies this`inputBuffer, phys
      ensures phys.Value() == Inputs.TickPhys(m, old(phys.Value()), old(inputBuffer))
      ensures inputBuffer == Inputs.TickLeaves(old(inputBuffer))
    {
      ghost var start, buffer, takes := phys.Value(), inputBuffer, Inputs.TickTakes(inputBuffer);
      var steps := 0;
      while HasInput() && steps < Inputs.MAX_STEPS_PER_TICK
        invariant steps <= takes
        invariant inputBuffer == buffer[steps..]
        invariant Steps(m, phys.Value(), buffer[steps..takes], CLIENT_DT) == Steps(m, start, buffer[..takes], CLIENT_DT)
        invariant steps == 0 ==> phys.Value() == start
        decreases takes - steps
      {
        assert buffer[steps..takes][0] == inputBuffer[0];
        assert buffer[steps..takes][1..] == buffer[steps + 1..takes];
        var cmd := DequeueInput();
        SimulatePlayer(m, phys, cmd, CLIENT_DT);
        steps := steps + 1;
      }
      if steps == 0 {
        Idle(m);
      }
    }
  }

  datatype RoomTask =
    | EnterTask(player: Player)
    | EnterGameTask(player: Player, name: string)
    | LeaveTask(id: Rooms.Id)
    | LadderTask(player: Player, onLadder: bool, px: real, py: real)
    | OtherTask

  function Kind(t: RoomTask): Rooms.Task {
    match t
    case EnterTask(player) => Rooms.Enter(player.id)
    case EnterGameTask(player, name) => Rooms.EnterGame(player.id, name)
    case LeaveTask(id) => Rooms.Leave(id)
    case LadderTask(_, _, _, _) => Rooms.Other
    case OtherTask => Rooms.Other
  }

  function Kinds(tasks: seq<RoomTask>): seq<Rooms.Task> {
    seq(|tasks|, i requires 0 <= i < |tasks| => Kind(tasks[i]))
  }

  /** A player's physics state after the ladder report in a task, if it is one and is that player's. */
  function Reported(m: Grid, s: Phys, id: Rooms.Id, t: RoomTask): Phys {
    if t.LadderTask? && t.player.id == id then BoardLadder(m, s, t.onLadder, t.px, t.py) else s
  }

  function ReportedAll(m: Grid, s: Phys, id: Rooms.Id, tasks: seq<RoomTask>): Phys
    decreases |tasks|
  {
    if tasks == [] then s else ReportedAll(m, Reported(m, s, id, tasks[0]), id, tasks[1..])
  }

  /** Reports count in the order of the tasks. */
  lemma {:induction false} ReportsInOrder(m: Grid, s: Phys, id: Rooms.Id, tasks: seq<RoomTask>, t: RoomTask)
    ensures ReportedAll(m, s, id, tasks + [t]) == Reported(m, ReportedAll(m, s, id, tasks), id, t)
    decreases |tasks|
  {
    hide Reported;
    if tasks == [] {
      assert tasks + [t] == [t] && [t][1..] == [];
    } else {
      assert (tasks + [t])[1..] == tasks[1..] + [t] && (tasks + [t])[0] == tasks[0];
      ReportsInOrder(m, Reported(m, s, id, tasks[0]), id, tasks[1..], t);
    }
  }

  function Ids(players: set<Player>): set<Rooms.Id> {
    set p | p in players :: p.id
  }

  class GameRoom {
    const tiles: Map
    var players: map<Rooms.Id, Player>
    var taskQueue: seq<RoomTask>
    var serverTick: nat

    /** Every player made so far, in the room or not, and what the threads have done. */
    ghost var known: map<Rooms.Id, Player>
    ghost var gone: set<Rooms.Id>
    ghost var posted: seq<Rooms.Task>
    ghost var executed: seq<Rooms.Task>
    var nextPlayerId: Rooms.Id

    constructor ()
      ensures Valid() && View() == Rooms.INIT && fresh(tiles)
      ensures players == map[] && taskQueue == [] && serverTick == 0
      ensures tiles.AsTiles() == Tiles({}, {}, {}, 1.0, 1.0, false)
    {
      tiles := new Map();
      players, taskQueue, serverTick, nextPlayerId := map[], [], 0, 0;
      known, gone, posted, executed := map[], {}, [], [];
    }

    ghost predicate Knows(t: RoomTask)
      reads this`known
    {
      t.EnterTask? || t.EnterGameTask? || t.LadderTask? ==> t.player.id in known && known[t.player.id] == t.player
    }

    /** No two players share a physics state. */
    ghost predicate Separate()
      reads this`known
    {
      forall i, j :: i in known && j in known && i != j ==> known[i].phys != known[j].phys
    }

    ghost predicate Roster()
      reads this`players, this`known, this`nextPlayerId
    {
      && (forall i :: i in players ==> i in known && players[i] == known[i])
      && (forall i :: i in known ==> known[i].id == i && i < nextPlayerId)
      && Separate()
    }

    ghost predicate Valid()
      reads this`players, this`known, this`taskQueue, this`nextPlayerId
    {
      Roster() && forall k :: 0 <= k < |taskQueue| ==> Knows(taskQueue[k])
    }

    ghost function Entered(): set<Rooms.Id>
      reads this`known, known.Values`entered
    {
      set i | i in known && known[i].entered
    }

    ghost function Connected(): set<Rooms.Id>
      reads this`known, known.Values`connected
    {
      set i | i in known && known[i].connected
    }

    ghost function Inboxes(): map<Rooms.Id, seq<Rooms.Message>>
      reads this`known, known.Values`inbox
    {
      map i | i in known :: known[i].inbox
    }

    ghost function Snapshot(): Rooms.Room
      reads this`players, this`known, known.Values`entered, known.Values`connected, known.Values`inbox
    {
      Rooms.Room(players.Keys, Entered(), Connected(), Inboxes())
    }

    lemma Apart(id: Rooms.Id)
      requires Roster() && id in players
      ensures id in known && players[id] == known[id] && players[id].id == id
      ensures forall i :: i in known && i != id ==> known[i] != known[id] && known[i].phys != known[id].phys
    {
    }

    ghost function View(): Rooms.System
      reads this, known.Values`entered, known.Values`connected, known.Values`inbox
    {
      Rooms.System(Snapshot(), Kinds(taskQueue), [], nextPlayerId, gone, posted, executed)
    }

    /** The physics states of the players made so far. */
    ghost function Bodies(): set<PhysicsState>
      reads this`known
    {
      set i | i in known :: known[i].phys
    }

    method LoadMap(doc: Document) returns (ok: bool)
      modifies tiles
      ensures ok == doc.Layers?
      ensures !ok ==> tiles.AsTiles() == old(tiles.AsTiles())
      ensures ok ==>
                tiles.loaded
                && (tiles.cellSizeX, tiles.cellSizeY) ==
                   SizeAfterAll(old((tiles.cellSizeX, tiles.cellSizeY)), doc.layers)
      ensures ok && Columns32(doc.layers) ==> Indexes(tiles.AsTiles(), doc.layers)
    {
      ok := tiles.Load(doc);
    }

    // ---- Messages ----

    method Send(p: Player, msg: Rooms.Message)
      modifies p`inbox
      ensures p.inbox == if p.connected then old(p.inbox) + [msg] else old(p.inbox)
    {
      if p.connected {
        p.inbox := p.inbox + [msg];
      }
    }

    method SendEach(to: set<Player>, msg: Rooms.Message)
      modifies to`inbox
      ensures forall p :: p in to ==> p.inbox == if p.connected then old(p.inbox) + [msg] else old(p.inbox)
    {
      var todo := to;
      while todo != {}
        invariant todo <= to
        invariant forall p :: p in to ==>
                    p.inbox == if p in todo || !p.connected then old(p.inbox) else old(p.inbox) + [msg]
      {
        var p :| p in todo;
        Send(p, msg);
        todo := todo - {p};
      }
    }

    /** Inboxes that have grown from `before` as they should. */
    lemma Delivered(before: map<Rooms.Id, seq<Rooms.Message>>, to: set<Player>, msg: Rooms.Message)
      requires Roster() && to <= known.Values && before.Keys == known.Keys
      requires forall i :: i in known ==>
                 known[i].inbox == if known[i] in to && known[i].connected then before[i] + [msg] else before[i]
      ensures Snapshot() == Rooms.Deliver(Snapshot().(inbox := before), Ids(to), msg)
    {
      hide Separate, Knows;
      var want := Rooms.Deliver(Snapshot().(inbox := before), Ids(to), msg);
      forall i | i in known ensures Inboxes()[i] == want.inbox[i] {
        assert i in Ids(to) <==> known[i] in to;
      }
      assert Inboxes() == want.inbox;
    }

    method SendAll(to: set<Player>, msg: Rooms.Message)
      requires Roster() && to <= known.Values
      modifies to`inbox
      ensures Roster() && Snapshot() == Rooms.Deliver(old(Snapshot()), Ids(to), msg)
    {
      hide Rooms.Deliver, Separate;
      ghost var before := Inboxes();
      SendEach(to, msg);
      Delivered(before, to, msg);
    }

    lemma PlayersAre(p: Player)
      requires Roster() && p.id in known && known[p.id] == p
      ensures Snapshot().members == players.Keys
      ensures players.Values <= known.Values && p in known.Values
      ensures Ids(players.Values) == players.Keys
      ensures Ids(players.Values - {p}) == players.Keys - {p.id}
      ensures Ids({p}) == {p.id}
    {
      assert forall i :: i in players && i != p.id ==> players[i] in players.Values - {p} && players[i].id == i;
    }

    // ---- Tasks of the game loop ----

    method Enter(player: Player)
      requires Roster() && player.id in known && known[player.id] == player
      modifies this`players
      ensures Roster() && Snapshot() == Rooms.RunTask(old(Snapshot()), Rooms.Enter(player.id))
    {
      players := players[player.id := player];
    }

    method Remove(id: Rooms.Id)
      requires Roster()
      modifies this`players
      ensures Roster() && Snapshot() == old(Snapshot()).(members := old(Snapshot()).members - {id})
    {
      players := players - {id};
    }

    method Leave(id: Rooms.Id)
      requires Roster()
      modifies this`players, players.Values`inbox
      ensures Roster() && Snapshot() == Rooms.RunTask(old(Snapshot()), Rooms.Leave(id))
    {
      hide Separate, Rooms.Deliver, Entered, Connected, Inboxes, Ids;
      if id !in players {
        return;
      }
      Apart(id);
      PlayersAre(players[id]);
      SendAll(players.Values, Rooms.Despawn(id));
      Remove(id);
    }

    method TellNewcomer(player: Player, others: set<Player>)
      requires Roster() && player in known.Values && others <= known.Values
      modifies player`inbox
      ensures Roster() && Snapshot() == Rooms.TellNewcomer(old(Snapshot()), player.id, Ids(others))
    {
      hide Separate, Knows;
      assert Ids({player}) == {player.id};
      SendAll({player}, Rooms.EnteredGame);
      if others != {} {
        assert forall p :: p in others ==> p.id in Ids(others);
        SendAll({player}, Rooms.PlayerList(Ids(others)));
      }
    }

    method Admit(player: Player, name: string)
      requires Roster() && player.id in known && known[player.id] == player
      modifies player`name, player`entered
      ensures Roster() && player.name == name
      ensures Snapshot() == old(Snapshot()).(entered := old(Entered()) + {player.id})
    {
      hide Separate;
      player.SetName(name);
      assert Entered() == old(Entered()) + {player.id};
    }

    method EnterGame(player: Player, name: string)
      requires Roster() && player.id in known && known[player.id] == player
      modifies player`name, player`entered, player`inbox, players.Values`inbox
      ensures Roster() && Snapshot() == Rooms.RunTask(old(Snapshot()), Rooms.EnterGame(player.id, name))
      ensures player.name == if Rooms.Admitted(old(Snapshot()), player.id, name) then name else old(player.name)
    {
      if name == "" || |name| > Rooms.MAX_NAME || player.entered {
        return;
      }
      hide Separate, Knows;
      Admit(player, name);
      PlayersAre(player);
      var others := players.Values - {player};
      TellNewcomer(player, others);
      SendAll(others, Rooms.Spawn(player.id));
    }

    method Report(player: Player, onLadder: bool, px: real, py: real)
      requires Roster() && tiles.Valid() && player.id in known && known[player.id] == player
      modifies player.phys
      ensures forall i :: i in known ==>
                known[i].phys.Value() ==
                Reported(tiles.AsTiles(), old(known[i].phys.Value()), i, LadderTask(player, onLadder, px, py))
    {
      hide BoardLadder, PhysicsState.Value;
      HandleLadderState(tiles.AsTiles(), player.phys, onLadder, px, py);
    }

    method RunTask(t: RoomTask)
      requires Roster() && Knows(t) && tiles.Valid()
      modifies this`players, known.Values`name, known.Values`entered, known.Values`inbox, Bodies()
      ensures Roster() && Snapshot() == Rooms.RunTask(old(Snapshot()), Kind(t))
      ensures forall i :: i in known ==>
                known[i].phys.Value() == Reported(tiles.AsTiles(), old(known[i].phys.Value()), i, t)
    {
      hide Separate, BoardLadder, PhysicsState.Value;
      match t
      case EnterTask(player) => Enter(player);
      case EnterGameTask(player, name) => EnterGame(player, name);
      case LeaveTask(id) => Leave(id);
      case LadderTask(player, onLadder, px, py) =>
        Report(player, onLadder, px, py);
      case OtherTask =>
    }

    lemma NoKinds()
      ensures Kinds([]) == []
    {
    }

    method RunAll(tasks: seq<RoomTask>)
      requires Roster() && tiles.Valid() && forall k :: 0 <= k < |tasks| ==> Knows(tasks[k])
      modifies this`players, known.Values`name, known.Values`entered, known.Values`inbox, Bodies()
      ensures Roster() && Snapshot() == Rooms.RunTasks(old(Snapshot()), Kinds(tasks))
      ensures forall i :: i in known ==>
                known[i].phys.Value() == ReportedAll(tiles.AsTiles(), old(known[i].phys.Value()), i, tasks)
    {
      hide Roster, Snapshot, Knows, Reported, Rooms.RunTask;
      var local := tasks;
      while local != []
        invariant Roster()
        invariant forall k :: 0 <= k < |local| ==> Knows(local[k])
        invariant Rooms.RunTasks(Snapshot(), Kinds(local)) == Rooms.RunTasks(old(Snapshot()), Kinds(tasks))
        invariant forall i :: i in known ==>
                    ReportedAll(tiles.AsTiles(), known[i].phys.Value(), i, local) ==
                    ReportedAll(tiles.AsTiles(), old(known[i].phys.Value()), i, tasks)
      {
        assert Kinds(local)[1..] == Kinds(local[1..]);
        RunTask(local[0]);
        local := local[1..];
      }
      assert Kinds(local) == [];
    }

    /** Swaps the queue out, so that tasks posted meanwhile wait for the next time, and runs what was in it. */
    method DrainTasks()
      requires Valid() && tiles.Valid()
      modifies this`players, this`taskQueue, this`executed
      modifies known.Values`name, known.Values`entered, known.Values`inbox, Bodies()
      ensures Valid() && View() == Rooms.Drained(old(View())) && taskQueue == []
      ensures forall i :: i in known ==>
                known[i].phys.Value() ==
                ReportedAll(tiles.AsTiles(), old(known[i].phys.Value()), i, old(taskQueue))
    {
      hide Roster, Knows, Snapshot, Kinds, ReportedAll, Rooms.RunTasks, PhysicsState.Value;
      var local := taskQueue;
      taskQueue := [];
      RunAll(local);
      executed := executed + Kinds(local);
      assert Kinds(taskQueue) == [] by { NoKinds(); }
    }

    // ---- Ticks ----

    /** What a tick does to a player: its inputs and physics advance if it is ticked, and stay as they are if not. */
    twostate predicate Advanced(m: Grid, p: Player, ticked: bool)
      reads p`inputBuffer, p.phys
    {
      if !ticked then p.phys.Value() == old(p.phys.Value()) && p.inputBuffer == old(p.inputBuffer)
      else
        && p.phys.Value() == Inputs.TickPhys(m, old(p.phys.Value()), old(p.inputBuffer))
        && p.inputBuffer == Inputs.TickLeaves(old(p.inputBuffer))
    }

    method TickPlayer(m: Grid, p: Player)
      modifies p`inputBuffer, p.phys
      ensures Advanced(m, p, p.entered)
    {
      if p.entered {
        p.Tick(m);
      }
    }

    method TickPlayers(m: Grid)
      requires Roster()
      modifies players.Values`inputBuffer, Bodies()
      ensures forall i :: i in known ==> Advanced(m, known[i], i in players && known[i].entered)
    {
      hide Inputs.TickPhys, Inputs.TickLeaves, Roster, PhysicsState.Value;
      var todo := players.Keys;
      while todo != {}
        invariant todo <= players.Keys
        invariant forall i :: i in known ==> Advanced(m, known[i], i in players && i !in todo && known[i].entered)
      {
        var id :| id in todo;
        todo := todo - {id};
        Apart(id);
        TickPlayer(m, players[id]);
      }
    }

    /** Every entered player in the room is ticked, in whatever order; nobody else's state changes. */
    method TickAll()
      requires Roster() && tiles.Valid()
      modifies this`serverTick, players.Values`inputBuffer, Bodies()
      ensures serverTick == (old(serverTick) + 1) % 0x1_0000_0000
      ensures forall i :: i in known ==> Advanced(tiles.AsTiles(), known[i], i in players && known[i].entered)
    {
      hide Advanced, Roster;
      TickPlayers(tiles.AsTiles());
      serverTick := (serverTick + 1) % 0x1_0000_0000;
    }

    // ---- What other threads do ----

    method PostTask(t: RoomTask)
      requires Valid() && Knows(t)
      modifies this`taskQueue, this`posted
      ensures Valid() && View() == Rooms.Post(old(View()), Kind(t)) && taskQueue == old(taskQueue) + [t]
    {
      taskQueue := taskQueue + [t];
      posted := posted + [Kind(t)];
      assert Kinds(taskQueue) == Kinds(old(taskQueue)) + [Kind(t)];
    }

    method MakePlayer() returns (player: Player)
      requires Roster()
      modifies this`known, this`nextPlayerId
      ensures Roster() && fresh(player) && player.id == old(nextPlayerId) && player.connected
      ensures player.id !in old(known) && known == old(known)[player.id := player]
      ensures nextPlayerId == old(nextPlayerId) + 1
      ensures Snapshot() == old(Snapshot()).(connected := old(Connected()) + {player.id},
                                             inbox := old(Inboxes())[player.id := []])
    {
      player := new Player(nextPlayerId);
      player.connected := true;
      nextPlayerId := nextPlayerId + 1;
      known := known[player.id := player];
      assert Connected() == old(Connected()) + {player.id} && Entered() == old(Entered());
      assert Inboxes() == old(Inboxes())[player.id := []];
    }

    /** A new session gets a player with the next number, whose entry to the room is posted. */
    method OnConnected() returns (player: Player)
      requires Valid()
      modifies this`known, this`nextPlayerId, this`taskQueue, this`posted
      ensures Valid() && fresh(player) && player.id == old(nextPlayerId) && player.connected
      ensures View() == Rooms.Take(old(View()), Rooms.Connect) && taskQueue == old(taskQueue) + [EnterTask(player)]
      ensures known == old(known)[player.id := player]
    {
      hide Roster, Kinds;
      player := MakePlayer();
      PostTask(EnterTask(player));
    }

    /** A request to enter the game, whether or not its player is still there. */
    method OnEnterGame(player: Player, name: string)
      requires Valid() && player.id in known && known[player.id] == player
      modifies this`taskQueue, this`posted
      ensures Valid() && View() == Rooms.Take(old(View()), Rooms.RequestEnter(player.id, name))
      ensures taskQueue == old(taskQueue) + [EnterGameTask(player, name)]
    {
      PostTask(EnterGameTask(player, name));
    }

    method OnDisconnected(player: Player)
      requires Valid() && player.id in known && known[player.id] == player && player.connected && player.id !in gone
      modifies this`taskQueue, this`posted, this`gone, player`connected
      ensures Valid() && !player.connected && taskQueue == old(taskQueue) + [LeaveTask(player.id)]
      ensures var lost := Rooms.Take(old(View()), Rooms.LoseSession(player.id));
              View() == Rooms.Take(lost, Rooms.PostLeave(player.id))
    {
      player.connected := false;
      gone := gone + {player.id};
      assert Connected() == old(Connected()) - {player.id};
      PostTask(LeaveTask(player.id));
    }
  }
}
