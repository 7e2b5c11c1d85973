/** Room membership and what each client is told about it. Connections, requests and disconnections post tasks from
    other threads; the game loop swaps the queue out and runs the tasks in order. Messages go to whoever has a
    session at that moment. */
module Rooms {

  type Id = nat

  datatype Message = EnteredGame | PlayerList(ids: set<Id>) | Spawn(id: Id) | Despawn(id: Id)

  /** A list replaces what a client shows. */
  function Seen(before: set<Id>, msg: Message): set<Id> {
    match msg
    case EnteredGame => before
    case PlayerList(ids) => ids
    case Spawn(id) => before + {id}
    case Despawn(id) => before - {id}
  }

  /** The other players a client shows after these messages. */
  function View(inbox: seq<Message>): set<Id> {
    if inbox == [] then {} else Seen(View(inbox[..|inbox| - 1]), inbox[|inbox| - 1])
  }

  /** `connected` are the players whose session is set; `inbox` holds what each session has accepted. */
  datatype Room = Room(members: set<Id>, entered: set<Id>, connected: set<Id>, inbox: map<Id, seq<Message>>)

  datatype Task = Enter(id: Id) | EnterGame(id: Id, name: string) | Leave(id: Id) | Other

  const MAX_NAME: nat := 20

  // ---- What the tasks do ----

  function Deliver(r: Room, to: set<Id>, msg: Message): Room {
    r.(inbox := map id | id in r.inbox ::
         if id in to && id in r.connected then r.inbox[id] + [msg] else r.inbox[id])
  }

  predicate Admitted(r: Room, id: Id, name: string) {
    0 < |name| <= MAX_NAME && id !in r.entered
  }

  /** The list is a message with no content when there is nobody to list, and is then not sent. */
  function TellNewcomer(r: Room, id: Id, others: set<Id>): Room {
    var told := Deliver(r, {id}, EnteredGame);
    if others == {} then told else Deliver(told, {id}, PlayerList(others))
  }

  function RunTask(r: Room, t: Task): Room {
    match t
    case Enter(id) => r.(members := r.members + {id})
    case EnterGame(id, name) =>
      if !Admitted(r, id, name) then r
      else
        var others := r.members - {id};
        Deliver(TellNewcomer(r.(entered := r.entered + {id}), id, others), others, Spawn(id))
    case Leave(id) =>
      if id !in r.members then r
      else Deliver(r, r.members, Despawn(id)).(members := r.members - {id})
    case Other => r
  }

  // ---- What the clients should see ----

  /** Every client shows only players in the room, and not itself. */
  predicate Sound(r: Room) {
    && r.connected <= r.inbox.Keys
    && forall p :: p in r.connected ==> View(r.inbox[p]) <= r.members - {p}
  }

  /** A client that has entered shows every other player in the room that has entered. */
  predicate Complete(r: Room) {
    && r.connected <= r.inbox.Keys
    && forall p, q ::
         (p in r.connected && p in r.members && p in r.entered && q in r.members && q in r.entered && p != q) ==>
           q in View(r.inbox[p])
  }

  lemma ViewExtend(inbox: seq<Message>, msg: Message)
    ensures View(inbox + [msg]) == Seen(View(inbox), msg)
  {
    assert (inbox + [msg])[..|inbox|] == inbox;
  }

  function ViewOf(r: Room, p: Id): set<Id>
    requires p in r.inbox
  {
    View(r.inbox[p])
  }

  lemma DeliverViews(r: Room, to: set<Id>, msg: Message, p: Id)
    requires p in r.inbox
    ensures p in Deliver(r, to, msg).inbox
    ensures ViewOf(Deliver(r, to, msg), p) ==
            if p in to && p in r.connected then Seen(ViewOf(r, p), msg) else ViewOf(r, p)
  {
    ViewExtend(r.inbox[p], msg);
  }

  /** What a successful entry does to a connected player's view. */
  lemma EntryViews(r: Room, id: Id, name: string, p: Id)
    requires Admitted(r, id, name) && p in r.connected && p in r.inbox
    ensures var t := RunTask(r, EnterGame(id, name));
            && p in t.inbox && t.members == r.members && t.connected == r.connected
            && t.inbox.Keys == r.inbox.Keys && t.entered == r.entered + {id}
            && ViewOf(t, p) == (if p == id then (if r.members - {id} == {} then ViewOf(r, p) else r.members - {id})
                                else if p in r.members then ViewOf(r, p) + {id}
                                else ViewOf(r, p))
  {
    var others := r.members - {id};
    var r0 := r.(entered := r.entered + {id});
    var r1 := Deliver(r0, {id}, EnteredGame);
    var r2 := TellNewcomer(r0, id, others);
    DeliverViews(r0, {id}, EnteredGame, p);
    DeliverViews(r1, {id}, PlayerList(others), p);
    DeliverViews(r2, others, Spawn(id), p);
  }

  lemma LeaveViews(r: Room, id: Id, p: Id)
    requires id in r.members && p in r.connected && p in r.inbox
    ensures var t := RunTask(r, Leave(id));
            && p in t.inbox && ViewOf(t, p) == (if p in r.members then ViewOf(r, p) - {id} else ViewOf(r, p))
  {
    DeliverViews(r, r.members, Despawn(id), p);
  }

  /** An entry is admitted with a name of one to twenty characters, once. The newcomer is told so and then of the others
      in the room, if there are any; each of these is told of the newcomer. Only those with a session are told. */
  lemma EntryExactly(r: Room, id: Id, name: string)
    ensures var t := RunTask(r, EnterGame(id, name));
            if !(1 <= |name| <= 20) || id in r.entered then t == r
            else
              && t.members == r.members && t.connected == r.connected && t.entered == r.entered + {id}
              && t.inbox.Keys == r.inbox.Keys
              && var others := r.members - {id};
                 forall p :: p in r.inbox ==>
                   t.inbox[p] ==
                   if p !in r.connected then r.inbox[p]
                   else if p == id then r.inbox[p] + [EnteredGame] + (if others == {} then [] else [PlayerList(others)])
                   else if p in others then r.inbox[p] + [Spawn(id)]
                   else r.inbox[p]
  {
    var others := r.members - {id};
    forall p | p in r.inbox ensures r.inbox[p] + [EnteredGame] + [] == r.inbox[p] + [EnteredGame] {
    }
  }

  /** When a player in the room leaves, everyone in the room with a session is told. */
  lemma LeaveExactly(r: Room, id: Id)
    ensures var t := RunTask(r, Leave(id));
            if id !in r.members then t == r
            else
              && t.members == r.members - {id} && t.entered == r.entered && t.connected == r.connected
              && t.inbox.Keys == r.inbox.Keys
              && forall p :: p in r.inbox ==>
                   t.inbox[p] == if p in r.members && p in r.connected then r.inbox[p] + [Despawn(id)] else r.inbox[p]
    ensures RunTask(r, Enter(id)) == r.(members := r.members + {id}) && RunTask(r, Other) == r
  {
  }

  /** Running an entry keeps views sound exactly when the player is in the room, or is refused, or there is nobody
      else connected in the room to be told. */
  lemma EntryKeepsSoundExactly(r: Room, id: Id, name: string)
    requires Sound(r)
    ensures Sound(RunTask(r, EnterGame(id, name))) <==>
            || id in r.members
            || !Admitted(r, id, name)
            || forall p :: p in r.members && p in r.connected ==> p == id
  {
    var t := RunTask(r, EnterGame(id, name));
    if Admitted(r, id, name) {
      forall p | p in r.connected
        ensures p in t.inbox
        ensures ViewOf(t, p) == (if p == id then (if r.members - {id} == {} then ViewOf(r, p) else r.members - {id})
                                 else if p in r.members then ViewOf(r, p) + {id}
                                 else ViewOf(r, p))
        ensures ViewOf(t, p) <= r.members - {p} <==> (p == id || p !in r.members || id in r.members)
      {
        EntryViews(r, id, name, p);
      }
    }
  }

  lemma EntryKeepsComplete(r: Room, id: Id, name: string)
    requires r.connected <= r.inbox.Keys && Complete(r) && (id in r.connected ==> id in r.members)
    ensures Complete(RunTask(r, EnterGame(id, name)))
  {
    if Admitted(r, id, name) {
      forall p | p in r.connected
        ensures p in RunTask(r, EnterGame(id, name)).inbox
        ensures ViewOf(RunTask(r, EnterGame(id, name)), p) ==
                (if p == id then (if r.members - {id} == {} then ViewOf(r, p) else r.members - {id})
                 else if p in r.members then ViewOf(r, p) + {id}
                 else ViewOf(r, p))
      {
        EntryViews(r, id, name, p);
      }
    }
  }

  lemma LeaveKeepsComplete(r: Room, id: Id)
    requires r.connected <= r.inbox.Keys && Complete(r)
    ensures Complete(RunTask(r, Leave(id)))
  {
    if id in r.members {
      forall p | p in r.connected
        ensures p in RunTask(r, Leave(id)).inbox
        ensures ViewOf(RunTask(r, Leave(id)), p) == (if p in r.members then ViewOf(r, p) - {id} else ViewOf(r, p))
      {
        LeaveViews(r, id, p);
      }
    }
  }

  lemma LeaveKeepsSound(r: Room, id: Id)
    requires Sound(r)
    requires forall p :: p in r.connected && p !in r.members ==> r.inbox[p] == []
    ensures Sound(RunTask(r, Leave(id)))
  {
    if id in r.members {
      forall p | p in r.connected
        ensures p in RunTask(r, Leave(id)).inbox
        ensures ViewOf(RunTask(r, Leave(id)), p) == (if p in r.members then ViewOf(r, p) - {id} else ViewOf(r, p))
      {
        LeaveViews(r, id, p);
      }
    }
  }

  /** If a player's entry runs after its leaving, everyone else connected in the room shows a player that is not
      there. */
  lemma LateEntryShowsAbsentPlayer(r: Room, id: Id, name: string, p: Id)
    requires id in r.members && Admitted(r, id, name)
    requires p in r.members && p in r.connected && p in r.inbox && p != id
    ensures var t := RunTask(RunTask(r, Leave(id)), EnterGame(id, name));
            p in t.inbox && id in ViewOf(t, p) && id !in t.members && !Sound(t)
  {
    LeaveViews(r, id, p);
    EntryViews(RunTask(r, Leave(id)), id, name, p);
  }

  // ---- The threads ----

  /** `gone` are the players whose leaving has been posted. The loop runs `batch` while others post to `queue`. */
  datatype System = System(
    room: Room, queue: seq<Task>, batch: seq<Task>, nextId: Id, gone: set<Id>,
    posted: seq<Task>, executed: seq<Task>)

  datatype Step =
    | Connect
    | RequestEnter(id: Id, name: string)
    | RequestOther
    | LoseSession(id: Id)
    | PostLeave(id: Id)
    | Swap
    | RunOne

  const INIT: System := System(Room({}, {}, {}, map[]), [], [], 0, {}, [], [])

  function Post(s: System, t: Task): System {
    s.(queue := s.queue + [t], posted := s.posted + [t])
  }

  /** A request to enter may be handled at any time after the connection, even when the player's leaving is posted
      already. The leaving is posted once, after the session is gone. */
  predicate Enabled(s: System, step: Step) {
    match step
    case Connect => true
    case RequestEnter(id, _) => id < s.nextId
    case RequestOther => true
    case LoseSession(id) => id in s.room.connected
    case PostLeave(id) => id < s.nextId && id !in s.room.connected && id !in s.gone
    case Swap => s.batch == []
    case RunOne => s.batch != []
  }

  function Take(s: System, step: Step): System
    requires Enabled(s, step)
  {
    match step
    case Connect =>
      Post(s.(nextId := s.nextId + 1,
              room := s.room.(connected := s.room.connected + {s.nextId}, inbox := s.room.inbox[s.nextId := []])),
           Enter(s.nextId))
    case RequestEnter(id, name) => Post(s, EnterGame(id, name))
    case RequestOther => Post(s, Other)
    case LoseSession(id) => s.(room := s.room.(connected := s.room.connected - {id}))
    case PostLeave(id) => Post(s.(gone := s.gone + {id}), Leave(id))
    case Swap => s.(batch := s.queue, queue := [])
    case RunOne =>
      s.(room := RunTask(s.room, s.batch[0]), batch := s.batch[1..], executed := s.executed + [s.batch[0]])
  }

  predicate ValidRun(s: System, steps: seq<Step>)
    decreases |steps|
  {
    steps == [] || (Enabled(s, steps[0]) && ValidRun(Take(s, steps[0]), steps[1..]))
  }

  function Run(s: System, steps: seq<Step>): System
    requires ValidRun(s, steps)
    decreases |steps|
  {
    if steps == [] then s else Run(Take(s, steps[0]), steps[1..])
  }

  // ---- The invariant ----

  function Pending(s: System): seq<Task> { s.batch + s.queue }

  /** A player enters the room once, before anything else that concerns it. */
  predicate Ordered(members: set<Id>, entered: set<Id>, gone: set<Id>, nextId: Id, pending: seq<Task>) {
    && (forall k :: 0 <= k < |pending| && pending[k].Enter? ==>
          && pending[k].id < nextId && pending[k].id !in members && pending[k].id !in entered
          && forall j :: 0 <= j < |pending| && j != k ==> pending[j] != pending[k])
    && (forall j, k :: 0 <= j < k < |pending| && pending[k].Enter? && !pending[j].Other? ==>
          pending[j].id != pending[k].id)
    && (forall k :: 0 <= k < |pending| && pending[k].EnterGame? ==> pending[k].id < nextId)
    && (forall k :: 0 <= k < |pending| && pending[k].Leave? ==> pending[k].id in gone)
  }

  /** A player that is not gone is in the room or about to be, and has been told nothing before that. */
  ghost predicate Placed(r: Room, gone: set<Id>, nextId: Id, pending: seq<Task>) {
    && (forall p: Id :: p in r.inbox <==> p < nextId)
    && (forall p: Id :: p in r.members || p in r.entered || p in r.connected || p in gone ==> p < nextId)
    && r.connected !! gone
    && (forall p: Id :: p < nextId && p !in gone ==> p in r.members || (Enter(p) in pending && r.inbox[p] == []))
  }

  ghost predicate Inv(s: System) {
    && Ordered(s.room.members, s.room.entered, s.gone, s.nextId, Pending(s))
    && Placed(s.room, s.gone, s.nextId, Pending(s))
    && Complete(s.room)
    && s.posted == s.executed + Pending(s)
  }

  lemma PendingAfterPost(s: System, t: Task)
    ensures Pending(Post(s, t)) == Pending(s) + [t]
  {
    assert s.batch + (s.queue + [t]) == s.batch + s.queue + [t];
  }

  lemma ConnectInv(s: System)
    requires Inv(s)
    ensures Inv(Take(s, Connect))
  {
    var t := Take(s, Connect);
    PendingAfterPost(s, Enter(s.nextId));
    assert Pending(t) == Pending(s) + [Enter(s.nextId)];
    assert t.posted == t.executed + Pending(t);
    forall p: Id | p < t.nextId && p !in t.gone
      ensures p in t.room.members || (Enter(p) in Pending(t) && t.room.inbox[p] == [])
    {
      if p == s.nextId {
        assert Pending(t)[|Pending(s)|] == Enter(p);
      }
    }
  }

  lemma PostInv(s: System, t: Task)
    requires Inv(s)
    requires t.Other? || (t.EnterGame? && t.id < s.nextId)
    ensures Inv(Post(s, t))
  {
    PendingAfterPost(s, t);
    assert Post(s, t).posted == s.executed + (Pending(s) + [t]);
  }

  lemma PostLeaveInv(s: System, id: Id)
    requires Inv(s) && Enabled(s, PostLeave(id))
    ensures Inv(Take(s, PostLeave(id)))
  {
    var t := Take(s, PostLeave(id));
    PendingAfterPost(s, Leave(id));
    assert Pending(t) == Pending(s) + [Leave(id)];
    assert t.posted == t.executed + Pending(t);
  }

  // ---- Running a task ----

  lemma OrderedTail(r: Room, gone: set<Id>, nextId: Id, pending: seq<Task>)
    requires pending != [] && Ordered(r.members, r.entered, gone, nextId, pending)
    ensures var t := RunTask(r, pending[0]);
            Ordered(t.members, t.entered, gone, nextId, pending[1..])
  {
    var head, tail := pending[0], pending[1..];
    forall k | 0 <= k < |tail| ensures tail[k] == pending[k + 1] {
    }
    forall k | 0 <= k < |tail| && tail[k].Enter?
      ensures !head.Other? ==> head.id != tail[k].id
      ensures forall j :: 0 <= j < |tail| && j != k ==> tail[j] != tail[k]
    {
      assert pending[k + 1].Enter?;
      forall j | 0 <= j < |tail| && j != k ensures tail[j] != tail[k] {
        assert pending[j + 1] == tail[j];
      }
    }
  }

  /** The next task to run concerns a player that is known, and only an entry to the room comes before one is in. */
  lemma HeadFits(s: System)
    requires Inv(s) && s.batch != []
    ensures s.batch[0].Enter? ==> s.batch[0].id !in s.room.entered
    ensures s.batch[0].EnterGame? && s.batch[0].id in s.room.connected ==> s.batch[0].id in s.room.members
    ensures s.batch[0].Enter? || s.batch[0].EnterGame? ==> s.batch[0].id < s.nextId
    ensures s.batch[0].Leave? ==> s.batch[0].id in s.gone
    ensures !s.batch[0].Other? && !s.batch[0].Enter? ==> Enter(s.batch[0].id) !in Pending(s)
  {
    var pending := Pending(s);
    assert pending[0] == s.batch[0];
    assert !pending[0].Other? && !pending[0].Enter? ==>
        forall k :: 0 <= k < |pending| && pending[k].Enter? ==> pending[k].id != pending[0].id;
  }

  lemma PlacedAfter(s: System)
    requires Inv(s) && s.batch != []
    ensures var t := Take(s, RunOne);
            Placed(t.room, t.gone, t.nextId, Pending(t))
  {
    var t := Take(s, RunOne);
    HeadFits(s);
    assert Pending(s) == [s.batch[0]] + Pending(t);
    forall p: Id | p < t.nextId && p !in t.gone
      ensures p in t.room.members || (Enter(p) in Pending(t) && t.room.inbox[p] == [])
    {
      if p !in s.room.members && s.batch[0] != Enter(p) {
        assert Enter(p) in Pending(s);
        assert Enter(p) in Pending(t);
      }
    }
  }

  lemma RunOneInv(s: System)
    requires Inv(s) && s.batch != []
    ensures Inv(Take(s, RunOne))
  {
    var t := Take(s, RunOne);
    HeadFits(s);
    assert Pending(s) == [s.batch[0]] + Pending(t);
    assert Pending(s)[1..] == Pending(t);
    OrderedTail(s.room, s.gone, s.nextId, Pending(s));
    PlacedAfter(s);
    assert t.posted == t.executed + Pending(t);
    match s.batch[0]
    case Enter(id) =>
    case EnterGame(id, name) => EntryKeepsComplete(s.room, id, name);
    case Leave(id) => LeaveKeepsComplete(s.room, id);
    case Other =>
  }

  lemma StepKeepsInv(s: System, step: Step)
    requires Inv(s) && Enabled(s, step)
    ensures Inv(Take(s, step))
  {
    match step
    case Connect => ConnectInv(s);
    case RequestEnter(id, name) => PostInv(s, EnterGame(id, name));
    case RequestOther => PostInv(s, Other);
    case LoseSession(id) =>
    case PostLeave(id) => PostLeaveInv(s, id);
    case Swap => assert Pending(Take(s, Swap)) == Pending(s);
    case RunOne => RunOneInv(s);
  }

  lemma {:induction false} RunKeepsInv(s: System, steps: seq<Step>)
    requires Inv(s) && ValidRun(s, steps)
    ensures Inv(Run(s, steps))
    decreases |steps|
  {
    hide Inv, Enabled, Take;
    if steps != [] {
      StepKeepsInv(s, steps[0]);
      RunKeepsInv(Take(s, steps[0]), steps[1..]);
    }
  }

  // ---- When clients show only players in the room ----

  /** The step does not let in a player who is not in the room while somebody else there would be told. */
  predicate Harmless(s: System, step: Step) {
    step.RunOne? && s.batch != [] && s.batch[0].EnterGame? ==>
      || s.batch[0].id in s.room.members
      || !Admitted(s.room, s.batch[0].id, s.batch[0].name)
      || forall p :: p in s.room.members && p in s.room.connected ==> p == s.batch[0].id
  }

  lemma StepSoundExactly(s: System, step: Step)
    requires Inv(s) && Sound(s.room) && Enabled(s, step)
    ensures Sound(Take(s, step).room) <==> Harmless(s, step)
  {
    if step.RunOne? {
      HeadFits(s);
      match s.batch[0]
      case Enter(id) =>
      case EnterGame(id, name) => EntryKeepsSoundExactly(s.room, id, name);
      case Leave(id) => LeaveKeepsSound(s.room, id);
      case Other =>
    }
  }

  ghost predicate AlwaysSound(s: System, steps: seq<Step>)
    requires ValidRun(s, steps)
    decreases |steps|
  {
    Sound(s.room) && (steps != [] ==> AlwaysSound(Take(s, steps[0]), steps[1..]))
  }

  predicate AlwaysHarmless(s: System, steps: seq<Step>)
    requires ValidRun(s, steps)
    decreases |steps|
  {
    steps != [] ==> Harmless(s, steps[0]) && AlwaysHarmless(Take(s, steps[0]), steps[1..])
  }

  lemma {:induction false} RunSoundExactly(s: System, steps: seq<Step>)
    requires Inv(s) && Sound(s.room) && ValidRun(s, steps)
    ensures AlwaysSound(s, steps) <==> AlwaysHarmless(s, steps)
    decreases |steps|
  {
    hide Inv, Enabled, Take, Sound, Harmless;
    if steps != [] {
      var t := Take(s, steps[0]);
      StepKeepsInv(s, steps[0]);
      StepSoundExactly(s, steps[0]);
      if Sound(t.room) {
        RunSoundExactly(t, steps[1..]);
      }
    }
  }

  /** In every run, under every order of posting, swapping and running: each client that has entered shows every other
      player in the room that has, and tasks run in the order they were posted, each once. Each client shows only
      players in the room, at every moment, exactly if no entry of an absent player is announced to anyone. */
  lemma ViewsAgree(steps: seq<Step>)
    requires ValidRun(INIT, steps)
    ensures var s := Run(INIT, steps);
            Complete(s.room) && s.posted == s.executed + s.batch + s.queue
    ensures AlwaysSound(INIT, steps) <==> AlwaysHarmless(INIT, steps)
  {
    RunKeepsInv(INIT, steps);
    RunSoundExactly(INIT, steps);
    var s := Run(INIT, steps);
    assert s.executed + (s.batch + s.queue) == s.executed + s.batch + s.queue;
  }

  // ---- Requests that come in time ----

  /** The player's leaving has not been posted. */
  predicate Prompt(s: System, step: Step) {
    step.RequestEnter? ==> step.id !in s.gone
  }

  predicate AlwaysPrompt(s: System, steps: seq<Step>)
    requires ValidRun(s, steps)
    decreases |steps|
  {
    steps != [] ==> Prompt(s, steps[0]) && AlwaysPrompt(Take(s, steps[0]), steps[1..])
  }

  /** Every pending entry finds its player in the room. */
  predicate Timely(members: set<Id>, pending: seq<Task>) {
    && (forall k :: 0 <= k < |pending| && pending[k].EnterGame? ==>
          pending[k].id in members || exists j :: 0 <= j < k && pending[j] == Enter(pending[k].id))
    && (forall j, k :: 0 <= j < k < |pending| && pending[j].Leave? && pending[k].EnterGame? ==>
          pending[j].id != pending[k].id)
  }

  lemma TimelyPost(members: set<Id>, pending: seq<Task>, t: Task)
    requires Timely(members, pending)
    requires t.EnterGame? ==> Leave(t.id) !in pending && (t.id in members || Enter(t.id) in pending)
    ensures Timely(members, pending + [t])
  {
    var after := pending + [t];
    forall k | 0 <= k < |after| && after[k].EnterGame?
      ensures after[k].id in members || exists j :: 0 <= j < k && after[j] == Enter(after[k].id)
    {
      if after[k].id !in members {
        if k < |pending| {
          var j :| 0 <= j < k && pending[j] == Enter(pending[k].id);
          assert after[j] == Enter(after[k].id);
        } else {
          var j :| 0 <= j < |pending| && pending[j] == Enter(t.id);
          assert after[j] == Enter(after[k].id);
        }
      }
    }
  }

  lemma TimelyTail(r: Room, pending: seq<Task>)
    requires pending != [] && Timely(r.members, pending)
    ensures Timely(RunTask(r, pending[0]).members, pending[1..])
  {
    var head, tail := pending[0], pending[1..];
    forall k | 0 <= k < |tail| && tail[k].EnterGame?
      ensures tail[k].id in RunTask(r, head).members || exists j :: 0 <= j < k && tail[j] == Enter(tail[k].id)
    {
      assert pending[k + 1] == tail[k];
      if tail[k].id !in r.members {
        var j :| 0 <= j < k + 1 && pending[j] == Enter(tail[k].id);
        if j > 0 {
          assert tail[j - 1] == Enter(tail[k].id);
        }
      }
    }
    forall j, k | 0 <= j < k < |tail| && tail[j].Leave? && tail[k].EnterGame? ensures tail[j].id != tail[k].id {
      assert pending[j + 1] == tail[j] && pending[k + 1] == tail[k];
    }
  }

  lemma StepTimely(s: System, step: Step)
    requires Inv(s) && Timely(s.room.members, Pending(s)) && Enabled(s, step) && Prompt(s, step)
    ensures Timely(Take(s, step).room.members, Pending(Take(s, step)))
    ensures Harmless(s, step)
  {
    var t := Take(s, step);
    match step
    case Connect =>
      PendingAfterPost(s, Enter(s.nextId));
      TimelyPost(s.room.members, Pending(s), Enter(s.nextId));
    case RequestEnter(id, name) =>
      PendingAfterPost(s, EnterGame(id, name));
      TimelyPost(s.room.members, Pending(s), EnterGame(id, name));
    case RequestOther =>
      PendingAfterPost(s, Other);
      TimelyPost(s.room.members, Pending(s), Other);
    case LoseSession(id) =>
    case PostLeave(id) =>
      PendingAfterPost(s, Leave(id));
      TimelyPost(s.room.members, Pending(s), Leave(id));
    case Swap =>
      assert Pending(t) == Pending(s);
    case RunOne =>
      assert Pending(s) == [s.batch[0]] + Pending(t);
      assert Pending(s)[1..] == Pending(t);
      TimelyTail(s.room, Pending(s));
  }

  lemma {:induction false} PromptIsHarmless(s: System, steps: seq<Step>)
    requires Inv(s) && Timely(s.room.members, Pending(s)) && ValidRun(s, steps) && AlwaysPrompt(s, steps)
    ensures AlwaysHarmless(s, steps)
    decreases |steps|
  {
    hide Inv, Enabled, Take, Timely, Prompt, Harmless, Pending;
    if steps != [] {
      StepKeepsInv(s, steps[0]);
      StepTimely(s, steps[0]);
      PromptIsHarmless(Take(s, steps[0]), steps[1..]);
    }
  }

  lemma InitFits()
    ensures Inv(INIT) && Timely(INIT.room.members, Pending(INIT)) && Sound(INIT.room)
  {
  }

  /** If no request to enter is posted after its player's leaving, clients show only players in the room, at every
      moment of the run. */
  lemma PromptViewsAgree(steps: seq<Step>)
    requires ValidRun(INIT, steps) && AlwaysPrompt(INIT, steps)
    ensures AlwaysSound(INIT, steps)
  {
    hide Inv, Timely, Sound;
    InitFits();
    PromptIsHarmless(INIT, steps);
    RunSoundExactly(INIT, steps);
  }

  // ---- A request that comes too late ----

  lemma Prefixed(s: System, step: Step, steps: seq<Step>)
    requires Enabled(s, step) && ValidRun(Take(s, step), steps)
    ensures ValidRun(s, [step] + steps) && Run(s, [step] + steps) == Run(Take(s, step), steps)
  {
    assert ([step] + steps)[1..] == steps;
  }

  /** Two players are in the room and the first has left its session, its leaving posted. */
  function OneLeaving(name: string): System {
    var posted := [Enter(0), Enter(1), Leave(0), EnterGame(0, name)];
    System(Room({0, 1}, {}, {1}, map[0 := [], 1 := []]), posted[2..], [], 2, {0}, posted, posted[..2])
  }

  /** From there running the queue announces the player who has left. */
  lemma LateEntryRuns(name: string)
    requires 0 < |name| <= MAX_NAME
    ensures ValidRun(OneLeaving(name), [Swap, RunOne, RunOne])
    ensures !Sound(Run(OneLeaving(name), [Swap, RunOne, RunOne]).room)
  {
    var s0 := OneLeaving(name);
    var s1 := Take(s0, Swap);
    assert s1.batch == [Leave(0), EnterGame(0, name)];
    var s2 := Take(s1, RunOne);
    var s3 := Take(s2, RunOne);
    Prefixed(s2, RunOne, []);
    Prefixed(s1, RunOne, [RunOne] + []);
    Prefixed(s0, Swap, [RunOne] + ([RunOne] + []));
    assert [Swap] + ([RunOne] + ([RunOne] + [])) == [Swap, RunOne, RunOne];
    LateEntryShowsAbsentPlayer(s0.room, 0, name, 1);
  }

  /** Two players are in the room. */
  const BOTH_IN: System :=
    System(Room({0, 1}, {}, {0, 1}, map[0 := [], 1 := []]), [], [], 2, {}, [Enter(0), Enter(1)], [Enter(0), Enter(1)])

  /** The first loses its session, and its leaving and its request are posted. */
  lemma LeavingPosted(name: string)
    ensures var steps := [LoseSession(0), PostLeave(0), RequestEnter(0, name)];
            ValidRun(BOTH_IN, steps) && Run(BOTH_IN, steps) == OneLeaving(name)
  {
    var s1 := Take(BOTH_IN, LoseSession(0));
    var s2 := Take(s1, PostLeave(0));
    assert Take(s2, RequestEnter(0, name)) == OneLeaving(name);
    Prefixed(s2, RequestEnter(0, name), []);
    Prefixed(s1, PostLeave(0), [RequestEnter(0, name)]);
    Prefixed(BOTH_IN, LoseSession(0), [PostLeave(0), RequestEnter(0, name)]);
  }

  /** Two connect and are let in, and then that happens. */
  lemma OneLeavingReached(name: string)
    ensures var steps := [Connect, Connect, Swap, RunOne, RunOne] +
                         [LoseSession(0), PostLeave(0), RequestEnter(0, name)];
            ValidRun(INIT, steps) && Run(INIT, steps) == OneLeaving(name)
  {
    var s1 := Take(INIT, Connect);
    var s2 := Take(s1, Connect);
    var s3 := Take(s2, Swap);
    var s4 := Take(s3, RunOne);
    assert s3.batch == [Enter(0), Enter(1)];
    assert Take(s4, RunOne) == BOTH_IN;
    LeavingPosted(name);
    var rest := [LoseSession(0), PostLeave(0), RequestEnter(0, name)];
    Prefixed(s4, RunOne, rest);
    Prefixed(s3, RunOne, [RunOne] + rest);
    Prefixed(s2, Swap, [RunOne] + ([RunOne] + rest));
    Prefixed(s1, Connect, [Swap] + ([RunOne] + ([RunOne] + rest)));
    Prefixed(INIT, Connect, [Connect] + ([Swap] + ([RunOne] + ([RunOne] + rest))));
    assert [Connect] + ([Connect] + ([Swap] + ([RunOne] + ([RunOne] + rest)))) ==
           [Connect, Connect, Swap, RunOne, RunOne] + rest;
  }

  // ---- The loop's draining that no other thread interrupts ----

  function RunTasks(r: Room, tasks: seq<Task>): Room
    decreases |tasks|
  {
    if tasks == [] then r else RunTasks(RunTask(r, tasks[0]), tasks[1..])
  }

  function Drained(s: System): System {
    s.(room := RunTasks(s.room, s.queue), queue := [], executed := s.executed + s.queue)
  }

  function RunOnes(n: nat): seq<Step> {
    if n == 0 then [] else [RunOne] + RunOnes(n - 1)
  }

  lemma {:induction false} BatchRuns(s: System)
    ensures ValidRun(s, RunOnes(|s.batch|))
    ensures Run(s, RunOnes(|s.batch|)) ==
            s.(room := RunTasks(s.room, s.batch), batch := [], executed := s.executed + s.batch)
    decreases |s.batch|
  {
    var steps := RunOnes(|s.batch|);
    if s.batch != [] {
      assert steps[1..] == RunOnes(|s.batch| - 1);
      BatchRuns(Take(s, RunOne));
      assert s.executed + [s.batch[0]] + s.batch[1..] == s.executed + s.batch;
    } else {
      assert s.executed + s.batch == s.executed;
    }
  }

  /** Swapping the queue out and running all of it is a run of the system. */
  lemma DrainAlone(s: System)
    requires s.batch == []
    ensures var steps := [Swap] + RunOnes(|s.queue|);
            ValidRun(s, steps) && Run(s, steps) == Drained(s)
  {
    var steps := [Swap] + RunOnes(|s.queue|);
    assert steps[1..] == RunOnes(|s.queue|);
    BatchRuns(Take(s, Swap));
  }
}
