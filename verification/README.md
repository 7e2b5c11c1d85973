# Verified model of the platformer server

This project models the logic of an authoritative two-dimensional game server and proves properties of it: the packet
framing and the session protocol of its network layer, the tile map and the player physics of its room, and the queues
and messages that connect the network threads to the game loop. `dafny verify dfyconfig.toml` checks all of it.

## The modules

| file | contents |
|---|---|
| `Options.dfy` | a value that may be missing |
| `Packets.dfy` | the frame format, the decoder, `MakePacket`, the receive stream |
| `Receive.dfy` | the receive loop as a function of the bytes received; independence of how they were cut |
| `SessionSystem.dfy` | a session shared by threads: every interleaving of its atomic operations |
| `Sessions.dfy` | the `Session` and `NetService` objects |
| `Delivery.dfy` | from one session's send queue to the other session's packet handler |
| `TileMap.dfy` | cell keys, cell geometry, loading |
| `Physics.dfy` | collision queries and one simulation step, as functions |
| `Queries.dfy` | what the collision queries answer, in the edges of single cells |
| `Simulation.dfy` | the same as the room runs it: a state updated in place, scans and loops |
| `Motion.dfy` | which parts of the state each part of a step leaves alone; runs of steps |
| `Reach.dfy` | histories of one player, with any inputs and any ladder reports, and states that they reach |
| `Falling.dfy` | sub-steps, falling, landing, resting |
| `Containment.dfy`, `CellSizes.dfy` | closed rooms, and the cell sizes at which they hold every player that a history brings there |
| `Energy.dfy` | how high a jump goes |
| `Ladders.dfy` | ladder extents, the ladder state machine, the acknowledged input |
| `StepRules.dfy` | what a step and a ladder report do, in metres and seconds |
| `Inputs.dfy` | the input buffer between the I/O thread and the game loop |
| `Rooms.dfy` | who is in the room and what each client is told, under every order of posting and draining |
| `GameRoom.dfy` | the `Player` and `GameRoom` objects |

## How it is put together

Objects that the program updates in place are classes, and each of their methods is proved to do what a function on
values says. The theorems are about those functions, over all inputs, all runs and all interleavings. Those of them that
are called `...Exactly` say what single operations do without those functions, in bytes, cells, metres and seconds. Threads are
transition systems whose steps are the program's critical sections and atomic operations; what the operating system
answers (a post fails, an I/O completes or fails) is chosen freely at each step.

Lengths, times and speeds are exact reals. Cell coordinates are unbounded integers; where 32 bits matter, in the packed
cell key, the width is written out. Message payloads are opaque bytes.

## What turned out otherwise than documented

- `Proto/game.proto:97` calls the acknowledged number that of the last processed input. Steps that end on a ladder or
  climb off its top do not record their number: `AcknowledgedExactly` says precisely which steps do.
- The comment at `SimpleServer/GameRoom.h:56` relates the terminal speed to the cell height plus half the player's. What
  keeps a falling player above a tile is the sub-stepping, and the cell height that it needs is exactly 0.19
  (`HoldsExactlyFrom`).
- Rising is not sub-stepped, and gravity is skipped within the threshold of the ground, so a closed room of cells that
  are too low lets a player out through the ceiling. `ConfinesExactlyFrom` gives exactly the sizes that let nobody out in
  any history; the default size, one by one, is among them.
- Since gravity is skipped there, a rising player gains energy near the ground; `EnergyRisesExactlyNearGround` says exactly when.
- `SimpleServer/Map.cpp:38` says that the cell size comes from the first layer. It comes from the first layer whose size
  is not one by one (`SizeIsFirstDeclared`).
- `MakePacket` accepts payloads that every receiver refuses: those of 65528 bytes and more (`RoundTrip`). From 65532
  bytes its size field wraps, and it writes past its vector (`MakePacket`).
- A message that serializes to no bytes is never sent, so a player who enters an empty room gets no player list.
- A request to enter that is posted after its player's leaving leaves a player on the others' screens who is not in the
  room: `OneLeavingReached` and `LateEntryRuns` are a run in which it happens, and `ViewsAgree` says exactly when.
- Climbing down in steps longer than two thirds of a tenth of a second can pass solid ground (`LongStepPasses`).

## Model

| member | source | states |
|---|---|---|
| Packets.RoundTrip | ServerCore/Packet.cpp:5-94 | decoding a frame followed by any bytes gives back opcode and payload and leaves exactly the rest, if and only if the payload is at most 65527 bytes and the opcode is known; otherwise the two errors are told apart |
| Packets.DecodeSound | ServerCore/Packet.cpp:63-94 | a successful decode takes exactly the bytes that framing the decoded packet produces |
| Packets.DecodeStable | ServerCore/Packet.cpp:63-94 | an answer other than "incomplete" is not changed by bytes that arrive later |
| Packets.IncompleteMeansPrefix | ServerCore/Packet.cpp:65-85 | the decoder waits if and only if it lacks a header or holds a proper prefix of an acceptable frame |
| Packets.ResidualBound | ServerCore/Packet.cpp:65-85 | at most 65530 bytes can be waiting undecided, and that many can |
| Packets.MakePacketFromProto | ServerCore/ProtoUtil.cpp:3-17 | yields a buffer if and only if the message serializes to between 1 and 65527 bytes, and that buffer decodes to the message |
| Packets.MakePacket | ServerCore/Packet.cpp:5-18 | the filled array is the frame of opcode and payload, a missing payload leaving zero bytes; there is no array exactly if the wrapped size is too short for what is written |
| Packets.ByteStream.TryGetPacket | ServerCore/Packet.cpp:63-94 | takes one frame off the stream exactly when one can be decoded; on any other result the stream is unchanged and the result says why |
| Packets.FrameBytes | ServerCore/Packet.cpp:5-18 | a frame is its size and its opcode in sixteen bits, low byte first, and the payload |
| Packets.ErrorsExactly | ServerCore/Packet.cpp:63-94 | by the four bytes of the header: a size below 4, a size above 65531, an opcode outside 1000 to 1008 and 2000 to 2013, and too few bytes each give their own answer, and nothing else does |
| Receive.ClosesFor | ServerCore/Session.cpp:197-219 | a malformed header closes the session for the reason that its bytes show, with nothing of it delivered |
| Receive.DrainThenReceive | ServerCore/Session.cpp:187-229 | receiving more after draining ends as draining the whole stream at once |
| Receive.ChunkingInvariance | ServerCore/Session.cpp:182-232 | for every handler and any two ways of cutting the same bytes: same packets in the same order, and the same residual or the same reason for closing |
| Receive.DrainExactly | ServerCore/Session.cpp:189-229 | the loop ends in a state if and only if the stream is the frames of the packets delivered plus a rest, the handler answered them so, and the rest is undecodable in the way the state says |
| Receive.StreamBound | ServerCore/Session.cpp:187-195 | after any run of receives the residual is at most 65530 bytes, so the stream never exceeds 65530 plus one receive |
| Receive.PrefixDelivery | ServerCore/Session.cpp:189-229 | fed any prefix of the frames of some packets, the loop delivers a prefix of those packets, and only the handler can close it |
| SessionSystem.SendProtocol | ServerCore/Session.cpp:93-180 | in every run: at most one send in flight, at most 64 buffers queued, posted buffers a prefix of the accepted ones, and while open exactly those popped and the one in flight are posted |
| SessionSystem.OneReceiver | ServerCore/Session.cpp:182-232 | in every run at most one activity is in the receive path, and none while a receive is in flight |
| SessionSystem.ReferencesCounted | ServerCore/Session.cpp:26-118 | in every run the count is one until a close takes it over, plus posted I/Os, plus what running activities owe |
| SessionSystem.SessionLifetime | ServerCore/NetService.cpp:262-291 | in every run the session is deleted at most once, and is deleted if and only if it is closed with no I/O and no activity holding a reference; by then it was notified once and is out of the set |
| SessionSystem.NoLostWakeup | ServerCore/Session.cpp:120-180 | an open session with nothing left to run has a receive in flight, and a send in flight exactly if anything is queued |
| SessionSystem.OfferedAreAccepted | ServerCore/Session.cpp:120-151 | in every run, while the session is open and nobody is about to close it, every buffer that reached the critical section is accepted, in order |
| SessionSystem.EnqueueExactly | ServerCore/Session.cpp:120-151 | an uninterrupted EnqueueSend: nothing with an empty buffer or a closing session; on an open one a close exactly if 64 buffers are queued or nothing is being sent and the post fails; otherwise the buffer is queued and, if nothing was being sent, the front posted |
| SessionSystem.SendCompleteExactly | ServerCore/Session.cpp:159-180 | an uninterrupted send completion: the buffer sent is popped and the next posted; a failed post closes; with nothing left sending stops |
| SessionSystem.PostRecvExactly | ServerCore/Session.cpp:70-91 | posting a receive takes a reference, or closes if it fails; nothing on a closing session |
| SessionSystem.ReceiveExactly | ServerCore/Session.cpp:182-232 | in the receive path too few bytes post the next receive, a packet runs what its handler sends, and an accepted one goes on unless the session is closing |
| SessionSystem.RefusalExactly | ServerCore/Session.cpp:197-225 | a malformed packet closes an open session, and so does a refused one |
| SessionSystem.FailureExactly | ServerCore/NetService.cpp:278-283 | a failed completion closes an open session and drops the reference of the I/O |
| SessionSystem.StepKeepsInv | ServerCore/Session.cpp:26-232 | each atomic step keeps the counting and queue invariants from which these follow |
| SessionSystem.CloseAlone | ServerCore/Session.cpp:26-51 | the atomic operations of a close that nothing interrupts add up to the effect proved of `Session.Close` |
| SessionSystem.CallsAlone | ServerCore/Session.cpp:70-180 | the same for EnqueueSend, a send completion and the posting of a receive |
| Sessions.Session.AddRef | ServerCore/Session.cpp:59-62 | adds one reference |
| Sessions.Session.Release | ServerCore/Session.cpp:64-68 | drops one reference; the last one deletes |
| Sessions.Session.Close | ServerCore/Session.cpp:26-51 | the first close clears queue and stream, leaves the set, notifies once and drops the own reference; later ones do nothing |
| Sessions.Session.PostRecv | ServerCore/Session.cpp:70-91 | takes a reference for a posted receive; a failed post gives it back and closes |
| Sessions.Session.Start | ServerCore/Session.cpp:19-24 | the application hears of the session, then the first receive is posted |
| Sessions.Session.PostSendFront | ServerCore/Session.cpp:93-118 | posts the front of the queue with a reference, or stops sending; a failed post is reported |
| Sessions.Session.Accept | ServerCore/Session.cpp:129-147 | the critical section queues the buffer and posts it if nothing is being sent, or asks for a close, as in the transition system |
| Sessions.Session.Next | ServerCore/Session.cpp:162-176 | the critical section pops the buffer sent and posts the next, as in the transition system |
| Sessions.Session.EnqueueSend | ServerCore/Session.cpp:120-151 | has exactly the effect that the transition system gives to the call, over closing, full queue and failed post |
| Sessions.Session.OnSendComplete | ServerCore/Session.cpp:159-180 | pops the buffer sent and posts the next, as in the transition system |
| Sessions.Session.OnRecvComplete | ServerCore/Session.cpp:182-232 | delivers what the function of the stream says, then posts the next receive or closes for the stated reason |
| Sessions.Session.OnCompletion | ServerCore/NetService.cpp:262-291 | a failed or empty completion closes, others are handled, and the reference of the I/O is dropped last; packets are delivered and the stream changes only as stated |
| Sessions.NetService.AddSession | ServerCore/NetService.cpp:244-248 | adds exactly this session |
| Sessions.NetService.RemoveSession | ServerCore/NetService.cpp:250-254 | removes exactly this session |
| Sessions.NetService.NotifyConnected | ServerCore/NetService.cpp:218-222 | reports the connection once, after those reported before |
| Sessions.NetService.NotifyDisconnected | ServerCore/NetService.cpp:224-230 | removes the session and reports it once, after those reported before |
| Sessions.CreateAndRegisterSession | ServerCore/NetService.cpp:115-132 | a session is registered and reported before its first receive is posted; if that fails it is out again and reported as gone; without a port it is deleted and neither registered nor reported |
| Delivery.ProtoIsWireBuffer | ServerCore/ProtoUtil.cpp:3-17 | what serializing and framing a message yields is nothing or one whole acceptable frame of that message |
| Delivery.PostedIsWire | ServerCore/Session.cpp:93-151 | what any run posts consists of whole frames made by its callers, a prefix of what was accepted |
| Delivery.SenderToReceiver | ServerCore/Session.cpp:120-232 | whatever the sender's threads do and however the bytes are cut, the receiver's handler sees a prefix of the packets accepted, in order and unaltered, and all posted once all has arrived |
| TileMap.PackCellInjective | SimpleServer/Map.h:8-11 | two cells with 32-bit columns share a key if and only if they are the same cell |
| TileMap.CellOf | SimpleServer/Map.h:26-35 | a coordinate belongs to the one cell whose half-open interval contains it |
| TileMap.EdgeIs | SimpleServer/Map.h:32-35 | a cell begins at its number times the cell size |
| TileMap.KeysAreListed | SimpleServer/Map.cpp:30-62 | a key is in the set for a name if and only if a layer of that name lists the cell, whatever the order and repeats |
| TileMap.SizeIsFirstDeclared | SimpleServer/Map.cpp:38-43 | width and height kept are those of the first layer whose width or height is not one |
| TileMap.Map.Load | SimpleServer/Map.cpp:7-70 | on success every query answers true for exactly the cells listed under its name; on failure nothing changes |
| TileMap.Map.LoadLayer | SimpleServer/Map.cpp:36-61 | one layer adds its cells to the set its name selects and may set the size |
| TileMap.CollectKeys | SimpleServer/Map.cpp:56-61 | the loop over tiles adds exactly the keys of the entries |
| Queries.GroundExactly | SimpleServer/GameRoom.cpp:271-310 | on every map the ground query hits at a top exactly if some solid cell, or floating one where that counts, has it, within the columns under the player and within a tenth of the feet |
| Queries.CeilingExactly | SimpleServer/GameRoom.cpp:313-342 | the ceiling query hits at a bottom exactly if some solid cell over the head has it |
| Queries.WallExactly | SimpleServer/GameRoom.cpp:345-373 | the wall query hits exactly if some solid cell is beside the player on the side of the move, and stops the player at that cell's near face |
| StepRules.AcrossExactly | SimpleServer/GameRoom.cpp:515-524 | an off-ladder step moves five metres a second in the direction of the key, right before left, or stops exactly at the face of a solid cell beside its goal |
| StepRules.LooksExactly | SimpleServer/GameRoom.cpp:520-524 | which way the player faces, and whether it moves and crouches |
| StepRules.SpeedIs | SimpleServer/GameRoom.cpp:526-568 | the vertical speed before the move, from jump, ground, gravity 29.43 and the limit of fifteen, and whether the player is grounded, jumping and dropping through |
| StepRules.RisesExactly | SimpleServer/GameRoom.cpp:592-602 | a rising step goes all the way or stops under a solid cell exactly where one is over the head |
| StepRules.FallsExactly | SimpleServer/GameRoom.cpp:603-635 | a falling step ends on the first ground found after one of the fewest equal parts of at most nine hundredths, or goes all the way |
| StepRules.DropsThrough | SimpleServer/GameRoom.cpp:507-513 | from pressing drop-through on and for less than a quarter of a second after it, a run is one on the map without floating ground |
| StepRules.DropTimeExactly | SimpleServer/GameRoom.cpp:507-513 | unless pressed again, that time runs out with the steps |
| StepRules.DropFalls | SimpleServer/GameRoom.cpp:507-568 | where all ground is floating, pressing drop-through takes the player down |
| StepRules.ClimbsExactly | SimpleServer/GameRoom.cpp:454-501 | a step on a ladder: three metres a second, down before up, within the ladder; onto solid ground going on from there, off the top at rest, or on |
| StepRules.JumpsOffExactly | SimpleServer/GameRoom.cpp:443-453 | a jump leaves the ladder at ten metres a second and the step goes on from there |
| StepRules.BoardsExactly | SimpleServer/GameRoom.cpp:397-424 | a report stores the maximal run of ladder cells at the place or else at the cell below, and only without either half a metre below to ten above |
| StepRules.BoardsWithoutMap | SimpleServer/GameRoom.cpp:402-410 | without a map the stored ladder stays |
| Simulation.CheckGround | SimpleServer/GameRoom.cpp:271-310 | the scan hits exactly when some cell of the foot row within the width supports and its top is within the threshold |
| Simulation.CheckCeiling | SimpleServer/GameRoom.cpp:313-342 | the scan hits exactly when some cell of the head row within the width is solid |
| Simulation.CheckWall | SimpleServer/GameRoom.cpp:345-373 | the scan hits exactly when some cell of the side column within the height is solid, at that side's contact position |
| Simulation.GetLadderExtent | SimpleServer/GameRoom.cpp:380-395 | both scans end, at the ends that `ExtentIsMaximalRun` characterises |
| Simulation.HandleLadderState | SimpleServer/GameRoom.cpp:397-431 | a report puts the player on the ladder with the extent at its position, or a default |
| Simulation.FallInSubSteps | SimpleServer/GameRoom.cpp:603-635 | the loop with its early exit ends as the recursive fall does |
| Simulation.SimulatePlayer | SimpleServer/GameRoom.cpp:433-640 | the step on the fields updated in place equals the step on values, on every branch |
| Falling.SubSteps | SimpleServer/GameRoom.cpp:605-612 | no sub-step is longer than nine tenths of the threshold, and together they make the whole move |
| Falling.SubStepStaysAbove | SimpleServer/GameRoom.cpp:614-619 | one sub-step from on or above a supporting row lands on or above it or ends clear of it |
| Falling.NoFallThrough | SimpleServer/GameRoom.cpp:603-635 | with cells at least 0.19 high, no step that is not rising ends below a supporting top that was at or below the feet |
| Falling.ThinTileFallsThrough | SimpleServer/GameRoom.cpp:603-635 | with any smaller cell height, a map, a state that a history reaches on it, and an input for which it does |
| Falling.HoldsExactlyFrom | SimpleServer/GameRoom.cpp:603-635 | in all reachable states nobody ever falls through on maps of a cell height if and only if it is at least 0.19 |
| Falling.FallSweeps | SimpleServer/GameRoom.cpp:614-634 | the sub-steps land on the highest supporting top they pass, or pass none and move the full distance |
| Falling.LandsOnFirstMet | SimpleServer/GameRoom.cpp:603-635 | the same for a whole simulation step, with the state in which it ends |
| Falling.ThinTileMissed | SimpleServer/GameRoom.cpp:271-310 | with any cell height below 0.2, a step from a reachable state that misses a supporting top within its window |
| Falling.SweepsExactlyFrom | SimpleServer/GameRoom.cpp:603-635 | all steps from reachable states land as the sweep on maps of a cell height exactly if it is at least 0.2 |
| Falling.MeetsOrNot | SimpleServer/GameRoom.cpp:603-635 | one of the two outcomes always applies, and only one |
| Falling.StandingStep | SimpleServer/GameRoom.cpp:526-533 | with feet exactly on a supporting top, a step without a jump that stays on the row keeps the height |
| Falling.RestIsFixed | SimpleServer/GameRoom.cpp:212-217 | a player standing on a solid top stays exactly there through any number of idle steps |
| Containment.StepStays | SimpleServer/GameRoom.cpp:504-635 | one step off the ladders from inside a closed room, in a state as histories reach them, ends inside and in such a state, for every input |
| Containment.RoomContains | SimpleServer/GameRoom.cpp:504-635 | so does every run, with any client delta times, for cells at least 0.51 wide and either at least 1 high, as the default, or from 2.2 / 3 up to 0.9 |
| Containment.WalkBounded | SimpleServer/GameRoom.cpp:553-568 | the vertical speed stays between the terminal speed and the jump speed |
| Containment.RiseReach | SimpleServer/GameRoom.cpp:526-602 | no rise from inside the room reaches past the ceiling row, whether gravity is skipped or not |
| Containment.MoveClear | SimpleServer/GameRoom.cpp:592-602 | after any vertical move a player who still rises has no ceiling within the threshold above its head |
| CellSizes.RoomsExactly | SimpleServer/GameRoom.cpp:326-341 | closed rooms exist for a cell size unless a single row is out of range of the ceiling query |
| CellSizes.NarrowCellsLeak | SimpleServer/GameRoom.cpp:570-587 | with cells narrower than 0.51, a closed room and a history of a player whose next step leaves it through the wall |
| CellSizes.ThinCeilingLeaks | SimpleServer/GameRoom.cpp:322-339 | with rows no higher than the threshold, one whose rise is not seen by the ceiling query |
| CellSizes.LowestCellsLeak | SimpleServer/GameRoom.cpp:563-602 | with rows lower than 0.7057, one whose rise in the air passes the ceiling row |
| CellSizes.LowCellsLeak | SimpleServer/GameRoom.cpp:526-602 | with rows from there up to 2.2 / 3, one whose rise without gravity passes the ceiling row |
| CellSizes.PlatformLeaks | SimpleServer/GameRoom.cpp:603-635 | with rows from 0.9, exclusive, up to 1, one who is lifted through the ceiling by landing on floating ground |
| CellSizes.ConfinesExactlyFrom | SimpleServer/GameRoom.cpp:397-640 | no step off the ladders takes a player out of a closed room, from any state that any inputs and ladder reports lead to, exactly if the cells are at least 0.51 wide and either at least 1 high or from 2.2 / 3 up to 0.9, or there are no closed rooms of that size |
| CellSizes.ConfinedRuns | SimpleServer/GameRoom.cpp:504-635 | at such sizes every run off the ladders from such a state stays inside |
| Ladders.ReachableInRoom | SimpleServer/GameRoom.cpp:397-640 | in every reachable state off the ladders the speed is in range and a rising player has no ceiling within the threshold |
| Reach.AtRestAnywhere | SimpleServer/GameRoom.cpp:397-497 | by reporting a ladder and climbing off it a client brings its player to rest at any place of a map without ladders |
| Reach.RisingAnywhere | SimpleServer/GameRoom.cpp:397-451 | by reporting a ladder and jumping off it a client brings its player to rise at any place clear of a ceiling |
| Energy.EnergyNeverRises | SimpleServer/GameRoom.cpp:563-568 | a step in open air never increases height plus speed squared over twice the gravity, the clamp included |
| Energy.FlightEnergy | SimpleServer/GameRoom.cpp:563-602 | nor does any run of such steps with any delta times |
| Energy.TakeOffEnergy | SimpleServer/GameRoom.cpp:553-568 | a step that takes off ends with no more than the energy of the jump speed at the starting height |
| Energy.JumpHeight | SimpleServer/GameRoom.cpp:553-616 | from take-off through any flight the height gained is at most the jump speed squared over twice the gravity |
| Energy.EnergyRisesExactlyNearGround | SimpleServer/GameRoom.cpp:526-568 | a free rising step gains energy if and only if it starts within the threshold of ground |
| Energy.HighestOverFlatFloor | SimpleServer/GameRoom.cpp:504-635 | over a flat floor no run off the ladders, with any inputs and delta times, gets higher than standing plus the threshold, one rise without gravity and the height of a jump |
| Energy.HighestIsApproached | SimpleServer/GameRoom.cpp:526-602 | and from standing on such a floor some run comes as close to that height as one likes |
| Energy.FirstStep | SimpleServer/GameRoom.cpp:271-279 | without a map the first step takes a new player to the ground at height zero |
| Energy.JumpsHappen | SimpleServer/GameRoom.cpp:526-602 | from there a jump takes off into open air, and a step after a short jump gains energy |
| Ladders.ExtentIsMaximalRun | SimpleServer/GameRoom.cpp:380-395 | from a ladder cell the scans find two ends if and only if these bound the maximal run containing the cell; so every cell of a run gives the same extent |
| Ladders.SimulateKeeps | SimpleServer/GameRoom.cpp:433-640 | a step keeps the state invariant, ends on the ladder only at its centre and within its extent, and never gets on one by itself |
| Ladders.BoardKeeps | SimpleServer/GameRoom.cpp:397-431 | so does a client's ladder report, and the extent it stores is not empty |
| Ladders.ReachableStates | SimpleServer/GameRoom.cpp:397-640 | in every reachable state: speed and drop timer in range, ladder bottom not above its top, and on a ladder neither grounded nor jumping and no faster than climbing |
| Ladders.ClimbUpExact | SimpleServer/GameRoom.cpp:454-499 | holding up, the player is still on the ladder, at the height climbed, if and only if that is below the top |
| Ladders.ClimbUpLeaves | SimpleServer/GameRoom.cpp:488-497 | so it leaves within the remaining height over climbing speed times the shortest step, rounded up |
| Ladders.ClimbDownExact | SimpleServer/GameRoom.cpp:454-499 | holding down, the player is still on the ladder, at the height descended to or its bottom, exactly if no step on the way ended on solid ground |
| Ladders.ClimbDownLeaves | SimpleServer/GameRoom.cpp:469-486 | above a solid row that the ladder reaches and the descent cannot pass between steps, it leaves within the height over climbing speed times the shortest step, rounded up |
| Ladders.LongStepPasses | SimpleServer/GameRoom.cpp:463-476 | a step longer than the two thresholds about the top can pass a solid row, from a ladder that a client reports |
| Ladders.AcknowledgedExactly | SimpleServer/GameRoom.cpp:490-499 | a step records its input number if and only if that is not zero and the step does not end in the ladder part |
| Ladders.LadderInputUnacknowledged | SimpleServer/GameRoom.cpp:490-499 | on every map a player who boards a ladder has its next input not acknowledged |
| Inputs.InputsConserved | SimpleServer/Player.cpp:8-32 | under every interleaving each input is simulated, dropped or buffered, once; the buffered are the latest; the loop never takes from an empty buffer |
| Inputs.PickIsSubsequence | SimpleServer/Player.cpp:8-26 | what is simulated, and what is dropped, is a subsequence of what was enqueued, in order |
| Inputs.NothingDropped | SimpleServer/GameRoom.cpp:204-211 | if any k consecutive tick intervals bring at most 8k + 24 inputs, none is ever dropped, under every interleaving |
| Inputs.SmoothExactly | SimpleServer/GameRoom.cpp:204-211 | arrivals keep to that bound if and only if no interleaving with these arrivals drops an input |
| Inputs.MarkerNeverGoesBack | SimpleServer/GameRoom.cpp:637-639 | with increasing numbers the acknowledged one never goes back between any two points of a run and is never ahead of the last input taken |
| Inputs.TickExactly | SimpleServer/GameRoom.cpp:204-217 | a tick takes the oldest eight inputs in fiftieths of a second, or three steps that press nothing |
| Inputs.QuietTickFalls | SimpleServer/GameRoom.cpp:212-217 | in open air a tick without inputs is six hundredths of a second of falling |
| Inputs.TickAlone | SimpleServer/GameRoom.cpp:204-217 | a tick that no arrival interrupts is a run of the interleaved system: up to eight inputs in order, or three idle steps |
| GameRooms.Player.EnqueueInput | SimpleServer/Player.cpp:8-15 | a full buffer drops its oldest input |
| GameRooms.Player.DequeueInput | SimpleServer/Player.cpp:17-26 | takes the oldest input, or an idle one from an empty buffer |
| GameRooms.Player.Tick | SimpleServer/GameRoom.cpp:204-217 | the loop of up to eight steps, or three idle ones, has the effect proved of an uninterrupted tick |
| GameRooms.GameRoom.TickAll | SimpleServer/GameRoom.cpp:196-255 | every entered player in the room is ticked once, in whatever order, and nobody else's state changes; the tick counter wraps at 32 bits |
| GameRooms.GameRoom.PostTask | SimpleServer/GameRoom.cpp:24-28 | adds the task at the end of the queue |
| GameRooms.GameRoom.DrainTasks | SimpleServer/GameRoom.cpp:30-42 | swaps the queue out and runs all of it in order: membership, messages and physics states end as running the tasks one after another gives |
| GameRooms.ReportsInOrder | SimpleServer/GameRoom.cpp:37-41 | ladder reports count in the order of the tasks |
| GameRooms.GameRoom.Enter | SimpleServer/GameRoom.cpp:46-49 | the player is in the room; nothing is sent |
| GameRooms.GameRoom.Leave | SimpleServer/GameRoom.cpp:51-61 | everyone in the room is told, then the player is out; unknown players change nothing |
| GameRooms.GameRoom.EnterGame | SimpleServer/GameRoom.cpp:75-108 | a valid first entry answers the newcomer, lists the others unless there are none, and announces it to them; any other is ignored |
| GameRooms.GameRoom.SendAll | SimpleServer/GameRoom.cpp:145-159 | the message reaches exactly the given players that have a session |
| GameRooms.GameRoom.LoadMap | SimpleServer/GameRoom.cpp:17-20 | loads the tiles as the map does |
| GameRooms.GameRoom.OnConnected | SimpleServer/ServerMain.cpp:103-118 | is the connecting step of the room system |
| GameRooms.GameRoom.OnDisconnected | SimpleServer/ServerMain.cpp:120-137 | is the losing of the session followed by the posting of the leaving |
| GameRooms.GameRoom.OnEnterGame | SimpleServer/ServerPacketHandler.cpp:30-48 | is the posting of a request to enter, whether or not the player's leaving is posted |
| Rooms.EntryExactly | SimpleServer/GameRoom.cpp:75-108 | a first entry with a name of one to twenty characters: what the newcomer, each other member and everyone else is told; any other entry changes nothing |
| Rooms.LeaveExactly | SimpleServer/GameRoom.cpp:46-61 | a leaving tells everyone in the room with a session; an entry to the room tells nobody |
| Rooms.EntryKeepsSoundExactly | SimpleServer/GameRoom.cpp:75-108 | an entry keeps every client's view within the room if and only if the player is in the room, or is refused, or nobody else connected is there |
| Rooms.EntryKeepsComplete | SimpleServer/GameRoom.cpp:75-108 | an entry keeps every entered client showing all other entered players in the room |
| Rooms.LeaveKeepsComplete | SimpleServer/GameRoom.cpp:51-61 | so does a leaving |
| Rooms.LeaveKeepsSound | SimpleServer/GameRoom.cpp:51-61 | a leaving keeps every view within the room |
| Rooms.LateEntryShowsAbsentPlayer | SimpleServer/GameRoom.cpp:75-108 | an entry that runs after the leaving makes the others show a player that is not in the room |
| Rooms.StepKeepsInv | SimpleServer/GameRoom.cpp:24-108 | each step of any thread keeps the order of pending tasks and completeness of the views |
| Rooms.StepSoundExactly | SimpleServer/GameRoom.cpp:24-108 | a step keeps every view within the room exactly if it does not announce an absent player to somebody |
| Rooms.ViewsAgree | SimpleServer/GameRoom.cpp:24-108 | in every run: each client that has entered shows every other player in the room that has, tasks run in the order posted, each once, and clients show only players in the room, throughout, exactly if no entry of an absent player is announced |
| Rooms.PromptViewsAgree | SimpleServer/GameRoom.cpp:24-108 | they do so throughout every run in which no request to enter is posted after its player's leaving |
| Rooms.OneLeavingReached | SimpleServer/ServerPacketHandler.cpp:30-48 | a run that posts a request to enter after its player's leaving |
| Rooms.LateEntryRuns | SimpleServer/GameRoom.cpp:30-108 | running what it posted leaves a view with an absent player |
| Rooms.DrainAlone | SimpleServer/GameRoom.cpp:30-42 | swapping the queue out and running all of it is a run of the interleaved system |

## Left out

- Floating-point rounding: lengths and times are exact reals.
- Cell coordinates outside 32 bits: rows and columns are unbounded, and a map whose coordinates overflow is not modelled.
- Input numbers: natural numbers, so their wrap at 32 bits is not modelled.
- Sockets, completion ports, threads and handles: posting an I/O succeeds or fails and its completion arrives, as the environment chooses; a completed send has sent its whole buffer.
- Memory-level data races: steps are atomic.
- A close by another thread while the receive loop uses the stream: the interleaved system has it, but the bytes in the stream are then not tracked.
- Starting and stopping the service, accepting and connecting, and the broadcast to all sessions: operating-system calls and loops over a snapshot.
- Protobuf encoding: a payload is the bytes that a message serializes to.
- Logging, pings, wall-clock scheduling of the loop.
- Chat and attacks: they are sent on, and change no state or view.
- Handlers for resurrection, items and zones: not implemented in the program.
- The test client.
- SessionSystem.SessionLifetime: callers outside the workers hold no reference, so they are taken to run only on a session that is not yet deleted; the program does not ensure this.
- Sessions.Session.OnRecvComplete: the packet handler is a function of the packets it was given, so what it sends and a close by another thread in between are not part of this method; the interleaved system includes both.
- TileMap.Map.Load: a document is missing, malformed, without layers, or a list of layers; an exception for a field of the wrong type inside a layer, which leaves the sets partly filled, is not modelled.
- GameRooms.GameRoom.DrainTasks: for positive cell sizes only, as all of the physics; loading may read others.
- GameRooms.GameRoom.TickAll: the state and movement messages of each tick change no state or view and are not modelled.
- CellSizes.ConfinesExactlyFrom: for cells of at least 1e-9 by 1e-9, of which rooms that fit a player stay within the range of cell coordinates.
- Rooms.ViewsAgree: every session accepts what it is sent while it is set.
