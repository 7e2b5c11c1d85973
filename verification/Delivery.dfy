/** From one session's EnqueueSend to the other session's packet handler. The connection between them is a byte
    stream: what arrives is some beginning of the buffers posted, cut anywhere. */
module Delivery {
  import opened Packets
  import opened Receive
  import opened SessionSystem

  /** A buffer as MakePacketFromProto makes it: one whole acceptable frame, or nothing. */
  predicate WireBuffer(b: Buffer) {
    b == [] || (Decode(b).Got? && Decode(b).consumed == |b|)
  }

  lemma ProtoIsWireBuffer(opcode: uint16, serialized: seq<byte>, serializes: bool)
    requires IsValidOpcode(opcode)
    ensures var b := MakePacketFromProto(opcode, serialized, serializes);
            WireBuffer(b) && (b != [] ==> Decode(b).packet == PacketOf(opcode, serialized))
  {
  }

  predicate WireBuffers(bs: seq<Buffer>) {
    forall i :: 0 <= i < |bs| ==> WireBuffer(bs[i]) && bs[i] != []
  }

  function PacketsIn(bs: seq<Buffer>): (ps: seq<Packet>)
    requires WireBuffers(bs)
    ensures |ps| == |bs|
    ensures forall i :: 0 <= i < |bs| ==> ps[i] == Decode(bs[i]).packet
  {
    seq(|bs|, i requires 0 <= i < |bs| => Decode(bs[i]).packet)
  }

  lemma {:induction false} FlattenIsFrames(bs: seq<Buffer>)
    requires WireBuffers(bs)
    ensures AllSendable(PacketsIn(bs)) && Flatten(bs) == Frames(PacketsIn(bs))
  {
    if bs != [] {
      DecodeSound(bs[0]);
      FlattenIsFrames(bs[1..]);
      assert PacketsIn(bs)[0] == Decode(bs[0]).packet;
      assert PacketsIn(bs)[1..] == PacketsIn(bs[1..]);
      assert bs[0] == FrameOf(Decode(bs[0]).packet);
    }
  }

  // ---- Whatever was accepted came from a call ----

  /** Every buffer that callers and packet handlers enqueue during the run satisfies WireBuffer. */
  predicate SendsWire(step: Step) {
    match step
    case CallEnqueue(b) => WireBuffer(b)
    case Advance(_, c) => c.next.Handle? ==> forall i :: 0 <= i < |c.next.sends| ==> WireBuffer(c.next.sends[i])
    case _ => true
  }

  predicate AllSendWire(steps: seq<Step>) {
    forall i :: 0 <= i < |steps| ==> SendsWire(steps[i])
  }

  predicate CleanOp(op: Op) {
    (op.EnqueueCheck? ==> WireBuffer(op.buffer)) && (op.EnqueueLocked? ==> WireBuffer(op.buffer) && op.buffer != [])
  }

  predicate CleanOps(ops: seq<Op>) {
    forall i :: 0 <= i < |ops| ==> CleanOp(ops[i])
  }

  predicate CleanActivities(acts: seq<Activity>) {
    forall i :: 0 <= i < |acts| ==> CleanOps(acts[i].ops)
  }

  predicate Clean(s: System) {
    WireBuffers(s.sh.accepted) && CleanActivities(s.acts)
  }

  lemma PerformClean(sh: Shared, op: Op, c: Choice)
    requires CleanOp(op) && WireBuffers(sh.accepted)
    requires c.next.Handle? ==> forall i :: 0 <= i < |c.next.sends| ==> WireBuffer(c.next.sends[i])
    ensures CleanOps(Perform(sh, op, c).1) && WireBuffers(Perform(sh, op, c).0.accepted)
  {
  }

  lemma CleanUpdate(acts: seq<Activity>, i: nat, a: Activity)
    requires i < |acts| && CleanActivities(acts) && CleanOps(a.ops)
    ensures CleanActivities(acts[i := a])
  {
  }

  lemma CleanSpawn(s: System, sh: Shared, worker: bool, ops: seq<Op>)
    requires Clean(s) && CleanOps(ops) && sh.accepted == s.sh.accepted
    ensures Clean(Spawn(s, sh, worker, ops))
  {
    var acts := Spawn(s, sh, worker, ops).acts;
    forall i | 0 <= i < |acts| ensures CleanOps(acts[i].ops) {
      if i < |s.acts| {
        assert acts[i] == s.acts[i];
      }
    }
  }

  lemma StepClean(s: System, step: Step)
    requires Clean(s) && Enabled(s, step) && SendsWire(step)
    ensures Clean(Take(s, step))
  {
    match step
    case Advance(i, c) =>
      var a := s.acts[i];
      var first := Perform(s.sh, a.ops[0], c).1;
      assert CleanOp(a.ops[0]);
      PerformClean(s.sh, a.ops[0], c);
      assert CleanOps(first + a.ops[1..]);
      CleanUpdate(s.acts, i, a.(ops := first + a.ops[1..]));
    case RecvCompleted(ok) =>
      CleanSpawn(s, s.sh.(recvInFlight := s.sh.recvInFlight - 1), true, [if ok then RecvCheck else CloseFlag, Release]);
    case SendCompleted(ok) =>
      CleanSpawn(s, s.sh.(sendInFlight := s.sh.sendInFlight - 1), true,
                 [if ok then SendComplete else CloseFlag, Release]);
    case CallEnqueue(b) =>
      CleanSpawn(s, s.sh, false, [EnqueueCheck(b)]);
    case CallClose =>
      CleanSpawn(s, s.sh, false, [CloseFlag]);
  }

  lemma {:induction false} RunClean(s: System, steps: seq<Step>)
    requires Clean(s) && ValidRun(s, steps) && AllSendWire(steps)
    ensures Clean(Run(s, steps))
    decreases |steps|
  {
    if steps != [] {
      assert SendsWire(steps[0]);
      StepClean(s, steps[0]);
      RunClean(Take(s, steps[0]), steps[1..]);
    }
  }

  lemma PostedIsWire(steps: seq<Step>)
    requires ValidRun(INIT, steps) && AllSendWire(steps)
    ensures var sh := Run(INIT, steps).sh;
            && WireBuffers(sh.accepted) && WireBuffers(sh.posted)
            && PacketsIn(sh.posted) <= PacketsIn(sh.accepted)
  {
    assert Clean(INIT);
    RunClean(INIT, steps);
    ReachableInv(steps);
  }

  /** Whatever the threads of the sender do, and however the bytes that arrive are cut, the receiver's handler is
      given a beginning of the packets that the sender's EnqueueSend accepted, in order and unaltered. Only the
      handler itself can make the receiver close; if it never does and all that was posted has arrived, it has been
      given exactly the packets posted. */
  lemma SenderToReceiver(steps: seq<Step>, h: Handler, chunks: seq<seq<byte>>)
    requires ValidRun(INIT, steps) && AllSendWire(steps)
    requires Flatten(chunks) <= Flatten(Run(INIT, steps).sh.posted)
    ensures var sh := Run(INIT, steps).sh;
            var st := OnReceives(h, START, chunks);
            && WireBuffers(sh.accepted) && WireBuffers(sh.posted)
            && st.delivered <= PacketsIn(sh.posted) <= PacketsIn(sh.accepted)
            && (st.Closed? ==> st.reason in {HandlerRejected, HandlerClosed})
            && (st.Open? && Flatten(chunks) == Flatten(sh.posted) ==> st.delivered == PacketsIn(sh.posted))
  {
    var posted := Run(INIT, steps).sh.posted;
    PostedIsWire(steps);
    FlattenIsFrames(posted);
    ChunkingInvariance(h, chunks, chunks);
    PrefixDelivery(h, PacketsIn(posted), Flatten(chunks), []);
    assert [] + PacketsIn(posted) == PacketsIn(posted);
  }
}
