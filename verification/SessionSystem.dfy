/** A session shared by threads, as a transition system over atomic steps.

    Each call into the session is an activity: the list of atomic operations it still has to perform. A critical
    section under the send lock, an atomic flag or counter operation, and the posting of one I/O request are each
    one operation, and any activity may take its next operation at any time. An I/O post may fail, and a posted
    I/O may complete with success or with failure.

    An activity started by an I/O completion belongs to a worker, which finishes by dropping the reference that
    the I/O held. Any other activity (a caller of EnqueueSend or Close, and the one that starts the session) holds
    no reference and is taken to run only while the session is alive. */
module SessionSystem {
  import opened Options
  import Packets

  type Buffer = seq<Packets.byte>

  const MAX_SEND_QUEUE_SIZE: nat := 64

  // ---- The critical sections under the send lock ----

  datatype SendState = SendState(queue: seq<Buffer>, sending: bool)

  /** `posted` is the buffer handed to the socket, if one was. */
  datatype SendResult = SendResult(state: SendState, posted: Option<Buffer>, needClose: bool)

  function PostFront(st: SendState, closing: bool, wsaOk: bool): SendResult {
    if st.queue == [] || closing then SendResult(st.(sending := false), None, false)
    else if wsaOk then SendResult(st, Some(st.queue[0]), false)
    else SendResult(st.(sending := false), None, true)
  }

  function Enqueue(st: SendState, closing: bool, buffer: Buffer, wsaOk: bool): SendResult {
    if |st.queue| >= MAX_SEND_QUEUE_SIZE then SendResult(st, None, true)
    else
      var pushed := st.(queue := st.queue + [buffer]);
      if pushed.sending then SendResult(pushed, None, false)
      else PostFront(pushed.(sending := true), closing, wsaOk)
  }

  function SendDone(st: SendState, closing: bool, wsaOk: bool): SendResult {
    var popped := if st.queue == [] then st else st.(queue := st.queue[1..]);
    if popped.queue == [] || closing then SendResult(popped.(sending := false), None, false)
    else PostFront(popped, closing, wsaOk)
  }

  // ---- Shared state and atomic operations ----

  /** `offered`, `accepted`, `posted`, `popped`, `deletes`, `notified` and `cleared` record what has happened: `offered`
      are the buffers that reached the critical section of EnqueueSend. */
  datatype Shared = Shared(
    closing: bool,
    send: SendState,
    refCount: int,
    recvInFlight: nat,
    sendInFlight: nat,
    registered: bool,
    offered: seq<Buffer>,
    accepted: seq<Buffer>,
    posted: seq<Buffer>,
    popped: nat,
    cleared: nat,
    notified: nat,
    deletes: nat
  )

  datatype Op =
    | CloseFlag
    | CloseQueue
    | CloseNotify
    | Release
    | EnqueueCheck(buffer: Buffer)
    | EnqueueLocked(buffer: Buffer)
    | SendComplete
    | RecvCheck
    | RecvDrain
    | RecvHandled(accepted: bool)
    | PostCheck
    | PostAddRef
    | PostRecv

  /** What the receive loop finds next: too few bytes, a malformed packet, or a packet whose handler enqueues
      some buffers and accepts or refuses it. */
  datatype Next = NeedMore | Malformed | Handle(sends: seq<Buffer>, accept: bool)

  /** The outcomes that the environment decides. */
  datatype Choice = Choice(wsaOk: bool, next: Next)

  function EnqueueChecks(sends: seq<Buffer>): (ops: seq<Op>)
    ensures |ops| == |sends|
    ensures forall i :: 0 <= i < |ops| ==> ops[i] == EnqueueCheck(sends[i])
  {
    seq(|sends|, i requires 0 <= i < |sends| => EnqueueCheck(sends[i]))
  }

  /** The effect of a critical section: a posted buffer takes a reference. */
  function AfterSend(sh: Shared, r: SendResult): Shared {
    match r.posted
    case None => sh.(send := r.state)
    case Some(b) => sh.(
      send := r.state,
      refCount := sh.refCount + 1,
      sendInFlight := sh.sendInFlight + 1,
      posted := sh.posted + [b])
  }

  function CloseIf(needClose: bool): seq<Op> {
    if needClose then [CloseFlag] else []
  }

  /** One atomic operation: the new shared state and the operations to perform in its place. */
  function Perform(sh: Shared, op: Op, c: Choice): (Shared, seq<Op>) {
    match op
    case CloseFlag =>
      if sh.closing then (sh, []) else (sh.(closing := true), [CloseQueue, CloseNotify, Release])
    case CloseQueue =>
      (sh.(send := SendState([], false), cleared := sh.cleared + 1), [])
    case CloseNotify =>
      (sh.(registered := false, notified := sh.notified + 1), [])
    case Release =>
      (sh.(refCount := sh.refCount - 1, deletes := if sh.refCount == 1 then sh.deletes + 1 else sh.deletes), [])
    case EnqueueCheck(b) =>
      if b == [] || sh.closing then (sh, []) else (sh, [EnqueueLocked(b)])
    case EnqueueLocked(b) =>
      var r := Enqueue(sh.send, sh.closing, b, c.wsaOk);
      var full := |sh.send.queue| >= MAX_SEND_QUEUE_SIZE;
      (AfterSend(sh, r).(offered := sh.offered + [b], accepted := if full then sh.accepted else sh.accepted + [b]),
       CloseIf(r.needClose))
    case SendComplete =>
      var r := SendDone(sh.send, sh.closing, c.wsaOk);
      (AfterSend(sh, r).(popped := if sh.send.queue == [] then sh.popped else sh.popped + 1), CloseIf(r.needClose))
    case RecvCheck =>
      if sh.closing then (sh, []) else (sh, [RecvDrain])
    case RecvDrain =>
      (match c.next
       case NeedMore => (sh, [PostCheck])
       case Malformed => (sh, [CloseFlag])
       case Handle(sends, accept) => (sh, EnqueueChecks(sends) + [RecvHandled(accept)]))
    case RecvHandled(accepted) =>
      if !accepted then (sh, [CloseFlag]) else if sh.closing then (sh, []) else (sh, [RecvDrain])
    case PostCheck =>
      if sh.closing then (sh, []) else (sh, [PostAddRef])
    case PostAddRef =>
      (sh.(refCount := sh.refCount + 1), [PostRecv])
    case PostRecv =>
      if c.wsaOk then (sh.(recvInFlight := sh.recvInFlight + 1), []) else (sh, [Release, CloseFlag])
  }

  // ---- A call that no other activity interrupts ----

  function Alone(sh: Shared, ops: seq<Op>, c: Choice, n: nat): (Shared, seq<Op>)
    decreases n
  {
    if n == 0 || ops == [] then (sh, ops)
    else
      var (sh', first) := Perform(sh, ops[0], c);
      Alone(sh', first + ops[1..], c, n - 1)
  }

  function Released(sh: Shared): Shared {
    sh.(refCount := sh.refCount - 1, deletes := if sh.refCount == 1 then sh.deletes + 1 else sh.deletes)
  }

  function Closed(sh: Shared): Shared {
    if sh.closing then sh
    else Released(sh.(
      closing := true, send := SendState([], false), cleared := sh.cleared + 1,
      registered := false, notified := sh.notified + 1))
  }

  function SendEnqueued(sh: Shared, b: Buffer, wsaOk: bool): Shared {
    if b == [] || sh.closing then sh
    else
      var (sh', next) := Perform(sh, EnqueueLocked(b), Choice(wsaOk, NeedMore));
      if next == [] then sh' else Closed(sh')
  }

  function SendFinished(sh: Shared, wsaOk: bool): Shared {
    var (sh', next) := Perform(sh, SendComplete, Choice(wsaOk, NeedMore));
    if next == [] then sh' else Closed(sh')
  }

  function RecvPosted(sh: Shared, wsaOk: bool): Shared {
    if sh.closing then sh
    else
      var sh' := sh.(refCount := sh.refCount + 1);
      if wsaOk then sh'.(recvInFlight := sh'.recvInFlight + 1) else Closed(Released(sh'))
  }

  lemma AloneStep(sh: Shared, op: Op, rest: seq<Op>, c: Choice, n: nat)
    ensures Alone(sh, [op] + rest, c, n + 1) ==
            Alone(Perform(sh, op, c).0, Perform(sh, op, c).1 + rest, c, n)
  {
    assert ([op] + rest)[1..] == rest;
  }

  lemma AloneDone(sh: Shared, c: Choice, n: nat)
    ensures Alone(sh, [], c, n) == (sh, [])
  {
  }

  lemma OneStep(sh: Shared, op: Op, c: Choice, n: nat)
    ensures Alone(sh, [op], c, n + 1) == Alone(Perform(sh, op, c).0, Perform(sh, op, c).1, c, n)
    ensures n == 0 ==> Alone(sh, [op], c, 1) == Perform(sh, op, c)
  {
    hide Perform;
    assert [op] == [op] + [];
    AloneStep(sh, op, [], c, n);
    assert Perform(sh, op, c).1 + [] == Perform(sh, op, c).1;
  }

  lemma CloseAlone(sh: Shared, c: Choice, n: nat)
    requires n >= 4
    ensures Alone(sh, [CloseFlag], c, n) == (Closed(sh), [])
  {
    assert [CloseFlag] == [CloseFlag] + [];
    AloneStep(sh, CloseFlag, [], c, n - 1);
    if !sh.closing {
      var sh1 := Perform(sh, CloseFlag, c).0;
      assert [CloseQueue, CloseNotify, Release] + [] == [CloseQueue] + [CloseNotify, Release];
      AloneStep(sh1, CloseQueue, [CloseNotify, Release], c, n - 2);
      var sh2 := Perform(sh1, CloseQueue, c).0;
      assert [] + [CloseNotify, Release] == [CloseNotify] + [Release];
      AloneStep(sh2, CloseNotify, [Release], c, n - 3);
      assert [] + [Release] == [Release] + [];
      AloneStep(Perform(sh2, CloseNotify, c).0, Release, [], c, n - 4);
    }
  }

  lemma EnqueueAlone(sh: Shared, b: Buffer, c: Choice)
    requires c.next == NeedMore
    ensures Alone(sh, [EnqueueCheck(b)], c, 6) == (SendEnqueued(sh, b, c.wsaOk), [])
  {
    assert [EnqueueCheck(b)] == [EnqueueCheck(b)] + [];
    AloneStep(sh, EnqueueCheck(b), [], c, 5);
    if b != [] && !sh.closing {
      assert [EnqueueLocked(b)] + [] == [EnqueueLocked(b)];
      AloneStep(sh, EnqueueLocked(b), [], c, 4);
      var (sh1, next) := Perform(sh, EnqueueLocked(b), c);
      assert next + [] == next;
      CloseAlone(sh1, c, 4);
    }
  }

  lemma SendCompleteAlone(sh: Shared, c: Choice)
    requires c.next == NeedMore
    ensures Alone(sh, [SendComplete], c, 5) == (SendFinished(sh, c.wsaOk), [])
  {
    assert [SendComplete] == [SendComplete] + [];
    AloneStep(sh, SendComplete, [], c, 4);
    var (sh1, next) := Perform(sh, SendComplete, c);
    assert next + [] == next;
    CloseAlone(sh1, c, 4);
  }

  lemma PostFailedAlone(sh: Shared, c: Choice)
    requires !c.wsaOk
    ensures Alone(sh, [PostRecv], c, 6) == (Closed(Released(sh)), [])
  {
    assert [PostRecv] == [PostRecv] + [];
    AloneStep(sh, PostRecv, [], c, 5);
    assert [Release, CloseFlag] + [] == [Release] + [CloseFlag];
    AloneStep(sh, Release, [CloseFlag], c, 4);
    assert [] + [CloseFlag] == [CloseFlag];
    CloseAlone(Released(sh), c, 4);
  }

  lemma PostedAlone(sh: Shared, c: Choice)
    requires c.wsaOk
    ensures Alone(sh, [PostRecv], c, 6) == (sh.(recvInFlight := sh.recvInFlight + 1), [])
  {
    assert [PostRecv] == [PostRecv] + [];
    AloneStep(sh, PostRecv, [], c, 5);
  }

  lemma PostAlone(sh: Shared, c: Choice)
    requires c.next == NeedMore
    ensures Alone(sh, [PostCheck], c, 8) == (RecvPosted(sh, c.wsaOk), [])
  {
    hide Closed, Alone;
    OneStep(sh, PostCheck, c, 7);
    if sh.closing {
      AloneDone(sh, c, 7);
    } else {
      OneStep(sh, PostAddRef, c, 6);
      var sh1 := sh.(refCount := sh.refCount + 1);
      if c.wsaOk {
        PostedAlone(sh1, c);
      } else {
        PostFailedAlone(sh1, c);
      }
    }
  }

  /** Run on its own, a call of EnqueueSend, a send completion and the posting of a receive each have these
      effects and leave nothing to do. */
  lemma CallsAlone(sh: Shared, b: Buffer, wsaOk: bool)
    ensures Alone(sh, [EnqueueCheck(b)], Choice(wsaOk, NeedMore), 6) == (SendEnqueued(sh, b, wsaOk), [])
    ensures Alone(sh, [SendComplete], Choice(wsaOk, NeedMore), 5) == (SendFinished(sh, wsaOk), [])
    ensures Alone(sh, [PostCheck], Choice(wsaOk, NeedMore), 8) == (RecvPosted(sh, wsaOk), [])
  {
    var c := Choice(wsaOk, NeedMore);
    EnqueueAlone(sh, b, c);
    SendCompleteAlone(sh, c);
    PostAlone(sh, c);
  }

  // ---- Interleavings ----

  datatype Activity = Activity(worker: bool, ops: seq<Op>)

  datatype System = System(sh: Shared, acts: seq<Activity>)

  datatype Step =
    | Advance(i: nat, choice: Choice)
    | RecvCompleted(ok: bool)
    | SendCompleted(ok: bool)
    | CallEnqueue(buffer: Buffer)
    | CallClose

  /** A new session: registered, one reference, and its starter about to post the first receive. */
  const INIT: System :=
    System(Shared(false, SendState([], false), 1, 0, 0, true, [], [], [], 0, 0, 0, 0), [Activity(false, [PostCheck])])

  predicate Enabled(s: System, step: Step) {
    match step
    case Advance(i, _) =>
      i < |s.acts| && s.acts[i].ops != [] && (s.acts[i].worker || s.sh.deletes == 0)
    case RecvCompleted(_) => s.sh.recvInFlight > 0
    case SendCompleted(_) => s.sh.sendInFlight > 0
    case CallEnqueue(_) => s.sh.deletes == 0
    case CallClose => s.sh.deletes == 0
  }

  function Spawn(s: System, sh: Shared, worker: bool, ops: seq<Op>): System {
    System(sh, s.acts + [Activity(worker, ops)])
  }

  function Take(s: System, step: Step): System
    requires Enabled(s, step)
  {
    match step
    case Advance(i, c) =>
      var (sh, ops) := Perform(s.sh, s.acts[i].ops[0], c);
      System(sh, s.acts[i := s.acts[i].(ops := ops + s.acts[i].ops[1..])])
    case RecvCompleted(ok) =>
      Spawn(s, s.sh.(recvInFlight := s.sh.recvInFlight - 1), true, [if ok then RecvCheck else CloseFlag, Release])
    case SendCompleted(ok) =>
      Spawn(s, s.sh.(sendInFlight := s.sh.sendInFlight - 1), true, [if ok then SendComplete else CloseFlag, Release])
    case CallEnqueue(b) => Spawn(s, s.sh, false, [EnqueueCheck(b)])
    case CallClose => Spawn(s, s.sh, false, [CloseFlag])
  }

  predicate ValidRun(s: System, steps: seq<Step>)
    decreases |steps|
  {
    steps == [] || (Enabled(s, steps[0]) && ValidRun(Take(s, steps[0]), steps[1..]))
  }

  function Run(s: System, steps: seq<Step>): System
    requires ValidRun(s, steps)
    decreases |steps|
  {
    if steps == [] then s else Run(Take(s, steps[0]), steps[1..])
  }

  // ---- Counting what activities still owe ----

  /** References an operation will give up: an explicit release, or a receive about to be posted. */
  function RefDue(op: Op): nat { if op.Release? || op.PostRecv? then 1 else 0 }

  function NotifyDue(op: Op): nat { if op.CloseNotify? then 1 else 0 }

  function ClearDue(op: Op): nat { if op.CloseQueue? then 1 else 0 }

  function SendToken(op: Op): nat { if op.SendComplete? then 1 else 0 }

  function CloseDue(op: Op): nat { if op.CloseFlag? then 1 else 0 }

  /** Operations on the one chain of receives. */
  function RecvToken(op: Op): nat {
    match op
    case RecvCheck => 1
    case RecvDrain => 1
    case RecvHandled(_) => 1
    case PostCheck => 1
    case PostAddRef => 1
    case PostRecv => 1
    case _ => 0
  }

  function Count(due: Op -> nat, ops: seq<Op>): nat {
    if ops == [] then 0 else due(ops[0]) + Count(due, ops[1..])
  }

  function Total(due: Op -> nat, acts: seq<Activity>): nat {
    if acts == [] then 0 else Count(due, acts[0].ops) + Total(due, acts[1..])
  }

  lemma {:induction false} CountConcat(due: Op -> nat, a: seq<Op>, b: seq<Op>)
    ensures Count(due, a + b) == Count(due, a) + Count(due, b)
  {
    if a == [] {
      assert a + b == b;
    } else {
      CountConcat(due, a[1..], b);
      assert (a + b)[1..] == a[1..] + b;
    }
  }

  lemma {:induction false} CountZero(due: Op -> nat, ops: seq<Op>)
    requires forall i :: 0 <= i < |ops| ==> due(ops[i]) == 0
    ensures Count(due, ops) == 0
  {
    if ops != [] {
      CountZero(due, ops[1..]);
    }
  }

  lemma {:induction false} TotalUpdate(due: Op -> nat, acts: seq<Activity>, i: nat, a: Activity)
    requires i < |acts|
    ensures Total(due, acts[i := a]) == Total(due, acts) - Count(due, acts[i].ops) + Count(due, a.ops)
    ensures Total(due, acts) >= Count(due, acts[i].ops)
  {
    if i == 0 {
      assert acts[i := a][1..] == acts[1..];
    } else {
      TotalUpdate(due, acts[1..], i - 1, a);
      assert acts[i := a][1..] == acts[1..][i - 1 := a];
    }
  }

  lemma {:induction false} TotalSpawn(due: Op -> nat, acts: seq<Activity>, a: Activity)
    ensures Total(due, acts + [a]) == Total(due, acts) + Count(due, a.ops)
  {
    if acts == [] {
      assert acts + [a] == [a];
      assert Total(due, [a][1..]) == 0;
    } else {
      TotalSpawn(due, acts[1..], a);
      assert (acts + [a])[1..] == acts[1..] + [a];
    }
  }

  lemma Count1(due: Op -> nat, a: Op)
    ensures Count(due, [a]) == due(a)
  {
  }

  lemma Count2(due: Op -> nat, a: Op, b: Op)
    ensures Count(due, [a, b]) == due(a) + due(b)
  {
    assert [a, b][1..] == [b];
    Count1(due, b);
  }

  lemma Count3(due: Op -> nat, a: Op, b: Op, c: Op)
    ensures Count(due, [a, b, c]) == due(a) + due(b) + due(c)
  {
    assert [a, b, c][1..] == [b, c];
    Count2(due, b, c);
  }

  /** What the operations that replace `op` count for. */
  function Replacement(due: Op -> nat, sh: Shared, op: Op, c: Choice): nat {
    match op
    case CloseFlag => if sh.closing then 0 else due(CloseQueue) + due(CloseNotify) + due(Release)
    case RecvDrain =>
      if c.next.NeedMore? then due(PostCheck)
      else if c.next.Malformed? then due(CloseFlag)
      else due(RecvHandled(c.next.accept))
    case PostRecv => if c.wsaOk then 0 else due(Release) + due(CloseFlag)
    case EnqueueCheck(b) => if b == [] || sh.closing then 0 else due(EnqueueLocked(b))
    case EnqueueLocked(b) => if Enqueue(sh.send, sh.closing, b, c.wsaOk).needClose then due(CloseFlag) else 0
    case SendComplete => if SendDone(sh.send, sh.closing, c.wsaOk).needClose then due(CloseFlag) else 0
    case RecvCheck => if sh.closing then 0 else due(RecvDrain)
    case RecvHandled(accepted) => if !accepted then due(CloseFlag) else if sh.closing then 0 else due(RecvDrain)
    case PostCheck => if sh.closing then 0 else due(PostAddRef)
    case PostAddRef => due(PostRecv)
    case _ => 0
  }

  lemma Replaced(due: Op -> nat, sh: Shared, op: Op, c: Choice)
    requires forall b :: due(EnqueueCheck(b)) == 0
    ensures Count(due, Perform(sh, op, c).1) == Replacement(due, sh, op, c)
  {
    var ops := Perform(sh, op, c).1;
    Count3(due, CloseQueue, CloseNotify, Release);
    Count2(due, Release, CloseFlag);
    if op.RecvDrain? && c.next.Handle? {
      CountZero(due, EnqueueChecks(c.next.sends));
      CountConcat(due, EnqueueChecks(c.next.sends), [RecvHandled(c.next.accept)]);
      Count1(due, RecvHandled(c.next.accept));
    } else if |ops| == 1 {
      assert ops == [ops[0]];
      Count1(due, ops[0]);
    }
  }

  /** The net change that taking one operation makes to a total. */
  lemma TotalAdvance(due: Op -> nat, s: System, i: nat, c: Choice)
    requires Enabled(s, Advance(i, c))
    requires forall b :: due(EnqueueCheck(b)) == 0
    ensures var op := s.acts[i].ops[0];
            && Total(due, Take(s, Advance(i, c)).acts) ==
               Total(due, s.acts) - due(op) + Replacement(due, s.sh, op, c)
            && Total(due, s.acts) >= due(op)
  {
    var op, rest := s.acts[i].ops[0], s.acts[i].ops[1..];
    var ops := Perform(s.sh, op, c).1;
    Replaced(due, s.sh, op, c);
    CountConcat(due, ops, rest);
    TotalUpdate(due, s.acts, i, s.acts[i].(ops := ops + rest));
  }

  // ---- The invariant ----

  /** The reference count is the session's own reference, until a close takes it over, plus the posted I/Os,
      plus the `refs` references that activities still have to give up. */
  predicate RefInv(sh: Shared, refs: nat) {
    && sh.refCount == (if sh.closing then 0 else 1) + sh.recvInFlight + sh.sendInFlight + refs
    && sh.deletes == (if sh.refCount == 0 then 1 else 0)
  }

  /** A close clears the queue once and notifies once. */
  predicate CloseInv(sh: Shared, notifies: nat, clears: nat) {
    && sh.notified + notifies == (if sh.closing then 1 else 0)
    && sh.cleared + clears == (if sh.closing then 1 else 0)
    && sh.registered == (sh.notified == 0)
  }

  /** At most one receive is posted or being processed, and exactly one unless the session is closing or about
      to close. */
  predicate RecvInv(sh: Shared, tokens: nat, closes: nat) {
    && sh.recvInFlight + tokens <= 1
    && (!sh.closing && closes == 0 ==> sh.recvInFlight + tokens == 1)
  }

  /** At most one send is posted or being processed, only while sending, and exactly one if buffers are queued
      unless the session is closing or about to close, and only then has a buffer been turned away. */
  predicate SendInv(sh: Shared, tokens: nat, closes: nat) {
    && sh.sendInFlight + tokens <= 1
    && (sh.cleared == 0 && sh.sendInFlight + tokens > 0 ==> sh.send.sending)
    && (!sh.closing && closes == 0 && sh.send.queue != [] ==> sh.sendInFlight + tokens == 1)
    && (!sh.closing && closes == 0 ==> sh.accepted == sh.offered)
  }

  /** Until the close empties it, the queue is what was accepted and not yet popped, and the posted buffers are
      the popped ones and, while sending, the front of the queue. */
  predicate LogInv(sh: Shared) {
    && |sh.send.queue| <= MAX_SEND_QUEUE_SIZE
    && sh.posted <= sh.accepted
    && (sh.cleared > 0 ==> sh.closing)
    && (sh.cleared == 0 ==>
          && sh.popped <= |sh.accepted|
          && sh.send.queue == sh.accepted[sh.popped..]
          && |sh.posted| == sh.popped + (if sh.send.sending then 1 else 0)
          && (sh.send.sending ==> sh.send.queue != []))
  }

  /** Whoever is to clear the queue or notify still has a reference to give up afterwards. */
  predicate Guarded(ops: seq<Op>) {
    ops == [] || (Guarded(ops[1..]) && (ops[0].CloseQueue? || ops[0].CloseNotify? ==> Count(RefDue, ops[1..]) > 0))
  }

  predicate ActivityInv(a: Activity) {
    && Guarded(a.ops)
    && (a.worker && a.ops != [] ==> a.ops[|a.ops| - 1] == Release)
  }

  predicate ActivitiesInv(acts: seq<Activity>) {
    forall i :: 0 <= i < |acts| ==> ActivityInv(acts[i])
  }

  predicate Inv(s: System) {
    && RefInv(s.sh, Total(RefDue, s.acts))
    && CloseInv(s.sh, Total(NotifyDue, s.acts), Total(ClearDue, s.acts))
    && RecvInv(s.sh, Total(RecvToken, s.acts), Total(CloseDue, s.acts))
    && SendInv(s.sh, Total(SendToken, s.acts), Total(CloseDue, s.acts))
    && LogInv(s.sh)
    && ActivitiesInv(s.acts)
  }

  lemma TotalOne(due: Op -> nat, worker: bool, op: Op)
    ensures Total(due, [Activity(worker, [op])]) == due(op)
  {
    var acts := [Activity(worker, [op])];
    assert acts[1..] == [];
    Count1(due, op);
  }

  lemma {:induction false} GuardedPlain(ops: seq<Op>)
    requires forall i :: 0 <= i < |ops| ==> !ops[i].CloseQueue? && !ops[i].CloseNotify?
    ensures Guarded(ops)
  {
    if ops != [] {
      GuardedPlain(ops[1..]);
    }
  }

  lemma InitInv()
    ensures Inv(INIT)
  {
    TotalOne(RefDue, false, PostCheck);
    TotalOne(NotifyDue, false, PostCheck);
    TotalOne(ClearDue, false, PostCheck);
    TotalOne(RecvToken, false, PostCheck);
    TotalOne(SendToken, false, PostCheck);
    TotalOne(CloseDue, false, PostCheck);
    GuardedPlain([PostCheck]);
  }

  // ---- Every operation keeps it ----

  lemma PerformRef(sh: Shared, op: Op, c: Choice, refs: nat)
    requires RefInv(sh, refs) && sh.refCount > 0 && RefDue(op) <= refs
    ensures RefInv(Perform(sh, op, c).0, refs - RefDue(op) + Replacement(RefDue, sh, op, c))
  {
  }

  lemma PerformClose(sh: Shared, op: Op, c: Choice, notifies: nat, clears: nat)
    requires CloseInv(sh, notifies, clears) && NotifyDue(op) <= notifies && ClearDue(op) <= clears
    ensures CloseInv(Perform(sh, op, c).0,
                     notifies - NotifyDue(op) + Replacement(NotifyDue, sh, op, c),
                     clears - ClearDue(op) + Replacement(ClearDue, sh, op, c))
  {
  }

  lemma PerformRecv(sh: Shared, op: Op, c: Choice, tokens: nat, closes: nat)
    requires RecvInv(sh, tokens, closes) && RecvToken(op) <= tokens && CloseDue(op) <= closes
    ensures RecvInv(Perform(sh, op, c).0,
                    tokens - RecvToken(op) + Replacement(RecvToken, sh, op, c),
                    closes - CloseDue(op) + Replacement(CloseDue, sh, op, c))
  {
  }

  lemma PerformSend(sh: Shared, op: Op, c: Choice, tokens: nat, closes: nat)
    requires SendInv(sh, tokens, closes) && LogInv(sh) && SendToken(op) <= tokens && CloseDue(op) <= closes
    ensures SendInv(Perform(sh, op, c).0,
                    tokens - SendToken(op) + Replacement(SendToken, sh, op, c),
                    closes - CloseDue(op) + Replacement(CloseDue, sh, op, c))
  {
  }

  lemma LogEnqueue(sh: Shared, b: Buffer, c: Choice)
    requires LogInv(sh)
    ensures LogInv(Perform(sh, EnqueueLocked(b), c).0)
  {
    if |sh.send.queue| < MAX_SEND_QUEUE_SIZE && sh.cleared == 0 {
      assert (sh.accepted + [b])[sh.popped..] == sh.send.queue + [b];
    }
  }

  lemma LogSendComplete(sh: Shared, c: Choice)
    requires LogInv(sh) && (sh.cleared == 0 ==> sh.send.sending)
    ensures LogInv(Perform(sh, SendComplete, c).0)
  {
    if sh.cleared == 0 {
      assert sh.send.queue[1..] == sh.accepted[sh.popped + 1..];
    }
  }

  lemma PerformLog(sh: Shared, op: Op, c: Choice)
    requires LogInv(sh) && (op.SendComplete? && sh.cleared == 0 ==> sh.send.sending)
    requires op.CloseQueue? ==> sh.closing
    ensures LogInv(Perform(sh, op, c).0)
  {
    match op
    case EnqueueLocked(b) => LogEnqueue(sh, b, c);
    case SendComplete => LogSendComplete(sh, c);
    case _ =>
  }

  lemma {:induction false} GuardedConcat(a: seq<Op>, b: seq<Op>)
    requires Guarded(a) && Guarded(b)
    ensures Guarded(a + b)
  {
    if a == [] {
      assert a + b == b;
    } else {
      GuardedConcat(a[1..], b);
      assert (a + b)[1..] == a[1..] + b;
      CountConcat(RefDue, a[1..], b);
    }
  }

  lemma ReplacedGuarded(sh: Shared, op: Op, c: Choice)
    ensures Guarded(Perform(sh, op, c).1)
  {
    var ops := Perform(sh, op, c).1;
    if op.CloseFlag? && !sh.closing {
      assert ops[1..] == [CloseNotify, Release] && ops[1..][1..] == [Release];
      Count1(RefDue, Release);
      Count2(RefDue, CloseNotify, Release);
      GuardedPlain([Release]);
    } else {
      GuardedPlain(ops);
    }
  }

  lemma Continued(a: Activity, first: seq<Op>)
    requires ActivityInv(a) && a.ops != [] && Guarded(first)
    requires a.ops[0] == Release ==> first == []
    ensures ActivityInv(a.(ops := first + a.ops[1..]))
  {
    var rest := a.ops[1..];
    GuardedConcat(first, rest);
    if a.worker {
      if rest == [] {
        assert first + rest == [];
      } else {
        assert (first + rest)[|first + rest| - 1] == rest[|rest| - 1] == Release;
      }
    }
  }

  lemma UpdateActivity(acts: seq<Activity>, i: nat, a: Activity)
    requires i < |acts| && ActivitiesInv(acts) && ActivityInv(a)
    ensures ActivitiesInv(acts[i := a])
  {
  }

  lemma AdvanceActivity(s: System, i: nat, c: Choice)
    requires Enabled(s, Advance(i, c)) && ActivitiesInv(s.acts)
    ensures ActivitiesInv(Take(s, Advance(i, c)).acts)
  {
    var a := s.acts[i];
    var first := Perform(s.sh, a.ops[0], c).1;
    ReplacedGuarded(s.sh, a.ops[0], c);
    Continued(a, first);
    UpdateActivity(s.acts, i, a.(ops := first + a.ops[1..]));
  }

  lemma {:induction false} LastCounts(due: Op -> nat, ops: seq<Op>)
    requires ops != []
    ensures Count(due, ops) >= due(ops[|ops| - 1])
  {
    if |ops| > 1 {
      LastCounts(due, ops[1..]);
    }
  }

  /** An activity that may run keeps the session alive: it holds a reference or is allowed only while there is one. */
  lemma RunningMeansAlive(s: System, i: nat, c: Choice)
    requires Inv(s) && Enabled(s, Advance(i, c))
    ensures s.sh.refCount > 0 && s.sh.deletes == 0
  {
    var a := s.acts[i];
    TotalUpdate(RefDue, s.acts, i, a);
    if a.worker {
      LastCounts(RefDue, a.ops);
    }
  }

  lemma AdvanceInv(s: System, i: nat, c: Choice)
    requires Inv(s) && Enabled(s, Advance(i, c))
    ensures Inv(Take(s, Advance(i, c)))
  {
    var op := s.acts[i].ops[0];
    RunningMeansAlive(s, i, c);
    TotalAdvance(RefDue, s, i, c);
    TotalAdvance(NotifyDue, s, i, c);
    TotalAdvance(ClearDue, s, i, c);
    TotalAdvance(RecvToken, s, i, c);
    TotalAdvance(SendToken, s, i, c);
    TotalAdvance(CloseDue, s, i, c);
    PerformRef(s.sh, op, c, Total(RefDue, s.acts));
    PerformClose(s.sh, op, c, Total(NotifyDue, s.acts), Total(ClearDue, s.acts));
    PerformRecv(s.sh, op, c, Total(RecvToken, s.acts), Total(CloseDue, s.acts));
    PerformSend(s.sh, op, c, Total(SendToken, s.acts), Total(CloseDue, s.acts));
    PerformLog(s.sh, op, c);
    AdvanceActivity(s, i, c);
  }

  lemma SpawnActivity(acts: seq<Activity>, a: Activity)
    requires ActivitiesInv(acts) && ActivityInv(a)
    ensures ActivitiesInv(acts + [a])
  {
  }

  lemma SpawnTotals(acts: seq<Activity>, a: Activity)
    ensures Total(RefDue, acts + [a]) == Total(RefDue, acts) + Count(RefDue, a.ops)
    ensures Total(NotifyDue, acts + [a]) == Total(NotifyDue, acts) + Count(NotifyDue, a.ops)
    ensures Total(ClearDue, acts + [a]) == Total(ClearDue, acts) + Count(ClearDue, a.ops)
    ensures Total(RecvToken, acts + [a]) == Total(RecvToken, acts) + Count(RecvToken, a.ops)
    ensures Total(SendToken, acts + [a]) == Total(SendToken, acts) + Count(SendToken, a.ops)
    ensures Total(CloseDue, acts + [a]) == Total(CloseDue, acts) + Count(CloseDue, a.ops)
  {
    TotalSpawn(RefDue, acts, a);
    TotalSpawn(NotifyDue, acts, a);
    TotalSpawn(ClearDue, acts, a);
    TotalSpawn(RecvToken, acts, a);
    TotalSpawn(SendToken, acts, a);
    TotalSpawn(CloseDue, acts, a);
  }

  lemma CompletionInv(s: System, sh: Shared, op: Op)
    requires Inv(s) && op in {RecvCheck, SendComplete, CloseFlag}
    requires || (s.sh.recvInFlight > 0 && op != SendComplete && sh == s.sh.(recvInFlight := s.sh.recvInFlight - 1))
             || (s.sh.sendInFlight > 0 && op != RecvCheck && sh == s.sh.(sendInFlight := s.sh.sendInFlight - 1))
    ensures Inv(Spawn(s, sh, true, [op, Release]))
  {
    var a := Activity(true, [op, Release]);
    GuardedPlain(a.ops);
    SpawnActivity(s.acts, a);
    SpawnTotals(s.acts, a);
    Count2(RefDue, op, Release);
    Count2(NotifyDue, op, Release);
    Count2(ClearDue, op, Release);
    Count2(RecvToken, op, Release);
    Count2(SendToken, op, Release);
    Count2(CloseDue, op, Release);
  }

  lemma CallInv(s: System, op: Op)
    requires Inv(s) && (op.EnqueueCheck? || op.CloseFlag?)
    ensures Inv(Spawn(s, s.sh, false, [op]))
  {
    var a := Activity(false, [op]);
    GuardedPlain(a.ops);
    SpawnActivity(s.acts, a);
    SpawnTotals(s.acts, a);
    Count1(RefDue, op);
    Count1(NotifyDue, op);
    Count1(ClearDue, op);
    Count1(RecvToken, op);
    Count1(SendToken, op);
    Count1(CloseDue, op);
  }

  lemma StepKeepsInv(s: System, step: Step)
    requires Inv(s) && Enabled(s, step)
    ensures Inv(Take(s, step))
  {
    match step
    case Advance(i, c) =>
      AdvanceInv(s, i, c);
    case RecvCompleted(ok) =>
      CompletionInv(s, s.sh.(recvInFlight := s.sh.recvInFlight - 1), if ok then RecvCheck else CloseFlag);
    case SendCompleted(ok) =>
      CompletionInv(s, s.sh.(sendInFlight := s.sh.sendInFlight - 1), if ok then SendComplete else CloseFlag);
    case CallEnqueue(b) =>
      CallInv(s, EnqueueCheck(b));
    case CallClose =>
      CallInv(s, CloseFlag);
  }

  lemma {:induction false} RunKeepsInv(s: System, steps: seq<Step>)
    requires Inv(s) && ValidRun(s, steps)
    ensures Inv(Run(s, steps))
    decreases |steps|
  {
    if steps != [] {
      StepKeepsInv(s, steps[0]);
      RunKeepsInv(Take(s, steps[0]), steps[1..]);
    }
  }

  // ---- Theorems about every run of a session ----

  lemma ReachableInv(steps: seq<Step>)
    requires ValidRun(INIT, steps)
    ensures Inv(Run(INIT, steps))
  {
    InitInv();
    RunKeepsInv(INIT, steps);
  }

  /** The queue protocol: one send in flight, a bounded queue, and the buffers posted to the socket a prefix of
      those accepted, in order. An open session has posted exactly the buffers popped and the one in flight. */
  predicate SendsInOrder(sh: Shared) {
    && sh.sendInFlight <= 1
    && |sh.send.queue| <= 64
    && sh.posted <= sh.accepted
    && (!sh.closing ==>
          && sh.popped <= |sh.accepted|
          && sh.accepted[sh.popped..] == sh.send.queue
          && |sh.posted| == sh.popped + (if sh.send.sending then 1 else 0))
  }

  lemma SendProtocol(steps: seq<Step>)
    requires ValidRun(INIT, steps)
    ensures SendsInOrder(Run(INIT, steps).sh)
  {
    ReachableInv(steps);
  }

  lemma TwoCounts(due: Op -> nat, acts: seq<Activity>, i: nat, j: nat)
    requires i < |acts| && j < |acts| && i != j
    ensures Total(due, acts) >= Count(due, acts[i].ops) + Count(due, acts[j].ops)
  {
    var without := acts[i := Activity(false, [])];
    TotalUpdate(due, acts, i, Activity(false, []));
    TotalUpdate(due, without, j, without[j]);
  }

  /** No two activities are in the receive path, and none is while a receive is in flight: the receive stream
      has one user at a time. */
  predicate OneAtATime(s: System) {
    forall i, j :: 0 <= i < |s.acts| && 0 <= j < |s.acts|
                   && Count(RecvToken, s.acts[i].ops) > 0 && Count(RecvToken, s.acts[j].ops) > 0 ==>
                   i == j && s.sh.recvInFlight == 0
  }

  lemma InvOneAtATime(s: System)
    requires Inv(s)
    ensures OneAtATime(s)
  {
    forall i, j | 0 <= i < |s.acts| && 0 <= j < |s.acts|
                  && Count(RecvToken, s.acts[i].ops) > 0 && Count(RecvToken, s.acts[j].ops) > 0
      ensures i == j && s.sh.recvInFlight == 0
    {
      TotalUpdate(RecvToken, s.acts, i, s.acts[i]);
      if i != j {
        TwoCounts(RecvToken, s.acts, i, j);
      }
    }
  }

  lemma OneReceiver(steps: seq<Step>)
    requires ValidRun(INIT, steps)
    ensures OneAtATime(Run(INIT, steps))
  {
    ReachableInv(steps);
    InvOneAtATime(Run(INIT, steps));
  }

  lemma {:induction false} NothingDue(ops: seq<Op>)
    requires Guarded(ops) && Count(RefDue, ops) == 0
    ensures Count(NotifyDue, ops) == 0 && Count(ClearDue, ops) == 0
  {
    if ops != [] {
      NothingDue(ops[1..]);
    }
  }

  /** No activity has a reference to give up. */
  predicate NoRefsDue(acts: seq<Activity>) {
    forall i :: 0 <= i < |acts| ==> Count(RefDue, acts[i].ops) == 0
  }

  predicate WorkersDone(acts: seq<Activity>) {
    forall i :: 0 <= i < |acts| && acts[i].worker ==> acts[i].ops == []
  }

  lemma {:induction false} NoRefsIsZero(acts: seq<Activity>)
    ensures Total(RefDue, acts) == 0 <==> NoRefsDue(acts)
  {
    if acts != [] {
      NoRefsIsZero(acts[1..]);
      if NoRefsDue(acts[1..]) && Count(RefDue, acts[0].ops) == 0 {
        forall i | 0 <= i < |acts| ensures Count(RefDue, acts[i].ops) == 0 {
          if i > 0 {
            assert acts[i] == acts[1..][i - 1];
          }
        }
      }
      if NoRefsDue(acts) {
        forall i | 0 <= i < |acts[1..]| ensures Count(RefDue, acts[1..][i].ops) == 0 {
          assert acts[1..][i] == acts[i + 1];
        }
      }
    }
  }

  lemma {:induction false} NothingDueAtAll(acts: seq<Activity>)
    requires ActivitiesInv(acts) && NoRefsDue(acts)
    ensures Total(NotifyDue, acts) == 0 && Total(ClearDue, acts) == 0 && WorkersDone(acts)
  {
    forall i | 0 <= i < |acts| && acts[i].worker ensures acts[i].ops == [] {
      if acts[i].ops != [] {
        LastCounts(RefDue, acts[i].ops);
      }
    }
    if acts != [] {
      NothingDue(acts[0].ops);
      forall i | 0 <= i < |acts[1..]|
        ensures ActivityInv(acts[1..][i]) && Count(RefDue, acts[1..][i].ops) == 0
      {
        assert acts[1..][i] == acts[i + 1];
      }
      NothingDueAtAll(acts[1..]);
    }
  }

  /** The session is deleted at most once, and is deleted exactly when it is closed and neither an I/O nor an
      activity has a reference to give up. By then disconnection has been notified exactly once, the session is
      out of the service's set, and no worker has anything left to do with it. */
  predicate DeletedExactlyWhenDone(s: System) {
    && s.sh.deletes <= 1
    && s.sh.notified <= 1
    && s.sh.cleared <= 1
    && (s.sh.deletes == 1 <==>
          s.sh.closing && s.sh.recvInFlight == 0 && s.sh.sendInFlight == 0 && NoRefsDue(s.acts))
    && (s.sh.deletes == 1 ==>
          s.sh.notified == 1 && !s.sh.registered && s.sh.cleared == 1 && WorkersDone(s.acts))
  }

  lemma InvDeletedExactlyWhenDone(s: System)
    requires Inv(s)
    ensures DeletedExactlyWhenDone(s)
  {
    NoRefsIsZero(s.acts);
    if NoRefsDue(s.acts) {
      NothingDueAtAll(s.acts);
    }
  }

  lemma SessionLifetime(steps: seq<Step>)
    requires ValidRun(INIT, steps)
    ensures DeletedExactlyWhenDone(Run(INIT, steps))
  {
    ReachableInv(steps);
    InvDeletedExactlyWhenDone(Run(INIT, steps));
  }

  /** The reference count is the session's own reference, until a close takes it over, plus posted I/Os, plus
      what running activities hold: completions being processed, receives about to be posted, closes to finish. */
  lemma ReferencesCounted(steps: seq<Step>)
    requires ValidRun(INIT, steps)
    ensures var s := Run(INIT, steps);
            && s.sh.refCount == (if s.sh.closing then 0 else 1)
                                + s.sh.recvInFlight + s.sh.sendInFlight + Total(RefDue, s.acts)
            && (!s.sh.closing ==> s.sh.deletes == 0 && s.sh.registered && s.sh.notified == 0)
  {
    ReachableInv(steps);
  }

  predicate AllDone(acts: seq<Activity>) {
    forall i :: 0 <= i < |acts| ==> acts[i].ops == []
  }

  lemma {:induction false} DoneCountsNothing(due: Op -> nat, acts: seq<Activity>)
    requires AllDone(acts)
    ensures Total(due, acts) == 0
  {
    if acts != [] {
      DoneCountsNothing(due, acts[1..]);
    }
  }

  /** An open session with nothing left to run has a receive in flight and, exactly when any buffer is queued, a
      send in flight. */
  predicate Awake(s: System) {
    !s.sh.closing && AllDone(s.acts) ==>
      s.sh.recvInFlight == 1 && (s.sh.send.queue != [] <==> s.sh.sendInFlight == 1)
  }

  lemma InvAwake(s: System)
    requires Inv(s)
    ensures Awake(s)
  {
    if !s.sh.closing && AllDone(s.acts) {
      DoneCountsNothing(RecvToken, s.acts);
      DoneCountsNothing(SendToken, s.acts);
      DoneCountsNothing(CloseDue, s.acts);
      DoneCountsNothing(ClearDue, s.acts);
    }
  }

  lemma NoLostWakeup(steps: seq<Step>)
    requires ValidRun(INIT, steps)
    ensures Awake(Run(INIT, steps))
  {
    ReachableInv(steps);
    InvAwake(Run(INIT, steps));
  }

  // ---- No buffer is lost silently ----

  /** No activity is about to close the session. */
  predicate NoCloseDue(acts: seq<Activity>) {
    forall i :: 0 <= i < |acts| ==> Count(CloseDue, acts[i].ops) == 0
  }

  lemma {:induction false} NoCloseIsZero(acts: seq<Activity>)
    requires NoCloseDue(acts)
    ensures Total(CloseDue, acts) == 0
  {
    if acts != [] {
      NoCloseIsZero(acts[1..]);
    }
  }

  /** In every run: as long as the session is open and nobody is about to close it, every buffer that was offered is
      accepted, in order. */
  lemma OfferedAreAccepted(steps: seq<Step>)
    requires ValidRun(INIT, steps)
    ensures var s := Run(INIT, steps);
            !s.sh.closing && NoCloseDue(s.acts) ==> s.sh.accepted == s.sh.offered
  {
    ReachableInv(steps);
    var s := Run(INIT, steps);
    if NoCloseDue(s.acts) {
      NoCloseIsZero(s.acts);
    }
  }

  // ---- What calls that nothing interrupts do ----

  /** What is left of a session that was open when it is closed. */
  predicate ClosedFrom(sh: Shared, t: Shared) {
    && t.closing && t.send == SendState([], false) && !t.registered
    && t.notified == sh.notified + 1 && t.cleared == sh.cleared + 1
    && t.refCount == sh.refCount - 1 && t.deletes == sh.deletes + (if sh.refCount == 1 then 1 else 0)
    && t.recvInFlight == sh.recvInFlight && t.sendInFlight == sh.sendInFlight && t.posted == sh.posted
  }

  /** EnqueueSend does nothing with an empty buffer or on a closing session. On an open one it closes the session
      exactly if 64 buffers are queued, or nothing is being sent and the post fails. Otherwise the buffer is queued,
      and if nothing was being sent the front of the queue is posted. */
  lemma EnqueueExactly(sh: Shared, b: Buffer, wsaOk: bool)
    ensures var (t, rest) := Alone(sh, [EnqueueCheck(b)], Choice(wsaOk, NeedMore), 6);
            && rest == []
            && (b == [] || sh.closing ==> t == sh)
            && (b != [] && !sh.closing ==>
                  var full := |sh.send.queue| >= 64;
                  && (t.closing <==> full || (!sh.send.sending && !wsaOk))
                  && t.offered == sh.offered + [b]
                  && t.accepted == (if full then sh.accepted else sh.accepted + [b])
                  && (t.closing ==> ClosedFrom(sh, t))
                  && (!t.closing ==>
                        t == if sh.send.sending
                             then sh.(offered := t.offered, accepted := t.accepted,
                                      send := SendState(sh.send.queue + [b], true))
                             else sh.(offered := t.offered, accepted := t.accepted,
                                      send := SendState(sh.send.queue + [b], true),
                                      posted := sh.posted + [(sh.send.queue + [b])[0]],
                                      refCount := sh.refCount + 1, sendInFlight := sh.sendInFlight + 1)))
  {
    hide Alone;
    CallsAlone(sh, b, wsaOk);
  }

  /** A send completion takes the buffer sent off the queue and posts the next one; on a failure to post, the session
      closes; with nothing left, or when closing, sending stops. */
  lemma SendCompleteExactly(sh: Shared, wsaOk: bool)
    requires sh.send.queue != []
    ensures var (t, rest) := Alone(sh, [SendComplete], Choice(wsaOk, NeedMore), 5);
            var queue := sh.send.queue[1..];
            && rest == []
            && t.popped == sh.popped + 1
            && (queue == [] || sh.closing ==> t == sh.(popped := t.popped, send := SendState(queue, false)))
            && (queue != [] && !sh.closing ==>
                  if wsaOk
                  then t == sh.(popped := t.popped, send := SendState(queue, sh.send.sending),
                                posted := sh.posted + [queue[0]],
                                refCount := sh.refCount + 1, sendInFlight := sh.sendInFlight + 1)
                  else ClosedFrom(sh, t))
  {
    hide Alone;
    CallsAlone(sh, [], wsaOk);
  }

  /** Posting a receive takes a reference with it; if it fails, the session closes. */
  lemma PostRecvExactly(sh: Shared, wsaOk: bool)
    requires sh.refCount > 0
    ensures var (t, rest) := Alone(sh, [PostCheck], Choice(wsaOk, NeedMore), 8);
            && rest == []
            && (sh.closing ==> t == sh)
            && (!sh.closing ==>
                  if wsaOk then t == sh.(refCount := sh.refCount + 1, recvInFlight := sh.recvInFlight + 1)
                  else ClosedFrom(sh, t))
  {
    hide Alone;
    CallsAlone(sh, [], wsaOk);
  }

  /** A malformed packet closes an open session, and so does a refused one. */
  lemma RefusalExactly(sh: Shared, c: Choice)
    requires !sh.closing
    ensures c.next == Malformed ==>
              var (t, rest) := Alone(sh, [RecvDrain], c, 5);
              rest == [] && ClosedFrom(sh, t)
    ensures var (t, rest) := Alone(sh, [RecvHandled(false)], c, 5);
            rest == [] && ClosedFrom(sh, t)
  {
    hide Alone;
    OneStep(sh, RecvDrain, c, 4);
    OneStep(sh, RecvHandled(false), c, 4);
    CloseAlone(sh, c, 4);
  }

  /** Receiving: nothing on a closing session; too few bytes post the next receive; a packet runs what its handler
      sends; an accepted one goes on to the next, unless the session is closing by then. */
  lemma ReceiveExactly(sh: Shared, c: Choice)
    ensures Alone(sh, [RecvCheck], c, 1) == (sh, if sh.closing then [] else [RecvDrain])
    ensures c.next == NeedMore ==> Alone(sh, [RecvDrain], c, 1) == (sh, [PostCheck])
    ensures c.next.Handle? ==>
              Alone(sh, [RecvDrain], c, 1) ==
              (sh, EnqueueChecks(c.next.sends) + [RecvHandled(c.next.accept)])
    ensures Alone(sh, [RecvHandled(true)], c, 1) == (sh, if sh.closing then [] else [RecvDrain])
  {
    hide Alone;
    OneStep(sh, RecvCheck, c, 0);
    OneStep(sh, RecvDrain, c, 0);
    OneStep(sh, RecvHandled(true), c, 0);
  }

  lemma FailureAlone(sh: Shared, c: Choice)
    requires !sh.closing
    ensures Alone(sh, [CloseFlag, Release], c, 5) == (Released(Closed(sh)), [])
  {
    hide Alone;
    var sh1 := Perform(sh, CloseFlag, c).0;
    var sh2 := Perform(sh1, CloseQueue, c).0;
    var sh3 := Perform(sh2, CloseNotify, c).0;
    assert [CloseFlag, Release] == [CloseFlag] + [Release];
    AloneStep(sh, CloseFlag, [Release], c, 4);
    assert [CloseQueue, CloseNotify, Release] + [Release] == [CloseQueue] + [CloseNotify, Release, Release];
    AloneStep(sh1, CloseQueue, [CloseNotify, Release, Release], c, 3);
    assert [] + [CloseNotify, Release, Release] == [CloseNotify] + [Release, Release];
    AloneStep(sh2, CloseNotify, [Release, Release], c, 2);
    assert [] + [Release, Release] == [Release] + [Release];
    AloneStep(sh3, Release, [Release], c, 1);
    assert [] + [Release] == [Release];
    OneStep(Perform(sh3, Release, c).0, Release, c, 0);
  }

  /** A failed completion closes an open session and drops the reference that the I/O held. */
  lemma FailureExactly(s: System, recv: bool, c: Choice)
    requires (if recv then s.sh.recvInFlight > 0 else s.sh.sendInFlight > 0) && !s.sh.closing
    ensures var step := if recv then RecvCompleted(false) else SendCompleted(false);
            && Enabled(s, step)
            && var t := Take(s, step);
               var (u, rest) := Alone(t.sh, t.acts[|t.acts| - 1].ops, c, 5);
               rest == [] && u.closing && u.refCount == s.sh.refCount - 2 && u.notified == s.sh.notified + 1
  {
    var t := Take(s, if recv then RecvCompleted(false) else SendCompleted(false));
    assert t.acts[|t.acts| - 1].ops == [CloseFlag, Release];
    FailureAlone(t.sh, c);
  }
}
