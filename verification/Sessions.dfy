/** The session object and the service that owns it. Each method, run without interruption, has exactly the effect
    that its atomic operations have in `SessionSystem`; the receive loop has the effect described in `Receive`. */
module Sessions {
  import opened Options
  import opened Packets
  import opened Receive
  import Sys = SessionSystem

  class NetService {
    var sessions: set<Session>
    /** The sessions whose connection and disconnection were reported to the application, in order. */
    var connected: seq<Session>
    var disconnected: seq<Session>

    constructor ()
      ensures sessions == {} && connected == disconnected == []
    {
      sessions, connected, disconnected := {}, [], [];
    }

    method AddSession(s: Session)
      modifies this`sessions
      ensures sessions == old(sessions) + {s}
    {
      sessions := sessions + {s};
    }

    method RemoveSession(s: Session)
      modifies this`sessions
      ensures sessions == old(sessions) - {s}
    {
      sessions := sessions - {s};
    }

    method NotifyConnected(s: Session)
      modifies this`connected
      ensures connected == old(connected) + [s]
    {
      connected := connected + [s];
    }

    method NotifyDisconnected(s: Session)
      modifies this`sessions, this`disconnected
      ensures sessions == old(sessions) - {s}
      ensures disconnected == old(disconnected) + [s]
    {
      RemoveSession(s);
      disconnected := disconnected + [s];
    }
  }

  /** A completion has been taken off the port. */
  ghost function Taken(sh: Sys.Shared, recv: bool): Sys.Shared
    requires if recv then sh.recvInFlight > 0 else sh.sendInFlight > 0
  {
    if recv then sh.(recvInFlight := sh.recvInFlight - 1) else sh.(sendInFlight := sh.sendInFlight - 1)
  }

  class Session {
    const handler: Handler
    const owner: NetService
    const recvStream: ByteStream
    var refCount: int
    var closing: bool
    var sendQ: seq<Sys.Buffer>
    var sending: bool
    /** Every packet given to the handler so far. */
    var delivered: seq<Packet>

    // What has happened, and what is outstanding at the socket.
    ghost var recvInFlight: nat
    ghost var sendInFlight: nat
    ghost var offered: seq<Sys.Buffer>
    ghost var accepted: seq<Sys.Buffer>
    ghost var posted: seq<Sys.Buffer>
    ghost var popped: nat
    ghost var cleared: nat
    ghost var notified: nat
    ghost var deletes: nat

    ghost function Snapshot(): Sys.Shared
      reads this, owner
    {
      Sys.Shared(closing, Sys.SendState(sendQ, sending), refCount, recvInFlight, sendInFlight,
                 this in owner.sessions, offered, accepted, posted, popped, cleared, notified, deletes)
    }

    constructor (handler: Handler, owner: NetService)
      ensures this.handler == handler && this.owner == owner && fresh(recvStream)
      ensures recvStream.bytes == [] && delivered == []
      ensures Snapshot() == Sys.INIT.sh.(registered := this in owner.sessions)
    {
      this.handler, this.owner := handler, owner;
      recvStream := new ByteStream();
      refCount, closing, sendQ, sending, delivered := 1, false, [], false, [];
      recvInFlight, sendInFlight, offered, accepted, posted, popped := 0, 0, [], [], [], 0;
      cleared, notified, deletes := 0, 0, 0;
    }

    method AddRef()
      modifies this`refCount
      ensures refCount == old(refCount) + 1
    {
      refCount := refCount + 1;
    }

    method Release()
      modifies this`refCount, this`deletes
      ensures Snapshot() == Sys.Released(old(Snapshot()))
    {
      refCount := refCount - 1;
      if refCount == 0 {
        deletes := deletes + 1;
      }
    }

    method DropBuffers()
      modifies this`closing, this`sendQ, this`sending, this`cleared, recvStream
      ensures Snapshot() ==
              old(Snapshot()).(closing := true, send := Sys.SendState([], false), cleared := old(cleared) + 1)
      ensures recvStream.bytes == []
    {
      closing := true;
      sendQ, sending := [], false;
      cleared := cleared + 1;
      recvStream.bytes := [];
    }

    method Close()
      modifies this, owner`sessions, owner`disconnected, recvStream
      ensures closing && Snapshot() == Sys.Closed(old(Snapshot()))
      ensures delivered == old(delivered)
      ensures recvStream.bytes == if old(closing) then old(recvStream.bytes) else []
      ensures old(closing) ==> owner.disconnected == old(owner.disconnected)
      ensures !old(closing) ==> owner.disconnected == old(owner.disconnected) + [this]
      ensures owner.sessions == if old(closing) then old(owner.sessions) else old(owner.sessions) - {this}
    {
      if closing {
        return;
      }
      DropBuffers();
      owner.NotifyDisconnected(this);
      notified := notified + 1;
      Release();
    }

    /** The front of the queue is posted unless there is none or the session is closing; `wsaOk` is what the
        socket answers. */
    method PostSendFront(wsaOk: bool) returns (ok: bool)
      modifies this`refCount, this`deletes, this`sending, this`sendInFlight, this`posted
      requires refCount > 0
      ensures var r := Sys.PostFront(old(Snapshot()).send, closing, wsaOk);
              Snapshot() == Sys.AfterSend(old(Snapshot()), r) && ok == !r.needClose
    {
      if sendQ == [] || closing {
        sending := false;
        return true;
      }
      AddRef();
      if !wsaOk {
        Release();
        sending := false;
        return false;
      }
      sendInFlight := sendInFlight + 1;
      posted := posted + [sendQ[0]];
      return true;
    }

    /** The critical section of EnqueueSend. */
    method Accept(buffer: Sys.Buffer, wsaOk: bool) returns (needClose: bool)
      requires refCount > 0
      modifies this`sendQ, this`sending, this`offered, this`accepted, this`posted
      modifies this`refCount, this`deletes, this`sendInFlight
      ensures var c := Sys.Choice(wsaOk, Sys.NeedMore);
              var (sh, next) := Sys.Perform(old(Snapshot()), Sys.EnqueueLocked(buffer), c);
              Snapshot() == sh && needClose == (next != [])
    {
      offered := offered + [buffer];
      if |sendQ| >= Sys.MAX_SEND_QUEUE_SIZE {
        return true;
      }
      sendQ := sendQ + [buffer];
      accepted := accepted + [buffer];
      if !sending {
        sending := true;
        var ok := PostSendFront(wsaOk);
        return !ok;
      }
      return false;
    }

    method EnqueueSend(buffer: Sys.Buffer, wsaOk: bool)
      requires refCount > 0
      modifies this, owner`sessions, owner`disconnected, recvStream
      ensures Snapshot() == Sys.SendEnqueued(old(Snapshot()), buffer, wsaOk)
      ensures delivered == old(delivered)
      ensures recvStream.bytes == if closing && !old(closing) then [] else old(recvStream.bytes)
    {
      if buffer == [] || closing {
        return;
      }
      hide Sys.Perform, Sys.Closed;
      var needClose := Accept(buffer, wsaOk);
      if needClose {
        Close();
      }
    }

    /** The critical section of OnSendComplete. */
    method Next(wsaOk: bool) returns (needClose: bool)
      requires refCount > 0
      modifies this`sendQ, this`sending, this`popped, this`refCount, this`deletes, this`sendInFlight, this`posted
      ensures var (sh, next) := Sys.Perform(old(Snapshot()), Sys.SendComplete, Sys.Choice(wsaOk, Sys.NeedMore));
              Snapshot() == sh && needClose == (next != [])
      ensures needClose ==> !closing
    {
      if sendQ != [] {
        sendQ := sendQ[1..];
        popped := popped + 1;
      }
      if sendQ == [] || closing {
        sending := false;
        return false;
      }
      var ok := PostSendFront(wsaOk);
      needClose := !ok;
    }

    method OnSendComplete(wsaOk: bool)
      requires refCount > 0
      modifies this, owner`sessions, owner`disconnected, recvStream
      ensures Snapshot() == Sys.SendFinished(old(Snapshot()), wsaOk)
      ensures delivered == old(delivered)
      ensures recvStream.bytes == if closing && !old(closing) then [] else old(recvStream.bytes)
    {
      hide Sys.Perform, Sys.Closed;
      var needClose := Next(wsaOk);
      if needClose {
        Close();
      }
    }

    method PostRecv(wsaOk: bool)
      modifies this, owner`sessions, owner`disconnected, recvStream
      ensures Snapshot() == Sys.RecvPosted(old(Snapshot()), wsaOk)
      ensures delivered == old(delivered)
      ensures recvStream.bytes == if closing && !old(closing) then [] else old(recvStream.bytes)
      ensures owner.sessions == if !old(closing) && closing then old(owner.sessions) - {this} else old(owner.sessions)
      ensures owner.disconnected ==
              if !old(closing) && closing then old(owner.disconnected) + [this] else old(owner.disconnected)
    {
      if closing {
        return;
      }
      AddRef();
      if !wsaOk {
        Release();
        Close();
        return;
      }
      recvInFlight := recvInFlight + 1;
    }

    /** The application hears of the session before anything is received. */
    method Start(wsaOk: bool)
      modifies this, owner, recvStream
      ensures Snapshot() == Sys.RecvPosted(old(Snapshot()), wsaOk) && delivered == old(delivered)
      ensures owner.connected == old(owner.connected) + [this]
      ensures owner.sessions == if !old(closing) && closing then old(owner.sessions) - {this} else old(owner.sessions)
      ensures owner.disconnected ==
              if !old(closing) && closing then old(owner.disconnected) + [this] else old(owner.disconnected)
    {
      owner.NotifyConnected(this);
      PostRecv(wsaOk);
    }

    /** The receive state as `Receive` describes it. */
    ghost function Received(): RecvState
      reads this, recvStream
    {
      Open(recvStream.bytes, delivered)
    }

    /** Gives the handler every packet that the stream now completes. If the loop stops by itself the session
        posts the next receive; if a packet is malformed or the handler stops it, the session closes. */
    method OnRecvComplete(data: seq<byte>, wsaOk: bool) returns (reason: Option<CloseReason>)
      modifies this, owner`sessions, owner`disconnected, recvStream
      ensures old(closing) ==> Snapshot() == old(Snapshot()) && recvStream.bytes == old(recvStream.bytes)
                               && delivered == old(delivered) && reason == None
      ensures !old(closing) ==>
                var st := OnReceive(handler, old(Received()), data);
                && delivered == st.delivered
                && (st.Open? ==>
                      && reason == None
                      && Snapshot() == Sys.RecvPosted(old(Snapshot()), wsaOk)
                      && recvStream.bytes == (if closing then [] else st.residual))
                && (st.Closed? ==>
                      && reason == Some(st.reason)
                      && Snapshot() == Sys.Closed(old(Snapshot()))
                      && recvStream.bytes == [])
    {
      reason := None;
      if closing {
        return;
      }
      recvStream.bytes := recvStream.bytes + data;
      ghost var end := OnReceive(handler, old(Received()), data);
      while true
        invariant !closing && Snapshot() == old(Snapshot())
        invariant Drain(handler, recvStream.bytes, delivered) == end
        invariant owner.disconnected == old(owner.disconnected)
        decreases |recvStream.bytes|
      {
        var result, packet := recvStream.TryGetPacket();
        if result == Incomplete {
          break;
        }
        if result != Success {
          reason := Some(ReasonOf(result));
          Close();
          return;
        }
        var verdict := handler(delivered, packet);
        delivered := delivered + [packet];
        match verdict {
          case Reject =>
            reason := Some(HandlerRejected);
            Close();
            return;
          case CloseInside =>
            reason := Some(HandlerClosed);
            Close();
            return;
          case Continue =>
        }
      }
      PostRecv(wsaOk);
    }

    method TakeCompletion(recv: bool)
      requires if recv then recvInFlight > 0 else sendInFlight > 0
      modifies this`recvInFlight, this`sendInFlight
      ensures Snapshot() == Taken(old(Snapshot()), recv)
    {
      if recv {
        recvInFlight := recvInFlight - 1;
      } else {
        sendInFlight := sendInFlight - 1;
      }
    }

    /** A worker's handling of one completed I/O: a failed or empty one closes the session. The reference that
        the I/O held is dropped last. */
    method OnCompletion(recv: bool, ok: bool, data: seq<byte>, wsaOk: bool)
      requires refCount > 0
      requires if recv then recvInFlight > 0 else sendInFlight > 0
      modifies this, owner`sessions, owner`disconnected, recvStream
      ensures !ok || (recv && data == []) ==>
                Snapshot() == Sys.Released(Sys.Closed(Taken(old(Snapshot()), recv)))
      ensures ok && !recv ==> Snapshot() == Sys.Released(Sys.SendFinished(Taken(old(Snapshot()), recv), wsaOk))
      ensures ok && recv && data != [] && old(closing) ==> Snapshot() == Sys.Released(Taken(old(Snapshot()), recv))
      ensures !(ok && recv && data != [] && !old(closing)) ==>
                && delivered == old(delivered)
                && recvStream.bytes == if closing && !old(closing) then [] else old(recvStream.bytes)
      ensures ok && recv && data != [] && !old(closing) ==>
                var st := OnReceive(handler, old(Received()), data);
                && delivered == st.delivered
                && recvStream.bytes == (if st.Closed? || closing then [] else st.residual)
                && Snapshot() == Sys.Released(
                     if st.Open? then Sys.RecvPosted(Taken(old(Snapshot()), recv), wsaOk)
                     else Sys.Closed(Taken(old(Snapshot()), recv)))
    {
      TakeCompletion(recv);
      if !ok || (recv && data == []) {
        Close();
      } else if recv {
        var _ := OnRecvComplete(data, wsaOk);
      } else {
        OnSendComplete(wsaOk);
      }
      Release();
    }
  }

  /** A new session is registered with the service before its first receive is posted. If its socket cannot be
      attached to the completion port it is deleted without having been registered. */
  method CreateAndRegisterSession(handler: Handler, service: NetService, portOk: bool, wsaOk: bool)
    returns (created: bool, s: Session)
    modifies service
    ensures fresh(s) && s.owner == service && s.handler == handler && created == portOk
    ensures portOk ==> s.Snapshot() == Sys.RecvPosted(Sys.INIT.sh, wsaOk)
    ensures !portOk ==> s.deletes == 1 && s.notified == 0
    ensures service.sessions == old(service.sessions) + (if portOk && wsaOk then {s} else {})
    ensures service.connected == old(service.connected) + (if portOk then [s] else [])
    ensures service.disconnected == old(service.disconnected) + (if portOk && !wsaOk then [s] else [])
  {
    s := new Session(handler, service);
    if !portOk {
      s.deletes := 1;
      return false, s;
    }
    service.AddSession(s);
    s.Start(wsaOk);
    created := true;
  }
}
