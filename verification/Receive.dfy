/** The receive loop of a session as a function of the bytes received: what the handler is given and how the
    loop ends. The theorems say that this depends on the byte stream alone and not on how it was cut. */
module Receive {
  import opened Packets

  /** What the packet handler does with a packet: carry on, refuse it, or accept it having closed the session. */
  datatype Verdict = Continue | Reject | CloseInside

  /** A handler may depend on every packet it was given before. */
  type Handler = (seq<Packet>, Packet) -> Verdict

  datatype CloseReason = BadHeader | BadOpcode | TooLarge | HandlerRejected | HandlerClosed

  /** Either waiting for more bytes after a residual, or closed. `delivered` is what the handler was given. */
  datatype RecvState =
    | Open(residual: seq<byte>, delivered: seq<Packet>)
    | Closed(reason: CloseReason, delivered: seq<Packet>)

  function ReasonOf(r: ReadResult): CloseReason {
    match r
    case InvalidHeader => BadHeader
    case InvalidOpcode => BadOpcode
    case _ => TooLarge
  }

  /** Takes packets off the stream until it runs dry, is malformed, or the handler stops. */
  function Drain(h: Handler, s: seq<byte>, delivered: seq<Packet>): RecvState
    decreases |s|
  {
    match Decode(s)
    case Fail(reason) =>
      if reason == Incomplete then Open(s, delivered) else Closed(ReasonOf(reason), delivered)
    case Got(p, n) =>
      match h(delivered, p)
      case Reject => Closed(HandlerRejected, delivered + [p])
      case CloseInside => Closed(HandlerClosed, delivered + [p])
      case Continue => Drain(h, s[n..], delivered + [p])
  }

  /** One completed receive. A closed session ignores it. */
  function OnReceive(h: Handler, st: RecvState, chunk: seq<byte>): RecvState {
    match st
    case Open(residual, delivered) => Drain(h, residual + chunk, delivered)
    case Closed(_, _) => st
  }

  function OnReceives(h: Handler, st: RecvState, chunks: seq<seq<byte>>): RecvState
    decreases |chunks|
  {
    if chunks == [] then st else OnReceives(h, OnReceive(h, st, chunks[0]), chunks[1..])
  }

  function Flatten(chunks: seq<seq<byte>>): seq<byte>
    decreases |chunks|
  {
    if chunks == [] then [] else chunks[0] + Flatten(chunks[1..])
  }

  /** The reason given for a malformed packet is that of its header: too short a size, too long a one, or an unknown
      opcode. Nothing of it is delivered. */
  lemma ClosesFor(h: Handler, s: seq<byte>, delivered: seq<Packet>)
    requires |s| >= 4
    ensures var size, opcode := s[0] as int + 256 * s[1] as int, s[2] as int + 256 * s[3] as int;
            && (size < 4 ==> Drain(h, s, delivered) == Closed(BadHeader, delivered))
            && (size > 65531 ==> Drain(h, s, delivered) == Closed(TooLarge, delivered))
            && (4 <= size <= 65531 && !Known(opcode) ==> Drain(h, s, delivered) == Closed(BadOpcode, delivered))
  {
    ErrorsExactly(s);
  }

  const START: RecvState := Open([], [])

  // ---- Fragmentation does not matter ----

  /** Draining a stream and then receiving more is draining the whole. */
  lemma {:induction false} DrainThenReceive(h: Handler, s: seq<byte>, delivered: seq<Packet>, more: seq<byte>)
    ensures OnReceive(h, Drain(h, s, delivered), more) == Drain(h, s + more, delivered)
    decreases |s|
  {
    if Decode(s) != Fail(Incomplete) {
      DecodeStable(s, more);
      if Decode(s).Got? && h(delivered, Decode(s).packet) == Continue {
        DrainThenReceive(h, s[Decode(s).consumed..], delivered + [Decode(s).packet], more);
      }
    }
  }

  lemma FlattenStep(s: seq<byte>, chunks: seq<seq<byte>>)
    ensures chunks == [] ==> s + Flatten(chunks) == s
    ensures chunks != [] ==> s + Flatten(chunks) == (s + chunks[0]) + Flatten(chunks[1..])
  {
  }

  lemma {:induction false} ReceivesFromDrain(h: Handler, st: RecvState, s: seq<byte>, chunks: seq<seq<byte>>)
    requires st == Drain(h, s, [])
    ensures OnReceives(h, st, chunks) == Drain(h, s + Flatten(chunks), [])
    decreases |chunks|
  {
    FlattenStep(s, chunks);
    if chunks != [] {
      DrainThenReceive(h, s, [], chunks[0]);
      ReceivesFromDrain(h, OnReceive(h, st, chunks[0]), s + chunks[0], chunks[1..]);
    }
  }

  /** However a byte stream is cut into receives, the handler is given the same packets in the same order and the
      session ends in the same state: the same residual, or closed for the same reason. */
  lemma ChunkingInvariance(h: Handler, cut: seq<seq<byte>>, otherCut: seq<seq<byte>>)
    requires Flatten(cut) == Flatten(otherCut)
    ensures OnReceives(h, START, cut) == OnReceives(h, START, otherCut) == Drain(h, Flatten(cut), [])
  {
    ReceivesFromDrain(h, START, [], cut);
    ReceivesFromDrain(h, START, [], otherCut);
    assert [] + Flatten(cut) == Flatten(cut);
    assert [] + Flatten(otherCut) == Flatten(otherCut);
  }

  // ---- What the loop computes, said without the loop ----

  predicate AllSendable(ps: seq<Packet>) {
    forall i :: 0 <= i < |ps| ==> Sendable(ps[i])
  }

  function Frames(ps: seq<Packet>): seq<byte>
    requires AllSendable(ps)
  {
    if ps == [] then [] else FrameOf(ps[0]) + Frames(ps[1..])
  }

  /** The handler carries on through all of `ps`, having been given `before`. */
  predicate AllContinue(h: Handler, before: seq<Packet>, ps: seq<Packet>) {
    forall i :: 0 <= i < |ps| ==> h(before + ps[..i], ps[i]) == Continue
  }

  lemma FrameHead(ps: seq<Packet>, rest: seq<byte>)
    requires AllSendable(ps) && ps != []
    ensures Decode(Frames(ps) + rest) == Got(ps[0], |FrameOf(ps[0])|)
    ensures (Frames(ps) + rest)[|FrameOf(ps[0])|..] == Frames(ps[1..]) + rest
  {
    var p := ps[0];
    RoundTrip(p.header.opcode, p.payload, Frames(ps[1..]) + rest);
    assert Frames(ps) + rest == FrameOf(p) + (Frames(ps[1..]) + rest);
  }

  lemma AllContinueStep(h: Handler, before: seq<Packet>, ps: seq<Packet>)
    requires ps != []
    ensures AllContinue(h, before, ps) <==>
            h(before, ps[0]) == Continue && AllContinue(h, before + [ps[0]], ps[1..])
  {
    assert before + ps[..0] == before;
    var tail := ps[1..];
    forall i | 0 <= i < |tail|
      ensures before + [ps[0]] + tail[..i] == before + ps[..i + 1]
    {
    }
    if h(before, ps[0]) == Continue && AllContinue(h, before + [ps[0]], tail) {
      forall i | 0 <= i < |ps| ensures h(before + ps[..i], ps[i]) == Continue {
        if i > 0 {
          assert h(before + [ps[0]] + tail[..i - 1], tail[i - 1]) == Continue;
        }
      }
    }
    if AllContinue(h, before, ps) {
      forall i | 0 <= i < |tail| ensures h(before + [ps[0]] + tail[..i], tail[i]) == Continue {
        assert h(before + ps[..i + 1], ps[i + 1]) == Continue;
      }
    }
  }

  lemma {:induction false} DrainOfFrames(h: Handler, ps: seq<Packet>, rest: seq<byte>, before: seq<Packet>)
    requires AllSendable(ps) && AllContinue(h, before, ps)
    ensures Drain(h, Frames(ps) + rest, before) == Drain(h, rest, before + ps)
    decreases |ps|
  {
    if ps == [] {
      assert Frames(ps) + rest == rest;
      assert before + ps == before;
    } else {
      FrameHead(ps, rest);
      AllContinueStep(h, before, ps);
      DrainOfFrames(h, ps[1..], rest, before + [ps[0]]);
      assert before + [ps[0]] + ps[1..] == before + ps;
    }
  }

  lemma StructureStep(p: Packet, ps: seq<Packet>, rest: seq<byte>)
    requires Sendable(p) && AllSendable(ps)
    ensures AllSendable([p] + ps) && Frames([p] + ps) + rest == FrameOf(p) + (Frames(ps) + rest)
  {
    assert ([p] + ps)[1..] == ps;
  }

  lemma {:induction false} FramesLast(ps: seq<Packet>)
    requires AllSendable(ps) && ps != []
    ensures Frames(ps) == Frames(ps[..|ps| - 1]) + FrameOf(ps[|ps| - 1])
  {
    var init := ps[..|ps| - 1];
    if |ps| == 1 {
      assert Frames(ps[1..]) == [];
    } else {
      FramesLast(ps[1..]);
      assert ps[1..][..|ps| - 2] == init[1..];
    }
  }

  /** The handler's answers to `ps`: it carried on through all of them, or through all but a last one. */
  predicate Answered(h: Handler, before: seq<Packet>, ps: seq<Packet>, st: RecvState) {
    if st.Closed? && st.reason in {HandlerRejected, HandlerClosed} then
      && ps != []
      && AllContinue(h, before, ps[..|ps| - 1])
      && h(before + ps[..|ps| - 1], ps[|ps| - 1]) == (if st.reason == HandlerRejected then Reject else CloseInside)
    else
      AllContinue(h, before, ps)
  }

  /** What the bytes after the delivered packets say about how the loop ended. */
  predicate LeftOver(st: RecvState, rest: seq<byte>) {
    match st
    case Open(residual, _) => residual == rest && Decode(rest) == Fail(Incomplete)
    case Closed(reason, _) =>
      reason in {HandlerRejected, HandlerClosed}
      || (Decode(rest).Fail? && Decode(rest).reason != Incomplete && ReasonOf(Decode(rest).reason) == reason)
  }

  /** How a stream splits: the packets delivered, then the bytes left. */
  ghost predicate Splits(h: Handler, s: seq<byte>, before: seq<Packet>, ps: seq<Packet>, rest: seq<byte>) {
    && AllSendable(ps)
    && s == Frames(ps) + rest
    && Drain(h, s, before).delivered == before + ps
    && Answered(h, before, ps, Drain(h, s, before))
    && LeftOver(Drain(h, s, before), rest)
  }

  lemma SplitStop(h: Handler, s: seq<byte>, before: seq<Packet>)
    requires Decode(s).Fail?
    ensures Splits(h, s, before, [], s)
  {
  }

  lemma AnsweredStep(h: Handler, before: seq<Packet>, p: Packet, ps: seq<Packet>, st: RecvState)
    requires h(before, p) == Continue && Answered(h, before + [p], ps, st)
    ensures Answered(h, before, [p] + ps, st)
  {
    hide AllContinue;
    var all := [p] + ps;
    assert all[0] == p && all[1..] == ps;
    AllContinueStep(h, before, all);
    if ps != [] {
      var init := all[..|all| - 1];
      assert init[0] == p && init[1..] == ps[..|ps| - 1];
      AllContinueStep(h, before, init);
      assert before + init == before + [p] + ps[..|ps| - 1];
    }
  }

  lemma SplitStep(h: Handler, s: seq<byte>, before: seq<Packet>, p: Packet, ps: seq<Packet>, rest: seq<byte>)
    requires Decode(s).Got? && Decode(s).packet == p && h(before, p) == Continue
    requires Splits(h, s[Decode(s).consumed..], before + [p], ps, rest)
    ensures Splits(h, s, before, [p] + ps, rest)
  {
    hide Answered, LeftOver, FrameOf;
    var all := [p] + ps;
    var tail := s[Decode(s).consumed..];
    assert AllSendable(all) && s == Frames(all) + rest by {
      DecodeSound(s);
      StructureStep(p, ps, rest);
    }
    assert before + all == before + [p] + ps;
    assert Drain(h, s, before) == Drain(h, tail, before + [p]);
    AnsweredStep(h, before, p, ps, Drain(h, s, before));
  }

  lemma SplitRefused(h: Handler, s: seq<byte>, before: seq<Packet>, p: Packet)
    requires Decode(s).Got? && Decode(s).packet == p && h(before, p) != Continue
    ensures Splits(h, s, before, [p], s[Decode(s).consumed..])
  {
    DecodeSound(s);
    StructureStep(p, [], s[Decode(s).consumed..]);
    assert [p] + [] == [p];
    assert before + [p][..0] == before;
  }

  lemma {:induction false} DrainStructure(h: Handler, s: seq<byte>, before: seq<Packet>)
    returns (ps: seq<Packet>, rest: seq<byte>)
    ensures Splits(h, s, before, ps, rest)
    decreases |s|
  {
    match Decode(s)
    case Fail(_) =>
      ps, rest := [], s;
      SplitStop(h, s, before);
    case Got(p, n) =>
      if h(before, p) == Continue {
        ps, rest := DrainStructure(h, s[n..], before + [p]);
        SplitStep(h, s, before, p, ps, rest);
        ps := [p] + ps;
      } else {
        ps, rest := [p], s[n..];
        SplitRefused(h, s, before, p);
      }
  }

  lemma DrainLast(h: Handler, before: seq<Packet>, last: Packet, rest: seq<byte>)
    requires Sendable(last) && h(before, last) != Continue
    ensures Drain(h, FrameOf(last) + rest, before) ==
            Closed(if h(before, last) == Reject then HandlerRejected else HandlerClosed, before + [last])
  {
    RoundTrip(last.header.opcode, last.payload, rest);
  }

  lemma DrainStopped(h: Handler, s: seq<byte>, init: seq<Packet>, last: Packet, rest: seq<byte>)
    requires AllSendable(init) && Sendable(last) && AllContinue(h, [], init) && h(init, last) != Continue
    requires s == Frames(init) + (FrameOf(last) + rest)
    ensures Drain(h, s, []) ==
            Closed(if h(init, last) == Reject then HandlerRejected else HandlerClosed, init + [last])
  {
    assert [] + init == init;
    DrainLast(h, init, last, rest);
    DrainOfFrames(h, init, FrameOf(last) + rest, []);
  }

  lemma StoppedSplit(ps: seq<Packet>, rest: seq<byte>)
    requires AllSendable(ps) && ps != []
    ensures var init, last := ps[..|ps| - 1], ps[|ps| - 1];
            && Frames(ps) + rest == Frames(init) + (FrameOf(last) + rest)
            && ps == init + [last]
  {
    FramesLast(ps);
  }

  lemma DrainFromStructure(h: Handler, s: seq<byte>, st: RecvState, rest: seq<byte>)
    requires AllSendable(st.delivered) && Answered(h, [], st.delivered, st)
    requires s == Frames(st.delivered) + rest && LeftOver(st, rest)
    ensures Drain(h, s, []) == st
  {
    var ps := st.delivered;
    if st.Closed? && st.reason in {HandlerRejected, HandlerClosed} {
      var init, last := ps[..|ps| - 1], ps[|ps| - 1];
      StoppedSplit(ps, rest);
      assert [] + init == init;
      DrainStopped(h, s, init, last, rest);
    } else {
      assert [] + ps == ps;
      DrainOfFrames(h, ps, rest, []);
    }
  }

  /** The loop ends in `st` exactly when the stream is the frames of the packets delivered and then some rest,
      the handler answered those packets so, and the rest is undecodable in the way `st` says. */
  lemma DrainExactly(h: Handler, s: seq<byte>, st: RecvState)
    ensures Drain(h, s, []) == st <==>
            && AllSendable(st.delivered)
            && Answered(h, [], st.delivered, st)
            && exists rest :: s == Frames(st.delivered) + rest && LeftOver(st, rest)
  {
    if Drain(h, s, []) == st {
      var ps, rest := DrainStructure(h, s, []);
      assert ps == [] + ps == st.delivered;
      assert s == Frames(st.delivered) + rest && LeftOver(st, rest);
    } else if AllSendable(st.delivered) && Answered(h, [], st.delivered, st) {
      forall rest | s == Frames(st.delivered) + rest && LeftOver(st, rest)
        ensures false
      {
        DrainFromStructure(h, s, st, rest);
      }
    }
  }

  /** Between receives at most MAX_PACKET_SIZE - 1 bytes wait, so with receives of at most `post` bytes the
      stream never holds more than MAX_PACKET_SIZE - 1 + post bytes. */
  lemma StreamBound(h: Handler, chunks: seq<seq<byte>>, next: seq<byte>, post: nat)
    requires |next| <= post
    requires OnReceives(h, START, chunks).Open?
    ensures |OnReceives(h, START, chunks).residual| <= MAX_PACKET_SIZE - 1
    ensures |OnReceives(h, START, chunks).residual + next| <= MAX_PACKET_SIZE - 1 + post
  {
    ReceivesFromDrain(h, START, [], chunks);
    var s := [] + Flatten(chunks);
    var ps, rest := DrainStructure(h, s, []);
    ResidualBound(rest);
  }

  // ---- A receiver that sees a prefix of what was framed ----

  lemma FrameCut(p: Packet, s: seq<byte>, rest: seq<byte>)
    requires Sendable(p) && s <= FrameOf(p) + rest
    ensures |s| < |FrameOf(p)| ==> Decode(s) == Fail(Incomplete)
    ensures |s| >= |FrameOf(p)| ==>
              && Decode(s) == Got(p, |FrameOf(p)|)
              && s[|FrameOf(p)|..] <= rest
  {
    var f := FrameOf(p);
    if |s| < |f| {
      assert s == f[..|s|];
      if |s| >= HEADER_SIZE {
        IncompleteMeansPrefix(s);
      }
    } else {
      var tail := s[|f|..];
      assert s == f + tail;
      RoundTrip(p.header.opcode, p.payload, tail);
      forall i | 0 <= i < |tail| ensures tail[i] == rest[i] {
        assert s[|f| + i] == (f + rest)[|f| + i];
      }
    }
  }

  lemma PrefixStep(before: seq<Packet>, sent: seq<Packet>)
    requires sent != []
    ensures before <= before + [sent[0]] <= before + sent
    ensures before + [sent[0]] + sent[1..] == before + sent
  {
  }

  /** Fed any prefix of the frames of `sent`, the loop delivers a prefix of `sent`, and only the handler can
      close it. If it is still open, what it has not delivered is less than one frame. */
  lemma {:induction false} PrefixDelivery(h: Handler, sent: seq<Packet>, s: seq<byte>, before: seq<Packet>)
    requires AllSendable(sent) && s <= Frames(sent)
    ensures var st := Drain(h, s, before);
            && before <= st.delivered <= before + sent
            && (st.Closed? ==> st.reason in {HandlerRejected, HandlerClosed})
            && (st.Open? && s == Frames(sent) ==> st.delivered == before + sent && st.residual == [])
    decreases |sent|
  {
    if sent == [] {
      assert s == [];
    } else {
      var p := sent[0];
      var size := |FrameOf(p)|;
      FrameCut(p, s, Frames(sent[1..]));
      if size <= |s| && h(before, p) == Continue {
        assert s == Frames(sent) ==> s[size..] == Frames(sent[1..]);
        PrefixDelivery(h, sent[1..], s[size..], before + [p]);
      }
      PrefixStep(before, sent);
    }
  }
}
