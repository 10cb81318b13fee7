/**
  One frame between a sender and a receiver that run concurrently: every send and every recv is a step of its
  own, in any order, and takes what the plans, the request and the bytes on the wire allow.
 */
module Transfers {
  import opened Chunking
  import opened Framing
  import opened Options

  // ---- the two calls, step by step ----

  /**
    One direction of a connection as a value: what is sent and not yet received, and the position of its first
    byte.
   */
  datatype Wire = Wire(unread: string, pos: nat)

  function EndOf(wire: Wire): nat { wire.pos + |wire.unread| }

  /** Where tcp_message_send stands: before the header, or with this part of the payload left. */
  datatype Sender = AtHeader(payload: string) | AtBody(left: string)

  /** What the next send of the call returns. */
  function SendCall(plan: SendPlan, wire: Wire, sender: Sender): int
  {
    match sender
    case AtHeader(_) => HeaderSent(plan, EndOf(wire))
    case AtBody(left) => Min(AcceptedAt(plan, EndOf(wire)), |left|)
  }

  function Rest(sender: Sender): string
  {
    match sender case AtHeader(payload) => Frame(payload) case AtBody(left) => left
  }

  /** The bytes that a send of k bytes puts on the wire. */
  function Part(sender: Sender, k: nat): string
    requires match sender case AtHeader(_) => k <= 4 case AtBody(left) => k <= |left|
  {
    Rest(sender)[..k]
  }

  /** The sender behind a send that accepted k bytes; a short send of the header is not noticed. */
  function AfterSend(sender: Sender, k: nat): Option<Sender>
    requires match sender case AtHeader(_) => k <= 4 case AtBody(left) => k <= |left|
  {
    var left := match sender case AtHeader(payload) => payload case AtBody(left) => left[k..];
    if left == "" then None else Some(AtBody(left))
  }

  /** Where tcp_message_receive stands behind a recv, given the bytes that it has taken so far. */
  datatype Progress = Receiving(got: string) | Whole(message: string) | ReceiveFailed(ret: int) | BufferLeft

  /** No recv of the loop returns: nothing is there, and neither an error nor an end. */
  predicate Blocked(plan: RecvPlan, wire: Wire)
  {
    wire.unread == "" && EventAt(plan, wire.pos).Deliver?
  }

  /** What the next recv of the call asks for. */
  function NextRequest(size: nat, got: string): nat
  {
    if |got| < 4 then RequestSize(4, 4, |got|) else RequestSize(size, Decode(got[..4]), |got| - 4)
  }

  /** Where the call stands once it has taken these bytes; the receive buffer has `room` bytes. */
  function AfterRecv(size: nat, room: nat, header: bool, got: string): Progress
    requires |got| < 4 ==> header
  {
    if header then
      if |got| < 4 then Receiving(got)
      else if |got| > 4 then BufferLeft
      else if Decode(got) == 0 then Whole("")
      else if size == 0 then ReceiveFailed(0)
      else Receiving(got)
    else
      var n, index := Decode(got[..4]), |got| - 4;
      if index > room then BufferLeft
      else if index < size && index < n then Receiving(got)
      else if index == n then Whole(got[4..])
      else ReceiveFailed(0)
  }

  /** One recv of tcp_message_receive. */
  function RecvStep(plan: RecvPlan, size: nat, room: nat, wire: Wire, got: string): (Wire, Progress)
  {
    var k := RecvAmount(EventAt(plan, wire.pos), |wire.unread|, NextRequest(size, got));
    if k <= 0 then (wire, ReceiveFailed(k))
    else (Wire(wire.unread[k..], wire.pos + k), AfterRecv(size, room, |got| < 4, got + wire.unread[..k]))
  }

  // ---- the same calls as in Framing ----

  /** All recvs of tcp_message_receive in a row, on a stream to which nothing is added. */
  function ReceiveAlone(plan: RecvPlan, size: nat, room: nat, wire: Wire, got: string): RecvRun
    decreases |wire.unread|
  {
    var (next, progress) := RecvStep(plan, size, room, wire, got);
    var taken := |got| + |wire.unread| - |next.unread|;
    match progress
    case Receiving(more) => ReceiveAlone(plan, size, room, next, more)
    case Whole(message) => Returned(|message|, taken)
    case ReceiveFailed(ret) => Returned(ret, taken)
    case BufferLeft => Overrun
  }

  /** The result of tcp_message_receive, given that of receive_tcp_n for the body. */
  function Finish(body: RecvRun, n: nat): RecvRun
  {
    match body
    case Overrun => Overrun
    case Returned(ret, taken) => Returned(if ret <= 0 then ret else if ret != n then 0 else ret, 4 + taken)
  }

  /** One step of the receiver on a stream that is there as a whole. */
  lemma AloneStep(plan: RecvPlan, pos: nat, stream: string, size: nat, room: nat, j: nat)
    requires j <= |stream|
    ensures var request := if j < 4 then RequestSize(4, 4, j) else RequestSize(size, Decode(stream[..4]), j - 4);
            var k := RecvAmount(EventAt(plan, pos + j), |stream| - j, request);
            RecvStep(plan, size, room, Wire(stream[j..], pos + j), stream[..j]) ==
              if k <= 0 then (Wire(stream[j..], pos + j), ReceiveFailed(k))
              else (Wire(stream[j + k..], pos + j + k), AfterRecv(size, room, j < 4, stream[..j + k]))
  {
    hide Decode, RequestSize, AfterRecv;
    if j >= 4 { assert stream[..j][..4] == stream[..4]; }
    var k := RecvAmount(EventAt(plan, pos + j), |stream| - j, NextRequest(size, stream[..j]));
    if k > 0 {
      assert stream[j..][k..] == stream[j + k..];
      assert stream[..j] + stream[j..][..k] == stream[..j + k];
    }
  }

  lemma {:induction false} BodyAlone(plan: RecvPlan, pos: nat, stream: string, size: nat, room: nat, j: nat)
    requires 4 <= j <= |stream| && j - 4 < size && j - 4 < Decode(stream[..4]) && j - 4 <= room
    ensures ReceiveAlone(plan, size, room, Wire(stream[j..], pos + j), stream[..j])
         == Finish(ReceiveRun(plan, pos + 4, stream[4..], j - 4, size, Decode(stream[..4]), room), Decode(stream[..4]))
    decreases |stream| - j
  {
    hide Decode, RequestSize, RecvStep;
    AloneStep(plan, pos, stream, size, room, j);
    var n := Decode(stream[..4]);
    assert (pos + 4) + (j - 4) == pos + j && |stream[4..]| == |stream| - 4;
    var k := RecvAmount(EventAt(plan, pos + j), |stream| - j, RequestSize(size, n, j - 4));
    if k > 0 {
      assert stream[..j + k][..4] == stream[..4];
      if j + k - 4 <= room && j + k - 4 < size && j + k - 4 < n {
        BodyAlone(plan, pos, stream, size, room, j + k);
      }
    }
  }

  /** A header is read as a whole or not at all: a positive result is always 4. */
  lemma {:induction false} HeaderIsFour(plan: RecvPlan, pos: nat, stream: string, j: nat)
    requires j <= |stream| && j <= 4
    ensures var head := ReceiveRun(plan, pos, stream, j, 4, 4, 4);
            head.Returned? && head.ret > 0 ==> head.ret == 4
    decreases 4 - j
  {
    hide RequestSize;
    var k := RecvAmount(EventAt(plan, pos + j), |stream| - j, RequestSize(4, 4, j));
    if j < 4 && k > 0 && j + k <= 4 {
      HeaderIsFour(plan, pos, stream, j + k);
    }
  }

  lemma {:induction false} HeaderAlone(plan: RecvPlan, pos: nat, stream: string, size: nat, room: nat, j: nat)
    requires j < 4 && j <= |stream|
    ensures var head := ReceiveRun(plan, pos, stream, j, 4, 4, 4);
            ReceiveAlone(plan, size, room, Wire(stream[j..], pos + j), stream[..j]) ==
              if head.Overrun? || head.ret != 4 then head
              else
                var n := Decode(stream[..4]);
                Finish(ReceiveRun(plan, pos + 4, stream[4..], 0, size, n, room), n)
    decreases |stream| - j
  {
    hide Decode, RequestSize, RecvStep;
    AloneStep(plan, pos, stream, size, room, j);
    HeaderIsFour(plan, pos, stream, j);
    var k := RecvAmount(EventAt(plan, pos + j), |stream| - j, RequestSize(4, 4, j));
    if k > 0 {
      if j + k < 4 {
        HeaderAlone(plan, pos, stream, size, room, j + k);
      } else if j + k == 4 && Decode(stream[..4]) > 0 && size > 0 {
        BodyAlone(plan, pos, stream, size, room, 4);
      }
    }
  }

  /** Without a sender beside it, the step by step receiver is tcp_message_receive. */
  lemma AloneIsMessage(plan: RecvPlan, pos: nat, stream: string, size: nat, room: nat)
    ensures ReceiveAlone(plan, size, room, Wire(stream, pos), "") == ReceiveMessage(plan, pos, stream, size, room)
  {
    hide Decode, RequestSize, ReceiveRun, ReceiveAlone;
    HeaderIsFour(plan, pos, stream, 0);
    HeaderAlone(plan, pos, stream, size, room, 0);
    assert stream[0..] == stream && stream[..0] == "";
  }

  /**
    tcp_message_receive: -1 is an error of a recv, a 0 is none unless nothing was left to ask for, and a connection
    that is closed or broken before the first byte gives 0 or -1.
   */
  lemma WhyNothingArrives(plan: RecvPlan, pos: nat, stream: string, bufferSize: nat, room: nat)
    ensures var run := ReceiveMessage(plan, pos, stream, bufferSize, room);
            && (run.Returned? && run.ret == -1 ==> EventAt(plan, pos + run.taken).Fail?)
            && (run.Returned? && run.ret == 0 && EventAt(plan, pos + run.taken).Fail? ==>
                  4 <= run.taken && (Decode(stream[..4]) <= run.taken - 4 || bufferSize <= run.taken - 4))
            && (EventAt(plan, pos).Close? ==> run == Returned(0, 0))
            && (EventAt(plan, pos).Fail? ==> run == Returned(-1, 0))
  {
    hide RequestSize, Decode, ReceiveRun;
    WhyItStops(plan, pos, stream, 0, 4, 4, 4);
    HeaderIsFour(plan, pos, stream, 0);
    FirstRecv(plan, pos, stream);
    var head := ReceiveRun(plan, pos, stream, 0, 4, 4, 4);
    if head.Returned? && head.ret == 4 {
      var n := Decode(stream[..4]);
      assert (pos + 4) + 0 == pos + 4;
      BodyEnds(plan, pos + 4, stream[4..], bufferSize, n, room);
      if bufferSize > 0 && n > 0 { WhyItStops(plan, pos + 4, stream[4..], 0, bufferSize, n, room); }
    }
  }

  lemma {:induction false} BodyEnds(plan: RecvPlan, pos: nat, stream: string, bufferSize: nat, n: nat, room: nat)
    ensures var run := ReceiveRun(plan, pos, stream, 0, bufferSize, n, room);
            && (bufferSize == 0 || n == 0 ==> run == Returned(0, 0))
            && (run.Returned? && run.ret > 0 ==> run.ret == run.taken && (bufferSize <= run.taken || n <= run.taken))
  {
    LoopEnds(plan, pos, stream, 0, bufferSize, n, room);
  }

  lemma {:induction false} LoopEnds(plan: RecvPlan, pos: nat, stream: string, index: nat, bufferSize: nat, n: nat,
                                    room: nat)
    requires index <= |stream| && index <= room
    ensures var run := ReceiveRun(plan, pos, stream, index, bufferSize, n, room);
            run.Returned? && run.ret > 0 ==> run.ret == run.taken && (bufferSize <= run.taken || n <= run.taken)
    decreases n - index
  {
    hide RequestSize;
    if index < bufferSize && index < n {
      var got := RecvAmount(EventAt(plan, pos + index), |stream| - index, RequestSize(bufferSize, n, index));
      if got > 0 && index + got <= room {
        LoopEnds(plan, pos, stream, index + got, bufferSize, n, room);
      }
    }
  }

  lemma FirstRecv(plan: RecvPlan, pos: nat, stream: string)
    ensures EventAt(plan, pos).Close? ==> ReceiveRun(plan, pos, stream, 0, 4, 4, 4) == Returned(0, 0)
    ensures EventAt(plan, pos).Fail? ==> ReceiveRun(plan, pos, stream, 0, 4, 4, 4) == Returned(-1, 0)
  {
  }

  /** All sends of tcp_message_send in a row: its result, and what it puts on a wire that ends at position q. */
  function SendAlone(plan: SendPlan, q: nat, sender: Sender): (int, string)
    decreases if sender.AtHeader? then 1 else 0, |Rest(sender)|
  {
    var k := SendCall(plan, Wire("", q), sender);
    if k <= 0 then (k, "")
    else match AfterSend(sender, k)
      case None => (1, Part(sender, k))
      case Some(more) =>
        var (ret, later) := SendAlone(plan, q + k, more);
        (ret, Part(sender, k) + later)
  }

  lemma {:induction false} BodySendsAlone(plan: SendPlan, q: nat, data: string, sent: nat)
    requires sent < |data|
    ensures var run := SendLoop(plan, q, |data|, sent);
            SendAlone(plan, q + sent, AtBody(data[sent..])) == (run.ret, data[sent..run.sent])
    decreases |data| - sent
  {
    hide SendAlone;
    var k, from, run := Min(AcceptedAt(plan, q + sent), |data| - sent), q + sent, SendLoop(plan, q, |data|, sent);
    SendAloneStep(plan, from, data[sent..]);
    if k > 0 {
      assert data[sent..][..k] == data[sent..sent + k] && data[sent..][k..] == data[sent + k..];
      if sent + k < |data| {
        BodySendsAlone(plan, q, data, sent + k);
        assert data[sent..sent + k] + data[sent + k..run.sent] == data[sent..run.sent];
        assert from + k == q + (sent + k);
      } else {
        assert SendLoop(plan, q, |data|, sent + k) == SendRun(1, |data|);
        assert data[sent..|data|] == data[sent..];
      }
    } else {
      assert data[sent..run.sent] == "";
    }
  }

  lemma SendAloneStep(plan: SendPlan, q: nat, data: string)
    ensures var k := Min(AcceptedAt(plan, q), |data|);
            SendAlone(plan, q, AtBody(data)) ==
              if k <= 0 then (k, "")
              else if k == |data| then (1, data)
              else
                var (ret, later) := SendAlone(plan, q + k, AtBody(data[k..]));
                (ret, data[..k] + later)
  {
    assert data[..|data|] == data;
    assert EndOf(Wire("", q)) == q;
  }

  lemma HeaderSendsAlone(plan: SendPlan, q: nat, payload: string)
    ensures var k := HeaderSent(plan, q);
            SendAlone(plan, q, AtHeader(payload)) ==
              if k <= 0 then (k, "")
              else if payload == "" then (1, Frame(payload)[..k])
              else
                var (ret, later) := SendAlone(plan, q + k, AtBody(payload));
                (ret, Frame(payload)[..k] + later)
  {
    hide Header;
    assert EndOf(Wire("", q)) == q;
  }

  /** The step by step sender, with nothing beside it, is tcp_message_send. */
  lemma SendAloneIsMessage(plan: SendPlan, q: nat, payload: string)
    ensures SendAlone(plan, q, AtHeader(payload)) == (SendRet(plan, q, payload), SendWire(plan, q, payload))
  {
    hide Header, SendAlone;
    var k := HeaderSent(plan, q);
    HeaderSendsAlone(plan, q, payload);
    if k > 0 {
      assert Frame(payload)[..k] == Header(|payload|)[..k];
      if payload != "" {
        BodySendsAlone(plan, q + k, payload, 0);
        var sent := SendLoop(plan, q + k, |payload|, 0).sent;
        assert payload[0..] == payload && payload[0..sent] == payload[..sent] && q + k + 0 == q + k;
      } else {
        assert Header(0)[..k] + payload[..0] == Header(0)[..k];
      }
    }
  }

  // ---- one frame ----

  /** A direction of a connection: its plans, the buffer size that the receiver passes, and its real buffer. */
  datatype Link = Link(recvPlan: RecvPlan, sendPlan: SendPlan, size: nat, room: nat)

  datatype Transfer = Transfer(wire: Wire, out: Option<Sender>, got: string)

  datatype Turn = SenderTurn | ReceiverTurn

  predicate Possible(link: Link, t: Transfer, turn: Turn)
  {
    match turn
    case SenderTurn => t.out.Some?
    case ReceiverTurn => !Blocked(link.recvPlan, t.wire)
  }

  datatype Outcome = Moving(t: Transfer) | Delivered(message: string, t: Transfer) | Failed

  function Move(link: Link, t: Transfer, turn: Turn): Outcome
    requires Possible(link, t, turn)
  {
    match turn
    case SenderTurn =>
      var k := SendCall(link.sendPlan, t.wire, t.out.value);
      if k <= 0 || (t.out.value.AtHeader? && k < 4) then Failed
      else Moving(t.(wire := t.wire.(unread := t.wire.unread + Part(t.out.value, k)), out := AfterSend(t.out.value, k)))
    case ReceiverTurn =>
      var (wire, received) := RecvStep(link.recvPlan, link.size, link.room, t.wire, t.got);
      match received
      case Receiving(got) => Moving(t.(wire := wire, got := got))
      case Whole(message) => Delivered(message, t.(wire := wire, got := ""))
      case _ => Failed
  }

  /** The run fails with its last turn. */
  predicate Fails(link: Link, t: Transfer, turns: seq<Turn>)
    decreases |turns|
  {
    && turns != [] && Possible(link, t, turns[0])
    && match Move(link, t, turns[0])
       case Failed => |turns| == 1
       case Moving(next) => Fails(link, next, turns[1..])
       case Delivered(_, _) => false
  }

  ghost predicate CanFail(link: Link, t: Transfer) { exists turns :: Fails(link, t, turns) }

  lemma CanFailStep(link: Link, t: Transfer, turn: Turn)
    requires Possible(link, t, turn)
    requires Move(link, t, turn).Failed? || (Move(link, t, turn).Moving? && CanFail(link, Move(link, t, turn).t))
    ensures CanFail(link, t)
  {
    if Move(link, t, turn).Failed? {
      assert Fails(link, t, [turn]);
    } else {
      var next := Move(link, t, turn).t;
      var turns :| Fails(link, next, turns);
      assert ([turn] + turns)[1..] == turns;
      assert Fails(link, t, [turn] + turns);
    }
  }

  // ---- the states of a transfer ----

  /** The frame of the payload, sent up to index s and received up to index j. */
  function StateAt(pos: nat, payload: string, j: nat, s: nat): Transfer
    requires j <= s && (s == 0 || 4 <= s <= 4 + |payload|)
  {
    Transfer(Wire(Frame(payload)[j..s], pos + j),
             if s == 0 then Some(AtHeader(payload))
             else if s < 4 + |payload| then Some(AtBody(payload[s - 4..]))
             else None,
             Frame(payload)[..j])
  }

  /** The receiving call is still in its header, or in its body and its loop goes on. */
  predicate Open(size: nat, n: nat, j: nat)
  {
    j < 4 || (j - 4 < size && j - 4 < n)
  }

  ghost predicate OkLink(link: Link, payload: string)
  {
    |payload| < INT32 && 0 < link.size < INT32 && |payload| <= link.room
  }

  lemma FrameBytes(payload: string)
    requires |payload| < UINT32
    ensures |Frame(payload)| == 4 + |payload| && Frame(payload)[..4] == Header(|payload|) &&
        Frame(payload)[4..] == payload
    ensures Decode(Frame(payload)[..4]) == |payload|
  {
    DecodeHeader(|payload|);
  }

  lemma MoreSent(payload: string, j: nat, s: nat, k: nat)
    requires |payload| < UINT32 && j <= s && 4 <= s && s + k <= 4 + |payload|
    ensures |Frame(payload)| == 4 + |payload|
    ensures Frame(payload)[j..s] + payload[s - 4..][..k] == Frame(payload)[j..s + k]
    ensures payload[s - 4..][k..] == payload[s + k - 4..] && (payload[s + k - 4..] == "" <==> s + k == 4 + |payload|)
  {
    FrameBytes(payload);
    var frame := Frame(payload);
    hide Frame;
    assert payload[s - 4..] == frame[s..];
    assert frame[s..][..k] == frame[s..s + k];
    assert frame[j..s] + frame[s..s + k] == frame[j..s + k];
  }

  lemma MoreTaken(payload: string, j: nat, s: nat, k: nat)
    requires |payload| < UINT32 && j + k <= s <= 4 + |payload|
    ensures |Frame(payload)| == 4 + |payload|
    ensures Frame(payload)[..j] + Frame(payload)[j..s][..k] == Frame(payload)[..j + k]
    ensures Frame(payload)[j..s][k..] == Frame(payload)[j + k..s]
    ensures j + k == 4 + |payload| ==> Frame(payload)[..j + k][4..] == payload
  {
    FrameBytes(payload);
    var frame := Frame(payload);
    hide Frame;
    assert frame[j..s][..k] == frame[j..j + k];
    assert frame[..j] + frame[j..j + k] == frame[..j + k];
    if j + k == 4 + |payload| { assert frame[..j + k] == frame; }
  }

  /** What the receiver knows from the first j bytes of a frame. */
  lemma KnownSize(payload: string, j: nat)
    requires |payload| < UINT32 && j <= 4 + |payload|
    ensures |Frame(payload)| == 4 + |payload|
    ensures j >= 4 ==> Decode(Frame(payload)[..j][..4]) == |payload|
    ensures j == 4 ==> Decode(Frame(payload)[..j]) == |payload|
  {
    FrameBytes(payload);
    if j >= 4 { assert Frame(payload)[..j][..4] == Frame(payload)[..4]; }
  }

  lemma HeaderMoves(link: Link, pos: nat, payload: string)
    requires OkLink(link, payload)
    ensures |Frame(payload)| == 4 + |payload|
    ensures Move(link, StateAt(pos, payload, 0, 0), SenderTurn) ==
              if AcceptedAt(link.sendPlan, pos) < 4 then Failed else Moving(StateAt(pos, payload, 0, 4))
  {
    FrameBytes(payload);
    var frame := Frame(payload);
    hide Frame, Header;
    assert frame[0..0] + frame[..4] == frame[0..4];
    assert payload[0..] == payload;
  }

  lemma BodyMoves(link: Link, pos: nat, payload: string, j: nat, s: nat)
    requires OkLink(link, payload) && j <= s && 4 <= s < 4 + |payload|
    ensures |Frame(payload)| == 4 + |payload|
    ensures Move(link, StateAt(pos, payload, j, s), SenderTurn) ==
              var a := AcceptedAt(link.sendPlan, pos + s);
              if a <= 0 then Failed else Moving(StateAt(pos, payload, j, Min(s + a, 4 + |payload|)))
  {
    hide Frame, AcceptedAt;
    var a := AcceptedAt(link.sendPlan, pos + s);
    var k := if a > 0 then Min(a, |payload| + 4 - s) else 0;
    MoreSent(payload, j, s, k);
    var t := StateAt(pos, payload, j, s);
    assert EndOf(t.wire) == pos + s && t.out == Some(AtBody(payload[s - 4..]));
    assert SendCall(link.sendPlan, t.wire, t.out.value) == if a > 0 then k else a;
  }

  /** The sender's step from index s: to the end of the header, or on by what the plan accepts. */
  lemma SenderMoves(link: Link, pos: nat, payload: string, j: nat, s: nat)
    requires OkLink(link, payload) && j <= s && (s == 0 || 4 <= s < 4 + |payload|)
    ensures |Frame(payload)| == 4 + |payload|
    ensures var t, a := StateAt(pos, payload, j, s), AcceptedAt(link.sendPlan, pos + s);
            && Possible(link, t, SenderTurn)
            && Move(link, t, SenderTurn) ==
                 if s == 0 then (if a < 4 then Failed else Moving(StateAt(pos, payload, j, 4)))
                 else if a <= 0 then Failed else Moving(StateAt(pos, payload, j, Min(s + a, 4 + |payload|)))
  {
    hide Move, Frame;
    if s == 0 {
      HeaderMoves(link, pos, payload);
    } else {
      BodyMoves(link, pos, payload, j, s);
    }
  }

  /** The bytes that the recv at index j of the frame takes. */
  function Taken(link: Link, pos: nat, n: nat, j: nat, s: nat): int
    requires j <= s
  {
    RecvAmount(EventAt(link.recvPlan, pos + j), s - j,
               if j < 4 then RequestSize(4, 4, j) else RequestSize(link.size, n, j - 4))
  }

  /** The receiver's step from index j. */
  lemma ReceiverMoves(link: Link, pos: nat, payload: string, j: nat, s: nat)
    requires OkLink(link, payload) && j <= s && (s == 0 || 4 <= s <= 4 + |payload|) && Open(link.size, |payload|, j)
    ensures |Frame(payload)| == 4 + |payload|
    ensures var t, n, k := StateAt(pos, payload, j, s), |payload|, Taken(link, pos, |payload|, j, s);
            && (Possible(link, t, ReceiverTurn) <==> j < s || !EventAt(link.recvPlan, pos + j).Deliver?)
            && (Possible(link, t, ReceiverTurn) ==>
                  Move(link, t, ReceiverTurn) ==
                    if k <= 0 || (j < 4 && j + k > 4) then Failed
                    else if Open(link.size, n, j + k) then Moving(StateAt(pos, payload, j + k, s))
                    else if j + k == 4 + n then Delivered(payload, StateAt(pos, payload, j + k, s).(got := ""))
                    else Failed)
  {
    hide Decode, Header, RequestSize, Frame, Taken, RecvStep, AfterRecv;
    var k := Taken(link, pos, |payload|, j, s);
    KnownSize(payload, j);
    assert |Frame(payload)[j..s]| == s - j;
    ReceiverCalls(link, pos, payload, j, s);
    if k > 0 { AfterTaken(link, payload, j, k); }
  }

  /** Its recv. */
  lemma ReceiverCalls(link: Link, pos: nat, payload: string, j: nat, s: nat)
    requires OkLink(link, payload) && j <= s && (s == 0 || 4 <= s <= 4 + |payload|)
    ensures |Frame(payload)| == 4 + |payload|
    ensures Taken(link, pos, |payload|, j, s) <= s - j
    ensures var frame, k := Frame(payload), Taken(link, pos, |payload|, j, s);
            RecvStep(link.recvPlan, link.size, link.room, Wire(frame[j..s], pos + j), frame[..j]) ==
              if k <= 0 then (Wire(frame[j..s], pos + j), ReceiveFailed(k))
              else (Wire(frame[j + k..s], pos + j + k), AfterRecv(link.size, link.room, j < 4, frame[..j + k]))
  {
    hide Decode, Header, RequestSize, Frame, AfterRecv, RecvStep;
    var frame, k := Frame(payload), Taken(link, pos, |payload|, j, s);
    KnownSize(payload, j);
    var sent := frame[..s];
    assert sent[j..] == frame[j..s] && sent[..j] == frame[..j] && |sent| == s;
    if j >= 4 { assert sent[..4] == frame[..j][..4]; }
    AloneStep(link.recvPlan, pos, sent, link.size, link.room, j);
    if k > 0 { assert sent[j + k..] == frame[j + k..s] && sent[..j + k] == frame[..j + k]; }
  }

  /** Where the call then stands. */
  lemma AfterTaken(link: Link, payload: string, j: nat, k: nat)
    requires OkLink(link, payload) && Open(link.size, |payload|, j) && k > 0 && j + k <= 4 + |payload|
    ensures |Frame(payload)| == 4 + |payload|
    ensures var n, got := |payload|, Frame(payload)[..j + k];
            AfterRecv(link.size, link.room, j < 4, got) ==
              if j < 4 && j + k > 4 then BufferLeft
              else if Open(link.size, n, j + k) then Receiving(got)
              else if j + k == 4 + n then Whole(payload)
              else ReceiveFailed(0)
  {
    hide Decode, Header, Frame;
    KnownSize(payload, j + k);
    if j + k == 4 + |payload| {
      MoreTaken(payload, j, j + k, k);
    }
  }

  // ---- every schedule ----

  /**
    Where a transfer of a frame that always gets through can be: in a header of good pieces, or where its loop
    can come to.
   */
  ghost predicate OnTheWay(link: Link, pos: nat, n: nat, j: nat, s: nat)
  {
    && j <= s && (s == 0 || (s >= 4 && s - 4 <= n && s - 4 in Cuts(link.sendPlan, pos + 4, n))) && Open(link.size, n, j)
    && (j == 1 ==> EventAt(link.recvPlan, pos) == Deliver(1))
    && j != 2
    && (j == 3 ==> EventAt(link.recvPlan, pos).Deliver? && EventAt(link.recvPlan, pos).most < 4)
    && (j >= 4 ==> Reaches(link.recvPlan, pos + 4, link.size, n, Cuts(link.sendPlan, pos + 4, n), j - 4))
  }

  lemma SenderOnTheWay(link: Link, pos: nat, n: nat, j: nat, s: nat)
    requires FrameAlwaysOk(link.recvPlan, link.sendPlan, pos, n, link.size) && OnTheWay(link, pos, n, j, s) && s < 4 + n
    ensures var a := AcceptedAt(link.sendPlan, pos + s);
            if s == 0 then a >= 4 && OnTheWay(link, pos, n, j, 4)
            else a > 0 && OnTheWay(link, pos, n, j, Min(s + a, 4 + n))
  {
    hide Reaches, Open, HeaderOk, BodyOk;
    if s > 0 {
      CutAfter(link.sendPlan, pos + 4, n, 0, s - 4);
    }
  }

  /** The next cut behind a cut. */
  lemma {:induction false} CutAfter(plan: SendPlan, q: nat, n: nat, from: nat, c: nat)
    requires c in CutsFrom(plan, q, n, from) && c < n && SendsOkFrom(plan, q, n, from)
    ensures AcceptedAt(plan, q + c) > 0 && Min(c + AcceptedAt(plan, q + c), n) in CutsFrom(plan, q, n, from)
    decreases n - from
  {
    if c != from {
      SendsOkStep(plan, q, n, from);
      CutAfter(plan, q, n, Min(from + AcceptedAt(plan, q + from), n), c);
    } else {
      assert Min(c + AcceptedAt(plan, q + c), n) in CutsFrom(plan, q, n, Min(c + AcceptedAt(plan, q + c), n));
    }
  }

  lemma HeaderOnTheWay(link: Link, pos: nat, n: nat, j: nat, s: nat)
    requires FrameAlwaysOk(link.recvPlan, link.sendPlan, pos, n, link.size) && OnTheWay(link, pos, n, j, s) && j < 4
    requires j < s || !EventAt(link.recvPlan, pos + j).Deliver?
    ensures var k := Taken(link, pos, n, j, s);
            k > 0 && j + k <= 4 && (Open(link.size, n, j + k) ==> OnTheWay(link, pos, n, j + k, s)) &&
            (!Open(link.size, n, j + k) ==> j + k == 4 + n)
  {
    hide BodyOk, Cuts, SendsOk;
    HeaderRequests();
  }

  lemma BodyOnTheWay(link: Link, pos: nat, n: nat, j: nat, s: nat)
    requires FrameAlwaysOk(link.recvPlan, link.sendPlan, pos, n, link.size) && OnTheWay(link, pos, n, j, s) && j >= 4
    requires j < s || !EventAt(link.recvPlan, pos + j).Deliver?
    ensures var k := Taken(link, pos, n, j, s);
            k > 0 && (Open(link.size, n, j + k) ==> OnTheWay(link, pos, n, j + k, s)) &&
            (!Open(link.size, n, j + k) ==> j + k == 4 + n)
  {
    hide HeaderOk, Cuts, SendsOk;
    var i, c, q := j - 4, s - 4, pos + 4;
    assert GoesOn(link.recvPlan, q, link.size, n, i);
    RequestSmall(link.size, n, i);
    var next := Min(i + Piece(link.recvPlan, q, link.size, n, i), c);
    assert q + i == pos + j;
    assert Taken(link, pos, n, j, s) == next - i;
    assert Reaches(link.recvPlan, q, link.size, n, Cuts(link.sendPlan, q, n), next);
    if next < n {
      assert GoesOn(link.recvPlan, q, link.size, n, next);
    }
  }

  /** A frame whose pieces and cuts are right gets through in every schedule. */
  lemma {:induction false} GoodNeverFails(link: Link, pos: nat, payload: string, j: nat, s: nat, turns: seq<Turn>)
    requires OkLink(link, payload) && FrameAlwaysOk(link.recvPlan, link.sendPlan, pos, |payload|, link.size)
    requires OnTheWay(link, pos, |payload|, j, s)
    ensures !Fails(link, StateAt(pos, payload, j, s), turns)
    decreases |turns|
  {
    hide FrameAlwaysOk, OnTheWay, Move, Frame, StateAt;
    OnTheWayBounds(link, pos, |payload|, j, s);
    var n, t := |payload|, StateAt(pos, payload, j, s);
    if turns != [] && Possible(link, t, turns[0]) {
      match turns[0] {
        case SenderTurn =>
          SenderStillSending(link, pos, payload, j, s);
          SenderMoves(link, pos, payload, j, s);
          SenderOnTheWay(link, pos, n, j, s);
          var s' := if s == 0 then 4 else Min(s + AcceptedAt(link.sendPlan, pos + s), 4 + n);
          GoodNeverFails(link, pos, payload, j, s', turns[1..]);
        case ReceiverTurn =>
          ReceiverMoves(link, pos, payload, j, s);
          if j < 4 { HeaderOnTheWay(link, pos, n, j, s); } else { BodyOnTheWay(link, pos, n, j, s); }
          var j' := j + Taken(link, pos, n, j, s);
          if Open(link.size, n, j') {
            GoodNeverFails(link, pos, payload, j', s, turns[1..]);
          }
      }
    }
  }

  lemma OnTheWayBounds(link: Link, pos: nat, n: nat, j: nat, s: nat)
    requires OnTheWay(link, pos, n, j, s)
    ensures j <= s && (s == 0 || 4 <= s <= 4 + n) && Open(link.size, n, j)
  {
  }

  lemma SenderStillSending(link: Link, pos: nat, payload: string, j: nat, s: nat)
    requires j <= s && (s == 0 || 4 <= s <= 4 + |payload|)
    ensures Possible(link, StateAt(pos, payload, j, s), SenderTurn) ==> s < 4 + |payload|
  {
  }

  // ---- a schedule that fails ----

  /** The transfer can fail once j bytes have been received and s bytes have been sent. */
  ghost predicate FailsFrom(link: Link, pos: nat, payload: string, j: nat, s: nat)
  {
    j <= s && (s == 0 || 4 <= s <= 4 + |payload|) && CanFail(link, StateAt(pos, payload, j, s))
  }

  lemma FailsBeforeSend(link: Link, pos: nat, payload: string, j: nat, s: nat)
    requires OkLink(link, payload) && j <= s && (s == 0 || 4 <= s < 4 + |payload|)
    requires var a := AcceptedAt(link.sendPlan, pos + s);
             if s == 0 then a < 4 || FailsFrom(link, pos, payload, j, 4)
             else a <= 0 || FailsFrom(link, pos, payload, j, Min(s + a, 4 + |payload|))
    ensures FailsFrom(link, pos, payload, j, s)
  {
    hide Move, StateAt, Fails;
    SenderMoves(link, pos, payload, j, s);
    CanFailStep(link, StateAt(pos, payload, j, s), SenderTurn);
  }

  lemma FailsBeforeRecv(link: Link, pos: nat, payload: string, j: nat, s: nat)
    requires OkLink(link, payload) && j <= s && (s == 0 || 4 <= s <= 4 + |payload|) && Open(link.size, |payload|, j)
    requires j < s || !EventAt(link.recvPlan, pos + j).Deliver?
    requires var k := Taken(link, pos, |payload|, j, s);
             || k <= 0 || (j < 4 && j + k > 4)
             || (j + k < 4 + |payload| && !Open(link.size, |payload|, j + k))
             || (Open(link.size, |payload|, j + k) && FailsFrom(link, pos, payload, j + k, s))
    ensures FailsFrom(link, pos, payload, j, s)
  {
    hide Move, StateAt, Fails, Taken;
    ReceiverMoves(link, pos, payload, j, s);
    CanFailStep(link, StateAt(pos, payload, j, s), ReceiverTurn);
  }

  /** From one cut to a later one. */
  lemma {:induction false} FailsBeforeSends(link: Link, pos: nat, payload: string, j: nat, c: nat, later: nat)
    requires OkLink(link, payload) && j <= 4 + c && c <= |payload|
    requires later in CutsFrom(link.sendPlan, pos + 4, |payload|, c) && FailsFrom(link, pos, payload, j, 4 + later)
    ensures FailsFrom(link, pos, payload, j, 4 + c)
    decreases |payload| - c
  {
    hide FailsFrom;
    var q, n := pos + 4, |payload|;
    assert q + c == pos + (4 + c);
    if later != c {
      var a := AcceptedAt(link.sendPlan, q + c);
      FailsBeforeSends(link, pos, payload, j, Min(c + a, n), later);
      FailsBeforeSend(link, pos, payload, j, 4 + c);
    }
  }

  /** Of two cuts the later one comes behind the earlier one. */
  lemma {:induction false} LaterCut(plan: SendPlan, q: nat, n: nat, from: nat, c: nat, later: nat)
    requires c in CutsFrom(plan, q, n, from) && later in CutsFrom(plan, q, n, from) && c <= later
    ensures later in CutsFrom(plan, q, n, c)
    decreases n - from
  {
    if c != from {
      assert later != from;
      LaterCut(plan, q, n, Min(from + AcceptedAt(plan, q + from), n), c, later);
    }
  }

  /** A failing send of the body. */
  lemma BadSends(link: Link, pos: nat, payload: string)
    requires OkLink(link, payload) && !SendsOk(link.sendPlan, pos + 4, |payload|)
    ensures FailsFrom(link, pos, payload, 0, 0)
  {
    hide FailsFrom, CutsFrom;
    var q, n := pos + 4, |payload|;
    if AcceptedAt(link.sendPlan, pos) >= 4 {
      var c :| c in CutsFrom(link.sendPlan, q, n, 0) && c < n && AcceptedAt(link.sendPlan, q + c) <= 0;
      assert q + c == pos + (4 + c);
      FailsBeforeSend(link, pos, payload, 0, 4 + c);
      FailsBeforeSends(link, pos, payload, 0, 0, c);
    }
    FailsBeforeSend(link, pos, payload, 0, 0);
  }

  /** A header in wrong pieces. */
  lemma BadHeader(link: Link, pos: nat, payload: string)
    requires OkLink(link, payload) && SendsOk(link.sendPlan, pos + 4, |payload|)
    requires !HeaderOk(link.recvPlan, pos, 4 + |payload|)
    ensures FailsFrom(link, pos, payload, 0, 0)
  {
    hide FailsFrom, SendsOk;
    var n, e := |payload|, EventAt(link.recvPlan, pos);
    HeaderRequests();
    if e.Deliver? && e.most < 4 && e.most != 2 {
      if ThreeBytes(link.recvPlan, pos) {
        BadFourthByte(link, pos, payload);
      }
      if e.most == 1 {
        if EventAt(link.recvPlan, pos + 1).Deliver? && EventAt(link.recvPlan, pos + 1).most == 1 {
          FailsBeforeRecv(link, pos, payload, 2, 4);
        }
        FailsBeforeRecv(link, pos, payload, 1, 4);
      }
    } else if e.Deliver? {
      FailsBeforeRecv(link, pos, payload, 2, 4);
    }
    FailsBeforeRecv(link, pos, payload, 0, 4);
    FailsBeforeSend(link, pos, payload, 0, 0);
  }

  lemma BadFourthByte(link: Link, pos: nat, payload: string)
    requires OkLink(link, payload) && SendsOk(link.sendPlan, pos + 4, |payload|)
    requires var e := EventAt(link.recvPlan, pos + 3); !e.Deliver? || (e.most > 1 && payload != "")
    ensures FailsFrom(link, pos, payload, 3, 4)
  {
    hide FailsFrom;
    var n, e := |payload|, EventAt(link.recvPlan, pos + 3);
    HeaderRequests();
    if e.Deliver? {
      var a := AcceptedAt(link.sendPlan, pos + 4);
      if a > 0 { FailsBeforeRecv(link, pos, payload, 3, Min(4 + a, 4 + n)); }
      FailsBeforeSend(link, pos, payload, 3, 4);
    } else {
      FailsBeforeRecv(link, pos, payload, 3, 4);
    }
  }

  /** Through a header of good pieces. */
  lemma FailsBeforeHeader(link: Link, pos: nat, payload: string)
    requires OkLink(link, payload) && payload != "" && HeaderOk(link.recvPlan, pos, 4 + |payload|)
    requires FailsFrom(link, pos, payload, 4, 4)
    ensures FailsFrom(link, pos, payload, 0, 0)
  {
    hide FailsFrom;
    HeaderRequests();
    var e := EventAt(link.recvPlan, pos);
    if e.most < 4 {
      FailsBeforeRecv(link, pos, payload, 3, 4);
      if e.most == 1 { FailsBeforeRecv(link, pos, payload, 1, 4); }
    }
    FailsBeforeRecv(link, pos, payload, 0, 4);
    FailsBeforeSend(link, pos, payload, 0, 0);
  }

  /** The loop can go on wherever it can come to before index i. */
  ghost predicate GoodBefore(link: Link, q: nat, n: nat, cuts: set<nat>, i: nat)
  {
    forall j: nat :: j < i && Reaches(link.recvPlan, q, link.size, n, cuts, j) ==>
        GoesOn(link.recvPlan, q, link.size, n, j)
  }

  /** The place from which the loop comes to index i. */
  lemma ReachedFrom(link: Link, q: nat, n: nat, cuts: set<nat>, i: nat) returns (j: nat, d: nat)
    requires 0 < i && Reaches(link.recvPlan, q, link.size, n, cuts, i) && GoodBefore(link, q, n, cuts, i)
    ensures j < i && j < d && d in cuts && i == Min(j + Piece(link.recvPlan, q, link.size, n, j), d)
    ensures Reaches(link.recvPlan, q, link.size, n, cuts, j) && GoesOn(link.recvPlan, q, link.size, n, j)
    ensures GoodBefore(link, q, n, cuts, j)
  {
    j, d :| j < i && j < d && d in cuts && Reaches(link.recvPlan, q, link.size, n, cuts, j)
      && i == Min(j + Piece(link.recvPlan, q, link.size, n, j), d);
  }

  /** What the recv at such a place takes if the body has been sent up to index c. */
  lemma TakenAt(link: Link, pos: nat, n: nat, j: nat, c: nat)
    requires GoesOn(link.recvPlan, pos + 4, link.size, n, j) && j < n < INT32 && link.size < INT32 && j < c <= n
    ensures Taken(link, pos, n, 4 + j, 4 + c) == Min(j + Piece(link.recvPlan, pos + 4, link.size, n, j), c) - j > 0
  {
    RequestSmall(link.size, n, j);
    assert (pos + 4) + j == pos + (4 + j);
  }

  /**
    Wherever the loop can come to, it comes to in some schedule: with the body received up to index i and sent
    up to any cut from there on, unless that place is outside the buffer, where the call fails at once.
   */
  lemma {:induction false} FailsBeforeReached(link: Link, pos: nat, payload: string, cuts: set<nat>, i: nat, c: nat)
    requires OkLink(link, payload) && payload != "" && HeaderOk(link.recvPlan, pos, 4 + |payload|)
    requires cuts == Cuts(link.sendPlan, pos + 4, |payload|) && i < |payload| && i <= c && c in cuts
    requires Reaches(link.recvPlan, pos + 4, link.size, |payload|, cuts, i)
    requires GoodBefore(link, pos + 4, |payload|, cuts, i)
    requires i >= link.size || FailsFrom(link, pos, payload, 4 + i, 4 + c)
    ensures FailsFrom(link, pos, payload, 0, 0)
    decreases i
  {
    hide FailsFrom, CutsFrom, HeaderOk, Reaches, GoodBefore, Taken, Piece;
    var q, n := pos + 4, |payload|;
    if i == 0 {
      FailsBeforeSends(link, pos, payload, 4, 0, c);
      FailsBeforeHeader(link, pos, payload);
    } else {
      var j, d := ReachedFrom(link, q, n, cuts, i);
      var e := if i < d then c else d;
      TakenAt(link, pos, n, j, e);
      if i == d && i < link.size {
        LaterCut(link.sendPlan, q, n, 0, d, c);
        FailsBeforeSends(link, pos, payload, 4 + i, d, c);
      }
      FailsBeforeRecv(link, pos, payload, 4 + j, 4 + e);
      FailsBeforeReached(link, pos, payload, cuts, j, e);
    }
  }

  /** The first place at which the loop cannot go on. */
  lemma {:induction false} FirstBad(link: Link, q: nat, n: nat, cuts: set<nat>, bound: nat) returns (i: nat)
    requires !GoodBefore(link, q, n, cuts, bound)
    ensures i < bound && Reaches(link.recvPlan, q, link.size, n, cuts, i) && !GoesOn(link.recvPlan, q, link.size, n, i)
    ensures GoodBefore(link, q, n, cuts, i)
    decreases bound
  {
    hide Reaches, GoesOn;
    if bound > 0 && !GoodBefore(link, q, n, cuts, bound - 1) {
      i := FirstBad(link, q, n, cuts, bound - 1);
    } else {
      i := bound - 1;
    }
  }

  /** A body whose loop can come to a place from which it cannot go on. */
  lemma BadBody(link: Link, pos: nat, payload: string)
    requires OkLink(link, payload) && SendsOk(link.sendPlan, pos + 4, |payload|)
    requires HeaderOk(link.recvPlan, pos, 4 + |payload|)
    requires !BodyOk(link.recvPlan, pos + 4, link.size, |payload|, Cuts(link.sendPlan, pos + 4, |payload|))
    ensures FailsFrom(link, pos, payload, 0, 0)
  {
    hide FailsFrom, HeaderOk, Reaches;
    var q, n := pos + 4, |payload|;
    var cuts := Cuts(link.sendPlan, q, n);
    var i := FirstBad(link, q, n, cuts, n);
    AllIsSent(link.sendPlan, q, n, 0);
    assert q + i == pos + (4 + i);
    if i < link.size {
      RequestSmall(link.size, n, i);
      FailsBeforeRecv(link, pos, payload, 4 + i, 4 + n);
    }
    FailsBeforeReached(link, pos, payload, cuts, i, n);
  }

  /** A frame gets through in every schedule if and only if its pieces and cuts are right. */
  lemma TransferExact(link: Link, pos: nat, payload: string)
    requires OkLink(link, payload)
    ensures CanFail(link, StateAt(pos, payload, 0, 0)) <==>
              !FrameAlwaysOk(link.recvPlan, link.sendPlan, pos, |payload|, link.size)
  {
    hide HeaderOk, BodyOk, SendsOk, Cuts;
    if FrameAlwaysOk(link.recvPlan, link.sendPlan, pos, |payload|, link.size) {
      forall turns ensures !Fails(link, StateAt(pos, payload, 0, 0), turns) {
        GoodNeverFails(link, pos, payload, 0, 0, turns);
      }
    } else {
      if !SendsOk(link.sendPlan, pos + 4, |payload|) {
        BadSends(link, pos, payload);
      } else if !HeaderOk(link.recvPlan, pos, 4 + |payload|) {
        BadHeader(link, pos, payload);
      } else if AcceptedAt(link.sendPlan, pos) < 4 {
        FailsBeforeSend(link, pos, payload, 0, 0);
      } else {
        BadBody(link, pos, payload);
      }
      assert FailsFrom(link, pos, payload, 0, 0);
    }
  }

  // ---- what is left to do ----

  /** The bytes that a transfer has still to move: each one is sent and then received. */
  function Size(t: Transfer): nat
  {
    (match t.out case Some(sender) => 2 * |Rest(sender)| case None => 0) + |t.wire.unread|
  }

  /** The transfer carries the frame of this payload. */
  ghost predicate InFlight(link: Link, t: Transfer, payload: string)
  {
    var j, s := |t.got|, |t.got| + |t.wire.unread|;
    && j <= t.wire.pos && (s == 0 || 4 <= s <= 4 + |payload|) && Open(link.size, |payload|, j)
    && t == StateAt(t.wire.pos - j, payload, j, s)
  }

  lemma SizeAt(pos: nat, payload: string, j: nat, s: nat)
    requires |payload| < UINT32 && j <= s && (s == 0 || 4 <= s <= 4 + |payload|)
    ensures var t := StateAt(pos, payload, j, s);
            && |t.got| == j && |t.wire.unread| == s - j
            && Size(t) == 2 * (4 + |payload| - s) + s - j
            && (t.out.None? <==> s == 4 + |payload|) && (t.out.Some? && t.out.value.AtHeader? <==> s == 0)
  {
    FrameBytes(payload);
  }

  /** A step keeps the frame on its way, or fails, or delivers exactly the payload and leaves the wire empty. */
  lemma InFlightMoves(link: Link, t: Transfer, payload: string, turn: Turn)
    requires OkLink(link, payload) && InFlight(link, t, payload) && Possible(link, t, turn)
    ensures match Move(link, t, turn)
            case Failed => true
            case Moving(next) =>
              InFlight(link, next, payload) && Size(next) < Size(t) &&
                  next.wire.pos - |next.got| == t.wire.pos - |t.got|
            case Delivered(message, next) =>
              && message == payload && t.out.None? && turn == ReceiverTurn && Size(t) > 0
              && next == Transfer(Wire("", t.wire.pos - |t.got| + 4 + |payload|), None, "")
  {
    hide Move, Frame, StateAt, Size;
    var j, s := |t.got|, |t.got| + |t.wire.unread|;
    var pos, n := t.wire.pos - j, |payload|;
    SizeAt(pos, payload, j, s);
    match turn {
      case SenderTurn =>
        SenderMoves(link, pos, payload, j, s);
        var a := AcceptedAt(link.sendPlan, pos + s);
        if s == 0 && a >= 4 {
          SizeAt(pos, payload, j, 4);
          MovedTo(link, pos, payload, j, 4);
        } else if s > 0 && a > 0 {
          SizeAt(pos, payload, j, Min(s + a, 4 + n));
          MovedTo(link, pos, payload, j, Min(s + a, 4 + n));
        }
      case ReceiverTurn =>
        ReceiverMoves(link, pos, payload, j, s);
        var k := Taken(link, pos, n, j, s);
        if k > 0 && !(j < 4 && j + k > 4) {
          SizeAt(pos, payload, j + k, s);
          if Open(link.size, n, j + k) {
            MovedTo(link, pos, payload, j + k, s);
          } else if j + k == 4 + n {
            AllTaken(pos, payload);
          }
        }
    }
  }

  lemma MovedTo(link: Link, pos: nat, payload: string, j: nat, s: nat)
    requires |payload| < UINT32 && j <= s && (s == 0 || 4 <= s <= 4 + |payload|) && Open(link.size, |payload|, j)
    ensures InFlight(link, StateAt(pos, payload, j, s), payload) && StateAt(pos, payload, j, s).wire.pos == pos + j
  {
    FrameBytes(payload);
  }

  lemma AllTaken(pos: nat, payload: string)
    requires |payload| < UINT32
    ensures var end := 4 + |payload|;
            StateAt(pos, payload, end, end).(got := "") == Transfer(Wire("", pos + end), None, "")
  {
    FrameBytes(payload);
  }

  /** Once everything is sent, the rest of the frame is on the wire; before that, where its end will be. */
  lemma EndOfFrame(link: Link, t: Transfer, payload: string)
    requires |payload| < UINT32 && InFlight(link, t, payload)
    ensures var end := t.wire.pos - |t.got| + 4 + |payload|;
            match t.out
            case None => t.wire.unread != "" && EndOf(t.wire) == end
            case Some(AtHeader(p)) => p == payload && t.wire.unread == "" && t.got == "" &&
                EndOf(t.wire) + 4 + |payload| == end
            case Some(AtBody(left)) => EndOf(t.wire) + |left| == end
  {
    FrameBytes(payload);
  }

  /** A frame whose sending has not begun. */
  lemma AtStart(link: Link, wire: Wire, payload: string)
    requires wire.unread == "" && |payload| < UINT32
    ensures Transfer(wire, Some(AtHeader(payload)), "") == StateAt(wire.pos, payload, 0, 0)
    ensures InFlight(link, Transfer(wire, Some(AtHeader(payload)), ""), payload)
  {
    FrameBytes(payload);
    assert Frame(payload)[0..0] == "" && Frame(payload)[..0] == "";
  }

  /** A transfer in which only the header of the sender is left has not begun. */
  lemma NotBegun(link: Link, t: Transfer, payload: string)
    requires |payload| < UINT32 && InFlight(link, t, payload) && t.out.Some? && t.out.value.AtHeader?
    ensures t == StateAt(t.wire.pos, payload, 0, 0) && t.wire.unread == "" && t.got == ""
    ensures t.out.value.payload == payload
  {
    FrameBytes(payload);
  }
}
