/**
  Length-prefixed messages over a byte stream. How many bytes each send and each recv moves is up to an
  adversary: a plan gives, for every position in the stream, the outcome of the call that starts there.
 */
module Framing {
  import opened CStrings

  type Positive = k: nat | k > 0 witness 1

  /** Outcome of a recv: at most `most` bytes, the peer closed the connection, or an error. */
  datatype Event = Deliver(most: Positive) | Close | Fail

  type RecvPlan = nat -> Event

  /**
    Outcome of a send: a positive number is the most that this call accepts, otherwise the call fails with
    that value.
   */
  type SendPlan = nat -> int

  /** The plans of a connection: those of the stream to the server, and those of the stream back. */
  datatype Line = Line(upRecv: RecvPlan, upSend: SendPlan, downRecv: RecvPlan, downSend: SendPlan)

  function EventAt(plan: RecvPlan, p: nat): Event { plan(p) }

  function AcceptedAt(plan: SendPlan, p: nat): int { plan(p) }

  /** One direction of a TCP connection. */
  class Channel {
    const recvPlan: RecvPlan
    const sendPlan: SendPlan
    var unread: string // sent and not yet received
    var pos: nat // number of bytes received so far

    constructor (recvPlan: RecvPlan, sendPlan: SendPlan)
      ensures this.recvPlan == recvPlan && this.sendPlan == sendPlan && unread == "" && pos == 0
    {
      this.recvPlan := recvPlan;
      this.sendPlan := sendPlan;
      unread := "";
      pos := 0;
    }
  }

  // ---- the length prefix ----

  const UINT32 := 0x1_0000_0000
  const INT32 := 0x8000_0000
  const UINT64 := 0x1_0000_0000_0000_0000

  function ByteOf(c: char): nat { c as int % 256 }

  /** htonl and the cast to bytes: big-endian. */
  function Header(n: nat): (h: string)
    ensures |h| == 4
  {
    [(n / 0x100_0000 % 256) as char, (n / 0x1_0000 % 256) as char, (n / 0x100 % 256) as char, (n % 256) as char]
  }

  /** ntohl of the four bytes received. */
  function Decode(h: string): (n: nat)
    requires |h| == 4
    ensures n < UINT32
  {
    ((ByteOf(h[0]) * 256 + ByteOf(h[1])) * 256 + ByteOf(h[2])) * 256 + ByteOf(h[3])
  }

  lemma DecodeHeader(n: nat)
    requires n < UINT32
    ensures Decode(Header(n)) == n
  {
    var a := n / 256;
    var b := a / 256;
    var c := b / 256;
    assert n / 0x1_0000 == b && n / 0x100_0000 == c && n / 0x100 == a;
    assert c < 256;
    assert n == a * 256 + n % 256 && a == b * 256 + a % 256 && b == c * 256 + b % 256;
    DecodeBytes(c, b % 256, a % 256, n % 256);
  }

  lemma DecodeBytes(a: nat, b: nat, c: nat, d: nat)
    requires a < 256 && b < 256 && c < 256 && d < 256
    ensures Decode([a as char, b as char, c as char, d as char]) == ((a * 256 + b) * 256 + c) * 256 + d
  {
  }

  // ---- tcp_message_send ----

  /** What a run of sends returns, and how much of the payload it put on the stream. */
  datatype SendRun = SendRun(ret: int, sent: nat)

  /** The loop that sends the payload from index `sent` on; its first byte has stream position q. */
  function SendLoop(plan: SendPlan, q: nat, size: nat, sent: nat): (run: SendRun)
    requires sent <= size
    ensures sent <= run.sent <= size && (run.ret > 0 <==> run.sent == size) && run.ret <= 1
    decreases size - sent
  {
    if sent < size then
      var k := if AcceptedAt(plan, q + sent) < size - sent then AcceptedAt(plan, q + sent) else size - sent;
      if k <= 0 then SendRun(k, sent) else SendLoop(plan, q, size, sent + k)
    else
      SendRun(1, sent)
  }

  /** How many bytes of the header go out; a short send of the header is not noticed. */
  function HeaderSent(plan: SendPlan, q: nat): int
  {
    if AcceptedAt(plan, q) < 4 then AcceptedAt(plan, q) else 4
  }

  function SendRet(plan: SendPlan, q: nat, payload: string): int
  {
    var k := HeaderSent(plan, q);
    if k <= 0 then k else SendLoop(plan, q + k, |payload|, 0).ret
  }

  /** The bytes tcp_message_send puts on the stream. */
  function SendWire(plan: SendPlan, q: nat, payload: string): string
  {
    var k := HeaderSent(plan, q);
    if k <= 0 then "" else Header(|payload|)[..k] + payload[..SendLoop(plan, q + k, |payload|, 0).sent]
  }

  function Frame(payload: string): string { Header(|payload|) + payload }

  /** The system call: the stream accepts a part of the data, or the call fails. */
  method Send(ch: Channel, data: string) returns (ret: int)
    modifies ch
    ensures var accepted := AcceptedAt(ch.sendPlan, old(ch.pos + |ch.unread|));
            ret == if accepted < |data| then accepted else |data|
    ensures ch.unread == old(ch.unread) + (if ret > 0 then data[..ret] else "") && ch.pos == old(ch.pos)
  {
    var accepted := AcceptedAt(ch.sendPlan, ch.pos + |ch.unread|);
    ret := if accepted < |data| then accepted else |data|;
    if ret > 0 {
      ch.unread := ch.unread + data[..ret];
    }
  }

  lemma OneMorePart(data: string, sent: nat, k: nat)
    requires sent + k <= |data|
    ensures data[..sent + k] == data[..sent] + data[sent..][..k]
  {
    assert data[sent..][..k] == data[sent..sent + k];
  }

  /** The loop that sends the payload once the header is out. */
  method SendAll(ch: Channel, data: string) returns (ret: int)
    modifies ch
    ensures ret == SendLoop(ch.sendPlan, old(ch.pos + |ch.unread|), |data|, 0).ret
    ensures ch.unread == old(ch.unread) + data[..SendLoop(ch.sendPlan, old(ch.pos + |ch.unread|), |data|, 0).sent]
    ensures ch.pos == old(ch.pos)
  {
    ghost var unread, q, plan := ch.unread, ch.pos + |ch.unread|, ch.sendPlan;
    ghost var run := SendLoop(plan, q, |data|, 0);
    var sent := 0;
    while sent < |data|
      invariant sent <= |data|
      invariant ch.unread == unread + data[..sent] && ch.pos == old(ch.pos)
      invariant run == SendLoop(plan, q, |data|, sent)
    {
      ret := Send(ch, data[sent..]);
      if ret <= 0 {
        return;
      }
      OneMorePart(data, sent, ret);
      sent := sent + ret;
    }
    ret := 1;
  }

  /** Sends a four-byte header and a payload. */
  method SendFramed(ch: Channel, header: string, data: string) returns (ret: int)
    requires |header| == 4
    modifies ch
    ensures var q, k := old(ch.pos + |ch.unread|), HeaderSent(ch.sendPlan, old(ch.pos + |ch.unread|));
            && ret == (if k <= 0 then k else SendLoop(ch.sendPlan, q + k, |data|, 0).ret)
            && ch.unread == old(ch.unread)
                + (if k <= 0 then "" else header[..k] + data[..SendLoop(ch.sendPlan, q + k, |data|, 0).sent])
    ensures ch.pos == old(ch.pos)
  {
    ret := Send(ch, header);
    if ret > 0 {
      ret := SendAll(ch, data);
    }
  }

  method TcpMessageSend(ch: Channel, buffer: array<char>, size: nat) returns (ret: int)
    requires size <= buffer.Length
    modifies ch
    ensures ret == SendRet(ch.sendPlan, old(ch.pos + |ch.unread|), buffer[..size])
    ensures ch.unread == old(ch.unread) + SendWire(ch.sendPlan, old(ch.pos + |ch.unread|), buffer[..size])
    ensures ch.pos == old(ch.pos)
  {
    ret := SendFramed(ch, Header(size), buffer[..size]);
  }

  /** The loop of sends stops at the first call that accepts nothing, and returns what that call returned. */
  lemma {:induction false} SendStopsAt(plan: SendPlan, q: nat, size: nat, sent: nat)
    requires sent <= size
    ensures var run := SendLoop(plan, q, size, sent);
            if run.sent < size then run.ret == AcceptedAt(plan, q + run.sent) <= 0 else run.ret == 1
    decreases size - sent
  {
    if sent < size {
      var k := if AcceptedAt(plan, q + sent) < size - sent then AcceptedAt(plan, q + sent) else size - sent;
      if k > 0 { SendStopsAt(plan, q, size, sent + k); }
    }
  }

  /** A header of which only a part goes out: the payload follows it at once, and the call reports success. */
  lemma ShortHeader(plan: SendPlan, q: nat, payload: string)
    requires 0 < AcceptedAt(plan, q) < 4 && AcceptedAt(plan, q + AcceptedAt(plan, q)) >= |payload|
    ensures SendRet(plan, q, payload) == 1
    ensures SendWire(plan, q, payload) == Header(|payload|)[..AcceptedAt(plan, q)] + payload
  {
    hide Header;
    var k := AcceptedAt(plan, q);
    assert SendLoop(plan, q + k, |payload|, |payload|) == SendRun(1, |payload|);
    assert payload[..|payload|] == payload;
  }

  // ---- receive_tcp_n and tcp_message_receive ----

  /** Conversion to a 32-bit int and to a 64-bit size_t. */
  function Int32(x: int): int { (x + INT32) % UINT32 - INT32 }

  function SizeT(x: int): nat { x % UINT64 }

  /**
    The length the recv at buffer index `index` asks for: the index is subtracted twice, and a negative result
    wraps.
   */
  function RequestSize(bufferSize: nat, n: nat, index: nat): nat
  {
    var maxRecv := Int32(if bufferSize > n then bufferSize - index else n - index);
    SizeT(maxRecv - index)
  }

  /** What a recv of `request` bytes returns; at the end of the stream and for an empty request that is 0. */
  function RecvAmount(event: Event, available: nat, request: nat): (got: int)
    ensures -1 <= got && got <= available && got <= request
  {
    match event
    case Fail => -1
    case Close => 0
    case Deliver(most) =>
      var k := if most < request then most else request;
      if k < available then k else available
  }

  /** The result of a receiving call and how many bytes it took, or a write behind the end of the buffer. */
  datatype RecvRun = Returned(ret: int, taken: nat) | Overrun

  /**
    receive_tcp_n on the given stream from buffer index `index` on. The stream starts at position pos, and
    `room` is the real length of the buffer.
   */
  function ReceiveRun(plan: RecvPlan, pos: nat, stream: string, index: nat, bufferSize: nat, n: nat,
                      room: nat): (run: RecvRun)
    requires index <= |stream| && index <= room
    ensures run.Returned? ==> index <= run.taken && run.taken <= |stream| && run.taken <= room
    ensures run.Returned? && run.ret > 0 ==> run.ret == run.taken
    ensures run.Returned? ==> run.ret >= -1
    ensures run.Returned? && run.ret <= 0 && 0 < bufferSize && 0 < n ==> run.taken < bufferSize && run.taken < n
    decreases n - index
  {
    if index < bufferSize && index < n then
      var got := RecvAmount(EventAt(plan, pos + index), |stream| - index, RequestSize(bufferSize, n, index));
      if got <= 0 then Returned(got, index)
      else if index + got > room then Overrun
      else ReceiveRun(plan, pos, stream, index + got, bufferSize, n, room)
    else Returned(index, index)
  }

  /** tcp_message_receive: header, then body. */
  function ReceiveMessage(plan: RecvPlan, pos: nat, stream: string, bufferSize: nat, room: nat): (run: RecvRun)
    ensures run.Returned? ==> run.taken <= |stream| && run.ret >= -1
  {
    var head := ReceiveRun(plan, pos, stream, 0, 4, 4, 4);
    if head.Overrun? || head.ret <= 0 then head
    else if head.ret != 4 then Returned(0, head.taken)
    else
      var n := Decode(stream[..4]);
      var body := ReceiveRun(plan, pos + 4, stream[4..], 0, bufferSize, n, room);
      if body.Overrun? then Overrun
      else if body.ret <= 0 then Returned(body.ret, 4 + body.taken)
      else if body.ret != n then Returned(0, 4 + body.taken)
      else Returned(body.ret, 4 + body.taken)
  }

  /** The system call: moves bytes from the stream to buffer[index..], unless that would leave the buffer. */
  method Recv(ch: Channel, buffer: array<char>, index: nat, request: nat) returns (got: int, overrun: bool)
    requires index <= buffer.Length
    modifies ch, buffer
    ensures got == RecvAmount(EventAt(ch.recvPlan, old(ch.pos)), |old(ch.unread)|, request)
    ensures overrun <==> index + got > buffer.Length && got > 0
    ensures var moved := if got > 0 && !overrun then got else 0;
            && ch.pos == old(ch.pos) + moved && ch.unread == old(ch.unread)[moved..]
            && (forall k :: index <= k < index + moved ==> buffer[k] == old(ch.unread)[k - index])
            && (forall k :: 0 <= k < buffer.Length && (k < index || index + moved <= k) ==> buffer[k] == old(buffer[k]))
  {
    got := RecvAmount(EventAt(ch.recvPlan, ch.pos), |ch.unread|, request);
    overrun := got > 0 && index + got > buffer.Length;
    if got > 0 && !overrun {
      MemCpy(buffer, index, ch.unread[..got]);
      ch.unread := ch.unread[got..];
      ch.pos := ch.pos + got;
    }
  }

  method ReceiveTcpN(ch: Channel, buffer: array<char>, bufferSize: nat, n: nat) returns (ret: int, overrun: bool)
    modifies ch, buffer
    ensures var run := ReceiveRun(ch.recvPlan, old(ch.pos), old(ch.unread), 0, bufferSize, n, buffer.Length);
            && overrun == run.Overrun?
            && (!overrun ==>
                  && ret == run.ret
                  && ch.pos == old(ch.pos) + run.taken
                  && ch.unread == old(ch.unread)[run.taken..]
                  && buffer[..run.taken] == old(ch.unread)[..run.taken]
                  && buffer[run.taken..] == old(buffer[run.taken..]))
  {
    hide RequestSize;
    ghost var stream, pos, before, plan, room := ch.unread, ch.pos, buffer[..], ch.recvPlan, buffer.Length;
    ghost var run := ReceiveRun(plan, pos, stream, 0, bufferSize, n, room);
    var index := 0;
    while index < bufferSize && index < n
      invariant index <= |stream| && index <= buffer.Length
      invariant ch.pos == pos + index && ch.unread == stream[index..]
      invariant forall k :: 0 <= k < index ==> buffer[k] == stream[k]
      invariant forall k :: index <= k < buffer.Length ==> buffer[k] == before[k]
      invariant run == ReceiveRun(plan, pos, stream, index, bufferSize, n, room)
      decreases n - index
    {
      var got;
      got, overrun := Recv(ch, buffer, index, RequestSize(bufferSize, n, index));
      if got <= 0 {
        return got, false;
      }
      if overrun {
        return 0, true;
      }
      index := index + got;
    }
    return index, false;
  }

  /** All or nothing: a positive result means a whole message, and it is in the buffer. */
  method TcpMessageReceive(ch: Channel, buffer: array<char>, bufferSize: nat) returns (ret: int, overrun: bool)
    modifies ch, buffer
    ensures var run := ReceiveMessage(ch.recvPlan, old(ch.pos), old(ch.unread), bufferSize, buffer.Length);
            && overrun == run.Overrun?
            && (!overrun ==>
                  && ret == run.ret
                  && ch.pos == old(ch.pos) + run.taken
                  && ch.unread == old(ch.unread)[run.taken..])
    ensures !overrun && ret > 0 ==>
              && ret <= buffer.Length && 4 + ret <= |old(ch.unread)|
              && ret == Decode(old(ch.unread)[..4])
              && buffer[..ret] == old(ch.unread)[4..4 + ret]
              && buffer[ret..] == old(buffer[ret..])
              && ch.unread == old(ch.unread)[4 + ret..]
  {
    hide ReceiveRun, Decode;
    ghost var stream := ch.unread;
    var sizeBuffer := new char[4];
    ret, overrun := ReceiveTcpN(ch, sizeBuffer, 4, 4);
    if overrun || ret <= 0 {
      return;
    }
    if ret != 4 {
      return 0, false;
    }
    assert sizeBuffer[..] == stream[..4];
    var n := Decode(sizeBuffer[..]);
    ret, overrun := ReceiveTcpN(ch, buffer, bufferSize, n);
    if overrun || ret <= 0 {
      return;
    }
    if ret != n {
      return 0, false;
    }
  }

  // ---- what a result means ----

  /** A positive result is the announced length, and exactly the header and that many bytes are gone from the stream. */
  lemma AllOrNothing(plan: RecvPlan, pos: nat, stream: string, bufferSize: nat, room: nat)
    ensures var run := ReceiveMessage(plan, pos, stream, bufferSize, room);
            run.Returned? && run.ret > 0 ==>
              4 + run.ret <= |stream| && run.ret == Decode(stream[..4]) && run.taken == 4 + run.ret
  {
    var head := ReceiveRun(plan, pos, stream, 0, 4, 4, 4);
    assert head.Returned? && head.ret == 4 ==> head.taken == 4;
  }

  /** Why receive_tcp_n stops: an error gives -1, a closed connection 0, and so does a recv without anything to take. */
  lemma {:induction false} WhyItStops(plan: RecvPlan, pos: nat, stream: string, index: nat, bufferSize: nat, n: nat,
                                      room: nat)
    requires index <= |stream| && index <= room && index < bufferSize && index < n
    ensures var run := ReceiveRun(plan, pos, stream, index, bufferSize, n, room);
            run.Returned? && run.ret <= 0 ==>
              match EventAt(plan, pos + run.taken)
              case Fail => run.ret == -1
              case Close => run.ret == 0
              case Deliver(_) =>
                run.ret == 0 && (run.taken == |stream| || RequestSize(bufferSize, n, run.taken) == 0)
    decreases n - index
  {
    hide RequestSize;
    var got := RecvAmount(EventAt(plan, pos + index), |stream| - index, RequestSize(bufferSize, n, index));
    if got > 0 && index + got <= room && index + got < bufferSize && index + got < n {
      WhyItStops(plan, pos, stream, index + got, bufferSize, n, room);
    }
  }

  /**
    What the doubled subtraction asks for, for every length that a header can announce: less with every byte,
    and where that is negative a number near 2^64. From 2^31 on the conversion to int has wrapped before.
   */
  lemma RequestValue(bufferSize: nat, n: nat, index: nat)
    requires bufferSize < UINT32 && n < UINT32 && index < bufferSize && index < n
    ensures var larger := if bufferSize > n then bufferSize else n;
            var wanted := larger - 2 * index - (if larger - index >= INT32 then UINT32 else 0);
            RequestSize(bufferSize, n, index) == if wanted >= 0 then wanted else UINT64 + wanted
  {
    var rest := if bufferSize > n then bufferSize - index else n - index;
    assert Int32(rest) == if rest >= INT32 then rest - UINT32 else rest;
    var wanted := Int32(rest) - index;
    assert SizeT(wanted) == if wanted >= 0 then wanted else UINT64 + wanted;
  }

  lemma FrameParts(payload: string)
    ensures |Frame(payload)| == 4 + |payload|
    ensures Frame(payload)[4..4 + |payload|] == payload && Frame(payload)[4 + |payload|..] == ""
  {
  }
}
