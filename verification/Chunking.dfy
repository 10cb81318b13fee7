/** For which pieces the loops of Framing get a message through: the exact conditions. */
module Chunking {
  import opened Framing

  function Min(a: int, b: int): int { if a < b then a else b }

  function Larger(a: nat, b: nat): nat { if a > b then a else b }

  lemma RequestSmall(bufferSize: nat, n: nat, index: nat)
    requires bufferSize < INT32 && n < INT32 && index < bufferSize && index < n
    ensures var wanted := Larger(bufferSize, n) - 2 * index;
            RequestSize(bufferSize, n, index) == if wanted >= 0 then wanted else UINT64 + wanted
  {
    RequestValue(bufferSize, n, index);
  }

  /** Every request is positive and stays inside the buffer exactly for messages of at most half the buffer. */
  lemma RequestsInsideBuffer(bufferSize: nat, n: nat)
    requires 0 < n <= bufferSize < INT32
    ensures (forall index: nat :: index < n ==> 0 < RequestSize(bufferSize, n, index) <= bufferSize - index)
       <==> 2 * n <= bufferSize + 1
  {
    forall index: nat | index < n
      ensures 0 < RequestSize(bufferSize, n, index) <= bufferSize - index <==> 2 * index < bufferSize
    {
      RequestSmall(bufferSize, n, index);
    }
    if forall index: nat :: index < n ==> 0 < RequestSize(bufferSize, n, index) <= bufferSize - index {
      assert 0 < RequestSize(bufferSize, n, n - 1) <= bufferSize - (n - 1);
    }
  }

  // ---- the header ----

  /** The first pieces of a header end behind its third byte. */
  ghost predicate ThreeBytes(plan: RecvPlan, pos: nat)
  {
    && EventAt(plan, pos).Deliver?
    && (EventAt(plan, pos).most == 3 ||
        (EventAt(plan, pos).most == 1 && EventAt(plan, pos + 1).Deliver? && EventAt(plan, pos + 1).most >= 2))
  }

  /** The pieces with which a header arrives: four bytes at once, or three and then exactly one. */
  ghost predicate HeaderOk(plan: RecvPlan, pos: nat, available: nat)
  {
    && available >= 4 && EventAt(plan, pos).Deliver?
    && (EventAt(plan, pos).most >= 4 ||
        (ThreeBytes(plan, pos) && EventAt(plan, pos + 3).Deliver? &&
            (EventAt(plan, pos + 3).most == 1 || available == 4)))
  }

  /** Requests of a header: 4, 2 after one byte, none after two, and far too much after three. */
  lemma HeaderRequests()
    ensures RequestSize(4, 4, 0) == 4 && RequestSize(4, 4, 1) == 2 && RequestSize(4, 4, 2) == 0
    ensures RequestSize(4, 4, 3) == UINT64 - 2
  {
    RequestSmall(4, 4, 0);
    RequestSmall(4, 4, 1);
    RequestSmall(4, 4, 2);
    RequestSmall(4, 4, 3);
  }

  /** Exactly when a header arrives, and exactly when reading it writes behind its four bytes. */
  lemma {:induction false} HeaderExact(plan: RecvPlan, pos: nat, stream: string)
    requires |stream| < UINT32
    ensures ReceiveRun(plan, pos, stream, 0, 4, 4, 4) == Returned(4, 4) <==> HeaderOk(plan, pos, |stream|)
    ensures ReceiveRun(plan, pos, stream, 0, 4, 4, 4).Overrun? <==>
              |stream| > 4 && ThreeBytes(plan, pos) && EventAt(plan, pos + 3).Deliver? &&
                  EventAt(plan, pos + 3).most > 1
  {
    HeaderRequests();
    var third := ReceiveRun(plan, pos, stream, if |stream| < 3 then 0 else 3, 4, 4, 4);
    var second := ReceiveRun(plan, pos, stream, if |stream| < 2 then 0 else 2, 4, 4, 4);
    var first := ReceiveRun(plan, pos, stream, if |stream| < 1 then 0 else 1, 4, 4, 4);
  }

  /** A header of which two bytes arrive first is lost: the next request is empty and reads as a closed connection. */
  lemma SplitHeader(plan: RecvPlan, pos: nat, stream: string, bufferSize: nat, room: nat)
    requires |stream| >= 4 && EventAt(plan, pos) == Deliver(2)
    ensures ReceiveMessage(plan, pos, stream, bufferSize, room).ret <= 0
    ensures ReceiveMessage(plan, pos, stream, bufferSize, room).taken == 2
  {
    HeaderRequests();
  }

  // ---- the sends ----

  /** The places from index `from` on at which a new send starts, or the sending ends. */
  function CutsFrom(plan: SendPlan, q: nat, n: nat, from: nat): (cuts: set<nat>)
    ensures from in cuts && forall c :: c in cuts ==> from <= c
    ensures from <= n ==> forall c :: c in cuts ==> c <= n
    decreases n - from
  {
    {from} + if from < n && AcceptedAt(plan, q + from) > 0
             then CutsFrom(plan, q, n, Min(from + AcceptedAt(plan, q + from), n)) else {}
  }

  function Cuts(plan: SendPlan, q: nat, n: nat): set<nat> { CutsFrom(plan, q, n, 0) }

  /** No send of the loop fails, from index `from` on. */
  ghost predicate SendsOkFrom(plan: SendPlan, q: nat, n: nat, from: nat)
  {
    forall c :: c in CutsFrom(plan, q, n, from) && c < n ==> AcceptedAt(plan, q + c) > 0
  }

  ghost predicate SendsOk(plan: SendPlan, q: nat, n: nat) { SendsOkFrom(plan, q, n, 0) }

  lemma SendsOkStep(plan: SendPlan, q: nat, n: nat, from: nat)
    requires from < n
    ensures SendsOkFrom(plan, q, n, from) <==>
              AcceptedAt(plan, q + from) > 0 && SendsOkFrom(plan, q, n, Min(from + AcceptedAt(plan, q + from), n))
  {
    assert from in CutsFrom(plan, q, n, from);
  }

  /** The whole payload is sent if and only if no send of the loop fails. */
  lemma {:induction false} AllIsSent(plan: SendPlan, q: nat, n: nat, from: nat)
    requires from <= n
    ensures SendLoop(plan, q, n, from) == SendRun(1, n) <==> SendsOkFrom(plan, q, n, from)
    ensures SendsOkFrom(plan, q, n, from) ==> n in CutsFrom(plan, q, n, from)
    decreases n - from
  {
    if from < n {
      hide SendsOkFrom;
      SendsOkStep(plan, q, n, from);
      if AcceptedAt(plan, q + from) > 0 {
        AllIsSent(plan, q, n, Min(from + AcceptedAt(plan, q + from), n));
      }
    }
  }

  // ---- the body ----

  /** The most bytes that the recv at this index of a body can take. */
  function Piece(plan: RecvPlan, pos: nat, bufferSize: nat, n: nat, index: nat): nat
  {
    match EventAt(plan, pos + index)
    case Deliver(most) => Min(most, RequestSize(bufferSize, n, index))
    case _ => 0
  }

  /**
    The receiving loop can come to this index, if at the time of each recv the bytes up to one of the cuts
    have been sent.
   */
  ghost predicate Reaches(plan: RecvPlan, pos: nat, bufferSize: nat, n: nat, cuts: set<nat>, index: nat)
    decreases index
  {
    index == 0 || exists j: nat, c: nat ::
      && j < index && j < c && c in cuts && Reaches(plan, pos, bufferSize, n, cuts, j)
      && index == Min(j + Piece(plan, pos, bufferSize, n, j), c)
  }

  /** The loop can go on at this index: the buffer is not full, the recv does not fail, and its request is not empty. */
  ghost predicate GoesOn(plan: RecvPlan, pos: nat, bufferSize: nat, n: nat, index: nat)
  {
    index < bufferSize && EventAt(plan, pos + index).Deliver? && 2 * index != Larger(bufferSize, n)
  }

  /** Wherever the loop can come to before the end of the body, it can go on. */
  ghost predicate BodyOk(plan: RecvPlan, pos: nat, bufferSize: nat, n: nat, cuts: set<nat>)
  {
    forall i: nat :: i < n && Reaches(plan, pos, bufferSize, n, cuts, i) ==> GoesOn(plan, pos, bufferSize, n, i)
  }

  /** One recv of a body of which everything is there. */
  lemma OnePiece(plan: RecvPlan, pos: nat, stream: string, bufferSize: nat, room: nat, i: nat)
    requires i < |stream| <= room && |stream| < INT32 && bufferSize < INT32
    ensures GoesOn(plan, pos, bufferSize, |stream|, i) ==>
              var next := Min(i + Piece(plan, pos, bufferSize, |stream|, i), |stream|);
              i < next && ReceiveRun(plan, pos, stream, i, bufferSize, |stream|, room)
                       == ReceiveRun(plan, pos, stream, next, bufferSize, |stream|, room)
    ensures !GoesOn(plan, pos, bufferSize, |stream|, i) ==>
              ReceiveRun(plan, pos, stream, i, bufferSize, |stream|, room) != Returned(|stream|, |stream|)
  {
    if i < bufferSize { RequestSmall(bufferSize, |stream|, i); }
  }

  lemma {:induction false} FromReached(plan: RecvPlan, pos: nat, stream: string, bufferSize: nat, room: nat, i: nat)
    requires i <= |stream| <= room && |stream| < INT32 && bufferSize < INT32
    requires BodyOk(plan, pos, bufferSize, |stream|, {|stream|})
    requires Reaches(plan, pos, bufferSize, |stream|, {|stream|}, i)
    ensures ReceiveRun(plan, pos, stream, i, bufferSize, |stream|, room) == Returned(|stream|, |stream|)
    decreases |stream| - i
  {
    hide ReceiveRun, GoesOn, Piece;
    var n := |stream|;
    if i < n {
      OnePiece(plan, pos, stream, bufferSize, room, i);
      var next := Min(i + Piece(plan, pos, bufferSize, n, i), n);
      assert n in {n} && Reaches(plan, pos, bufferSize, n, {n}, next);
      FromReached(plan, pos, stream, bufferSize, room, next);
    } else {
      EndOfBody(plan, pos, stream, bufferSize, room);
    }
  }

  lemma EndOfBody(plan: RecvPlan, pos: nat, stream: string, bufferSize: nat, room: nat)
    requires |stream| <= room
    ensures ReceiveRun(plan, pos, stream, |stream|, bufferSize, |stream|, room) == Returned(|stream|, |stream|)
  {
  }

  lemma {:induction false} ToReached(plan: RecvPlan, pos: nat, stream: string, bufferSize: nat, room: nat, i: nat)
    requires i <= |stream| <= room && |stream| < INT32 && bufferSize < INT32
    requires ReceiveRun(plan, pos, stream, 0, bufferSize, |stream|, room) == Returned(|stream|, |stream|)
    requires Reaches(plan, pos, bufferSize, |stream|, {|stream|}, i)
    ensures ReceiveRun(plan, pos, stream, i, bufferSize, |stream|, room) == Returned(|stream|, |stream|)
    decreases i
  {
    hide ReceiveRun, GoesOn, Piece;
    var n := |stream|;
    if i > 0 {
      var j: nat, c: nat :| j < i && j < c && c in {n} && Reaches(plan, pos, bufferSize, n, {n}, j)
        && i == Min(j + Piece(plan, pos, bufferSize, n, j), c);
      ToReached(plan, pos, stream, bufferSize, room, j);
      OnePiece(plan, pos, stream, bufferSize, room, j);
    }
  }

  /** A body with nothing behind it is received if and only if the loop can go on wherever it comes to. */
  lemma BodyExact(plan: RecvPlan, pos: nat, stream: string, bufferSize: nat, room: nat)
    requires |stream| <= room && |stream| < INT32 && bufferSize < INT32
    ensures ReceiveRun(plan, pos, stream, 0, bufferSize, |stream|, room) == Returned(|stream|, |stream|)
       <==> BodyOk(plan, pos, bufferSize, |stream|, {|stream|})
  {
    hide ReceiveRun, GoesOn, Piece;
    var n := |stream|;
    if BodyOk(plan, pos, bufferSize, n, {n}) {
      FromReached(plan, pos, stream, bufferSize, room, 0);
    } else {
      var i: nat :| i < n && Reaches(plan, pos, bufferSize, n, {n}, i) && !GoesOn(plan, pos, bufferSize, n, i);
      if ReceiveRun(plan, pos, stream, 0, bufferSize, n, room) == Returned(n, n) {
        ToReached(plan, pos, stream, bufferSize, room, i);
        OnePiece(plan, pos, stream, bufferSize, room, i);
      }
    }
  }

  // ---- every chunking ----

  ghost predicate Delivers(plan: RecvPlan, from: nat, to: nat)
  {
    forall p :: from <= p < to ==> EventAt(plan, p).Deliver?
  }

  /** Sizes for which no request of the loop is empty. */
  predicate AnyChunking(bufferSize: nat, n: nat)
  {
    n <= bufferSize && (bufferSize % 2 == 1 || 2 * n <= bufferSize)
  }

  /** With such a size the body gets through whatever the pieces and the cuts are. */
  lemma AnyCuts(plan: RecvPlan, pos: nat, bufferSize: nat, n: nat, cuts: set<nat>)
    requires AnyChunking(bufferSize, n) && Delivers(plan, pos, pos + n)
    ensures BodyOk(plan, pos, bufferSize, n, cuts)
  {
    forall i: nat | i < n ensures GoesOn(plan, pos, bufferSize, n, i) {
      assert EventAt(plan, pos + i).Deliver?;
    }
  }

  /** With every size the body gets through if one recv delivers all of it and all of it has been sent at once. */
  lemma WholeBody(plan: RecvPlan, pos: nat, bufferSize: nat, n: nat)
    requires 0 < n < INT32 && 0 < bufferSize < INT32
    requires EventAt(plan, pos).Deliver? && EventAt(plan, pos).most >= n
    ensures BodyOk(plan, pos, bufferSize, n, {0, n})
  {
    RequestSmall(bufferSize, n, 0);
    forall i: nat | i < n && Reaches(plan, pos, bufferSize, n, {0, n}, i) ensures i == 0 {
      OnlyStart(plan, pos, bufferSize, n, i);
    }
  }

  lemma {:induction false} OnlyStart(plan: RecvPlan, pos: nat, bufferSize: nat, n: nat, i: nat)
    requires i < n && Piece(plan, pos, bufferSize, n, 0) >= n && Reaches(plan, pos, bufferSize, n, {0, n}, i)
    ensures i == 0
    decreases i
  {
    if i > 0 {
      var j: nat, c: nat :| j < i && j < c && c in {0, n} && Reaches(plan, pos, bufferSize, n, {0, n}, j)
        && i == Min(j + Piece(plan, pos, bufferSize, n, j), c);
      OnlyStart(plan, pos, bufferSize, n, j);
    }
  }

  /** Whatever the chunking, a message of n bytes with `behind` more bytes on the stream is received. */
  ghost predicate AlwaysReceived(bufferSize: nat, n: nat, behind: nat)
  {
    forall plan: RecvPlan, pos: nat, stream: string ::
      Delivers(plan, pos, pos + |stream|) && |stream| == n + behind ==>
        ReceiveRun(plan, pos, stream, 0, bufferSize, n, |stream|) == Returned(n, n)
  }

  /**
    The loop survives every chunking exactly when no request of it can be empty. With bytes behind the message
    it does so only for one byte and a buffer of one byte.
   */
  lemma ChunkingBound(bufferSize: nat, n: nat, behind: nat)
    requires 0 < n && n + behind < INT32 && bufferSize < INT32
    ensures AlwaysReceived(bufferSize, n, behind) <==>
              if behind == 0 then AnyChunking(bufferSize, n) else n == 1 && bufferSize == 1
  {
    hide RequestSize;
    if behind == 0 && AnyChunking(bufferSize, n) {
      forall plan: RecvPlan, pos: nat, stream: string | Delivers(plan, pos, pos + |stream|) && |stream| == n + behind
        ensures ReceiveRun(plan, pos, stream, 0, bufferSize, n, |stream|) == Returned(n, n)
      {
        AnyCuts(plan, pos, bufferSize, n, {n});
        BodyExact(plan, pos, stream, bufferSize, n);
      }
    } else if behind == 0 {
      BadChunking(bufferSize, n);
    } else if n == 1 && bufferSize == 1 {
      RequestSmall(1, 1, 0);
      forall plan: RecvPlan, pos: nat, stream: string | Delivers(plan, pos, pos + |stream|) && |stream| == n + behind
        ensures ReceiveRun(plan, pos, stream, 0, bufferSize, n, |stream|) == Returned(n, n)
      {
        assert EventAt(plan, pos + 0).Deliver?;
        assert RecvAmount(EventAt(plan, pos), |stream|, 1) == 1;
      }
    } else {
      BadTail(bufferSize, n, behind);
    }
  }

  /** A chunking that the loop does not survive: up to the empty request, or up to the end of a too small buffer. */
  lemma BadChunking(bufferSize: nat, n: nat)
    requires 0 < n < INT32 && bufferSize < INT32 && !AnyChunking(bufferSize, n)
    ensures !AlwaysReceived(bufferSize, n, 0)
  {
    hide RequestSize;
    var first: Positive := if bufferSize == 0 then 1 else if n > bufferSize then bufferSize else bufferSize / 2;
    var plan: RecvPlan := p => Deliver(first);
    var stream := seq(n, _ => 'x');
    assert Delivers(plan, 0, 0 + |stream|);
    if bufferSize > 0 {
      RequestSmall(bufferSize, n, 0);
      assert EventAt(plan, 0) == Deliver(first);
      if n <= bufferSize {
        RequestSmall(bufferSize, n, first);
      }
    }
    assert ReceiveRun(plan, 0, stream, 0, bufferSize, n, |stream|) != Returned(n, n);
  }

  /** A chunking with which the loop takes too much, or stops early, when more bytes follow. */
  lemma BadTail(bufferSize: nat, n: nat, behind: nat)
    requires 0 < n && 0 < behind && n + behind < INT32 && bufferSize < INT32 && !(n == 1 && bufferSize == 1)
    ensures !AlwaysReceived(bufferSize, n, behind)
  {
    hide RequestSize;
    var first: Positive :=
      if bufferSize == 0 then 1 else if bufferSize > n then n + 1 else if bufferSize < n then bufferSize else n - 1;
    var plan: RecvPlan := p => if p == 0 then Deliver(first) else Deliver(2);
    var stream := seq(n + behind, _ => 'x');
    assert Delivers(plan, 0, 0 + |stream|);
    if bufferSize > 0 {
      RequestSmall(bufferSize, n, 0);
      assert EventAt(plan, 0) == Deliver(first) &&
          EventAt(plan, 0 + (n - 1)) == (if n == 1 then Deliver(first) else Deliver(2));
      if bufferSize == n {
        RequestSmall(bufferSize, n, n - 1);
      }
    }
    assert ReceiveRun(plan, 0, stream, 0, bufferSize, n, |stream|) != Returned(n, n);
  }

  /** With bytes of a next message behind it, a message smaller than the buffer is not safe: the recv is greedy. */
  lemma GreedyRecv(bufferSize: nat, n: nat, stream: string) returns (plan: RecvPlan)
    requires 0 < n < bufferSize < INT32 && n < |stream|
    ensures Delivers(plan, 0, |stream|)
    ensures ReceiveRun(plan, 0, stream, 0, bufferSize, n, |stream|) == Returned(n + 1, n + 1)
  {
    plan := p => Deliver(n + 1);
    RequestSmall(bufferSize, n, 0);
    assert EventAt(plan, 0) == Deliver(n + 1);
  }

  /** Whatever the chunking, the loop stays inside a buffer of `room` bytes. */
  ghost predicate NeverOverruns(bufferSize: nat, n: nat, available: nat, room: nat)
  {
    forall plan: RecvPlan, pos: nat, stream: string :: |stream| == available ==>
      !ReceiveRun(plan, pos, stream, 0, bufferSize, n, room).Overrun?
  }

  /** Every request of the loop stays inside the buffer. */
  predicate RequestsFit(bufferSize: nat, n: nat, room: nat)
  {
    || bufferSize == 0 || n == 0
    || (Larger(bufferSize, n) <= room && 2 * (Min(bufferSize, n) - 1) <= Larger(bufferSize, n))
  }

  /**
    Some chunking leaves the buffer if and only if more is on the stream than the buffer holds and some
    request does not fit.
   */
  lemma OverrunBound(bufferSize: nat, n: nat, available: nat, room: nat)
    requires bufferSize < INT32 && n < INT32 && available < INT32
    ensures NeverOverruns(bufferSize, n, available, room) <==> available <= room || RequestsFit(bufferSize, n, room)
  {
    if available <= room || RequestsFit(bufferSize, n, room) {
      forall plan: RecvPlan, pos: nat, stream: string | |stream| == available
        ensures !ReceiveRun(plan, pos, stream, 0, bufferSize, n, room).Overrun?
      {
        StaysInside(plan, pos, stream, 0, bufferSize, n, room);
      }
    } else {
      OverrunWitness(bufferSize, n, available, room);
    }
  }

  lemma {:induction false} StaysInside(plan: RecvPlan, pos: nat, stream: string, index: nat, bufferSize: nat, n: nat,
                                       room: nat)
    requires bufferSize < INT32 && n < INT32 && |stream| < INT32 && index <= |stream| && index <= room
    requires |stream| <= room || RequestsFit(bufferSize, n, room)
    ensures !ReceiveRun(plan, pos, stream, index, bufferSize, n, room).Overrun?
    decreases n - index
  {
    hide RequestSize;
    if index < bufferSize && index < n {
      RequestSmall(bufferSize, n, index);
      var got := RecvAmount(EventAt(plan, pos + index), |stream| - index, RequestSize(bufferSize, n, index));
      if got > 0 {
        StaysInside(plan, pos, stream, index + got, bufferSize, n, room);
      }
    }
  }

  lemma OverrunWitness(bufferSize: nat, n: nat, available: nat, room: nat)
    requires bufferSize < INT32 && n < INT32 && room < available < INT32 && !RequestsFit(bufferSize, n, room)
    ensures !NeverOverruns(bufferSize, n, available, room)
  {
    hide RequestSize;
    var larger, smaller := Larger(bufferSize, n), Min(bufferSize, n);
    var first: Positive := if larger > room then larger else smaller - 1;
    var plan: RecvPlan := p => if p == 0 then Deliver(first) else Deliver(available);
    var stream := seq(available, _ => 'x');
    RequestSmall(bufferSize, n, 0);
    assert EventAt(plan, 0) == Deliver(first);
    if larger <= room {
      assert EventAt(plan, 0 + first) == Deliver(available);
      RequestSmall(bufferSize, n, first);
    }
    assert ReceiveRun(plan, 0, stream, 0, bufferSize, n, room).Overrun?;
  }

  // ---- whole messages ----

  /**
    The exact condition under which the frame of an n-byte payload that starts at position pos gets through, if
    all of it is sent before any of it is received.
   */
  ghost predicate FrameOk(recvPlan: RecvPlan, sendPlan: SendPlan, pos: nat, n: nat, bufferSize: nat)
  {
    && n < INT32 && 0 < bufferSize < INT32
    && AcceptedAt(sendPlan, pos) >= 4 && SendsOk(sendPlan, pos + 4, n)
    && HeaderOk(recvPlan, pos, 4 + n) && BodyOk(recvPlan, pos + 4, bufferSize, n, {n})
  }

  /** The same if any part of it may be received as soon as it is sent. */
  ghost predicate FrameAlwaysOk(recvPlan: RecvPlan, sendPlan: SendPlan, pos: nat, n: nat, bufferSize: nat)
  {
    && n < INT32 && 0 < bufferSize < INT32
    && AcceptedAt(sendPlan, pos) >= 4 && SendsOk(sendPlan, pos + 4, n)
    && HeaderOk(recvPlan, pos, 4 + n) && BodyOk(recvPlan, pos + 4, bufferSize, n, Cuts(sendPlan, pos + 4, n))
  }

  lemma {:induction false} FewerCuts(plan: RecvPlan, pos: nat, bufferSize: nat, n: nat, cuts: set<nat>, more: set<nat>,
                                     i: nat)
    requires cuts <= more && Reaches(plan, pos, bufferSize, n, cuts, i)
    ensures Reaches(plan, pos, bufferSize, n, more, i)
    decreases i
  {
    if i > 0 {
      var j: nat, c: nat :| j < i && j < c && c in cuts && Reaches(plan, pos, bufferSize, n, cuts, j)
        && i == Min(j + Piece(plan, pos, bufferSize, n, j), c);
      FewerCuts(plan, pos, bufferSize, n, cuts, more, j);
      assert c in more;
    }
  }

  /** What gets through in every interleaving gets through when sender and receiver take turns. */
  lemma AlwaysOkIsOk(recvPlan: RecvPlan, sendPlan: SendPlan, pos: nat, n: nat, bufferSize: nat)
    requires FrameAlwaysOk(recvPlan, sendPlan, pos, n, bufferSize)
    ensures FrameOk(recvPlan, sendPlan, pos, n, bufferSize)
  {
    hide GoesOn, HeaderOk;
    var q := pos + 4;
    AllIsSent(sendPlan, q, n, 0);
    forall i: nat | i < n && Reaches(recvPlan, q, bufferSize, n, {n}, i)
      ensures GoesOn(recvPlan, q, bufferSize, n, i)
    {
      FewerCuts(recvPlan, q, bufferSize, n, {n}, Cuts(sendPlan, q, n), i);
    }
  }

  lemma SentExactly(sendPlan: SendPlan, pos: nat, payload: string)
    ensures SendRet(sendPlan, pos, payload) == 1 && SendWire(sendPlan, pos, payload) == Frame(payload)
       <==> AcceptedAt(sendPlan, pos) >= 4 && SendsOk(sendPlan, pos + 4, |payload|)
  {
    var n, k := |payload|, HeaderSent(sendPlan, pos);
    AllIsSent(sendPlan, pos + 4, n, 0);
    if k > 0 {
      assert |Header(n)[..k]| == k;
      assert |SendWire(sendPlan, pos, payload)| == k + SendLoop(sendPlan, pos + k, n, 0).sent;
      assert k == 4 ==> Header(n)[..4] == Header(n) && payload[..n] == payload;
    }
  }

  /**
    Send, then receive: the same bytes arrive and the stream is empty again if and only if the frame gets
    through. An empty message arrives as 0.
   */
  lemma {:induction false} RoundTrip(recvPlan: RecvPlan, sendPlan: SendPlan, pos: nat, payload: string,
                                     bufferSize: nat, room: nat)
    requires |payload| < INT32 && |payload| <= room && 0 < bufferSize < INT32
    ensures FrameOk(recvPlan, sendPlan, pos, |payload|, bufferSize) <==>
              && SendRet(sendPlan, pos, payload) == 1 && SendWire(sendPlan, pos, payload) == Frame(payload)
              && ReceiveMessage(recvPlan, pos, Frame(payload), bufferSize, room) == Returned(|payload|, 4 + |payload|)
  {
    hide SendRet, SendWire, HeaderOk, BodyOk, SendsOk, ReceiveRun;
    var n, stream := |payload|, Frame(payload);
    SentExactly(sendPlan, pos, payload);
    assert stream[..4] == Header(n) && stream[4..] == payload;
    DecodeHeader(n);
    HeaderExact(recvPlan, pos, stream);
    BodyExact(recvPlan, pos + 4, payload, bufferSize, room);
  }
}
