/** The broadcast thread: what it does with a datagram, and which peers it announces to the command client. */
module Broadcast {
  import opened AddressLists
  import opened MessageQueues
  import opened Options
  import opened PeerLists
  import opened SocketAddresses

  // ---- packets ----

  const PROTOCOL_ID := "P2PFSYNC"
  const ID_SIZE := 6
  const PACKET_SIZE := 15
  const MESSAGE_TYPE_DISCOVER := 10 as char
  const MESSAGE_TYPE_AVAILABLE := 11 as char

  datatype Packet = Discover(sender: PeerId) | Available(sender: PeerId)

  /** The bytes of the packed packet structure. */
  function Encode(p: Packet): string
  {
    PROTOCOL_ID + [if p.Discover? then MESSAGE_TYPE_DISCOVER else MESSAGE_TYPE_AVAILABLE] + p.sender
  }

  predicate IsPacketValid(bytes: string)
    requires |bytes| == PACKET_SIZE
  {
    bytes[..8] == PROTOCOL_ID && (bytes[8] == MESSAGE_TYPE_DISCOVER || bytes[8] == MESSAGE_TYPE_AVAILABLE)
  }

  /** The packet that a received datagram holds: the size is tested first. */
  function ReadPacket(bytes: string): Option<Packet>
  {
    if |bytes| == PACKET_SIZE && IsPacketValid(bytes) then
      Some(if bytes[8] == MESSAGE_TYPE_DISCOVER then Discover(bytes[9..]) else Available(bytes[9..]))
    else None
  }

  /**
    A datagram is accepted exactly if it is the encoding of a packet with a six byte sender id, and it is read
    as that packet.
   */
  lemma PacketRoundTrip(bytes: string, p: Packet)
    ensures ReadPacket(bytes) == Some(p) <==> bytes == Encode(p) && |p.sender| == ID_SIZE
  {
    var encoded := Encode(p);
    assert encoded[..8] == PROTOCOL_ID && encoded[9..] == p.sender;
    assert MESSAGE_TYPE_DISCOVER != MESSAGE_TYPE_AVAILABLE;
    if ReadPacket(bytes) == Some(p) {
      assert bytes == bytes[..8] + [bytes[8]] + bytes[9..];
    }
  }

  /** The bytes of both packets, as they are sent. */
  lemma PacketBytes(id: PeerId)
    requires |id| == 6
    ensures Encode(Discover(id)) == "P2PFSYNC" + [10 as char] + id
    ensures Encode(Available(id)) == "P2PFSYNC" + [11 as char] + id
    ensures ReadPacket("P2PFSYNC" + [10 as char] + id) == Some(Discover(id))
    ensures ReadPacket("P2PFSYNC" + [11 as char] + id) == Some(Available(id))
  {
    PacketRoundTrip(Encode(Discover(id)), Discover(id));
    PacketRoundTrip(Encode(Available(id)), Available(id));
  }

  // ---- one node as a value ----

  /** What a node knows, the ids it has announced to its command client, and the datagrams it has answered with. */
  datatype Node = Node(ownId: PeerId, table: seq<Row>, announced: seq<PeerId>, sent: seq<(Address, string)>)

  predicate Knows(table: seq<Row>, id: PeerId) { FindPeer(table, id) < |table| }

  /** peer_seen. */
  function Seen(n: Node, id: PeerId, from: Address, now: Time): Node
  {
    n.(table := AddIp(n.table, id, from, now),
       announced := if Knows(n.table, id) then n.announced else n.announced + [id])
  }

  /**
    The reaction to one datagram: invalid ones and the node's own are ignored, a DISCOVER is answered if there is
    a socket and sendto succeeds.
   */
  function OnDatagram(n: Node, bytes: string, from: Address, now: Time, sendable: bool): Node
  {
    match ReadPacket(bytes)
    case None => n
    case Some(p) =>
      if p.sender == n.ownId then n
      else
        var seen := Seen(n, p.sender, from, now);
        if p.Discover? && sendable then seen.(sent := seen.sent + [(from, Encode(Available(n.ownId)))]) else seen
  }

  /**
    The peer list after a datagram: the address is recorded for the sender, with its time, and for nobody else;
    an invalid datagram and one of the node's own change nothing at all.
   */
  lemma SenderRecorded(n: Node, bytes: string, from: Address, now: Time, sendable: bool, id: PeerId)
    ensures var n' := OnDatagram(n, bytes, from, now, sendable);
            match ReadPacket(bytes)
            case None => n' == n
            case Some(p) =>
              if p.sender == n.ownId then n' == n
              else if id == p.sender then Lookup(n'.table, id) == Some(Update(AddressesOf(n.table, id), from, now))
              else Lookup(n'.table, id) == Lookup(n.table, id)
  {
    hide AddIp, Update, Lookup;
    match ReadPacket(bytes) {
      case Some(p) => AddOnMap(n.table, p.sender, from, now, id);
      case None =>
    }
  }

  /** The ids of the peers that messages to the command client are about. */
  function SeenIds(jobs: seq<Job>): seq<PeerId>
  {
    if jobs == [] then []
    else SeenIds(jobs[..|jobs| - 1]) + match jobs[|jobs| - 1] case PeerSeen(id, _) => [id] case DownloadFile(_, _) => []
  }

  lemma {:induction false} SeenIdsConcat(a: seq<Job>, b: seq<Job>)
    ensures SeenIds(a + b) == SeenIds(a) + SeenIds(b)
  {
    if b == [] {
      assert a + b == a;
    } else {
      var k := |b| - 1;
      assert (a + b)[..|a + b| - 1] == a + b[..k] && (a + b)[|a + b| - 1] == b[k];
      SeenIdsConcat(a, b[..k]);
    }
  }

  function Ids(table: seq<Row>): (ids: seq<PeerId>)
    ensures |ids| == |table| && forall i :: 0 <= i < |table| ==> ids[i] == table[i].id
  {
    if table == [] then [] else [table[0].id] + Ids(table[1..])
  }

  /** Adding an address leaves the ids and their order alone, except that an unknown id goes to the end. */
  lemma IdsOfAddIp(table: seq<Row>, id: PeerId, a: Address, t: Time)
    ensures Ids(AddIp(table, id, a, t)) == if Knows(table, id) then Ids(table) else Ids(table) + [id]
    ensures Knows(table, id) <==> id in Ids(table)
  {
    var i := FindPeer(table, id);
    if i < |table| { assert Ids(table)[i] == id; }
  }

  /** None of these ids comes twice, and none is the node's own. */
  ghost predicate Once(ids: seq<PeerId>, ownId: PeerId)
  {
    (forall i, j :: 0 <= i < j < |ids| ==> ids[i] != ids[j]) && ownId !in ids
  }

  ghost predicate AnnouncedOnce(n: Node)
  {
    n.announced == Ids(n.table) && Once(n.announced, n.ownId)
  }

  datatype Datagram = Datagram(bytes: string, from: Address, time: Time, sendable: bool)

  function OnAll(n: Node, datagrams: seq<Datagram>): Node
    decreases datagrams
  {
    if datagrams == [] then n
    else
      var d := datagrams[0];
      OnAll(OnDatagram(n, d.bytes, d.from, d.time, d.sendable), datagrams[1..])
  }

  lemma OnAllStep(n: Node, datagrams: seq<Datagram>, k: nat)
    requires k < |datagrams|
    ensures var d := datagrams[k];
            OnAll(n, datagrams[k..]) == OnAll(OnDatagram(n, d.bytes, d.from, d.time, d.sendable), datagrams[k + 1..])
  {
    assert datagrams[k..][1..] == datagrams[k + 1..];
  }

  lemma AllOfNone(n: Node)
    ensures OnAll(n, []) == n
  {
  }

  lemma {:induction false} OnceKept(n: Node, datagrams: seq<Datagram>)
    requires Once(Ids(n.table), n.ownId)
    ensures Once(Ids(OnAll(n, datagrams).table), n.ownId)
    decreases datagrams
  {
    if datagrams != [] {
      var d := datagrams[0];
      match ReadPacket(d.bytes) {
        case Some(p) => IdsOfAddIp(n.table, p.sender, d.from, d.time);
        case None =>
      }
      OnceKept(OnDatagram(n, d.bytes, d.from, d.time, d.sendable), datagrams[1..]);
    }
  }

  lemma IdsGained(table: seq<Row>, id: PeerId, from: Address, now: Time)
    ensures var pushed := if Knows(table, id) then [] else [MessageQueues.PeerSeen(id, from)];
            Ids(AddIp(table, id, from, now)) == Ids(table) + SeenIds(pushed)
  {
    hide AddIp, Knows, Ids;
    IdsOfAddIp(table, id, from, now);
  }

  lemma Regroup<T>(a: seq<T>, b: seq<T>, c: seq<T>)
    ensures (a + b) + c == a + (b + c)
  {
  }

  lemma NoSeenIds(datagrams: seq<Datagram>)
    ensures SeenIds([]) == [] && SentBy([], datagrams)
  {
  }

  /** Every message is about a peer, with the address that one of the datagrams came from. */
  ghost predicate SentBy(jobs: seq<Job>, datagrams: seq<Datagram>)
  {
    forall m :: m in jobs ==> m.PeerSeen? && exists d :: d in datagrams && m.peerAddress == d.from
  }

  lemma SentByMore(jobs: seq<Job>, more: seq<Job>, datagrams: seq<Datagram>, d: Datagram)
    requires SentBy(jobs, datagrams) && d in datagrams
    requires forall m :: m in more ==> m.PeerSeen? && m.peerAddress == d.from
    ensures SentBy(jobs + more, datagrams)
  {
  }

  /**
    Over every run, whatever datagrams arrive: the ids announced to the command client are exactly the ids of
    the peer list in the same order, none twice and never the node's own.
   */
  lemma {:induction false} AnnouncementsExact(n: Node, datagrams: seq<Datagram>)
    requires AnnouncedOnce(n)
    ensures AnnouncedOnce(OnAll(n, datagrams))
    decreases datagrams
  {
    if datagrams != [] {
      var d := datagrams[0];
      match ReadPacket(d.bytes) {
        case Some(p) => IdsOfAddIp(n.table, p.sender, d.from, d.time);
        case None =>
      }
      AnnouncementsExact(OnDatagram(n, d.bytes, d.from, d.time, d.sendable), datagrams[1..]);
    }
  }

  // ---- the thread ----

  class BroadcastThread {
    const ownId: PeerId
    const peers: PeerList
    const commands: MessageQueue
    var sent: seq<(Address, string)>
    ghost var announced: seq<PeerId>

    constructor (ownId: PeerId, peers: PeerList, commands: MessageQueue)
      ensures this.ownId == ownId && this.peers == peers && this.commands == commands
      ensures sent == [] && announced == []
    {
      this.ownId := ownId;
      this.peers := peers;
      this.commands := commands;
      sent := [];
      announced := [];
    }

    ghost predicate Valid()
      reads this, peers, peers.Repr, commands, commands.Repr
    {
      && peers.Valid() && commands.Valid() && peers.Repr !! commands.Repr
      && this !in peers.Repr && this !in commands.Repr
    }

    ghost function State(): (n: Node)
      requires Valid()
      ensures n.ownId == ownId
      reads this, peers, peers.Repr, commands, commands.Repr
    {
      Node(ownId, peers.Table(), announced, sent)
    }

    /** The message to the command client about a peer. */
    method Announce(id: PeerId, from: Address)
      requires Valid()
      modifies this`announced, commands.Repr
      ensures Valid() && fresh(commands.Repr - old(commands.Repr))
      ensures peers.Table() == old(peers.Table()) && announced == old(announced) + [id]
      ensures commands.Contents() == old(commands.Contents()) + [MessageQueues.PeerSeen(id, from)]
    {
      hide PeerList.Valid, PeerList.Table, MessageQueue.Valid, MessageQueue.Contents;
      var message := new Message(MessageQueues.PeerSeen(id, from));
      commands.Push(message);
      announced := announced + [id];
    }

    /** peer_seen: the test and the insertion take the lock of the list separately. */
    method PeerSeen(id: PeerId, from: Address, now: Time) returns (ghost pushed: seq<Job>)
      requires Valid()
      modifies this, peers.Repr, commands.Repr
      ensures Valid() && fresh(peers.Repr - old(peers.Repr)) && fresh(commands.Repr - old(commands.Repr))
      ensures State() == Seen(old(State()), id, from, now)
      ensures commands.Contents() == old(commands.Contents()) + pushed
      ensures pushed == if Knows(old(peers.Table()), id) then [] else [MessageQueues.PeerSeen(id, from)]
      ensures Ids(peers.Table()) == Ids(old(peers.Table())) + SeenIds(pushed)
    {
      hide PeerList.Valid, PeerList.Table, MessageQueue.Valid, MessageQueue.Contents, AddIp, FindPeer, Update,
           ReadPacket, Encode, Ids, SeenIds;
      IdsGained(peers.Table(), id, from, now);
      pushed := if Knows(peers.Table(), id) then [] else [MessageQueues.PeerSeen(id, from)];
      var known := peers.Contains(id);
      if !known {
        Announce(id, from);
      }
      peers.AddIpToPeer(id, from, now);
    }

    /** send_available_packet: one datagram with the node's own id, to the address the packet came from, or -1. */
    method SendAvailablePacket(to: Address, sendable: bool) returns (ret: int)
      modifies this`sent
      ensures ret == if sendable then 0 else -1
      ensures sent == old(sent) + if sendable then [(to, Encode(Available(ownId)))] else []
    {
      if !sendable {
        return -1;
      }
      sent := sent + [(to, PROTOCOL_ID + [MESSAGE_TYPE_AVAILABLE] + ownId)];
      ret := 0;
    }

    /**
      The body of the receive loop: the ids that the list gains are exactly those of the messages that are pushed,
      in order, and each message carries the address that the datagram came from.
     */
    method HandleDatagram(bytes: string, from: Address, now: Time, sendable: bool) returns (ghost pushed: seq<Job>)
      requires Valid()
      modifies this, peers.Repr, commands.Repr
      ensures Valid() && fresh(peers.Repr - old(peers.Repr)) && fresh(commands.Repr - old(commands.Repr))
      ensures State() == OnDatagram(old(State()), bytes, from, now, sendable)
      ensures commands.Contents() == old(commands.Contents()) + pushed
      ensures Ids(State().table) == Ids(old(State()).table) + SeenIds(pushed)
      ensures forall m :: m in pushed ==> m.PeerSeen? && m.peerAddress == from
    {
      hide PeerList.Valid, PeerList.Table, MessageQueue.Valid, MessageQueue.Contents, Ids, Seen, SeenIds, Knows;
      pushed := [];
      NoSeenIds([]);
      if |bytes| == PACKET_SIZE && IsPacketValid(bytes) {
        var sender := bytes[9..];
        if sender == ownId {
          return;
        }
        if bytes[8] == MESSAGE_TYPE_DISCOVER {
          pushed := PeerSeen(sender, from, now);
          var ret := SendAvailablePacket(from, sendable);
        } else if bytes[8] == MESSAGE_TYPE_AVAILABLE {
          pushed := PeerSeen(sender, from, now);
        }
      }
    }

    /**
      The receive loop: the ids of all messages that it ever pushes are exactly the ids that the list has gained, in
      order; on a node that started with an empty list they are the whole list, none twice and never its own.
     */
    method ReceiveLoop(datagrams: seq<Datagram>) returns (ghost pushed: seq<Job>)
      requires Valid()
      modifies this, peers.Repr, commands.Repr
      ensures Valid()
      ensures State() == OnAll(old(State()), datagrams)
      ensures commands.Contents() == old(commands.Contents()) + pushed
      ensures Ids(State().table) == Ids(old(State()).table) + SeenIds(pushed)
      ensures SentBy(pushed, datagrams)
      ensures Once(Ids(old(State()).table), ownId) ==> Once(Ids(State().table), ownId)
      ensures Ids(old(State()).table) == [] ==> Ids(State().table) == SeenIds(pushed)
    {
      hide PeerList.Valid, PeerList.Table, MessageQueue.Valid, MessageQueue.Contents, OnDatagram, Ids, SeenIds, Once,
           OnAll, SentBy, Valid, State;
      NoSeenIds(datagrams);
      ghost var start, ids, queued := State(), Ids(State().table), commands.Contents();
      pushed := [];
      var k := 0;
      assert datagrams[0..] == datagrams;
      while k < |datagrams|
        invariant k <= |datagrams| && Valid()
        invariant fresh(peers.Repr - old(peers.Repr)) && fresh(commands.Repr - old(commands.Repr))
        invariant OnAll(State(), datagrams[k..]) == OnAll(start, datagrams)
        invariant commands.Contents() == queued + pushed && Ids(State().table) == ids + SeenIds(pushed)
        invariant SentBy(pushed, datagrams)
      {
        var d := datagrams[k];
        OnAllStep(State(), datagrams, k);
        ghost var more := HandleDatagram(d.bytes, d.from, d.time, d.sendable);
        SeenIdsConcat(pushed, more);
        SentByMore(pushed, more, datagrams, d);
        Regroup(queued, pushed, more);
        Regroup(ids, SeenIds(pushed), SeenIds(more));
        pushed, k := pushed + more, k + 1;
      }
      assert datagrams[k..] == [];
      AllOfNone(State());
      if Once(ids, ownId) { OnceKept(start, datagrams); }
    }
  }

  // ---- other threads between the two lock sections of peer_seen ----

  /** Where the broadcast thread is in peer_seen. */
  datatype Pc = Waiting | Checked(id: PeerId, from: Address, known: bool) | Notified(id: PeerId, from: Address)

  datatype Shared = Shared(ownId: PeerId, table: seq<Row>, announced: seq<PeerId>, pc: Pc)

  /**
    One locked operation: the test of peer_seen for a packet of another node, its announcement, its insertion, or
    is_peer_in_list or remove_peer of another thread. A step that is not possible changes nothing.
   */
  datatype Action =
    | Check(id: PeerId, from: Address)
    | Notify
    | Insert(now: Time)
    | Ask(id: PeerId)
    | Forget(id: PeerId)

  function Act(s: Shared, a: Action): Shared
  {
    match (a, s.pc)
    case (Check(id, from), Waiting) => if id == s.ownId then s else s.(pc := Checked(id, from, Knows(s.table, id)))
    case (Notify, Checked(id, from, known)) =>
      s.(announced := if known then s.announced else s.announced + [id], pc := Notified(id, from))
    case (Insert(now), Notified(id, from)) => s.(table := AddIp(s.table, id, from, now), pc := Waiting)
    case (Forget(id), _) => s.(table := Remove(s.table, id))
    case _ => s
  }

  function ActAll(s: Shared, actions: seq<Action>): Shared
    decreases actions
  {
    if actions == [] then s else ActAll(Act(s, actions[0]), actions[1..])
  }

  /** Undisturbed, the three steps are peer_seen. */
  lemma ThreeActsArePeerSeen(n: Node, id: PeerId, from: Address, now: Time)
    requires id != n.ownId
    ensures ActAll(Shared(n.ownId, n.table, n.announced, Waiting), [Check(id, from), Notify, Insert(now)])
         == Shared(n.ownId, Seen(n, id, from, now).table, Seen(n, id, from, now).announced, Waiting)
  {
    hide AddIp, Knows, Remove;
    var actions := [Check(id, from), Notify, Insert(now)];
    var s0 := Shared(n.ownId, n.table, n.announced, Waiting);
    var s1 := Act(s0, actions[0]);
    var s2 := Act(s1, actions[1]);
    assert actions[1..] == [Notify, Insert(now)] && actions[1..][1..] == [Insert(now)] && [Insert(now)][1..] == [];
    assert ActAll(s0, actions) == ActAll(s1, actions[1..]) == ActAll(s2, [Insert(now)]);
    assert ActAll(s2, [Insert(now)]) == Act(s2, Insert(now));
  }

  /** The ids announced so far: those in the list, and one that is about to be inserted. */
  ghost predicate Announcing(s: Shared)
  {
    && (!s.pc.Waiting? ==> s.pc.id != s.ownId)
    && (s.pc.Checked? ==> (s.pc.known <==> Knows(s.table, s.pc.id)))
    && s.announced == Ids(s.table) + (if s.pc.Notified? && !Knows(s.table, s.pc.id) then [s.pc.id] else [])
    && Once(s.announced, s.ownId)
  }

  /**
    As long as nobody removes a peer: in every interleaving nobody is announced twice and the own id never, and
    between two packets exactly the listed peers are announced.
   */
  lemma {:induction false} AnnouncedOnceInterleaved(s: Shared, actions: seq<Action>)
    requires Announcing(s) && forall a :: a in actions ==> !a.Forget?
    ensures Announcing(ActAll(s, actions))
    ensures ActAll(s, actions).pc.Waiting? ==> ActAll(s, actions).announced == Ids(ActAll(s, actions).table)
    decreases actions
  {
    if actions != [] {
      AnnouncingKept(s, actions[0]);
      assert forall a :: a in actions[1..] ==> a in actions;
      AnnouncedOnceInterleaved(Act(s, actions[0]), actions[1..]);
    }
  }

  lemma AnnouncingKept(s: Shared, a: Action)
    requires Announcing(s) && !a.Forget?
    ensures Announcing(Act(s, a))
  {
    hide AddIp, Remove, FindPeer;
    match (a, s.pc) {
      case (Notify, Checked(id, from, known)) => IdsOfAddIp(s.table, id, from, 0);
      case (Insert(now), Notified(id, from)) => IdsOfAddIp(s.table, id, from, now);
      case _ =>
    }
  }

  function Times(ids: seq<PeerId>, id: PeerId): nat
  {
    if ids == [] then 0 else Times(ids[..|ids| - 1], id) + if ids[|ids| - 1] == id then 1 else 0
  }

  function Removals(actions: seq<Action>, id: PeerId): nat
  {
    if actions == [] then 0 else (if actions[0] == Forget(id) then 1 else 0) + Removals(actions[1..], id)
  }

  /** What the thread found out is still true where nothing was known: nobody else inserts. */
  ghost predicate Tested(s: Shared)
  {
    s.pc.Checked? && !s.pc.known ==> !Knows(s.table, s.pc.id)
  }

  /** The id can be announced before it is removed again. */
  predicate MayAnnounce(s: Shared, id: PeerId)
  {
    !Knows(s.table, id) && !(s.pc.Notified? && s.pc.id == id)
  }

  /** With removals by other threads, an id is announced at most once more than it is removed. */
  lemma {:induction false} AnnouncedAfterRemoval(s: Shared, actions: seq<Action>, id: PeerId)
    requires Tested(s)
    ensures Times(ActAll(s, actions).announced, id) <=
              Times(s.announced, id) + (if MayAnnounce(s, id) then 1 else 0) + Removals(actions, id)
    decreases actions
  {
    if actions != [] {
      hide Times;
      var s' := Act(s, actions[0]);
      OneAct(s, actions[0], id);
      AnnouncedAfterRemoval(s', actions[1..], id);
    }
  }

  lemma OneAct(s: Shared, a: Action, id: PeerId)
    requires Tested(s)
    ensures var s' := Act(s, a);
            && Tested(s')
            && Times(s'.announced, id) + (if MayAnnounce(s', id) then 1 else 0)
            <= Times(s.announced, id) + (if MayAnnounce(s, id) then 1 else 0) + (if a == Forget(id) then 1 else 0)
  {
    hide AddIp, Remove;
    match (a, s.pc) {
      case (Notify, Checked(k, from, known)) =>
        assert (s.announced + [k])[..|s.announced + [k]| - 1] == s.announced;
      case (Insert(now), Notified(k, from)) =>
        AddedIsKnown(s.table, k, from, now, id);
      case (Forget(k), _) =>
        RemovedIsUnknown(s.table, k, id);
        if s.pc.Checked? { RemovedIsUnknown(s.table, k, s.pc.id); }
      case _ =>
    }
  }

  lemma AddedIsKnown(table: seq<Row>, k: PeerId, from: Address, now: Time, id: PeerId)
    ensures Knows(AddIp(table, k, from, now), id) <==> Knows(table, id) || id == k
  {
    IdsOfAddIp(table, k, from, now);
    IdsOfAddIp(table, id, from, now);
    IdsOfAddIp(AddIp(table, k, from, now), id, from, now);
  }

  /** Removing one peer does not make another one known or unknown. */
  lemma RemovedIsUnknown(table: seq<Row>, k: PeerId, id: PeerId)
    ensures Knows(Remove(table, k), id) ==> Knows(table, id)
    ensures id != k && Knows(table, id) ==> Knows(Remove(table, k), id)
  {
    var i, j := FindPeer(table, k), FindPeer(table, id);
    if Knows(Remove(table, k), id) {
      var m := FindPeer(Remove(table, k), id);
      if i < |table| { assert table[Skipping(i, m)].id == id; }
      if j == |table| { assert false; }
    }
    if id != k && j < |table| && i < |table| {
      assert Remove(table, k)[if j < i then j else j - 1].id == id;
    }
  }

  /** One removal is enough for a second announcement. */
  lemma AnnouncedTwice(own: PeerId, id: PeerId, from: Address, now: Time)
    requires id != own
    ensures var run := [Check(id, from), Notify, Insert(now), Forget(id), Check(id, from), Notify];
            ActAll(Shared(own, [], [], Waiting), run).announced == [id, id]
  {
    var seen := [Check(id, from), Notify, Insert(now)];
    var again := [Forget(id), Check(id, from), Notify];
    var start, row := Shared(own, [], [], Waiting), Row(id, Update([], from, now));
    EmptyTable(id, from, now);
    hide ActAll, FindPeer, AddIp, Remove;
    ThreeActsArePeerSeen(Node(own, [], [], []), id, from, now);
    var s := Shared(own, [row], [id], Waiting);
    assert Seen(Node(own, [], [], []), id, from, now) == Node(own, [row], [] + [id], []);
    assert ActAll(start, seen) == s;
    ActAllSplit(start, seen, again);
    assert seen + again == [Check(id, from), Notify, Insert(now), Forget(id), Check(id, from), Notify];
    LastThree(s, again);
    var s1, s2 := Shared(own, [], [id], Waiting), Shared(own, [], [id], Checked(id, from, false));
    assert Act(s, Forget(id)) == s1 && Act(s1, Check(id, from)) == s2;
    assert Act(s2, Notify).announced == [id] + [id];
  }

  lemma EmptyTable(id: PeerId, from: Address, now: Time)
    ensures !Knows([], id) && AddIp([], id, from, now) == [Row(id, Update([], from, now))]
    ensures Remove([Row(id, Update([], from, now))], id) == []
  {
  }

  lemma LastThree(s: Shared, actions: seq<Action>)
    requires |actions| == 3
    ensures ActAll(s, actions) == Act(Act(Act(s, actions[0]), actions[1]), actions[2])
  {
    hide Act;
    var later, last := actions[1..], actions[2..];
    assert later[0] == actions[1] && later[1..] == last && last[0] == actions[2] && last[1..] == [];
    var s1 := Act(s, actions[0]);
    var s2 := Act(s1, actions[1]);
    assert ActAll(s, actions) == ActAll(s1, later) == ActAll(s2, last);
    assert ActAll(s2, last) == ActAll(Act(s2, actions[2]), []);
  }

  lemma {:induction false} ActAllSplit(s: Shared, a: seq<Action>, b: seq<Action>)
    ensures ActAll(s, a + b) == ActAll(ActAll(s, a), b)
    decreases a
  {
    if a == [] {
      assert a + b == b;
    } else {
      assert (a + b)[1..] == a[1..] + b;
      ActAllSplit(Act(s, a[0]), a[1..], b);
    }
  }
}
