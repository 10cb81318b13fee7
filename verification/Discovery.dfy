/** A network of nodes that discover each other: every node runs the broadcast thread, datagrams arrive in any order. */
module Discovery {
  import opened AddressLists
  import opened Broadcast
  import opened PeerLists
  import opened SocketAddresses

  /** A datagram on its way from one node to another. */
  datatype Flight = Flight(from: PeerId, to: PeerId)

  datatype Net = Net(nodes: map<PeerId, Node>, discovers: multiset<Flight>, availables: multiset<Flight>)

  /** The timer of a node fires and its DISCOVER goes out to some nodes; a datagram is delivered; a datagram is lost. */
  datatype Move =
    | Shout(node: PeerId, receivers: set<PeerId>)
    | DeliverDiscover(flight: Flight, source: Address, now: Time)
    | DeliverAvailable(flight: Flight, source: Address, now: Time)
    | LoseDiscover(flight: Flight)
    | LoseAvailable(flight: Flight)

  /** The nodes after the receiver of f has handled the packet p. */
  function NodesAfter(s: Net, f: Flight, p: Packet, source: Address, now: Time): map<PeerId, Node>
    requires f.to in s.nodes
  {
    s.nodes[f.to := OnDatagram(s.nodes[f.to], Encode(p), source, now, true)]
  }

  /**
    What the receiver of f sends while it handles p, back to where f came from; an answer that cannot be sent
    counts as lost.
   */
  function AnswersTo(s: Net, f: Flight, p: Packet, source: Address, now: Time): multiset<Flight>
    requires f.to in s.nodes
  {
    var after := OnDatagram(s.nodes[f.to], Encode(p), source, now, true);
    if |after.sent| > |s.nodes[f.to].sent| then multiset{Flight(f.to, f.from)} else multiset{}
  }

  /** The effect of a move; a move that is not possible changes nothing. */
  function Apply(s: Net, m: Move): Net
  {
    match m
    case Shout(node, receivers) =>
      if node in s.nodes && receivers <= s.nodes.Keys
      then s.(discovers := s.discovers + multiset(set r | r in receivers :: Flight(node, r)))
      else s
    case DeliverDiscover(f, source, now) =>
      if f in s.discovers && f.to in s.nodes then
        Net(NodesAfter(s, f, Discover(f.from), source, now), s.discovers - multiset{f},
            s.availables + AnswersTo(s, f, Discover(f.from), source, now))
      else s
    case DeliverAvailable(f, source, now) =>
      if f in s.availables && f.to in s.nodes then
        Net(NodesAfter(s, f, Available(f.from), source, now), s.discovers,
            s.availables - multiset{f} + AnswersTo(s, f, Available(f.from), source, now))
      else s
    case LoseDiscover(f) => s.(discovers := s.discovers - multiset{f})
    case LoseAvailable(f) => s.(availables := s.availables - multiset{f})
  }

  function ApplyAll(s: Net, moves: seq<Move>): Net
    decreases moves
  {
    if moves == [] then s else ApplyAll(Apply(s, moves[0]), moves[1..])
  }

  /** The node a has b in its peer list. */
  ghost predicate Lists(nodes: map<PeerId, Node>, a: PeerId, b: PeerId)
  {
    a in nodes && Broadcast.Knows(nodes[a].table, b)
  }

  ghost predicate GoodNodes(nodes: map<PeerId, Node>)
  {
    forall k :: k in nodes ==> nodes[k].ownId == k && |k| == ID_SIZE && AnnouncedOnce(nodes[k])
  }

  /** What every run keeps, with or without loss. */
  ghost predicate Sound(s: Net)
  {
    && GoodNodes(s.nodes)
    && (forall f :: f in s.discovers ==> f.from in s.nodes && f.to in s.nodes)
    && (forall f :: f in s.availables ==> f.to in s.nodes && Lists(s.nodes, f.from, f.to))
  }

  /** What every run that loses no AVAILABLE keeps: who is known knows back, or is about to. */
  ghost predicate Answered(s: Net)
  {
    forall a, b :: Lists(s.nodes, b, a) ==> Lists(s.nodes, a, b) || Flight(b, a) in s.availables
  }

  /** A delivered packet from another node makes its sender known, and nobody else; a DISCOVER is answered once. */
  lemma OneDelivery(n: Node, p: Packet, source: Address, now: Time)
    requires |p.sender| == ID_SIZE
    ensures var after := OnDatagram(n, Encode(p), source, now, true);
            && after.ownId == n.ownId
            && (p.sender == n.ownId ==> after == n)
            && (p.sender != n.ownId ==>
                  forall id :: Broadcast.Knows(after.table, id) <==> Broadcast.Knows(n.table, id) || id == p.sender)
            && after.sent ==
                 n.sent + (if p.Discover? && p.sender != n.ownId then [(source, Encode(Available(n.ownId)))] else [])
            && (AnnouncedOnce(n) ==> AnnouncedOnce(after))
  {
    hide FindPeer, AddIp, Ids, Encode, ReadPacket, AnnouncedOnce;
    PacketRoundTrip(Encode(p), p);
    AnnouncedKept(n, p, source, now);
    var after := OnDatagram(n, Encode(p), source, now, true);
    if p.sender != n.ownId {
      IdsOfAddIp(n.table, p.sender, source, now);
      forall id ensures Broadcast.Knows(after.table, id) <==> Broadcast.Knows(n.table, id) || id == p.sender {
        IdsOfAddIp(n.table, id, source, now);
        IdsOfAddIp(after.table, id, source, now);
      }
    }
  }

  lemma AnnouncedKept(n: Node, p: Packet, source: Address, now: Time)
    ensures AnnouncedOnce(n) ==> AnnouncedOnce(OnDatagram(n, Encode(p), source, now, true))
  {
    if AnnouncedOnce(n) {
      var d := [Datagram(Encode(p), source, now, true)];
      AnnouncementsExact(n, d);
      assert d[1..] == [];
    }
  }

  /** The nodes after a delivery: the receiver knows the sender, nothing else has changed; what it answers. */
  lemma OneDeliveryInNet(s: Net, f: Flight, p: Packet, source: Address, now: Time)
    requires Sound(s) && f.to in s.nodes && f.from in s.nodes && p.sender == f.from
    ensures var nodes := NodesAfter(s, f, p, source, now);
            && GoodNodes(nodes) && nodes.Keys == s.nodes.Keys
            && (forall a, b :: Lists(nodes, a, b) <==> Lists(s.nodes, a, b) || (a == f.to && b == f.from && a != b))
    ensures AnswersTo(s, f, p, source, now)
         == if p.Discover? && f.from != f.to then multiset{Flight(f.to, f.from)} else multiset{}
  {
    hide OnDatagram, Encode, Broadcast.Knows, AnnouncedOnce;
    OneDelivery(s.nodes[f.to], p, source, now);
  }

  lemma SoundAfter(s: Net, s': Net, f: Flight)
    requires Sound(s) && GoodNodes(s'.nodes) && s'.nodes.Keys == s.nodes.Keys && f.from in s.nodes
    requires forall a, b :: Lists(s.nodes, a, b) ==> Lists(s'.nodes, a, b)
    requires forall g :: g in s'.discovers ==> g in s.discovers
    requires forall g :: g in s'.availables ==>
        g in s.availables || (g == Flight(f.to, f.from) && Lists(s'.nodes, f.to, f.from))
    ensures Sound(s')
  {
    hide GoodNodes, Lists;
    forall g | g in s'.availables ensures g.to in s'.nodes && Lists(s'.nodes, g.from, g.to) {
    }
  }

  lemma AnsweredAfter(s: Net, s': Net, f: Flight)
    requires Sound(s) && Answered(s)
    requires forall a, b :: Lists(s'.nodes, a, b) <==> Lists(s.nodes, a, b) || (a == f.to && b == f.from && a != b)
    requires forall g :: g in s.availables ==>
        g in s'.availables || (g == f && (f.from == f.to || Lists(s'.nodes, f.to, f.from)))
    requires f.from != f.to ==> Lists(s'.nodes, f.from, f.to) || Flight(f.to, f.from) in s'.availables
    ensures Answered(s')
  {
    hide GoodNodes, Lists;
    forall a, b | Lists(s'.nodes, b, a) ensures Lists(s'.nodes, a, b) || Flight(b, a) in s'.availables {
      if Lists(s.nodes, b, a) {
        assert Lists(s.nodes, a, b) || Flight(b, a) in s.availables;
      }
    }
  }

  lemma DiscoverKeeps(s: Net, f: Flight, source: Address, now: Time)
    requires Sound(s) && f in s.discovers
    ensures Sound(Apply(s, DeliverDiscover(f, source, now)))
    ensures Answered(s) ==> Answered(Apply(s, DeliverDiscover(f, source, now)))
  {
    hide GoodNodes, Lists, NodesAfter, AnswersTo, Sound, Answered;
    SoundParts(s, f);
    OneDeliveryInNet(s, f, Discover(f.from), source, now);
    var s' := Apply(s, DeliverDiscover(f, source, now));
    SoundAfter(s, s', f);
    if Answered(s) { AnsweredAfter(s, s', f); }
  }

  lemma AvailableKeeps(s: Net, f: Flight, source: Address, now: Time)
    requires Sound(s) && f in s.availables
    ensures Sound(Apply(s, DeliverAvailable(f, source, now)))
    ensures Answered(s) ==> Answered(Apply(s, DeliverAvailable(f, source, now)))
  {
    hide GoodNodes, Lists, NodesAfter, AnswersTo, Sound, Answered;
    SoundParts(s, f);
    OneDeliveryInNet(s, f, Available(f.from), source, now);
    var s' := Apply(s, DeliverAvailable(f, source, now));
    SoundAfter(s, s', f);
    if Answered(s) { AnsweredAfter(s, s', f); }
  }

  lemma SoundParts(s: Net, f: Flight)
    requires Sound(s) && (f in s.discovers || f in s.availables)
    ensures f.from in s.nodes && f.to in s.nodes
    ensures f in s.availables ==> Lists(s.nodes, f.from, f.to)
  {
  }

  lemma ShoutKeeps(s: Net, node: PeerId, receivers: set<PeerId>)
    requires Sound(s)
    ensures Sound(Apply(s, Shout(node, receivers)))
    ensures Answered(s) ==> Answered(Apply(s, Shout(node, receivers)))
  {
    hide GoodNodes, Lists;
  }

  /** Fewer datagrams on their way are sound as well. */
  lemma FewerAreSound(s: Net, s': Net)
    requires Sound(s) && s'.nodes == s.nodes
    requires forall g :: (g in s'.discovers ==> g in s.discovers) && (g in s'.availables ==> g in s.availables)
    ensures Sound(s')
    ensures Answered(s) && s'.availables == s.availables ==> Answered(s')
  {
    hide GoodNodes, Lists;
  }

  /**
    The loss of an AVAILABLE does no harm exactly if its receiver lists the sender already or a second one is
    on its way.
   */
  lemma LossMatters(s: Net, f: Flight)
    requires Sound(s) && Answered(s) && f in s.availables
    ensures Answered(Apply(s, LoseAvailable(f))) <==> Lists(s.nodes, f.to, f.from) || s.availables[f] > 1
  {
    hide GoodNodes, Lists;
    var s' := Apply(s, LoseAvailable(f));
    assert Lists(s.nodes, f.from, f.to);
    if Lists(s.nodes, f.to, f.from) || s.availables[f] > 1 {
      forall a, b | Lists(s'.nodes, b, a) ensures Lists(s'.nodes, a, b) || Flight(b, a) in s'.availables {
        assert Lists(s.nodes, a, b) || Flight(b, a) in s.availables;
      }
    } else {
      assert Lists(s'.nodes, f.from, f.to) && Flight(f.from, f.to) == f && f !in s'.availables;
    }
  }

  /**
    Any single move, loss included, keeps soundness; any move but the loss of an AVAILABLE keeps every listing
    answered.
   */
  lemma MoveKeeps(s: Net, m: Move)
    requires Sound(s)
    ensures Sound(Apply(s, m))
    ensures Answered(s) && !m.LoseAvailable? ==> Answered(Apply(s, m))
  {
    hide GoodNodes, Lists, NodesAfter, AnswersTo, Sound, Answered;
    match m {
      case Shout(node, receivers) => ShoutKeeps(s, node, receivers);
      case DeliverDiscover(f, source, now) =>
        if f in s.discovers { DiscoverKeeps(s, f, source, now); }
      case DeliverAvailable(f, source, now) =>
        if f in s.availables { AvailableKeeps(s, f, source, now); }
      case LoseDiscover(_) => FewerAreSound(s, Apply(s, m));
      case LoseAvailable(_) => FewerAreSound(s, Apply(s, m));
    }
  }

  /**
    In every reachable state an AVAILABLE on its way was sent by a node that lists its destination; loss does
    not matter.
   */
  lemma {:induction false} AlwaysSound(s: Net, moves: seq<Move>)
    requires Sound(s)
    ensures Sound(ApplyAll(s, moves))
    decreases moves
  {
    if moves != [] {
      MoveKeeps(s, moves[0]);
      AlwaysSound(Apply(s, moves[0]), moves[1..]);
    }
  }

  /**
    In every run that loses no AVAILABLE, if b lists a then a lists b or an AVAILABLE from b to a is on its way; hence
    once the network has drained, listing is symmetric.
   */
  lemma {:induction false} Symmetric(s: Net, moves: seq<Move>)
    requires Sound(s) && Answered(s) && forall m :: m in moves ==> !m.LoseAvailable?
    ensures Answered(ApplyAll(s, moves))
    ensures ApplyAll(s, moves).availables == multiset{} ==>
              forall a, b :: Lists(ApplyAll(s, moves).nodes, a, b) <==> Lists(ApplyAll(s, moves).nodes, b, a)
    decreases moves
  {
    if moves != [] {
      MoveKeeps(s, moves[0]);
      assert forall m :: m in moves[1..] ==> m in moves;
      Symmetric(Apply(s, moves[0]), moves[1..]);
    }
  }

  /** Nodes that have just been started. */
  function Start(ids: set<PeerId>): Net
  {
    Net(map id | id in ids :: Node(id, [], [], []), multiset{}, multiset{})
  }

  lemma StartIsFine(ids: set<PeerId>)
    requires forall id :: id in ids ==> |id| == ID_SIZE
    ensures Sound(Start(ids)) && Answered(Start(ids))
  {
  }

  /** A node that has just been started sends a DISCOVER to another one. */
  lemma FirstShout(a: PeerId, b: PeerId)
    requires |a| == ID_SIZE && |b| == ID_SIZE
    ensures var s := Apply(Start({a, b}), Shout(a, {b}));
            && Sound(s) && a in s.nodes && b in s.nodes && !Lists(s.nodes, a, b)
            && s.discovers == multiset{Flight(a, b)} && s.availables == multiset{}
  {
    hide Sound, Answered, Lists, GoodNodes;
    StartIsFine({a, b});
    MoveKeeps(Start({a, b}), Shout(a, {b}));
    NobodyListed({a, b}, a, b);
    assert (set r | r in {b} :: Flight(a, r)) == {Flight(a, b)};
  }

  lemma NobodyListed(ids: set<PeerId>, a: PeerId, b: PeerId)
    ensures !Lists(Start(ids).nodes, a, b)
  {
  }

  /** The only datagram on its way, a DISCOVER, is delivered: its receiver lists its sender and answers. */
  lemma FirstContact(s: Net, a: PeerId, b: PeerId, source: Address, now: Time)
    requires Sound(s) && a != b && a in s.nodes && b in s.nodes && !Lists(s.nodes, a, b)
    requires s.discovers == multiset{Flight(a, b)} && s.availables == multiset{}
    ensures var s' := Apply(s, DeliverDiscover(Flight(a, b), source, now));
            && s'.discovers == multiset{} && s'.availables == multiset{Flight(b, a)}
            && Lists(s'.nodes, b, a) && !Lists(s'.nodes, a, b)
  {
    hide OnDatagram, Encode, GoodNodes, NodesAfter, AnswersTo, Lists;
    OneDeliveryInNet(s, Flight(a, b), Discover(a), source, now);
    assert multiset{Flight(a, b)} - multiset{Flight(a, b)} == multiset{};
  }

  /** After one lost AVAILABLE the network has drained, and yet one node lists another one that does not list it. */
  lemma LossBreaksSymmetry(a: PeerId, b: PeerId, source: Address, now: Time)
    requires a != b && |a| == ID_SIZE && |b| == ID_SIZE
    ensures var run := [Shout(a, {b}), DeliverDiscover(Flight(a, b), source, now), LoseAvailable(Flight(b, a))];
            var s := ApplyAll(Start({a, b}), run);
            Weight(s) == 0 && Lists(s.nodes, b, a) && !Lists(s.nodes, a, b)
  {
    hide Lists, ApplyAll, Start, NodesAfter, AnswersTo;
    var m1, m2, m3 := Shout(a, {b}), DeliverDiscover(Flight(a, b), source, now), LoseAvailable(Flight(b, a));
    ThreeMoves(Start({a, b}), m1, m2, m3);
    var s1 := Apply(Start({a, b}), m1);
    FirstShout(a, b);
    FirstContact(s1, a, b, source, now);
    AfterLoss(Apply(s1, m2), Flight(b, a));
  }

  lemma AfterLoss(s: Net, f: Flight)
    ensures Apply(s, LoseAvailable(f)).nodes == s.nodes
    ensures s.discovers == multiset{} && s.availables == multiset{f} ==> Weight(Apply(s, LoseAvailable(f))) == 0
  {
    assert multiset{f} - multiset{f} == multiset{};
  }

  lemma ThreeMoves(s: Net, m1: Move, m2: Move, m3: Move)
    ensures ApplyAll(s, [m1, m2, m3]) == Apply(Apply(Apply(s, m1), m2), m3)
  {
    hide Apply;
    assert [m1, m2, m3][1..] == [m2, m3] && [m2, m3][1..] == [m3] && [m3][1..] == [];
    assert ApplyAll(s, [m1, m2, m3]) == ApplyAll(Apply(s, m1), [m2, m3]);
    assert ApplyAll(Apply(s, m1), [m2, m3]) == ApplyAll(Apply(Apply(s, m1), m2), [m3]);
  }

  // ---- no packet storm ----

  function Weight(s: Net): nat { 2 * |s.discovers| + |s.availables| }

  /** The move is the delivery of a datagram that is on its way. */
  predicate IsDelivery(s: Net, m: Move)
  {
    match m
    case DeliverDiscover(f, _, _) => f in s.discovers && f.to in s.nodes
    case DeliverAvailable(f, _, _) => f in s.availables && f.to in s.nodes
    case _ => false
  }

  /** A run that consists of deliveries only. */
  predicate Draining(s: Net, moves: seq<Move>)
    decreases moves
  {
    moves == [] || (IsDelivery(s, moves[0]) && Draining(Apply(s, moves[0]), moves[1..]))
  }

  /** The number of datagrams that a node sends when the move is made. */
  function SendsOf(s: Net, m: Move): nat
  {
    match m
    case DeliverDiscover(f, source, now) =>
      if f in s.discovers && f.to in s.nodes then |AnswersTo(s, f, Discover(f.from), source, now)| else 0
    case DeliverAvailable(f, source, now) =>
      if f in s.availables && f.to in s.nodes then |AnswersTo(s, f, Available(f.from), source, now)| else 0
    case _ => 0
  }

  /** The number of datagrams that the nodes send during a run. */
  function Sends(s: Net, moves: seq<Move>): nat
    decreases moves
  {
    if moves == [] then 0 else SendsOf(s, moves[0]) + Sends(Apply(s, moves[0]), moves[1..])
  }

  lemma DeliveryWeighsLess(s: Net, m: Move)
    requires Sound(s) && IsDelivery(s, m)
    ensures Weight(Apply(s, m)) < Weight(s)
    ensures SendsOf(s, m) + |Apply(s, m).discovers| <= |s.discovers|
  {
    hide GoodNodes, Lists, NodesAfter, AnswersTo;
    match m {
      case DeliverDiscover(f, source, now) =>
        OneDeliveryInNet(s, f, Discover(f.from), source, now);
        assert |s.discovers - multiset{f}| == |s.discovers| - 1;
      case DeliverAvailable(f, source, now) =>
        SoundParts(s, f);
        OneDeliveryInNet(s, f, Available(f.from), source, now);
        assert |s.availables - multiset{f}| == |s.availables| - 1;
    }
  }

  /**
    Without a new timer broadcast the traffic dies out: there are at most twice as many deliveries as DISCOVERs
    plus the AVAILABLEs on their way, and the nodes send at most one more datagram for each DISCOVER.
   */
  lemma {:induction false} NoPacketStorm(s: Net, moves: seq<Move>)
    requires Sound(s) && Draining(s, moves)
    ensures |moves| + Weight(ApplyAll(s, moves)) <= Weight(s)
    ensures Sends(s, moves) + |ApplyAll(s, moves).discovers| <= |s.discovers|
    decreases moves
  {
    if moves != [] {
      DeliveryWeighsLess(s, moves[0]);
      MoveKeeps(s, moves[0]);
      NoPacketStorm(Apply(s, moves[0]), moves[1..]);
    }
  }
}
