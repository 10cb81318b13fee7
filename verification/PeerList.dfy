/** The table of known peers: a linked list of peers, each with its linked list of addresses. */
module PeerLists {
  import opened AddressLists
  import opened Options
  import opened SocketAddresses

  type PeerId = string

  /** A peer and the addresses it was seen at. */
  datatype Row = Row(id: PeerId, addresses: seq<Record>)

  // ---- the table as a value ----

  function FindPeer(table: seq<Row>, id: PeerId): (i: nat)
    ensures i <= |table|
    ensures i < |table| ==> table[i].id == id
    ensures forall k :: 0 <= k < i ==> table[k].id != id
  {
    if table == [] || table[0].id == id then 0
    else
      var j := FindPeer(table[1..], id);
      assert forall k :: 0 < k < j + 1 ==> table[k] == table[1..][k - 1];
      j + 1
  }

  /** A known peer's list is updated in place, an unknown peer is appended. */
  function AddIp(table: seq<Row>, id: PeerId, a: Address, t: Time): seq<Row>
  {
    var i := FindPeer(table, id);
    if i < |table| then table[i := table[i].(addresses := Update(table[i].addresses, a, t))]
    else table + [Row(id, Update([], a, t))]
  }

  function Remove(table: seq<Row>, id: PeerId): seq<Row>
  {
    var i := FindPeer(table, id);
    if i < |table| then Without(table, i) else table
  }

  ghost predicate Consistent(table: seq<Row>)
  {
    && (forall i, j :: 0 <= i < j < |table| ==> table[i].id != table[j].id)
    && (forall i :: 0 <= i < |table| ==> UniqueAddresses(table[i].addresses))
    && (forall i :: 0 <= i < |table| ==> table[i].addresses != [])
  }

  lemma AddIpKeepsConsistent(table: seq<Row>, id: PeerId, a: Address, t: Time)
    requires Consistent(table)
    ensures Consistent(AddIp(table, id, a, t))
  {
    var i := FindPeer(table, id);
    UpdateKeepsUnique(if i < |table| then table[i].addresses else [], a, t);
  }

  lemma RemoveKeepsConsistent(table: seq<Row>, id: PeerId)
    requires Consistent(table)
    ensures Consistent(Remove(table, id))
  {
    var i, table' := FindPeer(table, id), Remove(table, id);
  }

  datatype Operation = Add(id: PeerId, address: Address, time: Time) | Drop(id: PeerId)

  function Apply(table: seq<Row>, op: Operation): seq<Row>
  {
    match op
    case Add(id, a, t) => AddIp(table, id, a, t)
    case Drop(id) => Remove(table, id)
  }

  function ApplyAll(table: seq<Row>, ops: seq<Operation>): seq<Row>
    decreases ops
  {
    if ops == [] then table else ApplyAll(Apply(table, ops[0]), ops[1..])
  }

  /** After any sequence of operations no id and, within a peer, no address occurs twice. */
  lemma {:induction false} AlwaysConsistent(table: seq<Row>, ops: seq<Operation>)
    requires Consistent(table)
    ensures Consistent(ApplyAll(table, ops))
    decreases ops
  {
    if ops != [] {
      match ops[0] {
        case Add(id, a, t) => AddIpKeepsConsistent(table, id, a, t);
        case Drop(id) => RemoveKeepsConsistent(table, id);
      }
      AlwaysConsistent(Apply(table, ops[0]), ops[1..]);
    }
  }

  /** The address list that a table maps an id to. */
  function Lookup(table: seq<Row>, id: PeerId): Option<seq<Record>>
  {
    var i := FindPeer(table, id);
    if i < |table| then Some(table[i].addresses) else None
  }

  function AddressesOf(table: seq<Row>, id: PeerId): seq<Record>
  {
    match Lookup(table, id) case Some(list) => list case None => []
  }

  lemma FindPeerUnique(table: seq<Row>, id: PeerId, i: nat)
    requires i < |table| && table[i].id == id && forall k :: 0 <= k < i ==> table[k].id != id
    ensures FindPeer(table, id) == i
  {
  }

  lemma NotFound(table: seq<Row>, id: PeerId)
    requires forall k :: 0 <= k < |table| ==> table[k].id != id
    ensures FindPeer(table, id) == |table|
  {
  }

  /** The table is a map: adding changes the entry of one id only, and removing makes one id unknown. */
  lemma OperationsOnMap(table: seq<Row>, id: PeerId, a: Address, t: Time, other: PeerId)
    requires Consistent(table)
    ensures Lookup(AddIp(table, id, a, t), other)
         == if other == id then Some(Update(AddressesOf(table, id), a, t)) else Lookup(table, other)
    ensures Lookup(Remove(table, id), other) == if other == id then None else Lookup(table, other)
  {
    AddOnMap(table, id, a, t, other);
    RemoveOnMap(table, id, other);
  }

  /** An IPv6 address that is not taken for a known one is entered. */
  lemma {:induction false} V6Entered(list: seq<Record>, a: Address, t: Time)
    requires a.V6?
    ensures HasV6(Update(list, a, t)) <==> HasV6(list) || Find(list, a) == |list|
  {
    var list' := Update(list, a, t);
    if Find(list, a) == |list| {
      assert list'[|list|].address.V6?;
    }
    if HasV6(list) {
      var i :| 0 <= i < |list| && list[i].address.V6?;
      assert list'[i].address.V6?;
    }
  }

  /** A peer that has had an IPv6 address entered is answered with an IPv6 address as long as it is not removed. */
  lemma {:induction false} PeerAnsweredWithV6(table: seq<Row>, ops: seq<Operation>, id: PeerId)
    requires Consistent(table) && HasV6(AddressesOf(table, id)) && Drop(id) !in ops
    ensures var list := AddressesOf(ApplyAll(table, ops), id);
            list != [] && list[BestIndex(list)].address.V6?
    decreases ops
  {
    if ops == [] {
      BestIsLastV6(AddressesOf(table, id));
    } else {
      match ops[0] {
        case Add(k, a, t) =>
          AddIpKeepsConsistent(table, k, a, t);
          AddOnMap(table, k, a, t, id);
          var list := AddressesOf(table, id);
          var i :| 0 <= i < |list| && list[i].address.V6?;
          UpdateKeepsOthers(list, a, t, i);
        case Drop(k) =>
          RemoveKeepsConsistent(table, k);
          RemoveOnMap(table, k, id);
      }
      PeerAnsweredWithV6(Apply(table, ops[0]), ops[1..], id);
    }
  }

  lemma AddOnMap(table: seq<Row>, id: PeerId, a: Address, t: Time, other: PeerId)
    ensures Lookup(AddIp(table, id, a, t), other)
         == if other == id then Some(Update(AddressesOf(table, id), a, t)) else Lookup(table, other)
  {
    var i, k, table' := FindPeer(table, id), FindPeer(table, other), AddIp(table, id, a, t);
    if other == id {
      FindPeerUnique(table', id, i);
    } else if k < |table| {
      FindPeerUnique(table', other, k);
    } else {
      NotFound(table', other);
    }
  }

  lemma RemoveOnMap(table: seq<Row>, id: PeerId, other: PeerId)
    requires Consistent(table)
    ensures Lookup(Remove(table, id), other) == if other == id then None else Lookup(table, other)
  {
    var i, k, table' := FindPeer(table, id), FindPeer(table, other), Remove(table, id);
    if other == id || k == |table| {
      NotFound(table', other);
    } else {
      FindPeerUnique(table', other, if i == |table| || k < i then k else k - 1);
    }
  }

  /** Removing takes out the one row and leaves the others in order; an unknown id changes nothing. */
  lemma RemoveKeepsOrder(front: seq<Row>, row: Row, behind: seq<Row>)
    requires forall r :: r in front ==> r.id != row.id
    ensures Remove(front + [row] + behind, row.id) == front + behind
    ensures Remove(front, row.id) == front
  {
    var table := front + [row] + behind;
    FindPeerUnique(table, row.id, |front|);
    assert Without(table, |front|) == front + behind;
    NotFound(front, row.id);
  }

  // ---- the linked list of linked lists ----

  class Peer {
    var next: Peer?
    const id: PeerId
    const addresses: AddressList

    constructor (id: PeerId)
      ensures this.id == id && next == null
      ensures fresh(addresses) && addresses.Valid() && fresh(addresses.Repr) && addresses.Records() == []
      ensures this !in addresses.Repr
    {
      this.id := id;
      this.next := null;
      this.addresses := new AddressList();
    }
  }

  ghost function NextPeer(nodes: seq<Peer>, i: nat): Peer?
  {
    if i + 1 < |nodes| then nodes[i + 1] else null
  }

  /** The peers are distinct, and their address lists share no object with each other, with a peer or with the table. */
  ghost predicate Separate(self: object, nodes: seq<Peer>, reprs: seq<set<object>>)
  {
    && |nodes| == |reprs|
    && (forall i :: 0 <= i < |reprs| ==> self !in reprs[i] && self != nodes[i])
    && (forall i, j :: 0 <= i < |nodes| && 0 <= j < |nodes| ==> nodes[i] !in reprs[j])
    && (forall i, j :: 0 <= i < j < |nodes| ==> nodes[i] != nodes[j])
    && (forall i, j :: 0 <= i < j < |nodes| ==> reprs[i] !! reprs[j])
  }

  ghost predicate Contained(nodes: seq<Peer>, reprs: seq<set<object>>, all: set<object>)
  {
    |nodes| == |reprs| && forall i :: 0 <= i < |nodes| ==> nodes[i] in all && reprs[i] <= all
  }

  class PeerList {
    var head: Peer?
    ghost var nodes: seq<Peer>
    ghost var reprs: seq<set<object>> // the objects of each peer's address list
    ghost var Repr: set<object>

    /** The address list of the peer at index i is well formed and lies in Repr. */
    ghost predicate ListAt(i: nat)
      reads this, Repr
    {
      && i < |nodes| && i < |reprs|
      && nodes[i] in Repr && nodes[i].addresses in Repr && nodes[i].addresses.Repr == reprs[i] && reprs[i] <= Repr
      && nodes[i].addresses.Valid()
    }

    /** A chain of distinct peers from head on, with separate and well formed address lists. */
    ghost predicate Valid()
      reads this, Repr
      ensures Valid() ==> this in Repr
    {
      && this in Repr
      && Separate(this, nodes, reprs)
      && Contained(nodes, reprs, Repr)
      && (forall i :: 0 <= i < |nodes| ==> ListAt(i))
      && Linked()
    }

    /** The nodes are the chain that starts at head. */
    ghost predicate Linked()
      requires Contained(nodes, reprs, Repr)
      reads this, Repr
    {
      && head == (if nodes == [] then null else nodes[0])
      && (forall i :: 0 <= i < |nodes| ==> nodes[i].next == NextPeer(nodes, i))
    }

    /** The peer at index i as a row of the table. */
    ghost function RowAt(i: nat): Row
      requires ListAt(i)
      reads this, Repr
    {
      Row(nodes[i].id, nodes[i].addresses.Records())
    }

    /** The table that the nodes represent, in list order. */
    ghost function Table(): (table: seq<Row>)
      requires Valid()
      reads this, Repr
      ensures |table| == |nodes|
      ensures forall i :: 0 <= i < |nodes| ==> ListAt(i) && table[i] == RowAt(i)
    {
      seq(|nodes|, i requires 0 <= i < |nodes| && ListAt(i) reads this, Repr => RowAt(i))
    }

    constructor ()
      ensures Valid() && fresh(Repr) && Table() == []
    {
      head := null;
      nodes := [];
      reprs := [];
      Repr := {this};
    }

    /** find_peer. */
    method Search(id: PeerId) returns (peer: Peer?, ghost i: nat)
      requires Valid()
      ensures i == FindPeer(Table(), id)
      ensures peer == if i < |nodes| then nodes[i] else null
    {
      ghost var table := Table();
      peer := head;
      i := 0;
      while peer != null
        invariant i <= |nodes| && peer == (if i < |nodes| then nodes[i] else null)
        invariant forall k :: 0 <= k < i ==> table[k].id != id
        decreases |nodes| - i
      {
        if peer.id == id {
          FindPeerUnique(table, id, i);
          return;
        }
        peer := peer.next;
        i := i + 1;
      }
      NotFound(table, id);
    }

    /** is_peer_in_list. */
    method Contains(id: PeerId) returns (found: bool)
      requires Valid()
      ensures found <==> FindPeer(Table(), id) < |Table()|
    {
      var peer, i := Search(id);
      found := peer != null;
    }

    /** get_peer_ip_address. */
    method BestAddress(id: PeerId) returns (best: Option<Address>)
      requires Valid()
      ensures var list := AddressesOf(Table(), id);
              best == if list == [] then None else Some(list[BestIndex(list)].address)
    {
      hide Separate, Contained, Linked, FindPeer, BestIndex;
      var peer, i := Search(id);
      if peer == null {
        return None;
      }
      best := peer.addresses.GetBest();
    }

    method LastPeer() returns (last: Peer)
      requires Valid() && head != null
      ensures last == nodes[|nodes| - 1]
    {
      last := head;
      ghost var k := 0;
      while last.next != null
        invariant 0 <= k < |nodes| && last == nodes[k]
        decreases |nodes| - k
      {
        last := last.next;
        k := k + 1;
      }
    }

    /** Makes the head, or the link of the last peer, point to a new one. */
    method LinkNode(peer: Peer)
      requires Valid() && peer !in Repr
      modifies this`head, if nodes == [] then {} else {nodes[|nodes| - 1]}
      ensures head == if nodes == [] then peer else old(head)
      ensures forall i :: 0 <= i < |nodes| ==> nodes[i].next == NextPeer(nodes + [peer], i)
    {
      hide Separate, ListAt;
      if head == null {
        head := peer;
      } else {
        var last := LastPeer();
        SeparateAt(this, nodes, reprs, |nodes| - 1);
        last.next := peer;
      }
    }

    /** A peer whose address list has not been touched still has the same row. */
    twostate lemma ListKept(i: nat)
      requires old(ListAt(i)) && i < |nodes| && i < |reprs| && nodes[i] == old(nodes[i]) && reprs[i] == old(reprs[i])
      requires old(Repr) <= Repr
      requires forall o :: o in old(reprs[i]) ==> unchanged(o)
      ensures ListAt(i) && RowAt(i) == old(RowAt(i))
    {
    }

    /** The rows of the peers as they stand, whether or not they are linked. */
    ghost function RowsNow(): (rows: seq<Row>)
      requires forall j :: 0 <= j < |nodes| ==> ListAt(j)
      reads this, Repr
      ensures |rows| == |nodes| && forall j :: 0 <= j < |nodes| ==> rows[j] == RowAt(j)
    {
      seq(|nodes|, j requires 0 <= j < |nodes| && ListAt(j) reads this, Repr => RowAt(j))
    }

    /** A peer that shares nothing with the table. */
    ghost predicate Foreign(peer: Peer)
      reads this, peer, peer.addresses, peer.addresses.Repr
    {
      && peer.next == null && peer.addresses.Valid()
      && peer !in Repr && peer !in peer.addresses.Repr && peer.addresses.Repr !! Repr
    }

    /** Everything but the chain is as it should be, and the chain is right once this peer is known. */
    ghost predicate Unregistered(peer: Peer)
      reads this, Repr, peer, peer.addresses, peer.addresses.Repr
    {
      && this in Repr && Foreign(peer)
      && Separate(this, nodes, reprs) && Contained(nodes, reprs, Repr)
      && (forall j :: 0 <= j < |nodes| ==> ListAt(j))
      && head == (nodes + [peer])[0]
      && (forall j :: 0 <= j < |nodes| ==> nodes[j].next == NextPeer(nodes + [peer], j))
    }

    /** Links a peer behind the last one; no row changes. */
    method Link(peer: Peer)
      requires Valid() && Foreign(peer)
      modifies this`head, if nodes == [] then {} else {nodes[|nodes| - 1]}
      ensures Unregistered(peer) && RowsNow() == old(Table())
    {
      hide Separate, AddressList.Valid, AddressList.Records, RowAt, ListAt;
      ghost var table := Table();
      if nodes != [] { SeparateAt(this, nodes, reprs, |nodes| - 1); }
      LinkNode(peer);
      forall i | 0 <= i < |nodes| ensures ListAt(i) && RowAt(i) == table[i] {
        ListKept(i);
      }
    }

    ghost method Register(peer: Peer)
      requires Unregistered(peer)
      modifies this`nodes, this`reprs, this`Repr
      ensures Valid() && Repr == old(Repr) + {peer} + peer.addresses.Repr
      ensures Table() == old(RowsNow()) + [Row(peer.id, peer.addresses.Records())]
    {
      hide Separate, AddressList.Valid, AddressList.Records;
      ghost var rows, n := RowsNow(), |nodes|;
      SeparateAppend(this, nodes, reprs, peer, peer.addresses.Repr, Repr);
      if nodes != [] { SeparateAt(this, nodes, reprs, 0); }
      nodes := nodes + [peer];
      reprs := reprs + [peer.addresses.Repr];
      Repr := Repr + {peer} + peer.addresses.Repr;
      assert nodes[n] == peer && reprs[n] == peer.addresses.Repr;
      LastRow();
      forall i | 0 <= i < n ensures ListAt(i) && RowAt(i) == rows[i] {
        assert old(ListAt(i));
      }
      assert Linked();
    }

    lemma LastRow()
      requires nodes != [] && |reprs| == |nodes|
      requires var peer := nodes[|nodes| - 1];
               peer in Repr && peer.addresses.Valid() && peer.addresses.Repr <= Repr &&
                   reprs[|nodes| - 1] == peer.addresses.Repr
      ensures ListAt(|nodes| - 1)
      ensures RowAt(|nodes| - 1) == Row(nodes[|nodes| - 1].id, nodes[|nodes| - 1].addresses.Records())
    {
    }

    /** append_peer: an unknown peer is linked behind the last one, with no address yet. */
    method AppendPeer(id: PeerId)
      requires Valid()
      modifies Repr
      ensures Valid() && fresh(Repr - old(Repr)) && old(Repr) <= Repr
      ensures Table() ==
                if FindPeer(old(Table()), id) < |old(Table())| then old(Table()) else old(Table()) + [Row(id, [])]
    {
      hide Separate, ListAt, Linked, RowAt, Unregistered, FindPeer, AddressList.Valid, AddressList.Records;
      var known, i := Search(id);
      if known != null {
        return;
      }
      var peer := new Peer(id);
      Link(peer);
      Register(peer);
    }

    /** Updates the address list of the peer at index i. */
    method UpdatePeer(peer: Peer, a: Address, lastSeen: Time, ghost i: nat)
      requires Valid() && i < |nodes| && peer == nodes[i]
      modifies this, peer.addresses.Repr
      ensures Valid() && fresh(Repr - old(Repr)) && old(Repr) <= Repr
      ensures Table() == old(Table())[i := Row(peer.id, Update(old(Table())[i].addresses, a, lastSeen))]
    {
      hide Separate, AddressList.Valid, AddressList.Records, Update, NextPeer;
      ghost var table, nodes0 := Table(), nodes;
      assert ListAt(i);
      SeparateAt(this, nodes, reprs, i);
      peer.addresses.AddOrUpdate(a, lastSeen);
      SeparateUpdate(this, nodes, reprs, i, peer.addresses.Repr, Repr);
      reprs := reprs[i := peer.addresses.Repr];
      Repr := Repr + peer.addresses.Repr;
      forall j | 0 <= j < |nodes| && j != i ensures ListAt(j) && RowAt(j) == table[j] {
        ListKept(j);
      }
      assert ListAt(i);
      assert Linked();
    }

    /** add_ip_to_peer. */
    method AddIpToPeer(id: PeerId, a: Address, lastSeen: Time)
      requires Valid()
      modifies Repr
      ensures Valid() && fresh(Repr - old(Repr)) && old(Repr) <= Repr
      ensures Table() == AddIp(old(Table()), id, a, lastSeen)
    {
      hide Separate, Contained, Linked, Update, AddIp, FindPeer, AddressList.Valid, AddressList.Records;
      ghost var table := Table();
      AddIpCases(table, id, a, lastSeen);
      var peer, i := Search(id);
      if peer == null {
        AppendPeer(id);
        peer, i := Search(id);
      }
      assert ListAt(i);
      UpdatePeer(peer, a, lastSeen, i);
    }

    /** The peer before a peer that is not the head. */
    method Previous(peer: Peer, ghost i: nat) returns (previous: Peer)
      requires Valid() && 0 < i < |nodes| && peer == nodes[i]
      ensures previous == nodes[i - 1]
    {
      hide Separate, ListAt;
      previous := head;
      var it := head;
      ghost var k := 0;
      SeparateAt(this, nodes, reprs, i);
      while it != peer && it != null
        invariant k <= i && it == nodes[k] && (k > 0 ==> previous == nodes[k - 1])
        decreases i - k
      {
        previous := it;
        it := it.next;
        k := k + 1;
      }
    }

    /** Takes the peer at index i out of the chain. */
    method UnlinkNode(peer: Peer, ghost i: nat)
      requires Valid() && i < |nodes| && peer == nodes[i]
      modifies this`head, if i == 0 then {} else {nodes[i - 1]}
      ensures head == if i == 0 then NextPeer(nodes, 0) else old(head)
      ensures forall j :: 0 <= j < |nodes| && j != i ==>
                nodes[j].next == if j + 1 == i then NextPeer(nodes, i) else NextPeer(nodes, j)
    {
      hide Separate, ListAt;
      SeparateAt(this, nodes, reprs, i);
      if head == peer {
        head := peer.next;
      } else {
        var previous := Previous(peer, i);
        SeparateAt(this, nodes, reprs, i - 1);
        previous.next := peer.next;
      }
    }

    /** Everything but the chain is as it should be, and the chain is right once the peer at index i is forgotten. */
    ghost predicate Unlinked(i: nat)
      reads this, Repr
    {
      && this in Repr && i < |nodes|
      && Separate(this, nodes, reprs) && Contained(nodes, reprs, Repr)
      && (forall j :: 0 <= j < |nodes| ==> ListAt(j))
      && head == (if i == 0 then NextPeer(nodes, 0) else nodes[0])
      && (forall j :: 0 <= j < |nodes| && j != i ==>
            nodes[j].next == if j + 1 == i then NextPeer(nodes, i) else NextPeer(nodes, j))
    }

    /** Takes the peer at index i out of the chain; its node and its addresses are not touched. */
    method Unlink(peer: Peer, ghost i: nat)
      requires Valid() && i < |nodes| && peer == nodes[i]
      modifies this`head, if i == 0 then {} else {nodes[i - 1]}
      ensures Unlinked(i) && RowsNow() == old(Table())
    {
      hide Separate, AddressList.Valid, AddressList.Records, RowAt, ListAt;
      ghost var table := Table();
      SeparateAt(this, nodes, reprs, i);
      if i > 0 { SeparateAt(this, nodes, reprs, i - 1); }
      UnlinkNode(peer, i);
      forall j | 0 <= j < |nodes| ensures ListAt(j) && RowAt(j) == table[j] {
        ListKept(j);
      }
    }

    ghost method Forget(i: nat)
      requires Unlinked(i)
      modifies this`nodes, this`reprs
      ensures Valid() && Repr == old(Repr)
      ensures Table() == Without(old(RowsNow()), i)
    {
      hide Separate, NextPeer, Skipping, AddressList.Valid, AddressList.Records;
      ghost var rows := RowsNow();
      ghost var nodes1, reprs1 := Without(nodes, i), Without(reprs, i);
      SeparateAt(this, nodes, reprs, i);
      SeparateRemove(this, nodes, reprs, i, Repr);
      NextWithout(nodes, i);
      ghost var nodes0, reprs0 := nodes, reprs;
      nodes, reprs := nodes1, reprs1;
      forall j | 0 <= j < |nodes| ensures ListAt(j) && RowAt(j) == rows[Skipping(i, j)] {
        assert old(ListAt(Skipping(i, j)));
      }
      assert Linked();
      assert Table() == Without(rows, i);
    }

    /** remove_peer: an unknown peer is ignored. */
    method RemovePeer(id: PeerId)
      requires Valid()
      modifies Repr
      ensures Valid() && Repr == old(Repr)
      ensures Table() == Remove(old(Table()), id)
    {
      hide Separate, AddressList.Valid, AddressList.Records, RowAt, ListAt, FindPeer, Unlinked;
      if head == null {
        return;
      }
      var peer, i := Search(id);
      if peer == null {
        return;
      }
      Unlink(peer, i);
      Forget(i);
    }
  }

  /** The index in a sequence of the element at index j once the one at index i is gone. */
  function Skipping(i: nat, j: nat): nat { if j < i then j else j + 1 }

  function Without<T>(s: seq<T>, i: nat): (r: seq<T>)
    requires i < |s|
    ensures |r| == |s| - 1
    ensures forall j :: 0 <= j < |r| ==> r[j] == s[Skipping(i, j)]
  {
    s[..i] + s[i + 1..]
  }

  lemma AddIpCases(table: seq<Row>, id: PeerId, a: Address, t: Time)
    ensures var i := FindPeer(table, id);
            && (i < |table| ==> AddIp(table, id, a, t) == table[i := Row(id, Update(table[i].addresses, a, t))])
            && (i == |table| ==> FindPeer(table + [Row(id, [])], id) == i)
            && (i == |table| ==> AddIp(table, id, a, t) == (table + [Row(id, [])])[i := Row(id, Update([], a, t))])
  {
    FindPeerUnique(table + [Row(id, [])], id, FindPeer(table, id));
  }

  lemma SeparateUpdate(self: object, nodes: seq<Peer>, reprs: seq<set<object>>, i: nat, repr: set<object>,
                       all: set<object>)
    requires Separate(self, nodes, reprs) && Contained(nodes, reprs, all) && self in all && i < |nodes|
    requires reprs[i] <= repr && (repr - reprs[i]) !! all
    ensures Separate(self, nodes, reprs[i := repr]) && Contained(nodes, reprs[i := repr], all + repr)
  {
  }

  lemma SeparateRemove(self: object, nodes: seq<Peer>, reprs: seq<set<object>>, i: nat, all: set<object>)
    requires Separate(self, nodes, reprs) && Contained(nodes, reprs, all) && i < |nodes|
    ensures Separate(self, Without(nodes, i), Without(reprs, i)) && Contained(Without(nodes, i), Without(reprs, i), all)
  {
  }

  /** The successors in a chain without the peer at index i: only the one before it has a new successor. */
  lemma NextWithout(nodes: seq<Peer>, i: nat)
    requires i < |nodes|
    ensures Without(nodes, i) == [] <==> |nodes| == 1
    ensures |nodes| > 1 ==> Without(nodes, i)[0] == if i == 0 then NextPeer(nodes, 0) else nodes[0]
    ensures |nodes| == 1 ==> NextPeer(nodes, 0) == null
    ensures forall j :: 0 <= j < |nodes| - 1 ==>
              NextPeer(Without(nodes, i), j) ==
                if Skipping(i, j) + 1 == i then NextPeer(nodes, i) else NextPeer(nodes, Skipping(i, j))
    ensures forall j :: 0 <= j < |nodes| - 1 ==> Skipping(i, j) != i && Skipping(i, j) < |nodes|
  {
  }

  lemma SeparateAppend(self: object, nodes: seq<Peer>, reprs: seq<set<object>>, peer: Peer, repr: set<object>,
                       all: set<object>)
    requires Separate(self, nodes, reprs) && Contained(nodes, reprs, all) && self in all
    requires peer !in all && repr !! all && peer !in repr
    ensures Separate(self, nodes + [peer], reprs + [repr])
    ensures Contained(nodes + [peer], reprs + [repr], all + {peer} + repr)
  {
  }

  lemma SeparateAt(self: object, nodes: seq<Peer>, reprs: seq<set<object>>, i: nat)
    requires Separate(self, nodes, reprs) && i < |nodes|
    ensures forall j :: 0 <= j < |nodes| ==>
              && self !in reprs[j] && nodes[i] !in reprs[j] && nodes[j] !in reprs[i]
              && (j != i ==> nodes[j] != nodes[i] && reprs[i] !! reprs[j])
  {
    assert forall j :: 0 <= j < i ==> reprs[j] !! reprs[i];
  }
}
