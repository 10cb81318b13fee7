/** The addresses of one peer: a linked list of entries with the time at which each was last seen. */
module AddressLists {
  import opened Options
  import opened SocketAddresses

  type Time = int

  function Bytes4(a: Address): int { if a.V4? then a.ip4 else a.flow }

  function Bytes16(a: Address): seq<int> { if a.V4? then a.padding else a.ip6 }

  /** The comparison of find_entry: only the family of the stored address is tested. */
  predicate Matches(stored: Address, given: Address)
  {
    match stored
    case V4(ip4, _) => ip4 == Bytes4(given)
    case V6(_, ip6) => ip6 == Bytes16(given)
  }

  /** The same address: the same family and the same address bytes. */
  predicate SameAddress(a: Address, b: Address)
  {
    (a.V4? && b.V4? && a.ip4 == b.ip4) || (a.V6? && b.V6? && a.ip6 == b.ip6)
  }

  predicate SameFamily(a: Address, b: Address) { a.V4? <==> b.V4? }

  datatype Record = Record(address: Address, lastSeen: Time)

  // ---- the list as a value ----

  function Find(list: seq<Record>, a: Address): (i: nat)
    ensures i <= |list|
    ensures i < |list| ==> Matches(list[i].address, a)
    ensures forall k :: 0 <= k < i ==> !Matches(list[k].address, a)
  {
    if list == [] || Matches(list[0].address, a) then 0
    else
      var j := Find(list[1..], a);
      assert forall k :: 0 < k < j + 1 ==> list[k] == list[1..][k - 1];
      j + 1
  }

  /** A known address gets the new time in place, another one is appended. */
  function Update(list: seq<Record>, a: Address, t: Time): seq<Record>
  {
    var i := Find(list, a);
    if i < |list| then list[i := list[i].(lastSeen := t)] else list + [Record(a, t)]
  }

  ghost predicate UniqueAddresses(list: seq<Record>)
  {
    forall i, j :: 0 <= i < j < |list| ==> !SameAddress(list[i].address, list[j].address)
  }

  /** No address is ever entered twice, whatever mixture of families is stored. */
  lemma UpdateKeepsUnique(list: seq<Record>, a: Address, t: Time)
    requires UniqueAddresses(list)
    ensures UniqueAddresses(Update(list, a, t))
  {
    var list' := Update(list, a, t);
    forall i, j | 0 <= i < j < |list'| ensures !SameAddress(list'[i].address, list'[j].address) {
      assert i < |list| && list'[i].address == list[i].address;
    }
  }

  ghost predicate RecordedAt(list: seq<Record>, a: Address, t: Time)
  {
    exists r :: r in list && SameAddress(r.address, a) && r.lastSeen == t
  }

  /**
    After an update the address is recorded with the given time exactly if nothing matches it, or the first entry
    that matches it is of its own family (the comparison then is equality), or it was recorded so before.
   */
  lemma UpdateRecords(list: seq<Record>, a: Address, t: Time)
    ensures RecordedAt(Update(list, a, t), a, t) <==>
              Find(list, a) == |list| || SameFamily(list[Find(list, a)].address, a) || RecordedAt(list, a, t)
  {
    var i, list' := Find(list, a), Update(list, a, t);
    if i == |list| {
      assert list'[i] in list' && SameAddress(list'[i].address, a);
    } else if SameFamily(list[i].address, a) {
      assert list'[i] in list' && SameAddress(list'[i].address, a);
    } else {
      assert forall k :: 0 <= k < |list| && k != i ==> list'[k] == list[k];
      if RecordedAt(list, a, t) {
        var r :| r in list && SameAddress(r.address, a) && r.lastSeen == t;
        var k :| 0 <= k < |list| && list[k] == r;
        assert list'[k] in list';
      }
    }
  }

  /**
    An address is entered exactly if none is stored that it is taken for: one of its own family with the same bytes,
    an IPv4 address with the bytes of its flow label, or an IPv6 address with the bytes of its padding and beyond.
   */
  lemma EnteredExactly(list: seq<Record>, a: Address, t: Time)
    ensures Update(list, a, t) == list + [Record(a, t)] <==>
              forall r :: r in list ==>
                match (r.address, a)
                case (V4(stored, _), V4(given, _)) => stored != given
                case (V4(stored, _), V6(flow, _)) => stored != flow
                case (V6(_, stored), V6(_, given)) => stored != given
                case (V6(_, stored), V4(_, padding)) => stored != padding
  {
    var i := Find(list, a);
    if i < |list| {
      assert list[i] in list;
      assert |Update(list, a, t)| == |list|;
    }
  }

  /** An IPv6 address whose flow label equals a stored IPv4 address is taken for it and not entered. */
  lemma MistakenForV4(ip4: int, padding: seq<int>, ip6: seq<int>, t: Time)
    ensures Update([Record(V4(ip4, padding), t)], V6(ip4, ip6), t + 1) == [Record(V4(ip4, padding), t + 1)]
    ensures !RecordedAt(Update([Record(V4(ip4, padding), t)], V6(ip4, ip6), t + 1), V6(ip4, ip6), t + 1)
  {
    var list, given := [Record(V4(ip4, padding), t)], V6(ip4, ip6);
    assert Find(list, given) == 0;
    assert Update(list, given, t + 1) == [Record(V4(ip4, padding), t + 1)];
  }

  /** The time of the touched entry is the only thing an update changes in an existing list. */
  lemma UpdateKeepsOthers(list: seq<Record>, a: Address, t: Time, k: nat)
    requires k < |list|
    ensures k < |Update(list, a, t)| && Update(list, a, t)[k].address == list[k].address
    ensures Update(list, a, t)[k].lastSeen == if k == Find(list, a) then t else list[k].lastSeen
  {
  }

  // ---- the best address ----

  /** The index of the last IPv6 entry, if there is one, otherwise that of the first entry. */
  function BestIndex(list: seq<Record>): (i: nat)
    requires list != []
    ensures i < |list|
  {
    if |list| == 1 then 0
    else if list[|list| - 1].address.V6? then |list| - 1
    else BestIndex(list[..|list| - 1])
  }

  /** One more entry is the best one exactly if it is the first or an IPv6 one. */
  lemma BestOfPrefix(list: seq<Record>, k: nat)
    requires k < |list|
    ensures BestIndex(list[..k + 1]) == if k == 0 || list[k].address.V6? then k else BestIndex(list[..k])
  {
    assert list[..k + 1][..k] == list[..k];
  }

  predicate HasV6(list: seq<Record>)
  {
    exists i :: 0 <= i < |list| && list[i].address.V6?
  }

  lemma {:induction false} BestIsLastV6(list: seq<Record>)
    requires list != []
    ensures list[BestIndex(list)].address.V6? <==> HasV6(list)
    ensures HasV6(list) ==> forall k :: BestIndex(list) < k < |list| ==> list[k].address.V4?
    ensures !HasV6(list) ==> BestIndex(list) == 0
  {
    if |list| > 1 && list[|list| - 1].address.V4? {
      var front := list[..|list| - 1];
      BestIsLastV6(front);
      assert forall i :: 0 <= i < |front| ==> front[i] == list[i];
    }
  }

  /** The documented answer: the first IPv6 entry, otherwise the first entry. */
  ghost predicate IsDocumented(list: seq<Record>, i: nat)
  {
    && i < |list|
    && (HasV6(list) ==> list[i].address.V6? && forall k :: 0 <= k < i ==> list[k].address.V4?)
    && (!HasV6(list) ==> i == 0)
  }

  /** The answer is the documented one exactly for lists with at most one IPv6 entry. */
  lemma {:induction false} DocumentedBest(list: seq<Record>)
    requires list != []
    ensures IsDocumented(list, BestIndex(list)) <==>
              forall i, j :: 0 <= i < j < |list| ==> list[i].address.V4? || list[j].address.V4?
  {
    BestIsLastV6(list);
    var best := BestIndex(list);
    if IsDocumented(list, best) {
      forall i, j | 0 <= i < j < |list| ensures list[i].address.V4? || list[j].address.V4? {
        assert i < best || best < j || best == i || best == j;
      }
    }
  }

  /** Two IPv6 addresses: the second one is returned, although the first one is documented. */
  lemma SecondV6Wins(a: Record, b: Record)
    requires a.address.V6? && b.address.V6?
    ensures BestIndex([a, b]) == 1 && !IsDocumented([a, b], BestIndex([a, b])) && IsDocumented([a, b], 0)
  {
    assert [a, b][0].address.V6? && [a, b][1].address.V6?;
  }

  /** One add_or_update_entry after the other. */
  function UpdateAll(list: seq<Record>, seen: seq<Record>): seq<Record>
    decreases seen
  {
    if seen == [] then list else UpdateAll(Update(list, seen[0].address, seen[0].lastSeen), seen[1..])
  }

  /** Once an IPv6 address has been entered, every later answer is an IPv6 address. */
  lemma {:induction false} AnsweredWithV6(list: seq<Record>, seen: seq<Record>)
    requires HasV6(list)
    ensures UpdateAll(list, seen) != []
    ensures UpdateAll(list, seen)[BestIndex(UpdateAll(list, seen))].address.V6?
    decreases seen
  {
    if seen == [] {
      BestIsLastV6(list);
    } else {
      var i :| 0 <= i < |list| && list[i].address.V6?;
      UpdateKeepsOthers(list, seen[0].address, seen[0].lastSeen, i);
      AnsweredWithV6(Update(list, seen[0].address, seen[0].lastSeen), seen[1..]);
    }
  }

  // ---- the linked list ----

  class Entry {
    var next: Entry?
    const address: Address
    var lastSeen: Time

    constructor (address: Address, lastSeen: Time)
      ensures this.address == address && this.lastSeen == lastSeen && next == null
    {
      this.address := address;
      this.lastSeen := lastSeen;
      next := null;
    }
  }

  ghost function Successor(nodes: seq<Entry>, i: nat): Entry?
  {
    if i + 1 < |nodes| then nodes[i + 1] else null
  }

  class AddressList {
    var head: Entry?
    ghost var nodes: seq<Entry>
    ghost var Repr: set<object>

    ghost predicate Valid()
      reads this, Repr
      ensures Valid() ==> this in Repr
    {
      && this in Repr
      && (forall i :: 0 <= i < |nodes| ==> nodes[i] in Repr)
      && (forall i, j :: 0 <= i < j < |nodes| ==> nodes[i] != nodes[j])
      && head == (if nodes == [] then null else nodes[0])
      && (forall i :: 0 <= i < |nodes| ==> nodes[i].next == Successor(nodes, i))
    }

    ghost function Records(): (list: seq<Record>)
      requires Valid()
      reads this, Repr
      ensures |list| == |nodes|
      ensures forall i :: 0 <= i < |nodes| ==> list[i] == Record(nodes[i].address, nodes[i].lastSeen)
    {
      RecordsOf(nodes)
    }

    constructor ()
      ensures Valid() && fresh(Repr) && Records() == []
    {
      head := null;
      nodes := [];
      Repr := {this};
    }

    method FindEntry(a: Address) returns (e: Entry?, ghost i: nat)
      requires Valid()
      ensures i == Find(Records(), a)
      ensures e == if i < |nodes| then nodes[i] else null
    {
      e := head;
      i := 0;
      while e != null
        invariant i <= |nodes| && e == (if i < |nodes| then nodes[i] else null)
        invariant forall k :: 0 <= k < i ==> !Matches(Records()[k].address, a)
        decreases |nodes| - i
      {
        if e.address.V4? {
          if e.address.ip4 == Bytes4(a) {
            return;
          }
        }
        if e.address.V6? {
          if e.address.ip6 == Bytes16(a) {
            return;
          }
        }
        e := e.next;
        i := i + 1;
      }
    }

    /** Overwrites the time of one entry. */
    method Touch(entry: Entry, lastSeen: Time, ghost i: nat)
      requires Valid() && i < |nodes| && entry == nodes[i]
      modifies entry`lastSeen
      ensures Valid()
      ensures Records() == old(Records())[i := Record(entry.address, lastSeen)]
    {
      entry.lastSeen := lastSeen;
    }

    /** The first entry of an empty list. */
    method First(a: Address, lastSeen: Time)
      requires Valid() && head == null
      modifies this
      ensures Valid() && fresh(Repr - old(Repr)) && old(Repr) <= Repr
      ensures Records() == [Record(a, lastSeen)]
    {
      head := new Entry(a, lastSeen);
      nodes := [head];
      Repr := Repr + {head};
    }

    /** add_or_update_entry. */
    method AddOrUpdate(a: Address, lastSeen: Time)
      requires Valid()
      modifies Repr
      ensures Valid() && fresh(Repr - old(Repr)) && old(Repr) <= Repr
      ensures Records() == Update(old(Records()), a, lastSeen)
    {
      if head == null {
        First(a, lastSeen);
        return;
      }
      var entry, i := FindEntry(a);
      if entry == null {
        Append(a, lastSeen);
      } else {
        Touch(entry, lastSeen, i);
      }
    }

    method LastEntry() returns (last: Entry)
      requires Valid() && head != null
      ensures nodes != [] && last == nodes[|nodes| - 1]
    {
      last := head;
      ghost var k := 0;
      while last.next != null
        invariant 0 <= k < |nodes| && last == nodes[k]
        decreases |nodes| - k
      {
        last := last.next;
        k := k + 1;
      }
    }

    /** Links an entry that is not yet in the list behind the last one. */
    method LinkEntry(entry: Entry)
      requires Valid() && head != null && entry !in Repr && entry.next == null
      modifies Repr
      ensures Valid() && Repr == old(Repr) + {entry} && nodes == old(nodes) + [entry]
      ensures forall e: Entry :: e in old(nodes) || e == entry ==> e.lastSeen == old(e.lastSeen)
    {
      var last := LastEntry();
      last.next := entry;
      nodes := nodes + [entry];
      Repr := Repr + {entry};
    }

    method Append(a: Address, lastSeen: Time)
      requires Valid() && head != null
      modifies Repr
      ensures Valid() && fresh(Repr - old(Repr)) && old(Repr) <= Repr
      ensures Records() == old(Records()) + [Record(a, lastSeen)]
    {
      ghost var list := Records();
      var entry := new Entry(a, lastSeen);
      LinkEntry(entry);
      assert forall i :: 0 <= i < |list| ==> Records()[i] == list[i];
    }

    /** get_best_address: none exactly if the list is empty; the documented "first IPv6" is the last one. */
    method GetBest() returns (best: Option<Address>)
      requires Valid()
      ensures best == if nodes == [] then None else Some(Records()[BestIndex(Records())].address)
    {
      var it := head;
      var bestEntry: Entry? := null;
      hide BestIndex, Records;
      ghost var k, list := 0, Records();
      while it != null
        invariant k <= |nodes| && it == (if k < |nodes| then nodes[k] else null)
        invariant k == 0 <==> bestEntry == null
        invariant k > 0 ==> bestEntry == nodes[BestIndex(list[..k])]
        decreases |nodes| - k
      {
        BestOfPrefix(list, k);
        if bestEntry == null {
          bestEntry := it;
        } else if it.address.V6? {
          bestEntry := it;
        }
        it := it.next;
        k := k + 1;
      }
      assert nodes != [] ==> list[..k] == list;
      best := if bestEntry == null then None else Some(bestEntry.address);
    }
  }

  ghost function RecordsOf(nodes: seq<Entry>): (list: seq<Record>)
    reads nodes
    ensures |list| == |nodes|
    ensures forall i :: 0 <= i < |nodes| ==> list[i] == Record(nodes[i].address, nodes[i].lastSeen)
  {
    if nodes == [] then [] else [Record(nodes[0].address, nodes[0].lastSeen)] + RecordsOf(nodes[1..])
  }
}
