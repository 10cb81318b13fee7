/** The queue through which the threads hand each other messages: a linked list under a mutex. */
module MessageQueues {
  import opened SocketAddresses

  /** The arguments of a message; a job is what a message carries. */
  datatype Job = DownloadFile(address: Address, filePath: string) | PeerSeen(peerId: string, peerAddress: Address)

  class Message {
    var next: Message?
    const job: Job

    /** message_queue_create_message: a message that is not linked to anything. */
    constructor (job: Job)
      ensures this.job == job && next == null
    {
      this.job := job;
      next := null;
    }
  }

  ghost function JobsOf(nodes: seq<Message>): (jobs: seq<Job>)
    ensures |jobs| == |nodes| && forall i :: 0 <= i < |nodes| ==> jobs[i] == nodes[i].job
  {
    seq(|nodes|, i requires 0 <= i < |nodes| => nodes[i].job)
  }

  ghost function Successor(nodes: seq<Message>, i: nat): Message?
  {
    if i + 1 < |nodes| then nodes[i + 1] else null
  }

  class MessageQueue {
    var head: Message?
    ghost var nodes: seq<Message>
    ghost var Repr: set<object>

    /** The nodes are the chain that starts at head: acyclic, and the last one is linked to nothing. */
    ghost predicate Valid()
      reads this, Repr
      ensures Valid() ==> this in Repr
    {
      && this in Repr
      && (forall i :: 0 <= i < |nodes| ==> nodes[i] in Repr)
      && (forall i, j :: 0 <= i < j < |nodes| ==> nodes[i] != nodes[j])
      && head == (if nodes == [] then null else nodes[0])
      && (forall i :: 0 <= i < |nodes| ==> nodes[i].next == Successor(nodes, i))
    }

    /** What is linked, oldest first. */
    ghost function Contents(): seq<Job>
      reads this
    {
      JobsOf(nodes)
    }

    constructor ()
      ensures Valid() && fresh(Repr) && Contents() == []
    {
      head := null;
      nodes := [];
      Repr := {this};
    }

    /** Appends a message that is not linked to anything. */
    method Push(message: Message)
      requires Valid() && message !in Repr && message.next == null
      modifies Repr
      ensures Valid() && Repr == old(Repr) + {message}
      ensures nodes == old(nodes) + [message]
      ensures Contents() == old(Contents()) + [message.job]
    {
      if head == null {
        head := message;
      } else {
        var it := head;
        ghost var k := 0;
        while it.next != null
          invariant 0 <= k < |nodes| && it == nodes[k]
          decreases |nodes| - k
        {
          it := it.next;
          k := k + 1;
        }
        it.next := message;
      }
      nodes := nodes + [message];
      Repr := Repr + {message};
    }

    /** Unlinks and returns the oldest message, if there is one. */
    method Pop() returns (message: Message?)
      requires Valid()
      modifies this
      ensures Valid() && Repr == old(Repr)
      ensures old(nodes) == [] ==> message == null && nodes == []
      ensures old(nodes) != [] ==> message == old(nodes)[0] && nodes == old(nodes)[1..]
      ensures message == null ==> old(Contents()) == [] && Contents() == []
      ensures message != null ==> [message.job] + Contents() == old(Contents())
    {
      message := head;
      if head != null {
        head := head.next;
        nodes := nodes[1..];
      }
    }

    /**
      message_queue_free_queue: every message that is still linked is freed once, oldest first. A freed
      message has lost its link, so the loop has to look up the next message before it frees this one.
     */
    method FreeQueue() returns (freed: seq<Message>)
      requires Valid()
      modifies Repr
      ensures freed == old(nodes)
      ensures forall i :: 0 <= i < |freed| ==> freed[i].next == null
    {
      freed := [];
      var it := head;
      while it != null
        invariant |freed| <= |nodes| && freed == nodes[..|freed|] && nodes == old(nodes)
        invariant it == if |freed| < |nodes| then nodes[|freed|] else null
        invariant forall i :: |freed| <= i < |nodes| ==> nodes[i].next == Successor(nodes, i)
        invariant forall i :: 0 <= i < |freed| ==> freed[i].next == null
        decreases |nodes| - |freed|
      {
        var savedNext := it.next;
        it.next := null;
        freed := freed + [it];
        it := savedNext;
      }
    }
  }

  // ---- runs of several threads ----

  /** One atomic step: the mutex makes every push and every pop atomic. */
  datatype Step<T> = PushStep(thread: nat, value: T) | PopStep(thread: nat)

  /** The queue and everything taken out of it so far; every value carries the thread that pushed it. */
  datatype Run<T> = Run(popped: seq<(nat, T)>, linked: seq<(nat, T)>)

  function Execute<T>(r: Run<T>, s: Step<T>): Run<T>
  {
    match s
    case PushStep(t, v) => r.(linked := r.linked + [(t, v)])
    case PopStep(_) => if r.linked == [] then r else Run(r.popped + [r.linked[0]], r.linked[1..])
  }

  function ExecuteAll<T>(r: Run<T>, steps: seq<Step<T>>): Run<T>
    decreases steps
  {
    if steps == [] then r else ExecuteAll(Execute(r, steps[0]), steps[1..])
  }

  function Values<T>(values: seq<(nat, T)>): (r: seq<T>)
    ensures |r| == |values| && forall i :: 0 <= i < |r| ==> r[i] == values[i].1
  {
    if values == [] then [] else [values[0].1] + Values(values[1..])
  }

  /** Any sequence of steps of the threads, on the linked list. */
  method RunSteps(queue: MessageQueue, steps: seq<Step<Job>>, ghost linked: seq<(nat, Job)>)
    returns (popped: seq<Job>)
    requires queue.Valid() && queue.Contents() == Values(linked)
    modifies queue.Repr
    ensures queue.Valid() && fresh(queue.Repr - old(queue.Repr))
    ensures popped == Values(ExecuteAll(Run([], linked), steps).popped)
    ensures queue.Contents() == Values(ExecuteAll(Run([], linked), steps).linked)
  {
    hide Execute;
    popped := [];
    var k := 0;
    ghost var r := Run([], linked);
    assert steps[0..] == steps;
    while k < |steps|
      invariant k <= |steps| && queue.Valid() && fresh(queue.Repr - old(queue.Repr))
      invariant ExecuteAll(r, steps[k..]) == ExecuteAll(Run([], linked), steps)
      invariant popped == Values(r.popped) && queue.Contents() == Values(r.linked)
    {
      assert steps[k..][1..] == steps[k + 1..];
      ExecuteMeans(r, steps[k]);
      match steps[k] {
        case PushStep(_, job) =>
          var message := new Message(job);
          queue.Push(message);
        case PopStep(_) =>
          var message := queue.Pop();
          if message != null {
            popped := popped + [message.job];
          }
      }
      r, k := Execute(r, steps[k]), k + 1;
    }
  }

  /** One step, by what it does to the values. */
  lemma ExecuteMeans<T>(r: Run<T>, s: Step<T>)
    ensures s.PushStep? ==>
              && Values(Execute(r, s).popped) == Values(r.popped)
              && Values(Execute(r, s).linked) == Values(r.linked) + [s.value]
    ensures s.PopStep? && r.linked == [] ==> Execute(r, s) == r
    ensures s.PopStep? && r.linked != [] ==>
              && Values(Execute(r, s).popped) == Values(r.popped) + [Values(r.linked)[0]]
              && Values(Execute(r, s).linked) == Values(r.linked)[1..]
  {
  }

  /** Pops take the oldest values in order, each the next one; as many pops as there are values empty the queue. */
  lemma {:induction false} PopsTakeOldest<T>(r: Run<T>, pops: seq<Step<T>>)
    requires forall s :: s in pops ==> s.PopStep?
    ensures var k := if |pops| < |r.linked| then |pops| else |r.linked|;
            ExecuteAll(r, pops) == Run(r.popped + r.linked[..k], r.linked[k..])
    decreases pops
  {
    if pops != [] {
      assert pops[0] in pops && forall s :: s in pops[1..] ==> s in pops;
      PopsTakeOldest(Execute(r, pops[0]), pops[1..]);
      if r.linked != [] {
        assert r.linked == [r.linked[0]] + r.linked[1..];
      }
    }
  }

  function Pushed<T>(steps: seq<Step<T>>): seq<(nat, T)>
  {
    if steps == [] then []
    else (match steps[0] case PushStep(t, v) => [(t, v)] case PopStep(_) => []) + Pushed(steps[1..])
  }

  /** What one thread pushed, in its program order. */
  function PushedBy<T>(steps: seq<Step<T>>, t: nat): seq<T>
  {
    if steps == [] then []
    else (if steps[0].PushStep? && steps[0].thread == t then [steps[0].value] else []) + PushedBy(steps[1..], t)
  }

  function ByThread<T>(values: seq<(nat, T)>, t: nat): seq<T>
  {
    if values == [] then []
    else (if values[0].0 == t then [values[0].1] else []) + ByThread(values[1..], t)
  }

  lemma StepConserves<T>(r: Run<T>, s: Step<T>)
    ensures var next := Execute(r, s);
            next.popped + next.linked ==
              r.popped + r.linked + (match s case PushStep(t, v) => [(t, v)] case PopStep(_) => [])
  {
    if s.PopStep? && r.linked != [] {
      assert r.linked == [r.linked[0]] + r.linked[1..];
    }
  }

  /** Nothing is lost, duplicated or reordered, whatever the interleaving. */
  lemma {:induction false} Conservation<T>(r: Run<T>, steps: seq<Step<T>>)
    ensures ExecuteAll(r, steps).popped + ExecuteAll(r, steps).linked == r.popped + r.linked + Pushed(steps)
    decreases steps
  {
    if steps != [] {
      StepConserves(r, steps[0]);
      Conservation(Execute(r, steps[0]), steps[1..]);
    }
  }

  lemma {:induction false} ByThreadOfPushed<T>(steps: seq<Step<T>>, t: nat)
    ensures ByThread(Pushed(steps), t) == PushedBy(steps, t)
  {
    if steps != [] {
      ByThreadOfPushed(steps[1..], t);
      match steps[0] {
        case PushStep(u, v) =>
          assert Pushed(steps) == [(u, v)] + Pushed(steps[1..]);
          assert Pushed(steps)[1..] == Pushed(steps[1..]);
        case PopStep(_) =>
          assert Pushed(steps) == Pushed(steps[1..]);
      }
    }
  }

  /** One more step: what it pushes comes last, and only for its own thread. */
  lemma {:induction false} PushedByMore<T>(steps: seq<Step<T>>, u: nat, v: T, t: nat)
    ensures PushedBy(steps + [PushStep(u, v)], t) == PushedBy(steps, t) + if u == t then [v] else []
    ensures PushedBy(steps + [PopStep(u)], t) == PushedBy(steps, t)
  {
    if steps != [] {
      PushedByMore(steps[1..], u, v, t);
      assert (steps + [PushStep(u, v)])[1..] == steps[1..] + [PushStep(u, v)];
      assert (steps + [PopStep(u)])[1..] == steps[1..] + [PopStep(u)];
    }
  }

  /** The messages of one thread leave an initially empty queue in the order in which that thread pushed them. */
  lemma PerThreadOrder<T>(steps: seq<Step<T>>, t: nat)
    ensures var r := ExecuteAll(Run([], []), steps);
            ByThread(r.popped + r.linked, t) == PushedBy(steps, t)
  {
    Conservation(Run([], []), steps);
    ByThreadOfPushed(steps, t);
    var r := ExecuteAll(Run([], []), steps);
    assert r.popped + r.linked == Pushed(steps);
  }
}
