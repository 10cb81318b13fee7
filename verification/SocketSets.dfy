/**
  The descriptor sets of the two servers: which sockets they watch, and how a scan of the ready ones changes
  that while new connections are accepted. The command server keeps a socket that sent a request, the file
  server answers once and drops it.
 */
module SocketSets {
  import opened Options

  // ---- the history of a descriptor set ----

  datatype Event = Accepted(fd: nat) | Answered(fd: nat) | Dropped(fd: nat)

  /**
    The watched set after one more event; a descriptor in use is not accepted, and only watched ones are
    answered or dropped.
   */
  function Step(watched: set<nat>, oneShot: bool, e: Event): Option<set<nat>>
  {
    match e
    case Accepted(fd) => if fd in watched then None else Some(watched + {fd})
    case Answered(fd) => if fd !in watched then None else Some(if oneShot then watched - {fd} else watched)
    case Dropped(fd) => if fd !in watched then None else Some(watched - {fd})
  }

  /** The watched set after a history that starts with the listener alone. */
  function Replay(listener: nat, oneShot: bool, log: seq<Event>): Option<set<nat>>
  {
    if log == [] then Some({listener})
    else match Replay(listener, oneShot, log[..|log| - 1])
      case Some(watched) => Step(watched, oneShot, log[|log| - 1])
      case None => None
  }

  function Count(log: seq<Event>, e: Event): nat
  {
    if log == [] then 0 else Count(log[..|log| - 1], e) + if log[|log| - 1] == e then 1 else 0
  }

  /** The descriptors that were answered, in the order of the answers. */
  function Served(log: seq<Event>): seq<nat>
  {
    if log == [] then []
    else Served(log[..|log| - 1]) + match log[|log| - 1] case Answered(fd) => [fd] case _ => []
  }

  lemma OneMore(listener: nat, oneShot: bool, log: seq<Event>, e: Event)
    requires Replay(listener, oneShot, log).Some?
    ensures Replay(listener, oneShot, log + [e]) == Step(Replay(listener, oneShot, log).value, oneShot, e)
    ensures Served(log + [e]) == Served(log) + match e case Answered(fd) => [fd] case _ => []
  {
    assert (log + [e])[..|log + [e]| - 1] == log;
  }

  /**
    Every accepted connection is accounted for: it is still watched, or it was dropped, or (in the file server)
    it was answered. So the file server answers at most once for each accepted connection.
   */
  lemma {:induction false} EveryConnectionCounted(listener: nat, oneShot: bool, log: seq<Event>, fd: nat)
    requires Replay(listener, oneShot, log).Some?
    ensures Count(log, Accepted(fd)) + (if fd == listener then 1 else 0)
         == Count(log, Dropped(fd)) + (if oneShot then Count(log, Answered(fd)) else 0)
            + (if fd in Replay(listener, oneShot, log).value then 1 else 0)
  {
    if log != [] {
      EveryConnectionCounted(listener, oneShot, log[..|log| - 1], fd);
    }
  }

  // ---- the loops ----

  class Watcher {
    const listener: nat
    const oneShot: bool // the file server
    var watched: set<nat>
    var maxfd: nat
    ghost var log: seq<Event>

    constructor (listener: nat, oneShot: bool)
      ensures Valid() && watched == {listener} && log == []
      ensures this.listener == listener && this.oneShot == oneShot
    {
      this.listener := listener;
      this.oneShot := oneShot;
      watched := {listener};
      maxfd := listener;
      log := [];
    }

    /** The listener is watched, a scan up to maxfd reaches every watched socket, and the history explains the set. */
    ghost predicate Valid()
      reads this
    {
      && listener in watched && (forall fd: nat :: fd in watched ==> fd <= maxfd)
      && Replay(listener, oneShot, log) == Some(watched)
    }

    /** FD_SET of an accepted descriptor, which the operating system takes from those not in use. */
    method Watch(remote: nat)
      requires Valid() && remote !in watched
      modifies this
      ensures Valid() && maxfd >= old(maxfd)
      ensures watched == old(watched) + {remote} && log == old(log) + [Accepted(remote)]
    {
      hide Replay, Served;
      OneMore(listener, oneShot, log, Accepted(remote));
      log := log + [Accepted(remote)];
      watched := watched + {remote};
      if remote > maxfd {
        maxfd := remote;
      }
    }

    /** FD_CLR of a client socket on which the receive failed or the connection was closed. */
    method Drop(fd: nat)
      requires Valid() && fd in watched && fd != listener
      modifies this
      ensures Valid() && maxfd == old(maxfd)
      ensures watched == old(watched) - {fd} && log == old(log) + [Dropped(fd)]
    {
      hide Replay, Served;
      OneMore(listener, oneShot, log, Dropped(fd));
      log := log + [Dropped(fd)];
      watched := watched - {fd};
    }

    /** A whole request was received; the file server takes the socket off the set before it answers. */
    method Answer(fd: nat)
      requires Valid() && fd in watched && fd != listener
      modifies this
      ensures Valid() && maxfd == old(maxfd)
      ensures watched == (if oneShot then old(watched) - {fd} else old(watched)) && log == old(log) + [Answered(fd)]
    {
      hide Replay, Served;
      OneMore(listener, oneShot, log, Answered(fd));
      log := log + [Answered(fd)];
      if oneShot {
        watched := watched - {fd};
      }
    }

    /**
      accept can return a descriptor that is watched at the start of a scan only if it has been closed by then:
      the file server has answered it earlier in the same scan.
     */
    predicate CanReturn(ready: set<nat>, received: map<nat, int>, incoming: int)
      reads this
    {
      oneShot && 0 <= incoming < listener && incoming in ready && incoming in received && received[incoming] > 0
    }

    /**
      The loop over the descriptors after a select; `incoming` is what accept returns, -1 if it fails. Every
      ready socket is visited, although accepting moves maxfd during the scan: `handled` are the clients with
      a whole request, in ascending order, and exactly the sockets that failed, were closed, or have had their
      one answer are not watched any more.
     */
    method Scan(ready: set<nat>, received: map<nat, int>, incoming: int) returns (handled: seq<nat>)
      requires Valid() && ready <= watched && ready - {listener} <= received.Keys
      requires forall fd: nat :: fd in received ==> received[fd] >= -1
      requires incoming >= -1 && (incoming in watched ==> CanReturn(ready, received, incoming))
      modifies this
      ensures Valid()
      ensures forall fd: nat :: fd in handled <==> fd in ready && fd != listener && received[fd] > 0
      ensures forall i, j :: 0 <= i < j < |handled| ==> handled[i] < handled[j]
      ensures Served(log) == Served(old(log)) + handled
      ensures forall fd: nat :: fd in watched <==>
                || (fd == incoming && listener in ready)
                || (fd in old(watched) && !(fd in ready && fd != listener && (oneShot || received[fd] <= 0)))
    {
      hide Replay, Served;
      handled := [];
      var fd := 0;
      while fd <= maxfd
        invariant Valid() && maxfd >= old(maxfd)
        invariant forall k: nat :: k in handled <==> k in ready && k != listener && k < fd && received[k] > 0
        invariant forall i :: 0 <= i < |handled| ==> handled[i] < fd
        invariant forall i, j :: 0 <= i < j < |handled| ==> handled[i] < handled[j]
        invariant Served(log) == Served(old(log)) + handled
        invariant forall k: nat :: k in watched <==>
                    || (k == incoming && listener in ready && listener < fd)
                    || (k in old(watched) && !(k < fd && k in ready && k != listener && (oneShot || received[k] <= 0)))
        decreases if fd <= listener then listener - fd + 1 else 0, maxfd - fd
      {
        if fd in ready {
          OneMore(listener, oneShot, log, Answered(fd));
          OneMore(listener, oneShot, log, Dropped(fd));
          if fd == listener {
            if incoming != -1 {
              OneMore(listener, oneShot, log, Accepted(incoming));
              Watch(incoming);
            }
          } else if received[fd] == -1 {
            Drop(fd);
          } else if received[fd] == 0 {
            Drop(fd);
          } else {
            Answer(fd);
            handled := handled + [fd];
          }
        }
        fd := fd + 1;
      }
    }

    /** In every reachable state of the file server: no descriptor has been answered more often than it was accepted. */
    lemma OneAnswerPerConnection(fd: nat)
      requires Valid() && oneShot && fd != listener
      ensures Count(log, Answered(fd)) <= Count(log, Accepted(fd))
      ensures fd in watched ==> Count(log, Answered(fd)) < Count(log, Accepted(fd))
    {
      EveryConnectionCounted(listener, oneShot, log, fd);
    }

    /** The loop of the command server at shutdown: it closes every watched socket but the one at maxfd. */
    method CloseAll() returns (closed: set<nat>)
      requires Valid()
      ensures closed == watched - {maxfd}
    {
      closed := {};
      var fd := 0;
      while fd < maxfd
        invariant fd <= maxfd
        invariant forall k: nat :: k in closed <==> k in watched && k < fd
      {
        if fd in watched {
          closed := closed + {fd};
        }
        fd := fd + 1;
      }
    }
  }
}
