/** One round of a node: enumerate every peer that was seen, then download everything that is missing. */
module Rounds {
  import opened CommandClient
  import opened CommandServer
  import opened CStrings
  import opened FileClient
  import opened FileSystems
  import opened Framing
  import opened MessageQueues
  import opened RemoteTree
  import opened SocketAddresses
  import opened Synchronise
  import opened Walk

  /** A peer was seen and the connection to its command server stands: walk its tree from the top. */
  method EnumeratePeer(up: Channel, down: Channel, root: seq<Node>, fs: FileSystem, queue: MessageQueue,
                       address: Address, ghost view: seq<Node>)
    requires Shown(root, [], view)
    requires Idle(up, down) && Passes(up, down, Requests([], view), Replies(root, [], view))
    requires queue.Valid() && fs !in queue.Repr && up !in queue.Repr && down !in queue.Repr
    modifies up, down, queue.Repr
    ensures Idle(up, down)
    ensures queue.Valid() && fresh(queue.Repr - old(queue.Repr)) && old(queue.Repr) <= queue.Repr
    ensures queue.Contents() == old(queue.Contents()) + JobsFor(address, Wanted(view, fs.files))
  {
    hide Shown, FramesOk, Requests, Replies, JobsFor;
    var path := new char[2](_ => NUL);
    StrCpy(path, "/");
    assert DirText([]) == "/";
    DownloadRemoteDirectory(up, down, root, path, fs, queue, address, [], view);
  }

  /**
    The other side of a "peer seen" message: whether the connection attempt succeeds, its tree, what a walk gets to
    see of it, and its delivery plans.
   */
  datatype PeerSide = PeerSide(connected: bool, root: seq<Node>, view: seq<Node>, line: Line)

  ghost predicate GoodPeer(p: PeerSide)
  {
    p.connected ==>
      && Shown(p.root, [], p.view)
      && FramesOk(p.line.upRecv, p.line.upSend, 0, Requests([], p.view), CLAIMED_SIZE)
      && FramesOk(p.line.downRecv, p.line.downSend, 0, Replies(p.root, [], p.view), LISTING_BUFFER)
  }

  /**
    The jobs that one message leads to: for a peer that was seen and can be reached the files that a walk finds
    missing, which are those of its tree if all names are plain, and nothing otherwise.
   */
  ghost predicate Queued(part: seq<Job>, message: Job, peer: PeerSide, local: map<Key, string>)
  {
    if message.PeerSeen? && peer.connected then
      && part == JobsFor(message.peerAddress, Wanted(peer.view, local))
      && (PlainNames(peer.root) ==> Enumerated(part, message.peerAddress, peer.root, local))
    else
      part == []
  }

  lemma PlainWanted(root: seq<Node>, view: seq<Node>, local: map<Key, string>)
    requires Shown(root, [], view) && PlainNames(root)
    ensures Wanted(view, local) == Wanted(root, local)
  {
    hide Shows;
    PlainView(root, [], root, view);
  }

  /** One message: a seen peer is enumerated if it can be reached, anything else is ignored. */
  method HandleMessage(message: Job, peer: PeerSide, fs: FileSystem, queue: MessageQueue) returns (ghost part: seq<Job>)
    requires GoodPeer(peer) && queue.Valid() && fs !in queue.Repr
    modifies queue.Repr
    ensures queue.Valid() && fresh(queue.Repr - old(queue.Repr)) && old(queue.Repr) <= queue.Repr
    ensures queue.Contents() == old(queue.Contents()) + part && Queued(part, message, peer, fs.files)
    ensures message.PeerSeen? && peer.connected && PlainNames(peer.root) ==>
              Enumerated(part, message.peerAddress, peer.root, fs.files)
    ensures !message.PeerSeen? || !peer.connected ==> part == []
  {
    hide FramesOk, Requests, Replies, JobsFor, Wanted, Shows, PlainNames, Enumerated;
    part := [];
    if message.PeerSeen? {
      if !peer.connected {
        return;
      }
      var up := new Channel(peer.line.upRecv, peer.line.upSend);
      var down := new Channel(peer.line.downRecv, peer.line.downSend);
      EnumeratePeer(up, down, peer.root, fs, queue, message.peerAddress, peer.view);
      part := JobsFor(message.peerAddress, Wanted(peer.view, fs.files));
      if PlainNames(peer.root) {
        PlainWanted(peer.root, peer.view, fs.files);
        WantedEnumerated(message.peerAddress, peer.root, fs.files);
      }
    }
  }

  function Flatten<T>(parts: seq<seq<T>>): seq<T>
  {
    if parts == [] then [] else Flatten(parts[..|parts| - 1]) + parts[|parts| - 1]
  }

  lemma NothingFlat<T>(before: seq<T>)
    ensures before + Flatten([]) == before
  {
  }

  lemma FlattenMore<T>(before: seq<T>, parts: seq<seq<T>>, part: seq<T>)
    ensures before + Flatten(parts + [part]) == before + Flatten(parts) + part
  {
    assert (parts + [part])[..|parts|] == parts;
  }

  /** The drain loop of the command client: the jobs of all messages are queued, message by message. */
  method DrainCommands(commands: MessageQueue, peers: seq<PeerSide>, fs: FileSystem, queue: MessageQueue)
    returns (ghost parts: seq<seq<Job>>)
    requires commands.Valid() && queue.Valid() && commands.Repr !! queue.Repr && fs !in queue.Repr
    requires fs !in commands.Repr
    requires |peers| == |commands.Contents()| && forall p :: p in peers ==> GoodPeer(p)
    modifies commands, queue.Repr
    ensures commands.Valid() && commands.Contents() == [] && queue.Valid() && fs !in queue.Repr
    ensures fresh(queue.Repr - old(queue.Repr)) && commands.Repr == old(commands.Repr) && commands.Repr !! queue.Repr
    ensures queue.Contents() == old(queue.Contents()) + Flatten(parts) && |parts| == |peers|
    ensures forall i :: 0 <= i < |parts| ==> Queued(parts[i], old(commands.Contents())[i], peers[i], fs.files)
  {
    hide GoodPeer, Queued, MessageQueue.Valid, MessageQueue.Contents, Flatten, Enumerated, PlainNames;
    NothingFlat(queue.Contents());
    ghost var local, before, messages := fs.files, queue.Contents(), commands.Contents();
    assert messages[0..] == messages;
    parts := [];
    var message := commands.Pop();
    var k := 0;
    while message != null
      invariant commands.Valid() && queue.Valid() && commands.Repr == old(commands.Repr)
      invariant commands.Repr !! queue.Repr && fs !in queue.Repr && fresh(queue.Repr - old(queue.Repr))
      invariant fs.files == local && k <= |peers| && |parts| == k
      invariant message == null ==> k == |peers| && commands.Contents() == []
      invariant message != null ==> k < |peers| && [message.job] + commands.Contents() == messages[k..]
      invariant queue.Contents() == before + Flatten(parts)
      invariant forall i :: 0 <= i < k ==> Queued(parts[i], messages[i], peers[i], local)
      decreases |peers| - k
    {
      assert messages[k..] == [messages[k]] + messages[k + 1..];
      SameHead(message.job, commands.Contents(), messages[k], messages[k + 1..]);
      ghost var part := HandleMessage(message.job, peers[k], fs, queue);
      FlattenMore(before, parts, part);
      parts := parts + [part];
      message := commands.Pop();
      k := k + 1;
    }
  }

  // ---- enumeration and drain ----

  function WantedFrom(message: Job, peer: PeerSide, local: map<Key, string>): seq<seq<string>>
  {
    if message.PeerSeen? && peer.connected then Wanted(peer.view, local) else []
  }

  /** The missing files of all peers that were seen and can be reached, peer by peer. */
  function AllWanted(messages: seq<Job>, peers: seq<PeerSide>, local: map<Key, string>): seq<seq<string>>
    requires |messages| == |peers|
  {
    if peers == [] then []
    else
      var k := |peers| - 1;
      AllWanted(messages[..k], peers[..k], local) + WantedFrom(messages[k], peers[k], local)
  }

  lemma {:induction false} AllWantedMember(messages: seq<Job>, peers: seq<PeerSide>, local: map<Key, string>,
                                           path: seq<string>)
    requires |messages| == |peers|
    ensures path in AllWanted(messages, peers, local) <==>
              exists i :: 0 <= i < |peers| && path in WantedFrom(messages[i], peers[i], local)
  {
    hide WantedFrom;
    if peers != [] {
      var k := |peers| - 1;
      AllWantedMember(messages[..k], peers[..k], local, path);
      if path in AllWanted(messages[..k], peers[..k], local) {
        var i :| 0 <= i < k && path in WantedFrom(messages[..k][i], peers[..k][i], local);
        assert path in WantedFrom(messages[i], peers[i], local);
      }
      if exists i :: 0 <= i < k && path in WantedFrom(messages[i], peers[i], local) {
        var i :| 0 <= i < k && path in WantedFrom(messages[i], peers[i], local);
        assert path in WantedFrom(messages[..k][i], peers[..k][i], local);
      }
    }
  }

  lemma AllWantedMissing(messages: seq<Job>, peers: seq<PeerSide>, local: map<Key, string>)
    requires |messages| == |peers|
    ensures forall p :: p in AllWanted(messages, peers, local) ==> LocalKey(p) !in local
  {
    hide AllWanted, LocalKey;
    forall p | p in AllWanted(messages, peers, local) ensures LocalKey(p) !in local {
      AllWantedMember(messages, peers, local, p);
      var i :| 0 <= i < |peers| && p in WantedFrom(messages[i], peers[i], local);
      MissingMember(FilePaths([], peers[i].view), local, p);
    }
  }

  /** Where all names are plain these are the files of the peers' trees without a local file. */
  lemma AllWantedExact(messages: seq<Job>, peers: seq<PeerSide>, local: map<Key, string>, path: seq<string>)
    requires |messages| == |peers| && forall p :: p in peers ==> GoodPeer(p) && PlainNames(p.root)
    ensures path in AllWanted(messages, peers, local) <==>
              LocalKey(path) !in local &&
              exists i :: 0 <= i < |peers| && messages[i].PeerSeen? && peers[i].connected &&
                          FileAt(peers[i].root, path).Some?
  {
    hide AllWanted, WantedFrom, GoodPeer, PlainNames, FileAt, LocalKey;
    AllWantedMember(messages, peers, local, path);
    forall i | 0 <= i < |peers|
      ensures path in WantedFrom(messages[i], peers[i], local) <==>
                LocalKey(path) !in local && messages[i].PeerSeen? && peers[i].connected &&
                FileAt(peers[i].root, path).Some?
    {
      assert peers[i] in peers;
      PlainFrom(messages[i], peers[i], local, path);
    }
  }

  lemma PlainFrom(message: Job, peer: PeerSide, local: map<Key, string>, path: seq<string>)
    requires GoodPeer(peer) && PlainNames(peer.root)
    ensures path in WantedFrom(message, peer, local) <==>
              LocalKey(path) !in local && message.PeerSeen? && peer.connected && FileAt(peer.root, path).Some?
  {
    hide Shows, PlainNames, Wanted, FileAt, LocalKey, FramesOk;
    if message.PeerSeen? && peer.connected {
      PlainWanted(peer.root, peer.view, local);
      ExactEnumeration(peer.root, local);
    }
  }

  lemma {:induction false} NamingAll(parts: seq<seq<Job>>, messages: seq<Job>, peers: seq<PeerSide>,
                                     local: map<Key, string>)
    requires |parts| == |messages| == |peers|
    requires forall i :: 0 <= i < |parts| ==> Queued(parts[i], messages[i], peers[i], local)
    ensures Naming(Flatten(parts), AllWanted(messages, peers, local))
  {
    hide Queued, WantedFrom, FileText;
    if parts != [] {
      var k := |parts| - 1;
      assert forall i :: 0 <= i < k ==> parts[..k][i] == parts[i] && messages[..k][i] == messages[i];
      NamingAll(parts[..k], messages[..k], peers[..k], local);
      NamingOne(parts[k], messages[k], peers[k], local);
    }
  }

  lemma NamingOne(part: seq<Job>, message: Job, peer: PeerSide, local: map<Key, string>)
    requires Queued(part, message, peer, local)
    ensures Naming(part, WantedFrom(message, peer, local))
  {
    hide Wanted, Enumerated, PlainNames, FileText;
    if message.PeerSeen? { JobAt(message.peerAddress, WantedFrom(message, peer, local)); }
  }

  /**
    A whole round over the byte streams, whatever connections and downloads fail: the missing files of all peers
    that were seen and can be reached have become local exactly if some download brought them and their place was
    free; every file that was local is unchanged and no other file has appeared. Peers may offer the same path.
   */
  method SynchronisePeers(commands: MessageQueue, peers: seq<PeerSide>, fs: FileSystem, queue: MessageQueue,
                          attempts: seq<Attempt>)
    requires commands.Valid() && queue.Valid() && commands.Repr !! queue.Repr && fs !in queue.Repr
    requires fs.Valid() && fs !in commands.Repr && queue.Contents() == []
    requires |peers| == |commands.Contents()| && forall p :: p in peers ==> GoodPeer(p)
    requires var paths := AllWanted(commands.Contents(), peers, fs.files);
             && AllHarmless(attempts, paths) && Separate(paths)
             && Agreeing(State(fs.dirs, fs.files), paths, AllBrought(attempts, paths))
    modifies commands, queue.Repr, fs
    ensures fs.Valid() && commands.Valid() && commands.Contents() == [] && queue.Valid() && queue.Contents() == []
    ensures var s, paths := old(State(fs.dirs, fs.files)), AllWanted(old(commands.Contents()), peers, old(fs.files));
            var contents := AllBrought(attempts, paths);
            && (forall p :: p in paths ==> (LocalKey(p) in fs.files <==> Comes(p, paths, contents) && Free(s, p)))
            && (forall i :: 0 <= i < |paths| && contents[i] != "" && LocalKey(paths[i]) in fs.files ==>
                  fs.files[LocalKey(paths[i])] == contents[i])
            && (forall k :: k in s.files ==> k in fs.files && fs.files[k] == s.files[k])
            && (forall k :: k in fs.files && k !in s.files ==> exists p :: p in paths && k == LocalKey(p))
  {
    hide GoodPeer, Queued, MessageQueue.Valid, MessageQueue.Contents, Harmless, AllBrought, AllWanted, Agreeing,
         Separate, Closed, PlacedAll, Free, LocalKey, Comes, Naming;
    ghost var s, messages := State(fs.dirs, fs.files), commands.Contents();
    ghost var paths := AllWanted(messages, peers, fs.files);
    ghost var parts := DrainCommands(commands, peers, fs, queue);
    NamingAll(parts, messages, peers, s.files);
    assert [] + Flatten(parts) == Flatten(parts);
    AllWantedMissing(messages, peers, s.files);
    Drain(queue, fs, attempts, paths);
    Converges(s, paths, AllBrought(attempts, paths));
  }

  /**
    One message about one peer with plain names: exactly the missing remote files whose download brought something
    and whose place was free have become local, with what was brought.
   */
  method SynchronisePeer(commands: MessageQueue, peer: PeerSide, fs: FileSystem, queue: MessageQueue,
                         attempts: seq<Attempt>, ghost id: string, ghost address: Address)
    requires commands.Valid() && queue.Valid() && commands.Repr !! queue.Repr && fs !in queue.Repr
    requires fs.Valid() && fs !in commands.Repr && queue.Contents() == []
    requires commands.Contents() == [PeerSeen(id, address)]
    requires peer.connected && GoodPeer(peer) && PlainNames(peer.root)
    requires AllHarmless(attempts, Wanted(peer.root, fs.files))
    modifies commands, queue.Repr, fs
    ensures fs.Valid() && commands.Valid() && commands.Contents() == [] && queue.Valid() && queue.Contents() == []
    ensures var s, paths := old(State(fs.dirs, fs.files)), Wanted(peer.root, old(fs.files));
            forall i :: 0 <= i < |paths| ==>
              (LocalKey(paths[i]) in fs.files <==> Brought(attempts[i], paths[i]) != "" && Free(s, paths[i])) &&
              (LocalKey(paths[i]) in fs.files ==> fs.files[LocalKey(paths[i])] == Brought(attempts[i], paths[i]))
    ensures forall k :: k in old(fs.files) ==> k in fs.files && fs.files[k] == old(fs.files)[k]
    ensures forall k :: k in fs.files && k !in old(fs.files) ==>
              exists p :: p in Wanted(peer.root, old(fs.files)) && k == LocalKey(p)
  {
    hide MessageQueue.Valid, Harmless, Brought, Agreeing, Separate, Closed, Free, LocalKey, Comes, PlainNames, Wanted,
         FramesOk, Shows, IsRequest, FileText;
    ghost var s, paths := State(fs.dirs, fs.files), Wanted(peer.root, fs.files);
    PlainWanted(peer.root, peer.view, fs.files);
    OnlyOne(commands.Contents(), peer, fs.files);
    WantedAgree(peer.root, s, AllBrought(attempts, paths));
    SynchronisePeers(commands, [peer], fs, queue, attempts);
    assert forall i :: 0 <= i < |paths| ==> paths[i] in paths;
  }

  lemma OnlyOne(messages: seq<Job>, peer: PeerSide, local: map<Key, string>)
    requires |messages| == 1
    ensures AllWanted(messages, [peer], local) == WantedFrom(messages[0], peer, local)
  {
  }
}
