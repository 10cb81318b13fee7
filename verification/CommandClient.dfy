/** The command client: it walks a remote tree and queues a download job for every file that is missing locally. */
module CommandClient {
  import opened CommandServer
  import opened Chunking
  import opened CStrings
  import opened FileSystems
  import opened Framing
  import opened Listing
  import opened MessageQueues
  import opened SocketAddresses
  import opened RemoteTree
  import opened Splitting
  import opened Walk

  /** Nothing is on its way in either direction. */
  ghost predicate Idle(up: Channel, down: Channel)
    reads up, down
  {
    up != down && up.unread == "" && down.unread == ""
  }

  /** The directory request: "GET " and the path are put together in the request buffer and sent. */
  method SendRequest(up: Channel, path: array<char>, requestBuffer: array<char>, ghost text: string)
    requires path != requestBuffer && requestBuffer.Length == PATH_MAX
    requires StringAt(path[..], 0, text) && |GET| + |text| < RECEIVE_BUFFER
    requires up.unread == "" && FrameOk(up.recvPlan, up.sendPlan, up.pos, |GET + text|, CLAIMED_SIZE)
    modifies up, requestBuffer
    ensures up.unread == Frame(GET + text) && up.pos == old(up.pos)
  {
    hide SendRet, SendWire, FrameOk, Frame;
    var p := TextOf(path, 0);
    StringAtUnique(path[..], 0, p, text);
    StrCpy(requestBuffer, GET);
    StrCat(requestBuffer, p, GET);
    var request := TextOf(requestBuffer, 0);
    StringAtUnique(requestBuffer[..], 0, request, GET + text);
    StringChars(requestBuffer[..], 0, request);
    assert requestBuffer[..|request|] == GET + text;
    RoundTrip(up.recvPlan, up.sendPlan, up.pos, request, CLAIMED_SIZE, RECEIVE_BUFFER);
    var sent := TcpMessageSend(up, requestBuffer, |request|);
  }

  /** The server's turn: it takes the request for the directory dir off one stream and puts its answer on the other. */
  method RemoteTurn(up: Channel, down: Channel, root: seq<Node>, ghost dir: seq<string>)
    requires up != down && down.unread == "" && up.unread == Frame(Request(dir))
    requires OsTree(root) && IsPath(dir) && |Request(dir)| < RECEIVE_BUFFER && |Answer(root, dir)| < LISTING_BUFFER
    requires FrameOk(up.recvPlan, up.sendPlan, up.pos, |Request(dir)|, CLAIMED_SIZE)
    requires FrameOk(down.recvPlan, down.sendPlan, down.pos, |Answer(root, dir)|, LISTING_BUFFER)
    modifies up, down
    ensures up.unread == "" && up.pos == old(up.pos) + 4 + |Request(dir)|
    ensures down.unread == Frame(Answer(root, dir)) && down.pos == old(down.pos)
  {
    hide FrameOk, SendWire, SendRet, ReceiveMessage, Frame, ReplyTo, RequestedPath, IsRequest, Answer;
    RoundTrip(up.recvPlan, up.sendPlan, up.pos, Request(dir), CLAIMED_SIZE, RECEIVE_BUFFER);
    FrameParts(Request(dir));
    AnswerIsText(root, dir);
    RoundTrip(down.recvPlan, down.sendPlan, down.pos, Answer(root, dir), LISTING_BUFFER, LISTING_BUFFER);
    var watched, overrun := ServeReadySocket(up, down, root);
  }

  /** The listing arrives in the receive buffer and is terminated there. */
  method ReceiveListing(down: Channel, receiveBuffer: array<char>, ghost text: string)
    requires receiveBuffer.Length == LISTING_BUFFER && |text| < LISTING_BUFFER && NUL !in text
    requires down.unread == Frame(text)
    requires FrameOk(down.recvPlan, down.sendPlan, down.pos, |text|, LISTING_BUFFER)
    modifies down, receiveBuffer
    ensures down.unread == "" && down.pos == old(down.pos) + 4 + |text|
    ensures StringAt(receiveBuffer[..], 0, text)
  {
    hide FrameOk, SendWire, SendRet, ReceiveMessage, Frame;
    RoundTrip(down.recvPlan, down.sendPlan, down.pos, text, LISTING_BUFFER, LISTING_BUFFER);
    FrameParts(text);
    var received, overrun := TcpMessageReceive(down, receiveBuffer, LISTING_BUFFER);
    assert received > 0 ==> receiveBuffer[..received] == text;
    receiveBuffer[received] := NUL;
  }

  /** strcpy of the base directory, strcat of the path, strcat of the name: the local path of a remote file. */
  method BuildLocalPath(requestBuffer: array<char>, path: array<char>, name: string, ghost text: string)
    returns (local: string)
    requires path != requestBuffer && requestBuffer.Length == PATH_MAX
    requires StringAt(path[..], 0, text) && NUL !in text && NUL !in name && |BASE_PATH| + |text| + |name| < PATH_MAX
    modifies requestBuffer
    ensures local == BASE_PATH + text + name
  {
    var p := TextOf(path, 0);
    StringAtUnique(path[..], 0, p, text);
    StrCpy(requestBuffer, BASE_PATH);
    StrCat(requestBuffer, p, BASE_PATH);
    StrCat(requestBuffer, name, BASE_PATH + p);
    local := TextOf(requestBuffer, 0);
    StringAtUnique(requestBuffer[..], 0, local, BASE_PATH + p + name);
  }

  /**
    The local path of a remote file names the file's key, and without the base directory it is the file's
    shared path.
   */
  lemma {:induction false} LocalPathParts(dir: seq<string>, name: string)
    requires IsPath(dir) && IsName(name)
    ensures var file := dir + [name];
            && BASE_PATH + DirText(dir) + name == BASE_PATH + FileText(file)
            && Tokens(BASE_PATH + FileText(file), '/') == LocalKey(file)
            && (BASE_PATH + FileText(file))[|BASE_PATH|..] == FileText(file)
            && NUL !in DirText(dir)
  {
    var file := dir + [name];
    assert file[..|file| - 1] == dir;
    PartsOfDirText(dir);
    PartsOfFileText(file);
    SharedPathOf(FileText(file));
  }

  /** The client's test for a local regular file and, if there is none, the job for it. */
  method QueueIfMissing(requestBuffer: array<char>, path: array<char>, name: string, fs: FileSystem,
                        queue: MessageQueue,
                        address: Address, ghost dir: seq<string>)
    requires path != requestBuffer && requestBuffer.Length == PATH_MAX
    requires StringAt(path[..], 0, DirText(dir)) && IsPath(dir) && IsName(name)
    requires |BASE_PATH| + |DirText(dir)| + |name| < PATH_MAX
    requires queue.Valid() && requestBuffer !in queue.Repr && fs !in queue.Repr
    modifies requestBuffer, queue.Repr
    ensures queue.Valid() && fresh(queue.Repr - old(queue.Repr)) && old(queue.Repr) <= queue.Repr
    ensures queue.Contents() == old(queue.Contents())
              + if LocalKey(dir + [name]) in fs.files then [] else [DownloadFile(address, FileText(dir + [name]))]
  {
    hide DirText, FileText, Tokens, LocalKey;
    LocalPathParts(dir, name);
    var local := BuildLocalPath(requestBuffer, path, name, DirText(dir));
    if !fs.IsRegular(local) {
      var message := new Message(DownloadFile(address, local[|BASE_PATH|..]));
      queue.Push(message);
    }
  }

  // ---- the walk ----

  /** The frames still to come on both streams get through. */
  ghost predicate Passes(up: Channel, down: Channel, requests: seq<string>, replies: seq<string>)
    reads up, down
  {
    FramesOk(up.recvPlan, up.sendPlan, up.pos, requests, CLAIMED_SIZE) &&
    FramesOk(down.recvPlan, down.sendPlan, down.pos, replies, LISTING_BUFFER)
  }

  /** The walk changes the queue's nodes, and none of these are among them. */
  ghost predicate Apart(path: array<char>, fs: FileSystem, up: Channel, down: Channel, queue: MessageQueue)
    reads queue
  {
    path !in queue.Repr && fs !in queue.Repr && up !in queue.Repr && down !in queue.Repr
  }

  /** A walk that asks for dir gets to see the tree `here`. */
  ghost predicate Shown(root: seq<Node>, dir: seq<string>, here: seq<Node>)
  {
    OsTree(root) && IsPath(dir) && Shows(root, dir, here)
  }

  lemma ShownChild(root: seq<Node>, dir: seq<string>, here: seq<Node>, n: Node)
    requires Shown(root, dir, here) && n in here
    ensures NodeShows(root, dir, n) && NUL !in DirText(dir)
    ensures n.Dir? ==> Shown(root, dir + [n.name], n.children)
    ensures n.Dir? ==> DirText(dir + [n.name]) == DirText(dir) + n.name + "/"
    ensures n.Dir? ==> |DirText(dir)| + |n.name| + 1 < PATH_MAX
  {
    hide Answer, Parse, Entries, OsTree, Tokens;
    PartsOfDirText(dir);
    if n.Dir? {
      var deep := dir + [n.name];
      assert deep[..|deep| - 1] == dir;
      assert NodeShows(root, dir, n);
      assert Shows(root, deep, n.children);
      assert |Request(deep)| < RECEIVE_BUFFER;
    }
  }

  /** strcpy of the path, strcat of the name and of a slash: the path of a subdirectory, in the request buffer. */
  method BuildDirPath(requestBuffer: array<char>, path: array<char>, name: string, ghost text: string)
    requires path != requestBuffer && requestBuffer.Length == PATH_MAX
    requires StringAt(path[..], 0, text) && NUL !in name && |text| + |name| + 1 < PATH_MAX
    modifies requestBuffer
    ensures StringAt(requestBuffer[..], 0, text + name + "/")
  {
    var p := TextOf(path, 0);
    StringAtUnique(path[..], 0, p, text);
    StrCpy(requestBuffer, p);
    StrCat(requestBuffer, name, p);
    StrCat(requestBuffer, "/", p + name);
  }

  /** One entry of a listing: a directory is walked with the request buffer as its path, a file is tested and queued. */
  method HandleEntry(up: Channel, down: Channel, root: seq<Node>, requestBuffer: array<char>, path: array<char>,
                     e: Entry,
                     fs: FileSystem, queue: MessageQueue, address: Address,
                     ghost dir: seq<string>, ghost here: seq<Node>, ghost n: Node)
    requires Shown(root, dir, here) && n in here && EntryFor(n, e)
    requires path != requestBuffer && requestBuffer.Length == PATH_MAX && StringAt(path[..], 0, DirText(dir))
    requires Idle(up, down) && Passes(up, down, NodeRequests(dir, n), NodeReplies(root, dir, n))
    requires queue.Valid() && requestBuffer !in queue.Repr && Apart(path, fs, up, down, queue)
    modifies up, down, requestBuffer, queue.Repr
    ensures Idle(up, down)
    ensures up.pos == old(up.pos) + FramesLength(NodeRequests(dir, n))
    ensures down.pos == old(down.pos) + FramesLength(NodeReplies(root, dir, n))
    ensures queue.Valid() && fresh(queue.Repr - old(queue.Repr)) && old(queue.Repr) <= queue.Repr
    ensures queue.Contents() == old(queue.Contents()) + NodeJobs(address, dir, n, fs.files)
    decreases n, 0
  {
    hide WalkJobs, LocalKey, FileText, FramesOk, DirText, Requests, Replies;
    ShownChild(root, dir, here, n);
    if e.kind == 'D' {
      BuildDirPath(requestBuffer, path, e.name, DirText(dir));
      DownloadRemoteDirectory(up, down, root, requestBuffer, fs, queue, address, dir + [n.name], n.children);
    } else {
      QueueIfMissing(requestBuffer, path, e.name, fs, queue, address, dir);
    }
  }

  /** The receive buffer still holds, from the save pointer on, items that are read as the entries of these nodes. */
  ghost predicate Unread(buf: seq<char>, save: nat, rest: string, nodes: seq<Node>)
  {
    StringAt(buf, save, rest) && RecogniseAll(Tokens(rest, '<')) == Entries(nodes)
  }

  /** The next item is read as the first entry that is left, or it is not recognised and none goes with it. */
  lemma FirstUnread(buf: seq<char>, save: nat, rest: string, nodes: seq<Node>)
    requires Unread(buf, save, rest, nodes)
    ensures Tokens(rest, '<') == [] ==> Entries(nodes) == []
    ensures Tokens(rest, '<') != [] ==>
              match Recognise(Tokens(rest, '<')[0])
              case Some(e) => Entries(nodes) != [] && Entries(nodes)[0] == e
                && RecogniseAll(Tokens(rest, '<')[1..]) == Entries(nodes)[1..]
              case None => RecogniseAll(Tokens(rest, '<')[1..]) == Entries(nodes)
  {
  }

  /**
    One round of the loop over the listing: the next item is cut off and, if it is recognised, its entry, the
    first one listed from index j on, is handled.
   */
  method HandleNext(up: Channel, down: Channel, root: seq<Node>, requestBuffer: array<char>, receiveBuffer: array<char>,
                    path: array<char>, from: nat, fs: FileSystem, queue: MessageQueue, address: Address,
                    ghost dir: seq<string>, ghost here: seq<Node>, ghost j: nat, ghost rest: string)
    returns (more: bool, save: nat, ghost next: nat, ghost unread: string)
    requires j <= |here| && Shown(root, dir, here)
    requires path != requestBuffer && requestBuffer.Length == PATH_MAX && StringAt(path[..], 0, DirText(dir))
    requires receiveBuffer != path && receiveBuffer != requestBuffer && Unread(receiveBuffer[..], from, rest, here[j..])
    requires Idle(up, down) && Passes(up, down, RequestsBelow(dir, here[j..]), RepliesBelow(root, dir, here[j..]))
    requires queue.Valid() && requestBuffer !in queue.Repr && receiveBuffer !in queue.Repr
    requires Apart(path, fs, up, down, queue)
    modifies up, down, requestBuffer, receiveBuffer, queue.Repr
    ensures j <= next <= |here| && (more ==> |unread| < |rest|)
    ensures Unread(receiveBuffer[..], save, unread, here[next..]) && (!more ==> Entries(here[next..]) == [])
    ensures Idle(up, down) && Passes(up, down, RequestsBelow(dir, here[next..]), RepliesBelow(root, dir, here[next..]))
    ensures up.pos + FramesLength(RequestsBelow(dir, here[next..]))
         == old(up.pos) + FramesLength(RequestsBelow(dir, here[j..]))
    ensures down.pos + FramesLength(RepliesBelow(root, dir, here[next..]))
         == old(down.pos) + FramesLength(RepliesBelow(root, dir, here[j..]))
    ensures queue.Valid() && fresh(queue.Repr - old(queue.Repr)) && old(queue.Repr) <= queue.Repr
    ensures queue.Contents() + WalkJobs(address, dir, here[next..], fs.files)
         == old(queue.Contents()) + WalkJobs(address, dir, here[j..], fs.files)
    decreases here, 0
  {
    hide WalkJobs, FramesOk, DirText, FramesLength, RequestsBelow, RepliesBelow, NodeRequests, NodeReplies, NodeJobs,
         Shows, Tokens, Recognise, RecogniseAll, Entries, WellFormed, Shown;
    ghost var nodes := here[j..];
    FirstUnread(receiveBuffer[..], from, rest, nodes);
    var e;
    more, e, save, unread := NextEntry(receiveBuffer, from, rest);
    if !more {
      next := j;
      EmptyUnread(receiveBuffer[..], save, unread, nodes);
      return;
    }
    if e.None? {
      next := j;
      return;
    }
    ghost var k := NextListed(address, root, dir, nodes, fs.files);
    next := j + k + 1;
    ghost var n, later := nodes[k], here[next..];
    assert nodes[k + 1..] == later && n == here[j + k];
    FramesSplit(up.recvPlan, up.sendPlan, up.pos, NodeRequests(dir, n), RequestsBelow(dir, later), CLAIMED_SIZE);
    FramesSplit(down.recvPlan, down.sendPlan, down.pos, NodeReplies(root, dir, n), RepliesBelow(root, dir, later),
                LISTING_BUFFER);
    HandleEntry(up, down, root, requestBuffer, path, e.value, fs, queue, address, dir, here, n);
  }

  lemma EmptyUnread(buf: seq<char>, save: nat, rest: string, nodes: seq<Node>)
    requires StringAt(buf, save, rest) && rest == "" && Entries(nodes) == []
    ensures Unread(buf, save, rest, nodes)
  {
    TokensOfEmpty('<');
  }

  /** The loop over the listing of the directory dir, which stands in the receive buffer. */
  method HandleListing(up: Channel, down: Channel, root: seq<Node>, requestBuffer: array<char>,
                       receiveBuffer: array<char>,
                       path: array<char>, fs: FileSystem, queue: MessageQueue, address: Address,
                       ghost dir: seq<string>, ghost here: seq<Node>)
    requires Shown(root, dir, here)
    requires path != requestBuffer && requestBuffer.Length == PATH_MAX && StringAt(path[..], 0, DirText(dir))
    requires receiveBuffer != path && receiveBuffer != requestBuffer
    requires StringAt(receiveBuffer[..], 0, Answer(root, dir))
    requires Idle(up, down) && Passes(up, down, RequestsBelow(dir, here), RepliesBelow(root, dir, here))
    requires queue.Valid() && requestBuffer !in queue.Repr && receiveBuffer !in queue.Repr
    requires Apart(path, fs, up, down, queue)
    modifies up, down, requestBuffer, receiveBuffer, queue.Repr
    ensures Idle(up, down)
    ensures up.pos == old(up.pos) + FramesLength(RequestsBelow(dir, here))
    ensures down.pos == old(down.pos) + FramesLength(RepliesBelow(root, dir, here))
    ensures queue.Valid() && fresh(queue.Repr - old(queue.Repr)) && old(queue.Repr) <= queue.Repr
    ensures queue.Contents() == old(queue.Contents()) + WalkJobs(address, dir, here, fs.files)
    decreases here, 1
  {
    hide WalkJobs, FramesOk, DirText, FramesLength, RequestsBelow, RepliesBelow, Entries, Unread, Passes, Shown,
         StringAt;
    ghost var rest, j, local, text := Answer(root, dir), 0, fs.files, path[..];
    ListingItems(root, dir, here);
    assert here[0..] == here;
    assert Unread(receiveBuffer[..], 0, rest, here[j..]);
    var more, save := true, 0;
    while more
      invariant j <= |here| && Unread(receiveBuffer[..], save, rest, here[j..]) && (!more ==> Entries(here[j..]) == [])
      invariant path[..] == text && fs.files == local
      invariant Idle(up, down) && Passes(up, down, RequestsBelow(dir, here[j..]), RepliesBelow(root, dir, here[j..]))
      invariant up.pos + FramesLength(RequestsBelow(dir, here[j..]))
             == old(up.pos) + FramesLength(RequestsBelow(dir, here))
      invariant down.pos + FramesLength(RepliesBelow(root, dir, here[j..]))
             == old(down.pos) + FramesLength(RepliesBelow(root, dir, here))
      invariant queue.Valid() && fresh(queue.Repr - old(queue.Repr)) && old(queue.Repr) <= queue.Repr
      invariant requestBuffer !in queue.Repr && receiveBuffer !in queue.Repr && Apart(path, fs, up, down, queue)
      invariant queue.Contents() + WalkJobs(address, dir, here[j..], local)
             == old(queue.Contents()) + WalkJobs(address, dir, here, local)
      decreases more, |rest|
    {
      more, save, j, rest :=
        HandleNext(up, down, root, requestBuffer, receiveBuffer, path, save, fs, queue, address, dir, here, j, rest);
    }
    NothingListed(address, root, dir, here[j..], local);
    NoFrames();
  }

  lemma ListingItems(root: seq<Node>, dir: seq<string>, here: seq<Node>)
    requires Shown(root, dir, here)
    ensures NUL !in Answer(root, dir)
    ensures forall m :: StringAt(m, 0, Answer(root, dir)) ==> Unread(m, 0, Answer(root, dir), here)
  {
    AnswerIsText(root, dir);
  }

  /** Requests the directory at path, reads the listing and handles its entries one after the other. */
  method DownloadRemoteDirectory(up: Channel, down: Channel, root: seq<Node>, path: array<char>,
                                 fs: FileSystem, queue: MessageQueue, address: Address,
                                 ghost dir: seq<string>, ghost here: seq<Node>)
    requires Shown(root, dir, here)
    requires StringAt(path[..], 0, DirText(dir))
    requires Idle(up, down) && Passes(up, down, Requests(dir, here), Replies(root, dir, here))
    requires queue.Valid() && Apart(path, fs, up, down, queue)
    modifies up, down, queue.Repr
    ensures Idle(up, down)
    ensures up.pos == old(up.pos) + FramesLength(Requests(dir, here))
    ensures down.pos == old(down.pos) + FramesLength(Replies(root, dir, here))
    ensures queue.Valid() && fresh(queue.Repr - old(queue.Repr)) && old(queue.Repr) <= queue.Repr
    ensures queue.Contents() == old(queue.Contents()) + WalkJobs(address, dir, here, fs.files)
    decreases here, 2
  {
    hide WalkJobs, FrameOk, DirText, Answer, RequestsBelow, RepliesBelow, Frame, MessageQueue.Valid,
         MessageQueue.Contents;
    var requestBuffer := new char[PATH_MAX](_ => NUL);
    SendRequest(up, path, requestBuffer, DirText(dir));
    var receiveBuffer := new char[LISTING_BUFFER];
    RemoteTurn(up, down, root, dir);
    ListingItems(root, dir, here);
    ReceiveListing(down, receiveBuffer, Answer(root, dir));
    HandleListing(up, down, root, requestBuffer, receiveBuffer, path, fs, queue, address, dir, here);
  }
}
