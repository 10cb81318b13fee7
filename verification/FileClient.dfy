/** The file client: it takes download jobs off its queue and places the remote files in the local file system. */
module FileClient {
  import opened CommandServer
  import opened Chunking
  import opened CStrings
  import opened FileServer
  import opened FileSystems
  import opened Framing
  import opened MessageQueues
  import opened RemoteTree
  import opened Splitting
  import opened Walk

  const FILE_BUFFER := 20000000

  // ---- what one download does ----

  /** Directories and files as a value. */
  datatype State = State(dirs: set<Key>, files: map<Key, string>)

  /** The file system after the download of a content to a shared path; an empty reply counts as a failure. */
  function Placed(s: State, path: seq<string>, content: string): State
  {
    if content == "" || path == [] then s
    else
      var key := LocalKey(path);
      var dirs := Grown(s.dirs, s.files, key[..|key| - 1]);
      State(dirs, Stored(dirs, s.files, key, content))
  }

  /** A file that is there already is overwritten from the front, in its place, and nothing else changes. */
  lemma PlacedOver(s: State, path: seq<string>, data: string)
    requires Closed(s.dirs, s.files) && path != [] && data != ""
    ensures OthersKept(s.files, Placed(s, path, data).files, LocalKey(path))
    ensures LocalKey(path) in s.files ==>
              && Placed(s, path, data).dirs == s.dirs
              && LocalKey(path) in Placed(s, path, data).files
              && WrittenOver(s.files[LocalKey(path)], data, Placed(s, path, data).files[LocalKey(path)])
  {
    hide Grown;
    var key := LocalKey(path);
    var parent := key[..|key| - 1];
    GrownIsClosed(s.dirs, s.files, parent);
    if key in s.files {
      GrownInPlace(s.dirs, s.files, parent);
      OverwrittenExact(s.files[key], data);
    }
  }

  /** The directory part of a local path, cut at the last slash, names the parent of the file's key. */
  lemma ParentOfLocalPath(path: seq<string>)
    requires IsPath(path) && path != []
    ensures var text, cut := BASE_PATH + FileText(path), |BASE_PATH + DirText(path[..|path| - 1])| - 1;
            && 0 < cut < |text| && text[cut] == '/' && (forall k :: cut < k < |text| ==> text[k] != '/')
            && Tokens(text[..cut], '/') == LocalKey(path)[..|LocalKey(path)| - 1]
            && Tokens(text, '/') == LocalKey(path) && NUL !in text
  {
    hide Tokens, SharedPath, DirText;
    var front, name := path[..|path| - 1], path[|path| - 1];
    assert name in path;
    PartsOfDirText(front);
    PartsOfFileText(path);
    SharedPathOf(FileText(path));
    SharedPathOf(DirText(front));
    BehindLastSlash(BASE_PATH + DirText(front), name);
    assert BASE_PATH + FileText(path) == BASE_PATH + DirText(front) + name;
    assert LocalKey(path)[..|LocalKey(path)| - 1] == LocalKey(front);
  }

  /** Behind a text that ends in a slash a name holds no further slash, and the slash itself adds no component. */
  lemma BehindLastSlash(dirText: string, name: string)
    requires dirText != "" && dirText[|dirText| - 1] == '/' && '/' !in name
    ensures var text, cut := dirText + name, |dirText| - 1;
            && text[cut] == '/' && (forall k :: cut < k < |text| ==> text[k] != '/')
            && Tokens(text[..cut], '/') == Tokens(dirText, '/')
  {
    hide Tokens;
    var text, cut := dirText + name, |dirText| - 1;
    assert forall k :: cut < k < |text| ==> text[k] == name[k - cut - 1] && name[k - cut - 1] in name;
    assert dirText == text[..cut] + ['/'] + "";
    TokensConcat(text[..cut], '/', "");
    TokensOfEmpty('/');
  }

  /** The loop that looks for the last slash from the end of the string. */
  method LastSlash(buf: array<char>, ghost text: string, ghost cut: nat) returns (p: nat)
    requires StringAt(buf[..], 0, text) && cut < |text| && text[cut] == '/'
    requires forall k :: cut < k < |text| ==> text[k] != '/'
    ensures p == cut
  {
    var s := TextOf(buf, 0);
    StringAtUnique(buf[..], 0, s, text);
    assert forall k :: 0 <= k < |text| ==> buf[..][k] == text[k];
    p := |s| - 1;
    while buf[p] != '/'
      invariant cut <= p < |text|
      decreases p
    {
      p := p - 1;
    }
    assert buf[..][p] == text[p];
  }

  /** Cuts the local path at index p, makes the directory it then names with all its parents, and undoes the cut. */
  method MkdirpCut(fs: FileSystem, buf: array<char>, p: nat, ghost text: string)
    requires fs.Valid() && 0 < p < |text| < buf.Length && NUL !in text && text[p] == '/'
    requires StringAt(buf[..], 0, text)
    modifies fs`dirs, buf
    ensures fs.Valid() && buf[..] == old(buf[..])
    ensures fs.dirs == Grown(old(fs.dirs), fs.files, Tokens(text[..p], '/'))
  {
    hide Tokens, Grown, Closed;
    StringChars(buf[..], 0, text);
    ghost var m := buf[..];
    assert forall k :: 0 <= k < |text| ==> m[k] == text[k];
    buf[p] := NUL;
    var parent := TextBefore(buf, text, p);
    Mkdirp(fs, parent);
    buf[p] := '/';
    assert buf[..] == m;
  }

  /** Creates the parent directories of a local path and writes the data. */
  method PlaceFile(fs: FileSystem, filePath: string, data: string, ghost path: seq<string>)
    requires fs.Valid() && IsPath(path) && path != [] && filePath == FileText(path)
    requires |BASE_PATH| + |filePath| < PATH_MAX && data != ""
    modifies fs
    ensures fs.Valid()
    ensures State(fs.dirs, fs.files) == Placed(old(State(fs.dirs, fs.files)), path, data)
    ensures OthersKept(old(fs.files), fs.files, LocalKey(path))
    ensures LocalKey(path) in old(fs.files) ==>
              LocalKey(path) in fs.files && WrittenOver(old(fs.files)[LocalKey(path)], data, fs.files[LocalKey(path)])
  {
    hide Tokens, DirText, FileText, LocalKey, Grown, Stored, Closed, StringAt, WrittenOver;
    PlacedOver(State(fs.dirs, fs.files), path, data);
    ParentOfLocalPath(path);
    ghost var text, cut := BASE_PATH + filePath, |BASE_PATH + DirText(path[..|path| - 1])| - 1;
    var localFilePath := new char[PATH_MAX](_ => NUL);
    StrCpy(localFilePath, BASE_PATH);
    StrCat(localFilePath, filePath, BASE_PATH);
    var p := LastSlash(localFilePath, text, cut);
    MkdirpCut(fs, localFilePath, p, text);
    var whole := TextOf(localFilePath, 0);
    StringAtUnique(localFilePath[..], 0, whole, text);
    fs.OpenAndWrite(whole, data);
  }

  // ---- sizes ----

  /**
    Whatever the pieces, a listing arrives up to half of the client's buffer, a file up to half of the other one,
    and a request up to four bytes only: for every request there are pieces in which the server does not receive it.
   */
  lemma SafeSizes(n: nat, dir: seq<string>)
    requires 0 < n < INT32 && |Walk.Request(dir)| < INT32 && IsPath(dir)
    ensures AlwaysReceived(LISTING_BUFFER, n, 0) <==> n <= 32384
    ensures AlwaysReceived(FILE_BUFFER, n, 0) <==> n <= 10_000_000
    ensures AlwaysReceived(CLAIMED_SIZE, n, 0) <==> n <= 4
    ensures !AlwaysReceived(CLAIMED_SIZE, |Walk.Request(dir)|, 0)
  {
    hide AlwaysReceived;
    ChunkingBound(LISTING_BUFFER, n, 0);
    ChunkingBound(FILE_BUFFER, n, 0);
    ChunkingBound(CLAIMED_SIZE, n, 0);
    PartsOfDirText(dir);
    ChunkingBound(CLAIMED_SIZE, |Walk.Request(dir)|, 0);
  }

  // ---- one download ----

  /** What the client gets out of a reply on a connection that the server closes behind it. */
  function Fetched(recvPlan: RecvPlan, sendPlan: SendPlan, pos: nat, reply: string): string
  {
    var wire := SendWire(sendPlan, pos, reply);
    var run := ReceiveMessage(recvPlan, pos, wire, FILE_BUFFER, FILE_BUFFER);
    if run.Returned? && 0 < run.ret && 4 + run.ret <= |wire| then wire[4..4 + run.ret] else ""
  }

  lemma WireOfReply(sendPlan: SendPlan, pos: nat, reply: string)
    requires |reply| < INT32 && AcceptedAt(sendPlan, pos) >= 4
    ensures var wire := SendWire(sendPlan, pos, reply);
            && 4 <= |wire| <= 4 + |reply| && Decode(wire[..4]) == |reply| && wire[4..] == reply[..|wire| - 4]
            && (|wire| == 4 + |reply| ==> wire == Frame(reply) && SendRet(sendPlan, pos, reply) == 1)
  {
    DecodeHeader(|reply|);
    assert Header(|reply|)[..4] == Header(|reply|);
    var sent := SendLoop(sendPlan, pos + 4, |reply|, 0).sent;
    assert SendWire(sendPlan, pos, reply) == Header(|reply|) + reply[..sent];
    assert reply[..|reply|] == reply;
  }

  /**
    A reply of which the header goes out whole arrives whole or not at all, and it arrives if and only if its
    frame gets through. What does not fit the client's buffer does not arrive.
   */
  lemma FetchedExact(recvPlan: RecvPlan, sendPlan: SendPlan, pos: nat, reply: string)
    requires |reply| < INT32 && AcceptedAt(sendPlan, pos) >= 4
    ensures Fetched(recvPlan, sendPlan, pos, reply) == reply || Fetched(recvPlan, sendPlan, pos, reply) == ""
    ensures 0 < |reply| <= FILE_BUFFER ==>
              (Fetched(recvPlan, sendPlan, pos, reply) == reply <==>
                  FrameOk(recvPlan, sendPlan, pos, |reply|, FILE_BUFFER))
    ensures |reply| > FILE_BUFFER ==> Fetched(recvPlan, sendPlan, pos, reply) == ""
  {
    hide SendWire, SendRet, Decode, Header, ReceiveRun, FrameOk;
    var wire := SendWire(sendPlan, pos, reply);
    WireOfReply(sendPlan, pos, reply);
    AllOrNothing(recvPlan, pos, wire, FILE_BUFFER, FILE_BUFFER);
    if |reply| <= FILE_BUFFER {
      RoundTrip(recvPlan, sendPlan, pos, reply, FILE_BUFFER, FILE_BUFFER);
      FrameParts(reply);
    }
  }

  method SendFileRequest(up: Channel, filePath: string) returns (ret: int)
    requires NUL !in filePath && |GET + filePath| < RECEIVE_BUFFER
    requires up.unread == "" && FrameOk(up.recvPlan, up.sendPlan, up.pos, |GET + filePath|, CLAIMED_SIZE)
    modifies up
    ensures ret == 1 && up.unread == Frame(GET + filePath) && up.pos == old(up.pos)
  {
    hide SendRet, SendWire, FrameOk, Frame;
    var requestBuffer := new char[PATH_MAX](_ => NUL);
    StrCpy(requestBuffer, GET);
    StrCat(requestBuffer, filePath, GET);
    var request := TextOf(requestBuffer, 0);
    StringAtUnique(requestBuffer[..], 0, request, GET + filePath);
    StringChars(requestBuffer[..], 0, request);
    assert requestBuffer[..|request|] == GET + filePath;
    RoundTrip(up.recvPlan, up.sendPlan, up.pos, request, CLAIMED_SIZE, RECEIVE_BUFFER);
    ret := TcpMessageSend(up, requestBuffer, |request|);
  }

  /** A path whose request fits the server's buffer. */
  predicate Askable(path: seq<string>)
  {
    path != [] && IsPath(path) && |GET + FileText(path)| < RECEIVE_BUFFER
  }

  /** The file server's turn on a fresh connection: as much of the reply as the sends allow. */
  method RemoteTurn(up: Channel, down: Channel, root: seq<Node>, ghost path: seq<string>)
    requires Askable(path) && up != down && down.unread == "" && up.unread == Frame(GET + FileText(path))
    requires FrameOk(up.recvPlan, up.sendPlan, up.pos, |GET + FileText(path)|, CLAIMED_SIZE)
    modifies up, down
    ensures IsRequest(GET + FileText(path), '>')
    ensures down.unread == SendWire(down.sendPlan, old(down.pos), ServedFor(root, path)) && down.pos == old(down.pos)
  {
    hide FrameOk, SendWire, SendRet, ReceiveMessage, Frame, FileReplyTo, RequestedPath, IsRequest, FileText;
    ghost var request := GET + FileText(path);
    RoundTrip(up.recvPlan, up.sendPlan, up.pos, request, CLAIMED_SIZE, RECEIVE_BUFFER);
    FrameParts(request);
    FileRequestParses(path);
    var answered, overrun := FileServer.ServeReadySocket(up, down, root);
  }

  /** download_file. A failed connection, an empty reply and a reply that does not arrive leave everything as it is. */
  method DownloadOne(connected: bool, up: Channel, down: Channel, root: seq<Node>, fs: FileSystem, filePath: string,
                      ghost path: seq<string>) returns (overrun: bool)
    requires fs.Valid() && Askable(path) && filePath == FileText(path) && IsRequest(GET + FileText(path), '>')
    requires up != down && up.unread == "" && down.unread == ""
    requires connected ==> FrameOk(up.recvPlan, up.sendPlan, up.pos, |GET + FileText(path)|, CLAIMED_SIZE)
    modifies up, down, fs
    ensures fs.Valid()
    ensures overrun <==>
              var wire := SendWire(down.sendPlan, old(down.pos), ServedFor(root, path));
              connected && ReceiveMessage(down.recvPlan, old(down.pos), wire, FILE_BUFFER, FILE_BUFFER).Overrun?
    ensures !overrun ==>
              State(fs.dirs, fs.files) == Placed(old(State(fs.dirs, fs.files)), path,
                if connected then Fetched(down.recvPlan, down.sendPlan, old(down.pos), ServedFor(root, path)) else "")
  {
    hide FrameOk, ReceiveMessage, Frame, ServedFor, FileText, Closed, SendWire, IsRequest;
    if !connected {
      return false;
    }
    PartsOfFileText(path);
    var sendReturn := SendFileRequest(up, filePath);
    if sendReturn <= 0 {
      return false;
    }
    RemoteTurn(up, down, root, path);
    var fileBuffer := new char[FILE_BUFFER];
    var received;
    received, overrun := TcpMessageReceive(down, fileBuffer, FILE_BUFFER);
    if overrun {
      return;
    }
    if received <= 0 {
      return;
    }
    PlaceFile(fs, filePath, fileBuffer[..received], path);
  }

  // ---- all downloads ----

  /** The downloads of these contents one after the other. */
  function PlacedAll(s: State, paths: seq<seq<string>>, contents: seq<string>): State
    requires |contents| == |paths|
    decreases |paths|
  {
    if paths == [] then s else PlacedAll(Placed(s, paths[0], contents[0]), paths[1..], contents[1..])
  }

  /** What happens to one job: the tree that its peer serves, whether the connection succeeds, and its plans. */
  datatype Attempt = Attempt(root: seq<Node>, connected: bool, line: Line)

  /** If there is a connection, the request gets through, and the reply stays inside the client's buffer. */
  ghost predicate Harmless(a: Attempt, path: seq<string>)
  {
    Askable(path) && IsRequest(GET + FileText(path), '>') &&
    (a.connected ==>
      && FrameOk(a.line.upRecv, a.line.upSend, 0, |GET + FileText(path)|, CLAIMED_SIZE)
      && var wire := SendWire(a.line.downSend, 0, ServedFor(a.root, path));
         ReceiveMessage(a.line.downRecv, 0, wire, FILE_BUFFER, FILE_BUFFER).Returned?)
  }

  /** What the attempt brings, which may be nothing. */
  function Brought(a: Attempt, path: seq<string>): string
    requires IsRequest(GET + FileText(path), '>')
  {
    if a.connected then Fetched(a.line.downRecv, a.line.downSend, 0, ServedFor(a.root, path)) else ""
  }

  ghost predicate AllHarmless(attempts: seq<Attempt>, paths: seq<seq<string>>)
  {
    |attempts| == |paths| && forall i :: 0 <= i < |paths| ==> Harmless(attempts[i], paths[i])
  }

  ghost function AllBrought(attempts: seq<Attempt>, paths: seq<seq<string>>): (contents: seq<string>)
    requires AllHarmless(attempts, paths)
    ensures |contents| == |paths| && forall i :: 0 <= i < |paths| ==> contents[i] == Brought(attempts[i], paths[i])
  {
    seq(|paths|, i requires 0 <= i < |paths| && AllHarmless(attempts, paths) => Brought(attempts[i], paths[i]))
  }

  /** What the file client does with one message: other messages than download jobs are ignored. */
  method HandleJob(job: Job, attempt: Attempt, fs: FileSystem, ghost path: seq<string>)
    requires fs.Valid() && Harmless(attempt, path) && (job.DownloadFile? ==> job.filePath == FileText(path))
    modifies fs
    ensures fs.Valid()
    ensures State(fs.dirs, fs.files) ==
              if job.DownloadFile? then Placed(old(State(fs.dirs, fs.files)), path, Brought(attempt, path))
              else old(State(fs.dirs, fs.files))
  {
    hide FrameOk, FileText, Closed, Placed, ReceiveMessage, SendWire, ServedFor, IsRequest, Fetched;
    if job.DownloadFile? {
      var up := new Channel(attempt.line.upRecv, attempt.line.upSend);
      var down := new Channel(attempt.line.downRecv, attempt.line.downSend);
      var overrun := DownloadOne(attempt.connected, up, down, attempt.root, fs, job.filePath, path);
    }
  }

  /** The jobs ask for the files at these paths, in this order. */
  ghost predicate Naming(jobs: seq<Job>, paths: seq<seq<string>>)
  {
    |jobs| == |paths| && forall i :: 0 <= i < |jobs| ==> jobs[i].DownloadFile? && jobs[i].filePath == FileText(paths[i])
  }

  /**
    The drain loop of the file client: every queued download is tried, each on a connection of its own, and a
    failure stops nothing.
   */
  method Drain(queue: MessageQueue, fs: FileSystem, attempts: seq<Attempt>, ghost paths: seq<seq<string>>)
    requires queue.Valid() && fs.Valid() && fs !in queue.Repr
    requires Naming(queue.Contents(), paths) && AllHarmless(attempts, paths)
    modifies queue, fs
    ensures queue.Valid() && queue.Contents() == [] && fs.Valid()
    ensures State(fs.dirs, fs.files)
         == PlacedAll(old(State(fs.dirs, fs.files)), paths, AllBrought(attempts, paths))
  {
    hide Harmless, Closed, PlacedAll, Placed, FileText, Brought, IsRequest, AllBrought, MessageQueue.Valid,
         MessageQueue.Contents;
    ghost var start, contents := State(fs.dirs, fs.files), AllBrought(attempts, paths);
    ghost var goal := PlacedAll(start, paths, contents);
    ghost var jobs := queue.Contents();
    assert paths[0..] == paths && contents[0..] == contents && jobs[0..] == jobs;
    var message := queue.Pop();
    var k := 0;
    while message != null
      invariant queue.Valid() && fs.Valid() && fs !in queue.Repr && k <= |paths|
      invariant message == null ==> k == |paths| && queue.Contents() == []
      invariant message != null ==> k < |paths| && [message.job] + queue.Contents() == jobs[k..]
      invariant PlacedAll(State(fs.dirs, fs.files), paths[k..], contents[k..]) == goal
      decreases |paths| - k
    {
      PlacedAllStep(State(fs.dirs, fs.files), paths[k..], contents[k..]);
      assert jobs[k..] == [jobs[k]] + jobs[k + 1..];
      SameHead(message.job, queue.Contents(), jobs[k], jobs[k + 1..]);
      HandleJob(message.job, attempts[k], fs, paths[k]);
      assert paths[k..][1..] == paths[k + 1..] && contents[k..][1..] == contents[k + 1..];
      k := k + 1;
      message := queue.Pop();
    }
    PlacedAllStep(State(fs.dirs, fs.files), paths[k..], contents[k..]);
  }

  lemma SameHead<T>(a: T, more: seq<T>, b: T, others: seq<T>)
    requires [a] + more == [b] + others
    ensures a == b && more == others
  {
    assert a == ([a] + more)[0] && b == ([b] + others)[0];
    assert more == ([a] + more)[1..] && others == ([b] + others)[1..];
  }

  lemma PlacedAllStep(s: State, paths: seq<seq<string>>, contents: seq<string>)
    requires |contents| == |paths|
    ensures paths == [] ==> PlacedAll(s, paths, contents) == s
    ensures paths != [] ==>
              PlacedAll(s, paths, contents) == PlacedAll(Placed(s, paths[0], contents[0]), paths[1..], contents[1..])
  {
  }
}
