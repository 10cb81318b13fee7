/** What a recursive walk over a remote tree asks for, gets back and queues. */
module Walk {
  import opened CommandServer
  import opened Chunking
  import opened CStrings
  import opened FileSystems
  import opened Framing
  import opened Listing
  import opened MessageQueues
  import opened SocketAddresses
  import opened Options
  import opened RemoteTree
  import opened Splitting

  const PATH_MAX := 4096

  // ---- the jobs ----

  /** Where the file at a shared path lies in the local file system. */
  function LocalKey(path: seq<string>): Key { [".", "sync_files"] + path }

  /** The paths at which there is no local regular file. */
  function Missing(paths: seq<seq<string>>, local: map<Key, string>): seq<seq<string>>
  {
    if paths == [] then []
    else (if LocalKey(paths[0]) in local then [] else [paths[0]]) + Missing(paths[1..], local)
  }

  function JobsFor(address: Address, paths: seq<seq<string>>): seq<Job>
  {
    if paths == [] then [] else [DownloadFile(address, FileText(paths[0]))] + JobsFor(address, paths[1..])
  }

  lemma {:induction false} MissingConcat(a: seq<seq<string>>, b: seq<seq<string>>, local: map<Key, string>)
    ensures Missing(a + b, local) == Missing(a, local) + Missing(b, local)
  {
    if a == [] {
      assert a + b == b;
    } else {
      assert (a + b)[1..] == a[1..] + b;
      MissingConcat(a[1..], b, local);
    }
  }

  lemma {:induction false} MissingMember(paths: seq<seq<string>>, local: map<Key, string>, p: seq<string>)
    ensures p in Missing(paths, local) <==> p in paths && LocalKey(p) !in local
  {
    if paths != [] { MissingMember(paths[1..], local, p); }
  }

  lemma {:induction false} MissingOnce(paths: seq<seq<string>>, local: map<Key, string>)
    requires NoDuplicates(paths)
    ensures NoDuplicates(Missing(paths, local))
  {
    if paths != [] {
      var rest := paths[1..];
      assert forall i :: 0 <= i < |rest| ==> rest[i] == paths[i + 1];
      MissingOnce(rest, local);
      MissingMember(rest, local, paths[0]);
    }
  }

  lemma {:induction false} JobsForConcat(address: Address, a: seq<seq<string>>, b: seq<seq<string>>)
    ensures JobsFor(address, a + b) == JobsFor(address, a) + JobsFor(address, b)
  {
    if a == [] {
      assert a + b == b;
    } else {
      assert (a + b)[1..] == a[1..] + b;
      JobsForConcat(address, a[1..], b);
    }
  }

  /** The download jobs for the regular files below dir that are missing locally, in directory order, depth first. */
  function WalkJobs(address: Address, dir: seq<string>, nodes: seq<Node>, local: map<Key, string>): seq<Job>
  {
    JobsFor(address, Missing(FilePaths(dir, nodes), local))
  }

  /** The jobs that one entry of the directory dir contributes. */
  function NodeJobs(address: Address, dir: seq<string>, n: Node, local: map<Key, string>): seq<Job>
  {
    match n
    case File(name, _, _) =>
      if LocalKey(dir + [name]) in local then [] else [DownloadFile(address, FileText(dir + [name]))]
    case Dir(name, _, children) => WalkJobs(address, dir + [name], children, local)
    case Special(_) => []
  }

  /** The jobs of a directory are the jobs of its first entry followed by those of the other entries. */
  lemma WalkJobsStep(address: Address, dir: seq<string>, nodes: seq<Node>, local: map<Key, string>)
    requires nodes != []
    ensures WalkJobs(address, dir, nodes, local)
         == NodeJobs(address, dir, nodes[0], local) + WalkJobs(address, dir, nodes[1..], local)
  {
    var a, b := PathsOf(dir, nodes[0]), FilePaths(dir, nodes[1..]);
    MissingConcat(a, b, local);
    JobsForConcat(address, Missing(a, local), Missing(b, local));
    if nodes[0].File? {
      assert a == [dir + [nodes[0].name]];
      assert a[1..] == [];
      assert Missing(a, local) == if LocalKey(a[0]) in local then [] else [a[0]];
    }
  }

  // ---- the traffic ----

  function Request(dir: seq<string>): string { GET + DirText(dir) }

  /** The listing of a directory. */
  function Reply(nodes: seq<Node>): string { Print(Entries(nodes)) }

  /** What the server answers when it is asked for a directory. */
  function Answer(root: seq<Node>, dir: seq<string>): string
  {
    if IsRequest(Request(dir), ' ') then ReplyTo(root, RequestedPath(Request(dir), ' ')) else ""
  }

  /** The requests of a walk, in the order in which they are sent. */
  function Requests(dir: seq<string>, nodes: seq<Node>): seq<string>
    decreases nodes, 1
  {
    [Request(dir)] + RequestsBelow(dir, nodes)
  }

  function RequestsBelow(dir: seq<string>, nodes: seq<Node>): seq<string>
    decreases nodes, 0
  {
    if nodes == [] then []
    else NodeRequests(dir, nodes[0]) + RequestsBelow(dir, nodes[1..])
  }

  function NodeRequests(dir: seq<string>, n: Node): seq<string>
    decreases n
  {
    if n.Dir? then Requests(dir + [n.name], n.children) else []
  }

  /** The answers to them. */
  function Replies(root: seq<Node>, dir: seq<string>, nodes: seq<Node>): seq<string>
    decreases nodes, 1
  {
    [Answer(root, dir)] + RepliesBelow(root, dir, nodes)
  }

  function RepliesBelow(root: seq<Node>, dir: seq<string>, nodes: seq<Node>): seq<string>
    decreases nodes, 0
  {
    if nodes == [] then []
    else NodeReplies(root, dir, nodes[0]) + RepliesBelow(root, dir, nodes[1..])
  }

  function NodeReplies(root: seq<Node>, dir: seq<string>, n: Node): seq<string>
    decreases n
  {
    if n.Dir? then Replies(root, dir + [n.name], n.children) else []
  }

  /** A node that is neither a file nor a directory leaves no trace in the listing, the traffic or the jobs. */
  lemma SpecialLeavesNoTrace(address: Address, root: seq<Node>, dir: seq<string>, nodes: seq<Node>,
                             local: map<Key, string>)
    requires nodes != [] && nodes[0].Special?
    ensures Entries(nodes) == Entries(nodes[1..])
    ensures RequestsBelow(dir, nodes) == RequestsBelow(dir, nodes[1..])
    ensures RepliesBelow(root, dir, nodes) == RepliesBelow(root, dir, nodes[1..])
    ensures WalkJobs(address, dir, nodes, local) == WalkJobs(address, dir, nodes[1..], local)
  {
    hide WalkJobs;
    WalkJobsStep(address, dir, nodes, local);
    assert NodeJobs(address, dir, nodes[0], local) == [];
    assert NodeRequests(dir, nodes[0]) == [] && NodeReplies(root, dir, nodes[0]) == [];
  }

  predicate EntryFor(n: Node, e: Entry)
  {
    match n
    case File(name, date, _) => e == Entry('F', name, date)
    case Dir(name, date, _) => e == Entry('D', name, date)
    case Special(_) => false
  }

  /**
    Up to the first entry that the listing shows, nothing happens; from there on, that entry comes first in
    the listing, in the traffic and in the jobs.
   */
  lemma {:induction false} NextListed(address: Address, root: seq<Node>, dir: seq<string>, nodes: seq<Node>,
                                      local: map<Key, string>)
    returns (k: nat)
    requires Entries(nodes) != []
    ensures k < |nodes| && EntryFor(nodes[k], Entries(nodes)[0]) && Entries(nodes[k + 1..]) == Entries(nodes)[1..]
    ensures forall i :: 0 <= i < k ==> nodes[i].Special?
    ensures RequestsBelow(dir, nodes) == NodeRequests(dir, nodes[k]) + RequestsBelow(dir, nodes[k + 1..])
    ensures RepliesBelow(root, dir, nodes) == NodeReplies(root, dir, nodes[k]) + RepliesBelow(root, dir, nodes[k + 1..])
    ensures WalkJobs(address, dir, nodes, local)
         == NodeJobs(address, dir, nodes[k], local) + WalkJobs(address, dir, nodes[k + 1..], local)
  {
    hide WalkJobs, NodeJobs, NodeRequests, NodeReplies;
    if nodes[0].Special? {
      SpecialLeavesNoTrace(address, root, dir, nodes, local);
      k := NextListed(address, root, dir, nodes[1..], local);
      assert nodes[1..][k] == nodes[k + 1] && nodes[1..][k + 1..] == nodes[k + 2..];
      assert forall i :: 0 < i < k + 1 ==> nodes[i] == nodes[1..][i - 1];
      k := k + 1;
    } else {
      k := 0;
      WalkJobsStep(address, dir, nodes, local);
    }
  }

  lemma {:induction false} NothingListed(address: Address, root: seq<Node>, dir: seq<string>, nodes: seq<Node>,
                                         local: map<Key, string>)
    requires Entries(nodes) == []
    ensures RequestsBelow(dir, nodes) == [] && RepliesBelow(root, dir, nodes) == []
    ensures WalkJobs(address, dir, nodes, local) == []
  {
    if nodes != [] {
      SpecialLeavesNoTrace(address, root, dir, nodes, local);
      NothingListed(address, root, dir, nodes[1..], local);
    }
  }

  function FramesLength(frames: seq<string>): nat
  {
    if frames == [] then 0 else 4 + |frames[0]| + FramesLength(frames[1..])
  }

  lemma NoFrames()
    ensures FramesLength([]) == 0
  {
  }

  /** Every frame of the list gets through, when the first one starts at position pos of the stream. */
  ghost predicate FramesOk(recvPlan: RecvPlan, sendPlan: SendPlan, pos: nat, frames: seq<string>, bufferSize: nat)
    decreases frames
  {
    frames == [] ||
    (FrameOk(recvPlan, sendPlan, pos, |frames[0]|, bufferSize) &&
     FramesOk(recvPlan, sendPlan, pos + 4 + |frames[0]|, frames[1..], bufferSize))
  }

  lemma {:induction false} FramesSplit(recvPlan: RecvPlan, sendPlan: SendPlan, pos: nat, a: seq<string>, b: seq<string>,
                                       bufferSize: nat)
    ensures FramesLength(a + b) == FramesLength(a) + FramesLength(b)
    ensures FramesOk(recvPlan, sendPlan, pos, a + b, bufferSize) <==>
              FramesOk(recvPlan, sendPlan, pos, a, bufferSize) &&
              FramesOk(recvPlan, sendPlan, pos + FramesLength(a), b, bufferSize)
    decreases a
  {
    if a == [] {
      assert a + b == b;
    } else {
      assert (a + b)[1..] == a[1..] + b;
      FramesSplit(recvPlan, sendPlan, pos + 4 + |a[0]|, a[1..], b, bufferSize);
    }
  }

  // ---- what a walk gets to see ----

  /**
    The tree `here` is what the server's answers show of the directory dir, and everything fits its buffers: the
    listing that comes back for dir is read as the entries of `here`, and so on for every directory in it.
   */
  predicate Shows(root: seq<Node>, dir: seq<string>, here: seq<Node>)
    decreases here
  {
    && |Request(dir)| < RECEIVE_BUFFER && |Answer(root, dir)| < LISTING_BUFFER
    && Parse(Answer(root, dir)) == Entries(here)
    && forall n :: n in here ==> NodeShows(root, dir, n)
  }

  predicate NodeShows(root: seq<Node>, dir: seq<string>, n: Node)
    decreases n
  {
    match n
    case File(name, _, _) => IsName(name) && |BASE_PATH| + |DirText(dir)| + |name| < PATH_MAX
    case Dir(name, _, children) => IsName(name) && Shows(root, dir + [name], children)
    case Special(_) => true
  }

  /** A request for a directory can always be parsed. */
  lemma RequestParses(dir: seq<string>)
    requires IsPath(dir)
    ensures NUL !in DirText(dir) && NUL !in Request(dir) && IsRequest(Request(dir), ' ')
    ensures Tokens(DirText(dir), ' ') != [] && RequestedPath(Request(dir), ' ') == Tokens(DirText(dir), ' ')[0]
  {
    hide Tokens, IsRequest, RequestedPath, DirText;
    PartsOfDirText(dir);
    TokensNotEmpty(DirText(dir), ' ');
    GetRequest(DirText(dir), ' ');
  }

  /** An answer is a text for the client's buffer. */
  lemma AnswerIsText(root: seq<Node>, dir: seq<string>)
    requires OsTree(root) && IsPath(dir)
    ensures IsRequest(Request(dir), ' ') && Answer(root, dir) == ReplyTo(root, RequestedPath(Request(dir), ' '))
    ensures NUL !in Answer(root, dir) && NUL !in Request(dir) && NUL !in DirText(dir)
  {
    hide Tokens, IsRequest, RequestedPath, DirText, ReplyTo, Request;
    RequestParses(dir);
    NoNulInReply(root, RequestedPath(Request(dir), ' '));
  }

  // ---- directories as they are ----

  /** Names that survive the listing and the request, and paths and listings that fit their buffers. */
  predicate Walkable(dir: seq<string>, nodes: seq<Node>)
    decreases nodes
  {
    && |Request(dir)| < RECEIVE_BUFFER
    && |Reply(nodes)| < LISTING_BUFFER
    && forall n :: n in nodes ==> NodeWalkable(dir, n)
  }

  predicate NodeWalkable(dir: seq<string>, n: Node)
    decreases n
  {
    match n
    case File(name, _, _) => Clean(name) && |BASE_PATH| + |DirText(dir)| + |name| < PATH_MAX
    case Dir(name, _, children) => Clean(name) && ' ' !in name && Walkable(dir + [name], children)
    case Special(_) => true
  }

  lemma {:induction false} EntriesFrom(nodes: seq<Node>, e: Entry)
    requires e in Entries(nodes)
    ensures exists n :: n in nodes && EntryFor(n, e)
  {
    if !nodes[0].Special? && e == Entries(nodes)[0] {
      assert EntryFor(nodes[0], e);
    } else {
      EntriesFrom(nodes[1..], e);
    }
  }

  /** The server answers the request for a directory with the listing of exactly that directory. */
  lemma RequestAnswered(root: seq<Node>, dir: seq<string>, here: seq<Node>)
    requires IsPath(dir) && ' ' !in DirText(dir) && DirAt(root, dir) == Some(here)
    ensures NUL !in Request(dir) && IsRequest(Request(dir), ' ')
    ensures ReplyTo(root, RequestedPath(Request(dir), ' ')) == Reply(here) && Answer(root, dir) == Reply(here)
  {
    var text := DirText(dir);
    PartsOfDirText(dir);
    TokensOfWord(text, ' ');
    RequestUnderstood(text, ' ');
    SharedPathOf(text);
  }

  /** A walk gets to see a tree of plain names as it is. */
  lemma {:induction false} WalkableShows(root: seq<Node>, dir: seq<string>, here: seq<Node>)
    requires OsTree(root) && IsPath(dir) && ' ' !in DirText(dir) && DirAt(root, dir) == Some(here)
    requires Walkable(dir, here)
    ensures Shows(root, dir, here)
    decreases here
  {
    DirAtIsOsTree(root, dir);
    RequestAnswered(root, dir, here);
    forall e | e in Entries(here) ensures WellFormed(e) { EntriesFrom(here, e); }
    PrintParseRoundTrip(Entries(here));
    forall n | n in here ensures NodeShows(root, dir, n) {
      if n.Dir? {
        ChildOf(here, n);
        DirAtStep(root, dir, here, n);
        var deep := dir + [n.name];
        assert deep[..|deep| - 1] == dir && DirText(deep) == DirText(dir) + n.name + "/";
        WalkableShows(root, deep, n.children);
      }
    }
  }

  // ---- exactly the trees that a walk understands ----

  /** Every directory is requested under its own path, and every listing is read back as what the directory contains. */
  predicate Understood(dir: seq<string>, nodes: seq<Node>)
    decreases nodes
  {
    && IsRequest(Request(dir), ' ') && RequestedPath(Request(dir), ' ') == DirText(dir)
    && Parse(Reply(nodes)) == Entries(nodes)
    && forall n :: n in nodes && n.Dir? ==> Understood(dir + [n.name], n.children)
  }

  /** No name of a file or directory holds '<' or '>', and no name of a directory holds a space. */
  predicate PlainNames(nodes: seq<Node>)
  {
    forall n :: n in nodes && !n.Special? ==>
      '<' !in n.name && '>' !in n.name && (n.Dir? ==> ' ' !in n.name && PlainNames(n.children))
  }

  lemma {:induction false} EntriesMember(nodes: seq<Node>, n: Node)
    requires n in nodes && !n.Special?
    ensures exists e :: e in Entries(nodes) && EntryFor(n, e)
  {
    if nodes[0] != n {
      EntriesMember(nodes[1..], n);
    } else {
      assert EntryFor(n, Entries(nodes)[0]);
    }
  }

  lemma ListingReadBack(nodes: seq<Node>)
    requires OsTree(nodes)
    ensures Parse(Reply(nodes)) == Entries(nodes) <==>
              forall n :: n in nodes && !n.Special? ==> '<' !in n.name && '>' !in n.name
  {
    PrintParseRoundTrip(Entries(nodes));
    if forall n :: n in nodes && !n.Special? ==> '<' !in n.name && '>' !in n.name {
      forall e | e in Entries(nodes) ensures WellFormed(e) { EntriesFrom(nodes, e); }
    } else {
      var n :| n in nodes && !n.Special? && !('<' !in n.name && '>' !in n.name);
      EntriesMember(nodes, n);
    }
  }

  /** The listing of a directory shows its regular files as F and its subdirectories as D, with their dates. */
  lemma ListingShows(nodes: seq<Node>, name: string, date: string)
    requires OsTree(nodes) && forall n :: n in nodes && !n.Special? ==> '<' !in n.name && '>' !in n.name
    ensures Entry('F', name, date) in Parse(Reply(nodes)) <==> exists content :: File(name, date, content) in nodes
    ensures Entry('D', name, date) in Parse(Reply(nodes)) <==> exists children :: Dir(name, date, children) in nodes
  {
    hide Parse, Reply;
    ListingReadBack(nodes);
    if Entry('F', name, date) in Entries(nodes) {
      EntriesFrom(nodes, Entry('F', name, date));
      var n :| n in nodes && EntryFor(n, Entry('F', name, date));
      assert n == File(name, date, n.content);
    }
    if Entry('D', name, date) in Entries(nodes) {
      EntriesFrom(nodes, Entry('D', name, date));
      var n :| n in nodes && EntryFor(n, Entry('D', name, date));
      assert n == Dir(name, date, n.children);
    }
    if content :| File(name, date, content) in nodes { EntriesMember(nodes, File(name, date, content)); }
    if children :| Dir(name, date, children) in nodes { EntriesMember(nodes, Dir(name, date, children)); }
  }

  lemma RequestReadBack(dir: seq<string>)
    requires IsPath(dir)
    ensures IsRequest(Request(dir), ' ') && RequestedPath(Request(dir), ' ') == DirText(dir) <==> ' ' !in DirText(dir)
  {
    var text := DirText(dir);
    PartsOfDirText(dir);
    assert text == [text[0]] + text[1..];
    TokensNotEmpty(text, ' ');
    RequestUnderstood(text, ' ');
  }

  /** A walk is faithful exactly for the trees with plain names: otherwise some request or some listing is misread. */
  lemma {:induction false} FaithfulWalk(dir: seq<string>, nodes: seq<Node>)
    requires OsTree(nodes) && IsPath(dir) && ' ' !in DirText(dir)
    ensures Understood(dir, nodes) <==> PlainNames(nodes)
    decreases nodes
  {
    hide IsRequest, RequestedPath, Parse, Reply, DirText, Entries, IsName;
    RequestReadBack(dir);
    ListingReadBack(nodes);
    forall n | n in nodes && n.Dir?
      ensures Understood(dir + [n.name], n.children) <==> ' ' !in n.name && PlainNames(n.children)
    {
      DirTextStep(dir, n.name);
      RequestReadBack(dir + [n.name]);
      if ' ' !in n.name {
        FaithfulWalk(dir + [n.name], n.children);
      }
    }
  }

  /** A remote directory "a b" is asked for as "/a b/", but the server reads "/a". */
  lemma SpaceInDirectory()
    ensures DirText(["a b"]) == "/a b/"
    ensures IsRequest(Request(["a b"]), ' ') && RequestedPath(Request(["a b"]), ' ') == "/a"
    ensures !Understood([], [Dir("a b", "today", [])])
  {
    hide Tokens, IsRequest, Parse;
    CutAtSpace();
    var nodes := [Dir("a b", "today", [])];
    assert nodes[0] in nodes && [] + ["a b"] == ["a b"];
    assert !Understood(["a b"], []);
  }

  lemma CutAtSpace()
    ensures DirText(["a b"]) == "/a b/"
    ensures IsRequest(Request(["a b"]), ' ') && RequestedPath(Request(["a b"]), ' ') == "/a"
  {
    hide Tokens;
    var text, word := "/a b/", "/a";
    assert ["a b"][..0] == [];
    assert DirText(["a b"]) == text;
    assert text == word + [' '] + "b/";
    assert ' ' !in word;
    TokensConcat(word, ' ', "b/");
    TokensOfWord(word, ' ');
    GetRequest(text, ' ');
  }
}
