/** Directories whose names hold a space: the server reads the path of a request only up to the first one. */
module Spaces {
  import opened CommandServer
  import opened CStrings
  import opened FileSystems
  import opened Listing
  import opened Options
  import opened RemoteTree
  import opened SocketAddresses
  import opened Splitting
  import opened Synchronise
  import opened Walk

  /** The name up to its first space. */
  function FirstWord(name: string): string
    requires ' ' in name
  {
    name[..IndexOf(name, ' ')]
  }

  /** The tree without what lies below directories whose names hold a space. */
  function Pruned(nodes: seq<Node>): seq<Node>
  {
    if nodes == [] then [] else [PrunedNode(nodes[0])] + Pruned(nodes[1..])
  }

  function PrunedNode(n: Node): Node
  {
    match n
    case Dir(name, date, children) => if ' ' in name then Dir(name, date, []) else Dir(name, date, Pruned(children))
    case _ => n
  }

  /** A name with a space is cut to a name that is not that of a directory beside it. */
  predicate CutToNothing(here: seq<Node>, name: string)
  {
    ' ' in name ==> FirstWord(name) != "" && forall m :: m in here && m.Dir? ==> m.name != FirstWord(name)
  }

  /**
    Names without '<' and '>', paths and listings that fit their buffers, and directory names that are cut to
    nothing if they hold a space.
   */
  predicate Cuttable(dir: seq<string>, nodes: seq<Node>)
    decreases nodes
  {
    && |Walk.Request(dir)| < RECEIVE_BUFFER && |Reply(nodes)| < LISTING_BUFFER
    && (forall n :: n in nodes && n.Dir? ==> CutToNothing(nodes, n.name))
    && (forall n :: n in nodes ==> NodeCuttable(dir, n))
  }

  predicate NodeCuttable(dir: seq<string>, n: Node)
    decreases n
  {
    match n
    case File(name, _, _) => Clean(name) && |BASE_PATH| + |DirText(dir)| + |name| < PATH_MAX
    case Dir(name, _, children) =>
      && Clean(name)
      && if ' ' in name then |Walk.Request(dir + [name])| < RECEIVE_BUFFER else Cuttable(dir + [name], children)
    case Special(_) => true
  }

  lemma {:induction false} PrunedEntries(nodes: seq<Node>)
    ensures Entries(Pruned(nodes)) == Entries(nodes)
    ensures forall n :: n in Pruned(nodes) ==> exists m :: m in nodes && n == PrunedNode(m)
  {
    if nodes != [] {
      PrunedEntries(nodes[1..]);
      assert Pruned(nodes)[1..] == Pruned(nodes[1..]);
      forall n | n in Pruned(nodes) ensures exists m :: m in nodes && n == PrunedNode(m) {
        if n != PrunedNode(nodes[0]) {
          var m :| m in nodes[1..] && n == PrunedNode(m);
          assert m in nodes;
        } else {
          assert nodes[0] in nodes;
        }
      }
    }
  }

  /** A directory that is asked for under a name with a space: the request names something else, which is not there. */
  lemma CutRequest(root: seq<Node>, dir: seq<string>, here: seq<Node>, name: string)
    requires IsPath(dir) && ' ' !in DirText(dir) && DirAt(root, dir) == Some(here) && IsName(name) && ' ' in name
    requires CutToNothing(here, name)
    ensures Answer(root, dir + [name]) == "requested invalid directory" && Parse(Answer(root, dir + [name])) == []
  {
    hide Tokens, IsRequest, RequestedPath, ReplyTo, DirAt;
    var deep, word := dir + [name], FirstWord(name);
    var i := IndexOf(name, ' ');
    assert deep[..|deep| - 1] == dir && DirText(deep) == DirText(dir) + name + "/";
    var path := DirText(dir) + word;
    assert name == word + [' '] + name[i + 1..];
    assert DirText(deep) == path + [' '] + (name[i + 1..] + "/");
    PartsOfDirText(dir);
    assert ' ' !in word && '/' !in word by { assert forall c :: c in word ==> c in name; }
    TokensConcat(path, ' ', name[i + 1..] + "/");
    TokensOfWord(path, ' ');
    RequestParses(deep);
    PartsExtended(DirText(dir), word);
    NotBelow(root, dir, here, word);
    ErrorReply(root, path);
  }

  lemma {:induction false} NotBelow(nodes: seq<Node>, dir: seq<string>, here: seq<Node>, word: string)
    requires DirAt(nodes, dir) == Some(here) && forall m :: m in here && m.Dir? ==> m.name != word
    ensures DirAt(nodes, dir + [word]) == None
  {
    if dir == [] {
      assert (dir + [word])[0] == word;
    } else {
      assert (dir + [word])[1..] == dir[1..] + [word] && (dir + [word])[0] == dir[0];
      NotBelow(Child(nodes, dir[0]).value.children, dir[1..], here, word);
    }
  }

  /** A walk gets to see such a tree without what lies below directories with a space in their names. */
  lemma {:induction false} PrunedShows(root: seq<Node>, dir: seq<string>, here: seq<Node>)
    requires OsTree(root) && IsPath(dir) && ' ' !in DirText(dir) && DirAt(root, dir) == Some(here)
    requires Cuttable(dir, here)
    ensures Shows(root, dir, Pruned(here))
    decreases here
  {
    hide Answer, Parse, Tokens, Walk.Request;
    DirAtIsOsTree(root, dir);
    RequestAnswered(root, dir, here);
    PrunedEntries(here);
    forall e | e in Entries(here) ensures WellFormed(e) { EntriesFrom(here, e); }
    PrintParseRoundTrip(Entries(here));
    forall n | n in Pruned(here) ensures NodeShows(root, dir, n) {
      var m :| m in here && n == PrunedNode(m);
      if m.Dir? {
        PrunedChild(root, dir, here, m);
      }
    }
  }

  lemma {:induction false} PrunedChild(root: seq<Node>, dir: seq<string>, here: seq<Node>, m: Node)
    requires OsTree(root) && OsTree(here) && IsPath(dir) && ' ' !in DirText(dir) && DirAt(root, dir) == Some(here)
    requires Cuttable(dir, here) && m in here && m.Dir?
    ensures NodeShows(root, dir, PrunedNode(m))
    decreases here, 0
  {
    hide Answer, Parse, Tokens, Walk.Request;
    var deep := dir + [m.name];
    assert deep[..|deep| - 1] == dir && DirText(deep) == DirText(dir) + m.name + "/";
    if ' ' in m.name {
      CutRequest(root, dir, here, m.name);
      assert Shows(root, deep, []);
    } else {
      ChildOf(here, m);
      DirAtStep(root, dir, here, m);
      PrunedShows(root, deep, m.children);
    }
  }

  /** The walk of a directory that is cut to nothing: one request, the error text, no job, and no further request. */
  lemma SpacedDirectory(address: Address, root: seq<Node>, dir: seq<string>, here: seq<Node>, n: Node,
                        local: map<Key, string>)
    requires IsPath(dir) && ' ' !in DirText(dir) && DirAt(root, dir) == Some(here) && n.Dir? && IsName(n.name)
    requires ' ' in n.name && CutToNothing(here, n.name)
    ensures NodeRequests(dir, PrunedNode(n)) == ["GET " + DirText(dir) + n.name + "/"]
    ensures NodeReplies(root, dir, PrunedNode(n)) == ["requested invalid directory"]
    ensures NodeJobs(address, dir, PrunedNode(n), local) == []
  {
    hide Answer, IsName, Tokens, DirAt, CutToNothing, Parse, IsPath, LocalKey, DirText, Requests, Replies, WalkJobs;
    var deep := dir + [n.name];
    DirTextStep(dir, n.name);
    CutRequest(root, dir, here, n.name);
    OneRequest(address, root, deep, local);
    assert "GET " + DirText(deep) == "GET " + DirText(dir) + n.name + "/";
    assert PrunedNode(n) == Dir(n.name, n.date, []);
  }

  lemma OneRequest(address: Address, root: seq<Node>, dir: seq<string>, local: map<Key, string>)
    ensures Requests(dir, []) == ["GET " + DirText(dir)] && Replies(root, dir, []) == [Answer(root, dir)]
    ensures WalkJobs(address, dir, [], local) == []
  {
    hide Answer, DirText;
  }

  /** Some directory on the way to the path has a space in its name. */
  predicate SpacedWay(path: seq<string>)
  {
    exists i :: 0 <= i < |path| - 1 && ' ' in path[i]
  }

  lemma {:induction false} PrunedHasChild(nodes: seq<Node>, name: string)
    ensures Child(Pruned(nodes), name) == match Child(nodes, name) case Some(n) => Some(PrunedNode(n)) case None => None
  {
    if nodes != [] && nodes[0].name != name { PrunedHasChild(nodes[1..], name); }
  }

  /** The pruned tree has exactly the files to which no directory with a space in its name leads, at their paths. */
  lemma {:induction false} PrunedFiles(nodes: seq<Node>, path: seq<string>)
    ensures FileAt(Pruned(nodes), path) == if SpacedWay(path) then None else FileAt(nodes, path)
    decreases |path|
  {
    if path != [] {
      PrunedHasChild(nodes, path[0]);
      assert forall i :: 0 <= i < |path| - 1 ==> path[1..][i] == path[i + 1];
      if SpacedWay(path) && ' ' !in path[0] {
        var i :| 0 <= i < |path| - 1 && ' ' in path[i];
        assert ' ' in path[1..][i - 1];
      }
      match Child(nodes, path[0]) {
        case Some(Dir(_, _, children)) =>
          PrunedFiles(children, path[1..]);
          if |path| == 1 { assert path[1..] == []; }
        case _ => NotBelowFiles(nodes, path);
      }
    }
  }

  lemma NotBelowFiles(nodes: seq<Node>, path: seq<string>)
    requires path != [] && match Child(nodes, path[0]) case Some(n) => !n.Dir? case None => true
    ensures |path| > 1 ==> FileAt(nodes, path) == None
  {
  }

  lemma {:induction false} PrunedAt(nodes: seq<Node>)
    ensures |Pruned(nodes)| == |nodes| && forall i :: 0 <= i < |nodes| ==> Pruned(nodes)[i] == PrunedNode(nodes[i])
  {
    if nodes != [] { PrunedAt(nodes[1..]); }
  }

  lemma {:induction false} PrunedIsOsTree(nodes: seq<Node>)
    requires OsTree(nodes)
    ensures OsTree(Pruned(nodes))
  {
    hide Pruned, IsName, Clean;
    PrunedAt(nodes);
    forall i | 0 <= i < |nodes|
      ensures var n := PrunedNode(nodes[i]);
              IsName(n.name) && (!n.Special? ==> Clean(n.date) && NUL !in n.date) && (n.Dir? ==> OsTree(n.children))
    {
      assert nodes[i] in nodes;
      if nodes[i].Dir? { PrunedIsOsTree(nodes[i].children); }
    }
  }

  /**
    A walk of such a tree queues a job for every regular file without a local one, except for the files to which
    a directory with a space in its name leads.
   */
  lemma PrunedJobs(root: seq<Node>, local: map<Key, string>, path: seq<string>)
    requires OsTree(root)
    ensures path in Wanted(Pruned(root), local) <==>
              FileAt(root, path).Some? && LocalKey(path) !in local && !SpacedWay(path)
  {
    hide OsTree, FileAt, LocalKey;
    PrunedIsOsTree(root);
    PrunedFiles(root, path);
    ExactEnumeration(Pruned(root), local);
  }

  // ---- names that are cut to something ----

  /** Below a directory with a space in its path the server reads the same path out of every request. */
  lemma CutForGood(root: seq<Node>, dir: seq<string>, name: string)
    requires IsPath(dir + [name]) && ' ' in DirText(dir)
    ensures ' ' in DirText(dir + [name]) && Answer(root, dir + [name]) == Answer(root, dir)
  {
    hide Tokens, IsRequest, RequestedPath, ReplyTo;
    var deep, text := dir + [name], DirText(dir);
    assert deep[..|deep| - 1] == dir && DirText(deep) == text + name + "/";
    assert forall c :: c in dir ==> c in deep;
    RequestParses(dir);
    RequestParses(deep);
    PartsOfDirText(dir);
    var i := IndexOf(text, ' ');
    assert text == text[..i] + [' '] + text[i + 1..];
    assert DirText(deep) == text[..i] + [' '] + (text[i + 1..] + name + "/");
    TokensConcat(text[..i], ' ', text[i + 1..]);
    TokensConcat(text[..i], ' ', text[i + 1..] + name + "/");
    TokensOfWord(text[..i], ' ');
  }

  /** Buffers that are large enough, and entries with file names, for one directory. */
  predicate Fits(root: seq<Node>, dir: seq<string>)
  {
    && |Walk.Request(dir)| < RECEIVE_BUFFER && |Answer(root, dir)| < LISTING_BUFFER
    && forall e :: e in Parse(Answer(root, dir)) ==>
         IsName(e.name) && |BASE_PATH| + |DirText(dir)| + |e.name| < PATH_MAX
  }

  function FilesOf(entries: seq<Entry>): seq<Node>
  {
    if entries == [] then [] else [File(entries[0].name, entries[0].date, "")] + FilesOf(entries[1..])
  }

  lemma {:induction false} EntriesOfFiles(entries: seq<Entry>)
    requires forall e :: e in entries ==> e.kind == 'F'
    ensures Entries(FilesOf(entries)) == entries
    ensures forall n :: n in FilesOf(entries) ==> n.File? && exists e :: e in entries && e.name == n.name
  {
    if entries != [] {
      EntriesOfFiles(entries[1..]);
      assert FilesOf(entries)[1..] == FilesOf(entries[1..]);
      forall n | n in FilesOf(entries) ensures n.File? && exists e :: e in entries && e.name == n.name {
        if n == FilesOf(entries)[0] {
          assert entries[0] in entries;
        } else {
          var e :| e in entries[1..] && e.name == n.name;
          assert e in entries;
        }
      }
    }
  }

  /** With a subdirectory in the listing that comes back, the walk would have to see a tree without end. */
  lemma {:induction false} NeverEnds(root: seq<Node>, dir: seq<string>, here: seq<Node>, e: Entry)
    requires IsPath(dir) && ' ' in DirText(dir) && e in Parse(Answer(root, dir)) && e.kind == 'D'
    ensures !Shows(root, dir, here)
    decreases here
  {
    hide Answer, Parse, Walk.Request;
    if Shows(root, dir, here) {
      EntriesFrom(here, e);
      var n :| n in here && EntryFor(n, e);
      assert NodeShows(root, dir, n);
      CutForGood(root, dir, n.name);
      NeverEnds(root, dir + [n.name], n.children, e);
    }
  }

  /**
    The walk of a directory with a space in its path comes to an end if and only if the listing that the server
    answers with, which is that of another directory or none, holds no subdirectory.
   */
  lemma SpacedWalkEnds(root: seq<Node>, dir: seq<string>)
    requires IsPath(dir) && ' ' in DirText(dir) && Fits(root, dir)
    ensures (exists here :: Shows(root, dir, here)) <==> forall e :: e in Parse(Answer(root, dir)) ==> e.kind == 'F'
  {
    hide Answer, Parse, Walk.Request;
    var entries := Parse(Answer(root, dir));
    if forall e :: e in entries ==> e.kind == 'F' {
      EntriesOfFiles(entries);
      assert Shows(root, dir, FilesOf(entries));
    } else {
      var e :| e in entries && e.kind != 'F';
      ParsedAreWellFormed(Answer(root, dir));
      forall here ensures !Shows(root, dir, here) { NeverEnds(root, dir, here, e); }
    }
  }

  /** A directory whose name starts with a space is answered with the listing that it stands in, again and again. */
  lemma LeadingSpaceNeverEnds(root: seq<Node>, dir: seq<string>, here: seq<Node>, n: Node, view: seq<Node>)
    requires OsTree(root) && IsPath(dir) && ' ' !in DirText(dir) && DirAt(root, dir) == Some(here)
    requires n in here && n.Dir? && n.name != "" && n.name[0] == ' '
    requires forall m :: m in here && !m.Special? ==> '<' !in m.name && '>' !in m.name
    ensures Answer(root, dir + [n.name]) == Reply(here) && !Shows(root, dir + [n.name], view)
  {
    hide Parse, Tokens, IsRequest, RequestedPath, ReplyTo;
    DirAtIsOsTree(root, dir);
    var deep, text := dir + [n.name], DirText(dir);
    assert deep[..|deep| - 1] == dir && DirText(deep) == text + n.name + "/";
    PartsOfDirText(dir);
    RequestParses(dir);
    RequestParses(deep);
    assert DirText(deep) == text + [' '] + (n.name[1..] + "/");
    TokensConcat(text, ' ', n.name[1..] + "/");
    TokensOfWord(text, ' ');
    RequestAnswered(root, dir, here);
    ListingReadBack(here);
    EntriesMember(here, n);
    var e :| e in Entries(here) && EntryFor(n, e);
    NeverEnds(root, deep, view, e);
  }
}
