/** One peer's round as a whole: enumerate a remote tree, then download everything that is missing. */
module Synchronise {
  import opened Chunking
  import opened CommandServer
  import opened FileClient
  import opened FileServer
  import opened FileSystems
  import opened Framing
  import opened Listing
  import opened MessageQueues
  import opened SocketAddresses
  import opened Options
  import opened RemoteTree
  import opened Splitting
  import opened Walk

  // ---- exact enumeration ----

  /** The paths a walk of the whole tree queues. */
  function Wanted(root: seq<Node>, local: map<Key, string>): seq<seq<string>>
  {
    Missing(FilePaths([], root), local)
  }

  /** The queued paths are exactly those of the remote regular files without a local regular file, each once. */
  lemma ExactEnumeration(root: seq<Node>, local: map<Key, string>)
    requires OsTree(root)
    ensures NoDuplicates(Wanted(root, local))
    ensures forall p :: p in Wanted(root, local) <==> FileAt(root, p).Some? && LocalKey(p) !in local
  {
    FilePathsOnce([], root);
    MissingOnce(FilePaths([], root), local);
    forall p ensures p in Wanted(root, local) <==> FileAt(root, p).Some? && LocalKey(p) !in local {
      MissingMember(FilePaths([], root), local, p);
      FilePathsExact([], root, p);
      assert p[0..] == p;
      assert p[..0] == [];
    }
  }

  /** The index of the entry of that name in a directory, or the number of entries. */
  function Position(nodes: seq<Node>, name: string): (i: nat)
    ensures i <= |nodes| && (i < |nodes| ==> nodes[i].name == name) && forall k :: 0 <= k < i ==> nodes[k].name != name
  {
    if nodes == [] || nodes[0].name == name then 0
    else
      var i := 1 + Position(nodes[1..], name);
      assert forall k :: 0 < k < i ==> nodes[k] == nodes[1..][k - 1];
      i
  }

  /** p comes before q in directory order: at the first component in which they differ, p's entry stands first. */
  predicate Earlier(nodes: seq<Node>, p: seq<string>, q: seq<string>)
    decreases |p|
  {
    p != [] && q != [] &&
    if p[0] != q[0] then Position(nodes, p[0]) < Position(nodes, q[0])
    else match Child(nodes, p[0])
      case Some(Dir(_, _, children)) => Earlier(children, p[1..], q[1..])
      case _ => false
  }

  /** Of two different files of a tree exactly one is the earlier one. */
  lemma {:induction false} EarlierTotal(nodes: seq<Node>, p: seq<string>, q: seq<string>)
    requires FileAt(nodes, p).Some? && FileAt(nodes, q).Some?
    ensures Earlier(nodes, p, q) <==> p != q && !Earlier(nodes, q, p)
    decreases |p|
  {
    if p[0] == q[0] {
      match Child(nodes, p[0]) {
        case Some(Dir(_, _, children)) =>
          EarlierTotal(children, p[1..], q[1..]);
          assert p == [p[0]] + p[1..] && q == [q[0]] + q[1..];
        case Some(File(_, _, _)) =>
          assert p == [p[0]] && q == [q[0]];
        case _ =>
      }
    } else {
      var i, j := Position(nodes, p[0]), Position(nodes, q[0]);
      assert i < |nodes| && j < |nodes|;
    }
  }

  ghost predicate Ordered(nodes: seq<Node>, depth: nat, paths: seq<seq<string>>)
  {
    (forall p :: p in paths ==> |p| > depth) &&
    forall i, j :: 0 <= i < j < |paths| ==> Earlier(nodes, paths[i][depth..], paths[j][depth..])
  }

  lemma FileBelow(dir: seq<string>, node: Node, p: seq<string>)
    requires node.Dir? && OsTree(node.children) && p in FilePaths(dir + [node.name], node.children)
    ensures |p| > |dir| + 1 && p[|dir|] == node.name
  {
    var deep := dir + [node.name];
    FilePathsExact(deep, node.children, p);
    assert p[..|deep|][|dir|] == node.name;
  }

  lemma EarlierInChild(nodes: seq<Node>, node: Node, p: seq<string>, q: seq<string>)
    requires Child(nodes, node.name) == Some(node) && node.Dir? && p != [] && q != [] && p[0] == q[0] == node.name
    requires Earlier(node.children, p[1..], q[1..])
    ensures Earlier(nodes, p, q)
  {
  }

  /** The files of one entry of a directory are in order, as files of that directory. */
  lemma {:induction false} PathsOfOrdered(dir: seq<string>, node: Node, nodes: seq<Node>)
    requires Child(nodes, node.name) == Some(node) && (node.Dir? ==> OsTree(node.children))
    ensures Ordered(nodes, |dir|, PathsOf(dir, node))
    ensures forall p :: p in PathsOf(dir, node) ==> p[|dir|] == node.name
    decreases node, 0
  {
    hide OsTree, FileAt, Earlier, Child;
    if node.Dir? {
      var deep := dir + [node.name];
      var paths := FilePaths(deep, node.children);
      FilePathsOrdered(deep, node.children);
      forall p | p in paths ensures |p| > |dir| + 1 && p[|dir|] == node.name { FileBelow(dir, node, p); }
      ChildOrdered(nodes, node, |dir|, paths);
    }
  }

  lemma ChildOrdered(nodes: seq<Node>, node: Node, depth: nat, paths: seq<seq<string>>)
    requires Child(nodes, node.name) == Some(node) && node.Dir? && Ordered(node.children, depth + 1, paths)
    requires forall p :: p in paths ==> p[depth] == node.name
    ensures Ordered(nodes, depth, paths)
  {
    hide Earlier, Child;
    forall i, j | 0 <= i < j < |paths| ensures Earlier(nodes, paths[i][depth..], paths[j][depth..]) {
      assert paths[i] in paths && paths[j] in paths;
      assert paths[i][depth..][1..] == paths[i][depth + 1..] && paths[j][depth..][1..] == paths[j][depth + 1..];
      EarlierInChild(nodes, node, paths[i][depth..], paths[j][depth..]);
    }
  }

  /** The walk lists the files of a directory in directory order, depth first. */
  lemma {:induction false} FilePathsOrdered(dir: seq<string>, nodes: seq<Node>)
    requires OsTree(nodes)
    ensures Ordered(nodes, |dir|, FilePaths(dir, nodes))
    decreases nodes, 1
  {
    if nodes != [] {
      hide OsTree, FileAt, Earlier, Child;
      var first, rest := nodes[0], nodes[1..];
      RestIsOsTree(nodes);
      PathsOfOrdered(dir, first, nodes);
      FilePathsOrdered(dir, rest);
      var a, b := PathsOf(dir, first), FilePaths(dir, rest);
      forall p | p in b ensures |p| > |dir| && p[|dir|] != first.name { FileInRest(dir, nodes, p); }
      RestOrdered(nodes, |dir|, b);
      forall p, q | p in a && q in b ensures Earlier(nodes, p[|dir|..], q[|dir|..]) {
        EarlierAcross(nodes, p[|dir|..], q[|dir|..]);
      }
      OrderedConcat(nodes, |dir|, a, b);
    }
  }

  lemma OrderedConcat(nodes: seq<Node>, depth: nat, a: seq<seq<string>>, b: seq<seq<string>>)
    requires Ordered(nodes, depth, a) && Ordered(nodes, depth, b)
    requires forall p, q :: p in a && q in b ==> Earlier(nodes, p[depth..], q[depth..])
    ensures Ordered(nodes, depth, a + b)
  {
    hide Earlier;
    forall i, j | 0 <= i < j < |a + b| ensures Earlier(nodes, (a + b)[i][depth..], (a + b)[j][depth..]) {
      if i < |a| <= j { assert a[i] in a && b[j - |a|] in b; }
    }
  }

  lemma RestOrdered(nodes: seq<Node>, depth: nat, paths: seq<seq<string>>)
    requires nodes != [] && Ordered(nodes[1..], depth, paths)
    requires forall p :: p in paths ==> p[depth] != nodes[0].name
    ensures Ordered(nodes, depth, paths)
  {
    hide Earlier;
    forall i, j | 0 <= i < j < |paths| ensures Earlier(nodes, paths[i][depth..], paths[j][depth..]) {
      assert paths[i] in paths && paths[j] in paths;
      EarlierInRest(nodes, paths[i][depth..], paths[j][depth..]);
    }
  }

  lemma RestIsOsTree(nodes: seq<Node>)
    requires OsTree(nodes) && nodes != []
    ensures OsTree(nodes[1..]) && (nodes[0].Dir? ==> OsTree(nodes[0].children))
    ensures Child(nodes, nodes[0].name) == Some(nodes[0])
  {
    assert forall i :: 0 <= i < |nodes| - 1 ==> nodes[1..][i] == nodes[i + 1];
  }

  lemma FileInRest(dir: seq<string>, nodes: seq<Node>, p: seq<string>)
    requires OsTree(nodes) && nodes != [] && p in FilePaths(dir, nodes[1..])
    ensures |p| > |dir| && p[|dir|] != nodes[0].name
  {
    RestIsOsTree(nodes);
    FilePathsExact(dir, nodes[1..], p);
    assert p[|dir|..][0] == p[|dir|];
  }

  lemma EarlierAcross(nodes: seq<Node>, p: seq<string>, q: seq<string>)
    requires nodes != [] && p != [] && q != [] && p[0] == nodes[0].name && q[0] != nodes[0].name
    ensures Earlier(nodes, p, q)
  {
  }

  lemma EarlierInRest(nodes: seq<Node>, p: seq<string>, q: seq<string>)
    requires nodes != [] && Earlier(nodes[1..], p, q) && p[0] != nodes[0].name && q[0] != nodes[0].name
    ensures Earlier(nodes, p, q)
  {
  }

  lemma {:induction false} MissingOrdered(nodes: seq<Node>, paths: seq<seq<string>>, local: map<Key, string>)
    requires Ordered(nodes, 0, paths)
    ensures Ordered(nodes, 0, Missing(paths, local))
  {
    if paths != [] {
      var rest := paths[1..];
      assert forall i :: 0 <= i < |rest| ==> rest[i] == paths[i + 1];
      MissingOrdered(nodes, rest, local);
      var missing := Missing(rest, local);
      forall j | 0 <= j < |missing| ensures Earlier(nodes, paths[0][0..], missing[j][0..]) {
        MissingMember(rest, local, missing[j]);
        var k :| 0 <= k < |rest| && rest[k] == missing[j];
      }
    }
  }

  /** The jobs come in directory order, depth first, and every job names its file by its position in the tree. */
  lemma JobsInOrder(address: Address, root: seq<Node>, local: map<Key, string>)
    requires OsTree(root)
    ensures Ordered(root, 0, Wanted(root, local))
    ensures |JobsFor(address, Wanted(root, local))| == |Wanted(root, local)|
    ensures forall i :: 0 <= i < |Wanted(root, local)| ==>
              JobsFor(address, Wanted(root, local))[i] == DownloadFile(address, FileText(Wanted(root, local)[i]))
    ensures forall i :: 0 <= i < |Wanted(root, local)| ==>
              Tokens(FileText(Wanted(root, local)[i]), '/') == Wanted(root, local)[i]
  {
    FilePathsOrdered([], root);
    MissingOrdered(root, FilePaths([], root), local);
    JobAt(address, Wanted(root, local));
    ExactEnumeration(root, local);
    forall i | 0 <= i < |Wanted(root, local)|
      ensures Tokens(FileText(Wanted(root, local)[i]), '/') == Wanted(root, local)[i]
    {
      var p := Wanted(root, local)[i];
      assert p in Wanted(root, local);
      FilesHavePaths(root, p);
      PartsOfFileText(p);
    }
  }

  lemma {:induction false} JobAt(address: Address, paths: seq<seq<string>>)
    ensures |JobsFor(address, paths)| == |paths|
    ensures forall i :: 0 <= i < |paths| ==> JobsFor(address, paths)[i] == DownloadFile(address, FileText(paths[i]))
  {
    if paths != [] { JobAt(address, paths[1..]); }
  }

  lemma {:induction false} FilesHavePaths(nodes: seq<Node>, p: seq<string>)
    requires OsTree(nodes) && FileAt(nodes, p).Some?
    ensures p != [] && IsPath(p)
    decreases |p|
  {
    var c := Child(nodes, p[0]).value;
    if c.Dir? {
      FilesHavePaths(c.children, p[1..]);
      assert p == [p[0]] + p[1..];
    }
  }

  // ---- convergence ----

  /** In a tree no regular file lies below another one. */
  lemma {:induction false} FilesDoNotNest(nodes: seq<Node>, p: seq<string>, q: seq<string>)
    requires FileAt(nodes, p).Some? && FileAt(nodes, q).Some? && p <= q
    ensures p == q
    decreases |p|
  {
    assert p[0] == q[0];
    match Child(nodes, p[0]) {
      case Some(Dir(_, _, children)) =>
        assert p[1..] <= q[1..];
        FilesDoNotNest(children, p[1..], q[1..]);
        assert p == [p[0]] + p[1..] && q == [q[0]] + q[1..];
      case _ =>
    }
  }

  /** The place of a remote file is free: it is not a directory, and no regular file blocks its parent directories. */
  ghost predicate Free(s: State, path: seq<string>)
  {
    var key := LocalKey(path);
    key !in s.dirs && Unblocked(s.files, key[..|key| - 1])
  }

  /** A non-empty content is written if and only if its place is free, and nothing else changes among the files. */
  lemma PlacedExact(s: State, path: seq<string>, content: string)
    requires Closed(s.dirs, s.files) && path != []
    ensures Closed(Placed(s, path, content).dirs, Placed(s, path, content).files)
    ensures Placed(s, path, content).files ==
              if content == "" || !Free(s, path) then s.files
              else s.files[LocalKey(path) := Overwritten(Content(s, path), content)]
    ensures forall k :: k in Placed(s, path, content).dirs ==>
        k in s.dirs || k <= LocalKey(path)[..|LocalKey(path)| - 1]
    ensures s.dirs <= Placed(s, path, content).dirs
  {
    var key := LocalKey(path);
    var parent := key[..|key| - 1];
    var dirs := Grown(s.dirs, s.files, parent);
    GrownIsClosed(s.dirs, s.files, parent);
    forall k ensures k in dirs <==> k in s.dirs || (k <= parent && Unblocked(s.files, k)) {
      GrownExact(s.dirs, s.files, parent, k);
    }
    assert !(key <= parent);
    if parent in s.dirs {
      forall i | 0 < i <= |parent| ensures parent[..i] !in s.files { ClosedPrefix(s.dirs, s.files, parent, i); }
    }
    if content != "" {
      StoredIsClosed(dirs, s.files, key, content);
    }
  }

  /** What is at a shared path, or nothing. */
  function Content(s: State, path: seq<string>): string
  {
    if LocalKey(path) in s.files then s.files[LocalKey(path)] else ""
  }

  /** A file that is there already is in a free place. */
  lemma PresentIsFree(s: State, path: seq<string>)
    requires Closed(s.dirs, s.files) && LocalKey(path) in s.files
    ensures Free(s, path)
  {
    var key := LocalKey(path);
    var parent := key[..|key| - 1];
    forall i | 0 < i <= |parent| ensures parent[..i] !in s.files { ClosedPrefix(s.dirs, s.files, parent, i); }
  }

  /** The same content downloaded twice to one path leaves directories and files as the first download left them. */
  lemma PlacedTwice(s: State, path: seq<string>, content: string)
    requires Closed(s.dirs, s.files) && path != []
    ensures Placed(Placed(s, path, content), path, content) == Placed(s, path, content)
    ensures LocalKey(path) !in s.files && LocalKey(path) in Placed(s, path, content).files ==>
              Placed(Placed(s, path, content), path, content).files[LocalKey(path)] == content
  {
    hide Placed, Free, LocalKey, Closed;
    var once := Placed(s, path, content);
    PlacedExact(s, path, content);
    PlacedExact(once, path, content);
    OverwrittenExact("", content);
    OverwrittenTwice(Content(s, path), content);
    PlacedDirs(s, path, content);
    FreeUnaffected(s, path, content, path);
  }

  /**
    Different contents for one path: the later one lies over the earlier one, and it is the only one left exactly if
    it is not shorter.
   */
  lemma TwoContents(s: State, path: seq<string>, first: string, second: string)
    requires Closed(s.dirs, s.files) && path != [] && LocalKey(path) !in s.files && Free(s, path)
    requires first != "" && second != ""
    ensures var files := Placed(Placed(s, path, first), path, second).files;
            && LocalKey(path) in files && WrittenOver(first, second, files[LocalKey(path)])
            && (files[LocalKey(path)] == second <==> |first| <= |second|)
  {
    hide Placed, Free, LocalKey, Closed, WrittenOver, Overwritten;
    PlacedExact(s, path, first);
    OverwrittenExact("", first);
    PresentIsFree(Placed(s, path, first), path);
    PlacedExact(Placed(s, path, first), path, second);
    OverwrittenExact(first, second);
  }

  lemma PlacedDirs(s: State, path: seq<string>, content: string)
    requires Closed(s.dirs, s.files)
    ensures Placed(Placed(s, path, content), path, content).dirs == Placed(s, path, content).dirs
  {
    if content != "" && path != [] {
      var parent := LocalKey(path)[..|LocalKey(path)| - 1];
      var once := Placed(s, path, content);
      PlacedExact(s, path, content);
      var twice := Grown(once.dirs, once.files, parent);
      forall k ensures k in twice <==> k in once.dirs {
        GrownExact(once.dirs, once.files, parent, k);
        GrownExact(s.dirs, s.files, parent, k);
      }
      assert twice == once.dirs;
    }
  }

  /** Two shared paths that can both be files: neither lies below the other. */
  predicate Unnested(p: seq<string>, q: seq<string>) { p != [] && q != [] && !(p < q) && !(q < p) }

  /** Placing one file does not change whether the place of another one is free. */
  lemma FreeUnaffected(s: State, p: seq<string>, content: string, q: seq<string>)
    requires Closed(s.dirs, s.files) && Unnested(p, q)
    ensures Free(Placed(s, p, content), q) <==> Free(s, q)
  {
    PlacedExact(s, p, content);
    var key, other := LocalKey(p), LocalKey(q);
    var parent := other[..|other| - 1];
    if key < other { NestedKeys(p, q); }
    if other < key { NestedKeys(q, p); }
    assert other <= key[..|key| - 1] ==> other < key;
    assert forall i :: 0 < i <= |parent| ==> parent[..i] < other;
  }

  lemma NestedKeys(p: seq<string>, q: seq<string>)
    requires LocalKey(p) < LocalKey(q)
    ensures p < q
  {
    assert p == LocalKey(p)[2..] && q == LocalKey(q)[2..];
  }

  /**
    All downloads together: exactly what was brought and whose place was free at the start arrives; no other
    file changes.
   */
  ghost predicate Arrived(s: State, paths: seq<seq<string>>, contents: seq<string>, s': State)
    requires |contents| == |paths|
  {
    && (forall i :: 0 <= i < |paths| && contents[i] != "" && Free(s, paths[i]) ==>
          LocalKey(paths[i]) in s'.files && s'.files[LocalKey(paths[i])] == contents[i])
    && (forall k :: k in s.files ==> k in s'.files && s'.files[k] == s.files[k])
    && (forall k :: k in s'.files && k !in s.files ==>
          exists i :: 0 <= i < |paths| && k == LocalKey(paths[i]) && contents[i] != "" && Free(s, paths[i]))
  }

  /** No path lies below another one; a path can come more than once. */
  ghost predicate Separate(paths: seq<seq<string>>)
  {
    forall p, q :: p in paths && q in paths ==> Unnested(p, q)
  }

  /** What comes for one path comes with one content, which is also that of the local file if there is one. */
  ghost predicate Agreeing(s: State, paths: seq<seq<string>>, contents: seq<string>)
    requires |contents| == |paths|
  {
    && (forall i :: 0 <= i < |paths| && contents[i] != "" && LocalKey(paths[i]) in s.files ==>
          s.files[LocalKey(paths[i])] == contents[i])
    && (forall i, j :: 0 <= i < j < |paths| && paths[i] == paths[j] && contents[i] != "" && contents[j] != "" ==>
          contents[i] == contents[j])
  }

  lemma {:induction false} AllArrive(s: State, paths: seq<seq<string>>, contents: seq<string>)
    requires Closed(s.dirs, s.files) && Separate(paths) && |contents| == |paths| && Agreeing(s, paths, contents)
    ensures Arrived(s, paths, contents, PlacedAll(s, paths, contents))
    decreases |paths|
  {
    if paths != [] {
      var p, rest := paths[0], paths[1..];
      var s1, s' := Placed(s, p, contents[0]), PlacedAll(s, paths, contents);
      OnePlaced(s, paths, contents);
      AllArrive(s1, rest, contents[1..]);
      ArrivedStep(s, paths, contents, s1, s');
    }
  }

  /** One download out of several: the others still agree, and their places are as free as before. */
  lemma OnePlaced(s: State, paths: seq<seq<string>>, contents: seq<string>)
    requires Closed(s.dirs, s.files) && Separate(paths) && |contents| == |paths| && Agreeing(s, paths, contents)
    requires paths != []
    ensures var s1 := Placed(s, paths[0], contents[0]);
            && Closed(s1.dirs, s1.files) && Separate(paths[1..]) && Agreeing(s1, paths[1..], contents[1..])
            && s1.files == (if contents[0] != "" && Free(s, paths[0])
                            then s.files[LocalKey(paths[0]) := contents[0]] else s.files)
            && forall q :: q in paths[1..] ==> (Free(s1, q) <==> Free(s, q))
  {
    hide Placed, Closed, Free, LocalKey, Unnested, Overwritten;
    var p, content, rest, s1 := paths[0], contents[0], paths[1..], Placed(s, paths[0], contents[0]);
    assert p in paths && p != [] by { assert Unnested(p, p); NotAtTop(p, p); }
    PlacedExact(s, p, content);
    OverwrittenExact(Content(s, p), content);
    OverwrittenTwice("", content);
    assert forall i :: 0 <= i < |rest| ==> rest[i] == paths[i + 1] && contents[1..][i] == contents[i + 1];
    assert forall q :: q in rest ==> q in paths;
    forall q | q in rest ensures Free(s1, q) <==> Free(s, q) {
      FreeUnaffected(s, p, content, q);
    }
    forall i | 0 <= i < |rest| && contents[1..][i] != "" && LocalKey(rest[i]) in s1.files
      ensures s1.files[LocalKey(rest[i])] == contents[1..][i]
    {
      if LocalKey(rest[i]) == LocalKey(p) { SameKey(rest[i], p); }
    }
  }

  lemma NotAtTop(p: seq<string>, q: seq<string>)
    requires Unnested(p, q)
    ensures p != []
  {
  }

  lemma ArrivedStep(s: State, paths: seq<seq<string>>, contents: seq<string>, s1: State, s': State)
    requires paths != [] && |contents| == |paths| && Agreeing(s, paths, contents)
    requires s1.files ==
               if contents[0] != "" && Free(s, paths[0]) then s.files[LocalKey(paths[0]) := contents[0]] else s.files
    requires forall q :: q in paths[1..] ==> (Free(s1, q) <==> Free(s, q))
    requires Arrived(s1, paths[1..], contents[1..], s')
    ensures Arrived(s, paths, contents, s')
  {
    hide Free, LocalKey;
    var rest, coming := paths[1..], contents[1..];
    forall i | 0 <= i < |paths| && contents[i] != "" && Free(s, paths[i])
      ensures LocalKey(paths[i]) in s'.files && s'.files[LocalKey(paths[i])] == contents[i]
    {
      if i > 0 {
        assert rest[i - 1] == paths[i] && coming[i - 1] == contents[i] && rest[i - 1] in rest;
      } else {
        assert LocalKey(paths[0]) in s1.files;
      }
    }
    forall k | k in s'.files && k !in s.files
      ensures exists i :: 0 <= i < |paths| && k == LocalKey(paths[i]) && contents[i] != "" && Free(s, paths[i])
    {
      if k in s1.files {
        assert k == LocalKey(paths[0]);
      } else {
        var i :| 0 <= i < |rest| && k == LocalKey(rest[i]) && coming[i] != "" && Free(s1, rest[i]);
        assert rest[i] in rest && paths[i + 1] == rest[i] && contents[i + 1] == coming[i];
      }
    }
  }

  lemma SameKey(p: seq<string>, q: seq<string>)
    ensures LocalKey(p) == LocalKey(q) ==> p == q
  {
    assert p == LocalKey(p)[2..] && q == LocalKey(q)[2..];
  }

  /** The downloads for some path of the list bring something. */
  ghost predicate Comes(p: seq<string>, paths: seq<seq<string>>, contents: seq<string>)
    requires |contents| == |paths|
  {
    exists i :: 0 <= i < |paths| && paths[i] == p && contents[i] != ""
  }

  /**
    After a drain of jobs for missing files, from any number of peers, in which each download brings something or
    nothing: the file is present if and only if one of its downloads brought something and its place was free, and
    then it is that; every file that was local is unchanged, and no other file has appeared.
   */
  lemma Converges(s: State, paths: seq<seq<string>>, contents: seq<string>)
    requires Closed(s.dirs, s.files) && Separate(paths) && |contents| == |paths| && Agreeing(s, paths, contents)
    requires forall p :: p in paths ==> LocalKey(p) !in s.files
    ensures var s' := PlacedAll(s, paths, contents);
            && (forall p :: p in paths ==> (LocalKey(p) in s'.files <==> Comes(p, paths, contents) && Free(s, p)))
            && (forall i :: 0 <= i < |paths| && contents[i] != "" && LocalKey(paths[i]) in s'.files ==>
                  s'.files[LocalKey(paths[i])] == contents[i])
            && (forall k :: k in s.files ==> k in s'.files && s'.files[k] == s.files[k])
            && (forall k :: k in s'.files && k !in s.files ==> exists p :: p in paths && k == LocalKey(p))
  {
    hide Free, Placed, PlacedAll, LocalKey, Closed, Unnested;
    AllArrive(s, paths, contents);
    var s' := PlacedAll(s, paths, contents);
    forall p | p in paths ensures LocalKey(p) in s'.files <==> Comes(p, paths, contents) && Free(s, p) {
      if LocalKey(p) in s'.files {
        var j :| 0 <= j < |paths| && LocalKey(p) == LocalKey(paths[j]) && contents[j] != "" && Free(s, paths[j]);
        SameKey(p, paths[j]);
      }
    }
    forall i | 0 <= i < |paths| && contents[i] != "" && LocalKey(paths[i]) in s'.files
      ensures s'.files[LocalKey(paths[i])] == contents[i]
    {
      assert paths[i] in paths;
    }
    forall k | k in s'.files && k !in s.files ensures exists p :: p in paths && k == LocalKey(p) {
      var i :| 0 <= i < |paths| && k == LocalKey(paths[i]) && contents[i] != "" && Free(s, paths[i]);
      assert paths[i] in paths;
    }
  }

  /** The missing files of one tree: they lie apart, and each is asked for once. */
  lemma WantedAgree(root: seq<Node>, s: State, contents: seq<string>)
    requires OsTree(root) && |contents| == |Wanted(root, s.files)|
    ensures var paths := Wanted(root, s.files);
            && Separate(paths) && Agreeing(s, paths, contents)
            && (forall p :: p in paths ==> LocalKey(p) !in s.files)
            && (forall i :: 0 <= i < |paths| ==> (Comes(paths[i], paths, contents) <==> contents[i] != ""))
  {
    hide LocalKey, FileAt;
    var paths := Wanted(root, s.files);
    ExactEnumeration(root, s.files);
    forall p, q | p in paths && q in paths ensures Unnested(p, q) {
      FilesAreSomewhere(root, p);
      FilesAreSomewhere(root, q);
      if p < q { FilesDoNotNest(root, p, q); }
      if q < p { FilesDoNotNest(root, q, p); }
    }
    assert forall i :: 0 <= i < |paths| ==> paths[i] in paths;
  }

  lemma FilesAreSomewhere(root: seq<Node>, p: seq<string>)
    ensures FileAt(root, p).Some? ==> p != []
  {
  }

  /**
    A download of a file whose name holds no '>' brings the content of the remote file, or nothing, if the header
    of the reply goes out whole; and the content if and only if there is a connection on which it gets through.
   */
  lemma BroughtWhole(a: Attempt, path: seq<string>)
    requires Harmless(a, path) && '>' !in FileText(path) && AcceptedAt(a.line.downSend, 0) >= 4
    requires |ContentAt(a.root, path)| < INT32
    ensures var content := ContentAt(a.root, path);
            && (Brought(a, path) == content || Brought(a, path) == "")
            && (0 < |content| <= FILE_BUFFER ==>
                  (Brought(a, path) == content <==>
                     a.connected && FrameOk(a.line.downRecv, a.line.downSend, 0, |content|, FILE_BUFFER)))
  {
    hide ContentAt, ServedFor, Fetched, FrameOk, IsRequest, FileText;
    FileRequestAnswered(a.root, path);
    FetchedExact(a.line.downRecv, a.line.downSend, 0, ContentAt(a.root, path));
  }

  // ---- walk and drain at the same time ----

  /**
    Between the two threads: the paths whose test is still to come, the jobs in the queue, what the next downloads
    bring, and the local files.
   */
  datatype Threads = Threads(untested: seq<seq<string>>, queued: seq<seq<string>>, coming: seq<string>, local: State)

  /** One path is tested and its job is queued if there is no local file; or the oldest job is taken and carried out. */
  datatype Action = Test | Download

  predicate CanAct(t: Threads, a: Action)
  {
    match a
    case Test => t.untested != []
    case Download => t.queued != [] && t.coming != []
  }

  function Acted(t: Threads, a: Action): Threads
    requires CanAct(t, a)
  {
    match a
    case Test =>
      var p := t.untested[0];
      t.(untested := t.untested[1..], queued := if LocalKey(p) in t.local.files then t.queued else t.queued + [p])
    case Download =>
      t.(queued := t.queued[1..], coming := t.coming[1..], local := Placed(t.local, t.queued[0], t.coming[0]))
  }

  predicate IsSchedule(t: Threads, actions: seq<Action>)
    decreases |actions|
  {
    actions == [] || (CanAct(t, actions[0]) && IsSchedule(Acted(t, actions[0]), actions[1..]))
  }

  function AllActed(t: Threads, actions: seq<Action>): Threads
    requires IsSchedule(t, actions)
    decreases |actions|
  {
    if actions == [] then t else AllActed(Acted(t, actions[0]), actions[1..])
  }

  /** What is queued and what is still to be found are the files still to be placed. */
  ghost predicate OnePass(root: seq<Node>, t: Threads)
  {
    && Closed(t.local.dirs, t.local.files) && NoDuplicates(t.queued + t.untested)
    && (forall p :: p in t.queued + t.untested ==> FileAt(root, p).Some?)
    && (forall p :: p in t.queued ==> LocalKey(p) !in t.local.files)
    && |t.coming| == |t.queued + Missing(t.untested, t.local.files)|
  }

  /** Where all downloads lead from here on. */
  function Outcome(t: Threads): State
    requires |t.coming| == |t.queued + Missing(t.untested, t.local.files)|
  {
    PlacedAll(t.local, t.queued + Missing(t.untested, t.local.files), t.coming)
  }

  /** A bound on the steps that are still to come. */
  function Remaining(t: Threads): nat { 2 * |t.untested| + |t.queued| }

  lemma TestKeeps(root: seq<Node>, t: Threads)
    requires OnePass(root, t) && t.untested != []
    ensures OnePass(root, Acted(t, Test)) && Outcome(Acted(t, Test)) == Outcome(t)
  {
    hide Placed, PlacedAll, FileAt, LocalKey, Closed;
    var p, rest, t' := t.untested[0], t.untested[1..], Acted(t, Test);
    var all, later := t.queued + t.untested, t'.queued + t'.untested;
    assert t.queued + Missing(t.untested, t.local.files) == t'.queued + Missing(rest, t.local.files);
    assert t.untested == [p] + rest;
    if LocalKey(p) in t.local.files {
      assert forall i :: 0 <= i < |later| ==> later[i] == all[if i < |t.queued| then i else i + 1];
    } else {
      assert later == all;
      assert forall q :: q in t'.queued ==> q in t.queued || q == p;
    }
    forall q | q in later ensures q in all {
      var i :| 0 <= i < |later| && later[i] == q;
      assert q == all[if later == all || i < |t.queued| then i else i + 1];
    }
  }

  lemma {:induction false} MissingSame(paths: seq<seq<string>>, a: map<Key, string>, b: map<Key, string>)
    requires forall p :: p in paths ==> (LocalKey(p) in a <==> LocalKey(p) in b)
    ensures Missing(paths, a) == Missing(paths, b)
  {
    if paths != [] { MissingSame(paths[1..], a, b); }
  }

  /** A download changes nothing for the other paths. */
  lemma OthersSame(root: seq<Node>, s: State, paths: seq<seq<string>>, content: string)
    requires Closed(s.dirs, s.files) && NoDuplicates(paths) && paths != []
    requires FileAt(root, paths[0]).Some? && LocalKey(paths[0]) !in s.files
    ensures var s' := Placed(s, paths[0], content);
            && Closed(s'.dirs, s'.files)
            && forall p :: p in paths[1..] ==> (LocalKey(p) in s'.files <==> LocalKey(p) in s.files)
  {
    hide Placed, FileAt, LocalKey, Closed, Free;
    FilesAreSomewhere(root, paths[0]);
    PlacedExact(s, paths[0], content);
    OverwrittenExact("", content);
    forall p | p in paths[1..] ensures LocalKey(p) in Placed(s, paths[0], content).files <==> LocalKey(p) in s.files {
      var i :| 0 <= i < |paths| - 1 && paths[1..][i] == p;
      assert paths[i + 1] == p;
      SameKey(p, paths[0]);
    }
  }

  lemma DownloadKeeps(root: seq<Node>, t: Threads)
    requires OnePass(root, t) && t.queued != [] && t.coming != []
    ensures OnePass(root, Acted(t, Download)) && Outcome(Acted(t, Download)) == Outcome(t)
  {
    hide Placed, FileAt, LocalKey, Closed, Missing, PlacedAll;
    var t', all := Acted(t, Download), t.queued + t.untested;
    var missing := Missing(t.untested, t.local.files);
    assert t.queued[0] in t.queued && t.queued[0] in all && all[1..] == t'.queued + t.untested;
    OthersSame(root, t.local, all, t.coming[0]);
    assert forall i :: 0 <= i < |all| - 1 ==> all[1..][i] == all[i + 1];
    assert forall p :: p in t'.queued ==> p in t.queued;
    MissingSame(t.untested, t.local.files, t'.local.files);
    assert (t.queued + missing)[0] == t.queued[0] && (t.queued + missing)[1..] == t'.queued + missing;
    PlacedAllStep(t.local, t.queued + missing, t.coming);
  }

  /**
    The command client and the file client run at the same time on the same queue and the same files: in every
    interleaving that has come to its end, the local files are those of a drain that starts after the walk, and
    every interleaving comes to its end.
   */
  lemma {:induction false} ConcurrentDrain(root: seq<Node>, t: Threads, actions: seq<Action>)
    requires OnePass(root, t) && IsSchedule(t, actions)
    ensures OnePass(root, AllActed(t, actions)) && Outcome(AllActed(t, actions)) == Outcome(t)
    ensures |actions| + Remaining(AllActed(t, actions)) <= Remaining(t)
    ensures var end := AllActed(t, actions);
            (end.untested == [] && end.queued == []) || CanAct(end, Test) || CanAct(end, Download)
    decreases |actions|
  {
    hide OnePass, Outcome, Acted, CanAct, Remaining;
    SomethingToDo(root, t);
    if actions != [] {
      CanActMeans(t, actions[0]);
      match actions[0] {
        case Test => TestKeeps(root, t);
        case Download => DownloadKeeps(root, t);
      }
      ConcurrentDrain(root, Acted(t, actions[0]), actions[1..]);
    }
  }

  lemma CanActMeans(t: Threads, a: Action)
    requires CanAct(t, a)
    ensures match a case Test => t.untested != [] case Download => t.queued != [] && t.coming != []
    ensures Remaining(Acted(t, a)) < Remaining(t)
  {
  }

  lemma SomethingToDo(root: seq<Node>, t: Threads)
    requires OnePass(root, t)
    ensures (t.untested == [] && t.queued == []) || CanAct(t, Test) || CanAct(t, Download)
  {
  }

  /** The two threads on all files of a remote tree, from the start of the walk to the end of the last download. */
  lemma ConvergesConcurrently(root: seq<Node>, s: State, contents: seq<string>, actions: seq<Action>)
    requires OsTree(root) && Closed(s.dirs, s.files) && |contents| == |Wanted(root, s.files)|
    requires var t := Threads(FilePaths([], root), [], contents, s);
             IsSchedule(t, actions) && AllActed(t, actions).untested == [] && AllActed(t, actions).queued == []
    ensures AllActed(Threads(FilePaths([], root), [], contents, s), actions).local
         == PlacedAll(s, Wanted(root, s.files), contents)
  {
    hide Placed, FileAt, Closed;
    var paths := FilePaths([], root);
    var t := Threads(paths, [], contents, s);
    FilePathsOnce([], root);
    forall p | p in paths ensures FileAt(root, p).Some? {
      FilePathsExact([], root, p);
      assert p[0..] == p;
    }
    assert [] + paths == paths && [] + Missing(paths, s.files) == Missing(paths, s.files);
    ConcurrentDrain(root, t, actions);
    assert AllActed(t, actions).coming == [];
  }

  // ---- what a walk of plain names queues ----

  /**
    The jobs are one for each regular file of the tree without a local regular file, in directory order, depth
    first, and nothing else.
   */
  ghost predicate Enumerated(jobs: seq<Job>, address: Address, root: seq<Node>, local: map<Key, string>)
  {
    && (forall p :: p != [] && IsPath(p) ==>
          (DownloadFile(address, FileText(p)) in jobs <==> FileAt(root, p).Some? && LocalKey(p) !in local))
    && (forall job :: job in jobs ==>
          job == DownloadFile(address, FileText(Parts(job))) && Parts(job) != [] && IsPath(Parts(job)))
    && (forall i, j :: 0 <= i < j < |jobs| ==> jobs[i] != jobs[j] && Earlier(root, Parts(jobs[i]), Parts(jobs[j])))
  }

  /** The components of the path that a job asks for. */
  function Parts(job: Job): seq<string>
  {
    if job.DownloadFile? then Tokens(job.filePath, '/') else []
  }

  lemma WantedEnumerated(address: Address, root: seq<Node>, local: map<Key, string>)
    requires OsTree(root)
    ensures Enumerated(JobsFor(address, Wanted(root, local)), address, root, local)
  {
    hide Tokens, FileText, JobsFor, LocalKey, FileAt, Wanted, OsTree, Parts;
    var paths := Wanted(root, local);
    ExactEnumeration(root, local);
    JobsInOrder(address, root, local);
    forall p | p in paths ensures IsPath(p) && p != [] { FilesHavePaths(root, p); }
    JobsAreFor(address, paths);
    JobsOfPaths(address, paths);
    forall i, j | 0 <= i < j < |paths| ensures Earlier(root, paths[i], paths[j]) {
      assert paths[i][0..] == paths[i] && paths[j][0..] == paths[j];
      assert Earlier(root, paths[i][0..], paths[j][0..]);
    }
  }

  lemma JobsAreFor(address: Address, paths: seq<seq<string>>)
    requires forall p :: p in paths ==> IsPath(p) && p != []
    ensures |JobsFor(address, paths)| == |paths|
    ensures forall i :: 0 <= i < |paths| ==>
              JobsFor(address, paths)[i] == DownloadFile(address, FileText(paths[i])) &&
              Parts(JobsFor(address, paths)[i]) == paths[i]
    ensures forall job :: job in JobsFor(address, paths) ==>
              job == DownloadFile(address, FileText(Parts(job))) && Parts(job) in paths
  {
    hide Tokens, FileText;
    JobAt(address, paths);
    forall i | 0 <= i < |paths| ensures Parts(JobsFor(address, paths)[i]) == paths[i] {
      assert paths[i] in paths;
      PartsOfFileText(paths[i]);
    }
  }

  lemma JobsOfPaths(address: Address, paths: seq<seq<string>>)
    requires forall p :: p in paths ==> IsPath(p) && p != []
    ensures forall p :: p != [] && IsPath(p) ==>
              (DownloadFile(address, FileText(p)) in JobsFor(address, paths) <==> p in paths)
  {
    hide Tokens, FileText;
    JobsAreFor(address, paths);
    var jobs := JobsFor(address, paths);
    forall p | p != [] && IsPath(p) ensures DownloadFile(address, FileText(p)) in jobs <==> p in paths {
      PartsOfFileText(p);
      if p in paths {
        var i :| 0 <= i < |paths| && paths[i] == p;
        assert jobs[i] in jobs;
      }
    }
  }

  /** Where all names are plain, what a walk gets to see has the files of the tree, in the same order. */
  lemma {:induction false} PlainView(root: seq<Node>, dir: seq<string>, here: seq<Node>, view: seq<Node>)
    requires OsTree(root) && IsPath(dir) && ' ' !in DirText(dir) && DirAt(root, dir) == Some(here) && PlainNames(here)
    requires Shows(root, dir, view)
    ensures FilePaths(dir, view) == FilePaths(dir, here)
    decreases view, here, 1
  {
    hide Answer, Parse, Tokens, Request;
    DirAtIsOsTree(root, dir);
    RequestAnswered(root, dir, here);
    ListingReadBack(here);
    forall n | n in here ensures Child(here, n.name) == Some(n) { ChildOf(here, n); }
    SameEntries(root, dir, here, here, view);
  }

  /** Two directories with the same entries: they have the same files, as far as the subdirectories do. */
  lemma {:induction false} SameEntries(root: seq<Node>, dir: seq<string>, all: seq<Node>, here: seq<Node>,
                                       view: seq<Node>)
    requires OsTree(root) && IsPath(dir) && ' ' !in DirText(dir) && DirAt(root, dir) == Some(all)
    requires forall n :: n in here ==> Child(all, n.name) == Some(n)
    requires PlainNames(here) && Entries(here) == Entries(view) && forall n :: n in view ==> NodeShows(root, dir, n)
    ensures FilePaths(dir, view) == FilePaths(dir, here)
    decreases view, here, 0
  {
    hide Tokens, Shows, OsTree, DirAt, DirText;
    if view != [] && view[0].Special? {
      SameEntries(root, dir, all, here, view[1..]);
    } else if here != [] && here[0].Special? {
      SameEntries(root, dir, all, here[1..], view);
    } else if view != [] {
      var n, m := here[0], view[0];
      assert m in view && NodeShows(root, dir, m);
      assert Entries(here)[0] == Entries(view)[0] && Entries(here)[1..] == Entries(view)[1..];
      SameEntries(root, dir, all, here[1..], view[1..]);
      if m.Dir? {
        SameChild(root, dir, all, n);
        PlainView(root, dir + [n.name], n.children, m.children);
      }
    }
  }

  lemma SameChild(root: seq<Node>, dir: seq<string>, all: seq<Node>, n: Node)
    requires IsPath(dir) && ' ' !in DirText(dir) && DirAt(root, dir) == Some(all) && Child(all, n.name) == Some(n)
    requires n.Dir? && ' ' !in n.name
    ensures DirAt(root, dir + [n.name]) == Some(n.children) && ' ' !in DirText(dir + [n.name])
  {
    var deep := dir + [n.name];
    assert deep[..|deep| - 1] == dir;
    assert DirText(deep) == DirText(dir) + n.name + "/";
    DirAtStep(root, dir, all, n);
  }
}
