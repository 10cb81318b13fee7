/** The shared directory of a peer as a finite tree, and the paths in it. */
module RemoteTree {
  import opened CStrings
  import opened Listing
  import opened Options
  import opened Splitting

  const BASE_PATH := "./sync_files"

  /** A directory entry: a regular file, a directory, or anything else (a link, a socket, a device). */
  datatype Node =
    | File(name: string, date: string, content: string)
    | Dir(name: string, date: string, children: seq<Node>)
    | Special(name: string)

  function Child(nodes: seq<Node>, name: string): (c: Option<Node>)
    ensures c.Some? ==> c.value in nodes && c.value.name == name
    ensures c.None? ==> forall n :: n in nodes ==> n.name != name
  {
    if nodes == [] then None
    else if nodes[0].name == name then Some(nodes[0])
    else Child(nodes[1..], name)
  }

  /** The directory that the components of a path lead to. */
  function DirAt(nodes: seq<Node>, path: seq<string>): Option<seq<Node>>
  {
    if path == [] then Some(nodes)
    else match Child(nodes, path[0])
      case Some(Dir(_, _, children)) => DirAt(children, path[1..])
      case _ => None
  }

  /** The content of the regular file that the components of a path lead to. */
  function FileAt(nodes: seq<Node>, path: seq<string>): Option<string>
  {
    if path == [] then None
    else match Child(nodes, path[0])
      case Some(Dir(_, _, children)) => FileAt(children, path[1..])
      case Some(File(_, _, content)) => if |path| == 1 then Some(content) else None
      case _ => None
  }

  /** The components below the shared directory that a local path of the server names, if it lies there. */
  function SharedPath(localPath: string): Option<seq<string>>
  {
    var parts := Tokens(localPath, '/');
    if |parts| >= 2 && parts[0] == "." && parts[1] == "sync_files" then Some(parts[2..]) else None
  }

  // ---- what a file system guarantees about names ----

  predicate IsName(s: string)
  {
    s != "" && s != "." && s != ".." && '/' !in s && NUL !in s
  }

  predicate Distinct(nodes: seq<Node>)
  {
    forall i, j :: 0 <= i < j < |nodes| ==> nodes[i].name != nodes[j].name
  }

  /** Names are file names, siblings differ, and dates are what strftime prints. */
  predicate OsTree(nodes: seq<Node>)
  {
    && Distinct(nodes)
    && forall n :: n in nodes ==>
      && IsName(n.name)
      && (!n.Special? ==> Clean(n.date) && NUL !in n.date)
      && (n.Dir? ==> OsTree(n.children))
  }

  lemma {:induction false} ChildOf(nodes: seq<Node>, n: Node)
    requires Distinct(nodes) && n in nodes
    ensures Child(nodes, n.name) == Some(n)
  {
    if nodes[0] != n {
      assert n in nodes[1..];
      assert Distinct(nodes[1..]) by {
        assert forall i :: 0 <= i < |nodes| - 1 ==> nodes[1..][i] == nodes[i + 1];
      }
      ChildOf(nodes[1..], n);
    }
  }

  lemma {:induction false} DirAtStep(nodes: seq<Node>, path: seq<string>, here: seq<Node>, d: Node)
    requires DirAt(nodes, path) == Some(here) && d.Dir? && Child(here, d.name) == Some(d)
    ensures DirAt(nodes, path + [d.name]) == Some(d.children)
  {
    if path == [] {
      assert (path + [d.name])[1..] == [];
    } else {
      assert (path + [d.name])[1..] == path[1..] + [d.name];
      DirAtStep(Child(nodes, path[0]).value.children, path[1..], here, d);
    }
  }

  lemma {:induction false} FileAtStep(nodes: seq<Node>, path: seq<string>, here: seq<Node>, f: Node)
    requires DirAt(nodes, path) == Some(here) && f.File? && Child(here, f.name) == Some(f)
    ensures FileAt(nodes, path + [f.name]) == Some(f.content)
  {
    if path == [] {
      assert (path + [f.name])[0] == f.name;
    } else {
      assert (path + [f.name])[1..] == path[1..] + [f.name];
      FileAtStep(Child(nodes, path[0]).value.children, path[1..], here, f);
    }
  }

  lemma {:induction false} DirAtIsOsTree(nodes: seq<Node>, path: seq<string>)
    requires OsTree(nodes)
    ensures match DirAt(nodes, path) case Some(here) => OsTree(here) case None => true
  {
    if path != [] {
      match Child(nodes, path[0]) {
        case Some(Dir(_, _, children)) => DirAtIsOsTree(children, path[1..]);
        case _ =>
      }
    }
  }

  // ---- path texts ----

  predicate IsPath(path: seq<string>) { forall c :: c in path ==> IsName(c) }

  /** The text of a directory path as the client builds it: "/", then every component followed by a slash. */
  function DirText(path: seq<string>): string
  {
    if path == [] then "/" else DirText(path[..|path| - 1]) + path[|path| - 1] + "/"
  }

  /** The text of a file path: the text of its directory, then its name. */
  function FileText(path: seq<string>): string
  {
    if path == [] then "" else DirText(path[..|path| - 1]) + path[|path| - 1]
  }

  lemma DirTextStep(dir: seq<string>, name: string)
    ensures DirText(dir + [name]) == DirText(dir) + name + "/"
  {
    var deep := dir + [name];
    assert deep[..|deep| - 1] == dir;
  }

  /** A name behind a text that ends in a slash is one more component, with or without a slash behind it. */
  lemma PartsExtended(text: string, name: string)
    requires text != "" && text[|text| - 1] == '/' && name != "" && '/' !in name
    ensures Tokens(text + name, '/') == Tokens(text, '/') + [name]
    ensures Tokens(text + name + "/", '/') == Tokens(text, '/') + [name]
  {
    var front := text[..|text| - 1];
    assert text == front + ['/'] + "";
    TokensConcat(front, '/', "");
    TokensOfEmpty('/');
    TokensOfWord(name, '/');
    assert text + name == front + ['/'] + name;
    TokensConcat(front, '/', name);
    assert text + name + "/" == (text + name) + ['/'] + "";
    TokensConcat(text + name, '/', "");
  }

  lemma {:induction false} PartsOfDirText(path: seq<string>)
    requires IsPath(path)
    ensures DirText(path) != "" && DirText(path)[0] == '/' && DirText(path)[|DirText(path)| - 1] == '/'
    ensures Tokens(DirText(path), '/') == path && NUL !in DirText(path)
  {
    if path == [] {
      TokensOfDelimiters("/", '/');
    } else {
      var front, name := path[..|path| - 1], path[|path| - 1];
      assert name in path;
      PartsOfDirText(front);
      PartsExtended(DirText(front), name);
      assert path == front + [name];
    }
  }

  lemma PartsOfFileText(path: seq<string>)
    requires IsPath(path) && path != []
    ensures FileText(path) != "" && FileText(path)[0] == '/'
    ensures Tokens(FileText(path), '/') == path && NUL !in FileText(path)
  {
    var front, name := path[..|path| - 1], path[|path| - 1];
    assert name in path;
    PartsOfDirText(front);
    PartsExtended(DirText(front), name);
    assert path == front + [name];
  }

  lemma PartsOfTwo(a: string, b: string)
    requires a != "" && '/' !in a && b != "" && '/' !in b
    ensures Tokens(a + ['/'] + b, '/') == [a, b]
  {
    TokensConcat(a, '/', b);
    TokensOfWord(a, '/');
    TokensOfWord(b, '/');
  }

  lemma PartsBehind(base: string, text: string)
    requires text != "" && text[0] == '/'
    ensures Tokens(base + text, '/') == Tokens(base, '/') + Tokens(text, '/')
  {
    var rest := text[1..];
    assert text == ['/'] + rest;
    TokensSkip('/', rest);
    assert base + text == base + ['/'] + rest;
    TokensConcat(base, '/', rest);
  }

  /** A path that starts with a slash, put behind BASE_PATH, names the same components in the shared directory. */
  lemma SharedPathOf(text: string)
    requires text != "" && text[0] == '/'
    ensures Tokens(BASE_PATH + text, '/') == [".", "sync_files"] + Tokens(text, '/')
    ensures SharedPath(BASE_PATH + text) == Some(Tokens(text, '/'))
  {
    hide Tokens;
    BaseParts();
    PartsBehind(BASE_PATH, text);
    var parts := Tokens(text, '/');
    assert ([".", "sync_files"] + parts)[2..] == parts;
  }

  lemma BaseParts()
    ensures Tokens(BASE_PATH, '/') == [".", "sync_files"]
  {
    hide Tokens;
    var dot, folder := ".", "sync_files";
    PartsOfTwo(dot, folder);
    assert BASE_PATH == dot + ['/'] + folder;
  }

  /** A path that does not start with a slash, put behind BASE_PATH, lies beside the shared directory. */
  lemma OutsideShare(text: string)
    requires text != "" && text[0] != '/'
    ensures SharedPath(BASE_PATH + text) == None
  {
    hide Tokens;
    var beside := "sync_files" + text;
    assert BASE_PATH + text == "." + ['/'] + beside;
    TokensConcat(".", '/', beside);
    TokensOfWord(".", '/');
    FirstComponent(beside, |"sync_files"|);
    assert Tokens(beside, '/')[0] != "sync_files";
  }

  /** The first component of a text is at least as long as any front of it without a slash. */
  lemma FirstComponent(text: string, n: nat)
    requires n < |text| && '/' !in text[..n + 1]
    ensures Tokens(text, '/') != [] && |Tokens(text, '/')[0]| > n
  {
    hide Tokens;
    if '/' in text {
      var i := IndexOf(text, '/');
      assert forall k :: 0 <= k <= n ==> text[k] == text[..n + 1][k] && text[..n + 1][k] in text[..n + 1];
      assert text == text[..i] + ['/'] + text[i + 1..];
      TokensConcat(text[..i], '/', text[i + 1..]);
      TokensOfWord(text[..i], '/');
    } else {
      TokensOfWord(text, '/');
    }
  }

  // ---- all regular files of a tree ----

  /** The paths of all regular files below the directory `dir`, depth first, in directory order. */
  function FilePaths(dir: seq<string>, nodes: seq<Node>): seq<seq<string>>
    decreases nodes
  {
    if nodes == [] then []
    else PathsOf(dir, nodes[0]) + FilePaths(dir, nodes[1..])
  }

  function PathsOf(dir: seq<string>, node: Node): seq<seq<string>>
    decreases node
  {
    match node
    case File(name, _, _) => [dir + [name]]
    case Dir(name, _, children) => FilePaths(dir + [name], children)
    case Special(_) => []
  }

  function Below(dir: seq<string>, path: seq<string>): bool
  {
    |path| > |dir| && path[..|dir|] == dir
  }

  lemma {:induction false} PathsOfExact(dir: seq<string>, node: Node, path: seq<string>)
    requires node.Dir? ==> OsTree(node.children)
    ensures path in PathsOf(dir, node) <==> Below(dir, path) && FileAt([node], path[|dir|..]).Some?
    decreases node, 0
  {
    if node.Dir? {
      var deep := dir + [node.name];
      FilePathsExact(deep, node.children, path);
      if Below(dir, path) {
        assert Below(deep, path) <==> |path| > |deep| && path[|dir|] == node.name by {
          assert path[..|dir| + 1] == path[..|dir|] + [path[|dir|]];
        }
        assert path[|dir|..][1..] == path[|deep|..] || |path| <= |deep|;
      } else {
        assert |path| > |deep| ==> path[..|dir|] == path[..|deep|][..|dir|];
      }
    } else if node.File? {
      if Below(dir, path) {
        var tail := path[|dir|..];
        assert path == dir + tail;
        if |tail| == 1 { assert tail == [tail[0]]; }
      }
    }
  }

  /** A path is listed exactly when it leads to a regular file. */
  lemma {:induction false} FilePathsExact(dir: seq<string>, nodes: seq<Node>, path: seq<string>)
    requires OsTree(nodes)
    ensures path in FilePaths(dir, nodes) <==> Below(dir, path) && FileAt(nodes, path[|dir|..]).Some?
    decreases nodes, 1
  {
    if nodes != [] {
      var rest := nodes[1..];
      assert forall i :: 0 <= i < |rest| ==> rest[i] == nodes[i + 1];
      PathsOfExact(dir, nodes[0], path);
      FilePathsExact(dir, rest, path);
    }
  }

  ghost predicate NoDuplicates<T>(s: seq<T>)
  {
    forall i, j :: 0 <= i < j < |s| ==> s[i] != s[j]
  }

  lemma NoDuplicatesConcat<T>(a: seq<T>, b: seq<T>)
    requires NoDuplicates(a) && NoDuplicates(b) && forall x :: x in a ==> x !in b
    ensures NoDuplicates(a + b)
  {
    forall i, j | 0 <= i < j < |a + b| ensures (a + b)[i] != (a + b)[j] {
      if i < |a| <= j { assert a[i] in a && b[j - |a|] in b; }
    }
  }

  /** Every regular file is listed once. */
  lemma {:induction false} FilePathsOnce(dir: seq<string>, nodes: seq<Node>)
    requires OsTree(nodes)
    ensures NoDuplicates(FilePaths(dir, nodes))
    decreases nodes
  {
    if nodes != [] {
      var first, rest := nodes[0], nodes[1..];
      assert forall i :: 0 <= i < |rest| ==> rest[i] == nodes[i + 1];
      FilePathsOnce(dir, rest);
      if first.Dir? {
        FilePathsOnce(dir + [first.name], first.children);
      }
      forall path | path in PathsOf(dir, first) ensures path !in FilePaths(dir, rest) {
        PathsOfExact(dir, first, path);
        FilePathsExact(dir, rest, path);
        var tail := path[|dir|..];
        assert Child([first], tail[0]).Some? ==> tail[0] == first.name;
      }
      NoDuplicatesConcat(PathsOf(dir, first), FilePaths(dir, rest));
    }
  }
}
