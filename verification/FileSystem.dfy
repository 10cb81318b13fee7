/**
  A local file system as the set of its directories and the contents of its regular files, keyed by path
  components.
 */
module FileSystems {
  import opened CStrings
  import opened Splitting

  type Key = seq<string>

  ghost predicate Closed(dirs: set<Key>, files: map<Key, string>)
  {
    && [] in dirs
    && (forall k :: k in dirs && k != [] ==> k[..|k| - 1] in dirs)
    && (forall k :: k in files ==> k != [] && k[..|k| - 1] in dirs)
    && (forall k :: k in files ==> k !in dirs)
  }

  class FileSystem {
    var dirs: set<Key>
    var files: map<Key, string>

    /** Parents exist, and nothing is both a file and a directory. */
    ghost predicate Valid()
      reads this
    {
      Closed(dirs, files)
    }

    /** lstat followed by S_ISREG. */
    predicate IsRegular(path: string)
      reads this
    {
      Tokens(path, '/') in files
    }

    /** mkdir: fails if the path exists or its parent directory does not. */
    method Mkdir(path: string)
      requires Valid()
      modifies this`dirs
      ensures Valid()
      ensures dirs == Made(old(dirs), files, Tokens(path, '/'))
    {
      hide Tokens;
      var key := Tokens(path, '/');
      if key !in dirs && key !in files && key[..|key| - 1] in dirs {
        dirs := dirs + {key};
      }
    }

    /**
      open for writing, creating the file if need be, and one write of the whole data: what was there is
      overwritten from the front.
     */
    method OpenAndWrite(path: string, data: string)
      requires Valid()
      modifies this`files
      ensures Valid()
      ensures files == Stored(dirs, old(files), Tokens(path, '/'), data)
      ensures OthersKept(old(files), files, Tokens(path, '/'))
      ensures !CanOpen(dirs, Tokens(path, '/')) ==> files == old(files)
      ensures CanOpen(dirs, Tokens(path, '/')) ==> Tokens(path, '/') in files
      ensures CanOpen(dirs, Tokens(path, '/')) && Tokens(path, '/') !in old(files) ==> files[Tokens(path, '/')] == data
      ensures CanOpen(dirs, Tokens(path, '/')) && Tokens(path, '/') in old(files) ==>
                WrittenOver(old(files)[Tokens(path, '/')], data, files[Tokens(path, '/')])
    {
      hide Tokens;
      var key := Tokens(path, '/');
      if !CanOpen(dirs, key) {
        return;
      }
      var before := if key in files then files[key] else "";
      files := files[key := data + if |before| > |data| then before[|data|..] else ""];
    }
  }

  /** open with O_CREAT fails for a directory and without a parent directory. */
  predicate CanOpen(dirs: set<Key>, key: Key)
  {
    key != [] && key !in dirs && key[..|key| - 1] in dirs
  }

  ghost predicate OthersKept(files: map<Key, string>, files': map<Key, string>, key: Key)
  {
    forall k :: k != key ==> (k in files' <==> k in files) && (k in files ==> files'[k] == files[k])
  }

  /** Front: the data. Behind it: the old bytes at their old places. Length: the larger one of the two. */
  ghost predicate WrittenOver(before: string, data: string, after: string)
  {
    && |after| == (if |before| > |data| then |before| else |data|)
    && (forall i :: 0 <= i < |data| ==> after[i] == data[i])
    && (forall i :: |data| <= i < |before| ==> after[i] == before[i])
  }

  /** A write at offset 0 into a file opened without truncation: a longer old content keeps its tail. */
  function Overwritten(before: string, data: string): string
  {
    data + if |before| > |data| then before[|data|..] else ""
  }

  /** A write leaves exactly what was written if and only if the old content was not longer. */
  lemma OverwrittenExact(before: string, data: string)
    ensures WrittenOver(before, data, Overwritten(before, data))
    ensures Overwritten(before, data) == data <==> |before| <= |data|
  {
  }

  lemma OverwrittenTwice(before: string, data: string)
    ensures Overwritten(Overwritten(before, data), data) == Overwritten(before, data)
    ensures Overwritten(data, data) == data
  {
  }

  /** The files after open with O_CREAT and a full write. */
  function Stored(dirs: set<Key>, files: map<Key, string>, key: Key, data: string): map<Key, string>
  {
    if CanOpen(dirs, key) then files[key := Overwritten(if key in files then files[key] else "", data)] else files
  }

  lemma StoredIsClosed(dirs: set<Key>, files: map<Key, string>, key: Key, data: string)
    requires Closed(dirs, files)
    ensures Closed(dirs, Stored(dirs, files, key, data))
  {
  }

  /** The directories after a mkdir of the given key. */
  function Made(dirs: set<Key>, files: map<Key, string>, key: Key): set<Key>
  {
    if key != [] && key !in dirs && key !in files && key[..|key| - 1] in dirs then dirs + {key} else dirs
  }

  /** The directories after a mkdir of every prefix of the key, shortest first. */
  function Grown(dirs: set<Key>, files: map<Key, string>, key: Key): set<Key>
  {
    if key == [] then dirs else Made(Grown(dirs, files, key[..|key| - 1]), files, key)
  }

  /** No regular file stands in the way of the key. */
  ghost predicate Unblocked(files: map<Key, string>, key: Key)
  {
    forall i :: 0 < i <= |key| ==> key[..i] !in files
  }

  lemma UnblockedParent(files: map<Key, string>, key: Key)
    requires key != []
    ensures Unblocked(files, key) <==> Unblocked(files, key[..|key| - 1]) && key !in files
  {
    var front := key[..|key| - 1];
    assert forall i :: 0 < i <= |front| ==> front[..i] == key[..i];
    assert key[..|key|] == key;
  }

  lemma {:induction false} GrownIsClosed(dirs: set<Key>, files: map<Key, string>, key: Key)
    requires Closed(dirs, files)
    ensures Closed(Grown(dirs, files, key), files) && dirs <= Grown(dirs, files, key)
  {
    if key != [] {
      GrownIsClosed(dirs, files, key[..|key| - 1]);
    }
  }

  lemma {:induction false} ClosedPrefix(dirs: set<Key>, files: map<Key, string>, k: Key, i: nat)
    requires Closed(dirs, files) && k in dirs && i <= |k|
    ensures k[..i] in dirs
    decreases |k|
  {
    if i < |k| {
      var front := k[..|k| - 1];
      ClosedPrefix(dirs, files, front, i);
      assert front[..i] == k[..i];
    } else {
      assert k[..i] == k;
    }
  }

  /**
    mkdir -p: afterwards there are the old directories and exactly those prefixes of the key that no regular
    file blocks. In particular the whole path exists if and only if no prefix of it is a regular file.
   */
  lemma {:induction false} GrownExact(dirs: set<Key>, files: map<Key, string>, key: Key, k: Key)
    requires Closed(dirs, files)
    ensures k in Grown(dirs, files, key) <==> k in dirs || (k <= key && Unblocked(files, k))
  {
    if key == [] {
    } else {
      var front := key[..|key| - 1];
      GrownExact(dirs, files, front, k);
      GrownExact(dirs, files, front, front);
      UnblockedParent(files, key);
      assert k <= key <==> k <= front || k == key;
      if k == key {
        assert !(k <= front);
        if key in dirs {
        } else if front in dirs {
          forall i | 0 < i <= |front| ensures front[..i] !in files { ClosedPrefix(dirs, files, front, i); }
        }
      }
    }
  }

  /** A mkdir that has already been done, or that failed, changes nothing when repeated. */
  lemma GrownAgain(dirs: set<Key>, files: map<Key, string>, key: Key)
    ensures Made(Grown(dirs, files, key), files, key) == Grown(dirs, files, key)
  {
  }

  /** A directory that exists needs nothing made. */
  lemma GrownInPlace(dirs: set<Key>, files: map<Key, string>, key: Key)
    requires Closed(dirs, files) && key in dirs
    ensures Grown(dirs, files, key) == dirs
  {
    forall k ensures k in Grown(dirs, files, key) <==> k in dirs {
      GrownExact(dirs, files, key, k);
      if k <= key {
        ClosedPrefix(dirs, files, key, |k|);
        assert key[..|k|] == k;
      }
    }
  }

  // ---- mkdirp ----

  ghost predicate NoSlash(path: string, from: nat, to: nat)
  {
    forall k :: from <= k < to && k < |path| ==> path[k] != '/'
  }

  /** Between two neighbouring slashes there is at most one more component. */
  lemma NextPrefix(path: string, q: nat, p: nat) returns (w: string)
    requires q < p <= |path| && (q == 0 || path[q] == '/') && NoSlash(path, q + 1, p)
    ensures Tokens(path[..p], '/') == if w == "" then Tokens(path[..q], '/') else Tokens(path[..q], '/') + [w]
  {
    TokensOfEmpty('/');
    if path[q] == '/' {
      w := path[q + 1..p];
      assert path[..p] == path[..q] + ['/'] + w;
      TokensConcat(path[..q], '/', w);
    } else {
      w := path[..p];
      assert path[..q] == "";
      assert w == [w[0]] + path[1..p];
    }
    if w != "" { TokensOfWord(w, '/'); }
  }

  /** mkdir of the next longer prefix continues the chain. */
  lemma GrownStep(dirs: set<Key>, files: map<Key, string>, path: string, q: nat, p: nat)
    requires q < p <= |path| && (q == 0 || path[q] == '/') && NoSlash(path, q + 1, p)
    ensures Made(Grown(dirs, files, Tokens(path[..q], '/')), files, Tokens(path[..p], '/'))
         == Grown(dirs, files, Tokens(path[..p], '/'))
  {
    var w := NextPrefix(path, q, p);
    var key := Tokens(path[..q], '/');
    if w == "" {
      GrownAgain(dirs, files, key);
    } else {
      assert (key + [w])[..|key + [w]| - 1] == key;
    }
  }

  /** Makes the directory that the buffer names when it is cut at index p, and undoes the cut. */
  method MkdirCut(fs: FileSystem, buf: array<char>, p: nat, ghost path: string)
    requires fs.Valid() && p < |path| < buf.Length && NUL !in path && path[p] == '/'
    requires StringAt(buf[..], 0, path)
    modifies fs`dirs, buf
    ensures fs.Valid() && buf[..] == old(buf[..])
    ensures fs.dirs == Made(old(fs.dirs), fs.files, Tokens(path[..p], '/'))
  {
    hide Tokens, Made;
    StringChars(buf[..], 0, path);
    ghost var m := buf[..];
    assert forall k :: 0 <= k < |path| ==> m[k] == path[k];
    buf[p] := NUL;
    var prefix := TextBefore(buf, path, p);
    fs.Mkdir(prefix);
    buf[p] := '/';
    assert buf[..] == m;
  }

  /** mkdirp has made every directory up to its last slash before index p, which is at q. */
  ghost predicate Reached(dirs: set<Key>, files: map<Key, string>, now: set<Key>, path: string, q: nat, p: nat)
  {
    && q < p <= |path| && (q == 0 || path[q] == '/') && NoSlash(path, q + 1, p)
    && now == Grown(dirs, files, Tokens(path[..q], '/'))
  }

  lemma ReachedStart(dirs: set<Key>, files: map<Key, string>, path: string)
    requires path != ""
    ensures Reached(dirs, files, dirs, path, 0, 1)
  {
    TokensOfEmpty('/');
  }

  lemma ReachedNext(dirs: set<Key>, files: map<Key, string>, now: set<Key>, path: string, q: nat, p: nat)
    requires Reached(dirs, files, now, path, q, p) && p < |path|
    ensures path[p] != '/' ==> Reached(dirs, files, now, path, q, p + 1)
    ensures path[p] == '/' ==> Reached(dirs, files, Made(now, files, Tokens(path[..p], '/')), path, p, p + 1)
  {
    GrownStep(dirs, files, path, q, p);
  }

  lemma ReachedEnd(dirs: set<Key>, files: map<Key, string>, now: set<Key>, path: string, q: nat)
    requires Reached(dirs, files, now, path, q, |path|)
    ensures Made(now, files, Tokens(path, '/')) == Grown(dirs, files, Tokens(path, '/'))
  {
    GrownStep(dirs, files, path, q, |path|);
    assert path[..|path|] == path;
  }

  /** mkdirp: cuts a copy of the path at every slash in turn, makes that directory, and puts the slash back. */
  method Mkdirp(fs: FileSystem, path: string)
    requires fs.Valid() && path != "" && NUL !in path
    modifies fs`dirs
    ensures fs.Valid()
    ensures fs.dirs == Grown(old(fs.dirs), fs.files, Tokens(path, '/'))
  {
    hide Tokens, Grown, Made, Closed, Reached;
    ghost var dirs, files := fs.dirs, fs.files;
    var copy := new char[|path| + 1](_ => NUL);
    StrCpy(copy, path);
    ghost var m, q := copy[..], 0;
    StringChars(m, 0, path);
    ReachedStart(dirs, files, path);
    var p := 1;
    while copy[p] != NUL
      invariant fs.Valid() && fs.files == files && copy[..] == m
      invariant p <= |path| && Reached(dirs, files, fs.dirs, path, q, p)
      decreases |path| - p
    {
      assert copy[p] == m[p];
      ReachedNext(dirs, files, fs.dirs, path, q, p);
      if copy[p] == '/' {
        MkdirCut(fs, copy, p, path);
        q := p;
      }
      p := p + 1;
    }
    assert copy[p] == m[p];
    ReachedEnd(dirs, files, fs.dirs, path, q);
    var whole := TextOf(copy, 0);
    StringAtUnique(m, 0, whole, path);
    fs.Mkdir(whole);
  }

  /** The string in a buffer that holds the path cut at index p. */
  method TextBefore(buf: array<char>, ghost path: string, ghost p: nat) returns (s: string)
    requires p <= |path| && NUL !in path && p < buf.Length && buf[p] == NUL
    requires forall k :: 0 <= k < p ==> buf[k] == path[k]
    ensures s == path[..p]
  {
    assert StringAt(buf[..], 0, path[..p]);
    s := TextOf(buf, 0);
    StringAtUnique(buf[..], 0, s, path[..p]);
  }
}
