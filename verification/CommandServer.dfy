/** The command server: it answers "GET <directory>" with the listing of that directory. */
module CommandServer {
  import opened CStrings
  import opened Framing
  import opened Listing
  import opened Options
  import opened RemoteTree
  import opened Splitting

  const RECEIVE_BUFFER := 1024
  const CLAIMED_SIZE := 8 // sizeof(receive_buffer - 1), the size of an address on a 64-bit machine
  const LISTING_BUFFER := 64768 // 8096 * 8

  // ---- what a directory contains ----

  datatype Kind = DtReg | DtDir | DtOther

  /** A directory entry as readdir and lstat report it. */
  datatype Dirent = Dirent(name: string, kind: Kind, date: string)

  function DirentOf(n: Node): Dirent
  {
    match n
    case File(name, date, _) => Dirent(name, DtReg, date)
    case Dir(name, date, _) => Dirent(name, DtDir, date)
    case Special(name) => Dirent(name, DtOther, "")
  }

  function Dirents(nodes: seq<Node>): seq<Dirent>
  {
    if nodes == [] then [] else [DirentOf(nodes[0])] + Dirents(nodes[1..])
  }

  /** What readdir yields: the directory itself, its parent, and its entries. */
  function DirStream(nodes: seq<Node>): seq<Dirent>
  {
    [Dirent(".", DtDir, ""), Dirent("..", DtDir, "")] + Dirents(nodes)
  }

  predicate Skipped(d: Dirent)
  {
    d.name == "." || d.name == ".." || d.kind == DtOther
  }

  function EntryOf(d: Dirent): Entry
  {
    Entry(if d.kind == DtReg then 'F' else 'D', d.name, d.date)
  }

  /** The entries the printing loop emits for the rest of a directory stream. */
  function Kept(stream: seq<Dirent>): seq<Entry>
  {
    if stream == [] then []
    else if Skipped(stream[0]) then Kept(stream[1..])
    else [EntryOf(stream[0])] + Kept(stream[1..])
  }

  /** The regular files and directories among the nodes, as listing entries. */
  function Entries(nodes: seq<Node>): seq<Entry>
  {
    if nodes == [] then []
    else match nodes[0]
      case File(name, date, _) => [Entry('F', name, date)] + Entries(nodes[1..])
      case Dir(name, date, _) => [Entry('D', name, date)] + Entries(nodes[1..])
      case Special(_) => Entries(nodes[1..])
  }

  lemma {:induction false} KeptDirents(nodes: seq<Node>)
    requires forall n :: n in nodes ==> IsName(n.name)
    ensures Kept(Dirents(nodes)) == Entries(nodes)
  {
    if nodes != [] {
      assert Dirents(nodes)[1..] == Dirents(nodes[1..]);
      KeptDirents(nodes[1..]);
    }
  }

  /** The loop skips the two dot entries and everything special, and keeps the rest in order. */
  lemma KeptIsEntries(nodes: seq<Node>)
    requires forall n :: n in nodes ==> IsName(n.name)
    ensures Kept(DirStream(nodes)) == Entries(nodes)
  {
    var stream := DirStream(nodes);
    assert stream[1..][1..] == Dirents(nodes);
    KeptDirents(nodes);
  }

  lemma {:induction false} KeptMember(stream: seq<Dirent>, e: Entry)
    requires e in Kept(stream)
    ensures exists d :: d in stream && !Skipped(d) && e.name == d.name && e.date == d.date && IsKind(e.kind)
  {
    if !Skipped(stream[0]) && e == Kept(stream)[0] {
      assert stream[0] in stream;
    } else {
      KeptMember(stream[1..], e);
    }
  }

  // ---- printing ----

  /** reply[current_pos++] = c. */
  method PutChar(reply: array<char>, at: nat, c: char) returns (pos: nat)
    requires at < reply.Length
    modifies reply
    ensures pos == at + 1 && reply[..pos] == old(reply[..at]) + [c]
  {
    reply[at] := c;
    pos := at + 1;
  }

  /** memcpy of a text to the current position, which moves behind it. */
  method PutText(reply: array<char>, at: nat, s: string) returns (pos: nat)
    requires at + |s| <= reply.Length
    modifies reply
    ensures pos == at + |s| && reply[..pos] == old(reply[..at]) + s
  {
    MemCpy(reply, at, s);
    pos := at + |s|;
  }

  /** Writes one entry at the current position: type, delimiter, name, delimiter, date, delimiter. */
  method AppendEntry(reply: array<char>, at: nat, e: Entry) returns (pos: nat)
    requires at + |Body(e)| + 1 <= reply.Length
    modifies reply
    ensures pos == at + |e.name| + |e.date| + 4
    ensures reply[..pos] == old(reply[..at]) + Body(e) + "<"
    ensures reply[..pos] == old(reply[..at]) + [e.kind] + ">" + e.name + ">" + e.date + "<"
  {
    ghost var before := reply[..at];
    pos := PutChar(reply, at, e.kind);
    pos := PutChar(reply, pos, '>');
    pos := PutText(reply, pos, e.name);
    pos := PutChar(reply, pos, '>');
    pos := PutText(reply, pos, e.date);
    assert reply[..pos] == before + Body(e);
    pos := PutChar(reply, pos, '<');
  }

  lemma KeptStep(stream: seq<Dirent>, k: nat)
    requires k < |stream|
    ensures Skipped(stream[k]) ==> Kept(stream[k..]) == Kept(stream[k + 1..])
    ensures !Skipped(stream[k]) ==>
              Print(Kept(stream[k..])) == Body(EntryOf(stream[k])) + "<" + Print(Kept(stream[k + 1..]))
  {
    assert stream[k..][1..] == stream[k + 1..];
    if !Skipped(stream[k]) {
      assert Kept(stream[k..])[1..] == Kept(stream[k + 1..]);
    }
  }

  /** The loop over the directory: it fills the reply with the listing and terminates it. */
  method PrintDirectory(reply: array<char>, stream: seq<Dirent>) returns (currentPos: nat)
    requires |Print(Kept(stream))| < reply.Length
    modifies reply
    ensures currentPos == |Print(Kept(stream))| == PrintedLength(Kept(stream))
    ensures reply[..currentPos] == Print(Kept(stream)) && reply[currentPos] == NUL
  {
    hide Print, Kept;
    ghost var all := Print(Kept(stream));
    currentPos := 0;
    var k := 0;
    assert stream[0..] == stream;
    while k < |stream|
      invariant k <= |stream| && currentPos <= reply.Length
      invariant reply[..currentPos] + Print(Kept(stream[k..])) == all
    {
      var d := stream[k];
      KeptStep(stream, k);
      k := k + 1;
      if d.name == "." || d.name == ".." {
        continue;
      }
      if d.kind != DtDir && d.kind != DtReg {
        continue;
      }
      ghost var before, rest := reply[..currentPos], Print(Kept(stream[k..]));
      assert all == (before + Body(EntryOf(d)) + "<") + rest;
      currentPos := AppendEntry(reply, currentPos, EntryOf(d));
    }
    reply[currentPos] := NUL;
    assert stream[k..] == [];
    NothingKept();
    LengthOfPrint(Kept(stream));
  }

  lemma NothingKept()
    ensures Print(Kept([])) == ""
  {
  }

  // ---- the request ----

  /** What strtok sees of the received bytes. */
  function BeforeNul(text: string): (t: string)
    ensures NUL !in t && t <= text
  {
    if NUL in text then text[..IndexOf(text, NUL)] else text
  }

  /** The number of delimiters at the front of a text. */
  function Leading(text: string, d: char): (k: nat)
    ensures k <= |text| && (forall i :: 0 <= i < k ==> text[i] == d) && (k < |text| ==> text[k] != d)
  {
    if text == "" || text[0] != d then 0
    else
      var k := 1 + Leading(text[1..], d);
      assert forall i :: 0 < i < k ==> text[i] == text[1..][i - 1];
      k
  }

  /** A request without the spaces in front of its id. */
  function Trimmed(text: string): string { BeforeNul(text)[Leading(BeforeNul(text), ' ')..] }

  /** A request that the server can parse: an id, a space, and something that holds a token. */
  predicate IsRequest(text: string, d: char)
  {
    ' ' in Trimmed(text) && Tokens(Trimmed(text)[IndexOf(Trimmed(text), ' ') + 1..], d) != []
  }

  /** The path the server reads out of a request, with d as the second delimiter. */
  function RequestedPath(text: string, d: char): string
    requires IsRequest(text, d)
  {
    Tokens(Trimmed(text)[IndexOf(Trimmed(text), ' ') + 1..], d)[0]
  }

  const GET := "GET "

  lemma GetRequest(path: string, d: char)
    requires NUL !in path && Tokens(path, d) != []
    ensures IsRequest(GET + path, d) && RequestedPath(GET + path, d) == Tokens(path, d)[0]
  {
    hide Tokens, IndexOf, Leading;
    var text := GET + path;
    assert |GET| == 4 && GET[0] == 'G' && GET[3] == ' ';
    assert NUL !in GET && NUL !in text && BeforeNul(text) == text;
    NothingLeading(text);
    assert Trimmed(text) == text[0..] == text;
    assert text[3] == ' ' && ' ' !in text[..3];
    IndexOfUnique(text, ' ', 3);
    assert text[4..] == path;
  }

  /** Any request: spaces, an id, a space and the path, with or without a NUL and more bytes behind it. */
  lemma AnyRequest(spaces: string, id: string, path: string, tail: string, d: char)
    requires (forall i :: 0 <= i < |spaces| ==> spaces[i] == ' ') && id != "" && ' ' !in id
    requires NUL !in id && NUL !in path && Tokens(path, d) != [] && (tail == "" || tail[0] == NUL)
    ensures IsRequest(spaces + id + " " + path + tail, d)
    ensures RequestedPath(spaces + id + " " + path + tail, d) == Tokens(path, d)[0]
  {
    hide Tokens, IndexOf, Leading, BeforeNul;
    var words := id + " " + path;
    var front := spaces + words;
    var text := spaces + id + " " + path + tail;
    assert text == front + tail;
    assert NUL !in front;
    NulEnds(front, tail);
    LeadingSpaces(spaces, words);
    assert Trimmed(text) == words;
    assert words[|id|] == ' ' && words[..|id|] == id && words[|id| + 1..] == path;
    IndexOfUnique(words, ' ', |id|);
  }

  lemma NulEnds(front: string, tail: string)
    requires NUL !in front && (tail == "" || tail[0] == NUL)
    ensures BeforeNul(front + tail) == front
  {
    if tail == "" {
      assert front + tail == front;
    } else {
      assert (front + tail)[|front|] == NUL && (front + tail)[..|front|] == front;
      IndexOfUnique(front + tail, NUL, |front|);
    }
  }

  lemma {:induction false} LeadingSpaces(spaces: string, words: string)
    requires (forall i :: 0 <= i < |spaces| ==> spaces[i] == ' ') && words != "" && words[0] != ' '
    ensures Leading(spaces + words, ' ') == |spaces| && (spaces + words)[|spaces|..] == words
  {
    assert forall i :: 0 <= i < |spaces| ==> (spaces + words)[i] == spaces[i];
    assert (spaces + words)[|spaces|] == words[0];
  }

  lemma NothingLeading(text: string)
    requires text != "" && text[0] != ' '
    ensures Leading(text, ' ') == 0
  {
  }

  /** The server understands a requested path exactly when the second delimiter is not in it. */
  lemma RequestUnderstood(path: string, d: char)
    requires NUL !in path && Tokens(path, d) != []
    ensures IsRequest(GET + path, d)
    ensures RequestedPath(GET + path, d) == path <==> d !in path
  {
    GetRequest(path, d);
    if d !in path {
      if path == "" { TokensOfEmpty(d); } else { TokensOfWord(path, d); }
    } else {
      TokensClean(path, d);
      assert Tokens(path, d)[0] in Tokens(path, d);
    }
  }

  lemma TokensBeforeDelimiter(rest: string, d: char)
    ensures Tokens(rest + [d], d) == Tokens(rest, d)
  {
    TokensConcat(rest, d, "");
    TokensOfEmpty(d);
    assert rest + [d] == rest + [d] + "";
  }

  /** A delimiter behind a text stops the scan of its first token, whatever comes later in memory. */
  lemma TokenBeforeDelimiter(m: seq<char>, i: nat, rest: string, d: char) returns (start: nat, end: nat)
    requires i + |rest| < |m| && m[i..i + |rest|] == rest && m[i + |rest|] == d && d != NUL && NUL !in rest
    requires Tokens(rest, d) != []
    ensures NextToken(m, i, d, start, end) && m[start..end] == Tokens(rest, d)[0]
  {
    var n := i + |rest|;
    var t := m[..n + 1] + [NUL];
    TerminatedCopy(m, i, rest, d, t);
    TokensBeforeDelimiter(rest, d);
    start, end := TokenOfString(t, i, rest + [d], d);
    CutToken(m, n, t, i, d, start, end);
  }

  /** The first token of a string in memory. */
  lemma TokenOfString(m: seq<char>, i: nat, rest: string, d: char) returns (start: nat, end: nat)
    requires StringAt(m, i, rest) && d != NUL && Tokens(rest, d) != []
    ensures NextToken(m, i, d, start, end) && m[start..end] == Tokens(rest, d)[0]
  {
    TextIsScannable(m, i, rest, d);
    if exists stop: nat :: NoToken(m, i, d, stop) {
      var stop: nat :| NoToken(m, i, d, stop);
      NoTokenMeansNone(m, i, rest, d, stop);
      assert false;
    } else {
      start, end :| NextToken(m, i, d, start, end);
      TokenIsFirst(m, i, rest, d, start, end);
    }
  }

  lemma TerminatedCopy(m: seq<char>, i: nat, rest: string, d: char, t: seq<char>)
    requires i + |rest| < |m| && m[i..i + |rest|] == rest && m[i + |rest|] == d && d != NUL && NUL !in rest
    requires t == m[..i + |rest| + 1] + [NUL]
    ensures StringAt(t, i, rest + [d])
  {
    assert forall k :: 0 <= k < |rest| ==> rest[k] == m[i + k];
  }

  lemma CutToken(m: seq<char>, n: nat, t: seq<char>, i: nat, d: char, start: nat, end: nat)
    requires n < |m| && t == m[..n + 1] + [NUL] && m[n] == d && i <= n
    requires NextToken(t, i, d, start, end)
    ensures NextToken(m, i, d, start, end) && t[start..end] == m[start..end]
  {
    assert t[n] == d && t[n + 1] == NUL;
    assert t[start] != d && t[start] != NUL;
    assert end <= n;
    assert forall k :: 0 <= k <= n ==> t[k] == m[k];
  }

  /** The first word of a text with leading spaces, in memory. */
  lemma FirstWord(m: seq<char>, t: string, lead: nat)
    requires |t| < |m| && m[..|t|] == t && NUL !in t && lead <= |t| && ' ' in t[lead..]
    requires (forall k :: 0 <= k < lead ==> t[k] == ' ') && (lead < |t| ==> t[lead] != ' ')
    ensures var space := lead + IndexOf(t[lead..], ' ');
            space < |t| && NextToken(m, 0, ' ', lead, space) && t[lead..][space - lead + 1..] == m[space + 1..|t|]
  {
    var space := lead + IndexOf(t[lead..], ' ');
    var word := t[lead..][..space - lead];
    assert forall k :: 0 <= k < |t| ==> m[k] == m[..|t|][k];
    assert forall k :: lead <= k < space ==> word[k - lead] == t[k] && word[k - lead] in word && t[k] in t;
  }

  /** The first token of a request once the byte behind the received ones has become a delimiter: its id. */
  lemma IdOfRequest(m: seq<char>, text: string, d: char) returns (lead: nat, space: nat)
    requires |text| < |m| && m[..|text|] == text && IsRequest(text, d)
    ensures lead == Leading(BeforeNul(text), ' ') && space == lead + IndexOf(Trimmed(text), ' ')
    ensures space < |BeforeNul(text)| && NextToken(m, 0, ' ', lead, space)
    ensures Trimmed(text)[space - lead + 1..] == m[space + 1..|BeforeNul(text)|]
  {
    hide Tokens, NextToken, IndexOf;
    var t := BeforeNul(text);
    lead, space := Leading(t, ' '), Leading(t, ' ') + IndexOf(Trimmed(text), ' ');
    assert m[..|t|] == m[..|text|][..|t|] == t;
    FirstWord(m, t, lead);
  }

  /** The second token: the path, whether the text ends at the delimiter behind it or at a NUL before that. */
  lemma PathOfRequest(m: seq<char>, i: nat, end: nat, d: char) returns (start: nat, stop: nat)
    requires i <= end < |m| && d != NUL && (m[end] == d || m[end] == NUL) && NUL !in m[i..end] &&
        Tokens(m[i..end], d) != []
    ensures NextToken(m, i, d, start, stop) && m[start..stop] == Tokens(m[i..end], d)[0]
  {
    var rest := m[i..end];
    if m[end] == d {
      start, stop := TokenBeforeDelimiter(m, i, rest, d);
    } else {
      assert forall k :: 0 <= k < |rest| ==> rest[k] == m[i + k] && rest[k] in rest;
      start, stop := TokenOfString(m, i, rest, d);
    }
  }

  /**
    The two strtok calls on the received bytes: the byte behind them becomes a delimiter, the first call
    skips spaces and cuts the id at the next one, and the second cuts the path at d.
   */
  method ParseRequest(buffer: array<char>, received: nat, d: char) returns (path: string)
    requires received < buffer.Length && d != NUL && IsRequest(buffer[..received], d)
    modifies buffer
    ensures path == RequestedPath(old(buffer[..received]), d)
  {
    hide IsRequest, RequestedPath, Trimmed, BeforeNul, Leading, Tokens;
    ghost var text, n := buffer[..received], |BeforeNul(buffer[..received])|;
    EndOfText(text, d);
    buffer[received] := d;
    ghost var m := buffer[..];
    assert m[..received] == text;
    ghost var lead, space := IdOfRequest(m, text, d);
    assert m[n] == d || m[n] == NUL;
    var requestId, save := StrtokR(buffer, 0, ' ');
    TokenDetermined(m, 0, ' ', lead, space, requestId, save);
    ghost var m1 := buffer[..];
    assert m1[save..n] == m[space + 1..n];
    ghost var start, stop := PathOfRequest(m1, save, n, d);
    var requestPath, save2 := StrtokR(buffer, save, d);
    TokenDetermined(m1, save, d, start, stop, requestPath, save2);
    path := buffer[requestPath.start..requestPath.end];
    assert path == m1[start..stop];
  }

  lemma EndOfText(text: string, d: char)
    requires IsRequest(text, d)
    ensures |BeforeNul(text)| <= |text| && (|BeforeNul(text)| < |text| ==> text[|BeforeNul(text)|] == NUL)
    ensures var t := Trimmed(text)[IndexOf(Trimmed(text), ' ') + 1..];
            NUL !in t && Tokens(t, d) != [] && RequestedPath(text, d) == Tokens(t, d)[0]
    ensures ' ' in Trimmed(text)
  {
  }

  // ---- the reply ----

  /** The directory that a requested path names on the server. */
  function RequestedDirectory(root: seq<Node>, path: string): Option<seq<Node>>
  {
    match SharedPath(BASE_PATH + path)
    case Some(parts) => DirAt(root, parts)
    case None => None
  }

  function ReplyTo(root: seq<Node>, path: string): string
  {
    match RequestedDirectory(root, path)
    case Some(nodes) => Print(Entries(nodes))
    case None => INVALID_DIRECTORY
  }

  lemma {:induction false} NoNulInPrint(nodes: seq<Node>)
    requires OsTree(nodes)
    ensures NUL !in Print(Entries(nodes))
  {
    if nodes != [] {
      var rest := nodes[1..];
      assert forall i :: 0 <= i < |rest| ==> rest[i] == nodes[i + 1];
      NoNulInPrint(rest);
      if !nodes[0].Special? {
        var es := Entries(nodes);
        assert es[1..] == Entries(rest);
        assert NUL !in Body(es[0]) by {
          assert NUL !in [es[0].kind] + ">" && NUL !in [es[0].kind] + ">" + es[0].name;
        }
      }
    }
  }

  lemma NoNulInReply(root: seq<Node>, path: string)
    requires OsTree(root)
    ensures NUL !in ReplyTo(root, path)
  {
    match RequestedDirectory(root, path) {
      case Some(nodes) =>
        DirAtIsOsTree(root, SharedPath(BASE_PATH + path).value);
        NoNulInPrint(nodes);
      case None =>
        assert NUL !in INVALID_DIRECTORY;
    }
  }

  /** A requested path names a directory exactly if it starts with a slash and its components lead to one. */
  lemma RequestedExactly(root: seq<Node>, path: string)
    requires path != ""
    ensures path[0] == '/' ==> RequestedDirectory(root, path) == DirAt(root, Tokens(path, '/'))
    ensures path[0] != '/' ==> RequestedDirectory(root, path) == None
  {
    hide Tokens, DirAt;
    if path[0] == '/' {
      SharedPathOf(path);
    } else {
      OutsideShare(path);
    }
  }

  /** A path that is asked for and is no directory of the share. */
  ghost predicate NoDirectory(root: seq<Node>, path: string)
  {
    path != "" && (path[0] == '/' ==> DirAt(root, Tokens(path, '/')) == None)
  }

  /** Whatever is asked for and is no directory of the share is answered with the error text. */
  lemma ErrorReply(root: seq<Node>, path: string)
    requires NoDirectory(root, path)
    ensures ReplyTo(root, path) == "requested invalid directory" && Parse(ReplyTo(root, path)) == []
  {
    hide SharedPath, Tokens, DirAt;
    RequestedExactly(root, path);
    RepliesWithoutEntries();
  }

  /** Fills the reply for the local path of a request. */
  method FillReply(reply: array<char>, localPath: string, root: seq<Node>, ghost path: string)
    requires localPath == BASE_PATH + path && OsTree(root)
    requires reply.Length == LISTING_BUFFER && |ReplyTo(root, path)| < LISTING_BUFFER
    modifies reply
    ensures StringAt(reply[..], 0, ReplyTo(root, path))
    ensures NoDirectory(root, path) ==> StringAt(reply[..], 0, "requested invalid directory")
  {
    hide SharedPath, Print, Entries, Tokens, NoDirectory;
    if NoDirectory(root, path) { ErrorReply(root, path); }
    var parts := SharedPath(localPath);
    var directory := if parts.Some? then DirAt(root, parts.value) else None;
    if directory.None? {
      StrCpy(reply, INVALID_DIRECTORY);
    } else {
      DirAtIsOsTree(root, parts.value);
      KeptIsEntries(directory.value);
      NoNulInPrint(directory.value);
      var currentPos := PrintDirectory(reply, DirStream(directory.value));
      assert forall k :: 0 <= k < currentPos ==> reply[..currentPos][k] == reply[k];
    }
  }

  method HandleClient(down: Channel, buffer: array<char>, received: nat, root: seq<Node>)
    requires received < buffer.Length && IsRequest(buffer[..received], ' ') && OsTree(root)
    requires |ReplyTo(root, RequestedPath(buffer[..received], ' '))| < LISTING_BUFFER
    modifies down, buffer
    ensures down.pos == old(down.pos)
    ensures down.unread == old(down.unread)
              + SendWire(down.sendPlan, old(down.pos + |down.unread|),
                         ReplyTo(root, RequestedPath(old(buffer[..received]), ' ')))
    ensures NoDirectory(root, RequestedPath(old(buffer[..received]), ' ')) ==>
              down.unread == old(down.unread)
                + SendWire(down.sendPlan, old(down.pos + |down.unread|), "requested invalid directory")
  {
    hide ReplyTo, RequestedPath, SendWire, IsRequest, NoDirectory, OsTree, StringAt, Parse;
    var path := ParseRequest(buffer, received, ' ');
    var reply := new char[LISTING_BUFFER](_ => NUL);
    FillReply(reply, BASE_PATH + path, root, path);
    var text := TextOf(reply, 0);
    StringAtUnique(reply[..], 0, text, ReplyTo(root, path));
    StringChars(reply[..], 0, text);
    assert reply[..|text|] == text;
    var sent := TcpMessageSend(down, reply, |text|);
    if NoDirectory(root, path) { ErrorReply(root, path); }
  }

  /** What the server's receive call does with the stream from a client. */
  ghost function Arrival(up: Channel): RecvRun
    reads up
  {
    ReceiveMessage(up.recvPlan, up.pos, up.unread, CLAIMED_SIZE, RECEIVE_BUFFER)
  }

  /** The bytes of the request at the front of a stream, once n of them have been received. */
  function RequestText(stream: string, n: nat): string
    requires 4 + n <= |stream|
  {
    stream[4..4 + n]
  }

  predicate CanAnswer(root: seq<Node>, text: string)
  {
    |text| < RECEIVE_BUFFER && IsRequest(text, ' ') && |ReplyTo(root, RequestedPath(text, ' '))| < LISTING_BUFFER
  }

  /**
    A client socket is ready: receive one message and answer it, or stop watching the socket; an overrun
    leaves the buffer.
   */
  method ServeReadySocket(up: Channel, down: Channel, root: seq<Node>) returns (watched: bool, overrun: bool)
    requires up != down && OsTree(root)
    requires Arrival(up).Returned? && Arrival(up).ret > 0 ==>
               4 + Arrival(up).ret <= |up.unread| && CanAnswer(root, RequestText(up.unread, Arrival(up).ret))
    modifies up, down
    ensures overrun <==> old(Arrival(up)).Overrun?
    ensures !overrun ==>
              up.pos == old(up.pos) + old(Arrival(up)).taken && up.unread == old(up.unread)[old(Arrival(up)).taken..]
    ensures watched <==> !overrun && old(Arrival(up)).ret > 0
    ensures down.pos == old(down.pos)
    ensures !watched ==> down.unread == old(down.unread)
    ensures watched ==>
              down.unread == old(down.unread) + SendWire(down.sendPlan, old(down.pos + |down.unread|),
                ReplyTo(root, RequestedPath(RequestText(old(up.unread), old(Arrival(up)).ret), ' ')))
    ensures watched && NoDirectory(root, RequestedPath(RequestText(old(up.unread), old(Arrival(up)).ret), ' ')) ==>
              down.unread == old(down.unread)
                + SendWire(down.sendPlan, old(down.pos + |down.unread|), "requested invalid directory")
  {
    hide ReceiveMessage, SendWire, ReplyTo, RequestedPath, IsRequest, NoDirectory;
    var buffer := new char[RECEIVE_BUFFER];
    var received;
    received, overrun := TcpMessageReceive(up, buffer, CLAIMED_SIZE);
    if overrun {
      return false, true;
    }
    if received == -1 {
      return false, false;
    }
    if received == 0 {
      return false, false;
    }
    assert buffer[..received] == RequestText(old(up.unread), received);
    HandleClient(down, buffer, received, root);
    watched := true;
  }
}
