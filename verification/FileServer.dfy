/** The file server: it answers "GET <file>" with the content of that file, once per connection. */
module FileServer {
  import opened CommandServer
  import opened CStrings
  import opened Framing
  import opened Listing
  import opened Options
  import opened RemoteTree
  import opened Splitting

  const ERROR_BUFFER := 1000

  /** The content of the regular file that a requested path names on the server. */
  function RequestedFile(root: seq<Node>, path: string): Option<string>
  {
    match SharedPath(BASE_PATH + path)
    case Some(parts) => FileAt(root, parts)
    case None => None
  }

  /** For anything but a regular file the reply is the error text, which looks like content to the client. */
  function FileReplyTo(root: seq<Node>, path: string): string
  {
    match RequestedFile(root, path)
    case Some(content) => content
    case None => INVALID_DIRECTORY
  }

  method SendError(down: Channel)
    modifies down
    ensures down.pos == old(down.pos)
    ensures down.unread == old(down.unread) + SendWire(down.sendPlan, old(down.pos + |down.unread|), INVALID_DIRECTORY)
  {
    hide SendWire, SendRet;
    var text := INVALID_DIRECTORY;
    var reply := new char[ERROR_BUFFER](_ => NUL);
    StrCpy(reply, text);
    var size := TextOf(reply, 0);
    StringAtUnique(reply[..], 0, size, text);
    StringChars(reply[..], 0, text);
    assert reply[..|size|] == text;
    var sent := TcpMessageSend(down, reply, |size|);
  }

  method HandleClient(down: Channel, buffer: array<char>, received: nat, root: seq<Node>)
    requires received < buffer.Length && IsRequest(buffer[..received], '>')
    modifies down, buffer
    ensures down.pos == old(down.pos)
    ensures down.unread == old(down.unread)
              + SendWire(down.sendPlan, old(down.pos + |down.unread|),
                         FileReplyTo(root, RequestedPath(old(buffer[..received]), '>')))
  {
    hide SendWire, SendRet, SharedPath, FileAt, IsRequest, RequestedPath;
    var path := ParseRequest(buffer, received, '>');
    var parts := SharedPath(BASE_PATH + path);
    var content := if parts.Some? then FileAt(root, parts.value) else None;
    if content.None? {
      SendError(down);
    } else {
      var fileBuffer := new char[|content.value|](i requires 0 <= i < |content.value| => content.value[i]);
      assert fileBuffer[..|content.value|] == content.value;
      var sent := TcpMessageSend(down, fileBuffer, |content.value|);
    }
  }

  /** A client socket is ready: it is taken off the watched set in every case, and answered if a whole message came. */
  method ServeReadySocket(up: Channel, down: Channel, root: seq<Node>) returns (answered: bool, overrun: bool)
    requires up != down
    requires Arrival(up).Returned? && Arrival(up).ret > 0 ==>
               && 4 + Arrival(up).ret <= |up.unread| && Arrival(up).ret < RECEIVE_BUFFER
               && IsRequest(RequestText(up.unread, Arrival(up).ret), '>')
    modifies up, down
    ensures overrun <==> old(Arrival(up)).Overrun?
    ensures !overrun ==>
              up.pos == old(up.pos) + old(Arrival(up)).taken && up.unread == old(up.unread)[old(Arrival(up)).taken..]
    ensures answered <==> !overrun && old(Arrival(up)).ret > 0
    ensures down.pos == old(down.pos)
    ensures !answered ==> down.unread == old(down.unread)
    ensures answered ==>
              down.unread == old(down.unread) + SendWire(down.sendPlan, old(down.pos + |down.unread|),
                FileReplyTo(root, RequestedPath(RequestText(old(up.unread), old(Arrival(up)).ret), '>')))
  {
    hide ReceiveMessage, SendWire, FileReplyTo, RequestedPath, IsRequest;
    var buffer := new char[RECEIVE_BUFFER];
    var received;
    received, overrun := TcpMessageReceive(up, buffer, CLAIMED_SIZE);
    if overrun {
      return false, true;
    }
    if received == -1 {
      return false, false;
    }
    if received == 0 {
      return false, false;
    }
    assert buffer[..received] == RequestText(old(up.unread), received);
    HandleClient(down, buffer, received, root);
    answered := true;
  }

  /** Whatever path is asked for: the content of the regular file that its components lead to, or the error text. */
  lemma FileReplyExactly(root: seq<Node>, path: string)
    requires path != ""
    ensures path[0] == '/' ==>
              FileReplyTo(root, path) ==
                match FileAt(root, Tokens(path, '/'))
                case Some(content) => content
                case None => "requested invalid directory"
    ensures path[0] != '/' ==> FileReplyTo(root, path) == "requested invalid directory"
  {
    hide Tokens, FileAt;
    if path[0] == '/' {
      SharedPathOf(path);
    } else {
      OutsideShare(path);
    }
  }

  /** What comes back for a path below the shared directory: the content of its regular file, or the error text. */
  function ContentAt(root: seq<Node>, path: seq<string>): string
  {
    match FileAt(root, path) case Some(content) => content case None => INVALID_DIRECTORY
  }

  /** The reply to the request for the file at a path; a path that holds a '>' is read only up to there. */
  function ServedFor(root: seq<Node>, path: seq<string>): string
    requires IsRequest(GET + FileText(path), '>')
  {
    FileReplyTo(root, RequestedPath(GET + FileText(path), '>'))
  }

  /** Every file request can be parsed. */
  lemma FileRequestParses(path: seq<string>)
    requires IsPath(path) && path != []
    ensures NUL !in FileText(path) && IsRequest(GET + FileText(path), '>')
  {
    PartsOfFileText(path);
    TokensNotEmpty(FileText(path), '>');
    GetRequest(FileText(path), '>');
  }

  /**
    The server answers the request for a file with exactly its content, and every other request with the error
    text.
   */
  lemma {:induction false} FileRequestAnswered(root: seq<Node>, path: seq<string>)
    requires IsPath(path) && path != [] && '>' !in FileText(path)
    ensures IsRequest(GET + FileText(path), '>') && ServedFor(root, path) == ContentAt(root, path)
    ensures FileAt(root, path).Some? ==> ServedFor(root, path) == FileAt(root, path).value
    ensures FileAt(root, path).None? ==> ServedFor(root, path) == "requested invalid directory"
  {
    var text := FileText(path);
    PartsOfFileText(path);
    TokensOfWord(text, '>');
    RequestUnderstood(text, '>');
    SharedPathOf(text);
  }
}
