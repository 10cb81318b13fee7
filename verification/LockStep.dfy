/**
  The walk as two concurrent processes over two byte streams, step by step: every step is one send, one recv
  or one piece of work of either side, and each call takes what its plan, its request and the stream allow.
  Calls can fail, and both sides then do what the program does.
 */
module LockStep {
  import opened Chunking
  import opened CommandClient
  import opened CommandServer
  import opened FileSystems
  import opened Framing
  import opened Listing
  import opened MessageQueues
  import opened Options
  import opened RemoteTree
  import opened SocketAddresses
  import opened Splitting
  import opened Transfers
  import opened Walk

  // ---- the two processes ----

  /** A directory whose listing has arrived: its path and the entries that are still to be handled. */
  datatype Level = Level(path: string, entries: seq<Entry>)

  /** Crashed: the program has written outside a buffer, and nothing more is known. */
  datatype Client = Asking(sender: Sender) | Waiting(got: string) | Working | Crashed

  /** Dropped: the socket is not watched any more. Halted: a request that the server cannot handle. */
  datatype Server = Serving(taken: string) | Answering(sender: Sender) | Dropped | Halted

  /**
    `path` is the directory being requested, and the innermost directory stands first on the stack. `failed`
    is no part of the program: some send or receive so far has not done what it was called for.
   */
  datatype State = State(client: Client, path: string, stack: seq<Level>, jobs: seq<Job>,
                         up: Wire, down: Wire, server: Server, failed: bool)

  /** What does not change during a walk; `view` is the tree that the server's answers show. */
  datatype World = World(root: seq<Node>, view: seq<Node>, local: map<Key, string>, address: Address, line: Line)

  function UpLink(w: World): Link { Link(w.line.upRecv, w.line.upSend, CLAIMED_SIZE, RECEIVE_BUFFER) }

  function DownLink(w: World): Link { Link(w.line.downRecv, w.line.downSend, LISTING_BUFFER, LISTING_BUFFER) }

  datatype Step = ClientStep | ServerStep

  predicate Enabled(w: World, s: State, step: Step)
  {
    match step
    case ClientStep =>
      (match s.client
       case Asking(_) => true
       case Waiting(_) => !Blocked(w.line.downRecv, s.down)
       case Working => s.stack != []
       case Crashed => false)
    case ServerStep =>
      match s.server
      case Serving(_) => !Blocked(w.line.upRecv, s.up)
      case Answering(_) => true
      case _ => false
  }

  /** Asks for a directory. */
  function Ask(s: State, path: string): State
  {
    s.(client := Asking(AtHeader(GET + path)), path := path)
  }

  /** Handles the next entry of the innermost listing, or leaves that listing. */
  function Work(w: World, s: State): State
    requires s.stack != []
  {
    var top, below := s.stack[0], s.stack[1..];
    if top.entries == [] then s.(stack := below)
    else
      var e, rest := top.entries[0], s.(stack := [top.(entries := top.entries[1..])] + below);
      if e.kind == 'D' then Ask(rest, top.path + e.name + "/")
      else if Tokens(BASE_PATH + top.path + e.name, '/') in w.local then rest
      else rest.(jobs := s.jobs + [DownloadFile(w.address, (BASE_PATH + top.path + e.name)[|BASE_PATH|..])])
  }

  /** The client has a listing in its buffer. */
  function Listed(s: State, text: string): State
  {
    s.(client := Working, stack := [Level(s.path, Parse(BeforeNul(text)))] + s.stack)
  }

  function Fail(s: State): State { s.(failed := true) }

  /** The wire behind a send of k bytes; a header of which less goes out has not been sent. */
  function Sent(wire: Wire, sender: Sender, k: nat): Wire
    requires match sender case AtHeader(_) => k <= 4 case AtBody(left) => k <= |left|
  {
    wire.(unread := wire.unread + Part(sender, k))
  }

  function ClientSends(w: World, s: State, sender: Sender): State
  {
    var k := SendCall(w.line.upSend, s.up, sender);
    if k < 0 then Fail(s.(client := Working))
    else if k == 0 then Fail(s.(client := Waiting("")))
    else
      s.(up := Sent(s.up, sender, k), failed := s.failed || (sender.AtHeader? && k < 4),
         client := match AfterSend(sender, k) case Some(more) => Asking(more) case None => Waiting(""))
  }

  /** A receive that returns 0 reads as an empty listing; -1 is used as an index into the buffer. */
  function ClientReceives(w: World, s: State, got: string): State
  {
    var (wire, progress) := RecvStep(w.line.downRecv, LISTING_BUFFER, LISTING_BUFFER, s.down, got);
    var s1 := s.(down := wire);
    match progress
    case Receiving(more) => s1.(client := Waiting(more))
    case Whole(text) => if |text| < LISTING_BUFFER then Listed(s1, text) else Fail(s1.(client := Crashed))
    case ReceiveFailed(ret) => if ret == 0 then Fail(Listed(s1, "")) else Fail(s1.(client := Crashed))
    case BufferLeft => Fail(s1.(client := Crashed))
  }

  function ClientNext(w: World, s: State): State
    requires Enabled(w, s, ClientStep)
  {
    match s.client
    case Asking(sender) => ClientSends(w, s, sender)
    case Waiting(got) => ClientReceives(w, s, got)
    case Working => Work(w, s)
  }

  /** A receive that returns 0 or -1 takes the socket off the watched set, and it is not closed. */
  function ServerReceives(w: World, s: State, taken: string): State
  {
    var (wire, progress) := RecvStep(w.line.upRecv, CLAIMED_SIZE, RECEIVE_BUFFER, s.up, taken);
    var s1 := s.(up := wire);
    match progress
    case Receiving(more) => s1.(server := Serving(more))
    case Whole(text) =>
      if text == "" then s1.(server := Dropped)
      else if CanAnswer(w.root, text) then
        s1.(server := Answering(AtHeader(ReplyTo(w.root, RequestedPath(text, ' ')))))
      else s1.(server := Halted)
    case ReceiveFailed(_) => Fail(s1.(server := Dropped))
    case BufferLeft => Fail(s1.(server := Halted))
  }

  /** A failed send is logged, and the server goes on. */
  function ServerSends(w: World, s: State, sender: Sender): State
  {
    var k := SendCall(w.line.downSend, s.down, sender);
    if k <= 0 then Fail(s.(server := Serving("")))
    else
      s.(down := Sent(s.down, sender, k), failed := s.failed || (sender.AtHeader? && k < 4),
         server := match AfterSend(sender, k) case Some(more) => Answering(more) case None => Serving(""))
  }

  function Next(w: World, s: State, step: Step): State
    requires Enabled(w, s, step)
  {
    match step
    case ClientStep => ClientNext(w, s)
    case ServerStep =>
      match s.server
      case Serving(taken) => ServerReceives(w, s, taken)
      case Answering(sender) => ServerSends(w, s, sender)
  }

  function Start(): State
  {
    Ask(State(Working, "", [], [], Wire("", 0), Wire("", 0), Serving(""), false), "/")
  }

  predicate Done(s: State) { s.client.Working? && s.stack == [] }

  // ---- the frame on its way ----

  /** The request between client and server. */
  function UpTransfer(s: State): Transfer
    requires s.server.Serving?
  {
    Transfer(s.up, match s.client case Asking(sender) => Some(sender) case _ => None, s.server.taken)
  }

  /** The reply between server and client. */
  function DownTransfer(s: State): Transfer
    requires s.client.Waiting?
  {
    Transfer(s.down, match s.server case Answering(sender) => Some(sender) case _ => None, s.client.got)
  }

  predicate UpForm(s: State) { s.server.Serving? && (s.client.Asking? || s.client.Waiting?) }

  predicate DownForm(s: State) { s.client.Waiting? && (s.server.Answering? || s.server.Serving?) }

  /** A turn of the transfer of a request is a step of the client or the server. */
  lemma UpTurn(w: World, s: State, turn: Turn)
    requires UpForm(s) && Possible(UpLink(w), UpTransfer(s), turn)
    ensures var step := if turn == SenderTurn then ClientStep else ServerStep;
            && Enabled(w, s, step)
            && match Move(UpLink(w), UpTransfer(s), turn)
               case Failed => Next(w, s, step).failed
               case Moving(t) =>
                 && UpForm(Next(w, s, step)) && UpTransfer(Next(w, s, step)) == t
                 && Next(w, s, step) == s.(up := t.wire, client := Next(w, s, step).client, server := Serving(t.got))
                 && Next(w, s, step).client == (match turn
                      case SenderTurn => (match t.out case Some(sender) => Asking(sender) case None => Waiting(""))
                      case ReceiverTurn => s.client)
               case Delivered(text, t) =>
                 CanAnswer(w.root, text) && text != "" ==>
                   Next(w, s, step)
                     == s.(up := t.wire, server := Answering(AtHeader(ReplyTo(w.root, RequestedPath(text, ' ')))))
  {
  }

  lemma DownTurn(w: World, s: State, turn: Turn)
    requires DownForm(s) && Possible(DownLink(w), DownTransfer(s), turn)
    ensures var step := if turn == SenderTurn then ServerStep else ClientStep;
            && Enabled(w, s, step)
            && match Move(DownLink(w), DownTransfer(s), turn)
               case Failed => Next(w, s, step).failed
               case Moving(t) =>
                 && DownForm(Next(w, s, step)) && DownTransfer(Next(w, s, step)) == t
                 && Next(w, s, step) == s.(down := t.wire, client := Waiting(t.got), server := Next(w, s, step).server)
                 && Next(w, s, step).server == (match turn
                      case SenderTurn => (match t.out case Some(sender) => Answering(sender) case None => Serving(""))
                      case ReceiverTurn => s.server)
               case Delivered(text, t) => |text| < LISTING_BUFFER ==>
                   Next(w, s, step) == Listed(s.(down := t.wire), text)
  {
  }

  // ---- what each side makes of a call that fails ----

  /** A closed connection reads as an empty listing and the walk goes on; an error leaves the client's buffer. */
  lemma EndOfReply(w: World, s: State)
    requires s.client.Waiting?
    ensures EventAt(w.line.downRecv, s.down.pos).Close? ==>
              && Enabled(w, s, ClientStep)
              && Next(w, s, ClientStep) == s.(client := Working, stack := [Level(s.path, [])] + s.stack, failed := true)
    ensures EventAt(w.line.downRecv, s.down.pos).Fail? ==>
              Enabled(w, s, ClientStep) && Next(w, s, ClientStep) == s.(client := Crashed, failed := true)
  {
    hide RequestSize, Decode;
    TokensOfEmpty('<');
    assert BeforeNul("") == "" && RecogniseAll([]) == [];
  }

  /** The server drops the socket in both cases, and does not close it. */
  lemma EndOfRequest(w: World, s: State)
    requires s.server.Serving? && !EventAt(w.line.upRecv, s.up.pos).Deliver?
    ensures Enabled(w, s, ServerStep) && Next(w, s, ServerStep) == s.(server := Dropped, failed := true)
  {
    hide RequestSize, Decode;
  }

  /** What the server makes of the bytes on the stream alone, until a request has been received or the call fails. */
  function ServerAlone(w: World, s: State): State
    requires s.server.Serving?
    decreases |s.up.unread|
  {
    var s' := ServerReceives(w, s, s.server.taken);
    if s'.server.Serving? then ServerAlone(w, s') else s'
  }

  /** The server's receiving steps are its receive call and the decision of CommandServer.ServeReadySocket. */
  lemma ServerStepsAreTheCall(w: World, s: State)
    requires s.server == Serving("")
    ensures var run := ReceiveMessage(w.line.upRecv, s.up.pos, s.up.unread, CLAIMED_SIZE, RECEIVE_BUFFER);
            var s' := ServerAlone(w, s);
            && (run.Overrun? ==> s'.server == Halted)
            && (run.Returned? ==> s'.up == Wire(s.up.unread[run.taken..], s.up.pos + run.taken))
            && (run.Returned? && run.ret <= 0 ==> s'.server == Dropped)
            && (run.Returned? && run.ret > 0 ==>
                  && 4 + run.ret <= |s.up.unread|
                  && var text := RequestText(s.up.unread, run.ret);
                     s'.server == if CanAnswer(w.root, text)
                                  then Answering(AtHeader(ReplyTo(w.root, RequestedPath(text, ' ')))) else Halted)
  {
    hide ReceiveMessage, ReceiveAlone, ServerAlone, CanAnswer, ReplyTo, RequestedPath;
    var stream := s.up.unread;
    AloneIsMessage(w.line.upRecv, s.up.pos, stream, CLAIMED_SIZE, RECEIVE_BUFFER);
    assert stream[0..] == stream && stream[..0] == "";
    ServerAloneFrom(w, s, stream, s.up.pos, 0);
  }

  lemma {:induction false} ServerAloneFrom(w: World, s: State, stream: string, pos: nat, j: nat)
    requires j <= |stream| && s.up == Wire(stream[j..], pos + j) && s.server == Serving(stream[..j])
    ensures var run := ReceiveAlone(w.line.upRecv, CLAIMED_SIZE, RECEIVE_BUFFER, s.up, stream[..j]);
            var s' := ServerAlone(w, s);
            && (run.Overrun? ==> s'.server == Halted)
            && (run.Returned? ==> run.taken <= |stream| && s'.up == Wire(stream[run.taken..], pos + run.taken))
            && (run.Returned? && run.ret <= 0 ==> s'.server == Dropped)
            && (run.Returned? && run.ret > 0 ==>
                  && 4 + run.ret <= |stream|
                  && var text := RequestText(stream, run.ret);
                     s'.server == if CanAnswer(w.root, text)
                                  then Answering(AtHeader(ReplyTo(w.root, RequestedPath(text, ' ')))) else Halted)
    decreases |stream| - j
  {
    hide RecvStep, CanAnswer, ReplyTo, RequestedPath;
    RecvAt(w.line.upRecv, CLAIMED_SIZE, RECEIVE_BUFFER, stream, pos, j);
    RecvFails(w.line.upRecv, CLAIMED_SIZE, RECEIVE_BUFFER, s.up, stream[..j]);
    var (wire, progress) := RecvStep(w.line.upRecv, CLAIMED_SIZE, RECEIVE_BUFFER, s.up, stream[..j]);
    if progress.Receiving? {
      ServerAloneFrom(w, ServerReceives(w, s, stream[..j]), stream, pos, |progress.got|);
    }
  }

  /** One recv of a receiver that has taken the first j bytes of a stream. */
  lemma RecvAt(plan: RecvPlan, size: nat, room: nat, stream: string, pos: nat, j: nat)
    requires j <= |stream|
    ensures var (wire, progress) := RecvStep(plan, size, room, Wire(stream[j..], pos + j), stream[..j]);
            var taken := j + |stream[j..]| - |wire.unread|;
            && j <= taken <= |stream| && wire == Wire(stream[taken..], pos + taken)
            && (progress.Receiving? ==> j < taken && progress.got == stream[..taken])
            && (progress.Whole? ==> 4 + |progress.message| == taken && progress.message == stream[4..taken])
  {
    hide Decode, RequestSize;
    AloneStep(plan, pos, stream, size, room, j);
    var request := if j < 4 then RequestSize(4, 4, j) else RequestSize(size, Decode(stream[..4]), j - 4);
    var k := RecvAmount(EventAt(plan, pos + j), |stream| - j, request);
    if k > 0 {
      assert |stream[..j + k]| == j + k && |stream[j + k..]| == |stream| - j - k;
      if j + k >= 4 { assert stream[..j + k][4..] == stream[4..j + k]; }
    }
  }

  /** What the client makes of the bytes on the stream alone. */
  function ClientAlone(w: World, s: State): State
    requires s.client.Waiting?
    decreases |s.down.unread|
  {
    var s' := ClientReceives(w, s, s.client.got);
    if s'.client.Waiting? then ClientAlone(w, s') else s'
  }

  /** What a received listing is read as: a C string, in a buffer that needs room for its terminator. */
  predicate ReadAs(s: State, s': State, text: string)
  {
    if |text| < LISTING_BUFFER then
      s'.client == Working && s'.stack == [Level(s.path, Parse(BeforeNul(text)))] + s.stack
    else s'.client == Crashed
  }

  /**
    The client's receiving steps are its receive call: a 0 reads as the empty listing, and -1, an overrun or a
    listing that fills the buffer leaves the buffer.
   */
  lemma ClientStepsAreTheCall(w: World, s: State)
    requires s.client == Waiting("")
    ensures var run := ReceiveMessage(w.line.downRecv, s.down.pos, s.down.unread, LISTING_BUFFER, LISTING_BUFFER);
            var s' := ClientAlone(w, s);
            && (run.Overrun? || run.ret < 0 ==> s'.client == Crashed)
            && (run.Returned? ==> s'.down == Wire(s.down.unread[run.taken..], s.down.pos + run.taken))
            && (run.Returned? && run.ret >= 0 ==>
                  4 + run.ret <= |s.down.unread| || run.ret == 0)
            && (run.Returned? && run.ret >= 0 ==>
                  ReadAs(s, s', if run.ret == 0 then "" else s.down.unread[4..4 + run.ret]))
  {
    hide ReceiveMessage, ReceiveAlone, ClientAlone, ReadAs;
    var stream := s.down.unread;
    AloneIsMessage(w.line.downRecv, s.down.pos, stream, LISTING_BUFFER, LISTING_BUFFER);
    assert stream[0..] == stream && stream[..0] == "";
    ClientAloneFrom(w, s, stream, s.down.pos, 0);
  }

  lemma {:induction false} ClientAloneFrom(w: World, s: State, stream: string, pos: nat, j: nat)
    requires j <= |stream| && s.down == Wire(stream[j..], pos + j) && s.client == Waiting(stream[..j])
    ensures var run := ReceiveAlone(w.line.downRecv, LISTING_BUFFER, LISTING_BUFFER, s.down, stream[..j]);
            var s' := ClientAlone(w, s);
            && (run.Overrun? || run.ret < 0 ==> s'.client == Crashed)
            && (run.Returned? ==> run.taken <= |stream| && s'.down == Wire(stream[run.taken..], pos + run.taken))
            && (run.Returned? && run.ret >= 0 ==> 4 + run.ret <= |stream| || run.ret == 0)
            && (run.Returned? && run.ret >= 0 ==>
                  ReadAs(s, s', if run.ret == 0 then "" else stream[4..4 + run.ret]))
    decreases |stream| - j
  {
    hide RecvStep, Parse, BeforeNul;
    RecvAt(w.line.downRecv, LISTING_BUFFER, LISTING_BUFFER, stream, pos, j);
    RecvFails(w.line.downRecv, LISTING_BUFFER, LISTING_BUFFER, s.down, stream[..j]);
    var (wire, progress) := RecvStep(w.line.downRecv, LISTING_BUFFER, LISTING_BUFFER, s.down, stream[..j]);
    if progress.Receiving? {
      ClientAloneFrom(w, ClientReceives(w, s, stream[..j]), stream, pos, |progress.got|);
    }
  }

  lemma RecvFails(plan: RecvPlan, size: nat, room: nat, wire: Wire, got: string)
    ensures var (_, progress) := RecvStep(plan, size, room, wire, got);
            progress.ReceiveFailed? ==> progress.ret == 0 || progress.ret == -1
  {
    hide Decode, RequestSize;
  }

  /**
    A client whose send fails leaves the directory out if the result is negative, and waits for a reply if it is 0;
    the server goes on with the next request in both cases.
   */
  lemma SendFails(w: World, s: State)
    ensures s.client.Asking? && AcceptedAt(w.line.upSend, EndOf(s.up)) < 0 ==>
              Next(w, s, ClientStep) == s.(client := Working, failed := true)
    ensures s.client.Asking? && AcceptedAt(w.line.upSend, EndOf(s.up)) == 0 && Rest(s.client.sender) != "" ==>
              Next(w, s, ClientStep) == s.(client := Waiting(""), failed := true)
    ensures s.server.Answering? && AcceptedAt(w.line.downSend, EndOf(s.down)) <= 0 ==>
              Next(w, s, ServerStep) == s.(server := Serving(""), failed := true)
  {
  }

  // ---- runs ----

  predicate IsRun(w: World, s: State, steps: seq<Step>)
    decreases |steps|
  {
    steps == [] || (Enabled(w, s, steps[0]) && IsRun(w, Next(w, s, steps[0]), steps[1..]))
  }

  function After(w: World, s: State, steps: seq<Step>): State
    requires IsRun(w, s, steps)
    decreases |steps|
  {
    if steps == [] then s else After(w, Next(w, s, steps[0]), steps[1..])
  }

  /** Some run from here on fails. */
  ghost predicate MayFail(w: World, s: State)
  {
    exists steps :: IsRun(w, s, steps) && After(w, s, steps).failed
  }

  lemma FailsNow(w: World, s: State)
    requires s.failed
    ensures MayFail(w, s)
  {
    assert IsRun(w, s, []) && After(w, s, []).failed;
  }

  lemma FailsNext(w: World, s: State, step: Step)
    requires Enabled(w, s, step) && MayFail(w, Next(w, s, step))
    ensures MayFail(w, s)
  {
    hide Enabled, Next;
    var steps :| IsRun(w, Next(w, s, step), steps) && After(w, Next(w, s, step), steps).failed;
    assert ([step] + steps)[1..] == steps && ([step] + steps)[0] == step;
    assert IsRun(w, s, [step] + steps) && After(w, s, [step] + steps).failed;
  }

  /** A schedule of a single transfer that fails is part of a run. */
  lemma {:induction false} UpCanFail(w: World, s: State, turns: seq<Turn>)
    requires UpForm(s) && Fails(UpLink(w), UpTransfer(s), turns)
    ensures MayFail(w, s)
    decreases |turns|
  {
    hide Enabled, Next, Move, Possible, UpTransfer, MayFail;
    var step := if turns[0] == SenderTurn then ClientStep else ServerStep;
    UpTurn(w, s, turns[0]);
    if Move(UpLink(w), UpTransfer(s), turns[0]).Failed? {
      FailsNow(w, Next(w, s, step));
    } else {
      UpCanFail(w, Next(w, s, step), turns[1..]);
    }
    FailsNext(w, s, step);
  }

  lemma {:induction false} DownCanFail(w: World, s: State, turns: seq<Turn>)
    requires DownForm(s) && Fails(DownLink(w), DownTransfer(s), turns)
    ensures MayFail(w, s)
    decreases |turns|
  {
    hide Enabled, Next, Move, Possible, DownTransfer, MayFail;
    var step := if turns[0] == SenderTurn then ServerStep else ClientStep;
    DownTurn(w, s, turns[0]);
    if Move(DownLink(w), DownTransfer(s), turns[0]).Failed? {
      FailsNow(w, Next(w, s, step));
    } else {
      DownCanFail(w, Next(w, s, step), turns[1..]);
    }
    FailsNext(w, s, step);
  }

  // ---- what is still to come ----

  /** Where a listing comes from: the directory, its nodes, and the first node that is still to be handled. */
  datatype Spot = Spot(dir: seq<string>, nodes: seq<Node>, j: nat)

  /** Jobs, requests and replies that are still to come. */
  datatype Todo = Todo(jobs: seq<Job>, requests: seq<string>, replies: seq<string>)

  function Plus(a: Todo, b: Todo): Todo
  {
    Todo(a.jobs + b.jobs, a.requests + b.requests, a.replies + b.replies)
  }

  const NOTHING := Todo([], [], [])

  /** What the nodes of a directory contribute once its listing has arrived. */
  function TodoBelow(w: World, dir: seq<string>, nodes: seq<Node>): Todo
  {
    Todo(WalkJobs(w.address, dir, nodes, w.local), RequestsBelow(dir, nodes), RepliesBelow(w.root, dir, nodes))
  }

  function TodoOfNode(w: World, dir: seq<string>, n: Node): Todo
  {
    Todo(NodeJobs(w.address, dir, n, w.local), NodeRequests(dir, n), NodeReplies(w.root, dir, n))
  }

  function TodoAt(w: World, spot: Spot): Todo
  {
    if spot.j <= |spot.nodes| then TodoBelow(w, spot.dir, spot.nodes[spot.j..]) else NOTHING
  }

  function Pending(w: World, spots: seq<Spot>): Todo
  {
    if spots == [] then NOTHING else Plus(TodoAt(w, spots[0]), Pending(w, spots[1..]))
  }

  ghost predicate LevelOk(w: World, l: Level, at: Spot)
  {
    && at.j <= |at.nodes| && Shown(w.root, at.dir, at.nodes)
    && l.path == DirText(at.dir) && l.entries == Entries(at.nodes[at.j..])
  }

  ghost predicate StackOk(w: World, stack: seq<Level>, spots: seq<Spot>)
  {
    |stack| == |spots| && forall i :: 0 <= i < |stack| ==> LevelOk(w, stack[i], spots[i])
  }

  /** What is still to come of the directory being requested, from its listing on, and of those on the stack. */
  function Left(w: World, s: State, current: Spot, spots: seq<Spot>): Todo
  {
    if s.client.Working? then Pending(w, spots) else Plus(TodoBelow(w, current.dir, current.nodes), Pending(w, spots))
  }

  // ---- the invariant ----

  /** One frame, and nothing else, is on its way: the request of the current directory, or its reply, or neither. */
  ghost predicate OneFrame(w: World, s: State, request: string, reply: string)
  {
    match s.client
    case Asking(_) =>
      s.server.Serving? && s.down.unread == "" && InFlight(UpLink(w), UpTransfer(s), request)
    case Waiting(got) =>
      || (s.server.Serving? && got == "" && s.down.unread == "" && s.up.unread != "" &&
          InFlight(UpLink(w), UpTransfer(s), request))
      || ((s.server.Answering? || s.server == Serving("")) && s.up.unread == "" &&
          InFlight(DownLink(w), DownTransfer(s), reply))
    case Working =>
      s.up.unread == "" && s.down.unread == "" && s.server == Serving("")
    case Crashed => false
  }

  /**
    As long as nothing has failed: one frame on its way, and all jobs of the walk queued or still to come, in
    this order.
   */
  ghost predicate Inv(w: World, s: State, current: Spot, spots: seq<Spot>)
  {
    && !s.failed && StackOk(w, s.stack, spots)
    && (!s.client.Working? ==> Shown(w.root, current.dir, current.nodes) && s.path == DirText(current.dir))
    && OneFrame(w, s, Walk.Request(current.dir), Answer(w.root, current.dir))
    && s.jobs + Left(w, s, current, spots).jobs == WalkJobs(w.address, [], w.view, w.local)
  }

  // ---- the traffic ahead ----

  /** All these frames get through, in every interleaving, if the first one starts at position pos of its stream. */
  ghost predicate Passable(recvPlan: RecvPlan, sendPlan: SendPlan, pos: nat, frames: seq<string>, size: nat,
                           listening: bool)
    decreases |frames|
  {
    if frames == [] then listening ==> EventAt(recvPlan, pos).Deliver?
    else
      && FrameAlwaysOk(recvPlan, sendPlan, pos, |frames[0]|, size)
      && Passable(recvPlan, sendPlan, pos + 4 + |frames[0]|, frames[1..], size, listening)
  }

  /** The position at which the next frame of a stream starts. */
  function NextStart(wire: Wire, sender: Option<Sender>): nat
  {
    EndOf(wire) + match sender case Some(AtBody(left)) => |left| case _ => 0
  }

  /** The requests whose sending has not begun. */
  function RequestsAhead(w: World, s: State, current: Spot, spots: seq<Spot>): seq<string>
  {
    (if s.client.Asking? && s.client.sender.AtHeader? then [Walk.Request(current.dir)] else [])
    + Left(w, s, current, spots).requests
  }

  /** The reply to the current request has not begun. */
  predicate ReplyAhead(s: State)
  {
    s.client.Asking? || (s.client.Waiting? && (s.up.unread != "" || (s.server.Answering? && s.server.sender.AtHeader?)))
  }

  function RepliesAhead(w: World, s: State, current: Spot, spots: seq<Spot>): seq<string>
  {
    (if ReplyAhead(s) then [Answer(w.root, current.dir)] else []) + Left(w, s, current, spots).replies
  }

  function StartOfRequest(s: State): nat { NextStart(s.up, if s.client.Asking? then Some(s.client.sender) else None) }

  function StartOfReply(s: State): nat
  {
    NextStart(s.down, if s.server.Answering? then Some(s.server.sender) else None)
  }

  ghost predicate UpAhead(w: World, s: State, current: Spot, spots: seq<Spot>)
  {
    Passable(w.line.upRecv, w.line.upSend, StartOfRequest(s), RequestsAhead(w, s, current, spots), CLAIMED_SIZE, true)
  }

  ghost predicate DownAhead(w: World, s: State, current: Spot, spots: seq<Spot>)
  {
    Passable(w.line.downRecv, w.line.downSend, StartOfReply(s),
             RepliesAhead(w, s, current, spots), LISTING_BUFFER, false)
  }

  /** All traffic that has not begun gets through. */
  ghost predicate AheadOk(w: World, s: State, current: Spot, spots: seq<Spot>)
  {
    UpAhead(w, s, current, spots) && DownAhead(w, s, current, spots)
  }

  /** The frame that this step begins gets through. */
  ghost predicate BeginsOk(w: World, s: State, step: Step)
  {
    match step
    case ClientStep =>
      s.client.Asking? && s.client.sender.AtHeader? ==>
        FrameAlwaysOk(w.line.upRecv, w.line.upSend, EndOf(s.up), |s.client.sender.payload|, CLAIMED_SIZE)
    case ServerStep =>
      s.server.Answering? && s.server.sender.AtHeader? ==>
        FrameAlwaysOk(w.line.downRecv, w.line.downSend, EndOf(s.down), |s.server.sender.payload|, LISTING_BUFFER)
  }

  // ---- termination ----

  /** A bound on the steps that a directory costs from the request on: every byte is sent once and received once. */
  function Cost(root: seq<Node>, dir: seq<string>, nodes: seq<Node>): nat
    decreases nodes, 1
  {
    2 * |Frame(Walk.Request(dir))| + 2 * |Frame(Answer(root, dir))| + CostBelow(root, dir, nodes)
  }

  function CostBelow(root: seq<Node>, dir: seq<string>, nodes: seq<Node>): nat
    decreases nodes, 0
  {
    if nodes == [] then 1 else CostOfNode(root, dir, nodes[0]) + CostBelow(root, dir, nodes[1..])
  }

  function CostOfNode(root: seq<Node>, dir: seq<string>, n: Node): nat
    decreases n
  {
    match n
    case File(_, _, _) => 1
    case Dir(name, _, children) => 1 + Cost(root, dir + [name], children)
    case Special(_) => 0
  }

  function CostOfStack(root: seq<Node>, spots: seq<Spot>): nat
  {
    if spots == [] then 0
    else (if spots[0].j <= |spots[0].nodes| then CostBelow(root, spots[0].dir, spots[0].nodes[spots[0].j..]) else 0)
         + CostOfStack(root, spots[1..])
  }

  /** The steps that the frame on its way still costs. */
  function CostOfFrame(s: State, reply: string): nat
  {
    if s.client.Working? || s.client.Crashed? then 0
    else if s.server.Serving? && (s.client.Asking? || s.up.unread != "") then Size(UpTransfer(s)) + 2 * |Frame(reply)|
    else if s.client.Waiting? then Size(DownTransfer(s))
    else 0
  }

  function Weight(w: World, s: State, current: Spot, spots: seq<Spot>): nat
  {
    CostOfFrame(s, Answer(w.root, current.dir))
    + (if s.client.Working? then 0 else CostBelow(w.root, current.dir, current.nodes))
    + CostOfStack(w.root, spots)
  }

  lemma {:induction false} CostSkip(root: seq<Node>, dir: seq<string>, nodes: seq<Node>, k: nat)
    requires k <= |nodes| && forall i :: 0 <= i < k ==> nodes[i].Special?
    ensures CostBelow(root, dir, nodes) == CostBelow(root, dir, nodes[k..])
  {
    if k > 0 {
      assert nodes[1..][k - 1..] == nodes[k..];
      assert forall i :: 0 <= i < k - 1 ==> nodes[1..][i] == nodes[i + 1];
      CostSkip(root, dir, nodes[1..], k - 1);
    } else {
      assert nodes[0..] == nodes;
    }
  }

  lemma {:induction false} NothingLeft(root: seq<Node>, dir: seq<string>, nodes: seq<Node>)
    ensures CostBelow(root, dir, nodes) >= 1
  {
    if nodes != [] { NothingLeft(root, dir, nodes[1..]); }
  }

  // ---- one step ----

  /** What the invariant says about the directory that is being requested: its sizes, its answer and its entries. */
  lemma CurrentFacts(w: World, current: Spot)
    requires Shown(w.root, current.dir, current.nodes)
    ensures var request, reply := Walk.Request(current.dir), Answer(w.root, current.dir);
            && OkLink(UpLink(w), request) && OkLink(DownLink(w), reply) && |reply| < LISTING_BUFFER
            && request != "" && CanAnswer(w.root, request) && ReplyTo(w.root, RequestedPath(request, ' ')) == reply
            && BeforeNul(reply) == reply && Parse(reply) == Entries(current.nodes)
  {
    AnswerIsText(w.root, current.dir);
    PartsOfDirText(current.dir);
  }

  /** The invariant after a step that has not failed, and what the step did to the traffic ahead and to the cost. */
  ghost predicate Kept(w: World, s: State, step: Step, current: Spot, spots: seq<Spot>, current': Spot,
                       spots': seq<Spot>)
    requires Enabled(w, s, step)
  {
    && Inv(w, Next(w, s, step), current', spots')
    && Weight(w, Next(w, s, step), current', spots') < Weight(w, s, current, spots)
    && (AheadOk(w, s, current, spots) <==> BeginsOk(w, s, step) && AheadOk(w, Next(w, s, step), current', spots'))
  }

  /** A recv on an empty stream that does not block fails. */
  lemma NothingToReceive(w: World, s: State, step: Step)
    requires Enabled(w, s, step)
    requires || (step == ClientStep && s.client.Waiting? && s.down.unread == "")
             || (step == ServerStep && s.server.Serving? && s.up.unread == "")
    ensures Next(w, s, step).failed
  {
  }

  lemma PassableFirst(recvPlan: RecvPlan, sendPlan: SendPlan, pos: nat, first: string, rest: seq<string>, size: nat,
                      listening: bool)
    ensures Passable(recvPlan, sendPlan, pos, [first] + rest, size, listening) <==>
              FrameAlwaysOk(recvPlan, sendPlan, pos, |first|, size) &&
              Passable(recvPlan, sendPlan, pos + 4 + |first|, rest, size, listening)
  {
    assert ([first] + rest)[1..] == rest;
  }

  /** What a send of the client does that does not fail. */
  lemma AskingStep(w: World, s: State, request: string) returns (s': State)
    requires s.client.Asking? && s.server.Serving? && !s.failed && !Next(w, s, ClientStep).failed
    requires OkLink(UpLink(w), request) && InFlight(UpLink(w), UpTransfer(s), request)
    ensures s' == Next(w, s, ClientStep) && s' == s.(up := s'.up, client := s'.client)
    ensures s'.client.Asking? || (s'.client == Waiting("") && s'.up.unread != "")
    ensures InFlight(UpLink(w), UpTransfer(s'), request) && Size(UpTransfer(s')) < Size(UpTransfer(s))
    ensures s.client.sender.AtHeader? ==> s.client.sender.payload == request && s.up.unread == ""
    ensures !(s'.client.Asking? && s'.client.sender.AtHeader?)
    ensures StartOfRequest(s') == StartOfRequest(s) + if s.client.sender.AtHeader? then 4 + |request| else 0
  {
    hide InFlight, Move, Size, Next, OkLink;
    UpTurn(w, s, SenderTurn);
    InFlightMoves(UpLink(w), UpTransfer(s), request, SenderTurn);
    SenderGoesOn(UpLink(w), UpTransfer(s));
    s' := Next(w, s, ClientStep);
    Sizes(UpLink(w), request);
    EndOfFrame(UpLink(w), UpTransfer(s), request);
    EndOfFrame(UpLink(w), UpTransfer(s'), request);
  }

  lemma Sizes(link: Link, payload: string)
    requires OkLink(link, payload)
    ensures |payload| < UINT32
  {
  }

  lemma SenderGoesOn(link: Link, t: Transfer)
    requires t.out.Some? && Move(link, t, SenderTurn).Moving?
    ensures var next := Move(link, t, SenderTurn).t; next.got == t.got && (next.out.Some? ==> next.out.value.AtBody?)
  {
  }

  /** The traffic ahead does not change. */
  lemma SameAhead(w: World, s: State, current: Spot, spots: seq<Spot>, s': State, current': Spot, spots': seq<Spot>)
    requires StartOfRequest(s') == StartOfRequest(s)
    requires RequestsAhead(w, s', current', spots') == RequestsAhead(w, s, current, spots)
    requires StartOfReply(s') == StartOfReply(s)
    requires RepliesAhead(w, s', current', spots') == RepliesAhead(w, s, current, spots)
    ensures AheadOk(w, s, current, spots) <==> AheadOk(w, s', current', spots')
  {
    hide StartOfRequest, StartOfReply, RequestsAhead, RepliesAhead, Passable;
  }

  /** The first request ahead has begun. */
  lemma RequestBegins(w: World, s: State, current: Spot, spots: seq<Spot>, s': State)
    requires s.client.Asking? && s.client.sender.AtHeader? && s.client.sender.payload == Walk.Request(current.dir)
    requires !s'.client.Working? && !(s'.client.Asking? && s'.client.sender.AtHeader?)
    requires StartOfRequest(s') == StartOfRequest(s) + 4 + |Walk.Request(current.dir)|
    requires StartOfReply(s') == StartOfReply(s) && ReplyAhead(s) == ReplyAhead(s')
    ensures AheadOk(w, s, current, spots) <==> BeginsOk(w, s, ClientStep) && AheadOk(w, s', current, spots)
  {
    hide Passable, Walk.Request, Answer, TodoBelow, Pending, FrameAlwaysOk, StartOfReply;
    LeftSame(w, s, s', current, spots);
    var rest := Left(w, s, current, spots).requests;
    assert RequestsAhead(w, s, current, spots) == [Walk.Request(current.dir)] + rest;
    assert RequestsAhead(w, s', current, spots) == rest;
    PassableFirst(w.line.upRecv, w.line.upSend, EndOf(s.up), Walk.Request(current.dir), rest, CLAIMED_SIZE, true);
  }

  /** The client sends a part of its request. */
  lemma KeptByAsking(w: World, s: State, current: Spot, spots: seq<Spot>)
    requires Inv(w, s, current, spots) && s.client.Asking? && !Next(w, s, ClientStep).failed
    ensures Kept(w, s, ClientStep, current, spots, current, spots)
  {
    hide Cost, CostBelow, CostOfStack, Pending, TodoBelow, WalkJobs, Shown, Frame, Walk.Request, Answer, DirText,
         StackOk, InFlight, Size, FrameAlwaysOk, Passable, Next, Left, UpTransfer, DownTransfer, AheadOk,
         StartOfRequest, RequestsAhead, RepliesAhead, OkLink, Enabled, CanAnswer, ReplyTo, RequestedPath, Parse,
         Entries, BeforeNul;
    CurrentFacts(w, current);
    var s' := AskingStep(w, s, Walk.Request(current.dir));
    LeftSame(w, s, s', current, spots);
    if s.client.sender.AtHeader? {
      RequestBegins(w, s, current, spots, s');
    } else {
      NotBeginning(w, s, s', current, spots);
      SameAhead(w, s, current, spots, s', current, spots);
    }
  }

  lemma LeftSame(w: World, s: State, s': State, current: Spot, spots: seq<Spot>)
    requires s.client.Working? <==> s'.client.Working?
    ensures Left(w, s, current, spots) == Left(w, s', current, spots)
  {
  }

  /** Neither the request nor the reply begins. */
  lemma NotBeginning(w: World, s: State, s': State, current: Spot, spots: seq<Spot>)
    requires s.client.Working? <==> s'.client.Working?
    requires (s.client.Asking? && s.client.sender.AtHeader?) <==> (s'.client.Asking? && s'.client.sender.AtHeader?)
    requires ReplyAhead(s) <==> ReplyAhead(s')
    ensures RequestsAhead(w, s', current, spots) == RequestsAhead(w, s, current, spots)
    ensures RepliesAhead(w, s', current, spots) == RepliesAhead(w, s, current, spots)
  {
    LeftSame(w, s, s', current, spots);
  }

  /** What a recv of the server does that does not fail: it takes a part of the request, or the rest of it. */
  lemma ServingStep(w: World, s: State, request: string) returns (s': State)
    requires UpForm(s) && !s.failed && Enabled(w, s, ServerStep) && !Next(w, s, ServerStep).failed
    requires OkLink(UpLink(w), request) && InFlight(UpLink(w), UpTransfer(s), request)
    requires request != "" && CanAnswer(w.root, request)
    ensures s' == Next(w, s, ServerStep) && s' == s.(up := s'.up, server := s'.server) && EndOf(s'.up) == EndOf(s.up)
    ensures s'.server.Serving? || s'.server == Answering(AtHeader(ReplyTo(w.root, RequestedPath(request, ' '))))
    ensures s'.server.Serving? ==>
              && InFlight(UpLink(w), UpTransfer(s'), request) && Size(UpTransfer(s')) < Size(UpTransfer(s))
              && (s.client.Waiting? ==> s'.up.unread != "")
    ensures s'.server.Answering? ==> s.client.Waiting? && s'.up.unread == ""
  {
    hide InFlight, Move, Size, Next, OkLink, CanAnswer;
    UpTurn(w, s, ReceiverTurn);
    InFlightMoves(UpLink(w), UpTransfer(s), request, ReceiverTurn);
    ReceiverGoesOn(UpLink(w), UpTransfer(s));
    s' := Next(w, s, ServerStep);
    Sizes(UpLink(w), request);
    EndOfFrame(UpLink(w), UpTransfer(s), request);
    if s'.server.Serving? { EndOfFrame(UpLink(w), UpTransfer(s'), request); }
  }

  lemma ReceiverGoesOn(link: Link, t: Transfer)
    requires Possible(link, t, ReceiverTurn)
    ensures Move(link, t, ReceiverTurn).Moving? ==> Move(link, t, ReceiverTurn).t.out == t.out
  {
  }

  /** The server receives a part of the request, or the rest of it. */
  lemma KeptByServing(w: World, s: State, current: Spot, spots: seq<Spot>)
    requires Inv(w, s, current, spots) && s.server.Serving? && Enabled(w, s, ServerStep)
    requires !Next(w, s, ServerStep).failed
    ensures Kept(w, s, ServerStep, current, spots, current, spots)
  {
    hide Cost, CostBelow, CostOfStack, Pending, TodoBelow, WalkJobs, Shown, Frame, Walk.Request, Answer, DirText,
         StackOk, InFlight, Size, FrameAlwaysOk, Passable, Next, Left, AheadOk, StartOfReply, RequestsAhead,
         RepliesAhead, OkLink, Enabled, ReplyTo, RequestedPath, CanAnswer;
    if s.up.unread == "" { NothingToReceive(w, s, ServerStep); }
    CurrentFacts(w, current);
    var s' := ServingStep(w, s, Walk.Request(current.dir));
    if s'.server.Answering? {
      AtStart(DownLink(w), s.down, Answer(w.root, current.dir));
      StartWeighs(s.down, Answer(w.root, current.dir));
      SomethingLeft(UpLink(w), UpTransfer(s), Walk.Request(current.dir));
    }
    LeftSame(w, s, s', current, spots);
    NotBeginning(w, s, s', current, spots);
    StartOfReplySame(s, s');
    SameAhead(w, s, current, spots, s', current, spots);
  }

  lemma StartWeighs(wire: Wire, payload: string)
    requires wire.unread == ""
    ensures Size(Transfer(wire, Some(AtHeader(payload)), "")) == 2 * |Frame(payload)|
  {
  }

  lemma SomethingLeft(link: Link, t: Transfer, payload: string)
    requires OkLink(link, payload) && InFlight(link, t, payload)
    ensures Size(t) > 0
  {
    FrameBytes(payload);
  }

  lemma StartOfReplySame(s: State, s': State)
    requires s.down == s'.down && !(s.server.Answering? && s.server.sender.AtBody?)
    requires !(s'.server.Answering? && s'.server.sender.AtBody?)
    ensures StartOfReply(s) == StartOfReply(s')
  {
  }

  /** What a send of the server does that does not fail. */
  lemma AnsweringStep(w: World, s: State, reply: string) returns (s': State)
    requires s.server.Answering? && s.client.Waiting? && !s.failed && !Next(w, s, ServerStep).failed
    requires OkLink(DownLink(w), reply) && InFlight(DownLink(w), DownTransfer(s), reply)
    ensures s' == Next(w, s, ServerStep) && s' == s.(down := s'.down, server := s'.server)
    ensures s'.server.Answering? || s'.server == Serving("")
    ensures InFlight(DownLink(w), DownTransfer(s'), reply) && Size(DownTransfer(s')) < Size(DownTransfer(s))
    ensures s.server.sender.AtHeader? ==> s.server.sender.payload == reply && s.down.unread == ""
    ensures !(s'.server.Answering? && s'.server.sender.AtHeader?)
    ensures StartOfReply(s') == StartOfReply(s) + if s.server.sender.AtHeader? then 4 + |reply| else 0
  {
    hide InFlight, Move, Size, Next, OkLink;
    DownTurn(w, s, SenderTurn);
    InFlightMoves(DownLink(w), DownTransfer(s), reply, SenderTurn);
    SenderGoesOn(DownLink(w), DownTransfer(s));
    s' := Next(w, s, ServerStep);
    Sizes(DownLink(w), reply);
    EndOfFrame(DownLink(w), DownTransfer(s), reply);
    EndOfFrame(DownLink(w), DownTransfer(s'), reply);
  }

  /** The first reply ahead has begun. */
  lemma ReplyBegins(w: World, s: State, current: Spot, spots: seq<Spot>, s': State)
    requires s.server.Answering? && s.server.sender.AtHeader? && s.server.sender.payload == Answer(w.root, current.dir)
    requires s.client.Waiting? && s'.client.Waiting? && ReplyAhead(s) && !ReplyAhead(s')
    requires StartOfReply(s') == StartOfReply(s) + 4 + |Answer(w.root, current.dir)|
    requires StartOfRequest(s') == StartOfRequest(s)
    ensures AheadOk(w, s, current, spots) <==> BeginsOk(w, s, ServerStep) && AheadOk(w, s', current, spots)
  {
    hide Passable, Walk.Request, Answer, TodoBelow, Pending, FrameAlwaysOk, StartOfRequest, ReplyAhead;
    LeftSame(w, s, s', current, spots);
    var rest := Left(w, s, current, spots).replies;
    assert RepliesAhead(w, s, current, spots) == [Answer(w.root, current.dir)] + rest;
    assert RepliesAhead(w, s', current, spots) == rest;
    PassableFirst(w.line.downRecv, w.line.downSend, EndOf(s.down), Answer(w.root, current.dir), rest, LISTING_BUFFER,
                  false);
  }

  /** The server sends a part of its reply. */
  lemma KeptByAnswering(w: World, s: State, current: Spot, spots: seq<Spot>)
    requires Inv(w, s, current, spots) && s.server.Answering? && !Next(w, s, ServerStep).failed
    ensures Kept(w, s, ServerStep, current, spots, current, spots)
  {
    hide Cost, CostBelow, CostOfStack, Pending, TodoBelow, WalkJobs, Shown, Frame, Walk.Request, Answer, DirText,
         StackOk, InFlight, Size, FrameAlwaysOk, Passable, Next, Left, UpTransfer, DownTransfer, AheadOk,
         StartOfReply, RequestsAhead, RepliesAhead, OkLink, Enabled, CanAnswer, ReplyTo, RequestedPath, Parse,
         Entries, BeforeNul;
    CurrentFacts(w, current);
    var s' := AnsweringStep(w, s, Answer(w.root, current.dir));
    LeftSame(w, s, s', current, spots);
    if s.server.sender.AtHeader? {
      ReplyBegins(w, s, current, spots, s');
    } else {
      NotBeginning(w, s, s', current, spots);
      SameAhead(w, s, current, spots, s', current, spots);
    }
  }

  /** What a recv of the client does that does not fail: it takes a part of the reply, or the rest of it. */
  lemma WaitingStep(w: World, s: State, reply: string) returns (s': State)
    requires DownForm(s) && !s.failed && Enabled(w, s, ClientStep) && !Next(w, s, ClientStep).failed
    requires OkLink(DownLink(w), reply) && InFlight(DownLink(w), DownTransfer(s), reply) && |reply| < LISTING_BUFFER
    ensures s' == Next(w, s, ClientStep) && EndOf(s'.down) == EndOf(s.down)
    ensures s' == s.(down := s'.down, client := s'.client) || s' == Listed(s.(down := s'.down), reply)
    ensures s'.client.Waiting? || s' == Listed(s.(down := s'.down), reply)
    ensures s'.client.Waiting? ==>
        InFlight(DownLink(w), DownTransfer(s'), reply) && Size(DownTransfer(s')) < Size(DownTransfer(s))
    ensures s'.client.Working? ==> s.server.Serving? && s'.down.unread == ""
  {
    hide InFlight, Move, Size, Next, OkLink;
    DownTurn(w, s, ReceiverTurn);
    InFlightMoves(DownLink(w), DownTransfer(s), reply, ReceiverTurn);
    ReceiverGoesOn(DownLink(w), DownTransfer(s));
    s' := Next(w, s, ClientStep);
    Sizes(DownLink(w), reply);
    EndOfFrame(DownLink(w), DownTransfer(s), reply);
    if s'.client.Waiting? { EndOfFrame(DownLink(w), DownTransfer(s'), reply); }
  }

  lemma StackPushed(w: World, stack: seq<Level>, spots: seq<Spot>, l: Level, at: Spot)
    requires StackOk(w, stack, spots) && LevelOk(w, l, at)
    ensures StackOk(w, [l] + stack, [at] + spots)
  {
    hide LevelOk;
  }

  /** The listing of the current directory has arrived: it is handled before those on the stack. */
  lemma PushedTodo(w: World, s: State, s': State, current: Spot, spots: seq<Spot>)
    requires s.client.Waiting? && s'.client.Working?
    ensures Left(w, s', current, [current.(j := 0)] + spots) == Left(w, s, current, spots)
    ensures CostOfStack(w.root, [current.(j := 0)] + spots)
         == CostBelow(w.root, current.dir, current.nodes) + CostOfStack(w.root, spots)
  {
    hide TodoBelow, CostBelow;
    assert current.nodes[0..] == current.nodes && ([current.(j := 0)] + spots)[1..] == spots;
  }

  /** The client receives a part of the reply. */
  lemma KeptByWaiting(w: World, s: State, current: Spot, spots: seq<Spot>) returns (spots': seq<Spot>)
    requires Inv(w, s, current, spots) && s.client.Waiting? && Enabled(w, s, ClientStep)
    requires !Next(w, s, ClientStep).failed
    ensures Kept(w, s, ClientStep, current, spots, current, spots')
  {
    hide Cost, CostBelow, CostOfStack, Pending, TodoBelow, WalkJobs, Shown, Frame, Walk.Request, Answer, DirText,
         StackOk, InFlight, Size, FrameAlwaysOk, Passable, Next, Left, UpTransfer, AheadOk, StartOfRequest,
         RequestsAhead, RepliesAhead, OkLink, Enabled, Parse, Entries, BeforeNul;
    if s.down.unread == "" { NothingToReceive(w, s, ClientStep); }
    CurrentFacts(w, current);
    var s' := WaitingStep(w, s, Answer(w.root, current.dir));
    spots' := spots;
    if s'.client.Waiting? {
      LeftSame(w, s, s', current, spots);
      NotBeginning(w, s, s', current, spots);
    } else {
      spots' := [current.(j := 0)] + spots;
      ArrivedListing(w, s, s', current, spots);
      SomethingLeft(DownLink(w), DownTransfer(s), Answer(w.root, current.dir));
    }
    StartOfRequestSame(s, s');
    SameAhead(w, s, current, spots, s', current, spots');
  }

  lemma StartOfRequestSame(s: State, s': State)
    requires s.up == s'.up && !s.client.Asking? && !s'.client.Asking?
    ensures StartOfRequest(s) == StartOfRequest(s')
  {
  }

  lemma ArrivedListing(w: World, s: State, s': State, current: Spot, spots: seq<Spot>)
    requires StackOk(w, s.stack, spots) && Shown(w.root, current.dir, current.nodes)
    requires s.path == DirText(current.dir)
    requires s.client.Waiting? && s.server.Serving? && s.up.unread == ""
    requires s' == Listed(s.(down := s'.down), Answer(w.root, current.dir)) && s'.down.unread == ""
    requires EndOf(s'.down) == EndOf(s.down)
    ensures var spots' := [current.(j := 0)] + spots;
            && StackOk(w, s'.stack, spots') && Left(w, s', current, spots') == Left(w, s, current, spots)
            && CostOfStack(w.root, spots') == CostBelow(w.root, current.dir, current.nodes) + CostOfStack(w.root, spots)
            && RequestsAhead(w, s', current, spots') == RequestsAhead(w, s, current, spots)
            && RepliesAhead(w, s', current, spots') == RepliesAhead(w, s, current, spots)
  {
    hide StackOk, Shown, Left, Entries, Answer, DirText, Parse, BeforeNul, CostOfStack, CostBelow;
    CurrentFacts(w, current);
    PushedTodo(w, s, s', current, spots);
    assert current.nodes[0..] == current.nodes;
    StackPushed(w, s.stack, spots, Level(s.path, Entries(current.nodes)), current.(j := 0));
  }

  // ---- the work between the messages ----

  /** The client leaves a listing of which nothing is left. */
  lemma KeptByLeaving(w: World, s: State, current: Spot, spots: seq<Spot>)
    requires Inv(w, s, current, spots) && s.client.Working? && s.stack != [] && s.stack[0].entries == []
    ensures |spots| == |s.stack| && Kept(w, s, ClientStep, current, spots, current, spots[1..])
  {
    hide WalkJobs, Shown, Entries, Cost, AheadOk, InFlight, Walk.Request, Answer, DirText, RequestsBelow,
         RepliesBelow;
    var top := spots[0];
    NothingLeft(w.root, top.dir, top.nodes[top.j..]);
    NothingListed(w.address, w.root, top.dir, top.nodes[top.j..], w.local);
    assert Pending(w, spots) == Pending(w, spots[1..]);
    SameAhead(w, s, current, spots, Work(w, s), current, spots[1..]);
  }

  /** The next entry of a listing belongs to a node of the directory; what that node contributes comes next. */
  lemma NextAtSpot(w: World, l: Level, at: Spot) returns (n: Node, after: Spot)
    requires LevelOk(w, l, at) && l.entries != []
    ensures n in at.nodes && EntryFor(n, l.entries[0])
    ensures LevelOk(w, l.(entries := l.entries[1..]), after) && after.dir == at.dir && after.nodes == at.nodes
    ensures TodoAt(w, at) == Plus(TodoOfNode(w, at.dir, n), TodoAt(w, after))
    ensures at.j <= |at.nodes| && after.j <= |at.nodes|
    ensures CostBelow(w.root, at.dir, at.nodes[at.j..])
         == CostOfNode(w.root, at.dir, n) + CostBelow(w.root, at.dir, at.nodes[after.j..])
  {
    hide WalkJobs, NodeJobs, NodeRequests, NodeReplies, Shown, CostOfNode;
    var todo := at.nodes[at.j..];
    var k := NextListed(w.address, w.root, at.dir, todo, w.local);
    n := todo[k];
    after := at.(j := at.j + k + 1);
    assert todo[k + 1..] == at.nodes[after.j..];
    CostSkip(w.root, at.dir, todo, k);
    assert todo[k..][1..] == todo[k + 1..];
  }

  lemma PlusMoves(a: Todo, b: Todo, c: Todo)
    ensures Plus(Plus(a, b), c) == Plus(a, Plus(b, c))
  {
  }

  /** The stack after the next entry of its innermost listing has been taken, and what that entry contributes. */
  lemma TakeEntry(w: World, stack: seq<Level>, spots: seq<Spot>) returns (n: Node, spots': seq<Spot>)
    requires StackOk(w, stack, spots) && stack != [] && stack[0].entries != []
    ensures spots != [] && spots' != [] && spots'[0].dir == spots[0].dir && stack[0].path == DirText(spots[0].dir)
    ensures n in spots[0].nodes && EntryFor(n, stack[0].entries[0]) && Shown(w.root, spots[0].dir, spots[0].nodes)
    ensures StackOk(w, [stack[0].(entries := stack[0].entries[1..])] + stack[1..], spots')
    ensures Pending(w, spots) == Plus(TodoOfNode(w, spots[0].dir, n), Pending(w, spots'))
    ensures CostOfStack(w.root, spots) == CostOfNode(w.root, spots[0].dir, n) + CostOfStack(w.root, spots')
  {
    hide TodoBelow, TodoAt, TodoOfNode, CostBelow, Shown, Entries, CostOfNode, DirText, Plus;
    var after;
    n, after := NextAtSpot(w, stack[0], spots[0]);
    spots' := [after] + spots[1..];
    assert spots'[1..] == spots[1..];
    PlusMoves(TodoOfNode(w, spots[0].dir, n), TodoAt(w, after), Pending(w, spots[1..]));
  }

  /** What the work on an entry that is a file does. */
  lemma FileEntry(w: World, s: State, dir: seq<string>, here: seq<Node>, n: Node)
    requires s.client.Working? && s.stack != [] && s.stack[0].entries != [] && s.stack[0].path == DirText(dir)
    requires Shown(w.root, dir, here) && n in here && EntryFor(n, s.stack[0].entries[0])
    requires s.stack[0].entries[0].kind != 'D'
    ensures var stack' := [s.stack[0].(entries := s.stack[0].entries[1..])] + s.stack[1..];
            Work(w, s) == s.(stack := stack', jobs := s.jobs + TodoOfNode(w, dir, n).jobs)
    ensures TodoOfNode(w, dir, n).requests == [] && TodoOfNode(w, dir, n).replies == []
    ensures CostOfNode(w.root, dir, n) == 1
  {
    hide Shown, DirText, Tokens, FileText, LocalKey;
    ShownChild(w.root, dir, here, n);
    InTree(w.root, dir, here);
    LocalPathParts(dir, n.name);
    assert BASE_PATH + DirText(dir) + n.name == BASE_PATH + FileText(dir + [n.name]);
  }

  /** An entry that is a file has been handled. */
  lemma KeptByFile(w: World, s: State, current: Spot, spots: seq<Spot>) returns (spots': seq<Spot>)
    requires Inv(w, s, current, spots) && s.client.Working? && s.stack != [] && s.stack[0].entries != []
    requires s.stack[0].entries[0].kind != 'D'
    ensures Kept(w, s, ClientStep, current, spots, current, spots')
  {
    hide CostBelow, CostOfStack, CostOfNode, TodoOfNode, Pending, WalkJobs, Shown, Entries, DirText, StackOk,
         AheadOk, Work, Walk.Request, Answer, InFlight;
    var n;
    n, spots' := TakeEntry(w, s.stack, spots);
    FileEntry(w, s, spots[0].dir, spots[0].nodes, n);
    SameAhead(w, s, current, spots, Work(w, s), current, spots');
  }

  /** What the work on an entry that is a directory does: it asks for that directory. */
  lemma DirectoryEntry(w: World, s: State, dir: seq<string>, here: seq<Node>, n: Node) returns (deep: Spot)
    requires s.client.Working? && s.stack != [] && s.stack[0].entries != [] && s.stack[0].path == DirText(dir)
    requires Shown(w.root, dir, here) && n in here && EntryFor(n, s.stack[0].entries[0])
    requires s.stack[0].entries[0].kind == 'D'
    ensures var stack' := [s.stack[0].(entries := s.stack[0].entries[1..])] + s.stack[1..];
            Work(w, s) ==
              s.(stack := stack', path := DirText(deep.dir), client := Asking(AtHeader(Walk.Request(deep.dir))))
    ensures Shown(w.root, deep.dir, deep.nodes)
    ensures TodoOfNode(w, dir, n) ==
              Plus(Todo([], [Walk.Request(deep.dir)], [Answer(w.root, deep.dir)]), TodoBelow(w, deep.dir, deep.nodes))
    ensures CostOfNode(w.root, dir, n) ==
              1 + 2 * |Frame(Walk.Request(deep.dir))| + 2 * |Frame(Answer(w.root, deep.dir))|
                + CostBelow(w.root, deep.dir, deep.nodes)
  {
    hide Shown, DirText, WalkJobs, CostBelow, Frame, Answer;
    ShownChild(w.root, dir, here, n);
    deep := Spot(dir + [n.name], n.children, 0);
    assert NodeRequests(dir, n) == Requests(deep.dir, deep.nodes);
    assert NodeReplies(w.root, dir, n) == Replies(w.root, deep.dir, deep.nodes);
    assert NodeJobs(w.address, dir, n, w.local) == [] + WalkJobs(w.address, deep.dir, deep.nodes, w.local);
  }

  /** Asking for a directory moves its request and its reply to the front of what is still to come. */
  lemma DirectoryAhead(w: World, s: State, s': State, current: Spot, spots: seq<Spot>, current': Spot,
                       spots': seq<Spot>)
    requires var first := Todo([], [Walk.Request(current'.dir)], [Answer(w.root, current'.dir)]);
             Pending(w, spots) == Plus(Plus(first, TodoBelow(w, current'.dir, current'.nodes)), Pending(w, spots'))
    requires s.client.Working? && s'.client == Asking(AtHeader(Walk.Request(current'.dir)))
    requires s'.up == s.up && s'.down == s.down && s'.server == s.server
    ensures Left(w, s', current', spots').jobs == Left(w, s, current, spots).jobs
    ensures AheadOk(w, s, current, spots) <==> AheadOk(w, s', current', spots')
  {
    hide TodoBelow, Pending, Walk.Request, Answer, Passable, AheadOk;
    var first := Todo([], [Walk.Request(current'.dir)], [Answer(w.root, current'.dir)]);
    PlusMoves(first, TodoBelow(w, current'.dir, current'.nodes), Pending(w, spots'));
    SameAhead(w, s, current, spots, s', current', spots');
  }

  /** An entry that is a directory is being asked for. */
  lemma KeptByDirectory(w: World, s: State, current: Spot, spots: seq<Spot>) returns (current': Spot, spots': seq<Spot>)
    requires Inv(w, s, current, spots) && s.client.Working? && s.stack != [] && s.stack[0].entries != []
    requires s.stack[0].entries[0].kind == 'D'
    ensures Kept(w, s, ClientStep, current, spots, current', spots')
  {
    hide CostBelow, CostOfStack, CostOfNode, TodoOfNode, TodoBelow, Pending, WalkJobs, Shown, Entries, DirText,
         StackOk, AheadOk, Work, Walk.Request, Answer, InFlight, Frame, Size, Left, Plus, CanAnswer, ReplyTo,
         RequestedPath, Parse, BeforeNul;
    var n;
    n, spots' := TakeEntry(w, s.stack, spots);
    current' := DirectoryEntry(w, s, spots[0].dir, spots[0].nodes, n);
    CurrentFacts(w, current');
    AtStart(UpLink(w), s.up, Walk.Request(current'.dir));
    StartWeighs(s.up, Walk.Request(current'.dir));
    DirectoryAhead(w, s, Work(w, s), current, spots, current', spots');
  }

  lemma InTree(root: seq<Node>, dir: seq<string>, here: seq<Node>)
    requires Shown(root, dir, here)
    ensures IsPath(dir)
  {
  }

  /** Every step of either side keeps the invariant, or is the first one that fails. */
  lemma {:induction false} StepKeeps(w: World, s: State, step: Step, current: Spot, spots: seq<Spot>)
    returns (current': Spot, spots': seq<Spot>)
    requires Inv(w, s, current, spots) && Enabled(w, s, step) && !Next(w, s, step).failed
    ensures Kept(w, s, step, current, spots, current', spots')
  {
    hide Kept, Inv, Next;
    CannotHang(w, s, current, spots);
    current', spots' := current, spots;
    match step {
      case ServerStep =>
        if s.server.Answering? { KeptByAnswering(w, s, current, spots); } else { KeptByServing(w, s, current, spots); }
      case ClientStep =>
        match s.client {
          case Asking(_) => KeptByAsking(w, s, current, spots);
          case Waiting(_) => spots' := KeptByWaiting(w, s, current, spots);
          case Working =>
            if s.stack[0].entries == [] {
              KeptByLeaving(w, s, current, spots);
              spots' := spots[1..];
            } else if s.stack[0].entries[0].kind == 'D' {
              current', spots' := KeptByDirectory(w, s, current, spots);
            } else {
              spots' := KeptByFile(w, s, current, spots);
            }
        }
    }
  }

  lemma CannotHang(w: World, s: State, current: Spot, spots: seq<Spot>)
    requires Inv(w, s, current, spots)
    ensures !s.client.Crashed? && (s.server.Serving? || s.server.Answering?) && !s.failed
    ensures |spots| == |s.stack|
  {
  }

  /**
    Whatever a recv of the client may take: once a whole listing is there, it is that of the current
    directory, and both streams are empty.
   */
  lemma ClientNeverTakesTooMuch(w: World, s: State, current: Spot, spots: seq<Spot>)
    requires Inv(w, s, current, spots) && s.client.Waiting? && Enabled(w, s, ClientStep)
    requires !Next(w, s, ClientStep).failed && Next(w, s, ClientStep).client.Working?
    ensures var s' := Next(w, s, ClientStep);
            && s' == Listed(s.(down := s'.down), Answer(w.root, current.dir))
            && s'.down.unread == "" && s'.up.unread == "" && s'.server == Serving("")
  {
    hide Next, InFlight, StackOk, Left, Shown, OkLink;
    if s.down.unread == "" { NothingToReceive(w, s, ClientStep); }
    CurrentFacts(w, current);
    var s' := WaitingStep(w, s, Answer(w.root, current.dir));
  }

  /**
    Whatever a recv of the server may take: once a whole request is there, it is the current one, and both
    streams are empty.
   */
  lemma ServerNeverTakesTooMuch(w: World, s: State, current: Spot, spots: seq<Spot>)
    requires Inv(w, s, current, spots) && s.server.Serving? && Enabled(w, s, ServerStep)
    requires !Next(w, s, ServerStep).failed && !Next(w, s, ServerStep).server.Serving?
    ensures var s' := Next(w, s, ServerStep);
            && s' == s.(up := s'.up, server := Answering(AtHeader(Answer(w.root, current.dir))))
            && s'.up.unread == "" && s'.down.unread == "" && s.client == Waiting("")
  {
    hide Next, InFlight, StackOk, Left, Shown, OkLink, CanAnswer, ReplyTo, RequestedPath, Walk.Request;
    if s.up.unread == "" { NothingToReceive(w, s, ServerStep); }
    CurrentFacts(w, current);
    var s' := ServingStep(w, s, Walk.Request(current.dir));
  }

  /** As long as nothing has failed, some step is possible until the walk is done. */
  lemma NeverStuck(w: World, s: State, current: Spot, spots: seq<Spot>)
    requires Inv(w, s, current, spots) && !Done(s)
    ensures exists step :: Enabled(w, s, step)
  {
    hide StackOk, WalkJobs, InFlight, OkLink;
    if !s.client.Working? { CurrentFacts(w, current); }
    if s.client.Waiting? && s.up.unread == "" && s.server.Serving? {
      Sizes(DownLink(w), Answer(w.root, current.dir));
      EndOfFrame(DownLink(w), DownTransfer(s), Answer(w.root, current.dir));
    }
    var step := if s.client.Waiting? && (s.up.unread != "" || s.server.Answering?) then ServerStep else ClientStep;
    assert Enabled(w, s, step);
  }

  // ---- all runs ----

  lemma {:induction false} FailedStays(w: World, s: State, steps: seq<Step>)
    requires s.failed && IsRun(w, s, steps)
    ensures After(w, s, steps).failed
    decreases |steps|
  {
    if steps != [] {
      assert Next(w, s, steps[0]).failed;
      FailedStays(w, Next(w, s, steps[0]), steps[1..]);
    }
  }

  /**
    In every state that a run reaches before its first failure the invariant holds, and the run is no longer
    than its cost.
   */
  lemma {:induction false} InvariantOfRuns(w: World, s: State, steps: seq<Step>, current: Spot, spots: seq<Spot>)
    returns (current': Spot, spots': seq<Spot>)
    requires Inv(w, s, current, spots) && IsRun(w, s, steps) && !After(w, s, steps).failed
    ensures Inv(w, After(w, s, steps), current', spots')
    ensures |steps| + Weight(w, After(w, s, steps), current', spots') <= Weight(w, s, current, spots)
    decreases |steps|
  {
    hide Inv, Weight, Next, Enabled, AheadOk, BeginsOk;
    current', spots' := current, spots;
    if steps != [] {
      var s' := Next(w, s, steps[0]);
      if s'.failed { FailedStays(w, s', steps[1..]); }
      current', spots' := StepKeeps(w, s, steps[0], current, spots);
      current', spots' := InvariantOfRuns(w, s', steps[1..], current', spots');
    }
  }

  lemma StartFacts(w: World)
    requires Shown(w.root, [], w.view)
    ensures var top := Spot([], w.view, 0);
            && Start() ==
                 State(Asking(AtHeader(Walk.Request([]))), "/", [], [], Wire("", 0), Wire("", 0), Serving(""), false)
            && Shown(w.root, [], w.view) && DirText([]) == "/"
            && Left(w, Start(), top, []) == TodoBelow(w, [], w.view)
            && OneFrame(w, Start(), Walk.Request([]), Answer(w.root, []))
            && CostOfFrame(Start(), Answer(w.root, []))
                 == 2 * |Frame(Walk.Request([]))| + 2 * |Frame(Answer(w.root, []))|
  {
    hide TodoBelow, InFlight, Frame, Answer, Size, Shown, OkLink, CanAnswer, ReplyTo, RequestedPath, Parse,
         BeforeNul;
    TopLevel();
    CurrentFacts(w, Spot([], w.view, 0));
    AtStart(UpLink(w), Wire("", 0), Walk.Request([]));
    StartWeighs(Wire("", 0), Walk.Request([]));
    NothingPlus(TodoBelow(w, [], w.view));
  }

  lemma NothingPlus(a: Todo)
    ensures Plus(a, NOTHING) == a
  {
  }

  lemma InvariantAtStart(w: World)
    requires Shown(w.root, [], w.view)
    ensures Inv(w, Start(), Spot([], w.view, 0), [])
    ensures Weight(w, Start(), Spot([], w.view, 0), []) == Cost(w.root, [], w.view)
    ensures AheadOk(w, Start(), Spot([], w.view, 0), []) <==> FramesPass(w)
  {
    hide WalkJobs, Frame, Answer, Passable, Walk.Request, OneFrame, Shown, CostOfFrame, CostBelow, Start;
    StartFacts(w);
    assert [] + WalkJobs(w.address, [], w.view, w.local) == WalkJobs(w.address, [], w.view, w.local);
  }

  lemma TopLevel()
    ensures DirText([]) == "/" && GET + "/" == Walk.Request([])
  {
  }

  /** Every frame of the walk gets through in every interleaving, and the connection is still open at its end. */
  ghost predicate FramesPass(w: World)
  {
    && Passable(w.line.upRecv, w.line.upSend, 0, Requests([], w.view), CLAIMED_SIZE, true)
    && Passable(w.line.downRecv, w.line.downSend, 0, Replies(w.root, [], w.view), LISTING_BUFFER, false)
  }

  /**
    Over all interleavings and all pieces of the single sends and receives: as long as no call fails, a run is
    no longer than the cost of the tree and can go on until it is done; and where it is done, the queued jobs
    are exactly those of the walk and nothing is left on either stream.
   */
  lemma EveryRunIsExact(w: World, steps: seq<Step>)
    requires Shown(w.root, [], w.view) && IsRun(w, Start(), steps) && !After(w, Start(), steps).failed
    ensures |steps| <= Cost(w.root, [], w.view)
    ensures !Done(After(w, Start(), steps)) ==> exists step :: Enabled(w, After(w, Start(), steps), step)
    ensures Done(After(w, Start(), steps)) ==> EndsWell(w, After(w, Start(), steps))
  {
    hide Next, Enabled, OneFrame, StackOk;
    InvariantAtStart(w);
    var current, spots := InvariantOfRuns(w, Start(), steps, Spot([], w.view, 0), []);
    var s := After(w, Start(), steps);
    if !Done(s) {
      NeverStuck(w, s, current, spots);
    } else {
      DoneWell(w, s, current, spots);
    }
  }

  /** The walk is done, with exactly its jobs, and no byte of its traffic is left. */
  ghost predicate EndsWell(w: World, s: State)
  {
    Done(s) && s.jobs == WalkJobs(w.address, [], w.view, w.local) && s.up.unread == "" && s.down.unread == ""
  }

  lemma DoneWell(w: World, s: State, current: Spot, spots: seq<Spot>)
    requires Inv(w, s, current, spots) && Done(s)
    ensures EndsWell(w, s)
  {
    hide WalkJobs;
  }

  // ---- which chunkings every run survives ----

  lemma PassableDelivers(recvPlan: RecvPlan, sendPlan: SendPlan, pos: nat, frames: seq<string>, size: nat,
                         listening: bool)
    requires Passable(recvPlan, sendPlan, pos, frames, size, listening) && (listening || frames != [])
    ensures EventAt(recvPlan, pos).Deliver?
  {
  }

  /** What is on its way and has begun cannot fail. */
  ghost predicate TransitOk(w: World, s: State)
  {
    && (UpForm(s) && (if s.client.Asking? then s.client.sender.AtBody? else s.up.unread != "") ==>
          !CanFail(UpLink(w), UpTransfer(s)))
    && (DownForm(s) && s.up.unread == "" && !(s.server.Answering? && s.server.sender.AtHeader?) ==>
          !CanFail(DownLink(w), DownTransfer(s)))
  }

  /** A request that has not begun cannot fail exactly if it gets through. */
  lemma UpBegins(w: World, s: State, current: Spot, spots: seq<Spot>)
    requires Inv(w, s, current, spots) && s.client.Asking? && s.client.sender.AtHeader?
    ensures BeginsOk(w, s, ClientStep) <==> !CanFail(UpLink(w), UpTransfer(s))
  {
    hide InFlight, OkLink, StackOk, Left, Shown, Walk.Request, CanFail, FrameAlwaysOk, StateAt, CanAnswer,
         ReplyTo, RequestedPath, Answer, WalkJobs, DownTransfer;
    CurrentFacts(w, current);
    var request := Walk.Request(current.dir);
    Sizes(UpLink(w), request);
    NotBegun(UpLink(w), UpTransfer(s), request);
    TransferExact(UpLink(w), s.up.pos, request);
  }

  lemma DownBegins(w: World, s: State, current: Spot, spots: seq<Spot>)
    requires Inv(w, s, current, spots) && s.server.Answering? && s.server.sender.AtHeader?
    ensures s.client.Waiting? && (BeginsOk(w, s, ServerStep) <==> !CanFail(DownLink(w), DownTransfer(s)))
  {
    hide InFlight, OkLink, StackOk, Left, Shown, Answer, CanFail, FrameAlwaysOk, StateAt, CanAnswer, ReplyTo,
         RequestedPath;
    CurrentFacts(w, current);
    var reply := Answer(w.root, current.dir);
    Sizes(DownLink(w), reply);
    NotBegun(DownLink(w), DownTransfer(s), reply);
    TransferExact(DownLink(w), s.down.pos, reply);
  }

  /** If the traffic ahead gets through, so does what is about to begin. */
  lemma AheadBegins(w: World, s: State, current: Spot, spots: seq<Spot>)
    requires Inv(w, s, current, spots) && AheadOk(w, s, current, spots)
    ensures BeginsOk(w, s, ClientStep) && BeginsOk(w, s, ServerStep)
    ensures s.server.Serving? && !s.client.Asking? && s.up.unread == "" ==> EventAt(w.line.upRecv, s.up.pos).Deliver?
    ensures s.client.Waiting? && s.up.unread != "" ==> EventAt(w.line.downRecv, s.down.pos).Deliver?
  {
    hide InFlight, OkLink, StackOk, Left, Shown, Answer, Walk.Request, FrameAlwaysOk, Passable, UpTransfer,
         DownTransfer;
    var rest := Left(w, s, current, spots);
    var line := w.line;
    PassableDelivers(line.upRecv, line.upSend, StartOfRequest(s), RequestsAhead(w, s, current, spots), CLAIMED_SIZE,
                     true);
    if ReplyAhead(s) {
      PassableFirst(line.downRecv, line.downSend, StartOfReply(s), Answer(w.root, current.dir), rest.replies,
                    LISTING_BUFFER, false);
      PassableDelivers(line.downRecv, line.downSend, StartOfReply(s), [Answer(w.root, current.dir)] + rest.replies,
                       LISTING_BUFFER, false);
    }
    if s.client.Asking? && s.client.sender.AtHeader? {
      PassableFirst(line.upRecv, line.upSend, StartOfRequest(s), Walk.Request(current.dir), rest.requests,
                    CLAIMED_SIZE, true);
      SendsCurrent(w, s, current, spots);
    }
    if s.server.Answering? && s.server.sender.AtHeader? {
      SendsCurrent(w, s, current, spots);
    }
  }

  lemma SendsCurrent(w: World, s: State, current: Spot, spots: seq<Spot>)
    requires Inv(w, s, current, spots)
    ensures s.client.Asking? && s.client.sender.AtHeader? ==> s.client.sender.payload == Walk.Request(current.dir)
    ensures s.server.Answering? && s.server.sender.AtHeader? ==>
        s.client.Waiting? && s.up.unread == "" && s.server.sender.payload == Answer(w.root, current.dir)
  {
    hide InFlight, OkLink, StackOk, Left, Shown, Answer, Walk.Request, StateAt, CanAnswer, ReplyTo, RequestedPath;
    if !s.client.Working? { CurrentFacts(w, current); }
    if s.client.Asking? && s.client.sender.AtHeader? {
      Sizes(UpLink(w), Walk.Request(current.dir));
      NotBegun(UpLink(w), UpTransfer(s), Walk.Request(current.dir));
    }
    if s.server.Answering? && s.server.sender.AtHeader? {
      Sizes(DownLink(w), Answer(w.root, current.dir));
      NotBegun(DownLink(w), DownTransfer(s), Answer(w.root, current.dir));
    }
  }

  lemma WorkNeverFails(w: World, s: State)
    requires s.client.Working? && s.stack != [] && !s.failed
    ensures !Work(w, s).failed && TransitOk(w, Work(w, s)) && Enabled(w, s, ClientStep)
    ensures Next(w, s, ClientStep) == Work(w, s)
  {
    hide CanFail;
  }

  /** The shapes of a state of the invariant. */
  lemma Forms(w: World, s: State, current: Spot, spots: seq<Spot>)
    requires Inv(w, s, current, spots)
    ensures !s.failed && !s.client.Crashed? && (s.server.Serving? || s.server.Answering?)
    ensures s.client.Asking? ==> UpForm(s)
    ensures s.client.Waiting? && s.up.unread != "" ==> UpForm(s) && s.down.unread == ""
    ensures s.client.Waiting? && s.up.unread == "" ==> DownForm(s) && (s.server.Serving? ==> s.server == Serving(""))
    ensures s.client.Working? ==> s.server.Serving? && s.up.unread == ""
    ensures s.server.Answering? ==> s.client.Waiting? && s.up.unread == ""
  {
    hide InFlight, StackOk;
  }

  lemma NoFailure(link: Link, t: Transfer, turn: Turn)
    requires Possible(link, t, turn) && !CanFail(link, t)
    ensures !Move(link, t, turn).Failed? && (Move(link, t, turn).Moving? ==> !CanFail(link, Move(link, t, turn).t))
  {
    hide Move, CanFail;
    if Move(link, t, turn).Failed? || (Move(link, t, turn).Moving? && CanFail(link, Move(link, t, turn).t)) {
      CanFailStep(link, t, turn);
    }
  }

  lemma GoodAsking(w: World, s: State, request: string)
    requires s.client.Asking? && s.server.Serving? && !s.failed && !CanFail(UpLink(w), UpTransfer(s))
    requires OkLink(UpLink(w), request) && InFlight(UpLink(w), UpTransfer(s), request)
    ensures Enabled(w, s, ClientStep) && !Next(w, s, ClientStep).failed && TransitOk(w, Next(w, s, ClientStep))
  {
    hide Next, Move, CanFail, InFlight, OkLink;
    NoFailure(UpLink(w), UpTransfer(s), SenderTurn);
    UpTurn(w, s, SenderTurn);
    InFlightMoves(UpLink(w), UpTransfer(s), request, SenderTurn);
    var s' := AskingStep(w, s, request);
  }

  lemma GoodServing(w: World, s: State, request: string)
    requires UpForm(s) && !s.failed && !CanFail(UpLink(w), UpTransfer(s)) && Enabled(w, s, ServerStep)
    requires OkLink(UpLink(w), request) && InFlight(UpLink(w), UpTransfer(s), request)
    requires request != "" && CanAnswer(w.root, request)
    ensures !Next(w, s, ServerStep).failed && TransitOk(w, Next(w, s, ServerStep))
  {
    hide Next, Move, CanFail, InFlight, OkLink, CanAnswer, ReplyTo, RequestedPath;
    NoFailure(UpLink(w), UpTransfer(s), ReceiverTurn);
    UpTurn(w, s, ReceiverTurn);
    InFlightMoves(UpLink(w), UpTransfer(s), request, ReceiverTurn);
    var s' := ServingStep(w, s, request);
  }

  lemma GoodAnswering(w: World, s: State, reply: string)
    requires s.server.Answering? && s.client.Waiting? && s.up.unread == "" && !s.failed
    requires !CanFail(DownLink(w), DownTransfer(s))
    requires OkLink(DownLink(w), reply) && InFlight(DownLink(w), DownTransfer(s), reply)
    ensures Enabled(w, s, ServerStep) && !Next(w, s, ServerStep).failed && TransitOk(w, Next(w, s, ServerStep))
  {
    hide Next, Move, CanFail, InFlight, OkLink;
    NoFailure(DownLink(w), DownTransfer(s), SenderTurn);
    DownTurn(w, s, SenderTurn);
    InFlightMoves(DownLink(w), DownTransfer(s), reply, SenderTurn);
    var s' := AnsweringStep(w, s, reply);
  }

  lemma GoodWaiting(w: World, s: State, reply: string)
    requires DownForm(s) && s.up.unread == "" && !s.failed && !CanFail(DownLink(w), DownTransfer(s))
    requires Enabled(w, s, ClientStep)
    requires OkLink(DownLink(w), reply) && InFlight(DownLink(w), DownTransfer(s), reply) && |reply| < LISTING_BUFFER
    ensures !Next(w, s, ClientStep).failed && TransitOk(w, Next(w, s, ClientStep))
  {
    hide Next, Move, CanFail, InFlight, OkLink;
    NoFailure(DownLink(w), DownTransfer(s), ReceiverTurn);
    DownTurn(w, s, ReceiverTurn);
    InFlightMoves(DownLink(w), DownTransfer(s), reply, ReceiverTurn);
    var s' := WaitingStep(w, s, reply);
  }

  /** With good traffic ahead and on its way, no step fails. */
  lemma GoodStep(w: World, s: State, step: Step, current: Spot, spots: seq<Spot>)
    requires Inv(w, s, current, spots) && AheadOk(w, s, current, spots) && TransitOk(w, s) && Enabled(w, s, step)
    ensures !Next(w, s, step).failed && TransitOk(w, Next(w, s, step))
  {
    hide AheadOk, Next, BeginsOk, InFlight, CanFail, OkLink, StackOk, Left, Shown, Answer, Walk.Request, CanAnswer,
         ReplyTo, RequestedPath, Parse, BeforeNul, Entries, DirText, WalkJobs;
    AheadBegins(w, s, current, spots);
    Forms(w, s, current, spots);
    if s.client.Asking? && s.client.sender.AtHeader? { UpBegins(w, s, current, spots); }
    if s.server.Answering? && s.server.sender.AtHeader? { DownBegins(w, s, current, spots); }
    if !s.client.Working? { CurrentFacts(w, current); }
    match step {
      case ClientStep =>
        match s.client {
          case Working => WorkNeverFails(w, s);
          case Asking(_) => GoodAsking(w, s, Walk.Request(current.dir));
          case Waiting(_) => GoodWaiting(w, s, Answer(w.root, current.dir));
        }
      case ServerStep =>
        if s.server.Serving? {
          GoodServing(w, s, Walk.Request(current.dir));
        } else {
          GoodAnswering(w, s, Answer(w.root, current.dir));
        }
    }
  }

  lemma {:induction false} GoodRuns(w: World, s: State, steps: seq<Step>, current: Spot, spots: seq<Spot>)
    requires Inv(w, s, current, spots) && AheadOk(w, s, current, spots) && TransitOk(w, s) && IsRun(w, s, steps)
    ensures !After(w, s, steps).failed
    decreases |steps|
  {
    hide Next, Enabled, AheadOk, BeginsOk, TransitOk, OneFrame, StackOk, Left;
    if steps != [] {
      GoodStep(w, s, steps[0], current, spots);
      var current', spots' := StepKeeps(w, s, steps[0], current, spots);
      GoodRuns(w, Next(w, s, steps[0]), steps[1..], current', spots');
    }
  }

  /** With a frame ahead that does not get through, some run fails. */
  lemma {:induction false} BadRuns(w: World, s: State, current: Spot, spots: seq<Spot>)
    requires Inv(w, s, current, spots) && !AheadOk(w, s, current, spots)
    ensures MayFail(w, s)
    decreases Weight(w, s, current, spots)
  {
    hide Next, Enabled, AheadOk, BeginsOk, Inv, MayFail, Weight, CanFail;
    if Done(s) {
      BadEnd(w, s, current, spots);
    } else if !BeginsOk(w, s, ClientStep) {
      BadRequest(w, s, current, spots);
    } else if !BeginsOk(w, s, ServerStep) {
      BadReply(w, s, current, spots);
    } else {
      NeverStuck(w, s, current, spots);
      var step :| Enabled(w, s, step);
      assert step == ClientStep || step == ServerStep;
      assert BeginsOk(w, s, step);
      if Next(w, s, step).failed {
        FailsNow(w, Next(w, s, step));
      } else {
        var current', spots' := StepKeeps(w, s, step, current, spots);
        BadRuns(w, Next(w, s, step), current', spots');
      }
      FailsNext(w, s, step);
    }
  }

  lemma BadRequest(w: World, s: State, current: Spot, spots: seq<Spot>)
    requires Inv(w, s, current, spots) && !BeginsOk(w, s, ClientStep)
    ensures MayFail(w, s)
  {
    hide Inv, MayFail, Fails;
    Forms(w, s, current, spots);
    UpBegins(w, s, current, spots);
    var turns :| Fails(UpLink(w), UpTransfer(s), turns);
    UpCanFail(w, s, turns);
  }

  lemma BadReply(w: World, s: State, current: Spot, spots: seq<Spot>)
    requires Inv(w, s, current, spots) && !BeginsOk(w, s, ServerStep)
    ensures MayFail(w, s)
  {
    hide Inv, MayFail, Fails;
    Forms(w, s, current, spots);
    DownBegins(w, s, current, spots);
    var turns :| Fails(DownLink(w), DownTransfer(s), turns);
    DownCanFail(w, s, turns);
  }

  lemma NothingAhead(w: World, s: State, current: Spot, spots: seq<Spot>)
    requires Inv(w, s, current, spots) && Done(s)
    ensures RequestsAhead(w, s, current, spots) == [] && RepliesAhead(w, s, current, spots) == []
  {
    hide WalkJobs, InFlight, OkLink, Shown, Walk.Request, Answer, TodoAt, DownTransfer, UpTransfer;
  }

  /** The walk is done, and the connection ends before the client has closed it. */
  lemma BadEnd(w: World, s: State, current: Spot, spots: seq<Spot>)
    requires Inv(w, s, current, spots) && !AheadOk(w, s, current, spots) && Done(s)
    ensures MayFail(w, s)
  {
    hide MayFail, WalkJobs, InFlight, OkLink, Shown, Walk.Request, Answer, Next, Left, StackOk, DownTransfer;
    NothingAhead(w, s, current, spots);
    NothingToReceive(w, s, ServerStep);
    FailsNow(w, Next(w, s, ServerStep));
    FailsNext(w, s, ServerStep);
  }

  /**
    No run fails if and only if every frame of the walk, in its place on its stream, is one that always gets
    through.
   */
  lemma FailureExact(w: World)
    requires Shown(w.root, [], w.view)
    ensures MayFail(w, Start()) <==> !FramesPass(w)
  {
    hide AheadOk, Inv, MayFail, FramesPass, Start;
    InvariantAtStart(w);
    var top := Spot([], w.view, 0);
    if FramesPass(w) {
      StartInTransit(w);
      GoodFromStart(w, Start(), top);
    } else {
      BadRuns(w, Start(), top, []);
    }
  }

  lemma StartInTransit(w: World)
    ensures TransitOk(w, Start())
  {
  }

  lemma GoodFromStart(w: World, s: State, top: Spot)
    requires Inv(w, s, top, []) && AheadOk(w, s, top, []) && TransitOk(w, s)
    ensures !MayFail(w, s)
  {
    forall steps | IsRun(w, s, steps) ensures !After(w, s, steps).failed {
      GoodRuns(w, s, steps, top, []);
    }
  }

  /** Every run is free of failures, and every run that cannot go on has ended well. */
  ghost predicate AlwaysEndsWell(w: World)
  {
    forall steps :: IsRun(w, Start(), steps) ==>
      && !After(w, Start(), steps).failed
      && ((exists step :: Enabled(w, After(w, Start(), steps), step)) || EndsWell(w, After(w, Start(), steps)))
  }

  /**
    Exactly which chunkings the walk survives: every run is free of failures and comes to its end with exactly
    the jobs of the walk, if and only if every frame gets through in every interleaving.
   */
  lemma ChunkingsOfWalk(w: World)
    requires Shown(w.root, [], w.view)
    ensures AlwaysEndsWell(w) <==> FramesPass(w)
  {
    hide EndsWell, Enabled, Next, Start, FramesPass;
    FailureExact(w);
    if FramesPass(w) {
      forall steps | IsRun(w, Start(), steps)
        ensures !After(w, Start(), steps).failed
        ensures (exists step :: Enabled(w, After(w, Start(), steps), step)) || EndsWell(w, After(w, Start(), steps))
      {
        EveryRunIsExact(w, steps);
      }
    }
  }

  /** What gets through in every interleaving gets through when client and server take turns. */
  lemma {:induction false} PassableIsOk(recvPlan: RecvPlan, sendPlan: SendPlan, pos: nat, frames: seq<string>,
                                        size: nat, listening: bool)
    requires Passable(recvPlan, sendPlan, pos, frames, size, listening)
    ensures FramesOk(recvPlan, sendPlan, pos, frames, size)
    decreases |frames|
  {
    hide FrameAlwaysOk, FrameOk;
    if frames != [] {
      AlwaysOkIsOk(recvPlan, sendPlan, pos, |frames[0]|, size);
      PassableIsOk(recvPlan, sendPlan, pos + 4 + |frames[0]|, frames[1..], size, listening);
    }
  }

  // ---- after a failure ----

  /** A walk can come to the right jobs although a call has failed: here the request for an empty tree is not sent. */
  lemma LuckyFailure(w: World)
    requires w.view == [] && AcceptedAt(w.line.upSend, 0) < 0
    ensures IsRun(w, Start(), [ClientStep])
    ensures After(w, Start(), [ClientStep]).failed && EndsWell(w, After(w, Start(), [ClientStep]))
  {
    var s := Next(w, Start(), ClientStep);
    assert s == Start().(client := Working, failed := true);
    FollowsRun(w, [Start(), s], [ClientStep]);
    NothingListed(w.address, w.root, [], w.view, w.local);
  }

  /** A list of states, each of which is the next one of that before it, is a run. */
  lemma {:induction false} FollowsRun(w: World, states: seq<State>, steps: seq<Step>)
    requires |states| == |steps| + 1
    requires forall i :: 0 <= i < |steps| ==>
        Enabled(w, states[i], steps[i]) && Next(w, states[i], steps[i]) == states[i + 1]
    ensures IsRun(w, states[0], steps) && After(w, states[0], steps) == states[|steps|]
    decreases |steps|
  {
    hide Enabled, Next;
    if steps != [] {
      var later := states[1..];
      assert forall i :: 0 <= i < |later| ==> later[i] == states[i + 1];
      assert forall i :: 0 <= i < |steps| - 1 ==> steps[1..][i] == steps[i + 1];
      FollowsRun(w, later, steps[1..]);
    }
  }

  /** The first turns of a transfer of the request for the top directory, whose five bytes come as four and one. */
  lemma SplitRequest(link: Link) returns (ts: seq<Transfer>)
    requires link.size == CLAIMED_SIZE && link.room == RECEIVE_BUFFER
    requires AcceptedAt(link.sendPlan, 0) >= 4 && AcceptedAt(link.sendPlan, 4) >= 5
    requires EventAt(link.recvPlan, 0) == Deliver(4) && EventAt(link.recvPlan, 4) == Deliver(4)
    ensures |ts| == 5 && ts[0] == StateAt(0, "GET /", 0, 0) && ts[4] == StateAt(0, "GET /", 8, 9) && ts[2].out.None?
    ensures Moves(link, ts[0], SenderTurn, ts[1]) && Moves(link, ts[1], SenderTurn, ts[2])
    ensures Moves(link, ts[2], ReceiverTurn, ts[3]) && Moves(link, ts[3], ReceiverTurn, ts[4])
  {
    hide Move, Possible;
    var request := "GET /";
    assert |request| == 5;
    HeaderRequests();
    RequestSmall(CLAIMED_SIZE, 5, 0);
    SenderMoves(link, 0, request, 0, 0);
    SenderMoves(link, 0, request, 0, 4);
    ReceiverMoves(link, 0, request, 0, 9);
    ReceiverMoves(link, 0, request, 4, 9);
    ts := [StateAt(0, request, 0, 0), StateAt(0, request, 0, 4), StateAt(0, request, 0, 9), StateAt(0, request, 4, 9),
           StateAt(0, request, 8, 9)];
  }

  ghost predicate Moves(link: Link, t: Transfer, turn: Turn, next: Transfer)
  {
    Possible(link, t, turn) && Move(link, t, turn) == Moving(next)
  }

  /**
    A request that comes as a header, four bytes and one byte is given up by the server, which does not close the
    connection: the client waits for good.
   */
  lemma SplitRequestHangs(w: World) returns (steps: seq<Step>)
    requires AcceptedAt(w.line.upSend, 0) >= 4 && AcceptedAt(w.line.upSend, 4) >= 5
    requires EventAt(w.line.upRecv, 0) == Deliver(4) && EventAt(w.line.upRecv, 4) == Deliver(4)
    requires EventAt(w.line.upRecv, 8).Deliver?
    requires EventAt(w.line.downRecv, 0).Deliver?
    ensures IsRun(w, Start(), steps)
    ensures var s := After(w, Start(), steps);
            s.server == Dropped && s.client == Waiting("") && !Done(s) && forall step :: !Enabled(w, s, step)
  {
    hide Next, Enabled, Move, Possible, StateAt, UpTransfer, Start;
    var s0 := Start();
    TopRequest(w);
    var ts := SplitRequest(UpLink(w));
    UpTurn(w, s0, SenderTurn);
    var s1 := Next(w, s0, ClientStep);
    UpTurn(w, s1, SenderTurn);
    var s2 := Next(w, s1, ClientStep);
    UpTurn(w, s2, ReceiverTurn);
    var s3 := Next(w, s2, ServerStep);
    UpTurn(w, s3, ReceiverTurn);
    var s4 := Next(w, s3, ServerStep);
    LastRequestByte(w, s4);
    steps := [ClientStep, ClientStep, ServerStep, ServerStep, ServerStep];
    FollowsRun(w, [s0, s1, s2, s3, s4, Next(w, s4, ServerStep)], steps);
  }

  lemma TopRequest(w: World)
    ensures UpForm(Start()) && UpTransfer(Start()) == StateAt(0, "GET /", 0, 0) && Start().down == Wire("", 0)
  {
    assert GET + "/" == "GET /";
    AtStart(UpLink(w), Wire("", 0), "GET /");
  }

  lemma LastRequestByte(w: World, s: State)
    requires UpForm(s) && s.client == Waiting("") && UpTransfer(s) == StateAt(0, "GET /", 8, 9) && s.down == Wire("", 0)
    requires EventAt(w.line.upRecv, 8).Deliver? && EventAt(w.line.downRecv, 0).Deliver?
    ensures Enabled(w, s, ServerStep)
    ensures var s' := Next(w, s, ServerStep);
            s'.server == Dropped && s'.client == Waiting("") && !Done(s') && forall step :: !Enabled(w, s', step)
  {
    var frame := Frame("GET /");
    FrameBytes("GET /");
    assert |frame| == 9 && |frame[8..9]| == 1;
    KnownSize("GET /", 8);
    RequestSmall(CLAIMED_SIZE, 5, 4);
    hide Frame, Decode, RequestSize;
    assert NextRequest(CLAIMED_SIZE, frame[..8]) == 0;
  }

  /** A recv behind two bytes of a header asks for nothing and reads as the end of the listing. */
  lemma BehindTwoBytes(w: World, s: State)
    requires s.client.Waiting? && |s.client.got| == 2 && s.down.unread != "" &&
        EventAt(w.line.downRecv, s.down.pos).Deliver?
    ensures Enabled(w, s, ClientStep) && Next(w, s, ClientStep) == Fail(Listed(s, ""))
    ensures Listed(s, "").stack == [Level(s.path, [])] + s.stack
  {
    HeaderRequests();
    TokensOfEmpty('<');
    assert BeforeNul("") == "" && RecogniseAll([]) == [];
    hide RequestSize, Decode;
    assert RecvStep(w.line.downRecv, LISTING_BUFFER, LISTING_BUFFER, s.down, s.client.got)
        == (s.down, ReceiveFailed(0));
  }

  /**
    A reply whose header comes in two pieces is taken for an empty listing, and the walk goes on with the
    reply unread.
   */
  lemma LostReply(w: World, s: State, current: Spot, spots: seq<Spot>)
    requires Inv(w, s, current, spots) && s.client == Waiting("") && s.server == Serving("") && s.up.unread == ""
    requires EventAt(w.line.downRecv, s.down.pos) == Deliver(2) && EventAt(w.line.downRecv, s.down.pos + 2).Deliver?
    ensures Enabled(w, s, ClientStep) && Enabled(w, Next(w, s, ClientStep), ClientStep)
    ensures var s' := Next(w, Next(w, s, ClientStep), ClientStep);
            && s'.client == Working && s'.stack == [Level(s.path, [])] + s.stack
            && s'.down.unread == Frame(Answer(w.root, current.dir))[2..] != ""
  {
    hide StackOk, Left, Shown, Answer, Walk.Request, CanAnswer, ReplyTo, RequestedPath, Move, Next, Enabled, Frame,
         Possible, InFlight, OkLink;
    CurrentFacts(w, current);
    var t := TwoBytesTaken(DownLink(w), DownTransfer(s), Answer(w.root, current.dir));
    DownTurn(w, s, ReceiverTurn);
    BehindTwoBytes(w, Next(w, s, ClientStep));
  }

  lemma TwoBytesTaken(link: Link, t: Transfer, payload: string) returns (next: Transfer)
    requires OkLink(link, payload) && InFlight(link, t, payload) && t.out.None? && t.got == ""
    requires EventAt(link.recvPlan, t.wire.pos) == Deliver(2)
    ensures Moves(link, t, ReceiverTurn, next) && next.out.None?
    ensures |next.got| == 2 && |Frame(payload)| == 4 + |payload| &&
        next.wire == Wire(Frame(payload)[2..], t.wire.pos + 2)
  {
    hide Move, Possible, Decode, Header, RequestSize;
    FrameBytes(payload);
    HeaderRequests();
    var n := |payload|;
    ReceiverMoves(link, t.wire.pos, payload, 0, 4 + n);
    next := StateAt(t.wire.pos, payload, 2, 4 + n);
    assert Frame(payload)[2..4 + n] == Frame(payload)[2..];
  }
}
