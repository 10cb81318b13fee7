# p2pfsync: a verified model of the peer-to-peer file synchroniser

p2pfsync finds other peers in the local network, walks the tree of their shared directory over a TCP connection and
downloads every file that is missing locally. This project models that behaviour in Dafny and proves what the parts
promise, separately and together.

## The system

- **Walk.** The command client asks a remote command server for a directory, cuts the textual listing into items and
  fields with two nested `strtok_r` scans in one array, walks every subdirectory over the same connection and queues a
  job for each file that is not there locally. The server prints the text that the client cuts up.
- **Framing.** Every request and reply has a four-byte length in front of it. An adversary decides how many bytes each
  `send` and each `recv` moves: a plan gives, for every position of the stream, the outcome of the call that starts
  there. The loop is modelled as it is written, with the index subtracted twice and the conversions to `int` and
  `size_t`. `Framing` holds the calls, `Chunking` the exact conditions under which they get a message through when
  sender and receiver take turns, and `Transfers` those under which they do in every interleaving of the two.
- **Concurrency.** `LockStep` runs client and server as two processes, one send, one recv or one piece of work at a
  time, with all outcomes of their calls: a socket that the server drops, a listing that reads as empty, a write outside
  a buffer. `Synchronise` runs the walk and the downloads at the same time on the same queue and files.
- **Placement.** The file client drains the queue, fetches each file over a connection of its own, creates the parent
  directories and writes the content without truncating.
- **Discovery.** Nodes send DISCOVER, answer with AVAILABLE, keep a list of peers with a list of addresses each, and
  announce every new peer to the command client.

Characters stand for C `char`s. The remote tree is a finite datatype. Buffers are arrays, lists and queues are linked
nodes on the heap, and streams are strings of bytes sent and not yet received. `Rounds.SynchronisePeers` goes from
queued "peer seen" messages through the walks to the local files: tree, text, frames, chunks, tokens, recursion, job
queue, downloads.

## What has to hold for the walk

`RemoteTree.OsTree`, `Walk.Shows` and the frame conditions state what the code needs and does not check:

- names are not empty and hold no `/` and no NUL, siblings differ, and dates are not empty and hold no `<` or `>`;
- the walk asks for texts and gets texts back, so what it gets to see is a tree of its own (`Walk.Shows`), and the walk
  is exact for that tree. It is the tree of the server if no name of a file or directory holds `<` or `>` and no name of
  a directory holds a space (`Walk.WalkableShows`, `Synchronise.PlainView`), and these are exactly the conditions under
  which requests and listings are understood (`Walk.FaithfulWalk`);
- a directory whose name holds a space is asked for under its name up to the space. If there is no directory of that
  name beside it, exactly its content is missing from what the walk sees (`Spaces.PrunedShows`, `Spaces.PrunedFiles`).
  If there is one, the walk comes to an end if and only if that one has no subdirectory (`Spaces.SpacedWalkEnds`), and
  it has no end if the name starts with the space (`Spaces.LeadingSpaceNeverEnds`);
- requests, listings and local paths fit their buffers;
- every frame gets through. `Chunking.FrameOk` is the exact condition for sender and receiver that take turns
  (`Chunking.RoundTrip`), and `Chunking.FrameAlwaysOk` the exact one for all interleavings (`Transfers.TransferExact`):
  all four bytes of the header go out in one send; they come in one piece, or as three bytes and then exactly one, where
  the three are one piece or one and two (for an empty payload any piece will do as the last one); no send fails; and no
  recv of the body starts outside the buffer, fails, or starts at the index that is half of the larger of buffer size
  and length, where it would ask for nothing;
- `LockStep.ChunkingsOfWalk` puts them together: every run of client and server is free of failed calls and ends with
  exactly the jobs of the walk if and only if every frame of the walk, in its place on its stream, always gets through
  and the server's side of the connection stays open. The clause on failed calls is needed: a walk can come to the right
  jobs although a call has failed (`LockStep.LuckyFailure`).

## Where the code differs from its documentation

- `get_best_address` is documented to return the first IPv6 address and returns the last one
  (`AddressLists.DocumentedBest`, `AddressLists.SecondV6Wins`).
- `add_or_update_entry` is documented to update the time of an address that is in the list; an address can be taken for
  one of another family, because only the stored family is looked at (`AddressLists.EnteredExactly`,
  `AddressLists.UpdateRecords`, `AddressLists.MistakenForV4`).
- A download of a file that is there already does not truncate it: a longer old content keeps its tail
  (`FileSystems.OverwrittenExact`, `Synchronise.TwoContents`). The same content downloaded twice, from one peer or from
  two, does no harm (`Synchronise.PlacedTwice`, `Synchronise.Converges`).
- `mkdirp` is documented as `mkdir -p`; the path is accessible afterwards if and only if no regular file is in its way
  (`FileSystems.GrownExact`).
- `tcp_message_receive` is documented to receive what `tcp_message_send` sends. It does so exactly under the conditions
  above. Under every chunking of the body it does so exactly for the sizes of `Chunking.AnyChunking`, and with more
  bytes behind the message only for one byte and a buffer of one byte (`Chunking.ChunkingBound`). Exactly when its loop
  can write behind a buffer is `Chunking.HeaderExact` for the header and `Chunking.OverrunBound` in general. That the
  client asks for the next listing only after it has read the last one keeps foreign bytes off the stream, but does not
  make the receive safe: `LockStep.SplitRequestHangs` is a run in which the first request comes in three pieces and the
  client waits for good, and `LockStep.LostReply` one in which a reply is taken for an empty listing and stays unread.
- The test of `tcp_message_receive` for a header of another length than four never applies (`Transfers.HeaderIsFour`).
- The servers pass `sizeof(receive_buffer - 1)`, which is the size of an address, so the buffer size of the receiving
  loop is a parameter of its own, apart from the length of the array. With it no request is safe: for each there are
  pieces in which the server does not receive it (`FileClient.SafeSizes`).
- A listing that fills the buffer of the client has no room for its terminator, and a failed receive is used as an index
  (`LockStep.ClientStepsAreTheCall`).
- At shutdown the command server does not close the socket with the largest number (`SocketSets.Watcher.CloseAll`).
- A file that has gone by the time it is requested is answered with an error text, which the client stores as the
  content of the file (`FileServer.FileRequestAnswered`, `FileClient.DownloadOne`).
- A peer is announced once; `remove_peer`, which nothing calls, would make a second announcement possible
  (`Broadcast.AnnouncedAfterRemoval`, `Broadcast.AnnouncedTwice`).

## Model

| member | source | states |
|---|---|---|
| Splitting.JoinSplit | command_client.c:83-87 | splitting at a delimiter loses nothing: joining the pieces gives the text back, and no piece holds the delimiter |
| Splitting.TokensConcat | command_client.c:86-97 | the scan of two texts with a delimiter between them is the scan of the first followed by the scan of the second |
| Splitting.TokensClean | command_client.c:95-99 | a token is never empty, never holds the delimiter and is made of characters of the text |
| CStrings.MemCpy | command_server.c:178 | copies exactly the given characters to the given place, everything before and behind stays |
| CStrings.StrCpy | command_client.c:72 | the target holds exactly the source string, and what is behind its terminator stays |
| CStrings.StrCat | command_client.c:73 | the target holds its former string followed by the source string, and what is behind stays |
| CStrings.StrtokR | command_client.c:86 | in place, from any index: skips delimiters, ends the first token by overwriting one character, saves where to go on, or reports that there is no token; nothing else is written |
| CStrings.TokenDetermined | command_client.c:95-97 | memory determines the first token, so one call can have only one result |
| CStrings.TokenIsFirst | command_client.c:86-97 | one call on a string hands out the first element of its pure token list, the memory at the save pointer holds a string whose tokens are the remaining ones, and all writing stays inside the string |
| CStrings.StrtokText | command_client.c:86-145 | strtok_r on every terminated text: NULL exactly if the text has no token, otherwise the first token as a string of its own, with everything from the save pointer on untouched |
| Listing.LengthOfPrint | command_server.c:176-188 | the printed listing has exactly the sum of name, date and four characters for each entry |
| Listing.FieldsRead | command_client.c:94-101 | an item of two fields is no entry, and one of three or more fields is the entry of its first three exactly if its type is `D` or `F` |
| Listing.PrintParseRoundTrip | command_server.c:153-190 | parsing a printed listing gives the same entries if and only if every entry has a known type and a name and a date that are not empty and free of the two delimiters |
| Listing.ParsedAreWellFormed | command_client.c:95-101 | whatever text arrives, every entry that is accepted is well formed |
| Listing.RepliesWithoutEntries | command_server.c:142-145 | the error reply and the empty listing are both read as no entries at all |
| Listing.ScanFields | command_client.c:94-99 | the three inner scans find the first three fields of the item exactly if it has three, and write only inside the item |
| Listing.NextEntry | command_client.c:87-101 | one round of the outer loop: the first item is recognised as the pure parser does it, and the rest of the array still holds exactly the remaining items |
| Listing.ScanReply | command_client.c:86-101 | for every terminated text the nested in-place scans yield exactly the pure split and filter |
| Framing.DecodeHeader | util.c:208-232 | ntohl undoes htonl for every 32-bit length |
| Framing.SendAll | util.c:240-249 | the loop puts a prefix of the data on the stream, and all of it exactly if it reports success |
| Framing.TcpMessageSend | util.c:223-251 | return value and bytes on the stream for every plan of partial sends; a short send of the header goes unnoticed |
| Framing.SendStopsAt | util.c:241-250 | the loop of sends stops at the first call that accepts nothing, with the value of that call, and otherwise returns 1 |
| Framing.ShortHeader | util.c:232-250 | a header of which only a part goes out is followed by the payload at once, and success is reported |
| Framing.Recv | util.c:370-375 | one recv moves the front of the stream to the given index of the buffer and nothing else, and an attempt to write behind the buffer is reported |
| Framing.ReceiveTcpN | util.c:337-379 | the loop takes the bytes that the plan allows: the front of the stream is in the front of the buffer, the rest of both is unchanged, and leaving the buffer is reported |
| Framing.TcpMessageReceive | util.c:192-220 | a positive result is the decoded length, the buffer starts with exactly the bytes behind the header, and exactly header and body are gone from the stream |
| Framing.AllOrNothing | util.c:198-219 | on every run that stays in the buffer, whatever the chunking, a positive result r means that r is the announced length and that exactly 4 + r bytes were taken |
| Framing.RequestValue | util.c:369-370 | for every length that a header can announce, the length asked for is the larger size minus twice the index, less 2^32 where the conversion to int wraps, and a negative one becomes a number near 2^64 |
| Framing.WhyItStops | util.c:367-376 | where the loop stops early, an error gives -1 and a closed connection 0, and any other stop is a recv that had nothing to take or asked for nothing |
| Chunking.RequestsInsideBuffer | util.c:369-370 | every request of a message that fits is positive and stays inside the buffer if and only if twice the length is at most the buffer size plus one |
| Chunking.HeaderExact | util.c:199-208 | the header is received if and only if four bytes are there and come at once, or as three (in one or two pieces) and then exactly one; and reading it writes behind its four bytes if and only if the recv behind three bytes gets more than one |
| Chunking.SplitHeader | util.c:199-207 | a header of which two bytes come first is lost: the message fails with two bytes consumed |
| Chunking.AllIsSent | util.c:241-249 | the sending loop sends everything if and only if no send at a place that it comes to fails |
| Chunking.SentExactly | util.c:223-251 | a frame is sent as a whole, with success reported, if and only if the header goes out in one send and no send of the body fails |
| Chunking.BodyExact | util.c:349-378 | a body with nothing behind it is received if and only if the loop can go on wherever it comes to: inside the buffer, with a recv that does not fail and a request that is not empty |
| Chunking.AnyCuts | util.c:349-378 | sizes for which no request is empty get through whatever the pieces and the sends are |
| Chunking.WholeBody | util.c:349-378 | a body of any size gets through a buffer of any size if it is sent at once and comes in one piece |
| Chunking.ChunkingBound | util.c:349-378 | a message is received under every chunking if and only if it fits the buffer and the buffer size is odd or at least twice the length; with bytes behind it, if and only if message and buffer are one byte |
| Chunking.BadChunking | util.c:369-373 | outside that bound some chunking makes the loop ask for nothing or stop early |
| Chunking.BadTail | util.c:369-375 | with bytes behind the message some chunking takes too many bytes or stops early |
| Chunking.GreedyRecv | util.c:369-375 | if more bytes follow a message that is smaller than the buffer, a recv can take a byte of the next message |
| Chunking.OverrunBound | util.c:369-375 | some chunking writes behind a buffer of a given length if and only if more bytes than that are on the stream and some request of the loop does not fit |
| Chunking.RoundTrip | util.c:192-251 | sending and then receiving gives the same payload, its length and an empty stream if and only if the frame condition holds |
| Chunking.AlwaysOkIsOk | util.c:192-251 | a frame that gets through in every interleaving gets through when sender and receiver take turns |
| Transfers.HeaderIsFour | util.c:203-207 | a header is read as a whole or not at all |
| Transfers.AloneIsMessage | util.c:192-220 | without a sender beside it, the receiver that takes one recv at a time is tcp_message_receive |
| Transfers.WhyNothingArrives | util.c:192-220 | a -1 of tcp_message_receive is an error of a recv, a 0 is none unless its loop had ended, and a connection that is closed or broken at the start gives 0 or -1 |
| Transfers.SendAloneIsMessage | util.c:223-251 | without a receiver beside it, the sender that takes one send at a time is tcp_message_send, in result and bytes |
| Transfers.SenderMoves | util.c:233-248 | one send takes a transfer on by exactly what the plan accepts, or fails |
| Transfers.ReceiverMoves | util.c:367-376 | one recv takes a transfer on by exactly what plan, request and wire allow, delivers exactly the payload, or fails |
| Transfers.InFlightMoves | util.c:192-251 | in every interleaving the bytes received, on the wire and still to be sent make up exactly the frame, until it is delivered and the wire is empty |
| Transfers.GoodNeverFails | util.c:192-251 | under the frame condition no schedule of sends and recvs fails |
| Transfers.BadHeader | util.c:199-207 | with any other pieces of the header some schedule fails |
| Transfers.BadSends | util.c:241-248 | with a failing send some schedule fails |
| Transfers.FailsBeforeReached | util.c:349-376 | whatever index the loop can come to by plan and cuts, it comes to in some schedule |
| Transfers.TransferExact | util.c:192-251 | a frame gets through in every schedule of sends and recvs if and only if the frame condition for interleavings holds |
| RemoteTree.ChildOf | command_server.c:169-173 | among siblings with different names a lookup by name finds exactly that entry |
| RemoteTree.DirAtStep | command_client.c:115-118 | appending the name of a subdirectory leads to exactly that subdirectory |
| RemoteTree.FileAtStep | file_server.c:131-160 | appending the name of a regular file leads to exactly its content |
| RemoteTree.PartsOfDirText | command_client.c:113-117 | the text built for a directory names exactly its components and starts and ends with a slash |
| RemoteTree.PartsOfFileText | command_client.c:124-138 | the text built for a file names exactly its components |
| RemoteTree.SharedPathOf | command_server.c:131-133 | a request path behind the base directory names the same components inside the shared directory |
| RemoteTree.OutsideShare | command_server.c:131-133 | a request path that does not start with a slash names nothing inside the shared directory |
| RemoteTree.FilePathsExact | command_client.c:111-142 | the depth-first enumeration lists a path if and only if it leads to a regular file below the directory |
| RemoteTree.FilePathsOnce | command_client.c:87-146 | the enumeration lists every regular file once |
| CommandServer.KeptIsEntries | command_server.c:161-168 | the two dot entries and everything that is neither file nor directory are skipped, everything else is kept in order |
| CommandServer.AppendEntry | command_server.c:176-188 | type, `>`, name, `>`, date and `<` are printed behind what is there, and the position advances by name, date and four |
| CommandServer.PrintDirectory | command_server.c:153-190 | the reply holds the listing of all kept entries and a terminator, and the position ends at the sum of their lengths |
| CommandServer.RequestUnderstood | command_server.c:127-133 | the server reads a requested path as it was sent if and only if the path does not hold the delimiter |
| CommandServer.AnyRequest | command_server.c:127-130 | any text of spaces, an id, a space and a path, with or without a NUL and more bytes behind it, is read as the first token of that path |
| CommandServer.TokenBeforeDelimiter | command_server.c:127-130 | the delimiter written behind the received bytes ends the scan of the path, whatever old bytes follow in the buffer |
| CommandServer.IdOfRequest | command_server.c:127-129 | the first token of a request is the word behind its leading spaces |
| CommandServer.PathOfRequest | command_server.c:127-130 | the second token is the first one behind that word, whether the text ends at the written delimiter or at a NUL before it |
| CommandServer.ParseRequest | command_server.c:127-133 | the two scans in the receive buffer find the path of the request, with spaces before the id and a NUL behind the path as strtok treats them |
| CommandServer.NoNulInPrint | command_server.c:190-193 | no listing holds a NUL, so strlen of the reply is the length of the listing |
| CommandServer.RequestedExactly | command_server.c:131-142 | a path that starts with a slash names the directory that its components lead to, or none; any other path names none |
| CommandServer.ErrorReply | command_server.c:142-145 | whatever path leads to no directory is answered with the text "requested invalid directory", out of which the client reads no entries |
| CommandServer.FillReply | command_server.c:136-192 | the reply buffer holds the listing of the directory that the path names, and for every path that leads to none the text "requested invalid directory" |
| CommandServer.HandleClient | command_server.c:126-197 | puts exactly the framed reply to the requested path on the stream, as far as the sends allow; for a path that leads to no directory that is the frame of "requested invalid directory" |
| CommandServer.ServeReadySocket | command_server.c:88-105 | a failed or closed client is not watched any more and gets nothing, any other gets the reply to its request, which for a path that leads to no directory is "requested invalid directory", and stays watched; a receive that leaves the buffer is reported |
| Walk.MissingMember | command_client.c:130 | a path is queued if and only if it is listed and has no local regular file |
| Walk.MissingOnce | command_client.c:130-141 | no path is queued twice |
| Walk.WalkJobsStep | command_client.c:87-146 | the jobs of a directory are the jobs of its first entry followed by those of the others |
| Walk.NextListed | command_client.c:86-146 | the next listed entry is the next one in traffic and in jobs; entries that are not listed leave no trace |
| Walk.NothingListed | command_client.c:87-146 | where nothing is listed nothing is requested, answered or queued |
| Walk.FramesSplit | command_client.c:118 | the conditions on the traffic of a walk split into those of a nested walk and those of the rest |
| Walk.RequestAnswered | command_server.c:127-193 | the request for a directory is answered with the listing of exactly that directory |
| Walk.WalkableShows | command_server.c:126-197 | where names are plain and fit the buffers, what the answers show of a directory is that directory |
| Walk.ListingShows | command_server.c:153-190 | read back, a listing holds an F entry exactly for each regular file and a D entry exactly for each subdirectory, with name and date |
| Walk.ListingReadBack | command_client.c:86-101 | a listing is read back as what the directory contains if and only if no name in it holds `<` or `>` |
| Walk.RequestReadBack | command_server.c:128-130 | a directory request is read back if and only if its path holds no space |
| Walk.FaithfulWalk | command_client.c:67-147 | every request and every listing of a walk is understood if and only if no name holds `<` or `>` and no directory name holds a space |
| Walk.SpaceInDirectory | command_server.c:128-130 | a directory named "a b" is read as "/a", so the walk is not faithful |
| CommandClient.SendRequest | command_client.c:68-75 | exactly the framed request for the path is on the stream |
| CommandClient.RemoteTurn | command_server.c:91-104 | the server takes exactly the request and puts exactly its framed answer on the other stream, whether the path leads to a directory or not |
| CommandClient.ReceiveListing | command_client.c:81-84 | the receive buffer holds the listing as a terminated string and the stream is empty |
| CommandClient.BuildLocalPath | command_client.c:124-126 | the request buffer holds base directory, path and name |
| CommandClient.BuildDirPath | command_client.c:115-117 | the request buffer holds path, name and a slash |
| CommandClient.LocalPathParts | command_client.c:123-138 | the local path names the key of the file, and without the base directory it is the path of the file in the tree |
| CommandClient.QueueIfMissing | command_client.c:120-142 | a job with the path of the file is pushed exactly if there is no local regular file of that path |
| CommandClient.HandleEntry | command_client.c:111-143 | an entry contributes exactly its own jobs and traffic, and afterwards nothing is on its way |
| CommandClient.HandleNext | command_client.c:87-146 | one round of the loop moves one entry from what is to come to what is queued, although the request buffer is reused by the nested walk |
| CommandClient.HandleListing | command_client.c:86-146 | the loop over a listing queues exactly the missing files below the directory in order, with the path of the frame intact |
| CommandClient.DownloadRemoteDirectory | command_client.c:67-147 | the recursive walk over the byte streams terminates, consumes exactly its own traffic, does not change the path it was called with, and queues exactly the missing files of the tree that the answers of the server show, each once, depth first |
| Spaces.CutRequest | command_server.c:127-145 | the request for a directory whose name holds a space is cut there, and where no directory has the cut name it is answered with "requested invalid directory" |
| Spaces.SpacedDirectory | command_client.c:111-119 | the nested walk of such a directory sends one request, gets the error text, queues nothing and asks for nothing more |
| Spaces.PrunedShows | command_client.c:67-147 | a walk gets to see such a tree exactly without what lies below directories with a space in their names |
| Spaces.PrunedFiles | command_client.c:67-147 | the tree that it sees has exactly the files to which no directory with a space in its name leads, at their paths and with their contents |
| Spaces.PrunedJobs | command_client.c:67-147 | the walk queues exactly the missing files to which no directory with a space in its name leads |
| Spaces.CutForGood | command_server.c:127-133 | below a directory with a space in its path the server reads the same path out of every request |
| Spaces.NeverEnds | command_client.c:111-119 | if the listing that comes back for such a directory holds a subdirectory, no finite tree is what the walk gets to see |
| Spaces.SpacedWalkEnds | command_client.c:111-119 | the walk of such a directory comes to an end if and only if the listing that comes back for it holds no subdirectory |
| Spaces.LeadingSpaceNeverEnds | command_client.c:111-119 | a directory whose name starts with a space is answered with the listing that it stands in, so its walk has no end |
| MessageQueues.Message.constructor | message_queue.c:61-77 | a new message carries its job and is not linked to anything |
| MessageQueues.MessageQueue.constructor | message_queue.c:6-13 | a new queue is empty |
| MessageQueues.MessageQueue.Push | message_queue.c:32-47 | a message that is not linked is appended at the end of an acyclic list, everything else keeps its place |
| MessageQueues.MessageQueue.Pop | message_queue.c:48-57 | takes exactly the oldest message, or nothing from an empty queue, and the list stays acyclic |
| MessageQueues.MessageQueue.FreeQueue | message_queue.c:17-24 | every linked message is freed once, oldest first, although freeing destroys its link |
| MessageQueues.RunSteps | message_queue.c:32-57 | any sequence of pushes and pops on the linked list ends with the popped jobs and the contents that the steps have as operations on values |
| MessageQueues.PopsTakeOldest | message_queue.c:48-57 | any number of pops takes exactly that many of the oldest values in order, and as many pops as there are values empty the queue |
| MessageQueues.Conservation | message_queue.c:32-57 | in every interleaving of atomic pushes and pops everything pushed is what was popped followed by what is still linked |
| MessageQueues.PerThreadOrder | message_queue.c:32-57 | in every interleaving the messages of one thread leave the queue in the order in which it pushed them |
| MessageQueues.PushedByMore | message_queue.c:32-47 | what a thread has pushed grows at its end by its own pushes only |
| FileSystems.FileSystem.Mkdir | util.c:184 | a directory appears exactly if the path is free and its parent exists |
| FileSystems.FileSystem.OpenAndWrite | file_client.c:104-112 | a new file holds exactly the data; one that was there starts with the data, goes on with its old bytes and has the larger of the two lengths; all other files stay; nothing happens for a directory or without a parent directory |
| FileSystems.OverwrittenExact | file_client.c:104-112 | a write over an old content leaves exactly the data if and only if the old content is not longer |
| FileSystems.GrownIsClosed | util.c:178-189 | creating all prefixes keeps every directory that was there and keeps every parent present |
| FileSystems.GrownExact | util.c:178-189 | afterwards exactly the old directories exist and those prefixes of the path that no regular file blocks |
| FileSystems.MkdirCut | util.c:182-186 | makes the directory named by the text before a slash and restores the text |
| FileSystems.Mkdirp | util.c:178-189 | the walk over the copy makes every prefix of the path, shortest first, whatever repeated or trailing slashes it has |
| FileServer.HandleClient | file_server.c:118-162 | puts the framed content of the requested regular file on the stream, or the framed error text |
| FileServer.ServeReadySocket | file_server.c:88-107 | a request that arrived whole is answered, any other gets nothing; a receive that leaves the buffer is reported |
| FileServer.FileRequestParses | file_server.c:119-121 | every file request holds an id and a path that the server can read |
| FileServer.FileReplyExactly | file_server.c:126-160 | whatever path is asked for, the reply is the content of the regular file that its components lead to, or "requested invalid directory" |
| FileServer.FileRequestAnswered | file_server.c:119-160 | the request for a path without `>` is answered with exactly the content of that regular file, or with "requested invalid directory" if there is none |
| FileClient.ParentOfLocalPath | file_client.c:92-103 | the text before the last slash of the local path names exactly the parent of the file |
| FileClient.LastSlash | file_client.c:98-99 | the backward scan finds the last slash |
| FileClient.MkdirpCut | file_client.c:100-102 | the parent directories are made from the cut text, and the full path is restored |
| FileClient.PlacedOver | file_client.c:92-112 | a file that is there already gets the data over its front and keeps a longer tail, and no directory and no other file changes |
| FileClient.PlaceFile | file_client.c:92-112 | parents are made and the data is stored under the key of the path; over a file that is there the data comes first, old bytes behind it stay, and every other file is unchanged |
| FileClient.SafeSizes | util.c:349-378 | whatever the pieces, listings up to 32,384 and files up to 10,000,000 bytes are received, requests up to 4 bytes only, so for every request there are pieces in which the server does not receive it |
| FileClient.FetchedExact | file_client.c:81-87 | a reply whose header goes out whole arrives whole or not at all, it arrives if and only if its frame gets through, and what does not fit 20,000,000 bytes never arrives |
| FileClient.SendFileRequest | file_client.c:64-73 | exactly the framed request for the file is on the stream |
| FileClient.RemoteTurn | file_server.c:88-107 | the file server takes exactly the request and puts on the stream as much of the framed reply as the sends allow |
| FileClient.DownloadOne | file_client.c:53-118 | what arrives of the reply to the path is placed under its key; without a connection, for an empty reply and for one that does not arrive nothing changes; a receive that leaves the buffer is reported |
| FileClient.HandleJob | file_client.c:30-43 | a download job is tried on its own connection, which can fail, every other message is ignored |
| FileClient.Drain | file_client.c:28-45 | draining the queue performs all downloads in queue order, each with what its connection brings, and leaves the queue empty whatever fails |
| Synchronise.ExactEnumeration | command_client.c:67-147 | the queued paths are exactly the remote regular files without a local regular file of that path, each once |
| Synchronise.EarlierTotal | command_client.c:87-146 | directory order, depth first, puts exactly one of two different files of a tree before the other |
| Synchronise.FilePathsOrdered | command_client.c:87-146 | files are listed in the order of the directory entries, depth first |
| Synchronise.JobsInOrder | command_client.c:87-146 | the jobs come in that order, and the text of each one names the position of its file in the tree |
| Synchronise.FilesDoNotNest | file_client.c:92-103 | no regular file of a tree lies below another one |
| Synchronise.PlacedExact | file_client.c:81-118 | a download changes the files if and only if the content is not empty and the place is free, and then only that one, over what was there |
| Synchronise.PlacedTwice | file_client.c:92-112 | downloading the same content twice to one path leaves directories and files as the first download left them |
| Synchronise.TwoContents | file_client.c:104-112 | of two contents for one path the later one lies over the earlier one, and it is all that is left if and only if it is not shorter |
| Synchronise.FreeUnaffected | file_client.c:92-112 | placing one file does not change whether the place of another one is free, if neither lies below the other |
| Synchronise.AllArrive | file_client.c:28-45 | after all downloads, also of one path from several peers with one content, exactly the files have been added for which something was brought and whose place was free, with what was brought |
| Synchronise.Converges | file_client.c:28-118 | after a full drain of the jobs of any number of peers a missing file is present if and only if some download brought it and its place was free, with what was brought; local files are unchanged and nothing else appears |
| Synchronise.BroughtWhole | file_client.c:58-87 | a download brings the remote content or nothing, and the content if and only if there is a connection on which the reply gets through |
| Synchronise.ConcurrentDrain | command_client.c:130-141 | in every interleaving of the tests of the walk and the downloads, what is queued, what is still to be found and what the downloads lead to stay the same, and every interleaving comes to its end |
| Synchronise.ConvergesConcurrently | file_client.c:28-45 | walk and downloads at the same time end with the files of a drain that starts after the walk |
| Synchronise.WantedEnumerated | command_client.c:67-147 | there is a job for a path exactly if it leads to a remote regular file and there is no local one, once, in directory order, and no other job |
| Synchronise.PlainView | command_client.c:67-147 | where all names are plain, whatever the answers of the server show has the files of its tree in the same order |
| Rounds.EnumeratePeer | command_client.c:52-53 | the walk from the top queues exactly the missing files of the tree that the answers of the server show |
| Rounds.HandleMessage | command_client.c:38-57 | for a seen peer that can be reached and has plain names the queue gains a job of its address for a path exactly if the path leads to a regular file of the peer and there is no local one, once, in directory order, and nothing else; an unreachable peer and every other message add nothing |
| Rounds.DrainCommands | command_client.c:36-58 | the same for every message in turn: the queue gains the jobs of all messages, message by message, and a failed connection does not stop the loop |
| Rounds.AllWantedExact | command_client.c:36-58 | a path is wanted from some peer if and only if some seen peer that can be reached has a regular file there and there is no local one |
| Rounds.SynchronisePeers | command_client.c:36-58 | from queued messages about any number of peers through walk and downloads: a missing file has become local if and only if some download brought it and its place was free, with what was brought; local files are unchanged and nothing else appears |
| Rounds.SynchronisePeer | command_client.c:67-147 | from one queued message about a peer with plain names: exactly those of its missing files are local afterwards whose download brought something and whose place was free, with what was brought |
| AddressLists.UpdateKeepsUnique | ip_address_list.c:63-90 | no address is ever entered twice, whatever mixture of families is stored |
| AddressLists.UpdateRecords | ip_address_list.c:9-31 | after an update the address is recorded with the given time if and only if nothing matched it, the first match is of its own family, or it was recorded so before |
| AddressLists.EnteredExactly | ip_address_list.c:9-31 | an address is entered if and only if no stored one is taken for it: not one of its family with the same bytes, no IPv4 address with the bytes of its flow label, no IPv6 address with the bytes behind its IPv4 address |
| AddressLists.MistakenForV4 | ip_address_list.c:13-19 | an IPv6 address whose flow label equals a stored IPv4 address is not entered |
| AddressLists.UpdateKeepsOthers | ip_address_list.c:86-89 | an update keeps all entries, their addresses and their order, and every time but the touched one |
| AddressLists.BestIsLastV6 | ip_address_list.c:42-61 | the answer is the last IPv6 entry if there is one, otherwise the first entry |
| AddressLists.DocumentedBest | ip_address_list.h:35-46 | the answer is the documented first IPv6 entry if and only if the list has at most one |
| AddressLists.SecondV6Wins | ip_address_list.c:51-53 | of two IPv6 entries the second is answered |
| AddressLists.AnsweredWithV6 | ip_address_list.c:42-90 | once an IPv6 address is in the list, every later answer is an IPv6 address |
| AddressLists.AddressList.FindEntry | ip_address_list.c:9-31 | finds the first entry that matches under the comparison as written, or NULL |
| AddressLists.AddressList.Touch | ip_address_list.c:88 | overwrites one time and nothing else |
| AddressLists.AddressList.LinkEntry | ip_address_list.c:76-85 | links a new entry behind the last one of an acyclic list |
| AddressLists.AddressList.AddOrUpdate | ip_address_list.c:63-90 | the linked list represents the updated list of records |
| AddressLists.AddressList.GetBest | ip_address_list.c:42-61 | found exactly if the list is not empty, and then the best address |
| PeerLists.AddIpKeepsConsistent | peer_list.c:56-86 | adding keeps ids unique, addresses within a peer unique and no list empty |
| PeerLists.RemoveKeepsConsistent | peer_list.c:109-135 | removing keeps the same |
| PeerLists.AlwaysConsistent | peer_list.c:56-135 | after any sequence of additions and removals ids and addresses are unique |
| PeerLists.OperationsOnMap | peer_list.c:56-135 | the table is a map: adding changes the addresses of one id only, removing makes one id unknown and keeps the others |
| PeerLists.RemoveKeepsOrder | peer_list.c:109-135 | removing takes out one peer and leaves the others in order |
| PeerLists.V6Entered | ip_address_list.c:73-85 | an IPv6 address is in the list after its update if and only if one was there before or nothing was mistaken for it |
| PeerLists.PeerAnsweredWithV6 | peer_list.c:98-107 | a peer with an IPv6 address is answered with an IPv6 address through every later operation that does not remove it |
| PeerLists.PeerList.Search | peer_list.c:46-54 | finds the first peer of that id, or NULL |
| PeerLists.PeerList.Contains | peer_list.c:88-96 | true exactly if the id is in the table |
| PeerLists.PeerList.BestAddress | peer_list.c:98-107 | the best address of a known peer, nothing for an unknown one |
| PeerLists.PeerList.AppendPeer | peer_list.c:70-86 | an unknown peer is appended without addresses, a known one changes nothing, and all address lists stay separate |
| PeerLists.PeerList.UpdatePeer | peer_list.c:65 | updates the addresses of one peer, all other rows and the order stay |
| PeerLists.PeerList.AddIpToPeer | peer_list.c:56-67 | the list of lists represents the table with the address added, acyclic and with separate address lists |
| PeerLists.PeerList.RemovePeer | peer_list.c:109-135 | the list of lists represents the table without that peer, an unknown id changes nothing |
| Broadcast.PacketRoundTrip | broadcast.c:280-294 | a datagram is accepted as a packet if and only if it is the encoding of that packet with a six-byte id |
| Broadcast.PacketBytes | broadcast.c:24-32 | the fifteen bytes of both packets: "P2PFSYNC", 10 or 11, and the id |
| Broadcast.IdsOfAddIp | peer_list.c:56-86 | adding an address leaves the ids and their order alone, except that an unknown id goes to the end |
| Broadcast.SenderRecorded | broadcast.c:131-156 | the address of a datagram is recorded for its sender with its time, exactly as an update of its address list, and for nobody else; an invalid datagram and one of the own node change nothing |
| Broadcast.BroadcastThread.Announce | broadcast.c:298-304 | exactly one message with the peer and its address is pushed |
| Broadcast.AnnouncementsExact | broadcast.c:131-156 | over every sequence of datagrams the ids noted as announced are exactly the ids of the peer list in the same order, none twice and never the own id |
| Broadcast.BroadcastThread.PeerSeen | broadcast.c:296-309 | an unknown peer is announced with its address and entered, a known one is only updated; the ids that the list gains are those of the messages pushed |
| Broadcast.BroadcastThread.SendAvailablePacket | broadcast.c:311-336 | one AVAILABLE with the own id goes to the address that the packet came from, or -1 is returned and none goes |
| Broadcast.BroadcastThread.HandleDatagram | broadcast.c:131-160 | the ids of the list before, followed by those of the messages pushed, are the ids of the list afterwards; each message carries the address that the datagram came from; list and answers are those of the datagram |
| Broadcast.BroadcastThread.ReceiveLoop | broadcast.c:98-161 | over every sequence of datagrams the ids of all messages ever pushed to the command client are exactly the ids that the list has gained, in order; with an empty list at the start they are the whole list, none twice and never the own id |
| Broadcast.AnnouncingKept | broadcast.c:296-309 | each atomic step but a removal keeps the announced ids exactly those of the list and one about to be inserted |
| Broadcast.ThreeActsArePeerSeen | broadcast.c:296-309 | undisturbed, the three atomic steps are peer_seen |
| Broadcast.AnnouncedOnceInterleaved | broadcast.c:296-309 | as long as nobody removes a peer, in every interleaving nobody is announced twice and the own id never, although test and insertion take the lock separately |
| Broadcast.AnnouncedAfterRemoval | peer_list.c:109-135 | in every interleaving with removals an id is announced at most once more than it is removed |
| Broadcast.AnnouncedTwice | peer_list.c:109-135 | one removal is enough for a second announcement |
| Discovery.OneDelivery | broadcast.c:131-156 | a packet from another node makes its sender known and nobody else, and only a DISCOVER is answered, once |
| Discovery.OneDeliveryInNet | broadcast.c:131-156 | a delivery changes what the receiver knows about the sender and nothing else in the network |
| Discovery.MoveKeeps | broadcast.c:131-156 | every move keeps soundness, and every move but the loss of an AVAILABLE keeps every listing answered |
| Discovery.AlwaysSound | broadcast.c:296-336 | in every run, with loss, an AVAILABLE on its way was sent by a node that lists its destination |
| Discovery.Symmetric | broadcast.c:131-156 | in every run that loses no AVAILABLE, if b lists a then a lists b or an AVAILABLE from b to a is on its way; drained, listing is symmetric |
| Discovery.StartIsFine | broadcast.c:55-97 | the invariants hold for nodes that have just been started |
| Discovery.LossMatters | broadcast.c:311-336 | the loss of an AVAILABLE keeps every listing answered if and only if its receiver lists its sender already or a second one is on its way |
| Discovery.LossBreaksSymmetry | broadcast.c:311-336 | a run of three moves with one lost AVAILABLE ends drained and one-sided |
| Discovery.DeliveryWeighsLess | broadcast.c:140-156 | every delivery lowers twice the DISCOVERs plus the AVAILABLEs on their way |
| Discovery.NoPacketStorm | broadcast.c:140-156 | without a new timer broadcast the deliveries are bounded by that weight, and the nodes send at most one packet for each DISCOVER |
| LockStep.UpTurn | command_server.c:91-104 | a turn of the transfer of a request is a step of the client or the server, and fails exactly as that does |
| LockStep.DownTurn | command_client.c:81-86 | a turn of the transfer of a reply is a step of the server or the client, and fails exactly as that does |
| LockStep.ServerStepsAreTheCall | command_server.c:88-105 | the receiving steps of the server process are its receive call and its decision: nothing or an error drops the socket, a request is answered, an overrun ends it, and exactly the bytes of the call are gone |
| LockStep.ClientStepsAreTheCall | command_client.c:81-86 | the receiving steps of the client process are its receive call: the listing is read as a C string, a 0 as the empty one, and -1, an overrun or a listing that fills the buffer leaves the buffer |
| LockStep.EndOfReply | command_client.c:81-86 | a closed connection reads as an empty listing and the walk goes on, an error leaves the buffer of the client |
| LockStep.EndOfRequest | command_server.c:92-103 | the server drops the socket of a closed and of a broken connection |
| LockStep.SendFails | command_client.c:75-79 | a client whose send fails leaves the directory out, or waits for a reply if the result is 0; the server goes on with the next request |
| LockStep.NothingToReceive | util.c:354-374 | a recv on an empty stream that does not block fails |
| LockStep.KeptByAsking | command_client.c:72-75 | a send of the client keeps one frame on its way, its request, and all jobs queued or to come |
| LockStep.KeptByServing | command_server.c:91-104 | a recv of the server keeps one frame on its way, and a whole request becomes the reply with the listing of exactly that directory |
| LockStep.KeptByAnswering | command_server.c:193 | a send of the server keeps one frame on its way, its reply |
| LockStep.KeptByWaiting | command_client.c:81-86 | a recv of the client keeps one frame on its way, and a whole reply becomes the entries of the current directory |
| LockStep.KeptByDirectory | command_client.c:111-118 | a directory entry moves its request and its reply to the front of what is still to come |
| LockStep.KeptByFile | command_client.c:120-142 | a file entry queues its job exactly if there is no local file |
| LockStep.StepKeeps | command_client.c:67-147 | every step of either side, in any interleaving and with any pieces, keeps the invariant and lowers a bound, or is the first one that fails |
| LockStep.InvariantOfRuns | command_client.c:67-147 | the invariant holds in every state that a run reaches before its first failure, and its length is bounded |
| LockStep.InvariantAtStart | command_client.c:52-53 | the invariant holds when the walk starts |
| LockStep.ClientNeverTakesTooMuch | util.c:367-376 | the listing that the client has received is that of the current directory, and both streams are then empty |
| LockStep.ServerNeverTakesTooMuch | util.c:367-376 | the request that the server has received is the current one, and both streams are then empty |
| LockStep.NeverStuck | command_client.c:75-82 | in every state before the first failure some step is possible until the walk is done |
| LockStep.EveryRunIsExact | command_client.c:67-147 | every run without a failed call is bounded, can go on until it is done, and is then done with exactly the jobs of the walk and empty streams |
| LockStep.GoodStep | command_client.c:67-147 | if all frames ahead and on their way get through, no step fails |
| LockStep.BadRuns | command_client.c:67-147 | if a frame ahead does not get through, some run fails |
| LockStep.FailureExact | command_client.c:67-147 | some run fails if and only if some frame of the walk, in its place on its stream, does not always get through |
| LockStep.ChunkingsOfWalk | command_client.c:67-147 | every run is free of failed calls and ends with exactly the jobs of the walk if and only if every frame of the walk always gets through |
| LockStep.PassableIsOk | command_client.c:67-147 | under that condition the traffic also gets through the walk in which client and server take turns |
| LockStep.LuckyFailure | command_client.c:75-79 | a walk of an empty tree whose request cannot be sent ends with the right jobs, although a call has failed |
| LockStep.SplitRequestHangs | command_server.c:97-103 | the request "GET /" in pieces of four, four and one is dropped without closing the socket, and the client waits for good |
| LockStep.LostReply | command_client.c:82-86 | a reply of whose header two bytes come first is taken for an empty listing, and its rest stays on the stream |
| SocketSets.EveryConnectionCounted | file_server.c:82-106 | every accepted connection is still watched, was dropped, or (file server) was answered |
| SocketSets.Watcher.Watch | command_server.c:83-87 | an accepted socket is watched and within maxfd |
| SocketSets.Watcher.Scan | command_server.c:67-107 | every ready socket is visited although accepting moves maxfd, those with a request are answered in ascending order, and exactly the failed, closed and once answered ones are dropped |
| SocketSets.Watcher.OneAnswerPerConnection | file_server.c:88-107 | in every reachable state of the file server a descriptor was answered at most as often as it was accepted, and less often while it is watched |
| SocketSets.Watcher.CloseAll | command_server.c:112-119 | closes every watched socket except the one with number maxfd |

## Left out

- Sockets, select, getaddrinfo, connect, listener creation and interface enumeration: operating system calls; only the byte streams, the datagrams and the set of ready sockets are modelled.
- Timeouts, sleeping and the clock: receive_tcp_n ignores its timeout and tcp_message_send overwrites its own; time stamps are opaque numbers.
- Dates: strftime output is an opaque text; the time parsed from it is only logged.
- Memory reclamation: no claim that everything is freed (the failed connect path skips the free, and address lists are never freed); message_queue_free_queue is modelled only as to which messages it frees.
- Startup and shutdown windows in which a module has no queue, and signals: queues exist for the whole modelled run.
- The static state that strtok shares between the two server threads: each request parse has its own.
- Peers of which one has a file where another one has a directory, and local files that somebody other than the file client changes during a round.
- Rounds.SynchronisePeers: peers that offer the same path offer the same content; what one download leaves of the content of another is Synchronise.TwoContents.
- Rounds.DrainCommands: no download comes between the walks of its messages; walk and downloads at the same time are Synchronise.ConcurrentDrain.
- Message and peer ids as C memory: a job is a datatype, a peer id is a text that is compared as a whole.
- Symbolic links and `..` inside requested paths: a path resolves through the tree by names only, and a path that leaves the shared directory names nothing.
- A directory that changes between readdir and lstat: the type that readdir reports and the type that lstat reports are the same.
- Errors of open, read and malloc in the file server, and short writes in the file client.
- Logging, printing of addresses and hex strings, and the shutdown flag.
- A walk without end (Spaces.SpacedWalkEnds): its paths outgrow the buffers at some point, and what the program does then.
- CommandServer.HandleClient: requires a request in which strtok finds an id with a space behind it and a path; the original does not handle any other.
- CommandServer.ServeReadySocket: nothing is promised about a receive that leaves the buffer but that it is reported, and an answered request has to be one that HandleClient takes.
- FileServer.ServeReadySocket: as for the command server.
- CommandClient.DownloadRemoteDirectory: requires that the traffic of the walk gets through; what both sides do after a failed call is modelled in LockStep, as are all interleavings.
- LockStep.EveryRunIsExact: says nothing about the jobs of a run after its first failed call; what each side does then is part of the model.
- Chunking.RoundTrip: lengths below 2^31, as the loop counts in an int.
- FileClient.DownloadOne: requires that the request fits the server's buffer and gets through; a server that drops a request leaves the client waiting.
- Synchronise.ConvergesConcurrently: the walk is the sequence of its tests here, in the order proved for the walk itself.
- Broadcast.AnnouncedAfterRemoval: no other thread adds peers.
