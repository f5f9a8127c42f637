# A verified model of the remote backup server

The server keeps, for every user, a directory of backed-up files and an in-memory index
(path -> synced flag and digest). A client authenticates, asks for the index with SYNC, and then sends
files in chunks with CREATE and UPDATE and removes them with ERASE. This project models that server in
three layers and proves theorems about each and across them.

* **Wire format.** `Bytes`, `Tlv`, `Message`, `TlvView`: the TLV printer and the cursor that reads it.
  `Packing`, `MessageQueue`: a reply spread greedily over messages of at most 4096 bytes. `Framing`:
  the 8-byte length before each message. `Paths`: normalised paths and the signs that carry them.
* **Files and index.** `Disk`: directory entries, inodes and their bytes, kept apart so that removing or
  renaming a file under an open stream is faithful. `Transfer`: what one CREATE, UPDATE or ERASE chunk does
  to a user's index, open stream and files, for every decision of the operating system (`Faults`).
  `StreamDiscipline`, `Soundness`, `Isolation`, `Pruning`: theorems about it. `Arrival`, `Chunks`: whole transfers,
  with decisions of the operating system for each chunk of its own. `Store`, `AtomicStore`: the refinement of
  a map from paths to bytes.
* **Sessions and connections.** `Sessions`, `Answers`, `RequestIsolation`: what each request answers. `Replies`: what a peer can
  tell from the bytes. `Server`, `ServerSoundness`, `Halting`, `ClientProtocol`: all connections together, one whole
  request at a time. `Steps`, `Jobs`, `Schedules`: the same requests cut into single operations, one call to the file
  system or to the locked stream map each, which a pool of threads performs in any order. `Serial`,
  `NonInterference`, `Tree`, `Liveness`, `ManyUsers`: theorems over all schedules of single operations. `State`, `Handler`,
  `Connection`: the classes of the source, method by method, proved against those functions. `ConnectionMachine`: the
  callback loop as a state machine. `EndToEnd`: from the bytes a client writes to the bytes it reads.

The digest of a file is a function `Hasher` of its relative path and its bytes that yields 32 upper-case
hexadecimal digits; the credentials check and the id made from a user name are functions too (`Env`).
A process that ends (`std::exit`, or an exception nobody catches) is the outcome `Halt` or `Crashed`.

## What the proofs found

* A SYNC lists every regular file, also a temporary file that an interrupted update left behind. From then on
  updates of the same path are unsafe: the first chunk starts to write to the listed file, and the last one renames
  it away from under its entry (`InterruptedUpdateHarms`). An UPDATE chunk leaves the index untrue exactly when it
  is written and is either the last one while the index has an entry under the temporary name, or opens the user's
  stream while that entry has a digest other than TEMP (`UpdateSoundExactly`); no other request can
  (`ServeSoundExactly`). Over every run with at most one connection per user, the indexes are true in every
  reachable state if and only if no such chunk occurs (`IndexAlwaysSound`). With two connections of one user an
  ERASE is enough (`TwoSessionsHarm`).
* An OK on the last chunk always means that exactly the chunks answered OK are stored under a synced entry, with the
  digest announced (`CreateReplies`, `UpdateReplies`); if all chunks are answered OK it is the whole file
  (`OkMeansStored`). An ERROR on the last chunk does not always mean that the transfer is over: if an earlier chunk was
  answered OK and the last one is turned back because directories cannot be made or opening throws, the half file,
  its TEMP entry (for an UPDATE: the temporary file and the old digest) and the open stream stay; in every other
  case neither stream nor entry of the new content is left. The chunks of the next file are then added to the half
  file (`NextGoesToTheSameFile`).
* A transfer of a new file that is cut off by the end of the connection leaves the chunks answered OK, and the next
  SYNC lists the truncated file as synced, like any other (`CutCreateIsListed`).
* Any user can end the process for everybody. A request ends it exactly if its sign has no NUL; or it is a last chunk
  that passes the checks and is written, after which an old file cannot be removed or replaced, or there is no file
  of its name to read because the write went to an older stream, or the file cannot be read, or its digest is wrong
  and it cannot be removed; or it is a SYNC that meets a file that cannot be read (`ServerStopsExactly`). Two ordinary
  CREATE requests are enough, though nothing is refused (`TwoRequestsEndServer`).
* A stream that failed to open stays in the stream map. It is never replaced, so every later CREATE and UPDATE
  of that user fails until the connection ends (`BadUntilClosed`). This happens exactly when a transfer passes its
  checks and its first chunk that is not turned back meets a system that refuses to open the file, or a directory
  of that name (`JamsExactly`); a later chunk may then leave an empty file that no entry names.
* Threads cannot be told from whole requests: with at most one connection per user, every schedule of single
  operations is equivalent to an order of whole requests (`Serializable`), and every order of whole requests is what
  some schedule does (`EveryOrderIsScheduled`).
* The file is opened before the stream map is searched, so a chunk that is written to an older stream still
  creates an empty file under its own name. The index survives this because the digest is checked on the last
  chunk.
* `verify_end` looks at bytes, not at TLVs: a chunk whose content ends in the bytes 3, 0, 0, 0, 0 is taken for
  the last one (`VerifyEndMeaning`, `MessageRoundTrip`).
* The decoder shifts a byte into the sign bit of an `int`, so it reads lengths correctly exactly below 2^31
  (`LengthRoundTrip`).

## Model

| member | source | states |
|---|---|---|
| Tlvs.LengthRoundTrip | communication/tlv_view.cpp:30-33 | For every 32-bit length, the value `next_tlv` accumulates is the length `add_TLV` wrote if and only if it is below 2^31; from there on the `int` shift sign-extends. |
| Tlvs.EncodeFormat | communication/message.cpp:34-43 | A TLV is printed as its tag, four bytes of length with the most significant first, and its value. |
| Tlvs.DecodeEncode | communication/message.cpp:34-43 | Parsing the bytes of any list of TLVs whose values are shorter than 2^31 gives back exactly that list. |
| Tlvs.EncodeDecode | communication/tlv_view.cpp:21-37 | The parser accepts a buffer as a list if and only if the buffer is the encoding of that list: every well-formed buffer encodes exactly one list. |
| Tlvs.VerifyEndMeaning | communication/tlv_view.cpp:44-51 | On any non-empty encoded message `verify_end` is true if and only if the last TLV is an empty END or its value has at least five bytes and ends in 3,0,0,0,0. |
| Messages.Message.AddTlv | communication/message.cpp:34-43 | The buffer grows by exactly the tag, the big-endian length and the value. |
| Messages.Message.Contents | communication/message.cpp:59-61 | What a well-formed buffer holds is the message whose encoding it is. |
| TlvViews.TlvView.constructor | communication/tlv_view.cpp:11-13 | A new view stands before the first TLV of the message and is neither valid nor finished. |
| TlvViews.TlvView.ReadLength | communication/tlv_view.cpp:30-33 | The byte-by-byte accumulation with 64-bit wrap-around equals the closed form of the decoded length. |
| TlvViews.TlvView.NextTlv | communication/tlv_view.cpp:21-37 | Each call shows the next TLV of the message in order, with its tag, length and value, and answers false exactly when none is left, from then on for ever. |
| TlvViews.TlvView.VerifyEnd | communication/tlv_view.cpp:44-51 | The backward walk answers whether the buffer ends in the mark, and that is the case exactly when the last TLV looks like END. |
| TlvViews.ShowAll | communication/message.cpp:95-106 | Iterating until `next_tlv` is false sees every TLV of the message once, in order. |
| MessageQueues.MessageQueue.constructor | communication/message_queue.cpp:14-18 | A new queue holds one message with only the type byte and no error. |
| MessageQueues.MessageQueue.AddTlv | communication/message_queue.cpp:32-43 | The queued messages are the greedy packing of all TLVs added so far, each encoded behind the queue's type byte, and the error flag holds exactly if an ERROR was added. |
| MessageQueues.MessageQueue.Pop | communication/message_queue.cpp:45-47 | The head goes; type, error flag and the rest of the packing stay. |
| MessageQueues.MessageQueue.FrontMessage | communication/message_queue.cpp:49-51 | The head is the next message of the packing. |
| MessageQueues.MessageQueue.VerifyError | communication/message_queue.cpp:61-63 | True exactly if an ERROR was added, also when all messages have been taken out. |
| Packing.PackKeepsOrder | communication/message_queue.cpp:32-43 | The TLVs of the messages, concatenated, are the TLVs added, in order. |
| Packing.PackBounds | communication/message_queue.cpp:32-43 | If every TLV fits in a message of its own, no message exceeds 4096 bytes and none is empty. |
| Packing.GreedyIsOptimal | communication/message_queue.cpp:32-43 | No way of cutting the same list into consecutive messages of at most 4096 bytes uses fewer messages. |
| Packing.MessageCount | communication/message_queue.cpp:32-43 | For k messages, 4096 * (k - 1) is at most twice the bytes of the TLVs. |
| Paths.SplitSignExact | utilities/tools.cpp:32-39 | Splitting yields (text, digest) if and only if the sign is text, NUL, digest with no NUL in the digest: the cut is at the last NUL. |
| Paths.SignRoundTrip | utilities/tools.cpp:16-39 | A sign survives printing and splitting if and only if its digest holds no NUL, whatever the path. |
| Paths.ParseText | utilities/tools.cpp:16-23 | A normalised path is recovered from its generic form. |
| Paths.TextExactly | core/request_handler.cpp:102 | A text is the printed form of a path if and only if it reads as that path, begins with a slash, does not end in one and has no two in a row. |
| Paths.TextConcat | core/request_handler.cpp:102 | Names are printed in order from the root down, each behind a slash. |
| Paths.TempText | core/request_handler.cpp:268-269 | In print the temporary name is the name and `.temp`. |
| Soundness.WriteKeepsOthers | core/open_streams.cpp:16-26 | Opening a file and writing to whichever stream the user has leaves every other index entry true, and all of them when the stream was open before or the name is not indexed. |
| Soundness.SettleKeepsSound | core/request_handler.cpp:204-225 | Whatever the index was told about a path, after the digest check of the last chunk the index is true. |
| Soundness.CreateKeepsSound | core/request_handler.cpp:136-227 | No CREATE chunk, first, middle or last, on its own stream or another's, under any operating-system failure, makes the index untrue. |
| Soundness.UpdateKeepsSound | core/request_handler.cpp:237-330 | The same for UPDATE when the index has no entry under the temporary name. |
| Soundness.EraseKeepsSound | core/request_handler.cpp:340-382 | The same for ERASE, also when removals fail or a stream is open on the file. |
| Soundness.UpdateSoundExactly | core/request_handler.cpp:249-329 | An UPDATE chunk, first, middle or last and under any operating-system failure, leaves a true index if and only if it is not written, or is the last and the index has no entry under the temporary name, or is not the last and finds a stream open or no such entry with a digest other than TEMP. |
| Soundness.ServeSoundExactly | core/request_handler.cpp:136-382 | Of all CREATE, UPDATE and ERASE requests exactly those update chunks leave an index that is not true. |
| Pruning.PruneExactly | core/request_handler.cpp:376-381 | The loop removes the directories on the way up that lead to nothing else, as far up as the operating system lets it, all of them, nothing else and never the user's own, and leaves a tree. |
| Pruning.EraseExactly | core/request_handler.cpp:357-382 | In a tree without empty directories a successful ERASE removes the file, its entry and exactly those directories below the user's own in which it was the only file, as far up as the operating system lets it; if it lets it all the way, again no directory is empty. |
| Arrivals.ArrivedIsKept | core/request_handler.cpp:172-203 | Whatever the operating system refuses at each chunk, what has arrived is the concatenation of exactly the chunks answered OK, and a transfer is under way if and only if one was. |
| Arrivals.JammedExactly | core/open_streams.cpp:21-25 | A transfer's stream fails to open if and only if its first chunk that is not turned back meets a refusal to open the file or a name that is a directory's. |
| Chunks.CreateUnderWay | core/request_handler.cpp:158-203 | After any proper prefix of a CREATE's chunks, whatever the operating system does at each, the state and the replies are those of the chunks that arrived: directories made, file, TEMP entry and stream. |
| Chunks.ChunkedCreate | core/request_handler.cpp:158-227 | A file sent in any number of chunks, whatever the operating system does at each: OK for exactly the chunks that arrive, and the last one stores the file, removes it, leaves the transfer as it was, or ends the process, each under its exact condition. |
| Chunks.CreateReplies | core/request_handler.cpp:158-227 | The last reply is OK if and only if exactly the chunks answered OK are in the file under a synced entry of the announced digest. If it is an error, the transfer is still under way if and only if the last chunk was turned back and an earlier one answered OK; otherwise there is no entry and no file but an empty one behind a failed stream. |
| Chunks.OkMeansStored | core/request_handler.cpp:204-226 | If all chunks of a CREATE are answered OK, the whole file is stored under its digest. |
| Stores.CreatedMeaning | core/request_handler.cpp:204-226 | When a CREATE is decided the file has these bytes and a synced entry, or there is neither; all other files and entries are as before and no stream is open. |
| Chunks.UpdateUnderWay | core/request_handler.cpp:271-301 | After any proper prefix of an UPDATE's chunks, whatever the operating system does at each, the old file is untouched, its entry keeps the old digest, and exactly the chunks answered OK are in the temporary file. |
| Chunks.ChunkedUpdate | core/request_handler.cpp:259-330 | An UPDATE in any number of chunks, whatever the operating system does at each: OK for exactly the chunks that arrive, and the last one replaces the file, removes it, leaves the transfer as it was, or ends the process, each under its exact condition. |
| Chunks.UpdateReplies | core/request_handler.cpp:259-330 | The last reply is OK if and only if exactly the chunks answered OK are in the file's place under a synced entry of the announced digest. If it is an error, the old file and digest stand if and only if the last chunk was turned back or the stream had failed, and otherwise file and entry are gone. |
| Chunks.NextGoesToTheSameFile | core/open_streams.cpp:21-25 | While a CREATE is under way, every chunk of any other file that is written is added to the file of that CREATE. |
| Stores.UpdatedMeaning | core/request_handler.cpp:302-329 | When an UPDATE is decided the new bytes stand under a synced entry, or file and entry are gone; all other files and entries are as before, the temporary file is gone and no stream is open. |
| Stores.EmptyUser | core/request_handler.cpp:99-117 | A user whose directory is empty stands for the empty store. |
| AtomicStore.OpRefines | core/request_handler.cpp:136-382 | One whole transfer or erasure, refused ones included and whatever the operating system does at each chunk, does and answers what the atomic operation on a map from paths to bytes does, or leaves exactly the transfer under way, the failed stream or the ended process it predicts. |
| AtomicStore.RefinesAtomicStore | core/request_handler.cpp:136-382 | Any sequence of whole transfers and erasures, cut into any chunks and whatever the operating system does at each, ends with disk, index, directories and every reply as on the atomic store, up to and including the first operation that is not completed. |
| AtomicStore.DuringTransfer | core/request_handler.cpp:172-301 | In the middle of a transfer, whatever the operating system refuses, the files are those of the store but for the one name written under: the new file of a CREATE, the temporary file of an UPDATE. |
| StreamDiscipline.BadStays | core/open_streams.cpp:16-26 | Once a user's stream has failed to open, no CREATE or UPDATE chunk succeeds, under any path and any behaviour of the operating system. |
| StreamDiscipline.BadUntilClosed | core/open_streams.cpp:16-38 | And so it stays over every sequence of requests, ERASE among them, until the connection ends: the process goes on, the failed stream is still there and the next CREATE or UPDATE chunk fails. |
| AtomicStore.JamsExactly | core/request_handler.cpp:172-180 | A transfer leaves a failed stream if and only if it passes its checks and its first chunk that is not turned back meets a refusal to open its file, or a directory of that name; then none of its chunks is answered OK. |
| StreamDiscipline.StreamAfter | core/request_handler.cpp:172-206 | A chunk that reaches the write leaves the stream open exactly if it is not the last; a last chunk clears it, right or wrong digest; any other request neither opens nor closes one. |
| StreamDiscipline.StreamOpenExactly | core/open_streams.cpp:16-38 | Over every run a stream is open if and only if the last act that decided, a write or a shutdown, was the write of a chunk that was not last. |
| StreamDiscipline.StartsOnItsOwnFile | core/open_streams.cpp:21-25 | A user without a stream writes to the file of the path at hand. |
| Isolation.ServeAlike | core/request_handler.cpp:136-382 | A chunk served on two disks that agree below the user's directory has the same outcome there: same halt, status, index, stream and files. |
| Isolation.ServeFrame | core/request_handler.cpp:136-382 | A chunk changes nothing below another user's directory. |
| Steps.AloneIsServe | core/request_handler.cpp:136-382 | A thread that performs the single operations of a CREATE, UPDATE or ERASE undisturbed does what the whole request is specified to do. |
| Steps.TickAlike | core/request_handler.cpp:136-382 | A single operation comes out the same on two disks that agree below the user's directory. |
| Steps.TickFrame | core/request_handler.cpp:136-382 | A single operation changes nothing below another user's directory. |
| Jobs.AloneIsHandled | core/request_handler.cpp:392-425 | The same as for chunks holds for every request, SYNC entry by entry included, from the arrival of the message to the reply. |
| Serial.Serializable | core/server.cpp:67-77 | For every schedule of the single operations of any number of connections, at most one per user: the replies, in the same order, are those of the whole requests served one after the other where each is answered; the process ends in both or in neither; and every user between two requests has the same files, directories, index and stream in both. |
| Liveness.RequestIsServed | core/connection.cpp:140-168 | A message that arrives at an idle connection is served, whatever other threads are in the middle of: after a bounded number of operations of its own thread the connection is idle again and the pool has exactly the state, session and reply of the whole request, or the process has ended as that request does. |
| Liveness.EveryOrderIsScheduled | core/server.cpp:67-77 | Every order of whole requests, connections and shutdowns is what some schedule of single operations does: same state, same replies, and exactly these whole requests. |
| NonInterference.NonInterference | core/open_streams.cpp:16-38 | For every schedule of single operations in which only the given connections authenticate as a user, leaving out all operations of all others changes none of that user's files, connections, stream and replies for as long as the process lives; an operation that ends it does so without the others too if and only if it belongs to the given connections. |
| NonInterference.AloneOnTheServer | core/user.h:66-68 | From a server that has just started, as long as the process lives, what the user reads and is answered is what the schedule without the others gives. |
| ServerSoundness.ScanSound | core/request_handler.cpp:99-115 | What a SYNC puts into an empty index is true. |
| ServerSoundness.IndexAlwaysSound | core/request_handler.cpp:136-382 | Over every run of connections, requests and shutdowns, in any interleaving and under any operating-system failure, the index of every synced session is true in every reachable state if and only if no update chunk of the run is one of those `UpdateSoundExactly` names. |
| ServerSoundness.StepSoundExactly | core/request_handler.cpp:392-425 | One event on a server whose indexes are all true leaves them all true if and only if it is not such an update. |
| ServerSoundness.StartsSound | core/open_streams.h:17-19 | A server that has just started satisfies the invariant. |
| ServerSoundness.SoundMeaning | directory/resource.h:8-15 | Then every entry has a file, and a synced entry, like any that is not TEMP, has the digest of that file's bytes. |
| ManyUsers.SoundBetweenRequests | core/server.cpp:67-77 | In every schedule of single operations, with at most one connection per user and no such update, the index of every synced session between two requests is true. |
| ServerSoundness.InterruptedUpdateHarms | core/request_handler.cpp:99-115 | An update cut off after its first chunk is listed by the next SYNC under its temporary name, and the next chunk of an update of the path, the last one or not, makes the index untrue. |
| ServerSoundness.TwoSessionsHarm | core/request_handler.cpp:357-372 | With two synced sessions of one user, an ERASE over one leaves the index of the other untrue. |
| ServerSoundness.AnonymousShutdown | core/connection.cpp:53-55 | The shutdown of a connection that never authenticated changes no stream. |
| ServerSoundness.UntouchedBySilent | core/request_handler.cpp:392-425 | Before its SYNC succeeds a connection touches neither disk nor streams; flags never fall; only AUTH with accepted credentials authenticates and only SYNC syncs. |
| ServerSoundness.SessionOnlyRises | core/request_handler.cpp:404-424 | Over every run a live session only rises, keeps its id once authenticated, and that id belongs to an accepted name. |
| Servers.StepKeepsOrdinary | core/request_handler.cpp:392-425 | Whatever clients send, inodes stay unshared, streams write below their own user's directory, synced implies authenticated, and the index is empty before SYNC. |
| Trees.ServeKeepsTree | core/request_handler.cpp:136-382 | Whatever the operating system refuses, after every request no name is both file and directory, and all that exists has its parents. |
| Trees.AlwaysTree | core/request_handler.cpp:392-425 | So it is in every state of every run. |
| Trees.ScheduleKeepsTree | core/server.cpp:67-77 | And in every state of every schedule of single operations. |
| Halting.CreateHaltsExactly | core/request_handler.cpp:204-225 | Whatever the operating system does, a CREATE chunk ends the process if and only if it is the last, passes the checks and is written, and then no file bears its name (the write went to an older stream), or its file cannot be read, or its digest is wrong and it cannot be removed. |
| Halting.UpdateHaltsExactly | core/request_handler.cpp:302-329 | The same for an UPDATE chunk and the temporary name, or if the old file cannot be removed or the new one not renamed. |
| Halting.HaltsExactly | core/request_handler.cpp:136-382 | The same for every request; ERASE never ends the process. |
| Halting.TwoRequestsEndServer | core/request_handler.cpp:158-225 | In every state with a true index and no stream, the first chunk of a new file in a directory and then the last chunk of a file with that directory's name end the process. |
| Halting.ServerStopsExactly | core/request_handler.cpp:392-425 | Whatever the operating system does, a request ends the whole server if and only if it is for files and its sign has no NUL, or it is one of those chunks, or it is a SYNC that meets a file that cannot be read. |
| Replies.RenderShape | core/request_handler.cpp:30-44 | Every reply is ITEMs, then exactly one OK or ERROR, then exactly one END, and holds an ERROR exactly if it reports one. |
| Replies.MarkedExactly | communication/message_queue.cpp:32-43 | `verify_end` is true on the last message of a reply, and on an earlier one only if that one's last ITEM ends in the bytes of END. |
| Replies.EveryReplyEnds | core/request_handler.cpp:392-425 | Every reply to a request that fits in a message (a SYNC with signs of at most 4090 bytes) has only TLVs that fit, and `verify_end` singles out its last message unless a sign ends like END. |
| Replies.RefusalsChangeNothing | core/request_handler.cpp:392-425 | A request turned down before anything is done leaves disk, streams and session as they were. |
| Answers.AuthExactly | core/request_handler.cpp:55-81 | AUTH is answered OK if and only if a user name and a password come first and are accepted, and exactly then the session is authenticated under the id of that name with an empty index; otherwise it is unchanged and the code says which of the three was missing. |
| Answers.EveryRefusal | core/request_handler.cpp:392-425 | ERR_NO_CONTENT, ERR_MSG_TYPE_REJECTED and the codes of a missing ITEM or CONTENT are each given in exactly one case; KEEP_ALIVE is answered OK; a SYNC whose directory cannot be read with ERR_SYNC_FAILED; the sign named is echoed. |
| Answers.AnsweredAnyway | core/request_handler.cpp:392-425 | Every request but those for files and SYNC is answered and leaves disk and streams alone. |
| Answers.CreateAnswers | core/request_handler.cpp:136-227 | The four answers to a CREATE chunk, each under its exact condition. |
| Answers.UpdateAnswers | core/request_handler.cpp:237-330 | The five answers to an UPDATE chunk, each under its exact condition. |
| Answers.EraseAnswers | core/request_handler.cpp:340-382 | The three answers to an ERASE, each under its exact condition; OK if and only if the entry goes. |
| Answers.LoggedResult | core/connection.cpp:78-83 | What is logged about a reply is an error if and only if its status is one. |
| Replies.ReplyReadBack | core/connection.cpp:101-135 | A peer that unframes and decodes the bytes of a reply has the reply's TLVs, from messages of at most 4096 bytes. |
| Replies.ScanExactly | core/request_handler.cpp:99-115 | From an empty index the scan meets no file twice and ends the process exactly if one of the files cannot be opened; otherwise it lists every regular file of the traversal with its digest, in order. |
| Replies.SyncEndToEnd | core/request_handler.cpp:90-125 | A SYNC ends the process exactly if the directory can be read and one of its files cannot; otherwise it is answered OK exactly if the directory can be read. Then the index is exactly the regular files, synced under their digests, and the peer recovers exactly that index from the bytes, in traversal order; if not, the answer is ERR_SYNC_FAILED without ITEMs and the index is empty. |
| Replies.SyncPrintsSigns | core/request_handler.cpp:99-115 | The ITEMs on the wire are one for each regular file, in traversal order: its path with each name behind a single slash, a NUL, and its digest. |
| Framing.UnframeFrame | core/connection.cpp:107-132 | Messages written each behind its 8-byte size are read back as the same list. |
| Framing.LittleEndianAt | core/connection.cpp:107-112 | The header before a message is its size with the least significant byte first. |
| Framing.FrameUnframe | core/connection.cpp:181-199 | A byte stream that reads as a list of messages is what writing that list gives. |
| ClientProtocol.MessageRoundTrip | core/request_handler.cpp:145-187 | The server reads from a client's message the request that was meant, if and only if no chunk before the last ends in the bytes of END. |
| ClientProtocol.ServerRuns | core/request_handler.cpp:413-419 | Requests sent as messages over one synced connection do to the whole server, and are answered, what serving them one by one says, whatever the operating system does at each, and end it if and only if that does. |
| ClientProtocol.SyncStartsStore | core/request_handler.cpp:90-125 | A successful SYNC of a user without a stream, meeting no left-over temporary file, starts a session that stands for the files and directories on the disk as an atomic store. |
| ClientProtocol.LoginAndSync | core/request_handler.cpp:392-425 | A client that connects, logs in with accepted credentials and asks for a SYNC is answered OK twice, if its directory can be read and holds no left-over temporary file, and its session stands for the files and directories on the disk. |
| ClientProtocol.ConnectStarts | core/user.h:9-15 | An accepted connection starts anonymous, unsynced and with an empty index. |
| ClientProtocol.ShutdownReleases | core/connection.cpp:53-60 | A connection that ends is gone and its user's stream is closed; nothing else changes. |
| ClientProtocol.AtomicStoreOverTheWire | core/request_handler.cpp:392-425 | Whole transfers and erasures sent as messages, whatever the operating system does at each, leave the server's disk and index, and every reply, as on the atomic store, and end the process if and only if that says so. |
| EndToEnd.AtomicStoreOnBytes | core/connection.cpp:101-202 | A client that writes them as framed bytes to a connection reads, from the bytes that came back when the connection waits for the next request, exactly the statuses of the atomic store. |
| EndToEnd.BytesAreServed | core/connection.cpp:101-202 | Such a run of the connection exists for any operations that do not end the process: all requests are read, all replies written, and the client reads the atomic store's statuses. |
| ManyUsers.AtomicStoreAmongOthers | core/open_streams.cpp:16-38 | The same in every schedule of single operations in which any other users' threads run between and within those requests: as long as the process lives, the user's replies, and between requests disk and index, are those of the user's own atomic store. |
| ManyUsers.OperationsAreServed | core/connection.cpp:140-168 | Such schedules exist for any operations that do not end the process: one whose whole requests are exactly their messages, after which the connection is idle and has been answered as the atomic store answers. |
| ClientProtocol.OnlyOneStore | core/request_handler.cpp:99-115 | The store a state stands for is the one on the disk. |
| ClientProtocol.SyncKeepsStore | core/request_handler.cpp:90-125 | The session that the next successful SYNC starts stands for exactly the store the last session left. |
| ClientProtocol.CutCreateIsListed | core/request_handler.cpp:187-203 | When a new file's transfer is cut off before its last chunk and some chunk was answered OK, the session of the next SYNC stands for the store with the concatenation of the chunks answered OK as that file, listed as synced. |
| State.Dir.InsertOrAssign | directory/dir.cpp:35-39 | The entry is set, no other changes, and the result tells whether it is new. |
| State.Dir.Erase | directory/dir.cpp:47-51 | The entry is gone, no other changes, and the result tells whether there was one. |
| State.Dir.Rsrc | directory/dir.cpp:81-87 | The entry of the path, or nothing exactly if there is none. |
| State.Dir.Clear | directory/dir.cpp:107-111 | No entry is left. |
| State.User.constructor | core/user.h:9-15 | A session starts unauthenticated and unsynced, without id and directory. |
| State.OpenStreams.GetStream | core/open_streams.cpp:16-26 | The file is opened, and so created, in any case; a user's older stream wins and the map is unchanged; otherwise the new stream is stored, even when it failed to open. |
| State.OpenStreams.EraseStream | core/open_streams.cpp:35-38 | The user's stream is gone and no other. |
| Handlers.RequestHandler.CloseResponse | core/request_handler.cpp:30-44 | Adds OK, or ERROR with the decimal of the code, and then END. |
| Handlers.RequestHandler.WriteToStream | core/request_handler.cpp:172-184 | Disk and stream map end as the write of one chunk says. |
| Handlers.RequestHandler.CheckDigest | core/request_handler.cpp:204-225 | File, entry, status or the end of the process are those of the digest check. |
| Handlers.RequestHandler.StoreCreated | core/request_handler.cpp:158-226 | Disk, streams, index and status are those of one CREATE chunk. |
| Handlers.RequestHandler.StoreUpdated | core/request_handler.cpp:259-329 | Disk, streams, index and status are those of one UPDATE chunk. |
| Handlers.RequestHandler.RemoveEmptyDirs | core/request_handler.cpp:376-381 | The loop ends with the pruned disk. |
| Handlers.RequestHandler.HandleCreate | core/request_handler.cpp:136-227 | State, reply queue or the end of the process are the outcome specified for a CREATE message. |
| Handlers.RequestHandler.HandleUpdate | core/request_handler.cpp:237-330 | The same for an UPDATE message. |
| Handlers.RequestHandler.HandleErase | core/request_handler.cpp:340-382 | The same for an ERASE message. |
| Handlers.RequestHandler.HandleSync | core/request_handler.cpp:90-125 | Index, flags, reply queue or the end of the process are the outcome specified for a SYNC. |
| Handlers.RequestHandler.HandleAuth | core/request_handler.cpp:55-81 | Session and reply queue are the outcome specified for an AUTH. |
| Handlers.RequestHandler.HandleRequest | core/request_handler.cpp:392-425 | For every request the state and the queued reply are the specified outcome. |
| ConnectionMachine.NextKeepsInv | core/connection.cpp:101-135 | No completion, error or timeout takes the head of an empty queue; what was sent plus what remains is always the framed replies, and what was read the framed requests and, before a body, its header. |
| ConnectionMachine.LoopSendsReplies | core/connection.cpp:90-202 | Over every sequence of events, whatever the new queue holds, the bytes sent are a prefix of the framed replies, in order and once each; whenever the connection waits for a request they are all of them, the bytes read are exactly the framed requests, and each has its reply. |
| ConnectionMachine.PeerUnframes | core/connection.cpp:181-199 | A peer reading with the same grammar recovers every message of every reply, and the connection every request. |
| ConnectionMachine.RequestAnswered | core/connection.cpp:90-202 | Without errors and timeouts, header, body and two write completions per message of the reply lead from waiting for a request to waiting for the next: exactly the framed request is read and exactly the framed reply written. |
| ConnectionMachine.AllAnswered | core/connection.cpp:90-202 | For any list of requests and any replies there is a run in which all are answered. |
| ConnectionMachine.IdleExactly | core/connection.cpp:53-60 | A connection stops if and only if a completion has an error or comes after the timer. |
| ConnectionMachine.TimedOutExactly | core/connection.cpp:35-38 | The timeout flag is set if and only if the timer has fired. |
| ConnectionMachine.TimerAbsorbs | core/connection.cpp:35-38 | After the timer fires no request is handled any more, and at most the write under way completes. |
| ConnectionMachine.TimeoutAbsorbs | core/connection.cpp:31-48 | Once the timeout flag is set no further request is handled, and at most the write under way completes. |
| Connections.Connection.ReadRequest | core/connection.cpp:174-181 | One step of the machine; an error releases the user's stream. |
| Connections.Connection.HeaderRead | core/connection.cpp:184-199 | One step of the machine; the header is the little-endian size. |
| Connections.Connection.HandleRequest | core/connection.cpp:140-168 | The request is handled as specified and the machine goes on to write exactly the packed reply; after a timeout or an error nothing is handled, the disk and the session are as before, and only an error that comes first releases the user's stream. |
| Connections.Connection.WriteResponse | core/connection.cpp:101-112 | One step of the machine: the size of the head of the queue goes out. |
| Connections.Connection.HeaderWritten | core/connection.cpp:113-133 | One step of the machine: the head leaves the queue and the callback bound fits what is left. |
| Connections.Connection.BodyWritten | core/connection.cpp:122-132 | One step of the machine: completion or the next message, as bound. |
| Connections.Connection.HandleCompletion | core/connection.cpp:90-95 | One step of the machine: read on when all went well, or shut down on an error. |
| Connections.Connection.LogWrite | core/connection.cpp:78-83 | The logged result describes the whole reply, also when its messages are gone. |
| Connections.Connection.Shutdown | core/connection.cpp:53-60 | The user's stream is released and nothing is pending. |
| Connections.Connection.TimeOut | core/connection.cpp:35-38 | The flag is set for good, the pending operation stays, and the user's stream is released. |

## Left out

- TlvViews.TlvView.NextTlv: requires a well-formed buffer; truncated TLVs and headers above 4096 are read past the end by the source.
- Messages.Message.AddTlv: requires a value shorter than 2^31, where the source's `int` loop counter overflows.
- Handlers.RequestHandler.HandleRequest: requires normalised paths (no `..`, no empty name); the path type of the source compares other spellings in ways not modelled.
- Handlers.RequestHandler.HandleSync: requires path texts of at most 4096 bytes; a traversal that throws is modelled as throwing before the first entry, which leaves the same empty index and new reply.
- Handlers.RequestHandler.CloseResponse: writes the decimal of the code; the source keeps a pointer past the end of the string that holds it.
- ServerSoundness.IndexAlwaysSound: assumes at most one live connection per user in every state; `TwoSessionsHarm` shows what happens otherwise.
- ClientProtocol.SyncStartsStore: assumes that the SYNC meets no left-over temporary file; what follows otherwise is `InterruptedUpdateHarms`.
- AtomicStore.RefinesAtomicStore: the run theorem ends with the first operation that is left under way, spoils the stream or ends the process; what follows is `NextGoesToTheSameFile`, `BadUntilClosed` and `CutCreateIsListed`.
- Halting.CreateHaltsExactly: a directory under the file's name is taken to be unreadable, so that reading its digest ends the process; a file system on which a directory can be opened and measured is not modelled.
- Two live connections of the same user: they share a stream but hold separate indexes. `NonInterference` allows them, `Serializable` does not.
- State.User.constructor: the two flags start false; the source leaves them without an initial value.
- Writes reach the disk at once: the source flushes an update only when its stream is closed, and nothing reads the temporary file before that. Failing writes and full disks are not modelled.
- Boost.Asio sockets, TLS, the acceptor and signals: only the order in which a connection sees completions is kept. The thread pool is modelled by schedules of single operations: one call to the file system, the reading of one digest, `create_directories`, or one operation of the stream map under its mutex. A connection's own callbacks, its timer's included, run one after the other, never within a request.
- MD5, SHA-512 and the scan of the credentials file: abstract functions.
- Logger, console output, option parsing, plain getters and setters, locking in the index: no property worth stating.
