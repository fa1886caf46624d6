# ServerWorker: one server-side synchronisation session

The sync server gives each client connection its own `ServerWorker`. The worker runs a
dispatch loop. Before each read of the next message it re-arms a two-minute idle
timeout. It then reads one token and serves it:

- the handshake is answered with the message vocabulary;
- a token outside the vocabulary gets an `UnknownMessageError` and ends the session;
- `SYNC_FILES` offers every catalog entry as (true, path, hash) and reads the client's
  yes/no. On NO it arms a ten-minute timeout and streams the file as a `long` size plus
  buffer-sized chunks. The offers close with `false`;
- `GET_MANAGED_DIRECTORIES` and `GET_NUMBER_OF_MANAGED_FILES` answer the directory list
  and the catalog size;
- `EXIT` ends the session.

Every reply is flushed. An `IOException` while replying ends the loop. An `IOException`
inside the SYNC_FILES loop only ends that loop. When the timeout fires, the socket is
closed and the blocked read fails with a `SocketException`, which ends the loop. Any
other failed read of the next message is logged and the loop goes on. `teardown` then
cancels the timeout, drops the Timer and closes the socket. The logger of a connection is named after the peer address, with
the characters `/ . : @ ? | * "` replaced by `-`.

The model has four modules:

- `Protocol` (protocol.dfy) holds the message kinds and vocabulary, `matchMessage`, the
  items that travel over the wire and the environment of a session (`Config`). It also
  holds the logger-name sanitiser.
- `SessionSpec` (session_spec.dfy) gives the effect of every piece of `run` as a pure
  function over a `Session` value: socket state, timer state, output, remaining input and
  a log of blocking reads.
- `SessionProperties` (session_properties.dfy) proves what those functions do. It covers
  the exact output of each branch, the framing of a file transfer and the SYNC_FILES
  negotiation (reference definitions `Chunked`, `TransferWires` and `Negotiation`). It
  also proves what a transport that breaks part-way leaves of each reply, and the
  invariants of a whole session: at most one timeout is live, every read of the next
  message runs under a timeout scheduled for it, output and input only move forward, and
  a session that ends is closed with its timeout cancelled.
- `Worker` (server_worker.dfy) is the class `ServerWorker`. Its fields are the socket
  state, the streams and the timer bookkeeping. Each method is proved to have exactly
  the effect of its `SessionSpec` function. `transferFile` keeps its `byte[]` buffer and
  its read/write loop. The SYNC_FILES loop and the dispatch loop are `while` loops whose
  invariants tie the state to the specification.

The environment is a parameter of the session:

- the input stream is a script of events (`In`): a token, a null object, an int, the end
  of the stream (the peer closed its end), or the socket closed by the timeout. A read
  consumes a token or a null object where a message is expected, and an int where an
  answer is expected. Any other failed read consumes nothing, as the object stream does.
  A script that runs out means the peer sends nothing more and keeps its end open until
  the timeout fires;
- the transport either works or breaks for good after a given number of writes
  (`brokenAt`);
- the filesystem maps a path to its stat'ed size and to the bytes a stream on it actually
  yields. A path that cannot be stat'ed is absent.

The loop as written never ends once the peer has closed its end: every pass re-arms the
timeout, so it never fires, and every read fails without consuming anything (see
"## Findings"). `SessionSpec.RunLoop` therefore returns `Spins` at the first such pass
instead of diverging. `SessionSpec.RunIntended` is the loop that ends there.

`LengthPromiseNotCorrected` records a behaviour the code keeps as written. When a file
yields fewer bytes than its stat'ed size, the size already sent is not corrected. Fewer
bytes follow, and the closing flush is still sent.

## Model

| member | source | states |
|---|---|---|
| Protocol.SanitizeAddress | src/main/java/com/superzanti/serversync/server/ServerWorker.java:50 | the result has the input's length, contains no reserved character, keeps every other character in place and puts '-' where a reserved one was |
| Protocol.LoggerName | src/main/java/com/superzanti/serversync/server/ServerWorker.java:50 | the logger name is "server-connection-from-" followed by exactly the sanitised address, and no reserved character follows that prefix |
| Protocol.MatchedIsKnown | src/main/java/com/superzanti/serversync/server/ServerWorker.java:251-253 | a token that matches a kind is a value of the vocabulary, so the unknown-message check (line 103) never rejects a token a handler would serve |
| SessionSpec.ClearTimeout | src/main/java/com/superzanti/serversync/server/ServerWorker.java:255-260 | afterwards no timeout is pending; with the timer invariant no task of the worker is live; the task reference and the Timer are kept |
| SessionSpec.SetTimeout | src/main/java/com/superzanti/serversync/server/ServerWorker.java:262-271 | the old task is cancelled and a new task with a fresh id and the requested duration becomes the pending timeout; under the timer invariant it is the only live task |
| SessionSpec.Fire | src/main/java/com/superzanti/serversync/server/ServerWorker.java:286-296 | the timeout task runs once: the socket is closed and no timeout remains pending. The task reference, the task ids and the Timer stay as they were, and nothing else changes |
| SessionSpec.Teardown | src/main/java/com/superzanti/serversync/server/ServerWorker.java:273-284 | the socket is closed, the Timer is released, no timeout is pending, and with the timer invariant no task is live |
| SessionSpec.ReadMessage | src/main/java/com/superzanti/serversync/server/ServerWorker.java:73-89 | the read is logged with the task pending at its start. It fails with a socket error exactly when the socket is closed under it, which leaves the socket closed and no timeout pending. Otherwise nothing but the input and the log changes: a token is consumed and returned, a null object is consumed, and the end of the stream or an int fails the read and stays where it is |
| SessionSpec.ReadAnswer | src/main/java/com/superzanti/serversync/server/ServerWorker.java:137 | the read is logged with the pending task. It yields a value exactly when the next event is an int, which it consumes and returns. A failed read writes nothing; unless the timeout closed the socket under it, it consumes nothing and changes nothing else |
| SessionSpec.Copy | src/main/java/com/superzanti/serversync/server/ServerWorker.java:228-242 | the copy loop reads nothing from the socket |
| SessionSpec.TransferFile | src/main/java/com/superzanti/serversync/server/ServerWorker.java:202-249 | transferFile reads nothing from the socket |
| SessionSpec.Offer | src/main/java/com/superzanti/serversync/server/ServerWorker.java:128-150 | one offer consumes at most one event |
| SessionSpec.NegotiateEntries | src/main/java/com/superzanti/serversync/server/ServerWorker.java:127-151 | the loop over the entries never grows the input |
| SessionSpec.NegotiateCatalog | src/main/java/com/superzanti/serversync/server/ServerWorker.java:119-161 | the SYNC_FILES branch never grows the input |
| SessionSpec.Dispatch | src/main/java/com/superzanti/serversync/server/ServerWorker.java:91-195 | handling one token never grows the input |
| SessionSpec.Iterate | src/main/java/com/superzanti/serversync/server/ServerWorker.java:72-196 | a pass after which the loop goes on has consumed at least one event, unless the read failed on the end of the stream or an int; such a pass consumes and writes nothing and leaves the socket as it was |
| SessionSpec.Run | src/main/java/com/superzanti/serversync/server/ServerWorker.java:62-200 | a run that ends leaves the socket closed, the Timer released and no timeout pending; a run that spins never reaches teardown and leaves the socket open |
| SessionSpec.RunLoop | src/main/java/com/superzanti/serversync/server/ServerWorker.java:72-196 | the loop stops early only at a pass that would repeat forever: the socket is open and the next read fails without consuming anything |
| SessionSpec.RunIntended | src/main/java/com/superzanti/serversync/server/ServerWorker.java:72-89 | with a failed read of the next message ending the loop, every run reaches teardown: socket closed, Timer released, no timeout pending |
| SessionProperties.AtMostOnePending | src/main/java/com/superzanti/serversync/server/ServerWorker.java:255-271 | while the timer invariant holds at most one task of the worker is live, and a live task is the pending timeout |
| SessionProperties.SendAllWrites | src/main/java/com/superzanti/serversync/server/ServerWorker.java:94-98 | consecutive writes deliver a prefix of their items and change nothing else. They succeed exactly when all items were delivered, stop only where the transport refuses writes, and always succeed on a working transport |
| SessionProperties.ChunkedPayload | src/main/java/com/superzanti/serversync/server/ServerWorker.java:230-235 | the reference chunking carries the data exactly and in order, each chunk non-empty and at most one buffer long |
| SessionProperties.CopyWritesChunks | src/main/java/com/superzanti/serversync/server/ServerWorker.java:228-242 | the copy loop writes a prefix of the reference chunking, changes nothing else, and stops short only when writes are refused |
| SessionProperties.TransferWritesPrefix | src/main/java/com/superzanti/serversync/server/ServerWorker.java:202-249 | transferFile writes a prefix of its reference framing and changes nothing else. It succeeds exactly when the whole framing was written, and always on a working transport |
| SessionProperties.TransferWiresShape | src/main/java/com/superzanti/serversync/server/ServerWorker.java:211-242 | the framing starts with the size and a flush. A file that cannot be stat'ed announces 0. A non-positive size sends no payload; a positive size sends exactly the readable bytes and ends with a flush |
| SessionProperties.LengthPromiseNotCorrected | src/main/java/com/superzanti/serversync/server/ServerWorker.java:211-242 | a file yielding fewer bytes than its stat'ed size is announced with the stat'ed size, followed by fewer payload bytes and the flush |
| SessionProperties.OfferAnswered | src/main/java/com/superzanti/serversync/server/ServerWorker.java:128-144 | an answered offer writes the triple, then the file exactly when the answer is NO. Afterwards the ten-minute timeout is pending after NO and the default one otherwise |
| SessionProperties.OfferUnanswered | src/main/java/com/superzanti/serversync/server/ServerWorker.java:128-150 | a failed read of the answer ends the loop after that entry's triple. A timeout under the read leaves the socket closed; any other failure consumes nothing and leaves the socket open |
| SessionProperties.EntriesAnswered | src/main/java/com/superzanti/serversync/server/ServerWorker.java:127-151 | with every entry answered, the loop writes the reference negotiation and consumes exactly the answers |
| SessionProperties.EntriesAborted | src/main/java/com/superzanti/serversync/server/ServerWorker.java:127-151 | a read error at entry k leaves the first k entries served and entry k offered, and skips the rest. A timeout under the read leaves the socket closed; any other failure leaves the input where it was and the socket open |
| SessionProperties.CatalogAnswered | src/main/java/com/superzanti/serversync/server/ServerWorker.java:119-161 | SYNC_FILES with every entry answered writes the negotiation in catalog order, then false and a flush. An empty catalog gets false and a flush alone |
| SessionProperties.CatalogAborted | src/main/java/com/superzanti/serversync/server/ServerWorker.java:126-160 | after a loop aborted by a timeout under the read, false is not written and the branch fails with the socket closed. After any other read error, false and a flush are still written, the branch succeeds, and what stood in place of the answer is left unread |
| SessionProperties.OneFlagPerEntry | src/main/java/com/superzanti/serversync/server/ServerWorker.java:127-151 | the negotiation carries exactly one "more entries" flag per entry, so no transferred file adds one |
| SessionProperties.TwoFileScenario | src/main/java/com/superzanti/serversync/server/ServerWorker.java:119-161 | two entries answered NO then YES give the first triple and file, the second triple alone, then false and a flush |
| SessionProperties.StepHandshake | src/main/java/com/superzanti/serversync/server/ServerWorker.java:94-99 | the handshake is answered with the vocabulary and a flush, and the loop goes on under the default timeout |
| SessionProperties.StepUnknown | src/main/java/com/superzanti/serversync/server/ServerWorker.java:103-115 | an unknown token gets at most the error carrying it and a flush (both on a working transport), and the loop ends even if that write fails |
| SessionProperties.StepQueries | src/main/java/com/superzanti/serversync/server/ServerWorker.java:166-178 | GET_MANAGED_DIRECTORIES answers the directory list and GET_NUMBER_OF_MANAGED_FILES answers the catalog size, each flushed, and the loop goes on |
| SessionProperties.StepSync | src/main/java/com/superzanti/serversync/server/ServerWorker.java:119-161 | SYNC_FILES starts under the default timeout with the socket open and nothing more written, and the loop goes on exactly when the negotiation succeeded |
| SessionProperties.StepSilent | src/main/java/com/superzanti/serversync/server/ServerWorker.java:189-195 | a known token no handler serves writes nothing, and the loop ends exactly when it is EXIT |
| SessionProperties.StepNoMessage | src/main/java/com/superzanti/serversync/server/ServerWorker.java:82-89 | a null object is consumed, nothing is written, and the loop goes on |
| SessionProperties.StepSocketClosed | src/main/java/com/superzanti/serversync/server/ServerWorker.java:79-81 | a socket closed under the read ends the loop with nothing written |
| SessionProperties.StepSyncTimedOut | src/main/java/com/superzanti/serversync/server/ServerWorker.java:126-160 | a timeout firing while an answer is awaited closes the socket, false never reaches the peer, and the loop ends |
| SessionProperties.StalledSpins | src/main/java/com/superzanti/serversync/server/ServerWorker.java:72-89 | once the next read fails on the end of the stream or an int, every pass writes nothing, consumes nothing and schedules a new timeout in place of the last, so the socket stays open after any number of passes |
| SessionProperties.StepBrokenPipe | src/main/java/com/superzanti/serversync/server/ServerWorker.java:179-186 | on a transport already broken, every replying branch ends the loop without writing |
| SessionProperties.SendAllTruncates | src/main/java/com/superzanti/serversync/server/ServerWorker.java:94-98 | consecutive writes on a transport that breaks agree with those on a working one while they fit before the break, and otherwise fail right after the part that fits |
| SessionProperties.TransferTruncates | src/main/java/com/superzanti/serversync/server/ServerWorker.java:202-249 | transferFile on a breaking transport is its failure-free framing cut at the break |
| SessionProperties.OfferTruncates | src/main/java/com/superzanti/serversync/server/ServerWorker.java:128-150 | an offer on a breaking transport is the offer on a working one cut at the break |
| SessionProperties.EntriesTruncates | src/main/java/com/superzanti/serversync/server/ServerWorker.java:127-151 | the loop over the entries on a breaking transport is the loop on a working one cut at the break |
| SessionProperties.CatalogTruncates | src/main/java/com/superzanti/serversync/server/ServerWorker.java:119-161 | the SYNC_FILES branch on a breaking transport is the branch on a working one cut at the break |
| SessionProperties.DispatchTruncates | src/main/java/com/superzanti/serversync/server/ServerWorker.java:91-195 | handling a token on a breaking transport is the same as on a working one while its output fits, and otherwise ends the loop right after the part that fits |
| SessionProperties.IterateTruncates | src/main/java/com/superzanti/serversync/server/ServerWorker.java:72-196 | a pass of the loop on a breaking transport is the same as on a working one while its output fits, and otherwise ends the loop right after the part that fits |
| SessionProperties.StepSyncBroken | src/main/java/com/superzanti/serversync/server/ServerWorker.java:119-186 | SYNC_FILES with every entry answered, on a transport that breaks inside its reply, ends the loop after exactly the part of negotiation, false and flush that fits |
| SessionProperties.OfferSound | src/main/java/com/superzanti/serversync/server/ServerWorker.java:128-150 | an offer only moves the session forward, keeps the timer invariant, keeps every read armed with a timeout, and hands out task ids in order |
| SessionProperties.EntriesSound | src/main/java/com/superzanti/serversync/server/ServerWorker.java:127-151 | the entry loop only moves forward, keeps the timer invariant and every read armed, and hands out task ids in order |
| SessionProperties.CatalogSound | src/main/java/com/superzanti/serversync/server/ServerWorker.java:119-161 | the SYNC_FILES branch only moves forward, keeps the timer invariant and every read armed, and hands out task ids in order |
| SessionProperties.ReplySound | src/main/java/com/superzanti/serversync/server/ServerWorker.java:94-178 | writing a reply only moves forward and keeps the session invariant |
| SessionProperties.DispatchSound | src/main/java/com/superzanti/serversync/server/ServerWorker.java:91-195 | handling a token only moves forward, and under the default timeout keeps the session invariant |
| SessionProperties.ReadSound | src/main/java/com/superzanti/serversync/server/ServerWorker.java:73-76 | the read of the next message is logged under the task setTimeout has just scheduled, whose id exceeds that of every earlier read, and the session stays sound |
| SessionProperties.IterateSound | src/main/java/com/superzanti/serversync/server/ServerWorker.java:72-196 | an iteration only moves forward and keeps the session invariant |
| SessionProperties.RunLoopSound | src/main/java/com/superzanti/serversync/server/ServerWorker.java:72-196 | every state the loop reaches only moves forward and keeps the session invariant |
| SessionProperties.RunSound | src/main/java/com/superzanti/serversync/server/ServerWorker.java:62-200 | from a sound start every state stays sound: at most one task live, every read armed, and every read of the next message under a task scheduled after all earlier reads began. A run that ends is closed, with the Timer released and no task live |
| SessionProperties.ClosedIsFinal | src/main/java/com/superzanti/serversync/server/ServerWorker.java:72 | once the socket is closed nothing more is read or written |
| SessionProperties.SilenceCloses | src/main/java/com/superzanti/serversync/server/ServerWorker.java:72-81 | a peer that sends nothing more but keeps its end open is disconnected by the timeout, with nothing written |
| SessionProperties.UnknownEndsSession | src/main/java/com/superzanti/serversync/server/ServerWorker.java:103-115 | an unknown token ends the session: at most the error and a flush, nothing read after it, socket closed, no timeout pending |
| SessionProperties.ExitEndsSession | src/main/java/com/superzanti/serversync/server/ServerWorker.java:189-199 | EXIT ends the session without writing anything or reading further |
| SessionProperties.IntendedAgrees | src/main/java/com/superzanti/serversync/server/ServerWorker.java:62-200 | the intended loop agrees with the loop as written wherever that one ends; where that one spins, the intended loop ends after one more pass that writes nothing |
| Worker.ServerWorker.constructor | src/main/java/com/superzanti/serversync/server/ServerWorker.java:43-60 | the worker holds the given snapshots, names its logger after the sanitised address, and starts open, silent, with no timeout and a sound state |
| Worker.ServerWorker.ClearTimeout | src/main/java/com/superzanti/serversync/server/ServerWorker.java:255-260 | the timer becomes SessionSpec.ClearTimeout of the old timer and nothing else changes |
| Worker.ServerWorker.SetTimeout | src/main/java/com/superzanti/serversync/server/ServerWorker.java:262-271 | the timer becomes SessionSpec.SetTimeout of the old timer, so a new task with the requested duration is pending |
| Worker.ServerWorker.Teardown | src/main/java/com/superzanti/serversync/server/ServerWorker.java:273-284 | the state becomes SessionSpec.Teardown of the old state |
| Worker.ServerWorker.TimeoutShutdown | src/main/java/com/superzanti/serversync/server/ServerWorker.java:286-296 | the socket is closed and nothing else changes |
| Worker.ServerWorker.Write | src/main/java/com/superzanti/serversync/server/ServerWorker.java:96 | success and new state are those of SessionSpec.Emit |
| Worker.ServerWorker.Send | src/main/java/com/superzanti/serversync/server/ServerWorker.java:96-97 | writing an item and flushing has the effect of SessionSpec.SendAll on the two |
| Worker.ServerWorker.ReadMessage | src/main/java/com/superzanti/serversync/server/ServerWorker.java:73-89 | the result and new state are those of SessionSpec.ReadMessage |
| Worker.ServerWorker.ReadAnswer | src/main/java/com/superzanti/serversync/server/ServerWorker.java:137 | the result and new state are those of SessionSpec.ReadAnswer |
| Worker.ServerWorker.ReadChunk | src/main/java/com/superzanti/serversync/server/ServerWorker.java:233 | a read fills the buffer with the next min(buffer, remaining) bytes in order and returns their count, and returns -1 at the end |
| Worker.ServerWorker.TransferFile | src/main/java/com/superzanti/serversync/server/ServerWorker.java:202-249 | the buffer loop has exactly the effect and outcome of SessionSpec.TransferFile |
| Worker.ServerWorker.SyncCatalog | src/main/java/com/superzanti/serversync/server/ServerWorker.java:119-161 | the loop over the catalog has exactly the effect and outcome of SessionSpec.NegotiateCatalog |
| Worker.ServerWorker.ServeOne | src/main/java/com/superzanti/serversync/server/ServerWorker.java:73-195 | one pass of the loop has exactly the effect of SessionSpec.Iterate, and it continues exactly when Iterate does |
| Worker.ServerWorker.Run | src/main/java/com/superzanti/serversync/server/ServerWorker.java:62-200 | the final state is that of SessionSpec.Run, and `ended` says whether the loop ended. A run that ends is closed with the Timer released and, from a sound start, no task live; one that does not stops where every later pass repeats |

## Left out

- The construction of the object streams (lines 64-70) is not modelled. The session starts with both streams open. A failure there would leave a null stream behind, and the model does not capture it.
- Logging, the connection date and every log message are not modelled. They are not observable over the wire.
- The Timer's own thread is not modelled. The timeout is modelled as firing only while the worker is blocked in a read: a `SocketClosed` event, or a script that has run out. A firing in the middle of a write is not modelled; it would show as a refused write. A peer that closes its end is the `EndOfStream` event: reads fail on it and do not consume it.
- The class ServerTimeout is not part of this model. Its task is taken to call `timeoutShutdown` once.
- Java serialisation is not modelled. The peer sees wire items (`Wire`), not the bytes of the object stream.
- A non-String object at line 76 raises a ClassCastException that escapes `run`. It is not modelled, and neither is an object of an unknown class. Primitive data where a message is expected (an `int`) fails the read without being consumed, as it does on the object stream.
- Only the timeout's close of the socket is modelled as a SocketException on read. Every write failure is one permanent break of the transport, and the SocketException and IOException handlers at lines 179-186 act the same.
- `IOException` and `SecurityException` on stat (lines 212-222) both leave the size 0. They differ only in their log message, so the model does not tell them apart.
- The order of the catalog is the snapshot's iteration order, given as a sequence.
- `long` and `int` widths are unbounded in the model. The file size and the catalog size never wrap.
- An `IOException` from `clientSocket.close()` in `teardown` and `timeoutShutdown` is not modelled. The socket counts as closed afterwards.
- SessionSpec.Copy, SessionSpec.TransferFile, SessionSpec.Offer, SessionSpec.NegotiateEntries, SessionSpec.NegotiateCatalog, SessionSpec.Dispatch: these functions only state that the input never grows. Their output is stated by the SessionProperties lemmas and the Worker methods that cite the same lines.
- SessionSpec.RunLoop: returns `Spins` at the first pass after which every pass repeats forever, instead of diverging; the state it returns is the one every later pass starts from, and `SessionProperties.StalledSpins` states what those passes do.
- SessionSpec.Run: a spinning loop is reported as `Spins` with the loop's state; teardown is never reached, as in the source.
- Worker.ServerWorker.Run: returns with `ended` false at the first pass the source would repeat forever, instead of looping; the state it leaves is the one every later pass starts from.

## Findings

| source | as written | input that shows it | evidently intended | confidence | as-written member | corrected member |
|---|---|---|---|---|---|---|
| src/main/java/com/superzanti/serversync/server/ServerWorker.java:72-89 | a failed read of the next message other than a SocketException is logged and the loop goes on; the timeout is re-armed at the top of every pass | the peer closes its end of the connection: every `readObject` throws an EOFException without consuming anything, every pass re-arms the timeout so it never fires, and the loop spins forever without reaching `teardown` | a read that can never succeed again ends the loop, and the session is torn down | high; not executed | SessionProperties.StalledSpins | SessionSpec.RunIntended |
