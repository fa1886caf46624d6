/**
 * The per-connection worker of the sync server: a dispatch loop over the messages of one
 * peer, the SYNC_FILES negotiation, the file transfer and the idle-timeout bookkeeping.
 * The socket and its object streams are the fields closed, out and input; the shared
 * Timer is seen through the tasks this worker scheduled on it.
 */
module Worker {
  import opened Protocol
  import opened SessionSpec
  import SessionProperties

  class ServerWorker {
    /** The name of the connection's logger. */
    const loggerName: string

    // The shared, read-only snapshots.
    const messages: Vocabulary
    const directories: seq<string>
    const files: seq<(string, string)>

    // The environment: protocol constants, the filesystem and the transport.
    const handshake: string
    const no: int
    const disk: map<string, FileEntry>
    const sendBufferSize: nat
    const brokenAt: Option<nat>

    /** clientSocket.isClosed() */
    var closed: bool
    /** What the output stream has delivered to the peer. */
    var out: seq<Wire>
    /** What the input stream will still yield. */
    var input: seq<In>
    /** The field timeoutTask. */
    var timeoutTask: Option<Task>
    /** The tasks of this worker scheduled on the Timer and neither cancelled nor run. */
    var scheduled: set<Task>
    var nextTaskId: nat
    /** The worker dropped its reference to the Timer (timeout = null). */
    var timerReleased: bool
    /** Each blocking read, with the timeout armed when it started. */
    ghost var readLog: seq<Blocking>

    function Cfg(): Config
    {
      Config(handshake, no, messages, directories, files, disk, sendBufferSize, brokenAt)
    }

    ghost function State(): Session
      reads this
    {
      Session(closed, TimerState(timeoutTask, scheduled, nextTaskId, timerReleased), out, input, readLog)
    }

    constructor (address: string, comsMessages: Vocabulary, managedDirectories: seq<string>,
                 serverFiles: seq<(string, string)>, handshake: string, no: int,
                 disk: map<string, FileEntry>, sendBufferSize: nat, brokenAt: Option<nat>,
                 script: seq<In>)
      ensures loggerName == LoggerName(address)
      ensures Cfg() == Config(handshake, no, comsMessages, managedDirectories, serverFiles, disk, sendBufferSize, brokenAt)
      ensures State() == Session(false, TimerState(None, {}, 0, false), [], script, [])
      ensures SessionProperties.Sound(State())
    {
      loggerName := LoggerName(address);
      messages := comsMessages;
      directories := managedDirectories;
      files := serverFiles;
      this.handshake := handshake;
      this.no := no;
      this.disk := disk;
      this.sendBufferSize := sendBufferSize;
      this.brokenAt := brokenAt;
      closed := false;
      out := [];
      input := script;
      timeoutTask := None;
      scheduled := {};
      nextTaskId := 0;
      timerReleased := false;
      readLog := [];
    }

    // -------------------------------------------------------------- timeout bookkeeping

    method ClearTimeout()
      modifies this
      ensures State() == old(State()).(timer := SessionSpec.ClearTimeout(old(State()).timer))
    {
      if timeoutTask.Some? {
        scheduled := scheduled - {timeoutTask.value};
      }
    }

    method SetTimeout(durationMs: int)
      modifies this
      ensures State() == old(State()).(timer := SessionSpec.SetTimeout(old(State()).timer, durationMs))
      ensures Pending(State().timer) == Some(durationMs)
    {
      ClearTimeout();
      var task := Task(nextTaskId, durationMs);
      timeoutTask := Some(task);
      scheduled := scheduled + {task};
      nextTaskId := nextTaskId + 1;
    }

    method Teardown()
      modifies this
      ensures State() == SessionSpec.Teardown(old(State()))
    {
      ClearTimeout();
      timerReleased := true;
      if !closed {
        closed := true;
      }
    }

    /** The action of the timeout task: close the socket if it is still open. */
    method TimeoutShutdown()
      modifies this
      ensures State() == old(State()).(closed := true)
    {
      if !closed {
        closed := true;
      }
    }

    // -------------------------------------------------------------- the streams

    method Write(w: Wire) returns (ok: bool)
      modifies this
      ensures ok == Emit(Cfg(), old(State()), w).Ok?
      ensures State() == Emit(Cfg(), old(State()), w).st
    {
      ok := !closed && (brokenAt.None? || |out| < brokenAt.value);
      if ok {
        out := out + [w];
      }
    }

    /** Writes one item and flushes the stream. */
    method Send(w: Wire) returns (ok: bool)
      modifies this
      ensures ok == SendAll(Cfg(), old(State()), [w, Flush]).Ok?
      ensures State() == SendAll(Cfg(), old(State()), [w, Flush]).st
    {
      assert [w, Flush] == [w] + [Flush];
      SessionProperties.SendAllCons(Cfg(), State(), w, [Flush]);
      ok := Write(w);
      if ok {
        SessionProperties.SendAllCons(Cfg(), State(), Flush, []);
        ok := Write(Flush);
      }
    }

    /** ois.readObject() */
    method ReadMessage() returns (r: Received)
      modifies this
      ensures (State(), r) == SessionSpec.ReadMessage(old(State()))
    {
      readLog := readLog + [TokenRead(PendingTask(State().timer))];
      if input == [] || input[0].SocketClosed? {
        input := Rest(input);
        scheduled := {};
        TimeoutShutdown();
        return SocketError;
      }
      match input[0]
      case Token(m) =>
        input := input[1..];
        r := Message(m);
      case NullRead =>
        input := input[1..];
        r := NoMessage;
      case _ =>
        r := NoMessage;
    }

    /** ois.readInt(); None when it throws. */
    method ReadAnswer() returns (r: Option<int>)
      modifies this
      ensures (State(), r) == SessionSpec.ReadAnswer(old(State()))
    {
      readLog := readLog + [AnswerRead(PendingTask(State().timer))];
      if input == [] || input[0].SocketClosed? {
        input := Rest(input);
        scheduled := {};
        TimeoutShutdown();
        return None;
      }
      match input[0]
      case AnswerInt(v) =>
        input := input[1..];
        r := Some(v);
      case _ =>
        r := None;
    }

    // -------------------------------------------------------------- transferFile

    /** fis.read(buffer) on a stream positioned at `pos` of the readable bytes: up to one
        buffer of them, 0 for an empty buffer, -1 once nothing more can be read. */
    static method ReadChunk(data: seq<byte>, pos: nat, buffer: array<byte>) returns (n: int)
      requires pos <= |data|
      modifies buffer
      ensures pos == |data| ==> n == -1
      ensures pos < |data| ==> n == Min(buffer.Length, |data| - pos)
      ensures 0 <= n ==> n <= buffer.Length && pos + n <= |data| && buffer[..n] == data[pos..pos + n]
    {
      if pos == |data| {
        return -1;
      }
      n := Min(buffer.Length, |data| - pos);
      forall i | 0 <= i < n {
        buffer[i] := data[pos + i];
      }
    }

    method TransferFile(path: string) returns (ok: bool)
      modifies this
      ensures ok == SessionSpec.TransferFile(Cfg(), old(State()), path).Ok?
      ensures State() == SessionSpec.TransferFile(Cfg(), old(State()), path).st
    {
      var size := if path in disk then disk[path].size else 0;
      ok := Send(Long(size));
      if !ok || size == 0 {
        return;
      }
      var data := disk[path].readable;
      var buffer := new byte[sendBufferSize];
      ghost var announced := State();
      var pos := 0;
      while true
        invariant 0 <= pos <= |data|
        invariant Copy(Cfg(), announced, data) == Copy(Cfg(), State(), data[pos..])
        decreases |data| - pos
      {
        var bytesRead := ReadChunk(data, pos, buffer);
        if bytesRead <= 0 {
          break;
        }
        assert data[pos..][..bytesRead] == buffer[..bytesRead];
        assert data[pos..][bytesRead..] == data[pos + bytesRead..];
        var written := Write(Bytes(buffer[..bytesRead]));
        if !written {
          break;
        }
        pos := pos + bytesRead;
      }
      assert State() == Copy(Cfg(), announced, Readable(Cfg(), path));
      ok := Write(Flush);
    }

    // -------------------------------------------------------------- SYNC_FILES

    method SyncCatalog() returns (ok: bool)
      modifies this
      ensures ok == NegotiateCatalog(Cfg(), old(State())).Ok?
      ensures State() == NegotiateCatalog(Cfg(), old(State())).st
    {
      if |files| > 0 {
        ghost var start := State();
        var i := 0;
        while i < |files|
          invariant 0 <= i <= |files|
          invariant NegotiateEntries(Cfg(), start, files) == NegotiateEntries(Cfg(), State(), files[i..])
        {
          var entry := files[i];
          ghost var before := State();
          assert Triple(entry) == [Bool(true)] + ([UTF(entry.0)] + [UTF(entry.1), Flush]);
          SessionProperties.SendAllCons(Cfg(), State(), Bool(true), [UTF(entry.0)] + [UTF(entry.1), Flush]);
          var more := Write(Bool(true));
          if more {
            SessionProperties.SendAllCons(Cfg(), State(), UTF(entry.0), [UTF(entry.1), Flush]);
            more := Write(UTF(entry.0));
          }
          if more {
            more := Send(UTF(entry.1));
          }
          assert SendAll(Cfg(), before, Triple(entry)) == (if more then Ok(State()) else Err(State()));
          if more {
            var answer := ReadAnswer();
            if answer.None? {
              more := false;
            } else if answer.value == no {
              SetTimeout(FileSyncClientTimeoutMs);
              more := TransferFile(entry.0);
            } else {
              SetTimeout(DefaultClientTimeoutMs);
            }
          }
          assert Offer(Cfg(), before, entry) == (if more then Ok(State()) else Err(State()));
          assert files[i..][1..] == files[i + 1..];
          if !more {
            break;
          }
          i := i + 1;
        }
      }
      ok := Send(Bool(false));
    }

    // -------------------------------------------------------------- the dispatch loop

    /** One pass of the loop of run: arm the timeout, read a message, handle it. */
    method ServeOne() returns (cont: bool)
      modifies this
      ensures cont == Iterate(Cfg(), old(State())).Continue?
      ensures State() == Iterate(Cfg(), old(State())).st
    {
      SetTimeout(DefaultClientTimeoutMs);
      var received := ReadMessage();
      if received.SocketError? {
        return false;
      }
      if received.NoMessage? {
        return true;
      }
      var message := received.text;
      if message == handshake {
        cont := Send(Object(Vocab(messages)));
        return;
      }
      if message !in messages.Values {
        var sent := Send(Object(UnknownMessageError(message)));
        return false;
      }
      if MatchMessage(messages, message, MessageKind.SyncFiles) {
        cont := SyncCatalog();
        return;
      }
      if MatchMessage(messages, message, GetManagedDirectories) {
        cont := Send(Object(Dirs(directories)));
        return;
      }
      if MatchMessage(messages, message, GetNumberOfManagedFiles) {
        cont := Send(Int(|files|));
        return;
      }
      cont := !MatchMessage(messages, message, Exit);
    }

    /** run: serve messages while the socket is open, then tear down. The loop as written
        never ends once every read of the next message fails without consuming anything;
        `ended` is false when that point is reached, with the state every later pass
        repeats. A session that ends is closed with no timeout live, and every blocking
        read it made ran under a timeout armed for it. */
    method Run() returns (ended: bool)
      modifies this
      ensures ended == SessionSpec.Run(Cfg(), old(State())).Ended?
      ensures State() == SessionSpec.Run(Cfg(), old(State())).st
      ensures SessionProperties.Sound(old(State())) ==> SessionProperties.Sound(State())
      ensures ended ==> closed && timerReleased
      ensures ended && SessionProperties.Sound(old(State())) ==> scheduled == {}
      ensures !ended ==> !closed && Stalled(input)
    {
      ghost var start := State();
      while !closed
        invariant RunLoop(Cfg(), State()) == RunLoop(Cfg(), start)
        decreases |input|
      {
        if input != [] && (input[0] == EndOfStream || input[0].AnswerInt?) {
          // every further pass re-arms the timeout and fails the same read
          if SessionProperties.Sound(start) {
            SessionProperties.RunSound(Cfg(), start);
          }
          return false;
        }
        var cont := ServeOne();
        if !cont {
          break;
        }
      }
      Teardown();
      if SessionProperties.Sound(start) {
        SessionProperties.RunSound(Cfg(), start);
      }
      ended := true;
    }
  }
}
