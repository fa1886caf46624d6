/**
 * The effect of each piece of ServerWorker.run on the state of one session, as pure
 * functions. The methods of class ServerWorker are proved to have exactly these effects.
 */
module SessionSpec {
  import opened Protocol

  /** A TimerTask this worker scheduled on the shared Timer. */
  datatype Task = Task(id: nat, delayMs: int)

  /** The worker's view of the shared Timer.
      task: the field timeoutTask (kept after it is cancelled, as the worker does);
      live: the tasks of this worker that are scheduled and neither cancelled nor run;
      nextId: fresh identity for the next task; released: the worker dropped the Timer. */
  datatype TimerState = TimerState(task: Option<Task>, live: set<Task>, nextId: nat, released: bool)

  /** The task that will close the socket if nothing re-arms the timeout, if any. */
  function PendingTask(t: TimerState): Option<Task>
  {
    if t.task.Some? && t.task.value in t.live then t.task else None
  }

  /** The duration of the timeout currently armed for this session, if any. */
  function Pending(t: TimerState): Option<int>
  {
    match PendingTask(t)
    case None => None
    case Some(task) => Some(task.delayMs)
  }

  /** The only task of this worker that may be live is the one timeoutTask refers to. */
  predicate TimerOk(t: TimerState)
  {
    forall x :: x in t.live ==> t.task == Some(x)
  }

  /** A blocking read, with the task that was pending when it started. */
  datatype Blocking = TokenRead(armed: Option<Task>) | AnswerRead(armed: Option<Task>)

  /** Everything one session changes.
      closed: clientSocket.isClosed(); out: what the output stream delivered so far;
      input: what the input stream will still yield; readLog: the blocking reads so far. */
  datatype Session = Session(closed: bool, timer: TimerState, out: seq<Wire>, input: seq<In>, readLog: seq<Blocking>)

  /** A session only moves forward: output is appended to, input is consumed from the
      front, reads are appended to, and a closed socket stays closed and silent. */
  predicate Advances(s: Session, r: Session)
  {
    && s.out <= r.out
    && |r.input| <= |s.input| && r.input == s.input[|s.input| - |r.input|..]
    && s.readLog <= r.readLog
    && (s.closed ==> r.closed && r.out == s.out)
  }

  /** The outcome of code that may throw an IOException: Err carries the state at the throw. */
  datatype Io = Ok(st: Session) | Err(st: Session)
  {
    predicate IsFailure() { Err? }
    function PropagateFailure(): Io requires Err? { this }
    function Extract(): Session { st }
  }

  /** The outcome of one iteration of the dispatch loop. */
  datatype Step = Continue(st: Session) | Stop(st: Session)

  /** The outcome of the dispatch loop: it ended, or from this state on every pass
      repeats forever without reading or writing anything. */
  datatype Outcome = Ended(st: Session) | Spins(st: Session)

  // ---------------------------------------------------------------- timeout bookkeeping

  /** clearTimeout: cancel the current task (and purge it) if there is one. */
  function ClearTimeout(t: TimerState): (r: TimerState)
    ensures Pending(r) == None
    ensures TimerOk(t) ==> TimerOk(r) && r.live == {}
    ensures r.live <= t.live && r.task == t.task && r.nextId == t.nextId && r.released == t.released
  {
    if t.task.Some? then t.(live := t.live - {t.task.value}) else t
  }

  /** setTimeout: cancel the current task, then schedule a new one for `durationMs`. */
  function SetTimeout(t: TimerState, durationMs: int): (r: TimerState)
    ensures r.task == Some(Task(t.nextId, durationMs)) && r.nextId == t.nextId + 1
    ensures PendingTask(r) == r.task && Pending(r) == Some(durationMs)
    ensures TimerOk(t) ==> TimerOk(r) && |r.live| == 1
    ensures r.released == t.released
  {
    var cleared := ClearTimeout(t);
    var task := Task(cleared.nextId, durationMs);
    cleared.(task := Some(task), live := cleared.live + {task}, nextId := cleared.nextId + 1)
  }

  /** The pending timeout fires: its task runs once, and timeoutShutdown closes the socket. */
  function Fire(s: Session): (r: Session)
    ensures r.closed && Pending(r.timer) == None
    ensures TimerOk(s.timer) ==> TimerOk(r.timer)
    ensures r.timer.task == s.timer.task && r.timer.nextId == s.timer.nextId && r.timer.released == s.timer.released
    ensures r.out == s.out && r.input == s.input && r.readLog == s.readLog
  {
    s.(closed := true, timer := s.timer.(live := {}))
  }

  /** teardown: cancel the timeout, drop the Timer, close the socket if still open. */
  function Teardown(s: Session): (r: Session)
    ensures r.closed && r.timer.released && Pending(r.timer) == None
    ensures TimerOk(s.timer) ==> r.timer.live == {}
    ensures r.out == s.out && r.input == s.input && r.readLog == s.readLog
  {
    s.(closed := true, timer := ClearTimeout(s.timer).(released := true))
  }

  // ---------------------------------------------------------------- the transport

  /** A write succeeds while the socket is open and the transport is not broken. */
  predicate CanWrite(c: Config, s: Session)
  {
    !s.closed && (c.brokenAt.None? || |s.out| < c.brokenAt.value)
  }

  /** One write (or flush) on the output stream. */
  function Emit(c: Config, s: Session, w: Wire): (r: Io)
    ensures r.Ok? <==> CanWrite(c, s)
    ensures r.st == if r.Ok? then s.(out := s.out + [w]) else s
  {
    if CanWrite(c, s) then Ok(s.(out := s.out + [w])) else Err(s)
  }

  /** Consecutive writes, up to the first that throws. */
  function SendAll(c: Config, s: Session, ws: seq<Wire>): (r: Io)
    ensures r.st.input == s.input
    decreases |ws|
  {
    if ws == [] then Ok(s)
    else
      var s1 :- Emit(c, s, ws[0]);
      SendAll(c, s1, ws[1..])
  }

  /** The socket is closed under the read: the timeout fired, or the peer stays silent
      (an exhausted script) until it does. */
  predicate Closing(input: seq<In>)
  {
    input == [] || input[0] == SocketClosed
  }

  /** What a read of the next message fails on without consuming it: the peer's end is
      closed, or primitive data stands where an object should. */
  predicate Stalled(input: seq<In>)
  {
    input != [] && (input[0] == EndOfStream || input[0].AnswerInt?)
  }

  /** The remaining input after one event is consumed (nothing is left to consume from
      an exhausted script). */
  function Rest(input: seq<In>): seq<In>
  {
    if input == [] then [] else input[1..]
  }

  datatype Received = SocketError | NoMessage | Message(text: string)

  /** readObject: a SocketException when the socket is closed under the read; a String or
      a null object is consumed; the end of the stream or a primitive int makes the read
      throw and stays where it is. */
  function ReadMessage(s: Session): (r: (Session, Received))
    ensures r.0.readLog == s.readLog + [TokenRead(PendingTask(s.timer))]
    ensures r.1.SocketError? <==> Closing(s.input)
    ensures r.1.SocketError? ==> r.0.closed && Pending(r.0.timer) == None && r.0.input == Rest(s.input)
    ensures !r.1.SocketError? ==> r.0 == s.(input := r.0.input, readLog := r.0.readLog)
    ensures !r.1.SocketError? && Stalled(s.input) ==> r.1 == NoMessage && r.0.input == s.input
    ensures !r.1.SocketError? && !Stalled(s.input) ==> r.0.input == s.input[1..]
    ensures r.1.Message? <==> s.input != [] && s.input[0].Token?
    ensures r.1.Message? ==> s.input[0] == Token(r.1.text)
  {
    var logged := s.(readLog := s.readLog + [TokenRead(PendingTask(s.timer))]);
    if Closing(s.input) then (Fire(logged.(input := Rest(s.input))), SocketError)
    else
      match s.input[0]
      case Token(m) => (logged.(input := s.input[1..]), Message(m))
      case NullRead => (logged.(input := s.input[1..]), NoMessage)
      case _ => (logged, NoMessage)
  }

  /** readInt: the peer's answer; None when the read throws, which consumes nothing but
      the timeout that closed the socket. */
  function ReadAnswer(s: Session): (r: (Session, Option<int>))
    ensures r.0.readLog == s.readLog + [AnswerRead(PendingTask(s.timer))]
    ensures r.1.Some? <==> s.input != [] && s.input[0].AnswerInt?
    ensures r.1.Some? ==> r.1.value == s.input[0].value && r.0 == s.(input := s.input[1..], readLog := r.0.readLog)
    ensures r.1.None? && Closing(s.input) ==> r.0.closed && Pending(r.0.timer) == None && r.0.input == Rest(s.input)
    ensures r.1.None? && !Closing(s.input) ==> r.0 == s.(readLog := r.0.readLog)
    ensures r.1.None? ==> r.0.out == s.out
  {
    var logged := s.(readLog := s.readLog + [AnswerRead(PendingTask(s.timer))]);
    if Closing(s.input) then (Fire(logged.(input := Rest(s.input))), None)
    else
      match s.input[0]
      case AnswerInt(v) => (logged.(input := s.input[1..]), Some(v))
      case _ => (logged, None)
  }

  // ---------------------------------------------------------------- transferFile

  function Min(a: int, b: int): int { if a <= b then a else b }

  /** The size transferFile announces: the stat'ed size, 0 when the file cannot be stat'ed. */
  function FileSize(c: Config, path: string): int
  {
    if path in c.disk then c.disk[path].size else 0
  }

  /** The bytes a stream on the file delivers. */
  function Readable(c: Config, path: string): seq<byte>
  {
    if path in c.disk then c.disk[path].readable else []
  }

  /** The read/write loop: read up to one buffer of the remaining bytes, write it, repeat;
      a read of 0 bytes, end of file, a read error or a write error ends the loop. */
  function Copy(c: Config, s: Session, data: seq<byte>): (r: Session)
    ensures r.input == s.input
    decreases |data|
  {
    if data == [] || c.sendBufferSize == 0 then s
    else
      var n := Min(c.sendBufferSize, |data|);
      match Emit(c, s, Bytes(data[..n]))
      case Err(s1) => s1
      case Ok(s1) => Copy(c, s1, data[n..])
  }

  /** transferFile: the size as a long and a flush, then (for a positive size) the copy
      loop and a flush that runs however the loop ended. */
  function TransferFile(c: Config, s: Session, path: string): (r: Io)
    ensures r.st.input == s.input
  {
    var size := FileSize(c, path);
    var s2 :- SendAll(c, s, [Long(size), Flush]);
    if size > 0 then Emit(c, Copy(c, s2, Readable(c, path)), Flush) else Ok(s2)
  }

  // ---------------------------------------------------------------- SYNC_FILES

  /** The offer of one catalog entry: "more entries" flag, path, hash, flush. */
  function Triple(entry: (string, string)): seq<Wire>
  {
    [Bool(true), UTF(entry.0), UTF(entry.1), Flush]
  }

  /** The body of the SYNC_FILES loop for one catalog entry: offer (true, path, hash),
      read the answer; NO arms the long timeout and sends the file, any other answer
      re-arms the default timeout. Err: an IOException ends the loop. */
  function Offer(c: Config, s: Session, entry: (string, string)): (r: Io)
    ensures |r.st.input| <= |s.input|
  {
    var s4 :- SendAll(c, s, Triple(entry));
    var (s5, answer) := ReadAnswer(s4);
    if answer.None? then Err(s5)
    else if answer.value == c.no then
      TransferFile(c, s5.(timer := SetTimeout(s5.timer, FileSyncClientTimeoutMs)), entry.0)
    else Ok(s5.(timer := SetTimeout(s5.timer, DefaultClientTimeoutMs)))
  }

  /** The SYNC_FILES loop over the given entries, stopping at the first IOException. */
  function NegotiateEntries(c: Config, s: Session, entries: seq<(string, string)>): (r: Session)
    ensures |r.input| <= |s.input|
    decreases |entries|
  {
    if entries == [] then s
    else
      match Offer(c, s, entries[0])
      case Err(s1) => s1
      case Ok(s1) => NegotiateEntries(c, s1, entries[1..])
  }

  /** The SYNC_FILES branch: the loop over the catalog (skipped when it is empty), then
      the closing false and a flush. */
  function NegotiateCatalog(c: Config, s: Session): (r: Io)
    ensures |r.st.input| <= |s.input|
  {
    var s1 := if |c.files| > 0 then NegotiateEntries(c, s, c.files) else s;
    SendAll(c, s1, [Bool(false), Flush])
  }

  // ---------------------------------------------------------------- the dispatch loop

  /** An IOException while replying ends the loop. */
  function Replied(r: Io): Step
  {
    if r.Ok? then Continue(r.st) else Stop(r.st)
  }

  /** The handling of one token, in the order the worker tests it. */
  function Dispatch(c: Config, s: Session, m: string): (r: Step)
    ensures |r.st.input| <= |s.input|
  {
    if m == c.handshake then Replied(SendAll(c, s, [Object(Vocab(c.messages)), Flush]))
    else if m !in c.messages.Values then Stop(SendAll(c, s, [Object(UnknownMessageError(m)), Flush]).st)
    else if MatchMessage(c.messages, m, SyncFiles) then Replied(NegotiateCatalog(c, s))
    else if MatchMessage(c.messages, m, GetManagedDirectories) then Replied(SendAll(c, s, [Object(Dirs(c.directories)), Flush]))
    else if MatchMessage(c.messages, m, GetNumberOfManagedFiles) then Replied(SendAll(c, s, [Int(|c.files|), Flush]))
    else if MatchMessage(c.messages, m, Exit) then Stop(s)
    else Continue(s)
  }

  /** The state the read of the next message starts from: the default timeout re-armed. */
  function Rearmed(s: Session): Session
  {
    s.(timer := SetTimeout(s.timer, DefaultClientTimeoutMs))
  }

  /** One iteration of the loop: arm the default timeout, read, dispatch. */
  function Iterate(c: Config, s: Session): (r: Step)
    ensures r.Continue? && !Stalled(s.input) ==> |r.st.input| < |s.input|
    ensures r.Continue? && Stalled(s.input) ==> r.st.input == s.input && r.st.out == s.out && r.st.closed == s.closed
  {
    var (s1, received) := ReadMessage(Rearmed(s));
    match received
    case SocketError => Stop(s1)
    case NoMessage => Continue(s1)
    case Message(m) => Dispatch(c, s1, m)
  }

  /** `while (!clientSocket.isClosed())` around Iterate, up to the point where the
      passes start repeating forever. */
  function RunLoop(c: Config, s: Session): (r: Outcome)
    ensures r.Spins? ==> !r.st.closed && Stalled(r.st.input)
    decreases |s.input|
  {
    if s.closed then Ended(s)
    else if Stalled(s.input) then Spins(s)
    else
      match Iterate(c, s)
      case Stop(s1) => Ended(s1)
      case Continue(s1) => RunLoop(c, s1)
  }

  /** run: the loop, then teardown, which a spinning loop never reaches. */
  function Run(c: Config, s: Session): (r: Outcome)
    ensures r.Ended? ==> r.st.closed && r.st.timer.released && Pending(r.st.timer) == None
    ensures r.Spins? ==> !r.st.closed && Stalled(r.st.input)
  {
    match RunLoop(c, s)
    case Ended(s1) => Ended(Teardown(s1))
    case Spins(s1) => Spins(s1)
  }

  // ---------------------------------------------------------------- the intended loop

  /** The loop as evidently intended: a read of the next message that fails on a stalled
      stream ends the loop, as a SocketException does. */
  function IterateIntended(c: Config, s: Session): (r: Step)
    ensures r.Continue? ==> |r.st.input| < |s.input|
  {
    match Iterate(c, s)
    case Stop(s1) => Stop(s1)
    case Continue(s1) => if Stalled(s.input) then Stop(s1) else Continue(s1)
  }

  function RunLoopIntended(c: Config, s: Session): (r: Session)
    decreases |s.input|
  {
    if s.closed then s
    else
      match IterateIntended(c, s)
      case Stop(s1) => s1
      case Continue(s1) => RunLoopIntended(c, s1)
  }

  /** run with the intended loop: it always reaches teardown. */
  function RunIntended(c: Config, s: Session): (r: Session)
    ensures r.closed && r.timer.released && Pending(r.timer) == None
  {
    Teardown(RunLoopIntended(c, s))
  }
}
