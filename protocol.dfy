/**
 * The vocabulary, the items that travel over the wire and the environment of one
 * server-side synchronisation session (class ServerWorker of the server).
 */
module Protocol {

  datatype Option<T> = None | Some(value: T)

  newtype byte = x: int | 0 <= x < 256

  /** Idle timeout armed before every blocking read of the next message (2 minutes). */
  const DefaultClientTimeoutMs: int := 120000
  /** Idle timeout armed once the peer has asked for a file (10 minutes). */
  const FileSyncClientTimeoutMs: int := 600000

  /** The logical message kinds; the vocabulary gives each its literal token. */
  datatype MessageKind = Handshake | SyncFiles | GetManagedDirectories | GetNumberOfManagedFiles | Exit

  type Vocabulary = map<MessageKind, string>

  /** Whether an incoming token is the literal the vocabulary assigns to `kind`
      (a kind with no literal matches nothing). */
  function MatchMessage(messages: Vocabulary, incoming: string, kind: MessageKind): bool
  {
    kind in messages && incoming == messages[kind]
  }

  /** A token that matches some kind is one of the vocabulary's values, so the
      unknown-message check never rejects a token that a handler would serve. */
  lemma MatchedIsKnown(messages: Vocabulary, incoming: string, kind: MessageKind)
    requires MatchMessage(messages, incoming, kind)
    ensures incoming in messages.Values
  {
    assert messages[kind] in messages.Values;
  }

  /** The serialised objects the worker writes. */
  datatype Reply =
    | Vocab(messages: Vocabulary)
    | Dirs(directories: seq<string>)
    | UnknownMessageError(message: string)

  /** One operation on the object output stream, as the peer observes it. */
  datatype Wire =
    | Bool(flag: bool)
    | UTF(text: string)
    | Long(n: int)
    | Int(i: int)
    | Object(reply: Reply)
    | Bytes(data: seq<byte>)
    | Flush

  /** The next thing on the object input stream.
      Token: a String object; NullRead: a null object; AnswerInt: a primitive int (the
      peer's answer during SYNC_FILES); EndOfStream: the peer closed its end, so every
      read from here on fails and nothing is consumed; SocketClosed: the idle timeout
      fired and closed the socket under the read. */
  datatype In = Token(text: string) | NullRead | AnswerInt(value: int) | EndOfStream | SocketClosed

  /** What the filesystem yields for one path: the size a stat reports, and the bytes a
      stream opened on the file delivers before end of file or before a read error. */
  datatype FileEntry = FileEntry(size: nat, readable: seq<byte>)

  /** Everything fixed for the length of one session.
      handshake: the handshake literal; no: the integer encoding of the answer NO;
      messages, directories, files: the shared snapshots (files in iteration order);
      disk: the filesystem (a path not in it cannot be stat'ed);
      sendBufferSize: the socket's send-buffer size;
      brokenAt: the transport fails every write once this many items were written. */
  datatype Config = Config(
    handshake: string,
    no: int,
    messages: Vocabulary,
    directories: seq<string>,
    files: seq<(string, string)>,
    disk: map<string, FileEntry>,
    sendBufferSize: nat,
    brokenAt: Option<nat>)

  /** The characters the logger-name sanitiser replaces. */
  predicate Reserved(ch: char)
  {
    ch in "/.:@?|*\""
  }

  /** The peer address with every reserved character replaced by '-'. */
  function SanitizeAddress(address: string): (r: string)
    ensures |r| == |address|
    ensures forall i :: 0 <= i < |r| ==> !Reserved(r[i])
    ensures forall i :: 0 <= i < |r| && !Reserved(address[i]) ==> r[i] == address[i]
    ensures forall i :: 0 <= i < |r| && Reserved(address[i]) ==> r[i] == '-'
  {
    if address == [] then []
    else [if Reserved(address[0]) then '-' else address[0]] + SanitizeAddress(address[1..])
  }

  /** The name of the per-connection logger. */
  function LoggerName(address: string): (r: string)
    ensures |r| == |"server-connection-from-"| + |address|
    ensures r[..|"server-connection-from-"|] == "server-connection-from-"
    ensures r[|"server-connection-from-"|..] == SanitizeAddress(address)
    ensures forall i :: |"server-connection-from-"| <= i < |r| ==> !Reserved(r[i])
  {
    "server-connection-from-" + SanitizeAddress(address)
  }
}
