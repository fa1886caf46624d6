/**
 * Properties of one session of the server worker: what each branch of the dispatch
 * loop puts on the wire, how SYNC_FILES and transferFile frame their data, what a
 * transport that breaks part-way leaves of it, and the invariants every run keeps (one
 * live timeout at most, every blocking read under a timeout armed for it).
 */
module SessionProperties {
  import opened Protocol
  import opened SessionSpec

  // ---------------------------------------------------------------- invariants

  /** The transport never fails during the part of the session considered. */
  predicate NoBreak(c: Config, s: Session)
  {
    !s.closed && c.brokenAt.None?
  }

  /** A read of the next message runs under the default timeout; a read of an answer
      under the default or the file-transfer timeout. */
  predicate Armed(b: Blocking)
  {
    match b
    case TokenRead(task) => task.Some? && task.value.delayMs == DefaultClientTimeoutMs
    case AnswerRead(task) =>
      task.Some? && (task.value.delayMs == DefaultClientTimeoutMs || task.value.delayMs == FileSyncClientTimeoutMs)
  }

  predicate AllArmed(log: seq<Blocking>)
  {
    forall b :: b in log ==> Armed(b)
  }

  /** Every task the reads ran under was handed out before `next`. */
  predicate IdsBelow(log: seq<Blocking>, next: nat)
  {
    forall i :: 0 <= i < |log| && log[i].armed.Some? ==> log[i].armed.value.id < next
  }

  /** Each read of the next message runs under a task scheduled after every earlier read
      started: the timeout is re-armed for it, not merely still armed. */
  predicate Rescheduled(log: seq<Blocking>)
  {
    forall i, j :: 0 <= i < j < |log| && log[j].TokenRead? && log[i].armed.Some? && log[j].armed.Some?
      ==> log[i].armed.value.id < log[j].armed.value.id
  }

  predicate Fresh(s: Session)
  {
    && (s.timer.task.Some? ==> s.timer.task.value.id < s.timer.nextId)
    && IdsBelow(s.readLog, s.timer.nextId)
    && Rescheduled(s.readLog)
  }

  /** What holds of every session state the worker reaches. */
  predicate Sound(s: Session)
  {
    TimerOk(s.timer) && AllArmed(s.readLog) && Fresh(s)
  }

  /** The timeout armed while SYNC_FILES runs. */
  predicate Negotiating(s: Session)
  {
    Pending(s.timer) == Some(DefaultClientTimeoutMs) || Pending(s.timer) == Some(FileSyncClientTimeoutMs)
  }

  lemma AdvancesTransitive(a: Session, b: Session, d: Session)
    requires Advances(a, b) && Advances(b, d)
    ensures Advances(a, d)
  {
    var k1 := |a.input| - |b.input|;
    var k2 := |b.input| - |d.input|;
    assert d.input == a.input[k1..][k2..];
    assert a.input[k1..][k2..] == a.input[k1 + k2..];
  }

  /** A state reached without reading: output and reads only appended to, and a closed
      socket stays closed and silent. */
  lemma NoReadAdvances(s: Session, r: Session)
    requires r.input == s.input && s.out <= r.out && s.readLog <= r.readLog
    requires s.closed ==> r.closed && r.out == s.out
    ensures Advances(s, r)
  {
    assert r.input == s.input[0..];
  }

  /** The timer has at most one live task, and a live task is the pending timeout. */
  lemma AtMostOnePending(t: TimerState)
    requires TimerOk(t)
    ensures |t.live| <= 1
    ensures t.live != {} ==> Pending(t).Some? && t.live == {t.task.value}
  {
    if t.live != {} {
      var x :| x in t.live;
      assert t.task == Some(x);
      assert t.live == {x};
    }
  }

  /** Logging one more read keeps the log fresh when its task was handed out, and, for a
      read of the next message, handed out after the task of every earlier read. */
  lemma LogFresh(log: seq<Blocking>, b: Blocking, next: nat)
    requires IdsBelow(log, next) && Rescheduled(log)
    requires b.armed.Some? ==> b.armed.value.id < next
    requires b.TokenRead? && b.armed.Some? ==> IdsBelow(log, b.armed.value.id)
    ensures IdsBelow(log + [b], next) && Rescheduled(log + [b])
  {
    var l := log + [b];
    forall i, j | 0 <= i < j < |l| && l[j].TokenRead? && l[i].armed.Some? && l[j].armed.Some?
      ensures l[i].armed.value.id < l[j].armed.value.id
    {
      assert l[i] == log[i];
      if j == |log| {
        assert l[j] == b;
      } else {
        assert l[j] == log[j];
      }
    }
  }

  /** Consecutive writes are the first write followed by the rest, unless it throws. */
  lemma SendAllCons(c: Config, s: Session, w: Wire, ws: seq<Wire>)
    ensures SendAll(c, s, [w] + ws)
            == if CanWrite(c, s) then SendAll(c, s.(out := s.out + [w]), ws) else Err(s)
  {
    assert ([w] + ws)[0] == w;
    assert ([w] + ws)[1..] == ws;
  }

  /** The output has not gone past the point where the transport breaks. */
  predicate Within(c: Config, s: Session)
  {
    c.brokenAt.None? || |s.out| <= c.brokenAt.value
  }

  /** Consecutive writes put a prefix of the items on the wire, change nothing else, and
      fail only when the transport refuses writes; a working transport takes them all. */
  lemma {:induction false} SendAllWrites(c: Config, s: Session, ws: seq<Wire>)
    ensures var r := SendAll(c, s, ws); var k := |r.st.out| - |s.out|;
      && r.st == s.(out := r.st.out)
      && 0 <= k <= |ws| && r.st.out == s.out + ws[..k]
      && (r.Ok? <==> k == |ws|)
      && (r.Err? ==> !CanWrite(c, r.st))
      && (NoBreak(c, s) ==> r.Ok?)
      && (Within(c, s) ==> Within(c, r.st))
      && Advances(s, r.st)
    decreases |ws|
  {
    if ws == [] {
      NoReadAdvances(s, s);
    } else {
      match Emit(c, s, ws[0])
      case Err(_) => NoReadAdvances(s, s);
      case Ok(s1) =>
        SendAllWrites(c, s1, ws[1..]);
        var r := SendAll(c, s1, ws[1..]);
        var k := |r.st.out| - |s1.out|;
        assert ws[..k + 1] == [ws[0]] + ws[1..][..k];
        NoReadAdvances(s, r.st);
    }
  }

  // ---------------------------------------------------------------- transferFile

  /** The reference framing of a file's bytes: consecutive pieces of at most one buffer. */
  function Chunked(data: seq<byte>, size: nat): seq<Wire>
    decreases |data|
  {
    if data == [] || size == 0 then []
    else
      var n := Min(size, |data|);
      [Bytes(data[..n])] + Chunked(data[n..], size)
  }

  /** The raw bytes a sequence of wire items carries. */
  function Payload(ws: seq<Wire>): seq<byte>
  {
    if ws == [] then [] else (if ws[0].Bytes? then ws[0].data else []) + Payload(ws[1..])
  }

  /** Everything transferFile writes when nothing fails: the size as a long, a flush,
      and for a positive size the file's bytes in buffer-sized pieces and a flush. */
  function TransferWires(c: Config, path: string): seq<Wire>
  {
    [Long(FileSize(c, path)), Flush]
    + (if FileSize(c, path) > 0 then Chunked(Readable(c, path), c.sendBufferSize) + [Flush] else [])
  }

  /** The pieces carry the data exactly, in order, each non-empty and within one buffer. */
  lemma {:induction false} ChunkedPayload(data: seq<byte>, size: nat)
    requires size > 0
    ensures Payload(Chunked(data, size)) == data
    ensures forall w :: w in Chunked(data, size) ==> w.Bytes? && 0 < |w.data| <= size
    decreases |data|
  {
    if data != [] {
      var n := Min(size, |data|);
      var rest := Chunked(data[n..], size);
      ChunkedPayload(data[n..], size);
      assert Chunked(data, size) == [Bytes(data[..n])] + rest;
      assert ([Bytes(data[..n])] + rest)[1..] == rest;
      assert data == data[..n] + data[n..];
    }
  }

  /** The copy loop writes a prefix of the reference framing, changes nothing but the
      output, and stops short only when the transport refuses writes. */
  lemma {:induction false} CopyWritesChunks(c: Config, s: Session, data: seq<byte>)
    ensures var r := Copy(c, s, data); var ch := Chunked(data, c.sendBufferSize);
      && r == s.(out := r.out)
      && |s.out| <= |r.out| <= |s.out| + |ch|
      && r.out == s.out + ch[..|r.out| - |s.out|]
      && (|r.out| < |s.out| + |ch| ==> !CanWrite(c, r))
      && (Within(c, s) ==> Within(c, r))
    decreases |data|
  {
    if data != [] && c.sendBufferSize != 0 {
      var n := Min(c.sendBufferSize, |data|);
      var rest := Chunked(data[n..], c.sendBufferSize);
      assert Chunked(data, c.sendBufferSize) == [Bytes(data[..n])] + rest;
      match Emit(c, s, Bytes(data[..n]))
      case Err(s1) =>
      case Ok(s1) =>
        CopyWritesChunks(c, s1, data[n..]);
        var r := Copy(c, s1, data[n..]);
        var k := |r.out| - |s1.out|;
        assert ([Bytes(data[..n])] + rest)[..k + 1] == [Bytes(data[..n])] + rest[..k];
    }
  }

  /** transferFile writes a prefix of its framing, succeeds exactly when it wrote all of
      it, always succeeds on a working transport, and changes nothing but the output. */
  lemma TransferWritesPrefix(c: Config, s: Session, path: string)
    ensures var r := TransferFile(c, s, path); var tw := TransferWires(c, path);
      && r.st == s.(out := r.st.out)
      && |s.out| <= |r.st.out| <= |s.out| + |tw|
      && r.st.out == s.out + tw[..|r.st.out| - |s.out|]
      && (r.Ok? <==> r.st.out == s.out + tw)
      && (r.Err? ==> !CanWrite(c, r.st))
      && (NoBreak(c, s) ==> r.Ok?)
      && (Within(c, s) ==> Within(c, r.st))
  {
    var size := FileSize(c, path);
    var tw := TransferWires(c, path);
    var r := TransferFile(c, s, path);
    var e2 := SendAll(c, s, [Long(size), Flush]);
    SendAllWrites(c, s, [Long(size), Flush]);
    if e2.Ok? {
      if size > 0 {
        var ch := Chunked(Readable(c, path), c.sendBufferSize);
        CopyWritesChunks(c, e2.st, Readable(c, path));
        var copied := Copy(c, e2.st, Readable(c, path));
        var k := |copied.out| - |e2.st.out|;
        assert tw == [Long(size), Flush] + ch + [Flush];
        assert tw[..k + 2] == [Long(size), Flush] + ch[..k];
        if CanWrite(c, copied) {
          assert k == |ch|;
          assert tw == [Long(size), Flush] + ch[..k] + [Flush];
        }
      }
    }
  }

  /** The framing of a transfer: the announced size first, then a flush; no payload for a
      size of 0 (which is what a file that cannot be stat'ed announces); otherwise exactly
      the readable bytes, then one more flush. */
  lemma TransferWiresShape(c: Config, path: string)
    ensures var tw := TransferWires(c, path);
      && tw[..2] == [Long(FileSize(c, path)), Flush]
      && (path !in c.disk ==> FileSize(c, path) == 0)
      && (FileSize(c, path) <= 0 ==> tw == [Long(FileSize(c, path)), Flush])
      && (FileSize(c, path) > 0 && c.sendBufferSize > 0 ==>
            tw[|tw| - 1] == Flush && Payload(tw) == Readable(c, path))
  {
    var tw := TransferWires(c, path);
    if FileSize(c, path) > 0 && c.sendBufferSize > 0 {
      var ch := Chunked(Readable(c, path), c.sendBufferSize);
      ChunkedPayload(Readable(c, path), c.sendBufferSize);
      PayloadAppend([Long(FileSize(c, path)), Flush], ch + [Flush]);
      PayloadAppend(ch, [Flush]);
    }
  }

  lemma {:induction false} PayloadAppend(a: seq<Wire>, b: seq<Wire>)
    ensures Payload(a + b) == Payload(a) + Payload(b)
  {
    if a == [] {
      assert a + b == b;
    } else {
      assert (a + b)[0] == a[0];
      assert (a + b)[1..] == a[1..] + b;
      PayloadAppend(a[1..], b);
      var head := if a[0].Bytes? then a[0].data else [];
      assert Payload(a + b) == head + (Payload(a[1..]) + Payload(b));
      assert head + (Payload(a[1..]) + Payload(b)) == (head + Payload(a[1..])) + Payload(b);
    }
  }

  /** The size promise is not corrected: when the file yields fewer bytes than its stat'ed
      size, the announced size stays, fewer payload bytes follow, and the flush still comes. */
  lemma LengthPromiseNotCorrected(c: Config, s: Session, path: string)
    requires NoBreak(c, s) && c.sendBufferSize > 0
    requires path in c.disk && |c.disk[path].readable| < c.disk[path].size
    ensures var r := TransferFile(c, s, path);
      && r.Ok?
      && r.st.out == s.out + [Long(c.disk[path].size), Flush]
                           + Chunked(c.disk[path].readable, c.sendBufferSize) + [Flush]
      && |Payload(r.st.out[|s.out|..])| < c.disk[path].size
  {
    TransferWritesPrefix(c, s, path);
    TransferWiresShape(c, path);
    var r := TransferFile(c, s, path);
    assert r.st.out[|s.out|..] == TransferWires(c, path);
  }

  // ---------------------------------------------------------------- SYNC_FILES

  /** The offer of one entry and, when the answer is NO, the file. */
  function Answered(c: Config, entry: (string, string), answer: int): seq<Wire>
  {
    Triple(entry) + (if answer == c.no then TransferWires(c, entry.0) else [])
  }

  /** Reference output of the SYNC_FILES loop when every entry is answered. */
  function Negotiation(c: Config, entries: seq<(string, string)>, answers: seq<int>): seq<Wire>
    requires |entries| == |answers|
  {
    if entries == [] then []
    else Answered(c, entries[0], answers[0]) + Negotiation(c, entries[1..], answers[1..])
  }

  /** A script of integer answers. */
  function Answers(answers: seq<int>): seq<In>
  {
    seq(|answers|, i requires 0 <= i < |answers| => AnswerInt(answers[i]))
  }

  lemma AnswersCons(answers: seq<int>, rest: seq<In>)
    requires answers != []
    ensures Answers(answers) + rest == [AnswerInt(answers[0])] + (Answers(answers[1..]) + rest)
  {
    assert Answers(answers) == [AnswerInt(answers[0])] + Answers(answers[1..]);
  }

  /** What stands where an answer is expected is not one, so reading the answer throws. */
  predicate Unanswered(input: seq<In>)
  {
    input == [] || !input[0].AnswerInt?
  }

  /** One entry answered on a working transport: the triple, then the file exactly when
      the answer is NO; the long timeout is armed after NO, the default one otherwise. */
  lemma OfferAnswered(c: Config, s: Session, entry: (string, string), answer: int, rest: seq<In>)
    requires NoBreak(c, s) && s.input == [AnswerInt(answer)] + rest
    ensures var r := Offer(c, s, entry);
      && r.Ok?
      && r.st.out == s.out + Answered(c, entry, answer)
      && r.st.input == rest && !r.st.closed
      && Pending(r.st.timer) == Some(if answer == c.no then FileSyncClientTimeoutMs else DefaultClientTimeoutMs)
  {
    SendAllWrites(c, s, Triple(entry));
    var s4 := SendAll(c, s, Triple(entry)).st;
    assert s4.input[0] == AnswerInt(answer) && s4.input[1..] == rest;
    var s5 := ReadAnswer(s4).0;
    if answer == c.no {
      TransferWritesPrefix(c, s5.(timer := SetTimeout(s5.timer, FileSyncClientTimeoutMs)), entry.0);
    }
  }

  /** A read error instead of an answer ends the loop after that entry's triple. When the
      idle timeout closed the socket under the read the session is over; otherwise what
      stood there is left unread and the socket stays open. */
  lemma OfferUnanswered(c: Config, s: Session, entry: (string, string))
    requires NoBreak(c, s) && Unanswered(s.input)
    ensures var r := Offer(c, s, entry);
      && r.Err? && r.st.out == s.out + Triple(entry)
      && (Closing(s.input) ==> r.st.closed && r.st.input == Rest(s.input))
      && (!Closing(s.input) ==> !r.st.closed && r.st.input == s.input)
  {
    SendAllWrites(c, s, Triple(entry));
  }

  /** Every entry answered: the reference output, all answers consumed, socket open. */
  lemma {:induction false} EntriesAnswered(c: Config, s: Session, entries: seq<(string, string)>, answers: seq<int>, rest: seq<In>)
    requires |entries| == |answers|
    requires NoBreak(c, s) && s.input == Answers(answers) + rest
    ensures var r := NegotiateEntries(c, s, entries);
      r.out == s.out + Negotiation(c, entries, answers) && r.input == rest && !r.closed
    decreases |entries|
  {
    if entries != [] {
      AnswersCons(answers, rest);
      OfferAnswered(c, s, entries[0], answers[0], Answers(answers[1..]) + rest);
      var s1 := Offer(c, s, entries[0]).st;
      EntriesAnswered(c, s1, entries[1..], answers[1..], rest);
    }
  }

  /** A read error at entry k: the first k entries are served, entry k is offered and the
      rest of the catalog is skipped. A timeout that fired under the read has closed the
      socket; any other failed read leaves the input where it was and the socket open. */
  lemma {:induction false} EntriesAborted(c: Config, s: Session, entries: seq<(string, string)>, answers: seq<int>, tail: seq<In>)
    requires |answers| < |entries| && Unanswered(tail)
    requires NoBreak(c, s) && s.input == Answers(answers) + tail
    ensures var r := NegotiateEntries(c, s, entries);
      && r.out == s.out + Negotiation(c, entries[..|answers|], answers) + Triple(entries[|answers|])
      && (Closing(tail) ==> r.closed && r.input == Rest(tail))
      && (!Closing(tail) ==> !r.closed && r.input == tail)
    decreases |entries|
  {
    if answers == [] {
      assert Answers(answers) == [];
      assert s.input == tail;
      OfferUnanswered(c, s, entries[0]);
      assert entries[..0] == [];
    } else {
      var k := |answers|;
      AnswersCons(answers, tail);
      OfferAnswered(c, s, entries[0], answers[0], Answers(answers[1..]) + tail);
      var s1 := Offer(c, s, entries[0]).st;
      assert NegotiateEntries(c, s, entries) == NegotiateEntries(c, s1, entries[1..]);
      EntriesAborted(c, s1, entries[1..], answers[1..], tail);
      NegotiationPrefix(c, entries, answers);
      AppendAssoc(s.out, Answered(c, entries[0], answers[0]),
        Negotiation(c, entries[1..][..k - 1], answers[1..]), Triple(entries[k]));
    }
  }

  /** The served prefix of the catalog is its first entry followed by the served prefix
      of the rest. */
  lemma NegotiationPrefix(c: Config, entries: seq<(string, string)>, answers: seq<int>)
    requires 0 < |answers| < |entries|
    ensures Negotiation(c, entries[..|answers|], answers)
            == Answered(c, entries[0], answers[0]) + Negotiation(c, entries[1..][..|answers| - 1], answers[1..])
    ensures entries[1..][|answers| - 1] == entries[|answers|]
  {
    assert entries[..|answers|][1..] == entries[1..][..|answers| - 1];
  }

  lemma AppendAssoc<T>(a: seq<T>, b: seq<T>, d: seq<T>, e: seq<T>)
    ensures a + b + d + e == a + (b + d) + e
  {
  }

  /** SYNC_FILES with every entry answered: one (true, path, hash) per entry in catalog
      order, each NO answer followed by its file, then false and a flush. For an empty
      catalog that is false and a flush alone. */
  lemma CatalogAnswered(c: Config, s: Session, answers: seq<int>, rest: seq<In>)
    requires |answers| == |c.files|
    requires NoBreak(c, s) && s.input == Answers(answers) + rest
    ensures var r := NegotiateCatalog(c, s);
      && r.Ok?
      && r.st.out == s.out + Negotiation(c, c.files, answers) + [Bool(false), Flush]
      && r.st.input == rest
  {
    if |c.files| > 0 {
      EntriesAnswered(c, s, c.files, answers, rest);
    } else {
      assert Answers(answers) == [];
    }
  }

  /** SYNC_FILES interrupted by a read error at entry k: the remaining entries are
      skipped. When the timeout closed the socket under the read, false never reaches the
      peer and the branch fails; otherwise false and a flush are still written, what
      stood in place of the answer is left unread, and the session goes on. */
  lemma CatalogAborted(c: Config, s: Session, answers: seq<int>, tail: seq<In>)
    requires |answers| < |c.files| && Unanswered(tail)
    requires NoBreak(c, s) && s.input == Answers(answers) + tail
    ensures var r := NegotiateCatalog(c, s);
      var served := s.out + Negotiation(c, c.files[..|answers|], answers) + Triple(c.files[|answers|]);
      && (Closing(tail) ==> r.Err? && r.st.closed && r.st.out == served && r.st.input == Rest(tail))
      && (!Closing(tail) ==> r.Ok? && !r.st.closed && r.st.out == served + [Bool(false), Flush] && r.st.input == tail)
  {
    EntriesAborted(c, s, c.files, answers, tail);
    SendAllWrites(c, NegotiateEntries(c, s, c.files), [Bool(false), Flush]);
  }

  /** The number of "more entries" flags among some wire items. */
  function CountMore(ws: seq<Wire>): nat
  {
    if ws == [] then 0 else (if ws[0] == Bool(true) then 1 else 0) + CountMore(ws[1..])
  }

  lemma {:induction false} CountMoreAppend(a: seq<Wire>, b: seq<Wire>)
    ensures CountMore(a + b) == CountMore(a) + CountMore(b)
  {
    if a == [] {
      assert a + b == b;
    } else {
      assert (a + b)[0] == a[0];
      assert (a + b)[1..] == a[1..] + b;
      CountMoreAppend(a[1..], b);
    }
  }

  lemma {:induction false} NoFlagIn(ws: seq<Wire>)
    requires forall w :: w in ws ==> w != Bool(true)
    ensures CountMore(ws) == 0
  {
    if ws != [] {
      assert ws[0] in ws;
      assert forall w :: w in ws[1..] ==> w in ws;
      NoFlagIn(ws[1..]);
    }
  }

  lemma {:induction false} NoFlagInChunks(data: seq<byte>, size: nat)
    ensures CountMore(Chunked(data, size)) == 0
    decreases |data|
  {
    if data != [] && size != 0 {
      var n := Min(size, |data|);
      NoFlagInChunks(data[n..], size);
      CountMoreAppend([Bytes(data[..n])], Chunked(data[n..], size));
    }
  }

  /** Whatever the answers, SYNC_FILES offers exactly one "more entries" flag per entry:
      a transferred file never carries one. */
  lemma {:induction false} OneFlagPerEntry(c: Config, entries: seq<(string, string)>, answers: seq<int>)
    requires |entries| == |answers|
    ensures CountMore(Negotiation(c, entries, answers)) == |entries|
    decreases |entries|
  {
    if entries != [] {
      var e := entries[0];
      OneFlagPerEntry(c, entries[1..], answers[1..]);
      CountMoreAppend(Answered(c, e, answers[0]), Negotiation(c, entries[1..], answers[1..]));
      CountMoreAppend(Triple(e), if answers[0] == c.no then TransferWires(c, e.0) else []);
      CountMoreAppend([Bool(true)], [UTF(e.0), UTF(e.1), Flush]);
      NoFlagIn([UTF(e.0), UTF(e.1), Flush]);
      assert Triple(e) == [Bool(true)] + [UTF(e.0), UTF(e.1), Flush];
      if answers[0] == c.no {
        NoFlagIn([Long(FileSize(c, e.0)), Flush]);
        if FileSize(c, e.0) > 0 {
          var ch := Chunked(Readable(c, e.0), c.sendBufferSize);
          NoFlagInChunks(Readable(c, e.0), c.sendBufferSize);
          NoFlagIn([Flush]);
          CountMoreAppend([Long(FileSize(c, e.0)), Flush], ch + [Flush]);
          CountMoreAppend(ch, [Flush]);
        } else {
          assert TransferWires(c, e.0) == [Long(FileSize(c, e.0)), Flush];
        }
      }
    }
  }

  /** Two entries, answered NO then YES: the first triple and the first file, the second
      triple and nothing after it, then false and a flush. */
  lemma TwoFileScenario(c: Config, s: Session, yes: int, rest: seq<In>)
    requires c.files == [("/mods/a.jar", "h1"), ("/mods/b.jar", "h2")] && yes != c.no
    requires NoBreak(c, s) && s.input == [AnswerInt(c.no), AnswerInt(yes)] + rest
    ensures var r := NegotiateCatalog(c, s);
      && r.Ok?
      && r.st.out == s.out
           + [Bool(true), UTF("/mods/a.jar"), UTF("h1"), Flush] + TransferWires(c, "/mods/a.jar")
           + [Bool(true), UTF("/mods/b.jar"), UTF("h2"), Flush]
           + [Bool(false), Flush]
      && r.st.input == rest
  {
    assert Answers([c.no, yes]) == [AnswerInt(c.no), AnswerInt(yes)];
    CatalogAnswered(c, s, [c.no, yes], rest);
    assert c.files[1..][1..] == [] && [c.no, yes][1..][1..] == [];
    assert Negotiation(c, c.files[1..], [yes]) == Answered(c, c.files[1], yes) + [];
    assert Negotiation(c, c.files, [c.no, yes])
        == Answered(c, c.files[0], c.no) + Answered(c, c.files[1], yes);
  }

  // ---------------------------------------------------------------- one iteration

  /** The handshake literal is answered with the vocabulary and a flush and the loop goes
      on, whether or not the literal is one of the vocabulary's values. */
  lemma StepHandshake(c: Config, s: Session, rest: seq<In>)
    requires NoBreak(c, s) && s.input == [Token(c.handshake)] + rest
    ensures var r := Iterate(c, s);
      && r.Continue?
      && r.st.out == s.out + [Object(Vocab(c.messages)), Flush]
      && r.st.input == rest && Pending(r.st.timer) == Some(DefaultClientTimeoutMs)
  {
    assert Rearmed(s).input[1..] == rest;
    var s1 := ReadMessage(Rearmed(s)).0;
    SendAllWrites(c, s1, [Object(Vocab(c.messages)), Flush]);
  }

  /** A token that is neither the handshake nor a vocabulary value gets at most one
      UnknownMessageError carrying it (exactly one, and a flush, on a working transport)
      and ends the loop after that single read. */
  lemma StepUnknown(c: Config, s: Session, m: string, rest: seq<In>)
    requires !s.closed && s.input == [Token(m)] + rest
    requires m != c.handshake && m !in c.messages.Values
    ensures var r := Iterate(c, s); var k := |r.st.out| - |s.out|;
      && r.Stop?
      && 0 <= k <= 2 && r.st.out == s.out + [Object(UnknownMessageError(m)), Flush][..k]
      && (c.brokenAt.None? ==> k == 2)
      && r.st.input == rest && !r.st.closed
  {
    assert Rearmed(s).input[1..] == rest;
    var s1 := ReadMessage(Rearmed(s)).0;
    SendAllWrites(c, s1, [Object(UnknownMessageError(m)), Flush]);
  }

  /** GET_NUMBER_OF_MANAGED_FILES answers the catalog's size; GET_MANAGED_DIRECTORIES the
      directory list unchanged; both flush and continue. */
  lemma StepQueries(c: Config, s: Session, m: string, rest: seq<In>)
    requires NoBreak(c, s) && s.input == [Token(m)] + rest
    requires m != c.handshake && !MatchMessage(c.messages, m, SyncFiles)
    requires MatchMessage(c.messages, m, GetManagedDirectories) || MatchMessage(c.messages, m, GetNumberOfManagedFiles)
    ensures var r := Iterate(c, s);
      && r.Continue? && r.st.input == rest
      && (MatchMessage(c.messages, m, GetManagedDirectories) ==>
            r.st.out == s.out + [Object(Dirs(c.directories)), Flush])
      && (!MatchMessage(c.messages, m, GetManagedDirectories) ==>
            r.st.out == s.out + [Int(|c.files|), Flush])
  {
    assert Rearmed(s).input[1..] == rest;
    var s1 := ReadMessage(Rearmed(s)).0;
    if MatchMessage(c.messages, m, GetManagedDirectories) {
      MatchedIsKnown(c.messages, m, GetManagedDirectories);
      SendAllWrites(c, s1, [Object(Dirs(c.directories)), Flush]);
    } else {
      MatchedIsKnown(c.messages, m, GetNumberOfManagedFiles);
      SendAllWrites(c, s1, [Int(|c.files|), Flush]);
    }
  }

  /** SYNC_FILES runs the negotiation and the loop goes on exactly when it succeeded. */
  lemma StepSync(c: Config, s: Session, rest: seq<In>)
    requires !s.closed && SyncFiles in c.messages && c.messages[SyncFiles] != c.handshake
    requires s.input == [Token(c.messages[SyncFiles])] + rest
    ensures var r := Iterate(c, s); var s1 := ReadMessage(Rearmed(s)).0;
      && s1.input == rest && s1.out == s.out && !s1.closed
      && Pending(s1.timer) == Some(DefaultClientTimeoutMs)
      && r.st == NegotiateCatalog(c, s1).st
      && (r.Continue? <==> NegotiateCatalog(c, s1).Ok?)
  {
    MatchedIsKnown(c.messages, c.messages[SyncFiles], SyncFiles);
    assert Rearmed(s).input[1..] == rest;
  }

  /** SYNC_FILES cut short by the idle timeout while an answer is awaited: the socket is
      closed, the closing false never reaches the peer, and the loop ends. */
  lemma StepSyncTimedOut(c: Config, s: Session, answers: seq<int>, tail: seq<In>)
    requires NoBreak(c, s) && SyncFiles in c.messages && c.messages[SyncFiles] != c.handshake
    requires |answers| < |c.files| && Closing(tail)
    requires s.input == [Token(c.messages[SyncFiles])] + (Answers(answers) + tail)
    ensures var r := Iterate(c, s);
      && r.Stop? && r.st.closed && r.st.input == Rest(tail)
      && r.st.out == s.out + Negotiation(c, c.files[..|answers|], answers) + Triple(c.files[|answers|])
  {
    StepSync(c, s, Answers(answers) + tail);
    CatalogAborted(c, ReadMessage(Rearmed(s)).0, answers, tail);
  }

  /** EXIT writes nothing and ends the loop; a vocabulary value no branch serves writes
      nothing and the loop goes on. */
  lemma StepSilent(c: Config, s: Session, m: string, rest: seq<In>)
    requires !s.closed && s.input == [Token(m)] + rest
    requires m != c.handshake && m in c.messages.Values
    requires !MatchMessage(c.messages, m, SyncFiles)
    requires !MatchMessage(c.messages, m, GetManagedDirectories)
    requires !MatchMessage(c.messages, m, GetNumberOfManagedFiles)
    ensures var r := Iterate(c, s);
      && r.st.out == s.out && r.st.input == rest && !r.st.closed
      && (r.Stop? <==> MatchMessage(c.messages, m, Exit))
  {
    assert Rearmed(s).input[1..] == rest;
  }

  /** A null message is consumed, nothing is written and the loop goes on. */
  lemma StepNoMessage(c: Config, s: Session, rest: seq<In>)
    requires !s.closed && s.input == [NullRead] + rest
    ensures var r := Iterate(c, s);
      r.Continue? && r.st.out == s.out && r.st.input == rest && !r.st.closed
  {
    assert Rearmed(s).input[1..] == rest;
  }

  /** A socket closed under the read (or silence until the timeout fires) ends the loop
      with nothing written. */
  lemma StepSocketClosed(c: Config, s: Session)
    requires !s.closed && Closing(s.input)
    ensures var r := Iterate(c, s);
      r.Stop? && r.st.out == s.out && r.st.closed && r.st.input == Rest(s.input)
  {
  }

  /** With a transport already broken, every branch that replies ends the loop without
      having written anything. */
  lemma StepBrokenPipe(c: Config, s: Session, m: string, rest: seq<In>)
    requires !s.closed && c.brokenAt.Some? && c.brokenAt.value <= |s.out|
    requires s.input == [Token(m)] + rest
    requires m == c.handshake || m !in c.messages.Values
          || MatchMessage(c.messages, m, SyncFiles)
          || MatchMessage(c.messages, m, GetManagedDirectories)
          || MatchMessage(c.messages, m, GetNumberOfManagedFiles)
    ensures var r := Iterate(c, s); r.Stop? && r.st.out == s.out
  {
    var s1 := ReadMessage(Rearmed(s)).0;
    assert !CanWrite(c, s1);
    if |c.files| > 0 {
      assert Offer(c, s1, c.files[0]).Err?;
    }
  }

  /** n passes of the loop, as long as each one goes on. */
  function Passes(c: Config, s: Session, n: nat): Step
    decreases n
  {
    if n == 0 then Continue(s)
    else
      match Iterate(c, s)
      case Stop(s1) => Stop(s1)
      case Continue(s1) => Passes(c, s1, n - 1)
  }

  /** A peer that closed its end, or an answer left where a message is expected, makes
      every read of the next message throw without consuming anything: each pass schedules
      a new timeout in place of the last one (so none ever fires), writes nothing and goes
      on, and the loop never ends. */
  lemma {:induction false} StalledSpins(c: Config, s: Session, n: nat)
    requires !s.closed && Stalled(s.input)
    ensures var r := Passes(c, s, n);
      && r.Continue? && !r.st.closed && r.st.input == s.input && r.st.out == s.out
      && r.st.timer.nextId == s.timer.nextId + n
      && (n > 0 ==> PendingTask(r.st.timer) == Some(Task(s.timer.nextId + n - 1, DefaultClientTimeoutMs)))
    decreases n
  {
    if n > 0 {
      var s1 := Iterate(c, s).st;
      assert s1.timer == SetTimeout(s.timer, DefaultClientTimeoutMs);
      StalledSpins(c, s1, n - 1);
    }
  }

  // ---------------------------------------------------------------- a transport that breaks

  /** The same environment on a transport that never fails. */
  function Unbroken(c: Config): Config
  {
    c.(brokenAt := None)
  }

  /** `r`, code run on c from s, against `u`, the same code on a working transport: the
      same outcome while everything `u` writes fits before the break; otherwise an
      IOException right after the part of it that fits. */
  predicate Truncates(c: Config, s: Session, r: Io, u: Io)
  {
    && (Within(c, u.st) ==> r == u)
    && (Within(c, s) && !Within(c, u.st) ==> r.Err? && r.st.out == u.st.out[..c.brokenAt.value])
  }

  /** The same, for code that ends the loop instead of throwing. */
  predicate StepTruncates(c: Config, s: Session, r: Step, u: Step)
  {
    && (Within(c, u.st) ==> r == u)
    && (Within(c, s) && !Within(c, u.st) ==> r.Stop? && r.st.out == u.st.out[..c.brokenAt.value])
  }

  /** The same, for code that swallows the IOException. */
  predicate SessionTruncates(c: Config, s: Session, r: Session, u: Session)
  {
    && (Within(c, u) ==> r == u)
    && (Within(c, s) && !Within(c, u) ==> r.out == u.out[..c.brokenAt.value])
  }

  /** Code that writes a prefix of `ws` and stops short only at the break, against code
      that writes all of `ws`. */
  lemma PrefixTruncates(c: Config, s: Session, r: Io, ws: seq<Wire>)
    requires !s.closed && r.st == s.(out := r.st.out)
    requires |s.out| <= |r.st.out| <= |s.out| + |ws| && r.st.out == s.out + ws[..|r.st.out| - |s.out|]
    requires (r.Ok? <==> r.st.out == s.out + ws) && (r.Err? ==> !CanWrite(c, r.st))
    requires Within(c, s) ==> Within(c, r.st)
    ensures Truncates(c, s, r, Ok(s.(out := s.out + ws)))
  {
    var u := s.(out := s.out + ws);
    if Within(c, s) && !Within(c, u) {
      var b := c.brokenAt.value;
      assert (s.out + ws)[..b] == s.out + ws[..b - |s.out|];
    }
  }

  lemma SendAllTruncates(c: Config, s: Session, ws: seq<Wire>)
    ensures Truncates(c, s, SendAll(c, s, ws), SendAll(Unbroken(c), s, ws))
  {
    SendAllWrites(c, s, ws);
    SendAllWrites(Unbroken(c), s, ws);
    if !s.closed {
      assert ws[..|ws|] == ws;
      PrefixTruncates(c, s, SendAll(c, s, ws), ws);
    }
  }

  lemma TransferTruncates(c: Config, s: Session, path: string)
    requires !s.closed
    ensures Truncates(c, s, TransferFile(c, s, path), TransferFile(Unbroken(c), s, path))
  {
    TransferWritesPrefix(c, s, path);
    TransferWritesPrefix(Unbroken(c), s, path);
    assert TransferWires(Unbroken(c), path) == TransferWires(c, path);
    PrefixTruncates(c, s, TransferFile(c, s, path), TransferWires(c, path));
  }

  lemma OfferTruncates(c: Config, s: Session, entry: (string, string))
    requires !s.closed
    ensures var u := Offer(Unbroken(c), s, entry);
      Truncates(c, s, Offer(c, s, entry), u) && (u.Ok? ==> !u.st.closed)
  {
    var cw := Unbroken(c);
    SendAllTruncates(c, s, Triple(entry));
    SendAllWrites(cw, s, Triple(entry));
    var s4 := SendAll(cw, s, Triple(entry)).st;
    var (s5, answer) := ReadAnswer(s4);
    if answer.Some? && answer.value == c.no {
      var s6 := s5.(timer := SetTimeout(s5.timer, FileSyncClientTimeoutMs));
      TransferWritesPrefix(cw, s6, entry.0);
      TransferTruncates(c, s6, entry.0);
    }
  }

  lemma {:induction false} EntriesTruncates(c: Config, s: Session, entries: seq<(string, string)>)
    requires !s.closed
    ensures SessionTruncates(c, s, NegotiateEntries(c, s, entries), NegotiateEntries(Unbroken(c), s, entries))
    decreases |entries|
  {
    if entries != [] {
      var cw := Unbroken(c);
      OfferTruncates(c, s, entries[0]);
      var u1 := Offer(cw, s, entries[0]);
      if u1.Ok? {
        EntriesSound(cw, u1.st, entries[1..]);
        EntriesTruncates(c, u1.st, entries[1..]);
      }
    }
  }

  lemma CatalogTruncates(c: Config, s: Session)
    requires !s.closed
    ensures Truncates(c, s, NegotiateCatalog(c, s), NegotiateCatalog(Unbroken(c), s))
  {
    var cw := Unbroken(c);
    var r1 := if |c.files| > 0 then NegotiateEntries(c, s, c.files) else s;
    var u1 := if |c.files| > 0 then NegotiateEntries(cw, s, c.files) else s;
    if |c.files| > 0 {
      EntriesTruncates(c, s, c.files);
    }
    SendAllTruncates(c, u1, [Bool(false), Flush]);
    SendAllWrites(cw, u1, [Bool(false), Flush]);
    SendAllWrites(c, r1, [Bool(false), Flush]);
  }

  lemma DispatchTruncates(c: Config, s: Session, m: string)
    requires !s.closed
    ensures StepTruncates(c, s, Dispatch(c, s, m), Dispatch(Unbroken(c), s, m))
  {
    if m == c.handshake {
      SendAllTruncates(c, s, [Object(Vocab(c.messages)), Flush]);
    } else if m !in c.messages.Values {
      SendAllTruncates(c, s, [Object(UnknownMessageError(m)), Flush]);
    } else if MatchMessage(c.messages, m, SyncFiles) {
      CatalogTruncates(c, s);
    } else if MatchMessage(c.messages, m, GetManagedDirectories) {
      SendAllTruncates(c, s, [Object(Dirs(c.directories)), Flush]);
    } else if MatchMessage(c.messages, m, GetNumberOfManagedFiles) {
      SendAllTruncates(c, s, [Int(|c.files|), Flush]);
    }
  }

  /** On a transport that breaks, a pass of the loop is the pass on a working transport
      cut at the break: the same while its output fits before the break, and otherwise
      the loop ends right after the part of that output that fits. */
  lemma IterateTruncates(c: Config, s: Session)
    requires !s.closed
    ensures StepTruncates(c, s, Iterate(c, s), Iterate(Unbroken(c), s))
  {
    var (s1, received) := ReadMessage(Rearmed(s));
    if received.Message? {
      DispatchTruncates(c, s1, received.text);
    }
  }

  lemma {:induction false} NegotiationIgnoresTransport(c: Config, entries: seq<(string, string)>, answers: seq<int>)
    requires |entries| == |answers|
    ensures Negotiation(Unbroken(c), entries, answers) == Negotiation(c, entries, answers)
    decreases |entries|
  {
    if entries != [] {
      NegotiationIgnoresTransport(c, entries[1..], answers[1..]);
      assert TransferWires(Unbroken(c), entries[0].0) == TransferWires(c, entries[0].0);
    }
  }

  /** SYNC_FILES with every entry answered, on a transport that breaks part-way through
      the reply: the loop ends right after the part of the failure-free reply that fits. */
  lemma StepSyncBroken(c: Config, s: Session, answers: seq<int>, rest: seq<In>)
    requires !s.closed && SyncFiles in c.messages && c.messages[SyncFiles] != c.handshake
    requires |answers| == |c.files| && s.input == [Token(c.messages[SyncFiles])] + (Answers(answers) + rest)
    requires c.brokenAt.Some? && |s.out| <= c.brokenAt.value < |s.out| + |Negotiation(c, c.files, answers)| + 2
    ensures var r := Iterate(c, s);
      && r.Stop?
      && r.st.out == s.out + (Negotiation(c, c.files, answers) + [Bool(false), Flush])[..c.brokenAt.value - |s.out|]
  {
    var cw := Unbroken(c);
    IterateTruncates(c, s);
    StepSync(cw, s, Answers(answers) + rest);
    CatalogAnswered(cw, ReadMessage(Rearmed(s)).0, answers, rest);
    NegotiationIgnoresTransport(c, c.files, answers);
    var full := Negotiation(c, c.files, answers) + [Bool(false), Flush];
    assert (s.out + full)[..c.brokenAt.value] == s.out + full[..c.brokenAt.value - |s.out|];
  }

  // ---------------------------------------------------------------- invariants kept

  /** Reading an answer moves forward, leaves the timeout as it was (or, when it fires,
      no longer live), and is armed while SYNC_FILES runs. */
  lemma AnswerSound(s: Session)
    ensures var r := ReadAnswer(s).0;
      && Advances(s, r)
      && r.timer.task == s.timer.task && r.timer.nextId == s.timer.nextId
      && (TimerOk(s.timer) ==> TimerOk(r.timer))
      && (Negotiating(s) && AllArmed(s.readLog) ==> AllArmed(r.readLog))
      && (Fresh(s) ==> Fresh(r))
  {
    var r := ReadAnswer(s).0;
    var b := AnswerRead(PendingTask(s.timer));
    if r.input == s.input {
      assert s.input[0..] == s.input;
    } else if s.input != [] {
      assert s.input[1..] == s.input[|s.input| - |r.input|..];
    }
    assert forall x :: x in r.readLog ==> x in s.readLog || x == b;
    if Fresh(s) {
      LogFresh(s.readLog, b, s.timer.nextId);
    }
  }

  /** Re-arming the timeout keeps the timer invariant and the log fresh. */
  lemma RearmSound(s: Session, durationMs: int)
    ensures var r := s.(timer := SetTimeout(s.timer, durationMs));
      && Advances(s, r)
      && (TimerOk(s.timer) ==> TimerOk(r.timer))
      && (Fresh(s) ==> Fresh(r))
  {
    NoReadAdvances(s, s.(timer := SetTimeout(s.timer, durationMs)));
  }

  lemma OfferSound(c: Config, s: Session, entry: (string, string))
    ensures var r := Offer(c, s, entry);
      && Advances(s, r.st)
      && (TimerOk(s.timer) ==> TimerOk(r.st.timer))
      && (Negotiating(s) && AllArmed(s.readLog) ==> AllArmed(r.st.readLog) && (r.Ok? ==> Negotiating(r.st)))
      && (Fresh(s) ==> Fresh(r.st))
  {
    var r := Offer(c, s, entry);
    SendAllWrites(c, s, Triple(entry));
    var e4 := SendAll(c, s, Triple(entry));
    if e4.Err? { return; }
    var s4 := e4.st;
    AnswerSound(s4);
    var (s5, answer) := ReadAnswer(s4);
    AdvancesTransitive(s, s4, s5);
    if answer.None? {
      assert r.st == s5;
    } else if answer.value == c.no {
      var s6 := s5.(timer := SetTimeout(s5.timer, FileSyncClientTimeoutMs));
      assert r == TransferFile(c, s6, entry.0);
      RearmSound(s5, FileSyncClientTimeoutMs);
      AdvancesTransitive(s, s5, s6);
      TransferWritesPrefix(c, s6, entry.0);
      NoReadAdvances(s6, r.st);
      AdvancesTransitive(s, s6, r.st);
    } else {
      assert r.st == s5.(timer := SetTimeout(s5.timer, DefaultClientTimeoutMs));
      RearmSound(s5, DefaultClientTimeoutMs);
      AdvancesTransitive(s, s5, r.st);
    }
  }

  lemma {:induction false} EntriesSound(c: Config, s: Session, entries: seq<(string, string)>)
    ensures var r := NegotiateEntries(c, s, entries);
      && Advances(s, r)
      && (TimerOk(s.timer) ==> TimerOk(r.timer))
      && (Negotiating(s) && AllArmed(s.readLog) ==> AllArmed(r.readLog))
      && (Fresh(s) ==> Fresh(r))
    decreases |entries|
  {
    if entries == [] {
      NoReadAdvances(s, s);
    } else {
      OfferSound(c, s, entries[0]);
      match Offer(c, s, entries[0])
      case Err(s1) =>
      case Ok(s1) =>
        EntriesSound(c, s1, entries[1..]);
        AdvancesTransitive(s, s1, NegotiateEntries(c, s1, entries[1..]));
    }
  }

  lemma CatalogSound(c: Config, s: Session)
    ensures var r := NegotiateCatalog(c, s);
      && Advances(s, r.st)
      && (TimerOk(s.timer) ==> TimerOk(r.st.timer))
      && (Negotiating(s) && AllArmed(s.readLog) ==> AllArmed(r.st.readLog))
      && (Fresh(s) ==> Fresh(r.st))
  {
    var s1 := if |c.files| > 0 then NegotiateEntries(c, s, c.files) else s;
    if |c.files| > 0 { EntriesSound(c, s, c.files); } else { NoReadAdvances(s, s); }
    SendAllWrites(c, s1, [Bool(false), Flush]);
    AdvancesTransitive(s, s1, NegotiateCatalog(c, s).st);
  }

  /** A reply that only writes keeps the session sound. */
  lemma ReplySound(c: Config, s: Session, ws: seq<Wire>)
    ensures var r := SendAll(c, s, ws); Advances(s, r.st) && (Sound(s) ==> Sound(r.st))
  {
    SendAllWrites(c, s, ws);
  }

  lemma DispatchSound(c: Config, s: Session, m: string)
    ensures var r := Dispatch(c, s, m);
      && Advances(s, r.st)
      && (Sound(s) && Pending(s.timer) == Some(DefaultClientTimeoutMs) ==> Sound(r.st))
  {
    var r := Dispatch(c, s, m);
    if m == c.handshake {
      ReplySound(c, s, [Object(Vocab(c.messages)), Flush]);
      assert r.st == SendAll(c, s, [Object(Vocab(c.messages)), Flush]).st;
    } else if m !in c.messages.Values {
      ReplySound(c, s, [Object(UnknownMessageError(m)), Flush]);
      assert r.st == SendAll(c, s, [Object(UnknownMessageError(m)), Flush]).st;
    } else if MatchMessage(c.messages, m, SyncFiles) {
      CatalogSound(c, s);
      assert r.st == NegotiateCatalog(c, s).st;
    } else if MatchMessage(c.messages, m, GetManagedDirectories) {
      ReplySound(c, s, [Object(Dirs(c.directories)), Flush]);
      assert r.st == SendAll(c, s, [Object(Dirs(c.directories)), Flush]).st;
    } else if MatchMessage(c.messages, m, GetNumberOfManagedFiles) {
      ReplySound(c, s, [Int(|c.files|), Flush]);
      assert r.st == SendAll(c, s, [Int(|c.files|), Flush]).st;
    } else {
      assert r.st == s;
      NoReadAdvances(s, s);
    }
  }

  /** Reading the next message under the timeout re-armed for it moves forward and keeps
      the session sound: the read is logged under a task scheduled after every earlier
      read started. */
  lemma ReadSound(s: Session)
    ensures var r := ReadMessage(Rearmed(s)).0;
      Advances(s, r) && (Sound(s) ==> Sound(r))
  {
    var s0 := Rearmed(s);
    var r := ReadMessage(s0).0;
    var b := TokenRead(Some(Task(s.timer.nextId, DefaultClientTimeoutMs)));
    assert PendingTask(s0.timer) == Some(Task(s.timer.nextId, DefaultClientTimeoutMs));
    if r.input == s.input {
      assert s.input[0..] == s.input;
    } else if s.input != [] {
      assert s.input[1..] == s.input[|s.input| - |r.input|..];
    }
    assert forall x :: x in r.readLog ==> x in s.readLog || x == b;
    if Sound(s) {
      LogFresh(s.readLog, b, s0.timer.nextId);
    }
  }

  lemma IterateSound(c: Config, s: Session)
    ensures var r := Iterate(c, s); Advances(s, r.st) && (Sound(s) ==> Sound(r.st))
  {
    ReadSound(s);
    var s1 := ReadMessage(Rearmed(s)).0;
    match ReadMessage(Rearmed(s)).1
    case SocketError =>
    case NoMessage =>
    case Message(m) =>
      DispatchSound(c, s1, m);
      AdvancesTransitive(s, s1, Dispatch(c, s1, m).st);
  }

  /** Every state of the loop is sound and only moves forward. */
  lemma {:induction false} RunLoopSound(c: Config, s: Session)
    ensures var r := RunLoop(c, s); Advances(s, r.st) && (Sound(s) ==> Sound(r.st))
    decreases |s.input|
  {
    if s.closed || Stalled(s.input) {
      NoReadAdvances(s, s);
    } else {
      IterateSound(c, s);
      match Iterate(c, s)
      case Stop(s1) =>
      case Continue(s1) =>
        RunLoopSound(c, s1);
        AdvancesTransitive(s, s1, RunLoop(c, s1).st);
    }
  }

  // ---------------------------------------------------------------- whole sessions

  /** A session started sound stays sound: at most one timeout is live at any time, and
      every blocking read runs under a timeout armed for it. When the loop ends, the
      socket is closed, the Timer released and no timeout is left live. */
  lemma RunSound(c: Config, s: Session)
    requires Sound(s)
    ensures var r := Run(c, s);
      && Advances(s, r.st) && Sound(r.st)
      && (r.Ended? ==> r.st.closed && r.st.timer.released && r.st.timer.live == {})
  {
    RunLoopSound(c, s);
    match RunLoop(c, s)
    case Spins(_) =>
    case Ended(l) =>
      NoReadAdvances(l, Teardown(l));
      AdvancesTransitive(s, l, Teardown(l));
  }

  /** Once the socket is closed nothing more is read or written. */
  lemma ClosedIsFinal(c: Config, s: Session)
    requires s.closed
    ensures RunLoop(c, s) == Ended(s) && Run(c, s).st.out == s.out && Run(c, s).st.input == s.input
  {
  }

  /** A peer that stays silent is disconnected by the idle timeout: nothing is written. */
  lemma SilenceCloses(c: Config, s: Session)
    requires !s.closed && s.input == []
    ensures var r := Run(c, s); r.Ended? && r.st.closed && r.st.out == s.out && r.st.input == []
  {
    StepSocketClosed(c, s);
  }

  /** An unknown token ends the whole session: at most the one error and a flush are
      written, nothing after the token is read, and the socket is closed. */
  lemma UnknownEndsSession(c: Config, s: Session, m: string, rest: seq<In>)
    requires !s.closed && s.input == [Token(m)] + rest
    requires m != c.handshake && m !in c.messages.Values
    ensures var r := Run(c, s); var k := |r.st.out| - |s.out|;
      && r.Ended? && 0 <= k <= 2 && r.st.out == s.out + [Object(UnknownMessageError(m)), Flush][..k]
      && r.st.input == rest && r.st.closed && Pending(r.st.timer) == None
  {
    StepUnknown(c, s, m, rest);
  }

  /** EXIT ends the whole session without writing anything or reading further. */
  lemma ExitEndsSession(c: Config, s: Session, rest: seq<In>)
    requires !s.closed && Exit in c.messages && s.input == [Token(c.messages[Exit])] + rest
    requires c.messages[Exit] != c.handshake
    requires !MatchMessage(c.messages, c.messages[Exit], SyncFiles)
    requires !MatchMessage(c.messages, c.messages[Exit], GetManagedDirectories)
    requires !MatchMessage(c.messages, c.messages[Exit], GetNumberOfManagedFiles)
    ensures var r := Run(c, s); r.Ended? && r.st.out == s.out && r.st.input == rest && r.st.closed
  {
    MatchedIsKnown(c.messages, c.messages[Exit], Exit);
    StepSilent(c, s, c.messages[Exit], rest);
  }

  /** The loop as intended agrees with the loop as written wherever that one ends; where
      that one spins, the intended loop ends after one more pass that writes nothing. */
  lemma {:induction false} IntendedAgrees(c: Config, s: Session)
    ensures RunLoop(c, s).Ended? ==> RunLoopIntended(c, s) == RunLoop(c, s).st
    ensures RunLoop(c, s).Spins? ==>
      var p := RunLoop(c, s).st;
      RunLoopIntended(c, s) == Iterate(c, p).st && Iterate(c, p).st.out == p.out
    ensures Run(c, s).Ended? ==> RunIntended(c, s) == Run(c, s).st
    decreases |s.input|
  {
    if !s.closed && !Stalled(s.input) {
      match Iterate(c, s)
      case Stop(_) =>
      case Continue(s1) => IntendedAgrees(c, s1);
    }
  }
}
