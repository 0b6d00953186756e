/**
 The duplex socket over an SSH channel. Received chunks wait in a buffer while the reader does
 not want data; written chunks wait in a buffer until the channel is open.
*/
module SocketBuffer {
  import opened Wrappers

  newtype Byte = b: int | 0 <= b < 256

  type Chunk = seq<Byte>

  /** A write handed to the channel, with the callback it was submitted with. */
  datatype Submission = Submission(chunk: Chunk, encoding: string, callback: Option<nat>)

  datatype Socket = Socket(
    readBuffer: seq<Chunk>,
    readBufferSize: int,
    wantData: bool,
    writeBuffer: seq<Submission>,
    open: bool,
    asked: seq<nat>,              // the sizes the channel was asked to read
    pushed: seq<Chunk>,           // what the reader was given
    written: seq<Submission>)     // what the channel was given

  const CLOSED := Socket([], 0, false, [], false, [], [], [])

  /** Whether the reader wants more after the push with the given number. */
  type Reader = nat -> bool

  function Flush(s: Socket, reader: Reader): Socket
    decreases |s.readBuffer|
  {
    if s.readBuffer == [] then s
    else
      var data := s.readBuffer[0];
      var next := s.(readBuffer := s.readBuffer[1..],
                     readBufferSize := s.readBufferSize - |data|,
                     pushed := s.pushed + [data],
                     wantData := reader(|s.pushed|));
      if next.wantData then Flush(next, reader) else next
  }

  function Receive(s: Socket, data: Chunk, reader: Reader): Socket
  {
    var next := s.(readBuffer := s.readBuffer + [data], readBufferSize := s.readBufferSize + |data|);
    if next.wantData then Flush(next, reader) else next
  }

  /** The channel is asked for more in any case, after the buffer was flushed. */
  function Read(s: Socket, size: nat, reader: Reader): Socket
  {
    var next := s.(wantData := true);
    var flushed := if next.readBufferSize > 0 then Flush(next, reader) else next;
    flushed.(asked := s.asked + [size])
  }

  function Write(s: Socket, w: Submission): Socket
  {
    if s.open then s.(written := s.written + [w]) else s.(writeBuffer := s.writeBuffer + [w])
  }

  function Open(s: Socket): Socket
  {
    s.(written := s.written + s.writeBuffer, writeBuffer := [], open := true)
  }

  /** The last chunk of a vector carries the callback; the others have one that does nothing. */
  function Vector(chunks: seq<(Chunk, string)>, callback: nat): seq<Submission>
  {
    seq(|chunks|, i requires 0 <= i < |chunks| =>
      Submission(chunks[i].0, chunks[i].1, if i == |chunks| - 1 then Some(callback) else None))
  }

  function WriteAll(s: Socket, ws: seq<Submission>): Socket
  {
    if ws == [] then s else Write(WriteAll(s, ws[..|ws| - 1]), ws[|ws| - 1])
  }

  class SSHTransportSocket {
    var readBuffer: seq<Chunk>
    var readBufferSize: int
    var wantData: bool
    var writeBuffer: seq<Submission>
    var open: bool
    var asked: seq<nat>
    var pushed: seq<Chunk>
    var written: seq<Submission>
    const reader: Reader

    function State(): Socket
      reads this
    {
      Socket(readBuffer, readBufferSize, wantData, writeBuffer, open, asked, pushed, written)
    }

    constructor (reader: Reader)
      ensures this.reader == reader && State() == CLOSED
    {
      this.reader := reader;
      readBuffer, readBufferSize, wantData := [], 0, false;
      writeBuffer, open, asked, pushed, written := [], false, [], [], [];
    }

    method FlushReadBuffer()
      modifies this
      ensures State() == Flush(old(State()), reader)
    {
      ghost var goal := Flush(State(), reader);
      while true
        invariant Flush(State(), reader) == goal
        decreases |readBuffer|
      {
        if |readBuffer| == 0 {
          break;
        }
        var data := readBuffer[0];
        readBuffer := readBuffer[1..];
        readBufferSize := readBufferSize - |data|;
        var res := reader(|pushed|);
        pushed := pushed + [data];
        wantData := res;
        if !res {
          assert State() == goal;
          return;
        }
      }
    }

    method OnData(data: Chunk)
      modifies this
      ensures State() == Receive(old(State()), data, reader)
    {
      readBuffer := readBuffer + [data];
      readBufferSize := readBufferSize + |data|;
      if wantData {
        FlushReadBuffer();
      }
    }

    method OnRead(size: nat)
      modifies this
      ensures State() == Read(old(State()), size, reader)
    {
      wantData := true;
      FlushAsksNothing(State(), reader);
      if readBufferSize > 0 {
        FlushReadBuffer();
      }
      asked := asked + [size];
    }

    method Writer(w: Submission)
      modifies this
      ensures State() == Write(old(State()), w)
    {
      if open {
        written := written + [w];
      } else {
        writeBuffer := writeBuffer + [w];
      }
    }

    method OnOpen()
      modifies this
      ensures State() == Open(old(State()))
    {
      ghost var all := written + writeBuffer;
      while true
        invariant written + writeBuffer == all
        invariant State() == old(State()).(written := written, writeBuffer := writeBuffer)
        decreases |writeBuffer|
      {
        if |writeBuffer| == 0 {
          break;
        }
        var w := writeBuffer[0];
        writeBuffer := writeBuffer[1..];
        written := written + [w];
      }
      assert written == all;
      open := true;
    }

    method WriteVector(chunks: seq<(Chunk, string)>, callback: nat)
      requires chunks != []
      modifies this
      ensures State() == WriteAll(old(State()), Vector(chunks, callback))
      ensures open == old(open)
      ensures if open then writeBuffer == old(writeBuffer) && Carries(old(written), written, chunks, callback)
              else written == old(written) && Carries(old(writeBuffer), writeBuffer, chunks, callback)
    {
      hide Carries;
      VectorCarries(State(), chunks, callback);
      ghost var ws := Vector(chunks, callback);
      for i := 0 to |chunks| - 1
        invariant State() == WriteAll(old(State()), ws[..i])
      {
        assert ws[..i + 1][..i] == ws[..i];
        Writer(Submission(chunks[i].0, chunks[i].1, None));
      }
      var last := chunks[|chunks| - 1];
      assert ws[..|ws|] == ws;
      Writer(Submission(last.0, last.1, Some(callback)));
    }
  }

  /** The chunks were appended in their order and encodings, and the last one alone has the callback. */
  predicate Carries(before: seq<Submission>, after: seq<Submission>, chunks: seq<(Chunk, string)>, callback: nat)
  {
    && |after| == |before| + |chunks| && after[..|before|] == before
    && forall i :: 0 <= i < |chunks| ==>
         var w := after[|before| + i];
         && w.chunk == chunks[i].0 && w.encoding == chunks[i].1
         && w.callback == if i + 1 < |chunks| then None else Some(callback)
  }

  lemma VectorCarries(s: Socket, chunks: seq<(Chunk, string)>, callback: nat)
    ensures var after := WriteAll(s, Vector(chunks, callback));
            && after.open == s.open
            && if s.open then after.writeBuffer == s.writeBuffer && Carries(s.written, after.written, chunks, callback)
               else after.written == s.written && Carries(s.writeBuffer, after.writeBuffer, chunks, callback)
  {
    WriteAllAppends(s, Vector(chunks, callback));
  }

  // ---------- runs ----------

  datatype Event =
    | Connected
    | Data(chunk: Chunk)
    | Wanted(size: nat)
    | Written(submission: Submission)
    | WrittenAll(chunks: seq<(Chunk, string)>, callback: nat)

  /** There is a channel to read from only once it is open, and a vector has a chunk. */
  predicate Enabled(s: Socket, e: Event)
  {
    match e
    case Connected => !s.open
    case Data(_) => s.open
    case Wanted(_) => s.open
    case Written(_) => true
    case WrittenAll(chunks, _) => chunks != []
  }

  function Step(s: Socket, e: Event, reader: Reader): Socket
  {
    match e
    case Connected => Open(s)
    case Data(chunk) => Receive(s, chunk, reader)
    case Wanted(size) => Read(s, size, reader)
    case Written(w) => Write(s, w)
    case WrittenAll(chunks, callback) => WriteAll(s, Vector(chunks, callback))
  }

  ghost predicate Reaches(es: seq<Event>, reader: Reader, s: Socket)
  {
    if es == [] then s == CLOSED
    else
      exists before: Socket {:trigger before.pushed} ::
        Reaches(es[..|es| - 1], reader, before) && Enabled(before, es[|es| - 1]) &&
            s == Step(before, es[|es| - 1], reader)
  }

  /** The chunks that the channel delivered. */
  function Received(es: seq<Event>): seq<Chunk>
  {
    if es == [] then []
    else Received(es[..|es| - 1]) + (if es[|es| - 1].Data? then [es[|es| - 1].chunk] else [])
  }

  /** The writes a vector asks for: its chunks one after the other, the callback with the last one. */
  function AskedFor(chunks: seq<(Chunk, string)>, callback: nat): seq<Submission>
  {
    if chunks == [] then []
    else if |chunks| == 1 then [Submission(chunks[0].0, chunks[0].1, Some(callback))]
    else [Submission(chunks[0].0, chunks[0].1, None)] + AskedFor(chunks[1..], callback)
  }

  lemma {:induction false} VectorIsAskedFor(chunks: seq<(Chunk, string)>, callback: nat)
    ensures Vector(chunks, callback) == AskedFor(chunks, callback)
  {
    if |chunks| > 1 {
      VectorIsAskedFor(chunks[1..], callback);
      assert Vector(chunks, callback)[1..] == Vector(chunks[1..], callback);
    }
  }

  /** The writes that were asked for. */
  function Submitted(es: seq<Event>): seq<Submission>
  {
    if es == [] then []
    else
      Submitted(es[..|es| - 1]) +
      match es[|es| - 1]
      case Written(w) => [w]
      case WrittenAll(chunks, callback) => AskedFor(chunks, callback)
      case _ => []
  }

  function Total(chunks: seq<Chunk>): nat
  {
    if chunks == [] then 0 else |chunks[0]| + Total(chunks[1..])
  }

  lemma {:induction false} TotalConcat(a: seq<Chunk>, b: seq<Chunk>)
    ensures Total(a + b) == Total(a) + Total(b)
  {
    if a == [] {
      assert a + b == b;
    } else {
      assert (a + b)[1..] == a[1..] + b;
      TotalConcat(a[1..], b);
    }
  }

  /** What holds between two handlers. */
  predicate Inv(s: Socket, received: seq<Chunk>, submitted: seq<Submission>)
  {
    && s.pushed + s.readBuffer == received
    && s.readBufferSize == Total(s.readBuffer)
    && (s.wantData ==> s.readBufferSize == 0)
    && s.written + s.writeBuffer == submitted
    && (s.open ==> s.writeBuffer == [])
  }

  /** Flushing moves a part of the buffer to the reader, and stops short only if the reader says so. */
  lemma {:induction false} FlushMoves(s: Socket, reader: Reader)
    requires s.readBufferSize == Total(s.readBuffer)
    ensures var f := Flush(s, reader);
            && f.pushed + f.readBuffer == s.pushed + s.readBuffer
            && f.readBufferSize == Total(f.readBuffer)
            && (f.wantData ==> f.readBuffer == [])
            && f == s.(readBuffer := f.readBuffer, readBufferSize := f.readBufferSize, pushed := f.pushed,
                 wantData := f.wantData)
    decreases |s.readBuffer|
  {
    if s.readBuffer != [] {
      var data := s.readBuffer[0];
      var next := s.(readBuffer := s.readBuffer[1..], readBufferSize := s.readBufferSize - |data|,
                     pushed := s.pushed + [data], wantData := reader(|s.pushed|));
      assert next.pushed + next.readBuffer == s.pushed + s.readBuffer;
      if next.wantData { FlushMoves(next, reader); }
    }
  }

  lemma {:induction false} WriteAllAppends(s: Socket, ws: seq<Submission>)
    ensures WriteAll(s, ws) == if s.open then s.(written := s.written + ws) else s.(writeBuffer := s.writeBuffer + ws)
  {
    if ws == [] {
      assert s.written + ws == s.written && s.writeBuffer + ws == s.writeBuffer;
    } else {
      var n := |ws| - 1;
      WriteAllAppends(s, ws[..n]);
      assert ws == ws[..n] + [ws[n]];
      assert s.written + ws[..n] + [ws[n]] == s.written + ws;
      assert s.writeBuffer + ws[..n] + [ws[n]] == s.writeBuffer + ws;
    }
  }

  lemma ReceiveKeepsInv(s: Socket, data: Chunk, reader: Reader, received: seq<Chunk>, submitted: seq<Submission>)
    requires Inv(s, received, submitted)
    ensures Inv(Receive(s, data, reader), received + [data], submitted)
  {
    var next := s.(readBuffer := s.readBuffer + [data], readBufferSize := s.readBufferSize + |data|);
    TotalConcat(s.readBuffer, [data]);
    assert Total([data]) == |data| + Total([data][1..]);
    assert next.pushed + next.readBuffer == received + [data];
    FlushMoves(next, reader);
  }

  lemma ReadKeepsInv(s: Socket, size: nat, reader: Reader, received: seq<Chunk>, submitted: seq<Submission>)
    requires Inv(s, received, submitted)
    ensures Inv(Read(s, size, reader), received, submitted)
  {
    FlushMoves(s.(wantData := true), reader);
  }

  lemma WriteAllKeepsInv(s: Socket, ws: seq<Submission>, received: seq<Chunk>, submitted: seq<Submission>)
    requires Inv(s, received, submitted)
    ensures Inv(WriteAll(s, ws), received, submitted + ws)
  {
    WriteAllAppends(s, ws);
    assert (s.written + s.writeBuffer) + ws == s.written + (s.writeBuffer + ws);
    if s.open { assert (s.written + ws) + [] == s.written + ws; }
  }

  /**
   In every run, between two handlers: what the reader was given and what is buffered are the
   chunks received, in order; the recorded size is that of the buffer, and it is zero while the
   reader wants data; what the channel was given and what waits for it are the writes, in order.
  */
  lemma {:induction false} ReachableInv(es: seq<Event>, reader: Reader, s: Socket)
    requires Reaches(es, reader, s)
    ensures Inv(s, Received(es), Submitted(es))
  {
    if es != [] {
      var n := |es| - 1;
      var before: Socket :|
          Reaches(es[..n], reader, before) && Enabled(before, es[n]) && s == Step(before, es[n], reader);
      ReachableInv(es[..n], reader, before);
      var received, submitted := Received(es[..n]), Submitted(es[..n]);
      hide Reaches;
      assert received + [] == received && submitted + [] == submitted;
      match es[n]
      case Connected =>
        assert (before.written + before.writeBuffer) + [] == before.written + before.writeBuffer;
      case Data(chunk) => ReceiveKeepsInv(before, chunk, reader, received, submitted);
      case Wanted(size) => ReadKeepsInv(before, size, reader, received, submitted);
      case Written(w) =>
        assert WriteAll(before, []) == before && [w][..0] == [];
        WriteAllKeepsInv(before, [w], received, submitted);
      case WrittenAll(chunks, callback) =>
        VectorIsAskedFor(chunks, callback);
        WriteAllKeepsInv(before, Vector(chunks, callback), received, submitted);
    }
  }

  function Bytes(chunks: seq<Chunk>): seq<Byte>
  {
    if chunks == [] then [] else chunks[0] + Bytes(chunks[1..])
  }

  lemma {:induction false} BytesConcat(a: seq<Chunk>, b: seq<Chunk>)
    ensures Bytes(a + b) == Bytes(a) + Bytes(b)
  {
    if a == [] {
      assert a + b == b;
    } else {
      assert (a + b)[1..] == a[1..] + b;
      BytesConcat(a[1..], b);
    }
  }

  lemma {:induction false} TotalIsLength(chunks: seq<Chunk>)
    ensures Total(chunks) == |Bytes(chunks)|
  {
    if chunks != [] { TotalIsLength(chunks[1..]); }
  }

  /** No byte is lost, doubled or moved; and a reader that wants data has every byte received so far. */
  lemma BytesArriveInOrder(es: seq<Event>, reader: Reader, s: Socket)
    requires Reaches(es, reader, s)
    ensures Bytes(s.pushed) + Bytes(s.readBuffer) == Bytes(Received(es))
    ensures s.readBufferSize == |Bytes(s.readBuffer)|
    ensures s.wantData ==> Bytes(s.pushed) == Bytes(Received(es))
  {
    ReachableInv(es, reader, s);
    hide Reaches;
    BytesConcat(s.pushed, s.readBuffer);
    TotalIsLength(s.readBuffer);
  }

  /** Once the channel is open it has been given every write, before and after the opening, once each and in order. */
  lemma WritesArriveInOrder(es: seq<Event>, reader: Reader, s: Socket)
    requires Reaches(es, reader, s) && s.open
    ensures s.written == Submitted(es)
  {
    ReachableInv(es, reader, s);
  }

  /** The bytes that were asked to be written, in the order of the calls and of their chunks. */
  function BytesSubmitted(es: seq<Event>): seq<Byte>
  {
    if es == [] then []
    else
      BytesSubmitted(es[..|es| - 1]) +
      match es[|es| - 1]
      case Written(w) => w.chunk
      case WrittenAll(chunks, _) => BytesOfVector(chunks)
      case _ => []
  }

  function BytesOfVector(chunks: seq<(Chunk, string)>): seq<Byte>
  {
    if chunks == [] then [] else chunks[0].0 + BytesOfVector(chunks[1..])
  }

  function BytesOf(ws: seq<Submission>): seq<Byte>
  {
    if ws == [] then [] else ws[0].chunk + BytesOf(ws[1..])
  }

  lemma {:induction false} BytesOfConcat(a: seq<Submission>, b: seq<Submission>)
    ensures BytesOf(a + b) == BytesOf(a) + BytesOf(b)
  {
    if a == [] {
      assert a + b == b;
    } else {
      assert (a + b)[1..] == a[1..] + b;
      BytesOfConcat(a[1..], b);
    }
  }

  lemma {:induction false} BytesAskedFor(chunks: seq<(Chunk, string)>, callback: nat)
    ensures BytesOf(AskedFor(chunks, callback)) == BytesOfVector(chunks)
  {
    if |chunks| == 1 {
      assert chunks[1..] == [];
    } else if chunks != [] {
      BytesAskedFor(chunks[1..], callback);
      assert AskedFor(chunks, callback)[1..] == AskedFor(chunks[1..], callback);
    }
  }

  lemma {:induction false} BytesOfSubmitted(es: seq<Event>)
    ensures BytesOf(Submitted(es)) == BytesSubmitted(es)
  {
    if es != [] {
      var n := |es| - 1;
      BytesOfSubmitted(es[..n]);
      match es[n]
      case Written(w) =>
        BytesOfConcat(Submitted(es[..n]), [w]);
        assert [w][1..] == [] && BytesOf([w]) == w.chunk;
      case WrittenAll(chunks, callback) =>
        BytesOfConcat(Submitted(es[..n]), AskedFor(chunks, callback));
        BytesAskedFor(chunks, callback);
      case _ => BytesOfConcat(Submitted(es[..n]), []);
    }
  }

  /** In every run the bytes the channel was given, and those that wait for it, are the bytes written, in order. */
  lemma WrittenBytesArriveInOrder(es: seq<Event>, reader: Reader, s: Socket)
    requires Reaches(es, reader, s)
    ensures BytesOf(s.written) + BytesOf(s.writeBuffer) == BytesSubmitted(es)
    ensures s.open ==> BytesOf(s.written) == BytesSubmitted(es)
  {
    ReachableInv(es, reader, s);
    hide Reaches;
    BytesOfConcat(s.written, s.writeBuffer);
    BytesOfSubmitted(es);
  }

  /** A reader that never says no is given everything that was buffered, when it wants a byte of it. */
  lemma ReadDrains(s: Socket, size: nat, reader: Reader)
    requires s.readBufferSize == Total(s.readBuffer) > 0
    requires forall n :: reader(n)
    ensures Read(s, size, reader).pushed == s.pushed + s.readBuffer && Read(s, size, reader).readBuffer == []
  {
    FlushMoves(s.(wantData := true), reader);
    FlushStaysWanting(s.(wantData := true), reader);
  }

  lemma {:induction false} FlushStaysWanting(s: Socket, reader: Reader)
    requires s.wantData && forall n :: reader(n)
    ensures Flush(s, reader).wantData
    decreases |s.readBuffer|
  {
    if s.readBuffer != [] {
      FlushStaysWanting(s.(readBuffer := s.readBuffer[1..], readBufferSize := s.readBufferSize - |s.readBuffer[0]|,
                           pushed := s.pushed + [s.readBuffer[0]], wantData := reader(|s.pushed|)), reader);
    }
  }

  /** The socket wants data, or the reader answered no to a push since `before`. */
  predicate DemandKept(before: Socket, after: Socket, reader: Reader)
  {
    after.wantData || (|after.pushed| > |before.pushed| && !reader(|after.pushed| - 1))
  }

  lemma {:induction false} FlushKeepsDemand(s: Socket, reader: Reader)
    requires s.wantData
    ensures DemandKept(s, Flush(s, reader), reader)
    decreases |s.readBuffer|
  {
    if s.readBuffer != [] {
      var next := s.(readBuffer := s.readBuffer[1..], readBufferSize := s.readBufferSize - |s.readBuffer[0]|,
                     pushed := s.pushed + [s.readBuffer[0]], wantData := reader(|s.pushed|));
      if next.wantData { FlushKeepsDemand(next, reader); }
    }
  }

  /** A demand is never forgotten: asking for data sets it, and only an answer of the reader ends it. */
  lemma DemandEndsWithRefusal(s: Socket, e: Event, reader: Reader)
    requires e.Wanted? || s.wantData
    ensures DemandKept(s, Step(s, e, reader), reader)
  {
    match e
    case Data(chunk) =>
      FlushKeepsDemand(s.(readBuffer := s.readBuffer + [chunk], readBufferSize := s.readBufferSize + |chunk|), reader);
    case Wanted(_) => FlushKeepsDemand(s.(wantData := true), reader);
    case WrittenAll(chunks, callback) => WriteAllAppends(s, Vector(chunks, callback));
    case _ =>
  }

  /** The reads the reader asked for. */
  function Wishes(es: seq<Event>): seq<nat>
  {
    if es == [] then []
    else Wishes(es[..|es| - 1]) + if es[|es| - 1].Wanted? then [es[|es| - 1].size] else []
  }

  lemma {:induction false} FlushAsksNothing(s: Socket, reader: Reader)
    ensures Flush(s, reader).asked == s.asked
    decreases |s.readBuffer|
  {
    if s.readBuffer != [] {
      var next := s.(readBuffer := s.readBuffer[1..], readBufferSize := s.readBufferSize - |s.readBuffer[0]|,
                     pushed := s.pushed + [s.readBuffer[0]], wantData := reader(|s.pushed|));
      if next.wantData { FlushAsksNothing(next, reader); }
    }
  }

  /**
   In every run the channel is asked for exactly what the reader asks for, whether or not the buffer
   could serve it.
  */
  lemma {:induction false} WishesAreForwarded(es: seq<Event>, reader: Reader, s: Socket)
    requires Reaches(es, reader, s)
    ensures s.asked == Wishes(es)
  {
    if es != [] {
      var n := |es| - 1;
      var before: Socket :|
          Reaches(es[..n], reader, before) && Enabled(before, es[n]) && s == Step(before, es[n], reader);
      WishesAreForwarded(es[..n], reader, before);
      hide Reaches;
      match es[n]
      case Data(chunk) =>
        var filled := before.(readBuffer := before.readBuffer + [chunk],
                              readBufferSize := before.readBufferSize + |chunk|);
        FlushAsksNothing(filled, reader);
      case WrittenAll(chunks, callback) => WriteAllAppends(before, Vector(chunks, callback));
      case _ =>
    }
  }
}
