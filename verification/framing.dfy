/** Newline framing (serverf/client_session.cpp and clientf/client_connection.cpp, `readFrame`
    and `sendJson`): reading frames from a socket that hands over its bytes in any pieces. */
module Framing {
  import opened Prelude

  const NEWLINE: bv8 := 0x0A
  const RETURN: bv8 := 0x0D

  /** The server's limit on requests, which is also the client's limit on what it sends. */
  const SERVER_LIMIT: nat := 65_536

  /** The client's limit on what it receives, which is also the server's limit on a page. */
  const CLIENT_LIMIT: nat := 1_048_576

  const READ_CHUNK: nat := 4096

  datatype FrameResult =
    | Frame(text: Bytes)
    | FrameTooLarge
    | EndOfStream
    | IncompleteFrame
    | TransportFailure

  datatype ReadError = NoError | Eof | Broken

  // ----- What the bytes mean -----

  /** Position of the first newline. */
  function FindNewline(all: Bytes): (p: Option<nat>)
    ensures p.Some? ==> p.value < |all| && all[p.value] == NEWLINE && forall i | 0 <= i < p.value :: all[i] != NEWLINE
    ensures p.None? ==> forall i | 0 <= i < |all| :: all[i] != NEWLINE
  {
    if all == [] then None
    else if all[0] == NEWLINE then Some(0)
    else
      match FindNewline(all[1..])
      case None => None
      case Some(n) => Some(n + 1)
  }

  function StripReturn(line: Bytes): Bytes {
    if line != [] && line[|line| - 1] == RETURN then line[..|line| - 1] else line
  }

  /** The complete lines of a byte string and what follows the last newline. */
  function Lines(all: Bytes): (r: (seq<Bytes>, Bytes))
    decreases |all|
  {
    match FindNewline(all)
    case None => ([], all)
    case Some(p) =>
      var (rest, tail) := Lines(all[p + 1..]);
      ([all[..p]] + rest, tail)
  }

  /** What reading a stream to its end gives: its lines up to the first that is too long, each
      without one trailing carriage return, and how it ended. */
  function ReadLines(lines: seq<Bytes>, tail: Bytes, end: ReadError, limit: nat): (seq<Bytes>, FrameResult) {
    if lines == [] then ([], Ending(tail, end, limit))
    else if |lines[0]| > limit then ([], FrameTooLarge)
    else
      var (frames, last) := ReadLines(lines[1..], tail, end, limit);
      ([StripReturn(lines[0])] + frames, last)
  }

  /** How a stream ends whose last line is unfinished. */
  function Ending(tail: Bytes, end: ReadError, limit: nat): FrameResult {
    if |tail| > limit then FrameTooLarge
    else if end == Broken then TransportFailure
    else if tail == [] then EndOfStream
    else IncompleteFrame
  }

  /** The next frame of the bytes still to come. */
  function NextFrame(all: Bytes, end: ReadError, limit: nat): FrameResult {
    match FindNewline(all)
    case Some(p) => if p > limit then FrameTooLarge else Frame(StripReturn(all[..p]))
    case None => Ending(all, end, limit)
  }

  /** The bytes left when a frame has been taken. */
  function AfterFrame(all: Bytes): Bytes {
    match FindNewline(all)
    case Some(p) => all[p + 1..]
    case None => all
  }

  // ----- Reading -----

  /** A socket: bytes not yet received, and how the stream ends after them. */
  class Socket {
    var rest: Bytes
    const end: ReadError

    constructor (bytes: Bytes, end: ReadError)
      requires end != NoError
      ensures rest == bytes && this.end == end
    {
      rest, this.end := bytes, end;
    }

    /** `read_some`: any positive number of bytes up to `most`, or the end; the end of the
        stream may be reported together with its last bytes. */
    method ReadSome(most: nat) returns (received: Bytes, error: ReadError)
      requires most > 0 && end != NoError
      modifies this
      ensures |received| <= most && old(rest) == received + rest
      ensures error == NoError ==> received != []
      ensures error != NoError ==> error == end && rest == []
      ensures error == Broken ==> received == []
    {
      if rest == [] {
        return [], end;
      }
      var n: nat :| 1 <= n <= most && n <= |rest|;
      received := rest[..n];
      rest := rest[n..];
      error := NoError;
      if rest == [] && end == Eof {
        if * {
          error := Eof;
        }
      }
    }
  }

  lemma FirstNewline(all: Bytes, i: nat)
    requires i < |all| && all[i] == NEWLINE && forall j | 0 <= j < i :: all[j] != NEWLINE
    ensures FindNewline(all) == Some(i)
  {
    var p := FindNewline(all);
  }

  /** A buffered newline is the stream's first. */
  lemma BufferedLine(buffer: Bytes, rest: Bytes, end: ReadError, limit: nat)
    requires FindNewline(buffer).Some?
    ensures var p := FindNewline(buffer).value;
      && NextFrame(buffer + rest, end, limit) == (if p > limit then FrameTooLarge else Frame(StripReturn(buffer[..p])))
      && AfterFrame(buffer + rest) == buffer[p + 1..] + rest
  {
    hide FindNewline, StripReturn, Ending;
    var p := FindNewline(buffer).value;
    FrontOfSum(buffer, rest, p);
    FirstNewline(buffer + rest, p);
  }

  lemma FrontOfSum(buffer: Bytes, rest: Bytes, p: nat)
    requires p < |buffer|
    ensures forall j | 0 <= j <= p :: (buffer + rest)[j] == buffer[j]
    ensures (buffer + rest)[..p] == buffer[..p]
    ensures (buffer + rest)[p + 1..] == buffer[p + 1..] + rest
  {
  }

  /** More than `limit` bytes without a newline are too large, whatever follows. */
  lemma LongBuffer(buffer: Bytes, rest: Bytes, end: ReadError, limit: nat)
    requires FindNewline(buffer).None? && |buffer| > limit
    ensures NextFrame(buffer + rest, end, limit) == FrameTooLarge
  {
    forall j | 0 <= j < |buffer|
      ensures (buffer + rest)[j] != NEWLINE
    {
      assert (buffer + rest)[j] == buffer[j];
    }
  }

  /** A stream without a newline ends as its bytes say. */
  lemma LastBuffer(buffer: Bytes, end: ReadError, limit: nat)
    requires FindNewline(buffer).None?
    ensures NextFrame(buffer, end, limit) == Ending(buffer, end, limit)
  {
  }

  class FrameReader {
    const socket: Socket
    const limit: nat
    var receiveBuffer: Bytes
    var endOfStreamSeen: bool
    /** How many reads are made before the stop flag is seen set; none if it never is. */
    var patience: Option<nat>

    constructor (socket: Socket, limit: nat, patience: Option<nat>)
      requires socket.end != NoError
      ensures this.socket == socket && this.limit == limit && receiveBuffer == [] && !endOfStreamSeen && Valid()
      ensures this.patience == patience
    {
      this.socket, this.limit, receiveBuffer, endOfStreamSeen, this.patience := socket, limit, [], false, patience;
    }

    /** The buffer never holds more than one byte beyond the limit. */
    predicate Valid()
      reads this, socket
    {
      && |receiveBuffer| <= limit + 1
      && socket.end != NoError
      && (endOfStreamSeen ==> socket.end == Eof && socket.rest == [])
    }

    /** The bytes still to be framed: those buffered and those not yet received. */
    function Unread(): Bytes
      reads this, socket
    {
      receiveBuffer + socket.rest
    }

    /** A stop was seen while the buffer held no whole line. */
    predicate Stopped(result: FrameResult)
      reads this
    {
      patience == Some(0) && result == TransportFailure && FindNewline(receiveBuffer).None?
    }

    /** However the bytes arrive, the next frame is the next line of the stream; a stop may
        end the reading before it has arrived, and then nothing is lost. */
    method ReadFrame() returns (result: FrameResult)
      requires Valid()
      modifies this, socket
      ensures Valid() && (old(patience) == None ==> patience == None)
      ensures result == NextFrame(old(Unread()), socket.end, limit) || Stopped(result)
      ensures Unread() == if result.Frame? then AfterFrame(old(Unread())) else old(Unread())
    {
      hide NextFrame, AfterFrame, FindNewline, StripReturn;
      while true
        invariant Valid() && Unread() == old(Unread()) && (old(patience) == None ==> patience == None)
        decreases |socket.rest|, !endOfStreamSeen
      {
        var newline := FindNewline(receiveBuffer);
        if newline.Some? {
          BufferedLine(receiveBuffer, socket.rest, socket.end, limit);
          if newline.value > limit {
            return FrameTooLarge;
          }
          var frame := receiveBuffer[..newline.value];
          receiveBuffer := receiveBuffer[newline.value + 1..];
          return Frame(StripReturn(frame));
        }
        if |receiveBuffer| > limit {
          LongBuffer(receiveBuffer, socket.rest, socket.end, limit);
          return FrameTooLarge;
        }
        LastBuffer(receiveBuffer, socket.end, limit);
        if endOfStreamSeen {
          assert Unread() == receiveBuffer;
          return if receiveBuffer == [] then EndOfStream else IncompleteFrame;
        }
        if patience == Some(0) {
          return TransportFailure;
        }
        var remaining := limit + 1 - |receiveBuffer|;
        var more := Receive(remaining);
        if !more {
          assert Unread() == receiveBuffer;
          return TransportFailure;
        }
      }
    }

    /** One read from the socket, of at most what the buffer may still take. */
    method Receive(remaining: nat) returns (more: bool)
      requires Valid() && !endOfStreamSeen && 0 < remaining == limit + 1 - |receiveBuffer| && patience != Some(0)
      modifies this, socket
      ensures Valid() && Unread() == old(Unread())
      ensures patience == if old(patience).Some? then Some(old(patience).value - 1) else None
      ensures more ==> |socket.rest| < old(|socket.rest|) || (socket.rest == old(socket.rest) && endOfStreamSeen)
      ensures !more ==> socket.end == Broken && socket.rest == [] && receiveBuffer == old(receiveBuffer)
    {
      var received, error := socket.ReadSome(if READ_CHUNK < remaining then READ_CHUNK else remaining);
      receiveBuffer := receiveBuffer + received;
      if error == Eof {
        endOfStreamSeen := true;
      }
      if patience.Some? {
        patience := Some(patience.value - 1);
      }
      more := error != Broken;
    }

    /** The reading loop: frames until something else than a frame is read. Without a stop
        they are all frames of the stream, with one the first of them. */
    method ReadAll() returns (frames: seq<Bytes>, last: FrameResult)
      requires Valid()
      modifies this, socket
      ensures Valid()
      ensures (frames, last) == ReadStream(old(Unread()), socket.end, limit)
           || (Stopped(last) && frames <= ReadStream(old(Unread()), socket.end, limit).0)
      ensures old(patience) == None ==> (frames, last) == ReadStream(old(Unread()), socket.end, limit)
    {
      hide NextFrame, AfterFrame, ReadStream;
      frames := [];
      ghost var whole := ReadStream(Unread(), socket.end, limit);
      PrefixedNone(whole);
      while true
        invariant Valid() && (old(patience) == None ==> patience == None)
        invariant whole == Prefixed(frames, ReadStream(Unread(), socket.end, limit))
        decreases |Unread()|
      {
        ghost var before, earlier := Unread(), frames;
        StreamStep(before, socket.end, limit);
        last := ReadFrame();
        if !last.Frame? {
          if last == NextFrame(before, socket.end, limit) {
            PrefixedEnd(frames, last);
          }
          return;
        }
        frames := frames + [last.text];
        PrefixedTwice(earlier, [last.text], ReadStream(Unread(), socket.end, limit));
      }
    }
  }

  /** What reading a whole stream gives. */
  function ReadStream(all: Bytes, end: ReadError, limit: nat): (seq<Bytes>, FrameResult) {
    ReadLines(Lines(all).0, Lines(all).1, end, limit)
  }

  function Prefixed(frames: seq<Bytes>, r: (seq<Bytes>, FrameResult)): (seq<Bytes>, FrameResult) {
    (frames + r.0, r.1)
  }

  lemma PrefixedNone(r: (seq<Bytes>, FrameResult))
    ensures Prefixed([], r) == r
  {
    assert [] + r.0 == r.0;
  }

  lemma PrefixedEnd(frames: seq<Bytes>, last: FrameResult)
    ensures Prefixed(frames, ([], last)) == (frames, last)
  {
    assert frames + [] == frames;
  }

  lemma PrefixedTwice(a: seq<Bytes>, b: seq<Bytes>, r: (seq<Bytes>, FrameResult))
    ensures Prefixed(a, Prefixed(b, r)) == Prefixed(a + b, r)
  {
    assert a + (b + r.0) == a + b + r.0;
  }

  /** Reading a stream is reading its next frame and then the rest. */
  lemma StreamStep(all: Bytes, end: ReadError, limit: nat)
    ensures var f := NextFrame(all, end, limit);
      if f.Frame? then
        |AfterFrame(all)| < |all| && ReadStream(all, end, limit) == Prefixed([f.text], ReadStream(AfterFrame(all), end, limit))
      else ReadStream(all, end, limit) == ([], f)
  {
  }

  // ----- Writing and reading back -----

  /** `sendJson`: the text and a newline. */
  function Written(texts: seq<Bytes>): Bytes {
    if texts == [] then [] else texts[0] + [NEWLINE] + Written(texts[1..])
  }

  /** What a frame must be to survive the trip: compact JSON text is. */
  predicate Sendable(text: Bytes, limit: nat) {
    NEWLINE !in text && |text| <= limit && (text != [] ==> text[|text| - 1] != RETURN)
  }

  /** Reading undoes writing: frames written by one side are read by the other, in order and
      unchanged, and the stream then ends cleanly. */
  lemma {:induction false} ReadingUndoesWriting(texts: seq<Bytes>, limit: nat)
    requires forall t | t in texts :: Sendable(t, limit)
    ensures ReadStream(Written(texts), Eof, limit) == (texts, EndOfStream)
    decreases |texts|
  {
    hide FindNewline, NextFrame, AfterFrame, ReadLines, Sendable;
    if texts == [] {
      EmptyStream(limit);
    } else {
      hide ReadStream;
      assert Sendable(texts[0], limit);
      WrittenFront(texts[0], Written(texts[1..]), limit);
      StreamStep(Written(texts), Eof, limit);
      ReadingUndoesWriting(texts[1..], limit);
      assert [texts[0]] + texts[1..] == texts;
    }
  }

  lemma EmptyStream(limit: nat)
    ensures ReadStream([], Eof, limit) == ([], EndOfStream)
  {
  }

  lemma WrittenFront(text: Bytes, rest: Bytes, limit: nat)
    requires Sendable(text, limit)
    ensures NextFrame(text + [NEWLINE] + rest, Eof, limit) == Frame(text)
    ensures AfterFrame(text + [NEWLINE] + rest) == rest
  {
    var all := text + [NEWLINE] + rest;
    assert forall j | 0 <= j < |text| :: all[j] == text[j] && text[j] in text;
    FirstNewline(all, |text|);
    assert all[..|text|] == text && all[|text| + 1..] == rest;
  }

  /** The client's `sendJson` refuses what is too long before anything is written. */
  function WrittenByClient(texts: seq<Bytes>): Bytes {
    if texts == [] then []
    else (if |texts[0]| > SERVER_LIMIT then [] else texts[0] + [NEWLINE]) + WrittenByClient(texts[1..])
  }

  function Within(texts: seq<Bytes>, limit: nat): seq<Bytes> {
    if texts == [] then [] else (if |texts[0]| > limit then [] else [texts[0]]) + Within(texts[1..], limit)
  }

  lemma {:induction false} ClientWrites(texts: seq<Bytes>)
    ensures WrittenByClient(texts) == Written(Within(texts, SERVER_LIMIT))
    ensures forall t | t in Within(texts, SERVER_LIMIT) :: t in texts && |t| <= SERVER_LIMIT
  {
    if texts != [] {
      ClientWrites(texts[1..]);
      var rest := Within(texts[1..], SERVER_LIMIT);
      if |texts[0]| > SERVER_LIMIT {
        assert [] + WrittenByClient(texts[1..]) == WrittenByClient(texts[1..]) && [] + rest == rest;
      } else {
        assert ([texts[0]] + rest)[1..] == rest;
      }
    }
  }

  /** The server reads exactly the requests the client agreed to send: no request is cut,
      merged or refused for its size. */
  lemma ServerReadsWhatTheClientSends(texts: seq<Bytes>)
    requires forall t | t in texts :: Sendable(t, |t|)
    ensures ReadStream(WrittenByClient(texts), Eof, SERVER_LIMIT) == (Within(texts, SERVER_LIMIT), EndOfStream)
  {
    ClientWrites(texts);
    var sent := Within(texts, SERVER_LIMIT);
    forall t | t in sent
      ensures Sendable(t, SERVER_LIMIT)
    {
      assert Sendable(t, |t|);
    }
    ReadingUndoesWriting(sent, SERVER_LIMIT);
  }

  /** A stream is refused as too large exactly at its first line longer than the limit, and
      all lines before it are read. */
  lemma {:induction false} TooLargeExactlyAtTheFirstLongLine(all: Bytes, end: ReadError, limit: nat)
    requires end != NoError
    ensures var (lines, tail) := Lines(all);
      var (frames, last) := ReadStream(all, end, limit);
      && |frames| <= |lines|
      && (forall i | 0 <= i < |frames| :: |lines[i]| <= limit && frames[i] == StripReturn(lines[i]))
      && (last == FrameTooLarge <==> (|frames| < |lines| && |lines[|frames|]| > limit) || (|frames| == |lines| && |tail| > limit))
      && (last != FrameTooLarge ==> |frames| == |lines|)
      && (last == EndOfStream <==> |frames| == |lines| && tail == [] && end == Eof)
      && (last == IncompleteFrame <==> |frames| == |lines| && 0 < |tail| <= limit && end == Eof)
  {
    LinesRead(Lines(all).0, Lines(all).1, end, limit);
  }

  lemma {:induction false} LinesRead(lines: seq<Bytes>, tail: Bytes, end: ReadError, limit: nat)
    requires end != NoError
    ensures var (frames, last) := ReadLines(lines, tail, end, limit);
      && |frames| <= |lines|
      && (forall i | 0 <= i < |frames| :: |lines[i]| <= limit && frames[i] == StripReturn(lines[i]))
      && (last == FrameTooLarge <==> (|frames| < |lines| && |lines[|frames|]| > limit) || (|frames| == |lines| && |tail| > limit))
      && (last != FrameTooLarge ==> |frames| == |lines|)
      && (last == EndOfStream <==> |frames| == |lines| && tail == [] && end == Eof)
      && (last == IncompleteFrame <==> |frames| == |lines| && 0 < |tail| <= limit && end == Eof)
    decreases |lines|
  {
    if lines != [] && |lines[0]| <= limit {
      LinesRead(lines[1..], tail, end, limit);
    }
  }

  /** The lines and the tail are the bytes cut at every newline. */
  lemma {:induction false} LinesAreTheBytes(all: Bytes)
    ensures var (lines, tail) := Lines(all);
      && Written(lines) + tail == all
      && (forall line | line in lines :: NEWLINE !in line) && NEWLINE !in tail
    decreases |all|
  {
    hide FindNewline;
    var p := FindNewline(all);
    if p.Some? {
      LinesAreTheBytes(all[p.value + 1..]);
      var (rest, tail) := Lines(all[p.value + 1..]);
      var line := all[..p.value];
      assert Lines(all) == ([line] + rest, tail);
      assert ([line] + rest)[1..] == rest;
      JoinLine(all, p.value, Written(rest), tail);
    }
  }

  lemma JoinLine(all: Bytes, p: nat, rest: Bytes, tail: Bytes)
    requires p < |all| && all[p] == NEWLINE && rest + tail == all[p + 1..]
    ensures all[..p] + [NEWLINE] + rest + tail == all
  {
    assert all[..p] + [NEWLINE] + rest + tail == all[..p] + [NEWLINE] + (rest + tail);
    assert all[..p] + [NEWLINE] + all[p + 1..] == all;
  }
}
