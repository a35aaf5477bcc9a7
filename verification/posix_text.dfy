/** Typed text on a terminal (clientf/console_input_posix.cpp, `readPosixEvent`): characters
    arrive as UTF-8 in any pieces, and every piecing gives the same events. Escape sequences,
    whose meaning depends on a clock, are not part of this model. */
module PosixText {
  import opened Prelude
  import opened Markers
  import opened Utf8

  const ESCAPE: bv8 := 0x1B

  /** One typed character, a control key, or a byte that starts neither. */
  datatype TextEvent = Text(text: Bytes) | Control(code: bv8) | Unsupported

  predicate IsControl(b: bv8) { b < 0x20 || b == 0x7F }

  /** The event at the front of the input and its length; none while a character is
      incomplete, and none at an escape, where another decoder takes over. */
  function FrontEvent(input: Bytes): (r: Option<(TextEvent, nat)>)
    requires input != []
    ensures r.Some? ==> 1 <= r.value.1 <= |input|
  {
    var length := Utf8Length(input[0]);
    if input[0] == ESCAPE then None
    else if IsControl(input[0]) then Some((Control(input[0]), 1))
    else if length == 0 then Some((Unsupported, 1))
    else if |input| < length then None
    else if CharLength(input) > 0 then Some((Text(input[..CharLength(input)]), CharLength(input)))
    else Some((Unsupported, 1))
  }

  /** The events of a whole input, and the incomplete character left at its end. */
  function Events(input: Bytes): (seq<TextEvent>, Bytes)
    decreases |input|
  {
    if input == [] || FrontEvent(input).None? then ([], input)
    else
      var (event, n) := FrontEvent(input).value;
      var (rest, left) := Events(input[n..]);
      ([event] + rest, left)
  }

  /** What is read at the front does not depend on what follows. */
  lemma FrontStays(input: Bytes, more: Bytes)
    requires input != [] && FrontEvent(input).Some?
    ensures FrontEvent(input + more) == FrontEvent(input)
  {
    var all := input + more;
    assert all[0] == input[0];
    LeadTailsSecond(input);
    LeadTailsSecond(all);
    if CharLength(input) > 0 {
      CharLengthPrefix(input, more);
      assert all[..CharLength(input)] == input[..CharLength(input)];
    } else if !IsControl(input[0]) && Utf8Length(input[0]) > 0 {
      assert forall i | 0 <= i < |input| :: all[i] == input[i];
    }
  }

  lemma FrontTaken(input: Bytes, more: Bytes)
    requires input != [] && FrontEvent(input).Some?
    ensures var (event, n) := FrontEvent(input).value;
      var (rest, left) := Events(input[n..] + more);
      Events(input + more) == ([event] + rest, left)
  {
    FrontStays(input, more);
    assert (input + more)[FrontEvent(input).value.1..] == input[FrontEvent(input).value.1..] + more;
    hide FrontEvent;
  }

  lemma NothingTaken(input: Bytes)
    requires input == [] || FrontEvent(input).None?
    ensures Events(input) == ([], input)
  {
  }

  /** The events of a whole are the events of its first part and then those of what that part
      left with the second: how the bytes are cut does not matter. */
  lemma {:induction false} EventsInPieces(input: Bytes, more: Bytes)
    ensures var (first, left) := Events(input);
      var (second, rest) := Events(left + more);
      Events(input + more) == (first + second, rest)
    decreases |input|
  {
    hide FrontEvent;
    if input == [] || FrontEvent(input).None? {
      assert [] + Events(input + more).0 == Events(input + more).0;
    } else {
      FrontStays(input, more);
      var (event, n) := FrontEvent(input).value;
      EventsInPieces(input[n..], more);
      assert (input + more)[n..] == input[n..] + more;
      var (first, left) := Events(input[n..]);
      var (second, rest) := Events(left + more);
      assert [event] + (first + second) == [event] + first + second;
    }
  }

  class TextDecoder {
    var inputBuffer: Bytes

    constructor ()
      ensures inputBuffer == []
    {
      inputBuffer := [];
    }

    /** The character or key at the front of the buffer, if it is complete. */
    method TakeEvent() returns (event: Option<TextEvent>)
      requires inputBuffer != []
      modifies this
      ensures match FrontEvent(old(inputBuffer))
        case None => event == None && inputBuffer == old(inputBuffer)
        case Some(e) => event == Some(e.0) && inputBuffer == old(inputBuffer)[e.1..]
    {
      var first := inputBuffer[0];
      if first == ESCAPE {
        return None;
      }
      if IsControl(first) {
        inputBuffer := inputBuffer[1..];
        return Some(Control(first));
      }
      var length := Utf8Length(first);
      if length == 0 {
        inputBuffer := inputBuffer[1..];
        return Some(Unsupported);
      }
      if |inputBuffer| < length {
        return None;
      }
      var valid := ValidUtf8Sequence(inputBuffer, length);
      if !valid {
        inputBuffer := inputBuffer[1..];
        return Some(Unsupported);
      }
      var text := inputBuffer[..length];
      inputBuffer := inputBuffer[length..];
      return Some(Text(text));
    }

    /** Every event the chunks complete, however they cut the input. */
    method ReadText(chunks: seq<Bytes>) returns (events: seq<TextEvent>)
      modifies this
      ensures (events, inputBuffer) == Events(old(inputBuffer) + Concat(chunks))
    {
      hide FrontEvent, Events;
      ghost var whole := inputBuffer + Concat(chunks);
      events := [];
      var used := 0;
      var waiting := false;
      assert chunks[used..] == chunks && [] + Events(whole).0 == Events(whole).0;
      while used < |chunks| || !waiting
        invariant used <= |chunks|
        invariant var (rest, left) := Events(inputBuffer + Concat(chunks[used..]));
          Events(whole) == (events + rest, left)
        invariant waiting ==> Events(inputBuffer) == ([], inputBuffer)
        decreases |chunks| - used, |inputBuffer|, !waiting
      {
        if !waiting && inputBuffer != [] {
          ghost var before, more, earlier := inputBuffer, Concat(chunks[used..]), events;
          var event := TakeEvent();
          if event.Some? {
            FrontTaken(before, more);
            events := events + [event.value];
            assert earlier + ([event.value] + Events(inputBuffer + more).0) == events + Events(inputBuffer + more).0;
          } else {
            NothingTaken(inputBuffer);
            waiting := true;
          }
        } else if used < |chunks| {
          assert chunks[used..][1..] == chunks[used + 1..];
          assert inputBuffer + Concat(chunks[used..]) == (inputBuffer + chunks[used]) + Concat(chunks[used + 1..]);
          inputBuffer := inputBuffer + chunks[used];
          used := used + 1;
          waiting := false;
        } else {
          NothingTaken(inputBuffer);
          waiting := true;
        }
      }
      assert inputBuffer + Concat(chunks[used..]) == inputBuffer;
      assert events + [] == events;
    }
  }

  function Texts(events: seq<TextEvent>): Bytes {
    if events == [] then []
    else (if events[0].Text? then events[0].text else []) + Texts(events[1..])
  }

  /** Printable text: valid and without control bytes. */
  predicate Printable(text: Bytes) {
    Valid(text) && forall b | b in text :: !IsControl(b)
  }

  /** One event per character, nothing else. */
  predicate OneCharacterEach(events: seq<TextEvent>) {
    forall e | e in events :: e.Text? && e.text != [] && CharLength(e.text) == |e.text|
  }

  lemma PrintableFront(text: Bytes)
    requires Printable(text) && text != []
    ensures var n := CharLength(text);
      && n > 0 && FrontEvent(text) == Some((Text(text[..n]), n)) && Printable(text[n..])
      && CharLength(text[..n]) == n
  {
    LeadTailsSecond(text);
    assert text[0] in text;
    assert forall b | b in text[CharLength(text)..] :: b in text;
    CharLengthOfOne(text);
    hide CharLength, IsControl, Utf8Length;
  }

  /** Typing printable text gives exactly its characters, one event each, and leaves nothing. */
  lemma {:induction false} PrintableTextArrives(text: Bytes)
    requires Printable(text)
    ensures var (events, left) := Events(text);
      left == [] && Texts(events) == text && OneCharacterEach(events)
    decreases |text|
  {
    hide Printable, FrontEvent, CharLength;
    if text != [] {
      var n := CharLength(text);
      PrintableFront(text);
      PrintableTextArrives(text[n..]);
      assert text == text[..n] + text[n..];
      var (rest, left) := Events(text[n..]);
      assert Events(text).0 == [Text(text[..n])] + rest;
      assert Events(text).0[1..] == rest;
    }
  }

  lemma CharLengthOfOne(text: Bytes)
    requires CharLength(text) > 0
    ensures CharLength(text[..CharLength(text)]) == CharLength(text)
  {
    var n := CharLength(text);
    assert forall i | 0 <= i < n :: text[..n][i] == text[i];
  }

  /** What can be typed: one printable character, or a control key other than escape. */
  predicate Typed(e: TextEvent) {
    match e
    case Text(text) => text != [] && CharLength(text) == |text| && !IsControl(text[0])
    case Control(code) => IsControl(code) && code != ESCAPE
    case Unsupported => false
  }

  function BytesOf(e: TextEvent): Bytes {
    match e case Text(text) => text case Control(code) => [code] case Unsupported => []
  }

  function TypedBytes(events: seq<TextEvent>): Bytes {
    if events == [] then [] else BytesOf(events[0]) + TypedBytes(events[1..])
  }

  lemma TypedFront(e: TextEvent, rest: Bytes)
    requires Typed(e)
    ensures BytesOf(e) != [] && FrontEvent(BytesOf(e) + rest) == Some((e, |BytesOf(e)|))
  {
    var all := BytesOf(e) + rest;
    if e.Text? {
      CharLengthPrefix(e.text, rest);
      LeadTailsSecond(all);
      NotEscape(e.text[0]);
      assert all[..|e.text|] == e.text && all[0] == e.text[0];
      hide CharLength, IsControl, Utf8Length;
    }
  }

  lemma NotEscape(b: bv8)
    ensures !IsControl(b) ==> b != ESCAPE
  {
  }

  /** Whatever is typed, characters and control keys in any order, arrives as it was typed, one
      event for each key, and leaves nothing. */
  lemma {:induction false} TypingArrives(events: seq<TextEvent>)
    requires forall e | e in events :: Typed(e)
    ensures Events(TypedBytes(events)) == (events, [])
    decreases |events|
  {
    hide FrontEvent, Typed, BytesOf;
    if events != [] {
      var first, rest := events[0], TypedBytes(events[1..]);
      assert first in events;
      TypingArrives(events[1..]);
      TypedFront(first, rest);
      var all := BytesOf(first) + rest;
      assert all[|BytesOf(first)|..] == rest;
      assert Events(all) == ([first] + events[1..], []);
      assert [first] + events[1..] == events;
    }
  }

  /** A byte that begins no character, or a character that is broken off, is reported and
      skipped by itself; what might still become a character is waited for. */
  lemma BrokenBytesAreReported(input: Bytes)
    requires input != [] && !IsControl(input[0]) && CharLength(input) == 0
    ensures FrontEvent(input) ==
      if Utf8Length(input[0]) > |input| then None else Some((Unsupported, 1))
  {
    NotEscape(input[0]);
  }
}
