/** Bracketed paste as it arrives on a terminal (clientf/console_input_posix.cpp,
    `readPosixEvent`): the streaming extraction is the extraction from the whole string. */
module PosixPaste {
  import opened Prelude
  import opened Markers

  const MAX_PASTE: nat := 65_536

  /** ESC [ 2 0 1 ~ */
  const PASTE_END: Bytes := [0x1B, 0x5B, 0x32, 0x30, 0x31, 0x7E]

  datatype PasteEvent = Paste(text: Bytes) | InputTooLarge

  /** What a paste with this content is reported as. */
  function EventOf(content: Bytes): PasteEvent {
    if |content| <= MAX_PASTE then Paste(content) else InputTooLarge
  }

  class PasteDecoder {
    var inputBuffer: Bytes
    var pasteBuffer: Bytes
    var pasteTooLarge: bool
    var pasteActive: bool
    /** The bytes of the current paste already taken out of the input buffer. */
    ghost var taken: Bytes

    /** The decoder as the start marker leaves it. */
    constructor (following: Bytes)
      ensures Valid() && pasteActive && Pasted() == following
    {
      inputBuffer, pasteBuffer, pasteTooLarge, pasteActive, taken := following, [], false, true, [];
    }

    ghost predicate Valid()
      reads this
    {
      pasteActive ==>
        && Settled(taken + inputBuffer, |taken|, PASTE_END)
        && (pasteTooLarge <==> |taken| > MAX_PASTE)
        && (!pasteTooLarge ==> pasteBuffer == taken)
    }

    /** Everything received since the start marker. */
    ghost function Pasted(): Bytes
      reads this
    {
      taken + inputBuffer
    }

    /** Moves the first `n` bytes of the input to the paste, if they still fit. */
    method Append(n: nat)
      requires n <= |inputBuffer|
      requires (pasteTooLarge <==> |taken| > MAX_PASTE) && (!pasteTooLarge ==> pasteBuffer == taken)
      modifies this`pasteBuffer, this`pasteTooLarge, this`taken, this`inputBuffer
      ensures taken == old(taken) + old(inputBuffer)[..n] && inputBuffer == old(inputBuffer)[n..]
      ensures (pasteTooLarge <==> |taken| > MAX_PASTE) && (!pasteTooLarge ==> pasteBuffer == taken)
    {
      if !pasteTooLarge && |pasteBuffer| + n <= MAX_PASTE {
        pasteBuffer := pasteBuffer + inputBuffer[..n];
      } else {
        pasteTooLarge := true;
      }
      taken := taken + inputBuffer[..n];
      inputBuffer := inputBuffer[n..];
    }

    /** The marker is at `end`: the paste is reported and the decoder is ready again. */
    method Finish(end: nat) returns (event: PasteEvent)
      requires end + |PASTE_END| <= |inputBuffer|
      requires (pasteTooLarge <==> |taken| > MAX_PASTE) && (!pasteTooLarge ==> pasteBuffer == taken)
      modifies this
      ensures event == EventOf(old(taken) + old(inputBuffer)[..end]) && !pasteActive
      ensures inputBuffer == old(inputBuffer)[end..][|PASTE_END|..]
    {
      Append(end);
      inputBuffer := inputBuffer[|PASTE_END|..];
      pasteActive := false;
      if pasteTooLarge {
        pasteTooLarge := false;
        pasteBuffer := [];
        return InputTooLarge;
      }
      event := Paste(pasteBuffer);
      pasteBuffer := [];
    }

    /** One pass over the input buffer while a paste is active: it ends at a marker, or
        everything is taken but the last six bytes. */
    method Advance() returns (event: Option<PasteEvent>)
      requires Valid() && pasteActive
      modifies this
      ensures Valid()
      ensures match Find(old(Pasted()), PASTE_END)
        case None => event == None && pasteActive && Pasted() == old(Pasted())
        case Some(e) =>
          && e + |PASTE_END| <= |old(Pasted())|
          && event == Some(EventOf(old(Pasted())[..e])) && !pasteActive
          && inputBuffer == old(Pasted())[e + |PASTE_END|..]
    {
      hide Settled, Find, Occurs;
      FindBeyond(taken, inputBuffer, PASTE_END);
      var end := Find(inputBuffer, PASTE_END);
      if end.Some? {
        FoundWithin(taken, inputBuffer, PASTE_END);
        var finished := Finish(end.value);
        return Some(finished);
      }
      if |inputBuffer| > |PASTE_END| {
        var safe := |inputBuffer| - |PASTE_END|;
        BufferSettles(inputBuffer, safe, PASTE_END);
        SettledFurther(taken, inputBuffer, safe, PASTE_END);
        Append(safe);
        assert Pasted() == old(Pasted());
      }
      return None;
    }

    /** Bytes arrive on the terminal. */
    method Arrive(chunk: Bytes)
      requires Valid() && pasteActive
      modifies this`inputBuffer
      ensures Valid() && Pasted() == old(Pasted()) + chunk
    {
      hide Settled;
      SettledStays(taken + inputBuffer, |taken|, PASTE_END, chunk);
      assert taken + inputBuffer + chunk == taken + (inputBuffer + chunk);
      inputBuffer := inputBuffer + chunk;
    }

    /** Reads chunks as they arrive until the paste ends; `used` tells how many were needed. */
    method ReadPaste(chunks: seq<Bytes>) returns (event: Option<PasteEvent>, used: nat)
      requires Valid() && pasteActive
      modifies this
      ensures Valid() && used <= |chunks|
      ensures var all := old(Pasted()) + Concat(chunks);
        match Find(all, PASTE_END)
        case None => event == None && used == |chunks| && pasteActive && Pasted() == all
        case Some(e) =>
          && event == Some(EventOf(all[..e])) && !pasteActive
          && inputBuffer + Concat(chunks[used..]) == all[e + |PASTE_END|..]
    {
      hide Settled, Find, Occurs, EventOf;
      ghost var all := Pasted() + Concat(chunks);
      used := 0;
      while true
        invariant Valid() && pasteActive && used <= |chunks|
        invariant Pasted() + Concat(chunks[used..]) == all
        decreases |chunks| - used
      {
        ghost var now := Pasted();
        event := Advance();
        if event.Some? {
          FoundEarly(now, Concat(chunks[used..]), PASTE_END);
          return;
        }
        if used == |chunks| {
          assert Pasted() == all;
          return;
        }
        Arrive(chunks[used]);
        assert chunks[used..][1..] == chunks[used + 1..];
        used := used + 1;
      }
    }
  }
}
