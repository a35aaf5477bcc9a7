/** Bracketed paste on Windows (clientf/console_input_windows.cpp, `parseBuffered` and
    `appendPaste`): UTF-16 code units in pieces, surrogates paired across pieces. The streaming
    extraction is the extraction from the whole string. */
module WidePaste {
  import opened Prelude
  import opened Markers
  import Utf8

  type Unit = bv16

  const MAX_PASTE: nat := 65_536

  /** ESC [ 2 0 1 ~ */
  const PASTE_END: seq<Unit> := [0x1B, 0x5B, 0x32, 0x30, 0x31, 0x7E]

  datatype PasteEvent = Paste(text: Bytes) | InputTooLarge | Rejected

  predicate High(u: Unit) { 0xD800 <= u <= 0xDBFF }

  predicate Low(u: Unit) { 0xDC00 <= u <= 0xDFFF }

  /** The code point of a surrogate pair: section 2.1 of RFC 2781. */
  function PairValue(high: Unit, low: Unit): bv32 {
    0x10000 + (((high as bv32) & 0x3FF) << 10) + ((low as bv32) & 0x3FF)
  }

  lemma PairIsScalar(high: Unit, low: Unit)
    ensures Utf8.Scalar(PairValue(high, low)) && PairValue(high, low) >= 0x10000
  {
  }

  lemma SingleIsScalar(u: Unit)
    requires !High(u) && !Low(u)
    ensures Utf8.Scalar(u as bv32) && u as bv32 < 0x10000
  {
  }

  // ----- The whole string -----

  /** The scalar values of a string of code units, and whether some unit was no part of any. */
  function Decode16(units: seq<Unit>): (r: (seq<bv32>, bool))
    ensures forall v | v in r.0 :: Utf8.Scalar(v)
  {
    if units == [] then ([], false)
    else if High(units[0]) && |units| > 1 && Low(units[1]) then
      PairIsScalar(units[0], units[1]);
      ([PairValue(units[0], units[1])] + Decode16(units[2..]).0, Decode16(units[2..]).1)
    else if High(units[0]) || Low(units[0]) then (Decode16(units[1..]).0, true)
    else
      SingleIsScalar(units[0]);
      ([units[0] as bv32] + Decode16(units[1..]).0, Decode16(units[1..]).1)
  }

  /** What a paste of these units is reported as: its size is looked at first. */
  function EventOf(content: seq<Unit>): PasteEvent {
    var (vs, malformed) := Decode16(content);
    if |Utf8.EncodeAll(vs)| > MAX_PASTE then InputTooLarge
    else if malformed then Rejected
    else Paste(Utf8.EncodeAll(vs))
  }

  // ----- Unit by unit -----

  /** What has been read: scalars, whether a stray unit was met, and a high surrogate that
      waits for its partner. */
  datatype Scan = Scan(values: seq<bv32>, malformed: bool, pending: Option<Unit>)

  predicate ScanOk(s: Scan) {
    (forall v | v in s.values :: Utf8.Scalar(v)) && (s.pending.Some? ==> High(s.pending.value))
  }

  /** A unit that has no high surrogate before it. */
  function ScanFresh(s: Scan, u: Unit): Scan {
    if High(u) then s.(pending := Some(u))
    else if Low(u) then s.(malformed := true)
    else s.(values := s.values + [u as bv32])
  }

  function ScanUnit(s: Scan, u: Unit): Scan {
    match s.pending
    case None => ScanFresh(s, u)
    case Some(high) =>
      if Low(u) then s.(values := s.values + [PairValue(high, u)], pending := None)
      else ScanFresh(s.(malformed := true, pending := None), u)
  }

  function ScanAll(units: seq<Unit>): (s: Scan)
    ensures ScanOk(s)
  {
    if units == [] then Scan([], false, None)
    else
      var before := ScanAll(units[..|units| - 1]);
      ScanUnitOk(before, units[|units| - 1]);
      ScanUnit(before, units[|units| - 1])
  }

  lemma ScanUnitOk(s: Scan, u: Unit)
    requires ScanOk(s)
    ensures ScanOk(ScanUnit(s, u))
  {
    if s.pending.Some? { PairIsScalar(s.pending.value, u); }
    if !High(u) && !Low(u) { SingleIsScalar(u); }
    hide PairValue, Utf8.Scalar;
  }

  function Waiting(s: Scan): seq<Unit> {
    if s.pending.Some? then [s.pending.value] else []
  }

  /** Decoding goes on from what has been scanned. */
  function Continue(s: Scan, rest: seq<Unit>): (seq<bv32>, bool) {
    (s.values + Decode16(Waiting(s) + rest).0, s.malformed || Decode16(Waiting(s) + rest).1)
  }

  lemma FreshContinues(s: Scan, u: Unit, rest: seq<Unit>)
    requires ScanOk(s) && s.pending == None
    ensures Continue(ScanFresh(s, u), rest) == Continue(s, [u] + rest)
  {
    hide PairValue, Utf8.Scalar, Decode16;
    var none: seq<Unit> := [];
    assert none + ([u] + rest) == [u] + rest && none + rest == rest;
    if Low(u) {
      DecodeLow(u, rest);
    } else if !High(u) {
      DecodeSingle(u, rest);
      assert (s.values + [u as bv32]) + Decode16(rest).0 == s.values + ([u as bv32] + Decode16(rest).0);
    }
  }

  lemma DecodeLow(u: Unit, rest: seq<Unit>)
    requires Low(u)
    ensures Decode16([u] + rest) == (Decode16(rest).0, true)
  {
    hide PairValue, Utf8.Scalar;
    assert ([u] + rest)[1..] == rest;
  }

  lemma ScanContinues(s: Scan, u: Unit, rest: seq<Unit>)
    requires ScanOk(s)
    ensures Continue(ScanUnit(s, u), rest) == Continue(s, [u] + rest)
  {
    hide PairValue, Utf8.Scalar, ScanFresh;
    if s.pending.None? {
      FreshContinues(s, u, rest);
    } else {
      var high := s.pending.value;
      var all := [high] + ([u] + rest);
      assert all[1..] == [u] + rest && all[2..] == rest && all[0] == high && all[1] == u;
      assert [] + rest == rest && [] + ([u] + rest) == [u] + rest;
      if Low(u) {
        var v := PairValue(high, u);
        assert Decode16(all).0 == [v] + Decode16(rest).0;
        assert (s.values + [v]) + Decode16(rest).0 == s.values + ([v] + Decode16(rest).0);
      } else {
        assert Decode16(all) == (Decode16([u] + rest).0, true);
        FreshContinues(s.(malformed := true, pending := None), u, rest);
      }
    }
  }

  lemma {:induction false} ScanThenRest(units: seq<Unit>, rest: seq<Unit>)
    ensures Decode16(units + rest) == Continue(ScanAll(units), rest)
    decreases |units|
  {
    hide Decode16, ScanUnit, Continue;
    if units == [] {
      assert units + rest == rest;
      NothingScanned(rest);
    } else {
      var before, u := units[..|units| - 1], units[|units| - 1];
      assert units + rest == before + ([u] + rest);
      ScanThenRest(before, [u] + rest);
      ScanContinues(ScanAll(before), u, rest);
    }
  }

  lemma NothingScanned(rest: seq<Unit>)
    ensures Continue(Scan([], false, None), rest) == Decode16(rest)
  {
    assert [] + rest == rest;
    assert [] + Decode16(rest).0 == Decode16(rest).0;
  }

  /** The whole content decodes to what was scanned; a partner still missing is an error. */
  lemma ScanIsDecode(units: seq<Unit>)
    ensures Decode16(units) == (ScanAll(units).values, ScanAll(units).malformed || ScanAll(units).pending.Some?)
  {
    ScanThenRest(units, []);
    assert units + [] == units;
    var s := ScanAll(units);
    assert Waiting(s) + [] == Waiting(s);
    assert s.values + [] == s.values;
  }

  lemma {:induction false} EncodeOneMore(vs: seq<bv32>, v: bv32)
    requires (forall x | x in vs :: Utf8.Scalar(x)) && Utf8.Scalar(v)
    ensures Utf8.EncodeAll(vs + [v]) == Utf8.EncodeAll(vs) + Utf8.Encode(v)
    decreases |vs|
  {
    hide Utf8.Encode, Utf8.Scalar;
    if vs == [] {
      assert vs + [v] == [v];
      assert Utf8.EncodeAll([v]) == Utf8.Encode(v) + Utf8.EncodeAll([v][1..]);
    } else {
      assert (vs + [v])[1..] == vs[1..] + [v];
      EncodeOneMore(vs[1..], v);
    }
  }

  // ----- Well-formed text -----

  function Encode16(v: bv32): seq<Unit>
    requires Utf8.Scalar(v)
  {
    if v < 0x10000 then [v as bv16]
    else [0xD800 + (((v - 0x10000) >> 10) as bv16), 0xDC00 + (((v - 0x10000) & 0x3FF) as bv16)]
  }

  function EncodeAll16(vs: seq<bv32>): seq<Unit>
    requires forall v | v in vs :: Utf8.Scalar(v)
  {
    if vs == [] then [] else Encode16(vs[0]) + EncodeAll16(vs[1..])
  }

  lemma PairBits(v: bv32)
    requires Utf8.Scalar(v) && v >= 0x10000
    ensures ((v - 0x10000) >> 10) < 0x400
    ensures var high: bv16, low: bv16 := 0xD800 + (((v - 0x10000) >> 10) as bv16), 0xDC00 + (((v - 0x10000) & 0x3FF) as bv16);
      High(high) && Low(low) && PairValue(high, low) == v
  {
  }

  lemma SingleBits(v: bv32)
    requires Utf8.Scalar(v) && v < 0x10000
    ensures !High(v as bv16) && !Low(v as bv16) && (v as bv16) as bv32 == v
  {
  }

  lemma DecodeSingle(u: Unit, rest: seq<Unit>)
    requires !High(u) && !Low(u)
    ensures Decode16([u] + rest) == ([u as bv32] + Decode16(rest).0, Decode16(rest).1)
  {
    hide Utf8.Scalar;
    assert ([u] + rest)[1..] == rest;
  }

  lemma DecodePair(high: Unit, low: Unit, rest: seq<Unit>)
    requires High(high) && Low(low)
    ensures Decode16([high, low] + rest) == ([PairValue(high, low)] + Decode16(rest).0, Decode16(rest).1)
  {
    hide PairValue, Utf8.Scalar;
    assert ([high, low] + rest)[2..] == rest;
  }

  lemma DecodeOne(v: bv32, rest: seq<Unit>)
    requires Utf8.Scalar(v)
    ensures Decode16(Encode16(v) + rest) == ([v] + Decode16(rest).0, Decode16(rest).1)
  {
    hide Decode16, PairValue;
    if v < 0x10000 {
      SingleBits(v);
      DecodeSingle(v as bv16, rest);
    } else {
      PairBits(v);
      DecodePair(Encode16(v)[0], Encode16(v)[1], rest);
    }
  }

  /** Well-formed UTF-16 is read back as its scalar values. */
  lemma {:induction false} DecodeUndoesEncode(vs: seq<bv32>)
    requires forall v | v in vs :: Utf8.Scalar(v)
    ensures Decode16(EncodeAll16(vs)) == (vs, false)
    decreases |vs|
  {
    hide Encode16, Utf8.Scalar;
    if vs == [] {
      assert Decode16([]) == ([], false);
    } else {
      hide Decode16;
      DecodeUndoesEncode(vs[1..]);
      assert [vs[0]] + vs[1..] == vs;
      DecodeOne(vs[0], EncodeAll16(vs[1..]));
    }
  }

  // ----- The decoder -----

  /** How the decoder's fields stand for a scan. */
  predicate Holds(s: Scan, buffer: Bytes, tooLarge: bool, malformed: bool, high: Unit)
    requires ScanOk(s)
  {
    && (tooLarge <==> |Utf8.EncodeAll(s.values)| > MAX_PASTE)
    && buffer == (if tooLarge then [] else Utf8.EncodeAll(s.values))
    && malformed == s.malformed
    && high == (if s.pending.Some? then s.pending.value else 0)
  }

  lemma ScanMore(units: seq<Unit>, u: Unit)
    ensures ScanAll(units + [u]) == ScanUnit(ScanAll(units), u)
  {
    assert (units + [u])[..|units|] == units;
  }

  class WideDecoder {
    var vtBuffer: seq<Unit>
    var pasteBuffer: Bytes
    var pasteTooLarge: bool
    var pasteMalformed: bool
    var pasteHighSurrogate: Unit
    var pasteActive: bool
    /** The units of the current paste already taken out of the buffer. */
    ghost var taken: seq<Unit>

    /** The decoder as the start marker leaves it. */
    constructor (following: seq<Unit>)
      ensures Valid() && pasteActive && Pasted() == following
    {
      vtBuffer, pasteBuffer, pasteTooLarge, pasteMalformed := following, [], false, false;
      pasteHighSurrogate, pasteActive, taken := 0, true, [];
    }

    ghost predicate Scanned()
      reads this
    {
      Holds(ScanAll(taken), pasteBuffer, pasteTooLarge, pasteMalformed, pasteHighSurrogate)
    }

    ghost predicate Valid()
      reads this
    {
      pasteActive ==> Settled(taken + vtBuffer, |taken|, PASTE_END) && Scanned()
    }

    ghost function Pasted(): seq<Unit>
      reads this
    {
      taken + vtBuffer
    }

    /** Adds one scalar unless the paste is, or becomes, too large. */
    method AppendScalar(v: bv32, bytes: nat, ghost before: seq<bv32>)
      requires (forall x | x in before :: Utf8.Scalar(x)) && Utf8.Scalar(v) && bytes == |Utf8.Encode(v)|
      requires pasteTooLarge <==> |Utf8.EncodeAll(before)| > MAX_PASTE
      requires pasteBuffer == if pasteTooLarge then [] else Utf8.EncodeAll(before)
      modifies this`pasteBuffer, this`pasteTooLarge
      ensures pasteTooLarge <==> |Utf8.EncodeAll(before + [v])| > MAX_PASTE
      ensures pasteBuffer == if pasteTooLarge then [] else Utf8.EncodeAll(before + [v])
    {
      hide Utf8.Encode, Utf8.EncodeAll, Utf8.Scalar;
      EncodeOneMore(before, v);
      if pasteTooLarge {
        return;
      }
      if bytes > MAX_PASTE - |pasteBuffer| {
        pasteTooLarge := true;
        pasteBuffer := [];
        return;
      }
      pasteBuffer := pasteBuffer + Utf8.Encode(v);
    }

    /** One code unit of the paste. */
    method AppendUnit(character: Unit)
      requires Scanned()
      modifies this`pasteBuffer, this`pasteTooLarge, this`pasteMalformed, this`pasteHighSurrogate, this`taken
      ensures taken == old(taken) + [character] && Scanned()
    {
      hide Utf8.EncodeAll, Utf8.Scalar, PairValue, ScanAll, Utf8.Encode;
      ghost var s := ScanAll(taken);
      ScanMore(taken, character);
      taken := taken + [character];
      if pasteHighSurrogate != 0 {
        if !Low(character) {
          pasteMalformed := true;
          pasteHighSurrogate := 0;
        } else {
          PairIsScalar(pasteHighSurrogate, character);
          PairLength(pasteHighSurrogate, character);
          AppendScalar(PairValue(pasteHighSurrogate, character), 4, s.values);
          pasteHighSurrogate := 0;
          return;
        }
      }
      if High(character) {
        pasteHighSurrogate := character;
      } else if Low(character) {
        pasteMalformed := true;
      } else {
        SingleIsScalar(character);
        SingleLength(character);
        AppendScalar(character as bv32, if character < 0x80 then 1 else if character < 0x800 then 2 else 3, s.values);
      }
    }

    /** `appendPaste` of the first `n` units of the buffer, which then leave it. */
    method Append(n: nat)
      requires n <= |vtBuffer| && Scanned()
      modifies this
      ensures taken == old(taken) + old(vtBuffer)[..n] && vtBuffer == old(vtBuffer)[n..] && Scanned()
      ensures pasteActive == old(pasteActive)
    {
      hide Holds, ScanAll;
      var text := vtBuffer[..n];
      var i := 0;
      while i < |text|
        invariant i <= |text| && Scanned() && taken == old(taken) + text[..i]
        invariant vtBuffer == old(vtBuffer) && pasteActive == old(pasteActive)
      {
        AppendUnit(text[i]);
        assert text[..i + 1] == text[..i] + [text[i]];
        i := i + 1;
      }
      assert text[..i] == text;
      vtBuffer := vtBuffer[n..];
    }

    /** The longest beginning of the end marker that the buffer ends with. */
    method LongestBeginning() returns (retained: nat)
      ensures retained <= |vtBuffer|
      ensures forall i | 0 <= i < |vtBuffer| - retained && |vtBuffer| - i < |PASTE_END| :: !(vtBuffer[i..] <= PASTE_END)
    {
      retained := 0;
      var length := if |vtBuffer| < |PASTE_END| - 1 then |vtBuffer| else |PASTE_END| - 1;
      while length > 0
        invariant 0 <= length <= |vtBuffer|
        invariant forall i | 0 <= i < |vtBuffer| - length && |vtBuffer| - i < |PASTE_END| :: !(vtBuffer[i..] <= PASTE_END)
        decreases length
      {
        if vtBuffer[|vtBuffer| - length..] == PASTE_END[..length] {
          return length;
        }
        length := length - 1;
      }
    }

    /** The marker is at `end`: the paste is reported and the decoder is ready again. */
    method Finish(end: nat) returns (event: PasteEvent)
      requires end + |PASTE_END| <= |vtBuffer| && Scanned()
      modifies this
      ensures event == EventOf(old(taken) + old(vtBuffer)[..end]) && !pasteActive
      ensures vtBuffer == old(vtBuffer)[end..][|PASTE_END|..]
    {
      hide ScanAll, Utf8.EncodeAll, Decode16;
      Append(end);
      ScanIsDecode(taken);
      vtBuffer := vtBuffer[|PASTE_END|..];
      if pasteHighSurrogate != 0 {
        pasteMalformed := true;
        pasteHighSurrogate := 0;
      }
      pasteActive := false;
      event := if pasteTooLarge then InputTooLarge else if pasteMalformed then Rejected else Paste(pasteBuffer);
      pasteBuffer, pasteTooLarge, pasteMalformed, pasteHighSurrogate := [], false, false, 0;
    }

    /** One pass over the buffer while a paste is active. */
    method Advance() returns (event: Option<PasteEvent>)
      requires Valid() && pasteActive
      modifies this
      ensures Valid()
      ensures match Find(old(Pasted()), PASTE_END)
        case None => event == None && pasteActive && Pasted() == old(Pasted())
        case Some(e) =>
          && e + |PASTE_END| <= |old(Pasted())|
          && event == Some(EventOf(old(Pasted())[..e])) && !pasteActive
          && vtBuffer == old(Pasted())[e + |PASTE_END|..]
    {
      hide Settled, Find, Occurs, Holds, ScanAll, EventOf;
      FindBeyond(taken, vtBuffer, PASTE_END);
      var end := Find(vtBuffer, PASTE_END);
      if end.Some? {
        FoundWithin(taken, vtBuffer, PASTE_END);
        var finished := Finish(end.value);
        return Some(finished);
      }
      var retained := LongestBeginning();
      var safe := |vtBuffer| - retained;
      NoBeginning(vtBuffer, safe);
      BufferSettles(vtBuffer, safe, PASTE_END);
      SettledFurther(taken, vtBuffer, safe, PASTE_END);
      Append(safe);
      assert Pasted() == old(Pasted());
      return None;
    }

    /** Units arrive. */
    method Arrive(chunk: seq<Unit>)
      requires Valid() && pasteActive
      modifies this`vtBuffer
      ensures Valid() && Pasted() == old(Pasted()) + chunk
    {
      hide Settled, Holds, ScanAll;
      SettledStays(taken + vtBuffer, |taken|, PASTE_END, chunk);
      assert taken + vtBuffer + chunk == taken + (vtBuffer + chunk);
      vtBuffer := vtBuffer + chunk;
    }

    /** Reads chunks as they arrive until the paste ends. */
    method ReadPaste(chunks: seq<seq<Unit>>) returns (event: Option<PasteEvent>, used: nat)
      requires Valid() && pasteActive
      modifies this
      ensures Valid() && used <= |chunks|
      ensures var all := old(Pasted()) + Concat(chunks);
        match Find(all, PASTE_END)
        case None => event == None && used == |chunks| && pasteActive && Pasted() == all
        case Some(e) =>
          && event == Some(EventOf(all[..e])) && !pasteActive
          && vtBuffer + Concat(chunks[used..]) == all[e + |PASTE_END|..]
    {
      hide Settled, Find, Occurs, Holds, ScanAll, EventOf;
      ghost var all := Pasted() + Concat(chunks);
      used := 0;
      while true
        invariant Valid() && pasteActive && used <= |chunks|
        invariant Pasted() + Concat(chunks[used..]) == all
        decreases |chunks| - used
      {
        ghost var now := Pasted();
        event := Advance();
        if event.Some? {
          FoundEarly(now, Concat(chunks[used..]), PASTE_END);
          return;
        }
        if used == |chunks| {
          assert Pasted() == all;
          return;
        }
        Arrive(chunks[used]);
        assert chunks[used..][1..] == chunks[used + 1..];
        used := used + 1;
      }
    }
  }

  lemma PairLength(high: Unit, low: Unit)
    ensures Utf8.Scalar(PairValue(high, low)) && |Utf8.Encode(PairValue(high, low))| == 4
  {
    PairIsScalar(high, low);
  }

  lemma SingleLength(u: Unit)
    requires !High(u) && !Low(u)
    ensures Utf8.Scalar(u as bv32)
    ensures |Utf8.Encode(u as bv32)| == if u < 0x80 then 1 else if u < 0x800 then 2 else 3
  {
    SingleIsScalar(u);
    SmallValues(u);
  }

  lemma SmallValues(u: Unit)
    ensures u as bv32 < 0x80 <==> u < 0x80
    ensures u as bv32 < 0x800 <==> u < 0x800
  {
  }

  lemma NoBeginning(buffer: seq<Unit>, safe: nat)
    requires Find(buffer, PASTE_END).None? && safe <= |buffer|
    requires forall i | 0 <= i < safe && |buffer| - i < |PASTE_END| :: !(buffer[i..] <= PASTE_END)
    ensures forall i | 0 <= i < safe :: !(buffer[i..] <= PASTE_END)
  {
    forall i | 0 <= i < safe
      ensures !(buffer[i..] <= PASTE_END)
    {
      assert !Occurs(buffer, PASTE_END, i);
    }
  }
}
