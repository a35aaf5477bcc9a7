/** UTF-8 as RFC 3629 defines it, and the three checkers the program carries:
    the server's value-range form, the screen's decoder and the console's
    per-sequence form. */
module Utf8 {
  import opened Prelude

  // ----- The standard: sections 3 and 4 of RFC 3629 -----

  /** UTF8-tail. */
  predicate Tail(b: bv8) { 0x80 <= b <= 0xBF }

  predicate Char2(a: bv8, b: bv8) { 0xC2 <= a <= 0xDF && Tail(b) }

  predicate Char3(a: bv8, b: bv8, c: bv8) {
    && (|| (a == 0xE0 && 0xA0 <= b <= 0xBF)
        || (0xE1 <= a <= 0xEC && Tail(b))
        || (a == 0xED && 0x80 <= b <= 0x9F)
        || (0xEE <= a <= 0xEF && Tail(b)))
    && Tail(c)
  }

  predicate Char4(a: bv8, b: bv8, c: bv8, d: bv8) {
    && (|| (a == 0xF0 && 0x90 <= b <= 0xBF)
        || (0xF1 <= a <= 0xF3 && Tail(b))
        || (a == 0xF4 && 0x80 <= b <= 0x8F))
    && Tail(c) && Tail(d)
  }

  /** Length of the UTF8-char that `s` starts with (section 4), or 0 when it starts
      with none. */
  function CharLength(s: Bytes): (n: nat)
    ensures n <= |s| && n <= 4
  {
    if |s| >= 1 && s[0] <= 0x7F then 1
    else if |s| >= 2 && Char2(s[0], s[1]) then 2
    else if |s| >= 3 && Char3(s[0], s[1], s[2]) then 3
    else if |s| >= 4 && Char4(s[0], s[1], s[2], s[3]) then 4
    else 0
  }

  /** UTF8-octets: a concatenation of UTF8-chars. */
  predicate Valid(s: Bytes)
    decreases |s|
  {
    s == [] || (CharLength(s) > 0 && Valid(s[CharLength(s)..]))
  }

  /** A Unicode scalar value: a code point that is not a surrogate. */
  predicate Scalar(v: bv32) { v <= 0x10FFFF && !(0xD800 <= v <= 0xDFFF) }

  /** `10xxxxxx` with the six bits of `v` from bit `at` up: the octets of section 3. */
  function Octet(v: bv32, at: nat): bv8
    requires at <= 12
  {
    0x80 | (((v >> at) & 0x3F) as bv8)
  }

  function Lead2(v: bv32): bv8
    requires v < 0x800
  {
    0xC0 | ((v >> 6) as bv8)
  }

  function Lead3(v: bv32): bv8
    requires v < 0x10000
  {
    0xE0 | ((v >> 12) as bv8)
  }

  function Lead4(v: bv32): bv8
    requires v <= 0x10FFFF
  {
    0xF0 | ((v >> 18) as bv8)
  }

  /** The octet sequence section 3 assigns to a scalar value. */
  function Encode(v: bv32): (s: Bytes)
    requires Scalar(v)
    ensures 1 <= |s| <= 4
  {
    if v < 0x80 then [v as bv8]
    else if v < 0x800 then [Lead2(v), Octet(v, 0)]
    else if v < 0x10000 then [Lead3(v), Octet(v, 6), Octet(v, 0)]
    else [Lead4(v), Octet(v, 12), Octet(v, 6), Octet(v, 0)]
  }

  function EncodeAll(vs: seq<bv32>): (s: Bytes)
    requires forall v | v in vs :: Scalar(v)
  {
    if vs == [] then [] else Encode(vs[0]) + EncodeAll(vs[1..])
  }

  function Value2(a: bv8, b: bv8): bv32 {
    ((a as bv32 & 0x1F) << 6) | (b as bv32 & 0x3F)
  }

  function Value3(a: bv8, b: bv8, c: bv8): bv32 {
    ((a as bv32 & 0x0F) << 12) | ((b as bv32 & 0x3F) << 6) | (c as bv32 & 0x3F)
  }

  function Value4(a: bv8, b: bv8, c: bv8, d: bv8): bv32 {
    ((a as bv32 & 0x07) << 18) | ((b as bv32 & 0x3F) << 12)
    | ((c as bv32 & 0x3F) << 6) | (d as bv32 & 0x3F)
  }

  /** The value of the UTF8-char that `s` starts with. */
  function Decode(s: Bytes): bv32
    requires CharLength(s) > 0
  {
    if CharLength(s) == 1 then s[0] as bv32
    else if CharLength(s) == 2 then Value2(s[0], s[1])
    else if CharLength(s) == 3 then Value3(s[0], s[1], s[2])
    else Value4(s[0], s[1], s[2], s[3])
  }

  // Bit-level facts: no sequences, so that each is settled by the bits alone.

  lemma Bits2(a: bv8, b: bv8)
    requires Char2(a, b)
    ensures 0x80 <= Value2(a, b) < 0x800
    ensures Lead2(Value2(a, b)) == a && Octet(Value2(a, b), 0) == b
  {
  }

  lemma Bits3(a: bv8, b: bv8, c: bv8)
    requires Char3(a, b, c)
    ensures 0x800 <= Value3(a, b, c) < 0x10000 && Scalar(Value3(a, b, c))
    ensures Lead3(Value3(a, b, c)) == a
    ensures Octet(Value3(a, b, c), 6) == b && Octet(Value3(a, b, c), 0) == c
  {
  }

  lemma Bits4(a: bv8, b: bv8, c: bv8, d: bv8)
    requires Char4(a, b, c, d)
    ensures 0x10000 <= Value4(a, b, c, d) <= 0x10FFFF
    ensures Lead4(Value4(a, b, c, d)) == a && Octet(Value4(a, b, c, d), 12) == b
    ensures Octet(Value4(a, b, c, d), 6) == c && Octet(Value4(a, b, c, d), 0) == d
  {
  }

  lemma Bits1(a: bv8)
    requires a <= 0x7F
    ensures a as bv32 < 0x80 && (a as bv32) as bv8 == a
  {
  }

  lemma ValueBits1(v: bv32)
    requires v < 0x80
    ensures v as bv8 <= 0x7F && (v as bv8) as bv32 == v
  {
  }

  lemma ValueBits2(v: bv32)
    requires 0x80 <= v < 0x800
    ensures Char2(Lead2(v), Octet(v, 0)) && Value2(Lead2(v), Octet(v, 0)) == v
  {
  }

  lemma ValueBits3(v: bv32)
    requires 0x800 <= v < 0x10000 && Scalar(v)
    ensures Char3(Lead3(v), Octet(v, 6), Octet(v, 0))
    ensures Value3(Lead3(v), Octet(v, 6), Octet(v, 0)) == v
  {
  }

  lemma ValueBits4(v: bv32)
    requires 0x10000 <= v && Scalar(v)
    ensures Char4(Lead4(v), Octet(v, 12), Octet(v, 6), Octet(v, 0))
    ensures Value4(Lead4(v), Octet(v, 12), Octet(v, 6), Octet(v, 0)) == v
  {
  }

  /** Decoding gives a scalar value whose encoding is exactly the octets consumed. */
  lemma DecodeThenEncode(s: Bytes)
    requires CharLength(s) > 0
    ensures Scalar(Decode(s))
    ensures Encode(Decode(s)) == s[..CharLength(s)]
  {
    var n := CharLength(s);
    if n == 1 {
      Bits1(s[0]);
    } else if n == 2 {
      Bits2(s[0], s[1]);
    } else if n == 3 {
      Bits3(s[0], s[1], s[2]);
    } else {
      Bits4(s[0], s[1], s[2], s[3]);
    }
  }

  /** Decoding inverts the encoding of every scalar value, whatever follows it. */
  lemma EncodeThenDecode(v: bv32, rest: Bytes)
    requires Scalar(v)
    ensures CharLength(Encode(v) + rest) == |Encode(v)|
    ensures Decode(Encode(v) + rest) == v
  {
    if v < 0x80 {
      ValueBits1(v);
    } else if v < 0x800 {
      ValueBits2(v);
    } else if v < 0x10000 {
      ValueBits3(v);
    } else {
      ValueBits4(v);
    }
  }

  /** Valid byte strings are exactly the encodings of scalar-value sequences. */
  lemma {:induction false} ValidIffEncoded(s: Bytes)
    ensures Valid(s) <==> exists vs: seq<bv32> :: (forall v | v in vs :: Scalar(v)) && EncodeAll(vs) == s
  {
    if Valid(s) {
      var _ := DecodeAll(s);
    }
    if vs: seq<bv32> :| (forall v | v in vs :: Scalar(v)) && EncodeAll(vs) == s {
      EncodeAllValid(vs);
    }
  }

  lemma {:induction false} DecodeAll(s: Bytes) returns (vs: seq<bv32>)
    requires Valid(s)
    ensures (forall v | v in vs :: Scalar(v)) && EncodeAll(vs) == s
    decreases |s|
  {
    if s == [] {
      vs := [];
    } else {
      var n := CharLength(s);
      DecodeThenEncode(s);
      var rest := DecodeAll(s[n..]);
      vs := [Decode(s)] + rest;
      assert vs[1..] == rest;
      assert s == s[..n] + s[n..];
    }
  }

  lemma {:induction false} EncodeAllValid(vs: seq<bv32>)
    requires forall v | v in vs :: Scalar(v)
    ensures Valid(EncodeAll(vs))
  {
    if vs != [] {
      EncodeAllValid(vs[1..]);
      EncodeThenDecode(vs[0], EncodeAll(vs[1..]));
      var s := EncodeAll(vs);
      assert s[|Encode(vs[0])|..] == EncodeAll(vs[1..]);
    }
  }

  /** A UTF8-char is recognised by its own octets alone. */
  lemma CharLengthPrefix(s: Bytes, t: Bytes)
    requires CharLength(s) > 0
    ensures CharLength(s + t) == CharLength(s)
    ensures Decode(s + t) == Decode(s)
  {
    var u := s + t;
    assert forall i | 0 <= i < |s| :: u[i] == s[i];
  }

  /** After a valid prefix, validity is the validity of what remains. */
  lemma {:induction false} ValidConcat(s: Bytes, t: Bytes)
    requires Valid(s)
    ensures Valid(s + t) <==> Valid(t)
    decreases |s|
  {
    hide CharLength, Decode;
    if s == [] {
      assert s + t == t;
    } else {
      CharLengthPrefix(s, t);
      var n := CharLength(s);
      ValidConcat(s[n..], t);
      assert (s + t)[n..] == s[n..] + t;
    }
  }

  // ----- The server's checker: value ranges -----

  /** `value = (value << 6) | (next & 0x3f)`. */
  function Gather(value: bv32, next: bv8): bv32 { (value << 6) | (next as bv32 & 0x3F) }

  /** The value the server accumulates from a lead byte's payload and `k` tails. */
  function Gathered(seed: bv32, text: Bytes, at: nat, k: nat): bv32
    requires at + k < |text|
    decreases k
  {
    if k == 0 then seed
    else Gather(Gathered(seed, text, at, k - 1), text[at + k])
  }

  lemma Gathered1(text: Bytes, at: nat)
    requires at + 1 < |text|
    ensures Gathered(Payload(text[at], 1), text, at, 1) == Value2(text[at], text[at + 1])
  {
  }

  lemma Gathered2(text: Bytes, at: nat)
    requires at + 2 < |text|
    ensures Gathered(Payload(text[at], 2), text, at, 2) == Value3(text[at], text[at + 1], text[at + 2])
  {
    Shift3(text[at], text[at + 1], text[at + 2]);
  }

  lemma Gathered3(text: Bytes, at: nat)
    requires at + 3 < |text|
    ensures Gathered(Payload(text[at], 3), text, at, 3)
         == Value4(text[at], text[at + 1], text[at + 2], text[at + 3])
  {
    Shift4(text[at], text[at + 1], text[at + 2], text[at + 3]);
    var one := Gathered(Payload(text[at], 3), text, at, 1);
    assert Gathered(Payload(text[at], 3), text, at, 2) == Gather(one, text[at + 2]);
  }

  lemma Shift3(a: bv8, b: bv8, c: bv8)
    ensures Gather(Gather(a as bv32 & 0x0F, b), c) == Value3(a, b, c)
  {
  }

  lemma Shift4(a: bv8, b: bv8, c: bv8, d: bv8)
    ensures Gather(Gather(Gather(a as bv32 & 0x07, b), c), d) == Value4(a, b, c, d)
  {
  }

  /** The server's range tests on a three-octet value say what the ABNF says of the octets. */
  lemma RangeIffChar3(a: bv8, b: bv8, c: bv8)
    requires 0xE0 <= a <= 0xEF && Tail(b) && Tail(c)
    ensures Char3(a, b, c) <==> 0x800 <= Value3(a, b, c) && Scalar(Value3(a, b, c))
  {
  }

  lemma RangeIffChar4(a: bv8, b: bv8, c: bv8, d: bv8)
    requires 0xF0 <= a <= 0xF4 && Tail(b) && Tail(c) && Tail(d)
    ensures Char4(a, b, c, d) <==> 0x10000 <= Value4(a, b, c, d) && Scalar(Value4(a, b, c, d))
  {
  }

  lemma TailIsMask(b: bv8)
    ensures Tail(b) <==> b & 0xC0 == 0x80
  {
  }

  /** What the server decides about the sequence at `at`, once its tails are read. */
  lemma ServerSequence(text: Bytes, at: nat, k: nat, value: bv32)
    requires 1 <= k <= 3 && at + k < |text|
    requires forall i | at < i <= at + k :: Tail(text[i])
    requires k == 1 ==> 0xC2 <= text[at] <= 0xDF && value == Value2(text[at], text[at + 1])
    requires k == 2 ==> 0xE0 <= text[at] <= 0xEF && value == Value3(text[at], text[at + 1], text[at + 2])
    requires k == 3 ==> 0xF0 <= text[at] <= 0xF4
                        && value == Value4(text[at], text[at + 1], text[at + 2], text[at + 3])
    ensures var bad := (k == 2 && value < 0x800) || (k == 3 && value < 0x10000)
                       || value > 0x10FFFF || 0xD800 <= value <= 0xDFFF;
      CharLength(text[at..]) == if bad then 0 else k + 1
  {
    var s := text[at..];
    assert s[0] == text[at] && s[1] == text[at + 1];
    if k == 1 {
      assert Char2(s[0], s[1]);
      Bits2(s[0], s[1]);
    } else if k == 2 {
      assert s[2] == text[at + 2] && Tail(text[at + 1]) && Tail(text[at + 2]);
      RangeIffChar3(s[0], s[1], s[2]);
      assert Value3(s[0], s[1], s[2]) < 0x10000;
    } else {
      assert s[2] == text[at + 2] && s[3] == text[at + 3];
      assert Tail(text[at + 1]) && Tail(text[at + 2]) && Tail(text[at + 3]);
      RangeIffChar4(s[0], s[1], s[2], s[3]);
    }
  }

  /** The lead byte announces `k` continuation bytes. */
  predicate Announces(first: bv8, k: nat) {
    match k
    case 1 => 0xC2 <= first <= 0xDF
    case 2 => 0xE0 <= first <= 0xEF
    case 3 => 0xF0 <= first <= 0xF4
    case _ => false
  }

  /** The bits of the value that the lead byte holds. */
  function Payload(first: bv8, k: nat): bv32 {
    first as bv32 & (if k == 1 then 0x1F else if k == 2 then 0x0F else 0x07)
  }

  lemma GatheredSequence(text: Bytes, at: nat, k: nat)
    requires 1 <= k <= 3 && at + k < |text| && Announces(text[at], k)
    requires forall i | at < i <= at + k :: Tail(text[i])
    ensures var value := Gathered(Payload(text[at], k), text, at, k);
      var bad := (k == 2 && value < 0x800) || (k == 3 && value < 0x10000) || value > 0x10FFFF || 0xD800 <= value <= 0xDFFF;
      CharLength(text[at..]) == if bad then 0 else k + 1
  {
    hide Gathered, CharLength, Value2, Value3, Value4, Tail, Payload;
    if k == 1 {
      Gathered1(text, at);
    } else if k == 2 {
      Gathered2(text, at);
    } else {
      Gathered3(text, at);
    }
    ServerSequence(text, at, k, Gathered(Payload(text[at], k), text, at, k));
  }

  lemma BrokenSequence(text: Bytes, at: nat, k: nat, i: nat)
    requires at < i <= at + k < |text| && Announces(text[at], k) && !Tail(text[i])
    ensures CharLength(text[at..]) == 0
  {
    assert text[at..][i - at] == text[i] && text[at..][0] == text[at];
  }

  lemma CutSequence(text: Bytes, at: nat, k: nat)
    requires at < |text| <= at + k && Announces(text[at], k)
    ensures CharLength(text[at..]) == 0
  {
  }

  /** Continuation bytes up to the first that is none. */
  method ReadContinuation(text: Bytes, index: nat, continuationCount: nat, payload: bv32) returns (complete: bool, value: bv32)
    requires continuationCount <= 3 && index + continuationCount < |text|
    ensures complete ==> forall i | index < i <= index + continuationCount :: Tail(text[i])
    ensures complete ==> value == Gathered(payload, text, index, continuationCount)
    ensures !complete ==> exists i :: index < i <= index + continuationCount && !Tail(text[i])
  {
    hide Tail, Gather;
    value := payload;
    for offset := 1 to continuationCount + 1
      invariant value == Gathered(payload, text, index, offset - 1)
      invariant forall i | index < i < index + offset :: Tail(text[i])
    {
      var next := text[index + offset];
      TailIsMask(next);
      if next & 0xC0 != 0x80 {
        return false, value;
      }
      value := Gather(value, next);
    }
    return true, value;
  }

  lemma NoSequence(text: Bytes, at: nat)
    requires at < |text| && text[at] > 0x7F && !Announces(text[at], 1) && !Announces(text[at], 2) && !Announces(text[at], 3)
    ensures CharLength(text[at..]) == 0
  {
  }

  lemma SingleByte(text: Bytes, at: nat)
    requires at < |text| && text[at] <= 0x7F
    ensures CharLength(text[at..]) == 1
  {
  }

  method IsValidUtf8(text: Bytes) returns (valid: bool)
    ensures valid == Valid(text)
  {
    hide CharLength, Gathered, Tail;
    var index := 0;
    while index < |text|
      invariant 0 <= index <= |text|
      invariant Valid(text) == Valid(text[index..])
    {
      var first := text[index];
      var continuationCount := 0;
      var value: bv32 := 0;
      if first <= 0x7F {
        SingleByte(text, index);
        assert text[index..][1..] == text[index + 1..];
        index := index + 1;
        continue;
      }
      if 0xC2 <= first <= 0xDF {
        continuationCount := 1;
        value := first as bv32 & 0x1F;
      } else if 0xE0 <= first <= 0xEF {
        continuationCount := 2;
        value := first as bv32 & 0x0F;
      } else if 0xF0 <= first <= 0xF4 {
        continuationCount := 3;
        value := first as bv32 & 0x07;
      } else {
        NoSequence(text, index);
        return false;
      }
      if index + continuationCount >= |text| {
        CutSequence(text, index, continuationCount);
        return false;
      }
      assert Announces(first, continuationCount) && value == Payload(first, continuationCount);
      hide Announces, Payload;
      var complete;
      complete, value := ReadContinuation(text, index, continuationCount, value);
      if !complete {
        var i :| index < i <= index + continuationCount && !Tail(text[i]);
        BrokenSequence(text, index, continuationCount, i);
        return false;
      }
      GatheredSequence(text, index, continuationCount);
      if (continuationCount == 2 && value < 0x800) ||
         (continuationCount == 3 && value < 0x10000) ||
         value > 0x10FFFF || 0xD800 <= value <= 0xDFFF
      {
        assert CharLength(text[index..]) == 0;
        return false;
      }
      assert CharLength(text[index..]) == continuationCount + 1;
      assert text[index..][continuationCount + 1..] == text[index + continuationCount + 1..];
      index := index + continuationCount + 1;
    }
    return true;
  }

  // ----- The screen's decoder: second-byte tests -----

  /** Second-octet restrictions as the screen and the console write them. */
  predicate SecondRejected(first: bv8, second: bv8) {
    || (first == 0xE0 && second < 0xA0)
    || (first == 0xED && second >= 0xA0)
    || (first == 0xF0 && second < 0x90)
    || (first == 0xF4 && second >= 0x90)
  }

  /** Length a lead byte announces, 0 for a byte that cannot lead (`utf8Length`). */
  function Utf8Length(first: bv8): (n: nat)
    ensures n <= 4
  {
    if first < 0x80 then 1
    else if 0xC2 <= first <= 0xDF then 2
    else if 0xE0 <= first <= 0xEF then 3
    else if 0xF0 <= first <= 0xF4 then 4
    else 0
  }

  /** The announced length, its tails and the second-octet test together are the ABNF. */
  lemma LeadTailsSecond(s: Bytes)
    requires s != []
    ensures CharLength(s) > 0 <==>
      && Utf8Length(s[0]) > 0
      && Utf8Length(s[0]) <= |s|
      && (forall i | 1 <= i < Utf8Length(s[0]) :: Tail(s[i]))
      && (Utf8Length(s[0]) > 1 ==> !SecondRejected(s[0], s[1]))
    ensures CharLength(s) > 0 ==> CharLength(s) == Utf8Length(s[0])
  {
    var n := Utf8Length(s[0]);
    if n > 0 && n <= |s| && forall i | 1 <= i < n :: Tail(s[i]) {
      assert n >= 2 ==> Tail(s[1]);
      assert n >= 3 ==> Tail(s[2]);
      assert n >= 4 ==> Tail(s[3]);
    }
  }

  method DecodeCodePoint(text: Bytes, offset: nat) returns (ok: bool, codePoint: bv32, length: nat)
    requires offset < |text|
    ensures ok == (CharLength(text[offset..]) > 0)
    ensures ok ==> length == CharLength(text[offset..]) && codePoint == Decode(text[offset..])
  {
    codePoint, length := 0, 0;
    var first := text[offset];
    ghost var s := text[offset..];
    if first < 0x80 {
      return true, first as bv32, 1;
    }
    LeadTailsSecond(s);
    if 0xC2 <= first <= 0xDF {
      length := 2;
    } else if 0xE0 <= first <= 0xEF {
      length := 3;
    } else if 0xF0 <= first <= 0xF4 {
      length := 4;
    } else {
      return false, 0, 0;
    }
    if offset + length > |text| {
      return false, 0, 0;
    }
    for index := 1 to length
      invariant forall i | 1 <= i < index :: Tail(s[i])
    {
      TailIsMask(text[offset + index]);
      assert s[index] == text[offset + index];
      if text[offset + index] & 0xC0 != 0x80 {
        return false, 0, 0;
      }
    }
    var second := text[offset + 1];
    assert second == s[1];
    if SecondRejected(first, second) {
      return false, 0, 0;
    }
    if length == 2 {
      codePoint := Value2(first, second);
    } else if length == 3 {
      codePoint := Value3(first, second, text[offset + 2]);
    } else {
      codePoint := Value4(first, second, text[offset + 2], text[offset + 3]);
    }
    ok := true;
  }

  method ValidUtf8(text: Bytes) returns (valid: bool)
    ensures valid == Valid(text)
  {
    hide CharLength, Decode;
    var offset := 0;
    while offset < |text|
      invariant 0 <= offset <= |text|
      invariant Valid(text) == Valid(text[offset..])
    {
      var ok, _, length := DecodeCodePoint(text, offset);
      if !ok {
        return false;
      }
      assert text[offset..][length..] == text[offset + length..];
      offset := offset + length;
    }
    return true;
  }

  // ----- The console's checker: one sequence at the front of the input -----

  method ValidUtf8Sequence(text: Bytes, length: nat) returns (valid: bool)
    requires text != [] && length == Utf8Length(text[0]) && length > 0
    ensures valid == (CharLength(text) > 0)
    ensures valid ==> length == CharLength(text)
  {
    LeadTailsSecond(text);
    if |text| < length {
      return false;
    }
    for index := 1 to length
      invariant forall i | 1 <= i < index :: Tail(text[i])
    {
      TailIsMask(text[index]);
      if text[index] & 0xC0 != 0x80 {
        return false;
      }
    }
    if length > 1 && SecondRejected(text[0], text[1]) {
      return false;
    }
    return true;
  }
}
