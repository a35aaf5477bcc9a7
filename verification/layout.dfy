/** Text as the terminal shows it (clientf/terminal_screen.cpp): unsafe code points and broken
    bytes are escaped, then text is measured, clipped and wrapped by whole units. `W` stands
    for the platform's code-point width, whatever it is. */
module Layout {
  import opened Prelude
  import opened Utf8

  type Widths = bv32 -> int

  /** A `std::size_t`. */
  type Size = n: nat | n < TWO_64

  datatype DisplayUnit = DisplayUnit(bytes: Bytes, width: nat)

  function Digit(n: bv8): bv8 { if n < 10 then 0x30 + n else 0x37 + n }

  /** `\xHH` */
  function HexByte(b: bv8): Bytes {
    [0x5C, 0x78, Digit(b >> 4), Digit(b & 0x0F)]
  }

  lemma ShiftShrinks(v: bv32)
    ensures v >> 4 < v || v >> 4 == 0
  {
  }

  /** Hexadecimal digits, most significant first. */
  function HexDigits(v: bv32): Bytes
    decreases v
  {
    ShiftShrinks(v);
    (if v >> 4 == 0 then [] else HexDigits(v >> 4)) + [Digit((v & 0x0F) as bv8)]
  }

  /** `\u{H...}` */
  function HexCodePoint(v: bv32): Bytes {
    [0x5C, 0x75, 0x7B] + HexDigits(v) + [0x7D]
  }

  /** Control characters, bidirectional overrides and invisible characters. */
  predicate Unsafe(v: bv32) {
    || v < 0x20 || 0x7F <= v <= 0x9F
    || 0x202A <= v <= 0x202E || 0x2066 <= v <= 0x2069
    || 0x200B <= v <= 0x200D || v == 0x2060 || v == 0xFEFF
  }

  lemma SmallByte(v: bv32)
    ensures v <= 0xFF ==> v < 0x100
  {
  }

  function Escaped(v: bv32): Bytes {
    SmallByte(v);
    if v <= 0xFF then HexByte(v as bv8) else HexCodePoint(v)
  }

  /** How a well-formed character is shown. */
  function CharacterUnit(character: Bytes, v: bv32, w: Widths): DisplayUnit {
    if Unsafe(v) then DisplayUnit(Escaped(v), |Escaped(v)|)
    else if v < 0x7F then DisplayUnit(character, 1)
    else if w(v) <= 0 then DisplayUnit(HexCodePoint(v), |HexCodePoint(v)|)
    else DisplayUnit(character, w(v))
  }

  /** The unit at the front of the text, and how many bytes it stands for. */
  function FrontUnit(text: Bytes, w: Widths): (r: (DisplayUnit, nat))
    requires text != []
    ensures 1 <= r.1 <= |text|
  {
    var n := CharLength(text);
    if n == 0 then (DisplayUnit(HexByte(text[0]), 4), 1)
    else (CharacterUnit(text[..n], Decode(text), w), n)
  }

  function Units(text: Bytes, w: Widths): seq<DisplayUnit>
    decreases |text|
  {
    if text == [] then []
    else
      var (unit, n) := FrontUnit(text, w);
      [unit] + Units(text[n..], w)
  }

  function Joined(units: seq<DisplayUnit>): Bytes {
    if units == [] then [] else units[0].bytes + Joined(units[1..])
  }

  function TotalWidth(units: seq<DisplayUnit>): nat {
    if units == [] then 0 else units[0].width + TotalWidth(units[1..])
  }

  function SafeText(text: Bytes, w: Widths): Bytes { Joined(Units(text, w)) }

  function DisplayWidth(text: Bytes, w: Widths): nat { TotalWidth(Units(text, w)) }

  // ----- Escaping is done once -----

  predicate Printable(b: bv8) { 0x20 <= b <= 0x7E }

  lemma PrintableByte(b: bv8)
    requires Printable(b)
    ensures b <= 0x7F && !Unsafe(b as bv32) && b as bv32 < 0x7F
  {
  }

  lemma DigitPrintable(n: bv8)
    requires n < 16
    ensures Printable(Digit(n))
  {
  }

  lemma NibbleBits(b: bv8)
    ensures b >> 4 < 16 && b & 0x0F < 16
  {
  }

  lemma LowNibble(v: bv32)
    ensures v & 0x0F < 16 && (v & 0x0F) as bv8 < 16
  {
  }

  predicate AllPrintable(s: Bytes) {
    forall i | 0 <= i < |s| :: Printable(s[i])
  }

  lemma HexBytePrintable(b: bv8)
    ensures AllPrintable(HexByte(b)) && |HexByte(b)| == 4
  {
    NibbleBits(b);
    DigitPrintable(b >> 4);
    DigitPrintable(b & 0x0F);
    hide Digit;
  }

  lemma {:induction false} HexDigitsPrintable(v: bv32)
    ensures AllPrintable(HexDigits(v)) && |HexDigits(v)| >= 1
    decreases v
  {
    ShiftShrinks(v);
    LowNibble(v);
    DigitPrintable((v & 0x0F) as bv8);
    hide Digit, Printable;
    if v >> 4 != 0 {
      HexDigitsPrintable(v >> 4);
    }
  }

  lemma EscapesPrintable(v: bv32)
    ensures AllPrintable(HexCodePoint(v)) && |HexCodePoint(v)| > 0
    ensures AllPrintable(Escaped(v)) && |Escaped(v)| > 0
  {
    HexDigitsPrintable(v);
    SmallByte(v);
    hide HexDigits, HexByte;
    if v <= 0xFF {
      HexBytePrintable(v as bv8);
    }
  }

  /** A printable byte is its own unit. */
  lemma PrintableFront(s: Bytes, w: Widths)
    requires s != [] && Printable(s[0])
    ensures FrontUnit(s, w) == (DisplayUnit([s[0]], 1), 1)
  {
    PrintableByte(s[0]);
    assert CharLength(s) == 1;
    hide Unsafe, Escaped, HexCodePoint, HexByte;
    assert s[..1] == [s[0]];
  }

  /** A run of printable bytes is shown as it is, one column each. */
  lemma {:induction false} PrintableRun(s: Bytes, rest: Bytes, w: Widths)
    requires AllPrintable(s)
    ensures SafeText(s + rest, w) == s + SafeText(rest, w)
    ensures DisplayWidth(s + rest, w) == |s| + DisplayWidth(rest, w)
    decreases |s|
  {
    hide FrontUnit, Printable, Joined, TotalWidth, Units;
    if s == [] {
      assert s + rest == rest;
      assert [] + SafeText(rest, w) == SafeText(rest, w);
    } else {
      var all := s + rest;
      PrintableFront(all, w);
      assert all[1..] == s[1..] + rest;
      PrintableRun(s[1..], rest, w);
      FrontThenRest(all, w);
      assert [s[0]] + (s[1..] + SafeText(rest, w)) == s + SafeText(rest, w);
    }
  }

  lemma FrontThenRest(text: Bytes, w: Widths)
    requires text != []
    ensures var (unit, n) := FrontUnit(text, w);
      && SafeText(text, w) == unit.bytes + SafeText(text[n..], w)
      && DisplayWidth(text, w) == unit.width + DisplayWidth(text[n..], w)
  {
    hide FrontUnit;
    var (unit, n) := FrontUnit(text, w);
    assert Units(text, w)[1..] == Units(text[n..], w);
  }

  /** Whatever follows it, the text of a unit is shown as it is, in the same width. */
  lemma UnitIsStable(text: Bytes, rest: Bytes, w: Widths)
    requires text != []
    ensures var u := FrontUnit(text, w).0;
      && SafeText(u.bytes + rest, w) == u.bytes + SafeText(rest, w)
      && DisplayWidth(u.bytes + rest, w) == u.width + DisplayWidth(rest, w)
  {
    var u := FrontUnit(text, w).0;
    var n := CharLength(text);
    if n > 0 && u.bytes == text[..n] && !Unsafe(Decode(text)) && (Decode(text) < 0x7F || w(Decode(text)) > 0) {
      CharacterIsStable(text, rest, w);
    } else {
      EscapeIsPrintable(text, w);
      hide FrontUnit;
      PrintableRun(u.bytes, rest, w);
    }
  }

  lemma EscapeIsPrintable(text: Bytes, w: Widths)
    requires text != []
    requires CharLength(text) == 0 || Unsafe(Decode(text)) || (Decode(text) >= 0x7F && w(Decode(text)) <= 0)
    ensures var u := FrontUnit(text, w).0; AllPrintable(u.bytes) && u.width == |u.bytes|
  {
    hide AllPrintable, HexByte, HexCodePoint, Escaped, Unsafe, Decode;
    if CharLength(text) == 0 {
      HexBytePrintable(text[0]);
    } else {
      EscapesPrintable(Decode(text));
    }
  }

  lemma CharacterIsStable(text: Bytes, rest: Bytes, w: Widths)
    requires CharLength(text) > 0
    requires !Unsafe(Decode(text)) && (Decode(text) < 0x7F || w(Decode(text)) > 0)
    ensures var u := FrontUnit(text, w).0;
      && SafeText(u.bytes + rest, w) == u.bytes + SafeText(rest, w)
      && DisplayWidth(u.bytes + rest, w) == u.width + DisplayWidth(rest, w)
  {
    var n := CharLength(text);
    var c := text[..n];
    var all := c + rest;
    assert c + text[n..] == text;
    OneCharacterLength(text);
    CharLengthPrefix(c, text[n..]);
    CharLengthPrefix(c, rest);
    hide Unsafe, Decode, CharLength, HexByte, HexCodePoint, Escaped;
    assert all[..n] == c && all[n..] == rest;
    FrontThenRest(all, w);
  }

  lemma OneCharacterLength(text: Bytes)
    requires CharLength(text) > 0
    ensures CharLength(text[..CharLength(text)]) == CharLength(text)
  {
    var n := CharLength(text);
    assert forall i | 0 <= i < n :: text[..n][i] == text[i];
  }

  /** Safe text is shown as it is: escaping twice changes nothing, and the width is kept. */
  lemma {:induction false} SafeTextIsSafe(text: Bytes, w: Widths)
    ensures SafeText(SafeText(text, w), w) == SafeText(text, w)
    ensures DisplayWidth(SafeText(text, w), w) == DisplayWidth(text, w)
    decreases |text|
  {
    hide FrontUnit, Joined, TotalWidth;
    if text == [] {
      assert SafeText([], w) == [] by { EmptyText(w); }
    } else {
      var (unit, n) := FrontUnit(text, w);
      SafeTextIsSafe(text[n..], w);
      FrontThenRest(text, w);
      UnitIsStable(text, SafeText(text[n..], w), w);
    }
  }

  lemma EmptyText(w: Widths)
    ensures SafeText([], w) == [] && DisplayWidth([], w) == 0
  {
  }

  /** Safe text never holds a raw control byte, whatever was received. */
  lemma {:induction false} SafeTextHasNoControls(text: Bytes, w: Widths)
    ensures forall b | b in SafeText(text, w) :: b >= 0x20 && b != 0x7F
    decreases |text|
  {
    hide FrontUnit, Joined, TotalWidth, Units;
    if text == [] {
      EmptyText(w);
    } else {
      var (unit, n) := FrontUnit(text, w);
      SafeTextHasNoControls(text[n..], w);
      FrontThenRest(text, w);
      UnitHasNoControls(text, w);
    }
  }

  lemma UnitHasNoControls(text: Bytes, w: Widths)
    requires text != []
    ensures forall b | b in FrontUnit(text, w).0.bytes :: b >= 0x20 && b != 0x7F
  {
    if CharLength(text) == 0 || Unsafe(Decode(text)) || (Decode(text) >= 0x7F && w(Decode(text)) <= 0) {
      EscapeIsPrintable(text, w);
      hide FrontUnit;
    } else {
      LeadByteIsSafe(text);
    }
  }

  lemma LeadByteIsSafe(text: Bytes)
    requires CharLength(text) > 0 && !Unsafe(Decode(text))
    ensures forall b | b in text[..CharLength(text)] :: b >= 0x20 && b != 0x7F
  {
    LeadTailsSecond(text);
    if CharLength(text) == 1 {
      assert text[..1] == [text[0]];
      OneByte(text[0]);
    }
  }

  lemma OneByte(b: bv8)
    ensures !Unsafe(b as bv32) && b <= 0x7F ==> b >= 0x20 && b != 0x7F
  {
  }

  // ----- Clipping -----

  /** How many units from the front fit into `width` columns. */
  function FitCount(units: seq<DisplayUnit>, width: nat): (k: nat)
    ensures k <= |units|
  {
    if units == [] || units[0].width > width then 0
    else 1 + FitCount(units[1..], width - units[0].width)
  }

  lemma {:induction false} WidthOfPrefix(units: seq<DisplayUnit>, k: nat)
    requires k < |units|
    ensures TotalWidth(units[..k + 1]) == TotalWidth(units[..k]) + units[k].width
    ensures Joined(units[..k + 1]) == Joined(units[..k]) + units[k].bytes
  {
    if k == 0 {
      assert units[..1] == [units[0]] && units[..0] == [];
      assert units[..1][1..] == [];
    } else {
      assert units[..k + 1][1..] == units[1..][..k] && units[..k][1..] == units[1..][..k - 1];
      WidthOfPrefix(units[1..], k - 1);
      assert units[0].bytes + (Joined(units[1..][..k - 1]) + units[k].bytes)
          == units[0].bytes + Joined(units[1..][..k - 1]) + units[k].bytes;
    }
  }

  /** The units that fit are the longest beginning within the width. */
  lemma {:induction false} FitCountIsLongest(units: seq<DisplayUnit>, width: nat)
    ensures var k := FitCount(units, width);
      && TotalWidth(units[..k]) <= width
      && (k < |units| ==> TotalWidth(units[..k + 1]) > width)
  {
    var k := FitCount(units, width);
    if units != [] && units[0].width <= width {
      FitCountIsLongest(units[1..], width - units[0].width);
      assert units[..k][1..] == units[1..][..k - 1];
      if k < |units| {
        assert units[..k + 1][1..] == units[1..][..k];
      }
    } else if units != [] {
      assert units[..1][1..] == [];
    }
  }

  lemma {:induction false} PrefixNarrower(units: seq<DisplayUnit>, j: nat, k: nat)
    requires j <= k <= |units|
    ensures TotalWidth(units[..j]) <= TotalWidth(units[..k])
    decreases k - j
  {
    if j < k {
      PrefixNarrower(units, j, k - 1);
      WidthOfPrefix(units, k - 1);
    }
  }

  method ClipToWidth(text: Bytes, width: Size, w: Widths) returns (result: Bytes, ghost shown: nat)
    ensures var units := Units(text, w);
      && shown <= |units| && result == Joined(units[..shown])
      && TotalWidth(units[..shown]) <= width
      && forall j | shown < j <= |units| :: TotalWidth(units[..j]) > width
    ensures result <= SafeText(text, w)
  {
    hide Units, Joined, TotalWidth, Minus64;
    var units := BuildUnits(text, w);
    result := [];
    var used: nat := 0;
    NothingYet(units);
    var i := 0;
    while i < |units| && units[i].width <= Minus64(width, used)
      invariant i <= |units| && result == Joined(units[..i]) && used == TotalWidth(units[..i]) <= width
    {
      WidthOfPrefix(units, i);
      NoWrap64(width, used);
      result := result + units[i].bytes;
      used := used + units[i].width;
      i := i + 1;
    }
    shown := i;
    ghost var all := units;
    NoWrap64(width, used);
    if i < |units| {
      WidthOfPrefix(units, i);
    }
    forall j | shown < j <= |all|
      ensures TotalWidth(all[..j]) > width
    {
      PrefixNarrower(all, shown + 1, j);
    }
    JoinedSplit(all, shown);
  }

  lemma NothingYet(units: seq<DisplayUnit>)
    ensures Joined(units[..0]) == [] && TotalWidth(units[..0]) == 0
  {
    assert units[..0] == [];
  }

  lemma {:induction false} JoinedSplit(units: seq<DisplayUnit>, k: nat)
    requires k <= |units|
    ensures Joined(units) == Joined(units[..k]) + Joined(units[k..])
  {
    if k == 0 {
      assert units[..0] == [] && units[0..] == units;
      assert [] + Joined(units) == Joined(units);
    } else {
      JoinedSplit(units[1..], k - 1);
      assert units[..k][1..] == units[1..][..k - 1] && units[1..][k - 1..] == units[k..];
      assert units[0].bytes + (Joined(units[..k][1..]) + Joined(units[k..]))
          == units[0].bytes + Joined(units[..k][1..]) + Joined(units[k..]);
    }
  }

  lemma {:induction false} UnitsAppend(a: seq<DisplayUnit>, b: seq<DisplayUnit>)
    ensures Joined(a + b) == Joined(a) + Joined(b)
    ensures TotalWidth(a + b) == TotalWidth(a) + TotalWidth(b)
  {
    if a == [] {
      assert a + b == b && [] + Joined(b) == Joined(b);
    } else {
      assert (a + b)[1..] == a[1..] + b;
      UnitsAppend(a[1..], b);
      assert a[0].bytes + (Joined(a[1..]) + Joined(b)) == a[0].bytes + Joined(a[1..]) + Joined(b);
    }
  }

  method BuildUnits(text: Bytes, w: Widths) returns (units: seq<DisplayUnit>)
    ensures units == Units(text, w)
  {
    hide FrontUnit;
    units := [];
    var offset := 0;
    while offset < |text|
      invariant offset <= |text| && Units(text, w) == units + Units(text[offset..], w)
    {
      var unit, length := UnitAt(text, offset, w);
      assert text[offset..][length..] == text[offset + length..];
      units := units + [unit];
      offset := offset + length;
    }
  }

  lemma CutFront(text: Bytes, offset: nat, n: nat)
    requires offset + n <= |text|
    ensures text[offset..][..n] == text[offset..offset + n]
  {
  }

  /** The unit at an offset, as the loop over the text finds it. */
  method UnitAt(text: Bytes, offset: nat, w: Widths) returns (unit: DisplayUnit, length: nat)
    requires offset < |text|
    ensures (unit, length) == FrontUnit(text[offset..], w)
  {
    hide HexByte, Decode, CharLength, CharacterUnit;
    var decoded, codePoint, n := DecodeCodePoint(text, offset);
    assert text[offset..][0] == text[offset];
    if !decoded {
      return DisplayUnit(HexByte(text[offset]), 4), 1;
    }
    CutFront(text, offset, n);
    unit := UnitOf(text[offset..offset + n], codePoint, w);
    length := n;
  }

  method UnitOf(character: Bytes, codePoint: bv32, w: Widths) returns (unit: DisplayUnit)
    ensures unit == CharacterUnit(character, codePoint, w)
  {
    hide Unsafe, HexCodePoint, Escaped;
    if Unsafe(codePoint) {
      var escaped := Escaped(codePoint);
      return DisplayUnit(escaped, |escaped|);
    }
    if codePoint < 0x7F {
      return DisplayUnit(character, 1);
    }
    var width := w(codePoint);
    if width <= 0 {
      var escaped := HexCodePoint(codePoint);
      return DisplayUnit(escaped, |escaped|);
    }
    return DisplayUnit(character, width);
  }

  // ----- Wrapping -----

  /** The rows of the units that follow a row already `used` columns wide: each unit goes on
      the current row unless that row is not empty and the unit does not fit. */
  function Wrap(units: seq<DisplayUnit>, row: seq<DisplayUnit>, used: nat, width: nat): (rows: seq<seq<DisplayUnit>>)
    ensures |rows| >= 1
  {
    if units == [] then [row]
    else if used != 0 && units[0].width > Minus64(width, used) then [row] + Wrap(units[1..], [units[0]], units[0].width, width)
    else Wrap(units[1..], row + [units[0]], used + units[0].width, width)
  }

  function Flatten(rows: seq<seq<DisplayUnit>>): seq<DisplayUnit> {
    if rows == [] then [] else rows[0] + Flatten(rows[1..])
  }

  /** Wrapping only cuts: the rows put together are the units, whatever the width. */
  lemma {:induction false} WrapCutsOnly(units: seq<DisplayUnit>, row: seq<DisplayUnit>, used: nat, width: nat)
    ensures Flatten(Wrap(units, row, used, width)) == row + units
    decreases |units|
  {
    if units == [] {
      assert [row][1..] == [] && row + [] == row;
    } else if used != 0 && units[0].width > Minus64(width, used) {
      WrapCutsOnly(units[1..], [units[0]], units[0].width, width);
      var rest := Wrap(units[1..], [units[0]], units[0].width, width);
      assert ([row] + rest)[1..] == rest;
      assert [units[0]] + units[1..] == units;
    } else {
      WrapCutsOnly(units[1..], row + [units[0]], used + units[0].width, width);
      assert row + [units[0]] + units[1..] == row + units;
    }
  }

  predicate RowsFit(rows: seq<seq<DisplayUnit>>, width: nat) {
    forall i | 0 <= i < |rows| :: TotalWidth(rows[i]) <= width
  }

  predicate UnitsFit(units: seq<DisplayUnit>, width: nat) {
    forall i | 0 <= i < |units| :: units[i].width <= width
  }

  lemma TotalWidthOne(u: DisplayUnit)
    ensures TotalWidth([u]) == u.width
  {
    assert [u][1..] == [];
  }

  lemma {:induction false} NarrowUnitsWrap(units: seq<DisplayUnit>, row: seq<DisplayUnit>, used: nat, width: Size)
    requires UnitsFit(units, width) && used == TotalWidth(row) <= width
    ensures RowsFit(Wrap(units, row, used, width), width)
    decreases |units|
  {
    hide Minus64;
    if units != [] {
      NoWrap64(width, used);
      TotalWidthOne(units[0]);
      UnitsAppend(row, [units[0]]);
      assert UnitsFit(units[1..], width);
      if used != 0 && units[0].width > Minus64(width, used) {
        NarrowUnitsWrap(units[1..], [units[0]], units[0].width, width);
      } else {
        NarrowUnitsWrap(units[1..], row + [units[0]], used + units[0].width, width);
      }
    }
  }

  lemma {:induction false} UnitInSomeRow(rows: seq<seq<DisplayUnit>>, u: DisplayUnit)
    requires u in Flatten(rows)
    ensures exists i | 0 <= i < |rows| :: u in rows[i]
  {
    if u !in rows[0] {
      UnitInSomeRow(rows[1..], u);
      var i :| 0 <= i < |rows[1..]| && u in rows[1..][i];
      assert rows[i + 1] == rows[1..][i];
    }
  }

  lemma {:induction false} RowIsAsWideAsItsUnits(row: seq<DisplayUnit>, u: DisplayUnit)
    requires u in row
    ensures u.width <= TotalWidth(row)
  {
    if row[0] != u { RowIsAsWideAsItsUnits(row[1..], u); }
  }

  /** Every row fits exactly when every unit does: beyond a unit wider than the whole row the
      subtraction wraps, and the rest stays on that row. */
  lemma RowsFitExactlyWhenUnitsDo(units: seq<DisplayUnit>, width: Size)
    ensures RowsFit(Wrap(units, [], 0, width), width) <==> UnitsFit(units, width)
  {
    var rows := Wrap(units, [], 0, width);
    if UnitsFit(units, width) {
      NarrowUnitsWrap(units, [], 0, width);
    } else {
      var i :| 0 <= i < |units| && units[i].width > width;
      WrapCutsOnly(units, [], 0, width);
      assert [] + units == units;
      hide Wrap;
      assert units[i] in Flatten(rows);
      UnitInSomeRow(rows, units[i]);
      var j :| 0 <= j < |rows| && units[i] in rows[j];
      RowIsAsWideAsItsUnits(rows[j], units[i]);
    }
  }

  /** After a unit that is too wide nothing starts a new row: the row is never left again. */
  lemma {:induction false} TooWideStaysTooWide(units: seq<DisplayUnit>, row: seq<DisplayUnit>, used: nat, width: Size)
    requires width < used && used + TotalWidth(units) < TWO_64
    ensures Wrap(units, row, used, width) == [row + units]
    decreases |units|
  {
    if units == [] {
      assert row + [] == row;
    } else {
      WrappedDifference(width, used, units[0].width);
      TooWideStaysTooWide(units[1..], row + [units[0]], used + units[0].width, width);
      assert row + [units[0]] + units[1..] == row + units;
    }
  }

  lemma WrappedDifference(width: Size, used: nat, more: nat)
    requires width < used && used + more < TWO_64
    ensures more <= Minus64(width, used)
  {
    assert Minus64(width, used) == width - used + TWO_64;
  }

  function RowTexts(rows: seq<seq<DisplayUnit>>): (texts: seq<Bytes>)
    ensures |texts| == |rows|
    ensures forall i | 0 <= i < |rows| :: texts[i] == Joined(rows[i])
  {
    seq(|rows|, i requires 0 <= i < |rows| => Joined(rows[i]))
  }

  function Concat(texts: seq<Bytes>): Bytes {
    if texts == [] then [] else texts[0] + Concat(texts[1..])
  }

  lemma {:induction false} RowTextsJoin(rows: seq<seq<DisplayUnit>>)
    ensures Concat(RowTexts(rows)) == Joined(Flatten(rows))
    decreases |rows|
  {
    if rows != [] {
      RowTextsJoin(rows[1..]);
      assert RowTexts(rows)[1..] == RowTexts(rows[1..]);
      UnitsAppend(rows[0], Flatten(rows[1..]));
    }
  }

  /** Where the loop over the units stands: full rows done, the current row and its width. */
  ghost predicate WrapState(units: seq<DisplayUnit>, width: nat, i: nat, done: seq<seq<DisplayUnit>>, row: seq<DisplayUnit>,
                            used: nat, rows: seq<Bytes>) {
    && i <= |units| && rows == RowTexts(done) + [Joined(row)]
    && Wrap(units, [], 0, width) == done + Wrap(units[i..], row, used, width)
  }

  predicate StartsRow(used: nat, unit: nat, width: nat) {
    used != 0 && unit > Minus64(width, used)
  }

  lemma WrapBegins(units: seq<DisplayUnit>, width: nat)
    ensures WrapState(units, width, 0, [], [], 0, [[]])
  {
    assert units[0..] == units;
    assert [] + Wrap(units, [], 0, width) == Wrap(units, [], 0, width);
  }

  lemma WrapOnRow(units: seq<DisplayUnit>, width: nat, i: nat, done: seq<seq<DisplayUnit>>, row: seq<DisplayUnit>,
                  used: nat, rows: seq<Bytes>)
    requires WrapState(units, width, i, done, row, used, rows) && i < |units| && !StartsRow(used, units[i].width, width)
    ensures rows != []
    ensures WrapState(units, width, i + 1, done, row + [units[i]], used + units[i].width,
                      rows[|rows| - 1 := rows[|rows| - 1] + units[i].bytes])
  {
    hide Wrap, Joined, RowTexts, Minus64;
    WrapStep(units, i, row, used, width);
    RowGains(row, units[i]);
    LastRowGains(RowTexts(done), Joined(row), units[i].bytes);
  }

  lemma WrapNewRow(units: seq<DisplayUnit>, width: nat, i: nat, done: seq<seq<DisplayUnit>>, row: seq<DisplayUnit>,
                   used: nat, rows: seq<Bytes>)
    requires WrapState(units, width, i, done, row, used, rows) && i < |units| && StartsRow(used, units[i].width, width)
    ensures WrapState(units, width, i + 1, done + [row], [units[i]], units[i].width, rows + [[] + units[i].bytes])
  {
    WrapStep(units, i, row, used, width);
    assert Joined([units[i]]) == [] + units[i].bytes by {
      RowGains([], units[i]);
      assert [] + [units[i]] == [units[i]];
    }
    hide Wrap, Joined, RowTexts, Minus64;
    Regroup(done, row, Wrap(units[i + 1..], [units[i]], units[i].width, width));
    RowTextsAppend(done, row);
  }

  lemma WrapEnds(units: seq<DisplayUnit>, width: nat, done: seq<seq<DisplayUnit>>, row: seq<DisplayUnit>, used: nat, rows: seq<Bytes>)
    requires WrapState(units, width, |units|, done, row, used, rows)
    ensures rows == RowTexts(Wrap(units, [], 0, width))
  {
    assert units[|units|..] == [];
    WrapEnd(row, used, width);
    RowTextsAppend(done, row);
  }

  method WrapToWidth(text: Bytes, width: Size, w: Widths) returns (rows: seq<Bytes>)
    ensures width == 0 ==> rows == [[]]
    ensures width > 0 ==> rows == RowTexts(Wrap(Units(text, w), [], 0, width))
  {
    hide Units, Wrap, RowTexts, WrapState, Minus64;
    rows := [[]];
    if width == 0 {
      return;
    }
    var units := BuildUnits(text, w);
    var used: nat := 0;
    var i := 0;
    ghost var done: seq<seq<DisplayUnit>> := [];
    ghost var row: seq<DisplayUnit> := [];
    WrapBegins(units, width);
    while i < |units|
      invariant i <= |units| && WrapState(units, width, i, done, row, used, rows)
    {
      if used != 0 && units[i].width > Minus64(width, used) {
        WrapNewRow(units, width, i, done, row, used, rows);
        rows := rows + [[]];
        used := 0;
        done, row := done + [row], [units[i]];
        assert rows[|rows| - 1 := rows[|rows| - 1] + units[i].bytes] == rows[..|rows| - 1] + [[] + units[i].bytes];
      } else {
        WrapOnRow(units, width, i, done, row, used, rows);
        row := row + [units[i]];
      }
      rows := rows[|rows| - 1 := rows[|rows| - 1] + units[i].bytes];
      used := used + units[i].width;
      i := i + 1;
    }
    WrapEnds(units, width, done, row, used, rows);
  }

  lemma LastRowGains(rows: seq<Bytes>, last: Bytes, more: Bytes)
    ensures var all := rows + [last];
      all[|all| - 1] == last && all[|all| - 1 := last + more] == rows + [last + more]
  {
  }

  lemma WrapEnd(row: seq<DisplayUnit>, used: nat, width: nat)
    ensures Wrap([], row, used, width) == [row]
  {
  }

  lemma WrapStep(units: seq<DisplayUnit>, i: nat, row: seq<DisplayUnit>, used: nat, width: nat)
    requires i < |units|
    ensures Wrap(units[i..], row, used, width) ==
      if used != 0 && units[i].width > Minus64(width, used) then
        [row] + Wrap(units[i + 1..], [units[i]], units[i].width, width)
      else Wrap(units[i + 1..], row + [units[i]], used + units[i].width, width)
  {
    assert units[i..][1..] == units[i + 1..];
  }

  lemma Regroup(done: seq<seq<DisplayUnit>>, row: seq<DisplayUnit>, rest: seq<seq<DisplayUnit>>)
    ensures done + ([row] + rest) == done + [row] + rest
  {
  }

  lemma RowGains(row: seq<DisplayUnit>, u: DisplayUnit)
    ensures Joined(row + [u]) == Joined(row) + u.bytes
  {
    UnitsAppend(row, [u]);
    assert [u][1..] == [];
    assert Joined([u]) == u.bytes + [] == u.bytes;
  }

  lemma RowTextsAppend(rows: seq<seq<DisplayUnit>>, row: seq<DisplayUnit>)
    ensures RowTexts(rows + [row]) == RowTexts(rows) + [Joined(row)]
  {
  }

  /** Wrapped rows put together are the safe text, and each fits its width exactly when no
      unit is wider than that. */
  lemma WrappedRowsAreTheText(text: Bytes, width: Size, w: Widths)
    ensures var rows := Wrap(Units(text, w), [], 0, width);
      && Concat(RowTexts(rows)) == SafeText(text, w)
      && (RowsFit(rows, width) <==> UnitsFit(Units(text, w), width))
  {
    var units := Units(text, w);
    WrapCutsOnly(units, [], 0, width);
    assert [] + units == units;
    RowTextsJoin(Wrap(units, [], 0, width));
    RowsFitExactlyWhenUnitsDo(units, width);
  }

  // ----- Escapes can be read -----

  predicate HexDigit(b: bv8) { 0x30 <= b <= 0x39 || 0x41 <= b <= 0x46 }

  /** The value of a hexadecimal digit as the escapes write it. */
  function ValueOf(digit: bv8): bv32 {
    if digit <= 0x39 then (digit - 0x30) as bv32 else (digit - 0x37) as bv32
  }

  /** The number a row of digits stands for, the first digit being the highest. */
  function ReadHex(digits: Bytes): bv32 {
    if digits == [] then 0 else Shifted(ReadHex(digits[..|digits| - 1]), digits[|digits| - 1])
  }

  function Shifted(v: bv32, digit: bv8): bv32 { (v << 4) + ValueOf(digit) }

  lemma DigitReadsBack(n: bv8)
    requires n < 16
    ensures HexDigit(Digit(n)) && ValueOf(Digit(n)) == n as bv32
  {
  }

  lemma NibblesOf(v: bv32)
    ensures v == ((v >> 4) << 4) + ((v & 0x0F) as bv8) as bv32
  {
  }

  lemma NibblesOfByte(b: bv8)
    ensures b as bv32 == (((b >> 4) as bv32) << 4) + (b & 0x0F) as bv32
  {
  }

  lemma ReadsOneMore(digits: Bytes, last: bv8)
    ensures ReadHex(digits + [last]) == Shifted(ReadHex(digits), last)
  {
    hide Shifted;
    FrontAndLast(digits, last);
  }

  lemma FrontAndLast(digits: Bytes, last: bv8)
    ensures var all := digits + [last]; all != [] && all[..|all| - 1] == digits && all[|all| - 1] == last
  {
  }

  lemma ReadsOne(digit: bv8)
    ensures ReadHex([digit]) == ValueOf(digit)
  {
    hide Shifted;
    assert [digit][..0] == [];
    ZeroShifted(digit);
  }

  lemma ZeroShifted(digit: bv8)
    ensures Shifted(0, digit) == ValueOf(digit)
  {
    hide ValueOf;
  }

  lemma Nibble(b: bv8)
    requires b < 16
    ensures b as bv32 < 16
  {
  }

  /** A byte that is shown as an escape can be read off it: two digits, the high one first. */
  lemma EscapedByteReadsBack(b: bv8)
    ensures var e := HexByte(b);
      && |e| == 4 && e[..2] == [0x5C, 0x78] && HexDigit(e[2]) && HexDigit(e[3]) && ReadHex(e[2..]) == b as bv32
  {
    NibbleBits(b);
    DigitReadsBack(b >> 4);
    DigitReadsBack(b & 0x0F);
    NibblesOfByte(b);
    Nibble(b >> 4);
    hide Digit, ValueOf, ReadHex;
    var e := HexByte(b);
    ReadsOne(e[2]);
    ReadsOneMore([e[2]], e[3]);
    assert e[2..] == [e[2]] + [e[3]];
  }

  /** The digits in front of the last. */
  function HighDigits(v: bv32): Bytes {
    if v >> 4 == 0 then [] else HexDigits(v >> 4)
  }

  lemma DigitsAre(v: bv32)
    ensures HexDigits(v) == HighDigits(v) + [Digit((v & 0x0F) as bv8)]
  {
    hide Digit;
  }

  lemma LastDigitReads(v: bv32, high: Bytes)
    requires ReadHex(high) == v >> 4
    ensures ReadHex(high + [Digit((v & 0x0F) as bv8)]) == v && HexDigit(Digit((v & 0x0F) as bv8))
  {
    LowNibble(v);
    var low := (v & 0x0F) as bv8;
    DigitReadsBack(low);
    ReadsOneMore(high, Digit(low));
    NibblesOf(v);
    hide Digit, ValueOf, ReadHex, HexDigit;
  }

  lemma {:induction false} HexDigitsReadBack(v: bv32)
    ensures ReadHex(HexDigits(v)) == v && forall d | d in HexDigits(v) :: HexDigit(d)
    decreases v
  {
    ShiftShrinks(v);
    DigitsAre(v);
    if v >> 4 != 0 {
      HexDigitsReadBack(v >> 4);
    }
    assert ReadHex(HighDigits(v)) == v >> 4;
    LastDigitReads(v, HighDigits(v));
    hide Digit, ReadHex, HexDigit, HexDigits;
  }

  /** The first digit is a zero for the number zero only. */
  lemma {:induction false} NoLeadingZero(v: bv32)
    requires v != 0
    ensures HexDigits(v) != [] && HexDigits(v)[0] != 0x30
    decreases v
  {
    hide Digit;
    ShiftShrinks(v);
    if v >> 4 == 0 {
      SmallNibble(v);
    } else {
      NoLeadingZero(v >> 4);
    }
  }

  lemma SmallNibble(v: bv32)
    requires v != 0 && v >> 4 == 0
    ensures Digit((v & 0x0F) as bv8) != 0x30
  {
  }

  /** A character that is shown as an escape can be read off it: its scalar value without
      leading zeros. */
  lemma EscapedCharacterReadsBack(v: bv32)
    ensures var e := HexCodePoint(v);
      && |e| >= 5 && e[..3] == [0x5C, 0x75, 0x7B] && e[|e| - 1] == 0x7D && ReadHex(e[3..|e| - 1]) == v
      && (v != 0 ==> e[3] != 0x30)
  {
    HexDigitsReadBack(v);
    HexDigitsPrintable(v);
    if v != 0 { NoLeadingZero(v); }
    hide HexDigits, ReadHex;
    var e := HexCodePoint(v);
    assert e[3..|e| - 1] == HexDigits(v);
  }

  // ----- Nothing more is escaped than must be -----

  /** Every character of the text may be shown as it is. */
  predicate Showable(text: Bytes, w: Widths)
    decreases |text|
  {
    text == [] ||
    (&& CharLength(text) > 0 && !Unsafe(Decode(text)) && (Decode(text) < 0x7F || w(Decode(text)) > 0)
     && Showable(text[CharLength(text)..], w))
  }

  /** Text without unsafe, broken or invisible characters is shown unchanged. */
  lemma {:induction false} ShowableIsUnchanged(text: Bytes, w: Widths)
    requires Showable(text, w)
    ensures SafeText(text, w) == text
    decreases |text|
  {
    hide Unsafe, Decode, CharLength, HexByte, HexCodePoint, Escaped, Joined, Units;
    if text == [] {
      EmptyText(w);
    } else {
      var n := CharLength(text);
      ShowableIsUnchanged(text[n..], w);
      FrontThenRest(text, w);
      assert text[..n] + text[n..] == text;
    }
  }

  // ----- Rows are as full as they can be -----

  /** The first unit of each row but the first did not fit on the row before it. */
  predicate RowsFull(rows: seq<seq<DisplayUnit>>, width: nat) {
    forall i | 1 <= i < |rows| :: rows[i] != [] && TotalWidth(rows[i - 1]) + rows[i][0].width > width
  }

  lemma {:induction false} WrapFills(units: seq<DisplayUnit>, row: seq<DisplayUnit>, used: nat, width: Size)
    requires UnitsFit(units, width) && used == TotalWidth(row) <= width
    ensures var rows := Wrap(units, row, used, width);
      RowsFull(rows, width) && (row != [] ==> rows[0] != [] && rows[0][0] == row[0])
      && (row == [] && units != [] ==> rows[0] != [])
    decreases |units|
  {
    hide Minus64, TotalWidth;
    if units != [] {
      NoWrap64(width, used);
      TotalWidthOne(units[0]);
      UnitsAppend(row, [units[0]]);
      assert UnitsFit(units[1..], width);
      if used != 0 && units[0].width > Minus64(width, used) {
        var rest := Wrap(units[1..], [units[0]], units[0].width, width);
        WrapFills(units[1..], [units[0]], units[0].width, width);
        NonEmptyRow(row, used);
        FullThenRest(row, rest, width);
      } else {
        WrapFills(units[1..], row + [units[0]], used + units[0].width, width);
      }
    }
  }

  lemma NonEmptyRow(row: seq<DisplayUnit>, used: nat)
    requires used == TotalWidth(row) && used != 0
    ensures row != []
  {
  }

  lemma FullThenRest(row: seq<DisplayUnit>, rest: seq<seq<DisplayUnit>>, width: nat)
    requires RowsFull(rest, width) && rest != [] && rest[0] != [] && TotalWidth(row) + rest[0][0].width > width
    ensures RowsFull([row] + rest, width)
  {
    hide TotalWidth;
    var rows: seq<seq<DisplayUnit>> := [row] + rest;
    forall i | 1 <= i < |rows|
      ensures rows[i] != [] && TotalWidth(rows[i - 1]) + rows[i][0].width > width
    {
      assert rows[i] == rest[i - 1];
      assert i > 1 ==> rows[i - 1] == rest[i - 2];
    }
  }

  /** A row is left only when the next unit does not fit on it. */
  lemma RowsAreFilled(text: Bytes, width: Size, w: Widths)
    requires UnitsFit(Units(text, w), width)
    ensures RowsFull(Wrap(Units(text, w), [], 0, width), width)
  {
    hide Units, Wrap;
    WrapFills(Units(text, w), [], 0, width);
  }

  // ----- What a screen may never show -----

  /** C0 and C1 control characters and DEL. */
  predicate Control(v: bv32) { v <= 0x1F || 0x7F <= v <= 0x9F }

  /** Embeddings, overrides and isolates: they reorder what stands around them. */
  predicate Bidirectional(v: bv32) { 0x202A <= v <= 0x202E || 0x2066 <= v <= 0x2069 }

  /** Zero-width spaces and joiners, the word joiner and the byte order mark. */
  predicate Invisible(v: bv32) { 0x200B <= v <= 0x200D || v == 0x2060 || v == 0xFEFF }

  predicate Harmless(v: bv32) { !Control(v) && !Bidirectional(v) && !Invisible(v) }

  /** Well-formed text of harmless characters. */
  predicate Clean(text: Bytes)
    decreases |text|
  {
    text == [] || (CharLength(text) > 0 && Harmless(Decode(text)) && Clean(text[CharLength(text)..]))
  }

  lemma {:induction false} CleanConcat(s: Bytes, t: Bytes)
    requires Clean(s) && Clean(t)
    ensures Clean(s + t)
    decreases |s|
  {
    hide CharLength, Decode, Harmless;
    if s == [] {
      assert s + t == t;
    } else {
      var n := CharLength(s);
      CharLengthPrefix(s, t);
      CleanConcat(s[n..], t);
      assert (s + t)[n..] == s[n..] + t;
    }
  }

  lemma {:induction false} PrintableIsClean(s: Bytes)
    requires AllPrintable(s)
    ensures Clean(s)
  {
    hide Harmless, Printable;
    if s != [] {
      PrintableIsHarmless(s);
      assert AllPrintable(s[1..]);
      PrintableIsClean(s[1..]);
    }
  }

  lemma PrintableIsHarmless(s: Bytes)
    requires s != [] && Printable(s[0])
    ensures CharLength(s) == 1 && Harmless(Decode(s))
  {
    HarmlessByte(s[0]);
  }

  lemma HarmlessByte(b: bv8)
    ensures Printable(b) ==> b <= 0x7F && Harmless(b as bv32)
  {
  }

  lemma SafeIsHarmless(v: bv32)
    ensures !Unsafe(v) ==> Harmless(v)
  {
  }

  lemma UnitIsClean(text: Bytes, w: Widths)
    requires text != []
    ensures Clean(FrontUnit(text, w).0.bytes)
  {
    if CharLength(text) == 0 || Unsafe(Decode(text)) || (Decode(text) >= 0x7F && w(Decode(text)) <= 0) {
      EscapeIsPrintable(text, w);
      hide FrontUnit;
      PrintableIsClean(FrontUnit(text, w).0.bytes);
    } else {
      var n := CharLength(text);
      SafeIsHarmless(Decode(text));
      OneCharacterLength(text);
      assert text[..n] + text[n..] == text;
      CharLengthPrefix(text[..n], text[n..]);
      hide Unsafe, Harmless, Decode, CharLength, HexByte, HexCodePoint, Escaped;
      assert text[..n][n..] == [];
    }
  }

  /** Whatever was received, what is shown is well-formed UTF-8 without control, reordering or
      invisible characters. */
  lemma {:induction false} SafeTextIsClean(text: Bytes, w: Widths)
    ensures Clean(SafeText(text, w))
    decreases |text|
  {
    hide FrontUnit, Joined, Units, Clean;
    if text == [] {
      EmptyText(w);
      EmptyIsClean();
    } else {
      var (unit, n) := FrontUnit(text, w);
      SafeTextIsClean(text[n..], w);
      FrontThenRest(text, w);
      UnitIsClean(text, w);
      CleanConcat(unit.bytes, SafeText(text[n..], w));
    }
  }

  lemma EmptyIsClean()
    ensures Clean([])
  {
  }
}
