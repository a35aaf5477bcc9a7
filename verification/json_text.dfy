/** The JSON text of messages, pages and requests, byte for byte as `dump` prints it: compact,
    with the fields of an object in alphabetical order (section 7 of RFC 8259 for strings).
    Everything said about lengths elsewhere is about these texts. */
module JsonText {
  import opened Prelude
  import opened Tables
  import opened PageWriter
  import BufferState
  import UiState

  /** The bytes of an ASCII text. */
  function Ascii(text: string): (bytes: Bytes)
    ensures |bytes| == |text|
  {
    seq(|text|, i requires 0 <= i < |text| => (text[i] as int % 256) as bv8)
  }

  function HexDigit(n: bv8): bv8 { if n < 10 then 0x30 + n else 0x57 + n }

  /** One byte inside a string: quotation mark, backslash and control characters are escaped. */
  function EscapedByte(b: bv8): Bytes {
    match b
    case 0x22 => Ascii("\\\"")
    case 0x5C => Ascii("\\\\")
    case 0x08 => Ascii("\\b")
    case 0x09 => Ascii("\\t")
    case 0x0A => Ascii("\\n")
    case 0x0C => Ascii("\\f")
    case 0x0D => Ascii("\\r")
    case _ => if b < 0x20 then Ascii("\\u00") + [HexDigit(b >> 4), HexDigit(b & 0x0F)] else [b]
  }

  function EscapedText(s: Bytes): Bytes {
    if s == [] then [] else EscapedText(s[..|s| - 1]) + EscapedByte(s[|s| - 1])
  }

  function StringText(s: Bytes): Bytes { [0x22] + EscapedText(s) + [0x22] }

  /** A nonnegative integer in decimal. */
  function NumberText(n: nat): (text: Bytes)
    decreases n
  {
    (if n < 10 then [] else NumberText(n / 10)) + [(0x30 + n % 10) as bv8]
  }

  function BoolText(b: bool): Bytes { if b then Ascii("true") else Ascii("false") }

  function KindText(kind: Kind): Bytes {
    match kind
    case Private => Ascii("\"PRIVATE\"")
    case Group => Ascii("\"GROUP\"")
    case Broadcast => Ascii("\"BROADCAST\"")
  }

  /** Numbers that are written: ids and times of stored messages are never negative. */
  predicate Countable(d: Delivery) {
    var m := d.message;
    0 <= m.id && 0 <= m.senderId && 0 <= m.createdAt && (m.groupId.Some? ==> 0 <= m.groupId.value)
  }

  /** `deliveryEnvelope(...).dump()`. */
  function EnvelopeText(d: Delivery): Bytes
    requires Countable(d)
  {
    Ascii("{") + ContentFields(d.message) + IdentityFields(d) + Ascii("}")
  }

  function ContentFields(m: Stored): Bytes
    requires 0 <= m.createdAt && (m.groupId.Some? ==> 0 <= m.groupId.value)
  {
    Ascii("\"content\":") + StringText(m.content)
    + Ascii(",\"created_at\":") + NumberText(m.createdAt)
    + (if m.groupId.Some? then Ascii(",\"group_id\":") + NumberText(m.groupId.value) else [])
  }

  function IdentityFields(d: Delivery): Bytes
    requires 0 <= d.message.id && 0 <= d.message.senderId
  {
    Ascii(",\"kind\":") + KindText(d.message.kind)
    + Ascii(",\"message_id\":") + NumberText(d.message.id)
    + Ascii(",\"sender\":") + StringText(d.sender)
    + Ascii(",\"sender_id\":") + NumberText(d.message.senderId)
    + Ascii(",\"type\":\"MESSAGE\"")
  }

  function ItemsText(ds: seq<Delivery>): Bytes
    requires forall i | 0 <= i < |ds| :: Countable(ds[i])
  {
    if ds == [] then []
    else ItemsText(ds[..|ds| - 1]) + (if |ds| > 1 then Ascii(",") else []) + EnvelopeText(ds[|ds| - 1])
  }

  function CodeText(op: Operation): Bytes {
    if op == SyncPending then Ascii("\"PENDING_PAGE\"") else Ascii("\"HISTORY_PAGE\"")
  }

  function DetailText(op: Operation): Bytes {
    if op == SyncPending then Ascii("\"Pending messages\"") else Ascii("\"Authorized history\"")
  }

  function OperationText(op: Operation): Bytes {
    if op == SyncPending then Ascii("\"SYNC_PENDING\"") else Ascii("\"HISTORY\"")
  }

  /** A page response as it is printed. */
  function ResponseText(op: Operation, records: seq<Delivery>, through: nat, next: nat, hasMore: bool): Bytes
    requires forall i | 0 <= i < |records| :: Countable(records[i])
  {
    Ascii("{") + PageFields(op, hasMore) + Ascii(",\"messages\":[") + ItemsText(records) + Ascii("]")
    + CursorFields(op, through, next) + Ascii("}")
  }

  function PageFields(op: Operation, hasMore: bool): Bytes {
    Ascii("\"code\":") + CodeText(op) + Ascii(",\"has_more\":") + BoolText(hasMore) + Ascii(",\"message\":") + DetailText(op)
  }

  function CursorFields(op: Operation, through: nat, next: nat): Bytes {
    Ascii(",\"next_after_message_id\":") + NumberText(next)
    + Ascii(",\"operation\":") + OperationText(op)
    + Ascii(",\"status\":\"SUCCESS\",\"through_message_id\":") + NumberText(through)
  }

  /** A message request of the conversation screen as it is printed. */
  function RequestText(key: BufferState.Key, content: Bytes): Bytes
    requires key.GroupChat? ==> 0 <= key.group
  {
    Ascii("{\"content\":") + StringText(content) +
    match key
    case PrivateChat(receiver) => Ascii(",\"receiver\":") + StringText(receiver) + Ascii(",\"type\":\"PRIVATE\"}")
    case GroupChat(group) => Ascii(",\"group_id\":") + NumberText(group) + Ascii(",\"type\":\"GROUP\"}")
    case BroadcastChat => Ascii(",\"type\":\"BROADCAST\"}")
  }

  // ----- The lengths -----

  lemma EscapedByteLength(b: bv8)
    ensures |EscapedByte(b)| == EscapedLength(b)
  {
  }

  lemma {:induction false} EscapedTextLength(s: Bytes)
    ensures |EscapedText(s)| == EscapedSum(s)
  {
    if s != [] {
      EscapedTextLength(s[..|s| - 1]);
      EscapedByteLength(s[|s| - 1]);
      hide EscapedByte, EscapedLength;
    }
  }

  lemma StringTextLength(s: Bytes)
    ensures |StringText(s)| == TextLength(s)
  {
    EscapedTextLength(s);
  }

  lemma {:induction false} NumberTextLength(n: nat)
    ensures |NumberText(n)| == Digits(n)
    decreases n
  {
    if n >= 10 {
      NumberTextLength(n / 10);
    }
  }

  lemma ContentLength(m: Stored)
    requires 0 <= m.createdAt && (m.groupId.Some? ==> 0 <= m.groupId.value)
    ensures |ContentFields(m)| == 24 + TextLength(m.content) + Digits(m.createdAt)
      + match m.groupId case None => 0 case Some(g) => 12 + Digits(g)
  {
    hide StringText, NumberText, TextLength, Digits, Ascii;
    StringTextLength(m.content);
    NumberTextLength(m.createdAt);
    if m.groupId.Some? { NumberTextLength(m.groupId.value); }
  }

  lemma IdentityLength(d: Delivery)
    requires 0 <= d.message.id && 0 <= d.message.senderId
    ensures |IdentityFields(d)| == 62 + KindLength(d.message.kind) + Digits(d.message.id) + TextLength(d.sender) + Digits(d.message.senderId)
  {
    hide StringText, NumberText, TextLength, Digits, Ascii;
    NumberTextLength(d.message.id);
    StringTextLength(d.sender);
    NumberTextLength(d.message.senderId);
  }

  /** A MESSAGE object is as long as its text. */
  lemma EnvelopeLengthIsRight(d: Delivery)
    requires Countable(d)
    ensures |EnvelopeText(d)| == EnvelopeLength(d)
  {
    hide ContentFields, IdentityFields, TextLength, Digits, KindLength, Ascii;
    ContentLength(d.message);
    IdentityLength(d);
  }

  lemma {:induction false} ItemsLengthIsRight(ds: seq<Delivery>)
    requires forall i | 0 <= i < |ds| :: Countable(ds[i])
    ensures |ItemsText(ds)| + 2 == RecordsLength(ds)
  {
    if ds != [] {
      ItemsLengthIsRight(ds[..|ds| - 1]);
      EnvelopeLengthIsRight(ds[|ds| - 1]);
      hide EnvelopeText, EnvelopeLength, Countable;
    }
  }

  lemma PageFieldsLength(op: Operation, hasMore: bool)
    ensures |PageFields(op, hasMore)| == (if op == SyncPending then 62 else 64) + (if hasMore then 4 else 5)
  {
    hide Ascii;
  }

  lemma CursorFieldsLength(op: Operation, through: nat, next: nat)
    ensures |CursorFields(op, through, next)| == (if op == SyncPending then 93 else 88) + Digits(next) + Digits(through)
  {
    hide NumberText, Digits, Ascii;
    NumberTextLength(next);
    NumberTextLength(through);
  }

  /** A page response is as long as its text. */
  lemma ResponseLengthIsRight(op: Operation, records: seq<Delivery>, through: nat, next: nat, hasMore: bool)
    requires forall i | 0 <= i < |records| :: Countable(records[i])
    ensures |ResponseText(op, records, through, next, hasMore)| == ResponseLength(op, records, through, next, hasMore)
  {
    hide ItemsText, RecordsLength, PageFields, CursorFields, Digits, Countable, Ascii;
    ItemsLengthIsRight(records);
    PageFieldsLength(op, hasMore);
    CursorFieldsLength(op, through, next);
  }

  /** A message request is as long as its text. */
  lemma RequestLengthIsRight(key: BufferState.Key, content: Bytes)
    requires key.GroupChat? ==> 0 <= key.group
    ensures |RequestText(key, content)| == UiState.RequestLength(key, content)
  {
    StringTextLength(content);
    if key.PrivateChat? { StringTextLength(key.username); }
    if key.GroupChat? { NumberTextLength(key.group); }
    hide StringText, NumberText, TextLength, Digits, Ascii;
  }
}
