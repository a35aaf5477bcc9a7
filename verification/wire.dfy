/** Messages and pages as JSON objects: what the server writes (serverf/durable_routing.cpp)
    and what the client accepts (clientf/client_connection.cpp), field by field. */
module Wire {
  import opened Prelude
  import opened Tables
  import opened ClientSync
  import T = Tables

  /** Field names that mean something; any other is `Other`. */
  datatype Name =
    | Type | MessageId | KindName | SenderId | Sender | GroupId | Content | CreatedAt
    | Status | OperationName | Code | Detail | Messages | Through | Next | More
    | After | Limit
    | Other(name: Bytes)

  /** A JSON value; an integer is what fits 64 bits, signed or unsigned. */
  datatype Json =
    | Null
    | Bool(value: bool)
    | Integer(number: int)
    | Fraction
    | Text(text: Bytes)
    | Array(items: seq<Json>)
    | Object(fields: map<Name, Json>)

  const MESSAGE: Bytes := [0x4D, 0x45, 0x53, 0x53, 0x41, 0x47, 0x45]
  const PRIVATE: Bytes := [0x50, 0x52, 0x49, 0x56, 0x41, 0x54, 0x45]
  const GROUP: Bytes := [0x47, 0x52, 0x4F, 0x55, 0x50]
  const BROADCAST: Bytes := [0x42, 0x52, 0x4F, 0x41, 0x44, 0x43, 0x41, 0x53, 0x54]

  function KindText(kind: Kind): Bytes {
    match kind case Private => PRIVATE case Group => GROUP case Broadcast => BROADCAST
  }

  predicate OnlyFields(fields: map<Name, Json>, allowed: set<Name>) {
    fields.Keys <= allowed
  }

  /** `readSignedInteger`. */
  function ReadInteger(fields: map<Name, Json>, name: Name): Option<int> {
    if name in fields && fields[name].Integer? && fields[name].number <= MAX_INT64 then Some(fields[name].number) else None
  }

  predicate IsText(fields: map<Name, Json>, name: Name) {
    name in fields && fields[name].Text?
  }

  // ----- Envelopes -----

  function PlainFields(d: Delivery): map<Name, Json> {
    var m := d.message;
    map[Type := Text(MESSAGE), MessageId := Integer(m.id), KindName := Text(KindText(m.kind)),
        SenderId := Integer(m.senderId), Sender := Text(d.sender), Content := Text(m.content),
        CreatedAt := Integer(m.createdAt)]
  }

  /** `deliveryEnvelope`: none for a group message without its group. */
  function EncodeEnvelope(d: Delivery): Option<map<Name, Json>> {
    if d.message.kind != Group then Some(PlainFields(d))
    else if d.message.groupId.None? then None
    else Some(PlainFields(d)[GroupId := Integer(d.message.groupId.value)])
  }

  const PLAIN_NAMES: set<Name> := {Type, MessageId, KindName, SenderId, Sender, Content, CreatedAt}

  /** `validDeliveryEnvelope`. */
  predicate ValidEnvelope(j: map<Name, Json>) {
    var isGroup := KindName in j && j[KindName] == Text(GROUP);
    && OnlyFields(j, if isGroup then PLAIN_NAMES + {GroupId} else PLAIN_NAMES)
    && Type in j && j[Type] == Text(MESSAGE)
    && IsText(j, KindName) && IsText(j, Sender) && j[Sender].text != [] && IsText(j, Content) && j[Content].text != []
    && (j[KindName].text == PRIVATE || j[KindName].text == GROUP || j[KindName].text == BROADCAST)
    && ReadInteger(j, MessageId).Some? && ReadInteger(j, MessageId).value > 0
    && ReadInteger(j, SenderId).Some? && ReadInteger(j, SenderId).value > 0
    && ReadInteger(j, CreatedAt).Some? && ReadInteger(j, CreatedAt).value >= 0
    && if isGroup then ReadInteger(j, GroupId).Some? && ReadInteger(j, GroupId).value > 0 else GroupId !in j
  }

  /** The delivery an accepted envelope stands for. */
  function DecodeEnvelope(j: map<Name, Json>): Delivery
    requires ValidEnvelope(j)
  {
    var kind := if j[KindName].text == PRIVATE then Private else if j[KindName].text == GROUP then Group else Broadcast;
    Delivery(T.Stored(j[MessageId].number, kind, j[SenderId].number,
                      if kind == Group then Some(j[GroupId].number) else None,
                      j[Content].text, j[CreatedAt].number), j[Sender].text)
  }

  lemma KindTextsDiffer()
    ensures PRIVATE != GROUP && GROUP != BROADCAST && PRIVATE != BROADCAST
  {
    assert |PRIVATE| == 7 && |GROUP| == 5 && |BROADCAST| == 9;
  }

  /** What the server writes for a well-formed delivery the client accepts, and reads back as
      the same delivery. */
  lemma EnvelopeRoundTrip(d: Delivery)
    requires WellFormed(d)
    ensures EncodeEnvelope(d).Some? && ValidEnvelope(EncodeEnvelope(d).value)
    ensures DecodeEnvelope(EncodeEnvelope(d).value) == d
  {
    KindTextsDiffer();
    var j := EncodeEnvelope(d).value;
    assert j[KindName] == Text(KindText(d.message.kind));
    assert j.Keys == if d.message.kind == Group then PLAIN_NAMES + {GroupId} else PLAIN_NAMES;
  }

  /** The client accepts nothing else: an accepted envelope is exactly what the server writes
      for some well-formed delivery. */
  lemma AcceptedEnvelopesAreEncodings(j: map<Name, Json>)
    requires ValidEnvelope(j)
    ensures WellFormed(DecodeEnvelope(j)) && EncodeEnvelope(DecodeEnvelope(j)) == Some(j)
  {
    KindTextsDiffer();
    var e := EncodeEnvelope(DecodeEnvelope(j)).value;
    SameNames(j);
    SameValues(j);
    hide EncodeEnvelope, ValidEnvelope, DecodeEnvelope;
    assert e == j;
  }

  lemma SameNames(j: map<Name, Json>)
    requires ValidEnvelope(j)
    ensures EncodeEnvelope(DecodeEnvelope(j)).Some? && EncodeEnvelope(DecodeEnvelope(j)).value.Keys == j.Keys
  {
    hide PlainFields;
    KindTextsDiffer();
    var d := DecodeEnvelope(j);
    PlainKeys(d);
    var e := EncodeEnvelope(d).value;
    assert e.Keys == if d.message.kind == Group then PLAIN_NAMES + {GroupId} else PLAIN_NAMES;
    assert j.Keys <= e.Keys;
  }

  lemma PlainKeys(d: Delivery)
    ensures PlainFields(d).Keys == PLAIN_NAMES
  {
  }

  lemma PlainValues(j: map<Name, Json>)
    requires ValidEnvelope(j)
    ensures var e := PlainFields(DecodeEnvelope(j)); forall n | n in j && n in e :: e[n] == j[n]
  {
    KindTextsDiffer();
  }

  lemma SameValues(j: map<Name, Json>)
    requires ValidEnvelope(j) && EncodeEnvelope(DecodeEnvelope(j)).Some?
    ensures var e := EncodeEnvelope(DecodeEnvelope(j)).value; forall n | n in j && n in e :: e[n] == j[n]
  {
    hide PlainFields;
    KindTextsDiffer();
    PlainValues(j);
  }

  // ----- Page requests -----

  const DEFAULT_LIMIT: int := 50

  /** The client's request for a pending page. */
  function EncodeRequest(after: int, upTo: Option<int>): map<Name, Json> {
    var plain := map[After := Integer(after), Limit := Integer(50)];
    if upTo.None? then plain else plain[Through := Integer(upTo.value)]
  }

  datatype PageRequest = PageRequest(after: int, through: Option<int>, limit: nat)

  /** `readPageRequest`, the `type` field aside: absent fields have defaults. */
  function ReadPageRequest(j: map<Name, Json>): Option<PageRequest> {
    if !OnlyFields(j, {Type, After, Through, Limit}) then None
    else if After in j && (ReadInteger(j, After).None? || ReadInteger(j, After).value < 0) then None
    else
      var after := if After in j then ReadInteger(j, After).value else 0;
      if Through in j && (ReadInteger(j, Through).None? || ReadInteger(j, Through).value < 0 || after > ReadInteger(j, Through).value) then None
      else if Through !in j && after != 0 then None
      else if Limit in j && (ReadInteger(j, Limit).None? || !(0 < ReadInteger(j, Limit).value <= 50)) then None
      else
        Some(PageRequest(after, if Through in j then ReadInteger(j, Through) else None,
                         if Limit in j then ReadInteger(j, Limit).value else DEFAULT_LIMIT))
  }

  /** A request the server lets through always meets the database's own page checks. */
  lemma AcceptedRequestsMeetTheDatabase(j: map<Name, Json>)
    requires ReadPageRequest(j).Some?
    ensures var q := ReadPageRequest(j).value; PageArguments(q.after, q.through, q.limit) && q.limit <= 50
  {
  }

  /** The client's requests are read as they were meant, exactly when their cursors are in
      order. */
  lemma RequestRoundTrip(after: int, upTo: Option<int>)
    requires after <= MAX_INT64 && (upTo.Some? ==> upTo.value <= MAX_INT64)
    ensures ReadPageRequest(EncodeRequest(after, upTo)) ==
      if 0 <= after && (if upTo.Some? then after <= upTo.value else after == 0)
      then Some(PageRequest(after, upTo, SYNC_LIMIT)) else None
  {
    var j := EncodeRequest(after, upTo);
    assert After in j && Limit in j && (Through in j <==> upTo.Some?);
  }

  /** A field is absent, or an integer within these bounds. */
  predicate AbsentOrWithin(j: map<Name, Json>, name: Name, low: int, high: int) {
    name in j ==> j[name].Integer? && low <= j[name].number <= high
  }

  function NumberOr(j: map<Name, Json>, name: Name, otherwise: int): int {
    if name in j && j[name].Integer? then j[name].number else otherwise
  }

  /** Which requests are read, and as what: no other fields, numbers within their bounds, cursors
      in order; without a watermark only from the start; absent fields mean the start and 50. */
  lemma RequestIsReadExactlyWhen(j: map<Name, Json>)
    ensures var q := ReadPageRequest(j);
      && (q.Some? <==>
            && j.Keys <= {Type, After, Through, Limit}
            && AbsentOrWithin(j, After, 0, MAX_INT64) && AbsentOrWithin(j, Through, 0, MAX_INT64) && AbsentOrWithin(j, Limit, 1, 50)
            && (if Through in j then NumberOr(j, After, 0) <= NumberOr(j, Through, 0) else NumberOr(j, After, 0) == 0))
      && (q.Some? ==>
            && q.value.after == NumberOr(j, After, 0) && q.value.limit == NumberOr(j, Limit, 50)
            && q.value.through == (if Through in j then Some(NumberOr(j, Through, 0)) else None))
  {
  }

  // ----- Pages -----

  function EncodeRecords(records: seq<Delivery>): seq<Json>
    requires forall d | d in records :: WellFormed(d)
  {
    if records == [] then []
    else
      assert records[0] in records;
      [Object(Envelope(records[0]))] + EncodeRecords(records[1..])
  }

  function Envelope(d: Delivery): map<Name, Json>
    requires WellFormed(d)
  {
    EnvelopeRoundTrip(d);
    EncodeEnvelope(d).value
  }

  /** The records of a page as the client takes them: none if any is not an accepted envelope. */
  function DecodeRecords(items: seq<Json>): Option<seq<Delivery>> {
    if items == [] then Some([])
    else if !items[0].Object? || !ValidEnvelope(items[0].fields) then None
    else
      match DecodeRecords(items[1..])
      case None => None
      case Some(rest) => Some([DecodeEnvelope(items[0].fields)] + rest)
  }

  /** The records of a page arrive as they were stored, in order. */
  lemma {:induction false} RecordsRoundTrip(records: seq<Delivery>)
    requires forall d | d in records :: WellFormed(d)
    ensures DecodeRecords(EncodeRecords(records)) == Some(records)
    decreases |records|
  {
    hide WellFormed, ValidEnvelope, DecodeEnvelope, EncodeEnvelope;
    if records != [] {
      assert records[0] in records;
      EnvelopeRoundTrip(records[0]);
      RecordsRoundTrip(records[1..]);
      var items := EncodeRecords(records);
      assert items[1..] == EncodeRecords(records[1..]);
      assert [records[0]] + records[1..] == records;
    }
  }
}
