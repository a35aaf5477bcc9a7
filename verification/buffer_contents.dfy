/** What the store holds: the text that was sent and received, filed where it belongs and never
    changed; when each operation succeeds, in terms of what is stored; and a version that
    rises with every change. */
module BufferContents {
  import opened Prelude
  import opened Tables
  import opened BufferState
  import opened BufferInvariant
  import opened BufferRuns

  // ----- Sent text -----

  /** The message of a submission, while it has no id yet. */
  function Draft(key: Key, sender: Bytes, content: Bytes): Message {
    Message(0, key, sender, None, content, None, true, 0)
  }

  /** Message `id` is one the user sent: this text, under this name, in this conversation. */
  predicate SentAs(b: Buffer, id: int, key: Key, sender: Bytes, content: Bytes) {
    && id in b.byId
    && var m := b.byId[id];
    && m == Draft(key, sender, content).(id := id, arrival := m.arrival)
    && key in b.conversations && m in b.conversations[key].messages
  }

  lemma ReserveHolds(b: Buffer, key: Key, sender: Bytes, content: Bytes)
    requires Reserve(b, key, sender, content).1 == InsertResult.Stored
    ensures Reserve(b, key, sender, content).0.reserved == Some(Draft(key, sender, content))
  {
    hide Minus64, Plus64, KeyBytes, TextBytes;
  }

  /** Neither commits nor cancels. */
  predicate LeavesReservation(op: Op) { !op.CommitOp? && !op.CancelOp? }

  lemma ReservationStays(b: Buffer, op: Op)
    requires Valid(b) && b.reserved.Some? && LeavesReservation(op)
    ensures Step(b, op).reserved == b.reserved
  {
    hide Valid, Ensure, Receive, Reserve, MarkViewed;
    match op
    case EnsureOp(key) => EnsureLeaves(b, key);
    case ReceiveOp(d) => ReceiveLeaves(b, d);
    case ReserveOp(key, sender, content) => ReserveOtherwiseLeaves(b, key, sender, content);
    case ViewOp(key, through) => ViewLeaves(b, key, through);
  }

  lemma EnsureLeaves(b: Buffer, key: Key)
    ensures Ensure(b, key).0.reserved == b.reserved
  {
    hide Minus64, Plus64, KeyBytes;
  }

  lemma ReceiveLeaves(b: Buffer, d: Delivery)
    ensures Receive(b, d).0.reserved == b.reserved
  {
    hide ReceiveRefused, AddIncoming, Plus64, TextBytes, KeyBytes;
  }

  lemma ReserveOtherwiseLeaves(b: Buffer, key: Key, sender: Bytes, content: Bytes)
    requires b.reserved.Some?
    ensures Reserve(b, key, sender, content).0.reserved == b.reserved
  {
  }

  lemma ViewLeaves(b: Buffer, key: Key, through: nat)
    ensures MarkViewed(b, key, through).0.reserved == b.reserved
  {
  }

  lemma {:induction false} ReservationStaysLong(b: Buffer, ops: seq<Op>)
    requires Valid(b) && b.reserved.Some? && forall op | op in ops :: LeavesReservation(op)
    ensures Run(b, ops).reserved == b.reserved
    decreases |ops|
  {
    hide Valid, Step, LeavesReservation;
    if ops != [] {
      assert ops[0] in ops;
      ReservationStays(b, ops[0]);
      StepKeeps(b, ops[0]);
      ReservationStaysLong(Step(b, ops[0]), ops[1..]);
    }
  }

  lemma CommitFiles(b: Buffer, id: int, key: Key, sender: Bytes, content: Bytes)
    requires Valid(b) && b.reserved == Some(Draft(key, sender, content)) && Commit(b, id).1 == InsertResult.Stored
    ensures SentAs(Commit(b, id).0, id, key, sender, content)
  {
    hide Commit, Valid, Fresh, Add;
    CommitIsAdd(b, id);
    AddFiles(Unreserve(b), b.reserved.value.(id := id, arrival := b.nextArrival));
  }

  lemma AddFiles(b: Buffer, m: Message)
    requires Fresh(b, m)
    ensures var b' := Add(b, m);
      m.id in b'.byId && b'.byId[m.id] == m && m.key in b'.conversations && m in b'.conversations[m.key].messages
  {
    hide LowerBound;
    var c := b.conversations[m.key];
    InsertedMembers(c.messages, LowerBound(c.messages, m.id), m);
    hide InsertAt;
  }

  // ----- Nothing stored changes -----

  /** A message of the store, in the list of its conversation. */
  predicate Files(b: Buffer, id: int, m: Message) {
    id in b.byId && b.byId[id] == m && m.key in b.conversations && m in b.conversations[m.key].messages
  }

  /** No operation changes or forgets a stored message. */
  lemma StoredStays(b: Buffer, op: Op, id: int)
    requires Valid(b) && id in b.byId
    ensures Valid(Step(b, op))
    ensures id in Step(b, op).byId && Step(b, op).byId[id] == b.byId[id]
  {
    StepKeeps(b, op);
    hide Valid, Ensure, Receive, Reserve, Commit, Cancel, MarkViewed;
    match op
    case EnsureOp(key) => EnsureIndex(b, key);
    case ReceiveOp(d) => ReceiveIndex(b, d);
    case ReserveOp(key, sender, content) => ReserveIndex(b, key, sender, content);
    case CommitOp(commit) => ReservedIsOpen(b); CommitIndex(b, commit);
    case CancelOp => CancelIndex(b);
    case ViewOp(key, through) => ViewIndex(b, key, through);
  }

  lemma EnsureIndex(b: Buffer, key: Key)
    ensures Ensure(b, key).0.byId == b.byId
  {
    hide Minus64, Plus64, KeyBytes;
  }

  lemma ReceiveIndex(b: Buffer, d: Delivery)
    ensures forall id | id in b.byId :: id in Receive(b, d).0.byId && Receive(b, d).0.byId[id] == b.byId[id]
  {
    hide ReceiveRefused, AddIncoming, Plus64, TextBytes, KeyBytes;
  }

  lemma ReserveIndex(b: Buffer, key: Key, sender: Bytes, content: Bytes)
    ensures Reserve(b, key, sender, content).0.byId == b.byId
  {
    hide Minus64, Plus64, KeyBytes, TextBytes;
  }

  lemma CommitIndex(b: Buffer, commit: int)
    requires b.reserved.Some? ==> b.reserved.value.key in b.conversations
    ensures forall id | id in b.byId :: id in Commit(b, commit).0.byId && Commit(b, commit).0.byId[id] == b.byId[id]
  {
    hide AddOutgoing, Plus64;
  }

  lemma CancelIndex(b: Buffer)
    ensures Cancel(b).byId == b.byId
  {
    hide Minus64;
  }

  lemma ViewIndex(b: Buffer, key: Key, through: nat)
    ensures MarkViewed(b, key, through).0.byId == b.byId
  {
  }

  lemma {:induction false} StoredStaysLong(b: Buffer, ops: seq<Op>, id: int)
    requires Valid(b) && id in b.byId
    ensures id in Run(b, ops).byId && Run(b, ops).byId[id] == b.byId[id]
    decreases |ops|
  {
    hide Valid, Step;
    if ops != [] {
      StoredStays(b, ops[0], id);
      StoredStaysLong(Step(b, ops[0]), ops[1..], id);
    }
  }

  lemma IndexedIsFiled(b: Buffer, id: int)
    requires Valid(b) && id in b.byId
    ensures Files(b, id, b.byId[id])
  {
    assert IndexedMessage(b, id, b.byId[id]);
  }

  /** What is sent is what is kept: after a reservation that was made, any operations other
      than a commit or a cancel, a commit that succeeds, and any operations at all, the message
      stands in the conversation it was sent to, with the user's name and the text as sent. */
  lemma SentTextIsKept(before: seq<Op>, key: Key, sender: Bytes, content: Bytes, between: seq<Op>, id: int, later: seq<Op>)
    requires Reserve(Reach(before), key, sender, content).1 == InsertResult.Stored
    requires forall op | op in between :: LeavesReservation(op)
    ensures Valid(Reserve(Reach(before), key, sender, content).0)
    ensures var b := Run(Reserve(Reach(before), key, sender, content).0, between);
      && (b.reserved.Some? ==> b.reserved.value.key in b.conversations)
      && Valid(Commit(b, id).0)
      && (Commit(b, id).1 == InsertResult.Stored ==> SentAs(Run(Commit(b, id).0, later), id, key, sender, content))
  {
    hide Valid, Run, Reach, Reserve, Commit, LeavesReservation, SentAs;
    var b0 := Reserve(Reach(before), key, sender, content).0;
    ReserveKeeps(Reach(before), key, sender, content);
    ReserveHolds(Reach(before), key, sender, content);
    ReservationStaysLong(b0, between);
    var b := Run(b0, between);
    ReservedIsOpen(b);
    CommitKeeps(b, id);
    if Commit(b, id).1 == InsertResult.Stored {
      CommitFiles(b, id, key, sender, content);
      SentStays(Commit(b, id).0, later, id, key, sender, content);
    }
  }

  lemma SentStays(b: Buffer, later: seq<Op>, id: int, key: Key, sender: Bytes, content: Bytes)
    requires Valid(b) && SentAs(b, id, key, sender, content)
    ensures SentAs(Run(b, later), id, key, sender, content)
  {
    hide Valid, Run;
    StoredStaysLong(b, later, id);
    IndexedIsFiled(Run(b, later), id);
  }

  // ----- Received text -----

  /** The conversation a message of this kind belongs to. */
  predicate BelongsTo(d: Delivery, key: Key) {
    match d.message.kind
    case Private => key == PrivateChat(d.sender)
    case Group => d.message.groupId.Some? && key == GroupChat(d.message.groupId.value)
    case Broadcast => key == BroadcastChat
  }

  /** What is received is what is kept: a stored delivery stands in its conversation with the
      server's text, name and time, is unread, and is never changed by anything later. */
  lemma ReceivedTextIsKept(b: Buffer, d: Delivery, later: seq<Op>)
    requires Valid(b) && Receive(b, d).1 == InsertResult.Stored
    ensures var b' := Receive(b, d).0;
      && Valid(b') && d.message.id in b'.byId
      && var m := b'.byId[d.message.id];
      && BelongsTo(d, m.key) && Files(b', d.message.id, m) && m.arrival in b'.conversations[m.key].unread
      && m.id == d.message.id && m.sender == d.sender && m.content == d.message.content && !m.outgoing
      && m.senderId == Some(d.message.senderId) && m.createdAt == Some(d.message.createdAt)
      && Files(Run(b', later), d.message.id, m)
  {
    hide Valid, Run, Receive, Fresh, LowerBound, InsertAt;
    ReceiveIsAdd(b, d);
    ReceiveKeeps(b, d);
    IncomingIsFresh(b, d);
    var m := Incoming(d, b.nextArrival);
    AddFiles(if m.key in b.conversations then b else Open(b, m.key), m);
    StoredStaysLong(Receive(b, d).0, later, m.id);
    IndexedIsFiled(Run(Receive(b, d).0, later), m.id);
  }

  // ----- When an operation succeeds -----

  /** Room for `bytes` more, beside everything stored and reserved. */
  ghost predicate Fits(b: Buffer, bytes: nat) {
    StoredBytes(b) + b.reservedBytes + bytes <= MAX_TEXT
  }

  predicate PlaceFor(b: Buffer, key: Key) {
    key in b.conversations || |b.conversations| < MAX_CONVERSATIONS
  }

  function OpeningBytes(b: Buffer, key: Key): nat {
    if key in b.conversations then 0 else KeyBytes(key)
  }

  /** Within the bound a delivery is stored exactly when it can be read, is new, and there is a
      place, room for its text beside everything stored and reserved, and a number left; a
      known id is a duplicate exactly when it is the same message. */
  lemma ReceiveAnswers(b: Buffer, d: Delivery)
    requires Valid(b) && Bounded(b)
    ensures var r, known := Receive(b, d).1, d.message.id in b.byId;
      && (r == Conflict <==> !Readable(d) || (known && !SameIncoming(b.byId[d.message.id], d)))
      && (r == Duplicate <==> Readable(d) && known && SameIncoming(b.byId[d.message.id], d))
      && (r == InsertResult.Stored <==>
            && Readable(d) && !known && Occupied(b) < MAX_MESSAGES && PlaceFor(b, KeyOf(d).value)
            && Fits(b, TextBytes(KeyOf(d).value, d.sender, d.message.content) + OpeningBytes(b, KeyOf(d).value))
            && b.nextArrival != 0 && b.version != MAX_VERSION)
  {
    hide StoredBytes, SameIncoming, AddIncoming, KeyBytes, TextBytes, Readable, Valid, Minus64, Plus64;
    NoWrap(b);
  }

  /** A reservation is refused as a conflict exactly when there is one already; otherwise it is
      made exactly when there is a place and room. */
  lemma ReserveAnswers(b: Buffer, key: Key, sender: Bytes, content: Bytes)
    requires Valid(b) && Bounded(b)
    ensures var r := Reserve(b, key, sender, content).1;
      && (r == Conflict <==> b.reserved.Some?)
      && (r == InsertResult.Stored <==>
            && b.reserved == None && |b.byId| < MAX_MESSAGES && PlaceFor(b, key)
            && Fits(b, TextBytes(key, sender, content) + OpeningBytes(b, key)) && b.version != MAX_VERSION)
      && r != Duplicate
  {
    UnreservedBytes(b);
    hide StoredBytes, KeyBytes, TextBytes, Valid, Minus64, Plus64;
    NoWrap(b);
  }

  lemma UnreservedBytes(b: Buffer)
    requires Valid(b)
    ensures b.reserved == None ==> b.reservedBytes == 0
  {
    hide Indexed, Listed, UnreadOk, DistinctArrivals, BytesOk, CountsOk;
  }

  // ----- The version -----

  /** The version rises by one with every change and stays with every refusal, so a snapshot
      with the same version shows the same store. Once it is exhausted only cancelling and
      viewing change anything. */
  lemma VersionTellsChange(b: Buffer, op: Op)
    requires Valid(b)
    ensures var b' := Step(b, op);
      && (b.version < MAX_VERSION ==> b'.version == b.version + (if b' == b then 0 else 1))
      && (b.version == MAX_VERSION ==> b'.version == MAX_VERSION && (b' != b ==> op.CancelOp? || op.ViewOp?))
  {
    hide Indexed, Listed, UnreadOk, DistinctArrivals, BytesOk, CountsOk, Ensure, Receive, Reserve, Commit, Cancel, MarkViewed;
    match op
    case EnsureOp(key) => EnsureVersion(b, key);
    case ReceiveOp(d) => ReceiveVersion(b, d);
    case ReserveOp(key, sender, content) => ReserveVersion(b, key, sender, content);
    case CommitOp(id) => CommitVersion(b, id);
    case CancelOp => CancelVersion(b);
    case ViewOp(key, through) => ViewVersion(b, key, through);
  }

  /** One higher, or nothing has changed. */
  predicate OneUp(b: Buffer, b': Buffer) {
    if b' == b then true else b.version != MAX_VERSION && b'.version == b.version + 1
  }

  lemma EnsureVersion(b: Buffer, key: Key)
    ensures OneUp(b, Ensure(b, key).0)
  {
    hide Minus64, Plus64, KeyBytes;
  }

  lemma ReceiveVersion(b: Buffer, d: Delivery)
    ensures OneUp(b, Receive(b, d).0)
  {
    hide AddIncoming, Minus64, Plus64, TextBytes, KeyBytes;
  }

  lemma ReserveVersion(b: Buffer, key: Key, sender: Bytes, content: Bytes)
    ensures OneUp(b, Reserve(b, key, sender, content).0)
  {
    hide Minus64, Plus64, TextBytes, KeyBytes;
  }

  lemma CommitVersion(b: Buffer, id: int)
    requires b.reserved.Some? ==> b.reserved.value.key in b.conversations
    ensures OneUp(b, Commit(b, id).0)
  {
    hide AddOutgoing, Plus64;
  }

  lemma CancelVersion(b: Buffer)
    ensures var b' := Cancel(b);
      b'.version == if b.reserved == None || b.version == MAX_VERSION then b.version else b.version + 1
    ensures b.reserved == None ==> Cancel(b) == b
    ensures b.reserved.Some? ==> Cancel(b) != b
  {
    hide Minus64;
  }

  lemma ViewVersion(b: Buffer, key: Key, through: nat)
    ensures var (b', r) := MarkViewed(b, key, through);
      && (r == NothingToView <==> b' == b)
      && b'.version == (if r == Viewed then b.version + 1 else b.version)
      && (r == VersionExhausted ==> b.version == MAX_VERSION) && (r == Viewed ==> b.version != MAX_VERSION)
  {
    if MarkViewed(b, key, through).1 == VersionExhausted {
      var viewed := set a | a in b.conversations[key].unread && a <= through;
      var a :| a in viewed;
      assert a !in MarkViewed(b, key, through).0.conversations[key].unread;
    }
  }
}
