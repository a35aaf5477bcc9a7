/** What holds of the session store over whole runs, and which caller discipline each
    guarantee needs. */
module BufferRuns {
  import opened Prelude
  import opened Tables
  import opened BufferState
  import opened BufferInvariant
  import opened Totals

  datatype Op =
    | EnsureOp(key: Key)
    | ReceiveOp(delivery: Delivery)
    | ReserveOp(key: Key, sender: Bytes, content: Bytes)
    | CommitOp(id: int)
    | CancelOp
    | ViewOp(key: Key, through: nat)

  function Step(b: Buffer, op: Op): Buffer
    requires Valid(b)
  {
    match op
    case EnsureOp(key) => Ensure(b, key).0
    case ReceiveOp(d) => Receive(b, d).0
    case ReserveOp(key, sender, content) => Reserve(b, key, sender, content).0
    case CommitOp(id) => Commit(b, id).0
    case CancelOp => Cancel(b)
    case ViewOp(key, through) => MarkViewed(b, key, through).0
  }

  lemma StepKeeps(b: Buffer, op: Op)
    requires Valid(b)
    ensures Valid(Step(b, op))
  {
    hide Indexed, Listed, DistinctArrivals, UnreadOk, BytesOk, CountsOk, Ensure, Receive, Reserve, Commit, Cancel, MarkViewed;
    match op
    case EnsureOp(key) => EnsureKeeps(b, key);
    case ReceiveOp(d) => ReceiveKeeps(b, d);
    case ReserveOp(key, sender, content) => ReserveKeeps(b, key, sender, content);
    case CommitOp(id) => CommitKeeps(b, id);
    case CancelOp => CancelKeeps(b);
    case ViewOp(key, through) => MarkViewedKeeps(b, key, through);
  }

  function Run(b: Buffer, ops: seq<Op>): (b': Buffer)
    requires Valid(b)
    ensures Valid(b')
    decreases |ops|
  {
    if ops == [] then b
    else
      StepKeeps(b, ops[0]);
      Run(Step(b, ops[0]), ops[1..])
  }

  lemma NewIsValid()
    ensures Valid(NEW_BUFFER)
  {
  }

  /** A buffer some sequence of operations leads to. */
  function Reach(ops: seq<Op>): (b: Buffer)
    ensures Valid(b)
  {
    NewIsValid();
    Run(NEW_BUFFER, ops)
  }

  /** In every reachable state the id index is the disjoint union of the conversation lists. */
  lemma IndexIsTheUnionOfTheLists(ops: seq<Op>, id: int, m: Message)
    ensures var b := Reach(ops);
      && (id in b.byId && b.byId[id] == m
          <==> m.id == id && m.key in b.conversations && m in b.conversations[m.key].messages)
      && forall key | key in b.conversations && m in b.conversations[key].messages :: key == m.key
  {
    hide Run;
    var b := Reach(ops);
    if id in b.byId {
      assert IndexedMessage(b, id, b.byId[id]);
    }
    forall key | key in b.conversations && m in b.conversations[key].messages
      ensures key == m.key && m.id in b.byId && b.byId[m.id] == m
    {
      assert ListOk(b, key, b.conversations[key].messages);
    }
  }

  // ----- Room -----

  /** Stored and reserved text together stay within the limit. */
  ghost predicate Bounded(b: Buffer) {
    StoredBytes(b) + b.reservedBytes <= MAX_TEXT
  }

  /** Within the bound the counter is the exact sum and no capacity subtraction wraps. */
  lemma NoWrap(b: Buffer)
    requires Valid(b) && Bounded(b)
    ensures b.retained == StoredBytes(b)
    ensures Minus64(MAX_TEXT, b.retained) == MAX_TEXT - b.retained
    ensures Minus64(Minus64(MAX_TEXT, b.retained), b.reservedBytes) == MAX_TEXT - b.retained - b.reservedBytes
  {
    hide Indexed, Listed, UnreadOk, DistinctArrivals, ReservationOk, CountsOk, StoredBytes;
  }

  lemma SameStored(b: Buffer, b': Buffer)
    requires b'.conversations.Keys == b.conversations.Keys && b'.byId == b.byId
    ensures StoredBytes(b') == StoredBytes(b)
  {
  }

  /** An operation that opens no conversation beside a reservation. */
  predicate EnsuresUnreserved(b: Buffer, op: Op) {
    op.EnsureOp? ==> b.reserved == None || op.key in b.conversations
  }

  /** The key is new and there is a place, a handle and a version left for it. */
  predicate CanOpen(b: Buffer, key: Key) {
    && key !in b.conversations && |b.conversations| < MAX_CONVERSATIONS
    && 0 < b.nextHandle <= MAX_CONVERSATIONS && b.version != MAX_VERSION
  }

  /** Ensuring a conversation breaks the bound exactly when it can be opened and its key fits
      beside the retained text, which is all the code looks at, but not beside the reserved
      text too. */
  lemma EnsureKeepsTheBoundExactlyWhen(b: Buffer, key: Key)
    requires Valid(b) && Bounded(b)
    ensures Bounded(Ensure(b, key).0) <==>
      (CanOpen(b, key) && KeyBytes(key) <= MAX_TEXT - b.retained ==>
         KeyBytes(key) <= MAX_TEXT - b.retained - b.reservedBytes)
  {
    NoWrap(b);
    assert Ensure(b, key).1 == InsertResult.Stored <==> CanOpen(b, key) && KeyBytes(key) <= MAX_TEXT - b.retained;
    if Ensure(b, key).1 == InsertResult.Stored {
      EnsureIsOpen(b, key);
      OpenBytes(b, key);
      SameStored(Open(b, key), Ensure(b, key).0);
    }
  }

  lemma ReceiveBounded(b: Buffer, d: Delivery)
    requires Valid(b) && Bounded(b)
    ensures Bounded(Receive(b, d).0)
  {
    hide Receive, StoredBytes, Indexed, Listed, UnreadOk, DistinctArrivals, Add, Fresh, Incoming, BytesOk, MessageBytes, KeyBytes;
    if Receive(b, d).1 == InsertResult.Stored {
      NoWrap(b);
      ReceiveIsAdd(b, d);
      ReceiveFits(b, d);
      IncomingIsFresh(b, d);
      var m := Incoming(d, b.nextArrival);
      if m.key !in b.conversations {
        OpenBytes(b, m.key);
        OpenKeeps(b, m.key);
      }
      var b1 := if m.key in b.conversations then b else Open(b, m.key);
      AddBytes(b1, m);
      AddReserves(b1, m);
    } else {
      ReceiveOtherwise(b, d);
    }
  }

  lemma AddReserves(b: Buffer, m: Message)
    requires m.key in b.conversations
    ensures Add(b, m).reservedBytes == b.reservedBytes
  {
    hide AddIncoming, AddOutgoing, Plus64, MessageBytes;
  }

  /** A stored delivery fits beside the retained and the reserved text. */
  lemma ReceiveFits(b: Buffer, d: Delivery)
    requires Receive(b, d).1 == InsertResult.Stored && Readable(d)
    ensures var m := Incoming(d, b.nextArrival);
      MessageBytes(m) + (if m.key in b.conversations then 0 else KeyBytes(m.key))
        <= Minus64(Minus64(MAX_TEXT, b.retained), b.reservedBytes)
  {
    hide AddIncoming, Minus64, Plus64, KeyBytes;
  }

  lemma ReserveBounded(b: Buffer, key: Key, sender: Bytes, content: Bytes)
    requires Valid(b) && Bounded(b)
    ensures Bounded(Reserve(b, key, sender, content).0)
  {
    NoWrap(b);
    var b' := Reserve(b, key, sender, content).0;
    hide StoredBytes, Indexed, Listed, UnreadOk, DistinctArrivals;
    if key in b.conversations {
      SameStored(b, b');
    } else if b' != b {
      OpenBytes(b, key);
      SameStored(Open(b, key), b');
    }
  }

  lemma CommitBounded(b: Buffer, id: int)
    requires Valid(b) && Bounded(b)
    ensures Bounded(Commit(b, id).0)
    ensures Commit(b, id).1 == InsertResult.Stored ==> StoredBytes(Commit(b, id).0) == StoredBytes(b) + b.reservedBytes
  {
    if Commit(b, id).1 == InsertResult.Stored {
      CommitIsAdd(b, id);
      UnreserveKeeps(b);
      var m := b.reserved.value.(id := id, arrival := b.nextArrival);
      assert MessageBytes(m) == b.reservedBytes;
      hide StoredBytes, Indexed, Listed, UnreadOk, DistinctArrivals, Commit, MessageBytes;
      SameStored(b, Unreserve(b));
      AddBytes(Unreserve(b), m);
    }
  }

  lemma CancelBounded(b: Buffer)
    requires Valid(b) && Bounded(b)
    ensures Bounded(Cancel(b))
  {
    if b.reserved.Some? {
      var key := b.reserved.value.key;
      if b.reservedCreated && key in b.conversations && b.conversations[key].messages == [] {
        assert Cancel(b).conversations.Keys == b.conversations.Keys - {key};
        TotalRemove(b.conversations.Keys, KeyBytes, key);
      } else {
        SameStored(b, Cancel(b));
      }
    }
  }

  lemma StepBounded(b: Buffer, op: Op)
    requires Valid(b) && Bounded(b) && EnsuresUnreserved(b, op)
    ensures Bounded(Step(b, op))
  {
    hide Valid, Bounded, Ensure, Receive, Reserve, Commit, Cancel, MarkViewed;
    match op
    case EnsureOp(key) => EnsureBounded(b, key);
    case ReceiveOp(d) => ReceiveBounded(b, d);
    case ReserveOp(key, sender, content) => ReserveBounded(b, key, sender, content);
    case CommitOp(id) => CommitBounded(b, id);
    case CancelOp => CancelBounded(b);
    case ViewOp(key, through) => ViewBounded(b, key, through);
  }

  lemma EnsureBounded(b: Buffer, key: Key)
    requires Valid(b) && Bounded(b) && (b.reserved == None || key in b.conversations)
    ensures Bounded(Ensure(b, key).0)
  {
    hide Indexed, Listed, UnreadOk, DistinctArrivals, BytesOk, CountsOk, StoredBytes, Ensure;
    EnsureKeepsTheBoundExactlyWhen(b, key);
  }

  lemma ViewBounded(b: Buffer, key: Key, through: nat)
    requires Bounded(b)
    ensures Bounded(MarkViewed(b, key, through).0)
  {
    hide StoredBytes;
    var b' := MarkViewed(b, key, through).0;
    assert b'.conversations.Keys == b.conversations.Keys;
    SameStored(b, b');
  }

  /** Every operation of the run respects the discipline in the state it meets. */
  predicate Disciplined(b: Buffer, ops: seq<Op>, allowed: (Buffer, Op) -> bool)
    requires Valid(b)
    decreases |ops|
  {
    if ops == [] then true
    else
      StepKeeps(b, ops[0]);
      allowed(b, ops[0]) && Disciplined(Step(b, ops[0]), ops[1..], allowed)
  }

  predicate DisciplinedRun(ops: seq<Op>, allowed: (Buffer, Op) -> bool) {
    NewIsValid();
    Disciplined(NEW_BUFFER, ops, allowed)
  }

  lemma {:induction false} RunBounded(b: Buffer, ops: seq<Op>)
    requires Valid(b) && Bounded(b) && Disciplined(b, ops, EnsuresUnreserved)
    ensures Bounded(Run(b, ops))
    decreases |ops|
  {
    hide Valid, Bounded, Step;
    if ops != [] {
      StepKeeps(b, ops[0]);
      StepBounded(b, ops[0]);
      RunBounded(Step(b, ops[0]), ops[1..]);
    }
  }

  /** While no conversation is ensured beside a reservation, text and messages stay within
      their limits, reserved ones included, the byte counter is exact, and what was reserved
      can be committed: a commit fails for a bad or known id or an exhausted counter only. */
  lemma ReservationsAreGuaranteed(ops: seq<Op>, id: int)
    requires DisciplinedRun(ops, EnsuresUnreserved)
    ensures var b := Reach(ops);
      && b.retained == StoredBytes(b) && b.retained + b.reservedBytes <= MAX_TEXT
      && Occupied(b) <= MAX_MESSAGES && |b.conversations| <= MAX_CONVERSATIONS
      && (b.reserved.Some? && 0 < id && id !in b.byId && b.nextArrival != 0 && b.version != MAX_VERSION ==>
            var (b', r) := Commit(b, id);
            r == InsertResult.Stored && b'.retained == b.retained + b.reservedBytes <= MAX_TEXT
            && b'.reserved == None && |b'.byId| == |b.byId| + 1 <= MAX_MESSAGES)
  {
    NewIsValid();
    var b := Reach(ops);
    RunBounded(NEW_BUFFER, ops);
    NoWrap(b);
    hide Run, StoredBytes, Indexed, Listed, UnreadOk, DistinctArrivals, BytesOk, AddOutgoing;
    if b.reserved.Some? && 0 < id && id !in b.byId && b.nextArrival != 0 && b.version != MAX_VERSION {
      CommitBounded(b, id);
      CommitKeeps(b, id);
      NoWrap(Commit(b, id).0);
    }
  }
}
