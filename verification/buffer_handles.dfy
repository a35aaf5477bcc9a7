/** Conversation handles: the number shown beside a conversation selects that conversation. */
module BufferHandles {
  import opened Prelude
  import opened Tables
  import T = Tables
  import opened BufferState
  import opened BufferInvariant
  import opened BufferRuns
  import opened Totals

  /** Handles are distinct numbers below the next one. */
  ghost predicate HandlesOk(b: Buffer) {
    && (forall key | key in b.conversations :: 1 <= b.conversations[key].handle < b.nextHandle)
    && (forall j, k | j in b.conversations && k in b.conversations && j != k ::
          b.conversations[j].handle != b.conversations[k].handle)
  }

  /** Reservations are made on existing conversations only. */
  predicate ReservesExisting(b: Buffer, op: Op) {
    op.ReserveOp? ==> op.key in b.conversations
  }

  /** Conversations of `b` keep their handles in `b'`. */
  predicate HandlesStay(b: Buffer, b': Buffer) {
    forall key | key in b.conversations :: key in b'.conversations && b'.conversations[key].handle == b.conversations[key].handle
  }

  /** Either nothing is opened, or one conversation is, under the next handle. */
  ghost predicate OpensAtMostOne(b: Buffer, b': Buffer) {
    && HandlesStay(b, b')
    && (|| (b'.conversations.Keys == b.conversations.Keys && b'.nextHandle == b.nextHandle)
        || (exists key :: key !in b.conversations && b'.conversations.Keys == b.conversations.Keys + {key}
              && b'.conversations[key].handle == b.nextHandle && b'.nextHandle == b.nextHandle + 1))
  }

  lemma OpeningKeepsHandles(b: Buffer, b': Buffer)
    requires HandlesOk(b) && OpensAtMostOne(b, b') && b.nextHandle >= 1
    ensures HandlesOk(b')
  {
  }

  lemma StepOpens(b: Buffer, op: Op)
    requires Valid(b) && !b.reservedCreated && ReservesExisting(b, op)
    ensures OpensAtMostOne(b, Step(b, op)) && !Step(b, op).reservedCreated
  {
    hide Indexed, Listed, DistinctArrivals, UnreadOk, BytesOk, OpensAtMostOne;
    match op
    case EnsureOp(key) => EnsureOpens(b, key);
    case ReceiveOp(d) => ReceiveOpens(b, d);
    case _ => OthersOpenNothing(b, op);
  }

  lemma EnsureOpens(b: Buffer, key: Key)
    requires !b.reservedCreated
    ensures OpensAtMostOne(b, Ensure(b, key).0) && !Ensure(b, key).0.reservedCreated
  {
    hide Minus64, Plus64;
    var b' := Ensure(b, key).0;
    assert b'.conversations.Keys == b.conversations.Keys || b'.conversations.Keys == b.conversations.Keys + {key};
  }

  lemma OthersOpenNothing(b: Buffer, op: Op)
    requires Valid(b) && !b.reservedCreated && ReservesExisting(b, op) && !op.EnsureOp? && !op.ReceiveOp?
    ensures OpensAtMostOne(b, Step(b, op)) && !Step(b, op).reservedCreated
  {
    hide Indexed, Listed, DistinctArrivals, UnreadOk, BytesOk, Minus64, Plus64, InsertAt, LowerBound;
    assert Step(b, op).conversations.Keys == b.conversations.Keys;
  }

  lemma ReceiveOpens(b: Buffer, d: Delivery)
    requires !b.reservedCreated
    ensures OpensAtMostOne(b, Receive(b, d).0) && !Receive(b, d).0.reservedCreated
  {
    hide Minus64, Plus64, InsertAt, LowerBound, ReceiveRefused;
    var b' := Receive(b, d).0;
    if b' != b {
      var key := KeyOf(d).value;
      assert b'.conversations.Keys == b.conversations.Keys + {key};
      assert key in b.conversations ==> b'.conversations.Keys == b.conversations.Keys;
    }
  }

  lemma {:induction false} RunHandles(b: Buffer, ops: seq<Op>)
    requires Valid(b) && HandlesOk(b) && !b.reservedCreated && Disciplined(b, ops, ReservesExisting)
    ensures HandlesOk(Run(b, ops)) && HandlesStay(b, Run(b, ops)) && !Run(b, ops).reservedCreated
    decreases |ops|
  {
    hide HandlesOk, Step;
    if ops != [] {
      StepKeeps(b, ops[0]);
      StepOpens(b, ops[0]);
      OpeningKeepsHandles(b, Step(b, ops[0]));
      hide Valid, OpensAtMostOne;
      RunHandles(Step(b, ops[0]), ops[1..]);
    }
  }

  /** The numbers 1..n. */
  function Numbers(n: nat): (s: set<int>)
    ensures forall i :: i in s <==> 1 <= i <= n
    ensures |s| == n
  {
    if n == 0 then {} else Numbers(n - 1) + {n as int}
  }

  function Handles(b: Buffer): set<int> {
    set key | key in b.conversations :: b.conversations[key].handle as int
  }

  lemma {:induction false} InjectiveImage(keys: set<Key>, m: map<Key, Conversation>)
    requires keys <= m.Keys
    requires forall j, k | j in keys && k in keys && j != k :: m[j].handle != m[k].handle
    ensures |set key | key in keys :: m[key].handle as int| == |keys|
    decreases keys
  {
    var image := set key | key in keys :: m[key].handle as int;
    if keys != {} {
      var x :| x in keys;
      InjectiveImage(keys - {x}, m);
      var rest := set key | key in keys - {x} :: m[key].handle as int;
      assert image == rest + {m[x].handle as int};
    }
  }

  lemma FullSubset<T>(a: set<T>, b: set<T>)
    requires a <= b && |a| == |b|
    ensures a == b
  {
    if a != b {
      var x :| x in b && x !in a;
      SubsetSize(a, b - {x});
    }
  }

  /** Distinct handles below the next one are exactly 1..n. */
  lemma HandlesAreNumbers(b: Buffer)
    requires CountsOk(b) && HandlesOk(b)
    ensures Handles(b) == Numbers(|b.conversations|)
  {
    InjectiveImage(b.conversations.Keys, b.conversations);
    assert Handles(b) == set key | key in b.conversations.Keys :: b.conversations[key].handle as int;
    FullSubset(Handles(b), Numbers(|b.conversations|));
  }

  /** Some conversation has number `n`. */
  predicate Numbered(b: Buffer, n: int) {
    exists key :: key in b.conversations && b.conversations[key].handle == n
  }

  /** While reservations are made on existing conversations only, handles are a bijection onto
      1..n with n the number of conversations, and none ever changes: a number noted now
      selects the same conversation after any further run. */
  lemma HandlesSelectConversations(ops: seq<Op>, later: seq<Op>)
    requires DisciplinedRun(ops, ReservesExisting) && Disciplined(Reach(ops), later, ReservesExisting)
    ensures var b, b' := Reach(ops), Run(Reach(ops), later);
      && b.nextHandle == |b.conversations| + 1
      && (forall n | 1 <= n <= |b.conversations| :: Numbered(b, n))
      && (forall key | key in b.conversations :: 1 <= b.conversations[key].handle <= |b.conversations|)
      && (forall key, other | key in b.conversations && other in b'.conversations
            && b'.conversations[other].handle == b.conversations[key].handle :: other == key)
  {
    NewIsValid();
    RunHandles(NEW_BUFFER, ops);
    var b := Reach(ops);
    RunHandles(b, later);
    HandlesAreNumbers(b);
    hide Valid, Disciplined, Run, Reach;
    forall n | 1 <= n <= |b.conversations|
      ensures Numbered(b, n)
    {
      SomeHasHandle(b, n);
    }
    hide Numbered, Handles, Numbers;
  }

  /** The count equation needs no discipline. */
  lemma HandleCountAlways(ops: seq<Op>)
    ensures Reach(ops).nextHandle == |Reach(ops).conversations| + 1
  {
    hide Run, Indexed, Listed, DistinctArrivals, UnreadOk, BytesOk;
    assert Valid(Reach(ops));
  }

  /** Whether cancelling removes the conversation the reservation opened. */
  predicate CancelErases(b: Buffer) {
    && b.reserved.Some? && b.reservedCreated && b.reserved.value.key in b.conversations
    && b.conversations[b.reserved.value.key].messages == []
  }

  /** What a cancel that erases leaves of the handles. */
  lemma ErasingCancel(b: Buffer)
    requires CancelErases(b) && 1 <= b.nextHandle <= MAX_CONVERSATIONS + 1
    ensures Cancel(b).nextHandle == b.nextHandle - 1
    ensures Cancel(b).conversations == b.conversations - {b.reserved.value.key}
  {
  }

  lemma PlainCancel(b: Buffer)
    requires !CancelErases(b)
    ensures Cancel(b).nextHandle == b.nextHandle && Cancel(b).conversations == b.conversations
  {
  }

  /** Cancelling keeps handles distinct numbers below the next one exactly when it removes no
      conversation or removes the one opened last. */
  lemma CancelKeepsHandlesExactlyWhen(b: Buffer)
    requires Valid(b) && HandlesOk(b)
    ensures HandlesOk(Cancel(b)) <==>
      (CancelErases(b) ==> b.conversations[b.reserved.value.key].handle == b.nextHandle - 1)
  {
    hide Valid, Cancel, HandlesOk;
    CountsOf(b);
    if CancelErases(b) {
      ErasingCancel(b);
      HandlesWithout(b, Cancel(b), b.reserved.value.key);
    } else {
      PlainCancel(b);
      assert HandlesOk(Cancel(b)) by { SameHandles(b, Cancel(b)); }
    }
  }

  lemma CountsOf(b: Buffer)
    requires Valid(b)
    ensures CountsOk(b)
  {
  }

  lemma SameHandles(b: Buffer, b': Buffer)
    requires HandlesOk(b) && b'.nextHandle == b.nextHandle && b'.conversations == b.conversations
    ensures HandlesOk(b')
  {
  }

  /** A conversation can go, together with one handle, exactly when its handle is the last. */
  lemma HandlesWithout(b: Buffer, b': Buffer, gone: Key)
    requires CountsOk(b) && HandlesOk(b) && gone in b.conversations
    requires b'.nextHandle == b.nextHandle - 1 && b'.conversations == b.conversations - {gone}
    ensures HandlesOk(b') <==> b.conversations[gone].handle == b.nextHandle - 1
  {
    hide HandlesOk;
    if b.conversations[gone].handle == b.nextHandle - 1 {
      LastMayGo(b, b', gone);
    } else {
      HandlesAreNumbers(b);
      OnlyLastMayGo(b, b', gone);
    }
  }

  lemma LastMayGo(b: Buffer, b': Buffer, gone: Key)
    requires HandlesOk(b) && gone in b.conversations && b.conversations[gone].handle == b.nextHandle - 1
    requires b'.nextHandle == b.nextHandle - 1 && b'.conversations == b.conversations - {gone}
    ensures HandlesOk(b')
  {
    assert forall key | key in b'.conversations :: key != gone && b'.conversations[key] == b.conversations[key];
  }

  lemma OnlyLastMayGo(b: Buffer, b': Buffer, gone: Key)
    requires CountsOk(b) && Handles(b) == Numbers(|b.conversations|)
    requires gone in b.conversations && b.conversations[gone].handle != b.nextHandle - 1
    requires b'.nextHandle == b.nextHandle - 1 && b'.conversations == b.conversations - {gone}
    ensures !HandlesOk(b')
  {
    hide Handles, Numbers;
    var last := b.nextHandle - 1;
    assert |b.conversations| >= 1 by { assert |b.conversations.Keys| == |b.conversations| && gone in b.conversations.Keys; }
    SomeHasHandle(b, last);
    var key :| key in b.conversations && b.conversations[key].handle == last;
    assert key in b'.conversations && b'.conversations[key].handle == last;
  }

  lemma SomeHasHandle(b: Buffer, n: int)
    requires Handles(b) == Numbers(|b.conversations|) && 1 <= n <= |b.conversations|
    ensures Numbered(b, n)
  {
    assert n in Numbers(|b.conversations|);
    assert n in Handles(b);
  }

  const ALICE: Bytes := [0x61]
  const BOB: Bytes := [0x62]
  const CAROL: Bytes := [0x63]

  function From(name: Bytes, id: int): Delivery {
    Delivery(T.Stored(id, Private, 1, None, [], 0), name)
  }

  /** The buffer after Alice's conversation is opened by a reservation and Bob's by a message. */
  function TwoOpened(): Buffer {
    Receive(Reserve(NEW_BUFFER, PrivateChat(ALICE), [], []).0, From(BOB, 1)).0
  }

  lemma FirstReserved()
    ensures var b := Reserve(NEW_BUFFER, PrivateChat(ALICE), [], []).0;
      && b.conversations == map[PrivateChat(ALICE) := Conversation(1, [], {})] && b.nextHandle == 2 && b.retained == 1
      && b.reservedBytes == 1 && b.byId == map[] && b.version == 1 && b.nextArrival == 1 && b.reservedCreated
      && b.reserved == Some(Message(0, PrivateChat(ALICE), [], None, [], None, true, 0))
  {
  }

  lemma TwoOpenedIs()
    ensures var b := TwoOpened();
      && b.conversations.Keys == {PrivateChat(ALICE), PrivateChat(BOB)} && b.nextHandle == 3 && b.retained == 4
      && b.conversations[PrivateChat(BOB)].handle == 2 && b.conversations[PrivateChat(ALICE)] == Conversation(1, [], {})
      && b.reserved.Some? && b.reserved.value.key == PrivateChat(ALICE) && b.reservedCreated
      && b.byId.Keys == {1} && b.version == 2 && b.nextArrival == 2
  {
    hide Reserve, Receive;
    FirstReserved();
    SecondOpens(Reserve(NEW_BUFFER, PrivateChat(ALICE), [], []).0);
  }

  /** What Bob's message makes of a store that holds Alice's reservation. */
  lemma SecondOpens(b: Buffer)
    requires b.conversations == map[PrivateChat(ALICE) := Conversation(1, [], {})] && b.nextHandle == 2 && b.retained == 1
    requires b.reservedBytes == 1 && b.byId == map[] && b.version == 1 && b.nextArrival == 1
    ensures var b' := Receive(b, From(BOB, 1)).0;
      && b'.conversations.Keys == {PrivateChat(ALICE), PrivateChat(BOB)} && b'.nextHandle == 3 && b'.retained == 4
      && b'.conversations[PrivateChat(BOB)].handle == 2 && b'.conversations[PrivateChat(ALICE)] == Conversation(1, [], {})
      && b'.reserved == b.reserved && b'.reservedCreated == b.reservedCreated
      && b'.byId.Keys == {1} && b'.version == 2 && b'.nextArrival == 2
  {
    hide InsertAt, LowerBound, Receive;
    SecondFits(b);
    ReceiveIsAdd(b, From(BOB, 1));
  }

  lemma SecondFits(b: Buffer)
    requires |b.conversations| == 1 && PrivateChat(BOB) !in b.conversations && b.retained == 1
    requires b.reservedBytes == 1 && b.byId == map[] && b.version == 1 && b.nextArrival == 1
    ensures Receive(b, From(BOB, 1)).1 == InsertResult.Stored
  {
    hide AddIncoming;
    var d := From(BOB, 1);
    assert Readable(d) && KeyOf(d) == Some(PrivateChat(BOB));
    assert TextBytes(PrivateChat(BOB), d.sender, d.message.content) == 2;
    assert !ReceiveRefused(b, PrivateChat(BOB), 3);
  }

  /** After the cancel, a message from Carol takes the number Bob's conversation has. */
  lemma CancelThenOpen(b: Buffer)
    requires b.conversations.Keys == {PrivateChat(ALICE), PrivateChat(BOB)} && b.nextHandle == 3 && b.retained == 4
    requires b.conversations[PrivateChat(BOB)].handle == 2 && b.conversations[PrivateChat(ALICE)] == Conversation(1, [], {})
    requires b.reserved.Some? && b.reserved.value.key == PrivateChat(ALICE) && b.reservedCreated
    requires b.byId.Keys == {1} && b.version == 2 && b.nextArrival == 2
    ensures var b' := Receive(Cancel(b), From(CAROL, 2)).0;
      && PrivateChat(BOB) in b'.conversations && PrivateChat(CAROL) in b'.conversations
      && b'.conversations[PrivateChat(BOB)].handle == b'.conversations[PrivateChat(CAROL)].handle
  {
    hide InsertAt, LowerBound;
    ErasingCancel(b);
    var b3 := Cancel(b);
    assert b3.conversations.Keys == {PrivateChat(BOB)} && b3.retained == 3 && b3.reservedBytes == 0 && b3.version == 3;
    hide Cancel;
    assert |b3.conversations.Keys| == 1 && |b3.byId.Keys| == 1;
    assert |b3.conversations| == 1 && |b3.byId| == 1;
  }

  /** A conversation opened by its own reservation, one opened by a message meanwhile, a
      cancel, and another message: two conversations end up with the same number. */
  lemma HandlesNeedTheDiscipline()
    ensures var b := Reach([ReserveOp(PrivateChat(ALICE), [], []), ReceiveOp(From(BOB, 1)), CancelOp, ReceiveOp(From(CAROL, 2))]);
      && PrivateChat(BOB) in b.conversations && PrivateChat(CAROL) in b.conversations
      && b.conversations[PrivateChat(BOB)].handle == b.conversations[PrivateChat(CAROL)].handle
  {
    hide Valid, Reserve, Receive, Cancel;
    TwoOpenedIs();
    CancelThenOpen(TwoOpened());
    var o1, o2, o3, o4 := ReserveOp(PrivateChat(ALICE), [], []), ReceiveOp(From(BOB, 1)), CancelOp, ReceiveOp(From(CAROL, 2));
    NewIsValid();
    StepKeeps(NEW_BUFFER, o1);
    var b1 := Step(NEW_BUFFER, o1);
    StepKeeps(b1, o2);
    var b2 := Step(b1, o2);
    StepKeeps(b2, o3);
    var b3 := Step(b2, o3);
    StepKeeps(b3, o4);
    var ops := [o1, o2, o3, o4];
    assert ops[1..] == [o2, o3, o4] && [o2, o3, o4][1..] == [o3, o4] && [o3, o4][1..] == [o4] && [o4][1..] == [];
    assert Run(b3, [o4]) == Step(b3, o4);
    assert Run(b2, [o3, o4]) == Step(b3, o4);
    assert Run(b1, [o2, o3, o4]) == Step(b3, o4);
  }
}
