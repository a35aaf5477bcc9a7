/** Read marks: viewing what a snapshot showed marks exactly what it showed, whatever arrived
    in the meantime. And the store seen through its index: the client's storing step. */
module BufferMarks {
  import opened Prelude
  import opened Tables
  import opened BufferState
  import opened BufferInvariant
  import opened BufferRuns

  function Listing(b: Buffer, key: Key): seq<Message> {
    if key in b.conversations then b.conversations[key].messages else []
  }

  function Unread(b: Buffer, key: Key): set<nat> {
    if key in b.conversations then b.conversations[key].unread else {}
  }

  /** The arrivals of incoming messages of `key` that `before` did not have. */
  function ArrivedSince(before: Buffer, b: Buffer, key: Key): set<nat> {
    set m | m in Listing(b, key) && !m.outgoing && m.id !in before.byId :: m.arrival
  }

  /** Nothing stored in `b0` has changed in `b`, and what is new arrived later. */
  ghost predicate IndexFollows(b0: Buffer, b: Buffer) {
    && ArrivalLimit(b0) <= ArrivalLimit(b)
    && (forall id | id in b0.byId :: id in b.byId && b.byId[id] == b0.byId[id])
    && (forall id | id in b.byId && id !in b0.byId :: ArrivalLimit(b0) <= b.byId[id].arrival)
  }

  /** How `b` follows `b0`: nothing stored changes, what is new arrived later, and every new
      incoming message of `key` is unread. */
  ghost predicate Follows(b0: Buffer, b: Buffer, key: Key) {
    Valid(b0) && Valid(b) && IndexFollows(b0, b) && ArrivedSince(b0, b, key) <= Unread(b, key)
  }

  lemma FollowsItself(b: Buffer, key: Key)
    requires Valid(b)
    ensures Follows(b, b, key)
  {
    hide Valid;
    assert ArrivedSince(b, b, key) == {} by {
      forall m | m in Listing(b, key)
        ensures m.id in b.byId
      {
        ListedIsIndexed(b, key, m);
      }
    }
  }

  lemma ListedIsIndexed(b: Buffer, key: Key, m: Message)
    requires Valid(b) && m in Listing(b, key)
    ensures m.key == key && m.id in b.byId && b.byId[m.id] == m
  {
    assert ListOk(b, key, b.conversations[key].messages);
  }

  /** An operation that stores nothing and marks nothing of `key`. */
  predicate Untouched(b: Buffer, b': Buffer, key: Key) {
    b'.byId == b.byId && b'.nextArrival == b.nextArrival && Listing(b', key) == Listing(b, key) && Unread(b', key) == Unread(b, key)
  }

  lemma UntouchedFollows(b0: Buffer, b: Buffer, b': Buffer, key: Key)
    requires Follows(b0, b, key) && Untouched(b, b', key) && Valid(b')
    ensures Follows(b0, b', key)
  {
    hide Valid;
    assert ArrivedSince(b0, b', key) == ArrivedSince(b0, b, key);
  }

  /** One message joins the index, under the next arrival. */
  ghost predicate JoinedIndex(b: Buffer, b': Buffer, m: Message) {
    && m.id !in b.byId && b'.byId == b.byId[m.id := m] && m.arrival == b.nextArrival && b.nextArrival != 0
    && b'.nextArrival == Plus64(b.nextArrival, 1)
  }

  /** It joins its conversation's list; an incoming one is unread. */
  ghost predicate JoinedLists(b: Buffer, b': Buffer, m: Message) {
    && (forall key :: Unread(b', key) == Unread(b, key) + (if key == m.key && !m.outgoing then {m.arrival} else {}))
    && (forall key, x :: x in Listing(b', key) <==> x in Listing(b, key) || (key == m.key && x == m))
  }

  lemma JoinedSince(b0: Buffer, b: Buffer, b': Buffer, key: Key, m: Message)
    requires JoinedLists(b, b', m) && ArrivedSince(b0, b, key) <= Unread(b, key)
    ensures ArrivedSince(b0, b', key) <= Unread(b', key)
  {
    hide Listing, Unread;
    forall a | a in ArrivedSince(b0, b', key)
      ensures a in Unread(b', key)
    {
      var x :| x in Listing(b', key) && !x.outgoing && x.id !in b0.byId && x.arrival == a;
      if x in Listing(b, key) {
        assert a in ArrivedSince(b0, b, key);
      }
    }
  }

  lemma JoinedIndexFollows(b0: Buffer, b: Buffer, b': Buffer, m: Message)
    requires IndexFollows(b0, b) && JoinedIndex(b, b', m) && b.nextArrival < TWO_64
    ensures IndexFollows(b0, b')
  {
  }

  lemma JoinedFollows(b0: Buffer, b: Buffer, b': Buffer, key: Key, m: Message)
    requires Follows(b0, b, key) && JoinedIndex(b, b', m) && JoinedLists(b, b', m) && Valid(b')
    ensures Follows(b0, b', key)
  {
    assert b.nextArrival < TWO_64;
    hide Valid, JoinedLists, JoinedIndex, ArrivedSince, Unread;
    JoinedSince(b0, b, b', key, m);
    JoinedIndexFollows(b0, b, b', m);
  }

  lemma AddJoins(b: Buffer, m: Message)
    requires Valid(b) && Fresh(b, m)
    ensures JoinedIndex(b, Add(b, m), m) && JoinedLists(b, Add(b, m), m)
  {
    var c := b.conversations[m.key];
    assert ListOk(b, m.key, c.messages);
    InsertedAt(c.messages, m);
    hide Valid, LowerBound, InsertAt, Sorted;
    AddLists(b, m);
    hide JoinedLists;
  }

  lemma AddLists(b: Buffer, m: Message)
    requires m.key in b.conversations
    requires var c := b.conversations[m.key];
      forall x :: x in InsertAt(c.messages, LowerBound(c.messages, m.id), m) <==> x in c.messages || x == m
    ensures JoinedLists(b, Add(b, m), m)
  {
    hide LowerBound, InsertAt, Plus64;
    var b', c := Add(b, m), b.conversations[m.key];
    forall key
      ensures Unread(b', key) == Unread(b, key) + (if key == m.key && !m.outgoing then {m.arrival} else {})
      ensures forall x :: x in Listing(b', key) <==> x in Listing(b, key) || (key == m.key && x == m)
    {
    }
  }

  lemma OpenFollows(b0: Buffer, b: Buffer, other: Key, key: Key)
    requires Follows(b0, b, key) && other !in b.conversations && |b.conversations| < MAX_CONVERSATIONS
    ensures Follows(b0, Open(b, other), key) && Valid(Open(b, other))
  {
    hide Valid, Follows, Plus64;
    FollowsValid(b0, b, key);
    OpenKeeps(b, other);
    UntouchedFollows(b0, b, Open(b, other), key);
  }

  lemma AddFollows(b0: Buffer, b: Buffer, m: Message, key: Key)
    requires Follows(b0, b, key) && Fresh(b, m) && Occupied(b) < MAX_MESSAGES && b.version < MAX_VERSION
    ensures Follows(b0, Add(b, m), key)
  {
    FollowsValid(b0, b, key);
    hide Valid, Follows, Add, Fresh, JoinedIndex, JoinedLists;
    AddKeeps(b, m);
    AddJoins(b, m);
    JoinedFollows(b0, b, Add(b, m), key, m);
  }

  lemma ReceiveFollows(b0: Buffer, b: Buffer, d: Delivery, key: Key)
    requires Follows(b0, b, key)
    ensures Follows(b0, Receive(b, d).0, key)
  {
    hide Follows, Receive, Add, Fresh, Incoming, Plus64;
    if Receive(b, d).1 == InsertResult.Stored {
      ReceiveIsAdd(b, d);
      IncomingIsFresh(b, d);
      assert b.version < TWO_64 by { FollowsValid(b0, b, key); }
      hide Valid;
      var m := Incoming(d, b.nextArrival);
      if m.key !in b.conversations {
        OpenFollows(b0, b, m.key, key);
      }
      AddFollows(b0, if m.key in b.conversations then b else Open(b, m.key), m, key);
    } else {
      ReceiveOtherwise(b, d);
    }
  }

  lemma FollowsValid(b0: Buffer, b: Buffer, key: Key)
    requires Follows(b0, b, key)
    ensures Valid(b0) && Valid(b)
  {
  }

  lemma CommitFollows(b0: Buffer, b: Buffer, id: int, key: Key)
    requires Follows(b0, b, key)
    ensures Follows(b0, Commit(b, id).0, key)
  {
    hide Valid, Follows, Commit, Add, Fresh, JoinedIndex, JoinedLists;
    FollowsValid(b0, b, key);
    CommitKeeps(b, id);
    ReservedIsOpen(b);
    if Commit(b, id).1 == InsertResult.Stored {
      CommitIsAdd(b, id);
      UnreserveKeeps(b);
      var m := b.reserved.value.(id := id, arrival := b.nextArrival);
      UntouchedFollows(b0, b, Unreserve(b), key);
      AddJoins(Unreserve(b), m);
      JoinedFollows(b0, Unreserve(b), Commit(b, id).0, key, m);
    } else {
      CommitOtherwise(b, id);
    }
  }

  lemma CancelFollows(b0: Buffer, b: Buffer, key: Key)
    requires Follows(b0, b, key)
    ensures Follows(b0, Cancel(b), key)
  {
    FollowsValid(b0, b, key);
    CancelKeeps(b);
    assert Listing(Cancel(b), key) == Listing(b, key);
    assert Untouched(b, Cancel(b), key) by { CancelUntouched(b, key); }
    hide Valid, Follows, Cancel;
    UntouchedFollows(b0, b, Cancel(b), key);
  }

  lemma CancelUntouched(b: Buffer, key: Key)
    requires Valid(b)
    ensures Untouched(b, Cancel(b), key)
  {
    hide Indexed, Listed, DistinctArrivals, BytesOk, CountsOk, IncomingArrival;
    if key in b.conversations {
      NothingUnread(b.conversations[key]);
    }
  }

  lemma NothingUnread(c: Conversation)
    ensures c.messages == [] && (forall a | a in c.unread :: IncomingArrival(c, a)) ==> c.unread == {}
  {
  }

  /** Every operation but viewing the conversation itself keeps the relation to the snapshot. */
  lemma StepFollows(b0: Buffer, b: Buffer, op: Op, key: Key)
    requires Follows(b0, b, key) && !(op.ViewOp? && op.key == key)
    ensures Follows(b0, Step(b, op), key)
  {
    FollowsValid(b0, b, key);
    hide Valid, Follows, Receive, Cancel, Commit;
    match op
    case ReceiveOp(d) => ReceiveFollows(b0, b, d, key);
    case CommitOp(id) => CommitFollows(b0, b, id, key);
    case CancelOp => CancelFollows(b0, b, key);
    case _ =>
      StepKeeps(b, op);
      OtherUntouched(b, op, key);
      hide Step, Untouched;
      UntouchedFollows(b0, b, Step(b, op), key);
  }

  lemma OtherUntouched(b: Buffer, op: Op, key: Key)
    requires Valid(b) && !(op.ViewOp? && op.key == key) && !op.ReceiveOp? && !op.CommitOp? && !op.CancelOp?
    ensures Untouched(b, Step(b, op), key)
  {
    hide Valid, Untouched, Ensure, Reserve, MarkViewed;
    if op.EnsureOp? {
      EnsureUntouched(b, op.key, key);
    } else if op.ReserveOp? {
      ReserveUntouched(b, op.key, op.sender, op.content, key);
    } else {
      ViewUntouched(b, op.key, op.through, key);
    }
  }

  lemma EnsureUntouched(b: Buffer, other: Key, key: Key)
    ensures Untouched(b, Ensure(b, other).0, key)
  {
    hide Plus64, Minus64, KeyBytes;
  }

  lemma ReserveUntouched(b: Buffer, other: Key, sender: Bytes, content: Bytes, key: Key)
    ensures Untouched(b, Reserve(b, other, sender, content).0, key)
  {
    hide Plus64, Minus64, KeyBytes, TextBytes;
  }

  lemma ViewUntouched(b: Buffer, other: Key, through: nat, key: Key)
    requires other != key
    ensures Untouched(b, MarkViewed(b, other, through).0, key)
  {
  }

  /** No operation of the run views `key`. */
  predicate NeverViews(ops: seq<Op>, key: Key) {
    forall op | op in ops :: !(op.ViewOp? && op.key == key)
  }

  lemma {:induction false} RunFollows(b0: Buffer, b: Buffer, ops: seq<Op>, key: Key)
    requires Follows(b0, b, key) && NeverViews(ops, key)
    ensures Follows(b0, Run(b, ops), key)
    decreases |ops|
  {
    FollowsValid(b0, b, key);
    hide Valid, Follows, Step;
    if ops != [] {
      assert ops[0] in ops;
      StepKeeps(b, ops[0]);
      StepFollows(b0, b, ops[0], key);
      RunFollows(b0, Step(b, ops[0]), ops[1..], key);
    }
  }

  /** In a state that follows the snapshot, marks up to the snapshot's newest arrival leave
      exactly what arrived since. */
  lemma MarkedExactly(b0: Buffer, b: Buffer, key: Key)
    requires Follows(b0, b, key)
    ensures Unread(MarkViewed(b, key, Shown(b0, Some(key)).1).0, key) == ArrivedSince(b0, b, key)
  {
    assert ArrivedSince(b0, b, key) <= Unread(b, key);
    hide Follows, MarkViewed, Unread, ArrivedSince, Shown;
    var newest := Shown(b0, Some(key)).1;
    UnreadAfterView(b, key, newest);
    forall a | a in Unread(b, key)
      ensures a > newest <==> a in ArrivedSince(b0, b, key)
    {
      UnreadBelongs(b0, b, key, a);
    }
  }

  lemma UnreadAfterView(b: Buffer, key: Key, newest: nat)
    ensures Unread(MarkViewed(b, key, newest).0, key) == set a | a in Unread(b, key) && a > newest
  {
    if key in b.conversations {
      var unread := b.conversations[key].unread;
      var viewed := set a | a in unread && a <= newest;
      assert unread - viewed == set a | a in unread && a > newest;
      if viewed == {} {
        assert unread - viewed == unread;
      }
    }
  }

  lemma UnreadBelongs(b0: Buffer, b: Buffer, key: Key, a: nat)
    requires Follows(b0, b, key) && a in Unread(b, key)
    ensures a > Shown(b0, Some(key)).1 <==> a in ArrivedSince(b0, b, key)
  {
    FollowsValid(b0, b, key);
    NewestIsOld(b0, key);
    assert IncomingArrival(b.conversations[key], a);
    var m :| m in b.conversations[key].messages && !m.outgoing && m.arrival == a;
    ListedIsIndexed(b, key, m);
    hide Valid;
    if m.id in b0.byId {
      IndexedIsListed(b0, m.id);
      assert a !in ArrivedSince(b0, b, key) by { OneMessagePerArrival(b, key, m, b0); }
    } else {
      assert a in ArrivedSince(b0, b, key);
    }
  }

  lemma OneMessagePerArrival(b: Buffer, key: Key, m: Message, b0: Buffer)
    requires Valid(b) && m in Listing(b, key) && m.id in b0.byId
    ensures m.arrival !in ArrivedSince(b0, b, key)
  {
    forall x | x in Listing(b, key) && x.arrival == m.arrival
      ensures x == m
    {
      ListedIsIndexed(b, key, x);
      ListedIsIndexed(b, key, m);
    }
  }

  lemma IndexedIsListed(b: Buffer, id: int)
    requires Valid(b) && id in b.byId
    ensures b.byId[id] in Listing(b, b.byId[id].key)
  {
    assert IndexedMessage(b, id, b.byId[id]);
  }

  lemma NewestIsOld(b: Buffer, key: Key)
    requires Valid(b)
    ensures Shown(b, Some(key)).1 < ArrivalLimit(b)
    ensures forall m | m in Listing(b, key) :: m.arrival <= Shown(b, Some(key)).1
  {
    if key in b.conversations && Shown(b, Some(key)).1 != 0 {
      var m :| m in Listing(b, key) && m.arrival == Shown(b, Some(key)).1;
      ListedIsIndexed(b, key, m);
      assert IndexedMessage(b, m.id, m);
    }
  }

  /** Read marks are exact: after a snapshot, any operations that do not view the conversation,
      and a view up to the snapshot's newest arrival, the unread messages of the conversation
      are exactly the incoming ones stored after the snapshot. Other conversations are
      untouched by the view, and no message the snapshot showed has changed. */
  lemma ReadMarksAreExact(before: seq<Op>, key: Key, ops: seq<Op>)
    requires NeverViews(ops, key)
    ensures var b0, b := Reach(before), Run(Reach(before), ops);
      var b' := MarkViewed(b, key, Shown(b0, Some(key)).1).0;
      && Unread(b', key) == ArrivedSince(b0, b, key)
      && (forall k | k != key :: Listing(b', k) == Listing(b, k) && Unread(b', k) == Unread(b, k))
      && (forall m | m in Shown(b0, Some(key)).0 :: m in Listing(b', key))
  {
    hide Run, Reach, Valid, Follows;
    var b0, b := Reach(before), Run(Reach(before), ops);
    FollowsItself(b0, key);
    RunFollows(b0, b0, ops, key);
    MarkedExactly(b0, b, key);
    ShownStays(b0, b, key);
  }

  lemma ShownStays(b0: Buffer, b: Buffer, key: Key)
    requires Follows(b0, b, key)
    ensures forall m | m in Shown(b0, Some(key)).0 :: m in Listing(b, key)
  {
    FollowsValid(b0, b, key);
    hide Valid;
    forall m | m in Shown(b0, Some(key)).0
      ensures m in Listing(b, key)
    {
      ListedIsIndexed(b0, key, m);
      IndexedIsListed(b, m.id);
    }
  }
}
