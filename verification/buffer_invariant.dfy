/** What every operation of the session store keeps: the index and the conversation lists
    agree, arrivals are distinct, unread marks belong to incoming messages, a reservation has
    its conversation, and the byte count is the sum of what is stored. */
module BufferInvariant {
  import opened Prelude
  import opened Tables
  import opened BufferState
  import opened Totals

  /** One above the newest arrival given out. */
  function ArrivalLimit(b: Buffer): nat {
    if b.nextArrival == 0 then TWO_64 else b.nextArrival
  }

  /** A received message has the server's fields; a private one is filed under its sender. */
  predicate IncomingOk(m: Message) {
    !m.outgoing ==> m.senderId.Some? && m.createdAt.Some? && (m.key.PrivateChat? ==> m.key.username == m.sender)
  }

  ghost predicate IndexedMessage(b: Buffer, id: int, m: Message) {
    && 0 < id && m.id == id && 0 < m.arrival < ArrivalLimit(b)
    && m.key in b.conversations && m in b.conversations[m.key].messages
    && IncomingOk(m)
  }

  /** Every indexed message is in its conversation's list. */
  ghost predicate Indexed(b: Buffer) {
    forall id | id in b.byId :: IndexedMessage(b, id, b.byId[id])
  }

  predicate Sorted(messages: seq<Message>) {
    forall i, j | 0 <= i < j < |messages| :: messages[i].id < messages[j].id
  }

  ghost predicate ListOk(b: Buffer, key: Key, messages: seq<Message>) {
    && Sorted(messages)
    && forall m | m in messages :: m.key == key && m.id in b.byId && b.byId[m.id] == m
  }

  /** Every listed message is indexed, under its own conversation only; lists are sorted. */
  ghost predicate Listed(b: Buffer) {
    forall key | key in b.conversations :: ListOk(b, key, b.conversations[key].messages)
  }

  ghost predicate DistinctArrivals(b: Buffer) {
    forall i, j | i in b.byId && j in b.byId && i != j :: b.byId[i].arrival != b.byId[j].arrival
  }

  ghost predicate IncomingArrival(c: Conversation, a: nat) {
    exists m :: m in c.messages && !m.outgoing && m.arrival == a
  }

  ghost predicate UnreadOk(b: Buffer) {
    forall key, a | key in b.conversations && a in b.conversations[key].unread :: IncomingArrival(b.conversations[key], a)
  }

  ghost predicate ReservationOk(b: Buffer) {
    match b.reserved
    case None => b.reservedBytes == 0 && !b.reservedCreated
    case Some(m) =>
      && m.key in b.conversations && m.outgoing && m.id == 0
      && b.reservedBytes == MessageBytes(m)
  }

  /** The text of all conversation keys and of all stored messages. */
  ghost function StoredBytes(b: Buffer): nat {
    Total(b.conversations.Keys, KeyBytes) + Total(b.byId.Values, MessageBytes)
  }

  ghost predicate BytesOk(b: Buffer) {
    b.retained == StoredBytes(b) % TWO_64
  }

  ghost predicate CountsOk(b: Buffer) {
    && |b.conversations| <= MAX_CONVERSATIONS && Occupied(b) <= MAX_MESSAGES
    && b.nextHandle == |b.conversations| + 1
    && b.nextArrival < TWO_64 && b.version < TWO_64
  }

  ghost predicate Valid(b: Buffer) {
    && Indexed(b) && Listed(b) && DistinctArrivals(b) && UnreadOk(b)
    && ReservationOk(b) && BytesOk(b) && CountsOk(b)
  }

  // ----- The five elementary changes -----

  /** A new empty conversation. */
  function Open(b: Buffer, key: Key): Buffer {
    b.(conversations := b.conversations[key := Conversation(b.nextHandle, [], {})],
       nextHandle := b.nextHandle + 1,
       retained := Plus64(b.retained, KeyBytes(key)))
  }

  /** A message joins its conversation and the index. */
  function Add(b: Buffer, m: Message): Buffer
    requires m.key in b.conversations
  {
    var c := b.conversations[m.key];
    var c' := if m.outgoing then AddOutgoing(c, m) else AddIncoming(c, m);
    b.(conversations := b.conversations[m.key := c'],
       byId := b.byId[m.id := m],
       retained := Plus64(b.retained, MessageBytes(m)),
       nextArrival := Plus64(b.nextArrival, 1),
       version := b.version + 1)
  }

  /** The reservation goes, whatever becomes of its message. */
  function Unreserve(b: Buffer): Buffer {
    b.(reserved := None, reservedCreated := false, reservedBytes := 0)
  }

  /** An empty conversation goes. */
  function Erase(b: Buffer, key: Key): Buffer {
    b.(conversations := b.conversations - {key},
       nextHandle := Minus64(b.nextHandle, 1),
       retained := Minus64(b.retained, KeyBytes(key)))
  }

  /** The same messages, listed under the same conversations: empty conversations may come and
      go, unread marks may go. */
  predicate SameMessages(b: Buffer, b': Buffer) {
    && b'.byId == b.byId && b'.nextArrival == b.nextArrival
    && (forall key | key in b'.conversations ::
          if key in b.conversations then
            && b'.conversations[key].messages == b.conversations[key].messages
            && b'.conversations[key].unread <= b.conversations[key].unread
          else b'.conversations[key].messages == [] && b'.conversations[key].unread == {})
    && (forall key | key in b.conversations && b.conversations[key].messages != [] :: key in b'.conversations)
  }

  lemma SameMessagesOk(b: Buffer, b': Buffer)
    requires SameMessages(b, b') && Indexed(b) && Listed(b) && DistinctArrivals(b) && UnreadOk(b)
    ensures Indexed(b') && Listed(b') && DistinctArrivals(b') && UnreadOk(b')
  {
    forall id | id in b'.byId
      ensures IndexedMessage(b', id, b'.byId[id])
    {
      assert IndexedMessage(b, id, b.byId[id]);
    }
    forall key | key in b'.conversations
      ensures ListOk(b', key, b'.conversations[key].messages)
    {
      if key in b.conversations { assert ListOk(b, key, b.conversations[key].messages); }
    }
    forall key, a | key in b'.conversations && a in b'.conversations[key].unread
      ensures IncomingArrival(b'.conversations[key], a)
    {
      assert IncomingArrival(b.conversations[key], a);
    }
  }

  lemma OpenKeeps(b: Buffer, key: Key)
    requires Valid(b) && key !in b.conversations && |b.conversations| < MAX_CONVERSATIONS
    ensures Valid(Open(b, key))
  {
    hide Indexed, Listed, UnreadOk, DistinctArrivals, BytesOk, CountsOk, Plus64;
    assert SameMessages(b, Open(b, key));
    hide SameMessages;
    SameMessagesOk(b, Open(b, key));
    OpenBytes(b, key);
    OpenCounts(b, key);
  }

  lemma OpenCounts(b: Buffer, key: Key)
    requires CountsOk(b) && key !in b.conversations && |b.conversations| < MAX_CONVERSATIONS
    ensures CountsOk(Open(b, key))
  {
    hide Plus64;
    assert Open(b, key).conversations.Keys == b.conversations.Keys + {key};
  }

  lemma OpenBytes(b: Buffer, key: Key)
    requires BytesOk(b) && key !in b.conversations
    ensures BytesOk(Open(b, key))
    ensures StoredBytes(Open(b, key)) == StoredBytes(b) + KeyBytes(key)
  {
    hide KeyBytes, Plus64;
    assert Open(b, key).conversations.Keys == b.conversations.Keys + {key};
    TotalAdd(b.conversations.Keys, KeyBytes, key);
    PlusMod(StoredBytes(b), KeyBytes(key));
  }

  /** What a message must be to join the store. */
  ghost predicate Fresh(b: Buffer, m: Message) {
    && 0 < m.id && m.id !in b.byId && m.arrival == b.nextArrival && b.nextArrival != 0
    && m.key in b.conversations
    && IncomingOk(m)
  }

  lemma InsertedMembers(messages: seq<Message>, i: nat, m: Message)
    requires i <= |messages|
    ensures forall x :: x in InsertAt(messages, i, m) <==> x in messages || x == m
  {
    assert messages == messages[..i] + messages[i..];
  }

  lemma InsertedSorted(messages: seq<Message>, i: nat, m: Message)
    requires i <= |messages| && Sorted(messages)
    requires forall j | 0 <= j < i :: messages[j].id < m.id
    requires forall j | i <= j < |messages| :: m.id < messages[j].id
    ensures Sorted(InsertAt(messages, i, m))
  {
    var all := InsertAt(messages, i, m);
    forall p, q | 0 <= p < q < |all|
      ensures all[p].id < all[q].id
    {
      if q < i {
        assert all[p] == messages[p] && all[q] == messages[q];
      } else if q == i {
        assert all[p] == messages[p];
      } else if p < i {
        assert all[p] == messages[p] && all[q] == messages[q - 1];
      } else if p == i {
        assert all[q] == messages[q - 1];
      } else {
        assert all[p] == messages[p - 1] && all[q] == messages[q - 1];
      }
    }
  }

  lemma InsertedAt(messages: seq<Message>, m: Message)
    requires Sorted(messages) && forall x | x in messages :: x.id != m.id
    ensures var all := InsertAt(messages, LowerBound(messages, m.id), m);
      && Sorted(all)
      && (forall x :: x in all <==> x in messages || x == m)
  {
    var i := LowerBound(messages, m.id);
    hide LowerBound, InsertAt;
    forall j | i <= j < |messages|
      ensures m.id < messages[j].id
    {
      assert messages[j] in messages;
      assert messages[i].id <= messages[j].id;
    }
    InsertedMembers(messages, i, m);
    InsertedSorted(messages, i, m);
    hide Sorted;
  }

  lemma AddIndexed(b: Buffer, m: Message)
    requires Indexed(b) && Listed(b) && Fresh(b, m) && b.nextArrival < TWO_64
    ensures Indexed(Add(b, m))
  {
    var b' := Add(b, m);
    var c := b.conversations[m.key];
    assert ListOk(b, m.key, c.messages);
    InsertedAt(c.messages, m);
    hide LowerBound, InsertAt;
    forall id | id in b'.byId
      ensures IndexedMessage(b', id, b'.byId[id])
    {
      if id != m.id {
        assert IndexedMessage(b, id, b.byId[id]);
      }
    }
  }

  lemma AddListed(b: Buffer, m: Message)
    requires Listed(b) && Fresh(b, m)
    ensures Listed(Add(b, m))
  {
    var b' := Add(b, m);
    var c := b.conversations[m.key];
    assert ListOk(b, m.key, c.messages);
    InsertedAt(c.messages, m);
    hide LowerBound, InsertAt, Sorted;
    forall k | k in b'.conversations
      ensures ListOk(b', k, b'.conversations[k].messages)
    {
      assert ListOk(b, k, b.conversations[k].messages);
    }
  }

  lemma AddUnread(b: Buffer, m: Message)
    requires UnreadOk(b) && Listed(b) && Fresh(b, m)
    ensures UnreadOk(Add(b, m))
  {
    var b' := Add(b, m);
    var c := b.conversations[m.key];
    assert ListOk(b, m.key, c.messages);
    InsertedAt(c.messages, m);
    hide LowerBound, InsertAt, Sorted;
    forall k, a | k in b'.conversations && a in b'.conversations[k].unread
      ensures IncomingArrival(b'.conversations[k], a)
    {
      if k == m.key && a == m.arrival && !m.outgoing {
        assert m in b'.conversations[k].messages;
      } else {
        assert IncomingArrival(b.conversations[k], a);
        var x :| x in b.conversations[k].messages && !x.outgoing && x.arrival == a;
        assert x in b'.conversations[k].messages;
      }
    }
  }

  lemma AddBytes(b: Buffer, m: Message)
    requires BytesOk(b) && Indexed(b) && Fresh(b, m)
    ensures BytesOk(Add(b, m))
    ensures StoredBytes(Add(b, m)) == StoredBytes(b) + MessageBytes(m)
  {
    var b' := Add(b, m);
    hide AddIncoming, AddOutgoing, MessageBytes, Plus64;
    assert b'.conversations.Keys == b.conversations.Keys;
    forall x | x in b.byId.Values
      ensures x != m
    {
      var id := KeyOfValue(b.byId, x);
      assert IndexedMessage(b, id, x);
    }
    ValueAdded(b.byId, m.id, m);
    TotalAdd(b.byId.Values, MessageBytes, m);
    PlusMod(StoredBytes(b), MessageBytes(m));
  }

  lemma AddKeeps(b: Buffer, m: Message)
    requires Valid(b) && Fresh(b, m) && Occupied(b) < MAX_MESSAGES && b.version < MAX_VERSION
    ensures Valid(Add(b, m))
  {
    AddIndexed(b, m);
    AddListed(b, m);
    AddUnread(b, m);
    AddBytes(b, m);
    AddRest(b, m);
    hide Indexed, Listed, DistinctArrivals, UnreadOk, BytesOk, ReservationOk, CountsOk, Add;
  }

  lemma AddRest(b: Buffer, m: Message)
    requires Indexed(b) && DistinctArrivals(b) && ReservationOk(b) && CountsOk(b)
    requires Fresh(b, m) && Occupied(b) < MAX_MESSAGES && b.version < MAX_VERSION
    ensures DistinctArrivals(Add(b, m)) && ReservationOk(Add(b, m)) && CountsOk(Add(b, m))
  {
    hide AddIncoming, AddOutgoing;
    var b' := Add(b, m);
    forall i, j | i in b'.byId && j in b'.byId && i != j
      ensures b'.byId[i].arrival != b'.byId[j].arrival
    {
      if i in b.byId { assert IndexedMessage(b, i, b.byId[i]); }
      if j in b.byId { assert IndexedMessage(b, j, b.byId[j]); }
    }
    assert b'.conversations.Keys == b.conversations.Keys;
    assert |b'.conversations| == |b'.conversations.Keys| && |b.conversations| == |b.conversations.Keys|;
  }

  lemma UnreserveKeeps(b: Buffer)
    requires Valid(b)
    ensures Valid(Unreserve(b))
  {
    hide Indexed, Listed, DistinctArrivals, UnreadOk;
    SameMessagesOk(b, Unreserve(b));
  }

  lemma VersionKeeps(b: Buffer, version: nat)
    requires Valid(b) && version < TWO_64
    ensures Valid(b.(version := version))
  {
    hide Indexed, Listed, DistinctArrivals, UnreadOk;
    SameMessagesOk(b, b.(version := version));
  }

  /** A conversation without messages, and without the reservation, can go. */
  lemma EraseKeeps(b: Buffer, key: Key)
    requires Valid(b) && b.reserved == None && key in b.conversations && b.conversations[key].messages == []
    ensures Valid(Erase(b, key))
  {
    hide Indexed, Listed, UnreadOk, DistinctArrivals, BytesOk, CountsOk, Minus64;
    assert SameMessages(b, Erase(b, key));
    hide SameMessages;
    SameMessagesOk(b, Erase(b, key));
    EraseBytes(b, key);
    EraseCounts(b, key);
  }

  lemma EraseCounts(b: Buffer, key: Key)
    requires CountsOk(b) && key in b.conversations
    ensures CountsOk(Erase(b, key))
  {
    hide Minus64;
    SizeRemove(b.conversations, key);
    NoWrap64(b.nextHandle, 1);
  }

  lemma EraseBytes(b: Buffer, key: Key)
    requires BytesOk(b) && key in b.conversations
    ensures BytesOk(Erase(b, key))
  {
    hide KeyBytes, Minus64;
    assert Erase(b, key).conversations.Keys == b.conversations.Keys - {key};
    TotalRemove(b.conversations.Keys, KeyBytes, key);
    MinusMod(StoredBytes(b), KeyBytes(key));
  }

  // ----- The operations, in every run -----

  lemma EnsureKeeps(b: Buffer, key: Key)
    requires Valid(b)
    ensures Valid(Ensure(b, key).0)
  {
    hide Ensure, Valid, Plus64;
    if Ensure(b, key).1 == InsertResult.Stored {
      EnsureIsOpen(b, key);
      CountersBelow(b);
      OpenKeeps(b, key);
      VersionKeeps(Open(b, key), b.version + 1);
    } else {
      assert Ensure(b, key).0 == b by { EnsureOtherwise(b, key); }
    }
  }

  lemma CountersBelow(b: Buffer)
    requires Valid(b)
    ensures b.version < TWO_64 && b.nextArrival < TWO_64 && b.retained < TWO_64
  {
    hide Indexed, Listed, UnreadOk, DistinctArrivals, ReservationOk, StoredBytes;
  }

  lemma EnsureOtherwise(b: Buffer, key: Key)
    requires Ensure(b, key).1 != InsertResult.Stored
    ensures Ensure(b, key).0 == b
  {
    hide Minus64, Plus64, KeyBytes;
  }

  lemma EnsureIsOpen(b: Buffer, key: Key)
    requires Ensure(b, key).1 == InsertResult.Stored
    ensures Ensure(b, key).0 == Open(b, key).(version := b.version + 1)
    ensures key !in b.conversations && |b.conversations| < MAX_CONVERSATIONS && b.version != MAX_VERSION
  {
    hide Minus64, Plus64;
  }

  /** A stored delivery is an opened conversation, if need be, and an added message. */
  lemma ReceiveIsAdd(b: Buffer, d: Delivery)
    requires Receive(b, d).1 == InsertResult.Stored
    ensures var m := Incoming(d, b.nextArrival);
      var b0 := if m.key in b.conversations then b else Open(b, m.key);
      && Receive(b, d).0 == Add(b0, m)
      && m.id !in b.byId && b.nextArrival != 0 && b.version != MAX_VERSION && Occupied(b) < MAX_MESSAGES
      && (m.key !in b.conversations ==> |b.conversations| < MAX_CONVERSATIONS)
      && Readable(d)
  {
    hide AddIncoming, Minus64, Plus64, KeyBytes;
    var m := Incoming(d, b.nextArrival);
    PlusTwice(b.retained, KeyBytes(m.key), MessageBytes(m));
    if m.key !in b.conversations {
      var empty := Conversation(b.nextHandle, [], {});
      assert b.conversations[m.key := empty][m.key := AddIncoming(empty, m)] == b.conversations[m.key := AddIncoming(empty, m)];
    }
  }

  lemma ReceiveOtherwise(b: Buffer, d: Delivery)
    requires Receive(b, d).1 != InsertResult.Stored
    ensures Receive(b, d).0 == b
  {
    hide ReceiveRefused, AddIncoming, SameIncoming, Readable;
  }

  /** The message of a delivery is fit to join, where its conversation is open. */
  lemma IncomingIsFresh(b: Buffer, d: Delivery)
    requires Readable(d) && Incoming(d, b.nextArrival).id !in b.byId && b.nextArrival != 0
    ensures var m := Incoming(d, b.nextArrival);
      && (m.key in b.conversations ==> Fresh(b, m))
      && (m.key !in b.conversations ==> Fresh(Open(b, m.key), m))
  {
    hide Plus64;
  }

  lemma ReceiveKeeps(b: Buffer, d: Delivery)
    requires Valid(b)
    ensures Valid(Receive(b, d).0)
  {
    hide Indexed, Listed, DistinctArrivals, UnreadOk, BytesOk, ReservationOk, Receive, Add, Fresh, Incoming, Plus64;
    if Receive(b, d).1 == InsertResult.Stored {
      ReceiveIsAdd(b, d);
      IncomingIsFresh(b, d);
      var m := Incoming(d, b.nextArrival);
      if m.key !in b.conversations {
        OpenKeeps(b, m.key);
      }
      AddKeeps(if m.key in b.conversations then b else Open(b, m.key), m);
    } else {
      ReceiveOtherwise(b, d);
    }
  }

  lemma ReserveKeeps(b: Buffer, key: Key, sender: Bytes, content: Bytes)
    requires Valid(b)
    ensures Valid(Reserve(b, key, sender, content).0)
  {
    hide Valid, Reserve, Open;
    var (b', r) := Reserve(b, key, sender, content);
    if r == InsertResult.Stored {
      var b0 := if key in b.conversations then b else Open(b, key);
      CountersBelow(b);
      ReserveIsOpen(b, key, sender, content);
      if key !in b.conversations { OpenKeeps(b, key); }
      HoldKeeps(b0, b', key);
    } else {
      assert b' == b by { ReserveOtherwise(b, key, sender, content); }
    }
  }

  lemma ReserveOtherwise(b: Buffer, key: Key, sender: Bytes, content: Bytes)
    requires Reserve(b, key, sender, content).1 != InsertResult.Stored
    ensures Reserve(b, key, sender, content).0 == b
  {
    hide Minus64, Plus64, KeyBytes, TextBytes;
  }

  /** `b'` is `b0` with a message of `key` reserved. */
  predicate Holds(b0: Buffer, b': Buffer, key: Key) {
    && key in b0.conversations && b0.reserved == None && |b0.byId| < MAX_MESSAGES
    && b'.reserved.Some? && b'.reserved.value.key == key && b'.reserved.value.outgoing && b'.reserved.value.id == 0
    && b'.reservedBytes == MessageBytes(b'.reserved.value)
    && b'.version < TWO_64
    && b' == b0.(reserved := b'.reserved, reservedCreated := b'.reservedCreated, reservedBytes := b'.reservedBytes,
                 version := b'.version)
  }

  /** A reservation opens its conversation, if need be, and holds its message. */
  lemma ReserveIsOpen(b: Buffer, key: Key, sender: Bytes, content: Bytes)
    requires Reserve(b, key, sender, content).1 == InsertResult.Stored && b.version < TWO_64 && b.retained < TWO_64
    ensures key !in b.conversations ==> |b.conversations| < MAX_CONVERSATIONS
    ensures Holds(if key in b.conversations then b else Open(b, key), Reserve(b, key, sender, content).0, key)
  {
    hide Minus64;
  }

  lemma HoldKeeps(b0: Buffer, b': Buffer, key: Key)
    requires Valid(b0) && Holds(b0, b', key)
    ensures Valid(b')
  {
    hide Indexed, Listed, DistinctArrivals, UnreadOk, BytesOk, MessageBytes;
    SameMessagesOk(b0, b');
    BytesSame(b0, b');
  }

  lemma BytesSame(b: Buffer, b': Buffer)
    requires BytesOk(b) && b'.conversations == b.conversations && b'.byId == b.byId && b'.retained == b.retained
    ensures BytesOk(b')
  {
  }

  lemma CommitIsAdd(b: Buffer, id: int)
    requires Valid(b) && Commit(b, id).1 == InsertResult.Stored
    ensures b.reserved.Some?
    ensures var m := b.reserved.value.(id := id, arrival := b.nextArrival);
      && Commit(b, id).0 == Add(Unreserve(b), m)
      && Fresh(Unreserve(b), m) && b.version != MAX_VERSION
  {
    hide AddOutgoing, Indexed, Listed, DistinctArrivals, UnreadOk, BytesOk, CountsOk;
  }

  lemma CommitOtherwise(b: Buffer, id: int)
    requires b.reserved.Some? ==> b.reserved.value.key in b.conversations
    requires Commit(b, id).1 != InsertResult.Stored
    ensures Commit(b, id).0 == b
  {
    hide AddOutgoing, Plus64;
  }

  /** The reserved conversation is there. */
  lemma ReservedIsOpen(b: Buffer)
    requires Valid(b)
    ensures b.reserved.Some? ==> b.reserved.value.key in b.conversations && b.reserved.value.outgoing
  {
    hide Indexed, Listed, DistinctArrivals, UnreadOk, BytesOk, CountsOk, MessageBytes;
  }

  lemma CommitKeeps(b: Buffer, id: int)
    requires Valid(b)
    ensures Valid(Commit(b, id).0)
  {
    if Commit(b, id).1 == InsertResult.Stored {
      CommitIsAdd(b, id);
      UnreserveKeeps(b);
      hide Indexed, Listed, DistinctArrivals, UnreadOk, BytesOk, ReservationOk, Commit, Add, Fresh;
      AddKeeps(Unreserve(b), b.reserved.value.(id := id, arrival := b.nextArrival));
    } else {
      assert Commit(b, id).0 == b;
    }
  }

  lemma CancelKeeps(b: Buffer)
    requires Valid(b)
    ensures Valid(Cancel(b))
  {
    if b.reserved.Some? {
      var key := b.reserved.value.key;
      UnreserveKeeps(b);
      var b0 := Unreserve(b);
      hide Indexed, Listed, DistinctArrivals, UnreadOk, BytesOk, ReservationOk;
      var erased := b.reservedCreated && key in b.conversations && b.conversations[key].messages == [];
      if erased {
        EraseKeeps(b0, key);
      }
      var b1 := if erased then Erase(b0, key) else b0;
      var version := if b.version != MAX_VERSION then b.version + 1 else b.version;
      assert version < TWO_64;
      hide Valid;
      VersionKeeps(b1, version);
      assert Cancel(b) == b1.(version := version);
    }
  }

  lemma MarkViewedKeeps(b: Buffer, key: Key, through: nat)
    requires Valid(b)
    ensures Valid(MarkViewed(b, key, through).0)
  {
    hide Indexed, Listed, UnreadOk, DistinctArrivals, SameMessages, BytesOk, CountsOk, ReservationOk, MarkViewed;
    var b' := MarkViewed(b, key, through).0;
    ViewedShape(b, key, through);
    SameMessagesOk(b, b');
    ViewedCounts(b, b');
  }

  /** Viewing touches unread marks and the version only. */
  lemma ViewedShape(b: Buffer, key: Key, through: nat)
    ensures var b' := MarkViewed(b, key, through).0;
      && SameMessages(b, b') && b'.conversations.Keys == b.conversations.Keys
      && b' == b.(conversations := b'.conversations, version := b'.version)
      && (b'.version == b.version || (b'.version == b.version + 1 && b.version != MAX_VERSION))
  {
  }

  lemma ViewedCounts(b: Buffer, b': Buffer)
    requires BytesOk(b) && CountsOk(b) && ReservationOk(b)
    requires b'.conversations.Keys == b.conversations.Keys
    requires b' == b.(conversations := b'.conversations, version := b'.version)
    requires b'.version == b.version || (b'.version == b.version + 1 && b.version != MAX_VERSION)
    ensures BytesOk(b') && CountsOk(b') && ReservationOk(b')
  {
    assert |b'.conversations| == |b'.conversations.Keys| && |b.conversations| == |b.conversations.Keys|;
  }
}
