/** The session store seen through its id index is the index the delivery protocol reasons
    about: receiving and committing refine the protocol's steps. */
module BufferIndex {
  import opened Prelude
  import opened Tables
  import T = Tables
  import opened BufferState
  import opened BufferInvariant
  import CS = ClientSync

  /** The delivery a stored incoming message was received as. */
  function DeliveryOf(m: Message): Delivery
    requires IncomingOk(m) && !m.outgoing
  {
    var (kind, group) := match m.key
      case PrivateChat(_) => (Private, None)
      case GroupChat(g) => (Group, Some(g))
      case BroadcastChat => (Broadcast, None);
    Delivery(T.Stored(m.id, kind, m.senderId.value, group, m.content, m.createdAt.value), m.sender)
  }

  function Index(b: Buffer): map<int, CS.Entry>
    requires Valid(b)
  {
    IndexedAreOk(b);
    map id | id in b.byId :: if b.byId[id].outgoing then CS.Outgoing else CS.Incoming(DeliveryOf(b.byId[id]))
  }

  lemma IndexedAreOk(b: Buffer)
    requires Valid(b)
    ensures forall id | id in b.byId :: IncomingOk(b.byId[id]) && b.byId[id].id == id
  {
    forall id | id in b.byId
      ensures IncomingOk(b.byId[id]) && b.byId[id].id == id
    {
      assert IndexedMessage(b, id, b.byId[id]);
    }
  }

  /** Storing loses nothing: the stored message gives its delivery back. */
  lemma StoredAsReceived(d: Delivery, arrival: nat)
    requires CS.WellFormed(d)
    ensures Readable(d) && DeliveryOf(Incoming(d, arrival)) == d
  {
  }

  /** The field-by-field comparison decides whether the same delivery was stored before. */
  lemma SameIncomingMeansSame(stored: Message, d: Delivery)
    requires CS.WellFormed(d) && IncomingOk(stored) && stored.id == d.message.id
    ensures Readable(d)
    ensures SameIncoming(stored, d) <==> !stored.outgoing && DeliveryOf(stored) == d
  {
  }

  function EntryOf(m: Message): CS.Entry
    requires IncomingOk(m)
  {
    if m.outgoing then CS.Outgoing else CS.Incoming(DeliveryOf(m))
  }

  lemma IndexGains(b: Buffer, b': Buffer, m: Message)
    requires Valid(b) && Valid(b') && IncomingOk(m) && b'.byId == b.byId[m.id := m]
    ensures Index(b') == Index(b)[m.id := EntryOf(m)]
  {
    IndexedAreOk(b);
    IndexedAreOk(b');
    hide Valid, DeliveryOf, IncomingOk;
  }

  lemma KnownIdRefines(b: Buffer, d: Delivery)
    requires Valid(b) && CS.WellFormed(d) && d.message.id in b.byId
    ensures var (index', s) := CS.StoreOne(Index(b), d);
      && Receive(b, d).0 == b && s != CS.StoreResult.Stored
      && Receive(b, d).1 == if s == CS.Duplicate then Duplicate else Conflict
  {
    IndexedAreOk(b);
    hide Valid, DeliveryOf, IncomingOk, SameIncoming, CS.WellFormed, Readable, KeyOf;
    SameIncomingMeansSame(b.byId[d.message.id], d);
  }

  lemma NewIdRefines(b: Buffer, d: Delivery)
    requires Valid(b) && CS.WellFormed(d) && d.message.id !in b.byId
    ensures var (index', s) := CS.StoreOne(Index(b), d);
      && s == CS.StoreResult.Stored
      && (Receive(b, d).1 == InsertResult.Stored ==> Valid(Receive(b, d).0) && Index(Receive(b, d).0) == index')
      && (Receive(b, d).1 == InsertResult.Stored || (Receive(b, d).1 == CapacityExceeded && Receive(b, d).0 == b))
  {
    hide Valid, Receive, DeliveryOf, CS.WellFormed, Readable, Add, Open;
    ReceiveKeeps(b, d);
    StoredAsReceived(d, b.nextArrival);
    StoredOrRefused(b, d);
    if Receive(b, d).1 == InsertResult.Stored {
      ReceiveIsAdd(b, d);
      AddedToIndex(b, d);
      IndexGains(b, Receive(b, d).0, Incoming(d, b.nextArrival));
    }
  }

  lemma StoredOrRefused(b: Buffer, d: Delivery)
    requires Readable(d) && d.message.id !in b.byId
    ensures Receive(b, d).1 == InsertResult.Stored || (Receive(b, d).1 == CapacityExceeded && Receive(b, d).0 == b)
  {
    hide ReceiveRefused, AddIncoming, Readable;
  }

  lemma AddedToIndex(b: Buffer, d: Delivery)
    requires Receive(b, d).1 == InsertResult.Stored && Readable(d)
    ensures Receive(b, d).0.byId == b.byId[d.message.id := Incoming(d, b.nextArrival)]
  {
    hide ReceiveRefused, AddIncoming, Readable;
  }

  /** Receiving a well-formed delivery is the protocol's storing step, unless there is no room:
      duplicates and conflicts are told apart exactly, and room matters to new ids only. */
  lemma ReceiveRefines(b: Buffer, d: Delivery)
    requires Valid(b) && CS.WellFormed(d)
    ensures var (b', r) := Receive(b, d);
      var (index', s) := CS.StoreOne(Index(b), d);
      && Valid(b')
      && (r == Duplicate <==> s == CS.Duplicate) && (r == Conflict <==> s == CS.Conflict)
      && (r == InsertResult.Stored ==> s == CS.StoreResult.Stored && Index(b') == index')
      && (r == CapacityExceeded ==> s == CS.StoreResult.Stored)
      && (r != InsertResult.Stored ==> b' == b)
  {
    hide Valid, Receive, DeliveryOf, CS.WellFormed, CS.StoreOne;
    if d.message.id in b.byId {
      KnownIdRefines(b, d);
    } else {
      NewIdRefines(b, d);
    }
  }

  /** Committing is the protocol's outgoing step: it fails for a known id. */
  lemma CommitRefines(b: Buffer, id: int)
    requires Valid(b)
    ensures var (b', r) := Commit(b, id);
      && Valid(b')
      && (r == InsertResult.Stored ==> id !in Index(b) && Index(b') == Index(b)[id := CS.Outgoing])
      && (r != InsertResult.Stored ==> b' == b)
      && (b.reserved.Some? && 0 < id && b.nextArrival != 0 && b.version != MAX_VERSION ==>
            (r == InsertResult.Stored <==> id !in Index(b)))
  {
    CommitKeeps(b, id);
    assert forall i :: i in Index(b) <==> i in b.byId;
    if Commit(b, id).1 == InsertResult.Stored {
      CommitIsAdd(b, id);
      hide Valid, Commit;
      IndexGains(b, Commit(b, id).0, b.reserved.value.(id := id, arrival := b.nextArrival));
    } else {
      hide Valid, Index, AddOutgoing;
    }
  }
}
