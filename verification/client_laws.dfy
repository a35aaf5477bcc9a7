/** What each frame does to the client, frame by frame: what is stored, what is queued, and
    which stop reason each refusal gives (clientf/client_connection.cpp, `dispatchFrame` and
    what it calls). */
module ClientLaws {
  import opened Prelude
  import opened Tables
  import opened ClientSync
  import ClientConnections

  /** The id is taken by something other than this delivery. */
  predicate Contradicts(index: map<int, Entry>, d: Delivery) {
    d.message.id in index && index[d.message.id] != Incoming(d)
  }

  /** Nothing but index, queue and stop reason differs. */
  predicate SameButStored(c: Client, c': Client) {
    c' == c.(index := c'.index, queue := c'.queue, stopped := c'.stopped)
  }

  /** A live message is stored and acknowledged, or the client stops and says why. The
      acknowledgement is queued exactly when nothing is amiss; a message whose storing another
      thread interrupts, or whose acknowledgement has no place, is stored all the same. */
  lemma LiveMessageIsAcknowledged(c: Client, d: Delivery, handled: nat, interrupted: bool)
    requires c.authenticated && c.stopped == None
    ensures var c' := Dispatch(c, Message(d), handled, interrupted);
      var known := d.message.id in c.index;
      var stores := WellFormed(d) && !Contradicts(c.index, d) && (known || handled > 0);
      && SameButStored(c, c')
      && c'.index == (if stores then c.index[d.message.id := Incoming(d)] else c.index)
      && (c'.queue == c.queue + [DeliveryAck(d.message.id)]
          <==> stores && !interrupted && |c.queue| < MAX_AUTOMATIC)
      && (c'.queue == c.queue || c'.queue == c.queue + [DeliveryAck(d.message.id)])
      && (c'.stopped == None <==> !WellFormed(d) || c'.queue != c.queue)
      && (WellFormed(d) ==>
            && (c'.stopped == Some(ConflictingMessage) <==> Contradicts(c.index, d))
            && (c'.stopped == Some(CapacityReached) <==> !known && handled == 0)
            && (c'.stopped == Some(Stopped) <==> stores && interrupted)
            && (c'.stopped == Some(QueueOverflow) <==> stores && !interrupted && |c.queue| >= MAX_AUTOMATIC))
  {
    hide WellFormed;
  }

  // ----- A page -----

  /** `index'` is `index` with these records and nothing else. */
  ghost predicate Holding(index: map<int, Entry>, index': map<int, Entry>, records: seq<Delivery>) {
    && ClientConnections.StoredAll(index, index', records)
    && forall id | id in index' :: id in index || exists i :: 0 <= i < |records| && records[i].message.id == id
  }

  lemma {:induction false} StoreEachHolds(index: map<int, Entry>, records: seq<Delivery>)
    requires forall i, j | 0 <= i < j < |records| :: records[i].message.id < records[j].message.id
    ensures StoreEach(index, records).1 <==> forall i | 0 <= i < |records| :: !Contradicts(index, records[i])
    ensures StoreEach(index, records).1 ==> Holding(index, StoreEach(index, records).0, records)
    decreases |records|
  {
    if records != [] {
      var first, rest := records[0], records[1..];
      var index1 := StoreOne(index, first).0;
      assert forall i | 0 <= i < |rest| :: rest[i] == records[i + 1];
      assert forall i | 1 <= i < |records| :: records[i] == rest[i - 1];
      if !Contradicts(index, first) {
        StoreEachHolds(index1, rest);
        OneStored(index, first, rest);
        if StoreEach(index1, rest).1 {
          HoldingOneMore(index, index1, StoreEach(index1, rest).0, records);
        }
      }
    }
  }

  lemma OneStored(index: map<int, Entry>, first: Delivery, rest: seq<Delivery>)
    requires !Contradicts(index, first) && forall i | 0 <= i < |rest| :: first.message.id < rest[i].message.id
    ensures var index1 := StoreOne(index, first).0;
      && index1 == index[first.message.id := Incoming(first)] && StoreOne(index, first).1 != Conflict
      && forall i | 0 <= i < |rest| :: Contradicts(index1, rest[i]) <==> Contradicts(index, rest[i])
  {
    if first.message.id in index { assert index[first.message.id := Incoming(first)] == index; }
  }

  lemma HoldingOneMore(index: map<int, Entry>, index1: map<int, Entry>, index2: map<int, Entry>, records: seq<Delivery>)
    requires records != [] && Holding(index1, index2, records[1..])
    requires !Contradicts(index, records[0]) && index1 == index[records[0].message.id := Incoming(records[0])]
    ensures Holding(index, index2, records)
  {
    forall id | id in index2
      ensures id in index || exists i :: 0 <= i < |records| && records[i].message.id == id
    {
      if id !in index1 {
        var i :| 0 <= i < |records[1..]| && records[1..][i].message.id == id;
        assert records[i + 1].message.id == id;
      } else if id !in index {
        assert records[0].message.id == id;
      }
    }
    forall i | 0 <= i < |records|
      ensures records[i].message.id in index2 && index2[records[i].message.id] == Incoming(records[i])
    {
      if i > 0 { assert records[1..][i - 1] == records[i]; }
    }
  }

  /** The requests a page adds to the queue when it is read to its end. */
  function Follows(p: Frame): seq<Frame>
    requires p.PendingPage?
  {
    Acks(p.records) + (if p.hasMore then [SyncRequest(p.next, Some(p.through))] else [])
  }

  /** How many records of a page are handed over. */
  function Handed(p: Frame, handled: nat): nat
    requires p.PendingPage?
  {
    if handled < |p.records| then handled else |p.records|
  }

  /** None of the first `n` records contradicts what is stored. */
  predicate Agrees(c: Client, p: Frame, n: nat)
    requires p.PendingPage? && n <= |p.records|
  {
    forall i | 0 <= i < n :: !Contradicts(c.index, p.records[i])
  }

  lemma PageStores(c: Client, p: Frame, n: nat)
    requires p.PendingPage? && n <= |p.records| && PageFits(c, p)
    ensures StoreEach(c.index, p.records[..n]).1 <==> Agrees(c, p, n)
    ensures Agrees(c, p, n) ==> Holding(c.index, StoreEach(c.index, p.records[..n]).0, p.records[..n])
  {
    AscendsIff(p.records, c.after, p.through);
    hide Holding, StoreEach, WellFormed, Ascends;
    StoreEachHolds(c.index, p.records[..n]);
  }

  /** Which test decides why a page stops the client. */
  lemma PageStopsFor(c: Client, p: Frame, handled: nat, interrupted: bool)
    requires c.authenticated && c.stopped == None && p.PendingPage?
    ensures var c', n := Dispatch(c, p, handled, interrupted), Handed(p, handled);
      && (c'.stopped == Some(SynchronizationFailed) <==> !PageFits(c, p))
      && (PageFits(c, p) ==>
            && (c'.stopped == Some(ConflictingMessage) <==> !Agrees(c, p, n))
            && (c'.stopped == Some(CapacityReached) <==> Agrees(c, p, n) && n < |p.records|)
            && (Agrees(c, p, n) && n == |p.records| ==>
                  c'.stopped == (if interrupted then Some(Stopped)
                                 else if |c.queue| + |Follows(p)| > MAX_AUTOMATIC then Some(QueueOverflow) else None)))
  {
    hide PageFits, StoreEach, Agrees;
    if PageFits(c, p) {
      PageStores(c, p, Handed(p, handled));
      hide Holding;
    }
  }

  /** A page that stops nothing has stored exactly its records, acknowledges every one and
      asks for the rest or ends the synchronization; one that stops the client queues nothing,
      and stores the records handed over when they agree. */
  lemma PageIsAcknowledged(c: Client, p: Frame, handled: nat, interrupted: bool)
    requires c.authenticated && c.stopped == None && p.PendingPage?
    ensures var c', n := Dispatch(c, p, handled, interrupted), Handed(p, handled);
      && (c'.stopped == None ==>
            && n == |p.records| && Holding(c.index, c'.index, p.records) && c'.queue == c.queue + Follows(p)
            && c' == c.(index := c'.index, queue := c'.queue, active := p.hasMore,
                        after := if p.hasMore then p.next else 0, through := if p.hasMore then Some(p.through) else None))
      && (c'.stopped != None ==>
            && SameButStored(c, c') && c'.queue == c.queue
            && (if PageFits(c, p) then Agrees(c, p, n) ==> Holding(c.index, c'.index, p.records[..n]) else c'.index == c.index))
  {
    hide PageFits, StoreEach, Agrees, Holding;
    var n := Handed(p, handled);
    if PageFits(c, p) {
      PageStores(c, p, n);
      FitsActive(c, p);
      assert n == |p.records| ==> p.records[..n] == p.records;
      QueueJoins(c.queue, Acks(p.records), SyncRequest(p.next, Some(p.through)));
    }
  }

  lemma FitsActive(c: Client, p: Frame)
    requires p.PendingPage? && PageFits(c, p)
    ensures c.active
  {
  }

  lemma QueueJoins(queue: seq<Frame>, acks: seq<Frame>, request: Frame)
    ensures queue + (acks + [request]) == queue + acks + [request] && queue + (acks + []) == queue + acks
  {
  }

  // ----- The other frames -----

  /** The first line decides the login: a success line opens the session, a failure line or
      anything else ends it. */
  lemma FirstLineDecides(c: Client, f: Frame, handled: nat, interrupted: bool)
    requires !c.authenticated && c.stopped == None
    ensures var c' := Dispatch(c, f, handled, interrupted);
      && c' == c.(authenticated := c'.authenticated, stopped := c'.stopped)
      && (c'.authenticated <==> f == AuthSuccess)
      && c'.stopped == (if f == AuthSuccess then None
                        else if f == AuthFailure then Some(AuthenticationRejected)
                        else Some(InvalidAuthentication))
  {
  }

  /** Any other frame of an open session: a refused request stops the client, an answer waits
      for the interface, and a second or unasked-for answer stops it. */
  lemma AnswersAreAssociated(c: Client, f: Frame, handled: nat, interrupted: bool)
    requires c.authenticated && c.stopped == None && !f.Message? && !f.PendingPage?
    ensures var c' := Dispatch(c, f, handled, interrupted);
      && c' == c.(stopped := c'.stopped, response := c'.response)
      && (c'.stopped == Some(SynchronizationRefused) <==> f == PendingRefused)
      && (c'.stopped == Some(AcknowledgementFailed) <==> f.AckOutcome? && (f.result == NotRecipient || f.result == InvalidAck))
      && (c'.stopped == Some(AssociationFailed) <==>
            || f.AuthSuccess? || f.AuthFailure?
            || ((f.Accepted? || f.NotAccepted?) && (!c.awaiting || c.response.Some?)))
      && c'.response == (if (f.Accepted? || f.NotAccepted?) && c.awaiting && c.response == None then Some(f) else c.response)
  {
  }

  /** Taking the answer of a submission: an accepted id nobody has yet is kept as one's own. */
  lemma AcceptanceIsKept(c: Client, id: int)
    requires c.stopped == None && c.response == Some(Frame.Accepted(id))
    ensures var c' := Consume(c);
      && (c'.stopped == None <==> 0 < id && id !in c.index)
      && (c'.stopped == None ==> c' == c.(index := c.index[id := Outgoing], awaiting := false, response := None))
      && (c'.stopped != None ==> c' == c.(stopped := Some(InvalidOperationResponse)))
  {
  }

  /** A synchronization starts at the beginning and asks for its first page, unless one is under
      way or the queue is full. */
  lemma SynchronizationStarts(c: Client)
    requires c.stopped == None
    ensures var c' := StartSync(c);
      if c.active then c' == c
      else if |c.queue| >= MAX_AUTOMATIC then c' == c.(stopped := Some(QueueOverflow))
      else c' == c.(active := true, after := 0, through := None, queue := c.queue + [SyncRequest(0, None)])
  {
  }

  /** Which pages pass the client's tests: a synchronization is under way, the watermark stays,
      the records are well formed, new to the cursor, within the watermark and strictly
      increasing, and the next cursor is the last of them. */
  lemma PageFitsExactlyWhen(c: Client, p: Frame)
    requires p.PendingPage?
    ensures PageFits(c, p) <==>
      && c.active && 0 <= p.through && 0 <= p.next && c.after <= p.through && (c.through.Some? ==> p.through == c.through.value)
      && (forall i | 0 <= i < |p.records| :: WellFormed(p.records[i]) && c.after < p.records[i].message.id <= p.through)
      && (forall i, j | 0 <= i < j < |p.records| :: p.records[i].message.id < p.records[j].message.id)
      && (if p.records == [] then p.next == c.after && !p.hasMore else p.next == p.records[|p.records| - 1].message.id)
  {
    hide WellFormed;
    AscendsIff(p.records, c.after, p.through);
  }
}
