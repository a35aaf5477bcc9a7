/** The client side of durable delivery (clientf/client_connection.cpp and the frame handler
    of clientf/terminal_ui.cpp): what one received frame does to the request queue, to the
    pending synchronization and to the index of stored messages. */
module ClientSync {
  import opened Prelude
  import opened Tables

  const MAX_AUTOMATIC: nat := 256
  const SYNC_LIMIT: nat := 50

  /** A message the user submits. */
  datatype Body =
    | ToUser(receiver: Bytes, content: Bytes)
    | ToGroup(group: int, content: Bytes)
    | ToAll(content: Bytes)

  /** Everything that travels on a connection once it is decoded. */
  datatype Frame =
    // server to client
    | AuthSuccess
    | AuthFailure
    | Message(delivery: Delivery)
    | AckOutcome(ackedId: int, result: AckResult)
    | PendingPage(records: seq<Delivery>, through: int, next: int, hasMore: bool)
    | PendingRefused
    | Accepted(id: int)
    | NotAccepted
    // client to server
    | DeliveryAck(messageId: int)
    | SyncRequest(after: int, upTo: Option<int>)
    | Submit(body: Body)

  datatype StopReason =
    | InvalidAuthentication
    | AuthenticationRejected
    | AcknowledgementFailed
    | SynchronizationFailed
    | SynchronizationRefused
    | QueueOverflow
    | CapacityReached
    | ConflictingMessage
    | AssociationFailed
    | InvalidOperationResponse
    | Stopped

  /** An entry of the id index: a received message or one of the user's own. */
  datatype Entry = Incoming(delivery: Delivery) | Outgoing

  datatype Client = Client(
    authenticated: bool,
    stopped: Option<StopReason>,
    queue: seq<Frame>,
    active: bool,
    after: int,
    through: Option<int>,
    index: map<int, Entry>,
    awaiting: bool,
    response: Option<Frame>)

  const NEW_CLIENT: Client := Client(false, None, [], false, 0, None, map[], false, None)

  function Stop(c: Client, reason: StopReason): Client {
    if c.stopped.Some? then c else c.(stopped := Some(reason))
  }

  /** `validDeliveryEnvelope` on the decoded fields. */
  predicate WellFormed(d: Delivery) {
    var m := d.message;
    && 0 < m.id <= MAX_INT64 && 0 < m.senderId <= MAX_INT64 && 0 <= m.createdAt <= MAX_INT64
    && d.sender != [] && m.content != []
    && (m.kind == Group <==> m.groupId.Some?)
    && (m.groupId.Some? ==> 0 < m.groupId.value <= MAX_INT64)
  }

  /** The loop over a page's records: each is well formed and its id lies beyond the one
      before it and within the watermark. */
  predicate Ascends(records: seq<Delivery>, previous: int, through: int)
    decreases |records|
  {
    records == [] ||
    (&& WellFormed(records[0])
     && previous < records[0].message.id <= through
     && Ascends(records[1..], records[0].message.id, through))
  }

  function Last(records: seq<Delivery>, after: int): int {
    if records == [] then after else records[|records| - 1].message.id
  }

  /** The tests of `processPendingPage` before anything is stored. */
  predicate PageFits(c: Client, p: Frame)
    requires p.PendingPage?
  {
    && c.active
    && 0 <= p.through && 0 <= p.next
    && (c.through.Some? ==> c.through.value == p.through)
    && c.after <= p.through
    && Ascends(p.records, c.after, p.through)
    && p.next == Last(p.records, c.after)
    && (p.hasMore ==> p.records != [])
  }

  datatype StoreResult = Stored | Duplicate | Conflict

  /** `receiveValidated` seen through the id index. */
  function StoreOne(index: map<int, Entry>, d: Delivery): (map<int, Entry>, StoreResult) {
    if d.message.id !in index then (index[d.message.id := Incoming(d)], StoreResult.Stored)
    else if index[d.message.id] == Incoming(d) then (index, Duplicate)
    else (index, Conflict)
  }

  /** Records handed to the frame handler one by one, up to the first conflict. */
  function StoreEach(index: map<int, Entry>, records: seq<Delivery>): (map<int, Entry>, bool)
    decreases |records|
  {
    if records == [] then (index, true)
    else
      var (index', r) := StoreOne(index, records[0]);
      if r == Conflict then (index, false) else StoreEach(index', records[1..])
  }

  function Acks(records: seq<Delivery>): (acks: seq<Frame>)
    ensures |acks| == |records|
    ensures forall i | 0 <= i < |records| :: acks[i] == DeliveryAck(records[i].message.id)
  {
    seq(|records|, i requires 0 <= i < |records| => DeliveryAck(records[i].message.id))
  }

  function StartSync(c: Client): Client {
    if c.active then c
    else if |c.queue| >= MAX_AUTOMATIC then Stop(c, QueueOverflow)
    else c.(active := true, after := 0, through := None, queue := c.queue + [SyncRequest(0, None)])
  }

  /** A MESSAGE frame. `room` is whether the buffer has room, `interrupted` whether another
      thread stops the client before the acknowledgement is queued. */
  function ReceiveMessage(c: Client, d: Delivery, room: bool, interrupted: bool): Client {
    if !WellFormed(d) then c
    else
      var (index', r) := StoreOne(c.index, d);
      if r == Conflict then Stop(c, ConflictingMessage)
      else if r == StoreResult.Stored && !room then Stop(c, CapacityReached)
      else
        var c' := c.(index := index');
        if interrupted then Stop(c', Stopped)
        else if |c.queue| >= MAX_AUTOMATIC then Stop(c', QueueOverflow)
        else c'.(queue := c.queue + [DeliveryAck(d.message.id)])
  }

  /** A SYNC_PENDING page. Only the first `handled` records are stored when the buffer is full
      or another thread stops the client; acknowledgements and the next request are queued
      together, after every record has been stored, or not at all. */
  function ReceivePage(c: Client, p: Frame, handled: nat, interrupted: bool): Client
    requires p.PendingPage?
  {
    if !PageFits(c, p) then Stop(c, SynchronizationFailed)
    else
      var n := if handled < |p.records| then handled else |p.records|;
      var (index', ok) := StoreEach(c.index, p.records[..n]);
      var c' := c.(index := index');
      if !ok then Stop(c', ConflictingMessage)
      else if n < |p.records| then Stop(c', CapacityReached)
      else if interrupted then Stop(c', Stopped)
      else if |c.queue| + |p.records| + (if p.hasMore then 1 else 0) > MAX_AUTOMATIC then Stop(c', QueueOverflow)
      else if p.hasMore then
        c'.(queue := c.queue + Acks(p.records) + [SyncRequest(p.next, Some(p.through))],
            after := p.next, through := Some(p.through))
      else
        c'.(queue := c.queue + Acks(p.records), active := false, after := 0, through := None)
  }

  /** `dispatchFrame`. */
  function Dispatch(c: Client, f: Frame, handled: nat, interrupted: bool): Client {
    if !c.authenticated then
      match f
      case AuthSuccess => c.(authenticated := true)
      case AuthFailure => Stop(c, AuthenticationRejected)
      case _ => Stop(c, InvalidAuthentication)
    else
      match f
      case Message(d) => ReceiveMessage(c, d, handled > 0, interrupted)
      case AckOutcome(_, r) => if AckRefused(r) then Stop(c, AcknowledgementFailed) else c
      case PendingPage(_, _, _, _) => ReceivePage(c, f, handled, interrupted)
      case PendingRefused => Stop(c, SynchronizationRefused)
      case AuthSuccess | AuthFailure | Accepted(_) | NotAccepted =>
        if !c.awaiting || c.response.Some? || f.AuthSuccess? || f.AuthFailure? then Stop(c, AssociationFailed)
        else c.(response := Some(f))
      case DeliveryAck(_) | SyncRequest(_, _) | Submit(_) => c
  }

  /** `consumeResponse` for a submitted message: the accepted id is committed to the buffer. */
  function Consume(c: Client): Client {
    match c.response
    case Some(Accepted(id)) =>
      if id <= 0 || id in c.index then Stop(c, InvalidOperationResponse)
      else c.(index := c.index[id := Outgoing], awaiting := false, response := None)
    case _ => c.(awaiting := false, response := None)
  }

  // ----- Against any server whatever -----

  /** The frames of one synchronization the client accepts, one after the other. */
  ghost predicate AcceptedPages(c: Client, pages: seq<Frame>)
    decreases |pages|
  {
    pages == [] ||
    (&& pages[0].PendingPage? && pages[0].hasMore && PageFits(c, pages[0])
     && AcceptedPages(c.(after := pages[0].next, through := Some(pages[0].through)), pages[1..]))
  }

  /** Accepting a page that announces more strictly raises the cursor, below a watermark that
      stays what the first page made it. */
  lemma AcceptedPageAdvances(c: Client, p: Frame, handled: nat)
    requires p.PendingPage? && p.hasMore && c.stopped == None
    ensures var c' := ReceivePage(c, p, handled, false);
      c'.stopped == None ==>
        && c'.active && c'.through == Some(p.through)
        && (c.through.Some? ==> c'.through == c.through)
        && c.after < c'.after <= p.through
        && p.through - c'.after < p.through - c.after
        && SyncRequest(c'.after, c'.through) in c'.queue
  {
    hide WellFormed, Ascends;
    if PageFits(c, p) {
      AscendsIff(p.records, c.after, p.through);
    }
  }

  /** Adjacent comparisons order the whole page. */
  lemma {:induction false} AscendsIff(records: seq<Delivery>, previous: int, through: int)
    ensures Ascends(records, previous, through) <==>
      && (forall i | 0 <= i < |records| :: WellFormed(records[i]) && previous < records[i].message.id <= through)
      && (forall i, j | 0 <= i < j < |records| :: records[i].message.id < records[j].message.id)
    decreases |records|
  {
    hide WellFormed;
    if records != [] {
      var rest := records[1..];
      AscendsIff(rest, records[0].message.id, through);
      assert forall i | 0 <= i < |rest| :: rest[i] == records[i + 1];
      assert forall i | 1 <= i < |records| :: records[i] == rest[i - 1];
    }
  }

  /** Whatever the server answers, a synchronization accepts at most `through - after` pages
      that announce more: no server can keep it going. */
  lemma {:induction false} PagesAreBounded(c: Client, pages: seq<Frame>)
    requires AcceptedPages(c, pages) && pages != []
    ensures forall i | 0 <= i < |pages| :: pages[i].PendingPage? && pages[i].through == pages[0].through
    ensures |pages| <= pages[0].through - c.after
    decreases |pages|
  {
    AscendsIff(pages[0].records, c.after, pages[0].through);
    if pages[1..] != [] {
      var c' := c.(after := pages[0].next, through := Some(pages[0].through));
      PagesAreBounded(c', pages[1..]);
      assert forall i | 1 <= i < |pages| :: pages[i] == pages[1..][i - 1];
    }
  }
}
