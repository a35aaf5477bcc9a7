/** Every event keeps the invariant: a client reads a frame or takes its response. */
module ClientReceive {
  import opened Prelude
  import opened Tables
  import opened ClientSync
  import opened DeliverySystem
  import opened DeliveryInvariant
  import opened ClientSteps

  /** The head of the incoming channel is taken; the server's side does not move. */
  predicate HeadTaken(s: Session, s': Session) {
    && s.down != [] && s'.down == s.down[1..]
    && s'.user == s.user && s'.phase == s.phase && s'.ready == s.ready && s'.stopping == s.stopping && s'.cut == s.cut
    && s'.reply == s.reply && s'.up == s.up && s'.job == s.job && s'.goal == s.goal
    && s'.client.awaiting == s.client.awaiting
  }

  predicate SameProgress(s: Session, s': Session) {
    && s'.client.active == s.client.active && s'.client.after == s.client.after && s'.client.through == s.client.through
    && s'.completed == s.completed
  }

  lemma TakenHead(s: Session, s': Session, k: Token)
    requires HeadTaken(s, s')
    ensures Count(s.down, k) == Count(s'.down, k) + (if Is(s.down[0], k) then 1 else 0)
  {
  }

  /** Reading the authentication line. */
  lemma AuthTaken(s: Session, s': Session)
    requires AuthInv(s) && HeadTaken(s, s')
    requires
      || (s.client.authenticated && s'.client.authenticated)
      || (&& !s.client.authenticated && s.client.stopped == None
          && s'.client.(stopped := None) == NEW_CLIENT.(authenticated := s.down[0].AuthSuccess?)
          && (s'.client.stopped == None ==> s.down[0].AuthSuccess?))
    ensures AuthInv(s')
  {
  }

  /** A frame is read that leaves the synchronization where it is: the index may grow by
      deliveries for the user, and one acknowledgement of a held message may be queued. */
  predicate Noted(s: Session, s': Session) {
    && HeadTaken(s, s') && SameProgress(s, s')
    && s'.client.response == s.client.response
    && (s'.client.queue == s.client.queue
        || (s.down[0].Message? && s'.client.queue == s.client.queue + [DeliveryAck(s.down[0].delivery.message.id)]))
  }

  lemma NotedCounts(s: Session, s': Session)
    requires CountInv(s) && Noted(s, s')
    ensures CountInv(s')
  {
    hide Count;
    TakenHead(s, s', Sync);
    TakenHead(s, s', Foreground);
    if s.down[0].Message? {
      CountPush(s.client.queue, DeliveryAck(s.down[0].delivery.message.id), Sync);
      CountPush(s.client.queue, DeliveryAck(s.down[0].delivery.message.id), Foreground);
    }
  }

  lemma NotedTraffic(s: Session, s': Session)
    requires TrafficInv(s) && Noted(s, s')
    ensures TrafficInv(s')
  {
  }

  lemma NotedFrames(t: Tables, acks: map<(int, int), nat>, sid: nat, s: Session, s': Session)
    requires Consistent(t) && FramesInv(t, acks, sid, s) && Noted(s, s') && Grown(t, s, s')
    requires s.down[0].Message? && s'.client.queue != s.client.queue ==> Holds(s'.client, s.down[0].delivery.message.id)
    ensures FramesInv(t, acks, sid, s')
  {
    hide Consistent, Grown, FrameOk;
    if s.client.response.Some? { GrownFrame(t, acks, sid, s, s', s.client.response.value); }
    if s.reply.Some? { GrownFrame(t, acks, sid, s, s', s.reply.value); }
    GrownFrames(t, acks, sid, s, s', s.down);
    GrownFrames(t, acks, sid, s, s', s.up);
    GrownFrames(t, acks, sid, s, s', s.client.queue);
    if s.down[0].Message? && s'.client.queue != s.client.queue {
      assert s.down[0] in s.down;
      AckOk(t, acks, sid, s, s', s.down[0].delivery);
    }
  }

  lemma AckOk(t: Tables, acks: map<(int, int), nat>, sid: nat, s: Session, s': Session, d: Delivery)
    requires FrameOk(t, acks, sid, s, Message(d)) && s'.user == s.user && Holds(s'.client, d.message.id)
    ensures FrameOk(t, acks, sid, s', DeliveryAck(d.message.id))
  {
  }

  lemma NotedKeeps(t: Tables, acks: map<(int, int), nat>, sid: nat, s: Session, s': Session)
    requires Consistent(t) && SessionInv(t, acks, sid, s) && Noted(s, s') && Grown(t, s, s') && AuthInv(s')
    requires s.down[0].Message? && s'.client.queue != s.client.queue ==> Holds(s'.client, s.down[0].delivery.message.id)
    ensures SessionInv(t, acks, sid, s')
  {
    hide Consistent, AuthInv, TrafficInv, CountInv, IndexInv, FramesInv, GoalInv, Grown, IsUser, DeliveryOk;
    NotedCounts(s, s');
    NotedTraffic(s, s');
    NotedFrames(t, acks, sid, s, s');
    GrownIndex(t, s, s');
    GrownGoal(t, acks, sid, s, s');
  }

  /** The answer to a submitted message goes into the response slot. */
  predicate Answered(s: Session, s': Session) {
    && HeadTaken(s, s') && SameProgress(s, s') && SameView(s, s')
    && (s.down[0].Accepted? || s.down[0].NotAccepted?)
    && s.client.response == None && s'.client.response == Some(s.down[0])
    && s'.client.queue == s.client.queue
    && s'.client.authenticated == s.client.authenticated && s.client.authenticated
  }

  lemma AnsweredKeeps(t: Tables, acks: map<(int, int), nat>, sid: nat, s: Session, s': Session)
    requires SessionInv(t, acks, sid, s) && Answered(s, s')
    ensures SessionInv(t, acks, sid, s')
  {
    hide Count, FrameOk, IndexInv, IsUser, DeliveryOk;
    AuthTaken(s, s');
    AnsweredFrames(t, acks, sid, s, s');
    TakenHead(s, s', Sync);
    TakenHead(s, s', Foreground);
    SameIndex(t, s, s');
    hide AuthInv, FramesInv;
    assert TrafficInv(s');
    hide TrafficInv;
    assert GoalInv(t, acks, sid, s');
  }

  lemma AnsweredFrames(t: Tables, acks: map<(int, int), nat>, sid: nat, s: Session, s': Session)
    requires FramesInv(t, acks, sid, s) && Answered(s, s')
    ensures FramesInv(t, acks, sid, s')
  {
    hide FrameOk;
    SameFrames(t, acks, sid, s, s');
    assert s.down[0] in s.down;
  }

  // ----- A page that the client accepts whole -----

  /** Every record is stored, every acknowledgement queued, and the cursor moves on or the
      synchronization ends. */
  predicate Paged(s: Session, s': Session) {
    && HeadTaken(s, s') && s.down[0].PendingPage?
    && var p := s.down[0];
    && s'.client.authenticated == s.client.authenticated && s.client.authenticated
    && s'.client.response == s.client.response
    && (forall i | 0 <= i < |p.records| :: Holds(s'.client, p.records[i].message.id))
    && if p.hasMore then
         && s'.client.queue == s.client.queue + Acks(p.records) + [SyncRequest(p.next, Some(p.through))]
         && s'.client.active && s'.client.after == p.next && s'.client.through == Some(p.through)
         && s'.completed == s.completed
       else
         && s'.client.queue == s.client.queue + Acks(p.records)
         && !s'.client.active && s'.client.after == 0 && s'.client.through == None
         && s'.completed
  }

  lemma PagedCounts(s: Session, s': Session)
    requires CountInv(s) && Paged(s, s')
    ensures CountInv(s')
    ensures s.client.active && Count(s'.down, Sync) == 0 && Count(s.up, Sync) == 0 && Count(s.client.queue, Sync) == 0
    ensures CountOne(s.reply, Sync) == 0 && CountOne(s.client.response, Sync) == 0
  {
    hide Count;
    var p := s.down[0];
    var acks := Acks(p.records);
    forall k: Token
      ensures Count(s.client.queue + acks, k) == Count(s.client.queue, k)
    {
      CountAppend(s.client.queue, acks, k);
      CountZero(acks, k);
    }
    CountPush(s.client.queue + acks, SyncRequest(p.next, Some(p.through)), Sync);
    CountPush(s.client.queue + acks, SyncRequest(p.next, Some(p.through)), Foreground);
    TakenHead(s, s', Sync);
    TakenHead(s, s', Foreground);
  }

  lemma PagedTraffic(s: Session, s': Session)
    requires TrafficInv(s) && AuthInv(s) && Paged(s, s')
    ensures TrafficInv(s') && AuthInv(s')
  {
  }

  lemma NoneOfKind(p: seq<Frame>, k: Token)
    requires Count(p, k) == 0
    ensures forall f | f in p :: !Is(f, k)
  {
    hide Count, Is;
    forall f | f in p
      ensures !Is(f, k)
    {
      if Is(f, k) { CountPositive(p, k, f); }
    }
  }

  lemma PagedFrames(t: Tables, acks: map<(int, int), nat>, sid: nat, s: Session, s': Session)
    requires Consistent(t) && FramesInv(t, acks, sid, s) && CountInv(s) && Paged(s, s') && Grown(t, s, s')
    ensures FramesInv(t, acks, sid, s')
  {
    hide Consistent, FrameOk, Grown, CountInv, Count, AllOk, Acks;
    PagedCounts(s, s');
    NoneOfKind(s'.down, Sync);
    NoneOfKind(s.up, Sync);
    NoneOfKind(s.client.queue, Sync);
    if s.client.response.Some? { GrownFrame(t, acks, sid, s, s', s.client.response.value); }
    if s.reply.Some? { GrownFrame(t, acks, sid, s, s', s.reply.value); }
    RestOk(t, acks, sid, s);
    GrownFrames(t, acks, sid, s, s', s'.down);
    GrownFrames(t, acks, sid, s, s', s.up);
    GrownFrames(t, acks, sid, s, s', s.client.queue);
    PagedQueue(t, acks, sid, s, s');
  }

  lemma RestOk(t: Tables, acks: map<(int, int), nat>, sid: nat, s: Session)
    requires AllOk(t, acks, sid, s, s.down) && s.down != []
    ensures FrameOk(t, acks, sid, s, s.down[0]) && AllOk(t, acks, sid, s, s.down[1..])
  {
    hide FrameOk;
    assert s.down[0] in s.down;
  }

  lemma AppendedOk(t: Tables, acks: map<(int, int), nat>, sid: nat, s: Session, p: seq<Frame>, q: seq<Frame>)
    requires AllOk(t, acks, sid, s, p) && AllOk(t, acks, sid, s, q)
    ensures AllOk(t, acks, sid, s, p + q)
  {
    hide FrameOk;
  }

  /** The queue of a page read to its end: what it held, the acknowledgements, the next request. */
  lemma PagedQueue(t: Tables, acks: map<(int, int), nat>, sid: nat, s: Session, s': Session)
    requires Paged(s, s') && FrameOk(t, acks, sid, s, s.down[0]) && AllOk(t, acks, sid, s', s.client.queue)
    requires s'.user == s.user && s'.goal == s.goal
    ensures AllOk(t, acks, sid, s', s'.client.queue)
  {
    hide FrameOk, AllOk, Acks;
    var p := s.down[0];
    PageAcksOk(t, acks, sid, s, s', p);
    AppendedOk(t, acks, sid, s', s.client.queue, Acks(p.records));
    if p.hasMore {
      NextRequestOk(t, acks, sid, s, s', p);
      var request := SyncRequest(p.next, Some(p.through));
      assert AllOk(t, acks, sid, s', [request]) by { OneOk(t, acks, sid, s', request); }
      AppendedOk(t, acks, sid, s', s.client.queue + Acks(p.records), [request]);
    }
  }

  lemma OneOk(t: Tables, acks: map<(int, int), nat>, sid: nat, s: Session, f: Frame)
    requires FrameOk(t, acks, sid, s, f)
    ensures AllOk(t, acks, sid, s, [f])
  {
    hide FrameOk;
  }

  lemma PageAcksOk(t: Tables, acks: map<(int, int), nat>, sid: nat, s: Session, s': Session, p: Frame)
    requires p.PendingPage? && FrameOk(t, acks, sid, s, p) && s'.user == s.user
    requires forall i | 0 <= i < |p.records| :: Holds(s'.client, p.records[i].message.id)
    ensures AllOk(t, acks, sid, s', Acks(p.records))
  {
    hide PageFits;
    forall f | f in Acks(p.records)
      ensures FrameOk(t, acks, sid, s', f)
    {
      var i :| 0 <= i < |p.records| && f == DeliveryAck(p.records[i].message.id);
      assert DeliveryOk(t, s.user, p.records[i]);
    }
  }

  lemma NextRequestOk(t: Tables, acks: map<(int, int), nat>, sid: nat, s: Session, s': Session, p: Frame)
    requires p.PendingPage? && FrameOk(t, acks, sid, s, p) && s'.goal == s.goal && p.hasMore
    requires s'.client.after == p.next && s'.client.through == Some(p.through)
    ensures FrameOk(t, acks, sid, s', SyncRequest(p.next, Some(p.through)))
  {
    hide DeliveryOk, InRecords;
    AscendsIff(p.records, s.client.after, p.through);
  }

  lemma PagedGoal(t: Tables, acks: map<(int, int), nat>, sid: nat, s: Session, s': Session)
    requires GoalInv(t, acks, sid, s) && Grown(t, s, s') && Paged(s, s') && FrameOk(t, acks, sid, s, s.down[0])
    ensures GoalInv(t, acks, sid, s')
  {
    hide DeliveryOk, Ascends;
    assert forall id | Holds(s.client, id) :: Holds(s'.client, id);
    var p := s.down[0];
    forall id | id in s.goal.value.ids
      ensures Holds(s'.client, id) || ByOther(acks, sid, s.user, id) || (p.hasMore && id > p.next)
    {
      if InRecords(p.records, id) {
        var i :| 0 <= i < |p.records| && p.records[i].message.id == id;
      }
    }
  }

  lemma PagedKeeps(t: Tables, acks: map<(int, int), nat>, sid: nat, s: Session, s': Session)
    requires Consistent(t) && SessionInv(t, acks, sid, s) && Paged(s, s') && Grown(t, s, s')
    ensures SessionInv(t, acks, sid, s')
  {
    hide Consistent, AuthInv, TrafficInv, CountInv, IndexInv, GoalInv, Grown, IsUser, DeliveryOk, FrameOk;
    assert s.down[0] in s.down;
    PagedCounts(s, s');
    PagedTraffic(s, s');
    PagedFrames(t, acks, sid, s, s');
    GrownIndex(t, s, s');
    PagedGoal(t, acks, sid, s, s');
  }

  // ----- One frame -----

  /** Why an honest server's client may stop: refused, full, overrun or stopped by its user;
      never because a check on what the server said has failed. */
  predicate HonestStop(c: Client) {
    match c.stopped
    case None => true
    case Some(reason) =>
      || reason == AuthenticationRejected || reason == SynchronizationRefused
      || reason == QueueOverflow || reason == CapacityReached || reason == Stopped
  }

  /** What reading one frame must achieve. */
  ghost predicate ReadsWell(t: Tables, acks: map<(int, int), nat>, sid: nat, s: Session, s': Session) {
    SessionInv(t, acks, sid, s') && Grown(t, s, s') && HonestStop(s'.client)
  }

  lemma GreetingReceived(t: Tables, acks: map<(int, int), nat>, sid: nat, s: Session, handled: nat, interrupted: bool)
    requires Consistent(t) && SessionInv(t, acks, sid, s) && s.client.stopped == None && s.down != []
    requires !s.client.authenticated
    ensures ReadsWell(t, acks, sid, s, Received(s, handled, interrupted))
  {
    hide Consistent, TrafficInv, CountInv, IndexInv, FramesInv, GoalInv, JobInv, IsUser;
    var s' := Received(s, handled, interrupted);
    AuthTaken(s, s');
    assert Grown(t, s, s');
    assert Noted(s, s');
    hide AuthInv, Received, Grown, Noted;
    NotedKeeps(t, acks, sid, s, s');
  }

  lemma MessageReceived(t: Tables, acks: map<(int, int), nat>, sid: nat, s: Session, handled: nat, interrupted: bool)
    requires Consistent(t) && SessionInv(t, acks, sid, s) && s.client.stopped == None && s.down != []
    requires s.client.authenticated && s.down[0].Message?
    ensures ReadsWell(t, acks, sid, s, Received(s, handled, interrupted))
  {
    hide Consistent, TrafficInv, CountInv, IndexInv, GoalInv, JobInv, IsUser, DeliveryOk, WellFormed, Received, StoreOne, Noted;
    hide HonestStop, AuthInv;
    var s' := Received(s, handled, interrupted);
    var d := s.down[0].delivery;
    assert DeliveryOk(t, s.user, d) by {
      assert s.down[0] in s.down && FrameOk(t, acks, sid, s, s.down[0]);
    }
    hide FramesInv;
    StoredIsWellFormed(t, s.user, d);
    StoreOneLaw(t, s, d);
    MessageShape(s, handled, interrupted);
    assert HeadTaken(s, s') by { NotedTakes(s, s'); }
    AuthTaken(s, s');
    assert Grown(t, s, s');
    hide Grown;
    NotedKeeps(t, acks, sid, s, s');
  }

  lemma NotedTakes(s: Session, s': Session)
    requires Noted(s, s')
    ensures HeadTaken(s, s')
  {
  }

  /** What storing, or not storing, one live message makes of the client. */
  lemma MessageShape(s: Session, handled: nat, interrupted: bool)
    requires s.client.stopped == None && s.client.authenticated && s.down != [] && s.down[0].Message?
    requires WellFormed(s.down[0].delivery)
    requires var d := s.down[0].delivery; var (index', r) := StoreOne(s.client.index, d);
      && r != Conflict && d.message.id in index' && index'[d.message.id] == Incoming(d)
    ensures var s' := Received(s, handled, interrupted);
      && Noted(s, s') && HonestStop(s'.client) && s'.client.authenticated
      && (s'.client.index == s.client.index || s'.client.index == StoreOne(s.client.index, s.down[0].delivery).0)
      && (s'.client.queue != s.client.queue ==> Holds(s'.client, s.down[0].delivery.message.id))
  {
    hide WellFormed, StoreOne, ReceiveMessage;
    MessageClient(s.client, s.down[0].delivery, handled > 0, interrupted);
  }

  /** A message is stored and its acknowledgement queued, or the client stops. */
  lemma MessageClient(c: Client, d: Delivery, room: bool, interrupted: bool)
    requires WellFormed(d) && c.stopped == None
    requires var (index', r) := StoreOne(c.index, d);
      && r != Conflict && d.message.id in index' && index'[d.message.id] == Incoming(d)
    ensures var c' := ReceiveMessage(c, d, room, interrupted);
      && c' == c.(index := c'.index, queue := c'.queue, stopped := c'.stopped) && HonestStop(c')
      && (c'.index == c.index || c'.index == StoreOne(c.index, d).0)
      && (c'.queue == c.queue || (c'.queue == c.queue + [DeliveryAck(d.message.id)] && Holds(c', d.message.id)))
  {
    hide WellFormed, StoreOne;
  }

  lemma PageNeedsSync(c: Client, p: Frame)
    requires p.PendingPage? && PageFits(c, p)
    ensures c.active
  {
  }

  /** What storing the first `n` records of a page makes of the client. */
  lemma PageShape(s: Session, handled: nat, interrupted: bool, n: nat)
    requires s.client.stopped == None && s.client.authenticated && s.down != [] && s.down[0].PendingPage?
    requires PageFits(s.client, s.down[0]) && s.client.active
    requires n == if handled < |s.down[0].records| then handled else |s.down[0].records|
    requires StoreEach(s.client.index, s.down[0].records[..n]).1
    requires var index' := StoreEach(s.client.index, s.down[0].records[..n]).0;
      forall i | 0 <= i < n :: s.down[0].records[i].message.id in index' && index'[s.down[0].records[i].message.id].Incoming?
    ensures var s' := Received(s, handled, interrupted);
      && s'.client.index == StoreEach(s.client.index, s.down[0].records[..n]).0
      && HonestStop(s'.client) && s'.client.authenticated
      && (Noted(s, s') || Paged(s, s'))
      && (Noted(s, s') ==> s'.client.queue == s.client.queue)
  {
    hide PageFits, StoreEach;
    var s' := Received(s, handled, interrupted);
    if s'.client.stopped.Some? {
      assert Noted(s, s');
    } else {
      assert Paged(s, s');
    }
  }

  lemma PageIsOk(t: Tables, acks: map<(int, int), nat>, sid: nat, s: Session)
    requires FramesInv(t, acks, sid, s) && s.down != [] && s.down[0].PendingPage?
    ensures PageFits(s.client, s.down[0])
    ensures forall i | 0 <= i < |s.down[0].records| :: DeliveryOk(t, s.user, s.down[0].records[i])
  {
    hide DeliveryOk, PageFits;
    assert s.down[0] in s.down && FrameOk(t, acks, sid, s, s.down[0]);
  }

  lemma PageReceived(t: Tables, acks: map<(int, int), nat>, sid: nat, s: Session, handled: nat, interrupted: bool)
    requires Consistent(t) && SessionInv(t, acks, sid, s) && s.client.stopped == None && s.down != []
    requires s.client.authenticated && s.down[0].PendingPage?
    ensures ReadsWell(t, acks, sid, s, Received(s, handled, interrupted))
  {
    hide Consistent, AuthInv, TrafficInv, CountInv, IndexInv, FramesInv, GoalInv, JobInv, IsUser, DeliveryOk;
    hide PageFits, Received, StoreEach, Grown, Paged, Noted, HonestStop;
    var s' := Received(s, handled, interrupted);
    var p := s.down[0];
    PageIsOk(t, acks, sid, s);
    PageNeedsSync(s.client, p);
    var n := if handled < |p.records| then handled else |p.records|;
    StoreEachLaw(t, s, p.records[..n]);
    PageShape(s, handled, interrupted, n);
    PageTaken(s, s');
    SameGrowth(t, s, s', p.records[..n]);
    if Noted(s, s') {
      NotedKeeps(t, acks, sid, s, s');
    } else {
      PagedKeeps(t, acks, sid, s, s');
    }
  }

  lemma SameGrowth(t: Tables, s: Session, s': Session, records: seq<Delivery>)
    requires var index' := StoreEach(s.client.index, records).0;
      Grown(t, s, s.(client := s.client.(index := index'))) && s'.user == s.user && s'.client.index == index'
    ensures Grown(t, s, s')
  {
    hide StoreEach, DeliveryOk;
  }

  lemma PageTaken(s: Session, s': Session)
    requires AuthInv(s) && s.client.authenticated && s'.client.authenticated && (Noted(s, s') || Paged(s, s'))
    ensures s'.user == s.user && AuthInv(s')
  {
    hide AuthInv;
    AuthTaken(s, s');
  }

  lemma OtherReceived(t: Tables, acks: map<(int, int), nat>, sid: nat, s: Session, handled: nat, interrupted: bool)
    requires Consistent(t) && SessionInv(t, acks, sid, s) && s.client.stopped == None && s.down != []
    requires s.client.authenticated && !s.down[0].Message? && !s.down[0].PendingPage?
    ensures ReadsWell(t, acks, sid, s, Received(s, handled, interrupted))
  {
    hide Consistent, IndexInv, GoalInv, JobInv, IsUser, DeliveryOk, Received, Answered, Noted, HonestStop, AuthInv, TrafficInv;
    hide CountInv, FramesInv;
    var s' := Received(s, handled, interrupted);
    OtherFrames(t, acks, sid, s);
    OtherShape(s, handled, interrupted);
    assert HeadTaken(s, s') by { OtherTakes(s, s'); }
    AuthTaken(s, s');
    assert Grown(t, s, s');
    hide Grown;
    if Is(s.down[0], Foreground) {
      AnsweredKeeps(t, acks, sid, s, s');
    } else {
      NotedKeeps(t, acks, sid, s, s');
    }
  }

  lemma OtherTakes(s: Session, s': Session)
    requires Noted(s, s') || Answered(s, s')
    ensures HeadTaken(s, s')
  {
  }

  /** What a frame that is neither a message nor a page can be. */
  lemma OtherFrames(t: Tables, acks: map<(int, int), nat>, sid: nat, s: Session)
    requires SessionInv(t, acks, sid, s) && s.down != [] && s.client.authenticated
    requires !s.down[0].Message? && !s.down[0].PendingPage?
    ensures OtherHead(s)
  {
    hide IndexInv, GoalInv, JobInv, IsUser, DeliveryOk;
    var f := s.down[0];
    assert f in s.down && FrameOk(t, acks, sid, s, f);
    CountPop(s.down, Foreground);
    hide Count, FramesInv;
  }

  /** An acknowledgement's outcome, a refused page, or the awaited answer to a submission. */
  predicate OtherHead(s: Session) {
    && s.down != []
    && match s.down[0]
       case AckOutcome(_, r) => !AckRefused(r)
       case PendingRefused => true
       case Accepted(_) | NotAccepted => s.client.awaiting && s.client.response == None
       case _ => false
  }

  lemma OtherShape(s: Session, handled: nat, interrupted: bool)
    requires s.client.stopped == None && s.client.authenticated && OtherHead(s)
    ensures var s' := Received(s, handled, interrupted);
      && HonestStop(s'.client) && s'.client.authenticated && s'.client.index == s.client.index
      && (if Is(s.down[0], Foreground) then Answered(s, s') else Noted(s, s') && s'.client.queue == s.client.queue)
  {
  }

  /** Reading any frame keeps the session's invariant, loses nothing stored and trips none of
      the client's checks. */
  lemma ReceiveKeeps(t: Tables, acks: map<(int, int), nat>, sid: nat, s: Session, handled: nat, interrupted: bool)
    requires Consistent(t) && SessionInv(t, acks, sid, s) && s.client.stopped == None && s.down != []
    ensures ReadsWell(t, acks, sid, s, Received(s, handled, interrupted))
  {
    hide Consistent, SessionInv, ReadsWell, Received;
    if !s.client.authenticated {
      GreetingReceived(t, acks, sid, s, handled, interrupted);
    } else if s.down[0].Message? {
      MessageReceived(t, acks, sid, s, handled, interrupted);
    } else if s.down[0].PendingPage? {
      PageReceived(t, acks, sid, s, handled, interrupted);
    } else {
      OtherReceived(t, acks, sid, s, handled, interrupted);
    }
  }

  // ----- The response of a foreground operation -----

  /** The response slot is emptied; an accepted id enters the index. */
  predicate Emptied(s: Session, s': Session) {
    && s.client.response.Some?
    && s'.user == s.user && s'.phase == s.phase && s'.ready == s.ready && s'.stopping == s.stopping && s'.cut == s.cut
    && s'.down == s.down && s'.reply == s.reply && s'.up == s.up && s'.job == s.job && s'.goal == s.goal
    && SameProgress(s, s')
    && s'.client.authenticated == s.client.authenticated && s.client.authenticated
    && s'.client.stopped == None
    && s'.client.queue == s.client.queue && s'.client.response == None && !s'.client.awaiting
    && match s.client.response.value
       case Accepted(id) => s'.client.index == s.client.index[id := Outgoing] && id !in s.client.index
       case _ => s'.client.index == s.client.index
  }

  lemma EmptiedCounts(s: Session, s': Session)
    requires TrafficInv(s) && CountInv(s) && Emptied(s, s')
    ensures CountInv(s')
    ensures Count(s.down, Foreground) == 0 && Count(s.up, Foreground) == 0 && Count(s.client.queue, Foreground) == 0
    ensures CountOne(s.reply, Foreground) == 0
  {
    hide Count;
  }

  lemma EmptiedFrame(t: Tables, acks: map<(int, int), nat>, sid: nat, s: Session, s': Session, f: Frame)
    requires Emptied(s, s') && FrameOk(t, acks, sid, s, f) && !Is(f, Foreground)
    ensures FrameOk(t, acks, sid, s', f)
  {
    hide DeliveryOk, OwnMessage, Ascends, InRecords;
  }

  lemma EmptiedFrames(t: Tables, acks: map<(int, int), nat>, sid: nat, s: Session, s': Session)
    requires FramesInv(t, acks, sid, s) && TrafficInv(s) && CountInv(s) && Emptied(s, s')
    ensures FramesInv(t, acks, sid, s')
  {
    EmptiedCounts(s, s');
    hide FrameOk, Count, TrafficInv, CountInv;
    NoneOfKind(s.down, Foreground);
    NoneOfKind(s.up, Foreground);
    NoneOfKind(s.client.queue, Foreground);
    forall f | (f in s.down || f in s.up || f in s.client.queue || s.reply == Some(f))
      ensures FrameOk(t, acks, sid, s', f)
    {
      EmptiedFrame(t, acks, sid, s, s', f);
    }
  }

  lemma EmptiedIndex(t: Tables, acks: map<(int, int), nat>, sid: nat, s: Session, s': Session)
    requires IndexInv(t, s) && FramesInv(t, acks, sid, s) && Emptied(s, s')
    ensures IndexInv(t, s')
    ensures forall id | Holds(s.client, id) :: Holds(s'.client, id)
  {
    hide DeliveryOk, OwnMessage, AllOk;
    forall id | id in s'.client.index
      ensures EntryOk(t, s'.user, id, s'.client.index[id])
    {
      if id in s.client.index {
        assert EntryOk(t, s.user, id, s.client.index[id]);
      }
    }
  }

  lemma EmptiedGoal(t: Tables, acks: map<(int, int), nat>, sid: nat, s: Session, s': Session)
    requires GoalInv(t, acks, sid, s) && Emptied(s, s')
    requires forall id | Holds(s.client, id) :: Holds(s'.client, id)
    ensures GoalInv(t, acks, sid, s')
  {
  }

  lemma EmptiedKeeps(t: Tables, acks: map<(int, int), nat>, sid: nat, s: Session, s': Session)
    requires SessionInv(t, acks, sid, s) && Emptied(s, s')
    ensures SessionInv(t, acks, sid, s')
  {
    hide AuthInv, TrafficInv, CountInv, IndexInv, FramesInv, GoalInv, IsUser, DeliveryOk;
    EmptiedCounts(s, s');
    EmptiedFrames(t, acks, sid, s, s');
    EmptiedIndex(t, acks, sid, s, s');
    EmptiedGoal(t, acks, sid, s, s');
    EmptiedRest(s, s');
  }

  lemma EmptiedRest(s: Session, s': Session)
    requires AuthInv(s) && TrafficInv(s) && Emptied(s, s')
    ensures AuthInv(s') && TrafficInv(s')
  {
  }

  /** Taking a response keeps the invariant; an accepted id never is one already stored. */
  lemma ConsumeKeeps(t: Tables, acks: map<(int, int), nat>, sid: nat, s: Session)
    requires SessionInv(t, acks, sid, s) && Live(s) && s.client.response.Some?
    ensures SessionInv(t, acks, sid, Consumed(s))
    ensures Consumed(s).client.stopped == None
    ensures forall id | Holds(s.client, id) :: Holds(Consumed(s).client, id)
  {
    hide AuthInv, CountInv, IndexInv, GoalInv, IsUser, DeliveryOk, OwnMessage, AllOk;
    var s' := Consumed(s);
    assert Emptied(s, s');
    hide Consumed, Emptied;
    EmptiedKeeps(t, acks, sid, s, s');
    EmptiedIndex(t, acks, sid, s, s');
  }
}
