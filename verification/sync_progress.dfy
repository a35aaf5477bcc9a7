/** A synchronization succeeds when it is let: while the connection stays up, the handler
    answers and the store has room, it ends after finitely many exchanges with every message of
    the user stored and acknowledged. */
module SyncProgress {
  import opened Prelude
  import opened Tables
  import opened ClientSync
  import opened DeliverySystem
  import opened DeliveryInvariant
  import opened DeliveryRuns
  import opened DeliveryTheorems
  import opened ServingLaws
  import ClientLaws
  import ClientSteps
  import Evolution
  import PageWriter
  import ServerSteps
  import SessionAdmission
  import SyncCompleteness

  // ----- Single events -----

  /** Nothing of the session is on its way, and both ends are up. */
  predicate Quiet(s: Session) {
    && s.phase == Serving && s.reply == None && s.job == None && !s.cut
    && s.up == [] && s.down == [] && Live(s)
  }

  lemma FlushApplied(y: System, sid: nat)
    requires Sane(y) && Running(y, sid)
    requires var s := y.sessions[sid]; Live(s) && s.client.queue != [] && !s.cut
    ensures var s := y.sessions[sid];
      Apply(y, Flush(sid, true)) == Update(y, sid, s.(client := s.client.(queue := s.client.queue[1..]), up := s.up + [s.client.queue[0]]))
  {
    hide Consistent;
  }

  lemma ReplyApplied(y: System, sid: nat)
    requires Sane(y) && Running(y, sid) && y.sessions[sid].reply.Some? && !y.sessions[sid].cut
    ensures var s := y.sessions[sid];
      Apply(y, Reply(sid)) == Update(y, sid, s.(reply := None, down := s.down + [s.reply.value]))
  {
    hide Consistent;
  }

  lemma ReceiveApplied(y: System, sid: nat, handled: nat)
    requires Sane(y) && Running(y, sid) && y.sessions[sid].down != [] && y.sessions[sid].client.stopped == None
    ensures var s, y' := y.sessions[sid], Apply(y, Receive(sid, handled, false));
      && |y'.sessions| == |y.sessions|
      && var s' := y'.sessions[sid];
      && y' == Update(y, sid, s')
      && s' == s.(down := s.down[1..], client := Dispatch(s.client, s.down[0], handled, false), completed := s'.completed)
  {
    hide Consistent, Dispatch;
  }

  lemma StartApplied(y: System, sid: nat)
    requires Sane(y) && Running(y, sid)
    requires var s := y.sessions[sid]; Live(s) && !s.client.active && s.client.queue == []
    ensures var s := y.sessions[sid];
      Apply(y, StartPending(sid)) == Update(y, sid, s.(goal := None, completed := false,
        client := s.client.(active := true, after := 0, through := None, queue := [SyncRequest(0, None)])))
  {
    hide Consistent;
    assert [] + [SyncRequest(0, None)] == [SyncRequest(0, None)];
  }

  // ----- One request and its answer -----

  /** The first queued request is sent, handled and answered, and the answer is read. */
  function Exchange(sid: nat, now: Clock, handled: nat): seq<Event> {
    [Flush(sid, true), Handle(sid, now), Reply(sid), Receive(sid, handled, false)]
  }

  lemma RunFour(y: System, a: Event, b: Event, c: Event, d: Event)
    requires Sane(y)
    ensures Sane(Apply(y, a)) && Sane(Apply(Apply(y, a), b)) && Sane(Apply(Apply(Apply(y, a), b), c))
    ensures Run(y, [a, b, c, d]) == Apply(Apply(Apply(Apply(y, a), b), c), d)
  {
    hide Sane, Apply;
    StepSane(y, a);
    var y1 := Apply(y, a);
    StepSane(y1, b);
    var y2 := Apply(y1, b);
    StepSane(y2, c);
    var y3 := Apply(y2, c);
    StepSane(y3, d);
    assert [a, b, c, d][1..] == [b, c, d] && [b, c, d][1..] == [c, d] && [c, d][1..] == [d] && [d][1..] == [];
    assert Run(y3, [d]) == Apply(y3, d);
    assert Run(y2, [c, d]) == Apply(y3, d);
    assert Run(y1, [b, c, d]) == Apply(y3, d);
  }

  /** The state in which a request has reached the handler, and what it is there. */
  lemma Requested(y: System, sid: nat, now: Clock) returns (y1: System)
    requires Inv(y) && Sane(y) && Running(y, sid) && Quiet(y.sessions[sid]) && y.sessions[sid].client.queue != []
    ensures Inv(y1) && Sane(y1) && NextRequest(y1, sid, y.sessions[sid].client.queue[0])
    ensures var s := y.sessions[sid];
      y1 == Update(y, sid, s.(client := s.client.(queue := s.client.queue[1..]), up := [s.client.queue[0]]))
    ensures y1 == Apply(y, Flush(sid, true))
  {
    hide Inv, Sane, Apply;
    FlushApplied(y, sid);
    y1 := Apply(y, Flush(sid, true));
    StepSane(y, Flush(sid, true));
    StepKeepsInv(y, Flush(sid, true));
    assert [] + [y.sessions[sid].client.queue[0]] == [y.sessions[sid].client.queue[0]];
  }

  /** The whole exchange, given what the handler made of the request. */
  lemma Answered(y: System, sid: nat, now: Clock, handled: nat, y1: System, y2: System)
    requires Inv(y) && Sane(y) && Running(y, sid) && Quiet(y.sessions[sid])
    requires y1 == Apply(y, Flush(sid, true)) && Sane(y1) && Inv(y1) && Running(y1, sid)
    requires y2 == HandleStep(y1, sid, now) && Running(y2, sid)
    requires var s1, s2 := y1.sessions[sid], y2.sessions[sid];
      && y2 == y1.(tables := y2.tables, ackedBy := y2.ackedBy, sessions := y1.sessions[sid := s2])
      && s2.reply.Some? && s2 == s1.(up := [], reply := s2.reply, goal := s2.goal)
      && s1.down == [] && s1.client.stopped == None && !s1.cut
    ensures var s2 := y2.sessions[sid];
      var y3 := Update(y2, sid, s2.(reply := None, down := [s2.reply.value]));
      && Inv(y3) && Sane(y3)
      && var y4 := Run(y, Exchange(sid, now, handled));
      && Inv(y4) && Sane(y4) && |y4.sessions| == |y2.sessions|
      && var s4 := y4.sessions[sid];
      && y4 == Update(y2, sid, s4)
      && s4 == s2.(reply := None, down := [], client := Dispatch(s2.client, s2.reply.value, handled, false), completed := s4.completed)
  {
    hide Inv, Consistent, Apply, HandleStep, Dispatch;
    var e1, e2, e3, e4 := Flush(sid, true), Handle(sid, now), Reply(sid), Receive(sid, handled, false);
    RunFour(y, e1, e2, e3, e4);
    SyncCompleteness.HandleIsApplied(y1, sid, now);
    StepKeepsInv(y1, e2);
    ReplyApplied(y2, sid);
    var y3 := Apply(y2, e3);
    StepKeepsInv(y2, e3);
    assert [] + [y2.sessions[sid].reply.value] == [y2.sessions[sid].reply.value];
    ReceiveApplied(y3, sid, handled);
    StepKeepsInv(y3, e4);
    StepSane(y3, e4);
  }

  // ----- What exchanges may change -----

  /** Only session `sid` moves, and acknowledges rows of its user. */
  ghost predicate OnlyAcks(y: System, y': System, sid: nat)
    requires Running(y, sid)
  {
    && Running(y', sid) && |y'.sessions| == |y.sessions| && y'.registry == y.registry
    && (forall i | 0 <= i < |y.sessions| && i != sid :: y'.sessions[i] == y.sessions[i])
    && y'.sessions[sid].user == y.sessions[sid].user
    && y'.tables == y.tables.(recipients := y'.tables.recipients)
    && y'.tables.recipients.Keys == y.tables.recipients.Keys
    && (forall k | k in y.tables.recipients && y'.tables.recipients[k] != y.tables.recipients[k] ::
          && k.1 == y.sessions[sid].user && y.tables.recipients[k] == None && y'.tables.recipients[k].Some?
          && k in y'.ackedBy && y'.ackedBy[k] == sid)
    && (forall k | k in y.ackedBy :: k in y'.ackedBy && y'.ackedBy[k] == y.ackedBy[k])
  }

  lemma OnlyAcksTwice(a: System, b: System, c: System, sid: nat)
    requires Running(a, sid) && OnlyAcks(a, b, sid) && OnlyAcks(b, c, sid)
    ensures OnlyAcks(a, c, sid)
  {
  }

  lemma OnlyAcksItself(y: System, sid: nat)
    requires Running(y, sid)
    ensures OnlyAcks(y, y, sid)
  {
  }

  // ----- Acknowledgements -----

  /** A queued acknowledgement is recorded, and the client goes on with the next request. */
  lemma AckExchange(y: System, sid: nat, now: Clock)
    requires Inv(y) && Sane(y) && Running(y, sid) && Quiet(y.sessions[sid])
    requires var q := y.sessions[sid].client.queue; q != [] && q[0].DeliveryAck?
    ensures var s, y' := y.sessions[sid], Run(y, Exchange(sid, now, SYNC_LIMIT));
      && Inv(y') && OnlyAcks(y, y', sid)
      && var s' := y'.sessions[sid];
      && s'.client == s.client.(queue := s.client.queue[1..]) && Quiet(s')
      && var k := (s.client.queue[0].messageId, s.user);
         k in y'.tables.recipients && y'.tables.recipients[k].Some?
  {
    hide Inv, Consistent, Apply, HandleStep, Run, AckOutcomes, OnlyAcks;
    var y1 := Requested(y, sid, now);
    var id := y.sessions[sid].client.queue[0].messageId;
    AckIsRecorded(y1, sid, id, now);
    var y2 := HandleStep(y1, sid, now);
    AckShape(y1, y2, sid, id, now);
    Answered(y, sid, now, SYNC_LIMIT, y1, y2);
    AckersOnly(y, sid, (id, y.sessions[sid].user));
    AckMoves(y, y1, y2, Run(y, Exchange(sid, now, SYNC_LIMIT)), sid, id, now);
  }

  lemma AckShape(y: System, y': System, sid: nat, id: int, now: Clock)
    requires Running(y, sid) && Running(y', sid) && y.sessions[sid].up != [] && AckOutcomes(y, y', sid, id, now)
    ensures y' == y.(tables := y'.tables, ackedBy := y'.ackedBy, sessions := y.sessions[sid := y'.sessions[sid]])
    ensures var s, s', k := y.sessions[sid], y'.sessions[sid], (id, y.sessions[sid].user);
      && s' == s.(up := s.up[1..], reply := s'.reply)
      && s'.reply.Some? && s'.reply.value.AckOutcome? && !AckRefused(s'.reply.value.result)
      && k in y'.tables.recipients && y'.tables.recipients[k].Some?
  {
  }

  /** The system before a request, when it has reached the handler, when it has been handled,
      and when its answer has been read. */
  lemma AckMoves(y: System, y1: System, y2: System, y4: System, sid: nat, id: int, now: Clock)
    requires Running(y, sid) && Running(y1, sid) && Running(y2, sid) && Running(y4, sid)
    requires y1 == Update(y, sid, y1.sessions[sid]) && y1.sessions[sid].user == y.sessions[sid].user
    requires y1.sessions[sid].up != [] && AckOutcomes(y1, y2, sid, id, now)
    requires y4 == Update(y2, sid, y4.sessions[sid]) && y4.sessions[sid].user == y2.sessions[sid].user
    requires var k := (id, y.sessions[sid].user);
      k in y.tables.recipients && y.tables.recipients[k] == None ==> k !in y.ackedBy
    ensures OnlyAcks(y, y4, sid)
  {
    var k := (id, y.sessions[sid].user);
    assert y2.tables.recipients.Keys == y.tables.recipients.Keys;
  }

  /** An unacknowledged row has no acknowledging session yet. */
  lemma AckersOnly(y: System, sid: nat, k: (int, int))
    requires Inv(y)
    ensures k in y.tables.recipients && y.tables.recipients[k] == None ==> k !in y.ackedBy
  {
    assert AckerInv(y);
    hide Consistent, SessionsInv, RegistryInv, LossInv;
  }

  /** The first `n` queued requests are acknowledgements. */
  predicate AcksFirst(queue: seq<Frame>, n: nat) {
    n <= |queue| && forall i | 0 <= i < n :: queue[i].DeliveryAck?
  }

  /** The rows those acknowledgements are for. */
  predicate Recorded(t: Tables, u: int, queue: seq<Frame>, n: nat)
    requires AcksFirst(queue, n)
  {
    forall i | 0 <= i < n :: (queue[i].messageId, u) in t.recipients && t.recipients[(queue[i].messageId, u)].Some?
  }

  /** Events of session `sid` on a connection that stays up: nothing is cut, crashed, quit or
      interrupted, every write succeeds, and the store has room for a whole page. */
  predicate Undisturbed(events: seq<Event>, sid: nat) {
    forall e | e in events ::
      || e == StartPending(sid) || e == Flush(sid, true) || (e.Handle? && e.sid == sid) || e == Reply(sid)
      || (e.Receive? && e.sid == sid && !e.interrupted && e.handled == SYNC_LIMIT)
  }

  /** All of them are recorded, one exchange each. */
  lemma {:induction false} AcksAreRecorded(y: System, sid: nat, now: Clock, n: nat) returns (more: seq<Event>)
    requires Inv(y) && Sane(y) && Running(y, sid) && Quiet(y.sessions[sid]) && AcksFirst(y.sessions[sid].client.queue, n)
    ensures Undisturbed(more, sid)
    ensures var s, y' := y.sessions[sid], Run(y, more);
      && Inv(y') && OnlyAcks(y, y', sid)
      && y'.sessions[sid].client == s.client.(queue := s.client.queue[n..]) && Quiet(y'.sessions[sid])
      && Recorded(y'.tables, s.user, s.client.queue, n)
    decreases n
  {
    hide Inv, Sane, Run, OnlyAcks, Apply, Quiet, Recorded, AcksFirst, Undisturbed;
    var s := y.sessions[sid];
    if n == 0 {
      more := [];
      RunNothing(y);
      OnlyAcksItself(y, sid);
      NothingRecorded(y.tables, s.user, s.client.queue, sid);
    } else {
      FirstIsAck(s.client.queue, n);
      AckExchange(y, sid, now);
      var first := Exchange(sid, now, SYNC_LIMIT);
      var y1 := Run(y, first);
      OnlySession(y, y1, sid);
      var rest := AcksAreRecorded(y1, sid, now, n - 1);
      more := first + rest;
      RunAppend(y, first, rest);
      OnlyAcksTwice(y, y1, Run(y1, rest), sid);
      OneMoreRecorded(y1, Run(y1, rest), sid, s.user, s.client.queue, n);
      UndisturbedBoth(first, rest, sid, now);
    }
  }

  lemma NothingRecorded(t: Tables, u: int, queue: seq<Frame>, sid: nat)
    ensures AcksFirst(queue, 0) && Recorded(t, u, queue, 0) && queue[0..] == queue && Undisturbed([], sid)
  {
  }

  lemma FirstIsAck(queue: seq<Frame>, n: nat)
    requires AcksFirst(queue, n) && n > 0
    ensures queue != [] && queue[0].DeliveryAck? && AcksFirst(queue[1..], n - 1) && n <= |queue| && queue[1..][n - 1..] == queue[n..]
  {
  }

  lemma UndisturbedBoth(first: seq<Event>, rest: seq<Event>, sid: nat, now: Clock)
    requires first == Exchange(sid, now, SYNC_LIMIT) && Undisturbed(rest, sid)
    ensures Undisturbed(first + rest, sid)
  {
  }

  lemma RunNothing(y: System)
    requires Sane(y)
    ensures Run(y, []) == y
  {
  }

  lemma OnlySession(y: System, y': System, sid: nat)
    requires Running(y, sid) && OnlyAcks(y, y', sid)
    ensures Running(y', sid) && y'.sessions[sid].user == y.sessions[sid].user
  {
  }

  lemma OneMoreRecorded(y1: System, y': System, sid: nat, u: int, queue: seq<Frame>, n: nat)
    requires Running(y1, sid) && OnlyAcks(y1, y', sid) && n > 0 && AcksFirst(queue, n) && AcksFirst(queue[1..], n - 1)
    requires var k := (queue[0].messageId, u); k in y1.tables.recipients && y1.tables.recipients[k].Some?
    requires Recorded(y'.tables, u, queue[1..], n - 1)
    ensures Recorded(y'.tables, u, queue, n)
  {
    forall i | 0 <= i < n
      ensures (queue[i].messageId, u) in y'.tables.recipients && y'.tables.recipients[(queue[i].messageId, u)].Some?
    {
      if i > 0 { assert queue[1..][i - 1] == queue[i]; }
    }
  }

  // ----- A page -----

  /** All that is left fills a response exactly: the page the server refuses. */
  predicate Full(t: Tables, u: int, after: int, upTo: Option<int>)
    requires Consistent(t) && IsUser(t, u)
  {
    var page := FetchPage(t, UserName(t, u), after, upTo, SYNC_LIMIT, true);
    && page.Ready? && page.rows != [] && !page.hasMore
    && PageWriter.ResponseLength(PageWriter.SyncPending, page.rows, page.through,
                                 PageWriter.Cursor(page.rows, after), true) == PageWriter.MAX_RESPONSE
  }

  /** The client reads a page of the server to its end, with everything it may hold. */
  lemma HonestPageIsTaken(y: System, sid: nat, p: Frame)
    requires Inv(y) && Running(y, sid) && y.sessions[sid].down == [p] && p.PendingPage? && |p.records| <= SYNC_LIMIT
    requires var c := y.sessions[sid].client; c.authenticated && c.stopped == None && c.queue == []
    ensures Dispatch(y.sessions[sid].client, p, SYNC_LIMIT, false).stopped == None
  {
    hide Inv, Dispatch, PageFits, DeliveryOk;
    var s := y.sessions[sid];
    PageIsHonest(y, sid, p);
    forall i | 0 <= i < |p.records|
      ensures !ClientLaws.Contradicts(s.client.index, p.records[i])
    {
      NeverContradicts(y, sid, p.records[i]);
    }
    ClientLaws.PageStopsFor(s.client, p, SYNC_LIMIT, false);
  }

  lemma PageIsHonest(y: System, sid: nat, p: Frame)
    requires Inv(y) && Running(y, sid) && p.PendingPage? && p in y.sessions[sid].down
    ensures PageFits(y.sessions[sid].client, p)
    ensures forall i | 0 <= i < |p.records| :: DeliveryOk(y.tables, y.sessions[sid].user, p.records[i])
  {
    ClientSteps.SessionOf(y, sid);
    hide Inv, AuthInv, TrafficInv, CountInv, IndexInv, GoalInv, JobInv, PageFits, DeliveryOk;
    assert FrameOk(y.tables, y.ackedBy, sid, y.sessions[sid], p);
  }

  lemma NeverContradicts(y: System, sid: nat, d: Delivery)
    requires Inv(y) && Running(y, sid) && DeliveryOk(y.tables, y.sessions[sid].user, d)
    ensures !ClientLaws.Contradicts(y.sessions[sid].client.index, d)
  {
    ClientSteps.SessionOf(y, sid);
    ServerSteps.InvConsistent(y);
    hide Inv, AuthInv, TrafficInv, CountInv, FramesInv, GoalInv, JobInv, Consistent;
    ClientSteps.StoreOneLaw(y.tables, y.sessions[sid], d);
  }

  lemma PageIsShort(t: Tables, name: Bytes, after: int, upTo: Option<int>)
    requires Consistent(t)
    ensures var r := PageWriter.Respond(PageWriter.SyncPending, after, FetchPage(t, name, after, upTo, SYNC_LIMIT, true));
      r.PageResponse? ==> |r.records| <= SYNC_LIMIT
  {
    hide Consistent, PageWriter.ResponseLength, FindUser, Select;
  }

  /** What asking for a page comes to: the next page is stored and its acknowledgements are
      queued, or the request is refused because the rest fills a response exactly. */
  lemma SyncExchange(y: System, sid: nat, now: Clock) returns (r: PageWriter.Response)
    requires Inv(y) && Sane(y) && Running(y, sid) && Quiet(y.sessions[sid])
    requires var q := y.sessions[sid].client.queue; |q| == 1 && q[0].SyncRequest?
    ensures var s, y' := y.sessions[sid], Run(y, Exchange(sid, now, SYNC_LIMIT));
      var after, upTo := s.client.queue[0].after, s.client.queue[0].upTo;
      && Inv(y') && |y'.sessions| == |y.sessions|
      && var s' := y'.sessions[sid];
      && y' == Update(y, sid, s') && s'.user == s.user
      && (r.PageResponse? ==>
            && PageWriter.Served(y.tables, PageWriter.SyncPending, s.user, after, upTo, r) && |r.records| <= SYNC_LIMIT
            && Quiet(s') && s'.client.queue == ClientLaws.Follows(PageFrame(r)) && s'.client.active == r.hasMore
            && (r.hasMore ==> s'.client.after == r.next && s'.client.through == Some(r.through)))
      && (!r.PageResponse? ==>
            && Full(y.tables, s.user, after, upTo)
            && s'.client == s.client.(queue := [], stopped := Some(SynchronizationRefused)))
  {
    hide Inv, Consistent, Apply, HandleStep, Run, Dispatch, FetchPage, PageWriter.Respond, PageWriter.Served, PageWriter.ResponseLength;
    var s := y.sessions[sid];
    var after, upTo := s.client.queue[0].after, s.client.queue[0].upTo;
    var y1 := Requested(y, sid, now);
    SessionAdmission.RefusedForSize(y1, sid);
    SessionAdmission.AnswerIsTheResponse(y1, sid, now);
    AnswerIsServed(y1, sid, after, upTo);
    PageIsShort(y.tables, UserName(y.tables, s.user), after, upTo);
    r := PageWriter.Respond(PageWriter.SyncPending, after, SessionAdmission.Queried(y1, sid));
    var y2 := HandleStep(y1, sid, now);
    Answered(y, sid, now, SYNC_LIMIT, y1, y2);
    var s2 := y2.sessions[sid];
    if r.PageResponse? {
      HonestPageIsTaken(Update(y2, sid, s2.(reply := None, down := [PageFrame(r)])), sid, PageFrame(r));
      ClientLaws.PageIsAcknowledged(s2.client, PageFrame(r), SYNC_LIMIT, false);
      hide ClientLaws.Holding, ClientLaws.Agrees;
    } else {
      ClientLaws.AnswersAreAssociated(s2.client, PendingRefused, SYNC_LIMIT, false);
      RefusalStops(s2.client, SYNC_LIMIT);
    }
  }

  lemma RefusalStops(c: Client, handled: nat)
    requires c.authenticated && c.stopped == None
    ensures Dispatch(c, PendingRefused, handled, false) == c.(stopped := Some(SynchronizationRefused))
  {
  }

  // ----- Page after page -----

  predicate Pending(t: Tables, u: int, id: int) {
    (id, u) in t.recipients && t.recipients[(id, u)] == None
  }

  /** The client is about to ask for the page that begins with the first pending message. */
  ghost predicate Asking(y: System, sid: nat)
    requires Running(y, sid)
  {
    var s := y.sessions[sid];
    var c := s.client;
    && Quiet(s) && c.active && 0 <= c.after && c.queue == [SyncRequest(c.after, c.through)]
    && (c.through.Some? ==> c.after <= c.through.value)
    && forall id | Pending(y.tables, s.user, id) :: c.after < id && (c.through.Some? ==> id <= c.through.value)
  }

  /** Everything is acknowledged and nothing more is asked for. */
  ghost predicate Done(y: System, sid: nat)
    requires Running(y, sid)
  {
    var s := y.sessions[sid];
    Quiet(s) && !s.client.active && s.client.queue == [] && forall id :: !Pending(y.tables, s.user, id)
  }

  /** The client was refused a page because all that is left fills a response exactly. */
  predicate Refused(y: System, sid: nat)
    requires Sane(y) && Running(y, sid)
  {
    var s := y.sessions[sid];
    && s.client.stopped == Some(SynchronizationRefused)
    && Full(y.tables, s.user, s.client.after, s.client.through)
  }

  lemma PendingIsOnPage(t: Tables, u: int, after: int, upTo: Option<int>, r: PageWriter.Response, id: int)
    requires Consistent(t) && PageWriter.Served(t, PageWriter.SyncPending, u, after, upTo, r)
    requires Pending(t, u, id) && after < id && (upTo.Some? ==> id <= upTo.value)
    ensures id <= r.through
    ensures InRecords(r.records, id) || (r.hasMore && id > r.next)
  {
    hide PageWriter.ResponseLength, Watermark, Select, RowOk;
    assert RecipientOk(t, (id, u));
    hide Consistent;
    var m :| m in t.history && m.id == id;
    assert Visible(t, u, true, m);
    PageWriter.WatermarkBounds(t, u, true, t.history);
    SelectSound(t, u, true, t.history, after, r.next);
    SelectSound(t, u, true, t.history, r.next, r.through);
    if id <= r.next {
      var rows := Select(t, u, true, t.history, after, r.next);
      assert m in rows;
      var i :| 0 <= i < |rows| && rows[i] == m;
      assert r.records[i] == WithSender(t, rows[i]);
    }
  }

  lemma CursorRises(t: Tables, u: int, after: int, upTo: Option<int>, r: PageWriter.Response)
    requires PageWriter.Served(t, PageWriter.SyncPending, u, after, upTo, r) && r.hasMore
    ensures after < r.next <= r.through && (upTo.Some? ==> r.through == upTo.value)
  {
    hide PageWriter.ResponseLength, Watermark, Select;
    var rows := Select(t, u, true, t.history, after, r.next);
    SelectSound(t, u, true, t.history, after, r.next);
    var last := |r.records| - 1;
    assert r.records[last] == WithSender(t, rows[last]) && rows[last] in rows;
  }

  /** What is pending once a page has been stored and acknowledged lies beyond it. */
  lemma PageSettles(t: Tables, t': Tables, u: int, after: int, upTo: Option<int>, r: PageWriter.Response, id: int)
    requires Consistent(t) && PageWriter.Served(t, PageWriter.SyncPending, u, after, upTo, r)
    requires forall x | Pending(t, u, x) :: after < x && (upTo.Some? ==> x <= upTo.value)
    requires t'.recipients.Keys == t.recipients.Keys
    requires forall k | k in t.recipients && t.recipients[k].Some? :: t'.recipients[k].Some?
    requires forall i | 0 <= i < |r.records| :: (r.records[i].message.id, u) in t'.recipients && t'.recipients[(r.records[i].message.id, u)].Some?
    requires Pending(t', u, id)
    ensures r.hasMore && r.next < id <= r.through
  {
    hide Consistent, PageWriter.Served;
    assert Pending(t, u, id);
    PendingIsOnPage(t, u, after, upTo, r, id);
  }

  /** One page: asked for, stored, acknowledged. */
  lemma OnePage(y: System, sid: nat, now: Clock) returns (more: seq<Event>)
    requires Inv(y) && Sane(y) && Running(y, sid) && Asking(y, sid)
    ensures Undisturbed(more, sid)
    ensures var y' := Run(y, more);
      && Inv(y') && OnlyAcks(y, y', sid)
      && (|| Done(y', sid) || Refused(y', sid)
          || (&& Asking(y', sid)
              && var c, c' := y.sessions[sid].client, y'.sessions[sid].client;
              && c'.through.Some? && (c.through.Some? ==> c'.through == c.through) && c.after < c'.after))
  {
    hide Inv, Consistent, Run, Apply, OnlyAcks, Full, PageWriter.Served, Asking, Done, Quiet, AcksFirst, Recorded, Undisturbed;
    AskingIs(y, sid);
    var first := Exchange(sid, now, SYNC_LIMIT);
    var r := SyncExchange(y, sid, now);
    var y1 := Run(y, first);
    MovedOnly(y, y1, sid);
    NothingRecorded(y.tables, y.sessions[sid].user, [], sid);
    UndisturbedBoth(first, [], sid, now);
    if !r.PageResponse? {
      more := first + [];
      assert first + [] == first;
    } else {
      FollowsAcks(r);
      var rest := AcksAreRecorded(y1, sid, now, |r.records|);
      more := first + rest;
      UndisturbedBoth(first, rest, sid, now);
      RunAppend(y, first, rest);
      OnlyAcksTwice(y, y1, Run(y1, rest), sid);
      OnlySession(y, Run(y1, rest), sid);
      PageDone(y, y1, Run(y1, rest), sid, r);
    }
  }

  lemma AskingIs(y: System, sid: nat)
    requires Running(y, sid) && Asking(y, sid)
    ensures var c := y.sessions[sid].client; Quiet(y.sessions[sid]) && c.queue == [SyncRequest(c.after, c.through)]
  {
  }

  lemma FollowsAcks(r: PageWriter.Response)
    requires r.PageResponse?
    ensures AcksFirst(ClientLaws.Follows(PageFrame(r)), |r.records|)
  {
  }

  lemma MovedOnly(y: System, y': System, sid: nat)
    requires Running(y, sid) && Running(y', sid) && y' == Update(y, sid, y'.sessions[sid])
    requires y'.sessions[sid].user == y.sessions[sid].user
    ensures OnlyAcks(y, y', sid)
  {
  }

  /** After a page and its acknowledgements the client asks for the next, or is done. */
  lemma PageDone(y: System, y1: System, y': System, sid: nat, r: PageWriter.Response)
    requires Consistent(y.tables) && Running(y, sid) && Running(y1, sid) && Running(y', sid) && Asking(y, sid)
    requires var s := y.sessions[sid];
      PageWriter.Served(y.tables, PageWriter.SyncPending, s.user, s.client.after, s.client.through, r)
    requires y1.tables == y.tables && y1.sessions[sid].user == y.sessions[sid].user
    requires var c1 := y1.sessions[sid].client;
      && c1.queue == ClientLaws.Follows(PageFrame(r)) && c1.active == r.hasMore
      && (r.hasMore ==> c1.after == r.next && c1.through == Some(r.through))
    requires OnlyAcks(y1, y', sid)
    requires var s1, s' := y1.sessions[sid], y'.sessions[sid];
      && AcksFirst(s1.client.queue, |r.records|) && Recorded(y'.tables, s1.user, s1.client.queue, |r.records|)
      && Quiet(s') && s'.client == s1.client.(queue := s1.client.queue[|r.records|..])
    ensures || Done(y', sid)
      || (&& Asking(y', sid)
          && var c, c' := y.sessions[sid].client, y'.sessions[sid].client;
          && c'.through.Some? && (c.through.Some? ==> c'.through == c.through) && c.after < c'.after)
  {
    var s := y.sessions[sid];
    var u, c, n := s.user, s.client, |r.records|;
    assert forall k | k in y.tables.recipients && y.tables.recipients[k].Some? :: y'.tables.recipients[k].Some?;
    forall i | 0 <= i < n
      ensures (r.records[i].message.id, u) in y'.tables.recipients && y'.tables.recipients[(r.records[i].message.id, u)].Some?
    {
      assert y1.sessions[sid].client.queue[i] == DeliveryAck(r.records[i].message.id);
    }
    hide Consistent, PageWriter.Served;
    forall id | Pending(y'.tables, u, id)
      ensures r.hasMore && r.next < id <= r.through
    {
      PageSettles(y.tables, y'.tables, u, c.after, c.through, r, id);
    }
    if r.hasMore {
      CursorRises(y.tables, u, c.after, c.through, r);
      assert y'.sessions[sid].client.queue == [SyncRequest(r.next, Some(r.through))];
    } else {
      assert y'.sessions[sid].client.queue == [];
    }
  }

  /** Page after page until nothing is pending. */
  lemma {:induction false} PagesEnd(y: System, sid: nat, now: Clock) returns (more: seq<Event>)
    requires Inv(y) && Sane(y) && Running(y, sid) && Asking(y, sid)
    ensures Undisturbed(more, sid)
    ensures var y' := Run(y, more);
      Inv(y') && OnlyAcks(y, y', sid) && (Done(y', sid) || Refused(y', sid))
    decreases y.sessions[sid].client.through.None?,
      if y.sessions[sid].client.through.Some? then y.sessions[sid].client.through.value - y.sessions[sid].client.after else 0
  {
    hide Inv, Consistent, Run, Apply, OnlyAcks, Full;
    more := OnePage(y, sid, now);
    var y1 := Run(y, more);
    OnlySession(y, y1, sid);
    if !Done(y1, sid) && !Refused(y1, sid) {
      var rest := PagesEnd(y1, sid, now);
      RunAppend(y, more, rest);
      OnlyAcksTwice(y, y1, Run(y1, rest), sid);
      more := more + rest;
    }
  }

  // ----- The theorems -----

  lemma StartAsks(y: System, sid: nat)
    requires Inv(y) && Sane(y) && Running(y, sid) && Quiet(y.sessions[sid])
    requires !y.sessions[sid].client.active && y.sessions[sid].client.queue == []
    ensures var y' := Run(y, [StartPending(sid)]);
      Inv(y') && OnlyAcks(y, y', sid) && Asking(y', sid)
  {
    hide Inv, Consistent, OnlyAcks;
    var e := StartPending(sid);
    RunOne(y, e);
    StartApplied(y, sid);
    StepKeepsInv(y, e);
    var y' := Apply(y, e);
    hide Run, Apply;
    MovedOnly(y, y', sid);
    Evolution.PositiveRecipients(y.tables);
  }

  lemma RunOne(y: System, e: Event)
    requires Sane(y)
    ensures Run(y, [e]) == Apply(y, e)
  {
    hide Sane, Apply;
    StepSane(y, e);
    assert [e][1..] == [];
    RunNothing(Apply(y, e));
  }

  /** Rows this session has acknowledged are stored in it as committed. */
  lemma NewlyAckedIsStored(y: System, y': System, sid: nat, id: int)
    requires Inv(y') && Running(y, sid) && OnlyAcks(y, y', sid) && Done(y', sid)
    requires Pending(y.tables, y.sessions[sid].user, id)
    ensures StoredExactly(y', sid, id)
  {
    var k := (id, y.sessions[sid].user);
    assert !Pending(y'.tables, k.1, id);
    assert y'.tables.recipients[k] != y.tables.recipients[k];
    assert LossInv(y');
    hide Inv, StoredExactly, OnlyAcks;
    HeldIsStored(y', sid, id);
  }

  /** What a synchronization of session `sid` comes to: nothing is pending any more and all
      that was pending is stored as committed, or the one page that cannot be served. */
  ghost predicate Synchronized(y: System, y': System, sid: nat)
    requires Sane(y') && Running(y, sid)
  {
    && OnlyAcks(y, y', sid)
    && (|| Refused(y', sid)
        || (Done(y', sid) && forall id | Pending(y.tables, y.sessions[sid].user, id) :: StoredExactly(y', sid, id)))
  }

  lemma SynchronizesFrom(y: System, sid: nat, now: Clock) returns (more: seq<Event>)
    requires Inv(y) && Sane(y) && Running(y, sid) && Quiet(y.sessions[sid])
    requires !y.sessions[sid].client.active && y.sessions[sid].client.queue == []
    ensures Undisturbed(more, sid) && Inv(Run(y, more)) && Synchronized(y, Run(y, more), sid)
  {
    hide Inv, Consistent, Run, Apply, OnlyAcks, Asking, Refused, StoredExactly, Quiet;
    StartAsks(y, sid);
    var first := [StartPending(sid)];
    var y1 := Run(y, first);
    OnlySession(y, y1, sid);
    var rest := PagesEnd(y1, sid, now);
    more := first + rest;
    RunAppend(y, first, rest);
    var y' := Run(y1, rest);
    OnlyAcksTwice(y, y1, y', sid);
    hide Done;
    forall id | Done(y', sid) && Pending(y.tables, y.sessions[sid].user, id)
      ensures StoredExactly(y', sid, id)
    {
      NewlyAckedIsStored(y, y', sid, id);
    }
  }

  /** From every reachable state, a client with an open and quiet connection that asks for its
      pending messages gets every one of them, stored as committed and acknowledged, after
      finitely many exchanges of that connection alone, as long as its store has room; the only
      other obstacle is the page the server refuses for filling a response exactly. */
  lemma SynchronizationSucceeds(events: seq<Event>, sid: nat, now: Clock) returns (more: seq<Event>)
    requires Running(Reach(events), sid) && Quiet(Reach(events).sessions[sid])
    requires var c := Reach(events).sessions[sid].client; !c.active && c.queue == []
    ensures Undisturbed(more, sid)
    ensures Synchronized(Reach(events), Reach(events + more), sid)
  {
    hide Inv, Sane, Run, Synchronized, Undisturbed, Quiet;
    ReachInv(events);
    more := SynchronizesFrom(Reach(events), sid, now);
    StartSane();
    RunAppend(START, events, more);
  }
}
