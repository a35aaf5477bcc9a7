/** Every event keeps the invariant: the requests a handler answers. */
module HandlerSteps {
  import opened Prelude
  import opened Tables
  import opened Evolution
  import opened ClientSync
  import opened DeliverySystem
  import opened DeliveryInvariant
  import opened ClientSteps
  import opened ClientReceive
  import opened ServerSteps
  import PageWriter
  import PageLimits

  /** A request leaves its channel and its answer takes its place. */
  predicate Handled(s: Session, s': Session, reply: Frame) {
    && s.up != [] && s'.up == s.up[1..] && s.reply == None && s.job == None && s'.reply == Some(reply)
    && s'.user == s.user && s'.phase == s.phase && s'.ready == s.ready && s'.stopping == s.stopping && s'.cut == s.cut
    && s'.down == s.down && s'.client == s.client && s'.completed == s.completed
    && IsReply(reply) && (Is(reply, Sync) <==> Is(s.up[0], Sync)) && (Is(reply, Foreground) <==> Is(s.up[0], Foreground))
  }

  lemma HandledCounts(s: Session, s': Session, reply: Frame)
    requires CountInv(s) && Handled(s, s', reply)
    ensures CountInv(s')
    ensures Is(s.up[0], Sync) ==>
      && s.client.active && s.client.response.None? == s.client.response.None?
      && Count(s.down, Sync) == 0 && Count(s'.up, Sync) == 0 && Count(s.client.queue, Sync) == 0
      && CountOne(s.client.response, Sync) == 0
  {
    hide Count;
    CountPop(s.up, Sync);
    CountPop(s.up, Foreground);
  }

  lemma HandledTraffic(s: Session, s': Session, reply: Frame)
    requires AuthInv(s) && TrafficInv(s) && Handled(s, s', reply)
    ensures TrafficInv(s')
    ensures s'.job == None || s.client.authenticated ==> AuthInv(s')
  {
  }

  lemma HandledFrames(t: Tables, acks: map<(int, int), nat>, sid: nat, s: Session, s': Session, reply: Frame)
    requires FramesInv(t, acks, sid, s) && CountInv(s) && Handled(s, s', reply)
    requires FrameOk(t, acks, sid, s', reply)
    requires s'.goal == s.goal || Is(s.up[0], Sync)
    ensures FramesInv(t, acks, sid, s')
  {
    HandledCounts(s, s', reply);
    hide FrameOk, Count, CountInv;
    if Is(s.up[0], Sync) {
      NoneOfKind(s.down, Sync);
      NoneOfKind(s'.up, Sync);
      NoneOfKind(s.client.queue, Sync);
      forall f | f in s.down || f in s'.up || f in s.client.queue || s.client.response == Some(f)
        ensures FrameOk(t, acks, sid, s', f)
      {
        OtherFrame(t, acks, sid, s, s', f);
      }
    } else {
      SameFrames(t, acks, sid, s, s');
    }
  }

  lemma HandledKeeps(t: Tables, acks: map<(int, int), nat>, sid: nat, s: Session, s': Session, reply: Frame)
    requires SessionInv(t, acks, sid, s) && Handled(s, s', reply)
    requires FrameOk(t, acks, sid, s', reply)
    requires s'.goal == s.goal || Is(s.up[0], Sync)
    requires JobInv(t, s') && GoalInv(t, acks, sid, s')
    ensures SessionInv(t, acks, sid, s')
  {
    assert s.client.authenticated;
    hide AuthInv, TrafficInv, CountInv, IndexInv, FramesInv, JobInv, GoalInv, FrameOk, IsUser;
    HandledCounts(s, s', reply);
    HandledTraffic(s, s', reply);
    HandledFrames(t, acks, sid, s, s', reply);
    SameIndex(t, s, s');
  }

  // ----- Acknowledgements -----

  /** An automatic acknowledgement is always for a recipient row and for a held message. */
  lemma AckRequest(y: System, sid: nat)
    requires Inv(y) && Running(y, sid)
    requires var up := y.sessions[sid].up; up != [] && up[0].DeliveryAck?
    ensures var s := y.sessions[sid];
      && Holds(s.client, s.up[0].messageId) && (s.up[0].messageId, s.user) in y.tables.recipients
  {
    hide Consistent, AuthInv, TrafficInv, CountInv, IndexInv, GoalInv;
    SessionOf(y, sid);
    var s := y.sessions[sid];
    assert s.up[0] in s.up;
    assert FrameOk(y.tables, y.ackedBy, sid, s, s.up[0]);
  }

  /** The ackers after an acknowledgement. */
  function Ackers(y: System, sid: nat, id: int, r: AckResult): map<(int, int), nat>
    requires Running(y, sid)
  {
    if r == Acknowledged then y.ackedBy[(id, y.sessions[sid].user) := sid] else y.ackedBy
  }

  /** What an acknowledgement with result `r` makes of the tables. */
  predicate Recorded(t: Tables, t': Tables, k: (int, int), r: AckResult, now: int) {
    if r == Acknowledged then
      k in t.recipients && t.recipients[k] == None && t' == t.(recipients := t.recipients[k := Some(now)])
    else t' == t
  }

  lemma AckersExtend(y: System, y': System, sid: nat, id: int, r: AckResult, now: int)
    requires Running(y, sid) && AckerInv(y)
    requires Recorded(y.tables, y'.tables, (id, y.sessions[sid].user), r, now)
    requires y'.ackedBy == Ackers(y, sid, id, r)
    ensures Extends(y.ackedBy, y'.ackedBy)
    ensures AckerInv(y')
    ensures forall k | k in y'.tables.recipients && y'.tables.recipients[k].Some? ::
      || (k in y.tables.recipients && y.tables.recipients[k].Some?)
      || (k in y'.ackedBy && y'.ackedBy[k] == sid && k == (id, y.sessions[sid].user))
  {
  }

  lemma AckMoved(y: System, y': System, sid: nat, id: int, r: AckResult, now: int)
    requires Inv(y) && Running(y, sid) && |y'.sessions| == |y.sessions|
    requires Consistent(y'.tables) && Evolves(y.tables, y'.tables)
    requires Recorded(y.tables, y'.tables, (id, y.sessions[sid].user), r, now) && !AckRefused(r)
    requires y'.ackedBy == Ackers(y, sid, id, r) && y'.registry == y.registry
    requires y'.sessions == y.sessions[sid := y'.sessions[sid]]
    requires var s := y.sessions[sid];
      && s.up != [] && s.up[0] == DeliveryAck(id) && s.reply == None && s.job == None && Holds(s.client, id)
      && y'.sessions[sid] == s.(up := s.up[1..], reply := Some(AckOutcome(id, r)))
    ensures Inv(y')
  {
    var s, s' := y.sessions[sid], y'.sessions[sid];
    SessionOf(y, sid);
    hide Consistent, Evolves, SessionInv, SessionsInv, LossInv;
    AckersExtend(y, y', sid, id, r, now);
    hide Recorded, AckerInv, Ackers, Extends;
    SessionStays(y.tables, y.ackedBy, y'.tables, y'.ackedBy, sid, s);
    AckSession(y'.tables, y'.ackedBy, sid, s, s', id, r);
    RegistryKeptBy(y, y', sid);
    hide Inv, RegistryInv;
    SessionChanged(y, y', sid, s');
  }

  lemma AckKeeps(y: System, sid: nat, now: Clock)
    requires Inv(y) && Running(y, sid) && IsUser(y.tables, y.sessions[sid].user)
    requires var s := y.sessions[sid]; s.up != [] && s.up[0].DeliveryAck? && s.reply == None && s.job == None
    ensures var s := y.sessions[sid];
      Inv(HandleAck(y, sid, s.(up := s.up[1..]), s.up[0].messageId, now))
  {
    hide Inv, Consistent, Evolves, Acknowledge, CommittedAs;
    var s := y.sessions[sid];
    var id := s.up[0].messageId;
    var y' := HandleAck(y, sid, s.(up := s.up[1..]), id, now);
    var (t', r) := Acknowledge(y.tables, UserName(y.tables, s.user), id, now);
    AckRequest(y, sid);
    InvConsistent(y);
    AcknowledgeLaw(y.tables, UserName(y.tables, s.user), s.user, id, now);
    PositiveRecipients(y.tables);
    AckMoved(y, y', sid, id, r, now);
  }

  lemma RegistryKeptBy(y: System, y': System, sid: nat)
    requires Inv(y) && Running(y, sid) && |y'.sessions| == |y.sessions|
    requires y'.sessions == y.sessions[sid := y'.sessions[sid]] && y'.registry == y.registry
    requires y'.sessions[sid].user == y.sessions[sid].user
    ensures RegistryInv(y')
  {
    hide Consistent, SessionsInv, LossInv, AckerInv;
  }

  lemma AckSession(t: Tables, acks: map<(int, int), nat>, sid: nat, s: Session, s': Session, id: int, r: AckResult)
    requires SessionInv(t, acks, sid, s) && !AckRefused(r)
    requires s.up != [] && s.up[0] == DeliveryAck(id) && s.reply == None && s.job == None
    requires s' == s.(up := s.up[1..], reply := Some(AckOutcome(id, r)))
    ensures SessionInv(t, acks, sid, s')
  {
    hide SessionInv, FramesInv, AuthInv, TrafficInv, CountInv;
    GoalMovesNot(t, acks, sid, s, s');
    HandledKeeps(t, acks, sid, s, s', AckOutcome(id, r));
  }

  lemma GoalMovesNot(t: Tables, acks: map<(int, int), nat>, sid: nat, s: Session, s': Session)
    requires SessionInv(t, acks, sid, s) && SameView(s, s') && s'.completed == s.completed
    ensures GoalInv(t, acks, sid, s')
  {
    hide AuthInv, TrafficInv, CountInv, IndexInv, FramesInv, JobInv;
  }

  // ----- Pending pages -----

  /** An acknowledged row of this user is held here or was acknowledged by another session. */
  lemma AckedIsHeld(y: System, sid: nat, id: int)
    requires Inv(y) && Running(y, sid)
    requires var k := (id, y.sessions[sid].user); k in y.tables.recipients && y.tables.recipients[k].Some?
    ensures var s := y.sessions[sid]; Holds(s.client, id) || ByOther(y.ackedBy, sid, s.user, id)
  {
    hide Consistent, RegistryInv, AckerInv, SessionsInv;
  }

  /** A page served for the synchronization at its current cursor. */
  ghost predicate ServedFor(t: Tables, s: Session, upTo: Option<int>, r: PageWriter.Response) {
    && upTo == s.client.through && s.client.active && 0 <= s.client.after
    && r.PageResponse?
    && PageWriter.Served(t, PageWriter.SyncPending, s.user, s.client.after, upTo, r)
  }

  lemma PageRecords(t: Tables, s: Session, upTo: Option<int>, r: PageWriter.Response)
    requires Consistent(t) && ServedFor(t, s, upTo, r)
    ensures forall i | 0 <= i < |r.records| ::
      DeliveryOk(t, s.user, r.records[i]) && s.client.after < r.records[i].message.id <= r.next
    ensures forall i, j | 0 <= i < j < |r.records| :: r.records[i].message.id < r.records[j].message.id
  {
    assert Increasing(t.history);
    hide Consistent, Increasing, PageWriter.ResponseLength, Watermark, Select;
    var rows := Select(t, s.user, true, t.history, s.client.after, r.next);
    SelectSound(t, s.user, true, t.history, s.client.after, r.next);
    PageWriter.SelectIncreasing(t, s.user, true, t.history, s.client.after, r.next);
    forall i | 0 <= i < |r.records|
      ensures DeliveryOk(t, s.user, r.records[i]) && s.client.after < r.records[i].message.id <= r.next
      ensures r.records[i].message == rows[i]
    {
      assert rows[i] in rows;
    }
    RowsIncrease(rows);
  }

  lemma RowsIncrease(rows: seq<Stored>)
    requires Increasing(rows)
    ensures forall i, j | 0 <= i < j < |rows| :: rows[i].id < rows[j].id
  {
  }

  /** The page passes the client's cursor, order and watermark tests. */
  lemma ServedFits(t: Tables, s: Session, upTo: Option<int>, r: PageWriter.Response)
    requires Consistent(t) && ServedFor(t, s, upTo, r)
    ensures PageFits(s.client, PageFrame(r))
  {
    PageRecords(t, s, upTo, r);
    hide Consistent, DeliveryOk, WellFormed, PageWriter.ResponseLength, Watermark, Select;
    forall i | 0 <= i < |r.records|
      ensures WellFormed(r.records[i])
    {
      StoredIsWellFormed(t, s.user, r.records[i]);
    }
    AscendsIff(r.records, s.client.after, r.through);
  }

  /** A pending message beyond the old cursor is on the page, or the page says that more
      follow and the message lies beyond the new cursor. */
  lemma PendingIsServed(t: Tables, s: Session, upTo: Option<int>, r: PageWriter.Response, id: int)
    requires Consistent(t) && ServedFor(t, s, upTo, r)
    requires (id, s.user) in t.recipients && t.recipients[(id, s.user)] == None
    requires s.client.after < id <= r.through
    ensures InRecords(r.records, id) || (r.hasMore && id > r.next)
  {
    assert RecipientOk(t, (id, s.user));
    hide Consistent, PageWriter.ResponseLength, Watermark, Select;
    var m :| m in t.history && m.id == id;
    assert Visible(t, s.user, true, m);
    SelectSound(t, s.user, true, t.history, s.client.after, r.next);
    SelectSound(t, s.user, true, t.history, r.next, r.through);
    if id <= r.next {
      var rows := Select(t, s.user, true, t.history, s.client.after, r.next);
      assert m in rows;
      var i :| 0 <= i < |rows| && rows[i] == m;
      assert r.records[i] == WithSender(t, rows[i]);
    } else {
      assert m in Select(t, s.user, true, t.history, r.next, r.through);
    }
  }

  /** The goal of a synchronization after a page request: a first page sets it. */
  function GoalAfter(t: Tables, s: Session, upTo: Option<int>, r: PageWriter.Response): Option<Goal> {
    if upTo.None? && r.PageResponse? then Some(Goal(PendingIds(t, s.user), r.through)) else s.goal
  }

  lemma FreshGoal(t: Tables, u: int, id: int)
    requires Consistent(t) && id in PendingIds(t, u)
    ensures (id, u) in t.recipients && t.recipients[(id, u)] == None
    ensures 0 < id <= Watermark(t, u, true, t.history)
  {
    var m :| m in t.history && Visible(t, u, true, m) && m.id == id;
    assert RowOk(t, m);
    hide Consistent, RowOk, Watermark;
    PageWriter.WatermarkBounds(t, u, true, t.history);
  }

  /** Where every goal message is when a page has been served. */
  lemma GoalServed(y: System, sid: nat, s': Session, upTo: Option<int>, r: PageWriter.Response)
    requires Inv(y) && Running(y, sid)
    requires var s := y.sessions[sid];
      && s'.client == s.client && s'.user == s.user
      && ServedFor(y.tables, s, upTo, r) && (upTo.None? ==> s.client.after == 0)
      && (upTo.Some? ==> s.goal.Some? && s.goal.value.through == upTo.value)
      && s'.goal == GoalAfter(y.tables, s, upTo, r)
    ensures PageOk(y.tables, y.ackedBy, sid, s', PageFrame(r))
  {
    var s := y.sessions[sid];
    SessionOf(y, sid);
    InvConsistent(y);
    ServedFits(y.tables, s, upTo, r);
    PageRecords(y.tables, s, upTo, r);
    forall id | id in s'.goal.value.ids
      ensures || Holds(s.client, id) || ByOther(y.ackedBy, sid, s.user, id) || InRecords(r.records, id)
              || (r.hasMore && id > r.next)
    {
      GoalMessageServed(y, sid, s', upTo, r, id);
    }
    hide Inv, SessionInv, Consistent, PageFits, DeliveryOk, InRecords, PageWriter.ResponseLength, Watermark, Select, PendingIds;
  }

  lemma GoalMessageServed(y: System, sid: nat, s': Session, upTo: Option<int>, r: PageWriter.Response, id: int)
    requires Inv(y) && Running(y, sid)
    requires var s := y.sessions[sid];
      && ServedFor(y.tables, s, upTo, r) && (upTo.None? ==> s.client.after == 0)
      && (upTo.Some? ==> s.goal.Some? && s.goal.value.through == upTo.value)
      && s'.goal == GoalAfter(y.tables, s, upTo, r)
      && id in s'.goal.value.ids
    ensures var s := y.sessions[sid];
      || Holds(s.client, id) || ByOther(y.ackedBy, sid, s.user, id) || InRecords(r.records, id)
      || (r.hasMore && id > r.next)
  {
    var s := y.sessions[sid];
    SessionOf(y, sid);
    InvConsistent(y);
    hide Inv, Consistent, AuthInv, TrafficInv, CountInv, IndexInv, FramesInv, JobInv;
    hide Holds, InRecords, PageWriter.ResponseLength, Watermark, Select, PendingIds;
    if upTo.None? {
      FreshGoal(y.tables, s.user, id);
      PendingIsServed(y.tables, s, upTo, r, id);
    } else if (id, s.user) in y.tables.recipients && y.tables.recipients[(id, s.user)].Some? {
      AckedIsHeld(y, sid, id);
    } else if id > s.client.after {
      PendingIsServed(y.tables, s, upTo, r, id);
    }
  }

  /** What a synchronization request says about its session. */
  lemma SyncRequested(y: System, sid: nat)
    requires Inv(y) && Running(y, sid)
    requires var up := y.sessions[sid].up; up != [] && up[0].SyncRequest?
    ensures var s := y.sessions[sid];
      && s.client.active && !s.completed
      && s.up[0].upTo == s.client.through && s.up[0].after == s.client.after && 0 <= s.client.after
      && (s.up[0].upTo.None? ==> s.client.after == 0)
      && (s.up[0].upTo.Some? ==> s.goal.Some? && s.goal.value.through == s.up[0].upTo.value)
  {
    hide Consistent, AuthInv, TrafficInv, IndexInv, Count;
    SessionOf(y, sid);
    var s := y.sessions[sid];
    CountPositive(s.up, Sync, s.up[0]);
    assert s.up[0] in s.up;
    assert FrameOk(y.tables, y.ackedBy, sid, s, s.up[0]);
  }

  lemma GoalAfterOk(t: Tables, acks: map<(int, int), nat>, sid: nat, s: Session, s': Session, upTo: Option<int>,
                    r: PageWriter.Response)
    requires Consistent(t) && GoalInv(t, acks, sid, s) && !s.completed && s.client.active
    requires upTo == s.client.through && (upTo.None? ==> s.client.after == 0)
    requires upTo.None? && r.PageResponse? ==> r.through == Watermark(t, s.user, true, t.history)
    requires s'.client == s.client && s'.user == s.user && s'.completed == s.completed
    requires s'.goal == GoalAfter(t, s, upTo, r)
    ensures GoalInv(t, acks, sid, s')
  {
    hide Consistent, Watermark, PendingIds;
    PageLimits.WatermarkIsAnId(t, s.user, true);
    if upTo.None? && r.PageResponse? {
      forall id | id in s'.goal.value.ids
        ensures (id, s.user) in t.recipients && 0 < id <= s'.goal.value.through
      {
        FreshGoal(t, s.user, id);
      }
    }
  }

  /** Answering a request for a pending page. */
  lemma SyncMoved(y: System, y': System, sid: nat, r: PageWriter.Response)
    requires Inv(y) && Running(y, sid) && |y'.sessions| == |y.sessions|
    requires y'.tables == y.tables && y'.ackedBy == y.ackedBy && y'.registry == y.registry
    requires y'.sessions == y.sessions[sid := y'.sessions[sid]]
    requires var s := y.sessions[sid];
      && s.up != [] && s.up[0].SyncRequest? && s.reply == None && s.job == None
      && (r.PageResponse? ==> PageWriter.Served(y.tables, PageWriter.SyncPending, s.user, s.up[0].after, s.up[0].upTo, r))
      && y'.sessions[sid] == s.(up := s.up[1..], reply := Some(PageFrame(r)), goal := GoalAfter(y.tables, s, s.up[0].upTo, r))
    ensures Inv(y')
  {
    var s, s' := y.sessions[sid], y'.sessions[sid];
    SyncRequested(y, sid);
    SessionOf(y, sid);
    InvConsistent(y);
    SyncReplyOk(y, sid, s', r);
    RegistryKeptBy(y, y', sid);
    hide Inv, Consistent, AuthInv, TrafficInv, CountInv, IndexInv, FramesInv, JobInv, FrameOk, GoalAfter, RegistryInv;
    assert GoalInv(y.tables, y.ackedBy, sid, s') by {
      GoalAfterOk(y.tables, y.ackedBy, sid, s, s', s.up[0].upTo, r);
    }
    hide GoalInv, IsUser, PageWriter.Served;
    assert JobInv(y.tables, s') by { NoJob(y.tables, s'); }
    HandledKeeps(y.tables, y.ackedBy, sid, s, s', PageFrame(r));
    hide SessionInv;
    QuietStep(y, y', sid, s');
  }

  lemma NoJob(t: Tables, s: Session)
    requires s.job == None
    ensures JobInv(t, s)
  {
  }

  lemma SyncReplyOk(y: System, sid: nat, s': Session, r: PageWriter.Response)
    requires Inv(y) && Running(y, sid)
    requires var s := y.sessions[sid];
      && s.up != [] && s.up[0].SyncRequest?
      && (r.PageResponse? ==> PageWriter.Served(y.tables, PageWriter.SyncPending, s.user, s.up[0].after, s.up[0].upTo, r))
      && s'.client == s.client && s'.user == s.user && s'.goal == GoalAfter(y.tables, s, s.up[0].upTo, r)
    ensures FrameOk(y.tables, y.ackedBy, sid, s', PageFrame(r))
  {
    SyncRequested(y, sid);
    if r.PageResponse? {
      GoalServed(y, sid, s', y.sessions[sid].up[0].upTo, r);
    }
    hide Inv, PageOk, PageWriter.Served, GoalAfter;
  }

  lemma SyncKeeps(y: System, sid: nat)
    requires Inv(y) && Running(y, sid) && IsUser(y.tables, y.sessions[sid].user) && Consistent(y.tables)
    requires var s := y.sessions[sid]; s.up != [] && s.up[0].SyncRequest? && s.reply == None && s.job == None
    ensures var s := y.sessions[sid];
      Inv(HandleSync(y, sid, s.(up := s.up[1..]), s.up[0].after, s.up[0].upTo))
  {
    hide Inv, Consistent, PageWriter.Served, PageWriter.Respond, FetchPage, PendingIds, PageFrame, FindUser;
    var s := y.sessions[sid];
    var t, f := y.tables, s.up[0];
    var page := FetchPage(t, UserName(t, s.user), f.after, f.upTo, SYNC_LIMIT, true);
    var r := PageWriter.Respond(PageWriter.SyncPending, f.after, page);
    if r.PageResponse? {
      FindUserId(t, UserName(t, s.user), s.user);
      PageWriter.PageMeaning(t, PageWriter.SyncPending, UserName(t, s.user), s.user, f.after, f.upTo, SYNC_LIMIT, r);
    }
    SyncMoved(y, HandleSync(y, sid, s.(up := s.up[1..]), f.after, f.upTo), sid, r);
  }

  // ----- Submitted messages -----

  /** A commit by user `u`: one new row, whose recipients are routed to. */
  ghost predicate Committed(t: Tables, t': Tables, u: int, d: Delivery, routes: seq<int>) {
    && d.message in t'.history && d.message.senderId == u && IsUser(t', u) && d == WithSender(t', d.message)
    && 0 < d.message.id
    && (forall x | x in t.history :: x.id < d.message.id)
    && (forall v | v in routes :: (d.message.id, v) in t'.recipients)
    && NoNewAcks(t, t')
  }

  lemma CommitLaw(t: Tables, t': Tables, r: Acceptance, kind: Kind, u: int, group: Option<int>, content: Bytes,
                  routes: seq<int>, now: nat)
    requires Consistent(t') && IsUser(t, u) && CommittedAs(t, t', r, kind, u, group, content, routes, now)
    ensures Committed(t, t', u, r.delivery, routes)
  {
    var m := r.delivery.message;
    assert m in t'.history;
    assert RowOk(t', m);
    hide Consistent, RowOk, NextId;
    forall k | k in t'.recipients && k !in t.recipients
      ensures t'.recipients[k] == None
    {
      assert k == (k.0, k.1);
    }
  }

  /** What accepting any body of a user does. */
  lemma BodyLaw(t: Tables, u: int, body: Body, now: nat)
    requires Consistent(t) && IsUser(t, u)
    ensures var (t', r) := AcceptBody(t, UserName(t, u), body, now);
      && Consistent(t') && Evolves(t, t')
      && (r.Accepted? ==> Committed(t, t', u, r.delivery, r.recipients))
      && (!r.Accepted? ==> t' == t)
  {
    hide Consistent, Evolves, FindUser, Committed, CommittedAs, AcceptPrivate, AcceptGroup, AcceptBroadcast, WireText;
    var name := UserName(t, u);
    var (t', r) := AcceptBody(t, name, body, now);
    match body
    case ToUser(receiver, content) =>
      PrivateLaw(t, name, receiver, content, now);
      if r.Accepted? {
        var f, v :| IsUser(t, f) && t.users[f - 1] == name && CommittedAs(t, t', r, Private, f, None, content, [v], now);
        FindUserId(t, name, u);
        FindUserId(t, name, f);
        CommitLaw(t, t', r, Private, u, None, content, [v], now);
        assert r.recipients == [v] by { RecipientsOf(t, t', r, Private, u, None, content, [v], now); }
      }
    case ToGroup(group, content) =>
      GroupLaw(t, name, group, content, now);
      if r.Accepted? {
        var f :| IsUser(t, f) && t.users[f - 1] == name
                 && CommittedAs(t, t', r, Group, f, Some(group), content, r.recipients, now);
        FindUserId(t, name, u);
        FindUserId(t, name, f);
        CommitLaw(t, t', r, Group, u, Some(group), content, r.recipients, now);
      }
    case ToAll(content) =>
      BroadcastLaw(t, name, content, now);
      if r.Accepted? {
        var f :| IsUser(t, f) && t.users[f - 1] == name
                 && CommittedAs(t, t', r, Broadcast, f, None, content, r.recipients, now);
        FindUserId(t, name, u);
        FindUserId(t, name, f);
        CommitLaw(t, t', r, Broadcast, u, None, content, r.recipients, now);
      }
  }

  lemma RecipientsOf(t: Tables, t': Tables, r: Acceptance, kind: Kind, u: int, group: Option<int>, content: Bytes,
                     routes: seq<int>, now: nat)
    requires IsUser(t, u) && CommittedAs(t, t', r, kind, u, group, content, routes, now)
    ensures r.recipients == routes
  {
  }

  /** A fresh id is in no index of any user: everything indexed was stored before. */
  lemma FreshIdNotIndexed(t: Tables, s: Session, id: int)
    requires IndexInv(t, s) && forall x | x in t.history :: x.id < id
    ensures id !in s.client.index
  {
    forall k | k in s.client.index
      ensures k < id
    {
      assert EntryOk(t, s.user, k, s.client.index[k]);
    }
  }

  lemma CommittedJob(t: Tables, t': Tables, s: Session, d: Delivery, routes: seq<int>)
    requires Committed(t, t', s.user, d, routes)
    requires s.job == Some(Job(d, routes))
    ensures JobInv(t', s)
  {
  }

  lemma AcceptedOk(t: Tables, t': Tables, acks: map<(int, int), nat>, sid: nat, s: Session, s': Session, d: Delivery, routes: seq<int>)
    requires IndexInv(t, s) && Committed(t, t', s.user, d, routes)
    requires s'.client == s.client && s'.user == s.user
    ensures FrameOk(t', acks, sid, s', Frame.Accepted(d.message.id))
  {
    hide NoNewAcks, EntryOk, IndexInv;
    FreshIdNotIndexed(t, s, d.message.id);
    assert OwnMessage(t', s.user, d.message.id);
  }

  /** The reply to a submission and the job it leaves. */
  function SubmitReply(r: Acceptance): Frame {
    if r.Accepted? then Frame.Accepted(r.delivery.message.id) else NotAccepted
  }

  function SubmitJob(r: Acceptance): Option<Job> {
    if r.Accepted? then Some(Job(r.delivery, r.recipients)) else None
  }

  lemma SubmitSession(t: Tables, t': Tables, acks: map<(int, int), nat>, sid: nat, s: Session, s': Session, r: Acceptance)
    requires SessionInv(t, acks, sid, s) && SessionInv(t', acks, sid, s)
    requires r.Accepted? ==> Committed(t, t', s.user, r.delivery, r.recipients)
    requires s.up != [] && s.up[0].Submit? && s.reply == None && s.job == None
    requires s' == s.(up := s.up[1..], reply := Some(SubmitReply(r)), job := SubmitJob(r))
    ensures SessionInv(t', acks, sid, s')
  {
    assert IndexInv(t, s);
    if r.Accepted? {
      AcceptedOk(t, t', acks, sid, s, s', r.delivery, r.recipients);
      CommittedJob(t, t', s', r.delivery, r.recipients);
    } else {
      RefusalOk(t', acks, sid, s');
      NoJob(t', s');
    }
    assert Handled(s, s', SubmitReply(r));
    hide SessionInv, Handled, SubmitJob, SubmitReply, Committed;
    GoalMovesNot(t', acks, sid, s, s');
    hide JobInv, IndexInv, FrameOk, GoalInv;
    HandledKeeps(t', acks, sid, s, s', SubmitReply(r));
  }

  lemma RefusalOk(t: Tables, acks: map<(int, int), nat>, sid: nat, s: Session)
    ensures FrameOk(t, acks, sid, s, NotAccepted)
  {
  }

  lemma SubmitMoved(y: System, y': System, sid: nat, r: Acceptance)
    requires Inv(y) && Running(y, sid) && |y'.sessions| == |y.sessions|
    requires Consistent(y'.tables) && Evolves(y.tables, y'.tables)
    requires y'.ackedBy == y.ackedBy && y'.registry == y.registry
    requires y'.sessions == y.sessions[sid := y'.sessions[sid]]
    requires var s := y.sessions[sid];
      && (if r.Accepted? then Committed(y.tables, y'.tables, s.user, r.delivery, r.recipients) else y'.tables == y.tables)
      && s.up != [] && s.up[0].Submit? && s.reply == None && s.job == None
      && y'.sessions[sid] == s.(up := s.up[1..], reply := Some(SubmitReply(r)), job := SubmitJob(r))
    ensures Inv(y')
  {
    var s, s' := y.sessions[sid], y'.sessions[sid];
    SessionOf(y, sid);
    assert NoNewAcks(y.tables, y'.tables);
    assert AckerInv(y') by { AckersKept(y, y'); }
    hide Consistent, Evolves, SessionInv, SessionsInv, LossInv, Committed, AckerInv;
    SessionStays(y.tables, y.ackedBy, y'.tables, y'.ackedBy, sid, s);
    SubmitSession(y.tables, y'.tables, y.ackedBy, sid, s, s', r);
    RegistryKeptBy(y, y', sid);
    hide Inv, RegistryInv, SubmitReply, SubmitJob;
    SessionChanged(y, y', sid, s');
  }

  lemma AckersKept(y: System, y': System)
    requires AckerInv(y) && Evolves(y.tables, y'.tables) && y'.ackedBy == y.ackedBy
    ensures AckerInv(y')
  {
    hide NextId;
  }

  lemma SubmissionKeeps(y: System, sid: nat, now: Clock)
    requires Inv(y) && Running(y, sid) && IsUser(y.tables, y.sessions[sid].user)
    requires var s := y.sessions[sid]; s.up != [] && s.up[0].Submit? && s.reply == None && s.job == None
    ensures var s := y.sessions[sid];
      Inv(HandleSubmit(y, sid, s.(up := s.up[1..]), s.up[0].body, now))
  {
    hide Inv, Consistent, Evolves, AcceptBody, Committed;
    var s := y.sessions[sid];
    var y' := HandleSubmit(y, sid, s.(up := s.up[1..]), s.up[0].body, now);
    var (t', r) := AcceptBody(y.tables, UserName(y.tables, s.user), s.up[0].body, now);
    InvConsistent(y);
    BodyLaw(y.tables, s.user, s.up[0].body, now);
    SubmitMoved(y, y', sid, r);
  }

  lemma HandleKeeps(y: System, sid: nat, now: Clock)
    requires Inv(y) && Sane(y) && Running(y, sid)
    ensures Inv(HandleStep(y, sid, now))
  {
    hide Inv, Consistent, HandleAck, HandleSync, HandleSubmit;
    var s := y.sessions[sid];
    if s.phase == Serving && s.reply == None && s.job == None && s.up != [] {
      KnownRequest(y, sid);
      match s.up[0]
      case DeliveryAck(_) => AckKeeps(y, sid, now);
      case SyncRequest(_, _) => SyncKeeps(y, sid);
      case Submit(_) => SubmissionKeeps(y, sid, now);
    }
  }

  lemma KnownRequest(y: System, sid: nat)
    requires Inv(y) && Running(y, sid) && y.sessions[sid].up != []
    ensures var f := y.sessions[sid].up[0]; f.DeliveryAck? || f.SyncRequest? || f.Submit?
  {
    SessionOf(y, sid);
    hide Inv, AuthInv, CountInv, IndexInv, FramesInv, JobInv, GoalInv;
    assert y.sessions[sid].up[0] in y.sessions[sid].up;
  }
}
