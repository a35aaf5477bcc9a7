/** What a user sees as sent is what the server committed: over every run of server, connections
    and stores, an own message listed under an id is the row the server committed under that
    id, with this text, and for whom the conversation means it. */
module OwnMessages {
  import opened Prelude
  import opened Tables
  import opened ClientSync
  import opened DeliverySystem
  import opened DeliveryInvariant
  import opened DeliveryRuns
  import opened SystemStores
  import B = BufferState
  import BufferContents
  import BufferInvariant
  import ClientReceive
  import ClientSteps
  import DeliveryTheorems
  import Evolution
  import HandlerSteps
  import HistoryPaging
  import ServingLaws
  import SessionAdmission
  import SyncCompleteness
  import SyncProgress
  import UiDiscipline

  // ----- What is committed -----

  /** Row `id` is a message of `u` with the text of `body`, for those `body` names. */
  ghost predicate RowIs(t: Tables, u: int, body: Body, id: int) {
    exists m :: m in t.history && m.id == id && RowOf(t, u, body, m)
  }

  ghost predicate RowOf(t: Tables, u: int, body: Body, m: Stored) {
    && m.senderId == u && m.kind == ServingLaws.KindOf(body) && m.groupId == ServingLaws.GroupOf(body) && m.content == body.content
    && (body.ToUser? ==> forall v :: (m.id, v) in t.recipients ==> IsUser(t, v) && t.users[v - 1] == body.receiver)
    && (body.ToUser? ==> exists v :: (m.id, v) in t.recipients)
  }

  lemma RowStays(t: Tables, t': Tables, u: int, body: Body, id: int)
    requires Consistent(t) && Evolution.Evolves(t, t') && RowIs(t, u, body, id)
    ensures RowIs(t', u, body, id)
  {
    hide Consistent, Evolution.Evolves, RowOf;
    Evolution.NewestIsLast(t);
    var m :| m in t.history && m.id == id && RowOf(t, u, body, m);
    RowOfStays(t, t', u, body, m);
    assert m in t'.history by { HistoryStays(t, t'); }
  }

  lemma HistoryStays(t: Tables, t': Tables)
    requires Evolution.Evolves(t, t')
    ensures forall m | m in t.history :: m in t'.history
  {
  }

  lemma RowOfStays(t: Tables, t': Tables, u: int, body: Body, m: Stored)
    requires Evolution.Evolves(t, t') && RowOf(t, u, body, m) && m.id < NextId(t.history)
    ensures RowOf(t', u, body, m)
  {
    hide NextId;
    if body.ToUser? {
      forall v | (m.id, v) in t'.recipients
        ensures IsUser(t', v) && t'.users[v - 1] == body.receiver
      {
        assert (m.id, v) in t.recipients;
      }
    }
  }

  lemma SentRow(t: Tables, t': Tables, u: int, body: Body, now: int)
    requires IsUser(t, u) && ServingLaws.MaySend(t, u, body) && ServingLaws.Sent(t, t', u, body, now)
    ensures RowIs(t', u, body, NextId(t.history))
  {
    hide WireText;
    var m := t'.history[|t.history|];
    assert m in t'.history && m.id == NextId(t.history);
    if body.ToUser? {
      var i :| 0 <= i < |t.users| && t.users[i] == body.receiver;
      assert ServingLaws.MeantFor(t, u, body, i + 1);
    }
    assert RowOf(t', u, body, m);
  }

  // ----- Submissions and answers on their way -----

  predicate Submitting(s: Session, body: Body) { Submit(body) in s.up }

  predicate Answering(s: Session, id: int) {
    s.reply == Some(Frame.Accepted(id)) || Frame.Accepted(id) in s.down || s.client.response == Some(Frame.Accepted(id))
  }

  /** Nothing is submitted or answered that was not before. */
  ghost predicate NothingNew(s: Session, s': Session) {
    && (forall body | Submitting(s', body) :: Submitting(s, body))
    && (forall id | Answering(s', id) :: Answering(s, id))
  }

  /** So it is in every session there was. */
  ghost predicate AllQuiet(y: System, y': System) {
    |y'.sessions| == |y.sessions| && forall i | 0 <= i < |y.sessions| :: NothingNew(y.sessions[i], y'.sessions[i])
  }

  lemma UpdateQuiet(y: System, sid: nat, s': Session, registry: map<int, nat>)
    requires Running(y, sid) && NothingNew(y.sessions[sid], s')
    ensures AllQuiet(y, y) && AllQuiet(y, Update(y, sid, s')) && AllQuiet(y, Update(y, sid, s').(registry := registry))
  {
  }

  lemma SameNothingNew(s: Session, s': Session, pushed: seq<Frame>)
    requires s'.up == s.up && s'.client == s.client && s'.down == s.down + pushed
    requires forall f | f in pushed :: !f.Accepted?
    requires s'.reply == s.reply || s'.reply == None
    ensures NothingNew(s, s')
  {
  }

  lemma AdmissionQuiet(y: System, sid: nat)
    requires Running(y, sid)
    ensures AllQuiet(y, ReserveStep(y, sid)) && AllQuiet(y, GreetStep(y, sid))
    ensures AllQuiet(y, PublishStep(y, sid)) && AllQuiet(y, CleanupStep(y, sid))
  {
    hide AllQuiet, NothingNew, RemoveIfSame, Update;
    var s := y.sessions[sid];
    var registry := RemoveIfSame(y.registry, s.user, sid);
    var refused := s.(phase := Gone, stopping := true, down := Push(s.down, s.cut, AuthFailure));
    var reserved, greeted := s.(phase := Reserved), s.(phase := Greeted, down := s.down + [AuthSuccess]);
    var served, gone := s.(phase := Serving, ready := true), s.(phase := Gone, stopping := true);
    SameNothingNew(s, refused, if s.cut then [] else [AuthFailure]);
    SameNothingNew(s, reserved, []);
    SameNothingNew(s, greeted, [AuthSuccess]);
    SameNothingNew(s, served, []);
    SameNothingNew(s, gone, []);
    UpdateQuiet(y, sid, refused, y.registry);
    UpdateQuiet(y, sid, reserved, y.registry[s.user := sid]);
    UpdateQuiet(y, sid, greeted, registry);
    UpdateQuiet(y, sid, served, registry);
    UpdateQuiet(y, sid, gone, registry);
  }

  lemma QuietTwice(a: System, b: System, c: System)
    requires AllQuiet(a, b) && AllQuiet(b, c)
    ensures AllQuiet(a, c)
  {
    hide Submitting, Answering;
    forall i | 0 <= i < |a.sessions|
      ensures NothingNew(a.sessions[i], c.sessions[i])
    {
      assert NothingNew(a.sessions[i], b.sessions[i]) && NothingNew(b.sessions[i], c.sessions[i]);
    }
  }

  lemma DeliverQuiet(y: System, u: int, d: Delivery)
    ensures AllQuiet(y, Deliver(y, u, d))
  {
    hide Submitting, Answering, NothingNew;
    var y' := Deliver(y, u, d);
    ServingLaws.LiveCopyIsWritten(y, u, d);
    hide Deliver;
    forall i | 0 <= i < |y.sessions|
      ensures NothingNew(y.sessions[i], y'.sessions[i])
    {
      SameNothingNew(y.sessions[i], y'.sessions[i], if y'.sessions[i].down == y.sessions[i].down then [] else [Message(d)]);
    }
  }

  lemma RouteQuiet(y: System, sid: nat)
    requires Running(y, sid)
    ensures AllQuiet(y, RouteStep(y, sid))
  {
    hide AllQuiet, NothingNew, Deliver, Update;
    var s := y.sessions[sid];
    SameNothingNew(s, s, []);
    UpdateQuiet(y, sid, s, y.registry);
    if s.job.Some? {
      SameNothingNew(s, s.(job := None), []);
      UpdateQuiet(y, sid, s.(job := None), y.registry);
      if s.job.value.routes != [] {
        var s' := s.(job := Some(Job(s.job.value.delivery, s.job.value.routes[1..])));
        SameNothingNew(s, s', []);
        UpdateQuiet(y, sid, s', y.registry);
        DeliverQuiet(Update(y, sid, s'), s.job.value.routes[0], s.job.value.delivery);
        QuietTwice(y, Update(y, sid, s'), Deliver(Update(y, sid, s'), s.job.value.routes[0], s.job.value.delivery));
      }
    }
  }

  lemma RepliedQuiet(s: Session)
    ensures NothingNew(s, Replied(s))
  {
  }

  lemma CutQuiet(s: Session, keepDown: nat, keepUp: nat)
    ensures NothingNew(s, CutAt(s, keepDown, keepUp))
  {
  }

  lemma StartedQuiet(s: Session)
    ensures NothingNew(s, Started(s)) && NothingNew(s, HasQuit(s))
  {
  }

  /** Only automatic requests wait in the queue. */
  lemma FlushedQuiet(s: Session, written: bool)
    requires TrafficInv(s)
    ensures NothingNew(s, Flushed(s, written))
  {
    if Live(s) && s.client.queue != [] {
      assert s.client.queue[0] in s.client.queue;
    }
  }

  lemma ReceivedQuiet(s: Session, handled: nat, interrupted: bool)
    ensures NothingNew(s, Received(s, handled, interrupted))
  {
    hide Dispatch;
    if s.client.stopped == None && s.down != [] {
      ResponseComesFrom(s.client, s.down[0], handled, interrupted);
    }
  }

  lemma ResponseComesFrom(c: Client, f: Frame, handled: nat, interrupted: bool)
    ensures var c' := Dispatch(c, f, handled, interrupted); c'.response == c.response || c'.response == Some(f)
  {
    hide PageFits, StoreEach, WellFormed, StoreOne;
  }

  // ----- A submission that is handled -----

  /** A session after an event: what is submitted was submitted before, and an answer is an old
      one or names the row a submission has become. */
  ghost predicate Follows(t': Tables, s: Session, s': Session) {
    && s'.user == s.user
    && (forall body | Submitting(s', body) :: Submitting(s, body))
    && (forall id | Answering(s', id) :: Answering(s, id) || exists body :: Submitting(s, body) && RowIs(t', s.user, body, id))
  }

  lemma QuietFollows(t': Tables, s: Session, s': Session)
    requires NothingNew(s, s') && s'.user == s.user
    ensures Follows(t', s, s')
  {
  }

  lemma TakenQuiet(s: Session, s': Session)
    requires s.up != [] && s'.up == s.up[1..] && s'.client == s.client && s'.down == s.down
    requires s'.reply == s.reply || (s'.reply.Some? && !s'.reply.value.Accepted?)
    ensures NothingNew(s, s')
  {
  }

  lemma HandleFollows(y: System, sid: nat, now: Clock)
    requires Inv(y) && Sane(y) && Running(y, sid)
    ensures var y' := HandleStep(y, sid, now);
      && |y'.sessions| == |y.sessions|
      && Follows(y'.tables, y.sessions[sid], y'.sessions[sid])
      && forall i | 0 <= i < |y.sessions| && i != sid :: y'.sessions[i] == y.sessions[i]
  {
    hide Inv, Consistent, HandleStep, Follows, NothingNew;
    var s := y.sessions[sid];
    HandleIsLocal(y, sid, now);
    var y' := HandleStep(y, sid, now);
    if s.phase == Serving && s.reply == None && s.job == None && s.up != [] {
      HandledFollows(y, sid, now);
    } else {
      assert y' == y by { NotHandled(y, sid, now); }
      SameNothingNew(s, s, []);
      QuietFollows(y.tables, s, s);
    }
  }

  lemma NotHandled(y: System, sid: nat, now: Clock)
    requires Sane(y) && Running(y, sid)
    requires var s := y.sessions[sid]; s.phase != Serving || s.reply.Some? || s.job.Some? || s.up == []
    ensures HandleStep(y, sid, now) == y
  {
    hide Consistent, HandleAck, HandleSync, HandleSubmit;
  }

  lemma HandledFollows(y: System, sid: nat, now: Clock)
    requires Inv(y) && Sane(y) && Running(y, sid)
    requires var s := y.sessions[sid]; s.phase == Serving && s.reply == None && s.job == None && s.up != []
    ensures var y' := HandleStep(y, sid, now);
      |y'.sessions| == |y.sessions| && Follows(y'.tables, y.sessions[sid], y'.sessions[sid])
  {
    hide Inv, Consistent, HandleStep, Follows, NothingNew, ServingLaws.AckOutcomes, ServingLaws.Sent, ServingLaws.MaySend, ServingLaws.RoutesTo;
    var s := y.sessions[sid];
    HandlerSteps.KnownRequest(y, sid);
    var y' := HandleStep(y, sid, now);
    match s.up[0]
    case DeliveryAck(id) =>
      ServingLaws.AckIsRecorded(y, sid, id, now);
      SyncProgress.AckShape(y, y', sid, id, now);
      TakenQuiet(s, y'.sessions[sid]);
      QuietFollows(y'.tables, s, y'.sessions[sid]);
    case SyncRequest(after, upTo) =>
      SessionAdmission.AnswerIsTheResponse(y, sid, now);
      TakenQuiet(s, y'.sessions[sid]);
      QuietFollows(y'.tables, s, y'.sessions[sid]);
    case Submit(body) =>
      ServingLaws.SubmissionIsCommitted(y, sid, body, now);
      SubmitFollows(y, y', sid, body, now);
  }

  lemma SubmitFollows(y: System, y': System, sid: nat, body: Body, now: Clock)
    requires Running(y, sid) && Running(y', sid) && IsUser(y.tables, y.sessions[sid].user)
    requires var s, s' := y.sessions[sid], y'.sessions[sid];
      && s.up != [] && s.up[0] == Submit(body) && s.reply == None && s' == s.(up := s.up[1..], reply := s'.reply, job := s'.job)
      && (|| s'.reply == Some(NotAccepted)
          || (&& s'.reply == Some(Frame.Accepted(NextId(y.tables.history)))
              && ServingLaws.MaySend(y.tables, s.user, body) && ServingLaws.Sent(y.tables, y'.tables, s.user, body, now)))
    ensures Follows(y'.tables, y.sessions[sid], y'.sessions[sid])
  {
    hide ServingLaws.MaySend, ServingLaws.Sent, RowIs, NextId;
    var s, s' := y.sessions[sid], y'.sessions[sid];
    if s'.reply == Some(NotAccepted) {
      TakenQuiet(s, s');
      QuietFollows(y'.tables, s, s');
    } else {
      SentRow(y.tables, y'.tables, s.user, body, now);
      assert s.up[0] in s.up && Submitting(s, body);
    }
  }

  // ----- Every event -----

  /** Old sessions follow, and new ones have nothing under way. */
  ghost predicate SystemFollows(y: System, y': System) {
    && |y.sessions| <= |y'.sessions|
    && (forall i | 0 <= i < |y.sessions| :: Follows(y'.tables, y.sessions[i], y'.sessions[i]))
    && (forall i | |y.sessions| <= i < |y'.sessions| :: y'.sessions[i] == NewSession(y'.sessions[i].user))
  }

  lemma AllQuietFollow(y: System, y': System)
    requires AllQuiet(y, y') && SameUsers(y, y')
    ensures SystemFollows(y, y')
  {
    hide NothingNew, Follows;
    forall i | 0 <= i < |y.sessions|
      ensures Follows(y'.tables, y.sessions[i], y'.sessions[i])
    {
      QuietFollows(y'.tables, y.sessions[i], y'.sessions[i]);
    }
  }

  lemma OneFollows(y: System, y': System, sid: nat)
    requires Running(y, sid) && |y'.sessions| == |y.sessions| && Follows(y'.tables, y.sessions[sid], y'.sessions[sid])
    requires forall i | 0 <= i < |y.sessions| && i != sid :: y'.sessions[i] == y.sessions[i]
    ensures SystemFollows(y, y')
  {
    hide NothingNew, Follows;
    forall i | 0 <= i < |y.sessions|
      ensures Follows(y'.tables, y.sessions[i], y'.sessions[i])
    {
      if i != sid {
        SameNothingNew(y.sessions[i], y.sessions[i], []);
        QuietFollows(y'.tables, y.sessions[i], y.sessions[i]);
      }
    }
  }

  lemma ServerEventFollows(y: System, e: Event)
    requires e.Reserve? || e.Greet? || e.Publish? || e.Reply? || e.Route? || e.Cleanup?
    requires Sane(y) && Running(y, e.sid)
    ensures SystemFollows(y, ApplySession(y, e))
  {
    hide Sane, SystemFollows, AllQuiet, NothingNew, ReserveStep, GreetStep, PublishStep, CleanupStep, RouteStep, Replied, Update;
    SessionEventKeepsUsers(y, e);
    AdmissionQuiet(y, e.sid);
    RouteQuiet(y, e.sid);
    RepliedQuiet(y.sessions[e.sid]);
    UpdateQuiet(y, e.sid, Replied(y.sessions[e.sid]), y.registry);
    AllQuietFollow(y, ApplySession(y, e));
  }

  lemma ClientEventFollows(y: System, e: Event)
    requires e.Cut? || e.StartPending? || e.Flush? || e.Quit? || e.Receive?
    requires Inv(y) && Sane(y) && Running(y, e.sid)
    ensures SystemFollows(y, ApplySession(y, e))
  {
    hide Inv, Sane, SystemFollows, AllQuiet, NothingNew, Received, Started, Flushed, HasQuit, CutAt, Update;
    var s := y.sessions[e.sid];
    SessionEventKeepsUsers(y, e);
    TrafficOf(y, e.sid);
    if e.Cut? {
      CutQuiet(s, e.keepDown, e.keepUp);
      UpdateQuiet(y, e.sid, CutAt(s, e.keepDown, e.keepUp), y.registry);
    } else if e.Flush? {
      FlushedQuiet(s, e.written);
      UpdateQuiet(y, e.sid, Flushed(s, e.written), y.registry);
    } else if e.Receive? {
      ReceivedQuiet(s, e.handled, e.interrupted);
      UpdateQuiet(y, e.sid, Received(s, e.handled, e.interrupted), y.registry);
    } else {
      StartedQuiet(s);
      UpdateQuiet(y, e.sid, if e.StartPending? then Started(s) else HasQuit(s), y.registry);
    }
    AllQuietFollow(y, ApplySession(y, e));
  }

  lemma TrafficOf(y: System, sid: nat)
    requires Inv(y) && Running(y, sid)
    ensures TrafficInv(y.sessions[sid])
  {
    ClientSteps.SessionOf(y, sid);
    hide Inv;
  }

  lemma EventFollows(y: System, e: Event)
    requires Inv(y) && Sane(y) && !e.ConsumeResponse? && !e.SubmitMessage?
    ensures SystemFollows(y, Apply(y, e))
  {
    hide Inv, Consistent, ApplySession, HistoryPaging.Perform, ChangeOf, CrashStep, HandleStep, Follows;
    if OfSession(e) && Running(y, e.sid) {
      if e.Handle? {
        HandleFollows(y, e.sid, e.now);
        SyncCompleteness.HandleIsApplied(y, e.sid, e.now);
        OneFollows(y, Apply(y, e), e.sid);
      } else if e.Cut? || e.StartPending? || e.Flush? || e.Quit? || e.Receive? {
        ClientEventFollows(y, e);
      } else {
        ServerEventFollows(y, e);
      }
    } else if e.Crash? {
      CrashFollows(y);
    } else {
      SameFollow(y, Apply(y, e));
    }
  }

  lemma CrashFollows(y: System)
    ensures SystemFollows(y, CrashStep(y))
  {
    hide Follows;
    var y' := CrashStep(y);
    assert y'.tables == y.tables && |y'.sessions| == |y.sessions|;
    forall i | 0 <= i < |y.sessions|
      ensures Follows(y'.tables, y.sessions[i], y'.sessions[i])
    {
      assert y'.sessions[i] == Crashed(y.sessions[i]);
      SameNothingNew(y.sessions[i], y'.sessions[i], []);
      QuietFollows(y'.tables, y.sessions[i], y'.sessions[i]);
    }
    FollowsAll(y, y');
  }

  lemma FollowsAll(y: System, y': System)
    requires |y'.sessions| == |y.sessions|
    requires forall i | 0 <= i < |y.sessions| :: Follows(y'.tables, y.sessions[i], y'.sessions[i])
    ensures SystemFollows(y, y')
  {
    hide Follows;
  }

  lemma SameFollow(y: System, y': System)
    requires |y.sessions| <= |y'.sessions| && forall i | 0 <= i < |y.sessions| :: y'.sessions[i] == y.sessions[i]
    requires forall i | |y.sessions| <= i < |y'.sessions| :: y'.sessions[i] == NewSession(y'.sessions[i].user)
    ensures SystemFollows(y, y')
  {
    hide Follows;
    forall i | 0 <= i < |y.sessions|
      ensures Follows(y'.tables, y.sessions[i], y'.sessions[i])
    {
      SameNothingNew(y.sessions[i], y.sessions[i], []);
      QuietFollows(y'.tables, y.sessions[i], y.sessions[i]);
    }
  }

  // ----- Stores and sessions -----

  /** The request the reservation of a store is for. */
  function HeldBody(b: B.Buffer): Body
    requires b.reserved.Some?
  {
    BodyOf(b.reserved.value.key, b.reserved.value.content)
  }

  /** What is under way is the submission the store holds back; what the store lists as sent is
      committed as it stands there. */
  ghost predicate SendOk(t: Tables, s: Session, b: B.Buffer) {
    && IsUser(t, s.user)
    && (b.reserved.Some? ==> b.reserved.value.sender == UserName(t, s.user))
    && (forall body | Submitting(s, body) :: b.reserved.Some? && body == HeldBody(b))
    && (forall id | Answering(s, id) :: b.reserved.Some? && RowIs(t, s.user, HeldBody(b), id))
    && OwnOk(t, s.user, b)
  }

  ghost predicate OwnOk(t: Tables, u: int, b: B.Buffer)
    requires IsUser(t, u)
  {
    forall id | id in b.byId && b.byId[id].outgoing ::
      && b.byId[id].sender == UserName(t, u)
      && RowIs(t, u, BodyOf(b.byId[id].key, b.byId[id].content), id)
  }

  /** The same reservation and the same own messages. */
  predicate SameOwn(b: B.Buffer, b': B.Buffer) {
    && b'.reserved == b.reserved
    && forall id | id in b'.byId && b'.byId[id].outgoing :: id in b.byId && b'.byId[id] == b.byId[id]
  }

  lemma SendStays(t: Tables, t': Tables, s: Session, s': Session, b: B.Buffer, b': B.Buffer)
    requires Consistent(t) && Evolution.Evolves(t, t') && SendOk(t, s, b) && Follows(t', s, s') && SameOwn(b, b')
    ensures SendOk(t', s', b')
  {
    UserStays(t, t', s.user);
    hide Consistent, Evolution.Evolves, RowIs, Submitting, Answering, BodyOf;
    forall id | id in b'.byId && b'.byId[id].outgoing
      ensures RowIs(t', s.user, BodyOf(b'.byId[id].key, b'.byId[id].content), id)
    {
      RowStays(t, t', s.user, BodyOf(b.byId[id].key, b.byId[id].content), id);
    }
    forall id | Answering(s', id)
      ensures b'.reserved.Some? && RowIs(t', s.user, HeldBody(b'), id)
    {
      if Answering(s, id) {
        RowStays(t, t', s.user, HeldBody(b), id);
      }
    }
  }

  lemma UserStays(t: Tables, t': Tables, u: int)
    requires IsUser(t, u) && Evolution.Evolves(t, t')
    ensures IsUser(t', u) && UserName(t', u) == UserName(t, u)
  {
  }

  /** Every store of the system and its session agree on what is sent. */
  ghost predicate SentInv(j: Joint) {
    && |j.stores| == |j.system.sessions|
    && forall i | 0 <= i < |j.stores| :: SendOk(j.system.tables, j.system.sessions[i], j.stores[i])
  }

  lemma NothingSentYet(t: Tables, u: int)
    requires IsUser(t, u)
    ensures SendOk(t, NewSession(u), B.NEW_BUFFER)
  {
  }

  lemma SameOwnItself(b: B.Buffer)
    ensures SameOwn(b, b)
  {
  }

  lemma JointInv(j: Joint)
    requires JointOk(j)
    ensures Inv(j.system) && Sane(j.system)
  {
    hide Matches, Reach;
    DeliveryTheorems.ReachInv(j.trace);
  }

  lemma ProtocolSends(j: Joint, e: Event)
    requires JointOk(j) && SentInv(j) && LeavesStores(e)
    ensures SentInv(OnProtocol(j, e))
  {
    hide JointOk, Inv, Consistent, Apply, SendOk, Follows, Evolution.Evolves;
    JointInv(j);
    var y, y' := j.system, Apply(j.system, e);
    EventFollows(y, e);
    StepMoves(y, e);
    StepSane(y, e);
    var j' := OnProtocol(j, e);
    assert j'.system == y' && j'.stores == NewStores(j.stores, |y'.sessions|);
    forall i | 0 <= i < |j'.stores|
      ensures SendOk(y'.tables, y'.sessions[i], j'.stores[i])
    {
      if i < |j.stores| {
        SameOwnItself(j.stores[i]);
        SendStays(y.tables, y'.tables, y.sessions[i], y'.sessions[i], j.stores[i], j.stores[i]);
      } else {
        NothingSentYet(y'.tables, y'.sessions[i].user);
      }
    }
  }

  // ----- Steps of one store -----

  lemma ReceiveOwn(b: B.Buffer, d: Delivery)
    ensures SameOwn(b, B.Receive(b, d).0)
  {
    hide B.ReceiveRefused, B.AddIncoming, Plus64, B.TextBytes, B.KeyBytes, B.SameIncoming, B.Readable;
  }

  lemma OwnTwice(a: B.Buffer, b: B.Buffer, c: B.Buffer)
    requires SameOwn(a, b) && SameOwn(b, c)
    ensures SameOwn(a, c)
  {
  }

  lemma {:induction false} TakenOwn(b: B.Buffer, records: seq<Delivery>)
    ensures SameOwn(b, TakeEach(b, records).0)
    decreases |records|
  {
    hide SameOwn, B.Receive;
    SameOwnItself(b);
    if records != [] {
      var (b', r) := B.Receive(b, records[0]);
      ReceiveOwn(b, records[0]);
      TakenOwn(b', records[1..]);
      OwnTwice(b, b', TakeEach(b', records[1..]).0);
    }
  }

  lemma FrameOwn(b: B.Buffer, c: Client, f: Frame, handed: nat)
    ensures SameOwn(b, TakeFrame(b, c, f, handed).0)
  {
    hide SameOwn, B.Receive, TakeEach, PageFits, WellFormed;
    SameOwnItself(b);
    if f.Message? {
      ReceiveOwn(b, f.delivery);
    } else if f.PendingPage? {
      TakenOwn(b, f.records[..if handed < |f.records| then handed else |f.records|]);
    }
  }

  lemma StoreSends(j: Joint, j': Joint, sid: nat)
    requires SentInv(j) && sid < |j.stores| && |j'.stores| == |j.stores| && |j'.system.sessions| == |j.system.sessions|
    requires j'.system.tables == j.system.tables
    requires forall i | 0 <= i < |j.stores| && i != sid :: j'.stores[i] == j.stores[i] && j'.system.sessions[i] == j.system.sessions[i]
    requires SendOk(j'.system.tables, j'.system.sessions[sid], j'.stores[sid])
    ensures SentInv(j')
  {
    hide SendOk;
  }

  lemma ReadSends(j: Joint, sid: nat, handed: nat, interrupted: bool)
    requires JointOk(j) && SentInv(j) && sid < |j.stores|
    ensures SentInv(OnRead(j, sid, handed, interrupted))
  {
    hide JointOk, Inv, Consistent, Apply, SendOk, Follows, TakeFrame, Received, NothingNew, SameOwn;
    JointInv(j);
    var s := j.system.sessions[sid];
    if s.down != [] && s.client.stopped == None {
      var (b, n) := TakeFrame(j.stores[sid], s.client, s.down[0], handed);
      FrameOwn(j.stores[sid], s.client, s.down[0], handed);
      ReceivedQuiet(s, n, interrupted);
      ReceiveIsUpdate(j.system, sid, n, interrupted);
      QuietFollows(j.system.tables, s, Received(s, n, interrupted));
      Evolution.EvolvesReflexive(j.system.tables);
      hide Evolution.Evolves;
      SendStays(j.system.tables, j.system.tables, s, Received(s, n, interrupted), j.stores[sid], b);
      StoreSends(j, OnRead(j, sid, handed, interrupted), sid);
    }
  }

  lemma ReceiveIsUpdate(y: System, sid: nat, n: nat, interrupted: bool)
    requires Sane(y) && Running(y, sid)
    ensures Apply(y, Receive(sid, n, interrupted)) == Update(y, sid, Received(y.sessions[sid], n, interrupted))
    ensures Received(y.sessions[sid], n, interrupted).user == y.sessions[sid].user
  {
    hide Consistent, Dispatch;
  }

  /** With an answer waiting to be taken, nothing else of a submission is under way. */
  lemma OnlyOneAnswer(y: System, sid: nat)
    requires Inv(y) && Running(y, sid) && y.sessions[sid].client.response.Some?
    ensures var s := y.sessions[sid];
      && (forall body :: !Submitting(s, body))
      && (forall id :: s.reply != Some(Frame.Accepted(id)) && Frame.Accepted(id) !in s.down)
      && (s.client.response.value.Accepted? || s.client.response.value.NotAccepted?)
  {
    ClientSteps.SessionOf(y, sid);
    hide Inv, AuthInv, IndexInv, FramesInv, GoalInv, JobInv, Count;
    var s := y.sessions[sid];
    ClientReceive.NoneOfKind(s.up, Foreground);
    ClientReceive.NoneOfKind(s.down, Foreground);
  }

  /** A commit lists the message that was held back, under its id. */
  lemma CommitOwn(b: B.Buffer, id: int)
    requires BufferInvariant.Valid(b) && b.reserved.Some? && b.reserved.value.key in b.conversations
    requires B.Commit(b, id).1 == B.InsertResult.Stored
    ensures var b' := B.Commit(b, id).0;
      && b'.reserved == None
      && b'.byId == b.byId[id := b.reserved.value.(id := id, arrival := b.nextArrival)]
  {
    hide B.AddOutgoing, Plus64, BufferInvariant.Valid;
  }

  /** Nothing is under way any more, and one more message is listed as sent. */
  lemma CommittedOk(t: Tables, s: Session, s': Session, b: B.Buffer, id: int)
    requires BufferInvariant.Valid(b) && SendOk(t, s, b) && Answering(s, id) && s'.user == s.user
    requires b.reserved.Some? && b.reserved.value.key in b.conversations && B.Commit(b, id).1 == B.InsertResult.Stored
    requires (forall body :: !Submitting(s', body)) && (forall x :: !Answering(s', x))
    ensures SendOk(t, s', B.Commit(b, id).0)
  {
    hide BufferInvariant.Valid, B.Commit, RowIs, Submitting, Answering;
    CommitOwn(b, id);
  }

  lemma CancelledOk(t: Tables, s: Session, s': Session, b: B.Buffer)
    requires SendOk(t, s, b) && s'.user == s.user
    requires (forall body :: !Submitting(s', body)) && (forall x :: !Answering(s', x))
    ensures SendOk(t, s', B.Cancel(b))
  {
    hide RowIs, Submitting, Answering, B.Cancel;
    UiDiscipline.CancelledNothing(b);
    BufferContents.CancelIndex(b);
  }

  lemma ConsumeIsUpdate(y: System, sid: nat)
    requires Sane(y) && Running(y, sid)
    ensures Apply(y, ConsumeResponse(sid)) == Update(y, sid, Consumed(y.sessions[sid]))
    ensures Apply(y, Quit(sid)) == Update(y, sid, HasQuit(y.sessions[sid]))
  {
    hide Consistent, Consume;
  }

  /** Taking the answer leaves nothing under way, or stops the client with all as it was. */
  lemma ConsumedIs(s: Session)
    requires Live(s) && s.client.response.Some?
    ensures var s', r := Consumed(s), s.client.response.value;
      && s'.user == s.user && s'.up == s.up && s'.down == s.down && s'.reply == s.reply
      && (s'.client.response == None || s'.client.response == s.client.response)
      && (r.Accepted? ==> (s'.client.response == None <==> 0 < r.id && r.id !in s.client.index))
      && (!r.Accepted? ==> s'.client.response == None)
  {
  }

  lemma SameUnderway(t: Tables, s: Session, s': Session, b: B.Buffer)
    requires SendOk(t, s, b) && s'.user == s.user && s'.up == s.up && s'.down == s.down && s'.reply == s.reply
    requires s'.client.response == s.client.response
    ensures SendOk(t, s', b)
  {
    hide RowIs, OwnOk;
    assert forall body :: Submitting(s', body) <==> Submitting(s, body);
    assert forall id :: Answering(s', id) <==> Answering(s, id);
  }

  lemma NothingLeft(s: Session, s': Session)
    requires (forall body :: !Submitting(s, body)) && forall id :: s.reply != Some(Frame.Accepted(id)) && Frame.Accepted(id) !in s.down
    requires s'.up == s.up && s'.down == s.down && s'.reply == s.reply && s'.client.response == None
    ensures (forall body :: !Submitting(s', body)) && (forall id :: !Answering(s', id))
  {
    assert forall body :: Submitting(s', body) <==> Submitting(s, body);
    forall id
      ensures !Answering(s', id)
    {
      assert s.reply != Some(Frame.Accepted(id)) && Frame.Accepted(id) !in s.down;
    }
  }

  lemma AnswerSends(j: Joint, sid: nat)
    requires JointOk(j) && SentInv(j) && sid < |j.stores|
    ensures SentInv(OnAnswer(j, sid))
  {
    hide JointOk, Inv, Consistent, Apply, SendOk, TakeAnswer, Consumed, HasQuit, SameOwn, Matches;
    JointInv(j);
    var s, b := j.system.sessions[sid], j.stores[sid];
    if Live(s) && s.client.response.Some? {
      MatchesOf(j, sid);
      ReservedIsOpen(b, s.client);
      var (b', e) := TakeAnswer(b, s.client, sid);
      TakenAnswerOk(j.system, sid, b);
      ConsumeIsUpdate(j.system, sid);
      AnswerEvents(b, s.client, sid);
      StoreSends(j, OnAnswer(j, sid), sid);
    }
  }

  lemma MatchesOf(j: Joint, sid: nat)
    requires JointOk(j) && sid < |j.stores|
    ensures Matches(j.stores[sid], j.system.sessions[sid].client)
  {
    hide Matches, Reach;
  }

  lemma AnswerEvents(b: B.Buffer, c: Client, sid: nat)
    requires b.reserved.Some? ==> b.reserved.value.key in b.conversations
    ensures var e := TakeAnswer(b, c, sid).1; e == ConsumeResponse(sid) || e == Quit(sid)
  {
    hide B.Commit, B.Cancel;
  }

  lemma TakenAnswerOk(y: System, sid: nat, b: B.Buffer)
    requires Inv(y) && Running(y, sid) && Matches(b, y.sessions[sid].client) && SendOk(y.tables, y.sessions[sid], b)
    requires Live(y.sessions[sid]) && y.sessions[sid].client.response.Some?
    requires b.reserved.Some? ==> b.reserved.value.key in b.conversations
    ensures var s := y.sessions[sid];
      var (b', e) := TakeAnswer(b, s.client, sid);
      SendOk(y.tables, if e == ConsumeResponse(sid) then Consumed(s) else HasQuit(s), b')
  {
    hide Inv, SendOk, Consumed, HasQuit, Matches, B.Commit, B.Cancel;
    var s := y.sessions[sid];
    OnlyOneAnswer(y, sid);
    ConsumedIs(s);
    MatchedStore(b, s.client);
    QuitKeepsFrames(s);
    match s.client.response.value
    case Accepted(id) =>
      if B.Commit(b, id).1 == B.InsertResult.Stored {
        CommitMatches(b, s.client, id);
        CommittedHeld(b, id);
        NothingLeft(s, Consumed(s));
        assert Answering(s, id);
        CommittedOk(y.tables, s, Consumed(s), b, id);
      } else {
        assert B.Commit(b, id).0 == b by { BufferInvariant.CommitOtherwise(b, id); }
        SameUnderway(y.tables, s, HasQuit(s), b);
        if id <= 0 || id in s.client.index {
          SameUnderway(y.tables, s, Consumed(s), b);
        }
      }
    case NotAccepted =>
      NothingLeft(s, Consumed(s));
      CancelledOk(y.tables, s, Consumed(s), b);
  }

  lemma MatchedStore(b: B.Buffer, c: Client)
    requires Matches(b, c)
    ensures BufferInvariant.Valid(b)
  {
  }

  lemma CommittedHeld(b: B.Buffer, id: int)
    requires b.reserved.Some? ==> b.reserved.value.key in b.conversations
    requires B.Commit(b, id).1 == B.InsertResult.Stored
    ensures b.reserved.Some?
  {
  }

  lemma QuitKeepsFrames(s: Session)
    ensures var s' := HasQuit(s);
      && s'.user == s.user && s'.up == s.up && s'.down == s.down && s'.reply == s.reply
      && s'.client.response == s.client.response
  {
  }

  lemma SendSends(j: Joint, sid: nat, key: B.Key, content: Bytes)
    requires JointOk(j) && SentInv(j) && sid < |j.stores|
    ensures SentInv(OnSend(j, sid, key, content))
  {
    hide JointOk, Inv, Consistent, Apply, SendOk, B.Reserve, Submitted, Matches, BodyOf;
    JointInv(j);
    var s, b := j.system.sessions[sid], j.stores[sid];
    if CanSend(b, s, key) {
      SenderIsUser(j, sid);
      var name := UserName(j.system.tables, s.user);
      if B.Reserve(b, key, name, content).1 == B.InsertResult.Stored {
        SubmitApplied(j.system, sid, BodyOf(key, content));
        HeldOk(j.system.tables, s, b, key, content);
        StoreSends(j, OnSend(j, sid, key, content), sid);
      }
    }
  }

  /** Holding a text back and sending its request. */
  lemma HeldOk(t: Tables, s: Session, b: B.Buffer, key: B.Key, content: Bytes)
    requires SendOk(t, s, b) && b.reserved == None && IsUser(t, s.user)
    requires B.Reserve(b, key, UserName(t, s.user), content).1 == B.InsertResult.Stored
    ensures SendOk(t, Submitted(s, BodyOf(key, content)), B.Reserve(b, key, UserName(t, s.user), content).0)
  {
    hide RowIs, B.Reserve, BodyOf;
    var name := UserName(t, s.user);
    BufferContents.ReserveHolds(b, key, name, content);
    BufferContents.ReserveIndex(b, key, name, content);
    SubmittedIs(s, BodyOf(key, content));
  }

  lemma SubmittedIs(s: Session, body: Body)
    ensures var s' := Submitted(s, body);
      && s'.user == s.user
      && (forall x | Submitting(s', x) :: Submitting(s, x) || x == body)
      && (forall id :: Answering(s', id) <==> Answering(s, id))
  {
  }

  lemma OpenSends(j: Joint, sid: nat, key: B.Key)
    requires JointOk(j) && SentInv(j) && sid < |j.stores|
    ensures SentInv(OnOpen(j, sid, key))
  {
    hide JointOk, SendOk, B.Ensure;
    EnsureStoresNothing(j.stores[sid], key);
    SameStoreOk(j.system.tables, j.system.sessions[sid], j.stores[sid], B.Ensure(j.stores[sid], key).0);
    StoreSends(j, OnOpen(j, sid, key), sid);
  }

  lemma ViewSends(j: Joint, sid: nat, key: B.Key, through: nat)
    requires JointOk(j) && SentInv(j) && sid < |j.stores|
    ensures SentInv(OnView(j, sid, key, through))
  {
    hide JointOk, SendOk, B.MarkViewed;
    ViewStoresNothing(j.stores[sid], key, through);
    SameStoreOk(j.system.tables, j.system.sessions[sid], j.stores[sid], B.MarkViewed(j.stores[sid], key, through).0);
    StoreSends(j, OnView(j, sid, key, through), sid);
  }

  lemma SameStoreOk(t: Tables, s: Session, b: B.Buffer, b': B.Buffer)
    requires SendOk(t, s, b) && SameStored(b, b')
    ensures SendOk(t, s, b')
  {
    hide RowIs, Submitting, Answering;
  }

  // ----- Every run -----

  lemma AdvanceSends(j: Joint, a: Act)
    requires JointOk(j) && SentInv(j)
    ensures SentInv(Advance(j, a))
  {
    hide JointOk, SentInv, OnProtocol, OnRead, OnAnswer, OnSend, OnOpen, OnView;
    match a
    case ProtocolEvent(e) => if LeavesStores(e) { ProtocolSends(j, e); }
    case Read(sid, handed, interrupted) => if sid < |j.stores| { ReadSends(j, sid, handed, interrupted); }
    case Answer(sid) => if sid < |j.stores| { AnswerSends(j, sid); }
    case Send(sid, key, content) => if sid < |j.stores| { SendSends(j, sid, key, content); }
    case OpenConversation(sid, key) => if sid < |j.stores| { OpenSends(j, sid, key); }
    case View(sid, key, through) => if sid < |j.stores| { ViewSends(j, sid, key, through); }
  }

  lemma {:induction false} ActsSend(j: Joint, acts: seq<Act>)
    requires JointOk(j) && SentInv(j)
    ensures SentInv(AfterActs(j, acts))
    decreases |acts|
  {
    hide JointOk, SentInv, Advance;
    if acts != [] {
      AdvanceSends(j, acts[0]);
      ActsSend(Advance(j, acts[0]), acts[1..]);
    }
  }

  /** Row `id` is a message of `u` with this content, and it is for the user, the group or
      everybody whose conversation this is. */
  ghost predicate CommittedIn(t: Tables, u: int, key: B.Key, content: Bytes, id: int) {
    exists m :: m in t.history && m.id == id && m.senderId == u && m.content == content && Addresses(t, key, m)
  }

  ghost predicate Addresses(t: Tables, key: B.Key, m: Stored) {
    match key
    case PrivateChat(name) =>
      && m.kind == Private && m.groupId == None
      && (exists v :: (m.id, v) in t.recipients)
      && forall v :: (m.id, v) in t.recipients ==> IsUser(t, v) && t.users[v - 1] == name
    case GroupChat(group) => m.kind == Group && m.groupId == Some(group)
    case BroadcastChat => m.kind == Broadcast && m.groupId == None
  }

  lemma RowIsAddressed(t: Tables, u: int, key: B.Key, content: Bytes, id: int)
    requires RowIs(t, u, BodyOf(key, content), id)
    ensures CommittedIn(t, u, key, content, id)
  {
    var m :| m in t.history && m.id == id && RowOf(t, u, BodyOf(key, content), m);
    assert Addresses(t, key, m);
  }

  /** In every run of server, connections and stores, an own message a user sees listed under an
      id is the row the server committed under that id: from him, with this text, and for the
      user, the group or everybody whose conversation it stands in. */
  lemma OwnMessagesAreCommitted(acts: seq<Act>, sid: nat, id: int)
    requires var j := AfterActs(Start(), acts);
      sid < |j.stores| && id in j.stores[sid].byId && j.stores[sid].byId[id].outgoing
    ensures var j := AfterActs(Start(), acts);
      var m := j.stores[sid].byId[id];
      && |j.system.sessions| == |j.stores| && IsUser(j.system.tables, j.system.sessions[sid].user)
      && m.sender == UserName(j.system.tables, j.system.sessions[sid].user)
      && CommittedIn(j.system.tables, j.system.sessions[sid].user, m.key, m.content, id)
  {
    hide AfterActs, JointOk, RowIs, CommittedIn, BodyOf;
    ActsSend(Start(), acts);
    var j := AfterActs(Start(), acts);
    var m := j.stores[sid].byId[id];
    RowIsAddressed(j.system.tables, j.system.sessions[sid].user, m.key, m.content, id);
  }
}
