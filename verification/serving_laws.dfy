/** What the server's handler makes of each request, and what becomes of its answer and its
    live copies: the step of the state machine, answer by answer. */
module ServingLaws {
  import opened Prelude
  import opened Tables
  import T = Tables
  import opened ClientSync
  import opened DeliverySystem
  import opened DeliveryInvariant
  import opened DeliveryRuns
  import Evolution
  import DeliveryTheorems
  import HandlerSteps
  import HistoryPaging
  import SessionAdmission
  import PageWriter

  /** The handler of session `sid` is free, and this request is the next on its channel. */
  predicate NextRequest(y: System, sid: nat, f: Frame) {
    && Running(y, sid)
    && var s := y.sessions[sid];
    && s.phase == Serving && s.reply == None && s.job == None && s.up != [] && s.up[0] == f
  }

  // ----- Submissions -----

  function KindOf(body: Body): Kind {
    match body case ToUser(_, _) => Private case ToGroup(_, _) => Group case ToAll(_) => Broadcast
  }

  function GroupOf(body: Body): Option<int> {
    if body.ToGroup? then Some(body.group) else None
  }

  /** Whom a body is for: the named receiver, the other members of the group, or everybody
      else. */
  predicate MeantFor(t: Tables, u: int, body: Body, v: int) {
    && IsUser(t, v) && v != u
    && match body
       case ToUser(receiver, _) => t.users[v - 1] == receiver
       case ToGroup(group, _) => (group, v) in t.members
       case ToAll(_) => true
  }

  /** When a body may be sent by `u` at all. */
  predicate MaySend(t: Tables, u: int, body: Body)
    requires IsUser(t, u)
  {
    && WireText(t.users[u - 1]) && WireText(body.content)
    && match body
       case ToUser(receiver, _) => receiver in t.users && receiver != t.users[u - 1]
       case ToGroup(group, _) => 0 < group <= |t.groups| && (group, u) in t.members
       case ToAll(_) => true
  }

  /** `t'` is `t` with one more message of `u`, unacknowledged by everyone it is meant for. */
  ghost predicate Sent(t: Tables, t': Tables, u: int, body: Body, now: int)
    requires IsUser(t, u)
  {
    var id := NextId(t.history);
    && t'.history == t.history + [T.Stored(id, KindOf(body), u, GroupOf(body), body.content, now)]
    && (forall v :: (id, v) in t'.recipients <==> MeantFor(t, u, body, v))
    && (forall v | MeantFor(t, u, body, v) :: t'.recipients[(id, v)] == None)
    && (forall k: (int, int) | k.0 != id :: k in t'.recipients <==> k in t.recipients)
    && (forall k | k in t.recipients :: k in t'.recipients && t'.recipients[k] == t.recipients[k])
    && t'.users == t.users && t'.groups == t.groups && t'.members == t.members && t'.legacy == t.legacy
  }

  /** The routes visit everyone the message is meant for, each once. */
  ghost predicate RoutesTo(t: Tables, u: int, body: Body, routes: seq<int>) {
    && (forall v :: v in routes <==> MeantFor(t, u, body, v))
    && (forall i, j | 0 <= i < j < |routes| :: routes[i] != routes[j])
  }

  /** What accepting a body comes to, for every kind of body. */
  ghost predicate SubmissionOutcome(t: Tables, t': Tables, r: Acceptance, u: int, body: Body, now: int)
    requires IsUser(t, u)
  {
    && (r.Accepted? <==> MaySend(t, u, body) && NextId(t.history) <= MAX_INT64)
    && (r.Accepted? ==>
          && Sent(t, t', u, body, now) && RoutesTo(t, u, body, r.recipients)
          && r.delivery == Delivery(t'.history[|t.history|], t.users[u - 1]))
    && (!r.Accepted? ==> t' == t)
  }

  lemma CommittedIsSent(t: Tables, t': Tables, r: Acceptance, u: int, body: Body, recipients: seq<int>, now: int)
    requires IsUser(t, u) && 0 <= now
    requires Evolution.CommittedAs(t, t', r, KindOf(body), u, GroupOf(body), body.content, recipients, now)
    requires forall v :: v in recipients <==> MeantFor(t, u, body, v)
    ensures Sent(t, t', u, body, now) && r.recipients == recipients
    ensures r.delivery == Delivery(t'.history[|t.history|], t.users[u - 1])
  {
    hide MeantFor;
  }

  lemma PrivateOutcome(t: Tables, u: int, receiver: Bytes, content: Bytes, now: Clock)
    requires Consistent(t) && IsUser(t, u)
    ensures var (t', r) := AcceptPrivate(t, t.users[u - 1], receiver, content, now);
      SubmissionOutcome(t, t', r, u, ToUser(receiver, content), now)
  {
    hide WireText, AcceptPrivate, FindUser, Evolution.Evolves, Evolution.CommittedAs, Consistent, Sent;
    var name := t.users[u - 1];
    Evolution.PrivateLaw(t, name, receiver, content, now);
    NamesAreUnique(t);
    var (t', r) := AcceptPrivate(t, name, receiver, content, now);
    if r.Accepted? {
      var f, v :| IsUser(t, f) && t.users[f - 1] == name && IsUser(t, v) && t.users[v - 1] == receiver
        && Evolution.CommittedAs(t, t', r, Private, f, None, content, [v], now);
      assert f == u;
      CommittedIsSent(t, t', r, u, ToUser(receiver, content), [v], now);
    }
  }

  lemma NamesAreUnique(t: Tables)
    requires Consistent(t)
    ensures [] !in t.users
    ensures forall i, j | IsUser(t, i) && IsUser(t, j) && t.users[i - 1] == t.users[j - 1] :: i == j
  {
  }

  lemma GroupOutcome(t: Tables, u: int, group: int, content: Bytes, now: Clock)
    requires Consistent(t) && IsUser(t, u)
    ensures var (t', r) := AcceptGroup(t, t.users[u - 1], group, content, now);
      SubmissionOutcome(t, t', r, u, ToGroup(group, content), now)
  {
    hide WireText, AcceptGroup, FindUser, Evolution.Evolves, Evolution.CommittedAs, Consistent, Sent;
    var name := t.users[u - 1];
    Evolution.GroupLaw(t, name, group, content, now);
    NamesAreUnique(t);
    MembersAreUsers(t);
    var (t', r) := AcceptGroup(t, name, group, content, now);
    if r.Accepted? {
      var f :| IsUser(t, f) && t.users[f - 1] == name
        && Evolution.CommittedAs(t, t', r, Group, f, Some(group), content, r.recipients, now)
        && (forall v :: v in r.recipients <==> (group, v) in t.members && v != f);
      assert f == u;
      GroupRoutesAscend(t, u, group, content, now);
      CommittedIsSent(t, t', r, u, ToGroup(group, content), r.recipients, now);
    }
  }

  lemma MembersAreUsers(t: Tables)
    requires Consistent(t)
    ensures forall m | m in t.members :: IsUser(t, m.1)
  {
  }

  lemma GroupRoutesAscend(t: Tables, u: int, group: int, content: Bytes, now: Clock)
    requires Consistent(t) && IsUser(t, u)
    ensures var r := AcceptGroup(t, t.users[u - 1], group, content, now).1;
      r.Accepted? ==> forall i, j | 0 <= i < j < |r.recipients| :: r.recipients[i] != r.recipients[j]
  {
    hide Consistent, WireText;
  }

  lemma BroadcastOutcome(t: Tables, u: int, content: Bytes, now: Clock)
    requires Consistent(t) && IsUser(t, u)
    ensures var (t', r) := AcceptBroadcast(t, t.users[u - 1], content, now);
      SubmissionOutcome(t, t', r, u, ToAll(content), now)
  {
    hide WireText, AcceptBroadcast, FindUser, Evolution.Evolves, Evolution.CommittedAs, Consistent, Sent;
    var name := t.users[u - 1];
    Evolution.BroadcastLaw(t, name, content, now);
    NamesAreUnique(t);
    var (t', r) := AcceptBroadcast(t, name, content, now);
    if r.Accepted? {
      var f :| IsUser(t, f) && t.users[f - 1] == name
        && Evolution.CommittedAs(t, t', r, Broadcast, f, None, content, r.recipients, now)
        && (forall v :: v in r.recipients <==> IsUser(t, v) && v != f);
      assert f == u;
      BroadcastRoutesAscend(t, u, content, now);
      CommittedIsSent(t, t', r, u, ToAll(content), r.recipients, now);
    }
  }

  lemma BroadcastRoutesAscend(t: Tables, u: int, content: Bytes, now: Clock)
    requires Consistent(t) && IsUser(t, u)
    ensures var r := AcceptBroadcast(t, t.users[u - 1], content, now).1;
      r.Accepted? ==> forall i, j | 0 <= i < j < |r.recipients| :: r.recipients[i] != r.recipients[j]
  {
    hide Consistent, WireText, UserIds;
  }

  /** A submission is answered with the id of the message it became exactly when its sender
      may send it and an id is left; the message has the kind, group and content that were
      submitted, is unacknowledged by exactly those it is meant for, and is routed to each of
      them once. A refused submission changes nothing. */
  lemma SubmissionIsCommitted(y: System, sid: nat, body: Body, now: Clock)
    requires Sane(y) && NextRequest(y, sid, Submit(body))
    ensures var y', u := HandleStep(y, sid, now), y.sessions[sid].user;
      var s, s' := y.sessions[sid], y'.sessions[sid];
      var id := NextId(y.tables.history);
      var accepted := MaySend(y.tables, u, body) && id <= MAX_INT64;
      && s'.reply == Some(if accepted then Frame.Accepted(id) else NotAccepted)
      && s' == s.(up := s.up[1..], reply := s'.reply, job := s'.job)
      && y' == y.(tables := y'.tables, sessions := y.sessions[sid := s'])
      && (if accepted then
            && Sent(y.tables, y'.tables, u, body, now)
            && s'.job.Some? && RoutesTo(y.tables, u, body, s'.job.value.routes)
            && s'.job.value.delivery == Delivery(y'.tables.history[|y.tables.history|], y.tables.users[u - 1])
          else y'.tables == y.tables && s'.job == None)
  {
    hide Consistent, HandleStep, AcceptBody, Sent, RoutesTo, MaySend;
    var t, u := y.tables, y.sessions[sid].user;
    AcceptanceIsTheAnswer(y, sid, body, now);
    BodyOutcome(t, u, body, now);
    var (t', r) := AcceptBody(t, UserName(t, u), body, now);
    if r.Accepted? {
      SentId(t, t', u, body, now);
    }
  }

  /** The answer and the job are those of the transaction. */
  lemma AcceptanceIsTheAnswer(y: System, sid: nat, body: Body, now: Clock)
    requires Sane(y) && NextRequest(y, sid, Submit(body))
    ensures var y', s := HandleStep(y, sid, now), y.sessions[sid];
      var (t', r) := AcceptBody(y.tables, UserName(y.tables, s.user), body, now);
      && |y'.sessions| == |y.sessions|
      && var s' := y'.sessions[sid];
      && s'.reply == Some(if r.Accepted? then Frame.Accepted(r.delivery.message.id) else NotAccepted)
      && s'.job == (if r.Accepted? then Some(Job(r.delivery, r.recipients)) else None)
      && s' == s.(up := s.up[1..], reply := s'.reply, job := s'.job)
      && y' == y.(tables := t', sessions := y.sessions[sid := s'])
  {
    hide Consistent, AcceptBody, HandleAck, HandleSync;
  }

  lemma BodyOutcome(t: Tables, u: int, body: Body, now: Clock)
    requires Consistent(t) && IsUser(t, u)
    ensures var (t', r) := AcceptBody(t, UserName(t, u), body, now); SubmissionOutcome(t, t', r, u, body, now)
  {
    hide Consistent, AcceptPrivate, AcceptGroup, AcceptBroadcast, SubmissionOutcome;
    match body
    case ToUser(receiver, content) => PrivateOutcome(t, u, receiver, content, now);
    case ToGroup(group, content) => GroupOutcome(t, u, group, content, now);
    case ToAll(content) => BroadcastOutcome(t, u, content, now);
  }

  lemma SentId(t: Tables, t': Tables, u: int, body: Body, now: int)
    requires IsUser(t, u) && Sent(t, t', u, body, now)
    ensures |t'.history| == |t.history| + 1 && t'.history[|t.history|].id == NextId(t.history)
  {
  }

  // ----- Synchronization requests -----

  /** In every reachable state a synchronization request is answered with a page that shows
      the pending messages from its cursor, unless those are all that is left and fill the
      response to the byte: then, and only then, it is refused. Nothing else changes but the
      goal a first page sets. */
  lemma SynchronizationIsAnswered(events: seq<Event>, sid: nat, after: int, upTo: Option<int>, now: Clock)
    requires NextRequest(Reach(events), sid, SyncRequest(after, upTo))
    ensures var y := Reach(events);
      var y' := HandleStep(y, sid, now);
      var s, s' := y.sessions[sid], y'.sessions[sid];
      var page := SessionAdmission.Queried(y, sid);
      && page.Ready?
      && (s'.reply == Some(PendingRefused) <==>
            && page.rows != [] && !page.hasMore
            && PageWriter.ResponseLength(PageWriter.SyncPending, page.rows, page.through,
                                         PageWriter.Cursor(page.rows, after), true) == PageWriter.MAX_RESPONSE)
      && (s'.reply != Some(PendingRefused) ==>
            && s'.reply.Some? && s'.reply.value.PendingPage?
            && var p := s'.reply.value;
               PageWriter.Served(y.tables, PageWriter.SyncPending, s.user, after, upTo,
                                 PageWriter.PageResponse(p.records, p.through, p.next, p.hasMore)))
      && s' == s.(up := s.up[1..], reply := s'.reply, goal := s'.goal)
      && y' == y.(sessions := y.sessions[sid := s'])
  {
    hide Reach, Sane, Consistent, HandleStep, SessionAdmission.Queried, PageWriter.Served, PageWriter.ResponseLength, PageWriter.Respond;
    var y := Reach(events);
    SessionAdmission.RefusedOnlyForSize(events, sid, now);
    SessionAdmission.AnswerIsTheResponse(y, sid, now);
    AnswerIsServed(y, sid, after, upTo);
  }

  lemma AnswerIsServed(y: System, sid: nat, after: int, upTo: Option<int>)
    requires Sane(y) && NextRequest(y, sid, SyncRequest(after, upTo))
    ensures var f := PageFrame(PageWriter.Respond(PageWriter.SyncPending, after, SessionAdmission.Queried(y, sid)));
      f != PendingRefused ==>
        f.PendingPage? && PageWriter.Served(y.tables, PageWriter.SyncPending, y.sessions[sid].user, after, upTo,
                                            PageWriter.PageResponse(f.records, f.through, f.next, f.hasMore))
  {
    hide Consistent, FetchPage, PageWriter.Respond, PageWriter.Served, FindUser;
    var u := y.sessions[sid].user;
    var r := PageWriter.Respond(PageWriter.SyncPending, after, SessionAdmission.Queried(y, sid));
    if r.PageResponse? {
      Evolution.FindUserId(y.tables, UserName(y.tables, u), u);
      PageWriter.PageMeaning(y.tables, PageWriter.SyncPending, UserName(y.tables, u), u, after, upTo, SYNC_LIMIT, r);
    }
  }

  // ----- Acknowledgements -----

  /** What recording an acknowledgement of `sid` for its row `k` comes to. */
  ghost predicate AckOutcomes(y: System, y': System, sid: nat, id: int, now: Clock)
    requires Running(y, sid) && Running(y', sid) && y.sessions[sid].up != []
  {
    var s, s', k := y.sessions[sid], y'.sessions[sid], (id, y.sessions[sid].user);
    && k in y.tables.recipients
    && (if y.tables.recipients[k] == None then
          && y'.tables == y.tables.(recipients := y.tables.recipients[k := Some(now)])
          && y'.ackedBy == y.ackedBy[k := sid] && s'.reply == Some(AckOutcome(id, Acknowledged))
        else
          && y'.tables == y.tables && y'.ackedBy == y.ackedBy && s'.reply == Some(AckOutcome(id, AlreadyAcknowledged)))
    && s' == s.(up := s.up[1..], reply := s'.reply)
    && y' == y.(tables := y'.tables, ackedBy := y'.ackedBy, sessions := y.sessions[sid := s'])
  }

  lemma AckIsRecorded(y: System, sid: nat, id: int, now: Clock)
    requires Inv(y) && Sane(y) && NextRequest(y, sid, DeliveryAck(id))
    ensures Running(HandleStep(y, sid, now), sid) && AckOutcomes(y, HandleStep(y, sid, now), sid, id, now)
  {
    hide Inv, Consistent, Evolution.Evolves, Acknowledge, FindUser;
    var u := y.sessions[sid].user;
    HandlerSteps.AckRequest(y, sid);
    Evolution.PositiveRecipients(y.tables);
    Evolution.AcknowledgeLaw(y.tables, UserName(y.tables, u), u, id, now);
  }

  /** In every reachable state an acknowledgement is recorded the first time and only then,
      for that row alone, and its answer says which. */
  lemma AcknowledgementIsRecorded(events: seq<Event>, sid: nat, id: int, now: Clock)
    requires NextRequest(Reach(events), sid, DeliveryAck(id))
    ensures var y := Reach(events);
      var y' := HandleStep(y, sid, now);
      Running(y', sid) && AckOutcomes(y, y', sid, id, now)
  {
    hide Reach, Sane, Inv, HandleStep, AckOutcomes;
    DeliveryTheorems.ReachInv(events);
    AckIsRecorded(Reach(events), sid, id, now);
  }

  // ----- Answers and live copies -----

  /** The handler's answer is the next frame its client reads, or the broken connection stops
      the session; either way the handler is free for what follows. */
  lemma AnswerIsWritten(s: Session)
    requires s.reply.Some?
    ensures var s' := Replied(s);
      && s'.reply == None
      && (if s.cut then s'.down == s.down && s'.stopping else s'.down == s.down + [s.reply.value] && s'.stopping == s.stopping)
      && s' == s.(reply := None, down := s'.down, stopping := s'.stopping)
  {
  }

  /** A live copy for `u` can be written: he has a session that is ready, is not stopping and
      whose connection is up. */
  predicate Reachable(y: System, u: int) {
    && u in y.registry && Running(y, y.registry[u])
    && var r := y.sessions[y.registry[u]]; r.ready && !r.stopping && !r.cut
  }

  /** The live copy is on the channel of exactly the reachable session of its recipient. A
      session found stopping, or whose write fails, loses its place in the registry, and no
      other session changes. */
  lemma LiveCopyIsWritten(y: System, u: int, d: Delivery)
    ensures var y' := Deliver(y, u, d);
      && |y'.sessions| == |y.sessions| && y' == y.(sessions := y'.sessions, registry := y'.registry)
      && (forall i | 0 <= i < |y.sessions| && (u !in y.registry || y.registry[u] != i) :: y'.sessions[i] == y.sessions[i])
      && (if Reachable(y, u) then
            var r, r' := y.sessions[y.registry[u]], y'.sessions[y.registry[u]];
            r' == r.(down := r.down + [Message(d)]) && y'.registry == y.registry
          else if u in y.registry && Running(y, y.registry[u]) then
            var r, r' := y.sessions[y.registry[u]], y'.sessions[y.registry[u]];
            && r' == r.(stopping := r.stopping || r.ready)
            && y'.registry == (if r.ready then y.registry - {u} else y.registry)
          else y' == y)
  {
    if u in y.registry && Running(y, y.registry[u]) {
      var r := y.sessions[y.registry[u]];
      if !r.ready || r.stopping {
        assert y.sessions[y.registry[u] := r] == y.sessions;
      }
    }
  }

  // ----- The end of a session -----

  /** A handler that ends, at the end of its requests or because its login could not be
      finished, leaves its account free for the next login, unless another session has it. */
  lemma EndingFreesTheAccount(y: System, sid: nat)
    requires Running(y, sid)
    ensures var s := y.sessions[sid];
      var freed := (if s.user in y.registry && y.registry[s.user] == sid then y.registry - {s.user} else y.registry);
      && (s.phase == Serving && s.reply == None && s.job == None ==>
            CleanupStep(y, sid) == Update(y, sid, s.(phase := Gone, stopping := true)).(registry := freed))
      && (s.phase == Reserved && s.cut ==>
            GreetStep(y, sid) == Update(y, sid, s.(phase := Gone, stopping := true)).(registry := freed))
      && (s.phase == Greeted && (s.stopping || s.user !in y.registry || y.registry[s.user] != sid) ==>
            PublishStep(y, sid) == Update(y, sid, s.(phase := Gone, stopping := true)).(registry := freed))
  {
  }

  // ----- Transactions outside the sessions -----

  /** A registration adds the name, if it may be added, and nothing else. */
  lemma RegistrationIsMade(y: System, name: Bytes)
    requires Sane(y)
    ensures var y', t := Apply(y, Register(name)), y.tables;
      && y' == y.(tables := y'.tables)
      && y'.tables == t.(users := if name != [] && name !in t.users && |t.users| < MAX_INT64 then t.users + [name] else t.users)
  {
    hide Consistent;
  }

  /** A new group has its creator as its only member; a bad or taken name, or a stranger,
      creates nothing. */
  lemma GroupIsMade(y: System, u: int, name: Bytes)
    requires Sane(y) && IsUser(y.tables, u)
    ensures var y', t := Apply(y, CreateGroup(y.tables.users[u - 1], name)), y.tables;
      && y' == y.(tables := y'.tables)
      && y'.tables == if GroupName(name) && name !in t.groups && |t.groups| < MAX_INT64
           then t.(groups := t.groups + [name], members := t.members + {(|t.groups| + 1, u)}) else t
  {
    Evolution.FindUserId(y.tables, y.tables.users[u - 1], u);
    NamesAreUnique(y.tables);
    assert y.tables.users[u - 1] in y.tables.users;
    hide Consistent, GroupName, FindUser;
  }

  /** A user joins an existing group once. */
  lemma MemberIsMade(y: System, u: int, group: int)
    requires Sane(y) && IsUser(y.tables, u)
    ensures var y', t := Apply(y, JoinGroup(y.tables.users[u - 1], group)), y.tables;
      && y' == y.(tables := y'.tables)
      && y'.tables == if 0 < group <= |t.groups| then t.(members := t.members + {(group, u)}) else t
  {
    Evolution.FindUserId(y.tables, y.tables.users[u - 1], u);
    NamesAreUnique(y.tables);
    assert y.tables.users[u - 1] in y.tables.users;
    hide Consistent, FindUser;
  }

  /** The change that submitting a body makes, as histories of the tables alone know it. */
  function ChangeFor(sender: Bytes, body: Body, now: Clock): HistoryPaging.Change {
    match body
    case ToUser(receiver, content) => HistoryPaging.SendPrivate(sender, receiver, content, now)
    case ToGroup(group, content) => HistoryPaging.SendGroup(sender, group, content, now)
    case ToAll(content) => HistoryPaging.SendBroadcast(sender, content, now)
  }

  /** Between the pages of a history, too, a submission becomes exactly the message it is. */
  lemma ChangesAreMade(t: Tables, u: int, body: Body, now: Clock)
    requires Consistent(t) && IsUser(t, u)
    ensures var t' := HistoryPaging.Perform(t, ChangeFor(t.users[u - 1], body, now));
      if MaySend(t, u, body) && NextId(t.history) <= MAX_INT64 then Sent(t, t', u, body, now) else t' == t
  {
    hide Consistent, AcceptPrivate, AcceptGroup, AcceptBroadcast, MaySend, Sent, RoutesTo;
    BodyOutcome(t, u, body, now);
    var (t', r) := AcceptBody(t, UserName(t, u), body, now);
    assert SubmissionOutcome(t, t', r, u, body, now);
  }

  /** And an acknowledgement is recorded once. */
  lemma AcknowledgementsAreMade(t: Tables, u: int, id: int, now: Clock)
    requires Consistent(t) && IsUser(t, u)
    ensures HistoryPaging.Perform(t, HistoryPaging.AcknowledgeOne(t.users[u - 1], id, now))
         == if 0 < id && (id, u) in t.recipients && t.recipients[(id, u)] == None
            then t.(recipients := t.recipients[(id, u) := Some(now)]) else t
  {
    hide Consistent, Acknowledge, Evolution.Evolves;
    Evolution.AcknowledgeLaw(t, t.users[u - 1], u, id, now);
  }

  // ----- Failures -----

  /** When the server process ends, every session of it ends, unanswered, every account is free
      again, and neither the tables nor any client has changed. */
  lemma CrashEndsEverySession(y: System)
    ensures var y' := CrashStep(y);
      && y'.tables == y.tables && y'.ackedBy == y.ackedBy && y'.registry == map[] && |y'.sessions| == |y.sessions|
      && forall i | 0 <= i < |y.sessions| ::
           var s, s' := y.sessions[i], y'.sessions[i];
           && s'.phase == Gone && s'.stopping && s'.cut && s'.reply == None && s'.job == None
           && s' == s.(phase := Gone, stopping := true, cut := true, reply := None, job := None)
  {
  }

  /** A connection that breaks delivers what was sent on it up to some point in each direction,
      and nothing sent later. */
  lemma CutLosesOnlyTheEnd(s: Session, keepDown: nat, keepUp: nat, f: Frame)
    ensures var s' := CutAt(s, keepDown, keepUp);
      && s'.cut && s'.down <= s.down && s'.up <= s.up
      && (keepDown >= |s.down| ==> s'.down == s.down) && (keepUp >= |s.up| ==> s'.up == s.up)
      && s' == s.(cut := true, down := s'.down, up := s'.up)
      && Push(s'.up, s'.cut, f) == s'.up
  {
  }
}
