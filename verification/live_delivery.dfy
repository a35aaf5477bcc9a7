/** Logging in and sending, when nothing goes wrong on the way: a login opens a session unless
    the account has one, and a submission arrives at every reachable recipient. */
module LiveDelivery {
  import opened Prelude
  import opened Tables
  import opened ClientSync
  import opened DeliverySystem
  import opened DeliveryInvariant
  import opened DeliveryRuns
  import opened DeliveryTheorems
  import opened ServingLaws
  import opened SyncProgress
  import ClientLaws
  import ClientSteps
  import ServerSteps
  import SyncCompleteness

  // ----- Logging in -----

  /** A connection is made, the account is reserved, the success line is written and read, and
      the session becomes findable. */
  function Login(u: int, sid: nat): seq<Event> {
    [Connect(u), Reserve(sid), Greet(sid), Publish(sid), Receive(sid, SYNC_LIMIT, false)]
  }

  /** A session as it stands after its login. */
  function Opened(u: int): Session {
    NewSession(u).(phase := Serving, ready := true, client := NEW_CLIENT.(authenticated := true))
  }

  lemma RunFive(y: System, a: Event, b: Event, c: Event, d: Event, e: Event)
    requires Sane(y)
    ensures Sane(Apply(y, a)) && Sane(Apply(Apply(y, a), b)) && Sane(Apply(Apply(Apply(y, a), b), c))
    ensures Sane(Apply(Apply(Apply(Apply(y, a), b), c), d))
    ensures Run(y, [a, b, c, d, e]) == Apply(Apply(Apply(Apply(Apply(y, a), b), c), d), e)
  {
    hide Sane, Apply;
    StepSane(y, a);
    assert [a, b, c, d, e][1..] == [b, c, d, e];
    RunFour(Apply(y, a), b, c, d, e);
    StepSane(Apply(Apply(Apply(y, a), b), c), d);
  }

  lemma ConnectApplied(y: System, u: int)
    requires Sane(y) && IsUser(y.tables, u)
    ensures Apply(y, Connect(u)) == y.(sessions := y.sessions + [NewSession(u)])
  {
    hide Consistent;
  }

  lemma AdmissionApplied(y: System, sid: nat)
    requires Sane(y) && Running(y, sid)
    ensures Apply(y, Reserve(sid)) == ReserveStep(y, sid)
    ensures Apply(y, Greet(sid)) == GreetStep(y, sid)
    ensures Apply(y, Publish(sid)) == PublishStep(y, sid)
  {
    hide Consistent, ReserveStep, GreetStep, PublishStep;
  }

  /** The last session of the system is `s`. */
  function With(y: System, s: Session): System {
    y.(sessions := y.sessions + [s])
  }

  lemma LastUpdated(y: System, s: Session, s': Session)
    ensures Running(With(y, s), |y.sessions|) && With(y, s).sessions[|y.sessions|] == s
    ensures Update(With(y, s), |y.sessions|, s') == With(y, s')
  {
  }

  /** A user without a session logs in. */
  lemma LoginOpens(y: System, u: int)
    requires Sane(y) && IsUser(y.tables, u) && u !in y.registry
    ensures Run(y, Login(u, |y.sessions|)) == With(y, Opened(u)).(registry := y.registry[u := |y.sessions|])
  {
    hide Consistent, Apply, Run, Dispatch, Update;
    var sid := |y.sessions|;
    var e1, e2, e3, e4, e5 := Connect(u), Reserve(sid), Greet(sid), Publish(sid), Receive(sid, SYNC_LIMIT, false);
    RunFive(y, e1, e2, e3, e4, e5);
    ConnectApplied(y, u);
    var s := NewSession(u);
    var y1 := With(y, s);
    AdmissionApplied(y1, sid);
    var s2 := s.(phase := Reserved);
    LastUpdated(y, s, s2);
    var z := y.(registry := y.registry[u := sid]);
    assert Apply(y1, e2) == With(z, s2);
    AdmissionApplied(With(z, s2), sid);
    var s3 := s2.(phase := Greeted, down := [AuthSuccess]);
    LastUpdated(z, s2, s3);
    assert [] + [AuthSuccess] == [AuthSuccess];
    assert Apply(With(z, s2), e3) == With(z, s3);
    AdmissionApplied(With(z, s3), sid);
    var s4 := s3.(phase := Serving, ready := true);
    LastUpdated(z, s3, s4);
    assert Apply(With(z, s3), e4) == With(z, s4);
    LoginIsRead(z, s4);
  }

  /** The client reads its success line. */
  lemma LoginIsRead(y: System, s: Session)
    requires Sane(With(y, s)) && s.client == NEW_CLIENT && s.down == [AuthSuccess] && !s.completed
    ensures Apply(With(y, s), Receive(|y.sessions|, SYNC_LIMIT, false))
         == With(y, s.(down := [], client := NEW_CLIENT.(authenticated := true)))
  {
    hide Consistent;
    var sid := |y.sessions|;
    LastUpdated(y, s, Received(s, SYNC_LIMIT, false));
    ClientLaws.FirstLineDecides(s.client, AuthSuccess, SYNC_LIMIT, false);
  }

  /** A second login of an account is refused, and nobody else notices. */
  lemma SecondLoginIsRefused(y: System, u: int)
    requires Sane(y) && IsUser(y.tables, u) && u in y.registry
    ensures var y', sid := Run(y, Login(u, |y.sessions|)), |y.sessions|;
      && |y'.sessions| == sid + 1 && y' == With(y, y'.sessions[sid])
      && y'.sessions[sid].phase == Gone && y'.sessions[sid].client == NEW_CLIENT.(stopped := Some(AuthenticationRejected))
  {
    hide Consistent, Apply, Run, Dispatch, Update;
    var sid := |y.sessions|;
    var e1, e2, e3, e4, e5 := Connect(u), Reserve(sid), Greet(sid), Publish(sid), Receive(sid, SYNC_LIMIT, false);
    RunFive(y, e1, e2, e3, e4, e5);
    ConnectApplied(y, u);
    var s := NewSession(u);
    AdmissionApplied(With(y, s), sid);
    var s2 := s.(phase := Gone, stopping := true, down := [AuthFailure]);
    LastUpdated(y, s, s2);
    assert [] + [AuthFailure] == [AuthFailure];
    assert Apply(With(y, s), e2) == With(y, s2);
    AdmissionApplied(With(y, s2), sid);
    LastUpdated(y, s2, s2.(down := [], client := Dispatch(NEW_CLIENT, AuthFailure, SYNC_LIMIT, false)));
    ReceiveApplied(With(y, s2), sid, SYNC_LIMIT);
    ClientLaws.FirstLineDecides(NEW_CLIENT, AuthFailure, SYNC_LIMIT, false);
    LastUpdated(y, s2, Apply(With(y, s2), e5).sessions[sid]);
  }

  /** From every reachable state: a user who is not connected, connects and asks for his
      pending messages gets every one of them, stored as committed and acknowledged, as long as
      his store has room and unless the server has to refuse a page for its size. */
  lemma LoggingInBringsEverything(events: seq<Event>, u: int, now: Clock) returns (more: seq<Event>)
    requires var y := Reach(events); IsUser(y.tables, u) && u !in y.registry
    ensures var y, y' := Reach(events), Reach(events + more);
      var sid := |y.sessions|;
      && |y'.sessions| == sid + 1 && y'.sessions[sid].user == u
      && y'.tables.history == y.tables.history && y'.tables.recipients.Keys == y.tables.recipients.Keys
      && (|| Refused(y', sid)
          || forall id | (id, u) in y.tables.recipients ::
               && y'.tables.recipients[(id, u)].Some?
               && (y.tables.recipients[(id, u)] == None ==> StoredExactly(y', sid, id)))
  {
    hide Inv, Consistent, Run, Apply, Refused, StoredExactly, Quiet, Done;
    var y := Reach(events);
    var sid := |y.sessions|;
    var first := Login(u, sid);
    LoginOpens(y, u);
    var y1 := Run(y, first);
    StartSane();
    RunAppend(START, events, first);
    ReachInv(events + first);
    OpenedIsQuiet(u);
    var rest := SynchronizesFrom(y1, sid, now);
    RunAppend(START, events + first, rest);
    more := first + rest;
    assert events + more == events + first + rest;
    var y' := Run(y1, rest);
    if !Refused(y', sid) {
      forall id | (id, u) in y.tables.recipients
        ensures y'.tables.recipients[(id, u)].Some?
        ensures y.tables.recipients[(id, u)] == None ==> StoredExactly(y', sid, id)
      {
        assert !Pending(y'.tables, u, id) by { NothingPending(y', sid, id); }
      }
    }
  }

  lemma OpenedIsQuiet(u: int)
    ensures Quiet(Opened(u)) && !Opened(u).client.active && Opened(u).client.queue == [] && Opened(u).user == u
  {
  }

  lemma NothingPending(y: System, sid: nat, id: int)
    requires Running(y, sid) && Done(y, sid)
    ensures !Pending(y.tables, y.sessions[sid].user, id)
  {
  }

  // ----- Sending -----

  /** `n` routing steps of session `a`. */
  function Routes(a: nat, n: nat): seq<Event> {
    if n == 0 then [] else [Route(a)] + Routes(a, n - 1)
  }

  /** What routing `d` to `routes` does: the reachable sessions of those users have it as the
      last frame on their channels, sessions of other users are as they were, and session `a`
      has no job any more. */
  ghost predicate RoutedTo(y: System, y': System, a: nat, d: Delivery, routes: seq<int>)
    requires Running(y, a)
  {
    && |y'.sessions| == |y.sessions| && y'.tables == y.tables && y'.ackedBy == y.ackedBy
    && y'.sessions[a] == y.sessions[a].(job := None)
    && (forall u | u in routes && Reachable(y, u) ::
          && u in y'.registry && y'.registry[u] == y.registry[u]
          && var r := y.sessions[y.registry[u]]; y'.sessions[y.registry[u]] == r.(down := r.down + [Message(d)]))
    && (forall i | 0 <= i < |y.sessions| && i != a && y.sessions[i].user !in routes :: y'.sessions[i] == y.sessions[i])
    && (forall v | v in y.registry && v !in routes :: v in y'.registry && y'.registry[v] == y.registry[v])
  }

  lemma RouteApplied(y: System, a: nat)
    requires Sane(y) && Running(y, a)
    ensures Apply(y, Route(a)) == RouteStep(y, a)
  {
    hide Consistent, RouteStep;
  }

  /** One routing step visits the first of the remaining recipients. */
  lemma OneRoute(y: System, a: nat, d: Delivery, routes: seq<int>)
    requires RegistryInv(y) && Running(y, a) && y.sessions[a].reply == None && y.sessions[a].job == Some(Job(d, routes))
    requires routes != [] && y.sessions[a].user != routes[0]
    ensures var y', u := RouteStep(y, a), routes[0];
      && |y'.sessions| == |y.sessions| && y'.tables == y.tables && y'.ackedBy == y.ackedBy
      && y'.sessions[a] == y.sessions[a].(job := Some(Job(d, routes[1..])))
      && (forall i | 0 <= i < |y.sessions| && i != a && y.sessions[i].user != u :: y'.sessions[i] == y.sessions[i])
      && (forall i | 0 <= i < |y.sessions| :: y'.sessions[i].user == y.sessions[i].user)
      && (forall v | v != u && v in y.registry :: v in y'.registry && y'.registry[v] == y.registry[v])
      && (forall v | v in y'.registry :: v in y.registry && y'.registry[v] == y.registry[v])
      && (Reachable(y, u) ==>
            && u in y'.registry && y'.registry[u] == y.registry[u]
            && var r := y.sessions[y.registry[u]]; y'.sessions[y.registry[u]] == r.(down := r.down + [Message(d)]))
  {
    hide Deliver;
    var s := y.sessions[a];
    var y1 := Update(y, a, s.(job := Some(Job(d, routes[1..]))));
    LiveCopyIsWritten(y1, routes[0], d);
  }

  lemma {:induction false} RoutingReaches(y: System, a: nat, d: Delivery, routes: seq<int>)
    requires Sane(y) && RegistryInv(y) && Running(y, a) && y.sessions[a].reply == None && y.sessions[a].job == Some(Job(d, routes))
    requires y.sessions[a].user !in routes
    requires forall i, j | 0 <= i < j < |routes| :: routes[i] != routes[j]
    ensures RoutedTo(y, Run(y, Routes(a, |routes| + 1)), a, d, routes)
    decreases |routes|
  {
    hide Consistent, Run, Apply, RouteStep;
    var y1 := RouteStep(y, a);
    RouteApplied(y, a);
    StepSane(y, Route(a));
    RunFirst(y, Route(a), Routes(a, |routes|));
    if routes == [] {
      RunNothing(y1);
      assert Routes(a, 0) == [];
      assert y1 == Update(y, a, y.sessions[a].(job := None)) by { LastRoute(y, a, d); }
    } else {
      OneRoute(y, a, d, routes);
      RoutingReaches(y1, a, d, routes[1..]);
      var y' := Run(y1, Routes(a, |routes|));
      assert routes[0] !in routes[1..];
      RoutedOneMore(y, y1, y', a, d, routes);
    }
  }

  lemma LastRoute(y: System, a: nat, d: Delivery)
    requires Running(y, a) && y.sessions[a].reply == None && y.sessions[a].job == Some(Job(d, []))
    ensures RouteStep(y, a) == Update(y, a, y.sessions[a].(job := None))
  {
  }

  lemma RunFirst(y: System, e: Event, rest: seq<Event>)
    requires Sane(y)
    ensures Sane(Apply(y, e)) && Run(y, [e] + rest) == Run(Apply(y, e), rest)
  {
    hide Sane, Apply;
    StepSane(y, e);
    assert ([e] + rest)[1..] == rest;
  }

  lemma RoutedOneMore(y: System, y1: System, y': System, a: nat, d: Delivery, routes: seq<int>)
    requires RegistryInv(y) && Running(y, a) && Running(y1, a) && routes != [] && routes[0] !in routes[1..]
    requires y.sessions[a].user !in routes && y.sessions[a].job == Some(Job(d, routes))
    requires var u := routes[0];
      && |y1.sessions| == |y.sessions| && y1.tables == y.tables && y1.ackedBy == y.ackedBy
      && y1.sessions[a] == y.sessions[a].(job := Some(Job(d, routes[1..])))
      && (forall i | 0 <= i < |y.sessions| && i != a && y.sessions[i].user != u :: y1.sessions[i] == y.sessions[i])
      && (forall i | 0 <= i < |y.sessions| :: y1.sessions[i].user == y.sessions[i].user)
      && (forall v | v != u && v in y.registry :: v in y1.registry && y1.registry[v] == y.registry[v])
      && (Reachable(y, u) ==>
            && u in y1.registry && y1.registry[u] == y.registry[u]
            && var r := y.sessions[y.registry[u]]; y1.sessions[y.registry[u]] == r.(down := r.down + [Message(d)]))
    requires RoutedTo(y1, y', a, d, routes[1..])
    ensures RoutedTo(y, y', a, d, routes)
  {
    var u := routes[0];
    forall v | v in routes && Reachable(y, v)
      ensures v in y'.registry && y'.registry[v] == y.registry[v]
      ensures var r := y.sessions[y.registry[v]]; y'.sessions[y.registry[v]] == r.(down := r.down + [Message(d)])
    {
      var b := y.registry[v];
      assert y.sessions[b].user == v && b != a;
      if v == u {
        assert y1.sessions[b].user !in routes[1..];
      } else {
        assert v in routes[1..] && y1.sessions[b] == y.sessions[b];
      }
    }
  }

  /** Session `a` sends `body`; it is handled, answered and routed. */
  function Sending(a: nat, body: Body, now: Clock, n: nat): seq<Event> {
    [SubmitMessage(a, body), Handle(a, now), Reply(a)] + Routes(a, n + 1)
  }

  /** A client free to send: nothing of its connection is on its way. */
  predicate Free(s: Session) {
    Quiet(s) && s.client.queue == [] && !s.client.awaiting && s.client.response == None
  }

  lemma SubmitApplied(y: System, a: nat, body: Body)
    requires Sane(y) && Running(y, a) && Free(y.sessions[a])
    ensures var s := y.sessions[a];
      Apply(y, SubmitMessage(a, body)) == Update(y, a, s.(client := s.client.(awaiting := true), up := [Submit(body)]))
  {
    hide Consistent;
    assert [] + [Submit(body)] == [Submit(body)];
  }

  lemma RunThree(y: System, a: Event, b: Event, c: Event)
    requires Sane(y)
    ensures Sane(Apply(y, a)) && Sane(Apply(Apply(y, a), b)) && Sane(Apply(Apply(Apply(y, a), b), c))
    ensures Run(y, [a, b, c]) == Apply(Apply(Apply(y, a), b), c)
  {
    hide Sane, Apply;
    StepSane(y, a);
    var y1 := Apply(y, a);
    StepSane(y1, b);
    var y2 := Apply(y1, b);
    StepSane(y2, c);
    assert [a, b, c][1..] == [b, c] && [b, c][1..] == [c] && [c][1..] == [];
    assert Run(y2, [c]) == Apply(y2, c);
    assert Run(y1, [b, c]) == Apply(y2, c);
  }

  /** The answer is on its way to the sender, and the job is about to be routed. */
  lemma SubmissionAnswered(y: System, a: nat, body: Body, now: Clock)
    requires Inv(y) && Sane(y) && Running(y, a) && Free(y.sessions[a])
    requires MaySend(y.tables, y.sessions[a].user, body) && NextId(y.tables.history) <= MAX_INT64
    ensures var y3, s, u := Run(y, [SubmitMessage(a, body), Handle(a, now), Reply(a)]), y.sessions[a], y.sessions[a].user;
      && Inv(y3) && |y3.sessions| == |y.sessions|
      && var s3 := y3.sessions[a];
      && y3 == Update(y, a, s3).(tables := y3.tables)
      && Sent(y.tables, y3.tables, u, body, now)
      && s3.job.Some? && RoutesTo(y.tables, u, body, s3.job.value.routes)
      && s3.job.value.delivery == Delivery(y3.tables.history[|y.tables.history|], y.tables.users[u - 1])
      && s3 == s.(client := s.client.(awaiting := true), down := [Frame.Accepted(NextId(y.tables.history))], job := s3.job)
  {
    hide Inv, Consistent, Apply, HandleStep, MaySend, Sent, RoutesTo;
    var e1, e2, e3 := SubmitMessage(a, body), Handle(a, now), Reply(a);
    RunThree(y, e1, e2, e3);
    SubmitApplied(y, a, body);
    var y1 := Apply(y, e1);
    StepKeepsInv(y, e1);
    SyncCompleteness.HandleIsApplied(y1, a, now);
    SubmissionIsCommitted(y1, a, body, now);
    StepKeepsInv(y1, e2);
    var y2 := Apply(y1, e2);
    assert [Submit(body)][1..] == [];
    ReplyApplied(y2, a);
    assert [] + [Frame.Accepted(NextId(y.tables.history))] == [Frame.Accepted(NextId(y.tables.history))];
    StepKeepsInv(y2, e3);
  }

  /** What a submission of session `a` comes to. */
  ghost predicate Delivered(y: System, y': System, a: nat, body: Body, now: Clock)
    requires Sane(y) && Running(y, a)
  {
    var u, id := y.sessions[a].user, NextId(y.tables.history);
    && |y'.sessions| == |y.sessions|
    && Sent(y.tables, y'.tables, u, body, now)
    && y'.sessions[a].down == [Frame.Accepted(id)] && y'.sessions[a].job == None
    && forall v | MeantFor(y.tables, u, body, v) && Reachable(y, v) ::
         var r := y.sessions[y.registry[v]];
         y'.sessions[y.registry[v]] == r.(down := r.down + [Message(Delivery(y'.tables.history[|y.tables.history|], y.tables.users[u - 1]))])
  }

  lemma SubmissionDelivered(y: System, a: nat, body: Body, now: Clock) returns (more: seq<Event>)
    requires Inv(y) && Sane(y) && Running(y, a) && Free(y.sessions[a])
    requires MaySend(y.tables, y.sessions[a].user, body) && NextId(y.tables.history) <= MAX_INT64
    ensures Inv(Run(y, more)) && Delivered(y, Run(y, more), a, body, now)
  {
    hide Inv, Consistent, Run, Apply, MaySend, Sent;
    var u := y.sessions[a].user;
    var first := [SubmitMessage(a, body), Handle(a, now), Reply(a)];
    SubmissionAnswered(y, a, body, now);
    var y3 := Run(y, first);
    var job := y3.sessions[a].job.value;
    ServerSteps.RegistryNames(y3);
    hide RegistryInv;
    RoutingReaches(y3, a, job.delivery, job.routes);
    var rest := Routes(a, |job.routes| + 1);
    RunAppend(y, first, rest);
    RunKeepsInv(y3, rest);
    more := first + rest;
    var y' := Run(y3, rest);
    forall v | MeantFor(y.tables, u, body, v) && Reachable(y, v)
      ensures var r := y.sessions[y.registry[v]]; y'.sessions[y.registry[v]] == r.(down := r.down + [Message(job.delivery)])
    {
      OtherSession(y, a, v);
      assert v in job.routes && Reachable(y3, v);
    }
  }

  lemma OtherSession(y: System, a: nat, v: int)
    requires Inv(y) && Running(y, a) && v in y.registry && v != y.sessions[a].user
    ensures y.registry[v] != a && Running(y, y.registry[v])
  {
    ServerSteps.RegistryNames(y);
    hide Inv;
  }

  /** From every reachable state in which a free client may send a message: after finitely many
      events it is committed for exactly those it is meant for, the sender is told its id, and
      every recipient with a session that can be written to has it on his channel. */
  lemma SubmissionIsDelivered(events: seq<Event>, a: nat, body: Body, now: Clock) returns (more: seq<Event>)
    requires Running(Reach(events), a) && Free(Reach(events).sessions[a])
    requires MaySend(Reach(events).tables, Reach(events).sessions[a].user, body) && NextId(Reach(events).tables.history) <= MAX_INT64
    ensures Delivered(Reach(events), Reach(events + more), a, body, now)
  {
    hide Inv, Consistent, Run, Delivered, MaySend, Free;
    ReachInv(events);
    more := SubmissionDelivered(Reach(events), a, body, now);
    StartSane();
    RunAppend(START, events, more);
  }

  /** With room in the store, a live message at the head of a quiet connection is stored as committed, and its
      acknowledgement is recorded. */
  lemma LiveMessageSettles(events: seq<Event>, b: nat, d: Delivery, now: Clock) returns (more: seq<Event>)
    requires Running(Reach(events), b)
    requires var s := Reach(events).sessions[b]; s.down == [Message(d)] && Quiet(s.(down := [])) && s.client.queue == []
    ensures var y, y' := Reach(events), Reach(events + more);
      && Running(y', b) && y'.sessions[b].user == y.sessions[b].user
      && StoredExactly(y', b, d.message.id)
      && var k := (d.message.id, y.sessions[b].user);
         k in y'.tables.recipients && y'.tables.recipients[k].Some?
  {
    hide Inv, Consistent, Run, Apply, Dispatch, DeliveryOk, StoredExactly, OnlyAcks, Reach;
    var y := Reach(events);
    ReachInv(events);
    var e := Receive(b, SYNC_LIMIT, false);
    var first, rest := [e], Exchange(b, now, SYNC_LIMIT);
    more := first + rest;
    ReceiveApplied(y, b, SYNC_LIMIT);
    StepKeepsInv(y, e);
    RunOne(y, e);
    var y1 := Run(y, first);
    LiveIsTaken(y, b, d);
    AckExchange(y1, b, now);
    OnlySession(y1, Run(y1, rest), b);
    RunAppend(y, first, rest);
    ReachOn(events, more);
    HeldIsStored(Run(y1, rest), b, d.message.id);
  }

  lemma ReachOn(events: seq<Event>, more: seq<Event>)
    ensures Reach(events + more) == Run(Reach(events), more)
  {
    hide Run, Sane;
    StartSane();
    RunAppend(START, events, more);
  }

  lemma LiveIsTaken(y: System, b: nat, d: Delivery)
    requires Inv(y) && Running(y, b) && y.sessions[b].down == [Message(d)]
    requires var c := y.sessions[b].client; c.authenticated && c.stopped == None && c.queue == []
    ensures var c' := Dispatch(y.sessions[b].client, Message(d), SYNC_LIMIT, false);
      && c'.stopped == None && c'.queue == [DeliveryAck(d.message.id)] && Holds(c', d.message.id) && c'.authenticated
  {
    hide Inv, Dispatch, Consistent, DeliveryOk;
    var s := y.sessions[b];
    LiveIsHonest(y, b, d);
    ServerSteps.InvConsistent(y);
    StoredIsWellFormed(y.tables, s.user, d);
    NeverContradicts(y, b, d);
    hide WellFormed, ClientLaws.Contradicts;
    ClientLaws.LiveMessageIsAcknowledged(s.client, d, SYNC_LIMIT, false);
    assert [] + [DeliveryAck(d.message.id)] == [DeliveryAck(d.message.id)];
  }

  lemma LiveIsHonest(y: System, b: nat, d: Delivery)
    requires Inv(y) && Running(y, b) && Message(d) in y.sessions[b].down
    ensures DeliveryOk(y.tables, y.sessions[b].user, d)
  {
    ClientSteps.SessionOf(y, b);
    hide Inv, AuthInv, TrafficInv, CountInv, IndexInv, GoalInv, JobInv, DeliveryOk;
    assert FrameOk(y.tables, y.ackedBy, b, y.sessions[b], Message(d));
  }
}
