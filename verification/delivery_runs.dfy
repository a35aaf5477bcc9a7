/** Runs of the delivery protocol: any sequence of events from the empty system, and what the
    tables keep over them. Events are defined on consistent tables whose sessions belong to
    registered users, and every event leaves such a system. */
module DeliveryRuns {
  import opened Prelude
  import opened Tables
  import opened Evolution
  import opened ClientSync
  import opened DeliverySystem
  import HandlerSteps
  import HistoryPaging
  import PageWriter

  // ----- The tables -----

  /** `b` is consistent and may follow `a`. */
  ghost predicate Moves(a: Tables, b: Tables) {
    Consistent(b) && Evolves(a, b)
  }

  lemma HandleMoves(y: System, sid: nat, now: Clock)
    requires Sane(y) && Running(y, sid)
    ensures Moves(y.tables, HandleStep(y, sid, now).tables)
  {
    hide Consistent, Evolves, FindUser, AcceptBody, HandlerSteps.Committed, Acknowledge, PageFrame;
    EvolvesReflexive(y.tables);
    var s := y.sessions[sid];
    if s.up != [] {
      match s.up[0]
      case DeliveryAck(id) => AcknowledgeLaw(y.tables, UserName(y.tables, s.user), s.user, id, now);
      case Submit(body) => HandlerSteps.BodyLaw(y.tables, s.user, body, now);
      case _ =>
    }
  }

  /** Only handlers and transactions touch the tables. */
  lemma SessionEventMoves(y: System, e: Event)
    requires Sane(y)
    requires OfSession(e)
    requires Running(y, e.sid)
    ensures Moves(y.tables, ApplySession(y, e).tables)
  {
    EvolvesReflexive(y.tables);
    hide Evolves, Consistent, HandleStep, Received, Consumed, Started, Submitted, Flushed, Replied;
    if e.Handle? {
      HandleMoves(y, e.sid, e.now);
    }
  }

  /** One event only evolves the tables. */
  lemma StepMoves(y: System, e: Event)
    requires Sane(y)
    ensures Moves(y.tables, Apply(y, e).tables)
  {
    EvolvesReflexive(y.tables);
    assert Consistent(y.tables);
    hide Evolves, Consistent, HistoryPaging.Perform, ApplySession, Sane, CrashStep, ChangeOf;
    if Transaction(e) {
      HistoryPaging.PerformLaw(y.tables, ChangeOf(e));
    } else if OfSession(e) && Running(y, e.sid) {
      SessionEventMoves(y, e);
    } else if e.Crash? {
      CrashKeepsTables(y);
    }
  }

  lemma CrashKeepsTables(y: System)
    ensures CrashStep(y).tables == y.tables && SameUsers(y, CrashStep(y))
  {
  }

  // ----- The sessions -----

  /** Sessions stay and keep their users. */
  predicate SameUsers(y: System, y': System) {
    && |y'.sessions| == |y.sessions|
    && forall i | 0 <= i < |y.sessions| :: y'.sessions[i].user == y.sessions[i].user
  }

  /** The server's side moves only: clients, their requests and their synchronizations stay. */
  predicate SameClients(y: System, y': System) {
    && |y'.sessions| == |y.sessions|
    && forall i | 0 <= i < |y.sessions| :: SameClient(y.sessions[i], y'.sessions[i])
  }

  predicate SameClient(s: Session, s': Session) {
    s'.user == s.user && s'.client == s.client && s'.up == s.up && s'.goal == s.goal && s'.completed == s.completed
  }

  lemma OneSessionMoves(y: System, sid: nat, s': Session, registry: map<int, nat>)
    requires Running(y, sid) && SameClient(y.sessions[sid], s')
    ensures SameClients(y, y) && SameClients(y, Update(y, sid, s'))
    ensures SameClients(y, Update(y, sid, s').(registry := registry)) && SameClients(y, y.(registry := registry))
  {
  }

  lemma AdmissionKeepsClients(y: System, sid: nat)
    requires Running(y, sid)
    ensures SameClients(y, ReserveStep(y, sid)) && SameClients(y, GreetStep(y, sid))
    ensures SameClients(y, PublishStep(y, sid)) && SameClients(y, CleanupStep(y, sid))
  {
    hide SameClients, Update, RemoveIfSame, Push;
    var s := y.sessions[sid];
    var gone := RemoveIfSame(y.registry, s.user, sid);
    OneSessionMoves(y, sid, s, y.registry);
    OneSessionMoves(y, sid, s.(phase := Gone, stopping := true, down := Push(s.down, s.cut, AuthFailure)), gone);
    OneSessionMoves(y, sid, s.(phase := Reserved), y.registry[s.user := sid]);
    OneSessionMoves(y, sid, s.(phase := Gone, stopping := true), gone);
    OneSessionMoves(y, sid, s.(phase := Greeted, down := s.down + [AuthSuccess]), gone);
    OneSessionMoves(y, sid, s.(phase := Serving, ready := true), gone);
  }

  lemma DeliverKeepsClients(y: System, u: int, d: Delivery)
    ensures SameClients(y, Deliver(y, u, d))
  {
  }

  lemma RouteKeepsClients(y: System, sid: nat)
    requires Running(y, sid)
    ensures SameClients(y, RouteStep(y, sid))
  {
    hide SameClients, Deliver, Update;
    var s := y.sessions[sid];
    OneSessionMoves(y, sid, s, y.registry);
    OneSessionMoves(y, sid, s.(job := None), y.registry);
    if s.job.Some? && s.job.value.routes != [] {
      var d, u := s.job.value.delivery, s.job.value.routes[0];
      var s' := s.(job := Some(Job(d, s.job.value.routes[1..])));
      OneSessionMoves(y, sid, s', y.registry);
      DeliverKeepsClients(Update(y, sid, s'), u, d);
      SameTwice(y, Update(y, sid, s'), Deliver(Update(y, sid, s'), u, d));
    }
  }

  lemma SameTwice(a: System, b: System, c: System)
    requires SameClients(a, b) && SameClients(b, c)
    ensures SameClients(a, c)
  {
  }

  lemma ReplyKeepsClients(y: System, sid: nat)
    requires Running(y, sid)
    ensures SameClients(y, Update(y, sid, Replied(y.sessions[sid])))
  {
    hide SameClients, Update;
    OneSessionMoves(y, sid, Replied(y.sessions[sid]), y.registry);
  }

  /** The server's events other than a request. */
  lemma ServerEventKeepsClients(y: System, e: Event)
    requires e.Reserve? || e.Greet? || e.Publish? || e.Reply? || e.Route? || e.Cleanup?
    requires Sane(y) && Running(y, e.sid)
    ensures SameClients(y, ApplySession(y, e))
  {
    hide Sane, SameClients, ReserveStep, GreetStep, PublishStep, CleanupStep, RouteStep, Replied, Update;
    AdmissionKeepsClients(y, e.sid);
    RouteKeepsClients(y, e.sid);
    ReplyKeepsClients(y, e.sid);
  }

  /** A request changes its own session only, and neither its client nor its user. */
  predicate OneHandled(y: System, y': System, sid: nat) {
    && |y'.sessions| == |y.sessions|
    && (forall i | 0 <= i < |y.sessions| :: y'.sessions[i].user == y.sessions[i].user
          && y'.sessions[i].client == y.sessions[i].client && y'.sessions[i].completed == y.sessions[i].completed)
    && (forall i | 0 <= i < |y.sessions| && i != sid :: y'.sessions[i] == y.sessions[i])
  }

  lemma HandleIsLocal(y: System, sid: nat, now: Clock)
    requires Sane(y) && Running(y, sid)
    ensures OneHandled(y, HandleStep(y, sid, now), sid)
  {
    hide OneHandled, Consistent, HandleAck, HandleSync, HandleSubmit, Update;
    var s := y.sessions[sid];
    HandledAs(y, sid, s);
    if s.up != [] {
      var s' := s.(up := s.up[1..]);
      HandledAs(y, sid, s');
      match s.up[0]
      case DeliveryAck(id) => AckIsLocal(y, sid, s', id, now);
      case SyncRequest(after, upTo) => SyncIsLocal(y, sid, s', after, upTo);
      case Submit(body) => SubmitIsLocal(y, sid, s', body, now);
      case _ =>
    }
  }

  predicate SameAccount(s: Session, s': Session) {
    s'.user == s.user && s'.client == s.client && s'.completed == s.completed
  }

  lemma HandledAs(y: System, sid: nat, s': Session)
    requires Running(y, sid) && SameAccount(y.sessions[sid], s')
    ensures OneHandled(y, y, sid) && OneHandled(y, Update(y, sid, s'), sid)
  {
  }

  /** The request `s` has taken off its channel is answered, and the session's goal stays. */
  predicate Answered(y: System, y': System, sid: nat, s: Session) {
    OneHandled(y, y', sid) && sid < |y'.sessions| && y'.sessions[sid].up == s.up && y'.sessions[sid].goal == s.goal
  }

  lemma AckIsLocal(y: System, sid: nat, s: Session, id: int, now: nat)
    requires Running(y, sid) && IsUser(y.tables, s.user) && SameAccount(y.sessions[sid], s)
    ensures Answered(y, HandleAck(y, sid, s, id, now), sid, s)
  {
    hide Acknowledge;
  }

  lemma SyncIsLocal(y: System, sid: nat, s: Session, after: int, upTo: Option<int>)
    requires Running(y, sid) && IsUser(y.tables, s.user) && Consistent(y.tables) && SameAccount(y.sessions[sid], s)
    ensures OneHandled(y, HandleSync(y, sid, s, after, upTo), sid)
    ensures upTo.Some? ==> Answered(y, HandleSync(y, sid, s, after, upTo), sid, s)
  {
    hide Consistent, FetchPage, PageWriter.Respond, PageFrame, PendingIds;
  }

  lemma SubmitIsLocal(y: System, sid: nat, s: Session, body: Body, now: nat)
    requires Running(y, sid) && IsUser(y.tables, s.user) && SameAccount(y.sessions[sid], s)
    ensures Answered(y, HandleSubmit(y, sid, s, body, now), sid, s)
  {
    hide AcceptBody;
  }

  /** An event on the client's side changes its own session only. */
  lemma SessionEventKeepsUsers(y: System, e: Event)
    requires Sane(y)
    requires OfSession(e)
    requires Running(y, e.sid)
    ensures SameUsers(y, ApplySession(y, e))
  {
    if e.Handle? {
      hide Consistent, HandleStep;
      HandleIsLocal(y, e.sid, e.now);
    } else if e.Reserve? || e.Greet? || e.Publish? || e.Reply? || e.Route? || e.Cleanup? {
      ServerEventKeepsClients(y, e);
      hide ApplySession;
    } else {
      ClientEventKeepsUsers(y, e);
    }
  }

  lemma ClientEventKeepsUsers(y: System, e: Event)
    requires Sane(y)
    requires e.Cut? || e.StartPending? || e.SubmitMessage? || e.Flush? || e.Receive? || e.ConsumeResponse? || e.Quit?
    requires Running(y, e.sid)
    ensures SameUsers(y, ApplySession(y, e))
  {
    hide Consistent, Dispatch, Consume, StartSync, Stop;
  }

  // ----- Runs -----

  /** An event leaves tables and sessions on which every event is defined. */
  lemma StepSane(y: System, e: Event)
    requires Sane(y)
    ensures Sane(Apply(y, e))
  {
    StepMoves(y, e);
    hide Consistent, ApplySession, HistoryPaging.Perform, CrashStep, ChangeOf, Evolves;
    if OfSession(e) && Running(y, e.sid) {
      SessionEventKeepsUsers(y, e);
    } else if e.Crash? {
      CrashKeepsTables(y);
    }
    StillUsers(y, Apply(y, e));
  }

  /** Users stay users, and a connecting one is one already. */
  lemma StillUsers(y: System, y': System)
    requires Sane(y) && Moves(y.tables, y'.tables)
    ensures SameUsers(y, y') ==> Sane(y')
    ensures forall u | IsUser(y.tables, u) && y' == y.(sessions := y.sessions + [NewSession(u)]) :: Sane(y')
  {
    hide Consistent;
  }

  lemma StartSane()
    ensures Sane(START)
  {
  }

  /** The system after a sequence of events. */
  function Run(y: System, events: seq<Event>): (y': System)
    requires Sane(y)
    ensures Sane(y')
    decreases |events|
  {
    if events == [] then y
    else
      StepSane(y, events[0]);
      Run(Apply(y, events[0]), events[1..])
  }

  /** The states the system can reach. */
  function Reach(events: seq<Event>): (y: System)
    ensures Sane(y)
  {
    StartSane();
    Run(START, events)
  }

  lemma {:induction false} RunAppend(y: System, a: seq<Event>, b: seq<Event>)
    requires Sane(y)
    ensures Run(y, a + b) == Run(Run(y, a), b)
    decreases |a|
  {
    hide Sane, Apply;
    if a == [] {
      assert a + b == b;
    } else {
      StepSane(y, a[0]);
      assert (a + b)[1..] == a[1..] + b;
      RunAppend(Apply(y, a[0]), a[1..], b);
    }
  }

  lemma {:induction false} RunMoves(y: System, events: seq<Event>)
    requires Sane(y)
    ensures Evolves(y.tables, Run(y, events).tables)
    decreases |events|
  {
    hide Evolves, Apply, Sane;
    if events == [] {
      EvolvesReflexive(y.tables);
    } else {
      StepSane(y, events[0]);
      StepMoves(y, events[0]);
      var y1 := Apply(y, events[0]);
      RunMoves(y1, events[1..]);
      hide Consistent;
      EvolvesTransitive(y.tables, y1.tables, Run(y1, events[1..]).tables);
    }
  }

  /** A recorded acknowledgement never reverts or changes, a committed message is never
      rewritten and a recipient row never disappears, whatever happens afterwards. */
  lemma NothingIsUndone(before: seq<Event>, after: seq<Event>)
    ensures var t, t' := Reach(before).tables, Reach(before + after).tables;
      && t.history <= t'.history
      && forall k | k in t.recipients :: k in t'.recipients
           && (t.recipients[k].Some? ==> t'.recipients[k] == t.recipients[k])
  {
    StartSane();
    RunAppend(START, before, after);
    RunMoves(Reach(before), after);
    hide Run, Sane;
  }
}
