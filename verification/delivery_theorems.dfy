/** The main results about durable delivery: they hold after every event of every run, however
    the threads of the server and of all clients interleave. */
module DeliveryTheorems {
  import opened Prelude
  import opened Tables
  import opened ClientSync
  import opened DeliverySystem
  import opened DeliveryInvariant
  import opened ClientSteps
  import opened ClientReceive
  import opened ServerSteps
  import opened HandlerSteps
  import opened DeliveryRuns
  import HistoryPaging

  // ----- The client's steps, in the system -----

  /** A session whose step keeps its own invariant and forgets nothing it stored. */
  lemma ClientMoved(y: System, sid: nat, s': Session)
    requires Inv(y) && Running(y, sid) && s'.user == y.sessions[sid].user
    requires SessionInv(y.tables, y.ackedBy, sid, s')
    requires forall id | Holds(y.sessions[sid].client, id) :: Holds(s'.client, id)
    ensures Inv(Update(y, sid, s'))
  {
    hide Consistent, SessionInv, SessionsInv, LossInv, AckerInv;
    RegistryKept(y, sid, s');
    hide RegistryInv, Holds;
    QuietStep(y, Update(y, sid, s'), sid, s');
  }

  lemma ReceivedInSystem(y: System, sid: nat, handled: nat, interrupted: bool)
    requires Inv(y) && Running(y, sid)
    ensures Inv(Update(y, sid, Received(y.sessions[sid], handled, interrupted)))
  {
    hide Inv, SessionInv, Dispatch;
    var s := y.sessions[sid];
    var s' := Received(s, handled, interrupted);
    SessionOf(y, sid);
    if s.client.stopped == None && s.down != [] {
      InvConsistent(y);
      hide Consistent, Received;
      ReceiveKeeps(y.tables, y.ackedBy, sid, s, handled, interrupted);
      assert Grown(y.tables, s, s');
    }
    ClientMoved(y, sid, s');
  }

  lemma ConsumedInSystem(y: System, sid: nat)
    requires Inv(y) && Running(y, sid)
    ensures Inv(Update(y, sid, Consumed(y.sessions[sid])))
  {
    hide Inv, SessionInv, Consume;
    var s := y.sessions[sid];
    SessionOf(y, sid);
    if Live(s) && s.client.response.Some? {
      ConsumeKeeps(y.tables, y.ackedBy, sid, s);
    }
    ClientMoved(y, sid, Consumed(s));
  }

  lemma ClientEventKeeps(y: System, e: Event)
    requires Inv(y) && Sane(y)
    requires e.Cut? || e.StartPending? || e.SubmitMessage? || e.Flush? || e.Receive? || e.ConsumeResponse? || e.Quit?
    requires Running(y, e.sid)
    ensures Inv(ApplySession(y, e))
  {
    hide Inv, Received, Consumed, Consistent, Started, Submitted, Flushed, CutAt, HasQuit;
    if e.Receive? {
      ReceivedInSystem(y, e.sid, e.handled, e.interrupted);
    } else if e.ConsumeResponse? {
      ConsumedInSystem(y, e.sid);
    } else if e.Cut? || e.Quit? {
      BrokenInSystem(y, e);
    } else {
      SendingInSystem(y, e);
    }
  }

  lemma BrokenInSystem(y: System, e: Event)
    requires Inv(y) && (e.Cut? || e.Quit?) && Running(y, e.sid)
    ensures e.Cut? ==> Inv(Update(y, e.sid, CutAt(y.sessions[e.sid], e.keepDown, e.keepUp)))
    ensures e.Quit? ==> Inv(Update(y, e.sid, HasQuit(y.sessions[e.sid])))
  {
    hide Inv, SessionInv, Consistent;
    var s, sid := y.sessions[e.sid], e.sid;
    SessionOf(y, sid);
    if e.Cut? {
      CutKeeps(y.tables, y.ackedBy, sid, s, e.keepDown, e.keepUp);
      ClientMoved(y, sid, CutAt(s, e.keepDown, e.keepUp));
    } else {
      QuitKeeps(y.tables, y.ackedBy, sid, s);
      ClientMoved(y, sid, HasQuit(s));
    }
  }

  lemma SendingInSystem(y: System, e: Event)
    requires Inv(y) && (e.StartPending? || e.SubmitMessage? || e.Flush?) && Running(y, e.sid)
    ensures e.StartPending? ==> Inv(Update(y, e.sid, Started(y.sessions[e.sid])))
    ensures e.SubmitMessage? ==> Inv(Update(y, e.sid, Submitted(y.sessions[e.sid], e.body)))
    ensures e.Flush? ==> Inv(Update(y, e.sid, Flushed(y.sessions[e.sid], e.written)))
  {
    hide Inv, SessionInv, Consistent;
    var s, sid := y.sessions[e.sid], e.sid;
    SessionOf(y, sid);
    if e.StartPending? {
      StartKeeps(y.tables, y.ackedBy, sid, s);
      ClientMoved(y, sid, Started(s));
    } else if e.SubmitMessage? {
      SubmitKeeps(y.tables, y.ackedBy, sid, s, e.body);
      ClientMoved(y, sid, Submitted(s, e.body));
    } else {
      FlushKeeps(y.tables, y.ackedBy, sid, s, e.written);
      ClientMoved(y, sid, Flushed(s, e.written));
    }
  }

  // ----- Every event, every run -----

  lemma StepKeepsInv(y: System, e: Event)
    requires Inv(y) && Sane(y)
    ensures Inv(Apply(y, e))
  {
    hide Inv, ApplySession, HistoryPaging.Perform, CrashStep, Sane;
    if Transaction(e) {
      ChangeKeeps(y, ChangeOf(e));
    } else if e.Connect? {
      if IsUser(y.tables, e.user) { ConnectKeeps(y, e.user); }
    } else if e.Crash? {
      CrashKeeps(y);
    } else if Running(y, e.sid) {
      SessionEventKeeps(y, e);
    }
  }

  lemma SessionEventKeeps(y: System, e: Event)
    requires Inv(y) && Sane(y)
    requires OfSession(e)
    requires Running(y, e.sid)
    ensures Inv(ApplySession(y, e))
  {
    hide Inv, Sane, ReserveStep, GreetStep, PublishStep, HandleStep, RouteStep, CleanupStep, Replied;
    match e
    case Reserve(sid) => ReserveKeeps(y, sid);
    case Greet(sid) => GreetKeeps(y, sid);
    case Publish(sid) => PublishKeeps(y, sid);
    case Handle(sid, now) => HandleKeeps(y, sid, now);
    case Reply(sid) => ReplyKeeps(y, sid);
    case Route(sid) => RouteKeeps(y, sid);
    case Cleanup(sid) => CleanupKeeps(y, sid);
    case _ => ClientEventKeeps(y, e);
  }

  lemma StartInv()
    ensures Inv(START)
  {
  }

  /** Every run keeps the invariant. */
  lemma {:induction false} RunKeepsInv(y: System, events: seq<Event>)
    requires Sane(y) && Inv(y)
    ensures Inv(Run(y, events))
    decreases |events|
  {
    hide Inv, Sane, Apply;
    if events != [] {
      StepSane(y, events[0]);
      StepKeepsInv(y, events[0]);
      RunKeepsInv(Apply(y, events[0]), events[1..]);
    }
  }

  lemma ReachInv(events: seq<Event>)
    ensures Inv(Reach(events))
  {
    StartInv();
    StartSane();
    RunKeepsInv(START, events);
  }

  // ----- No loss -----

  /** Session `sid` holds message `id`, exactly as the server committed it. */
  predicate StoredExactly(y: System, sid: nat, id: int)
    requires Running(y, sid)
  {
    var s := y.sessions[sid];
    && Holds(s.client, id)
    && var d := s.client.index[id].delivery;
    && d.message.id == id && d.message in y.tables.history && IsUser(y.tables, d.message.senderId)
    && d == WithSender(y.tables, d.message)
    && (id, s.user) in y.tables.recipients
  }

  /** Some session of the recipient has stored the message of row `k`. */
  predicate StoredBySomeSession(y: System, k: (int, int)) {
    exists sid | 0 <= sid < |y.sessions| :: y.sessions[sid].user == k.1 && StoredExactly(y, sid, k.0)
  }

  lemma HeldIsStored(y: System, sid: nat, id: int)
    requires Inv(y) && Running(y, sid) && Holds(y.sessions[sid].client, id)
    ensures StoredExactly(y, sid, id)
  {
    SessionOf(y, sid);
    hide Inv, AuthInv, TrafficInv, CountInv, FramesInv, GoalInv, JobInv;
    assert EntryOk(y.tables, y.sessions[sid].user, id, y.sessions[sid].client.index[id]);
  }

  lemma RowIsSafe(y: System, k: (int, int))
    requires Inv(y) && k in y.tables.recipients
    ensures y.tables.recipients[k] == None || StoredBySomeSession(y, k)
  {
    if y.tables.recipients[k].Some? {
      assert LossInv(y);
      hide Inv, StoredExactly, Holds;
      HeldIsStored(y, y.ackedBy[k], k.0);
    }
  }

  /** Every committed (message, recipient) row is still unacknowledged on the server, or some
      session of that recipient has stored the message, with its content and sender. */
  lemma NoLoss(events: seq<Event>, k: (int, int))
    requires k in Reach(events).tables.recipients
    ensures Reach(events).tables.recipients[k] == None || StoredBySomeSession(Reach(events), k)
  {
    hide Inv, Run, Reach, StoredBySomeSession;
    ReachInv(events);
    RowIsSafe(Reach(events), k);
  }

  /** An acknowledgement is queued or in flight only after the message has been stored. */
  lemma AcknowledgedAfterStoring(events: seq<Event>, sid: nat, id: int)
    requires Running(Reach(events), sid)
    requires var s := Reach(events).sessions[sid]; DeliveryAck(id) in s.client.queue || DeliveryAck(id) in s.up
    ensures StoredExactly(Reach(events), sid, id)
  {
    ReachInv(events);
    hide Run, Reach;
    var y := Reach(events);
    var s := y.sessions[sid];
    SessionOf(y, sid);
    assert FrameOk(y.tables, y.ackedBy, sid, s, DeliveryAck(id)) by {
      hide Inv, AuthInv, TrafficInv, CountInv, GoalInv, JobInv, IndexInv, FrameOk;
    }
    HeldIsStored(y, sid, id);
  }

  // ----- An honest server never trips the client's checks -----

  predicate Honest(y: System) {
    forall i | 0 <= i < |y.sessions| :: HonestStop(y.sessions[i].client)
  }

  /** The client's own steps stop it for its own reasons only. */
  lemma OwnStepHonest(s: Session, e: Event)
    requires HonestStop(s.client)
    ensures e.SubmitMessage? ==> HonestStop(Submitted(s, e.body).client)
    ensures e.Cut? ==> HonestStop(CutAt(s, e.keepDown, e.keepUp).client)
    ensures e.Flush? ==> HonestStop(Flushed(s, e.written).client)
    ensures e.StartPending? ==> HonestStop(Started(s).client)
    ensures e.Quit? ==> HonestStop(HasQuit(s).client)
  {
  }

  lemma ReceiveHonest(t: Tables, acks: map<(int, int), nat>, sid: nat, s: Session, handled: nat, interrupted: bool)
    requires Consistent(t) && SessionInv(t, acks, sid, s) && HonestStop(s.client)
    ensures HonestStop(Received(s, handled, interrupted).client)
  {
    hide Consistent, SessionInv, HonestStop, Dispatch;
    if s.client.stopped == None && s.down != [] {
      hide Received;
      ReceiveKeeps(t, acks, sid, s, handled, interrupted);
    }
  }

  lemma ConsumeHonest(t: Tables, acks: map<(int, int), nat>, sid: nat, s: Session)
    requires SessionInv(t, acks, sid, s) && HonestStop(s.client)
    ensures HonestStop(Consumed(s).client)
  {
    hide SessionInv, Consume;
    if Live(s) && s.client.response.Some? {
      ConsumeKeeps(t, acks, sid, s);
    }
  }

  lemma ClientEventHonest(y: System, e: Event)
    requires e.Cut? || e.StartPending? || e.SubmitMessage? || e.Flush? || e.Receive? || e.ConsumeResponse? || e.Quit?
    requires Inv(y) && Sane(y) && Honest(y) && Running(y, e.sid)
    ensures Honest(ApplySession(y, e))
  {
    hide Inv, Sane, HonestStop, Honest;
    if e.Receive? || e.ConsumeResponse? {
      ReadingHonest(y, e);
    } else {
      OwnEventHonest(y, e);
    }
  }

  lemma ReadingHonest(y: System, e: Event)
    requires e.Receive? || e.ConsumeResponse?
    requires Inv(y) && Sane(y) && Honest(y) && Running(y, e.sid)
    ensures Honest(ApplySession(y, e))
  {
    hide Inv, Sane, Consistent, SessionInv, HonestStop, Honest, Received, Consumed, Update;
    var s := y.sessions[e.sid];
    SessionOf(y, e.sid);
    InvConsistent(y);
    HonestSession(y, e.sid);
    match e
    case Receive(sid, handled, interrupted) =>
      ReceiveHonest(y.tables, y.ackedBy, sid, s, handled, interrupted);
      HonestUpdate(y, sid, Received(s, handled, interrupted));
    case ConsumeResponse(sid) =>
      ConsumeHonest(y.tables, y.ackedBy, sid, s);
      HonestUpdate(y, sid, Consumed(s));
  }

  lemma OwnEventHonest(y: System, e: Event)
    requires e.Cut? || e.StartPending? || e.SubmitMessage? || e.Flush? || e.Quit?
    requires Sane(y) && Honest(y) && Running(y, e.sid)
    ensures Honest(ApplySession(y, e))
  {
    hide Sane, HonestStop, Honest, Submitted, CutAt, Flushed, Started, HasQuit, Update;
    var s := y.sessions[e.sid];
    HonestSession(y, e.sid);
    OwnStepHonest(s, e);
    match e
    case Cut(sid, keepDown, keepUp) => HonestUpdate(y, sid, CutAt(s, keepDown, keepUp));
    case StartPending(sid) => HonestUpdate(y, sid, Started(s));
    case SubmitMessage(sid, body) => HonestUpdate(y, sid, Submitted(s, body));
    case Flush(sid, written) => HonestUpdate(y, sid, Flushed(s, written));
    case Quit(sid) => HonestUpdate(y, sid, HasQuit(s));
  }

  lemma HonestSession(y: System, sid: nat)
    requires Honest(y) && Running(y, sid)
    ensures HonestStop(y.sessions[sid].client)
  {
  }

  lemma HonestUpdate(y: System, sid: nat, s': Session)
    requires Honest(y) && Running(y, sid) && HonestStop(s'.client)
    ensures Honest(Update(y, sid, s'))
  {
    hide HonestStop;
  }

  lemma HandleHonest(y: System, sid: nat, now: Clock)
    requires Sane(y) && Honest(y) && Running(y, sid)
    ensures Honest(ApplySession(y, Handle(sid, now)))
  {
    hide Sane, HandleStep, HonestStop;
    HandleIsLocal(y, sid, now);
  }

  lemma ServerEventHonest(y: System, e: Event)
    requires e.Reserve? || e.Greet? || e.Publish? || e.Reply? || e.Route? || e.Cleanup?
    requires Sane(y) && Honest(y) && Running(y, e.sid)
    ensures Honest(ApplySession(y, e))
  {
    hide Sane, ApplySession, HonestStop;
    ServerEventKeepsClients(y, e);
  }

  lemma SessionEventHonest(y: System, e: Event)
    requires OfSession(e)
    requires Inv(y) && Sane(y) && Honest(y) && Running(y, e.sid)
    ensures Honest(ApplySession(y, e))
  {
    hide Inv, Sane, Honest, ApplySession;
    if e.Handle? {
      HandleHonest(y, e.sid, e.now);
    } else if e.Reserve? || e.Greet? || e.Publish? || e.Reply? || e.Route? || e.Cleanup? {
      ServerEventHonest(y, e);
    } else {
      ClientEventHonest(y, e);
    }
  }

  lemma StepHonest(y: System, e: Event)
    requires Inv(y) && Sane(y) && Honest(y)
    ensures Honest(Apply(y, e))
  {
    hide Inv, Consistent, ApplySession, HistoryPaging.Perform, Sane, ChangeOf;
    if OfSession(e) && Running(y, e.sid) {
      SessionEventHonest(y, e);
    }
  }

  lemma {:induction false} RunHonest(y: System, events: seq<Event>)
    requires Sane(y) && Inv(y) && Honest(y)
    ensures Honest(Run(y, events))
    decreases |events|
  {
    hide Inv, Sane, Apply, Honest;
    if events != [] {
      StepSane(y, events[0]);
      StepKeepsInv(y, events[0]);
      StepHonest(y, events[0]);
      RunHonest(Apply(y, events[0]), events[1..]);
    }
  }

  /** In no run does a client stop because of what the server sent: no frame before the
      authentication line, no page out of order or past its watermark, no refused automatic
      acknowledgement, no conflicting copy of a message, no unexpected response and no accepted
      id that is already stored. */
  lemma HonestServerNeverTrips(events: seq<Event>, sid: nat)
    requires Running(Reach(events), sid)
    ensures HonestStop(Reach(events).sessions[sid].client)
  {
    StartInv();
    StartSane();
    hide Inv, Run;
    RunHonest(START, events);
  }
}
