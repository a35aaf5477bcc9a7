/** A pending synchronization that completes has brought everything that was unacknowledged
    when its first page was served. */
module SyncCompleteness {
  import opened Prelude
  import opened Tables
  import opened ClientSync
  import opened DeliverySystem
  import opened DeliveryInvariant
  import opened ClientSteps
  import opened DeliveryRuns
  import opened DeliveryTheorems
  import ClientReceive
  import ServerSteps
  import HistoryPaging
  import PageWriter

  predicate FirstRequest(f: Frame) { f.SyncRequest? && f.upTo.None? }

  predicate NoFirst(p: seq<Frame>) {
    forall f | f in p :: !FirstRequest(f)
  }

  /** Until its client stops, the synchronization is under way or has completed. */
  predicate Settled(s: Session) {
    s.client.stopped == None ==> s.client.active || s.completed
  }

  /** The first page has been served: the goal is set and no first request is under way. */
  predicate Underway(s: Session, u: int, goal: Option<Goal>) {
    s.user == u && s.goal == goal && NoFirst(s.up) && NoFirst(s.client.queue) && Settled(s)
  }

  lemma PageQueue(c: Client, p: Frame, handled: nat, interrupted: bool)
    requires NoFirst(c.queue) && p.PendingPage?
    ensures NoFirst(ReceivePage(c, p, handled, interrupted).queue)
  {
    hide StoreEach, PageFits;
    assert NoFirst(Acks(p.records));
  }

  /** Queues only ever gain acknowledgements and follow-up requests. */
  lemma DispatchQueue(c: Client, f: Frame, handled: nat, interrupted: bool)
    requires NoFirst(c.queue)
    ensures NoFirst(Dispatch(c, f, handled, interrupted).queue)
  {
    hide WellFormed, StoreOne, ReceivePage;
    if f.PendingPage? {
      PageQueue(c, f, handled, interrupted);
    }
  }

  lemma FrameReadUnderway(s: Session, u: int, goal: Option<Goal>, handled: nat, interrupted: bool)
    requires Underway(s, u, goal)
    ensures Underway(Received(s, handled, interrupted), u, goal)
  {
    hide Dispatch;
    if s.down != [] {
      DispatchQueue(s.client, s.down[0], handled, interrupted);
    }
  }

  lemma ClientEventUnderway(s: Session, u: int, goal: Option<Goal>, e: Event)
    requires Underway(s, u, goal)
    ensures e.Cut? ==> Underway(CutAt(s, e.keepDown, e.keepUp), u, goal)
    ensures e.SubmitMessage? ==> Underway(Submitted(s, e.body), u, goal)
    ensures Underway(Consumed(s), u, goal) && Underway(HasQuit(s), u, goal)
  {
    hide NoFirst;
    CutUnderway(s, u, goal, e);
    SubmitUnderway(s, u, goal, e);
  }

  lemma CutUnderway(s: Session, u: int, goal: Option<Goal>, e: Event)
    requires Underway(s, u, goal)
    ensures e.Cut? ==> Underway(CutAt(s, e.keepDown, e.keepUp), u, goal)
  {
  }

  lemma SubmitUnderway(s: Session, u: int, goal: Option<Goal>, e: Event)
    requires Underway(s, u, goal)
    ensures e.SubmitMessage? ==> Underway(Submitted(s, e.body), u, goal)
  {
  }

  lemma FlushUnderway(s: Session, u: int, goal: Option<Goal>, written: bool)
    requires Underway(s, u, goal)
    ensures Underway(Flushed(s, written), u, goal)
  {
    if Live(s) && s.client.queue != [] {
      assert s.client.queue[0] in s.client.queue;
    }
  }

  /** What answering a request may change of its session. */
  lemma AnsweredUnderway(s: Session, s': Session, u: int, goal: Option<Goal>)
    requires Underway(s, u, goal)
    requires s'.user == s.user && s'.goal == s.goal && s'.client == s.client && s'.completed == s.completed
    requires s.up != [] && s'.up == s.up[1..]
    ensures Underway(s', u, goal)
  {
    assert forall f | f in s'.up :: f in s.up;
  }

  /** A request other than a first page request takes its place in the queue and leaves the
      goal alone. */
  predicate Taken(s: Session, s': Session) {
    s.up != [] && s'.up == s.up[1..] && s'.goal == s.goal
  }

  lemma RequestTaken(y: System, sid: nat, now: Clock)
    requires Sane(y) && Running(y, sid)
    requires y.sessions[sid].up != [] ==> !FirstRequest(y.sessions[sid].up[0])
    ensures var s, s' := y.sessions[sid], HandleStep(y, sid, now).sessions[sid]; s' == s || Taken(s, s')
  {
    hide Consistent, HandleAck, HandleSync, HandleSubmit;
    var s := y.sessions[sid];
    if s.up != [] {
      var s' := s.(up := s.up[1..]);
      match s.up[0]
      case DeliveryAck(id) => AckIsLocal(y, sid, s', id, now);
      case SyncRequest(after, upTo) => SyncIsLocal(y, sid, s', after, upTo);
      case Submit(body) => SubmitIsLocal(y, sid, s', body, now);
      case _ =>
    }
  }

  lemma HandleUnderway(y: System, sid: nat, now: Clock, i: nat, u: int, goal: Option<Goal>)
    requires Sane(y) && Running(y, sid) && Running(y, i) && Underway(y.sessions[i], u, goal)
    ensures Running(HandleStep(y, sid, now), i) && Underway(HandleStep(y, sid, now).sessions[i], u, goal)
  {
    hide Consistent, HandleStep;
    HandleIsLocal(y, sid, now);
    if i == sid {
      assert y.sessions[i].up != [] ==> y.sessions[i].up[0] in y.sessions[i].up;
      RequestTaken(y, sid, now);
      hide Underway;
      var s, s' := y.sessions[i], HandleStep(y, sid, now).sessions[i];
      if s' != s {
        AnsweredUnderway(s, s', u, goal);
      }
    }
  }

  lemma ServerEventUnderway(y: System, e: Event, i: nat, u: int, goal: Option<Goal>)
    requires e.Reserve? || e.Greet? || e.Publish? || e.Reply? || e.Route? || e.Cleanup?
    requires Sane(y) && Running(y, e.sid) && Running(y, i) && Underway(y.sessions[i], u, goal)
    ensures Running(ApplySession(y, e), i) && Underway(ApplySession(y, e).sessions[i], u, goal)
  {
    hide Sane, ApplySession;
    ServerEventKeepsClients(y, e);
    hide NoFirst;
  }

  lemma StepUnderway(y: System, e: Event, i: nat, u: int, goal: Option<Goal>)
    requires Sane(y) && Running(y, i) && Underway(y.sessions[i], u, goal)
    requires e != StartPending(i)
    ensures Running(Apply(y, e), i) && Underway(Apply(y, e).sessions[i], u, goal)
  {
    hide Consistent, HistoryPaging.Perform, ApplySession, Crashed, Underway, ChangeOf;
    if OfSession(e) && Running(y, e.sid) {
      SessionEventUnderway(y, e, i, u, goal);
    } else if e.Crash? {
      CrashUnderway(y.sessions[i], u, goal);
    }
  }

  lemma SessionEventUnderway(y: System, e: Event, i: nat, u: int, goal: Option<Goal>)
    requires OfSession(e)
    requires Sane(y) && Running(y, e.sid) && Running(y, i) && Underway(y.sessions[i], u, goal)
    requires e != StartPending(i)
    ensures Running(ApplySession(y, e), i) && Underway(ApplySession(y, e).sessions[i], u, goal)
  {
    hide Sane, Underway, HandleStep;
    if e.Handle? {
      HandleUnderway(y, e.sid, e.now, i, u, goal);
      HandleIsLocal(y, e.sid, e.now);
    } else if e.Reserve? || e.Greet? || e.Publish? || e.Reply? || e.Route? || e.Cleanup? {
      ServerEventUnderway(y, e, i, u, goal);
    } else {
      ClientEventKeepsUnderway(y, e, i, u, goal);
    }
  }

  lemma ClientEventKeepsUnderway(y: System, e: Event, i: nat, u: int, goal: Option<Goal>)
    requires e.Cut? || e.StartPending? || e.SubmitMessage? || e.Flush? || e.Receive? || e.ConsumeResponse? || e.Quit?
    requires Sane(y) && Running(y, e.sid) && Running(y, i) && Underway(y.sessions[i], u, goal)
    requires e != StartPending(i)
    ensures Running(ApplySession(y, e), i) && Underway(ApplySession(y, e).sessions[i], u, goal)
  {
    hide Sane, Received, Consumed, Submitted, Flushed, CutAt, HasQuit, Started, Underway;
    var s := y.sessions[i];
    ClientEventUnderway(s, u, goal, e);
    if e.Flush? {
      FlushUnderway(s, u, goal, e.written);
    } else if e.Receive? {
      FrameReadUnderway(s, u, goal, e.handled, e.interrupted);
    }
  }

  lemma CrashUnderway(s: Session, u: int, goal: Option<Goal>)
    requires Underway(s, u, goal)
    ensures Underway(Crashed(s), u, goal)
  {
  }

  lemma {:induction false} RunUnderway(y: System, events: seq<Event>, i: nat, u: int, goal: Option<Goal>)
    requires Sane(y) && Inv(y) && Running(y, i) && Underway(y.sessions[i], u, goal)
    requires StartPending(i) !in events
    ensures Running(Run(y, events), i) && Underway(Run(y, events).sessions[i], u, goal)
    decreases |events|
  {
    hide Inv, Sane, Apply, Underway;
    if events != [] {
      assert events[0] in events;
      StepSane(y, events[0]);
      StepKeepsInv(y, events[0]);
      StepUnderway(y, events[0], i, u, goal);
      RunUnderway(Apply(y, events[0]), events[1..], i, u, goal);
    }
  }

  // ----- The first page -----

  /** The handler of session `sid` is about to serve the first page of a synchronization, and
      does serve it. */
  predicate ServesFirstPage(y: System, sid: nat, now: Clock)
    requires Sane(y) && Running(y, sid)
  {
    var s := y.sessions[sid];
    && s.phase == Serving && s.reply == None && s.job == None && s.up != [] && FirstRequest(s.up[0])
    && var reply := HandleStep(y, sid, now).sessions[sid].reply;
    && reply.Some? && reply.value.PendingPage?
  }

  /** A set goal is exactly the unacknowledged messages. */
  lemma PendingIdsAre(t: Tables, u: int)
    requires Consistent(t)
    ensures forall id :: id in PendingIds(t, u) <==> (id, u) in t.recipients && t.recipients[(id, u)] == None
  {
    forall id
      ensures id in PendingIds(t, u) <==> (id, u) in t.recipients && t.recipients[(id, u)] == None
    {
      if (id, u) in t.recipients && t.recipients[(id, u)] == None {
        assert RecipientOk(t, (id, u));
        var m :| m in t.history && m.id == id;
        assert Visible(t, u, true, m);
      }
    }
  }

  lemma OnlyOneRequest(y: System, sid: nat)
    requires Inv(y) && Running(y, sid)
    requires var up := y.sessions[sid].up; up != [] && FirstRequest(up[0])
    ensures NoFirst(y.sessions[sid].up[1..]) && NoFirst(y.sessions[sid].client.queue)
    ensures y.sessions[sid].client.active
  {
    SessionOf(y, sid);
    hide Inv, AuthInv, TrafficInv, IndexInv, FramesInv, GoalInv, JobInv, Count;
    var s := y.sessions[sid];
    CountPop(s.up, Sync);
    ClientReceive.NoneOfKind(s.up[1..], Sync);
    ClientReceive.NoneOfKind(s.client.queue, Sync);
  }

  /** Serving a first page makes the pending messages of that moment the goal. */
  lemma FirstPageUnderway(y: System, sid: nat, now: Clock)
    requires Inv(y) && Sane(y) && Running(y, sid) && ServesFirstPage(y, sid, now)
    ensures var s' := HandleStep(y, sid, now).sessions[sid];
      && s'.goal.Some? && s'.goal.value.ids == PendingIds(y.tables, y.sessions[sid].user)
      && Underway(s', y.sessions[sid].user, s'.goal)
  {
    OnlyOneRequest(y, sid);
    hide Inv, Consistent, PendingIds, FetchPage, PageWriter.Respond, NoFirst;
  }

  lemma CompletedHolds(y: System, sid: nat)
    requires Inv(y) && Running(y, sid)
    ensures var s := y.sessions[sid];
      s.completed ==> !s.client.active && s.goal.Some? && forall id | id in s.goal.value.ids ::
        StoredExactly(y, sid, id) || ByOther(y.ackedBy, sid, s.user, id)
  {
    SessionOf(y, sid);
    hide Inv, AuthInv, TrafficInv, CountInv, IndexInv, FramesInv, JobInv, StoredExactly;
    var s := y.sessions[sid];
    if s.completed {
      forall id | id in s.goal.value.ids && Holds(s.client, id)
        ensures StoredExactly(y, sid, id)
      {
        HeldIsStored(y, sid, id);
      }
    }
  }

  /** The client is no longer synchronizing and has not stopped, or did so before it stopped. */
  predicate Finished(s: Session) {
    !s.client.active && (s.client.stopped == None || s.completed)
  }

  /** Session `sid`, once its synchronization is over in `y`, holds everything that was
      unacknowledged for its user in `y0`, except what another session acknowledged. */
  predicate BroughtEverything(y0: System, y: System, sid: nat)
    requires Running(y0, sid)
  {
    var u := y0.sessions[sid].user;
    && Running(y, sid) && y.sessions[sid].user == u
    && (Finished(y.sessions[sid]) ==>
          forall k | k in y0.tables.recipients && k.1 == u && y0.tables.recipients[k] == None ::
            StoredExactly(y, sid, k.0) || ByOther(y.ackedBy, sid, u, k.0))
  }

  lemma CompleteFrom(y0: System, sid: nat, now: Clock, after: seq<Event>)
    requires Inv(y0) && Sane(y0) && Running(y0, sid) && ServesFirstPage(y0, sid, now)
    requires StartPending(sid) !in after
    requires Inv(HandleStep(y0, sid, now)) && Sane(HandleStep(y0, sid, now))
    ensures BroughtEverything(y0, Run(HandleStep(y0, sid, now), after), sid)
  {
    FirstPageUnderway(y0, sid, now);
    ServerSteps.InvConsistent(y0);
    hide Inv, Sane, ServesFirstPage, HandleStep, BroughtEverything, Consistent, Underway, PendingIds, Run;
    var y1, u := HandleStep(y0, sid, now), y0.sessions[sid].user;
    assert Running(y1, sid) by { HandleKeepsSessions(y0, sid, now); }
    RunKeepsInv(y1, after);
    RunUnderway(y1, after, sid, u, y1.sessions[sid].goal);
    GoalReached(y0, Run(y1, after), sid, y1.sessions[sid].goal);
  }

  lemma IsPending(t: Tables, u: int, id: int)
    requires Consistent(t) && (id, u) in t.recipients && t.recipients[(id, u)] == None
    ensures id in PendingIds(t, u)
  {
    PendingIdsAre(t, u);
  }

  lemma GoalReached(y0: System, y: System, sid: nat, goal: Option<Goal>)
    requires Consistent(y0.tables) && Running(y0, sid)
    requires Inv(y) && Running(y, sid) && Underway(y.sessions[sid], y0.sessions[sid].user, goal)
    requires goal.Some? && goal.value.ids == PendingIds(y0.tables, y0.sessions[sid].user)
    ensures BroughtEverything(y0, y, sid)
  {
    hide Inv, StoredExactly, ByOther, Consistent, Underway, PendingIds;
    var u := y0.sessions[sid].user;
    UnderwayGoal(y.sessions[sid], u, goal);
    CompletedHolds(y, sid);
    forall k | k in y0.tables.recipients && k.1 == u && y0.tables.recipients[k] == None
      ensures Finished(y.sessions[sid]) ==> StoredExactly(y, sid, k.0) || ByOther(y.ackedBy, sid, u, k.0)
    {
      assert k == (k.0, u);
      IsPending(y0.tables, u, k.0);
    }
  }

  lemma HandleKeepsSessions(y: System, sid: nat, now: Clock)
    requires Sane(y) && Running(y, sid)
    ensures Running(HandleStep(y, sid, now), sid)
  {
    hide Sane, HandleStep;
    HandleIsLocal(y, sid, now);
  }

  lemma UnderwayGoal(s: Session, u: int, goal: Option<Goal>)
    requires Underway(s, u, goal)
    ensures s.user == u && s.goal == goal && Settled(s)
  {
  }

  lemma RunThrough(before: seq<Event>, e: Event, after: seq<Event>)
    requires Sane(Apply(Reach(before), e))
    ensures Reach(before + ([e] + after)) == Run(Apply(Reach(before), e), after)
  {
    StartSane();
    hide Sane, Apply;
    RunAppend(START, before, [e] + after);
    assert ([e] + after)[1..] == after;
  }

  lemma HandleIsApplied(y: System, sid: nat, now: Clock)
    requires Sane(y) && Running(y, sid)
    ensures Apply(y, Handle(sid, now)) == HandleStep(y, sid, now)
  {
    hide Consistent, HandleStep;
  }

  /** A synchronization that ends without a stop is complete: whatever happened since its
      first page was served (live deliveries, acknowledgements of this very session, accepts,
      other users), every message that was unacknowledged then is in this client's buffer as
      committed, unless another session of the same user acknowledged it. */
  lemma SynchronizationIsComplete(before: seq<Event>, sid: nat, now: Clock, after: seq<Event>)
    requires Running(Reach(before), sid) && ServesFirstPage(Reach(before), sid, now)
    requires StartPending(sid) !in after
    ensures BroughtEverything(Reach(before), Reach(before + ([Handle(sid, now)] + after)), sid)
  {
    hide Inv, BroughtEverything, ServesFirstPage, HandleStep, Reach, Sane, Run;
    var y0, e := Reach(before), Handle(sid, now);
    ReachInv(before);
    StepSane(y0, e);
    StepKeepsInv(y0, e);
    RunThrough(before, e, after);
    HandleIsApplied(y0, sid, now);
    CompleteFrom(y0, sid, now, after);
  }
}
