/** Admission: in every run at most one session of an account is being served, and the server
    refuses a page only for its size. */
module SessionAdmission {
  import opened Prelude
  import opened Tables
  import opened ClientSync
  import opened DeliverySystem
  import opened DeliveryInvariant
  import opened DeliveryRuns
  import opened DeliveryTheorems
  import Evolution
  import HandlerSteps
  import ClientSteps
  import HistoryPaging
  import PageWriter
  import PageLimits

  /** A session that has reserved its account and has not been told to stop. */
  predicate Admitted(s: Session) {
    (s.phase == Reserved || s.phase == Greeted || s.phase == Serving) && !s.stopping
  }

  /** The registry names every admitted session. */
  predicate Exclusive(y: System) {
    forall i | 0 <= i < |y.sessions| && Admitted(y.sessions[i]) ::
      y.sessions[i].user in y.registry && y.registry[y.sessions[i].user] == i
  }

  /** Nobody is admitted by this step. */
  predicate NobodyAdmitted(y: System, y': System) {
    && y'.registry == y.registry && |y.sessions| <= |y'.sessions|
    && (forall i | 0 <= i < |y.sessions| :: y'.sessions[i].user == y.sessions[i].user
          && (Admitted(y'.sessions[i]) ==> Admitted(y.sessions[i])))
    && (forall i | |y.sessions| <= i < |y'.sessions| :: !Admitted(y'.sessions[i]))
  }

  lemma AdmissionKeeps(y: System, e: Event)
    requires e.Reserve? || e.Greet? || e.Publish? || e.Cleanup?
    requires Sane(y) && Exclusive(y) && Running(y, e.sid)
    ensures Exclusive(ApplySession(y, e))
  {
    hide Sane, Exclusive, ReserveStep, GreetStep, PublishStep, CleanupStep;
    match e
    case Reserve(sid) => ReserveExclusive(y, sid);
    case Greet(sid) => GreetExclusive(y, sid);
    case Publish(sid) => PublishExclusive(y, sid);
    case Cleanup(sid) => CleanupExclusive(y, sid);
  }

  lemma ReserveExclusive(y: System, sid: nat)
    requires Exclusive(y) && Running(y, sid)
    ensures Exclusive(ReserveStep(y, sid))
  {
  }

  lemma GreetExclusive(y: System, sid: nat)
    requires Exclusive(y) && Running(y, sid)
    ensures Exclusive(GreetStep(y, sid))
  {
  }

  lemma PublishExclusive(y: System, sid: nat)
    requires Exclusive(y) && Running(y, sid)
    ensures Exclusive(PublishStep(y, sid))
  {
  }

  lemma CleanupExclusive(y: System, sid: nat)
    requires Exclusive(y) && Running(y, sid)
    ensures Exclusive(CleanupStep(y, sid))
  {
  }

  lemma RoutedKeeps(y: System, sid: nat)
    requires Exclusive(y) && Running(y, sid)
    ensures Exclusive(RouteStep(y, sid))
  {
    var s := y.sessions[sid];
    if s.reply == None && s.job.Some? {
      var routes := s.job.value.routes;
      var y1 := Update(y, sid, s.(job := if routes == [] then None else Some(Job(s.job.value.delivery, routes[1..]))));
      assert Exclusive(y1);
      if routes != [] {
        DeliveredKeeps(y1, routes[0], s.job.value.delivery);
      }
    }
  }

  lemma DeliveredKeeps(y: System, u: int, d: Delivery)
    requires Exclusive(y)
    ensures Exclusive(Deliver(y, u, d))
  {
  }

  /** A session keeps its account and its place in the registry. */
  predicate SamePlace(s: Session, s': Session) {
    s'.user == s.user && s'.phase == s.phase && s'.stopping == s.stopping
  }

  lemma MovedAdmitsNobody(y: System, y': System, sid: nat, s': Session)
    requires Running(y, sid) && SamePlace(y.sessions[sid], s')
    requires y'.sessions == y.sessions[sid := s'] && y'.registry == y.registry
    ensures NobodyAdmitted(y, y) && NobodyAdmitted(y, y')
  {
  }

  lemma OtherStepKeepsPlace(s: Session, e: Event)
    ensures e.Cut? ==> SamePlace(s, CutAt(s, e.keepDown, e.keepUp))
    ensures e.SubmitMessage? ==> SamePlace(s, Submitted(s, e.body))
    ensures e.Flush? ==> SamePlace(s, Flushed(s, e.written))
    ensures e.Receive? ==> SamePlace(s, Received(s, e.handled, e.interrupted))
    ensures SamePlace(s, Started(s)) && SamePlace(s, Consumed(s)) && SamePlace(s, HasQuit(s))
  {
    hide Dispatch, Consume, StartSync, Stop;
  }

  lemma ReplyAdmitsNobody(y: System, sid: nat)
    requires Running(y, sid)
    ensures NobodyAdmitted(y, Update(y, sid, Replied(y.sessions[sid])))
  {
  }

  lemma OtherEventAdmitsNobody(y: System, e: Event)
    requires e.Reply? || e.Cut? || e.StartPending? || e.SubmitMessage? || e.Flush? || e.Receive? || e.ConsumeResponse? || e.Quit?
    requires Sane(y) && Running(y, e.sid)
    ensures NobodyAdmitted(y, ApplySession(y, e))
  {
    hide Sane, NobodyAdmitted, CutAt, Submitted, Flushed, Received, Started, Consumed, HasQuit, Replied, SamePlace;
    var s, y' := y.sessions[e.sid], ApplySession(y, e);
    OtherStepKeepsPlace(s, e);
    if e.Reply? {
      ReplyAdmitsNobody(y, e.sid);
    } else {
      MovedAdmitsNobody(y, y', e.sid, y'.sessions[e.sid]);
    }
  }

  lemma AckAdmitsNobody(y: System, sid: nat, s: Session, id: int, now: nat)
    requires Running(y, sid) && IsUser(y.tables, s.user) && SamePlace(y.sessions[sid], s)
    ensures NobodyAdmitted(y, HandleAck(y, sid, s, id, now))
  {
    hide Acknowledge, NobodyAdmitted;
    var y' := HandleAck(y, sid, s, id, now);
    MovedAdmitsNobody(y, y', sid, y'.sessions[sid]);
  }

  lemma SubmitAdmitsNobody(y: System, sid: nat, s: Session, body: Body, now: nat)
    requires Running(y, sid) && IsUser(y.tables, s.user) && SamePlace(y.sessions[sid], s)
    ensures NobodyAdmitted(y, HandleSubmit(y, sid, s, body, now))
  {
    hide AcceptBody, NobodyAdmitted;
    var y' := HandleSubmit(y, sid, s, body, now);
    MovedAdmitsNobody(y, y', sid, y'.sessions[sid]);
  }

  lemma SyncAdmitsNobody(y: System, sid: nat, s: Session, after: int, upTo: Option<int>)
    requires Running(y, sid) && IsUser(y.tables, s.user) && Consistent(y.tables) && SamePlace(y.sessions[sid], s)
    ensures NobodyAdmitted(y, HandleSync(y, sid, s, after, upTo))
  {
    hide Consistent, FetchPage, PageWriter.Respond, PageFrame, PendingIds, NobodyAdmitted;
    var y' := HandleSync(y, sid, s, after, upTo);
    MovedAdmitsNobody(y, y', sid, y'.sessions[sid]);
  }

  lemma AnswerAdmitsNobody(y: System, sid: nat, now: Clock)
    requires Sane(y) && Running(y, sid)
    ensures NobodyAdmitted(y, HandleStep(y, sid, now))
  {
    hide Consistent, NobodyAdmitted, HandleAck, HandleSubmit, HandleSync;
    var s := y.sessions[sid];
    MovedAdmitsNobody(y, y, sid, s);
    if s.up != [] {
      var s' := s.(up := s.up[1..]);
      MovedAdmitsNobody(y, Update(y, sid, s'), sid, s');
      match s.up[0]
      case DeliveryAck(id) => AckAdmitsNobody(y, sid, s', id, now);
      case SyncRequest(after, upTo) => SyncAdmitsNobody(y, sid, s', after, upTo);
      case Submit(body) => SubmitAdmitsNobody(y, sid, s', body, now);
      case _ =>
    }
  }

  lemma StepExclusive(y: System, e: Event)
    requires Sane(y) && Exclusive(y)
    ensures Exclusive(Apply(y, e))
  {
    hide Sane, HistoryPaging.Perform, ApplySession, Crashed, ChangeOf;
    if Transaction(e) {
    } else if e.Connect? {
      assert !Admitted(NewSession(e.user));
    } else if e.Crash? {
      NobodySurvives(y);
    } else if Running(y, e.sid) {
      if e.Reserve? || e.Greet? || e.Publish? || e.Cleanup? {
        AdmissionKeeps(y, e);
      } else if e.Route? {
        RoutedKeeps(y, e.sid);
        assert ApplySession(y, e) == RouteStep(y, e.sid) by { RouteIsApplied(y, e.sid); }
      } else if e.Handle? {
        AnswerAdmitsNobody(y, e.sid, e.now);
        HandleIsApplied(y, e.sid, e.now);
      } else {
        OtherEventAdmitsNobody(y, e);
      }
    }
  }

  lemma RouteIsApplied(y: System, sid: nat)
    requires Sane(y) && Running(y, sid)
    ensures ApplySession(y, Route(sid)) == RouteStep(y, sid)
  {
    hide Consistent, RouteStep;
  }

  lemma HandleIsApplied(y: System, sid: nat, now: Clock)
    requires Sane(y) && Running(y, sid)
    ensures ApplySession(y, Handle(sid, now)) == HandleStep(y, sid, now)
  {
    hide Consistent, HandleStep;
  }

  lemma NobodySurvives(y: System)
    ensures Exclusive(CrashStep(y))
  {
  }

  lemma {:induction false} RunExclusive(y: System, events: seq<Event>)
    requires Sane(y) && Exclusive(y)
    ensures Exclusive(Run(y, events))
    decreases |events|
  {
    hide Sane, Apply, Exclusive;
    if events != [] {
      StepSane(y, events[0]);
      StepExclusive(y, events[0]);
      RunExclusive(Apply(y, events[0]), events[1..]);
    }
  }

  /** Two sessions of one account are never served at the same time. */
  lemma OneSessionPerAccount(events: seq<Event>, i: nat, j: nat)
    requires var y := Reach(events); Running(y, i) && Running(y, j) && y.sessions[i].user == y.sessions[j].user
    requires var y := Reach(events); Admitted(y.sessions[i]) && Admitted(y.sessions[j])
    ensures i == j
  {
    StartSane();
    hide Run;
    RunExclusive(START, events);
  }

  // ----- Refused synchronizations -----

  /** The page query behind a synchronization request. */
  function Queried(y: System, sid: nat): Page
    requires Sane(y) && Running(y, sid) && y.sessions[sid].up != [] && y.sessions[sid].up[0].SyncRequest?
  {
    var s := y.sessions[sid];
    FetchPage(y.tables, UserName(y.tables, s.user), s.up[0].after, s.up[0].upTo, SYNC_LIMIT, true)
  }

  /** A synchronization request of any reachable state is well formed and for an existing
      account; the handler refuses it exactly when it would end the synchronization with a page
      whose probed form is exactly as long as the limit. */
  lemma RefusedOnlyForSize(events: seq<Event>, sid: nat, now: Clock)
    requires Running(Reach(events), sid) && HandlerFree(Reach(events).sessions[sid])
    requires var s := Reach(events).sessions[sid]; s.up != [] && s.up[0].SyncRequest?
    ensures var y := Reach(events);
      var page, reply := Queried(y, sid), HandleStep(y, sid, now).sessions[sid].reply;
      && page.Ready?
      && (reply == Some(PendingRefused) <==>
            && page.rows != [] && !page.hasMore
            && PageWriter.ResponseLength(PageWriter.SyncPending, page.rows, page.through,
                                         PageWriter.Cursor(page.rows, y.sessions[sid].up[0].after), true) == PageWriter.MAX_RESPONSE)
  {
    hide Inv, Run, Reach, Sane, HandleStep, Queried, PageWriter.Respond, PageWriter.ResponseLength;
    ReachInv(events);
    RefusedForSize(Reach(events), sid);
    AnswerIsTheResponse(Reach(events), sid, now);
  }

  predicate HandlerFree(s: Session) { s.phase == Serving && s.reply == None && s.job == None }

  /** The answer is the response to the request's query; nothing else changes but the goal. */
  lemma AnswerIsTheResponse(y: System, sid: nat, now: Clock)
    requires Sane(y) && Running(y, sid) && HandlerFree(y.sessions[sid])
    requires y.sessions[sid].up != [] && y.sessions[sid].up[0].SyncRequest?
    ensures var y', s := HandleStep(y, sid, now), y.sessions[sid];
      && |y'.sessions| == |y.sessions|
      && var s' := y'.sessions[sid];
      && s'.reply == Some(PageFrame(PageWriter.Respond(PageWriter.SyncPending, s.up[0].after, Queried(y, sid))))
      && s' == s.(up := s.up[1..], reply := s'.reply, goal := s'.goal)
      && y' == y.(sessions := y.sessions[sid := s'])
  {
    hide Consistent, FetchPage, PageWriter.Respond, PendingIds, PageFrame;
  }

  lemma RefusedForSize(y: System, sid: nat)
    requires Inv(y) && Sane(y) && Running(y, sid) && y.sessions[sid].up != [] && y.sessions[sid].up[0].SyncRequest?
    ensures var page, after := Queried(y, sid), y.sessions[sid].up[0].after;
      && page.Ready?
      && (PageFrame(PageWriter.Respond(PageWriter.SyncPending, after, page)) == PendingRefused <==>
            && page.rows != [] && !page.hasMore
            && PageWriter.ResponseLength(PageWriter.SyncPending, page.rows, page.through,
                                         PageWriter.Cursor(page.rows, after), true) == PageWriter.MAX_RESPONSE)
  {
    hide Inv;
    var after := y.sessions[sid].up[0].after;
    var page := Queried(y, sid);
    RequestIsServed(y, sid);
    hide Queried, Sane;
    PageLimits.RefusedExactlyWhen(PageWriter.SyncPending, after, page.rows, page.through, page.hasMore);
    hide PageWriter.Respond, PageLimits.PageRows, PageWriter.ResponseLength;
  }

  lemma RequestIsServed(y: System, sid: nat)
    requires Inv(y) && Sane(y) && Running(y, sid) && y.sessions[sid].up != [] && y.sessions[sid].up[0].SyncRequest?
    ensures var page := Queried(y, sid);
      page.Ready? && PageLimits.PageRows(page.rows, y.sessions[sid].up[0].after, page.through)
  {
    var s, t := y.sessions[sid], y.tables;
    var name := UserName(t, s.user);
    HandlerSteps.SyncRequested(y, sid);
    ClientSteps.SessionOf(y, sid);
    assert GoalInv(t, y.ackedBy, sid, s);
    assert name != [] by { assert t.users[s.user - 1] in t.users; }
    assert s.goal.Some? ==> 0 <= s.goal.value.through <= MAX_INT64;
    hide Inv, SessionInv, Consistent, GoalInv, FindUser, Select, Watermark;
    Evolution.FindUserId(t, name, s.user);
    PageLimits.WatermarkIsAnId(t, s.user, true);
    FirstRequestFits(y, sid);
    var page := Queried(y, sid);
    PageWriter.FetchMeaning(t, name, s.user, s.up[0].after, s.up[0].upTo, SYNC_LIMIT, true, page);
    PageLimits.QueriedRows(t, s.user, s.up[0].after, s.up[0].upTo, SYNC_LIMIT, true, page);
  }

  lemma FirstRequestFits(y: System, sid: nat)
    requires Inv(y) && Running(y, sid) && y.sessions[sid].up != [] && y.sessions[sid].up[0].SyncRequest?
    ensures var f := y.sessions[sid].up[0]; f.upTo.Some? ==> f.after <= f.upTo.value
  {
    ClientSteps.SessionOf(y, sid);
    hide Inv, AuthInv, TrafficInv, CountInv, IndexInv, GoalInv, JobInv;
    var s := y.sessions[sid];
    assert s.up[0] in s.up;
    assert FrameOk(y.tables, y.ackedBy, sid, s, s.up[0]);
  }
}
