/** Every event keeps the invariant: admission, replies, routing, cleanup, a crash and the
    transactions that concern no session. */
module ServerSteps {
  import opened Prelude
  import opened Tables
  import opened Evolution
  import opened ClientSync
  import opened DeliverySystem
  import opened DeliveryInvariant
  import opened ClientSteps
  import HistoryPaging
  import LegacyImport

  /** The server's side of a session moves: a frame may be appended to the channel to the
      client, the reply may leave its place, the job may shrink. */
  predicate ServerMoved(s: Session, s': Session, pushed: Option<Frame>) {
    && s'.user == s.user && s'.client == s.client && s'.goal == s.goal && s'.completed == s.completed && s'.up == s.up
    && s'.down == (if pushed.Some? then s.down + [pushed.value] else s.down)
    && (s'.reply == s.reply || s'.reply == None)
    && (pushed.Some? && IsReply(pushed.value) ==> s.reply == pushed && s'.reply == None)
    && (pushed.Some? ==> IsAuth(pushed.value) || pushed.value.Message? || IsReply(pushed.value))
  }

  lemma MovedCounts(s: Session, s': Session, pushed: Option<Frame>)
    requires CountInv(s) && ServerMoved(s, s', pushed)
    ensures CountInv(s')
  {
    hide Count;
    if pushed.Some? {
      CountPush(s.down, pushed.value, Sync);
      CountPush(s.down, pushed.value, Foreground);
    }
  }

  lemma MovedTraffic(s: Session, s': Session, pushed: Option<Frame>)
    requires TrafficInv(s) && ServerMoved(s, s', pushed)
    ensures TrafficInv(s')
  {
  }

  lemma MovedFrames(t: Tables, acks: map<(int, int), nat>, sid: nat, s: Session, s': Session, pushed: Option<Frame>)
    requires FramesInv(t, acks, sid, s) && ServerMoved(s, s', pushed)
    requires pushed.Some? ==> FrameOk(t, acks, sid, s, pushed.value)
    ensures FramesInv(t, acks, sid, s')
  {
    hide FrameOk;
    SameFrames(t, acks, sid, s, s');
  }

  lemma MovedKeeps(t: Tables, acks: map<(int, int), nat>, sid: nat, s: Session, s': Session, pushed: Option<Frame>)
    requires SessionInv(t, acks, sid, s) && ServerMoved(s, s', pushed)
    requires pushed.Some? ==> FrameOk(t, acks, sid, s, pushed.value)
    requires AuthInv(s') && JobInv(t, s')
    ensures SessionInv(t, acks, sid, s')
  {
    hide AuthInv, TrafficInv, CountInv, IndexInv, FramesInv, JobInv, FrameOk, IsUser, DeliveryOk;
    MovedCounts(s, s', pushed);
    MovedTraffic(s, s', pushed);
    MovedFrames(t, acks, sid, s, s', pushed);
    SameIndex(t, s, s');
  }

  /** A session's server side moves and the registry with it. */
  lemma ServerStep(y: System, y': System, sid: nat, s': Session, pushed: Option<Frame>)
    requires Inv(y) && Running(y, sid)
    requires y'.sessions == y.sessions[sid := s'] && y'.tables == y.tables && y'.ackedBy == y.ackedBy
    requires ServerMoved(y.sessions[sid], s', pushed)
    requires pushed.Some? ==> FrameOk(y.tables, y.ackedBy, sid, y.sessions[sid], pushed.value)
    requires AuthInv(s') && JobInv(y.tables, s')
    requires RegistryInv(y')
    ensures Inv(y')
  {
    hide Consistent, SessionInv, AuthInv, JobInv, FrameOk;
    SessionOf(y, sid);
    MovedKeeps(y.tables, y.ackedBy, sid, y.sessions[sid], s', pushed);
    QuietStep(y, y', sid, s');
  }

  lemma RegistryRemoved(y: System, sid: nat, s': Session, u: int)
    requires RegistryInv(y) && Running(y, sid) && s'.user == y.sessions[sid].user
    ensures RegistryInv(Update(y, sid, s').(registry := RemoveIfSame(y.registry, u, sid)))
    ensures RegistryInv(Update(y, sid, s').(registry := y.registry - {u}))
  {
  }

  /** A handler that ends a session leaves at most a refusal behind. */
  predicate Ended(s: Session, s': Session, pushed: Option<Frame>) {
    && ServerMoved(s, s', pushed) && s'.job == s.job && s'.reply == s.reply
    && s'.phase == Gone && s'.stopping && s'.ready == s.ready && s'.cut == s.cut
    && (pushed.Some? ==> s.phase == Verified && pushed == Some(AuthFailure))
  }

  lemma EndedAuth(s: Session, s': Session, pushed: Option<Frame>)
    requires AuthInv(s) && Ended(s, s', pushed)
    ensures AuthInv(s')
  {
  }

  lemma EndKeeps(y: System, sid: nat, s': Session, pushed: Option<Frame>, registry: map<int, nat>)
    requires Inv(y) && Running(y, sid) && Ended(y.sessions[sid], s', pushed)
    requires registry == y.registry || registry == RemoveIfSame(y.registry, s'.user, sid)
    ensures Inv(Update(y, sid, s').(registry := registry))
  {
    SessionOf(y, sid);
    hide Consistent, LossInv, AckerInv, AuthInv, TrafficInv, CountInv, IndexInv, FramesInv, GoalInv, IsUser, DeliveryOk;
    RegistryRemoved(y, sid, s', s'.user);
    RegistryKept(y, sid, s');
    EndedAuth(y.sessions[sid], s', pushed);
    hide SessionsInv, RegistryInv, RemoveIfSame;
    var y' := Update(y, sid, s').(registry := registry);
    assert RegistryInv(y') by {
      if registry == y.registry { assert y' == Update(y, sid, s'); }
    }
    ServerStep(y, y', sid, s', pushed);
  }

  // ----- Admission -----

  lemma ReserveKeeps(y: System, sid: nat)
    requires Inv(y) && Running(y, sid)
    ensures Inv(ReserveStep(y, sid))
  {
    hide Inv;
    var s, y' := y.sessions[sid], ReserveStep(y, sid);
    if s.phase == Verified {
      if s.user in y.registry {
        var pushed := if s.cut then None else Some(AuthFailure);
        assert y' == Update(y, sid, y'.sessions[sid]).(registry := y.registry);
        EndKeeps(y, sid, y'.sessions[sid], pushed, y.registry);
      } else {
        AdvanceKeeps(y, y', sid, None);
      }
    }
  }

  /** One step of admission: reserved, then greeted, then published. */
  predicate Advanced(s: Session, s': Session, pushed: Option<Frame>) {
    && ServerMoved(s, s', pushed) && s'.job == s.job && s'.reply == s.reply
    && s'.stopping == s.stopping && s'.cut == s.cut
    && match s.phase
       case Verified => s'.phase == Reserved && s'.ready == s.ready && pushed == None
       case Reserved => s'.phase == Greeted && s'.ready == s.ready && pushed == Some(AuthSuccess)
       case Greeted => s'.phase == Serving && s'.ready && pushed == None
       case _ => false
  }

  lemma AdvancedAuth(s: Session, s': Session, pushed: Option<Frame>)
    requires AuthInv(s) && Advanced(s, s', pushed)
    ensures AuthInv(s')
  {
  }

  lemma AdvanceKeeps(y: System, y': System, sid: nat, pushed: Option<Frame>)
    requires Inv(y) && Running(y, sid) && |y'.sessions| == |y.sessions|
    requires y'.sessions == y.sessions[sid := y'.sessions[sid]] && y'.tables == y.tables && y'.ackedBy == y.ackedBy
    requires Advanced(y.sessions[sid], y'.sessions[sid], pushed)
    requires y'.registry == y.registry || y'.registry == y.registry[y.sessions[sid].user := sid]
    ensures Inv(y')
  {
    SessionOf(y, sid);
    hide Consistent, LossInv, AckerInv, AuthInv, TrafficInv, CountInv, IndexInv, FramesInv, GoalInv, IsUser, DeliveryOk;
    assert RegistryInv(y');
    AdvancedAuth(y.sessions[sid], y'.sessions[sid], pushed);
    hide SessionsInv, RegistryInv;
    ServerStep(y, y', sid, y'.sessions[sid], pushed);
  }

  lemma GreetKeeps(y: System, sid: nat)
    requires Inv(y) && Running(y, sid)
    ensures Inv(GreetStep(y, sid))
  {
    hide Inv;
    var s, y' := y.sessions[sid], GreetStep(y, sid);
    if s.phase == Reserved {
      if s.cut {
        assert y' == Update(y, sid, y'.sessions[sid]).(registry := RemoveIfSame(y.registry, s.user, sid));
        EndKeeps(y, sid, y'.sessions[sid], None, RemoveIfSame(y.registry, s.user, sid));
      } else {
        AdvanceKeeps(y, y', sid, Some(AuthSuccess));
      }
    }
  }

  lemma PublishKeeps(y: System, sid: nat)
    requires Inv(y) && Running(y, sid)
    ensures Inv(PublishStep(y, sid))
  {
    hide Inv;
    var s, y' := y.sessions[sid], PublishStep(y, sid);
    if s.phase == Greeted {
      if s.user in y.registry && y.registry[s.user] == sid && !s.stopping {
        AdvanceKeeps(y, y', sid, None);
      } else {
        assert y' == Update(y, sid, y'.sessions[sid]).(registry := RemoveIfSame(y.registry, s.user, sid));
        EndKeeps(y, sid, y'.sessions[sid], None, RemoveIfSame(y.registry, s.user, sid));
      }
    }
  }

  lemma CleanupKeeps(y: System, sid: nat)
    requires Inv(y) && Running(y, sid)
    ensures Inv(CleanupStep(y, sid))
  {
    hide Inv;
    var s, y' := y.sessions[sid], CleanupStep(y, sid);
    if s.phase == Serving && s.reply == None && s.job == None {
      assert y' == Update(y, sid, y'.sessions[sid]).(registry := RemoveIfSame(y.registry, s.user, sid));
      EndKeeps(y, sid, y'.sessions[sid], None, RemoveIfSame(y.registry, s.user, sid));
    }
  }

  // ----- Replies and live routes -----

  lemma ReplyKeeps(y: System, sid: nat)
    requires Inv(y) && Running(y, sid)
    ensures Inv(Update(y, sid, Replied(y.sessions[sid])))
  {
    SessionOf(y, sid);
    var s := y.sessions[sid];
    var y' := Update(y, sid, Replied(s));
    RegistryKept(y, sid, Replied(s));
    hide Consistent, LossInv, AckerInv, CountInv, IndexInv, GoalInv, IsUser, DeliveryOk, SessionsInv, RegistryInv, FrameOk;
    if s.reply.Some? {
      ServerStep(y, y', sid, Replied(s), if s.cut then None else s.reply);
    } else {
      assert y'.sessions == y.sessions;
    }
  }

  /** A live copy is written, or the write fails and stops the session. */
  predicate Routed(s: Session, s': Session, d: Delivery) {
    && s.ready && !s.stopping
    && if s.cut then s' == s.(stopping := true) else s' == s.(down := s.down + [Message(d)])
  }

  lemma RoutedAuth(s: Session, s': Session, d: Delivery)
    requires AuthInv(s) && Routed(s, s', d)
    ensures AuthInv(s')
  {
  }

  lemma RouteToKeeps(y: System, y': System, target: nat, d: Delivery)
    requires Inv(y) && Running(y, target) && DeliveryOk(y.tables, y.sessions[target].user, d)
    requires |y'.sessions| == |y.sessions|
    requires y'.sessions == y.sessions[target := y'.sessions[target]] && y'.tables == y.tables && y'.ackedBy == y.ackedBy
    requires Routed(y.sessions[target], y'.sessions[target], d) && RegistryInv(y')
    ensures Inv(y')
  {
    hide Inv, AuthInv, TrafficInv, CountInv, IndexInv, FramesInv, GoalInv, IsUser, DeliveryOk, RegistryInv;
    var s, s' := y.sessions[target], y'.sessions[target];
    SessionOf(y, target);
    RoutedAuth(s, s', d);
    ServerStep(y, y', target, s', if s.cut then None else Some(Message(d)));
  }

  /** A live copy reaches only a session whose client has read, or will first read, its
      success line, and only a recipient. */
  lemma DeliverKeeps(y: System, u: int, d: Delivery)
    requires Inv(y) && DeliveryOk(y.tables, u, d)
    ensures Inv(Deliver(y, u, d))
  {
    hide Inv, DeliveryOk;
    RegistryNames(y);
    if u in y.registry && y.sessions[y.registry[u]].ready {
      var target := y.registry[u];
      if y.sessions[target].stopping {
        StoppedKeeps(y, u);
      } else if y.sessions[target].cut {
        DeliverCutKeeps(y, target, u, d);
      } else {
        DeliverLiveKeeps(y, target, u, d);
      }
    }
  }

  lemma RegistryNames(y: System)
    requires Inv(y)
    ensures RegistryInv(y)
  {
  }

  lemma DeliverCutKeeps(y: System, target: nat, u: int, d: Delivery)
    requires Inv(y) && Running(y, target) && DeliveryOk(y.tables, u, d) && y.sessions[target].user == u
    requires var r := y.sessions[target]; r.ready && !r.stopping && r.cut
    ensures var r := y.sessions[target];
      Inv(Update(y, target, r.(stopping := true)).(registry := RemoveIfSame(y.registry, u, target)))
  {
    hide Inv, DeliveryOk, RegistryInv;
    RegistryNames(y);
    var s' := y.sessions[target].(stopping := true);
    RegistryRemoved(y, target, s', u);
    hide RemoveIfSame;
    RouteToKeeps(y, Update(y, target, s').(registry := RemoveIfSame(y.registry, u, target)), target, d);
  }

  lemma DeliverLiveKeeps(y: System, target: nat, u: int, d: Delivery)
    requires Inv(y) && Running(y, target) && DeliveryOk(y.tables, u, d) && y.sessions[target].user == u
    requires var r := y.sessions[target]; r.ready && !r.stopping && !r.cut
    ensures var r := y.sessions[target]; Inv(Update(y, target, r.(down := r.down + [Message(d)])))
  {
    hide Inv, DeliveryOk, RegistryInv;
    RegistryNames(y);
    var s' := y.sessions[target].(down := y.sessions[target].down + [Message(d)]);
    RegistryKept(y, target, s');
    RouteToKeeps(y, Update(y, target, s'), target, d);
  }

  lemma StoppedKeeps(y: System, u: int)
    requires Inv(y)
    ensures Inv(y.(registry := y.registry - {u}))
  {
    hide Consistent, SessionInv;
  }

  lemma RouteKeeps(y: System, sid: nat)
    requires Inv(y) && Running(y, sid)
    ensures Inv(RouteStep(y, sid))
  {
    hide Inv, Deliver, DeliveryOk;
    var s := y.sessions[sid];
    if s.reply == None && s.job.Some? {
      var job := s.job.value;
      JobShrinks(y, sid);
      if job.routes != [] {
        DeliverKeeps(Update(y, sid, s.(job := Some(Job(job.delivery, job.routes[1..])))), job.routes[0], job.delivery);
      }
    }
  }

  /** One route leaves the job of a session. */
  lemma JobShrinks(y: System, sid: nat)
    requires Inv(y) && Running(y, sid) && y.sessions[sid].reply == None && y.sessions[sid].job.Some?
    ensures var s := y.sessions[sid];
      var job := s.job.value;
      && Inv(Update(y, sid, s.(job := if job.routes == [] then None else Some(Job(job.delivery, job.routes[1..])))))
      && (job.routes != [] ==> DeliveryOk(y.tables, job.routes[0], job.delivery))
  {
    hide Inv, TrafficInv, CountInv, IndexInv, FramesInv, GoalInv, IsUser, DeliveryOk, RegistryInv;
    SessionOf(y, sid);
    RegistryNames(y);
    var s := y.sessions[sid];
    var job := s.job.value;
    var s' := s.(job := if job.routes == [] then None else Some(Job(job.delivery, job.routes[1..])));
    RegistryKept(y, sid, s');
    if job.routes != [] {
      assert job.routes[0] in job.routes;
    }
    ServerStep(y, Update(y, sid, s'), sid, s', None);
  }

  // ----- The whole server -----

  lemma CrashedKeeps(t: Tables, acks: map<(int, int), nat>, sid: nat, s: Session)
    requires SessionInv(t, acks, sid, s)
    ensures SessionInv(t, acks, sid, Crashed(s))
  {
    hide TrafficInv, CountInv, IndexInv, FramesInv, FrameOk, IsUser, DeliveryOk;
    MovedCounts(s, Crashed(s), None);
    MovedTraffic(s, Crashed(s), None);
    MovedFrames(t, acks, sid, s, Crashed(s), None);
    SameIndex(t, s, Crashed(s));
  }

  lemma CrashKeeps(y: System)
    requires Inv(y)
    ensures Inv(CrashStep(y))
  {
    hide Consistent, SessionInv;
    var y' := CrashStep(y);
    forall i | 0 <= i < |y'.sessions|
      ensures SessionInv(y'.tables, y'.ackedBy, i, y'.sessions[i])
    {
      CrashedKeeps(y.tables, y.ackedBy, i, y.sessions[i]);
    }
  }

  lemma NewSessionOk(t: Tables, acks: map<(int, int), nat>, sid: nat, u: int)
    requires IsUser(t, u)
    ensures SessionInv(t, acks, sid, NewSession(u))
  {
  }

  lemma ConnectKeeps(y: System, u: int)
    requires Inv(y) && IsUser(y.tables, u)
    ensures Inv(y.(sessions := y.sessions + [NewSession(u)]))
  {
    hide Consistent, SessionInv, IsUser;
    var y' := y.(sessions := y.sessions + [NewSession(u)]);
    forall i | 0 <= i < |y'.sessions|
      ensures SessionInv(y'.tables, y'.ackedBy, i, y'.sessions[i])
    {
      if i < |y.sessions| {
        assert SessionInv(y.tables, y.ackedBy, i, y.sessions[i]);
      } else {
        NewSessionOk(y.tables, y.ackedBy, i, u);
      }
    }
  }

  /** Every acknowledgement recorded in `b` was recorded in `a`. */
  ghost predicate NoNewAcks(a: Tables, b: Tables) {
    forall k | k in b.recipients && b.recipients[k].Some? :: k in a.recipients && a.recipients[k].Some?
  }

  /** A transaction no session started. */
  lemma TablesMoved(y: System, t': Tables)
    requires Inv(y) && Consistent(t') && Evolves(y.tables, t') && NoNewAcks(y.tables, t')
    ensures Inv(y.(tables := t'))
  {
    hide Consistent, SessionInv;
    var y' := y.(tables := t');
    forall i | 0 <= i < |y'.sessions|
      ensures SessionInv(y'.tables, y'.ackedBy, i, y'.sessions[i])
    {
      assert SessionInv(y.tables, y.ackedBy, i, y.sessions[i]);
      hide Evolves;
      SessionStays(y.tables, y.ackedBy, t', y.ackedBy, i, y.sessions[i]);
    }
    assert AckerInv(y') by {
      forall k | k in y'.ackedBy
        ensures k in t'.recipients && t'.recipients[k].Some?
      {
        assert k in y.tables.recipients && y.tables.recipients[k].Some?;
      }
    }
  }

  lemma ImportAddsNoAcks(t: Tables, clock: LegacyImport.Readings)
    requires Consistent(t)
    ensures NoNewAcks(t, LegacyImport.Import(t, clock).0)
  {
    LegacyImport.ImportAllOrNothing(t, clock);
    hide Consistent, LegacyImport.Import, LegacyImport.Importable, LegacyImport.MovedHistory, LegacyImport.MovedLegacy, Evolves, NextId;
  }

  lemma ChangeKeeps(y: System, c: HistoryPaging.Change)
    requires Inv(y) && (c.NewUser? || c.NewGroup? || c.Join? || c.ImportOld?)
    ensures Inv(y.(tables := HistoryPaging.Perform(y.tables, c)))
  {
    hide Inv, Consistent, Evolves, NoNewAcks, HistoryPaging.Perform;
    InvConsistent(y);
    HistoryPaging.PerformLaw(y.tables, c);
    ChangeAddsNoAcks(y.tables, c);
    TablesMoved(y, HistoryPaging.Perform(y.tables, c));
  }

  lemma ChangeAddsNoAcks(t: Tables, c: HistoryPaging.Change)
    requires Consistent(t) && (c.NewUser? || c.NewGroup? || c.Join? || c.ImportOld?)
    ensures NoNewAcks(t, HistoryPaging.Perform(t, c))
  {
    hide Consistent, LegacyImport.Import, FindUser, GroupName;
    if c.ImportOld? {
      ImportAddsNoAcks(t, c.clock);
    }
  }

  lemma InvConsistent(y: System)
    requires Inv(y)
    ensures Consistent(y.tables)
  {
  }
}
