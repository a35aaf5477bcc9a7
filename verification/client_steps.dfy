/** Every event keeps the invariant: the client's own steps. */
module ClientSteps {
  import opened Prelude
  import opened Tables
  import opened Evolution
  import opened ClientSync
  import opened DeliverySystem
  import opened DeliveryInvariant

  lemma CountPush(p: seq<Frame>, f: Frame, k: Token)
    ensures Count(p + [f], k) == Count(p, k) + (if Is(f, k) then 1 else 0)
  {
    CountAppend(p, [f], k);
    assert [f][1..] == [];
  }

  lemma {:induction false} CountKeep(p: seq<Frame>, n: nat, k: Token)
    ensures Count(Keep(p, n), k) <= Count(p, k)
  {
    if n < |p| {
      CountAppend(p[..n], p[n..], k);
      assert p[..n] + p[n..] == p;
    }
  }

  /** The frames of a channel look only at these parts of a session. */
  predicate SameView(s: Session, s': Session) {
    && s'.user == s.user && s'.goal == s.goal
    && s'.client.index == s.client.index && s'.client.active == s.client.active
    && s'.client.after == s.client.after && s'.client.through == s.client.through
  }

  lemma SameFrame(t: Tables, acks: map<(int, int), nat>, sid: nat, s: Session, s': Session, f: Frame)
    requires SameView(s, s')
    ensures FrameOk(t, acks, sid, s', f) <==> FrameOk(t, acks, sid, s, f)
  {
    hide DeliveryOk, OwnMessage, Ascends;
  }

  lemma SameFrames(t: Tables, acks: map<(int, int), nat>, sid: nat, s: Session, s': Session)
    requires SameView(s, s')
    ensures forall f :: FrameOk(t, acks, sid, s', f) <==> FrameOk(t, acks, sid, s, f)
  {
    forall f
      ensures FrameOk(t, acks, sid, s', f) <==> FrameOk(t, acks, sid, s, f)
    {
      SameFrame(t, acks, sid, s, s', f);
    }
  }

  /** A session changes and, with it, perhaps the tables, the registry and the ackers. */
  lemma SessionChanged(y: System, y': System, sid: nat, s': Session)
    requires Inv(y) && Running(y, sid)
    requires y'.sessions == y.sessions[sid := s'] && s'.user == y.sessions[sid].user
    requires Consistent(y'.tables) && Evolves(y.tables, y'.tables) && Extends(y.ackedBy, y'.ackedBy)
    requires SessionInv(y'.tables, y'.ackedBy, sid, s')
    requires forall id | Holds(y.sessions[sid].client, id) :: Holds(s'.client, id)
    requires RegistryInv(y') && AckerInv(y')
    requires forall k | k in y'.tables.recipients && y'.tables.recipients[k].Some? ::
      || (k in y.tables.recipients && y.tables.recipients[k].Some?)
      || (k in y'.ackedBy && y'.ackedBy[k] == sid && k.1 == s'.user && Holds(s'.client, k.0))
    ensures Inv(y')
  {
    hide Consistent, Evolves, SessionInv;
    forall i | 0 <= i < |y'.sessions|
      ensures SessionInv(y'.tables, y'.ackedBy, i, y'.sessions[i])
    {
      if i != sid {
        assert SessionInv(y.tables, y.ackedBy, i, y.sessions[i]);
        SessionStays(y.tables, y.ackedBy, y'.tables, y'.ackedBy, i, y.sessions[i]);
      }
    }
    forall k | k in y'.tables.recipients && y'.tables.recipients[k].Some?
      ensures k in y'.ackedBy && Running(y', y'.ackedBy[k]) && y'.sessions[y'.ackedBy[k]].user == k.1
      ensures Holds(y'.sessions[y'.ackedBy[k]].client, k.0)
    {
      if k in y.tables.recipients && y.tables.recipients[k].Some? {
        assert k in y.ackedBy && y'.ackedBy[k] == y.ackedBy[k];
      }
    }
  }

  /** A step of one session that leaves the tables and the ackers alone. */
  lemma QuietStep(y: System, y': System, sid: nat, s': Session)
    requires Inv(y) && Running(y, sid)
    requires y'.sessions == y.sessions[sid := s'] && s'.user == y.sessions[sid].user
    requires y'.tables == y.tables && y'.ackedBy == y.ackedBy && RegistryInv(y')
    requires SessionInv(y.tables, y.ackedBy, sid, s')
    requires forall id | Holds(y.sessions[sid].client, id) :: Holds(s'.client, id)
    ensures Inv(y')
  {
    EvolvesReflexive(y.tables);
    hide Consistent, Evolves, SessionInv;
    SessionChanged(y, y', sid, s');
  }

  lemma SessionOf(y: System, sid: nat)
    requires Inv(y) && Running(y, sid)
    ensures SessionInv(y.tables, y.ackedBy, sid, y.sessions[sid])
  {
    hide Consistent, SessionInv;
  }

  /** Replacing a session by one of the same user keeps the registry's sense. */
  lemma RegistryKept(y: System, sid: nat, s': Session)
    requires RegistryInv(y) && Running(y, sid) && s'.user == y.sessions[sid].user
    ensures RegistryInv(Update(y, sid, s'))
  {
  }

  // ----- Steps that move frames -----

  /** A frame outside the synchronization looks at the user and the index only. */
  lemma OtherFrame(t: Tables, acks: map<(int, int), nat>, sid: nat, s: Session, s': Session, f: Frame)
    requires s'.user == s.user && s'.client.index == s.client.index && !Is(f, Sync)
    ensures FrameOk(t, acks, sid, s', f) <==> FrameOk(t, acks, sid, s, f)
  {
    hide DeliveryOk, OwnMessage;
  }

  lemma StartKeeps(t: Tables, acks: map<(int, int), nat>, sid: nat, s: Session)
    requires SessionInv(t, acks, sid, s)
    ensures SessionInv(t, acks, sid, Started(s))
  {
    hide AuthInv, TrafficInv, CountInv, FramesInv, IndexInv, IsUser, DeliveryOk;
    if Live(s) && !s.client.active {
      StartFlow(s);
      StartFrames(t, acks, sid, s);
      SameIndex(t, s, Started(s));
    }
  }

  lemma StartFlow(s: Session)
    requires AuthInv(s) && TrafficInv(s) && CountInv(s) && Live(s) && !s.client.active
    ensures AuthInv(Started(s)) && TrafficInv(Started(s)) && CountInv(Started(s))
  {
    hide Count;
    var request := SyncRequest(0, None);
    CountPush(s.client.queue, request, Sync);
    CountPush(s.client.queue, request, Foreground);
  }

  lemma StartFrames(t: Tables, acks: map<(int, int), nat>, sid: nat, s: Session)
    requires FramesInv(t, acks, sid, s) && CountInv(s) && Live(s) && !s.client.active
    ensures FramesInv(t, acks, sid, Started(s))
  {
    hide FrameOk, Count;
    var s' := Started(s);
    NoSyncFrames(s);
    forall f | f in s.down || f in s.up || f in s.client.queue || s.reply == Some(f) || s.client.response == Some(f)
      ensures FrameOk(t, acks, sid, s', f)
    {
      OtherFrame(t, acks, sid, s, s', f);
    }
    if s.client.queue != s'.client.queue {
      FirstRequestOk(t, acks, sid, s');
    }
  }

  lemma FirstRequestOk(t: Tables, acks: map<(int, int), nat>, sid: nat, s: Session)
    requires s.client.after == 0 && s.client.through == None
    ensures FrameOk(t, acks, sid, s, SyncRequest(0, None))
  {
  }

  lemma SameIndex(t: Tables, s: Session, s': Session)
    requires s'.user == s.user && s'.client.index == s.client.index
    ensures IndexInv(t, s') <==> IndexInv(t, s)
  {
    hide EntryOk;
  }

  /** With no synchronization under way, no frame anywhere belongs to one. */
  lemma NoSyncFrames(s: Session)
    requires Load(s, Sync) == 0
    ensures forall f | f in s.down || f in s.up || f in s.client.queue || s.reply == Some(f) || s.client.response == Some(f)
              :: !Is(f, Sync)
  {
    forall f | f in s.down || f in s.up || f in s.client.queue || s.reply == Some(f) || s.client.response == Some(f)
      ensures !Is(f, Sync)
    {
      if Is(f, Sync) {
        if f in s.down { CountPositive(s.down, Sync, f); }
        if f in s.up { CountPositive(s.up, Sync, f); }
        if f in s.client.queue { CountPositive(s.client.queue, Sync, f); }
        assert false;
      }
    }
  }

  lemma SubmitKeeps(t: Tables, acks: map<(int, int), nat>, sid: nat, s: Session, body: Body)
    requires SessionInv(t, acks, sid, s)
    ensures SessionInv(t, acks, sid, Submitted(s, body))
  {
    hide AuthInv, TrafficInv, CountInv, FramesInv, IndexInv, GoalInv, IsUser, DeliveryOk;
    if Live(s) && !s.client.awaiting {
      var s' := Submitted(s, body);
      SubmitFlow(s, body);
      SubmitFrames(t, acks, sid, s, body);
      SameIndex(t, s, s');
      SameGoal(t, acks, sid, s, s');
    }
  }

  lemma SubmitFlow(s: Session, body: Body)
    requires AuthInv(s) && TrafficInv(s) && CountInv(s) && Live(s) && !s.client.awaiting
    ensures AuthInv(Submitted(s, body)) && TrafficInv(Submitted(s, body)) && CountInv(Submitted(s, body))
  {
    hide Count;
    CountPush(s.up, Submit(body), Sync);
    CountPush(s.up, Submit(body), Foreground);
  }

  lemma SubmitFrames(t: Tables, acks: map<(int, int), nat>, sid: nat, s: Session, body: Body)
    requires FramesInv(t, acks, sid, s) && Live(s) && !s.client.awaiting
    ensures FramesInv(t, acks, sid, Submitted(s, body))
  {
    hide FrameOk;
    var s' := Submitted(s, body);
    SameFrames(t, acks, sid, s, s');
    SubmitOk(t, acks, sid, s', body);
  }

  lemma SubmitOk(t: Tables, acks: map<(int, int), nat>, sid: nat, s: Session, body: Body)
    ensures FrameOk(t, acks, sid, s, Submit(body))
  {
  }

  lemma CountPop(p: seq<Frame>, k: Token)
    requires p != []
    ensures Count(p, k) == (if Is(p[0], k) then 1 else 0) + Count(p[1..], k)
  {
  }

  /** The head of the queue leaves it, and enters the channel unless the write fails. */
  predicate HeadSent(s: Session, s': Session) {
    && s.client.queue != []
    && s'.user == s.user && s'.phase == s.phase && s'.ready == s.ready && s'.stopping == s.stopping && s'.cut == s.cut
    && s'.down == s.down && s'.reply == s.reply && s'.job == s.job && s'.goal == s.goal && s'.completed == s.completed
    && s'.client.authenticated == s.client.authenticated && s'.client.active == s.client.active
    && s'.client.after == s.client.after && s'.client.through == s.client.through && s'.client.index == s.client.index
    && s'.client.awaiting == s.client.awaiting && s'.client.response == s.client.response
    && s'.client.queue == s.client.queue[1..]
    && (s'.up == s.up || s'.up == s.up + [s.client.queue[0]])
  }

  lemma FlushCounts(s: Session, s': Session)
    requires CountInv(s) && HeadSent(s, s')
    ensures CountInv(s')
  {
    hide Count;
    var f := s.client.queue[0];
    CountPush(s.up, f, Sync);
    CountPush(s.up, f, Foreground);
    CountPop(s.client.queue, Sync);
    CountPop(s.client.queue, Foreground);
  }

  lemma FlushTraffic(s: Session, s': Session)
    requires AuthInv(s) && TrafficInv(s) && HeadSent(s, s') && s.client.authenticated
    ensures AuthInv(s') && TrafficInv(s')
  {
    assert s.client.queue[0] in s.client.queue;
  }

  lemma FlushFrames(t: Tables, acks: map<(int, int), nat>, sid: nat, s: Session, s': Session)
    requires FramesInv(t, acks, sid, s) && HeadSent(s, s')
    ensures FramesInv(t, acks, sid, s')
  {
    hide FrameOk;
    SameFrames(t, acks, sid, s, s');
    assert s.client.queue[0] in s.client.queue;
  }

  lemma FlushKeeps(t: Tables, acks: map<(int, int), nat>, sid: nat, s: Session, written: bool)
    requires SessionInv(t, acks, sid, s)
    ensures SessionInv(t, acks, sid, Flushed(s, written))
  {
    hide AuthInv, TrafficInv, CountInv, FramesInv, IndexInv, GoalInv, IsUser, DeliveryOk;
    if Live(s) && s.client.queue != [] {
      var s' := Flushed(s, written);
      FlushSendsHead(s, written);
      FlushCounts(s, s');
      FlushTraffic(s, s');
      FlushFrames(t, acks, sid, s, s');
      SameIndex(t, s, s');
      SameGoal(t, acks, sid, s, s');
    }
  }

  lemma FlushSendsHead(s: Session, written: bool)
    requires Live(s) && s.client.queue != []
    ensures HeadSent(s, Flushed(s, written))
  {
  }

  lemma SameGoal(t: Tables, acks: map<(int, int), nat>, sid: nat, s: Session, s': Session)
    requires GoalInv(t, acks, sid, s) && SameView(s, s') && s'.completed == s.completed
    ensures GoalInv(t, acks, sid, s')
  {
    assert forall id :: Holds(s'.client, id) <==> Holds(s.client, id);
  }

  /** Frames may be lost, none is new. */
  lemma FewerFrames(t: Tables, acks: map<(int, int), nat>, sid: nat, s: Session, s': Session)
    requires FramesInv(t, acks, sid, s) && SameView(s, s')
    requires forall f | f in s'.down :: f in s.down
    requires forall f | f in s'.up :: f in s.up
    requires s'.client.queue == s.client.queue && s'.reply == s.reply && s'.client.response == s.client.response
    ensures FramesInv(t, acks, sid, s')
  {
    hide FrameOk;
    SameFrames(t, acks, sid, s, s');
  }

  lemma CutFlow(s: Session, keepDown: nat, keepUp: nat)
    requires AuthInv(s) && TrafficInv(s) && CountInv(s)
    ensures AuthInv(CutAt(s, keepDown, keepUp)) && TrafficInv(CutAt(s, keepDown, keepUp)) && CountInv(CutAt(s, keepDown, keepUp))
  {
    hide Count;
    CountKeep(s.down, keepDown, Sync);
    CountKeep(s.down, keepDown, Foreground);
    CountKeep(s.up, keepUp, Sync);
    CountKeep(s.up, keepUp, Foreground);
  }

  lemma CutKeeps(t: Tables, acks: map<(int, int), nat>, sid: nat, s: Session, keepDown: nat, keepUp: nat)
    requires SessionInv(t, acks, sid, s)
    ensures SessionInv(t, acks, sid, CutAt(s, keepDown, keepUp))
  {
    hide AuthInv, TrafficInv, CountInv, FramesInv, IndexInv, GoalInv, IsUser, DeliveryOk;
    var s' := CutAt(s, keepDown, keepUp);
    CutFlow(s, keepDown, keepUp);
    FewerFrames(t, acks, sid, s, s');
    SameIndex(t, s, s');
    SameGoal(t, acks, sid, s, s');
  }

  lemma QuitFlow(s: Session)
    requires AuthInv(s) && TrafficInv(s) && CountInv(s)
    ensures AuthInv(HasQuit(s)) && TrafficInv(HasQuit(s)) && CountInv(HasQuit(s))
  {
    hide Count;
  }

  lemma QuitKeeps(t: Tables, acks: map<(int, int), nat>, sid: nat, s: Session)
    requires SessionInv(t, acks, sid, s)
    ensures SessionInv(t, acks, sid, HasQuit(s))
  {
    hide AuthInv, TrafficInv, CountInv, FramesInv, IndexInv, GoalInv, IsUser, DeliveryOk;
    var s' := HasQuit(s);
    QuitFlow(s);
    FewerFrames(t, acks, sid, s, s');
    SameIndex(t, s, s');
    SameGoal(t, acks, sid, s, s');
  }

  // ----- Storing -----

  /** The index of `s'` is that of `s` plus deliveries addressed to the user. */
  ghost predicate Grown(t: Tables, s: Session, s': Session) {
    && s'.user == s.user
    && (forall id | id in s.client.index :: id in s'.client.index && s'.client.index[id] == s.client.index[id])
    && (forall id | id in s'.client.index && id !in s.client.index ::
          && s'.client.index[id].Incoming?
          && s'.client.index[id].delivery.message.id == id
          && DeliveryOk(t, s.user, s'.client.index[id].delivery))
  }

  lemma GrownIndex(t: Tables, s: Session, s': Session)
    requires IndexInv(t, s) && Grown(t, s, s')
    ensures IndexInv(t, s')
  {
    hide DeliveryOk, OwnMessage;
    forall id | id in s'.client.index
      ensures EntryOk(t, s'.user, id, s'.client.index[id])
    {
      if id in s.client.index {
        assert EntryOk(t, s.user, id, s.client.index[id]);
      }
    }
  }

  /** Storing received messages disturbs no frame that is not part of the synchronization. */
  lemma GrownFrame(t: Tables, acks: map<(int, int), nat>, sid: nat, s: Session, s': Session, f: Frame)
    requires Consistent(t) && Grown(t, s, s') && FrameOk(t, acks, sid, s, f)
    requires Is(f, Sync) ==>
      && s'.goal == s.goal && s'.client.active == s.client.active
      && s'.client.after == s.client.after && s'.client.through == s.client.through
    ensures FrameOk(t, acks, sid, s', f)
  {
    hide Consistent, DeliveryOk, OwnMessage, Ascends;
    if f.Accepted? {
      if f.id in s'.client.index {
        NeverOwn(t, s.user, s'.client.index[f.id].delivery);
      }
    }
  }

  lemma GrownFrames(t: Tables, acks: map<(int, int), nat>, sid: nat, s: Session, s': Session, p: seq<Frame>)
    requires Consistent(t) && Grown(t, s, s') && AllOk(t, acks, sid, s, p)
    requires (forall f | f in p :: !Is(f, Sync)) ||
      (&& s'.goal == s.goal && s'.client.active == s.client.active
       && s'.client.after == s.client.after && s'.client.through == s.client.through)
    ensures AllOk(t, acks, sid, s', p)
  {
    hide Consistent, FrameOk, Grown;
    forall f | f in p
      ensures FrameOk(t, acks, sid, s', f)
    {
      GrownFrame(t, acks, sid, s, s', f);
    }
  }

  lemma GrownGoal(t: Tables, acks: map<(int, int), nat>, sid: nat, s: Session, s': Session)
    requires Grown(t, s, s') && GoalInv(t, acks, sid, s)
    requires s'.goal == s.goal && s'.client.active == s.client.active && s'.completed == s.completed
    requires s'.client.after == s.client.after && s'.client.through == s.client.through
    ensures GoalInv(t, acks, sid, s')
  {
    hide DeliveryOk;
    assert forall id | Holds(s.client, id) :: Holds(s'.client, id);
  }

  /** A delivery for the user is stored or already there; it never conflicts. */
  lemma StoreOneLaw(t: Tables, s: Session, d: Delivery)
    requires Consistent(t) && IndexInv(t, s) && DeliveryOk(t, s.user, d)
    ensures var (index', r) := StoreOne(s.client.index, d);
      && r != Conflict
      && Grown(t, s, s.(client := s.client.(index := index')))
      && d.message.id in index' && index'[d.message.id] == Incoming(d)
  {
    var id := d.message.id;
    if id in s.client.index {
      assert EntryOk(t, s.user, id, s.client.index[id]);
      match s.client.index[id]
      case Incoming(e) => SameDelivery(t, s.user, s.user, d, e);
      case Outgoing => NeverOwn(t, s.user, d);
    }
  }

  lemma {:induction false} StoreEachLaw(t: Tables, s: Session, records: seq<Delivery>)
    requires Consistent(t) && IndexInv(t, s)
    requires forall i | 0 <= i < |records| :: DeliveryOk(t, s.user, records[i])
    ensures var (index', ok) := StoreEach(s.client.index, records);
      && ok
      && Grown(t, s, s.(client := s.client.(index := index')))
      && forall i | 0 <= i < |records| ::
           records[i].message.id in index' && index'[records[i].message.id] == Incoming(records[i])
    decreases |records|
  {
    hide Consistent, DeliveryOk;
    if records != [] {
      StoreOneLaw(t, s, records[0]);
      var (index1, r) := StoreOne(s.client.index, records[0]);
      var s1 := s.(client := s.client.(index := index1));
      GrownIndex(t, s, s1);
      StoreEachLaw(t, s1, records[1..]);
      var (index2, _) := StoreEach(index1, records[1..]);
      forall i | 0 <= i < |records|
        ensures records[i].message.id in index2 && index2[records[i].message.id] == Incoming(records[i])
      {
        if i > 0 {
          assert records[1..][i - 1] == records[i];
        }
      }
    }
  }
}
