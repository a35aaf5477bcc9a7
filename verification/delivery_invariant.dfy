/** The invariant of the delivery protocol, clause by clause, and what survives when the
    tables move on. */
module DeliveryInvariant {
  import opened Prelude
  import opened Tables
  import opened Evolution
  import opened ClientSync
  import opened DeliverySystem
  import Utf8

  // ----- What frames say about the tables -----

  /** `d` is a stored message with its sender's name, and `u` is one of its recipients. */
  predicate DeliveryOk(t: Tables, u: int, d: Delivery) {
    && d.message in t.history
    && IsUser(t, d.message.senderId)
    && d == WithSender(t, d.message)
    && (d.message.id, u) in t.recipients
  }

  /** `id` is a message `u` sent. */
  predicate OwnMessage(t: Tables, u: int, id: int) {
    exists m :: m in t.history && m.id == id && m.senderId == u
  }

  lemma SameRow(t: Tables, a: Stored, b: Stored)
    requires Consistent(t) && a in t.history && b in t.history && a.id == b.id
    ensures a == b
  {
    hide RowOk, RecipientOk;
    var i :| 0 <= i < |t.history| && t.history[i] == a;
    var j :| 0 <= j < |t.history| && t.history[j] == b;
    assert i == j;
  }

  /** Two deliveries of one message are the same, live or paged. */
  lemma SameDelivery(t: Tables, u: int, v: int, a: Delivery, b: Delivery)
    requires Consistent(t) && DeliveryOk(t, u, a) && DeliveryOk(t, v, b) && a.message.id == b.message.id
    ensures a == b
  {
    SameRow(t, a.message, b.message);
  }

  /** Senders are excluded from recipients: no received message is one's own. */
  lemma NeverOwn(t: Tables, u: int, d: Delivery)
    requires Consistent(t) && DeliveryOk(t, u, d)
    ensures d.message.senderId != u && !OwnMessage(t, u, d.message.id)
  {
    hide RowOk;
    assert RecipientOk(t, (d.message.id, u));
    var m :| m in t.history && m.id == d.message.id && m.senderId != u;
    SameRow(t, m, d.message);
    if OwnMessage(t, u, d.message.id) {
      var o :| o in t.history && o.id == d.message.id && o.senderId == u;
      SameRow(t, m, o);
    }
  }

  /** What the server stores passes the client's envelope checks. */
  lemma StoredIsWellFormed(t: Tables, u: int, d: Delivery)
    requires Consistent(t) && DeliveryOk(t, u, d)
    ensures WellFormed(d)
  {
    hide Utf8.Valid, RecipientOk;
    assert RowOk(t, d.message);
  }

  // ----- Counting what is under way -----

  datatype Token = Sync | Foreground

  predicate Is(f: Frame, k: Token) {
    match k
    case Sync => f.SyncRequest? || f.PendingPage? || f.PendingRefused?
    case Foreground => f.Submit? || f.Accepted? || f.NotAccepted?
  }

  function Count(p: seq<Frame>, k: Token): nat {
    if p == [] then 0 else (if Is(p[0], k) then 1 else 0) + Count(p[1..], k)
  }

  function CountOne(o: Option<Frame>, k: Token): nat {
    if o.Some? && Is(o.value, k) then 1 else 0
  }

  /** How many tokens of a kind are anywhere between the client's queue and its handlers. */
  function Load(s: Session, k: Token): nat {
    CountOne(s.client.response, k) + Count(s.down, k) + CountOne(s.reply, k) + Count(s.up, k) + Count(s.client.queue, k)
  }

  lemma {:induction false} CountAppend(p: seq<Frame>, q: seq<Frame>, k: Token)
    ensures Count(p + q, k) == Count(p, k) + Count(q, k)
  {
    if p == [] {
      assert p + q == q;
    } else {
      assert (p + q)[1..] == p[1..] + q;
      CountAppend(p[1..], q, k);
    }
  }

  lemma {:induction false} CountZero(p: seq<Frame>, k: Token)
    requires forall f | f in p :: !Is(f, k)
    ensures Count(p, k) == 0
  {
    if p != [] {
      assert p[0] in p;
      CountZero(p[1..], k);
    }
  }

  lemma {:induction false} CountPositive(p: seq<Frame>, k: Token, f: Frame)
    requires f in p && Is(f, k)
    ensures Count(p, k) >= 1
  {
    if p[0] != f {
      CountPositive(p[1..], k, f);
    }
  }

  // ----- The clauses -----

  predicate IsAuth(f: Frame) { f.AuthSuccess? || f.AuthFailure? }

  predicate Automatic(f: Frame) { f.DeliveryAck? || f.SyncRequest? }

  predicate IsReply(f: Frame) {
    f.AckOutcome? || f.PendingPage? || f.PendingRefused? || f.Accepted? || f.NotAccepted?
  }

  /** Admission: nothing but the authentication line reaches a client before it is read. */
  predicate AuthInv(s: Session) {
    && (!s.client.authenticated ==>
          && s.client.(stopped := None) == NEW_CLIENT
          && s.up == [] && s.reply == None && s.job == None
          && (s.client.stopped == None && s.down != [] ==> IsAuth(s.down[0])))
    && (s.client.authenticated ==> s.down != [] ==> !IsAuth(s.down[0]))
    && (forall i | 1 <= i < |s.down| :: !IsAuth(s.down[i]))
    && ((s.phase == Verified || s.phase == Reserved) ==> !s.client.authenticated && s.down == [] && !s.ready)
    && (s.phase == Greeted ==> !s.ready)
    && (s.phase == Gone ==> s.stopping)
    && ((s.phase == Greeted || s.phase == Serving) && !s.client.authenticated && s.client.stopped == None && !s.cut
        ==> s.down != [])
  }

  /** Which frames travel where. */
  predicate TrafficInv(s: Session) {
    && (forall f | f in s.client.queue :: Automatic(f))
    && (forall f | f in s.up :: Automatic(f) || f.Submit?)
    && (s.reply.Some? ==> IsReply(s.reply.value))
    && (s.client.response.Some? ==> s.client.response.value.Accepted? || s.client.response.value.NotAccepted?)
    && (forall f | f in s.down :: IsAuth(f) || f.Message? || IsReply(f))
  }

  /** One synchronization token and one foreground token at most. */
  predicate CountInv(s: Session) {
    && Load(s, Sync) <= (if s.client.active then 1 else 0)
    && Load(s, Foreground) <= (if s.client.awaiting then 1 else 0)
  }

  ghost predicate EntryOk(t: Tables, u: int, id: int, e: Entry) {
    match e
    case Incoming(d) => d.message.id == id && DeliveryOk(t, u, d)
    case Outgoing => OwnMessage(t, u, id)
  }

  ghost predicate IndexInv(t: Tables, s: Session) {
    forall id | id in s.client.index :: EntryOk(t, s.user, id, s.client.index[id])
  }

  predicate Holds(c: Client, id: int) {
    id in c.index && c.index[id].Incoming?
  }

  /** Acknowledged by a session other than `sid`. */
  predicate ByOther(acks: map<(int, int), nat>, sid: nat, u: int, id: int) {
    (id, u) in acks && acks[(id, u)] != sid
  }

  predicate InRecords(records: seq<Delivery>, id: int) {
    exists i :: 0 <= i < |records| && records[i].message.id == id
  }

  /** Where a goal message may be while the synchronization stands at cursor `after`. */
  predicate Reached(acks: map<(int, int), nat>, sid: nat, s: Session, id: int, after: int) {
    Holds(s.client, id) || ByOther(acks, sid, s.user, id) || id > after
  }

  ghost predicate PageOk(t: Tables, acks: map<(int, int), nat>, sid: nat, s: Session, p: Frame)
    requires p.PendingPage?
  {
    && PageFits(s.client, p)
    && (forall i | 0 <= i < |p.records| :: DeliveryOk(t, s.user, p.records[i]))
    && s.goal.Some? && s.goal.value.through == p.through
    && (forall id | id in s.goal.value.ids ::
          || Holds(s.client, id) || ByOther(acks, sid, s.user, id) || InRecords(p.records, id)
          || (p.hasMore && id > p.next))
  }

  /** What a frame on session `sid` may say. */
  ghost predicate FrameOk(t: Tables, acks: map<(int, int), nat>, sid: nat, s: Session, f: Frame) {
    match f
    case Message(d) => DeliveryOk(t, s.user, d)
    case AckOutcome(_, r) => !AckRefused(r)
    case DeliveryAck(id) => Holds(s.client, id) && (id, s.user) in t.recipients
    case PendingPage(_, _, _, _) => PageOk(t, acks, sid, s, f)
    case SyncRequest(after, upTo) =>
      && after == s.client.after && upTo == s.client.through && 0 <= after
      && (upTo.None? ==> after == 0)
      && (upTo.Some? ==> after <= upTo.value && s.goal.Some? && s.goal.value.through == upTo.value)
    case Accepted(id) => 0 < id && OwnMessage(t, s.user, id) && id !in s.client.index
    case _ => true
  }

  ghost predicate AllOk(t: Tables, acks: map<(int, int), nat>, sid: nat, s: Session, p: seq<Frame>) {
    forall f | f in p :: FrameOk(t, acks, sid, s, f)
  }

  ghost predicate FramesInv(t: Tables, acks: map<(int, int), nat>, sid: nat, s: Session) {
    && (s.client.response.Some? ==> FrameOk(t, acks, sid, s, s.client.response.value))
    && AllOk(t, acks, sid, s, s.down)
    && (s.reply.Some? ==> FrameOk(t, acks, sid, s, s.reply.value))
    && AllOk(t, acks, sid, s, s.up)
    && AllOk(t, acks, sid, s, s.client.queue)
  }

  ghost predicate JobInv(t: Tables, s: Session) {
    s.job.Some? ==> forall u | u in s.job.value.routes :: DeliveryOk(t, u, s.job.value.delivery)
  }

  /** The synchronization is over and every message of its goal is held, or was acknowledged
      by another session of the user. */
  predicate GoalMet(acks: map<(int, int), nat>, sid: nat, s: Session) {
    && !s.client.active && s.goal.Some?
    && forall id | id in s.goal.value.ids :: Holds(s.client, id) || ByOther(acks, sid, s.user, id)
  }

  /** The synchronization's goal: each of its messages is held, acknowledged by another session
      or still ahead of the cursor; none is ahead once it has completed. */
  ghost predicate GoalInv(t: Tables, acks: map<(int, int), nat>, sid: nat, s: Session) {
    && (!s.client.active ==> s.client.through == None)
    && (s.client.through.Some? ==> s.goal.Some? && s.client.through == Some(s.goal.value.through))
    && (s.goal.Some? ==> 0 <= s.goal.value.through <= MAX_INT64)
    && (s.goal.Some? ==> forall id | id in s.goal.value.ids ::
          && (id, s.user) in t.recipients && id <= s.goal.value.through
          && (s.client.active ==> Reached(acks, sid, s, id, s.client.after)))
    && (s.completed ==> GoalMet(acks, sid, s))
  }

  ghost predicate SessionInv(t: Tables, acks: map<(int, int), nat>, sid: nat, s: Session) {
    && IsUser(t, s.user)
    && AuthInv(s) && TrafficInv(s) && CountInv(s)
    && IndexInv(t, s) && FramesInv(t, acks, sid, s) && JobInv(t, s) && GoalInv(t, acks, sid, s)
  }

  predicate RegistryInv(y: System) {
    forall u | u in y.registry :: Running(y, y.registry[u]) && y.sessions[y.registry[u]].user == u
  }

  /** No loss: an acknowledged row was stored by a session of its recipient. */
  ghost predicate LossInv(y: System) {
    forall k | k in y.tables.recipients && y.tables.recipients[k].Some? ::
      && k in y.ackedBy && Running(y, y.ackedBy[k])
      && y.sessions[y.ackedBy[k]].user == k.1
      && Holds(y.sessions[y.ackedBy[k]].client, k.0)
  }

  /** Only acknowledged rows have an acknowledging session. */
  ghost predicate AckerInv(y: System) {
    forall k | k in y.ackedBy :: k in y.tables.recipients && y.tables.recipients[k].Some?
  }

  ghost predicate SessionsInv(y: System) {
    forall i | 0 <= i < |y.sessions| :: SessionInv(y.tables, y.ackedBy, i, y.sessions[i])
  }

  ghost predicate Inv(y: System) {
    && Consistent(y.tables)
    && RegistryInv(y) && LossInv(y) && AckerInv(y) && SessionsInv(y)
  }

  // ----- What the passing of time leaves true -----

  /** The acknowledger map only gains entries. */
  ghost predicate Extends(acks: map<(int, int), nat>, acks': map<(int, int), nat>) {
    forall k | k in acks :: k in acks' && acks'[k] == acks[k]
  }

  lemma DeliveryStays(t: Tables, t': Tables, u: int, d: Delivery)
    requires Evolves(t, t') && DeliveryOk(t, u, d)
    ensures DeliveryOk(t', u, d)
  {
    hide NextId;
    assert t'.users[d.message.senderId - 1] == t.users[d.message.senderId - 1];
  }

  lemma OwnStays(t: Tables, t': Tables, u: int, id: int)
    requires Evolves(t, t') && OwnMessage(t, u, id)
    ensures OwnMessage(t', u, id)
  {
    hide NextId;
    var m :| m in t.history && m.id == id && m.senderId == u;
    assert m in t'.history;
  }

  lemma FrameStays(t: Tables, acks: map<(int, int), nat>, t': Tables, acks': map<(int, int), nat>, sid: nat, s: Session, f: Frame)
    requires Evolves(t, t') && Extends(acks, acks') && FrameOk(t, acks, sid, s, f)
    ensures FrameOk(t', acks', sid, s, f)
  {
    match f
    case Message(d) => DeliveryStays(t, t', s.user, d);
    case PendingPage(_, _, _, _) =>
      hide PageFits, DeliveryOk;
      forall i | 0 <= i < |f.records|
        ensures DeliveryOk(t', s.user, f.records[i])
      {
        DeliveryStays(t, t', s.user, f.records[i]);
      }
    case Accepted(id) => OwnStays(t, t', s.user, id);
    case _ =>
  }

  lemma AllStay(t: Tables, acks: map<(int, int), nat>, t': Tables, acks': map<(int, int), nat>, sid: nat, s: Session, p: seq<Frame>)
    requires Evolves(t, t') && Extends(acks, acks') && AllOk(t, acks, sid, s, p)
    ensures AllOk(t', acks', sid, s, p)
  {
    hide Evolves, FrameOk;
    forall f | f in p
      ensures FrameOk(t', acks', sid, s, f)
    {
      FrameStays(t, acks, t', acks', sid, s, f);
    }
  }

  lemma FramesStay(t: Tables, acks: map<(int, int), nat>, t': Tables, acks': map<(int, int), nat>, sid: nat, s: Session)
    requires Evolves(t, t') && Extends(acks, acks') && FramesInv(t, acks, sid, s)
    ensures FramesInv(t', acks', sid, s)
  {
    hide Evolves, Extends, FrameOk, AllOk;
    if s.client.response.Some? { FrameStays(t, acks, t', acks', sid, s, s.client.response.value); }
    if s.reply.Some? { FrameStays(t, acks, t', acks', sid, s, s.reply.value); }
    AllStay(t, acks, t', acks', sid, s, s.down);
    AllStay(t, acks, t', acks', sid, s, s.up);
    AllStay(t, acks, t', acks', sid, s, s.client.queue);
  }

  lemma IndexStays(t: Tables, t': Tables, s: Session)
    requires Evolves(t, t') && IndexInv(t, s)
    ensures IndexInv(t', s)
  {
    hide Evolves, DeliveryOk, OwnMessage;
    forall id | id in s.client.index
      ensures EntryOk(t', s.user, id, s.client.index[id])
    {
      match s.client.index[id]
      case Incoming(d) => DeliveryStays(t, t', s.user, d);
      case Outgoing => OwnStays(t, t', s.user, id);
    }
  }

  lemma JobStays(t: Tables, t': Tables, s: Session)
    requires Evolves(t, t') && JobInv(t, s)
    ensures JobInv(t', s)
  {
    hide Evolves, DeliveryOk;
    if s.job.Some? {
      forall u | u in s.job.value.routes
        ensures DeliveryOk(t', u, s.job.value.delivery)
      {
        DeliveryStays(t, t', u, s.job.value.delivery);
      }
    }
  }

  lemma GoalStays(t: Tables, acks: map<(int, int), nat>, t': Tables, acks': map<(int, int), nat>, sid: nat, s: Session)
    requires Evolves(t, t') && Extends(acks, acks') && GoalInv(t, acks, sid, s)
    ensures GoalInv(t', acks', sid, s)
  {
    hide NextId;
  }

  /** A session that does nothing keeps its invariant while the tables evolve. */
  lemma SessionStays(t: Tables, acks: map<(int, int), nat>, t': Tables, acks': map<(int, int), nat>, sid: nat, s: Session)
    requires Evolves(t, t') && Extends(acks, acks') && SessionInv(t, acks, sid, s)
    ensures SessionInv(t', acks', sid, s)
  {
    assert IsUser(t', s.user) by { assert t.users <= t'.users; }
    hide Evolves, Extends, AuthInv, TrafficInv, CountInv, IndexInv, FramesInv, JobInv, GoalInv, IsUser;
    IndexStays(t, t', s);
    FramesStay(t, acks, t', acks', sid, s);
    JobStays(t, t', s);
    GoalStays(t, acks, t', acks', sid, s);
  }
}
