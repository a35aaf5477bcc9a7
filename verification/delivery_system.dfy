/** The whole delivery protocol as a state machine: the database, the session registry, every
    connection as two FIFO channels that may be cut, and the two ends of each connection.
    One event is one atomic step of one thread; any interleaving is a sequence of events. */
module DeliverySystem {
  import opened Prelude
  import opened Tables
  import opened ClientSync
  import PageWriter
  import HistoryPaging
  import LegacyImport

  /** Where the server's handler thread of a session stands. */
  datatype Phase = Verified | Reserved | Greeted | Serving | Gone

  /** A committed message still being routed: the recipients its handler has yet to visit. */
  datatype Job = Job(delivery: Delivery, routes: seq<int>)

  /** History variable: what was unacknowledged when the first page of the current
      synchronization was queried, and that page's watermark. */
  datatype Goal = Goal(ids: set<int>, through: int)

  datatype Session = Session(
    user: int,
    phase: Phase,
    ready: bool,
    stopping: bool,
    cut: bool,
    down: seq<Frame>,
    reply: Option<Frame>,
    up: seq<Frame>,
    job: Option<Job>,
    client: Client,
    goal: Option<Goal>,
    completed: bool)

  /** `ackedBy` is a history variable: the session whose acknowledgement was recorded. */
  datatype System = System(
    tables: Tables,
    registry: map<int, nat>,
    sessions: seq<Session>,
    ackedBy: map<(int, int), nat>)

  const START: System := System(EMPTY, map[], [], map[])

  datatype Event =
    | Register(name: Bytes)
    | CreateGroup(creator: Bytes, groupName: Bytes)
    | JoinGroup(member: Bytes, group: int)
    | ImportLegacy(clock: LegacyImport.Readings)
    | Connect(user: int)
    | Reserve(sid: nat)
    | Greet(sid: nat)
    | Publish(sid: nat)
    | Handle(sid: nat, now: Clock)
    | Reply(sid: nat)
    | Route(sid: nat)
    | Cleanup(sid: nat)
    | Crash
    | Cut(sid: nat, keepDown: nat, keepUp: nat)
    | StartPending(sid: nat)
    | SubmitMessage(sid: nat, body: Body)
    | Flush(sid: nat, written: bool)
    | Receive(sid: nat, handled: nat, interrupted: bool)
    | ConsumeResponse(sid: nat)
    | Quit(sid: nat)

  function NewSession(user: int): Session {
    Session(user, Verified, false, false, false, [], None, [], None, NEW_CLIENT, None, false)
  }

  predicate Running(y: System, sid: nat) {
    sid < |y.sessions|
  }

  function Update(y: System, sid: nat, s: Session): System
    requires Running(y, sid)
  {
    y.(sessions := y.sessions[sid := s])
  }

  /** `removeIfSame`. */
  function RemoveIfSame(registry: map<int, nat>, user: int, sid: nat): map<int, nat> {
    if user in registry && registry[user] == sid then registry - {user} else registry
  }

  function Push(channel: seq<Frame>, cut: bool, f: Frame): seq<Frame> {
    if cut then channel else channel + [f]
  }

  // ----- Admission: server.cpp, `authenticate` -----

  function ReserveStep(y: System, sid: nat): System
    requires Running(y, sid)
  {
    var s := y.sessions[sid];
    if s.phase != Verified then y
    else if s.user in y.registry then
      Update(y, sid, s.(phase := Gone, stopping := true, down := Push(s.down, s.cut, AuthFailure)))
    else
      Update(y, sid, s.(phase := Reserved)).(registry := y.registry[s.user := sid])
  }

  /** The success line is written before the session becomes findable. */
  function GreetStep(y: System, sid: nat): System
    requires Running(y, sid)
  {
    var s := y.sessions[sid];
    if s.phase != Reserved then y
    else if s.cut then
      Update(y, sid, s.(phase := Gone, stopping := true)).(registry := RemoveIfSame(y.registry, s.user, sid))
    else
      Update(y, sid, s.(phase := Greeted, down := s.down + [AuthSuccess]))
  }

  function PublishStep(y: System, sid: nat): System
    requires Running(y, sid)
  {
    var s := y.sessions[sid];
    if s.phase != Greeted then y
    else if s.user in y.registry && y.registry[s.user] == sid && !s.stopping then
      Update(y, sid, s.(phase := Serving, ready := true))
    else
      Update(y, sid, s.(phase := Gone, stopping := true)).(registry := RemoveIfSame(y.registry, s.user, sid))
  }

  // ----- Serving -----

  function UserName(t: Tables, u: int): Bytes
    requires IsUser(t, u)
  {
    t.users[u - 1]
  }

  function AcceptBody(t: Tables, sender: Bytes, body: Body, now: nat): (Tables, Acceptance) {
    match body
    case ToUser(receiver, content) => AcceptPrivate(t, sender, receiver, content, now)
    case ToGroup(group, content) => AcceptGroup(t, sender, group, content, now)
    case ToAll(content) => AcceptBroadcast(t, sender, content, now)
  }

  /** The ids a first pending page starts from. */
  function PendingIds(t: Tables, u: int): set<int> {
    set m | m in t.history && Visible(t, u, true, m) :: m.id
  }

  function PageFrame(r: PageWriter.Response): Frame {
    match r
    case PageResponse(records, through, next, hasMore) => PendingPage(records, through, next, hasMore)
    case _ => PendingRefused
  }

  function HandleAck(y: System, sid: nat, s: Session, id: int, now: nat): System
    requires Running(y, sid) && IsUser(y.tables, s.user)
  {
    var (t', r) := Acknowledge(y.tables, UserName(y.tables, s.user), id, now);
    Update(y, sid, s.(reply := Some(AckOutcome(id, r)))).(
      tables := t',
      ackedBy := if r == Acknowledged then y.ackedBy[(id, s.user) := sid] else y.ackedBy)
  }

  function HandleSync(y: System, sid: nat, s: Session, after: int, upTo: Option<int>): System
    requires Running(y, sid) && IsUser(y.tables, s.user) && Consistent(y.tables)
  {
    var t := y.tables;
    var page := FetchPage(t, UserName(t, s.user), after, upTo, SYNC_LIMIT, true);
    var r := PageWriter.Respond(PageWriter.SyncPending, after, page);
    var goal := if upTo.None? && r.PageResponse? then Some(Goal(PendingIds(t, s.user), r.through)) else s.goal;
    Update(y, sid, s.(reply := Some(PageFrame(r)), goal := goal))
  }

  function HandleSubmit(y: System, sid: nat, s: Session, body: Body, now: nat): System
    requires Running(y, sid) && IsUser(y.tables, s.user)
  {
    var (t', r) := AcceptBody(y.tables, UserName(y.tables, s.user), body, now);
    (match r
     case Accepted(d, recipients) =>
       Update(y, sid, s.(reply := Some(Frame.Accepted(d.message.id)), job := Some(Job(d, recipients))))
     case _ =>
       Update(y, sid, s.(reply := Some(NotAccepted)))).(tables := t')
  }

  /** The handler takes one request off its channel, unless it is still busy. */
  function HandleStep(y: System, sid: nat, now: nat): System
    requires Running(y, sid) && IsUser(y.tables, y.sessions[sid].user) && Consistent(y.tables)
  {
    var s := y.sessions[sid];
    if s.phase != Serving || s.reply.Some? || s.job.Some? || s.up == [] then y
    else
      var s' := s.(up := s.up[1..]);
      match s.up[0]
      case DeliveryAck(id) => HandleAck(y, sid, s', id, now)
      case SyncRequest(after, upTo) => HandleSync(y, sid, s', after, upTo)
      case Submit(body) => HandleSubmit(y, sid, s', body, now)
      case _ => Update(y, sid, s')
  }

  /** The handler writes its answer; a failed write stops the session. */
  function Replied(s: Session): Session {
    if s.reply.None? then s
    else if s.cut then s.(reply := None, stopping := true)
    else s.(reply := None, down := s.down + [s.reply.value])
  }

  /** `deliverCommittedMessage`, one recipient at a time. */
  function RouteStep(y: System, sid: nat): System
    requires Running(y, sid)
  {
    var s := y.sessions[sid];
    if s.reply.Some? || s.job.None? then y
    else if s.job.value.routes == [] then Update(y, sid, s.(job := None))
    else
      var d, u := s.job.value.delivery, s.job.value.routes[0];
      var y' := Update(y, sid, s.(job := Some(Job(d, s.job.value.routes[1..]))));
      Deliver(y', u, d)
  }

  /** `findReady` and the live write. */
  function Deliver(y: System, u: int, d: Delivery): System {
    if u !in y.registry || !Running(y, y.registry[u]) then y
    else
      var target := y.registry[u];
      var r := y.sessions[target];
      if !r.ready then y
      else if r.stopping then y.(registry := y.registry - {u})
      else if r.cut then Update(y, target, r.(stopping := true)).(registry := RemoveIfSame(y.registry, u, target))
      else Update(y, target, r.(down := r.down + [Message(d)]))
  }

  function CleanupStep(y: System, sid: nat): System
    requires Running(y, sid)
  {
    var s := y.sessions[sid];
    if s.phase != Serving || s.reply.Some? || s.job.Some? then y
    else Update(y, sid, s.(phase := Gone, stopping := true)).(registry := RemoveIfSame(y.registry, s.user, sid))
  }

  /** The server process ends: every handler, reply and unfinished routing is lost. */
  function Crashed(s: Session): Session {
    s.(phase := Gone, stopping := true, cut := true, reply := None, job := None)
  }

  function CrashStep(y: System): System {
    y.(registry := map[], sessions := seq(|y.sessions|, i requires 0 <= i < |y.sessions| => Crashed(y.sessions[i])))
  }

  function Keep(channel: seq<Frame>, n: nat): seq<Frame> {
    if n < |channel| then channel[..n] else channel
  }

  /** The connection breaks; what is in flight arrives up to some point only. */
  function CutAt(s: Session, keepDown: nat, keepUp: nat): Session {
    s.(cut := true, down := Keep(s.down, keepDown), up := Keep(s.up, keepUp))
  }

  // ----- The client -----

  predicate Live(s: Session) {
    s.client.authenticated && s.client.stopped == None
  }

  function Started(s: Session): Session {
    if !Live(s) || s.client.active then s
    else s.(client := StartSync(s.client), goal := None, completed := false)
  }

  /** One foreground request at a time: the next waits until the last is answered. */
  function Submitted(s: Session, body: Body): Session {
    if !Live(s) || s.client.awaiting then s
    else s.(client := s.client.(awaiting := true), up := Push(s.up, s.cut, Submit(body)))
  }

  function Flushed(s: Session, written: bool): Session {
    if !Live(s) || s.client.queue == [] then s
    else
      var c := s.client.(queue := s.client.queue[1..]);
      if !written then s.(client := Stop(c, Stopped))
      else s.(client := c, up := Push(s.up, s.cut, s.client.queue[0]))
  }

  function Received(s: Session, handled: nat, interrupted: bool): Session {
    if s.client.stopped.Some? || s.down == [] then s
    else
      var c := Dispatch(s.client, s.down[0], handled, interrupted);
      s.(down := s.down[1..],
         client := c,
         completed := s.completed || (s.client.active && !c.active && c.stopped == None))
  }

  function Consumed(s: Session): Session {
    if !Live(s) || s.client.response.None? then s
    else s.(client := Consume(s.client))
  }

  function HasQuit(s: Session): Session {
    s.(client := Stop(s.client, Stopped))
  }

  // ----- One event -----

  /** Whether every session belongs to a registered user, and the tables are consistent. */
  predicate Sane(y: System) {
    Consistent(y.tables) && forall i | 0 <= i < |y.sessions| :: IsUser(y.tables, y.sessions[i].user)
  }

  /** A transaction of no session. */
  predicate Transaction(e: Event) {
    e.Register? || e.CreateGroup? || e.JoinGroup? || e.ImportLegacy?
  }

  function ChangeOf(e: Event): HistoryPaging.Change
    requires Transaction(e)
  {
    match e
    case Register(name) => HistoryPaging.NewUser(name)
    case CreateGroup(creator, name) => HistoryPaging.NewGroup(creator, name)
    case JoinGroup(member, group) => HistoryPaging.Join(member, group)
    case ImportLegacy(clock) => HistoryPaging.ImportOld(clock)
  }

  /** An event of one session. */
  predicate OfSession(e: Event) {
    !Transaction(e) && !e.Connect? && !e.Crash?
  }

  /** The system after an event; an event that is not enabled changes nothing. */
  function Apply(y: System, e: Event): System
    requires Sane(y)
  {
    if Transaction(e) then y.(tables := HistoryPaging.Perform(y.tables, ChangeOf(e)))
    else if e.Connect? then (if IsUser(y.tables, e.user) then y.(sessions := y.sessions + [NewSession(e.user)]) else y)
    else if e.Crash? then CrashStep(y)
    else if Running(y, e.sid) then ApplySession(y, e)
    else y
  }

  function ApplySession(y: System, e: Event): System
    requires Sane(y)
    requires OfSession(e)
    requires Running(y, e.sid)
  {
    match e
    case Reserve(sid) => ReserveStep(y, sid)
    case Greet(sid) => GreetStep(y, sid)
    case Publish(sid) => PublishStep(y, sid)
    case Handle(sid, now) => HandleStep(y, sid, now)
    case Reply(sid) => Update(y, sid, Replied(y.sessions[sid]))
    case Route(sid) => RouteStep(y, sid)
    case Cleanup(sid) => CleanupStep(y, sid)
    case Cut(sid, keepDown, keepUp) => Update(y, sid, CutAt(y.sessions[sid], keepDown, keepUp))
    case StartPending(sid) => Update(y, sid, Started(y.sessions[sid]))
    case SubmitMessage(sid, body) => Update(y, sid, Submitted(y.sessions[sid], body))
    case Flush(sid, written) => Update(y, sid, Flushed(y.sessions[sid], written))
    case Receive(sid, handled, interrupted) => Update(y, sid, Received(y.sessions[sid], handled, interrupted))
    case ConsumeResponse(sid) => Update(y, sid, Consumed(y.sessions[sid]))
    case Quit(sid) => Update(y, sid, HasQuit(y.sessions[sid]))
  }
}
