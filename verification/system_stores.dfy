/** The delivery protocol with the real session stores: every client stores what it receives in
    a message buffer, whose room decides how much of a page it takes, and reserves and commits
    what it sends. The protocol's id index is what these stores amount to, so everything proved
    of the protocol holds of the stores. */
module SystemStores {
  import opened Prelude
  import opened Tables
  import opened ClientSync
  import opened DeliverySystem
  import opened DeliveryRuns
  import B = BufferState
  import BufferInvariant
  import BufferContents
  import BufferHandles
  import BufferIndex
  import DeliveryInvariant
  import ClientLaws
  import ClientSteps
  import DeliveryTheorems
  import SyncCompleteness
  import HistoryPaging
  import UiDiscipline
  import UiState

  // ----- One frame -----

  /** Records handed to the store one by one, up to the first that has no room or conflicts;
      the number counts those the store has looked at and had room for. */
  function TakeEach(b: B.Buffer, records: seq<Delivery>): (r: (B.Buffer, nat))
    ensures r.1 <= |records|
    decreases |records|
  {
    if records == [] then (b, 0)
    else
      var (b', r) := B.Receive(b, records[0]);
      if r == B.CapacityExceeded then (b, 0)
      else if r == B.Conflict then (b, 1)
      else
        var (last, n) := TakeEach(b', records[1..]);
        (last, n + 1)
  }

  /** What reading a frame does to the store, and how many of its records are handled before
      the store is full or another thread stops the client. */
  function TakeFrame(b: B.Buffer, c: Client, f: Frame, handed: nat): (B.Buffer, nat) {
    if !c.authenticated then (b, 0)
    else
      match f
      case Message(d) =>
        if !WellFormed(d) then (b, 0)
        else
          var (b', r) := B.Receive(b, d);
          if r == B.CapacityExceeded then (b, 0) else (b', 1)
      case PendingPage(records, _, _, _) =>
        if !PageFits(c, f) then (b, 0)
        else TakeEach(b, records[..if handed < |records| then handed else |records|])
      case _ => (b, 0)
  }

  /** A store in which every guarantee holds, seen by the protocol as the client's index, and
      holding a reservation exactly while an answer is awaited. */
  ghost predicate Matches(b: B.Buffer, c: Client) {
    UiDiscipline.StoreOk(b) && BufferIndex.Index(b) == c.index && (b.reserved.Some? <==> c.awaiting)
  }

  lemma ReceiveMoves(b: B.Buffer, d: Delivery)
    requires UiDiscipline.StoreOk(b)
    ensures UiDiscipline.StoreOk(B.Receive(b, d).0) && B.Receive(b, d).0.reserved == b.reserved
  {
    hide UiDiscipline.StoreOk, B.Receive, BufferHandles.HandlesStay;
    UiDiscipline.ReceiveOk(b, d);
  }

  lemma {:induction false} TakeEachRefines(b: B.Buffer, records: seq<Delivery>)
    requires UiDiscipline.StoreOk(b) && forall d | d in records :: WellFormed(d)
    ensures var (b', n) := TakeEach(b, records);
      && UiDiscipline.StoreOk(b') && b'.reserved == b.reserved
      && BufferIndex.Index(b') == StoreEach(BufferIndex.Index(b), records[..n]).0
    decreases |records|
  {
    hide UiDiscipline.StoreOk, B.Receive, BufferIndex.Index, WellFormed, StoreOne, BufferInvariant.Valid;
    StoreIsValid(b);
    if records != [] {
      assert records[0] in records;
      var (b', r) := B.Receive(b, records[0]);
      ReceiveMoves(b, records[0]);
      BufferIndex.ReceiveRefines(b, records[0]);
      KnownStays(BufferIndex.Index(b), records[0]);
      assert records[..1] == [records[0]] && records[..1][1..] == [];
      if r != B.CapacityExceeded && r != B.Conflict {
        StoreIsValid(b');
        TakeEachRefines(b', records[1..]);
        OneMoreTaken(records, TakeEach(b', records[1..]).1);
      }
    }
  }

  /** Records are handed over until one finds no room or contradicts what is stored. */
  lemma {:induction false} TakenUntilRefused(b: B.Buffer, records: seq<Delivery>)
    ensures var (b', n) := TakeEach(b, records);
      n < |records| ==>
        || B.Receive(b', records[n]).1 == B.CapacityExceeded
        || (n > 0 && B.Receive(b', records[n - 1]).1 == B.Conflict)
    decreases |records|
  {
    hide B.Receive;
    if records != [] {
      TakenUntilRefused(B.Receive(b, records[0]).0, records[1..]);
      if B.Receive(b, records[0]).1 == B.Conflict {
        BufferInvariant.ReceiveOtherwise(b, records[0]);
      }
    }
  }

  /** A live message is handed to the store unless it is malformed or finds no room; the records
      of a page that passes its tests are, up to the first that finds no room or contradicts,
      or to where another thread stops the client. */
  lemma FramesAreHandedOver(b: B.Buffer, c: Client, f: Frame, handed: nat)
    requires c.authenticated
    ensures f.Message? ==>
      (TakeFrame(b, c, f, handed).1 == 0 <==> !WellFormed(f.delivery) || B.Receive(b, f.delivery).1 == B.CapacityExceeded)
    ensures f.Message? && WellFormed(f.delivery) && B.Receive(b, f.delivery).1 != B.CapacityExceeded ==>
      TakeFrame(b, c, f, handed).0 == B.Receive(b, f.delivery).0
    ensures f.PendingPage? && PageFits(c, f) ==>
      var (b', n) := TakeFrame(b, c, f, handed);
      n < |f.records| && n < handed ==>
        || B.Receive(b', f.records[n]).1 == B.CapacityExceeded
        || (n > 0 && B.Receive(b', f.records[n - 1]).1 == B.Conflict)
  {
    hide B.Receive, PageFits, WellFormed, TakeEach;
    if f.PendingPage? {
      TakenUntilRefused(b, f.records[..if handed < |f.records| then handed else |f.records|]);
    }
  }

  lemma StoreIsValid(b: B.Buffer)
    requires UiDiscipline.StoreOk(b)
    ensures BufferInvariant.Valid(b)
  {
  }

  lemma OneMoreTaken(records: seq<Delivery>, n: nat)
    requires records != [] && n < |records|
    ensures records[..n + 1][0] == records[0] && records[..n + 1][1..] == records[1..][..n]
  {
  }

  lemma KnownStays(index: map<int, Entry>, d: Delivery)
    ensures var (index', s) := StoreOne(index, d);
      s != StoreResult.Stored ==> index' == index
  {
  }

  lemma FrameRefines(b: B.Buffer, c: Client, f: Frame, handed: nat, interrupted: bool)
    requires Matches(b, c)
    ensures var (b', n) := TakeFrame(b, c, f, handed);
      Matches(b', Dispatch(c, f, n, interrupted))
  {
    hide UiDiscipline.StoreOk, BufferIndex.Index, WellFormed, PageFits, BufferInvariant.Valid;
    StoreIsValid(b);
    if c.authenticated {
      match f
      case Message(d) => MessageRefines(b, c, d, interrupted);
      case PendingPage(_, _, _, _) => PageRefines(b, c, f, handed, interrupted);
      case _ =>
    }
  }

  lemma MessageRefines(b: B.Buffer, c: Client, d: Delivery, interrupted: bool)
    requires Matches(b, c) && c.authenticated
    ensures var (b', n) := TakeFrame(b, c, Message(d), 0);
      Matches(b', ReceiveMessage(c, d, n > 0, interrupted))
  {
    hide UiDiscipline.StoreOk, BufferIndex.Index, WellFormed, B.Receive, StoreOne, BufferInvariant.Valid;
    StoreIsValid(b);
    if WellFormed(d) {
      ReceiveMoves(b, d);
      BufferIndex.ReceiveRefines(b, d);
      KnownStays(c.index, d);
    }
  }

  lemma PageRefines(b: B.Buffer, c: Client, f: Frame, handed: nat, interrupted: bool)
    requires Matches(b, c) && c.authenticated && f.PendingPage?
    ensures var (b', n) := TakeFrame(b, c, f, handed);
      Matches(b', ReceivePage(c, f, n, interrupted))
  {
    hide UiDiscipline.StoreOk, BufferIndex.Index, WellFormed, TakeEach, StoreEach, BufferInvariant.Valid, PageFits;
    StoreIsValid(b);
    if PageFits(c, f) {
      var k := if handed < |f.records| then handed else |f.records|;
      PageIsWellFormed(c, f);
      var some := f.records[..k];
      assert forall d | d in some :: d in f.records;
      TakeEachRefines(b, some);
      var n := TakeEach(b, some).1;
      assert some[..n] == f.records[..n];
    }
  }

  lemma PageIsWellFormed(c: Client, f: Frame)
    requires f.PendingPage? && PageFits(c, f)
    ensures forall d | d in f.records :: WellFormed(d)
  {
    hide WellFormed;
    AscendsIff(f.records, c.after, f.through);
  }

  // ----- An answer, a submission -----

  /** Taking an answer: an accepted message is committed, a refused one is given up. When the
      store's counters are exhausted the client stops. */
  function TakeAnswer(b: B.Buffer, c: Client, sid: nat): (B.Buffer, Event)
    requires b.reserved.Some? ==> b.reserved.value.key in b.conversations
  {
    match c.response
    case Some(Accepted(id)) =>
      var (b', r) := B.Commit(b, id);
      if r == B.InsertResult.Stored then (b', ConsumeResponse(sid))
      else if id <= 0 || id in c.index then (b, ConsumeResponse(sid))
      else (b, Quit(sid))
    case _ => (B.Cancel(b), ConsumeResponse(sid))
  }

  lemma AnswerRefines(b: B.Buffer, s: Session, sid: nat)
    requires Matches(b, s.client) && Live(s) && s.client.response.Some?
    requires b.reserved.Some? ==> b.reserved.value.key in b.conversations
    ensures var (b', e) := TakeAnswer(b, s.client, sid);
      Matches(b', if e == ConsumeResponse(sid) then Consumed(s).client else HasQuit(s).client)
  {
    hide Matches, B.Commit, B.Cancel;
    if s.client.response.value.Accepted? {
      AcceptedRefines(b, s, s.client.response.value.id);
    } else {
      GivenUpRefines(b, s.client);
    }
  }

  lemma AcceptedRefines(b: B.Buffer, s: Session, id: int)
    requires Matches(b, s.client) && Live(s) && s.client.response == Some(Frame.Accepted(id))
    requires b.reserved.Some? ==> b.reserved.value.key in b.conversations
    ensures B.Commit(b, id).1 == B.InsertResult.Stored ==> Matches(B.Commit(b, id).0, Consumed(s).client)
    ensures B.Commit(b, id).1 != B.InsertResult.Stored && (id <= 0 || id in s.client.index) ==> Matches(b, Consumed(s).client)
    ensures Matches(b, HasQuit(s).client)
  {
    hide Matches, B.Commit;
    if B.Commit(b, id).1 == B.InsertResult.Stored {
      CommitMatches(b, s.client, id);
    }
    StopMatches(b, s.client);
  }

  lemma CommitMatches(b: B.Buffer, c: Client, id: int)
    requires Matches(b, c)
    requires b.reserved.Some? ==> b.reserved.value.key in b.conversations
    requires B.Commit(b, id).1 == B.InsertResult.Stored
    ensures 0 < id && id !in c.index
    ensures Matches(B.Commit(b, id).0, c.(index := c.index[id := Outgoing], awaiting := false, response := None))
  {
    hide UiDiscipline.StoreOk, BufferIndex.Index, B.Commit, BufferInvariant.Valid, BufferHandles.HandlesStay;
    StoreIsValid(b);
    BufferIndex.CommitRefines(b, id);
    UiDiscipline.CommitOk(b, id);
    CommitsPositive(b, id);
  }

  lemma StopMatches(b: B.Buffer, c: Client)
    requires Matches(b, c)
    ensures forall reason :: Matches(b, Stop(c, reason))
  {
    hide UiDiscipline.StoreOk, BufferIndex.Index, BufferInvariant.Valid;
  }

  lemma GivenUpRefines(b: B.Buffer, c: Client)
    requires Matches(b, c)
    ensures Matches(B.Cancel(b), c.(awaiting := false, response := None))
  {
    hide UiDiscipline.StoreOk, BufferIndex.Index, B.Cancel, BufferInvariant.Valid, BufferHandles.HandlesStay;
    StoreIsValid(b);
    UiDiscipline.CancelOk(b);
    StoreIsValid(B.Cancel(b));
    CancelKeepsIndex(b);
  }

  lemma CommitsPositive(b: B.Buffer, id: int)
    requires b.reserved.Some? ==> b.reserved.value.key in b.conversations
    ensures B.Commit(b, id).1 == B.InsertResult.Stored ==> 0 < id
  {
  }

  lemma CancelKeepsIndex(b: B.Buffer)
    requires BufferInvariant.Valid(b) && BufferInvariant.Valid(B.Cancel(b))
    ensures BufferIndex.Index(B.Cancel(b)) == BufferIndex.Index(b)
  {
    SameIndex(b, B.Cancel(b));
  }

  lemma SameIndex(b: B.Buffer, b': B.Buffer)
    requires BufferInvariant.Valid(b) && BufferInvariant.Valid(b') && b'.byId == b.byId
    ensures BufferIndex.Index(b') == BufferIndex.Index(b)
  {
    hide BufferInvariant.Valid;
    BufferIndex.IndexedAreOk(b);
  }

  /** The request a conversation's draft makes. */
  function BodyOf(key: B.Key, content: Bytes): Body {
    match key
    case PrivateChat(receiver) => ToUser(receiver, content)
    case GroupChat(group) => ToGroup(group, content)
    case BroadcastChat => ToAll(content)
  }

  // ----- The whole system -----

  /** The protocol's system, the store of each of its clients, and the protocol events so far. */
  datatype Joint = Joint(system: System, stores: seq<B.Buffer>, trace: seq<Event>)

  datatype Act =
    | ProtocolEvent(event: Event)
    | Read(sid: nat, handed: nat, interrupted: bool)
    | Answer(sid: nat)
    | Send(sid: nat, key: B.Key, content: Bytes)
    | OpenConversation(sid: nat, key: B.Key)
    | View(sid: nat, key: B.Key, through: nat)

  /** Events that leave every client's stored messages alone. */
  predicate LeavesStores(e: Event) {
    !e.Receive? && !e.ConsumeResponse? && !e.SubmitMessage?
  }

  /** The client stores match the protocol's clients, and the protocol has run its events. */
  ghost predicate JointOk(j: Joint) {
    && j.system == Reach(j.trace)
    && |j.stores| == |j.system.sessions|
    && forall i | 0 <= i < |j.stores| :: Matches(j.stores[i], j.system.sessions[i].client)
  }

  /** The protocol takes an event; the store of session `sid` becomes `b`. */
  function Stepped(j: Joint, e: Event, sid: nat, b: B.Buffer): Joint
    requires Sane(j.system) && sid < |j.stores|
  {
    Joint(Apply(j.system, e), j.stores[sid := b], j.trace + [e])
  }

  /** One atomic step. What the interface must see to is a condition of the step: a reservation
      is made on an open conversation, none is opened beside a reservation. */
  ghost function Advance(j: Joint, a: Act): (j': Joint)
    requires JointOk(j)
    ensures JointOk(j')
  {
    match a
    case ProtocolEvent(e) => if LeavesStores(e) then OnProtocol(j, e) else j
    case Read(sid, handed, interrupted) => if sid < |j.stores| then OnRead(j, sid, handed, interrupted) else j
    case Answer(sid) => if sid < |j.stores| then OnAnswer(j, sid) else j
    case Send(sid, key, content) => if sid < |j.stores| then OnSend(j, sid, key, content) else j
    case OpenConversation(sid, key) => if sid < |j.stores| then OnOpen(j, sid, key) else j
    case View(sid, key, through) => if sid < |j.stores| then OnView(j, sid, key, through) else j
  }

  ghost function OnProtocol(j: Joint, e: Event): (j': Joint)
    requires JointOk(j) && LeavesStores(e)
    ensures JointOk(j')
  {
    ProtocolMatches(j, e);
    Joint(Apply(j.system, e), NewStores(j.stores, |Apply(j.system, e).sessions|), j.trace + [e])
  }

  ghost function OnRead(j: Joint, sid: nat, handed: nat, interrupted: bool): (j': Joint)
    requires JointOk(j) && sid < |j.stores|
    ensures JointOk(j')
  {
    var s := j.system.sessions[sid];
    if s.down == [] || s.client.stopped.Some? then j
    else
      var (b, n) := TakeFrame(j.stores[sid], s.client, s.down[0], handed);
      ReadMatches(j, sid, handed, interrupted);
      Stepped(j, Receive(sid, n, interrupted), sid, b)
  }

  ghost function OnAnswer(j: Joint, sid: nat): (j': Joint)
    requires JointOk(j) && sid < |j.stores|
    ensures JointOk(j')
  {
    var s := j.system.sessions[sid];
    if !Live(s) || s.client.response.None? then j
    else
      ReservedIsOpen(j.stores[sid], s.client);
      var (b, e) := TakeAnswer(j.stores[sid], s.client, sid);
      AnswerMatches(j, sid);
      Stepped(j, e, sid, b)
  }

  ghost function OnSend(j: Joint, sid: nat, key: B.Key, content: Bytes): (j': Joint)
    requires JointOk(j) && sid < |j.stores|
    ensures JointOk(j')
  {
    if !CanSend(j.stores[sid], j.system.sessions[sid], key) then j
    else
      SenderIsUser(j, sid);
      var name := UserName(j.system.tables, j.system.sessions[sid].user);
      var (b, r) := B.Reserve(j.stores[sid], key, name, content);
      SendMatches(j, sid, key, name, content);
      if r != B.InsertResult.Stored then j else Stepped(j, SubmitMessage(sid, BodyOf(key, content)), sid, b)
  }

  ghost function OnOpen(j: Joint, sid: nat, key: B.Key): (j': Joint)
    requires JointOk(j) && sid < |j.stores|
    ensures JointOk(j')
  {
    if j.stores[sid].reserved.Some? then j
    else
      OpenMatches(j, sid, key);
      j.(stores := j.stores[sid := B.Ensure(j.stores[sid], key).0])
  }

  ghost function OnView(j: Joint, sid: nat, key: B.Key, through: nat): (j': Joint)
    requires JointOk(j) && sid < |j.stores|
    ensures JointOk(j')
  {
    ViewMatches(j, sid, key, through);
    j.(stores := j.stores[sid := B.MarkViewed(j.stores[sid], key, through).0])
  }

  predicate CanSend(b: B.Buffer, s: Session, key: B.Key) {
    Live(s) && !s.client.awaiting && b.reserved == None && key in b.conversations
  }

  /** A new connection starts with an empty store. */
  function NewStores(stores: seq<B.Buffer>, n: nat): seq<B.Buffer> {
    stores + seq(if n > |stores| then n - |stores| else 0, _ => B.NEW_BUFFER)
  }

  lemma ReservedIsOpen(b: B.Buffer, c: Client)
    requires Matches(b, c)
    ensures b.reserved.Some? ==> b.reserved.value.key in b.conversations
  {
  }

  lemma OneMoreEvent(j: Joint, e: Event)
    requires j.system == Reach(j.trace)
    ensures Apply(j.system, e) == Reach(j.trace + [e])
  {
    StartSane();
    hide Sane, Apply;
    RunAppend(START, j.trace, [e]);
    StepSane(j.system, e);
    assert Run(Apply(j.system, e), [e][1..]) == Apply(j.system, e);
  }

  // ----- Each step keeps the match -----

  /** Old clients keep their index and whether they await an answer; new ones are new. */
  predicate ClientsKept(y: System, y': System) {
    && |y.sessions| <= |y'.sessions|
    && (forall i | 0 <= i < |y.sessions| :: IndexKept(y.sessions[i].client, y'.sessions[i].client))
    && (forall i | |y.sessions| <= i < |y'.sessions| :: y'.sessions[i].client == NEW_CLIENT)
  }

  predicate IndexKept(c: Client, c': Client) {
    c'.index == c.index && c'.awaiting == c.awaiting
  }

  lemma CutKeepsIndex(s: Session, keepDown: nat, keepUp: nat)
    ensures IndexKept(s.client, CutAt(s, keepDown, keepUp).client)
  {
  }

  lemma FlushKeepsIndex(s: Session, written: bool)
    ensures IndexKept(s.client, Flushed(s, written).client)
  {
  }

  lemma StartKeepsIndex(s: Session)
    ensures IndexKept(s.client, Started(s).client) && IndexKept(s.client, HasQuit(s).client)
  {
  }

  lemma UpdateKeeps(y: System, sid: nat, s': Session)
    requires Running(y, sid) && IndexKept(y.sessions[sid].client, s'.client)
    ensures ClientsKept(y, Update(y, sid, s'))
  {
  }

  lemma OwnEventKeeps(y: System, e: Event)
    requires e.Cut? || e.StartPending? || e.Flush? || e.Quit?
    requires Sane(y) && Running(y, e.sid)
    ensures ClientsKept(y, ApplySession(y, e))
  {
    hide Sane, Started, Flushed, HasQuit, CutAt, ClientsKept, IndexKept, Update;
    var s := y.sessions[e.sid];
    if e.Cut? {
      CutKeepsIndex(s, e.keepDown, e.keepUp);
      UpdateKeeps(y, e.sid, CutAt(s, e.keepDown, e.keepUp));
    } else if e.Flush? {
      FlushKeepsIndex(s, e.written);
      UpdateKeeps(y, e.sid, Flushed(s, e.written));
    } else {
      StartKeepsIndex(s);
      UpdateKeeps(y, e.sid, if e.StartPending? then Started(s) else HasQuit(s));
    }
  }

  lemma SessionEventKeeps(y: System, e: Event)
    requires OfSession(e)
    requires Sane(y) && Running(y, e.sid) && LeavesStores(e)
    ensures ClientsKept(y, ApplySession(y, e))
  {
    hide Sane, HandleStep;
    if e.Handle? {
      HandleIsLocal(y, e.sid, e.now);
    } else if e.Reserve? || e.Greet? || e.Publish? || e.Reply? || e.Route? || e.Cleanup? {
      ServerEventKeepsClients(y, e);
      hide ApplySession;
    } else {
      OwnEventKeeps(y, e);
    }
  }

  lemma EventKeeps(y: System, e: Event)
    requires Sane(y) && LeavesStores(e)
    ensures ClientsKept(y, Apply(y, e))
  {
    hide Consistent, ApplySession, HistoryPaging.Perform, ChangeOf;
    if OfSession(e) && Running(y, e.sid) {
      SessionEventKeeps(y, e);
    }
  }

  lemma ProtocolMatches(j: Joint, e: Event)
    requires JointOk(j) && LeavesStores(e)
    ensures JointOk(Joint(Apply(j.system, e), NewStores(j.stores, |Apply(j.system, e).sessions|), j.trace + [e]))
  {
    hide Sane, Apply, Reach, UiDiscipline.StoreOk, BufferIndex.Index, BufferInvariant.Valid;
    assert Sane(j.system);
    OneMoreEvent(j, e);
    EventKeeps(j.system, e);
    NewMatches();
  }

  lemma NewMatches()
    ensures Matches(B.NEW_BUFFER, NEW_CLIENT)
  {
    UiDiscipline.StartOk([]);
    UiDiscipline.StoreOfUi(UiState.Start([]));
    hide UiDiscipline.StoreOk;
    StoreIsValid(B.NEW_BUFFER);
  }

  /** A step of one client and its store. */
  lemma SteppedMatches(j: Joint, e: Event, sid: nat, b: B.Buffer)
    requires JointOk(j) && sid < |j.stores|
    requires |Apply(j.system, e).sessions| == |j.system.sessions|
    requires Apply(j.system, e).sessions == j.system.sessions[sid := Apply(j.system, e).sessions[sid]]
    requires Matches(b, Apply(j.system, e).sessions[sid].client)
    ensures JointOk(Stepped(j, e, sid, b))
  {
    hide Sane, Matches, Apply, Reach;
    OneMoreEvent(j, e);
  }

  lemma ReadMatches(j: Joint, sid: nat, handed: nat, interrupted: bool)
    requires JointOk(j) && sid < |j.stores|
    requires j.system.sessions[sid].down != [] && j.system.sessions[sid].client.stopped == None
    ensures var s := j.system.sessions[sid];
      var (b, n) := TakeFrame(j.stores[sid], s.client, s.down[0], handed);
      JointOk(Stepped(j, Receive(sid, n, interrupted), sid, b))
  {
    hide Sane, Matches, TakeFrame, Dispatch, Reach;
    var s := j.system.sessions[sid];
    var (b, n) := TakeFrame(j.stores[sid], s.client, s.down[0], handed);
    FrameRefines(j.stores[sid], s.client, s.down[0], handed, interrupted);
    SteppedMatches(j, Receive(sid, n, interrupted), sid, b);
  }

  lemma AnswerMatches(j: Joint, sid: nat)
    requires JointOk(j) && sid < |j.stores|
    requires Live(j.system.sessions[sid]) && j.system.sessions[sid].client.response.Some?
    requires var b := j.stores[sid]; b.reserved.Some? ==> b.reserved.value.key in b.conversations
    ensures var (b, e) := TakeAnswer(j.stores[sid], j.system.sessions[sid].client, sid);
      JointOk(Stepped(j, e, sid, b))
  {
    hide Sane, Matches, Consumed, HasQuit, Reach, B.Commit, B.Cancel;
    var s := j.system.sessions[sid];
    var (b, e) := TakeAnswer(j.stores[sid], s.client, sid);
    AnswerRefines(j.stores[sid], s, sid);
    assert e == ConsumeResponse(sid) || e == Quit(sid);
    hide TakeAnswer;
    SteppedMatches(j, e, sid, b);
  }

  lemma SenderIsUser(j: Joint, sid: nat)
    requires JointOk(j) && sid < |j.stores|
    ensures IsUser(j.system.tables, j.system.sessions[sid].user)
  {
    hide Matches, Reach, Consistent;
  }

  lemma SendMatches(j: Joint, sid: nat, key: B.Key, name: Bytes, content: Bytes)
    requires JointOk(j) && sid < |j.stores| && CanSend(j.stores[sid], j.system.sessions[sid], key)
    ensures var (b, r) := B.Reserve(j.stores[sid], key, name, content);
      r == B.InsertResult.Stored ==> JointOk(Stepped(j, SubmitMessage(sid, BodyOf(key, content)), sid, b))
  {
    hide Sane, Matches, Reach, B.Reserve, Consistent, BodyOf, Submitted;
    var s := j.system.sessions[sid];
    var (b, r) := B.Reserve(j.stores[sid], key, name, content);
    if r == B.InsertResult.Stored {
      ReserveMatches(j.stores[sid], s, key, name, content);
      SteppedMatches(j, SubmitMessage(sid, BodyOf(key, content)), sid, b);
    }
  }

  lemma ReserveMatches(b: B.Buffer, s: Session, key: B.Key, name: Bytes, content: Bytes)
    requires Matches(b, s.client) && CanSend(b, s, key) && B.Reserve(b, key, name, content).1 == B.InsertResult.Stored
    ensures Matches(B.Reserve(b, key, name, content).0, Submitted(s, BodyOf(key, content)).client)
  {
    hide UiDiscipline.StoreOk, BufferIndex.Index, BufferInvariant.Valid, BufferHandles.HandlesStay, BodyOf, B.Reserve;
    UiDiscipline.ReserveOk(b, key, name, content);
    ReserveStoresNothing(b, key, name, content);
    var b' := B.Reserve(b, key, name, content).0;
    StoreIsValid(b);
    StoreIsValid(b');
    SameIndex(b, b');
  }

  lemma ReserveStoresNothing(b: B.Buffer, key: B.Key, name: Bytes, content: Bytes)
    ensures B.Reserve(b, key, name, content).0.byId == b.byId
  {
  }

  /** The store of a session changes and the protocol does not move. */
  lemma StoreMatches(j: Joint, sid: nat, b: B.Buffer)
    requires JointOk(j) && sid < |j.stores| && SameStored(j.stores[sid], b)
    requires UiDiscipline.StoreOk(b)
    ensures JointOk(j.(stores := j.stores[sid := b]))
  {
    hide UiDiscipline.StoreOk, BufferIndex.Index, Reach;
    StoreIsValid(j.stores[sid]);
    StoreIsValid(b);
    SameIndex(j.stores[sid], b);
  }

  predicate SameStored(b: B.Buffer, b': B.Buffer) {
    b'.byId == b.byId && b'.reserved == b.reserved
  }

  lemma OpenMatches(j: Joint, sid: nat, key: B.Key)
    requires JointOk(j) && sid < |j.stores| && j.stores[sid].reserved == None
    ensures JointOk(j.(stores := j.stores[sid := B.Ensure(j.stores[sid], key).0]))
  {
    hide UiDiscipline.StoreOk, BufferIndex.Index, Reach, B.Ensure, BufferHandles.HandlesStay;
    UiDiscipline.EnsureOk(j.stores[sid], key);
    EnsureStoresNothing(j.stores[sid], key);
    StoreMatches(j, sid, B.Ensure(j.stores[sid], key).0);
  }

  lemma EnsureStoresNothing(b: B.Buffer, key: B.Key)
    ensures SameStored(b, B.Ensure(b, key).0)
  {
  }

  lemma ViewMatches(j: Joint, sid: nat, key: B.Key, through: nat)
    requires JointOk(j) && sid < |j.stores|
    ensures JointOk(j.(stores := j.stores[sid := B.MarkViewed(j.stores[sid], key, through).0]))
  {
    hide UiDiscipline.StoreOk, BufferIndex.Index, Reach, B.MarkViewed, BufferHandles.HandlesStay;
    UiDiscipline.ViewOk(j.stores[sid], key, through);
    ViewStoresNothing(j.stores[sid], key, through);
    StoreMatches(j, sid, B.MarkViewed(j.stores[sid], key, through).0);
  }

  lemma ViewStoresNothing(b: B.Buffer, key: B.Key, through: nat)
    ensures SameStored(b, B.MarkViewed(b, key, through).0)
  {
  }

  // ----- Whole runs -----

  ghost function Start(): (j: Joint)
    ensures JointOk(j)
  {
    StartSane();
    Joint(START, [], [])
  }

  /** The system and its stores after a sequence of steps. */
  ghost function AfterActs(j: Joint, acts: seq<Act>): (j': Joint)
    requires JointOk(j)
    ensures JointOk(j')
    decreases |acts|
  {
    if acts == [] then j else AfterActs(Advance(j, acts[0]), acts[1..])
  }

  /** The stored message with this id is in its conversation's list and is the delivery. */
  ghost predicate InStore(b: B.Buffer, id: int, d: Delivery) {
    && BufferInvariant.Valid(b) && id in b.byId
    && var m := b.byId[id];
    && BufferInvariant.IncomingOk(m) && !m.outgoing && BufferIndex.DeliveryOf(m) == d
    && m.key in b.conversations && m in b.conversations[m.key].messages
  }

  /** Session `sid` shows message `id` in its conversation, exactly as the server committed it. */
  ghost predicate Shown(j: Joint, sid: nat, id: int)
    requires sid < |j.stores| == |j.system.sessions|
  {
    exists m :: m in j.system.tables.history && m.id == id && IsUser(j.system.tables, m.senderId)
      && InStore(j.stores[sid], id, WithSender(j.system.tables, m))
  }

  lemma HeldIsShown(j: Joint, sid: nat, id: int)
    requires JointOk(j) && sid < |j.stores| && DeliveryTheorems.StoredExactly(j.system, sid, id)
    ensures Shown(j, sid, id)
  {
    hide Reach, Consistent;
    var b, c := j.stores[sid], j.system.sessions[sid].client;
    assert Matches(b, c);
    var d := c.index[id].delivery;
    EntryInStore(b, id, d);
    hide Matches, InStore;
    assert InStore(j.stores[sid], id, WithSender(j.system.tables, d.message));
  }

  lemma EntryInStore(b: B.Buffer, id: int, d: Delivery)
    requires BufferInvariant.Valid(b) && id in BufferIndex.Index(b) && BufferIndex.Index(b)[id] == Incoming(d)
    ensures InStore(b, id, d)
  {
    BufferIndex.IndexedAreOk(b);
    assert BufferInvariant.IndexedMessage(b, id, b.byId[id]);
  }

  /** No loss, in the stores: in every run of server, interfaces and connections, a committed
      row is unacknowledged or a session of its recipient shows the message as committed. */
  lemma NothingIsLostFromTheStores(acts: seq<Act>, k: (int, int))
    requires k in AfterActs(Start(), acts).system.tables.recipients
    ensures var j := AfterActs(Start(), acts);
      j.system.tables.recipients[k] == None
      || exists sid | 0 <= sid < |j.stores| :: j.system.sessions[sid].user == k.1 && Shown(j, sid, k.0)
  {
    hide AfterActs, Start, Reach, Shown, Matches, DeliveryTheorems.StoredExactly;
    var j := AfterActs(Start(), acts);
    DeliveryTheorems.NoLoss(j.trace, k);
    if j.system.tables.recipients[k].Some? {
      var sid :| 0 <= sid < |j.system.sessions| && j.system.sessions[sid].user == k.1
        && DeliveryTheorems.StoredExactly(j.system, sid, k.0);
      HeldIsShown(j, sid, k.0);
    }
  }

  /** A message is acknowledged only once its session shows it. */
  lemma AcknowledgedIsShown(acts: seq<Act>, sid: nat, id: int)
    requires var y := AfterActs(Start(), acts).system;
      sid < |y.sessions| && (DeliveryAck(id) in y.sessions[sid].client.queue || DeliveryAck(id) in y.sessions[sid].up)
    ensures Shown(AfterActs(Start(), acts), sid, id)
  {
    hide AfterActs, Start, Reach, Shown, Matches, DeliveryTheorems.StoredExactly;
    var j := AfterActs(Start(), acts);
    DeliveryTheorems.AcknowledgedAfterStoring(j.trace, sid, id);
    HeldIsShown(j, sid, id);
  }

  /** A finished synchronization has brought everything into the store: what was unacknowledged
      when its first page was served is shown, unless another session acknowledged it. */
  lemma SynchronizationFillsTheStore(acts: seq<Act>, before: seq<Event>, sid: nat, now: Clock, after: seq<Event>, id: int)
    requires AfterActs(Start(), acts).trace == before + ([Handle(sid, now)] + after) && StartPending(sid) !in after
    requires Running(Reach(before), sid) && SyncCompleteness.ServesFirstPage(Reach(before), sid, now)
    requires var y := Reach(before); var k := (id, y.sessions[sid].user);
      k in y.tables.recipients && y.tables.recipients[k] == None
    ensures var j := AfterActs(Start(), acts);
      && sid < |j.stores|
      && (SyncCompleteness.Finished(j.system.sessions[sid]) ==>
            Shown(j, sid, id) || DeliveryInvariant.ByOther(j.system.ackedBy, sid, j.system.sessions[sid].user, id))
  {
    hide AfterActs, Start, Reach, Shown, Matches, DeliveryTheorems.StoredExactly, SyncCompleteness.ServesFirstPage, SyncCompleteness.Finished;
    var j := AfterActs(Start(), acts);
    SyncCompleteness.SynchronizationIsComplete(before, sid, now, after);
    var k := (id, Reach(before).sessions[sid].user);
    if SyncCompleteness.Finished(j.system.sessions[sid]) && DeliveryTheorems.StoredExactly(j.system, sid, id) {
      HeldIsShown(j, sid, id);
    }
  }

  /** An accepted message is committed to the store under its id, unless the store's 64-bit
      counters are exhausted: there is always room for it and its id is always new. Taking the
      answer lists exactly what was held back, and the client is free for the next. */
  lemma AcceptedIsCommitted(acts: seq<Act>, sid: nat, id: int)
    requires var y := AfterActs(Start(), acts).system;
      sid < |y.sessions| && Live(y.sessions[sid]) && y.sessions[sid].client.response == Some(Frame.Accepted(id))
    ensures var j := AfterActs(Start(), acts);
      var j', b := Advance(j, Answer(sid)), j.stores[sid];
      && b.reserved.Some?
      && (b.nextArrival != 0 && b.version != B.MAX_VERSION ==>
            && |j'.stores| == |j.stores| == |j'.system.sessions|
            && j'.stores[sid].byId == b.byId[id := b.reserved.value.(id := id, arrival := b.nextArrival)]
            && j'.stores[sid].reserved == None
            && var c := j'.system.sessions[sid].client;
               c.stopped == None && !c.awaiting && c.response == None && id in c.index && c.index[id] == Outgoing)
  {
    hide AfterActs, Start, Reach, UiDiscipline.StoreOk, BufferInvariant.Valid, DeliveryInvariant.Inv, B.Commit, BufferIndex.Index, Advance;
    var j := AfterActs(Start(), acts);
    DeliveryTheorems.ReachInv(j.trace);
    var b := j.stores[sid];
    AwaitedAnswer(j.system, sid, id);
    StoreIsValid(b);
    BufferIndex.CommitRefines(b, id);
    ReservedIsOpen(b, j.system.sessions[sid].client);
    if b.nextArrival != 0 && b.version != B.MAX_VERSION {
      CommitAdvances(j, sid, id);
    }
  }

  lemma CommitAdvances(j: Joint, sid: nat, id: int)
    requires JointOk(j) && sid < |j.stores| && Live(j.system.sessions[sid])
    requires var s, b := j.system.sessions[sid], j.stores[sid];
      && s.client.response == Some(Frame.Accepted(id)) && 0 < id && id !in s.client.index
      && b.reserved.Some? && b.reserved.value.key in b.conversations && B.Commit(b, id).1 == B.InsertResult.Stored
    ensures var j', b := Advance(j, Answer(sid)), j.stores[sid];
      && |j'.stores| == |j.stores| == |j'.system.sessions|
      && j'.stores[sid].byId == b.byId[id := b.reserved.value.(id := id, arrival := b.nextArrival)]
      && j'.stores[sid].reserved == None
      && var c := j'.system.sessions[sid].client;
         c.stopped == None && !c.awaiting && c.response == None && id in c.index && c.index[id] == Outgoing
  {
    hide Reach, Matches, B.Commit, Apply, Consumed;
    CommitLists(j.stores[sid], id);
    ConsumeApplied(j.system, sid);
    ConsumedFrees(j.system.sessions[sid], id);
  }

  /** A refused message is given back, and the client is free for the next. */
  lemma RefusedIsGivenBack(acts: seq<Act>, sid: nat)
    requires var y := AfterActs(Start(), acts).system;
      sid < |y.sessions| && Live(y.sessions[sid]) && y.sessions[sid].client.response == Some(NotAccepted)
    ensures var j := AfterActs(Start(), acts);
      var j' := Advance(j, Answer(sid));
      && |j'.stores| == |j.stores| == |j'.system.sessions|
      && j'.stores[sid].reserved == None && j'.stores[sid].byId == j.stores[sid].byId
      && j'.system.sessions[sid].client == j.system.sessions[sid].client.(awaiting := false, response := None)
  {
    hide AfterActs, Start, Reach, UiDiscipline.StoreOk, BufferIndex.Index, Apply, Consumed, B.Cancel;
    var j := AfterActs(Start(), acts);
    ReservedIsOpen(j.stores[sid], j.system.sessions[sid].client);
    UiDiscipline.CancelledNothing(j.stores[sid]);
    BufferContents.CancelIndex(j.stores[sid]);
    ConsumeApplied(j.system, sid);
    RefusalFrees(j.system.sessions[sid]);
  }

  lemma RefusalFrees(s: Session)
    requires Live(s) && s.client.response == Some(NotAccepted)
    ensures Consumed(s).client == s.client.(awaiting := false, response := None)
  {
  }

  /** A text that is sent from an open conversation is held back in the store, and its request
      goes out for the same conversation; without room nothing happens. */
  lemma SentIsHeldBack(j: Joint, sid: nat, key: B.Key, content: Bytes)
    requires JointOk(j) && sid < |j.stores| && CanSend(j.stores[sid], j.system.sessions[sid], key)
    ensures IsUser(j.system.tables, j.system.sessions[sid].user)
    ensures var j' := Advance(j, Send(sid, key, content));
      var s, name := j.system.sessions[sid], UserName(j.system.tables, j.system.sessions[sid].user);
      if B.Reserve(j.stores[sid], key, name, content).1 == B.InsertResult.Stored then
        && |j'.stores| == |j.stores| == |j'.system.sessions|
        && j'.stores[sid].reserved == Some(BufferContents.Draft(key, name, content))
        && j'.system.sessions[sid] == s.(client := s.client.(awaiting := true),
             up := if s.cut then s.up else s.up + [Submit(BodyOf(key, content))])
      else j' == j
  {
    hide Reach, Matches, B.Reserve, BodyOf, Apply;
    SenderIsUser(j, sid);
    var name := UserName(j.system.tables, j.system.sessions[sid].user);
    if B.Reserve(j.stores[sid], key, name, content).1 == B.InsertResult.Stored {
      BufferContents.ReserveHolds(j.stores[sid], key, name, content);
      SubmitApplied(j.system, sid, BodyOf(key, content));
    }
  }

  lemma SubmitApplied(y: System, sid: nat, body: Body)
    requires Sane(y) && Running(y, sid)
    ensures Apply(y, SubmitMessage(sid, body)) == Update(y, sid, Submitted(y.sessions[sid], body))
  {
    hide Consistent;
  }

  /** The other steps: what the protocol does, what a store takes of the frame its client reads,
      what is opened and what is viewed. */
  lemma StepsAreTaken(j: Joint, a: Act)
    requires JointOk(j)
    ensures a.ProtocolEvent? && LeavesStores(a.event) ==>
      var j' := Advance(j, a); j'.system == Apply(j.system, a.event) && j.stores <= j'.stores
    ensures a.Read? && a.sid < |j.stores| && j.system.sessions[a.sid].down != [] && j.system.sessions[a.sid].client.stopped == None ==>
      var s := j.system.sessions[a.sid];
      var (b, n) := TakeFrame(j.stores[a.sid], s.client, s.down[0], a.handed);
      Advance(j, a) == Joint(Apply(j.system, Receive(a.sid, n, a.interrupted)), j.stores[a.sid := b], j.trace + [Receive(a.sid, n, a.interrupted)])
    ensures a.OpenConversation? && a.sid < |j.stores| && j.stores[a.sid].reserved == None ==>
      Advance(j, a) == j.(stores := j.stores[a.sid := B.Ensure(j.stores[a.sid], a.key).0])
    ensures a.View? && a.sid < |j.stores| ==>
      Advance(j, a) == j.(stores := j.stores[a.sid := B.MarkViewed(j.stores[a.sid], a.key, a.through).0])
  {
    hide Reach, Matches, Apply, TakeFrame, B.Ensure, B.MarkViewed;
  }

  lemma CommitLists(b: B.Buffer, id: int)
    requires b.reserved.Some? && b.reserved.value.key in b.conversations && B.Commit(b, id).1 == B.InsertResult.Stored
    ensures B.Commit(b, id).0.byId == b.byId[id := b.reserved.value.(id := id, arrival := b.nextArrival)]
    ensures B.Commit(b, id).0.reserved == None
  {
    hide B.AddOutgoing;
  }

  lemma ConsumeApplied(y: System, sid: nat)
    requires Sane(y) && Running(y, sid)
    ensures Apply(y, ConsumeResponse(sid)) == Update(y, sid, Consumed(y.sessions[sid]))
  {
    hide Consistent, Consume;
  }

  lemma ConsumedFrees(s: Session, id: int)
    requires Live(s) && s.client.response == Some(Frame.Accepted(id)) && 0 < id && id !in s.client.index
    ensures Consumed(s).client == s.client.(index := s.client.index[id := Outgoing], awaiting := false, response := None)
  {
    ClientLaws.AcceptanceIsKept(s.client, id);
  }

  lemma AwaitedAnswer(y: System, sid: nat, id: int)
    requires DeliveryInvariant.Inv(y) && Running(y, sid) && y.sessions[sid].client.response == Some(Frame.Accepted(id))
    ensures y.sessions[sid].client.awaiting && 0 < id && id !in y.sessions[sid].client.index
  {
    ClientSteps.SessionOf(y, sid);
    hide DeliveryInvariant.Inv;
  }
}
