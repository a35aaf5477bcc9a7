/** The interface keeps to the discipline the session store needs: what follows for whole runs
    of the interface thread and the receiver thread. */
module UiDiscipline {
  import opened Prelude
  import opened Tables
  import opened BufferState
  import opened BufferInvariant
  import opened BufferHandles
  import BR = BufferRuns
  import BufferContents
  import opened UiState

  /** A store in which every guarantee holds. */
  ghost predicate StoreOk(b: Buffer) {
    Valid(b) && BR.Bounded(b) && HandlesOk(b) && !b.reservedCreated
  }

  lemma StoreStep(b: Buffer, op: BR.Op)
    requires StoreOk(b) && BR.EnsuresUnreserved(b, op) && ReservesExisting(b, op)
    ensures StoreOk(BR.Step(b, op)) && HandlesStay(b, BR.Step(b, op))
  {
    assert b.nextHandle >= 1;
    hide Valid, BR.Bounded, HandlesOk, BR.Step;
    BR.StepKeeps(b, op);
    BR.StepBounded(b, op);
    StepOpens(b, op);
    OpeningKeepsHandles(b, BR.Step(b, op));
  }

  /** Every conversation screen shows a conversation of the store. */
  predicate ScreensOk(u: Ui) {
    && u.screens != [] && u.screens[0] == Main && |u.screens| <= MAX_DEPTH
    && forall s | s in u.screens && s.ConversationScreen? :: s.key in u.buffer.conversations
  }

  predicate AwaitsAcceptance(u: Ui) {
    u.pending == Some(Operation(true, true))
  }

  /** The operation, its answer and the expected name agree. */
  predicate OperationOk(u: Ui) {
    && (u.expecting <==> u.pending.Some?) && (u.answer.Some? ==> u.expecting)
    && (u.pending.Some? && u.pending.value.message ==> u.pending.value.foreground)
  }

  /** A reservation is outstanding exactly while a message is submitted, which lasts as long as
      its operation, or until the loop is left. */
  predicate ReservationMatches(u: Ui) {
    && (u.turn != Gone ==>
          && (u.buffer.reserved.Some? <==> u.submitted.Some?)
          && (u.submitted.Some? ==> u.submitted.value == u.buffer.reserved.value.key)
          && (AwaitsAcceptance(u) ==> u.submitted.Some?)
          && (u.submitted.Some? ==> AwaitsAcceptance(u) || u.turn == Leaving))
    && NoInternalStop(u)
  }

  /** The three stops that would mean the interface contradicts itself. */
  predicate NoInternalStop(u: Ui) {
    NoContext !in u.stops && InconsistentOperation !in u.stops && ReservationConflict !in u.stops
  }

  ghost predicate UiOk(u: Ui) {
    StoreOk(u.buffer) && ScreensOk(u) && OperationOk(u) && ReservationMatches(u)
  }

  lemma StartOk(username: Bytes)
    ensures UiOk(Start(username))
  {
    BR.NewIsValid();
    assert BR.Bounded(NEW_BUFFER);
  }

  lemma CanApply(u: Ui)
    requires UiOk(u)
    ensures u.screens != []
    ensures u.buffer.reserved.Some? ==> u.buffer.reserved.value.key in u.buffer.conversations
  {
  }

  /** The store moves on and keeps its conversations. */
  ghost predicate StoreMoves(b: Buffer, b': Buffer) {
    StoreOk(b') && HandlesStay(b, b')
  }

  // ----- The receiver's steps -----

  lemma ReceiveOk(b: Buffer, d: Delivery)
    requires StoreOk(b)
    ensures StoreMoves(b, Receive(b, d).0) && Receive(b, d).0.reserved == b.reserved
  {
    StoreStep(b, BR.ReceiveOp(d));
    hide StoreOk, HandlesStay;
  }

  lemma MessageKeeps(u: Ui, d: Delivery)
    requires UiOk(u)
    ensures UiOk(TakeMessage(u, d)) && StoreMoves(u.buffer, TakeMessage(u, d).buffer)
  {
    hide StoreOk, Receive, HandlesStay, ScreensOk, OperationOk, ReservationMatches, TakeMessage;
    ReceiveOk(u.buffer, d);
    MessageShape(u, d);
    HandlesStayPut(u.buffer);
    ScreensFollow(u, TakeMessage(u, d));
    SameOperation(u, TakeMessage(u, d));
  }

  /** A message changes the store and the stop reasons only. */
  lemma MessageShape(u: Ui, d: Delivery)
    ensures var v := TakeMessage(u, d);
      && v == u.(buffer := v.buffer, stops := v.stops) && (NoInternalStop(u) ==> NoInternalStop(v))
      && (v.buffer == u.buffer || v.buffer == Receive(u.buffer, d).0)
  {
    hide Receive;
  }

  lemma SameOperation(u: Ui, v: Ui)
    requires OperationOk(u) && ReservationMatches(u)
    requires v == u.(buffer := v.buffer, stops := v.stops) && v.buffer.reserved == u.buffer.reserved
    requires NoInternalStop(u) ==> NoInternalStop(v)
    ensures OperationOk(v) && ReservationMatches(v)
  {
  }

  lemma HandlesStayPut(b: Buffer)
    ensures HandlesStay(b, b)
  {
  }

  lemma ScreensFollow(u: Ui, v: Ui)
    requires ScreensOk(u) && HandlesStay(u.buffer, v.buffer) && v.screens == u.screens
    ensures ScreensOk(v)
  {
  }

  lemma AnswerKeeps(u: Ui, a: Answer, associated: bool)
    requires UiOk(u)
    ensures UiOk(TakeAnswer(u, a, associated)) && TakeAnswer(u, a, associated).buffer == u.buffer
  {
    hide StoreOk;
  }

  // ----- Taking an answer -----

  lemma CancelOk(b: Buffer)
    requires StoreOk(b)
    ensures StoreOk(Cancel(b)) && HandlesStay(b, Cancel(b)) && Cancel(b).reserved == None
  {
    hide StoreOk, HandlesStay, Cancel;
    StoreStep(b, BR.CancelOp);
    CancelledNothing(b);
  }

  lemma CancelledNothing(b: Buffer)
    ensures Cancel(b).reserved == None
  {
    hide Minus64;
  }

  lemma CommitOk(b: Buffer, id: int)
    requires StoreOk(b)
    ensures b.reserved.Some? ==> b.reserved.value.key in b.conversations
    ensures StoreOk(Commit(b, id).0) && HandlesStay(b, Commit(b, id).0)
    ensures Commit(b, id).1 == InsertResult.Stored ==> Commit(b, id).0.reserved == None
    ensures Commit(b, id).1 != InsertResult.Stored ==> Commit(b, id).0 == b
  {
    hide StoreOk, HandlesStay, Commit;
    assert Valid(b) by { StoreValid(b); }
    ReservedIsOpen(b);
    StoreStep(b, BR.CommitOp(id));
    CommittedReserves(b, id);
  }

  lemma StoreValid(b: Buffer)
    requires StoreOk(b)
    ensures Valid(b)
  {
  }

  lemma CommittedReserves(b: Buffer, id: int)
    requires b.reserved.Some? ==> b.reserved.value.key in b.conversations
    ensures Commit(b, id).1 == InsertResult.Stored ==> Commit(b, id).0.reserved == None
    ensures Commit(b, id).1 != InsertResult.Stored ==> Commit(b, id).0 == b
  {
    hide AddOutgoing, Plus64;
  }

  /** What a foreground answer does to the store and the submission. */
  predicate Settled(u: Ui, v: Ui) {
    && v.username == u.username && v.pending == u.pending && v.expecting == u.expecting && v.turn == u.turn
    && u.stops <= v.stops && (NoInternalStop(u) ==> NoInternalStop(v))
    && (|| (v.buffer == u.buffer && v.submitted == u.submitted && (u.submitted.Some? ==> v.stops != {}))
        || (u.submitted.Some? && v.submitted == None && v.buffer.reserved == None))
  }

  lemma ForegroundSettles(u: Ui, op: Operation, answer: Answer)
    requires StoreOk(u.buffer) && CanConsume(u) && (u.submitted.Some? ==> op.message)
    ensures Settled(u, ApplyForeground(u, op, answer))
  {
    hide StoreOk, Commit, Cancel, HandlesStay;
    CancelOk(u.buffer);
    if answer.AcceptedAs? { CommitOk(u.buffer, answer.id); }
  }

  lemma ForegroundStore(u: Ui, op: Operation, answer: Answer)
    requires StoreOk(u.buffer) && CanConsume(u)
    ensures StoreMoves(u.buffer, ApplyForeground(u, op, answer).buffer)
  {
    hide StoreOk, Commit, Cancel, HandlesStay;
    CancelOk(u.buffer);
    HandlesStayPut(u.buffer);
    if answer.AcceptedAs? { CommitOk(u.buffer, answer.id); }
  }

  /** Screens stay, or one other screen is closed. */
  predicate ScreensShrink(u: Ui, v: Ui) {
    || v.screens == u.screens
    || exists i | 0 <= i < |u.screens| :: u.screens[i] == Other && v.screens == u.screens[..i] + u.screens[i + 1..]
  }

  lemma ForegroundScreens(u: Ui, op: Operation, answer: Answer)
    requires CanConsume(u)
    ensures ScreensShrink(u, ApplyForeground(u, op, answer))
  {
    hide Commit, Cancel;
  }

  lemma ShrunkenScreens(u: Ui, v: Ui)
    requires ScreensOk(u) && ScreensShrink(u, v) && HandlesStay(u.buffer, v.buffer)
    ensures ScreensOk(v)
  {
  }

  lemma ConsumeKeeps(u: Ui)
    requires UiOk(u) && u.turn == Top && CanConsume(u)
    ensures UiOk(Consume(u)) && StoreMoves(u.buffer, Consume(u).buffer)
  {
    hide StoreOk, ScreensOk, HandlesStay, ApplyForeground, ScreensShrink;
    HandlesStayPut(u.buffer);
    if u.answer.Some? && u.pending.Some? && u.pending.value.foreground {
      var v := ApplyForeground(u, u.pending.value, u.answer.value);
      ForegroundSettles(u, u.pending.value, u.answer.value);
      ForegroundStore(u, u.pending.value, u.answer.value);
      ForegroundScreens(u, u.pending.value, u.answer.value);
      ShrunkenScreens(u, v);
      HandlesStayPut(v.buffer);
      ScreensFollow(v, Consume(u));
    } else {
      ScreensFollow(u, Consume(u));
    }
  }

  predicate CanConsume(u: Ui) {
    && u.screens != []
    && (u.buffer.reserved.Some? ==> u.buffer.reserved.value.key in u.buffer.conversations)
  }

  // ----- The user's actions -----

  /** Free to act and not waiting for an answer: nothing is submitted or reserved. */
  predicate Idle(u: Ui) {
    u.turn == Acting && u.submitted == None && u.buffer.reserved == None && !WaitsForAnswer(u)
  }

  lemma NotWaitingIsIdle(u: Ui)
    requires UiOk(u) && u.turn == Acting && !WaitsForAnswer(u)
    ensures Idle(u)
  {
    hide StoreOk, ScreensOk;
  }

  /** An action that leaves the interface consistent and the store's conversations in place. */
  ghost predicate Fine(u: Ui, v: Ui) {
    UiOk(v) && StoreMoves(u.buffer, v.buffer) && v.turn == u.turn
  }

  lemma ScreensOnly(u: Ui, v: Ui)
    requires UiOk(u) && ScreensOk(v) && u.turn == v.turn
    requires v == u.(screens := v.screens, stops := v.stops, exiting := v.exiting) && NoInternalStop(v)
    ensures Fine(u, v)
  {
    hide StoreOk, ScreensOk, HandlesStay;
    HandlesStayPut(u.buffer);
  }

  lemma PushOk(u: Ui, s: Screen)
    requires ScreensOk(u) && (s.ConversationScreen? ==> s.key in u.buffer.conversations)
    ensures ScreensOk(PushScreen(u, s))
  {
  }

  lemma BackOk(u: Ui)
    requires ScreensOk(u)
    ensures ScreensOk(Back(u))
  {
  }

  lemma PushKeeps(u: Ui, s: Screen)
    requires UiOk(u) && (s.ConversationScreen? ==> s.key in u.buffer.conversations)
    ensures Fine(u, PushScreen(u, s))
  {
    hide StoreOk;
    PushOk(u, s);
    hide ScreensOk;
    ScreensOnly(u, PushScreen(u, s));
  }

  lemma BackKeeps(u: Ui)
    requires UiOk(u)
    ensures Fine(u, Back(u))
  {
    hide StoreOk;
    BackOk(u);
    ScreensOnly(u, Back(u));
  }

  lemma EnsureOk(b: Buffer, key: Key)
    requires StoreOk(b) && b.reserved == None
    ensures StoreMoves(b, Ensure(b, key).0) && Ensure(b, key).0.reserved == None
    ensures Ensure(b, key).1 != CapacityExceeded ==> key in Ensure(b, key).0.conversations
  {
    hide StoreOk, HandlesStay, Ensure;
    StoreStep(b, BR.EnsureOp(key));
    EnsureShape(b, key);
  }

  lemma EnsureShape(b: Buffer, key: Key)
    ensures Ensure(b, key).0.reserved == b.reserved
    ensures Ensure(b, key).1 != CapacityExceeded ==> key in Ensure(b, key).0.conversations
  {
    hide Minus64, Plus64, KeyBytes;
  }

  /** Conversations are ensured only while nothing is reserved. */
  lemma OpenKeeps(u: Ui, key: Key)
    requires UiOk(u) && Idle(u)
    ensures Fine(u, OpenConversation(u, key))
  {
    hide StoreOk, ScreensOk, HandlesStay, Ensure, PushScreen;
    EnsureOk(u.buffer, key);
    HandlesStayPut(u.buffer);
    var (b, r) := Ensure(u.buffer, key);
    if r != CapacityExceeded {
      var v := u.(buffer := b);
      ScreensFollow(u, v);
      PushKeeps(v, ConversationScreen(key));
      assert PushScreen(v, ConversationScreen(key)).buffer == b by { PushKeepsBuffer(v, ConversationScreen(key)); }
    }
  }

  lemma PushKeepsBuffer(u: Ui, s: Screen)
    ensures PushScreen(u, s).buffer == u.buffer
  {
  }

  /** Beginning a request other than a message. */
  lemma BeginKeeps(u: Ui, foreground: bool, length: nat, sent: SendResult)
    requires UiOk(u) && Idle(u)
    ensures Fine(u, Begin(u, Operation(foreground, false), length, sent).0)
  {
    hide StoreOk, HandlesStay;
    HandlesStayPut(u.buffer);
    ScreensFollow(u, Begin(u, Operation(foreground, false), length, sent).0);
    hide ScreensOk;
  }

  lemma ReserveOk(b: Buffer, key: Key, sender: Bytes, content: Bytes)
    requires StoreOk(b) && b.reserved == None && key in b.conversations
    ensures var (b', r) := Reserve(b, key, sender, content);
      && StoreMoves(b, b') && (r == InsertResult.Stored || r == CapacityExceeded)
      && (r == InsertResult.Stored ==> b'.reserved.Some? && b'.reserved.value.key == key)
      && (r == CapacityExceeded ==> b' == b)
  {
    hide StoreOk, HandlesStay, Reserve;
    StoreStep(b, BR.ReserveOp(key, sender, content));
    ReserveShape(b, key, sender, content);
  }

  lemma ReserveShape(b: Buffer, key: Key, sender: Bytes, content: Bytes)
    requires b.reserved == None
    ensures var (b', r) := Reserve(b, key, sender, content);
      && (r == InsertResult.Stored || r == CapacityExceeded)
      && (r == InsertResult.Stored ==> b'.reserved.Some? && b'.reserved.value.key == key)
      && (r == CapacityExceeded ==> b' == b)
  {
    hide Minus64, Plus64, KeyBytes, TextBytes;
  }

  /** What beginning a message comes to: it waits for its answer, or nothing does. */
  lemma BeginShape(u: Ui, length: nat, sent: SendResult)
    requires OperationOk(u) && !WaitsForAnswer(u)
    ensures var (v, ok) := Begin(u, Operation(true, true), length, sent);
      && v.screens == u.screens && v.stops == u.stops && v.turn == u.turn && OperationOk(v)
      && (if ok then v.buffer == u.buffer && v.submitted == u.submitted && AwaitsAcceptance(v)
          else !AwaitsAcceptance(v) && (v.buffer == u.buffer || v.buffer == Cancel(u.buffer)))
  {
    hide Cancel;
  }

  /** What submitting comes to: nothing, or a reservation held by an operation, or a
      reservation given back. */
  lemma SubmitShape(u: Ui, key: Key, content: Bytes, sent: SendResult)
    requires Idle(u) && OperationOk(u)
    requires var (b, r) := Reserve(u.buffer, key, u.username, content);
      && (r == InsertResult.Stored || r == CapacityExceeded)
    ensures var v := Submit(u, key, content, sent);
      var b := Reserve(u.buffer, key, u.username, content).0;
      && v.screens == u.screens && v.stops == u.stops && v.turn == u.turn && OperationOk(v)
      && (|| (v.buffer == u.buffer && v.submitted == None && !AwaitsAcceptance(v))
          || (v.buffer == b && v.submitted == Some(key) && AwaitsAcceptance(v)
              && Reserve(u.buffer, key, u.username, content).1 == InsertResult.Stored)
          || ((v.buffer == Cancel(b) || v.buffer == Cancel(Cancel(b))) && v.submitted == None && !AwaitsAcceptance(v)))
  {
    hide Reserve, Cancel, Submittable, RequestLength, Begin;
    var b := Reserve(u.buffer, key, u.username, content).0;
    BeginShape(u.(buffer := b, submitted := Some(key)), RequestLength(key, content), sent);
  }

  /** A reservation is made on the conversation shown, and held exactly by its operation. */
  lemma SubmitKeeps(u: Ui, key: Key, content: Bytes, sent: SendResult)
    requires UiOk(u) && Idle(u) && key in u.buffer.conversations
    ensures Fine(u, Submit(u, key, content, sent))
  {
    hide StoreOk, Reserve, Cancel, HandlesStay, ScreensOk, Submit, OperationOk;
    var v := Submit(u, key, content, sent);
    var b := Reserve(u.buffer, key, u.username, content).0;
    ReserveOk(u.buffer, key, u.username, content);
    SubmitShape(u, key, content, sent);
    CancelOk(b);
    CancelOk(Cancel(b));
    HandlesStayPut(u.buffer);
    StayCompose(u.buffer, b, Cancel(b));
    StayCompose(u.buffer, Cancel(b), Cancel(Cancel(b)));
    ScreensFollow(u, v);
  }

  lemma StayCompose(a: Buffer, b: Buffer, c: Buffer)
    requires HandlesStay(a, b) && HandlesStay(b, c)
    ensures HandlesStay(a, c)
  {
  }

  lemma Unchanged(u: Ui)
    requires UiOk(u)
    ensures Fine(u, u)
  {
    HandlesStayPut(u.buffer);
    hide UiOk, HandlesStay;
    assert StoreOk(u.buffer) by { StoreOfUi(u); }
  }

  lemma StoreOfUi(u: Ui)
    requires UiOk(u)
    ensures StoreOk(u.buffer) && ScreensOk(u)
  {
  }

  lemma RequestKeeps(u: Ui, shows: bool, length: nat, sent: SendResult)
    requires UiOk(u) && Idle(u)
    ensures var v := if shows then PushScreen(u, Other) else u;
      Fine(u, if v.stops != u.stops then v else Begin(v, Operation(true, false), length, sent).0)
  {
    hide StoreOk, HandlesStay, ScreensOk, OperationOk, ReservationMatches;
    var v := if shows then PushScreen(u, Other) else u;
    PushKeeps(u, Other);
    if v.stops == u.stops {
      hide UiOk;
      BeginKeeps(v, true, length, sent);
    }
  }

  lemma EnterKeeps(u: Ui, choice: Choice)
    requires UiOk(u) && u.turn == Acting && CanConsume(u)
    ensures Fine(u, Enter(u, choice))
  {
    hide UiOk, Idle, Fine, Submit, OpenConversation, PushScreen, Back, Begin, StoreOk, ScreensOk;
    Unchanged(u);
    if !WaitsForAnswer(u) {
      NotWaitingIsIdle(u);
      StoreOfUi(u);
      CurrentShown(u);
      BackKeeps(u);
      if Current(u).ConversationScreen? {
        if choice.Send? { SubmitKeeps(u, Current(u).key, choice.content, choice.sent); }
      } else if choice.Open? {
        OpenKeeps(u, choice.key);
      } else if choice.Show? {
        PushKeeps(u, Other);
      } else if choice.Request? {
        RequestKeeps(u, choice.shows, choice.length, choice.sent);
      } else if choice.Exit? {
        ScreensOnlyExit(u);
      }
    }
  }

  lemma ScreensOnlyExit(u: Ui)
    requires UiOk(u)
    ensures Fine(u, u.(exiting := true))
  {
    hide StoreOk, HandlesStay;
    ScreensOnly(u, u.(exiting := true));
  }

  lemma CurrentShown(u: Ui)
    requires ScreensOk(u)
    ensures Current(u).ConversationScreen? ==> Current(u).key in u.buffer.conversations
  {
    assert Current(u) in u.screens;
  }

  // ----- Every step, every run -----

  lemma ActedKeeps(u: Ui, v: Ui)
    requires Fine(u, v) && u.turn == Acting
    ensures UiOk(Acted(v)) && StoreMoves(u.buffer, Acted(v).buffer)
  {
    hide StoreOk, HandlesStay;
  }

  lemma ViewOk(b: Buffer, key: Key, through: nat)
    requires StoreOk(b)
    ensures StoreMoves(b, MarkViewed(b, key, through).0) && MarkViewed(b, key, through).0.reserved == b.reserved
  {
    hide StoreOk, HandlesStay, MarkViewed;
    StoreStep(b, BR.ViewOp(key, through));
    BufferContents.ViewLeaves(b, key, through);
  }

  lemma ViewKeeps(u: Ui, key: Key, through: nat)
    requires UiOk(u)
    ensures Fine(u, u.(buffer := MarkViewed(u.buffer, key, through).0))
  {
    hide StoreOk, HandlesStay, MarkViewed, ScreensOk;
    ViewOk(u.buffer, key, through);
    ScreensFollow(u, u.(buffer := MarkViewed(u.buffer, key, through).0));
  }

  lemma LeaveKeeps(u: Ui)
    requires UiOk(u) && u.turn == Leaving
    ensures UiOk(Leave(u)) && StoreMoves(u.buffer, Leave(u).buffer)
  {
    hide StoreOk, HandlesStay, ScreensOk, Cancel;
    CancelOk(u.buffer);
    HandlesStayPut(u.buffer);
    ScreensFollow(u, Leave(u));
  }

  lemma FlushStops(u: Ui)
    requires UiOk(u) && u.turn == Acting
    ensures UiOk(u.(turn := Leaving))
  {
    hide StoreOk;
  }

  lemma NotificationsKeep(u: Ui)
    requires UiOk(u)
    ensures Fine(u, ToggleNotifications(u))
  {
    PushKeeps(u, Notifications);
    BackKeeps(u);
    hide UiOk, Fine, PushScreen, Back;
  }

  /** The interface thread's actions between two answers. */
  lemma ActionKeeps(u: Ui, s: Step)
    requires UiOk(u) && u.turn == Acting && CanConsume(u)
    requires !s.MessageArrives? && !s.AnswerArrives? && !s.OtherStop? && !s.ConsumeStep? && !s.LeaveStep?
    ensures UiOk(Apply(u, s)) && StoreMoves(u.buffer, Apply(u, s).buffer)
  {
    hide UiOk, StoreMoves, Idle, Begin, Enter, Acted, OpenConversation, ToggleNotifications, Back, MarkViewed, Selects;
    Unchanged(u);
    match s
    case ViewStep(through) =>
      if Current(u).ConversationScreen? { ViewKeeps(u, Current(u).key, through); }
    case NameStep(length, sent) =>
      if u.pending.None? { NotWaitingIsIdle(u); BeginKeeps(u, false, length, sent); }
    case EnterStep(choice) =>
      EnterKeeps(u, choice);
      ActedKeeps(u, Enter(u, choice));
    case NumberStep(n, key) =>
      if !WaitsForAnswer(u) { NotWaitingIsIdle(u); OpenKeeps(u, key); }
      ActedKeeps(u, ChooseNumber(u, key));
    case FlushStep => FlushStops(u);
    case NotificationsKey =>
      NotificationsKeep(u);
      ActedKeeps(u, ToggleNotifications(u));
    case EscapeKey =>
      BackKeeps(u);
      ActedKeeps(u, Back(u));
      ActedKeeps(u, u);
    case Quit =>
      ScreensOnlyExit(u);
      ActedKeeps(u, u.(exiting := true));
  }

  lemma OtherStopKeeps(u: Ui)
    requires UiOk(u)
    ensures UiOk(Stopped(u, External))
  {
    hide StoreOk;
  }

  lemma StepKeeps(u: Ui, s: Step)
    requires UiOk(u) && CanConsume(u)
    ensures UiOk(Apply(u, s)) && StoreMoves(u.buffer, Apply(u, s).buffer)
  {
    Unchanged(u);
    hide UiOk, StoreMoves, TakeMessage, TakeAnswer, Consume, Leave, Stopped;
    match s
    case MessageArrives(d) => MessageKeeps(u, d);
    case AnswerArrives(a, associated) => AnswerKeeps(u, a, associated);
    case OtherStop => OtherStopKeeps(u); assert Stopped(u, External).buffer == u.buffer by { StopsKeepStores(u); }
    case ConsumeStep => if u.turn == Top { ConsumeKeeps(u); }
    case LeaveStep => if u.turn == Leaving { LeaveKeeps(u); }
    case _ => if u.turn == Acting { ActionKeeps(u, s); }
  }

  lemma StopsKeepStores(u: Ui)
    ensures Stopped(u, External).buffer == u.buffer
  {
  }

  /** The interface after a sequence of steps of its two threads. */
  ghost function Run(u: Ui, steps: seq<Step>): (v: Ui)
    requires UiOk(u)
    ensures UiOk(v)
    decreases |steps|
  {
    if steps == [] then u
    else
      CanApply(u);
      StepKeeps(u, steps[0]);
      Run(Apply(u, steps[0]), steps[1..])
  }

  lemma {:induction false} RunStays(u: Ui, steps: seq<Step>)
    requires UiOk(u)
    ensures HandlesStay(u.buffer, Run(u, steps).buffer)
    decreases |steps|
  {
    hide UiOk, Apply;
    if steps == [] {
      HandlesStayPut(u.buffer);
    } else {
      CanApply(u);
      StepKeeps(u, steps[0]);
      var v := Apply(u, steps[0]);
      assert HandlesStay(u.buffer, v.buffer);
      RunStays(v, steps[1..]);
      StayCompose(u.buffer, v.buffer, Run(v, steps[1..]).buffer);
    }
  }

  ghost function Session(username: Bytes, steps: seq<Step>): (u: Ui)
    ensures UiOk(u)
  {
    StartOk(username);
    Run(Start(username), steps)
  }

  // ----- What was submitted -----

  /** The conversation and the text that a step tries to submit: Enter with a draft on a
      conversation screen, while no answer is awaited. */
  function Attempt(u: Ui, s: Step): Option<(Key, Bytes)>
    requires u.screens != []
  {
    if && s.EnterStep? && s.choice.Send? && u.turn == Acting && !WaitsForAnswer(u)
       && Current(u).ConversationScreen? && Submittable(Current(u).key, s.choice.content)
    then Some((Current(u).key, s.choice.content)) else None
  }

  /** What the user last submitted in a session. */
  ghost function LastSubmitted(username: Bytes, steps: seq<Step>): Option<(Key, Bytes)> {
    if steps == [] then None
    else
      var earlier, last := steps[..|steps| - 1], steps[|steps| - 1];
      var u := Session(username, earlier);
      CanApply(u);
      if Attempt(u, last).Some? then Attempt(u, last) else LastSubmitted(username, earlier)
  }

  lemma {:induction false} RunLast(u: Ui, steps: seq<Step>, s: Step)
    requires UiOk(u)
    ensures CanConsume(Run(u, steps)) && Run(u, steps + [s]) == Apply(Run(u, steps), s)
    decreases |steps|
  {
    hide UiOk, Apply;
    CanApply(Run(u, steps));
    CanApply(u);
    if steps == [] {
      StepKeeps(u, s);
      assert [] + [s] == [s] && [s][1..] == [];
      assert Run(Apply(u, s), []) == Apply(u, s);
    } else {
      StepKeeps(u, steps[0]);
      assert (steps + [s])[1..] == steps[1..] + [s];
      RunLast(Apply(u, steps[0]), steps[1..], s);
    }
  }

  /** A reservation is kept as it is, or given back. */
  predicate KeepsHeld(b: Buffer, b': Buffer) {
    b'.reserved == b.reserved || b'.reserved == None
  }

  lemma BeginHolds(u: Ui, op: Operation, length: nat, sent: SendResult)
    ensures var v := Begin(u, op, length, sent).0; KeepsHeld(u.buffer, v.buffer) && v.username == u.username
  {
    hide Minus64;
  }

  lemma OpenHolds(u: Ui, key: Key)
    ensures var v := OpenConversation(u, key); v.buffer.reserved == u.buffer.reserved && v.username == u.username
  {
    hide Ensure;
    EnsureShape(u.buffer, key);
  }

  /** A submission that is made reserves exactly the text of the draft. */
  lemma SubmitHolds(u: Ui, key: Key, content: Bytes, sent: SendResult)
    requires u.buffer.reserved == None
    ensures var v := Submit(u, key, content, sent);
      && v.username == u.username
      && (v.buffer.reserved == None
          || (Submittable(key, content) && v.buffer.reserved == Some(BufferContents.Draft(key, u.username, content))))
  {
    hide Reserve, Begin, Submittable, RequestLength, Cancel;
    ReserveShape(u.buffer, key, u.username, content);
    var (b, r) := Reserve(u.buffer, key, u.username, content);
    if r == InsertResult.Stored {
      BufferContents.ReserveHolds(u.buffer, key, u.username, content);
      var u1 := u.(buffer := b, submitted := Some(key));
      BeginHolds(u1, Operation(true, true), RequestLength(key, content), sent);
      CancelledNothing(Begin(u1, Operation(true, true), RequestLength(key, content), sent).0.buffer);
    }
  }

  lemma EnterHolds(u: Ui, choice: Choice)
    requires u.screens != [] && u.turn == Acting && (!WaitsForAnswer(u) ==> u.buffer.reserved == None)
    ensures var v, a := Enter(u, choice), Attempt(u, EnterStep(choice));
      && v.username == u.username
      && (if a.Some? then
            v.buffer.reserved == None || v.buffer.reserved == Some(BufferContents.Draft(a.value.0, u.username, a.value.1))
          else KeepsHeld(u.buffer, v.buffer))
  {
    hide Submit, OpenConversation, Begin, Submittable;
    if !WaitsForAnswer(u) {
      match choice
      case Send(content, sent) =>
        if Current(u).ConversationScreen? { SubmitHolds(u, Current(u).key, content, sent); }
      case Open(key) => OpenHolds(u, key);
      case Request(shows, length, sent) => BeginHolds(if shows then PushScreen(u, Other) else u, Operation(true, false), length, sent);
      case _ =>
    }
  }

  lemma ConsumeHolds(u: Ui)
    requires CanConsume(u)
    ensures KeepsHeld(u.buffer, Consume(u).buffer) && Consume(u).username == u.username
  {
    hide ApplyForeground;
    if u.answer.Some? && u.pending.Some? && u.pending.value.foreground {
      ForegroundHolds(u, u.pending.value, u.answer.value);
    }
  }

  lemma ForegroundHolds(u: Ui, op: Operation, answer: Answer)
    requires CanConsume(u)
    ensures var v := ApplyForeground(u, op, answer); KeepsHeld(u.buffer, v.buffer) && v.username == u.username
  {
    hide Commit, Cancel;
    CancelledNothing(u.buffer);
    if answer.AcceptedAs? { CommittedReserves(u.buffer, answer.id); }
  }

  lemma ReceivedHolds(u: Ui, d: Delivery)
    ensures TakeMessage(u, d).buffer.reserved == u.buffer.reserved && TakeMessage(u, d).username == u.username
  {
    hide Receive;
    BufferContents.ReceiveLeaves(u.buffer, d);
  }

  /** Only a submission reserves anything, and what it reserves is its text. */
  lemma StepHolds(u: Ui, s: Step)
    requires UiOk(u) && CanConsume(u)
    ensures var v, a := Apply(u, s), Attempt(u, s);
      && v.username == u.username
      && (if a.Some? then
            v.buffer.reserved == None || v.buffer.reserved == Some(BufferContents.Draft(a.value.0, u.username, a.value.1))
          else KeepsHeld(u.buffer, v.buffer))
  {
    hide UiOk, TakeMessage, TakeAnswer, Consume, Leave, Begin, Enter, OpenConversation, MarkViewed, Submittable;
    match s
    case MessageArrives(d) => ReceivedHolds(u, d);
    case AnswerArrives(a, associated) => AnswerHolds(u, a, associated);
    case ConsumeStep => ConsumeHolds(u);
    case LeaveStep => LeaveHolds(u);
    case ViewStep(through) =>
      if Current(u).ConversationScreen? { BufferContents.ViewLeaves(u.buffer, Current(u).key, through); }
    case NameStep(length, sent) => BeginHolds(u, Operation(false, false), length, sent);
    case EnterStep(choice) =>
      if u.turn == Acting {
        if !WaitsForAnswer(u) { NotWaitingIsIdle(u); }
        EnterHolds(u, choice);
      }
    case NumberStep(_, key) => OpenHolds(u, key);
    case _ =>
  }

  lemma AnswerHolds(u: Ui, a: Answer, associated: bool)
    ensures TakeAnswer(u, a, associated).buffer == u.buffer && TakeAnswer(u, a, associated).username == u.username
  {
  }

  lemma LeaveHolds(u: Ui)
    ensures KeepsHeld(u.buffer, Leave(u).buffer) && Leave(u).username == u.username
  {
    hide Minus64;
  }

  /** In every session, what is reserved is what the user submitted last, under his name. */
  lemma {:induction false} HeldIsSubmitted(username: Bytes, steps: seq<Step>)
    ensures var u, last := Session(username, steps), LastSubmitted(username, steps);
      && u.username == username
      && (u.buffer.reserved.Some? ==>
            last.Some? && u.buffer.reserved == Some(BufferContents.Draft(last.value.0, username, last.value.1)))
    decreases |steps|
  {
    hide Apply, UiOk, Attempt, Run, Session;
    if steps == [] {
      StartHolds(username);
    } else {
      var earlier, s := steps[..|steps| - 1], steps[|steps| - 1];
      HeldIsSubmitted(username, earlier);
      SessionLast(username, earlier, s);
      assert steps == earlier + [s];
      StepHolds(Session(username, earlier), s);
    }
  }

  lemma SessionLast(username: Bytes, steps: seq<Step>, s: Step)
    ensures CanConsume(Session(username, steps)) && Session(username, steps + [s]) == Apply(Session(username, steps), s)
  {
    hide Apply, UiOk;
    StartOk(username);
    RunLast(Start(username), steps, s);
  }

  lemma StartHolds(username: Bytes)
    ensures Session(username, []).username == username && Session(username, []).buffer.reserved == None
  {
    StartOk(username);
    hide UiOk;
  }

  /** The store behind the interface never runs out of what it promised: in every run, stored
      and reserved text stay within the limit, so do the messages, the byte counter is the
      exact sum, and an accepted answer for a waiting message is committed unless its id is
      already stored or a counter is exhausted. What is committed is the text the user
      submitted last, under his name, in the conversation he submitted it to. */
  lemma SubmissionsAreNeverLost(username: Bytes, steps: seq<Step>, id: int)
    ensures var u, last := Session(username, steps), LastSubmitted(username, steps);
      var b := u.buffer;
      && b.retained == StoredBytes(b) && b.retained + b.reservedBytes <= MAX_TEXT && Occupied(b) <= MAX_MESSAGES
      && (u.turn == Top && AwaitsAcceptance(u) && u.answer == Some(AcceptedAs(id))
          && 0 < id && id !in b.byId && b.nextArrival != 0 && b.version != MAX_VERSION ==>
            var v := Consume(u);
            && InvalidResponse !in v.stops - u.stops && v.submitted == None && v.buffer.reserved == None
            && last.Some? && BufferContents.SentAs(v.buffer, id, last.value.0, username, last.value.1))
  {
    hide Run, Session, UiOk, Consume, LastSubmitted, BufferContents.SentAs;
    var u := Session(username, steps);
    var b := u.buffer;
    StoreOfUi(u);
    StoreHolds(b);
    BR.NoWrap(b);
    StoreWithin(b);
    CanApply(u);
    if u.turn == Top && AwaitsAcceptance(u) && u.answer == Some(AcceptedAs(id))
       && 0 < id && id !in b.byId && b.nextArrival != 0 && b.version != MAX_VERSION {
      HeldIsSubmitted(username, steps);
      var last := LastSubmitted(username, steps);
      MatchesOfUi(u);
      AcceptanceCommits(u, id, last.value.0, username, last.value.1);
    }
  }

  lemma StoreHolds(b: Buffer)
    requires StoreOk(b)
    ensures Valid(b) && BR.Bounded(b)
  {
  }

  lemma MatchesOfUi(u: Ui)
    requires UiOk(u)
    ensures ReservationMatches(u) && (u.turn == Top && AwaitsAcceptance(u) ==> u.buffer.reserved.Some?)
  {
    hide StoreOk, ScreensOk;
  }

  lemma StoreWithin(b: Buffer)
    requires Valid(b) && BR.Bounded(b)
    ensures StoredBytes(b) + b.reservedBytes <= MAX_TEXT && Occupied(b) <= MAX_MESSAGES
  {
    hide Indexed, Listed, DistinctArrivals, UnreadOk, BytesOk, StoredBytes;
  }

  /** Taking the answer of a waiting message commits it. */
  lemma AcceptanceCommits(u: Ui, id: int, key: Key, sender: Bytes, content: Bytes)
    requires CanConsume(u) && ReservationMatches(u) && Valid(u.buffer) && u.turn == Top
    requires AwaitsAcceptance(u) && u.answer == Some(AcceptedAs(id))
    requires 0 < id && id !in u.buffer.byId && u.buffer.nextArrival != 0 && u.buffer.version != MAX_VERSION
    requires u.buffer.reserved == Some(BufferContents.Draft(key, sender, content))
    ensures var v := Consume(u);
      && InvalidResponse !in v.stops - u.stops && v.submitted == None && v.buffer.reserved == None
      && BufferContents.SentAs(v.buffer, id, key, sender, content)
  {
    hide Valid, Commit, BufferContents.SentAs;
    CommitAnswers(u.buffer, id);
    BufferContents.CommitFiles(u.buffer, id, key, sender, content);
    CommittedReserves(u.buffer, id);
  }

  lemma CommitAnswers(b: Buffer, id: int)
    requires b.reserved.Some? && b.reserved.value.key in b.conversations
    requires 0 < id && id !in b.byId && b.nextArrival != 0 && b.version != MAX_VERSION
    ensures Commit(b, id).1 == InsertResult.Stored
  {
    hide AddOutgoing, Plus64;
  }

  /** The interface never contradicts itself: a reservation is outstanding exactly while a
      message is submitted, and none of the stops for an inconsistent operation, a second
      reservation or an answer without a request can be reached. */
  lemma InterfaceIsConsistent(username: Bytes, steps: seq<Step>)
    ensures var u := Session(username, steps);
      && NoInternalStop(u)
      && (u.turn == Top || u.turn == Acting ==>
            (u.buffer.reserved.Some? <==> AwaitsAcceptance(u)) && (u.submitted.Some? <==> AwaitsAcceptance(u)))
  {
    hide Run, StoreOk, ScreensOk;
    var u := Session(username, steps);
    assert OperationOk(u);
  }

  /** A notification number noted at one moment selects, at any later one, the conversation it
      was shown for and no other; and the numbers are exactly 1..n. */
  lemma NumbersSelectConversations(username: Bytes, steps: seq<Step>, later: seq<Step>, n: nat, shown: Key, chosen: Key)
    requires var b := Session(username, steps).buffer; shown in b.conversations && b.conversations[shown].handle == n
    requires Selects(Run(Session(username, steps), later).buffer, n, chosen)
    ensures chosen == shown
    ensures 1 <= n <= |Session(username, steps).buffer.conversations|
  {
    var u := Session(username, steps);
    RunStays(u, later);
    StoreOfUi(u);
    var v := Run(u, later);
    StoreOfUi(v);
    hide Run, Session, UiOk;
  }
}
