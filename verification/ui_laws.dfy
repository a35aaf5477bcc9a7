/** What the user sees and gets: which screen each key leads to, what a submission holds back
    and gives back, where a message and an answer end up (clientf/terminal_ui.cpp). */
module UiLaws {
  import opened Prelude
  import opened Tables
  import opened BufferState
  import opened BufferInvariant
  import opened BufferHandles
  import BR = BufferRuns
  import BC = BufferContents
  import opened UiState
  import opened UiDiscipline

  // ----- Opening a conversation -----

  /** There is room in the store for one more conversation, or it is open already. */
  ghost predicate CanShow(b: Buffer, key: Key) {
    || key in b.conversations
    || (|b.conversations| < MAX_CONVERSATIONS && StoredBytes(b) + KeyBytes(key) <= MAX_TEXT && b.version != MAX_VERSION)
  }

  /** The store with this conversation open. */
  predicate OpensOnly(b: Buffer, b': Buffer, key: Key) {
    && key in b'.conversations && b'.byId == b.byId && b'.reserved == b.reserved
    && (key in b.conversations ==> b' == b)
    && (key !in b.conversations ==> b'.conversations == b.conversations[key := Conversation(b.nextHandle, [], {})])
  }

  lemma EnsureOpensOnly(b: Buffer, key: Key)
    requires StoreOk(b) && b.reserved == None
    ensures var (b', r) := Ensure(b, key);
      && (r != CapacityExceeded <==> CanShow(b, key))
      && (r == CapacityExceeded ==> b' == b) && (r != CapacityExceeded ==> OpensOnly(b, b', key))
  {
    hide Valid, BR.Bounded, HandlesOk, StoredBytes, Plus64, Minus64, KeyBytes;
    BR.NoWrap(b);
    HandleIsLeft(b);
  }

  lemma HandleIsLeft(b: Buffer)
    requires Valid(b)
    ensures b.nextHandle == |b.conversations| + 1
  {
    hide Indexed, Listed, DistinctArrivals, UnreadOk, BytesOk, ReservationOk;
  }

  /** What asking for a conversation leads to: it is on top of the screens as they were, or
      nothing is shown; too many screens stop the connection. */
  ghost predicate Shows(u: Ui, v: Ui, key: Key) {
    && v == u.(buffer := v.buffer, screens := v.screens, stops := v.stops)
    && (if CanShow(u.buffer, key) then OpensOnly(u.buffer, v.buffer, key) else v.buffer == u.buffer)
    && (if CanShow(u.buffer, key) && |u.screens| < MAX_DEPTH then
          v.screens == u.screens + [ConversationScreen(key)] && v.stops == u.stops
        else
          v.screens == u.screens && v.stops == (if CanShow(u.buffer, key) then u.stops + {TooDeep} else u.stops))
  }

  lemma OpeningShows(u: Ui, key: Key)
    requires UiOk(u) && Idle(u)
    ensures Shows(u, OpenConversation(u, key), key)
  {
    hide StoreOk, ScreensOk, Ensure, CanShow;
    EnsureOpensOnly(u.buffer, key);
  }

  /** Free to act, whatever the screen. */
  predicate MayAct(u: Ui) { u.turn == Acting && !WaitsForAnswer(u) }

  /** Whoever is chosen on a menu or a list is shown; nobody is while an answer is awaited or
      on a screen that offers no choice. */
  lemma ChosenConversationIsShown(u: Ui, key: Key)
    requires UiOk(u) && CanConsume(u) && u.turn == Acting
    ensures var v := Apply(u, EnterStep(Open(key)));
      if !WaitsForAnswer(u) && (Current(u) == Main || Current(u) == Other) then
        exists w :: Shows(u, w, key) && v == w.(turn := v.turn) && (v.turn == Leaving <==> u.exiting)
      else v.screens == u.screens && v.buffer == u.buffer && v.stops == u.stops
  {
    hide UiOk, OpenConversation, Shows, CanConsume;
    if !WaitsForAnswer(u) {
      NotWaitingIsIdle(u);
      OpeningShows(u, key);
      ShownStays(u, OpenConversation(u, key), key);
    }
  }

  lemma ShownStays(u: Ui, w: Ui, key: Key)
    requires Shows(u, w, key)
    ensures w.exiting == u.exiting && w.turn == u.turn
  {
    hide CanShow, OpensOnly;
  }

  /** A number on the notification screen shows the conversation that has this number and
      unread messages, and no other. */
  lemma NumberedConversationIsShown(u: Ui, n: nat, key: Key)
    requires UiOk(u) && CanConsume(u) && u.turn == Acting && Current(u) == Notifications && Selects(u.buffer, n, key)
    ensures var v := Apply(u, NumberStep(n, key));
      && (if !WaitsForAnswer(u) && |u.screens| < MAX_DEPTH then
            && v.screens == u.screens + [ConversationScreen(key)] && Current(v) == ConversationScreen(key) && v.stops == u.stops
          else v.screens == u.screens)
      && v.buffer == u.buffer
      && key in v.buffer.conversations && v.buffer.conversations[key].handle == n
  {
    hide UiOk, OpenConversation, StoreOk, ScreensOk;
    if !WaitsForAnswer(u) {
      NotWaitingIsIdle(u);
      OpeningShows(u, key);
    }
  }

  // ----- Submitting -----

  /** There is room for the text beside everything stored. */
  ghost predicate CanHold(b: Buffer, key: Key, sender: Bytes, content: Bytes) {
    |b.byId| < MAX_MESSAGES && StoredBytes(b) + TextBytes(key, sender, content) <= MAX_TEXT && b.version != MAX_VERSION
  }

  lemma HoldsExactlyWhen(b: Buffer, key: Key, sender: Bytes, content: Bytes)
    requires StoreOk(b) && b.reserved == None && key in b.conversations
    ensures var (b', r) := Reserve(b, key, sender, content);
      && (r == InsertResult.Stored <==> CanHold(b, key, sender, content))
      && (r == InsertResult.Stored ==> b'.reserved == Some(BC.Draft(key, sender, content)) && b'.byId == b.byId
                                       && b'.conversations == b.conversations && !b'.reservedCreated)
      && (r != InsertResult.Stored ==> r == CapacityExceeded && b' == b)
  {
    hide StoredBytes, Valid, BR.Bounded, HandlesOk, TextBytes, KeyBytes, Minus64, Plus64;
    BC.UnreservedBytes(b);
    BC.ReserveAnswers(b, key, sender, content);
  }

  /** A reservation on an open conversation leaves no trace when it is given back. */
  lemma HeldAndGivenBack(b: Buffer, key: Key, sender: Bytes, content: Bytes)
    requires StoreOk(b) && b.reserved == None && key in b.conversations
    requires Reserve(b, key, sender, content).1 == InsertResult.Stored
    ensures var b' := Cancel(Reserve(b, key, sender, content).0);
      && b' == b.(version := b'.version) && Cancel(b') == b'
  {
    UnreservedIsBlank(b);
    hide Valid, BR.Bounded, HandlesOk, TextBytes, Minus64;
    assert Plus64(b.retained, 0) == b.retained by { RetainedIsSmall(b); }
  }

  lemma UnreservedIsBlank(b: Buffer)
    requires StoreOk(b) && b.reserved == None
    ensures b.reservedBytes == 0 && !b.reservedCreated
  {
    hide BR.Bounded, HandlesOk, Indexed, Listed, DistinctArrivals, UnreadOk, BytesOk, CountsOk;
  }

  lemma RetainedIsSmall(b: Buffer)
    requires StoreOk(b)
    ensures b.retained < TWO_64
  {
    hide BR.Bounded, HandlesOk;
    CountersBelow(b);
  }

  /** Enter on a conversation screen. The draft is sent and its text held back, under the
      user's name and for the conversation shown, exactly when it may be sent, there is room,
      no other request is under way and the write succeeds; in every other case nothing is
      held, and the store is as it was but for its version. A write that fails ends the
      session, and what it tried to send is uncertain unless it was too large. */
  lemma SubmissionHoldsItsText(u: Ui, content: Bytes, sent: SendResult)
    requires UiOk(u) && CanConsume(u) && MayAct(u) && Current(u).ConversationScreen?
    ensures var v, key := Apply(u, EnterStep(Send(content, sent))), Current(u).key;
      var room := Submittable(key, content) && CanHold(u.buffer, key, u.username, content);
      && v.screens == u.screens && v.stops == u.stops
      && (if room && u.pending == None && sent == Written then
            && v.submitted == Some(key) && v.buffer.reserved == Some(BC.Draft(key, u.username, content))
            && v.buffer.conversations == u.buffer.conversations && v.buffer.byId == u.buffer.byId
            && v.pending == Some(Operation(true, true)) && v.expecting && v.answer == None
          else
            v.submitted == None && v.buffer == u.buffer.(version := v.buffer.version) && v.pending == u.pending)
      && (v.exiting <==> u.exiting || (room && u.pending == None && sent == Failed))
      && v.uncertain == (if room && u.pending == None && sent != Written then sent == Failed else u.uncertain)
      && (v.turn == Leaving <==> v.exiting) && (v.turn == Top <==> !v.exiting)
  {
    hide StoreOk, Submit, CanHold, Submittable;
    NotWaitingIsIdle(u);
    assert Current(u) in u.screens;
    SubmittedOrNot(u, Current(u).key, content, sent);
  }

  /** What Enter makes of a draft. */
  ghost predicate SubmitOutcome(u: Ui, v: Ui, key: Key, content: Bytes, sent: SendResult) {
    var room := Submittable(key, content) && CanHold(u.buffer, key, u.username, content);
    && v.screens == u.screens && v.stops == u.stops && v.turn == u.turn
    && (if room && u.pending == None && sent == Written then
          && v.submitted == Some(key) && v.buffer.reserved == Some(BC.Draft(key, u.username, content))
          && v.buffer.conversations == u.buffer.conversations && v.buffer.byId == u.buffer.byId
          && v.pending == Some(Operation(true, true)) && v.expecting && v.answer == None
        else
          v.submitted == None && v.buffer == u.buffer.(version := v.buffer.version) && v.pending == u.pending)
    && (v.exiting <==> u.exiting || (room && u.pending == None && sent == Failed))
    && v.uncertain == (if room && u.pending == None && sent != Written then sent == Failed else u.uncertain)
  }

  lemma SubmittedOrNot(u: Ui, key: Key, content: Bytes, sent: SendResult)
    requires StoreOk(u.buffer) && OperationOk(u) && Idle(u) && key in u.buffer.conversations
    ensures SubmitOutcome(u, Submit(u, key, content, sent), key, content, sent)
  {
    hide StoreOk, Submittable, RequestLength, Reserve, Cancel, CanHold, Begin, SubmitOutcome, OperationOk;
    HoldsExactlyWhen(u.buffer, key, u.username, content);
    var (b, r) := Reserve(u.buffer, key, u.username, content);
    if Submittable(key, content) && r == InsertResult.Stored {
      MayBeSent(u, key, content, sent);
    } else {
      assert Submit(u, key, content, sent) == u;
      NothingSubmitted(u, key, content, sent);
    }
  }

  lemma NothingSubmitted(u: Ui, key: Key, content: Bytes, sent: SendResult)
    requires Idle(u) && !(Submittable(key, content) && CanHold(u.buffer, key, u.username, content))
    ensures SubmitOutcome(u, u, key, content, sent)
  {
    hide Submittable, CanHold;
  }

  lemma MayBeSent(u: Ui, key: Key, content: Bytes, sent: SendResult)
    requires StoreOk(u.buffer) && OperationOk(u) && Idle(u) && key in u.buffer.conversations
    requires Submittable(key, content) && CanHold(u.buffer, key, u.username, content)
    requires Reserve(u.buffer, key, u.username, content).1 == InsertResult.Stored
    ensures SubmitOutcome(u, Submit(u, key, content, sent), key, content, sent)
  {
    hide StoreOk, Submittable, RequestLength, Reserve, Cancel, CanHold, Begin;
    HoldsExactlyWhen(u.buffer, key, u.username, content);
    HeldAndGivenBack(u.buffer, key, u.username, content);
    LengthFits(key, content);
    var b := Reserve(u.buffer, key, u.username, content).0;
    MessageBegins(u.(buffer := b, submitted := Some(key)), RequestLength(key, content), sent);
  }

  /** What beginning the request of a message comes to. */
  lemma MessageBegins(u: Ui, length: nat, sent: SendResult)
    requires OperationOk(u) && !WaitsForAnswer(u) && u.submitted.Some? && length <= MAX_REQUEST
    ensures var (v, ok) := Begin(u, Operation(true, true), length, sent);
      && (ok <==> u.pending == None && sent == Written)
      && v == u.(buffer := v.buffer, pending := v.pending, expecting := v.expecting, submitted := v.submitted,
                 exiting := v.exiting, uncertain := v.uncertain, answer := v.answer)
      && (ok ==> v.buffer == u.buffer && v.submitted == u.submitted && v.pending == Some(Operation(true, true))
                 && v.expecting && v.answer == None && v.exiting == u.exiting && v.uncertain == u.uncertain)
      && (!ok ==>
                 && v.pending == u.pending
                 && v.buffer == (if u.pending == None then Cancel(u.buffer) else u.buffer)
                 && v.exiting == (u.exiting || (u.pending == None && sent == Failed))
                 && v.uncertain == (if u.pending == None then sent == Failed else u.uncertain))
  {
    hide Cancel;
  }

  lemma LengthFits(key: Key, content: Bytes)
    requires Submittable(key, content)
    ensures RequestLength(key, content) <= MAX_REQUEST
  {
  }

  // ----- What arrives -----

  /** There is a place, room for the text beside everything stored and reserved, and a number
      left for a new message. */
  ghost predicate HasRoom(b: Buffer, d: Delivery)
    requires Readable(d)
  {
    var key := KeyOf(d).value;
    && Occupied(b) < MAX_MESSAGES && BC.PlaceFor(b, key)
    && BC.Fits(b, TextBytes(key, d.sender, d.message.content) + BC.OpeningBytes(b, key))
    && b.nextArrival != 0 && b.version != MAX_VERSION
  }

  /** Message `d` stands unread in its conversation, as it came. */
  predicate FiledUnread(b: Buffer, d: Delivery) {
    && d.message.id in b.byId
    && var m := b.byId[d.message.id];
    && BC.BelongsTo(d, m.key) && BC.Files(b, d.message.id, m) && m.arrival in b.conversations[m.key].unread
    && m.sender == d.sender && m.content == d.message.content && !m.outgoing
    && m.senderId == Some(d.message.senderId) && m.createdAt == Some(d.message.createdAt)
  }

  /** A message is filed in its conversation as it came, or was filed before, or the connection
      stops because it contradicts what is stored or finds no room; nothing else on the
      interface changes. */
  lemma ArrivingMessageIsFiled(u: Ui, d: Delivery)
    requires UiOk(u) && CanConsume(u)
    ensures var v, known := Apply(u, MessageArrives(d)), d.message.id in u.buffer.byId;
      && v == u.(buffer := v.buffer, stops := v.stops)
      && (if !Readable(d) || (known && !SameIncoming(u.buffer.byId[d.message.id], d)) then
            v == u.(stops := u.stops + {ConflictingMessage})
          else if known then v == u
          else if HasRoom(u.buffer, d) then v.stops == u.stops && FiledUnread(v.buffer, d)
          else v == u.(stops := u.stops + {Capacity}))
  {
    hide Receive, Valid, BR.Bounded, HandlesOk, ScreensOk, OperationOk, ReservationMatches, Readable, SameIncoming, BC.Fits, BC.PlaceFor;
    BC.ReceiveAnswers(u.buffer, d);
    if Receive(u.buffer, d).1 == InsertResult.Stored {
      BC.ReceivedTextIsKept(u.buffer, d, []);
    } else {
      ReceiveOtherwise(u.buffer, d);
    }
  }

  /** An answer waits to be taken when one is expected and none waits yet and it belongs to the
      request; otherwise the connection stops. */
  lemma ArrivingAnswerWaits(u: Ui, a: Answer, associated: bool)
    requires UiOk(u) && CanConsume(u)
    ensures var v := Apply(u, AnswerArrives(a, associated));
      if u.pending.Some? && u.answer == None && associated then v == u.(answer := Some(a))
      else v == u.(stops := u.stops + {AssociationFailed})
  {
    hide StoreOk, ScreensOk, ReservationMatches;
  }

  // ----- Taking an answer -----

  /** A failed or unreadable answer gives a waiting message's reservation back; a page closes
      the form it answers; anything unexpected stops the connection. In every case the request
      is over, and the loop goes on unless the connection is stopping. */
  lemma AnswerEndsItsRequest(u: Ui)
    requires UiOk(u) && CanConsume(u) && u.turn == Top && u.answer.Some?
    ensures u.pending.Some?
    ensures var v := Apply(u, ConsumeStep);
      && v.pending == None && !v.expecting && v.answer == None
      && u.stops <= v.stops <= u.stops + {InvalidResponse}
      && (v.turn == Leaving <==> v.stops != {}) && (v.turn == Acting <==> v.stops == {})
      && v.exiting == u.exiting && v.uncertain == u.uncertain
  {
    hide StoreOk, ScreensOk, ApplyForeground;
    ForegroundAddsStops(u, u.pending.value, u.answer.value);
  }

  lemma ForegroundAddsStops(u: Ui, op: Operation, answer: Answer)
    requires CanConsume(u)
    ensures var v := ApplyForeground(u, op, answer);
      && u.stops <= v.stops <= u.stops + {InvalidResponse}
      && v.exiting == u.exiting && v.uncertain == u.uncertain && v.turn == u.turn
  {
    hide Commit, Cancel;
  }

  /** A failure or an unreadable answer: the held text is given back. */
  lemma FailureGivesBack(u: Ui)
    requires UiOk(u) && CanConsume(u) && u.turn == Top && u.pending.Some? && u.pending.value.foreground
    requires u.answer == Some(Failure) || u.answer == Some(Unreadable)
    ensures var v := Apply(u, ConsumeStep);
      && v.submitted == None && v.buffer.reserved == None && v.buffer.byId == u.buffer.byId && v.screens == u.screens
      && v.stops == (if u.answer == Some(Failure) then u.stops else u.stops + {InvalidResponse})
  {
    hide Valid, BR.Bounded, HandlesOk, ScreensOk, Minus64;
  }

  /** Where the answer of a list or form belongs: the top screen, or the one under the
      notifications. */
  function AskedFrom(screens: seq<Screen>): nat
    requires screens != []
  {
    if screens[|screens| - 1] == Notifications && |screens| >= 2 then |screens| - 2 else |screens| - 1
  }

  /** A page answers the screen that asked: a form is closed, a list stays; without such a
      screen, or in place of an acceptance, it stops the connection. */
  lemma PageAnswersItsScreen(u: Ui, closes: bool)
    requires UiOk(u) && CanConsume(u) && u.turn == Top && u.answer == Some(PageAnswer(closes))
    requires u.pending.Some? && u.pending.value.foreground
    ensures var v, i := Apply(u, ConsumeStep), AskedFrom(u.screens);
      var expected := u.submitted == None && u.screens[i] == Other;
      && v.buffer == u.buffer && v.submitted == u.submitted
      && v.stops == (if expected then u.stops else u.stops + {InvalidResponse})
      && v.screens == (if expected && closes then u.screens[..i] + u.screens[i + 1..] else u.screens)
  {
    hide UiOk, ApplyForeground;
    if u.submitted.Some? { SubmittedIsMessage(u); }
    PageApplied(u, u.pending.value, closes);
  }

  lemma PageApplied(u: Ui, op: Operation, closes: bool)
    requires CanConsume(u) && (u.submitted.Some? ==> op.message)
    ensures var v, i := ApplyForeground(u, op, PageAnswer(closes)), AskedFrom(u.screens);
      var expected := u.submitted == None && u.screens[i] == Other;
      v == u.(stops := if expected then u.stops else u.stops + {InvalidResponse},
              screens := if expected && closes then u.screens[..i] + u.screens[i + 1..] else u.screens)
  {
    hide Commit, Cancel;
    var i := AskedFrom(u.screens);
    assert u.submitted == None && u.screens[i] == Other && closes ==>
      ApplyForeground(u, op, PageAnswer(closes)) == u.(screens := u.screens[..i] + u.screens[i + 1..]);
  }

  lemma SubmittedIsMessage(u: Ui)
    requires UiOk(u) && u.turn == Top && u.submitted.Some?
    ensures AwaitsAcceptance(u)
  {
    hide StoreOk, ScreensOk;
  }

  /** An acceptance nobody waits for, or a success of the wrong kind, stops the connection. */
  lemma UnexpectedSuccessStops(u: Ui)
    requires UiOk(u) && CanConsume(u) && u.turn == Top && u.pending.Some? && u.answer.Some?
    requires u.answer == Some(WrongSuccess) || (u.answer.value.AcceptedAs? && !AwaitsAcceptance(u))
    ensures var v := Apply(u, ConsumeStep);
      && v.stops == u.stops + {InvalidResponse} && v.buffer == u.buffer && v.submitted == u.submitted && v.screens == u.screens
  {
    hide StoreOk, ScreensOk, Commit;
  }

  /** A background answer changes nothing but the request; a success of another kind than a
      page stops the connection. */
  lemma BackgroundAnswerIsTaken(u: Ui)
    requires UiOk(u) && CanConsume(u) && u.turn == Top && u.pending == Some(Operation(false, false)) && u.answer.Some?
    ensures var v := Apply(u, ConsumeStep);
      && v.buffer == u.buffer && v.screens == u.screens && v.submitted == u.submitted
      && (v.stops == u.stops <==> u.answer.value.PageAnswer? || u.answer == Some(Failure) || InvalidResponse in u.stops)
  {
    hide StoreOk, ScreensOk;
  }

  /** Leaving the loop with an unanswered submission gives its text back and reports that its
      fate is uncertain. */
  lemma LeavingIsReported(u: Ui)
    requires UiOk(u) && CanConsume(u) && u.turn == Leaving
    ensures var v := Apply(u, LeaveStep);
      && v.turn == Gone && v.screens == u.screens && v.buffer.byId == u.buffer.byId
      && v.uncertain == (u.uncertain || (u.pending.Some? && u.submitted.Some?))
      && (u.pending.Some? && u.submitted.Some? ==> v.buffer.reserved == None)
      && (u.pending == None || u.submitted == None ==> v == u.(turn := Gone))
  {
    hide StoreOk, ScreensOk, Minus64;
  }

  // ----- Keys -----

  /** Opening the notifications and pressing the key again leads back to where one was. */
  lemma NotificationsKeyTwice(u: Ui)
    requires u.screens != [] && |u.screens| < MAX_DEPTH && Current(u) != Notifications
    requires |u.screens| >= 2 ==> u.screens[|u.screens| - 2] != Notifications
    ensures var v := ToggleNotifications(u);
      && v == u.(screens := u.screens + [Notifications])
      && ToggleNotifications(v) == u
  {
    assert (u.screens + [Notifications])[..|u.screens|] == u.screens;
  }

  /** From a conversation opened on top of the notifications, the key leads back to them. */
  lemma NotificationsKeyReturns(u: Ui)
    requires |u.screens| >= 2 && Current(u) != Main && u.screens[|u.screens| - 2] == Notifications
    ensures ToggleNotifications(u) == u.(screens := u.screens[..|u.screens| - 1])
  {
  }

  /** Escape goes back to the screen below, but never below the main menu and, while an answer
      is awaited, only from the notifications. */
  lemma EscapeGoesBack(u: Ui)
    requires UiOk(u) && CanConsume(u) && u.turn == Acting
    ensures var v := Apply(u, EscapeKey);
      && v == u.(screens := v.screens, turn := v.turn)
      && v.screens == (if |u.screens| >= 2 && Current(u) != Main && (!WaitsForAnswer(u) || Current(u) == Notifications)
                       then u.screens[..|u.screens| - 1] else u.screens)
      && (v.turn == Leaving <==> u.exiting) && (v.turn == Top <==> !u.exiting)
  {
    hide StoreOk;
  }

  /** Looking at a conversation marks what was shown as read and touches nothing else. */
  lemma ViewingMarksTheShown(u: Ui, through: nat)
    requires UiOk(u) && CanConsume(u) && u.turn == Acting
    ensures var v := Apply(u, ViewStep(through));
      && v == u.(buffer := v.buffer)
      && (!Current(u).ConversationScreen? ==> v == u)
      && (Current(u).ConversationScreen? ==>
            var key := Current(u).key;
            && key in u.buffer.conversations && v.buffer.conversations.Keys == u.buffer.conversations.Keys
            && v.buffer.conversations[key].unread == (set a | a in u.buffer.conversations[key].unread && a > through)
            && forall k | k in u.buffer.conversations :: v.buffer.conversations[k].messages == u.buffer.conversations[k].messages
                 && (k != key ==> v.buffer.conversations[k] == u.buffer.conversations[k]))
  {
    hide StoreOk;
    CurrentShown(u);
    if Current(u).ConversationScreen? {
      ViewedOnly(u.buffer, Current(u).key, through);
    }
    hide MarkViewed;
  }

  lemma ViewedOnly(b: Buffer, key: Key, through: nat)
    requires key in b.conversations
    ensures var b' := MarkViewed(b, key, through).0;
      && b'.conversations.Keys == b.conversations.Keys
      && b'.conversations[key].unread == (set a | a in b.conversations[key].unread && a > through)
      && forall k | k in b.conversations :: b'.conversations[k].messages == b.conversations[k].messages
           && (k != key ==> b'.conversations[k] == b.conversations[k])
  {
    var unread := b.conversations[key].unread;
    var viewed := set a | a in unread && a <= through;
    assert unread - viewed == set a | a in unread && a > through;
    if viewed == {} { assert unread - viewed == unread; }
  }

  /** A name is looked up in the background only while no request is under way. */
  lemma NamesWaitTheirTurn(u: Ui, length: nat, sent: SendResult)
    requires UiOk(u) && CanConsume(u) && u.turn == Acting
    ensures var v := Apply(u, NameStep(length, sent));
      && v.buffer == u.buffer && v.screens == u.screens && v.stops == u.stops && v.turn == u.turn
      && (if u.pending.Some? || u.stops != {} || length > MAX_REQUEST then v == u
          else v.pending == (if sent == Written then Some(Operation(false, false)) else None) && v.expecting == (sent == Written)
               && (v.exiting <==> u.exiting || sent == Failed))
  {
    hide StoreOk, ScreensOk, Cancel;
  }

  lemma RequestBegins(u: Ui, length: nat, sent: SendResult)
    requires OperationOk(u) && u.submitted == None
    ensures var v := Begin(u, Operation(true, false), length, sent).0;
      && v == u.(pending := v.pending, expecting := v.expecting, exiting := v.exiting, answer := v.answer)
      && (if u.pending == None && length <= MAX_REQUEST then
            && v.pending == (if sent == Written then Some(Operation(true, false)) else None) && v.expecting == (sent == Written)
            && (v.exiting <==> u.exiting || sent == Failed)
          else v.pending == u.pending && v.expecting == u.expecting && v.exiting == u.exiting)
  {
  }

  /** A request from a menu or form is sent when none waits; a list gets a screen of its own. */
  lemma RequestIsSent(u: Ui, shows: bool, length: nat, sent: SendResult)
    requires UiOk(u) && CanConsume(u) && MayAct(u) && (Current(u) == Main || Current(u) == Other)
    requires |u.screens| < MAX_DEPTH
    ensures var v := Apply(u, EnterStep(Request(shows, length, sent)));
      && v.buffer == u.buffer && v.stops == u.stops
      && v.screens == (if shows then u.screens + [Other] else u.screens)
      && (if u.pending == None && length <= MAX_REQUEST then
            && v.pending == (if sent == Written then Some(Operation(true, false)) else None) && v.expecting == (sent == Written)
            && (v.exiting <==> u.exiting || sent == Failed)
          else v.pending == u.pending && v.expecting == u.expecting && v.exiting == u.exiting)
  {
    hide StoreOk, ScreensOk, Begin, ReservationMatches;
    NotWaitingIsIdle(u);
    RequestBegins(if shows then PushScreen(u, Other) else u, length, sent);
  }

  /** The main menu and the forms: a choice opens the screen it names, goes back, or ends the
      session; on the notifications only going back is offered. */
  lemma MenuChoices(u: Ui)
    requires UiOk(u) && CanConsume(u) && MayAct(u) && |u.screens| < MAX_DEPTH
    ensures Current(u) == Main || Current(u) == Other ==>
      Apply(u, EnterStep(Show)) == Acted(u.(screens := u.screens + [Other]))
    ensures Current(u) == Main || Current(u) == Other ==> Apply(u, EnterStep(Exit)) == u.(exiting := true, turn := Leaving)
    ensures Current(u) == Other || Current(u) == Notifications ==>
      Apply(u, EnterStep(GoBack)).screens == u.screens[..|u.screens| - 1]
    ensures Current(u) == Notifications ==>
      Apply(u, EnterStep(Show)) == Acted(u) && Apply(u, EnterStep(Exit)) == Acted(u)
  {
    hide UiOk, StoreOk, Submit, OpenConversation, Begin;
    assert |u.screens| == 1 ==> Current(u) == Main by { MainIsFirst(u); }
  }

  lemma MainIsFirst(u: Ui)
    requires UiOk(u)
    ensures u.screens != [] && u.screens[0] == Main
  {
    hide StoreOk;
  }

  /** The loop ends when the connection stops or the user leaves, and not otherwise. */
  lemma LoopEnds(u: Ui)
    requires UiOk(u) && CanConsume(u) && u.turn == Acting
    ensures Apply(u, FlushStep) == u.(turn := if u.stops != {} then Leaving else Acting)
    ensures Apply(u, Quit) == u.(exiting := true, turn := Leaving)
  {
    hide StoreOk, ScreensOk;
  }
}
