/** clientf/terminal_ui.cpp as it runs: the operation and reservation state of the interface,
    changed in place around the session store, each method proved against its step. */
module TerminalUis {
  import opened Prelude
  import opened Tables
  import opened BufferState
  import opened BufferInvariant
  import opened MessageBuffers
  import opened UiState
  import UiDiscipline
  import Utf8

  class TerminalUi {
    const messageBuffer: MessageBuffer
    const username: Bytes
    var pendingOperation: Option<Operation>
    var expecting: bool
    var pendingResponse: Option<Answer>
    var submittedKey: Option<Key>
    var screens: seq<Screen>
    var stopReasons: set<Stop>
    var exitRequested: bool
    var uncertainAcceptance: bool
    var turn: Turn

    function State(): Ui
      reads this, messageBuffer
    {
      Ui(messageBuffer.State(), username, pendingOperation, expecting, pendingResponse, submittedKey, screens,
         stopReasons, exitRequested, uncertainAcceptance, turn)
    }

    ghost predicate StoreValid()
      reads messageBuffer
    {
      Valid(messageBuffer.State())
    }

    constructor (username: Bytes)
      ensures State() == UiState.Start(username) && StoreValid() && fresh(messageBuffer)
    {
      this.username := username;
      messageBuffer := new MessageBuffer();
      pendingOperation, expecting, pendingResponse, submittedKey, screens := None, false, None, None, [Main];
      stopReasons, exitRequested, uncertainAcceptance, turn := {}, false, false, Top;
    }

    method RequestStop(reason: Stop)
      modifies this`stopReasons
      ensures State() == Stopped(old(State()), reason)
    {
      stopReasons := stopReasons + {reason};
    }

    method Push(screen: Screen) returns (pushed: bool)
      modifies this`screens, this`stopReasons
      ensures State() == PushScreen(old(State()), screen) && pushed == (|old(screens)| < MAX_DEPTH)
    {
      if |screens| >= MAX_DEPTH {
        RequestStop(TooDeep);
        return false;
      }
      screens := screens + [screen];
      return true;
    }

    method OpenConversation(key: Key)
      requires StoreValid()
      modifies this, messageBuffer
      ensures StoreValid() && State() == UiState.OpenConversation(old(State()), key)
    {
      hide Valid;
      var result := messageBuffer.EnsureConversation(key);
      if result == CapacityExceeded {
        assert messageBuffer.State() == old(messageBuffer.State()) by { EnsureKeepsOnRefusal(old(messageBuffer.State()), key); }
        return;
      }
      var _ := Push(ConversationScreen(key));
    }

    method ClearOperation()
      modifies this`pendingOperation, this`expecting, this`pendingResponse
      ensures State() == UiState.ClearOperation(old(State()))
    {
      pendingOperation, expecting, pendingResponse := None, false, None;
    }

    /** A submission that came to nothing gives its reservation back. */
    method CancelSubmitted()
      requires StoreValid()
      modifies this`submittedKey, messageBuffer
      ensures StoreValid()
      ensures State() == var u := old(State());
        if u.submitted.None? then u else u.(buffer := Cancel(u.buffer), submitted := None)
    {
      hide Valid, Cancel;
      if submittedKey.Some? {
        messageBuffer.CancelOutgoing();
        submittedKey := None;
      }
    }

    method BeginOperation(operation: Operation, length: nat, sent: SendResult) returns (begun: bool)
      requires StoreValid()
      modifies this, messageBuffer
      ensures StoreValid() && (State(), begun) == Begin(old(State()), operation, length, sent)
    {
      hide Valid, SendFailed;
      if pendingOperation.Some? || length > MAX_REQUEST {
        return false;
      }
      if expecting || pendingResponse.Some? {
        RequestStop(InconsistentOperation);
        return false;
      }
      expecting := true;
      pendingOperation := Some(operation);
      if sent == Written {
        return true;
      }
      AbandonOperation(sent);
      return false;
    }

    /** The write of the operation just begun has failed. */
    method AbandonOperation(sent: SendResult)
      requires StoreValid()
      modifies this, messageBuffer
      ensures StoreValid()
      ensures State() == SendFailed(old(State()).(pending := None, expecting := false), sent)
    {
      hide Valid, Cancel;
      ClearOperation();
      if submittedKey.Some? {
        uncertainAcceptance := sent == Failed;
      }
      CancelSubmitted();
      if sent != TooLarge {
        exitRequested := true;
      }
    }

    method SubmitConversation(key: Key, content: Bytes, sent: SendResult)
      requires StoreValid()
      modifies this, messageBuffer
      ensures StoreValid() && State() == Submit(old(State()), key, content, sent)
    {
      hide Valid, Cancel, Reserve, Begin, RequestLength, Utf8.Valid;
      var length := RequestLength(key, content);
      if content == [] || !Utf8.Valid(content) || 0 in content || length > MAX_REQUEST {
        return;
      }
      var reserved := messageBuffer.ReserveOutgoing(key, username, content);
      ReserveKeepsOnRefusal(old(messageBuffer.State()), key, username, content);
      if reserved == CapacityExceeded {
        return;
      }
      if reserved != InsertResult.Stored {
        RequestStop(ReservationConflict);
        return;
      }
      SendSubmitted(key, length, sent);
    }

    /** The request of a message that has its reservation. */
    method SendSubmitted(key: Key, length: nat, sent: SendResult)
      requires StoreValid()
      modifies this, messageBuffer
      ensures StoreValid()
      ensures State() == var (v, ok) := Begin(old(State()).(submitted := Some(key)), Operation(true, true), length, sent);
        if ok then v else v.(buffer := Cancel(v.buffer), submitted := None)
    {
      hide Valid, Cancel, Begin;
      submittedKey := Some(key);
      var begun := BeginOperation(Operation(true, true), length, sent);
      if !begun {
        messageBuffer.CancelOutgoing();
        submittedKey := None;
      }
    }

    method ApplyForegroundResponse(operation: Operation, answer: Answer)
      requires StoreValid() && screens != []
      requires messageBuffer.reservedMessage.Some? ==> messageBuffer.reservedMessage.value.key in messageBuffer.conversations
      modifies this, messageBuffer
      ensures StoreValid() && State() == ApplyForeground(old(State()), operation, answer)
    {
      hide Valid, Cancel, Commit;
      if answer.Failure? || answer.Unreadable? {
        if answer.Unreadable? {
          RequestStop(InvalidResponse);
        }
        CancelSubmitted();
        return;
      }
      if answer.WrongSuccess? {
        RequestStop(InvalidResponse);
        return;
      }
      if operation.message && submittedKey.Some? {
        if !answer.AcceptedAs? {
          RequestStop(InvalidResponse);
          return;
        }
        CommitKeepsOnRefusal(messageBuffer.State(), answer.id);
        var committed := messageBuffer.CommitOutgoing(answer.id);
        if committed != InsertResult.Stored {
          RequestStop(InvalidResponse);
          return;
        }
        submittedKey := None;
        return;
      }
      if answer.AcceptedAs? {
        RequestStop(InvalidResponse);
        return;
      }
      ClosePage(answer.closesForm);
    }

    /** A page answer belongs to the screen that asked, which may lie under the notifications. */
    method ClosePage(closesForm: bool)
      requires screens != []
      modifies this`screens, this`stopReasons
      ensures var i := if Current(old(State())) == Notifications && |old(screens)| >= 2 then |old(screens)| - 2 else |old(screens)| - 1;
        State() == if old(screens)[i] != Other then Stopped(old(State()), InvalidResponse)
                   else if closesForm then old(State()).(screens := old(screens)[..i] + old(screens)[i + 1..])
                   else old(State())
    {
      var stateIndex := |screens| - 1;
      if screens[|screens| - 1] == Notifications && |screens| >= 2 {
        stateIndex := |screens| - 2;
      }
      if screens[stateIndex] != Other {
        RequestStop(InvalidResponse);
        return;
      }
      if closesForm {
        screens := screens[..stateIndex] + screens[stateIndex + 1..];
      }
    }

    /** The top of the loop: an answer is applied, and the loop is left if the connection is
        stopping. */
    method ConsumeResponse()
      requires StoreValid() && screens != []
      requires messageBuffer.reservedMessage.Some? ==> messageBuffer.reservedMessage.value.key in messageBuffer.conversations
      modifies this, messageBuffer
      ensures StoreValid() && State() == Consume(old(State()))
    {
      hide Valid, ApplyForeground;
      if pendingResponse.Some? {
        if pendingOperation.None? {
          RequestStop(NoContext);
        } else {
          if pendingOperation.value.foreground {
            ApplyForegroundResponse(pendingOperation.value, pendingResponse.value);
          } else if !pendingResponse.value.PageAnswer? && !pendingResponse.value.Failure? {
            RequestStop(InvalidResponse);
          }
          ClearOperation();
        }
      }
      turn := if stopReasons != {} then Leaving else Acting;
    }

    /** After the loop. */
    method LeaveLoop()
      requires StoreValid()
      modifies this, messageBuffer
      ensures StoreValid() && State() == Leave(old(State()))
    {
      hide Valid, Cancel;
      if pendingOperation.Some? && submittedKey.Some? {
        uncertainAcceptance := true;
        messageBuffer.CancelOutgoing();
      }
      turn := Gone;
    }

    // ----- Keys -----

    method GoBack()
      requires screens != []
      modifies this`screens
      ensures State() == Back(old(State()))
    {
      if screens[|screens| - 1] == Main || |screens| == 1 {
        return;
      }
      screens := screens[..|screens| - 1];
    }

    method OpenNotifications()
      requires screens != []
      modifies this`screens, this`stopReasons
      ensures State() == ToggleNotifications(old(State()))
    {
      if screens[|screens| - 1] == Notifications || (|screens| >= 2 && screens[|screens| - 2] == Notifications) {
        GoBack();
      } else {
        var _ := Push(Notifications);
      }
    }

    /** The number of a notification: the conversation that shows it is opened if it still has
        unread messages. */
    method SelectNotification(n: nat, ghost key: Key)
      requires UiDiscipline.UiOk(State()) && Selects(messageBuffer.State(), n, key)
      modifies this, messageBuffer
      ensures StoreValid() && State() == ChooseNumber(old(State()), key)
    {
      hide UiState.OpenConversation, UiDiscipline.UiOk, Valid;
      assert StoreValid() by { StoreOfInterface(State()); }
      if pendingOperation.Some? && pendingOperation.value.foreground {
        return;
      }
      var summaries, _, _ := messageBuffer.Snapshot(None);
      if found: Key :| found in summaries && summaries[found].handle == n {
        assert found == key by { OneConversation(State(), found, key); }
        if summaries[found].unreadCount > 0 {
          OpenConversation(found);
        }
      }
    }

    method ProcessEnter(choice: Choice)
      requires StoreValid() && screens != []
      modifies this, messageBuffer
      ensures StoreValid() && State() == Enter(old(State()), choice)
    {
      hide Valid, Submit, UiState.OpenConversation, Begin, PushScreen, Back;
      if pendingOperation.Some? && pendingOperation.value.foreground {
        return;
      }
      match screens[|screens| - 1]
      case ConversationScreen(key) =>
        if choice.Send? {
          SubmitConversation(key, choice.content, choice.sent);
        }
      case Notifications =>
        if choice.GoBack? {
          GoBack();
        }
      case _ =>
        match choice
        case Open(key) => OpenConversation(key);
        case Show => var _ := Push(Other);
        case GoBack => GoBack();
        case Request(shows, length, sent) => SendRequest(shows, length, sent);
        case Exit => exitRequested := true;
        case _ =>
    }

    /** A request of a menu or a form; its answer gets a screen of its own if it lists
        something. */
    method SendRequest(shows: bool, length: nat, sent: SendResult)
      requires StoreValid()
      modifies this, messageBuffer
      ensures StoreValid()
      ensures var v := if shows then PushScreen(old(State()), Other) else old(State());
        State() == if v.stops != old(State()).stops then v else Begin(v, Operation(true, false), length, sent).0
    {
      hide Valid, Begin;
      var stops := stopReasons;
      var pushed := true;
      if shows {
        pushed := Push(Other);
      }
      if pushed || stopReasons == stops {
        var _ := BeginOperation(Operation(true, false), length, sent);
      }
    }

    // ----- One step of either thread, and runs of steps -----

    /** The keys that mean the same on every screen. */
    method PressKey(step: Step)
      requires screens != []
      requires step.NotificationsKey? || step.EscapeKey? || step.Quit?
      modifies this
      ensures State() == var u := old(State());
        if step.NotificationsKey? then Acted(ToggleNotifications(u))
        else if step.Quit? then Acted(u.(exiting := true))
        else Acted(if WaitsForAnswer(u) && Current(u) != Notifications then u else Back(u))
    {
      hide ToggleNotifications, Back;
      if step.NotificationsKey? {
        OpenNotifications();
      } else if step.Quit? {
        exitRequested := true;
      } else if !(pendingOperation.Some? && pendingOperation.value.foreground) || screens[|screens| - 1] == Notifications {
        GoBack();
      }
      EndAction();
    }

    /** What an event asks of the interface thread once it is free to act. */
    method Act(step: Step)
      requires UiDiscipline.UiOk(State()) && turn == Acting
      requires !step.MessageArrives? && !step.AnswerArrives? && !step.OtherStop? && !step.ConsumeStep? && !step.LeaveStep?
      modifies this, messageBuffer
      ensures State() == Apply(old(State()), step)
    {
      hide UiDiscipline.UiOk, Valid, Enter, Begin, ChooseNumber, ToggleNotifications, Back, MarkViewed, Selects;
      assert StoreValid() && screens != [] by { StoreOfInterface(State()); UiDiscipline.CanApply(State()); }
      match step
      case ViewStep(through) =>
        if screens[|screens| - 1].ConversationScreen? {
          var _ := messageBuffer.View(screens[|screens| - 1].key, through);
        }
      case NameStep(length, sent) =>
        if pendingOperation.None? && stopReasons == {} {
          var _ := BeginOperation(Operation(false, false), length, sent);
        }
      case EnterStep(choice) =>
        ProcessEnter(choice);
        EndAction();
      case NumberStep(n, key) =>
        if screens[|screens| - 1] == Notifications {
          var chosen := IsNotification(n, key);
          if chosen {
            SelectNotification(n, key);
            EndAction();
          }
        }
      case FlushStep =>
        if stopReasons != {} {
          turn := Leaving;
        }
      case NotificationsKey => PressKey(step);
      case EscapeKey => PressKey(step);
      case Quit => PressKey(step);
    }

    method IsNotification(n: nat, key: Key) returns (selects: bool)
      ensures selects <==> Selects(messageBuffer.State(), n, key)
    {
      selects := key in messageBuffer.conversations && messageBuffer.conversations[key].handle == n
        && messageBuffer.conversations[key].unread != {};
    }

    /** The loop tests the exit flag. */
    method EndAction()
      modifies this`turn
      ensures State() == Acted(old(State()))
    {
      turn := if exitRequested then Leaving else Top;
    }

    method Perform(step: Step)
      requires UiDiscipline.UiOk(State())
      modifies this, messageBuffer
      ensures UiDiscipline.UiOk(State()) && old(UiDiscipline.CanConsume(State())) && State() == Apply(old(State()), step)
    {
      hide UiDiscipline.UiOk, Valid, TakeMessage, TakeAnswer, Consume, Leave;
      assert StoreValid() && UiDiscipline.CanConsume(State()) by {
        StoreOfInterface(State());
        UiDiscipline.CanApply(State());
      }
      UiDiscipline.StepKeeps(State(), step);
      match step
      case MessageArrives(d) => HandleMessage(d);
      case AnswerArrives(answer, associated) => HandleAnswer(answer, associated);
      case OtherStop => RequestStop(External);
      case ConsumeStep =>
        if turn == Top {
          ConsumeResponse();
        }
      case LeaveStep =>
        if turn == Leaving {
          LeaveLoop();
        }
      case _ =>
        if turn == Acting {
          Act(step);
        }
    }

    /** Any interleaving of the two threads' steps. */
    method Run(steps: seq<Step>)
      requires UiDiscipline.UiOk(State())
      modifies this, messageBuffer
      ensures UiDiscipline.UiOk(State()) && State() == UiDiscipline.Run(old(State()), steps)
    {
      hide UiDiscipline.UiOk, Apply;
      var i := 0;
      assert steps[0..] == steps;
      while i < |steps|
        invariant i <= |steps| && UiDiscipline.UiOk(State())
        invariant UiDiscipline.Run(State(), steps[i..]) == UiDiscipline.Run(old(State()), steps)
      {
        assert steps[i..][1..] == steps[i + 1..];
        Perform(steps[i]);
        i := i + 1;
      }
    }

    // ----- The receiver thread -----

    method HandleMessage(d: Delivery)
      requires StoreValid()
      modifies this, messageBuffer
      ensures StoreValid() && State() == TakeMessage(old(State()), d)
    {
      hide Valid, Receive;
      ReceiveKeepsOnRefusal(messageBuffer.State(), d);
      var result := messageBuffer.ReceiveValidated(d);
      if result == CapacityExceeded {
        RequestStop(Capacity);
      } else if result == Conflict {
        RequestStop(ConflictingMessage);
      }
    }

    method HandleAnswer(answer: Answer, associated: bool)
      modifies this`pendingResponse, this`stopReasons
      ensures State() == TakeAnswer(old(State()), answer, associated)
    {
      if !expecting || pendingResponse.Some? || !associated {
        RequestStop(AssociationFailed);
        return;
      }
      pendingResponse := Some(answer);
    }
  }

  lemma StoreOfInterface(u: Ui)
    requires UiDiscipline.UiOk(u)
    ensures Valid(u.buffer)
  {
  }

  lemma OneConversation(u: Ui, a: Key, b: Key)
    requires UiDiscipline.UiOk(u) && a in u.buffer.conversations && b in u.buffer.conversations
    requires u.buffer.conversations[a].handle == u.buffer.conversations[b].handle
    ensures a == b
  {
  }

  lemma EnsureKeepsOnRefusal(b: Buffer, key: Key)
    ensures Ensure(b, key).1 == CapacityExceeded ==> Ensure(b, key).0 == b
  {
  }

  lemma ReserveKeepsOnRefusal(b: Buffer, key: Key, sender: Bytes, content: Bytes)
    ensures Reserve(b, key, sender, content).1 != InsertResult.Stored ==> Reserve(b, key, sender, content).0 == b
  {
  }

  lemma CommitKeepsOnRefusal(b: Buffer, id: int)
    requires b.reserved.Some? ==> b.reserved.value.key in b.conversations
    ensures Commit(b, id).1 != InsertResult.Stored ==> Commit(b, id).0 == b
  {
  }

  lemma ReceiveKeepsOnRefusal(b: Buffer, d: Delivery)
    ensures Receive(b, d).1 != InsertResult.Stored ==> Receive(b, d).0 == b
  {
  }
}
