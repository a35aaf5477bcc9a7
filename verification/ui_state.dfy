/** How the terminal interface (clientf/terminal_ui.cpp) drives the session store: conversation
    screens, the one pending operation, the reservation of a submitted message and its
    response. What the server and the network answer are parameters of the steps. */
module UiState {
  import opened Prelude
  import opened Tables
  import opened BufferState
  import opened PageWriter
  import Framing
  import Utf8

  const MAX_DEPTH: nat := 8
  const MAX_REQUEST: nat := Framing.SERVER_LIMIT

  datatype Screen = Main | Other | Notifications | ConversationScreen(key: Key)

  /** A request whose answer is awaited: one of the user's, or a background name lookup.
      `message` says that it submits a message from a conversation screen. */
  datatype Operation = Operation(foreground: bool, message: bool)

  /** An answer that passed the association check. */
  datatype Answer =
    | Failure
    | Unreadable
    | WrongSuccess
    | AcceptedAs(id: int)
    | PageAnswer(closesForm: bool)

  datatype SendResult = Written | TooLarge | Failed

  /** Where the interface thread stands: about to take a response, free to act, or done. */
  datatype Turn = Top | Acting | Leaving | Gone

  datatype Ui = Ui(
    buffer: Buffer,
    username: Bytes,
    pending: Option<Operation>,
    expecting: bool,
    answer: Option<Answer>,
    submitted: Option<Key>,
    screens: seq<Screen>,
    stops: set<Stop>,
    exiting: bool,
    uncertain: bool,
    turn: Turn)

  /** Reasons to stop the connection. */
  datatype Stop =
    | External
    | Capacity
    | ConflictingMessage
    | AssociationFailed
    | InvalidResponse
    | NoContext
    | InconsistentOperation
    | ReservationConflict
    | TooDeep

  function Start(username: Bytes): Ui {
    Ui(NEW_BUFFER, username, None, false, None, None, [Main], {}, false, false, Top)
  }

  function Stopped(u: Ui, reason: Stop): Ui { u.(stops := u.stops + {reason}) }

  function Current(u: Ui): Screen
    requires u.screens != []
  {
    u.screens[|u.screens| - 1]
  }

  function PushScreen(u: Ui, s: Screen): Ui {
    if |u.screens| >= MAX_DEPTH then Stopped(u, TooDeep) else u.(screens := u.screens + [s])
  }

  /** `back`. */
  function Back(u: Ui): Ui
    requires u.screens != []
  {
    if Current(u) == Main || |u.screens| == 1 then u else u.(screens := u.screens[..|u.screens| - 1])
  }

  function ToggleNotifications(u: Ui): Ui
    requires u.screens != []
  {
    if Current(u) == Notifications || (|u.screens| >= 2 && u.screens[|u.screens| - 2] == Notifications) then Back(u)
    else PushScreen(u, Notifications)
  }

  function OpenConversation(u: Ui, key: Key): Ui {
    var (b, r) := Ensure(u.buffer, key);
    if r == CapacityExceeded then u else PushScreen(u.(buffer := b), ConversationScreen(key))
  }

  function ClearOperation(u: Ui): Ui {
    u.(pending := None, expecting := false, answer := None)
  }

  /** What a failed write leaves: the operation is dropped, a submission gives its reservation
      back, and anything but a line that was too large ends the loop. */
  function SendFailed(u: Ui, sent: SendResult): Ui {
    var c := ClearOperation(u);
    var c' := if c.submitted.None? then c
              else c.(buffer := Cancel(c.buffer), submitted := None, uncertain := sent == Failed);
    if sent == TooLarge then c' else c'.(exiting := true)
  }

  /** `beginOperation`: `length` is the encoded length of the request, `sent` what writing
      it comes to. */
  function Begin(u: Ui, op: Operation, length: nat, sent: SendResult): (Ui, bool) {
    if u.pending.Some? || length > MAX_REQUEST then (u, false)
    else if u.expecting || u.answer.Some? then (Stopped(u, InconsistentOperation), false)
    else if sent == Written then (u.(pending := Some(op), expecting := true), true)
    else (SendFailed(u, sent), false)
  }

  /** Length of a message request in compact JSON: the numbers are its fixed text. */
  function RequestLength(key: Key, content: Bytes): nat {
    TextLength(content) +
    match key
    case PrivateChat(receiver) => 41 + TextLength(receiver)
    case GroupChat(group) => 39 + Digits(group)
    case BroadcastChat => 31
  }

  /** What the draft must be for a request to be made of it. */
  predicate Submittable(key: Key, content: Bytes) {
    content != [] && Utf8.Valid(content) && 0 !in content && RequestLength(key, content) <= MAX_REQUEST
  }

  /** `submitConversation` on a conversation screen. */
  function Submit(u: Ui, key: Key, content: Bytes, sent: SendResult): Ui {
    if !Submittable(key, content) then u
    else
      var (b, r) := Reserve(u.buffer, key, u.username, content);
      if r == CapacityExceeded then u
      else if r != InsertResult.Stored then Stopped(u, ReservationConflict)
      else
        var (v, ok) := Begin(u.(buffer := b, submitted := Some(key)), Operation(true, true), RequestLength(key, content), sent);
        if ok then v else v.(buffer := Cancel(v.buffer), submitted := None)
  }

  function WaitsForAnswer(u: Ui): bool {
    u.pending.Some? && u.pending.value.foreground
  }

  /** What the Enter key asks for on the current screen. */
  datatype Choice =
    | Send(content: Bytes, sent: SendResult)
    | Number(n: nat)
    | Open(key: Key)
    | Show
    | GoBack
    | Request(shows: bool, length: nat, sent: SendResult)
    | Exit
    | Nothing

  /** The conversation a notification number stands for, if it still has unread messages. */
  ghost predicate Selects(b: Buffer, n: nat, key: Key) {
    key in b.conversations && b.conversations[key].handle == n && b.conversations[key].unread != {}
  }

  /** `processEnter`: nothing while a foreground operation waits; otherwise what the screen
      offers. Choosing a notification is `ChooseNumber`, which needs the number's meaning. */
  function Enter(u: Ui, choice: Choice): Ui
    requires u.screens != []
  {
    if WaitsForAnswer(u) then u
    else
      match Current(u)
      case ConversationScreen(key) =>
        (match choice
         case Send(content, sent) => Submit(u, key, content, sent)
         case _ => u)
      case Notifications => if choice.GoBack? then Back(u) else u
      case _ =>
        (match choice
         case Open(key) => OpenConversation(u, key)
         case Show => PushScreen(u, Other)
         case GoBack => Back(u)
         case Request(shows, length, sent) =>
           var v := if shows then PushScreen(u, Other) else u;
           if v.stops != u.stops then v else Begin(v, Operation(true, false), length, sent).0
         case Exit => u.(exiting := true)
         case _ => u)
  }

  /** Enter with a number on the notification screen that stands for `key`. */
  function ChooseNumber(u: Ui, key: Key): Ui {
    if WaitsForAnswer(u) then u else OpenConversation(u, key)
  }

  /** `applyForegroundResponse`. */
  function ApplyForeground(u: Ui, op: Operation, answer: Answer): Ui
    requires u.screens != []
    requires u.buffer.reserved.Some? ==> u.buffer.reserved.value.key in u.buffer.conversations
  {
    match answer
    case Failure | Unreadable =>
      var v := if answer == Unreadable then Stopped(u, InvalidResponse) else u;
      if v.submitted.None? then v else v.(buffer := Cancel(v.buffer), submitted := None)
    case WrongSuccess => Stopped(u, InvalidResponse)
    case AcceptedAs(id) =>
      if !op.message || u.submitted.None? then Stopped(u, InvalidResponse)
      else
        var (b, r) := Commit(u.buffer, id);
        if r != InsertResult.Stored then Stopped(u, InvalidResponse) else u.(buffer := b, submitted := None)
    case PageAnswer(closesForm) =>
      if op.message && u.submitted.Some? then Stopped(u, InvalidResponse)
      else
        var i := if Current(u) == Notifications && |u.screens| >= 2 then |u.screens| - 2 else |u.screens| - 1;
        if u.screens[i] != Other then Stopped(u, InvalidResponse)
        else if closesForm then u.(screens := u.screens[..i] + u.screens[i + 1..])
        else u
  }

  /** `consumeResponse`, and the test of the stop flag that follows it. */
  function Consume(u: Ui): Ui
    requires u.screens != []
    requires u.buffer.reserved.Some? ==> u.buffer.reserved.value.key in u.buffer.conversations
  {
    var v :=
      if u.answer.None? then u
      else if u.pending.None? then Stopped(u, NoContext)
      else if u.pending.value.foreground then ClearOperation(ApplyForeground(u, u.pending.value, u.answer.value))
      else ClearOperation(if u.answer.value.PageAnswer? || u.answer.value.Failure? then u else Stopped(u, InvalidResponse));
    v.(turn := if v.stops != {} then Leaving else Acting)
  }

  /** The end of the loop: an unanswered submission is given up as uncertain. */
  function Leave(u: Ui): Ui {
    if u.pending.Some? && u.submitted.Some? then u.(uncertain := true, buffer := Cancel(u.buffer), turn := Gone)
    else u.(turn := Gone)
  }

  // ----- The receiver thread -----

  /** A MESSAGE frame. */
  function TakeMessage(u: Ui, d: Delivery): Ui {
    var (b, r) := Receive(u.buffer, d);
    if r == CapacityExceeded then Stopped(u, Capacity)
    else if r == Conflict then Stopped(u, ConflictingMessage)
    else u.(buffer := b)
  }

  /** Any other frame; `associated` is whether it names the expected operation. */
  function TakeAnswer(u: Ui, a: Answer, associated: bool): Ui {
    if !u.expecting || u.answer.Some? || !associated then Stopped(u, AssociationFailed)
    else u.(answer := Some(a))
  }

  // ----- Steps -----

  datatype Step =
    | MessageArrives(delivery: Delivery)
    | AnswerArrives(answer: Answer, associated: bool)
    | OtherStop
    | ConsumeStep
    | ViewStep(through: nat)
    | NameStep(length: nat, sent: SendResult)
    | EnterStep(choice: Choice)
    | NumberStep(n: nat, key: Key)
    | FlushStep
    | NotificationsKey
    | EscapeKey
    | Quit
    | LeaveStep

  /** After an action the loop tests the exit flag. */
  function Acted(u: Ui): Ui { u.(turn := if u.exiting then Leaving else Top) }

  /** One atomic step of the interface thread or of the receiver thread; a step that is not
      enabled changes nothing. */
  ghost function Apply(u: Ui, s: Step): Ui
    requires u.screens != []
    requires u.buffer.reserved.Some? ==> u.buffer.reserved.value.key in u.buffer.conversations
  {
    match s
    case MessageArrives(d) => TakeMessage(u, d)
    case AnswerArrives(a, associated) => TakeAnswer(u, a, associated)
    case OtherStop => Stopped(u, External)
    case ConsumeStep => if u.turn == Top then Consume(u) else u
    case LeaveStep => if u.turn == Leaving then Leave(u) else u
    case _ =>
      if u.turn != Acting then u
      else
        match s
        case ViewStep(through) =>
          if Current(u).ConversationScreen? then u.(buffer := MarkViewed(u.buffer, Current(u).key, through).0) else u
        case NameStep(length, sent) =>
          if u.pending.Some? || u.stops != {} then u else Begin(u, Operation(false, false), length, sent).0
        case EnterStep(choice) => Acted(Enter(u, choice))
        case NumberStep(n, key) =>
          if Current(u) == Notifications && Selects(u.buffer, n, key) then Acted(ChooseNumber(u, key)) else u
        case FlushStep => if u.stops != {} then u.(turn := Leaving) else u
        case NotificationsKey => Acted(ToggleNotifications(u))
        case EscapeKey => Acted(if WaitsForAnswer(u) && Current(u) != Notifications then u else Back(u))
        case Quit => Acted(u.(exiting := true))
        case _ => u
  }
}
