/** The client's session store (clientf/message_buffer.h) as a value, and what each operation
    of clientf/message_buffer.cpp makes of it. */
module BufferState {
  import opened Prelude
  import opened Tables

  const MAX_CONVERSATIONS: nat := 256
  const MAX_MESSAGES: nat := 4096
  const MAX_TEXT: nat := 16 * 1024 * 1024
  const MAX_VERSION: nat := TWO_64 - 1

  datatype Key = PrivateChat(username: Bytes) | GroupChat(group: int) | BroadcastChat

  datatype Message = Message(
    id: int,
    key: Key,
    sender: Bytes,
    senderId: Option<int>,
    content: Bytes,
    createdAt: Option<int>,
    outgoing: bool,
    arrival: nat)

  datatype Conversation = Conversation(handle: nat, messages: seq<Message>, unread: set<nat>)

  /** The 64-bit counters are naturals that wrap explicitly. */
  datatype Buffer = Buffer(
    conversations: map<Key, Conversation>,
    byId: map<int, Message>,
    reserved: Option<Message>,
    reservedCreated: bool,
    retained: nat,
    reservedBytes: nat,
    nextHandle: nat,
    nextArrival: nat,
    version: nat)

  const NEW_BUFFER: Buffer := Buffer(map[], map[], None, false, 0, 0, 1, 1, 0)

  datatype InsertResult = Stored | Duplicate | CapacityExceeded | Conflict

  datatype ViewResult = Viewed | NothingToView | VersionExhausted

  function KeyBytes(key: Key): nat {
    if key.PrivateChat? then |key.username| else 0
  }

  function TextBytes(key: Key, sender: Bytes, content: Bytes): nat {
    KeyBytes(key) + |sender| + |content|
  }

  function MessageBytes(m: Message): nat {
    TextBytes(m.key, m.sender, m.content)
  }

  /** Position of the first message whose id is not below `id`: `std::lower_bound` over a
      sorted list. */
  function LowerBound(messages: seq<Message>, id: int): (i: nat)
    ensures i <= |messages|
    ensures forall j | 0 <= j < i :: messages[j].id < id
    ensures i < |messages| ==> messages[i].id >= id
  {
    if messages == [] || messages[0].id >= id then 0 else 1 + LowerBound(messages[1..], id)
  }

  function InsertAt(messages: seq<Message>, i: nat, m: Message): seq<Message>
    requires i <= |messages|
  {
    messages[..i] + [m] + messages[i..]
  }

  function Ensure(b: Buffer, key: Key): (Buffer, InsertResult) {
    if key in b.conversations then (b, Duplicate)
    else if |b.conversations| >= MAX_CONVERSATIONS || KeyBytes(key) > Minus64(MAX_TEXT, b.retained) then
      (b, CapacityExceeded)
    else if b.nextHandle == 0 || b.nextHandle > MAX_CONVERSATIONS || b.version == MAX_VERSION then
      (b, CapacityExceeded)
    else
      (b.(conversations := b.conversations[key := Conversation(b.nextHandle, [], {})],
          nextHandle := b.nextHandle + 1,
          retained := Plus64(b.retained, KeyBytes(key)),
          version := b.version + 1), InsertResult.Stored)
  }

  /** The conversation a delivery belongs to; none when its fields do not fit its kind. */
  function KeyOf(d: Delivery): Option<Key> {
    match d.message.kind
    case Private => Some(PrivateChat(d.sender))
    case Broadcast => Some(BroadcastChat)
    case Group =>
      if d.message.groupId.Some? && 0 < d.message.groupId.value <= MAX_INT64 then Some(GroupChat(d.message.groupId.value))
      else None
  }

  predicate Readable(d: Delivery) {
    && 0 < d.message.id <= MAX_INT64 && 0 < d.message.senderId <= MAX_INT64 && 0 <= d.message.createdAt <= MAX_INT64
    && KeyOf(d).Some?
  }

  /** The message stored for a delivery that arrives as number `arrival`. */
  function Incoming(d: Delivery, arrival: nat): Message
    requires Readable(d)
  {
    Message(d.message.id, KeyOf(d).value, d.sender, Some(d.message.senderId), d.message.content,
            Some(d.message.createdAt), false, arrival)
  }

  predicate SameIncoming(stored: Message, d: Delivery)
    requires Readable(d)
  {
    && !stored.outgoing && stored.key == KeyOf(d).value && stored.sender == d.sender
    && stored.senderId == Some(d.message.senderId) && stored.content == d.message.content
    && stored.createdAt == Some(d.message.createdAt)
  }

  function Occupied(b: Buffer): nat {
    |b.byId| + (if b.reserved.Some? then 1 else 0)
  }

  predicate ReceiveRefused(b: Buffer, key: Key, bytes: nat) {
    || Occupied(b) >= MAX_MESSAGES
    || (key !in b.conversations && |b.conversations| >= MAX_CONVERSATIONS)
    || bytes > Minus64(Minus64(MAX_TEXT, b.retained), b.reservedBytes)
    || b.nextArrival == 0 || b.version == MAX_VERSION
  }

  /** A new message enters its conversation, the unread set and the index. */
  function AddIncoming(c: Conversation, m: Message): Conversation {
    Conversation(c.handle, InsertAt(c.messages, LowerBound(c.messages, m.id), m), c.unread + {m.arrival})
  }

  function Receive(b: Buffer, d: Delivery): (Buffer, InsertResult) {
    if !Readable(d) then (b, Conflict)
    else if d.message.id in b.byId then
      (b, if SameIncoming(b.byId[d.message.id], d) then Duplicate else Conflict)
    else
      var key := KeyOf(d).value;
      var created := key !in b.conversations;
      var bytes := TextBytes(key, d.sender, d.message.content) + (if created then KeyBytes(key) else 0);
      if ReceiveRefused(b, key, bytes) then (b, CapacityExceeded)
      else
        var m := Incoming(d, b.nextArrival);
        var c := if created then Conversation(b.nextHandle, [], {}) else b.conversations[key];
        (b.(conversations := b.conversations[key := AddIncoming(c, m)],
            byId := b.byId[m.id := m],
            nextHandle := if created then b.nextHandle + 1 else b.nextHandle,
            retained := Plus64(b.retained, bytes),
            nextArrival := Plus64(b.nextArrival, 1),
            version := b.version + 1), InsertResult.Stored)
  }

  function Reserve(b: Buffer, key: Key, sender: Bytes, content: Bytes): (Buffer, InsertResult) {
    if b.reserved.Some? then (b, Conflict)
    else
      var created := key !in b.conversations;
      var bytes := TextBytes(key, sender, content);
      var keyBytes := if created then KeyBytes(key) else 0;
      if || |b.byId| >= MAX_MESSAGES
         || (created && |b.conversations| >= MAX_CONVERSATIONS)
         || bytes + keyBytes > Minus64(MAX_TEXT, b.retained)
         || b.version == MAX_VERSION
      then (b, CapacityExceeded)
      else
        (b.(conversations := if created then b.conversations[key := Conversation(b.nextHandle, [], {})] else b.conversations,
            nextHandle := if created then b.nextHandle + 1 else b.nextHandle,
            retained := Plus64(b.retained, keyBytes),
            reserved := Some(Message(0, key, sender, None, content, None, true, 0)),
            reservedCreated := created,
            reservedBytes := bytes,
            version := b.version + 1), InsertResult.Stored)
  }

  function AddOutgoing(c: Conversation, m: Message): Conversation {
    c.(messages := InsertAt(c.messages, LowerBound(c.messages, m.id), m))
  }

  /** `conversations.at` throws when the reserved conversation is missing: it never is. */
  function Commit(b: Buffer, id: int): (Buffer, InsertResult)
    requires b.reserved.Some? ==> b.reserved.value.key in b.conversations
  {
    if b.reserved.None? || id <= 0 then (b, Conflict)
    else if id in b.byId || b.nextArrival == 0 || b.version == MAX_VERSION then (b, Conflict)
    else
      var m := b.reserved.value.(id := id, arrival := b.nextArrival);
      (b.(conversations := b.conversations[m.key := AddOutgoing(b.conversations[m.key], m)],
          byId := b.byId[id := m],
          retained := Plus64(b.retained, b.reservedBytes),
          reserved := None, reservedCreated := false, reservedBytes := 0,
          nextArrival := Plus64(b.nextArrival, 1),
          version := b.version + 1), InsertResult.Stored)
  }

  function Cancel(b: Buffer): Buffer {
    if b.reserved.None? then b
    else
      var key := b.reserved.value.key;
      var erased := b.reservedCreated && key in b.conversations && b.conversations[key].messages == [];
      b.(reserved := None, reservedCreated := false, reservedBytes := 0,
         retained := if erased then Minus64(b.retained, KeyBytes(key)) else b.retained,
         conversations := if erased then b.conversations - {key} else b.conversations,
         nextHandle := if erased then Minus64(b.nextHandle, 1) else b.nextHandle,
         version := if b.version != MAX_VERSION then b.version + 1 else b.version)
  }

  /** The unread marks go even when the version cannot be raised: the exception comes last. */
  function MarkViewed(b: Buffer, key: Key, through: nat): (Buffer, ViewResult) {
    if key !in b.conversations then (b, NothingToView)
    else
      var c := b.conversations[key];
      var viewed := set a | a in c.unread && a <= through;
      if viewed == {} then (b, NothingToView)
      else
        var b' := b.(conversations := b.conversations[key := c.(unread := c.unread - viewed)]);
        if b.version == MAX_VERSION then (b', VersionExhausted) else (b'.(version := b.version + 1), Viewed)
  }

  /** The newest arrival among the messages of an open conversation, 0 when there is none. */
  function MaxArrival(messages: seq<Message>): (n: nat)
    ensures forall m | m in messages :: m.arrival <= n
    ensures n == 0 || exists m :: m in messages && m.arrival == n
  {
    if messages == [] then 0
    else
      var rest := MaxArrival(messages[..|messages| - 1]);
      var last := messages[|messages| - 1].arrival;
      if last > rest then last else rest
  }

  /** The messages and the newest arrival a snapshot shows of its active conversation. */
  function Shown(b: Buffer, active: Option<Key>): (seq<Message>, nat) {
    if active.Some? && active.value in b.conversations then
      (b.conversations[active.value].messages, MaxArrival(b.conversations[active.value].messages))
    else ([], 0)
  }
}
