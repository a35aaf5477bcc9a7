/** clientf/message_buffer.cpp as it runs: a store whose methods update its fields in place,
    each proved against the operation it stands for. */
module MessageBuffers {
  import opened Prelude
  import opened Tables
  import opened BufferState
  import opened BufferInvariant

  datatype Summary = Summary(handle: nat, messageCount: nat, unreadCount: nat, latestUnread: nat)

  /** The last of a set of arrivals, 0 for none. */
  ghost predicate IsLatest(unread: set<nat>, latest: nat) {
    && (forall a | a in unread :: a <= latest)
    && (if unread == {} then latest == 0 else latest in unread)
  }

  /** What a snapshot tells about one conversation. */
  ghost predicate Summarizes(c: Conversation, s: Summary) {
    s.handle == c.handle && s.messageCount == |c.messages| && s.unreadCount == |c.unread| && IsLatest(c.unread, s.latestUnread)
  }

  /** In a sorted list there is one position before which ids are below and from which not. */
  lemma LowerBoundUnique(messages: seq<Message>, id: int, i: nat)
    requires Sorted(messages) && i <= |messages|
    requires forall j | 0 <= j < i :: messages[j].id < id
    requires i < |messages| ==> id <= messages[i].id
    ensures i == LowerBound(messages, id)
  {
    var k := LowerBound(messages, id);
  }

  lemma FirstInsert(m: Message)
    ensures InsertAt([], LowerBound([], m.id), m) == [m]
  {
  }

  lemma ListsSorted(b: Buffer)
    requires Valid(b)
    ensures forall k | k in b.conversations :: Sorted(b.conversations[k].messages)
    ensures b.reserved.Some? ==> b.reserved.value.key in b.conversations
  {
    forall k | k in b.conversations
      ensures Sorted(b.conversations[k].messages)
    {
      assert ListOk(b, k, b.conversations[k].messages);
    }
  }

  /** `std::lower_bound`. */
  method FindPosition(messages: seq<Message>, id: int) returns (position: nat)
    requires Sorted(messages)
    ensures position == LowerBound(messages, id)
  {
    var low, high := 0, |messages|;
    while low < high
      invariant 0 <= low <= high <= |messages|
      invariant forall j | 0 <= j < low :: messages[j].id < id
      invariant forall j | high <= j < |messages| :: id <= messages[j].id
    {
      var middle := (low + high) / 2;
      if messages[middle].id < id {
        low := middle + 1;
      } else {
        high := middle;
      }
    }
    position := low;
    LowerBoundUnique(messages, id, position);
  }

  /** `*unread.rbegin()`. */
  method LatestOf(unread: set<nat>) returns (latest: nat)
    ensures IsLatest(unread, latest)
  {
    latest := 0;
    var rest := unread;
    while rest != {}
      invariant rest <= unread
      invariant forall a | a in unread && a !in rest :: a <= latest
      invariant latest == 0 || latest in unread
      decreases |rest|
    {
      var a :| a in rest;
      rest := rest - {a};
      if a > latest {
        latest := a;
      }
    }
    if unread != {} && latest == 0 {
      assert forall a | a in unread :: a == 0;
    }
  }

  /** The greatest arrival of a list, 0 when it is empty. */
  method NewestOf(messages: seq<Message>) returns (newest: nat)
    ensures newest == MaxArrival(messages)
  {
    newest := 0;
    var i := 0;
    while i < |messages|
      invariant i <= |messages| && newest == MaxArrival(messages[..i])
    {
      assert messages[..i + 1][..i] == messages[..i];
      if messages[i].arrival > newest {
        newest := messages[i].arrival;
      }
      i := i + 1;
    }
    assert messages[..i] == messages;
  }

  class MessageBuffer {
    var conversations: map<Key, Conversation>
    var messagesById: map<int, Message>
    var reservedMessage: Option<Message>
    var reservedConversationCreated: bool
    var retainedTextBytes: nat
    var reservedTextBytes: nat
    var nextHandle: nat
    var nextArrivalSequence: nat
    var stateVersion: nat

    function State(): (b: Buffer)
      reads this
    {
      Buffer(conversations, messagesById, reservedMessage, reservedConversationCreated, retainedTextBytes,
             reservedTextBytes, nextHandle, nextArrivalSequence, stateVersion)
    }

    constructor ()
      ensures State() == NEW_BUFFER && Valid(State())
    {
      conversations, messagesById, reservedMessage, reservedConversationCreated := map[], map[], None, false;
      retainedTextBytes, reservedTextBytes, nextHandle, nextArrivalSequence, stateVersion := 0, 0, 1, 1, 0;
    }

    method EnsureConversation(key: Key) returns (result: InsertResult)
      requires Valid(State())
      modifies this
      ensures (State(), result) == Ensure(old(State()), key) && Valid(State())
    {
      hide Valid;
      EnsureKeeps(State(), key);
      if key in conversations {
        return Duplicate;
      }
      var bytes := KeyBytes(key);
      if |conversations| >= MAX_CONVERSATIONS || bytes > Minus64(MAX_TEXT, retainedTextBytes) {
        return CapacityExceeded;
      }
      if nextHandle == 0 || nextHandle > MAX_CONVERSATIONS || stateVersion == MAX_VERSION {
        return CapacityExceeded;
      }
      conversations := conversations[key := Conversation(nextHandle, [], {})];
      nextHandle := nextHandle + 1;
      retainedTextBytes := Plus64(retainedTextBytes, bytes);
      stateVersion := stateVersion + 1;
      return InsertResult.Stored;
    }

    /** Puts a message into its sorted list. */
    method Insert(message: Message)
      requires message.key in conversations && Sorted(conversations[message.key].messages)
      modifies this`conversations
      ensures var c := old(conversations)[message.key];
        conversations == old(conversations)[message.key :=
          c.(messages := InsertAt(c.messages, LowerBound(c.messages, message.id), message))]
    {
      var conversation := conversations[message.key];
      var position := FindPosition(conversation.messages, message.id);
      conversations := conversations[message.key := conversation.(messages := InsertAt(conversation.messages, position, message))];
    }

    /** Files an incoming message under its conversation, unread, opening it if need be. */
    method FileIncoming(stored: Message, newConversation: bool)
      requires newConversation <==> stored.key !in conversations
      requires !newConversation ==> Sorted(conversations[stored.key].messages)
      modifies this`conversations, this`nextHandle
      ensures var c := if newConversation then Conversation(old(nextHandle), [], {}) else old(conversations)[stored.key];
        conversations == old(conversations)[stored.key := AddIncoming(c, stored)]
      ensures nextHandle == if newConversation then old(nextHandle) + 1 else old(nextHandle)
    {
      if newConversation {
        conversations := conversations[stored.key := Conversation(nextHandle, [stored], {stored.arrival})];
        nextHandle := nextHandle + 1;
        FirstInsert(stored);
        ghost var none: set<nat> := {};
        assert none + {stored.arrival} == {stored.arrival};
      } else {
        Insert(stored);
        conversations := conversations[stored.key :=
          conversations[stored.key].(unread := conversations[stored.key].unread + {stored.arrival})];
      }
    }

    /** Stores an incoming message that takes `bytes` of text. */
    method StoreIncoming(stored: Message, newConversation: bool, bytes: nat)
      requires newConversation <==> stored.key !in conversations
      requires !newConversation ==> Sorted(conversations[stored.key].messages)
      modifies this
      ensures var b := old(State());
        var c := if newConversation then Conversation(b.nextHandle, [], {}) else b.conversations[stored.key];
        State() == b.(conversations := b.conversations[stored.key := AddIncoming(c, stored)],
                      byId := b.byId[stored.id := stored],
                      nextHandle := if newConversation then b.nextHandle + 1 else b.nextHandle,
                      retained := Plus64(b.retained, bytes),
                      nextArrival := Plus64(b.nextArrival, 1),
                      version := b.version + 1)
    {
      hide AddIncoming, Plus64, Sorted;
      FileIncoming(stored, newConversation);
      messagesById := messagesById[stored.id := stored];
      retainedTextBytes := Plus64(retainedTextBytes, bytes);
      nextArrivalSequence := Plus64(nextArrivalSequence, 1);
      stateVersion := stateVersion + 1;
    }

    method ReceiveValidated(d: Delivery) returns (result: InsertResult)
      requires Valid(State())
      modifies this
      ensures (State(), result) == Receive(old(State()), d) && Valid(State())
    {
      hide Valid, AddIncoming, InsertAt, LowerBound, SameIncoming, KeyOf, Plus64, Minus64, KeyBytes, TextBytes;
      ReceiveKeeps(State(), d);
      ListsSorted(State());
      if !Readable(d) {
        return Conflict;
      }
      var key := KeyOf(d).value;
      if d.message.id in messagesById {
        return if SameIncoming(messagesById[d.message.id], d) then Duplicate else Conflict;
      }
      var newConversation := key !in conversations;
      var bytes := TextBytes(key, d.sender, d.message.content) + (if newConversation then KeyBytes(key) else 0);
      if || |messagesById| + (if reservedMessage.Some? then 1 else 0) >= MAX_MESSAGES
         || (newConversation && |conversations| >= MAX_CONVERSATIONS)
         || bytes > Minus64(Minus64(MAX_TEXT, retainedTextBytes), reservedTextBytes)
         || nextArrivalSequence == 0
         || stateVersion == MAX_VERSION {
        return CapacityExceeded;
      }
      var stored := Incoming(d, nextArrivalSequence);
      StoreIncoming(stored, newConversation, bytes);
      return InsertResult.Stored;
    }

    method ReserveOutgoing(key: Key, sender: Bytes, content: Bytes) returns (result: InsertResult)
      requires Valid(State())
      modifies this
      ensures (State(), result) == Reserve(old(State()), key, sender, content) && Valid(State())
    {
      hide Valid, Plus64, Minus64, KeyBytes, TextBytes;
      ReserveKeeps(State(), key, sender, content);
      if reservedMessage.Some? {
        return Conflict;
      }
      var newConversation := key !in conversations;
      var reservationBytes := TextBytes(key, sender, content);
      var conversationBytes := if newConversation then KeyBytes(key) else 0;
      if || |messagesById| >= MAX_MESSAGES
         || (newConversation && |conversations| >= MAX_CONVERSATIONS)
         || reservationBytes + conversationBytes > Minus64(MAX_TEXT, retainedTextBytes)
         || stateVersion == MAX_VERSION {
        return CapacityExceeded;
      }
      if newConversation {
        conversations := conversations[key := Conversation(nextHandle, [], {})];
        nextHandle := nextHandle + 1;
      }
      retainedTextBytes := Plus64(retainedTextBytes, conversationBytes);
      reservedMessage := Some(Message(0, key, sender, None, content, None, true, 0));
      reservedConversationCreated := newConversation;
      reservedTextBytes := reservationBytes;
      stateVersion := stateVersion + 1;
      return InsertResult.Stored;
    }

    /** Stores the outgoing message that was reserved. */
    method StoreReserved(message: Message)
      requires message.key in conversations && Sorted(conversations[message.key].messages)
      modifies this
      ensures var b := old(State());
        State() == b.(conversations := b.conversations[message.key := AddOutgoing(b.conversations[message.key], message)],
                      byId := b.byId[message.id := message],
                      retained := Plus64(b.retained, b.reservedBytes),
                      reserved := None, reservedCreated := false, reservedBytes := 0,
                      nextArrival := Plus64(b.nextArrival, 1),
                      version := b.version + 1)
    {
      hide InsertAt, LowerBound, Plus64, Sorted;
      Insert(message);
      messagesById := messagesById[message.id := message];
      retainedTextBytes := Plus64(retainedTextBytes, reservedTextBytes);
      reservedMessage := None;
      reservedConversationCreated := false;
      reservedTextBytes := 0;
      nextArrivalSequence := Plus64(nextArrivalSequence, 1);
      stateVersion := stateVersion + 1;
    }

    method CommitOutgoing(messageId: int) returns (result: InsertResult)
      requires Valid(State())
      modifies this
      ensures (State(), result) == Commit(old(State()), messageId) && Valid(State())
    {
      hide Valid, AddOutgoing, Plus64;
      CommitKeeps(State(), messageId);
      ListsSorted(State());
      if reservedMessage.None? || messageId <= 0 {
        return Conflict;
      }
      if messageId in messagesById || nextArrivalSequence == 0 || stateVersion == MAX_VERSION {
        return Conflict;
      }
      var message := reservedMessage.value.(id := messageId, arrival := nextArrivalSequence);
      StoreReserved(message);
      return InsertResult.Stored;
    }

    method CancelOutgoing()
      requires Valid(State())
      modifies this
      ensures State() == Cancel(old(State())) && Valid(State())
    {
      hide Valid;
      CancelKeeps(State());
      if reservedMessage.None? {
        return;
      }
      var key := reservedMessage.value.key;
      reservedMessage := None;
      reservedTextBytes := 0;
      if reservedConversationCreated && key in conversations && conversations[key].messages == [] {
        retainedTextBytes := Minus64(retainedTextBytes, KeyBytes(key));
        conversations := conversations - {key};
        nextHandle := Minus64(nextHandle, 1);
      }
      reservedConversationCreated := false;
      if stateVersion != MAX_VERSION {
        stateVersion := stateVersion + 1;
      }
    }

    method Snapshot(active: Option<Key>) returns (summaries: map<Key, Summary>, messages: seq<Message>, newest: nat)
      ensures summaries.Keys == conversations.Keys
      ensures forall key | key in conversations :: Summarizes(conversations[key], summaries[key])
      ensures (messages, newest) == Shown(State(), active)
    {
      summaries := map[];
      var rest := conversations.Keys;
      while rest != {}
        invariant rest <= conversations.Keys && summaries.Keys == conversations.Keys - rest
        invariant forall key | key in summaries :: Summarizes(conversations[key], summaries[key])
        decreases |rest|
      {
        var key :| key in rest;
        var conversation := conversations[key];
        var latest := LatestOf(conversation.unread);
        summaries := summaries[key := Summary(conversation.handle, |conversation.messages|, |conversation.unread|, latest)];
        rest := rest - {key};
      }
      messages, newest := [], 0;
      if active.Some? && active.value in conversations {
        messages := conversations[active.value].messages;
        newest := NewestOf(messages);
      }
    }

    method View(key: Key, through: nat) returns (result: ViewResult)
      requires Valid(State())
      modifies this
      ensures (State(), result) == MarkViewed(old(State()), key, through) && Valid(State())
    {
      hide Valid;
      MarkViewedKeeps(State(), key, through);
      if key !in conversations {
        return NothingToView;
      }
      var conversation := conversations[key];
      var viewed := set a | a in conversation.unread && a <= through;
      if viewed == {} {
        return NothingToView;
      }
      conversations := conversations[key := conversation.(unread := conversation.unread - viewed)];
      if stateVersion == MAX_VERSION {
        return VersionExhausted;
      }
      stateVersion := stateVersion + 1;
      return Viewed;
    }
  }
}
