/** A run that breaks the text limit: the bound of BufferRuns needs its discipline. */
module BufferLimits {
  import opened Prelude
  import opened Tables
  import T = Tables
  import opened BufferState
  import opened BufferInvariant
  import opened BufferRuns

  const ALICE: Bytes := [0x61]

  /** `n` letters. */
  function Letters(n: nat): (s: Bytes)
    ensures |s| == n
  {
    seq(n, _ => 0x61 as bv8)
  }

  /** Some broadcast of `n` letters. */
  function Broadcasted(id: int, n: nat): Delivery {
    Delivery(T.Stored(id, Broadcast, 1, None, Letters(n), 0), ALICE)
  }

  /** A reservation takes all the room, and a conversation is opened beside it. */
  function Overcommitted(): (b: Buffer)
    ensures Valid(b)
  {
    Reach([EnsureOp(BroadcastChat), ReserveOp(BroadcastChat, [], Letters(MAX_TEXT)), EnsureOp(PrivateChat(ALICE))])
  }

  lemma OvercommittedIs()
    ensures var b := Overcommitted();
      && b.retained == 1 && b.reservedBytes == MAX_TEXT && b.byId == map[] && b.nextArrival == 1 && b.version == 3
      && b.conversations.Keys == {BroadcastChat, PrivateChat(ALICE)}
  {
    hide Letters, Valid;
    var o1, o2, o3 := EnsureOp(BroadcastChat), ReserveOp(BroadcastChat, [], Letters(MAX_TEXT)), EnsureOp(PrivateChat(ALICE));
    NewIsValid();
    var b1 := Ensure(NEW_BUFFER, BroadcastChat).0;
    assert b1 == Buffer(map[BroadcastChat := Conversation(1, [], {})], map[], None, false, 0, 0, 2, 1, 1);
    StepKeeps(NEW_BUFFER, o1);
    var b2 := Reserve(b1, BroadcastChat, [], Letters(MAX_TEXT)).0;
    StepKeeps(b1, o2);
    assert b2.retained == 0 && b2.reservedBytes == MAX_TEXT && b2.conversations == b1.conversations && b2.nextHandle == 2;
    var b3 := Ensure(b2, PrivateChat(ALICE)).0;
    assert [o1, o2, o3][1..] == [o2, o3] && [o2, o3][1..] == [o3] && [o3][1..] == [];
    assert Step(NEW_BUFFER, o1) == b1 && Step(b1, o2) == b2;
    StepKeeps(b2, o3);
    assert Step(b2, o3) == b3;
    assert Run(b2, [o3]) == b3;
    assert Run(b1, [o2, o3]) == b3;
  }

  /** Without the discipline the bound is lost, and with it the limit itself: the subtraction
      wraps, and a received message of any size up to 2^63 bytes is stored. */
  lemma TheBoundNeedsTheDiscipline(n: nat)
    requires 0 < n < 0x8000_0000_0000_0000
    ensures var b := Overcommitted();
      && !Bounded(b) && b.retained + b.reservedBytes == MAX_TEXT + 1
      && var (b', r) := Receive(b, Broadcasted(7, n));
         r == InsertResult.Stored && b'.retained == n + 2
  {
    hide Overcommitted, Valid, Bounded, Receive;
    OvercommittedIs();
    var b := Overcommitted();
    assert !Bounded(b) by {
      if Bounded(b) {
        NoWrap(b);
        BoundedAdds(b);
      }
    }
    Wrapped(b, n);
  }

  lemma BoundedAdds(b: Buffer)
    requires Bounded(b) && b.retained == StoredBytes(b)
    ensures b.retained + b.reservedBytes <= MAX_TEXT
  {
    hide StoredBytes;
  }

  lemma Wrapped(b: Buffer, n: nat)
    requires 0 < n < 0x8000_0000_0000_0000
    requires b.retained == 1 && b.reservedBytes == MAX_TEXT && b.byId == map[] && b.nextArrival == 1 && b.version == 3
    requires BroadcastChat in b.conversations
    ensures var (b', r) := Receive(b, Broadcasted(7, n)); r == InsertResult.Stored && b'.retained == n + 2
  {
    hide Letters, AddIncoming;
    var d := Broadcasted(7, n);
    assert Readable(d) && KeyOf(d) == Some(BroadcastChat);
    assert TextBytes(BroadcastChat, d.sender, d.message.content) == n + 1;
    assert Minus64(Minus64(MAX_TEXT, b.retained), b.reservedBytes) == TWO_64 - 1;
    assert Occupied(b) <= 1;
    assert !ReceiveRefused(b, BroadcastChat, n + 1);
    hide ReceiveRefused, Readable;
  }
}
