/** The database as values: the tables the server keeps and what each transaction of
    databasef/database_messaging.cpp and databasef/database_groups.cpp does to them. */
module Tables {
  import opened Prelude
  import Utf8

  const MAX_WIRE_TEXT: nat := 65536
  const MAX_GROUP_NAME: nat := 128
  const MAX_PAGE: nat := 1000

  datatype Kind = Private | Group | Broadcast

  /** A reading of the clock. */
  type Clock = t: int | 0 <= t <= MAX_INT64

  /** A row of `message_history`. */
  datatype Stored = Stored(id: int, kind: Kind, senderId: int, groupId: Option<int>, content: Bytes, createdAt: int)

  /** A history row joined with its sender's name: what pages and live routes carry. */
  datatype Delivery = Delivery(message: Stored, sender: Bytes)

  /** A row of the old `messages` table. */
  datatype Legacy = Legacy(id: int, sender: Bytes, receiver: Bytes, content: Bytes)

  /** User `i + 1` has the name `users[i]`, group `i + 1` the name `groups[i]`: both
      tables only grow, and their ids are handed out in order. `recipients` maps
      (message, user) to `acknowledged_at`. */
  datatype Tables = Tables(
    users: seq<Bytes>,
    groups: seq<Bytes>,
    members: set<(int, int)>,
    history: seq<Stored>,
    recipients: map<(int, int), Option<int>>,
    legacy: seq<Legacy>)

  const EMPTY: Tables := Tables([], [], {}, [], map[], [])

  datatype Acceptance =
    | Accepted(delivery: Delivery, recipients: seq<int>)
    | SenderNotFound
    | RecipientNotFound
    | SelfMessage
    | GroupNotFound
    | SenderNotMember
    | InvalidText
    | DatabaseFull

  datatype AckResult = Acknowledged | AlreadyAcknowledged | NotRecipient | InvalidAck

  /** The answers the handler reports as failures. */
  predicate AckRefused(r: AckResult) { r == NotRecipient || r == InvalidAck }

  datatype GroupCreation = GroupCreated(id: int) | DuplicateName | CreatorNotFound | InvalidName | GroupTableFull

  datatype GroupJoin = Joined | AlreadyMember | UnknownGroup | UnknownUser | InvalidJoin

  datatype Page =
    | Ready(rows: seq<Delivery>, through: int, hasMore: bool)
    | UserNotFound
    | InvalidCursor

  // ----- Lookups -----

  function FindUser(users: seq<Bytes>, name: Bytes): (r: Option<int>)
    ensures r.Some? ==> 1 <= r.value <= |users| && users[r.value - 1] == name
    ensures r.None? <==> name !in users
  {
    if users == [] then None
    else if users[|users| - 1] == name then Some(|users|)
    else FindUser(users[..|users| - 1], name)
  }

  predicate IsUser(t: Tables, u: int) { 1 <= u <= |t.users| }

  predicate WireText(text: Bytes) { 0 < |text| <= MAX_WIRE_TEXT && Utf8.Valid(text) }

  /** The ids of `s` among 1..n, ascending: an `ORDER BY id` over a set of rows. */
  function Ascending(s: set<int>, n: nat): (ids: seq<int>)
    ensures forall i, j | 0 <= i < j < |ids| :: ids[i] < ids[j]
    ensures forall u :: u in ids <==> u in s && 1 <= u <= n
  {
    if n == 0 then []
    else
      var below := Ascending(s, n - 1);
      assert forall i | 0 <= i < |below| :: below[i] in below;
      below + (if n in s then [n] else [])
  }

  // ----- Writing -----

  function NextId(history: seq<Stored>): int {
    if history == [] then 1 else history[|history| - 1].id + 1
  }

  /** The rows inserted for a committed message: one recipient row each, unacknowledged. */
  function Snapshot(id: int, recipients: seq<int>): (rows: map<(int, int), Option<int>>)
    ensures forall k :: k in rows <==> k.0 == id && k.1 in recipients
    ensures forall k | k in rows :: rows[k] == None
  {
    map r | r in recipients :: (id, r) := None
  }

  function Insert(t: Tables, kind: Kind, sender: int, group: Option<int>, content: Bytes, recipients: seq<int>, now: nat)
    : Tables
  {
    var id := NextId(t.history);
    t.(history := t.history + [Stored(id, kind, sender, group, content, now)],
       recipients := t.recipients + Snapshot(id, recipients))
  }

  function Accept(t: Tables, kind: Kind, sender: int, group: Option<int>, content: Bytes, recipients: seq<int>, now: nat)
    : (Tables, Acceptance)
    requires IsUser(t, sender)
  {
    if NextId(t.history) > MAX_INT64 || now > MAX_INT64 then (t, DatabaseFull)
    else
      var t' := Insert(t, kind, sender, group, content, recipients, now);
      (t', Accepted(WithSender(t', t'.history[|t.history|]), recipients))
  }

  function AcceptPrivate(t: Tables, sender: Bytes, receiver: Bytes, content: Bytes, now: nat): (Tables, Acceptance) {
    if !WireText(sender) || !WireText(content) || receiver == [] then (t, InvalidText)
    else
      var from := FindUser(t.users, sender);
      var to := FindUser(t.users, receiver);
      if from.None? then (t, SenderNotFound)
      else if to.None? then (t, RecipientNotFound)
      else if from == to then (t, SelfMessage)
      else Accept(t, Private, from.value, None, content, [to.value], now)
  }

  function GroupRecipients(t: Tables, group: int, sender: int): seq<int> {
    Ascending(set m | m in t.members && m.0 == group && m.1 != sender :: m.1, |t.users|)
  }

  function AcceptGroup(t: Tables, sender: Bytes, group: int, content: Bytes, now: nat): (Tables, Acceptance) {
    if !WireText(sender) || !WireText(content) || group <= 0 then (t, InvalidText)
    else
      var from := FindUser(t.users, sender);
      if from.None? then (t, SenderNotFound)
      else if group > |t.groups| then (t, GroupNotFound)
      else if (group, from.value) !in t.members then (t, SenderNotMember)
      else Accept(t, Group, from.value, Some(group), content, GroupRecipients(t, group, from.value), now)
  }

  /** The ids 1..n. */
  function UserIds(n: nat): (ids: set<int>)
    ensures forall u :: u in ids <==> 1 <= u <= n
  {
    if n == 0 then {} else UserIds(n - 1) + {n}
  }

  function AllUsersExcept(t: Tables, sender: int): seq<int> {
    Ascending(UserIds(|t.users|) - {sender}, |t.users|)
  }

  function AcceptBroadcast(t: Tables, sender: Bytes, content: Bytes, now: nat): (Tables, Acceptance) {
    if !WireText(sender) || !WireText(content) then (t, InvalidText)
    else
      var from := FindUser(t.users, sender);
      if from.None? then (t, SenderNotFound)
      else Accept(t, Broadcast, from.value, None, content, AllUsersExcept(t, from.value), now)
  }

  function Acknowledge(t: Tables, user: Bytes, id: int, now: nat): (Tables, AckResult) {
    var u := FindUser(t.users, user);
    if user == [] || id <= 0 then (t, InvalidAck)
    else if u.None? || (id, u.value) !in t.recipients then (t, NotRecipient)
    else if t.recipients[(id, u.value)].Some? then (t, AlreadyAcknowledged)
    else (t.(recipients := t.recipients[(id, u.value) := Some(now)]), Acknowledged)
  }

  function Register(t: Tables, name: Bytes): (Tables, bool) {
    if name == [] || name in t.users || |t.users| >= MAX_INT64 then (t, false) else (t.(users := t.users + [name]), true)
  }

  predicate AsciiWhitespace(b: bv8) {
    b == 0x20 || b == 0x09 || b == 0x0D || b == 0x0A || b == 0x0C || b == 0x0B
  }

  predicate GroupName(name: Bytes) {
    0 < |name| <= MAX_GROUP_NAME && exists b :: b in name && !AsciiWhitespace(b)
  }

  function CreateGroup(t: Tables, creator: Bytes, name: Bytes): (Tables, GroupCreation) {
    if creator == [] || !GroupName(name) then (t, InvalidName)
    else
      var u := FindUser(t.users, creator);
      if u.None? then (t, CreatorNotFound)
      else if name in t.groups then (t, DuplicateName)
      else if |t.groups| >= MAX_INT64 then (t, GroupTableFull)
      else
        var id := |t.groups| + 1;
        (t.(groups := t.groups + [name], members := t.members + {(id, u.value)}), GroupCreated(id))
  }

  function JoinGroup(t: Tables, user: Bytes, group: int): (Tables, GroupJoin) {
    if user == [] || group <= 0 then (t, InvalidJoin)
    else
      var u := FindUser(t.users, user);
      if u.None? then (t, UnknownUser)
      else if group > |t.groups| then (t, UnknownGroup)
      else if (group, u.value) in t.members then (t, AlreadyMember)
      else (t.(members := t.members + {(group, u.value)}), Joined)
  }

  // ----- Reading -----

  /** Which rows a page may show: unacknowledged deliveries, or everything the user sent
      or was snapshotted for. */
  predicate Visible(t: Tables, user: int, pending: bool, m: Stored) {
    if pending then (m.id, user) in t.recipients && t.recipients[(m.id, user)] == None
    else m.senderId == user || (m.id, user) in t.recipients
  }

  /** The visible rows of `h` with `after < id <= through`, in table order. */
  function Select(t: Tables, user: int, pending: bool, h: seq<Stored>, after: int, through: int): (rows: seq<Stored>)
  {
    if h == [] then []
    else
      (if after < h[0].id <= through && Visible(t, user, pending, h[0]) then [h[0]] else [])
      + Select(t, user, pending, h[1..], after, through)
  }

  /** `COALESCE(MAX(id), 0)` over the visible rows. */
  function Watermark(t: Tables, user: int, pending: bool, h: seq<Stored>): (w: int)
  {
    if h == [] then 0
    else
      var rest := Watermark(t, user, pending, h[1..]);
      if Visible(t, user, pending, h[0]) && h[0].id > rest then h[0].id else rest
  }

  /** `JOIN users AS u ON u.id = h.sender_id`. */
  function WithSender(t: Tables, m: Stored): (d: Delivery)
    requires IsUser(t, m.senderId)
  {
    Delivery(m, t.users[m.senderId - 1])
  }

  function Deliveries(t: Tables, rows: seq<Stored>): (ds: seq<Delivery>)
    requires forall i | 0 <= i < |rows| :: IsUser(t, rows[i].senderId)
    ensures |ds| == |rows|
    ensures forall i | 0 <= i < |rows| :: ds[i] == WithSender(t, rows[i])
  {
    seq(|rows|, i requires 0 <= i < |rows| => WithSender(t, rows[i]))
  }

  predicate PageArguments(after: int, through: Option<int>, limit: nat) {
    && after >= 0
    && (through.Some? ==> through.value >= 0 && after <= through.value)
    && (through.None? ==> after == 0)
    && 0 < limit <= MAX_PAGE
  }

  function Take<T>(s: seq<T>, n: nat): seq<T> { if |s| <= n then s else s[..n] }

  function FetchPage(t: Tables, name: Bytes, after: int, through: Option<int>, limit: nat, pending: bool): Page
    requires Consistent(t)
  {
    if name == [] || !PageArguments(after, through, limit) then InvalidCursor
    else
      var u := FindUser(t.users, name);
      if u.None? then UserNotFound
      else
        var w := if through.Some? then through.value else Watermark(t, u.value, pending, t.history);
        var rows := Select(t, u.value, pending, t.history, after, w);
        SelectSound(t, u.value, pending, t.history, after, w);
        Ready(Deliveries(t, Take(rows, limit)), w, |rows| > limit)
  }

  // ----- What the tables keep -----

  predicate Increasing(h: seq<Stored>) {
    forall i, j | 0 <= i < j < |h| :: h[i].id < h[j].id
  }

  predicate RowOk(t: Tables, m: Stored) {
    && 0 < m.id <= MAX_INT64
    && IsUser(t, m.senderId)
    && (m.kind == Group <==> m.groupId.Some?)
    && (m.groupId.Some? ==> 0 < m.groupId.value <= |t.groups|)
    && WireText(m.content)
    && WireText(t.users[m.senderId - 1])
    && 0 <= m.createdAt <= MAX_INT64
  }

  /** Every recipient row belongs to a stored message and to a user other than its sender. */
  predicate RecipientOk(t: Tables, k: (int, int)) {
    IsUser(t, k.1) && exists m :: m in t.history && m.id == k.0 && m.senderId != k.1
  }

  ghost predicate Distinct<T(!new)>(s: seq<T>) {
    forall i, j | 0 <= i < j < |s| :: s[i] != s[j]
  }

  predicate Consistent(t: Tables) {
    && (forall i, j | 0 <= i < j < |t.users| :: t.users[i] != t.users[j])
    && [] !in t.users
    && (forall m | m in t.members :: 0 < m.0 <= |t.groups| && IsUser(t, m.1))
    && Increasing(t.history)
    && (forall m | m in t.history :: RowOk(t, m))
    && (forall k | k in t.recipients :: RecipientOk(t, k))
    && |t.users| <= MAX_INT64 && |t.groups| <= MAX_INT64
  }

  /** Selected rows are rows of the table, in id order, within bounds and visible; and every
      such row is selected. */
  lemma {:induction false} SelectSound(t: Tables, user: int, pending: bool, h: seq<Stored>, after: int, through: int)
    ensures forall m :: m in Select(t, user, pending, h, after, through)
              <==> m in h && after < m.id <= through && Visible(t, user, pending, m)
  {
    if h != [] {
      SelectSound(t, user, pending, h[1..], after, through);
      assert h == [h[0]] + h[1..];
    }
  }
}
