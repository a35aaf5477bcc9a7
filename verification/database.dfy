/** The database as the server runs it (databasef/database_messaging.cpp,
    databasef/database_groups.cpp, databasef/database_internal.h): tables changed in place
    inside transactions, result vectors grown in loops, each operation proved against the
    transaction it stands for. */
module Databases {
  import opened Prelude
  import opened Tables
  import T = Tables
  import opened LegacyImport
  import Utf8

  const IMPORT_PAGE: nat := 100

  class Database {
    var users: seq<Bytes>
    var groups: seq<Bytes>
    var members: set<(int, int)>
    var history: seq<Stored>
    var recipients: map<(int, int), Option<int>>
    var legacy: seq<Legacy>
    /** The tables as the open transaction found them. */
    var saved: Option<Tables>

    function State(): Tables
      reads this
    {
      T.Tables(users, groups, members, history, recipients, legacy)
    }

    constructor ()
      ensures State() == EMPTY && saved == None
    {
      users, groups, members, history, recipients, legacy := [], [], {}, [], map[], [];
      saved := None;
    }

    // ----- Transactions -----

    method Begin()
      requires saved == None
      modifies this`saved
      ensures saved == Some(State())
    {
      saved := Some(State());
    }

    method Commit()
      requires saved.Some?
      modifies this`saved
      ensures saved == None
    {
      saved := None;
    }

    /** Everything since `Begin` is undone. */
    method Rollback()
      requires saved.Some?
      modifies this
      ensures State() == old(saved).value && saved == None
    {
      var t := saved.value;
      users, groups, members, history, recipients, legacy := t.users, t.groups, t.members, t.history, t.recipients, t.legacy;
      saved := None;
    }

    // ----- Lookups -----

    method FindUserId(name: Bytes) returns (id: Option<int>)
      ensures id == FindUser(users, name)
    {
      var i := |users|;
      assert users[..i] == users;
      while i > 0
        invariant 0 <= i <= |users| && FindUser(users, name) == FindUser(users[..i], name)
      {
        if users[i - 1] == name {
          return Some(i);
        }
        assert users[..i][..i - 1] == users[..i - 1];
        i := i - 1;
      }
      return None;
    }

    /** The members of a group other than `sender`, by id. */
    method GroupRecipientIds(group: int, sender: int) returns (ids: seq<int>)
      ensures ids == GroupRecipients(State(), group, sender)
    {
      ghost var chosen := set m | m in members && m.0 == group && m.1 != sender :: m.1;
      ids := [];
      var u := 0;
      while u < |users|
        invariant u <= |users| && ids == Ascending(chosen, u)
      {
        u := u + 1;
        InSnapshot(State(), group, sender, u);
        if (group, u) in members && u != sender {
          ids := ids + [u];
        }
      }
    }

    method AllOtherUsers(sender: int) returns (ids: seq<int>)
      ensures ids == AllUsersExcept(State(), sender)
    {
      ids := [];
      var u := 0;
      while u < |users|
        invariant u <= |users| && ids == Ascending(UserIds(|users|) - {sender}, u)
      {
        u := u + 1;
        if u != sender {
          ids := ids + [u];
        }
      }
    }

    // ----- Accepting messages -----

    /** The history row, and one unacknowledged row per recipient. */
    method InsertDurableMessage(kind: Kind, sender: int, group: Option<int>, content: Bytes, recipientIds: seq<int>, now: nat)
      returns (id: int)
      modifies this`history, this`recipients
      ensures State() == Insert(old(State()), kind, sender, group, content, recipientIds, now)
      ensures id == NextId(old(history))
    {
      hide Snapshot, NextId;
      id := NextId(history);
      NoSnapshot(recipients, id);
      history := history + [Stored(id, kind, sender, group, content, now)];
      var i := 0;
      while i < |recipientIds|
        invariant i <= |recipientIds|
        invariant history == old(history) + [Stored(id, kind, sender, group, content, now)]
        invariant recipients == old(recipients) + Snapshot(id, recipientIds[..i])
      {
        SnapshotGrows(old(recipients), id, recipientIds, i);
        recipients := recipients[(id, recipientIds[i]) := None];
        i := i + 1;
      }
      assert recipientIds[..i] == recipientIds;
    }

    /** The part of every acceptance from the checked sender on; it rolls back when no id is
        left. */
    method FinishAcceptance(kind: Kind, sender: int, group: Option<int>, content: Bytes, recipientIds: seq<int>, now: nat)
      returns (result: Acceptance)
      requires saved == Some(State()) && IsUser(State(), sender)
      modifies this
      ensures (State(), result) == Accept(old(State()), kind, sender, group, content, recipientIds, now) && saved == None
    {
      if NextId(history) > MAX_INT64 || now > MAX_INT64 {
        Rollback();
        return DatabaseFull;
      }
      ghost var before := State();
      var id := InsertDurableMessage(kind, sender, group, content, recipientIds, now);
      var accepted := WithSender(State(), history[|history| - 1]);
      Commit();
      return Accepted(accepted, recipientIds);
    }

    method AcceptPrivateMessage(sender: Bytes, receiver: Bytes, content: Bytes, now: nat) returns (result: Acceptance)
      requires saved == None
      modifies this
      ensures (State(), result) == AcceptPrivate(old(State()), sender, receiver, content, now) && saved == None
    {
      hide Accept, WireText, FindUser;
      if !WireText(sender) || !WireText(content) || receiver == [] {
        return InvalidText;
      }
      Begin();
      var from := FindUserId(sender);
      if from.None? {
        Commit();
        return SenderNotFound;
      }
      var to := FindUserId(receiver);
      if to.None? {
        Commit();
        return RecipientNotFound;
      }
      if from == to {
        Commit();
        return SelfMessage;
      }
      result := FinishAcceptance(Private, from.value, None, content, [to.value], now);
    }

    method AcceptGroupMessage(sender: Bytes, group: int, content: Bytes, now: nat) returns (result: Acceptance)
      requires saved == None
      modifies this
      ensures (State(), result) == AcceptGroup(old(State()), sender, group, content, now) && saved == None
    {
      hide Accept, WireText, FindUser, GroupRecipients;
      if !WireText(sender) || !WireText(content) || group <= 0 {
        return InvalidText;
      }
      Begin();
      var from := FindUserId(sender);
      if from.None? {
        Commit();
        return SenderNotFound;
      }
      if group > |groups| {
        Commit();
        return GroupNotFound;
      }
      if (group, from.value) !in members {
        Commit();
        return SenderNotMember;
      }
      var ids := GroupRecipientIds(group, from.value);
      result := FinishAcceptance(Group, from.value, Some(group), content, ids, now);
    }

    method AcceptBroadcastMessage(sender: Bytes, content: Bytes, now: nat) returns (result: Acceptance)
      requires saved == None
      modifies this
      ensures (State(), result) == AcceptBroadcast(old(State()), sender, content, now) && saved == None
    {
      hide Accept, WireText, FindUser, AllUsersExcept;
      if !WireText(sender) || !WireText(content) {
        return InvalidText;
      }
      Begin();
      var from := FindUserId(sender);
      if from.None? {
        Commit();
        return SenderNotFound;
      }
      var ids := AllOtherUsers(from.value);
      result := FinishAcceptance(Broadcast, from.value, None, content, ids, now);
    }

    // ----- Acknowledgements and groups -----

    method AcknowledgeDelivery(name: Bytes, id: int, now: nat) returns (result: AckResult)
      requires saved == None
      modifies this
      ensures (State(), result) == Acknowledge(old(State()), name, id, now) && saved == None
    {
      if name == [] || id <= 0 {
        return InvalidAck;
      }
      Begin();
      var u := FindUserId(name);
      if u.None? || (id, u.value) !in recipients {
        Commit();
        return NotRecipient;
      }
      if recipients[(id, u.value)].Some? {
        Commit();
        return AlreadyAcknowledged;
      }
      recipients := recipients[(id, u.value) := Some(now)];
      Commit();
      return Acknowledged;
    }

    method CreateGroup(creator: Bytes, name: Bytes) returns (result: GroupCreation)
      requires saved == None
      modifies this
      ensures (State(), result) == T.CreateGroup(old(State()), creator, name) && saved == None
    {
      hide GroupName, FindUser;
      if creator == [] || !GroupName(name) {
        return InvalidName;
      }
      Begin();
      var u := FindUserId(creator);
      if u.None? {
        Commit();
        return CreatorNotFound;
      }
      if name in groups {
        Commit();
        return DuplicateName;
      }
      if |groups| >= MAX_INT64 {
        Rollback();
        return GroupTableFull;
      }
      groups := groups + [name];
      members := members + {(|groups|, u.value)};
      Commit();
      return GroupCreated(|groups|);
    }

    method JoinGroup(name: Bytes, group: int) returns (result: GroupJoin)
      requires saved == None
      modifies this
      ensures (State(), result) == T.JoinGroup(old(State()), name, group) && saved == None
    {
      hide FindUser;
      if name == [] || group <= 0 {
        return InvalidJoin;
      }
      Begin();
      var u := FindUserId(name);
      if u.None? {
        Commit();
        return UnknownUser;
      }
      if group > |groups| {
        Commit();
        return UnknownGroup;
      }
      if (group, u.value) in members {
        Commit();
        return AlreadyMember;
      }
      members := members + {(group, u.value)};
      Commit();
      return Joined;
    }

    // ----- Pages -----

    /** `COALESCE(MAX(id), 0)` over the visible rows. */
    method FindWatermark(user: int, pending: bool) returns (watermark: int)
      ensures watermark == Watermark(State(), user, pending, history)
    {
      watermark := 0;
      var i := |history|;
      assert history[i..] == [];
      while i > 0
        invariant 0 <= i <= |history| && watermark == Watermark(State(), user, pending, history[i..])
      {
        assert history[i - 1..][0] == history[i - 1] && history[i - 1..][1..] == history[i..];
        i := i - 1;
        if Visible(State(), user, pending, history[i]) && history[i].id > watermark {
          watermark := history[i].id;
        }
      }
      assert history[0..] == history;
    }

    /** The visible rows between the cursors, at most one more than the page's limit: the
        extra row tells whether more follow and is dropped. */
    method FetchDeliveryPage(name: Bytes, after: int, through: Option<int>, limit: nat, pending: bool) returns (page: Page)
      requires Consistent(State())
      ensures page == FetchPage(State(), name, after, through, limit, pending)
    {
      hide FindUser, Visible, Watermark, Consistent;
      if name == [] || !PageArguments(after, through, limit) {
        return InvalidCursor;
      }
      var user := FindUserId(name);
      if user.None? {
        return UserNotFound;
      }
      var watermark := if through.Some? then through.value else 0;
      if through.None? {
        watermark := FindWatermark(user.value, pending);
      }
      var rows := ReadRows(user.value, pending, after, watermark, limit + 1);
      SelectSound(State(), user.value, pending, history, after, watermark);
      ghost var all := Select(State(), user.value, pending, history, after, watermark);
      SelectedSenders(State(), user.value, pending, after, watermark);
      var hasMore := |rows| > limit;
      if hasMore {
        rows := rows[..|rows| - 1];
      }
      assert rows == Take(all, limit);
      return Ready(Deliveries(State(), rows), watermark, hasMore);
    }

    /** `ORDER BY id LIMIT most`. */
    method ReadRows(user: int, pending: bool, after: int, through: int, most: nat) returns (rows: seq<Stored>)
      requires most > 0
      ensures rows == Take(Select(State(), user, pending, history, after, through), most)
    {
      hide Visible;
      rows := [];
      var i := 0;
      assert history[0..] == history;
      while i < |history| && |rows| < most
        invariant i <= |history| && |rows| <= most
        invariant Select(State(), user, pending, history, after, through)
               == rows + Select(State(), user, pending, history[i..], after, through)
      {
        assert history[i..][0] == history[i] && history[i..][1..] == history[i + 1..];
        ghost var rest := Select(State(), user, pending, history[i + 1..], after, through);
        if after < history[i].id <= through && Visible(State(), user, pending, history[i]) {
          assert rows + ([history[i]] + rest) == rows + [history[i]] + rest;
          rows := rows + [history[i]];
        } else {
          assert [] + rest == rest;
        }
        i := i + 1;
      }
      if i == |history| {
        assert history[i..] == [] && rows + [] == rows;
      }
    }

    // ----- Importing the old messages -----

    /** Pages of a hundred rows, each inserted and deleted, until a page is empty; a rejected
        row or a full table rolls everything back. */
    method ImportLegacyMessages(clock: Readings) returns (result: ImportResult)
      requires saved == None && LegacyOrdered(legacy)
      modifies this
      ensures (State(), result) == Import(old(State()), clock) && saved == None
    {
      hide Importable, ImportRow, ImportRows, Positive, LegacyOrdered;
      Begin();
      ghost var before := State();
      ghost var whole := ImportRows(before, Positive(before.legacy, 0), clock);
      var afterLegacyId, imported: nat := 0, 0;
      AddedNothing(whole);
      while true
        invariant saved == Some(before) && LegacyOrdered(legacy)
        invariant whole == Counted(ImportRows(State(), Positive(legacy, afterLegacyId), clock), imported)
        decreases |legacy|
      {
        var rows := ReadLegacyPage(afterLegacyId);
        if rows == [] {
          NothingLeft(State(), clock);
          Commit();
          return Imported(imported);
        }
        var failure: Option<ImportResult>;
        afterLegacyId, imported, failure := ImportPage(rows, afterLegacyId, imported, clock, whole);
        if failure.Some? {
          Rollback();
          return failure.value;
        }
      }
    }

    /** One page: every row is inserted and deleted, up to the first that cannot be. */
    method ImportPage(rows: seq<Legacy>, after: int, count: nat, clock: Readings, ghost whole: (Tables, ImportResult))
      returns (afterLegacyId: int, imported: nat, failure: Option<ImportResult>)
      requires LegacyOrdered(legacy) && rows <= Positive(legacy, after)
      requires whole == Counted(ImportRows(State(), Positive(legacy, after), clock), count)
      modifies this`history, this`recipients, this`legacy
      ensures failure.Some? ==> failure.value == whole.1 && !whole.1.Imported?
      ensures failure.None? ==> LegacyOrdered(legacy) && |legacy| + |rows| <= |old(legacy)|
      ensures failure.None? ==> whole == Counted(ImportRows(State(), Positive(legacy, afterLegacyId), clock), imported)
    {
      hide Importable, ImportRow, ImportRows, Positive, LegacyOrdered, Without, NextId;
      afterLegacyId, imported, failure := after, count, None;
      var i := 0;
      assert rows[0..] == rows;
      while i < |rows|
        invariant i <= |rows| && LegacyOrdered(legacy) && rows[i..] <= Positive(legacy, afterLegacyId)
        invariant whole == Counted(ImportRows(State(), Positive(legacy, afterLegacyId), clock), imported)
        invariant |legacy| + i <= |old(legacy)| && failure.None?
      {
        ghost var left := Positive(legacy, afterLegacyId);
        assert left[0] == rows[i] by { assert rows[i..][0] == rows[i]; }
        ImportStep(State(), left, clock);
        if !Importable(State().users, rows[i]) {
          failure := Some(Rejected(rows[i].id));
          return;
        }
        if NextId(history) > MAX_INT64 {
          failure := Some(ImportFull);
          return;
        }
        NextPositive(legacy, afterLegacyId, rows[i]);
        CountOneMore(ImportRows(ImportRow(State(), rows[i], At(clock, rows[i].id)), left[1..], clock), imported);
        ImportRowLegacy(State(), rows[i], At(clock, rows[i].id));
        MoveRow(rows[i], At(clock, rows[i].id));
        assert rows[i..][1..] == rows[i + 1..];
        afterLegacyId, imported := rows[i].id, imported + 1;
        i := i + 1;
      }
    }

    /** The rows with an id beyond the cursor, in id order, at most a page of them. */
    method ReadLegacyPage(after: int) returns (rows: seq<Legacy>)
      ensures rows == Take(Positive(legacy, after), IMPORT_PAGE)
    {
      hide Positive;
      rows := [];
      var i := 0;
      assert legacy[0..] == legacy;
      while i < |legacy| && |rows| < IMPORT_PAGE
        invariant i <= |legacy| && |rows| <= IMPORT_PAGE
        invariant Positive(legacy, after) == rows + Positive(legacy[i..], after)
      {
        NextRow(legacy, after, i, rows);
        if legacy[i].id > after {
          rows := rows + [legacy[i]];
        }
        i := i + 1;
      }
      if i == |legacy| {
        NoMoreRows(legacy, after, rows);
      }
    }

    /** One legacy row becomes a message and is deleted. */
    method MoveRow(row: Legacy, now: nat)
      requires Importable(State().users, row)
      modifies this`history, this`recipients, this`legacy
      ensures State() == ImportRow(old(State()), row, now)
    {
      var sender := FindUserId(row.sender);
      var receiver := FindUserId(row.receiver);
      var _ := InsertDurableMessage(Private, sender.value, None, row.content, [receiver.value], now);
      legacy := Without(legacy, row.id);
    }
  }

  lemma NextRow(legacy: seq<Legacy>, after: int, i: nat, rows: seq<Legacy>)
    requires i < |legacy|
    ensures rows + Positive(legacy[i..], after)
         == (if legacy[i].id > after then rows + [legacy[i]] else rows) + Positive(legacy[i + 1..], after)
  {
    var rest := Positive(legacy[i + 1..], after);
    assert legacy[i..][0] == legacy[i] && legacy[i..][1..] == legacy[i + 1..];
    assert Positive(legacy[i..], after) == (if legacy[i].id > after then [legacy[i]] else []) + rest;
    hide Positive;
    if legacy[i].id > after {
      assert rows + ([legacy[i]] + rest) == rows + [legacy[i]] + rest;
    } else {
      assert [] + rest == rest;
    }
  }

  lemma NoMoreRows(legacy: seq<Legacy>, after: int, rows: seq<Legacy>)
    ensures rows + Positive(legacy[|legacy|..], after) == rows
  {
    assert legacy[|legacy|..] == [];
  }

  lemma SelectedSenders(t: Tables, user: int, pending: bool, after: int, through: int)
    requires Consistent(t)
    ensures var all := Select(t, user, pending, t.history, after, through);
      forall i | 0 <= i < |all| :: IsUser(t, all[i].senderId)
  {
    var all := Select(t, user, pending, t.history, after, through);
    SelectSound(t, user, pending, t.history, after, through);
    forall i | 0 <= i < |all|
      ensures IsUser(t, all[i].senderId)
    {
      assert all[i] in all && RowOk(t, all[i]);
      hide Utf8.Valid, RecipientOk, Select;
    }
  }

  /** A result with `n` rows imported before it; a failed import gives the tables back. */
  ghost function Counted(r: (Tables, ImportResult), n: nat): (Tables, ImportResult) {
    (r.0, if r.1.Imported? then Imported(r.1.count + n) else r.1)
  }

  lemma AddedNothing(r: (Tables, ImportResult))
    ensures Counted(r, 0) == r
  {
  }

  lemma CountOneMore(r: (Tables, ImportResult), n: nat)
    ensures Counted((r.0, if r.1.Imported? then Imported(r.1.count + 1) else r.1), n) == Counted(r, n + 1)
  {
  }

  lemma NothingLeft(t: Tables, clock: Readings)
    ensures ImportRows(t, [], clock) == (t, Imported(0))
  {
  }

  lemma ImportStep(t: Tables, rows: seq<Legacy>, clock: Readings)
    requires rows != []
    ensures ImportRows(t, rows, clock) ==
      if !Importable(t.users, rows[0]) then (t, Rejected(rows[0].id))
      else if NextId(t.history) > MAX_INT64 then (t, ImportFull)
      else
        var r := ImportRows(ImportRow(t, rows[0], At(clock, rows[0].id)), rows[1..], clock);
        (r.0, if r.1.Imported? then Imported(r.1.count + 1) else r.1)
  {
    hide Importable, ImportRow, NextId;
  }

  lemma ImportRowLegacy(t: Tables, row: Legacy, now: nat)
    requires Importable(t.users, row)
    ensures ImportRow(t, row, now).legacy == Without(t.legacy, row.id)
  {
    hide Importable;
  }

  /** Deleting the row at the cursor and moving the cursor to it leaves the rows after it. */
  lemma {:induction false} NextPositive(legacy: seq<Legacy>, after: int, row: Legacy)
    requires LegacyOrdered(legacy) && Positive(legacy, after) != [] && Positive(legacy, after)[0] == row
    ensures Positive(Without(legacy, row.id), row.id) == Positive(legacy, after)[1..]
    ensures LegacyOrdered(Without(legacy, row.id)) && |Without(legacy, row.id)| < |legacy|
  {
    var rest := legacy[1..];
    assert LegacyOrdered(rest);
    if legacy[0].id > after {
      FirstBeyond(legacy, after);
    } else {
      assert [] + Positive(rest, after) == Positive(rest, after);
      NextPositive(rest, after, row);
      SkippedRow(legacy, after, row);
    }
  }

  lemma FirstBeyond(legacy: seq<Legacy>, after: int)
    requires legacy != [] && LegacyOrdered(legacy) && legacy[0].id > after
    ensures Positive(legacy, after) == legacy && Without(legacy, legacy[0].id) == legacy[1..]
    ensures Positive(legacy[1..], legacy[0].id) == legacy[1..]
  {
    hide Positive, Without;
    RestBeyond(legacy);
    hide LegacyOrdered;
    var first, rest := legacy[0], legacy[1..];
    UnfoldFront(legacy, after);
    NoneGone(rest, first.id);
    AllBeyond(rest, after);
    AllBeyond(rest, first.id);
    assert [first] + rest == legacy;
  }

  lemma UnfoldFront(legacy: seq<Legacy>, after: int)
    requires legacy != [] && legacy[0].id > after
    ensures Positive(legacy, after) == [legacy[0]] + Positive(legacy[1..], after)
    ensures Without(legacy, legacy[0].id) == Without(legacy[1..], legacy[0].id)
  {
    var none: seq<Legacy> := [];
    var rest := Without(legacy[1..], legacy[0].id);
    assert Without(legacy, legacy[0].id) == none + rest;
    assert none + rest == rest;
  }

  lemma RestBeyond(legacy: seq<Legacy>)
    requires legacy != [] && LegacyOrdered(legacy)
    ensures forall i | 0 <= i < |legacy| - 1 :: legacy[1..][i].id > legacy[0].id
    ensures forall r | r in legacy[1..] :: r.id > legacy[0].id
  {
    assert forall i | 0 <= i < |legacy| - 1 :: legacy[1..][i] == legacy[i + 1];
  }

  lemma SkippedRow(legacy: seq<Legacy>, after: int, row: Legacy)
    requires legacy != [] && LegacyOrdered(legacy) && legacy[0].id <= after && row in Positive(legacy[1..], after)
    requires LegacyOrdered(Without(legacy[1..], row.id))
    ensures var cut := Without(legacy[1..], row.id);
      && Without(legacy, row.id) == [legacy[0]] + cut && LegacyOrdered([legacy[0]] + cut)
      && Positive([legacy[0]] + cut, row.id) == Positive(cut, row.id)
  {
    var rest := legacy[1..];
    var cut := Without(rest, row.id);
    RestBeyond(legacy);
    WithoutSound(rest, row.id);
    assert row.id > legacy[0].id;
    assert Without(legacy, row.id) == [legacy[0]] + cut;
    CursorSkips(legacy[0], cut, row.id);
    hide Without, Positive;
    OneMoreOrdered(legacy[0], cut);
  }

  lemma CursorSkips(first: Legacy, rest: seq<Legacy>, after: int)
    requires first.id <= after
    ensures Positive([first] + rest, after) == Positive(rest, after)
  {
    assert ([first] + rest)[1..] == rest;
    assert [] + Positive(rest, after) == Positive(rest, after);
  }

  lemma OneMoreOrdered(first: Legacy, rest: seq<Legacy>)
    requires LegacyOrdered(rest) && forall r | r in rest :: first.id < r.id
    ensures LegacyOrdered([first] + rest)
  {
    forall i, j | 0 <= i < j < |rest| + 1
      ensures ([first] + rest)[i].id < ([first] + rest)[j].id
    {
      assert rest[j - 1] in rest;
      assert i > 0 ==> ([first] + rest)[i] == rest[i - 1];
    }
  }

  lemma {:induction false} NoneGone(legacy: seq<Legacy>, id: int)
    requires forall i | 0 <= i < |legacy| :: legacy[i].id > id
    ensures Without(legacy, id) == legacy
  {
    if legacy != [] {
      NoneGone(legacy[1..], id);
      assert [legacy[0]] + legacy[1..] == legacy;
    }
  }

  lemma {:induction false} AllBeyond(legacy: seq<Legacy>, after: int)
    requires forall i | 0 <= i < |legacy| :: legacy[i].id > after
    ensures Positive(legacy, after) == legacy
  {
    if legacy != [] {
      AllBeyond(legacy[1..], after);
      assert [legacy[0]] + legacy[1..] == legacy;
    }
  }

  lemma NoSnapshot(rows: map<(int, int), Option<int>>, id: int)
    ensures rows + Snapshot(id, []) == rows
  {
  }

  lemma SnapshotGrows(rows: map<(int, int), Option<int>>, id: int, ids: seq<int>, i: nat)
    requires i < |ids|
    ensures (rows + Snapshot(id, ids[..i]))[(id, ids[i]) := None] == rows + Snapshot(id, ids[..i + 1])
  {
    assert ids[..i + 1] == ids[..i] + [ids[i]];
    assert forall k :: k in Snapshot(id, ids[..i + 1]) <==> k in Snapshot(id, ids[..i]) || k == (id, ids[i]);
  }

  lemma InSnapshot(t: Tables, group: int, sender: int, u: int)
    ensures u in (set m | m in t.members && m.0 == group && m.1 != sender :: m.1) <==> (group, u) in t.members && u != sender
  {
    if (group, u) in t.members && u != sender {
      var m := (group, u);
      assert m in t.members && m.0 == group && m.1 != sender && m.1 == u;
    }
  }
}
