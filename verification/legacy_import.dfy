/** Importing the old `messages` table (databasef/database_messaging.cpp,
    `importLegacyMessages`): one transaction that moves every row or none. */
module LegacyImport {
  import opened Prelude
  import opened Tables
  import opened Evolution

  datatype ImportResult = Imported(count: nat) | Rejected(id: int) | ImportFull

  /** What the clock reads when the row with each id is inserted, 0 for rows not named. */
  type Readings = map<int, Clock>

  function At(clock: Readings, id: int): Clock {
    if id in clock then clock[id] else 0
  }

  /** The checks one legacy row must pass. */
  predicate Importable(users: seq<Bytes>, row: Legacy) {
    && WireText(row.sender) && WireText(row.content) && WireText(row.receiver)
    && row.sender in users && row.receiver in users
    && FindUser(users, row.sender) != FindUser(users, row.receiver)
  }

  function Without(legacy: seq<Legacy>, id: int): seq<Legacy> {
    if legacy == [] then []
    else (if legacy[0].id == id then [] else [legacy[0]]) + Without(legacy[1..], id)
  }

  /** The private message a legacy row becomes. */
  function MessageOf(users: seq<Bytes>, row: Legacy, id: int, now: nat): Stored
    requires row.sender in users
  {
    Stored(id, Private, FindUser(users, row.sender).value, None, row.content, now)
  }

  function ReceiverOf(users: seq<Bytes>, row: Legacy): int
    requires row.receiver in users
  {
    FindUser(users, row.receiver).value
  }

  /** One row: inserted as a private message and deleted from the old table. */
  function ImportRow(t: Tables, row: Legacy, now: nat): Tables
    requires Importable(t.users, row)
  {
    var t' := Insert(t, Private, FindUser(t.users, row.sender).value, None, row.content, [ReceiverOf(t.users, row)], now);
    t'.(legacy := Without(t.legacy, row.id))
  }

  function ImportRows(t: Tables, rows: seq<Legacy>, clock: Readings): (Tables, ImportResult)
    decreases |rows|
  {
    if rows == [] then (t, Imported(0))
    else if !Importable(t.users, rows[0]) then (t, Rejected(rows[0].id))
    else if NextId(t.history) > MAX_INT64 then (t, ImportFull)
    else
      var (t', r) := ImportRows(ImportRow(t, rows[0], At(clock, rows[0].id)), rows[1..], clock);
      (t', if r.Imported? then Imported(r.count + 1) else r)
  }

  /** Rows with a positive id: the import's cursor starts at 0. */
  function Positive(legacy: seq<Legacy>, after: int): (rows: seq<Legacy>)
    ensures forall r :: r in rows <==> r in legacy && r.id > after
  {
    if legacy == [] then []
    else (if legacy[0].id > after then [legacy[0]] else []) + Positive(legacy[1..], after)
  }

  /** The whole import; a rejected row rolls everything back. */
  function Import(t: Tables, clock: Readings): (Tables, ImportResult) {
    var (t', r) := ImportRows(t, Positive(t.legacy, 0), clock);
    if r.Imported? then (t', r) else (t, r)
  }

  predicate LegacyOrdered(legacy: seq<Legacy>) {
    forall i, j | 0 <= i < j < |legacy| :: legacy[i].id < legacy[j].id
  }

  /** The import visits its rows in id order. */
  lemma {:induction false} PositiveOrdered(legacy: seq<Legacy>, after: int)
    requires LegacyOrdered(legacy)
    ensures LegacyOrdered(Positive(legacy, after))
  {
    if legacy != [] {
      var rest := Positive(legacy[1..], after);
      PositiveOrdered(legacy[1..], after);
      forall i | 0 <= i < |rest|
        ensures legacy[0].id < rest[i].id
      {
        assert rest[i] in rest;
        var j :| 0 < j < |legacy| && legacy[j] == rest[i];
      }
    }
  }

  ghost predicate AllImportable(users: seq<Bytes>, rows: seq<Legacy>) {
    forall i | 0 <= i < |rows| :: Importable(users, rows[i])
  }

  /** One history row per legacy row, in order, with consecutive new ids. */
  ghost predicate MovedHistory(t: Tables, t': Tables, rows: seq<Legacy>, clock: Readings)
    requires AllImportable(t.users, rows)
  {
    && |t'.history| == |t.history| + |rows|
    && t'.history[..|t.history|] == t.history
    && forall i | 0 <= i < |rows| ::
         t'.history[|t.history| + i] == MessageOf(t.users, rows[i], NextId(t.history) + i, At(clock, rows[i].id))
  }

  /** The recipient row of the `i`-th imported row when the first new message id is `base`. */
  function RecipientKey(users: seq<Bytes>, rows: seq<Legacy>, base: int, i: nat): (int, int)
    requires i < |rows| && rows[i].receiver in users
  {
    (base + i, ReceiverOf(users, rows[i]))
  }

  /** One unacknowledged recipient row per legacy row; every other recipient row is as before. */
  ghost predicate MovedRecipients(t: Tables, t': Tables, rows: seq<Legacy>)
    requires AllImportable(t.users, rows)
  {
    var base := NextId(t.history);
    && (forall i | 0 <= i < |rows| ::
          var k := RecipientKey(t.users, rows, base, i); k in t'.recipients && t'.recipients[k] == None)
    && (forall k | k in t'.recipients && k !in t.recipients ::
          exists i | 0 <= i < |rows| :: k == RecipientKey(t.users, rows, base, i))
    && (forall k | k in t.recipients :: k in t'.recipients && t'.recipients[k] == t.recipients[k])
  }

  ghost predicate MovedLegacy(t: Tables, t': Tables, rows: seq<Legacy>) {
    forall x :: x in t'.legacy <==> x in t.legacy && forall row | row in rows :: row.id != x.id
  }

  /** What a completed import of `rows` leaves. */
  ghost predicate Moved(t: Tables, t': Tables, rows: seq<Legacy>, clock: Readings) {
    && AllImportable(t.users, rows)
    && MovedHistory(t, t', rows, clock)
    && MovedRecipients(t, t', rows)
    && MovedLegacy(t, t', rows)
    && t'.users == t.users && t'.groups == t.groups && t'.members == t.members
  }

  lemma {:induction false} WithoutSound(legacy: seq<Legacy>, id: int)
    ensures forall r :: r in Without(legacy, id) <==> r in legacy && r.id != id
  {
    if legacy != [] {
      WithoutSound(legacy[1..], id);
    }
  }

  lemma ImportRowLaw(t: Tables, row: Legacy, clock: Readings)
    requires Consistent(t) && Importable(t.users, row) && NextId(t.history) <= MAX_INT64
    ensures var t' := ImportRow(t, row, At(clock, row.id));
      && Consistent(t') && Evolves(t, t') && Moved(t, t', [row], clock)
      && NextId(t'.history) == NextId(t.history) + 1
  {
    hide Consistent, Evolves, FindUser, Accept, WireText, CommittedAs, Moved, ImportRow, NextId;
    var sender := FindUser(t.users, row.sender).value;
    var receiver, now := ReceiverOf(t.users, row), At(clock, row.id);
    var (a, r) := Accept(t, Private, sender, None, row.content, [receiver], now);
    AcceptLaw(t, Private, sender, None, row.content, [receiver], now);
    LegacyIsFree(a, Without(t.legacy, row.id));
    ImportRowMoved(t, row, clock, a, r);
  }

  lemma ImportRowMoved(t: Tables, row: Legacy, clock: Readings, a: Tables, r: Acceptance)
    requires Importable(t.users, row) && NextId(t.history) <= MAX_INT64
    requires (a, r) == Accept(t, Private, FindUser(t.users, row.sender).value, None, row.content,
                              [ReceiverOf(t.users, row)], At(clock, row.id))
    requires Evolves(t, a)
    requires CommittedAs(t, a, r, Private, FindUser(t.users, row.sender).value, None, row.content,
                         [ReceiverOf(t.users, row)], At(clock, row.id))
    ensures var t' := ImportRow(t, row, At(clock, row.id));
      && t' == a.(legacy := Without(t.legacy, row.id))
      && Moved(t, t', [row], clock) && Evolves(t, t')
      && NextId(t'.history) == NextId(t.history) + 1
  {
    hide FindUser, WireText, Without, CommittedAs, Evolves, Moved, Snapshot, NextId;
    var t' := ImportRow(t, row, At(clock, row.id));
    assert t' == a.(legacy := Without(t.legacy, row.id));
    hide ImportRow, Accept;
    RowMoved(t, a, t', row, clock, r);
  }

  lemma RowMoved(t: Tables, a: Tables, t': Tables, row: Legacy, clock: Readings, r: Acceptance)
    requires Importable(t.users, row) && Evolves(t, a)
    requires CommittedAs(t, a, r, Private, FindUser(t.users, row.sender).value, None, row.content,
                         [ReceiverOf(t.users, row)], At(clock, row.id))
    requires t' == a.(legacy := Without(t.legacy, row.id))
    ensures Moved(t, t', [row], clock) && Evolves(t, t') && NextId(t'.history) == NextId(t.history) + 1
  {
    hide FindUser, WireText, Without, Evolves, MovedRecipients, MovedLegacy, MovedHistory, CommittedAs, NextId;
    RowHistory(t, a, row, clock, r);
    RowRecipient(t, a, row, clock, r);
    RowLegacy(t, t', row);
    SameButLegacy(t, a, t', row, clock);
  }

  lemma SameButLegacy(t: Tables, a: Tables, t': Tables, row: Legacy, clock: Readings)
    requires Importable(t.users, row) && Evolves(t, a) && t' == a.(legacy := t'.legacy)
    ensures Evolves(t, t')
    ensures MovedHistory(t, a, [row], clock) ==> MovedHistory(t, t', [row], clock)
    ensures MovedRecipients(t, a, [row]) ==> MovedRecipients(t, t', [row])
  {
    hide FindUser, WireText, NextId;
  }

  lemma RowLegacy(t: Tables, t': Tables, row: Legacy)
    requires t'.legacy == Without(t.legacy, row.id)
    ensures MovedLegacy(t, t', [row])
  {
    hide Without;
    WithoutSound(t.legacy, row.id);
  }

  lemma RowHistory(t: Tables, a: Tables, row: Legacy, clock: Readings, r: Acceptance)
    requires Importable(t.users, row)
    requires CommittedAs(t, a, r, Private, FindUser(t.users, row.sender).value, None, row.content,
                         [ReceiverOf(t.users, row)], At(clock, row.id))
    ensures MovedHistory(t, a, [row], clock) && NextId(a.history) == NextId(t.history) + 1
    ensures a.users == t.users && a.groups == t.groups && a.members == t.members
  {
    hide FindUser, WireText;
  }

  lemma RowRecipient(t: Tables, a: Tables, row: Legacy, clock: Readings, r: Acceptance)
    requires Importable(t.users, row)
    requires CommittedAs(t, a, r, Private, FindUser(t.users, row.sender).value, None, row.content,
                         [ReceiverOf(t.users, row)], At(clock, row.id))
    ensures MovedRecipients(t, a, [row])
  {
    hide FindUser, WireText, NextId, MovedRecipients;
    OneRecipient(t, a, row);
  }

  lemma OneRecipient(t: Tables, t': Tables, row: Legacy)
    requires Importable(t.users, row)
    requires var id, u := NextId(t.history), ReceiverOf(t.users, row);
      && (forall v :: (id, v) in t'.recipients <==> v == u)
      && t'.recipients[(id, u)] == None
      && (forall k: (int, int) | k.0 != id :: k in t'.recipients <==> k in t.recipients)
      && (forall k | k in t.recipients :: k in t'.recipients && t'.recipients[k] == t.recipients[k])
    ensures MovedRecipients(t, t', [row])
  {
    hide FindUser, WireText, NextId;
    var only := RecipientKey(t.users, [row], NextId(t.history), 0);
    assert only == (NextId(t.history), ReceiverOf(t.users, row));
    forall k | k in t'.recipients && k !in t.recipients
      ensures k == only
    {
      assert k == (k.0, k.1);
      assert k.0 == NextId(t.history);
      assert (NextId(t.history), k.1) in t'.recipients;
      assert k.1 == ReceiverOf(t.users, row);
    }
  }

  /** Nothing the tables keep depends on the old table. */
  lemma LegacyIsFree(t: Tables, legacy: seq<Legacy>)
    requires Consistent(t)
    ensures Consistent(t.(legacy := legacy))
  {
    var t' := t.(legacy := legacy);
    RowsStayOk(t, t');
    forall k | k in t'.recipients
      ensures RecipientOk(t', k)
    {
      assert RecipientOk(t, k);
    }
  }

  lemma AllImportableSplit(users: seq<Bytes>, rows: seq<Legacy>)
    requires rows != []
    ensures AllImportable(users, rows) <==> Importable(users, rows[0]) && AllImportable(users, rows[1..])
    ensures rows[..1] == [rows[0]]
  {
    hide Importable;
    assert forall i | 0 <= i < |rows[1..]| :: rows[1..][i] == rows[i + 1];
    assert forall i | 1 <= i < |rows| :: rows[1..][i - 1] == rows[i];
  }

  lemma MovedCompose(t: Tables, t1: Tables, t2: Tables, rows: seq<Legacy>, clock: Readings)
    requires rows != [] && Moved(t, t1, [rows[0]], clock) && Moved(t1, t2, rows[1..], clock)
    requires NextId(t1.history) == NextId(t.history) + 1
    ensures Moved(t, t2, rows, clock)
  {
    hide Importable, MovedHistory, MovedRecipients, MovedLegacy;
    AllImportableSplit(t.users, rows);
    HistoryCompose(t, t1, t2, rows, clock);
    RecipientsCompose(t, t1, t2, rows);
    LegacyCompose(t, t1, t2, rows);
  }

  lemma HistoryCompose(t: Tables, t1: Tables, t2: Tables, rows: seq<Legacy>, clock: Readings)
    requires rows != [] && AllImportable(t.users, rows) && AllImportable(t.users, rows[1..]) && t1.users == t.users
    requires MovedHistory(t, t1, [rows[0]], clock) && MovedHistory(t1, t2, rows[1..], clock)
    requires NextId(t1.history) == NextId(t.history) + 1
    ensures MovedHistory(t, t2, rows, clock)
  {
    hide WireText, FindUser, NextId;
    var n := |t.history|;
    assert t2.history[..n] == t2.history[..n + 1][..n];
    forall i | 0 <= i < |rows|
      ensures t2.history[n + i] == MessageOf(t.users, rows[i], NextId(t.history) + i, At(clock, rows[i].id))
    {
      if i == 0 {
        assert [rows[0]][0] == rows[0];
        assert t2.history[..n + 1][n] == t1.history[n];
      } else {
        assert t2.history[n + 1 + (i - 1)] == MessageOf(t.users, rows[1..][i - 1], NextId(t1.history) + (i - 1), At(clock, rows[i].id));
      }
    }
  }

  lemma RecipientsCompose(t: Tables, t1: Tables, t2: Tables, rows: seq<Legacy>)
    requires rows != [] && AllImportable(t.users, rows) && AllImportable(t.users, rows[1..]) && t1.users == t.users
    requires MovedRecipients(t, t1, [rows[0]]) && MovedRecipients(t1, t2, rows[1..])
    requires NextId(t1.history) == NextId(t.history) + 1
    ensures MovedRecipients(t, t2, rows)
  {
    hide WireText, FindUser, NextId, RecipientKey;
    forall i | 0 <= i < |rows|
      ensures var k := RecipientKey(t.users, rows, NextId(t.history), i); k in t2.recipients && t2.recipients[k] == None
    {
      RecipientAt(t, t1, t2, rows, i);
    }
    forall k | k in t2.recipients && k !in t.recipients
      ensures exists i | 0 <= i < |rows| :: k == RecipientKey(t.users, rows, NextId(t.history), i)
    {
      NewRecipient(t, t1, t2, rows, k);
    }
  }

  lemma RecipientAt(t: Tables, t1: Tables, t2: Tables, rows: seq<Legacy>, i: nat)
    requires rows != [] && AllImportable(t.users, rows) && AllImportable(t.users, rows[1..]) && t1.users == t.users
    requires MovedRecipients(t, t1, [rows[0]]) && MovedRecipients(t1, t2, rows[1..])
    requires NextId(t1.history) == NextId(t.history) + 1
    requires i < |rows|
    ensures rows[i].receiver in t.users
    ensures var k := RecipientKey(t.users, rows, NextId(t.history), i); k in t2.recipients && t2.recipients[k] == None
  {
    hide WireText, FindUser, NextId, RecipientKey;
    SameKey(t.users, rows, NextId(t.history), i);
  }

  lemma NewRecipient(t: Tables, t1: Tables, t2: Tables, rows: seq<Legacy>, k: (int, int))
    requires rows != [] && AllImportable(t.users, rows) && AllImportable(t.users, rows[1..]) && t1.users == t.users
    requires MovedRecipients(t, t1, [rows[0]]) && MovedRecipients(t1, t2, rows[1..])
    requires NextId(t1.history) == NextId(t.history) + 1
    requires k in t2.recipients && k !in t.recipients
    ensures exists i | 0 <= i < |rows| :: k == RecipientKey(t.users, rows, NextId(t.history), i)
  {
    hide WireText, FindUser, NextId, RecipientKey;
    var base, rest := NextId(t.history), rows[1..];
    if k in t1.recipients {
      SameKey(t.users, rows, base, 0);
    } else {
      var i :| 0 <= i < |rest| && k == RecipientKey(t1.users, rest, base + 1, i);
      SameKey(t.users, rows, base, i + 1);
    }
  }

  lemma SameKey(users: seq<Bytes>, rows: seq<Legacy>, base: int, i: nat)
    requires i < |rows| && AllImportable(users, rows)
    ensures AllImportable(users, [rows[0]]) && AllImportable(users, rows[1..])
    ensures RecipientKey(users, rows, base, i)
         == if i == 0 then RecipientKey(users, [rows[0]], base, 0) else RecipientKey(users, rows[1..], base + 1, i - 1)
  {
    hide WireText, FindUser;
    AllImportableSplit(users, rows);
    assert i > 0 ==> rows[1..][i - 1] == rows[i];
  }

  lemma LegacyCompose(t: Tables, t1: Tables, t2: Tables, rows: seq<Legacy>)
    requires rows != [] && MovedLegacy(t, t1, [rows[0]]) && MovedLegacy(t1, t2, rows[1..])
    ensures MovedLegacy(t, t2, rows)
  {
    assert rows == [rows[0]] + rows[1..];
    assert forall row :: row in rows <==> row in [rows[0]] || row in rows[1..];
  }

  /** The fold over the rows either moves all of them or meets the first that cannot move. */
  lemma {:induction false} ImportRowsLaw(t: Tables, rows: seq<Legacy>, clock: Readings)
    requires Consistent(t)
    ensures var (t', r) := ImportRows(t, rows, clock);
      && Consistent(t') && Evolves(t, t')
      && (r.Imported? <==>
            && AllImportable(t.users, rows)
            && (rows == [] || NextId(t.history) + |rows| - 1 <= MAX_INT64))
      && (r.Imported? ==> r.count == |rows| && Moved(t, t', rows, clock))
    decreases |rows|
  {
    hide Consistent, Evolves, Importable, Moved, ImportRow;
    if rows == [] {
      EvolvesReflexive(t);
      MovedNothing(t, clock);
    } else if Importable(t.users, rows[0]) && NextId(t.history) <= MAX_INT64 {
      var t1 := ImportRow(t, rows[0], At(clock, rows[0].id));
      ImportRowLaw(t, rows[0], clock);
      MovedKeepsUsers(t, t1, [rows[0]], clock);
      var (t2, r) := ImportRows(t1, rows[1..], clock);
      ImportRowsLaw(t1, rows[1..], clock);
      EvolvesTransitive(t, t1, t2);
      AllImportableSplit(t.users, rows);
      if r.Imported? {
        MovedCompose(t, t1, t2, rows, clock);
      }
    } else {
      EvolvesReflexive(t);
      AllImportableSplit(t.users, rows);
    }
  }

  lemma MovedNothing(t: Tables, clock: Readings)
    ensures Moved(t, t, [], clock)
  {
  }

  lemma MovedKeepsUsers(t: Tables, t': Tables, rows: seq<Legacy>, clock: Readings)
    requires Moved(t, t', rows, clock)
    ensures t'.users == t.users
  {
  }

  /** All or nothing: a successful import turns every legacy row with a positive id into one
      unacknowledged private message, in id order, and removes exactly those rows; otherwise
      the tables are as before. It succeeds exactly when every such row can be sent. */
  lemma ImportAllOrNothing(t: Tables, clock: Readings)
    requires Consistent(t)
    ensures var (t', r) := Import(t, clock);
      var rows := Positive(t.legacy, 0);
      && Consistent(t') && Evolves(t, t')
      && (r.Imported? <==>
            && AllImportable(t.users, rows)
            && (rows == [] || NextId(t.history) + |rows| - 1 <= MAX_INT64))
      && (r.Imported? ==>
            && r.count == |rows| && Moved(t, t', rows, clock)
            && forall x :: x in t'.legacy ==> x.id <= 0)
      && (!r.Imported? ==> t' == t)
  {
    hide Consistent, Evolves, Importable, ImportRows, NextId;
    var rows := Positive(t.legacy, 0);
    ImportRowsLaw(t, rows, clock);
    EvolvesReflexive(t);
    var (t', r) := Import(t, clock);
    if r.Imported? {
      forall x | x in t'.legacy
        ensures x.id <= 0
      {
        assert x !in rows by {
          if x in rows {
            assert false;
          }
        }
      }
    }
  }
}
