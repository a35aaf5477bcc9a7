/** What the client checks of a HISTORY page (clientf/client_connection.cpp,
    `validHistoryPage`, and clientf/terminal_ui.cpp, `applyForegroundResponse`), and that
    every page of an honest server passes. */
module HistoryClient {
  import opened Prelude
  import opened Tables
  import opened ClientSync
  import opened PageWriter
  import Utf8

  /** `validHistoryPage` on the decoded fields. */
  predicate ValidHistoryPage(r: Response)
    requires r.PageResponse?
  {
    && 0 <= r.through && 0 <= r.next <= r.through
    && Ascends(r.records, 0, r.through)
    && (r.records != [] ==> r.next == r.records[|r.records| - 1].message.id)
  }

  /** The history screen's own tests: the page continues the request under its watermark. */
  predicate ContinuesHistory(r: Response, cursor: int, watermark: Option<int>, limit: nat)
    requires r.PageResponse?
  {
    && |r.records| <= limit
    && 0 <= r.through && cursor <= r.next <= r.through
    && (watermark.Some? ==> watermark.value == r.through)
  }

  lemma PageIsShort(op: Operation, after: int, rows: seq<Delivery>, through: int, hasMore: bool)
    ensures var r := Respond(op, after, Ready(rows, through, hasMore));
      r.PageResponse? ==> |r.records| <= |rows|
  {
  }

  lemma RowsAreWellFormed(t: Tables, rows: seq<Stored>)
    requires Consistent(t) && forall i | 0 <= i < |rows| :: rows[i] in t.history
    ensures forall i | 0 <= i < |rows| :: IsUser(t, rows[i].senderId) && WellFormed(WithSender(t, rows[i]))
  {
    forall i | 0 <= i < |rows|
      ensures IsUser(t, rows[i].senderId) && WellFormed(WithSender(t, rows[i]))
    {
      assert RowOk(t, rows[i]);
      hide Utf8.Valid;
    }
  }

  /** Every HISTORY page served to an account passes the client's checks, whatever the request:
      the tables are any consistent ones, the cursor and watermark any the server accepts. */
  lemma HonestHistoryPagesPass(t: Tables, name: Bytes, u: int, after: int, through: Option<int>, limit: nat, r: Response)
    requires Consistent(t) && FindUser(t.users, name) == Some(u)
    requires r == Respond(History, after, FetchPage(t, name, after, through, limit, false)) && r.PageResponse?
    ensures ValidHistoryPage(r) && ContinuesHistory(r, after, through, limit)
  {
    PageMeaning(t, History, name, u, after, through, limit, r);
    var page := FetchPage(t, name, after, through, limit, false);
    FetchMeaning(t, name, u, after, through, limit, false, page);
    PageIsShort(History, after, page.rows, page.through, page.hasMore);
    assert Increasing(t.history);
    hide Respond, FetchPage, FindUser, ResponseLength, Watermark, Increasing;
    var rows := Select(t, u, false, t.history, after, r.next);
    SelectSound(t, u, false, t.history, after, r.next);
    SelectIncreasing(t, u, false, t.history, after, r.next);
    forall i | 0 <= i < |rows|
      ensures rows[i] in t.history && after < rows[i].id <= r.next
    {
      assert rows[i] in rows;
    }
    hide Select, Visible;
    RowsAreWellFormed(t, rows);
    RecordsAscend(t, rows, r, after);
  }

  lemma RecordsAscend(t: Tables, rows: seq<Stored>, r: Response, after: int)
    requires r.PageResponse? && 0 <= after <= r.next <= r.through && Increasing(rows)
    requires forall i | 0 <= i < |rows| :: IsUser(t, rows[i].senderId) && WellFormed(WithSender(t, rows[i]))
    requires forall i | 0 <= i < |rows| :: after < rows[i].id <= r.next
    requires r.records == Deliveries(t, rows)
    ensures Ascends(r.records, 0, r.through)
  {
    hide WellFormed;
    forall i | 0 <= i < |rows|
      ensures r.records[i] == WithSender(t, rows[i])
    {
    }
    AscendsIff(r.records, 0, r.through);
  }

  /** Whatever the server sends, a history page the client accepts shows well-formed messages in
      strictly increasing order within the watermark, no more than were asked for, and hands
      back a cursor between the old one and the watermark, its last message's id if it has one. */
  lemma AcceptedHistoryPagesAscend(r: Response, cursor: int, watermark: Option<int>, limit: nat)
    requires r.PageResponse?
    ensures ValidHistoryPage(r) && ContinuesHistory(r, cursor, watermark, limit) <==>
      && (forall i | 0 <= i < |r.records| :: WellFormed(r.records[i]) && 0 < r.records[i].message.id <= r.through)
      && (forall i, j | 0 <= i < j < |r.records| :: r.records[i].message.id < r.records[j].message.id)
      && |r.records| <= limit
      && 0 <= r.next && cursor <= r.next <= r.through
      && (r.records != [] ==> r.next == r.records[|r.records| - 1].message.id)
      && (watermark.Some? ==> r.through == watermark.value)
  {
    hide WellFormed;
    AscendsIff(r.records, 0, r.through);
  }
}
