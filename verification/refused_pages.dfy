/** The refusal of a page happens: seventeen ordinary messages, each within the request limit,
    make a mailbox whose pending page the server refuses until the pending messages change. */
module RefusedPages {
  import opened Prelude
  import opened Tables
  import opened Evolution
  import opened PageWriter
  import opened PageLimits
  import Framing
  import HistoryPaging
  import UiState
  import BufferState
  import Utf8

  const ALICE: Bytes := [0x61]
  const BOB: Bytes := [0x62]

  /** `n` letters: one byte each once encoded. */
  function Letters(n: nat): (s: Bytes)
    ensures |s| == n && forall i | 0 <= i < n :: s[i] == 0x61
  {
    seq(n, _ => 0x61)
  }

  lemma {:induction false} LettersLength(s: Bytes)
    requires forall i | 0 <= i < |s| :: 0x61 <= s[i] <= 0x7A
    ensures EscapedSum(s) == |s|
  {
    if s != [] {
      LettersLength(s[..|s| - 1]);
    }
  }

  lemma {:induction false} LettersValid(s: Bytes)
    requires forall i | 0 <= i < |s| :: 0x61 <= s[i] <= 0x7A
    ensures Utf8.Valid(s)
  {
    if s != [] {
      LettersValid(s[1..]);
    }
  }

  lemma LettersMean(n: nat)
    ensures TextLength(Letters(n)) == n + 2 && UiState.RequestLength(BufferState.PrivateChat(BOB), Letters(n)) == n + 46
    ensures 0 < n <= MAX_WIRE_TEXT ==> WireText(Letters(n))
  {
    LettersLength(Letters(n));
    LettersValid(Letters(n));
    LettersLength(BOB);
    hide EscapedSum, Utf8.Valid;
  }

  const COUNT: nat := 17

  /** Two registrations and `k` private messages from Alice to Bob with the same content. */
  function Sends(k: nat, content: Bytes): seq<HistoryPaging.Change> {
    [HistoryPaging.NewUser(ALICE), HistoryPaging.NewUser(BOB)] + seq(k, _ => HistoryPaging.SendPrivate(ALICE, BOB, content, 0))
  }

  function Row(id: int, content: Bytes): Stored {
    Stored(id, Private, 1, None, content, 0)
  }

  function Sent(k: nat, content: Bytes): (h: seq<Stored>)
    ensures |h| == k && forall i | 0 <= i < k :: h[i] == Row(i + 1, content)
  {
    seq(k, i => Row(i + 1, content))
  }

  function Waiting(k: nat): (r: map<(int, int), Option<int>>)
    ensures forall p :: p in r <==> 1 <= p.0 <= k && p.1 == 2
    ensures forall p | p in r :: r[p] == None
  {
    map i | 1 <= i <= k :: (i, 2) := None
  }

  /** What the tables hold then: nothing of it is acknowledged. */
  function Mailbox(k: nat, content: Bytes): Tables {
    Tables([ALICE, BOB], [], {}, Sent(k, content), Waiting(k), [])
  }

  lemma {:induction false} PerformedInTurn(t: Tables, cs: seq<HistoryPaging.Change>, c: HistoryPaging.Change)
    ensures HistoryPaging.PerformAll(t, cs + [c]) == HistoryPaging.Perform(HistoryPaging.PerformAll(t, cs), c)
    decreases |cs|
  {
    hide HistoryPaging.Perform;
    if cs == [] {
      assert cs + [c] == [c];
      assert HistoryPaging.PerformAll(HistoryPaging.Perform(t, c), [c][1..]) == HistoryPaging.Perform(t, c);
    } else {
      assert (cs + [c])[1..] == cs[1..] + [c];
      PerformedInTurn(HistoryPaging.Perform(t, cs[0]), cs[1..], c);
    }
  }

  lemma AliceAndBob(users: seq<Bytes>)
    requires users == [ALICE, BOB]
    ensures FindUser(users, ALICE) == Some(1) && FindUser(users, BOB) == Some(2)
  {
    assert users[..1] == [ALICE];
  }

  /** Each of these messages is accepted. */
  lemma SendIsAccepted(k: nat, content: Bytes)
    requires k < MAX_INT64 && WireText(content)
    ensures AcceptPrivate(Mailbox(k, content), ALICE, BOB, content, 0).1.Accepted?
    ensures AcceptPrivate(Mailbox(k, content), ALICE, BOB, content, 0).0 == Mailbox(k + 1, content)
  {
    hide WireText, AcceptPrivate, Sent, Waiting, Snapshot;
    PrivateIsAccept(Mailbox(k, content), content);
    MailboxGrows(k, content);
  }

  lemma PrivateIsAccept(t: Tables, content: Bytes)
    requires t.users == [ALICE, BOB] && WireText(content)
    ensures AcceptPrivate(t, ALICE, BOB, content, 0) == Accept(t, Private, 1, None, content, [2], 0)
  {
    assert WireText(ALICE) by { LettersValid(ALICE); }
    hide WireText, Accept;
    AliceAndBob(t.users);
    hide FindUser;
  }

  lemma MailboxGrows(k: nat, content: Bytes)
    ensures Sent(k + 1, content) == Sent(k, content) + [Row(k + 1, content)] && NextId(Sent(k, content)) == k + 1
    ensures Waiting(k + 1) == Waiting(k) + Snapshot(k + 1, [2])
  {
    SentGrows(k, content);
    WaitingGrows(k);
  }

  lemma SentGrows(k: nat, content: Bytes)
    ensures Sent(k + 1, content) == Sent(k, content) + [Row(k + 1, content)] && NextId(Sent(k, content)) == k + 1
  {
    hide Waiting;
  }

  lemma WaitingGrows(k: nat)
    ensures Waiting(k + 1) == Waiting(k) + Snapshot(k + 1, [2])
  {
    hide Waiting, Snapshot;
    var a, b := Waiting(k + 1), Waiting(k) + Snapshot(k + 1, [2]);
    assert forall p :: p in a <==> p in b;
    assert forall p | p in a :: a[p] == None && b[p] == None;
  }

  /** The mailbox is what the sends lead to from empty tables. */
  lemma {:induction false} MailboxIsReached(k: nat, content: Bytes)
    requires k <= MAX_INT64 && WireText(content)
    ensures HistoryPaging.PerformAll(EMPTY, Sends(k, content)) == Mailbox(k, content)
  {
    var send := HistoryPaging.SendPrivate(ALICE, BOB, content, 0);
    if k == 0 {
      NothingSent(content);
    } else {
      hide HistoryPaging.PerformAll, Mailbox, WireText, AcceptPrivate;
      OneMoreSend(k - 1, content);
      hide Sends;
      MailboxIsReached(k - 1, content);
      PerformedInTurn(EMPTY, Sends(k - 1, content), send);
      SendIsAccepted(k - 1, content);
    }
  }

  lemma OneMoreSend(k: nat, content: Bytes)
    ensures Sends(k + 1, content) == Sends(k, content) + [HistoryPaging.SendPrivate(ALICE, BOB, content, 0)]
  {
  }

  lemma NothingSent(content: Bytes)
    ensures HistoryPaging.PerformAll(EMPTY, Sends(0, content)) == Mailbox(0, content)
  {
    var a, b := HistoryPaging.NewUser(ALICE), HistoryPaging.NewUser(BOB);
    assert Sends(0, content) == [a] + [b] && [a] == [] + [a];
    PerformedInTurn(EMPTY, [a], b);
    PerformedInTurn(EMPTY, [], a);
    assert Sent(0, content) == [] && Waiting(0) == map[];
  }

  // ----- The page -----

  lemma {:induction false} EverythingSelected(t: Tables, u: int, h: seq<Stored>, through: int)
    requires forall m | m in h :: 0 < m.id <= through && Visible(t, u, true, m)
    ensures Select(t, u, true, h, 0, through) == h
  {
    if h != [] {
      EverythingSelected(t, u, h[1..], through);
    }
  }

  lemma MailboxPage(k: nat, content: Bytes)
    requires 0 < k <= 50 && Consistent(Mailbox(k, content))
    ensures var t := Mailbox(k, content);
      && |t.history| == k && (forall i | 0 <= i < k :: IsUser(t, t.history[i].senderId))
      && FetchPage(t, BOB, 0, None, 50, true) == Ready(Deliveries(t, t.history), k, false)
  {
    hide Consistent, FindUser, Select, Watermark;
    AliceAndBob(Mailbox(k, content).users);
    MailboxSelected(k, content);
  }

  lemma MailboxSelected(k: nat, content: Bytes)
    requires 0 < k
    ensures var t := Mailbox(k, content);
      Watermark(t, 2, true, t.history) == k && Select(t, 2, true, t.history, 0, k) == t.history
  {
    var t := Mailbox(k, content);
    hide Select, Watermark;
    assert t.history[k - 1] in t.history && t.history[k - 1].id == k;
    assert forall m | m in t.history :: 0 < m.id <= k && Visible(t, 2, true, m);
    hide Sent, Waiting, Visible;
    WatermarkBounds(t, 2, true, t.history);
    EverythingSelected(t, 2, t.history, k);
  }

  /** Digits of the ids 1..k. */
  function IdDigitsTotal(k: nat): nat {
    if k == 0 then 0 else IdDigitsTotal(k - 1) + Digits(k)
  }

  lemma {:induction false} MailboxLength(rows: seq<Delivery>, content: Bytes)
    requires forall i | 0 <= i < |rows| :: rows[i] == Delivery(Row(i + 1, content), ALICE)
    requires rows != [] && TextLength(ALICE) == 3
    ensures RecordsLength(rows) == 1 + |rows| * (103 + TextLength(content)) + IdDigitsTotal(|rows|)
  {
    hide EnvelopeLength, TextLength, RecordsLength, Digits;
    var size := 103 + TextLength(content);
    LastRowLength(rows, content);
    if |rows| == 1 {
      assert rows[..0] == [] && RecordsLength([]) == 2 && IdDigitsTotal(0) == 0 by { NoRecords(); }
    } else {
      MailboxLength(rows[..|rows| - 1], content);
    }
    OneMoreTime(|rows|, size);
  }

  lemma LastRowLength(rows: seq<Delivery>, content: Bytes)
    requires rows != [] && rows[|rows| - 1] == Delivery(Row(|rows|, content), ALICE) && TextLength(ALICE) == 3
    ensures RecordsLength(rows) == RecordsLength(rows[..|rows| - 1]) + 102 + TextLength(content) + Digits(|rows|)
      + (if |rows| > 1 then 1 else 0)
  {
    hide TextLength, Digits;
    OneDigit();
  }

  lemma OneDigit()
    ensures Digits(0) == 1 && Digits(1) == 1
  {
  }

  lemma NoRecords()
    ensures RecordsLength([]) == 2 && IdDigitsTotal(0) == 0
  {
  }

  lemma OneMoreTime(n: nat, size: nat)
    requires n > 0
    ensures n * size == (n - 1) * size + size
  {
  }

  lemma SeventeenIds()
    ensures IdDigitsTotal(COUNT) == 25 && Digits(COUNT) == 2
  {
    assert IdDigitsTotal(5) == 5 && IdDigitsTotal(9) == 9;
    assert IdDigitsTotal(13) == 17;
  }

  lemma MailboxConsistent(k: nat, content: Bytes)
    requires k <= MAX_INT64 && WireText(content)
    ensures Consistent(Mailbox(k, content))
  {
    hide Consistent, Mailbox, HistoryPaging.PerformAll, WireText;
    EmptyConsistent();
    HistoryPaging.EveryRunEvolves(EMPTY, Sends(k, content));
    MailboxIsReached(k, content);
  }

  lemma EmptyConsistent()
    ensures Consistent(EMPTY)
  {
  }

  /** Seventeen messages of this encoded length fill a pending page to the byte. */
  lemma MailboxRefused(content: Bytes)
    requires WireText(content) && TextLength(content) == 61_566
    ensures Consistent(Mailbox(COUNT, content))
    ensures Respond(SyncPending, 0, FetchPage(Mailbox(COUNT, content), BOB, 0, None, 50, true)) == Unrepresentable
  {
    hide Consistent, FetchPage, Respond, ResponseLength, WireText, TextLength, Digits, PageRows, Mailbox, Deliveries, IsUser;
    MailboxConsistent(COUNT, content);
    MailboxPage(COUNT, content);
    var t := Mailbox(COUNT, content);
    var rows := Deliveries(t, t.history);
    MailboxDeliveries(COUNT, content);
    MailboxRows(rows, content);
    RefusedExactlyWhen(SyncPending, 0, rows, COUNT, false);
  }

  lemma MailboxDeliveries(k: nat, content: Bytes)
    requires var t := Mailbox(k, content); forall i | 0 <= i < |t.history| :: IsUser(t, t.history[i].senderId)
    ensures var t := Mailbox(k, content);
      |t.history| == k && forall i | 0 <= i < k :: Deliveries(t, t.history)[i] == Delivery(Row(i + 1, content), ALICE)
  {
    hide Waiting;
  }

  lemma MailboxRows(rows: seq<Delivery>, content: Bytes)
    requires |rows| == COUNT && forall i | 0 <= i < COUNT :: rows[i] == Delivery(Row(i + 1, content), ALICE)
    requires WireText(content) && TextLength(content) == 61_566
    ensures PageRows(rows, 0, COUNT) && Cursor(rows, 0) == COUNT
    ensures ResponseLength(SyncPending, rows, COUNT, COUNT, true) == MAX_RESPONSE
  {
    hide Utf8.Valid;
    LettersLength(ALICE);
    hide EscapedSum;
    MailboxLength(rows, content);
    SeventeenIds();
    hide RecordsLength, IdDigitsTotal, Digits, TextLength;
  }

  /** Bob's pending page is refused although every message was sent as a request within the
      limit of both sides and accepted, starting from empty tables. */
  lemma FullMailboxRefused()
    ensures exists content ::
      && UiState.RequestLength(BufferState.PrivateChat(BOB), content) <= Framing.SERVER_LIMIT
      && (forall k: nat | k < COUNT ::
            AcceptPrivate(HistoryPaging.PerformAll(EMPTY, Sends(k, content)), ALICE, BOB, content, 0).1.Accepted?)
      && var t := HistoryPaging.PerformAll(EMPTY, Sends(COUNT, content));
         && Consistent(t)
         && Respond(SyncPending, 0, FetchPage(t, BOB, 0, None, 50, true)) == Unrepresentable
  {
    hide Utf8.Valid, EscapedSum, Letters, Consistent, AcceptPrivate, Respond, FetchPage, HistoryPaging.PerformAll, Mailbox;
    var content := Letters(61_564);
    LettersMean(61_564);
    hide TextLength, UiState.RequestLength, WireText;
    forall k: nat | k < COUNT
      ensures AcceptPrivate(HistoryPaging.PerformAll(EMPTY, Sends(k, content)), ALICE, BOB, content, 0).1.Accepted?
    {
      MailboxIsReached(k, content);
      SendIsAccepted(k, content);
    }
    MailboxIsReached(COUNT, content);
    MailboxRefused(content);
  }

  // ----- The refusal lasts until the pending messages change -----

  lemma {:induction false} SelectAppend(t: Tables, u: int, a: seq<Stored>, b: seq<Stored>, after: int, through: int)
    ensures Select(t, u, true, a + b, after, through)
         == Select(t, u, true, a, after, through) + Select(t, u, true, b, after, through)
    decreases |a|
  {
    hide Visible, Select;
    if a == [] {
      assert a + b == b;
      SelectNone(t, u, true, a, after, through);
    } else {
      FrontOfSum(a, b);
      SelectFront(t, u, true, a, after, through);
      SelectFront(t, u, true, a + b, after, through);
      SelectAppend(t, u, a[1..], b, after, through);
      FrontJoins(a[0], Select(t, u, true, a[1..], after, through), Select(t, u, true, b, after, through));
    }
  }

  lemma FrontOfSum(a: seq<Stored>, b: seq<Stored>)
    requires a != []
    ensures (a + b)[0] == a[0] && (a + b)[1..] == a[1..] + b
  {
  }

  /** Rows visible in both tables are selected alike up to any watermark that covers them. */
  lemma {:induction false} SelectAlike(t: Tables, t': Tables, u: int, h: seq<Stored>, after: int, w: int, w': int)
    requires forall m | m in h :: Visible(t, u, true, m) <==> Visible(t', u, true, m)
    requires forall m | m in h && Visible(t, u, true, m) :: m.id <= w && m.id <= w'
    ensures Select(t', u, true, h, after, w') == Select(t, u, true, h, after, w)
  {
    if h != [] {
      assert h[0] in h;
      SelectAlike(t, t', u, h[1..], after, w, w');
    }
  }

  /** What was pending still is, and something new is. */
  ghost predicate MorePending(t: Tables, t': Tables, u: int) {
    && (forall m | m in t.history && Visible(t, u, true, m) :: Visible(t', u, true, m))
    && exists m :: m in t'.history && m.id >= NextId(t.history) && Visible(t', u, true, m)
  }

  lemma WatermarkRises(t: Tables, t': Tables, u: int)
    requires Consistent(t) && Evolves(t, t') && MorePending(t, t', u)
    ensures Watermark(t, u, true, t.history) <= Watermark(t', u, true, t'.history)
  {
    WatermarkBounds(t, u, true, t.history);
    WatermarkBounds(t', u, true, t'.history);
    hide Watermark, Visible, Consistent;
    if Watermark(t, u, true, t.history) > 0 {
      var m :| m in t.history && Visible(t, u, true, m) && m.id == Watermark(t, u, true, t.history);
      assert m in t'.history && Visible(t', u, true, m);
    }
  }

  /** Old rows are pending in both tables or in neither: an acknowledgement is never taken back. */
  lemma SamePending(t: Tables, t': Tables, u: int, m: Stored)
    requires Evolves(t, t') && MorePending(t, t', u) && m in t.history && m.id < NextId(t.history)
    ensures Visible(t, u, true, m) <==> Visible(t', u, true, m)
  {
  }

  /** The pending rows of the later tables begin with those of the earlier ones. */
  lemma PendingGrows(t: Tables, t': Tables, u: int) returns (extra: seq<Stored>)
    requires Consistent(t) && Consistent(t') && Evolves(t, t') && MorePending(t, t', u)
    ensures var w, w' := Watermark(t, u, true, t.history), Watermark(t', u, true, t'.history);
      && w <= w' && extra != []
      && Select(t', u, true, t'.history, 0, w') == Select(t, u, true, t.history, 0, w) + extra
  {
    hide Select, Watermark, Visible, Consistent, MorePending, NextId;
    var h, later := t.history, t'.history[|t.history|..];
    var w, w' := Watermark(t, u, true, h), Watermark(t', u, true, t'.history);
    WatermarkRises(t, t', u);
    SamePendingRows(t, t', u);
    extra := Select(t', u, true, later, 0, w');
    SomethingNew(t, t', u);
    assert h + later == t'.history;
    hide Evolves;
    SelectAlike(t, t', u, h, 0, w, w');
    SelectAppend(t', u, h, later, 0, w');
  }

  lemma SamePendingRows(t: Tables, t': Tables, u: int)
    requires Consistent(t) && Consistent(t') && Evolves(t, t') && MorePending(t, t', u)
    ensures forall m | m in t.history :: Visible(t, u, true, m) <==> Visible(t', u, true, m)
    ensures forall m | m in t.history && Visible(t, u, true, m) :: m.id <= Watermark(t, u, true, t.history)
  {
    HistoryPaging.NewerRows(t, t');
    WatermarkBounds(t, u, true, t.history);
    hide Watermark, Visible, Consistent, Evolves, MorePending, NextId;
    forall m | m in t.history
      ensures Visible(t, u, true, m) <==> Visible(t', u, true, m)
    {
      SamePending(t, t', u, m);
    }
  }

  lemma SomethingNew(t: Tables, t': Tables, u: int)
    requires Consistent(t) && Consistent(t') && Evolves(t, t') && MorePending(t, t', u)
    ensures Select(t', u, true, t'.history[|t.history|..], 0, Watermark(t', u, true, t'.history)) != []
  {
    hide Select, Watermark, Visible, Consistent;
    var h, later := t.history, t'.history[|t.history|..];
    HistoryPaging.NewerRows(t, t');
    HistoryPaging.PositiveIds(t');
    var m :| m in t'.history && m.id >= NextId(h) && Visible(t', u, true, m);
    assert h + later == t'.history && m in later;
    hide NextId, Evolves, MorePending;
    WatermarkBounds(t', u, true, t'.history);
    SelectSound(t', u, true, later, 0, Watermark(t', u, true, t'.history));
  }

  /** A refused first page is served once one more message is pending: the refusal lasts only
      while the pending messages stay what they are. */
  lemma RefusedOnlyUntilMoreIsPending(t: Tables, t': Tables, name: Bytes, u: int, limit: nat)
    requires Consistent(t) && Consistent(t') && Evolves(t, t') && MorePending(t, t', u)
    requires FindUser(t.users, name) == Some(u) && FindUser(t'.users, name) == Some(u)
    requires Respond(SyncPending, 0, FetchPage(t, name, 0, None, limit, true)) == Unrepresentable
    ensures Respond(SyncPending, 0, FetchPage(t', name, 0, None, limit, true)).PageResponse?
  {
    var page, page' := FetchPage(t, name, 0, None, limit, true), FetchPage(t', name, 0, None, limit, true);
    assert page.Ready? && page'.Ready?;
    FetchMeaning(t, name, u, 0, None, limit, true, page);
    FetchMeaning(t', name, u, 0, None, limit, true, page');
    WatermarkIsAnId(t, u, true);
    WatermarkIsAnId(t', u, true);
    var extra := PendingGrows(t, t', u);
    hide FetchPage, Consistent, MorePending, Respond, FindUser, Watermark, Select;
    QueriedRows(t, u, 0, None, limit, true, page);
    QueriedRows(t', u, 0, None, limit, true, page');
    RefusedExactlyWhen(SyncPending, 0, page.rows, page.through, page.hasMore);
    hide ResponseLength, PageRows, Digits;
    var more := LongerPage(t, t', u, limit, extra, page, page');
    LongerPageIsServed(SyncPending, 0, page.rows, page.through, more, page'.through, page'.hasMore);
  }

  lemma LongerPage(t: Tables, t': Tables, u: int, limit: nat, extra: seq<Stored>, page: Page, page': Page)
    returns (more: seq<Delivery>)
    requires Fetched(t, u, 0, None, limit, true, page) && Fetched(t', u, 0, None, limit, true, page')
    requires !page.hasMore && extra != [] && t.users <= t'.users
    requires Select(t', u, true, t'.history, 0, page'.through) == Select(t, u, true, t.history, 0, page.through) + extra
    ensures page'.rows == page.rows + more && (more != [] || page'.hasMore)
  {
    hide Select, Watermark;
    var all := Select(t, u, true, t.history, 0, page.through);
    HistoryPaging.DeliveriesStable(t, t', all);
    more := page'.rows[|all|..];
    assert Take(all, limit) == all;
    assert forall i | 0 <= i < |all| :: page'.rows[i] == WithSender(t', all[i]) == page.rows[i];
  }

  /** One more message to the user is enough. */
  lemma OneMoreMessageIsServed(t: Tables, sender: Bytes, name: Bytes, u: int, content: Bytes, now: nat, limit: nat)
    requires Consistent(t) && FindUser(t.users, name) == Some(u)
    requires Respond(SyncPending, 0, FetchPage(t, name, 0, None, limit, true)) == Unrepresentable
    requires AcceptPrivate(t, sender, name, content, now).1.Accepted?
    ensures Consistent(AcceptPrivate(t, sender, name, content, now).0)
    ensures var t' := AcceptPrivate(t, sender, name, content, now).0;
      Respond(SyncPending, 0, FetchPage(t', name, 0, None, limit, true)).PageResponse?
  {
    hide Consistent, Respond, FetchPage, CommittedAs, Evolves, AcceptPrivate;
    var (t', r) := AcceptPrivate(t, sender, name, content, now);
    PrivateLaw(t, sender, name, content, now);
    var f, v :| IsUser(t, f) && IsUser(t, v) && t.users[v - 1] == name
      && CommittedAs(t, t', r, Private, f, None, content, [v], now);
    FindUserId(t, name, v);
    AcceptedIsPending(t, t', r, f, content, v, now);
    RefusedOnlyUntilMoreIsPending(t, t', name, u, limit);
  }

  lemma AcceptedIsPending(t: Tables, t': Tables, r: Acceptance, f: int, content: Bytes, v: int, now: nat)
    requires IsUser(t, f) && CommittedAs(t, t', r, Private, f, None, content, [v], now)
    ensures MorePending(t, t', v) && t'.users == t.users
  {
    var m := r.delivery.message;
    assert v in [v] && m in t'.history && Visible(t', v, true, m);
    forall x | x in t.history && Visible(t, v, true, x)
      ensures Visible(t', v, true, x)
    {
    }
  }
}
