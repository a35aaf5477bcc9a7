/** Serving a page (serverf/durable_routing.cpp, `writePage`): how many queried rows fit one
    response, which cursor it hands back and when it claims that more remain. */
module PageWriter {
  import opened Prelude
  import opened Tables
  import Utf8

  const MAX_RESPONSE: nat := 1_048_576

  datatype Operation = SyncPending | History

  datatype Response =
    | PageResponse(records: seq<Delivery>, through: int, next: int, hasMore: bool)
    | Unrepresentable
    | NoAccount
    | BadRequest

  // ----- Encoded lengths: compact JSON text, section 7 of RFC 8259 -----

  /** Bytes one byte of text takes inside a JSON string. */
  function EscapedLength(b: bv8): (n: nat)
    ensures 1 <= n <= 6
  {
    if b == 0x22 || b == 0x5C || b == 0x08 || b == 0x09 || b == 0x0A || b == 0x0C || b == 0x0D then 2
    else if b < 0x20 then 6
    else 1
  }

  function EscapedSum(s: Bytes): (n: nat)
    ensures n <= 6 * |s|
  {
    if s == [] then 0 else EscapedSum(s[..|s| - 1]) + EscapedLength(s[|s| - 1])
  }

  /** Length of a JSON string, quotes included. */
  function TextLength(s: Bytes): nat { EscapedSum(s) + 2 }

  /** Length of a nonnegative integer in decimal. */
  function Digits(n: int): (d: nat)
    ensures d >= 1
    decreases if n < 0 then 0 else n
  {
    if n < 10 then 1 else Digits(n / 10) + 1
  }

  function KindLength(kind: Kind): nat {
    match kind case Private => 9 case Group => 7 case Broadcast => 11
  }

  /** Length of a MESSAGE object: 88 bytes of braces, commas, field names and the type, and
      12 more for the name of `group_id`. */
  function EnvelopeLength(d: Delivery): (n: nat)
    ensures n >= 1
  {
    var m := d.message;
    88 + TextLength(m.content) + TextLength(d.sender) + KindLength(m.kind)
    + Digits(m.id) + Digits(m.senderId) + Digits(m.createdAt)
    + match m.groupId case None => 0 case Some(g) => 12 + Digits(g)
  }

  /** Length of the `messages` array: brackets, records and the commas between them. */
  function RecordsLength(ds: seq<Delivery>): (n: nat)
    ensures n >= 2
  {
    if ds == [] then 2
    else RecordsLength(ds[..|ds| - 1]) + EnvelopeLength(ds[|ds| - 1]) + (if |ds| > 1 then 1 else 0)
  }

  /** Length of a whole page response; the constants are its fixed text. */
  function ResponseLength(op: Operation, records: seq<Delivery>, through: int, next: int, hasMore: bool): nat {
    (if op == SyncPending then 169 else 166)
    + (if hasMore then 4 else 5)
    + RecordsLength(records) + Digits(next) + Digits(through)
  }

  // ----- Filling -----

  /** How many rows a response holds once `k` are in: one more as long as the response that
      ends with it, probed with `has_more` true, is within the limit. */
  function Filled(op: Operation, rows: seq<Delivery>, through: int, k: nat): (n: nat)
    requires k <= |rows|
    ensures k <= n <= |rows|
    decreases |rows| - k
  {
    if k < |rows| && Probe(op, rows, through, k) then Filled(op, rows, through, k + 1) else k
  }

  predicate Probe(op: Operation, rows: seq<Delivery>, through: int, k: nat)
    requires k < |rows|
  {
    ResponseLength(op, rows[..k + 1], through, rows[k].message.id, true) <= MAX_RESPONSE
  }

  function Cursor(rows: seq<Delivery>, after: int): int {
    if rows == [] then after else rows[|rows| - 1].message.id
  }

  function Respond(op: Operation, after: int, page: Page): Response {
    match page
    case InvalidCursor => BadRequest
    case UserNotFound => NoAccount
    case Ready(rows, through, hasMore) =>
      var k := Filled(op, rows, through, 0);
      var more := hasMore || k < |rows|;
      if k == 0 && rows != [] then Unrepresentable
      else if ResponseLength(op, rows[..k], through, Cursor(rows[..k], after), more) > MAX_RESPONSE then Unrepresentable
      else PageResponse(rows[..k], through, Cursor(rows[..k], after), more)
  }

  /** The response as the handler builds it, row by row. */
  method WritePage(op: Operation, after: int, page: Page) returns (response: Response)
    ensures response == Respond(op, after, page)
  {
    hide ResponseLength;
    if page.InvalidCursor? {
      return BadRequest;
    }
    if page.UserNotFound? {
      return NoAccount;
    }
    var rows := page.rows;
    var records: seq<Delivery> := [];
    var next := after;
    var hasMore := page.hasMore;
    var omittedRecord := false;
    var i := 0;
    while i < |rows| && !omittedRecord
      invariant i <= |rows|
      invariant |records| <= |rows| && records == rows[..|records|]
      invariant next == Cursor(records, after)
      invariant Filled(op, rows, page.through, 0) == Filled(op, rows, page.through, |records|)
      invariant !omittedRecord ==> |records| == i
      invariant omittedRecord ==> 0 < |records| < |rows| && Filled(op, rows, page.through, 0) == |records|
      decreases |rows| - i
    {
      var candidate := records + [rows[i]];
      assert candidate == rows[..i + 1];
      if ResponseLength(op, candidate, page.through, rows[i].message.id, true) > MAX_RESPONSE {
        if records == [] {
          return Unrepresentable;
        }
        omittedRecord := true;
      } else {
        records, next, hasMore := candidate, rows[i].message.id, true;
      }
      i := i + 1;
    }
    hasMore := page.hasMore || omittedRecord;
    if ResponseLength(op, records, page.through, next, hasMore) > MAX_RESPONSE {
      return Unrepresentable;
    }
    return PageResponse(records, page.through, next, hasMore);
  }

  // ----- What a page means -----

  lemma {:induction false} SelectNone(t: Tables, user: int, pending: bool, h: seq<Stored>, after: int, through: int)
    requires forall m | m in h :: !(after < m.id <= through && Visible(t, user, pending, m))
    ensures Select(t, user, pending, h, after, through) == []
  {
    if h != [] {
      assert h[0] in h;
      SelectNone(t, user, pending, h[1..], after, through);
    }
  }

  /** A cut at any cursor in between splits a selection in two. */
  lemma {:induction false} SelectSplit(t: Tables, user: int, pending: bool, h: seq<Stored>, after: int, mid: int, through: int)
    requires Increasing(h) && after <= mid <= through
    ensures Select(t, user, pending, h, after, through)
         == Select(t, user, pending, h, after, mid) + Select(t, user, pending, h, mid, through)
  {
    if h != [] {
      assert Increasing(h[1..]);
      if h[0].id > mid {
        FrontIsLeast(h);
        hide Visible, Select, Increasing;
        SelectNone(t, user, pending, h, after, mid);
        SelectBeyond(t, user, pending, h, after, mid, through);
        assert Select(t, user, pending, h, after, mid) == [];
      } else {
        hide Visible, Select, Increasing;
        SelectFront(t, user, pending, h, after, through);
        SelectFront(t, user, pending, h, after, mid);
        SelectFront(t, user, pending, h, mid, through);
        SelectSplit(t, user, pending, h[1..], after, mid, through);
        FrontJoins(h[0], Select(t, user, pending, h[1..], after, mid), Select(t, user, pending, h[1..], mid, through));
      }
    }
  }

  lemma FrontJoins(m: Stored, low: seq<Stored>, high: seq<Stored>)
    ensures [m] + (low + high) == [m] + low + high
  {
  }

  lemma {:induction false} SelectBeyond(t: Tables, user: int, pending: bool, h: seq<Stored>, after: int, mid: int, through: int)
    requires after <= mid && forall m | m in h :: m.id > mid
    ensures Select(t, user, pending, h, after, through) == Select(t, user, pending, h, mid, through)
  {
    hide Visible;
    if h != [] {
      SelectBeyond(t, user, pending, h[1..], after, mid, through);
    }
  }

  lemma SelectFront(t: Tables, user: int, pending: bool, h: seq<Stored>, after: int, through: int)
    requires h != []
    ensures var rest := Select(t, user, pending, h[1..], after, through);
      Select(t, user, pending, h, after, through)
        == if after < h[0].id <= through && Visible(t, user, pending, h[0]) then [h[0]] + rest else rest
  {
    hide Visible;
    var rest := Select(t, user, pending, h[1..], after, through);
    assert [] + rest == rest;
  }

  lemma FrontIsLeast(h: seq<Stored>)
    requires Increasing(h) && h != []
    ensures forall m | m in h[1..] :: h[0].id < m.id
  {
    forall m | m in h[1..]
      ensures h[0].id < m.id
    {
      var i :| 0 < i < |h| && h[i] == m;
    }
  }

  /** The first `k` selected rows are the selection up to the `k`-th id, the others the
      selection beyond it. */
  lemma SelectCut(t: Tables, user: int, pending: bool, h: seq<Stored>, after: int, through: int, k: nat)
    requires Increasing(h) && after <= through
    requires k <= |Select(t, user, pending, h, after, through)|
    ensures var all := Select(t, user, pending, h, after, through);
      var mid := if k == 0 then after else all[k - 1].id;
      && after <= mid <= through
      && Select(t, user, pending, h, after, mid) == all[..k]
      && Select(t, user, pending, h, mid, through) == all[k..]
  {
    var all := Select(t, user, pending, h, after, through);
    var mid := if k == 0 then after else all[k - 1].id;
    SelectSound(t, user, pending, h, after, through);
    if k == 0 {
      SelectNone(t, user, pending, h, after, after);
    } else {
      assert all[k - 1] in all;
      SelectSplit(t, user, pending, h, after, mid, through);
      var low, high := Select(t, user, pending, h, after, mid), Select(t, user, pending, h, mid, through);
      SelectSound(t, user, pending, h, after, mid);
      SelectSound(t, user, pending, h, mid, through);
      SelectIncreasing(t, user, pending, h, after, through);
      assert all == low + high;
      forall i | 0 <= i < |all|
        ensures i < |low| <==> all[i].id <= mid
      {
        assert all[i] == if i < |low| then low[i] else high[i - |low|];
        assert if i < |low| then low[i] in low else high[i - |low|] in high;
      }
      assert k < |all| ==> all[k - 1].id < all[k].id;
      assert k - 1 < |low| <= k;
    }
  }

  lemma {:induction false} SelectIncreasing(t: Tables, user: int, pending: bool, h: seq<Stored>, after: int, through: int)
    requires Increasing(h)
    ensures Increasing(Select(t, user, pending, h, after, through))
  {
    if h != [] {
      var rest := Select(t, user, pending, h[1..], after, through);
      assert Increasing(h[1..]);
      SelectIncreasing(t, user, pending, h[1..], after, through);
      SelectSound(t, user, pending, h[1..], after, through);
      hide Select, Visible;
      forall i | 0 <= i < |rest|
        ensures h[0].id < rest[i].id
      {
        assert rest[i] in rest && rest[i] in h[1..];
      }
      FrontRises(h[0], rest);
    }
  }

  lemma FrontRises(m: Stored, rest: seq<Stored>)
    requires Increasing(rest) && forall i | 0 <= i < |rest| :: m.id < rest[i].id
    ensures Increasing([m] + rest)
  {
  }

  /** A response that holds the first rows of the page it was given. */
  ghost predicate Prefixed(op: Operation, after: int, page: Page, r: Response) {
    && page.Ready? && r.PageResponse?
    && |r.records| <= |page.rows| && r.records == page.rows[..|r.records|]
    && r.through == page.through && r.next == Cursor(r.records, after)
    && (r.hasMore <==> page.hasMore || |r.records| < |page.rows|)
    && (page.rows != [] ==> r.records != [])
    && ResponseLength(op, r.records, r.through, r.next, r.hasMore) <= MAX_RESPONSE
  }

  lemma RespondPrefix(op: Operation, after: int, page: Page, r: Response)
    requires r == Respond(op, after, page) && r.PageResponse?
    ensures Prefixed(op, after, page, r)
  {
  }

  /** A queried page: the first `limit` visible rows beyond the cursor up to the watermark. */
  ghost predicate Fetched(t: Tables, u: int, after: int, through: Option<int>, limit: nat, pending: bool, page: Page) {
    && page.Ready?
    && var all := Select(t, u, pending, t.history, after, page.through);
    && limit > 0
    && (page.through == if through.Some? then through.value else Watermark(t, u, pending, t.history))
    && 0 <= after <= page.through
    && (forall i | 0 <= i < |all| :: IsUser(t, all[i].senderId))
    && page.rows == Deliveries(t, Take(all, limit))
    && page.hasMore == (|all| > limit)
  }

  lemma FetchMeaning(t: Tables, name: Bytes, u: int, after: int, through: Option<int>, limit: nat, pending: bool, page: Page)
    requires Consistent(t) && FindUser(t.users, name) == Some(u)
    requires page == FetchPage(t, name, after, through, limit, pending)
    requires page.Ready?
    ensures Fetched(t, u, after, through, limit, pending, page)
  {
    hide Utf8.Valid, RecipientOk, FindUser;
    WatermarkBounds(t, u, pending, t.history);
    var all := Select(t, u, pending, t.history, after, page.through);
    SelectSound(t, u, pending, t.history, after, page.through);
    forall i | 0 <= i < |all|
      ensures IsUser(t, all[i].senderId)
    {
      assert all[i] in all && RowOk(t, all[i]);
    }
  }

  /** `r` shows exactly the visible rows between its cursors, under the right watermark, and
      claims more exactly when a visible row lies beyond its cursor up to the watermark. */
  ghost predicate Served(t: Tables, op: Operation, u: int, after: int, through: Option<int>, r: Response) {
    && r.PageResponse?
    && var pending := op == SyncPending;
    && var rows := Select(t, u, pending, t.history, after, r.next);
    && r.through == (if through.Some? then through.value else Watermark(t, u, pending, t.history))
    && 0 <= after <= r.next <= r.through
    && (forall i | 0 <= i < |rows| :: IsUser(t, rows[i].senderId))
    && r.records == Deliveries(t, rows)
    && (r.hasMore <==> Select(t, u, pending, t.history, r.next, r.through) != [])
    && (r.hasMore ==> r.records != [])
    && r.next == Cursor(r.records, after)
    && ResponseLength(op, r.records, r.through, r.next, r.hasMore) <= MAX_RESPONSE
  }

  lemma ServedFromPrefix(t: Tables, op: Operation, u: int, after: int, through: Option<int>, limit: nat, page: Page, r: Response)
    requires Increasing(t.history)
    requires Fetched(t, u, after, through, limit, op == SyncPending, page)
    requires Prefixed(op, after, page, r)
    ensures Served(t, op, u, after, through, r)
  {
    hide ResponseLength, Increasing, Select, Watermark, Prefixed, Cursor, Deliveries, IsUser;
    PrefixedIsServed(op, after, page, r);
    var k := |r.records|;
    var pending := op == SyncPending;
    var all := Select(t, u, pending, t.history, after, page.through);
    PrefixOf(t, op, all, after, limit, page, r);
    SelectCut(t, u, pending, t.history, after, page.through, k);
    assert all[k..] == [] <==> k == |all|;
  }

  lemma PrefixedIsServed(op: Operation, after: int, page: Page, r: Response)
    requires Prefixed(op, after, page, r)
    ensures page.Ready? && r.PageResponse?
  {
  }

  /** A prefix of the queried page in terms of the selection behind the page. */
  lemma PrefixOf(t: Tables, op: Operation, all: seq<Stored>, after: int, limit: nat, page: Page, r: Response)
    requires limit > 0 && forall i | 0 <= i < |all| :: IsUser(t, all[i].senderId)
    requires page.Ready? && page.rows == Deliveries(t, Take(all, limit)) && page.hasMore == (|all| > limit)
    requires Prefixed(op, after, page, r)
    ensures |r.records| <= |all| && r.records == Deliveries(t, all[..|r.records|])
    ensures r.through == page.through
    ensures r.next == if r.records == [] then after else all[|r.records| - 1].id
    ensures r.hasMore <==> |r.records| < |all|
    ensures r.hasMore ==> r.records != []
    ensures r.next == Cursor(r.records, after)
    ensures ResponseLength(op, r.records, r.through, r.next, r.hasMore) <= MAX_RESPONSE
  {
    hide ResponseLength, WithSender;
    var k := |r.records|;
    assert r.records == Deliveries(t, all[..k]);
    if k > 0 {
      assert r.records[k - 1] == WithSender(t, all[k - 1]);
      assert r.records[k - 1].message.id == all[k - 1].id by { SenderKeepsId(t, all[k - 1]); }
    }
  }

  lemma SenderKeepsId(t: Tables, m: Stored)
    requires IsUser(t, m.senderId)
    ensures WithSender(t, m).message == m
  {
  }

  /** Every page the server serves shows exactly the visible rows between its cursors. */
  lemma PageMeaning(t: Tables, op: Operation, name: Bytes, u: int, after: int, through: Option<int>, limit: nat, r: Response)
    requires Consistent(t) && FindUser(t.users, name) == Some(u)
    requires r == Respond(op, after, FetchPage(t, name, after, through, limit, op == SyncPending))
    requires r.PageResponse?
    ensures Served(t, op, u, after, through, r)
  {
    assert Increasing(t.history);
    hide Consistent, Increasing, FindUser, FetchPage, Respond, Fetched, Served;
    var page := FetchPage(t, name, after, through, limit, op == SyncPending);
    RespondPrefix(op, after, page, r);
    FetchMeaning(t, name, u, after, through, limit, op == SyncPending, page);
    ServedFromPrefix(t, op, u, after, through, limit, page, r);
  }

  lemma {:induction false} WatermarkBounds(t: Tables, user: int, pending: bool, h: seq<Stored>)
    ensures 0 <= Watermark(t, user, pending, h)
    ensures forall m | m in h && Visible(t, user, pending, m) :: m.id <= Watermark(t, user, pending, h)
    ensures Watermark(t, user, pending, h) == 0
         || exists m :: m in h && Visible(t, user, pending, m) && m.id == Watermark(t, user, pending, h)
  {
    if h != [] {
      WatermarkBounds(t, user, pending, h[1..]);
    }
  }

  lemma {:induction false} FilledIsMost(op: Operation, rows: seq<Delivery>, through: int, k: nat)
    requires k <= |rows|
    ensures var n := Filled(op, rows, through, k);
      && (n < |rows| ==> !Probe(op, rows, through, n))
      && forall i | k <= i < n :: Probe(op, rows, through, i)
    decreases |rows| - k
  {
    hide Probe;
    if k < |rows| && Probe(op, rows, through, k) {
      FilledIsMost(op, rows, through, k + 1);
    }
  }

  /** A page stops at the first row that does not fit: every row it shows fitted behind those
      before it, and the next one, if there is one, would not have. */
  lemma PageIsFull(op: Operation, after: int, rows: seq<Delivery>, through: int, hasMore: bool)
    ensures var r := Respond(op, after, Ready(rows, through, hasMore));
      r.PageResponse? ==>
        && |r.records| <= |rows|
        && (forall i | 0 <= i < |r.records| :: ResponseLength(op, rows[..i + 1], through, rows[i].message.id, true) <= MAX_RESPONSE)
        && (|r.records| < |rows| ==>
              ResponseLength(op, rows[..|r.records| + 1], through, rows[|r.records|].message.id, true) > MAX_RESPONSE)
  {
    hide ResponseLength, Filled;
    FilledIsMost(op, rows, through, 0);
    forall i | 0 <= i < Filled(op, rows, through, 0)
      ensures ResponseLength(op, rows[..i + 1], through, rows[i].message.id, true) <= MAX_RESPONSE
    {
      assert Probe(op, rows, through, i);
    }
  }
}
