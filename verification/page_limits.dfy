/** When a page can be refused for its size: one record always fits, and a page fails in
    exactly one situation, which one more row ends. */
module PageLimits {
  import opened Prelude
  import opened Tables
  import opened PageWriter
  import Framing
  import Utf8

  function Pow10(k: nat): (p: nat)
    ensures p >= 1
  {
    if k == 0 then 1 else 10 * Pow10(k - 1)
  }

  lemma {:induction false} DigitsBelow(n: int, k: nat)
    requires 0 <= n < Pow10(k) && k >= 1
    ensures Digits(n) <= k
  {
    if n >= 10 {
      DigitsBelow(n / 10, k - 1);
    }
  }

  lemma IdDigits(n: int)
    requires 0 <= n <= MAX_INT64
    ensures Digits(n) <= 19
  {
    assert Pow10(7) == 10_000_000;
    assert Pow10(13) == 10_000_000_000_000;
    assert Pow10(19) == 10_000_000_000_000_000_000;
    DigitsBelow(n, 19);
  }

  lemma {:induction false} DigitsMonotone(a: int, b: int)
    requires 0 <= a <= b
    ensures Digits(a) <= Digits(b)
  {
    if b >= 10 && a >= 10 {
      DigitsMonotone(a / 10, b / 10);
    }
  }

  /** A record whose texts and numbers the database accepts. */
  ghost predicate WireSized(d: Delivery) {
    && |d.sender| <= MAX_WIRE_TEXT && |d.message.content| <= MAX_WIRE_TEXT
    && 0 < d.message.id <= MAX_INT64 && 0 < d.message.senderId <= MAX_INT64
    && 0 <= d.message.createdAt <= MAX_INT64
    && (d.message.groupId.Some? ==> 0 < d.message.groupId.value <= MAX_INT64)
  }

  /** Rows a page query can return: wire-sized, ids ascending between the cursors. */
  ghost predicate PageRows(rows: seq<Delivery>, after: int, through: int) {
    && 0 <= after <= through <= MAX_INT64
    && (forall i | 0 <= i < |rows| :: WireSized(rows[i]) && after < rows[i].message.id <= through)
    && (forall i, j | 0 <= i < j < |rows| :: rows[i].message.id < rows[j].message.id)
  }

  /** The rows of a page query are such rows. */
  lemma QueriedRows(t: Tables, u: int, after: int, through: Option<int>, limit: nat, pending: bool, page: Page)
    requires Consistent(t) && Fetched(t, u, after, through, limit, pending, page)
    requires page.through <= MAX_INT64
    ensures PageRows(page.rows, after, page.through)
  {
    assert Increasing(t.history);
    var all := Select(t, u, pending, t.history, after, page.through);
    SelectSound(t, u, pending, t.history, after, page.through);
    SelectIncreasing(t, u, pending, t.history, after, page.through);
    forall i | 0 <= i < |all|
      ensures WireSized(WithSender(t, all[i])) && after < all[i].id <= page.through
    {
      assert all[i] in all && RowOk(t, all[i]);
      hide Utf8.Valid, RecipientOk, Select;
    }
    hide Consistent, Select, Watermark, WireSized;
    forall i, j | 0 <= i < j < |page.rows|
      ensures page.rows[i].message.id < page.rows[j].message.id
    {
      assert page.rows[i] == WithSender(t, all[i]) && page.rows[j] == WithSender(t, all[j]);
    }
  }

  lemma WatermarkIsAnId(t: Tables, u: int, pending: bool)
    requires Consistent(t)
    ensures 0 <= Watermark(t, u, pending, t.history) <= MAX_INT64
  {
    hide Watermark, RecipientOk, Utf8.Valid;
    WatermarkBounds(t, u, pending, t.history);
    forall m | m in t.history
      ensures m.id <= MAX_INT64
    {
      assert RowOk(t, m);
    }
  }

  lemma EnvelopeBound(d: Delivery)
    requires WireSized(d)
    ensures EnvelopeLength(d) <= 786_623
  {
    var m := d.message;
    IdDigits(m.id);
    IdDigits(m.senderId);
    IdDigits(m.createdAt);
    if m.groupId.Some? {
      IdDigits(m.groupId.value);
    }
  }

  /** A committed message can always be sent live, and every page or live copy the server
      sends is within what the client reads as one frame. */
  lemma FramesFitTheClient(d: Delivery, op: Operation, after: int, page: Page)
    requires WireSized(d)
    ensures EnvelopeLength(d) <= MAX_RESPONSE && EnvelopeLength(d) <= Framing.CLIENT_LIMIT
    ensures var r := Respond(op, after, page);
      r.PageResponse? ==> ResponseLength(op, r.records, r.through, r.next, r.hasMore) <= Framing.CLIENT_LIMIT
  {
    EnvelopeBound(d);
    hide EnvelopeLength, ResponseLength, Filled;
    if Respond(op, after, page).PageResponse? {
      RespondPrefix(op, after, page, Respond(op, after, page));
    }
  }

  /** One record always fits: six bytes per byte of text is the worst case. */
  lemma OneRecordFits(op: Operation, rows: seq<Delivery>, after: int, through: int)
    requires PageRows(rows, after, through) && rows != []
    ensures Probe(op, rows, through, 0)
  {
    EnvelopeBound(rows[0]);
    assert rows[..1] == [rows[0]];
    assert RecordsLength(rows[..1]) == 2 + EnvelopeLength(rows[0]) by {
      assert rows[..1][..0] == [];
    }
    IdDigits(rows[0].message.id);
    IdDigits(through);
  }

  lemma ProbeMonotone(op: Operation, rows: seq<Delivery>, after: int, through: int, k: nat)
    requires PageRows(rows, after, through) && k + 1 < |rows|
    requires Probe(op, rows, through, k + 1)
    ensures Probe(op, rows, through, k)
  {
    hide EnvelopeLength;
    assert rows[..k + 2][..k + 1] == rows[..k + 1];
    DigitsMonotone(rows[k].message.id, rows[k + 1].message.id);
  }

  /** `Filled` stops at the first response that does not fit. */
  lemma {:induction false} FilledStops(op: Operation, rows: seq<Delivery>, through: int, k: nat)
    requires k <= |rows|
    ensures var n := Filled(op, rows, through, k);
      && (n < |rows| ==> !Probe(op, rows, through, n))
      && (n > k ==> Probe(op, rows, through, n - 1))
    decreases |rows| - k
  {
    hide ResponseLength;
    if k < |rows| && Probe(op, rows, through, k) {
      FilledStops(op, rows, through, k + 1);
    }
  }

  lemma {:induction false} AllProbesFit(op: Operation, rows: seq<Delivery>, after: int, through: int, k: nat)
    requires PageRows(rows, after, through) && k < |rows|
    requires Probe(op, rows, through, |rows| - 1)
    ensures Probe(op, rows, through, k)
    decreases |rows| - k
  {
    if k + 1 < |rows| {
      AllProbesFit(op, rows, after, through, k + 1);
      ProbeMonotone(op, rows, after, through, k);
    }
  }

  /** A page of wire-sized rows is refused exactly when it is a last page whose probed form
      (`has_more` true) is exactly as long as the limit: `false` is one byte longer. */
  lemma RefusedExactlyWhen(op: Operation, after: int, rows: seq<Delivery>, through: int, hasMore: bool)
    requires PageRows(rows, after, through)
    ensures var r := Respond(op, after, Ready(rows, through, hasMore));
      && (r.PageResponse? || r == Unrepresentable)
      && (r == Unrepresentable <==>
            && rows != [] && !hasMore
            && ResponseLength(op, rows, through, Cursor(rows, after), true) == MAX_RESPONSE)
  {
    var k := Filled(op, rows, through, 0);
    FilledStops(op, rows, through, 0);
    if rows == [] {
      IdDigits(after);
      IdDigits(through);
    } else {
      OneRecordFits(op, rows, after, through);
      assert rows[..|rows|] == rows;
      if ResponseLength(op, rows, through, Cursor(rows, after), true) <= MAX_RESPONSE && k < |rows| {
        AllProbesFit(op, rows, after, through, k);
      }
      assert rows[..k][k - 1] == rows[k - 1];
    }
  }

  lemma {:induction false} RecordsGrow(rows: seq<Delivery>, more: seq<Delivery>)
    ensures RecordsLength(rows + more) >= RecordsLength(rows)
    ensures rows != [] && more != [] ==> RecordsLength(rows + more) > RecordsLength(rows)
    decreases |more|
  {
    hide EnvelopeLength;
    var all := rows + more;
    if more == [] {
      assert all == rows;
    } else {
      RecordsGrow(rows, more[..|more| - 1]);
      assert all[..|all| - 1] == rows + more[..|more| - 1];
    }
  }

  /** A refusal does not last: the page that begins with the refused rows and has one more, or
      leaves rows for another page, is served. */
  lemma LongerPageIsServed(op: Operation, after: int, rows: seq<Delivery>, through: int,
                           more: seq<Delivery>, through': int, hasMore: bool)
    requires PageRows(rows, after, through) && PageRows(rows + more, after, through')
    requires Respond(op, after, Ready(rows, through, false)) == Unrepresentable
    requires through <= through' && (more != [] || hasMore)
    ensures Respond(op, after, Ready(rows + more, through', hasMore)).PageResponse?
  {
    RefusedExactlyWhen(op, after, rows, through, false);
    RefusedExactlyWhen(op, after, rows + more, through', hasMore);
    DigitsMonotone(through, through');
    hide Respond, RecordsLength, PageRows;
    RecordsGrow(rows, more);
    if more != [] {
      LaterCursor(after, rows, through, more, through');
    }
  }

  lemma LaterCursor(after: int, rows: seq<Delivery>, through: int, more: seq<Delivery>, through': int)
    requires PageRows(rows, after, through) && PageRows(rows + more, after, through') && rows != [] && more != []
    ensures Digits(Cursor(rows, after)) <= Digits(Cursor(rows + more, after))
  {
    var all, i := rows + more, |rows| - 1;
    assert all[i] == rows[i] && i < |all| - 1;
    assert all[i].message.id < all[|all| - 1].message.id;
    DigitsMonotone(rows[i].message.id, all[|all| - 1].message.id);
  }
}
