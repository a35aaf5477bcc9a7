/** Reading history page by page while the server keeps working: the pages put together are
    one snapshot, taken when the first page was served. */
module HistoryPaging {
  import opened Prelude
  import opened Tables
  import opened Evolution
  import opened PageWriter
  import opened LegacyImport
  import PageLimits
  import Utf8

  /** A transaction that may run between two pages. */
  datatype Change =
    | NewUser(name: Bytes)
    | NewGroup(creator: Bytes, groupName: Bytes)
    | Join(user: Bytes, group: int)
    | SendPrivate(sender: Bytes, receiver: Bytes, content: Bytes, now: Clock)
    | SendGroup(sender: Bytes, group: int, content: Bytes, now: Clock)
    | SendBroadcast(sender: Bytes, content: Bytes, now: Clock)
    | AcknowledgeOne(user: Bytes, id: int, now: Clock)
    | ImportOld(clock: Readings)

  function Perform(t: Tables, c: Change): Tables {
    match c
    case NewUser(name) => Register(t, name).0
    case NewGroup(creator, name) => CreateGroup(t, creator, name).0
    case Join(user, group) => JoinGroup(t, user, group).0
    case SendPrivate(sender, receiver, content, now) => AcceptPrivate(t, sender, receiver, content, now).0
    case SendGroup(sender, group, content, now) => AcceptGroup(t, sender, group, content, now).0
    case SendBroadcast(sender, content, now) => AcceptBroadcast(t, sender, content, now).0
    case AcknowledgeOne(user, id, now) => Acknowledge(t, user, id, now).0
    case ImportOld(clock) => Import(t, clock).0
  }

  function PerformAll(t: Tables, cs: seq<Change>): Tables
    decreases |cs|
  {
    if cs == [] then t else PerformAll(Perform(t, cs[0]), cs[1..])
  }

  lemma PerformLaw(t: Tables, c: Change)
    requires Consistent(t)
    ensures Consistent(Perform(t, c)) && Evolves(t, Perform(t, c))
  {
    hide Consistent, Evolves, FindUser, Utf8.Valid, CommittedAs, Moved, Accept, Import, GroupName, IsUser;
    EvolvesReflexive(t);
    match c
    case NewUser(name) => RegisterLaw(t, name);
    case NewGroup(creator, name) =>
      if FindUser(t.users, creator).Some? { FoundUser(t, creator); CreateGroupLaw(t, FindUser(t.users, creator).value, creator, name); }
    case Join(user, group) =>
      if FindUser(t.users, user).Some? { FoundUser(t, user); JoinGroupLaw(t, FindUser(t.users, user).value, user, group); }
    case SendPrivate(sender, receiver, content, now) => PrivateLaw(t, sender, receiver, content, now);
    case SendGroup(sender, group, content, now) => GroupLaw(t, sender, group, content, now);
    case SendBroadcast(sender, content, now) => BroadcastLaw(t, sender, content, now);
    case AcknowledgeOne(user, id, now) =>
      if FindUser(t.users, user).Some? { FoundUser(t, user); AcknowledgeLaw(t, user, FindUser(t.users, user).value, id, now); }
    case ImportOld(clock) => ImportAllOrNothing(t, clock);
  }

  lemma FoundUser(t: Tables, name: Bytes)
    requires FindUser(t.users, name).Some?
    ensures var u := FindUser(t.users, name).value; IsUser(t, u) && t.users[u - 1] == name
  {
  }

  /** Every run of transactions keeps the tables consistent and only evolves them. */
  lemma {:induction false} EveryRunEvolves(t: Tables, cs: seq<Change>)
    requires Consistent(t)
    ensures Consistent(PerformAll(t, cs)) && Evolves(t, PerformAll(t, cs))
    decreases |cs|
  {
    hide Consistent, Evolves, Perform;
    if cs == [] {
      EvolvesReflexive(t);
    } else {
      PerformLaw(t, cs[0]);
      var t1 := Perform(t, cs[0]);
      EveryRunEvolves(t1, cs[1..]);
      EvolvesTransitive(t, t1, PerformAll(t1, cs[1..]));
    }
  }

  // ----- Reading page by page -----

  /** One later page request: what the server does before serving it, and its limit. */
  datatype Visit = Visit(before: seq<Change>, limit: nat)

  datatype Reading =
    | Complete(messages: seq<Delivery>)
    | Unfinished(messages: seq<Delivery>, cursor: int)
    | Refused(messages: seq<Delivery>, cursor: int, page: Page)

  function Prepend(ms: seq<Delivery>, r: Reading): Reading {
    match r
    case Complete(rest) => Complete(ms + rest)
    case Unfinished(rest, c) => Unfinished(ms + rest, c)
    case Refused(rest, c, page) => Refused(ms + rest, c, page)
  }

  /** The later pages: each request carries the last page's cursor and the first page's
      watermark, as the history screen sends them. */
  function ReadOn(t: Tables, name: Bytes, after: int, through: int, visits: seq<Visit>): Reading
    requires Consistent(t)
    decreases |visits|
  {
    if visits == [] then Unfinished([], after)
    else
      var t' := PerformAll(t, visits[0].before);
      EveryRunEvolves(t, visits[0].before);
      var page := FetchPage(t', name, after, Some(through), visits[0].limit, false);
      var r := Respond(History, after, page);
      if !r.PageResponse? then Refused([], after, page)
      else if !r.hasMore then Complete(r.records)
      else Prepend(r.records, ReadOn(t', name, r.next, r.through, visits[1..]))
  }

  function ReadHistory(t: Tables, name: Bytes, limit: nat, visits: seq<Visit>): Reading
    requires Consistent(t)
  {
    var page := FetchPage(t, name, 0, None, limit, false);
    var r := Respond(History, 0, page);
    if !r.PageResponse? then Refused([], 0, page)
    else if !r.hasMore then Complete(r.records)
    else Prepend(r.records, ReadOn(t, name, r.next, r.through, visits))
  }

  /** The rows of `t0` in a cursor range are the rows of every later state in that range. */
  lemma {:induction false} SelectStable(t0: Tables, t: Tables, u: int, h0: seq<Stored>, h: seq<Stored>, after: int, through: int)
    requires h0 <= h && through < NextId(t0.history)
    requires forall m | m in h0 :: m.id < NextId(t0.history)
    requires forall m | m in h[|h0|..] :: m.id >= NextId(t0.history)
    requires forall k | k in t0.recipients :: k in t.recipients
    requires forall k | k in t.recipients && k !in t0.recipients :: NextId(t0.history) <= k.0
    ensures Select(t, u, false, h, after, through) == Select(t0, u, false, h0, after, through)
    decreases |h0|
  {
    hide NextId;
    if h0 == [] {
      assert h[|h0|..] == h;
      SelectNone(t, u, false, h, after, through);
    } else {
      assert h0[0] == h[0] && h0[0] in h0;
      assert (h[0].id, u) in t.recipients <==> (h[0].id, u) in t0.recipients;
      assert h[1..][|h0[1..]|..] == h[|h0|..];
      SelectStable(t0, t, u, h0[1..], h[1..], after, through);
    }
  }

  lemma NewerRows(t0: Tables, t: Tables)
    requires Consistent(t) && t0.history <= t.history
    ensures forall m | m in t0.history :: m.id < NextId(t0.history)
    ensures forall m | m in t.history[|t0.history|..] :: m.id >= NextId(t0.history)
  {
    var n := |t0.history|;
    forall m | m in t0.history
      ensures m.id < NextId(t0.history)
    {
      var i :| 0 <= i < n && t0.history[i] == m;
      assert t.history[i] == m && t.history[n - 1] == t0.history[n - 1];
    }
    forall m | m in t.history[n..]
      ensures m.id >= NextId(t0.history)
    {
      var i :| n <= i < |t.history| && t.history[i] == m;
      assert RowOk(t, m);
      if n > 0 {
        assert t.history[n - 1] == t0.history[n - 1];
      }
    }
  }

  lemma DeliveriesStable(t0: Tables, t: Tables, rows: seq<Stored>)
    requires t0.users <= t.users && forall i | 0 <= i < |rows| :: IsUser(t0, rows[i].senderId)
    ensures (forall i | 0 <= i < |rows| :: IsUser(t, rows[i].senderId)) && Deliveries(t, rows) == Deliveries(t0, rows)
  {
    forall i | 0 <= i < |rows|
      ensures IsUser(t, rows[i].senderId) && WithSender(t, rows[i]) == WithSender(t0, rows[i])
    {
      assert IsUser(t0, rows[i].senderId);
    }
  }

  /** The snapshot: the visible rows of `t0` in a cursor range, with their senders. */
  function Snap(t0: Tables, u: int, after: int, through: int): seq<Delivery>
    requires Consistent(t0)
  {
    var rows := Select(t0, u, false, t0.history, after, through);
    assert AllUsers(t0, rows) by { SelectedUsers(t0, u, after, through); }
    Deliveries(t0, rows)
  }

  predicate AllUsers(t: Tables, rows: seq<Stored>) {
    forall i | 0 <= i < |rows| :: IsUser(t, rows[i].senderId)
  }

  lemma SelectedUsers(t0: Tables, u: int, after: int, through: int)
    requires Consistent(t0)
    ensures AllUsers(t0, Select(t0, u, false, t0.history, after, through))
  {
    hide Utf8.Valid;
    var rows := Select(t0, u, false, t0.history, after, through);
    SelectSound(t0, u, false, t0.history, after, through);
    forall i | 0 <= i < |rows|
      ensures IsUser(t0, rows[i].senderId)
    {
      assert rows[i] in rows && RowOk(t0, rows[i]);
    }
  }

  /** A page served later, below the old tables' newest id, is a stretch of the snapshot. */
  lemma LaterPage(t0: Tables, t: Tables, name: Bytes, u: int, after: int, through: int, limit: nat, r: Response)
    requires Consistent(t0) && Consistent(t) && Evolves(t0, t)
    requires FindUser(t.users, name) == Some(u)
    requires r == Respond(History, after, FetchPage(t, name, after, Some(through), limit, false))
    requires r.PageResponse? && through < NextId(t0.history)
    ensures r.through == through && 0 <= after <= r.next <= through
    ensures r.records == Snap(t0, u, after, r.next)
    ensures r.hasMore <==> Snap(t0, u, r.next, through) != []
    ensures r.hasMore ==> after < r.next && r.records != []
  {
    PageMeaning(t, History, name, u, after, Some(through), limit, r);
    NewerRows(t0, t);
    hide Consistent, FindUser, FetchPage, Respond, Select, NextId, Utf8.Valid, ResponseLength, Watermark;
    SelectStable(t0, t, u, t0.history, t.history, after, r.next);
    SelectStable(t0, t, u, t0.history, t.history, r.next, through);
    SelectedUsers(t0, u, after, r.next);
    DeliveriesStable(t0, t, Select(t0, u, false, t0.history, after, r.next));
    RecordsRise(t, u, after, r);
  }

  lemma RecordsRise(t: Tables, u: int, after: int, r: Response)
    requires r.PageResponse? && Served(t, History, u, after, Some(r.through), r)
    ensures r.records != [] ==> after < r.next
  {
    hide ResponseLength, Watermark;
    if r.records != [] {
      var rows := Select(t, u, false, t.history, after, r.next);
      SelectSound(t, u, false, t.history, after, r.next);
      assert r.records[|rows| - 1] == WithSender(t, rows[|rows| - 1]);
      assert rows[|rows| - 1] in rows;
    }
  }

  /** Snapshots join at any cursor. */
  lemma SnapJoin(t0: Tables, u: int, after: int, mid: int, through: int)
    requires Consistent(t0) && after <= mid <= through
    ensures Snap(t0, u, after, through) == Snap(t0, u, after, mid) + Snap(t0, u, mid, through)
  {
    assert Increasing(t0.history);
    hide Consistent, Select, Increasing;
    SelectSplit(t0, u, false, t0.history, after, mid, through);
    SelectedUsers(t0, u, after, through);
    SelectedUsers(t0, u, after, mid);
    SelectedUsers(t0, u, mid, through);
  }

  /** A page limit the database takes; the client asks for 50. */
  predicate PageLimit(limit: nat) { 0 < limit <= MAX_PAGE }

  predicate PageLimitsOnly(visits: seq<Visit>) {
    forall v | v in visits :: PageLimit(v.limit)
  }

  /** The remaining rows fill a page to the byte while its `has_more` is probed as true. */
  predicate FillsThePage(after: int, page: Page, through: int)
    requires page.Ready?
  {
    && page.rows != [] && !page.hasMore
    && ResponseLength(History, page.rows, through, Cursor(page.rows, after), true) == MAX_RESPONSE
  }

  /** A refused page had the whole rest of the snapshot, or its limit was refused. */
  lemma LaterRefusal(t0: Tables, t: Tables, name: Bytes, u: int, after: int, through: int, limit: nat, page: Page)
    requires Consistent(t0) && Consistent(t) && Evolves(t0, t)
    requires FindUser(t.users, name) == Some(u)
    requires 0 <= after <= through < NextId(t0.history) && through <= MAX_INT64
    requires page == FetchPage(t, name, after, Some(through), limit, false)
    requires !Respond(History, after, page).PageResponse?
    ensures page.Ready? <==> PageLimit(limit)
    ensures page.Ready? ==> page.rows == Snap(t0, u, after, through) && FillsThePage(after, page, through)
  {
    NamedUser(t, u);
    assert page.Ready? <==> PageLimit(limit);
    if page.Ready? {
      FetchMeaning(t, name, u, after, Some(through), limit, false, page);
      hide Consistent, FetchPage, FindUser, Respond, Select, ResponseLength, Evolves, NextId;
      RefusedRest(t, u, after, Some(through), limit, page);
      NewerRows(t0, t);
      StretchOf(t0, t, u, after, through, Select(t, u, false, t.history, after, through));
    }
  }

  lemma RefusedRest(t: Tables, u: int, after: int, through: Option<int>, limit: nat, page: Page)
    requires Consistent(t) && Fetched(t, u, after, through, limit, false, page) && page.through <= MAX_INT64
    requires !Respond(History, after, page).PageResponse?
    ensures FillsThePage(after, page, page.through)
    ensures page.rows == Deliveries(t, Select(t, u, false, t.history, after, page.through))
  {
    hide Consistent, Respond, Select, ResponseLength, Watermark;
    PageLimits.QueriedRows(t, u, after, through, limit, false, page);
    PageLimits.RefusedExactlyWhen(History, after, page.rows, page.through, page.hasMore);
  }

  /** Rows selected later, below the old tables' newest id, are rows of the snapshot. */
  lemma StretchOf(t0: Tables, t: Tables, u: int, after: int, through: int, rows: seq<Stored>)
    requires Consistent(t0) && Consistent(t) && Evolves(t0, t) && through < NextId(t0.history)
    requires rows == Select(t, u, false, t.history, after, through)
    ensures (forall i | 0 <= i < |rows| :: IsUser(t, rows[i].senderId)) && Deliveries(t, rows) == Snap(t0, u, after, through)
  {
    hide Consistent, Select, NextId;
    NewerRows(t0, t);
    SelectStable(t0, t, u, t0.history, t.history, after, through);
    SelectedUsers(t0, u, after, through);
    DeliveriesStable(t0, t, rows);
  }

  /** What a reading may have seen of the snapshot between `after` and `through`. */
  ghost predicate ReadsSnap(t0: Tables, u: int, after: int, through: int, visits: seq<Visit>, r: Reading)
    requires Consistent(t0)
  {
    match r
    case Complete(ms) => ms == Snap(t0, u, after, through)
    case Unfinished(ms, c) =>
      && after <= c <= through && ms == Snap(t0, u, after, c)
      && |visits| <= |ms| && (visits != [] ==> Snap(t0, u, c, through) != [])
    case Refused(ms, c, page) =>
      && after <= c <= through && ms == Snap(t0, u, after, c)
      && (page.Ready? ==> page.rows == Snap(t0, u, c, through) && FillsThePage(c, page, through))
      && (PageLimitsOnly(visits) ==> page.Ready?)
  }

  lemma {:induction false} ReadOnSnapshot(t0: Tables, t: Tables, name: Bytes, u: int, after: int, through: int, visits: seq<Visit>)
    requires Consistent(t0) && Consistent(t) && Evolves(t0, t)
    requires FindUser(t.users, name) == Some(u)
    requires 0 <= after <= through < NextId(t0.history) && through <= MAX_INT64
    ensures ReadsSnap(t0, u, after, through, visits, ReadOn(t, name, after, through, visits))
    decreases |visits|
  {
    hide Consistent, Evolves, FindUser, NextId, FetchPage, Respond, Snap, PerformAll;
    if visits == [] {
      EmptySnap(t0, u, after);
    } else {
      var t' := PerformAll(t, visits[0].before);
      EveryRunEvolves(t, visits[0].before);
      EvolvesTransitive(t0, t, t');
      FindUserStable(t, t', name, u);
      var page := FetchPage(t', name, after, Some(through), visits[0].limit, false);
      var r := Respond(History, after, page);
      if !r.PageResponse? {
        EmptySnap(t0, u, after);
        LaterRefusal(t0, t', name, u, after, through, visits[0].limit, page);
      } else {
        LaterPage(t0, t', name, u, after, through, visits[0].limit, r);
        SnapJoin(t0, u, after, r.next, through);
        if r.hasMore {
          var rest := ReadOn(t', name, r.next, through, visits[1..]);
          ReadOnSnapshot(t0, t', name, u, r.next, through, visits[1..]);
          if rest.Unfinished? {
            SnapJoin(t0, u, after, r.next, rest.cursor);
            if visits[1..] == [] {
              assert rest.cursor == r.next;
            }
          } else if rest.Refused? {
            SnapJoin(t0, u, after, r.next, rest.cursor);
          }
        }
      }
    }
  }

  lemma EmptySnap(t0: Tables, u: int, after: int)
    requires Consistent(t0)
    ensures Snap(t0, u, after, after) == []
  {
    SelectNone(t0, u, false, t0.history, after, after);
  }

  lemma FindUserStable(t: Tables, t': Tables, name: Bytes, u: int)
    requires Consistent(t') && Evolves(t, t') && FindUser(t.users, name) == Some(u)
    ensures FindUser(t'.users, name) == Some(u)
  {
    assert IsUser(t', u) && t'.users[u - 1] == name;
    FindUserId(t', name, u);
  }

  /** The watermark of the first page is the newest id the user may see. */
  lemma SnapIsEverything(t0: Tables, u: int)
    requires Consistent(t0)
    ensures var w := Watermark(t0, u, false, t0.history);
      && 0 <= w < NextId(t0.history)
      && (forall d :: d in Snap(t0, u, 0, w) <==>
            d.message in t0.history && Visible(t0, u, false, d.message)
            && IsUser(t0, d.message.senderId) && d == WithSender(t0, d.message))
      && (forall i, j | 0 <= i < j < |Snap(t0, u, 0, w)| ::
            Snap(t0, u, 0, w)[i].message.id < Snap(t0, u, 0, w)[j].message.id)
  {
    var w := Watermark(t0, u, false, t0.history);
    WatermarkBounds(t0, u, false, t0.history);
    NewerRows(t0, t0);
    var rows := Select(t0, u, false, t0.history, 0, w);
    SelectSound(t0, u, false, t0.history, 0, w);
    SelectIncreasing(t0, u, false, t0.history, 0, w);
    SelectedUsers(t0, u, 0, w);
    PositiveIds(t0);
    hide Consistent, Select, Watermark, Visible, NextId;
    var snap := Snap(t0, u, 0, w);
    FirstIdPositive(t0);
    forall d
      ensures d in snap <==> d.message in rows && IsUser(t0, d.message.senderId) && d == WithSender(t0, d.message)
    {
      if d in snap {
        var i :| 0 <= i < |snap| && snap[i] == d;
        assert d == WithSender(t0, rows[i]);
      }
      if d.message in rows && IsUser(t0, d.message.senderId) && d == WithSender(t0, d.message) {
        var i :| 0 <= i < |rows| && rows[i] == d.message;
        assert snap[i] == d;
      }
    }
    forall i, j | 0 <= i < j < |snap|
      ensures snap[i].message.id < snap[j].message.id
    {
      assert snap[i] == WithSender(t0, rows[i]) && snap[j] == WithSender(t0, rows[j]);
      assert rows[i].id < rows[j].id;
    }
  }

  lemma PositiveIds(t0: Tables)
    requires Consistent(t0)
    ensures forall m | m in t0.history :: 0 < m.id
  {
    forall m | m in t0.history
      ensures 0 < m.id
    {
      assert RowOk(t0, m);
    }
  }

  lemma FirstIdPositive(t0: Tables)
    requires Consistent(t0)
    ensures 0 < NextId(t0.history)
  {
    if t0.history != [] {
      assert RowOk(t0, t0.history[|t0.history| - 1]);
    }
  }

  /** History read page by page is one snapshot. Whatever runs between the pages, a completed
      reading is exactly everything the user could see when the first page was served, in id
      order; an unfinished one is a gapless beginning of it; and a reading that visits more
      often than there are messages is not left unfinished. A reading is refused only with
      everything but its last page read, when that page is filled to the byte: what was read
      and the refused page together are the snapshot. */
  lemma PagedHistoryIsOneSnapshot(t0: Tables, name: Bytes, u: int, limit: nat, visits: seq<Visit>)
    requires Consistent(t0) && FindUser(t0.users, name) == Some(u)
    ensures var w := Watermark(t0, u, false, t0.history);
      var all := Snap(t0, u, 0, w);
      match ReadHistory(t0, name, limit, visits)
      case Complete(ms) => ms == all
      case Unfinished(ms, _) => ms <= all && |visits| < |ms|
      case Refused(ms, c, page) =>
        && (page.Ready? ==> ms + page.rows == all && FillsThePage(c, page, w))
        && (PageLimit(limit) && PageLimitsOnly(visits) ==> page.Ready?)
  {
    SnapIsEverything(t0, u);
    EvolvesReflexive(t0);
    var w := Watermark(t0, u, false, t0.history);
    var page := FetchPage(t0, name, 0, None, limit, false);
    var r := Respond(History, 0, page);
    PageLimits.WatermarkIsAnId(t0, u, false);
    if !r.PageResponse? {
      FirstRefusal(t0, name, u, limit, page);
    } else {
      FirstPage(t0, name, u, limit, r);
      SnapJoin(t0, u, 0, r.next, w);
      hide Consistent, Evolves, FindUser, NextId, FetchPage, Respond, Snap, Watermark;
      if r.hasMore {
        ReadOnSnapshot(t0, t0, name, u, r.next, w, visits);
        var rest := ReadOn(t0, name, r.next, w, visits);
        if rest.Unfinished? {
          SnapJoin(t0, u, 0, r.next, rest.cursor);
          SnapJoin(t0, u, 0, rest.cursor, w);
        } else if rest.Refused? {
          SnapJoin(t0, u, 0, r.next, rest.cursor);
          SnapJoin(t0, u, 0, rest.cursor, w);
        }
      }
    }
  }

  lemma FirstRefusal(t0: Tables, name: Bytes, u: int, limit: nat, page: Page)
    requires Consistent(t0) && FindUser(t0.users, name) == Some(u)
    requires page == FetchPage(t0, name, 0, None, limit, false)
    requires !Respond(History, 0, page).PageResponse?
    ensures page.Ready? <==> PageLimit(limit)
    ensures var w := Watermark(t0, u, false, t0.history);
      page.Ready? ==> page.rows == Snap(t0, u, 0, w) && FillsThePage(0, page, w)
  {
    NamedUser(t0, u);
    PageLimits.WatermarkIsAnId(t0, u, false);
    if page.Ready? {
      FetchMeaning(t0, name, u, 0, None, limit, false, page);
      hide Consistent, FetchPage, FindUser, Respond, Select, ResponseLength, Watermark;
      RefusedRest(t0, u, 0, None, limit, page);
    }
  }

  lemma FirstPage(t0: Tables, name: Bytes, u: int, limit: nat, r: Response)
    requires Consistent(t0) && FindUser(t0.users, name) == Some(u)
    requires r == Respond(History, 0, FetchPage(t0, name, 0, None, limit, false)) && r.PageResponse?
    ensures r.through == Watermark(t0, u, false, t0.history) && 0 <= r.next <= r.through
    ensures r.records == Snap(t0, u, 0, r.next)
    ensures r.hasMore <==> Snap(t0, u, r.next, r.through) != []
    ensures r.hasMore ==> r.records != []
  {
    PageMeaning(t0, History, name, u, 0, None, limit, r);
    hide Consistent, FetchPage, Respond, Select, Watermark, ResponseLength;
  }
}
