/** How the tables may change over time: every transaction keeps them consistent, never
    rewrites history, never moves a recipient row to an older message and never reverts
    or changes a recorded acknowledgement. */
module Evolution {
  import opened Prelude
  import opened Tables
  import Utf8

  /** `b` may follow `a` in a run of the server. */
  ghost predicate Evolves(a: Tables, b: Tables) {
    && a.users <= b.users && a.groups <= b.groups && a.members <= b.members
    && a.history <= b.history
    && (forall k | k in a.recipients :: k in b.recipients
          && (a.recipients[k].Some? ==> b.recipients[k] == a.recipients[k]))
    && (forall k | k in b.recipients && k !in a.recipients :: NextId(a.history) <= k.0)
  }

  lemma EvolvesReflexive(t: Tables)
    ensures Evolves(t, t)
  {
  }

  lemma EvolvesTransitive(a: Tables, b: Tables, c: Tables)
    requires Consistent(b) && Evolves(a, b) && Evolves(b, c)
    ensures Evolves(a, c)
  {
    assert NextId(a.history) <= NextId(b.history) by {
      if a.history != [] && a.history != b.history {
        var i, j := |a.history| - 1, |b.history| - 1;
        assert b.history[i] == a.history[i];
      } else if a.history == [] && b.history != [] {
        assert b.history[|b.history| - 1] in b.history;
      }
    }
  }

  lemma RowsStayOk(a: Tables, b: Tables)
    requires Consistent(a) && a.users <= b.users && a.groups <= b.groups
    ensures forall m | m in a.history :: RowOk(b, m)
  {
    forall m | m in a.history
      ensures RowOk(b, m)
    {
      assert RowOk(a, m);
    }
  }

  lemma FindUserId(t: Tables, name: Bytes, u: int)
    requires Consistent(t) && IsUser(t, u) && t.users[u - 1] == name
    ensures FindUser(t.users, name) == Some(u)
  {
    var r := FindUser(t.users, name);
    assert t.users[u - 1] in t.users;
  }

  /** No recipient row belongs to a message that has not been stored yet. */
  lemma NoRecipientAhead(t: Tables)
    requires Consistent(t)
    ensures forall k | k in t.recipients :: k.0 < NextId(t.history)
  {
    NewestIsLast(t);
    forall k | k in t.recipients
      ensures k.0 < NextId(t.history)
    {
      assert RecipientOk(t, k);
    }
  }

  /** What a commit leaves behind: one new row, newer than all, whose unacknowledged
      recipients are exactly `recipients`; every other row is untouched. */
  ghost predicate CommittedAs(t: Tables, t': Tables, r: Acceptance, kind: Kind, sender: int, group: Option<int>,
                              content: Bytes, recipients: seq<int>, now: nat)
    requires IsUser(t, sender)
  {
    && r.Accepted?
    && var m := r.delivery.message;
    && m == Stored(NextId(t.history), kind, sender, group, content, now)
    && r.delivery.sender == t.users[sender - 1]
    && (forall x | x in t.history :: x.id < m.id)
    && t'.history == t.history + [m]
    && (forall u :: (m.id, u) in t'.recipients <==> u in recipients)
    && (forall u | u in recipients :: t'.recipients[(m.id, u)] == None)
    && (forall k: (int, int) | k.0 != m.id :: k in t'.recipients <==> k in t.recipients)
    && (forall k | k in t.recipients :: k in t'.recipients && t'.recipients[k] == t.recipients[k])
    && r.recipients == recipients
    && t'.users == t.users && t'.groups == t.groups && t'.members == t.members && t'.legacy == t.legacy
  }

  /** Such a commit keeps the tables consistent and evolves them. */
  lemma CommittedKeeps(t: Tables, t': Tables, r: Acceptance, kind: Kind, sender: int, group: Option<int>,
                       content: Bytes, recipients: seq<int>, now: nat)
    requires Consistent(t) && IsUser(t, sender)
    requires CommittedAs(t, t', r, kind, sender, group, content, recipients, now)
    requires WireText(t.users[sender - 1]) && WireText(content) && now <= MAX_INT64 && NextId(t.history) <= MAX_INT64
    requires kind == Group <==> group.Some?
    requires group.Some? ==> 0 < group.value <= |t.groups|
    requires forall u | u in recipients :: IsUser(t, u) && u != sender
    ensures Consistent(t') && Evolves(t, t')
  {
    hide Utf8.Valid, WireText, FindUser;
    var id, row := NextId(t.history), r.delivery.message;
    assert RowOk(t', row) by { PositiveNext(t); }
    RowsStayOk(t, t');
    RisingAppend(t.history, row);
    forall k | k in t'.recipients
      ensures RecipientOk(t', k)
    {
      if k.0 == id {
        assert (row.id, k.1) in t'.recipients && row in t'.history;
      } else {
        assert RecipientOk(t, k);
      }
    }
  }

  lemma PositiveNext(t: Tables)
    requires Consistent(t)
    ensures 1 <= NextId(t.history)
  {
    if t.history != [] {
      assert RowOk(t, t.history[|t.history| - 1]);
    }
  }

  lemma RisingAppend(h: seq<Stored>, m: Stored)
    requires Increasing(h) && forall x | x in h :: x.id < m.id
    ensures Increasing(h + [m])
  {
  }

  /** Committing a message for any set of existing users without its sender. */
  lemma AcceptLaw(t: Tables, kind: Kind, sender: int, group: Option<int>, content: Bytes, recipients: seq<int>, now: nat)
    requires Consistent(t) && IsUser(t, sender)
    requires WireText(t.users[sender - 1]) && WireText(content)
    requires kind == Group <==> group.Some?
    requires group.Some? ==> 0 < group.value <= |t.groups|
    requires forall u | u in recipients :: IsUser(t, u) && u != sender
    ensures var (t', r) := Accept(t, kind, sender, group, content, recipients, now);
      && Consistent(t') && Evolves(t, t')
      && (r.Accepted? <==> NextId(t.history) <= MAX_INT64 && now <= MAX_INT64)
      && (r.Accepted? ==> CommittedAs(t, t', r, kind, sender, group, content, recipients, now))
      && (!r.Accepted? ==> t' == t)
  {
    hide Utf8.Valid, WireText, Consistent, Evolves, RowOk, RecipientOk;
    var (t', r) := Accept(t, kind, sender, group, content, recipients, now);
    EvolvesReflexive(t);
    if r.Accepted? {
      AcceptCommits(t, kind, sender, group, content, recipients, now);
      CommittedKeeps(t, t', r, kind, sender, group, content, recipients, now);
    }
  }

  lemma AcceptCommits(t: Tables, kind: Kind, sender: int, group: Option<int>, content: Bytes, recipients: seq<int>, now: nat)
    requires Consistent(t) && IsUser(t, sender) && NextId(t.history) <= MAX_INT64 && now <= MAX_INT64
    ensures var (t', r) := Accept(t, kind, sender, group, content, recipients, now);
      CommittedAs(t, t', r, kind, sender, group, content, recipients, now)
  {
    NoRecipientAhead(t);
    NewestIsLast(t);
    hide Utf8.Valid, WireText, Consistent;
  }

  lemma NewestIsLast(t: Tables)
    requires Consistent(t)
    ensures forall m | m in t.history :: m.id < NextId(t.history)
  {
    forall m | m in t.history
      ensures m.id < NextId(t.history)
    {
      var i :| 0 <= i < |t.history| && t.history[i] == m;
      if i < |t.history| - 1 {
        assert t.history[i].id < t.history[|t.history| - 1].id;
      }
    }
  }

  /** A private message is accepted exactly when its texts fit the wire, both users exist and
      differ and an id is left; its snapshot is the receiver alone. */
  lemma PrivateLaw(t: Tables, sender: Bytes, receiver: Bytes, content: Bytes, now: nat)
    requires Consistent(t)
    ensures var (t', r) := AcceptPrivate(t, sender, receiver, content, now);
      && Consistent(t') && Evolves(t, t')
      && (r.Accepted? <==>
            && WireText(sender) && WireText(content)
            && sender in t.users && receiver in t.users && sender != receiver && receiver != []
            && NextId(t.history) <= MAX_INT64 && now <= MAX_INT64)
      && (!r.Accepted? ==> t' == t)
      && (r.Accepted? ==> exists f, u ::
            && IsUser(t, f) && t.users[f - 1] == sender
            && IsUser(t, u) && t.users[u - 1] == receiver
            && CommittedAs(t, t', r, Private, f, None, content, [u], now))
  {
    hide Utf8.Valid, Consistent, Accept, Evolves, CommittedAs, FindUser;
    EvolvesReflexive(t);
    var from := FindUser(t.users, sender);
    var to := FindUser(t.users, receiver);
    if from.Some? && to.Some? && from != to && WireText(sender) && WireText(content) && receiver != [] {
      AcceptLaw(t, Private, from.value, None, content, [to.value], now);
      assert IsUser(t, from.value) && IsUser(t, to.value);
    }
  }

  lemma MembersAreUsers(t: Tables, group: int, sender: int)
    requires Consistent(t)
    ensures forall u :: u in GroupRecipients(t, group, sender) <==> (group, u) in t.members && u != sender
  {
    forall u
      ensures u in GroupRecipients(t, group, sender) <==> (group, u) in t.members && u != sender
    {
      if (group, u) in t.members && u != sender {
        var m := (group, u);
        assert m in t.members && m.0 == group && m.1 != sender && m.1 == u;
      }
    }
  }

  /** A group message goes to exactly the members at acceptance, minus its sender. */
  lemma GroupLaw(t: Tables, sender: Bytes, group: int, content: Bytes, now: nat)
    requires Consistent(t)
    ensures var (t', r) := AcceptGroup(t, sender, group, content, now);
      && Consistent(t') && Evolves(t, t')
      && (r.Accepted? <==>
            && WireText(sender) && WireText(content) && 0 < group <= |t.groups|
            && (exists f :: IsUser(t, f) && t.users[f - 1] == sender && (group, f) in t.members)
            && NextId(t.history) <= MAX_INT64 && now <= MAX_INT64)
      && (!r.Accepted? ==> t' == t)
      && (r.Accepted? ==> exists f ::
            && IsUser(t, f) && t.users[f - 1] == sender
            && CommittedAs(t, t', r, Group, f, Some(group), content, r.recipients, now)
            && (forall u :: u in r.recipients <==> (group, u) in t.members && u != f))
  {
    hide Utf8.Valid, Consistent, Evolves, CommittedAs, FindUser;
    EvolvesReflexive(t);
    var from := FindUser(t.users, sender);
    if f :| IsUser(t, f) && t.users[f - 1] == sender && (group, f) in t.members {
      FindUserId(t, sender, f);
    }
    if from.Some? {
      var to := GroupRecipients(t, group, from.value);
      MembersAreUsers(t, group, from.value);
      if WireText(sender) && WireText(content) && 0 < group <= |t.groups| {
        AcceptLaw(t, Group, from.value, Some(group), content, to, now);
      }
    }
  }

  /** A broadcast goes to exactly the other users registered at acceptance. */
  lemma BroadcastLaw(t: Tables, sender: Bytes, content: Bytes, now: nat)
    requires Consistent(t)
    ensures var (t', r) := AcceptBroadcast(t, sender, content, now);
      && Consistent(t') && Evolves(t, t')
      && (r.Accepted? <==>
            && WireText(sender) && WireText(content) && sender in t.users
            && NextId(t.history) <= MAX_INT64 && now <= MAX_INT64)
      && (!r.Accepted? ==> t' == t)
      && (r.Accepted? ==> exists f ::
            && IsUser(t, f) && t.users[f - 1] == sender
            && CommittedAs(t, t', r, Broadcast, f, None, content, r.recipients, now)
            && (forall u :: u in r.recipients <==> IsUser(t, u) && u != f))
  {
    hide WireText, Consistent, Evolves, CommittedAs, FindUser, AllUsersExcept;
    EvolvesReflexive(t);
    var from := FindUser(t.users, sender);
    if from.Some? && WireText(sender) && WireText(content) {
      OtherUsers(t, from.value);
      AcceptLaw(t, Broadcast, from.value, None, content, AllUsersExcept(t, from.value), now);
    }
  }

  lemma OtherUsers(t: Tables, f: int)
    ensures forall u :: u in AllUsersExcept(t, f) <==> IsUser(t, u) && u != f
  {
  }

  /** An acknowledgement is recorded once, for a recipient only, and touches that row alone. */
  lemma AcknowledgeLaw(t: Tables, name: Bytes, u: int, id: int, now: nat)
    requires Consistent(t) && IsUser(t, u) && t.users[u - 1] == name
    ensures var (t', r) := Acknowledge(t, name, id, now);
      && Consistent(t') && Evolves(t, t')
      && (r == InvalidAck <==> id <= 0)
      && (r == NotRecipient <==> 0 < id && (id, u) !in t.recipients)
      && (r == AlreadyAcknowledged <==> (id, u) in t.recipients && t.recipients[(id, u)].Some?)
      && (r == Acknowledged ==> t' == t.(recipients := t.recipients[(id, u) := Some(now)]))
      && (r != Acknowledged ==> t' == t)
  {
    hide Utf8.Valid, Consistent, Evolves, RecipientOk;
    FindUserId(t, name, u);
    EvolvesReflexive(t);
    PositiveRecipients(t);
    NamedUser(t, u);
    var (t', r) := Acknowledge(t, name, id, now);
    if r == Acknowledged {
      AcknowledgedKeeps(t, t', (id, u), now);
    }
  }

  lemma PositiveRecipients(t: Tables)
    requires Consistent(t)
    ensures forall k | k in t.recipients :: 0 < k.0
  {
    hide Utf8.Valid, WireText;
    forall k | k in t.recipients
      ensures 0 < k.0
    {
      assert RecipientOk(t, k);
      var m :| m in t.history && m.id == k.0;
      assert RowOk(t, m);
    }
  }

  lemma NamedUser(t: Tables, u: int)
    requires Consistent(t) && IsUser(t, u)
    ensures t.users[u - 1] != []
  {
    assert t.users[u - 1] in t.users;
  }

  lemma AcknowledgedKeeps(t: Tables, t': Tables, k: (int, int), now: nat)
    requires Consistent(t) && k in t.recipients && t.recipients[k].None?
    requires t' == t.(recipients := t.recipients[k := Some(now)])
    ensures Consistent(t') && Evolves(t, t')
  {
    hide RowOk, RecipientOk;
    RowsStayOk(t, t');
    assert t'.recipients.Keys == t.recipients.Keys;
    forall x | x in t'.recipients
      ensures RecipientOk(t', x)
    {
      RecipientStaysOk(t, t', x);
    }
  }

  lemma RecipientStaysOk(t: Tables, t': Tables, k: (int, int))
    requires RecipientOk(t, k) && t'.users == t.users && t'.history == t.history
    ensures RecipientOk(t', k)
  {
  }

  lemma GrowingTables(t: Tables, t': Tables)
    requires Consistent(t)
    requires t.users <= t'.users && t.groups <= t'.groups && t.members <= t'.members
    requires t'.history == t.history && t'.recipients == t.recipients
    requires forall i, j | 0 <= i < j < |t'.users| :: t'.users[i] != t'.users[j]
    requires [] !in t'.users
    requires forall m | m in t'.members :: 0 < m.0 <= |t'.groups| && IsUser(t', m.1)
    requires |t'.users| <= MAX_INT64 && |t'.groups| <= MAX_INT64
    ensures Consistent(t') && Evolves(t, t')
  {
    RowsStayOk(t, t');
    forall k | k in t'.recipients
      ensures RecipientOk(t', k)
    {
      assert RecipientOk(t, k);
    }
  }

  /** Registration adds the next user id under a name nobody has. */
  lemma RegisterLaw(t: Tables, name: Bytes)
    requires Consistent(t)
    ensures var (t', ok) := Register(t, name);
      && Consistent(t') && Evolves(t, t')
      && (ok <==> name != [] && name !in t.users && |t.users| < MAX_INT64)
      && (ok ==> FindUser(t'.users, name) == Some(|t.users| + 1))
      && (!ok ==> t' == t)
  {
    var (t', ok) := Register(t, name);
    if ok {
      assert forall i | 0 <= i < |t.users| :: t.users[i] in t.users;
      GrowingTables(t, t');
    } else {
      EvolvesReflexive(t);
    }
  }

  /** A created group has its creator as its only member. */
  lemma CreateGroupLaw(t: Tables, u: int, creator: Bytes, name: Bytes)
    requires Consistent(t) && IsUser(t, u) && t.users[u - 1] == creator
    ensures var (t', r) := CreateGroup(t, creator, name);
      && Consistent(t') && Evolves(t, t')
      && (r.GroupCreated? <==>
            creator != [] && GroupName(name) && name !in t.groups && |t.groups| < MAX_INT64)
      && (r.GroupCreated? ==>
            && r.id == |t'.groups| && t'.groups == t.groups + [name]
            && forall v :: (r.id, v) in t'.members <==> v == u)
      && (!r.GroupCreated? ==> t' == t)
  {
    hide Utf8.Valid, FindUser, GroupName;
    FindUserId(t, creator, u);
    var (t', r) := CreateGroup(t, creator, name);
    if r.GroupCreated? {
      GrowingTables(t, t');
    } else {
      EvolvesReflexive(t);
    }
  }

  /** Joining adds the caller to an existing group and changes nothing else. */
  lemma JoinGroupLaw(t: Tables, u: int, user: Bytes, group: int)
    requires Consistent(t) && IsUser(t, u) && t.users[u - 1] == user
    ensures var (t', r) := JoinGroup(t, user, group);
      && Consistent(t') && Evolves(t, t')
      && (r == Joined <==> user != [] && 0 < group <= |t.groups| && (group, u) !in t.members)
      && (r == AlreadyMember ==> (group, u) in t.members)
      && t' == (if r == Joined then t.(members := t.members + {(group, u)}) else t)
  {
    hide Utf8.Valid, FindUser;
    FindUserId(t, user, u);
    var (t', r) := JoinGroup(t, user, group);
    if r == Joined {
      GrowingTables(t, t');
    } else {
      EvolvesReflexive(t);
    }
  }
}
