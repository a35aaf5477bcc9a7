/** Why a transaction is refused: every answer other than success has one cause, the causes are
    tried in a fixed order, and every refusal leaves the tables alone. */
module Refusals {
  import opened Prelude
  import opened Tables
  import Evolution

  /** The texts of a submission are within the wire's limits. */
  predicate Readable(sender: Bytes, content: Bytes) { WireText(sender) && WireText(content) }

  /** A private message: unreadable texts come first, then an unknown sender, an unknown
      receiver, and a message to oneself. */
  lemma PrivateRefusals(t: Tables, sender: Bytes, receiver: Bytes, content: Bytes, now: Clock)
    requires Consistent(t)
    ensures var (t', r) := AcceptPrivate(t, sender, receiver, content, now);
      var readable := Readable(sender, content) && receiver != [];
      && (r == InvalidText <==> !readable)
      && (r == SenderNotFound <==> readable && sender !in t.users)
      && (r == RecipientNotFound <==> readable && sender in t.users && receiver !in t.users)
      && (r == SelfMessage <==> readable && sender in t.users && receiver == sender)
      && (r == DatabaseFull <==>
            readable && sender in t.users && receiver in t.users && receiver != sender && NextId(t.history) > MAX_INT64)
      && r != GroupNotFound && r != SenderNotMember
  {
    hide WireText, Consistent, Evolution.Evolves, Evolution.CommittedAs, FindUser;
    if sender in t.users && receiver in t.users {
      SameNameSameUser(t, sender, receiver);
    }
  }

  lemma SameNameSameUser(t: Tables, a: Bytes, b: Bytes)
    requires a in t.users && b in t.users
    ensures FindUser(t.users, a) == FindUser(t.users, b) <==> a == b
  {
  }

  /** A group message: unreadable texts or a number that cannot be a group's, an unknown
      sender, an unknown group, and a sender who is not a member. */
  lemma GroupRefusals(t: Tables, u: int, group: int, content: Bytes, now: Clock)
    requires Consistent(t) && IsUser(t, u)
    ensures var (t', r) := AcceptGroup(t, t.users[u - 1], group, content, now);
      var readable := Readable(t.users[u - 1], content) && 0 < group;
      && (r == InvalidText <==> !readable)
      && (r == GroupNotFound <==> readable && group > |t.groups|)
      && (r == SenderNotMember <==> readable && group <= |t.groups| && (group, u) !in t.members)
      && (r == DatabaseFull <==> readable && group <= |t.groups| && (group, u) in t.members && NextId(t.history) > MAX_INT64)
      && r != SenderNotFound && r != RecipientNotFound && r != SelfMessage
  {
    Evolution.FindUserId(t, t.users[u - 1], u);
    hide WireText, Consistent, FindUser, GroupRecipients;
  }

  lemma UnknownSenders(t: Tables, sender: Bytes, group: int, content: Bytes, now: Clock)
    requires sender !in t.users
    ensures AcceptGroup(t, sender, group, content, now).1
         == (if Readable(sender, content) && 0 < group then SenderNotFound else InvalidText)
    ensures AcceptBroadcast(t, sender, content, now).1 == (if Readable(sender, content) then SenderNotFound else InvalidText)
  {
    hide WireText;
  }

  lemma BroadcastRefusals(t: Tables, sender: Bytes, content: Bytes, now: Clock)
    requires sender in t.users
    ensures var (t', r) := AcceptBroadcast(t, sender, content, now);
      && (r == InvalidText <==> !Readable(sender, content))
      && (r == DatabaseFull <==> Readable(sender, content) && NextId(t.history) > MAX_INT64)
      && (r == InvalidText || r == DatabaseFull || r.Accepted?)
  {
    hide WireText, AllUsersExcept;
  }

  /** A new group: a bad name comes first, then an unknown creator, then a name that is taken. */
  lemma CreateRefusals(t: Tables, creator: Bytes, name: Bytes)
    requires |t.groups| < MAX_INT64
    ensures var (t', r) := CreateGroup(t, creator, name);
      var named := creator != [] && GroupName(name);
      && (r == InvalidName <==> !named)
      && (r == CreatorNotFound <==> named && creator !in t.users)
      && (r == DuplicateName <==> named && creator in t.users && name in t.groups)
      && (r.GroupCreated? <==> named && creator in t.users && name !in t.groups)
      && (!r.GroupCreated? ==> t' == t)
  {
    hide GroupName;
  }

  /** Joining: arguments that cannot be right, an unknown user, an unknown group, a member. */
  lemma JoinRefusals(t: Tables, u: int, group: int)
    requires Consistent(t) && IsUser(t, u)
    ensures var (t', r) := JoinGroup(t, t.users[u - 1], group);
      && (r == InvalidJoin <==> group <= 0)
      && (r == UnknownGroup <==> group > |t.groups|)
      && (r == AlreadyMember <==> 0 < group <= |t.groups| && (group, u) in t.members)
      && (r == Joined <==> 0 < group <= |t.groups| && (group, u) !in t.members)
      && r != UnknownUser
  {
    assert t.users[u - 1] in t.users;
    Evolution.FindUserId(t, t.users[u - 1], u);
    assert [] !in t.users;
    hide FindUser;
  }

  /** A stranger joins nothing. */
  lemma StrangersJoinNothing(t: Tables, name: Bytes, group: int)
    requires name !in t.users
    ensures JoinGroup(t, name, group) == (t, if name == [] || group <= 0 then InvalidJoin else UnknownUser)
  {
  }

  /** A page query: bad cursors and a bad limit come first, then an unknown name. */
  lemma PageRefusals(t: Tables, name: Bytes, after: int, through: Option<int>, limit: nat, pending: bool)
    requires Consistent(t)
    ensures var page := FetchPage(t, name, after, through, limit, pending);
      var sensible := after >= 0 && 0 < limit <= MAX_PAGE && (if through.Some? then after <= through.value else after == 0);
      && (page == InvalidCursor <==> name == [] || !sensible)
      && (page == UserNotFound <==> name != [] && sensible && name !in t.users)
      && (page.Ready? <==> sensible && name in t.users)
  {
    assert [] !in t.users;
    hide Consistent, Select, Watermark;
  }
}
