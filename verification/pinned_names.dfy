/** The cache and the session store together: the conversations that pin names are few enough
    that a group name from the server is always cached and never evicted while shown. */
module PinnedNames {
  import opened Prelude
  import opened BufferState
  import BufferInvariant
  import opened GroupNames
  import Tables
  import UiState
  import UiDiscipline

  /** The groups that have a conversation. */
  function Pinned(b: Buffer): set<GroupId> {
    set key | key in b.conversations && key.GroupChat? :: GroupId(key.group)
  }

  lemma {:induction false} ImageIsSmall(keys: set<Key>)
    ensures |set key | key in keys && key.GroupChat? :: GroupId(key.group)| <= |keys|
    decreases keys
  {
    var image := set key | key in keys && key.GroupChat? :: GroupId(key.group);
    if keys != {} {
      var x :| x in keys;
      ImageIsSmall(keys - {x});
      var rest := set key | key in keys - {x} && key.GroupChat? :: GroupId(key.group);
      assert image == if x.GroupChat? then rest + {GroupId(x.group)} else rest;
    }
  }

  lemma FewPinned(b: Buffer)
    requires |b.conversations| <= MAX_CONVERSATIONS
    ensures |Pinned(b)| <= MAX_PINNED
  {
    ImageIsSmall(b.conversations.Keys);
    assert Pinned(b) == set key | key in b.conversations.Keys && key.GroupChat? :: GroupId(key.group);
  }

  /** The calls of a session: each caches a name while the store is in some reachable state. */
  datatype Call = Call(id: GroupId, name: Bytes, username: Bytes, steps: seq<UiState.Step>)

  ghost function CacheAll(c: Cache, calls: seq<Call>): Cache
    decreases |calls|
  {
    if calls == [] then c
    else
      var call := calls[0];
      var pinned := Pinned(UiDiscipline.Session(call.username, call.steps).buffer);
      CacheAll(Store(c, call.id, call.name, pinned), calls[1..])
  }

  predicate ServerNames(calls: seq<Call>) {
    forall call | call in calls :: call.id.value > 0 && |call.name| <= Tables.MAX_GROUP_NAME
  }

  lemma {:induction false} CallsKeep(c: Cache, calls: seq<Call>)
    requires Valid(c) && Short(c) && ServerNames(calls)
    ensures Valid(CacheAll(c, calls)) && Short(CacheAll(c, calls))
    decreases |calls|
  {
    hide Valid, Short, Store, Pinned, UiDiscipline.Session;
    if calls != [] {
      var call := calls[0];
      assert call in calls;
      var b := UiDiscipline.Session(call.username, call.steps).buffer;
      StoreIsSmall(call.username, call.steps);
      FewPinned(b);
      ShortNamesAreAlwaysCached(c, call.id, call.name, Pinned(b));
      CallsKeep(Store(c, call.id, call.name, Pinned(b)), calls[1..]);
    }
  }

  lemma StoreIsSmall(username: Bytes, steps: seq<UiState.Step>)
    ensures |UiDiscipline.Session(username, steps).buffer.conversations| <= MAX_CONVERSATIONS
  {
    hide UiDiscipline.Session;
    UiDiscipline.StoreOfUi(UiDiscipline.Session(username, steps));
    hide UiDiscipline.UiOk, BufferInvariant.Indexed, BufferInvariant.Listed, BufferInvariant.UnreadOk,
      BufferInvariant.DistinctArrivals, BufferInvariant.BytesOk;
  }

  /** After any calls with server names, in any reachable states of the store, the next server
      name is cached, its text and number are kept, and no name of a group with a conversation
      is evicted for it. */
  lemma ServerNamesAreAlwaysCached(calls: seq<Call>, next: Call)
    requires ServerNames(calls) && next.id.value > 0 && |next.name| <= Tables.MAX_GROUP_NAME
    ensures var c := CacheAll(EMPTY, calls);
      var b := UiDiscipline.Session(next.username, next.steps).buffer;
      var c' := Store(c, next.id, next.name, Pinned(b));
      && Cached(c, c', next.id, next.name, Pinned(b))
      && forall g | GroupChat(g) in b.conversations && GroupId(g) in c.names && GroupId(g) != next.id ::
           GroupId(g) in c'.names && c'.names[GroupId(g)] == c.names[GroupId(g)]
  {
    assert Valid(EMPTY) && Short(EMPTY);
    hide Valid, Short, Store, UiDiscipline.Session;
    CallsKeep(EMPTY, calls);
    StoreIsSmall(next.username, next.steps);
    FewPinned(UiDiscipline.Session(next.username, next.steps).buffer);
    ShortNamesAreAlwaysCached(CacheAll(EMPTY, calls), next.id, next.name,
      Pinned(UiDiscipline.Session(next.username, next.steps).buffer));
  }
}
