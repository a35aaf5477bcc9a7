/** The group-name cache of the terminal interface (clientf/terminal_ui.cpp, `cacheGroupName`):
    bounded, least recently used first, never forgetting a conversation's group. */
module GroupNames {
  import opened Prelude
  import opened Totals
  import Tables

  const MAX_ENTRIES: nat := 2048
  const MAX_BYTES: nat := 4 * 1024 * 1024
  const MAX_PINNED: nat := 256

  /** A group's number, as the server gives it. */
  datatype GroupId = GroupId(value: int)

  datatype Entry = Entry(name: Bytes, used: nat)

  datatype Cache = Cache(names: map<GroupId, Entry>, bytes: nat, uses: nat)

  const EMPTY: Cache := Cache(map[], 0, 0)

  function NameBytes(e: Entry): nat { |e.name| }

  /** The counters agree with the entries, and no two entries were used at the same time. */
  ghost predicate Valid(c: Cache) {
    && |c.names| <= MAX_ENTRIES
    && c.bytes == MapTotal(c.names, NameBytes)
    && (forall k | k in c.names :: |c.names[k].name| <= MAX_BYTES)
    && (forall k | k in c.names :: c.names[k].used <= c.uses)
    && (forall j, k | j in c.names && k in c.names && j != k :: c.names[j].used != c.names[k].used)
  }

  predicate Room(c: Cache, size: nat) {
    |c.names| < MAX_ENTRIES && size <= Minus64(MAX_BYTES, c.bytes)
  }

  function Without(c: Cache, k: GroupId): Cache
    requires k in c.names
  {
    Cache(c.names - {k}, Minus64(c.bytes, |c.names[k].name|), c.uses)
  }

  /** An unpinned entry used longest ago. */
  predicate IsVictim(c: Cache, pinned: set<GroupId>, k: GroupId) {
    k in c.names && k !in pinned && forall j | j in c.names && j !in pinned :: c.names[k].used <= c.names[j].used
  }

  ghost function Victim(c: Cache, pinned: set<GroupId>): (v: Option<GroupId>)
    ensures v.Some? ==> IsVictim(c, pinned, v.value)
    ensures v.None? ==> forall k :: !IsVictim(c, pinned, k)
  {
    if k :| IsVictim(c, pinned, k) then Some(k) else None
  }

  /** Eviction until there is room or only pinned entries are left. */
  ghost function MakeRoom(c: Cache, size: nat, pinned: set<GroupId>): Cache
    decreases |c.names|
  {
    if Room(c, size) || c.names == map[] then c
    else
      match Victim(c, pinned)
      case None => c
      case Some(k) => MakeRoom(Without(c, k), size, pinned)
  }

  /** `cacheGroupName`. */
  ghost function Store(c: Cache, id: GroupId, name: Bytes, pinned: set<GroupId>): Cache {
    if id.value <= 0 || |name| > MAX_BYTES then c
    else if id in c.names then Replaced(c, id, name)
    else
      var r := MakeRoom(c, |name|, pinned);
      if Room(r, |name|) then Added(r, id, name) else r
  }

  function Added(c: Cache, id: GroupId, name: Bytes): Cache {
    Cache(c.names[id := Entry(name, c.uses + 1)], Plus64(c.bytes, |name|), c.uses + 1)
  }

  function Replaced(c: Cache, id: GroupId, name: Bytes): Cache
    requires id in c.names
  {
    Cache(c.names[id := Entry(name, c.uses + 1)], Plus64(Minus64(c.bytes, |c.names[id].name|), |name|), c.uses + 1)
  }

  // ----- What every call keeps -----

  /** The counter is far from its width: no sum over a valid cache wraps. */
  lemma Narrow(c: Cache)
    requires Valid(c)
    ensures c.bytes <= MAX_ENTRIES * MAX_BYTES
  {
    assert forall k | k in c.names :: NameBytes(c.names[k]) <= MAX_BYTES;
    MapTotalBound(c.names, NameBytes, MAX_BYTES);
    Monotone(|c.names|, MAX_ENTRIES, MAX_BYTES);
  }

  lemma Monotone(a: nat, b: nat, k: nat)
    requires a <= b
    ensures a * k <= b * k
  {
  }

  lemma WithoutKeeps(c: Cache, k: GroupId)
    requires Valid(c) && k in c.names
    ensures Valid(Without(c, k)) && |Without(c, k).names| == |c.names| - 1
  {
    hide Minus64;
    Narrow(c);
    MapTotalRemove(c.names, NameBytes, k);
    NoWrap64(c.bytes, |c.names[k].name|);
    SizeRemove(c.names, k);
  }

  lemma AddedKeeps(c: Cache, id: GroupId, name: Bytes)
    requires Valid(c) && id !in c.names && |c.names| < MAX_ENTRIES && |name| <= MAX_BYTES
    ensures Valid(Added(c, id, name))
  {
    hide Plus64, MapTotal, NameBytes;
    var e := Entry(name, c.uses + 1);
    AddedBytes(c, id, name);
    AddedSize(c, id, e);
  }

  lemma AddedBytes(c: Cache, id: GroupId, name: Bytes)
    requires Valid(c) && id !in c.names && |c.names| < MAX_ENTRIES && |name| <= MAX_BYTES
    ensures Added(c, id, name).bytes == MapTotal(Added(c, id, name).names, NameBytes)
  {
    Narrow(c);
    hide MapTotal;
    NoWrap64(c.bytes, |name|);
    MapTotalAdd(c.names, NameBytes, id, Entry(name, c.uses + 1));
  }

  lemma AddedSize(c: Cache, id: GroupId, e: Entry)
    requires id !in c.names
    ensures |c.names[id := e]| == |c.names| + 1
  {
    assert c.names[id := e].Keys == c.names.Keys + {id};
  }

  lemma ReplacedKeeps(c: Cache, id: GroupId, name: Bytes)
    requires Valid(c) && id in c.names && |name| <= MAX_BYTES
    ensures Valid(Replaced(c, id, name))
  {
    hide Replaced, Added;
    WithoutKeeps(c, id);
    ReplacedIsAdded(c, id, name);
    hide Valid;
    AddedKeeps(Without(c, id), id, name);
  }

  lemma ReplacedIsAdded(c: Cache, id: GroupId, name: Bytes)
    requires id in c.names
    ensures Replaced(c, id, name) == Added(Without(c, id), id, name)
  {
    assert (c.names - {id})[id := Entry(name, c.uses + 1)] == c.names[id := Entry(name, c.uses + 1)];
  }

  /** What eviction may do to a cache: unpinned entries go, least recently used first, the
      others stay as they are. */
  ghost predicate Evicted(c: Cache, r: Cache, pinned: set<GroupId>) {
    && r.uses == c.uses
    && (forall k | k in r.names :: k in c.names && r.names[k] == c.names[k])
    && (forall k | k in c.names && k !in r.names :: k !in pinned)
    && (forall k, j | k in c.names && k !in r.names && j in r.names && j !in pinned :: c.names[k].used < c.names[j].used)
  }

  lemma EvictedFirst(c: Cache, r: Cache, pinned: set<GroupId>, k: GroupId)
    requires Valid(c) && IsVictim(c, pinned, k) && Evicted(Without(c, k), r, pinned)
    ensures Evicted(c, r, pinned)
  {
    hide Valid, Minus64;
    StrictlyOldest(c, pinned, k);
    var c1 := Without(c, k);
    assert forall j | j in c1.names :: j in c.names && j != k && c1.names[j] == c.names[j];
    assert forall j | j in c.names && j != k :: j in c1.names;
    hide Without, IsVictim;
  }

  /** No two entries were used at the same time. */
  lemma StrictlyOldest(c: Cache, pinned: set<GroupId>, k: GroupId)
    requires Valid(c) && IsVictim(c, pinned, k)
    ensures k in c.names && k !in pinned
    ensures forall j | j in c.names && j !in pinned && j != k :: c.names[k].used < c.names[j].used
  {
    hide MapTotal;
  }

  /** `r` with its last evicted entry put back. */
  function Restored(c: Cache, r: Cache, last: GroupId): Cache
    requires last in c.names
  {
    r.(names := r.names[last := c.names[last]], bytes := r.bytes + |c.names[last].name|)
  }

  /** Putting `last` back would leave no room. */
  ghost predicate NeededToGo(c: Cache, r: Cache, size: nat, last: GroupId)
    requires last in c.names
  {
    !Room(Restored(c, r, last), size)
  }

  lemma {:induction false} VictimExists(c: Cache, pinned: set<GroupId>, k: GroupId)
    requires k in c.names && k !in pinned
    ensures Victim(c, pinned).Some?
    decreases c.names[k].used
  {
    if !IsVictim(c, pinned, k) {
      var j :| j in c.names && j !in pinned && c.names[j].used < c.names[k].used;
      VictimExists(c, pinned, j);
    }
  }

  /** What making room comes to. */
  ghost predicate MadeRoom(c: Cache, r: Cache, size: nat, pinned: set<GroupId>) {
    && Valid(r) && Evicted(c, r, pinned)
    && (Room(r, size) || forall k | k in r.names :: k in pinned)
    && (r != c ==> exists last :: last in c.names && last !in r.names && NeededToGo(c, r, size, last))
  }

  lemma NothingEvicted(c: Cache, size: nat, pinned: set<GroupId>)
    requires Valid(c) && (Room(c, size) || c.names == map[] || Victim(c, pinned).None?)
    ensures MadeRoom(c, c, size, pinned)
  {
    hide Room;
    if !Room(c, size) {
      forall k | k in c.names
        ensures k in pinned
      {
        if k !in pinned { VictimExists(c, pinned, k); }
      }
    }
  }

  lemma OneMoreEvicted(c: Cache, r: Cache, size: nat, pinned: set<GroupId>, k: GroupId)
    requires Valid(c) && !Room(c, size) && IsVictim(c, pinned, k)
    requires MadeRoom(Without(c, k), r, size, pinned)
    ensures MadeRoom(c, r, size, pinned)
  {
    hide Room, Valid;
    EvictedFirst(c, r, pinned, k);
    var c1 := Without(c, k);
    if r == c1 {
      BackAgain(c, k);
      assert NeededToGo(c, r, size, k) by {
        assert r.(names := r.names[k := c.names[k]], bytes := r.bytes + |c.names[k].name|) == c;
      }
    } else {
      var last :| last in c1.names && last !in r.names && NeededToGo(c1, r, size, last);
      assert c1.names[last] == c.names[last];
      assert NeededToGo(c, r, size, last);
    }
  }

  /** Eviction ends with room or with pinned entries only, in least-recently-used order, and
      takes away no more than it must: before the last eviction there was no room. */
  lemma {:induction false} MakeRoomLaw(c: Cache, size: nat, pinned: set<GroupId>)
    requires Valid(c)
    ensures MadeRoom(c, MakeRoom(c, size, pinned), size, pinned)
    decreases |c.names|
  {
    hide Room, Valid, MadeRoom, IsVictim;
    if Room(c, size) || c.names == map[] || Victim(c, pinned).None? {
      NothingEvicted(c, size, pinned);
    } else {
      var k := Victim(c, pinned).value;
      assert k in c.names by { VictimIsIn(c, pinned, k); }
      WithoutKeeps(c, k);
      MakeRoomLaw(Without(c, k), size, pinned);
      OneMoreEvicted(c, MakeRoom(c, size, pinned), size, pinned, k);
    }
  }

  lemma VictimIsIn(c: Cache, pinned: set<GroupId>, k: GroupId)
    requires IsVictim(c, pinned, k)
    ensures k in c.names && k !in pinned
  {
  }

  lemma BackAgain(c: Cache, k: GroupId)
    requires Valid(c) && k in c.names
    ensures Without(c, k).names[k := c.names[k]] == c.names
    ensures Without(c, k).bytes + |c.names[k].name| == c.bytes
  {
    hide Minus64;
    Narrow(c);
    MapTotalRemove(c.names, NameBytes, k);
    NoWrap64(c.bytes, |c.names[k].name|);
  }

  // ----- Names as the server allows them -----

  /** Group names have at most 128 bytes. */
  ghost predicate Short(c: Cache) {
    forall k | k in c.names :: |c.names[k].name| <= Tables.MAX_GROUP_NAME
  }

  /** With short names only the number of entries matters. */
  lemma ShortLeavesBytes(c: Cache, size: nat)
    requires c.bytes == MapTotal(c.names, NameBytes) && |c.names| <= MAX_ENTRIES
    requires Short(c) && size <= Tables.MAX_GROUP_NAME
    ensures Room(c, size) <==> |c.names| < MAX_ENTRIES
  {
    assert forall k | k in c.names :: NameBytes(c.names[k]) <= 128;
    MapTotalBound(c.names, NameBytes, 128);
    assert |c.names| * 128 <= MAX_ENTRIES * 128;
  }

  lemma SubmapSize<K, V>(a: map<K, V>, b: map<K, V>)
    requires forall k | k in a :: k in b
    ensures |a| <= |b|
  {
    SizeWithin(a, b.Keys);
    assert |b| == |b.Keys|;
  }

  lemma SizeWithin<K, V>(a: map<K, V>, s: set<K>)
    requires forall k | k in a :: k in s
    ensures |a| <= |s|
  {
    SubsetSize(a.Keys, s);
    assert |a| == |a.Keys|;
  }

  lemma SizeAdd<K, V>(m: map<K, V>, k: K, v: V)
    requires k !in m
    ensures |m[k := v]| == |m| + 1
  {
    assert m[k := v].Keys == m.Keys + {k};
    assert |m[k := v]| == |m[k := v].Keys| && |m| == |m.Keys|;
  }

  /** There is always room in the end. */
  lemma RoomIsFound(c: Cache, r: Cache, size: nat, pinned: set<GroupId>)
    requires Short(c) && MadeRoom(c, r, size, pinned)
    requires size <= Tables.MAX_GROUP_NAME && |pinned| <= MAX_PINNED
    ensures Room(r, size)
  {
    ShortLeavesBytes(r, size);
    hide Room;
    if !Room(r, size) {
      SizeWithin(r.names, pinned);
    }
  }

  /** The cache before its last eviction. */
  lemma RestoredIs(c: Cache, r: Cache, last: GroupId)
    requires Short(c) && r.bytes == MapTotal(r.names, NameBytes)
    requires forall k | k in r.names :: k in c.names && r.names[k] == c.names[k]
    requires last in c.names && last !in r.names
    ensures var back := Restored(c, r, last);
      && Short(back) && back.bytes == MapTotal(back.names, NameBytes)
      && |back.names| == |r.names| + 1 && |back.names| <= |c.names|
  {
    MapTotalAdd(r.names, NameBytes, last, c.names[last]);
    SizeAdd(r.names, last, c.names[last]);
    SubmapSize(Restored(c, r, last).names, c.names);
  }

  /** At most one short name is evicted for another. */
  lemma OneEviction(c: Cache, r: Cache, size: nat, last: GroupId)
    requires Valid(c) && Short(c) && r.bytes == MapTotal(r.names, NameBytes)
    requires forall k | k in r.names :: k in c.names && r.names[k] == c.names[k]
    requires size <= Tables.MAX_GROUP_NAME
    requires last in c.names && last !in r.names && NeededToGo(c, r, size, last)
    ensures |c.names| <= |r.names| + 1
  {
    hide MapTotal, Room, Short;
    RestoredIs(c, r, last);
    ShortLeavesBytes(Restored(c, r, last), size);
  }

  /** What caching a short name does. */
  ghost predicate Cached(c: Cache, c': Cache, id: GroupId, name: Bytes, pinned: set<GroupId>) {
    && Valid(c') && Short(c')
    && id in c'.names && c'.names[id].name == name
    && (forall k | k in c.names && k in pinned && k != id :: k in c'.names && c'.names[k] == c.names[k])
    && (forall k | k in c'.names && k != id :: k in c.names && c'.names[k] == c.names[k])
    && |c.names| <= |c'.names| <= |c.names| + 1
  }

  lemma AddedIsCached(c: Cache, r: Cache, id: GroupId, name: Bytes, pinned: set<GroupId>)
    requires Short(c) && Valid(r) && Evicted(c, r, pinned) && |name| <= Tables.MAX_GROUP_NAME
    requires id !in c.names && Room(r, |name|) && |c.names| <= |r.names| + 1
    ensures Cached(c, Added(r, id, name), id, name, pinned)
  {
    hide Valid, Room, Plus64, Victim;
    AddedKeeps(r, id, name) by { RoomHolds(r, |name|); }
    SizeAdd(r.names, id, Entry(name, r.uses + 1));
    SubmapSize(r.names, c.names);
  }

  lemma RoomHolds(c: Cache, size: nat)
    requires Room(c, size)
    ensures |c.names| < MAX_ENTRIES
  {
  }

  /** For names the server allows, caching always succeeds: at most 256 conversations pin an
      entry, so eviction always finds room; every pinned name stays, no other name is touched,
      and at most one is evicted. */
  lemma ShortNamesAreAlwaysCached(c: Cache, id: GroupId, name: Bytes, pinned: set<GroupId>)
    requires Valid(c) && Short(c) && |pinned| <= MAX_PINNED && id.value > 0 && |name| <= Tables.MAX_GROUP_NAME
    ensures Cached(c, Store(c, id, name, pinned), id, name, pinned)
  {
    hide Valid, Short, Room, Cached, Added, Replaced, NeededToGo;
    if id in c.names {
      ReplacedIsCached(c, id, name, pinned);
    } else {
      var r := MakeRoom(c, |name|, pinned);
      MakeRoomLaw(c, |name|, pinned);
      RoomIsFound(c, r, |name|, pinned);
      if r != c {
        var last :| last in c.names && last !in r.names && NeededToGo(c, r, |name|, last);
        assert r.bytes == MapTotal(r.names, NameBytes) by { BytesAreTotal(r); }
        OneEviction(c, r, |name|, last);
      }
      AddedIsCached(c, r, id, name, pinned);
    }
  }

  lemma ReplacedIsCached(c: Cache, id: GroupId, name: Bytes, pinned: set<GroupId>)
    requires Valid(c) && Short(c) && id in c.names && |name| <= Tables.MAX_GROUP_NAME
    ensures Cached(c, Replaced(c, id, name), id, name, pinned)
  {
    hide Valid, Plus64, Minus64;
    ReplacedKeeps(c, id, name);
    var c' := Replaced(c, id, name);
    assert forall k | k in c'.names :: k in c.names;
    assert forall k | k in c.names :: k in c'.names;
    SubmapSize(c'.names, c.names);
    SubmapSize(c.names, c'.names);
  }

  lemma BytesAreTotal(c: Cache)
    requires Valid(c)
    ensures c.bytes == MapTotal(c.names, NameBytes)
  {
  }

  // ----- Longer names -----

  /** Replacing a name tests no room: the total stays within the limit exactly when the new
      name fits into what the old one leaves. */
  lemma ReplacingKeepsTheLimitExactlyWhen(c: Cache, id: GroupId, name: Bytes, pinned: set<GroupId>)
    requires Valid(c) && c.bytes <= MAX_BYTES && 0 < id.value && id in c.names && |name| <= MAX_BYTES
    ensures Store(c, id, name, pinned).bytes <= MAX_BYTES <==> |name| <= MAX_BYTES - (c.bytes - |c.names[id].name|)
    ensures |c.names[id].name| <= c.bytes
  {
    hide Minus64, Plus64, MapTotal;
    MapTotalRemove(c.names, NameBytes, id);
    NoWrap64(c.bytes, |c.names[id].name|);
    NoWrap64(c.bytes - |c.names[id].name|, |name|);
  }

  /** Letters only. */
  function Long(): (name: Bytes)
    ensures |name| == MAX_BYTES
  {
    seq(MAX_BYTES, _ => 0x61 as bv8)
  }

  /** Three calls that leave twice the limit in the cache. */
  lemma ReplacingCanExceedTheLimit()
    ensures Store(Store(Store(EMPTY, GroupId(1), Long(), {}), GroupId(2), [], {}), GroupId(2), Long(), {}).bytes == 2 * MAX_BYTES
  {
    hide Long;
    var c1 := Store(EMPTY, GroupId(1), Long(), {});
    assert c1 == Cache(map[GroupId(1) := Entry(Long(), 1)], MAX_BYTES, 1);
    assert Room(c1, 0);
    var c2 := Store(c1, GroupId(2), [], {});
    assert c2 == Cache(map[GroupId(1) := Entry(Long(), 1), GroupId(2) := Entry([], 2)], MAX_BYTES, 2);
  }

  // ----- The cache in place -----

  lemma OneVictim(c: Cache, pinned: set<GroupId>, k: GroupId)
    requires Valid(c) && IsVictim(c, pinned, k)
    ensures Victim(c, pinned) == Some(k)
  {
    var v := Victim(c, pinned);
    assert v.Some? && IsVictim(c, pinned, v.value);
  }

  class NameCache {
    var groupNames: map<GroupId, Entry>
    var groupNameBytes: nat
    var groupNameUse: nat

    function State(): Cache
      reads this
    {
      Cache(groupNames, groupNameBytes, groupNameUse)
    }

    constructor ()
      ensures State() == EMPTY && Valid(State())
    {
      groupNames, groupNameBytes, groupNameUse := map[], 0, 0;
    }

    /** The unpinned entry used longest ago. */
    method FindVictim(pinned: set<GroupId>) returns (victim: Option<GroupId>)
      requires Valid(State())
      ensures victim == Victim(State(), pinned)
    {
      victim := None;
      var rest := groupNames.Keys;
      while rest != {}
        invariant rest <= groupNames.Keys
        invariant victim.None? ==> forall k | k in groupNames && k !in rest :: k in pinned
        invariant victim.Some? ==> victim.value in groupNames && victim.value !in pinned
        invariant victim.Some? ==> forall k | k in groupNames && k !in rest && k !in pinned ::
                      groupNames[victim.value].used <= groupNames[k].used
        decreases |rest|
      {
        var candidate :| candidate in rest;
        rest := rest - {candidate};
        if candidate !in pinned
           && (victim.None? || groupNames[candidate].used < groupNames[victim.value].used) {
          victim := Some(candidate);
        }
      }
      if victim.Some? {
        OneVictim(State(), pinned, victim.value);
      }
    }

    /** Evicts until a name of `size` bytes fits or nothing more can go. */
    method EvictFor(size: nat, pinned: set<GroupId>)
      requires Valid(State())
      modifies this`groupNames, this`groupNameBytes
      ensures State() == MakeRoom(old(State()), size, pinned) && Valid(State())
    {
      hide Valid, Minus64;
      var looking := true;
      while looking && (|groupNames| >= MAX_ENTRIES || size > Minus64(MAX_BYTES, groupNameBytes)) && groupNames != map[]
        invariant Valid(State())
        invariant MakeRoom(State(), size, pinned) == MakeRoom(old(State()), size, pinned)
        invariant !looking ==> Victim(State(), pinned).None?
        decreases |groupNames|, looking
      {
        var victim := FindVictim(pinned);
        if victim.None? {
          looking := false;
        } else {
          WithoutKeeps(State(), victim.value);
          groupNameBytes := Minus64(groupNameBytes, |groupNames[victim.value].name|);
          groupNames := groupNames - {victim.value};
        }
      }
    }

    /** Caches a name, or leaves what eviction left when even that gives no room. */
    method CacheGroupName(id: GroupId, name: Bytes, pinned: set<GroupId>)
      requires Valid(State())
      modifies this
      ensures State() == Store(old(State()), id, name, pinned) && Valid(State())
    {
      hide Valid, Minus64, Plus64, MakeRoom;
      if id.value <= 0 || |name| > MAX_BYTES {
        return;
      }
      if id in groupNames {
        ReplacedKeeps(State(), id, name);
        groupNameBytes := Minus64(groupNameBytes, |groupNames[id].name|);
        groupNameUse := groupNameUse + 1;
        groupNames := groupNames[id := Entry(name, groupNameUse)];
        groupNameBytes := Plus64(groupNameBytes, |name|);
        return;
      }
      MakeRoomSubset(State(), |name|, pinned);
      EvictFor(|name|, pinned);
      if |groupNames| >= MAX_ENTRIES || |name| > Minus64(MAX_BYTES, groupNameBytes) {
        return;
      }
      AddedKeeps(State(), id, name);
      groupNameUse := groupNameUse + 1;
      groupNames := groupNames[id := Entry(name, groupNameUse)];
      groupNameBytes := Plus64(groupNameBytes, |name|);
    }
  }

  lemma MakeRoomSubset(c: Cache, size: nat, pinned: set<GroupId>)
    requires Valid(c)
    ensures forall k | k in MakeRoom(c, size, pinned).names :: k in c.names
  {
    hide Valid, Room, MakeRoom, NeededToGo;
    MakeRoomLaw(c, size, pinned);
  }

  /** Whatever its length, a new name is cached exactly when there is room for it after the
      eviction; nothing else is added, and a name that is refused changes nothing but what was
      evicted. */
  lemma CachedExactlyWhenThereIsRoom(c: Cache, id: GroupId, name: Bytes, pinned: set<GroupId>)
    requires Valid(c) && 0 < id.value && id !in c.names && |name| <= MAX_BYTES
    ensures var c', r := Store(c, id, name, pinned), MakeRoom(c, |name|, pinned);
      && (id in c'.names <==> Room(r, |name|))
      && (id in c'.names ==> c'.names[id].name == name && c'.names[id].used > c.uses)
      && (forall k | k != id :: k in c'.names <==> k in r.names)
      && (forall k | k in r.names :: k in c'.names && c'.names[k] == r.names[k])
  {
    hide Valid, Room, MakeRoom, NeededToGo, Plus64;
    MakeRoomLaw(c, |name|, pinned);
  }

  /** A number that is no group's, or a name over the limit, changes nothing. */
  lemma BadNamesAreIgnored(c: Cache, id: GroupId, name: Bytes, pinned: set<GroupId>)
    ensures id.value <= 0 || |name| > MAX_BYTES ==> Store(c, id, name, pinned) == c
  {
  }
}
