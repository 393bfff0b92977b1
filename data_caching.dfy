/**
 * warreport/data_caching.py, the earlier storage layer: a username cache,
 * a cache of per-battle player counts, a short-lived "history not yet
 * available" flag, and a FIFO queue of battles with a single
 * "currently processing" slot. Key expiry is not modelled: a cached value
 * stays until overwritten.
 */
module DataCaching {
  import opened Wrappers
  import opened Strings
  import opened RedisStore
  import Queuing

  const UsernameKeyPrefix := "screeps:warreport:username:"
  const PlayerCountsKeyPrefix := "screeps:warreport:battledata:"
  const NotAvailKeyPrefix := "screeps:warreport:battledata-not-avail:"
  const QueuedBattlesKey := "screeps:warreport:unreported_battles"
  const CurrentlyProcessingKey := "screeps:warreport:current_battle"

  /** The field `set_player_counts` stores in place of an empty dict. */
  const CheckedSentinel := "__$checked"

  function UsernameKey(userId: string): string {
    UsernameKeyPrefix + userId
  }

  function PlayerCountsKey(room: string, startTick: int): string {
    PlayerCountsKeyPrefix + room + ":" + IntToString(startTick)
  }

  function NotAvailKey(room: string, startTick: int): string {
    NotAvailKeyPrefix + room + ":" + IntToString(startTick)
  }

  /** Whether `key` is one of the username cache's keys. */
  predicate IsUsernameKey(key: string) {
    |key| >= |UsernameKeyPrefix| && key[..|UsernameKeyPrefix|] == UsernameKeyPrefix
  }

  /** `b` holds what `a` holds at every key outside the username cache. */
  ghost predicate SameOutsideUsernames(a: map<string, Value>, b: map<string, Value>) {
    forall k {:trigger IsUsernameKey(k)} :: !IsUsernameKey(k) ==> (k in a <==> k in b) && (k in a ==> a[k] == b[k])
  }

  lemma UsernameWriteKeepsOthers(a: map<string, Value>, userId: string, v: Value)
    ensures SameOutsideUsernames(a, a[UsernameKey(userId) := v])
  {
    assert UsernameKey(userId)[..|UsernameKeyPrefix|] == UsernameKeyPrefix;
  }

  lemma UsernameKeyIsUsernameKey(userId: string)
    ensures IsUsernameKey(UsernameKey(userId))
  {
    assert UsernameKey(userId)[..|UsernameKeyPrefix|] == UsernameKeyPrefix;
  }

  /** The username cache keys of `ids`. */
  function UsernameKeys(ids: seq<string>): set<string> {
    set id | id in ids :: UsernameKey(id)
  }

  /** `data` caches `name` for `userId`. */
  predicate NameCached(data: map<string, Value>, userId: string, name: string) {
    UsernameKey(userId) in data && data[UsernameKey(userId)] == Str(name)
  }

  /** Python's truth value of what `GET` returned: present and not empty. */
  predicate Truthy(raw: Option<string>) {
    raw.Some? && raw.value != ""
  }

  lemma PlayerCountsKeyIsNoUsernameKey(room: string, startTick: int)
    ensures !IsUsernameKey(PlayerCountsKey(room, startTick))
  {
    assert PlayerCountsKey(room, startTick)[18] == 'b';
    assert UsernameKeyPrefix[18] == 'u';
  }

  lemma NotAvailKeyIsNoUsernameKey(room: string, startTick: int)
    ensures !IsUsernameKey(NotAvailKey(room, startTick))
  {
    assert NotAvailKey(room, startTick)[18] == 'b';
    assert UsernameKeyPrefix[18] == 'u';
  }

  lemma UsernameKeyInjective(a: string, b: string)
    requires UsernameKey(a) == UsernameKey(b)
    ensures a == b
  {
    assert a == UsernameKey(a)[|UsernameKeyPrefix|..];
  }

  /** A room and a numeric tick after a fixed prefix determine each other through the key. */
  lemma RoomTickKeyInjective(prefix: string, r1: string, t1: int, r2: string, t2: int)
    requires prefix + r1 + ":" + IntToString(t1) == prefix + r2 + ":" + IntToString(t2)
    ensures r1 == r2 && t1 == t2
  {
    var k := prefix + r1 + ":" + IntToString(t1);
    assert k[|prefix|..] == r1 + [':'] + IntToString(t1);
    assert k[|prefix|..] == r2 + [':'] + IntToString(t2);
    IntToStringAvoids(t1, ':');
    IntToStringAvoids(t2, ':');
    LastSeparatorUnique(r1, IntToString(t1), r2, IntToString(t2), ':');
    IntToStringInjective(t1, t2);
  }

  /** The three parameterised key families never share a key. */
  lemma KeyFamiliesDistinct(userId: string, room: string, tick: int, room': string, tick': int)
    ensures UsernameKey(userId) != PlayerCountsKey(room, tick)
    ensures UsernameKey(userId) != NotAvailKey(room, tick)
    ensures PlayerCountsKey(room, tick) != NotAvailKey(room', tick')
  {
    assert UsernameKey(userId)[18] == 'u';
    assert PlayerCountsKey(room, tick)[18] == 'b';
    assert NotAvailKey(room, tick)[18] == 'b';
    assert PlayerCountsKey(room, tick)[28] == ':';
    assert NotAvailKey(room', tick')[28] == '-';
  }

  /** `get_username`: the cached name, None when there is none. */
  function GetUsername(store: Store, userId: string): Option<string>
    reads store
  {
    store.Get(UsernameKey(userId))
  }

  /** `set_username`: afterwards the id reads back as `username`; every other id reads as before. */
  method SetUsername(store: Store, userId: string, username: string)
    modifies store
    ensures store.data == old(store.data)[UsernameKey(userId) := Str(username)]
    ensures GetUsername(store, userId) == Some(username)
    ensures forall other :: other != userId ==> GetUsername(store, other) == old(GetUsername(store, other))
  {
    store.Set(UsernameKey(userId), username);
    forall other | other != userId
      ensures GetUsername(store, other) == old(GetUsername(store, other))
    {
      if UsernameKey(other) == UsernameKey(userId) {
        UsernameKeyInjective(other, userId);
      }
    }
  }

  /**
   * `get_player_counts`: the stored hash with its values decoded, or None
   * when the hash is absent (the function falls off its end). The filter
   * meant to drop the sentinel compares a bytes field with a str, which is
   * never equal, so every field is kept, the sentinel included.
   */
  function GetPlayerCounts(store: Store, room: string, startTick: int): Option<map<string, string>>
    reads store
  {
    var raw := store.HashAt(PlayerCountsKey(room, startTick));
    if |raw| > 0 then Some(raw) else None
  }

  /**
   * What `set_player_counts` writes: every count as its decimal text, or,
   * for an empty dict, the sentinel field alone, since Redis holds no empty
   * hashes.
   */
  function StoredCounts(counts: map<string, int>): map<string, string>
  {
    if |counts| == 0 then map[CheckedSentinel := "1"]
    else map k | k in counts :: IntToString(counts[k])
  }

  /**
   * What is written is never empty, so a later read always hits; a
   * non-empty dict comes back field for field with each value reading as
   * its count under `int()`, while an empty one comes back as the sentinel
   * rather than as an empty dict.
   */
  lemma StoredCountsReadBack(counts: map<string, int>)
    ensures |StoredCounts(counts)| > 0
    ensures |counts| > 0 ==> StoredCounts(counts).Keys == counts.Keys
    ensures |counts| > 0 ==> forall k :: k in counts ==> ParseInt(StoredCounts(counts)[k]) == Some(counts[k])
    ensures |counts| == 0 ==> StoredCounts(counts) == map[CheckedSentinel := "1"]
  {
    if |counts| > 0 {
      var k :| k in counts;
      assert k in StoredCounts(counts);
      forall k | k in counts
        ensures ParseInt(StoredCounts(counts)[k]) == Some(counts[k])
      {
        ParseIntOfIntToString(counts[k]);
      }
    }
  }

  /** `set_player_counts`: one `HMSET` (merging into any hash already there) and an expiry. */
  method SetPlayerCounts(store: Store, room: string, startTick: int, counts: map<string, int>)
    requires store.HoldsHashOrNothing(PlayerCountsKey(room, startTick))
    modifies store
    ensures store.data == old(store.data)[PlayerCountsKey(room, startTick) :=
              Hash(old(store.HashAt(PlayerCountsKey(room, startTick))) + StoredCounts(counts))]
    ensures GetPlayerCounts(store, room, startTick).Some?
  {
    StoredCountsReadBack(counts);
    store.HMSet(PlayerCountsKey(room, startTick), StoredCounts(counts));
    var k :| k in StoredCounts(counts);
    assert k in store.HashAt(PlayerCountsKey(room, startTick));
  }

  /** `get_battledata_not_yet_avail`: the raw flag, which callers test for truth. */
  function GetBattleDataNotYetAvail(store: Store, room: string, startTick: int): Option<string>
    reads store
  {
    store.Get(NotAvailKey(room, startTick))
  }

  /** `set_battledata_not_yet_avail`: sets the flag for this room and tick and for no other. */
  method SetBattleDataNotYetAvail(store: Store, room: string, startTick: int)
    modifies store
    ensures store.data == old(store.data)[NotAvailKey(room, startTick) := Str("1")]
    ensures Truthy(GetBattleDataNotYetAvail(store, room, startTick))
    ensures forall r, t :: (r, t) != (room, startTick) ==>
              GetBattleDataNotYetAvail(store, r, t) == old(GetBattleDataNotYetAvail(store, r, t))
  {
    store.Set(NotAvailKey(room, startTick), "1");
    forall r, t | (r, t) != (room, startTick)
      ensures GetBattleDataNotYetAvail(store, r, t) == old(GetBattleDataNotYetAvail(store, r, t))
    {
      if NotAvailKey(r, t) == NotAvailKey(room, startTick) {
        RoomTickKeyInjective(NotAvailKeyPrefix, r, t, room, startTick);
      }
    }
  }

  /** `add_battle_to_queue`: appends one entry at the tail. */
  method AddBattleToQueue(store: Store, room: string, tick: string)
    requires store.HoldsListOrNothing(QueuedBattlesKey)
    modifies store
    ensures store.data == old(store.data)[QueuedBattlesKey :=
              List(old(store.ListAt(QueuedBattlesKey)) + [Queuing.EncodeBattle(room, tick)])]
  {
    store.RPush(QueuedBattlesKey, [Queuing.EncodeBattle(room, tick)]);
  }

  /** `add_battles_to_queue`: appends the entries at the tail in argument order; Redis refuses an empty `RPUSH`. */
  method AddBattlesToQueue(store: Store, battles: seq<(string, string)>)
    requires |battles| > 0
    requires store.HoldsListOrNothing(QueuedBattlesKey)
    modifies store
    ensures store.data == old(store.data)[QueuedBattlesKey :=
              List(old(store.ListAt(QueuedBattlesKey)) + Queuing.EncodeAll(battles))]
  {
    RPushAllIsAppend(store.ListAt(QueuedBattlesKey), Queuing.EncodeAll(battles));
    store.RPush(QueuedBattlesKey, Queuing.EncodeAll(battles));
  }

  /**
   * `get_next_battle_blocking`: while the current slot holds a (non-empty)
   * entry, returns it split on ':' and changes nothing; otherwise takes
   * the head of the queue into the slot and returns it split. An empty
   * queue would block, so that case asks for a non-empty queue.
   */
  method GetNextBattleBlocking(store: Store) returns (battle: seq<string>)
    requires !Truthy(store.Get(CurrentlyProcessingKey)) ==> store.ListAt(QueuedBattlesKey) != []
    requires store.HoldsListOrNothing(QueuedBattlesKey)
    modifies store
    ensures Truthy(old(store.Get(CurrentlyProcessingKey))) ==>
              battle == Split(old(store.Get(CurrentlyProcessingKey)).value, ':') &&
              store.data == old(store.data)
    ensures !Truthy(old(store.Get(CurrentlyProcessingKey))) ==>
              var queue := old(store.ListAt(QueuedBattlesKey));
              battle == Split(queue[0], ':') &&
              store.data == PutList(old(store.data), QueuedBattlesKey, queue[1..])[CurrentlyProcessingKey := Str(queue[0])]
    ensures !Truthy(old(store.Get(CurrentlyProcessingKey))) ==>
              multiset(store.ListAt(QueuedBattlesKey)) + multiset{store.Get(CurrentlyProcessingKey).value} ==
              multiset(old(store.ListAt(QueuedBattlesKey)))
    ensures store.Get(CurrentlyProcessingKey).Some?
    ensures battle == Split(store.Get(CurrentlyProcessingKey).value, ':')
  {
    var current := store.Get(CurrentlyProcessingKey);
    if Truthy(current) {
      return Split(current.value, ':');
    }
    var queue := store.ListAt(QueuedBattlesKey);
    var entry := store.BLPop(QueuedBattlesKey);
    store.Set(CurrentlyProcessingKey, entry);
    assert queue == [entry] + queue[1..];
    battle := Split(entry, ':');
  }

  /**
   * `finished_battle`: clears the current slot when it holds exactly this
   * room and tick, and otherwise changes nothing. With the slot empty the
   * source fails on `None.decode()`, so the slot must hold a value.
   */
  method FinishedBattle(store: Store, room: string, tick: string)
    requires store.Get(CurrentlyProcessingKey).Some?
    modifies store
    ensures old(store.Get(CurrentlyProcessingKey)).value == Queuing.EncodeBattle(room, tick) ==>
              store.data == old(store.data) - {CurrentlyProcessingKey}
    ensures old(store.Get(CurrentlyProcessingKey)).value != Queuing.EncodeBattle(room, tick) ==>
              store.data == old(store.data)
  {
    var current := store.Get(CurrentlyProcessingKey);
    if current.value == Queuing.EncodeBattle(room, tick) {
      store.Delete(CurrentlyProcessingKey);
    }
  }

  /**
   * Passing the two pieces `get_next_battle_blocking` returned to
   * `finished_battle` names exactly the entry in the slot, so the slot is
   * cleared, whenever the entry holds a single ':'.
   */
  lemma FinishMatchesTaken(entry: string)
    requires |Split(entry, ':')| == 2
    ensures Queuing.EncodeBattle(Split(entry, ':')[0], Split(entry, ':')[1]) == entry
  {
    JoinSplit(entry, ':');
    var parts := Split(entry, ':');
    assert Join(parts, [':']) == parts[0] + [':'] + parts[1];
  }
}
