/**
 * warreport/storage.py, the later storage layer: a username cache, the
 * per-room "ongoing" battle record kept as JSON, and an alliance cache
 * refreshed in bulk. The record's documented shapes are a datatype with a
 * validity predicate per shape. Keys carry the database prefix, which
 * comes from configuration and is a parameter here; expiry is not
 * modelled.
 */
module Storage {
  import opened Wrappers
  import opened Strings
  import opened RedisStore

  function UsernameCacheKey(prefix: string, userId: string): string {
    prefix + "cache:username:" + userId
  }

  function AllianceCacheKey(prefix: string, user: string): string {
    prefix + "cache:alliance:" + user
  }

  function AlliancesFetchedKey(prefix: string): string {
    prefix + "fetched-alliance-cache"
  }

  function BattleDataKey(prefix: string, room: string): string {
    prefix + "ongoing-data:" + room
  }

  lemma PrefixedKeyInjective(head: string, a: string, b: string)
    requires head + a == head + b
    ensures a == b
  {
    assert a == (head + a)[|head|..];
  }

  /** Keys of different caches never coincide. */
  lemma KeyFamiliesDistinct(prefix: string, id: string, user: string, room: string)
    ensures UsernameCacheKey(prefix, id) != AllianceCacheKey(prefix, user)
    ensures AlliancesFetchedKey(prefix) != AllianceCacheKey(prefix, user)
    ensures BattleDataKey(prefix, room) != AllianceCacheKey(prefix, user)
    ensures BattleDataKey(prefix, room) != UsernameCacheKey(prefix, id)
    ensures AlliancesFetchedKey(prefix) != UsernameCacheKey(prefix, id)
    ensures AlliancesFetchedKey(prefix) != BattleDataKey(prefix, room)
  {
    var n := |prefix|;
    assert UsernameCacheKey(prefix, id)[n + 6] == 'u';
    assert AllianceCacheKey(prefix, user)[n] == 'c' && AllianceCacheKey(prefix, user)[n + 6] == 'a';
    assert AlliancesFetchedKey(prefix)[n] == 'f';
    assert BattleDataKey(prefix, room)[n] == 'o';
    assert UsernameCacheKey(prefix, id)[n] == 'c';
  }

  /** `get_username` against the store contents `data`: the cached name, None when there is none. */
  function UsernameIn(data: map<string, Value>, prefix: string, userId: string): Option<string> {
    StrAt(data, UsernameCacheKey(prefix, userId))
  }

  /** A name written for one id reads back for that id, and for no other. */
  lemma UsernameReadBack(data: map<string, Value>, prefix: string, userId: string, username: string, other: string)
    ensures UsernameIn(data[UsernameCacheKey(prefix, userId) := Str(username)], prefix, userId) == Some(username)
    ensures other != userId ==>
              UsernameIn(data[UsernameCacheKey(prefix, userId) := Str(username)], prefix, other) == UsernameIn(data, prefix, other)
  {
    if UsernameCacheKey(prefix, other) == UsernameCacheKey(prefix, userId) {
      PrefixedKeyInjective(prefix + "cache:username:", other, userId);
    }
  }

  function GetUsername(store: Store, prefix: string, userId: string): Option<string>
    reads store
  {
    UsernameIn(store.data, prefix, userId)
  }

  /** `set_username`. */
  method SetUsername(store: Store, prefix: string, userId: string, username: string)
    modifies store
    ensures store.data == old(store.data)[UsernameCacheKey(prefix, userId) := Str(username)]
    ensures GetUsername(store, prefix, userId) == Some(username)
  {
    UsernameReadBack(store.data, prefix, userId, username, userId);
    store.Set(UsernameCacheKey(prefix, userId), username);
  }

  /** The record stored for `room`, None when there is none. */
  function OngoingDataIn(data: map<string, Value>, prefix: string, room: string): Option<JsonValue> {
    JsonAt(data, BattleDataKey(prefix, room))
  }

  /** A record stored for one room reads back equal, and every other room's record is as it was. */
  lemma OngoingDataReadBack(data: map<string, Value>, prefix: string, room: string, doc: JsonValue, other: string)
    ensures OngoingDataIn(data[BattleDataKey(prefix, room) := Json(doc)], prefix, room) == Some(doc)
    ensures other != room ==>
              OngoingDataIn(data[BattleDataKey(prefix, room) := Json(doc)], prefix, other) == OngoingDataIn(data, prefix, other)
  {
    if BattleDataKey(prefix, other) == BattleDataKey(prefix, room) {
      PrefixedKeyInjective(prefix + "ongoing-data:", other, room);
    }
  }

  /** `set_ongoing_data`: the record, as JSON, under the room's key. */
  method SetOngoingData(store: Store, prefix: string, room: string, dataMap: JsonValue)
    modifies store
    ensures store.data == old(store.data)[BattleDataKey(prefix, room) := Json(dataMap)]
    ensures OngoingDataIn(store.data, prefix, room) == Some(dataMap)
  {
    OngoingDataReadBack(store.data, prefix, room, dataMap, room);
    store.SetJson(BattleDataKey(prefix, room), dataMap);
  }

  /** `get_ongoing_data`: the stored record; with nothing stored the source fails on `None.decode()`. */
  function GetOngoingData(store: Store, prefix: string, room: string): JsonValue
    requires OngoingDataIn(store.data, prefix, room).Some?
    reads store
  {
    store.GetJson(BattleDataKey(prefix, room)).value
  }

  /** `is_alliance_data_recent`: whether the freshness flag exists. */
  function IsAllianceDataRecent(store: Store, prefix: string): bool
    reads store
  {
    store.Exists(AlliancesFetchedKey(prefix))
  }

  /** `get_cached_alliance`: the cached alliance, None when there is none. */
  function GetCachedAlliance(store: Store, prefix: string, user: string): Option<string>
    reads store
  {
    StrAt(store.data, AllianceCacheKey(prefix, user))
  }

  /** The alliance of the last pair naming `user`, None when no pair does. */
  function LastAlliance(pairs: seq<(string, string)>, user: string): Option<string>
  {
    if pairs == [] then None
    else
      var n := |pairs| - 1;
      if pairs[n].0 == user then Some(pairs[n].1) else LastAlliance(pairs[..n], user)
  }

  /**
   * A user has an alliance exactly when some pair names it, and then the
   * alliance is that of a pair naming it with no later pair naming it.
   */
  lemma {:induction false} LastAllianceIsLastPair(pairs: seq<(string, string)>, user: string)
    ensures LastAlliance(pairs, user).Some? <==> exists i :: 0 <= i < |pairs| && pairs[i].0 == user
    ensures LastAlliance(pairs, user).Some? ==>
              exists i :: 0 <= i < |pairs| && pairs[i] == (user, LastAlliance(pairs, user).value) &&
                          forall j :: i < j < |pairs| ==> pairs[j].0 != user
  {
    if pairs != [] {
      var n := |pairs| - 1;
      var init := pairs[..n];
      if pairs[n].0 == user {
        assert pairs[n] == (user, pairs[n].1);
      } else {
        LastAllianceIsLastPair(init, user);
        if i :| 0 <= i < |pairs| && pairs[i].0 == user {
          assert init[i] == pairs[i];
        }
        var a := LastAlliance(init, user);
        if a.Some? {
          var i :| 0 <= i < n && init[i] == (user, a.value) && forall j :: i < j < n ==> init[j].0 != user;
          assert pairs[i] == init[i];
          forall j | i < j < |pairs|
            ensures pairs[j].0 != user
          {
            if j < n {
              assert pairs[j] == init[j];
            }
          }
        }
      }
    }
  }

  /** The cache contents after one write per pair, in order. */
  function WithAlliances(data: map<string, Value>, prefix: string, pairs: seq<(string, string)>): map<string, Value>
  {
    if pairs == [] then data
    else
      var n := |pairs| - 1;
      WithAlliances(data, prefix, pairs[..n])[AllianceCacheKey(prefix, pairs[n].0) := Str(pairs[n].1)]
  }

  /** The cache keys of the users the pairs name. */
  function AllianceKeys(prefix: string, pairs: seq<(string, string)>): set<string> {
    set i | 0 <= i < |pairs| :: AllianceCacheKey(prefix, pairs[i].0)
  }

  /** After the writes a user reads the alliance of the last pair naming it, or what it read before when none does. */
  lemma {:induction false} WithAlliancesLookup(data: map<string, Value>, prefix: string, pairs: seq<(string, string)>, user: string)
    ensures StrAt(WithAlliances(data, prefix, pairs), AllianceCacheKey(prefix, user)) ==
            if LastAlliance(pairs, user).Some? then LastAlliance(pairs, user) else StrAt(data, AllianceCacheKey(prefix, user))
  {
    if pairs != [] {
      var n := |pairs| - 1;
      WithAlliancesLookup(data, prefix, pairs[..n], user);
      if AllianceCacheKey(prefix, pairs[n].0) == AllianceCacheKey(prefix, user) {
        PrefixedKeyInjective(prefix + "cache:alliance:", pairs[n].0, user);
      }
    }
  }

  /** The writes touch no key but the listed users' cache keys. */
  lemma {:induction false} WithAlliancesFrame(data: map<string, Value>, prefix: string, pairs: seq<(string, string)>, k: string)
    requires k !in AllianceKeys(prefix, pairs)
    ensures k in WithAlliances(data, prefix, pairs) <==> k in data
    ensures k in data ==> WithAlliances(data, prefix, pairs)[k] == data[k]
  {
    if pairs != [] {
      var n := |pairs| - 1;
      assert AllianceKeys(prefix, pairs[..n]) <= AllianceKeys(prefix, pairs) by {
        forall i | 0 <= i < n
          ensures pairs[..n][i] == pairs[i]
        {
        }
      }
      assert AllianceCacheKey(prefix, pairs[n].0) in AllianceKeys(prefix, pairs);
      WithAlliancesFrame(data, prefix, pairs[..n], k);
    }
  }

  /**
   * `update_alliance_data`: one pipeline that sets the freshness flag and
   * then each pair's alliance in order, so a user named twice keeps the
   * later alliance.
   */
  method UpdateAllianceData(store: Store, prefix: string, pairs: seq<(string, string)>)
    modifies store
    ensures store.data == WithAlliances(old(store.data)[AlliancesFetchedKey(prefix) := Str("1")], prefix, pairs)
    ensures IsAllianceDataRecent(store, prefix)
    ensures forall user :: GetCachedAlliance(store, prefix, user) ==
              if LastAlliance(pairs, user).Some? then LastAlliance(pairs, user) else old(GetCachedAlliance(store, prefix, user))
    ensures forall k :: k != AlliancesFetchedKey(prefix) && k !in AllianceKeys(prefix, pairs) ==>
              (k in store.data <==> k in old(store.data)) && (k in store.data ==> store.data[k] == old(store.data)[k])
  {
    ghost var flagged := old(store.data)[AlliancesFetchedKey(prefix) := Str("1")];
    store.Set(AlliancesFetchedKey(prefix), "1");
    for i := 0 to |pairs|
      invariant store.data == WithAlliances(flagged, prefix, pairs[..i])
    {
      var (user, alliance) := pairs[i];
      store.Set(AllianceCacheKey(prefix, user), alliance);
      assert pairs[..i + 1][..i] == pairs[..i];
    }
    assert pairs[..|pairs|] == pairs;
    WithAlliancesFrame(flagged, prefix, pairs, AlliancesFetchedKey(prefix)) by {
      forall i | 0 <= i < |pairs|
        ensures AllianceCacheKey(prefix, pairs[i].0) != AlliancesFetchedKey(prefix)
      {
        KeyFamiliesDistinct(prefix, "", pairs[i].0, "");
      }
    }
    forall user
      ensures GetCachedAlliance(store, prefix, user) ==
              if LastAlliance(pairs, user).Some? then LastAlliance(pairs, user) else old(GetCachedAlliance(store, prefix, user))
    {
      WithAlliancesLookup(flagged, prefix, pairs, user);
      KeyFamiliesDistinct(prefix, "", user, "");
    }
    forall k | k != AlliancesFetchedKey(prefix) && k !in AllianceKeys(prefix, pairs)
      ensures (k in store.data <==> k in old(store.data)) && (k in store.data ==> store.data[k] == old(store.data)[k])
    {
      WithAlliancesFrame(flagged, prefix, pairs, k);
    }
  }

  /**
   * The battle record of the module documentation. Every field is
   * optional, as a key of the dict may be missing; `owner` holds None for
   * a JSON null (an unowned, unreserved room), and an alliance of None is
   * a player without one.
   */
  datatype BattleRecord = BattleRecord(
    maxTickChecked: Option<int>,
    tickToCheck: Option<int>,
    playerCreepCounts: Option<map<string, map<string, int>>>,
    creepsFound: Option<seq<string>>,
    owner: Option<Option<string>>,
    rcl: Option<int>,
    earliestHostilitiesDetected: Option<int>,
    earliestHostilitiesCollided: Option<bool>,
    latestHostilitiesDetected: Option<int>,
    duration: Option<int>,
    stopCheckingAt: Option<int>,
    battleStillOngoing: Option<bool>,
    alliances: Option<map<string, Option<string>>>,
    room: Option<string>)

  /** Owner and level as documented: the level is never negative, and 0 for a room without owner. */
  predicate RoomFacts(r: BattleRecord) {
    r.owner.Some? && r.rcl.Some? && r.rcl.value >= 0 &&
    (r.owner.value.None? ==> r.rcl.value == 0)
  }

  /** Freshly found: only the first tick to check and the tick to stop at. */
  predicate IsFreshlyFound(r: BattleRecord) {
    r == BattleRecord(None, r.tickToCheck, None, None, None, None, None, None, None, None, r.stopCheckingAt, None, None, None) &&
    r.tickToCheck.Some? && r.stopCheckingAt.Some?
  }

  /** History collection under way: the working fields and everything found so far, nothing of the final report. */
  predicate IsInProgress(r: BattleRecord) {
    r.maxTickChecked.Some? && r.tickToCheck.None? && r.playerCreepCounts.Some? && r.creepsFound.Some? &&
    RoomFacts(r) && r.earliestHostilitiesDetected.Some? && r.earliestHostilitiesCollided.Some? &&
    r.latestHostilitiesDetected.Some? && r.duration.None? && r.stopCheckingAt.Some? &&
    r.battleStillOngoing.None? && r.alliances.None? && r.room.None?
  }

  /**
   * Complete and queued for reporting: the report's fields, every player
   * listed in `alliances`, and `duration` the span from the earliest to
   * the latest hostilities; none of the working fields.
   */
  predicate IsComplete(r: BattleRecord) {
    r.maxTickChecked.None? && r.tickToCheck.None? && r.playerCreepCounts.Some? && r.creepsFound.None? &&
    RoomFacts(r) && r.earliestHostilitiesDetected.Some? && r.earliestHostilitiesCollided.Some? &&
    r.latestHostilitiesDetected.Some? && r.stopCheckingAt.None? && r.battleStillOngoing.Some? &&
    r.alliances.Some? && r.alliances.value.Keys == r.playerCreepCounts.value.Keys && r.room.Some? &&
    r.duration == Some(r.latestHostilitiesDetected.value - r.earliestHostilitiesDetected.value)
  }

  predicate ValidRecord(r: BattleRecord) {
    IsFreshlyFound(r) || IsInProgress(r) || IsComplete(r)
  }

  /** The record a room starts with when first submitted for processing. */
  function FreshlyFound(tickToCheck: int, stopCheckingAt: int): (r: BattleRecord)
    ensures IsFreshlyFound(r) && r.tickToCheck == Some(tickToCheck) && r.stopCheckingAt == Some(stopCheckingAt)
  {
    BattleRecord(None, Some(tickToCheck), None, None, None, None, None, None, None, None, Some(stopCheckingAt), None, None, None)
  }

  /**
   * A valid record is in exactly one shape; `tick_to_check` marks the
   * freshly found shape and `max_tick_checked` the in-progress one, so the
   * two never appear together; a freshly found record is determined by its
   * two ticks.
   */
  lemma RecordShapes(r: BattleRecord)
    requires ValidRecord(r)
    ensures IsFreshlyFound(r) ==> !IsInProgress(r) && !IsComplete(r)
    ensures IsInProgress(r) ==> !IsComplete(r)
    ensures r.tickToCheck.Some? <==> IsFreshlyFound(r)
    ensures r.maxTickChecked.Some? <==> IsInProgress(r)
    ensures !(r.tickToCheck.Some? && r.maxTickChecked.Some?)
    ensures IsFreshlyFound(r) ==> r == FreshlyFound(r.tickToCheck.value, r.stopCheckingAt.value)
    ensures IsComplete(r) ==> r.duration.value == r.latestHostilitiesDetected.value - r.earliestHostilitiesDetected.value
  {
  }

  // The record as the JSON object `json.dumps` writes: one member per present field.

  function IntJson(i: int): JsonValue { JInt(i) }
  function IntOf(j: JsonValue): Option<int> { if j.JInt? then Some(j.i) else None }

  function BoolJson(b: bool): JsonValue { JBool(b) }
  function BoolOf(j: JsonValue): Option<bool> { if j.JBool? then Some(j.b) else None }

  function StringJson(s: string): JsonValue { JString(s) }
  function StringOf(j: JsonValue): Option<string> { if j.JString? then Some(j.s) else None }

  function NullableJson(v: Option<string>): JsonValue { if v.Some? then JString(v.value) else JNull }
  function NullableOf(j: JsonValue): Option<Option<string>> {
    match j
    case JNull => Some(None)
    case JString(s) => Some(Some(s))
    case _ => None
  }

  function IdsJson(ids: seq<string>): JsonValue {
    JArray(seq(|ids|, i requires 0 <= i < |ids| => JString(ids[i])))
  }

  function IdsOf(j: JsonValue): Option<seq<string>> {
    if j.JArray? && forall i :: 0 <= i < |j.items| ==> j.items[i].JString? then
      Some(seq(|j.items|, i requires 0 <= i < |j.items| => j.items[i].s))
    else None
  }

  function CountsJson(counts: map<string, map<string, int>>): JsonValue {
    JObject(map name | name in counts :: JObject(map t | t in counts[name] :: JInt(counts[name][t])))
  }

  predicate IsIntObject(j: JsonValue) {
    j.JObject? && forall t :: t in j.fields ==> j.fields[t].JInt?
  }

  function CountsOf(j: JsonValue): Option<map<string, map<string, int>>> {
    if j.JObject? && forall name :: name in j.fields ==> IsIntObject(j.fields[name]) then
      Some(map name | name in j.fields :: map t | t in j.fields[name].fields :: j.fields[name].fields[t].i)
    else None
  }

  function AlliancesJson(alliances: map<string, Option<string>>): JsonValue {
    JObject(map name | name in alliances :: NullableJson(alliances[name]))
  }

  function AlliancesOf(j: JsonValue): Option<map<string, Option<string>>> {
    if j.JObject? && forall name :: name in j.fields ==> NullableOf(j.fields[name]).Some? then
      Some(map name | name in j.fields :: NullableOf(j.fields[name]).value)
    else None
  }

  /** A present field, encoded. */
  function Encoded<T>(field: Option<T>, encode: T -> JsonValue): Option<JsonValue> {
    if field.Some? then Some(encode(field.value)) else None
  }

  /** Reads member `key`: Some(None) when it is missing, None when it does not decode. */
  function ReadField<T>(members: map<string, JsonValue>, key: string, decode: JsonValue -> Option<T>): Option<Option<T>> {
    if key !in members then Some(None)
    else if decode(members[key]).Some? then Some(Some(decode(members[key]).value))
    else None
  }

  /** The member names the module documentation uses. */
  const RecordKeys: set<string> := {
    "max_tick_checked", "tick_to_check", "player_creep_counts", "creeps_found", "owner", "rcl",
    "earliest_hostilities_detected", "earliest_hostilities_collided", "latest_hostilities_detected",
    "duration", "stop_checking_at", "battle_still_ongoing", "alliances", "room"
  }

  /** The JSON member a record has under `key`, None when the field is absent. */
  function Member(r: BattleRecord, key: string): Option<JsonValue> {
    if key == "max_tick_checked" then Encoded(r.maxTickChecked, IntJson)
    else if key == "tick_to_check" then Encoded(r.tickToCheck, IntJson)
    else if key == "player_creep_counts" then Encoded(r.playerCreepCounts, CountsJson)
    else if key == "creeps_found" then Encoded(r.creepsFound, IdsJson)
    else if key == "owner" then Encoded(r.owner, NullableJson)
    else if key == "rcl" then Encoded(r.rcl, IntJson)
    else if key == "earliest_hostilities_detected" then Encoded(r.earliestHostilitiesDetected, IntJson)
    else if key == "earliest_hostilities_collided" then Encoded(r.earliestHostilitiesCollided, BoolJson)
    else if key == "latest_hostilities_detected" then Encoded(r.latestHostilitiesDetected, IntJson)
    else if key == "duration" then Encoded(r.duration, IntJson)
    else if key == "stop_checking_at" then Encoded(r.stopCheckingAt, IntJson)
    else if key == "battle_still_ongoing" then Encoded(r.battleStillOngoing, BoolJson)
    else if key == "alliances" then Encoded(r.alliances, AlliancesJson)
    else if key == "room" then Encoded(r.room, StringJson)
    else None
  }

  /** `json.dumps(data_map)`: one member per present field. */
  function RecordJson(r: BattleRecord): JsonValue {
    JObject(map key | key in RecordKeys && Member(r, key).Some? :: Member(r, key).value)
  }

  /** The record a stored JSON object describes; None when it is no object or a member has the wrong type. */
  function RecordOf(j: JsonValue): Option<BattleRecord> {
    if !j.JObject? then None
    else
      var m := j.fields;
      var maxTickChecked := ReadField(m, "max_tick_checked", IntOf);
      var tickToCheck := ReadField(m, "tick_to_check", IntOf);
      var playerCreepCounts := ReadField(m, "player_creep_counts", CountsOf);
      var creepsFound := ReadField(m, "creeps_found", IdsOf);
      var owner := ReadField(m, "owner", NullableOf);
      var rcl := ReadField(m, "rcl", IntOf);
      var earliest := ReadField(m, "earliest_hostilities_detected", IntOf);
      var collided := ReadField(m, "earliest_hostilities_collided", BoolOf);
      var latest := ReadField(m, "latest_hostilities_detected", IntOf);
      var duration := ReadField(m, "duration", IntOf);
      var stopCheckingAt := ReadField(m, "stop_checking_at", IntOf);
      var stillOngoing := ReadField(m, "battle_still_ongoing", BoolOf);
      var alliances := ReadField(m, "alliances", AlliancesOf);
      var room := ReadField(m, "room", StringOf);
      if maxTickChecked.Some? && tickToCheck.Some? && playerCreepCounts.Some? && creepsFound.Some? &&
         owner.Some? && rcl.Some? && earliest.Some? && collided.Some? && latest.Some? && duration.Some? &&
         stopCheckingAt.Some? && stillOngoing.Some? && alliances.Some? && room.Some?
      then
        Some(BattleRecord(maxTickChecked.value, tickToCheck.value, playerCreepCounts.value, creepsFound.value,
                          owner.value, rcl.value, earliest.value, collided.value, latest.value, duration.value,
                          stopCheckingAt.value, stillOngoing.value, alliances.value, room.value))
      else None
  }

  lemma IdsRoundTrip(ids: seq<string>)
    ensures IdsOf(IdsJson(ids)) == Some(ids)
  {
    var back := IdsOf(IdsJson(ids));
    assert back.value == ids;
  }

  lemma CountsRoundTrip(counts: map<string, map<string, int>>)
    ensures CountsOf(CountsJson(counts)) == Some(counts)
  {
    var j := CountsJson(counts);
    assert j.fields.Keys == counts.Keys;
    forall name | name in j.fields
      ensures IsIntObject(j.fields[name])
      ensures (map t | t in j.fields[name].fields :: j.fields[name].fields[t].i) == counts[name]
    {
      var inner := j.fields[name].fields;
      assert inner.Keys == counts[name].Keys;
    }
    var back := CountsOf(j).value;
    assert back.Keys == counts.Keys;
    assert back == counts;
  }

  lemma AlliancesRoundTrip(alliances: map<string, Option<string>>)
    ensures AlliancesOf(AlliancesJson(alliances)) == Some(alliances)
  {
    var j := AlliancesJson(alliances);
    assert j.fields.Keys == alliances.Keys;
    forall name | name in j.fields
      ensures NullableOf(j.fields[name]) == Some(alliances[name])
    {
    }
    var back := AlliancesOf(j).value;
    assert back.Keys == alliances.Keys;
    assert back == alliances;
  }

  /** A field stored under `key` reads back through a decoder that undoes its encoder. */
  lemma MemberReadBack<T>(r: BattleRecord, key: string, field: Option<T>,
                          encode: T -> JsonValue, decode: JsonValue -> Option<T>)
    requires key in RecordKeys && Member(r, key) == Encoded(field, encode)
    requires field.Some? ==> decode(encode(field.value)) == Some(field.value)
    ensures ReadField(RecordJson(r).fields, key, decode) == Some(field)
  {
  }

  lemma WorkingMembersReadBack(r: BattleRecord)
    ensures var m := RecordJson(r).fields;
            ReadField(m, "max_tick_checked", IntOf) == Some(r.maxTickChecked) &&
            ReadField(m, "tick_to_check", IntOf) == Some(r.tickToCheck) &&
            ReadField(m, "player_creep_counts", CountsOf) == Some(r.playerCreepCounts) &&
            ReadField(m, "creeps_found", IdsOf) == Some(r.creepsFound) &&
            ReadField(m, "stop_checking_at", IntOf) == Some(r.stopCheckingAt)
  {
    if r.playerCreepCounts.Some? {
      CountsRoundTrip(r.playerCreepCounts.value);
    }
    if r.creepsFound.Some? {
      IdsRoundTrip(r.creepsFound.value);
    }
    MemberReadBack(r, "max_tick_checked", r.maxTickChecked, IntJson, IntOf);
    MemberReadBack(r, "tick_to_check", r.tickToCheck, IntJson, IntOf);
    MemberReadBack(r, "player_creep_counts", r.playerCreepCounts, CountsJson, CountsOf);
    MemberReadBack(r, "creeps_found", r.creepsFound, IdsJson, IdsOf);
    MemberReadBack(r, "stop_checking_at", r.stopCheckingAt, IntJson, IntOf);
  }

  lemma RoomMembersReadBack(r: BattleRecord)
    ensures var m := RecordJson(r).fields;
            ReadField(m, "owner", NullableOf) == Some(r.owner) &&
            ReadField(m, "rcl", IntOf) == Some(r.rcl) &&
            ReadField(m, "earliest_hostilities_detected", IntOf) == Some(r.earliestHostilitiesDetected) &&
            ReadField(m, "earliest_hostilities_collided", BoolOf) == Some(r.earliestHostilitiesCollided) &&
            ReadField(m, "latest_hostilities_detected", IntOf) == Some(r.latestHostilitiesDetected)
  {
    MemberReadBack(r, "owner", r.owner, NullableJson, NullableOf);
    MemberReadBack(r, "rcl", r.rcl, IntJson, IntOf);
    MemberReadBack(r, "earliest_hostilities_detected", r.earliestHostilitiesDetected, IntJson, IntOf);
    MemberReadBack(r, "earliest_hostilities_collided", r.earliestHostilitiesCollided, BoolJson, BoolOf);
    MemberReadBack(r, "latest_hostilities_detected", r.latestHostilitiesDetected, IntJson, IntOf);
  }

  lemma ReportMembersReadBack(r: BattleRecord)
    ensures var m := RecordJson(r).fields;
            ReadField(m, "duration", IntOf) == Some(r.duration) &&
            ReadField(m, "battle_still_ongoing", BoolOf) == Some(r.battleStillOngoing) &&
            ReadField(m, "alliances", AlliancesOf) == Some(r.alliances) &&
            ReadField(m, "room", StringOf) == Some(r.room)
  {
    if r.alliances.Some? {
      AlliancesRoundTrip(r.alliances.value);
    }
    MemberReadBack(r, "duration", r.duration, IntJson, IntOf);
    MemberReadBack(r, "battle_still_ongoing", r.battleStillOngoing, BoolJson, BoolOf);
    MemberReadBack(r, "alliances", r.alliances, AlliancesJson, AlliancesOf);
    MemberReadBack(r, "room", r.room, StringJson, StringOf);
  }

  /** `json.loads(json.dumps(record))` gives the record back, whatever fields it has. */
  lemma RecordRoundTrip(r: BattleRecord)
    ensures RecordOf(RecordJson(r)) == Some(r)
  {
    WorkingMembersReadBack(r);
    RoomMembersReadBack(r);
    ReportMembersReadBack(r);
  }
}
