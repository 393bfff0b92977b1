# screeps-warreport core, modelled in Dafny

screeps-warreport watches rooms of the game Screeps for battles, counts
each player's creep body parts in the room history around the start of a
battle, and posts a one-line report for battles with at least two
players. This project models the part of it that keeps its state in Redis
and turns history into a report:

- `queuing.dfy` (`warreport/queuing.py`): the processing queue and the
  reporting queue. Battles are pushed as `room:tick` entries. A worker
  takes the oldest one by rotating it to the head of the list. When the
  worker is done, it removes the entry and pushes a report. A poster
  takes reports from the tail and removes each one once it is posted.
- `data_caching.dfy` (`warreport/data_caching.py`): the older cache
  layer. It holds username entries, a hash of player counts per
  (room, tick), a short-lived "history not available yet" flag, and the
  queue of unreported battles with its "currently processing" marker.
- `screeps_info.dfy` (`warreport/screeps_info.py`): `username_from_id`
  and `get_battledata`.
  - The twelve 20-tick history windows around a battle are fetched in
    order.
  - Every object of every tick is folded into a tally. A creep's parts
    count once, at its first sighting, for its owner.
  - Owners are then resolved to names, and the counts are cached by
    name.
- `battle_reporting.dfy` (`warreport/battle_reporting.py`):
  - `should_report` and `describe_room`;
  - `describe_battle`: players by descending part total, sorted stably,
    and each player's parts by type;
  - `format_message`: a link five ticks before hostilities.
- `storage.dfy` (`warreport/storage.py`): the newer cache layer.
  - Username, alliance and ongoing-battle-data entries under the
    `key_constants.py` key families.
  - The three shapes of a stored battle record, as the module's
    documentation describes them.
  - The JSON form of a record.
- `redis_store.dfy`: the Redis commands the core uses, as a `Store` class
  whose `data` field maps keys to strings, lists, hashes and JSON
  documents. The reads GET, EXISTS, LRANGE and HGETALL are functions of
  the map. The writes SET, DEL, LPUSH, RPUSH, BRPOPLPUSH of a list onto
  itself, LREM with count −1, BLPOP on a non-empty list and HMSET are
  methods, each with an `ensures` that gives the whole new map.
- `strings.dfy`: `str()` and `int()` of integers, `str.split` on one
  character, `str.join`, and Python's string order.

HTTP calls are parameters:
- `history: int -> HistoryResponse` answers a window's status and ticks;
- `users: string -> UserLookup` answers a user-id lookup.

The Redis connection is a `Store` object passed to every operation. The
database prefix of `queuing.py` and `key_constants.py` is a `prefix`
parameter.

Two choices follow the source's own text:
- A complete record's `duration` is `latest − earliest`, as the record
  documentation at `warreport/storage.py:73-76` states.
- `get_player_counts` compares the byte-string keys that Redis returns
  with the text `'__$checked'`. That comparison never matches, so the
  sentinel field of an empty result is returned, not filtered out.
  `DataCaching.GetPlayerCounts` keeps that behaviour.

## Model

| member | source | states |
|---|---|---|
| Queuing.QueuesDistinct | warreport/queuing.py:5-8 | the processing and the reporting queue are different keys under any prefix |
| Queuing.EncodeBattle | warreport/queuing.py:16 | the `"{}:{}".format(room, tick)` entry; its read-back is DecodeEncode |
| Queuing.DecodeBattle | warreport/queuing.py:31 | `raw.decode().split(':')` unpacked into two values, None for the ValueError; proved against EncodeBattle by DecodeEncode and DecodeEncodeExtraColon |
| Queuing.EncodeAll | warreport/queuing.py:16-17 | one `room:tick` entry per battle, in the given order |
| Queuing.DecodeEncode | warreport/queuing.py:31 | splitting an entry on `:` gives the room and tick back when neither holds a colon |
| Queuing.DecodeEncodeExtraColon | warreport/queuing.py:31 | an entry whose room or tick holds a colon does not unpack into two values |
| Queuing.DecodeEncodeNumericTick | warreport/queuing.py:31 | for an integer tick, the decoded tick string reads back as the same integer |
| Queuing.TakeThenRemove | warreport/queuing.py:30-43 | taking an entry and then removing it drops exactly one copy of it; a unique entry leaves the rest of the queue in its old order |
| Queuing.PushBattlesForProcessing | warreport/queuing.py:11-17 | the queue becomes the encoded battles in reverse order in front of the old queue; no other key changes |
| Queuing.GetNextBattleToProcess | warreport/queuing.py:20-32 | returns the oldest entry (the tail) and moves it to the head; the battle is that entry split on `:` |
| Queuing.SubmitProcessedBattle | warreport/queuing.py:35-45 | the last copy of the entry leaves the processing queue, the report goes onto the head of the reporting queue, and no other key changes |
| Queuing.GetNextBattleToReport | warreport/queuing.py:48-63 | returns the oldest report (the tail) and moves it to the head, so an unposted report is not lost; the report is that entry as `json.loads` reads it, None when it is no JSON |
| Queuing.MarkBattleReported | warreport/queuing.py:66-75 | the last copy of the report leaves the reporting queue; a report that is not queued leaves the queue unchanged |
| DataCaching.GetUsername | warreport/data_caching.py:19-25 | the cached name, None when absent; SetUsername proves it reads back |
| DataCaching.GetPlayerCounts | warreport/data_caching.py:33-38 | the stored hash when non-empty, sentinel included, else None; SetPlayerCounts and StoredCountsReadBack prove what it reads after a write |
| DataCaching.StoredCounts | warreport/data_caching.py:41-43 | the hash `set_player_counts` writes; StoredCountsReadBack states its meaning |
| DataCaching.GetBattleDataNotYetAvail | warreport/data_caching.py:51-53 | the raw flag; SetBattleDataNotYetAvail proves it reads truthy after a write |
| DataCaching.UsernameKeyInjective | warreport/data_caching.py:6 | different user ids have different username keys |
| DataCaching.RoomTickKeyInjective | warreport/data_caching.py:9-12 | two player-count keys under the same prefix are equal only for the same room and tick, whatever colons the rooms hold |
| DataCaching.KeyFamiliesDistinct | warreport/data_caching.py:6-12 | username, player-count and not-available keys never collide |
| DataCaching.PlayerCountsKeyIsNoUsernameKey | warreport/data_caching.py:6-9 | no player-count key lies in the username family |
| DataCaching.UsernameWriteKeepsOthers | warreport/data_caching.py:28-30 | writing a username entry changes nothing outside the username family |
| DataCaching.SetUsername | warreport/data_caching.py:28-30 | the name reads back for that id; every other id reads as before |
| DataCaching.StoredCountsReadBack | warreport/data_caching.py:41-48 | the stored hash is never empty: the counts as decimal text that reads back to them, or the `__$checked` sentinel alone for no counts |
| DataCaching.SetPlayerCounts | warreport/data_caching.py:41-48 | the hash is merged into the key, after which the room and tick read as cached |
| DataCaching.SetBattleDataNotYetAvail | warreport/data_caching.py:56-58 | the flag for this room and tick becomes truthy; every other room and tick reads as before |
| DataCaching.AddBattleToQueue | warreport/data_caching.py:61-62 | the encoded battle is appended at the tail of the unreported queue |
| DataCaching.AddBattlesToQueue | warreport/data_caching.py:65-67 | the encoded battles are appended in order at the tail |
| DataCaching.GetNextBattleBlocking | warreport/data_caching.py:70-79 | returns the current marker if it is set; otherwise pops the queue's head and makes it the marker; the result is always the marker split on `:` |
| DataCaching.FinishedBattle | warreport/data_caching.py:82-85 | the marker is deleted exactly when it names the given room and tick; otherwise nothing changes |
| DataCaching.FinishMatchesTaken | warreport/data_caching.py:79-85 | an entry that split into a room and a tick is matched again by the finish call for that room and tick |
| ScreepsInfo.WindowStart | warreport/screeps_info.py:38-47 | the first window starts on a multiple of 60, between 20 and 79 ticks before the battle, and the twelve windows reach at least 161 ticks past it |
| ScreepsInfo.RangeBy20Elements | warreport/screeps_info.py:57 | `range(start, start + 20n, 20)` has n elements, the k-th of which is start + 20k |
| ScreepsInfo.WindowsSpanBattle | warreport/screeps_info.py:38-57 | exactly twelve consecutive 20-tick windows, each on a multiple of 20, covering the 20 ticks before the battle and the 160 after it |
| ScreepsInfo.RangeBy20 | warreport/screeps_info.py:57 | `range(start, stop, 20)`; RangeBy20Elements states its length and elements |
| ScreepsInfo.Windows | warreport/screeps_info.py:38-57 | the ticks whose history is requested, in order; WindowsSpanBattle states which they are |
| ScreepsInfo.AnsweredPrefix | warreport/screeps_info.py:57-66 | the windows before the returned index answered 200, and the window at that index, if any, did not |
| ScreepsInfo.CountObject | warreport/screeps_info.py:72-77 | one pass of the inner loop; its effect is stated by FoldFound and FoldMatchesFirstSightings |
| ScreepsInfo.Fold | warreport/screeps_info.py:68-77 | the object loops over a run of objects; the Fold lemmas below state what it computes |
| ScreepsInfo.LookupName | warreport/screeps_info.py:20-34 | what `username_from_id` yields against a cache state; UsernameFromId is proved to return it |
| ScreepsInfo.FoldAppend | warreport/screeps_info.py:68-77 | counting two runs of objects one after the other is counting their concatenation |
| ScreepsInfo.FoldValid | warreport/screeps_info.py:55-77 | counting keeps the owner list free of repeats and exactly the owners with counts |
| ScreepsInfo.FoldFound | warreport/screeps_info.py:74-75 | the creeps found are the old ones plus every creep id seen |
| ScreepsInfo.FoldReplay | warreport/screeps_info.py:74-77 | objects whose creeps were all found already change nothing |
| ScreepsInfo.FoldTwice | warreport/screeps_info.py:68-77 | counting the same history twice counts nothing more |
| ScreepsInfo.FoldMatchesFirstSightings | warreport/screeps_info.py:68-77 | each owner's count is the sum of parts over the creeps at their first sighting, and the owners are those that own such a creep |
| ScreepsInfo.UsernameFromId | warreport/screeps_info.py:22-34 | a cached name is returned without a request; otherwise the lookup answer is returned and, when a name came back, cached |
| ScreepsInfo.ResolveAll | warreport/screeps_info.py:78-83 | on success, one name per owner, each the lookup's answer; on failure, some owner's lookup failed |
| ScreepsInfo.CountsByName | warreport/screeps_info.py:79 | every resolved name has an entry |
| ScreepsInfo.CountsByNameKeys | warreport/screeps_info.py:79 | the keys are exactly the resolved names |
| ScreepsInfo.CountsByNameLastWins | warreport/screeps_info.py:79 | a name's entry is the counts of the last owner resolved to it |
| ScreepsInfo.FreshCountsAreFirstSightings | warreport/screeps_info.py:68-79 | with distinct names, each name's count is its owner's parts at first sighting |
| ScreepsInfo.ResolveUsernames | warreport/screeps_info.py:78-83 | the counts by name are built exactly when every owner resolves; afterwards every owner's cache entry is as it was or holds the name looked up for it, all of them hold it when every owner resolved, and no key but the owners' username entries changes |
| ScreepsInfo.CountWindow | warreport/screeps_info.py:68-77 | the tally after a window is the fold of its ticks' objects in order |
| ScreepsInfo.CountWindows | warreport/screeps_info.py:57-77 | all windows are counted exactly when all answered 200; otherwise only the windows up to the first failure are requested |
| ScreepsInfo.NameAndCache | warreport/screeps_info.py:78-85 | when a name fails, the not-available flag is set and no counts are cached; otherwise the counts by name are cached and returned; the owners' username entries hold what the lookups cached, and no key changes beyond them and the flag (on failure) or the counts hash (on success) |
| ScreepsInfo.GetBattleData | warreport/screeps_info.py:37-85 | covers the four outcomes: cached counts, returned with no request; a set flag, giving None with no request and no write; a failed window, where the windows up to it are requested and only the flag is written; every window answered, with the outcome of name resolution, the usernames it cached, and no other key changed but the flag or the counts hash |
| BattleReporting.ShouldReport | warreport/battle_reporting.py:42-43 | at least two entries in `player_counts`; ShouldReportIffTwoPlayers states its meaning |
| BattleReporting.OwnerText | warreport/battle_reporting.py:57-59 | `str()` of the owner field, `None` for a null; used by DescribeRoomShape |
| BattleReporting.DescribeRoom | warreport/battle_reporting.py:54-61 | `describe_room`; DescribeRoomShape states its three cases |
| BattleReporting.RenderPart | warreport/battle_reporting.py:68 | one `count type[s]` part; ParseRenderPart proves it reads back |
| BattleReporting.RenderPlayer | warreport/battle_reporting.py:66-70 | one player with its parts in type order; SortByTypeProperties states that order |
| BattleReporting.DescribeBattle | warreport/battle_reporting.py:64-70 | the players in report order joined with ` vs. `; SortByTotalProperties and EveryPlayerOnce state that order |
| BattleReporting.FormatMessage | warreport/battle_reporting.py:46-51 | the report line; FormatMessageLinksBeforeHostilities states where it links |
| BattleReporting.DistinctNamesCount | warreport/battle_reporting.py:42-43 | a dict of players has as many names as entries |
| BattleReporting.ShouldReportIffTwoPlayers | warreport/battle_reporting.py:42-43 | a battle is reported if and only if at least two distinct players took part |
| BattleReporting.DescribeRoomShape | warreport/battle_reporting.py:54-61 | the description is empty exactly when the dict has no owner field; with one it is a space and parentheses around the owner's name (`None` for a null owner), followed, when the dict has a level, by a comma and the level, which reads back; the level is ignored without an owner |
| BattleReporting.Total | warreport/battle_reporting.py:65 | `sum(parts.values())`, the sort key; SortByTotalProperties orders by it |
| BattleReporting.InsertByTotal | warreport/battle_reporting.py:65 | one step of the stable sort; InsertByTotalPermutes, InsertByTotalSorted and InsertByTotalStable state it |
| BattleReporting.SortByTotal | warreport/battle_reporting.py:65 | `sorted(..., key=lambda t: -sum(t[1].values()))`; SortByTotalProperties states that it is descending, stable and a permutation |
| BattleReporting.InsertByTotalPermutes | warreport/battle_reporting.py:65 | inserting a player adds exactly that player |
| BattleReporting.InsertByTotalSorted | warreport/battle_reporting.py:65 | inserting into a list by descending total keeps it descending |
| BattleReporting.InsertByTotalStable | warreport/battle_reporting.py:65 | inserting keeps the order among players of equal total, with the new one last |
| BattleReporting.SortByTotalDescending | warreport/battle_reporting.py:65 | the sort orders by descending part total and permutes the players |
| BattleReporting.SortByTotalStable | warreport/battle_reporting.py:65 | players of equal total keep their dict order |
| BattleReporting.SortByTotalProperties | warreport/battle_reporting.py:65 | `sorted(..., key=-total)`: descending by total, a permutation, and stable |
| BattleReporting.InsertByType | warreport/battle_reporting.py:69 | one step of the sort by type; InsertByTypePermutes and InsertByTypeProperties state it |
| BattleReporting.SortByType | warreport/battle_reporting.py:69 | `sorted(parts.items(), key=lambda t: t[0])`; SortByTypeProperties states that it is strictly ascending and a permutation |
| BattleReporting.InsertByTypePermutes | warreport/battle_reporting.py:69 | inserting a part adds exactly that part |
| BattleReporting.InsertByTypeProperties | warreport/battle_reporting.py:69 | inserting a new type into parts in strictly ascending type order keeps them strictly ascending |
| BattleReporting.SortByTypeProperties | warreport/battle_reporting.py:69 | the parts of a dict come out in strictly ascending type order, as a permutation |
| BattleReporting.ParseRenderPart | warreport/battle_reporting.py:68 | a rendered `count type[s]` reads back to the count and the type, despite the plural `s` |
| BattleReporting.EveryPlayerOnce | warreport/battle_reporting.py:64-70 | every player appears in the report order exactly once, and nothing else does |
| BattleReporting.LinkedTickReadsBack | warreport/battle_reporting.py:49-51 | the tick in a history link reads back from the message |
| BattleReporting.FormatMessageLinksBeforeHostilities | warreport/battle_reporting.py:46-51 | the report links to the room's history five ticks before hostilities began |
| Storage.KeyFamiliesDistinct | warreport/key_constants.py:9-18 | username, alliance, alliances-fetched and battle-data keys never collide |
| Storage.GetUsername | warreport/storage.py:239-245 | the cached name, None when absent; UsernameReadBack proves it reads back |
| Storage.GetOngoingData | warreport/storage.py:273-280 | the stored document of a room; OngoingDataReadBack and RecordRoundTrip prove it reads back |
| Storage.IsAllianceDataRecent | warreport/storage.py:283-284 | whether the fetched flag exists; UpdateAllianceData proves it holds after an update |
| Storage.GetCachedAlliance | warreport/storage.py:295-304 | the cached alliance of a user; WithAlliancesLookup and UpdateAllianceData state what it reads |
| Storage.UsernameReadBack | warreport/storage.py:239-250 | a stored name reads back for its id; other ids read as before |
| Storage.SetUsername | warreport/storage.py:248-250 | the name is stored under its key and reads back |
| Storage.OngoingDataReadBack | warreport/storage.py:260-280 | stored battle data reads back for its room; other rooms read as before |
| Storage.SetOngoingData | warreport/storage.py:260-270 | the document is stored under the room's key and reads back |
| Storage.LastAllianceIsLastPair | warreport/storage.py:289-291 | a user has an entry exactly when listed, and the later pair for a user wins |
| Storage.WithAlliancesLookup | warreport/storage.py:287-304 | after the writes, each user's alliance is the last one listed for it, and an unlisted user's entry is as before |
| Storage.WithAlliancesFrame | warreport/storage.py:287-292 | keys outside the written alliance keys are untouched |
| Storage.UpdateAllianceData | warreport/storage.py:287-292 | the fetched flag is set, each user reads its last listed alliance, and no other key changes |
| Storage.IsFreshlyFound | warreport/storage.py:110-121 | the freshly found record shape: only the tick to check and the tick to stop at; RecordShapes and FreshlyFound state it |
| Storage.IsInProgress | warreport/storage.py:123-169 | the record shape while history is collected; RecordShapes states it excludes the others |
| Storage.IsComplete | warreport/storage.py:171-222 | the complete record shape in the reporting queue, with `duration` latest minus earliest; RecordShapes states it |
| Storage.ValidRecord | warreport/storage.py:108-222 | a record in one of the three documented shapes; RecordShapes states they exclude each other |
| Storage.RecordJson | warreport/storage.py:270 | `json.dumps` of a record: one member per present field; RecordRoundTrip states it reads back |
| Storage.RecordOf | warreport/storage.py:280 | `json.loads` of a stored record, None for a document of the wrong shape; RecordRoundTrip states it inverts RecordJson |
| Storage.FreshlyFound | warreport/storage.py:110-121 | a new record is in the freshly found shape with the given ticks |
| Storage.RecordShapes | warreport/storage.py:110-222 | the three record shapes exclude each other, each is marked by its own field, and a complete record's duration is latest minus earliest |
| Storage.IdsRoundTrip | warreport/storage.py:260-280 | a list of creep ids survives JSON encoding |
| Storage.CountsRoundTrip | warreport/storage.py:260-280 | the nested player counts survive JSON encoding |
| Storage.AlliancesRoundTrip | warreport/storage.py:260-280 | the alliances map, with null alliances, survives JSON encoding |
| Storage.RecordRoundTrip | warreport/storage.py:260-280 | a stored record, whatever fields it has, loads back as the same record |
| RedisStore.LPushAllIsReverse | warreport/queuing.py:16-17 | LPUSH of several values puts them in reverse order in front |
| RedisStore.RPushAllIsAppend | warreport/data_caching.py:65-67 | RPUSH of several values appends them in order |
| RedisStore.RotateTailPreserves | warreport/queuing.py:30 | rotating the tail to the head keeps the list's contents |
| RedisStore.RotateTimesClosedForm | warreport/queuing.py:30 | k rotations move the last k entries to the front in order |
| RedisStore.RotateFullCycle | warreport/queuing.py:30 | as many rotations as entries restore the list |
| RedisStore.RotationOutputsClosedForm | warreport/queuing.py:30 | k successive takes return the last k entries, oldest first |
| RedisStore.LRemLastRemovesLastOccurrence | warreport/queuing.py:43 | LREM with count -1 removes the last occurrence of the value and nothing else |
| RedisStore.LRemLastMultiset | warreport/queuing.py:43 | LREM with count -1 removes exactly one copy of a present value |
| RedisStore.LRemLastLength | warreport/queuing.py:75 | the list shrinks by one exactly when the value was present |
| RedisStore.LRemLastRepeated | warreport/queuing.py:75 | removing a value that occurred at most once a second time changes nothing |
| RedisStore.Store.Get | warreport/data_caching.py:21 | `GET key` of a string value, None when absent; DataCaching.SetUsername and GetNextBattleBlocking state what it reads |
| RedisStore.Store.GetJson | warreport/storage.py:280 | `GET key` of a stored JSON document, None when the key holds none; Storage.GetOngoingData reads through it, and OngoingDataReadBack states what it reads after a write |
| RedisStore.Store.Exists | warreport/storage.py:284 | `EXISTS key`; UpdateAllianceData proves the fetched flag exists afterwards |
| RedisStore.Store.ListAt | warreport/queuing.py:30 | the list at a key, empty when absent; the queue methods state their new lists through it |
| RedisStore.Store.HashAt | warreport/data_caching.py:36 | `HGETALL key`, empty when absent; HMSet states the merged hash through it |
| RedisStore.Store.Set | warreport/data_caching.py:30 | `SET key value`: the key holds the string, and no other key changes |
| RedisStore.Store.SetJson | warreport/storage.py:270 | `SET key json.dumps(doc)`: the key holds the document, and no other key changes |
| RedisStore.Store.Delete | warreport/data_caching.py:85 | `DEL key`: the key is gone, and no other key changes |
| RedisStore.Store.LPush | warreport/queuing.py:16 | the key's list becomes the values pushed in front; no other key changes |
| RedisStore.Store.RPush | warreport/data_caching.py:62 | the key's list gets the values appended; no other key changes |
| RedisStore.Store.RotateTailToHead | warreport/queuing.py:30 | returns the tail and moves it to the head |
| RedisStore.Store.LRemFromTail | warreport/queuing.py:43 | the key's list loses the last copy of the value, and an emptied list disappears |
| RedisStore.Store.BLPop | warreport/data_caching.py:77 | returns the head and drops it, and an emptied list disappears |
| RedisStore.Store.HMSet | warreport/data_caching.py:46 | the fields are merged into the key's hash |
| Strings.ParseIntOfIntToString | warreport/battle_reporting.py:49-51 | `int(str(n)) == n` |
| Strings.IntToStringInjective | warreport/data_caching.py:9-12 | different ticks print differently |
| Strings.SplitJoin | warreport/queuing.py:31 | splitting a join gives the pieces back when none holds the separator |
| Strings.JoinSplit | warreport/data_caching.py:79-85 | joining the pieces of a split rebuilds the string |
| Strings.LastSeparatorUnique | warreport/data_caching.py:9-12 | a key ending in a separator and a separator-free tail splits there in one way only |
| Strings.LexLessTotal | warreport/battle_reporting.py:69 | Python's string order is total on different strings |
| Strings.LexLessTransitive | warreport/battle_reporting.py:69 | Python's string order is transitive |
| Strings.LexLessAsymmetric | warreport/battle_reporting.py:69 | Python's string order is asymmetric |

## Left out

- Key expiry (`ex=` and EXPIRE) is not modelled. An entry lives until it is overwritten or deleted, so the TTL of the not-available flag, the username cache and the player counts does not appear.
- Pipelines are modelled as their commands run one after another. Concurrent clients are not modelled. The single-instance assumption noted in `get_next_battle_blocking` is left out with them.
- Redis type errors (WRONGTYPE): list and hash writes require the key to hold that type or nothing. A read of a key of another type reads as absent, where Redis raises WRONGTYPE: `RedisStore.Store.Get` (and `DataCaching.GetUsername`, the marker read of `DataCaching.GetNextBattleBlocking`, `Storage.GetUsername`) gives None for a list or hash, `RedisStore.Store.ListAt` gives an empty list and `DataCaching.GetPlayerCounts` gives None for a key that holds no hash. A key holding a JSON document is a Redis string, so a real GET returns its text; `RedisStore.Store.Get` reads it as absent, because the modelled code only reads such keys through `GetJson`.
- RedisStore.Store.BLPop: blocking on an empty list is not modelled; it requires a non-empty list.
- RedisStore.Store.LPush, RedisStore.Store.RPush, RedisStore.Store.HMSet: each requires at least one value. Redis rejects an empty call, and the model does not treat that as an error path.
- Queuing.PushBattlesForProcessing and DataCaching.AddBattlesToQueue: they require at least one battle, because the Redis error for an empty push is not modelled.
- Queuing.GetNextBattleToProcess and Queuing.GetNextBattleToReport: they require a non-empty queue. BRPOPLPUSH blocks on an empty queue until an entry arrives, and blocking is not modelled.
- RedisStore.Store.RotateTailToHead: it requires a non-empty list, for the same reason.
- DataCaching.GetNextBattleBlocking: when no marker is set it requires a non-empty queue of unreported battles. BLPOP with no timeout blocks on an empty queue until an entry arrives, and blocking is not modelled.
- Storage.GetOngoingData: it requires the key to be present. The source raises on a missing key, and that is not modelled.
- JSON is modelled as a document value. Byte-level text, number formatting and `rapidjson` versus `json` are left out.
- RedisStore.JsonValue: an object is a map, so the order of its members is not kept. `json.dumps` and `json.loads` preserve the insertion order of a dict, and the model does not say in what order a stored record's fields come back.
- `Strings.ParseInt` reads only the decimal forms that `str()` produces. Python's `int()` also accepts whitespace, `+` and underscores.
- ScreepsInfo.GetBattleData: a 404 and any other non-200 status are both treated as "not available yet". Their log messages differ, and logging is left out.
- HTTP transport and response parsing are left out. Each lookup is a `UserLookup`: whether the status was a success, and the username when the answer has one.
- ScreepsInfo.GetBattleData: an answer of `{"user": null}` makes the source raise AttributeError at `warreport/screeps_info.py:28`. `get_battledata` catches only ScreepsError, so that exception escapes: no not-available flag is set, and the names already cached for earlier owners stay cached. The model treats that answer as a failed lookup, which sets the flag and gives None. A `user` object without a `username` is a ScreepsError in the source and a failed lookup in the model alike.
- ScreepsInfo.GetBattleData: it takes the centre tick as an integer, so the `int(center_tick)` conversion of `warreport/screeps_info.py:38` and its ValueError on a non-numeric tick are not modelled.
- DataCaching.FinishedBattle: it requires the "currently processing" marker to be set. With no marker the source raises AttributeError on `None.decode()` at `warreport/data_caching.py:84`, and that is not modelled.
- Storage.UpdateAllianceData: a `None` alliance in the input is not modelled. Each pair carries a string.
- BattleReporting.FormatMessage takes `hostilities_tick` as an integer, so the `int()` of a string tick is not modelled.
- The player counts that `get_player_counts` caches are strings, while `describe_battle` expects nested per-type counts. The two layers are modelled separately, each with its own shape.
- `report_battles`, `battle_monitor`, the signal handler, `__init__`/`__main__` and the battle reconstruction engine are outside the modelled core.
- The database prefix of `warreport/__init__.py` is not part of this model; it is the `prefix` parameter.
