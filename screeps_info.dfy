/**
 * warreport/screeps_info.py: resolving user ids to player names through a
 * cache and the game's user endpoint, and counting the body parts each
 * player brought to a battle from twelve room-history files around it.
 * The two HTTP endpoints are parameters: `users` answers the user lookup
 * for an id, `history` answers the history file starting at a tick.
 */
module ScreepsInfo {
  import opened Wrappers
  import opened Strings
  import opened RedisStore
  import DataCaching

  /** What the user endpoint answered: whether the status was a success, and `user.username` when the JSON has one. */
  datatype UserLookup = UserLookup(ok: bool, username: Option<string>)

  /**
   * One object's entry in a tick of a history file. `Removed` is an entry
   * with no truth value (JSON null or an empty object); otherwise the
   * entry's `type` (absent for updates to known objects), `user` and `body`.
   */
  datatype Snapshot =
    | Removed
    | Object(objType: Option<string>, user: string, body: seq<string>)

  /** The id-to-snapshot entries of one tick, in the file's order. */
  type TickObjects = seq<(string, Snapshot)>

  /** A history request's answer: its status and, for a 200, the file's ticks in order. */
  datatype HistoryResponse = HistoryResponse(status: int, ticks: seq<TickObjects>)

  /** `get_battledata`'s answer: the cached hash as stored, or counts freshly computed. */
  datatype PlayerCounts = Cached(raw: map<string, string>) | Fresh(counts: map<string, int>)

  /**
   * The first history file to fetch for a battle around `centerTick`:
   * aligned to 60 ticks, and far enough back that the twelve 20-tick
   * windows reach well past the centre. Python's `%` with a positive
   * divisor is never negative, as here.
   */
  function WindowStart(centerTick: int): (start: int)
    ensures start % 60 == 0
    ensures centerTick % 60 < 20 ==> 60 <= centerTick - start <= 79 && 161 <= start + 240 - centerTick <= 180
    ensures centerTick % 60 >= 20 ==> 20 <= centerTick - start <= 59 && 181 <= start + 240 - centerTick <= 220
  {
    if centerTick % 60 < 20 then centerTick - centerTick % 60 - 60 else centerTick - centerTick % 60
  }

  /** `range(start, stop, 20)`. */
  function RangeBy20(start: int, stop: int): seq<int>
    decreases stop - start
  {
    if start >= stop then [] else [start] + RangeBy20(start + 20, stop)
  }

  lemma {:induction false} RangeBy20Elements(start: int, n: nat)
    ensures |RangeBy20(start, start + 20 * n)| == n
    ensures forall k :: 0 <= k < n ==> RangeBy20(start, start + 20 * n)[k] == start + 20 * k
    decreases n
  {
    if n > 0 {
      RangeBy20Elements(start + 20, n - 1);
      assert start + 20 + 20 * (n - 1) == start + 20 * n;
      var rest := RangeBy20(start + 20, start + 20 * n);
      assert RangeBy20(start, start + 20 * n) == [start] + rest;
      forall k | 0 < k < n
        ensures RangeBy20(start, start + 20 * n)[k] == start + 20 * k
      {
        assert rest[k - 1] == start + 20 + 20 * (k - 1);
      }
    }
  }

  /** The ticks whose history files `get_battledata` requests, in order. */
  function Windows(centerTick: int): seq<int> {
    var start := WindowStart(centerTick);
    RangeBy20(start, start + 240)
  }

  /** Twelve consecutive 20-tick files, each aligned to 20 ticks, together spanning the centre. */
  lemma WindowsSpanBattle(centerTick: int)
    ensures |Windows(centerTick)| == 12
    ensures forall k :: 0 <= k < 12 ==> Windows(centerTick)[k] == WindowStart(centerTick) + 20 * k
    ensures forall k :: 0 <= k < 12 ==> Windows(centerTick)[k] % 20 == 0
    ensures Windows(centerTick)[0] <= centerTick - 20 && centerTick + 160 < Windows(centerTick)[11] + 20
  {
    var start := WindowStart(centerTick);
    var windows := Windows(centerTick);
    RangeBy20Elements(start, 12);
    assert windows == RangeBy20(start, start + 20 * 12);
    forall k | 0 <= k < 12
      ensures windows[k] % 20 == 0
    {
      StepsOf20(start, k);
    }
  }

  /** Whole steps of 20 from a multiple of 60 land on multiples of 20. */
  lemma StepsOf20(start: int, k: int)
    requires start % 60 == 0
    ensures (start + 20 * k) % 20 == 0
  {
    var q := start / 60;
    assert start + 20 * k == 20 * (3 * q + k);
  }

  /** How many leading windows answered with status 200. */
  function AnsweredPrefix(windows: seq<int>, history: int -> HistoryResponse): (n: nat)
    ensures n <= |windows|
    ensures forall k :: 0 <= k < n ==> history(windows[k]).status == 200
    ensures n < |windows| ==> history(windows[n]).status != 200
  {
    if windows == [] || history(windows[0]).status != 200 then 0
    else 1 + AnsweredPrefix(windows[1..], history)
  }

  /** The objects of a file's ticks in the order the loops visit them. */
  function Flatten(ticks: seq<TickObjects>): seq<(string, Snapshot)>
  {
    if ticks == [] then [] else Flatten(ticks[..|ticks| - 1]) + ticks[|ticks| - 1]
  }

  /** Everything the windows' files hold, file after file. */
  function Observed(windows: seq<int>, history: int -> HistoryResponse): seq<(string, Snapshot)>
  {
    if windows == [] then []
    else Observed(windows[..|windows| - 1], history) + Flatten(history(windows[|windows| - 1]).ticks)
  }

  /**
   * The counting loop's state: `creeps_found`, and the `Counter` of body
   * parts per owner id, whose keys in insertion order are `owners`.
   */
  datatype Tally = Tally(creepsFound: set<string>, owners: seq<string>, bodyCounts: map<string, nat>)

  const NoCreeps := Tally({}, [], map[])

  /** The owners are listed once each, and are exactly the counter's keys. */
  predicate ValidTally(t: Tally) {
    (forall i, j :: 0 <= i < j < |t.owners| ==> t.owners[i] != t.owners[j]) &&
    t.bodyCounts.Keys == set u | u in t.owners
  }

  /** A counter reads 0 for an owner it has never seen. */
  function PartsOf(t: Tally, user: string): nat {
    if user in t.bodyCounts then t.bodyCounts[user] else 0
  }

  predicate IsCreep(s: Snapshot) {
    s.Object? && s.objType == Some("creep")
  }

  /** One pass of the inner loop: a creep not seen before adds its body's length to its owner. */
  function CountObject(t: Tally, id: string, s: Snapshot): Tally {
    if IsCreep(s) && id !in t.creepsFound then
      Tally(t.creepsFound + {id},
            if s.user in t.bodyCounts then t.owners else t.owners + [s.user],
            t.bodyCounts[s.user := PartsOf(t, s.user) + |s.body|])
    else t
  }

  function Fold(t: Tally, objects: seq<(string, Snapshot)>): Tally
  {
    if objects == [] then t
    else
      var n := |objects| - 1;
      CountObject(Fold(t, objects[..n]), objects[n].0, objects[n].1)
  }

  /** The ids that appear among `objects` as a creep. */
  function CreepIds(objects: seq<(string, Snapshot)>): set<string> {
    set i | 0 <= i < |objects| && IsCreep(objects[i].1) :: objects[i].0
  }

  /** Entry `i` is a creep whose id appears as a creep nowhere before it. */
  predicate FirstSighting(objects: seq<(string, Snapshot)>, i: int)
    requires 0 <= i < |objects|
  {
    IsCreep(objects[i].1) &&
    forall j :: 0 <= j < i && objects[j].0 == objects[i].0 ==> !IsCreep(objects[j].1)
  }

  /** The body parts of `user`'s creeps, each counted at its first sighting among `objects[..n]`. */
  function FirstSightingParts(objects: seq<(string, Snapshot)>, user: string, n: nat): nat
    requires n <= |objects|
  {
    if n == 0 then 0
    else FirstSightingParts(objects, user, n - 1) +
         (if FirstSighting(objects, n - 1) && objects[n - 1].1.user == user then |objects[n - 1].1.body| else 0)
  }

  lemma {:induction false} FoldAppend(t: Tally, a: seq<(string, Snapshot)>, b: seq<(string, Snapshot)>)
    ensures Fold(t, a + b) == Fold(Fold(t, a), b)
    decreases |b|
  {
    if b == [] {
      assert a + b == a;
    } else {
      var n := |b| - 1;
      assert (a + b)[..|a + b| - 1] == a + b[..n];
      FoldAppend(t, a, b[..n]);
    }
  }

  /** Counting keeps each owner listed once and the list equal to the counter's keys. */
  lemma {:induction false} FoldValid(t: Tally, objects: seq<(string, Snapshot)>)
    requires ValidTally(t)
    ensures ValidTally(Fold(t, objects))
  {
    if objects != [] {
      FoldValid(t, objects[..|objects| - 1]);
    }
  }

  /** The ids marked found are the ones found before plus every creep seen. */
  lemma {:induction false} FoldFound(t: Tally, objects: seq<(string, Snapshot)>)
    ensures Fold(t, objects).creepsFound == t.creepsFound + CreepIds(objects)
  {
    if objects != [] {
      var n := |objects| - 1;
      FoldFound(t, objects[..n]);
      var ids := CreepIds(objects);
      var before := CreepIds(objects[..n]);
      if IsCreep(objects[n].1) {
        assert ids == before + {objects[n].0} by {
          forall x | x in ids ensures x in before + {objects[n].0} {
            var i :| 0 <= i < |objects| && IsCreep(objects[i].1) && objects[i].0 == x;
            if i < n {
              assert objects[..n][i] == objects[i];
            }
          }
          forall x | x in before ensures x in ids {
            var i :| 0 <= i < n && IsCreep(objects[..n][i].1) && objects[..n][i].0 == x;
            assert objects[i] == objects[..n][i];
          }
        }
      } else {
        assert ids == before by {
          forall x | x in ids ensures x in before {
            var i :| 0 <= i < |objects| && IsCreep(objects[i].1) && objects[i].0 == x;
            assert objects[..n][i] == objects[i];
          }
          forall x | x in before ensures x in ids {
            var i :| 0 <= i < n && IsCreep(objects[..n][i].1) && objects[..n][i].0 == x;
            assert objects[i] == objects[..n][i];
          }
        }
      }
    }
  }

  /** Objects whose creeps have all been seen already change nothing. */
  lemma {:induction false} FoldReplay(t: Tally, objects: seq<(string, Snapshot)>)
    requires CreepIds(objects) <= t.creepsFound
    ensures Fold(t, objects) == t
  {
    if objects != [] {
      var n := |objects| - 1;
      assert CreepIds(objects[..n]) <= CreepIds(objects) by {
        forall x | x in CreepIds(objects[..n]) ensures x in CreepIds(objects) {
          var i :| 0 <= i < n && IsCreep(objects[..n][i].1) && objects[..n][i].0 == x;
          assert objects[i] == objects[..n][i];
        }
      }
      FoldReplay(t, objects[..n]);
      if IsCreep(objects[n].1) {
        assert objects[n].0 in CreepIds(objects);
      }
    }
  }

  /** Counting the same file a second time adds nothing: each creep is counted once. */
  lemma FoldTwice(t: Tally, objects: seq<(string, Snapshot)>)
    ensures Fold(Fold(t, objects), objects) == Fold(t, objects)
  {
    FoldFound(t, objects);
    FoldReplay(Fold(t, objects), objects);
  }

  lemma CreepIdsStep(objects: seq<(string, Snapshot)>, n: nat)
    requires n < |objects|
    ensures objects[n].0 !in CreepIds(objects[..n]) <==>
            forall j :: 0 <= j < n && objects[j].0 == objects[n].0 ==> !IsCreep(objects[j].1)
  {
    if objects[n].0 in CreepIds(objects[..n]) {
      var i :| 0 <= i < n && IsCreep(objects[..n][i].1) && objects[..n][i].0 == objects[n].0;
      assert objects[i] == objects[..n][i];
    }
    forall j | 0 <= j < n && objects[j].0 == objects[n].0 && IsCreep(objects[j].1)
      ensures objects[n].0 in CreepIds(objects[..n])
    {
      assert objects[..n][j] == objects[j];
    }
  }

  /**
   * The loops' counter agrees with the reference definition: each owner's
   * total is the body length of each of its creeps at the creep's first
   * sighting, and the owners counted are those with such a sighting.
   */
  lemma {:induction false} FoldMatchesFirstSightings(objects: seq<(string, Snapshot)>, n: nat)
    requires n <= |objects|
    ensures Fold(NoCreeps, objects[..n]).creepsFound == CreepIds(objects[..n])
    ensures forall user :: PartsOf(Fold(NoCreeps, objects[..n]), user) == FirstSightingParts(objects, user, n)
    ensures forall user :: user in Fold(NoCreeps, objects[..n]).bodyCounts <==>
              exists i :: 0 <= i < n && FirstSighting(objects, i) && objects[i].1.user == user
  {
    FoldFound(NoCreeps, objects[..n]);
    if n > 0 {
      var m := n - 1;
      FoldMatchesFirstSightings(objects, m);
      assert objects[..n][..m] == objects[..m];
      assert objects[..n][m] == objects[m];
      CreepIdsStep(objects, m);
      var before := Fold(NoCreeps, objects[..m]);
      assert Fold(NoCreeps, objects[..n]) == CountObject(before, objects[m].0, objects[m].1);
      forall user
        ensures user in Fold(NoCreeps, objects[..n]).bodyCounts <==>
                exists i :: 0 <= i < n && FirstSighting(objects, i) && objects[i].1.user == user
      {
        if FirstSighting(objects, m) && objects[m].1.user == user {
          assert 0 <= m < n && FirstSighting(objects, m) && objects[m].1.user == user;
        }
        if exists i :: 0 <= i < n && FirstSighting(objects, i) && objects[i].1.user == user {
          var i :| 0 <= i < n && FirstSighting(objects, i) && objects[i].1.user == user;
          if i < m {
            assert 0 <= i < m && FirstSighting(objects, i) && objects[i].1.user == user;
          }
        }
      }
    }
  }

  /** What `username_from_id` yields against the store contents `data`: the cached name, else the endpoint's; None for a ScreepsError. */
  function LookupName(data: map<string, Value>, userId: string, users: string -> UserLookup): Option<string>
  {
    var cached := StrAt(data, DataCaching.UsernameKey(userId));
    if cached.Some? then cached
    else if users(userId).ok then users(userId).username
    else None
  }

  /**
   * `username_from_id`: the cached name without a request; otherwise the
   * endpoint's name, cached before it is returned. None stands for the
   * ScreepsError raised on a failed request or an answer without a name.
   */
  method UsernameFromId(store: Store, userId: string, users: string -> UserLookup) returns (name: Option<string>, requested: bool)
    modifies store
    ensures name == LookupName(old(store.data), userId, users)
    ensures requested <==> old(DataCaching.GetUsername(store, userId)).None?
    ensures name.Some? && requested ==>
              store.data == old(store.data)[DataCaching.UsernameKey(userId) := Str(name.value)]
    ensures !(name.Some? && requested) ==> store.data == old(store.data)
    ensures name.Some? ==> DataCaching.GetUsername(store, userId) == name
  {
    var cached := DataCaching.GetUsername(store, userId);
    if cached.Some? {
      return cached, false;
    }
    var answer := users(userId);
    if !answer.ok || answer.username.None? {
      return None, true;
    }
    DataCaching.SetUsername(store, userId, answer.username.value);
    return answer.username, true;
  }

  /** Every owner's name looked up against `data`, or None when any lookup fails. */
  function ResolveAll(data: map<string, Value>, owners: seq<string>, users: string -> UserLookup): (names: Option<seq<string>>)
    ensures names.Some? ==> |names.value| == |owners|
    ensures names.Some? ==> forall i :: 0 <= i < |owners| ==> LookupName(data, owners[i], users) == Some(names.value[i])
    ensures names.None? ==> exists i :: 0 <= i < |owners| && LookupName(data, owners[i], users).None?
  {
    if owners == [] then Some([])
    else
      var n := |owners| - 1;
      var init := ResolveAll(data, owners[..n], users);
      var last := LookupName(data, owners[n], users);
      if init.Some? && last.Some? then Some(init.value + [last.value])
      else
        assert init.None? ==> exists i :: 0 <= i < n && LookupName(data, owners[..n][i], users).None?;
        None
  }

  /**
   * `{username_from_id(u): count for u, count in counter.items()}`: each
   * owner's total under its name, a later owner overwriting an earlier one
   * that has the same name.
   */
  function CountsByName(t: Tally, owners: seq<string>, names: seq<string>): (counts: map<string, int>)
    requires |names| == |owners|
    ensures forall i :: 0 <= i < |names| ==> names[i] in counts
  {
    if owners == [] then map[]
    else
      var n := |owners| - 1;
      CountsByName(t, owners[..n], names[..n])[names[n] := PartsOf(t, owners[n])]
  }

  /** The names are the keys. */
  lemma {:induction false} CountsByNameKeys(t: Tally, owners: seq<string>, names: seq<string>)
    requires |names| == |owners|
    ensures CountsByName(t, owners, names).Keys == set x | x in names
  {
    if owners != [] {
      var n := |owners| - 1;
      CountsByNameKeys(t, owners[..n], names[..n]);
      assert names == names[..n] + [names[n]];
    }
  }

  /** Each name holds the total of the last owner with that name. */
  lemma {:induction false} CountsByNameLastWins(t: Tally, owners: seq<string>, names: seq<string>)
    requires |names| == |owners|
    ensures forall i :: 0 <= i < |names| && (forall j :: i < j < |names| ==> names[j] != names[i]) ==>
              CountsByName(t, owners, names)[names[i]] == PartsOf(t, owners[i])
  {
    if owners != [] {
      var n := |owners| - 1;
      CountsByNameLastWins(t, owners[..n], names[..n]);
      var r := CountsByName(t, owners, names);
      forall i | 0 <= i < n && (forall j :: i < j < |names| ==> names[j] != names[i])
        ensures r[names[i]] == PartsOf(t, owners[i])
      {
        assert names[..n][i] == names[i] && owners[..n][i] == owners[i];
        assert forall j :: i < j < n ==> names[..n][j] != names[..n][i];
        assert names[n] != names[i];
      }
    }
  }

  /** With distinct names, each player's count is the total of that player's creeps at first sighting. */
  lemma FreshCountsAreFirstSightings(objects: seq<(string, Snapshot)>, names: seq<string>)
    requires |names| == |Fold(NoCreeps, objects).owners|
    requires forall i, j :: 0 <= i < j < |names| ==> names[i] != names[j]
    ensures var t := Fold(NoCreeps, objects);
            forall i :: 0 <= i < |names| ==>
              CountsByName(t, t.owners, names)[names[i]] == FirstSightingParts(objects, t.owners[i], |objects|)
  {
    var t := Fold(NoCreeps, objects);
    CountsByNameLastWins(t, t.owners, names);
    FoldMatchesFirstSightings(objects, |objects|);
    assert objects[..|objects|] == objects;
  }

  lemma ResolveStep(data: map<string, Value>, t: Tally, owners: seq<string>, i: nat, names: seq<string>,
                    name: string, users: string -> UserLookup)
    requires i < |owners| && |names| == i
    requires ResolveAll(data, owners[..i], users) == Some(names)
    requires LookupName(data, owners[i], users) == Some(name)
    ensures ResolveAll(data, owners[..i + 1], users) == Some(names + [name])
    ensures CountsByName(t, owners[..i + 1], names + [name]) ==
            CountsByName(t, owners[..i], names)[name := PartsOf(t, owners[i])]
  {
    assert owners[..i + 1][..i] == owners[..i];
    assert (names + [name])[..i] == names;
  }

  /** Distinct owners have distinct username cache keys. */
  lemma OwnerKeysDistinct(owners: seq<string>, i: nat)
    requires i < |owners|
    requires forall a, b :: 0 <= a < b < |owners| ==> owners[a] != owners[b]
    ensures forall j :: 0 <= j < |owners| && j != i ==>
              DataCaching.UsernameKey(owners[j]) != DataCaching.UsernameKey(owners[i])
  {
    forall j | 0 <= j < |owners| && j != i
      ensures DataCaching.UsernameKey(owners[j]) != DataCaching.UsernameKey(owners[i])
    {
      if DataCaching.UsernameKey(owners[j]) == DataCaching.UsernameKey(owners[i]) {
        DataCaching.UsernameKeyInjective(owners[j], owners[i]);
      }
    }
  }

  lemma UsernameKeysSnoc(owners: seq<string>, i: nat)
    requires i < |owners|
    ensures DataCaching.UsernameKeys(owners[..i + 1]) ==
            DataCaching.UsernameKeys(owners[..i]) + {DataCaching.UsernameKey(owners[i])}
  {
    assert owners[..i + 1] == owners[..i] + [owners[i]];
  }

  /**
   * Where the lookup loop stands after `i` owners: their names resolved
   * against the cache as it was at the start and now cached, the later
   * owners' cache entries as they were, and no other key touched.
   */
  ghost predicate ResolvedSoFar(start: map<string, Value>, cur: map<string, Value>, owners: seq<string>, i: nat,
                                names: seq<string>, users: string -> UserLookup)
    requires i <= |owners|
  {
    ResolveAll(start, owners[..i], users) == Some(names) &&
    (forall j :: 0 <= j < i ==> DataCaching.NameCached(cur, owners[j], names[j])) &&
    (forall j :: i <= j < |owners| ==> SameAt(start, cur, DataCaching.UsernameKey(owners[j]))) &&
    ChangedOnly(start, cur, DataCaching.UsernameKeys(owners[..i])) &&
    DataCaching.SameOutsideUsernames(start, cur)
  }

  /** A lookup that succeeds, with or without caching the name, moves the loop on by one owner. */
  lemma ResolveAdvance(start: map<string, Value>, before: map<string, Value>, after: map<string, Value>,
                       owners: seq<string>, i: nat, names: seq<string>, name: string, users: string -> UserLookup)
    requires i < |owners|
    requires forall a, b :: 0 <= a < b < |owners| ==> owners[a] != owners[b]
    requires ResolvedSoFar(start, before, owners, i, names, users)
    requires LookupName(before, owners[i], users) == Some(name)
    requires (after == before && StrAt(before, DataCaching.UsernameKey(owners[i])) == Some(name)) ||
             after == before[DataCaching.UsernameKey(owners[i]) := Str(name)]
    ensures LookupName(start, owners[i], users) == Some(name)
    ensures ResolvedSoFar(start, after, owners, i + 1, names + [name], users)
  {
    var key := DataCaching.UsernameKey(owners[i]);
    assert SameAt(start, before, key);
    OwnerKeysDistinct(owners, i);
    DataCaching.UsernameWriteKeepsOthers(before, owners[i], Str(name));
    assert owners[..i + 1][..i] == owners[..i];
    assert |names| == i;
    var names' := names + [name];
    forall j | 0 <= j < i + 1
      ensures DataCaching.NameCached(after, owners[j], names'[j])
    {
      if j < i {
        assert DataCaching.NameCached(before, owners[j], names[j]);
      }
    }
    forall j | i + 1 <= j < |owners|
      ensures SameAt(start, after, DataCaching.UsernameKey(owners[j]))
    {
      assert SameAt(start, before, DataCaching.UsernameKey(owners[j]));
    }
    UsernameKeysSnoc(owners, i);
    var keys := DataCaching.UsernameKeys(owners[..i]);
    if after == before {
      forall k | k !in keys + {key}
        ensures SameAt(start, after, k)
      {
        assert SameAt(start, before, k);
      }
    } else {
      ChangedOnlyStep(start, before, keys, key, Str(name));
    }
  }

  /** A lookup that fails makes the whole resolution fail. */
  lemma ResolveFails(start: map<string, Value>, before: map<string, Value>, owners: seq<string>, i: nat,
                     names: seq<string>, users: string -> UserLookup)
    requires i < |owners|
    requires ResolvedSoFar(start, before, owners, i, names, users)
    requires LookupName(before, owners[i], users).None?
    ensures ResolveAll(start, owners, users).None?
  {
    assert SameAt(start, before, DataCaching.UsernameKey(owners[i]));
    assert LookupName(start, owners[i], users).None?;
  }

  /** After the lookups, `owner`'s cache entry is as it was, or holds the name looked up against `before`. */
  ghost predicate KeptOrNamed(before: map<string, Value>, after: map<string, Value>, owner: string,
                              users: string -> UserLookup)
  {
    SameAt(before, after, DataCaching.UsernameKey(owner)) ||
    (LookupName(before, owner, users).Some? &&
     DataCaching.NameCached(after, owner, LookupName(before, owner, users).value))
  }

  /**
   * The username cache after resolving `owners` against `before`: every
   * owner's entry kept or set to its name, and when all resolved, every
   * owner's name cached.
   */
  ghost predicate NamesCached(before: map<string, Value>, after: map<string, Value>, owners: seq<string>,
                              users: string -> UserLookup)
  {
    (forall o :: o in owners ==> KeptOrNamed(before, after, o, users)) &&
    (ResolveAll(before, owners, users).Some? ==>
       forall i :: 0 <= i < |owners| ==> DataCaching.NameCached(after, owners[i], ResolveAll(before, owners, users).value[i]))
  }

  /** The loop ran to the end: every owner is named and cached. */
  lemma ResolvedAll(start: map<string, Value>, cur: map<string, Value>, owners: seq<string>,
                    names: seq<string>, users: string -> UserLookup)
    requires ResolvedSoFar(start, cur, owners, |owners|, names, users)
    ensures ResolveAll(start, owners, users) == Some(names)
    ensures NamesCached(start, cur, owners, users)
    ensures ChangedOnly(start, cur, DataCaching.UsernameKeys(owners))
  {
    assert owners[..|owners|] == owners;
    forall o | o in owners
      ensures KeptOrNamed(start, cur, o, users)
    {
      var j :| 0 <= j < |owners| && owners[j] == o;
      assert DataCaching.NameCached(cur, owners[j], names[j]);
    }
  }

  /** The loop stopped at owner `i`: the owners before it are cached, and no later entry changed. */
  lemma ResolvedUntilFailure(start: map<string, Value>, cur: map<string, Value>, owners: seq<string>, i: nat,
                             names: seq<string>, users: string -> UserLookup)
    requires i < |owners|
    requires ResolvedSoFar(start, cur, owners, i, names, users)
    requires LookupName(cur, owners[i], users).None?
    ensures ResolveAll(start, owners, users).None?
    ensures NamesCached(start, cur, owners, users)
    ensures ChangedOnly(start, cur, DataCaching.UsernameKeys(owners))
  {
    ResolveFails(start, cur, owners, i, names, users);
    forall o | o in owners
      ensures KeptOrNamed(start, cur, o, users)
    {
      var j :| 0 <= j < |owners| && owners[j] == o;
      if j < i {
        assert owners[..i][j] == o;
        assert DataCaching.NameCached(cur, owners[j], names[j]);
      } else {
        assert SameAt(start, cur, DataCaching.UsernameKey(owners[j]));
      }
    }
    assert DataCaching.UsernameKeys(owners[..i]) <= DataCaching.UsernameKeys(owners);
  }

  /**
   * The name resolution of `get_battledata`: every owner looked up in the
   * counter's order, stopping at the first failure. Lookups only write
   * username cache entries, each for an owner not yet looked up, so every
   * lookup sees the cache as it was at the start.
   */
  method ResolveUsernames(store: Store, t: Tally, users: string -> UserLookup) returns (counts: Option<map<string, int>>)
    requires ValidTally(t)
    modifies store
    ensures var names := ResolveAll(old(store.data), t.owners, users);
            counts == if names.Some? then Some(CountsByName(t, t.owners, names.value)) else None
    ensures NamesCached(old(store.data), store.data, t.owners, users)
    ensures ChangedOnly(old(store.data), store.data, DataCaching.UsernameKeys(t.owners))
    ensures DataCaching.SameOutsideUsernames(old(store.data), store.data)
  {
    var owners := t.owners;
    var byName: map<string, int> := map[];
    ghost var names: seq<string> := [];
    for i := 0 to |owners|
      invariant |names| == i
      invariant ResolvedSoFar(old(store.data), store.data, owners, i, names, users)
      invariant byName == CountsByName(t, owners[..i], names)
    {
      ghost var before := store.data;
      var name, _ := UsernameFromId(store, owners[i], users);
      if name.None? {
        ResolvedUntilFailure(old(store.data), before, owners, i, names, users);
        return None;
      }
      ResolveAdvance(old(store.data), before, store.data, owners, i, names, name.value, users);
      ResolveStep(old(store.data), t, owners, i, names, name.value, users);
      assert owners[i] in t.bodyCounts;
      byName := byName[name.value := PartsOf(t, owners[i])];
      names := names + [name.value];
    }
    assert owners[..|owners|] == owners;
    ResolvedAll(old(store.data), store.data, owners, names, users);
    return Some(byName);
  }

  /** Counting one more object of the current tick is one more step of the fold. */
  lemma FoldSnoc(t: Tally, done: seq<(string, Snapshot)>, tickData: TickObjects, k: nat)
    requires k < |tickData|
    ensures Fold(t, done + tickData[..k + 1]) == CountObject(Fold(t, done + tickData[..k]), tickData[k].0, tickData[k].1)
  {
    var objects := done + tickData[..k + 1];
    assert objects[..|objects| - 1] == done + tickData[..k];
  }

  /** The files' objects up to tick `j + 1` are those up to tick `j`, then tick `j`'s. */
  lemma FlattenSnoc(ticks: seq<TickObjects>, j: nat)
    requires j < |ticks|
    ensures Flatten(ticks[..j + 1]) == Flatten(ticks[..j]) + ticks[j]
  {
    assert ticks[..j + 1][..j] == ticks[..j];
  }

  /** One history file counted by the two nested loops. */
  method CountWindow(t: Tally, ticks: seq<TickObjects>) returns (r: Tally)
    ensures r == Fold(t, Flatten(ticks))
  {
    var creepsFound: set<string>, owners: seq<string>, bodyCounts: map<string, nat> :=
      t.creepsFound, t.owners, t.bodyCounts;
    for j := 0 to |ticks|
      invariant Tally(creepsFound, owners, bodyCounts) == Fold(t, Flatten(ticks[..j]))
    {
      var tickData := ticks[j];
      ghost var done := Flatten(ticks[..j]);
      assert done + tickData[..0] == done;
      for k := 0 to |tickData|
        invariant Tally(creepsFound, owners, bodyCounts) == Fold(t, done + tickData[..k])
      {
        ghost var before := Tally(creepsFound, owners, bodyCounts);
        var (creepId, obj) := tickData[k];
        // an entry without a truth value is skipped, as is anything but a new creep
        if obj.Object? && obj.objType == Some("creep") && creepId !in creepsFound {
          creepsFound := creepsFound + {creepId};
          var owner := obj.user;
          if owner !in bodyCounts {
            owners := owners + [owner];
          }
          bodyCounts := bodyCounts[owner := (if owner in bodyCounts then bodyCounts[owner] else 0) + |obj.body|];
        }
        assert Tally(creepsFound, owners, bodyCounts) == CountObject(before, creepId, obj);
        FoldSnoc(t, done, tickData, k);
      }
      assert tickData[..|tickData|] == tickData;
      FlattenSnoc(ticks, j);
    }
    assert ticks[..|ticks|] == ticks;
    return Tally(creepsFound, owners, bodyCounts);
  }

  /**
   * The request loop of `get_battledata`: the files in order, each
   * counted, until one does not answer 200. `complete` says all answered;
   * `requested` lists the files asked for, the failing one included.
   */
  method CountWindows(windows: seq<int>, history: int -> HistoryResponse)
    returns (t: Tally, requested: seq<int>, complete: bool)
    ensures complete <==> AnsweredPrefix(windows, history) == |windows|
    ensures complete ==> requested == windows && t == Fold(NoCreeps, Observed(windows, history))
    ensures !complete ==> requested == windows[..AnsweredPrefix(windows, history) + 1]
  {
    t := NoCreeps;
    requested := [];
    for i := 0 to |windows|
      invariant requested == windows[..i]
      invariant forall k :: 0 <= k < i ==> history(windows[k]).status == 200
      invariant t == Fold(NoCreeps, Observed(windows[..i], history))
    {
      var response := history(windows[i]);
      requested := requested + [windows[i]];
      assert windows[..i + 1] == windows[..i] + [windows[i]];
      if response.status != 200 {
        return t, requested, false;
      }
      t := CountWindow(t, response.ticks);
      assert windows[..i + 1][..i] == windows[..i];
      FoldAppend(NoCreeps, Observed(windows[..i], history), Flatten(response.ticks));
    }
    assert windows[..|windows|] == windows;
    complete := true;
  }

  /** The cache answers nothing and the not-available flag is not set: `get_battledata` goes to the endpoints. */
  predicate Fetches(store: Store, room: string, startTick: int)
    reads store
  {
    DataCaching.GetPlayerCounts(store, room, startTick).None? &&
    !DataCaching.Truthy(DataCaching.GetBattleDataNotYetAvail(store, room, startTick))
  }

  /** Name lookups leave an absent counts hash absent, and its key free for a hash. */
  lemma CountsStillAbsent(a: map<string, Value>, b: map<string, Value>, room: string, startTick: int)
    requires DataCaching.SameOutsideUsernames(a, b)
    requires var pck := DataCaching.PlayerCountsKey(room, startTick);
             |HashIn(a, pck)| == 0 && (pck !in a || a[pck].Hash?)
    ensures var pck := DataCaching.PlayerCountsKey(room, startTick);
            HashIn(b, pck) == map[] && (pck !in b || b[pck].Hash?)
  {
    var pck := DataCaching.PlayerCountsKey(room, startTick);
    DataCaching.PlayerCountsKeyIsNoUsernameKey(room, startTick);
    assert HashIn(a, pck).Keys == {};
  }

  /** `HMSET` on a key holding no hash leaves exactly the fields written. */
  lemma MergeIntoAbsent(data: map<string, Value>, key: string, fields: map<string, string>)
    requires HashIn(data, key) == map[]
    ensures HashIn(data[key := Hash(HashIn(data, key) + fields)], key) == fields
  {
    assert map[] + fields == fields;
  }

  /** Setting the not-available flag leaves the counts hash as it was. */
  lemma FlagKeepsCounts(data: map<string, Value>, room: string, startTick: int)
    ensures var pck := DataCaching.PlayerCountsKey(room, startTick);
            HashIn(data[DataCaching.NotAvailKey(room, startTick) := Str("1")], pck) == HashIn(data, pck)
  {
    DataCaching.KeyFamiliesDistinct("", room, startTick, room, startTick);
  }

  /** A write outside the username cache keeps what the lookups cached. */
  lemma NamesCachedKeep(before: map<string, Value>, mid: map<string, Value>, owners: seq<string>,
                        users: string -> UserLookup, key: string, v: Value)
    requires NamesCached(before, mid, owners, users)
    requires !DataCaching.IsUsernameKey(key)
    ensures NamesCached(before, mid[key := v], owners, users)
  {
    forall o | o in owners
      ensures KeptOrNamed(before, mid[key := v], o, users)
    {
      DataCaching.UsernameKeyIsUsernameKey(o);
      assert KeptOrNamed(before, mid, o, users);
    }
    var names := ResolveAll(before, owners, users);
    if names.Some? {
      forall i | 0 <= i < |owners|
        ensures DataCaching.NameCached(mid[key := v], owners[i], names.value[i])
      {
        DataCaching.UsernameKeyIsUsernameKey(owners[i]);
        assert DataCaching.NameCached(mid, owners[i], names.value[i]);
      }
    }
  }

  /**
   * The tail of `get_battledata` once every file is counted: the owners
   * are named; a failed lookup sets the not-available flag and gives None,
   * otherwise the counts by name are cached and returned.
   */
  method NameAndCache(store: Store, room: string, startTick: int, t: Tally, users: string -> UserLookup)
    returns (result: Option<PlayerCounts>)
    requires ValidTally(t)
    requires store.HoldsHashOrNothing(DataCaching.PlayerCountsKey(room, startTick))
    requires DataCaching.GetPlayerCounts(store, room, startTick).None?
    modifies store
    ensures var names := ResolveAll(old(store.data), t.owners, users);
            (names.None? ==>
               result == None &&
               DataCaching.Truthy(DataCaching.GetBattleDataNotYetAvail(store, room, startTick)) &&
               DataCaching.GetPlayerCounts(store, room, startTick).None?) &&
            (names.Some? ==>
               result == Some(Fresh(CountsByName(t, t.owners, names.value))) &&
               DataCaching.GetPlayerCounts(store, room, startTick) == Some(DataCaching.StoredCounts(result.value.counts)))
    ensures NamesCached(old(store.data), store.data, t.owners, users)
    ensures ChangedOnly(old(store.data), store.data,
                        DataCaching.UsernameKeys(t.owners) +
                        {if ResolveAll(old(store.data), t.owners, users).Some? then DataCaching.PlayerCountsKey(room, startTick)
                         else DataCaching.NotAvailKey(room, startTick)})
  {
    var pck := DataCaching.PlayerCountsKey(room, startTick);
    ghost var before := store.data;
    var counts := ResolveUsernames(store, t, users);
    CountsStillAbsent(before, store.data, room, startTick);
    assert store.HashAt(pck) == map[];
    ghost var resolved := store.data;
    if counts.None? {
      var nak := DataCaching.NotAvailKey(room, startTick);
      DataCaching.SetBattleDataNotYetAvail(store, room, startTick);
      FlagKeepsCounts(resolved, room, startTick);
      DataCaching.NotAvailKeyIsNoUsernameKey(room, startTick);
      NamesCachedKeep(before, resolved, t.owners, users, nak, Str("1"));
      ChangedOnlyStep(before, resolved, DataCaching.UsernameKeys(t.owners), nak, Str("1"));
      assert store.HashAt(pck) == map[];
      return None;
    }
    DataCaching.SetPlayerCounts(store, room, startTick, counts.value);
    MergeIntoAbsent(resolved, pck, DataCaching.StoredCounts(counts.value));
    DataCaching.PlayerCountsKeyIsNoUsernameKey(room, startTick);
    NamesCachedKeep(before, resolved, t.owners, users, pck, store.data[pck]);
    ChangedOnlyStep(before, resolved, DataCaching.UsernameKeys(t.owners), pck, store.data[pck]);
    return Some(Fresh(counts.value));
  }

  /**
   * `get_battledata`. A cached hash is returned as stored; a set
   * not-available flag gives None; otherwise the twelve files are fetched
   * in order, and the first that does not answer 200 sets the flag and
   * gives None (a 404 and any other status alike). All files counted, the
   * owners are named; a failed lookup sets the flag and gives None, and
   * otherwise the counts by name are cached and returned. `requested`
   * lists the files asked for.
   */
  method GetBattleData(store: Store, room: string, centerTick: int,
                       history: int -> HistoryResponse, users: string -> UserLookup)
    returns (result: Option<PlayerCounts>, requested: seq<int>)
    requires store.HoldsHashOrNothing(DataCaching.PlayerCountsKey(room, WindowStart(centerTick)))
    modifies store
    ensures var cached := old(DataCaching.GetPlayerCounts(store, room, WindowStart(centerTick)));
            cached.Some? ==> result == Some(Cached(cached.value)) && requested == [] && store.data == old(store.data)
    ensures var start := WindowStart(centerTick);
            old(DataCaching.GetPlayerCounts(store, room, start)).None? &&
            old(DataCaching.Truthy(DataCaching.GetBattleDataNotYetAvail(store, room, start))) ==>
              result == None && requested == [] && store.data == old(store.data)
    ensures var start := WindowStart(centerTick);
            var answered := AnsweredPrefix(Windows(centerTick), history);
            old(Fetches(store, room, start)) && answered < |Windows(centerTick)| ==>
              requested == Windows(centerTick)[..answered + 1] && result == None &&
              store.data == old(store.data)[DataCaching.NotAvailKey(room, start) := Str("1")]
    ensures var start := WindowStart(centerTick);
            var t := Fold(NoCreeps, Observed(Windows(centerTick), history));
            var names := ResolveAll(old(store.data), t.owners, users);
            old(Fetches(store, room, start)) && AnsweredPrefix(Windows(centerTick), history) == |Windows(centerTick)| ==>
              requested == Windows(centerTick) &&
              (names.None? ==>
                 result == None &&
                 DataCaching.Truthy(DataCaching.GetBattleDataNotYetAvail(store, room, start)) &&
                 DataCaching.GetPlayerCounts(store, room, start).None?) &&
              (names.Some? ==>
                 result == Some(Fresh(CountsByName(t, t.owners, names.value))) &&
                 DataCaching.GetPlayerCounts(store, room, start) == Some(DataCaching.StoredCounts(result.value.counts))) &&
              NamesCached(old(store.data), store.data, t.owners, users) &&
              ChangedOnly(old(store.data), store.data,
                          DataCaching.UsernameKeys(t.owners) +
                          {if names.Some? then DataCaching.PlayerCountsKey(room, start) else DataCaching.NotAvailKey(room, start)})
  {
    var start := WindowStart(centerTick);
    var cached := DataCaching.GetPlayerCounts(store, room, start);
    if cached.Some? {
      return Some(Cached(cached.value)), [];
    }
    if DataCaching.Truthy(DataCaching.GetBattleDataNotYetAvail(store, room, start)) {
      return None, [];
    }
    var t, complete;
    t, requested, complete := CountWindows(Windows(centerTick), history);
    if !complete {
      DataCaching.SetBattleDataNotYetAvail(store, room, start);
      return None, requested;
    }
    FoldValid(NoCreeps, Observed(Windows(centerTick), history));
    result := NameAndCache(store, room, start, t, users);
  }
}
