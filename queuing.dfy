/**
 * The two work queues of warreport/queuing.py: battles waiting to be
 * processed and processed battles waiting to be reported. Both are Redis
 * lists used as rings: taking an entry moves it from the tail to the
 * head, and only an explicit removal takes it out, so an entry whose
 * handling never finishes comes round again.
 */
module Queuing {
  import opened Wrappers
  import opened Strings
  import opened RedisStore

  const Version := "0.1"

  /** The processing queue's key; the database prefix comes from configuration. */
  function ProcessingQueue(prefix: string): string {
    prefix + Version + ":processing_queue"
  }

  function ReportingQueue(prefix: string): string {
    prefix + Version + ":reporting_queue"
  }

  lemma QueuesDistinct(prefix: string)
    ensures ProcessingQueue(prefix) != ReportingQueue(prefix)
  {
    assert ProcessingQueue(prefix)[|prefix| + 4] == 'p';
    assert ReportingQueue(prefix)[|prefix| + 4] == 'r';
  }

  /** A queue entry: `"{}:{}".format(room_name, start_tick)`. */
  function EncodeBattle(room: string, tick: string): string {
    room + ":" + tick
  }

  function EncodeAll(battles: seq<(string, string)>): (entries: seq<string>)
    ensures |entries| == |battles|
    ensures forall i :: 0 <= i < |battles| ==> entries[i] == EncodeBattle(battles[i].0, battles[i].1)
  {
    if battles == [] then [] else [EncodeBattle(battles[0].0, battles[0].1)] + EncodeAll(battles[1..])
  }

  /**
   * `room_name, start_tick = raw.split(':')`: None stands for the
   * ValueError raised when the entry does not split into exactly two pieces.
   */
  function DecodeBattle(raw: string): Option<(string, string)> {
    var parts := Split(raw, ':');
    if |parts| == 2 then Some((parts[0], parts[1])) else None
  }

  /** Decoding an entry gives back its room and tick when neither holds a colon. */
  lemma DecodeEncode(room: string, tick: string)
    requires ':' !in room && ':' !in tick
    ensures DecodeBattle(EncodeBattle(room, tick)) == Some((room, tick))
  {
    assert EncodeBattle(room, tick) == Join([room, tick], [':']);
    SplitJoin([room, tick], ':');
  }

  /** With a colon in the room or the tick, the entry splits into three or more pieces and unpacking fails. */
  lemma DecodeEncodeExtraColon(room: string, tick: string)
    requires ':' in room || ':' in tick
    ensures DecodeBattle(EncodeBattle(room, tick)) == None
  {
    CountCharAppend(room + ":", tick, ':');
    CountCharAppend(room, ":", ':');
    if ':' in room {
      CountCharPositive(room, ':');
    } else {
      CountCharPositive(tick, ':');
    }
  }

  /** A numeric tick survives the round trip through the queue and `int()`. */
  lemma DecodeEncodeNumericTick(room: string, tick: int)
    requires ':' !in room
    ensures DecodeBattle(EncodeBattle(room, IntToString(tick))).Some?
    ensures DecodeBattle(EncodeBattle(room, IntToString(tick))).value.0 == room
    ensures ParseInt(DecodeBattle(EncodeBattle(room, IntToString(tick))).value.1) == Some(tick)
  {
    IntToStringAvoids(tick, ':');
    DecodeEncode(room, IntToString(tick));
    ParseIntOfIntToString(tick);
  }

  /**
   * The entry a report-taking call hands out is the one a matching
   * removal takes out again: the other entries keep their order, and even
   * when the same text is queued twice exactly one copy goes.
   */
  lemma TakeThenRemove(queue: seq<string>)
    requires |queue| > 0
    ensures multiset(LRemLast(RotateTail(queue), queue[|queue| - 1])) == multiset(queue) - multiset{queue[|queue| - 1]}
    ensures multiset(queue)[queue[|queue| - 1]] == 1 ==>
              LRemLast(RotateTail(queue), queue[|queue| - 1]) == queue[..|queue| - 1]
  {
    var n := |queue|;
    var key := queue[n - 1];
    RotateTailPreserves(queue);
    LRemLastMultiset(RotateTail(queue), key);
    if multiset(queue)[key] == 1 {
      var rest := queue[..n - 1];
      assert queue == rest + [key];
      assert multiset(queue) == multiset(rest) + multiset{key};
      assert key !in rest;
      LRemLastRemovesLastOccurrence(RotateTail(queue), key);
      assert LastIndexOf(RotateTail(queue), key) == 0;
    }
  }

  /**
   * `push_battles_for_processing`: one `LPUSH` of all the entries, so the
   * new entries sit at the head in reverse argument order and the old ones
   * keep theirs. Redis refuses an `LPUSH` without values.
   */
  method PushBattlesForProcessing(store: Store, prefix: string, battles: seq<(string, string)>)
    requires |battles| > 0
    requires store.HoldsListOrNothing(ProcessingQueue(prefix))
    modifies store
    ensures store.ListAt(ProcessingQueue(prefix)) ==
              Reverse(EncodeAll(battles)) + old(store.ListAt(ProcessingQueue(prefix)))
    ensures store.data == old(store.data)[ProcessingQueue(prefix) := List(store.ListAt(ProcessingQueue(prefix)))]
  {
    var key := ProcessingQueue(prefix);
    LPushAllIsReverse(store.ListAt(key), EncodeAll(battles));
    store.LPush(key, EncodeAll(battles));
  }

  /**
   * `get_next_battle_to_process`: rotates the processing queue and returns
   * the moved entry decoded, along with the raw entry as the key for
   * `submit_processed_battle`. `battle` is None when the entry does not
   * unpack into a room and a tick; the rotation has happened by then.
   */
  method GetNextBattleToProcess(store: Store, prefix: string) returns (battle: Option<(string, string)>, databaseKey: string)
    requires store.ListAt(ProcessingQueue(prefix)) != []
    requires store.HoldsListOrNothing(ProcessingQueue(prefix))
    modifies store
    ensures var q := old(store.ListAt(ProcessingQueue(prefix)));
            databaseKey == q[|q| - 1] &&
            store.data == old(store.data)[ProcessingQueue(prefix) := List(RotateTail(q))]
    ensures battle == DecodeBattle(databaseKey)
  {
    databaseKey := store.RotateTailToHead(ProcessingQueue(prefix));
    battle := DecodeBattle(databaseKey);
  }

  /**
   * `submit_processed_battle`: in one pipeline, removes the occurrence of
   * `databaseKey` nearest the tail of the processing queue (nothing when it
   * is absent) and pushes the serialized report onto the head of the
   * reporting queue.
   */
  method SubmitProcessedBattle(store: Store, prefix: string, databaseKey: string, report: string)
    requires store.HoldsListOrNothing(ProcessingQueue(prefix))
    requires store.HoldsListOrNothing(ReportingQueue(prefix))
    modifies store
    ensures store.data == PutList(old(store.data), ProcessingQueue(prefix),
                                  LRemLast(old(store.ListAt(ProcessingQueue(prefix))), databaseKey))
                            [ReportingQueue(prefix) := List([report] + old(store.ListAt(ReportingQueue(prefix))))]
    ensures store.ListAt(ProcessingQueue(prefix)) == LRemLast(old(store.ListAt(ProcessingQueue(prefix))), databaseKey)
    ensures store.HoldsListOrNothing(ProcessingQueue(prefix)) && store.HoldsListOrNothing(ReportingQueue(prefix))
  {
    QueuesDistinct(prefix);
    store.LRemFromTail(ProcessingQueue(prefix), databaseKey);
    store.LPush(ReportingQueue(prefix), [report]);
  }

  /**
   * `get_next_battle_to_report`: rotates the reporting queue and returns
   * the moved entry, the serialized report, which is also the key for
   * `mark_battle_reported`, along with the report `json.loads` makes of
   * it. `decode` stands for `json.loads`; `battleInfo` is None when the
   * entry is no JSON text, after the rotation has happened.
   */
  method GetNextBattleToReport(store: Store, prefix: string, decode: string -> Option<JsonValue>)
    returns (battleInfo: Option<JsonValue>, databaseKey: string)
    requires store.ListAt(ReportingQueue(prefix)) != []
    requires store.HoldsListOrNothing(ReportingQueue(prefix))
    modifies store
    ensures var q := old(store.ListAt(ReportingQueue(prefix)));
            databaseKey == q[|q| - 1] &&
            store.data == old(store.data)[ReportingQueue(prefix) := List(RotateTail(q))]
    ensures battleInfo == decode(databaseKey)
  {
    databaseKey := store.RotateTailToHead(ReportingQueue(prefix));
    battleInfo := decode(databaseKey);
  }

  /** `mark_battle_reported`: removes the occurrence nearest the tail; nothing when there is none. */
  method MarkBattleReported(store: Store, prefix: string, databaseKey: string)
    requires store.HoldsListOrNothing(ReportingQueue(prefix))
    modifies store
    ensures store.data == PutList(old(store.data), ReportingQueue(prefix),
                                  LRemLast(old(store.ListAt(ReportingQueue(prefix))), databaseKey))
    ensures databaseKey !in old(store.ListAt(ReportingQueue(prefix))) ==>
              store.ListAt(ReportingQueue(prefix)) == old(store.ListAt(ReportingQueue(prefix)))
  {
    LRemLastRemovesLastOccurrence(store.ListAt(ReportingQueue(prefix)), databaseKey);
    store.LRemFromTail(ReportingQueue(prefix), databaseKey);
  }
}
