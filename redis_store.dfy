/**
 * The Redis connection every warreport module talks to, as one mutable
 * map from key to value. Only the commands the modelled code issues are
 * here. Redis removes a list or hash key once it is empty, so an absent
 * key and an empty list (or hash) are the same state.
 */
module RedisStore {
  import opened Wrappers

  /** A JSON document, standing for the text `json.dumps` makes of it. */
  datatype JsonValue =
    | JNull
    | JBool(b: bool)
    | JInt(i: int)
    | JString(s: string)
    | JArray(items: seq<JsonValue>)
    | JObject(fields: map<string, JsonValue>)

  /** What one key holds. `Json` is a string value holding the JSON text of `doc`. */
  datatype Value =
    | Str(s: string)
    | List(items: seq<string>)
    | Hash(fields: map<string, string>)
    | Json(doc: JsonValue)

  function Reverse<T>(s: seq<T>): (r: seq<T>)
    ensures |r| == |s|
  {
    if s == [] then [] else Reverse(s[1..]) + [s[0]]
  }

  /** Entry `i` of the reversal is entry `i` from the end. */
  lemma {:induction false} ReverseElements<T>(s: seq<T>)
    ensures forall i :: 0 <= i < |s| ==> Reverse(s)[i] == s[|s| - 1 - i]
  {
    if s != [] {
      ReverseElements(s[1..]);
      var r := Reverse(s);
      forall i | 0 <= i < |s|
        ensures r[i] == s[|s| - 1 - i]
      {
        if i < |s| - 1 {
          assert r[i] == Reverse(s[1..])[i];
        }
      }
    }
  }

  /** `LPUSH key v1 … vn`: each value in turn is inserted at the head. */
  function LPushAll(list: seq<string>, values: seq<string>): seq<string>
    decreases |values|
  {
    if values == [] then list else LPushAll([values[0]] + list, values[1..])
  }

  /** `RPUSH key v1 … vn`: each value in turn is appended at the tail. */
  function RPushAll(list: seq<string>, values: seq<string>): seq<string>
    decreases |values|
  {
    if values == [] then list else RPushAll(list + [values[0]], values[1..])
  }

  /** `BRPOPLPUSH key key` on a non-empty list: the tail element moves to the head. */
  function RotateTail(list: seq<string>): seq<string>
    requires |list| > 0
  {
    [list[|list| - 1]] + list[..|list| - 1]
  }

  /** Index of the occurrence of `v` nearest the tail, or -1 when there is none. */
  function LastIndexOf(list: seq<string>, v: string): (i: int)
    ensures -1 <= i < |list|
    ensures i == -1 <==> v !in list
    ensures i >= 0 ==> list[i] == v && v !in list[i + 1..]
  {
    if list == [] then -1
    else if list[|list| - 1] == v then |list| - 1
    else LastIndexOf(list[..|list| - 1], v)
  }

  /** `LREM key -1 v`: scanning from the tail, remove the first element equal to `v`. */
  function LRemLast(list: seq<string>, v: string): seq<string>
  {
    if list == [] then []
    else if list[|list| - 1] == v then list[..|list| - 1]
    else LRemLast(list[..|list| - 1], v) + [list[|list| - 1]]
  }

  /** The string at `key` in `data`, None when the key is absent. */
  function StrAt(data: map<string, Value>, key: string): Option<string>
  {
    if key in data && data[key].Str? then Some(data[key].s) else None
  }

  /** The JSON document at `key` in `data`, None when the key holds none. */
  function JsonAt(data: map<string, Value>, key: string): Option<JsonValue>
  {
    if key in data && data[key].Json? then Some(data[key].doc) else None
  }

  /** The hash at `key` in `data`, empty when the key is absent. */
  function HashIn(data: map<string, Value>, key: string): map<string, string>
  {
    if key in data && data[key].Hash? then data[key].fields else map[]
  }

  /** `a` and `b` agree at `key`: both lack it, or both hold the same value there. */
  predicate SameAt(a: map<string, Value>, b: map<string, Value>, key: string) {
    (key in a <==> key in b) && (key in a ==> a[key] == b[key])
  }

  /** `b` agrees with `a` at every key outside `keys`. */
  ghost predicate ChangedOnly(a: map<string, Value>, b: map<string, Value>, keys: set<string>) {
    forall k :: k !in keys ==> SameAt(a, b, k)
  }

  /** One more write widens the set of keys that may differ by the key written. */
  lemma ChangedOnlyStep(a: map<string, Value>, b: map<string, Value>, keys: set<string>, key: string, v: Value)
    requires ChangedOnly(a, b, keys)
    ensures ChangedOnly(a, b[key := v], keys + {key})
  {
    forall k | k !in keys + {key}
      ensures SameAt(a, b[key := v], k)
    {
      assert SameAt(a, b, k);
    }
  }

  /** The stored state after a list key receives `items`: an empty list deletes the key. */
  function PutList(data: map<string, Value>, key: string, items: seq<string>): map<string, Value>
  {
    if items == [] then data - {key} else data[key := List(items)]
  }

  lemma {:induction false} ReverseAppendLast<T>(s: seq<T>, x: T)
    ensures Reverse(s + [x]) == [x] + Reverse(s)
  {
    if s != [] {
      assert (s + [x])[1..] == s[1..] + [x];
      ReverseAppendLast(s[1..], x);
    } else {
      assert s + [x] == [x];
    }
  }

  /** Several values pushed at the head end up there in reverse argument order, ahead of the old list. */
  lemma {:induction false} LPushAllIsReverse(list: seq<string>, values: seq<string>)
    ensures LPushAll(list, values) == Reverse(values) + list
    decreases |values|
  {
    if values != [] {
      LPushAllIsReverse([values[0]] + list, values[1..]);
      assert Reverse(values) == Reverse(values[1..]) + [values[0]];
    }
  }

  /** Several values pushed at the tail end up there in argument order, after the old list. */
  lemma {:induction false} RPushAllIsAppend(list: seq<string>, values: seq<string>)
    ensures RPushAll(list, values) == list + values
    decreases |values|
  {
    if values != [] {
      RPushAllIsAppend(list + [values[0]], values[1..]);
      assert list + [values[0]] + values[1..] == list + values;
    }
  }

  /** A rotation keeps the length and the multiset of entries. */
  lemma RotateTailPreserves(list: seq<string>)
    requires |list| > 0
    ensures |RotateTail(list)| == |list|
    ensures multiset(RotateTail(list)) == multiset(list)
  {
    assert list == list[..|list| - 1] + [list[|list| - 1]];
  }

  /** The list after `k` rotations with nothing else happening in between. */
  function RotateTimes(list: seq<string>, k: nat): seq<string>
    requires |list| > 0 || k == 0
    decreases k
  {
    if k == 0 then list else RotateTimes(RotateTail(list), k - 1)
  }

  /** The entries the `k` rotations hand out, in the order they are handed out. */
  function RotationOutputs(list: seq<string>, k: nat): seq<string>
    requires |list| > 0 || k == 0
    decreases k
  {
    if k == 0 then [] else [list[|list| - 1]] + RotationOutputs(RotateTail(list), k - 1)
  }

  /** After `k` rotations the last `k` entries have moved, in order, in front of the others. */
  lemma {:induction false} RotateTimesClosedForm(list: seq<string>, k: nat)
    requires k <= |list|
    ensures RotateTimes(list, k) == list[|list| - k..] + list[..|list| - k]
    decreases k
  {
    if k > 0 {
      var n := |list|;
      var r := RotateTail(list);
      RotateTimesClosedForm(r, k - 1);
      assert r[n - (k - 1)..] == list[n - k..n - 1];
      assert r[..n - (k - 1)] == [list[n - 1]] + list[..n - k];
      assert list[n - k..] == list[n - k..n - 1] + [list[n - 1]];
    }
  }

  /** Rotating an n-entry list n times restores it. */
  lemma RotateFullCycle(list: seq<string>)
    ensures RotateTimes(list, |list|) == list
  {
    RotateTimesClosedForm(list, |list|);
  }

  /** After one rotation the last `k - 1` entries are those that preceded the old tail. */
  lemma RotatedSuffix(list: seq<string>, k: nat)
    requires 0 < k <= |list|
    ensures RotateTail(list)[|list| - (k - 1)..] == list[|list| - k..|list| - 1]
    ensures list[|list| - k..] == list[|list| - k..|list| - 1] + [list[|list| - 1]]
  {
  }

  /** The first `k` rotations hand out the last `k` entries, tail first. */
  lemma {:induction false} RotationOutputsClosedForm(list: seq<string>, k: nat)
    requires k <= |list|
    ensures RotationOutputs(list, k) == Reverse(list[|list| - k..])
    decreases k
  {
    var n := |list|;
    if k == 0 {
      assert list[n - k..] == [];
    } else {
      var r := RotateTail(list);
      RotatedSuffix(list, k);
      RotationOutputsClosedForm(r, k - 1);
      ReversedStep(RotationOutputs(list, k), RotationOutputs(r, k - 1), list[n - k..n - 1], list[n - 1], list[n - k..]);
    }
  }

  /** Handing out `last` and then the reversal of `moved` hands out the reversal of `moved + [last]`. */
  lemma ReversedStep(out: seq<string>, rest: seq<string>, moved: seq<string>, last: string, whole: seq<string>)
    requires out == [last] + rest && rest == Reverse(moved) && whole == moved + [last]
    ensures out == Reverse(whole)
  {
    ReverseAppendLast(moved, last);
  }

  /** `LREM key -1 v` takes out exactly the occurrence of `v` nearest the tail; without one, nothing changes. */
  lemma {:induction false} LRemLastRemovesLastOccurrence(list: seq<string>, v: string)
    ensures v !in list ==> LRemLast(list, v) == list
    ensures v in list ==>
      LRemLast(list, v) == list[..LastIndexOf(list, v)] + list[LastIndexOf(list, v) + 1..]
  {
    if list != [] {
      var n := |list|;
      var init := list[..n - 1];
      assert list == init + [list[n - 1]];
      if list[n - 1] != v {
        LRemLastRemovesLastOccurrence(init, v);
        assert LRemLast(list, v) == LRemLast(init, v) + [list[n - 1]];
        if v in init {
          var i := LastIndexOf(init, v);
          assert LastIndexOf(list, v) == i;
          assert init[..i] == list[..i];
          assert init[i + 1..] + [list[n - 1]] == list[i + 1..];
        } else {
          assert v !in list;
        }
      } else {
        assert LastIndexOf(list, v) == n - 1;
      }
    }
  }

  /** `LREM key -1 v` removes one copy of `v` when there is one, and nothing else. */
  lemma {:induction false} LRemLastMultiset(list: seq<string>, v: string)
    ensures multiset(LRemLast(list, v)) == multiset(list) - multiset{v}
  {
    if list != [] {
      var n := |list| - 1;
      var init, last := list[..n], list[n];
      assert list == init + [last];
      assert multiset(list) == multiset(init) + multiset{last};
      if last != v {
        LRemLastMultiset(init, v);
        assert multiset(LRemLast(list, v)) == multiset(LRemLast(init, v)) + multiset{last};
      }
    }
  }


  /** `LREM key -1 v` shortens the list by one exactly when `v` is in it. */
  lemma LRemLastLength(list: seq<string>, v: string)
    ensures |LRemLast(list, v)| == if v in list then |list| - 1 else |list|
  {
    LRemLastRemovesLastOccurrence(list, v);
  }

  /** Once the only copy of `v` is gone, removing `v` again changes nothing. */
  lemma LRemLastRepeated(list: seq<string>, v: string)
    requires multiset(list)[v] <= 1
    ensures LRemLast(LRemLast(list, v), v) == LRemLast(list, v)
  {
    LRemLastMultiset(list, v);
    var r := LRemLast(list, v);
    assert multiset(r)[v] == 0;
    LRemLastRemovesLastOccurrence(r, v);
  }

  class Store {
    var data: map<string, Value>

    constructor ()
      ensures data == map[]
    {
      data := map[];
    }

    /** `GET key` on a string key; None when the key is absent. */
    function Get(key: string): Option<string>
      reads this
    {
      StrAt(data, key)
    }

    /** `GET key` on a key that holds JSON text, read back as the document. */
    function GetJson(key: string): Option<JsonValue>
      reads this
    {
      JsonAt(data, key)
    }

    /** `EXISTS key`. */
    function Exists(key: string): bool
      reads this
    {
      key in data
    }

    /** `LRANGE key 0 -1`: the list at `key`, empty when the key is absent. */
    function ListAt(key: string): seq<string>
      reads this
    {
      if key in data && data[key].List? then data[key].items else []
    }

    /** `HGETALL key`: the hash at `key`, empty when the key is absent. */
    function HashAt(key: string): map<string, string>
      reads this
    {
      HashIn(data, key)
    }

    /** Redis answers a list command on a key of another type with WRONGTYPE; the modelled code never does that. */
    predicate HoldsListOrNothing(key: string)
      reads this
    {
      key !in data || data[key].List?
    }

    /** The same for hash commands. */
    predicate HoldsHashOrNothing(key: string)
      reads this
    {
      key !in data || data[key].Hash?
    }

    /** `SET key value` (an expiry, when given, is not modelled). */
    method Set(key: string, value: string)
      modifies this
      ensures data == old(data)[key := Str(value)]
    {
      data := data[key := Str(value)];
    }

    /** `SET key json.dumps(doc)`. */
    method SetJson(key: string, doc: JsonValue)
      modifies this
      ensures data == old(data)[key := Json(doc)]
    {
      data := data[key := Json(doc)];
    }

    /** `DEL key`. */
    method Delete(key: string)
      modifies this
      ensures data == old(data) - {key}
    {
      data := data - {key};
    }

    /** `LPUSH key v1 … vn`; Redis refuses the command without values. */
    method LPush(key: string, values: seq<string>)
      requires |values| > 0
      requires HoldsListOrNothing(key)
      modifies this
      ensures data == old(data)[key := List(LPushAll(old(ListAt(key)), values))]
    {
      data := data[key := List(LPushAll(ListAt(key), values))];
    }

    /** `RPUSH key v1 … vn`; Redis refuses the command without values. */
    method RPush(key: string, values: seq<string>)
      requires |values| > 0
      requires HoldsListOrNothing(key)
      modifies this
      ensures data == old(data)[key := List(RPushAll(old(ListAt(key)), values))]
    {
      data := data[key := List(RPushAll(ListAt(key), values))];
    }

    /**
     * `BRPOPLPUSH key key`: pops the tail and pushes it back at the head of
     * the same list. On an empty list the command blocks until another
     * client pushes, so the model asks for a non-empty list.
     */
    method RotateTailToHead(key: string) returns (moved: string)
      requires ListAt(key) != []
      requires HoldsListOrNothing(key)
      modifies this
      ensures moved == old(ListAt(key))[|old(ListAt(key))| - 1]
      ensures data == old(data)[key := List(RotateTail(old(ListAt(key))))]
    {
      var items := ListAt(key);
      moved := items[|items| - 1];
      data := data[key := List(RotateTail(items))];
    }

    /** `LREM key -1 value`. */
    method LRemFromTail(key: string, value: string)
      requires HoldsListOrNothing(key)
      modifies this
      ensures data == PutList(old(data), key, LRemLast(old(ListAt(key)), value))
    {
      data := PutList(data, key, LRemLast(ListAt(key), value));
    }

    /**
     * `BLPOP key`: removes and returns the head. On an empty list the
     * command blocks, so the model asks for a non-empty list.
     */
    method BLPop(key: string) returns (head: string)
      requires ListAt(key) != []
      requires HoldsListOrNothing(key)
      modifies this
      ensures head == old(ListAt(key))[0]
      ensures data == PutList(old(data), key, old(ListAt(key))[1..])
    {
      var items := ListAt(key);
      head := items[0];
      data := PutList(data, key, items[1..]);
    }

    /** `HMSET key mapping`: the fields are merged into the hash; Redis refuses an empty mapping. */
    method HMSet(key: string, fields: map<string, string>)
      requires |fields| > 0
      requires HoldsHashOrNothing(key)
      modifies this
      ensures data == old(data)[key := Hash(old(HashAt(key)) + fields)]
    {
      data := data[key := Hash(HashAt(key) + fields)];
    }
  }
}
