/**
 * The pure half of warreport/battle_reporting.py: whether a battle is
 * worth reporting, and the text of the report, which links to the room's
 * history just before the fighting and lists each player's body parts,
 * players with most parts first.
 */
module BattleReporting {
  import opened Wrappers
  import opened Strings

  /** A player's name with its part counts, `(type, count)` in the dict's order. */
  type Player = (string, seq<(string, int)>)

  /**
   * The fields of a reportable battle the report reads: the room, the
   * tick hostilities began, the room's owner and controller level when the
   * dict has them (an owner field may hold null, `Some(None)`), and the
   * player counts in the dict's order.
   */
  datatype BattleInfo = BattleInfo(
    room: string,
    hostilitiesTick: int,
    owner: Option<Option<string>>,
    rcl: Option<int>,
    playerCounts: seq<Player>)

  /** No two players share a name, as in a dict. */
  predicate DistinctNames(ps: seq<Player>) {
    forall i, j :: 0 <= i < j < |ps| ==> ps[i].0 != ps[j].0
  }

  /** No two part entries share a type, as in a dict. */
  predicate DistinctTypes(parts: seq<(string, int)>) {
    forall i, j :: 0 <= i < j < |parts| ==> parts[i].0 != parts[j].0
  }

  function PlayerNames(ps: seq<Player>): set<string> {
    set i | 0 <= i < |ps| :: ps[i].0
  }

  /** `should_report`: at least two entries in `player_counts`. */
  predicate ShouldReport(info: BattleInfo) {
    |info.playerCounts| >= 2
  }

  lemma {:induction false} DistinctNamesCount(ps: seq<Player>)
    requires DistinctNames(ps)
    ensures |PlayerNames(ps)| == |ps|
  {
    if ps != [] {
      var n := |ps| - 1;
      DistinctNamesCount(ps[..n]);
      assert PlayerNames(ps) == PlayerNames(ps[..n]) + {ps[n].0} by {
        forall i | 0 <= i < n
          ensures ps[..n][i].0 == ps[i].0
        {
        }
      }
      assert ps[n].0 !in PlayerNames(ps[..n]);
    }
  }

  /** A battle is reported exactly when at least two different players fought in it. */
  lemma ShouldReportIffTwoPlayers(info: BattleInfo)
    requires DistinctNames(info.playerCounts)
    ensures ShouldReport(info) <==> |PlayerNames(info.playerCounts)| >= 2
  {
    DistinctNamesCount(info.playerCounts);
  }

  /** `str()` of the owner field: its name, or `None` for a JSON null. */
  function OwnerText(owner: Option<string>): string {
    if owner.Some? then owner.value else "None"
  }

  /** `describe_room`: the owner and the level in parentheses, the owner alone, or nothing without an owner field. */
  function DescribeRoom(info: BattleInfo): string {
    match info.owner
    case None => ""
    case Some(owner) =>
      match info.rcl
      case Some(rcl) => " (" + OwnerText(owner) + ", " + IntToString(rcl) + ")"
      case None => " (" + OwnerText(owner) + ")"
  }

  /**
   * The room is described exactly when the dict has an owner field, null
   * or not: after a space and in parentheses, the owner's name (`None` for
   * a null), then, when the dict has a level, a comma and the level, which
   * reads back from the text. The level shows only next to an owner.
   */
  lemma DescribeRoomShape(info: BattleInfo)
    ensures DescribeRoom(info) == "" <==> info.owner.None?
    ensures info.owner.Some? ==>
              var d := DescribeRoom(info);
              var text := OwnerText(info.owner.value);
              |d| >= 3 + |text| && d[..2] == " (" && d[|d| - 1] == ')' && d[2..2 + |text|] == text
    ensures info.owner.Some? && info.rcl.None? ==> |DescribeRoom(info)| == 3 + |OwnerText(info.owner.value)|
    ensures info.owner.Some? && info.rcl.Some? ==>
              var d := DescribeRoom(info);
              var text := OwnerText(info.owner.value);
              |d| > 5 + |text| && d[2 + |text|..4 + |text|] == ", " &&
              ParseInt(d[4 + |text|..|d| - 1]) == Some(info.rcl.value)
    ensures info.owner == Some(None) ==> DescribeRoom(info)[2..6] == "None"
    ensures info.owner.None? ==> DescribeRoom(info) == DescribeRoom(info.(rcl := None))
  {
    if info.owner.Some? {
      var d := DescribeRoom(info);
      var text := OwnerText(info.owner.value);
      if info.rcl.Some? {
        var level := IntToString(info.rcl.value);
        assert d == " (" + text + ", " + level + ")";
        assert d[4 + |text|..|d| - 1] == level;
        ParseIntOfIntToString(info.rcl.value);
      } else {
        assert d == " (" + text + ")";
      }
    }
  }

  /** `sum(parts.values())`. */
  function Total(parts: seq<(string, int)>): int {
    if parts == [] then 0 else parts[0].1 + Total(parts[1..])
  }

  predicate ByTotalDescending(ps: seq<Player>) {
    forall i, j :: 0 <= i < j < |ps| ==> Total(ps[i].1) >= Total(ps[j].1)
  }

  /** Places `p` after every player whose total is at least its own. */
  function InsertByTotal(p: Player, sorted: seq<Player>): seq<Player>
  {
    if sorted == [] then [p]
    else if Total(sorted[0].1) >= Total(p.1) then [sorted[0]] + InsertByTotal(p, sorted[1..])
    else [p] + sorted
  }

  /** `sorted(items, key=lambda t: -sum(t[1].values()))`, as a stable insertion sort. */
  function SortByTotal(ps: seq<Player>): seq<Player>
  {
    if ps == [] then [] else InsertByTotal(ps[|ps| - 1], SortByTotal(ps[..|ps| - 1]))
  }

  /** The players whose total is `v`, in order. */
  function WithTotal(ps: seq<Player>, v: int): seq<Player>
  {
    if ps == [] then [] else (if Total(ps[0].1) == v then [ps[0]] else []) + WithTotal(ps[1..], v)
  }

  lemma {:induction false} WithTotalAppend(a: seq<Player>, b: seq<Player>, v: int)
    ensures WithTotal(a + b, v) == WithTotal(a, v) + WithTotal(b, v)
  {
    if a == [] {
      assert a + b == b;
    } else {
      var head := if Total(a[0].1) == v then [a[0]] else [];
      assert (a + b)[0] == a[0];
      assert (a + b)[1..] == a[1..] + b;
      WithTotalAppend(a[1..], b, v);
      assert WithTotal(a + b, v) == head + (WithTotal(a[1..], v) + WithTotal(b, v));
      assert WithTotal(a, v) == head + WithTotal(a[1..], v);
    }
  }

  lemma {:induction false} WithTotalNone(ps: seq<Player>, v: int)
    requires forall i :: 0 <= i < |ps| ==> Total(ps[i].1) < v
    ensures WithTotal(ps, v) == []
  {
    if ps != [] {
      WithTotalNone(ps[1..], v);
    }
  }

  lemma {:induction false} InsertByTotalPermutes(p: Player, s: seq<Player>)
    ensures multiset(InsertByTotal(p, s)) == multiset(s) + multiset{p}
  {
    if s != [] && Total(s[0].1) >= Total(p.1) {
      InsertByTotalPermutes(p, s[1..]);
      assert s == [s[0]] + s[1..];
    }
  }

  lemma {:induction false} InsertByTotalSorted(p: Player, s: seq<Player>)
    requires ByTotalDescending(s)
    ensures ByTotalDescending(InsertByTotal(p, s))
  {
    var r := InsertByTotal(p, s);
    if s != [] && Total(s[0].1) >= Total(p.1) {
      InsertByTotalSorted(p, s[1..]);
      InsertByTotalPermutes(p, s[1..]);
      var rest := InsertByTotal(p, s[1..]);
      assert r == [s[0]] + rest;
      forall j | 0 < j < |r|
        ensures Total(r[0].1) >= Total(r[j].1)
      {
        assert r[j] == rest[j - 1];
        assert rest[j - 1] in multiset(rest);
        if r[j] != p {
          assert r[j] in multiset(s[1..]);
          var k :| 0 <= k < |s[1..]| && s[1..][k] == r[j];
          assert s[k + 1] == r[j];
        }
      }
    }
  }

  lemma {:induction false} InsertByTotalStable(p: Player, s: seq<Player>, v: int)
    requires ByTotalDescending(s)
    ensures WithTotal(InsertByTotal(p, s), v) == WithTotal(s, v) + (if Total(p.1) == v then [p] else [])
  {
    var r := InsertByTotal(p, s);
    if s == [] {
    } else if Total(s[0].1) >= Total(p.1) {
      assert ByTotalDescending(s[1..]);
      InsertByTotalStable(p, s[1..], v);
      var head := if Total(s[0].1) == v then [s[0]] else [];
      assert r[1..] == InsertByTotal(p, s[1..]);
      assert WithTotal(r, v) == head + WithTotal(r[1..], v);
      assert WithTotal(s, v) == head + WithTotal(s[1..], v);
    } else {
      assert r[1..] == s;
      if Total(p.1) == v {
        assert forall i :: 0 <= i < |s| ==> Total(s[i].1) < v;
        WithTotalNone(s, v);
      }
    }
  }

  lemma {:induction false} SortByTotalDescending(ps: seq<Player>)
    ensures ByTotalDescending(SortByTotal(ps))
    ensures multiset(SortByTotal(ps)) == multiset(ps)
  {
    if ps != [] {
      var n := |ps| - 1;
      var init := ps[..n];
      SortByTotalDescending(init);
      InsertByTotalSorted(ps[n], SortByTotal(init));
      InsertByTotalPermutes(ps[n], SortByTotal(init));
      assert ps == init + [ps[n]];
    }
  }

  lemma {:induction false} SortByTotalStable(ps: seq<Player>, v: int)
    ensures WithTotal(SortByTotal(ps), v) == WithTotal(ps, v)
  {
    if ps != [] {
      var n := |ps| - 1;
      var init, p := ps[..n], ps[n];
      var sortedInit := SortByTotal(init);
      var own := if Total(p.1) == v then [p] else [];
      assert SortByTotal(ps) == InsertByTotal(p, sortedInit);
      SortByTotalStable(init, v);
      SortByTotalDescending(init);
      InsertByTotalStable(p, sortedInit, v);
      assert WithTotal(SortByTotal(ps), v) == WithTotal(init, v) + own;
      assert WithTotal([p], v) == own by {
        assert [p][1..] == [];
      }
      WithTotalAppend(init, [p], v);
      assert ps == init + [p];
    }
  }

  /**
   * The players come out ordered by non-increasing total, each exactly as
   * often as it went in, and players with equal totals keep their order
   * (the sort is stable).
   */
  lemma SortByTotalProperties(ps: seq<Player>)
    ensures ByTotalDescending(SortByTotal(ps))
    ensures multiset(SortByTotal(ps)) == multiset(ps)
    ensures forall v :: WithTotal(SortByTotal(ps), v) == WithTotal(ps, v)
  {
    SortByTotalDescending(ps);
    forall v
      ensures WithTotal(SortByTotal(ps), v) == WithTotal(ps, v)
    {
      SortByTotalStable(ps, v);
    }
  }

  predicate TypesAscending(parts: seq<(string, int)>) {
    forall i, j :: 0 <= i < j < |parts| ==> LexLess(parts[i].0, parts[j].0)
  }

  /** Places `x` after every entry whose type does not come after its own. */
  function InsertByType(x: (string, int), sorted: seq<(string, int)>): seq<(string, int)>
  {
    if sorted == [] then [x]
    else if LexLess(x.0, sorted[0].0) then [x] + sorted
    else [sorted[0]] + InsertByType(x, sorted[1..])
  }

  /** `sorted(parts.items(), key=lambda t: t[0])`, as an insertion sort. */
  function SortByType(parts: seq<(string, int)>): seq<(string, int)>
  {
    if parts == [] then [] else InsertByType(parts[|parts| - 1], SortByType(parts[..|parts| - 1]))
  }

  lemma {:induction false} InsertByTypePermutes(x: (string, int), s: seq<(string, int)>)
    ensures multiset(InsertByType(x, s)) == multiset(s) + multiset{x}
  {
    if s != [] && !LexLess(x.0, s[0].0) {
      InsertByTypePermutes(x, s[1..]);
      assert s == [s[0]] + s[1..];
    }
  }

  /** Every entry after the head of an ascending list comes after the head. */
  lemma TailAfterHead(s: seq<(string, int)>, y: (string, int))
    requires TypesAscending(s) && |s| > 0
    requires y in multiset(s[1..])
    ensures LexLess(s[0].0, y.0)
  {
    var k :| 0 <= k < |s[1..]| && s[1..][k] == y;
    assert s[k + 1] == y;
  }

  /** An entry before everything in an ascending list keeps it ascending. */
  lemma ConsAscending(h: (string, int), rest: seq<(string, int)>)
    requires TypesAscending(rest)
    requires forall y :: y in multiset(rest) ==> LexLess(h.0, y.0)
    ensures TypesAscending([h] + rest)
  {
    var r := [h] + rest;
    forall i, j | 0 <= i < j < |r|
      ensures LexLess(r[i].0, r[j].0)
    {
      assert r[j] == rest[j - 1];
      if i == 0 {
        assert rest[j - 1] in multiset(rest);
      } else {
        assert r[i] == rest[i - 1];
      }
    }
  }

  /** `x`, coming before the head of an ascending list, comes before all of it. */
  lemma BeforeHead(x: (string, int), s: seq<(string, int)>)
    requires TypesAscending(s) && |s| > 0
    requires LexLess(x.0, s[0].0)
    ensures forall y :: y in multiset(s) ==> LexLess(x.0, y.0)
  {
    forall y | y in multiset(s)
      ensures LexLess(x.0, y.0)
    {
      var k :| 0 <= k < |s| && s[k] == y;
      if k > 0 {
        LexLessTransitive(x.0, s[0].0, y.0);
      }
    }
  }

  /** The head of an ascending list comes before the rest and before a later-typed `x`. */
  lemma HeadBeforeInsertion(x: (string, int), s: seq<(string, int)>)
    requires TypesAscending(s) && |s| > 0
    requires LexLess(s[0].0, x.0)
    ensures forall y :: y in multiset(s[1..]) + multiset{x} ==> LexLess(s[0].0, y.0)
  {
    forall y | y in multiset(s[1..]) + multiset{x}
      ensures LexLess(s[0].0, y.0)
    {
      if y != x {
        TailAfterHead(s, y);
      }
    }
  }

  lemma {:induction false} InsertByTypeProperties(x: (string, int), s: seq<(string, int)>)
    requires TypesAscending(s)
    requires forall i :: 0 <= i < |s| ==> s[i].0 != x.0
    ensures TypesAscending(InsertByType(x, s))
    ensures multiset(InsertByType(x, s)) == multiset(s) + multiset{x}
  {
    InsertByTypePermutes(x, s);
    if s == [] {
    } else if LexLess(x.0, s[0].0) {
      BeforeHead(x, s);
      ConsAscending(x, s);
    } else {
      LexLessTotal(x.0, s[0].0);
      assert TypesAscending(s[1..]);
      InsertByTypeProperties(x, s[1..]);
      var rest := InsertByType(x, s[1..]);
      HeadBeforeInsertion(x, s);
      ConsAscending(s[0], rest);
    }
  }

  /** A rearrangement of all but the last entry holds no entry of the last entry's type. */
  lemma TypeAbsentFromPermutation(parts: seq<(string, int)>, s: seq<(string, int)>)
    requires DistinctTypes(parts) && |parts| > 0
    requires multiset(s) == multiset(parts[..|parts| - 1])
    ensures forall i :: 0 <= i < |s| ==> s[i].0 != parts[|parts| - 1].0
  {
    var n := |parts| - 1;
    forall i | 0 <= i < |s|
      ensures s[i].0 != parts[n].0
    {
      assert s[i] in multiset(parts[..n]);
      var k :| 0 <= k < n && parts[..n][k] == s[i];
      assert parts[k] == s[i];
    }
  }

  /** The types come out in strictly ascending order, each entry exactly as often as it went in. */
  lemma {:induction false} SortByTypeProperties(parts: seq<(string, int)>)
    requires DistinctTypes(parts)
    ensures TypesAscending(SortByType(parts))
    ensures multiset(SortByType(parts)) == multiset(parts)
  {
    if parts != [] {
      var n := |parts| - 1;
      var init := parts[..n];
      assert DistinctTypes(init);
      SortByTypeProperties(init);
      var s := SortByType(init);
      TypeAbsentFromPermutation(parts, s);
      InsertByTypeProperties(parts[n], s);
      assert parts == init + [parts[n]];
    }
  }

  /** `"{} {}{}".format(count, type, 's' if count > 1 else '')`. */
  function RenderPart(part: (string, int)): string {
    IntToString(part.1) + " " + part.0 + (if part.1 > 1 then "s" else "")
  }

  /** The position of the first `c` in `s`, |s| when there is none. */
  function FirstIndexOf(s: string, c: char): (i: nat)
    ensures i <= |s|
    ensures forall k :: 0 <= k < i ==> s[k] != c
    ensures i < |s| ==> s[i] == c
  {
    if s == [] || s[0] == c then 0 else 1 + FirstIndexOf(s[1..], c)
  }

  /** Reads a rendered part back: the count before the first space, the type after it, less the plural `s`. */
  function ParsePart(s: string): Option<(string, int)>
  {
    var i := FirstIndexOf(s, ' ');
    if i == |s| then None
    else
      match ParseInt(s[..i])
      case None => None
      case Some(count) =>
        var rest := s[i + 1..];
        if count <= 1 then Some((rest, count))
        else if |rest| > 0 && rest[|rest| - 1] == 's' then Some((rest[..|rest| - 1], count))
        else None
  }

  /** The plural `s` never makes a rendered part ambiguous: the count and the type read back. */
  lemma ParseRenderPart(part: (string, int))
    ensures ParsePart(RenderPart(part)) == Some(part)
  {
    var digits := IntToString(part.1);
    var s := RenderPart(part);
    IntToStringAvoids(part.1, ' ');
    assert s[|digits|] == ' ';
    assert FirstIndexOf(s, ' ') == |digits|;
    assert s[..|digits|] == digits;
    ParseIntOfIntToString(part.1);
    var rest := s[|digits| + 1..];
    if part.1 > 1 {
      assert rest == part.0 + "s";
    } else {
      assert rest == part.0;
    }
  }

  /** `"{} ({})".format(name, ", ".join(...))` over the types in ascending order. */
  function RenderPlayer(p: Player): string {
    var parts := SortByType(p.1);
    p.0 + " (" + Join(seq(|parts|, i requires 0 <= i < |parts| => RenderPart(parts[i])), ", ") + ")"
  }

  /** `describe_battle`: the rendered players in report order, joined with " vs. ". */
  function DescribeBattle(ps: seq<Player>): string {
    var ordered := SortByTotal(ps);
    Join(seq(|ordered|, i requires 0 <= i < |ordered| => RenderPlayer(ordered[i])), " vs. ")
  }

  lemma {:induction false} DistinctNamesOnce(ps: seq<Player>, p: Player)
    requires DistinctNames(ps) && p in ps
    ensures multiset(ps)[p] == 1
  {
    var n := |ps| - 1;
    assert ps == ps[..n] + [ps[n]];
    if ps[n] == p {
      assert p !in ps[..n];
    } else {
      DistinctNamesOnce(ps[..n], p);
    }
  }

  /** Every player of the battle appears in the report exactly once, and nothing else does. */
  lemma EveryPlayerOnce(ps: seq<Player>)
    requires DistinctNames(ps)
    ensures |SortByTotal(ps)| == |ps|
    ensures forall p :: p in ps ==> multiset(SortByTotal(ps))[p] == 1
    ensures forall p :: p in SortByTotal(ps) ==> p in ps
  {
    SortByTotalProperties(ps);
    assert |multiset(SortByTotal(ps))| == |multiset(ps)|;
    forall p | p in ps
      ensures multiset(SortByTotal(ps))[p] == 1
    {
      DistinctNamesOnce(ps, p);
    }
    forall p | p in SortByTotal(ps)
      ensures p in ps
    {
      assert p in multiset(SortByTotal(ps));
    }
  }

  const HistoryLinkPrefix := "Battle in <https://screeps.com/a/#!/history/"

  /** `format_message`: a link to the room's history five ticks before hostilities, the room description, then the players. */
  function FormatMessage(info: BattleInfo): string {
    HistoryLinkPrefix + info.room + "?t=" + IntToString(info.hostilitiesTick - 5) + "|" + info.room + ">" +
    DescribeRoom(info) + ": " + DescribeBattle(info.playerCounts)
  }

  /** The tick a message for `room` links to: the digits after `?t=` up to the first `|`. */
  function LinkedTick(message: string, room: string): Option<int> {
    var head := HistoryLinkPrefix + room + "?t=";
    if |message| >= |head| && message[..|head|] == head then
      ParseInt(Split(message[|head|..], '|')[0])
    else None
  }

  lemma LinkedTickReadsBack(room: string, tick: int, rest: string)
    ensures LinkedTick(HistoryLinkPrefix + room + "?t=" + IntToString(tick) + "|" + rest, room) == Some(tick)
  {
    var head := HistoryLinkPrefix + room + "?t=";
    var digits := IntToString(tick);
    var message := head + digits + "|" + rest;
    assert message == head + (digits + ['|'] + rest);
    assert message[..|head|] == head;
    assert message[|head|..] == digits + ['|'] + rest;
    IntToStringAvoids(tick, '|');
    SplitAfterFirstPiece(digits, rest, '|');
    ParseIntOfIntToString(tick);
  }

  /** The link in a report points five ticks before hostilities began. */
  lemma FormatMessageLinksBeforeHostilities(info: BattleInfo)
    ensures LinkedTick(FormatMessage(info), info.room) == Some(info.hostilitiesTick - 5)
  {
    var rest := info.room + ">" + DescribeRoom(info) + ": " + DescribeBattle(info.playerCounts);
    var head := HistoryLinkPrefix + info.room + "?t=" + IntToString(info.hostilitiesTick - 5) + "|";
    assert FormatMessage(info) == head + rest;
    LinkedTickReadsBack(info.room, info.hostilitiesTick - 5, rest);
  }
}
