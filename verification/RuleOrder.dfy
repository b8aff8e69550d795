/** What reordering does to the order rules are listed, and so evaluated, in. */
module RuleOrder {
  import opened RuleTable
  import Rules
  import Sequences
  import Sorting

  /** The ids in `ORDER BY ord`. */
  ghost predicate Lists(list: seq<int>, rows: map<int, Row>) {
    && (forall i :: 0 <= i < |list| ==> list[i] in rows)
    && (forall id :: id in rows ==> id in list)
    && (forall i, j :: 0 <= i < j < |list| ==> rows[list[i]].ord < rows[list[j]].ord)
  }

  function OrdOf(rows: map<int, Row>, id: int): int {
    if id in rows then rows[id].ord else 0
  }

  /** A stored rule with its channel set, which rule_channels keeps apart. */
  function Attach(rows: map<int, Row>, ruleChannels: map<int, seq<int>>, id: int): Rules.Rule
    requires id in rows
  {
    rows[id].rule.(id := id, channelIds := if id in ruleChannels then ruleChannels[id] else [])
  }

  method ListIds(rows: map<int, Row>) returns (list: seq<int>)
    requires Unique(rows)
    ensures Lists(list, rows)
  {
    var ids := Sorting.Range(rows.Keys);
    list := Sorting.Sort(ids, (a, b) => OrdOf(rows, a) < OrdOf(rows, b));
    Sorting.RearrangedDistinct(ids, list);
    assert forall i :: 0 <= i < |list| ==> list[i] in list;
    assert forall i, j :: 0 <= i < j < |list| ==> !(OrdOf(rows, list[j]) < OrdOf(rows, list[i]));
  }

  /** The rule as stored under the id, with the channels stored for the id, none if absent. */
  ghost predicate ListedAs(rule: Rules.Rule, rows: map<int, Row>, ruleChannels: map<int, seq<int>>, id: int) {
    && id in rows
    && rule.id == id
    && rule.enabled == rows[id].rule.enabled
    && rule.continueOnMatch == rows[id].rule.continueOnMatch
    && rule.bypassFloodControl == rows[id].rule.bypassFloodControl
    && rule.matchDeviceId == rows[id].rule.matchDeviceId
    && rule.matchOidGlob == rows[id].rule.matchOidGlob
    && rule.matchVarbindRegex == rows[id].rule.matchVarbindRegex
    && rule.severityId == rows[id].rule.severityId
    && (id in ruleChannels ==> rule.channelIds == ruleChannels[id])
    && (id !in ruleChannels ==> rule.channelIds == [])
  }

  /** All rules in order, each with its channel set. */
  method ListRules(rows: map<int, Row>, ruleChannels: map<int, seq<int>>)
    returns (rules: seq<Rules.Rule>, ghost list: seq<int>)
    requires Unique(rows)
    ensures Lists(list, rows) && |rules| == |list|
    ensures forall i :: 0 <= i < |rules| ==> ListedAs(rules[i], rows, ruleChannels, list[i])
  {
    var ids := ListIds(rows);
    list := ids;
    rules := [];
    for i := 0 to |ids|
      invariant |rules| == i
      invariant forall j :: 0 <= j < i ==> ListedAs(rules[j], rows, ruleChannels, ids[j])
    {
      rules := rules + [Attach(rows, ruleChannels, ids[i])];
    }
  }

  /** Stored channels are the ones that count: a listed rule that contributes and has channels
      stored sends to exactly those, whatever the default routes are, and the decision names
      them all. */
  lemma StoredChannelsRoute(m: Rules.Matchers, data: Rules.DataSource, ev: Rules.Event, d: Rules.Decision,
                            rows: map<int, Row>, ruleChannels: map<int, seq<int>>,
                            rules: seq<Rules.Rule>, list: seq<int>, i: nat)
    requires |rules| == |list| && forall j :: 0 <= j < |rules| ==> ListedAs(rules[j], rows, ruleChannels, list[j])
    requires Rules.Reports(m, data, ev, rules, d) && Rules.Contributing(m, data, ev, rules, i)
    requires list[i] in ruleChannels && ruleChannels[list[i]] != []
    ensures forall ch :: Rules.RoutesTo(data, rules[i], d.severityId, ch) <==> ch in ruleChannels[list[i]]
    ensures forall ch :: ch in ruleChannels[list[i]] ==> ch in d.channelIds
  {
    assert ListedAs(rules[i], rows, ruleChannels, list[i]);
    forall ch | ch in ruleChannels[list[i]] ensures ch in d.channelIds {
      assert Rules.RoutesTo(data, rules[i], d.severityId, ch);
    }
  }

  /** And if every contributing rule has channels stored, the decision names no others. */
  lemma OnlyStoredChannels(m: Rules.Matchers, data: Rules.DataSource, ev: Rules.Event, d: Rules.Decision,
                           rows: map<int, Row>, ruleChannels: map<int, seq<int>>,
                           rules: seq<Rules.Rule>, list: seq<int>)
    requires |rules| == |list| && forall j :: 0 <= j < |rules| ==> ListedAs(rules[j], rows, ruleChannels, list[j])
    requires Rules.Reports(m, data, ev, rules, d) && d.matched
    requires forall i :: Rules.Contributing(m, data, ev, rules, i) ==>
      list[i] in ruleChannels && ruleChannels[list[i]] != []
    ensures forall ch :: ch in d.channelIds <==>
      exists i :: Rules.Contributing(m, data, ev, rules, i) && ch in ruleChannels[list[i]]
  {
    forall i | Rules.Contributing(m, data, ev, rules, i)
      ensures forall ch :: Rules.RoutesTo(data, rules[i], d.severityId, ch) <==> ch in ruleChannels[list[i]]
    {
      StoredChannelsRoute(m, data, ev, d, rows, ruleChannels, rules, list, i);
    }
  }

  lemma ListsHead(a: seq<int>, b: seq<int>, rows: map<int, Row>)
    requires Lists(a, rows) && Lists(b, rows) && a != []
    ensures b != [] && a[0] == b[0]
  {
    var first := a[0];
    assert first in rows;
    var j :| 0 <= j < |b| && b[j] == first;
    var other := b[0];
    assert other in rows;
    var i :| 0 <= i < |a| && a[i] == other;
    assert rows[first].ord <= rows[other].ord <= rows[first].ord;
  }

  /** A table is listed in one way only. */
  lemma {:induction false} ListsUnique(a: seq<int>, b: seq<int>, rows: map<int, Row>)
    requires Lists(a, rows) && Lists(b, rows)
    ensures a == b
    decreases |a|
  {
    if a != [] {
      ListsHead(a, b, rows);
      ListsTail(a, rows);
      ListsTail(b, rows);
      ListsUnique(a[1..], b[1..], rows - {a[0]});
      Sequences.SameParts(a, b);
    } else if b != [] {
      ListsHead(b, a, rows);
    }
  }

  lemma ListsTail(a: seq<int>, rows: map<int, Row>)
    requires Lists(a, rows) && a != []
    ensures Lists(a[1..], rows - {a[0]})
  {
    assert a == [a[0]] + a[1..];
  }

  // ---- The listed rules ----

  /** The known ids of the list, each at its last place. */
  function Listed(ids: seq<int>, rows: map<int, Row>): seq<int> {
    if ids == [] then []
    else (if ids[0] in rows && ids[0] !in ids[1..] then [ids[0]] else []) + Listed(ids[1..], rows)
  }

  /** The ids of the listing that the given list does not mention, in the same order. */
  function Unlisted(list: seq<int>, ids: seq<int>): seq<int> {
    if list == [] then []
    else Unlisted(list[..|list| - 1], ids) + if list[|list| - 1] in ids then [] else [list[|list| - 1]]
  }

  lemma {:induction false} ListedMembers(ids: seq<int>, rows: map<int, Row>)
    ensures forall id :: id in Listed(ids, rows) <==> id in ids && id in rows
  {
    if ids != [] {
      ListedMembers(ids[1..], rows);
      assert ids == [ids[0]] + ids[1..];
    }
  }

  lemma LastIndexUnique(ids: seq<int>, id: int, i: nat)
    requires i < |ids| && ids[i] == id && forall k :: i < k < |ids| ==> ids[k] != id
    ensures LastIndex(ids, id) == i
  {
    LastIndexIs(ids, id);
  }

  lemma LastIndexTail(ids: seq<int>, id: int)
    requires ids != [] && id in ids
    ensures LastIndex(ids, id) == if id in ids[1..] then LastIndex(ids[1..], id) + 1 else 0
  {
    assert ids == [ids[0]] + ids[1..];
    if id in ids[1..] {
      LastIndexIs(ids[1..], id);
      var i := LastIndex(ids[1..], id) + 1;
      forall k | i < k < |ids| ensures ids[k] != id {
        assert ids[k] == ids[1..][k - 1];
      }
      LastIndexUnique(ids, id, i);
    } else {
      forall k | 0 < k < |ids| ensures ids[k] != id {
        assert ids[k] == ids[1..][k - 1];
      }
      LastIndexUnique(ids, id, 0);
    }
  }

  /** The ids each stand at a later place of the list than the one before. */
  ghost predicate InOrderOf(listed: seq<int>, ids: seq<int>) {
    && (forall i :: 0 <= i < |listed| ==> listed[i] in ids)
    && (forall i, j :: 0 <= i < j < |listed| ==> LastIndex(ids, listed[i]) < LastIndex(ids, listed[j]))
  }

  lemma {:induction false} ListedInOrder(ids: seq<int>, rows: map<int, Row>)
    ensures InOrderOf(Listed(ids, rows), ids)
  {
    if ids != [] {
      var rest := Listed(ids[1..], rows);
      ListedInOrder(ids[1..], rows);
      forall i | 0 <= i < |rest| ensures rest[i] in ids && LastIndex(ids, rest[i]) == LastIndex(ids[1..], rest[i]) + 1 {
        assert ids == [ids[0]] + ids[1..];
        LastIndexTail(ids, rest[i]);
      }
      assert InOrderOf(rest, ids);
      if ids[0] in rows && ids[0] !in ids[1..] {
        LastIndexTail(ids, ids[0]);
        assert Listed(ids, rows) == [ids[0]] + rest;
      } else {
        assert Listed(ids, rows) == rest;
      }
    }
  }

  lemma {:induction false} UnlistedInOrder(list: seq<int>, ids: seq<int>, rows: map<int, Row>, out: seq<int>)
    requires forall i :: 0 <= i < |list| ==> list[i] in rows
    requires forall i, j :: 0 <= i < j < |list| ==> rows[list[i]].ord < rows[list[j]].ord
    requires out == Unlisted(list, ids)
    ensures forall id :: id in out <==> id in list && id !in ids
    ensures forall i :: 0 <= i < |out| ==> out[i] in rows
    ensures forall i, j :: 0 <= i < j < |out| ==> rows[out[i]].ord < rows[out[j]].ord
  {
    if list != [] {
      var most, last := list[..|list| - 1], list[|list| - 1];
      var before := Unlisted(most, ids);
      UnlistedInOrder(most, ids, rows, before);
      assert list == most + [last];
      forall i | 0 <= i < |before| ensures before[i] in rows && rows[before[i]].ord < rows[last].ord {
        var id := before[i];
        assert id in most;
        var j :| 0 <= j < |most| && most[j] == id;
        assert list[j] == id;
      }
      if last in ids {
        Sequences.Empty(before);
      } else {
        InOrderMore(before, last, rows);
      }
    }
  }

  lemma InOrderMore(before: seq<int>, last: int, rows: map<int, Row>)
    requires last in rows && forall i :: 0 <= i < |before| ==> before[i] in rows && rows[before[i]].ord < rows[last].ord
    requires forall i, j :: 0 <= i < j < |before| ==> rows[before[i]].ord < rows[before[j]].ord
    ensures var out := before + [last];
      && (forall id :: id in out <==> id in before || id == last)
      && (forall i :: 0 <= i < |out| ==> out[i] in rows)
      && (forall i, j :: 0 <= i < j < |out| ==> rows[out[i]].ord < rows[out[j]].ord)
  {
  }

  /** After a reorder the listed rules come first, by their last place in the given list,
      whatever repeats and unknown ids it has; the others follow in their old order. */
  lemma ReorderedListing(rows: map<int, Row>, list: seq<int>, ids: seq<int>)
    requires Lists(list, rows)
    requires |ids| <= 1000000 && forall id :: id in rows ==> rows[id].ord >= 0
    ensures Lists(Listed(ids, rows) + Unlisted(list, ids), Renumbered(rows, ids))
  {
    var first, rest, after := Listed(ids, rows), Unlisted(list, ids), Renumbered(rows, ids);
    ListedMembers(ids, rows);
    ListedInOrder(ids, rows);
    UnlistedInOrder(list, ids, rows, rest);
    forall i | 0 <= i < |first|
      ensures first[i] in rows && after[first[i]].ord == LastIndex(ids, first[i]) < |ids|
    {
      assert first[i] in first;
      LastIndexIs(ids, first[i]);
    }
    forall i | 0 <= i < |rest|
      ensures rest[i] in rows && after[rest[i]].ord == rows[rest[i]].ord + OFFSET >= OFFSET
    {
      assert rest[i] in rest;
      var id := rest[i];
      assert id in rows;
    }
    ListsInTwo(first, rest, after, OFFSET);
  }

  /** A listing in two parts, the first below a position and the second from it on. */
  lemma ListsInTwo(first: seq<int>, rest: seq<int>, rows: map<int, Row>, at: int)
    requires forall id :: id in rows ==> id in first || id in rest
    requires forall i :: 0 <= i < |first| ==> first[i] in rows && rows[first[i]].ord < at
    requires forall i :: 0 <= i < |rest| ==> rest[i] in rows && rows[rest[i]].ord >= at
    requires forall i, j :: 0 <= i < j < |first| ==> rows[first[i]].ord < rows[first[j]].ord
    requires forall i, j :: 0 <= i < j < |rest| ==> rows[rest[i]].ord < rows[rest[j]].ord
    ensures Lists(first + rest, rows)
  {
  }

  ghost predicate InRange(rows: map<int, Row>) {
    forall id :: id in rows ==> 0 <= rows[id].ord < 1000000
  }

  /** With every position below a million and no more ids than that, no single-row update
      ever meets the constraint, in whatever order the shift visits the rows. */
  lemma ReorderCommitsInRange(rows: map<int, Row>, ids: seq<int>, scan: seq<int>)
    requires InRange(rows) && |ids| <= 1000000
    ensures ShiftClears(rows, scan) && NumberingClears(rows, ids)
  {
    forall i | 0 <= i < |scan| ensures ClearsRest(rows, scan, i) {
      forall q | i < q < |scan| && scan[i] in rows && scan[q] in rows
        ensures rows[scan[i]].ord + OFFSET != rows[scan[q]].ord
      {
        var a, b := scan[i], scan[q];
        assert a in rows && b in rows;
      }
    }
  }

  // ---- Exactly when the shift is safe ----

  ghost predicate NoneOffsetApart(rows: map<int, Row>) {
    forall a, b :: a in rows && b in rows ==> rows[a].ord + 1000000 != rows[b].ord
  }

  lemma SomeScan(keys: set<int>) returns (scan: seq<int>)
    ensures Enumerates(scan, keys)
    decreases |keys|
  {
    if k :| k in keys {
      scan := SomeScan(keys - {k});
      scan := [k] + scan;
    } else {
      scan := [];
    }
  }

  /** Two rows exactly the offset apart, and a scan that visits the lower one first. */
  lemma RefusedScan(rows: map<int, Row>, a: int, b: int) returns (scan: seq<int>)
    requires a in rows && b in rows && rows[a].ord + OFFSET == rows[b].ord
    ensures Enumerates(scan, rows.Keys) && !ShiftClears(rows, scan)
  {
    var rest := SomeScan(rows.Keys - {a} - {b});
    scan := [a, b] + rest;
    assert forall q :: 0 <= q < |rest| ==> scan[q + 2] == rest[q];
    assert scan[0] == a && scan[1] == b;
    assert !ClearsRest(rows, scan, 0);
  }

  /** The shift is safe in whatever order the database visits the rows if and only if no two
      positions are exactly the offset apart. */
  lemma EveryScanClearsIff(rows: map<int, Row>)
    ensures (forall scan :: Enumerates(scan, rows.Keys) ==> ShiftClears(rows, scan)) <==> NoneOffsetApart(rows)
  {
    if NoneOffsetApart(rows) {
      forall scan | Enumerates(scan, rows.Keys) ensures ShiftClears(rows, scan) {
        forall i | 0 <= i < |scan| ensures ClearsRest(rows, scan, i) {
          forall q | i < q < |scan| ensures rows[scan[i]].ord + OFFSET != rows[scan[q]].ord {
            var a, b := scan[i], scan[q];
            assert a in rows && b in rows;
          }
        }
      }
    } else {
      var a, b :| a in rows && b in rows && rows[a].ord + OFFSET == rows[b].ord;
      var scan := RefusedScan(rows, a, b);
    }
  }

  // ---- Exactly when the numbering is safe ----

  /** Where the id first stands in the list; the list's length if nowhere. */
  function FirstIndex(ids: seq<int>, id: int): (i: nat)
    ensures i <= |ids| && (i < |ids| ==> ids[i] == id)
    ensures forall j :: 0 <= j < i ==> ids[j] != id
  {
    if ids == [] || ids[0] == id then 0 else 1 + FirstIndex(ids[1..], id)
  }

  /** No rule, listed or not, is shifted onto a place that is filled with another rule before
      its own turn comes. */
  predicate NoneShiftedAhead(rows: map<int, Row>, ids: seq<int>) {
    forall id :: id in rows ==> !ShiftedAhead(rows, ids, id)
  }

  predicate ShiftedAhead(rows: map<int, Row>, ids: seq<int>, id: int)
    requires id in rows
  {
    var at := rows[id].ord + 1000000;
    0 <= at < FirstIndex(ids, id) && ids[at] in rows
  }

  lemma NotYetListed(ids: seq<int>, id: int, i: nat)
    requires i < |ids|
    ensures id != ids[i] && id !in ids[..i] <==> i < FirstIndex(ids, id)
  {
    var first := FirstIndex(ids, id);
    if first < i {
      assert ids[..i][first] == id;
    }
  }

  /** Whatever list is sent, numbering it is safe if and only if no rule is shifted ahead. */
  lemma NumberingIff(rows: map<int, Row>, ids: seq<int>)
    ensures NumberingClears(rows, ids) <==> NoneShiftedAhead(rows, ids)
  {
    if NumberingClears(rows, ids) {
      forall id | id in rows ensures !ShiftedAhead(rows, ids, id) {
        if ShiftedAhead(rows, ids, id) {
          NotYetListed(ids, id, rows[id].ord + OFFSET);
        }
      }
    } else {
      var i, other :| 0 <= i < |ids| && ids[i] in rows && other in rows && other != ids[i]
        && other !in ids[..i] && rows[other].ord + OFFSET == i;
      NotYetListed(ids, other, i);
      assert ShiftedAhead(rows, ids, other);
    }
  }

  /** The whole call, for any list: it commits, in whatever order the database visits the rows,
      if and only if no two positions are exactly the offset apart and no rule is shifted ahead. */
  lemma ReorderCommitsIff(rows: map<int, Row>, ids: seq<int>)
    ensures (forall scan :: Enumerates(scan, rows.Keys) ==> ShiftClears(rows, scan) && NumberingClears(rows, ids)) <==>
      NoneOffsetApart(rows) && NoneShiftedAhead(rows, ids)
  {
    EveryScanClearsIff(rows);
    NumberingIff(rows, ids);
    var scan := SomeScan(rows.Keys);
  }

  /** The second condition is not idle: with nothing the offset apart, and any order of the
      shift, a position below zero can still refuse the first number. */
  lemma NegativePositionRefuses(rows: map<int, Row>, a: int, b: int, scan: seq<int>)
    requires a in rows && b in rows && a != b && rows[b].ord == -1000000
    requires NoneOffsetApart(rows) && Enumerates(scan, rows.Keys)
    ensures ShiftClears(rows, scan) && !NumberingClears(rows, [a])
  {
    EveryScanClearsIff(rows);
    assert [a][0] == a && b !in [a][..0];
    assert rows[b].ord + OFFSET == 0;
  }

  // ---- What a partial reorder leaves ----

  /** Some listed rule now stands where an unlisted one used to. */
  ghost predicate TakesOldPlace(rows: map<int, Row>, ids: seq<int>, a: int, b: int) {
    a in rows && b in rows && a in ids && b !in ids && LastIndex(ids, a) == rows[b].ord
  }

  /** From positions in range, the next call's shift stays safe in every order if and only if
      no listed rule took the old position of an unlisted one. */
  lemma PartialReorderLeavesRoomIff(rows: map<int, Row>, ids: seq<int>)
    requires InRange(rows) && |ids| <= 1000000
    ensures NoneOffsetApart(Renumbered(rows, ids)) <==> forall a, b :: !TakesOldPlace(rows, ids, a, b)
  {
    var once := Renumbered(rows, ids);
    forall id | id in rows ensures id in ids ==> LastIndex(ids, id) < |ids| {
      if id in ids {
        LastIndexIs(ids, id);
      }
    }
    if NoneOffsetApart(once) {
      forall a, b | a in rows && b in rows && b !in ids ensures !TakesOldPlace(rows, ids, a, b) {
        assert once[b].ord == rows[b].ord + OFFSET != once[a].ord + OFFSET;
      }
    } else {
      var a, b :| a in once && b in once && once[a].ord + OFFSET == once[b].ord;
      assert a in rows && b in rows;
      assert TakesOldPlace(rows, ids, a, b);
    }
  }

  /** So one call that lists only some of the rules is enough: here the second call of two is
      refused. */
  lemma PartialReorderBlocksTheNext(a: Row, b: Row)
    requires a.ord == 1 && b.ord == 0
    ensures
      var rows := map[1 := a, 2 := b];
      var once := Renumbered(rows, [1]);
      && InRange(rows) && Unique(rows) && Unique(once)
      && Enumerates([1, 2], once.Keys) && !ShiftClears(once, [1, 2])
  {
    var once := Renumbered(map[1 := a, 2 := b], [1]);
    assert LastIndex([1], 1) == 0;
    assert once[1].ord == 0 && once[2].ord == OFFSET;
    assert !ClearsRest(once, [1, 2], 0) by {
      assert [1, 2][0] in once && [1, 2][1] in once;
    }
  }

  // ---- Full reorders: what the console sends ----

  lemma DistinctLastIndex(ids: seq<int>, i: nat)
    requires Sorting.Distinct(ids) && i < |ids|
    ensures LastIndex(ids, ids[i]) == i
  {
    LastIndexIs(ids, ids[i]);
  }

  /** If the list names every rule once and the call commits, the stored order is exactly
      that list, whatever the positions were before. */
  lemma FullReorderListing(rows: map<int, Row>, ids: seq<int>)
    requires Enumerates(ids, rows.Keys)
    ensures Lists(ids, Renumbered(rows, ids))
  {
    forall i | 0 <= i < |ids| ensures Renumbered(rows, ids)[ids[i]].ord == i {
      DistinctLastIndex(ids, i);
    }
  }

  /** In a list of all rules the places ahead of a rule are all filled. */
  lemma FullListShiftedAhead(rows: map<int, Row>, ids: seq<int>)
    requires Enumerates(ids, rows.Keys)
    ensures NoneShiftedAhead(rows, ids) <==>
      forall j :: 0 <= j < |ids| && ids[j] in rows ==> !(0 <= rows[ids[j]].ord + 1000000 < j)
  {
    forall j | 0 <= j < |ids| ensures FirstIndex(ids, ids[j]) == j && ids[j] in rows {
    }
    forall id | id in rows ensures FirstIndex(ids, id) < |ids| {
      var j :| 0 <= j < |ids| && ids[j] == id;
    }
    if NoneShiftedAhead(rows, ids) {
      forall j | 0 <= j < |ids| ensures !(0 <= rows[ids[j]].ord + 1000000 < j) {
        var id := ids[j];
        assert id in rows && !ShiftedAhead(rows, ids, id);
      }
    }
  }

  /** And then every further full reorder commits too. */
  lemma FullReorderKeepsRange(rows: map<int, Row>, ids: seq<int>)
    requires Enumerates(ids, rows.Keys) && |ids| <= 1000000
    ensures InRange(Renumbered(rows, ids))
  {
    forall id | id in rows ensures 0 <= Renumbered(rows, ids)[id].ord < 1000000 {
      LastIndexIs(ids, id);
    }
  }
}
