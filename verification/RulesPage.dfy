/** The two list operations of the console's rules page: what they send to the reorder call. */
module RulesPage {
  import opened Options
  import opened RuleTable
  import RuleOrder
  import Sorting

  /** Array.prototype.indexOf */
  function IndexOf(ids: seq<int>, id: int): (i: int)
    ensures -1 <= i < |ids|
    ensures i >= 0 <==> id in ids
    ensures i >= 0 ==> ids[i] == id && id !in ids[..i]
  {
    if ids == [] then -1
    else if ids[0] == id then 0
    else
      var i := IndexOf(ids[1..], id);
      assert ids == [ids[0]] + ids[1..];
      assert i >= 0 ==> ids[..i + 1] == [ids[0]] + ids[1..][..i];
      if i < 0 then -1 else i + 1
  }

  /** The start of a splice: a negative one counts from the end. */
  function SpliceStart(length: nat, start: int): nat {
    if start < 0 then (if length + start < 0 then 0 else length + start)
    else if start > length then length else start
  }

  function RemoveAt(ids: seq<int>, i: nat): seq<int>
    requires i < |ids|
  {
    ids[..i] + ids[i + 1..]
  }

  function InsertAt(ids: seq<int>, i: nat, id: int): seq<int>
    requires i <= |ids|
  {
    ids[..i] + [id] + ids[i..]
  }

  /** `next` is `ids` with `moved` taken to place `to`, the others in their relative order. */
  ghost predicate Moves(ids: seq<int>, next: seq<int>, moved: int, to: nat) {
    && to < |next| && next[to] == moved
    && exists from :: 0 <= from < |ids| && ids[from] == moved && RemoveAt(next, to) == RemoveAt(ids, from)
  }

  /** A drop moves the dragged rule, or the last one if the dragged one is gone. */
  method DropOn(ordered: seq<int>, dragId: Option<int>, targetId: int) returns (sent: Option<seq<int>>)
    requires targetId in ordered
    ensures sent.None? <==> dragId.None? || dragId.value == targetId
    ensures sent.Some? && dragId.value in ordered ==>
      Moves(ordered, sent.value, dragId.value, IndexOf(ordered, targetId))
    ensures sent.Some? && dragId.value !in ordered ==>
      Moves(ordered, sent.value, ordered[|ordered| - 1], IndexOf(ordered, targetId))
  {
    if dragId.None? || dragId.value == targetId {
      return None;
    }
    var ids := ordered;
    var from := IndexOf(ids, dragId.value);
    var to := IndexOf(ids, targetId);
    var at := SpliceStart(|ids|, from);
    var removed := ids[at];
    ids := RemoveAt(ids, at);
    ids := InsertAt(ids, SpliceStart(|ids|, to), removed);
    assert RemoveAt(ids, to) == RemoveAt(ordered, at);
    return Some(ids);
  }

  method MoveBy(ordered: seq<int>, index: nat, dir: int) returns (sent: Option<seq<int>>)
    requires index < |ordered| && (dir == 1 || dir == -1)
    ensures sent.None? <==> index + dir < 0 || index + dir >= |ordered|
    ensures sent.Some? ==> Moves(ordered, sent.value, ordered[index], index + dir)
  {
    var next := index + dir;
    if next < 0 || next >= |ordered| {
      return None;
    }
    var ids := ordered[index := ordered[next]][next := ordered[index]];
    assert RemoveAt(ids, next) == RemoveAt(ordered, index);
    return Some(ids);
  }

  lemma RemoveAtTakesOne(ids: seq<int>, i: nat)
    requires i < |ids|
    ensures multiset(ids) == multiset(RemoveAt(ids, i)) + multiset{ids[i]}
  {
    assert ids == ids[..i] + [ids[i]] + ids[i + 1..];
  }

  /** A moved list is a rearrangement. */
  lemma MovesRearranges(ids: seq<int>, next: seq<int>, moved: int, to: nat)
    requires Moves(ids, next, moved, to)
    ensures multiset(next) == multiset(ids)
  {
    var from :| 0 <= from < |ids| && ids[from] == moved && RemoveAt(next, to) == RemoveAt(ids, from);
    RemoveAtTakesOne(ids, from);
    RemoveAtTakesOne(next, to);
  }

  lemma MovedListIsFull(rows: map<int, Row>, list: seq<int>, next: seq<int>, moved: int, to: nat)
    requires RuleOrder.Lists(list, rows) && Moves(list, next, moved, to)
    ensures Enumerates(next, rows.Keys) && |next| == |list|
  {
    MovesRearranges(list, next, moved, to);
    assert |next| == |multiset(next)| == |multiset(list)| == |list|;
    Sorting.RearrangedDistinct(list, next);
    assert forall q :: 0 <= q < |next| ==> next[q] in next;
  }

  /** Dragging a rule, end to end: whatever the positions were, if the call commits the table
      is then listed in exactly the order shown, and from there every further drag commits. */
  lemma DragIsStored(rows: map<int, Row>, list: seq<int>, next: seq<int>, moved: int, to: nat)
    requires Unique(rows) && RuleOrder.Lists(list, rows) && Moves(list, next, moved, to)
    ensures RuleOrder.Lists(next, Renumbered(rows, next))
    ensures |list| <= 1000000 ==> RuleOrder.InRange(Renumbered(rows, next))
  {
    MovedListIsFull(rows, list, next, moved, to);
    RuleOrder.FullReorderListing(rows, next);
    if |list| <= 1000000 {
      RuleOrder.FullReorderKeepsRange(rows, next);
    }
  }

  /** It commits, in whatever order the database visits the rows, if and only if no two
      positions are exactly the offset apart and no rule still to come is shifted onto a place
      being filled; so it does for all positions in [0, 1000000). */
  lemma DragCommitsIff(rows: map<int, Row>, list: seq<int>, next: seq<int>, moved: int, to: nat)
    requires Unique(rows) && RuleOrder.Lists(list, rows) && Moves(list, next, moved, to)
    ensures (forall scan :: Enumerates(scan, rows.Keys) ==> ShiftClears(rows, scan) && NumberingClears(rows, next)) <==>
      RuleOrder.NoneOffsetApart(rows)
      && forall j :: 0 <= j < |next| && next[j] in rows ==> !(0 <= rows[next[j]].ord + 1000000 < j)
    ensures RuleOrder.InRange(rows) && |list| <= 1000000 ==>
      RuleOrder.NoneOffsetApart(rows) && RuleOrder.NoneShiftedAhead(rows, next)
  {
    MovedListIsFull(rows, list, next, moved, to);
    RuleOrder.ReorderCommitsIff(rows, next);
    RuleOrder.FullListShiftedAhead(rows, next);
  }
}
