/** The rules table under UNIQUE(ord), and the reordering of its rows in one transaction. */
module RuleTable {
  import opened Rules
  import Sorting

  /** A stored rule with its position. Positions may have gaps. */
  datatype Row = Row(ord: int, rule: Rule)

  /** How far ReorderRules moves every row out of the way before numbering the listed ones. */
  const OFFSET := 1000000

  ghost predicate Unique(rows: map<int, Row>) {
    forall a, b :: a in rows && b in rows && a != b ==> rows[a].ord != rows[b].ord
  }

  /** Whether the row may take the position: what the UNIQUE constraint asks of one update. */
  predicate Free(rows: map<int, Row>, id: int, ord: int) {
    id !in rows || forall other :: other in rows && other != id ==> rows[other].ord != ord
  }

  function Move(rows: map<int, Row>, id: int, ord: int): map<int, Row> {
    if id in rows then rows[id := rows[id].(ord := ord)] else rows
  }

  /** The table when the shift has visited these rows. */
  function Shifted(rows: map<int, Row>, visited: set<int>): map<int, Row> {
    map id | id in rows ::
      if id in visited then rows[id].(ord := rows[id].ord + OFFSET) else rows[id]
  }

  function LastIndex(ids: seq<int>, id: int): nat
    requires id in ids
  {
    if ids[|ids| - 1] == id then |ids| - 1 else LastIndex(ids[..|ids| - 1], id)
  }

  /** The table when these ids have been numbered: each takes its last place in the list,
      the unlisted rows stay shifted. */
  function Renumbered(rows: map<int, Row>, ids: seq<int>): map<int, Row> {
    map id | id in rows ::
      rows[id].(ord := if id in ids then LastIndex(ids, id) else rows[id].ord + OFFSET)
  }

  // ---- Exactly when it commits ----

  /** Shifting row i of the scan lands on none of the rows it has yet to reach. */
  ghost predicate ClearsRest(rows: map<int, Row>, scan: seq<int>, i: nat)
    requires i < |scan|
  {
    forall q :: i < q < |scan| && scan[i] in rows && scan[q] in rows
      ==> rows[scan[i]].ord + OFFSET != rows[scan[q]].ord
  }

  ghost predicate ShiftClears(rows: map<int, Row>, scan: seq<int>) {
    forall i :: 0 <= i < |scan| ==> ClearsRest(rows, scan, i)
  }

  /** No listed row is numbered onto a row that is still where the shift left it. */
  ghost predicate NumberingClears(rows: map<int, Row>, ids: seq<int>) {
    forall i, other :: 0 <= i < |ids| && ids[i] in rows && other in rows && other != ids[i] && other !in ids[..i]
      ==> rows[other].ord + OFFSET != i
  }

  ghost predicate Enumerates(scan: seq<int>, keys: set<int>) {
    && Sorting.Distinct(scan)
    && (forall q :: 0 <= q < |scan| ==> scan[q] in keys)
    && (forall id :: id in keys ==> id in scan)
  }

  lemma ShiftNext(rows: map<int, Row>, visited: set<int>, id: int)
    requires Unique(rows) && id in rows && id !in visited
    ensures Free(Shifted(rows, visited), id, rows[id].ord + OFFSET) <==>
      forall other :: other in rows && other !in visited && other != id ==> rows[id].ord + OFFSET != rows[other].ord
    ensures Move(Shifted(rows, visited), id, rows[id].ord + OFFSET) == Shifted(rows, visited + {id})
  {
    var now := Shifted(rows, visited);
    if Free(now, id, rows[id].ord + OFFSET) {
      forall other | other in rows && other !in visited && other != id
        ensures rows[id].ord + OFFSET != rows[other].ord
      {
        assert now[other] == rows[other];
      }
    }
  }

  function Visited(scan: seq<int>, i: nat): set<int>
    requires i <= |scan|
  {
    set id | id in scan[..i]
  }

  lemma AllVisited(scan: seq<int>, keys: set<int>)
    requires Enumerates(scan, keys)
    ensures Visited(scan, |scan|) == keys
  {
    assert scan[..|scan|] == scan;
    forall id ensures id in Visited(scan, |scan|) <==> id in keys {
      if id in scan {
        var q :| 0 <= q < |scan| && scan[q] == id;
      }
    }
  }

  lemma NotYetVisited(scan: seq<int>, i: nat, id: int)
    requires i <= |scan| && id in scan && id !in Visited(scan, i)
    ensures exists q :: i <= q < |scan| && scan[q] == id
  {
    assert scan == scan[..i] + scan[i..];
    var p :| 0 <= p < |scan[i..]| && scan[i..][p] == id;
    assert scan[i + p] == id;
  }

  lemma ShiftStep(rows: map<int, Row>, scan: seq<int>, i: nat)
    requires Unique(rows) && Enumerates(scan, rows.Keys) && i < |scan|
    ensures var now := Shifted(rows, Visited(scan, i));
      && now[scan[i]] == rows[scan[i]]
      && (Free(now, scan[i], rows[scan[i]].ord + OFFSET) <==> ClearsRest(rows, scan, i))
      && Move(now, scan[i], rows[scan[i]].ord + OFFSET) == Shifted(rows, Visited(scan, i + 1))
  {
    var id, visited := scan[i], Visited(scan, i);
    assert id !in visited;
    ShiftNext(rows, visited, id);
    assert Visited(scan, i + 1) == visited + {id} by {
      assert scan[..i + 1] == scan[..i] + [id];
    }
    forall other | other in rows && other !in visited && other != id
      ensures exists q :: i < q < |scan| && scan[q] == other
    {
      NotYetVisited(scan, i, other);
    }
    forall q | i < q < |scan| ensures scan[q] !in visited && scan[q] != id {
    }
  }

  lemma LastIndexOfMore(ids: seq<int>, id: int, last: int)
    ensures id != last && id in ids ==> LastIndex(ids + [last], id) == LastIndex(ids, id)
    ensures LastIndex(ids + [last], last) == |ids|
  {
    assert (ids + [last])[..|ids|] == ids;
  }

  lemma {:induction false} LastIndexIs(ids: seq<int>, id: int)
    requires id in ids
    ensures LastIndex(ids, id) < |ids| && ids[LastIndex(ids, id)] == id
    ensures forall i :: LastIndex(ids, id) < i < |ids| ==> ids[i] != id
  {
    if ids[|ids| - 1] != id {
      assert ids == ids[..|ids| - 1] + [ids[|ids| - 1]];
      LastIndexIs(ids[..|ids| - 1], id);
    }
  }

  lemma NumberNext(rows: map<int, Row>, ids: seq<int>, id: int)
    ensures Free(Renumbered(rows, ids), id, |ids|) <==>
      (id in rows ==> forall other :: other in rows && other != id && other !in ids ==> rows[other].ord + OFFSET != |ids|)
    ensures Move(Renumbered(rows, ids), id, |ids|) == Renumbered(rows, ids + [id])
  {
    var now := Renumbered(rows, ids);
    forall other | other in rows
      ensures other in ids ==> now[other].ord < |ids|
      ensures other != id ==> now[other] == Renumbered(rows, ids + [id])[other]
    {
      if other in ids {
        LastIndexIs(ids, other);
      }
      LastIndexOfMore(ids, other, id);
    }
    LastIndexOfMore(ids, id, id);
    if id in rows && Free(now, id, |ids|) {
      forall other | other in rows && other != id && other !in ids ensures rows[other].ord + OFFSET != |ids| {
        assert now[other].ord == rows[other].ord + OFFSET;
      }
    }
  }

  /** Uniqueness survives whatever a checked update does. */
  lemma MoveKeepsUnique(rows: map<int, Row>, id: int, ord: int)
    requires Unique(rows) && Free(rows, id, ord)
    ensures Unique(Move(rows, id, ord))
  {
  }

  // ---- The transaction ----

  class Store {
    var rows: map<int, Row>

    constructor ()
      ensures rows == map[]
    {
      rows := map[];
    }

    /** UPDATE rules SET ord=? WHERE id=?, refused if another row has the position. */
    method SetOrd(id: int, ord: int) returns (ok: bool)
      requires Unique(rows)
      modifies this
      ensures Unique(rows)
      ensures ok <==> Free(old(rows), id, ord)
      ensures rows == if ok then Move(old(rows), id, ord) else old(rows)
    {
      ok := Free(rows, id, ord);
      if ok {
        MoveKeepsUnique(rows, id, ord);
        rows := Move(rows, id, ord);
      }
    }

    /** One row of the shift. */
    method ShiftRow(scan: seq<int>, i: nat, ghost rows0: map<int, Row>) returns (ok: bool)
      requires Unique(rows0) && Enumerates(scan, rows0.Keys) && i < |scan|
      requires Unique(rows) && rows == Shifted(rows0, Visited(scan, i))
      modifies this
      ensures Unique(rows) && (ok <==> ClearsRest(rows0, scan, i))
      ensures ok ==> rows == Shifted(rows0, Visited(scan, i + 1))
    {
      ShiftStep(rows0, scan, i);
      var id := scan[i];
      assert id in rows0;
      ok := SetOrd(id, rows[id].ord + OFFSET);
    }

    /** UPDATE rules SET ord = ord + 1000000, row by row in whatever order the scan has. */
    method ShiftAll() returns (ok: bool, ghost scan: seq<int>)
      requires Unique(rows)
      modifies this
      ensures Enumerates(scan, old(rows).Keys) && Unique(rows)
      ensures ok <==> ShiftClears(old(rows), scan)
      ensures ok ==> rows == Shifted(old(rows), old(rows).Keys)
    {
      ghost var rows0 := rows;
      var order := Sorting.Range(rows.Keys);
      scan := order;
      ok := true;
      assert rows == Shifted(rows0, Visited(scan, 0));
      for i := 0 to |order|
        invariant Unique(rows)
        invariant rows == Shifted(rows0, Visited(scan, i))
        invariant forall p :: 0 <= p < i ==> ClearsRest(rows0, scan, p)
      {
        ok := ShiftRow(order, i, rows0);
        if !ok {
          return;
        }
      }
      AllVisited(scan, rows0.Keys);
    }

    /** One id of the list. */
    method NumberNextId(orderedIds: seq<int>, i: nat, ghost rows0: map<int, Row>) returns (ok: bool)
      requires i < |orderedIds| && NumberingClears(rows0, orderedIds[..i])
      requires Unique(rows) && rows == Renumbered(rows0, orderedIds[..i])
      modifies this
      ensures Unique(rows) && (ok ==> rows == Renumbered(rows0, orderedIds[..i + 1]))
      ensures ok ==> NumberingClears(rows0, orderedIds[..i + 1])
      ensures !ok ==> !NumberingClears(rows0, orderedIds)
    {
      NumberNext(rows0, orderedIds[..i], orderedIds[i]);
      assert orderedIds[..i + 1] == orderedIds[..i] + [orderedIds[i]];
      ok := SetOrd(orderedIds[i], i);
      if ok {
        NumberingClearsMore(rows0, orderedIds, i);
      }
    }

    /** UPDATE rules SET ord=? WHERE id=? for each listed id in turn. */
    method NumberListed(orderedIds: seq<int>, ghost rows0: map<int, Row>) returns (ok: bool)
      requires Unique(rows) && rows == Shifted(rows0, rows0.Keys)
      modifies this
      ensures Unique(rows)
      ensures ok <==> NumberingClears(rows0, orderedIds)
      ensures ok ==> rows == Renumbered(rows0, orderedIds)
    {
      ok := true;
      for i := 0 to |orderedIds|
        invariant Unique(rows)
        invariant rows == Renumbered(rows0, orderedIds[..i])
        invariant NumberingClears(rows0, orderedIds[..i])
      {
        ok := NumberNextId(orderedIds, i, rows0);
        if !ok {
          return;
        }
      }
      assert orderedIds[..|orderedIds|] == orderedIds;
    }

    /** Assigns positions from the given id order, or leaves the table as it was. */
    method ReorderRules(orderedIds: seq<int>) returns (ok: bool, ghost scan: seq<int>)
      requires Unique(rows)
      modifies this
      ensures Unique(rows) && Enumerates(scan, old(rows).Keys)
      ensures ok <==> ShiftClears(old(rows), scan) && NumberingClears(old(rows), orderedIds)
      ensures rows == if ok then Renumbered(old(rows), orderedIds) else old(rows)
    {
      var snapshot := rows;
      ok, scan := ShiftAll();
      if ok {
        ok := NumberListed(orderedIds, snapshot);
      }
      if !ok {
        rows := snapshot;
      }
    }
  }

  lemma NumberingClearsMore(rows: map<int, Row>, ids: seq<int>, i: nat)
    requires i < |ids| && NumberingClears(rows, ids[..i])
    requires ids[i] in rows ==>
      forall other :: other in rows && other != ids[i] && other !in ids[..i] ==> rows[other].ord + OFFSET != i
    ensures NumberingClears(rows, ids[..i + 1])
  {
    forall p, other | 0 <= p < i + 1 && ids[p] in rows && other in rows && other != ids[p] && other !in ids[..i + 1][..p]
      ensures rows[other].ord + OFFSET != p
    {
      assert ids[..i + 1][..p] == ids[..p];
      if p < i {
        assert ids[..i][..p] == ids[..p];
      }
    }
  }
}
