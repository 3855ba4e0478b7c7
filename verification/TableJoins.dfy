/**
 ValueTable.cpp, lines 126-285: vjoin, hjoin, hjoinShare and parseRead, on the index functions of
 Joins.
 */
module TableJoins {
  import opened FixedPoint
  import opened FixedShare
  import opened SignTests
  import opened Joins

  function Ids(t: ValueTable, idx: int): seq<int>
    requires IsColumn(t, idx) && forall r :: 0 <= r < |t.table| ==> |t.table[r]| == |t.schemas|
  {
    OpenedIds(Column(t, idx))
  }

  function Lefts(pairs: seq<(nat, nat)>): seq<nat> {
    seq(|pairs|, k requires 0 <= k < |pairs| => pairs[k].0)
  }

  function Rights(pairs: seq<(nat, nat)>): seq<nat> {
    seq(|pairs|, k requires 0 <= k < |pairs| => pairs[k].1)
  }

  /** The columns that u adds to t, and those that both have. */
  function NewColumns(t: ValueTable, u: ValueTable): (cols: seq<nat>)
    ensures forall k :: 0 <= k < |cols| ==> cols[k] < |u.schemas|
  {
    var cols := Extra(t.schemas, u.schemas, |u.schemas|, SameName);
    ExtraOrdered(t.schemas, u.schemas, |u.schemas|, SameName);
    cols
  }

  function CommonColumns(t: ValueTable, u: ValueTable): (pairs: seq<(nat, nat)>)
    ensures forall k :: 0 <= k < |pairs| ==>
              pairs[k].0 < |t.schemas| && pairs[k].1 < |u.schemas| && u.schemas[pairs[k].1] == t.schemas[pairs[k].0]
  {
    var pairs := Intersection(t.schemas, u.schemas, |t.schemas|, SameName);
    assert forall k :: 0 <= k < |pairs| ==>
        pairs[k].0 < |t.schemas| && pairs[k].1 < |u.schemas| && u.schemas[pairs[k].1] == t.schemas[pairs[k].0] by {
      forall k | 0 <= k < |pairs|
        ensures pairs[k].0 < |t.schemas| && pairs[k].1 < |u.schemas|
        ensures u.schemas[pairs[k].1] == t.schemas[pairs[k].0]
      {
        IntersectionPairs(t.schemas, u.schemas, |t.schemas|, SameName, k);
      }
    }
    pairs
  }

  predicate IsRect(t: ValueTable) {
    forall r :: 0 <= r < |t.table| ==> |t.table[r]| == |t.schemas|
  }

  /** Rows side by side, for the given pairs of positions. */
  function SideBySide(t: ValueTable, u: ValueTable, pairs: seq<(nat, nat)>): ValueTable
    requires IsRect(t) && IsRect(u) && PairsIn(pairs, |t.table|, |u.table|)
  {
    var cols := NewColumns(t, u);
    ValueTable(seq(|pairs|, k requires 0 <= k < |pairs| => t.table[pairs[k].0] + Pick(u.table[pairs[k].1], cols)),
               t.schemas + Pick(u.schemas, cols))
  }

  /** The rows of t, then the given rows of u, on the common columns. */
  function Stacked(t: ValueTable, u: ValueTable, extra: seq<nat>): ValueTable
    requires IsRect(t) && IsRect(u) && forall k :: 0 <= k < |extra| ==> extra[k] < |u.table|
  {
    var pairs := CommonColumns(t, u);
    ValueTable(seq(|t.table|, r requires 0 <= r < |t.table| => Pick(t.table[r], Lefts(pairs)))
               + seq(|extra|, k requires 0 <= k < |extra| => Pick(u.table[extra[k]], Rights(pairs))),
               Pick(t.schemas, Lefts(pairs)))
  }

  datatype Mode = Horizontal | Vertical | HorizontalShare

  lemma PositionsOk(v1: seq<int>, v2: seq<int>)
    ensures PairsIn(Intersection(v1, v2, |v1|, SameId), |v1|, |v2|)
    ensures PairsIn(Merged(v1, v2, 0, 0), |v1|, |v2|)
    ensures forall k :: 0 <= k < |Extra(v1, v2, |v2|, SameId)| ==> Extra(v1, v2, |v2|, SameId)[k] < |v2|
  {
    forall k: nat | k < |Intersection(v1, v2, |v1|, SameId)| { IntersectionPairs(v1, v2, |v1|, SameId, k); }
    forall k: nat | k < |Merged(v1, v2, 0, 0)| { MergedPairs(v1, v2, 0, 0, k); }
    ExtraOrdered(v1, v2, |v2|, SameId);
  }

  function JoinedBy(mode: Mode, t: ValueTable, u: ValueTable, idx: int, idxTgt: int): ValueTable
    requires IsRect(t) && IsRect(u) && IsColumn(t, idx) && IsColumn(u, idxTgt)
  {
    var v1, v2 := Ids(t, idx), Ids(u, idxTgt);
    PositionsOk(v1, v2);
    match mode
    case Horizontal => SideBySide(t, u, Intersection(v1, v2, |v1|, SameId))
    case Vertical => Stacked(t, u, Extra(v1, v2, |v2|, SameId))
    case HorizontalShare => SideBySide(t, u, Merged(v1, v2, 0, 0))
  }

  /** hjoinShare yields the table of hjoin, row for row, on sorted ids that are far enough apart. */
  lemma HJoinShareEqualsHJoin(t: ValueTable, u: ValueTable, idx: int, idxTgt: int)
    requires IsRect(t) && IsRect(u) && IsColumn(t, idx) && IsColumn(u, idxTgt)
    requires Sorted(Ids(t, idx), Ids(u, idxTgt))
    ensures JoinedBy(HorizontalShare, t, u, idx, idxTgt) == JoinedBy(Horizontal, t, u, idx, idxTgt)
  {
    MergeEqualsLookup(Ids(t, idx), Ids(u, idxTgt));
  }

  /** On such ids the joined pairs are exactly the positions with equal ids. */
  lemma PairsAreMatches(v1: seq<int>, v2: seq<int>, n: nat, i: nat, j: nat)
    requires n <= |v1| && i < |v1| && j < |v2| && Sorted(v1, v2)
    ensures (i, j) in Intersection(v1, v2, n, SameId) <==> i < n && v1[i] == v2[j]
  {
    IntersectionMeans(v1, v2, n, i, j, SameId);
  }

  /** On ids that are far enough apart vjoin adds exactly the rows with new ids, in order. */
  lemma ExtraRowsAreNew(v1: seq<int>, v2: seq<int>, j: nat)
    requires Apart(v1, v1) && Apart(v1, v2) && j < |v2|
    ensures j in Extra(v1, v2, |v2|, SameId) <==> v2[j] !in v1
  {
    forall i | 0 <= i < |v1| ensures IsEquality(v1, v1[i], SameId) {
    }
    forall i | 0 <= i < |v2| ensures IsEquality(v1, v2[i], SameId) {
    }
    ExtraMeans(v1, v2, |v2|, j, SameId);
  }

  /** The columns added by hjoin are exactly those with new names. */
  lemma NewColumnsAreNew(t: ValueTable, u: ValueTable, j: nat)
    requires j < |u.schemas|
    ensures j in NewColumns(t, u) <==> u.schemas[j] !in t.schemas
  {
    forall i | 0 <= i < |t.schemas| ensures IsEquality(t.schemas, t.schemas[i], SameName) {
    }
    forall i | 0 <= i < |u.schemas| ensures IsEquality(t.schemas, u.schemas[i], SameName) {
    }
    ExtraMeans(t.schemas, u.schemas, |u.schemas|, j, SameName);
  }

  /** A table joined side by side has every column name of the two tables, and no other. */
  lemma SchemaHoldsAllNames(t: ValueTable, u: ValueTable, pairs: seq<(nat, nat)>, name: string)
    requires IsRect(t) && IsRect(u) && PairsIn(pairs, |t.table|, |u.table|)
    ensures name in SideBySide(t, u, pairs).schemas <==> name in t.schemas || name in u.schemas
  {
    var cols, schemas := NewColumns(t, u), SideBySide(t, u, pairs).schemas;
    if name in u.schemas && name !in t.schemas {
      var j :| 0 <= j < |u.schemas| && u.schemas[j] == name;
      NewColumnsAreNew(t, u, j);
      var k :| 0 <= k < |cols| && cols[k] == j;
      assert schemas[|t.schemas| + k] == name;
    }
    if name in t.schemas {
      var i :| 0 <= i < |t.schemas| && t.schemas[i] == name;
      assert schemas[i] == name;
    }
  }

  /** A stacked table has exactly the column names that both tables have. */
  lemma SchemaHoldsCommonNames(t: ValueTable, u: ValueTable, extra: seq<nat>, name: string)
    requires IsRect(t) && IsRect(u) && forall k :: 0 <= k < |extra| ==> extra[k] < |u.table|
    ensures name in Stacked(t, u, extra).schemas <==> name in t.schemas && name in u.schemas
  {
    var pairs, schemas := CommonColumns(t, u), Stacked(t, u, extra).schemas;
    if name in t.schemas && name in u.schemas {
      var i :| 0 <= i < |t.schemas| && t.schemas[i] == name;
      var k := CommonAt(t, u, |t.schemas|, i);
      assert schemas[k] == name;
    }
    if name in schemas {
      var k :| 0 <= k < |schemas| && schemas[k] == name;
      assert u.schemas[pairs[k].1] == t.schemas[pairs[k].0] == name;
    }
  }

  lemma {:induction false} CommonAt(t: ValueTable, u: ValueTable, n: nat, i: nat) returns (k: nat)
    requires i < n <= |t.schemas| && t.schemas[i] in u.schemas
    ensures var pairs := Intersection(t.schemas, u.schemas, n, SameName); k < |pairs| && pairs[k].0 == i
  {
    if i < n - 1 {
      k := CommonAt(t, u, n - 1, i);
    } else {
      forall j | 0 <= j < |u.schemas| ensures IsEquality(u.schemas, u.schemas[j], SameName) {
      }
      LookupFinds(u.schemas, t.schemas[i], SameName);
      k := |Intersection(t.schemas, u.schemas, i, SameName)|;
    }
  }

  // ---------- the joined tables, row by row ----------

  function IdAt(t: ValueTable, r: nat, idx: int): int
    requires IsRect(t) && IsColumn(t, idx) && r < |t.table|
  {
    Opened(t.table[r][idx - 1])
  }

  /** Different ids differ by more than gap units. */
  predicate Spaced(t: ValueTable, idx: int, u: ValueTable, idxTgt: int, gap: nat)
    requires IsRect(t) && IsRect(u) && IsColumn(t, idx) && IsColumn(u, idxTgt)
  {
    forall i, j :: 0 <= i < |t.table| && 0 <= j < |u.table| ==>
      var x, y := IdAt(t, i, idx), IdAt(u, j, idxTgt); x == y || x < y - gap || y < x - gap
  }

  /** The ids of a table ascend. */
  predicate Ascending(t: ValueTable, idx: int)
    requires IsRect(t) && IsColumn(t, idx)
  {
    forall i, j :: 0 <= i < j < |t.table| ==> IdAt(t, i, idx) < IdAt(t, j, idx)
  }

  predicate Increasing(v: seq<nat>) {
    forall k, l :: 0 <= k < l < |v| ==> v[k] < v[l]
  }

  /** The columns of u with names that t does not have, from left to right. */
  ghost predicate AreNewColumns(t: ValueTable, u: ValueTable, cols: seq<nat>) {
    Increasing(cols) && forall c: nat :: c in cols <==> c < |u.schemas| && u.schemas[c] !in t.schemas
  }

  /** The columns of t with names that u has, from left to right, each with the first such column of u. */
  ghost predicate AreCommonColumns(t: ValueTable, u: ValueTable, pairs: seq<(nat, nat)>) {
    && InOrder(pairs)
    && forall a: nat, b: nat :: (a, b) in pairs <==>
         a < |t.schemas| && b < |u.schemas| && t.schemas[a] == u.schemas[b] && IsFirst(u.schemas, b)
  }

  /** The rows of t whose id u has, from top to bottom, each with the first such row of u. */
  ghost predicate AreMatches(t: ValueTable, u: ValueTable, idx: int, idxTgt: int, pairs: seq<(nat, nat)>)
    requires IsRect(t) && IsRect(u) && IsColumn(t, idx) && IsColumn(u, idxTgt)
  {
    && InOrder(pairs)
    && forall i: nat, j: nat :: (i, j) in pairs <==>
         && i < |t.table| && j < |u.table| && IdAt(t, i, idx) == IdAt(u, j, idxTgt)
         && forall k :: 0 <= k < j ==> IdAt(u, k, idxTgt) != IdAt(u, j, idxTgt)
  }

  /** The rows of u whose id t does not have, from top to bottom. */
  ghost predicate AreNewRows(t: ValueTable, u: ValueTable, idx: int, idxTgt: int, rows: seq<nat>)
    requires IsRect(t) && IsRect(u) && IsColumn(t, idx) && IsColumn(u, idxTgt)
  {
    && Increasing(rows)
    && forall j: nat :: j in rows <==>
         j < |u.table| && forall i :: 0 <= i < |t.table| ==> IdAt(t, i, idx) != IdAt(u, j, idxTgt)
  }

  /** One row for each pair: the row of t, and on its right the new cells of the row of u. */
  predicate AreJoinedRows(t: ValueTable, u: ValueTable, cols: seq<nat>, pairs: seq<(nat, nat)>, joined: ValueTable)
    requires IsRect(t) && IsRect(u) && PairsIn(pairs, |t.table|, |u.table|)
    requires forall k :: 0 <= k < |cols| ==> cols[k] < |u.schemas|
  {
    && |joined.schemas| == |t.schemas| + |cols| && |joined.table| == |pairs| && IsRect(joined)
    && (forall c :: 0 <= c < |t.schemas| ==> joined.schemas[c] == t.schemas[c])
    && (forall k :: 0 <= k < |cols| ==> joined.schemas[|t.schemas| + k] == u.schemas[cols[k]])
    && forall r :: 0 <= r < |pairs| ==>
         && (forall c :: 0 <= c < |t.schemas| ==> joined.table[r][c] == t.table[pairs[r].0][c])
         && (forall k :: 0 <= k < |cols| ==> joined.table[r][|t.schemas| + k] == u.table[pairs[r].1][cols[k]])
  }

  /** All rows of t, and below them the given rows of u, each in the common columns only. */
  predicate AreStackedRows(t: ValueTable, u: ValueTable, cols: seq<(nat, nat)>, rows: seq<nat>, joined: ValueTable)
    requires IsRect(t) && IsRect(u) && PairsIn(cols, |t.schemas|, |u.schemas|)
    requires forall k :: 0 <= k < |rows| ==> rows[k] < |u.table|
  {
    && |joined.schemas| == |cols| && |joined.table| == |t.table| + |rows| && IsRect(joined)
    && (forall c :: 0 <= c < |cols| ==> joined.schemas[c] == t.schemas[cols[c].0])
    && (forall r, c :: 0 <= r < |t.table| && 0 <= c < |cols| ==> joined.table[r][c] == t.table[r][cols[c].0])
    && (forall k, c :: 0 <= k < |rows| && 0 <= c < |cols| ==>
          joined.table[|t.table| + k][c] == u.table[rows[k]][cols[c].1])
  }

  ghost predicate IsHorizontal(t: ValueTable, u: ValueTable, idx: int, idxTgt: int, joined: ValueTable)
    requires IsRect(t) && IsRect(u) && IsColumn(t, idx) && IsColumn(u, idxTgt)
  {
    exists cols, pairs ::
      AreNewColumns(t, u, cols) && AreMatches(t, u, idx, idxTgt, pairs)
      && PairsIn(pairs, |t.table|, |u.table|) && (forall k :: 0 <= k < |cols| ==> cols[k] < |u.schemas|)
      && AreJoinedRows(t, u, cols, pairs, joined)
  }

  ghost predicate IsVertical(t: ValueTable, u: ValueTable, idx: int, idxTgt: int, joined: ValueTable)
    requires IsRect(t) && IsRect(u) && IsColumn(t, idx) && IsColumn(u, idxTgt)
  {
    exists cols, rows ::
      AreCommonColumns(t, u, cols) && AreNewRows(t, u, idx, idxTgt, rows)
      && PairsIn(cols, |t.schemas|, |u.schemas|) && (forall k :: 0 <= k < |rows| ==> rows[k] < |u.table|)
      && AreStackedRows(t, u, cols, rows, joined)
  }

  lemma NewColumnsOk(t: ValueTable, u: ValueTable)
    ensures AreNewColumns(t, u, NewColumns(t, u))
  {
    ExtraOrdered(t.schemas, u.schemas, |u.schemas|, SameName);
    forall c: nat ensures c in NewColumns(t, u) <==> c < |u.schemas| && u.schemas[c] !in t.schemas {
      if c < |u.schemas| { NewColumnsAreNew(t, u, c); }
    }
  }

  lemma CommonColumnsOk(t: ValueTable, u: ValueTable)
    ensures AreCommonColumns(t, u, CommonColumns(t, u))
  {
    var n := |t.schemas|;
    IntersectionOrdered(t.schemas, u.schemas, n, SameName);
    forall a: nat, b: nat
      ensures (a, b) in CommonColumns(t, u) <==>
                a < n && b < |u.schemas| && t.schemas[a] == u.schemas[b] && IsFirst(u.schemas, b)
    {
      if a < n && b < |u.schemas| { IntersectionMeans(t.schemas, u.schemas, n, a, b, SameName); }
    }
  }

  lemma IdsAre(t: ValueTable, idx: int)
    requires IsRect(t) && IsColumn(t, idx)
    ensures |Ids(t, idx)| == |t.table| && forall r :: 0 <= r < |t.table| ==> Ids(t, idx)[r] == IdAt(t, r, idx)
  {
  }

  lemma IdsSpaced(t: ValueTable, idx: int, u: ValueTable, idxTgt: int, gap: nat)
    requires IsRect(t) && IsRect(u) && IsColumn(t, idx) && IsColumn(u, idxTgt) && Spaced(t, idx, u, idxTgt, gap)
    ensures var v1, v2 := Ids(t, idx), Ids(u, idxTgt);
            forall i, j :: 0 <= i < |v1| && 0 <= j < |v2| ==> v1[i] == v2[j] || !Within(v1[i], v2[j], gap)
  {
    var v1, v2 := Ids(t, idx), Ids(u, idxTgt);
    forall i, j | 0 <= i < |v1| && 0 <= j < |v2| ensures v1[i] == v2[j] || !Within(v1[i], v2[j], gap) {
      assert v1[i] == IdAt(t, i, idx) && v2[j] == IdAt(u, j, idxTgt);
    }
  }

  lemma IdsAscend(t: ValueTable, idx: int)
    requires IsRect(t) && IsColumn(t, idx) && Ascending(t, idx)
    ensures StrictlyIncreasing(Ids(t, idx))
  {
    var v := Ids(t, idx);
    forall i, j | 0 <= i < j < |v| ensures v[i] < v[j] {
      assert v[i] == IdAt(t, i, idx) && v[j] == IdAt(t, j, idx);
    }
  }

  /** A list of pairs of equal ids, as found on the columns of ids, is one of rows. */
  lemma MatchesOfIds(t: ValueTable, u: ValueTable, idx: int, idxTgt: int, pairs: seq<(nat, nat)>)
    requires IsRect(t) && IsRect(u) && IsColumn(t, idx) && IsColumn(u, idxTgt) && InOrder(pairs)
    requires var v1, v2 := Ids(t, idx), Ids(u, idxTgt);
             forall i: nat, j: nat :: (i, j) in pairs <==> i < |v1| && j < |v2| && v1[i] == v2[j] && IsFirst(v2, j)
    ensures AreMatches(t, u, idx, idxTgt, pairs)
  {
    IdsAre(t, idx);
    IdsAre(u, idxTgt);
    var v2 := Ids(u, idxTgt);
    forall j: nat | j < |u.table|
      ensures IsFirst(v2, j) <==> forall k :: 0 <= k < j ==> IdAt(u, k, idxTgt) != IdAt(u, j, idxTgt)
    {
      FirstId(u, idxTgt, j);
    }
  }

  lemma FirstId(u: ValueTable, idx: int, j: nat)
    requires IsRect(u) && IsColumn(u, idx) && j < |u.table|
    ensures IsFirst(Ids(u, idx), j) <==> forall k :: 0 <= k < j ==> IdAt(u, k, idx) != IdAt(u, j, idx)
  {
    var v := Ids(u, idx);
    assert forall k :: 0 <= k <= j ==> v[k] == IdAt(u, k, idx);
  }

  lemma LookupMatches(t: ValueTable, u: ValueTable, idx: int, idxTgt: int)
    requires IsRect(t) && IsRect(u) && IsColumn(t, idx) && IsColumn(u, idxTgt)
    requires Spaced(u, idxTgt, u, idxTgt, 1000) && Spaced(t, idx, u, idxTgt, 1000)
    ensures AreMatches(t, u, idx, idxTgt, Intersection(Ids(t, idx), Ids(u, idxTgt), |t.table|, SameId))
  {
    var v1, v2 := Ids(t, idx), Ids(u, idxTgt);
    var pairs := Intersection(v1, v2, |v1|, SameId);
    PositionsOk(v1, v2);
    IntersectionOrdered(v1, v2, |v1|, SameId);
    IdsSpaced(t, idx, u, idxTgt, 1000);
    IdsSpaced(u, idxTgt, u, idxTgt, 1000);
    forall i: nat, j: nat
      ensures (i, j) in pairs <==> i < |v1| && j < |v2| && v1[i] == v2[j] && IsFirst(v2, j)
    {
      if i < |v1| && j < |v2| { IntersectionMeans(v1, v2, |v1|, i, j, SameId); }
    }
    MatchesOfIds(t, u, idx, idxTgt, pairs);
  }

  lemma MergeMatches(t: ValueTable, u: ValueTable, idx: int, idxTgt: int)
    requires IsRect(t) && IsRect(u) && IsColumn(t, idx) && IsColumn(u, idxTgt)
    requires Ascending(t, idx) && Ascending(u, idxTgt) && Spaced(t, idx, u, idxTgt, 762)
    ensures AreMatches(t, u, idx, idxTgt, Merged(Ids(t, idx), Ids(u, idxTgt), 0, 0))
  {
    var v1, v2 := Ids(t, idx), Ids(u, idxTgt);
    var pairs := Merged(v1, v2, 0, 0);
    MergedOrdered(v1, v2, 0, 0);
    IdsSpaced(t, idx, u, idxTgt, 762);
    IdsAscend(t, idx);
    IdsAscend(u, idxTgt);
    forall i: nat, j: nat
      ensures (i, j) in pairs <==> i < |v1| && j < |v2| && v1[i] == v2[j] && IsFirst(v2, j)
    {
      MergedMeans(v1, v2, 0, 0, i, j);
    }
    MatchesOfIds(t, u, idx, idxTgt, pairs);
  }

  /** hjoin and hjoinShare, in terms of the rows and columns of the two tables. */
  lemma JoinIsHorizontal(t: ValueTable, u: ValueTable, idx: int, idxTgt: int, pairs: seq<(nat, nat)>)
    requires IsRect(t) && IsRect(u) && IsColumn(t, idx) && IsColumn(u, idxTgt)
    requires PairsIn(pairs, |t.table|, |u.table|) && AreMatches(t, u, idx, idxTgt, pairs)
    ensures IsHorizontal(t, u, idx, idxTgt, SideBySide(t, u, pairs))
  {
    var cols := NewColumns(t, u);
    NewColumnsOk(t, u);
    assert AreJoinedRows(t, u, cols, pairs, SideBySide(t, u, pairs));
  }

  lemma HJoinRowsAre(t: ValueTable, u: ValueTable, idx: int, idxTgt: int)
    requires IsRect(t) && IsRect(u) && IsColumn(t, idx) && IsColumn(u, idxTgt)
    requires Spaced(u, idxTgt, u, idxTgt, 1000) && Spaced(t, idx, u, idxTgt, 1000)
    ensures IsHorizontal(t, u, idx, idxTgt, JoinedBy(Horizontal, t, u, idx, idxTgt))
  {
    LookupMatches(t, u, idx, idxTgt);
    PositionsOk(Ids(t, idx), Ids(u, idxTgt));
    JoinIsHorizontal(t, u, idx, idxTgt, Intersection(Ids(t, idx), Ids(u, idxTgt), |t.table|, SameId));
  }

  lemma HJoinShareRowsAre(t: ValueTable, u: ValueTable, idx: int, idxTgt: int)
    requires IsRect(t) && IsRect(u) && IsColumn(t, idx) && IsColumn(u, idxTgt)
    requires Ascending(t, idx) && Ascending(u, idxTgt) && Spaced(t, idx, u, idxTgt, 762)
    ensures IsHorizontal(t, u, idx, idxTgt, JoinedBy(HorizontalShare, t, u, idx, idxTgt))
  {
    MergeMatches(t, u, idx, idxTgt);
    PositionsOk(Ids(t, idx), Ids(u, idxTgt));
    JoinIsHorizontal(t, u, idx, idxTgt, Merged(Ids(t, idx), Ids(u, idxTgt), 0, 0));
  }

  /** Whatever the ids are, joined rows follow t, and the ids of each pair are no more than gap apart. */
  ghost predicate IsNearJoin(t: ValueTable, u: ValueTable, idx: int, idxTgt: int, gap: nat, joined: ValueTable)
    requires IsRect(t) && IsRect(u) && IsColumn(t, idx) && IsColumn(u, idxTgt)
  {
    exists cols: seq<nat>, pairs: seq<(nat, nat)> ::
      AreNewColumns(t, u, cols) && InOrder(pairs)
      && PairsIn(pairs, |t.table|, |u.table|) && (forall k :: 0 <= k < |cols| ==> cols[k] < |u.schemas|)
      && (forall k :: 0 <= k < |pairs| ==> Within(IdAt(t, pairs[k].0, idx), IdAt(u, pairs[k].1, idxTgt), gap))
      && AreJoinedRows(t, u, cols, pairs, joined)
  }

  lemma JoinIsNear(t: ValueTable, u: ValueTable, idx: int, idxTgt: int, gap: nat, pairs: seq<(nat, nat)>)
    requires IsRect(t) && IsRect(u) && IsColumn(t, idx) && IsColumn(u, idxTgt)
    requires PairsIn(pairs, |t.table|, |u.table|) && InOrder(pairs)
    requires forall k :: 0 <= k < |pairs| ==> Within(Ids(t, idx)[pairs[k].0], Ids(u, idxTgt)[pairs[k].1], gap)
    ensures IsNearJoin(t, u, idx, idxTgt, gap, SideBySide(t, u, pairs))
  {
    var cols := NewColumns(t, u);
    NewColumnsOk(t, u);
    IdsAre(t, idx);
    IdsAre(u, idxTgt);
    assert AreJoinedRows(t, u, cols, pairs, SideBySide(t, u, pairs));
  }

  lemma HJoinIsNear(t: ValueTable, u: ValueTable, idx: int, idxTgt: int)
    requires IsRect(t) && IsRect(u) && IsColumn(t, idx) && IsColumn(u, idxTgt)
    ensures IsNearJoin(t, u, idx, idxTgt, 1000, JoinedBy(Horizontal, t, u, idx, idxTgt))
  {
    var v1, v2 := Ids(t, idx), Ids(u, idxTgt);
    var pairs := Intersection(v1, v2, |v1|, SameId);
    PositionsOk(v1, v2);
    IntersectionOrdered(v1, v2, |v1|, SameId);
    forall k | 0 <= k < |pairs| ensures Within(v1[pairs[k].0], v2[pairs[k].1], 1000) {
      IntersectionPairs(v1, v2, |v1|, SameId, k);
    }
    JoinIsNear(t, u, idx, idxTgt, 1000, pairs);
  }

  lemma HJoinShareIsNear(t: ValueTable, u: ValueTable, idx: int, idxTgt: int)
    requires IsRect(t) && IsRect(u) && IsColumn(t, idx) && IsColumn(u, idxTgt)
    ensures IsNearJoin(t, u, idx, idxTgt, 762, JoinedBy(HorizontalShare, t, u, idx, idxTgt))
  {
    var v1, v2 := Ids(t, idx), Ids(u, idxTgt);
    var pairs := Merged(v1, v2, 0, 0);
    PositionsOk(v1, v2);
    MergedOrdered(v1, v2, 0, 0);
    forall k | 0 <= k < |pairs| ensures Within(v1[pairs[k].0], v2[pairs[k].1], 762) {
      MergedPairs(v1, v2, 0, 0, k);
    }
    JoinIsNear(t, u, idx, idxTgt, 762, pairs);
  }

  lemma VJoinRowsAre(t: ValueTable, u: ValueTable, idx: int, idxTgt: int)
    requires IsRect(t) && IsRect(u) && IsColumn(t, idx) && IsColumn(u, idxTgt)
    requires Spaced(t, idx, t, idx, 1000) && Spaced(t, idx, u, idxTgt, 1000)
    ensures IsVertical(t, u, idx, idxTgt, JoinedBy(Vertical, t, u, idx, idxTgt))
  {
    var cols, rows := CommonColumns(t, u), Extra(Ids(t, idx), Ids(u, idxTgt), |u.table|, SameId);
    PositionsOk(Ids(t, idx), Ids(u, idxTgt));
    CommonColumnsOk(t, u);
    NewRowsOk(t, u, idx, idxTgt);
    StackedRowsOk(t, u, rows);
  }

  lemma StackedRowsOk(t: ValueTable, u: ValueTable, rows: seq<nat>)
    requires IsRect(t) && IsRect(u) && forall k :: 0 <= k < |rows| ==> rows[k] < |u.table|
    ensures AreStackedRows(t, u, CommonColumns(t, u), rows, Stacked(t, u, rows))
  {
  }

  lemma NewRowsOk(t: ValueTable, u: ValueTable, idx: int, idxTgt: int)
    requires IsRect(t) && IsRect(u) && IsColumn(t, idx) && IsColumn(u, idxTgt)
    requires Spaced(t, idx, t, idx, 1000) && Spaced(t, idx, u, idxTgt, 1000)
    ensures AreNewRows(t, u, idx, idxTgt, Extra(Ids(t, idx), Ids(u, idxTgt), |u.table|, SameId))
  {
    var v1, v2 := Ids(t, idx), Ids(u, idxTgt);
    ExtraOrdered(v1, v2, |v2|, SameId);
    IdsSpaced(t, idx, t, idx, 1000);
    IdsSpaced(t, idx, u, idxTgt, 1000);
    forall j: nat
      ensures j in Extra(v1, v2, |v2|, SameId) <==>
                j < |u.table| && forall i :: 0 <= i < |t.table| ==> IdAt(t, i, idx) != IdAt(u, j, idxTgt)
    {
      if j < |v2| {
        ExtraRowsAreNew(v1, v2, j);
        NewId(t, u, idx, idxTgt, j);
      }
    }
  }

  lemma NewId(t: ValueTable, u: ValueTable, idx: int, idxTgt: int, j: nat)
    requires IsRect(t) && IsRect(u) && IsColumn(t, idx) && IsColumn(u, idxTgt) && j < |u.table|
    ensures Ids(u, idxTgt)[j] !in Ids(t, idx) <==>
              forall i :: 0 <= i < |t.table| ==> IdAt(t, i, idx) != IdAt(u, j, idxTgt)
  {
    var v := Ids(t, idx);
    assert forall i :: 0 <= i < |t.table| ==> v[i] == IdAt(t, i, idx);
  }

  // ---------- the joins ----------

  method HJoinRows(conf: Config, t: ValueTable, u: ValueTable, pairs: seq<(nat, nat)>) returns (joined: ValueTable)
    requires IsTable(conf, t) && IsTable(conf, u) && PairsIn(pairs, |t.table|, |u.table|)
    ensures joined == SideBySide(t, u, pairs)
  {
    var cols := UnionValueIndex(t.schemas, u.schemas, SameName);
    assert cols == NewColumns(t, u);
    var rows: seq<seq<Share>> := [];
    for k := 0 to |pairs|
      invariant rows == SideBySide(t, u, pairs).table[..k]
    {
      rows := rows + [t.table[pairs[k].0] + Pick(u.table[pairs[k].1], cols)];
    }
    joined := ValueTable(rows, t.schemas + Pick(u.schemas, cols));
  }

  method HJoin(conf: Config, t: ValueTable, u: ValueTable, idx: int, idxTgt: int) returns (joined: ValueTable)
    requires IsTable(conf, t) && IsTable(conf, u) && IsColumn(t, idx) && IsColumn(u, idxTgt)
    ensures joined == JoinedBy(Horizontal, t, u, idx, idxTgt)
    ensures Spaced(u, idxTgt, u, idxTgt, 1000) && Spaced(t, idx, u, idxTgt, 1000) ==>
              IsHorizontal(t, u, idx, idxTgt, joined)
    ensures IsNearJoin(t, u, idx, idxTgt, 1000, joined)
  {
    var column := GetColumn(conf, t, idx);
    var ids := OpenIds(conf, column);
    var columnTgt := GetColumn(conf, u, idxTgt);
    var idsTgt := OpenIds(conf, columnTgt);
    var pairs := IntersectionValueIndex(ids, idsTgt, SameId);
    PositionsOk(ids, idsTgt);
    joined := HJoinRows(conf, t, u, pairs);
    HJoinIsNear(t, u, idx, idxTgt);
    if Spaced(u, idxTgt, u, idxTgt, 1000) && Spaced(t, idx, u, idxTgt, 1000) { HJoinRowsAre(t, u, idx, idxTgt); }
  }

  method HJoinShare(conf: Config, t: ValueTable, u: ValueTable, idx: int, idxTgt: int, draws: seq<MergeDraw>)
    returns (joined: ValueTable)
    requires IsSetup(conf) && IsTable(conf, t) && IsTable(conf, u) && IsColumn(t, idx) && IsColumn(u, idxTgt)
    requires Comparable(conf, Ids(t, idx), Ids(u, idxTgt)) && AreMergeDraws(conf, draws, |t.table| + |u.table|)
    ensures joined == JoinedBy(HorizontalShare, t, u, idx, idxTgt)
    ensures Ascending(t, idx) && Ascending(u, idxTgt) && Spaced(t, idx, u, idxTgt, 762) ==>
              IsHorizontal(t, u, idx, idxTgt, joined)
    ensures IsNearJoin(t, u, idx, idxTgt, 762, joined)
  {
    var ids := GetColumn(conf, t, idx);
    var idsTgt := GetColumn(conf, u, idxTgt);
    var pairs := IntersectionSortedValueIndex(conf, ids, idsTgt, draws);
    PositionsOk(OpenedIds(ids), OpenedIds(idsTgt));
    joined := HJoinRows(conf, t, u, pairs);
    HJoinShareIsNear(t, u, idx, idxTgt);
    if Ascending(t, idx) && Ascending(u, idxTgt) && Spaced(t, idx, u, idxTgt, 762) {
      HJoinShareRowsAre(t, u, idx, idxTgt);
    }
  }

  method VJoin(conf: Config, t: ValueTable, u: ValueTable, idx: int, idxTgt: int) returns (joined: ValueTable)
    requires IsTable(conf, t) && IsTable(conf, u) && IsColumn(t, idx) && IsColumn(u, idxTgt)
    ensures joined == JoinedBy(Vertical, t, u, idx, idxTgt)
    ensures Spaced(t, idx, t, idx, 1000) && Spaced(t, idx, u, idxTgt, 1000) ==> IsVertical(t, u, idx, idxTgt, joined)
  {
    var pairs := IntersectionValueIndex(t.schemas, u.schemas, SameName);
    assert pairs == CommonColumns(t, u);
    var column := GetColumn(conf, t, idx);
    var ids := OpenIds(conf, column);
    var columnTgt := GetColumn(conf, u, idxTgt);
    var idsTgt := OpenIds(conf, columnTgt);
    var extra := UnionValueIndex(ids, idsTgt, SameId);
    PositionsOk(ids, idsTgt);
    joined := StackRows(t, u, pairs, extra);
    if Spaced(t, idx, t, idx, 1000) && Spaced(t, idx, u, idxTgt, 1000) { VJoinRowsAre(t, u, idx, idxTgt); }
  }

  method StackRows(t: ValueTable, u: ValueTable, pairs: seq<(nat, nat)>, extra: seq<nat>) returns (joined: ValueTable)
    requires IsRect(t) && IsRect(u) && pairs == CommonColumns(t, u)
    requires forall k :: 0 <= k < |extra| ==> extra[k] < |u.table|
    ensures joined == Stacked(t, u, extra)
  {
    var rows: seq<seq<Share>> := [];
    for r := 0 to |t.table|
      invariant rows == seq(r, i requires 0 <= i < r => Pick(t.table[i], Lefts(pairs)))
    {
      rows := rows + [Pick(t.table[r], Lefts(pairs))];
    }
    ghost var upper := rows;
    for k := 0 to |extra|
      invariant rows == upper + seq(k, i requires 0 <= i < k => Pick(u.table[extra[i]], Rights(pairs)))
    {
      rows := rows + [Pick(u.table[extra[k]], Rights(pairs))];
    }
    joined := ValueTable(rows, Pick(t.schemas, Lefts(pairs)));
  }

  // ---------- where the cells come from ----------

  /** The cell stands in one of the tables, in a column of that name. */
  ghost predicate Traced(values: seq<ValueTable>, name: string, cell: Share) {
    exists m: nat, r: nat, w: nat :: IsCell(values, m, r, w, name, cell)
  }

  predicate IsCell(values: seq<ValueTable>, m: nat, r: nat, w: nat, name: string, cell: Share) {
    && m < |values| && r < |values[m].table| && w < |values[m].schemas| && w < |values[m].table[r]|
    && values[m].schemas[w] == name && values[m].table[r][w] == cell
  }

  ghost predicate AllTraced(values: seq<ValueTable>, t: ValueTable) {
    IsRect(t)
    && forall r, c :: 0 <= r < |t.table| && 0 <= c < |t.schemas| ==> Traced(values, t.schemas[c], t.table[r][c])
  }

  lemma SideBySideTraced(conf: Config, values: seq<ValueTable>, t: ValueTable, u: ValueTable, pairs: seq<(nat, nat)>)
    requires IsTable(conf, t) && IsTable(conf, u) && AllTraced(values, t) && AllTraced(values, u)
    requires PairsIn(pairs, |t.table|, |u.table|)
    ensures IsTable(conf, SideBySide(t, u, pairs)) && AllTraced(values, SideBySide(t, u, pairs))
  {
    var cols, joined := NewColumns(t, u), SideBySide(t, u, pairs);
    forall r | 0 <= r < |joined.table| ensures |joined.table[r]| == |joined.schemas| && AreShares(conf, joined.table[r]) {
      assert AreShares(conf, t.table[pairs[r].0]) && AreShares(conf, u.table[pairs[r].1]);
    }
    forall r, c | 0 <= r < |joined.table| && 0 <= c < |joined.schemas|
      ensures Traced(values, joined.schemas[c], joined.table[r][c])
    {
      if c < |t.schemas| {
        assert Traced(values, t.schemas[c], t.table[pairs[r].0][c]);
      } else {
        assert Traced(values, u.schemas[cols[c - |t.schemas|]], u.table[pairs[r].1][cols[c - |t.schemas|]]);
      }
    }
  }

  lemma StackedTraced(conf: Config, values: seq<ValueTable>, t: ValueTable, u: ValueTable, extra: seq<nat>)
    requires IsTable(conf, t) && IsTable(conf, u) && AllTraced(values, t) && AllTraced(values, u)
    requires forall k :: 0 <= k < |extra| ==> extra[k] < |u.table|
    ensures IsTable(conf, Stacked(t, u, extra)) && AllTraced(values, Stacked(t, u, extra))
  {
    var pairs, joined := CommonColumns(t, u), Stacked(t, u, extra);
    forall r | 0 <= r < |joined.table| ensures |joined.table[r]| == |joined.schemas| && AreShares(conf, joined.table[r]) {
      if r < |t.table| { assert AreShares(conf, t.table[r]); } else { assert AreShares(conf, u.table[extra[r - |t.table|]]); }
    }
    forall r, c | 0 <= r < |joined.table| && 0 <= c < |joined.schemas|
      ensures Traced(values, joined.schemas[c], joined.table[r][c])
    {
      if r < |t.table| {
        assert Traced(values, t.schemas[pairs[c].0], t.table[r][pairs[c].0]);
      } else {
        assert Traced(values, u.schemas[pairs[c].1], u.table[extra[r - |t.table|]][pairs[c].1]);
      }
    }
  }

  lemma JoinTraced(conf: Config, values: seq<ValueTable>, mode: Mode, t: ValueTable, u: ValueTable, idx: int, idxTgt: int)
    requires IsTable(conf, t) && IsTable(conf, u) && AllTraced(values, t) && AllTraced(values, u)
    requires IsColumn(t, idx) && IsColumn(u, idxTgt)
    ensures IsTable(conf, JoinedBy(mode, t, u, idx, idxTgt)) && AllTraced(values, JoinedBy(mode, t, u, idx, idxTgt))
  {
    var v1, v2 := Ids(t, idx), Ids(u, idxTgt);
    PositionsOk(v1, v2);
    match mode
    case Horizontal => SideBySideTraced(conf, values, t, u, Intersection(v1, v2, |v1|, SameId));
    case Vertical => StackedTraced(conf, values, t, u, Extra(v1, v2, |v2|, SameId));
    case HorizontalShare => SideBySideTraced(conf, values, t, u, Merged(v1, v2, 0, 0));
  }

  // ---------- parseRead ----------

  function ModeOf(code: int): Mode {
    if code == 0 then Horizontal else if code == 1 then Vertical else HorizontalShare
  }

  /** The it-th join can be made: its indices name columns, and shared ids can be compared. */
  predicate JoinOk(conf: Config, values: seq<ValueTable>, join: seq<int>, index: seq<int>, draws: seq<seq<MergeDraw>>,
                   t: ValueTable, it: nat) {
    && it < |join| < |values| && |join| < |index| && |join| == |draws|
    && IsTable(conf, t) && IsTable(conf, values[it + 1])
    && IsColumn(t, index[0]) && IsColumn(values[it + 1], index[it + 1])
    && (ModeOf(join[it]).HorizontalShare? ==>
          Comparable(conf, Ids(t, index[0]), Ids(values[it + 1], index[it + 1]))
          && AreMergeDraws(conf, draws[it], |t.table| + |values[it + 1].table|))
  }

  /** The tables of parseRead, from the first value on, each one joined with the next value. */
  ghost predicate IsChain(conf: Config, values: seq<ValueTable>, join: seq<int>, index: seq<int>,
                          draws: seq<seq<MergeDraw>>, chain: seq<ValueTable>) {
    && |values| > 0 && IsTable(conf, values[0]) && |chain| == |join| + 1 && chain[0] == values[0]
    && forall it :: 0 <= it < |join| ==>
         JoinOk(conf, values, join, index, draws, chain[it], it)
         && chain[it + 1] == JoinedBy(ModeOf(join[it]), chain[it], values[it + 1], index[0], index[it + 1])
  }

  lemma OwnCells(values: seq<ValueTable>, m: nat)
    requires m < |values| && IsRect(values[m])
    ensures AllTraced(values, values[m])
  {
    var t := values[m];
    forall r, c | 0 <= r < |t.table| && 0 <= c < |t.schemas| ensures Traced(values, t.schemas[c], t.table[r][c]) {
      assert IsCell(values, m, r, c, t.schemas[c], t.table[r][c]);
    }
  }

  lemma NextTraced(conf: Config, values: seq<ValueTable>, join: seq<int>, index: seq<int>, draws: seq<seq<MergeDraw>>,
                   t: ValueTable, it: nat, next: ValueTable)
    requires JoinOk(conf, values, join, index, draws, t, it) && AllTraced(values, t)
    requires next == JoinedBy(ModeOf(join[it]), t, values[it + 1], index[0], index[it + 1])
    ensures IsTable(conf, next) && AllTraced(values, next)
  {
    OwnCells(values, it + 1);
    JoinTraced(conf, values, ModeOf(join[it]), t, values[it + 1], index[0], index[it + 1]);
  }

  /** The rows of every table fit its schema, and every cell comes from a column of its name. */
  lemma {:induction false} ChainTraced(conf: Config, values: seq<ValueTable>, join: seq<int>, index: seq<int>,
                                       draws: seq<seq<MergeDraw>>, chain: seq<ValueTable>, k: nat)
    requires IsChain(conf, values, join, index, draws, chain) && k < |chain|
    ensures IsTable(conf, chain[k]) && AllTraced(values, chain[k])
  {
    if k == 0 {
      OwnCells(values, 0);
    } else {
      ChainTraced(conf, values, join, index, draws, chain, k - 1);
      NextTraced(conf, values, join, index, draws, chain[k - 1], k - 1, chain[k]);
    }
  }

  /** One step of the chain: code 0 joins by the map, 1 stacks, every other code joins by the merge. */
  lemma ChainJoins(conf: Config, values: seq<ValueTable>, join: seq<int>, index: seq<int>, draws: seq<seq<MergeDraw>>,
                   chain: seq<ValueTable>, it: nat)
    requires IsChain(conf, values, join, index, draws, chain) && it < |join|
    ensures IsTable(conf, chain[it]) && IsColumn(chain[it], index[0]) && IsColumn(values[it + 1], index[it + 1])
    ensures var t, u, idx, idxTgt, next := chain[it], values[it + 1], index[0], index[it + 1], chain[it + 1];
            && (join[it] == 0 && Spaced(u, idxTgt, u, idxTgt, 1000) && Spaced(t, idx, u, idxTgt, 1000) ==>
                  IsHorizontal(t, u, idx, idxTgt, next))
            && (join[it] == 1 && Spaced(t, idx, t, idx, 1000) && Spaced(t, idx, u, idxTgt, 1000) ==>
                  IsVertical(t, u, idx, idxTgt, next))
            && (join[it] !in {0, 1} && Ascending(t, idx) && Ascending(u, idxTgt) && Spaced(t, idx, u, idxTgt, 762) ==>
                  IsHorizontal(t, u, idx, idxTgt, next))
  {
    var t, u, idx, idxTgt := chain[it], values[it + 1], index[0], index[it + 1];
    assert JoinOk(conf, values, join, index, draws, t, it);
    if join[it] == 0 {
      if Spaced(u, idxTgt, u, idxTgt, 1000) && Spaced(t, idx, u, idxTgt, 1000) { HJoinRowsAre(t, u, idx, idxTgt); }
    } else if join[it] == 1 {
      if Spaced(t, idx, t, idx, 1000) && Spaced(t, idx, u, idxTgt, 1000) { VJoinRowsAre(t, u, idx, idxTgt); }
    } else if Ascending(t, idx) && Ascending(u, idxTgt) && Spaced(t, idx, u, idxTgt, 762) {
      HJoinShareRowsAre(t, u, idx, idxTgt);
    }
  }

  method JoinOnce(conf: Config, code: int, t: ValueTable, u: ValueTable, idx: int, idxTgt: int, draws: seq<MergeDraw>)
    returns (next: ValueTable)
    requires IsSetup(conf) && IsTable(conf, t) && IsTable(conf, u) && IsColumn(t, idx) && IsColumn(u, idxTgt)
    requires ModeOf(code).HorizontalShare? ==>
               Comparable(conf, Ids(t, idx), Ids(u, idxTgt)) && AreMergeDraws(conf, draws, |t.table| + |u.table|)
    ensures next == JoinedBy(ModeOf(code), t, u, idx, idxTgt)
  {
    if code == 0 {
      next := HJoin(conf, t, u, idx, idxTgt);
    } else if code == 1 {
      next := VJoin(conf, t, u, idx, idxTgt);
    } else {
      next := HJoinShare(conf, t, u, idx, idxTgt, draws);
    }
  }

  /** joinFunc of parseRead. */
  method JoinFrom(conf: Config, values: seq<ValueTable>, join: seq<int>, index: seq<int>, draws: seq<seq<MergeDraw>>,
                  t: ValueTable, it: nat, ghost chain: seq<ValueTable>) returns (joined: ValueTable)
    requires IsSetup(conf) && IsChain(conf, values, join, index, draws, chain) && it < |chain| && t == chain[it]
    ensures joined == chain[|join|]
    decreases |join| - it
  {
    if it == |join| {
      return t;
    }
    assert JoinOk(conf, values, join, index, draws, t, it);
    var next := JoinOnce(conf, join[it], t, values[it + 1], index[0], index[it + 1], draws[it]);
    joined := JoinFrom(conf, values, join, index, draws, next, it + 1, chain);
  }

  /** parseRead folds the joins over the first table. */
  method ParseRead(conf: Config, values: seq<ValueTable>, join: seq<int>, index: seq<int>, draws: seq<seq<MergeDraw>>,
                   ghost chain: seq<ValueTable>) returns (joined: ValueTable)
    requires IsSetup(conf) && IsChain(conf, values, join, index, draws, chain)
    ensures joined == chain[|join|]
    ensures IsTable(conf, joined) && AllTraced(values, joined)
  {
    joined := JoinFrom(conf, values, join, index, draws, values[0], 0, chain);
    ChainTraced(conf, values, join, index, draws, chain, |join|);
  }
}
