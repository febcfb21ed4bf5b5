/** The position_draft column of info_df: each pick numbered by pick order
    within its position. */
module PositionDraft {
  import opened Players
  import opened Ranking
  import opened Draft

  /** The pick numbers of the rows at position pos, in table order. */
  function PickGroup(rows: seq<Row>, pos: Position): seq<int> {
    if rows == [] then []
    else
      PickGroup(rows[..|rows| - 1], pos)
      + (if rows[|rows| - 1].position == pos then [rows[|rows| - 1].pick] else [])
  }

  lemma {:induction false} PickGroupMember(rows: seq<Row>, i: int)
    requires 0 <= i < |rows|
    ensures rows[i].pick in PickGroup(rows, rows[i].position)
  {
    if i < |rows| - 1 {
      var front := rows[..|rows| - 1];
      assert front[i] == rows[i];
      PickGroupMember(front, i);
    }
  }

  lemma {:induction false} PickGroupSource(rows: seq<Row>, pos: Position, y: int)
    requires y in PickGroup(rows, pos)
    ensures exists i :: 0 <= i < |rows| && rows[i].position == pos && rows[i].pick == y
  {
    var front := rows[..|rows| - 1];
    if y in PickGroup(front, pos) {
      PickGroupSource(front, pos, y);
      var i :| 0 <= i < |front| && front[i].position == pos && front[i].pick == y;
      assert rows[i] == front[i];
    }
  }

  /** Pick numbers are unique across the table (ESPN pick ids are). */
  predicate DistinctPicks(rows: seq<Row>) {
    forall i, j :: 0 <= i < j < |rows| ==> rows[i].pick != rows[j].pick
  }

  lemma {:induction false} PickGroupDistinct(rows: seq<Row>, pos: Position)
    requires DistinctPicks(rows)
    ensures Distinct(PickGroup(rows, pos))
  {
    if rows != [] {
      var front, last := rows[..|rows| - 1], rows[|rows| - 1];
      assert DistinctPicks(front);
      PickGroupDistinct(front, pos);
      if last.position == pos {
        var g := PickGroup(front, pos);
        forall y | y in g ensures y != last.pick {
          PickGroupSource(front, pos, y);
          var i :| 0 <= i < |front| && front[i].position == pos && front[i].pick == y;
          assert rows[i] == front[i];
        }
        var v := g + [last.pick];
        assert PickGroup(rows, pos) == v;
        forall i, j | 0 <= i < j < |v| ensures v[i] != v[j] {
          if j == |g| {
            assert v[i] == g[i] && g[i] in g;
          }
        }
      }
    }
  }

  /** position_draft of row i: the ascending average rank of its pick among the
      picks of its position, cast to int. */
  function PositionDraftNum(rows: seq<Row>, i: int): nat
    requires 0 <= i < |rows|
  {
    DraftOrdinal(PickGroup(rows, rows[i].position), rows[i].pick)
  }

  /** Within a position, an earlier pick gets a smaller number and conversely. */
  lemma PositionDraftOrder(rows: seq<Row>, i: int, j: int)
    requires 0 <= i < |rows| && 0 <= j < |rows| && rows[i].position == rows[j].position
    ensures rows[i].pick < rows[j].pick <==> PositionDraftNum(rows, i) < PositionDraftNum(rows, j)
  {
    PickGroupMember(rows, i);
    PickGroupMember(rows, j);
    var g := PickGroup(rows, rows[i].position);
    if rows[i].pick < rows[j].pick {
      DraftOrdinalOrder(g, rows[i].pick, rows[j].pick);
    } else if rows[j].pick < rows[i].pick {
      DraftOrdinalOrder(g, rows[j].pick, rows[i].pick);
    }
  }

  /** Some row at position pos has position_draft number k. */
  predicate DraftNumTaken(rows: seq<Row>, pos: Position, k: int) {
    exists i :: 0 <= i < |rows| && rows[i].position == pos && PositionDraftNum(rows, i) == k
  }

  /** With distinct pick numbers, the numbers of the n rows at a position are a
      permutation of 1 .. n: each lies in 1 .. n, each of 1 .. n is taken, and no
      two rows share one. */
  lemma PositionDraftPermutation(rows: seq<Row>, pos: Position)
    requires DistinctPicks(rows)
    ensures forall i :: 0 <= i < |rows| && rows[i].position == pos ==>
              1 <= PositionDraftNum(rows, i) <= |PickGroup(rows, pos)|
    ensures forall k :: 1 <= k <= |PickGroup(rows, pos)| ==> DraftNumTaken(rows, pos, k)
    ensures forall i, j ::
              (0 <= i < |rows| && 0 <= j < |rows| && i != j
               && rows[i].position == pos && rows[j].position == pos) ==>
              PositionDraftNum(rows, i) != PositionDraftNum(rows, j)
  {
    var g := PickGroup(rows, pos);
    PickGroupDistinct(rows, pos);
    DraftOrdinalsPermutation(g);
    forall i | 0 <= i < |rows| && rows[i].position == pos
      ensures 1 <= PositionDraftNum(rows, i) <= |g|
    {
      PickGroupMember(rows, i);
    }
    forall k | 1 <= k <= |g| ensures DraftNumTaken(rows, pos, k) {
      assert OrdinalTaken(g, k);
      var y :| y in g && DraftOrdinal(g, y) == k;
      PickGroupSource(rows, pos, y);
      var i :| 0 <= i < |rows| && rows[i].position == pos && rows[i].pick == y;
      assert PositionDraftNum(rows, i) == k;
    }
    forall i, j | 0 <= i < |rows| && 0 <= j < |rows| && i != j
                  && rows[i].position == pos && rows[j].position == pos
      ensures PositionDraftNum(rows, i) != PositionDraftNum(rows, j)
    {
      PickGroupMember(rows, i);
      PickGroupMember(rows, j);
      assert rows[i].pick != rows[j].pick;
    }
  }

  /** A row of the final info_df: the merged row and its position_draft number. */
  datatype Info = Info(row: Row, positionDraft: nat)

  /** PositionDraftOrder for every pair of rows. */
  lemma DraftNumsOrdered(rows: seq<Row>)
    ensures forall i, j :: 0 <= i < |rows| && 0 <= j < |rows| && rows[i].position == rows[j].position ==>
              (rows[i].pick < rows[j].pick <==> PositionDraftNum(rows, i) < PositionDraftNum(rows, j))
  {
    forall i, j | 0 <= i < |rows| && 0 <= j < |rows| && rows[i].position == rows[j].position
      ensures rows[i].pick < rows[j].pick <==> PositionDraftNum(rows, i) < PositionDraftNum(rows, j)
    {
      PositionDraftOrder(rows, i, j);
    }
  }

  /** info_df after the position_draft column is added: each row is kept, and within a
      position an earlier pick has a smaller number; with distinct picks, the numbers of
      the n rows at a position lie in 1 .. n. */
  function Annotate(rows: seq<Row>): (r: seq<Info>)
    ensures |r| == |rows|
    ensures forall i :: 0 <= i < |rows| ==> r[i].row == rows[i]
    ensures forall i, j :: 0 <= i < |rows| && 0 <= j < |rows| && rows[i].position == rows[j].position ==>
              (rows[i].pick < rows[j].pick <==> r[i].positionDraft < r[j].positionDraft)
    ensures DistinctPicks(rows) ==>
              forall i :: 0 <= i < |rows| ==> 1 <= r[i].positionDraft <= |PickGroup(rows, rows[i].position)|
  {
    DraftNumsOrdered(rows);
    DraftNumsBounded(rows);
    seq(|rows|, i requires 0 <= i < |rows| => Info(rows[i], PositionDraftNum(rows, i)))
  }

  /** With distinct picks, the bounds of PositionDraftPermutation for the rows of every
      position at once. */
  lemma DraftNumsBounded(rows: seq<Row>)
    ensures DistinctPicks(rows) ==>
              forall i :: 0 <= i < |rows| ==> 1 <= PositionDraftNum(rows, i) <= |PickGroup(rows, rows[i].position)|
  {
    if DistinctPicks(rows) {
      forall i | 0 <= i < |rows|
        ensures 1 <= PositionDraftNum(rows, i) <= |PickGroup(rows, rows[i].position)|
      {
        PositionDraftPermutation(rows, rows[i].position);
      }
    }
  }

}
