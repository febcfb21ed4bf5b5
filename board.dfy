/** The snake-draft board: the sorted board labels cut into 15 rounds of 14,
    every odd round reversed, and the column titles set on the grid. */
module Board {
  import opened Options

  /** rounds and players: the number of rounds and of picks per round. */
  const Rounds: nat := 15
  const PicksPerRound: nat := 14

  function Min(a: int, b: int): int {
    if a < b then a else b
  }

  /** info_df.loc[14i : 14i + 13]['draft_board']: the labels of table rows 14i .. 14i + 13
      (both ends included, cut at the end of the table). */
  function RoundSlice(labels: seq<string>, i: nat): seq<string> {
    labels[Min(i * PicksPerRound, |labels|)..Min(i * PicksPerRound + PicksPerRound, |labels|)]
  }

  function Reversed<T>(s: seq<T>): seq<T> {
    seq(|s|, k requires 0 <= k < |s| => s[|s| - 1 - k])
  }

  /** Row i of draft_board_list: round i's labels, reversed when i is odd. */
  function BoardRow(labels: seq<string>, i: nat): seq<string> {
    if i % 2 == 1 then Reversed(RoundSlice(labels, i)) else RoundSlice(labels, i)
  }

  /** All 15 rows of draft_board_list. */
  function BoardRows(labels: seq<string>): seq<seq<string>> {
    seq(Rounds, i requires 0 <= i < Rounds => BoardRow(labels, i))
  }

  /** picks.reverse(): reverses the list in place. */
  method ReverseInPlace(a: array<string>)
    modifies a
    ensures a[..] == Reversed(old(a[..]))
  {
    var n := a.Length;
    for i := 0 to n / 2
      invariant forall k :: 0 <= k < i ==> a[k] == old(a[n - 1 - k]) && a[n - 1 - k] == old(a[k])
      invariant forall k :: i <= k < n - i ==> a[k] == old(a[k])
    {
      a[i], a[n - 1 - i] := a[n - 1 - i], a[i];
    }
  }

  /** The `for i in range(rounds)` loop that builds draft_board_list. */
  method BuildBoard(labels: seq<string>) returns (board: seq<seq<string>>)
    ensures board == BoardRows(labels)
  {
    board := [];
    for i := 0 to Rounds
      invariant |board| == i
      invariant forall r :: 0 <= r < i ==> board[r] == BoardRow(labels, r)
    {
      var lo := Min(i * PicksPerRound, |labels|);
      var hi := Min(i * PicksPerRound + PicksPerRound, |labels|);
      var picks := new string[hi - lo](k requires 0 <= k < hi - lo => labels[lo + k]);
      assert picks[..] == RoundSlice(labels, i);
      if i % 2 == 1 {
        ReverseInPlace(picks);
      }
      board := board + [picks[..]];
    }
  }

  /** The table row shown at column j of board row i when that row holds len labels:
      left to right for an even round, right to left for an odd one. */
  function CellIndex(i: nat, j: nat, len: nat): int {
    if i % 2 == 0 then i * PicksPerRound + j else i * PicksPerRound + len - 1 - j
  }

  /** Every cell (i, j) of the board shows the label of table row CellIndex(i, j, len),
      which lies in round i's range 14i .. 14i + 13. */
  lemma BoardCell(labels: seq<string>, i: nat, j: nat)
    requires i < Rounds && j < |BoardRows(labels)[i]|
    ensures var len := |BoardRows(labels)[i]|;
            && i * PicksPerRound <= CellIndex(i, j, len) < Min(i * PicksPerRound + PicksPerRound, |labels|)
            && BoardRows(labels)[i][j] == labels[CellIndex(i, j, len)]
  {
  }

  /** A full round reads row 14i + j at column j when i is even and row 14i + 13 - j when i is odd. */
  lemma FullRound(labels: seq<string>, i: nat, j: nat)
    requires i < Rounds && i * PicksPerRound + PicksPerRound <= |labels| && j < PicksPerRound
    ensures |BoardRows(labels)[i]| == PicksPerRound
    ensures BoardRows(labels)[i][j] == labels[if i % 2 == 0 then i * PicksPerRound + j else i * PicksPerRound + PicksPerRound - 1 - j]
  {
    BoardCell(labels, i, j);
  }

  /** The cell (row, column) that shows table row k. */
  function CellOf(labels: seq<string>, k: nat): (int, int) {
    var i := k / PicksPerRound;
    var len := Min(i * PicksPerRound + PicksPerRound, |labels|) - Min(i * PicksPerRound, |labels|);
    (i, if i % 2 == 0 then k % PicksPerRound else len - 1 - k % PicksPerRound)
  }

  /** Each of the first 210 table rows is shown at cell CellOf(k), and that cell maps back to k. */
  lemma CellOfIndex(labels: seq<string>, k: nat)
    requires k < Min(|labels|, Rounds * PicksPerRound)
    ensures var (i, j) := CellOf(labels, k);
            && 0 <= i < Rounds && 0 <= j < |BoardRows(labels)[i]|
            && CellIndex(i, j, |BoardRows(labels)[i]|) == k
            && BoardRows(labels)[i][j] == labels[k]
  {
    var (i, j) := CellOf(labels, k);
    assert i * PicksPerRound <= k < i * PicksPerRound + PicksPerRound;
    BoardCell(labels, i, j);
  }

  /** The cells of the board, row after row. */
  function Flatten(rows: seq<seq<string>>): seq<string> {
    if rows == [] then [] else Flatten(rows[..|rows| - 1]) + rows[|rows| - 1]
  }

  lemma {:induction false} ReversedMultiset<T>(s: seq<T>)
    ensures multiset(Reversed(s)) == multiset(s)
  {
    if s != [] {
      var t, x := s[..|s| - 1], s[|s| - 1];
      assert s == t + [x];
      assert Reversed(s) == [x] + Reversed(t);
      ReversedMultiset(t);
    }
  }

  lemma {:induction false} BoardPrefix(labels: seq<string>, r: nat)
    requires r <= Rounds
    ensures multiset(Flatten(BoardRows(labels)[..r])) == multiset(labels[..Min(r * PicksPerRound, |labels|)])
  {
    if r > 0 {
      var rows := BoardRows(labels);
      var before := labels[..Min((r - 1) * PicksPerRound, |labels|)];
      var slice := RoundSlice(labels, r - 1);
      assert multiset(Flatten(rows[..r - 1])) == multiset(before) by {
        BoardPrefix(labels, r - 1);
      }
      assert Flatten(rows[..r]) == Flatten(rows[..r - 1]) + rows[r - 1] by {
        FlattenSnoc(rows, r);
      }
      assert multiset(rows[r - 1]) == multiset(slice) by {
        RowMultiset(labels, r - 1);
      }
      assert before + slice == labels[..Min(r * PicksPerRound, |labels|)] by {
        SliceSnoc(labels, r - 1);
        assert (r - 1) * PicksPerRound + PicksPerRound == r * PicksPerRound;
      }
    }
  }

  lemma FlattenSnoc(rows: seq<seq<string>>, r: nat)
    requires 0 < r <= |rows|
    ensures Flatten(rows[..r]) == Flatten(rows[..r - 1]) + rows[r - 1]
  {
    assert rows[..r][..r - 1] == rows[..r - 1];
  }

  lemma RowMultiset(labels: seq<string>, i: nat)
    requires i < Rounds
    ensures multiset(BoardRows(labels)[i]) == multiset(RoundSlice(labels, i))
  {
    ReversedMultiset(RoundSlice(labels, i));
  }

  lemma SliceSnoc(labels: seq<string>, i: nat)
    ensures labels[..Min(i * PicksPerRound + PicksPerRound, |labels|)] == labels[..Min(i * PicksPerRound, |labels|)] + RoundSlice(labels, i)
  {
  }

  /** The board holds the labels of the first 210 table rows, each exactly as often as
      in the table (once each when labels are unique), and nothing else. */
  lemma BoardHoldsEachPickOnce(labels: seq<string>)
    ensures multiset(Flatten(BoardRows(labels))) == multiset(labels[..Min(|labels|, Rounds * PicksPerRound)])
  {
    BoardPrefix(labels, Rounds);
    assert BoardRows(labels)[..Rounds] == BoardRows(labels);
  }

  /** The number of columns of pd.DataFrame(draft_board_list): its longest row. */
  function Width(rows: seq<seq<string>>): nat {
    if rows == [] then 0
    else
      var w := Width(rows[..|rows| - 1]);
      if |rows[|rows| - 1]| > w then |rows[|rows| - 1]| else w
  }

  lemma {:induction false} WidthBounds(rows: seq<seq<string>>, n: nat)
    requires forall r :: 0 <= r < |rows| ==> |rows[r]| <= n
    requires exists r :: 0 <= r < |rows| && |rows[r]| == n
    ensures Width(rows) == n
  {
    WidthAtMost(rows, n);
    var r :| 0 <= r < |rows| && |rows[r]| == n;
    WidthAtLeast(rows, r);
  }

  lemma {:induction false} WidthAtMost(rows: seq<seq<string>>, n: nat)
    requires forall r :: 0 <= r < |rows| ==> |rows[r]| <= n
    ensures Width(rows) <= n
  {
    if rows != [] {
      WidthAtMost(rows[..|rows| - 1], n);
    }
  }

  lemma {:induction false} WidthAtLeast(rows: seq<seq<string>>, r: int)
    requires 0 <= r < |rows|
    ensures |rows[r]| <= Width(rows)
  {
    if r < |rows| - 1 {
      assert rows[..|rows| - 1][r] == rows[r];
      WidthAtLeast(rows[..|rows| - 1], r);
    }
  }

  /** Once the table has a full first round, the board has exactly 14 columns. */
  lemma FullBoardWidth(labels: seq<string>)
    requires |labels| >= PicksPerRound
    ensures Width(BoardRows(labels)) == PicksPerRound
  {
    var rows := BoardRows(labels);
    assert |rows[0]| == PicksPerRound;
    WidthBounds(rows, PicksPerRound);
  }

  /** The grid shown in the table: column titles and rows. */
  datatype DraftBoard = DraftBoard(columns: seq<string>, rows: seq<seq<string>>)

  /** draft_board.columns = titles: None is the ValueError raised unless there is one
      title per column. */
  function Frame(rows: seq<seq<string>>, titles: seq<string>): (r: Option<DraftBoard>)
    ensures r.Some? <==> |titles| == Width(rows)
    ensures r.Some? ==> r.value.rows == rows && r.value.columns == titles
  {
    if |titles| == Width(rows) then Some(DraftBoard(titles, rows)) else None
  }

}
