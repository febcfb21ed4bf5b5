/** The two groupby('position') rank columns of the player table
    (avg_pts_rank and total_pts_rank), each held doubled. */
module PositionRanks {
  import opened Players
  import opened Ranking

  /** The column being ranked: avg_pts or total_pts. */
  datatype Metric = AvgPoints | TotalPoints

  function Points(p: Player, m: Metric): int {
    match m
    case AvgPoints => p.avgPts
    case TotalPoints => p.totalPts
  }

  /** The points, in column m, of the players at position pos, in table order. */
  function Group(ps: seq<Player>, pos: Position, m: Metric): seq<int> {
    if ps == [] then []
    else
      Group(ps[..|ps| - 1], pos, m)
      + (if ps[|ps| - 1].position == pos then [Points(ps[|ps| - 1], m)] else [])
  }

  lemma {:induction false} GroupMember(ps: seq<Player>, i: int, m: Metric)
    requires 0 <= i < |ps|
    ensures Points(ps[i], m) in Group(ps, ps[i].position, m)
  {
    if i < |ps| - 1 {
      var front := ps[..|ps| - 1];
      assert front[i] == ps[i];
      GroupMember(front, i, m);
    }
  }

  /** The rank of row i in column m among the players of its position, highest
      points first, ties sharing the average of their ranks; doubled. */
  function Rank2(ps: seq<Player>, i: int, m: Metric): nat
    requires 0 <= i < |ps|
  {
    DescRank2(Group(ps, ps[i].position, m), Points(ps[i], m))
  }

  /** Each rank lies in [1, n] for a position with n players. */
  lemma RankBounds(ps: seq<Player>, i: int, m: Metric)
    requires 0 <= i < |ps|
    ensures 2 <= Rank2(ps, i, m) <= 2 * |Group(ps, ps[i].position, m)|
  {
    GroupMember(ps, i, m);
    DescRankBounds(Group(ps, ps[i].position, m), Points(ps[i], m));
  }

  /** Within a position, more points means a better rank and conversely;
      equal points share one rank. */
  lemma RankOrder(ps: seq<Player>, i: int, j: int, m: Metric)
    requires 0 <= i < |ps| && 0 <= j < |ps| && ps[i].position == ps[j].position
    ensures Points(ps[i], m) > Points(ps[j], m) <==> Rank2(ps, i, m) < Rank2(ps, j, m)
    ensures Points(ps[i], m) == Points(ps[j], m) ==> Rank2(ps, i, m) == Rank2(ps, j, m)
  {
    GroupMember(ps, i, m);
    GroupMember(ps, j, m);
    DescRankOrder(Group(ps, ps[i].position, m), Points(ps[i], m), Points(ps[j], m));
  }

  /** The sum of the ranks of the rows before k that are at position pos. */
  function RankSumUpTo(ps: seq<Player>, pos: Position, m: Metric, k: nat): int
    requires k <= |ps|
  {
    if k == 0 then 0
    else RankSumUpTo(ps, pos, m, k - 1) + (if ps[k - 1].position == pos then Rank2(ps, k - 1, m) else 0)
  }

  lemma {:induction false} RankSumIsGroupSum(ps: seq<Player>, pos: Position, m: Metric, k: nat)
    requires k <= |ps|
    ensures RankSumUpTo(ps, pos, m, k) == SumDesc(Group(ps[..k], pos, m), Group(ps, pos, m))
  {
    if k > 0 {
      var all := Group(ps, pos, m);
      var g := Group(ps[..k - 1], pos, m);
      assert RankSumUpTo(ps, pos, m, k - 1) == SumDesc(g, all) by {
        RankSumIsGroupSum(ps, pos, m, k - 1);
      }
      GroupSnoc(ps, pos, m, k);
      if ps[k - 1].position == pos {
        SumDescSnoc(g, Points(ps[k - 1], m), all);
        assert Rank2(ps, k - 1, m) == DescRank2(all, Points(ps[k - 1], m));
        assert RankSumUpTo(ps, pos, m, k) == RankSumUpTo(ps, pos, m, k - 1) + Rank2(ps, k - 1, m);
      } else {
        assert Group(ps[..k], pos, m) == g;
        assert RankSumUpTo(ps, pos, m, k) == RankSumUpTo(ps, pos, m, k - 1);
      }
    }
  }

  lemma GroupSnoc(ps: seq<Player>, pos: Position, m: Metric, k: nat)
    requires 0 < k <= |ps|
    ensures Group(ps[..k], pos, m)
            == Group(ps[..k - 1], pos, m) + (if ps[k - 1].position == pos then [Points(ps[k - 1], m)] else [])
  {
    assert ps[..k][..k - 1] == ps[..k - 1];
  }

  lemma SumDescSnoc(u: seq<int>, x: int, g: seq<int>)
    ensures SumDesc(u + [x], g) == SumDesc(u, g) + DescRank2(g, x)
  {
    assert (u + [x])[..|u|] == u;
  }

  /** The ranks of the n players of a position sum to n(n+1)/2 (doubled: n(n+1)). */
  lemma RankSum(ps: seq<Player>, pos: Position, m: Metric)
    ensures RankSumUpTo(ps, pos, m, |ps|) == |Group(ps, pos, m)| * (|Group(ps, pos, m)| + 1)
  {
    RankSumIsGroupSum(ps, pos, m, |ps|);
    assert ps[..|ps|] == ps;
    DescRankSum(Group(ps, pos, m));
  }

  /** A player row with its two rank columns (doubled). */
  datatype RankedPlayer = RankedPlayer(player: Player, avgRank2: nat, totalRank2: nat)

  /** RankBounds and RankOrder for every row and pair of rows, in both columns. */
  lemma RanksHold(ps: seq<Player>)
    ensures forall i, m :: 0 <= i < |ps| ==> 2 <= Rank2(ps, i, m) <= 2 * |Group(ps, ps[i].position, m)|
    ensures forall i, j, m :: 0 <= i < |ps| && 0 <= j < |ps| && ps[i].position == ps[j].position ==>
              (Points(ps[i], m) > Points(ps[j], m) <==> Rank2(ps, i, m) < Rank2(ps, j, m))
  {
    forall i, m | 0 <= i < |ps| ensures 2 <= Rank2(ps, i, m) <= 2 * |Group(ps, ps[i].position, m)| {
      RankBounds(ps, i, m);
    }
    forall i, j, m | 0 <= i < |ps| && 0 <= j < |ps| && ps[i].position == ps[j].position
      ensures Points(ps[i], m) > Points(ps[j], m) <==> Rank2(ps, i, m) < Rank2(ps, j, m)
    {
      RankOrder(ps, i, j, m);
    }
  }

  /** players_df after the two rank columns are added: each player keeps its record and
      gets, in each column, a rank in [1, n] among the n players of its position, better
      exactly when it has more points than another player there. */
  function RankPlayers(ps: seq<Player>): (r: seq<RankedPlayer>)
    ensures |r| == |ps|
    ensures forall i :: 0 <= i < |ps| ==> r[i].player == ps[i]
    ensures forall i :: 0 <= i < |ps| ==>
              && 2 <= r[i].avgRank2 <= 2 * |Group(ps, ps[i].position, AvgPoints)|
              && 2 <= r[i].totalRank2 <= 2 * |Group(ps, ps[i].position, TotalPoints)|
    ensures forall i, j :: 0 <= i < |ps| && 0 <= j < |ps| && ps[i].position == ps[j].position ==>
              && (ps[i].avgPts > ps[j].avgPts <==> r[i].avgRank2 < r[j].avgRank2)
              && (ps[i].totalPts > ps[j].totalPts <==> r[i].totalRank2 < r[j].totalRank2)
  {
    RanksHold(ps);
    seq(|ps|, i requires 0 <= i < |ps| =>
      RankedPlayer(ps[i], Rank2(ps, i, AvgPoints), Rank2(ps, i, TotalPoints)))
  }

}
