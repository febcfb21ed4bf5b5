/** Draft picks, the inner join of players to picks on player_id, and the
    sort of the joined table by (round, round_pick). */
module Draft {
  import opened Players
  import opened PositionRanks

  /** One element of the fetched draftDetail 'picks' list (the keys the script reads). */
  datatype RawPick = RawPick(playerId: int, id: int, roundId: int, roundPickNumber: int)

  /** A row of draft_df. */
  datatype DraftPick = DraftPick(playerId: int, pick: int, round: int, roundPick: int)

  /** The draft_df row of one fetched pick. */
  function PickRow(raw: RawPick): DraftPick {
    DraftPick(raw.playerId, raw.id, raw.roundId, raw.roundPickNumber)
  }

  /** draft_df as a list of rows: the row of each fetched pick, in order. */
  function PickRows(raw: seq<RawPick>): (r: seq<DraftPick>)
    ensures |r| == |raw| && forall i :: 0 <= i < |raw| ==> r[i] == PickRow(raw[i])
  {
    seq(|raw|, i requires 0 <= i < |raw| => PickRow(raw[i]))
  }

  /** The draft_dicts.append loop: one draft_df row per fetched pick, in order. */
  method BuildPicks(raw: seq<RawPick>) returns (picks: seq<DraftPick>)
    ensures |picks| == |raw|
    ensures forall i :: 0 <= i < |raw| ==>
              picks[i] == DraftPick(raw[i].playerId, raw[i].id, raw[i].roundId, raw[i].roundPickNumber)
    ensures picks == PickRows(raw)
  {
    picks := [];
    for i := 0 to |raw|
      invariant |picks| == i
      invariant forall k :: 0 <= k < i ==>
                  picks[k] == DraftPick(raw[k].playerId, raw[k].id, raw[k].roundId, raw[k].roundPickNumber)
    {
      picks := picks + [DraftPick(raw[i].playerId, raw[i].id, raw[i].roundId, raw[i].roundPickNumber)];
    }
  }

  /** A row of info_df: the player's columns, its two ranks (doubled) and the pick's columns. */
  datatype Row = Row(playerId: int, name: string, position: Position, avgPts: int, totalPts: int,
                     avgRank2: nat, totalRank2: nat, pick: int, round: int, roundPick: int)

  /** The merged row of a player and a pick with the same player_id. */
  function Combine(rp: RankedPlayer, d: DraftPick): Row {
    Row(d.playerId, rp.player.name, rp.player.position, rp.player.avgPts, rp.player.totalPts,
        rp.avgRank2, rp.totalRank2, d.pick, d.round, d.roundPick)
  }

  /** The draft_df columns of a merged row. */
  function PickOf(row: Row): DraftPick {
    DraftPick(row.playerId, row.pick, row.round, row.roundPick)
  }

  /** The players_df columns of a merged row. */
  function PlayerOf(row: Row): RankedPlayer {
    RankedPlayer(Player(row.playerId, row.name, row.position, row.avgPts, row.totalPts),
                 row.avgRank2, row.totalRank2)
  }

  /** The rows the inner merge makes for one player: one per pick of that player, in pick order. */
  function Matches(rp: RankedPlayer, ds: seq<DraftPick>): seq<Row> {
    if ds == [] then []
    else
      Matches(rp, ds[..|ds| - 1])
      + (if ds[|ds| - 1].playerId == rp.player.playerId then [Combine(rp, ds[|ds| - 1])] else [])
  }

  /** pd.merge(players_df, draft_df, how='inner', on='player_id'): the order of the players, and
      for each player its picks in pick order. */
  function Join(rps: seq<RankedPlayer>, ds: seq<DraftPick>): seq<Row> {
    if rps == [] then [] else Join(rps[..|rps| - 1], ds) + Matches(rps[|rps| - 1], ds)
  }

  lemma {:induction false} MatchesMembership(rp: RankedPlayer, ds: seq<DraftPick>, row: Row)
    ensures row in Matches(rp, ds) <==>
              exists j :: 0 <= j < |ds| && ds[j].playerId == rp.player.playerId && row == Combine(rp, ds[j])
  {
    if ds != [] {
      var front := ds[..|ds| - 1];
      MatchesMembership(rp, front, row);
      if exists j :: 0 <= j < |ds| && ds[j].playerId == rp.player.playerId && row == Combine(rp, ds[j]) {
        var j :| 0 <= j < |ds| && ds[j].playerId == rp.player.playerId && row == Combine(rp, ds[j]);
        if j < |ds| - 1 {
          assert front[j] == ds[j];
        }
      }
      if exists j :: 0 <= j < |front| && front[j].playerId == rp.player.playerId && row == Combine(rp, front[j]) {
        var j :| 0 <= j < |front| && front[j].playerId == rp.player.playerId && row == Combine(rp, front[j]);
        assert ds[j] == front[j];
      }
    }
  }

  /** The joined table holds exactly the merged rows of the (player, pick) pairs with the
      same player_id: each row carries one player's columns and one of that player's picks. */
  lemma JoinMembership(rps: seq<RankedPlayer>, ds: seq<DraftPick>, row: Row)
    ensures row in Join(rps, ds) <==>
              exists i, j :: 0 <= i < |rps| && 0 <= j < |ds| && rps[i].player.playerId == ds[j].playerId
                             && PlayerOf(row) == rps[i] && PickOf(row) == ds[j]
  {
    JoinCombines(rps, ds, row);
  }

  lemma {:induction false} JoinCombines(rps: seq<RankedPlayer>, ds: seq<DraftPick>, row: Row)
    ensures row in Join(rps, ds) <==>
              exists i, j :: 0 <= i < |rps| && 0 <= j < |ds| && rps[i].player.playerId == ds[j].playerId
                             && row == Combine(rps[i], ds[j])
  {
    if rps != [] {
      var front, last := rps[..|rps| - 1], rps[|rps| - 1];
      JoinCombines(front, ds, row);
      MatchesMembership(last, ds, row);
      if exists i, j :: 0 <= i < |rps| && 0 <= j < |ds| && rps[i].player.playerId == ds[j].playerId
                        && row == Combine(rps[i], ds[j]) {
        var i, j :| 0 <= i < |rps| && 0 <= j < |ds| && rps[i].player.playerId == ds[j].playerId
                    && row == Combine(rps[i], ds[j]);
        if i < |rps| - 1 {
          assert front[i] == rps[i];
        }
      }
      if exists i, j :: 0 <= i < |front| && 0 <= j < |ds| && front[i].player.playerId == ds[j].playerId
                        && row == Combine(front[i], ds[j]) {
        var i, j :| 0 <= i < |front| && 0 <= j < |ds| && front[i].player.playerId == ds[j].playerId
                    && row == Combine(front[i], ds[j]);
        assert rps[i] == front[i];
      }
    }
  }

  /** The draft_df columns of each merged row. */
  function PicksOf(rows: seq<Row>): (r: seq<DraftPick>)
    ensures |r| == |rows|
  {
    seq(|rows|, i requires 0 <= i < |rows| => PickOf(rows[i]))
  }

  /** The player ids of the player table. */
  function Ids(rps: seq<RankedPlayer>): set<int> {
    set i | 0 <= i < |rps| :: rps[i].player.playerId
  }

  predicate UniqueIds(rps: seq<RankedPlayer>) {
    forall i, j :: 0 <= i < j < |rps| ==> rps[i].player.playerId != rps[j].player.playerId
  }

  /** The picks whose player id is in ids, in pick order. */
  function Drafted(ds: seq<DraftPick>, ids: set<int>): seq<DraftPick> {
    if ds == [] then []
    else Drafted(ds[..|ds| - 1], ids) + (if ds[|ds| - 1].playerId in ids then [ds[|ds| - 1]] else [])
  }

  lemma {:induction false} MatchesPicks(rp: RankedPlayer, ds: seq<DraftPick>)
    ensures PicksOf(Matches(rp, ds)) == Drafted(ds, {rp.player.playerId})
  {
    if ds != [] {
      var front := ds[..|ds| - 1];
      MatchesPicks(rp, front);
      var tail := if ds[|ds| - 1].playerId == rp.player.playerId then [Combine(rp, ds[|ds| - 1])] else [];
      PicksOfAppend(Matches(rp, front), tail);
    }
  }

  lemma PicksOfAppend(a: seq<Row>, b: seq<Row>)
    ensures PicksOf(a + b) == PicksOf(a) + PicksOf(b)
  {
    assert forall i :: 0 <= i < |a| + |b| ==> PicksOf(a + b)[i] == (PicksOf(a) + PicksOf(b))[i];
  }

  lemma {:induction false} DraftedSplit(ds: seq<DraftPick>, ids: set<int>, x: int)
    requires x !in ids
    ensures multiset(Drafted(ds, ids + {x})) == multiset(Drafted(ds, ids)) + multiset(Drafted(ds, {x}))
  {
    if ds != [] {
      DraftedSplit(ds[..|ds| - 1], ids, x);
    }
  }

  /** With unique player ids, the picks carried by the joined table are exactly the
      picks whose player occurs among the players, each once. */
  lemma {:induction false} JoinCarriesDraftedPicks(rps: seq<RankedPlayer>, ds: seq<DraftPick>)
    requires UniqueIds(rps)
    ensures multiset(PicksOf(Join(rps, ds))) == multiset(Drafted(ds, Ids(rps)))
  {
    if rps == [] {
      assert Ids(rps) == {};
      DraftedNone(ds);
    } else {
      var front, last := rps[..|rps| - 1], rps[|rps| - 1];
      IdsSnoc(rps);
      JoinCarriesDraftedPicks(front, ds);
      PicksOfAppend(Join(front, ds), Matches(last, ds));
      MatchesPicks(last, ds);
      DraftedSplit(ds, Ids(front), last.player.playerId);
    }
  }

  /** The ids of a non-empty player table are those of its front and a new one of its last row. */
  lemma IdsSnoc(rps: seq<RankedPlayer>)
    requires rps != [] && UniqueIds(rps)
    ensures UniqueIds(rps[..|rps| - 1])
    ensures Ids(rps) == Ids(rps[..|rps| - 1]) + {rps[|rps| - 1].player.playerId}
    ensures rps[|rps| - 1].player.playerId !in Ids(rps[..|rps| - 1])
  {
    var front, last := rps[..|rps| - 1], rps[|rps| - 1];
    forall id | id in Ids(rps) ensures id in Ids(front) + {last.player.playerId} {
      var i :| 0 <= i < |rps| && rps[i].player.playerId == id;
      if i < |rps| - 1 {
        assert front[i] == rps[i];
      }
    }
    forall id | id in Ids(front) ensures id in Ids(rps) && id != last.player.playerId {
      var i :| 0 <= i < |front| && front[i].player.playerId == id;
      assert rps[i] == front[i];
    }
  }

  lemma {:induction false} DraftedNone(ds: seq<DraftPick>)
    ensures Drafted(ds, {}) == []
  {
    if ds != [] {
      DraftedNone(ds[..|ds| - 1]);
    }
  }

  /** Row a comes no later than row b in (round, round_pick) order. */
  predicate KeyLe(a: Row, b: Row) {
    a.round < b.round || (a.round == b.round && a.roundPick <= b.roundPick)
  }

  predicate SortedByRound(rows: seq<Row>) {
    forall i, j :: 0 <= i < j < |rows| ==> KeyLe(rows[i], rows[j])
  }

  /** Places x after every row whose key is not greater than its own. */
  function InsertByRound(x: Row, rows: seq<Row>): (r: seq<Row>)
    requires SortedByRound(rows)
    ensures SortedByRound(r)
    ensures multiset(r) == multiset(rows) + multiset{x}
  {
    if rows == [] then [x]
    else if !KeyLe(rows[0], x) then [x] + rows
    else
      var rest := InsertByRound(x, rows[1..]);
      assert rows == [rows[0]] + rows[1..];
      HeadBelowRest(rows[0], x, rows[1..], rest);
      [rows[0]] + rest
  }

  lemma HeadBelowRest(h: Row, x: Row, tail: seq<Row>, rest: seq<Row>)
    requires KeyLe(h, x) && forall k :: 0 <= k < |tail| ==> KeyLe(h, tail[k])
    requires multiset(rest) == multiset(tail) + multiset{x}
    ensures forall k :: 0 <= k < |rest| ==> KeyLe(h, rest[k])
  {
    forall k | 0 <= k < |rest| ensures KeyLe(h, rest[k]) {
      var e := rest[k];
      assert e in multiset(rest);
      if e != x {
        assert e in multiset(tail);
        assert e in tail;
      }
    }
  }

  /** sort_values(by=['round', 'round_pick']): the rows in non-decreasing key order, a
      permutation of the input. */
  function SortByRound(rows: seq<Row>): (r: seq<Row>)
    ensures SortedByRound(r)
    ensures multiset(r) == multiset(rows)
  {
    if rows == [] then []
    else
      assert rows == rows[..|rows| - 1] + [rows[|rows| - 1]];
      InsertByRound(rows[|rows| - 1], SortByRound(rows[..|rows| - 1]))
  }

}
