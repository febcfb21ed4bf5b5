/** The script from the three fetched payloads to the dashboard: records, ranks,
    join and sort, labels, info_map, snake board and column titles. */
module App {
  import opened Options
  import opened Players
  import opened PositionRanks
  import opened Draft
  import opened PositionDraft
  import opened Board
  import opened Teams
  import opened Callback

  /** What the script leaves for the callback: info_df, info_map and the titled board. */
  datatype Dashboard = Dashboard(table: seq<Info>, info: map<string, Info>, board: DraftBoard)

  /** info_df at the end of its column assignments, from the players and draft_df lists. */
  function Table(players: seq<Player>, picks: seq<DraftPick>): seq<Info> {
    Annotate(SortByRound(Join(RankPlayers(players), picks)))
  }

  /** Every entry of the pick order is the id of some fetched team. */
  predicate TeamsKnown(pickOrder: seq<int>, teams: seq<Team>) {
    forall c :: 0 <= c < |pickOrder| ==> exists t :: t in teams && t.id == pickOrder[c]
  }

  /** The conditions under which the script reaches the dashboard without an exception:
      both fetched lists are non-empty (pd.DataFrame([]) has no 'position' or 'player_id'
      column to group or merge on), every position id is known, the board labels are unique
      keys, every pick-order entry is a team id, and there is one title per board column. */
  predicate Succeeds(rawPlayers: seq<RawPlayer>, rawPicks: seq<RawPick>, pickOrder: seq<int>, teams: seq<Team>) {
    && rawPlayers != [] && rawPicks != []
    && PositionsKnown(rawPlayers)
    && LabelsUnique(Table(Records(rawPlayers), PickRows(rawPicks)))
    && TeamsKnown(pickOrder, teams)
    && |pickOrder| == Width(BoardRows(BoardLabels(Table(Records(rawPlayers), PickRows(rawPicks)))))
  }

  /** The whole transformation, given the fetched player list, pick list, pick order and team
      list. None is the exception that stops the script before the dashboard is shown. */
  method Run(rawPlayers: seq<RawPlayer>, rawPicks: seq<RawPick>, pickOrder: seq<int>, teams: seq<Team>)
    returns (app: Option<Dashboard>)
    ensures app.Some? <==> Succeeds(rawPlayers, rawPicks, pickOrder, teams)
    ensures app.Some? ==>
              && PositionsKnown(rawPlayers)
              && app.value.table == Table(Records(rawPlayers), PickRows(rawPicks))
              && app.value.info == InfoMap(app.value.table).value
              && app.value.board.rows == BoardRows(BoardLabels(app.value.table))
    ensures app.Some? ==> |app.value.board.columns| == |pickOrder|
    ensures app.Some? ==>
              forall c, i :: 0 <= c < |pickOrder| && LastBefore(teams, i, |teams|) && teams[i].id == pickOrder[c] ==>
                app.value.board.columns[c] == TeamName(teams[i])
    ensures app.Some? ==> forall i, j :: 0 <= i < j < |app.value.table| ==>
              KeyLe(app.value.table[i].row, app.value.table[j].row)
    ensures app.Some? ==> |app.value.board.rows| == Rounds
    ensures app.Some? ==> forall r, c :: 0 <= r < |app.value.board.rows| && 0 <= c < |app.value.board.rows[r]| ==>
              && 0 <= CellIndex(r, c, |app.value.board.rows[r]|) < |app.value.table|
              && CellDetails(app.value.board, app.value.info, r, c)
                 == Some(DetailsOf(app.value.table[CellIndex(r, c, |app.value.board.rows[r]|)]))
  {
    var players := BuildPlayers(rawPlayers);
    if players.None? {
      return None;
    }
    if rawPlayers == [] || rawPicks == [] {
      return None;
    }
    var ranked := RankPlayers(players.value);
    var picks := BuildPicks(rawPicks);
    var rows := SortByRound(Join(ranked, picks));
    var table := Annotate(rows);
    assert table == Table(Records(rawPlayers), PickRows(rawPicks));
    var info := InfoMap(table);
    if info.None? {
      return None;
    }
    var grid := BuildBoard(BoardLabels(table));
    var teamMap := BuildTeamMap(teams);
    var titles := ColumnTitles(teamMap, pickOrder);
    assert titles.Some? <==> TeamsKnown(pickOrder, teams) by {
      assert forall c :: 0 <= c < |pickOrder| ==>
               (pickOrder[c] in teamMap <==> exists t :: t in teams && t.id == pickOrder[c]);
    }
    if titles.None? {
      return None;
    }
    var board := Frame(grid, titles.value);
    if board.None? {
      return None;
    }
    forall r: nat, c: nat | r < |board.value.rows| && c < |board.value.rows[r]|
      ensures 0 <= CellIndex(r, c, |board.value.rows[r]|) < |table|
      ensures CellDetails(board.value, info.value, r, c)
              == Some(DetailsOf(table[CellIndex(r, c, |board.value.rows[r]|)]))
    {
      CellShowsItsPick(table, board.value, r, c);
    }
    app := Some(Dashboard(table, info.value, board.value));
  }

}
