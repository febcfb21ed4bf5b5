# Fantasy football draft board: the data pipeline, in Dafny

This project models the part of `myapp.py` that reshapes the league's data into a draft board. It sits between the three HTTP fetches and the Bokeh dashboard. The fetched payloads are given as sequences of records:

- the players list, with each player's stats;
- the draft picks list and the pick order;
- the teams list.

From these the model builds what the script builds:

- **Player records** (`Players`). `get_points` takes the applied average and total from the first stat record whose id is `"002022"`, and gives `(0, 0)` when there is none or when the `stats` key is missing. `position_map` decodes position ids. A player whose `defaultPositionId` is not a key of `position_map` raises the script's KeyError, which the model returns as `None`.
- **Per-position ranks** (`Ranking`, `PositionRanks`). These are pandas' `rank(method='average', ascending=False)` within each position. The model keeps each rank doubled, so a rank of 2.5 is the integer 5. A value's doubled rank is `2 * (#greater) + #equal + 1`, where `#equal` counts the value itself.
- **The draft table** (`Draft`). The player table is inner-joined to the picks on `player_id`, then sorted by `(round, round_pick)`.
- **Position draft numbers** (`PositionDraft`). Each pick is given its ascending average rank by pick number within its position, cast to int.
- **Labels** (`Labels`, `Decimal`). These are the texts `"RB 2"`, `"RB 2.5"` and `"12. Name, RB"`. A D/ST label omits the position. Each label format has a parser that reads the label back.
- **The snake board** (`Board`). The board is 15 rows of up to 14 labels each. Row i holds table rows `14i .. 14i+13`, cut at the end of the table, and is reversed when i is odd. The model builds each row in an array and reverses it in place. Column titles are set from the team pick order, and the script raises a ValueError unless there is exactly one title per column. When the last round is both partial and odd, its reversed labels fill the leftmost columns, because the data frame pads short rows on the right.
- **Teams** (`Teams`). `team_map` maps each team id to `location + " " + nickname`, and a later entry overwrites an earlier one. The column titles are the pick order mapped through it. An unknown team id is `None`, the KeyError.
- **The callback lookup** (`Callback`). `info_map` maps each board label to its row. It is `None` when two rows share a label, because `to_dict(orient='index')` raises in that case. The lookup for cell `(r, c)` returns the four detail texts.
- **The whole run** (`App.Run`). This composes all of the above in the script's order. The run also stops when the fetched players list or the fetched picks list is empty. `pd.DataFrame([])` has no columns, so the `groupby('position')` on the players or the merge `on='player_id'` raises a KeyError.

## Model

| member | source | states |
|---|---|---|
| `Players.PositionOf` | myapp.py:29-36 | decodes exactly the ids 1, 2, 3, 4, 5 and 16, as the inverse of each position's id; any other id gives None (the KeyError) |
| `Players.GetPoints` | myapp.py:18-27 | gives (appliedAverage, appliedTotal) of the first record with id "002022", or (0, 0) when no record has that id |
| `Players.RecordOf` | myapp.py:46-58 | the record appended for a player with a known position id fits it, and no other record does |
| `Players.BuildPlayers` | myapp.py:46-58 | gives one record per fetched player, in order, with its id, name, decoded position and points, where points are (0, 0) without a stats key; gives None exactly when some position id is not in position_map |
| `Ranking.DescRankBounds` | myapp.py:63-64 | within a group of n values, every average rank lies in [1, n] |
| `Ranking.DescRankOrder` | myapp.py:63-64 | highest first: a value ranks strictly better than another exactly when it is strictly greater |
| `Ranking.DescRankIsAverage` | myapp.py:63-64 | the rank is the mean of the ranks #greater+1 .. #greater+#equal spanned by the tied values (method='average') |
| `Ranking.DescRankSum` | myapp.py:63-64 | the ranks of a group of n values sum to n(n+1)/2 |
| `Ranking.DraftOrdinalDistinct` | myapp.py:86 | with distinct pick numbers, the cast ascending rank is 1 + the number of smaller picks |
| `Ranking.DraftOrdinalOrder` | myapp.py:86 | an earlier pick always gets a smaller cast ascending rank, with or without ties |
| `Ranking.DraftOrdinalsPermutation` | myapp.py:86 | with distinct values, the cast ranks of a group of n are a permutation of 1 .. n |
| `PositionRanks.RankPlayers` | myapp.py:63-64 | players_df keeps each player's record and adds both rank columns; each rank lies in [1, n] for the n players of its position, and within a position a rank is better exactly when the points are higher |
| `PositionRanks.RankBounds` | myapp.py:63-64 | each player's avg/total rank lies in [1, n], where n is the number of players at that position |
| `PositionRanks.RankOrder` | myapp.py:63-64 | at one position, more points gives a strictly better rank and conversely, and equal points share one rank |
| `PositionRanks.RankSum` | myapp.py:63-64 | the ranks of the n players at a position sum to n(n+1)/2 |
| `Draft.BuildPicks` | myapp.py:74-78 | gives one draft_df row per fetched pick, in order, holding its playerId, id, roundId and roundPickNumber |
| `Draft.JoinMembership` | myapp.py:82 | for `Join`, the inner merge on player_id: a row is in the inner join exactly when it carries a player's columns and one pick with that player's id |
| `Draft.JoinCarriesDraftedPicks` | myapp.py:82 | for `Join`: with unique player ids, the join carries exactly the picks whose player occurs among the players, each once |
| `Draft.SortByRound` | myapp.py:83 | the sorted table is non-decreasing in (round, round_pick) and is a permutation of the joined rows |
| `PositionDraft.Annotate` | myapp.py:86 | info_df keeps each row and adds position_draft; within a position an earlier pick has a smaller number, and with distinct picks the numbers at a position of n picks lie in 1 .. n |
| `PositionDraft.PositionDraftOrder` | myapp.py:86-87 | within a position, an earlier pick gets a smaller position_draft number and conversely |
| `PositionDraft.PositionDraftPermutation` | myapp.py:86-87 | with distinct pick numbers, the numbers at a position with n picks are a permutation of 1 .. n |
| `Labels.RankText` | myapp.py:88-93 | the rank text ends in ".5" exactly when the rank is a half rank |
| `Labels.RankTextRoundTrip` | myapp.py:88-93 | a rank text ("n" or "n.5") reads back as the rank it was written from |
| `Labels.PositionDraftLabelDecodes` | myapp.py:87 | the position_draft label `PositionDraftLabel` is the position, a space, then a text that reads back as the number |
| `Labels.RankLabelDecodes` | myapp.py:88-93 | a rank label (`RankLabel`) is the position, a space, then a text that reads back as the rank |
| `Labels.BoardLabelPick` | myapp.py:94-96 | a board label, with or without the position suffix, starts with the decimal text of its pick number followed by ". ", and reads back as that pick number |
| `Labels.BoardLabelParts` | myapp.py:94-96 | after "<pick>. " a board label (`BoardLabel`) holds the name, then ", POS" for every position but D/ST, and nothing else |
| `Labels.BoardLabelsDistinct` | myapp.py:94-98 | board labels of different picks differ, whatever the names and positions |
| `Callback.InfoMap` | myapp.py:98 | maps each board label to its row and holds no other keys; it is None exactly when two rows share a label |
| `Callback.DistinctPicksMakeUniqueLabels` | myapp.py:94-98 | rows with distinct pick numbers always give a buildable info_map |
| `Board.ReverseInPlace` | myapp.py:108-109 | the list is reversed in place |
| `Board.BuildBoard` | myapp.py:101-111 | the loop builds, for each of the 15 rounds, round i's slice reversed when i is odd |
| `Board.BoardCell` | myapp.py:104-111 | cell (i, j) shows table row 14i+j when i is even and 14i+len-1-j when i is odd, always within round i's range |
| `Board.FullRound` | myapp.py:104-111 | a full round shows row 14i+j at column j when i is even, and row 14i+13-j when i is odd |
| `Board.CellOfIndex` | myapp.py:104-111 | each of the first 210 table rows is shown at one cell, which maps back to that row |
| `Board.BoardHoldsEachPickOnce` | myapp.py:101-111 | the board's cells hold the labels of the first 210 table rows, each as often as in the table, and nothing else |
| `Board.FullBoardWidth` | myapp.py:122 | once the table has a full first round, the board has 14 columns |
| `Board.Frame` | myapp.py:122-123 | the titles are set exactly when there is one per column, and otherwise it is None (the ValueError) |
| `Teams.BuildTeamMap` | myapp.py:116-118 | the keys are the team ids, and each id maps to "location nickname" of the last team with that id |
| `Teams.ColumnTitles` | myapp.py:120 | gives one title per pick-order entry, team_map of that entry; it is None exactly when an entry is not a team id |
| `Callback.DetailsOfDecodes` | myapp.py:172-177 | `DetailsOf` shows the row's name, "Pick " and a number that reads back as the pick, then ", " and the position_draft label, and two rank labels whose texts read back as the row's ranks |
| `Callback.CellFound` | myapp.py:170-177 | on the dashboard's own board and map, `CellDetails` finds details exactly for a filled cell; off the grid or on a padded cell it gives None (the IndexError or KeyError) |
| `Callback.CellShowsItsPick` | myapp.py:170-177 | clicking any filled cell shows the name, "Pick p, POS k" and the two rank labels of the pick displayed in that cell |
| `App.Run` | myapp.py:46-123 | the run succeeds exactly when both fetched lists are non-empty, every position id is known, the board labels are unique, every pick-order entry is a team id, and there is one title per board column; then the table is the annotated, sorted join of the players' and picks' records, the map and board are built from it, column c is the name of the last team with id pickOrder[c], the table is sorted, the board has 15 rows, and every filled cell resolves to the pick it shows |

## Left out

- The three HTTP requests, the league id, the year and the cookies are not modelled. This is network I/O, so the fetched lists are parameters.
- The Bokeh widgets, `ColumnDataSource`, `DataTable`, `curdoc` and the embedded JavaScript that finds the active cell are not modelled. These are UI and browser event wiring. The clicked row and column are parameters of `CellDetails`, given as naturals. Parsing `cell_row.value` and `cell_col.value` as text, negative `iat` indices and `source.selected.update` are out.
- Points are integers, not floats. They are only ever compared, so NaN and float rounding are out. Ranks are doubled integers rather than floats passed through `astype(str).str[-1] == '5'` and `round(0)`. The model states the intended result directly: "n" for a whole rank and "n.5" for a half rank.
- Missing JSON keys other than `stats` are not modelled, for example a player without `fullName` or a stat record without `appliedTotal`. Each record type holds exactly the keys the script reads.
- The pre-sort order of the merge is not modelled faithfully. `Draft.Join` lists players in order, and for each player its picks in order. That matches pandas only for rows whose sort keys differ. `Draft.SortByRound` promises sortedness and a permutation, not which of two rows with equal (round, round_pick) comes first.
- Pandas padding of short board rows with `None` is not modelled. A padded cell is simply absent from its row, and looking it up gives None, as the KeyError on `info_map[None]` would.
- Commented-out code is not modelled.
