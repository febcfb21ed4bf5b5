/** The lookup behind the selection callback: info_map, keyed by board label,
    and the four detail texts py_callback fills in for a clicked cell. */
module Callback {
  import opened Options
  import opened Decimal
  import opened Players
  import opened Draft
  import opened PositionDraft
  import opened Labels
  import opened Board

  /** The draft_board label of a row of info_df. */
  function LabelOf(info: Info): string {
    BoardLabel(info.row.pick, info.row.name, info.row.position)
  }

  /** The draft_board column of info_df. */
  function BoardLabels(infos: seq<Info>): (r: seq<string>)
    ensures |r| == |infos|
  {
    seq(|infos|, i requires 0 <= i < |infos| => LabelOf(infos[i]))
  }

  predicate LabelsUnique(infos: seq<Info>) {
    forall i, j :: 0 <= i < j < |infos| ==> LabelOf(infos[i]) != LabelOf(infos[j])
  }

  /** info_df.set_index('draft_board').to_dict(orient='index'): each board label mapped to
      its row, or None (the ValueError) when two rows share a label. */
  function InfoMap(infos: seq<Info>): (r: Option<map<string, Info>>)
    ensures r.Some? <==> LabelsUnique(infos)
    ensures r.Some? ==> forall i :: 0 <= i < |infos| ==>
              LabelOf(infos[i]) in r.value && r.value[LabelOf(infos[i])] == infos[i]
    ensures r.Some? ==> forall key :: key in r.value ==>
              exists i :: 0 <= i < |infos| && LabelOf(infos[i]) == key
  {
    if LabelsUnique(infos) then
      var labels := BoardLabels(infos);
      assert forall i :: 0 <= i < |infos| ==> labels[i] == LabelOf(infos[i]);
      Some(IndexBy(labels, infos))
    else None
  }

  /** The map from keys[i] to rows[i], for keys without repeats. */
  function IndexBy(keys: seq<string>, rows: seq<Info>): (m: map<string, Info>)
    requires |keys| == |rows|
    requires forall i, j :: 0 <= i < j < |keys| ==> keys[i] != keys[j]
    ensures forall i :: 0 <= i < |keys| ==> keys[i] in m && m[keys[i]] == rows[i]
    ensures forall key :: key in m ==> exists i :: 0 <= i < |keys| && keys[i] == key
  {
    if keys == [] then map[]
    else
      var n := |keys| - 1;
      var m := IndexBy(keys[..n], rows[..n]);
      assert forall i :: 0 <= i < n ==> keys[..n][i] == keys[i] && rows[..n][i] == rows[i];
      m[keys[n] := rows[n]]
  }

  /** Rows with distinct pick numbers have unique board labels, so info_map can be built. */
  lemma DistinctPicksMakeUniqueLabels(rows: seq<Row>)
    requires DistinctPicks(rows)
    ensures LabelsUnique(Annotate(rows))
    ensures InfoMap(Annotate(rows)).Some?
  {
    var infos := Annotate(rows);
    forall i, j | 0 <= i < j < |infos| ensures LabelOf(infos[i]) != LabelOf(infos[j]) {
      BoardLabelsDistinct(rows[i].pick, rows[i].name, rows[i].position,
                          rows[j].pick, rows[j].name, rows[j].position);
    }
  }

  /** The four detail fields: Player, Drafted, Average PPG Rank and Total PPG Rank. */
  datatype Details = Details(name: string, drafted: string, avgRank: string, totalRank: string)

  /** The texts py_callback shows for one row of info_df. */
  function DetailsOf(info: Info): Details {
    var row := info.row;
    Details(row.name,
            "Pick " + IntText(row.pick) + ", " + PositionDraftLabel(row.position, info.positionDraft),
            RankLabel(row.position, row.avgRank2),
            RankLabel(row.position, row.totalRank2))
  }

  /** The detail texts read back as the row they were written from: the name, "Pick " and
      the pick number followed by ", " and the position_draft label, and the two rank labels. */
  lemma DetailsOfDecodes(info: Info)
    ensures DetailsOf(info).name == info.row.name
    ensures var drafted, pt := DetailsOf(info).drafted, IntText(info.row.pick);
            && |drafted| >= |pt| + 7
            && drafted[..5] == "Pick "
            && ParseInt(drafted[5..5 + |pt|]) == info.row.pick
            && drafted[5 + |pt|..] == ", " + PositionDraftLabel(info.row.position, info.positionDraft)
    ensures var n := |PositionName(info.row.position)| + 1;
            && ParseRankText(DetailsOf(info).avgRank[n..]) == info.row.avgRank2
            && ParseRankText(DetailsOf(info).totalRank[n..]) == info.row.totalRank2
  {
    var row := info.row;
    var pt := IntText(row.pick);
    var tail := ", " + PositionDraftLabel(row.position, info.positionDraft);
    var drafted := DetailsOf(info).drafted;
    assert drafted == "Pick " + pt + tail;
    assert drafted[5..5 + |pt|] == pt;
    IntTextRoundTrip(row.pick);
    RankLabelDecodes(row.position, row.avgRank2);
    RankLabelDecodes(row.position, row.totalRank2);
  }

  /** py_callback for the cell (r, c): None when the cell is off the grid (the IndexError
      of iat) or empty in a short last round (the KeyError of info_map). */
  function CellDetails(board: DraftBoard, info: map<string, Info>, r: nat, c: nat): Option<Details> {
    if r < |board.rows| && c < |board.rows[r]| && board.rows[r][c] in info
    then Some(DetailsOf(info[board.rows[r][c]]))
    else None
  }

  /** A click on any filled cell of the board shows the details of exactly the pick displayed
      there: table row CellIndex(r, c, len). */
  lemma CellShowsItsPick(infos: seq<Info>, board: DraftBoard, r: nat, c: nat)
    requires LabelsUnique(infos)
    requires board.rows == BoardRows(BoardLabels(infos))
    requires r < |board.rows| && c < |board.rows[r]|
    ensures 0 <= CellIndex(r, c, |board.rows[r]|) < |infos|
    ensures CellDetails(board, InfoMap(infos).value, r, c)
            == Some(DetailsOf(infos[CellIndex(r, c, |board.rows[r]|)]))
  {
    BoardCell(BoardLabels(infos), r, c);
  }

  /** On the dashboard's own board and map, a click finds details exactly when it is on a
      filled cell; off the grid, or on a padded cell of a short last round, it finds none. */
  lemma CellFound(infos: seq<Info>, board: DraftBoard, r: nat, c: nat)
    requires LabelsUnique(infos)
    requires board.rows == BoardRows(BoardLabels(infos))
    ensures CellDetails(board, InfoMap(infos).value, r, c).Some? <==> r < |board.rows| && c < |board.rows[r]|
  {
    if r < |board.rows| && c < |board.rows[r]| {
      CellShowsItsPick(infos, board, r, c);
    }
  }

}
