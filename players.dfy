/** Player records: the stat extraction of get_points, the position_map
    decoding and the loop that turns the fetched player list into records. */
module Players {
  import opened Options

  datatype Position = QB | RB | WR | TE | K | DST

  /** The ESPN defaultPositionId of each position (the keys of position_map). */
  function PositionId(p: Position): int {
    match p
    case QB => 1
    case RB => 2
    case WR => 3
    case TE => 4
    case K => 5
    case DST => 16
  }

  /** The text of each position (the values of position_map). */
  function PositionName(p: Position): string {
    match p
    case QB => "QB"
    case RB => "RB"
    case WR => "WR"
    case TE => "TE"
    case K => "K"
    case DST => "D/ST"
  }

  /** position_map[id]: None is the KeyError raised for any id outside the table. */
  function PositionOf(id: int): (r: Option<Position>)
    ensures forall p :: r == Some(p) <==> PositionId(p) == id
    ensures r.None? <==> id !in {1, 2, 3, 4, 5, 16}
  {
    if id == 1 then Some(QB)
    else if id == 2 then Some(RB)
    else if id == 3 then Some(WR)
    else if id == 4 then Some(TE)
    else if id == 5 then Some(K)
    else if id == 16 then Some(DST)
    else None
  }

  /** One element of a player's 'stats' list; points are kept as integers. */
  datatype StatEntry = StatEntry(id: string, appliedAverage: int, appliedTotal: int)

  /** The id of the current season's stat record. */
  const SeasonStatId: string := "002022"

  /** Index i holds the first current-season record of stats. */
  predicate IsFirstSeasonEntry(stats: seq<StatEntry>, i: int) {
    0 <= i < |stats| && stats[i].id == SeasonStatId
    && forall j :: 0 <= j < i ==> stats[j].id != SeasonStatId
  }

  /** get_points: (average, total) of the first current-season record, (0, 0) when there is none. */
  function GetPoints(stats: seq<StatEntry>): (r: (int, int))
    ensures (forall i :: 0 <= i < |stats| ==> stats[i].id != SeasonStatId) ==> r == (0, 0)
    ensures forall i :: IsFirstSeasonEntry(stats, i) ==>
              r == (stats[i].appliedAverage, stats[i].appliedTotal)
  {
    if stats == [] then (0, 0)
    else if stats[0].id == SeasonStatId then (stats[0].appliedAverage, stats[0].appliedTotal)
    else
      var rest := GetPoints(stats[1..]);
      assert forall i :: 1 <= i < |stats| && IsFirstSeasonEntry(stats, i) ==> IsFirstSeasonEntry(stats[1..], i - 1);
      rest
  }

  /** One element of the fetched 'players' list; stats is None when the 'stats' key is absent. */
  datatype RawPlayer = RawPlayer(id: int, fullName: string, defaultPositionId: int,
                                 stats: Option<seq<StatEntry>>)

  datatype Player = Player(playerId: int, name: string, position: Position, avgPts: int, totalPts: int)

  /** The points of a fetched player: get_points of its stats, (0, 0) without a 'stats' key. */
  function PointsOf(raw: RawPlayer): (int, int) {
    match raw.stats
    case None => (0, 0)
    case Some(s) => GetPoints(s)
  }

  /** The record the loop appends for raw, given its decoded position. */
  predicate IsRecordOf(p: Player, raw: RawPlayer) {
    && p.playerId == raw.id
    && p.name == raw.fullName
    && PositionOf(raw.defaultPositionId) == Some(p.position)
    && (p.avgPts, p.totalPts) == PointsOf(raw)
  }

  /** Every fetched player has a position id that position_map knows. */
  predicate PositionsKnown(raw: seq<RawPlayer>) {
    forall i :: 0 <= i < |raw| ==> PositionOf(raw[i].defaultPositionId).Some?
  }

  /** The record of a fetched player whose position id is known; no other record fits. */
  function RecordOf(raw: RawPlayer): (p: Player)
    requires PositionOf(raw.defaultPositionId).Some?
    ensures IsRecordOf(p, raw)
    ensures forall q :: IsRecordOf(q, raw) ==> q == p
  {
    var (avg, total) := PointsOf(raw);
    Player(raw.id, raw.fullName, PositionOf(raw.defaultPositionId).value, avg, total)
  }

  /** The players list the loop builds when every position id is known. */
  function Records(raw: seq<RawPlayer>): (r: seq<Player>)
    requires PositionsKnown(raw)
    ensures |r| == |raw| && forall i :: 0 <= i < |raw| ==> IsRecordOf(r[i], raw[i])
  {
    seq(|raw|, i requires 0 <= i < |raw| && PositionsKnown(raw) => RecordOf(raw[i]))
  }

  /** The players.append loop: one record per fetched player, in order, or None
      (the KeyError) as soon as a player has a position id outside position_map. */
  method BuildPlayers(raw: seq<RawPlayer>) returns (r: Option<seq<Player>>)
    ensures r.None? <==> exists i :: 0 <= i < |raw| && PositionOf(raw[i].defaultPositionId).None?
    ensures r.Some? ==> |r.value| == |raw| && forall i :: 0 <= i < |raw| ==> IsRecordOf(r.value[i], raw[i])
    ensures r.Some? ==> PositionsKnown(raw) && r.value == Records(raw)
  {
    var players: seq<Player> := [];
    for i := 0 to |raw|
      invariant |players| == i
      invariant forall k :: 0 <= k < i ==> IsRecordOf(players[k], raw[k])
    {
      var pos := PositionOf(raw[i].defaultPositionId);
      if pos.None? {
        return None;
      }
      var (avg, total) := PointsOf(raw[i]);
      players := players + [Player(raw[i].id, raw[i].fullName, pos.value, avg, total)];
    }
    assert PositionsKnown(raw);
    assert forall k :: 0 <= k < |raw| ==> players[k] == Records(raw)[k];
    r := Some(players);
  }

}
