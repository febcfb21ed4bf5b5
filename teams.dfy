/** Team names and the column titles of the board (team_map and pick_order_parsed). */
module Teams {
  import opened Options

  /** One element of the fetched 'teams' list (the keys the script reads). */
  datatype Team = Team(id: int, location: string, nickname: string)

  /** f'{location} {nickname}' */
  function TeamName(t: Team): string {
    t.location + " " + t.nickname
  }

  /** Team i is the last of teams[..n] with its id, so its name is the one left in the map. */
  predicate LastBefore(teams: seq<Team>, i: int, n: int) {
    0 <= i < n <= |teams| && forall j :: i < j < n ==> teams[j].id != teams[i].id
  }

  /** The loop that fills team_map: the ids of all teams, each mapped to the name of
      the last team with that id (a later entry overwrites an earlier one). */
  method BuildTeamMap(teams: seq<Team>) returns (m: map<int, string>)
    ensures m.Keys == set t | t in teams :: t.id
    ensures forall i :: LastBefore(teams, i, |teams|) ==> m[teams[i].id] == TeamName(teams[i])
  {
    m := map[];
    for n := 0 to |teams|
      invariant m.Keys == set t | t in teams[..n] :: t.id
      invariant forall i :: LastBefore(teams, i, n) ==> m[teams[i].id] == TeamName(teams[i])
    {
      assert teams[..n + 1] == teams[..n] + [teams[n]];
      m := m[teams[n].id := TeamName(teams[n])];
      forall i | LastBefore(teams, i, n + 1)
        ensures m[teams[i].id] == TeamName(teams[i])
      {
        if i < n {
          assert LastBefore(teams, i, n);
        }
      }
    }
    assert teams[..|teams|] == teams;
  }

  /** [team_map[pick] for pick in pick_order]: one title per entry of the pick order, or
      None (the KeyError) when some entry is not a known team id. */
  function ColumnTitles(m: map<int, string>, order: seq<int>): (r: Option<seq<string>>)
    ensures r.Some? <==> forall i :: 0 <= i < |order| ==> order[i] in m
    ensures r.Some? ==> |r.value| == |order| && forall i :: 0 <= i < |order| ==> r.value[i] == m[order[i]]
  {
    if order == [] then Some([])
    else
      var front := order[..|order| - 1];
      match ColumnTitles(m, front)
      case None => None
      case Some(titles) =>
        if order[|order| - 1] in m then Some(titles + [m[order[|order| - 1]]]) else None
  }

}
