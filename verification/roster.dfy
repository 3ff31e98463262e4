/** The roster store of contexts/TeamsContext.tsx: every mutator computes a
    new team sequence from the current one, the lookups search it, and
    `getAllMatches` derives the ordered list of all fixtures. A fresh id,
    which the source takes from `Date.now()`, is a parameter here; the
    date parser behind the match ordering is a parameter too. */
module Roster {
  import opened Wrappers
  import opened Types
  import opened Patches
  import opened Keyed
  import Sorting

  function TeamId(t: Team): string { t.id }
  function AthleteId(a: Athlete): string { a.id }
  function MatchId(m: Match): string { m.id }

  // ------------------------------------------------- per-team edits

  function PushAthlete(t: Team, a: Athlete): Team
  {
    t.(athletes := t.athletes + [a])
  }

  function EditAthletes(t: Team, edit: (string, AthletePatch)): Team
  {
    t.(athletes := UpdateWhere(t.athletes, AthleteId, edit.0, MergeAthlete, edit.1))
  }

  function DropAthletes(t: Team, athleteId: string): (r: Team)
    ensures multiset(r.athletes) <= multiset(t.athletes)
  {
    RemoveWhereKeepsOthers(t.athletes, AthleteId, athleteId);
    t.(athletes := RemoveWhere(t.athletes, AthleteId, athleteId))
  }

  function PushMatch(t: Team, m: Match): Team
  {
    t.(matches := t.matches + [m])
  }

  function EditMatches(t: Team, edit: (string, MatchPatch)): Team
  {
    t.(matches := UpdateWhere(t.matches, MatchId, edit.0, MergeMatch, edit.1))
  }

  function DropMatches(t: Team, matchId: string): (r: Team)
    ensures multiset(r.matches) <= multiset(t.matches)
  {
    RemoveWhereKeepsOthers(t.matches, MatchId, matchId);
    t.(matches := RemoveWhere(t.matches, MatchId, matchId))
  }

  // ------------------------------------------------------ mutators

  /** `addTeam`: a new team with no athletes and no matches goes last. */
  function AddTeam(teams: seq<Team>, freshId: string, name: string): (r: seq<Team>)
    ensures |r| == |teams| + 1
    ensures r[..|teams|] == teams
    ensures r[|teams|].id == freshId && r[|teams|].name == name
    ensures r[|teams|].athletes == [] && r[|teams|].matches == []
  {
    teams + [Team(freshId, name, [], [])]
  }

  /** `updateTeam`: every team with the id is spread with the patch. */
  function UpdateTeam(teams: seq<Team>, teamId: string, p: TeamPatch): (r: seq<Team>)
    ensures |r| == |teams|
    ensures forall i :: 0 <= i < |teams| && teams[i].id != teamId ==> r[i] == teams[i]
    ensures forall i :: 0 <= i < |teams| && teams[i].id == teamId ==> r[i] == MergeTeam(teams[i], p)
  {
    UpdateWhere(teams, TeamId, teamId, MergeTeam, p)
  }

  /** `deleteTeam`: drops every team with the id, and with it that team's
      athletes and matches. */
  function DeleteTeam(teams: seq<Team>, teamId: string): (r: seq<Team>)
    ensures |r| == |teams| - Count(teams, TeamId, teamId)
    ensures forall i :: 0 <= i < |r| ==> r[i].id != teamId
    ensures multiset(r) <= multiset(teams)
    ensures forall i :: 0 <= i < |teams| && teams[i].id != teamId ==> multiset(r)[teams[i]] == multiset(teams)[teams[i]]
  {
    RemoveWhereKeepsOthers(teams, TeamId, teamId);
    RemoveWhere(teams, TeamId, teamId)
  }

  /** `addAthlete`: the athlete, under the fresh id, joins the end of the
      roster of every team with the id. */
  function AddAthlete(teams: seq<Team>, teamId: string, freshId: string, athlete: Athlete): (r: seq<Team>)
    ensures |r| == |teams|
    ensures forall i :: 0 <= i < |teams| && teams[i].id != teamId ==> r[i] == teams[i]
    ensures forall i :: 0 <= i < |teams| && teams[i].id == teamId ==>
              r[i].(athletes := []) == teams[i].(athletes := []) &&
              r[i].athletes == teams[i].athletes + [athlete.(id := freshId)]
  {
    UpdateWhere(teams, TeamId, teamId, PushAthlete, athlete.(id := freshId))
  }

  /** `updateAthlete`: inside the teams with the id, every athlete with the
      athlete id is spread with the patch. */
  function UpdateAthlete(teams: seq<Team>, teamId: string, athleteId: string, p: AthletePatch): (r: seq<Team>)
    ensures |r| == |teams|
    ensures forall i :: 0 <= i < |teams| && teams[i].id != teamId ==> r[i] == teams[i]
    ensures forall i :: 0 <= i < |teams| && teams[i].id == teamId ==>
              r[i].(athletes := []) == teams[i].(athletes := []) &&
              |r[i].athletes| == |teams[i].athletes| &&
              (forall j :: 0 <= j < |teams[i].athletes| ==>
                 r[i].athletes[j] == if teams[i].athletes[j].id == athleteId
                                     then MergeAthlete(teams[i].athletes[j], p)
                                     else teams[i].athletes[j])
  {
    UpdateWhere(teams, TeamId, teamId, EditAthletes, (athleteId, p))
  }

  /** `deleteAthlete`: inside the teams with the id, the athletes with the
      athlete id are dropped. */
  function DeleteAthlete(teams: seq<Team>, teamId: string, athleteId: string): (r: seq<Team>)
    ensures |r| == |teams|
    ensures forall i :: 0 <= i < |teams| && teams[i].id != teamId ==> r[i] == teams[i]
    ensures forall i :: 0 <= i < |teams| && teams[i].id == teamId ==>
              r[i].(athletes := []) == teams[i].(athletes := []) &&
              |r[i].athletes| == |teams[i].athletes| - Count(teams[i].athletes, AthleteId, athleteId) &&
              (forall j :: 0 <= j < |r[i].athletes| ==> r[i].athletes[j].id != athleteId) &&
              multiset(r[i].athletes) <= multiset(teams[i].athletes) &&
              r[i].athletes == RemoveWhere(teams[i].athletes, AthleteId, athleteId)
  {
    UpdateWhere(teams, TeamId, teamId, DropAthletes, athleteId)
  }

  /** `addMatch`: the match, under the fresh id and stamped with the team
      id, joins the end of the fixtures of every team with the id. */
  function AddMatch(teams: seq<Team>, teamId: string, freshId: string, m: Match): (r: seq<Team>)
    ensures |r| == |teams|
    ensures forall i :: 0 <= i < |teams| && teams[i].id != teamId ==> r[i] == teams[i]
    ensures forall i :: 0 <= i < |teams| && teams[i].id == teamId ==>
              r[i].(matches := []) == teams[i].(matches := []) &&
              r[i].matches == teams[i].matches + [m.(id := freshId, teamId := teamId)]
  {
    UpdateWhere(teams, TeamId, teamId, PushMatch, m.(id := freshId, teamId := teamId))
  }

  /** `updateMatch`: inside the teams with the id, every match with the
      match id is spread with the patch. */
  function UpdateMatch(teams: seq<Team>, teamId: string, matchId: string, p: MatchPatch): (r: seq<Team>)
    ensures |r| == |teams|
    ensures forall i :: 0 <= i < |teams| && teams[i].id != teamId ==> r[i] == teams[i]
    ensures forall i :: 0 <= i < |teams| && teams[i].id == teamId ==>
              r[i].(matches := []) == teams[i].(matches := []) &&
              |r[i].matches| == |teams[i].matches| &&
              (forall j :: 0 <= j < |teams[i].matches| ==>
                 r[i].matches[j] == if teams[i].matches[j].id == matchId
                                    then MergeMatch(teams[i].matches[j], p)
                                    else teams[i].matches[j])
  {
    UpdateWhere(teams, TeamId, teamId, EditMatches, (matchId, p))
  }

  /** `deleteMatch`: inside the teams with the id, the matches with the
      match id are dropped. */
  function DeleteMatch(teams: seq<Team>, teamId: string, matchId: string): (r: seq<Team>)
    ensures |r| == |teams|
    ensures forall i :: 0 <= i < |teams| && teams[i].id != teamId ==> r[i] == teams[i]
    ensures forall i :: 0 <= i < |teams| && teams[i].id == teamId ==>
              r[i].(matches := []) == teams[i].(matches := []) &&
              |r[i].matches| == |teams[i].matches| - Count(teams[i].matches, MatchId, matchId) &&
              (forall j :: 0 <= j < |r[i].matches| ==> r[i].matches[j].id != matchId) &&
              multiset(r[i].matches) <= multiset(teams[i].matches) &&
              r[i].matches == RemoveWhere(teams[i].matches, MatchId, matchId)
  {
    UpdateWhere(teams, TeamId, teamId, DropMatches, matchId)
  }

  // ------------------------------------------------------- lookups

  /** `getTeam`: the first team with the id. */
  function GetTeam(teams: seq<Team>, teamId: string): (r: Option<Team>)
    ensures r.None? <==> forall i :: 0 <= i < |teams| ==> teams[i].id != teamId
    ensures r.Some? ==> exists i :: 0 <= i < |teams| && teams[i] == r.value && teams[i].id == teamId
                                 && forall j :: 0 <= j < i ==> teams[j].id != teamId
  {
    Find(teams, TeamId, teamId)
  }

  /** `getAthlete`: the first athlete with the athlete id in the first team
      with the team id; a later team that shares the id is not searched. */
  function GetAthlete(teams: seq<Team>, teamId: string, athleteId: string): (r: Option<Athlete>)
    ensures GetTeam(teams, teamId).None? ==> r.None?
    ensures r.Some? ==> r.value.id == athleteId && r.value in GetTeam(teams, teamId).value.athletes
    ensures GetTeam(teams, teamId).Some? && r.None? ==>
              forall j :: 0 <= j < |GetTeam(teams, teamId).value.athletes| ==>
                GetTeam(teams, teamId).value.athletes[j].id != athleteId
    ensures r.Some? ==>
              var roster := GetTeam(teams, teamId).value.athletes;
              exists j :: 0 <= j < |roster| && roster[j] == r.value
                          && forall j' :: 0 <= j' < j ==> roster[j'].id != athleteId
  {
    match GetTeam(teams, teamId)
    case None => None
    case Some(t) => Find(t.athletes, AthleteId, athleteId)
  }

  // --------------------------------------------------- all matches

  /** Every team's fixtures, team by team, as `flatMap` lists them. */
  function Flatten(teams: seq<Team>): (r: seq<Match>)
    ensures forall m :: m in r <==> exists i :: 0 <= i < |teams| && m in teams[i].matches
  {
    if |teams| == 0 then []
    else
      var rest := Flatten(teams[1..]);
      assert forall i :: 1 <= i < |teams| ==> teams[i] == teams[1..][i - 1];
      teams[0].matches + rest
  }

  /** The sort key of a match: the timestamp of its date and time joined
      by a space. */
  function MatchKey(parse: string -> int): Match -> int
  {
    (m: Match) => parse(m.date + " " + m.time)
  }

  /** `getAllMatches`: all fixtures, ordered by date and time, those at the
      same moment in the order `flatMap` lists them. */
  function AllMatches(teams: seq<Team>, parse: string -> int): (r: seq<Match>)
    ensures Sorting.Sorted(r, MatchKey(parse))
    ensures multiset(r) == multiset(Flatten(teams))
    ensures forall v :: Sorting.WithKey(r, MatchKey(parse), v) == Sorting.WithKey(Flatten(teams), MatchKey(parse), v)
  {
    Sorting.Sort(Flatten(teams), MatchKey(parse))
  }

  // ------------------------------------------------------------ invariant

  /** Every match carries the id of the team that holds it. */
  ghost predicate MatchesOwned(teams: seq<Team>)
  {
    forall i, j :: 0 <= i < |teams| && 0 <= j < |teams[i].matches| ==> teams[i].matches[j].teamId == teams[i].id
  }

  // --------------------------------------------------------------- lemmas

  /** A team added under an id no team has is what `getTeam` then finds
      for that id: named as asked, with no athletes and no matches; every
      other id finds what it found before. */
  lemma AddTeamThenGetTeam(teams: seq<Team>, freshId: string, name: string, k: string)
    requires Count(teams, TeamId, freshId) == 0
    ensures GetTeam(AddTeam(teams, freshId, name), freshId) == Some(Team(freshId, name, [], []))
    ensures k != freshId ==> GetTeam(AddTeam(teams, freshId, name), k) == GetTeam(teams, k)
  {
    FindAppendFresh(teams, TeamId, Team(freshId, name, [], []));
    if k != freshId {
      FindAppendOther(teams, TeamId, Team(freshId, name, [], []), k);
    }
  }

  /** Deleting a team that was just added under a fresh id gives back the
      collection as it was, order included. */
  lemma DeleteTeamUndoesAddTeam(teams: seq<Team>, freshId: string, name: string)
    requires Count(teams, TeamId, freshId) == 0
    ensures DeleteTeam(AddTeam(teams, freshId, name), freshId) == teams
  {
    RemoveWhereAppend(teams, [Team(freshId, name, [], [])], TeamId, freshId);
    RemoveWhereNothing(teams, TeamId, freshId);
  }

  /** Once `updateTeam` has run with a patch that keeps the id, `getTeam`
      returns the old team spread with the patch. */
  lemma UpdateTeamThenGetTeam(teams: seq<Team>, teamId: string, p: TeamPatch)
    requires GetTeam(teams, teamId).Some?
    requires p.id.None?
    ensures GetTeam(UpdateTeam(teams, teamId, p), teamId) == Some(MergeTeam(GetTeam(teams, teamId).value, p))
  {
    FindAfterUpdate(teams, TeamId, teamId, MergeTeam, p, teamId);
  }

  /** After `deleteTeam` no team answers to the id. */
  lemma DeleteTeamThenGetTeam(teams: seq<Team>, teamId: string)
    ensures GetTeam(DeleteTeam(teams, teamId), teamId).None?
  {
  }

  /** `deleteTeam` keeps the surviving teams in their order: deleting from
      a concatenation deletes from each part. */
  lemma DeleteTeamKeepsOrder(front: seq<Team>, back: seq<Team>, teamId: string)
    ensures DeleteTeam(front + back, teamId) == DeleteTeam(front, teamId) + DeleteTeam(back, teamId)
  {
    RemoveWhereAppend(front, back, TeamId, teamId);
  }

  /** Every mutator that names a team leaves the collection as it is when no
      team has that id. */
  lemma UnknownTeamIsNoOp(teams: seq<Team>, teamId: string, entityId: string, freshId: string,
                          tp: TeamPatch, a: Athlete, ap: AthletePatch, m: Match, mp: MatchPatch)
    requires Count(teams, TeamId, teamId) == 0
    ensures UpdateTeam(teams, teamId, tp) == teams
    ensures DeleteTeam(teams, teamId) == teams
    ensures AddAthlete(teams, teamId, freshId, a) == teams
    ensures UpdateAthlete(teams, teamId, entityId, ap) == teams
    ensures DeleteAthlete(teams, teamId, entityId) == teams
    ensures AddMatch(teams, teamId, freshId, m) == teams
    ensures UpdateMatch(teams, teamId, entityId, mp) == teams
    ensures DeleteMatch(teams, teamId, entityId) == teams
  {
    RemoveWhereNothing(teams, TeamId, teamId);
  }

  /** An athlete added under an id new to its team is what `getAthlete`
      then finds there. */
  lemma AddAthleteThenGetAthlete(teams: seq<Team>, teamId: string, freshId: string, athlete: Athlete)
    requires GetTeam(teams, teamId).Some?
    requires Count(GetTeam(teams, teamId).value.athletes, AthleteId, freshId) == 0
    ensures GetAthlete(AddAthlete(teams, teamId, freshId, athlete), teamId, freshId) == Some(athlete.(id := freshId))
  {
    var a := athlete.(id := freshId);
    FindAfterUpdate(teams, TeamId, teamId, PushAthlete, a, teamId);
    FindAppendFresh(GetTeam(teams, teamId).value.athletes, AthleteId, a);
  }

  /** Once `updateAthlete` has run, `getAthlete` returns the old record
      spread with the patch, provided the patch leaves the id alone. */
  lemma UpdateAthleteThenGetAthlete(teams: seq<Team>, teamId: string, athleteId: string, p: AthletePatch)
    requires GetAthlete(teams, teamId, athleteId).Some?
    requires p.id.None?
    ensures GetAthlete(UpdateAthlete(teams, teamId, athleteId, p), teamId, athleteId)
            == Some(MergeAthlete(GetAthlete(teams, teamId, athleteId).value, p))
  {
    FindAfterUpdate(teams, TeamId, teamId, EditAthletes, (athleteId, p), teamId);
    FindAfterUpdate(GetTeam(teams, teamId).value.athletes, AthleteId, athleteId, MergeAthlete, p, athleteId);
  }

  /** A patch that renames the athlete hides it from the old id. */
  lemma UpdateAthleteRenameHides(teams: seq<Team>, teamId: string, athleteId: string, p: AthletePatch)
    requires GetTeam(teams, teamId).Some?
    requires p.id.Some? && p.id.value != athleteId
    ensures GetAthlete(UpdateAthlete(teams, teamId, athleteId, p), teamId, athleteId).None?
  {
    var t := GetTeam(teams, teamId).value;
    FindAfterUpdate(teams, TeamId, teamId, EditAthletes, (athleteId, p), teamId);
    var after := UpdateWhere(t.athletes, AthleteId, athleteId, MergeAthlete, p);
    assert GetTeam(UpdateAthlete(teams, teamId, athleteId, p), teamId) == Some(EditAthletes(t, (athleteId, p)));
    assert forall j :: 0 <= j < |after| ==> after[j].id != athleteId;
    assert Find(after, AthleteId, athleteId).None?;
  }

  /** After `deleteAthlete`, the team it named holds no athlete with the id. */
  lemma DeleteAthleteThenGetAthlete(teams: seq<Team>, teamId: string, athleteId: string)
    requires GetTeam(teams, teamId).Some?
    ensures GetAthlete(DeleteAthlete(teams, teamId, athleteId), teamId, athleteId).None?
  {
    FindAfterUpdate(teams, TeamId, teamId, DropAthletes, athleteId, teamId);
  }

  /** A match added under an id new to its team is found there, carrying the
      team's id whatever team id the caller put in it. */
  lemma AddMatchStampsTeam(teams: seq<Team>, teamId: string, freshId: string, m: Match)
    requires GetTeam(teams, teamId).Some?
    requires Count(GetTeam(teams, teamId).value.matches, MatchId, freshId) == 0
    ensures GetTeam(AddMatch(teams, teamId, freshId, m), teamId).Some?
    ensures Find(GetTeam(AddMatch(teams, teamId, freshId, m), teamId).value.matches, MatchId, freshId)
            == Some(m.(id := freshId, teamId := teamId))
  {
    var m' := m.(id := freshId, teamId := teamId);
    FindAfterUpdate(teams, TeamId, teamId, PushMatch, m', teamId);
    FindAppendFresh(GetTeam(teams, teamId).value.matches, MatchId, m');
  }

  /** `getAllMatches` is the one stable ordering of the fixtures: any
      sequence sorted by date and time that keeps the `flatMap` order among
      fixtures at the same moment is exactly it. */
  lemma AllMatchesIsTheStableOrder(teams: seq<Team>, parse: string -> int, r: seq<Match>)
    requires Sorting.Sorted(r, MatchKey(parse))
    requires forall v :: Sorting.WithKey(r, MatchKey(parse), v) == Sorting.WithKey(Flatten(teams), MatchKey(parse), v)
    ensures r == AllMatches(teams, parse)
  {
    Sorting.StableSortedUnique(r, AllMatches(teams, parse), MatchKey(parse));
  }

  // -------------------------------------------- ownership of matches

  lemma AddTeamKeepsOwnership(teams: seq<Team>, freshId: string, name: string)
    requires MatchesOwned(teams)
    ensures MatchesOwned(AddTeam(teams, freshId, name))
  {
  }

  /** A team patch that changes neither the id nor the fixtures keeps
      ownership; one that changes the id would strand the team's matches. */
  lemma UpdateTeamKeepsOwnership(teams: seq<Team>, teamId: string, p: TeamPatch)
    requires MatchesOwned(teams)
    requires p.id.None? && p.matches.None?
    ensures MatchesOwned(UpdateTeam(teams, teamId, p))
  {
  }

  lemma DeleteTeamKeepsOwnership(teams: seq<Team>, teamId: string)
    requires MatchesOwned(teams)
    ensures MatchesOwned(DeleteTeam(teams, teamId))
  {
    var d := DeleteTeam(teams, teamId);
    forall i, j | 0 <= i < |d| && 0 <= j < |d[i].matches|
      ensures d[i].matches[j].teamId == d[i].id
    {
      assert d[i] in multiset(teams);
      var k :| 0 <= k < |teams| && teams[k] == d[i];
    }
  }

  /** Athlete edits leave every team's id and fixtures alone. */
  lemma AthleteEditsKeepOwnership(teams: seq<Team>, teamId: string, athleteId: string, freshId: string,
                                  a: Athlete, p: AthletePatch)
    requires MatchesOwned(teams)
    ensures MatchesOwned(AddAthlete(teams, teamId, freshId, a))
    ensures MatchesOwned(UpdateAthlete(teams, teamId, athleteId, p))
    ensures MatchesOwned(DeleteAthlete(teams, teamId, athleteId))
  {
  }

  /** The stamp `teamId` that `addMatch` puts on the new match keeps
      ownership whatever the caller's match said. */
  lemma AddMatchKeepsOwnership(teams: seq<Team>, teamId: string, freshId: string, m: Match)
    requires MatchesOwned(teams)
    ensures MatchesOwned(AddMatch(teams, teamId, freshId, m))
  {
    var r := AddMatch(teams, teamId, freshId, m);
    forall i, j | 0 <= i < |r| && 0 <= j < |r[i].matches|
      ensures r[i].matches[j].teamId == r[i].id
    {
      if teams[i].id == teamId && j < |teams[i].matches| {
        assert r[i].matches[j] == r[i].matches[..|teams[i].matches|][j];
      }
    }
  }

  lemma UpdateMatchKeepsOwnership(teams: seq<Team>, teamId: string, matchId: string, p: MatchPatch)
    requires MatchesOwned(teams)
    requires p.teamId.None?
    ensures MatchesOwned(UpdateMatch(teams, teamId, matchId, p))
  {
  }

  lemma DeleteMatchKeepsOwnership(teams: seq<Team>, teamId: string, matchId: string)
    requires MatchesOwned(teams)
    ensures MatchesOwned(DeleteMatch(teams, teamId, matchId))
  {
    var r := DeleteMatch(teams, teamId, matchId);
    forall i, j | 0 <= i < |r| && 0 <= j < |r[i].matches|
      ensures r[i].matches[j].teamId == r[i].id
    {
      if teams[i].id == teamId {
        assert r[i].matches[j] in multiset(teams[i].matches);
      }
    }
  }

  /** With every match held by its own team, `deleteTeam` takes all of that
      team's fixtures out of `getAllMatches`. */
  lemma DeleteTeamDropsItsMatches(teams: seq<Team>, teamId: string, parse: string -> int)
    requires MatchesOwned(teams)
    ensures forall m :: m in AllMatches(DeleteTeam(teams, teamId), parse) ==> m.teamId != teamId
  {
    DeleteTeamKeepsOwnership(teams, teamId);
    var d := DeleteTeam(teams, teamId);
    forall m | m in AllMatches(d, parse)
      ensures m.teamId != teamId
    {
      assert m in multiset(AllMatches(d, parse));
      assert m in Flatten(d);
      var i :| 0 <= i < |d| && m in d[i].matches;
      var j :| 0 <= j < |d[i].matches| && d[i].matches[j] == m;
    }
  }
}
