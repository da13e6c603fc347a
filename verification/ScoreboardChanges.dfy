/** The other changes: those followed by InvalidateAll alone, which moderate a team, move it to another
    bracket, edit or delete a challenge, and those that drop no board's key, which create or delete a team,
    purge deleted ones, delete a bracket or move the freeze. */
module ScoreboardChanges {
  import opened Prelude
  import opened ScoreboardKeys
  import opened Scoreboard
  import opened ScoreboardCoherence

  lemma OverallRestoresIff(db: Db, db': Db)
    ensures Restores(db, db', OVERALL_KEYS) <==>
      forall id :: BracketOf(id).Some? ==> LoadBoard(db', id) == LoadBoard(db, id)
  {
    RestoresIff(db, db', OVERALL_KEYS);
    forall id ensures Key(id) in OVERALL_KEYS <==> BracketOf(id) == None {
      DroppedIff(id, None);
    }
  }

  lemma SameTeamsBoardIff(db: Db, db': Db, id: BoardId)
    requires db'.teams == db.teams
    ensures LoadBoard(db', id) == LoadBoard(db, id) <==>
      forall u :: Listed(db, u, BracketOf(id)) ==> RowOf(db', u, CutoffOf(db', id)) == RowOf(db, u, CutoffOf(db, id))
  {
    BoardsEqualIff(db', db, BracketOf(id), BracketOf(id), CutoffOf(db', id), CutoffOf(db, id));
    hide RowOf;
  }

  // ---- teams ------------------------------------------------------------------------------------------------

  /** BanTeam, UnbanTeam, SetHidden and SetBracket change these fields of one row. */
  function Edited(db: Db, team: string, t: Team): Db {
    db.(teams := db.teams[team := t])
  }

  /** The bracket whose boards list the team. */
  function Place(t: Team): Option<string> {
    if Visible(t) then t.bracket else None
  }

  lemma EditMovesBoardIff(db: Db, team: string, t: Team, id: BoardId)
    requires team in db.teams && t.name == db.teams[team].name && BracketOf(id).Some?
    ensures LoadBoard(Edited(db, team, t), id) != LoadBoard(db, id) <==>
      (Place(t) == BracketOf(id)) != (Place(db.teams[team]) == BracketOf(id))
  {
    var db', b, cutoff := Edited(db, team, t), BracketOf(id), CutoffOf(db, id);
    assert CutoffOf(db', id) == cutoff;
    BoardsEqualIff(db', db, b, b, cutoff, cutoff);
    forall u ensures Listed(db', u, b) == (if u == team then Place(t) == b else Listed(db, u, b)) {
    }
    assert Listed(db, team, b) == (Place(db.teams[team]) == b);
    assert Listed(db', team, b) == (Place(t) == b);
    forall u | Listed(db', u, b) && Listed(db, u, b) ensures RowOf(db', u, cutoff) == RowOf(db, u, cutoff) {
    }
    hide RowOf, Listed, Place;
  }

  /** Dropping the overall boards restores coherence after an edit of a team exactly when the edit leaves the
      team on the boards of the same bracket, or off all of them, as before. */
  lemma TeamEditRestoredIff(db: Db, team: string, t: Team)
    requires team in db.teams && t.name == db.teams[team].name
    ensures Restores(db, Edited(db, team, t), OVERALL_KEYS) <==> Place(t) == Place(db.teams[team])
  {
    OverallRestoresIff(db, Edited(db, team, t));
    forall id | BracketOf(id).Some?
      ensures LoadBoard(Edited(db, team, t), id) != LoadBoard(db, id) <==>
        (Place(t) == BracketOf(id)) != (Place(db.teams[team]) == BracketOf(id))
    {
      EditMovesBoardIff(db, team, t, id);
    }
    if Place(t) != Place(db.teams[team]) {
      var b := if Place(t).Some? then Place(t).value else Place(db.teams[team]).value;
      assert BracketOf(Bracket(b)) == Some(b);
    }
  }

  /** So for banning, unbanning, hiding and showing: exactly when the team is in no bracket or its visibility
      stays. */
  lemma ModerationRestoredIff(db: Db, team: string, banned: bool, hidden: bool)
    requires team in db.teams
    ensures
      var t := db.teams[team].(banned := banned, hidden := hidden);
      Restores(db, Edited(db, team, t), OVERALL_KEYS) <==> t.bracket.None? || Visible(t) == Visible(db.teams[team])
  {
    TeamEditRestoredIff(db, team, db.teams[team].(banned := banned, hidden := hidden));
  }

  /** And for SetBracket: exactly when the team is on no board or the bracket stays; else the boards of the
      old bracket and of the new one both change. */
  lemma SetBracketRestoredIff(db: Db, team: string, bracket: Option<string>, id: BoardId)
    requires team in db.teams
    ensures
      var t := db.teams[team];
      var db' := Edited(db, team, t.(bracket := bracket));
      && (Restores(db, db', OVERALL_KEYS) <==> !Visible(t) || bracket == t.bracket)
      && (BracketOf(id).Some? ==>
            (LoadBoard(db', id) != LoadBoard(db, id) <==>
              Visible(t) && bracket != t.bracket && (BracketOf(id) == t.bracket || BracketOf(id) == bracket)))
  {
    var t := db.teams[team];
    TeamEditRestoredIff(db, team, t.(bracket := bracket));
    if BracketOf(id).Some? {
      EditMovesBoardIff(db, team, t.(bracket := bracket), id);
    }
  }

  lemma ListingMovesOverall(db: Db, db': Db, team: string)
    requires Listed(db, team, None) != Listed(db', team, None)
    ensures !Restores(db, db', {})
  {
    BoardsEqualIff(db', db, None, None, None, None);
    assert LoadBoard(db', Overall) != LoadBoard(db, Overall) by {
      assert BracketOf(Overall) == None && CutoffOf(db, Overall) == None && CutoffOf(db', Overall) == None;
    }
    RestoresIff(db, db', {});
    assert Key(Overall) !in {};
    hide LoadBoard, Restores;
  }

  function WithoutTeams(solves: seq<Solve>, gone: set<string>): seq<Solve> {
    if solves == [] then []
    else
      var rest := WithoutTeams(solves[..|solves| - 1], gone);
      if solves[|solves| - 1].team in gone then rest else rest + [solves[|solves| - 1]]
  }

  function WithoutAwards(awards: seq<Award>, gone: set<string>): seq<Award> {
    if awards == [] then []
    else
      var rest := WithoutAwards(awards[..|awards| - 1], gone);
      if awards[|awards| - 1].team in gone then rest else rest + [awards[|awards| - 1]]
  }

  /** Disbanding a team marks its row as deleted. */
  function SoftDeleted(db: Db, team: string): Db
    requires team in db.teams
  {
    Edited(db, team, db.teams[team].(deleted := true))
  }

  /** Cleaning up a solo team deletes its solves, too. */
  function CleanedUp(db: Db, team: string): Db
    requires team in db.teams
  {
    SoftDeleted(db, team).(solves := WithoutTeams(db.solves, {team}))
  }

  /** The cleanup command deletes the rows of teams, and with them their solves and awards. */
  function Purged(db: Db, gone: set<string>): Db {
    db.(teams := db.teams - gone, solves := WithoutTeams(db.solves, gone), awards := WithoutAwards(db.awards, gone))
  }

  lemma OthersKeepSolves(challenges: map<string, Challenge>, solves: seq<Solve>, gone: set<string>, u: string, cutoff: Option<int>)
    requires u !in gone
    ensures SolvePoints(challenges, WithoutTeams(solves, gone), u, cutoff) == SolvePoints(challenges, solves, u, cutoff)
    ensures LastSolved(challenges, WithoutTeams(solves, gone), u, cutoff) == LastSolved(challenges, solves, u, cutoff)
  {
    OthersKeepPoints(challenges, solves, gone, u, cutoff);
    OthersKeepLast(challenges, solves, gone, u, cutoff);
  }

  lemma {:induction false} OthersKeepPoints(challenges: map<string, Challenge>, solves: seq<Solve>, gone: set<string>,
                                            u: string, cutoff: Option<int>)
    requires u !in gone
    ensures SolvePoints(challenges, WithoutTeams(solves, gone), u, cutoff) == SolvePoints(challenges, solves, u, cutoff)
    decreases |solves|
  {
    if solves != [] {
      var n := |solves| - 1;
      OthersKeepPoints(challenges, solves[..n], gone, u, cutoff);
      PointsGrow(challenges, WithoutTeams(solves[..n], gone), solves[n], u, cutoff);
    }
  }

  lemma {:induction false} OthersKeepLast(challenges: map<string, Challenge>, solves: seq<Solve>, gone: set<string>,
                                          u: string, cutoff: Option<int>)
    requires u !in gone
    ensures LastSolved(challenges, WithoutTeams(solves, gone), u, cutoff) == LastSolved(challenges, solves, u, cutoff)
    decreases |solves|
  {
    if solves != [] {
      var n := |solves| - 1;
      OthersKeepLast(challenges, solves[..n], gone, u, cutoff);
      var rest := WithoutTeams(solves[..n], gone);
      assert (rest + [solves[n]])[..|rest|] == rest;
    }
  }

  lemma {:induction false} OthersKeepAwards(awards: seq<Award>, gone: set<string>, u: string, cutoff: Option<int>)
    requires u !in gone
    ensures AwardPoints(WithoutAwards(awards, gone), u, cutoff) == AwardPoints(awards, u, cutoff)
    decreases |awards|
  {
    if awards != [] {
      var n := |awards| - 1;
      OthersKeepAwards(awards[..n], gone, u, cutoff);
      var rest := WithoutAwards(awards[..n], gone);
      assert (rest + [awards[n]])[..|rest|] == rest;
    }
  }

  /** What the purge leaves: every solve and award of another team, as often as before, and none of these. */
  lemma {:induction false} PurgedAwards(awards: seq<Award>, gone: set<string>, a: Award)
    ensures multiset(WithoutAwards(awards, gone))[a] == if a.team in gone then 0 else multiset(awards)[a]
    decreases |awards|
  {
    if awards != [] {
      PurgedAwards(awards[..|awards| - 1], gone, a);
      assert awards == awards[..|awards| - 1] + [awards[|awards| - 1]];
    }
  }

  lemma {:induction false} PurgedSolves(solves: seq<Solve>, gone: set<string>, s: Solve)
    ensures multiset(WithoutTeams(solves, gone))[s] == if s.team in gone then 0 else multiset(solves)[s]
    decreases |solves|
  {
    if solves != [] {
      PurgedSolves(solves[..|solves| - 1], gone, s);
      assert solves == solves[..|solves| - 1] + [solves[|solves| - 1]];
    }
  }

  lemma DeletionRestoredIff(db: Db, db': Db, team: string)
    requires team in db.teams && !db.teams[team].deleted && db'.freezeTime == db.freezeTime
    requires db'.teams == SoftDeleted(db, team).teams
    requires forall u, cutoff :: u in db.teams && u != team ==> RowOf(db', u, cutoff) == RowOf(db, u, cutoff)
    ensures Restores(db, db', {}) <==> !Visible(db.teams[team])
  {
    hide RowOf, Restores, LoadBoard;
    if Visible(db.teams[team]) {
      ListingMovesOverall(db, db', team);
    } else {
      forall id ensures LoadBoard(db', id) == LoadBoard(db, id) {
        SameLinesSameBoard(db, db', id);
      }
      RestoresIff(db, db', {});
    }
  }

  lemma SameLinesSameBoard(db: Db, db': Db, id: BoardId)
    requires CutoffOf(db', id) == CutoffOf(db, id)
    requires forall u :: Listed(db', u, BracketOf(id)) == Listed(db, u, BracketOf(id))
    requires forall u :: Listed(db, u, BracketOf(id)) && Listed(db', u, BracketOf(id)) ==>
      RowOf(db', u, CutoffOf(db, id)) == RowOf(db, u, CutoffOf(db, id))
    ensures LoadBoard(db', id) == LoadBoard(db, id)
  {
    hide RowOf;
    BoardsEqualIff(db', db, BracketOf(id), BracketOf(id), CutoffOf(db, id), CutoffOf(db, id));
  }

  /** Disbanding a team, and cleaning up a solo team, drop no key at all: coherence is kept exactly when the
      team was not visible. */
  lemma SoftDeleteRestoredIff(db: Db, team: string)
    requires team in db.teams && !db.teams[team].deleted
    ensures Restores(db, SoftDeleted(db, team), {}) <==> !Visible(db.teams[team])
    ensures Restores(db, CleanedUp(db, team), {}) <==> !Visible(db.teams[team])
  {
    forall u, cutoff | u in db.teams && u != team
      ensures RowOf(SoftDeleted(db, team), u, cutoff) == RowOf(db, u, cutoff) == RowOf(CleanedUp(db, team), u, cutoff)
    {
      OthersKeepSolves(db.challenges, db.solves, {team}, u, cutoff);
    }
    hide RowOf, Restores, Visible;
    DeletionRestoredIff(db, SoftDeleted(db, team), team);
    DeletionRestoredIff(db, CleanedUp(db, team), team);
  }

  /** The cleanup command, which drops no key either, moves no board: it deletes only teams that are on none. */
  lemma PurgeMovesNoBoard(db: Db, gone: set<string>)
    requires forall t :: t in gone && t in db.teams ==> db.teams[t].deleted
    ensures Restores(db, Purged(db, gone), {})
    ensures forall t :: t in Purged(db, gone).teams <==> t in db.teams && t !in gone
    ensures forall s :: multiset(Purged(db, gone).solves)[s] == if s.team in gone then 0 else multiset(db.solves)[s]
    ensures forall a :: multiset(Purged(db, gone).awards)[a] == if a.team in gone then 0 else multiset(db.awards)[a]
  {
    forall s ensures multiset(Purged(db, gone).solves)[s] == if s.team in gone then 0 else multiset(db.solves)[s] {
      PurgedSolves(db.solves, gone, s);
    }
    forall a ensures multiset(Purged(db, gone).awards)[a] == if a.team in gone then 0 else multiset(db.awards)[a] {
      PurgedAwards(db.awards, gone, a);
    }
    var db' := Purged(db, gone);
    RestoresIff(db, db', {});
    forall id ensures LoadBoard(db', id) == LoadBoard(db, id) {
      forall u | Listed(db, u, BracketOf(id)) ensures RowOf(db', u, CutoffOf(db, id)) == RowOf(db, u, CutoffOf(db, id)) {
        OthersKeepSolves(db.challenges, db.solves, gone, u, CutoffOf(db, id));
        OthersKeepAwards(db.awards, gone, u, CutoffOf(db, id));
      }
      hide RowOf, LoadBoard, WithoutTeams, WithoutAwards;
      SameLinesSameBoard(db, db', id);
    }
  }

  /** Creating a team drops none, and a new team is on the overall board at once. */
  lemma NewTeamIsNeverRestored(db: Db, team: string, name: string)
    requires team !in db.teams
    ensures !Restores(db, Edited(db, team, Team(name, None, false, false, false)), {})
  {
    ListingMovesOverall(db, Edited(db, team, Team(name, None, false, false, false)), team);
  }

  // ---- brackets and the freeze --------------------------------------------------------------------------------

  /** Deleting a bracket takes its teams out of it. */
  function WithoutBracket(db: Db, bracket: string): Db {
    db.(teams := map t | t in db.teams ::
      if db.teams[t].bracket == Some(bracket) then db.teams[t].(bracket := None) else db.teams[t])
  }

  lemma BracketIsEmptied(db: Db, bracket: string, t: string)
    requires Listed(db, t, Some(bracket))
    ensures LoadBoard(WithoutBracket(db, bracket), Bracket(bracket)) != LoadBoard(db, Bracket(bracket))
  {
    var db' := WithoutBracket(db, bracket);
    BoardsEqualIff(db', db, Some(bracket), Some(bracket), None, None);
    assert !Listed(db', t, Some(bracket));
    hide RowOf;
  }

  /** BracketUseCase.Delete drops no key: coherence is kept exactly when no listed team was in the bracket. */
  lemma BracketDeleteRestoredIff(db: Db, bracket: string)
    ensures Restores(db, WithoutBracket(db, bracket), {}) <==> forall t :: !Listed(db, t, Some(bracket))
  {
    var db' := WithoutBracket(db, bracket);
    hide RowOf, Restores, LoadBoard, WithoutBracket, Listed;
    RestoresIff(db, db', {});
    if t :| Listed(db, t, Some(bracket)) {
      BracketIsEmptied(db, bracket, t);
      assert Key(Bracket(bracket)) !in {};
    } else {
      forall id ensures LoadBoard(db', id) == LoadBoard(db, id) {
        UnusedBracketMovesNothing(db, bracket, id);
      }
    }
  }

  lemma UnusedBracketMovesNothing(db: Db, bracket: string, id: BoardId)
    requires forall t :: !Listed(db, t, Some(bracket))
    ensures LoadBoard(WithoutBracket(db, bracket), id) == LoadBoard(db, id)
  {
    var db', b := WithoutBracket(db, bracket), BracketOf(id);
    forall u ensures Listed(db', u, b) == Listed(db, u, b) {
      if b.Some? && Listed(db, u, None) {
        assert !Listed(db, u, Some(bracket));
      }
    }
    hide LoadBoard, Listed;
    SameLinesSameBoard(db, db', id);
  }

  function Refrozen(db: Db, freezeTime: Option<int>): Db {
    db.(freezeTime := freezeTime)
  }

  function AwardsBetween(awards: seq<Award>, team: string, from: int, to: int): int {
    if awards == [] then 0
    else
      var a := awards[|awards| - 1];
      AwardsBetween(awards[..|awards| - 1], team, from, to) + (if a.team == team && from < a.at <= to then a.value else 0)
  }

  ghost predicate SolvedBetween(challenges: map<string, Challenge>, solves: seq<Solve>, team: string, from: int, to: int) {
    exists s :: s in solves && Counts(challenges, s, team, None) && from < s.at <= to
  }

  /** Nothing the team did after the earlier of two moments and by the later one counts on its line. */
  ghost predicate QuietBetween(db: Db, team: string, x: int, y: int) {
    var from, to := if x <= y then x else y, if x <= y then y else x;
    !SolvedBetween(db.challenges, db.solves, team, from, to) && AwardsBetween(db.awards, team, from, to) == 0
  }

  lemma {:induction false} AwardsSplit(awards: seq<Award>, team: string, from: int, to: int)
    requires from <= to
    ensures AwardPoints(awards, team, Some(to)) == AwardPoints(awards, team, Some(from)) + AwardsBetween(awards, team, from, to)
    decreases |awards|
  {
    if awards != [] {
      AwardsSplit(awards[..|awards| - 1], team, from, to);
    }
  }

  lemma {:induction false} UnsolvedBetween(challenges: map<string, Challenge>, solves: seq<Solve>, team: string, from: int, to: int)
    requires from <= to && !SolvedBetween(challenges, solves, team, from, to)
    ensures SolvePoints(challenges, solves, team, Some(to)) == SolvePoints(challenges, solves, team, Some(from))
    ensures LastSolved(challenges, solves, team, Some(to)) == LastSolved(challenges, solves, team, Some(from))
    decreases |solves|
  {
    if solves != [] {
      var n := |solves| - 1;
      assert forall s :: s in solves[..n] ==> s in solves;
      assert solves[n] in solves;
      UnsolvedBetween(challenges, solves[..n], team, from, to);
    }
  }

  lemma SolvedBetweenShows(challenges: map<string, Challenge>, solves: seq<Solve>, team: string, from: int, to: int)
    requires SolvedBetween(challenges, solves, team, from, to)
    ensures LastSolved(challenges, solves, team, Some(to)) != LastSolved(challenges, solves, team, Some(from))
  {
    LastSolvedIsGreatest(challenges, solves, team, Some(from));
    LastSolvedIsGreatest(challenges, solves, team, Some(to));
    hide LastSolved;
  }

  lemma LineBetween(db: Db, team: string, x: int, y: int)
    requires team in db.teams
    ensures RowOf(db, team, Some(x)) == RowOf(db, team, Some(y)) <==> QuietBetween(db, team, x, y)
  {
    var from, to := if x <= y then x else y, if x <= y then y else x;
    AwardsSplit(db.awards, team, from, to);
    if SolvedBetween(db.challenges, db.solves, team, from, to) {
      SolvedBetweenShows(db.challenges, db.solves, team, from, to);
    } else {
      UnsolvedBetween(db.challenges, db.solves, team, from, to);
    }
    hide SolvedBetween, SolvePoints, LastSolved, AwardPoints, AwardsBetween;
  }

  /** CompetitionUseCase.Update drops no board: moving the freeze keeps coherence exactly when every listed
      team was quiet between the old and the new moment. */
  lemma FreezeRestoredIff(db: Db, freezeTime: Option<int>)
    ensures Refrozen(db, freezeTime) == db.(freezeTime := freezeTime)
    ensures Restores(db, Refrozen(db, freezeTime), {}) <==>
      forall u :: Listed(db, u, None) ==>
        QuietBetween(db, u, CutoffOf(db, Frozen).value, CutoffOf(Refrozen(db, freezeTime), Frozen).value)
  {
    var db' := Refrozen(db, freezeTime);
    hide Restores, RowOf, QuietBetween, LoadBoard, Listed;
    RestoresIff(db, db', {});
    FrozenMovesIff(db, freezeTime, Frozen);
    assert Key(Frozen) !in {} && BracketOf(Frozen) == None;
    if LoadBoard(db', Frozen) == LoadBoard(db, Frozen) {
      forall id ensures LoadBoard(db', id) == LoadBoard(db, id) {
        FrozenMovesIff(db, freezeTime, id);
        ListedOverall(db, BracketOf(id));
      }
    }
  }

  lemma ListedOverall(db: Db, bracket: Option<string>)
    ensures forall u :: Listed(db, u, bracket) ==> Listed(db, u, None)
  {
  }

  /** A live board stays, and a frozen one stays exactly when the teams on it were quiet in between. */
  lemma FrozenMovesIff(db: Db, freezeTime: Option<int>, id: BoardId)
    ensures LoadBoard(Refrozen(db, freezeTime), id) == LoadBoard(db, id) <==>
      CutoffOf(db, id) == None || forall u :: Listed(db, u, BracketOf(id)) ==>
        QuietBetween(db, u, CutoffOf(db, Frozen).value, CutoffOf(Refrozen(db, freezeTime), Frozen).value)
  {
    var db' := Refrozen(db, freezeTime);
    hide RowOf, QuietBetween, LoadBoard;
    SameTeamsBoardIff(db, db', id);
    forall u | u in db.teams
      ensures RowOf(db', u, CutoffOf(db', id)) == RowOf(db, u, CutoffOf(db, id)) <==>
        CutoffOf(db, id) == None || QuietBetween(db, u, CutoffOf(db, Frozen).value, CutoffOf(db', Frozen).value)
    {
      SameRowUnfrozen(db, freezeTime, u, CutoffOf(db', id));
      LineBetween(db, u, CutoffOf(db, Frozen).value, CutoffOf(db', Frozen).value);
    }
  }

  lemma SameRowUnfrozen(db: Db, freezeTime: Option<int>, u: string, cutoff: Option<int>)
    requires u in db.teams
    ensures RowOf(Refrozen(db, freezeTime), u, cutoff) == RowOf(db, u, cutoff)
  {
  }

  // ---- challenges -------------------------------------------------------------------------------------------

  function WithChallenge(db: Db, challenge: string, c: Challenge): Db {
    db.(challenges := db.challenges[challenge := c])
  }

  lemma LineAfterEdit(db: Db, challenge: string, c: Challenge, u: string, cutoff: Option<int>)
    requires challenge in db.challenges && u in db.teams
    ensures RowOf(WithChallenge(db, challenge, c), u, cutoff) != RowOf(db, u, cutoff) <==>
      c.points != db.challenges[challenge].points && TimesSolved(db.solves, u, challenge, cutoff) > 0
  {
    PriceChangeMovesPoints(db.challenges, challenge, c, db.solves, u, cutoff);
    var db', shift, times := WithChallenge(db, challenge, c), c.points - db.challenges[challenge].points, TimesSolved(db.solves, u, challenge, cutoff);
    hide SolvePoints, LastSolved, TimesSolved, AwardPoints;
    ShiftShowsIff(SolvePoints(db.challenges, db.solves, u, cutoff), SolvePoints(db'.challenges, db.solves, u, cutoff), shift, times);
  }

  lemma ShiftShowsIff(x: int, y: int, shift: int, times: nat)
    requires y == x + shift * times
    ensures x != y <==> shift != 0 && times > 0
  {
    if shift != 0 && times > 0 {
      NonZeroProduct(shift, times);
    }
  }

  /** A listed team with a bracket whose line on a live or a frozen board the change moves. */
  ghost predicate MovesSome(db: Db, db': Db, u: string) {
    && Listed(db, u, None) && db.teams[u].bracket.Some? && u in db'.teams
    && (RowOf(db', u, None) != RowOf(db, u, None) || RowOf(db', u, CutoffOf(db, Frozen)) != RowOf(db, u, CutoffOf(db, Frozen)))
  }

  lemma LinesRestoredIff(db: Db, db': Db)
    requires db'.teams == db.teams && db'.freezeTime == db.freezeTime
    ensures Restores(db, db', OVERALL_KEYS) <==> forall u :: !MovesSome(db, db', u)
  {
    OverallRestoresIff(db, db');
    hide RowOf, Restores, LoadBoard;
    if u :| MovesSome(db, db', u) {
      var b := db.teams[u].bracket.value;
      CutoffsAgree(db, b);
      var id := if RowOf(db', u, None) != RowOf(db, u, None) then Bracket(b) else BracketFrozen(b);
      SameTeamsBoardIff(db, db', id);
      assert Listed(db, u, BracketOf(id)) && BracketOf(id).Some?;
    } else {
      forall id | BracketOf(id).Some? ensures LoadBoard(db', id) == LoadBoard(db, id) {
        SameTeamsBoardIff(db, db', id);
        forall u | Listed(db, u, BracketOf(id)) ensures RowOf(db', u, CutoffOf(db, id)) == RowOf(db, u, CutoffOf(db, id)) {
          assert !MovesSome(db, db', u);
          CutoffsAgree(db, db.teams[u].bracket.value);
        }
      }
    }
  }

  /** ChallengeUseCase.Update: dropping the overall boards restores coherence exactly when the points stay or
      no listed team in a bracket has solved the challenge. */
  lemma ChallengeUpdateRestoredIff(db: Db, challenge: string, c: Challenge)
    requires challenge in db.challenges
    ensures Restores(db, WithChallenge(db, challenge, c), OVERALL_KEYS) <==>
      (c.points == db.challenges[challenge].points
       || forall u :: Listed(db, u, None) && TimesSolved(db.solves, u, challenge, None) > 0 ==> db.teams[u].bracket.None?)
  {
    var db' := WithChallenge(db, challenge, c);
    LinesRestoredIff(db, db');
    forall u | Listed(db, u, None)
      ensures MovesSome(db, db', u) <==>
        db.teams[u].bracket.Some? && c.points != db.challenges[challenge].points && TimesSolved(db.solves, u, challenge, None) > 0
    {
      LineAfterEdit(db, challenge, c, u, None);
      LineAfterEdit(db, challenge, c, u, CutoffOf(db, Frozen));
      CutoffCountsFewer(db.solves, u, challenge, CutoffOf(db, Frozen));
    }
    hide RowOf, Restores, TimesSolved;
  }

  function WithoutChallenge(solves: seq<Solve>, challenge: string): seq<Solve> {
    if solves == [] then []
    else
      var rest := WithoutChallenge(solves[..|solves| - 1], challenge);
      if solves[|solves| - 1].challenge == challenge then rest else rest + [solves[|solves| - 1]]
  }

  /** The row is deleted and its solves with it. */
  function Deleted(db: Db, challenge: string): Db {
    db.(challenges := db.challenges - {challenge}, solves := WithoutChallenge(db.solves, challenge))
  }

  lemma {:induction false} DeletedSolves(challenges: map<string, Challenge>, solves: seq<Solve>, challenge: string, u: string, cutoff: Option<int>)
    requires challenge in challenges
    ensures SolvePoints(challenges - {challenge}, WithoutChallenge(solves, challenge), u, cutoff)
      == SolvePoints(challenges, solves, u, cutoff) - challenges[challenge].points * TimesSolved(solves, u, challenge, cutoff)
    ensures LastSolved(challenges - {challenge}, WithoutChallenge(solves, challenge), u, cutoff)
      == LastSolved(challenges - {challenge}, solves, u, cutoff)
    decreases |solves|
  {
    if solves != [] {
      var n := |solves| - 1;
      DeletedSolves(challenges, solves[..n], challenge, u, cutoff);
      var rest := WithoutChallenge(solves[..n], challenge);
      assert (rest + [solves[n]])[..|rest|] == rest;
      if solves[n].team == u && solves[n].challenge == challenge && Within(solves[n].at, cutoff) {
        OneMore(challenges[challenge].points, TimesSolved(solves[..n], u, challenge, cutoff));
      }
    }
  }

  /** A counted solve of the challenge comes after all the team's counted solves of others. */
  ghost predicate IsLatest(db: Db, challenge: string, u: string, cutoff: Option<int>) {
    exists s :: s in db.solves && Counts(db.challenges, s, u, cutoff) && s.challenge == challenge
      && forall o :: o in db.solves && Counts(db.challenges, o, u, cutoff) && o.challenge != challenge ==> o.at < s.at
  }

  /** The team has solved the challenge for points, or after all others. */
  ghost predicate Misses(db: Db, challenge: string, u: string, cutoff: Option<int>)
    requires challenge in db.challenges
  {
    || (db.challenges[challenge].points != 0 && TimesSolved(db.solves, u, challenge, cutoff) > 0)
    || IsLatest(db, challenge, u, cutoff)
  }

  lemma LatestIff(db: Db, challenge: string, u: string, cutoff: Option<int>)
    requires challenge in db.challenges
    ensures LastSolved(db.challenges - {challenge}, db.solves, u, cutoff) != LastSolved(db.challenges, db.solves, u, cutoff)
      <==> IsLatest(db, challenge, u, cutoff)
  {
    var others := db.challenges - {challenge};
    LastSolvedIsGreatest(others, db.solves, u, cutoff);
    LastSolvedIsGreatest(db.challenges, db.solves, u, cutoff);
    forall s ensures Counts(others, s, u, cutoff) <==> Counts(db.challenges, s, u, cutoff) && s.challenge != challenge {
    }
    hide LastSolved, Counts;
  }

  lemma LineAfterDeletion(db: Db, challenge: string, u: string, cutoff: Option<int>)
    requires challenge in db.challenges && u in db.teams
    ensures RowOf(Deleted(db, challenge), u, cutoff) != RowOf(db, u, cutoff) <==> Misses(db, challenge, u, cutoff)
  {
    DeletedSolves(db.challenges, db.solves, challenge, u, cutoff);
    LatestIff(db, challenge, u, cutoff);
    var db', points, times := Deleted(db, challenge), db.challenges[challenge].points, TimesSolved(db.solves, u, challenge, cutoff);
    hide SolvePoints, LastSolved, TimesSolved, AwardPoints, IsLatest, WithoutChallenge;
    ShiftShowsIff(SolvePoints(db'.challenges, db'.solves, u, cutoff), SolvePoints(db.challenges, db.solves, u, cutoff), points, times);
  }

  /** ChallengeUseCase.Delete: exactly when no listed team in a bracket had solved the challenge for points, or
      after all its other solves, on a live board or by the freeze. */
  lemma ChallengeDeleteRestoredIff(db: Db, challenge: string)
    requires challenge in db.challenges
    ensures Restores(db, Deleted(db, challenge), OVERALL_KEYS) <==>
      forall u :: Listed(db, u, None) && db.teams[u].bracket.Some? ==>
        !Misses(db, challenge, u, None) && !Misses(db, challenge, u, CutoffOf(db, Frozen))
  {
    var db' := Deleted(db, challenge);
    LinesRestoredIff(db, db');
    forall u | Listed(db, u, None) && db.teams[u].bracket.Some?
      ensures MovesSome(db, db', u) <==> Misses(db, challenge, u, None) || Misses(db, challenge, u, CutoffOf(db, Frozen))
    {
      LineAfterDeletion(db, challenge, u, None);
      LineAfterDeletion(db, challenge, u, CutoffOf(db, Frozen));
    }
    hide RowOf, Restores, Misses;
  }
}
