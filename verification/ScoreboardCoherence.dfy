/** When dropping keys after a change keeps the cached scoreboards equal to freshly loaded ones. */
module ScoreboardCoherence {
  import opened Prelude
  import opened ScoreboardKeys
  import opened Scoreboard
  import CP = CacheProtocol
  import CI = CacheInvariant
  import CF = CacheFreshness

  /** Every cached board is what a load would return now. */
  ghost predicate Coherent(cache: map<string, Board>, db: Db) {
    forall id :: Key(id) in cache ==> cache[Key(id)] == LoadBoard(db, id)
  }

  /** Whatever boards were cached, coherently, dropping `keys` makes the cache coherent again. */
  ghost predicate Restores(db: Db, db': Db, keys: set<string>) {
    forall cache: map<string, Board> :: Coherent(cache, db) ==> Coherent(cache - keys, db')
  }

  lemma OneBoardIsCoherent(db: Db, id: BoardId)
    ensures Coherent(map[Key(id) := LoadBoard(db, id)], db)
  {
    forall other | Key(other) == Key(id) ensures other == id {
      KeysAreDistinct(other, id);
    }
  }

  /** Dropping keys restores coherence exactly when every board it leaves is unchanged. */
  lemma RestoresIff(db: Db, db': Db, keys: set<string>)
    ensures Restores(db, db', keys) <==> forall id :: Key(id) !in keys ==> LoadBoard(db', id) == LoadBoard(db, id)
  {
    if Restores(db, db', keys) {
      forall id | Key(id) !in keys ensures LoadBoard(db', id) == LoadBoard(db, id) {
        OneBoardIsCoherent(db, id);
        var cache := map[Key(id) := LoadBoard(db, id)];
        assert Coherent(cache - keys, db');
        assert Key(id) in cache - keys;
      }
    }
  }

  // ---- the keys an invalidation drops -----------------------------------------------------------

  const OVERALL_KEYS: set<string> := {KEY_SCOREBOARD, KEY_SCOREBOARD_FROZEN}

  function BracketKeys(bracket: Option<string>): set<string> {
    match bracket
    case None => {}
    case Some(b) => {KeyScoreboardBracket(b), KeyScoreboardBracketFrozen(b)}
  }

  /** The keys InvalidateForTeam drops when the lookup of the team's bracket answers `bracket`. */
  function TeamKeys(bracket: Option<string>): set<string> {
    OVERALL_KEYS + BracketKeys(bracket)
  }

  /** What a successful lookup answers: the bracket of a team that is not deleted. */
  function LookedUp(db: Db, team: string): Option<string> {
    if team in db.teams && !db.teams[team].deleted then db.teams[team].bracket else None
  }

  lemma DroppedIff(id: BoardId, bracket: Option<string>)
    ensures Key(id) in OVERALL_KEYS <==> BracketOf(id) == None
    ensures Key(id) in TeamKeys(bracket) <==> BracketOf(id) == None || BracketOf(id) == bracket
  {
    KeysAreDistinct(id, Overall);
    KeysAreDistinct(id, Frozen);
    if bracket.Some? {
      KeysAreDistinct(id, Bracket(bracket.value));
      KeysAreDistinct(id, BracketFrozen(bracket.value));
    }
  }

  // ---- one team's line changes ------------------------------------------------------------------

  /** The two states differ at most in the lines of `team`, which keeps its bracket and visibility. */
  ghost predicate OnlyLineOf(team: string, db: Db, db': Db) {
    && db'.teams.Keys == db.teams.Keys && db'.freezeTime == db.freezeTime
    && (forall u :: u in db.teams ==>
          db'.teams[u].bracket == db.teams[u].bracket && Visible(db'.teams[u]) == Visible(db.teams[u]))
    && (forall u, cutoff :: u in db.teams && u != team ==> RowOf(db', u, cutoff) == RowOf(db, u, cutoff))
  }

  /** When one team's line is all that changed, InvalidateForTeam with a successful lookup restores the
      overall, frozen, bracket and frozen bracket boards; the boards of other brackets are unchanged. */
  lemma InvalidateForTeamRestores(db: Db, db': Db, team: string)
    requires OnlyLineOf(team, db, db')
    ensures Restores(db, db', TeamKeys(LookedUp(db, team)))
  {
    forall id | Key(id) !in TeamKeys(LookedUp(db, team))
      ensures LoadBoard(db', id) == LoadBoard(db, id)
    {
      DroppedIff(id, LookedUp(db, team));
      var cutoff := CutoffOf(db, id);
      BoardsEqualIff(db', db, BracketOf(id), BracketOf(id), cutoff, cutoff);
    }
    RestoresIff(db, db', TeamKeys(LookedUp(db, team)));
  }

  // ---- a recorded solve -------------------------------------------------------------------------

  /** A listed team in a bracket other than `dropped` whose line on a live or a frozen board the solve moves. */
  ghost predicate MovesBracketLine(price: Price, db: Db, path: Path, team: string, challenge: string, at: int, dropped: Option<string>, u: string)
    requires challenge in db.challenges
  {
    && Listed(db, u, None) && db.teams[u].bracket.Some? && db.teams[u].bracket != dropped
    && (LineMoves(price, db, path, team, challenge, at, u, None)
        || LineMoves(price, db, path, team, challenge, at, u, CutoffOf(db, Frozen)))
  }

  lemma CutoffsAgree(db: Db, bracket: string)
    ensures CutoffOf(db, Bracket(bracket)) == None && CutoffOf(db, BracketFrozen(bracket)) == CutoffOf(db, Frozen)
  {
  }

  /** After a recorded solve, dropping the overall boards and those of one bracket restores coherence
      exactly when the solve moves no listed team's line in another bracket. */
  lemma SolveRestoredIff(price: Price, db: Db, path: Path, team: string, challenge: string, at: int, dropped: Option<string>)
    requires RecordSolve(price, db, path, team, challenge, at).Ok?
    ensures Restores(db, Recorded(price, db, path, team, challenge, at), TeamKeys(dropped)) <==>
      forall u :: !MovesBracketLine(price, db, path, team, challenge, at, dropped, u)
  {
    var db' := Recorded(price, db, path, team, challenge, at);
    RestoresIff(db, db', TeamKeys(dropped));
    if u :| MovesBracketLine(price, db, path, team, challenge, at, dropped, u) {
      var b := db.teams[u].bracket.value;
      CutoffsAgree(db, b);
      var id := if LineMoves(price, db, path, team, challenge, at, u, None) then Bracket(b) else BracketFrozen(b);
      DroppedIff(id, dropped);
      SolveMovesBoardIff(price, db, path, team, challenge, at, id);
      assert Listed(db, u, BracketOf(id)) && LineMoves(price, db, path, team, challenge, at, u, CutoffOf(db, id));
    } else {
      forall id | Key(id) !in TeamKeys(dropped) ensures LoadBoard(db', id) == LoadBoard(db, id) {
        DroppedIff(id, dropped);
        SolveMovesBoardIff(price, db, path, team, challenge, at, id);
        forall u | Listed(db, u, BracketOf(id)) ensures !LineMoves(price, db, path, team, challenge, at, u, CutoffOf(db, id)) {
          assert !MovesBracketLine(price, db, path, team, challenge, at, dropped, u);
          CutoffsAgree(db, db.teams[u].bracket.value);
        }
      }
    }
  }

  /** Another team's line moves on some board of its bracket exactly when it does on the live one. */
  lemma OthersMoveLive(price: Price, db: Db, path: Path, team: string, challenge: string, at: int, u: string)
    requires challenge in db.challenges && u != team
    ensures LineMoves(price, db, path, team, challenge, at, u, CutoffOf(db, Frozen)) ==> LineMoves(price, db, path, team, challenge, at, u, None)
    ensures LineMoves(price, db, path, team, challenge, at, u, None)
      <==> PriceShift(price, db, path, challenge) != 0 && TimesSolved(db.solves, u, challenge, None) > 0
  {
    CutoffCountsFewer(db.solves, u, challenge, CutoffOf(db, Frozen));
  }

  /** SolveUseCase.Create invalidates for the solving team. That restores coherence exactly when the
      price stays, or no listed team of another bracket has solved the challenge. */
  lemma CreateSolveRestoredIff(price: Price, db: Db, team: string, challenge: string, at: int)
    requires RecordSolve(price, db, CreateSolve, team, challenge, at).Ok?
    ensures Restores(db, Recorded(price, db, CreateSolve, team, challenge, at), TeamKeys(LookedUp(db, team))) <==>
      (PriceShift(price, db, CreateSolve, challenge) == 0
       || forall u :: Listed(db, u, None) && db.teams[u].bracket.Some? && TimesSolved(db.solves, u, challenge, None) > 0
            ==> db.teams[u].bracket == LookedUp(db, team))
  {
    SolveRestoredIff(price, db, CreateSolve, team, challenge, at, LookedUp(db, team));
    NotSolvedNotCounted(db.solves, team, challenge, None);
    forall u | Listed(db, u, None) && db.teams[u].bracket.Some?
      ensures MovesBracketLine(price, db, CreateSolve, team, challenge, at, LookedUp(db, team), u)
        <==> (PriceShift(price, db, CreateSolve, challenge) != 0 && TimesSolved(db.solves, u, challenge, None) > 0
              && db.teams[u].bracket != LookedUp(db, team))
    {
      if u != team {
        OthersMoveLive(price, db, CreateSolve, team, challenge, at, u);
      }
    }
    hide MovesBracketLine, LineMoves, PriceShift, TimesSolved, Restores, LookedUp;
    MoversAreListed(price, db, CreateSolve, team, challenge, at, LookedUp(db, team));
  }

  lemma MoversAreListed(price: Price, db: Db, path: Path, team: string, challenge: string, at: int, dropped: Option<string>)
    requires challenge in db.challenges
    ensures forall u ::
      MovesBracketLine(price, db, path, team, challenge, at, dropped, u) ==> Listed(db, u, None) && db.teams[u].bracket.Some?
  {
  }

  /** ChallengeUseCase.SubmitFlag drops only the overall boards. That restores coherence exactly when the
      solving team is unlisted or in no bracket or the solve does not show in its line, and the price stays
      or no other listed team in a bracket has solved the challenge. */
  lemma SubmitFlagRestoredIff(price: Price, db: Db, team: string, challenge: string, at: int)
    requires RecordSolve(price, db, SubmitFlag, team, challenge, at).Ok?
    ensures Restores(db, Recorded(price, db, SubmitFlag, team, challenge, at), OVERALL_KEYS) <==>
      && (Listed(db, team, None) && db.teams[team].bracket.Some? ==>
            && !Shows(price, db, SubmitFlag, team, challenge, at, None)
            && !Shows(price, db, SubmitFlag, team, challenge, at, CutoffOf(db, Frozen)))
      && (PriceShift(price, db, SubmitFlag, challenge) == 0
          || forall u :: Listed(db, u, None) && TimesSolved(db.solves, u, challenge, None) > 0
               ==> db.teams[u].bracket.None?)
  {
    assert TeamKeys(None) == OVERALL_KEYS;
    SolveRestoredIff(price, db, SubmitFlag, team, challenge, at, None);
    NotSolvedNotCounted(db.solves, team, challenge, None);
    forall u | Listed(db, u, None) && db.teams[u].bracket.Some? && u != team
      ensures MovesBracketLine(price, db, SubmitFlag, team, challenge, at, None, u)
        <==> (PriceShift(price, db, SubmitFlag, challenge) != 0 && TimesSolved(db.solves, u, challenge, None) > 0)
    {
      OthersMoveLive(price, db, SubmitFlag, team, challenge, at, u);
    }
    SolverMoves(price, db, SubmitFlag, team, challenge, at);
    hide MovesBracketLine, LineMoves, PriceShift, TimesSolved, Restores, Shows;
    MoversAreListed(price, db, SubmitFlag, team, challenge, at, None);
  }

  lemma SolverMoves(price: Price, db: Db, path: Path, team: string, challenge: string, at: int)
    requires challenge in db.challenges
    ensures MovesBracketLine(price, db, path, team, challenge, at, None, team) <==>
      && Listed(db, team, None) && db.teams[team].bracket.Some?
      && (Shows(price, db, path, team, challenge, at, None) || Shows(price, db, path, team, challenge, at, CutoffOf(db, Frozen)))
  {
  }

  // ---- an award or a charged hint ---------------------------------------------------------------

  function Awarded(db: Db, award: Award): Db {
    db.(awards := db.awards + [award])
  }

  lemma AwardMovesLine(db: Db, award: Award, u: string, cutoff: Option<int>)
    requires u in db.teams && award.value != 0
    ensures RowOf(Awarded(db, award), u, cutoff) != RowOf(db, u, cutoff) <==> u == award.team && Within(award.at, cutoff)
  {
    assert Awarded(db, award).awards[..|db.awards|] == db.awards;
  }

  /** AwardUseCase.Create and HintUseCase.UnlockHint drop only the overall boards: enough exactly when
      the team is unlisted or in no bracket. */
  lemma AwardRestoredIff(db: Db, award: Award)
    requires award.value != 0 && award.team in db.teams
    ensures Restores(db, Awarded(db, award), OVERALL_KEYS) <==>
      (Listed(db, award.team, None) ==> db.teams[award.team].bracket.None?)
  {
    var db' := Awarded(db, award);
    RestoresIff(db, db', OVERALL_KEYS);
    if Listed(db, award.team, None) && db.teams[award.team].bracket.Some? {
      var id := Bracket(db.teams[award.team].bracket.value);
      DroppedIff(id, None);
      BoardsEqualIff(db', db, BracketOf(id), BracketOf(id), None, None);
      AwardMovesLine(db, award, award.team, None);
      assert Listed(db, award.team, BracketOf(id)) && Listed(db', award.team, BracketOf(id));
    } else {
      forall id | Key(id) !in OVERALL_KEYS ensures LoadBoard(db', id) == LoadBoard(db, id) {
        DroppedIff(id, None);
        var cutoff := CutoffOf(db, id);
        BoardsEqualIff(db', db, BracketOf(id), BracketOf(id), cutoff, cutoff);
        forall u | Listed(db, u, BracketOf(id)) ensures RowOf(db', u, cutoff) == RowOf(db, u, cutoff) {
          AwardMovesLine(db, award, u, cutoff);
        }
      }
    }
  }

  // ---- through the cache, over interleavings --------------------------------------------------------

  /** The loader GetOrLoad runs for a key. */
  function BoardLoader(key: string, db: Db): Board {
    match BoardOfKey(key)
    case Some(id) => LoadBoard(db, id)
    case None => map[]
  }

  ghost predicate NoWrites(run: seq<CP.Step<Db>>) {
    forall i :: 0 <= i < |run| ==> !run[i].Write?
  }

  /** The cache answers for board `id` only with that board as it is in `db`. */
  ghost predicate BoardCurrent(s: CP.State<Db, Board>, db: Db, id: BoardId) {
    CF.CurrentAt(BoardLoader, s, Key(id), LoadBoard(db, id))
  }

  /** A drop of `keys` after the change from `db` to `db'` takes care of board `id`. */
  ghost predicate Covers(keys: set<string>, db: Db, db': Db, id: BoardId) {
    Key(id) in keys || LoadBoard(db', id) == LoadBoard(db, id)
  }

  /** No open flight on a dropped board carries an older one. */
  ghost predicate NoOlderFlight(s: CP.State<Db, Board>, keys: set<string>, db': Db, id: BoardId) {
    Key(id) in keys && Key(id) in s.flights && CF.CarriesData(s.flights[Key(id)].phase) ==>
      s.flights[Key(id)].phase.data == LoadBoard(db', id)
  }

  /** The state in which the database has just been changed. */
  ghost function Written(s: CP.State<Db, Board>, db': Db): (w: CP.State<Db, Board>)
    requires s.source != []
    ensures w.source != []
  {
    CP.Next(BoardLoader, s, CP.Write(db'))
  }

  ghost function Dropped(s: CP.State<Db, Board>, keys: set<string>): (d: CP.State<Db, Board>)
    requires s.source != []
    ensures d.source != []
  {
    CP.Next(BoardLoader, s, CP.Del(keys))
  }

  /** Any traffic but writes. */
  ghost predicate Traffic(s: CP.State<Db, Board>, run: seq<CP.Step<Db>>)
    requires s.source != []
  {
    CP.IsRun(BoardLoader, s, run) && NoWrites(run)
  }

  ghost function Later(s: CP.State<Db, Board>, run: seq<CP.Step<Db>>): (t: CP.State<Db, Board>)
    requires s.source != [] && Traffic(s, run)
    ensures t.source != []
  {
    CP.After(BoardLoader, s, run)
  }

  /** The cache protocol has come to a state in which the database is `db`. */
  ghost predicate IsAt(s: CP.State<Db, Board>, db: Db) {
    CI.Inv(BoardLoader, s) && s.source != [] && s.source[CP.Version(s)] == db
  }

  lemma WrittenIsAt(s: CP.State<Db, Board>, db': Db)
    requires CI.Inv(BoardLoader, s) && s.source != []
    ensures IsAt(Written(s, db'), db')
  {
    CI.StepKeepsInv(BoardLoader, s, CP.Write(db'));
    hide CI.Inv;
  }

  lemma DroppedIsAt(s: CP.State<Db, Board>, keys: set<string>, db: Db)
    requires IsAt(s, db)
    ensures IsAt(Dropped(s, keys), db)
  {
    CI.StepKeepsInv(BoardLoader, s, CP.Del(keys));
    hide CI.Inv;
  }

  lemma LaterIsAt(s: CP.State<Db, Board>, run: seq<CP.Step<Db>>, db: Db)
    requires IsAt(s, db) && Traffic(s, run)
    ensures IsAt(Later(s, run), db)
  {
    hide CI.Inv, CP.IsRun, CP.After;
    CI.RunKeepsInv(BoardLoader, s, run);
    CF.NoWriteNoVersion(BoardLoader, s, run);
  }

  /** A board is answered currently through any traffic. */
  lemma StaysCurrent(s: CP.State<Db, Board>, run: seq<CP.Step<Db>>, db: Db, id: BoardId)
    requires IsAt(s, db) && Traffic(s, run) && BoardCurrent(s, db, id)
    ensures BoardCurrent(Later(s, run), db, id) && CF.AnswersAre(Later(s, run), Key(id), LoadBoard(db, id), s.now)
  {
    hide CI.Inv, CP.IsRun, CP.After, LoadBoard, BoardLoader, CF.CurrentAt;
    CF.NoAnswersYet(BoardLoader, s, Key(id), LoadBoard(db, id));
    CF.RunKeepsCurrent(BoardLoader, s, run, Key(id), LoadBoard(db, id), s.now);
  }

  lemma DropMakesCurrent(s: CP.State<Db, Board>, keys: set<string>, db: Db, id: BoardId)
    requires IsAt(s, db)
    requires (Key(id) in keys && NoOlderFlight(s, keys, db, id)) || BoardCurrent(s, db, id)
    ensures BoardCurrent(Dropped(s, keys), db, id) && Dropped(s, keys).now == s.now + 1
  {
    LoaderLoads(id, db);
    CF.AfterDel(BoardLoader, s, keys);
    hide CI.Inv, LoadBoard, BoardLoader;
  }

  lemma WriteLeavesCurrent(s: CP.State<Db, Board>, db': Db, id: BoardId)
    requires s.source != [] && BoardCurrent(s, s.source[CP.Version(s)], id)
    requires LoadBoard(db', id) == LoadBoard(s.source[CP.Version(s)], id)
    ensures BoardCurrent(Written(s, db'), db', id)
  {
    LoaderLoads(id, db');
    hide LoadBoard, BoardLoader;
    CF.StepKeepsCurrent(BoardLoader, s, CP.Write(db'), Key(id), LoadBoard(db', id));
  }

  /** The source is changed, any calls, loads, expiries and Dels follow, then `keys` are dropped, and any
      but writes follow again. A board the cache answered currently before is answered currently again if
      its key was dropped while no flight on it carried an older board, or the change left it alone; all
      answers after the drop are current. */
  lemma BoardIsCurrentAgain(s: CP.State<Db, Board>, db': Db, before: seq<CP.Step<Db>>, keys: set<string>,
                            after: seq<CP.Step<Db>>, id: BoardId)
    requires CI.Inv(BoardLoader, s) && s.source != []
    requires BoardCurrent(s, s.source[CP.Version(s)], id) && Covers(keys, s.source[CP.Version(s)], db', id)
    requires Traffic(Written(s, db'), before) && NoOlderFlight(Later(Written(s, db'), before), keys, db', id)
    requires Traffic(Dropped(Later(Written(s, db'), before), keys), after)
    ensures
      var d := Later(Written(s, db'), before);
      var end := Later(Dropped(d, keys), after);
      && BoardCurrent(end, db', id)
      && CF.AnswersAre(end, Key(id), LoadBoard(db', id), d.now + 1)
  {
    var w := Written(s, db');
    WrittenIsAt(s, db');
    LaterIsAt(w, before, db');
    var d := Later(w, before);
    hide CI.Inv, IsAt, Traffic, BoardCurrent, Written, Dropped, Later, LoadBoard;
    if Key(id) !in keys {
      WriteLeavesCurrent(s, db', id);
      StaysCurrent(w, before, db', id);
    }
    DropMakesCurrent(d, keys, db', id);
    DroppedIsAt(d, keys, db');
    StaysCurrent(Dropped(d, keys), after, db', id);
  }

  /** InvalidateForTeam as it is: the overall boards are dropped, the bracket is looked up amid any traffic,
      and then the bracket's boards are dropped. Each board is current again if it is one of the four and no
      flight carried an older one when it was dropped, or if the change left it alone. */
  lemma BoardIsCurrentAfterBoth(s: CP.State<Db, Board>, db': Db, before: seq<CP.Step<Db>>, between: seq<CP.Step<Db>>,
                                bracket: Option<string>, after: seq<CP.Step<Db>>, id: BoardId)
    requires CI.Inv(BoardLoader, s) && s.source != []
    requires BoardCurrent(s, s.source[CP.Version(s)], id)
    requires Covers(TeamKeys(bracket), s.source[CP.Version(s)], db', id)
    requires Traffic(Written(s, db'), before) && NoOlderFlight(Later(Written(s, db'), before), OVERALL_KEYS, db', id)
    requires
      var d := Dropped(Later(Written(s, db'), before), OVERALL_KEYS);
      && Traffic(d, between) && NoOlderFlight(Later(d, between), BracketKeys(bracket), db', id)
      && Traffic(Dropped(Later(d, between), BracketKeys(bracket)), after)
    ensures
      var d := Later(Dropped(Later(Written(s, db'), before), OVERALL_KEYS), between);
      var end := Later(Dropped(d, BracketKeys(bracket)), after);
      && BoardCurrent(end, db', id)
      && CF.AnswersAre(end, Key(id), LoadBoard(db', id), d.now + 1)
  {
    var first := Later(Written(s, db'), before);
    var e := Dropped(first, OVERALL_KEYS);
    WrittenIsAt(s, db');
    LaterIsAt(Written(s, db'), before, db');
    DroppedIsAt(first, OVERALL_KEYS, db');
    LaterIsAt(e, between, db');
    DroppedIsAt(Later(e, between), BracketKeys(bracket), db');
    hide CI.Inv, IsAt, Traffic, BoardCurrent, Written, Dropped, Later, LoadBoard, NoOlderFlight, BracketKeys;
    if Key(id) !in BracketKeys(bracket) {
      if Key(id) in OVERALL_KEYS {
        DropMakesCurrent(first, OVERALL_KEYS, db', id);
        StaysCurrent(e, between, db', id);
      } else {
        BoardIsCurrentAgain(s, db', before, OVERALL_KEYS, between, id);
      }
    }
    DropMakesCurrent(Later(e, between), BracketKeys(bracket), db', id);
    StaysCurrent(Dropped(Later(e, between), BracketKeys(bracket)), after, db', id);
  }

  /** And the four are enough when one team's line is all that changed, with the bracket looked up after. */
  lemma TeamKeysCover(db: Db, db': Db, team: string, id: BoardId)
    requires OnlyLineOf(team, db, db')
    ensures Covers(TeamKeys(LookedUp(db', team)), db, db', id)
  {
    DroppedIff(id, LookedUp(db', team));
    if Key(id) !in TeamKeys(LookedUp(db', team)) {
      var cutoff := CutoffOf(db, id);
      BoardsEqualIff(db', db, BracketOf(id), BracketOf(id), cutoff, cutoff);
    }
  }

  /** So every board is current again after a change of one team's line and its InvalidateForTeam. */
  lemma InvalidateForTeamMakesCurrent(s: CP.State<Db, Board>, db': Db, team: string, before: seq<CP.Step<Db>>,
                                      between: seq<CP.Step<Db>>, after: seq<CP.Step<Db>>, id: BoardId)
    requires CI.Inv(BoardLoader, s) && s.source != []
    requires BoardCurrent(s, s.source[CP.Version(s)], id) && OnlyLineOf(team, s.source[CP.Version(s)], db')
    requires Traffic(Written(s, db'), before) && NoOlderFlight(Later(Written(s, db'), before), OVERALL_KEYS, db', id)
    requires
      var d := Dropped(Later(Written(s, db'), before), OVERALL_KEYS);
      var keys := BracketKeys(LookedUp(db', team));
      Traffic(d, between) && NoOlderFlight(Later(d, between), keys, db', id) && Traffic(Dropped(Later(d, between), keys), after)
    ensures
      var d := Later(Dropped(Later(Written(s, db'), before), OVERALL_KEYS), between);
      var end := Later(Dropped(d, BracketKeys(LookedUp(db', team))), after);
      && BoardCurrent(end, db', id)
      && CF.AnswersAre(end, Key(id), LoadBoard(db', id), d.now + 1)
  {
    var db := s.source[CP.Version(s)];
    hide *;
    TeamKeysCover(db, db', team, id);
    BoardIsCurrentAfterBoth(s, db', before, between, LookedUp(db', team), after, id);
  }

  lemma LoaderLoads(id: BoardId, db: Db)
    ensures BoardLoader(Key(id), db) == LoadBoard(db, id)
  {
    KeysAreReadBack(id);
  }
}
