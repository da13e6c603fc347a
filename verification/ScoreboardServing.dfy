/** What GetScoreboard (backend/internal/usecase/competition/solve.go) serves, under which key, and what the
    lines of a board add up to, in terms of the tables, the freeze time and the clock. */
module ScoreboardServing {
  import opened Prelude
  import opened ScoreboardKeys
  import opened Scoreboard
  import opened ScoreboardCoherence

  // ---- the points of a line -----------------------------------------------------------------------------------

  /** One more award adds its value, negative for a charged hint, to the line of its team where it is within the
      cutoff, and nothing to any other. */
  lemma AwardAddsItsValue(db: Db, a: Award, u: string, cutoff: Option<int>)
    requires u in db.teams
    ensures
      var line, line' := RowOf(db, u, cutoff), RowOf(Awarded(db, a), u, cutoff);
      && line'.points == line.points + (if a.team == u && (cutoff.None? || a.at <= cutoff.value) then a.value else 0)
      && line'.name == line.name && line'.lastSolved == line.lastSolved
  {
    assert Awarded(db, a).awards[..|db.awards|] == db.awards;
  }

  /** One more solve adds what its challenge costs, and is the last solve if it is later. */
  lemma SolveAddsItsPoints(db: Db, s: Solve, u: string, cutoff: Option<int>)
    requires u in db.teams
    ensures
      var line, line' := RowOf(db, u, cutoff), RowOf(db.(solves := db.solves + [s]), u, cutoff);
      && line'.name == line.name
      && (if s.team == u && s.challenge in db.challenges && (cutoff.None? || s.at <= cutoff.value) then
            && line'.points == line.points + db.challenges[s.challenge].points
            && line'.lastSolved == (if line.lastSolved.Some? && s.at <= line.lastSolved.value then line.lastSolved else Some(s.at))
          else line' == line)
  {
    assert (db.solves + [s])[..|db.solves|] == db.solves;
  }

  lemma {:induction false} NoSolvesNoPoints(challenges: map<string, Challenge>, solves: seq<Solve>, u: string, cutoff: Option<int>)
    requires forall s :: s in solves ==> !(s.team == u && s.challenge in challenges && (cutoff.None? || s.at <= cutoff.value))
    ensures SolvePoints(challenges, solves, u, cutoff) == 0 && LastSolved(challenges, solves, u, cutoff) == None
    decreases |solves|
  {
    if solves != [] {
      assert solves[|solves| - 1] in solves;
      NoSolvesNoPoints(challenges, solves[..|solves| - 1], u, cutoff);
    }
  }

  lemma {:induction false} NoAwardsNoPoints(awards: seq<Award>, u: string, cutoff: Option<int>)
    requires forall a :: a in awards ==> !(a.team == u && (cutoff.None? || a.at <= cutoff.value))
    ensures AwardPoints(awards, u, cutoff) == 0
    decreases |awards|
  {
    if awards != [] {
      assert awards[|awards| - 1] in awards;
      NoAwardsNoPoints(awards[..|awards| - 1], u, cutoff);
    }
  }

  /** And a team with none of either that counts has no points and no last solve. With the two above that is
      every line: the sum of its counted solves' points and its counted awards' values. */
  lemma NothingCountedIsZero(db: Db, u: string, cutoff: Option<int>)
    requires u in db.teams
    requires forall s :: s in db.solves ==> !(s.team == u && s.challenge in db.challenges && (cutoff.None? || s.at <= cutoff.value))
    requires forall a :: a in db.awards ==> !(a.team == u && (cutoff.None? || a.at <= cutoff.value))
    ensures RowOf(db, u, cutoff) == Row(db.teams[u].name, 0, None)
  {
    NoSolvesNoPoints(db.challenges, db.solves, u, cutoff);
    NoAwardsNoPoints(db.awards, u, cutoff);
  }

  // ---- who is on a board --------------------------------------------------------------------------------------

  /** A query lists exactly the teams of the bracket, or all, that are neither banned nor hidden nor deleted. */
  lemma QueryListsIff(db: Db, bracket: Option<string>, cutoff: Option<int>, t: string)
    ensures t in BoardFor(db, bracket, cutoff) <==>
      && t in db.teams && (bracket.Some? ==> db.teams[t].bracket == Some(bracket.value))
      && !db.teams[t].banned && !db.teams[t].hidden && !db.teams[t].deleted
    ensures t in BoardFor(db, bracket, cutoff) ==> BoardFor(db, bracket, cutoff)[t] == RowOf(db, t, cutoff)
  {
  }

  /** And so the four kinds of board; a frozen one without a freeze time is as of the zero time. */
  lemma BoardsAre(db: Db, b: string)
    ensures LoadBoard(db, Overall) == BoardFor(db, None, None)
    ensures LoadBoard(db, Bracket(b)) == BoardFor(db, Some(b), None)
    ensures db.freezeTime.Some? ==> LoadBoard(db, Frozen) == BoardFor(db, None, Some(db.freezeTime.value))
    ensures db.freezeTime.Some? ==> LoadBoard(db, BracketFrozen(b)) == BoardFor(db, Some(b), Some(db.freezeTime.value))
    ensures db.freezeTime.None? ==> LoadBoard(db, Frozen) == BoardFor(db, None, Some(0))
    ensures db.freezeTime.None? ==> LoadBoard(db, BracketFrozen(b)) == BoardFor(db, Some(b), Some(0))
  {
  }

  // ---- the request --------------------------------------------------------------------------------------------

  /** When the freeze lies strictly before the clock the board as of the freeze is served, else the live one; for
      the bracket asked for, whatever its text. */
  lemma ServedBoardIs(db: Db, now: int, bracket: Option<string>)
    ensures db.freezeTime.Some? && db.freezeTime.value < now ==>
      LoadedBoard(db, now, bracket) == BoardFor(db, bracket, Some(db.freezeTime.value))
    ensures db.freezeTime.None? || now <= db.freezeTime.value ==>
      LoadedBoard(db, now, bracket) == BoardFor(db, bracket, None)
  {
  }

  /** And the key it is cached under. */
  lemma ServedKeyIs(freezeTime: Option<int>, now: int, bracket: Option<string>)
    ensures
      var frozen := freezeTime.Some? && freezeTime.value < now;
      var one := bracket.Some? && bracket.value != "00000000-0000-0000-0000-000000000000";
      var key := Key(RequestedBoard(freezeTime, now, bracket));
      && (one && frozen ==> key == "scoreboard:frozen:bracket:" + bracket.value)
      && (one && !frozen ==> key == "scoreboard:bracket:" + bracket.value)
      && (!one && frozen ==> key == "scoreboard:frozen")
      && (!one && !frozen ==> key == "scoreboard")
  {
  }

  lemma ServedLine(db: Db, now: int, bracket: Option<string>, u: string)
    requires db.freezeTime.Some? && db.freezeTime.value < now
    ensures u in LoadedBoard(db, now, bracket) <==> Listed(db, u, bracket)
    ensures u in LoadedBoard(db, now, bracket) ==>
      LoadedBoard(db, now, bracket)[u] == RowOf(db, u, Some(db.freezeTime.value))
  {
    ServedBoardIs(db, now, bracket);
    hide RowOf, LoadedBoard;
  }

  /** An award later than a past freeze is not served. */
  lemma LateAwardIsNotServed(db: Db, a: Award, now: int, bracket: Option<string>)
    requires db.freezeTime.Some? && db.freezeTime.value < now && db.freezeTime.value < a.at
    ensures LoadedBoard(Awarded(db, a), now, bracket) == LoadedBoard(db, now, bracket)
  {
    hide RowOf, LoadedBoard;
    forall u ensures u in LoadedBoard(Awarded(db, a), now, bracket) <==> u in LoadedBoard(db, now, bracket) {
      ServedLine(db, now, bracket, u);
      ServedLine(Awarded(db, a), now, bracket, u);
    }
    forall u | u in LoadedBoard(db, now, bracket)
      ensures LoadedBoard(Awarded(db, a), now, bracket)[u] == LoadedBoard(db, now, bracket)[u]
    {
      ServedLine(db, now, bracket, u);
      ServedLine(Awarded(db, a), now, bracket, u);
      AwardAddsItsValue(db, a, u, Some(db.freezeTime.value));
    }
  }

  /** Nor is a solve: all that shows of it, after a past freeze, is the new price of its challenge, for each time
      a team had solved that by the freeze. */
  lemma LateSolveOnlyReprices(price: Price, db: Db, path: Path, team: string, challenge: string, at: int,
                              now: int, bracket: Option<string>, u: string)
    requires RecordSolve(price, db, path, team, challenge, at).Ok?
    requires db.freezeTime.Some? && db.freezeTime.value < now && db.freezeTime.value < at
    ensures
      var db' := Recorded(price, db, path, team, challenge, at);
      && (u in LoadedBoard(db', now, bracket) <==> u in LoadedBoard(db, now, bracket))
      && (u in LoadedBoard(db, now, bracket) ==>
            var line, line' := LoadedBoard(db, now, bracket)[u], LoadedBoard(db', now, bracket)[u];
            var shift := db'.challenges[challenge].points - db.challenges[challenge].points;
            && line'.name == line.name && line'.lastSolved == line.lastSolved
            && line'.points == line.points + shift * TimesSolved(db.solves, u, challenge, Some(db.freezeTime.value)))
  {
    var db' := Recorded(price, db, path, team, challenge, at);
    RecordedIs(price, db, path, team, challenge, at);
    hide LoadedBoard, PriceShift, NewPoints, TimesSolved, RecordSolve, RowOf, Recorded;
    ServedLine(db, now, bracket, u);
    ServedLine(db', now, bracket, u);
    if u in db.teams {
      LateLine(price, db, path, team, challenge, at, u, db.freezeTime.value);
    }
  }

  lemma LateLine(price: Price, db: Db, path: Path, team: string, challenge: string, at: int, u: string, freeze: int)
    requires challenge in db.challenges && u in db.teams && freeze < at
    ensures
      var db' := Recorded(price, db, path, team, challenge, at);
      var line, line' := RowOf(db, u, Some(freeze)), RowOf(db', u, Some(freeze));
      var shift := db'.challenges[challenge].points - db.challenges[challenge].points;
      && line'.name == line.name && line'.lastSolved == line.lastSolved
      && line'.points == line.points + shift * TimesSolved(db.solves, u, challenge, Some(freeze))
  {
    RecordedLine(price, db, path, team, challenge, at, u, Some(freeze));
    ShiftIs(price, db, path, team, challenge, at);
    hide PriceShift, NewPoints, SolvePoints, LastSolved, TimesSolved, AwardPoints;
  }

  // ---- recording ----------------------------------------------------------------------------------------------

  /** A solve is recorded exactly when the challenge and the team exist and the team has not solved it before;
      which error comes otherwise depends on the path, since SubmitFlag looks for the solve first. */
  lemma RecordIff(price: Price, db: Db, path: Path, team: string, challenge: string, at: int)
    ensures
      var r := RecordSolve(price, db, path, team, challenge, at);
      var solved := exists s :: s in db.solves && s.team == team && s.challenge == challenge;
      && (r.Ok? <==> challenge in db.challenges && team in db.teams && !solved)
      && (r == Err(ErrAlreadySolved) <==> solved && (challenge in db.challenges || path == SubmitFlag))
      && (r == Err(ErrChallengeNotFound) <==> challenge !in db.challenges && !(solved && path == SubmitFlag))
      && (r == Err(ErrTeamNotFound) <==> challenge in db.challenges && !solved && team !in db.teams)
  {
    if s :| s in db.solves && s.team == team && s.challenge == challenge {
      var i :| 0 <= i < |db.solves| && db.solves[i] == s;
      assert HasSolved(db, team, challenge);
    }
  }

  /** What it writes: the solve, one more in the count, and the price of a decaying challenge for the new count.
      SubmitFlag leaves the price of one without an initial value, SolveUseCase.Create does not. */
  lemma RecordedIs(price: Price, db: Db, path: Path, team: string, challenge: string, at: int)
    requires challenge in db.challenges
    ensures
      var db', c := Recorded(price, db, path, team, challenge, at), db.challenges[challenge];
      var points := if c.decay > 0 && (c.initialValue > 0 || path == CreateSolve)
                    then price(c.initialValue, c.minValue, c.decay, c.solveCount + 1) else c.points;
      && db'.solves == db.solves + [Solve(team, challenge, at)]
      && db'.challenges == db.challenges[challenge := Challenge(points, c.initialValue, c.minValue, c.decay, c.solveCount + 1)]
      && db'.teams == db.teams && db'.awards == db.awards && db'.freezeTime == db.freezeTime
  {
  }
}
