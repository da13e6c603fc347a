/** The scoreboards: the rows the queries of backend/queries/solves.sql compute, the transaction that
    records a solve, and exactly which boards it changes. */
module Scoreboard {
  import opened Prelude
  import opened ScoreboardKeys

  datatype Team = Team(name: string, bracket: Option<string>, banned: bool, hidden: bool, deleted: bool)

  datatype Challenge = Challenge(points: int, initialValue: int, minValue: int, decay: int, solveCount: nat)

  datatype Solve = Solve(team: string, challenge: string, at: int)

  datatype Award = Award(team: string, value: int, at: int)

  /** The tables the boards are computed from, and the freeze time of the competition. Identifiers are
      the texts of UUIDs, times are instants. */
  datatype Db = Db(
    teams: map<string, Team>,
    challenges: map<string, Challenge>,
    solves: seq<Solve>,
    awards: seq<Award>,
    freezeTime: Option<int>)

  /** One line of a board. */
  datatype Row = Row(name: string, points: int, lastSolved: Option<int>)

  type Board = map<string, Row>

  predicate Within(at: int, cutoff: Option<int>) {
    cutoff.Some? ==> at <= cutoff.value
  }

  /** The solves joined with a challenge that still exists. */
  predicate Counts(challenges: map<string, Challenge>, s: Solve, team: string, cutoff: Option<int>) {
    s.team == team && s.challenge in challenges && Within(s.at, cutoff)
  }

  function PointsOf(challenges: map<string, Challenge>, s: Solve, team: string, cutoff: Option<int>): int {
    if Counts(challenges, s, team, cutoff) then challenges[s.challenge].points else 0
  }

  function SolvePoints(challenges: map<string, Challenge>, solves: seq<Solve>, team: string, cutoff: Option<int>): int {
    if solves == [] then 0
    else
      var s := solves[|solves| - 1];
      SolvePoints(challenges, solves[..|solves| - 1], team, cutoff) + PointsOf(challenges, s, team, cutoff)
  }

  function LastSolved(challenges: map<string, Challenge>, solves: seq<Solve>, team: string, cutoff: Option<int>): Option<int> {
    if solves == [] then None
    else
      var s := solves[|solves| - 1];
      var before := LastSolved(challenges, solves[..|solves| - 1], team, cutoff);
      if Counts(challenges, s, team, cutoff) && (before.None? || before.value < s.at) then Some(s.at) else before
  }

  function AwardPoints(awards: seq<Award>, team: string, cutoff: Option<int>): int {
    if awards == [] then 0
    else
      var a := awards[|awards| - 1];
      AwardPoints(awards[..|awards| - 1], team, cutoff)
      + (if a.team == team && Within(a.at, cutoff) then a.value else 0)
  }

  function RowOf(db: Db, team: string, cutoff: Option<int>): Row
    requires team in db.teams
  {
    Row(db.teams[team].name,
        SolvePoints(db.challenges, db.solves, team, cutoff) + AwardPoints(db.awards, team, cutoff),
        LastSolved(db.challenges, db.solves, team, cutoff))
  }

  predicate Visible(t: Team) {
    !t.banned && !t.hidden && !t.deleted
  }

  predicate Listed(db: Db, team: string, bracket: Option<string>) {
    team in db.teams && Visible(db.teams[team]) && (bracket.Some? ==> db.teams[team].bracket == bracket)
  }

  function BoardFor(db: Db, bracket: Option<string>, cutoff: Option<int>): Board {
    map team | team in db.teams && Listed(db, team, bracket) :: RowOf(db, team, cutoff)
  }

  function BracketOf(id: BoardId): Option<string> {
    match id
    case Overall => None
    case Frozen => None
    case Bracket(b) => Some(b)
    case BracketFrozen(b) => Some(b)
  }

  /** The zero time.Time stands in for a missing freeze time. */
  const ZERO_TIME: int := 0

  function CutoffOf(db: Db, id: BoardId): Option<int> {
    if id.Frozen? || id.BracketFrozen?
    then Some(if db.freezeTime.Some? then db.freezeTime.value else ZERO_TIME)
    else None
  }

  function LoadBoard(db: Db, id: BoardId): Board {
    BoardFor(db, BracketOf(id), CutoffOf(db, id))
  }

  // ---- reading a board ----------------------------------------------------------------------------

  const NIL_UUID := "00000000-0000-0000-0000-000000000000"

  /** The board whose key a request uses: the nil UUID counts as no bracket. */
  function RequestedBoard(freezeTime: Option<int>, now: int, bracket: Option<string>): BoardId {
    var frozen := freezeTime.Some? && freezeTime.value < now;
    if bracket.None? || bracket.value == NIL_UUID
    then if frozen then Frozen else Overall
    else if frozen then BracketFrozen(bracket.value) else Bracket(bracket.value)
  }

  /** What the loader of that request computes: it passes the bracket on as it came. */
  function LoadedBoard(db: Db, now: int, bracket: Option<string>): Board {
    var id := RequestedBoard(db.freezeTime, now, bracket);
    BoardFor(db, bracket, CutoffOf(db, id))
  }

  lemma BoardsEqualIff(db: Db, db': Db, bracket: Option<string>, bracket': Option<string>, cutoff: Option<int>, cutoff': Option<int>)
    ensures BoardFor(db, bracket, cutoff) == BoardFor(db', bracket', cutoff') <==>
      forall t :: (Listed(db, t, bracket) <==> Listed(db', t, bracket'))
        && (Listed(db, t, bracket) && Listed(db', t, bracket') ==> RowOf(db, t, cutoff) == RowOf(db', t, cutoff'))
  {
    var x, y := BoardFor(db, bracket, cutoff), BoardFor(db', bracket', cutoff');
    assert forall t :: t in x <==> Listed(db, t, bracket);
    assert forall t :: t in y <==> Listed(db', t, bracket');
    if x == y {
      forall t | Listed(db, t, bracket) && Listed(db', t, bracket')
        ensures RowOf(db, t, cutoff) == RowOf(db', t, cutoff')
      {
        assert x[t] == y[t];
      }
    }
  }

  /** A request stores, under its board's key, that board: for every request but one for the nil UUID
      while some listed team is not in a bracket of that name. */
  lemma RequestLoadsItsBoardIff(db: Db, now: int, bracket: Option<string>)
    ensures LoadedBoard(db, now, bracket) == LoadBoard(db, RequestedBoard(db.freezeTime, now, bracket)) <==>
      (bracket == Some(NIL_UUID) ==> forall t :: Listed(db, t, None) ==> db.teams[t].bracket == bracket)
  {
    var id := RequestedBoard(db.freezeTime, now, bracket);
    var cutoff := CutoffOf(db, id);
    BoardsEqualIff(db, db, bracket, BracketOf(id), cutoff, cutoff);
    if bracket == Some(NIL_UUID) {
      forall t | Listed(db, t, None) ensures Listed(db, t, bracket) <==> db.teams[t].bracket == bracket {
      }
    }
  }

  // ---- the tables have no order ---------------------------------------------------------------------

  lemma PointsGrow(challenges: map<string, Challenge>, solves: seq<Solve>, s: Solve, team: string, cutoff: Option<int>)
    ensures SolvePoints(challenges, solves + [s], team, cutoff)
      == SolvePoints(challenges, solves, team, cutoff) + PointsOf(challenges, s, team, cutoff)
  {
    assert (solves + [s])[..|solves|] == solves;
  }

  lemma {:induction false} PointsWithout(challenges: map<string, Challenge>, solves: seq<Solve>, team: string, cutoff: Option<int>, i: nat)
    requires i < |solves|
    ensures SolvePoints(challenges, solves, team, cutoff)
      == SolvePoints(challenges, solves[..i] + solves[i + 1..], team, cutoff) + PointsOf(challenges, solves[i], team, cutoff)
    decreases |solves|
  {
    hide SolvePoints, PointsOf;
    var n := |solves| - 1;
    assert solves == solves[..n] + [solves[n]];
    PointsGrow(challenges, solves[..n], solves[n], team, cutoff);
    if i < n {
      PointsWithout(challenges, solves[..n], team, cutoff, i);
      var rest := solves[..n][..i] + solves[..n][i + 1..];
      assert solves[..i] + solves[i + 1..] == rest + [solves[n]];
      PointsGrow(challenges, rest, solves[n], team, cutoff);
    } else {
      assert solves[..i] + solves[i + 1..] == solves[..n];
    }
  }

  /** The last solve time is the greatest of the counted ones. */
  lemma {:induction false} LastSolvedIsGreatest(challenges: map<string, Challenge>, solves: seq<Solve>, team: string, cutoff: Option<int>)
    ensures
      var last := LastSolved(challenges, solves, team, cutoff);
      && (forall s :: s in solves && Counts(challenges, s, team, cutoff) ==> last.Some? && s.at <= last.value)
      && (last.Some? ==> exists s :: s in solves && Counts(challenges, s, team, cutoff) && s.at == last.value)
    decreases |solves|
  {
    if solves != [] {
      var n := |solves| - 1;
      LastSolvedIsGreatest(challenges, solves[..n], team, cutoff);
      assert solves == solves[..n] + [solves[n]];
      assert solves[n] in solves;
    }
  }

  lemma TakenOut(solves: seq<Solve>, i: nat)
    requires i < |solves|
    ensures multiset(solves) == multiset(solves[..i] + solves[i + 1..]) + multiset{solves[i]}
  {
    assert solves == solves[..i] + ([solves[i]] + solves[i + 1..]);
  }

  lemma CancelOne(a: multiset<Solve>, b: multiset<Solve>, x: Solve)
    requires a + multiset{x} == b + multiset{x}
    ensures a == b
  {
    assert a == (a + multiset{x}) - multiset{x};
    assert b == (b + multiset{x}) - multiset{x};
  }

  /** The same rows in another order: the last of one is somewhere in the other, and the rest agree. */
  lemma LastIsSomewhere(solves: seq<Solve>, solves': seq<Solve>) returns (i: nat)
    requires multiset(solves) == multiset(solves') && solves != []
    ensures i < |solves'| && solves'[i] == solves[|solves| - 1]
    ensures multiset(solves[..|solves| - 1]) == multiset(solves'[..i] + solves'[i + 1..])
  {
    var n := |solves| - 1;
    assert solves[n] in multiset(solves);
    i :| 0 <= i < |solves'| && solves'[i] == solves[n];
    TakenOut(solves, n);
    TakenOut(solves', i);
    assert solves[..n] + solves[n + 1..] == solves[..n];
    CancelOne(multiset(solves[..n]), multiset(solves'[..i] + solves'[i + 1..]), solves[n]);
  }

  lemma {:induction false} PointsIgnoreOrder(challenges: map<string, Challenge>, solves: seq<Solve>, solves': seq<Solve>,
                                             team: string, cutoff: Option<int>)
    requires multiset(solves) == multiset(solves')
    ensures SolvePoints(challenges, solves, team, cutoff) == SolvePoints(challenges, solves', team, cutoff)
    decreases |solves|
  {
    if solves == [] {
      assert |multiset(solves')| == |solves'|;
    } else {
      var i := LastIsSomewhere(solves, solves');
      var n := |solves| - 1;
      PointsIgnoreOrder(challenges, solves[..n], solves'[..i] + solves'[i + 1..], team, cutoff);
      PointsWithout(challenges, solves', team, cutoff, i);
      PointsGrow(challenges, solves[..n], solves[n], team, cutoff);
      assert solves == solves[..n] + [solves[n]];
      hide SolvePoints, PointsOf;
    }
  }

  lemma LastSolvedIgnoresOrder(challenges: map<string, Challenge>, solves: seq<Solve>, solves': seq<Solve>,
                               team: string, cutoff: Option<int>)
    requires multiset(solves) == multiset(solves')
    ensures LastSolved(challenges, solves, team, cutoff) == LastSolved(challenges, solves', team, cutoff)
  {
    LastSolvedIsGreatest(challenges, solves, team, cutoff);
    LastSolvedIsGreatest(challenges, solves', team, cutoff);
    assert forall s :: s in solves <==> s in multiset(solves);
    assert forall s :: s in solves' <==> s in multiset(solves');
    hide LastSolved;
  }

  /** A board does not depend on the order of the rows in the solves table. */
  lemma BoardsIgnoreOrder(db: Db, solves: seq<Solve>, id: BoardId)
    requires multiset(solves) == multiset(db.solves)
    ensures LoadBoard(db.(solves := solves), id) == LoadBoard(db, id)
  {
    var db', cutoff := db.(solves := solves), CutoffOf(db, id);
    BoardsEqualIff(db', db, BracketOf(id), BracketOf(id), cutoff, cutoff);
    forall t | Listed(db, t, BracketOf(id)) ensures RowOf(db', t, cutoff) == RowOf(db, t, cutoff) {
      PointsIgnoreOrder(db.challenges, db.solves, solves, t, cutoff);
      LastSolvedIgnoresOrder(db.challenges, db.solves, solves, t, cutoff);
    }
  }

  // ---- recording a solve --------------------------------------------------------------------------

  /** The two code paths that record a solve: ChallengeUseCase.SubmitFlag and SolveUseCase.Create. */
  datatype Path = SubmitFlag | CreateSolve

  datatype SolveError = ErrAlreadySolved | ErrChallengeNotFound | ErrTeamNotFound

  predicate HasSolved(db: Db, team: string, challenge: string) {
    exists i :: 0 <= i < |db.solves| && db.solves[i].team == team && db.solves[i].challenge == challenge
  }

  predicate IsDynamic(path: Path, c: Challenge) {
    c.decay > 0 && (path == SubmitFlag ==> c.initialValue > 0)
  }

  /** What CalculateDynamicScore computes from initial value, minimum, decay and solves. The theorems about
      boards hold whatever it computes, and so of its float64 arithmetic. */
  type Price = (int, int, int, int) -> int

  /** The price after one more solve. */
  function NewPoints(price: Price, path: Path, c: Challenge): int {
    if IsDynamic(path, c)
    then price(c.initialValue, c.minValue, c.decay, c.solveCount + 1)
    else c.points
  }

  function Recorded(price: Price, db: Db, path: Path, team: string, challenge: string, at: int): Db
    requires challenge in db.challenges
  {
    var c := db.challenges[challenge];
    db.(solves := db.solves + [Solve(team, challenge, at)],
        challenges := db.challenges[challenge := c.(points := NewPoints(price, path, c), solveCount := c.solveCount + 1)])
  }

  function RecordSolve(price: Price, db: Db, path: Path, team: string, challenge: string, at: int): Result<Db, SolveError> {
    if path == SubmitFlag && HasSolved(db, team, challenge) then Err(ErrAlreadySolved)
    else if challenge !in db.challenges then Err(ErrChallengeNotFound)
    else if HasSolved(db, team, challenge) then Err(ErrAlreadySolved)
    else if team !in db.teams then Err(ErrTeamNotFound)
    else Ok(Recorded(price, db, path, team, challenge, at))
  }

  /** How often a team's counted solves include this challenge. */
  function TimesSolved(solves: seq<Solve>, team: string, challenge: string, cutoff: Option<int>): nat {
    if solves == [] then 0
    else
      var s := solves[|solves| - 1];
      TimesSolved(solves[..|solves| - 1], team, challenge, cutoff)
      + (if s.team == team && s.challenge == challenge && Within(s.at, cutoff) then 1 else 0)
  }

  lemma {:induction false} PriceChangeMovesPoints(challenges: map<string, Challenge>, challenge: string, c: Challenge,
                                                  solves: seq<Solve>, team: string, cutoff: Option<int>)
    requires challenge in challenges
    ensures SolvePoints(challenges[challenge := c], solves, team, cutoff)
      == SolvePoints(challenges, solves, team, cutoff)
         + (c.points - challenges[challenge].points) * TimesSolved(solves, team, challenge, cutoff)
    ensures LastSolved(challenges[challenge := c], solves, team, cutoff) == LastSolved(challenges, solves, team, cutoff)
    decreases |solves|
  {
    if solves != [] {
      var n := |solves| - 1;
      PriceChangeMovesPoints(challenges, challenge, c, solves[..n], team, cutoff);
      if solves[n].team == team && solves[n].challenge == challenge && Within(solves[n].at, cutoff) {
        OneMore(c.points - challenges[challenge].points, TimesSolved(solves[..n], team, challenge, cutoff));
      }
    }
  }

  lemma OneMore(delta: int, n: nat)
    ensures delta * (n + 1) == delta * n + delta
  {
  }

  lemma {:induction false} NotSolvedNotCounted(solves: seq<Solve>, team: string, challenge: string, cutoff: Option<int>)
    requires forall i :: 0 <= i < |solves| ==> !(solves[i].team == team && solves[i].challenge == challenge)
    ensures TimesSolved(solves, team, challenge, cutoff) == 0
    decreases |solves|
  {
    if solves != [] {
      NotSolvedNotCounted(solves[..|solves| - 1], team, challenge, cutoff);
    }
  }

  lemma {:induction false} CutoffCountsFewer(solves: seq<Solve>, team: string, challenge: string, cutoff: Option<int>)
    ensures TimesSolved(solves, team, challenge, cutoff) <= TimesSolved(solves, team, challenge, None)
    decreases |solves|
  {
    if solves != [] {
      CutoffCountsFewer(solves[..|solves| - 1], team, challenge, cutoff);
    }
  }

  function PriceShift(price: Price, db: Db, path: Path, challenge: string): int
    requires challenge in db.challenges
  {
    NewPoints(price, path, db.challenges[challenge]) - db.challenges[challenge].points
  }

  /** The solve shows in the solver's line: it is within the cutoff, and worth points or the latest so far. */
  predicate Shows(price: Price, db: Db, path: Path, team: string, challenge: string, at: int, cutoff: Option<int>)
    requires challenge in db.challenges
  {
    var last := LastSolved(db.challenges, db.solves, team, cutoff);
    Within(at, cutoff) && (NewPoints(price, path, db.challenges[challenge]) != 0 || last.None? || last.value < at)
  }

  /** Exactly whose line a recorded solve changes: the solver's, if it shows there, and, if the price moved,
      that of every team with an earlier counted solve of the challenge. */
  predicate LineMoves(price: Price, db: Db, path: Path, team: string, challenge: string, at: int, u: string, cutoff: Option<int>)
    requires challenge in db.challenges
  {
    if u == team then Shows(price, db, path, team, challenge, at, cutoff)
    else PriceShift(price, db, path, challenge) != 0 && TimesSolved(db.solves, u, challenge, cutoff) > 0
  }

  lemma RecordedLine(price: Price, db: Db, path: Path, team: string, challenge: string, at: int, u: string, cutoff: Option<int>)
    requires challenge in db.challenges && u in db.teams
    ensures
      var db' := Recorded(price, db, path, team, challenge, at);
      var counts := u == team && Within(at, cutoff);
      var last := LastSolved(db.challenges, db.solves, u, cutoff);
      && SolvePoints(db'.challenges, db'.solves, u, cutoff)
        == SolvePoints(db.challenges, db.solves, u, cutoff)
           + PriceShift(price, db, path, challenge) * TimesSolved(db.solves, u, challenge, cutoff)
           + (if counts then NewPoints(price, path, db.challenges[challenge]) else 0)
      && LastSolved(db'.challenges, db'.solves, u, cutoff)
        == (if counts && (last.None? || last.value < at) then Some(at) else last)
  {
    var db' := Recorded(price, db, path, team, challenge, at);
    assert db'.solves[..|db'.solves| - 1] == db.solves;
    PriceChangeMovesPoints(db.challenges, challenge, db'.challenges[challenge], db.solves, u, cutoff);
    hide NewPoints, PriceShift;
    assert PriceShift(price, db, path, challenge) == db'.challenges[challenge].points - db.challenges[challenge].points by {
      ShiftIs(price, db, path, team, challenge, at);
    }
  }

  lemma ShiftIs(price: Price, db: Db, path: Path, team: string, challenge: string, at: int)
    requires challenge in db.challenges
    ensures PriceShift(price, db, path, challenge)
      == Recorded(price, db, path, team, challenge, at).challenges[challenge].points - db.challenges[challenge].points
  {
  }

  lemma SolveMovesLineIff(price: Price, db: Db, path: Path, team: string, challenge: string, at: int, u: string, cutoff: Option<int>)
    requires RecordSolve(price, db, path, team, challenge, at).Ok? && u in db.teams
    ensures RowOf(Recorded(price, db, path, team, challenge, at), u, cutoff) != RowOf(db, u, cutoff) <==>
      LineMoves(price, db, path, team, challenge, at, u, cutoff)
  {
    RecordedLine(price, db, path, team, challenge, at, u, cutoff);
    var shift, times := PriceShift(price, db, path, challenge), TimesSolved(db.solves, u, challenge, cutoff);
    if u == team {
      NotSolvedNotCounted(db.solves, team, challenge, cutoff);
    } else if times > 0 && shift != 0 {
      NonZeroProduct(shift, times);
    }
    hide SolvePoints, LastSolved, TimesSolved, PriceShift, NewPoints;
  }

  lemma NonZeroProduct(x: int, n: nat)
    requires x != 0 && n > 0
    ensures x * n != 0
  {
  }

  /** Exactly which boards a recorded solve changes. */
  lemma SolveMovesBoardIff(price: Price, db: Db, path: Path, team: string, challenge: string, at: int, id: BoardId)
    requires RecordSolve(price, db, path, team, challenge, at).Ok?
    ensures LoadBoard(Recorded(price, db, path, team, challenge, at), id) != LoadBoard(db, id) <==>
      exists u :: Listed(db, u, BracketOf(id)) && LineMoves(price, db, path, team, challenge, at, u, CutoffOf(db, id))
  {
    var db' := Recorded(price, db, path, team, challenge, at);
    var cutoff := CutoffOf(db, id);
    BoardsEqualIff(db', db, BracketOf(id), BracketOf(id), cutoff, cutoff);
    forall u ensures Listed(db', u, BracketOf(id)) == Listed(db, u, BracketOf(id)) {
    }
    forall u | Listed(db, u, BracketOf(id))
      ensures RowOf(db', u, cutoff) != RowOf(db, u, cutoff) <==> LineMoves(price, db, path, team, challenge, at, u, cutoff)
    {
      SolveMovesLineIff(price, db, path, team, challenge, at, u, cutoff);
    }
  }

  /** A board frozen before a solve still changes with it, exactly when the solve moved the price of a
      challenge that a listed team had solved by the freeze. */
  lemma FrozenBoardMovesIff(price: Price, db: Db, path: Path, team: string, challenge: string, at: int)
    requires RecordSolve(price, db, path, team, challenge, at).Ok?
    requires db.freezeTime.Some? && db.freezeTime.value < at
    ensures LoadBoard(Recorded(price, db, path, team, challenge, at), Frozen) != LoadBoard(db, Frozen) <==>
      (PriceShift(price, db, path, challenge) != 0
       && exists u :: Listed(db, u, None) && TimesSolved(db.solves, u, challenge, db.freezeTime) > 0)
  {
    SolveMovesBoardIff(price, db, path, team, challenge, at, Frozen);
    NotSolvedNotCounted(db.solves, team, challenge, db.freezeTime);
    if PriceShift(price, db, path, challenge) != 0 {
      forall u | Listed(db, u, None) && TimesSolved(db.solves, u, challenge, db.freezeTime) > 0
        ensures LineMoves(price, db, path, team, challenge, at, u, CutoffOf(db, Frozen))
      {
      }
    }
  }
}
