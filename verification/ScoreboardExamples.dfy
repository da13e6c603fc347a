/** Competitions, all reached from unsolved ones, in which a promise about the scoreboards fails: one
    for each of the conditions proved exact. */
module ScoreboardExamples {
  import opened Prelude
  import opened ScoreboardKeys
  import opened DynamicScoring
  import opened Scoreboard
  import opened ScoreboardCoherence
  import opened ScoreboardChanges
  import opened SolveLedger

  const FIXED := Challenge(100, 0, 0, 0, 0)
  const DECAYING := Challenge(500, 500, 100, 20, 0)
  const EDIT := EditChallenge("c", 10, 500, 100, 20)

  /** Team T is in bracket b and team U in bracket d; nothing has been solved. */
  function Opening(c: Challenge, freezeTime: Option<int>): Db {
    Db(map["t" := Team("T", Some("b"), false, false, false), "u" := Team("U", Some("d"), false, false, false)],
       map["c" := c], [], [], freezeTime)
  }

  function PriceOf(a: Arithmetic): Price {
    (initial, minScore, decay, solves) => CalculateDynamicScore(a, initial, minScore, decay, solves)
  }

  lemma TwoTeams()
    ensures "t" != "u" && "b" != "d"
  {
    assert "t"[0] != "u"[0] && "b"[0] != "d"[0];
  }

  /** Team T submits a flag, and its bracket's board is stale. */
  lemma SubmitFlagLeavesBracketStale(price: Price)
    ensures
      var db := Opening(FIXED, None);
      && Unsolved(db) && RecordSolve(price, db, SubmitFlag, "t", "c", 1).Ok?
      && !Restores(db, Recorded(price, db, SubmitFlag, "t", "c", 1), OVERALL_KEYS)
  {
    SubmitFlagRestoredIff(price, Opening(FIXED, None), "t", "c", 1);
  }

  /** Team U has solved the decaying challenge. */
  function SolvedOnce(price: Price, freezeTime: Option<int>): Db {
    ApplyAll(price, Opening(DECAYING, freezeTime), [Record(CreateSolve, "u", "c", 0)])
  }

  lemma FirstPrices(a: Arithmetic)
    requires IsFloat64(a)
    ensures CalculateDynamicScore(a, 500, 100, 20, 1) == 500 && CalculateDynamicScore(a, 500, 100, 20, 2) == 499
  {
    assert Squared(20) == 400 && Squared(1) == 1;
    assert Drop(400, 20, 1) == 1 && IsModest(500, 100, 20);
    hide IsFloat64, CalculateDynamicScore, Drop, Squared, IsModest;
    PriceFalls(a, 500, 100, 20, 1, 1);
    WholeQuotientIsExact(a, 500, 100, 20, 2);
  }

  lemma SolvedOnceIs(a: Arithmetic, freezeTime: Option<int>)
    requires IsFloat64(a)
    ensures Unsolved(Opening(DECAYING, freezeTime))
    ensures
      SolvedOnce(PriceOf(a), freezeTime)
        == Opening(DECAYING, freezeTime).(solves := [Solve("u", "c", 0)], challenges := map["c" := DECAYING.(solveCount := 1)])
    ensures PriceOf(a)(500, 100, 20, 2) == 499
  {
    FirstPrices(a);
    hide IsFloat64, CalculateDynamicScore;
    var op := Record(CreateSolve, "u", "c", 0);
    assert Init([op]) == [] && Last([op]) == op;
    assert ApplyAll(PriceOf(a), Opening(DECAYING, freezeTime), []) == Opening(DECAYING, freezeTime);
  }

  lemma USolvedIt(at: int, cutoff: Option<int>)
    requires Within(at, cutoff)
    ensures TimesSolved([Solve("u", "c", at)], "u", "c", cutoff) == 1
  {
    assert [Solve("u", "c", at)][..0] == [];
  }

  /** What holds then, for the next solve. */
  lemma AfterOneSolve(a: Arithmetic, freezeTime: Option<int>)
    requires IsFloat64(a) && Within(0, freezeTime)
    ensures
      var price, db := PriceOf(a), SolvedOnce(PriceOf(a), freezeTime);
      && RecordSolve(price, db, CreateSolve, "t", "c", 1).Ok? && PriceShift(price, db, CreateSolve, "c") == -1
      && Listed(db, "u", None) && db.teams["u"].bracket == Some("d") && LookedUp(db, "t") == Some("b")
      && TimesSolved(db.solves, "u", "c", None) == 1 && TimesSolved(db.solves, "u", "c", freezeTime) == 1
      && db.freezeTime == freezeTime && "c" in db.challenges
  {
    SolvedOnceIs(a, freezeTime);
    TwoTeams();
    USolvedIt(0, None);
    USolvedIt(0, freezeTime);
    hide IsFloat64, PriceOf, TimesSolved, SolvedOnce;
  }

  /** Then team T solves it, the price falls from 500 to 499, and the board of U's bracket is stale. */
  lemma CreateSolveLeavesOtherBracketStale(a: Arithmetic)
    requires IsFloat64(a)
    ensures
      var db := SolvedOnce(PriceOf(a), None);
      && RecordSolve(PriceOf(a), db, CreateSolve, "t", "c", 1).Ok?
      && !Restores(db, Recorded(PriceOf(a), db, CreateSolve, "t", "c", 1), TeamKeys(LookedUp(db, "t")))
  {
    AfterOneSolve(a, None);
    TwoTeams();
    hide IsFloat64, PriceOf, Restores, PriceShift, SolvedOnce, RecordSolve, Recorded, TimesSolved, LookedUp, Listed;
    CreateSolveRestoredIff(PriceOf(a), SolvedOnce(PriceOf(a), None), "t", "c", 1);
  }

  /** The board was frozen at 0, before T's solve, and moves with it. */
  lemma FrozenBoardMoves(a: Arithmetic)
    requires IsFloat64(a)
    ensures
      var db := SolvedOnce(PriceOf(a), Some(0));
      && RecordSolve(PriceOf(a), db, CreateSolve, "t", "c", 1).Ok? && db.freezeTime == Some(0)
      && LoadBoard(Recorded(PriceOf(a), db, CreateSolve, "t", "c", 1), Frozen) != LoadBoard(db, Frozen)
  {
    AfterOneSolve(a, Some(0));
    hide IsFloat64, PriceOf, LoadBoard, PriceShift, SolvedOnce, RecordSolve, Recorded, TimesSolved, LookedUp, Listed;
    FrozenBoardMovesIff(PriceOf(a), SolvedOnce(PriceOf(a), Some(0)), CreateSolve, "t", "c", 1);
  }

  /** The freeze is moved to before U's solve, and the frozen board is stale. */
  lemma MovedFreezeLeavesFrozenStale(a: Arithmetic)
    requires IsFloat64(a)
    ensures
      var db := SolvedOnce(PriceOf(a), Some(0));
      !Restores(db, Refrozen(db, Some(-1)), {})
  {
    SolvedOnceIs(a, Some(0));
    hide IsFloat64, PriceOf;
    var db := SolvedOnce(PriceOf(a), Some(0));
    assert Listed(db, "u", None) && Solve("u", "c", 0) in db.solves && Counts(db.challenges, Solve("u", "c", 0), "u", None);
    assert SolvedBetween(db.challenges, db.solves, "u", -1, 0);
    FreezeRestoredIff(db, Some(-1));
    hide Restores, SolvedBetween, SolvedOnce;
  }

  /** Team T is given ten points, and its bracket's board is stale. */
  lemma AwardLeavesBracketStale()
    ensures
      var db := Opening(FIXED, None);
      !Restores(db, Awarded(db, Award("t", 10, 1)), OVERALL_KEYS)
  {
    AwardRestoredIff(Opening(FIXED, None), Award("t", 10, 1));
  }

  /** Team T is moved to bracket d, and the boards of both brackets are stale. */
  lemma SetBracketLeavesBothStale()
    ensures
      var db := Opening(FIXED, None);
      var db' := Edited(db, "t", db.teams["t"].(bracket := Some("d")));
      && LoadBoard(db', Bracket("b")) != LoadBoard(db, Bracket("b"))
      && LoadBoard(db', Bracket("d")) != LoadBoard(db, Bracket("d"))
  {
    TwoTeams();
    SetBracketRestoredIff(Opening(FIXED, None), "t", Some("d"), Bracket("b"));
    SetBracketRestoredIff(Opening(FIXED, None), "t", Some("d"), Bracket("d"));
    hide LoadBoard;
  }

  /** A request for the nil UUID caches an empty board under the key of the overall one. */
  lemma NilRequestLoadsAnother(now: int)
    ensures
      var db := Opening(FIXED, None);
      && RequestedBoard(None, now, Some(NIL_UUID)) == Overall
      && LoadedBoard(db, now, Some(NIL_UUID)) != LoadBoard(db, Overall)
  {
    var db := Opening(FIXED, None);
    assert |"b"| != |NIL_UUID|;
    assert Listed(db, "t", None) && db.teams["t"].bracket != Some(NIL_UUID);
    RequestLoadsItsBoardIff(db, now, Some(NIL_UUID));
    hide LoadBoard, LoadedBoard;
  }

  /** Team T is banned, or disbanded, or its bracket is deleted, and its bracket's board is stale. */
  lemma TeamChangesLeaveStale()
    ensures
      var db := Opening(FIXED, None);
      && !Restores(db, Edited(db, "t", db.teams["t"].(banned := true, hidden := false)), OVERALL_KEYS)
      && !Restores(db, SoftDeleted(db, "t"), {}) && !Restores(db, CleanedUp(db, "t"), {})
      && !Restores(db, WithoutBracket(db, "b"), {})
  {
    var db := Opening(FIXED, None);
    assert Listed(db, "t", Some("b"));
    ModerationRestoredIff(db, "t", true, false);
    SoftDeleteRestoredIff(db, "t");
    BracketDeleteRestoredIff(db, "b");
    hide Restores;
  }

  lemma CountsMatchThen(a: Arithmetic)
    requires IsFloat64(a)
    ensures
      var db := SolvedOnce(PriceOf(a), None);
      CountsMatch(db) && SolveLedger.Inv(db) && IsActive(db, "u") && Solve("u", "c", 0) in db.solves
  {
    SolvedOnceIs(a, None);
    hide IsFloat64, PriceOf;
    var op := Record(CreateSolve, "u", "c", 0);
    assert Init([op]) == [];
    RunKeepsCountsIff(PriceOf(a), Opening(DECAYING, None), [op]);
    RunKeepsLedger(PriceOf(a), Opening(DECAYING, None), [op]);
    hide CountsMatch;
  }

  /** Team U solves, its solo team is cleaned up, and the count stays at one with no solve in the table. */
  lemma CleanupLeavesCount(a: Arithmetic)
    requires IsFloat64(a)
    ensures CountsMatch(SolvedOnce(PriceOf(a), None))
    ensures !CountsMatch(Apply(PriceOf(a), SolvedOnce(PriceOf(a), None), CleanUp("u")))
  {
    CountsMatchThen(a);
    StepKeepsCountsIff(PriceOf(a), SolvedOnce(PriceOf(a), None), CleanUp("u"));
    hide IsFloat64, PriceOf, CountsMatch, SolvedOnce, Apply;
  }

  /** Team U solves and is disbanded, which leaves its solve; the row is purged, and the count stays at one. */
  lemma PurgeLeavesCount(a: Arithmetic)
    requires IsFloat64(a)
    ensures
      var disbanded := Apply(PriceOf(a), SolvedOnce(PriceOf(a), None), Disband("u"));
      CountsMatch(disbanded) && !CountsMatch(Apply(PriceOf(a), disbanded, Purge({"u"})))
  {
    CountsMatchThen(a);
    var price, db := PriceOf(a), SolvedOnce(PriceOf(a), None);
    hide IsFloat64, PriceOf, CountsMatch, SolvedOnce;
    StepKeepsCountsIff(price, db, Disband("u"));
    StepKeepsLedger(price, db, Disband("u"));
    var disbanded := Apply(price, db, Disband("u"));
    assert "u" in DroppedTeams(disbanded, Purge({"u"})) && Solve("u", "c", 0) in disbanded.solves;
    StepKeepsCountsIff(price, disbanded, Purge({"u"}));
    hide Apply;
  }

  lemma PricesThen(a: Arithmetic)
    requires IsFloat64(a)
    ensures
      var db := SolvedOnce(PriceOf(a), None);
      && PricesFollowCounts(PriceOf(a), db) && PriceOf(a)(500, 100, 20, 1) == 500
      && db.challenges == map["c" := DECAYING.(solveCount := 1)]
  {
    FirstPrices(a);
    SolvedOnceIs(a, None);
    hide IsFloat64, CalculateDynamicScore, SolvedOnce;
  }

  lemma EditedThen(a: Arithmetic)
    requires IsFloat64(a)
    ensures
      var db, c := SolvedOnce(PriceOf(a), None), DECAYING.(solveCount := 1, points := 10);
      "c" in db.challenges && EditOf(db.challenges["c"], EDIT) == c && Apply(PriceOf(a), db, EDIT) == WithChallenge(db, "c", c)
  {
    PricesThen(a);
    hide IsFloat64, PriceOf, SolvedOnce, PricesFollowCounts;
  }

  lemma EditLeavesPrice(a: Arithmetic)
    requires IsFloat64(a)
    ensures
      var db := SolvedOnce(PriceOf(a), None);
      PricesFollowCounts(PriceOf(a), db) && !PricesFollowCounts(PriceOf(a), Apply(PriceOf(a), db, EDIT))
  {
    PricesThen(a);
    CountsMatchThen(a);
    EditedThen(a);
    hide IsFloat64, PriceOf, SolvedOnce, CountsMatch, SolveLedger.Inv, PricesFollowCounts, Apply, EditOf;
    StepKeepsPricesIff(PriceOf(a), SolvedOnce(PriceOf(a), None), EDIT);
  }

  lemma EditLeavesBracketStale(a: Arithmetic)
    requires IsFloat64(a)
    ensures !Restores(SolvedOnce(PriceOf(a), None), Apply(PriceOf(a), SolvedOnce(PriceOf(a), None), EDIT), OVERALL_KEYS)
  {
    AfterOneSolve(a, None);
    PricesThen(a);
    EditedThen(a);
    hide IsFloat64, PriceOf, SolvedOnce, PricesFollowCounts, Apply, EditOf, Restores, TimesSolved, PriceShift, RecordSolve, Listed, WithChallenge;
    ChallengeUpdateRestoredIff(SolvedOnce(PriceOf(a), None), "c", DECAYING.(solveCount := 1, points := 10));
  }

  /** The challenge team U has solved is edited to cost ten points: its price is not the formula's any more,
      and the board of U's bracket is stale. */
  lemma EditLeavesPriceAndBracketStale(a: Arithmetic)
    requires IsFloat64(a)
    ensures
      var db := SolvedOnce(PriceOf(a), None);
      && PricesFollowCounts(PriceOf(a), db) && !PricesFollowCounts(PriceOf(a), Apply(PriceOf(a), db, EDIT))
      && !Restores(db, Apply(PriceOf(a), db, EDIT), OVERALL_KEYS)
  {
    hide *;
    EditLeavesPrice(a);
    EditLeavesBracketStale(a);
  }

  /** The challenge team U has solved is deleted, and the board of U's bracket is stale. */
  lemma DeletionLeavesBracketStale(a: Arithmetic)
    requires IsFloat64(a)
    ensures !Restores(SolvedOnce(PriceOf(a), None), Deleted(SolvedOnce(PriceOf(a), None), "c"), OVERALL_KEYS)
  {
    AfterOneSolve(a, None);
    PricesThen(a);
    hide IsFloat64, PriceOf, CalculateDynamicScore, SolvedOnce, TimesSolved, Restores, PriceShift, Listed;
    var db := SolvedOnce(PriceOf(a), None);
    assert Misses(db, "c", "u", None);
    ChallengeDeleteRestoredIff(db, "c");
    hide Misses;
  }
}
