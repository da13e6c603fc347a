/** Concrete runs from the empty roster that put a user on a deleted team: a Join past a Disband, a Join
    past a solo reset, and a Join of one's own solo team. */
module TeamRaces {
  import opened Prelude
  import opened TeamRosters
  import opened TeamTransactions
  import opened TeamRosterGuarantees

  ghost predicate Leads(s: Sys, step: Step, t: Sys) {
    Enabled(s, step) && Next(s, step) == t
  }

  /** Steps that lead from each state to the next are a run. */
  lemma {:induction false} Path(states: seq<Sys>, steps: seq<Step>)
    requires |states| == |steps| + 1
    requires forall k :: 0 <= k < |steps| ==> Leads(states[k], steps[k], states[k + 1])
    ensures IsRun(states[0], steps) && After(states[0], steps) == states[|steps|]
    decreases |steps|
  {
    hide Enabled, Next;
    if steps != [] {
      var n := |steps| - 1;
      assert Leads(states[n], steps[n], states[n + 1]);
      Path(states[..n + 1], steps[..n]);
      RunExtends(states[0], steps[..n], steps[n]);
      assert steps == steps[..n] + [steps[n]];
    }
  }

  /** The steps are a run from one state to the other. */
  ghost predicate Reaches(s: Sys, steps: seq<Step>, t: Sys) {
    IsRun(s, steps) && After(s, steps) == t
  }

  lemma ReachesFurther(s: Sys, first: seq<Step>, t: Sys, second: seq<Step>, u: Sys)
    requires Reaches(s, first, t) && Reaches(t, second, u)
    ensures Reaches(s, first + second, u)
  {
    hide IsRun, After;
    RunsCompose(s, first, second);
  }

  // ---- two users, one of them alone on a solo team ----------------------------------------------------------

  function Users(ada: Option<nat>, bob: Option<nat>): map<nat, User> {
    map[1 := User("ada", ada), 2 := User("bob", bob)]
  }

  function Team7(deleted: bool): Team {
    Team("x", 70, 1, true, false, deleted)
  }

  const FOUND := Create(1, "x", true, false, 7, 70)

  function Founding(max: int, phase: Phase): Sys {
    Sys(Roster(Users(None, None), map[]), max, map[0 := Tx(FOUND, phase)], {0}, {7}, {70})
  }

  /** Ada leads team 7, Bob is on none, and no transaction is open. */
  function Start(max: int): Sys {
    Sys(Roster(Users(Some(7), None), map[7 := Team7(false)]), max, map[], {0}, {7}, {70})
  }

  const REGISTER: seq<Step> := [NewUser(1, "ada"), NewUser(2, "bob"), Begin(0, Request(OPEN, FOUND))]
  const SETTLE: seq<Step> := [Move(0), Move(0), Move(0), Move(0), Commit(0)]

  lemma RegisterReaches(max: int)
    ensures Reaches(Empty(max), REGISTER, Founding(max, Begun))
  {
    var one := Sys(Roster(map[1 := User("ada", None)], map[]), max, map[], {}, {}, {});
    var two := one.(roster := Roster(Users(None, None), map[]));
    assert "ada" != "bob" by { assert "ada"[0] != "bob"[0]; }
    assert Leads(Empty(max), NewUser(1, "ada"), one);
    assert Leads(one, NewUser(2, "bob"), two);
    assert Leads(two, Begin(0, Request(OPEN, FOUND)), Founding(max, Begun));
    hide Leads, Founding, Users, IsRun, After;
    Path([Empty(max), one, two, Founding(max, Begun)], REGISTER);
  }

  lemma FoundingSteps(max: int)
    ensures Leads(Founding(max, Begun), Move(0), Founding(max, UserLocked))
    ensures Leads(Founding(max, UserLocked), Move(0), Founding(max, Ready(None)))
    ensures Leads(Founding(max, Ready(None)), Move(0), Founding(max, Cleaned(None, None)))
    ensures Leads(Founding(max, Cleaned(None, None)), Move(0), Founding(max, Inserted(None, "x")))
  {
    hide SetTeam, AddTeam, Committed;
  }

  lemma FoundingCommits(max: int)
    ensures Leads(Founding(max, Inserted(None, "x")), Commit(0), Start(max))
  {
    hide Statement, CanMove;
  }

  lemma SettleReaches(max: int)
    ensures Reaches(Founding(max, Begun), SETTLE, Start(max))
  {
    FoundingSteps(max);
    FoundingCommits(max);
    hide Leads, Founding, Users, IsRun, After, Start;
    Path([Founding(max, Begun), Founding(max, UserLocked), Founding(max, Ready(None)),
          Founding(max, Cleaned(None, None)), Founding(max, Inserted(None, "x")), Start(max)], SETTLE);
  }

  lemma StartIsReached(max: int)
    ensures Reaches(Empty(max), REGISTER + SETTLE, Start(max))
  {
    hide Reaches, Founding, Start;
    RegisterReaches(max);
    SettleReaches(max);
    ReachesFurther(Empty(max), REGISTER, Founding(max, Begun), SETTLE, Start(max));
  }

  lemma AdaIsAlone(max: int)
    ensures Members(Start(max).roster, 7) == {1}
    ensures TeamByToken(Start(max).roster, 70) == Some(7)
  {
    var r := Start(max).roster;
    assert forall u :: IsOn(r, u, 7) <==> u == 1;
    assert IsActive(r, 7) && r.teams[7].token == 70;
    assert forall t :: IsActive(r, t) ==> t == 7;
  }

  // ---- Bob joins while Ada disbands -------------------------------------------------------------------------

  const BOB_JOINS := Join(2, 70, false)

  function Joining(max: int, phase: Phase): Sys {
    Start(max).(txs := map[1 := Tx(BOB_JOINS, phase)], begun := {0, 1})
  }

  function Disbanding(max: int, phase: Phase): Sys {
    Start(max).(txs := map[1 := Tx(BOB_JOINS, Looked(7)), 2 := Tx(Disband(1), phase)], begun := {0, 1, 2})
  }

  function Disbanded(max: int, phase: Phase): Sys {
    Sys(Roster(Users(None, None), map[7 := Team7(true)]), max, map[1 := Tx(BOB_JOINS, phase)], {0, 1, 2}, {7}, {70})
  }

  function JoinedDeleted(max: int): Sys {
    Sys(Roster(Users(None, Some(7)), map[7 := Team7(true)]), max, map[], {0, 1, 2}, {7}, {70})
  }

  const BOB_LOOKS_UP: seq<Step> := [Begin(1, Request(OPEN, BOB_JOINS)), Move(1), Move(1)]
  const ADA_DISBANDS: seq<Step> := [Begin(2, Request(OPEN, Disband(1))), Move(2), Move(2), Commit(2)]
  const BOB_GOES_ON: seq<Step> := [Move(1), Move(1), Commit(1)]

  lemma BobLooksUp(max: int)
    ensures Reaches(Start(max), BOB_LOOKS_UP, Joining(max, Looked(7)))
  {
    assert Leads(Start(max), Begin(1, Request(OPEN, BOB_JOINS)), Joining(max, Begun));
    assert Leads(Joining(max, Begun), Move(1), Joining(max, UserLocked));
    assert Leads(Joining(max, UserLocked), Move(1), Joining(max, Looked(7))) by {
      AdaIsAlone(max);
      hide Members, TeamByToken;
    }
    hide Leads, Joining, Start, IsRun, After;
    Path([Start(max), Joining(max, Begun), Joining(max, UserLocked), Joining(max, Looked(7))], BOB_LOOKS_UP);
  }

  lemma AdaChecks(max: int)
    ensures Leads(Joining(max, Looked(7)), Begin(2, Request(OPEN, Disband(1))), Disbanding(max, Begun))
    ensures Leads(Disbanding(max, Begun), Move(2), Disbanding(max, UserLocked))
    ensures Leads(Disbanding(max, UserLocked), Move(2), Disbanding(max, OwnLocked(7, {}, {})))
  {
    AdaIsAlone(max);
    assert {1} - {1} == {};
    hide Members;
  }

  lemma AdaCommits(max: int)
    ensures Leads(Disbanding(max, OwnLocked(7, {}, {})), Commit(2), Disbanded(max, Looked(7)))
  {
    var s := Disbanding(max, OwnLocked(7, {}, {}));
    assert s.txs - {2} == map[1 := Tx(BOB_JOINS, Looked(7))];
    assert ReleaseAll(SoftDelete(s.roster, 7), 7) == Roster(Users(None, None), map[7 := Team7(true)]);
    hide CanMove, Statement;
  }

  lemma AdaDisbands(max: int)
    ensures Reaches(Joining(max, Looked(7)), ADA_DISBANDS, Disbanded(max, Looked(7)))
  {
    AdaChecks(max);
    AdaCommits(max);
    hide Leads, Joining, Disbanding, Disbanded, IsRun, After;
    Path([Joining(max, Looked(7)), Disbanding(max, Begun), Disbanding(max, UserLocked),
          Disbanding(max, OwnLocked(7, {}, {})), Disbanded(max, Looked(7))], ADA_DISBANDS);
  }

  lemma BobGoesOn(max: int)
    requires max > 0
    ensures Reaches(Disbanded(max, Looked(7)), BOB_GOES_ON, JoinedDeleted(max))
  {
    assert Members(Disbanded(max, Looked(7)).roster, 7) == {};
    hide Members;
    assert Leads(Disbanded(max, Looked(7)), Move(1), Disbanded(max, Ready(Some(7))));
    assert Leads(Disbanded(max, Ready(Some(7))), Move(1), Disbanded(max, Cleaned(Some(7), None)));
    assert Leads(Disbanded(max, Cleaned(Some(7), None)), Commit(1), JoinedDeleted(max));
    hide Leads, Disbanded, JoinedDeleted, IsRun, After;
    Path([Disbanded(max, Looked(7)), Disbanded(max, Ready(Some(7))), Disbanded(max, Cleaned(Some(7), None)), JoinedDeleted(max)],
         BOB_GOES_ON);
  }

  /** Bob looks the team up by its token, Ada disbands it, and Bob is written onto it. */
  lemma JoinPastDisbandStrands(max: int) returns (run: seq<Step>)
    requires max > 0
    ensures IsRun(Empty(max), run) && IsStranded(After(Empty(max), run).roster, 2)
  {
    assert IsStranded(JoinedDeleted(max).roster, 2);
    StartIsReached(max);
    BobLooksUp(max);
    AdaDisbands(max);
    BobGoesOn(max);
    run := REGISTER + SETTLE + BOB_LOOKS_UP + ADA_DISBANDS + BOB_GOES_ON;
    assert Reaches(Empty(max), run, JoinedDeleted(max)) by {
      hide Reaches, Start, Joining, Disbanded, JoinedDeleted;
      ReachesFurther(Empty(max), REGISTER + SETTLE, Start(max), BOB_LOOKS_UP, Joining(max, Looked(7)));
      ReachesFurther(Empty(max), REGISTER + SETTLE + BOB_LOOKS_UP, Joining(max, Looked(7)), ADA_DISBANDS, Disbanded(max, Looked(7)));
      ReachesFurther(Empty(max), REGISTER + SETTLE + BOB_LOOKS_UP + ADA_DISBANDS, Disbanded(max, Looked(7)), BOB_GOES_ON, JoinedDeleted(max));
    }
    hide IsRun, After, JoinedDeleted;
  }

  // ---- Bob joins while Ada resets her solo team ---------------------------------------------------------------

  const ADA_RESETS := CreateSolo(1, true, 8, 80)

  const TWO_TEAMS: set<nat> := {7, 8}
  const TWO_TOKENS: set<nat> := {70, 80}

  function Counting(max: int, ada: Phase): Sys {
    Sys(Start(max).roster, max, map[1 := Tx(ADA_RESETS, ada)], {0, 1}, TWO_TEAMS, TWO_TOKENS)
  }

  function Racing(max: int, bob: Phase): Sys {
    Sys(Start(max).roster, max, map[1 := Tx(ADA_RESETS, Counted(None, 7)), 2 := Tx(BOB_JOINS, bob)], {0, 1, 2}, TWO_TEAMS, TWO_TOKENS)
  }

  function Overtaken(max: int, ada: Phase): Sys {
    Sys(Roster(Users(Some(7), Some(7)), map[7 := Team7(false)]), max, map[1 := Tx(ADA_RESETS, ada)], {0, 1, 2}, TWO_TEAMS, TWO_TOKENS)
  }

  function JoinedReset(max: int): Sys {
    Sys(Roster(Users(Some(8), Some(7)), map[7 := Team7(true), 8 := Team("ada", 80, 1, true, false, false)]),
        max, map[], {0, 1, 2}, TWO_TEAMS, TWO_TOKENS)
  }

  const ADA_COUNTS: seq<Step> := [Begin(1, Request(OPEN, ADA_RESETS)), Move(1), Move(1)]
  const BOB_ARRIVES: seq<Step> := [Begin(2, Request(OPEN, BOB_JOINS)), Move(2), Move(2)]
  const BOB_IS_IN: seq<Step> := [Move(2), Move(2), Commit(2)]
  const ADA_GOES_ON: seq<Step> := [Move(1), Move(1), Move(1), Commit(1)]

  lemma AdaCounts(max: int)
    ensures Reaches(Start(max), ADA_COUNTS, Counting(max, Counted(None, 7)))
  {
    AdaIsAlone(max);
    hide Members, TeamByToken;
    assert Leads(Start(max), Begin(1, Request(OPEN, ADA_RESETS)), Counting(max, Begun));
    assert Leads(Counting(max, Begun), Move(1), Counting(max, Ready(None)));
    assert Leads(Counting(max, Ready(None)), Move(1), Counting(max, Counted(None, 7)));
    hide Leads, Counting, Start, IsRun, After;
    Path([Start(max), Counting(max, Begun), Counting(max, Ready(None)), Counting(max, Counted(None, 7))], ADA_COUNTS);
  }

  lemma BobArrives(max: int)
    ensures Reaches(Counting(max, Counted(None, 7)), BOB_ARRIVES, Racing(max, Looked(7)))
  {
    AdaIsAlone(max);
    hide Members, TeamByToken;
    assert Leads(Counting(max, Counted(None, 7)), Begin(2, Request(OPEN, BOB_JOINS)), Racing(max, Begun));
    assert Leads(Racing(max, Begun), Move(2), Racing(max, UserLocked));
    assert Leads(Racing(max, UserLocked), Move(2), Racing(max, Looked(7)));
    hide Leads, Counting, Racing, IsRun, After;
    Path([Counting(max, Counted(None, 7)), Racing(max, Begun), Racing(max, UserLocked), Racing(max, Looked(7))], BOB_ARRIVES);
  }

  lemma BobIsIn(max: int)
    requires max > 1
    ensures Reaches(Racing(max, Looked(7)), BOB_IS_IN, Overtaken(max, Counted(None, 7)))
  {
    AdaIsAlone(max);
    hide Members;
    var last := Racing(max, Cleaned(Some(7), None));
    assert Leads(Racing(max, Looked(7)), Move(2), Racing(max, Ready(Some(7))));
    assert Leads(Racing(max, Ready(Some(7))), Move(2), last);
    assert last.txs - {2} == map[1 := Tx(ADA_RESETS, Counted(None, 7))];
    assert Leads(last, Commit(2), Overtaken(max, Counted(None, 7)));
    hide Leads, Racing, Overtaken, IsRun, After;
    Path([Racing(max, Looked(7)), Racing(max, Ready(Some(7))), Racing(max, Cleaned(Some(7), None)), Overtaken(max, Counted(None, 7))],
         BOB_IS_IN);
  }

  lemma AdaDeletes(max: int)
    ensures Leads(Overtaken(max, Counted(None, 7)), Move(1), Overtaken(max, Cleaned(None, Some(7))))
    ensures Leads(Overtaken(max, Cleaned(None, Some(7))), Move(1), Overtaken(max, Named(Some(7), "ada")))
  {
    var r := Overtaken(max, Begun).roster;
    assert !NameIsActive(SoftDelete(r, 7), "ada");
    hide Members, NameIsActive;
  }

  lemma AdaInserts(max: int)
    ensures Leads(Overtaken(max, Named(Some(7), "ada")), Move(1), Overtaken(max, Inserted(Some(7), "ada")))
  {
    assert "x" != "ada" by { assert "x"[0] != "ada"[0]; }
    assert !NameIsTaken(Overtaken(max, Begun).roster, "ada");
    hide Members, NameIsTaken;
  }

  lemma AdaEnds(max: int)
    ensures Leads(Overtaken(max, Inserted(Some(7), "ada")), Commit(1), JoinedReset(max))
  {
    assert Overtaken(max, Inserted(Some(7), "ada")).txs - {1} == map[];
    hide CanMove, Statement;
  }

  lemma AdaGoesOn(max: int)
    ensures Reaches(Overtaken(max, Counted(None, 7)), ADA_GOES_ON, JoinedReset(max))
  {
    AdaDeletes(max);
    AdaInserts(max);
    AdaEnds(max);
    hide Leads, Overtaken, JoinedReset, IsRun, After;
    Path([Overtaken(max, Counted(None, 7)), Overtaken(max, Cleaned(None, Some(7))), Overtaken(max, Named(Some(7), "ada")),
          Overtaken(max, Inserted(Some(7), "ada")), JoinedReset(max)], ADA_GOES_ON);
  }

  /** Ada counts herself alone on her team, Bob joins it, and Ada deletes it. */
  lemma JoinPastResetStrands(max: int) returns (run: seq<Step>)
    requires max > 1
    ensures IsRun(Empty(max), run) && IsStranded(After(Empty(max), run).roster, 2)
  {
    assert IsStranded(JoinedReset(max).roster, 2);
    StartIsReached(max);
    AdaCounts(max);
    BobArrives(max);
    BobIsIn(max);
    AdaGoesOn(max);
    run := REGISTER + SETTLE + ADA_COUNTS + BOB_ARRIVES + BOB_IS_IN + ADA_GOES_ON;
    assert Reaches(Empty(max), run, JoinedReset(max)) by {
      hide Reaches, Start, Counting, Racing, Overtaken, JoinedReset;
      ReachesFurther(Empty(max), REGISTER + SETTLE, Start(max), ADA_COUNTS, Counting(max, Counted(None, 7)));
      var so := REGISTER + SETTLE + ADA_COUNTS;
      ReachesFurther(Empty(max), so, Counting(max, Counted(None, 7)), BOB_ARRIVES, Racing(max, Looked(7)));
      ReachesFurther(Empty(max), so + BOB_ARRIVES, Racing(max, Looked(7)), BOB_IS_IN, Overtaken(max, Counted(None, 7)));
      ReachesFurther(Empty(max), so + BOB_ARRIVES + BOB_IS_IN, Overtaken(max, Counted(None, 7)), ADA_GOES_ON, JoinedReset(max));
    }
    hide IsRun, After, JoinedReset;
  }

  // ---- Ada joins her own team -----------------------------------------------------------------------------------

  const ADA_JOINS := Join(1, 70, true)

  function Rejoining(max: int, phase: Phase): Sys {
    Start(max).(txs := map[1 := Tx(ADA_JOINS, phase)], begun := {0, 1})
  }

  function Rejoined(max: int): Sys {
    Sys(Roster(Users(Some(7), None), map[7 := Team7(true)]), max, map[], {0, 1}, {7}, {70})
  }

  const ADA_ARRIVES: seq<Step> := [Begin(1, Request(OPEN, ADA_JOINS)), Move(1), Move(1), Move(1)]
  const ADA_IS_IN: seq<Step> := [Move(1), Move(1), Commit(1)]

  lemma AdaArrives(max: int)
    requires max > 1
    ensures Reaches(Start(max), ADA_ARRIVES, Rejoining(max, Ready(Some(7))))
  {
    AdaIsAlone(max);
    hide Members, TeamByToken;
    assert Leads(Start(max), Begin(1, Request(OPEN, ADA_JOINS)), Rejoining(max, Begun));
    assert Leads(Rejoining(max, Begun), Move(1), Rejoining(max, UserLocked));
    assert Leads(Rejoining(max, UserLocked), Move(1), Rejoining(max, Looked(7)));
    assert Leads(Rejoining(max, Looked(7)), Move(1), Rejoining(max, Ready(Some(7))));
    hide Leads, Rejoining, Start, IsRun, After;
    Path([Start(max), Rejoining(max, Begun), Rejoining(max, UserLocked), Rejoining(max, Looked(7)), Rejoining(max, Ready(Some(7)))],
         ADA_ARRIVES);
  }

  lemma AdaIsIn(max: int)
    ensures Reaches(Rejoining(max, Ready(Some(7))), ADA_IS_IN, Rejoined(max))
  {
    AdaIsAlone(max);
    hide Members;
    assert Leads(Rejoining(max, Ready(Some(7))), Move(1), Rejoining(max, Counted(Some(7), 7)));
    assert Leads(Rejoining(max, Counted(Some(7), 7)), Move(1), Rejoining(max, Cleaned(Some(7), Some(7))));
    assert Leads(Rejoining(max, Cleaned(Some(7), Some(7))), Commit(1), Rejoined(max));
    hide Leads, Rejoining, Rejoined, IsRun, After;
    Path([Rejoining(max, Ready(Some(7))), Rejoining(max, Counted(Some(7), 7)), Rejoining(max, Cleaned(Some(7), Some(7))), Rejoined(max)],
         ADA_IS_IN);
  }

  /** With no other transaction at all: Ada, confirming, joins the solo team she is alone on. */
  lemma JoinOfOwnTeamStrands(max: int) returns (run: seq<Step>)
    requires max > 1
    ensures IsRun(Empty(max), run) && IsStranded(After(Empty(max), run).roster, 1)
  {
    assert IsStranded(Rejoined(max).roster, 1);
    StartIsReached(max);
    AdaArrives(max);
    AdaIsIn(max);
    run := REGISTER + SETTLE + ADA_ARRIVES + ADA_IS_IN;
    assert Reaches(Empty(max), run, Rejoined(max)) by {
      hide Reaches, Start, Rejoining, Rejoined;
      ReachesFurther(Empty(max), REGISTER + SETTLE, Start(max), ADA_ARRIVES, Rejoining(max, Ready(Some(7))));
      ReachesFurther(Empty(max), REGISTER + SETTLE + ADA_ARRIVES, Rejoining(max, Ready(Some(7))), ADA_IS_IN, Rejoined(max));
    }
    hide IsRun, After, Rejoined;
  }
}
