/** Runs of what changes solves, counts and prices: recorded solves, what deletes the solves of teams, which
    are the solo-team clean-up (backend/internal/usecase/team/team.go) and the cleanup command
    (backend/internal/usecase/cleanup.go), and the creation, edit and deletion of challenges
    (backend/internal/usecase/challenge/challenge.go). Teams come and are disbanded in between. */
module SolveLedger {
  import opened Prelude
  import opened Scoreboard
  import opened ScoreboardChanges
  import opened ScoreboardServing

  datatype Op =
    | Record(path: Path, team: string, challenge: string, at: int)
    | AddTeam(team: string, name: string)
    | Disband(team: string)
    | CleanUp(team: string)
    | Purge(teams: set<string>)
    | AddChallenge(challenge: string, points: int, initialValue: int, minValue: int, decay: int)
    | EditChallenge(challenge: string, points: int, initialValue: int, minValue: int, decay: int)
    | DeleteChallenge(challenge: string)

  /** An edit overwrites the points and the parameters of the price, and leaves the count. */
  function EditOf(c: Challenge, op: Op): Challenge
    requires op.EditChallenge?
  {
    c.(points := op.points, initialValue := op.initialValue, minValue := op.minValue, decay := op.decay)
  }

  predicate IsActive(db: Db, team: string) {
    team in db.teams && !db.teams[team].deleted
  }

  /** The teams whose solves the operation deletes: the clean-up's, if it is not deleted yet; and those of the
      purged rows that are. */
  function DroppedTeams(db: Db, op: Op): set<string> {
    match op
    case CleanUp(team) => if IsActive(db, team) then {team} else {}
    case Purge(teams) => set t | t in teams && t in db.teams && db.teams[t].deleted
    case _ => {}
  }

  /** A failed transaction changes nothing; the ids of a new team and a new challenge are fresh UUIDs. */
  function Apply(price: Price, db: Db, op: Op): Db {
    match op
    case Record(path, team, challenge, at) =>
      var r := RecordSolve(price, db, path, team, challenge, at);
      if r.Ok? then r.value else db
    case AddTeam(team, name) => if team in db.teams then db else Edited(db, team, Team(name, None, false, false, false))
    case Disband(team) => if IsActive(db, team) then SoftDeleted(db, team) else db
    case CleanUp(team) => if IsActive(db, team) then CleanedUp(db, team) else db
    case Purge(_) => Purged(db, DroppedTeams(db, op))
    case AddChallenge(c, points, initialValue, minValue, decay) =>
      if c in db.challenges then db else WithChallenge(db, c, Challenge(points, initialValue, minValue, decay, 0))
    case EditChallenge(c, _, _, _, _) =>
      if c in db.challenges then WithChallenge(db, c, EditOf(db.challenges[c], op)) else db
    case DeleteChallenge(c) => if c in db.challenges then Deleted(db, c) else db
  }

  function ApplyAll(price: Price, db: Db, ops: seq<Op>): Db {
    if ops == [] then db else Apply(price, ApplyAll(price, db, Init(ops)), Last(ops))
  }

  function CountOf(solves: seq<Solve>, challenge: string): nat {
    if solves == [] then 0
    else CountOf(solves[..|solves| - 1], challenge) + (if solves[|solves| - 1].challenge == challenge then 1 else 0)
  }

  /** The solves of a challenge by these teams. */
  function CountBy(solves: seq<Solve>, teams: set<string>, challenge: string): nat {
    if solves == [] then 0
    else
      var s := solves[|solves| - 1];
      CountBy(solves[..|solves| - 1], teams, challenge) + (if s.team in teams && s.challenge == challenge then 1 else 0)
  }

  /** At most one solve for a team and a challenge. */
  ghost predicate OnePerTeam(solves: seq<Solve>) {
    forall i, j :: 0 <= i < j < |solves| ==> !(solves[i].team == solves[j].team && solves[i].challenge == solves[j].challenge)
  }

  /** A decaying challenge that was ever solved costs what the formula says for its solve count. */
  predicate PriceFollows(price: Price, c: Challenge) {
    c.solveCount > 0 && c.initialValue > 0 && c.decay > 0 ==>
      c.points == price(c.initialValue, c.minValue, c.decay, c.solveCount)
  }

  ghost predicate PricesFollowCounts(price: Price, db: Db) {
    forall c :: c in db.challenges ==> PriceFollows(price, db.challenges[c])
  }

  ghost predicate CountsMatch(db: Db) {
    forall c :: c in db.challenges ==> CountOf(db.solves, c) == db.challenges[c].solveCount
  }

  /** No solve is of a challenge that is not there. */
  ghost predicate SolvesRefer(db: Db) {
    forall i :: 0 <= i < |db.solves| ==> db.solves[i].challenge in db.challenges
  }

  ghost predicate Inv(db: Db) {
    OnePerTeam(db.solves) && SolvesRefer(db)
  }

  lemma {:induction false} DroppedSolves(solves: seq<Solve>, gone: set<string>, challenge: string)
    ensures CountOf(WithoutTeams(solves, gone), challenge) + CountBy(solves, gone, challenge) == CountOf(solves, challenge)
    decreases |solves|
  {
    if solves != [] {
      var n := |solves| - 1;
      DroppedSolves(solves[..n], gone, challenge);
      var rest := WithoutTeams(solves[..n], gone);
      assert (rest + [solves[n]])[..|rest|] == rest;
    }
  }

  lemma {:induction false} CountByNoOne(solves: seq<Solve>, challenge: string)
    ensures CountBy(solves, {}, challenge) == 0
    decreases |solves|
  {
    if solves != [] {
      CountByNoOne(solves[..|solves| - 1], challenge);
    }
  }

  lemma {:induction false} CountByIsZeroIff(solves: seq<Solve>, gone: set<string>, challenge: string)
    ensures CountBy(solves, gone, challenge) == 0 <==> forall s :: s in solves && s.challenge == challenge ==> s.team !in gone
    decreases |solves|
  {
    if solves != [] {
      var n := |solves| - 1;
      CountByIsZeroIff(solves[..n], gone, challenge);
      assert solves == solves[..n] + [solves[n]];
    }
  }

  lemma {:induction false} WithoutTeamsKeeps(solves: seq<Solve>, gone: set<string>)
    requires OnePerTeam(solves)
    ensures OnePerTeam(WithoutTeams(solves, gone))
    ensures forall s :: s in WithoutTeams(solves, gone) <==> s in solves && s.team !in gone
    decreases |solves|
  {
    if solves != [] {
      var n := |solves| - 1;
      WithoutTeamsKeeps(solves[..n], gone);
      var rest := WithoutTeams(solves[..n], gone);
      assert solves == solves[..n] + [solves[n]];
      forall i | 0 <= i < |rest| && solves[n].team !in gone
        ensures !(rest[i].team == solves[n].team && rest[i].challenge == solves[n].challenge)
      {
        assert rest[i] in rest;
        var j :| 0 <= j < n && solves[j] == rest[i];
      }
    }
  }

  lemma {:induction false} WithoutChallengeCounts(solves: seq<Solve>, challenge: string, other: string)
    requires other != challenge
    ensures CountOf(WithoutChallenge(solves, challenge), other) == CountOf(solves, other)
    decreases |solves|
  {
    if solves != [] {
      var n := |solves| - 1;
      WithoutChallengeCounts(solves[..n], challenge, other);
      var rest := WithoutChallenge(solves[..n], challenge);
      assert (rest + [solves[n]])[..|rest|] == rest;
    }
  }

  lemma {:induction false} WithoutChallengeKeeps(solves: seq<Solve>, challenge: string)
    requires OnePerTeam(solves)
    ensures OnePerTeam(WithoutChallenge(solves, challenge))
    ensures forall s :: s in WithoutChallenge(solves, challenge) <==> s in solves && s.challenge != challenge
    decreases |solves|
  {
    if solves != [] {
      var n := |solves| - 1;
      WithoutChallengeKeeps(solves[..n], challenge);
      var rest := WithoutChallenge(solves[..n], challenge);
      assert solves == solves[..n] + [solves[n]];
      forall i | 0 <= i < |rest| && solves[n].challenge != challenge
        ensures !(rest[i].team == solves[n].team && rest[i].challenge == solves[n].challenge)
      {
        assert rest[i] in rest;
        var j :| 0 <= j < n && solves[j] == rest[i];
      }
    }
  }

  lemma {:induction false} UnknownIsNotCounted(solves: seq<Solve>, challenge: string)
    requires forall i :: 0 <= i < |solves| ==> solves[i].challenge != challenge
    ensures CountOf(solves, challenge) == 0
    decreases |solves|
  {
    if solves != [] {
      UnknownIsNotCounted(solves[..|solves| - 1], challenge);
    }
  }

  // ---- every operation ----------------------------------------------------------------------------------------

  lemma RecordKeepsLedger(price: Price, db: Db, path: Path, team: string, challenge: string, at: int)
    requires Inv(db) && RecordSolve(price, db, path, team, challenge, at).Ok?
    ensures
      var db' := Recorded(price, db, path, team, challenge, at);
      && Inv(db') && db'.challenges.Keys == db.challenges.Keys
      && (forall c :: c in db.challenges ==> Excess(db', c) == Excess(db, c))
      && (PricesFollowCounts(price, db) ==> PricesFollowCounts(price, db'))
  {
    var db' := Recorded(price, db, path, team, challenge, at);
    assert db'.solves[..|db.solves|] == db.solves;
  }

  lemma DropKeepsLedger(db: Db, db': Db, gone: set<string>)
    requires Inv(db) && db'.challenges == db.challenges && db'.solves == WithoutTeams(db.solves, gone)
    ensures Inv(db') && forall c :: c in db.challenges ==> Excess(db', c) == Excess(db, c) + CountBy(db.solves, gone, c)
  {
    WithoutTeamsKeeps(db.solves, gone);
    forall i | 0 <= i < |db'.solves| ensures db'.solves[i].challenge in db'.challenges {
      assert db'.solves[i] in db'.solves;
    }
    forall c | c in db.challenges ensures Excess(db', c) == Excess(db, c) + CountBy(db.solves, gone, c) {
      DroppedSolves(db.solves, gone, c);
    }
  }

  lemma DeleteKeepsLedger(db: Db, challenge: string)
    requires Inv(db)
    ensures
      var db' := Deleted(db, challenge);
      Inv(db') && forall c :: c in db'.challenges ==> c in db.challenges && Excess(db', c) == Excess(db, c)
  {
    var db' := Deleted(db, challenge);
    WithoutChallengeKeeps(db.solves, challenge);
    forall i | 0 <= i < |db'.solves| ensures db'.solves[i].challenge in db'.challenges {
      assert db'.solves[i] in db'.solves;
    }
    forall c | c in db'.challenges ensures CountOf(db'.solves, c) == CountOf(db.solves, c) {
      WithoutChallengeCounts(db.solves, challenge, c);
    }
  }

  /** How far the count of a challenge is above the number of its solves in the table. */
  function Excess(db: Db, challenge: string): int
    requires challenge in db.challenges
  {
    db.challenges[challenge].solveCount - CountOf(db.solves, challenge)
  }

  /** The rows the organisers write: a new team is visible and in no bracket; a new challenge is unsolved; an edit
      overwrites the points and the parameters of the price, and leaves the count. */
  lemma WrittenRows(price: Price, db: Db, id: string, text: string, points: int, initialValue: int, minValue: int, decay: int)
    ensures id !in db.teams ==>
      Apply(price, db, AddTeam(id, text)) == db.(teams := db.teams[id := Team(text, None, false, false, false)])
    ensures id !in db.challenges ==>
      Apply(price, db, AddChallenge(id, points, initialValue, minValue, decay))
        == db.(challenges := db.challenges[id := Challenge(points, initialValue, minValue, decay, 0)])
    ensures id in db.challenges ==>
      Apply(price, db, EditChallenge(id, points, initialValue, minValue, decay))
        == db.(challenges := db.challenges[id := Challenge(points, initialValue, minValue, decay, db.challenges[id].solveCount)])
    ensures id in db.teams ==> Apply(price, db, AddTeam(id, text)) == db
    ensures id in db.challenges ==> Apply(price, db, AddChallenge(id, points, initialValue, minValue, decay)) == db
    ensures id !in db.challenges ==>
      Apply(price, db, EditChallenge(id, points, initialValue, minValue, decay)) == db == Apply(price, db, DeleteChallenge(id))
  {
  }

  /** A solve that can be recorded is, and one that cannot leaves everything as it was. */
  lemma RecordedRows(price: Price, db: Db, path: Path, team: string, challenge: string, at: int)
    ensures
      var solved := exists s :: s in db.solves && s.team == team && s.challenge == challenge;
      var db' := Apply(price, db, Record(path, team, challenge, at));
      if challenge in db.challenges && team in db.teams && !solved
      then db'.solves == db.solves + [Solve(team, challenge, at)] && db' == Recorded(price, db, path, team, challenge, at)
      else db' == db
  {
    RecordIff(price, db, path, team, challenge, at);
    hide RecordSolve;
    if RecordSolve(price, db, path, team, challenge, at).Ok? {
      RecordedIs(price, db, path, team, challenge, at);
      RecordsThat(price, db, path, team, challenge, at);
    }
  }

  lemma RecordsThat(price: Price, db: Db, path: Path, team: string, challenge: string, at: int)
    requires RecordSolve(price, db, path, team, challenge, at).Ok?
    ensures challenge in db.challenges
      && RecordSolve(price, db, path, team, challenge, at).value == Recorded(price, db, path, team, challenge, at)
  {
  }

  /** Disbanding and cleaning up act on a team that is not deleted yet, and mark it; only the clean-up takes its
      solves. Deleting a challenge takes its row and its solves. */
  lemma DeletedRows(price: Price, db: Db, id: string)
    ensures
      var active := id in db.teams && !db.teams[id].deleted;
      var marked := if active then db.teams[id := db.teams[id].(deleted := true)] else db.teams;
      && Apply(price, db, Disband(id)) == db.(teams := marked)
      && Apply(price, db, CleanUp(id)).teams == marked
      && (!active ==> Apply(price, db, CleanUp(id)) == db)
      && (active ==> forall s :: multiset(Apply(price, db, CleanUp(id)).solves)[s] == if s.team == id then 0 else multiset(db.solves)[s])
    ensures id in db.challenges ==>
      && Apply(price, db, DeleteChallenge(id)).challenges == db.challenges - {id}
      && forall s: Solve :: s.challenge == id ==> s !in Apply(price, db, DeleteChallenge(id)).solves
  {
    if id in db.teams && !db.teams[id].deleted {
      forall s ensures multiset(WithoutTeams(db.solves, {id}))[s] == if s.team == id then 0 else multiset(db.solves)[s] {
        PurgedSolves(db.solves, {id}, s);
      }
    }
    if id in db.challenges {
      GoneWithChallenge(db.solves, id);
    }
  }

  lemma {:induction false} GoneWithChallenge(solves: seq<Solve>, challenge: string)
    ensures forall s: Solve :: s.challenge == challenge ==> s !in WithoutChallenge(solves, challenge)
    decreases |solves|
  {
    if solves != [] {
      GoneWithChallenge(solves[..|solves| - 1], challenge);
    }
  }

  /** What leaves the solves and the counts as they are and adds only challenges with count zero. */
  lemma SameSolvesKeepLedger(db: Db, db': Db)
    requires Inv(db)
    requires db'.solves == db.solves && db.challenges.Keys <= db'.challenges.Keys
    requires forall c :: c in db'.challenges ==>
      db'.challenges[c].solveCount == if c in db.challenges then db.challenges[c].solveCount else 0
    ensures Inv(db')
    ensures forall c :: c in db'.challenges ==> Excess(db', c) == if c in db.challenges then Excess(db, c) else 0
  {
    forall c | c in db'.challenges && c !in db.challenges ensures CountOf(db.solves, c) == 0 {
      UnknownIsNotCounted(db.solves, c);
    }
  }

  /** A step raises it by the solves it deletes with their teams; that of a new challenge is zero. */
  lemma StepKeepsLedger(price: Price, db: Db, op: Op)
    requires Inv(db)
    ensures Inv(Apply(price, db, op))
    ensures
      var db' := Apply(price, db, op);
      forall c :: c in db'.challenges ==>
        Excess(db', c) == if c in db.challenges then Excess(db, c) + CountBy(db.solves, DroppedTeams(db, op), c) else 0
  {
    hide Inv, Excess;
    forall c ensures CountBy(db.solves, {}, c) == 0 {
      CountByNoOne(db.solves, c);
    }
    match op {
      case Record(path, team, challenge, at) =>
        if RecordSolve(price, db, path, team, challenge, at).Ok? {
          RecordKeepsLedger(price, db, path, team, challenge, at);
        }
      case CleanUp(team) =>
        if IsActive(db, team) {
          DropKeepsLedger(db, Apply(price, db, op), {team});
        }
      case Purge(_) =>
        DropKeepsLedger(db, Apply(price, db, op), DroppedTeams(db, op));
      case DeleteChallenge(c) =>
        DeleteKeepsLedger(db, c);
      case _ =>
        SameSolvesKeepLedger(db, Apply(price, db, op));
    }
  }

  /** No solve is of a team whose solves the operation deletes. */
  ghost predicate DropsNoSolve(db: Db, op: Op) {
    forall s :: s in db.solves ==> s.team !in DroppedTeams(db, op)
  }

  lemma DropsNoSolveMeans(db: Db, op: Op)
    requires Inv(db)
    ensures DropsNoSolve(db, op) <==> forall c :: c in db.challenges ==> CountBy(db.solves, DroppedTeams(db, op), c) == 0
  {
    forall c | c in db.challenges {
      CountByIsZeroIff(db.solves, DroppedTeams(db, op), c);
    }
    forall s | s in db.solves ensures s.challenge in db.challenges {
    }
    hide DroppedTeams;
  }

  /** A step keeps every count equal to the number of solves in the table exactly when it deletes no team with
      solves: it is no clean-up of a team that has any, and no purge of one. */
  lemma StepKeepsCountsIff(price: Price, db: Db, op: Op)
    requires Inv(db) && CountsMatch(db)
    ensures CountsMatch(Apply(price, db, op)) <==> DropsNoSolve(db, op)
  {
    var db' := Apply(price, db, op);
    StepKeepsLedger(price, db, op);
    DropsNoSolveMeans(db, op);
    DropsKeepChallenges(price, db, op);
    hide Inv, Apply, DroppedTeams, DropsNoSolve;
  }

  lemma DropsKeepChallenges(price: Price, db: Db, op: Op)
    ensures db.challenges.Keys <= Apply(price, db, op).challenges.Keys || DroppedTeams(db, op) == {}
    ensures DroppedTeams(db, op) == {} ==> DropsNoSolve(db, op)
  {
  }

  /** An edit that prices the challenge as the formula does for its count. */
  predicate IsPriced(price: Price, db: Db, op: Op) {
    op.EditChallenge? && op.challenge in db.challenges ==> PriceFollows(price, EditOf(db.challenges[op.challenge], op))
  }

  /** A step keeps prices to the formula exactly when it is not an edit that prices a solved, decaying
      challenge otherwise: an edit does not reprice. */
  lemma StepKeepsPricesIff(price: Price, db: Db, op: Op)
    requires Inv(db) && PricesFollowCounts(price, db)
    ensures PricesFollowCounts(price, Apply(price, db, op)) <==> IsPriced(price, db, op)
  {
    match op {
      case Record(path, team, challenge, at) =>
        if RecordSolve(price, db, path, team, challenge, at).Ok? {
          RecordKeepsLedger(price, db, path, team, challenge, at);
        }
      case EditChallenge(c, _, _, _, _) =>
        if c in db.challenges {
          assert Apply(price, db, op).challenges[c] == EditOf(db.challenges[c], op);
        }
      case _ =>
    }
  }

  ghost predicate AlwaysFollow(price: Price, db: Db, ops: seq<Op>)
    decreases |ops|
  {
    PricesFollowCounts(price, ApplyAll(price, db, ops)) && (ops != [] ==> AlwaysFollow(price, db, Init(ops)))
  }

  ghost predicate AllPriced(price: Price, db: Db, ops: seq<Op>)
    decreases |ops|
  {
    ops != [] ==> AllPriced(price, db, Init(ops)) && IsPriced(price, ApplyAll(price, db, Init(ops)), Last(ops))
  }

  predicate Unsolved(db: Db) {
    db.solves == [] && forall c :: c in db.challenges ==> db.challenges[c].solveCount == 0
  }

  /** The solves of the challenge, as it is now, that the run has deleted with their teams. */
  ghost function Lost(price: Price, db: Db, ops: seq<Op>, challenge: string): nat
    decreases |ops|
  {
    if ops == [] || challenge !in ApplyAll(price, db, Init(ops)).challenges then 0
    else
      var before := ApplyAll(price, db, Init(ops));
      Lost(price, db, Init(ops), challenge) + CountBy(before.solves, DroppedTeams(before, Last(ops)), challenge)
  }

  /** Over every run from an unsolved competition: a team has at most one solve of a challenge, every solve is
      of a challenge that is there, and a count is the number of solves in the table and of those that were
      deleted with their teams. */
  lemma {:induction false} RunKeepsLedger(price: Price, db: Db, ops: seq<Op>)
    requires Unsolved(db)
    ensures
      var end := ApplyAll(price, db, ops);
      && OnePerTeam(end.solves) && SolvesRefer(end)
      && forall c :: c in end.challenges ==>
           end.challenges[c].solveCount == CountOf(end.solves, c) + Lost(price, db, ops, c)
    decreases |ops|
  {
    if ops != [] {
      hide OnePerTeam, SolvesRefer, Apply, CountBy;
      RunKeepsLedger(price, db, Init(ops));
      StepKeepsLedger(price, ApplyAll(price, db, Init(ops)), Last(ops));
    }
  }

  ghost predicate AlwaysMatch(price: Price, db: Db, ops: seq<Op>)
    decreases |ops|
  {
    CountsMatch(ApplyAll(price, db, ops)) && (ops != [] ==> AlwaysMatch(price, db, Init(ops)))
  }

  ghost predicate NeverDropsSolves(price: Price, db: Db, ops: seq<Op>)
    decreases |ops|
  {
    ops != [] ==> NeverDropsSolves(price, db, Init(ops)) && DropsNoSolve(ApplyAll(price, db, Init(ops)), Last(ops))
  }

  /** So in all its states counts are the numbers of solves in the table exactly when every team that it cleans
      up or purges has no solves by then. */
  lemma {:induction false} RunKeepsCountsIff(price: Price, db: Db, ops: seq<Op>)
    requires Unsolved(db)
    ensures AlwaysMatch(price, db, ops) <==> NeverDropsSolves(price, db, ops)
    decreases |ops|
  {
    if ops != [] {
      hide OnePerTeam, SolvesRefer, CountsMatch, Apply, DropsNoSolve;
      RunKeepsCountsIff(price, db, Init(ops));
      RunKeepsLedger(price, db, Init(ops));
      if AlwaysMatch(price, db, Init(ops)) {
        assert CountsMatch(ApplyAll(price, db, Init(ops)));
        StepKeepsCountsIff(price, ApplyAll(price, db, Init(ops)), Last(ops));
      }
    }
  }

  /** And in all its states prices are the formula's for the counts exactly when every edit in it set the
      price the formula gives. */
  lemma {:induction false} RunKeepsPricesIff(price: Price, db: Db, ops: seq<Op>)
    requires Unsolved(db)
    ensures AlwaysFollow(price, db, ops) <==> AllPriced(price, db, ops)
    decreases |ops|
  {
    if ops != [] {
      hide OnePerTeam, SolvesRefer, PricesFollowCounts, Apply, IsPriced;
      RunKeepsPricesIff(price, db, Init(ops));
      RunKeepsLedger(price, db, Init(ops));
      if AlwaysFollow(price, db, Init(ops)) {
        assert PricesFollowCounts(price, ApplyAll(price, db, Init(ops)));
        StepKeepsPricesIff(price, ApplyAll(price, db, Init(ops)), Last(ops));
      }
    }
  }
}
