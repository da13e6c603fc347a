/** What holds of the roster over every run of interleaved transactions, and exactly how a user comes to
    be on a deleted team. */
module TeamRosterGuarantees {
  import opened Prelude
  import opened TeamRosters
  import opened TeamTransactions
  import opened TeamTransactionsInvariant

  const OPEN := Competition(true, Flexible)

  /** After every run from the empty roster, whatever the competition allows at each step: each active team
      has its captain among its members, no team is larger than the limit, memberships and captains refer
      to rows that exist, and no two teams, deleted or not, share a name or a token. */
  lemma RunKeepsRoster(max: int, run: seq<Step>)
    requires IsRun(Empty(max), run)
    ensures Inv(After(Empty(max), run).roster, max)
  {
    EmptyHolds(max);
    RunKeepsInv(Empty(max), run);
    RunKeepsMax(Empty(max), run);
  }

  lemma {:induction false} RunKeepsMax(s: Sys, run: seq<Step>)
    requires IsRun(s, run)
    ensures After(s, run).max == s.max
    decreases |run|
  {
    hide Enabled, Statement;
    if run != [] {
      RunKeepsMax(s, Init(run));
    }
  }

  // ---- being put on a deleted team ----------------------------------------------------------------------

  /** Someone else is on the team a user is about to delete as a solo team. */
  predicate HasCompany(r: Roster, u: nat, own: Option<nat>) {
    own.Some? && Members(r, own.value) != {u}
  }

  /** A commit of a Join whose team has been deleted since it was looked up, or is the user's own solo team,
      which the same transaction deletes; or a commit that deletes a solo team someone has joined since
      its members were counted. */
  ghost predicate Strands(s: Sys, step: Step) {
    && step.Commit? && step.i in s.txs && CanCommit(s.txs[step.i])
    && var tx := s.txs[step.i];
    match tx.phase
    case Cleaned(target, own) =>
      !IsActive(s.roster, target.value) || own == target || HasCompany(s.roster, Actor(tx.op), own)
    case Inserted(own, _) => HasCompany(s.roster, Actor(tx.op), own)
    case _ => false
  }

  lemma SoftDeletedOwn(r: Roster, u: nat, own: Option<nat>)
    requires NoOneIsStranded(r) && OwnOk(r, u, own)
    ensures
      var r' := SoftDeleteOwn(r, own);
      && r'.users == r.users
      && (forall t: nat :: IsActive(r', t) <==> IsActive(r, t) && own != Some(t))
      && (HasCompany(r, u, own) <==> exists v :: v in r.users && v != u && r.users[v].team.Some? && !IsActive(r', r.users[v].team.value))
  {
    var r' := SoftDeleteOwn(r, own);
    if own.Some? {
      assert forall v :: v in Members(r, own.value) <==> v in r.users && r.users[v].team == own;
      if HasCompany(r, u, own) {
        assert u in Members(r, own.value);
        var v :| v in Members(r, own.value) && v != u;
        assert !IsActive(r', r.users[v].team.value);
      }
    }
  }

  lemma JoinStrandsIff(r: Roster, u: nat, own: Option<nat>, target: nat)
    requires NoOneIsStranded(r) && OwnOk(r, u, own)
    ensures
      NoOneIsStranded(SetTeam(SoftDeleteOwn(r, own), u, Some(target)))
      <==> IsActive(r, target) && own != Some(target) && !HasCompany(r, u, own)
  {
    SoftDeletedOwn(r, u, own);
    var r', r2 := SoftDeleteOwn(r, own), SetTeam(SoftDeleteOwn(r, own), u, Some(target));
    hide SoftDeleteOwn, HasCompany, NoOneIsStranded;
    assert forall t: nat :: IsActive(r2, t) <==> IsActive(r', t);
    assert r2.users[u].team == Some(target) && forall v :: v in r.users && v != u ==> r2.users[v] == r.users[v];
    assert NoOneIsStranded(r2) <==> forall v :: v in r2.users && r2.users[v].team.Some? ==> IsActive(r2, r2.users[v].team.value) by {
      StrandedMeans(r2);
    }
  }

  lemma StrandedMeans(r: Roster)
    ensures NoOneIsStranded(r) <==> forall v :: v in r.users && r.users[v].team.Some? ==> IsActive(r, r.users[v].team.value)
  {
  }

  lemma FoundStrandsIff(r: Roster, u: nat, own: Option<nat>, id: nat, team: Team)
    requires NoOneIsStranded(r) && OwnOk(r, u, own) && References(r) && id !in r.teams && !team.deleted
    ensures
      NoOneIsStranded(SetTeam(AddTeam(SoftDeleteOwn(r, own), id, team), u, Some(id))) <==> !HasCompany(r, u, own)
  {
    SoftDeletedOwn(r, u, own);
    var r', r2 := SoftDeleteOwn(r, own), SetTeam(AddTeam(SoftDeleteOwn(r, own), id, team), u, Some(id));
    assert forall v :: v in r.users && r.users[v].team.Some? ==> r.users[v].team.value != id;
    hide SoftDeleteOwn, HasCompany, NoOneIsStranded, References;
    assert forall t: nat :: IsActive(r2, t) <==> IsActive(r', t) || t == id;
    assert r2.users[u].team == Some(id) && forall v :: v in r.users && v != u ==> r2.users[v] == r.users[v];
    StrandedMeans(r2);
  }

  lemma WriteStrandsNoOne(r: Roster, op: Op, t: nat)
    requires NoOneIsStranded(r) && ActsOnOwn(op) && t in r.teams
    ensures NoOneIsStranded(Write(r, op, t))
  {
  }

  lemma CommitStrandsIff(s: Sys, i: nat)
    requires SysInv(s) && Enabled(s, Commit(i)) && NoOneIsStranded(s.roster)
    ensures NoOneIsStranded(Next(s, Commit(i)).roster) <==> !Strands(s, Commit(i))
  {
    OneIsOk(s, i);
    assert IdOk(s, s.txs[i].op);
    hide AllOk, LocksApart, IdsApart, NoOneIsStranded, SetTeam, SoftDeleteOwn, AddTeam, HasCompany, Write, NameIsTaken, IsLed, FitsLimit, IsUnique, References;
    var r, tx := s.roster, s.txs[i];
    var u := Actor(tx.op);
    if tx.op.Join? {
      JoinStrandsIff(r, u, tx.phase.own, tx.phase.target.value);
    } else if ActsOnOwn(tx.op) {
      WriteStrandsNoOne(r, tx.op, tx.phase.team);
    } else {
      FoundStrandsIff(r, u, tx.phase.own, tx.op.team, NewTeam(tx.op, tx.phase.name));
    }
  }

  lemma OtherStepsStrandNoOne(s: Sys, step: Step)
    requires Enabled(s, step) && NoOneIsStranded(s.roster) && !step.Commit?
    ensures NoOneIsStranded(Next(s, step).roster)
  {
    hide CanMove, Statement;
  }

  /** One step puts someone on a deleted team exactly when it is such a commit. */
  lemma StepStrandsIff(s: Sys, step: Step)
    requires SysInv(s) && Enabled(s, step) && NoOneIsStranded(s.roster)
    ensures NoOneIsStranded(Next(s, step).roster) <==> !Strands(s, step)
  {
    hide SysInv, Enabled, Next, NoOneIsStranded;
    if step.Commit? {
      CommitStrandsIff(s, step.i);
    } else {
      OtherStepsStrandNoOne(s, step);
    }
  }

  /** In no state of the run is anyone on a deleted team. */
  ghost predicate NeverStranded(s: Sys, run: seq<Step>)
    requires IsRun(s, run)
    decreases |run|
  {
    NoOneIsStranded(After(s, run).roster) && (run != [] ==> NeverStranded(s, Init(run)))
  }

  /** No step of the run is a commit that strands. */
  ghost predicate NoStrandingCommit(s: Sys, run: seq<Step>)
    requires IsRun(s, run)
    decreases |run|
  {
    run != [] ==> NoStrandingCommit(s, Init(run)) && !Strands(After(s, Init(run)), Last(run))
  }

  /** Over every run of interleaved transactions and purges: no one is ever on a deleted team exactly when no
      commit of the run deletes or joins past such a race. */
  lemma {:induction false} RunStrandsIff(max: int, run: seq<Step>)
    requires IsRun(Empty(max), run)
    ensures NeverStranded(Empty(max), run) <==> NoStrandingCommit(Empty(max), run)
    decreases |run|
  {
    EmptyHolds(max);
    if run != [] {
      hide SysInv, Next, Enabled, Strands, NoOneIsStranded;
      RunStrandsIff(max, Init(run));
      RunKeepsInv(Empty(max), Init(run));
      if NeverStranded(Empty(max), Init(run)) {
        StepStrandsIff(After(Empty(max), Init(run)), Last(run));
      }
    }
  }

  // ---- what happened in between -------------------------------------------------------------------------

  /** The team a Join has looked up. */
  function TargetOf(tx: Tx): Option<nat> {
    match tx.phase
    case Looked(t) => Some(t)
    case Ready(target) => target
    case Counted(target, _) => target
    case Cleaned(target, _) => target
    case _ => None
  }

  /** The solo team whose members a transaction has counted. */
  function CountedOwn(tx: Tx): Option<nat> {
    match tx.phase
    case Counted(_, own) => Some(own)
    case Cleaned(_, own) => own
    case Named(own, _) => own
    case Inserted(own, _) => own
    case _ => None
  }

  predicate OtherCommit(step: Step, i: nat) {
    step.Commit? && step.i != i
  }

  /** After transaction i had looked team t up, another one's commit deleted it. */
  ghost predicate DeletedMeanwhile(s: Sys, run: seq<Step>, i: nat, t: nat)
    requires IsRun(s, run)
    decreases |run|
  {
    run != [] &&
    var before, after := After(s, Init(run)), After(s, run);
    || (i in before.txs && TargetOf(before.txs[i]) == Some(t) && OtherCommit(Last(run), i)
        && IsActive(before.roster, t) && !IsActive(after.roster, t))
    || DeletedMeanwhile(s, Init(run), i, t)
  }

  lemma TargetStepIsActive(s: Sys, step: Step, i: nat, t: nat)
    requires SysInv(s) && Enabled(s, step) && i in Next(s, step).txs && TargetOf(Next(s, step).txs[i]) == Some(t)
    requires !IsActive(Next(s, step).roster, t)
    ensures i in s.txs && TargetOf(s.txs[i]) == Some(t)
    ensures IsActive(s.roster, t) ==> OtherCommit(step, i)
  {
    hide SysInv, CanMove, CountOwn, Check, NameIsTaken, NameIsActive, SoloName, CanCommit;
    if step.Move? && step.i == i {
      assert IsUnique(s.roster.teams) by { RosterIsUnique(s); }
    }
  }

  lemma RosterIsUnique(s: Sys)
    requires SysInv(s)
    ensures IsUnique(s.roster.teams)
  {
  }

  /** The first race: a team that is deleted although a Join in progress has looked it up was deleted by
      another transaction's commit after the look-up. */
  lemma {:induction false} DeletedSinceLookup(max: int, run: seq<Step>, i: nat, t: nat)
    requires IsRun(Empty(max), run)
    requires i in After(Empty(max), run).txs && TargetOf(After(Empty(max), run).txs[i]) == Some(t)
    requires !IsActive(After(Empty(max), run).roster, t)
    ensures DeletedMeanwhile(Empty(max), run, i, t)
    decreases |run|
  {
    EmptyHolds(max);
    hide SysInv, Next, Enabled, TargetOf;
    RunKeepsInv(Empty(max), Init(run));
    TargetStepIsActive(After(Empty(max), Init(run)), Last(run), i, t);
    if !IsActive(After(Empty(max), Init(run)).roster, t) {
      DeletedSinceLookup(max, Init(run), i, t);
    }
  }

  /** After transaction i had counted itself alone on its own team, another one's commit, a Join, changed that. */
  ghost predicate JoinedMeanwhile(s: Sys, run: seq<Step>, i: nat, own: nat)
    requires IsRun(s, run)
    decreases |run|
  {
    run != [] &&
    var before, after := After(s, Init(run)), After(s, run);
    || (i in before.txs && CountedOwn(before.txs[i]) == Some(own) && OtherCommit(Last(run), i)
        && Last(run).i in before.txs && before.txs[Last(run).i].op.Join?
        && Members(before.roster, own) == {Actor(before.txs[i].op)} != Members(after.roster, own))
    || JoinedMeanwhile(s, Init(run), i, own)
  }

  lemma CountedActorIsLocked(tx: Tx, own: nat)
    requires CountedOwn(tx) == Some(own)
    ensures Actor(tx.op) in LockedUsers(tx)
  {
  }

  /** Any other transaction than a Join that is about to commit has locked its actor's row, and at most the
      team its actor is on. */
  lemma ActorIsOnLockedTeam(r: Roster, max: int, tx: Tx, t: nat)
    requires TxOk(r, max, tx) && CanCommit(tx) && !tx.op.Join?
    ensures Actor(tx.op) in LockedUsers(tx)
    ensures t in LockedTeams(tx) ==> IsOn(r, Actor(tx.op), t)
  {
    hide HasPlace, RowsOk, NameIsTaken, NotOnOneself, IsActive;
  }

  lemma CommitLeavesMembers(r: Roster, max: int, tx: Tx, t: nat)
    requires TxOk(r, max, tx) && CanCommit(tx) && t !in LockedTeams(tx) + NewIds(tx.op)
    ensures Members(Committed(r, tx), t) == Members(r, t)
  {
    CommitDiffers(r, max, tx);
    hide TxOk, CanCommit, Committed, LockedTeams, LockedUsers, Members, NewIds;
  }

  lemma CommittedRoster(s: Sys, i: nat)
    requires Enabled(s, Commit(i))
    ensures i in s.txs && CanCommit(s.txs[i]) && Next(s, Commit(i)).roster == Committed(s.roster, s.txs[i])
  {
    hide Committed, CanCommit;
  }

  lemma IdsAreNew(s: Sys, i: nat, u: nat, t: nat)
    requires SysInv(s) && i in s.txs && IsOn(s.roster, u, t)
    ensures t !in NewIds(s.txs[i].op)
  {
    assert IdOk(s, s.txs[i].op);
    hide AllOk, LocksApart, IsLed, FitsLimit, IsUnique;
  }

  lemma ActorsApart(s: Sys, i: nat, j: nat)
    requires SysInv(s) && i in s.txs && j in s.txs && i != j
    ensures LockedUsers(s.txs[i]) !! LockedUsers(s.txs[j])
  {
    assert Apart(s.txs[i], s.txs[j]);
  }

  /** It leaves alone the team that another transaction has counted its own actor alone on. */
  lemma CountedTeamIsLeftAlone(s: Sys, i: nat, j: nat, own: nat)
    requires SysInv(s) && i in s.txs && j in s.txs && i != j && CountedOwn(s.txs[i]) == Some(own)
    requires Members(s.roster, own) == {Actor(s.txs[i].op)} && CanCommit(s.txs[j]) && !s.txs[j].op.Join?
    ensures own !in LockedTeams(s.txs[j]) + NewIds(s.txs[j].op)
  {
    var tx, u := s.txs[j], Actor(s.txs[i].op);
    OneIsOk(s, j);
    ActorsApart(s, i, j);
    CountedActorIsLocked(s.txs[i], own);
    hide SysInv, CanCommit, TxOk, LockedUsers, LockedTeams, NewIds, CountedOwn, Actor;
    ActorIsOnLockedTeam(s.roster, s.max, tx, own);
    assert u in Members(s.roster, own);
    IdsAreNew(s, j, u, own);
    if own in LockedTeams(tx) {
      assert false;
    }
  }

  lemma OwnCommitIsJoin(s: Sys, i: nat, j: nat, own: nat)
    requires SysInv(s) && i in s.txs && j != i && Enabled(s, Commit(j)) && CountedOwn(s.txs[i]) == Some(own)
    requires Members(s.roster, own) == {Actor(s.txs[i].op)} != Members(Next(s, Commit(j)).roster, own)
    ensures s.txs[j].op.Join?
  {
    CommittedRoster(s, j);
    if !s.txs[j].op.Join? {
      assert TxOk(s.roster, s.max, s.txs[j]) by { OneIsOk(s, j); }
      hide SysInv, Enabled, Next, CanCommit, TxOk, LockedTeams, NewIds, CountedOwn, Committed, Actor, Members;
      CountedTeamIsLeftAlone(s, i, j, own);
      CommitLeavesMembers(s.roster, s.max, s.txs[j], own);
      assert false;
    }
  }

  lemma CountStatement(s: Sys, i: nat, own: nat)
    requires Enabled(s, Move(i)) && i in Next(s, Move(i)).txs && CountedOwn(Next(s, Move(i)).txs[i]) == Some(own)
    requires Members(s.roster, own) != {Actor(s.txs[i].op)}
    ensures CountedOwn(s.txs[i]) == Some(own)
  {
    hide CanMove, Check, NameIsTaken, NameIsActive, SoloName, Members, TeamByToken;
  }

  lemma StepLeaves(s: Sys, step: Step, i: nat)
    requires s.txs.Keys <= s.begun && Enabled(s, step) && i in Next(s, step).txs && step != Move(i) && i in s.txs
    ensures CountedOwn(Next(s, step).txs[i]) == CountedOwn(s.txs[i])
    ensures step.Begin? || step.Move? || step.LockRow? || step.Abort? ==> Next(s, step).roster == s.roster
  {
    hide CanMove, Statement;
  }

  lemma StepKeepsOps(s: Sys, step: Step, i: nat)
    requires s.txs.Keys <= s.begun && Enabled(s, step) && i in Next(s, step).txs
    ensures i in s.txs ==> Next(s, step).txs[i].op == s.txs[i].op
    ensures i !in s.txs ==> Next(s, step).txs[i].phase == Begun
  {
    hide CanMove, Statement;
  }

  lemma CountStep(s: Sys, step: Step, i: nat, own: nat)
    requires SysInv(s) && Enabled(s, step) && i in Next(s, step).txs && CountedOwn(Next(s, step).txs[i]) == Some(own)
    requires Members(Next(s, step).roster, own) != {Actor(Next(s, step).txs[i].op)}
    ensures i in s.txs && CountedOwn(s.txs[i]) == Some(own) && s.txs[i].op == Next(s, step).txs[i].op
    ensures Members(s.roster, own) == {Actor(s.txs[i].op)} ==> OtherCommit(step, i)
  {
    StepKeepsOps(s, step, i);
    if step == Move(i) {
      CountStatement(s, i, own);
    } else {
      StepLeaves(s, step, i);
      if step.Purge? {
        PurgeLeavesCounted(s, step.teams, i, own);
      } else if step.NewUser? && DoRegister(s.roster, step.id, step.name).Ok? {
        NewUserIsOnNoTeam(s.roster, step.id, step.name, own);
      }
    }
    hide SysInv, CanMove, Statement, CanCommit, Members, CountedOwn;
  }

  lemma NewUserIsOnNoTeam(r: Roster, id: nat, name: string, t: nat)
    requires DoRegister(r, id, name).Ok?
    ensures Members(DoRegister(r, id, name).value, t) == Members(r, t)
  {
    assert forall v :: IsOn(DoRegister(r, id, name).value, v, t) <==> IsOn(r, v, t);
  }

  lemma PurgeLeavesCounted(s: Sys, teams: set<nat>, i: nat, own: nat)
    requires SysInv(s) && Enabled(s, Purge(teams)) && i in s.txs && CountedOwn(s.txs[i]) == Some(own)
    ensures Members(Purged(s.roster, teams), own) == Members(s.roster, own)
  {
    OneIsOk(s, i);
    var u := Actor(s.txs[i].op);
    assert IsOn(s.roster, u, own) && u in LockedUsers(s.txs[i]);
    assert own !in teams;
    assert forall v :: IsOn(Purged(s.roster, teams), v, own) <==> IsOn(s.roster, v, own);
  }

  /** The second race: a team that has other members although a transaction in progress has counted its
      actor alone on it was joined by another transaction after the count. */
  lemma {:induction false} JoinedSinceCount(max: int, run: seq<Step>, i: nat, own: nat)
    requires IsRun(Empty(max), run)
    requires i in After(Empty(max), run).txs && CountedOwn(After(Empty(max), run).txs[i]) == Some(own)
    requires Members(After(Empty(max), run).roster, own) != {Actor(After(Empty(max), run).txs[i].op)}
    ensures JoinedMeanwhile(Empty(max), run, i, own)
    decreases |run|
  {
    EmptyHolds(max);
    hide SysInv, Next, Enabled, CountedOwn, Members;
    var s := After(Empty(max), Init(run));
    RunKeepsInv(Empty(max), Init(run));
    CountStep(s, Last(run), i, own);
    if Members(s.roster, own) != {Actor(s.txs[i].op)} {
      JoinedSinceCount(max, Init(run), i, own);
    } else {
      var j := Last(run).i;
      assert Enabled(s, Commit(j));
      CommitIsOpen(s, j);
      OwnCommitIsJoin(s, i, j, own);
    }
  }

  lemma CommitIsOpen(s: Sys, j: nat)
    requires Enabled(s, Commit(j))
    ensures j in s.txs
  {
  }

  // ---- staying there, and getting off ---------------------------------------------------------------------

  predicate NoPurge(run: seq<Step>) {
    forall k :: 0 <= k < |run| ==> !run[k].Purge?
  }

  predicate Purges(step: Step, t: nat) {
    step.Purge? && t in step.teams
  }

  /** Who is on a deleted team stays on it, whichever step is next, until the team's row is purged; and the
      purge frees them. */
  lemma StrandedStays(s: Sys, step: Step, u: nat)
    requires SysInv(s) && Enabled(s, step) && IsStranded(s.roster, u)
    ensures !Purges(step, s.roster.users[u].team.value) ==>
      IsStranded(Next(s, step).roster, u) && Next(s, step).roster.users[u].team == s.roster.users[u].team
    ensures Purges(step, s.roster.users[u].team.value) ==>
      u in Next(s, step).roster.users && Next(s, step).roster.users[u].team == None
  {
    if step.Commit? {
      OneIsOk(s, step.i);
      assert IdOk(s, s.txs[step.i].op);
      hide AllOk, LocksApart, IdsApart, IsLed, FitsLimit, IsUnique;
      CommitLeavesStranded(s.roster, s.max, s.txs[step.i], u);
      hide Committed, TxOk;
    } else {
      hide SysInv, CanMove, Statement;
    }
  }

  lemma CommitLeavesStranded(r: Roster, max: int, tx: Tx, u: nat)
    requires TxOk(r, max, tx) && CanCommit(tx) && IsStranded(r, u) && NewIds(tx.op) !! r.teams.Keys
    ensures IsStranded(Committed(r, tx), u) && Committed(r, tx).users[u] == r.users[u]
  {
    CommitDiffers(r, max, tx);
    if tx.phase.OwnLocked? {
      assert forall v :: v in Members(r, tx.phase.team) ==> IsOn(r, v, tx.phase.team);
    }
    assert u !in LockedUsers(tx);
    CommitKeepsDeleted(r, tx, r.users[u].team.value);
  }

  lemma CommitKeepsDeleted(r: Roster, tx: Tx, t: nat)
    requires CanCommit(tx) && t in r.teams && r.teams[t].deleted && NewIds(tx.op) !! r.teams.Keys
    ensures t in Committed(r, tx).teams && Committed(r, tx).teams[t].deleted
  {
  }

  /** So over every run in which that team is not purged. */
  lemma {:induction false} StrandedUntilPurge(s: Sys, run: seq<Step>, u: nat)
    requires SysInv(s) && IsRun(s, run) && IsStranded(s.roster, u)
    requires forall k :: 0 <= k < |run| ==> !Purges(run[k], s.roster.users[u].team.value)
    ensures IsStranded(After(s, run).roster, u) && After(s, run).roster.users[u].team == s.roster.users[u].team
    decreases |run|
  {
    hide SysInv, Next, Enabled;
    if run != [] {
      assert forall k :: 0 <= k < |Init(run)| ==> Init(run)[k] == run[k];
      StrandedUntilPurge(s, Init(run), u);
      RunKeepsInv(s, Init(run));
      StrandedStays(After(s, Init(run)), Last(run), u);
    }
  }

  // ---- the competition's rules over whole runs ------------------------------------------------------------

  /** No active team has changed, no team is new, and no one has moved, but for the stranded who are free. */
  ghost predicate Stays(r: Roster, r': Roster) {
    && (forall t: nat :: IsActive(r, t) ==> t in r'.teams && r'.teams[t] == r.teams[t])
    && (forall t :: t in r'.teams ==> t in r.teams && r'.teams[t] == r.teams[t])
    && (forall u :: u in r.users ==> u in r'.users && UserStays(r, r', u))
    && (forall u :: u in r'.users && u !in r.users ==> r'.users[u].team == None)
  }

  predicate UserStays(r: Roster, r': Roster, u: nat)
    requires u in r.users && u in r'.users
  {
    r'.users[u] == r.users[u] || (IsStranded(r, u) && r'.users[u] == User(r.users[u].name, None))
  }

  lemma StaysFurther(r: Roster, r': Roster, r2: Roster)
    requires Stays(r, r') && Stays(r', r2)
    ensures Stays(r, r2)
  {
    forall u | u in r.users ensures u in r2.users && UserStays(r, r2, u) {
      assert UserStays(r, r', u) && UserStays(r', r2, u);
    }
  }

  lemma IdleStepStays(s: Sys, step: Step)
    requires s.txs == map[] && Enabled(s, step) && (step.Begin? ==> !step.req.comp.allowTeamSwitch)
    ensures Next(s, step).txs == map[] && Stays(s.roster, Next(s, step).roster)
  {
    var r, r' := s.roster, Next(s, step).roster;
    forall u | u in r.users ensures u in r'.users && UserStays(r, r', u) {
    }
    hide CanMove, Statement;
  }

  /** From a state with no open transaction, while switching is not allowed: no run begins one, changes an
      active team or moves anyone, but that a purge frees the stranded. */
  lemma {:induction false} FrozenRosterStays(s: Sys, run: seq<Step>)
    requires s.txs == map[] && IsRun(s, run)
    requires forall k :: 0 <= k < |run| ==> (run[k].Begin? ==> !run[k].req.comp.allowTeamSwitch)
    ensures After(s, run).txs == map[] && Stays(s.roster, After(s, run).roster)
    decreases |run|
  {
    if run == [] {
      assert Stays(s.roster, s.roster);
    } else {
      hide Enabled, Next, Stays;
      assert forall k :: 0 <= k < |Init(run)| ==> Init(run)[k] == run[k];
      FrozenRosterStays(s, Init(run));
      IdleStepStays(After(s, Init(run)), Last(run));
      StaysFurther(s.roster, After(s, Init(run)).roster, After(s, run).roster);
    }
  }

  ghost predicate AllSolo(s: Sys) {
    && (forall t :: t in s.roster.teams ==> s.roster.teams[t].isSolo)
    && (forall i :: i in s.txs ==> !s.txs[i].op.Create?)
  }

  lemma SoloModeStep(s: Sys, step: Step)
    requires AllSolo(s) && Enabled(s, step) && (step.Begin? ==> step.req.comp.mode == SoloOnly)
    ensures AllSolo(Next(s, step))
  {
    if step.Commit? {
      assert !s.txs[step.i].op.Create?;
      SoloCommit(s.roster, s.txs[step.i]);
      hide Committed, CanCommit;
    } else {
      hide CanMove, Statement;
    }
  }

  lemma SoloCommit(r: Roster, tx: Tx)
    requires CanCommit(tx) && !tx.op.Create? && forall t :: t in r.teams ==> r.teams[t].isSolo
    ensures forall t :: t in Committed(r, tx).teams ==> Committed(r, tx).teams[t].isSolo
  {
  }

  /** A competition that is solo from the start only ever has solo teams. */
  lemma {:induction false} SoloModeMakesSoloTeams(max: int, run: seq<Step>)
    requires IsRun(Empty(max), run)
    requires forall k :: 0 <= k < |run| ==> (run[k].Begin? ==> run[k].req.comp.mode == SoloOnly)
    ensures forall t :: t in After(Empty(max), run).roster.teams ==> After(Empty(max), run).roster.teams[t].isSolo
    ensures AllSolo(After(Empty(max), run))
    decreases |run|
  {
    if run != [] {
      hide Enabled, Next;
      assert forall k :: 0 <= k < |Init(run)| ==> Init(run)[k] == run[k];
      SoloModeMakesSoloTeams(max, Init(run));
      SoloModeStep(After(Empty(max), Init(run)), Last(run));
    }
  }

  /** A request begins a transaction exactly when switching is allowed, the mode allows what it makes, and it does
      not hand the team over to oneself or kick oneself. */
  lemma BeginsIff(s: Sys, i: nat, req: Request)
    requires s.txs.Keys <= s.begun && Enabled(s, Begin(i, req))
    ensures i in Next(s, Begin(i, req)).txs <==>
      && req.comp.allowTeamSwitch
      && !(req.op.Create? && req.comp.mode == SoloOnly) && !(req.op.CreateSolo? && req.comp.mode == TeamsOnly)
      && !(req.op.Transfer? && req.op.captain == req.op.newCaptain) && !(req.op.Kick? && req.op.captain == req.op.target)
  {
  }

  ghost predicate NoSoloCreation(s: Sys) {
    forall i :: i in s.txs ==> !s.txs[i].op.CreateSolo?
  }

  lemma TeamsModeStep(s: Sys, step: Step)
    requires NoSoloCreation(s) && Enabled(s, step) && (step.Begin? ==> step.req.comp.mode == TeamsOnly)
    ensures NoSoloCreation(Next(s, step))
  {
    hide CanMove, Statement, CanCommit, Committed;
  }

  /** In a competition for teams only no solo creation is ever in progress, and so none commits. */
  lemma {:induction false} TeamsModeMakesNoSoloTeams(max: int, run: seq<Step>, i: nat)
    requires IsRun(Empty(max), run)
    requires forall k :: 0 <= k < |run| ==> (run[k].Begin? ==> run[k].req.comp.mode == TeamsOnly)
    ensures NoSoloCreation(After(Empty(max), run))
    ensures i in After(Empty(max), run).txs ==> !After(Empty(max), run).txs[i].op.CreateSolo?
    decreases |run|
  {
    if run != [] {
      hide Enabled, Next;
      assert forall k :: 0 <= k < |Init(run)| ==> Init(run)[k] == run[k];
      TeamsModeMakesNoSoloTeams(max, Init(run), i);
      TeamsModeStep(After(Empty(max), Init(run)), Last(run));
    }
  }
}
