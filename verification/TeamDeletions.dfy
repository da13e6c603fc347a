/** Who can delete a team: over every run of interleaved transactions, what a commit that deletes one has
    checked before. */
module TeamDeletions {
  import opened Prelude
  import opened TeamRosters
  import opened TeamTransactions
  import opened TeamTransactionsInvariant
  import opened TeamRosterGuarantees

  /** The user is on the team, it is not deleted, nobody else is on it, and it is a solo or an auto-created team. */
  ghost predicate IsAloneOn(r: Roster, u: nat, t: nat) {
    && t in r.teams && !r.teams[t].deleted && (r.teams[t].isSolo || r.teams[t].isAutoCreated)
    && u in r.users && r.users[u].team == Some(t)
    && forall v :: v in r.users && r.users[v].team == Some(t) ==> v == u
  }

  lemma CountOwnIff(r: Roster, u: nat, confirm: bool, t: nat)
    ensures CountOwn(r, u, confirm) == Ok(Some(t)) <==> confirm && IsAloneOn(r, u, t)
    ensures CountOwn(r, u, confirm) == Ok(None) <==> u in r.users && r.users[u].team == None
  {
    assert forall v :: v in Members(r, t) <==> v in r.users && r.users[v].team == Some(t);
    if IsAloneOn(r, u, t) {
      assert Members(r, t) == {u};
    }
  }

  /** Some statement of transaction i found its actor alone on the team. */
  ghost predicate FoundAlone(s: Sys, run: seq<Step>, i: nat, t: nat)
    requires IsRun(s, run)
    decreases |run|
  {
    run != [] &&
    var before := After(s, Init(run));
    || (Last(run) == Move(i) && i in before.txs && IsAloneOn(before.roster, Actor(before.txs[i].op), t))
    || FoundAlone(s, Init(run), i, t)
  }

  /** The transaction may delete the team: it creates or joins one and was told to go on. */
  predicate IsConfirmed(op: Op) {
    (op.Create? || op.CreateSolo? || op.Join?) && op.confirm
  }

  lemma CountingStatement(s: Sys, i: nat, t: nat)
    requires Enabled(s, Move(i)) && i in Next(s, Move(i)).txs && CountedOwn(Next(s, Move(i)).txs[i]) == Some(t)
    requires CountedOwn(s.txs[i]) != Some(t)
    ensures IsAloneOn(s.roster, Actor(s.txs[i].op), t) && IsConfirmed(s.txs[i].op)
  {
    var op := s.txs[i].op;
    CountOwnIff(s.roster, Actor(op), Replaces(op) && op.confirm, t);
    hide CanMove, Check, NameIsTaken, NameIsActive, SoloName, Members, TeamByToken, CountOwn, IsAloneOn;
  }

  lemma {:induction false} CountedAlone(max: int, run: seq<Step>, i: nat, t: nat)
    requires IsRun(Empty(max), run)
    requires i in After(Empty(max), run).txs && CountedOwn(After(Empty(max), run).txs[i]) == Some(t)
    ensures FoundAlone(Empty(max), run, i, t) && IsConfirmed(After(Empty(max), run).txs[i].op)
    decreases |run|
  {
    EmptyHolds(max);
    hide SysInv, Next, Enabled, CountedOwn, IsAloneOn, IsConfirmed;
    var s := After(Empty(max), Init(run));
    RunKeepsInv(Empty(max), Init(run));
    UsedIds(s);
    StepKeepsOps(s, Last(run), i);
    CountedBefore(s, Last(run), i, t);
    if i in s.txs && CountedOwn(s.txs[i]) == Some(t) {
      CountedAlone(max, Init(run), i, t);
    }
  }

  lemma UsedIds(s: Sys)
    requires SysInv(s)
    ensures s.txs.Keys <= s.begun
  {
  }

  lemma CountedBefore(s: Sys, step: Step, i: nat, t: nat)
    requires s.txs.Keys <= s.begun && Enabled(s, step) && i in Next(s, step).txs && CountedOwn(Next(s, step).txs[i]) == Some(t)
    ensures i in s.txs
    ensures CountedOwn(s.txs[i]) == Some(t)
         || (step == Move(i) && IsAloneOn(s.roster, Actor(s.txs[i].op), t) && IsConfirmed(s.txs[i].op))
  {
    StepKeepsOps(s, step, i);
    assert CountedOwn(Next(s, step).txs[i]) != None ==> Next(s, step).txs[i].phase != Begun;
    hide Enabled, Next, CountedOwn, IsAloneOn, IsConfirmed;
    if step == Move(i) {
      if CountedOwn(s.txs[i]) != Some(t) {
        CountingStatement(s, i, t);
      }
    } else {
      StepLeaves(s, step, i);
    }
  }

  // ---- the deleting step --------------------------------------------------------------------------------------

  /** The step makes a deleted team of an active one. */
  ghost predicate Deletes(s: Sys, step: Step, t: nat)
    requires Enabled(s, step)
  {
    && t in s.roster.teams && !s.roster.teams[t].deleted
    && (t in Next(s, step).roster.teams ==> Next(s, step).roster.teams[t].deleted)
  }

  lemma OnlyCommitsDelete(s: Sys, step: Step, t: nat)
    requires Enabled(s, step) && Deletes(s, step, t)
    ensures step.Commit?
  {
    hide CanMove, Statement;
  }

  lemma CommitDeletes(r: Roster, max: int, tx: Tx, t: nat)
    requires TxOk(r, max, tx) && CanCommit(tx) && t in r.teams && !r.teams[t].deleted
    requires NewIds(tx.op) !! r.teams.Keys
    requires t in Committed(r, tx).teams ==> Committed(r, tx).teams[t].deleted
    ensures
      || (tx.op.Disband? && r.teams[t].captain == tx.op.captain && Actor(tx.op) in r.users && r.users[Actor(tx.op)].team == Some(t))
      || (CountedOwn(tx) == Some(t) && Actor(tx.op) in r.users && r.users[Actor(tx.op)].team == Some(t))
  {
    hide HasPlace, NameIsTaken, NotOnOneself, Members;
  }

  /** Whether a team is solo or auto-created never changes while its row is there. */
  lemma StepKeepsKind(s: Sys, step: Step, t: nat)
    requires SysInv(s) && Enabled(s, step) && t in s.roster.teams && t in Next(s, step).roster.teams
    ensures
      var x, y := s.roster.teams[t], Next(s, step).roster.teams[t];
      y.isSolo == x.isSolo && y.isAutoCreated == x.isAutoCreated && y.name == x.name && y.token == x.token
  {
    if step.Commit? {
      CommittedRoster(s, step.i);
      NewTeamIsNew(s, step.i);
      hide SysInv, Enabled, Next, CanCommit;
      CommitKeepsKind(s.roster, s.txs[step.i], t);
    } else {
      hide SysInv, CanMove, Statement;
    }
  }

  lemma CommitKeepsKind(r: Roster, tx: Tx, t: nat)
    requires CanCommit(tx) && t in r.teams && NewIds(tx.op) !! r.teams.Keys
    ensures t in Committed(r, tx).teams
    ensures
      var x, y := r.teams[t], Committed(r, tx).teams[t];
      y.isSolo == x.isSolo && y.isAutoCreated == x.isAutoCreated && y.name == x.name && y.token == x.token
  {
  }

  lemma {:induction false} FoundIsKept(max: int, run: seq<Step>, i: nat, t: nat)
    requires IsRun(Empty(max), run) && i in After(Empty(max), run).txs && CountedOwn(After(Empty(max), run).txs[i]) == Some(t)
    ensures
      var r := After(Empty(max), run).roster;
      t in r.teams && (r.teams[t].isSolo || r.teams[t].isAutoCreated)
    decreases |run|
  {
    EmptyHolds(max);
    hide SysInv, Next, Enabled, CountedOwn, IsAloneOn, IsConfirmed;
    var s := After(Empty(max), Init(run));
    RunKeepsInv(Empty(max), Init(run));
    RunKeepsInv(Empty(max), run);
    UsedIds(s);
    CountedBefore(s, Last(run), i, t);
    CountedExists(After(Empty(max), run), i, t);
    if CountedOwn(s.txs[i]) == Some(t) {
      FoundIsKept(max, Init(run), i, t);
    } else {
      AloneIsSolo(s.roster, Actor(s.txs[i].op), t);
    }
    StepKeepsKind(s, Last(run), t);
    hide FoundAlone;
  }

  lemma AloneIsSolo(r: Roster, u: nat, t: nat)
    requires IsAloneOn(r, u, t)
    ensures t in r.teams && (r.teams[t].isSolo || r.teams[t].isAutoCreated)
  {
  }

  lemma CountedExists(s: Sys, i: nat, t: nat)
    requires SysInv(s) && i in s.txs && CountedOwn(s.txs[i]) == Some(t)
    ensures t in s.roster.teams
  {
    OneIsOk(s, i);
    hide AllOk, LocksApart, IdsApart, IsLed, FitsLimit, IsUnique, HasPlace, NameIsTaken;
  }

  /** Over every run: a step deletes an active team only as the commit of a Disband by the captain of that team,
      or of a Create, a CreateSolo or a Join with `confirm` by a user whose team it is, who was found alone on it
      by a statement of that transaction, and it is a solo or an auto-created one. */
  lemma OnlyOwnersDelete(max: int, run: seq<Step>, step: Step, t: nat)
    requires IsRun(Empty(max), run) && Enabled(After(Empty(max), run), step) && Deletes(After(Empty(max), run), step, t)
    ensures step.Commit? && step.i in After(Empty(max), run).txs
    ensures
      var s := After(Empty(max), run);
      var op := s.txs[step.i].op;
      && Actor(op) in s.roster.users && s.roster.users[Actor(op)].team == Some(t)
      && (|| (op.Disband? && s.roster.teams[t].captain == op.captain)
          || (&& IsConfirmed(op) && FoundAlone(Empty(max), run, step.i, t)
              && (s.roster.teams[t].isSolo || s.roster.teams[t].isAutoCreated)))
  {
    var s := After(Empty(max), run);
    EmptyHolds(max);
    OnlyCommitsDelete(s, step, t);
    CommittedRoster(s, step.i);
    RunKeepsInv(Empty(max), run);
    var tx := s.txs[step.i];
    assert TxOk(s.roster, s.max, tx) by { OneIsOk(s, step.i); }
    assert NewIds(tx.op) !! s.roster.teams.Keys by { NewTeamIsNew(s, step.i); }
    hide SysInv, Enabled, CountedOwn, TxOk, CanCommit, Committed, IsRun, After, FoundAlone, IsConfirmed;
    CommitDeletes(s.roster, s.max, tx, t);
    if CountedOwn(tx) == Some(t) {
      CountedAlone(max, run, step.i, t);
      FoundIsKept(max, run, step.i, t);
    }
  }

  lemma NewTeamIsNew(s: Sys, i: nat)
    requires SysInv(s) && i in s.txs
    ensures NewIds(s.txs[i].op) !! s.roster.teams.Keys
  {
    assert IdOk(s, s.txs[i].op);
    hide Inv, AllOk, LocksApart;
  }

  /** And one that is not confirmed commits only for a user without a team, and deletes none. */
  lemma UnconfirmedDeletesNothing(max: int, run: seq<Step>, i: nat)
    requires IsRun(Empty(max), run) && Enabled(After(Empty(max), run), Commit(i))
    requires
      var op := After(Empty(max), run).txs[i].op;
      (op.Create? || op.CreateSolo? || op.Join?) && !op.confirm
    ensures
      var s := After(Empty(max), run);
      var u := Actor(s.txs[i].op);
      && u in s.roster.users && s.roster.users[u].team == None
      && forall t :: !Deletes(s, Commit(i), t)
  {
    var s := After(Empty(max), run);
    EmptyHolds(max);
    RunKeepsInv(Empty(max), run);
    OneIsOk(s, i);
    OwnOrNone(s.roster, s.max, s.txs[i]);
    hide SysInv, CountedOwn, TxOk, CanCommit, IsRun, After, FoundAlone, Next, Enabled, Deletes;
    if CountedOwn(s.txs[i]).Some? {
      CountedAlone(max, run, i, CountedOwn(s.txs[i]).value);
    }
    forall t ensures !Deletes(s, Commit(i), t) {
      if Deletes(s, Commit(i), t) {
        OnlyOwnersDelete(max, run, Commit(i), t);
        assert false;
      }
    }
  }

  lemma OwnOrNone(r: Roster, max: int, tx: Tx)
    requires TxOk(r, max, tx) && CanCommit(tx) && !ActsOnOwn(tx.op)
    ensures Actor(tx.op) in r.users && r.users[Actor(tx.op)].team == CountedOwn(tx)
  {
    hide HasPlace, NameIsTaken, Members;
  }

  // ---- statements that come too late --------------------------------------------------------------------------

  /** A Join whose team was purged after the look-up, and a reset whose own team was deleted after the count, fail
      because there is no such team; a full team is refused. And a transaction that only waits for rows, or for its
      commit, has no other statement. */
  lemma LateStatements(s: Sys, i: nat)
    requires i in s.txs
    ensures
      var r, tx := s.roster, s.txs[i];
      && (tx.phase.Looked? && tx.phase.found !in r.teams ==> Statement(r, s.max, tx) == Err(ErrTeamNotFound))
      && (tx.phase.Looked? && tx.phase.found in r.teams && |Members(r, tx.phase.found)| >= s.max ==>
            Statement(r, s.max, tx) == Err(ErrTeamFull))
      && (tx.phase.Counted? && (tx.phase.counted !in r.teams || r.teams[tx.phase.counted].deleted) ==>
            Statement(r, s.max, tx) == Err(ErrTeamNotFound))
      && (tx.phase.Inserted? || tx.phase.OwnLocked? ==> !Enabled(s, Move(i)))
  {
    hide Members;
  }
}
