/** A team operation that nothing interferes with: what it does, and what undoes it. */
module TeamAlone {
  import opened Prelude
  import opened TeamRosters
  import opened TeamTransactions
  import opened TeamTransactionsInvariant
  import opened TeamRosterGuarantees
  import opened TeamDeletions

  // ---- the statements of one transaction, one after the other -----------------------------------------------

  function Rank(phase: Phase): nat {
    match phase
    case Begun => 8
    case UserLocked => 7
    case Looked(_) => 6
    case Ready(_) => 5
    case Counted(_, _) => 4
    case Cleaned(_, _) => 3
    case Named(_, _) => 2
    case Inserted(_, _) => 1
    case OwnLocked(_, _, _) => 0
  }

  lemma StatementRanks(r: Roster, max: int, tx: Tx)
    requires Statement(r, max, tx).Ok?
    ensures Rank(Statement(r, max, tx).value) < Rank(tx.phase)
  {
  }

  /** The roster when a transaction that is alone has run to its end, or the error of the statement that failed. */
  ghost function Outcome(r: Roster, max: int, tx: Tx): Result<Roster, TeamError>
    decreases Rank(tx.phase)
  {
    if CanCommit(tx) then Ok(Committed(r, tx))
    else if tx.phase.OwnLocked? then Ok(if ActsOnOwn(tx.op) then Write(r, tx.op, tx.phase.team) else r)
    else
      var done := Statement(r, max, tx);
      if done.Err? then Err(done.error)
      else
        StatementRanks(r, max, tx);
        Outcome(r, max, tx.(phase := done.value))
  }

  lemma ReplacedOutcome(r: Roster, max: int, op: Op, target: Option<nat>)
    requires Replaces(op) && IsFor(op, target) && Actor(op) in r.users
    ensures
      var own := CountOwn(r, Actor(op), op.confirm);
      Outcome(r, max, Tx(op, Ready(target))) ==
        (if own.Err? then Err(own.error) else Outcome(r, max, Tx(op, Cleaned(target, own.value))))
  {
    hide Members, NameIsTaken, NameIsActive, TeamByToken;
    var own := CountOwn(r, Actor(op), op.confirm);
    if own.Ok? && own.value.Some? {
      var counted := Tx(op, Counted(target, own.value.value));
      assert Outcome(r, max, counted) == Outcome(r, max, Tx(op, Cleaned(target, own.value)));
    }
  }

  lemma CreateOutcome(r: Roster, max: int, op: Op)
    requires op.Create?
    ensures Outcome(r, max, Tx(op, Begun)) == DoCreate(r, op)
  {
    hide Members, NameIsTaken, NameIsActive, TeamByToken, CountOwn, SetTeam, AddTeam, SoftDeleteOwn;
    if op.user in r.users {
      var locked := Tx(op, UserLocked);
      assert Outcome(r, max, Tx(op, Begun)) == Outcome(r, max, locked);
      if !NameIsActive(r, op.teamName) {
        assert Outcome(r, max, locked) == Outcome(r, max, Tx(op, Ready(None)));
        ReplacedOutcome(r, max, op, None);
      }
    }
  }

  lemma CreateSoloOutcome(r: Roster, max: int, op: Op)
    requires op.CreateSolo?
    ensures Outcome(r, max, Tx(op, Begun)) == DoCreateSolo(r, op)
  {
    if op.user in r.users {
      ReplacedOutcome(r, max, op, None);
      hide Members, NameIsTaken, NameIsActive, TeamByToken, CountOwn, SetTeam, AddTeam, SoftDeleteOwn, SoloName;
      assert Outcome(r, max, Tx(op, Begun)) == Outcome(r, max, Tx(op, Ready(None)));
      var own := CountOwn(r, op.user, op.confirm);
      if own.Ok? {
        var name := SoloName(SoftDeleteOwn(r, own.value), r.users[op.user].name);
        assert Outcome(r, max, Tx(op, Cleaned(None, own.value))) == Outcome(r, max, Tx(op, Named(own.value, name)));
        assert Outcome(r, max, Tx(op, Named(own.value, name))) ==
          if NameIsTaken(r, name) then Err(ErrDatabase) else Outcome(r, max, Tx(op, Inserted(own.value, name)));
      }
    }
  }

  lemma JoinOutcome(r: Roster, max: int, op: Op)
    requires op.Join?
    ensures Outcome(r, max, Tx(op, Begun)) == DoJoin(r, max, op)
  {
    if op.user in r.users {
      assert Outcome(r, max, Tx(op, Begun)) == Outcome(r, max, Tx(op, UserLocked));
      var target := TeamByToken(r, op.invite);
      if target.Some? {
        ReplacedOutcome(r, max, op, target);
        hide Members, CountOwn, SetTeam, SoftDeleteOwn, TeamByToken;
        assert Outcome(r, max, Tx(op, UserLocked)) == Outcome(r, max, Tx(op, Looked(target.value)));
      }
    }
  }

  lemma OutcomeIsDo(r: Roster, max: int, op: Op)
    ensures Outcome(r, max, Tx(op, Begun)) == DoOp(r, max, op)
  {
    if op.Create? {
      CreateOutcome(r, max, op);
    } else if op.CreateSolo? {
      CreateSoloOutcome(r, max, op);
    } else if op.Join? {
      JoinOutcome(r, max, op);
    } else {
      hide Members, Write, RowsToLock;
      if Actor(op) in r.users {
        assert Outcome(r, max, Tx(op, Begun)) == Outcome(r, max, Tx(op, UserLocked));
        var own := Check(r, op);
        if own.Ok? {
          var rows := RowsToLock(r, op, own.value);
          assert Outcome(r, max, Tx(op, UserLocked)) == Outcome(r, max, Tx(op, OwnLocked(own.value, {}, rows)));
        }
      }
    }
  }

  // ---- a transaction that is alone is a run -------------------------------------------------------------------

  lemma NothingToWaitFor(s: Sys, i: nat)
    requires s.txs.Keys == {i} && AllOk(s) && !CanCommit(s.txs[i]) && !s.txs[i].phase.OwnLocked?
    ensures Enabled(s, Move(i))
  {
    OneIsOk(s, i);
    assert forall j :: !Others(s, i, j);
    hide Members, NameIsTaken;
  }

  lemma MoveKeepsOutcome(s: Sys, i: nat)
    requires s.txs.Keys == {i} && Enabled(s, Move(i)) && !CanCommit(s.txs[i]) && !s.txs[i].phase.OwnLocked?
    ensures
      var t := Next(s, Move(i));
      && t.roster == s.roster && t.max == s.max && t.begun == s.begun && t.ids == s.ids && t.tokens == s.tokens
      && (if t.txs == map[] then
            Statement(s.roster, s.max, s.txs[i]).Err?
            && Outcome(s.roster, s.max, s.txs[i]) == Err(Statement(s.roster, s.max, s.txs[i]).error)
          else t.txs.Keys == {i} && Outcome(s.roster, s.max, t.txs[i]) == Outcome(s.roster, s.max, s.txs[i])
               && Rank(t.txs[i].phase) < Rank(s.txs[i].phase))
  {
    hide Statement, CanMove, Committed, CanCommit;
    var done := Statement(s.roster, s.max, s.txs[i]);
    if done.Ok? {
      assert i in Next(s, Move(i)).txs;
      StatementRanks(s.roster, s.max, s.txs[i]);
    }
  }

  lemma LockRowKeepsOutcome(s: Sys, i: nat, v: nat)
    requires s.txs.Keys == {i} && AllOk(s) && s.txs[i].phase.OwnLocked? && v in s.txs[i].phase.todo
    ensures Enabled(s, LockRow(i, v))
    ensures
      var t := Next(s, LockRow(i, v));
      && t.roster == s.roster && t.max == s.max && t.begun == s.begun && t.ids == s.ids && t.tokens == s.tokens
      && t.txs.Keys == {i} && Outcome(s.roster, s.max, t.txs[i]) == Outcome(s.roster, s.max, s.txs[i])
      && t.txs[i].phase.OwnLocked? && t.txs[i].phase.todo < s.txs[i].phase.todo
  {
    OneIsOk(s, i);
    assert forall j :: !Others(s, i, j);
    hide Write;
  }

  lemma CommitIsOutcome(s: Sys, i: nat)
    requires s.txs.Keys == {i} && CanCommit(s.txs[i])
    ensures Enabled(s, Commit(i))
    ensures
      var t := Next(s, Commit(i));
      t.txs == map[] && Outcome(s.roster, s.max, s.txs[i]) == Ok(t.roster) && t.max == s.max
  {
    hide Committed, CanCommit;
  }

  function Todo(phase: Phase): set<nat> {
    if phase.OwnLocked? then phase.todo else {}
  }

  /** The last step of the run is a statement of transaction i that fails with this error. */
  ghost predicate FailsWith(s: Sys, run: seq<Step>, i: nat, e: TeamError)
    requires IsRun(s, run)
  {
    run != [] && Last(run) == Move(i) &&
    var before := After(s, Init(run));
    i in before.txs && Statement(before.roster, before.max, before.txs[i]) == Err(e)
  }

  lemma LaterFailure(s: Sys, first: seq<Step>, rest: seq<Step>, i: nat, e: TeamError)
    requires IsRun(s, first) && IsRun(After(s, first), rest) && FailsWith(After(s, first), rest, i, e)
    ensures IsRun(s, first + rest) && FailsWith(s, first + rest, i, e)
  {
    hide Next, Enabled, Statement;
    RunsCompose(s, first, rest);
    RunsCompose(s, first, Init(rest));
    assert Init(first + rest) == first + Init(rest);
  }

  lemma {:induction false} RunsToItsEnd(s: Sys, i: nat) returns (run: seq<Step>)
    requires SysInv(s) && s.txs.Keys == {i}
    ensures IsRun(s, run) && NoPurge(run)
    ensures After(s, run).txs == map[]
    ensures Outcome(s.roster, s.max, s.txs[i]).Ok? ==> After(s, run).roster == Outcome(s.roster, s.max, s.txs[i]).value
    ensures Outcome(s.roster, s.max, s.txs[i]).Err? ==>
      After(s, run).roster == s.roster && FailsWith(s, run, i, Outcome(s.roster, s.max, s.txs[i]).error)
    decreases Rank(s.txs[i].phase), Todo(s.txs[i].phase)
  {
    hide Next, Enabled, CanCommit, TxOk, IsRun, After, Outcome, FailsWith;
    var step: Step;
    if CanCommit(s.txs[i]) {
      step := Commit(i);
      CommitIsOutcome(s, i);
      SingleStepRun(s, step);
      return [step];
    }
    if s.txs[i].phase.OwnLocked? {
      OneIsOk(s, i);
      TodoRemains(s.roster, s.max, s.txs[i]);
      var v :| v in s.txs[i].phase.todo;
      step := LockRow(i, v);
      LockRowKeepsOutcome(s, i, v);
    } else {
      step := Move(i);
      NothingToWaitFor(s, i);
      MoveKeepsOutcome(s, i);
    }
    StepKeepsInv(s, step);
    SingleStepRun(s, step);
    if Next(s, step).txs == map[] {
      FailsAtOnce(s, i);
      return [step];
    }
    var rest := RunsToItsEnd(Next(s, step), i);
    RunsCompose(s, [step], rest);
    if Outcome(s.roster, s.max, s.txs[i]).Err? {
      LaterFailure(s, [step], rest, i, Outcome(s.roster, s.max, s.txs[i]).error);
    }
    run := [step] + rest;
  }

  lemma FailsAtOnce(s: Sys, i: nat)
    requires i in s.txs && Enabled(s, Move(i)) && Statement(s.roster, s.max, s.txs[i]).Err?
    ensures IsRun(s, [Move(i)]) && FailsWith(s, [Move(i)], i, Statement(s.roster, s.max, s.txs[i]).error)
  {
    hide Enabled, Next, Statement;
    SingleStepRun(s, Move(i));
    assert Init([Move(i)]) == [];
  }

  lemma TodoRemains(r: Roster, max: int, tx: Tx)
    requires TxOk(r, max, tx) && tx.phase.OwnLocked? && !CanCommit(tx)
    ensures tx.phase.todo != {}
  {
  }

  /** An operation that runs while no other transaction is open is a run of the statements. It does to the roster
      what the operation says; or it fails at the guard, or at a statement that returns its error, and leaves the
      roster as it was. */
  lemma RunAlone(s: Sys, i: nat, req: Request) returns (run: seq<Step>)
    requires SysInv(s) && s.txs == map[] && Enabled(s, Begin(i, req))
    ensures IsRun(s, run) && NoPurge(run)
    ensures After(s, run).txs == map[] && After(s, run).roster == AfterOne(s.roster, s.max, req)
    ensures Do(s.roster, s.max, req).Err? ==>
      if Guard(req).Some? then run == [Begin(i, req)] else FailsWith(s, run, i, Do(s.roster, s.max, req).error)
  {
    var begun := Next(s, Begin(i, req));
    BeginKeepsInv(s, i, req);
    SingleStepRun(s, Begin(i, req));
    run := [Begin(i, req)];
    OutcomeIsDo(s.roster, s.max, req.op);
    hide SysInv, Enabled, IsRun, After, DoOp, Outcome, FailsWith;
    if Guard(req).None? {
      var rest := RunsToItsEnd(begun, i);
      RunsCompose(s, run, rest);
      if DoOp(s.roster, s.max, req.op).Err? {
        LaterFailure(s, run, rest, i, DoOp(s.roster, s.max, req.op).error);
      }
      run := run + rest;
    }
  }

  /** A system at rest with this roster. */
  function Idle(r: Roster, max: int): Sys {
    Sys(r, max, map[], {}, r.teams.Keys, set t | t in r.teams :: r.teams[t].token)
  }

  /** The id and the token of a new team are new. */
  predicate IsNew(r: Roster, op: Op) {
    op.Create? || op.CreateSolo? ==> op.team !in r.teams && TokenIsNew(r, op.token)
  }

  lemma IdleHolds(r: Roster, max: int, req: Request)
    requires Inv(r, max) && IsNew(r, req.op)
    ensures SysInv(Idle(r, max)) && Enabled(Idle(r, max), Begin(0, req))
  {
  }

  /** One operation by itself keeps the roster's invariant. */
  lemma OneKeepsInv(r: Roster, max: int, req: Request)
    requires Inv(r, max) && IsNew(r, req.op)
    ensures Inv(AfterOne(r, max, req), max)
  {
    hide Inv, IsNew, SysInv, Enabled, IsRun, After;
    IdleHolds(r, max, req);
    var run := RunAlone(Idle(r, max), 0, req);
    RunKeepsInv(Idle(r, max), run);
    RunKeepsMax(Idle(r, max), run);
    RosterOf(After(Idle(r, max), run));
  }

  lemma RosterOf(s: Sys)
    requires SysInv(s)
    ensures Inv(s.roster, s.max)
  {
  }

  // ---- getting off a team -----------------------------------------------------------------------------------

  /** The request that takes a user off a team that is not deleted. */
  function WayOut(r: Roster, u: nat): Request
    requires References(r) && u in r.users && r.users[u].team.Some?
  {
    Request(OPEN, if r.teams[r.users[u].team.value].captain == u then Disband(u) else Leave(u))
  }

  lemma WayOutWorks(r: Roster, max: int, u: nat)
    requires Inv(r, max) && u in r.users && r.users[u].team.Some? && !IsStranded(r, u)
    ensures IsOff(AfterOne(r, max, WayOut(r, u)), u)
  {
    var own := r.users[u].team.value;
    assert IsActive(r, own) && IsOn(r, r.teams[own].captain, own) && IsOn(r, u, own);
    if r.teams[own].captain != u {
      SubsetIsSmaller({u, r.teams[own].captain}, Members(r, own));
    }
    hide References, IsLed, FitsLimit, IsUnique, Members;
  }

  predicate IsOff(r: Roster, u: nat) {
    u in r.users && r.users[u].team == None
  }

  lemma WayOutRuns(s: Sys, u: nat) returns (run: seq<Step>)
    requires SysInv(s) && s.txs == map[] && u in s.roster.users && !IsStranded(s.roster, u)
    ensures IsRun(s, run) && NoPurge(run) && IsOff(After(s, run).roster, u)
  {
    RosterOf(s);
    if s.roster.users[u].team.None? {
      return [];
    }
    var i := BoundOf(s.begun);
    var req := WayOut(s.roster, u);
    assert Enabled(s, Begin(i, req));
    WayOutWorks(s.roster, s.max, u);
    hide SysInv, Inv, Enabled, IsRun, After, WayOut, AfterOne;
    run := RunAlone(s, i, req);
  }

  lemma PurgeRuns(s: Sys, u: nat)
    requires SysInv(s) && s.txs == map[] && IsStranded(s.roster, u)
    ensures IsRun(s, [Purge({s.roster.users[u].team.value})])
    ensures IsOff(After(s, [Purge({s.roster.users[u].team.value})]).roster, u)
  {
    var t := s.roster.users[u].team.value;
    hide SysInv, IsRun, After;
    PurgeIsEnabled(s, t);
    SingleStepRun(s, Purge({t}));
    hide Enabled;
  }

  lemma PurgeIsEnabled(s: Sys, t: nat)
    requires s.txs == map[] && t in s.roster.teams && s.roster.teams[t].deleted
    ensures Enabled(s, Purge({t}))
  {
  }

  /** A user can be brought off the team by some run of players' requests exactly when the team is not
      deleted; then one request of their own is enough. With the cleanup command there always is a run. */
  lemma CanGetOutIff(s: Sys, u: nat)
    requires SysInv(s) && s.txs == map[] && u in s.roster.users
    ensures
      (exists run :: IsRun(s, run) && NoPurge(run) && IsOff(After(s, run).roster, u)) <==> !IsStranded(s.roster, u)
    ensures exists run :: IsRun(s, run) && IsOff(After(s, run).roster, u)
  {
    hide SysInv, IsRun, After;
    if IsStranded(s.roster, u) {
      forall run | IsRun(s, run) && NoPurge(run) ensures !IsOff(After(s, run).roster, u) {
        StrandedUntilPurge(s, run, u);
      }
      PurgeRuns(s, u);
    } else {
      var run := WayOutRuns(s, u);
    }
  }

  // ---- what undoes what -----------------------------------------------------------------------------------

  /** A teamless user's join adds that user to the invited team and nothing else: leaving, or being kicked by
      the captain, gives back the very same roster. */
  lemma JoinIsUndone(r: Roster, max: int, req: Request)
    requires Inv(r, max) && req.op.Join? && Do(r, max, req).Ok? && r.users[req.op.user].team == None
    ensures
      var u, r' := req.op.user, Do(r, max, req).value;
      var t := TeamByToken(r, req.op.invite).value;
      && Members(r', t) == Members(r, t) + {u} && u !in Members(r, t) && |Members(r, t)| < max
      && Do(r', max, Request(OPEN, Leave(u))) == Ok(r)
      && Do(r', max, Request(OPEN, Kick(r.teams[t].captain, u))) == Ok(r)
  {
    var u, t := req.op.user, TeamByToken(r, req.op.invite).value;
    JoinIsSetTeam(r, max, req);
    MembersAfterSetTeam(r, u, Some(t), t);
    hide Inv, Members, SetTeam, Do;
    assert u in Members(r, t) <==> IsOn(r, u, t) by {
      MembersAre(r, u, t);
    }
    SetTeamIsUndone(r, max, u, t);
  }

  lemma MembersAre(r: Roster, u: nat, t: nat)
    ensures u in Members(r, t) <==> IsOn(r, u, t)
  {
  }

  lemma JoinIsSetTeam(r: Roster, max: int, req: Request)
    requires Inv(r, max) && req.op.Join? && Do(r, max, req).Ok? && r.users[req.op.user].team == None
    ensures
      var u, target := req.op.user, TeamByToken(r, req.op.invite);
      && u in r.users && target.Some? && Do(r, max, req).value == SetTeam(r, u, target)
      && IsActive(r, target.value) && IsOn(r, r.teams[target.value].captain, target.value)
      && |Members(r, target.value)| < max
  {
    TokenFindsIff(r, req.op.invite, TeamByToken(r, req.op.invite).value);
    hide Members, References, FitsLimit, IsUnique, SetTeam;
  }

  /** A user put on an active team of others gets off it again, or is kicked, and nothing else changes. */
  lemma SetTeamIsUndone(r: Roster, max: int, u: nat, t: nat)
    requires u in r.users && r.users[u].team == None && IsActive(r, t) && IsOn(r, r.teams[t].captain, t)
    ensures Do(SetTeam(r, u, Some(t)), max, Request(OPEN, Leave(u))) == Ok(r)
    ensures Do(SetTeam(r, u, Some(t)), max, Request(OPEN, Kick(r.teams[t].captain, u))) == Ok(r)
  {
    var r', captain := SetTeam(r, u, Some(t)), r.teams[t].captain;
    assert IsOn(r', captain, t) && IsOn(r', u, t);
    SubsetIsSmaller({u, captain}, Members(r', t));
    assert r'.users[u := r.users[u]] == r.users;
    hide Members;
  }

  /** Handing a team over gives it to the new captain and moves no one; handing it back restores the roster. */
  lemma TransferIsUndone(r: Roster, max: int, captain: nat, newCaptain: nat)
    requires Inv(r, max) && Do(r, max, Request(OPEN, Transfer(captain, newCaptain))).Ok?
    ensures
      var r' := Do(r, max, Request(OPEN, Transfer(captain, newCaptain))).value;
      && (forall t :: t in r.teams ==> (IsActive(r', t) && r'.teams[t].captain == newCaptain <==> OwnTeam(r, captain) == Ok(t)))
      && r'.users == r.users && Do(r', max, Request(OPEN, Transfer(newCaptain, captain))) == Ok(r)
  {
    hide Members, FitsLimit, References, IsUnique;
    var own, r' := OwnTeam(r, captain).value, Do(r, max, Request(OPEN, Transfer(captain, newCaptain))).value;
    assert r'.teams[own := r.teams[own]] == r.teams;
    forall t | t in r.teams && t != own && IsActive(r, t) ensures r.teams[t].captain != newCaptain {
      assert IsOn(r, r.teams[t].captain, t);
    }
  }

  // ---- resetting a solo team ------------------------------------------------------------------------------

  lemma SoftDeletedNames(r: Roster, own: nat, name: string)
    requires IsActive(r, own) && IsUnique(r.teams)
    ensures NameIsActive(SoftDelete(r, own), name) <==> NameIsActive(r, name) && r.teams[own].name != name
  {
    var r' := SoftDelete(r, own);
    if NameIsActive(r', name) {
      var t :| t in r'.teams && IsActive(r', t) && r'.teams[t].name == name;
      assert t != own && IsActive(r, t);
    }
    if NameIsActive(r, name) && r.teams[own].name != name {
      var t :| t in r.teams && IsActive(r, t) && r.teams[t].name == name;
      assert IsActive(r', t) && r'.teams[t].name == name;
    }
  }

  /** A confirmed reset into a new solo team goes through exactly when the old team does not carry the user's
      name and no row, deleted ones included, carries the name chosen for the new one. */
  lemma SoloResetIff(r: Roster, max: int, req: Request)
    requires Inv(r, max) && req.op.CreateSolo? && Guard(req) == None && req.op.user in r.users
    requires r.users[req.op.user].team.Some? && req.op.confirm && IsAloneOn(r, req.op.user, r.users[req.op.user].team.value)
    ensures
      var username := r.users[req.op.user].name;
      Do(r, max, req).Ok? <==>
        && r.teams[r.users[req.op.user].team.value].name != username
        && !NameIsTaken(r, SoloName(r, username))
  {
    var own, username := r.users[req.op.user].team.value, r.users[req.op.user].name;
    CountOwnIff(r, req.op.user, true, own);
    SoftDeletedNames(r, own, username);
    assert NameIsTaken(r, r.teams[own].name);
    hide NameIsTaken, NameIsActive, References, IsLed, FitsLimit, IsUnique, Members;
  }

  /** So a solo team made here is never reset here: the second of two solo creations in a row fails,
      confirmed or not. */
  lemma SecondSoloFails(r: Roster, max: int, first: Request, second: Request)
    requires Inv(r, max) && first.op.CreateSolo? && IsNew(r, first.op) && Do(r, max, first).Ok?
    requires second.op.CreateSolo? && second.op.user == first.op.user
    ensures Do(Do(r, max, first).value, max, second).Err?
  {
    var u, r1 := first.op.user, Do(r, max, first).value;
    OneKeepsInv(r, max, first);
    FirstSolo(r, max, first);
    if Guard(second) == None && CountOwn(r1, u, second.op.confirm).Ok? {
      CountOwnIff(r1, u, second.op.confirm, r1.users[u].team.value);
      SoloResetIff(r1, max, second);
      assert NameIsTaken(r1, r1.teams[first.op.team].name);
      hide Do, Inv, NameIsActive, NameIsTaken, CountOwn;
    }
  }

  lemma FirstSolo(r: Roster, max: int, first: Request)
    requires Inv(r, max) && first.op.CreateSolo? && IsNew(r, first.op) && Do(r, max, first).Ok?
    ensures
      var u, r' := first.op.user, Do(r, max, first).value;
      && u in r'.users && r'.users[u].name == r.users[u].name && r'.users[u].team == Some(first.op.team)
      && first.op.team in r'.teams
      && (r'.teams[first.op.team].name == r.users[u].name
          || (NameIsActive(r', r.users[u].name) && r'.teams[first.op.team].name == r.users[u].name + " (Solo)"))
  {
    var u, r' := first.op.user, Do(r, max, first).value;
    var cleaned := SoftDeleteOwn(r, CountOwn(r, u, first.op.confirm).value);
    hide CountOwn, NameIsTaken, References, IsLed, FitsLimit, IsUnique, Members, TokenIsNew;
    if NameIsActive(cleaned, r.users[u].name) {
      var t :| t in cleaned.teams && IsActive(cleaned, t) && cleaned.teams[t].name == r.users[u].name;
      assert IsActive(r', t) && r'.teams[t].name == r.users[u].name;
    }
  }
}
