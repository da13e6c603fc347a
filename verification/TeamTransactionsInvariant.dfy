/** What every step of the interleaved transactions keeps. */
module TeamTransactionsInvariant {
  import opened Prelude
  import opened TeamRosters
  import opened TeamTransactions

  // ---- what a transaction may rely on, thanks to its locks ------------------------------------------------

  /** The team a Join has locked has a free place, though it need not be active any more. */
  predicate HasPlace(r: Roster, max: int, target: Option<nat>) {
    target.Some? ==> target.value in r.teams && |Members(r, target.value)| < max
  }

  predicate IsFor(op: Op, target: Option<nat>) {
    if op.Join? then target.Some? else target.None? && (op.Create? || op.CreateSolo?)
  }

  predicate OwnOk(r: Roster, u: nat, own: Option<nat>) {
    u in r.users && r.users[u].team == own && (own.Some? ==> IsActive(r, own.value))
  }

  predicate RowsOk(r: Roster, op: Op, t: nat, rows: set<nat>, todo: set<nat>)
    requires t in r.teams
  {
    match op
    case Leave(u) => r.teams[t].captain != u && todo == rows == {}
    case Transfer(u, v) => r.teams[t].captain == u && v in Members(r, t) && todo == rows == {}
    case Disband(u) => r.teams[t].captain == u && rows + todo + {u} == Members(r, t)
    case Kick(u, v) => r.teams[t].captain == u && u != v && v in Members(r, t) && rows + todo == {v}
    case _ => false
  }

  /** What the guards leave out. */
  predicate NotOnOneself(op: Op) {
    (op.Kick? ==> op.captain != op.target) && (op.Transfer? ==> op.captain != op.newCaptain)
  }

  predicate TxOk(r: Roster, max: int, tx: Tx) {
    NotOnOneself(tx.op) && PhaseOk(r, max, tx)
  }

  predicate PhaseOk(r: Roster, max: int, tx: Tx) {
    var u := Actor(tx.op);
    match tx.phase
    case Begun => true
    case UserLocked => u in r.users && !tx.op.CreateSolo?
    case Looked(_) => u in r.users && tx.op.Join?
    case Ready(target) => u in r.users && IsFor(tx.op, target) && HasPlace(r, max, target)
    case Counted(target, own) =>
      u in r.users && r.users[u].team == Some(own) && IsFor(tx.op, target) && HasPlace(r, max, target)
    case Cleaned(target, own) => OwnOk(r, u, own) && IsFor(tx.op, target) && HasPlace(r, max, target)
    case Named(own, _) => OwnOk(r, u, own) && tx.op.CreateSolo?
    case Inserted(own, name) => OwnOk(r, u, own) && IsFor(tx.op, None) && !NameIsTaken(r, name)
    case OwnLocked(t, rows, todo) => OwnOk(r, u, Some(t)) && ActsOnOwn(tx.op) && t in r.teams && RowsOk(r, tx.op, t, rows, todo)
  }

  ghost predicate AllOk(s: Sys) {
    forall i :: i in s.txs ==> TxOk(s.roster, s.max, s.txs[i])
  }

  /** No two transactions hold the lock of one row, or have inserted one name. */
  ghost predicate LocksApart(txs: map<nat, Tx>) {
    forall i, j :: i in txs && j in txs && i != j ==> Apart(txs[i], txs[j])
  }

  predicate Apart(x: Tx, y: Tx) {
    LockedUsers(x) !! LockedUsers(y) && LockedTeams(x) !! LockedTeams(y) && TakenNames(x) !! TakenNames(y)
  }

  function NewIds(op: Op): set<nat> {
    if op.Create? || op.CreateSolo? then {op.team} else {}
  }

  function NewTokens(op: Op): set<nat> {
    if op.Create? || op.CreateSolo? then {op.token} else {}
  }

  /** The team a transaction will insert is not there yet, and no other will insert its id or token. */
  ghost predicate IdsApart(s: Sys) {
    && s.roster.teams.Keys <= s.ids
    && (forall t :: t in s.roster.teams ==> s.roster.teams[t].token in s.tokens)
    && (forall i :: i in s.txs ==> IdOk(s, s.txs[i].op))
    && (forall i, j :: i in s.txs && j in s.txs && i != j ==>
          NewIds(s.txs[i].op) !! NewIds(s.txs[j].op) && NewTokens(s.txs[i].op) !! NewTokens(s.txs[j].op))
  }

  ghost predicate IdOk(s: Sys, op: Op) {
    op.Create? || op.CreateSolo? ==>
      && op.team in s.ids && op.team !in s.roster.teams
      && op.token in s.tokens && TokenIsNew(s.roster, op.token)
  }

  ghost predicate SysInv(s: Sys) {
    Inv(s.roster, s.max) && AllOk(s) && LocksApart(s.txs) && IdsApart(s) && s.txs.Keys <= s.begun
  }

  lemma EmptyHolds(max: int)
    ensures SysInv(Empty(max)) && NoOneIsStranded(EMPTY)
  {
  }

  // ---- a change to some rows leaves what other transactions rely on ----------------------------------------

  /** The rosters differ at most in these rows of users and teams, and in the members of these teams. */
  ghost predicate Differ(r: Roster, r': Roster, users: set<nat>, teams: set<nat>) {
    && (forall u :: u !in users ==> (u in r.users <==> u in r'.users))
    && (forall u :: u !in users && u in r.users ==> r'.users[u] == r.users[u])
    && (forall t :: t !in teams ==> (t in r.teams <==> t in r'.teams))
    && (forall t :: t !in teams && t in r.teams ==> r'.teams[t] == r.teams[t])
    && (forall t :: t !in teams ==> Members(r', t) == Members(r, t))
  }

  lemma TxStays(r: Roster, r': Roster, max: int, tx: Tx, users: set<nat>, teams: set<nat>)
    requires TxOk(r, max, tx) && Differ(r, r', users, teams)
    requires users !! LockedUsers(tx) && teams !! LockedTeams(tx)
    requires forall name :: name in TakenNames(tx) && NameIsTaken(r', name) ==> NameIsTaken(r, name)
    ensures TxOk(r', max, tx)
  {
    hide Members, NameIsTaken;
    var u := Actor(tx.op);
    if tx.phase.OwnLocked? {
      assert u in LockedUsers(tx) && tx.phase.team in LockedTeams(tx);
    } else if !tx.phase.Begun? {
      assert u in LockedUsers(tx);
    }
  }

  lemma AllOkStays(s: Sys, r': Roster, txs: map<nat, Tx>, users: set<nat>, teams: set<nat>)
    requires AllOk(s) && Differ(s.roster, r', users, teams) && txs.Keys <= s.txs.Keys
    requires forall i :: i in txs ==>
      txs[i] == s.txs[i] && users !! LockedUsers(txs[i]) && teams !! LockedTeams(txs[i])
    requires forall i, name :: i in txs && name in TakenNames(txs[i]) && NameIsTaken(r', name) ==> NameIsTaken(s.roster, name)
    ensures forall i :: i in txs ==> TxOk(r', s.max, txs[i])
  {
    forall i | i in txs ensures TxOk(r', s.max, txs[i]) {
      TxStays(s.roster, r', s.max, s.txs[i], users, teams);
    }
  }

  // ---- a statement ------------------------------------------------------------------------------------------

  lemma StatementIsOk(r: Roster, max: int, tx: Tx)
    requires TxOk(r, max, tx) && Statement(r, max, tx).Ok?
    ensures TxOk(r, max, tx.(phase := Statement(r, max, tx).value))
  {
    hide NameIsActive, NameIsTaken, SoloName, TeamByToken;
    if tx.phase.UserLocked? && ActsOnOwn(tx.op) {
      CheckIsOk(r, tx.op);
    }
    hide Members, Check;
  }

  lemma CheckIsOk(r: Roster, op: Op)
    requires ActsOnOwn(op) && Check(r, op).Ok? && NotOnOneself(op)
    ensures
      var t := Check(r, op).value;
      OwnOk(r, Actor(op), Some(t)) && RowsOk(r, op, t, {}, RowsToLock(r, op, t))
  {
    if op.Disband? {
      var t := Check(r, op).value;
      assert op.captain in Members(r, t);
      assert {} + (Members(r, t) - {op.captain}) + {op.captain} == Members(r, t);
    }
  }

  lemma StatementLocks(s: Sys, i: nat)
    requires i in s.txs && CanMove(s, i) && TxOk(s.roster, s.max, s.txs[i]) && Statement(s.roster, s.max, s.txs[i]).Ok?
    ensures
      var tx, tx' := s.txs[i], s.txs[i].(phase := Statement(s.roster, s.max, s.txs[i]).value);
      && (forall u :: u in LockedUsers(tx') ==> u in LockedUsers(tx) || UserFree(s, i, u))
      && (forall t :: t in LockedTeams(tx') ==> t in LockedTeams(tx) || TeamFree(s, i, t))
      && (forall name :: name in TakenNames(tx') ==> NameFree(s, i, name))
  {
    hide Members, NameIsActive, NameIsTaken, SoloName, TeamByToken, UserFree, TeamFree, NameFree;
  }

  // ---- a commit ---------------------------------------------------------------------------------------------

  lemma CommitDiffers(r: Roster, max: int, tx: Tx)
    requires TxOk(r, max, tx) && CanCommit(tx)
    ensures Differ(r, Committed(r, tx), LockedUsers(tx), LockedTeams(tx) + NewIds(tx.op))
  {
    if tx.op.Join? {
      MoveDiffers(r, Actor(tx.op), tx.phase.own, tx.phase.target.value);
    } else if ActsOnOwn(tx.op) {
      WriteDiffers(r, tx.op, tx.phase.team, tx.phase.rows);
    } else {
      FoundDiffers(r, Actor(tx.op), tx.phase.own, tx.op.team, NewTeam(tx.op, tx.phase.name));
    }
  }

  lemma MoveDiffers(r: Roster, u: nat, own: Option<nat>, target: nat)
    requires OwnOk(r, u, own)
    ensures Differ(r, SetTeam(SoftDeleteOwn(r, own), u, Some(target)), {u}, Row(Some(target)) + Row(own))
  {
    var r' := SetTeam(SoftDeleteOwn(r, own), u, Some(target));
    forall t | t !in Row(Some(target)) + Row(own) ensures Members(r', t) == Members(r, t) {
      assert forall v :: IsOn(r', v, t) <==> IsOn(r, v, t);
    }
  }

  lemma FoundDiffers(r: Roster, u: nat, own: Option<nat>, id: nat, team: Team)
    requires OwnOk(r, u, own)
    ensures Differ(r, SetTeam(AddTeam(SoftDeleteOwn(r, own), id, team), u, Some(id)), {u}, Row(own) + {id})
  {
    var r' := SetTeam(AddTeam(SoftDeleteOwn(r, own), id, team), u, Some(id));
    forall t | t !in Row(own) + {id} ensures Members(r', t) == Members(r, t) {
      assert forall v :: IsOn(r', v, t) <==> IsOn(r, v, t);
    }
  }

  lemma WriteDiffers(r: Roster, op: Op, t: nat, rows: set<nat>)
    requires ActsOnOwn(op) && OwnOk(r, Actor(op), Some(t)) && RowsOk(r, op, t, rows, {})
    ensures Differ(r, Write(r, op, t), {Actor(op)} + rows, {t})
  {
    var r' := Write(r, op, t);
    forall x | x != t ensures Members(r', x) == Members(r, x) {
      assert forall v :: IsOn(r', v, x) <==> IsOn(r, v, x) by {
        if op.Disband? {
          assert forall v :: IsOn(r, v, t) <==> v in Members(r, t);
        }
      }
    }
    if op.Disband? {
      assert forall v :: v in r.users && r.users[v].team == Some(t) ==> v in Members(r, t);
    }
  }

  lemma CommitKeepsRoster(r: Roster, max: int, tx: Tx)
    requires Inv(r, max) && TxOk(r, max, tx) && CanCommit(tx)
    requires NewIds(tx.op) !! r.teams.Keys && (NewTokens(tx.op) != {} ==> TokenIsNew(r, tx.op.token))
    ensures Inv(Committed(r, tx), max)
  {
    hide Inv, SetTeam, SoftDeleteOwn, AddTeam, Write, NameIsTaken, TokenIsNew;
    if tx.op.Join? {
      MoveKeepsInv(r, max, Actor(tx.op), tx.phase.own, tx.phase.target.value);
    } else if ActsOnOwn(tx.op) {
      WriteKeepsInv(r, max, tx.op, tx.phase.team, tx.phase.rows);
    } else {
      FoundKeepsInv(r, max, Actor(tx.op), tx.phase.own, tx.op.team, NewTeam(tx.op, tx.phase.name));
    }
  }

  lemma WriteKeepsInv(r: Roster, max: int, op: Op, t: nat, rows: set<nat>)
    requires Inv(r, max) && ActsOnOwn(op) && OwnOk(r, Actor(op), Some(t)) && RowsOk(r, op, t, rows, {})
    ensures Inv(Write(r, op, t), max)
  {
    hide Inv, SetTeam, SetCaptain;
    match op {
      case Leave(u) => ReleaseKeepsInv(r, max, u, t);
      case Transfer(_, v) => SetCaptainKeepsInv(r, max, t, v);
      case Disband(_) => DisbandKeepsInv(r, max, t);
      case Kick(_, v) => ReleaseKeepsInv(r, max, v, t);
    }
  }

  /** No name appears in the table but the one the transaction has inserted. */
  lemma CommitAddsItsName(r: Roster, max: int, tx: Tx, name: string)
    requires TxOk(r, max, tx) && CanCommit(tx) && NameIsTaken(Committed(r, tx), name)
    ensures NameIsTaken(r, name) || name in TakenNames(tx)
  {
    var r' := Committed(r, tx);
    var t :| t in r'.teams && r'.teams[t].name == name;
    if t in r.teams && r.teams[t].name == name {
      assert NameIsTaken(r, name);
    }
  }

  // ---- every step -------------------------------------------------------------------------------------------

  lemma LocksStayApart(txs: map<nat, Tx>, i: nat, tx: Tx)
    requires LocksApart(txs) && forall j :: j in txs && j != i ==> Apart(txs[j], tx) && Apart(tx, txs[j])
    ensures LocksApart(txs[i := tx])
  {
  }

  /** A transaction takes locks that are free, and stays true to what it read. */
  lemma PhaseKeepsInv(s: Sys, i: nat, phase: Phase)
    requires SysInv(s) && i in s.txs
    requires
      var tx, tx' := s.txs[i], s.txs[i].(phase := phase);
      && TxOk(s.roster, s.max, tx')
      && (forall u :: u in LockedUsers(tx') ==> u in LockedUsers(tx) || UserFree(s, i, u))
      && (forall t :: t in LockedTeams(tx') ==> t in LockedTeams(tx) || TeamFree(s, i, t))
      && (forall name :: name in TakenNames(tx') ==> NameFree(s, i, name))
    ensures SysInv(SetPhase(s, i, phase))
  {
    hide Inv, TxOk, LockedUsers, LockedTeams, TakenNames;
    PhaseKeepsLocks(s, i, s.txs[i].(phase := phase));
    SameOpsSameIds(s, SetPhase(s, i, phase));
    hide LocksApart, IdsApart;
  }

  lemma PhaseKeepsLocks(s: Sys, i: nat, tx': Tx)
    requires LocksApart(s.txs) && i in s.txs
    requires
      var tx := s.txs[i];
      && (forall u :: u in LockedUsers(tx') ==> u in LockedUsers(tx) || UserFree(s, i, u))
      && (forall t :: t in LockedTeams(tx') ==> t in LockedTeams(tx) || TeamFree(s, i, t))
      && (forall name :: name in TakenNames(tx') ==> NameFree(s, i, name))
    ensures LocksApart(s.txs[i := tx'])
  {
    hide LockedUsers, LockedTeams, TakenNames;
    forall j | j in s.txs && j != i ensures Apart(s.txs[j], tx') && Apart(tx', s.txs[j]) {
      assert Apart(s.txs[j], s.txs[i]);
      assert Others(s, i, j);
    }
    LocksStayApart(s.txs, i, tx');
  }

  lemma SameOpsSameIds(s: Sys, t: Sys)
    requires IdsApart(s) && t.roster == s.roster && t.ids == s.ids && t.tokens == s.tokens
    requires forall i :: i in t.txs ==> i in s.txs && t.txs[i].op == s.txs[i].op
    ensures IdsApart(t)
  {
    forall i | i in t.txs ensures IdOk(t, t.txs[i].op) {
      assert IdOk(s, s.txs[i].op);
    }
  }

  lemma EndKeepsInv(s: Sys, i: nat)
    requires SysInv(s)
    ensures SysInv(Ended(s, i))
  {
    hide Inv, TxOk, Apart;
    SameOpsSameIds(s, Ended(s, i));
  }

  lemma StartKeepsIds(s: Sys, i: nat, op: Op)
    requires IdsApart(s) && i !in s.txs && IsFresh(s, op)
    ensures IdsApart(Started(s, i, op))
  {
    var t := Started(s, i, op);
    assert t.roster == s.roster;
    forall j | j in t.txs ensures IdOk(t, t.txs[j].op) {
      if j != i {
        assert IdOk(s, s.txs[j].op);
      }
    }
    forall j | j in s.txs ensures NewIds(op) !! NewIds(s.txs[j].op) && NewTokens(op) !! NewTokens(s.txs[j].op) {
      assert IdOk(s, s.txs[j].op);
    }
    hide IdOk, IsFresh, NewIds, NewTokens;
  }

  lemma BeginKeepsInv(s: Sys, i: nat, req: Request)
    requires SysInv(s) && Enabled(s, Begin(i, req))
    ensures SysInv(Next(s, Begin(i, req)))
  {
    hide SysInv;
    if Guard(req).None? {
      StartKeepsInv(s, i, req.op);
    } else {
      RefusalKeepsInv(s, i);
    }
  }

  lemma StartKeepsInv(s: Sys, i: nat, op: Op)
    requires SysInv(s) && i !in s.begun && IsFresh(s, op) && NotOnOneself(op)
    ensures SysInv(Started(s, i, op))
  {
    hide Inv, IdsApart;
    StartKeepsIds(s, i, op);
    LocksStayApart(s.txs, i, Tx(op, Begun));
    assert TxOk(s.roster, s.max, Tx(op, Begun));
    hide TxOk, LocksApart, IsFresh;
  }

  lemma RefusalKeepsInv(s: Sys, i: nat)
    requires SysInv(s)
    ensures SysInv(s.(begun := s.begun + {i}))
  {
    hide Inv, TxOk, LocksApart;
    SameOpsSameIds(s, s.(begun := s.begun + {i}));
    hide IdsApart;
  }

  lemma CommitKeepsOthers(s: Sys, i: nat)
    requires SysInv(s) && Enabled(s, Commit(i))
    ensures AllOk(Next(s, Commit(i)))
  {
    hide Inv;
    var tx, t := s.txs[i], Next(s, Commit(i));
    CommitDiffers(s.roster, s.max, tx);
    var users, teams := LockedUsers(tx), LockedTeams(tx) + NewIds(tx.op);
    forall j | j in t.txs
      ensures t.txs[j] == s.txs[j] && users !! LockedUsers(t.txs[j]) && teams !! LockedTeams(t.txs[j])
    {
      assert Apart(tx, s.txs[j]);
      LockedTeamsExist(s.roster, s.max, s.txs[j]);
      assert IdOk(s, tx.op);
      hide TxOk, CanCommit, LockedUsers, LockedTeams, TakenNames, AllOk, Differ;
    }
    forall j, name | j in t.txs && name in TakenNames(t.txs[j]) && NameIsTaken(t.roster, name)
      ensures NameIsTaken(s.roster, name)
    {
      CommitAddsItsName(s.roster, s.max, tx, name);
      assert Apart(tx, s.txs[j]);
      hide TxOk, CanCommit, LockedUsers, LockedTeams, TakenNames, AllOk, Differ, NameIsTaken, Committed;
    }
    hide TxOk, CanCommit, LockedUsers, LockedTeams, TakenNames, Differ, NameIsTaken, Committed;
    AllOkStays(s, t.roster, t.txs, users, teams);
  }

  lemma LockedTeamsExist(r: Roster, max: int, tx: Tx)
    requires TxOk(r, max, tx)
    ensures LockedTeams(tx) <= r.teams.Keys
  {
  }

  lemma CommitKeepsIds(s: Sys, i: nat)
    requires SysInv(s) && Enabled(s, Commit(i))
    ensures IdsApart(Next(s, Commit(i)))
  {
    hide Inv, AllOk, LocksApart;
    var tx, t := s.txs[i], Next(s, Commit(i));
    assert IdOk(s, tx.op);
    CommittedTeams(s.roster, tx);
    assert TxOk(s.roster, s.max, tx) by { OneIsOk(s, i); }
    hide Committed, TxOk, CanCommit;
    forall j | j in t.txs ensures IdOk(t, t.txs[j].op) {
      assert IdOk(s, s.txs[j].op);
      assert NewIds(tx.op) !! NewIds(s.txs[j].op) && NewTokens(tx.op) !! NewTokens(s.txs[j].op);
    }
  }

  lemma OneIsOk(s: Sys, i: nat)
    requires AllOk(s) && i in s.txs
    ensures TxOk(s.roster, s.max, s.txs[i])
  {
  }

  /** The teams after a commit are those before, with their tokens, and the new one. */
  lemma CommittedTeams(r: Roster, tx: Tx)
    requires CanCommit(tx)
    ensures
      var r' := Committed(r, tx);
      && r'.teams.Keys == r.teams.Keys + NewIds(tx.op)
      && forall t :: t in r'.teams ==> r'.teams[t].token == if t in NewIds(tx.op) then tx.op.token else r.teams[t].token
  {
  }

  lemma CommitKeepsInv(s: Sys, i: nat)
    requires SysInv(s) && Enabled(s, Commit(i))
    ensures SysInv(Next(s, Commit(i)))
  {
    CommitKeepsOthers(s, i);
    CommitKeepsIds(s, i);
    assert IdOk(s, s.txs[i].op);
    hide Inv, AllOk, Committed, TakenNames, LockedUsers, LockedTeams;
    OneIsOk(s, i);
    CommitKeepsRoster(s.roster, s.max, s.txs[i]);
    hide TxOk, CanCommit, Apart, IdsApart;
  }

  lemma PurgeKeepsOthers(s: Sys, teams: set<nat>)
    requires AllOk(s) && Enabled(s, Purge(teams))
    ensures AllOk(Next(s, Purge(teams)))
  {
    var r, r' := s.roster, Purged(s.roster, teams);
    var users := set u | u in r.users && r.users[u].team.Some? && r.users[u].team.value in teams;
    PurgeDiffers(r, teams, users);
    forall i | i in s.txs ensures users !! LockedUsers(s.txs[i]) && teams !! LockedTeams(s.txs[i]) {
      forall u | u in users ensures u !in LockedUsers(s.txs[i]) {
        assert IsOn(r, u, r.users[u].team.value);
      }
    }
    hide Differ, LockedUsers, LockedTeams, TxOk;
    AllOkStays(s, r', s.txs, users, teams);
  }

  lemma FewerTeamsFewerIds(s: Sys, t: Sys)
    requires IdsApart(s) && t.txs == s.txs && t.ids == s.ids && t.tokens == s.tokens
    requires forall x :: x in t.roster.teams ==> x in s.roster.teams && t.roster.teams[x] == s.roster.teams[x]
    ensures IdsApart(t)
  {
    forall i | i in t.txs ensures IdOk(t, t.txs[i].op) {
      assert IdOk(s, s.txs[i].op);
    }
  }

  lemma PurgeKeepsSys(s: Sys, teams: set<nat>)
    requires SysInv(s) && Enabled(s, Purge(teams))
    ensures SysInv(Next(s, Purge(teams)))
  {
    PurgeKeepsOthers(s, teams);
    PurgeKeepsInv(s.roster, s.max, teams);
    hide Inv, AllOk, LocksApart;
    FewerTeamsFewerIds(s, Next(s, Purge(teams)));
    hide IdsApart;
  }

  lemma PurgeDiffers(r: Roster, teams: set<nat>, users: set<nat>)
    requires users == set u | u in r.users && r.users[u].team.Some? && r.users[u].team.value in teams
    ensures Differ(r, Purged(r, teams), users, teams)
  {
    var r' := Purged(r, teams);
    forall t | t !in teams ensures Members(r', t) == Members(r, t) {
      assert forall v :: IsOn(r', v, t) <==> IsOn(r, v, t);
    }
  }

  lemma NewUserKeepsInv(s: Sys, id: nat, name: string)
    requires SysInv(s)
    ensures SysInv(Next(s, NewUser(id, name)))
  {
    hide Inv, AllOk, LocksApart, IdsApart;
    if DoRegister(s.roster, id, name).Ok? {
      RegisterKeepsInv(s.roster, s.max, id, name);
      NewUserKeepsOthers(s, id, name);
      FewerTeamsFewerIds(s, Next(s, NewUser(id, name)));
    }
  }

  lemma NewUserDiffers(r: Roster, id: nat, name: string)
    requires DoRegister(r, id, name).Ok?
    ensures Differ(r, DoRegister(r, id, name).value, {id}, {})
  {
    var r' := DoRegister(r, id, name).value;
    forall x ensures Members(r', x) == Members(r, x) {
      assert forall v :: IsOn(r', v, x) <==> IsOn(r, v, x);
    }
  }

  lemma NewUserKeepsOthers(s: Sys, id: nat, name: string)
    requires AllOk(s) && DoRegister(s.roster, id, name).Ok?
    ensures AllOk(Next(s, NewUser(id, name)))
  {
    var t := Next(s, NewUser(id, name));
    NewUserDiffers(s.roster, id, name);
    forall i | i in s.txs ensures {id} !! LockedUsers(s.txs[i]) {
      OneIsOk(s, i);
      LockedUsersExist(s.roster, s.max, s.txs[i]);
    }
    hide Differ, LockedUsers, LockedTeams, TxOk;
    AllOkStays(s, t.roster, t.txs, {id}, {});
  }

  lemma LockedUsersExist(r: Roster, max: int, tx: Tx)
    requires TxOk(r, max, tx)
    ensures LockedUsers(tx) <= r.users.Keys
  {
    if tx.phase.OwnLocked? {
      assert forall v :: v in Members(r, tx.phase.team) ==> v in r.users;
    }
  }

  lemma StepKeepsInv(s: Sys, step: Step)
    requires SysInv(s) && Enabled(s, step)
    ensures SysInv(Next(s, step))
  {
    hide SysInv, CanMove, Statement, CanCommit;
    match step {
      case NewUser(id, name) => NewUserKeepsInv(s, id, name);
      case Begin(i, req) => BeginKeepsInv(s, i, req);
      case Move(i) => MoveKeepsSys(s, i);
      case LockRow(i, v) => LockRowKeepsInv(s, i, v);
      case Commit(i) => CommitKeepsInv(s, i);
      case Abort(i) => EndKeepsInv(s, i);
      case Purge(teams) => PurgeKeepsSys(s, teams);
    }
  }

  lemma MoveKeepsSys(s: Sys, i: nat)
    requires SysInv(s) && Enabled(s, Move(i))
    ensures SysInv(Next(s, Move(i)))
  {
    OneIsOk(s, i);
    hide SysInv, TxOk, CanMove;
    if Statement(s.roster, s.max, s.txs[i]).Ok? {
      StatementIsOk(s.roster, s.max, s.txs[i]);
      StatementLocks(s, i);
      hide Statement;
      PhaseKeepsInv(s, i, Statement(s.roster, s.max, s.txs[i]).value);
    } else {
      EndKeepsInv(s, i);
    }
  }

  lemma LockRowKeepsInv(s: Sys, i: nat, v: nat)
    requires SysInv(s) && Enabled(s, LockRow(i, v))
    ensures SysInv(Next(s, LockRow(i, v)))
  {
    OneIsOk(s, i);
    var p := s.txs[i].phase;
    assert p.rows + {v} + (p.todo - {v}) == p.rows + p.todo;
    var phase := OwnLocked(p.team, p.rows + {v}, p.todo - {v});
    RowsStayOk(s.roster, s.txs[i].op, p.team, p.rows, p.todo, phase.rows, phase.todo);
    hide SysInv;
    PhaseKeepsInv(s, i, phase);
  }

  lemma RowsStayOk(r: Roster, op: Op, t: nat, rows: set<nat>, todo: set<nat>, rows': set<nat>, todo': set<nat>)
    requires t in r.teams && RowsOk(r, op, t, rows, todo) && rows' + todo' == rows + todo && todo' <= todo && todo != {}
    ensures RowsOk(r, op, t, rows', todo')
  {
  }

  /** Whatever transactions, users' registrations and purges interleave. */
  lemma {:induction false} RunKeepsInv(s: Sys, run: seq<Step>)
    requires SysInv(s) && IsRun(s, run)
    ensures SysInv(After(s, run))
    decreases |run|
  {
    hide SysInv, Next, Enabled;
    if run != [] {
      RunKeepsInv(s, Init(run));
      StepKeepsInv(After(s, Init(run)), Last(run));
    }
  }
}
