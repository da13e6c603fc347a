/** The transactions of backend/internal/usecase/team/team.go as a labelled transition system. They run at
    the isolation level READ COMMITTED (backend/internal/repo/persistent/tx_base.go): a statement reads
    what is committed when it runs, a row that is locked or written stays locked until the transaction
    ends, and what is written shows to others at the commit. One step is one statement that can block or
    whose answer can go out of date; a run is any interleaving. What a statement reads under a lock is
    read in the step that takes the lock. */
module TeamTransactions {
  import opened Prelude
  import opened TeamRosters

  /** How far a transaction has come. */
  datatype Phase =
    | Begun
    | UserLocked                                          // the actor's row, FOR UPDATE
    | Looked(found: nat)                                  // Join: the team of the invite token
    | Ready(target: Option<nat>)                          // Join: that team's row locked, its members counted
    | Counted(target: Option<nat>, counted: nat)             // alone on a solo team of one's own, by the count
    | Cleaned(target: Option<nat>, own: Option<nat>)      // that team soft-deleted, its row locked
    | Named(own: Option<nat>, name: string)               // the new team's name chosen
    | Inserted(own: Option<nat>, name: string)            // the new team inserted, its name taken
    | OwnLocked(team: nat, rows: set<nat>, todo: set<nat>) // Leave, Transfer, Disband, Kick: checks done

  datatype Tx = Tx(op: Op, phase: Phase)

  /** `begun`, `ids` and `tokens` are all that were ever used. */
  datatype Sys = Sys(roster: Roster, max: int, txs: map<nat, Tx>, begun: set<nat>, ids: set<nat>, tokens: set<nat>)

  function Empty(max: int): Sys {
    Sys(EMPTY, max, map[], {}, {}, {})
  }

  datatype Step =
    | NewUser(id: nat, name: string)
    | Begin(i: nat, req: Request)   // the guards, and the transaction if they let it begin
    | Move(i: nat)                  // its next statement; one that fails rolls it back
    | LockRow(i: nat, user: nat)    // Kick, Disband: the update of another user's row
    | Commit(i: nat)
    | Abort(i: nat)                 // a deadlock, a lost connection, a cancelled request
    | Purge(teams: set<nat>)        // the cleanup command

  // ---- locks --------------------------------------------------------------------------------------------

  function Row(team: Option<nat>): set<nat> {
    if team.Some? then {team.value} else {}
  }

  function LockedUsers(tx: Tx): set<nat> {
    match tx.phase
    case Begun => {}
    case OwnLocked(_, rows, _) => {Actor(tx.op)} + rows
    case _ => {Actor(tx.op)}
  }

  function LockedTeams(tx: Tx): set<nat> {
    match tx.phase
    case Ready(target) => Row(target)
    case Counted(target, _) => Row(target)
    case Cleaned(target, own) => Row(target) + Row(own)
    case Named(own, _) => Row(own)
    case Inserted(own, _) => Row(own)
    case OwnLocked(own, _, _) => {own}
    case _ => {}
  }

  function TakenNames(tx: Tx): set<string> {
    if tx.phase.Inserted? then {tx.phase.name} else {}
  }

  ghost predicate Others(s: Sys, i: nat, j: nat) {
    j in s.txs && j != i
  }

  ghost predicate UserFree(s: Sys, i: nat, u: nat) {
    forall j :: Others(s, i, j) ==> u !in LockedUsers(s.txs[j])
  }

  ghost predicate TeamFree(s: Sys, i: nat, t: nat) {
    forall j :: Others(s, i, j) ==> t !in LockedTeams(s.txs[j])
  }

  ghost predicate NameFree(s: Sys, i: nat, name: string) {
    forall j :: Others(s, i, j) ==> name !in TakenNames(s.txs[j])
  }

  // ---- statements ---------------------------------------------------------------------------------------

  /** The name Create or CreateSoloTeam inserts. */
  function NameOf(tx: Tx): string
    requires tx.op.Create? || tx.phase.Named?
  {
    if tx.phase.Named? then tx.phase.name else tx.op.teamName
  }

  /** Whether transaction i has a next statement and that does not wait for a lock. */
  ghost predicate CanMove(s: Sys, i: nat)
    requires i in s.txs
  {
    var tx := s.txs[i];
    var u := Actor(tx.op);
    match tx.phase
    case Begun => UserFree(s, i, u)
    case UserLocked =>
      ActsOnOwn(tx.op) ==> u in s.roster.users ==> s.roster.users[u].team.Some? ==> TeamFree(s, i, s.roster.users[u].team.value)
    case Looked(t) => TeamFree(s, i, t)
    case Ready(_) => true
    case Counted(_, own) => TeamFree(s, i, own)
    case Cleaned(_, _) => !tx.op.Join? && (tx.op.Create? ==> NameFree(s, i, NameOf(tx)))
    case Named(_, name) => NameFree(s, i, name)
    case Inserted(_, _) => false
    case OwnLocked(_, _, _) => false
  }

  /** The rows of other users that an operation will write. */
  function RowsToLock(r: Roster, op: Op, own: nat): set<nat> {
    match op
    case Disband(captain) => Members(r, own) - {captain}
    case Kick(_, target) => {target}
    case _ => {}
  }

  function InsertTeam(r: Roster, tx: Tx, own: Option<nat>): Result<Phase, TeamError>
    requires tx.op.Create? || tx.phase.Named?
  {
    if NameIsTaken(r, NameOf(tx)) then Err(ErrDatabase) else Ok(Inserted(own, NameOf(tx)))
  }

  /** The next statement of a transaction, on what is committed. */
  ghost function Statement(r: Roster, max: int, tx: Tx): Result<Phase, TeamError> {
    var u := Actor(tx.op);
    match tx.phase
    case Begun =>
      if u !in r.users then Err(ErrUserNotFound)
      else if tx.op.CreateSolo? then Ok(Ready(None)) else Ok(UserLocked)
    case UserLocked =>
      if tx.op.Create? then
        if NameIsActive(r, tx.op.teamName) then Err(ErrTeamAlreadyExists) else Ok(Ready(None))
      else if tx.op.Join? then
        var found := TeamByToken(r, tx.op.invite);
        if found.None? then Err(ErrTeamNotFound) else Ok(Looked(found.value))
      else if ActsOnOwn(tx.op) then
        var own := Check(r, tx.op);
        if own.Err? then Err(own.error) else Ok(OwnLocked(own.value, {}, RowsToLock(r, tx.op, own.value)))
      else Err(ErrDatabase)
    case Looked(t) =>
      // LockTeamTx has no condition on deleted_at, and the team is not read again
      if t !in r.teams then Err(ErrTeamNotFound)
      else if |Members(r, t)| >= max then Err(ErrTeamFull)
      else Ok(Ready(Some(t)))
    case Ready(target) =>
      var own := CountOwn(r, u, Replaces(tx.op) && tx.op.confirm);
      if own.Err? then Err(own.error)
      else if own.value.None? then Ok(Cleaned(target, None)) else Ok(Counted(target, own.value.value))
    case Counted(target, own) =>
      // UPDATE ... WHERE deleted_at IS NULL, evaluated once the row is locked
      if IsActive(r, own) then Ok(Cleaned(target, Some(own))) else Err(ErrTeamNotFound)
    case Cleaned(_, own) =>
      if tx.op.CreateSolo? && u in r.users then Ok(Named(own, SoloName(SoftDeleteOwn(r, own), r.users[u].name)))
      else if tx.op.Create? then InsertTeam(r, tx, own) else Err(ErrDatabase)
    case Named(own, _) => InsertTeam(r, tx, own)
    case _ => Err(ErrDatabase)
  }

  predicate CanCommit(tx: Tx) {
    || (tx.op.Join? && tx.phase.Cleaned? && tx.phase.target.Some?)
    || ((tx.op.Create? || tx.op.CreateSolo?) && tx.phase.Inserted?)
    || (ActsOnOwn(tx.op) && tx.phase.OwnLocked? && tx.phase.todo == {})
  }

  /** What a transaction has written, once it commits. */
  function Committed(r: Roster, tx: Tx): Roster
    requires CanCommit(tx)
  {
    var u := Actor(tx.op);
    if tx.op.Join? then SetTeam(SoftDeleteOwn(r, tx.phase.own), u, tx.phase.target)
    else if ActsOnOwn(tx.op) then Write(r, tx.op, tx.phase.team)
    else SetTeam(AddTeam(SoftDeleteOwn(r, tx.phase.own), tx.op.team, NewTeam(tx.op, tx.phase.name)), u, Some(tx.op.team))
  }

  // ---- steps --------------------------------------------------------------------------------------------

  /** A team a transaction will insert has an id and a token never used before. */
  ghost predicate IsFresh(s: Sys, op: Op) {
    op.Create? || op.CreateSolo? ==> op.team !in s.ids && op.token !in s.tokens
  }

  ghost predicate Enabled(s: Sys, step: Step) {
    match step
    case NewUser(_, _) => true
    case Begin(i, req) => i !in s.begun && IsFresh(s, req.op)
    case Move(i) => i in s.txs && CanMove(s, i)
    case LockRow(i, v) =>
      && i in s.txs && s.txs[i].phase.OwnLocked? && v in s.txs[i].phase.todo
      && UserFree(s, i, v)
    case Commit(i) => i in s.txs && CanCommit(s.txs[i])
    case Abort(i) => i in s.txs
    case Purge(teams) =>
      && (forall t :: t in teams ==> t in s.roster.teams && s.roster.teams[t].deleted)
      && (forall j, t :: j in s.txs && t in teams ==> t !in LockedTeams(s.txs[j]))
      && (forall j, u, t :: j in s.txs && t in teams && IsOn(s.roster, u, t) ==> u !in LockedUsers(s.txs[j]))
  }

  function SetPhase(s: Sys, i: nat, phase: Phase): Sys
    requires i in s.txs
  {
    s.(txs := s.txs[i := s.txs[i].(phase := phase)])
  }

  function Ended(s: Sys, i: nat): Sys {
    s.(txs := s.txs - {i})
  }

  function Started(s: Sys, i: nat, op: Op): Sys {
    var t := s.(txs := s.txs[i := Tx(op, Begun)], begun := s.begun + {i});
    if op.Create? || op.CreateSolo? then t.(ids := s.ids + {op.team}, tokens := s.tokens + {op.token}) else t
  }

  ghost function Next(s: Sys, step: Step): Sys
    requires Enabled(s, step)
  {
    match step
    case NewUser(id, name) =>
      var done := DoRegister(s.roster, id, name);
      if done.Ok? then s.(roster := done.value) else s
    case Begin(i, req) => if Guard(req).Some? then s.(begun := s.begun + {i}) else Started(s, i, req.op)
    case Move(i) =>
      var done := Statement(s.roster, s.max, s.txs[i]);
      if done.Ok? then SetPhase(s, i, done.value) else Ended(s, i)
    case LockRow(i, v) =>
      var p := s.txs[i].phase;
      SetPhase(s, i, OwnLocked(p.team, p.rows + {v}, p.todo - {v}))
    case Commit(i) => Ended(s.(roster := Committed(s.roster, s.txs[i])), i)
    case Abort(i) => Ended(s, i)
    case Purge(teams) => s.(roster := Purged(s.roster, teams))
  }

  ghost predicate IsRun(s: Sys, run: seq<Step>)
    decreases |run|, 0
  {
    run == [] || (IsRun(s, Init(run)) && Enabled(After(s, Init(run)), Last(run)))
  }

  ghost function After(s: Sys, run: seq<Step>): Sys
    requires IsRun(s, run)
    decreases |run|, 1
  {
    if run == [] then s else Next(After(s, Init(run)), Last(run))
  }

  lemma RunExtends(s: Sys, run: seq<Step>, step: Step)
    requires IsRun(s, run) && Enabled(After(s, run), step)
    ensures IsRun(s, run + [step]) && After(s, run + [step]) == Next(After(s, run), step)
  {
    hide Next, Enabled;
    assert Init(run + [step]) == run;
  }

  lemma {:induction false} RunPrefix(s: Sys, run: seq<Step>, k: nat)
    requires IsRun(s, run) && k <= |run|
    ensures IsRun(s, run[..k])
    decreases |run|
  {
    hide Next, Enabled;
    if k < |run| {
      RunPrefix(s, Init(run), k);
      assert Init(run)[..k] == run[..k];
    } else {
      assert run[..k] == run;
    }
  }

  lemma SingleStepRun(s: Sys, step: Step)
    requires Enabled(s, step)
    ensures IsRun(s, [step]) && After(s, [step]) == Next(s, step)
  {
    hide Enabled, Next;
    assert [] + [step] == [step];
    RunExtends(s, [], step);
  }

  lemma {:induction false} RunsCompose(s: Sys, first: seq<Step>, second: seq<Step>)
    requires IsRun(s, first) && IsRun(After(s, first), second)
    ensures IsRun(s, first + second) && After(s, first + second) == After(After(s, first), second)
    decreases |second|
  {
    hide Next, Enabled;
    if second == [] {
      assert first + second == first;
    } else {
      RunsCompose(s, first, Init(second));
      assert Init(first + second) == first + Init(second);
    }
  }
}
