/** Exactly when a team operation that nothing interferes with goes through, which error it returns otherwise,
    and what it writes, in terms of the rows of users and teams. */
module TeamOutcomes {
  import opened Prelude
  import opened TeamRosters
  import opened TeamRosterGuarantees
  import opened TeamDeletions

  /** The team of a user who is on one that is not deleted. */
  predicate IsOnActive(r: Roster, u: nat, t: nat) {
    u in r.users && r.users[u].team == Some(t) && t in r.teams && !r.teams[t].deleted
  }

  ghost predicate HasActive(r: Roster, u: nat) {
    exists t: nat :: IsOnActive(r, u, t)
  }

  ghost predicate NoActiveHas(r: Roster, name: string) {
    forall t :: t in r.teams && !r.teams[t].deleted ==> r.teams[t].name != name
  }

  ghost predicate NoRowHas(r: Roster, name: string) {
    forall t :: t in r.teams ==> r.teams[t].name != name
  }

  ghost predicate HasToken(r: Roster, token: nat, t: nat) {
    t in r.teams && !r.teams[t].deleted && r.teams[t].token == token
  }

  /** The user has no team, or has confirmed that the one they are alone on goes. */
  ghost predicate MayMove(r: Roster, u: nat, confirm: bool) {
    && u in r.users
    && (r.users[u].team.Some? ==> confirm && IsAloneOn(r, u, r.users[u].team.value))
  }

  /** What the clean-up of a former team says when it does not let the user go. */
  ghost predicate Refuses(r: Roster, u: nat, confirm: bool, e: TeamError) {
    u in r.users && r.users[u].team.Some? &&
    var t := r.users[u].team.value;
    match e
    case ErrTeamNotFound => !IsOnActive(r, u, t)
    case ErrUserAlreadyInTeam => IsOnActive(r, u, t) && !IsAloneOn(r, u, t)
    case ErrConfirmationRequired => IsAloneOn(r, u, t) && !confirm
    case _ => false
  }

  lemma CleanUpIs(r: Roster, u: nat, confirm: bool)
    requires u in r.users
    ensures CountOwn(r, u, confirm).Ok? <==> MayMove(r, u, confirm)
    ensures CountOwn(r, u, confirm).Ok? ==> CountOwn(r, u, confirm).value == r.users[u].team
    ensures forall e :: CountOwn(r, u, confirm) == Err(e) <==> Refuses(r, u, confirm, e)
  {
    if r.users[u].team.Some? {
      var t := r.users[u].team.value;
      CountOwnIff(r, u, true, t);
      CountOwnIff(r, u, confirm, t);
    }
  }

  lemma NoOneIsFound(r: Roster, u: nat, confirm: bool)
    requires u !in r.users
    ensures CountOwn(r, u, confirm) == Err(ErrUserNotFound)
  {
  }

  /** Registration: the name and the id must be new. */
  lemma RegisterResult(r: Roster, id: nat, name: string)
    ensures
      var d := DoRegister(r, id, name);
      && (d.Ok? <==> id !in r.users && forall u :: u in r.users ==> r.users[u].name != name)
      && (d.Err? ==> d.error == ErrDatabase)
      && (d.Ok? ==> d.value == r.(users := r.users[id := User(name, None)]))
  {
  }

  /** The rows after the user has moved to a team, whose own former team is deleted. */
  ghost predicate HasMoved(r: Roster, r': Roster, u: nat, t: nat)
    requires u in r.users
  {
    && r'.users == r.users[u := User(r.users[u].name, Some(t))]
    && (forall x :: x in r.teams ==> x in r'.teams)
    && (forall x :: x in r.teams && r.users[u].team != Some(x) ==> r'.teams[x] == r.teams[x])
    && (forall x :: x in r.teams && r.users[u].team == Some(x) ==> r'.teams[x] == r.teams[x].(deleted := true))
  }

  /** Join. */
  lemma JoinResult(r: Roster, max: int, comp: Competition, u: nat, invite: nat, confirm: bool)
    requires IsUnique(r.teams)
    ensures
      var d := Do(r, max, Request(comp, Join(u, invite, confirm)));
      && (d == Err(ErrRosterFrozen) <==> !comp.allowTeamSwitch)
      && (d == Err(ErrUserNotFound) <==> comp.allowTeamSwitch && u !in r.users)
      && (comp.allowTeamSwitch && u in r.users ==>
            && ((forall t: nat :: !HasToken(r, invite, t)) ==> d == Err(ErrTeamNotFound))
            && (forall t: nat :: HasToken(r, invite, t) ==>
                  && (d == Err(ErrTeamFull) <==> |Members(r, t)| >= max)
                  && (|Members(r, t)| < max ==>
                        && (d.Ok? <==> MayMove(r, u, confirm))
                        && (forall e :: d == Err(e) <==> Refuses(r, u, confirm, e))
                        && (d.Ok? ==> HasMoved(r, d.value, u, t) && d.value.teams.Keys == r.teams.Keys))))
  {
    if u in r.users {
      CleanUpIs(r, u, confirm);
    }
    TargetIs(r, invite);
    hide CountOwn, Members, IsUnique, MayMove, Refuses, TeamByToken, HasToken;
  }

  lemma TargetIs(r: Roster, invite: nat)
    requires IsUnique(r.teams)
    ensures forall t: nat :: HasToken(r, invite, t) ==> TeamByToken(r, invite) == Some(t)
    ensures TeamByToken(r, invite).Some? ==> HasToken(r, invite, TeamByToken(r, invite).value)
  {
    forall t: nat | HasToken(r, invite, t) ensures TeamByToken(r, invite) == Some(t) {
      TokenFindsIff(r, invite, t);
    }
  }

  lemma InsertMoves(r: Roster, op: Op, name: string)
    requires (op.Create? || op.CreateSolo?) && op.team !in r.teams && op.user in r.users
    ensures
      var d := DoInsert(r, op, name, r.users[op.user].team);
      && (d.Ok? <==> NoRowHas(r, name)) && (d.Err? ==> d.error == ErrDatabase)
      && (d.Ok? ==>
            && HasMoved(r, d.value, op.user, op.team) && d.value.teams.Keys == r.teams.Keys + {op.team}
            && d.value.teams[op.team] == Team(name, op.token, op.user, op.CreateSolo? || op.isSolo, false, false))
  {
    NamesStayTaken(r, r.users[op.user].team, name);
    hide NoRowHas, NameIsTaken;
  }

  /** Create. */
  lemma CreateResult(r: Roster, max: int, comp: Competition, op: Op)
    requires op.Create? && op.team !in r.teams
    ensures
      var d := Do(r, max, Request(comp, op));
      && (d == Err(ErrRosterFrozen) <==> !comp.allowTeamSwitch)
      && (d == Err(ErrSoloModeNotAllowed) <==> comp.allowTeamSwitch && comp.mode == SoloOnly)
      && (comp.allowTeamSwitch && comp.mode != SoloOnly ==>
            && (d == Err(ErrUserNotFound) <==> op.user !in r.users)
            && (d == Err(ErrTeamAlreadyExists) <==> op.user in r.users && !NoActiveHas(r, op.teamName))
            && (op.user in r.users && NoActiveHas(r, op.teamName) ==>
                  && (d.Ok? <==> MayMove(r, op.user, op.confirm) && NoRowHas(r, op.teamName))
                  && (d == Err(ErrDatabase) <==> MayMove(r, op.user, op.confirm) && !NoRowHas(r, op.teamName))
                  && (!MayMove(r, op.user, op.confirm) ==> forall e :: d == Err(e) <==> Refuses(r, op.user, op.confirm, e))
                  && (d.Ok? ==>
                        && HasMoved(r, d.value, op.user, op.team) && d.value.teams.Keys == r.teams.Keys + {op.team}
                        && d.value.teams[op.team] == Team(op.teamName, op.token, op.user, op.isSolo, false, false))))
  {
    if op.user in r.users {
      CleanUpIs(r, op.user, op.confirm);
      MayMoveOrRefused(r, op.user, op.confirm);
      InsertMoves(r, op, op.teamName);
    }
    hide CountOwn, MayMove, Refuses, DoInsert, NoRowHas, HasMoved;
  }

  lemma MayMoveOrRefused(r: Roster, u: nat, confirm: bool)
    requires u in r.users
    ensures MayMove(r, u, confirm) ==> forall e :: !Refuses(r, u, confirm, e)
    ensures forall e :: Refuses(r, u, confirm, e) ==> e in {ErrTeamNotFound, ErrUserAlreadyInTeam, ErrConfirmationRequired}
  {
  }

  /** The name of a new solo team: the user's, unless an active team other than the one that goes has it. */
  ghost predicate IsSoloName(r: Roster, u: nat, name: string)
    requires u in r.users
  {
    if forall t :: t in r.teams && !r.teams[t].deleted && r.users[u].team != Some(t) ==> r.teams[t].name != r.users[u].name
    then name == r.users[u].name
    else name == r.users[u].name + " (Solo)"
  }

  lemma SoloNameIs(r: Roster, u: nat)
    requires u in r.users
    ensures IsSoloName(r, u, SoloName(SoftDeleteOwn(r, r.users[u].team), r.users[u].name))
  {
    var r', name := SoftDeleteOwn(r, r.users[u].team), r.users[u].name;
    assert forall t :: t in r'.teams && IsActive(r', t) <==> t in r.teams && !r.teams[t].deleted && r.users[u].team != Some(t);
    if t :| t in r.teams && !r.teams[t].deleted && r.users[u].team != Some(t) && r.teams[t].name == name {
      assert IsActive(r', t) && r'.teams[t].name == name;
    }
  }

  lemma NamesStayTaken(r: Roster, own: Option<nat>, name: string)
    ensures NameIsTaken(SoftDeleteOwn(r, own), name) <==> !NoRowHas(r, name)
    ensures NameIsTaken(r, name) <==> !NoRowHas(r, name)
  {
    if t :| t in r.teams && r.teams[t].name == name {
      assert SoftDeleteOwn(r, own).teams[t].name == name;
    }
  }

  /** CreateSoloTeam. */
  lemma CreateSoloResult(r: Roster, max: int, comp: Competition, op: Op, name: string)
    requires op.CreateSolo? && op.team !in r.teams && (op.user in r.users ==> IsSoloName(r, op.user, name))
    ensures
      var d := Do(r, max, Request(comp, op));
      && (d == Err(ErrRosterFrozen) <==> !comp.allowTeamSwitch)
      && (d == Err(ErrSoloModeNotAllowed) <==> comp.allowTeamSwitch && comp.mode == TeamsOnly)
      && (d == Err(ErrUserNotFound) <==> comp.allowTeamSwitch && comp.mode != TeamsOnly && op.user !in r.users)
      && (comp.allowTeamSwitch && comp.mode != TeamsOnly && op.user in r.users ==>
            && (d.Ok? <==> MayMove(r, op.user, op.confirm) && NoRowHas(r, name))
            && (d == Err(ErrDatabase) <==> MayMove(r, op.user, op.confirm) && !NoRowHas(r, name))
            && (!MayMove(r, op.user, op.confirm) ==> forall e :: d == Err(e) <==> Refuses(r, op.user, op.confirm, e))
            && (d.Ok? ==>
                  && HasMoved(r, d.value, op.user, op.team) && d.value.teams.Keys == r.teams.Keys + {op.team}
                  && d.value.teams[op.team] == Team(name, op.token, op.user, true, false, false)))
  {
    if op.user in r.users {
      CleanUpIs(r, op.user, op.confirm);
      MayMoveOrRefused(r, op.user, op.confirm);
      SoloNameIs(r, op.user);
      InsertMoves(r, op, name);
    } else {
      NoOneIsFound(r, op.user, op.confirm);
    }
    hide CountOwn, MayMove, Refuses, NoRowHas, DoInsert, HasMoved, SoloName, IsSoloName;
  }

  /** Who is not on an active team, and who does not lead it, can do none of the other four. */
  lemma LeaveResult(r: Roster, max: int, comp: Competition, u: nat)
    ensures
      var d := Do(r, max, Request(comp, Leave(u)));
      && (d == Err(ErrRosterFrozen) <==> !comp.allowTeamSwitch)
      && (comp.allowTeamSwitch ==>
            && (d == Err(ErrUserNotFound) <==> u !in r.users)
            && (d == Err(ErrTeamNotFound) <==> u in r.users && !HasActive(r, u))
            && (forall t: nat :: IsOnActive(r, u, t) ==>
                  && (d == Err(ErrCannotLeaveAsOnlyMember) <==> |Members(r, t)| == 1)
                  && (d == Err(ErrNotCaptain) <==> |Members(r, t)| != 1 && r.teams[t].captain == u)
                  && (d.Ok? <==> |Members(r, t)| != 1 && r.teams[t].captain != u)
                  && (d.Ok? ==> d.value == r.(users := r.users[u := User(r.users[u].name, None)]))))
  {
    ActiveIff(r, u);
    hide Members, HasActive;
  }

  lemma ActiveIff(r: Roster, u: nat)
    ensures HasActive(r, u) <==> OwnTeam(r, u).Ok?
    ensures forall t: nat :: IsOnActive(r, u, t) <==> OwnTeam(r, u) == Ok(t)
  {
    if OwnTeam(r, u).Ok? {
      assert IsOnActive(r, u, OwnTeam(r, u).value);
    }
  }

  lemma TransferResult(r: Roster, max: int, comp: Competition, u: nat, v: nat)
    ensures
      var d := Do(r, max, Request(comp, Transfer(u, v)));
      && (d == Err(ErrRosterFrozen) <==> !comp.allowTeamSwitch)
      && (d == Err(ErrCannotTransferToSelf) <==> comp.allowTeamSwitch && u == v)
      && (comp.allowTeamSwitch && u != v ==>
            && (d == Err(ErrTeamNotFound) <==> u in r.users && !HasActive(r, u))
            && (d == Err(ErrUserNotFound) <==> u !in r.users || (HasActive(r, u) && v !in r.users))
            && (forall t: nat :: IsOnActive(r, u, t) && v in r.users ==>
                  && (d == Err(ErrNotCaptain) <==> r.teams[t].captain != u)
                  && (d == Err(ErrNewCaptainNotInTeam) <==> r.teams[t].captain == u && r.users[v].team != Some(t))
                  && (d.Ok? <==> r.teams[t].captain == u && r.users[v].team == Some(t))
                  && (d.Ok? ==> d.value == r.(teams := r.teams[t := r.teams[t].(captain := v)]))))
  {
    ActiveIff(r, u);
    hide HasActive;
  }

  lemma DisbandResult(r: Roster, max: int, comp: Competition, u: nat)
    ensures
      var d := Do(r, max, Request(comp, Disband(u)));
      && (d == Err(ErrRosterFrozen) <==> !comp.allowTeamSwitch)
      && (comp.allowTeamSwitch ==>
            && (d == Err(ErrUserNotFound) <==> u !in r.users)
            && (d == Err(ErrTeamNotFound) <==> u in r.users && !HasActive(r, u))
            && (forall t: nat :: IsOnActive(r, u, t) ==>
                  && (d == Err(ErrNotCaptain) <==> r.teams[t].captain != u)
                  && (d.Ok? <==> r.teams[t].captain == u)
                  && (d.Ok? ==>
                        && d.value.teams == r.teams[t := r.teams[t].(deleted := true)]
                        && d.value.users.Keys == r.users.Keys
                        && (forall v :: v in r.users && r.users[v].team == Some(t) ==> d.value.users[v] == User(r.users[v].name, None))
                        && (forall v :: v in r.users && r.users[v].team != Some(t) ==> d.value.users[v] == r.users[v]))))
  {
    ActiveIff(r, u);
    hide HasActive;
  }

  lemma KickResult(r: Roster, max: int, comp: Competition, u: nat, v: nat)
    ensures
      var d := Do(r, max, Request(comp, Kick(u, v)));
      && (d == Err(ErrRosterFrozen) <==> !comp.allowTeamSwitch)
      && (d == Err(ErrCannotLeaveAsOnlyMember) <==> comp.allowTeamSwitch && u == v)
      && (comp.allowTeamSwitch && u != v ==>
            && (d == Err(ErrTeamNotFound) <==> u in r.users && !HasActive(r, u))
            && (d.Ok? ==> HasActive(r, u))
            && (forall t: nat :: IsOnActive(r, u, t) ==>
                  && (d == Err(ErrNotCaptain) <==> v in r.users && r.teams[t].captain != u)
                  && (d == Err(ErrUserNotFound) <==> v !in r.users || (r.teams[t].captain == u && r.users[v].team != Some(t)))
                  && (d.Ok? <==> v in r.users && r.teams[t].captain == u && r.users[v].team == Some(t))
                  && (d.Ok? ==> d.value == r.(users := r.users[v := User(r.users[v].name, None)]))))
  {
    ActiveIff(r, u);
    hide HasActive;
  }

  /** So a Create, a CreateSoloTeam or a Join that is not confirmed, by a user on an active team, fails and leaves
      the roster as it was. */
  lemma UnconfirmedFails(r: Roster, max: int, req: Request, u: nat)
    requires (req.op.Create? || req.op.CreateSolo? || req.op.Join?) && !req.op.confirm && req.op.user == u && HasActive(r, u)
    ensures Do(r, max, req).Err? && AfterOne(r, max, req) == r
  {
    CleanUpIs(r, u, false);
    ActiveIff(r, u);
    hide CountOwn, Members, TeamByToken, NameIsActive, NameIsTaken;
  }
}
