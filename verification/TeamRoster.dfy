/** backend/internal/usecase/team/team.go: who is on which team, and what each operation does to it when
    no other transaction comes in between; TeamTransactions has the statements one by one. Invite tokens
    and team ids are fresh UUIDs, given here as numbers. */
module TeamRosters {
  import opened Prelude

  datatype Mode = SoloOnly | TeamsOnly | Flexible

  datatype Competition = Competition(allowTeamSwitch: bool, mode: Mode)

  datatype Team = Team(name: string, token: nat, captain: nat, isSolo: bool, isAutoCreated: bool, deleted: bool)

  datatype User = User(name: string, team: Option<nat>)

  datatype Roster = Roster(users: map<nat, User>, teams: map<nat, Team>)

  datatype Op =
    | Create(user: nat, teamName: string, isSolo: bool, confirm: bool, team: nat, token: nat)
    | CreateSolo(user: nat, confirm: bool, team: nat, token: nat)
    | Join(user: nat, invite: nat, confirm: bool)
    | Leave(user: nat)
    | Transfer(captain: nat, newCaptain: nat)
    | Disband(captain: nat)
    | Kick(captain: nat, target: nat)

  /** An operation and the competition settings it finds. */
  datatype Request = Request(comp: Competition, op: Op)

  datatype TeamError =
    | ErrRosterFrozen | ErrSoloModeNotAllowed | ErrUserNotFound | ErrTeamNotFound | ErrTeamAlreadyExists
    | ErrTeamFull | ErrUserAlreadyInTeam | ErrConfirmationRequired | ErrCannotLeaveAsOnlyMember
    | ErrNotCaptain | ErrCannotTransferToSelf | ErrNewCaptainNotInTeam | ErrDatabase

  const EMPTY := Roster(map[], map[])

  // ---- queries ----------------------------------------------------------------------------------------

  /** The queries by id, name and token see only teams that are not soft-deleted. */
  predicate IsActive(r: Roster, t: nat) {
    t in r.teams && !r.teams[t].deleted
  }

  predicate IsOn(r: Roster, u: nat, t: nat) {
    u in r.users && r.users[u].team == Some(t)
  }

  function Members(r: Roster, t: nat): set<nat> {
    set u | u in r.users && IsOn(r, u, t)
  }

  ghost function TeamByToken(r: Roster, token: nat): Option<nat> {
    if t :| IsActive(r, t) && r.teams[t].token == token then Some(t) else None
  }

  predicate NameIsActive(r: Roster, name: string) {
    exists t :: t in r.teams && IsActive(r, t) && r.teams[t].name == name
  }

  /** The name column is unique over all rows, soft-deleted ones among them. */
  predicate NameIsTaken(r: Roster, name: string) {
    exists t :: t in r.teams && r.teams[t].name == name
  }

  // ---- updates, which touch no row when there is none ---------------------------------------------------

  function SetTeam(r: Roster, u: nat, team: Option<nat>): Roster {
    if u in r.users then r.(users := r.users[u := r.users[u].(team := team)]) else r
  }

  function SoftDelete(r: Roster, t: nat): Roster {
    if t in r.teams then r.(teams := r.teams[t := r.teams[t].(deleted := true)]) else r
  }

  function SoftDeleteOwn(r: Roster, own: Option<nat>): Roster {
    if own.Some? then SoftDelete(r, own.value) else r
  }

  function SetCaptain(r: Roster, t: nat, captain: nat): Roster {
    if t in r.teams then r.(teams := r.teams[t := r.teams[t].(captain := captain)]) else r
  }

  function ReleaseAll(r: Roster, t: nat): Roster {
    r.(users := map u | u in r.users :: if r.users[u].team == Some(t) then r.users[u].(team := None) else r.users[u])
  }

  function AddTeam(r: Roster, id: nat, team: Team): Roster {
    r.(teams := r.teams[id := team])
  }

  /** The cleanup command: rows soft-deleted long ago are deleted, and the foreign key of their members
      is set to null. */
  function Purged(r: Roster, teams: set<nat>): Roster {
    Roster(map u | u in r.users ::
             if r.users[u].team.Some? && r.users[u].team.value in teams then r.users[u].(team := None) else r.users[u],
           r.teams - teams)
  }

  // ---- what the operations check ------------------------------------------------------------------------

  /** The first half of handleSoloTeamCleanup: the team to delete, or none for a user without one. */
  function CountOwn(r: Roster, u: nat, confirm: bool): Result<Option<nat>, TeamError> {
    if u !in r.users then Err(ErrUserNotFound)
    else if r.users[u].team.None? then Ok(None)
    else
      var t := r.users[u].team.value;
      if !IsActive(r, t) then Err(ErrTeamNotFound)
      else if Members(r, t) != {u} || !(r.teams[t].isSolo || r.teams[t].isAutoCreated) then Err(ErrUserAlreadyInTeam)
      else if !confirm then Err(ErrConfirmationRequired)
      else Ok(Some(t))
  }

  /** The name of a new solo team: the user's own, or with a suffix when an active team has it. */
  function SoloName(r: Roster, username: string): string {
    if NameIsActive(r, username) then username + " (Solo)" else username
  }

  /** The team Create and CreateSoloTeam insert. */
  function NewTeam(op: Op, name: string): Team
    requires op.Create? || op.CreateSolo?
  {
    Team(name, op.token, op.user, op.CreateSolo? || op.isSolo, false, false)
  }

  predicate Replaces(op: Op) {
    op.Create? || op.CreateSolo? || op.Join?
  }

  predicate ActsOnOwn(op: Op) {
    op.Leave? || op.Transfer? || op.Disband? || op.Kick?
  }

  function Actor(op: Op): nat {
    match op
    case Create(u, _, _, _, _, _) => u
    case CreateSolo(u, _, _, _) => u
    case Join(u, _, _) => u
    case Leave(u) => u
    case Transfer(captain, _) => captain
    case Disband(captain) => captain
    case Kick(captain, _) => captain
  }

  /** The active team of a user, as leaving, transferring, disbanding and kicking look it up. */
  function OwnTeam(r: Roster, u: nat): Result<nat, TeamError> {
    if u !in r.users then Err(ErrUserNotFound)
    else if r.users[u].team.None? || !IsActive(r, r.users[u].team.value) then Err(ErrTeamNotFound)
    else Ok(r.users[u].team.value)
  }

  /** What these four check before they write; the team it is about. */
  function Check(r: Roster, op: Op): Result<nat, TeamError>
    requires ActsOnOwn(op)
  {
    var own := OwnTeam(r, Actor(op));
    if own.Err? then own
    else
      var leads := r.teams[own.value].captain == Actor(op);
      match op
      case Leave(u) =>
        if |Members(r, own.value)| == 1 then Err(ErrCannotLeaveAsOnlyMember)
        else if leads then Err(ErrNotCaptain) else own
      case Transfer(_, newCaptain) =>
        if newCaptain !in r.users then Err(ErrUserNotFound)
        else if !leads then Err(ErrNotCaptain)
        else if !IsOn(r, newCaptain, own.value) then Err(ErrNewCaptainNotInTeam) else own
      case Disband(_) =>
        if !leads then Err(ErrNotCaptain) else own
      case Kick(_, target) =>
        if target !in r.users then Err(ErrUserNotFound)
        else if !leads then Err(ErrNotCaptain)
        else if !IsOn(r, target, own.value) then Err(ErrUserNotFound) else own
  }

  function Write(r: Roster, op: Op, own: nat): Roster
    requires ActsOnOwn(op)
  {
    match op
    case Leave(u) => SetTeam(r, u, None)
    case Transfer(_, newCaptain) => SetCaptain(r, own, newCaptain)
    case Disband(_) => ReleaseAll(SoftDelete(r, own), own)
    case Kick(_, target) => SetTeam(r, target, None)
  }

  // ---- operations without interference ------------------------------------------------------------------

  function DoInsert(r: Roster, op: Op, name: string, own: Option<nat>): Result<Roster, TeamError>
    requires op.Create? || op.CreateSolo?
  {
    if NameIsTaken(r, name) then Err(ErrDatabase)
    else Ok(SetTeam(AddTeam(SoftDeleteOwn(r, own), op.team, NewTeam(op, name)), op.user, Some(op.team)))
  }

  function DoCreate(r: Roster, op: Op): Result<Roster, TeamError>
    requires op.Create?
  {
    if op.user !in r.users then Err(ErrUserNotFound)
    else if NameIsActive(r, op.teamName) then Err(ErrTeamAlreadyExists)
    else
      var own := CountOwn(r, op.user, op.confirm);
      if own.Err? then Err(own.error) else DoInsert(r, op, op.teamName, own.value)
  }

  function DoCreateSolo(r: Roster, op: Op): Result<Roster, TeamError>
    requires op.CreateSolo?
  {
    var own := CountOwn(r, op.user, op.confirm);
    if own.Err? then Err(own.error)
    else DoInsert(r, op, SoloName(SoftDeleteOwn(r, own.value), r.users[op.user].name), own.value)
  }

  /** The team is looked up before the joining user's old solo team is cleaned up, and not again. */
  ghost function DoJoin(r: Roster, max: int, op: Op): Result<Roster, TeamError>
    requires op.Join?
  {
    if op.user !in r.users then Err(ErrUserNotFound)
    else
      var target := TeamByToken(r, op.invite);
      if target.None? then Err(ErrTeamNotFound)
      else if |Members(r, target.value)| >= max then Err(ErrTeamFull)
      else
        var own := CountOwn(r, op.user, op.confirm);
        if own.Err? then Err(own.error) else Ok(SetTeam(SoftDeleteOwn(r, own.value), op.user, target))
  }

  function DoRegister(r: Roster, id: nat, name: string): Result<Roster, TeamError> {
    if id in r.users || exists u :: u in r.users && r.users[u].name == name then Err(ErrDatabase)
    else Ok(r.(users := r.users[id := User(name, None)]))
  }

  /** What is refused before a transaction begins. */
  function Guard(req: Request): Option<TeamError> {
    if !req.comp.allowTeamSwitch then Some(ErrRosterFrozen)
    else if req.op.Create? && req.comp.mode == SoloOnly then Some(ErrSoloModeNotAllowed)
    else if req.op.CreateSolo? && req.comp.mode == TeamsOnly then Some(ErrSoloModeNotAllowed)
    else if req.op.Transfer? && req.op.captain == req.op.newCaptain then Some(ErrCannotTransferToSelf)
    else if req.op.Kick? && req.op.captain == req.op.target then Some(ErrCannotLeaveAsOnlyMember)
    else None
  }

  ghost function DoOp(r: Roster, max: int, op: Op): Result<Roster, TeamError> {
    match op
    case Create(_, _, _, _, _, _) => DoCreate(r, op)
    case CreateSolo(_, _, _, _) => DoCreateSolo(r, op)
    case Join(_, _, _) => DoJoin(r, max, op)
    case _ =>
      var own := Check(r, op);
      if own.Err? then Err(own.error) else Ok(Write(r, op, own.value))
  }

  ghost function Do(r: Roster, max: int, req: Request): Result<Roster, TeamError> {
    if Guard(req).Some? then Err(Guard(req).value) else DoOp(r, max, req.op)
  }

  /** An operation that fails leaves the roster as it was. */
  ghost function AfterOne(r: Roster, max: int, req: Request): Roster {
    var done := Do(r, max, req);
    if done.Ok? then done.value else r
  }

  // ---- what the roster keeps ----------------------------------------------------------------------------

  predicate References(r: Roster) {
    && (forall u :: u in r.users && r.users[u].team.Some? ==> r.users[u].team.value in r.teams)
    && (forall t :: t in r.teams ==> r.teams[t].captain in r.users)
  }

  /** The captain of an active team is on it. */
  predicate IsLed(r: Roster) {
    forall t :: t in r.teams && IsActive(r, t) ==> IsOn(r, r.teams[t].captain, t)
  }

  function SizeLimit(max: int): nat {
    if max < 1 then 1 else max
  }

  predicate FitsLimit(r: Roster, max: int) {
    forall t :: t in r.teams ==> |Members(r, t)| <= SizeLimit(max)
  }

  predicate IsUnique(teams: map<nat, Team>) {
    && (forall t1, t2 :: t1 in teams && t2 in teams && teams[t1].name == teams[t2].name ==> t1 == t2)
    && (forall t1, t2 :: t1 in teams && t2 in teams && teams[t1].token == teams[t2].token ==> t1 == t2)
  }

  predicate Inv(r: Roster, max: int) {
    References(r) && IsLed(r) && FitsLimit(r, max) && IsUnique(r.teams)
  }

  /** No one is on a deleted team. */
  predicate NoOneIsStranded(r: Roster) {
    forall u :: u in r.users && r.users[u].team.Some? ==> IsActive(r, r.users[u].team.value)
  }

  predicate IsStranded(r: Roster, u: nat) {
    u in r.users && r.users[u].team.Some? && r.users[u].team.value in r.teams && r.teams[r.users[u].team.value].deleted
  }

  // ---- each update keeps it --------------------------------------------------------------------------------

  lemma TokenFindsIff(r: Roster, token: nat, t: nat)
    requires IsUnique(r.teams)
    ensures TeamByToken(r, token) == Some(t) <==> IsActive(r, t) && r.teams[t].token == token
  {
  }

  lemma MembersAfterSetTeam(r: Roster, u: nat, team: Option<nat>, t: nat)
    requires u in r.users
    ensures Members(SetTeam(r, u, team), t) == if team == Some(t) then Members(r, t) + {u} else Members(r, t) - {u}
    ensures |Members(SetTeam(r, u, team), t)| <= |Members(r, t)| + if team == Some(t) then 1 else 0
  {
    var r' := SetTeam(r, u, team);
    assert forall v :: IsOn(r', v, t) <==> if v == u then team == Some(t) else IsOn(r, v, t);
    hide IsOn, SetTeam;
    if team != Some(t) {
      SubsetIsSmaller(Members(r', t), Members(r, t));
    }
  }

  /** Every active team but those the user leads has its captain on it, and the user is headed for those. */
  predicate IsLedBut(r: Roster, u: nat, team: Option<nat>) {
    forall t :: t in r.teams && IsActive(r, t) ==>
      if r.teams[t].captain == u then team == Some(t) else IsOn(r, r.teams[t].captain, t)
  }

  predicate HasRoom(r: Roster, max: int, u: nat, team: Option<nat>) {
    team.Some? ==> team.value in r.teams && |Members(r, team.value) - {u}| < SizeLimit(max)
  }

  lemma SetTeamFits(r: Roster, max: int, u: nat, team: Option<nat>)
    requires FitsLimit(r, max) && u in r.users && HasRoom(r, max, u, team)
    ensures FitsLimit(SetTeam(r, u, team), max)
  {
    forall t | t in r.teams ensures |Members(SetTeam(r, u, team), t)| <= SizeLimit(max) {
      MembersAfterSetTeam(r, u, team, t);
      var others := Members(r, t) - {u};
      assert Members(r, t) + {u} == others + {u};
      hide Members, SetTeam;
    }
  }

  lemma SetTeamIsLed(r: Roster, u: nat, team: Option<nat>)
    requires u in r.users && IsLedBut(r, u, team)
    ensures IsLed(SetTeam(r, u, team))
  {
    var r' := SetTeam(r, u, team);
    forall t | t in r'.teams && IsActive(r', t) ensures IsOn(r', r'.teams[t].captain, t) {
      assert IsActive(r, t);
    }
  }

  lemma SetTeamRefers(r: Roster, u: nat, team: Option<nat>)
    requires References(r) && u in r.users && (team.Some? ==> team.value in r.teams)
    ensures References(SetTeam(r, u, team))
  {
  }

  lemma SetTeamKeepsInv(r: Roster, max: int, u: nat, team: Option<nat>)
    requires References(r) && FitsLimit(r, max) && IsUnique(r.teams)
    requires u in r.users && IsLedBut(r, u, team) && HasRoom(r, max, u, team)
    ensures Inv(SetTeam(r, u, team), max)
  {
    SetTeamFits(r, max, u, team);
    SetTeamIsLed(r, u, team);
    SetTeamRefers(r, u, team);
  }

  lemma SoftDeleteKeepsInv(r: Roster, max: int, t: nat)
    requires Inv(r, max) && t in r.teams
    ensures Inv(SoftDelete(r, t), max)
  {
    var r' := SoftDelete(r, t);
    assert References(r');
    assert IsUnique(r'.teams);
    SameMembers(r, r', max);
    assert IsLed(r') by {
      forall s | s in r'.teams && IsActive(r', s) ensures IsOn(r', r'.teams[s].captain, s) {
        assert IsActive(r, s);
      }
    }
  }

  lemma SameMembers(r: Roster, r': Roster, max: int)
    requires r'.users == r.users && FitsLimit(r, max) && r'.teams.Keys == r.teams.Keys
    ensures FitsLimit(r', max)
  {
    forall t | t in r'.teams ensures Members(r', t) == Members(r, t) {
      assert forall u :: IsOn(r', u, t) <==> IsOn(r, u, t);
    }
  }

  lemma SoftDeleteOwnKeepsInv(r: Roster, max: int, u: nat, own: Option<nat>)
    requires Inv(r, max) && u in r.users && r.users[u].team == own
    ensures
      var r' := SoftDeleteOwn(r, own);
      && Inv(r', max) && LeadsNothing(r', u) && r'.users == r.users && r'.teams.Keys == r.teams.Keys
      && (forall t :: t in r.teams ==> r'.teams[t].name == r.teams[t].name && r'.teams[t].token == r.teams[t].token)
  {
    hide FitsLimit, IsUnique;
    if own.Some? {
      SoftDeleteKeepsInv(r, max, own.value);
    }
    var r' := SoftDeleteOwn(r, own);
    forall t | t in r'.teams && IsActive(r', t) ensures r'.teams[t].captain != u {
      assert IsActive(r, t);
    }
  }

  predicate LeadsNothing(r: Roster, u: nat) {
    forall t :: t in r.teams && IsActive(r, t) ==> r.teams[t].captain != u
  }

  lemma LeadsNothingIsLedBut(r: Roster, u: nat, team: Option<nat>)
    requires IsLed(r) && LeadsNothing(r, u)
    ensures IsLedBut(r, u, team)
  {
  }

  lemma SameUsersSameMembers(r: Roster, r': Roster, t: nat)
    requires r'.users == r.users
    ensures Members(r', t) == Members(r, t)
  {
    assert forall v :: IsOn(r', v, t) <==> IsOn(r, v, t);
  }

  /** Moving a user, whose own team is deleted with the move, to a team with a free place. */
  lemma MoveKeepsInv(r: Roster, max: int, u: nat, own: Option<nat>, target: nat)
    requires Inv(r, max) && u in r.users && r.users[u].team == own
    requires target in r.teams && |Members(r, target)| < max
    ensures Inv(SetTeam(SoftDeleteOwn(r, own), u, Some(target)), max)
  {
    SoftDeleteOwnKeepsInv(r, max, u, own);
    var r' := SoftDeleteOwn(r, own);
    SameUsersSameMembers(r, r', target);
    LeadsNothingIsLedBut(r', u, Some(target));
    SubsetIsSmaller(Members(r, target) - {u}, Members(r, target));
    assert target in r'.teams;
    hide References, FitsLimit, IsUnique, IsLedBut, IsLed, Members, LeadsNothing;
    SetTeamKeepsInv(r', max, u, Some(target));
  }

  predicate TokenIsNew(r: Roster, token: nat) {
    forall t :: t in r.teams ==> r.teams[t].token != token
  }

  lemma AddTeamKeeps(r: Roster, max: int, u: nat, id: nat, team: Team)
    requires Inv(r, max) && LeadsNothing(r, u) && u in r.users && team.captain == u
    requires id !in r.teams && TokenIsNew(r, team.token) && !NameIsTaken(r, team.name)
    ensures
      var r' := AddTeam(r, id, team);
      References(r') && FitsLimit(r', max) && IsUnique(r'.teams) && IsLedBut(r', u, Some(id)) && Members(r', id) == {}
  {
    var r' := AddTeam(r, id, team);
    assert References(r') && IsUnique(r'.teams);
    forall t | t in r'.teams ensures |Members(r', t)| <= SizeLimit(max) {
      assert forall v :: IsOn(r', v, t) <==> IsOn(r, v, t);
      assert Members(r', t) == Members(r, t);
      if t == id {
        assert Members(r, t) == {};
      }
    }
    forall t | t in r'.teams && IsActive(r', t)
      ensures if r'.teams[t].captain == u then t == id else IsOn(r', r'.teams[t].captain, t)
    {
      if t != id {
        assert IsActive(r, t) && IsOn(r, r.teams[t].captain, t);
      }
    }
  }

  /** Founding a team, the user's own being deleted with it. */
  lemma FoundKeepsInv(r: Roster, max: int, u: nat, own: Option<nat>, id: nat, team: Team)
    requires Inv(r, max) && u in r.users && r.users[u].team == own && team.captain == u
    requires id !in r.teams && TokenIsNew(r, team.token) && !NameIsTaken(r, team.name)
    ensures Inv(SetTeam(AddTeam(SoftDeleteOwn(r, own), id, team), u, Some(id)), max)
  {
    SoftDeleteOwnKeepsInv(r, max, u, own);
    var r' := SoftDeleteOwn(r, own);
    assert TokenIsNew(r', team.token) && !NameIsTaken(r', team.name);
    AddTeamKeeps(r', max, u, id, team);
    hide References, FitsLimit, IsUnique, IsLedBut, IsLed, Members, TokenIsNew, NameIsTaken;
    var r2 := AddTeam(r', id, team);
    assert Members(r2, id) - {u} == {};
    SetTeamKeepsInv(r2, max, u, Some(id));
  }

  /** Taking off its team a user who does not lead it. */
  lemma ReleaseKeepsInv(r: Roster, max: int, u: nat, own: nat)
    requires Inv(r, max) && IsOn(r, u, own) && IsActive(r, own) && r.teams[own].captain != u
    ensures Inv(SetTeam(r, u, None), max)
  {
    forall t | t in r.teams && IsActive(r, t) ensures r.teams[t].captain != u {
      assert IsOn(r, r.teams[t].captain, t);
    }
    LeadsNothingIsLedBut(r, u, None);
    hide References, FitsLimit, IsUnique, IsLedBut, Members;
    SetTeamKeepsInv(r, max, u, None);
  }

  lemma SetCaptainKeepsInv(r: Roster, max: int, own: nat, captain: nat)
    requires Inv(r, max) && own in r.teams && IsOn(r, captain, own)
    ensures Inv(SetCaptain(r, own, captain), max)
  {
    hide IsLed, FitsLimit, IsUnique, Members, References;
    var r' := SetCaptain(r, own, captain);
    SameMembers(r, r', max);
    NewCaptainLeads(r, own, captain);
    SameNamesSameTokens(r.teams, r'.teams);
    NewCaptainExists(r, own, captain);
  }

  lemma NewCaptainExists(r: Roster, own: nat, captain: nat)
    requires References(r) && captain in r.users
    ensures References(SetCaptain(r, own, captain))
  {
  }

  lemma NewCaptainLeads(r: Roster, own: nat, captain: nat)
    requires IsLed(r) && own in r.teams && IsOn(r, captain, own)
    ensures IsLed(SetCaptain(r, own, captain))
  {
    var r' := SetCaptain(r, own, captain);
    forall t | t in r'.teams && IsActive(r', t) ensures IsOn(r', r'.teams[t].captain, t) {
      assert IsActive(r, t) && IsOn(r, r.teams[t].captain, t);
    }
  }

  lemma SameNamesSameTokens(teams: map<nat, Team>, teams': map<nat, Team>)
    requires IsUnique(teams) && teams'.Keys == teams.Keys
    requires forall t :: t in teams ==> teams'[t].name == teams[t].name && teams'[t].token == teams[t].token
    ensures IsUnique(teams')
  {
  }

  lemma FewerMembersFit(r: Roster, r': Roster, max: int)
    requires FitsLimit(r, max) && r'.teams.Keys <= r.teams.Keys
    requires forall v, t :: IsOn(r', v, t) ==> IsOn(r, v, t)
    ensures FitsLimit(r', max)
  {
    forall t | t in r'.teams ensures |Members(r', t)| <= SizeLimit(max) {
      SubsetIsSmaller(Members(r', t), Members(r, t));
    }
  }

  lemma ReleaseAllKeepsInv(r: Roster, max: int, own: nat)
    requires Inv(r, max) && own in r.teams && !IsActive(r, own)
    ensures Inv(ReleaseAll(r, own), max)
  {
    var r' := ReleaseAll(r, own);
    FewerMembersFit(r, r', max);
    ReleasedAreLed(r, own);
    assert References(r');
    hide FitsLimit, References, IsUnique, IsLed;
  }

  lemma ReleasedAreLed(r: Roster, own: nat)
    requires IsLed(r) && !IsActive(r, own)
    ensures IsLed(ReleaseAll(r, own))
  {
    var r' := ReleaseAll(r, own);
    forall t | t in r'.teams && IsActive(r', t) ensures IsOn(r', r'.teams[t].captain, t) {
      assert t != own && IsActive(r, t) && IsOn(r, r.teams[t].captain, t);
    }
  }

  lemma DisbandKeepsInv(r: Roster, max: int, own: nat)
    requires Inv(r, max) && own in r.teams
    ensures Inv(ReleaseAll(SoftDelete(r, own), own), max)
  {
    hide Inv;
    SoftDeleteKeepsInv(r, max, own);
    ReleaseAllKeepsInv(SoftDelete(r, own), max, own);
  }

  lemma RegisterKeepsInv(r: Roster, max: int, id: nat, name: string)
    requires Inv(r, max) && DoRegister(r, id, name).Ok?
    ensures Inv(DoRegister(r, id, name).value, max)
  {
    var r' := DoRegister(r, id, name).value;
    FewerMembersFit(r, r', max);
    assert References(r') && IsUnique(r'.teams);
    hide FitsLimit, References, IsUnique;
    forall t | t in r'.teams && IsActive(r', t) ensures IsOn(r', r'.teams[t].captain, t) {
      assert IsActive(r, t) && IsOn(r, r.teams[t].captain, t);
    }
  }

  lemma PurgeKeepsInv(r: Roster, max: int, teams: set<nat>)
    requires Inv(r, max) && forall t :: t in teams ==> t in r.teams && r.teams[t].deleted
    ensures Inv(Purged(r, teams), max)
  {
    var r' := Purged(r, teams);
    FewerMembersFit(r, r', max);
    assert References(r') && IsUnique(r'.teams);
    hide FitsLimit, References, IsUnique;
    forall t | t in r'.teams && IsActive(r', t) ensures IsOn(r', r'.teams[t].captain, t) {
      assert IsActive(r, t) && IsOn(r, r.teams[t].captain, t);
    }
  }
}
