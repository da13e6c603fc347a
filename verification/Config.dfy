/** backend/config/config.go: environment values, the seven concurrent Vault fetches that overlay them
    and the final validation. */
module Config {
  import opened Prelude
  import opened CorsOrigins

  // ---- secrets --------------------------------------------------------------------------------

  datatype Secret =
    | PostgresUser | PostgresPassword | PostgresDB | RedisPassword | JwtAccessSecret | JwtRefreshSecret
    | ResendAPIKey | S3AccessKey | S3SecretKey | FlagEncryptionKey | AdminUsername | AdminEmail | AdminPassword

  /** A value in a Vault secret: any JSON value, of which only strings are used. */
  datatype VaultValue = Text(text: string) | Other

  /** GetSecret's answer for each path; a path that is absent failed. */
  type Vault = map<string, map<string, VaultValue>>

  datatype Assignment = Assignment(target: Secret, key: string)

  /** One closure of the error group: where it fetches and what it may overwrite, in order. */
  datatype Closure = Closure(path: string, assignments: seq<Assignment>)

  const CLOSURES: seq<Closure> := [
    Closure("ctfboard/database", [Assignment(PostgresUser, "user"), Assignment(PostgresPassword, "password"), Assignment(PostgresDB, "dbname")]),
    Closure("ctfboard/redis", [Assignment(RedisPassword, "password")]),
    Closure("ctfboard/jwt", [Assignment(JwtAccessSecret, "access_secret"), Assignment(JwtRefreshSecret, "refresh_secret")]),
    Closure("ctfboard/resend", [Assignment(ResendAPIKey, "api_key")]),
    Closure("ctfboard/storage", [Assignment(S3AccessKey, "access_key"), Assignment(S3SecretKey, "secret_key")]),
    Closure("ctfboard/app", [Assignment(FlagEncryptionKey, "flag_encryption_key")]),
    Closure("ctfboard/admin", [Assignment(AdminUsername, "username"), Assignment(AdminEmail, "email"), Assignment(AdminPassword, "password")])
  ]

  // ---- the overlay ----------------------------------------------------------------------------

  /** The variables, one per secret. */
  type Values = map<Secret, string>

  /** What an assignment stores in its target, if it stores anything. */
  function Fetched(vault: Vault, path: string, key: string): Option<string> {
    if path in vault && key in vault[path] && vault[path][key].Text? && vault[path][key].text != ""
    then Some(vault[path][key].text)
    else None
  }

  predicate IsAssignment(closures: seq<Closure>, i: int, a: int) {
    0 <= i < |closures| && 0 <= a < |closures[i].assignments|
  }

  function TargetOf(closures: seq<Closure>, i: int, a: int): Secret
    requires IsAssignment(closures, i, a)
  {
    closures[i].assignments[a].target
  }

  function StoredBy(closures: seq<Closure>, vault: Vault, i: int, a: int): Option<string>
    requires IsAssignment(closures, i, a)
  {
    Fetched(vault, closures[i].path, closures[i].assignments[a].key)
  }

  /** No two assignments, of one closure or of two, share a target. */
  ghost predicate DistinctTargets(closures: seq<Closure>) {
    forall i, a, j, b :: IsAssignment(closures, i, a) && IsAssignment(closures, j, b) ==>
      (TargetOf(closures, i, a) == TargetOf(closures, j, b) ==> i == j && a == b)
  }

  ghost predicate IsTarget(closures: seq<Closure>, s: Secret) {
    exists i, a :: IsAssignment(closures, i, a) && TargetOf(closures, i, a) == s
  }

  /** `value` is what Vault has for the secret when it has a non-empty string there and the fetch
      succeeded, and the earlier value otherwise. */
  ghost predicate IsOverlaid(closures: seq<Closure>, vault: Vault, env: Values, s: Secret, value: string)
    requires s in env
  {
    && (!IsTarget(closures, s) ==> value == env[s])
    && (forall i, a :: IsAssignment(closures, i, a) && TargetOf(closures, i, a) == s ==>
          value == StoredBy(closures, vault, i, a).GetOr(env[s]))
  }

  /** While the closures run: assignment `a` of closure `i` has run when `a` is below `at[i]`. */
  ghost predicate Partly(closures: seq<Closure>, vault: Vault, env: Values, at: seq<nat>, values: Values) {
    && |at| == |closures| && values.Keys == env.Keys
    && (forall i :: 0 <= i < |at| ==> at[i] <= |closures[i].assignments|)
    && (forall s :: s in env && !IsTarget(closures, s) ==> values[s] == env[s])
    && (forall i, a :: IsAssignment(closures, i, a) && TargetOf(closures, i, a) in env ==>
          values[TargetOf(closures, i, a)] ==
            if a < at[i] then StoredBy(closures, vault, i, a).GetOr(env[TargetOf(closures, i, a)])
            else env[TargetOf(closures, i, a)])
  }

  lemma AssignmentRuns(closures: seq<Closure>, vault: Vault, env: Values, at: seq<nat>, values: Values, i: nat)
    requires DistinctTargets(closures) && Partly(closures, vault, env, at, values)
    requires i < |closures| && at[i] < |closures[i].assignments| && TargetOf(closures, i, at[i]) in env
    ensures
      var target := TargetOf(closures, i, at[i]);
      var stored := StoredBy(closures, vault, i, at[i]);
      Partly(closures, vault, env, at[i := at[i] + 1], if stored.Some? then values[target := stored.value] else values)
  {
    hide Fetched;
    var target := TargetOf(closures, i, at[i]);
    assert IsAssignment(closures, i, at[i]) && IsTarget(closures, target);
  }

  /** A closure whose fetch failed stores nothing, so it may as well have run. */
  lemma FailedFetchStoresNothing(closures: seq<Closure>, vault: Vault, env: Values, at: seq<nat>, values: Values, i: nat)
    requires DistinctTargets(closures) && Partly(closures, vault, env, at, values)
    requires i < |closures| && at[i] == 0 && closures[i].path !in vault
    ensures Partly(closures, vault, env, at[i := |closures[i].assignments|], values)
  {
  }

  predicate CanRun(closures: seq<Closure>, at: seq<nat>, i: int) {
    0 <= i < |at| <= |closures| && at[i] < |closures[i].assignments|
  }

  /** One step of closure `i`: its next assignment, or all of them when its fetch failed. */
  function RunOne(closures: seq<Closure>, vault: Vault, at: seq<nat>, values: Values, i: int): (seq<nat>, Values)
    requires CanRun(closures, at, i)
  {
    if closures[i].path !in vault && at[i] == 0 then (at[i := |closures[i].assignments|], values)
    else
      var stored := StoredBy(closures, vault, i, at[i]);
      (at[i := at[i] + 1], if stored.Some? then values[TargetOf(closures, i, at[i]) := stored.value] else values)
  }

  lemma RunOneKeepsPartly(closures: seq<Closure>, vault: Vault, env: Values, at: seq<nat>, values: Values, i: int)
    requires DistinctTargets(closures) && Partly(closures, vault, env, at, values) && CanRun(closures, at, i)
    requires forall i, a :: IsAssignment(closures, i, a) ==> TargetOf(closures, i, a) in env
    ensures Partly(closures, vault, env, RunOne(closures, vault, at, values, i).0, RunOne(closures, vault, at, values, i).1)
    ensures Unfinished(closures, RunOne(closures, vault, at, values, i).0) < Unfinished(closures, at)
  {
    assert IsAssignment(closures, i, at[i]);
    if closures[i].path !in vault && at[i] == 0 {
      FailedFetchStoresNothing(closures, vault, env, at, values, i);
    } else {
      AssignmentRuns(closures, vault, env, at, values, i);
    }
    hide Partly, DistinctTargets;
    UnfinishedShrinks(closures, at, i, RunOne(closures, vault, at, values, i).0[i]);
  }

  lemma FinishedIsOverlaid(closures: seq<Closure>, vault: Vault, env: Values, at: seq<nat>, values: Values, s: Secret)
    requires Partly(closures, vault, env, at, values) && s in env
    requires forall i :: 0 <= i < |at| ==> !CanRun(closures, at, i)
    ensures IsOverlaid(closures, vault, env, s, values[s])
  {
    forall i, a | IsAssignment(closures, i, a) ensures a < at[i] {
      assert !CanRun(closures, at, i);
    }
    forall i, a | IsAssignment(closures, i, a) && TargetOf(closures, i, a) == s
      ensures values[s] == StoredBy(closures, vault, i, a).GetOr(env[s])
    {
    }
  }

  /** Runs the closures concurrently, one assignment at a time in any order, and waits for all: the
      values at the end do not depend on the order. */
  method Overlay(closures: seq<Closure>, vault: Vault, env: Values) returns (values: Values)
    requires DistinctTargets(closures)
    requires forall i, a :: IsAssignment(closures, i, a) ==> TargetOf(closures, i, a) in env
    ensures values.Keys == env.Keys
    ensures forall s :: s in env ==> IsOverlaid(closures, vault, env, s, values[s])
  {
    values := env;
    var at: seq<nat> := seq(|closures|, _ => 0);
    while exists i :: 0 <= i < |at| && CanRun(closures, at, i)
      invariant Partly(closures, vault, env, at, values)
      decreases Unfinished(closures, at)
    {
      hide Partly, DistinctTargets;
      var i :| 0 <= i < |at| && CanRun(closures, at, i);
      RunOneKeepsPartly(closures, vault, env, at, values, i);
      PartlyHasBounds(closures, vault, env, at, values);
      var next := RunOne(closures, vault, at, values, i);
      PartlyHasBounds(closures, vault, env, next.0, next.1);
      at, values := next.0, next.1;
    }
    forall s | s in env ensures IsOverlaid(closures, vault, env, s, values[s]) {
      FinishedIsOverlaid(closures, vault, env, at, values, s);
    }
  }

  lemma PartlyHasBounds(closures: seq<Closure>, vault: Vault, env: Values, at: seq<nat>, values: Values)
    requires Partly(closures, vault, env, at, values)
    ensures |at| == |closures| && forall i :: 0 <= i < |at| ==> at[i] <= |closures[i].assignments|
  {
  }

  /** Assignments that have not run yet. */
  ghost function Unfinished(closures: seq<Closure>, at: seq<nat>): nat
    requires |at| == |closures| && forall i :: 0 <= i < |at| ==> at[i] <= |closures[i].assignments|
  {
    if at == [] then 0
    else Unfinished(closures[..|at| - 1], at[..|at| - 1]) + (|closures[|at| - 1].assignments| - at[|at| - 1])
  }

  lemma {:induction false} UnfinishedShrinks(closures: seq<Closure>, at: seq<nat>, i: nat, next: nat)
    requires |at| == |closures| && forall i :: 0 <= i < |at| ==> at[i] <= |closures[i].assignments|
    requires i < |at| && at[i] < next <= |closures[i].assignments|
    ensures Unfinished(closures, at[i := next]) < Unfinished(closures, at)
    decreases |at|
  {
    var n := |at| - 1;
    if i < n {
      UnfinishedShrinks(closures[..n], at[..n], i, next);
      assert at[i := next][..n] == at[..n][i := next];
    } else {
      assert at[i := next][..n] == at[..n];
    }
  }

  // ---- the application's closures ---------------------------------------------------------------

  /** Where a secret is looked up: closure and assignment. */
  function HomeOf(s: Secret): (int, int) {
    match s
    case PostgresUser => (0, 0)
    case PostgresPassword => (0, 1)
    case PostgresDB => (0, 2)
    case RedisPassword => (1, 0)
    case JwtAccessSecret => (2, 0)
    case JwtRefreshSecret => (2, 1)
    case ResendAPIKey => (3, 0)
    case S3AccessKey => (4, 0)
    case S3SecretKey => (4, 1)
    case FlagEncryptionKey => (5, 0)
    case AdminUsername => (6, 0)
    case AdminEmail => (6, 1)
    case AdminPassword => (6, 2)
  }

  lemma HomesAreRight(s: Secret)
    ensures IsAssignment(CLOSURES, HomeOf(s).0, HomeOf(s).1) && TargetOf(CLOSURES, HomeOf(s).0, HomeOf(s).1) == s
  {
  }

  lemma TargetsAreHome(i: int, a: int)
    requires IsAssignment(CLOSURES, i, a)
    ensures HomeOf(TargetOf(CLOSURES, i, a)) == (i, a)
  {
  }

  lemma ClosuresAreDistinct()
    ensures DistinctTargets(CLOSURES)
  {
    hide HomeOf;
    forall i, a, j, b | IsAssignment(CLOSURES, i, a) && IsAssignment(CLOSURES, j, b)
      ensures TargetOf(CLOSURES, i, a) == TargetOf(CLOSURES, j, b) ==> i == j && a == b
    {
      TargetsAreHome(i, a);
      TargetsAreHome(j, b);
    }
  }

  /** The value of a secret whatever the scheduling: Vault's, when the path was fetched and holds a
      non-empty string under the key, and the environment's otherwise. */
  function Effective(vault: Vault, env: Values, s: Secret): string
    requires s in env
  {
    HomesAreRight(s);
    StoredBy(CLOSURES, vault, HomeOf(s).0, HomeOf(s).1).GetOr(env[s])
  }

  // ---- New ------------------------------------------------------------------------------------

  function GetEnv(environment: map<string, string>, key: string, default: string): string {
    if key in environment && environment[key] != "" then TrimSpace(environment[key]) else default
  }

  function EnvName(s: Secret): string {
    match s
    case PostgresUser => "POSTGRES_USER"
    case PostgresPassword => "POSTGRES_PASSWORD"
    case PostgresDB => "POSTGRES_DB"
    case RedisPassword => "REDIS_PASSWORD"
    case JwtAccessSecret => "JWT_ACCESS_SECRET"
    case JwtRefreshSecret => "JWT_REFRESH_SECRET"
    case ResendAPIKey => "RESEND_API_KEY"
    case S3AccessKey => "STORAGE_S3_ACCESS_KEY"
    case S3SecretKey => "STORAGE_S3_SECRET_KEY"
    case FlagEncryptionKey => "FLAG_ENCRYPTION_KEY"
    case AdminUsername => "ADMIN_USERNAME"
    case AdminEmail => "ADMIN_EMAIL"
    case AdminPassword => "ADMIN_PASSWORD"
  }

  const DEFAULT_ORIGINS := "http://localhost:3000,http://localhost:5173,http://localhost:5000"

  datatype ConfigError = ErrDatabase | ErrJwt | ErrRedis | ErrFlagKey

  datatype AppConfig = AppConfig(secrets: Values, corsOrigins: seq<string>)

  function EnvValues(environment: map<string, string>): Values {
    map s: Secret | s in ALL_SECRETS :: GetEnv(environment, EnvName(s), "")
  }

  const ALL_SECRETS: set<Secret> := {
    PostgresUser, PostgresPassword, PostgresDB, RedisPassword, JwtAccessSecret, JwtRefreshSecret,
    ResendAPIKey, S3AccessKey, S3SecretKey, FlagEncryptionKey, AdminUsername, AdminEmail, AdminPassword
  }

  lemma EverySecretHasAVariable(environment: map<string, string>, s: Secret)
    ensures s in EnvValues(environment)
  {
  }

  /** The secrets New insists on. */
  const REQUIRED: set<Secret> := {
    PostgresUser, PostgresPassword, PostgresDB, JwtAccessSecret, JwtRefreshSecret, RedisPassword, FlagEncryptionKey
  }

  ghost predicate Missing(vault: Vault, env: Values, secrets: set<Secret>)
    requires forall s: Secret :: s in env
  {
    exists s :: s in secrets && Effective(vault, env, s) == ""
  }

  /** A variable that is not set, or empty, counts as its default; another is trimmed at both ends. */
  lemma GetEnvIs(environment: map<string, string>, key: string, default: string)
    ensures key !in environment || environment[key] == "" ==> GetEnv(environment, key, default) == default
    ensures key in environment && environment[key] != "" ==>
      exists i, j ::
        && 0 <= i <= j <= |environment[key]| && GetEnv(environment, key, default) == environment[key][i..j]
        && (forall k :: 0 <= k < i || j <= k < |environment[key]| ==> environment[key][k] as int in WHITE_SPACE)
        && (i < j ==> environment[key][i] as int !in WHITE_SPACE && environment[key][j - 1] as int !in WHITE_SPACE)
  {
    if key in environment && environment[key] != "" {
      TrimSpaceRemoves(environment[key]);
    }
    hide TrimSpace, WHITE_SPACE;
  }

  /** The value is the non-empty string Vault has at the path under the key, and else that of the variable. */
  ghost predicate ComesFrom(value: string, vault: Vault, path: string, key: string, environment: map<string, string>, variable: string) {
    if path in vault && key in vault[path] && vault[path][key].Text? && vault[path][key].text != ""
    then value == vault[path][key].text
    else value == GetEnv(environment, variable, "")
  }

  /** Where each secret comes from. */
  ghost predicate IsConfigured(s: Secret, value: string, vault: Vault, environment: map<string, string>) {
    match s
    case PostgresUser => ComesFrom(value, vault, "ctfboard/database", "user", environment, "POSTGRES_USER")
    case PostgresPassword => ComesFrom(value, vault, "ctfboard/database", "password", environment, "POSTGRES_PASSWORD")
    case PostgresDB => ComesFrom(value, vault, "ctfboard/database", "dbname", environment, "POSTGRES_DB")
    case RedisPassword => ComesFrom(value, vault, "ctfboard/redis", "password", environment, "REDIS_PASSWORD")
    case JwtAccessSecret => ComesFrom(value, vault, "ctfboard/jwt", "access_secret", environment, "JWT_ACCESS_SECRET")
    case JwtRefreshSecret => ComesFrom(value, vault, "ctfboard/jwt", "refresh_secret", environment, "JWT_REFRESH_SECRET")
    case ResendAPIKey => ComesFrom(value, vault, "ctfboard/resend", "api_key", environment, "RESEND_API_KEY")
    case S3AccessKey => ComesFrom(value, vault, "ctfboard/storage", "access_key", environment, "STORAGE_S3_ACCESS_KEY")
    case S3SecretKey => ComesFrom(value, vault, "ctfboard/storage", "secret_key", environment, "STORAGE_S3_SECRET_KEY")
    case FlagEncryptionKey => ComesFrom(value, vault, "ctfboard/app", "flag_encryption_key", environment, "FLAG_ENCRYPTION_KEY")
    case AdminUsername => ComesFrom(value, vault, "ctfboard/admin", "username", environment, "ADMIN_USERNAME")
    case AdminEmail => ComesFrom(value, vault, "ctfboard/admin", "email", environment, "ADMIN_EMAIL")
    case AdminPassword => ComesFrom(value, vault, "ctfboard/admin", "password", environment, "ADMIN_PASSWORD")
  }

  lemma OneComesFrom(vault: Vault, environment: map<string, string>, s: Secret)
    ensures
      var (i, a) := HomeOf(s);
      && s in EnvValues(environment) && 0 <= i < |CLOSURES| && 0 <= a < |CLOSURES[i].assignments|
      && ComesFrom(Effective(vault, EnvValues(environment), s), vault, CLOSURES[i].path, CLOSURES[i].assignments[a].key, environment, EnvName(s))
  {
    hide HomeOf, EnvName, GetEnv;
    HomesAreRight(s);
    EverySecretHasAVariable(environment, s);
    assert EnvValues(environment)[s] == GetEnv(environment, EnvName(s), "");
  }

  lemma EffectiveIsConfigured(vault: Vault, environment: map<string, string>, s: Secret)
    ensures s in EnvValues(environment) && IsConfigured(s, Effective(vault, EnvValues(environment), s), vault, environment)
  {
    hide ComesFrom, Effective, EnvValues;
    OneComesFrom(vault, environment, s);
  }

  /** `usesVault` holds when address and token are set and the client could be made. Success and the
      error depend only on the effective values of the required secrets, and on success every secret
      has its effective value. */
  method New(environment: map<string, string>, usesVault: bool, vault: Vault) returns (r: Result<AppConfig, ConfigError>)
    ensures
      var env := EnvValues(environment);
      var fetched := if usesVault then vault else map[];
      && (forall s: Secret :: s in env)
      && (r.Ok? <==> forall s :: s in REQUIRED ==> Effective(fetched, env, s) != "")
      && (r.Ok? ==> forall s: Secret :: s in r.value.secrets && r.value.secrets[s] == Effective(fetched, env, s))
      && (r.Ok? ==> forall s: Secret :: s in r.value.secrets && IsConfigured(s, r.value.secrets[s], fetched, environment))
      && (r.Ok? ==> r.value.corsOrigins == ParsedOrigins(GetEnv(environment, "CORS_ORIGINS",
            "http://localhost:3000,http://localhost:5173,http://localhost:5000")))
      && (r == Err(ErrDatabase) <==> Missing(fetched, env, {PostgresUser, PostgresPassword, PostgresDB}))
      && (r == Err(ErrJwt) <==>
            && !Missing(fetched, env, {PostgresUser, PostgresPassword, PostgresDB})
            && Missing(fetched, env, {JwtAccessSecret, JwtRefreshSecret}))
      && (r == Err(ErrRedis) <==>
            && !Missing(fetched, env, {PostgresUser, PostgresPassword, PostgresDB, JwtAccessSecret, JwtRefreshSecret})
            && Missing(fetched, env, {RedisPassword}))
  {
    hide Effective, GetEnv, EnvName, TrimSpace, ParsedOrigins, DistinctTargets, IsConfigured;
    var env := EnvValues(environment);
    var origins := ParseCORSOrigins(GetEnv(environment, "CORS_ORIGINS", DEFAULT_ORIGINS));
    var values := env;
    ghost var fetched: Vault := if usesVault then vault else map[];
    forall s: Secret ensures s in env {
      EverySecretHasAVariable(environment, s);
    }
    if usesVault {
      ClosuresAreDistinct();
      values := Overlay(CLOSURES, vault, env);
    }
    forall s: Secret ensures s in values && values[s] == Effective(fetched, env, s) {
      if usesVault {
        OverlaidIsEffective(vault, env, s, values[s]);
      } else {
        NoVaultIsEnvironment(env, s);
      }
    }
    if values[PostgresUser] == "" || values[PostgresPassword] == "" || values[PostgresDB] == "" {
      return Err(ErrDatabase);
    }
    if values[JwtAccessSecret] == "" || values[JwtRefreshSecret] == "" {
      return Err(ErrJwt);
    }
    if values[RedisPassword] == "" {
      return Err(ErrRedis);
    }
    if values[FlagEncryptionKey] == "" {
      return Err(ErrFlagKey);
    }
    forall s: Secret ensures IsConfigured(s, values[s], fetched, environment) {
      EffectiveIsConfigured(fetched, environment, s);
    }
    r := Ok(AppConfig(values, origins));
  }

  lemma OverlaidIsEffective(vault: Vault, env: Values, s: Secret, value: string)
    requires s in env && IsOverlaid(CLOSURES, vault, env, s, value)
    ensures value == Effective(vault, env, s)
  {
    hide HomeOf;
    HomesAreRight(s);
  }

  lemma NoVaultIsEnvironment(env: Values, s: Secret)
    requires s in env
    ensures Effective(map[], env, s) == env[s]
  {
    hide HomeOf;
    HomesAreRight(s);
  }
}
