/** backend/pkg/cache/cache.go as a labelled transition system: calls of GetOrLoad on any keys, the
    flights of the single-flight group, Redis, writes to the source behind the loaders, Del, expiry
    and values in Redis that do not decode. Each access to Redis, to the group or to the source is
    one step; a run is any interleaving of them.

    The source is the sequence of its states so far, the last one current; `load(key, db)` is what
    the loader of `key` returns from the source state `db`. The fields `version`, `flight`, `births`,
    `finished` and the time stamps record history and decide nothing. */
module CacheProtocol {
  import opened Prelude

  /** A value in Redis: the JSON of `data`, which decodes to `data`, or bytes that do not decode. */
  datatype Stored<D> = Json(data: D, version: nat, flight: nat) | Junk

  datatype Phase<D> = Loading | Loaded(data: D, version: nat) | Ready(data: D, version: nat) | Failed(error: string)

  datatype Flight<D> = Flight(id: nat, phase: Phase<D>)

  datatype FlightResult<D> = Data(data: D, version: nat) | LoadError(error: string)

  datatype Answer<D> = Hit(data: D, version: nat) | FromFlight(flight: nat, result: FlightResult<D>)

  datatype Caller<D> =
    | Started(key: string, startedAt: nat)
    | Missed(key: string, startedAt: nat)
    | Waiting(key: string, startedAt: nat, flight: nat)
    | Returned(key: string, startedAt: nat, returnedAt: nat, answer: Answer<D>)

  /** When and at which source version a flight began. */
  datatype Birth = Birth(key: string, at: nat, version: nat)

  datatype Landing<D> = Landing(at: nat, result: FlightResult<D>)

  datatype State<Db, D> = State(
    redis: map<string, Stored<D>>,
    flights: map<string, Flight<D>>,
    callers: map<nat, Caller<D>>,
    source: seq<Db>,
    now: nat,
    births: seq<Birth>,
    finished: map<nat, Landing<D>>,
    deletedAt: map<string, nat>,
    deletedVersion: map<string, nat>)

  datatype Step<Db> =
    | Call(caller: nat, key: string)
    | Read(caller: nat, reachable: bool)   // redis.Get and json.Unmarshal
    | Join(caller: nat)                    // sf.Do: start a flight or wait for the open one
    | Load(key: string)                    // loadFn succeeds inside the flight
    | LoadFails(key: string, error: string)
    | Store(key: string)                   // json.Marshal and redis.Set succeed
    | SkipStore(key: string)               // one of them fails, which is ignored
    | Finish(key: string)                  // the flight ends for all who joined it
    | Write(db: Db)
    | Del(keys: set<string>)
    | Expire(key: string)
    | Corrupt(key: string)

  function Version<Db, D>(s: State<Db, D>): int {
    |s.source| - 1
  }

  predicate Enabled<Db, D>(s: State<Db, D>, step: Step<Db>) {
    match step
    case Call(c, _) => c !in s.callers
    case Read(c, _) => c in s.callers && s.callers[c].Started?
    case Join(c) => c in s.callers && s.callers[c].Missed?
    case Load(k) => k in s.flights && s.flights[k].phase.Loading?
    case LoadFails(k, _) => k in s.flights && s.flights[k].phase.Loading?
    case Store(k) => k in s.flights && s.flights[k].phase.Loaded?
    case SkipStore(k) => k in s.flights && s.flights[k].phase.Loaded?
    case Finish(k) => k in s.flights && (s.flights[k].phase.Ready? || s.flights[k].phase.Failed?)
    case Write(_) => true
    case Del(_) => true
    case Expire(_) => true
    case Corrupt(_) => true
  }

  function ResultOf<D>(phase: Phase<D>): FlightResult<D>
    requires phase.Ready? || phase.Failed?
  {
    match phase
    case Ready(data, version) => Data(data, version)
    case Failed(error) => LoadError(error)
  }

  function Resolve<D>(caller: Caller<D>, flight: nat, now: nat, result: FlightResult<D>): Caller<D> {
    if caller.Waiting? && caller.flight == flight
    then Returned(caller.key, caller.startedAt, now, FromFlight(flight, result))
    else caller
  }

  function AfterRead<Db, D>(s: State<Db, D>, c: nat, reachable: bool): Caller<D>
    requires c in s.callers && s.callers[c].Started?
  {
    var k := s.callers[c].key;
    if reachable && k in s.redis && s.redis[k].Json?
    then Returned(k, s.callers[c].startedAt, s.now, Hit(s.redis[k].data, s.redis[k].version))
    else Missed(k, s.callers[c].startedAt)
  }

  function CallStarted<Db, D>(s: State<Db, D>, c: nat, k: string): State<Db, D> {
    s.(callers := s.callers[c := Started(k, s.now)])
  }

  function ReadDone<Db, D>(s: State<Db, D>, c: nat, reachable: bool): State<Db, D>
    requires c in s.callers && s.callers[c].Started?
  {
    s.(callers := s.callers[c := AfterRead(s, c, reachable)])
  }

  function JoinDone<Db, D>(s: State<Db, D>, c: nat): State<Db, D>
    requires s.source != [] && c in s.callers && s.callers[c].Missed?
  {
    var k := s.callers[c].key;
    if k in s.flights then
      s.(callers := s.callers[c := Waiting(k, s.callers[c].startedAt, s.flights[k].id)])
    else
      s.(callers := s.callers[c := Waiting(k, s.callers[c].startedAt, |s.births|)],
         flights := s.flights[k := Flight(|s.births|, Loading)],
         births := s.births + [Birth(k, s.now, Version(s))])
  }

  function InPhase<Db, D>(s: State<Db, D>, k: string, phase: Phase<D>): State<Db, D>
    requires k in s.flights
  {
    s.(flights := s.flights[k := Flight(s.flights[k].id, phase)])
  }

  function StoreSkipped<Db, D>(s: State<Db, D>, k: string): State<Db, D>
    requires k in s.flights && s.flights[k].phase.Loaded?
  {
    InPhase(s, k, Ready(s.flights[k].phase.data, s.flights[k].phase.version))
  }

  function StoreDone<Db, D>(s: State<Db, D>, k: string): State<Db, D>
    requires k in s.flights && s.flights[k].phase.Loaded?
  {
    var f := s.flights[k];
    StoreSkipped(s, k).(redis := s.redis[k := Json(f.phase.data, f.phase.version, f.id)])
  }

  function FlightDone<Db, D>(s: State<Db, D>, k: string): State<Db, D>
    requires k in s.flights && (s.flights[k].phase.Ready? || s.flights[k].phase.Failed?)
  {
    var f := s.flights[k];
    s.(flights := s.flights - {k},
       callers := map c | c in s.callers :: Resolve(s.callers[c], f.id, s.now, ResultOf(f.phase)),
       finished := s.finished[f.id := Landing(s.now, ResultOf(f.phase))])
  }

  function KeysDeleted<Db, D>(s: State<Db, D>, keys: set<string>): State<Db, D>
    requires s.source != []
  {
    s.(redis := s.redis - keys,
       deletedAt := map k | k in s.deletedAt.Keys + keys :: if k in keys then s.now else s.deletedAt[k],
       deletedVersion := map k | k in s.deletedVersion.Keys + keys :: if k in keys then Version(s) else s.deletedVersion[k])
  }

  function Effect<Db, D>(load: (string, Db) -> D, s: State<Db, D>, step: Step<Db>): State<Db, D>
    requires s.source != [] && Enabled(s, step)
  {
    match step
    case Call(c, k) => CallStarted(s, c, k)
    case Read(c, reachable) => ReadDone(s, c, reachable)
    case Join(c) => JoinDone(s, c)
    case Load(k) => InPhase(s, k, Loaded(load(k, s.source[Version(s)]), Version(s)))
    case LoadFails(k, e) => InPhase(s, k, Failed(e))
    case Store(k) => StoreDone(s, k)
    case SkipStore(k) => StoreSkipped(s, k)
    case Finish(k) => FlightDone(s, k)
    case Write(db) => s.(source := s.source + [db])
    case Del(keys) => KeysDeleted(s, keys)
    case Expire(k) => s.(redis := s.redis - {k})
    case Corrupt(k) => s.(redis := s.redis[k := Junk])
  }

  lemma EffectKeepsSource<Db, D>(load: (string, Db) -> D, s: State<Db, D>, step: Step<Db>)
    requires s.source != [] && Enabled(s, step)
    ensures Effect(load, s, step).source == if step.Write? then s.source + [step.db] else s.source
  {
  }

  function Next<Db, D>(load: (string, Db) -> D, s: State<Db, D>, step: Step<Db>): (t: State<Db, D>)
    requires s.source != [] && Enabled(s, step)
    ensures t.source != []
  {
    EffectKeepsSource(load, s, step);
    Effect(load, s, step).(now := s.now + 1)
  }

  predicate IsRun<Db, D>(load: (string, Db) -> D, s: State<Db, D>, run: seq<Step<Db>>)
    requires s.source != []
    decreases |run|, 0
  {
    run == [] || (IsRun(load, s, Init(run)) && Enabled(After(load, s, Init(run)), Last(run)))
  }

  function After<Db, D>(load: (string, Db) -> D, s: State<Db, D>, run: seq<Step<Db>>): (t: State<Db, D>)
    requires s.source != [] && IsRun(load, s, run)
    ensures t.source != []
    decreases |run|, 1
  {
    if run == [] then s else Next(load, After(load, s, Init(run)), Last(run))
  }

  lemma RunExtends<Db, D>(load: (string, Db) -> D, s: State<Db, D>, run: seq<Step<Db>>, step: Step<Db>)
    requires s.source != [] && IsRun(load, s, run) && Enabled(After(load, s, run), step)
    ensures IsRun(load, s, run + [step]) && After(load, s, run + [step]) == Next(load, After(load, s, run), step)
  {
    hide Next, Enabled;
    assert Init(run + [step]) == run;
  }

  lemma {:induction false} RunsCompose<Db, D>(load: (string, Db) -> D, s: State<Db, D>, first: seq<Step<Db>>, second: seq<Step<Db>>)
    requires s.source != [] && IsRun(load, s, first) && IsRun(load, After(load, s, first), second)
    ensures IsRun(load, s, first + second)
    ensures After(load, s, first + second) == After(load, After(load, s, first), second)
    decreases |second|
  {
    hide Next, Enabled;
    if second == [] {
      assert first + second == first;
    } else {
      RunsCompose(load, s, first, Init(second));
      assert Init(first + second) == first + Init(second);
    }
  }

  lemma SingleStepRun<Db, D>(load: (string, Db) -> D, s: State<Db, D>, step: Step<Db>)
    requires s.source != [] && Enabled(s, step)
    ensures IsRun(load, s, [step]) && After(load, s, [step]) == Next(load, s, step)
  {
    hide Next, Enabled;
    assert Init([step]) == [];
  }

  /** An empty cache in front of a source that is in its first state. */
  function Fresh<Db, D>(db: Db): State<Db, D> {
    State(map[], map[], map[], [db], 0, [], map[], map[], map[])
  }
}
