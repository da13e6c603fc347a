/** backend/pkg/cache/cache.go as a class. Its methods run without interference and are proved to be
    runs of the protocol; calls that interleave are the protocol's other runs. */
module Caches {
  import opened Prelude
  import opened CacheProtocol

  datatype Value<D> = Encoded(data: D) | Undecodable

  function Bytes<D>(e: Stored<D>): Value<D> {
    match e
    case Json(data, _, _) => Encoded(data)
    case Junk => Undecodable
  }

  function Outcome<D>(a: Answer<D>): Result<D, string> {
    match a
    case Hit(data, _) => Ok(data)
    case FromFlight(_, Data(data, _)) => Ok(data)
    case FromFlight(_, LoadError(error)) => Err(error)
  }

  class Cache<Db, D> {
    var redis: map<string, Value<D>>
    ghost var state: State<Db, D>

    /** Redis holds the protocol's values, and between calls no flight is open. */
    ghost predicate Valid()
      reads this
    {
      && state.source != [] && state.flights == map[]
      && redis.Keys == state.redis.Keys
      && forall k :: k in redis ==> redis[k] == Bytes(state.redis[k])
    }

    constructor (ghost db: Db)
      ensures Valid() && redis == map[] && state == Fresh(db)
    {
      redis := map[];
      state := Fresh(db);
    }

    /** `found` is false when redis.Get fails; `loaded` is what loadFn returns; `kept` is false when
        json.Marshal or redis.Set fails. */
    method GetOrLoad(ghost load: (string, Db) -> D, ghost caller: nat, key: string,
                     found: bool, loaded: Result<D, string>, kept: bool)
      returns (result: Result<D, string>, ghost run: seq<Step<Db>>)
      requires Valid() && caller !in state.callers
      requires loaded.Ok? ==> loaded.value == load(key, state.source[Version(state)])
      modifies this
      ensures Valid()
      ensures IsRun(load, old(state), run) && state == After(load, old(state), run)
      ensures caller in state.callers && state.callers[caller].Returned?
      ensures result == Outcome(state.callers[caller].answer)
      ensures found && key in old(redis) && old(redis)[key].Encoded? ==> result == Ok(old(redis)[key].data)
      ensures !(found && key in old(redis) && old(redis)[key].Encoded?) ==> result == loaded
      ensures redis ==
        if !(found && key in old(redis) && old(redis)[key].Encoded?) && loaded.Ok? && kept
        then old(redis)[key := Encoded(loaded.value)]
        else old(redis)
    {
      hide Next, Enabled, IsRun, After;
      ghost var before := state;
      ghost var asked := SoloRead(load, before, caller, key, found);
      if found && key in redis && redis[key].Encoded? {
        result := Ok(redis[key].data);
        run := asked;
        state := After(load, before, run);
        return;
      }
      ghost var flown := SoloFlight(load, After(load, before, asked), caller, key, loaded, kept);
      RunsCompose(load, before, asked, flown);
      run := asked + flown;
      state := After(load, before, run);
      result := loaded;
      if loaded.Ok? && kept {
        redis := redis[key := Encoded(loaded.value)];
      }
    }

    /** Drops the keys, in one command; with no key there is none. */
    method Del(ghost load: (string, Db) -> D, keys: seq<string>)
      requires Valid()
      modifies this
      ensures Valid() && redis == old(redis) - (set k | k in keys)
      ensures state == if keys == [] then old(state) else Next(load, old(state), CacheProtocol.Del(set k | k in keys))
    {
      if |keys| > 0 {
        redis := redis - (set k | k in keys);
        state := Next(load, state, CacheProtocol.Del(set k | k in keys));
      }
    }
  }

  lemma SoloRead<Db, D>(load: (string, Db) -> D, s: State<Db, D>, c: nat, k: string, found: bool)
    returns (run: seq<Step<Db>>)
    requires s.source != [] && c !in s.callers
    ensures IsRun(load, s, run)
    ensures
      var t := After(load, s, run);
      && t.redis == s.redis && t.flights == s.flights && t.source == s.source
      && c in t.callers
      && (if found && k in s.redis && s.redis[k].Json?
          then t.callers[c].Returned? && t.callers[c].answer == Hit(s.redis[k].data, s.redis[k].version)
          else t.callers[c] == Missed(k, s.now))
  {
    hide Next, Enabled, IsRun, After;
    CallAndRead(load, s, c, k, found);
    SingleStepRun(load, s, Call(c, k));
    RunExtends(load, s, [Call(c, k)], Read(c, found));
    run := [Call(c, k)] + [Read(c, found)];
  }

  lemma CallAndRead<Db, D>(load: (string, Db) -> D, s: State<Db, D>, c: nat, k: string, found: bool)
    requires s.source != [] && c !in s.callers
    ensures Enabled(s, Call(c, k)) && Enabled(Next(load, s, Call(c, k)), Read(c, found))
    ensures
      var t := Next(load, Next(load, s, Call(c, k)), Read(c, found));
      && t.redis == s.redis && t.flights == s.flights && t.source == s.source
      && c in t.callers
      && (if found && k in s.redis && s.redis[k].Json?
          then t.callers[c].Returned? && t.callers[c].answer == Hit(s.redis[k].data, s.redis[k].version)
          else t.callers[c] == Missed(k, s.now))
  {
  }

  /** A caller that missed, with no flight open on its key, flies alone. */
  lemma SoloFlight<Db, D>(load: (string, Db) -> D, s: State<Db, D>, c: nat, k: string, loaded: Result<D, string>, kept: bool)
    returns (run: seq<Step<Db>>)
    requires s.source != [] && c in s.callers && s.callers[c].Missed? && s.callers[c].key == k && k !in s.flights
    requires loaded.Ok? ==> loaded.value == load(k, s.source[Version(s)])
    ensures IsRun(load, s, run)
    ensures
      var t := After(load, s, run);
      && t.flights == s.flights && t.source == s.source
      && c in t.callers && t.callers[c].Returned? && Outcome(t.callers[c].answer) == loaded
      && (if loaded.Ok? && kept
          then t.redis == s.redis[k := Json(loaded.value, Version(s), |s.births|)]
          else t.redis == s.redis)
  {
    hide Next, Enabled, IsRun, After;
    JoinOpens(load, s, c, k);
    SingleStepRun(load, s, Join(c));
    var joined := Next(load, s, Join(c));
    assert joined.flights - {k} == s.flights;
    match loaded {
      case Err(error) =>
        FailLands(load, joined, c, k, error);
        RunExtends(load, s, [Join(c)], LoadFails(k, error));
        run := [Join(c)] + [LoadFails(k, error)];
        RunExtends(load, s, run, Finish(k));
      case Ok(data) =>
        var save: Step<Db> := if kept then Store(k) else SkipStore(k);
        LoadLands(load, joined, c, k, save);
        RunExtends(load, s, [Join(c)], Load(k));
        RunExtends(load, s, [Join(c)] + [Load(k)], save);
        run := [Join(c)] + [Load(k)] + [save];
        RunExtends(load, s, run, Finish(k));
    }
    run := run + [Finish(k)];
  }

  lemma JoinOpens<Db, D>(load: (string, Db) -> D, s: State<Db, D>, c: nat, k: string)
    requires s.source != [] && c in s.callers && s.callers[c].Missed? && s.callers[c].key == k && k !in s.flights
    ensures Enabled(s, Join(c))
    ensures
      var t := Next(load, s, Join(c));
      && t.redis == s.redis && t.source == s.source && t.flights == s.flights[k := Flight(|s.births|, Loading)]
      && c in t.callers && t.callers[c] == Waiting(k, s.callers[c].startedAt, |s.births|)
  {
  }

  lemma FailLands<Db, D>(load: (string, Db) -> D, s: State<Db, D>, c: nat, k: string, error: string)
    requires s.source != [] && k in s.flights && s.flights[k].phase.Loading?
    requires c in s.callers && s.callers[c].Waiting? && s.callers[c].flight == s.flights[k].id
    ensures Enabled(s, LoadFails(k, error)) && Enabled(Next(load, s, LoadFails(k, error)), Finish(k))
    ensures
      var t := Next(load, Next(load, s, LoadFails(k, error)), Finish(k));
      && t.redis == s.redis && t.source == s.source && t.flights == s.flights - {k}
      && c in t.callers && t.callers[c].Returned?
      && t.callers[c].answer == FromFlight(s.flights[k].id, LoadError(error))
  {
    assert s.flights[k := Flight(s.flights[k].id, Failed(error))] - {k} == s.flights - {k};
  }

  lemma LoadLands<Db, D>(load: (string, Db) -> D, s: State<Db, D>, c: nat, k: string, save: Step<Db>)
    requires s.source != [] && k in s.flights && s.flights[k].phase.Loading?
    requires c in s.callers && s.callers[c].Waiting? && s.callers[c].flight == s.flights[k].id
    requires save == Store(k) || save == SkipStore(k)
    ensures Enabled(s, Load(k)) && Enabled(Next(load, s, Load(k)), save)
    ensures Enabled(Next(load, Next(load, s, Load(k)), save), Finish(k))
    ensures
      var data := load(k, s.source[Version(s)]);
      var t := Next(load, Next(load, Next(load, s, Load(k)), save), Finish(k));
      && t.redis == (if save.Store? then s.redis[k := Json(data, Version(s), s.flights[k].id)] else s.redis)
      && t.source == s.source && t.flights == s.flights - {k}
      && c in t.callers && t.callers[c].Returned?
      && t.callers[c].answer == FromFlight(s.flights[k].id, Data(data, Version(s)))
  {
    var loadedState := Next(load, s, Load(k));
    var saved := Next(load, loadedState, save);
    assert saved.callers == s.callers && saved.flights[k].id == s.flights[k].id;
    assert saved.flights - {k} == s.flights - {k};
  }
}
