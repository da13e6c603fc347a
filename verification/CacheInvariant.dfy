/** What every step of the cache protocol keeps. */
module CacheInvariant {
  import opened Prelude
  import opened CacheProtocol

  /** `data` is what the loader of `key` returns from version `version` of the source, and the flight
      that read it began no later than that version. */
  ghost predicate IsLoadOf<Db, D>(load: (string, Db) -> D, source: seq<Db>, births: seq<Birth>,
                                  key: string, flight: nat, data: D, version: nat)
  {
    && version < |source| && data == load(key, source[version])
    && flight < |births| && births[flight].key == key && births[flight].version <= version
  }

  ghost predicate EntryOk<Db, D>(load: (string, Db) -> D, source: seq<Db>, births: seq<Birth>, key: string, e: Stored<D>) {
    e.Json? ==> IsLoadOf(load, source, births, key, e.flight, e.data, e.version)
  }

  ghost predicate EntriesAreLoads<Db, D>(load: (string, Db) -> D, s: State<Db, D>) {
    forall k :: k in s.redis ==> EntryOk(load, s.source, s.births, k, s.redis[k])
  }

  ghost predicate FlightOk<Db, D>(load: (string, Db) -> D, source: seq<Db>, births: seq<Birth>, key: string, f: Flight<D>) {
    && f.id < |births| && births[f.id].key == key
    && (f.phase.Loaded? || f.phase.Ready? ==> IsLoadOf(load, source, births, key, f.id, f.phase.data, f.phase.version))
  }

  ghost predicate FlightsAreLoads<Db, D>(load: (string, Db) -> D, s: State<Db, D>) {
    forall k :: k in s.flights ==> FlightOk(load, s.source, s.births, k, s.flights[k])
  }

  ghost predicate LandingOk<Db, D>(load: (string, Db) -> D, source: seq<Db>, births: seq<Birth>, now: nat, f: nat, l: Landing<D>) {
    && f < |births| && births[f].at < l.at < now
    && (l.result.Data? ==> IsLoadOf(load, source, births, births[f].key, f, l.result.data, l.result.version))
  }

  ghost predicate LandingsAreLoads<Db, D>(load: (string, Db) -> D, s: State<Db, D>) {
    forall f :: f in s.finished ==> LandingOk(load, s.source, s.births, s.now, f, s.finished[f])
  }

  ghost predicate CallersAgree<Db, D>(load: (string, Db) -> D, s: State<Db, D>) {
    forall c :: c in s.callers ==> CallerAgrees(load, s, s.callers[c])
  }

  /** A waiting caller waits for the open flight of its key; a caller that has returned carries either
      what a load of its key returned or the result its flight landed with. */
  ghost predicate CallerAgrees<Db, D>(load: (string, Db) -> D, s: State<Db, D>, c: Caller<D>) {
    && c.startedAt < s.now
    && match c
       case Started(_, _) => true
       case Missed(_, _) => true
       case Waiting(k, _, f) => k in s.flights && s.flights[k].id == f
       case Returned(k, started, returned, Hit(data, version)) =>
         started < returned < s.now && version < |s.source| && data == load(k, s.source[version])
       case Returned(k, started, returned, FromFlight(f, result)) =>
         started < returned < s.now && f in s.finished && s.finished[f] == Landing(returned, result)
         && f < |s.births| && s.births[f].key == k
  }

  /** Flights on one key never overlap: an earlier one has landed before a later one begins. */
  ghost predicate OneFlightPerKey<D>(births: seq<Birth>, finished: map<nat, Landing<D>>) {
    forall i, j :: 0 <= i < j < |births| && births[i].key == births[j].key ==>
      i in finished && finished[i].at < births[j].at
  }

  /** A flight is open exactly until it has landed. */
  ghost predicate OpenFlights<Db, D>(s: State<Db, D>) {
    OpenHaveNotLanded(s.flights, s.finished) && UnlandedAreOpen(s.flights, s.births, s.finished)
  }

  ghost predicate OpenHaveNotLanded<D>(flights: map<string, Flight<D>>, finished: map<nat, Landing<D>>) {
    forall k :: k in flights ==> flights[k].id !in finished
  }

  ghost predicate UnlandedAreOpen<D>(flights: map<string, Flight<D>>, births: seq<Birth>, finished: map<nat, Landing<D>>) {
    forall i :: 0 <= i < |births| && i !in finished ==>
      births[i].key in flights && flights[births[i].key].id == i
  }

  ghost predicate BirthTimes<Db, D>(s: State<Db, D>) {
    forall i :: 0 <= i < |s.births| ==> s.births[i].at < s.now && s.births[i].version < |s.source|
  }

  ghost predicate DelTimes<Db, D>(s: State<Db, D>) {
    && s.deletedAt.Keys == s.deletedVersion.Keys
    && (forall k :: k in s.deletedAt ==> s.deletedAt[k] < s.now && s.deletedVersion[k] < |s.source|)
    && (forall k, i :: k in s.deletedAt && 0 <= i < |s.births| ==>
          DelOk(s.deletedAt[k], s.deletedVersion[k], s.births[i]))
  }

  ghost predicate DelOk(at: nat, version: nat, b: Birth) {
    at != b.at && (at < b.at ==> version <= b.version)
  }

  ghost predicate Inv<Db, D>(load: (string, Db) -> D, s: State<Db, D>) {
    && s.source != []
    && EntriesAreLoads(load, s) && FlightsAreLoads(load, s) && LandingsAreLoads(load, s)
    && CallersAgree(load, s) && OneFlightPerKey(s.births, s.finished) && OpenFlights(s) && BirthTimes(s) && DelTimes(s)
  }

  lemma FreshHolds<Db, D>(load: (string, Db) -> D, db: Db)
    ensures Inv(load, Fresh<Db, D>(db))
  {
  }

  lemma LoadStays<Db, D>(load: (string, Db) -> D, source: seq<Db>, births: seq<Birth>, source': seq<Db>, births': seq<Birth>,
                         key: string, flight: nat, data: D, version: nat)
    requires source <= source' && births <= births'
    requires IsLoadOf(load, source, births, key, flight, data, version)
    ensures IsLoadOf(load, source', births', key, flight, data, version)
  {
  }

  lemma StepGrows<Db, D>(load: (string, Db) -> D, s: State<Db, D>, step: Step<Db>)
    requires s.source != [] && Enabled(s, step)
    ensures s.source <= Next(load, s, step).source && s.births <= Next(load, s, step).births
    ensures s.finished.Keys <= Next(load, s, step).finished.Keys
    ensures Next(load, s, step).now == s.now + 1
  {
  }

  /** The entry of one key after a step: the old one, the one just stored, or bytes that do not decode. */
  lemma EntryAfter<Db, D>(load: (string, Db) -> D, s: State<Db, D>, step: Step<Db>, k: string)
    requires s.source != [] && Enabled(s, step)
    ensures
      var t := Next(load, s, step);
      k in t.redis ==>
        || (k in s.redis && t.redis[k] == s.redis[k])
        || t.redis[k] == Junk
        || (k in s.flights && s.flights[k].phase.Loaded?
            && t.redis[k] == Json(s.flights[k].phase.data, s.flights[k].phase.version, s.flights[k].id))
  {
  }

  /** The flight of one key after a step: the old one in the same phase or the next, or a new one. */
  lemma FlightAfter<Db, D>(load: (string, Db) -> D, s: State<Db, D>, step: Step<Db>, k: string)
    requires s.source != [] && Enabled(s, step)
    ensures
      var t := Next(load, s, step);
      k in t.flights ==>
        || (k in s.flights && t.flights[k] == s.flights[k])
        || (k in s.flights && t.flights[k].id == s.flights[k].id && t.flights[k].phase.Failed?)
        || (k in s.flights && t.flights[k] == Flight(s.flights[k].id, Loaded(load(k, s.source[Version(s)]), Version(s))))
        || (k in s.flights && s.flights[k].phase.Loaded?
            && t.flights[k] == Flight(s.flights[k].id, Ready(s.flights[k].phase.data, s.flights[k].phase.version)))
        || (k !in s.flights && t.flights[k] == Flight(|s.births|, Loading)
            && t.births == s.births + [Birth(k, s.now, Version(s))])
  {
  }

  lemma StepKeepsEntries<Db, D>(load: (string, Db) -> D, s: State<Db, D>, step: Step<Db>)
    requires s.source != [] && Enabled(s, step) && EntriesAreLoads(load, s) && FlightsAreLoads(load, s)
    ensures EntriesAreLoads(load, Next(load, s, step))
  {
    hide IsLoadOf, Next, Enabled;
    var t := Next(load, s, step);
    StepGrows(load, s, step);
    forall k | k in t.redis && t.redis[k].Json?
      ensures EntryOk(load, t.source, t.births, k, t.redis[k])
    {
      var e := t.redis[k];
      EntryAfter(load, s, step, k);
      assert IsLoadOf(load, s.source, s.births, k, e.flight, e.data, e.version);
      LoadStays(load, s.source, s.births, t.source, t.births, k, e.flight, e.data, e.version);
    }
  }

  lemma StepKeepsFlights<Db, D>(load: (string, Db) -> D, s: State<Db, D>, step: Step<Db>)
    requires s.source != [] && Enabled(s, step) && FlightsAreLoads(load, s) && BirthTimes(s)
    ensures FlightsAreLoads(load, Next(load, s, step))
  {
    hide IsLoadOf, BirthTimes, Next, Enabled;
    var t := Next(load, s, step);
    StepGrows(load, s, step);
    forall k | k in t.flights
      ensures FlightOk(load, t.source, t.births, k, t.flights[k])
    {
      FlightAfter(load, s, step, k);
      if k in s.flights {
        FreshLoad(load, s, k);
        FlightStays(load, s, t, k, t.flights[k]);
      }
    }
  }

  lemma FlightStays<Db, D>(load: (string, Db) -> D, s: State<Db, D>, t: State<Db, D>, k: string, f: Flight<D>)
    requires s.source <= t.source && s.births <= t.births
    requires FlightOk(load, s.source, s.births, k, f)
    ensures FlightOk(load, t.source, t.births, k, f)
  {
  }

  lemma FreshLoad<Db, D>(load: (string, Db) -> D, s: State<Db, D>, k: string)
    requires s.source != [] && BirthTimes(s) && k in s.flights && FlightOk(load, s.source, s.births, k, s.flights[k])
    ensures IsLoadOf(load, s.source, s.births, k, s.flights[k].id, load(k, s.source[Version(s)]), Version(s))
  {
  }

  lemma StepKeepsLandings<Db, D>(load: (string, Db) -> D, s: State<Db, D>, step: Step<Db>)
    requires s.source != [] && Enabled(s, step) && FlightsAreLoads(load, s) && BirthTimes(s) && LandingsAreLoads(load, s)
    ensures LandingsAreLoads(load, Next(load, s, step))
  {
    hide IsLoadOf, FlightsAreLoads;
    var t := Next(load, s, step);
    StepGrows(load, s, step);
    forall f | f in t.finished
      ensures LandingOk(load, t.source, t.births, t.now, f, t.finished[f])
    {
      if step.Finish? && f == s.flights[step.key].id {
        FlightOf(load, s, step.key);
      } else {
        LandingStays(load, s, t, f);
      }
    }
  }

  lemma FlightOf<Db, D>(load: (string, Db) -> D, s: State<Db, D>, k: string)
    requires FlightsAreLoads(load, s) && k in s.flights
    ensures FlightOk(load, s.source, s.births, k, s.flights[k])
  {
  }

  lemma LandingStays<Db, D>(load: (string, Db) -> D, s: State<Db, D>, t: State<Db, D>, f: nat)
    requires s.source <= t.source && s.births <= t.births && s.now <= t.now
    requires f in s.finished && LandingOk(load, s.source, s.births, s.now, f, s.finished[f])
    ensures LandingOk(load, t.source, t.births, t.now, f, s.finished[f])
  {
  }

  lemma StepKeepsCallers<Db, D>(load: (string, Db) -> D, s: State<Db, D>, step: Step<Db>)
    requires s.source != [] && Enabled(s, step)
    requires EntriesAreLoads(load, s) && FlightsAreLoads(load, s) && OpenFlights(s) && CallersAgree(load, s)
    ensures CallersAgree(load, Next(load, s, step))
  {
    hide EntriesAreLoads, FlightsAreLoads, OpenFlights, CallerAgrees;
    var t := Next(load, s, step);
    StepGrows(load, s, step);
    forall c | c in t.callers
      ensures CallerAgrees(load, t, t.callers[c])
    {
      if c in s.callers {
        CallerOf(load, s, c);
        if t.callers[c] == s.callers[c] {
          CallerStays(load, s, step, c);
        } else if step.Finish? {
          FinishedCaller(load, s, step.key, c);
        } else if step.Read? {
          HitAgrees(load, s, c, step.reachable);
        } else {
          JoinAgrees(load, s, c);
        }
      } else {
        CallAgrees(load, s, c, step.key);
      }
    }
  }

  lemma CallAgrees<Db, D>(load: (string, Db) -> D, s: State<Db, D>, c: nat, k: string)
    requires s.source != [] && Enabled(s, Call(c, k))
    ensures CallerAgrees(load, Next(load, s, Call(c, k)), Started(k, s.now))
  {
  }

  lemma JoinAgrees<Db, D>(load: (string, Db) -> D, s: State<Db, D>, c: nat)
    requires s.source != [] && Enabled(s, Join(c)) && s.callers[c].startedAt < s.now
    ensures CallerAgrees(load, Next(load, s, Join(c)), Next(load, s, Join(c)).callers[c])
  {
    JoinWaits(load, s, c);
    hide Next, Enabled;
  }

  lemma JoinWaits<Db, D>(load: (string, Db) -> D, s: State<Db, D>, c: nat)
    requires s.source != [] && Enabled(s, Join(c))
    ensures
      var t, k := Next(load, s, Join(c)), s.callers[c].key;
      && c in t.callers && k in t.flights && t.now == s.now + 1
      && t.callers[c] == Waiting(k, s.callers[c].startedAt, t.flights[k].id)
  {
  }

  lemma CallerOf<Db, D>(load: (string, Db) -> D, s: State<Db, D>, c: nat)
    requires CallersAgree(load, s) && c in s.callers
    ensures CallerAgrees(load, s, s.callers[c]) && s.callers[c].startedAt < s.now
  {
  }

  lemma CallerStays<Db, D>(load: (string, Db) -> D, s: State<Db, D>, step: Step<Db>, c: nat)
    requires s.source != [] && Enabled(s, step) && OpenFlights(s)
    requires c in s.callers && CallerAgrees(load, s, s.callers[c])
    requires c in Next(load, s, step).callers && Next(load, s, step).callers[c] == s.callers[c]
    ensures CallerAgrees(load, Next(load, s, step), s.callers[c])
  {
    hide OpenFlights;
    StepGrows(load, s, step);
    match s.callers[c] {
      case Waiting(k, _, f) => FlightStaysOpen(load, s, step, k);
      case Returned(_, _, _, FromFlight(f, _)) => LandingStaysAt(load, s, step, f);
      case _ =>
    }
  }

  lemma FlightStaysOpen<Db, D>(load: (string, Db) -> D, s: State<Db, D>, step: Step<Db>, k: string)
    requires s.source != [] && Enabled(s, step) && k in s.flights && step != Finish(k)
    ensures k in Next(load, s, step).flights && Next(load, s, step).flights[k].id == s.flights[k].id
  {
  }

  lemma LandingStaysAt<Db, D>(load: (string, Db) -> D, s: State<Db, D>, step: Step<Db>, f: nat)
    requires s.source != [] && Enabled(s, step) && OpenFlights(s) && f in s.finished
    ensures f in Next(load, s, step).finished && Next(load, s, step).finished[f] == s.finished[f]
  {
  }

  lemma FinishedCaller<Db, D>(load: (string, Db) -> D, s: State<Db, D>, k: string, c: nat)
    requires s.source != [] && Enabled(s, Finish(k)) && FlightsAreLoads(load, s)
    requires c in s.callers && CallerAgrees(load, s, s.callers[c])
    requires Next(load, s, Finish(k)).callers[c] != s.callers[c]
    ensures CallerAgrees(load, Next(load, s, Finish(k)), Next(load, s, Finish(k)).callers[c])
  {
    FlightOf(load, s, k);
    var other := s.callers[c].key;
    FlightOf(load, s, other);
  }

  lemma HitAgrees<Db, D>(load: (string, Db) -> D, s: State<Db, D>, c: nat, reachable: bool)
    requires s.source != [] && Enabled(s, Read(c, reachable)) && EntriesAreLoads(load, s)
    requires s.callers[c].startedAt < s.now
    ensures CallerAgrees(load, Next(load, s, Read(c, reachable)), AfterRead(s, c, reachable))
  {
    assert s.callers[c].key in s.redis ==> EntryOk(load, s.source, s.births, s.callers[c].key, s.redis[s.callers[c].key]);
  }

  lemma StepKeepsFlightOrder<Db, D>(load: (string, Db) -> D, s: State<Db, D>, step: Step<Db>)
    requires s.source != [] && Enabled(s, step) && LandingsAreLoads(load, s)
    requires OneFlightPerKey(s.births, s.finished) && OpenFlights(s)
    ensures OneFlightPerKey(Next(load, s, step).births, Next(load, s, step).finished)
  {
    match step {
      case Join(c) =>
        if s.callers[c].key !in s.flights {
          BirthKeepsOrder(load, s, Birth(s.callers[c].key, s.now, Version(s)));
        }
      case Finish(k) =>
        LandingKeepsOrder(s.births, s.finished, s.flights[k].id, Landing(s.now, ResultOf(s.flights[k].phase)));
      case _ =>
    }
  }

  lemma BirthKeepsOrder<Db, D>(load: (string, Db) -> D, s: State<Db, D>, b: Birth)
    requires OneFlightPerKey(s.births, s.finished) && OpenFlights(s) && LandingsAreLoads(load, s)
    requires b.key !in s.flights && b.at == s.now
    ensures OneFlightPerKey(s.births + [b], s.finished)
  {
    hide OneFlightPerKey, IsLoadOf;
    forall i | 0 <= i < |s.births| && s.births[i].key == b.key
      ensures i in s.finished && s.finished[i].at < b.at
    {
      assert i in s.finished ==> LandingOk(load, s.source, s.births, s.now, i, s.finished[i]);
    }
    NewBirthInOrder(s.births, s.finished, b);
  }

  lemma NewBirthInOrder<D>(births: seq<Birth>, finished: map<nat, Landing<D>>, b: Birth)
    requires OneFlightPerKey(births, finished)
    requires forall i :: 0 <= i < |births| && births[i].key == b.key ==> i in finished && finished[i].at < b.at
    ensures OneFlightPerKey(births + [b], finished)
  {
  }

  lemma LandingKeepsOrder<D>(births: seq<Birth>, finished: map<nat, Landing<D>>, f: nat, l: Landing<D>)
    requires OneFlightPerKey(births, finished) && f !in finished
    ensures OneFlightPerKey(births, finished[f := l])
  {
  }

  lemma StepKeepsOpenFlights<Db, D>(load: (string, Db) -> D, s: State<Db, D>, step: Step<Db>)
    requires s.source != [] && Enabled(s, step) && FlightsAreLoads(load, s) && LandingsAreLoads(load, s)
    requires OpenFlights(s)
    ensures OpenFlights(Next(load, s, step))
  {
    match step {
      case Join(c) =>
        if s.callers[c].key !in s.flights {
          FlightOpens(load, s, s.callers[c].key);
        }
      case Finish(k) => FlightLands(load, s, k, Landing(s.now, ResultOf(s.flights[k].phase)));
      case Load(k) => SameFlight(s.flights, s.births, s.finished, k, Next(load, s, step).flights[k]);
      case LoadFails(k, _) => SameFlight(s.flights, s.births, s.finished, k, Next(load, s, step).flights[k]);
      case Store(k) => SameFlight(s.flights, s.births, s.finished, k, Next(load, s, step).flights[k]);
      case SkipStore(k) => SameFlight(s.flights, s.births, s.finished, k, Next(load, s, step).flights[k]);
      case _ =>
    }
  }

  lemma SameFlight<D>(flights: map<string, Flight<D>>, births: seq<Birth>, finished: map<nat, Landing<D>>, k: string, f: Flight<D>)
    requires OpenHaveNotLanded(flights, finished) && UnlandedAreOpen(flights, births, finished)
    requires k in flights && f.id == flights[k].id
    ensures OpenHaveNotLanded(flights[k := f], finished) && UnlandedAreOpen(flights[k := f], births, finished)
  {
  }

  lemma FlightOpens<Db, D>(load: (string, Db) -> D, s: State<Db, D>, k: string)
    requires OpenFlights(s) && LandingsAreLoads(load, s) && k !in s.flights
    ensures OpenHaveNotLanded(s.flights[k := Flight(|s.births|, Loading)], s.finished)
    ensures forall at, version ::
      UnlandedAreOpen(s.flights[k := Flight(|s.births|, Loading)], s.births + [Birth(k, at, version)], s.finished)
  {
    hide IsLoadOf;
    assert |s.births| in s.finished ==> LandingOk(load, s.source, s.births, s.now, |s.births|, s.finished[|s.births|]);
  }

  lemma FlightLands<Db, D>(load: (string, Db) -> D, s: State<Db, D>, k: string, l: Landing<D>)
    requires OpenFlights(s) && FlightsAreLoads(load, s) && k in s.flights
    ensures OpenHaveNotLanded(s.flights - {k}, s.finished[s.flights[k].id := l])
    ensures UnlandedAreOpen(s.flights - {k}, s.births, s.finished[s.flights[k].id := l])
  {
    hide IsLoadOf;
    FlightOf(load, s, k);
    forall k' | k' in s.flights && k' != k ensures s.flights[k'].id != s.flights[k].id {
      FlightOf(load, s, k');
    }
  }

  lemma StepKeepsBirthTimes<Db, D>(load: (string, Db) -> D, s: State<Db, D>, step: Step<Db>)
    requires s.source != [] && Enabled(s, step) && BirthTimes(s)
    ensures BirthTimes(Next(load, s, step))
  {
  }

  lemma StepKeepsDelTimes<Db, D>(load: (string, Db) -> D, s: State<Db, D>, step: Step<Db>)
    requires s.source != [] && Enabled(s, step) && BirthTimes(s) && DelTimes(s)
    ensures DelTimes(Next(load, s, step))
  {
    match step {
      case Join(_) =>
      case Write(_) =>
      case Del(_) =>
      case _ => OthersKeepTimes(load, s, step);
    }
  }

  lemma OthersKeepTimes<Db, D>(load: (string, Db) -> D, s: State<Db, D>, step: Step<Db>)
    requires s.source != [] && Enabled(s, step) && !step.Join? && !step.Write? && !step.Del?
    ensures
      var t := Next(load, s, step);
      t.births == s.births && t.source == s.source && t.deletedAt == s.deletedAt && t.deletedVersion == s.deletedVersion
  {
  }

  lemma StepKeepsInv<Db, D>(load: (string, Db) -> D, s: State<Db, D>, step: Step<Db>)
    requires Inv(load, s) && Enabled(s, step)
    ensures Inv(load, Next(load, s, step))
  {
    hide EntriesAreLoads, FlightsAreLoads, LandingsAreLoads, CallersAgree, OneFlightPerKey, OpenFlights, BirthTimes, DelTimes;
    StepKeepsEntries(load, s, step);
    StepKeepsFlights(load, s, step);
    StepKeepsLandings(load, s, step);
    StepKeepsCallers(load, s, step);
    StepKeepsFlightOrder(load, s, step);
    StepKeepsOpenFlights(load, s, step);
    StepKeepsBirthTimes(load, s, step);
    StepKeepsDelTimes(load, s, step);
  }

  lemma {:induction false} RunKeepsInv<Db, D>(load: (string, Db) -> D, s: State<Db, D>, run: seq<Step<Db>>)
    requires Inv(load, s) && s.source != [] && IsRun(load, s, run)
    ensures Inv(load, After(load, s, run))
    decreases |run|
  {
    hide Inv, Next, Enabled;
    if run != [] {
      RunKeepsInv(load, s, Init(run));
      StepKeepsInv(load, After(load, s, Init(run)), Last(run));
    }
  }
}
