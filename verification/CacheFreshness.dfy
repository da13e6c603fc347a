/** How stale an answer of GetOrLoad can be, and what callers who meet at a key share. */
module CacheFreshness {
  import opened Prelude
  import opened CacheProtocol
  import opened CacheInvariant

  predicate Answered<D>(c: Caller<D>, key: string, since: nat) {
    c.Returned? && c.key == key && c.returnedAt >= since && HasData(c.answer)
  }

  predicate HasData<D>(a: Answer<D>) {
    a.Hit? || a.result.Data?
  }

  function DataOf<D>(a: Answer<D>): D
    requires HasData(a)
  {
    if a.Hit? then a.data else a.result.data
  }

  function VersionOf<D>(a: Answer<D>): nat
    requires HasData(a)
  {
    if a.Hit? then a.version else a.result.version
  }

  predicate CarriesData<D>(p: Phase<D>) {
    p.Loaded? || p.Ready?
  }

  // ---- agreement at a key -----------------------------------------------------------------------

  /** In every reachable state: no two flights of a key overlap; callers that joined one flight have
      the same answer, data or error; every answer with data is what the loader of the caller's key
      returned from some state of the source; and a flight that answered a caller was open at some
      moment of the call. An error, or a value that does not decode, is never a hit. */
  lemma SingleFlightAgreement<Db, D>(load: (string, Db) -> D, db: Db, run: seq<Step<Db>>, c: nat, d: nat)
    requires IsRun(load, Fresh(db), run)
    requires c in After(load, Fresh(db), run).callers && After(load, Fresh(db), run).callers[c].Returned?
    requires d in After(load, Fresh(db), run).callers && After(load, Fresh(db), run).callers[d].Returned?
    ensures
      var s := After(load, Fresh(db), run);
      var x, y := s.callers[c], s.callers[d];
      && (forall i, j :: 0 <= i < j < |s.births| && s.births[i].key == s.births[j].key ==>
            i in s.finished && s.finished[i].at < s.births[j].at)
      && (x.answer.FromFlight? && y.answer.FromFlight? && x.answer.flight == y.answer.flight ==> x.answer == y.answer)
      && (HasData(x.answer) ==>
            VersionOf(x.answer) < |s.source| && DataOf(x.answer) == load(x.key, s.source[VersionOf(x.answer)]))
      && (x.answer.FromFlight? ==>
            && x.answer.flight < |s.births| && s.births[x.answer.flight].key == x.key
            && x.answer.flight in s.finished
            && s.births[x.answer.flight].at < x.returnedAt && x.startedAt < s.finished[x.answer.flight].at
            && (x.answer.result.Data? ==> s.births[x.answer.flight].version <= x.answer.result.version))
  {
    hide Inv, IsRun, After, HasData, DataOf, VersionOf;
    var s := After(load, Fresh(db), run);
    ReachableHolds(load, db, run);
    FlightsDoNotOverlap(load, s);
    AnswerIsALoad(load, s, c);
    AnswerIsALoad(load, s, d);
  }

  lemma ReachableHolds<Db, D>(load: (string, Db) -> D, db: Db, run: seq<Step<Db>>)
    requires IsRun(load, Fresh(db), run)
    ensures Inv(load, After(load, Fresh(db), run))
  {
    FreshHolds<Db, D>(load, db);
    RunKeepsInv(load, Fresh(db), run);
  }

  lemma FlightsDoNotOverlap<Db, D>(load: (string, Db) -> D, s: State<Db, D>)
    requires Inv(load, s)
    ensures forall i, j :: 0 <= i < j < |s.births| && s.births[i].key == s.births[j].key ==>
      i in s.finished && s.finished[i].at < s.births[j].at
  {
  }

  lemma AnswerIsALoad<Db, D>(load: (string, Db) -> D, s: State<Db, D>, c: nat)
    requires Inv(load, s) && c in s.callers && s.callers[c].Returned?
    ensures
      var x := s.callers[c];
      && (HasData(x.answer) ==>
            VersionOf(x.answer) < |s.source| && DataOf(x.answer) == load(x.key, s.source[VersionOf(x.answer)]))
      && (x.answer.FromFlight? ==>
            && x.answer.flight < |s.births| && s.births[x.answer.flight].key == x.key
            && x.answer.flight in s.finished && s.finished[x.answer.flight].result == x.answer.result
            && s.births[x.answer.flight].at < x.returnedAt && x.startedAt < s.finished[x.answer.flight].at
            && (x.answer.result.Data? ==> s.births[x.answer.flight].version <= x.answer.result.version))
  {
    hide EntriesAreLoads, FlightsAreLoads, OneFlightPerKey, OpenFlights, BirthTimes, DelTimes;
    assert CallerAgrees(load, s, s.callers[c]);
    if s.callers[c].answer.FromFlight? {
      var f := s.callers[c].answer.flight;
      assert LandingOk(load, s.source, s.births, s.now, f, s.finished[f]);
    }
  }

  // ---- the recorded moments ---------------------------------------------------------------------

  /** The position of the last Del of the key. */
  function LastDel<Db>(run: seq<Step<Db>>, k: string): Option<nat> {
    if run == [] then None
    else if Last(run).Del? && k in Last(run).keys then Some(|run| - 1)
    else LastDel(Init(run), k)
  }

  function Writes<Db>(run: seq<Step<Db>>): nat {
    if run == [] then 0 else Writes(Init(run)) + (if Last(run).Write? then 1 else 0)
  }

  lemma StepStamps<Db, D>(load: (string, Db) -> D, s: State<Db, D>, step: Step<Db>, k: string)
    requires s.source != [] && Enabled(s, step) && s.deletedAt.Keys == s.deletedVersion.Keys
    ensures
      var t := Next(load, s, step);
      && t.now == s.now + 1 && Version(t) == Version(s) + (if step.Write? then 1 else 0)
      && t.deletedAt.Keys == t.deletedVersion.Keys
      && (if step.Del? && k in step.keys then
            k in t.deletedAt && t.deletedAt[k] == s.now && t.deletedVersion[k] == Version(s)
          else
            && (k in t.deletedAt <==> k in s.deletedAt)
            && (k in t.deletedAt ==> t.deletedAt[k] == s.deletedAt[k] && t.deletedVersion[k] == s.deletedVersion[k]))
  {
    match step {
      case Del(_) =>
      case _ =>
    }
  }

  /** The moments and versions recorded for the Dels are those of the run: the position of the last Del of a key,
      and how many writes came before it. */
  lemma {:induction false} DelsAreStamped<Db, D>(load: (string, Db) -> D, db: Db, run: seq<Step<Db>>, k: string)
    requires IsRun(load, Fresh(db), run)
    ensures
      var s := After(load, Fresh(db), run);
      && s.now == |run| && Version(s) == Writes(run) && s.deletedAt.Keys == s.deletedVersion.Keys
      && (k in s.deletedAt <==> LastDel(run, k).Some?)
      && (k in s.deletedAt ==>
            && LastDel(run, k) == Some(s.deletedAt[k]) && s.deletedAt[k] < |run|
            && s.deletedVersion[k] == Writes(run[..s.deletedAt[k]]))
    decreases |run|
  {
    hide Next, Enabled;
    if run != [] {
      DelsAreStamped(load, db, Init(run), k);
      StepStamps(load, After(load, Fresh(db), Init(run)), Last(run), k);
      if LastDel(Init(run), k).Some? {
        assert Init(run)[..LastDel(Init(run), k).value] == run[..LastDel(Init(run), k).value];
      }
      assert Init(run) == run[..|run| - 1];
    }
  }

  /** An entry may expire, or come to hold what does not decode, at any moment; a call that has started then
      misses, whether Redis can be reached or not. */
  lemma ForgottenIsMissed<Db, D>(load: (string, Db) -> D, s: State<Db, D>, c: nat, k: string, expires: bool, reachable: bool)
    requires s.source != [] && c in s.callers && s.callers[c].Started? && s.callers[c].key == k
    ensures
      var forget: Step<Db> := if expires then Expire(k) else Corrupt(k);
      && Enabled(s, forget) && Enabled(Next(load, s, forget), Read(c, reachable))
      && var t := Next(load, Next(load, s, forget), Read(c, reachable));
      && t.callers == s.callers[c := Missed(k, s.callers[c].startedAt)]
      && (forall x :: x != k ==> (x in t.redis <==> x in s.redis) && (x in s.redis ==> t.redis[x] == s.redis[x]))
  {
  }

  // ---- staleness --------------------------------------------------------------------------------

  /** An entry older than the source was at the last Del of its key was stored by a flight that had
      begun before that Del. */
  lemma StaleEntriesComeFromEarlierFlights<Db, D>(load: (string, Db) -> D, db: Db, run: seq<Step<Db>>, k: string)
    requires IsRun(load, Fresh(db), run)
    ensures
      var s := After(load, Fresh(db), run);
      k in s.redis && s.redis[k].Json? && k in s.deletedAt && k in s.deletedVersion
        && s.redis[k].version < s.deletedVersion[k] ==>
        s.redis[k].flight < |s.births| && s.births[s.redis[k].flight].at < s.deletedAt[k]
  {
    ReachableHolds(load, db, run);
    var s := After(load, Fresh(db), run);
    if k in s.redis && s.redis[k].Json? && k in s.deletedAt {
      assert EntryOk(load, s.source, s.births, k, s.redis[k]);
      assert DelOk(s.deletedAt[k], s.deletedVersion[k], s.births[s.redis[k].flight]);
    }
  }

  /** Nothing that can still answer for `k` is older than version `v`, nor is any answer since. */
  ghost predicate FreshSince<Db, D>(s: State<Db, D>, k: string, v: int, since: nat) {
    && v <= Version(s)
    && (k in s.redis && s.redis[k].Json? ==> v <= s.redis[k].version)
    && NoOlderFlight(s, k, v)
    && AnswersSince(s, k, v, since)
  }

  ghost predicate NoOlderFlight<Db, D>(s: State<Db, D>, k: string, v: int) {
    k in s.flights && CarriesData(s.flights[k].phase) ==> v <= s.flights[k].phase.version
  }

  ghost predicate AnswersSince<Db, D>(s: State<Db, D>, k: string, v: int, since: nat) {
    forall c :: c in s.callers && Answered(s.callers[c], k, since) ==> v <= VersionOf(s.callers[c].answer)
  }

  lemma StepKeepsFresh<Db, D>(load: (string, Db) -> D, s: State<Db, D>, step: Step<Db>, k: string, v: int, since: nat)
    requires Inv(load, s) && s.source != [] && Enabled(s, step) && FreshSince(s, k, v, since)
    ensures FreshSince(Next(load, s, step), k, v, since)
  {
    hide Inv;
    StepKeepsFreshValues(load, s, step, k, v);
    hide Next, Enabled;
    forall c | c in Next(load, s, step).callers && Answered(Next(load, s, step).callers[c], k, since)
      ensures v <= VersionOf(Next(load, s, step).callers[c].answer)
    {
      StepAnswersFresh(load, s, step, k, v, since, c);
    }
  }

  lemma StepKeepsFreshValues<Db, D>(load: (string, Db) -> D, s: State<Db, D>, step: Step<Db>, k: string, v: int)
    requires s.source != [] && Enabled(s, step) && v <= Version(s) && NoOlderFlight(s, k, v)
    requires k in s.redis && s.redis[k].Json? ==> v <= s.redis[k].version
    ensures
      var t := Next(load, s, step);
      v <= Version(t) && NoOlderFlight(t, k, v) && (k in t.redis && t.redis[k].Json? ==> v <= t.redis[k].version)
  {
    StepGrows(load, s, step);
    FlightsStayFresh(load, s, step, k, v);
    EntryAfter(load, s, step, k);
    hide Next, Enabled;
  }

  lemma FlightsStayFresh<Db, D>(load: (string, Db) -> D, s: State<Db, D>, step: Step<Db>, k: string, v: int)
    requires s.source != [] && Enabled(s, step) && v <= Version(s) && NoOlderFlight(s, k, v)
    ensures NoOlderFlight(Next(load, s, step), k, v)
  {
    FlightAfter(load, s, step, k);
    hide Next, Enabled;
  }

  lemma StepAnswersFresh<Db, D>(load: (string, Db) -> D, s: State<Db, D>, step: Step<Db>, k: string, v: int, since: nat, c: nat)
    requires Inv(load, s) && s.source != [] && Enabled(s, step) && FreshSince(s, k, v, since)
    requires c in Next(load, s, step).callers && Answered(Next(load, s, step).callers[c], k, since)
    ensures v <= VersionOf(Next(load, s, step).callers[c].answer)
  {
    hide Inv;
    if step.Finish? {
      if Next(load, s, step).callers[c] != s.callers[c] {
        WaitsForItsKey(load, s, step.key, c);
      }
    } else if step.Read? {
    } else {
      AnswersOnlyByReadOrFinish(load, s, step, c);
    }
  }

  lemma AnswersOnlyByReadOrFinish<Db, D>(load: (string, Db) -> D, s: State<Db, D>, step: Step<Db>, c: nat)
    requires s.source != [] && Enabled(s, step) && !step.Finish? && !step.Read?
    requires c in Next(load, s, step).callers && Next(load, s, step).callers[c].Returned?
    ensures c in s.callers && Next(load, s, step).callers[c] == s.callers[c]
  {
  }

  lemma WaitsForItsKey<Db, D>(load: (string, Db) -> D, s: State<Db, D>, k: string, c: nat)
    requires Inv(load, s) && k in s.flights && c in s.callers
    requires s.callers[c].Waiting? && s.callers[c].flight == s.flights[k].id
    ensures s.callers[c].key == k
  {
    assert CallerAgrees(load, s, s.callers[c]);
    FlightOf(load, s, k);
    FlightOf(load, s, s.callers[c].key);
  }

  lemma {:induction false} RunKeepsFresh<Db, D>(load: (string, Db) -> D, s: State<Db, D>, run: seq<Step<Db>>, k: string, v: int, since: nat)
    requires Inv(load, s) && s.source != [] && IsRun(load, s, run) && FreshSince(s, k, v, since)
    ensures FreshSince(After(load, s, run), k, v, since)
    decreases |run|
  {
    hide Inv, Next, Enabled, FreshSince;
    if run != [] {
      RunKeepsFresh(load, s, Init(run), k, v, since);
      RunKeepsInv(load, s, Init(run));
      StepKeepsFresh(load, After(load, s, Init(run)), Last(run), k, v, since);
    }
  }

  /** From `s` on, every answer for `k` is at least as new as the source is in `s`. */
  ghost predicate OnlyFreshAnswersFrom<Db(!new), D>(load: (string, Db) -> D, s: State<Db, D>, k: string)
    requires s.source != []
  {
    forall run :: IsRun(load, s, run) ==> AnswersSince(After(load, s, run), k, Version(s), s.now)
  }

  lemma FreshAfterDel<Db, D>(load: (string, Db) -> D, s: State<Db, D>, run: seq<Step<Db>>, k: string)
    requires Inv(load, s) && s.source != [] && IsRun(load, s, run)
    requires k !in s.redis && NoOlderFlight(s, k, Version(s))
    ensures AnswersSince(After(load, s, run), k, Version(s), s.now)
  {
    forall c | c in s.callers ensures !Answered(s.callers[c], k, s.now) {
      assert CallerAgrees(load, s, s.callers[c]);
    }
    RunKeepsFresh(load, s, run, k, Version(s), s.now);
  }

  /** Exactly when a Del of `k` ends staleness. `s` is the state right after the Del: every answer
      for `k` from then on is at least as new as the source at the Del if and only if the flight open
      on `k`, if there is one, has not already read an older version. */
  lemma DelEndsStalenessIff<Db(!new), D>(load: (string, Db) -> D, s: State<Db, D>, k: string)
    requires Inv(load, s) && s.source != [] && k !in s.redis
    ensures OnlyFreshAnswersFrom(load, s, k) <==> NoOlderFlight(s, k, Version(s))
  {
    if NoOlderFlight(s, k, Version(s)) {
      forall run | IsRun(load, s, run) ensures AnswersSince(After(load, s, run), k, Version(s), s.now) {
        FreshAfterDel(load, s, run, k);
      }
    } else {
      var run, c := StaleRun(load, s, k);
      assert Answered(After(load, s, run).callers[c], k, s.now);
    }
  }

  // ---- currency ---------------------------------------------------------------------------------

  /** The loader of `k` now returns `x`, and nothing that can still answer for `k` holds another value. */
  ghost predicate CurrentAt<Db, D>(load: (string, Db) -> D, s: State<Db, D>, k: string, x: D) {
    && s.source != [] && load(k, s.source[Version(s)]) == x
    && (k in s.redis && s.redis[k].Json? ==> s.redis[k].data == x)
    && (k in s.flights && CarriesData(s.flights[k].phase) ==> s.flights[k].phase.data == x)
  }

  ghost predicate AnswersAre<Db, D>(s: State<Db, D>, k: string, x: D, since: nat) {
    forall c :: c in s.callers && Answered(s.callers[c], k, since) ==> DataOf(s.callers[c].answer) == x
  }

  /** No write of the run changes what the loader of `k` returns. */
  ghost predicate WritesKeep<Db, D>(load: (string, Db) -> D, run: seq<Step<Db>>, k: string, x: D) {
    forall i :: 0 <= i < |run| && run[i].Write? ==> load(k, run[i].db) == x
  }

  lemma StepKeepsCurrent<Db, D>(load: (string, Db) -> D, s: State<Db, D>, step: Step<Db>, k: string, x: D)
    requires s.source != [] && Enabled(s, step) && CurrentAt(load, s, k, x)
    requires step.Write? ==> load(k, step.db) == x
    ensures CurrentAt(load, Next(load, s, step), k, x)
  {
    EntryAfter(load, s, step, k);
    FlightAfter(load, s, step, k);
    OnlyWritesWrite(load, s, step);
    hide Next, Enabled;
  }

  lemma StepAnswersCurrent<Db, D>(load: (string, Db) -> D, s: State<Db, D>, step: Step<Db>, k: string, x: D, since: nat, c: nat)
    requires Inv(load, s) && s.source != [] && Enabled(s, step) && CurrentAt(load, s, k, x) && AnswersAre(s, k, x, since)
    requires c in Next(load, s, step).callers && Answered(Next(load, s, step).callers[c], k, since)
    ensures DataOf(Next(load, s, step).callers[c].answer) == x
  {
    hide Inv;
    if step.Finish? {
      if Next(load, s, step).callers[c] != s.callers[c] {
        WaitsForItsKey(load, s, step.key, c);
      }
    } else if step.Read? {
    } else {
      AnswersOnlyByReadOrFinish(load, s, step, c);
    }
  }

  lemma {:induction false} RunKeepsCurrent<Db, D>(load: (string, Db) -> D, s: State<Db, D>, run: seq<Step<Db>>, k: string, x: D, since: nat)
    requires Inv(load, s) && s.source != [] && CurrentAt(load, s, k, x) && AnswersAre(s, k, x, since)
    requires IsRun(load, s, run) && WritesKeep(load, run, k, x)
    ensures CurrentAt(load, After(load, s, run), k, x) && AnswersAre(After(load, s, run), k, x, since)
    decreases |run|
  {
    hide Inv, Next, Enabled, CurrentAt;
    if run != [] {
      assert WritesKeep(load, Init(run), k, x);
      RunKeepsCurrent(load, s, Init(run), k, x, since);
      RunKeepsInv(load, s, Init(run));
      var t := After(load, s, Init(run));
      StepKeepsCurrent(load, t, Last(run), k, x);
      forall c | c in Next(load, t, Last(run)).callers && Answered(Next(load, t, Last(run)).callers[c], k, since)
        ensures DataOf(Next(load, t, Last(run)).callers[c].answer) == x
      {
        StepAnswersCurrent(load, t, Last(run), k, x, since, c);
      }
    }
  }

  /** After a Del of `k` at which no open flight on `k` carries another value, every answer for `k` is
      what its loader returns, for as long as no write changes that; and the cache holds nothing else. */
  lemma CurrentAfterDel<Db, D>(load: (string, Db) -> D, s: State<Db, D>, keys: set<string>, run: seq<Step<Db>>, k: string, x: D)
    requires Inv(load, s) && s.source != [] && load(k, s.source[Version(s)]) == x
    requires k in keys
    requires k in s.flights && CarriesData(s.flights[k].phase) ==> s.flights[k].phase.data == x
    requires IsRun(load, Next(load, s, Del(keys)), run) && WritesKeep(load, run, k, x)
    ensures CurrentAt(load, After(load, Next(load, s, Del(keys)), run), k, x)
    ensures AnswersAre(After(load, Next(load, s, Del(keys)), run), k, x, s.now + 1)
  {
    hide Inv, Next;
    AfterDel(load, s, keys);
    StepKeepsInv(load, s, Del(keys));
    NoAnswersYet(load, Next(load, s, Del(keys)), k, x);
    RunKeepsCurrent(load, Next(load, s, Del(keys)), run, k, x, s.now + 1);
  }

  lemma {:induction false} NoWriteNoVersion<Db, D>(load: (string, Db) -> D, s: State<Db, D>, run: seq<Step<Db>>)
    requires s.source != [] && IsRun(load, s, run) && forall i :: 0 <= i < |run| ==> !run[i].Write?
    ensures After(load, s, run).source == s.source
    decreases |run|
  {
    hide Enabled, Next;
    if run != [] {
      assert forall i :: 0 <= i < |Init(run)| ==> !Init(run)[i].Write?;
      NoWriteNoVersion(load, s, Init(run));
      OnlyWritesWrite(load, After(load, s, Init(run)), Last(run));
    }
  }

  lemma OnlyWritesWrite<Db, D>(load: (string, Db) -> D, s: State<Db, D>, step: Step<Db>)
    requires s.source != [] && Enabled(s, step)
    ensures Next(load, s, step).source == if step.Write? then s.source + [step.db] else s.source
  {
    EffectKeepsSource(load, s, step);
    hide Effect, Enabled;
  }

  lemma NoAnswersYet<Db, D>(load: (string, Db) -> D, s: State<Db, D>, k: string, x: D)
    requires Inv(load, s)
    ensures AnswersAre(s, k, x, s.now)
  {
    forall c | c in s.callers ensures !Answered(s.callers[c], k, s.now) {
      assert CallerAgrees(load, s, s.callers[c]);
    }
  }

  lemma AfterDel<Db, D>(load: (string, Db) -> D, s: State<Db, D>, keys: set<string>)
    requires s.source != []
    ensures
      var d := Next(load, s, Del(keys));
      && d.source == s.source && d.flights == s.flights && d.now == s.now + 1
      && (forall k :: k in keys ==> k !in d.redis)
  {
  }

  // ---- the run that stays stale -----------------------------------------------------------------

  /** A new caller misses, joins the flight that has already read an older version, and gets it. */
  lemma StaleRun<Db, D>(load: (string, Db) -> D, s: State<Db, D>, k: string) returns (run: seq<Step<Db>>, c: nat)
    requires Inv(load, s) && s.source != [] && k !in s.redis && !NoOlderFlight(s, k, Version(s))
    ensures IsRun(load, s, run) && c in After(load, s, run).callers
    ensures Answered(After(load, s, run).callers[c], k, s.now) && After(load, s, run).callers[c].startedAt >= s.now
    ensures VersionOf(After(load, s, run).callers[c].answer) < Version(s)
  {
    hide Next, Enabled, IsRun, After, Inv;
    c := BoundOf(s.callers.Keys);
    var waiting := JoinOpenFlight(load, s, k, c);
    var t := After(load, s, waiting);
    if t.flights[k].phase.Ready? {
      FinishAnswers(load, t, k, c);
      RunExtends(load, s, waiting, Finish(k));
      run := waiting + [Finish(k)];
    } else {
      SkipStoreReadies(load, t, k);
      RunExtends(load, s, waiting, SkipStore(k));
      var u := Next(load, t, SkipStore(k));
      FinishAnswers(load, u, k, c);
      RunExtends(load, s, waiting + [SkipStore(k)], Finish(k));
      run := waiting + [SkipStore(k)] + [Finish(k)];
    }
  }

  lemma JoinOpenFlight<Db, D>(load: (string, Db) -> D, s: State<Db, D>, k: string, c: nat) returns (run: seq<Step<Db>>)
    requires s.source != [] && k in s.flights && k !in s.redis && c !in s.callers
    ensures IsRun(load, s, run) && c in After(load, s, run).callers && s.now <= After(load, s, run).now
    ensures After(load, s, run).flights == s.flights
    ensures After(load, s, run).callers[c] == Waiting(k, s.now, s.flights[k].id)
  {
    hide Next, Enabled, IsRun, After;
    MissAndJoin(load, s, k, c);
    var called := Next(load, s, Call(c, k));
    var missed := Next(load, called, Read(c, true));
    SingleStepRun(load, s, Call(c, k));
    RunExtends(load, s, [Call(c, k)], Read(c, true));
    RunExtends(load, s, [Call(c, k)] + [Read(c, true)], Join(c));
    run := [Call(c, k)] + [Read(c, true)] + [Join(c)];
  }

  lemma MissAndJoin<Db, D>(load: (string, Db) -> D, s: State<Db, D>, k: string, c: nat)
    requires s.source != [] && k in s.flights && k !in s.redis && c !in s.callers
    ensures Enabled(s, Call(c, k)) && Enabled(Next(load, s, Call(c, k)), Read(c, true))
    ensures
      var missed := Next(load, Next(load, s, Call(c, k)), Read(c, true));
      && Enabled(missed, Join(c))
      && var t := Next(load, missed, Join(c));
      && c in t.callers && s.now <= t.now && t.flights == s.flights
      && t.callers[c] == Waiting(k, s.now, s.flights[k].id)
  {
  }

  lemma SkipStoreReadies<Db, D>(load: (string, Db) -> D, s: State<Db, D>, k: string)
    requires s.source != [] && k in s.flights && s.flights[k].phase.Loaded?
    ensures Enabled(s, SkipStore(k))
    ensures
      var t := Next(load, s, SkipStore(k));
      && t.callers == s.callers && k in t.flights && t.flights[k].id == s.flights[k].id && s.now <= t.now
      && t.flights[k].phase == Ready(s.flights[k].phase.data, s.flights[k].phase.version)
  {
  }

  lemma FinishAnswers<Db, D>(load: (string, Db) -> D, s: State<Db, D>, k: string, c: nat)
    requires s.source != [] && k in s.flights && s.flights[k].phase.Ready?
    requires c in s.callers && s.callers[c].Waiting? && s.callers[c].key == k && s.callers[c].flight == s.flights[k].id
    ensures Enabled(s, Finish(k)) && c in Next(load, s, Finish(k)).callers
    ensures Next(load, s, Finish(k)).callers[c] ==
      Returned(k, s.callers[c].startedAt, s.now,
               FromFlight(s.flights[k].id, Data(s.flights[k].phase.data, s.flights[k].phase.version)))
  {
  }

  /** A call misses and its flight loads, the source is written, and the key is deleted. */
  function StaleStart<Db>(db': Db, k: string): (run: seq<Step<Db>>)
    ensures |run| == 6 && run[5] == Del({k})
  {
    [Call(0, k), Read(0, true), Join(0), Load(k), Write(db'), Del({k})]
  }

  lemma FlightLoads<Db, D>(load: (string, Db) -> D, db: Db, k: string)
    ensures
      var run: seq<Step<Db>> := [Call(0, k)] + [Read(0, true)] + [Join(0)] + [Load(k)];
      && IsRun(load, Fresh(db), run)
      && var s := After(load, Fresh(db), run);
      && s.redis == map[] && s.flights == map[k := Flight(0, Loaded(load(k, db), 0))] && s.source == [db] && s.now == 4
  {
    hide Next, Enabled, IsRun, After;
    var s := Fresh(db);
    FirstSteps(load, db, k);
    SingleStepRun(load, s, Call(0, k));
    RunExtends(load, s, [Call(0, k)], Read(0, true));
    RunExtends(load, s, [Call(0, k)] + [Read(0, true)], Join(0));
    RunExtends(load, s, [Call(0, k)] + [Read(0, true)] + [Join(0)], Load(k));
  }

  lemma FirstSteps<Db, D>(load: (string, Db) -> D, db: Db, k: string)
    ensures
      var s: State<Db, D> := Fresh(db);
      && Enabled(s, Call(0, k)) && Enabled(Next(load, s, Call(0, k)), Read(0, true))
      && var missed := Next(load, Next(load, s, Call(0, k)), Read(0, true));
      && Enabled(missed, Join(0)) && Enabled(Next(load, missed, Join(0)), Load(k))
      && var t := Next(load, Next(load, missed, Join(0)), Load(k));
      && t.redis == map[] && t.flights == map[k := Flight(0, Loaded(load(k, db), 0))] && t.source == [db] && t.now == 4
  {
  }

  lemma WriteAndDel<Db, D>(load: (string, Db) -> D, db: Db, db': Db, k: string)
    ensures
      && IsRun(load, Fresh(db), StaleStart(db', k))
      && var s := After(load, Fresh(db), StaleStart(db', k));
      && k !in s.redis && !NoOlderFlight(s, k, Version(s)) && Version(s) == 1 && s.now == 6
  {
    hide IsRun, After, NoOlderFlight, Next, Enabled;
    var s := Fresh(db);
    var run: seq<Step<Db>> := [Call(0, k)] + [Read(0, true)] + [Join(0)] + [Load(k)];
    FlightLoads(load, db, k);
    var loaded := After(load, s, run);
    WriteThenDel(load, loaded, db', k);
    RunExtends(load, s, run, Write(db'));
    RunExtends(load, s, run + [Write(db')], Del({k}));
    assert run + [Write(db')] + [Del({k})] == StaleStart(db', k);
  }

  lemma WriteThenDel<Db, D>(load: (string, Db) -> D, s: State<Db, D>, db': Db, k: string)
    requires |s.source| == 1 && k in s.flights && s.flights[k].phase.Loaded? && s.flights[k].phase.version == 0
    ensures Enabled(s, Write(db')) && Enabled(Next(load, s, Write(db')), Del({k}))
    ensures
      var t := Next(load, Next(load, s, Write(db')), Del({k}));
      k !in t.redis && !NoOlderFlight(t, k, Version(t)) && Version(t) == 1 && t.now == s.now + 2
  {
  }

  /** And such a state is reached: after that, a call that starts later is answered with the old value. */
  lemma StaleIsReached<Db, D>(load: (string, Db) -> D, db: Db, db': Db, k: string) returns (run: seq<Step<Db>>, c: nat)
    ensures IsRun(load, Fresh(db), run) && StaleStart(db', k) <= run
    ensures
      var s := After(load, Fresh(db), run);
      && c in s.callers && s.callers[c].startedAt >= 6 && Answered(s.callers[c], k, 6)
      && VersionOf(s.callers[c].answer) == 0
  {
    FreshHolds<Db, D>(load, db);
    WriteAndDel(load, db, db', k);
    RunKeepsInv(load, Fresh(db), StaleStart(db', k));
    var rest;
    hide Inv, IsRun, After, NoOlderFlight;
    rest, c := StaleRun(load, After(load, Fresh(db), StaleStart(db', k)), k);
    RunsCompose(load, Fresh(db), StaleStart(db', k), rest);
    run := StaleStart(db', k) + rest;
  }
}
