/** backend/pkg/cache/scoreboard.go as a class. */
module ScoreboardCacheServices {
  import opened Prelude
  import opened ScoreboardKeys
  import opened Scoreboard
  import opened ScoreboardCoherence
  import opened Caches
  import CP = CacheProtocol

  /** Every board in Redis that decodes is what a load would return now. */
  ghost predicate CoherentValues(redis: map<string, Value<Board>>, db: Db) {
    forall id :: Key(id) in redis && redis[Key(id)].Encoded? ==> redis[Key(id)].data == LoadBoard(db, id)
  }

  /** What an invalidation leaves in Redis is coherent again when its keys restore coherence. */
  lemma DroppingRestoresValues(redis: map<string, Value<Board>>, db: Db, db': Db, keys: set<string>)
    requires CoherentValues(redis, db) && Restores(db, db', keys)
    ensures CoherentValues(redis - keys, db')
  {
    RestoresIff(db, db', keys);
  }

  class ScoreboardCacheService {
    const cache: Cache?<Db, Board>
    /** Whether a TeamBracketIDGetter was given. */
    const hasGetter: bool

    constructor (cache: Cache?<Db, Board>, hasGetter: bool)
      ensures this.cache == cache && this.hasGetter == hasGetter
    {
      this.cache, this.hasGetter := cache, hasGetter;
    }

    method InvalidateAll()
      requires cache != null ==> cache.Valid()
      modifies cache
      ensures cache != null ==> cache.Valid() && cache.redis == old(cache.redis) - OVERALL_KEYS
      ensures cache != null ==> cache.state == CP.Next(BoardLoader, old(cache.state), CP.Del(OVERALL_KEYS))
    {
      if cache != null {
        var keys := [KEY_SCOREBOARD, KEY_SCOREBOARD_FROZEN];
        assert (set k | k in keys) == OVERALL_KEYS by {
          assert keys[0] == KEY_SCOREBOARD && keys[1] == KEY_SCOREBOARD_FROZEN;
        }
        cache.Del(BoardLoader, keys);
      }
    }

    /** `lookup` is the getter's answer for the team. The second Del dereferences the cache, so a
        service whose getter can answer with a bracket must have one. */
    method InvalidateForTeam(lookup: Result<Option<string>, string>)
      requires cache != null ==> cache.Valid()
      requires hasGetter && lookup.Ok? && lookup.value.Some? ==> cache != null
      modifies cache
      ensures cache != null ==>
        && cache.Valid()
        && cache.redis == old(cache.redis) - TeamKeys(if hasGetter && lookup.Ok? then lookup.value else None)
      ensures cache != null ==>
        var first := CP.Next(BoardLoader, old(cache.state), CP.Del(OVERALL_KEYS));
        cache.state ==
          if hasGetter && lookup.Ok? && lookup.value.Some?
          then CP.Next(BoardLoader, first, CP.Del(BracketKeys(lookup.value)))
          else first
    {
      InvalidateAll();
      if !hasGetter || lookup.Err? || lookup.value.None? {
        assert cache != null ==> OVERALL_KEYS + {} == OVERALL_KEYS;
        return;
      }
      var id := lookup.value.value;
      var keys := [KeyScoreboardBracket(id), KeyScoreboardBracketFrozen(id)];
      assert (set k | k in keys) == BracketKeys(Some(id)) by {
        assert keys[0] == KeyScoreboardBracket(id) && keys[1] == KeyScoreboardBracketFrozen(id);
      }
      cache.Del(BoardLoader, keys);
      assert old(cache.redis) - OVERALL_KEYS - BracketKeys(Some(id)) == old(cache.redis) - TeamKeys(Some(id));
    }
  }
}
