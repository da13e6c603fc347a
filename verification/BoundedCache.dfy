/** backend/pkg/cache/bounded.go: a FIFO cache kept as a slice of entries and a map from keys to
    positions. What it holds is given independently as a function of the history of Set calls. */
module BoundedCaches {
  import opened Prelude

  const DEFAULT_BOUNDED_CACHE_SIZE: nat := 100

  datatype Entry<K, V> = Entry(key: K, value: V)

  // ---- the specification: a function of the calls made -------------------------------------------

  /** The last `n` elements, or all of them when there are fewer. */
  function LastOf<T>(s: seq<T>, n: nat): seq<T> {
    if |s| <= n then s else s[|s| - n..]
  }

  ghost predicate HasKey<K, V>(entries: seq<Entry<K, V>>, key: K) {
    exists i :: 0 <= i < |entries| && entries[i].key == key
  }

  /** The calls of Set that stored something: those whose key was not among the last `size` accepted
      before them. */
  ghost function AcceptedSets<K, V>(calls: seq<Entry<K, V>>, size: nat): seq<Entry<K, V>> {
    if calls == [] then []
    else
      var before := AcceptedSets(calls[..|calls| - 1], size);
      var call := calls[|calls| - 1];
      if HasKey(LastOf(before, size), call.key) then before else before + [call]
  }

  ghost function Contents<K, V>(calls: seq<Entry<K, V>>, size: nat): seq<Entry<K, V>> {
    LastOf(AcceptedSets(calls, size), size)
  }

  ghost predicate DistinctKeys<K, V>(entries: seq<Entry<K, V>>) {
    forall i, j :: 0 <= i < j < |entries| ==> entries[i].key != entries[j].key
  }

  /** `index` sends each key to its position in `entries`, and knows no other key. */
  ghost predicate Inverse<K, V>(index: map<K, int>, entries: seq<Entry<K, V>>) {
    && (forall k :: k in index ==> 0 <= index[k] < |entries| && entries[index[k]].key == k)
    && (forall i :: 0 <= i < |entries| ==> entries[i].key in index && index[entries[i].key] == i)
  }

  lemma InverseKeys<K, V>(index: map<K, int>, entries: seq<Entry<K, V>>, key: K)
    requires Inverse(index, entries)
    ensures key in index <==> HasKey(entries, key)
  {
    if key in index {
      assert entries[index[key]].key == key;
    }
  }

  lemma AppendStaysInverse<K, V>(index: map<K, int>, entries: seq<Entry<K, V>>, entry: Entry<K, V>)
    requires Inverse(index, entries) && entry.key !in index
    ensures Inverse(index[entry.key := |entries|], entries + [entry])
  {
  }

  lemma DroppedHeadStaysInverse<K, V>(index: map<K, int>, entries: seq<Entry<K, V>>, shifted: map<K, int>)
    requires Inverse(index, entries) && entries != []
    requires shifted.Keys == index.Keys - {entries[0].key}
    requires forall k :: k in shifted ==> shifted[k] == index[k] - 1
    ensures Inverse(shifted, entries[1..])
  {
    forall i | 0 <= i < |entries| - 1
      ensures entries[1..][i].key in shifted && shifted[entries[1..][i].key] == i
    {
      assert entries[1..][i] == entries[i + 1];
      assert index[entries[i + 1].key] == i + 1 && index[entries[0].key] == 0;
    }
    forall k | k in shifted
      ensures 0 <= shifted[k] < |entries| - 1 && entries[1..][shifted[k]].key == k
    {
      assert index[k] != 0;
    }
  }

  lemma WindowSlides<T>(s: seq<T>, x: T, n: nat)
    requires n > 0
    ensures LastOf(s + [x], n) == (if |LastOf(s, n)| >= n then LastOf(s, n)[1..] else LastOf(s, n)) + [x]
    ensures LastOf(LastOf(s, n) + [x], n) == LastOf(s + [x], n)
  {
  }

  /** A Set of a key that is in the cache is refused, and the key stays with the value it came with. */
  lemma AnotherSet<K, V>(calls: seq<Entry<K, V>>, call: Entry<K, V>, size: nat)
    ensures HasKey(Contents(calls, size), call.key) ==> Contents(calls + [call], size) == Contents(calls, size)
    ensures !HasKey(Contents(calls, size), call.key) ==>
      AcceptedSets(calls + [call], size) == AcceptedSets(calls, size) + [call]
  {
    assert (calls + [call])[..|calls|] == calls;
  }

  // ---- the class ----------------------------------------------------------------------------------

  class BoundedCache<K(==), V> {
    var entries: seq<Entry<K, V>>
    var index: map<K, int>
    var maxSize: int
    ghost var calls: seq<Entry<K, V>>

    ghost predicate Valid()
      reads this
    {
      maxSize > 0 && entries == Contents(calls, maxSize) && Inverse(index, entries)
    }

    constructor (maxSize: int)
      ensures Valid() && calls == []
      ensures this.maxSize == if maxSize <= 0 then DEFAULT_BOUNDED_CACHE_SIZE else maxSize
    {
      this.maxSize := if maxSize <= 0 then DEFAULT_BOUNDED_CACHE_SIZE else maxSize;
      entries, index, calls := [], map[], [];
    }

    /** Hits exactly when the key's latest accepted Set is among the last maxSize accepted ones, and
        returns what that Set stored. */
    method Get(key: K) returns (r: Option<V>)
      requires Valid()
      ensures r.Some? <==> HasKey(Contents(calls, maxSize), key)
      ensures forall i :: 0 <= i < |Contents(calls, maxSize)| && Contents(calls, maxSize)[i].key == key
                ==> r == Some(Contents(calls, maxSize)[i].value)
    {
      if key in index {
        assert entries[index[key]].key == key;
        return Some(entries[index[key]].value);
      }
      return None;
    }

    method Set(key: K, value: V)
      requires Valid()
      modifies this
      ensures Valid() && maxSize == old(maxSize) && calls == old(calls) + [Entry(key, value)]
      ensures entries == if HasKey(old(entries), key) then old(entries)
                         else LastOf(old(entries) + [Entry(key, value)], maxSize)
    {
      AnotherSet(calls, Entry(key, value), maxSize);
      WindowSlides(AcceptedSets(calls, maxSize), Entry(key, value), maxSize);
      calls := calls + [Entry(key, value)];
      InverseKeys(index, entries, key);
      if key in index {
        return;
      }
      if |entries| >= maxSize {
        EvictOldest();
      }
      AppendStaysInverse(index, entries, Entry(key, value));
      index := index[key := |entries|];
      entries := entries + [Entry(key, value)];
    }

    /** Drops the head and moves every other position down by one, whatever order the map yields. */
    method EvictOldest()
      requires entries != [] && Inverse(index, entries)
      modifies this`entries, this`index
      ensures entries == old(entries)[1..] && Inverse(index, entries)
      ensures index.Keys == old(index).Keys - {old(entries)[0].key}
    {
      hide Inverse;
      var oldest := entries[0];
      index := index - {oldest.key};
      entries := entries[1..];
      ghost var was := index;
      var rest := index.Keys;
      while rest != {}
        invariant entries == old(entries)[1..]
        invariant rest <= index.Keys == was.Keys
        invariant forall k :: k in index ==> index[k] == if k in rest then was[k] else was[k] - 1
        decreases |rest|
      {
        var k :| k in rest;
        index := index[k := index[k] - 1];
        rest := rest - {k};
      }
      DroppedHeadStaysInverse(old(index), old(entries), index);
    }

    method Len() returns (n: nat)
      requires Valid()
      ensures n == |Contents(calls, maxSize)| && n <= maxSize
    {
      n := |entries|;
    }
  }

  // ---- what the specification means ------------------------------------------------------------

  lemma {:induction false} AcceptedExtend<K, V>(calls: seq<Entry<K, V>>, more: seq<Entry<K, V>>, size: nat)
    ensures AcceptedSets(calls, size) <= AcceptedSets(calls + more, size)
    decreases |more|
  {
    if more == [] {
      assert calls + more == calls;
    } else {
      AcceptedExtend(calls, more[..|more| - 1], size);
      assert (calls + more)[..|calls + more| - 1] == calls + more[..|more| - 1];
    }
  }

  /** A key is accepted again only after `size` other accepted sets: any window of `size + 1`
      consecutive accepted sets has distinct keys. */
  lemma {:induction false} WindowsAreDistinct<K, V>(calls: seq<Entry<K, V>>, size: nat, i: nat, j: nat)
    requires i < j < |AcceptedSets(calls, size)| && j - i <= size
    ensures AcceptedSets(calls, size)[i].key != AcceptedSets(calls, size)[j].key
    decreases |calls|
  {
    var before := AcceptedSets(calls[..|calls| - 1], size);
    if j < |before| {
      WindowsAreDistinct(calls[..|calls| - 1], size, i, j);
    } else {
      var window := LastOf(before, size);
      assert before[i] == window[i - (|before| - |window|)];
    }
  }

  /** The contents are the last min(n, size) accepted sets, with distinct keys. */
  lemma ContentsAreTheLastAccepted<K, V>(calls: seq<Entry<K, V>>, size: nat)
    ensures |Contents(calls, size)| == (if |AcceptedSets(calls, size)| < size then |AcceptedSets(calls, size)| else size)
    ensures Contents(calls, size) == AcceptedSets(calls, size)[|AcceptedSets(calls, size)| - |Contents(calls, size)|..]
    ensures DistinctKeys(Contents(calls, size))
  {
    hide AcceptedSets;
    var accepted := AcceptedSets(calls, size);
    var contents := Contents(calls, size);
    forall i, j | 0 <= i < j < |contents| ensures contents[i].key != contents[j].key {
      WindowsAreDistinct(calls, size, |accepted| - |contents| + i, |accepted| - |contents| + j);
    }
  }

  /** `i` is the position of the latest accepted set of `key`. */
  ghost predicate IsLatest<K, V>(accepted: seq<Entry<K, V>>, key: K, i: int) {
    0 <= i < |accepted| && accepted[i].key == key && forall j :: i < j < |accepted| ==> accepted[j].key != key
  }

  /** Every entry in the cache is its key's latest accepted set, one of the last `size`. */
  lemma ContentsAreLatest<K, V>(calls: seq<Entry<K, V>>, size: nat, j: nat) returns (i: nat)
    requires j < |Contents(calls, size)|
    ensures IsLatest(AcceptedSets(calls, size), Contents(calls, size)[j].key, i)
    ensures AcceptedSets(calls, size)[i] == Contents(calls, size)[j] && |AcceptedSets(calls, size)| - i <= size
  {
    hide AcceptedSets, Contents, DistinctKeys, LastOf;
    ContentsAreTheLastAccepted(calls, size);
    var accepted, contents := AcceptedSets(calls, size), Contents(calls, size);
    i := |accepted| - |contents| + j;
    assert contents[j] == accepted[i];
    forall k | i < k < |accepted| ensures accepted[k].key != contents[j].key {
      WindowsAreDistinct(calls, size, i, k);
    }
  }

  /** A hit means exactly that the key's latest accepted set is one of the last `size`, and what it
      finds is that set. */
  lemma HitIffLatestIsRecent<K, V>(calls: seq<Entry<K, V>>, size: nat, key: K)
    ensures HasKey(Contents(calls, size), key) <==>
      exists i :: IsLatest(AcceptedSets(calls, size), key, i) && |AcceptedSets(calls, size)| - i <= size
    ensures forall i :: (IsLatest(AcceptedSets(calls, size), key, i) && |AcceptedSets(calls, size)| - i <= size) ==>
      AcceptedSets(calls, size)[i] in Contents(calls, size)
  {
    hide AcceptedSets;
    if HasKey(Contents(calls, size), key) {
      var j :| 0 <= j < |Contents(calls, size)| && Contents(calls, size)[j].key == key;
      var i := ContentsAreLatest(calls, size, j);
    }
    forall i | IsLatest(AcceptedSets(calls, size), key, i) && |AcceptedSets(calls, size)| - i <= size
      ensures AcceptedSets(calls, size)[i] in Contents(calls, size) && HasKey(Contents(calls, size), key)
    {
      ContentsAreTheLastAccepted(calls, size);
      var j := i - (|AcceptedSets(calls, size)| - |Contents(calls, size)|);
      assert Contents(calls, size)[j] == AcceptedSets(calls, size)[i];
    }
  }

  /** An entry survives exactly size - 1 further accepted sets and is gone after the size-th, however
      many refused sets, of its key or others, come in between. */
  lemma RetentionIsExact<K, V>(calls: seq<Entry<K, V>>, entry: Entry<K, V>, more: seq<Entry<K, V>>, size: nat)
    requires size > 0 && !HasKey(Contents(calls, size), entry.key)
    ensures
      var further := |AcceptedSets(calls + [entry] + more, size)| - |AcceptedSets(calls + [entry], size)|;
      && (0 <= further < size ==> entry in Contents(calls + [entry] + more, size))
      && (further == size ==> !HasKey(Contents(calls + [entry] + more, size), entry.key))
  {
    var now := AcceptedSets(calls + [entry], size);
    var later := AcceptedSets(calls + [entry] + more, size);
    assert now == AcceptedSets(calls, size) + [entry] by {
      assert (calls + [entry])[..|calls|] == calls;
    }
    AcceptedExtend(calls + [entry], more, size);
    hide AcceptedSets, Contents;
    var i := |now| - 1;
    assert later[i] == now[i] == entry;
    if |later| - |now| < size {
      RecentIsPresent(calls + [entry] + more, size, i);
    } else if |later| - |now| == size {
      JustOutIsAbsent(calls + [entry] + more, size, i);
    }
  }

  lemma RecentIsPresent<K, V>(calls: seq<Entry<K, V>>, size: nat, i: nat)
    requires i < |AcceptedSets(calls, size)| <= i + size
    ensures AcceptedSets(calls, size)[i] in Contents(calls, size)
  {
    hide AcceptedSets;
    assert Contents(calls, size)[i - (|AcceptedSets(calls, size)| - |Contents(calls, size)|)] == AcceptedSets(calls, size)[i];
  }

  lemma JustOutIsAbsent<K, V>(calls: seq<Entry<K, V>>, size: nat, i: nat)
    requires |AcceptedSets(calls, size)| == i + size + 1
    ensures !HasKey(Contents(calls, size), AcceptedSets(calls, size)[i].key)
  {
    hide AcceptedSets;
    forall j | 0 <= j < size ensures Contents(calls, size)[j].key != AcceptedSets(calls, size)[i].key {
      assert Contents(calls, size)[j] == AcceptedSets(calls, size)[i + 1 + j];
      WindowsAreDistinct(calls, size, i, i + 1 + j);
    }
  }

  /** A cache filled only with `f` of the key answers only with `f` of the key, in every run. */
  lemma {:induction false} MemoIsSound<K, V>(calls: seq<Entry<K, V>>, size: nat, f: K -> V)
    requires forall i :: 0 <= i < |calls| ==> calls[i].value == f(calls[i].key)
    ensures forall i :: 0 <= i < |AcceptedSets(calls, size)| ==>
      AcceptedSets(calls, size)[i].value == f(AcceptedSets(calls, size)[i].key)
    ensures forall i :: 0 <= i < |Contents(calls, size)| ==>
      Contents(calls, size)[i].value == f(Contents(calls, size)[i].key)
    decreases |calls|
  {
    if calls != [] {
      MemoIsSound(calls[..|calls| - 1], size, f);
    }
  }
}
