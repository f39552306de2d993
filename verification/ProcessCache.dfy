/** The process-wide cache of prepared Python worlds: a bounded deque, least recently used first. */
module ProcessCache {
  import opened Wrappers

  datatype WorldKey = WorldKey(workspaceRoot: string, sourceSha256: string, dependencySha256: string)

  /** A shared handle. Its key is fixed when the world is built; `serial` tells builds apart. */
  datatype World = World(key: WorldKey, serial: nat)

  // ---------------------------------------------------------------- what the deque operations do

  predicate Holds(cache: seq<World>, key: WorldKey) {
    exists i :: 0 <= i < |cache| && cache[i].key == key
  }

  function Without(cache: seq<World>, key: WorldKey): seq<World> {
    if cache == [] then []
    else (if cache[0].key == key then [] else [cache[0]]) + Without(cache[1..], key)
  }

  /** The first entry with the key. */
  function Find(cache: seq<World>, key: WorldKey): (r: Option<World>)
    ensures r.Some? <==> Holds(cache, key)
    ensures r.Some? ==> r.value in cache && r.value.key == key
  {
    if cache == [] then None
    else if cache[0].key == key then Some(cache[0])
    else
      var r := Find(cache[1..], key);
      assert r.Some? ==> exists i :: 0 <= i < |cache[1..]| && cache[1..][i].key == key;
      assert forall i :: 0 < i < |cache| ==> cache[i] == cache[1..][i - 1];
      r
  }

  /** A hit moves the entry to the back; a miss changes nothing. */
  function AfterLookup(cache: seq<World>, key: WorldKey): seq<World> {
    var found := Find(cache, key);
    if found.None? then cache else Without(cache, key) + [found.value]
  }

  /** An insertion replaces the entry of the same key, evicts from the front and appends. */
  function AfterInsert(cache: seq<World>, world: World, capacity: nat): seq<World>
    requires capacity >= 1
  {
    Last(Without(cache, world.key), capacity - 1) + [world]
  }

  // ---------------------------------------------------------------- the trace specification

  /** The last touch of each key, in order of last touch. */
  function Latest(touches: seq<World>): seq<World> {
    if touches == [] then []
    else Without(Latest(touches[..|touches| - 1]), touches[|touches| - 1].key) + [touches[|touches| - 1]]
  }

  /** The `n` most recently touched distinct keys. */
  function Recent(touches: seq<World>, n: nat): seq<World> {
    Last(Latest(touches), n)
  }

  ghost predicate DistinctKeys(cache: seq<World>) {
    forall i, j :: 0 <= i < j < |cache| ==> cache[i].key != cache[j].key
  }

  ghost predicate IsLastTouch(touches: seq<World>, i: nat) {
    i < |touches| && forall j :: i < j < |touches| ==> touches[j].key != touches[i].key
  }

  /** The positions of `at` that touch other keys. */
  function KeepOthers(touches: seq<World>, at: seq<nat>, key: WorldKey): seq<nat>
    requires forall k :: 0 <= k < |at| ==> at[k] < |touches|
  {
    if at == [] then []
    else (if touches[at[0]].key == key then [] else [at[0]]) + KeepOthers(touches, at[1..], key)
  }

  lemma {:induction false} KeepOthersMembers(touches: seq<World>, at: seq<nat>, key: WorldKey, i: nat)
    requires forall k :: 0 <= k < |at| ==> at[k] < |touches|
    ensures i in KeepOthers(touches, at, key) <==> i in at && touches[i].key != key
  {
    if at != [] {
      assert at == [at[0]] + at[1..];
      KeepOthersMembers(touches, at[1..], key, i);
    }
  }

  ghost predicate Increasing(at: seq<nat>) {
    forall k, l :: 0 <= k < l < |at| ==> at[k] < at[l]
  }

  lemma {:induction false} KeepOthersIncreases(touches: seq<World>, at: seq<nat>, key: WorldKey)
    requires (forall k :: 0 <= k < |at| ==> at[k] < |touches|) && Increasing(at)
    ensures Increasing(KeepOthers(touches, at, key))
  {
    if at != [] {
      var rest := KeepOthers(touches, at[1..], key);
      KeepOthersIncreases(touches, at[1..], key);
      forall l | 0 <= l < |rest| ensures at[0] < rest[l] {
        KeepOthersMembers(touches, at[1..], key, rest[l]);
        assert rest[l] in rest;
      }
    }
  }

  /** `at` gives the positions where the entries of `list` were touched. */
  ghost predicate TouchedAt(touches: seq<World>, list: seq<World>, at: seq<nat>) {
    |at| == |list| && forall k :: 0 <= k < |at| ==> at[k] < |touches| && list[k] == touches[at[k]]
  }

  lemma {:induction false} KeepOthersTouched(touches: seq<World>, list: seq<World>, at: seq<nat>, key: WorldKey)
    requires TouchedAt(touches, list, at)
    ensures TouchedAt(touches, Without(list, key), KeepOthers(touches, at, key))
  {
    if at != [] {
      KeepOthersTouched(touches, list[1..], at[1..], key);
    }
  }

  /** Where the entries of `Latest` were touched. */
  function LastTouches(touches: seq<World>): (at: seq<nat>)
    ensures forall k :: 0 <= k < |at| ==> at[k] < |touches|
  {
    if touches == [] then []
    else
      var before, world := touches[..|touches| - 1], touches[|touches| - 1];
      KeepOthersRange(before, LastTouches(before), world.key);
      KeepOthers(before, LastTouches(before), world.key) + [|before|]
  }

  lemma KeepOthersRange(touches: seq<World>, at: seq<nat>, key: WorldKey)
    requires forall k :: 0 <= k < |at| ==> at[k] < |touches|
    ensures forall k :: 0 <= k < |KeepOthers(touches, at, key)| ==> KeepOthers(touches, at, key)[k] < |touches|
  {
    var kept := KeepOthers(touches, at, key);
    forall k | 0 <= k < |kept| ensures kept[k] < |touches| {
      KeepOthersMembers(touches, at, key, kept[k]);
      assert kept[k] in kept;
    }
  }

  lemma {:induction false} LastTouchesMembers(touches: seq<World>, i: nat)
    ensures i in LastTouches(touches) <==> IsLastTouch(touches, i)
  {
    if touches != [] {
      var before, world := touches[..|touches| - 1], touches[|touches| - 1];
      LastTouchesMembers(before, i);
      KeepOthersMembers(before, LastTouches(before), world.key, i);
      if i < |before| {
        LastTouchSnoc(before, world, i);
        assert touches == before + [world];
      }
    }
  }

  lemma LastTouchSnoc(before: seq<World>, world: World, i: nat)
    requires i < |before|
    ensures IsLastTouch(before + [world], i) <==> IsLastTouch(before, i) && before[i].key != world.key
  {
    var touches := before + [world];
    if IsLastTouch(touches, i) {
      assert touches[|before|].key != touches[i].key;
      forall j | i < j < |before| ensures before[j].key != before[i].key {
        assert touches[j].key != touches[i].key;
      }
    }
  }

  lemma {:induction false} LastTouchesIncrease(touches: seq<World>)
    ensures Increasing(LastTouches(touches))
  {
    if touches != [] {
      var before, world := touches[..|touches| - 1], touches[|touches| - 1];
      LastTouchesIncrease(before);
      KeepOthersRange(before, LastTouches(before), world.key);
      KeepOthersIncreases(before, LastTouches(before), world.key);
    }
  }

  lemma {:induction false} LastTouchesTouch(touches: seq<World>)
    ensures TouchedAt(touches, Latest(touches), LastTouches(touches))
  {
    if touches != [] {
      var before, world := touches[..|touches| - 1], touches[|touches| - 1];
      LastTouchesTouch(before);
      KeepOthersTouched(before, Latest(before), LastTouches(before), world.key);
    }
  }

  /** `Latest` lists exactly the last touch of each key, in order of touching. */
  lemma LatestMeaning(touches: seq<World>)
    ensures TouchedAt(touches, Latest(touches), LastTouches(touches)) && Increasing(LastTouches(touches))
    ensures forall i: nat :: i in LastTouches(touches) <==> IsLastTouch(touches, i)
    ensures DistinctKeys(Latest(touches))
  {
    LastTouchesTouch(touches);
    LastTouchesIncrease(touches);
    forall i: nat ensures i in LastTouches(touches) <==> IsLastTouch(touches, i) {
      LastTouchesMembers(touches, i);
    }
    LastTouchesDistinct(touches, Latest(touches), LastTouches(touches));
  }

  lemma LastTouchesDistinct(touches: seq<World>, latest: seq<World>, at: seq<nat>)
    requires TouchedAt(touches, latest, at) && Increasing(at)
    requires forall i :: i in at ==> IsLastTouch(touches, i)
    ensures DistinctKeys(latest)
  {
    forall k, l | 0 <= k < l < |latest| ensures latest[k].key != latest[l].key {
      assert at[k] in at;
      assert at[k] < at[l];
    }
  }

  // ---------------------------------------------------------------- refinement

  lemma {:induction false} WithoutConcat(a: seq<World>, b: seq<World>, key: WorldKey)
    ensures Without(a + b, key) == Without(a, key) + Without(b, key)
  {
    if a == [] {
      assert a + b == b;
    } else {
      assert (a + b)[1..] == a[1..] + b;
      WithoutConcat(a[1..], b, key);
    }
  }

  lemma {:induction false} WithoutAbsent(cache: seq<World>, key: WorldKey)
    requires forall i :: 0 <= i < |cache| ==> cache[i].key != key
    ensures Without(cache, key) == cache
  {
    if cache != [] {
      WithoutAbsent(cache[1..], key);
    }
  }

  lemma {:induction false} WithoutPresent(cache: seq<World>, i: nat)
    requires DistinctKeys(cache) && i < |cache|
    ensures Without(cache, cache[i].key) == cache[..i] + cache[i + 1..]
  {
    if i == 0 {
      WithoutAbsent(cache[1..], cache[0].key);
    } else {
      WithoutPresent(cache[1..], i - 1);
      assert cache[1..][..i - 1] == cache[1..i];
      assert cache[1..][i..] == cache[i + 1..];
      assert [cache[0]] + cache[1..i] == cache[..i];
      assert cache[0].key != cache[i].key;
      assert [cache[0]] + (cache[1..i] + cache[i + 1..]) == cache[..i] + cache[i + 1..];
    }
  }

  /** Truncating before or after dropping a key leaves the same suffix. */
  lemma LastOfWithout(latest: seq<World>, key: WorldKey, n: nat)
    requires DistinctKeys(latest) && n >= 1
    ensures Last(Without(Last(latest, n), key), n - 1) == Last(Without(latest, key), n - 1)
  {
    if |latest| > n {
      var dropped, kept := latest[..|latest| - n], latest[|latest| - n..];
      assert latest == dropped + kept;
      WithoutConcat(dropped, kept, key);
      if i :| 0 <= i < |kept| && kept[i].key == key {
        KeptHasKey(dropped, kept, i);
      } else {
        WithoutAbsent(kept, key);
      }
      LastOfConcat(Without(dropped, key), Without(kept, key), n - 1);
    }
  }

  lemma KeptHasKey(dropped: seq<World>, kept: seq<World>, i: nat)
    requires DistinctKeys(dropped + kept) && i < |kept|
    ensures |Without(kept, kept[i].key)| == |kept| - 1
  {
    var all, cut := dropped + kept, |dropped|;
    forall k, l | 0 <= k < l < |kept| ensures kept[k].key != kept[l].key {
      assert all[cut + k].key != all[cut + l].key;
    }
    WithoutPresent(kept, i);
  }

  lemma LastOfConcat(a: seq<World>, b: seq<World>, n: nat)
    requires |b| >= n
    ensures Last(a + b, n) == Last(b, n)
  {
    assert (a + b)[|a| + |b| - n..] == b[|b| - n..];
    assert |b| == n ==> b[0..] == b;
  }

  lemma RecentSnoc(touches: seq<World>, world: World, n: nat)
    requires n >= 1
    ensures Recent(touches + [world], n) == Last(Without(Recent(touches, n), world.key), n - 1) + [world]
  {
    LatestMeaning(touches);
    LatestSnoc(touches, world);
    LastOfWithout(Latest(touches), world.key, n);
    LastSnoc(Without(Latest(touches), world.key), world, n);
  }

  lemma LatestSnoc(touches: seq<World>, world: World)
    ensures Latest(touches + [world]) == Without(Latest(touches), world.key) + [world]
  {
    assert (touches + [world])[..|touches|] == touches;
  }

  lemma LastSnoc(list: seq<World>, world: World, n: nat)
    requires n >= 1
    ensures Last(list + [world], n) == Last(list, n - 1) + [world]
  {
  }

  lemma RecentHasDistinctKeys(touches: seq<World>, n: nat)
    ensures DistinctKeys(Recent(touches, n)) && |Recent(touches, n)| <= n
  {
    LatestMeaning(touches);
  }

  /** A found entry is the only one of its key. */
  lemma FoundIsLookedUp(cache: seq<World>, i: nat)
    requires DistinctKeys(cache) && i < |cache|
    ensures Find(cache, cache[i].key) == Some(cache[i])
    ensures AfterLookup(cache, cache[i].key) == cache[..i] + cache[i + 1..] + [cache[i]]
  {
    WithoutPresent(cache, i);
    var found := Find(cache, cache[i].key);
    assert Holds(cache, cache[i].key);
    var j :| 0 <= j < |cache| && cache[j] == found.value;
    assert j == i;
  }

  function KeysOf(cache: seq<World>): set<WorldKey> {
    set w | w in cache :: w.key
  }

  lemma {:induction false} WithoutElements(cache: seq<World>, key: WorldKey)
    ensures forall w :: w in Without(cache, key) <==> w in cache && w.key != key
  {
    if cache != [] {
      WithoutElements(cache[1..], key);
    }
  }

  lemma LookupKeepsKeys(cache: seq<World>, key: WorldKey)
    ensures KeysOf(AfterLookup(cache, key)) == KeysOf(cache)
    ensures Find(cache, key).Some? <==> key in KeysOf(cache)
  {
    WithoutElements(cache, key);
    var found := Find(cache, key);
    if found.Some? {
      assert KeysOf(Without(cache, key)) + {key} == KeysOf(cache);
      assert KeysOf(Without(cache, key) + [found.value]) == KeysOf(Without(cache, key)) + {key};
    }
  }

  lemma InsertChangesKeys(cache: seq<World>, world: World, capacity: nat)
    requires capacity >= 1
    ensures world.key in KeysOf(AfterInsert(cache, world, capacity))
    ensures KeysOf(AfterInsert(cache, world, capacity)) <= KeysOf(cache) + {world.key}
  {
    WithoutElements(cache, world.key);
    var after := AfterInsert(cache, world, capacity);
    assert world in after;
    forall w | w in after ensures w.key in KeysOf(cache) + {world.key} {}
  }

  // ---------------------------------------------------------------- the cache

  class WorldCache {
    const capacity: nat
    var entries: seq<World>
    /** Every world touched so far, by a hit or an insertion. */
    ghost var touches: seq<World>

    /** The entries are the most recently touched worlds of distinct keys, least recent first. */
    ghost predicate Valid()
      reads this
    {
      capacity >= 1 && entries == Recent(touches, capacity)
    }

    constructor (capacity: nat)
      requires capacity >= 1
      ensures Valid() && this.capacity == capacity && touches == []
    {
      this.capacity := capacity;
      entries, touches := [], [];
    }

    method Lookup(key: WorldKey) returns (r: Option<World>)
      requires Valid()
      modifies this
      ensures Valid()
      ensures r == Find(old(entries), key) && entries == AfterLookup(old(entries), key)
      ensures touches == old(touches) + if r.Some? then [r.value] else []
    {
      var found: Option<nat> := None;
      RecentHasDistinctKeys(touches, capacity);
      for i := 0 to |entries|
        invariant found.None?
        invariant forall k :: 0 <= k < i ==> entries[k].key != key
      {
        if entries[i].key == key {
          found := Some(i);
          break;
        }
      }
      if found.None? {
        return None;
      }
      var index := found.value;
      var entry := entries[index];
      FoundIsLookedUp(entries, index);
      RecentSnoc(touches, entry, capacity);
      entries := entries[..index] + entries[index + 1..];
      entries := entries + [entry];
      touches := touches + [entry];
      return Some(entry);
    }

    /** Evicts from the front until there is room for one more. */
    method EvictFront(cache: seq<World>) returns (kept: seq<World>)
      requires capacity >= 1
      ensures kept == Last(cache, capacity - 1)
    {
      kept := cache;
      ghost var evicted := 0;
      while |kept| >= capacity
        invariant evicted <= |cache| && kept == cache[evicted..]
        invariant evicted > 0 ==> |kept| >= capacity - 1
        decreases |kept|
      {
        kept := kept[1..];
        evicted := evicted + 1;
      }
    }

    /** The entries of other keys. */
    method WithoutDuplicates(key: WorldKey) returns (retained: seq<World>)
      ensures retained == Without(entries, key)
    {
      retained := [];
      var rest := entries;
      while rest != []
        invariant retained + Without(rest, key) == Without(entries, key)
        decreases |rest|
      {
        var entry := rest[0];
        rest := rest[1..];
        if entry.key != key {
          assert retained + ([entry] + Without(rest, key)) == (retained + [entry]) + Without(rest, key);
          retained := retained + [entry];
        } else {
          assert [] + Without(rest, key) == Without(rest, key);
        }
      }
    }

    method Insert(world: World)
      requires Valid()
      modifies this
      ensures Valid()
      ensures entries == AfterInsert(old(entries), world, capacity)
      ensures touches == old(touches) + [world]
    {
      RecentSnoc(touches, world, capacity);
      var retained := WithoutDuplicates(world.key);
      entries := EvictFront(retained);
      entries := entries + [world];
      touches := touches + [world];
    }
  }
}
