/** The tagged cache itself (TaggedCache.h). */
module TaggedCache {
  import opened Options
  import opened CacheState
  import opened CacheRuns

  // ---- inside a sweep ----

  /** An object's reference from the pointers collected by the sweep, from outside or from an entry. */
  predicate AliveInSweep(cache: map<Key, Entry>, outside: multiset<Object>, stuff: seq<Object>, o: Object) {
    o in stuff || Alive(cache, outside, o)
  }

  /** `ptr.unique()` for the strong pointer of `key`: no other reference to its object. */
  predicate Unique(cache: map<Key, Entry>, outside: multiset<Object>, stuff: seq<Object>, key: Key)
    requires key in cache && cache[key].ptr.Some?
  {
    var o := cache[key].ptr.value;
    o !in outside && o !in stuff && forall k | k in cache && k != key :: cache[k].ptr != Some(o)
  }

  /** A key the sweep has passed. */
  ghost predicate Passed(s: State, cutoff: int, cache: map<Key, Entry>, stuff: seq<Object>, k: Key)
    requires k in s.cache
  {
    var e := s.cache[k];
    if e.ptr.None? then (k in cache <==> Lock(s.cache, s.outside, e.weak).Some?) && (k in cache ==> cache[k] == e)
    else if e.lastAccess > cutoff then k in cache && cache[k] == e
    else (k in cache ==> cache[k] == e.(ptr := None)) && (k !in cache ==> e.ptr.value in stuff)
  }

  /** An object collected by the sweep had one key left, now gone, and no other reference. */
  ghost predicate Collected(s: State, cache: map<Key, Entry>, o: Object) {
    && o !in s.outside
    && (forall k :: k in cache ==> cache[k].ptr != Some(o))
    && exists k :: Dropped(s, cache, k, o)
  }

  ghost predicate Sweeping(s: State, cutoff: int, cache: map<Key, Entry>, todo: set<Key>, stuff: seq<Object>) {
    && todo <= cache.Keys <= s.cache.Keys
    && (forall k :: k in todo ==> cache[k] == s.cache[k])
    && (forall k :: k in s.cache && k !in todo ==> Passed(s, cutoff, cache, stuff, k))
    && (forall o :: o in stuff ==> Collected(s, cache, o))
    && (forall k, l, o :: Dropped(s, cache, k, o) && Dropped(s, cache, l, o) ==> k == l)
    && (forall o :: Alive(s.cache, s.outside, o) <==> AliveInSweep(cache, s.outside, stuff, o))
  }

  lemma SweepStart(s: State, cutoff: int)
    ensures Sweeping(s, cutoff, s.cache, s.cache.Keys, [])
  {}

  lemma PassKept(s: State, cutoff: int, c: map<Key, Entry>, todo: set<Key>, stuff: seq<Object>, k: Key)
    requires Sweeping(s, cutoff, c, todo, stuff) && k in todo
    requires Passed(s, cutoff, c, stuff, k)
    ensures Sweeping(s, cutoff, c, todo - {k}, stuff)
  {
    hide Alive, Lock;
  }

  /** The maps agree except at `k`. */
  ghost predicate ExceptAt(c: map<Key, Entry>, d: map<Key, Entry>, k: Key) {
    forall j :: j != k ==> (j in c <==> j in d) && (j in c ==> c[j] == d[j])
  }

  lemma AliveElsewhere(c: map<Key, Entry>, d: map<Key, Entry>, k: Key, outside: multiset<Object>, o: Object)
    requires ExceptAt(c, d, k) && (k in c ==> c[k].ptr != Some(o)) && (k in d ==> d[k].ptr != Some(o))
    ensures Alive(c, outside, o) <==> Alive(d, outside, o)
  {
    if Alive(c, outside, o) && o !in outside {
      var j :| j in c && c[j].ptr == Some(o);
      assert j in d && d[j].ptr == Some(o);
    }
    if Alive(d, outside, o) && o !in outside {
      var j :| j in d && d[j].ptr == Some(o);
      assert j in c && c[j].ptr == Some(o);
    }
  }

  /** The part of the invariant about the keys other than `k`, when only `k` changes. */
  lemma OthersPass(s: State, cutoff: int, c: map<Key, Entry>, todo: set<Key>, stuff: seq<Object>, k: Key, d: map<Key, Entry>,
                   more: seq<Object>)
    requires Sweeping(s, cutoff, c, todo, stuff) && k in todo && ExceptAt(c, d, k)
    requires forall o :: o in stuff ==> o in more
    ensures todo - {k} <= d.Keys <= s.cache.Keys
    ensures forall j :: j in todo - {k} ==> d[j] == s.cache[j]
    ensures forall j :: j in s.cache && j !in todo ==> Passed(s, cutoff, d, more, j)
  {
    hide Alive, Lock;
    forall j | j in s.cache && j !in todo ensures Passed(s, cutoff, d, more, j) {
      assert Passed(s, cutoff, c, stuff, j);
    }
  }

  lemma StillCollected(s: State, c: map<Key, Entry>, k: Key, d: map<Key, Entry>, o: Object)
    requires Collected(s, c, o) && ExceptAt(c, d, k) && k in c && (k in d ==> d[k].ptr.None?)
    ensures Collected(s, d, o)
  {
    var j :| Dropped(s, c, j, o);
    assert Dropped(s, d, j, o);
  }

  /** A weak entry whose object is gone. */
  lemma PassExpired(s: State, cutoff: int, c: map<Key, Entry>, todo: set<Key>, stuff: seq<Object>, k: Key)
    requires Sweeping(s, cutoff, c, todo, stuff) && k in todo && c[k].ptr.None?
    requires Lock(s.cache, s.outside, c[k].weak).None?
    ensures Sweeping(s, cutoff, c - {k}, todo - {k}, stuff)
  {
    hide Lock, Alive, Collected;
    var d := c - {k};
    OthersPass(s, cutoff, c, todo, stuff, k, d, stuff);
    forall o: Object ensures Alive(s.cache, s.outside, o) <==> AliveInSweep(d, s.outside, stuff, o) {
      AliveElsewhere(c, d, k, s.outside, o);
      assert Alive(s.cache, s.outside, o) <==> AliveInSweep(c, s.outside, stuff, o);
    }
    forall o | o in stuff ensures Collected(s, d, o) {
      StillCollected(s, c, k, d, o);
    }
    forall j, l, o | Dropped(s, d, j, o) && Dropped(s, d, l, o) ensures j == l {
      assert Dropped(s, c, j, o) && Dropped(s, c, l, o);
    }
  }

  /** A stale entry that is not the last reference goes weak. */
  lemma PassReset(s: State, cutoff: int, c: map<Key, Entry>, todo: set<Key>, stuff: seq<Object>, k: Key)
    requires Sweeping(s, cutoff, c, todo, stuff) && k in todo && Stale(c[k], cutoff) && !Unique(c, s.outside, stuff, k)
    ensures Sweeping(s, cutoff, c[k := c[k].(ptr := None)], todo - {k}, stuff)
  {
    hide Lock, Collected;
    var d := c[k := c[k].(ptr := None)];
    OthersPass(s, cutoff, c, todo, stuff, k, d, stuff);
    forall o: Object ensures Alive(s.cache, s.outside, o) <==> AliveInSweep(d, s.outside, stuff, o) {
      assert Alive(s.cache, s.outside, o) <==> AliveInSweep(c, s.outside, stuff, o);
      if c[k].ptr != Some(o) {
        AliveElsewhere(c, d, k, s.outside, o);
      } else if o !in stuff && o !in s.outside {
        var j :| j in c && j != k && c[j].ptr == Some(o);
        assert d[j].ptr == Some(o);
      }
    }
    forall o | o in stuff ensures Collected(s, d, o) {
      StillCollected(s, c, k, d, o);
    }
    forall j, l, o | Dropped(s, d, j, o) && Dropped(s, d, l, o) ensures j == l {
      assert Dropped(s, c, j, o) && Dropped(s, c, l, o);
    }
  }

  /** A stale entry that is the last reference is erased, its object kept until the end of the sweep. */
  lemma PassUnique(s: State, cutoff: int, c: map<Key, Entry>, todo: set<Key>, stuff: seq<Object>, k: Key)
    requires Sweeping(s, cutoff, c, todo, stuff) && k in todo && Stale(c[k], cutoff) && Unique(c, s.outside, stuff, k)
    ensures Sweeping(s, cutoff, c - {k}, todo - {k}, stuff + [c[k].ptr.value])
  {
    hide Lock;
    var d := c - {k};
    var p := c[k].ptr.value;
    var more := stuff + [p];
    OthersPass(s, cutoff, c, todo, stuff, k, d, more);
    assert p in more;
    forall o: Object ensures Alive(s.cache, s.outside, o) <==> AliveInSweep(d, s.outside, more, o) {
      assert Alive(s.cache, s.outside, o) <==> AliveInSweep(c, s.outside, stuff, o);
      if p != o {
        AliveElsewhere(c, d, k, s.outside, o);
      } else {
        assert c[k].ptr == Some(o);
      }
    }
    forall o | o in more ensures Collected(s, d, o) {
      if o == p {
        assert Dropped(s, d, k, o);
      } else {
        StillCollected(s, c, k, d, o);
      }
    }
    forall j, l, o | Dropped(s, d, j, o) && Dropped(s, d, l, o) ensures j == l {
      GoneOnce(s, cutoff, c, todo, stuff, k, j, l, o);
    }
  }

  lemma GoneOnce(s: State, cutoff: int, c: map<Key, Entry>, todo: set<Key>, stuff: seq<Object>, k: Key, j: Key, l: Key,
                 o: Object)
    requires Sweeping(s, cutoff, c, todo, stuff) && k in todo && c[k].ptr.Some? && Unique(c, s.outside, stuff, k)
    requires Dropped(s, c - {k}, j, o) && Dropped(s, c - {k}, l, o)
    ensures j == l
  {
    hide Lock, Alive, Collected;
    GoneMeansCollected(s, cutoff, c, todo, stuff, k, j, o);
    GoneMeansCollected(s, cutoff, c, todo, stuff, k, l, o);
  }

  /** A key gone earlier has its object among the collected ones, so not the object of `k`. */
  lemma GoneMeansCollected(s: State, cutoff: int, c: map<Key, Entry>, todo: set<Key>, stuff: seq<Object>, k: Key, j: Key,
                           o: Object)
    requires Sweeping(s, cutoff, c, todo, stuff) && k in todo && c[k].ptr.Some? && Unique(c, s.outside, stuff, k)
    requires Dropped(s, c - {k}, j, o)
    ensures j == k || (Dropped(s, c, j, o) && o in stuff && o != c[k].ptr.value)
  {
    hide Lock, Alive, Collected;
    if j != k {
      assert Passed(s, cutoff, c, stuff, j);
    }
  }

  lemma SweepEnd(s: State, c: map<Key, Entry>, stuff: seq<Object>, t: State)
    requires Sweeping(s, Cutoff(s), c, {}, stuff) && t == s.(cache := c, cacheCount := s.cacheCount - |StaleKeys(s, Cutoff(s))|)
    ensures Swept(s, t)
  {
    hide Lock, StaleKeys, Cutoff;
    forall k | k in s.cache ensures SweptEntry(s, Cutoff(s), t, k) {
      EndEntry(s, c, stuff, t, k);
    }
    forall o ensures OneDropped(s, Cutoff(s), t, o) {
      EndDropped(s, c, stuff, t, o);
    }
  }

  lemma EndEntry(s: State, c: map<Key, Entry>, stuff: seq<Object>, t: State, k: Key)
    requires Sweeping(s, Cutoff(s), c, {}, stuff) && t.cache == c && k in s.cache
    ensures SweptEntry(s, Cutoff(s), t, k)
  {
    hide Lock, Cutoff, Alive;
    assert Passed(s, Cutoff(s), c, stuff, k);
    var e := s.cache[k];
    if Stale(e, Cutoff(s)) && k !in c {
      assert Collected(s, c, e.ptr.value);
      forall j | j in s.cache && !Stale(s.cache[j], Cutoff(s)) ensures s.cache[j].ptr != e.ptr {
        assert Passed(s, Cutoff(s), c, stuff, j);
      }
    }
  }

  lemma EndDropped(s: State, c: map<Key, Entry>, stuff: seq<Object>, t: State, o: Object)
    requires Sweeping(s, Cutoff(s), c, {}, stuff) && t.cache == c
    ensures OneDropped(s, Cutoff(s), t, o)
  {
    hide Lock, Cutoff;
    forall k, l | Dropped(s, t.cache, k, o) && Dropped(s, t.cache, l, o) ensures k == l {
      assert Dropped(s, c, k, o) && Dropped(s, c, l, o);
    }
    if Alive(s.cache, s.outside, o) && o !in s.outside && !KeptByOther(s, Cutoff(s), o) {
      assert AliveInSweep(c, s.outside, stuff, o);
      assert Collected(s, c, o);
      var k :| Dropped(s, c, k, o);
      assert Dropped(s, t.cache, k, o);
    }
  }

  // ---- the cache ----

  class Cache {
    var cache: map<Key, Entry>
    var cacheCount: int
    var hits: nat
    var misses: nat
    var targetSize: nat
    var targetAge: nat
    // the surroundings: pointers held elsewhere, objects created so far, the clock
    var outside: multiset<Object>
    ghost var born: set<Object>
    var now: int

    ghost function View(): State
      reads this
    {
      State(cache, cacheCount, hits, misses, targetSize, targetAge, outside, born, now)
    }

    constructor (size: nat, expiration: nat, clock: int)
      ensures View() == State(map[], 0, 0, 0, size, expiration, multiset{}, {}, clock)
      ensures Accounted(View()) && Known(View())
    {
      cache, cacheCount, hits, misses := map[], 0, 0, 0;
      targetSize, targetAge := size, expiration;
      outside, born, now := multiset{}, {}, clock;
    }

    method Clear()
      modifies this`cache, this`cacheCount
      ensures View() == old(View()).(cache := map[], cacheCount := 0)
    {
      cache := map[];
      cacheCount := 0;
    }

    method Reset()
      modifies this`cache, this`cacheCount, this`hits, this`misses
      ensures View() == old(View()).(cache := map[], cacheCount := 0, hits := 0, misses := 0)
    {
      cache := map[];
      cacheCount := 0;
      hits := 0;
      misses := 0;
    }

    /** The time at or before which an entry is stale: sooner when the map has outgrown its target, never under a second. */
    method WhenExpire() returns (whenExpire: int)
      ensures whenExpire == Cutoff(View())
    {
      if targetSize == 0 || |cache| <= targetSize {
        whenExpire := now - targetAge;
      } else {
        whenExpire := now - targetAge * targetSize / |cache|;
        if whenExpire > now - MINIMUM_AGE {
          whenExpire := now - MINIMUM_AGE;
        }
      }
    }

    /** One entry of the sweep. */
    method SweepEntry(key: Key, whenExpire: int, stuff: seq<Object>, ghost s: State, ghost todo: set<Key>)
        returns (stuffToSweep: seq<Object>)
      requires Sweeping(s, whenExpire, cache, todo, stuff) && key in todo && outside == s.outside
      modifies this`cache, this`cacheCount
      ensures Sweeping(s, whenExpire, cache, todo - {key}, stuffToSweep)
      ensures key in s.cache && cacheCount == old(cacheCount) - One(Stale(s.cache[key], whenExpire))
    {
      hide Sweeping, Alive, Lock, Unique;
      stuffToSweep := stuff;
      SweepAt(s, whenExpire, cache, todo, stuff, key);
      if cache[key].ptr.None? {
        if cache[key].weak.None? || !AliveInSweep(cache, outside, stuff, cache[key].weak.value) {
          PassExpired(s, whenExpire, cache, todo, stuff, key);
          cache := cache - {key};
        } else {
          PassKept(s, whenExpire, cache, todo, stuff, key);
        }
      } else if cache[key].lastAccess <= whenExpire {
        cacheCount := cacheCount - 1;
        if Unique(cache, outside, stuff, key) {
          PassUnique(s, whenExpire, cache, todo, stuff, key);
          stuffToSweep := stuff + [cache[key].ptr.value];
          cache := cache - {key};
        } else {
          PassReset(s, whenExpire, cache, todo, stuff, key);
          cache := cache[key := cache[key].(ptr := None)];
        }
      } else {
        PassKept(s, whenExpire, cache, todo, stuff, key);
      }
    }

    /** Entries in any order: weak ones without an object go, stale strong ones go or become weak. */
    method Sweep()
      modifies this`cache, this`cacheCount
      ensures Swept(old(View()), View())
    {
      hide Sweeping, StaleKeys, Swept, Cutoff, Stale;
      ghost var s := View();
      var stuffToSweep: seq<Object> := [];
      var whenExpire := WhenExpire();
      var todo := cache.Keys;
      SweepStart(s, whenExpire);
      CountStart(s, whenExpire);
      while todo != {}
        invariant Sweeping(s, whenExpire, cache, todo, stuffToSweep)
        invariant cacheCount == s.cacheCount - |StaleKeys(s, whenExpire) - todo|
        decreases |todo|
      {
        var key :| key in todo;
        stuffToSweep := SweepEntry(key, whenExpire, stuffToSweep, s, todo);
        CountKey(s, whenExpire, todo, key);
        todo := todo - {key};
      }
      CountEnd(s, whenExpire);
      SweepEnd(s, cache, stuffToSweep, View());
    }

    /** Out of the cache, and out of the map too when not `valid` or without a holder. */
    method Del(key: Key, valid: bool) returns (ret: bool)
      modifies this`cache, this`cacheCount
      ensures (View(), ret) == Deleted(old(View()), key, valid)
    {
      if key !in cache {
        return false;
      }
      ret := false;
      if cache[key].ptr.Some? {
        cacheCount := cacheCount - 1;
        cache := cache[key := cache[key].(ptr := None)];
        ret := true;
      }
      assert cache == old(cache)[key := old(cache)[key].(ptr := None)];
      if !valid || Lock(cache, outside, cache[key].weak).None? {
        cache := cache - {key};
        assert cache == old(cache) - {key};
      }
    }

    /** The caller's pointer `data0` becomes `data`. */
    method Canonicalize(key: Key, data0: Option<Object>, replace: bool) returns (data: Option<Object>, ret: bool)
      requires data0.Some? ==> data0.value in outside
      modifies this`cache, this`cacheCount, this`outside
      ensures (View(), data, ret) == Canonicalized(old(View()), key, data0, replace)
    {
      hide Lock, Held, Released;
      data := data0;
      if key !in cache {
        cache := cache[key := Entry(data, data, now)];
        cacheCount := cacheCount + 1;
        return data, false;
      }
      var entry := cache[key].(lastAccess := now);
      cache := cache[key := entry];
      if entry.ptr.Some? {
        if replace {
          cache := cache[key := entry.(ptr := data, weak := data)];
        } else {
          outside := Held(Released(outside, data), entry.ptr);
          data := entry.ptr;
        }
        assert cache == old(cache)[key := cache[key]];
        return data, true;
      }
      var cachedData := Lock(cache, outside, entry.weak);
      TouchedLock(old(cache), key, now, outside);
      if cachedData.Some? {
        if replace {
          cache := cache[key := entry.(ptr := data, weak := data)];
        } else {
          cache := cache[key := entry.(ptr := cachedData)];
          outside := Held(Released(outside, data), cachedData);
          data := cachedData;
        }
        cacheCount := cacheCount + 1;
        assert cache == old(cache)[key := cache[key]];
        return data, true;
      }
      cache := cache[key := entry.(ptr := data, weak := data)];
      cacheCount := cacheCount + 1;
      assert cache == old(cache)[key := cache[key]];
      ret := false;
    }

    method Fetch(key: Key) returns (r: Option<Object>)
      modifies this`cache, this`cacheCount, this`hits, this`misses, this`outside
      ensures (View(), r) == Fetched(old(View()), key)
    {
      hide Lock, Held;
      if key !in cache {
        misses := misses + 1;
        return None;
      }
      var entry := cache[key].(lastAccess := now);
      cache := cache[key := entry];
      if entry.ptr.Some? {
        hits := hits + 1;
        outside := Held(outside, entry.ptr);
        return entry.ptr;
      }
      TouchedLock(old(cache), key, now, outside);
      var p := Lock(cache, outside, entry.weak);
      if p.Some? {
        cache := cache[key := entry.(ptr := p)];
        cacheCount := cacheCount + 1;
        outside := Held(outside, p);
        assert cache == old(cache)[key := cache[key]];
        return p;
      }
      cache := cache - {key};
      assert cache == old(cache) - {key};
      misses := misses + 1;
      r := None;
    }

    method RefreshIfPresent(key: Key) returns (found: bool)
      modifies this`cache, this`cacheCount
      ensures (View(), found) == Refreshed(old(View()), key)
      ensures found == HasObject(old(View()), key)
    {
      found := false;
      if key in cache {
        if cache[key].ptr.None? {
          var p := Lock(cache, outside, cache[key].weak);
          if p.Some? {
            cacheCount := cacheCount + 1;
            cache := cache[key := cache[key].(ptr := p, lastAccess := now)];
            found := true;
          } else {
            cache := cache - {key};
          }
        } else {
          cache := cache[key := cache[key].(lastAccess := now)];
          found := true;
        }
      }
    }
  }

  /** Touching an entry does not change which objects are alive. */
  lemma TouchedLock(c: map<Key, Entry>, key: Key, now: int, outside: multiset<Object>)
    requires key in c
    ensures Lock(c[key := c[key].(lastAccess := now)], outside, c[key].weak) == Lock(c, outside, c[key].weak)
  {
    var d := c[key := c[key].(lastAccess := now)];
    if c[key].weak.Some? {
      var o := c[key].weak.value;
      if Alive(c, outside, o) && o !in outside {
        var j :| j in c && c[j].ptr == Some(o);
        assert j in d && d[j].ptr == Some(o);
      }
      if Alive(d, outside, o) && o !in outside {
        var j :| j in d && d[j].ptr == Some(o);
        assert j in c && c[j].ptr == Some(o);
      }
    }
  }

  lemma SweepAt(s: State, cutoff: int, c: map<Key, Entry>, todo: set<Key>, stuff: seq<Object>, key: Key)
    requires Sweeping(s, cutoff, c, todo, stuff) && key in todo
    ensures key in c && key in s.cache && c[key] == s.cache[key]
    ensures c[key].weak.Some? ==>
      (Lock(s.cache, s.outside, c[key].weak).Some? <==> AliveInSweep(c, s.outside, stuff, c[key].weak.value))
    ensures c[key].weak.None? ==> Lock(s.cache, s.outside, c[key].weak).None?
  {
    hide Alive;
  }

  // ---- how many stale keys were seen ----

  lemma CountStart(s: State, cutoff: int)
    ensures |StaleKeys(s, cutoff) - s.cache.Keys| == 0
  {
    assert StaleKeys(s, cutoff) - s.cache.Keys == {};
  }

  lemma CountKey(s: State, cutoff: int, todo: set<Key>, key: Key)
    requires key in todo && key in s.cache
    ensures |StaleKeys(s, cutoff) - (todo - {key})| == |StaleKeys(s, cutoff) - todo| + One(Stale(s.cache[key], cutoff))
  {
    var stale := StaleKeys(s, cutoff);
    if key in stale {
      assert stale - (todo - {key}) == (stale - todo) + {key};
    } else {
      assert stale - (todo - {key}) == stale - todo;
    }
  }

  lemma CountEnd(s: State, cutoff: int)
    ensures StaleKeys(s, cutoff) - {} == StaleKeys(s, cutoff)
  {}
}
