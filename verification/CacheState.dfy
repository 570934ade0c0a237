/** The states of a tagged cache and what its operations do to them (TaggedCache.h). */
module CacheState {
  import opened Options

  type Key = nat
  type Object = nat

  /** One entry of the map: the strong pointer, the target of the weak pointer, and the time of last access. */
  datatype Entry = Entry(ptr: Option<Object>, weak: Option<Object>, lastAccess: int)

  /**
   * The cache together with what decides how its pointers behave: the shared pointers held elsewhere, every object ever
   * created, and the clock.
   */
  datatype State = State(cache: map<Key, Entry>, cacheCount: int, hits: nat, misses: nat, targetSize: nat, targetAge: nat,
                         outside: multiset<Object>, born: set<Object>, now: int)

  predicate Alive(cache: map<Key, Entry>, outside: multiset<Object>, o: Object) {
    o in outside || exists k | k in cache :: cache[k].ptr == Some(o)
  }

  /** `weak_ptr::lock` on an entry: the object if it is still alive. */
  function Lock(cache: map<Key, Entry>, outside: multiset<Object>, weak: Option<Object>): (r: Option<Object>)
    ensures r.Some? ==> r == weak
  {
    if weak.Some? && Alive(cache, outside, weak.value) then weak else None
  }

  function Held(outside: multiset<Object>, o: Option<Object>): multiset<Object> {
    if o.Some? then outside + multiset{o.value} else outside
  }

  function Released(outside: multiset<Object>, o: Option<Object>): multiset<Object> {
    if o.Some? then outside - multiset{o.value} else outside
  }

  // ---- operations ----

  function Fetched(s: State, key: Key): (r: (State, Option<Object>)) {
    if key !in s.cache then (s.(misses := s.misses + 1), None)
    else
      var e := s.cache[key].(lastAccess := s.now);
      if e.ptr.Some? then
        (s.(cache := s.cache[key := e], hits := s.hits + 1, outside := Held(s.outside, e.ptr)), e.ptr)
      else
        var p := Lock(s.cache, s.outside, e.weak);
        if p.Some? then
          (s.(cache := s.cache[key := e.(ptr := p)], cacheCount := s.cacheCount + 1, outside := Held(s.outside, p)), p)
        else
          (s.(cache := s.cache - {key}, misses := s.misses + 1), None)
  }

  /** The state, the caller's pointer and the returned flag after `canonicalize`. */
  function Canonicalized(s: State, key: Key, data: Option<Object>, replace: bool): (State, Option<Object>, bool) {
    if key !in s.cache then
      (s.(cache := s.cache[key := Entry(data, data, s.now)], cacheCount := s.cacheCount + 1), data, false)
    else
      var e := s.cache[key].(lastAccess := s.now);
      if e.ptr.Some? then
        if replace then (s.(cache := s.cache[key := e.(ptr := data, weak := data)]), data, true)
        else (s.(cache := s.cache[key := e], outside := Held(Released(s.outside, data), e.ptr)), e.ptr, true)
      else
        var p := Lock(s.cache, s.outside, e.weak);
        if p.Some? then
          if replace then
            (s.(cache := s.cache[key := e.(ptr := data, weak := data)], cacheCount := s.cacheCount + 1), data, true)
          else
            (s.(cache := s.cache[key := e.(ptr := p)], cacheCount := s.cacheCount + 1,
                outside := Held(Released(s.outside, data), p)), p, true)
        else
          (s.(cache := s.cache[key := e.(ptr := data, weak := data)], cacheCount := s.cacheCount + 1), data, false)
  }

  function Deleted(s: State, key: Key, valid: bool): (State, bool) {
    if key !in s.cache then (s, false)
    else
      var e := s.cache[key].(ptr := None);
      var c := s.cache[key := e];
      var ret := s.cache[key].ptr.Some?;
      var count := if ret then s.cacheCount - 1 else s.cacheCount;
      if !valid || Lock(c, s.outside, e.weak).None? then (s.(cache := s.cache - {key}, cacheCount := count), ret)
      else (s.(cache := c, cacheCount := count), ret)
  }

  function Refreshed(s: State, key: Key): (State, bool) {
    if key !in s.cache then (s, false)
    else
      var e := s.cache[key];
      if e.ptr.Some? then (s.(cache := s.cache[key := e.(lastAccess := s.now)]), true)
      else
        var p := Lock(s.cache, s.outside, e.weak);
        if p.Some? then (s.(cache := s.cache[key := e.(ptr := p, lastAccess := s.now)], cacheCount := s.cacheCount + 1), true)
        else (s.(cache := s.cache - {key}), false)
  }

  // ---- sweep ----

  const MINIMUM_AGE: nat := 1_000_000_000  // one second, in ticks of the clock

  predicate WithinTarget(s: State) {
    s.targetSize == 0 || |s.cache| <= s.targetSize
  }

  /** Entries last used at or before this time are stale. */
  function Cutoff(s: State): int {
    if WithinTarget(s) then s.now - s.targetAge
    else
      var when := s.now - s.targetAge * s.targetSize / |s.cache|;
      if when > s.now - MINIMUM_AGE then s.now - MINIMUM_AGE else when
  }

  predicate Stale(e: Entry, cutoff: int) {
    e.ptr.Some? && e.lastAccess <= cutoff
  }

  /** Another key holds the object of `key` strongly, and is not stale. */
  ghost predicate KeptByOther(s: State, cutoff: int, o: Object) {
    exists k :: k in s.cache && s.cache[k].ptr == Some(o) && !Stale(s.cache[k], cutoff)
  }

  /** Whether the sweep may, or must, drop a key. */
  ghost predicate SweptEntry(s: State, cutoff: int, t: State, k: Key)
    requires k in s.cache
  {
    var e := s.cache[k];
    if e.ptr.None? then (k in t.cache <==> Lock(s.cache, s.outside, e.weak).Some?) && (k in t.cache ==> t.cache[k] == e)
    else if e.lastAccess > cutoff then k in t.cache && t.cache[k] == e
    else
      && (k in t.cache ==> t.cache[k] == e.(ptr := None))
      && (e.ptr.value in s.outside || KeptByOther(s, cutoff, e.ptr.value) ==> k in t.cache)
  }

  /** `key` held `o` strongly and is gone. */
  ghost predicate Dropped(s: State, cache: map<Key, Entry>, k: Key, o: Object) {
    k in s.cache && s.cache[k].ptr == Some(o) && k !in cache
  }

  /** Of the stale keys of an object that nothing else holds, exactly one is dropped. */
  ghost predicate OneDropped(s: State, cutoff: int, t: State, o: Object) {
    && (forall k, l :: Dropped(s, t.cache, k, o) && Dropped(s, t.cache, l, o) ==> k == l)
    && (Alive(s.cache, s.outside, o) && o !in s.outside && !KeptByOther(s, cutoff, o) ==> exists k :: Dropped(s, t.cache, k, o))
  }

  function StaleKeys(s: State, cutoff: int): set<Key> {
    set k | k in s.cache && Stale(s.cache[k], cutoff)
  }

  ghost predicate Swept(s: State, t: State) {
    && t == s.(cache := t.cache, cacheCount := s.cacheCount - |StaleKeys(s, Cutoff(s))|)
    && t.cache.Keys <= s.cache.Keys
    && (forall k :: k in s.cache ==> SweptEntry(s, Cutoff(s), t, k))
    && (forall o :: OneDropped(s, Cutoff(s), t, o))
  }
}
