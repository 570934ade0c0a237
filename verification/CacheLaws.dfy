/** What each operation of the cache does, said of the state before it (TaggedCache.h). */
module CacheLaws {
  import opened Options
  import opened CacheState
  import opened CacheRuns

  /** Every other key keeps its entry. */
  ghost predicate OthersKept(s: State, t: State, key: Key) {
    forall k :: k != key ==> (k in t.cache <==> k in s.cache) && (k in s.cache ==> t.cache[k] == s.cache[k])
  }

  /** Some pointer other than the one of `key` holds `o`. */
  ghost predicate HeldElsewhere(s: State, key: Key, o: Object) {
    o in s.outside || exists k :: k in s.cache && k != key && s.cache[k].ptr == Some(o)
  }

  /** A key has an object exactly when something holds the target of its weak pointer: the caller, this entry or another. */
  lemma ObjectIsHeld(s: State, key: Key)
    requires Accounted(s)
    ensures HasObject(s, key) <==>
            && key in s.cache && s.cache[key].weak.Some?
            && (s.cache[key].ptr.Some? || HeldElsewhere(s, key, s.cache[key].weak.value))
  {
    hide Strong;
    if key in s.cache && s.cache[key].ptr.None? && s.cache[key].weak.Some? {
      AliveThroughOthers(s.cache, s.outside, key, s.cache[key].weak.value);
    }
  }

  /** An object that `key` does not hold is alive through some other pointer. */
  lemma AliveThroughOthers(c: map<Key, Entry>, outside: multiset<Object>, key: Key, o: Object)
    requires key in c && c[key].ptr != Some(o)
    ensures Alive(c, outside, o) <==> o in outside || exists k :: k in c && k != key && c[k].ptr == Some(o)
  {}

  /**
   * `fetch` returns the object of the key exactly when there is one, and leaves it cached as of now; otherwise no entry is
   * left. A cached object is a hit, nothing to return is a miss, and an object that only others held is neither.
   */
  lemma FetchLaw(s: State, key: Key)
    requires Accounted(s)
    ensures var (t, p) := Fetched(s, key);
            && (p.Some? <==> HasObject(s, key))
            && (p.Some? ==> key in s.cache && p == s.cache[key].weak && key in t.cache && t.cache[key] == Entry(p, p, s.now))
            && (p.None? ==> key !in t.cache)
            && OthersKept(s, t, key)
            && t.hits == s.hits + One(key in s.cache && s.cache[key].ptr.Some?)
            && t.misses == s.misses + One(p.None?)
            && t.outside == (if p.Some? then s.outside + multiset{p.value} else s.outside)
            && t == s.(cache := t.cache, cacheCount := t.cacheCount, hits := t.hits, misses := t.misses, outside := t.outside)
  {
    hide Alive, Strong;
  }

  /**
   * `canonicalize` hands back the object of the key when there is one and it is not to be replaced, and the caller's
   * otherwise; that is then cached as of now. The flag tells whether the key had an object.
   */
  lemma CanonicalizeLaw(s: State, key: Key, data: Option<Object>, replace: bool)
    requires Accounted(s)
    ensures var (t, p, found) := Canonicalized(s, key, data, replace);
            && (found <==> HasObject(s, key))
            && p == (if !replace && HasObject(s, key) then s.cache[key].weak else data)
            && key in t.cache && t.cache[key] == Entry(p, p, s.now)
            && OthersKept(s, t, key)
            && t.outside == (if !replace && HasObject(s, key)
                             then (if data.Some? then s.outside - multiset{data.value} else s.outside)
                                  + multiset{s.cache[key].weak.value}
                             else s.outside)
            && t == s.(cache := t.cache, cacheCount := t.cacheCount, outside := t.outside)
  {
    hide Alive, Strong;
  }

  /**
   * `del` keeps the key exactly when its object is valid and held by something other than its own strong pointer, which it
   * drops. The flag tells whether there was one.
   */
  lemma DeleteLaw(s: State, key: Key, valid: bool)
    requires Accounted(s)
    ensures var (t, was) := Deleted(s, key, valid);
            && (was <==> key in s.cache && s.cache[key].ptr.Some?)
            && (key in t.cache <==> valid && key in s.cache && s.cache[key].weak.Some?
                                    && HeldElsewhere(s, key, s.cache[key].weak.value))
            && (key in t.cache ==> t.cache[key] == Entry(None, s.cache[key].weak, s.cache[key].lastAccess))
            && OthersKept(s, t, key)
            && t == s.(cache := t.cache, cacheCount := t.cacheCount)
  {
    hide Alive, Strong;
    if key in s.cache && s.cache[key].weak.Some? {
      var c := s.cache[key := s.cache[key].(ptr := None)];
      var o := s.cache[key].weak.value;
      AliveThroughOthers(c, s.outside, key, o);
      forall k ensures k in c && k != key && c[k].ptr == Some(o) <==> k in s.cache && k != key && s.cache[k].ptr == Some(o) {
        assert k != key ==> (k in c <==> k in s.cache);
      }
    }
  }

  /** What was deleted as invalid is not fetched again, even while someone holds it. */
  lemma InvalidIsGone(s: State, key: Key)
    requires Accounted(s)
    ensures Fetched(Deleted(s, key, false).0, key).1 == None
  {
    hide Deleted, Fetched, OthersKept;
    DeletedAccounted(s, key, false);
    DeleteLaw(s, key, false);
    FetchLaw(Deleted(s, key, false).0, key);
  }

  /** `refreshIfPresent` caches the object of the key as of now when there is one, and leaves no entry otherwise. */
  lemma RefreshLaw(s: State, key: Key)
    requires Accounted(s)
    ensures var (t, found) := Refreshed(s, key);
            && (found <==> HasObject(s, key))
            && (found ==> key in s.cache && key in t.cache
                          && t.cache[key] == Entry(s.cache[key].weak, s.cache[key].weak, s.now))
            && (!found ==> key !in t.cache)
            && OthersKept(s, t, key)
            && t == s.(cache := t.cache, cacheCount := t.cacheCount)
  {
    hide Alive, Strong;
  }

  /** A sweep frees exactly the objects that only stale entries hold. */
  lemma SweptAlive(s: State, t: State, o: Object)
    requires Swept(s, t)
    ensures Alive(t.cache, t.outside, o) <==>
            o in s.outside || exists k :: k in s.cache && s.cache[k].ptr == Some(o) && s.cache[k].lastAccess > Cutoff(s)
  {
    hide Cutoff, OneDropped, KeptByOther, StaleKeys, Lock;
    forall k | k in s.cache ensures SweptEntry(s, Cutoff(s), t, k) {}
  }

  /** It leaves no entry whose object was dead before, and keeps every weak entry whose object was alive. */
  lemma SweptWeak(s: State, t: State, key: Key)
    requires Accounted(s) && Swept(s, t) && key in s.cache && s.cache[key].ptr.None?
    ensures if HasObject(s, key) then key in t.cache && t.cache[key] == s.cache[key] else key !in t.cache
  {
    hide Cutoff, OneDropped, KeptByOther, StaleKeys, Lock;
    assert SweptEntry(s, Cutoff(s), t, key);
  }

  // ---- cached entries over runs ----

  ghost predicate Cached(s: State, key: Key, o: Object) {
    key in s.cache && s.cache[key].ptr == Some(o)
  }

  /** The operations that take the object of `key` out of the cache, or put another in its place. */
  predicate TakesOut(a: Action, key: Key) {
    || a.Clear? || a.Reset?
    || (a.Delete? && a.key == key)
    || (a.Canonicalize? && a.key == key && a.replace)
  }

  /** A sweep in this state would not find the entry of `key` stale. */
  ghost predicate FreshIn(s: State, key: Key) {
    key in s.cache ==> s.cache[key].lastAccess > Cutoff(s)
  }

  lemma StepCached(s: State, a: Action, t: State, key: Key, o: Object)
    requires Step(s, a, t) && Cached(s, key, o) && !TakesOut(a, key) && (a.Sweep? ==> FreshIn(s, key))
    ensures Cached(t, key, o)
    ensures a == Fetch(key) ==> Fetched(s, key).1 == Some(o) && t.hits == s.hits + 1 && t.misses == s.misses
    ensures a.Canonicalize? && a.key == key ==> Canonicalized(s, key, a.data, a.replace).1 == Some(o)
  {
    hide Cutoff, OneDropped, KeptByOther, StaleKeys, Lock, Held, Released;
    if a.Sweep? {
      assert SweptEntry(s, Cutoff(s), t, key);
    }
  }

  /**
   * An object in the cache that no sweep finds stale, and that nothing takes out, is returned by every fetch of its key as a
   * hit, and by every canonicalize, whoever else holds it.
   */
  lemma {:induction false} RunCached(states: seq<State>, actions: seq<Action>, key: Key, o: Object, n: nat)
    requires Run(states, actions) && n < |states| && Cached(states[0], key, o)
    requires forall i :: 0 <= i < |actions| ==> !TakesOut(actions[i], key) && (actions[i].Sweep? ==> FreshIn(states[i], key))
    ensures Cached(states[n], key, o)
    ensures n < |actions| && actions[n] == Fetch(key) ==>
              Fetched(states[n], key).1 == Some(o) && states[n + 1].hits == states[n].hits + 1
    ensures n < |actions| && actions[n].Canonicalize? && actions[n].key == key ==>
              Canonicalized(states[n], key, actions[n].data, actions[n].replace).1 == Some(o)
  {
    hide Step, Cached, Fetched, Canonicalized, FreshIn;
    if n > 0 {
      RunCached(states, actions, key, o, n - 1);
      StepCached(states[n - 1], actions[n - 1], states[n], key, o);
    }
    if n < |actions| {
      StepCached(states[n], actions[n], states[n + 1], key, o);
    }
  }
}
