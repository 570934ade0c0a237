/** What holds in every state of a tagged cache, and over every run (TaggedCache.h). */
module CacheRuns {
  import opened Options
  import opened CacheState

  // ---- accounting ----

  function Strong(cache: map<Key, Entry>): set<Key> {
    set k | k in cache && cache[k].ptr.Some?
  }

  /** The count is the number of strong entries, and a strong pointer and its weak companion have one target. */
  ghost predicate Accounted(s: State) {
    && s.cacheCount == |Strong(s.cache)|
    && forall k :: k in s.cache && s.cache[k].ptr.Some? ==> s.cache[k].ptr == s.cache[k].weak
  }

  function One(b: bool): int {
    if b then 1 else 0
  }

  lemma StrongUpdate(c: map<Key, Entry>, k: Key, e: Entry)
    ensures |Strong(c[k := e])| == |Strong(c)| + One(e.ptr.Some?) - One(k in c && c[k].ptr.Some?)
  {
    StrongWithout(c, k);
    StrongWithout(c[k := e], k);
    assert Strong(c[k := e]) - {k} == Strong(c) - {k};
  }

  lemma StrongWithout(c: map<Key, Entry>, k: Key)
    ensures |Strong(c)| == |Strong(c) - {k}| + One(k in c && c[k].ptr.Some?)
  {
    if k in Strong(c) {
      assert Strong(c) == Strong(c) - {k} + {k};
    } else {
      assert Strong(c) == Strong(c) - {k};
    }
  }

  lemma StrongRemove(c: map<Key, Entry>, k: Key)
    requires k in c
    ensures |Strong(c - {k})| == |Strong(c)| - One(c[k].ptr.Some?)
  {
    StrongWithout(c, k);
    assert Strong(c - {k}) == Strong(c) - {k};
  }

  lemma FetchedAccounted(s: State, key: Key)
    requires Accounted(s)
    ensures Accounted(Fetched(s, key).0)
  {
    if key in s.cache {
      StrongUpdate(s.cache, key, s.cache[key].(lastAccess := s.now));
      StrongUpdate(s.cache, key, s.cache[key].(ptr := Lock(s.cache, s.outside, s.cache[key].weak), lastAccess := s.now));
      StrongRemove(s.cache, key);
    }
  }

  /** A live object is in the map under `key`. */
  ghost predicate HasObject(s: State, key: Key) {
    key in s.cache && (s.cache[key].ptr.Some? || Lock(s.cache, s.outside, s.cache[key].weak).Some?)
  }

  /** `canonicalize` keeps the accounting exactly when it does not store a null pointer. */
  lemma CanonicalizedAccounted(s: State, key: Key, data: Option<Object>, replace: bool)
    requires Accounted(s)
    ensures Accounted(Canonicalized(s, key, data, replace).0) <==> data.Some? || (!replace && HasObject(s, key))
  {
    hide Alive, Strong;
    StrongUpdate(s.cache, key, Entry(data, data, s.now));
    if key in s.cache {
      StrongUpdate(s.cache, key, s.cache[key].(lastAccess := s.now));
      StrongUpdate(s.cache, key, s.cache[key].(ptr := data, weak := data, lastAccess := s.now));
      StrongUpdate(s.cache, key, s.cache[key].(ptr := Lock(s.cache, s.outside, s.cache[key].weak), lastAccess := s.now));
    }
  }

  /** Storing a null pointer under a new key counts an object that is not there. */
  lemma NullIsCounted()
    ensures var s := State(map[], 0, 0, 0, 0, 0, multiset{}, {}, 0);
            Accounted(s) && !Accounted(Canonicalized(s, 0, None, false).0)
  {
    var s := State(map[], 0, 0, 0, 0, 0, multiset{}, {}, 0);
    assert Strong(s.cache) == {};
    CanonicalizedAccounted(s, 0, None, false);
  }

  lemma DeletedAccounted(s: State, key: Key, valid: bool)
    requires Accounted(s)
    ensures Accounted(Deleted(s, key, valid).0)
  {
    if key in s.cache {
      StrongUpdate(s.cache, key, s.cache[key].(ptr := None));
      StrongRemove(s.cache, key);
    }
  }

  lemma RefreshedAccounted(s: State, key: Key)
    requires Accounted(s)
    ensures Accounted(Refreshed(s, key).0)
  {
    if key in s.cache {
      StrongUpdate(s.cache, key, s.cache[key].(lastAccess := s.now));
      StrongUpdate(s.cache, key, s.cache[key].(ptr := Lock(s.cache, s.outside, s.cache[key].weak), lastAccess := s.now));
      StrongRemove(s.cache, key);
    }
  }

  /** After a sweep the strong entries are exactly those that were strong and newer than the cutoff. */
  lemma SweptStrong(s: State, t: State)
    requires Swept(s, t)
    ensures Strong(t.cache) == Strong(s.cache) - StaleKeys(s, Cutoff(s))
    ensures |Strong(t.cache)| == |Strong(s.cache)| - |StaleKeys(s, Cutoff(s))|
  {
    hide Cutoff, OneDropped;
    var stale := StaleKeys(s, Cutoff(s));
    forall k | k in s.cache ensures k in Strong(t.cache) <==> k in Strong(s.cache) - stale {
      assert SweptEntry(s, Cutoff(s), t, k);
    }
    assert Strong(t.cache) == Strong(s.cache) - stale;
    assert stale <= Strong(s.cache);
  }

  lemma SweptAccounted(s: State, t: State)
    requires Accounted(s) && Swept(s, t)
    ensures Accounted(t)
  {
    hide Cutoff, OneDropped, Lock, StaleKeys, Strong;
    SweptStrong(s, t);
    forall k | k in t.cache && t.cache[k].ptr.Some? ensures t.cache[k].ptr == t.cache[k].weak {
      assert SweptEntry(s, Cutoff(s), t, k);
    }
  }

  /** A sweep never loses track of an object that is held outside. */
  lemma SweptKeepsHeld(s: State, t: State, k: Key)
    requires Swept(s, t) && Accounted(s) && k in s.cache && s.cache[k].weak.Some? && s.cache[k].weak.value in s.outside
    ensures k in t.cache && t.cache[k].weak == s.cache[k].weak
  {
    hide Cutoff, OneDropped;
    assert SweptEntry(s, Cutoff(s), t, k);
  }

  /** Two stale keys of one object: whichever is visited first goes, and the other stays as an entry of a dead object. */
  lemma DeadEntryStays(t: State)
    requires var e := Entry(Some(7), Some(7), 0);
             Swept(State(map[0 := e, 1 := e], 2, 0, 0, 0, 0, multiset{}, {7}, 5), t)
    ensures (0 in t.cache) != (1 in t.cache) && !Alive(t.cache, t.outside, 7)
    ensures forall k :: k in t.cache ==> t.cache[k] == Entry(None, Some(7), 0)
  {
    hide Cutoff, StaleKeys;
    var e := Entry(Some(7), Some(7), 0);
    var s := State(map[0 := e, 1 := e], 2, 0, 0, 0, 0, multiset{}, {7}, 5);
    CutoffAge(s, 0);
    assert SweptEntry(s, Cutoff(s), t, 0) && SweptEntry(s, Cutoff(s), t, 1);
    assert OneDropped(s, Cutoff(s), t, 7);
    assert s.cache[0].ptr == Some(7);
    assert Dropped(s, t.cache, 0, 7) <==> 0 !in t.cache;
    assert Dropped(s, t.cache, 1, 7) <==> 1 !in t.cache;
  }

  /** Whatever fetch, canonicalize or refresh hands out or finds is cached under its key, as of now. */
  lemma UsedIsCurrent(s: State, key: Key, data: Option<Object>, replace: bool)
    requires Accounted(s)
    ensures var (t, p) := Fetched(s, key); p.Some? ==> key in t.cache && t.cache[key] == Entry(p, p, s.now)
    ensures var (t, p, _) := Canonicalized(s, key, data, replace); key in t.cache && t.cache[key] == Entry(p, p, s.now)
    ensures var (t, found) := Refreshed(s, key);
            if found then key in t.cache && t.cache[key] == Entry(t.cache[key].weak, t.cache[key].weak, s.now)
            else key !in t.cache
  {
    hide Alive, Held, Released;
  }

  /**
   * How old an entry is when the sweep takes it: the target age within the target size; over it, the target age in the
   * proportion of the two sizes, and at least a second.
   */
  lemma CutoffAge(s: State, used: int)
    ensures used <= Cutoff(s) <==>
            var age := s.now - used;
            if WithinTarget(s) then age >= s.targetAge
            else age >= 1_000_000_000 && (age + 1) * |s.cache| > s.targetAge * s.targetSize
  {
    if !WithinTarget(s) {
      Reaches(s.targetAge * s.targetSize, |s.cache|, s.now - used);
    }
  }

  lemma Reaches(x: nat, n: nat, age: int)
    requires n > 0
    ensures age >= x / n <==> (age + 1) * n > x
  {
    var q, r := x / n, x % n;
    assert x == n * q + r;
    if age >= q {
      Scales(q + 1, age + 1, n);
    } else {
      Scales(age + 1, q, n);
    }
  }

  lemma Scales(a: int, b: int, n: nat)
    requires a <= b
    ensures a * n <= b * n
  {}

  /** A larger map never keeps entries longer, exactly when it was over its target before or the target age is a second. */
  lemma CutoffGrows(s: State, t: State)
    requires |s.cache| <= |t.cache| && t == s.(cache := t.cache)
    ensures Cutoff(s) <= Cutoff(t) <==> !WithinTarget(s) || WithinTarget(t) || s.targetAge >= MINIMUM_AGE
  {
    var x := s.targetAge * s.targetSize;
    if !WithinTarget(t) {
      Proportion(s.targetAge, s.targetSize, |t.cache|);
      if !WithinTarget(s) {
        Shrinks(x, |s.cache|, |t.cache|);
      }
    }
  }

  lemma Proportion(age: nat, size: nat, n: nat)
    requires size <= n && n > 0
    ensures 0 <= age * size / n <= age
  {
    Scales(size, n, age);
    Reaches(age * size, n, age);
    assert (age + 1) * n == age * n + n;
  }

  lemma Shrinks(x: nat, m: nat, n: nat)
    requires 0 < m <= n
    ensures x / n <= x / m
  {
    Scales(m, n, x / m + 1);
    Reaches(x, m, x / m);
    Reaches(x, n, x / m);
  }

  /** With a target age of 0, an entry used this instant is stale in a map within its target size and not in one over it. */
  lemma ShortAgeGrows(e: Entry)
    ensures var s := State(map[0 := e], 1, 0, 0, 1, 0, multiset{}, {}, 5);
            Cutoff(s) == 5 && Cutoff(s.(cache := map[0 := e, 1 := e])) < 5
  {
    assert |map[0 := e, 1 := e]| == 2;
  }

  /** A sweep leaves alone what was used within both the target age and the last second. */
  lemma RecentSurvives(s: State, t: State, key: Key)
    requires Swept(s, t) && key in s.cache && s.cache[key].ptr.Some?
    requires s.now - s.cache[key].lastAccess < s.targetAge && s.now - s.cache[key].lastAccess < MINIMUM_AGE
    ensures key in t.cache && t.cache[key] == s.cache[key]
  {
    hide OneDropped, KeptByOther, StaleKeys, Lock;
    assert SweptEntry(s, Cutoff(s), t, key);
  }

  // ---- runs ----

  datatype Action =
    | Fetch(key: Key)
    | Canonicalize(key: Key, data: Option<Object>, replace: bool)
    | Delete(key: Key, valid: bool)
    | Refresh(key: Key)
    | Sweep
    | Clear
    | Reset
    | SetTargets(size: nat, age: nat)
    | Create(object: Object)
    | Copy(object: Object)
    | Drop(object: Object)
    | Tick(time: nat)

  /** One operation of the cache, or one event outside it. */
  ghost predicate Step(s: State, a: Action, t: State) {
    match a
    case Fetch(key) => t == Fetched(s, key).0
    case Canonicalize(key, data, replace) =>
      (data.Some? ==> data.value in s.outside) && t == Canonicalized(s, key, data, replace).0
    case Delete(key, valid) => t == Deleted(s, key, valid).0
    case Refresh(key) => t == Refreshed(s, key).0
    case Sweep => Swept(s, t)
    case Clear => t == s.(cache := map[], cacheCount := 0)
    case Reset => t == s.(cache := map[], cacheCount := 0, hits := 0, misses := 0)
    case SetTargets(size, age) => t == s.(targetSize := size, targetAge := age)
    case Create(o) => o !in s.born && t == s.(born := s.born + {o}, outside := s.outside + multiset{o})
    case Copy(o) => o in s.outside && t == s.(outside := s.outside + multiset{o})
    case Drop(o) => o in s.outside && t == s.(outside := s.outside - multiset{o})
    case Tick(d) => t == s.(now := s.now + d)
  }

  ghost predicate Run(states: seq<State>, actions: seq<Action>) {
    |states| == |actions| + 1 && forall i :: 0 <= i < |actions| ==> Step(states[i], actions[i], states[i + 1])
  }

  /** Callers pass real objects to `canonicalize`. */
  predicate NonNull(a: Action) {
    a.Canonicalize? ==> a.data.Some?
  }

  lemma StepAccounted(s: State, a: Action, t: State)
    requires Accounted(s) && Step(s, a, t) && NonNull(a)
    ensures Accounted(t)
  {
    hide Swept, Accounted, Lock, Fetched, Canonicalized, Deleted, Refreshed;
    match a
    case Fetch(key) => FetchedAccounted(s, key);
    case Canonicalize(key, data, replace) => CanonicalizedAccounted(s, key, data, replace);
    case Delete(key, valid) => DeletedAccounted(s, key, valid);
    case Refresh(key) => RefreshedAccounted(s, key);
    case Sweep => SweptAccounted(s, t);
    case _ => OthersAccounted(s, t);
  }

  lemma OthersAccounted(s: State, t: State)
    requires Accounted(s) && ((t.cache == s.cache && t.cacheCount == s.cacheCount) || (t.cache == map[] && t.cacheCount == 0))
    ensures Accounted(t)
  {
    if t.cache == map[] {
      assert Strong(t.cache) == {};
    }
  }

  /** In every state of every run with non-null data the count is the number of strong entries. */
  lemma {:induction false} RunAccounted(states: seq<State>, actions: seq<Action>, n: nat)
    requires Run(states, actions) && n < |states| && Accounted(states[0])
    requires forall i :: 0 <= i < |actions| ==> NonNull(actions[i])
    ensures Accounted(states[n])
  {
    hide Step, Accounted;
    if n > 0 {
      RunAccounted(states, actions, n - 1);
      StepAccounted(states[n - 1], actions[n - 1], states[n]);
    }
  }

  // ---- one object per key ----

  /** `o` is the object of `key`, strong or weak. */
  ghost predicate Canonical(s: State, key: Key, o: Object) {
    && key in s.cache && s.cache[key].weak == Some(o)
    && (s.cache[key].ptr.Some? ==> s.cache[key].ptr == Some(o))
  }

  /** The operations that give up the object of `key` on purpose. */
  predicate GivesUp(a: Action, key: Key) {
    || a.Clear? || a.Reset?
    || (a.Delete? && a.key == key && !a.valid)
    || (a.Canonicalize? && a.key == key && a.replace)
  }

  lemma HeldLocks(s: State, e: Entry, o: Object)
    requires e.weak == Some(o) && o in s.outside
    ensures Lock(s.cache, s.outside, e.weak) == Some(o)
  {}

  lemma FetchedCanonical(s: State, k: Key, key: Key, o: Object)
    requires Canonical(s, key, o) && o in s.outside
    ensures Canonical(Fetched(s, k).0, key, o) && (k == key ==> Fetched(s, k).1 == Some(o))
  {
    HeldLocks(s, s.cache[key], o);
  }

  /** `canonicalize` leaves the other keys alone. */
  lemma CanonicalizedElsewhere(s: State, k: Key, data: Option<Object>, replace: bool, key: Key)
    requires key != k && key in s.cache
    ensures var t := Canonicalized(s, k, data, replace).0; key in t.cache && t.cache[key] == s.cache[key]
  {
    hide Lock, Held, Released;
  }

  lemma CanonicalizedHere(s: State, key: Key, data: Option<Object>, o: Object)
    requires Canonical(s, key, o) && o in s.outside
    ensures Canonical(Canonicalized(s, key, data, false).0, key, o)
    ensures Canonicalized(s, key, data, false).1 == Some(o) && Canonicalized(s, key, data, false).2
  {
    HeldLocks(s, s.cache[key], o);
    hide Lock, Held, Released;
  }

  lemma CanonicalizedCanonical(s: State, k: Key, data: Option<Object>, replace: bool, key: Key, o: Object)
    requires Canonical(s, key, o) && o in s.outside && (k == key ==> !replace)
    ensures Canonical(Canonicalized(s, k, data, replace).0, key, o)
    ensures k == key ==> Canonicalized(s, k, data, false).1 == Some(o) && Canonicalized(s, k, data, false).2
  {
    hide Canonicalized;
    if k == key {
      CanonicalizedHere(s, key, data, o);
    } else {
      CanonicalizedElsewhere(s, k, data, replace, key);
    }
  }

  lemma RefreshedCanonical(s: State, k: Key, key: Key, o: Object)
    requires Canonical(s, key, o) && o in s.outside
    ensures Canonical(Refreshed(s, k).0, key, o)
  {
    HeldLocks(s, s.cache[key], o);
  }

  lemma SweptCanonical(s: State, t: State, key: Key, o: Object)
    requires Canonical(s, key, o) && o in s.outside && Swept(s, t)
    ensures Canonical(t, key, o)
  {
    hide Cutoff, OneDropped, KeptByOther, StaleKeys;
    HeldLocks(s, s.cache[key], o);
    assert SweptEntry(s, Cutoff(s), t, key);
  }

  lemma SameCanonical(s: State, t: State, key: Key, o: Object)
    requires Canonical(s, key, o) && t.cache == s.cache
    ensures Canonical(t, key, o)
  {}

  lemma StepCanonical(s: State, a: Action, t: State, key: Key, o: Object)
    requires Step(s, a, t) && Canonical(s, key, o) && o in s.outside && !GivesUp(a, key)
    ensures Canonical(t, key, o)
    ensures a == Fetch(key) ==> Fetched(s, key).1 == Some(o)
    ensures a.Canonicalize? && a.key == key ==>
      Canonicalized(s, key, a.data, false).1 == Some(o) && Canonicalized(s, key, a.data, false).2
  {
    hide Canonical, Fetched, Canonicalized, Deleted, Refreshed, Swept;
    match a
    case Fetch(k) => FetchedCanonical(s, k, key, o);
    case Canonicalize(k, data, replace) => CanonicalizedCanonical(s, k, data, replace, key, o);
    case Delete(k, valid) => DeletedCanonical(s, k, valid, key, o);
    case Refresh(k) => RefreshedCanonical(s, k, key, o);
    case Sweep => SweptCanonical(s, t, key, o);
    case _ => SameCanonical(s, t, key, o);
  }

  lemma DeletedCanonical(s: State, k: Key, valid: bool, key: Key, o: Object)
    requires Canonical(s, key, o) && o in s.outside && (k == key ==> valid)
    ensures Canonical(Deleted(s, k, valid).0, key, o)
  {}

  /**
   * While someone outside holds the object of a key, and nothing gives it up on purpose, every fetch and every
   * non-replacing canonicalize of the key returns that object, through any sweeps, deletions, refreshes and clock steps.
   */
  lemma {:induction false} RunCanonical(states: seq<State>, actions: seq<Action>, key: Key, o: Object, n: nat)
    requires Run(states, actions) && n < |states| && Canonical(states[0], key, o)
    requires forall i :: 0 <= i < |states| ==> o in states[i].outside
    requires forall i :: 0 <= i < |actions| ==> !GivesUp(actions[i], key)
    ensures Canonical(states[n], key, o)
    ensures n < |actions| && actions[n] == Fetch(key) ==> Fetched(states[n], key).1 == Some(o)
    ensures n < |actions| && actions[n].Canonicalize? && actions[n].key == key ==>
      Canonicalized(states[n], key, actions[n].data, false).1 == Some(o)
          && Canonicalized(states[n], key, actions[n].data, false).2
  {
    hide Step, Canonical, Fetched, Canonicalized;
    if n > 0 {
      RunCanonical(states, actions, key, o, n - 1);
      StepCanonical(states[n - 1], actions[n - 1], states[n], key, o);
    }
    if n < |actions| {
      StepCanonical(states[n], actions[n], states[n + 1], key, o);
    }
  }

  // ---- dead objects stay dead ----

  ghost predicate Born(s: State, p: Option<Object>) {
    p.Some? ==> p.value in s.born
  }

  /** Every pointer, strong or weak, inside or outside, is to an object that was created. */
  ghost predicate Known(s: State) {
    && (forall o :: o in s.outside ==> o in s.born)
    && (forall k :: k in s.cache ==> Born(s, s.cache[k].ptr) && Born(s, s.cache[k].weak))
  }

  ghost predicate Dead(s: State, o: Object) {
    o in s.born && !Alive(s.cache, s.outside, o)
  }

  lemma FetchedKnown(s: State, key: Key)
    requires Known(s)
    ensures Known(Fetched(s, key).0)
  {}

  /** The pointers `canonicalize` leaves are the caller's and those of the entry. */
  lemma CanonicalizedPointers(s: State, key: Key, data: Option<Object>, replace: bool)
    ensures var (t, p, _) := Canonicalized(s, key, data, replace);
            && t.born == s.born && t.cache.Keys == s.cache.Keys + {key}
            && (p == data || (key in s.cache && (p == s.cache[key].ptr || p == s.cache[key].weak)))
            && (t.outside == s.outside || t.outside == Held(Released(s.outside, data), p))
            && (t.cache[key].ptr == p || t.cache[key].ptr == data)
            && (t.cache[key].weak == data || (key in s.cache && t.cache[key].weak == s.cache[key].weak))
  {
    hide Alive, Held, Released;
  }

  lemma HoldersKnown(s: State, data: Option<Object>, p: Option<Object>)
    requires Known(s) && Born(s, p)
    ensures forall o :: o in Held(Released(s.outside, data), p) ==> o in s.born
  {}

  lemma CanonicalizedKnown(s: State, key: Key, data: Option<Object>, replace: bool)
    requires Known(s) && Born(s, data)
    ensures Known(Canonicalized(s, key, data, replace).0)
  {
    hide Canonicalized, Held, Released;
    var (t, p, _) := Canonicalized(s, key, data, replace);
    CanonicalizedPointers(s, key, data, replace);
    HoldersKnown(s, data, p);
    forall k | k in t.cache ensures Born(t, t.cache[k].ptr) && Born(t, t.cache[k].weak) {
      if k != key {
        CanonicalizedElsewhere(s, key, data, replace, k);
      }
    }
  }

  lemma DeletedKnown(s: State, key: Key, valid: bool)
    requires Known(s)
    ensures Known(Deleted(s, key, valid).0)
  {}

  lemma RefreshedKnown(s: State, key: Key)
    requires Known(s)
    ensures Known(Refreshed(s, key).0)
  {}

  lemma SweptKnown(s: State, t: State)
    requires Known(s) && Swept(s, t)
    ensures Known(t)
  {
    hide Cutoff, OneDropped, KeptByOther, StaleKeys, Lock;
    forall k | k in t.cache ensures Born(t, t.cache[k].ptr) && Born(t, t.cache[k].weak) {
      assert SweptEntry(s, Cutoff(s), t, k);
    }
  }

  lemma OthersKnown(s: State, a: Action, t: State)
    requires Known(s) && Step(s, a, t)
    requires !a.Fetch? && !a.Canonicalize? && !a.Delete? && !a.Refresh? && !a.Sweep?
    ensures Known(t)
  {
    hide Fetched, Canonicalized, Deleted, Refreshed, Swept;
  }

  lemma StepKnown(s: State, a: Action, t: State)
    requires Known(s) && Step(s, a, t)
    ensures Known(t)
  {
    hide Fetched, Canonicalized, Deleted, Refreshed, Swept;
    match a
    case Fetch(key) => FetchedKnown(s, key);
    case Canonicalize(key, data, replace) => CanonicalizedKnown(s, key, data, replace);
    case Delete(key, valid) => DeletedKnown(s, key, valid);
    case Refresh(key) => RefreshedKnown(s, key);
    case Sweep => SweptKnown(s, t);
    case _ => OthersKnown(s, a, t);
  }

  lemma FetchedDead(s: State, key: Key, o: Object)
    requires Known(s) && Dead(s, o)
    ensures Dead(Fetched(s, key).0, o)
  {}

  /** What `canonicalize` hands out was alive. */
  lemma CanonicalizedAlive(s: State, key: Key, data: Option<Object>, replace: bool, o: Object)
    requires !Alive(s.cache, s.outside, o) && data != Some(o)
    ensures Canonicalized(s, key, data, replace).1 != Some(o)
  {
    hide Held, Released;
  }

  lemma CanonicalizedDead(s: State, key: Key, data: Option<Object>, replace: bool, o: Object)
    requires Known(s) && Dead(s, o) && (data.Some? ==> data.value in s.outside)
    ensures Dead(Canonicalized(s, key, data, replace).0, o)
  {
    hide Canonicalized;
    var (t, p, _) := Canonicalized(s, key, data, replace);
    CanonicalizedPointers(s, key, data, replace);
    CanonicalizedAlive(s, key, data, replace, o);
    forall k | k in t.cache ensures t.cache[k].ptr != Some(o) {
      if k != key {
        CanonicalizedElsewhere(s, key, data, replace, k);
      }
    }
  }

  lemma DeletedDead(s: State, key: Key, valid: bool, o: Object)
    requires Known(s) && Dead(s, o)
    ensures Dead(Deleted(s, key, valid).0, o)
  {}

  lemma RefreshedDead(s: State, key: Key, o: Object)
    requires Known(s) && Dead(s, o)
    ensures Dead(Refreshed(s, key).0, o)
  {}

  lemma SweptDead(s: State, t: State, o: Object)
    requires Dead(s, o) && Swept(s, t)
    ensures Dead(t, o)
  {
    hide Cutoff, OneDropped, KeptByOther, StaleKeys, Lock;
    forall k | k in t.cache ensures t.cache[k].ptr != Some(o) {
      assert SweptEntry(s, Cutoff(s), t, k);
    }
  }

  lemma OthersDead(s: State, a: Action, t: State, o: Object)
    requires Known(s) && Dead(s, o) && Step(s, a, t)
    requires !a.Fetch? && !a.Canonicalize? && !a.Delete? && !a.Refresh? && !a.Sweep?
    ensures Dead(t, o)
  {
    hide Fetched, Canonicalized, Deleted, Refreshed, Swept;
  }

  /** An object whose last pointer is gone never comes back, from a weak entry or otherwise. */
  lemma StepDead(s: State, a: Action, t: State, o: Object)
    requires Known(s) && Step(s, a, t) && Dead(s, o)
    ensures Dead(t, o)
  {
    hide Fetched, Canonicalized, Deleted, Refreshed, Swept, Known, Dead;
    match a
    case Fetch(key) => FetchedDead(s, key, o);
    case Canonicalize(key, data, replace) => CanonicalizedDead(s, key, data, replace, o);
    case Delete(key, valid) => DeletedDead(s, key, valid, o);
    case Refresh(key) => RefreshedDead(s, key, o);
    case Sweep => SweptDead(s, t, o);
    case _ => OthersDead(s, a, t, o);
  }

  lemma {:induction false} RunDead(states: seq<State>, actions: seq<Action>, o: Object, m: nat, n: nat)
    requires Run(states, actions) && m <= n < |states| && Known(states[0]) && Dead(states[m], o)
    ensures Dead(states[n], o)
    decreases n
  {
    hide Step, Known, Dead;
    if m < n {
      RunDead(states, actions, o, m, n - 1);
      RunKnown(states, actions, n - 1);
      StepDead(states[n - 1], actions[n - 1], states[n], o);
    }
  }

  lemma {:induction false} RunKnown(states: seq<State>, actions: seq<Action>, n: nat)
    requires Run(states, actions) && n < |states| && Known(states[0])
    ensures Known(states[n])
  {
    hide Step, Known;
    if n > 0 {
      RunKnown(states, actions, n - 1);
      StepKnown(states[n - 1], actions[n - 1], states[n]);
    }
  }
}
