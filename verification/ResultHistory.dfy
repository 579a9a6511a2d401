/** The result cache's past. */
module ResultHistory {
  // A saved response is there for whoever asks the same, as long as fewer saves than the cache has room for have
  // followed and nothing has emptied the cache or dropped the entry (src/runtime.rs).

  import opened Common
  import opened ResultCache
  import opened ResultSettings

  // ---------------------------------------------------------------------- the list

  /** The place of the key in the list; the length if it is missing. */
  function Place(cache: seq<Cached>, key: Key): (p: nat)
    ensures p <= |cache|
  {
    if cache == [] then 0 else if cache[0].key == key then 0 else 1 + Place(cache[1..], key)
  }

  /** The key's entry is the one given, and no deeper than `depth`. */
  ghost predicate HeldAt(cache: seq<Cached>, e: Cached, depth: nat) {
    Find(cache, e.key) == Some(e) && Place(cache, e.key) <= depth
  }

  lemma {:induction false} PlaceFound(cache: seq<Cached>, key: Key)
    ensures Find(cache, key).Some? <==> Place(cache, key) < |cache|
  {
    if cache != [] {
      PlaceFound(cache[1..], key);
    }
  }

  lemma {:induction false} DropHolds(cache: seq<Cached>, e: Cached, depth: nat, gone: Key)
    requires HeldAt(cache, e, depth) && gone != e.key
    ensures HeldAt(Drop(cache, gone), e, depth)
    decreases |cache|
  {
    if cache != [] && cache[0].key != e.key {
      DropHolds(cache[1..], e, depth - 1, gone);
    }
  }

  lemma {:induction false} FrontHolds(cache: seq<Cached>, e: Cached, depth: nat, n: nat)
    requires HeldAt(cache, e, depth) && depth < n <= |cache|
    ensures HeldAt(cache[..n], e, depth)
    decreases n
  {
    if cache[0].key != e.key {
      assert cache[..n][1..] == cache[1..][..n - 1];
      FrontHolds(cache[1..], e, depth - 1, n - 1);
    }
  }

  /** Another entry put in front moves an entry back by at most one place, and out only from the last. */
  lemma PutHolds(cache: seq<Cached>, capacity: nat, put: Cached, e: Cached, depth: nat)
    requires HeldAt(cache, e, depth) && put.key != e.key && depth + 1 < capacity
    ensures HeldAt(Put(cache, capacity, put), e, depth + 1)
  {
    var rest := Drop(cache, put.key);
    DropHolds(cache, e, depth, put.key);
    var kept := if |rest| < capacity then rest else rest[..capacity - 1];
    if |rest| >= capacity {
      FrontHolds(rest, e, depth, capacity - 1);
    }
    assert ([put] + kept)[1..] == kept;
  }

  // ------------------------------------------------------------------------ the run

  /** The key of the query that the action moves. */
  ghost function KeyOf(s: State, a: Action): Key
    requires (a.Save? || a.PopExpired?) && Enabled(s, a)
  {
    KeyFor(s.queries[a.id].handle, s.queries[a.id].req)
  }

  /** The action takes the key's entry out: it empties the cache, drops the entry or replaces it. */
  ghost predicate Removes(s: State, a: Action, key: Key)
    requires Enabled(s, a)
  {
    a.ResetCache? || ((a.Save? || a.PopExpired?) && KeyOf(s, a) == key)
  }

  ghost predicate Keeps(run: seq<State>, acts: seq<Action>, i: nat, key: Key)
    requires i < |acts| && i < |run|
  {
    Enabled(run[i], acts[i]) && !Removes(run[i], acts[i], key)
  }

  function Saves(acts: seq<Action>, i: nat, n: nat): nat
    requires i <= n <= |acts|
  {
    if i == n then 0 else Saves(acts, i, n - 1) + if acts[n - 1].Save? then 1 else 0
  }

  lemma HoldsStep(s: State, a: Action, e: Cached, depth: nat)
    requires Enabled(s, a) && 0 < s.cacheCapacity && !Removes(s, a, e.key) && HeldAt(s.cache, e, depth)
    requires a.Save? ==> depth + 1 < s.cacheCapacity
    ensures Effect(s, a).cacheCapacity == s.cacheCapacity
    ensures HeldAt(Effect(s, a).cache, e, if a.Save? then depth + 1 else depth)
  {
    if a.Save? {
      var q := s.queries[a.id];
      PutHolds(s.cache, s.cacheCapacity, Cached(KeyOf(s, a), q.response, s.now), e, depth);
    } else if a.PopExpired? {
      DropHolds(s.cache, e, depth, KeyOf(s, a));
    }
  }

  lemma {:induction false} HeldFrom(run: seq<State>, capacity: nat, acts: seq<Action>, i: nat, n: nat, e: Cached)
    requires Trace(run, capacity, acts) && i <= n <= |acts| && HeldAt(run[i].cache, e, 0)
    requires forall j :: i <= j < n ==> Keeps(run, acts, j, e.key)
    requires Saves(acts, i, n) < run[i].cacheCapacity
    ensures run[n].cacheCapacity == run[i].cacheCapacity && HeldAt(run[n].cache, e, Saves(acts, i, n))
    decreases n
  {
    if i < n {
      HeldFrom(run, capacity, acts, i, n - 1, e);
      assert TraceStep(run, acts, n - 1) && Keeps(run, acts, n - 1, e.key);
      HoldsStep(run[n - 1], acts[n - 1], e, Saves(acts, i, n - 1));
    }
  }

  /**
   What a query saved is found under its key, as it was saved, until that many other saves have followed as the
   cache has room for, unless the cache was emptied or the entry dropped or replaced.
   */
  lemma SavedIsFound(run: seq<State>, capacity: nat, acts: seq<Action>, i: nat, n: nat)
    requires Trace(run, capacity, acts) && i < n <= |acts| && acts[i].Save? && Enabled(run[i], acts[i])
    requires var key := KeyOf(run[i], acts[i]); forall j :: i < j < n ==> Keeps(run, acts, j, key)
    requires Saves(acts, i + 1, n) < run[i].cacheCapacity
    ensures var key := KeyOf(run[i], acts[i]);
            Find(run[n].cache, key) == Some(Cached(key, run[i].queries[acts[i].id].response, run[i].now))
  {
    assert TraceStep(run, acts, i);
    var key := KeyOf(run[i], acts[i]);
    HeldFrom(run, capacity, acts, i + 1, n, Cached(key, run[i].queries[acts[i].id].response, run[i].now));
  }
}
