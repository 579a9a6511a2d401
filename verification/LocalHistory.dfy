/** The local cache's past. */
module LocalHistory {
  // What the local cache promises, told from the operations alone (src/cache.rs): a hit is the row of the last
  // save for the same values since the scope's last change of generation, and a row saved recently enough is a
  // hit. Neither index tables nor the ledger appear in the statements.

  import opened Common
  import opened LocalCache

  // ------------------------------------------------------------- the past of a scope

  /** The generation the scope was last prepared for. */
  function CurrentGeneration(ops: seq<Op>, scope: nat): Option<nat> {
    if ops == [] then None
    else
      var last := ops[|ops| - 1];
      if last.Prepare? && last.scope == scope then Some(last.generation)
      else CurrentGeneration(ops[..|ops| - 1], scope)
  }

  /** Operation `j` prepares the scope for a generation it is not prepared for. */
  predicate Purges(ops: seq<Op>, j: nat, scope: nat)
    requires j < |ops|
  {
    ops[j].Prepare? && ops[j].scope == scope && CurrentGeneration(ops[..j], scope) != Some(ops[j].generation)
  }

  predicate Saves(op: Op, scope: nat, params: seq<Value>) {
    op.Save? && op.scope == scope && SameParams(op.params, params)
  }

  /** Operation `k` is the last save for the values in the scope, and the scope's generation has not changed since. */
  predicate LastSave(ops: seq<Op>, scope: nat, params: seq<Value>, k: nat) {
    && k < |ops| && Saves(ops[k], scope, params)
    && forall j :: k < j < |ops| ==> !Saves(ops[j], scope, params) && !Purges(ops, j, scope)
  }

  // ------------------------------------------------------------- the ledger, from the past

  lemma {:induction false} LedgerGeneration(ops: seq<Op>, scope: nat)
    ensures scope in History(ops).generations <==> CurrentGeneration(ops, scope).Some?
    ensures scope in History(ops).generations ==> CurrentGeneration(ops, scope) == Some(History(ops).generations[scope])
    decreases |ops|
  {
    if ops != [] {
      LedgerGeneration(ops[..|ops| - 1], scope);
    }
  }

  lemma LastSaveLater(front: seq<Op>, op: Op, scope: nat, params: seq<Value>, k: nat)
    requires k < |front|
    ensures LastSave(front + [op], scope, params, k) <==>
              LastSave(front, scope, params, k) && !Saves(op, scope, params) && !Purges(front + [op], |front|, scope)
  {
    var ops := front + [op];
    forall j | 0 <= j < |front|
      ensures ops[j] == front[j] && (Purges(ops, j, scope) <==> Purges(front, j, scope))
    {
      assert ops[..j] == front[..j];
    }
    assert ops[|front|] == op;
    if LastSave(ops, scope, params, k) {
      assert !Saves(ops[|front|], scope, params) && !Purges(ops, |front|, scope);
      forall j | k < j < |front|
        ensures !Saves(front[j], scope, params) && !Purges(front, j, scope)
      {
        assert !Saves(ops[j], scope, params) && !Purges(ops, j, scope);
      }
    }
  }

  /** What the last operation does to the record of one scope and its values. */
  lemma RecordOne(front: seq<Op>, op: Op, scope: nat, params: seq<Value>)
    requires AllKeyed(params)
    ensures var l, l', key := History(front), History(front + [op]), (scope, Keys(params));
            if Saves(op, scope, params) then key in l'.saved && l'.saved[key] == op.row
            else if Purges(front + [op], |front|, scope) then key !in l'.saved
            else (key in l'.saved <==> key in l.saved) && (key in l'.saved ==> l'.saved[key] == l.saved[key])
  {
    var ops := front + [op];
    assert ops[..|front|] == front;
    LedgerGeneration(front, scope);
    if op.Save? {
      SameParamsIff(op.params, params);
    }
  }

  /** The record holds for a scope and its values exactly the row of the last save. */
  lemma {:induction false} LedgerIsLastSave(ops: seq<Op>, scope: nat, params: seq<Value>)
    requires AllKeyed(params)
    ensures var saved, key := History(ops).saved, (scope, Keys(params));
            && (key in saved <==> exists k: nat :: LastSave(ops, scope, params, k))
            && forall k: nat :: LastSave(ops, scope, params, k) ==> key in saved && saved[key] == ops[k].row
    decreases |ops|
  {
    if ops != [] {
      var front, op := ops[..|ops| - 1], ops[|ops| - 1];
      assert ops == front + [op];
      LedgerIsLastSave(front, scope, params);
      RecordOne(front, op, scope, params);
      forall k: nat | k < |front|
        ensures LastSave(ops, scope, params, k) <==>
                  LastSave(front, scope, params, k) && !Saves(op, scope, params) && !Purges(ops, |front|, scope)
      {
        LastSaveLater(front, op, scope, params, k);
      }
      if Saves(op, scope, params) {
        assert LastSave(ops, scope, params, |front|);
      }
    }
  }

  /**
   Over every run the list stays within its capacity, and a hit on a scope whose generation the cache knows,
   that is, one prepared since the last reset, is exactly the row last saved for that scope and the same
   values since the scope's last generation change. For other scopes the same holds in every run in which no
   stored save is split by a reset.
   */
  lemma HitIsLastSaved(capacity: nat, ops: seq<Op>, scope: nat, params: seq<Value>)
    requires 0 < capacity
    ensures |Run(capacity, ops).lru| <= capacity
    ensures var c, hit := Run(capacity, ops), FetchScoped(Run(capacity, ops), scope, params);
            hit.Some? && (scope in c.generations || Unsplit(capacity, ops)) ==>
              exists k: nat :: LastSave(ops, scope, params, k) && hit.value == ops[k].row
  {
    HitIsRecorded(capacity, ops, scope, params);
    if AllKeyed(params) {
      LedgerIsLastSave(ops, scope, params);
    }
  }

  // ------------------------------------------------------- what is recent is found

  /** How many parameters the operations intern. */
  function ParamCount(ops: seq<Op>): nat {
    if ops == [] then 0
    else ParamCount(ops[..|ops| - 1]) + if ops[|ops| - 1].Save? then |ops[|ops| - 1].params| else 0
  }

  /** How many saves there are from operation `k` on. */
  function SavesFrom(ops: seq<Op>, k: nat): nat
    requires k <= |ops|
    decreases |ops|
  {
    if k == |ops| then 0
    else SavesFrom(ops[..|ops| - 1], k) + if ops[|ops| - 1].Save? then 1 else 0
  }

  /** The place of the key in the list; the length if it is missing. */
  function Place(lru: seq<Entry>, key: LocalKey): (p: nat)
    ensures p <= |lru|
  {
    if lru == [] then 0 else if lru[0].key == key then 0 else 1 + Place(lru[1..], key)
  }

  lemma {:induction false} PlaceWithout(lru: seq<Entry>, gone: LocalKey, key: LocalKey)
    requires gone != key
    ensures Place(Without(lru, gone), key) <= Place(lru, key) && Peek(Without(lru, gone), key) == Peek(lru, key)
  {
    if lru != [] {
      PlaceWithout(lru[1..], gone, key);
    }
  }

  lemma {:induction false} PlaceWithoutScope(lru: seq<Entry>, scope: nat, key: LocalKey)
    requires key.scope != scope
    ensures Place(WithoutScope(lru, scope), key) <= Place(lru, key)
    ensures Peek(WithoutScope(lru, scope), key) == Peek(lru, key)
  {
    if lru != [] {
      PlaceWithoutScope(lru[1..], scope, key);
    }
  }

  lemma {:induction false} PlaceInFront(lru: seq<Entry>, n: nat, key: LocalKey)
    requires Place(lru, key) < n <= |lru|
    ensures Place(lru[..n], key) == Place(lru, key) && Peek(lru[..n], key) == Peek(lru, key)
  {
    if lru[0].key != key {
      assert lru[..n][1..] == lru[1..][..n - 1];
      PlaceInFront(lru[1..], n - 1, key);
    }
  }

  lemma PlaceBehind(e: Entry, kept: seq<Entry>, key: LocalKey)
    requires e.key != key
    ensures Place([e] + kept, key) == 1 + Place(kept, key) && Peek([e] + kept, key) == Peek(kept, key)
  {
    assert ([e] + kept)[1..] == kept;
  }

  /** What a row put in front leaves of the others. */
  function Others(lru: seq<Entry>, capacity: nat, put: LocalKey): seq<Entry>
    requires 0 < capacity
  {
    var rest := Without(lru, put);
    if |rest| < capacity then rest else rest[..capacity - 1]
  }

  lemma OthersStay(lru: seq<Entry>, capacity: nat, put: LocalKey, key: LocalKey)
    requires put != key && Place(lru, key) + 1 < capacity && Peek(lru, key).Some?
    ensures var r := Others(lru, capacity, put); Place(r, key) <= Place(lru, key) && Peek(r, key) == Peek(lru, key)
  {
    var rest := Without(lru, put);
    PlaceWithout(lru, put, key);
    PlaceOfFound(rest, key);
    if |rest| >= capacity {
      PlaceInFront(rest, capacity - 1, key);
    }
  }

  lemma PutIs(lru: seq<Entry>, capacity: nat, put: LocalKey, row: Row)
    requires 0 < capacity
    ensures Put(lru, capacity, put, row) == [Entry(put, row)] + Others(lru, capacity, put)
  {
  }

  /** Another row put in front moves a row back by at most one place, and out only from the last. */
  lemma PlaceAfterPut(lru: seq<Entry>, capacity: nat, put: LocalKey, row: Row, key: LocalKey)
    requires put != key && Place(lru, key) + 1 < capacity && Peek(lru, key).Some?
    ensures var r := Put(lru, capacity, put, row);
            Place(r, key) <= Place(lru, key) + 1 && Peek(r, key) == Peek(lru, key)
  {
    OthersStay(lru, capacity, put, key);
    PutIs(lru, capacity, put, row);
    PlaceBehind(Entry(put, row), Others(lru, capacity, put), key);
  }

  lemma {:induction false} PlaceOfFound(lru: seq<Entry>, key: LocalKey)
    ensures Peek(lru, key).Some? <==> Place(lru, key) < |lru|
  {
    if lru != [] {
      PlaceOfFound(lru[1..], key);
    }
  }

  /** The row is in the list under the indices of the values, no deeper than `depth`. */
  ghost predicate Holding(c: Cache, scope: nat, params: seq<Value>, row: Row, depth: nat)
    requires AllKeyed(params)
  {
    exists idxs :: HoldingAt(c, scope, params, row, depth, idxs)
  }

  ghost predicate HoldingAt(c: Cache, scope: nat, params: seq<Value>, row: Row, depth: nat, idxs: seq<nat>)
    requires AllKeyed(params)
  {
    && Stands(c.order, idxs, Keys(params))
    && Peek(c.lru, LocalKey(scope, idxs)) == Some(row) && Place(c.lru, LocalKey(scope, idxs)) <= depth
  }

  /** While the table has room, interning changes nothing but the order. */
  lemma {:induction false} UpAllQuiet(c: Cache, params: seq<Value>)
    requires |c.order| + |params| <= MAX_LOCAL_IDX
    ensures var d := UpAll(c, params).0;
            !ResetsIn(c, params) && d == c.(order := d.order) && |d.order| <= |c.order| + |params|
    decreases |params|
  {
    if params != [] {
      UpAllQuiet(TryUpIdx(c, params[0]).0, params[1..]);
    }
  }

  /** While the table has room, the cache knows every scope's generation. */
  lemma {:induction false} RunQuiet(capacity: nat, ops: seq<Op>)
    requires 0 < capacity && ParamCount(ops) <= MAX_LOCAL_IDX
    ensures var c := Run(capacity, ops);
            && LocalCache.Interned(c) && |c.order| <= ParamCount(ops)
            && forall s :: Lookup(c.generations, s) == CurrentGeneration(ops, s)
    decreases |ops|
  {
    if ops != [] {
      var front, op := ops[..|ops| - 1], ops[|ops| - 1];
      RunQuiet(capacity, front);
      var c := Run(capacity, front);
      if op.Save? {
        UpAllQuiet(c, op.params);
        UpAllStands(c, op.params);
      }
    }
  }

  function Lookup(m: map<nat, nat>, s: nat): Option<nat> {
    if s in m then Some(m[s]) else None
  }

  /** The save itself puts its row first. */
  lemma SaveHolds(c: Cache, scope: nat, params: seq<Value>, saved: seq<Value>, row: Row)
    requires LocalCache.Interned(c) && 0 < c.capacity && |c.order| + |saved| <= MAX_LOCAL_IDX
    requires SameParams(saved, params) && AllKeyed(params)
    ensures Holding(SaveScoped(c, scope, saved, row), scope, params, row, 0)
  {
    SameParamsIff(saved, params);
    UpAllQuiet(c, saved);
    UpAllStands(c, saved);
    var (d, idxs) := UpAll(c, saved);
    assert HoldingAt(SaveScoped(c, scope, saved, row), scope, params, row, 0, Values(idxs));
  }

  /** A save for other values leaves it, one place further back at most. */
  lemma OtherSaveHolds(c: Cache, scope: nat, params: seq<Value>, row: Row, depth: nat, op: Op)
    requires LocalCache.Interned(c) && AllKeyed(params) && depth + 1 < c.capacity
    requires Holding(c, scope, params, row, depth)
    requires op.Save? && |c.order| + |op.params| <= MAX_LOCAL_IDX && !Saves(op, scope, params)
    ensures Holding(Apply(c, op), scope, params, row, depth + 1)
  {
    var idxs :| HoldingAt(c, scope, params, row, depth, idxs);
    var (d, found) := UpAll(c, op.params);
    UpAllQuiet(c, op.params);
    UpAllStands(c, op.params);
    StandsLonger(c.order, d.order, idxs, Keys(params));
    if AllSome(found) {
      SameParamsIff(op.params, params);
      var put := LocalKey(op.scope, Values(found));
      if op.scope == scope {
        StandsInjective(d.order, Values(found), idxs, Keys(op.params), Keys(params));
      }
      PlaceAfterPut(d.lru, d.capacity, put, op.row, LocalKey(scope, idxs));
    }
    assert HoldingAt(Apply(c, op), scope, params, row, depth + 1, idxs);
  }

  /** A preparation that does not purge the scope leaves it where it is. */
  lemma PrepareHolds(c: Cache, scope: nat, params: seq<Value>, row: Row, depth: nat, op: Op)
    requires 0 < c.capacity && AllKeyed(params) && Holding(c, scope, params, row, depth)
    requires op.Prepare? && (op.scope == scope ==> Lookup(c.generations, scope) == Some(op.generation))
    ensures Holding(Apply(c, op), scope, params, row, depth)
  {
    var idxs :| HoldingAt(c, scope, params, row, depth, idxs);
    if op.scope != scope {
      PlaceWithoutScope(c.lru, op.scope, LocalKey(scope, idxs));
    }
    assert HoldingAt(Apply(c, op), scope, params, row, depth, idxs);
  }

  lemma {:induction false} RecentHolds(capacity: nat, ops: seq<Op>, scope: nat, params: seq<Value>, k: nat)
    requires AllKeyed(params) && ParamCount(ops) <= MAX_LOCAL_IDX
    requires LastSave(ops, scope, params, k) && SavesFrom(ops, k + 1) < capacity
    ensures Holding(Run(capacity, ops), scope, params, ops[k].row, SavesFrom(ops, k + 1))
    decreases |ops|
  {
    var front, op := ops[..|ops| - 1], ops[|ops| - 1];
    var c := Run(capacity, front);
    assert ops == front + [op];
    RunQuiet(capacity, front);
    if k == |front| {
      SaveHolds(c, scope, params, op.params, op.row);
    } else {
      LastSaveLater(front, op, scope, params, k);
      RecentHolds(capacity, front, scope, params, k);
      if op.Save? {
        OtherSaveHolds(c, scope, params, ops[k].row, SavesFrom(front, k + 1), op);
      } else {
        assert ops[..|front|] == front;
        PrepareHolds(c, scope, params, ops[k].row, SavesFrom(front, k + 1), op);
      }
    }
  }

  lemma HeldIsHit(c: Cache, scope: nat, params: seq<Value>, row: Row, depth: nat)
    requires LocalCache.Interned(c) && AllKeyed(params) && Holding(c, scope, params, row, depth)
    ensures FetchScoped(c, scope, params) == Some(row)
  {
    var idxs :| HoldingAt(c, scope, params, row, depth, idxs);
    var found := GetAll(c, params);
    forall i | 0 <= i < |params|
      ensures found[i] == Some(idxs[i])
    {
      IndexIsPosition(c.order, Keys(params)[i], idxs[i]);
    }
    assert Values(found) == idxs;
  }

  /**
   A row saved for some values is found by whoever asks for the same values, as long as fewer saves than the
   cache has room for have followed, the scope's generation has not changed and the index tables have not been
   reset.
   */
  lemma RecentIsHit(capacity: nat, ops: seq<Op>, scope: nat, params: seq<Value>, k: nat)
    requires ParamCount(ops) <= MAX_LOCAL_IDX && LastSave(ops, scope, params, k) && SavesFrom(ops, k + 1) < capacity
    ensures FetchScoped(Run(capacity, ops), scope, params) == Some(ops[k].row)
  {
    SameParamsIff(ops[k].params, params);
    RecentHolds(capacity, ops, scope, params, k);
    RunQuiet(capacity, ops);
    HeldIsHit(Run(capacity, ops), scope, params, ops[k].row, SavesFrom(ops, k + 1));
  }
}
