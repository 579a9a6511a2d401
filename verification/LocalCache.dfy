/** The local cache as a value. */
module LocalCache {
  // The meaning of the local query cache (src/cache.rs): parameter values are interned to
  // indices, results are kept in a bounded recency list under index tuples, and a scope's
  // results go when its generation changes. Operations are functions on a value; the class in
  // FieldQueryCache.dfy performs them in place.

  import opened Common

  /** When this many values have been interned, the next interning starts over. */
  const MAX_LOCAL_IDX: nat := 100_000

  datatype TextKind = Symbol | Time | Hex | IpNet | Domain | Url | Email | IdCard | MobilePhone

  datatype Value =
    | Chars(text: string)
    | Int(i: int)
    | IpAddr(ip: int)
    | BigUint(n: nat)
    | Bool(b: bool)
    | Float(bits: int)
    | Textual(kind: TextKind, rendered: string) // kept by its `to_string`
    | Null
    | Ignore
    | Obj(repr: string)
    | Array(repr: string)

  /** The typed identity of a parameter: one constructor per index table. */
  datatype ParamKey =
    | KStr(s: string)
    | KInt(i: int)
    | KIp(ip: int)
    | KBig(n: nat)
    | KBool(b: bool)
    | KFloat(bits: int)
    | KText(t: string)

  /** Null, ignored, object and array values have no index. */
  function KeyOf(v: Value): Option<ParamKey> {
    match v
    case Chars(s) => Some(KStr(s))
    case Int(i) => Some(KInt(i))
    case IpAddr(ip) => Some(KIp(ip))
    case BigUint(n) => Some(KBig(n))
    case Bool(b) => Some(KBool(b))
    case Float(bits) => Some(KFloat(bits))
    case Textual(_, t) => Some(KText(t))
    case _ => None
  }

  /**
   What it means for two parameters to be the same: equal and of the same type, or equal texts of the
   textual types.
   */
  predicate SameValue(v: Value, w: Value) {
    match (v, w)
    case (Chars(s), Chars(t)) => s == t
    case (Int(i), Int(j)) => i == j
    case (IpAddr(a), IpAddr(b)) => a == b
    case (BigUint(m), BigUint(n)) => m == n
    case (Bool(a), Bool(b)) => a == b
    case (Float(x), Float(y)) => x == y
    case (Textual(_, s), Textual(_, t)) => s == t
    case _ => false
  }

  predicate SameParams(p: seq<Value>, q: seq<Value>) {
    |p| == |q| && forall k :: 0 <= k < |p| ==> SameValue(p[k], q[k])
  }

  /** Keys are equal for the same values and for no others. */
  lemma KeyOfIsSameValue(v: Value, w: Value)
    ensures KeyOf(v).Some? && KeyOf(v) == KeyOf(w) <==> SameValue(v, w)
  {
  }

  /** Null, ignored, object and array values have no key, and no others. */
  lemma KeyedIffIndexed(v: Value)
    ensures KeyOf(v).None? <==> v.Null? || v.Ignore? || v.Obj? || v.Array?
  {
  }

  datatype LocalKey = LocalKey(scope: nat, idxs: seq<nat>)

  datatype Entry = Entry(key: LocalKey, row: Row)

  /** `order[i]` is the value interned as index `i + 1`; `lru` has the most recent entry first. */
  datatype Cache = Cache(capacity: nat, order: seq<ParamKey>, lru: seq<Entry>, generations: map<nat, nat>)

  function Empty(capacity: nat): Cache {
    Cache(capacity, [], [], map[])
  }

  // ------------------------------------------------------------ the recency list

  function Without(lru: seq<Entry>, key: LocalKey): (r: seq<Entry>)
    ensures |r| <= |lru|
    ensures forall e :: e in r <==> e in lru && e.key != key
  {
    if lru == [] then []
    else if lru[0].key == key then Without(lru[1..], key)
    else [lru[0]] + Without(lru[1..], key)
  }

  /** Insert or replace in front; a full list drops its least recent entry. */
  function Put(lru: seq<Entry>, capacity: nat, key: LocalKey, row: Row): (r: seq<Entry>)
    requires 0 < capacity
    ensures r != [] && r[0] == Entry(key, row)
    ensures |lru| <= capacity ==> |r| <= capacity
    ensures forall e :: e in r ==> e == Entry(key, row) || (e in lru && e.key != key)
  {
    var rest := Without(lru, key);
    [Entry(key, row)] + if |rest| < capacity then rest else rest[..capacity - 1]
  }

  function Peek(lru: seq<Entry>, key: LocalKey): (r: Option<Row>)
    ensures r.Some? ==> Entry(key, r.value) in lru
    ensures r.None? ==> forall e :: e in lru ==> e.key != key
  {
    if lru == [] then None else if lru[0].key == key then Some(lru[0].row) else Peek(lru[1..], key)
  }

  function WithoutScope(lru: seq<Entry>, scope: nat): (r: seq<Entry>)
    ensures |r| <= |lru|
    ensures forall e :: e in r <==> e in lru && e.key.scope != scope
  {
    if lru == [] then []
    else if lru[0].key.scope == scope then WithoutScope(lru[1..], scope)
    else [lru[0]] + WithoutScope(lru[1..], scope)
  }

  // ------------------------------------------------------------------- interning

  function IndexIn(order: seq<ParamKey>, k: ParamKey): (r: Option<nat>)
    ensures r.Some? <==> k in order
    ensures r.Some? ==> 1 <= r.value <= |order| && order[r.value - 1] == k
  {
    if order == [] then None
    else if order[|order| - 1] == k then Some(|order|)
    else IndexIn(order[..|order| - 1], k)
  }

  function GetIdx(c: Cache, v: Value): Option<nat> {
    match KeyOf(v)
    case None => None
    case Some(k) => IndexIn(c.order, k)
  }

  /** The whole-cache reset at the cap. */
  function MaybeReset(c: Cache): Cache {
    if |c.order| >= MAX_LOCAL_IDX then Empty(c.capacity) else c
  }

  function TryUpIdx(c: Cache, v: Value): (Cache, Option<nat>) {
    var d := MaybeReset(c);
    match KeyOf(v)
    case None => (d, None)
    case Some(k) =>
      var found := IndexIn(d.order, k);
      if found.Some? then (d, found) else (d.(order := d.order + [k]), Some(|d.order| + 1))
  }

  /** All parameters are interned, left to right, whether or not an earlier one had no index. */
  function UpAll(c: Cache, params: seq<Value>): (r: (Cache, seq<Option<nat>>))
    ensures |r.1| == |params| && r.0.capacity == c.capacity
    decreases |params|
  {
    if params == [] then (c, [])
    else
      var (d, i) := TryUpIdx(c, params[0]);
      var (e, idxs) := UpAll(d, params[1..]);
      (e, [i] + idxs)
  }

  predicate AllSome(idxs: seq<Option<nat>>) {
    forall k :: 0 <= k < |idxs| ==> idxs[k].Some?
  }

  function Values(idxs: seq<Option<nat>>): (r: seq<nat>)
    requires AllSome(idxs)
    ensures |r| == |idxs| && forall k :: 0 <= k < |r| ==> r[k] == idxs[k].value
  {
    seq(|idxs|, k requires 0 <= k < |idxs| => idxs[k].value)
  }

  function SaveScoped(c: Cache, scope: nat, params: seq<Value>, row: Row): Cache
    requires 0 < c.capacity
  {
    var (d, idxs) := UpAll(c, params);
    if AllSome(idxs) then d.(lru := Put(d.lru, d.capacity, LocalKey(scope, Values(idxs)), row)) else d
  }

  function GetAll(c: Cache, params: seq<Value>): (r: seq<Option<nat>>)
    ensures |r| == |params|
  {
    seq(|params|, k requires 0 <= k < |params| => GetIdx(c, params[k]))
  }

  function FetchScoped(c: Cache, scope: nat, params: seq<Value>): Option<Row> {
    var idxs := GetAll(c, params);
    if AllSome(idxs) then Peek(c.lru, LocalKey(scope, Values(idxs))) else None
  }

  function PrepareGeneration(c: Cache, scope: nat, generation: nat): Cache {
    if scope in c.generations && c.generations[scope] == generation then c
    else c.(generations := c.generations[scope := generation], lru := WithoutScope(c.lru, scope))
  }

  // -------------------------------------------- interning is stable and injective

  ghost predicate DistinctKeys(order: seq<ParamKey>) {
    forall i, j :: 0 <= i < j < |order| ==> order[i] != order[j]
  }

  lemma {:induction false} IndexIsPosition(order: seq<ParamKey>, k: ParamKey, i: nat)
    requires DistinctKeys(order) && 1 <= i <= |order| && order[i - 1] == k
    ensures IndexIn(order, k) == Some(i)
    decreases |order|
  {
    if order[|order| - 1] != k {
      IndexIsPosition(order[..|order| - 1], k, i);
    }
  }

  /** An index given to a value is the one found for it later, until a reset. */
  lemma IndexStays(order: seq<ParamKey>, longer: seq<ParamKey>, k: ParamKey)
    requires order <= longer && DistinctKeys(longer) && k in order
    ensures IndexIn(longer, k) == IndexIn(order, k)
  {
    var i := IndexIn(order, k).value;
    IndexIsPosition(longer, k, i);
  }

  lemma LastIsFound(order: seq<ParamKey>, k: ParamKey)
    ensures IndexIn(order + [k], k) == Some(|order| + 1)
  {
  }

  lemma FoundAfter(order: seq<ParamKey>, k: ParamKey, m: ParamKey)
    ensures IndexIn(order + [k], m) == if m == k then Some(|order| + 1) else IndexIn(order, m)
  {
    assert (order + [k])[..|order|] == order;
  }

  lemma AllFoundAfter(order: seq<ParamKey>, k: ParamKey)
    ensures forall m :: IndexIn(order + [k], m) == if m == k then Some(|order| + 1) else IndexIn(order, m)
  {
    forall m
      ensures IndexIn(order + [k], m) == if m == k then Some(|order| + 1) else IndexIn(order, m)
    {
      FoundAfter(order, k, m);
    }
  }

  lemma NewKeepsDistinct(order: seq<ParamKey>, k: ParamKey)
    requires DistinctKeys(order) && k !in order
    ensures DistinctKeys(order + [k])
  {
  }

  /** One interning keeps the values distinct and the cap, and the lookup agrees with it. */
  lemma UpKeepsDistinct(c: Cache, v: Value)
    requires DistinctKeys(c.order) && |c.order| <= MAX_LOCAL_IDX
    ensures var (d, i) := TryUpIdx(c, v);
            && DistinctKeys(d.order) && |d.order| <= MAX_LOCAL_IDX
            && GetIdx(d, v) == i
  {
    var d := MaybeReset(c);
    if KeyOf(v).Some? && KeyOf(v).value !in d.order {
      NewKeepsDistinct(d.order, KeyOf(v).value);
      LastIsFound(d.order, KeyOf(v).value);
    }
  }

  /** One interning, keeping track of the index handed out for each value since the last reset. */
  function IssueOne(c: Cache, issued: map<ParamKey, nat>, v: Value): (Cache, map<ParamKey, nat>) {
    var kept := if |c.order| >= MAX_LOCAL_IDX then map[] else issued;
    var (d, i) := TryUpIdx(c, v);
    (d, if i.Some? && KeyOf(v).Some? then kept[KeyOf(v).value := i.value] else kept)
  }

  /** What a run of internings has handed out since the last reset, by value. */
  function Issued(c: Cache, vs: seq<Value>): (Cache, map<ParamKey, nat>) {
    if vs == [] then (c, map[])
    else
      var (d, issued) := Issued(c, vs[..|vs| - 1]);
      IssueOne(d, issued, vs[|vs| - 1])
  }

  /** The indices handed out are those the table holds. */
  ghost predicate Agrees(order: seq<ParamKey>, issued: map<ParamKey, nat>) {
    && DistinctKeys(order) && |order| <= MAX_LOCAL_IDX
    && (forall k :: k in issued <==> k in order)
    && (forall k :: k in issued ==> IndexIn(order, k) == Some(issued[k]))
  }

  lemma IssueNew(order: seq<ParamKey>, issued: map<ParamKey, nat>, k: ParamKey)
    requires Agrees(order, issued) && k !in order && |order| < MAX_LOCAL_IDX
    ensures Agrees(order + [k], issued[k := |order| + 1])
  {
    NewKeepsDistinct(order, k);
    LastIsFound(order, k);
    forall m | m in order
      ensures IndexIn(order + [k], m) == IndexIn(order, m)
    {
      IndexStays(order, order + [k], m);
    }
  }

  lemma IssueOld(order: seq<ParamKey>, issued: map<ParamKey, nat>, k: ParamKey)
    requires Agrees(order, issued) && k in order
    ensures issued[k := IndexIn(order, k).value] == issued
  {
  }

  lemma ResetAgrees(order: seq<ParamKey>, issued: map<ParamKey, nat>)
    requires Agrees(order, issued)
    ensures Agrees(if |order| >= MAX_LOCAL_IDX then [] else order, if |order| >= MAX_LOCAL_IDX then map[] else issued)
  {
  }

  /** The order and the indices after one interning, case by case. */
  lemma IssueShape(c: Cache, issued: map<ParamKey, nat>, v: Value)
    ensures var (d, next) := IssueOne(c, issued, v);
            var order, kept := MaybeReset(c).order, if |c.order| >= MAX_LOCAL_IDX then map[] else issued;
            match KeyOf(v)
            case None => d.order == order && next == kept
            case Some(k) =>
              if k in order then d.order == order && next == kept[k := IndexIn(order, k).value]
              else d.order == order + [k] && next == kept[k := |order| + 1]
  {
  }

  lemma IssueKeepsAgreement(c: Cache, issued: map<ParamKey, nat>, v: Value)
    requires Agrees(c.order, issued)
    ensures var (d, next) := IssueOne(c, issued, v); Agrees(d.order, next)
  {
    IssueShape(c, issued, v);
    ResetAgrees(c.order, issued);
    IssueCases(MaybeReset(c).order, if |c.order| >= MAX_LOCAL_IDX then map[] else issued, KeyOf(v));
  }

  lemma IssueCases(order: seq<ParamKey>, kept: map<ParamKey, nat>, key: Option<ParamKey>)
    requires Agrees(order, kept) && |order| < MAX_LOCAL_IDX
    ensures key.Some? ==>
              if key.value in order then Agrees(order, kept[key.value := IndexIn(order, key.value).value])
              else Agrees(order + [key.value], kept[key.value := |order| + 1])
  {
    if key.Some? {
      if key.value in order {
        IssueOld(order, kept, key.value);
      } else {
        IssueNew(order, kept, key.value);
      }
    }
  }

  /**
   After any run of internings, looking a value up gives exactly the index last handed out for
   it since the last reset, and nothing for values not interned since.
   */
  lemma {:induction false} GetAgreesWithUp(capacity: nat, vs: seq<Value>)
    ensures var (c, issued) := Issued(Empty(capacity), vs); Agrees(c.order, issued)
    decreases |vs|
  {
    if vs != [] {
      var front := vs[..|vs| - 1];
      GetAgreesWithUp(capacity, front);
      var (d, issued) := Issued(Empty(capacity), front);
      IssueKeepsAgreement(d, issued, vs[|vs| - 1]);
    }
  }

  // ------------------------------------------------------------- a map of results

  /** What has been saved, by scope and typed parameter values, since each scope's last generation change. */
  datatype Ledger = Ledger(saved: map<(nat, seq<ParamKey>), Row>, generations: map<nat, nat>)

  const EMPTY_LEDGER := Ledger(map[], map[])

  predicate AllKeyed(params: seq<Value>) {
    forall k :: 0 <= k < |params| ==> KeyOf(params[k]).Some?
  }

  function Keys(params: seq<Value>): (r: seq<ParamKey>)
    requires AllKeyed(params)
    ensures |r| == |params| && forall k :: 0 <= k < |r| ==> r[k] == KeyOf(params[k]).value
  {
    seq(|params|, k requires 0 <= k < |params| => KeyOf(params[k]).value)
  }

  lemma SameParamsIff(p: seq<Value>, q: seq<Value>)
    ensures SameParams(p, q) <==> AllKeyed(p) && AllKeyed(q) && Keys(p) == Keys(q)
  {
    if AllKeyed(p) && AllKeyed(q) && Keys(p) == Keys(q) {
      forall k | 0 <= k < |p|
        ensures SameValue(p[k], q[k])
      {
        assert Keys(p)[k] == Keys(q)[k];
      }
    }
    if SameParams(p, q) {
      forall k | 0 <= k < |p|
        ensures KeyOf(p[k]).Some? && KeyOf(p[k]) == KeyOf(q[k])
      {
        KeyOfIsSameValue(p[k], q[k]);
      }
    }
  }

  datatype Op =
    | Save(scope: nat, params: seq<Value>, row: Row)
    | Prepare(scope: nat, generation: nat)

  function Apply(c: Cache, op: Op): (d: Cache)
    requires 0 < c.capacity
    ensures d.capacity == c.capacity
  {
    match op
    case Save(scope, params, row) => SaveScoped(c, scope, params, row)
    case Prepare(scope, generation) => PrepareGeneration(c, scope, generation)
  }

  function Record(l: Ledger, op: Op): Ledger {
    match op
    case Save(scope, params, row) =>
      if AllKeyed(params) then l.(saved := l.saved[(scope, Keys(params)) := row]) else l
    case Prepare(scope, generation) =>
      if scope in l.generations && l.generations[scope] == generation then l
      else Ledger(map k | k in l.saved && k.0 != scope :: l.saved[k], l.generations[scope := generation])
  }

  function RunFrom(c: Cache, ops: seq<Op>): (d: Cache)
    requires 0 < c.capacity
    ensures d.capacity == c.capacity
  {
    if ops == [] then c else Apply(RunFrom(c, ops[..|ops| - 1]), ops[|ops| - 1])
  }

  function Run(capacity: nat, ops: seq<Op>): (c: Cache)
    requires 0 < capacity
    ensures c.capacity == capacity
  {
    RunFrom(Empty(capacity), ops)
  }

  function HistoryFrom(l: Ledger, ops: seq<Op>): Ledger {
    if ops == [] then l else Record(HistoryFrom(l, ops[..|ops| - 1]), ops[|ops| - 1])
  }

  function History(ops: seq<Op>): Ledger {
    HistoryFrom(EMPTY_LEDGER, ops)
  }

  /** The table is full when one of `params` is about to be interned. */
  predicate ResetsIn(c: Cache, params: seq<Value>)
    decreases |params|
  {
    params != [] && (|c.order| >= MAX_LOCAL_IDX || ResetsIn(TryUpIdx(c, params[0]).0, params[1..]))
  }

  /** A reset fires on a parameter other than the first, so the key would mix old and new indices. */
  predicate ResetsMidway(c: Cache, params: seq<Value>) {
    params != [] && ResetsIn(TryUpIdx(c, params[0]).0, params[1..])
  }

  /** The save leaves a key behind whose indices come from both sides of a reset. */
  predicate MixesKeys(c: Cache, op: Op) {
    op.Save? && AllKeyed(op.params) && ResetsMidway(c, op.params)
  }

  // ------------------------------------------------------------------ refinement

  /** The values an index tuple stands for. */
  ghost predicate Stands(order: seq<ParamKey>, idxs: seq<nat>, keys: seq<ParamKey>) {
    && |idxs| == |keys|
    && forall k :: 0 <= k < |idxs| ==> 1 <= idxs[k] <= |order| && order[idxs[k] - 1] == keys[k]
  }

  /** A cached entry is the last result recorded for its scope and the values its indices stand for. */
  ghost predicate Recorded(order: seq<ParamKey>, l: Ledger, e: Entry) {
    exists keys :: Stands(order, e.key.idxs, keys) && (e.key.scope, keys) in l.saved
      && l.saved[(e.key.scope, keys)] == e.row
  }

  ghost predicate Interned(c: Cache) {
    DistinctKeys(c.order) && |c.order| <= MAX_LOCAL_IDX
  }

  ghost predicate Sound(c: Cache, l: Ledger) {
    && Interned(c)
    && 0 < c.capacity && |c.lru| <= c.capacity
    && (forall e :: e in c.lru ==> Recorded(c.order, l, e))
    && (forall s :: s in c.generations ==> s in l.generations && l.generations[s] == c.generations[s])
  }

  lemma StandsLonger(order: seq<ParamKey>, longer: seq<ParamKey>, idxs: seq<nat>, keys: seq<ParamKey>)
    requires order <= longer && Stands(order, idxs, keys)
    ensures Stands(longer, idxs, keys)
  {
  }

  lemma SoundLonger(c: Cache, d: Cache, l: Ledger)
    requires Sound(c, l) && Interned(d) && c.order <= d.order
    requires d.lru == c.lru && d.generations == c.generations && d.capacity == c.capacity
    ensures Sound(d, l)
  {
    forall e | e in d.lru
      ensures Recorded(d.order, l, e)
    {
      var keys :| Stands(c.order, e.key.idxs, keys) && (e.key.scope, keys) in l.saved
          && l.saved[(e.key.scope, keys)] == e.row;
      StandsLonger(c.order, d.order, e.key.idxs, keys);
    }
  }

  /** Interning one value keeps soundness, reset or not. */
  lemma UpKeepsSound(c: Cache, l: Ledger, v: Value)
    requires Sound(c, l)
    ensures Sound(TryUpIdx(c, v).0, l)
  {
    var d := MaybeReset(c);
    var e := TryUpIdx(c, v).0;
    UpKeepsDistinct(c, v);
    assert Sound(d, l);
    SoundLonger(d, e, l);
  }

  lemma {:induction false} UpAllKeepsSound(c: Cache, l: Ledger, params: seq<Value>)
    requires Sound(c, l)
    ensures Sound(UpAll(c, params).0, l)
    decreases |params|
  {
    if params != [] {
      UpKeepsSound(c, l, params[0]);
      UpAllKeepsSound(TryUpIdx(c, params[0]).0, l, params[1..]);
    }
  }

  lemma StandsCons(order: seq<ParamKey>, i: nat, idxs: seq<nat>, k: ParamKey, keys: seq<ParamKey>)
    requires 1 <= i <= |order| && order[i - 1] == k && Stands(order, idxs, keys)
    ensures Stands(order, [i] + idxs, [k] + keys)
  {
  }

  lemma ValuesCons(i: Option<nat>, rest: seq<Option<nat>>)
    requires i.Some? && AllSome(rest) && AllSome([i] + rest)
    ensures Values([i] + rest) == [i.value] + Values(rest)
  {
  }

  lemma KeysCons(params: seq<Value>)
    requires params != [] && AllKeyed(params) && AllKeyed(params[1..])
    ensures Keys(params) == [KeyOf(params[0]).value] + Keys(params[1..])
  {
  }

  /** Without a reset on it, one interning only extends the order, and its index stands for the value. */
  lemma UpStands(c: Cache, v: Value)
    requires Interned(c) && |c.order| < MAX_LOCAL_IDX
    ensures var (d, i) := TryUpIdx(c, v);
            && Interned(d) && c.order <= d.order
            && (i.Some? <==> KeyOf(v).Some?)
            && (i.Some? ==> 1 <= i.value <= |d.order| && d.order[i.value - 1] == KeyOf(v).value)
  {
    UpKeepsDistinct(c, v);
  }

  /** Without a reset the order only grows and every index found stands for its parameter's value. */
  lemma {:induction false} UpAllStands(c: Cache, params: seq<Value>)
    requires Interned(c) && !ResetsIn(c, params)
    ensures var (d, idxs) := UpAll(c, params);
            && Interned(d) && c.order <= d.order
            && (AllSome(idxs) <==> AllKeyed(params))
            && (AllSome(idxs) ==> AllKeyed(params) && Stands(d.order, Values(idxs), Keys(params)))
    decreases |params|
  {
    if params != [] {
      var (d, i) := TryUpIdx(c, params[0]);
      UpStands(c, params[0]);
      UpAllStands(d, params[1..]);
      var (e, rest) := UpAll(d, params[1..]);
      SomeCons(i, rest);
      KeyedCons(params);
      if i.Some? && AllSome(rest) {
        ValuesCons(i, rest);
        KeysCons(params);
        StandsCons(e.order, i.value, Values(rest), KeyOf(params[0]).value, Keys(params[1..]));
      }
    }
  }

  lemma SomeCons(i: Option<nat>, rest: seq<Option<nat>>)
    ensures AllSome([i] + rest) <==> i.Some? && AllSome(rest)
  {
    assert forall k :: 0 <= k < |rest| ==> ([i] + rest)[k + 1] == rest[k];
    assert ([i] + rest)[0] == i;
  }

  lemma KeyedCons(params: seq<Value>)
    requires params != []
    ensures AllKeyed(params) <==> KeyOf(params[0]).Some? && AllKeyed(params[1..])
  {
    assert forall k :: 0 <= k < |params| - 1 ==> params[1..][k] == params[k + 1];
    assert AllKeyed(params[1..]) ==> forall k :: 1 <= k < |params| ==> params[k] == params[1..][k - 1];
  }

  lemma {:induction false} UpAllKeyed(c: Cache, params: seq<Value>)
    ensures AllSome(UpAll(c, params).1) <==> AllKeyed(params)
    decreases |params|
  {
    if params != [] {
      var (d, i) := TryUpIdx(c, params[0]);
      UpAllKeyed(d, params[1..]);
      SomeCons(i, UpAll(d, params[1..]).1);
      KeyedCons(params);
    }
  }

  /** Distinct values have distinct index tuples, and the other way round. */
  lemma StandsInjective(order: seq<ParamKey>, a: seq<nat>, b: seq<nat>, x: seq<ParamKey>, y: seq<ParamKey>)
    requires DistinctKeys(order) && Stands(order, a, x) && Stands(order, b, y)
    ensures a == b <==> x == y
  {
    if x == y {
      forall k | 0 <= k < |a|
        ensures a[k] == b[k]
      {
        assert order[a[k] - 1] == order[b[k] - 1];
      }
    }
    if a == b {
      forall k | 0 <= k < |x|
        ensures x[k] == y[k]
      {
      }
    }
  }

  lemma PutKeepsSound(c: Cache, l: Ledger, scope: nat, idxs: seq<nat>, keys: seq<ParamKey>, row: Row)
    requires Sound(c, l) && Stands(c.order, idxs, keys)
    ensures Sound(c.(lru := Put(c.lru, c.capacity, LocalKey(scope, idxs), row)),
                  l.(saved := l.saved[(scope, keys) := row]))
  {
    var key := LocalKey(scope, idxs);
    var l' := l.(saved := l.saved[(scope, keys) := row]);
    forall e | e in Put(c.lru, c.capacity, key, row)
      ensures Recorded(c.order, l', e)
    {
      if e == Entry(key, row) {
        assert Stands(c.order, e.key.idxs, keys);
      } else {
        var ks :| Stands(c.order, e.key.idxs, ks) && (e.key.scope, ks) in l.saved
            && l.saved[(e.key.scope, ks)] == e.row;
        StandsInjective(c.order, idxs, e.key.idxs, keys, ks);
        assert (e.key.scope, ks) != (scope, keys);
      }
    }
  }

  lemma ResetFirst(c: Cache, params: seq<Value>)
    requires params != []
    ensures UpAll(c, params) == UpAll(MaybeReset(c), params)
    ensures ResetsIn(MaybeReset(c), params) <==> ResetsMidway(c, params)
  {
  }

  /** The indices of a save that no reset splits stand for its parameters' values. */
  lemma SaveStands(c: Cache, l: Ledger, params: seq<Value>)
    requires Sound(c, l) && params != [] && AllKeyed(params) && !ResetsMidway(c, params)
    ensures var (d, idxs) := UpAll(c, params);
            AllSome(idxs) && Sound(d, l) && Stands(d.order, Values(idxs), Keys(params))
  {
    UpAllKeepsSound(c, l, params);
    ResetFirst(c, params);
    UpAllStands(MaybeReset(c), params);
  }

  lemma SaveKeepsSound(c: Cache, l: Ledger, scope: nat, params: seq<Value>, row: Row)
    requires Sound(c, l) && params != [] && !(AllKeyed(params) && ResetsMidway(c, params))
    ensures Sound(SaveScoped(c, scope, params, row), Record(l, Save(scope, params, row)))
  {
    var (d, idxs) := UpAll(c, params);
    UpAllKeyed(c, params);
    if AllKeyed(params) {
      SaveStands(c, l, params);
      PutKeepsSound(d, l, scope, Values(idxs), Keys(params), row);
    } else {
      UpAllKeepsSound(c, l, params);
    }
  }

  lemma PrepareKeepsSound(c: Cache, l: Ledger, scope: nat, generation: nat)
    requires Sound(c, l)
    ensures Sound(PrepareGeneration(c, scope, generation), Record(l, Prepare(scope, generation)))
  {
    var d, l' := PrepareGeneration(c, scope, generation), Record(l, Prepare(scope, generation));
    if !(scope in c.generations && c.generations[scope] == generation) {
      forall e | e in d.lru
        ensures Recorded(d.order, l', e)
      {
        var ks :| Stands(c.order, e.key.idxs, ks) && (e.key.scope, ks) in l.saved
            && l.saved[(e.key.scope, ks)] == e.row;
        assert (e.key.scope, ks) in l'.saved;
      }
    }
  }

  lemma {:induction false} Growth(c: Cache, params: seq<Value>)
    ensures |UpAll(c, params).0.order| <= |c.order| + |params|
    decreases |params|
  {
    if params != [] {
      Growth(TryUpIdx(c, params[0]).0, params[1..]);
    }
  }

  /** A save split by a reset keeps an index from before it that is now out of range. */
  lemma {:induction false} SplitOverflows(c: Cache, params: seq<Value>) returns (j: nat)
    requires |c.order| < MAX_LOCAL_IDX && |params| < MAX_LOCAL_IDX
    requires AllKeyed(params) && ResetsMidway(c, params)
    ensures var (d, idxs) := UpAll(c, params);
            j < |idxs| && idxs[j].Some? && |d.order| < idxs[j].value
    decreases |params|
  {
    var (d, i) := TryUpIdx(c, params[0]);
    var rest := params[1..];
    KeyedCons(params);
    if |d.order| >= MAX_LOCAL_IDX {
      assert i == Some(MAX_LOCAL_IDX);
      Growth(TryUpIdx(d, rest[0]).0, rest[1..]);
      j := 0;
    } else {
      var k := SplitOverflows(d, rest);
      j := k + 1;
      assert UpAll(c, params).1[j] == UpAll(d, rest).1[k];
    }
  }

  lemma OutOfRange(order: seq<ParamKey>, idxs: seq<nat>, j: nat)
    requires j < |idxs| && |order| < idxs[j]
    ensures forall keys :: !Stands(order, idxs, keys)
  {
  }

  /** The entry put in front by a save split by a reset stands for no values. */
  lemma SplitIsUnsound(c: Cache, l: Ledger, scope: nat, params: seq<Value>, row: Row)
    requires Sound(c, l) && params != [] && |params| < MAX_LOCAL_IDX && AllKeyed(params) && ResetsMidway(c, params)
    ensures !Sound(SaveScoped(c, scope, params, row), Record(l, Save(scope, params, row)))
  {
    var (d, idxs) := UpAll(c, params);
    UpAllKeyed(c, params);
    ResetFirst(c, params);
    assert MaybeReset(MaybeReset(c)) == MaybeReset(c);
    var j := SplitOverflows(MaybeReset(c), params);
    var key := LocalKey(scope, Values(idxs));
    var e := Entry(key, row);
    var c', l' := SaveScoped(c, scope, params, row), Record(l, Save(scope, params, row));
    assert c'.lru[0] == e && c'.order == d.order;
    assert e in c'.lru;
    assert e.key.idxs[j] > |d.order|;
    OutOfRange(d.order, e.key.idxs, j);
    assert !Recorded(c'.order, l', e);
  }

  /** Saving keeps the cache sound exactly when no reset splits a save that is stored. */
  lemma SaveSoundIff(c: Cache, l: Ledger, scope: nat, params: seq<Value>, row: Row)
    requires Sound(c, l) && 1 <= |params| <= 6
    ensures Sound(SaveScoped(c, scope, params, row), Record(l, Save(scope, params, row))) <==>
            !MixesKeys(c, Save(scope, params, row))
  {
    if MixesKeys(c, Save(scope, params, row)) {
      SplitIsUnsound(c, l, scope, params, row);
    } else {
      SaveKeepsSound(c, l, scope, params, row);
    }
  }

  /** A save with one parameter is never split. */
  lemma OneParameterNeverSplit(c: Cache, scope: nat, v: Value, row: Row)
    ensures !MixesKeys(c, Save(scope, [v], row))
  {
  }

  // ------------------------------------------------------------------- whole runs

  predicate WellFormed(op: Op) {
    op.Save? ==> 1 <= |op.params| <= 6
  }

  /** Every operation of the run has one to six parameters and no stored save is split by a reset. */
  predicate Unsplit(capacity: nat, ops: seq<Op>)
    requires 0 < capacity
  {
    ops == [] || (var front, last := ops[..|ops| - 1], ops[|ops| - 1];
                  Unsplit(capacity, front) && WellFormed(last) && !MixesKeys(Run(capacity, front), last))
  }

  lemma {:induction false} RunSound(capacity: nat, ops: seq<Op>)
    requires 0 < capacity && Unsplit(capacity, ops)
    ensures Sound(Run(capacity, ops), History(ops))
    decreases |ops|
  {
    if ops != [] {
      var front, last := ops[..|ops| - 1], ops[|ops| - 1];
      RunSound(capacity, front);
      match last
      case Save(scope, params, row) => SaveKeepsSound(Run(capacity, front), History(front), scope, params, row);
      case Prepare(scope, generation) => PrepareKeepsSound(Run(capacity, front), History(front), scope, generation);
    }
  }

  // --------------------------------------------------------- every run, split or not

  /** The ledger holds some row of the scope. */
  ghost predicate OnRecord(l: Ledger, scope: nat) {
    exists keys :: (scope, keys) in l.saved
  }

  /**
   What holds after any run: a reset forgets the generations, so the entries of a scope whose generation the
   cache knows were all saved since the last reset; of the others it is known only that something was saved.
   */
  ghost predicate Tracked(c: Cache, l: Ledger) {
    && Interned(c)
    && 0 < c.capacity && |c.lru| <= c.capacity
    && (forall e :: e in c.lru && e.key.scope in c.generations ==> Recorded(c.order, l, e))
    && (forall e :: e in c.lru ==> OnRecord(l, e.key.scope))
    && (forall s :: s in c.generations ==> s in l.generations && l.generations[s] == c.generations[s])
  }

  lemma TrackedLonger(c: Cache, d: Cache, l: Ledger)
    requires Tracked(c, l) && Interned(d) && c.order <= d.order
    requires d.lru == c.lru && d.generations == c.generations && d.capacity == c.capacity
    ensures Tracked(d, l)
  {
    forall e | e in d.lru && e.key.scope in d.generations
      ensures Recorded(d.order, l, e)
    {
      var keys :| Stands(c.order, e.key.idxs, keys) && (e.key.scope, keys) in l.saved
          && l.saved[(e.key.scope, keys)] == e.row;
      StandsLonger(c.order, d.order, e.key.idxs, keys);
    }
  }

  lemma UpKeepsTracked(c: Cache, l: Ledger, v: Value)
    requires Tracked(c, l)
    ensures Tracked(TryUpIdx(c, v).0, l)
  {
    var d := MaybeReset(c);
    assert Tracked(d, l);
    UpKeepsDistinct(c, v);
    TrackedLonger(d, TryUpIdx(c, v).0, l);
  }

  lemma {:induction false} UpAllKeepsTracked(c: Cache, l: Ledger, params: seq<Value>)
    requires Tracked(c, l)
    ensures Tracked(UpAll(c, params).0, l)
    decreases |params|
  {
    if params != [] {
      UpKeepsTracked(c, l, params[0]);
      UpAllKeepsTracked(TryUpIdx(c, params[0]).0, l, params[1..]);
    }
  }

  /** After a reset no generation is known until the next preparation. */
  lemma {:induction false} ResetForgets(c: Cache, params: seq<Value>)
    requires ResetsIn(c, params) || c.generations == map[]
    ensures UpAll(c, params).0.generations == map[]
    decreases |params|
  {
    if params != [] {
      ResetForgets(TryUpIdx(c, params[0]).0, params[1..]);
    }
  }

  lemma PutKeepsTracked(c: Cache, l: Ledger, scope: nat, idxs: seq<nat>, keys: seq<ParamKey>, row: Row)
    requires Tracked(c, l) && (Stands(c.order, idxs, keys) || c.generations == map[])
    ensures Tracked(c.(lru := Put(c.lru, c.capacity, LocalKey(scope, idxs), row)),
                    l.(saved := l.saved[(scope, keys) := row]))
  {
    var key := LocalKey(scope, idxs);
    var l' := l.(saved := l.saved[(scope, keys) := row]);
    var lru' := Put(c.lru, c.capacity, key, row);
    forall e | e in lru'
      ensures OnRecord(l', e.key.scope)
    {
      if e == Entry(key, row) {
        assert (scope, keys) in l'.saved;
      } else {
        var ks :| (e.key.scope, ks) in l.saved;
        assert (e.key.scope, ks) in l'.saved;
      }
    }
    forall e | e in lru' && e.key.scope in c.generations
      ensures Recorded(c.order, l', e)
    {
      PutStaysRecorded(c, l, scope, idxs, keys, row, e);
    }
  }

  lemma PutStaysRecorded(c: Cache, l: Ledger, scope: nat, idxs: seq<nat>, keys: seq<ParamKey>, row: Row, e: Entry)
    requires Interned(c) && Stands(c.order, idxs, keys)
    requires e == Entry(LocalKey(scope, idxs), row) || (e.key != LocalKey(scope, idxs) && Recorded(c.order, l, e))
    ensures Recorded(c.order, l.(saved := l.saved[(scope, keys) := row]), e)
  {
    if e == Entry(LocalKey(scope, idxs), row) {
      assert Stands(c.order, e.key.idxs, keys);
    } else {
      var ks :| Stands(c.order, e.key.idxs, ks) && (e.key.scope, ks) in l.saved && l.saved[(e.key.scope, ks)] == e.row;
      StandsInjective(c.order, idxs, e.key.idxs, keys, ks);
      assert (e.key.scope, ks) != (scope, keys);
    }
  }

  /** The indices of a save stand for its values, or a reset has just forgotten all generations. */
  lemma SaveStandsOrForgets(c: Cache, params: seq<Value>)
    requires Interned(c) && AllKeyed(params)
    ensures var (d, idxs) := UpAll(c, params);
            AllSome(idxs) && (Stands(d.order, Values(idxs), Keys(params)) || d.generations == map[])
  {
    UpAllKeyed(c, params);
    if ResetsIn(c, params) {
      ResetForgets(c, params);
    } else {
      UpAllStands(c, params);
    }
  }

  lemma SaveKeepsTracked(c: Cache, l: Ledger, scope: nat, params: seq<Value>, row: Row)
    requires Tracked(c, l)
    ensures Tracked(SaveScoped(c, scope, params, row), Record(l, Save(scope, params, row)))
  {
    var (d, idxs) := UpAll(c, params);
    UpAllKeepsTracked(c, l, params);
    UpAllKeyed(c, params);
    if AllKeyed(params) {
      SaveStandsOrForgets(c, params);
      PutKeepsTracked(d, l, scope, Values(idxs), Keys(params), row);
    }
  }

  lemma PrepareKeepsTracked(c: Cache, l: Ledger, scope: nat, generation: nat)
    requires Tracked(c, l)
    ensures Tracked(PrepareGeneration(c, scope, generation), Record(l, Prepare(scope, generation)))
  {
    var d, l' := PrepareGeneration(c, scope, generation), Record(l, Prepare(scope, generation));
    if !(scope in c.generations && c.generations[scope] == generation) {
      forall e | e in d.lru
        ensures OnRecord(l', e.key.scope)
        ensures e.key.scope in d.generations ==> Recorded(d.order, l', e)
      {
        var ks :| (e.key.scope, ks) in l.saved;
        assert (e.key.scope, ks) in l'.saved;
        if e.key.scope in d.generations {
          StaysRecorded(c, l, l', e);
        }
      }
    }
  }

  lemma StaysRecorded(c: Cache, l: Ledger, l': Ledger, e: Entry)
    requires Recorded(c.order, l, e)
    requires forall ks :: (e.key.scope, ks) in l.saved ==>
               (e.key.scope, ks) in l'.saved && l'.saved[(e.key.scope, ks)] == l.saved[(e.key.scope, ks)]
    ensures Recorded(c.order, l', e)
  {
    var ks :| Stands(c.order, e.key.idxs, ks) && (e.key.scope, ks) in l.saved && l.saved[(e.key.scope, ks)] == e.row;
    assert (e.key.scope, ks) in l'.saved;
  }

  lemma {:induction false} RunTracked(capacity: nat, ops: seq<Op>)
    requires 0 < capacity
    ensures Tracked(Run(capacity, ops), History(ops))
    decreases |ops|
  {
    if ops != [] {
      var front, last := ops[..|ops| - 1], ops[|ops| - 1];
      RunTracked(capacity, front);
      var c, l := Run(capacity, front), History(front);
      match last
      case Save(scope, params, row) => SaveKeepsTracked(c, l, scope, params, row);
      case Prepare(scope, generation) => PrepareKeepsTracked(c, l, scope, generation);
    }
  }

  // ------------------------------------------------------------------------ hits

  lemma GetAllStands(c: Cache, params: seq<Value>)
    requires AllSome(GetAll(c, params))
    ensures AllKeyed(params) && Stands(c.order, Values(GetAll(c, params)), Keys(params))
  {
    forall k | 0 <= k < |params|
      ensures KeyOf(params[k]).Some?
    {
      assert GetAll(c, params)[k].Some?;
    }
  }

  /** A fetch that finds something found the entry under the values' indices. */
  lemma HitEntry(c: Cache, scope: nat, params: seq<Value>) returns (e: Entry)
    requires FetchScoped(c, scope, params).Some?
    ensures e in c.lru && e.key.scope == scope && e.row == FetchScoped(c, scope, params).value
    ensures AllKeyed(params) && Stands(c.order, e.key.idxs, Keys(params))
  {
    GetAllStands(c, params);
    e := Entry(LocalKey(scope, Values(GetAll(c, params))), FetchScoped(c, scope, params).value);
  }

  /** A hit on a recorded entry is the row on record for the values asked for. */
  lemma RecordedHit(c: Cache, l: Ledger, scope: nat, params: seq<Value>, e: Entry)
    requires Interned(c) && Recorded(c.order, l, e) && e.key.scope == scope
    requires AllKeyed(params) && Stands(c.order, e.key.idxs, Keys(params))
    ensures (scope, Keys(params)) in l.saved && l.saved[(scope, Keys(params))] == e.row
  {
    var ks :| Stands(c.order, e.key.idxs, ks) && (scope, ks) in l.saved && l.saved[(scope, ks)] == e.row;
    StandsInjective(c.order, e.key.idxs, e.key.idxs, Keys(params), ks);
  }

  /**
   Over every run the list stays within its capacity, and a hit on a scope whose generation the cache knows,
   that is, one prepared since the last reset, is exactly the row on record. For other scopes the same holds
   in every run in which no stored save is split by a reset.
   */
  lemma HitIsRecorded(capacity: nat, ops: seq<Op>, scope: nat, params: seq<Value>)
    requires 0 < capacity
    ensures |Run(capacity, ops).lru| <= capacity
    ensures var c, hit := Run(capacity, ops), FetchScoped(Run(capacity, ops), scope, params);
            hit.Some? && (scope in c.generations || Unsplit(capacity, ops)) ==>
              && AllKeyed(params)
              && (scope, Keys(params)) in History(ops).saved
              && hit.value == History(ops).saved[(scope, Keys(params))]
  {
    var c, l := Run(capacity, ops), History(ops);
    RunTracked(capacity, ops);
    if FetchScoped(c, scope, params).Some? && (scope in c.generations || Unsplit(capacity, ops)) {
      var e := HitEntry(c, scope, params);
      if Unsplit(capacity, ops) {
        RunSound(capacity, ops);
      }
      RecordedHit(c, l, scope, params, e);
    }
  }

  /** Any hit at all is for a scope something was saved for since its last generation change. */
  lemma HitIsOnRecord(capacity: nat, ops: seq<Op>, scope: nat, params: seq<Value>)
    requires 0 < capacity && FetchScoped(Run(capacity, ops), scope, params).Some?
    ensures OnRecord(History(ops), scope)
  {
    RunTracked(capacity, ops);
    var e := HitEntry(Run(capacity, ops), scope, params);
  }

  /** Indices that stand for the values are those that looking the values up gives. */
  lemma StandingIsFound(c: Cache, idxs: seq<Option<nat>>, params: seq<Value>)
    requires Interned(c) && AllSome(idxs) && AllKeyed(params) && Stands(c.order, Values(idxs), Keys(params))
    ensures GetAll(c, params) == idxs
  {
    forall k | 0 <= k < |params|
      ensures GetIdx(c, params[k]) == idxs[k]
    {
      IndexIsPosition(c.order, Keys(params)[k], Values(idxs)[k]);
    }
  }

  /** A stored save that is not split is found at once, by whoever asks for the same values. */
  lemma SaveThenFetch(c: Cache, l: Ledger, scope: nat, params: seq<Value>, asked: seq<Value>, row: Row)
    requires Sound(c, l) && params != [] && SameParams(params, asked) && !ResetsMidway(c, params)
    ensures FetchScoped(SaveScoped(c, scope, params, row), scope, asked) == Some(row)
  {
    SameParamsIff(params, asked);
    SaveStands(c, l, params);
    var (d, idxs) := UpAll(c, params);
    var e := SaveScoped(c, scope, params, row);
    assert e.order == d.order && e.lru[0] == Entry(LocalKey(scope, Values(idxs)), row);
    StandingIsFound(e, idxs, asked);
  }

  // ------------------------------------------- what a split save goes on to cause

  lemma FrontOfConcat(a: seq<Op>, b: seq<Op>)
    requires b != []
    ensures (a + b)[..|a + b| - 1] == a + b[..|b| - 1] && (a + b)[|a + b| - 1] == b[|b| - 1]
  {
  }

  lemma {:induction false} RunFromConcat(c: Cache, a: seq<Op>, b: seq<Op>)
    requires 0 < c.capacity
    ensures RunFrom(c, a + b) == RunFrom(RunFrom(c, a), b)
    decreases |b|
  {
    if b == [] {
      assert a + b == a;
    } else {
      FrontOfConcat(a, b);
      RunFromConcat(c, a, b[..|b| - 1]);
    }
  }

  lemma {:induction false} HistoryFromConcat(l: Ledger, a: seq<Op>, b: seq<Op>)
    ensures HistoryFrom(l, a + b) == HistoryFrom(HistoryFrom(l, a), b)
    decreases |b|
  {
    if b == [] {
      assert a + b == a;
    } else {
      FrontOfConcat(a, b);
      HistoryFromConcat(l, a, b[..|b| - 1]);
    }
  }

  /** Saves that intern the integers from `base` on and store nothing, their first parameter being null. */
  function Fill(base: int, n: nat): seq<Op> {
    if n == 0 then [] else Fill(base, n - 1) + [Save(0, [Null, Int(base + n - 1)], [])]
  }

  function Ints(base: int, n: nat): (r: seq<ParamKey>)
    ensures |r| == n && forall k :: 0 <= k < n ==> r[k] == KInt(base + k)
  {
    seq(n, k requires 0 <= k < n => KInt(base + k))
  }

  lemma FillOne(c: Cache, v: int)
    requires 0 < c.capacity && |c.order| < MAX_LOCAL_IDX && KInt(v) !in c.order
    ensures Apply(c, Save(0, [Null, Int(v)], [])) == c.(order := c.order + [KInt(v)])
  {
    var params := [Null, Int(v)];
    var up := c.(order := c.order + [KInt(v)]);
    assert TryUpIdx(c, params[0]) == (c, None);
    assert TryUpIdx(c, params[1]) == (up, Some(|c.order| + 1));
    assert params[1..] == [Int(v)] && params[1..][1..] == [];
    assert UpAll(c, params[1..]).0 == up;
    assert UpAll(c, params).0 == up && UpAll(c, params).1[0] == None;
    assert KeyOf(params[0]).None?;
  }

  lemma {:induction false} FillEffect(c: Cache, base: int, n: nat)
    requires 0 < c.capacity && |c.order| + n <= MAX_LOCAL_IDX
    requires forall k :: base <= k < base + n ==> KInt(k) !in c.order
    ensures RunFrom(c, Fill(base, n)) == c.(order := c.order + Ints(base, n))
    decreases n
  {
    if n == 0 {
      assert c.order + Ints(base, 0) == c.order;
    } else {
      FillEffect(c, base, n - 1);
      var d := c.(order := c.order + Ints(base, n - 1));
      FillFront(base, n);
      FillOne(d, base + n - 1);
      assert d.order + [KInt(base + n - 1)] == c.order + Ints(base, n);
    }
  }

  lemma FillFront(base: int, n: nat)
    requires 0 < n
    ensures var fill := Fill(base, n);
            fill[..|fill| - 1] == Fill(base, n - 1) && fill[|fill| - 1] == Save(0, [Null, Int(base + n - 1)], [])
  {
  }

  lemma {:induction false} FillRecordsNothing(l: Ledger, base: int, n: nat)
    ensures HistoryFrom(l, Fill(base, n)) == l
    decreases n
  {
    if 0 < n {
      FillRecordsNothing(l, base, n - 1);
      FillFront(base, n);
      assert KeyOf([Null, Int(base + n - 1)][0]).None?;
    }
  }

  lemma UpTwo(c: Cache, params: seq<Value>, d: Cache, e: Cache, i: nat, j: nat)
    requires |params| == 2 && TryUpIdx(c, params[0]) == (d, Some(i)) && TryUpIdx(d, params[1]) == (e, Some(j))
    ensures UpAll(c, params) == (e, [Some(i), Some(j)])
  {
    var tail := params[1..];
    assert tail[1..] == [] && tail[0] == params[1];
    var none: seq<Option<nat>> := [];
    assert UpAll(e, tail[1..]) == (e, none);
    assert [Some(j)] + none == [Some(j)];
    assert UpAll(d, tail) == (e, [Some(j)]);
    assert [Some(i)] + [Some(j)] == [Some(i), Some(j)];
  }

  /** The save that a reset splits, in a table one short of full. */
  lemma SplitSave(c: Cache, row: Row)
    requires 0 < c.capacity && |c.order| == MAX_LOCAL_IDX - 1 && c.lru == [] && KInt(-1) !in c.order
    ensures var d := Apply(c, Save(0, [Int(-1), Int(-2)], row));
            && d.order == [KInt(-2)]
            && d.lru == [Entry(LocalKey(0, [MAX_LOCAL_IDX, 1]), row)]
  {
    var params := [Int(-1), Int(-2)];
    var full := c.(order := c.order + [KInt(-1)]);
    var anew := Empty(c.capacity).(order := [KInt(-2)]);
    assert TryUpIdx(c, params[0]) == (full, Some(MAX_LOCAL_IDX));
    assert [] + [KInt(-2)] == [KInt(-2)];
    assert TryUpIdx(full, params[1]) == (anew, Some(1));
    assert params[1..] == [Int(-2)] && params[1..][1..] == [];
    UpTwo(c, params, full, anew, MAX_LOCAL_IDX, 1);
    assert Values([Some(MAX_LOCAL_IDX), Some(1)]) == [MAX_LOCAL_IDX, 1];
  }

  lemma RunOne(c: Cache, l: Ledger, op: Op)
    requires 0 < c.capacity
    ensures RunFrom(c, [op]) == Apply(c, op) && HistoryFrom(l, [op]) == Record(l, op)
  {
    assert [op][..0] == [];
  }

  /** Fill the table but for one place, save with two new values, fill it again. */
  function SplitRun(row: Row): seq<Op> {
    Fill(0, MAX_LOCAL_IDX - 1) + [Save(0, [Int(-1), Int(-2)], row)] + Fill(MAX_LOCAL_IDX, MAX_LOCAL_IDX - 1)
  }

  lemma SplitRunEffect(capacity: nat, row: Row)
    requires 0 < capacity
    ensures var c := Run(capacity, SplitRun(row));
            && c.order == [KInt(-2)] + Ints(MAX_LOCAL_IDX, MAX_LOCAL_IDX - 1)
            && c.lru == [Entry(LocalKey(0, [MAX_LOCAL_IDX, 1]), row)]
    ensures History(SplitRun(row)) == Record(EMPTY_LEDGER, Save(0, [Int(-1), Int(-2)], row))
  {
    var n := MAX_LOCAL_IDX - 1;
    var a, op, d := Fill(0, n), Save(0, [Int(-1), Int(-2)], row), Fill(MAX_LOCAL_IDX, n);
    var c0, l0 := Empty(capacity), EMPTY_LEDGER;
    FillEffect(c0, 0, n);
    FillRecordsNothing(l0, 0, n);
    var c1 := RunFrom(c0, a);
    SplitSave(c1, row);
    RunOne(c1, l0, op);
    FillEffect(Apply(c1, op), MAX_LOCAL_IDX, n);
    FillRecordsNothing(Record(l0, op), MAX_LOCAL_IDX, n);
    RunFromConcat(c0, a, [op]);
    HistoryFromConcat(l0, a, [op]);
    RunFromConcat(c0, a + [op], d);
    HistoryFromConcat(l0, a + [op], d);
  }

  /**
   Without the condition the cache can return a row for values it was never saved for: a save
   split by a reset leaves a key behind that a later value comes to match.
   */
  lemma SplitSaveCausesWrongHit(capacity: nat, row: Row)
    requires 0 < capacity
    ensures exists ops: seq<Op>, params: seq<Value> ::
              && AllKeyed(params)
              && FetchScoped(Run(capacity, ops), 0, params) == Some(row)
              && (0, Keys(params)) !in History(ops).saved
  {
    var ops := SplitRun(row);
    var params := [Int(MAX_LOCAL_IDX + MAX_LOCAL_IDX - 2), Int(-2)];
    SplitRunEffect(capacity, row);
    LateMatch(Run(capacity, ops), MAX_LOCAL_IDX - 1, row);
    assert Keys(params)[0] == KInt(MAX_LOCAL_IDX + MAX_LOCAL_IDX - 2);
    assert Keys([Int(-1), Int(-2)])[0] == KInt(-1);
    assert AllKeyed(params);
  }

  lemma LateMatch(c: Cache, n: nat, row: Row)
    requires n == MAX_LOCAL_IDX - 1
    requires c.order == [KInt(-2)] + Ints(MAX_LOCAL_IDX, n)
    requires c.lru == [Entry(LocalKey(0, [MAX_LOCAL_IDX, 1]), row)]
    ensures FetchScoped(c, 0, [Int(MAX_LOCAL_IDX + n - 1), Int(-2)]) == Some(row)
  {
    var params := [Int(MAX_LOCAL_IDX + n - 1), Int(-2)];
    IndexIsPosition(c.order, KInt(MAX_LOCAL_IDX + n - 1), MAX_LOCAL_IDX);
    IndexIsPosition(c.order, KInt(-2), 1);
    assert GetAll(c, params) == [Some(MAX_LOCAL_IDX), Some(1)];
    assert Values(GetAll(c, params)) == [MAX_LOCAL_IDX, 1];
  }
}
