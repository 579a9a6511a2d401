/** The local cache in place. */
module FieldCache {
  // The local query cache as the program keeps it: seven index tables sharing one counter, a
  // recency list and the scopes' generations, all updated in place (src/cache.rs). Each method
  // is proved to perform the operation of the same name in LocalCache.

  import opened Common
  import opened LocalCache

  class FieldQueryCache {
    var strIdx: map<string, nat>
    var i64Idx: map<int, nat>
    var ipIdx: map<int, nat>
    var bigUintIdx: map<nat, nat>
    var boolIdx: map<bool, nat>
    var floatIdx: map<int, nat>
    var textIdx: map<string, nat>
    var cacheData: seq<Entry>
    var idxNum: nat
    var generations: map<nat, nat>
    const capacity: nat

    /** The interned values in the order of their indices. */
    ghost var order: seq<ParamKey>

    /** The index the tables hold for a value. */
    function Lookup(k: ParamKey): Option<nat>
      reads this`strIdx, this`i64Idx, this`ipIdx, this`bigUintIdx, this`boolIdx, this`floatIdx, this`textIdx
    {
      match k
      case KStr(s) => if s in strIdx then Some(strIdx[s]) else None
      case KInt(i) => if i in i64Idx then Some(i64Idx[i]) else None
      case KIp(ip) => if ip in ipIdx then Some(ipIdx[ip]) else None
      case KBig(n) => if n in bigUintIdx then Some(bigUintIdx[n]) else None
      case KBool(b) => if b in boolIdx then Some(boolIdx[b]) else None
      case KFloat(bits) => if bits in floatIdx then Some(floatIdx[bits]) else None
      case KText(t) => if t in textIdx then Some(textIdx[t]) else None
    }

    ghost predicate Valid()
      reads this
    {
      && 0 < capacity && |cacheData| <= capacity
      && idxNum == |order| <= MAX_LOCAL_IDX
      && DistinctKeys(order)
      && forall k :: Lookup(k) == IndexIn(order, k)
    }

    /** The cache as a value. */
    ghost function Contents(): Cache
      reads this
    {
      Cache(capacity, order, cacheData, generations)
    }

    /** In every valid state the seven tables are disjoint and together hold exactly the indices 1 to `idxNum`. */
    lemma IndicesAreExactlyTheCounter()
      requires Valid()
      ensures forall i: nat :: 1 <= i <= idxNum <==>
                i in strIdx.Values + i64Idx.Values + ipIdx.Values + bigUintIdx.Values
                     + boolIdx.Values + floatIdx.Values + textIdx.Values
      ensures forall j, k :: Lookup(j).Some? && Lookup(j) == Lookup(k) ==> j == k
    {
      var all := strIdx.Values + i64Idx.Values + ipIdx.Values + bigUintIdx.Values
                 + boolIdx.Values + floatIdx.Values + textIdx.Values;
      forall j, k | Lookup(j).Some? && Lookup(j) == Lookup(k)
        ensures j == k
      {
        assert order[Lookup(j).value - 1] == j && order[Lookup(k).value - 1] == k;
      }
      forall i: nat | 1 <= i <= idxNum
        ensures i in all
      {
        IndexIsPosition(order, order[i - 1], i);
        assert Lookup(order[i - 1]) == Some(i);
      }
      forall i: nat | i in all
        ensures 1 <= i <= idxNum
      {
        IndexHasKey(i);
      }
    }

    static lemma KeyAt<K>(m: map<K, nat>, i: nat) returns (x: K)
      requires i in m.Values
      ensures x in m && m[x] == i
    {
      x :| x in m.Keys && m[x] == i;
    }

    /** An index found in some table belongs to some value. */
    lemma IndexHasKey(i: nat)
      requires Valid()
      requires i in strIdx.Values + i64Idx.Values + ipIdx.Values + bigUintIdx.Values
                    + boolIdx.Values + floatIdx.Values + textIdx.Values
      ensures 1 <= i <= idxNum
    {
      if i in strIdx.Values {
        var x := KeyAt(strIdx, i);
        assert Lookup(KStr(x)) == Some(i);
      } else if i in i64Idx.Values {
        var x := KeyAt(i64Idx, i);
        assert Lookup(KInt(x)) == Some(i);
      } else if i in ipIdx.Values {
        var x := KeyAt(ipIdx, i);
        assert Lookup(KIp(x)) == Some(i);
      } else if i in bigUintIdx.Values {
        var x := KeyAt(bigUintIdx, i);
        assert Lookup(KBig(x)) == Some(i);
      } else if i in boolIdx.Values {
        var x := KeyAt(boolIdx, i);
        assert Lookup(KBool(x)) == Some(i);
      } else if i in floatIdx.Values {
        var x := KeyAt(floatIdx, i);
        assert Lookup(KFloat(x)) == Some(i);
      } else {
        var x := KeyAt(textIdx, i);
        assert Lookup(KText(x)) == Some(i);
      }
    }

    constructor WithCapacity(size: nat)
      ensures Valid() && Contents() == Empty(if size == 0 then 1 else size)
    {
      strIdx, i64Idx, ipIdx, bigUintIdx, boolIdx, floatIdx, textIdx := map[], map[], map[], map[], map[], map[], map[];
      cacheData, idxNum, generations, order := [], 0, map[], [];
      capacity := if size == 0 then 1 else size;
    }

    method GetIdxOf(param: Value) returns (r: Option<nat>)
      requires Valid()
      ensures r == GetIdx(Contents(), param)
    {
      match param
      case Chars(s) => return if s in strIdx then Some(strIdx[s]) else None;
      case Int(i) => return if i in i64Idx then Some(i64Idx[i]) else None;
      case IpAddr(ip) => return if ip in ipIdx then Some(ipIdx[ip]) else None;
      case BigUint(n) => return if n in bigUintIdx then Some(bigUintIdx[n]) else None;
      case Bool(b) => return if b in boolIdx then Some(boolIdx[b]) else None;
      case Float(bits) => return if bits in floatIdx then Some(floatIdx[bits]) else None;
      case Textual(_, t) => return if t in textIdx then Some(textIdx[t]) else None;
      case _ => return None;
    }

    /** Clears every table, the results and the generations. */
    method Reset()
      requires 0 < capacity
      modifies this
      ensures Valid() && Contents() == Empty(capacity)
    {
      strIdx, i64Idx, ipIdx, bigUintIdx, boolIdx, floatIdx, textIdx := map[], map[], map[], map[], map[], map[], map[];
      cacheData, generations, idxNum, order := [], map[], 0, [];
      EmptyIsValid();
    }

    lemma EmptyIsValid()
      requires 0 < capacity && cacheData == [] && idxNum == 0 && order == [] && bigUintIdx == map[] && floatIdx == map[]
      requires strIdx == map[] && i64Idx == map[] && ipIdx == map[] && boolIdx == map[] && textIdx == map[]
      ensures Valid()
    {
      forall k ensures Lookup(k) == IndexIn(order, k) {
        assert Lookup(k).None?;
      }
    }

    /** Writes one entry of the table for the value's type. */
    method SetIdx(k: ParamKey, i: nat)
      modifies this`strIdx, this`i64Idx, this`ipIdx, this`bigUintIdx, this`boolIdx, this`floatIdx, this`textIdx
      ensures forall m :: Lookup(m) == if m == k then Some(i) else old(Lookup(m))
    {
      match k
      case KStr(s) => strIdx := strIdx[s := i];
      case KInt(n) => i64Idx := i64Idx[n := i];
      case KIp(ip) => ipIdx := ipIdx[ip := i];
      case KBig(n) => bigUintIdx := bigUintIdx[n := i];
      case KBool(b) => boolIdx := boolIdx[b := i];
      case KFloat(bits) => floatIdx := floatIdx[bits := i];
      case KText(t) => textIdx := textIdx[t := i];
    }

    /** A value not seen yet takes the next number from the shared counter. */
    method Insert(k: ParamKey)
      requires Valid() && Lookup(k).None? && idxNum < MAX_LOCAL_IDX
      modifies this`strIdx, this`i64Idx, this`ipIdx, this`bigUintIdx, this`boolIdx, this`floatIdx, this`textIdx,
          this`idxNum, this`order
      ensures Valid() && order == old(order) + [k] && idxNum == old(idxNum) + 1
    {
      ghost var before := order;
      assert k !in before;
      AllFoundAfter(before, k);
      NewKeepsDistinct(before, k);
      idxNum := idxNum + 1;
      SetIdx(k, idxNum);
      order := before + [k];
    }

    method TryUpIdxOf(param: Value) returns (r: Option<nat>)
      requires Valid()
      modifies this
      ensures Valid() && (Contents(), r) == TryUpIdx(old(Contents()), param)
    {
      if idxNum >= MAX_LOCAL_IDX {
        Reset();
      }
      var k := KeyOf(param);
      if k.None? {
        return None;
      }
      r := Lookup(k.value);
      if r.None? {
        Insert(k.value);
        r := Some(idxNum);
      }
    }

    /** The savers for one to six parameters: intern all of them, then store if each has an index. */
    method SaveScopedRow(scope: nat, params: seq<Value>, row: Row)
      requires Valid() && 1 <= |params| <= 6
      modifies this
      ensures Valid() && Contents() == SaveScoped(old(Contents()), scope, params, row)
    {
      var idxs := UpAllOf(params);
      if AllSome(idxs) {
        cacheData := Put(cacheData, capacity, LocalKey(scope, Values(idxs)), row);
      }
    }

    /** Interning happens parameter by parameter, whatever the earlier ones gave. */
    method UpAllOf(params: seq<Value>) returns (idxs: seq<Option<nat>>)
      requires Valid()
      modifies this
      ensures Valid() && (Contents(), idxs) == UpAll(old(Contents()), params)
      decreases |params|
    {
      if params == [] {
        return [];
      }
      var i := TryUpIdxOf(params[0]);
      var rest := UpAllOf(params[1..]);
      return [i] + rest;
    }

    method FetchScopedRow(scope: nat, params: seq<Value>) returns (r: Option<Row>)
      requires Valid() && 1 <= |params| <= 6
      ensures r == FetchScoped(Contents(), scope, params)
    {
      var idxs: seq<Option<nat>> := [];
      while |idxs| < |params|
        invariant |idxs| <= |params|
        invariant forall k :: 0 <= k < |idxs| ==> idxs[k] == GetIdx(Contents(), params[k])
        decreases |params| - |idxs|
      {
        var i := GetIdxOf(params[|idxs|]);
        idxs := idxs + [i];
      }
      assert idxs == GetAll(Contents(), params);
      return if AllSome(idxs) then Peek(cacheData, LocalKey(scope, Values(idxs))) else None;
    }

    method PrepareGenerationScoped(scope: nat, generation: nat)
      requires Valid()
      modifies this`generations, this`cacheData
      ensures Valid() && Contents() == PrepareGeneration(old(Contents()), scope, generation)
    {
      if scope in generations && generations[scope] == generation {
        return;
      }
      generations := generations[scope := generation];
      cacheData := WithoutScope(cacheData, scope);
    }
  }
}
