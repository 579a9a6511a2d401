/** Cached queries. */
module Facade {
  // The cached query functions (src/facade.rs): local cache, generation read, execution through the shared
  // result cache, all put together. One caller's cache is driven by its calls in sequence while the registry
  // and the result cache run on underneath, so a reload may land between a call's generation read and its
  // execution.

  import opened Common
  import opened LocalCache
  import ResultCache
  import ResultKeys
  import Runtime

  /** The default provider, or a named one. */
  datatype Source = Default | Named(name: string)

  /** The generation a source holds, if any. */
  function GenerationOf(s: Runtime.State, src: Source): Option<nat> {
    match src
    case Default => FromValue(s.slot)
    case Named(name) => if name in s.named then Some(s.named[name]) else None
  }

  /** Generation 0 stands for no provider. */
  function FromValue(g: nat): Option<nat> {
    if g == 0 then None else Some(g)
  }

  /** A query of the shared result cache, looked at once it is over. */
  datatype Query = Query(id: nat, at: nat)

  /**
   A call: by the instant `readAt` its generation has been read, for the default provider by the read
   `reader` of the runtime; at `handleAt` its executing handle was found, should it need one; `query` is what
   came of executing on that handle, if it got so far.
   */
  datatype Call = Call(scope: nat, params: seq<Value>, reader: nat, readAt: nat, handleAt: nat, query: Option<Query>)

  /**
   What surrounds the calls: the registry, the result cache, which provider a scope is used with, what a scope
   and parameters ask, and what a provider of a generation answers when it does not fail.
   */
  datatype World = World(
    run: seq<Runtime.State>,
    results: seq<ResultCache.State>,
    resultCapacity: nat,
    source: nat -> Source,
    sql: nat -> string,
    fields: (nat, seq<Value>) -> seq<ResultKeys.DataField>,
    provider: ResultCache.Provider)

  ghost predicate Running(compute: (set<string>, string) -> Runtime.Route, w: World) {
    && Runtime.IsRun(compute, w.run)
    && ResultCache.IsRun(w.results, w.resultCapacity)
    && forall n :: 0 <= n < |w.results| ==> ResultCache.AnsweredBy(w.results[n].log, w.provider)
  }

  function Asked(w: World, scope: nat, params: seq<Value>): ResultCache.Request {
    ResultCache.ByFields(w.sql(scope), w.fields(scope, params), true)
  }

  /** The row that the provider of a generation itself has for a scope and parameters. */
  function Answer(w: World, g: nat, scope: nat, params: seq<Value>): Option<Row> {
    var r := w.provider(g, w.sql(scope), ResultCache.FirstRow, ResultKeys.Bindings(w.fields(scope, params)));
    if r.Single? then Some(r.row) else None
  }

  /** Parameters with the same typed values ask the same thing. */
  ghost predicate AnswersByKey(w: World) {
    forall g, scope, p, q :: SameParams(p, q) ==>
      Answer(w, g, scope, p) == Answer(w, g, scope, q)
  }

  function GenerationAt(w: World, scope: nat, at: nat): Option<nat>
    requires at < |w.run|
  {
    GenerationOf(w.run[at], w.source(scope))
  }

  predicate InTime(w: World, call: Call) {
    && call.readAt <= call.handleAt < |w.run|
    && (w.source(call.scope).Default? ==>
          call.reader in w.run[call.readAt].readers && w.run[call.readAt].readers[call.reader].Answered?)
    && (call.query.Some? ==> QueryFits(w, call, call.query.value))
  }

  /** The query is the call's own, on the handle the call found. */
  predicate QueryFits(w: World, call: Call, query: Query)
    requires call.handleAt < |w.run|
  {
    && query.at < |w.results| && query.id in w.results[query.at].queries
    && var q := w.results[query.at].queries[query.id];
    && q.req == Asked(w, call.scope, call.params)
    && GenerationAt(w, call.scope, call.handleAt) == Some(q.handle.generation)
  }

  /** When the call's generation read begins. */
  function Begun(w: World, call: Call): nat
    requires InTime(w, call)
  {
    if w.source(call.scope).Default? then w.run[call.readAt].readers[call.reader].since else call.readAt
  }

  /** The generation the call goes by: what its reader returned, or what the name pointed to. */
  function GenerationRead(w: World, call: Call): Option<nat>
    requires InTime(w, call)
  {
    if w.source(call.scope).Default? then FromValue(w.run[call.readAt].readers[call.reader].generation)
    else GenerationAt(w, call.scope, call.readAt)
  }

  /** The generation preparation a call begins with; without a provider there is none. */
  function Preparation(w: World, call: Call): seq<Op>
    requires InTime(w, call)
  {
    var g := GenerationRead(w, call);
    if g.Some? then [Prepare(call.scope, g.value)] else []
  }

  /** A named provider that is not installed ends the call before the cache is touched. */
  predicate Refused(w: World, call: Call)
    requires InTime(w, call)
  {
    w.source(call.scope).Named? && GenerationRead(w, call).None?
  }

  /** The lookup, after preparation. */
  function LocalHit(w: World, c: Cache, call: Call): Option<Row>
    requires InTime(w, call) && 0 < c.capacity
  {
    if Refused(w, call) then None else FetchScoped(RunFrom(c, Preparation(w, call)), call.scope, call.params)
  }

  /** The row that executing brought, from the result cache or from the provider. */
  function Executed(w: World, call: Call): Option<Row>
    requires InTime(w, call)
  {
    if call.query.None? then None
    else
      match ResultCache.AnswerOf(w.results[call.query.value.at].queries[call.query.value.id])
      case Some(Single(row)) => Some(row)
      case _ => None
  }

  /** The save of a miss that executed successfully. */
  function Storing(w: World, c: Cache, call: Call): seq<Op>
    requires InTime(w, call) && 0 < c.capacity
  {
    if Refused(w, call) || LocalHit(w, c, call).Some? || Executed(w, call).None? then []
    else [Save(call.scope, call.params, Executed(w, call).value)]
  }

  /** Calls on one cache follow each other. */
  predicate Ordered(w: World, calls: seq<Call>) {
    && (forall i :: 0 <= i < |calls| ==> InTime(w, calls[i]))
    && (forall i, j :: 0 <= i < j < |calls| ==> calls[i].handleAt <= Begun(w, calls[j]))
  }

  /** Everything the calls do to the cache. */
  function Ops(w: World, capacity: nat, calls: seq<Call>): seq<Op>
    requires 0 < capacity && Ordered(w, calls)
  {
    if calls == [] then []
    else
      var front, last := calls[..|calls| - 1], calls[|calls| - 1];
      var before := Ops(w, capacity, front);
      before + Preparation(w, last) + Storing(w, Run(capacity, before), last)
  }

  function LastInstant(calls: seq<Call>): nat {
    if calls == [] then 0 else calls[|calls| - 1].handleAt
  }

  predicate Follows(w: World, calls: seq<Call>, call: Call) {
    Ordered(w, calls) && InTime(w, call) && LastInstant(calls) <= Begun(w, call)
  }

  // -------------------------------------------------------- reading and executing

  /** An instant within the call's read at which its source held just what the read returned. */
  predicate Instant(w: World, call: Call, at: nat) {
    InTime(w, call) && Begun(w, call) <= at <= call.readAt && GenerationAt(w, call.scope, at) == GenerationRead(w, call)
  }

  /** In a run that is never torn there is such an instant, as the runtime's reads linearize. */
  lemma ReadHasInstant(compute: (set<string>, string) -> Runtime.Route, w: World, call: Call) returns (at: nat)
    requires Runtime.IsRun(compute, w.run) && Runtime.Untorn(w.run) && InTime(w, call)
    ensures Instant(w, call, at)
  {
    if w.source(call.scope).Default? {
      var r := w.run[call.readAt].readers[call.reader];
      Runtime.ReadsLinearize(compute, w.run, call.readAt, call.reader);
      at :| r.since <= at <= call.readAt && w.run[at].slot == r.generation;
    } else {
      at := call.readAt;
    }
  }

  /** Whatever the result cache did, executing brings what the provider found at `handleAt` answers. */
  lemma ExecutedIsAnswer(compute: (set<string>, string) -> Runtime.Route, w: World, call: Call)
    requires Running(compute, w) && InTime(w, call) && Executed(w, call).Some?
    ensures var h := GenerationAt(w, call.scope, call.handleAt);
            h.Some? && Executed(w, call) == Answer(w, h.value, call.scope, call.params)
  {
    var q := call.query.value;
    ResultCache.CacheIsTransparent(w.results, w.resultCapacity, q.at, q.id, w.provider);
  }

  // ------------------------------------------------------------------- invariants

  /** An entry's row was answered by the generation of some instant up to `now`, after reading the generation `g`. */
  ghost predicate ComesFrom(w: World, scope: nat, keys: seq<ParamKey>, row: Row, g: Option<nat>, now: nat) {
    exists r: nat, h: nat, params ::
      && r <= h <= now < |w.run|
      && GenerationAt(w, scope, r) == g
      && GenerationAt(w, scope, h).Some?
      && AllKeyed(params) && Keys(params) == keys
      && Answer(w, GenerationAt(w, scope, h).value, scope, params) == Some(row)
  }

  function Lookup(m: map<nat, nat>, scope: nat): Option<nat> {
    if scope in m then Some(m[scope]) else None
  }

  ghost predicate WasCurrent(w: World, scope: nat, g: nat, now: nat) {
    exists k: nat :: k <= now < |w.run| && GenerationAt(w, scope, k) == Some(g)
  }

  /** Every recorded row comes from after the read that set its scope's generation. */
  ghost predicate LedgerOk(w: World, l: Ledger, now: nat) {
    && (forall k :: k in l.saved ==> ComesFrom(w, k.0, k.1, l.saved[k], Lookup(l.generations, k.0), now))
    && (forall scope :: scope in l.generations ==> WasCurrent(w, scope, l.generations[scope], now))
  }

  lemma LedgerLater(w: World, l: Ledger, now: nat, later: nat)
    requires LedgerOk(w, l, now) && now <= later < |w.run|
    ensures LedgerOk(w, l, later)
  {
    forall k | k in l.saved
      ensures ComesFrom(w, k.0, k.1, l.saved[k], Lookup(l.generations, k.0), later)
    {
      var g, row := Lookup(l.generations, k.0), l.saved[k];
      var r: nat, h: nat, params :| r <= h <= now && GenerationAt(w, k.0, r) == g && GenerationAt(w, k.0, h).Some?
        && AllKeyed(params) && Keys(params) == k.1
        && Answer(w, GenerationAt(w, k.0, h).value, k.0, params) == Some(row);
    }
  }

  /** A source that held a generation holds some generation ever after, or is a named one. */
  lemma NeverEmptied(compute: (set<string>, string) -> Runtime.Route, w: World, scope: nat, i: nat, j: nat)
    requires Runtime.IsRun(compute, w.run) && i <= j < |w.run|
    requires GenerationAt(w, scope, i).Some? && w.source(scope).Default?
    ensures GenerationAt(w, scope, j).Some?
  {
    Runtime.SlotStaysFilled(compute, w.run, i, j);
  }

  /** The same generation at two instants was held in between. */
  lemma HeldThroughout(compute: (set<string>, string) -> Runtime.Route, w: World, scope: nat, g: nat, i: nat, j: nat,
                       k: nat)
    requires Runtime.IsRun(compute, w.run) && i <= j <= k < |w.run|
    requires GenerationAt(w, scope, i) == Some(g) && GenerationAt(w, scope, k) == Some(g)
    ensures GenerationAt(w, scope, j) == Some(g)
  {
    match w.source(scope)
    case Default => Runtime.SlotHoldsThroughout(compute, w.run, i, j, k);
    case Named(name) => Runtime.NameHoldsThroughout(compute, w.run, name, g, i, j, k);
  }

  lemma PreparationKeepsLedger(w: World, l: Ledger, call: Call, at: nat)
    requires Instant(w, call, at) && LedgerOk(w, l, at)
    ensures var l' := HistoryFrom(l, Preparation(w, call));
            && LedgerOk(w, l', at)
            && (GenerationRead(w, call).Some? ==> Lookup(l'.generations, call.scope) == GenerationRead(w, call))
  {
    var g := GenerationRead(w, call);
    if g.Some? {
      RunOne(Empty(1), l, Prepare(call.scope, g.value));
      PrepareKeepsLedger(w, l, call.scope, g.value, at);
    }
  }

  lemma PrepareKeepsLedger(w: World, l: Ledger, scope: nat, g: nat, at: nat)
    requires LedgerOk(w, l, at) && at < |w.run| && GenerationAt(w, scope, at) == Some(g)
    ensures var l' := Record(l, Prepare(scope, g)); LedgerOk(w, l', at) && Lookup(l'.generations, scope) == Some(g)
  {
    var l' := Record(l, Prepare(scope, g));
    forall k | k in l'.saved
      ensures ComesFrom(w, k.0, k.1, l'.saved[k], Lookup(l'.generations, k.0), at)
    {
      assert k in l.saved && Lookup(l'.generations, k.0) == Lookup(l.generations, k.0);
    }
  }

  /**
   A miss that executes records a row of the generation found at `handleAt`, under the generation read
   before.
   */
  lemma StoringKeepsLedger(compute: (set<string>, string) -> Runtime.Route, w: World, l: Ledger, call: Call,
                           at: nat, row: Row)
    requires Running(compute, w) && Instant(w, call, at)
    requires LedgerOk(w, l, call.handleAt) && Executed(w, call) == Some(row)
    requires Lookup(l.generations, call.scope) == GenerationRead(w, call)
    ensures LedgerOk(w, Record(l, Save(call.scope, call.params, row)), call.handleAt)
  {
    ExecutedIsAnswer(compute, w, call);
    var l' := Record(l, Save(call.scope, call.params, row));
    forall k | k in l'.saved
      ensures ComesFrom(w, k.0, k.1, l'.saved[k], Lookup(l'.generations, k.0), call.handleAt)
    {
      if AllKeyed(call.params) && k == (call.scope, Keys(call.params)) {
        assert at <= call.handleAt;
      } else {
        assert k in l.saved;
      }
    }
  }

  /** Before the default provider's first install no generation is on record for it. */
  lemma NoneRecorded(compute: (set<string>, string) -> Runtime.Route, w: World, l: Ledger, scope: nat, at: nat)
    requires Runtime.IsRun(compute, w.run) && at < |w.run| && LedgerOk(w, l, at)
    requires w.source(scope).Default? && GenerationAt(w, scope, at).None?
    ensures Lookup(l.generations, scope).None?
  {
    if scope in l.generations {
      var k: nat :| k <= at && GenerationAt(w, scope, k) == Some(l.generations[scope]);
      NeverEmptied(compute, w, scope, k, at);
    }
  }

  lemma {:induction false} CallsKeepLedger(compute: (set<string>, string) -> Runtime.Route, w: World, capacity: nat,
                                           calls: seq<Call>)
    requires Running(compute, w) && Runtime.Untorn(w.run) && 0 < capacity && Ordered(w, calls)
    ensures LastInstant(calls) < |w.run| && LedgerOk(w, History(Ops(w, capacity, calls)), LastInstant(calls))
    decreases |calls|
  {
    if calls != [] {
      var front, call := calls[..|calls| - 1], calls[|calls| - 1];
      CallsKeepLedger(compute, w, capacity, front);
      var at := ReadHasInstant(compute, w, call);
      CallKeepsLedger(compute, w, capacity, front, call, at);
    }
  }

  lemma CallKeepsLedger(compute: (set<string>, string) -> Runtime.Route, w: World, capacity: nat, front: seq<Call>,
                        call: Call, at: nat)
    requires Running(compute, w) && 0 < capacity && Follows(w, front, call) && Instant(w, call, at)
    requires LedgerOk(w, History(Ops(w, capacity, front)), LastInstant(front))
    ensures var before := Ops(w, capacity, front);
            LedgerOk(w, History(before + Preparation(w, call) + Storing(w, Run(capacity, before), call)), call.handleAt)
  {
    var before := Ops(w, capacity, front);
    var prepare, store := Preparation(w, call), Storing(w, Run(capacity, before), call);
    var l := History(before);
    LedgerLater(w, l, LastInstant(front), at);
    PreparationKeepsLedger(w, l, call, at);
    HistoryFromConcat(EMPTY_LEDGER, before, prepare);
    HistoryFromConcat(EMPTY_LEDGER, before + prepare, store);
    var l1 := HistoryFrom(l, prepare);
    LedgerLater(w, l1, at, call.handleAt);
    if store != [] {
      if GenerationRead(w, call).None? {
        NoneRecorded(compute, w, l, call.scope, at);
      }
      StoringKeepsLedger(compute, w, l1, call, at, Executed(w, call).value);
      RunOne(Empty(capacity), l1, store[0]);
    }
  }

  // ---------------------------------------------------------------------- theorem

  /** A local hit is the row that the provider whose generation the call read would itself have answered. */
  predicate HitExact(w: World, capacity: nat, calls: seq<Call>, call: Call)
    requires 0 < capacity && Follows(w, calls, call)
  {
    var hit := LocalHit(w, Run(capacity, Ops(w, capacity, calls)), call);
    var g := GenerationRead(w, call);
    hit.Some? ==> g.Some? && Answer(w, g.value, call.scope, call.params) == hit
  }

  /**
   Local hits are exact across reloads: in every run of installs and prunes that is never torn and every
   sequence of cached calls, a local hit is the row that the provider whose generation the call read
   would itself have answered, although generation and executing handle were read at
   different instants when the row was saved, and the row may have come from the shared result cache.
   A reset inside a save does no harm: it forgets the generations too, so the scope's next call purges its
   entries before it looks.
   */
  lemma LocalHitsAreExact(compute: (set<string>, string) -> Runtime.Route, w: World, capacity: nat, calls: seq<Call>,
                          call: Call)
    requires Running(compute, w) && Runtime.Untorn(w.run) && AnswersByKey(w)
    requires 0 < capacity && Follows(w, calls, call)
    ensures HitExact(w, capacity, calls, call)
  {
    var before := Ops(w, capacity, calls);
    var prepare := Preparation(w, call);
    var hit := LocalHit(w, Run(capacity, before), call);
    if hit.Some? {
      var at := ReadHasInstant(compute, w, call);
      CallsKeepLedger(compute, w, capacity, calls);
      LedgerLater(w, History(before), LastInstant(calls), at);
      RunFromConcat(Empty(capacity), before, prepare);
      if GenerationRead(w, call).None? {
        assert before + prepare == before;
        NeverBeforeInstall(compute, w, capacity, before, call.scope, call.params, at);
      }
      PreparedHitIsExact(compute, w, capacity, before, call, at, hit.value);
    }
  }

  /** What a call returns: the hit, or the row that executing brought, or nothing when it could not execute. */
  function Returned(w: World, c: Cache, call: Call): Row
    requires InTime(w, call) && 0 < c.capacity
  {
    var hit := LocalHit(w, c, call);
    if hit.Some? then hit.value
    else if !Refused(w, call) && Executed(w, call).Some? then Executed(w, call).value
    else []
  }

  /**
   Whatever a call returns is the row of the provider whose generation it read, or of the provider it found for
   executing, or the empty row when it neither hit nor executed.
   */
  lemma CallsReturnAnswers(compute: (set<string>, string) -> Runtime.Route, w: World, capacity: nat, calls: seq<Call>,
                           call: Call)
    requires Running(compute, w) && Runtime.Untorn(w.run) && AnswersByKey(w)
    requires 0 < capacity && Follows(w, calls, call)
    ensures var c := Run(capacity, Ops(w, capacity, calls));
            var r, g, h := Returned(w, c, call), GenerationRead(w, call), GenerationAt(w, call.scope, call.handleAt);
            if LocalHit(w, c, call).Some? then g.Some? && Answer(w, g.value, call.scope, call.params) == Some(r)
            else if !Refused(w, call) && Executed(w, call).Some? then
              h.Some? && Answer(w, h.value, call.scope, call.params) == Some(r)
            else r == []
  {
    LocalHitsAreExact(compute, w, capacity, calls, call);
    if Executed(w, call).Some? {
      ExecutedIsAnswer(compute, w, call);
    }
  }

  /** A hit once the call's generation has been prepared. */
  lemma PreparedHitIsExact(compute: (set<string>, string) -> Runtime.Route, w: World, capacity: nat, before: seq<Op>,
                           call: Call, at: nat, row: Row)
    requires Runtime.IsRun(compute, w.run) && AnswersByKey(w) && 0 < capacity && Instant(w, call, at)
    requires LedgerOk(w, History(before), at) && GenerationRead(w, call).Some?
    requires FetchScoped(Run(capacity, before + Preparation(w, call)), call.scope, call.params) == Some(row)
    ensures Answer(w, GenerationRead(w, call).value, call.scope, call.params) == Some(row)
  {
    var prepare := Preparation(w, call);
    PreparationKeepsLedger(w, History(before), call, at);
    HistoryFromConcat(EMPTY_LEDGER, before, prepare);
    PreparationIsKnown(w, capacity, before, call);
    HitIsRecorded(capacity, before + prepare, call.scope, call.params);
    HitComesFromGeneration(compute, w, History(before + prepare), call, at, row);
  }

  lemma PreparationIsKnown(w: World, capacity: nat, before: seq<Op>, call: Call)
    requires 0 < capacity && InTime(w, call) && GenerationRead(w, call).Some?
    ensures call.scope in Run(capacity, before + Preparation(w, call)).generations
  {
    var prepare := Preparation(w, call);
    RunFromConcat(Empty(capacity), before, prepare);
    RunOne(Run(capacity, before), EMPTY_LEDGER, prepare[0]);
  }

  /** Before the default provider's first install nothing can have been saved for it. */
  lemma NeverBeforeInstall(compute: (set<string>, string) -> Runtime.Route, w: World, capacity: nat, ops: seq<Op>,
                           scope: nat, params: seq<Value>, at: nat)
    requires Runtime.IsRun(compute, w.run) && 0 < capacity && at < |w.run|
    requires LedgerOk(w, History(ops), at) && w.source(scope).Default?
    requires FetchScoped(Run(capacity, ops), scope, params).Some?
    ensures GenerationAt(w, scope, at).Some?
  {
    var l := History(ops);
    HitIsOnRecord(capacity, ops, scope, params);
    var keys :| (scope, keys) in l.saved;
    var g := Lookup(l.generations, scope);
    var h := SavedWhenHeld(w, scope, keys, l.saved[(scope, keys)], g, at);
    NeverEmptied(compute, w, scope, h, at);
  }

  lemma SavedWhenHeld(w: World, scope: nat, keys: seq<ParamKey>, row: Row, g: Option<nat>, now: nat) returns (h: nat)
    requires ComesFrom(w, scope, keys, row, g, now)
    ensures h <= now < |w.run| && GenerationAt(w, scope, h).Some?
  {
    var r: nat, at: nat, params :| r <= at <= now < |w.run| && GenerationAt(w, scope, r) == g
      && GenerationAt(w, scope, at).Some? && AllKeyed(params) && Keys(params) == keys
      && Answer(w, GenerationAt(w, scope, at).value, scope, params) == Some(row);
    h := at;
  }

  lemma SameQuestion(w: World, g: nat, scope: nat, p: seq<Value>, q: seq<Value>)
    requires AnswersByKey(w) && AllKeyed(p) && AllKeyed(q) && Keys(p) == Keys(q)
    ensures Answer(w, g, scope, p) == Answer(w, g, scope, q)
  {
    SameParamsIff(p, q);
  }

  lemma HitComesFromGeneration(compute: (set<string>, string) -> Runtime.Route, w: World, l: Ledger, call: Call,
                               at: nat, row: Row)
    requires Runtime.IsRun(compute, w.run) && AnswersByKey(w) && Instant(w, call, at)
    requires LedgerOk(w, l, at) && GenerationRead(w, call).Some?
    requires Lookup(l.generations, call.scope) == GenerationRead(w, call)
    requires AllKeyed(call.params) && (call.scope, Keys(call.params)) in l.saved
    requires l.saved[(call.scope, Keys(call.params))] == row
    ensures Answer(w, GenerationRead(w, call).value, call.scope, call.params) == Some(row)
  {
    var scope, keys, g := call.scope, Keys(call.params), Lookup(l.generations, call.scope);
    assert ComesFrom(w, scope, keys, row, g, at);
    var r: nat, h: nat, params :| r <= h <= at && GenerationAt(w, scope, r) == g
      && GenerationAt(w, scope, h).Some? && AllKeyed(params) && Keys(params) == keys
      && Answer(w, GenerationAt(w, scope, h).value, scope, params) == Some(row);
    SameQuestion(w, GenerationAt(w, scope, h).value, scope, params, call.params);
    HeldThroughout(compute, w, scope, g.value, r, h, at);
  }
}
