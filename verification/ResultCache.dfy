/** The shared result cache. */
module ResultCache {
  // The shared result cache (src/runtime.rs) as a step system: queries holding handles of any
  // age, provider installs, reconfiguration and the passing of time interleave freely, one
  // lock-protected update or atomic access per step.

  import opened Common
  import opened ResultKeys

  datatype Mode = Many | FirstRow

  datatype Response = Rows(rows: seq<Row>) | Single(row: Row)

  datatype Handle = Handle(generation: nat, datasource: string)

  /** The two entry points: a request with parameters, or a first-row query with fields. */
  datatype Request =
    | ByParams(sql: string, params: seq<QueryParam>, mode: Mode, useGlobal: bool)
    | ByFields(sql: string, fields: seq<DataField>, useGlobal: bool)

  function ModeOf(req: Request): Mode {
    if req.ByParams? then req.mode else FirstRow
  }

  function FieldsOf(req: Request): seq<DataField> {
    if req.ByParams? then ParamsToFields(req.params) else req.fields
  }

  datatype Key = Key(datasource: string, generation: nat, sql: string, stream: seq<Atom>, mode: Mode)

  /** Each entry point builds its key from its own form of the parameters. */
  function KeyFor(h: Handle, req: Request): Key {
    match req
    case ByParams(sql, params, mode, _) => Key(h.datasource, h.generation, sql, ParamsStream(params), mode)
    case ByFields(sql, fields, _) => Key(h.datasource, h.generation, sql, FieldsStream(fields), FirstRow)
  }

  datatype Cached = Cached(key: Key, response: Response, cachedAt: nat)

  /** A finished execution: what was asked of which handle, what it returned, and when. */
  datatype Execution = Execution(
    handle: Handle, sql: string, mode: Mode, bindings: seq<(string, Bound)>, response: Response, at: nat)

  datatype Query =
    | Started(handle: Handle, req: Request)
    | Fetching(handle: Handle, req: Request)                 // global cache in use; enabled flag to be read again
    | Peeking(handle: Handle, req: Request)
    | Found(handle: Handle, req: Request, entry: Cached)     // age not yet taken
    | Aged(handle: Handle, req: Request, entry: Cached, age: nat)
    | Expired(handle: Handle, req: Request)
    | Executing(handle: Handle, req: Request, saves: bool)
    | Saving(handle: Handle, req: Request, response: Response)
    | Hit(handle: Handle, req: Request, response: Response, cachedAt: nat, age: nat, ttl: nat)
    | Executed(handle: Handle, req: Request, response: Response)
    | FailedQuery(handle: Handle, req: Request)

  /** A reconfiguration under way. */
  datatype Change =
    | FlagNext(enabled: bool, capacity: nat, ttl: nat, reset: bool)
    | TtlNext(capacity: nat, ttl: nat, reset: bool)
    | ResetNext(capacity: nat)

  datatype State = State(
    now: nat,
    handles: set<Handle>,
    nextGeneration: nat,
    configEnabled: bool,
    configCapacity: nat,
    enabled: bool,
    ttl: nat,
    cache: seq<Cached>,
    cacheCapacity: nat,
    changes: map<nat, Change>,
    queries: map<nat, Query>,
    began: map<nat, nat>, // when each query was begun
    log: set<Execution>)

  datatype Action =
    | Tick(elapsed: nat)
    | Install(datasource: string)
    | Configure(id: nat, newEnabled: bool, capacity: nat, ttl: nat)
    | SetFlag(id: nat)
    | SetTtl(id: nat)
    | ResetCache(id: nat)
    | Begin(id: nat, handle: Handle, req: Request)
    | ReadFlag(id: nat)
    | ReadFlagAgain(id: nat)
    | Peek(id: nat)
    | TakeAge(id: nat)
    | CompareTtl(id: nat)
    | PopExpired(id: nat)
    | Execute(id: nat, response: Response)
    | Fail(id: nat)
    | Save(id: nat)

  function Init(capacity: nat): State {
    State(0, {}, 0, true, AtLeastOne(capacity), true, 30_000, [], AtLeastOne(capacity), map[], map[], map[], {})
  }

  function AtLeastOne(n: nat): nat {
    if n == 0 then 1 else n
  }

  predicate Over(q: Query) {
    q.Hit? || q.Executed? || q.FailedQuery?
  }

  /** A first-row execution answers with one row, the other kind with any number. */
  predicate Answers(mode: Mode, response: Response) {
    response.Single? <==> mode.FirstRow?
  }

  predicate Enabled(s: State, a: Action) {
    match a
    case Tick(_) => true
    case Install(_) => true
    case Configure(id, _, _, _) => id !in s.changes
    case SetFlag(id) => id in s.changes && s.changes[id].FlagNext?
    case SetTtl(id) => id in s.changes && s.changes[id].TtlNext?
    case ResetCache(id) => id in s.changes && s.changes[id].ResetNext?
    case Begin(id, handle, _) => handle in s.handles && (id in s.queries ==> Over(s.queries[id]))
    case ReadFlag(id) => id in s.queries && s.queries[id].Started?
    case ReadFlagAgain(id) => id in s.queries && s.queries[id].Fetching?
    case Peek(id) => id in s.queries && s.queries[id].Peeking?
    case TakeAge(id) => id in s.queries && s.queries[id].Found?
    case CompareTtl(id) => id in s.queries && s.queries[id].Aged?
    case PopExpired(id) => id in s.queries && s.queries[id].Expired?
    case Execute(id, response) =>
      id in s.queries && s.queries[id].Executing? && Answers(ModeOf(s.queries[id].req), response)
    case Fail(id) => id in s.queries && s.queries[id].Executing?
    case Save(id) => id in s.queries && s.queries[id].Saving?
  }

  function Find(cache: seq<Cached>, key: Key): (r: Option<Cached>)
    ensures r.Some? ==> r.value in cache && r.value.key == key
  {
    if cache == [] then None else if cache[0].key == key then Some(cache[0]) else Find(cache[1..], key)
  }

  function Drop(cache: seq<Cached>, key: Key): (r: seq<Cached>)
    ensures forall e :: e in r ==> e in cache && e.key != key
    ensures |r| <= |cache|
  {
    if cache == [] then []
    else if cache[0].key == key then Drop(cache[1..], key)
    else [cache[0]] + Drop(cache[1..], key)
  }

  /** Insert or replace as most recent; a full cache loses its least recent entry. */
  function Put(cache: seq<Cached>, capacity: nat, e: Cached): (r: seq<Cached>)
    requires 0 < capacity
    ensures forall x :: x in r ==> x == e || (x in cache && x.key != e.key)
    ensures |r| <= capacity || |cache| > capacity
  {
    var rest := Drop(cache, e.key);
    [e] + if |rest| < capacity then rest else rest[..capacity - 1]
  }

  function Effect(s: State, a: Action): State
    requires Enabled(s, a) && 0 < s.cacheCapacity
  {
    match a
    case Tick(elapsed) => s.(now := s.now + elapsed)
    case Install(datasource) =>
      s.(nextGeneration := s.nextGeneration + 1, handles := s.handles + {Handle(s.nextGeneration + 1, datasource)})
    case Configure(id, newEnabled, capacity, ttl) =>
      var reset := s.configCapacity != AtLeastOne(capacity) || (!newEnabled && s.configEnabled);
      s.(configEnabled := newEnabled, configCapacity := AtLeastOne(capacity),
         changes := s.changes[id := FlagNext(newEnabled, AtLeastOne(capacity), AtLeastOne(ttl), reset)])
    case SetFlag(id) =>
      var c := s.changes[id];
      s.(enabled := c.enabled, changes := s.changes[id := TtlNext(c.capacity, c.ttl, c.reset)])
    case SetTtl(id) =>
      var c := s.changes[id];
      s.(ttl := c.ttl, changes := if c.reset then s.changes[id := ResetNext(c.capacity)] else s.changes - {id})
    case ResetCache(id) =>
      s.(cache := [], cacheCapacity := AtLeastOne(s.changes[id].capacity), changes := s.changes - {id})
    case Begin(id, handle, req) => s.(queries := s.queries[id := Started(handle, req)], began := s.began[id := s.now])
    case ReadFlag(id) =>
      var q := s.queries[id];
      s.(queries := s.queries[id := if q.req.useGlobal && s.enabled then Fetching(q.handle, q.req)
                                    else Executing(q.handle, q.req, false)])
    case ReadFlagAgain(id) =>
      var q := s.queries[id];
      s.(queries := s.queries[id := if s.enabled then Peeking(q.handle, q.req) else Executing(q.handle, q.req, true)])
    case Peek(id) =>
      var q := s.queries[id];
      var found := Find(s.cache, KeyFor(q.handle, q.req));
      s.(queries := s.queries[id := if found.Some? then Found(q.handle, q.req, found.value)
                                    else Executing(q.handle, q.req, true)])
    case TakeAge(id) =>
      var q := s.queries[id];
      var age := if q.entry.cachedAt <= s.now then s.now - q.entry.cachedAt else 0;
      s.(queries := s.queries[id := Aged(q.handle, q.req, q.entry, age)])
    case CompareTtl(id) =>
      var q := s.queries[id];
      s.(queries := s.queries[id := if q.age > s.ttl then Expired(q.handle, q.req)
                                    else Hit(q.handle, q.req, q.entry.response, q.entry.cachedAt, q.age, s.ttl)])
    case PopExpired(id) =>
      var q := s.queries[id];
      s.(cache := Drop(s.cache, KeyFor(q.handle, q.req)), queries := s.queries[id := Executing(q.handle, q.req, true)])
    case Execute(id, response) =>
      var q := s.queries[id];
      s.(log := s.log + {Execution(q.handle, q.req.sql, ModeOf(q.req), Bindings(FieldsOf(q.req)), response, s.now)},
         queries := s.queries[id := if q.saves then Saving(q.handle, q.req, response)
                                    else Executed(q.handle, q.req, response)])
    case Fail(id) =>
      var q := s.queries[id];
      s.(queries := s.queries[id := FailedQuery(q.handle, q.req)])
    case Save(id) =>
      var q := s.queries[id];
      s.(cache := Put(s.cache, s.cacheCapacity, Cached(KeyFor(q.handle, q.req), q.response, s.now)),
         queries := s.queries[id := Executed(q.handle, q.req, q.response)])
  }

  ghost predicate IsRun(run: seq<State>, capacity: nat) {
    && run != [] && run[0] == Init(capacity)
    && forall i :: 0 <= i < |run| - 1 ==> Steps(run[i], run[i + 1])
  }

  ghost predicate Steps(s: State, t: State) {
    0 < s.cacheCapacity && exists a :: Enabled(s, a) && t == Effect(s, a)
  }

  // ------------------------------------------------------------------- invariants

  /** Generations are never shared by two handles. */
  ghost predicate HandlesOk(s: State) {
    && (forall h :: h in s.handles ==> h.generation <= s.nextGeneration)
    && (forall g, h :: g in s.handles && h in s.handles && g.generation == h.generation ==> g == h)
  }

  /** Some logged execution, finished by `by`, asked what the key identifies and returned the response. */
  ghost predicate Produced(s: State, key: Key, response: Response, until: nat) {
    exists x ::
      && x in s.log && x.handle in s.handles
      && x.handle.datasource == key.datasource && x.handle.generation == key.generation
      && x.sql == key.sql && x.mode == key.mode && Answers(x.mode, x.response)
      && (exists fields :: FieldsStream(fields) == key.stream && Bindings(fields) == x.bindings)
      && x.response == response && x.at <= until
  }

  /** What a query begun at `since` has established. An age, once taken, is that of an instant within the query. */
  ghost predicate QueryOk(s: State, since: nat, q: Query) {
    && q.handle in s.handles && since <= s.now
    && match q
       case Found(h, req, e) => e.key == KeyFor(h, req) && EntryOk(s, e)
       case Aged(h, req, e, age) =>
         e.key == KeyFor(h, req) && EntryOk(s, e) && since <= e.cachedAt + age <= s.now
       case Saving(h, req, response) => Produced(s, KeyFor(h, req), response, s.now)
       case Executed(h, req, response) => Produced(s, KeyFor(h, req), response, s.now)
       case Hit(h, req, response, cachedAt, age, ttl) =>
         Produced(s, KeyFor(h, req), response, cachedAt) && since <= cachedAt + age <= s.now && age <= ttl
       case _ => true
  }

  ghost predicate EntryOk(s: State, e: Cached) {
    e.cachedAt <= s.now && Produced(s, e.key, e.response, e.cachedAt)
  }

  ghost predicate CacheOk(s: State) {
    && 0 < s.cacheCapacity && |s.cache| <= s.cacheCapacity
    && forall e :: e in s.cache ==> EntryOk(s, e)
  }

  ghost predicate QueriesOk(s: State) {
    forall id :: id in s.queries ==> id in s.began && QueryOk(s, s.began[id], s.queries[id])
  }

  ghost predicate Inv(s: State) {
    HandlesOk(s) && CacheOk(s) && QueriesOk(s)
  }

  /** Nothing logged is forgotten. */
  ghost predicate Grows(s: State, t: State) {
    s.now <= t.now && s.handles <= t.handles && s.log <= t.log
  }

  lemma EffectGrows(s: State, a: Action)
    requires Enabled(s, a) && 0 < s.cacheCapacity
    ensures Grows(s, Effect(s, a))
  {
  }

  lemma HandlesKept(s: State, a: Action)
    requires Enabled(s, a) && 0 < s.cacheCapacity && HandlesOk(s)
    ensures HandlesOk(Effect(s, a))
  {
  }

  lemma ProducedStays(s: State, t: State, key: Key, response: Response, until: nat, later: nat)
    requires Grows(s, t) && Produced(s, key, response, until) && until <= later
    ensures Produced(t, key, response, later)
  {
    var x :| x in s.log && x.handle in s.handles
      && x.handle.datasource == key.datasource && x.handle.generation == key.generation
      && x.sql == key.sql && x.mode == key.mode && Answers(x.mode, x.response)
      && (exists fields :: FieldsStream(fields) == key.stream && Bindings(fields) == x.bindings)
      && x.response == response && x.at <= until;
    assert x in t.log;
  }

  lemma EntryStays(s: State, t: State, e: Cached)
    requires Grows(s, t) && EntryOk(s, e)
    ensures EntryOk(t, e)
  {
    ProducedStays(s, t, e.key, e.response, e.cachedAt, e.cachedAt);
  }

  lemma QueryStays(s: State, t: State, since: nat, q: Query)
    requires Grows(s, t) && QueryOk(s, since, q)
    ensures QueryOk(t, since, q)
  {
    match q
    case Found(_, _, e) => EntryStays(s, t, e);
    case Aged(_, _, e, _) => EntryStays(s, t, e);
    case Saving(h, req, response) => ProducedStays(s, t, KeyFor(h, req), response, s.now, t.now);
    case Executed(h, req, response) => ProducedStays(s, t, KeyFor(h, req), response, s.now, t.now);
    case Hit(h, req, response, cachedAt, _, _) => ProducedStays(s, t, KeyFor(h, req), response, cachedAt, cachedAt);
    case _ =>
  }

  /** The key's stream is the stream of the fields that are bound, for either entry point. */
  lemma KeyStream(h: Handle, req: Request)
    ensures KeyFor(h, req).stream == FieldsStream(FieldsOf(req))
    ensures KeyFor(h, req).mode == ModeOf(req) && KeyFor(h, req).sql == req.sql
  {
    if req.ByParams? {
      SameStream(req.params);
    }
  }

  lemma ExecutionProduces(s: State, a: Action)
    requires a.Execute? && Enabled(s, a) && 0 < s.cacheCapacity && s.queries[a.id].handle in s.handles
    ensures var q := s.queries[a.id]; Produced(Effect(s, a), KeyFor(q.handle, q.req), a.response, s.now)
  {
    var q := s.queries[a.id];
    KeyStream(q.handle, q.req);
    var x := Execution(q.handle, q.req.sql, ModeOf(q.req), Bindings(FieldsOf(q.req)), a.response, s.now);
    assert x in Effect(s, a).log;
  }

  lemma CacheKept(s: State, a: Action)
    requires Enabled(s, a) && Inv(s)
    ensures CacheOk(Effect(s, a))
  {
    var t := Effect(s, a);
    EffectGrows(s, a);
    forall e | e in t.cache
      ensures EntryOk(t, e)
    {
      if e in s.cache {
        EntryStays(s, t, e);
      } else {
        var q := s.queries[a.id];
        assert a.Save? && e == Cached(KeyFor(q.handle, q.req), q.response, s.now);
        assert QueryOk(s, s.began[a.id], q);
        ProducedStays(s, t, e.key, e.response, s.now, s.now);
      }
    }
  }

  /** The query an action moves, if any. */
  function Moves(a: Action): Option<nat> {
    match a
    case Begin(id, _, _) => Some(id)
    case ReadFlag(id) => Some(id)
    case ReadFlagAgain(id) => Some(id)
    case Peek(id) => Some(id)
    case TakeAge(id) => Some(id)
    case CompareTtl(id) => Some(id)
    case PopExpired(id) => Some(id)
    case Execute(id, _) => Some(id)
    case Fail(id) => Some(id)
    case Save(id) => Some(id)
    case _ => None
  }

  lemma OthersStay(s: State, a: Action, id: nat)
    requires Enabled(s, a) && 0 < s.cacheCapacity && Moves(a) != Some(id)
    ensures var t := Effect(s, a);
            && (id in t.queries <==> id in s.queries) && (id in t.began <==> id in s.began)
            && (id in s.queries ==> t.queries[id] == s.queries[id])
            && (id in s.began ==> t.began[id] == s.began[id])
  {
    if Moves(a).Some? {
      MovesOne(s, a, Moves(a).value);
    } else {
      MovesNone(s, a);
    }
  }

  lemma MovesOne(s: State, a: Action, m: nat)
    requires Enabled(s, a) && 0 < s.cacheCapacity && Moves(a) == Some(m)
    ensures var t := Effect(s, a);
            && m in t.queries && t.queries == s.queries[m := t.queries[m]]
            && (t.began == s.began || (m in t.began && t.began == s.began[m := t.began[m]]))
  {
  }

  lemma MovesNone(s: State, a: Action)
    requires Enabled(s, a) && 0 < s.cacheCapacity && Moves(a).None?
    ensures Effect(s, a).queries == s.queries && Effect(s, a).began == s.began
  {
  }

  lemma QueryMoves(s: State, a: Action, id: nat)
    requires Enabled(s, a) && Inv(s) && Moves(a) == Some(id)
    ensures var t := Effect(s, a); id in t.queries && id in t.began && QueryOk(t, t.began[id], t.queries[id])
  {
    EffectGrows(s, a);
    if a.Begin? {
    } else {
      assert QueryOk(s, s.began[id], s.queries[id]);
      if a.Peek? || a.TakeAge? || a.CompareTtl? {
        LookupMoves(s, a, id);
      } else if a.Execute? {
        ExecutionProduces(s, a);
      } else if a.Save? {
        var q := s.queries[id];
        ProducedStays(s, Effect(s, a), KeyFor(q.handle, q.req), q.response, s.now, s.now);
      }
    }
  }

  /** The three steps that carry a cache entry along. */
  lemma LookupMoves(s: State, a: Action, id: nat)
    requires Enabled(s, a) && Inv(s) && Moves(a) == Some(id) && (a.Peek? || a.TakeAge? || a.CompareTtl?)
    requires id in s.began && QueryOk(s, s.began[id], s.queries[id])
    ensures var t := Effect(s, a); QueryOk(t, s.began[id], t.queries[id]) && t.began == s.began
  {
    var t := Effect(s, a);
    EffectGrows(s, a);
    var q := s.queries[id];
    if a.Peek? {
      var found := Find(s.cache, KeyFor(q.handle, q.req));
      if found.Some? {
        EntryStays(s, t, found.value);
      }
    } else {
      EntryStays(s, t, q.entry);
    }
  }

  lemma StepKeepsInv(s: State, t: State)
    requires Steps(s, t) && Inv(s)
    ensures Inv(t) && Grows(s, t)
  {
    var a :| Enabled(s, a) && t == Effect(s, a);
    EffectGrows(s, a);
    HandlesKept(s, a);
    CacheKept(s, a);
    forall id | id in t.queries
      ensures id in t.began && QueryOk(t, t.began[id], t.queries[id])
    {
      if Moves(a) == Some(id) {
        QueryMoves(s, a, id);
      } else {
        OthersStay(s, a, id);
        QueryStays(s, t, s.began[id], s.queries[id]);
      }
    }
  }

  lemma {:induction false} RunKeepsInv(run: seq<State>, capacity: nat, n: nat)
    requires IsRun(run, capacity) && n < |run|
    ensures Inv(run[n])
    decreases n
  {
    if 0 < n {
      RunKeepsInv(run, capacity, n - 1);
      assert Steps(run[n - 1], run[n - 1 + 1]);
      StepKeepsInv(run[n - 1], run[n]);
    }
  }

  // --------------------------------------------------------------------- theorems

  /**
   Every hit, in every run, returns the response of a logged execution on the very handle the
   query holds, with the same statement, mode and bound values; at some instant within the
   query the entry had been cached no longer than the TTL then read.
   */
  lemma HitsAreSound(run: seq<State>, capacity: nat, n: nat, id: nat)
    requires IsRun(run, capacity) && n < |run| && id in run[n].queries && run[n].queries[id].Hit?
    ensures var s, q := run[n], run[n].queries[id];
            && id in s.began && s.began[id] <= q.cachedAt + q.age <= s.now && q.age <= q.ttl
            && Answers(ModeOf(q.req), q.response)
            && exists x :: x in s.log && x.handle == q.handle && x.sql == q.req.sql && x.mode == ModeOf(q.req)
                           && x.bindings == Bindings(FieldsOf(q.req)) && x.response == q.response && x.at <= q.cachedAt
  {
    RunKeepsInv(run, capacity, n);
    var s, q := run[n], run[n].queries[id];
    assert QueryOk(s, s.began[id], q);
    var x := ProducedBy(s, q.handle, q.req, q.response, q.cachedAt);
  }

  /** The response a query came back with, from the cache or from its own execution. */
  function AnswerOf(q: Query): Option<Response> {
    match q
    case Hit(_, _, response, _, _, _) => Some(response)
    case Executed(_, _, response) => Some(response)
    case _ => None
  }

  /** Every execution so far returned what a provider of its generation answers, whenever it does not fail. */
  ghost predicate AnsweredBy(log: set<Execution>, provider: Provider) {
    forall x :: x in log ==> x.response == provider(x.handle.generation, x.sql, x.mode, x.bindings)
  }

  type Provider = (nat, string, Mode, seq<(string, Bound)>) -> Response

  /**
   The cache is transparent: with providers that answer the same question alike, every query that comes back,
   in every run, brings what the provider of its own handle's generation answers to its statement, mode and
   bound values.
   */
  lemma CacheIsTransparent(run: seq<State>, capacity: nat, n: nat, id: nat, provider: Provider)
    requires IsRun(run, capacity) && n < |run| && AnsweredBy(run[n].log, provider)
    requires id in run[n].queries && AnswerOf(run[n].queries[id]).Some?
    ensures var q := run[n].queries[id];
            && AnswerOf(q).value == provider(q.handle.generation, q.req.sql, ModeOf(q.req), Bindings(FieldsOf(q.req)))
            && Answers(ModeOf(q.req), AnswerOf(q).value)
  {
    RunKeepsInv(run, capacity, n);
    var s, q := run[n], run[n].queries[id];
    assert QueryOk(s, s.began[id], q);
    var until := if q.Hit? then q.cachedAt else s.now;
    var x := ProducedBy(s, q.handle, q.req, AnswerOf(q).value, until);
  }

  /** The execution behind a response asked for the very values the request binds. */
  lemma ProducedBy(s: State, handle: Handle, req: Request, response: Response, until: nat) returns (x: Execution)
    requires HandlesOk(s) && handle in s.handles && Produced(s, KeyFor(handle, req), response, until)
    ensures x in s.log && x.handle == handle && x.sql == req.sql && x.mode == ModeOf(req)
    ensures x.bindings == Bindings(FieldsOf(req)) && x.response == response && x.at <= until
    ensures Answers(ModeOf(req), response)
  {
    var key := KeyFor(handle, req);
    KeyStream(handle, req);
    x :| x in s.log && x.handle in s.handles
      && x.handle.datasource == key.datasource && x.handle.generation == key.generation
      && x.sql == key.sql && x.mode == key.mode && Answers(x.mode, x.response)
      && (exists fields :: FieldsStream(fields) == key.stream && Bindings(fields) == x.bindings)
      && x.response == response && x.at <= until;
    var fields :| FieldsStream(fields) == key.stream && Bindings(fields) == x.bindings;
    EqualStreamsBindEqual(fields, FieldsOf(req));
  }

  /** The cache never holds more than its capacity. */
  lemma CacheStaysBounded(run: seq<State>, capacity: nat, n: nat)
    requires IsRun(run, capacity) && n < |run|
    ensures |run[n].cache| <= run[n].cacheCapacity
  {
    RunKeepsInv(run, capacity, n);
  }

  // ----------------------------------------------------------- a run with one query

  lemma OneStepMore(run: seq<State>, capacity: nat, a: Action, x: Execution) returns (more: seq<State>)
    requires IsRun(run, capacity) && LogsAtMost(run, x)
    requires Enabled(run[|run| - 1], a) && 0 < run[|run| - 1].cacheCapacity
    requires Effect(run[|run| - 1], a).log <= {x}
    ensures IsRun(more, capacity) && LogsAtMost(more, x) && more == run + [Effect(run[|run| - 1], a)]
  {
    more := run + [Effect(run[|run| - 1], a)];
    forall i | 0 <= i < |more| - 1
      ensures Steps(more[i], more[i + 1])
    {
      if i < |run| - 1 {
        assert Steps(run[i], run[i + 1]);
      }
    }
  }

  ghost predicate LogsAtMost(run: seq<State>, x: Execution) {
    forall n :: 0 <= n < |run| ==> run[n].log <= {x}
  }

  /** Nothing but installs so far, the last of them with the generation. */
  ghost predicate Fresh(s: State, g: nat) {
    && s == Init(1).(nextGeneration := g, handles := s.handles)
    && (0 < g ==> Handle(g, "") in s.handles)
  }

  lemma {:induction false} InstallUpTo(g: nat, x: Execution) returns (run: seq<State>)
    ensures IsRun(run, 1) && LogsAtMost(run, x) && Fresh(run[|run| - 1], g)
  {
    if g == 0 {
      run := [Init(1)];
    } else {
      run := InstallUpTo(g - 1, x);
      run := OneStepMore(run, 1, Install(""), x);
    }
  }

  /** A query of its own that finds nothing in the empty cache. */
  lemma OneMiss(g: nat, req: Request, x: Execution) returns (run: seq<State>)
    requires 0 < g && req.useGlobal
    ensures IsRun(run, 1) && LogsAtMost(run, x)
    ensures var s := run[|run| - 1];
            s == Init(1).(nextGeneration := g, handles := s.handles, began := map[0 := 0],
                          queries := map[0 := Executing(Handle(g, ""), req, true)])
            && Handle(g, "") in s.handles
  {
    var h := Handle(g, "");
    run := InstallUpTo(g, x);
    run := OneStepMore(run, 1, Begin(0, h, req), x);
    run := OneStepMore(run, 1, ReadFlag(0), x);
    assert run[|run| - 1].queries == map[0 := Fetching(h, req)];
    run := OneStepMore(run, 1, ReadFlagAgain(0), x);
    run := OneStepMore(run, 1, Peek(0), x);
    assert run[|run| - 1].queries == map[0 := Executing(h, req, true)];
  }

  /** And then executes on a handle of the generation, and saves. */
  lemma OneExecution(g: nat, req: Request, response: Response) returns (run: seq<State>, x: Execution)
    requires 0 < g && req.useGlobal && Answers(ModeOf(req), response)
    ensures IsRun(run, 1) && LogsAtMost(run, x)
    ensures x == Execution(Handle(g, ""), req.sql, ModeOf(req), Bindings(FieldsOf(req)), response, 0)
    ensures 0 in run[|run| - 1].queries && run[|run| - 1].queries[0] == Executed(Handle(g, ""), req, response)
    ensures var s := run[|run| - 1];
            && s == Init(1).(nextGeneration := g, handles := s.handles, began := s.began, queries := s.queries,
                             log := {x}, cache := [Cached(KeyFor(Handle(g, ""), req), response, 0)])
            && Handle(g, "") in s.handles && 1 !in s.queries
  {
    x := Execution(Handle(g, ""), req.sql, ModeOf(req), Bindings(FieldsOf(req)), response, 0);
    run := OneMiss(g, req, x);
    run := OneStepMore(run, 1, Execute(0, response), x);
    run := OneStepMore(run, 1, Save(0), x);
  }

  /** What a query of the same request looks up once its flags are read. */
  lemma AskAgain(run: seq<State>, g: nat, req: Request, response: Response, x: Execution, elapsed: nat)
    returns (more: seq<State>)
    requires IsRun(run, 1) && LogsAtMost(run, x) && req.useGlobal && run[|run| - 1].enabled
    requires var s := run[|run| - 1];
             && Handle(g, "") in s.handles && 1 !in s.queries && s.log <= {x} && 0 < s.cacheCapacity
             && s.cache == [Cached(KeyFor(Handle(g, ""), req), response, s.now)]
    ensures IsRun(more, 1) && LogsAtMost(more, x)
    ensures var s, t := run[|run| - 1], more[|more| - 1];
            && t == s.(now := s.now + elapsed, began := t.began, queries := t.queries)
            && 1 in t.queries && t.queries[1] == Found(Handle(g, ""), req, s.cache[0])
  {
    var h := Handle(g, "");
    more := OneStepMore(run, 1, Tick(elapsed), x);
    more := OneStepMore(more, 1, Begin(1, h, req), x);
    more := OneStepMore(more, 1, ReadFlag(1), x);
    more := OneStepMore(more, 1, ReadFlagAgain(1), x);
    more := OneStepMore(more, 1, Peek(1), x);
  }

  /**
   Asked again while the response is no older than the time to live, the cache answers with it; later the entry
   goes, and the query executes anew.
   */
  lemma SecondQuery(g: nat, req: Request, response: Response, elapsed: nat) returns (run: seq<State>)
    requires 0 < g && req.useGlobal && Answers(ModeOf(req), response)
    ensures IsRun(run, 1) && 1 in run[|run| - 1].queries
    ensures var s, q := run[|run| - 1], run[|run| - 1].queries[1];
            if elapsed <= 30_000 then q == Hit(Handle(g, ""), req, response, 0, elapsed, 30_000) && |s.cache| == 1
            else q == Executing(Handle(g, ""), req, true) && s.cache == []
  {
    var x;
    run, x := OneExecution(g, req, response);
    run := AskAgain(run, g, req, response, x, elapsed);
    run := OneStepMore(run, 1, TakeAge(1), x);
    run := OneStepMore(run, 1, CompareTtl(1), x);
    if 30_000 < elapsed {
      run := OneStepMore(run, 1, PopExpired(1), x);
    }
  }
}
