/** When hits stay exact. */
module HitsExact {
  // Exactly which runs of the registry keep local hits exact (src/facade.rs): those that are never torn. At a
  // torn instant two cached calls are enough for a hit that the provider of the generation they read would not
  // have given.

  import opened Common
  import opened LocalCache
  import opened Facade
  import ResultCache
  import Runtime
  import Installs

  /** A world whose registry goes on with nothing but reads from an instant of the run, and calls on one cache. */
  ghost predicate GoesOn(compute: (set<string>, string) -> Runtime.Route, run: seq<Runtime.State>, k: nat, w: World,
                         capacity: nat, calls: seq<Call>, call: Call)
  {
    && Runtime.ReadsFrom(compute, run, k, w.run) && Running(compute, w) && AnswersByKey(w)
    && 0 < capacity && Follows(w, calls, call)
  }

  ghost predicate HitsStayExact(compute: (set<string>, string) -> Runtime.Route, run: seq<Runtime.State>) {
    forall k, w, capacity, calls, call ::
      GoesOn(compute, run, k, w, capacity, calls, call) ==> HitExact(w, capacity, calls, call)
  }

  // ------------------------------------------------- one save and one lookup in a new cache

  /** The cache once it holds one row, for the parameter 7. */
  function Holding(c: Cache, row: Row): Cache {
    c.(order := [KInt(7)], lru := [Entry(LocalKey(0, [1]), row)])
  }

  lemma SevenInterned(c: Cache)
    requires c.order == []
    ensures UpAll(c, [Int(7)]) == (c.(order := [KInt(7)]), [Some(1)])
  {
    var up := c.(order := [KInt(7)]);
    assert MaybeReset(c) == c && KeyOf(Int(7)) == Some(KInt(7)) && IndexIn(c.order, KInt(7)).None?;
    assert c.order + [KInt(7)] == [KInt(7)];
    assert TryUpIdx(c, Int(7)) == (up, Some(1));
    var none: seq<Value> := [];
    assert [Int(7)][1..] == none && UpAll(up, none) == (up, []);
    assert [Some(1)] + UpAll(up, none).1 == [Some(1)];
  }

  lemma SevenFound(c: Cache, row: Row)
    requires c.order == []
    ensures GetAll(c, [Int(7)]) == [None] && GetAll(Holding(c, row), [Int(7)]) == [Some(1)]
  {
    assert [KInt(7)][0] == KInt(7) && IndexIn([KInt(7)], KInt(7)) == Some(1);
  }

  lemma SaveAndFetch(c: Cache, row: Row)
    requires c.capacity == 1 && c.order == [] && c.lru == []
    ensures FetchScoped(c, 0, [Int(7)]).None? && SaveScoped(c, 0, [Int(7)], row) == Holding(c, row)
    ensures FetchScoped(Holding(c, row), 0, [Int(7)]) == Some(row)
  {
    SevenInterned(c);
    SevenFound(c, row);
    assert GetAll(c, [Int(7)])[0] == None;
    assert Values([Some(1)]) == [1];
  }

  lemma SavedIsHit(prepare: seq<Op>, v: nat, row: Row)
    requires prepare == if v == 0 then [] else [Prepare(0, v)]
    ensures FetchScoped(Run(1, prepare), 0, [Int(7)]).None?
    ensures FetchScoped(RunFrom(Run(1, prepare + [Save(0, [Int(7)], row)]), prepare), 0, [Int(7)]) == Some(row)
  {
    var c := Run(1, prepare);
    if v != 0 {
      RunOne(Empty(1), EMPTY_LEDGER, prepare[0]);
      assert c == Empty(1).(generations := map[0 := v]);
    }
    SaveAndFetch(c, row);
    RunFromConcat(Empty(1), prepare, [Save(0, [Int(7)], row)]);
    RunOne(c, EMPTY_LEDGER, Save(0, [Int(7)], row));
    if v != 0 {
      RunOne(Holding(c, row), EMPTY_LEDGER, prepare[0]);
    }
  }

  // ------------------------------------------------------------ what a torn instant causes

  function RowOf(mine: bool): Row {
    [("mine", if mine then "yes" else "no")]
  }

  /** Providers that tell whether theirs is the generation `s`. */
  function Telling(s: nat): ResultCache.Provider {
    (g, sql, mode: ResultCache.Mode, bindings) =>
      if mode.FirstRow? then ResultCache.Single(RowOf(g == s)) else ResultCache.Rows([])
  }

  /** Only the default provider, one statement, no fields. */
  function TellingWorld(run: seq<Runtime.State>, results: seq<ResultCache.State>, s: nat): World {
    World(run, results, 1, scope => Default, scope => "", (scope, params) => [], Telling(s))
  }

  lemma TellingRuns(compute: (set<string>, string) -> Runtime.Route, run: seq<Runtime.State>,
                    results: seq<ResultCache.State>, s: nat, x: ResultCache.Execution)
    requires Runtime.IsRun(compute, run) && ResultCache.IsRun(results, 1) && ResultCache.LogsAtMost(results, x)
    requires x.response == Telling(s)(x.handle.generation, x.sql, x.mode, x.bindings)
    ensures Running(compute, TellingWorld(run, results, s)) && AnswersByKey(TellingWorld(run, results, s))
  {
  }

  /** The world after a torn instant, with two reads of the stored generation and one executed query. */
  lemma TornWorld(compute: (set<string>, string) -> Runtime.Route, run: seq<Runtime.State>, k: nat)
    returns (w: World, first: Call, second: Call)
    requires Runtime.IsRun(compute, run) && k < |run| && Runtime.Torn(run[k])
    ensures GoesOn(compute, run, k, w, 1, [first], second) && Follows(w, [], first)
    ensures GenerationRead(w, first) == GenerationRead(w, second) == FromValue(run[k].currentValue)
    ensures Executed(w, first) == Some(RowOf(true))
    ensures w.source(0).Default? && w.provider == Telling(run[k].slot)
    ensures first.scope == second.scope == 0 && first.params == second.params == [Int(7)]
  {
    var s := run[k].slot;
    Installs.TornHasSlot(compute, run, k);
    var more, reader, m, again := Runtime.TwoReads(compute, run, k);
    var req := ResultCache.ByFields("", [], true);
    var results, x := ResultCache.OneExecution(s, req, ResultCache.Single(RowOf(true)));
    w := TellingWorld(more, results, s);
    TellingRuns(compute, more, results, s, x);
    assert Runtime.OnlyReads(run[k], more[m]);
    first := Call(0, [Int(7)], reader, m, m, Some(Query(0, |results| - 1)));
    second := Call(0, [Int(7)], again, |more| - 1, |more| - 1, None);
  }

  /** The first call saves the slot's row under the stored generation. */
  lemma FirstCallSaves(w: World, first: Call, v: nat, row: Row)
    requires Follows(w, [], first) && first.scope == 0 && first.params == [Int(7)] && w.source(0).Default?
    requires GenerationRead(w, first) == FromValue(v) && Executed(w, first) == Some(row)
    requires Ordered(w, [first])
    ensures Ops(w, 1, [first]) == Preparation(w, first) + [Save(0, [Int(7)], row)]
  {
    var prepare := Preparation(w, first);
    SavedIsHit(prepare, v, row);
    assert [first][..0] == [] && Ops(w, 1, []) == [] && [] + prepare == prepare;
    assert Storing(w, Run(1, []), first) == [Save(0, [Int(7)], row)];
  }

  /** The second is answered by it, whatever the provider of the stored generation has. */
  lemma SecondCallHits(w: World, first: Call, second: Call, v: nat, s: nat)
    requires Follows(w, [], first) && Follows(w, [first], second) && w.source(0).Default?
    requires first.scope == second.scope == 0 && first.params == second.params == [Int(7)]
    requires GenerationRead(w, first) == GenerationRead(w, second) == FromValue(v)
    requires Executed(w, first) == Some(RowOf(true)) && w.provider == Telling(s) && v != s
    ensures !HitExact(w, 1, [first], second)
  {
    var row := RowOf(true);
    FirstCallSaves(w, first, v, row);
    SavedIsHit(Preparation(w, first), v, row);
    assert LocalHit(w, Run(1, Ops(w, 1, [first])), second) == Some(row);
    assert row[0].1 != RowOf(false)[0].1;
  }

  lemma TornHitIsWrong(compute: (set<string>, string) -> Runtime.Route, run: seq<Runtime.State>, k: nat)
    requires Runtime.IsRun(compute, run) && k < |run| && Runtime.Torn(run[k])
    ensures !HitsStayExact(compute, run)
  {
    var w, first, second := TornWorld(compute, run, k);
    SecondCallHits(w, first, second, run[k].currentValue, run[k].slot);
    WrongHit(compute, run, k, w, [first], second);
  }

  lemma WrongHit(compute: (set<string>, string) -> Runtime.Route, run: seq<Runtime.State>, k: nat, w: World,
                 calls: seq<Call>, call: Call)
    requires GoesOn(compute, run, k, w, 1, calls, call) && !HitExact(w, 1, calls, call)
    ensures !HitsStayExact(compute, run)
  {
  }

  /** Local hits stay exact after a run, at each of its instants, precisely when no instant of it is torn. */
  lemma HitsExactIff(compute: (set<string>, string) -> Runtime.Route, run: seq<Runtime.State>)
    requires Runtime.IsRun(compute, run)
    ensures HitsStayExact(compute, run) <==> Runtime.Untorn(run)
  {
    if Runtime.Untorn(run) {
      forall k, w: World, capacity, calls, call | GoesOn(compute, run, k, w, capacity, calls, call)
        ensures HitExact(w, capacity, calls, call)
      {
        Runtime.ReadsFromUntorn(compute, run, k, w.run);
        LocalHitsAreExact(compute, w, capacity, calls, call);
      }
    } else {
      var k: nat :| k < |run| && Runtime.Torn(run[k]);
      TornHitIsWrong(compute, run, k);
    }
  }

  /**
   After a run whose swaps did not overlap, and unless a further install of the default provider begins, local
   hits stay exact from here on, exactly when at most one install of it is under way.
   */
  lemma HitsStayExactIff(compute: (set<string>, string) -> Runtime.Route, run: seq<Runtime.State>)
    requires Runtime.IsRun(compute, run) && Runtime.SwapsApart(run)
    ensures (forall more :: Installs.Continues(compute, run, more) ==> HitsStayExact(compute, more))
            <==> Runtime.Alone(run[|run| - 1])
  {
    Installs.ReadsStayExactIff(compute, run);
    if Runtime.Alone(run[|run| - 1]) {
      forall more | Installs.Continues(compute, run, more)
        ensures HitsStayExact(compute, more)
      {
        Runtime.ReadsExactIff(compute, more);
        HitsExactIff(compute, more);
      }
    } else {
      var more := Installs.TearsUnlessAlone(compute, run);
      TornHitIsWrong(compute, more, |more| - 1);
    }
  }

  /** Two installs whose swaps overlapped can be over and leave wrong hits behind. */
  lemma OverlapLeavesWrongHits(compute: (set<string>, string) -> Runtime.Route) returns (run: seq<Runtime.State>)
    ensures Runtime.IsRun(compute, run) && Installs.NoneUnderway(run[|run| - 1]) && !HitsStayExact(compute, run)
  {
    run := Installs.TearOutlasts(compute);
    TornHitIsWrong(compute, run, |run| - 1);
  }
}
