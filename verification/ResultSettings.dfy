/** The result cache's settings. */
module ResultSettings {
  // How the settings in use follow from the configurations made (src/runtime.rs): the flag, the time to live and
  // the capacity are those of the configuration that wrote them last; a query begun while the cache is off never
  // hits; a hit's age is within the time to live that was in use when it was compared.

  import opened Common
  import opened ResultCache

  /** A run together with the actions that made it. */
  ghost predicate Trace(run: seq<State>, capacity: nat, acts: seq<Action>) {
    && |run| == |acts| + 1 && run[0] == Init(capacity)
    && forall i :: 0 <= i < |acts| ==> TraceStep(run, acts, i)
  }

  ghost predicate TraceStep(run: seq<State>, acts: seq<Action>, i: nat)
    requires i < |acts| && i + 1 < |run|
  {
    0 < run[i].cacheCapacity && Enabled(run[i], acts[i]) && run[i + 1] == Effect(run[i], acts[i])
  }

  // --------------------------------------------------------------- configurations

  predicate Configures(a: Action, id: nat) {
    a.Configure? && a.id == id
  }

  /** Action `s` is the last before `n` with which configuration `id` began. */
  predicate LastConfigure(acts: seq<Action>, n: nat, id: nat, s: nat)
    requires n <= |acts|
  {
    s < n && Configures(acts[s], id) && forall j :: s < j < n ==> !Configures(acts[j], id)
  }

  /** The configuration under way is the one that began last under its number. */
  ghost predicate ChangeFits(acts: seq<Action>, n: nat, id: nat, c: Change)
    requires n <= |acts|
  {
    exists s: nat :: LastConfigure(acts, n, id, s) && Carries(acts[s], c)
  }

  predicate Carries(a: Action, c: Change)
    requires a.Configure?
  {
    match c
    case FlagNext(enabled, capacity, ttl, _) =>
      enabled == a.newEnabled && capacity == AtLeastOne(a.capacity) && ttl == AtLeastOne(a.ttl)
    case TtlNext(capacity, ttl, _) => capacity == AtLeastOne(a.capacity) && ttl == AtLeastOne(a.ttl)
    case ResetNext(capacity) => capacity == AtLeastOne(a.capacity)
  }

  lemma ChangeStep(s: State, a: Action, id: nat)
    requires Enabled(s, a) && 0 < s.cacheCapacity && id in Effect(s, a).changes
    ensures var t := Effect(s, a);
            if Configures(a, id) then Carries(a, t.changes[id])
            else
              id in s.changes
              && forall b: Action :: b.Configure? && Carries(b, s.changes[id]) ==> Carries(b, t.changes[id])
  {
  }

  lemma LastConfigureLater(acts: seq<Action>, n: nat, id: nat, s: nat)
    requires n < |acts|
    ensures LastConfigure(acts, n + 1, id, s) <==>
              if s == n then Configures(acts[n], id) else LastConfigure(acts, n, id, s) && !Configures(acts[n], id)
  {
  }

  lemma {:induction false} ChangesFit(run: seq<State>, capacity: nat, acts: seq<Action>, n: nat, id: nat)
    requires Trace(run, capacity, acts) && n <= |acts| && id in run[n].changes
    ensures ChangeFits(acts, n, id, run[n].changes[id])
  {
    if 0 < n {
      assert TraceStep(run, acts, n - 1);
      ChangeStep(run[n - 1], acts[n - 1], id);
      if Configures(acts[n - 1], id) {
        assert LastConfigure(acts, n, id, n - 1);
      } else {
        ChangesFit(run, capacity, acts, n - 1, id);
        var s: nat :| LastConfigure(acts, n - 1, id, s) && Carries(acts[s], run[n - 1].changes[id]);
        LastConfigureLater(acts, n - 1, id, s);
      }
    }
  }

  // -------------------------------------------------------------- the settings in use

  datatype Setting = Flag | Ttl | Capacity

  function InUse(s: State, k: Setting): nat {
    match k
    case Flag => if s.enabled then 1 else 0
    case Ttl => s.ttl
    case Capacity => s.cacheCapacity
  }

  /** What a configuration asks for: at least a millisecond to live and room for at least one response. */
  function Asked(a: Action, k: Setting): nat
    requires a.Configure?
  {
    match k
    case Flag => if a.newEnabled then 1 else 0
    case Ttl => if a.ttl == 0 then 1 else a.ttl
    case Capacity => if a.capacity == 0 then 1 else a.capacity
  }

  /** Before any configuration the cache is on, with half a minute to live. */
  function Default(k: Setting, capacity: nat): nat {
    match k
    case Flag => 1
    case Ttl => 30_000
    case Capacity => if capacity == 0 then 1 else capacity
  }

  predicate Writes(a: Action, k: Setting, id: nat) {
    match k
    case Flag => a == SetFlag(id)
    case Ttl => a == SetTtl(id)
    case Capacity => a == ResetCache(id)
  }

  predicate WritesSome(a: Action, k: Setting) {
    match k
    case Flag => a.SetFlag?
    case Ttl => a.SetTtl?
    case Capacity => a.ResetCache?
  }

  /** Action `i` is the last before `n` that writes the setting, on behalf of the configuration begun by action `s`. */
  predicate LastWrite(acts: seq<Action>, n: nat, k: Setting, i: nat, id: nat, s: nat)
    requires n <= |acts|
  {
    && i < n && Writes(acts[i], k, id) && LastConfigure(acts, i, id, s)
    && forall j :: i < j < n ==> !WritesSome(acts[j], k)
  }

  ghost predicate SettingIs(acts: seq<Action>, n: nat, k: Setting, capacity: nat, v: nat)
    requires n <= |acts|
  {
    || (v == Default(k, capacity) && forall j :: 0 <= j < n ==> !WritesSome(acts[j], k))
    || exists i: nat, id: nat, s: nat :: LastWrite(acts, n, k, i, id, s) && v == Asked(acts[s], k)
  }

  lemma SettingLater(acts: seq<Action>, n: nat, k: Setting, capacity: nat, v: nat)
    requires n < |acts| && SettingIs(acts, n, k, capacity, v) && !WritesSome(acts[n], k)
    ensures SettingIs(acts, n + 1, k, capacity, v)
  {
    if i: nat, id: nat, s: nat :| LastWrite(acts, n, k, i, id, s) && v == Asked(acts[s], k) {
      assert LastWrite(acts, n + 1, k, i, id, s);
    }
  }

  lemma UseStep(s: State, a: Action, k: Setting)
    requires Enabled(s, a) && 0 < s.cacheCapacity && !WritesSome(a, k)
    ensures InUse(Effect(s, a), k) == InUse(s, k)
  {
  }

  lemma WriteStep(s: State, a: Action, k: Setting, b: Action)
    requires Enabled(s, a) && 0 < s.cacheCapacity && WritesSome(a, k)
    requires a.id in s.changes && b.Configure? && Carries(b, s.changes[a.id])
    ensures InUse(Effect(s, a), k) == Asked(b, k)
  {
  }

  /** Every setting in use is the one of the configuration that wrote it last, or the default when none did. */
  lemma {:induction false} SettingsAreConfigured(run: seq<State>, capacity: nat, acts: seq<Action>, n: nat, k: Setting)
    requires Trace(run, capacity, acts) && n <= |acts|
    ensures SettingIs(acts, n, k, capacity, InUse(run[n], k))
  {
    if 0 < n {
      assert TraceStep(run, acts, n - 1);
      var a := acts[n - 1];
      if WritesSome(a, k) {
        ChangesFit(run, capacity, acts, n - 1, a.id);
        var s: nat :| LastConfigure(acts, n - 1, a.id, s) && Carries(acts[s], run[n - 1].changes[a.id]);
        WriteStep(run[n - 1], a, k, acts[s]);
        assert LastWrite(acts, n, k, n - 1, a.id, s);
      } else {
        SettingsAreConfigured(run, capacity, acts, n - 1, k);
        SettingLater(acts, n - 1, k, capacity, InUse(run[n - 1], k));
        UseStep(run[n - 1], a, k);
      }
    }
  }

  // ---------------------------------------------------- when a configuration empties the cache

  /** The capacity and the flag that the configurations begun before action `n` asked for last. */
  function AskedCapacity(acts: seq<Action>, n: nat, capacity: nat): nat
    requires n <= |acts|
  {
    if n == 0 then Default(Capacity, capacity)
    else if acts[n - 1].Configure? then Asked(acts[n - 1], Capacity)
    else AskedCapacity(acts, n - 1, capacity)
  }

  function AskedOn(acts: seq<Action>, n: nat): bool
    requires n <= |acts|
  {
    if n == 0 then true else if acts[n - 1].Configure? then acts[n - 1].newEnabled else AskedOn(acts, n - 1)
  }

  /** A configuration empties the cache when it asks for another capacity or switches the cache off. */
  predicate Empties(acts: seq<Action>, s: nat, capacity: nat)
    requires s < |acts| && acts[s].Configure?
  {
    AskedCapacity(acts, s, capacity) != Asked(acts[s], Capacity) || (!acts[s].newEnabled && AskedOn(acts, s))
  }

  lemma {:induction false} ConfigIsAsked(run: seq<State>, capacity: nat, acts: seq<Action>, n: nat)
    requires Trace(run, capacity, acts) && n <= |acts|
    ensures run[n].configCapacity == AskedCapacity(acts, n, capacity) && run[n].configEnabled == AskedOn(acts, n)
  {
    if 0 < n {
      ConfigIsAsked(run, capacity, acts, n - 1);
      assert TraceStep(run, acts, n - 1);
      ConfigStep(run[n - 1], acts[n - 1]);
    }
  }

  lemma ConfigStep(s: State, a: Action)
    requires Enabled(s, a) && 0 < s.cacheCapacity
    ensures var t := Effect(s, a);
            if a.Configure? then t.configCapacity == Asked(a, Capacity) && t.configEnabled == a.newEnabled
            else t.configCapacity == s.configCapacity && t.configEnabled == s.configEnabled
  {
  }

  function ResetOf(c: Change): bool {
    match c
    case FlagNext(_, _, _, reset) => reset
    case TtlNext(_, _, reset) => reset
    case ResetNext(_) => true
  }

  predicate EmptiedBetween(acts: seq<Action>, s: nat, n: nat, id: nat)
    requires n <= |acts|
  {
    exists i :: s < i < n && acts[i] == ResetCache(id)
  }

  lemma ResetStep(s: State, a: Action, id: nat)
    requires Enabled(s, a) && 0 < s.cacheCapacity
    ensures var t := Effect(s, a);
            && (Configures(a, id) ==>
                  && id in t.changes && t.changes[id].FlagNext?
                  && ResetOf(t.changes[id]) ==
                       (s.configCapacity != Asked(a, Capacity) || (!a.newEnabled && s.configEnabled)))
            && (!Configures(a, id) ==>
                  && (id in t.changes ==> id in s.changes && ResetOf(t.changes[id]) == ResetOf(s.changes[id]))
                  && (id in s.changes && id !in t.changes ==> (ResetOf(s.changes[id]) <==> a == ResetCache(id)))
                  && (a == ResetCache(id) ==> id in s.changes && id !in t.changes && t.cache == []))
  {
  }

  lemma EmptiedLater(acts: seq<Action>, s: nat, n: nat, id: nat)
    requires s < n < |acts|
    ensures EmptiedBetween(acts, s, n + 1, id) <==> EmptiedBetween(acts, s, n, id) || acts[n] == ResetCache(id)
  {
  }

  /**
   A configuration is over once it has emptied the cache, if it is one that does, and it does so only
   once it must.
   */
  lemma {:induction false} EmptiesIff(run: seq<State>, capacity: nat, acts: seq<Action>, n: nat, id: nat, s: nat)
    requires Trace(run, capacity, acts) && n <= |acts| && LastConfigure(acts, n, id, s)
    ensures if id in run[n].changes then
              !EmptiedBetween(acts, s, n, id) && (ResetOf(run[n].changes[id]) <==> Empties(acts, s, capacity))
            else EmptiedBetween(acts, s, n, id) <==> Empties(acts, s, capacity)
    decreases n
  {
    assert TraceStep(run, acts, n - 1);
    var a := acts[n - 1];
    ResetStep(run[n - 1], a, id);
    LastConfigureLater(acts, n - 1, id, s);
    if s == n - 1 {
      ConfigIsAsked(run, capacity, acts, s);
    } else {
      EmptiesIff(run, capacity, acts, n - 1, id, s);
      EmptiedLater(acts, s, n - 1, id);
    }
  }

  // ---------------------------------------------------------------- what hits obey

  predicate Begins(a: Action, id: nat) {
    a.Begin? && a.id == id
  }

  /** A query that can no longer hit, or has not yet asked whether it may. */
  predicate Barred(q: Query) {
    q.Started? || (q.Executing? && !q.saves) || q.Executed? || q.FailedQuery?
  }

  lemma BarredStep(s: State, a: Action, id: nat)
    requires Enabled(s, a) && 0 < s.cacheCapacity && !s.enabled
    requires Begins(a, id) || (id in s.queries && Barred(s.queries[id]))
    ensures id in Effect(s, a).queries && Barred(Effect(s, a).queries[id])
  {
  }

  /** While the cache is off a query that began since then does not hit. */
  lemma {:induction false} NoHitWhileOff(run: seq<State>, capacity: nat, acts: seq<Action>, b: nat, n: nat, id: nat)
    requires Trace(run, capacity, acts) && b < n <= |acts| && Begins(acts[b], id)
    requires forall k :: b <= k < n ==> !run[k].enabled
    ensures id in run[n].queries && Barred(run[n].queries[id]) && !run[n].queries[id].Hit?
    decreases n
  {
    assert TraceStep(run, acts, n - 1);
    if b < n - 1 {
      NoHitWhileOff(run, capacity, acts, b, n - 1, id);
    }
    BarredStep(run[n - 1], acts[n - 1], id);
  }

  /** The query's age was compared with the time to live in use at instant `k`. */
  predicate ComparedAt(run: seq<State>, acts: seq<Action>, n: nat, k: nat, id: nat, q: Query)
    requires n <= |acts| && n < |run| && q.Hit?
  {
    && k < n && acts[k] == CompareTtl(id) && q.ttl == run[k].ttl && q.age <= run[k].ttl
    && forall j :: k < j < n ==> !Begins(acts[j], id)
  }

  lemma HitStep(s: State, a: Action, id: nat)
    requires Enabled(s, a) && 0 < s.cacheCapacity && id in Effect(s, a).queries && Effect(s, a).queries[id].Hit?
    ensures var q := Effect(s, a).queries[id];
            if a == CompareTtl(id) then q.ttl == s.ttl && q.age <= s.ttl
            else !Begins(a, id) && id in s.queries && s.queries[id] == q
  {
  }

  /** A hit is no older than the time to live that was in use at some instant of the query. */
  lemma {:induction false} HitsObeyTtl(run: seq<State>, capacity: nat, acts: seq<Action>, n: nat, id: nat)
    returns (k: nat)
    requires Trace(run, capacity, acts) && n <= |acts| && id in run[n].queries && run[n].queries[id].Hit?
    ensures ComparedAt(run, acts, n, k, id, run[n].queries[id])
  {
    assert TraceStep(run, acts, n - 1);
    HitStep(run[n - 1], acts[n - 1], id);
    if acts[n - 1] == CompareTtl(id) {
      k := n - 1;
    } else {
      k := HitsObeyTtl(run, capacity, acts, n - 1, id);
    }
  }

  // ------------------------------------------------------------- one after another, alone

  lemma StepMore(run: seq<State>, capacity: nat, a: Action) returns (more: seq<State>)
    requires IsRun(run, capacity) && Enabled(run[|run| - 1], a) && 0 < run[|run| - 1].cacheCapacity
    ensures IsRun(more, capacity) && more == run + [Effect(run[|run| - 1], a)]
  {
    more := run + [Effect(run[|run| - 1], a)];
    forall i | 0 <= i < |more| - 1
      ensures Steps(more[i], more[i + 1])
    {
      if i < |run| - 1 {
        assert Steps(run[i], run[i + 1]);
      }
    }
  }

  /** A configuration that nothing disturbs leaves the cache with its settings, empty if it is to be emptied. */
  lemma ConfigureAlone(run: seq<State>, capacity: nat, id: nat, on: bool, room: nat, ttl: nat)
    returns (more: seq<State>)
    requires IsRun(run, capacity) && id !in run[|run| - 1].changes
    ensures IsRun(more, capacity) && run < more
    ensures var s, t := run[|run| - 1], more[|more| - 1];
            var empties := s.configCapacity != AtLeastOne(room) || (!on && s.configEnabled);
            t == s.(configEnabled := on, configCapacity := AtLeastOne(room), enabled := on, ttl := AtLeastOne(ttl),
                    cache := if empties then [] else s.cache,
                    cacheCapacity := if empties then AtLeastOne(room) else s.cacheCapacity)
  {
    RunKeepsInv(run, capacity, |run| - 1);
    var s := run[|run| - 1];
    more := StepMore(run, capacity, Configure(id, on, room, ttl));
    more := StepMore(more, capacity, SetFlag(id));
    more := StepMore(more, capacity, SetTtl(id));
    if s.configCapacity != AtLeastOne(room) || (!on && s.configEnabled) {
      more := StepMore(more, capacity, ResetCache(id));
    }
    assert more[|more| - 1].changes == s.changes;
  }

  /** A query whose execution fails is over, and leaves the cache and the log as they were. */
  lemma FailAlone(run: seq<State>, capacity: nat, handle: Handle, req: Request, id: nat) returns (more: seq<State>)
    requires IsRun(run, capacity) && handle in run[|run| - 1].handles
    requires id !in run[|run| - 1].queries && !run[|run| - 1].enabled
    ensures IsRun(more, capacity) && run < more
    ensures var s, t := run[|run| - 1], more[|more| - 1];
            && t.cache == s.cache && t.log == s.log
            && id in t.queries && t.queries[id] == FailedQuery(handle, req)
  {
    RunKeepsInv(run, capacity, |run| - 1);
    more := StepMore(run, capacity, Begin(id, handle, req));
    more := StepMore(more, capacity, ReadFlag(id));
    more := StepMore(more, capacity, Fail(id));
  }
}
