/** The refreshed tables' past. */
module RefreshHistory {
  // What a refreshed table holds, and which tickers still run, told from the actions of the service alone
  // (src/refresh.rs).

  import opened Common
  import opened Refresh

  lemma {:induction false} AfterSnoc(s: State, acts: seq<Action>, a: Action)
    requires Legal(s, acts + [a])
    ensures Legal(s, acts) && Enabled(After(s, acts), a) && After(s, acts + [a]) == Effect(After(s, acts), a)
    decreases |acts|
  {
    if acts == [] {
      assert [] + [a] == [a] && [a][1..] == [];
    } else {
      assert (acts + [a])[0] == acts[0] && (acts + [a])[1..] == acts[1..] + [a];
      AfterSnoc(Effect(s, acts[0]), acts[1..], a);
    }
  }

  // ---------------------------------------------------------------- a table's rows

  /** The last reload of ticker `t` that succeeded before action `n` brought the rows. */
  ghost predicate LastReload(acts: seq<Action>, t: nat, n: nat, rows: Rows)
    requires n <= |acts|
  {
    exists i :: 0 <= i < n && acts[i] == ReloadOk(t, rows) && forall j :: i < j < n ==> !ReloadsBy(acts[j], t)
  }

  predicate ReloadsBy(a: Action, t: nat) {
    a.ReloadOk? && a.t == t
  }

  /** The action gives the table a new generation: a swap of a ticker of that name, or an insert by the host. */
  predicate Replaces(specs: seq<RefreshSpec>, a: Action, name: string) {
    (a.Swap? && a.t < |specs| && specs[a.t].name == name) || (a.HostInsert? && a.name == name)
  }

  /** Action `j` is the last that gave the table a new generation. */
  predicate LastReplaced(specs: seq<RefreshSpec>, acts: seq<Action>, name: string, j: nat) {
    j < |acts| && Replaces(specs, acts[j], name) && forall k :: j < k < |acts| ==> !Replaces(specs, acts[k], name)
  }

  /** The generation that action `j` made: the host's rows, or those of the ticker's last successful reload. */
  ghost predicate MadeBy(acts: seq<Action>, j: nat, g: Gen)
    requires j < |acts|
  {
    if acts[j].HostInsert? then g.task.None? && g.rows == acts[j].rows
    else acts[j].Swap? && g.task == Some(acts[j].t) && LastReload(acts, acts[j].t, j, g.rows)
  }

  lemma LastReloadLater(acts: seq<Action>, a: Action, t: nat, n: nat, rows: Rows)
    requires n <= |acts|
    ensures LastReload(acts + [a], t, n, rows) <==> LastReload(acts, t, n, rows)
  {
    var more := acts + [a];
    if LastReload(acts, t, n, rows) {
      var i :| 0 <= i < n && acts[i] == ReloadOk(t, rows) && forall j :: i < j < n ==> !ReloadsBy(acts[j], t);
      assert more[i] == acts[i];
    }
    if LastReload(more, t, n, rows) {
      var i :| 0 <= i < n && more[i] == ReloadOk(t, rows) && forall j :: i < j < n ==> !ReloadsBy(more[j], t);
      assert acts[i] == more[i];
      forall j | i < j < n
        ensures !ReloadsBy(acts[j], t)
      {
        assert !ReloadsBy(more[j], t);
      }
    }
  }

  lemma LastReloadStep(acts: seq<Action>, a: Action, t: nat, rows: Rows)
    requires if ReloadsBy(a, t) then a.rows == rows else LastReload(acts, t, |acts|, rows)
    ensures LastReload(acts + [a], t, |acts| + 1, rows)
  {
    var more := acts + [a];
    if ReloadsBy(a, t) {
      assert more[|acts|] == ReloadOk(t, rows);
    } else {
      var i :| 0 <= i < |acts| && acts[i] == ReloadOk(t, rows)
        && forall j :: i < j < |acts| ==> !ReloadsBy(acts[j], t);
      assert more[i] == acts[i];
      forall j | i < j < |more|
        ensures !ReloadsBy(more[j], t)
      {
        assert more[j] == if j < |acts| then acts[j] else a;
      }
    }
  }

  /** A ticker with rows to swap in holds those of its last successful reload. */
  lemma {:induction false} LoadedIsLastReload(specs: seq<RefreshSpec>, acts: seq<Action>, t: nat)
    requires Legal(Started(specs), acts)
    requires var s := After(Started(specs), acts); t < |s.phases| && s.phases[t].Loaded?
    ensures LastReload(acts, t, |acts|, After(Started(specs), acts).phases[t].rows)
    decreases |acts|
  {
    if acts != [] {
      var front, a := acts[..|acts| - 1], acts[|acts| - 1];
      assert acts == front + [a];
      AfterSnoc(Started(specs), front, a);
      if !ReloadsBy(a, t) {
        LoadedIsLastReload(specs, front, t);
      }
      LastReloadStep(front, a, t, After(Started(specs), acts).phases[t].rows);
    }
  }

  lemma LastReplacedLater(specs: seq<RefreshSpec>, acts: seq<Action>, a: Action, name: string, j: nat)
    ensures LastReplaced(specs, acts + [a], name, j) <==>
              if j == |acts| then Replaces(specs, a, name)
              else LastReplaced(specs, acts, name, j) && !Replaces(specs, a, name)
  {
    var more := acts + [a];
    assert more[|acts|] == a;
    if LastReplaced(specs, more, name, j) && j < |acts| {
      forall k | j < k < |acts|
        ensures !Replaces(specs, acts[k], name)
      {
        assert !Replaces(specs, more[k], name);
      }
    }
  }

  lemma MadeByLater(acts: seq<Action>, a: Action, j: nat, g: Gen)
    requires j < |acts|
    ensures MadeBy(acts + [a], j, g) <==> MadeBy(acts, j, g)
  {
    assert (acts + [a])[j] == acts[j];
    if acts[j].Swap? {
      LastReloadLater(acts, a, acts[j].t, j, g.rows);
    }
  }

  ghost predicate Holds(s: State, name: string, acts: seq<Action>, j: nat)
    requires j < |acts|
  {
    name in s.store && s.store[name] < |s.gens| && s.gens[s.store[name]].name == name
    && MadeBy(acts, j, s.gens[s.store[name]])
  }

  /** What one action does to a table. */
  lemma ReplaceStep(s: State, a: Action, name: string)
    requires Enabled(s, a) && forall n :: n in s.store ==> s.store[n] < |s.gens|
    ensures var t := Effect(s, a);
            && t.specs == s.specs
            && (forall n :: n in t.store ==> t.store[n] < |t.gens|)
            && (!Replaces(s.specs, a, name) ==>
                  (name in t.store <==> name in s.store)
                  && (name in s.store ==>
                        t.store[name] == s.store[name] && t.gens[t.store[name]] == s.gens[s.store[name]]))
            && (Replaces(s.specs, a, name) ==>
                  && name in t.store && t.store[name] < |t.gens|
                  && var g := t.gens[t.store[name]];
                  g.name == name && if a.HostInsert? then g.task.None? && g.rows == a.rows
                                    else g.task == Some(a.t) && a.t < |s.phases| && s.phases[a.t].Loaded?
                                         && g.rows == s.phases[a.t].rows)
  {
  }

  lemma {:induction false} RunFits(specs: seq<RefreshSpec>, acts: seq<Action>)
    requires Legal(Started(specs), acts)
    ensures var s := After(Started(specs), acts); s.specs == specs && forall n :: n in s.store ==> s.store[n] < |s.gens|
    decreases |acts|
  {
    if acts != [] {
      var front, a := acts[..|acts| - 1], acts[|acts| - 1];
      assert acts == front + [a];
      AfterSnoc(Started(specs), front, a);
      RunFits(specs, front);
      ReplaceStep(After(Started(specs), front), a, "");
    }
  }

  /**
   In every run of the service a table's snapshot is what the last action on it made: the rows the host
   inserted, or those of the last successful reload before the ticker's swap. There is none exactly when there
   was no such action.
   */
  lemma {:induction false} TableIsLastReplaced(specs: seq<RefreshSpec>, acts: seq<Action>, name: string)
    requires Legal(Started(specs), acts)
    ensures var s := After(Started(specs), acts);
            && (name in s.store <==> exists j: nat :: LastReplaced(specs, acts, name, j))
            && forall j: nat :: LastReplaced(specs, acts, name, j) ==> Holds(s, name, acts, j)
    decreases |acts|
  {
    if acts != [] {
      var front, a := acts[..|acts| - 1], acts[|acts| - 1];
      assert acts == front + [a];
      AfterSnoc(Started(specs), front, a);
      TableIsLastReplaced(specs, front, name);
      RunFits(specs, front);
      var s, t := After(Started(specs), front), After(Started(specs), acts);
      ReplaceStep(s, a, name);
      if Replaces(specs, a, name) {
        assert LastReplaced(specs, acts, name, |front|);
        ReplacedNow(specs, front, a, name);
      } else if name in s.store {
        var j: nat :| LastReplaced(specs, front, name, j);
        LastReplacedLater(specs, front, a, name, j);
      }
      forall j: nat | LastReplaced(specs, acts, name, j)
        ensures name in t.store && Holds(t, name, acts, j)
      {
        LastReplacedLater(specs, front, a, name, j);
        if j < |front| {
          MadeByLater(front, a, j, s.gens[s.store[name]]);
        }
      }
    }
  }

  lemma ReplacedNow(specs: seq<RefreshSpec>, front: seq<Action>, a: Action, name: string)
    requires Legal(Started(specs), front + [a]) && Replaces(specs, a, name)
    ensures Holds(After(Started(specs), front + [a]), name, front + [a], |front|)
  {
    AfterSnoc(Started(specs), front, a);
    RunFits(specs, front);
    var s, t := After(Started(specs), front), After(Started(specs), front + [a]);
    ReplaceStep(s, a, name);
    if a.Swap? {
      LoadedIsLastReload(specs, front, a.t);
      LastReloadLater(front, a, a.t, |front|, s.phases[a.t].rows);
    }
  }

  // --------------------------------------------------------------- which tickers run

  predicate ClosedBefore(acts: seq<Action>, n: nat)
    requires n <= |acts|
  {
    exists k :: 0 <= k < n && (acts[k].CloseReceiver? || acts[k].DropReceiver?)
  }

  /** Action `i` ends the ticker: it is aborted, or its signal meets a closed channel. */
  predicate EndsTask(acts: seq<Action>, i: nat, t: nat)
    requires i < |acts|
  {
    acts[i] == Abort(t) || (acts[i] == Send(t) && ClosedBefore(acts, i))
  }

  ghost predicate Ended(acts: seq<Action>, t: nat) {
    exists i :: 0 <= i < |acts| && EndsTask(acts, i, t)
  }

  lemma EndsTaskLater(acts: seq<Action>, a: Action, i: nat, t: nat)
    requires i < |acts|
    ensures EndsTask(acts + [a], i, t) <==> EndsTask(acts, i, t)
  {
    var more := acts + [a];
    assert more[i] == acts[i];
    if ClosedBefore(acts, i) {
      var k :| 0 <= k < i && (acts[k].CloseReceiver? || acts[k].DropReceiver?);
      assert more[k] == acts[k];
    }
    if ClosedBefore(more, i) {
      var k :| 0 <= k < i && (more[k].CloseReceiver? || more[k].DropReceiver?);
      assert acts[k] == more[k];
    }
  }

  lemma EndedStep(acts: seq<Action>, a: Action, t: nat)
    ensures Ended(acts + [a], t) <==> Ended(acts, t) || a == Abort(t) || (a == Send(t) && ClosedBefore(acts, |acts|))
  {
    var more := acts + [a];
    forall i | 0 <= i < |acts|
      ensures EndsTask(more, i, t) <==> EndsTask(acts, i, t)
    {
      EndsTaskLater(acts, a, i, t);
    }
    ClosedStep(acts, a, |acts|);
    assert more[|acts|] == a;
    assert EndsTask(more, |acts|, t) <==> a == Abort(t) || (a == Send(t) && ClosedBefore(acts, |acts|));
    if Ended(acts, t) {
      var i :| 0 <= i < |acts| && EndsTask(acts, i, t);
      assert EndsTask(more, i, t);
    }
  }

  lemma ClosedStep(acts: seq<Action>, a: Action, n: nat)
    requires n <= |acts|
    ensures ClosedBefore(acts + [a], n) <==> ClosedBefore(acts, n)
  {
    var more := acts + [a];
    assert forall k :: 0 <= k < n ==> more[k] == acts[k];
  }

  lemma {:induction false} ClosedIff(specs: seq<RefreshSpec>, acts: seq<Action>)
    requires Legal(Started(specs), acts)
    ensures After(Started(specs), acts).closed <==> ClosedBefore(acts, |acts|)
    decreases |acts|
  {
    if acts != [] {
      var front, a := acts[..|acts| - 1], acts[|acts| - 1];
      assert acts == front + [a];
      AfterSnoc(Started(specs), front, a);
      ClosedIff(specs, front);
      ClosedStep(front, a, |front|);
      assert ClosedBefore(acts, |acts|) <==> ClosedBefore(front, |front|) || a.CloseReceiver? || a.DropReceiver? by {
        assert acts[|front|] == a;
        assert forall k :: 0 <= k < |front| ==> acts[k] == front[k];
      }
    }
  }

  lemma GoneStep(s: State, a: Action, t: nat)
    requires Enabled(s, a) && t < |s.phases| == |s.specs|
    ensures var s' := Effect(s, a);
            && |s'.phases| == |s'.specs| == |s.specs|
            && (s'.phases[t].Gone? <==> s.phases[t].Gone? || a == Abort(t) || (a == Send(t) && s.closed))
  {
  }

  /**
   A ticker runs on, whatever reloads fail and whatever signals are dropped, until it is aborted or its signal
   meets a closed channel; one without an interval never runs.
   */
  lemma {:induction false} TaskEndsIff(specs: seq<RefreshSpec>, acts: seq<Action>, t: nat)
    requires Legal(Started(specs), acts) && t < |specs|
    ensures var s := After(Started(specs), acts);
            |s.phases| == |s.specs| == |specs| && (s.phases[t].Gone? <==> specs[t].interval == 0 || Ended(acts, t))
    decreases |acts|
  {
    if acts != [] {
      var front, a := acts[..|acts| - 1], acts[|acts| - 1];
      assert acts == front + [a];
      AfterSnoc(Started(specs), front, a);
      TaskEndsIff(specs, front, t);
      ClosedIff(specs, front);
      GoneStep(After(Started(specs), front), a, t);
      EndedStep(front, a, t);
    }
  }

  // ------------------------------------------------------------- a ticker's rounds, alone

  lemma TwoActions(s: State, a: Action, b: Action)
    requires Enabled(s, a) && Enabled(Effect(s, a), b)
    ensures Legal(s, [a, b]) && After(s, [a, b]) == Effect(Effect(s, a), b)
  {
    assert [a, b][1..] == [b] && [b][1..] == [];
    assert Legal(Effect(s, a), [b]) && After(Effect(s, a), [b]) == Effect(Effect(s, a), b);
  }

  lemma LegalConcat(s: State, acts: seq<Action>, more: seq<Action>)
    requires Legal(s, acts) && Legal(After(s, acts), more)
    ensures Legal(s, acts + more) && After(s, acts + more) == After(After(s, acts), more)
    decreases |acts|
  {
    if acts == [] {
      assert acts + more == more;
    } else {
      assert (acts + more)[0] == acts[0] && (acts + more)[1..] == acts[1..] + more;
      LegalConcat(Effect(s, acts[0]), acts[1..], more);
    }
  }

  /** A round whose reload fails leaves the ticker at its timer and everything but the clock as it was. */
  lemma FailedRound(s: State, t: nat)
    requires Enabled(s, Tick(t))
    ensures var round := [Tick(t), ReloadFail(t)]; Legal(s, round) && After(s, round) == s.(clock := s.clock + 1)
  {
    TwoActions(s, Tick(t), ReloadFail(t));
    assert s.phases[t := Reloading(s.clock)][t := Waiting] == s.phases;
  }

  /** A round whose reload succeeds puts the rows into the store and, while there is room, a signal into the channel. */
  lemma GoodRound(s: State, t: nat, rows: Rows)
    requires Enabled(s, Tick(t)) && !s.closed && |s.channel| < SIGNAL_CAPACITY
    ensures var round := [Tick(t), ReloadOk(t, rows)] + [Swap(t), Send(t)];
            var name, id := s.specs[t].name, |s.gens|;
            && Legal(s, round)
            && After(s, round) == s.(clock := s.clock + 1, gens := s.gens + [Gen(name, rows, Some(t), s.clock)],
                                     store := s.store[name := id], channel := s.channel + [Signal(name, id)])
  {
    TwoActions(s, Tick(t), ReloadOk(t, rows));
    var loaded := After(s, [Tick(t), ReloadOk(t, rows)]);
    TwoActions(loaded, Swap(t), Send(t));
    LegalConcat(s, [Tick(t), ReloadOk(t, rows)], [Swap(t), Send(t)]);
    assert s.phases[t := Reloading(s.clock)][t := Loaded(s.clock, rows)][t := Swapped(|s.gens|)][t := Waiting]
           == s.phases;
  }

  /** Once the receiver is closed the round still swaps, but its signal is dropped and the ticker ends. */
  lemma ClosedRound(s: State, t: nat, rows: Rows)
    requires Enabled(s, Tick(t))
    ensures var round := [CloseReceiver, Tick(t)] + ([ReloadOk(t, rows), Swap(t)] + [Send(t)]);
            var name, id := s.specs[t].name, |s.gens|;
            && Legal(s, round)
            && After(s, round) == s.(closed := true, clock := s.clock + 1, phases := s.phases[t := Gone],
                                     gens := s.gens + [Gen(name, rows, Some(t), s.clock)],
                                     store := s.store[name := id], dropped := s.dropped + {id})
  {
    TwoActions(s, CloseReceiver, Tick(t));
    var s1 := After(s, [CloseReceiver, Tick(t)]);
    TwoActions(s1, ReloadOk(t, rows), Swap(t));
    var s2 := After(s1, [ReloadOk(t, rows), Swap(t)]);
    assert [Send(t)][1..] == [] && Legal(s2, [Send(t)]);
    LegalConcat(s1, [ReloadOk(t, rows), Swap(t)], [Send(t)]);
    LegalConcat(s, [CloseReceiver, Tick(t)], [ReloadOk(t, rows), Swap(t)] + [Send(t)]);
    assert s.phases[t := Reloading(s.clock)][t := Loaded(s.clock, rows)][t := Swapped(|s.gens|)][t := Gone]
           == s.phases[t := Gone];
  }

  /** Once the service is shut down a ticker at its timer can be ended. */
  lemma Stopped(s: State, t: nat)
    requires TaskIn(s, t) && s.phases[t].Waiting?
    ensures var acts := [Shutdown, Abort(t)];
            Legal(s, acts) && After(s, acts) == s.(stopping := true, phases := s.phases[t := Gone])
  {
    TwoActions(s, Shutdown, Abort(t));
  }

  function Receives(acts: seq<Action>): nat {
    if acts == [] then 0 else (if acts[0].Receive? then 1 else 0) + Receives(acts[1..])
  }

  /** Every receipt takes one signal. */
  lemma {:induction false} ReceivedCount(s: State, acts: seq<Action>)
    requires Legal(s, acts)
    ensures |After(s, acts).received| == |s.received| + Receives(acts)
    ensures s.received <= After(s, acts).received
    decreases |acts|
  {
    if acts != [] {
      ReceivedCount(Effect(s, acts[0]), acts[1..]);
    }
  }

  /** A ticker is aborted only once the service was shut down. */
  lemma {:induction false} AbortsAfterShutdown(s: State, acts: seq<Action>, k: nat) returns (j: nat)
    requires Legal(s, acts) && k < |acts| && acts[k].Abort? && !s.stopping
    ensures j < k && acts[j].Shutdown?
    decreases |acts|
  {
    if acts[0].Shutdown? {
      j := 0;
    } else {
      var i := AbortsAfterShutdown(Effect(s, acts[0]), acts[1..], k - 1);
      j := i + 1;
    }
  }
}
