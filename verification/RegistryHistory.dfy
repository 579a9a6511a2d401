/** The registry's past. */
module RegistryHistory {
  // What the provider registry holds, told from the actions of a run alone (src/runtime.rs): under a name the
  // generation of the last install inserted there that no prune has removed, and as default provider the one
  // whose install set the slot last.

  import opened Common
  import opened Runtime

  /** A run together with the actions that made it. */
  ghost predicate Trace(compute: (set<string>, string) -> Route, run: seq<State>, acts: seq<Action>) {
    && |run| == |acts| + 1 && run[0] == INIT
    && forall i :: 0 <= i < |acts| ==> TraceStep(compute, run, acts, i)
  }

  ghost predicate TraceStep(compute: (set<string>, string) -> Route, run: seq<State>, acts: seq<Action>, i: nat)
    requires i < |acts| && i + 1 < |run|
  {
    Enabled(run[i], acts[i]) && run[i + 1] == Next(compute, run[i], acts[i])
  }

  /** Every run has such actions. */
  lemma {:induction false} TraceOf(compute: (set<string>, string) -> Route, run: seq<State>) returns (acts: seq<Action>)
    requires IsRun(compute, run)
    ensures Trace(compute, run, acts)
    decreases |run|
  {
    if |run| == 1 {
      acts := [];
    } else {
      var k := |run| - 2;
      PrefixIsRun(compute, run, k);
      var front := TraceOf(compute, run[..k + 1]);
      var a := StepAt(compute, run, k);
      acts := front + [a];
      forall i | 0 <= i < |acts|
        ensures TraceStep(compute, run, acts, i)
      {
        if i < k {
          assert TraceStep(compute, run[..k + 1], front, i);
        }
      }
    }
  }

  // ------------------------------------------------------------- installs, from the actions

  function Starts(acts: seq<Action>): nat {
    if acts == [] then 0 else Starts(acts[..|acts| - 1]) + if acts[|acts| - 1].StartInstall? then 1 else 0
  }

  /** Action `s` starts install `id`; its generation is the number of starts so far. */
  predicate StartsAs(acts: seq<Action>, s: nat, id: nat, g: nat)
    requires s < |acts|
  {
    acts[s].StartInstall? && acts[s].id == id && g == Starts(acts[..s + 1])
  }

  /** Action `i` puts an install of the generation under the name. */
  ghost predicate Inserts(acts: seq<Action>, i: nat, name: string, g: nat)
    requires i < |acts|
  {
    acts[i].InsertNamed? && exists s :: 0 <= s < i && StartsAs(acts, s, acts[i].id, g) && acts[s].name == name
  }

  ghost predicate InsertsSome(acts: seq<Action>, i: nat, name: string)
    requires i < |acts|
  {
    exists g :: Inserts(acts, i, name, g)
  }

  /** Action `j` neither puts another install under the name nor prunes the name away. */
  ghost predicate Spares(acts: seq<Action>, j: nat, name: string)
    requires j < |acts|
  {
    !InsertsSome(acts, j, name) && (acts[j].Prune? ==> name in acts[j].keep)
  }

  /**
   The last insert under the name among the first `n` actions is of the generation, and no later prune
   omits the name.
   */
  ghost predicate Registered(acts: seq<Action>, n: nat, name: string, g: nat)
    requires n <= |acts|
  {
    exists i :: 0 <= i < n && Inserts(acts, i, name, g) && forall j :: i < j < n ==> Spares(acts, j, name)
  }

  lemma {:induction false} StartsCount(compute: (set<string>, string) -> Route, run: seq<State>, acts: seq<Action>,
                                       n: nat)
    requires Trace(compute, run, acts) && n <= |acts|
    ensures run[n].nextGeneration == Starts(acts[..n])
  {
    if 0 < n {
      StartsCount(compute, run, acts, n - 1);
      assert TraceStep(compute, run, acts, n - 1);
      assert acts[..n][..n - 1] == acts[..n - 1];
    }
  }

  /** What is known of an install is what its start said. */
  ghost predicate FromStart(acts: seq<Action>, n: nat, id: nat, i: Installer)
    requires n <= |acts|
  {
    exists s :: 0 <= s < n && StartsAs(acts, s, id, i.generation) && acts[s].name == i.name
                && acts[s].isDefault == i.isDefault
  }

  /** A step leaves an install's particulars, or starts it. */
  lemma InstallerStep(compute: (set<string>, string) -> Route, s: State, a: Action, id: nat)
    requires Enabled(s, a) && id in Next(compute, s, a).installers
    ensures var i := Next(compute, s, a).installers[id];
            if id in s.installers then
              i.generation == s.installers[id].generation && i.name == s.installers[id].name
              && i.isDefault == s.installers[id].isDefault
            else a == StartInstall(id, i.name, i.isDefault) && i.generation == s.nextGeneration + 1
  {
  }

  lemma {:induction false} InstallersFromStarts(compute: (set<string>, string) -> Route, run: seq<State>,
                                                acts: seq<Action>, n: nat, id: nat)
    requires Trace(compute, run, acts) && n <= |acts| && id in run[n].installers
    ensures FromStart(acts, n, id, run[n].installers[id])
  {
    if 0 < n {
      var s, a := run[n - 1], acts[n - 1];
      assert TraceStep(compute, run, acts, n - 1);
      InstallerStep(compute, s, a, id);
      if id in s.installers {
        InstallersFromStarts(compute, run, acts, n - 1, id);
      } else {
        StartsCount(compute, run, acts, n);
        StartsCount(compute, run, acts, n - 1);
        assert StartsAs(acts, n - 1, id, run[n].installers[id].generation);
      }
    }
  }

  /** An install starts once. */
  lemma {:induction false} StartedIsKnown(compute: (set<string>, string) -> Route, run: seq<State>, acts: seq<Action>,
                                          s: nat, n: nat)
    requires Trace(compute, run, acts) && s < n <= |acts| && acts[s].StartInstall?
    ensures acts[s].id in run[n].installers
    ensures var i := run[n].installers[acts[s].id];
            i.name == acts[s].name && i.isDefault == acts[s].isDefault && i.generation == Starts(acts[..s + 1])
    decreases n
  {
    assert TraceStep(compute, run, acts, n - 1);
    if s == n - 1 {
      StartsCount(compute, run, acts, n);
    } else {
      StartedIsKnown(compute, run, acts, s, n - 1);
      KnownStays(compute, run[n - 1], acts[n - 1], acts[s].id);
      InstallerStep(compute, run[n - 1], acts[n - 1], acts[s].id);
    }
  }

  lemma KnownStays(compute: (set<string>, string) -> Route, s: State, a: Action, id: nat)
    requires Enabled(s, a) && id in s.installers
    ensures id in Next(compute, s, a).installers
  {
  }

  /** An insertion goes by the start of its install. */
  lemma InsertsIff(compute: (set<string>, string) -> Route, run: seq<State>, acts: seq<Action>, i: nat, name: string,
                   g: nat)
    requires Trace(compute, run, acts) && i < |acts| && acts[i].InsertNamed?
    ensures acts[i].id in run[i].installers
    ensures Inserts(acts, i, name, g) <==>
              run[i].installers[acts[i].id].name == name && run[i].installers[acts[i].id].generation == g
  {
    assert TraceStep(compute, run, acts, i);
    InstallersFromStarts(compute, run, acts, i, acts[i].id);
    forall s | 0 <= s < i && StartsAs(acts, s, acts[i].id, g)
      ensures run[i].installers[acts[i].id].name == acts[s].name && run[i].installers[acts[i].id].generation == g
    {
      StartedIsKnown(compute, run, acts, s, i);
    }
  }

  // ---------------------------------------------------------------- what is registered

  /** What one action does to a name: an insertion decides, a prune keeps what it names, nothing else matters. */
  lemma HoldsStep(compute: (set<string>, string) -> Route, s: State, a: Action, name: string, g: nat)
    requires Enabled(s, a)
    ensures Holds(Next(compute, s, a), name, g) <==>
              if a.InsertNamed? && s.installers[a.id].name == name then s.installers[a.id].generation == g
              else Holds(s, name, g) && (a.Prune? ==> name in a.keep)
  {
  }

  lemma RegisteredStep(acts: seq<Action>, n: nat, name: string, g: nat)
    requires n < |acts|
    ensures Registered(acts, n + 1, name, g) <==>
              Inserts(acts, n, name, g) || (Registered(acts, n, name, g) && Spares(acts, n, name))
  {
    if Registered(acts, n, name, g) && Spares(acts, n, name) {
      var i :| 0 <= i < n && Inserts(acts, i, name, g) && forall j :: i < j < n ==> Spares(acts, j, name);
      assert forall j :: i < j < n + 1 ==> Spares(acts, j, name);
    }
    if Registered(acts, n + 1, name, g) && !Inserts(acts, n, name, g) {
      var i :| 0 <= i < n + 1 && Inserts(acts, i, name, g) && forall j :: i < j < n + 1 ==> Spares(acts, j, name);
      assert i < n && Spares(acts, n, name);
    }
  }

  /**
   At every instant of every run a name holds a generation exactly when the last insert under it was of that
   generation and no prune since then has left the name out.
   */
  lemma {:induction false} NamesAreLastInserts(compute: (set<string>, string) -> Route, run: seq<State>,
                                               acts: seq<Action>, n: nat, name: string, g: nat)
    requires Trace(compute, run, acts) && n <= |acts|
    ensures Holds(run[n], name, g) <==> Registered(acts, n, name, g)
  {
    if 0 < n {
      var a := acts[n - 1];
      NamesAreLastInserts(compute, run, acts, n - 1, name, g);
      RegisteredStep(acts, n - 1, name, g);
      assert TraceStep(compute, run, acts, n - 1);
      HoldsStep(compute, run[n - 1], a, name, g);
      if a.InsertNamed? {
        InsertsIff(compute, run, acts, n - 1, name, g);
        InsertsIff(compute, run, acts, n - 1, name, run[n - 1].installers[a.id].generation);
        if InsertsSome(acts, n - 1, name) {
          var h :| Inserts(acts, n - 1, name, h);
          InsertsIff(compute, run, acts, n - 1, name, h);
        }
      }
    }
  }

  /** A prune leaves exactly the names it keeps, with their generations. */
  lemma PruneKeepsExactly(compute: (set<string>, string) -> Route, run: seq<State>, acts: seq<Action>, m: nat,
                          name: string, g: nat)
    requires Trace(compute, run, acts) && m < |acts| && acts[m].Prune?
    ensures Holds(run[m + 1], name, g) <==> Holds(run[m], name, g) && name in acts[m].keep
  {
    assert TraceStep(compute, run, acts, m);
    HoldsStep(compute, run[m], acts[m], name, g);
  }

  // -------------------------------------------------------------- the default provider

  /** Action `i` makes an install of the generation the default provider. */
  ghost predicate Sets(acts: seq<Action>, i: nat, g: nat)
    requires i < |acts|
  {
    acts[i].SetSlot? && exists s :: 0 <= s < i && StartsAs(acts, s, acts[i].id, g)
  }

  ghost predicate LastSet(acts: seq<Action>, n: nat, g: nat)
    requires n <= |acts|
  {
    exists i :: 0 <= i < n && Sets(acts, i, g) && forall j :: i < j < n ==> !acts[j].SetSlot?
  }

  lemma SetsIff(compute: (set<string>, string) -> Route, run: seq<State>, acts: seq<Action>, i: nat, g: nat)
    requires Trace(compute, run, acts) && i < |acts| && acts[i].SetSlot?
    ensures acts[i].id in run[i].installers
    ensures Sets(acts, i, g) <==> run[i].installers[acts[i].id].generation == g
  {
    assert TraceStep(compute, run, acts, i);
    InstallersFromStarts(compute, run, acts, i, acts[i].id);
    forall s | 0 <= s < i && StartsAs(acts, s, acts[i].id, g)
      ensures run[i].installers[acts[i].id].generation == g
    {
      StartedIsKnown(compute, run, acts, s, i);
    }
  }

  lemma SlotStep(compute: (set<string>, string) -> Route, s: State, a: Action)
    requires Enabled(s, a)
    ensures Next(compute, s, a).slot == if a.SetSlot? then s.installers[a.id].generation else s.slot
  {
  }

  /** The default provider is the one whose install set the slot last; there is none until some install did. */
  lemma {:induction false} SlotIsLastSet(compute: (set<string>, string) -> Route, run: seq<State>, acts: seq<Action>,
                                         n: nat)
    requires Trace(compute, run, acts) && n <= |acts|
    ensures if forall j :: 0 <= j < n ==> !acts[j].SetSlot? then run[n].slot == 0 else LastSet(acts, n, run[n].slot)
  {
    if 0 < n {
      SlotIsLastSet(compute, run, acts, n - 1);
      assert TraceStep(compute, run, acts, n - 1);
      SlotStep(compute, run[n - 1], acts[n - 1]);
      if acts[n - 1].SetSlot? {
        SetsIff(compute, run, acts, n - 1, run[n].slot);
      }
    }
  }
}
