/** Installs under way. */
module Installs {
  // What the installs of the default provider that have begun may still do to it, as long as no further one
  // begins (src/runtime.rs): when the slot cannot fall back to an older generation, and when no read can go
  // wrong. Both are told from the last instant of a run alone.

  import opened Common
  import opened Runtime

  /** Every install of the default provider that the second state knows is known to the first. */
  ghost predicate NoNewDefault(s: State, t: State) {
    forall i :: i in t.installers && t.installers[i].isDefault ==> i in s.installers
  }

  ghost predicate NoNewAfter(run: seq<State>, n: nat)
    requires n + 1 < |run|
  {
    NoNewDefault(run[n], run[n + 1])
  }

  /** A run that goes on in any way except that no further install of the default provider begins. */
  ghost predicate Continues(compute: (set<string>, string) -> Route, run: seq<State>, more: seq<State>) {
    && IsRun(compute, run) && IsRun(compute, more) && run <= more
    && forall n :: |run| - 1 <= n < |more| - 1 ==> NoNewAfter(more, n)
  }

  lemma OneStepContinues(compute: (set<string>, string) -> Route, run: seq<State>, more: seq<State>, a: Action)
    returns (longer: seq<State>)
    requires Continues(compute, run, more) && Enabled(more[|more| - 1], a) && !a.StartInstall?
    ensures Continues(compute, run, longer) && longer == more + [Next(compute, more[|more| - 1], a)]
  {
    longer := OneStepMore(compute, more, a);
    NoStartNoNew(compute, more[|more| - 1], a);
    forall n | |run| - 1 <= n < |longer| - 1
      ensures NoNewAfter(longer, n)
    {
      if n < |more| - 1 {
        assert NoNewAfter(more, n);
      }
    }
  }

  lemma NoStartNoNew(compute: (set<string>, string) -> Route, s: State, a: Action)
    requires Enabled(s, a) && !a.StartInstall?
    ensures NoNewDefault(s, Next(compute, s, a))
  {
  }

  lemma StepOfContinuation(compute: (set<string>, string) -> Route, run: seq<State>, more: seq<State>, n: nat)
    returns (a: Action)
    requires Continues(compute, run, more) && |run| <= n < |more|
    ensures Enabled(more[n - 1], a) && more[n] == Next(compute, more[n - 1], a)
    ensures NoNewDefault(more[n - 1], more[n]) && InstallersOk(more[n - 1])
  {
    a := StepAt(compute, more, n - 1);
    RunOk(compute, more, n - 1);
    assert NoNewAfter(more, n - 1);
  }

  // ------------------------------------------------------------ the installs' own steps

  /** A default install that has not set the slot takes its steps up to the swap, alone. */
  lemma UpToSwap(compute: (set<string>, string) -> Route, run: seq<State>, more: seq<State>, id: nat)
    returns (longer: seq<State>)
    requires Continues(compute, run, more)
    requires var s := more[|more| - 1];
             id in s.installers && SlotPending(s.installers[id]) && !s.installers[id].phase.Odd?
    ensures Continues(compute, run, longer) && more <= longer
    ensures var s, t := more[|more| - 1], longer[|longer| - 1];
            && t.installers == s.installers[id := s.installers[id].(phase := Bumped)]
            && t.swappers == s.swappers && t.providerEpoch == s.providerEpoch
            && t.slot == s.slot && t.currentValue == s.currentValue
  {
    longer := more;
    if longer[|longer| - 1].installers[id].phase.Allocated? {
      longer := OneStepContinues(compute, run, longer, InsertNamed(id));
    }
    if longer[|longer| - 1].installers[id].phase.Inserted? {
      longer := OneStepContinues(compute, run, longer, BumpNamed(id));
    }
  }

  /** And on until it sets the slot. */
  lemma UpToSlot(compute: (set<string>, string) -> Route, run: seq<State>, more: seq<State>, id: nat)
    returns (longer: seq<State>)
    requires Continues(compute, run, more)
    requires var s := more[|more| - 1]; id in s.installers && SlotPending(s.installers[id])
    ensures Continues(compute, run, longer) && more < longer
    ensures var s, t := more[|more| - 1], longer[|longer| - 1];
            && t.installers == s.installers[id := s.installers[id].(phase := SlotSet)]
            && t.slot == s.installers[id].generation
  {
    longer := more;
    if !longer[|longer| - 1].installers[id].phase.Odd? {
      longer := UpToSwap(compute, run, longer, id);
      longer := OneStepContinues(compute, run, longer, BumpOdd(id));
    }
    longer := OneStepContinues(compute, run, longer, SetSlot(id));
  }

  /** The slot does not hold the generation of an install that has yet to set it. */
  lemma PendingIsElsewhere(compute: (set<string>, string) -> Route, run: seq<State>, n: nat, id: nat)
    requires IsRun(compute, run) && n < |run|
    requires id in run[n].installers && SlotPending(run[n].installers[id])
    ensures run[n].slot != run[n].installers[id].generation
  {
    var s := run[n];
    RunOk(compute, run, n);
    RunSlot(compute, run, n);
    if s.slot != 0 {
      SetIsNotPending(s, s.slot, id);
    }
  }

  lemma SetIsNotPending(s: State, g: nat, id: nat)
    requires GenerationsOk(s) && WasSet(s, g) && id in s.installers && SlotPending(s.installers[id])
    ensures s.installers[id].generation != g
  {
    var other :| other in s.installers && s.installers[other].generation == g && HasSet(s.installers[other]);
    assert other != id;
  }

  // --------------------------------------------------------------- the slot never falls

  /** At most one install has yet to set the slot, and to a newer generation. */
  ghost predicate InOrder(s: State) {
    OnePending(s) && PendingNewer(s)
  }

  ghost predicate NeverFalls(compute: (set<string>, string) -> Route, run: seq<State>) {
    forall more: seq<State>, i, j :: Continues(compute, run, more) && |run| - 1 <= i <= j < |more| ==>
      more[i].slot <= more[j].slot
  }

  lemma InOrderStep(compute: (set<string>, string) -> Route, s: State, a: Action)
    requires InstallersOk(s) && InOrder(s) && Enabled(s, a) && NoNewDefault(s, Next(compute, s, a))
    ensures InOrder(Next(compute, s, a)) && s.slot <= Next(compute, s, a).slot
  {
    if InstallAction(a) {
      OnePendingStep(compute, s, a);
      PendingNewerStep(compute, s, a);
    } else {
      OthersLeaveInstallers(compute, s, a);
    }
  }

  /** An install that is under way after a step without a new one was so before, and pending if it still is. */
  lemma UnderwayWas(compute: (set<string>, string) -> Route, s: State, a: Action, i: nat)
    requires Enabled(s, a) && NoNewDefault(s, Next(compute, s, a)) && i in Next(compute, s, a).installers
    requires Underway(Next(compute, s, a).installers[i])
    ensures i in s.installers && Underway(s.installers[i])
    ensures s.installers[i].generation == Next(compute, s, a).installers[i].generation
    ensures SlotPending(Next(compute, s, a).installers[i]) ==> SlotPending(s.installers[i]) && a != SetSlot(i)
  {
    if !InstallAction(a) {
      OthersLeaveInstallers(compute, s, a);
    } else if a.id == i {
      PhaseWas(compute, s, a);
    } else {
      InstallChangesOne(compute, s, a);
    }
  }

  lemma PhaseWas(compute: (set<string>, string) -> Route, s: State, a: Action)
    requires Enabled(s, a) && InstallAction(a) && a.id in s.installers
    ensures a.id in Next(compute, s, a).installers
    ensures var i, j := s.installers[a.id], Next(compute, s, a).installers[a.id];
            && j.generation == i.generation && (Underway(j) ==> Underway(i))
            && (SlotPending(j) ==> SlotPending(i) && !a.SetSlot?)
  {
  }

  lemma OnePendingStep(compute: (set<string>, string) -> Route, s: State, a: Action)
    requires OnePending(s) && Enabled(s, a) && InstallAction(a) && NoNewDefault(s, Next(compute, s, a))
    ensures OnePending(Next(compute, s, a))
  {
    var t := Next(compute, s, a);
    forall i, j | i in t.installers && j in t.installers && SlotPending(t.installers[i]) && SlotPending(t.installers[j])
      ensures i == j
    {
      UnderwayWas(compute, s, a, i);
      UnderwayWas(compute, s, a, j);
    }
  }

  lemma PendingNewerStep(compute: (set<string>, string) -> Route, s: State, a: Action)
    requires InstallersOk(s) && InOrder(s) && Enabled(s, a) && InstallAction(a) && NoNewDefault(s, Next(compute, s, a))
    ensures PendingNewer(Next(compute, s, a)) && s.slot <= Next(compute, s, a).slot
  {
    var t := Next(compute, s, a);
    if a.SetSlot? {
      assert SlotPending(s.installers[a.id]);
    } else {
      SlotUntouched(compute, s, a);
    }
    forall i | i in t.installers && SlotPending(t.installers[i])
      ensures t.slot < t.installers[i].generation
    {
      UnderwayWas(compute, s, a, i);
    }
  }

  lemma InOrderNext(compute: (set<string>, string) -> Route, run: seq<State>, more: seq<State>, n: nat)
    requires Continues(compute, run, more) && |run| <= n < |more| && InOrder(more[n - 1])
    ensures InOrder(more[n]) && more[n - 1].slot <= more[n].slot
  {
    var a := StepOfContinuation(compute, run, more, n);
    InOrderStep(compute, more[n - 1], a);
  }

  lemma {:induction false} InOrderThroughout(compute: (set<string>, string) -> Route, run: seq<State>,
                                             more: seq<State>, i: nat, j: nat)
    requires Continues(compute, run, more) && InOrder(run[|run| - 1]) && |run| - 1 <= i <= j < |more|
    ensures InOrder(more[j]) && more[i].slot <= more[j].slot
    decreases j
  {
    if |run| - 1 < j {
      InOrderThroughout(compute, run, more, if i < j then i else j - 1, j - 1);
      InOrderNext(compute, run, more, j);
    }
  }

  /** With two installs yet to set the slot, or one with an older generation, the slot can fall. */
  lemma SlotCanFall(compute: (set<string>, string) -> Route, run: seq<State>)
    returns (more: seq<State>, i: nat, j: nat)
    requires IsRun(compute, run) && !InOrder(run[|run| - 1])
    ensures Continues(compute, run, more) && |run| - 1 <= i <= j < |more| && more[j].slot < more[i].slot
  {
    var s := run[|run| - 1];
    if !PendingNewer(s) {
      var id :| id in s.installers && SlotPending(s.installers[id]) && s.installers[id].generation <= s.slot;
      PendingIsElsewhere(compute, run, |run| - 1, id);
      more := UpToSlot(compute, run, run, id);
      i, j := |run| - 1, |more| - 1;
      assert more[i] == s;
    } else {
      var older, newer := TwoPending(compute, run);
      var first := UpToSlot(compute, run, run, newer);
      more := UpToSlot(compute, run, first, older);
      i, j := |first| - 1, |more| - 1;
      assert more[i] == first[i];
    }
  }

  lemma TwoPending(compute: (set<string>, string) -> Route, run: seq<State>) returns (older: nat, newer: nat)
    requires IsRun(compute, run) && !OnePending(run[|run| - 1])
    ensures var s := run[|run| - 1];
            && older in s.installers && newer in s.installers && older != newer
            && SlotPending(s.installers[older]) && SlotPending(s.installers[newer])
            && s.installers[older].generation < s.installers[newer].generation
  {
    var s := run[|run| - 1];
    RunOk(compute, run, |run| - 1);
    older, newer :| older in s.installers && newer in s.installers && older != newer
      && SlotPending(s.installers[older]) && SlotPending(s.installers[newer]);
    if s.installers[newer].generation < s.installers[older].generation {
      older, newer := newer, older;
    }
  }

  /**
   Unless a further install of the default provider begins, the slot never falls from here on, exactly when
   at most one install has yet to set it and to a newer generation than it holds.
   */
  lemma SlotNeverFallsIff(compute: (set<string>, string) -> Route, run: seq<State>)
    requires IsRun(compute, run)
    ensures NeverFalls(compute, run) <==> InOrder(run[|run| - 1])
  {
    if InOrder(run[|run| - 1]) {
      forall more: seq<State>, i, j | Continues(compute, run, more) && |run| - 1 <= i <= j < |more|
        ensures more[i].slot <= more[j].slot
      {
        InOrderThroughout(compute, run, more, i, j);
      }
    } else {
      var more, i, j := SlotCanFall(compute, run);
    }
  }

  // ----------------------------------------------------------------- reads stay exact

  ghost predicate NeverTears(compute: (set<string>, string) -> Route, run: seq<State>) {
    forall more: seq<State>, n :: Continues(compute, run, more) && |run| - 1 <= n < |more| ==> !Torn(more[n])
  }

  lemma AloneStep(compute: (set<string>, string) -> Route, s: State, a: Action)
    requires Alone(s) && Enabled(s, a) && NoNewDefault(s, Next(compute, s, a))
    ensures Alone(Next(compute, s, a))
  {
    var t := Next(compute, s, a);
    forall i, j | i in t.installers && j in t.installers && Underway(t.installers[i]) && Underway(t.installers[j])
      ensures i == j
    {
      UnderwayWas(compute, s, a, i);
      UnderwayWas(compute, s, a, j);
    }
  }

  lemma AloneNext(compute: (set<string>, string) -> Route, run: seq<State>, more: seq<State>, n: nat)
    requires Continues(compute, run, more) && |run| <= n < |more| && Alone(more[n - 1])
    ensures Alone(more[n])
  {
    var a := StepOfContinuation(compute, run, more, n);
    AloneStep(compute, more[n - 1], a);
  }

  lemma {:induction false} AloneThroughout(compute: (set<string>, string) -> Route, run: seq<State>,
                                           more: seq<State>, n: nat)
    requires Continues(compute, run, more) && Alone(run[|run| - 1]) && |run| - 1 <= n < |more|
    ensures Alone(more[n])
    decreases n
  {
    if |run| - 1 < n {
      AloneThroughout(compute, run, more, n - 1);
      AloneNext(compute, run, more, n);
    }
  }

  lemma ContinuesApart(compute: (set<string>, string) -> Route, run: seq<State>, more: seq<State>)
    requires Continues(compute, run, more) && SwapsApart(run) && Alone(run[|run| - 1])
    ensures SwapsApart(more)
  {
    forall n | 0 <= n < |more|
      ensures Apart(more[n])
    {
      if n < |run| {
        assert more[n] == run[n];
      } else {
        AloneThroughout(compute, run, more, n);
        AloneIsApart(compute, more, n);
      }
    }
  }

  /** Two installs of which neither swaps, or one does: the other's swap is made to fall within its own. */
  lemma TwoCanTear(compute: (set<string>, string) -> Route, run: seq<State>, a: nat, b: nat) returns (more: seq<State>)
    requires IsRun(compute, run) && SwapOk(run[|run| - 1]) && Apart(run[|run| - 1]) && a != b
    requires var s := run[|run| - 1];
             && a in s.installers && b in s.installers && Underway(s.installers[a]) && Underway(s.installers[b])
             && b !in s.swappers && (s.swappers == {} || a in s.swappers)
    ensures Continues(compute, run, more) && Torn(more[|more| - 1])
  {
    more := SwapBegun(compute, run, a, b);
    more := UpToSwap(compute, run, more, b);
    more := OneStepContinues(compute, run, more, BumpOdd(b));
    if !Torn(more[|more| - 1]) {
      PendingIsElsewhere(compute, more, |more| - 1, b);
      more := OneStepContinues(compute, run, more, SetSlot(b));
    }
  }

  /** The first of the two is in its swap, the second before its own. */
  lemma SwapBegun(compute: (set<string>, string) -> Route, run: seq<State>, a: nat, b: nat) returns (more: seq<State>)
    requires IsRun(compute, run) && SwapOk(run[|run| - 1]) && Apart(run[|run| - 1]) && a != b
    requires var s := run[|run| - 1];
             && a in s.installers && b in s.installers && Underway(s.installers[a]) && Underway(s.installers[b])
             && b !in s.swappers && (s.swappers == {} || a in s.swappers)
    ensures Continues(compute, run, more)
    ensures var t := more[|more| - 1];
            && b in t.installers && SlotPending(t.installers[b]) && !t.installers[b].phase.Odd?
            && t.providerEpoch % 2 == 1
  {
    RunOk(compute, run, |run| - 1);
    more := run;
    if run[|run| - 1].swappers == {} {
      more := UpToSwap(compute, run, run, a);
      more := OneStepContinues(compute, run, more, BumpOdd(a));
    }
  }

  lemma TearsUnlessAlone(compute: (set<string>, string) -> Route, run: seq<State>) returns (more: seq<State>)
    requires IsRun(compute, run) && SwapsApart(run) && !Alone(run[|run| - 1])
    ensures Continues(compute, run, more) && Torn(more[|more| - 1])
  {
    var s := run[|run| - 1];
    RunSwap(compute, run, |run| - 1);
    assert Apart(s);
    var i, j :| i in s.installers && j in s.installers && i != j && Underway(s.installers[i])
      && Underway(s.installers[j]);
    if j in s.swappers {
      more := TwoCanTear(compute, run, j, i);
    } else if i in s.swappers || s.swappers == {} {
      more := TwoCanTear(compute, run, i, j);
    } else {
      var k :| k in s.swappers;
      more := TwoCanTear(compute, run, k, j);
    }
  }

  /**
   After a run whose swaps did not overlap, and unless a further install of the default provider begins,
   every read is exact from here on, exactly when at most one install of it is under way.
   */
  lemma ReadsStayExactIff(compute: (set<string>, string) -> Route, run: seq<State>)
    requires IsRun(compute, run) && SwapsApart(run)
    ensures NeverTears(compute, run) <==> Alone(run[|run| - 1])
    ensures (forall more :: Continues(compute, run, more) ==> ReadsStayExact(compute, more)) <==> Alone(run[|run| - 1])
  {
    if Alone(run[|run| - 1]) {
      forall more | Continues(compute, run, more)
        ensures Untorn(more) && ReadsStayExact(compute, more)
      {
        ContinuesApart(compute, run, more);
        ApartIsUntorn(compute, more);
        ReadsExactIff(compute, more);
      }
    } else {
      var more := TearsUnlessAlone(compute, run);
      ReadsExactIff(compute, more);
    }
  }

  // ---------------------------------------------------------------- a tear that lasts

  ghost predicate NoneUnderway(s: State) {
    forall i :: i in s.installers ==> !Underway(s.installers[i])
  }

  lemma IdleStep(compute: (set<string>, string) -> Route, s: State, a: Action)
    requires InstallersOk(s) && NoneUnderway(s) && Enabled(s, a) && NoNewDefault(s, Next(compute, s, a))
    ensures var t := Next(compute, s, a);
            && NoneUnderway(t) && t.providerEpoch == s.providerEpoch
            && t.slot == s.slot && t.currentValue == s.currentValue
  {
    if !InstallAction(a) {
      OthersLeaveInstallers(compute, s, a);
    }
  }

  lemma IdleNext(compute: (set<string>, string) -> Route, run: seq<State>, more: seq<State>, n: nat)
    requires Continues(compute, run, more) && |run| <= n < |more| && NoneUnderway(more[n - 1])
    ensures NoneUnderway(more[n]) && (Torn(more[n - 1]) ==> Torn(more[n]))
  {
    var a := StepOfContinuation(compute, run, more, n);
    IdleStep(compute, more[n - 1], a);
  }

  /** Once all installs are over a tear stays until the next one begins. */
  lemma {:induction false} TearStays(compute: (set<string>, string) -> Route, run: seq<State>, more: seq<State>, n: nat)
    requires Continues(compute, run, more) && |run| - 1 <= n < |more|
    requires NoneUnderway(run[|run| - 1]) && Torn(run[|run| - 1])
    ensures NoneUnderway(more[n]) && Torn(more[n])
    decreases n
  {
    if |run| - 1 < n {
      TearStays(compute, run, more, n - 1);
      IdleNext(compute, run, more, n);
    }
  }

  /** Two swaps that overlap can leave the newer generation in the slot and the older one stored, when both are over. */
  lemma TearOutlasts(compute: (set<string>, string) -> Route) returns (run: seq<State>)
    ensures IsRun(compute, run) && NoneUnderway(run[|run| - 1]) && Torn(run[|run| - 1])
    ensures run[|run| - 1].slot == 2 && run[|run| - 1].currentValue == 1
  {
    run := InstallUpToSwap(compute, [INIT], 0);
    run := InstallUpToSwap(compute, run, 1);
    run := BothSet(compute, run);
    run := OneStepMore(compute, run, SetValue(1));
    run := OneStepMore(compute, run, SetValue(0));
    run := OneStepMore(compute, run, BumpEven(0));
    run := OneStepMore(compute, run, BumpEven(1));
  }

  lemma BothSet(compute: (set<string>, string) -> Route, run: seq<State>) returns (more: seq<State>)
    requires IsRun(compute, run) && InPhase(run[|run| - 1], 0, Bumped) && InPhase(run[|run| - 1], 1, Bumped)
    ensures IsRun(compute, more)
    ensures var s, t := run[|run| - 1], more[|more| - 1];
            && t.installers == s.installers[0 := s.installers[0].(phase := SlotSet)]
                                           [1 := s.installers[1].(phase := SlotSet)]
            && t.providerEpoch == s.providerEpoch + 2 && t.slot == s.installers[1].generation
  {
    more := OneStepMore(compute, run, BumpOdd(0));
    more := OneStepMore(compute, more, BumpOdd(1));
    more := OneStepMore(compute, more, SetSlot(0));
    more := OneStepMore(compute, more, SetSlot(1));
  }

  // ------------------------------------------------------------ a tear needs a provider

  /** Once an install has set the slot, or stored its generation, the slot is never empty. */
  ghost predicate SlotFilled(s: State) {
    && (s.currentValue != 0 ==> s.slot != 0)
    && forall i :: i in s.installers && HasSet(s.installers[i]) ==> s.slot != 0
  }

  lemma SlotFilledStep(compute: (set<string>, string) -> Route, s: State, a: Action)
    requires InstallersOk(s) && SlotFilled(s) && Enabled(s, a)
    ensures SlotFilled(Next(compute, s, a))
  {
    if !InstallAction(a) {
      OthersLeaveInstallers(compute, s, a);
    }
  }

  lemma {:induction false} RunSlotFilled(compute: (set<string>, string) -> Route, run: seq<State>, n: nat)
    requires IsRun(compute, run) && n < |run|
    ensures SlotFilled(run[n])
    decreases n
  {
    if 0 < n {
      RunSlotFilled(compute, run, n - 1);
      RunOk(compute, run, n - 1);
      var a := StepAt(compute, run, n - 1);
      SlotFilledStep(compute, run[n - 1], a);
    }
  }

  lemma TornHasSlot(compute: (set<string>, string) -> Route, run: seq<State>, n: nat)
    requires IsRun(compute, run) && n < |run| && Torn(run[n])
    ensures run[n].slot != 0
  {
    RunSlotFilled(compute, run, n);
  }

  // --------------------------------------------------------------- calls that run alone

  /** An install whose build fails changes nothing but the count of generations, and is over. */
  lemma FailedBuildIsOver(compute: (set<string>, string) -> Route, run: seq<State>, id: nat, name: string,
                          isDefault: bool)
    returns (more: seq<State>)
    requires IsRun(compute, run) && id !in run[|run| - 1].installers
    ensures IsRun(compute, more) && run < more
    ensures var s, t := run[|run| - 1], more[|more| - 1];
            && t.named == s.named && t.namedEpoch == s.namedEpoch && t.slot == s.slot
            && t.currentValue == s.currentValue && t.providerEpoch == s.providerEpoch
            && id in t.installers && t.installers[id].phase.Failed? && (NoneUnderway(s) ==> NoneUnderway(t))
  {
    more := OneStepMore(compute, run, StartInstall(id, name, isDefault));
    more := OneStepMore(compute, more, BuildFails(id));
  }

  /** A read that meets an install goes for the lock and returns what the slot holds. */
  lemma ReadWhileSwapping(compute: (set<string>, string) -> Route, run: seq<State>, id: nat) returns (more: seq<State>)
    requires IsRun(compute, run) && run[|run| - 1].providerEpoch % 2 == 1 && id !in run[|run| - 1].readers
    ensures IsRun(compute, more) && run < more
    ensures var t := more[|more| - 1];
            id in t.readers && t.readers[id] == Answered(|run| - 1, run[|run| - 1].slot)
  {
    RunOk(compute, run, |run| - 1);
    more := OneStepMore(compute, run, BeginRead(id));
    more := OneStepMore(compute, more, LoadEpoch(id));
    more := OneStepMore(compute, more, LockedRead(id));
  }

  lemma RouteMisses(compute: (set<string>, string) -> Route, run: seq<State>, id: nat, sql: string)
    returns (more: seq<State>)
    requires IsRun(compute, run) && id !in run[|run| - 1].routers
    requires var m := run[|run| - 1].memo; m.epoch != run[|run| - 1].namedEpoch || sql !in m.routes
    ensures IsRun(compute, more) && run < more
    ensures var s, t := run[|run| - 1], more[|more| - 1];
            && id in t.routers && t.routers[id] == Missed(|run| - 1, sql, s.namedEpoch)
            && t.named == s.named && t.namedEpoch == s.namedEpoch && t.memo == s.memo
  {
    RunOk(compute, run, |run| - 1);
    more := OneStepMore(compute, run, BeginRoute(id, sql));
    more := OneStepMore(compute, more, LoadRegistryEpoch(id));
    more := OneStepMore(compute, more, LookUpMemo(id));
  }

  /** A routing call that misses the memo computes its route from the registry and remembers it. */
  lemma RouteAlone(compute: (set<string>, string) -> Route, run: seq<State>, id: nat, sql: string)
    returns (more: seq<State>)
    requires IsRun(compute, run) && id !in run[|run| - 1].routers
    requires var m := run[|run| - 1].memo; m.epoch != run[|run| - 1].namedEpoch || sql !in m.routes
    ensures IsRun(compute, more) && run < more
    ensures var s, t := run[|run| - 1], more[|more| - 1];
            var route := compute(s.named.Keys, sql);
            && id in t.routers && t.routers[id] == Routed(|run| - 1, sql, route)
            && t.memo.epoch == t.namedEpoch == s.namedEpoch && sql in t.memo.routes && t.memo.routes[sql] == route
  {
    more := RouteMisses(compute, run, id, sql);
    more := OneStepMore(compute, more, ComputeRoute(id));
    more := OneStepMore(compute, more, StoreRoute(id));
  }

  /** A routing call for a remembered statement, the registry being unchanged, is answered from the memo. */
  lemma RouteRemembered(compute: (set<string>, string) -> Route, run: seq<State>, id: nat, sql: string)
    returns (more: seq<State>)
    requires IsRun(compute, run) && id !in run[|run| - 1].routers
    requires var m := run[|run| - 1].memo; m.epoch == run[|run| - 1].namedEpoch && sql in m.routes
    ensures IsRun(compute, more) && |more| == |run| + 3 && run < more
    ensures var t := more[|more| - 1];
            id in t.routers && t.routers[id] == Routed(|run| - 1, sql, run[|run| - 1].memo.routes[sql])
  {
    RunOk(compute, run, |run| - 1);
    more := OneStepMore(compute, run, BeginRoute(id, sql));
    more := OneStepMore(compute, more, LoadRegistryEpoch(id));
    more := OneStepMore(compute, more, LookUpMemo(id));
  }

  /** Remembering one more statement under the same epoch forgets none, unless the memo is full. */
  lemma RememberKeeps(m: Memo, sql: string, route: Route)
    requires |m.routes| < ROUTE_MEMO_CAP
    ensures Remember(m, m.epoch, sql, route) == Memo(m.epoch, m.routes[sql := route])
  {
  }
}
