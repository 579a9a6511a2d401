/** The provider registry. */
module Runtime {
  // The provider registry (src/runtime.rs) and the route memo on top of it (src/sql_route.rs) as
  // one step system. Every atomic load, store and lock-protected update is one step; steps of
  // any number of installers, pruners, generation readers and routers interleave freely.

  import opened Common

  const ROUTE_MEMO_CAP: nat := 1024

  /** How far an install has come. A named install is finished once it has bumped the registry epoch. */
  datatype Phase =
    | Allocated // generation taken, provider being built
    | Inserted  // in the name map
    | Bumped    // registry epoch bumped
    | Odd       // provider epoch made odd
    | SlotSet   // default handle replaced
    | ValueSet  // generation value stored
    | Done
    | Failed    // the build failed

  datatype Installer = Installer(phase: Phase, generation: nat, name: string, isDefault: bool)

  /** A call of `current_generation`, begun at instant `since`. */
  datatype Reader =
    | Begun(since: nat)
    | EpochRead(since: nat, before: nat)
    | ValueRead(since: nat, before: nat, value: nat)
    | MustLock(since: nat)
    | Answered(since: nat, generation: nat)

  type Route = Option<(string, string)>

  /** A call of `route_provider_sql`, begun at instant `since`. */
  datatype Router =
    | Asked(since: nat, sql: string)
    | Loaded(since: nat, sql: string, epoch: nat)
    | Missed(since: nat, sql: string, epoch: nat)
    | Computed(since: nat, sql: string, epoch: nat, route: Route)
    | Routed(since: nat, sql: string, route: Route)

  datatype Memo = Memo(epoch: nat, routes: map<string, Route>)

  /**
   Generation 0 in the slot or the value stands for no default provider. `swappers` are the installs
   that are replacing it.
   */
  datatype State = State(
    now: nat,
    nextGeneration: nat,
    slot: nat,
    currentValue: nat,
    providerEpoch: nat,
    named: map<string, nat>,
    namedEpoch: nat,
    swappers: set<nat>,
    installers: map<nat, Installer>,
    readers: map<nat, Reader>,
    routers: map<nat, Router>,
    memo: Memo)

  const INIT := State(0, 0, 0, 0, 0, map[], 0, {}, map[], map[], map[], Memo(0, map[]))

  datatype Action =
    | StartInstall(id: nat, name: string, isDefault: bool)
    | BuildFails(id: nat)
    | InsertNamed(id: nat)
    | BumpNamed(id: nat)
    | BumpOdd(id: nat)
    | SetSlot(id: nat)
    | SetValue(id: nat)
    | BumpEven(id: nat)
    | Prune(keep: set<string>)
    | BeginRead(id: nat)
    | LoadEpoch(id: nat)
    | LoadValue(id: nat)
    | ReloadEpoch(id: nat)
    | LockedRead(id: nat)
    | BeginRoute(id: nat, sql: string)
    | LoadRegistryEpoch(id: nat)
    | LookUpMemo(id: nat)
    | ComputeRoute(id: nat)
    | StoreRoute(id: nat)

  predicate InPhase(s: State, id: nat, phase: Phase) {
    id in s.installers && s.installers[id].phase == phase
  }

  /** What lets an action happen next: the thread is at the matching point of its code. */
  predicate Enabled(s: State, a: Action) {
    match a
    case StartInstall(id, _, _) => id !in s.installers
    case BuildFails(id) => InPhase(s, id, Allocated)
    case InsertNamed(id) => InPhase(s, id, Allocated)
    case BumpNamed(id) => InPhase(s, id, Inserted)
    case BumpOdd(id) => InPhase(s, id, Bumped)
    case SetSlot(id) => InPhase(s, id, Odd)
    case SetValue(id) => InPhase(s, id, SlotSet)
    case BumpEven(id) => InPhase(s, id, ValueSet)
    case Prune(_) => true
    case BeginRead(id) => id in s.readers ==> s.readers[id].Answered?
    case LoadEpoch(id) => id in s.readers && s.readers[id].Begun?
    case LoadValue(id) => id in s.readers && s.readers[id].EpochRead?
    case ReloadEpoch(id) => id in s.readers && s.readers[id].ValueRead?
    case LockedRead(id) => id in s.readers && s.readers[id].MustLock?
    case BeginRoute(id, _) => id in s.routers ==> s.routers[id].Routed?
    case LoadRegistryEpoch(id) => id in s.routers && s.routers[id].Asked?
    case LookUpMemo(id) => id in s.routers && s.routers[id].Loaded?
    case ComputeRoute(id) => id in s.routers && s.routers[id].Missed?
    case StoreRoute(id) => id in s.routers && s.routers[id].Computed?
  }

  function ToPhase(s: State, id: nat, phase: Phase): State {
    if id in s.installers then s.(installers := s.installers[id := s.installers[id].(phase := phase)]) else s
  }

  /** Inserting into the memo: start over under another epoch or at the cap. */
  function Remember(m: Memo, epoch: nat, sql: string, route: Route): Memo {
    var routes := if m.epoch != epoch || |m.routes| >= ROUTE_MEMO_CAP then map[] else m.routes;
    Memo(epoch, routes[sql := route])
  }

  function Effect(compute: (set<string>, string) -> Route, s: State, a: Action): State
    requires Enabled(s, a)
  {
    match a
    case StartInstall(id, name, isDefault) =>
      var g := s.nextGeneration + 1;
      s.(nextGeneration := g,
         installers := s.installers[id := Installer(Allocated, g, name, isDefault)])
    case BuildFails(id) => ToPhase(s, id, Failed)
    case InsertNamed(id) =>
      ToPhase(s, id, Inserted).(named := s.named[s.installers[id].name := s.installers[id].generation])
    case BumpNamed(id) =>
      ToPhase(s, id, if s.installers[id].isDefault then Bumped else Done).(namedEpoch := s.namedEpoch + 1)
    case BumpOdd(id) => ToPhase(s, id, Odd).(providerEpoch := s.providerEpoch + 1, swappers := s.swappers + {id})
    case SetSlot(id) => ToPhase(s, id, SlotSet).(slot := s.installers[id].generation)
    case SetValue(id) => ToPhase(s, id, ValueSet).(currentValue := s.installers[id].generation)
    case BumpEven(id) => ToPhase(s, id, Done).(providerEpoch := s.providerEpoch + 1, swappers := s.swappers - {id})
    case Prune(keep) =>
      var kept := map n | n in s.named && n in keep :: s.named[n];
      s.(named := kept, namedEpoch := if kept.Keys == s.named.Keys then s.namedEpoch else s.namedEpoch + 1)
    case BeginRead(id) => s.(readers := s.readers[id := Begun(s.now)])
    case LoadEpoch(id) =>
      var since := s.readers[id].since;
      s.(readers := s.readers[id := if s.providerEpoch % 2 == 1 then MustLock(since)
                                    else EpochRead(since, s.providerEpoch)])
    case LoadValue(id) =>
      var r := s.readers[id];
      s.(readers := s.readers[id := ValueRead(r.since, r.before, s.currentValue)])
    case ReloadEpoch(id) =>
      var r := s.readers[id];
      s.(readers := s.readers[id := if s.providerEpoch != r.before then MustLock(r.since)
                                    else Answered(r.since, r.value)])
    case LockedRead(id) => s.(readers := s.readers[id := Answered(s.readers[id].since, s.slot)])
    case BeginRoute(id, sql) => s.(routers := s.routers[id := Asked(s.now, sql)])
    case LoadRegistryEpoch(id) =>
      var r := s.routers[id];
      s.(routers := s.routers[id := Loaded(r.since, r.sql, s.namedEpoch)])
    case LookUpMemo(id) =>
      var r := s.routers[id];
      s.(routers := s.routers[id := if s.memo.epoch == r.epoch && r.sql in s.memo.routes
                                    then Routed(r.since, r.sql, s.memo.routes[r.sql])
                                    else Missed(r.since, r.sql, r.epoch)])
    case ComputeRoute(id) =>
      var r := s.routers[id];
      s.(routers := s.routers[id := Computed(r.since, r.sql, r.epoch, compute(s.named.Keys, r.sql))])
    case StoreRoute(id) =>
      var r := s.routers[id];
      s.(routers := s.routers[id := Routed(r.since, r.sql, r.route)], memo := Remember(s.memo, r.epoch, r.sql, r.route))
  }

  function Next(compute: (set<string>, string) -> Route, s: State, a: Action): State
    requires Enabled(s, a)
  {
    Effect(compute, s, a).(now := s.now + 1)
  }

  // ------------------------------------------------------------------------ runs

  /** A run: the states at successive instants, each reached from the one before by an enabled action. */
  ghost predicate IsRun(compute: (set<string>, string) -> Route, run: seq<State>) {
    && run != [] && run[0] == INIT
    && forall i :: 0 <= i < |run| - 1 ==> Steps(compute, run[i], run[i + 1])
  }

  ghost predicate Steps(compute: (set<string>, string) -> Route, s: State, t: State) {
    exists a :: Enabled(s, a) && t == Next(compute, s, a)
  }

  // --------------------------------------------------- the default provider's swap

  /** An install between the two bumps of the provider epoch. */
  ghost predicate Swapping(i: Installer) {
    i.phase.Odd? || i.phase.SlotSet? || i.phase.ValueSet?
  }

  /** At most one install is between its two bumps. */
  ghost predicate Apart(s: State) {
    forall i, j :: i in s.swappers && j in s.swappers ==> i == j
  }

  /**
   How the slot, the stored value and the epoch's parity relate while no install replaces the provider,
   and while one does.
   */
  ghost predicate SwapOk(s: State) {
    && (s.swappers == {} ==> s.providerEpoch % 2 == 0 && s.currentValue == s.slot)
    && forall id :: id in s.swappers ==>
         id in s.installers && s.providerEpoch % 2 == 1 && SwapperOk(s, s.installers[id])
  }

  ghost predicate SwapperOk(s: State, i: Installer) {
    && i.isDefault
    && match i.phase
       case Odd => s.currentValue == s.slot
       case SlotSet => s.slot == i.generation
       case ValueSet => s.currentValue == s.slot == i.generation
       case _ => false
  }

  /** Phases that only a default install passes through. */
  ghost predicate PhaseOk(i: Installer) {
    i.phase.Bumped? || i.phase.Odd? || i.phase.SlotSet? || i.phase.ValueSet? ==> i.isDefault
  }

  /** Generations are handed out once each. */
  ghost predicate GenerationsOk(s: State) {
    && (forall i :: i in s.installers ==> 1 <= s.installers[i].generation <= s.nextGeneration)
    && (forall i, j :: i in s.installers && j in s.installers && i != j ==>
          s.installers[i].generation != s.installers[j].generation)
  }

  ghost predicate PhasesOk(s: State) {
    && (forall i :: i in s.installers ==> PhaseOk(s.installers[i]))
    && (forall i :: i in s.installers && Swapping(s.installers[i]) ==> i in s.swappers)
  }

  ghost predicate InstallersOk(s: State) {
    GenerationsOk(s) && PhasesOk(s)
  }

  predicate InstallAction(a: Action) {
    || a.StartInstall? || a.BuildFails? || a.InsertNamed? || a.BumpNamed?
    || a.BumpOdd? || a.SetSlot? || a.SetValue? || a.BumpEven?
  }

  /** Whatever speaks only of installers, the slot and the default provider's epoch is left alone by other actions. */
  predicate SameInstallers(s: State, t: State) {
    && t.installers == s.installers && t.swappers == s.swappers && t.nextGeneration == s.nextGeneration
    && t.slot == s.slot && t.currentValue == s.currentValue && t.providerEpoch == s.providerEpoch
    && s.namedEpoch <= t.namedEpoch
  }

  lemma OthersLeaveInstallers(compute: (set<string>, string) -> Route, s: State, a: Action)
    requires Enabled(s, a) && !InstallAction(a)
    ensures SameInstallers(s, Next(compute, s, a))
  {
  }

  /** A step of an install changes one installer, and only a start changes which generations there are. */
  lemma InstallChangesOne(compute: (set<string>, string) -> Route, s: State, a: Action)
    requires Enabled(s, a) && InstallAction(a)
    ensures var t := Next(compute, s, a);
            if a.StartInstall? then
              a.id !in s.installers && t.nextGeneration == s.nextGeneration + 1
              && t.installers == s.installers[a.id := Installer(Allocated, s.nextGeneration + 1, a.name, a.isDefault)]
            else
              a.id in s.installers && a.id in t.installers && t.nextGeneration == s.nextGeneration
              && t.installers == s.installers[a.id := t.installers[a.id]]
              && t.installers[a.id].generation == s.installers[a.id].generation
  {
  }

  lemma OneGenerationMore(s: State, t: State, id: nat, inst: Installer)
    requires GenerationsOk(s) && id !in s.installers
    requires t.nextGeneration == s.nextGeneration + 1 && t.installers == s.installers[id := inst]
    requires inst.generation == t.nextGeneration
    ensures GenerationsOk(t)
  {
  }

  lemma SameGenerations(s: State, t: State, id: nat, inst: Installer)
    requires GenerationsOk(s) && id in s.installers
    requires t.nextGeneration == s.nextGeneration && t.installers == s.installers[id := inst]
    requires inst.generation == s.installers[id].generation
    ensures GenerationsOk(t)
  {
  }

  lemma GenerationsKept(compute: (set<string>, string) -> Route, s: State, a: Action)
    requires GenerationsOk(s) && Enabled(s, a)
    ensures GenerationsOk(Next(compute, s, a))
  {
    var t := Next(compute, s, a);
    if InstallAction(a) {
      InstallChangesOne(compute, s, a);
      if a.StartInstall? {
        OneGenerationMore(s, t, a.id, t.installers[a.id]);
      } else {
        SameGenerations(s, t, a.id, t.installers[a.id]);
      }
    } else {
      OthersLeaveInstallers(compute, s, a);
    }
  }

  lemma PhasesKept(compute: (set<string>, string) -> Route, s: State, a: Action)
    requires PhasesOk(s) && Enabled(s, a)
    ensures PhasesOk(Next(compute, s, a))
  {
    if InstallAction(a) {
      InstallKeepsPhases(compute, s, a);
    } else {
      OthersLeaveInstallers(compute, s, a);
    }
  }

  lemma InstallKeepsPhases(compute: (set<string>, string) -> Route, s: State, a: Action)
    requires PhasesOk(s) && Enabled(s, a) && InstallAction(a)
    ensures PhasesOk(Next(compute, s, a))
  {
  }

  lemma InstallersKept(compute: (set<string>, string) -> Route, s: State, a: Action)
    requires InstallersOk(s) && Enabled(s, a)
    ensures InstallersOk(Next(compute, s, a))
  {
    GenerationsKept(compute, s, a);
    PhasesKept(compute, s, a);
  }

  lemma SwapKept(compute: (set<string>, string) -> Route, s: State, a: Action)
    requires InstallersOk(s) && SwapOk(s) && Enabled(s, a) && Apart(s) && Apart(Next(compute, s, a))
    ensures SwapOk(Next(compute, s, a))
  {
    if InstallAction(a) {
      InstallKeepsSwap(compute, s, a);
    } else {
      OthersLeaveInstallers(compute, s, a);
    }
  }

  lemma InstallKeepsSwap(compute: (set<string>, string) -> Route, s: State, a: Action)
    requires InstallersOk(s) && SwapOk(s) && Enabled(s, a) && InstallAction(a) && Apart(s) && Apart(Next(compute, s, a))
    ensures SwapOk(Next(compute, s, a))
  {
  }

  /** No epoch counts backwards. */
  lemma EpochsGrow(compute: (set<string>, string) -> Route, s: State, a: Action)
    requires Enabled(s, a)
    ensures s.providerEpoch <= Next(compute, s, a).providerEpoch && s.namedEpoch <= Next(compute, s, a).namedEpoch
  {
  }

  /** What one step keeps: the installers' invariants hold on, the clock ticks, and nothing counts backwards. */
  lemma StepOk(compute: (set<string>, string) -> Route, s: State, t: State)
    requires InstallersOk(s) && Steps(compute, s, t)
    ensures InstallersOk(t) && t.now == s.now + 1
    ensures s.providerEpoch <= t.providerEpoch && s.namedEpoch <= t.namedEpoch
  {
    var a :| Enabled(s, a) && t == Next(compute, s, a);
    InstallersKept(compute, s, a);
    EpochsGrow(compute, s, a);
  }

  lemma {:induction false} RunOk(compute: (set<string>, string) -> Route, run: seq<State>, n: nat)
    requires IsRun(compute, run) && n < |run|
    ensures InstallersOk(run[n]) && run[n].now == n
    decreases n
  {
    if 0 < n {
      RunOk(compute, run, n - 1);
      assert Steps(compute, run[n - 1], run[n - 1 + 1]);
      StepOk(compute, run[n - 1], run[n]);
    }
  }

  lemma {:induction false} EpochGrows(compute: (set<string>, string) -> Route, run: seq<State>, i: nat, j: nat)
    requires IsRun(compute, run) && i <= j < |run|
    ensures run[i].namedEpoch <= run[j].namedEpoch
    decreases j
  {
    if i < j {
      EpochGrows(compute, run, i, j - 1);
      RunOk(compute, run, j - 1);
      assert Steps(compute, run[j - 1], run[j - 1 + 1]);
      StepOk(compute, run[j - 1], run[j]);
    }
  }

  lemma SwappersKept(compute: (set<string>, string) -> Route, s: State, a: Action)
    requires Enabled(s, a)
    requires forall i :: i in s.swappers ==> i in s.installers && Swapping(s.installers[i])
    ensures var t := Next(compute, s, a); forall i :: i in t.swappers ==> i in t.installers && Swapping(t.installers[i])
  {
  }

  /** The sections in which installs replace the default provider never overlap in the run. */
  ghost predicate SwapsApart(run: seq<State>) {
    forall n :: 0 <= n < |run| ==> Apart(run[n])
  }

  lemma {:induction false} RunSwap(compute: (set<string>, string) -> Route, run: seq<State>, n: nat)
    requires IsRun(compute, run) && SwapsApart(run) && n < |run|
    ensures SwapOk(run[n])
    decreases n
  {
    if 0 < n {
      RunSwap(compute, run, n - 1);
      var a := StepAt(compute, run, n - 1);
      RunOk(compute, run, n - 1);
      SwapKept(compute, run[n - 1], a);
    }
  }

  /** One step of the run, with the action that made it. */
  ghost predicate StepOf(compute: (set<string>, string) -> Route, run: seq<State>, n: nat, a: Action) {
    && n + 1 < |run|
    && Enabled(run[n], a) && run[n + 1] == Next(compute, run[n], a)
    && run[n].now == n && run[n].namedEpoch <= run[n + 1].namedEpoch
  }

  lemma StepAt(compute: (set<string>, string) -> Route, run: seq<State>, n: nat) returns (a: Action)
    requires IsRun(compute, run) && n + 1 < |run|
    ensures StepOf(compute, run, n, a)
  {
    RunOk(compute, run, n);
    assert Steps(compute, run[n], run[n + 1]);
    StepOk(compute, run[n], run[n + 1]);
    a :| Enabled(run[n], a) && run[n + 1] == Next(compute, run[n], a);
  }

  // ---------------------------------------------------------- generation readers

  /** The epoch says that no install is replacing the provider, yet the stored generation is not the slot's. */
  predicate Torn(s: State) {
    s.providerEpoch % 2 == 0 && s.currentValue != s.slot
  }

  ghost predicate Untorn(run: seq<State>) {
    forall n :: 0 <= n < |run| ==> !Torn(run[n])
  }

  /** At some instant between `a` and `b` the default provider's generation was `g`. */
  ghost predicate SlotWas(run: seq<State>, a: nat, b: nat, g: nat) {
    exists k :: a <= k <= b && k < |run| && run[k].slot == g
  }

  /** What each point of a read has established by instant `n`. */
  ghost predicate ReaderOk(run: seq<State>, n: nat, r: Reader)
    requires n < |run|
  {
    && r.since <= n
    && match r
       case EpochRead(_, before) => before % 2 == 0 && before <= run[n].providerEpoch
       case ValueRead(since, before, value) =>
         && before % 2 == 0 && before <= run[n].providerEpoch
         && (before == run[n].providerEpoch ==> SlotWas(run, since, n, value))
       case Answered(since, g) => SlotWas(run, since, n, g)
       case _ => true
  }

  lemma SlotWasLater(run: seq<State>, a: nat, b: nat, c: nat, g: nat)
    requires SlotWas(run, a, b, g) && b <= c
    ensures SlotWas(run, a, c, g)
  {
  }

  /** A read that has not moved knows what it knew. */
  lemma ReaderWaits(run: seq<State>, n: nat, r: Reader)
    requires n + 1 < |run| && ReaderOk(run, n, r) && run[n].providerEpoch <= run[n + 1].providerEpoch
    ensures ReaderOk(run, n + 1, r)
  {
    match r
    case ValueRead(since, before, value) =>
      if before == run[n + 1].providerEpoch {
        SlotWasLater(run, since, n, n + 1, value);
      }
    case Answered(since, g) => SlotWasLater(run, since, n, n + 1, g);
    case _ =>
  }

  /** A read that moves: a value read under an even, unchanged epoch was in the slot at that instant. */
  lemma ReaderMoves(compute: (set<string>, string) -> Route, run: seq<State>, n: nat, a: Action, id: nat)
    requires n + 1 < |run| && Enabled(run[n], a) && run[n + 1] == Next(compute, run[n], a)
    requires !Torn(run[n]) && run[n].now == n
    requires a == BeginRead(id) || (id in run[n].readers && ReaderOk(run, n, run[n].readers[id])
                                    && a in {LoadEpoch(id), LoadValue(id), ReloadEpoch(id), LockedRead(id)})
    ensures id in run[n + 1].readers && ReaderOk(run, n + 1, run[n + 1].readers[id])
  {
    var s, t := run[n], run[n + 1];
    match a
    case LoadValue(_) =>
      if s.readers[id].before == t.providerEpoch {
        assert SlotWas(run, s.readers[id].since, n + 1, s.currentValue) by {
          assert run[n].slot == s.currentValue;
        }
      }
    case ReloadEpoch(_) =>
      if s.providerEpoch == s.readers[id].before {
        SlotWasLater(run, s.readers[id].since, n, n + 1, s.readers[id].value);
      }
    case LockedRead(_) =>
      assert run[n].slot == s.slot;
    case _ =>
  }

  ghost predicate ReadersOk(run: seq<State>, n: nat)
    requires n < |run|
  {
    forall id :: id in run[n].readers ==> ReaderOk(run, n, run[n].readers[id])
  }

  /** Which reader, if any, an action moves. */
  function ReaderOf(a: Action): Option<nat> {
    match a
    case BeginRead(id) => Some(id)
    case LoadEpoch(id) => Some(id)
    case LoadValue(id) => Some(id)
    case ReloadEpoch(id) => Some(id)
    case LockedRead(id) => Some(id)
    case _ => None
  }

  lemma OthersStay(compute: (set<string>, string) -> Route, s: State, a: Action, id: nat)
    requires Enabled(s, a) && ReaderOf(a) != Some(id)
    ensures id in Next(compute, s, a).readers <==> id in s.readers
    ensures id in s.readers ==> Next(compute, s, a).readers[id] == s.readers[id]
  {
  }

  lemma {:induction false} RunReaders(compute: (set<string>, string) -> Route, run: seq<State>, n: nat)
    requires IsRun(compute, run) && Untorn(run) && n < |run|
    ensures ReadersOk(run, n)
    decreases n
  {
    if 0 < n {
      var m := n - 1;
      RunReaders(compute, run, m);
      RunOk(compute, run, m);
      assert Steps(compute, run[m], run[m + 1]);
      StepOk(compute, run[m], run[m + 1]);
      var a :| Enabled(run[m], a) && run[m + 1] == Next(compute, run[m], a);
      forall id | id in run[n].readers
        ensures ReaderOk(run, n, run[n].readers[id])
      {
        if ReaderOf(a) == Some(id) {
          ReaderMoves(compute, run, m, a, id);
        } else {
          OthersStay(compute, run[m], a, id);
          ReaderWaits(run, m, run[m].readers[id]);
        }
      }
    }
  }

  /** The read returned a generation that the slot held at some instant between its start and `n`. */
  ghost predicate Linearizes(run: seq<State>, n: nat, id: nat)
    requires n < |run|
  {
    id in run[n].readers && run[n].readers[id].Answered? ==>
      var r := run[n].readers[id]; r.since <= n && SlotWas(run, r.since, n, r.generation)
  }

  /**
   Reads of the current generation are linearizable: whatever interleaves, on the epoch fast
   path and on the locked path alike, an answered read returns the default provider's
   generation at some instant between the call's start and its answer.
   */
  lemma ReadsLinearize(compute: (set<string>, string) -> Route, run: seq<State>, n: nat, id: nat)
    requires IsRun(compute, run) && Untorn(run) && n < |run|
    requires id in run[n].readers && run[n].readers[id].Answered?
    ensures var r := run[n].readers[id]; r.since <= n && SlotWas(run, r.since, n, r.generation)
  {
    RunReaders(compute, run, n);
  }

  /** A run in which swaps do not overlap is never torn. */
  lemma ApartIsUntorn(compute: (set<string>, string) -> Route, run: seq<State>)
    requires IsRun(compute, run) && SwapsApart(run)
    ensures Untorn(run)
  {
    forall n | 0 <= n < |run|
      ensures !Torn(run[n])
    {
      RunSwap(compute, run, n);
    }
  }

  // ------------------------------------------------------ installs that overlap

  /** A run that goes on from instant `k` of another with reads only. */
  ghost predicate ReadsFrom(compute: (set<string>, string) -> Route, run: seq<State>, k: nat, more: seq<State>) {
    && IsRun(compute, more) && k < |run| && k < |more| && more[..k + 1] == run[..k + 1]
    && forall n :: k <= n < |more| ==> OnlyReads(run[k], more[n])
  }

  ghost predicate OnlyReads(s: State, t: State) {
    s == t.(now := s.now, readers := s.readers)
  }

  /** No run that goes on with reads from an instant of this one answers a read wrongly. */
  ghost predicate ReadsStayExact(compute: (set<string>, string) -> Route, run: seq<State>) {
    forall k, more, n, id :: ReadsFrom(compute, run, k, more) && 0 <= n < |more| ==> Linearizes(more, n, id)
  }

  lemma ReadsFromUntorn(compute: (set<string>, string) -> Route, run: seq<State>, k: nat, more: seq<State>)
    requires ReadsFrom(compute, run, k, more) && Untorn(run)
    ensures Untorn(more)
  {
    forall i | 0 <= i < |more|
      ensures !Torn(more[i])
    {
      if i <= k {
        assert more[..k + 1][i] == run[..k + 1][i];
      } else {
        assert OnlyReads(run[k], more[i]);
      }
    }
  }

  /** Reads that follow a run are exact, at each of its instants, precisely when no instant of it is torn. */
  lemma ReadsExactIff(compute: (set<string>, string) -> Route, run: seq<State>)
    requires IsRun(compute, run)
    ensures ReadsStayExact(compute, run) <==> Untorn(run)
  {
    if Untorn(run) {
      forall k: nat, more, n: nat, id | ReadsFrom(compute, run, k, more) && n < |more|
        ensures Linearizes(more, n, id)
      {
        ReadsFromUntorn(compute, run, k, more);
        RunReaders(compute, more, n);
      }
    } else {
      var k: nat :| k < |run| && Torn(run[k]);
      var more, id := TornRead(compute, run, k);
      assert ReadsFrom(compute, run, k, more) && !Linearizes(more, |more| - 1, id);
    }
  }

  lemma FreshId(ids: set<nat>) returns (id: nat)
    ensures forall i :: i in ids ==> i < id
  {
    if ids == {} {
      id := 0;
    } else {
      var m :| m in ids;
      var rest := ids - {m};
      var above := FreshId(rest);
      id := if above <= m then m + 1 else above;
      assert forall i :: i in ids ==> i in rest || i == m;
    }
  }

  lemma OneStepMore(compute: (set<string>, string) -> Route, run: seq<State>, a: Action) returns (more: seq<State>)
    requires IsRun(compute, run) && Enabled(run[|run| - 1], a)
    ensures IsRun(compute, more) && more == run + [Next(compute, run[|run| - 1], a)]
    ensures SwapsApart(run) && Apart(more[|more| - 1]) ==> SwapsApart(more)
  {
    more := run + [Next(compute, run[|run| - 1], a)];
    forall i | 0 <= i < |more| - 1
      ensures Steps(compute, more[i], more[i + 1])
    {
      if i < |run| - 1 {
        assert Steps(compute, run[i], run[i + 1]);
      }
    }
  }

  /** One more step of some read. */
  lemma OneReadMore(compute: (set<string>, string) -> Route, run: seq<State>, k: nat, more: seq<State>, a: Action)
    returns (longer: seq<State>)
    requires ReadsFrom(compute, run, k, more) && Enabled(more[|more| - 1], a) && ReaderOf(a).Some?
    ensures ReadsFrom(compute, run, k, longer) && longer == more + [Next(compute, more[|more| - 1], a)]
  {
    longer := OneStepMore(compute, more, a);
    assert OnlyReads(run[k], more[|more| - 1]);
    forall n | k <= n < |longer|
      ensures OnlyReads(run[k], longer[n])
    {
      if n < |more| {
        assert longer[n] == more[n];
      }
    }
  }

  /** Four steps of a read that nothing disturbs, while no install seems to replace the provider. */
  lemma ReadAlone(compute: (set<string>, string) -> Route, run: seq<State>, id: nat) returns (more: seq<State>)
    requires IsRun(compute, run) && run[|run| - 1].providerEpoch % 2 == 0 && id !in run[|run| - 1].readers
    ensures run < more && ReadsFrom(compute, run, |run| - 1, more)
    ensures var last := more[|more| - 1];
            id in last.readers && last.readers[id] == Answered(|run| - 1, run[|run| - 1].currentValue)
  {
    var k := |run| - 1;
    RunOk(compute, run, k);
    more := OneReadMore(compute, run, k, run, BeginRead(id));
    more := OneReadMore(compute, run, k, more, LoadEpoch(id));
    more := OneReadMore(compute, run, k, more, LoadValue(id));
    more := OneReadMore(compute, run, k, more, ReloadEpoch(id));
  }

  /** At a torn instant a read that meets no install returns the stored generation, which the slot does not hold. */
  lemma TornRead(compute: (set<string>, string) -> Route, run: seq<State>, k: nat) returns (more: seq<State>, id: nat)
    requires IsRun(compute, run) && k < |run| && Torn(run[k])
    ensures ReadsFrom(compute, run, k, more) && !Linearizes(more, |more| - 1, id)
  {
    id := FreshId(run[k].readers.Keys);
    PrefixIsRun(compute, run, k);
    more := ReadAlone(compute, run[..k + 1], id);
  }

  /** Two such reads after an instant, one after the other; `m` is when the first is answered. */
  lemma TwoReads(compute: (set<string>, string) -> Route, run: seq<State>, k: nat)
    returns (more: seq<State>, first: nat, m: nat, second: nat)
    requires IsRun(compute, run) && k < |run| && run[k].providerEpoch % 2 == 0
    ensures ReadsFrom(compute, run, k, more) && k < m < |more| - 1
    ensures first in more[m].readers && more[m].readers[first] == Answered(k, run[k].currentValue)
    ensures var last := more[|more| - 1];
            second in last.readers && last.readers[second] == Answered(m, run[k].currentValue)
  {
    var front := run[..k + 1];
    PrefixIsRun(compute, run, k);
    first := FreshId(run[k].readers.Keys);
    var once := ReadAlone(compute, front, first);
    m := |once| - 1;
    assert OnlyReads(run[k], once[m]);
    second := FreshId(once[m].readers.Keys);
    more := ReadAlone(compute, once, second);
    assert more[m] == once[m] && more[..k + 1] == once[..k + 1];
    forall n | k <= n < |more|
      ensures OnlyReads(run[k], more[n])
    {
      if n <= m {
        assert more[n] == once[n] && OnlyReads(run[k], once[n]);
      } else {
        assert OnlyReads(once[m], more[n]);
      }
    }
  }

  lemma PrefixIsRun(compute: (set<string>, string) -> Route, run: seq<State>, k: nat)
    requires IsRun(compute, run) && k < |run|
    ensures IsRun(compute, run[..k + 1])
  {
    var front := run[..k + 1];
    forall i | 0 <= i < |front| - 1
      ensures Steps(compute, front[i], front[i + 1])
    {
      assert Steps(compute, run[i], run[i + 1]);
    }
  }

  /** An install of the default provider that goes on up to its swap, alone. */
  lemma InstallUpToSwap(compute: (set<string>, string) -> Route, run: seq<State>, id: nat) returns (more: seq<State>)
    requires IsRun(compute, run) && id !in run[|run| - 1].installers
    ensures IsRun(compute, more) && (SwapsApart(run) ==> SwapsApart(more))
    ensures var s, t := run[|run| - 1], more[|more| - 1];
            t.installers == s.installers[id := Installer(Bumped, s.nextGeneration + 1, "a", true)]
            && t.swappers == s.swappers && t.providerEpoch == s.providerEpoch
            && t.slot == s.slot && t.currentValue == s.currentValue && t.nextGeneration == s.nextGeneration + 1
  {
    more := OneStepMore(compute, run, StartInstall(id, "a", true));
    more := OneStepMore(compute, more, InsertNamed(id));
    more := OneStepMore(compute, more, BumpNamed(id));
  }

  /** Two default installs whose swaps overlap make the epoch even again before either has stored its generation. */
  lemma OverlapTears(compute: (set<string>, string) -> Route) returns (run: seq<State>)
    ensures IsRun(compute, run) && !SwapsApart(run) && !ReadsStayExact(compute, run)
  {
    run := InstallUpToSwap(compute, [INIT], 0);
    run := InstallUpToSwap(compute, run, 1);
    run := OneStepMore(compute, run, BumpOdd(0));
    run := OneStepMore(compute, run, BumpOdd(1));
    run := OneStepMore(compute, run, SetSlot(0));
    var last := run[|run| - 1];
    assert 0 in last.swappers && 1 in last.swappers && !Apart(last);
    assert Torn(last);
    ReadsExactIff(compute, run);
  }

  // -------------------------------------------------- one default install at a time

  ghost predicate Underway(i: Installer) {
    i.isDefault && !i.phase.Done? && !i.phase.Failed?
  }

  /** At most one install of the default provider is under way, anywhere between its start and its end. */
  ghost predicate Alone(s: State) {
    forall i, j :: i in s.installers && j in s.installers && Underway(s.installers[i]) && Underway(s.installers[j])
      ==> i == j
  }

  ghost predicate OneAtATime(run: seq<State>) {
    forall n :: 0 <= n < |run| ==> Alone(run[n])
  }

  ghost predicate SlotPending(i: Installer) {
    Underway(i) && !i.phase.SlotSet? && !i.phase.ValueSet?
  }

  /** At most one install of the default provider has yet to set the slot. */
  ghost predicate OnePending(s: State) {
    forall i, j :: i in s.installers && j in s.installers ==>
      SlotPending(s.installers[i]) && SlotPending(s.installers[j]) ==> i == j
  }

  ghost predicate OnePendingAtATime(run: seq<State>) {
    forall n :: 0 <= n < |run| ==> OnePending(run[n])
  }

  /** An install that has not yet set the slot will set it to a newer generation. */
  ghost predicate PendingNewer(s: State) {
    forall i :: i in s.installers && SlotPending(s.installers[i]) ==> s.slot < s.installers[i].generation
  }

  ghost predicate SlotBehind(s: State) {
    s.slot <= s.nextGeneration && PendingNewer(s)
  }

  lemma InstallKeepsSlotBehind(compute: (set<string>, string) -> Route, s: State, a: Action)
    requires InstallersOk(s) && SlotBehind(s) && OnePending(s) && Enabled(s, a) && InstallAction(a)
    ensures SlotBehind(Next(compute, s, a)) && s.slot <= Next(compute, s, a).slot
  {
  }

  lemma StepSlotBehind(compute: (set<string>, string) -> Route, s: State, t: State)
    requires InstallersOk(s) && SlotBehind(s) && OnePending(s) && Steps(compute, s, t)
    ensures SlotBehind(t) && s.slot <= t.slot
  {
    var a :| Enabled(s, a) && t == Next(compute, s, a);
    if InstallAction(a) {
      InstallKeepsSlotBehind(compute, s, a);
    } else {
      OthersLeaveInstallers(compute, s, a);
    }
  }

  lemma {:induction false} RunSlotBehind(compute: (set<string>, string) -> Route, run: seq<State>, n: nat)
    requires IsRun(compute, run) && OnePendingAtATime(run) && n < |run|
    ensures SlotBehind(run[n])
    decreases n
  {
    if 0 < n {
      RunSlotBehind(compute, run, n - 1);
      RunOk(compute, run, n - 1);
      assert Steps(compute, run[n - 1], run[n - 1 + 1]);
      StepSlotBehind(compute, run[n - 1], run[n]);
    }
  }

  /** The slot never falls while at most one install has yet to set it. */
  lemma {:induction false} SlotGrows(compute: (set<string>, string) -> Route, run: seq<State>, i: nat, j: nat)
    requires IsRun(compute, run) && OnePendingAtATime(run) && i <= j < |run|
    ensures run[i].slot <= run[j].slot
    decreases j
  {
    if i < j {
      SlotGrows(compute, run, i, j - 1);
      RunSlotBehind(compute, run, j - 1);
      RunOk(compute, run, j - 1);
      assert Steps(compute, run[j - 1], run[j - 1 + 1]);
      StepSlotBehind(compute, run[j - 1], run[j]);
    }
  }

  lemma {:induction false} SwappersOk(compute: (set<string>, string) -> Route, run: seq<State>, n: nat)
    requires IsRun(compute, run) && n < |run|
    ensures forall i :: i in run[n].swappers ==> i in run[n].installers && Swapping(run[n].installers[i])
    decreases n
  {
    if 0 < n {
      SwappersOk(compute, run, n - 1);
      var a := StepAt(compute, run, n - 1);
      SwappersKept(compute, run[n - 1], a);
    }
  }

  lemma AloneIsApart(compute: (set<string>, string) -> Route, run: seq<State>, n: nat)
    requires IsRun(compute, run) && n < |run| && Alone(run[n])
    ensures Apart(run[n])
  {
    RunOk(compute, run, n);
    SwappersOk(compute, run, n);
  }

  /** One default install at a time is more than enough for both promises about reads. */
  lemma OneAtATimeSuffices(compute: (set<string>, string) -> Route, run: seq<State>)
    requires IsRun(compute, run) && OneAtATime(run)
    ensures Untorn(run) && OnePendingAtATime(run)
  {
    forall n | 0 <= n < |run|
      ensures Apart(run[n])
    {
      assert Alone(run[n]);
      AloneIsApart(compute, run, n);
    }
    ApartIsUntorn(compute, run);
    forall n | 0 <= n < |run|
      ensures OnePending(run[n])
    {
      assert Alone(run[n]);
    }
  }

  /**
   While no instant is torn and at most one install has yet to set the slot, a read begun after another was
   answered returns at least as new a generation.
   */
  lemma ReadsNeverGoBack(compute: (set<string>, string) -> Route, run: seq<State>, n: nat, m: nat, first: nat,
                         second: nat)
    requires IsRun(compute, run) && Untorn(run) && OnePendingAtATime(run) && n <= m < |run|
    requires first in run[n].readers && run[n].readers[first].Answered?
    requires second in run[m].readers && run[m].readers[second].Answered?
    requires n <= run[m].readers[second].since
    ensures run[n].readers[first].generation <= run[m].readers[second].generation
  {
    var r, q := run[n].readers[first], run[m].readers[second];
    ReadsLinearize(compute, run, n, first);
    ReadsLinearize(compute, run, m, second);
    var i :| r.since <= i <= n && run[i].slot == r.generation;
    var j :| q.since <= j <= m && run[j].slot == q.generation;
    SlotGrows(compute, run, i, j);
  }

  /** An install of the default provider that swaps while no other does. */
  lemma SwapAlone(compute: (set<string>, string) -> Route, run: seq<State>, id: nat) returns (more: seq<State>)
    requires IsRun(compute, run) && InPhase(run[|run| - 1], id, Bumped) && run[|run| - 1].swappers == {}
    ensures IsRun(compute, more) && run < more && (SwapsApart(run) ==> SwapsApart(more))
    ensures var s, t := run[|run| - 1], more[|more| - 1];
            t.installers == s.installers[id := s.installers[id].(phase := Done)] && t.swappers == {}
            && t.slot == s.installers[id].generation
  {
    more := OneStepMore(compute, run, BumpOdd(id));
    more := OneStepMore(compute, more, SetSlot(id));
    more := OneStepMore(compute, more, SetValue(id));
    more := OneStepMore(compute, more, BumpEven(id));
  }

  /** An install whose swap waits until a later install is over sets the slot back to its older generation. */
  lemma LateInstallGoesBack(compute: (set<string>, string) -> Route) returns (run: seq<State>, i: nat, j: nat)
    ensures IsRun(compute, run) && SwapsApart(run) && i < j < |run| && run[j].slot < run[i].slot
  {
    run := InstallUpToSwap(compute, [INIT], 0);
    run := InstallUpToSwap(compute, run, 1);
    var newer := SwapAlone(compute, run, 1);
    i := |newer| - 1;
    run := SwapAlone(compute, newer, 0);
    assert run[..|newer|] == newer && run[i] == newer[i];
    j := |run| - 1;
  }

  // ------------------------------------------------------------------ route memo

  /** `route` was computed for `sql` from the registry at some instant up to `n` when its epoch was at least `epoch`. */
  ghost predicate RouteWas(compute: (set<string>, string) -> Route, run: seq<State>, n: nat, epoch: nat, sql: string,
                           route: Route) {
    exists k :: 0 <= k <= n && k < |run| && epoch <= run[k].namedEpoch && route == compute(run[k].named.Keys, sql)
  }

  lemma RouteWasLater(compute: (set<string>, string) -> Route, run: seq<State>, n: nat, m: nat, epoch: nat,
                      older: nat, sql: string, route: Route)
    requires RouteWas(compute, run, n, epoch, sql, route) && n <= m && older <= epoch
    ensures RouteWas(compute, run, m, older, sql, route)
  {
    var k :| 0 <= k <= n && k < |run| && epoch <= run[k].namedEpoch && route == compute(run[k].named.Keys, sql);
  }

  ghost predicate MemoOk(compute: (set<string>, string) -> Route, run: seq<State>, n: nat)
    requires n < |run|
  {
    var m := run[n].memo;
    && |m.routes| <= ROUTE_MEMO_CAP
    && forall sql :: sql in m.routes ==> RouteWas(compute, run, n, m.epoch, sql, m.routes[sql])
  }

  /** What each point of a routing call has established by instant `n`. */
  ghost predicate RouterOk(compute: (set<string>, string) -> Route, run: seq<State>, n: nat, r: Router)
    requires n < |run|
  {
    && r.since <= n
    && match r
       case Asked(_, _) => true
       case Loaded(since, _, epoch) => run[since].namedEpoch <= epoch <= run[n].namedEpoch
       case Missed(since, _, epoch) => run[since].namedEpoch <= epoch <= run[n].namedEpoch
       case Computed(since, sql, epoch, route) =>
         run[since].namedEpoch <= epoch && RouteWas(compute, run, n, epoch, sql, route)
       case Routed(since, sql, route) => RouteWas(compute, run, n, run[since].namedEpoch, sql, route)
  }

  lemma RouterWaits(compute: (set<string>, string) -> Route, run: seq<State>, n: nat, r: Router)
    requires n + 1 < |run| && RouterOk(compute, run, n, r) && run[n].namedEpoch <= run[n + 1].namedEpoch
    ensures RouterOk(compute, run, n + 1, r)
  {
    match r
    case Computed(_, sql, epoch, route) => RouteWasLater(compute, run, n, n + 1, epoch, epoch, sql, route);
    case Routed(since, sql, route) =>
      RouteWasLater(compute, run, n, n + 1, run[since].namedEpoch, run[since].namedEpoch, sql, route);
    case _ =>
  }

  /** Which router, if any, an action moves. */
  function RouterOf(a: Action): Option<nat> {
    match a
    case BeginRoute(id, _) => Some(id)
    case LoadRegistryEpoch(id) => Some(id)
    case LookUpMemo(id) => Some(id)
    case ComputeRoute(id) => Some(id)
    case StoreRoute(id) => Some(id)
    case _ => None
  }

  lemma RouterMoves(compute: (set<string>, string) -> Route, run: seq<State>, n: nat, a: Action, id: nat)
    requires StepOf(compute, run, n, a) && RouterOf(a) == Some(id) && MemoOk(compute, run, n)
    requires a.BeginRoute? || RouterOk(compute, run, n, run[n].routers[id])
    requires a.LoadRegistryEpoch? ==> run[run[n].routers[id].since].namedEpoch <= run[n].namedEpoch
    ensures id in run[n + 1].routers && RouterOk(compute, run, n + 1, run[n + 1].routers[id])
  {
    match a
    case LookUpMemo(_) =>
      var r, m := run[n].routers[id], run[n].memo;
      if m.epoch == r.epoch && r.sql in m.routes {
        RouteWasLater(compute, run, n, n + 1, m.epoch, run[r.since].namedEpoch, r.sql, m.routes[r.sql]);
      }
    case ComputeRoute(_) =>
      var r := run[n].routers[id];
      assert r.epoch <= run[n].namedEpoch;
    case StoreRoute(_) =>
      var r := run[n].routers[id];
      RouteWasLater(compute, run, n, n + 1, r.epoch, run[r.since].namedEpoch, r.sql, r.route);
    case _ =>
  }

  lemma RoutersStay(compute: (set<string>, string) -> Route, s: State, a: Action, id: nat)
    requires Enabled(s, a) && RouterOf(a) != Some(id)
    ensures id in Next(compute, s, a).routers <==> id in s.routers
    ensures id in s.routers ==> Next(compute, s, a).routers[id] == s.routers[id]
  {
  }

  lemma MemoStays(compute: (set<string>, string) -> Route, s: State, a: Action)
    requires Enabled(s, a) && !a.StoreRoute?
    ensures Next(compute, s, a).memo == s.memo
  {
  }

  /**
   A store, even of a delayed writer that puts the memo back to an older epoch, leaves only entries
   good for the memo's epoch.
   */
  lemma MemoKept(compute: (set<string>, string) -> Route, run: seq<State>, n: nat, a: Action)
    requires StepOf(compute, run, n, a) && MemoOk(compute, run, n)
    requires a.StoreRoute? ==> RouterOk(compute, run, n, run[n].routers[a.id])
    ensures MemoOk(compute, run, n + 1)
  {
    var m, m' := run[n].memo, run[n + 1].memo;
    if !a.StoreRoute? {
      MemoStays(compute, run[n], a);
    }
    forall sql | sql in m'.routes
      ensures RouteWas(compute, run, n + 1, m'.epoch, sql, m'.routes[sql])
    {
      if a.StoreRoute? && sql == run[n].routers[a.id].sql {
        var r := run[n].routers[a.id];
        RouteWasLater(compute, run, n, n + 1, r.epoch, r.epoch, sql, r.route);
      } else {
        RouteWasLater(compute, run, n, n + 1, m.epoch, m.epoch, sql, m.routes[sql]);
      }
    }
  }

  lemma {:induction false} RunRouters(compute: (set<string>, string) -> Route, run: seq<State>, n: nat)
    requires IsRun(compute, run) && n < |run|
    ensures MemoOk(compute, run, n)
    ensures forall id :: id in run[n].routers ==> RouterOk(compute, run, n, run[n].routers[id])
    decreases n
  {
    if 0 < n {
      var m := n - 1;
      RunRouters(compute, run, m);
      var a := StepAt(compute, run, m);
      MemoKept(compute, run, m, a);
      forall id | id in run[n].routers
        ensures RouterOk(compute, run, n, run[n].routers[id])
      {
        if RouterOf(a) == Some(id) {
          if a.LoadRegistryEpoch? {
            EpochGrows(compute, run, run[m].routers[id].since, m);
          }
          RouterMoves(compute, run, m, a, id);
        } else {
          RoutersStay(compute, run[m], a, id);
          RouterWaits(compute, run, m, run[m].routers[id]);
        }
      }
    }
  }

  /**
   The registry names changed at instant `m`, and that change was over by instant `c`: its epoch bump
   had been made.
   */
  ghost predicate ChangeOver(run: seq<State>, m: nat, c: nat) {
    m <= c < |run| && run[m].namedEpoch < run[c].namedEpoch
  }

  /**
   A routing call that starts after a registry change is over returns a route computed from
   the registry as it was at some instant after that change, whatever the memo held, and the
   memo never holds more than its cap.
   */
  lemma RoutesAreFresh(compute: (set<string>, string) -> Route, run: seq<State>, n: nat, id: nat, m: nat, c: nat)
    requires IsRun(compute, run) && n < |run|
    requires id in run[n].routers && run[n].routers[id].Routed?
    requires ChangeOver(run, m, c) && c <= run[n].routers[id].since
    ensures var r := run[n].routers[id];
            exists k :: m < k <= n && r.route == compute(run[k].named.Keys, r.sql)
    ensures |run[n].memo.routes| <= ROUTE_MEMO_CAP
  {
    RunRouters(compute, run, n);
    var r := run[n].routers[id];
    var k :| 0 <= k <= n && run[r.since].namedEpoch <= run[k].namedEpoch
      && r.route == compute(run[k].named.Keys, r.sql);
    EpochGrows(compute, run, c, r.since);
    if k <= m {
      EpochGrows(compute, run, k, m);
    }
  }

  /** The install's epoch bump has been made. */
  predicate PastBump(s: State, id: nat) {
    && id in s.installers
    && var p := s.installers[id].phase;
    !p.Allocated? && !p.Inserted? && !p.Failed?
  }

  /** Only the epoch bump takes an install past it. */
  lemma BumpOrBefore(compute: (set<string>, string) -> Route, s: State, a: Action, id: nat)
    requires Enabled(s, a) && PastBump(Next(compute, s, a), id)
    ensures PastBump(s, id) || Next(compute, s, a).namedEpoch == s.namedEpoch + 1
  {
  }

  /**
   An install that was not yet in the name map at `m` and has returned, or at least made its epoch
   bump, by `c`, is over.
   */
  lemma {:induction false} InstallIsOver(compute: (set<string>, string) -> Route, run: seq<State>, m: nat, c: nat,
                                         id: nat)
    requires IsRun(compute, run) && m <= c < |run|
    requires !PastBump(run[m], id) && PastBump(run[c], id)
    ensures ChangeOver(run, m, c)
    decreases c
  {
    var d := c - 1;
    var a := StepAt(compute, run, d);
    EpochGrows(compute, run, m, d);
    BumpOrBefore(compute, run[d], a, id);
    if PastBump(run[d], id) {
      InstallIsOver(compute, run, m, d, id);
    }
  }

  /** A prune that drops a name is over at once. */
  lemma PruneIsOver(compute: (set<string>, string) -> Route, run: seq<State>, m: nat, keep: set<string>)
    requires IsRun(compute, run) && m + 1 < |run|
    requires run[m + 1] == Next(compute, run[m], Prune(keep)) && !(run[m].named.Keys <= keep)
    ensures ChangeOver(run, m, m + 1)
  {
    var n :| n in run[m].named && n !in keep;
    assert n !in run[m + 1].named;
  }

  // ------------------------------------------------- a generation is installed once

  ghost predicate WasInserted(s: State, g: nat) {
    exists id :: id in s.installers && s.installers[id].generation == g
                 && !s.installers[id].phase.Allocated? && !s.installers[id].phase.Failed?
  }

  /** Where the name map points, an install put it there. */
  ghost predicate NamedOk(s: State) {
    forall name :: name in s.named ==> WasInserted(s, s.named[name])
  }

  ghost predicate Holds(s: State, name: string, g: nat) {
    name in s.named && s.named[name] == g
  }

  lemma InsertedStays(compute: (set<string>, string) -> Route, s: State, a: Action, g: nat)
    requires Enabled(s, a) && WasInserted(s, g)
    ensures WasInserted(Next(compute, s, a), g)
  {
    var id :| id in s.installers && s.installers[id].generation == g
              && !s.installers[id].phase.Allocated? && !s.installers[id].phase.Failed?;
    var t := Next(compute, s, a);
    assert id in t.installers && t.installers[id].generation == g;
  }

  lemma NamedKept(compute: (set<string>, string) -> Route, s: State, a: Action)
    requires Enabled(s, a) && NamedOk(s)
    ensures NamedOk(Next(compute, s, a))
  {
    var t := Next(compute, s, a);
    forall name | name in t.named
      ensures WasInserted(t, t.named[name])
    {
      if a.InsertNamed? && name == s.installers[a.id].name {
        assert t.installers[a.id].generation == t.named[name];
      } else {
        InsertedStays(compute, s, a, s.named[name]);
      }
    }
  }

  /** A generation that was inserted and is not under a name does not come back under it. */
  lemma NoReturn(compute: (set<string>, string) -> Route, s: State, a: Action, name: string, g: nat)
    requires GenerationsOk(s) && Enabled(s, a) && WasInserted(s, g) && !Holds(s, name, g)
    ensures WasInserted(Next(compute, s, a), g) && !Holds(Next(compute, s, a), name, g)
  {
    InsertedStays(compute, s, a, g);
  }

  lemma {:induction false} RunNamed(compute: (set<string>, string) -> Route, run: seq<State>, n: nat)
    requires IsRun(compute, run) && n < |run|
    ensures NamedOk(run[n])
    decreases n
  {
    if 0 < n {
      RunNamed(compute, run, n - 1);
      var a := StepAt(compute, run, n - 1);
      NamedKept(compute, run[n - 1], a);
    }
  }

  lemma StepStaysAway(compute: (set<string>, string) -> Route, s: State, t: State, name: string, g: nat)
    requires GenerationsOk(s) && Steps(compute, s, t) && WasInserted(s, g) && !Holds(s, name, g)
    ensures WasInserted(t, g) && !Holds(t, name, g)
  {
    var a :| Enabled(s, a) && t == Next(compute, s, a);
    NoReturn(compute, s, a, name, g);
  }

  lemma {:induction false} StaysAway(compute: (set<string>, string) -> Route, run: seq<State>, name: string, g: nat,
                                     j: nat, k: nat)
    requires IsRun(compute, run) && j <= k < |run| && WasInserted(run[j], g) && !Holds(run[j], name, g)
    ensures WasInserted(run[k], g) && !Holds(run[k], name, g)
    decreases k
  {
    if j < k {
      StaysAway(compute, run, name, g, j, k - 1);
      RunOk(compute, run, k - 1);
      assert Steps(compute, run[k - 1], run[k - 1 + 1]);
      StepStaysAway(compute, run[k - 1], run[k], name, g);
    }
  }

  lemma {:induction false} InsertedLater(compute: (set<string>, string) -> Route, run: seq<State>, g: nat, i: nat,
                                         j: nat)
    requires IsRun(compute, run) && i <= j < |run| && WasInserted(run[i], g)
    ensures WasInserted(run[j], g)
    decreases j
  {
    if i < j {
      InsertedLater(compute, run, g, i, j - 1);
      var a := StepAt(compute, run, j - 1);
      InsertedStays(compute, run[j - 1], a, g);
    }
  }

  /** A name that holds the same generation at two instants held it throughout, installs and prunes notwithstanding. */
  lemma NameHoldsThroughout(compute: (set<string>, string) -> Route, run: seq<State>, name: string, g: nat, i: nat,
                            j: nat, k: nat)
    requires IsRun(compute, run) && i <= j <= k < |run|
    requires Holds(run[i], name, g) && Holds(run[k], name, g)
    ensures Holds(run[j], name, g)
  {
    RunNamed(compute, run, i);
    InsertedLater(compute, run, g, i, j);
    if !Holds(run[j], name, g) {
      StaysAway(compute, run, name, g, j, k);
    }
  }

  // ------------------------------------------------------- the slot through a run

  ghost predicate HasSet(i: Installer) {
    i.isDefault && (i.phase.SlotSet? || i.phase.ValueSet? || i.phase.Done?)
  }

  /** Some install of the default provider with the generation has set the slot. */
  ghost predicate WasSet(s: State, g: nat) {
    exists id :: id in s.installers && s.installers[id].generation == g && HasSet(s.installers[id])
  }

  ghost predicate SlotOk(s: State) {
    s.slot != 0 ==> WasSet(s, s.slot)
  }

  lemma SetStays(compute: (set<string>, string) -> Route, s: State, a: Action, g: nat)
    requires Enabled(s, a) && WasSet(s, g)
    ensures WasSet(Next(compute, s, a), g)
  {
    var id :| id in s.installers && s.installers[id].generation == g && HasSet(s.installers[id]);
    var t := Next(compute, s, a);
    assert id in t.installers && t.installers[id].generation == g && HasSet(t.installers[id]);
  }

  lemma SlotKept(compute: (set<string>, string) -> Route, s: State, a: Action)
    requires InstallersOk(s) && SlotOk(s) && Enabled(s, a)
    ensures SlotOk(Next(compute, s, a))
  {
    var t := Next(compute, s, a);
    if a.SetSlot? {
      assert t.installers[a.id].generation == t.slot;
    } else if s.slot != 0 {
      SlotUntouched(compute, s, a);
      SetStays(compute, s, a, s.slot);
    } else {
      SlotUntouched(compute, s, a);
    }
  }

  lemma SlotUntouched(compute: (set<string>, string) -> Route, s: State, a: Action)
    requires Enabled(s, a) && !a.SetSlot?
    ensures Next(compute, s, a).slot == s.slot
  {
  }

  /** A generation that has left the slot does not come back to it. */
  lemma SlotNoReturn(compute: (set<string>, string) -> Route, s: State, a: Action, g: nat)
    requires GenerationsOk(s) && Enabled(s, a) && WasSet(s, g) && s.slot != g
    ensures WasSet(Next(compute, s, a), g) && Next(compute, s, a).slot != g
  {
    SetStays(compute, s, a, g);
    if !a.SetSlot? {
      SlotUntouched(compute, s, a);
    }
  }

  lemma StepSlot(compute: (set<string>, string) -> Route, s: State, t: State)
    requires InstallersOk(s) && SlotOk(s) && Steps(compute, s, t)
    ensures SlotOk(t)
  {
    var a :| Enabled(s, a) && t == Next(compute, s, a);
    SlotKept(compute, s, a);
  }

  lemma SlotFilledNext(compute: (set<string>, string) -> Route, run: seq<State>, n: nat)
    requires IsRun(compute, run) && n + 1 < |run| && run[n].slot != 0
    ensures run[n + 1].slot != 0
  {
    RunOk(compute, run, n);
    var a := StepAt(compute, run, n);
    if !a.SetSlot? {
      SlotUntouched(compute, run[n], a);
    }
  }

  lemma StepSlotAway(compute: (set<string>, string) -> Route, s: State, t: State, g: nat)
    requires GenerationsOk(s) && Steps(compute, s, t) && WasSet(s, g) && s.slot != g
    ensures WasSet(t, g) && t.slot != g
  {
    var a :| Enabled(s, a) && t == Next(compute, s, a);
    SlotNoReturn(compute, s, a, g);
  }

  lemma {:induction false} RunSlot(compute: (set<string>, string) -> Route, run: seq<State>, n: nat)
    requires IsRun(compute, run) && n < |run|
    ensures SlotOk(run[n])
    decreases n
  {
    if 0 < n {
      RunSlot(compute, run, n - 1);
      RunOk(compute, run, n - 1);
      assert Steps(compute, run[n - 1], run[n - 1 + 1]);
      StepSlot(compute, run[n - 1], run[n]);
    }
  }

  /** Once there is a default provider there is one ever after. */
  lemma {:induction false} SlotStaysFilled(compute: (set<string>, string) -> Route, run: seq<State>, i: nat, j: nat)
    requires IsRun(compute, run) && i <= j < |run| && run[i].slot != 0
    ensures run[j].slot != 0
    decreases j
  {
    if i < j {
      SlotStaysFilled(compute, run, i, j - 1);
      SlotFilledNext(compute, run, j - 1);
    }
  }

  lemma {:induction false} SlotStaysAway(compute: (set<string>, string) -> Route, run: seq<State>, g: nat, j: nat,
                                         k: nat)
    requires IsRun(compute, run) && j <= k < |run| && WasSet(run[j], g) && run[j].slot != g
    ensures WasSet(run[k], g) && run[k].slot != g
    decreases k
  {
    if j < k {
      SlotStaysAway(compute, run, g, j, k - 1);
      RunOk(compute, run, k - 1);
      assert Steps(compute, run[k - 1], run[k - 1 + 1]);
      StepSlotAway(compute, run[k - 1], run[k], g);
    }
  }

  lemma {:induction false} SetLater(compute: (set<string>, string) -> Route, run: seq<State>, g: nat, i: nat, j: nat)
    requires IsRun(compute, run) && i <= j < |run| && WasSet(run[i], g)
    ensures WasSet(run[j], g)
    decreases j
  {
    if i < j {
      SetLater(compute, run, g, i, j - 1);
      var a := StepAt(compute, run, j - 1);
      SetStays(compute, run[j - 1], a, g);
    }
  }

  /**
   The same for the default provider: every generation is set once, so between two instants at which it
   is current it stays so.
   */
  lemma SlotHoldsThroughout(compute: (set<string>, string) -> Route, run: seq<State>, i: nat, j: nat, k: nat)
    requires IsRun(compute, run) && i <= j <= k < |run| && run[i].slot == run[k].slot
    ensures run[j].slot == run[i].slot
  {
    var g := run[i].slot;
    if g == 0 {
      if run[j].slot != 0 {
        SlotStaysFilled(compute, run, j, k);
      }
    } else {
      RunSlot(compute, run, i);
      SetLater(compute, run, g, i, j);
      if run[j].slot != g {
        SlotStaysAway(compute, run, g, j, k);
      }
    }
  }
}
