/** Periodic table refresh. */
module Refresh {
  // Periodic table refresh (src/refresh.rs): the store of table snapshots, the start of one ticker
  // per table, and a step system in which tickers, the host and a shutdown interleave freely.
  // A step is what a task does between two points at which another may run.

  import opened Common

  type Rows = seq<seq<string>>

  datatype RefreshSpec = RefreshSpec(name: string, interval: nat, source: nat)

  // ------------------------------------------------------------------- the store

  /** One generation of a table; never changed once it is built. */
  class TableData {
    const name: string
    const rows: Rows

    constructor (name: string, rows: Rows)
      ensures this.name == name && this.rows == rows
    {
      this.name, this.rows := name, rows;
    }
  }

  class TableStore {
    var current: map<string, TableData>

    constructor ()
      ensures current == map[]
    {
      current := map[];
    }

    ghost predicate Valid()
      reads this
    {
      forall n :: n in current ==> current[n].name == n
    }

    /** The caller gets the generation itself, not a copy. */
    method Snapshot(name: string) returns (r: Option<TableData>)
      requires Valid()
      ensures r.Some? <==> name in current
      ensures r.Some? ==> r.value == current[name] && r.value.name == name
    {
      r := if name in current then Some(current[name]) else None;
    }

    method Insert(data: TableData)
      requires Valid()
      modifies this
      ensures Valid() && current == old(current)[data.name := data]
    {
      current := current[data.name := data];
    }
  }

  // -------------------------------------------------------------- starting tickers

  predicate IsFirst(specs: seq<RefreshSpec>, i: nat) {
    i < |specs| && forall j :: 0 <= j < i ==> specs[j].name != specs[i].name
  }

  /** The specs among the first `n` whose name none before them has. */
  function FirstOfEach(specs: seq<RefreshSpec>, n: nat): seq<RefreshSpec>
    requires n <= |specs|
  {
    if n == 0 then []
    else if IsFirst(specs, n - 1) then FirstOfEach(specs, n - 1) + [specs[n - 1]]
    else FirstOfEach(specs, n - 1)
  }

  method SpawnWithStore(specs: seq<RefreshSpec>) returns (handles: seq<RefreshSpec>)
    ensures handles == FirstOfEach(specs, |specs|)
  {
    handles := [];
    var seen: set<string> := {};
    for i := 0 to |specs|
      invariant handles == FirstOfEach(specs, i)
      invariant forall n :: n in seen <==> exists j :: 0 <= j < i && specs[j].name == n
    {
      if specs[i].name !in seen {
        seen := seen + {specs[i].name};
        handles := handles + [specs[i]];
      }
    }
  }

  /** The spec is the first one with the name. */
  ghost predicate FirstNamed(specs: seq<RefreshSpec>, name: string, spec: RefreshSpec) {
    spec.name == name && exists i: nat :: IsFirst(specs, i) && specs[i] == spec
  }

  /** Whatever is kept is the first spec of its name. */
  lemma {:induction false} KeptIsFirst(specs: seq<RefreshSpec>, n: nat, k: nat) returns (i: nat)
    requires n <= |specs| && k < |FirstOfEach(specs, n)|
    ensures i < n && IsFirst(specs, i) && specs[i] == FirstOfEach(specs, n)[k]
  {
    if k < |FirstOfEach(specs, n - 1)| {
      i := KeptIsFirst(specs, n - 1, k);
    } else {
      i := n - 1;
    }
  }

  /** And the first spec of every name is kept. */
  lemma {:induction false} FirstIsKept(specs: seq<RefreshSpec>, n: nat, i: nat) returns (k: nat)
    requires i < n <= |specs| && IsFirst(specs, i)
    ensures k < |FirstOfEach(specs, n)| && FirstOfEach(specs, n)[k] == specs[i]
  {
    if i < n - 1 {
      k := FirstIsKept(specs, n - 1, i);
    } else {
      k := |FirstOfEach(specs, n - 1)|;
    }
  }

  lemma AppendDistinct(before: seq<RefreshSpec>, s: RefreshSpec)
    requires DistinctNames(before) && forall i :: 0 <= i < |before| ==> before[i].name != s.name
    ensures DistinctNames(before + [s])
  {
  }

  /** No name is kept twice. */
  lemma {:induction false} FirstOfEachDistinct(specs: seq<RefreshSpec>, n: nat)
    requires n <= |specs|
    ensures DistinctNames(FirstOfEach(specs, n))
  {
    if 0 < n {
      FirstOfEachDistinct(specs, n - 1);
      if IsFirst(specs, n - 1) {
        var before := FirstOfEach(specs, n - 1);
        forall k | 0 <= k < |before| ensures before[k].name != specs[n - 1].name {
          var i := KeptIsFirst(specs, n - 1, k);
        }
        AppendDistinct(before, specs[n - 1]);
      }
    }
  }

  predicate DistinctNames(specs: seq<RefreshSpec>) {
    forall i, j :: 0 <= i < j < |specs| ==> specs[i].name != specs[j].name
  }

  // ------------------------------------------------------------- the running service

  const SIGNAL_CAPACITY: nat := 1024

  /** A generation put into the store: from a ticker, for a reload begun at clock `started`, or by the host. */
  datatype Gen = Gen(name: string, rows: Rows, task: Option<nat>, started: nat)

  /** Where a ticker stands: at its timer, in a reload, with rows to swap in, with a signal to send, or ended. */
  datatype Phase = Waiting | Reloading(started: nat) | Loaded(started: nat, rows: Rows) | Swapped(id: nat) | Gone

  /** A signal carries the table's name only; the stamp records which swap sent it. */
  datatype Signal = Signal(name: string, stamp: nat)

  datatype State = State(
    specs: seq<RefreshSpec>,
    phases: seq<Phase>,
    clock: nat,
    gens: seq<Gen>,
    store: map<string, nat>,
    channel: seq<Signal>,
    received: seq<Signal>,
    dropped: set<nat>,
    closed: bool,
    stopping: bool)

  datatype Action =
    | Tick(t: nat)
    | ReloadOk(t: nat, rows: Rows)
    | ReloadFail(t: nat)
    | Swap(t: nat)
    | Send(t: nat)
    | Abort(t: nat)
    | Receive
    | CloseReceiver
    | DropReceiver
    | Shutdown
    | HostInsert(name: string, rows: Rows)

  predicate TaskIn(s: State, t: nat) {
    t < |s.specs| && t < |s.phases|
  }

  /** A task is aborted only where it waits: at its timer or in its reload. */
  predicate Enabled(s: State, a: Action) {
    match a
    case Tick(t) => TaskIn(s, t) && s.phases[t].Waiting?
    case ReloadOk(t, _) => TaskIn(s, t) && s.phases[t].Reloading?
    case ReloadFail(t) => TaskIn(s, t) && s.phases[t].Reloading?
    case Swap(t) => TaskIn(s, t) && s.phases[t].Loaded?
    case Send(t) => TaskIn(s, t) && s.phases[t].Swapped?
    case Abort(t) => TaskIn(s, t) && s.stopping && (s.phases[t].Waiting? || s.phases[t].Reloading?)
    case Receive => s.channel != []
    case CloseReceiver => true
    case DropReceiver => true
    case Shutdown => true
    case HostInsert(_, _) => true
  }

  function Insert(s: State, g: Gen): State {
    s.(gens := s.gens + [g], store := s.store[g.name := |s.gens|])
  }

  function Stamps(sigs: seq<Signal>): set<nat> {
    set k | 0 <= k < |sigs| :: sigs[k].stamp
  }

  /** A full channel drops the signal; a closed one also ends the task. */
  function SendSignal(s: State, t: nat): State
    requires TaskIn(s, t) && s.phases[t].Swapped?
  {
    var id := s.phases[t].id;
    if s.closed then s.(dropped := s.dropped + {id}, phases := s.phases[t := Gone])
    else if SIGNAL_CAPACITY <= |s.channel| then s.(dropped := s.dropped + {id}, phases := s.phases[t := Waiting])
    else s.(channel := s.channel + [Signal(s.specs[t].name, id)], phases := s.phases[t := Waiting])
  }

  function Effect(s: State, a: Action): State
    requires Enabled(s, a)
  {
    match a
    case Tick(t) => s.(clock := s.clock + 1, phases := s.phases[t := Reloading(s.clock)])
    case ReloadOk(t, rows) => s.(phases := s.phases[t := Loaded(s.phases[t].started, rows)])
    case ReloadFail(t) => s.(phases := s.phases[t := Waiting])
    case Swap(t) =>
      var reloaded := Gen(s.specs[t].name, s.phases[t].rows, Some(t), s.phases[t].started);
      Insert(s, reloaded).(phases := s.phases[t := Swapped(|s.gens|)])
    case Send(t) => SendSignal(s, t)
    case Abort(t) => s.(phases := s.phases[t := Gone])
    case Receive => s.(channel := s.channel[1..], received := s.received + [s.channel[0]])
    case CloseReceiver => s.(closed := true)
    case DropReceiver => s.(closed := true, channel := [], dropped := s.dropped + Stamps(s.channel))
    case Shutdown => s.(stopping := true)
    case HostInsert(name, rows) => Insert(s, Gen(name, rows, None, 0))
  }

  predicate Legal(s: State, acts: seq<Action>)
    decreases |acts|
  {
    acts == [] || (Enabled(s, acts[0]) && Legal(Effect(s, acts[0]), acts[1..]))
  }

  function After(s: State, acts: seq<Action>): State
    requires Legal(s, acts)
    decreases |acts|
  {
    if acts == [] then s else After(Effect(s, acts[0]), acts[1..])
  }

  /** A service just started: a spec without an interval ends at once, the others wait for their timer. */
  function Started(specs: seq<RefreshSpec>): State {
    State(specs, seq(|specs|, i requires 0 <= i < |specs| => if specs[i].interval == 0 then Gone else Waiting),
          0, [], map[], [], [], {}, false, false)
  }

  // ------------------------------------------------------------ the store as an object

  /** The store object holds, under every name, the generation the steps say. */
  ghost predicate Mirrors(store: TableStore, s: State)
    reads store
  {
    && (forall n :: n in store.current <==> n in s.store)
    && (forall n :: n in s.store ==> s.store[n] < |s.gens|)
    && (forall n :: n in store.current ==>
          store.current[n].name == n && store.current[n].rows == s.gens[s.store[n]].rows)
  }

  /** What a ticker does once its reload has succeeded: build the generation, then replace the entry. */
  method SwapIn(store: TableStore, ghost s: State, t: nat, name: string, rows: Rows)
    requires store.Valid() && Mirrors(store, s)
    requires Enabled(s, Swap(t)) && s.specs[t].name == name && s.phases[t].rows == rows
    modifies store
    ensures store.Valid() && Mirrors(store, Effect(s, Swap(t)))
    ensures name in store.current && fresh(store.current[name])
    ensures forall n :: n in old(store.current) && n != name ==>
              n in store.current && store.current[n] == old(store.current[n])
  {
    var data := new TableData(name, rows);
    store.Insert(data);
  }

  /** What the host does, before the service starts or while it runs. */
  method Seed(store: TableStore, ghost s: State, name: string, rows: Rows)
    requires store.Valid() && Mirrors(store, s)
    modifies store
    ensures store.Valid() && Mirrors(store, Effect(s, HostInsert(name, rows)))
  {
    var data := new TableData(name, rows);
    store.Insert(data);
  }

  /** No other step touches the store object. */
  lemma OthersLeaveStore(store: TableStore, s: State, a: Action)
    requires Mirrors(store, s) && Enabled(s, a) && !a.Swap? && !a.HostInsert?
    ensures Mirrors(store, Effect(s, a))
  {
  }

  // ---------------------------------------------------------------------- invariant

  /** Each table's entry is the last generation inserted under its name. */
  predicate StoreIsLatest(gens: seq<Gen>, store: map<string, nat>) {
    && (forall n :: n in store ==> store[n] < |gens| && gens[store[n]].name == n)
    && (forall g :: 0 <= g < |gens| ==> gens[g].name in store && g <= store[gens[g].name])
  }

  predicate TaskFits(s: State, t: nat)
    requires TaskIn(s, t)
  {
    (s.specs[t].interval == 0 ==> s.phases[t].Gone?) &&
    match s.phases[t]
    case Swapped(id) => id < |s.gens| && s.gens[id].task == Some(t) && s.gens[id].name == s.specs[t].name
    case Reloading(started) => started < s.clock
    case Loaded(started, _) => started < s.clock
    case _ => true
  }

  predicate Genuine(gens: seq<Gen>, sig: Signal) {
    sig.stamp < |gens| && gens[sig.stamp].name == sig.name && gens[sig.stamp].task.Some?
  }

  predicate SignalsGenuine(gens: seq<Gen>, sigs: seq<Signal>) {
    forall k :: 0 <= k < |sigs| ==> Genuine(gens, sigs[k])
  }

  /** A generation a ticker swapped in carries the table of its spec. */
  predicate GenFits(s: State, g: Gen) {
    g.task.Some? ==>
      && TaskIn(s, g.task.value)
      && g.name == s.specs[g.task.value].name
      && s.specs[g.task.value].interval != 0
      && g.started < s.clock
  }

  predicate GensFit(s: State) {
    forall g :: 0 <= g < |s.gens| ==> GenFits(s, s.gens[g])
  }

  predicate TasksFit(s: State) {
    && |s.phases| == |s.specs|
    && (forall t :: 0 <= t < |s.specs| ==> TaskFits(s, t))
  }

  predicate SignalsFit(s: State) {
    SignalsGenuine(s.gens, s.channel) && SignalsGenuine(s.gens, s.received) && |s.channel| <= SIGNAL_CAPACITY
  }

  predicate Inv(s: State) {
    StoreIsLatest(s.gens, s.store) && TasksFit(s) && GensFit(s) && SignalsFit(s)
  }

  lemma InsertKeepsLatest(s: State, g: Gen)
    requires StoreIsLatest(s.gens, s.store)
    ensures StoreIsLatest(Insert(s, g).gens, Insert(s, g).store)
  {
  }

  /** What no step does: it never takes generations back, nor time. */
  lemma StepGrows(s: State, a: Action)
    requires Enabled(s, a)
    ensures var s' := Effect(s, a);
            && s'.specs == s.specs && s.clock <= s'.clock
            && |s.gens| <= |s'.gens| && s'.gens[..|s.gens|] == s.gens
  {
  }

  lemma StepKeepsTasks(s: State, a: Action)
    requires Inv(s) && Enabled(s, a)
    ensures TasksFit(Effect(s, a))
  {
    var s' := Effect(s, a);
    StepGrows(s, a);
    forall t | 0 <= t < |s.specs| ensures TaskFits(s', t) {
      assert TaskFits(s, t);
      if s.phases[t].Swapped? {
        assert s'.gens[..|s.gens|][s.phases[t].id] == s.gens[s.phases[t].id];
      }
    }
  }

  lemma StepKeepsGens(s: State, a: Action)
    requires Inv(s) && Enabled(s, a)
    ensures GensFit(Effect(s, a))
  {
    var s' := Effect(s, a);
    StepGrows(s, a);
    forall g | 0 <= g < |s'.gens| ensures GenFits(s', s'.gens[g]) {
      if g < |s.gens| {
        assert s'.gens[..|s.gens|][g] == s.gens[g];
        assert GenFits(s, s.gens[g]);
      } else if a.Swap? {
        assert TaskFits(s, a.t);
      }
    }
  }

  lemma GenuineStays(gens: seq<Gen>, gens': seq<Gen>, sigs: seq<Signal>)
    requires SignalsGenuine(gens, sigs) && |gens| <= |gens'| && gens'[..|gens|] == gens
    ensures SignalsGenuine(gens', sigs)
  {
    forall k | 0 <= k < |sigs| ensures Genuine(gens', sigs[k]) {
      assert Genuine(gens, sigs[k]);
      assert gens'[..|gens|][sigs[k].stamp] == gens[sigs[k].stamp];
    }
  }

  lemma StepKeepsSignals(s: State, a: Action)
    requires Inv(s) && Enabled(s, a)
    ensures SignalsFit(Effect(s, a))
  {
    var s' := Effect(s, a);
    StepGrows(s, a);
    GenuineStays(s.gens, s'.gens, s.channel);
    GenuineStays(s.gens, s'.gens, s.received);
    if a.Send? {
      assert TaskFits(s, a.t);
      assert Genuine(s.gens, Signal(s.specs[a.t].name, s.phases[a.t].id));
    } else if a.Receive? {
      assert Genuine(s.gens, s.channel[0]);
    }
  }

  lemma StepKeepsInv(s: State, a: Action)
    requires Inv(s) && Enabled(s, a)
    ensures Inv(Effect(s, a))
  {
    StepKeepsTasks(s, a);
    StepKeepsGens(s, a);
    StepKeepsSignals(s, a);
    if a.Swap? {
      InsertKeepsLatest(s, Gen(s.specs[a.t].name, s.phases[a.t].rows, Some(a.t), s.phases[a.t].started));
    } else if a.HostInsert? {
      InsertKeepsLatest(s, Gen(a.name, a.rows, None, 0));
    }
  }

  lemma {:induction false} RunKeepsInv(s: State, acts: seq<Action>)
    requires Inv(s) && Legal(s, acts)
    ensures Inv(After(s, acts)) && After(s, acts).specs == s.specs
    decreases |acts|
  {
    if acts != [] {
      StepKeepsInv(s, acts[0]);
      RunKeepsInv(Effect(s, acts[0]), acts[1..]);
    }
  }

  lemma StartedFits(specs: seq<RefreshSpec>)
    ensures Inv(Started(specs))
  {
  }

  // ----------------------------------------------------------------- what runs keep

  /** Generations only accumulate: whoever holds an old one sees it unchanged. */
  lemma {:induction false} HeldGenerationsStay(s: State, acts: seq<Action>)
    requires Legal(s, acts)
    ensures var gens := After(s, acts).gens; |s.gens| <= |gens| && gens[..|s.gens|] == s.gens
    decreases |acts|
  {
    if acts != [] {
      var s1 := Effect(s, acts[0]);
      StepGrows(s, acts[0]);
      HeldGenerationsStay(s1, acts[1..]);
      var gens := After(s, acts).gens;
      assert gens[..|s.gens|] == gens[..|s1.gens|][..|s.gens|];
    }
  }

  /** Whoever received a signal finds a snapshot at least as new as the swap that sent it. */
  lemma SignalsImplySnapshots(specs: seq<RefreshSpec>, acts: seq<Action>, k: nat)
    requires Legal(Started(specs), acts)
    requires k < |After(Started(specs), acts).received|
    ensures var s := After(Started(specs), acts);
            var sig := s.received[k];
            && sig.name in s.store && sig.stamp <= s.store[sig.name]
            && s.store[sig.name] < |s.gens| && s.gens[s.store[sig.name]].name == sig.name
    ensures |After(Started(specs), acts).channel| <= SIGNAL_CAPACITY
  {
    StartedFits(specs);
    RunKeepsInv(Started(specs), acts);
    var s := After(Started(specs), acts);
    assert Genuine(s.gens, s.received[k]);
  }

  // ----------------------------------------------------- the store does not go back

  predicate LiveDistinct(specs: seq<RefreshSpec>) {
    forall i, j :: 0 <= i < j < |specs| && specs[i].interval != 0 && specs[j].interval != 0 ==>
      specs[i].name != specs[j].name
  }

  /** Of two reloads of a table, the one swapped in later began later. */
  predicate InOrder(gens: seq<Gen>) {
    forall i, j :: 0 <= i < j < |gens| && Rivals(gens[i], gens[j]) ==> gens[i].started < gens[j].started
  }

  predicate Rivals(a: Gen, b: Gen) {
    a.task.Some? && b.task.Some? && a.name == b.name
  }

  /** Everything a task swapped in began before the reload it is in. */
  predicate BeganBefore(gens: seq<Gen>, t: nat, started: nat) {
    forall g :: 0 <= g < |gens| && gens[g].task == Some(t) ==> gens[g].started < started
  }

  predicate ReloadIsNew(s: State, t: nat)
    requires TaskIn(s, t)
  {
    match s.phases[t]
    case Reloading(started) => BeganBefore(s.gens, t, started)
    case Loaded(started, _) => BeganBefore(s.gens, t, started)
    case _ => true
  }

  predicate Orderly(s: State) {
    && Inv(s) && InOrder(s.gens)
    && forall t :: 0 <= t < |s.specs| ==> ReloadIsNew(s, t)
  }

  lemma StepKeepsReloads(s: State, a: Action, t: nat)
    requires Orderly(s) && Enabled(s, a) && t < |s.specs|
    ensures ReloadIsNew(Effect(s, a), t)
  {
    assert ReloadIsNew(s, t);
    if a.Tick? && a.t == t {
      forall g | 0 <= g < |s.gens| && s.gens[g].task == Some(t) ensures s.gens[g].started < s.clock {
        assert GenFits(s, s.gens[g]);
      }
    } else if a.Swap? && a.t == t {
    } else {
      ReloadStaysNew(s, a, t);
    }
  }

  /** What other steps do not change: the task's own reload and what it swapped in. */
  lemma ReloadStaysNew(s: State, a: Action, t: nat)
    requires Enabled(s, a) && t < |s.specs| && |s.phases| == |s.specs| && ReloadIsNew(s, t)
    requires !(a.Tick? && a.t == t) && !(a.Swap? && a.t == t)
    ensures ReloadIsNew(Effect(s, a), t)
  {
    var s' := Effect(s, a);
    assert forall g :: 0 <= g < |s'.gens| && s'.gens[g].task == Some(t) ==> g < |s.gens| && s'.gens[g] == s.gens[g];
  }

  lemma SwapIsInOrder(s: State, t: nat)
    requires Orderly(s) && LiveDistinct(s.specs) && Enabled(s, Swap(t))
    ensures InOrder(Effect(s, Swap(t)).gens)
  {
    var gens := Effect(s, Swap(t)).gens;
    var n := |s.gens|;
    assert ReloadIsNew(s, t) && TaskFits(s, t);
    forall i, j | 0 <= i < j < |gens| && Rivals(gens[i], gens[j]) ensures gens[i].started < gens[j].started {
      assert GenFits(s, gens[i]);
      if j < n {
        assert Rivals(s.gens[i], s.gens[j]);
      } else {
        var u := gens[i].task.value;
        assert u == t;
      }
    }
  }

  lemma {:induction false} RunIsOrderly(s: State, acts: seq<Action>)
    requires Orderly(s) && LiveDistinct(s.specs) && Legal(s, acts)
    ensures Orderly(After(s, acts))
    decreases |acts|
  {
    if acts != [] {
      var a := acts[0];
      var s1 := Effect(s, a);
      StepKeepsInv(s, a);
      forall t | 0 <= t < |s.specs| ensures ReloadIsNew(s1, t) {
        StepKeepsReloads(s, a, t);
      }
      if a.Swap? {
        SwapIsInOrder(s, a.t);
      } else {
        OthersKeepOrder(s, a);
      }
      RunIsOrderly(s1, acts[1..]);
    }
  }

  lemma OthersKeepOrder(s: State, a: Action)
    requires InOrder(s.gens) && Enabled(s, a) && !a.Swap?
    ensures InOrder(Effect(s, a).gens)
  {
  }

  ghost predicate NeverGoesBack(specs: seq<RefreshSpec>) {
    forall acts :: Legal(Started(specs), acts) ==> InOrder(After(Started(specs), acts).gens)
  }

  /** Two tickers of one table: the slower reload, begun first, overwrites the newer one. */
  function Overtaking(i: nat, j: nat): seq<Action> {
    [Tick(i), Tick(j), ReloadOk(j, []), Swap(j), ReloadOk(i, []), Swap(i)]
  }

  lemma OvertakingGoesBack(specs: seq<RefreshSpec>, i: nat, j: nat)
    requires i < j < |specs| && specs[i].interval != 0 && specs[j].interval != 0 && specs[i].name == specs[j].name
    ensures Legal(Started(specs), Overtaking(i, j))
    ensures !InOrder(After(Started(specs), Overtaking(i, j)).gens)
  {
    var s0 := Started(specs);
    var acts := Overtaking(i, j);
    var s1 := Effect(s0, Tick(i));
    var s2 := Effect(s1, Tick(j));
    var s3 := Effect(s2, ReloadOk(j, []));
    var s4 := Effect(s3, Swap(j));
    var s5 := Effect(s4, ReloadOk(i, []));
    var s6 := Effect(s5, Swap(i));
    RunOne(s5, acts[5..]);
    RunOne(s4, acts[4..]);
    RunOne(s3, acts[3..]);
    RunOne(s2, acts[2..]);
    RunOne(s1, acts[1..]);
    RunOne(s0, acts);
    assert acts[6..] == [];
    assert Rivals(s6.gens[0], s6.gens[1]);
  }

  lemma RunOne(s: State, acts: seq<Action>)
    requires acts != [] && Enabled(s, acts[0])
    ensures Legal(s, acts) <==> Legal(Effect(s, acts[0]), acts[1..])
    ensures Legal(s, acts) ==> After(s, acts) == After(Effect(s, acts[0]), acts[1..])
  {
  }

  /**
   The store never replaces a reload by one begun earlier, whatever the interleaving, exactly when no
   two live tickers share a table.
   */
  lemma NeverGoesBackIff(specs: seq<RefreshSpec>)
    ensures NeverGoesBack(specs) <==> LiveDistinct(specs)
  {
    if LiveDistinct(specs) {
      forall acts | Legal(Started(specs), acts) ensures InOrder(After(Started(specs), acts).gens) {
        StartedFits(specs);
        RunIsOrderly(Started(specs), acts);
      }
    } else {
      var i, j :| 0 <= i < j < |specs| && specs[i].interval != 0 && specs[j].interval != 0
          && specs[i].name == specs[j].name;
      OvertakingGoesBack(specs, i, j);
    }
  }

  /**
   The service as it is started: a table's current generation is the host's, or the last swapped-in reload
   of the first spec of that name; it began after every other reload of the table that was swapped in.
   */
  lemma CurrentIsLastReload(specs: seq<RefreshSpec>, acts: seq<Action>, name: string)
    requires Legal(Started(FirstOfEach(specs, |specs|)), acts)
    requires name in After(Started(FirstOfEach(specs, |specs|)), acts).store
    ensures var s := After(Started(FirstOfEach(specs, |specs|)), acts);
            var cur := s.store[name];
            && cur < |s.gens| && s.gens[cur].name == name
            && (s.gens[cur].task.Some? ==>
                  && TaskIn(s, s.gens[cur].task.value)
                  && FirstNamed(specs, name, s.specs[s.gens[cur].task.value])
                  && forall g :: 0 <= g < cur && Rivals(s.gens[g], s.gens[cur]) ==>
                       s.gens[g].started < s.gens[cur].started)
            && forall g :: cur < g < |s.gens| ==> s.gens[g].name != name
  {
    var kept := FirstOfEach(specs, |specs|);
    FirstOfEachDistinct(specs, |specs|);
    StartedFits(kept);
    RunIsOrderly(Started(kept), acts);
    RunKeepsInv(Started(kept), acts);
    var s := After(Started(kept), acts);
    var g := s.gens[s.store[name]];
    assert GenFits(s, g);
    if g.task.Some? {
      var i := KeptIsFirst(specs, |specs|, g.task.value);
    }
  }

  // ------------------------------------------------------------ only signals are lost

  predicate Carried(sigs: seq<Signal>, id: nat) {
    exists k :: 0 <= k < |sigs| && sigs[k].stamp == id
  }

  predicate AboutToSend(s: State, id: nat) {
    exists t :: 0 <= t < |s.phases| && s.phases[t] == Swapped(id)
  }

  /** A swap's signal was received, waits in the channel, was dropped, or is about to be sent. */
  predicate Accounted(s: State, id: nat) {
    Carried(s.received, id) || Carried(s.channel, id) || id in s.dropped || AboutToSend(s, id)
  }

  predicate AllAccounted(s: State) {
    forall g :: 0 <= g < |s.gens| && s.gens[g].task.Some? ==> Accounted(s, g)
  }

  lemma CarriedMore(sigs: seq<Signal>, sig: Signal, id: nat)
    ensures Carried(sigs + [sig], id) <==> Carried(sigs, id) || sig.stamp == id
  {
    if Carried(sigs, id) {
      var k :| 0 <= k < |sigs| && sigs[k].stamp == id;
      assert (sigs + [sig])[k].stamp == id;
    }
    if sig.stamp == id {
      assert (sigs + [sig])[|sigs|].stamp == id;
    }
  }

  lemma CarriedLess(sigs: seq<Signal>, id: nat)
    requires sigs != [] && Carried(sigs, id)
    ensures Carried(sigs[1..], id) || sigs[0].stamp == id
  {
    var k :| 0 <= k < |sigs| && sigs[k].stamp == id;
    if 0 < k {
      assert sigs[1..][k - 1].stamp == id;
    }
  }

  lemma StillAboutToSend(s: State, a: Action, id: nat)
    requires Enabled(s, a) && |s.phases| == |s.specs| && AboutToSend(s, id)
    ensures AboutToSend(Effect(s, a), id) || (a.Send? && s.phases[a.t] == Swapped(id))
  {
    var t :| 0 <= t < |s.phases| && s.phases[t] == Swapped(id);
    if !(a.Send? && a.t == t) {
      assert Effect(s, a).phases[t] == Swapped(id);
    }
  }

  lemma StepAccounts(s: State, a: Action, id: nat)
    requires Enabled(s, a) && |s.phases| == |s.specs| && Accounted(s, id)
    ensures Accounted(Effect(s, a), id)
  {
    if AboutToSend(s, id) {
      StillAboutToSend(s, a, id);
    }
    if a.Send? {
      CarriedMore(s.channel, Signal(s.specs[a.t].name, s.phases[a.t].id), id);
    } else if a.Receive? {
      CarriedMore(s.received, s.channel[0], id);
      if Carried(s.channel, id) {
        CarriedLess(s.channel, id);
      }
    }
  }

  lemma {:induction false} OnlySignalsAreLost(s: State, acts: seq<Action>)
    requires Legal(s, acts) && |s.phases| == |s.specs| && AllAccounted(s)
    ensures AllAccounted(After(s, acts))
    decreases |acts|
  {
    if acts != [] {
      var s1 := Effect(s, acts[0]);
      forall g | 0 <= g < |s1.gens| && s1.gens[g].task.Some? ensures Accounted(s1, g) {
        if g < |s.gens| {
          assert s1.gens[g] == s.gens[g];
          StepAccounts(s, acts[0], g);
        } else {
          assert s1.phases[acts[0].t] == Swapped(g);
        }
      }
      OnlySignalsAreLost(s1, acts[1..]);
    }
  }

  /** What was received and what waits in the channel, in the order in which it was sent. */
  function Sent(s: State): seq<Signal> {
    s.received + s.channel
  }

  predicate StampsOnce(s: State) {
    && (forall i, j :: 0 <= i < j < |Sent(s)| ==> Sent(s)[i].stamp != Sent(s)[j].stamp)
    && (forall k :: 0 <= k < |Sent(s)| ==> Sent(s)[k].stamp !in s.dropped && Sent(s)[k].stamp < |s.gens|)
    && (forall id :: id in s.dropped ==> id < |s.gens|)
  }

  predicate HeldBack(s: State, t: nat)
    requires t < |s.phases|
  {
    s.phases[t].Swapped? ==>
      && s.phases[t].id !in s.dropped && s.phases[t].id < |s.gens|
      && (forall k :: 0 <= k < |Sent(s)| ==> Sent(s)[k].stamp != s.phases[t].id)
      && (forall u :: 0 <= u < |s.phases| && s.phases[u] == s.phases[t] ==> u == t)
  }

  /** No swap's signal is in two places, or twice in one. */
  predicate Once(s: State) {
    StampsOnce(s) && forall t :: 0 <= t < |s.phases| ==> HeldBack(s, t)
  }

  lemma ReceiveMovesNothing(s: State)
    requires s.channel != []
    ensures Sent(s) == s.received + [s.channel[0]] + s.channel[1..]
  {
    assert s.channel == [s.channel[0]] + s.channel[1..];
  }

  lemma SendOnce(s: State, t: nat)
    requires Once(s) && |s.phases| == |s.specs| && Enabled(s, Send(t))
    ensures Once(SendSignal(s, t))
  {
    var s', id := SendSignal(s, t), s.phases[t].id;
    assert HeldBack(s, t);
    assert Sent(s') == Sent(s) || Sent(s') == Sent(s) + [Signal(s.specs[t].name, id)];
    forall u | 0 <= u < |s'.phases| ensures HeldBack(s', u) {
      assert HeldBack(s, u);
    }
  }

  lemma SwapOnce(s: State, t: nat)
    requires Once(s) && |s.phases| == |s.specs| && Enabled(s, Swap(t))
    ensures Once(Effect(s, Swap(t)))
  {
    var s' := Effect(s, Swap(t));
    assert Sent(s') == Sent(s);
    forall v | 0 <= v < |s.phases| ensures s.phases[v] != Swapped(|s.gens|) {
      assert HeldBack(s, v);
    }
    forall u | 0 <= u < |s'.phases| ensures HeldBack(s', u) {
      assert HeldBack(s, u);
    }
  }

  lemma DropOnce(s: State)
    requires Once(s)
    ensures Once(Effect(s, DropReceiver))
  {
    var s' := Effect(s, DropReceiver);
    assert forall k :: 0 <= k < |s.received| ==> Sent(s)[k] == s.received[k];
    assert forall k :: 0 <= k < |s.channel| ==> Sent(s)[|s.received| + k] == s.channel[k];
    assert Sent(s') == s.received;
    forall u | 0 <= u < |s'.phases| ensures HeldBack(s', u) {
      assert HeldBack(s, u);
    }
  }

  lemma StepKeepsOnce(s: State, a: Action)
    requires Once(s) && |s.phases| == |s.specs| && Enabled(s, a)
    ensures Once(Effect(s, a))
  {
    if a.Send? {
      SendOnce(s, a.t);
    } else if a.Swap? {
      SwapOnce(s, a.t);
    } else if a.DropReceiver? {
      DropOnce(s);
    } else {
      var s' := Effect(s, a);
      if a.Receive? {
        ReceiveMovesNothing(s);
      }
      assert Sent(s') == Sent(s);
      forall u | 0 <= u < |s'.phases| ensures HeldBack(s', u) {
        assert HeldBack(s, u);
      }
    }
  }

  lemma {:induction false} RunKeepsOnce(s: State, acts: seq<Action>)
    requires Once(s) && |s.phases| == |s.specs| && Legal(s, acts)
    ensures Once(After(s, acts))
    decreases |acts|
  {
    if acts != [] {
      StepKeepsOnce(s, acts[0]);
      RunKeepsOnce(Effect(s, acts[0]), acts[1..]);
    }
  }

  /**
   In every run of the service each swap's signal is in exactly one place: received, waiting, dropped
   or about to be sent.
   */
  lemma EachSignalInOnePlace(specs: seq<RefreshSpec>, acts: seq<Action>)
    requires Legal(Started(specs), acts)
    ensures AllAccounted(After(Started(specs), acts)) && Once(After(Started(specs), acts))
  {
    OnlySignalsAreLost(Started(specs), acts);
    RunKeepsOnce(Started(specs), acts);
  }

  /** The action drops the signal: as a send that meets a full or closed channel, or with the receiver. */
  predicate DropsAt(s: State, a: Action, id: nat) {
    || (a.Send? && TaskIn(s, a.t) && s.phases[a.t] == Swapped(id) && (s.closed || SIGNAL_CAPACITY <= |s.channel|))
    || (a.DropReceiver? && Carried(s.channel, id))
  }

  /**
   Every signal that was dropped was dropped by its sender when the channel was full or closed, or waited in
   the channel when its receiver went.
   */
  lemma {:induction false} DroppedForAReason(s: State, acts: seq<Action>, id: nat) returns (k: nat)
    requires Legal(s, acts) && id in After(s, acts).dropped && id !in s.dropped
    ensures k < |acts| && Legal(s, acts[..k]) && DropsAt(After(s, acts[..k]), acts[k], id)
    decreases |acts|
  {
    var s1 := Effect(s, acts[0]);
    if id in s1.dropped {
      k := 0;
      assert acts[..0] == [];
    } else {
      var j := DroppedForAReason(s1, acts[1..], id);
      k := j + 1;
      assert acts[..k][0] == acts[0] && acts[..k][1..] == acts[1..][..j];
      RunOne(s, acts[..k]);
    }
  }

  // -------------------------------------------------- failed reloads and stopped tasks

  predicate ReloadsTable(s: State, a: Action, name: string) {
    (a.ReloadOk? && TaskIn(s, a.t) && s.specs[a.t].name == name) || (a.HostInsert? && a.name == name)
  }

  predicate NothingLoaded(s: State, name: string) {
    forall t :: 0 <= t < |s.phases| && TaskIn(s, t) && s.specs[t].name == name ==> !s.phases[t].Loaded?
  }

  lemma QuietStep(s: State, a: Action, name: string)
    requires Enabled(s, a) && NothingLoaded(s, name) && !ReloadsTable(s, a, name)
    ensures var s' := Effect(s, a);
            && NothingLoaded(s', name) && s'.specs == s.specs
            && (name in s'.store <==> name in s.store)
            && (name in s.store ==> s'.store[name] == s.store[name])
  {
  }

  /**
   As long as no reload of a table succeeds and the host leaves it alone, its generation stays: failed
   reloads change nothing.
   */
  lemma {:induction false} FailedReloadsChangeNothing(s: State, acts: seq<Action>, name: string)
    requires Legal(s, acts) && NothingLoaded(s, name)
    requires forall k :: 0 <= k < |acts| ==> !ReloadsTable(s, acts[k], name)
    ensures var s' := After(s, acts);
            && (name in s'.store <==> name in s.store)
            && (name in s.store ==> s'.store[name] == s.store[name])
    decreases |acts|
  {
    if acts != [] {
      var s1 := Effect(s, acts[0]);
      assert !ReloadsTable(s, acts[0], name);
      QuietStep(s, acts[0], name);
      forall k | 0 <= k < |acts[1..]| ensures !ReloadsTable(s1, acts[1..][k], name) {
        assert acts[1..][k] == acts[k + 1];
        assert !ReloadsTable(s, acts[k + 1], name);
      }
      FailedReloadsChangeNothing(s1, acts[1..], name);
    }
  }

  predicate AllGone(s: State) {
    forall t :: 0 <= t < |s.phases| ==> s.phases[t].Gone?
  }

  lemma QuietSignals(s: State, a: Action)
    requires Enabled(s, a) && AllGone(s)
    ensures var s1 := Effect(s, a);
            Sent(s1) <= Sent(s) && forall k :: |Sent(s1)| <= k < |Sent(s)| ==> Sent(s)[k].stamp in s1.dropped
  {
    if a.Receive? {
      ReceiveMovesNothing(s);
    }
  }

  lemma {:induction false} DroppedGrows(s: State, acts: seq<Action>)
    requires Legal(s, acts)
    ensures s.dropped <= After(s, acts).dropped
    decreases |acts|
  {
    if acts != [] {
      DroppedGrows(Effect(s, acts[0]), acts[1..]);
    }
  }

  /**
   Once every task has ended, only the host changes the store, and no further signal is sent: what was sent
   stays as it was, but for what is lost with the receiver.
   */
  lemma {:induction false} StoppedServiceIsQuiet(s: State, acts: seq<Action>)
    requires Legal(s, acts) && AllGone(s)
    ensures var s' := After(s, acts);
            && AllGone(s') && |s.gens| <= |s'.gens|
            && (forall g :: |s.gens| <= g < |s'.gens| ==> s'.gens[g].task.None?)
            && Sent(s') <= Sent(s)
            && (forall k :: |Sent(s')| <= k < |Sent(s)| ==> Sent(s)[k].stamp in s'.dropped)
    decreases |acts|
  {
    if acts != [] {
      var s1 := Effect(s, acts[0]);
      StoppedServiceIsQuiet(s1, acts[1..]);
      StepGrows(s, acts[0]);
      HeldGenerationsStay(s1, acts[1..]);
      QuietSignals(s, acts[0]);
      DroppedGrows(s1, acts[1..]);
      forall g | |s.gens| <= g < |s1.gens| ensures After(s, acts).gens[g].task.None? {
        assert After(s, acts).gens[..|s1.gens|][g] == s1.gens[g];
      }
    }
  }
}
