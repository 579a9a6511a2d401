/** Evaluating VEL code. */
module VelEval {
  // Evaluating VEL code (src/vel.rs, `eval`, `render`): literals pass through, a phase function
  // labels the slot of its period the clock stands in. The arithmetic is on 64 bits and saturates.

  import opened Arithmetic
  import opened Common
  import opened Numerals
  import opened TextSearch
  import opened VelTemplate
  import opened VelParse
  import opened VelProofs
  import opened VelRoundTrip

  /** Seconds as nanoseconds, saturating. */
  function Nanos(seconds: nat): nat {
    if seconds * 1_000_000_000 <= U64_MAX then seconds * 1_000_000_000 else U64_MAX
  }

  /** A second is a thousand million nanoseconds, and the count stops at the largest word. */
  lemma NanosCount(seconds: nat)
    ensures Nanos(seconds) == U64_MAX <==> U64_MAX <= seconds * 1_000_000_000
    ensures Nanos(seconds) != U64_MAX ==> Nanos(seconds) == seconds * 1_000_000_000
  {
  }

  function SatMul(a: nat, b: nat): nat {
    if a * b <= U64_MAX then a * b else U64_MAX
  }

  function SatAdd(a: nat, b: nat): nat {
    if a + b <= U64_MAX then a + b else U64_MAX
  }

  function SatSub(a: nat, b: nat): nat {
    if b <= a then a - b else 0
  }

  /** The clock moved by a number of buckets, forwards or back. */
  function Moved(now: nat, offset: int, bucket: nat): nat {
    if 0 <= offset then SatAdd(now, SatMul(offset, bucket)) else SatSub(now, SatMul(-offset, bucket))
  }

  predicate ValidPhase(period: nat, bucket: nat) {
    0 < bucket <= period
  }

  /** The slot of the period in which the clock, moved by `offset` buckets, stands; all in nanoseconds. */
  function Slot(now: nat, period: nat, bucket: nat, offset: int): nat
    requires ValidPhase(period, bucket)
  {
    (Moved(now, offset, bucket) % period) / bucket
  }

  /** The slot holds the clock: its bounds are whole buckets from the start of the period. */
  lemma SlotHoldsClock(now: nat, period: nat, bucket: nat, offset: int, k: nat)
    requires ValidPhase(period, bucket)
    ensures Slot(now, period, bucket, offset) == k <==>
              k * bucket <= Moved(now, offset, bucket) % period < k * bucket + bucket
  {
    var m := Moved(now, offset, bucket) % period;
    if k * bucket <= m < k * bucket + bucket {
      DivIs(m, bucket, k, m - k * bucket);
    }
  }

  // ------------------------------------------------------------------- the slots

  /** How many slots a period has; the last may be a partial one. */
  function SlotCount(period: nat, bucket: nat): nat
    requires ValidPhase(period, bucket)
  {
    (period + bucket - 1) / bucket
  }

  lemma CeilingCovers(period: nat, bucket: nat)
    requires ValidPhase(period, bucket)
    ensures period <= SlotCount(period, bucket) * bucket < period + bucket
  {
  }

  /** Every slot index lies below the number of slots, saturated or not. */
  lemma SlotBelowCount(now: nat, period: nat, bucket: nat, offset: int)
    requires ValidPhase(period, bucket)
    ensures Slot(now, period, bucket, offset) < SlotCount(period, bucket)
  {
    CeilingCovers(period, bucket);
    DivBelow(Moved(now, offset, bucket) % period, bucket, SlotCount(period, bucket));
  }

  lemma ModPeriod(t: nat, period: nat, k: nat)
    requires 0 < period
    ensures (t + k * period) % period == t % period
  {
    var q := t / period;
    assert t + k * period == (q + k) * period + t % period by {
      assert (q + k) * period == q * period + k * period;
    }
    DivIs(t + k * period, period, q + k, t % period);
  }

  /** Whole periods later the slot is the same, as long as the clock does not saturate. */
  lemma SlotIsPeriodic(now: nat, period: nat, bucket: nat, offset: nat, k: nat)
    requires ValidPhase(period, bucket) && offset <= 1
    requires now + k * period + offset * bucket <= U64_MAX
    ensures Slot(now + k * period, period, bucket, offset) == Slot(now, period, bucket, offset)
  {
    assert offset * bucket <= U64_MAX;
    ModPeriod(now + offset * bucket, period, k);
  }

  /** The next slot is the slot one bucket later; past the end of the clock it is the clock's last slot. */
  lemma NextIsOneBucketLater(now: nat, period: nat, bucket: nat)
    requires ValidPhase(period, bucket) && bucket <= U64_MAX
    ensures Slot(now, period, bucket, 1) == Slot(SatAdd(now, bucket), period, bucket, 0)
  {
    assert SatMul(1, bucket) == bucket && SatMul(0, bucket) == 0;
  }

  lemma ModAfter(now: nat, period: nat, bucket: nat)
    requires ValidPhase(period, bucket)
    ensures (now + bucket) % period ==
              if now % period + bucket < period then now % period + bucket else now % period + bucket - period
  {
    var q, m := now / period, now % period;
    if m + bucket < period {
      DivIs(now + bucket, period, q, m + bucket);
    } else {
      Distribute(q, 1, period);
      DivIs(now + bucket, period, q + 1, m + bucket - period);
    }
  }

  lemma DivAfter(m: nat, bucket: nat)
    requires 0 < bucket
    ensures (m + bucket) / bucket == m / bucket + 1
  {
    Distribute(m / bucket, 1, bucket);
    DivIs(m + bucket, bucket, m / bucket + 1, m % bucket);
  }

  lemma NextSlot(now: nat, period: nat, bucket: nat)
    requires ValidPhase(period, bucket) && now + bucket <= U64_MAX
    ensures Slot(now, period, bucket, 0) == (now % period) / bucket
    ensures Slot(now, period, bucket, 1) == ((now + bucket) % period) / bucket
  {
    assert SatMul(1, bucket) == bucket && SatMul(0, bucket) == 0;
  }

  /** The next slot is the following one, or the first when less than a bucket of the period is left. */
  lemma NextStepsOrWraps(now: nat, period: nat, bucket: nat)
    requires ValidPhase(period, bucket) && now + bucket <= U64_MAX
    ensures var cur, next := Slot(now, period, bucket, 0), Slot(now, period, bucket, 1);
            next == if now % period + bucket < period then cur + 1 else 0
  {
    NextSlot(now, period, bucket);
    ModAfter(now, period, bucket);
    var m := now % period;
    if m + bucket < period {
      DivAfter(m, bucket);
    } else {
      DivIs(m + bucket - period, bucket, 0, m + bucket - period);
    }
  }

  /** The promise that the next slot is `(cur + 1) mod N` at every moment. */
  ghost predicate NextIsModular(period: nat, bucket: nat)
    requires ValidPhase(period, bucket)
  {
    forall now: nat :: now + bucket <= U64_MAX ==> ModularAt(now, period, bucket)
  }

  predicate ModularAt(now: nat, period: nat, bucket: nat)
    requires ValidPhase(period, bucket)
  {
    Slot(now, period, bucket, 1) == (Slot(now, period, bucket, 0) + 1) % SlotCount(period, bucket)
  }

  lemma WholeSlots(period: nat, bucket: nat)
    requires ValidPhase(period, bucket) && period % bucket == 0
    ensures SlotCount(period, bucket) == period / bucket
    ensures period == (period / bucket) * bucket
  {
    DivIs(period + bucket - 1, bucket, period / bucket, bucket - 1);
  }

  /** Within `n` whole slots, a bucket is left exactly when a slot is. */
  lemma SlotsLeft(m: nat, n: nat, bucket: nat)
    requires 0 < bucket && m < n * bucket
    ensures m + bucket < n * bucket <==> m / bucket + 1 < n
  {
    var cur := m / bucket;
    Distribute(cur, 1, bucket);
    Distribute(cur, 2, bucket);
    if cur + 1 < n {
      MulAtMost(cur + 2, n, bucket);
    } else {
      MulAtMost(n, cur + 1, bucket);
    }
  }

  lemma ModularWhenWhole(now: nat, period: nat, bucket: nat)
    requires ValidPhase(period, bucket) && period % bucket == 0 && now + bucket <= U64_MAX
    ensures ModularAt(now, period, bucket)
  {
    NextStepsOrWraps(now, period, bucket);
    NextSlot(now, period, bucket);
    WholeSlots(period, bucket);
    StepOfWhole(now % period, period / bucket, period, bucket);
  }

  lemma StepOfWhole(m: nat, n: nat, period: nat, bucket: nat)
    requires 0 < bucket && period == n * bucket && m < period
    ensures 0 < n && (m / bucket + 1) % n == if m + bucket < period then m / bucket + 1 else 0
  {
    SlotsLeft(m, n, bucket);
    DivBelow(m, bucket, n);
    StepModulo(m / bucket, n);
  }

  lemma StepModulo(cur: nat, n: nat)
    requires cur < n
    ensures (cur + 1) % n == if cur + 1 < n then cur + 1 else 0
  {
  }

  /** The slots of a period whose last slot is partial. */
  lemma PartialSlot(period: nat, bucket: nat)
    requires ValidPhase(period, bucket) && period % bucket != 0
    ensures 1 <= period / bucket
    ensures SlotCount(period, bucket) == period / bucket + 1
    ensures (period - bucket) / bucket == period / bucket - 1
  {
    var n, r := period / bucket, period % bucket;
    Distribute(n, 1, bucket);
    DivIs(period + bucket - 1, bucket, n + 1, r - 1);
    DivAfter(period - bucket, bucket);
  }

  /** With a partial last slot the clock, one bucket before the period's end, skips that slot. */
  lemma PartialSlotIsSkipped(period: nat, bucket: nat)
    requires ValidPhase(period, bucket) && period % bucket != 0 && period <= U64_MAX
    ensures !ModularAt(period - bucket, period, bucket)
  {
    var now := period - bucket;
    PartialSlot(period, bucket);
    DivIs(now, period, 0, now);
    NextStepsOrWraps(now, period, bucket);
    NextSlot(now, period, bucket);
    StepModulo(period / bucket - 1, SlotCount(period, bucket));
  }

  /** The next slot is `(cur + 1) mod N` at every moment exactly when the bucket divides the period. */
  lemma NextIsModularIff(period: nat, bucket: nat)
    requires ValidPhase(period, bucket) && period <= U64_MAX
    ensures NextIsModular(period, bucket) <==> period % bucket == 0
  {
    if period % bucket == 0 {
      forall now: nat | now + bucket <= U64_MAX ensures ModularAt(now, period, bucket) {
        ModularWhenWhole(now, period, bucket);
      }
    } else {
      PartialSlotIsSkipped(period, bucket);
    }
  }

  // ------------------------------------------------------------------ evaluation

  datatype VelError = BadCode(error: LineError) | BadPhase(name: string)

  predicate Computable(d: VarDef) {
    d.PhaseBucket? ==> ValidPhase(Nanos(d.periodS), Nanos(d.bucketS))
  }

  /** What a definition stands for at a moment. */
  function ValueAt(d: VarDef, now: nat): string
    requires Computable(d)
  {
    match d
    case Literal(_, value) => value
    case PhaseBucket(_, period, bucket, offset, prefix) =>
      prefix + Decimal(Slot(now, Nanos(period), Nanos(bucket), offset))
  }

  lemma QuarterMinuteNow(now: nat, slot: nat)
    requires slot * 15_000_000_000 <= now < slot * 15_000_000_000 + 15_000_000_000 && slot < 16
    ensures Slot(now, 240_000_000_000, 15_000_000_000, 0) == slot
  {
    DivIs(now, 240_000_000_000, 0, now);
    assert Moved(now, 0, 15_000_000_000) == now;
    SlotHoldsClock(now, 240_000_000_000, 15_000_000_000, 0, slot);
  }

  lemma QuarterMinuteNext(now: nat, slot: nat)
    requires slot * 15_000_000_000 <= now < slot * 15_000_000_000 + 15_000_000_000 && slot < 16
    ensures Slot(now, 240_000_000_000, 15_000_000_000, 1) == if slot == 15 then 0 else slot + 1
  {
    var later := now + 15_000_000_000;
    assert Moved(now, 1, 15_000_000_000) == later;
    if slot == 15 {
      DivIs(later, 240_000_000_000, 1, later - 240_000_000_000);
      SlotHoldsClock(now, 240_000_000_000, 15_000_000_000, 1, 0);
    } else {
      DivIs(later, 240_000_000_000, 0, later);
      SlotHoldsClock(now, 240_000_000_000, 15_000_000_000, 1, slot + 1);
    }
  }

  /** Four minutes in quarter minutes: the slot a moment is in, and the one that `phase_next` names. */
  lemma QuarterMinute(now: nat, slot: nat)
    requires slot * 15_000_000_000 <= now < slot * 15_000_000_000 + 15_000_000_000 && slot < 16
    ensures var d, e := PhaseBucket("now", 240, 15, 0, "p"), PhaseBucket("next", 240, 15, 1, "p");
            && Computable(d) && ValueAt(d, now) == "p" + Decimal(slot)
            && Computable(e) && ValueAt(e, now) == "p" + Decimal(if slot == 15 then 0 else slot + 1)
  {
    QuarterMinuteNow(now, slot);
    QuarterMinuteNext(now, slot);
    assert Nanos(240) == 240_000_000_000 && Nanos(15) == 15_000_000_000;
  }

  /** A minute after the start the clock is in the fifth quarter minute. */
  lemma AfterOneMinute(defs: seq<VarDef>)
    requires defs == [PhaseBucket("now", 240, 15, 0, "p"), PhaseBucket("next", 240, 15, 1, "p")]
    ensures EvaluatedDefs(defs, 60_000_000_000) == Ok([("now", "p4"), ("next", "p5")])
  {
    QuarterMinute(60_000_000_000, 4);
    assert FirstBad(defs, 2) == 2 && FirstBad(defs, 1) == 2 && FirstBad(defs, 0) == 2;
    assert Decimal(4) == "4" && Decimal(5) == "5" && "p" + "4" == "p4" && "p" + "5" == "p5";
    assert PairsAt(defs, 60_000_000_000) == [("now", "p4"), ("next", "p5")];
  }

  function PairsAt(defs: seq<VarDef>, now: nat): (r: seq<(string, string)>)
    requires forall k :: 0 <= k < |defs| ==> Computable(defs[k])
    ensures |r| == |defs|
    ensures forall k :: 0 <= k < |defs| ==> r[k] == (defs[k].name, ValueAt(defs[k], now))
  {
    seq(|defs|, k requires 0 <= k < |defs| => (defs[k].name, ValueAt(defs[k], now)))
  }

  /** The first definition from `i` on whose phase cannot be computed. */
  function FirstBad(defs: seq<VarDef>, i: nat): (r: nat)
    requires i <= |defs|
    requires forall k :: 0 <= k < i ==> Computable(defs[k])
    ensures i <= r <= |defs|
    ensures forall k :: 0 <= k < r ==> Computable(defs[k])
    ensures r < |defs| ==> !Computable(defs[r])
    decreases |defs| - i
  {
    if i < |defs| && Computable(defs[i]) then FirstBad(defs, i + 1) else i
  }

  function EvaluatedDefs(defs: seq<VarDef>, now: nat): Result<seq<(string, string)>, VelError> {
    var bad := FirstBad(defs, 0);
    if bad < |defs| then Err(BadPhase(defs[bad].name)) else Ok(PairsAt(defs, now))
  }

  /** The values one after the other, as the loop computes them. */
  function EvaluatedFrom(defs: seq<VarDef>, i: nat, now: nat): Result<seq<(string, string)>, VelError>
    requires i <= |defs|
    decreases |defs| - i
  {
    if i == |defs| then Ok([])
    else if Computable(defs[i]) then PrependPair((defs[i].name, ValueAt(defs[i], now)), EvaluatedFrom(defs, i + 1, now))
    else Err(BadPhase(defs[i].name))
  }

  function PrependPair(p: (string, string), r: Result<seq<(string, string)>, VelError>)
    : Result<seq<(string, string)>, VelError>
  {
    match r
    case Err(e) => Err(e)
    case Ok(pairs) => Ok([p] + pairs)
  }

  lemma {:induction false} EvaluatedInOrder(defs: seq<VarDef>, i: nat, now: nat)
    requires i <= |defs| && forall k :: 0 <= k < i ==> Computable(defs[k])
    ensures var bad := FirstBad(defs, i);
            EvaluatedFrom(defs, i, now) ==
              if bad < |defs| then Err(BadPhase(defs[bad].name)) else Ok(PairsAt(defs, now)[i..])
    decreases |defs| - i
  {
    if i < |defs| {
      if Computable(defs[i]) {
        EvaluatedInOrder(defs, i + 1, now);
        if FirstBad(defs, i) == |defs| {
          PairsTail(PairsAt(defs, now), i);
        }
      }
    } else {
      assert PairsAt(defs, now)[i..] == [];
    }
  }

  lemma EvaluatedAll(defs: seq<VarDef>, now: nat)
    ensures EvaluatedFrom(defs, 0, now) == EvaluatedDefs(defs, now)
  {
    EvaluatedInOrder(defs, 0, now);
    if FirstBad(defs, 0) == |defs| {
      assert PairsAt(defs, now)[0..] == PairsAt(defs, now);
    }
  }

  lemma PairsTail(pairs: seq<(string, string)>, i: nat)
    requires i < |pairs|
    ensures [pairs[i]] + pairs[i + 1..] == pairs[i..]
  {
  }

  function Evaluated(code: string, now: nat): Result<seq<(string, string)>, VelError> {
    match Parsed(code)
    case Err(e) => Err(BadCode(e))
    case Ok(defs) => EvaluatedDefs(defs, now)
  }

  method MovedClock(now: nat, offset: int, bucket: nat) returns (t: nat)
    ensures t == Moved(now, offset, bucket)
  {
    if 0 <= offset {
      t := SatAdd(now, SatMul(offset, bucket));
    } else {
      t := SatSub(now, SatMul(-offset, bucket));
    }
  }

  /** The phase arm of the loop's body. */
  method PhaseLabel(d: VarDef, period: nat, bucket: nat, now: nat) returns (text: Option<string>)
    requires d.PhaseBucket?
    ensures text.Some? <==> ValidPhase(period, bucket)
    ensures text.Some? ==> text.value == d.prefix + Decimal(Slot(now, period, bucket, d.offsetSlots))
  {
    if period == 0 || bucket == 0 || bucket > period {
      return None;
    }
    var t := MovedClock(now, d.offsetSlots, bucket);
    var idx := (t % period) / bucket;
    return Some(d.prefix + Decimal(idx));
  }

  /** One turn of the evaluation loop: what it computes stands first among the values from `i` on. */
  method EvalDef(defs: seq<VarDef>, i: nat, now: nat) returns (r: Result<(string, string), VelError>)
    requires i < |defs|
    ensures EvaluatedFrom(defs, i, now) ==
              match r
              case Err(e) => Err(e)
              case Ok(p) => PrependPair(p, EvaluatedFrom(defs, i + 1, now))
  {
    var d := defs[i];
    if d.Literal? {
      return Ok((d.name, d.value));
    }
    var text := PhaseLabel(d, Nanos(d.periodS), Nanos(d.bucketS), now);
    if text.None? {
      return Err(BadPhase(d.name));
    }
    return Ok((d.name, text.value));
  }

  function PrependPairs(out: seq<(string, string)>, r: Result<seq<(string, string)>, VelError>)
    : Result<seq<(string, string)>, VelError>
  {
    match r
    case Err(e) => Err(e)
    case Ok(pairs) => Ok(out + pairs)
  }

  lemma PrependOneMore(out: seq<(string, string)>, p: (string, string), r: Result<seq<(string, string)>, VelError>)
    ensures PrependPairs(out, PrependPair(p, r)) == PrependPairs(out + [p], r)
  {
    if r.Ok? {
      assert out + ([p] + r.value) == out + [p] + r.value;
    }
  }

  method EvalDefs(defs: seq<VarDef>, now: nat) returns (r: Result<seq<(string, string)>, VelError>)
    ensures r == EvaluatedFrom(defs, 0, now)
  {
    var out: seq<(string, string)> := [];
    ghost var whole := EvaluatedFrom(defs, 0, now);
    assert whole.Ok? ==> [] + whole.value == whole.value;
    for i := 0 to |defs|
      invariant whole == PrependPairs(out, EvaluatedFrom(defs, i, now))
    {
      var pair := EvalDef(defs, i, now);
      if pair.Err? {
        return Err(pair.error);
      }
      PrependOneMore(out, pair.value, EvaluatedFrom(defs, i + 1, now));
      out := out + [pair.value];
    }
    assert out + [] == out;
    r := Ok(out);
  }

  method Eval(code: string, now: nat) returns (r: Result<seq<(string, string)>, VelError>)
    ensures r == Evaluated(code, now)
  {
    var parsed := Parse(code);
    if parsed.Err? {
      return Err(BadCode(parsed.error));
    }
    r := EvalDefs(parsed.value, now);
    EvaluatedAll(parsed.value, now);
  }

  // ------------------------------------------------------------------- rendering

  function Rendered(sql: string, code: string, now: nat): Result<string, VelError> {
    match Evaluated(code, now)
    case Err(e) => Err(e)
    case Ok(vars) => Ok(Substituted(Tokens(sql), Bindings(vars)))
  }

  lemma WhiteIsBlank(s: string)
    requires White(s)
    ensures Trim(s) == ""
  {
  }

  predicate AllBlank(lines: seq<string>) {
    forall k :: 0 <= k < |lines| ==> Trim(lines[k]) == ""
  }

  lemma WhiteSlice(s: string, i: nat, e: nat)
    requires i <= e <= |s| && White(s)
    ensures Trim(s[i..e]) == ""
  {
    WhiteIsBlank(s[i..e]);
  }

  lemma BlankMore(line: string, lines: seq<string>)
    requires Trim(line) == "" && AllBlank(lines)
    ensures AllBlank([line] + lines)
  {
  }

  lemma {:induction false} WhiteLines(s: string, i: nat)
    requires i <= |s| && White(s)
    ensures AllBlank(LinesFrom(s, i))
    decreases |s| - i
  {
    if i < |s| {
      var e := Find(s, '\n', i);
      if e == |s| {
        WhiteSlice(s, i, e);
        assert s[i..e] == s[i..];
      } else {
        var end := if i < e && s[e - 1] == '\r' then e - 1 else e;
        WhiteSlice(s, i, end);
        WhiteLines(s, e + 1);
        BlankMore(s[i..end], LinesFrom(s, e + 1));
      }
    }
  }

  lemma {:induction false} BlankLines(lines: seq<string>, i: nat)
    requires i <= |lines| && AllBlank(lines)
    ensures ParseFrom(lines, i, {}) == Ok([])
    decreases |lines| - i
  {
    if i < |lines| {
      BlankLines(lines, i + 1);
    }
  }

  /** Code of white space alone defines nothing, so it leaves the statement alone. */
  lemma WhiteCodeChangesNothing(sql: string, code: string, now: nat)
    requires Trim(code) == ""
    ensures Rendered(sql, code, now) == Ok(sql)
  {
    AllWhite(code);
    WhiteLines(code, 0);
    BlankLines(LinesFrom(code, 0), 0);
    assert PairsAt([], now) == [];
    OwnNamesChangeNothing(sql, map[]);
  }

  method Render(sql: string, code: string, now: nat) returns (r: Result<string, VelError>)
    ensures r == Rendered(sql, code, now)
  {
    if Trim(code) == "" {
      WhiteCodeChangesNothing(sql, code, now);
      return Ok(sql);
    }
    var vars := Eval(code, now);
    if vars.Err? {
      return Err(vars.error);
    }
    var out := ResolveVars(sql, vars.value);
    r := Ok(out);
  }

  predicate Assigns(vars: seq<(string, string)>, n: string) {
    exists k :: 0 <= k < |vars| && vars[k].0 == n
  }

  /** When the names differ, the collected bindings are the pairs. */
  lemma {:induction false} BindingsOf(vars: seq<(string, string)>)
    requires forall i, j :: 0 <= i < j < |vars| ==> vars[i].0 != vars[j].0
    ensures forall k :: 0 <= k < |vars| ==> vars[k].0 in Bindings(vars) && Bindings(vars)[vars[k].0] == vars[k].1
    ensures forall n :: n in Bindings(vars) ==> Assigns(vars, n)
  {
    if vars != [] {
      var init := vars[..|vars| - 1];
      BindingsOf(init);
      forall n | n in Bindings(vars) ensures Assigns(vars, n) {
        if n == vars[|vars| - 1].0 {
        } else {
          assert Assigns(init, n);
          var k :| 0 <= k < |init| && init[k].0 == n;
          assert vars[k].0 == n;
        }
      }
    }
  }

  /** The values a printed program gives its variables. */
  predicate BoundAt(defs: seq<VarDef>, now: nat, bound: map<string, string>) {
    && (forall k :: 0 <= k < |defs| ==>
          Computable(defs[k]) && defs[k].name in bound && bound[defs[k].name] == ValueAt(defs[k], now))
    && (forall n :: n in bound ==> exists k :: 0 <= k < |defs| && defs[k].name == n)
  }

  /**
   Printing definitions, parsing, evaluating and substituting: every reference to a defined variable
   becomes its value, everything else stays; it fails exactly when some phase cannot be computed.
   */
  lemma RenderOfPrinted(sql: string, defs: seq<VarDef>, now: nat)
    requires AllPrintable(defs) && DistinctNames(defs)
    ensures Rendered(sql, Print(defs), now).Ok? <==> forall k :: 0 <= k < |defs| ==> Computable(defs[k])
    ensures Rendered(sql, Print(defs), now).Ok? ==>
              exists bound :: BoundAt(defs, now, bound)
                && Rendered(sql, Print(defs), now) == Ok(Substituted(Tokens(sql), bound))
  {
    ParseInvertsPrint(defs);
    if FirstBad(defs, 0) == |defs| {
      var vars := PairsAt(defs, now);
      BindingsOf(vars);
      var bound := Bindings(vars);
      forall n | n in bound ensures exists k :: 0 <= k < |defs| && defs[k].name == n {
        assert Assigns(vars, n);
        var k :| 0 <= k < |vars| && vars[k].0 == n;
        assert defs[k].name == n;
      }
      assert BoundAt(defs, now, bound);
    }
  }

  // ----------------------------------------------------------------- periodicity

  /** A shift of the clock by whole periods of the definition, with room left for one bucket more. */
  predicate WholePeriods(d: VarDef, now: nat, shift: nat) {
    d.PhaseBucket? && Computable(d) ==>
      && shift % Nanos(d.periodS) == 0
      && now + shift + Nanos(d.bucketS) <= U64_MAX
  }

  lemma ValueIsPeriodic(d: VarDef, now: nat, shift: nat)
    requires Printable(d) && Computable(d) && WholePeriods(d, now, shift)
    ensures ValueAt(d, now + shift) == ValueAt(d, now)
  {
    if d.PhaseBucket? {
      var period, bucket := Nanos(d.periodS), Nanos(d.bucketS);
      var k := shift / period;
      assert shift == k * period;
      SlotIsPeriodic(now, period, bucket, d.offsetSlots, k);
    }
  }

  /** Whole periods of every phase later, the code renders every statement the same. */
  lemma RenderIsPeriodic(sql: string, code: string, now: nat, shift: nat)
    requires Parsed(code).Ok? ==>
               forall k :: 0 <= k < |Parsed(code).value| ==> WholePeriods(Parsed(code).value[k], now, shift)
    ensures Rendered(sql, code, now + shift) == Rendered(sql, code, now)
  {
    if Parsed(code).Ok? {
      var defs := Parsed(code).value;
      ParseReturnsExactlyThePrintable(defs);
      if FirstBad(defs, 0) == |defs| {
        forall k | 0 <= k < |defs| ensures ValueAt(defs[k], now + shift) == ValueAt(defs[k], now) {
          ValueIsPeriodic(defs[k], now, shift);
        }
        assert PairsAt(defs, now + shift) == PairsAt(defs, now);
      }
    }
  }
}
