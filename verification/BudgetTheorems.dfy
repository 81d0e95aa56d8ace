/** What holds of every run: shadow work is invisible, mode and depth come back, nothing
    charged is lost, going over a limit is final, and batching changes nothing. */
module BudgetTheorems {
  import opened Wrappers
  import opened Arithmetic
  import opened BudgetModel

  // ---------- shadow mode ----------

  /** All but the shadow totals. */
  predicate SameOutsideShadow(a: Budget, b: Budget) {
    b == a.(cpu := a.cpu.(shadowTotal := b.cpu.shadowTotal), mem := a.mem.(shadowTotal := b.mem.shadowTotal))
  }

  /** A run without its shadow blocks. */
  function Erase(ops: seq<Op>): seq<Op> {
    if ops == [] then []
    else
      match ops[0]
      case Charged(_, _, _) => [ops[0]] + Erase(ops[1..])
      case InShadow(_) => Erase(ops[1..])
      case AtDepth(body) => [AtDepth(Erase(body))] + Erase(ops[1..])
      case Handled(body) => [Handled(Erase(body))] + Erase(ops[1..])
  }

  /** Whatever runs, and however it fails, mode and depth limit are as before. */
  lemma {:induction false} ModeAndDepthRestored(b: Budget, ops: seq<Op>)
    requires WellFormed(b)
    ensures Run(b, ops).0.shadow == b.shadow && Run(b, ops).0.depth == b.depth
    decreases ops
  {
    if ops != [] {
      StepRestores(b, ops[0]);
      if Step(b, ops[0]).1.Done? { ModeAndDepthRestored(Step(b, ops[0]).0, ops[1..]); }
    }
  }

  lemma {:induction false} StepRestores(b: Budget, op: Op)
    requires WellFormed(b)
    ensures Step(b, op).0.shadow == b.shadow && Step(b, op).0.depth == b.depth
    decreases op
  {
    match op
    case Charged(_, _, _) =>
    case InShadow(body) => ModeAndDepthRestored(b.(shadow := true), body);
    case AtDepth(body) => if b.depth > 0 { ModeAndDepthRestored(Enter(b).0, body); }
    case Handled(body) => ModeAndDepthRestored(b, body);
  }

  /** Work in shadow mode changes the shadow totals and nothing else. */
  lemma {:induction false} ShadowWorkIsConfined(b: Budget, ops: seq<Op>)
    requires WellFormed(b) && b.shadow
    ensures SameOutsideShadow(b, Run(b, ops).0)
    decreases ops
  {
    if ops != [] {
      ShadowStepIsConfined(b, ops[0]);
      if Step(b, ops[0]).1.Done? { ShadowWorkIsConfined(Step(b, ops[0]).0, ops[1..]); }
    }
  }

  lemma {:induction false} ShadowStepIsConfined(b: Budget, op: Op)
    requires WellFormed(b) && b.shadow
    ensures SameOutsideShadow(b, Step(b, op).0)
    decreases op
  {
    match op
    case Charged(_, _, _) =>
    case InShadow(body) => ShadowWorkIsConfined(b, body);
    case AtDepth(body) =>
      if b.depth > 0 {
        ShadowWorkIsConfined(Enter(b).0, body);
      }
    case Handled(body) => ShadowWorkIsConfined(b, body);
  }

  lemma ChargeIgnoresShadow(a: Budget, b: Budget, ty: nat, iterations: u64, input: Option<u64>)
    requires WellFormed(a) && WellFormed(b) && !a.shadow && SameOutsideShadow(a, b)
    ensures SameOutsideShadow(Charge(a, ty, iterations, input).0, Charge(b, ty, iterations, input).0)
    ensures Charge(a, ty, iterations, input).1 == Charge(b, ty, iterations, input).1
  {
    hide SatMul, Evaluate;
  }

  /** Leaving out every shadow block changes no outcome, no counter, no tracker and no limit,
      even for a run that fails. */
  lemma {:induction false} ShadowBlocksAreInvisible(a: Budget, b: Budget, ops: seq<Op>)
    requires WellFormed(a) && WellFormed(b) && !a.shadow && SameOutsideShadow(a, b)
    ensures SameOutsideShadow(Run(a, ops).0, Run(b, Erase(ops)).0)
    ensures Run(a, ops).1 == Run(b, Erase(ops)).1
    decreases ops
  {
    if ops != [] {
      var op := ops[0];
      StepRestores(a, op);
      var a1 := Step(a, op).0;
      if op.InShadow? {
        ShadowWorkIsConfined(a.(shadow := true), op.body);
        ShadowBlocksAreInvisible(a1, b, ops[1..]);
      } else {
        var op' := Erase(ops)[0];
        assert Erase(ops)[1..] == Erase(ops[1..]);
        StepIgnoresShadow(a, b, op, op');
        if Step(a, op).1.Done? { ShadowBlocksAreInvisible(a1, Step(b, op').0, ops[1..]); }
      }
    }
  }

  lemma {:induction false} StepIgnoresShadow(a: Budget, b: Budget, op: Op, op': Op)
    requires WellFormed(a) && WellFormed(b) && !a.shadow && SameOutsideShadow(a, b) && !op.InShadow?
    requires match op
             case AtDepth(body) => op' == AtDepth(Erase(body))
             case Handled(body) => op' == Handled(Erase(body))
             case _ => op' == op
    ensures SameOutsideShadow(Step(a, op).0, Step(b, op').0)
    ensures Step(a, op).1 == Step(b, op').1
    decreases op
  {
    match op
    case Charged(ty, iterations, input) => ChargeIgnoresShadow(a, b, ty, iterations, input);
    case AtDepth(body) =>
      if a.depth > 0 {
        ShadowBlocksAreInvisible(Enter(a).0, Enter(b).0, body);
      }
    case Handled(body) => ShadowBlocksAreInvisible(a, b, body);
  }

  // ---------- conservation ----------

  function SumCpu(ts: seq<CostTracker>): nat {
    if ts == [] then 0 else ts[0].cpu + SumCpu(ts[1..])
  }

  function SumMem(ts: seq<CostTracker>): nat {
    if ts == [] then 0 else ts[0].mem + SumMem(ts[1..])
  }

  lemma {:induction false} SumUpdate(ts: seq<CostTracker>, k: nat, t: CostTracker)
    requires k < |ts|
    ensures SumCpu(ts[k := t]) == SumCpu(ts) - ts[k].cpu + t.cpu
    ensures SumMem(ts[k := t]) == SumMem(ts) - ts[k].mem + t.mem
    decreases k
  {
    if k == 0 {
      assert ts[0 := t][1..] == ts[1..];
    } else {
      assert ts[k := t][1..] == ts[1..][k - 1 := t];
      SumUpdate(ts[1..], k - 1, t);
    }
  }

  lemma {:induction false} SumAtLeast(ts: seq<CostTracker>, k: nat)
    requires k < |ts|
    ensures SumCpu(ts) >= ts[k].cpu && SumMem(ts) >= ts[k].mem
    decreases k
  {
    if k > 0 { SumAtLeast(ts[1..], k - 1); }
  }

  /** The total of each dimension is what the cost types have used together, as far as 64 bits
      can say. */
  ghost predicate Conserved(b: Budget) {
    b.cpu.total == Capped(SumCpu(b.trackers)) && b.mem.total == Capped(SumMem(b.trackers))
  }

  lemma CountingConserves(b: Budget, ty: nat, iterations: u64, input: Option<u64>)
    requires WellFormed(b) && Conserved(b) && ty < COST_TYPES
    ensures Conserved(CountEvent(b, ty, iterations)) && Conserved(CountInput(b, ty, iterations, input))
  {
    SumUpdate(b.trackers, ty, CountEvent(b, ty, iterations).trackers[ty]);
    SumUpdate(b.trackers, ty, CountInput(b, ty, iterations, input).trackers[ty]);
  }

  lemma DimensionConserves(b: Budget, ty: nat, iterations: u64, input: Option<u64>)
    requires WellFormed(b) && Conserved(b) && ty < COST_TYPES
    ensures Conserved(ChargeCpu(b, ty, iterations, input)) && Conserved(ChargeMem(b, ty, iterations, input))
  {
    hide Amount;
    SumAtLeast(b.trackers, ty);
    SumUpdate(b.trackers, ty, ChargeCpu(b, ty, iterations, input).trackers[ty]);
    SumUpdate(b.trackers, ty, ChargeMem(b, ty, iterations, input).trackers[ty]);
  }

  lemma ChargeConserves(b: Budget, ty: nat, iterations: u64, input: Option<u64>)
    requires WellFormed(b) && Conserved(b)
    ensures Conserved(Charge(b, ty, iterations, input).0)
  {
    hide Conserved, CountEvent, CountInput, ChargeCpu, ChargeMem;
    if ty < COST_TYPES {
      var b1 := if b.shadow then b else CountEvent(b, ty, iterations);
      CountingConserves(b, ty, iterations, input);
      assert WellFormed(b1) by { CountingKeepsShape(b, ty, iterations, input); }
      CountingConserves(b1, ty, iterations, input);
      var b2 := if b.shadow then b else CountInput(b1, ty, iterations, input);
      assert WellFormed(b2) by { CountingKeepsShape(b1, ty, iterations, input); }
      DimensionConserves(b2, ty, iterations, input);
      var b3 := ChargeCpu(b2, ty, iterations, input);
      assert WellFormed(b3) by { DimensionKeepsShape(b2, ty, iterations, input); }
      DimensionConserves(b3, ty, iterations, input);
    }
  }

  lemma CountingKeepsShape(b: Budget, ty: nat, iterations: u64, input: Option<u64>)
    requires WellFormed(b) && ty < COST_TYPES
    ensures WellFormed(CountEvent(b, ty, iterations)) && WellFormed(CountInput(b, ty, iterations, input))
    ensures CountEvent(b, ty, iterations).shadow == CountInput(b, ty, iterations, input).shadow == b.shadow
  {
  }

  lemma DimensionKeepsShape(b: Budget, ty: nat, iterations: u64, input: Option<u64>)
    requires WellFormed(b) && ty < COST_TYPES
    ensures WellFormed(ChargeCpu(b, ty, iterations, input))
  {
  }

  /** Nothing charged is lost and nothing is counted twice, over any run, with saturation. */
  lemma {:induction false} RunConserves(b: Budget, ops: seq<Op>)
    requires WellFormed(b) && Conserved(b)
    ensures Conserved(Run(b, ops).0)
    decreases ops
  {
    if ops != [] {
      StepConserves(b, ops[0]);
      if Step(b, ops[0]).1.Done? { RunConserves(Step(b, ops[0]).0, ops[1..]); }
    }
  }

  lemma {:induction false} StepConserves(b: Budget, op: Op)
    requires WellFormed(b) && Conserved(b)
    ensures Conserved(Step(b, op).0)
    decreases op
  {
    match op
    case Charged(ty, iterations, input) => ChargeConserves(b, ty, iterations, input);
    case InShadow(body) => RunConserves(b.(shadow := true), body);
    case AtDepth(body) => if b.depth > 0 { RunConserves(Enter(b).0, body); }
    case Handled(body) => RunConserves(b, body);
  }

  lemma {:induction false} NothingUsed(ts: seq<CostTracker>)
    requires forall t :: t in ts ==> t.cpu == 0 && t.mem == 0
    ensures SumCpu(ts) == 0 && SumMem(ts) == 0
    decreases |ts|
  {
    if ts != [] { NothingUsed(ts[1..]); }
  }

  /** From a new budget on. */
  lemma EveryRunConserves(cpuModels: seq<CostModel>, cpuLimit: u64, memModels: seq<CostModel>, memLimit: u64, linear: set<nat>, ops: seq<Op>)
    requires NewBudget(cpuModels, cpuLimit, memModels, memLimit, linear).Some?
    ensures Conserved(Run(NewBudget(cpuModels, cpuLimit, memModels, memLimit, linear).value, ops).0)
  {
    var b := NewBudget(cpuModels, cpuLimit, memModels, memLimit, linear).value;
    NothingUsed(b.trackers);
    RunConserves(b, ops);
  }

  // ---------- limits ----------

  predicate Exhausted(b: Budget) {
    b.cpu.total > b.cpu.limit || b.mem.total > b.mem.limit
  }

  /** Once over a limit, always over it. */
  lemma {:induction false} ExhaustionIsFinal(b: Budget, ops: seq<Op>)
    requires WellFormed(b) && Exhausted(b)
    ensures Exhausted(Run(b, ops).0)
    decreases ops
  {
    if ops != [] {
      ExhaustionStep(b, ops[0]);
      if Step(b, ops[0]).1.Done? { ExhaustionIsFinal(Step(b, ops[0]).0, ops[1..]); }
    }
  }

  lemma {:induction false} ExhaustionStep(b: Budget, op: Op)
    requires WellFormed(b) && Exhausted(b)
    ensures Exhausted(Step(b, op).0)
    decreases op
  {
    hide Amount, SatMul, Evaluate;
    match op
    case Charged(_, _, _) =>
    case InShadow(body) => ExhaustionIsFinal(b.(shadow := true), body);
    case AtDepth(body) => if b.depth > 0 { ExhaustionIsFinal(Enter(b).0, body); }
    case Handled(body) => ExhaustionIsFinal(b, body);
  }

  /** A charge that is let through leaves both totals within their limits; one that is refused
      for a limit leaves the budget over it, so that every later charge of the run, whatever
      was caught in between, is refused as well. */
  lemma RefusalIsFinal(b: Budget, ty: nat, iterations: u64, input: Option<u64>, between: seq<Op>, ty': nat, iterations': u64, input': Option<u64>)
    requires WellFormed(b) && !b.shadow
    ensures Charge(b, ty, iterations, input).1.Done? ==> !Exhausted(Charge(b, ty, iterations, input).0)
    ensures Charge(b, ty, iterations, input).1 == Failed(LimitExceeded) ==>
              Step(Run(Charge(b, ty, iterations, input).0, between).0, Charged(ty', iterations', input')).1.Failed?
  {
    hide Amount, SatMul, Evaluate, Run;
    ChargeKeepsMode(b, ty, iterations, input);
    hide Charge;
    var (b1, r) := Charge(b, ty, iterations, input);
    if r == Failed(LimitExceeded) {
      ExhaustionIsFinal(b1, between);
      ModeAndDepthRestored(b1, between);
      ExhaustedRefuses(Run(b1, between).0, ty', iterations', input');
    }
  }

  lemma ChargeKeepsMode(b: Budget, ty: nat, iterations: u64, input: Option<u64>)
    requires WellFormed(b)
    ensures Charge(b, ty, iterations, input).0.shadow == b.shadow
    ensures !b.shadow && Charge(b, ty, iterations, input).1 == Failed(LimitExceeded) ==> Exhausted(Charge(b, ty, iterations, input).0)
    ensures !b.shadow && Charge(b, ty, iterations, input).1.Done? ==> !Exhausted(Charge(b, ty, iterations, input).0)
  {
    hide Amount, SatMul, Evaluate;
  }

  lemma ExhaustedRefuses(b: Budget, ty: nat, iterations: u64, input: Option<u64>)
    requires WellFormed(b) && !b.shadow && Exhausted(b)
    ensures Charge(b, ty, iterations, input).1.Failed?
  {
    hide Amount, SatMul, Evaluate;
  }

  // ---------- the cost model ----------

  /** The linear part is the scaled product rounded down; without saturation the cost is the
      exact linear cost to within one, and exact for a coefficient that was scaled up from a
      whole number. */
  lemma CostIsLinear(m: CostModel, x: u64)
    requires m.linTerm * x <= U64_MAX && m.constTerm + m.linTerm * x / LINEAR_SCALE <= U64_MAX
    ensures var linear := Evaluate(m, Some(x)) - Evaluate(m, None);
            && LINEAR_SCALE * linear <= m.linTerm * x < LINEAR_SCALE * (linear + 1)
            && (m.linTerm % LINEAR_SCALE == 0 ==> linear == m.linTerm / LINEAR_SCALE * x)
  {
    if m.linTerm == 0 {
      assert m.linTerm * x == 0;
    } else if m.linTerm % LINEAR_SCALE == 0 {
      var k := m.linTerm / LINEAR_SCALE;
      assert m.linTerm * x == LINEAR_SCALE * (k * x);
    }
  }

  /** A larger input never costs less, and an input never makes an event cheaper. */
  lemma CostGrows(m: CostModel, x: u64, y: u64)
    requires x <= y
    ensures Evaluate(m, None) <= Evaluate(m, Some(x)) <= Evaluate(m, Some(y))
  {
    assert m.linTerm * y - m.linTerm * x == m.linTerm * (y - x);
    assert m.linTerm * (y - x) >= 0;
  }

  // ---------- batching ----------

  /** `n` charges of one iteration each. */
  function Singles(b: Budget, ty: nat, n: nat, input: Option<u64>): (r: (Budget, Outcome))
    requires WellFormed(b)
    ensures WellFormed(r.0)
  {
    if n == 0 then (b, Done)
    else
      var (b1, r) := Singles(b, ty, n - 1, input);
      if r.Failed? then (b1, r) else Charge(b1, ty, 1, input)
  }

  predicate SameButMeterCount(a: Budget, b: Budget) {
    b == a.(meterCount := b.meterCount)
  }

  /** Adding a product one factor at a time saturates just like adding it at once. */
  lemma SaturateStepwise(total: nat, unit: u64, n: nat)
    ensures SatAdd(Capped(total + Capped(unit * n)), unit) == Capped(total + Capped(unit * (n + 1)))
  {
    assert unit * (n + 1) == unit * n + unit;
  }

  lemma AmountStepwise(total: u64, unit: u64, n: u64)
    requires n < U64_MAX
    ensures SatAdd(SatAdd(total, SatMul(unit, n)), SatMul(unit, 1)) == SatAdd(total, SatMul(unit, n + 1))
    ensures SatMul(unit, 1) == unit
  {
    SaturateStepwise(total, unit, n);
  }

  function TotalTracker(t: CostTracker, n: u64, input: Option<u64>, cpu: u64, mem: u64): CostTracker {
    var inputs := if t.inputs.Some? && input.Some? then Some(SatAdd(t.inputs.value, SatMul(input.value, n))) else t.inputs;
    CostTracker(SatAdd(t.iterations, n), inputs, SatAdd(t.cpu, cpu), SatAdd(t.mem, mem))
  }

  /** The charge of every counter, whatever the limits. */
  function Total(b: Budget, ty: nat, n: u64, input: Option<u64>): Budget
    requires WellFormed(b) && ty < COST_TYPES
  {
    var cpu, mem := Amount(b.cpu, ty, n, input), Amount(b.mem, ty, n, input);
    var b1 := b.(cpu := ChargeDimension(b.cpu, cpu, b.shadow), mem := ChargeDimension(b.mem, mem, b.shadow));
    if b.shadow then b1
    else
      b1.(meterCount := if b.meterCount < U32_MAX then b.meterCount + 1 else U32_MAX,
          trackers := b.trackers[ty := TotalTracker(b.trackers[ty], n, input, cpu, mem)])
  }

  predicate Accepts(b: Budget, ty: nat, n: u64, input: Option<u64>)
    requires WellFormed(b)
  {
    && ty < COST_TYPES && (b.shadow || b.trackers[ty].inputs.Some? == input.Some?)
    && !OverLimit(Total(b, ty, n, input).cpu, b.shadow) && !OverLimit(Total(b, ty, n, input).mem, b.shadow)
  }

  /** A charge goes through exactly when both totals stay within their limits, and then every
      counter has been charged. */
  lemma ChargeIsTotal(b: Budget, ty: nat, n: u64, input: Option<u64>)
    requires WellFormed(b)
    ensures Charge(b, ty, n, input).1.Done? <==> Accepts(b, ty, n, input)
    ensures Charge(b, ty, n, input).1.Done? ==> Charge(b, ty, n, input).0 == Total(b, ty, n, input)
  {
    hide Amount, SatMul;
  }

  lemma DimensionStepwise(d: Dimension, ty: nat, n: u64, input: Option<u64>, shadow: bool)
    requires ty < |d.models| && n < U64_MAX
    ensures var d1 := ChargeDimension(d, Amount(d, ty, n, input), shadow);
            && d1.models == d.models
            && Amount(d1, ty, 1, input) == Amount(d, ty, 1, input)
            && ChargeDimension(d1, Amount(d, ty, 1, input), shadow) == ChargeDimension(d, Amount(d, ty, n + 1, input), shadow)
            && (OverLimit(d1, shadow) ==> OverLimit(ChargeDimension(d, Amount(d, ty, n + 1, input), shadow), shadow))
  {
    hide Evaluate;
    AmountStepwise(if shadow then d.shadowTotal else d.total, Evaluate(d.models[ty], input), n);
    hide SatMul;
  }

  lemma TrackerStepwise(t: CostTracker, ty: nat, n: u64, input: Option<u64>, cpu: Dimension, mem: Dimension)
    requires ty < |cpu.models| && ty < |mem.models| && n < U64_MAX
    ensures var t1 := TotalTracker(t, n, input, Amount(cpu, ty, n, input), Amount(mem, ty, n, input));
            && t1.inputs.Some? == t.inputs.Some?
            && TotalTracker(t1, 1, input, Amount(cpu, ty, 1, input), Amount(mem, ty, 1, input))
                 == TotalTracker(t, n + 1, input, Amount(cpu, ty, n + 1, input), Amount(mem, ty, n + 1, input))
  {
    hide Evaluate;
    AmountStepwise(t.cpu, Evaluate(cpu.models[ty], input), n);
    AmountStepwise(t.mem, Evaluate(mem.models[ty], input), n);
    if input.Some? && t.inputs.Some? { AmountStepwise(t.inputs.value, input.value, n); }
    hide SatMul;
  }

  lemma TotalStepwise(b: Budget, ty: nat, n: u64, input: Option<u64>)
    requires WellFormed(b) && n < U64_MAX && ty < COST_TYPES
    ensures WellFormed(Total(b, ty, n, input)) && Total(b, ty, n, input).shadow == b.shadow
    ensures !b.shadow ==> Total(b, ty, n, input).trackers[ty].inputs.Some? == b.trackers[ty].inputs.Some?
    ensures SameButMeterCount(Total(b, ty, n + 1, input), Total(Total(b, ty, n, input), ty, 1, input))
    ensures OverLimit(Total(b, ty, n, input).cpu, b.shadow) ==> OverLimit(Total(b, ty, n + 1, input).cpu, b.shadow)
    ensures OverLimit(Total(b, ty, n, input).mem, b.shadow) ==> OverLimit(Total(b, ty, n + 1, input).mem, b.shadow)
  {
    hide ChargeDimension, Amount, OverLimit, TotalTracker;
    DimensionStepwise(b.cpu, ty, n, input, b.shadow);
    DimensionStepwise(b.mem, ty, n, input, b.shadow);
    TrackerStepwise(b.trackers[ty], ty, n, input, b.cpu, b.mem);
    if !b.shadow {
      var t, t', t2 := Total(b, ty, n, input), Total(b, ty, n + 1, input), Total(Total(b, ty, n, input), ty, 1, input);
      assert t2.trackers[ty] == t'.trackers[ty];
      assert t2.trackers == b.trackers[ty := t'.trackers[ty]];
    }
  }

  /** One more iteration, after a batch. */
  lemma BatchStep(b: Budget, ty: nat, n: u64, input: Option<u64>)
    requires WellFormed(b) && 1 <= n < U64_MAX
    ensures Charge(b, ty, n, input).1.Failed? ==> Charge(b, ty, n + 1, input).1.Failed?
    ensures Charge(b, ty, n, input).1.Done? ==>
              (Charge(Charge(b, ty, n, input).0, ty, 1, input).1.Done? <==> Charge(b, ty, n + 1, input).1.Done?)
    ensures Charge(b, ty, n, input).1.Done? && Charge(b, ty, n + 1, input).1.Done? ==>
              SameButMeterCount(Charge(b, ty, n + 1, input).0, Charge(Charge(b, ty, n, input).0, ty, 1, input).0)
  {
    hide SatMul, Amount, Charge, Total;
    ChargeIsTotal(b, ty, n, input);
    ChargeIsTotal(b, ty, n + 1, input);
    if ty < COST_TYPES {
      TotalStepwise(b, ty, n, input);
      ChargeIsTotal(Total(b, ty, n, input), ty, 1, input);
    }
  }

  lemma MeterCountIsInert(a: Budget, b: Budget, ty: nat, n: u64, input: Option<u64>)
    requires WellFormed(a) && WellFormed(b) && SameButMeterCount(a, b)
    ensures Charge(a, ty, n, input).1 == Charge(b, ty, n, input).1
    ensures SameButMeterCount(Charge(a, ty, n, input).0, Charge(b, ty, n, input).0)
  {
    hide Amount, SatMul, Evaluate;
  }

  /** A batch of n >= 1 iterations goes through exactly when n single charges do, in either
      mode, and then every counter but the number of charges is the same. */
  lemma {:induction false} BatchingIsExact(b: Budget, ty: nat, n: u64, input: Option<u64>)
    requires WellFormed(b) && n >= 1
    ensures Charge(b, ty, n, input).1.Done? <==> Singles(b, ty, n, input).1.Done?
    ensures Charge(b, ty, n, input).1.Done? ==> SameButMeterCount(Charge(b, ty, n, input).0, Singles(b, ty, n, input).0)
    decreases n
  {
    hide Charge;
    if n == 1 {
      assert Singles(b, ty, 0, input) == (b, Done);
    } else {
      BatchingIsExact(b, ty, n - 1, input);
      BatchStep(b, ty, n - 1, input);
      if Charge(b, ty, n - 1, input).1.Done? {
        MeterCountIsInert(Charge(b, ty, n - 1, input).0, Singles(b, ty, n - 1, input).0, ty, 1, input);
      }
    }
  }

  /** An empty batch still checks the limits, which no charges at all do not. */
  lemma EmptyBatch(b: Budget, ty: nat, input: Option<u64>)
    requires WellFormed(b) && ty < COST_TYPES && !b.shadow && b.trackers[ty].inputs.Some? == input.Some?
    ensures Charge(b, ty, 0, input).1.Done? <==> !Exhausted(b)
  {
  }

  // ---------- what a charge costs ----------

  /** So many events, each at the constant term and the scaled linear term, capped at 64 bits. */
  function CostOf(m: CostModel, iterations: u64, input: Option<u64>): nat {
    var linear := match input case None => 0 case Some(x) => Capped(m.linTerm * x) / 128;
    Capped(Capped(m.constTerm + linear) * iterations)
  }

  lemma AmountIsCost(d: Dimension, ty: nat, iterations: u64, input: Option<u64>)
    requires ty < |d.models|
    ensures Amount(d, ty, iterations, input) == CostOf(d.models[ty], iterations, input)
  {
    var m := d.models[ty];
    if m.linTerm == 0 && input.Some? { assert m.linTerm * input.value == 0; }
  }

  /** A charge in shadow mode: the shadow totals grow by the costs, the memory total only if the
      cpu limit is not exceeded, and nothing else changes. */
  lemma ShadowChargeExactly(b: Budget, ty: nat, n: u64, input: Option<u64>)
    requires WellFormed(b) && b.shadow && ty < COST_TYPES
    ensures var cpu := Capped(b.cpu.shadowTotal + CostOf(b.cpu.models[ty], n, input));
            var mem := Capped(b.mem.shadowTotal + CostOf(b.mem.models[ty], n, input));
            Charge(b, ty, n, input) ==
              if cpu > b.cpu.shadowLimit then (b.(cpu := b.cpu.(shadowTotal := cpu)), Failed(LimitExceeded))
              else (b.(cpu := b.cpu.(shadowTotal := cpu), mem := b.mem.(shadowTotal := mem)),
                    if mem > b.mem.shadowLimit then Failed(LimitExceeded) else Done)
  {
    AmountIsCost(b.cpu, ty, n, input);
    AmountIsCost(b.mem, ty, n, input);
    hide CostOf, Amount;
  }

  /** A charge outside of shadow mode: it is counted first, even if its input does not fit its
      type; then the cpu total and, if the cpu limit is not exceeded, the memory total grow by
      the costs of the model at the type, together with the tracker at the type. */
  lemma ChargeExactly(b: Budget, ty: nat, n: u64, input: Option<u64>)
    requires WellFormed(b) && !b.shadow && ty < COST_TYPES
    ensures var t := b.trackers[ty];
            var counted := t.(iterations := Capped(t.iterations + n));
            var used := if t.inputs.Some? && input.Some? then counted.(inputs := Some(Capped(t.inputs.value + Capped(input.value * n)))) else counted;
            var cpuCost, memCost := CostOf(b.cpu.models[ty], n, input), CostOf(b.mem.models[ty], n, input);
            var cpu, mem := Capped(b.cpu.total + cpuCost), Capped(b.mem.total + memCost);
            var usedCpu := used.(cpu := Capped(t.cpu + cpuCost));
            var b0 := b.(meterCount := if b.meterCount < U32_MAX then b.meterCount + 1 else U32_MAX);
            Charge(b, ty, n, input) ==
              if t.inputs.Some? != input.Some? then (b0.(trackers := b.trackers[ty := counted]), Failed(InternalError))
              else if cpu > b.cpu.limit then
                (b0.(cpu := b.cpu.(total := cpu), trackers := b.trackers[ty := usedCpu]), Failed(LimitExceeded))
              else
                (b0.(cpu := b.cpu.(total := cpu), mem := b.mem.(total := mem),
                     trackers := b.trackers[ty := usedCpu.(mem := Capped(t.mem + memCost))]),
                 if mem > b.mem.limit then Failed(LimitExceeded) else Done)
  {
    AmountIsCost(b.cpu, ty, n, input);
    AmountIsCost(b.mem, ty, n, input);
    hide CostOf, Amount;
    var b1 := CountEvent(b, ty, n);
    var b2 := CountInput(b1, ty, n, input);
    assert b2.trackers == b.trackers[ty := b2.trackers[ty]];
    if b.trackers[ty].inputs.Some? == input.Some? {
      var b3 := ChargeCpu(b2, ty, n, input);
      assert b3.trackers == b.trackers[ty := b3.trackers[ty]];
      var b4 := ChargeMem(b3, ty, n, input);
      assert b4.trackers == b.trackers[ty := b4.trackers[ty]];
    }
  }

  /** The exact linear cost of a batch, which fits in 64 bits. */
  ghost predicate Costs(m: CostModel, n: u64, x: u64, cost: nat) {
    m.linTerm * x <= U64_MAX && cost <= U64_MAX && cost == (m.constTerm + m.linTerm * x / 128) * n
  }

  /** From a new budget one charge of a linear cost type goes through exactly if both costs are
      within their limits, and the totals are then those costs. */
  lemma OneCharge(cpuModels: seq<CostModel>, cpuLimit: u64, memModels: seq<CostModel>, memLimit: u64, linear: set<nat>,
                  ty: nat, n: u64, x: u64, cpu: nat, mem: nat)
    requires |cpuModels| == |memModels| == COST_TYPES && ty < COST_TYPES && ty in linear && n > 0
    requires Costs(cpuModels[ty], n, x, cpu) && Costs(memModels[ty], n, x, mem)
    ensures NewBudget(cpuModels, cpuLimit, memModels, memLimit, linear).Some?
    ensures var b := NewBudget(cpuModels, cpuLimit, memModels, memLimit, linear).value;
            var (b', r) := Run(b, [Charged(ty, n, Some(x))]);
            && (r.Done? <==> cpu <= cpuLimit && mem <= memLimit)
            && b'.cpu.total == b'.trackers[ty].cpu == cpu
            && (r.Done? ==> b'.mem.total == b'.trackers[ty].mem == mem)
  {
    var b := NewBudget(cpuModels, cpuLimit, memModels, memLimit, linear).value;
    CostFits(cpuModels[ty], n, x, cpu);
    CostFits(memModels[ty], n, x, mem);
    hide CostOf, Costs, Charge;
    ChargeExactly(b, ty, n, Some(x));
    var ops := [Charged(ty, n, Some(x))];
    assert Step(b, ops[0]) == Charge(b, ty, n, Some(x));
    assert ops[1..] == [];
  }

  lemma CostFits(m: CostModel, n: u64, x: u64, cost: nat)
    requires n > 0 && Costs(m, n, x, cost)
    ensures CostOf(m, n, Some(x)) == cost
  {
    var unit := m.constTerm + m.linTerm * x / 128;
    ProductNonNegative(unit, n - 1);
    Distribute(unit, n - 1, 1);
  }

  // ---------- the depth guard and shadow limits ----------

  /** Recursion to some depth. */
  function Nested(k: nat): seq<Op> {
    if k == 0 then [] else [AtDepth(Nested(k - 1))]
  }

  /** The guard admits exactly as many levels as the depth limit. */
  lemma {:induction false} DepthGuard(b: Budget, k: nat)
    requires WellFormed(b)
    ensures Run(b, Nested(k)) == (b, if k <= b.depth then Done else Failed(DepthExceeded))
    decreases k
  {
    if k > 0 {
      var ops := Nested(k);
      assert ops[1..] == [];
      if b.depth > 0 {
        DepthGuard(b.(depth := b.depth - 1), k - 1);
        assert b.(depth := b.depth - 1).(depth := b.depth) == b;
      }
      assert Step(b, ops[0]) == (b, if k <= b.depth then Done else Failed(DepthExceeded));
    }
  }

  /** A new budget admits a hundred levels, and its shadow limits are the limits. */
  lemma NewBudgetLimits(cpuModels: seq<CostModel>, cpuLimit: u64, memModels: seq<CostModel>, memLimit: u64, linear: set<nat>, k: nat)
    requires |cpuModels| == |memModels| == 23
    ensures NewBudget(cpuModels, cpuLimit, memModels, memLimit, linear).Some?
    ensures var b := NewBudget(cpuModels, cpuLimit, memModels, memLimit, linear).value;
            && (Run(b, Nested(k)).1.Done? <==> k <= 100)
            && b.cpu.shadowLimit == b.cpu.limit == cpuLimit && b.mem.shadowLimit == b.mem.limit == memLimit
            && forall ty :: 0 <= ty < 23 ==> (b.trackers[ty].inputs.Some? <==> ty in linear)
  {
    DepthGuard(NewBudget(cpuModels, cpuLimit, memModels, memLimit, linear).value, k);
  }

  /** A shadow block with one charge adds its costs to the shadow totals, unless a shadow limit
      was exceeded before: then it does nothing. */
  lemma ShadowBlockExactly(b: Budget, ty: nat, n: u64, input: Option<u64>)
    requires WellFormed(b) && !b.shadow && ty < COST_TYPES
    ensures var over := b.cpu.shadowTotal > b.cpu.shadowLimit || b.mem.shadowTotal > b.mem.shadowLimit;
            var cpu := Capped(b.cpu.shadowTotal + CostOf(b.cpu.models[ty], n, input));
            var mem := Capped(b.mem.shadowTotal + CostOf(b.mem.models[ty], n, input));
            Step(b, InShadow([Charged(ty, n, input)])) ==
              (if over then b
               else if cpu > b.cpu.shadowLimit then b.(cpu := b.cpu.(shadowTotal := cpu))
               else b.(cpu := b.cpu.(shadowTotal := cpu), mem := b.mem.(shadowTotal := mem)), Done)
  {
    hide CostOf, Charge;
    var b1 := b.(shadow := true);
    ShadowChargeExactly(b1, ty, n, input);
    var ops := [Charged(ty, n, input)];
    assert ops[1..] == [] && Step(b1, ops[0]) == Charge(b1, ty, n, input);
    assert Run(b1, ops).0 == Charge(b1, ty, n, input).0;
  }
}
