/** Metering with saturating counters, shadow mode and the depth guard, as values. */
module BudgetModel {
  import opened Wrappers
  import opened Arithmetic

  /** The number of cost types. */
  const COST_TYPES: nat := 23
  /** The linear term is scaled by two to the power of seven. */
  const LINEAR_SCALE: nat := 128
  const DEFAULT_DEPTH_LIMIT: u32 := 100

  function Capped(n: nat): u64 { if n <= U64_MAX then n else U64_MAX }

  function SatAdd(a: u64, b: u64): u64 { Capped(a + b) }

  function SatMul(a: u64, b: u64): u64 { Capped(a * b) }

  datatype CostModel = CostModel(constTerm: u64, linTerm: u64)

  /** The cost of one event; without an input the linear term does not apply. */
  function Evaluate(m: CostModel, input: Option<u64>): u64 {
    match input
    case None => m.constTerm
    case Some(x) =>
      if m.linTerm == 0 then m.constTerm else SatAdd(m.constTerm, SatMul(m.linTerm, x) / LINEAR_SCALE)
  }

  /** One resource: the cost models, and what has been used of each limit. */
  datatype Dimension = Dimension(models: seq<CostModel>, limit: u64, total: u64, shadowLimit: u64, shadowTotal: u64)

  datatype CostTracker = CostTracker(iterations: u64, inputs: Option<u64>, cpu: u64, mem: u64)

  datatype Budget = Budget(cpu: Dimension, mem: Dimension, trackers: seq<CostTracker>, meterCount: u32, shadow: bool, depth: u32)

  datatype Error = InternalError | LimitExceeded | DepthExceeded
  datatype Outcome = Done | Failed(error: Error)

  predicate WellFormed(b: Budget) {
    |b.trackers| == |b.cpu.models| == |b.mem.models| == COST_TYPES
  }

  // ---------- one dimension ----------

  function Amount(d: Dimension, ty: nat, iterations: u64, input: Option<u64>): u64
    requires ty < |d.models|
  {
    SatMul(Evaluate(d.models[ty], input), iterations)
  }

  function ChargeDimension(d: Dimension, amount: u64, shadow: bool): Dimension {
    if shadow then d.(shadowTotal := SatAdd(d.shadowTotal, amount)) else d.(total := SatAdd(d.total, amount))
  }

  predicate OverLimit(d: Dimension, shadow: bool) {
    if shadow then d.shadowTotal > d.shadowLimit else d.total > d.limit
  }

  // ---------- charging ----------

  function CountEvent(b: Budget, ty: nat, iterations: u64): Budget
    requires ty < |b.trackers|
  {
    b.(meterCount := if b.meterCount < U32_MAX then b.meterCount + 1 else U32_MAX,
       trackers := b.trackers[ty := b.trackers[ty].(iterations := SatAdd(b.trackers[ty].iterations, iterations))])
  }

  function CountInput(b: Budget, ty: nat, iterations: u64, input: Option<u64>): Budget
    requires ty < |b.trackers|
  {
    var t := b.trackers[ty];
    if t.inputs.Some? && input.Some? then
      b.(trackers := b.trackers[ty := t.(inputs := Some(SatAdd(t.inputs.value, SatMul(input.value, iterations))))])
    else b
  }

  function ChargeCpu(b: Budget, ty: nat, iterations: u64, input: Option<u64>): Budget
    requires WellFormed(b) && ty < COST_TYPES
  {
    var amount := Amount(b.cpu, ty, iterations, input);
    var b1 := b.(cpu := ChargeDimension(b.cpu, amount, b.shadow));
    if b.shadow then b1
    else b1.(trackers := b.trackers[ty := b.trackers[ty].(cpu := SatAdd(b.trackers[ty].cpu, amount))])
  }

  function ChargeMem(b: Budget, ty: nat, iterations: u64, input: Option<u64>): Budget
    requires WellFormed(b) && ty < COST_TYPES
  {
    var amount := Amount(b.mem, ty, iterations, input);
    var b1 := b.(mem := ChargeDimension(b.mem, amount, b.shadow));
    if b.shadow then b1
    else b1.(trackers := b.trackers[ty := b.trackers[ty].(mem := SatAdd(b.trackers[ty].mem, amount))])
  }

  /** Both dimensions in turn: memory is not charged once the cpu limit is exceeded. */
  function ChargeDimensions(b: Budget, ty: nat, iterations: u64, input: Option<u64>): (Budget, Outcome)
    requires WellFormed(b) && ty < COST_TYPES
  {
    var b1 := ChargeCpu(b, ty, iterations, input);
    if OverLimit(b1.cpu, b.shadow) then (b1, Failed(LimitExceeded))
    else
      var b2 := ChargeMem(b1, ty, iterations, input);
      (b2, if OverLimit(b2.mem, b.shadow) then Failed(LimitExceeded) else Done)
  }

  /** A charge with an input for a cost type that has none, or the other way round, is an
      internal error, which shadow mode does not look for. */
  function Charge(b: Budget, ty: nat, iterations: u64, input: Option<u64>): (r: (Budget, Outcome))
    requires WellFormed(b)
    ensures WellFormed(r.0)
  {
    if ty >= COST_TYPES then (b, Failed(InternalError))
    else if b.shadow then ChargeDimensions(b, ty, iterations, input)
    else
      var b1 := CountEvent(b, ty, iterations);
      if b.trackers[ty].inputs.Some? != input.Some? then (b1, Failed(InternalError))
      else ChargeDimensions(CountInput(b1, ty, iterations, input), ty, iterations, input)
  }

  // ---------- depth ----------

  function Enter(b: Budget): (Budget, Outcome) {
    if b.depth > 0 then (b.(depth := b.depth - 1), Done) else (b, Failed(DepthExceeded))
  }

  function Leave(b: Budget): (Budget, Outcome) {
    if b.depth < U32_MAX then (b.(depth := b.depth + 1), Done) else (b, Failed(InternalError))
  }

  // ---------- runs ----------

  /** What host code does with the budget: charges, closures run in shadow mode or under the
      depth guard, and code whose failure the caller handles. */
  datatype Op =
    | Charged(ty: nat, iterations: u64, input: Option<u64>)
    | InShadow(body: seq<Op>)
    | AtDepth(body: seq<Op>)
    | Handled(body: seq<Op>)

  /** Shadow mode swallows every error, and runs nothing when a shadow limit is exceeded. */
  function Step(b: Budget, op: Op): (r: (Budget, Outcome))
    requires WellFormed(b)
    ensures WellFormed(r.0)
    decreases op
  {
    match op
    case Charged(ty, iterations, input) => Charge(b, ty, iterations, input)
    case InShadow(body) =>
      var b1 := b.(shadow := true);
      var b2 := if OverLimit(b1.cpu, true) || OverLimit(b1.mem, true) then b1 else Run(b1, body).0;
      (b2.(shadow := b.shadow), Done)
    case AtDepth(body) =>
      var (b1, entered) := Enter(b);
      if entered.Failed? then (b1, entered)
      else
        var (b2, r) := Run(b1, body);
        var (b3, left) := Leave(b2);
        (b3, if left.Failed? then left else r)
    case Handled(body) => (Run(b, body).0, Done)
  }

  /** A run ends at the first failure. */
  function Run(b: Budget, ops: seq<Op>): (r: (Budget, Outcome))
    requires WellFormed(b)
    ensures WellFormed(r.0)
    decreases ops
  {
    if ops == [] then (b, Done)
    else
      var (b1, r) := Step(b, ops[0]);
      if r.Failed? then (b1, r) else Run(b1, ops[1..])
  }

  // ---------- construction ----------

  /** Constant cost types keep no count of inputs. */
  function NewTrackers(linear: set<nat>): seq<CostTracker> {
    seq(COST_TYPES, ty => CostTracker(0, if ty in linear then Some(0) else None, 0, 0))
  }

  function NewDimension(models: seq<CostModel>, limit: u64): Dimension {
    Dimension(models, limit, 0, limit, 0)
  }

  function NewBudget(cpuModels: seq<CostModel>, cpuLimit: u64, memModels: seq<CostModel>, memLimit: u64, linear: set<nat>): (r: Option<Budget>)
    ensures r.Some? ==> WellFormed(r.value)
  {
    if |cpuModels| != COST_TYPES || |memModels| != COST_TYPES then None
    else Some(Budget(NewDimension(cpuModels, cpuLimit), NewDimension(memModels, memLimit), NewTrackers(linear), 0, false, DEFAULT_DEPTH_LIMIT))
  }
}
