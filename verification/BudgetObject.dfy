/** The budget as the source has it: two dimensions and a table of trackers updated in place. */
module BudgetObject {
  import opened Wrappers
  import opened Arithmetic
  import opened BudgetModel

  class BudgetDimension {
    const costModels: array<CostModel>
    var limit: u64
    var totalCount: u64
    var shadowLimit: u64
    var shadowTotalCount: u64

    function View(): Dimension
      reads this, costModels
    {
      Dimension(costModels[..], limit, totalCount, shadowLimit, shadowTotalCount)
    }

    constructor (models: seq<CostModel>, limit: u64)
      ensures View() == NewDimension(models, limit)
      ensures fresh(costModels)
    {
      costModels := new CostModel[|models|](i requires 0 <= i < |models| => models[i]);
      this.limit, totalCount, shadowLimit, shadowTotalCount := limit, 0, limit, 0;
      new;
      assert costModels[..] == models;
    }

    method CheckBudgetLimit(isShadow: bool) returns (r: Outcome)
      ensures r == if OverLimit(View(), isShadow) then Failed(LimitExceeded) else Done
    {
      var overLimit := if isShadow then shadowTotalCount > shadowLimit else totalCount > limit;
      r := if overLimit then Failed(LimitExceeded) else Done;
    }

    method Charge(ty: nat, iterations: u64, input: Option<u64>, isShadow: bool) returns (amount: Option<u64>)
      modifies this
      ensures if ty >= costModels.Length then amount == None && View() == old(View())
              else amount == Some(Amount(old(View()), ty, iterations, input))
                   && View() == ChargeDimension(old(View()), amount.value, isShadow)
    {
      if ty >= costModels.Length { return None; }
      var a := SatMul(Evaluate(costModels[ty], input), iterations);
      if isShadow {
        shadowTotalCount := SatAdd(shadowTotalCount, a);
      } else {
        totalCount := SatAdd(totalCount, a);
      }
      amount := Some(a);
    }
  }

  class BudgetImpl {
    const cpuInsns: BudgetDimension
    const memBytes: BudgetDimension
    const costTracker: array<CostTracker>
    var meterCount: u32
    var isInShadowMode: bool
    var depthLimit: u32

    predicate Valid()
      reads this, cpuInsns, memBytes, cpuInsns.costModels, memBytes.costModels, costTracker
    {
      && cpuInsns != memBytes
      && WellFormed(View())
    }

    function View(): Budget
      reads this, cpuInsns, memBytes, cpuInsns.costModels, memBytes.costModels, costTracker
    {
      Budget(cpuInsns.View(), memBytes.View(), costTracker[..], meterCount, isInShadowMode, depthLimit)
    }

    constructor (cpuModels: seq<CostModel>, cpuLimit: u64, memModels: seq<CostModel>, memLimit: u64, linear: set<nat>)
      requires |cpuModels| == |memModels| == COST_TYPES
      ensures Valid() && NewBudget(cpuModels, cpuLimit, memModels, memLimit, linear) == Some(View())
    {
      cpuInsns := new BudgetDimension(cpuModels, cpuLimit);
      memBytes := new BudgetDimension(memModels, memLimit);
      costTracker := new CostTracker[COST_TYPES](ty => CostTracker(0, if ty in linear then Some(0) else None, 0, 0));
      meterCount, isInShadowMode, depthLimit := 0, false, DEFAULT_DEPTH_LIMIT;
      new;
      assert costTracker[..] == NewTrackers(linear);
    }

    method Charge(ty: nat, iterations: u64, input: Option<u64>) returns (r: Outcome)
      requires Valid()
      modifies this, cpuInsns, memBytes, costTracker
      ensures Valid() && (View(), r) == BudgetModel.Charge(old(View()), ty, iterations, input)
    {
      if ty >= costTracker.Length { return Failed(InternalError); }
      if !isInShadowMode {
        r := CountUse(ty, iterations, input);
        if r.Failed? { return; }
      }
      r := ChargeDimensions(ty, iterations, input);
    }

    /** For reporting only. */
    method CountUse(ty: nat, iterations: u64, input: Option<u64>) returns (r: Outcome)
      requires Valid() && ty < COST_TYPES
      modifies this`meterCount, costTracker
      ensures Valid()
      ensures var b1 := CountEvent(old(View()), ty, iterations);
              if old(View()).trackers[ty].inputs.Some? != input.Some? then View() == b1 && r == Failed(InternalError)
              else View() == CountInput(b1, ty, iterations, input) && r == Done
    {
      ghost var b := View();
      meterCount := if meterCount < U32_MAX then meterCount + 1 else U32_MAX;
      costTracker[ty] := costTracker[ty].(iterations := SatAdd(costTracker[ty].iterations, iterations));
      assert View() == CountEvent(b, ty, iterations);
      match (costTracker[ty].inputs, input)
      case (None, None) => r := Done;
      case (Some(t), Some(i)) =>
        costTracker[ty] := costTracker[ty].(inputs := Some(SatAdd(t, SatMul(i, iterations))));
        r := Done;
      case _ => r := Failed(InternalError);
    }

    method UseCpu(ty: nat, iterations: u64, input: Option<u64>)
      requires Valid() && ty < COST_TYPES
      modifies cpuInsns, costTracker
      ensures Valid() && View() == ChargeCpu(old(View()), ty, iterations, input)
    {
      hide Amount;
      var charged := cpuInsns.Charge(ty, iterations, input, isInShadowMode);
      if !isInShadowMode {
        costTracker[ty] := costTracker[ty].(cpu := SatAdd(costTracker[ty].cpu, charged.value));
      }
    }

    method UseMem(ty: nat, iterations: u64, input: Option<u64>)
      requires Valid() && ty < COST_TYPES
      modifies memBytes, costTracker
      ensures Valid() && View() == ChargeMem(old(View()), ty, iterations, input)
    {
      hide Amount;
      var charged := memBytes.Charge(ty, iterations, input, isInShadowMode);
      if !isInShadowMode {
        costTracker[ty] := costTracker[ty].(mem := SatAdd(costTracker[ty].mem, charged.value));
      }
    }

    method ChargeDimensions(ty: nat, iterations: u64, input: Option<u64>) returns (r: Outcome)
      requires Valid() && ty < COST_TYPES
      modifies this, cpuInsns, memBytes, costTracker
      ensures Valid() && (View(), r) == BudgetModel.ChargeDimensions(old(View()), ty, iterations, input)
    {
      UseCpu(ty, iterations, input);
      r := cpuInsns.CheckBudgetLimit(isInShadowMode);
      if r.Failed? { return; }
      UseMem(ty, iterations, input);
      r := memBytes.CheckBudgetLimit(isInShadowMode);
    }

    method Enter() returns (r: Outcome)
      requires Valid()
      modifies this`depthLimit
      ensures Valid() && (View(), r) == BudgetModel.Enter(old(View()))
    {
      if depthLimit == 0 { return Failed(DepthExceeded); }
      depthLimit := depthLimit - 1;
      r := Done;
    }

    method Leave() returns (r: Outcome)
      requires Valid()
      modifies this`depthLimit
      ensures Valid() && (View(), r) == BudgetModel.Leave(old(View()))
    {
      if depthLimit == U32_MAX { return Failed(InternalError); }
      depthLimit := depthLimit + 1;
      r := Done;
    }

    /** Runs a closure in shadow mode: nothing it does is to be seen. */
    method WithShadowMode(body: seq<Op>)
      requires Valid()
      modifies this, cpuInsns, memBytes, costTracker
      ensures Valid() && View() == Step(old(View()), InShadow(body)).0
      decreases body, 1
    {
      var prev := isInShadowMode;
      isInShadowMode := true;
      var ok := cpuInsns.CheckBudgetLimit(true);
      if ok.Done? { ok := memBytes.CheckBudgetLimit(true); }
      if ok.Done? {
        var _ := Execute(body);
      }
      isInShadowMode := prev;
    }

    method WithLimitedDepth(body: seq<Op>) returns (r: Outcome)
      requires Valid()
      modifies this, cpuInsns, memBytes, costTracker
      ensures Valid() && (View(), r) == Step(old(View()), AtDepth(body))
      decreases body, 1
    {
      r := Enter();
      if r.Failed? { return; }
      r := Execute(body);
      var left := Leave();
      if left.Failed? { r := left; }
    }

    /** A closure, that is, what it does with the budget until its first failure. */
    method Execute(ops: seq<Op>) returns (r: Outcome)
      requires Valid()
      modifies this, cpuInsns, memBytes, costTracker
      ensures Valid() && (View(), r) == Run(old(View()), ops)
      decreases ops, 0
    {
      if ops == [] { return Done; }
      match ops[0] {
        case Charged(ty, iterations, input) => r := Charge(ty, iterations, input);
        case InShadow(body) => WithShadowMode(body); r := Done;
        case AtDepth(body) => r := WithLimitedDepth(body);
        case Handled(body) => var _ := Execute(body); r := Done;
      }
      if r.Failed? { return; }
      r := Execute(ops[1..]);
    }
  }
}
