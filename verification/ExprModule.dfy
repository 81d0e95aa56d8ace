/** The module made from one expression: it always comes out, it validates, running its function
    evaluates the expression, and every value keeps its type. */
module ExprModule {
  import opened Wrappers
  import opened Arithmetic
  import opened WasmMachine
  import opened ExprCompiler
  import opened ExprTheorems
  import opened ExprMeaning

  // ---------- types ----------

  /** The functions of the environment interface, the pairs (subtype, type), and which 64-bit
      values encode values of a type. */
  datatype Typing = Typing(functions: set<HostFn>, subtypes: set<(string, string)>, hasType: (string, i64) -> bool)

  predicate WellTyped(t: Typing, e: Expr)
    decreases e
  {
    match e
    case Const(ty, lit) => t.hasType(ty, LiteralValue(lit))
    case New(fn, _) => fn in t.functions && fn.params == []
    case Sub(ty, inner) => (TypeOf(inner), ty) in t.subtypes && WellTyped(t, inner)
    case Apply(fn, args) => fn in t.functions && WellTypedAll(t, fn.params, args)
  }

  predicate WellTypedAll(t: Typing, params: seq<string>, args: seq<Expr>)
    decreases args
  {
    && |args| == |params|
    && forall i :: 0 <= i < |args| ==> TypeOf(args[i]) == params[i] && WellTyped(t, args[i])
  }

  predicate HaveTypes(t: Typing, tys: seq<string>, vs: seq<i64>) {
    |vs| == |tys| && forall i :: 0 <= i < |vs| ==> t.hasType(tys[i], vs[i])
  }

  predicate PoolTyped(t: Typing, pool: seq<Stored>) {
    forall i :: 0 <= i < |pool| ==> t.hasType(pool[i].ty, pool[i].value)
  }

  /** A call of an interface function with arguments of its parameter types. */
  predicate CallTyped(t: Typing, c: HostCall) {
    exists fn :: fn in t.functions && fn.moduleName == c.moduleName && fn.name == c.name && HaveTypes(t, fn.params, c.args)
  }

  predicate CallsTyped(t: Typing, calls: seq<HostCall>) {
    forall i :: 0 <= i < |calls| ==> CallTyped(t, calls[i])
  }

  /** Subtypes are subtypes, and host functions answer with values of their result type. */
  ghost predicate TypingOk(t: Typing, host: Host) {
    && (forall p, v :: p in t.subtypes && t.hasType(p.0, v) ==> t.hasType(p.1, v))
    && (forall fn, calls, vs :: fn in t.functions && HaveTypes(t, fn.params, vs) ==>
          Answers(t, host, fn, calls, vs))
  }

  ghost predicate Answers(t: Typing, host: Host, fn: HostFn, calls: seq<HostCall>, vs: seq<i64>) {
    var r := host(calls, HostCall(fn.moduleName, fn.name, vs));
    r.Some? ==> t.hasType(fn.result, r.value)
  }

  ghost predicate MeaningTyped(t: Typing, ty: string, r: Meaning) {
    && CallsTyped(t, r.calls)
    && (r.Evaluates? ==> t.hasType(ty, r.value) && PoolTyped(t, r.pool))
  }

  lemma {:induction false} WellTypedIsApplicable(t: Typing, e: Expr)
    requires WellTyped(t, e)
    ensures Applicable(e)
    decreases e
  {
    match e
    case Const(_, _) =>
    case New(_, _) =>
    case Sub(_, inner) => WellTypedIsApplicable(t, inner);
    case Apply(fn, args) =>
      forall i | 0 <= i < |args| ensures Applicable(args[i]) {
        WellTypedIsApplicable(t, args[i]);
      }
  }

  lemma {:induction false} OfTypeTyped(t: Typing, pool: seq<Stored>, ty: string)
    requires PoolTyped(t, pool)
    ensures forall i :: 0 <= i < |OfType(pool, ty)| ==> t.hasType(ty, OfType(pool, ty)[i])
    decreases |pool|
  {
    if pool != [] { OfTypeTyped(t, pool[..|pool| - 1], ty); }
  }

  lemma CallHostTyped(t: Typing, host: Host, fn: HostFn, vs: seq<i64>, pool: seq<Stored>, calls: seq<HostCall>)
    requires TypingOk(t, host) && fn in t.functions && HaveTypes(t, fn.params, vs)
    requires PoolTyped(t, pool) && CallsTyped(t, calls)
    ensures MeaningTyped(t, fn.result, CallHost(host, fn, vs, pool, calls))
  {
    assert Answers(t, host, fn, calls, vs);
    assert CallTyped(t, HostCall(fn.moduleName, fn.name, vs));
  }

  /** An expression evaluates to a value of its type, whatever existing values it picks up, and
      every host function is called with arguments of the types it declares. */
  lemma {:induction false} EvalTyped(t: Typing, host: Host, slots: nat, e: Expr, pool: seq<Stored>, calls: seq<HostCall>)
    requires TypingOk(t, host) && WellTyped(t, e) && PoolTyped(t, pool) && CallsTyped(t, calls)
    ensures MeaningTyped(t, TypeOf(e), Eval(host, slots, e, pool, calls))
    decreases e
  {
    match e
    case Const(_, _) =>
    case New(fn, index) =>
      OfTypeTyped(t, pool, fn.result);
      CallHostTyped(t, host, fn, [], pool, calls);
    case Sub(ty, inner) =>
      EvalTyped(t, host, slots, inner, pool, calls);
      assert (TypeOf(inner), ty) in t.subtypes;
      assert forall v :: t.hasType((TypeOf(inner), ty).0, v) ==> t.hasType((TypeOf(inner), ty).1, v);
    case Apply(fn, args) =>
      EvalAllTyped(t, host, slots, fn.params, args, pool, calls);
      var r := EvalAll(host, slots, args, pool, calls);
      if r.EvaluateTo? { CallHostTyped(t, host, fn, r.values, r.pool, r.calls); }
  }

  lemma {:induction false} EvalAllTyped(t: Typing, host: Host, slots: nat, tys: seq<string>, args: seq<Expr>, pool: seq<Stored>, calls: seq<HostCall>)
    requires TypingOk(t, host) && WellTypedAll(t, tys, args) && PoolTyped(t, pool) && CallsTyped(t, calls)
    ensures var r := EvalAll(host, slots, args, pool, calls);
            && CallsTyped(t, r.calls)
            && (r.EvaluateTo? ==> HaveTypes(t, tys, r.values) && PoolTyped(t, r.pool))
    decreases args
  {
    if args != [] {
      EvalAllTyped(t, host, slots, tys[..|tys| - 1], args[..|args| - 1], pool, calls);
      var r := EvalAll(host, slots, args[..|args| - 1], pool, calls);
      if r.EvaluateTo? {
        EvalTyped(t, host, slots, args[|args| - 1], r.pool, r.calls);
      }
    }
  }

  // ---------- validation ----------

  lemma {:induction false} PushesCheck(M: Mod, f: Func, ops: seq<Operand>, st: seq<ValType>)
    requires FuncOk(f) && AllSettled(f, ops) && Check(M, Slots(f), f.code, []) == Some(st)
    ensures Check(M, Slots(f), Pushed(f, ops), []) == Some(st + Repeat(I64Type, |ops|))
    decreases |ops|
  {
    if ops == [] {
      assert Pushed(f, ops) == f.code;
      assert st + Repeat(I64Type, 0) == st;
    } else {
      var rest, op := ops[..|ops| - 1], ops[|ops| - 1];
      PushesCheck(M, f, rest, st);
      assert Pushed(f, ops) == Pushed(f, rest) + [PushInstr(op)];
      CheckSnoc(M, Slots(f), Pushed(f, rest), PushInstr(op), []);
      assert Settled(f, op);
      assert (st + Repeat(I64Type, |rest|)) + [I64Type] == st + Repeat(I64Type, |ops|);
    }
  }

  lemma CallCheck(M: Mod, numLocals: nat, m: Mod, id: nat, moduleName: string, name: string, params: nat, st: seq<ValType>)
    requires ModOk(m) && Covers(M, m) && id < |m.imports| && ImportKey(m, id) == (moduleName, name, params)
    ensures CheckInstr(M, numLocals, Call(id), Some(st + Repeat(I64Type, params))) == Some(st + [I64Type])
  {
    assert M.imports[id] == m.imports[id];
    assert M.types[m.imports[id].typeIndex] == m.types[m.imports[id].typeIndex];
    var s := st + Repeat(I64Type, params);
    assert s[|st|..] == Repeat(I64Type, params) && s[..|st|] == st;
    assert Repeat(I64Type, 1) == [I64Type];
  }

  lemma CallChecks(M: Mod, f: Func, fn: HostFn, ops: seq<Operand>, st: seq<ValType>)
    requires FuncOk(f) && |ops| == |fn.params| && AllSettled(f, ops)
    requires CallAndStore(f, fn, ops).Some? && Covers(M, CallAndStore(f, fn, ops).value.0.mod)
    requires Check(M, Slots(f), f.code, []) == Some(st)
    ensures Check(M, Slots(f), CallAndStore(f, fn, ops).value.0.code, []) == Some(st)
  {
    hide ImportFunc, Check, CheckInstr, ModOk;
    CallAndStoreOk(f, fn, ops);
    CallFnIs(f, fn, ops);
    ImportFuncInterns(f.mod, fn.moduleName, fn.name, |fn.params|);
    var (m, id) := ImportFunc(f.mod, fn.moduleName, fn.name, |fn.params|).value;
    PushesCheck(M, f, ops, st);
    CallCheck(M, Slots(f), m, id, fn.moduleName, fn.name, |fn.params|, st);
    CallStoreCheck(M, Slots(f), Pushed(f, ops), id, f.arity + Used(f), st, st + Repeat(I64Type, |ops|));
  }

  lemma CallStoreCheck(M: Mod, numLocals: nat, code: seq<Instr>, id: nat, k: nat, st: seq<ValType>, pushed: seq<ValType>)
    requires Check(M, numLocals, code, []) == Some(pushed) && k < numLocals
    requires CheckInstr(M, numLocals, Call(id), Some(pushed)) == Some(st + [I64Type])
    ensures Check(M, numLocals, code + [Call(id)] + [LocalSet(k)], []) == Some(st)
  {
    CheckSnoc(M, numLocals, code, Call(id), []);
    CheckSnoc(M, numLocals, code + [Call(id)], LocalSet(k), []);
    assert (st + [I64Type])[..|st|] == st;
  }

  lemma NewChecks(M: Mod, f: Func, fn: HostFn, index: u8, st: seq<ValType>)
    requires FuncOk(f) && fn.params == [] && Emit(f, New(fn, index)).Some? && Covers(M, Emit(f, New(fn, index)).value.0.mod)
    requires Check(M, Slots(f), f.code, []) == Some(st)
    ensures Check(M, Slots(f), Emit(f, New(fn, index)).value.0.code, []) == Some(st)
  {
    if ChooseLocal(f, fn.result, index).None? { CallChecks(M, f, fn, [], st); }
  }

  /** The state between the arguments of an application and its call. */
  lemma ApplyParts(M: Mod, f: Func, fn: HostFn, args: seq<Expr>)
    requires FuncOk(f) && Applicable(Apply(fn, args)) && Emit(f, Apply(fn, args)).Some?
    requires Covers(M, Emit(f, Apply(fn, args)).value.0.mod)
    ensures EmitAll(f, args).Some?
    ensures var (f1, ops) := EmitAll(f, args).value;
            && FuncOk(f1) && Later(f, f1) && AllSettled(f1, ops) && Covers(M, f1.mod)
            && Slots(f1) == Slots(f)
            && CallAndStore(f1, fn, ops) == Emit(f, Apply(fn, args))
  {
    EmitAllOk(f, args);
    var (f1, ops) := EmitAll(f, args).value;
    CallAndStoreOk(f1, fn, ops);
    CoversEarlier(M, f1, Emit(f, Apply(fn, args)).value.0);
  }

  /** Emitted code is valid and leaves the operand stack as it was. */
  lemma {:induction false} EmitChecks(M: Mod, f: Func, e: Expr, st: seq<ValType>)
    requires FuncOk(f) && Applicable(e) && Emit(f, e).Some? && Covers(M, Emit(f, e).value.0.mod)
    requires Check(M, Slots(f), f.code, []) == Some(st)
    ensures Check(M, Slots(f), Emit(f, e).value.0.code, []) == Some(st)
    decreases e
  {
    match e
    case Const(_, _) =>
    case New(fn, index) => NewChecks(M, f, fn, index, st);
    case Sub(_, inner) => EmitChecks(M, f, inner, st);
    case Apply(fn, args) =>
      ApplyParts(M, f, fn, args);
      EmitAllChecks(M, f, args, st);
      var (f1, ops) := EmitAll(f, args).value;
      CallChecks(M, f1, fn, ops, st);
  }

  lemma {:induction false} EmitAllChecks(M: Mod, f: Func, args: seq<Expr>, st: seq<ValType>)
    requires FuncOk(f) && (forall i :: 0 <= i < |args| ==> Applicable(args[i]))
    requires EmitAll(f, args).Some? && Covers(M, EmitAll(f, args).value.0.mod)
    requires Check(M, Slots(f), f.code, []) == Some(st)
    ensures Check(M, Slots(f), EmitAll(f, args).value.0.code, []) == Some(st)
    decreases args
  {
    hide Check, FuncOk, Covers;
    if args != [] {
      EmitAllOk(f, args[..|args| - 1]);
      var (f1, ops) := EmitAll(f, args[..|args| - 1]).value;
      EmitOk(f1, args[|args| - 1]);
      CoversEarlier(M, f1, EmitAll(f, args).value.0);
      EmitAllChecks(M, f, args[..|args| - 1], st);
      EmitChecks(M, f1, args[|args| - 1], st);
    }
  }

  // ---------- arguments ----------

  function ArgSlots(tys: seq<string>): seq<Slot> {
    seq(|tys|, i requires 0 <= i < |tys| => Slot(i, Some(tys[i])))
  }

  function Arguments(tys: seq<string>, vs: seq<i64>): seq<Stored>
    requires |vs| == |tys|
  {
    seq(|tys|, i requires 0 <= i < |tys| => Stored(tys[i], vs[i]))
  }

  lemma {:induction false} AllocArgsTags(f: Func, tys: seq<string>)
    requires f.args == FreshSlots(0, f.arity) && |tys| <= f.arity
    ensures AllocArgs(f, tys) == Some(f.(args := ArgSlots(tys) + FreshSlots(|tys|, f.arity - |tys|)))
    decreases |tys|
  {
    var n := |tys|;
    if n == 0 {
      assert ArgSlots(tys) + FreshSlots(0, f.arity) == f.args;
    } else {
      AllocArgsTags(f, tys[..n - 1]);
      var f1 := AllocArgs(f, tys[..n - 1]).value;
      FirstFreeIs(f1.args, n - 1);
      assert f1.args[n - 1 := Slot(n - 1, Some(tys[n - 1]))] == ArgSlots(tys) + FreshSlots(n, f.arity - n);
    }
  }

  lemma {:induction false} ArgumentsPool(tys: seq<string>, vs: seq<i64>, more: seq<i64>)
    requires |vs| == |tys|
    ensures PoolOf(ArgSlots(tys), vs + more) == Arguments(tys, vs)
    decreases |tys|
  {
    var n := |tys|;
    if n > 0 {
      ArgumentsPool(tys[..n - 1], vs[..n - 1], [vs[n - 1]] + more);
      assert vs[..n - 1] + ([vs[n - 1]] + more) == vs + more;
      assert ArgSlots(tys)[..n - 1] == ArgSlots(tys[..n - 1]);
      assert Arguments(tys, vs) == Arguments(tys[..n - 1], vs[..n - 1]) + [Stored(tys[n - 1], vs[n - 1])];
    }
  }

  /** The function emitter once its arguments have been allocated. */
  function Start(e: Expr, argTypes: seq<string>): Func {
    Func(DEFAULT_MOD, |argTypes|, 1, NumLocals(e), [], ArgSlots(argTypes), FreshSlots(|argTypes|, NumLocals(e)))
  }

  lemma StartOk(e: Expr, argTypes: seq<string>)
    ensures FuncOk(Start(e, argTypes)) && Free(Start(e, argTypes)) == NumLocals(e) && Used(Start(e, argTypes)) == 0
    ensures Slots(Start(e, argTypes)) == |argTypes| + NumLocals(e)
    ensures AllocArgs(NewFunc(DEFAULT_MOD, |argTypes|, 1, NumLocals(e)), argTypes) == Some(Start(e, argTypes))
  {
    AllocArgsTags(NewFunc(DEFAULT_MOD, |argTypes|, 1, NumLocals(e)), argTypes);
    assert ArgSlots(argTypes) + FreshSlots(|argTypes|, 0) == ArgSlots(argTypes);
    FirstFreeIs(FreshSlots(|argTypes|, NumLocals(e)), 0);
  }

  // ---------- the whole module ----------

  /** The code of a function that pushes the operand last. */
  function Body(f: Func, op: Operand): seq<Instr>
    requires op != StackTop
  {
    f.code + [PushInstr(op)] + [End]
  }

  predicate ImportsValid(m: Mod) {
    forall i :: 0 <= i < |m.imports| ==> m.imports[i].typeIndex < |m.types|
  }

  /** What the module consists of. */
  lemma ModuleShape(e: Expr, name: string, argTypes: seq<string>) returns (f: Func, op: Operand, ty: nat, m: Mod)
    requires Applicable(e)
    ensures Emit(Start(e, argTypes), e) == Some((f, op)) && Settled(f, op)
    ensures AsSingleFunctionModule(e, name, argTypes) == Some(m)
    ensures ImportsValid(m) && Covers(m, f.mod)
    ensures ty < |m.types| && m.types[ty] == FuncType(|argTypes|, 1)
    ensures m.funcs == [ty] && m.codes == [Code(NumLocals(e), Body(f, op))]
    ensures m.exports == [MemoryExport("memory", 0), FuncExport(name, |m.imports|)]
  {
    var f0 := Start(e, argTypes);
    StartOk(e, argTypes);
    EmitNeverPanics(f0, e);
    EmitOk(f0, e);
    f := Emit(f0, e).value.0;
    op := Emit(f0, e).value.1;
    ty, m := FinishShape(f, op, name);
  }

  lemma FinishShape(f: Func, op: Operand, name: string) returns (ty: nat, m: Mod)
    requires ModOk(f.mod) && Settled(f, op) && f.mod.funcs == [] && f.mod.exports == DEFAULT_MOD.exports
    ensures Push(f, op, false) == Some(Emitted(f, PushInstr(op))) && Finish(Emitted(f, PushInstr(op))).Some?
    ensures var (m2, id) := Finish(Emitted(f, PushInstr(op))).value; m == ExportFunc(m2, id, name)
    ensures ImportsValid(m) && Covers(m, f.mod)
    ensures ty < |m.types| && m.types[ty] == FuncType(f.arity, f.ret)
    ensures m.funcs == [ty] && m.codes == [Code(f.numLocals, Body(f, op))]
    ensures m.exports == [MemoryExport("memory", 0), FuncExport(name, |m.imports|)]
  {
    GetFnTypeInterns(f.mod, f.arity, f.ret);
    var (m2, id) := Finish(Emitted(f, PushInstr(op))).value;
    ty := GetFnType(f.mod, f.arity, f.ret).1;
    m := ExportFunc(m2, id, name);
  }

  lemma BodyChecks(M: Mod, e: Expr, f0: Func, f: Func, op: Operand)
    requires FuncOk(f0) && f0.code == [] && Applicable(e) && Emit(f0, e) == Some((f, op)) && Covers(M, f.mod)
    ensures Settled(f, op) && Check(M, Slots(f0), Body(f, op), []) == Some(Repeat(I64Type, 1))
  {
    EmitChecks(M, f0, e, []);
    EmitOk(f0, e);
    TailChecks(M, Slots(f0), f, op);
  }

  lemma TailChecks(M: Mod, numLocals: nat, f: Func, op: Operand)
    requires Settled(f, op) && Slots(f) == numLocals && Check(M, numLocals, f.code, []) == Some([])
    ensures Check(M, numLocals, f.code + [PushInstr(op)] + [End], []) == Some(Repeat(I64Type, 1))
  {
    CheckSnoc(M, numLocals, f.code, PushInstr(op), []);
    CheckSnoc(M, numLocals, f.code + [PushInstr(op)], End, []);
    assert [] + [I64Type] == Repeat(I64Type, 1);
  }

  /** Making the module of an expression never panics before validation; the module defines one
      function of the right type behind its imports, exported under the name; and it is valid
      unless the name is the one the memory is exported under. */
  lemma SingleFunctionModule(e: Expr, name: string, argTypes: seq<string>)
    requires Applicable(e)
    ensures AsSingleFunctionModule(e, name, argTypes).Some?
    ensures var m := AsSingleFunctionModule(e, name, argTypes).value;
            && |m.funcs| == |m.codes| == 1 && m.funcs[0] < |m.types|
            && m.types[m.funcs[0]] == FuncType(|argTypes|, 1)
            && m.codes[0].numLocals == NumLocals(e)
            && m.exports == [MemoryExport("memory", 0), FuncExport(name, |m.imports|)]
            && (ValidModule(m) <==> name != "memory")
  {
    hide AsSingleFunctionModule, FuncOk, Covers, Emit, Check, ValidModule;
    var f, op, ty, m := ModuleShape(e, name, argTypes);
    StartOk(e, argTypes);
    BodyChecks(m, e, Start(e, argTypes), f, op);
    OneFunction(m, name, |argTypes|, NumLocals(e), ty, Body(f, op));
  }

  lemma OneFunction(m: Mod, name: string, params: nat, numLocals: nat, ty: nat, body: seq<Instr>)
    requires ImportsValid(m) && m.funcs == [ty] && m.codes == [Code(numLocals, body)]
    requires ty < |m.types| && m.types[ty] == FuncType(params, 1)
    requires body != [] && body[|body| - 1] == End && Check(m, params + numLocals, body, []) == Some(Repeat(I64Type, 1))
    requires m.exports == [MemoryExport("memory", 0), FuncExport(name, |m.imports|)]
    ensures ValidModule(m) <==> name != "memory"
  {
    assert ValidFunc(m, 0);
    assert m.exports[0].name == "memory" && m.exports[1].name == name;
  }

  /** How a function starts: its arguments, and zero in every local. */
  function InitialLocals(args: seq<i64>, numLocals: nat): seq<i64> {
    args + seq<i64>(numLocals, i => 0)
  }

  lemma StartPool(e: Expr, argTypes: seq<string>, args: seq<i64>)
    requires |args| == |argTypes|
    ensures Pool(Start(e, argTypes), InitialLocals(args, NumLocals(e))) == Arguments(argTypes, args)
  {
    ArgumentsPool(argTypes, args, seq<i64>(NumLocals(e), i => 0));
    PoolFree(ArgSlots(argTypes), FreshSlots(|argTypes|, NumLocals(e)), InitialLocals(args, NumLocals(e)));
  }

  lemma BodyMeans(M: Mod, e: Expr, f0: Func, f: Func, op: Operand, host: Host, c0: Config)
    requires FuncOk(f0) && f0.code == [] && Applicable(e) && Emit(f0, e) == Some((f, op)) && Covers(M, f.mod)
    requires c0.Running? && |c0.locals| == Slots(f0) && c0.stack == []
    ensures Settled(f, op)
    ensures var end := Exec(M, host, Body(f, op), c0);
            match Eval(host, Slots(f0), e, Pool(f0, c0.locals), c0.calls)
            case Traps(calls) => end == Trapped(calls)
            case Evaluates(v, _, calls) => end.Running? && end.stack == [V64(v)] && end.calls == calls
  {
    EmitMeans(M, host, c0, f0, e, c0);
    EmitOk(f0, e);
    TailMeans(M, host, c0, f0, f, op, Eval(host, Slots(f0), e, Pool(f0, c0.locals), c0.calls));
  }

  lemma TailMeans(M: Mod, host: Host, c0: Config, f0: Func, f: Func, op: Operand, r: Meaning)
    requires Settled(f, op) && Slots(f) == Slots(f0) && c0.Running? && Agrees(Exec(M, host, f.code, c0), f0, f, op, c0.locals, [], r)
    ensures var end := Exec(M, host, f.code + [PushInstr(op)] + [End], c0);
            match r
            case Traps(calls) => end == Trapped(calls)
            case Evaluates(v, _, calls) => end.Running? && end.stack == [V64(v)] && end.calls == calls
  {
    var c1 := Exec(M, host, f.code, c0);
    ExecSnoc(M, host, f.code, PushInstr(op), c0);
    ExecSnoc(M, host, f.code + [PushInstr(op)], End, c0);
    if c1.Running? {
      assert ExecInstr(M, host, PushInstr(op), c1).stack == [V64(Denote(op, c1.locals))];
    }
  }

  /** Calling the exported function evaluates the expression, with the arguments at hand under
      their types: the same host calls in the same order, a trap exactly when evaluation traps,
      and the value as the one result. */
  lemma FunctionEvaluates(e: Expr, name: string, argTypes: seq<string>, host: Host, args: seq<i64>)
    requires Applicable(e) && |args| == |argTypes|
    ensures AsSingleFunctionModule(e, name, argTypes).Some?
    ensures var m := AsSingleFunctionModule(e, name, argTypes).value;
            |m.codes| == 1 &&
            var end := Exec(m, host, m.codes[0].body, Running(InitialLocals(args, m.codes[0].numLocals), [], []));
            match Eval(host, |args| + NumLocals(e), e, Arguments(argTypes, args), [])
            case Traps(calls) => end == Trapped(calls)
            case Evaluates(v, _, calls) => end.Running? && end.stack == [V64(v)] && end.calls == calls
  {
    hide AsSingleFunctionModule, Exec, Eval, FuncOk, Covers, Emit, Body;
    var f, op, _, m := ModuleShape(e, name, argTypes);
    StartOk(e, argTypes);
    StartPool(e, argTypes, args);
    BodyMeans(m, e, Start(e, argTypes), f, op, host, Running(InitialLocals(args, NumLocals(e)), [], []));
  }

  /** Well-typed arguments give a well-typed result and only well-typed host calls. */
  lemma FunctionTyped(t: Typing, e: Expr, name: string, argTypes: seq<string>, host: Host, args: seq<i64>)
    requires TypingOk(t, host) && WellTyped(t, e) && HaveTypes(t, argTypes, args)
    ensures Applicable(e) && AsSingleFunctionModule(e, name, argTypes).Some?
    ensures var m := AsSingleFunctionModule(e, name, argTypes).value;
            |m.codes| == 1 &&
            var end := Exec(m, host, m.codes[0].body, Running(InitialLocals(args, m.codes[0].numLocals), [], []));
            && !end.Stuck? && CallsTyped(t, end.calls)
            && (end.Running? ==> |end.stack| == 1 && end.stack[0].V64? && t.hasType(TypeOf(e), end.stack[0].v64))
  {
    hide AsSingleFunctionModule;
    WellTypedIsApplicable(t, e);
    FunctionEvaluates(e, name, argTypes, host, args);
    EvalTyped(t, host, |args| + NumLocals(e), e, Arguments(argTypes, args), []);
  }

  /** The function writes each local it uses once, before reading it. */
  lemma FunctionAssignsOnce(e: Expr, name: string, argTypes: seq<string>)
    requires Applicable(e)
    ensures AsSingleFunctionModule(e, name, argTypes).Some?
    ensures var m := AsSingleFunctionModule(e, name, argTypes).value;
            && |m.codes| == 1
            && exists used: nat :: used <= NumLocals(e) && SingleAssignment(|argTypes|, used, m.codes[0].body)
  {
    hide AsSingleFunctionModule;
    var f, op, _, m := ModuleShape(e, name, argTypes);
    var f0 := Start(e, argTypes);
    StartOk(e, argTypes);
    EmitOk(f0, e);
    EmitAssignsOnce(f0, e);
    if op.Local? { SettledIsUsed(f, op); }
    ReadAssignsOnce(|argTypes|, Used(f), f.code, PushInstr(op));
    ReadAssignsOnce(|argTypes|, Used(f), f.code + [PushInstr(op)], End);
    var used := Used(f);
    assert used <= NumLocals(e) && SingleAssignment(|argTypes|, used, m.codes[0].body);
  }
}
