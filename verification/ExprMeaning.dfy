/** Compiler correctness: the code emitted for an expression makes the calls the expression
    makes, and its operand denotes the expression's value. */
module ExprMeaning {
  import opened Wrappers
  import opened Arithmetic
  import opened WasmMachine
  import opened ExprCompiler
  import opened ExprTheorems

  // ---------- the values a function emitter stands for ----------

  function At(vals: seq<i64>, k: nat): i64 {
    if k < |vals| then vals[k] else 0
  }

  /** What is stored in the slots in use, in order. */
  function PoolOf(slots: seq<Slot>, vals: seq<i64>): seq<Stored> {
    if slots == [] then []
    else
      var s := slots[|slots| - 1];
      PoolOf(slots[..|slots| - 1], vals) + if s.tag.Some? then [Stored(s.tag.value, At(vals, s.index))] else []
  }

  function Pool(f: Func, vals: seq<i64>): seq<Stored> {
    PoolOf(f.args + f.locals, vals)
  }

  function Denote(op: Operand, vals: seq<i64>): i64 {
    match op
    case Local(k) => At(vals, k)
    case Const64(v) => v
    case _ => 0
  }

  function DenoteAll(ops: seq<Operand>, vals: seq<i64>): seq<i64> {
    seq<i64>(|ops|, i requires 0 <= i < |ops| => Denote(ops[i], vals))
  }

  lemma {:induction false} PoolFree(slots: seq<Slot>, more: seq<Slot>, vals: seq<i64>)
    requires forall k :: 0 <= k < |more| ==> more[k].tag.None?
    ensures PoolOf(slots + more, vals) == PoolOf(slots, vals)
    decreases |more|
  {
    if more == [] {
      assert slots + more == slots;
    } else {
      PoolFree(slots, more[..|more| - 1], vals);
      assert (slots + more)[..|slots + more| - 1] == slots + more[..|more| - 1];
    }
  }

  lemma {:induction false} PoolSame(slots: seq<Slot>, vals: seq<i64>, vals': seq<i64>)
    requires forall k :: 0 <= k < |slots| && slots[k].tag.Some? ==> At(vals', slots[k].index) == At(vals, slots[k].index)
    ensures PoolOf(slots, vals') == PoolOf(slots, vals)
    decreases |slots|
  {
    if slots != [] { PoolSame(slots[..|slots| - 1], vals, vals'); }
  }

  lemma LowerSlots(f: Func)
    requires FuncOk(f)
    ensures forall j :: 0 <= j < f.arity + Used(f) ==> (f.args + f.locals[..Used(f)])[j].index < f.arity + Used(f)
  {
    forall j | 0 <= j < f.arity + Used(f) ensures (f.args + f.locals[..Used(f)])[j].index < f.arity + Used(f) {
      assert (f.args + f.locals[..Used(f)])[j] == SlotAt(f, j);
    }
  }

  /** Free locals hold nothing. */
  lemma PoolInUse(f: Func, n: nat, vals: seq<i64>)
    requires n <= |f.locals| && forall k :: n <= k < |f.locals| ==> f.locals[k].tag.None?
    ensures Pool(f, vals) == PoolOf(f.args + f.locals[..n], vals)
  {
    PoolFree(f.args + f.locals[..n], f.locals[n..], vals);
    assert f.args + f.locals[..n] + f.locals[n..] == f.args + f.locals;
  }

  lemma PoolSnoc(slots: seq<Slot>, k: nat, ty: string, vals: seq<i64>)
    ensures PoolOf(slots + [Slot(k, Some(ty))], vals) == PoolOf(slots, vals) + [Stored(ty, At(vals, k))]
  {
    assert (slots + [Slot(k, Some(ty))])[..|slots|] == slots;
  }

  /** Storing into the next free local adds the value to the end of the pool. */
  lemma PoolStore(f: Func, f': Func, ty: string, vals: seq<i64>, v: i64)
    requires FuncOk(f) && Free(f) > 0 && |vals| == Slots(f)
    requires f'.args == f.args && f'.locals == f.locals[Used(f) := Slot(f.arity + Used(f), Some(ty))]
    ensures Pool(f', vals[f.arity + Used(f) := v]) == Pool(f, vals) + [Stored(ty, v)]
  {
    hide ModOk, Pool, PoolOf;
    var u := Used(f);
    var k := f.arity + u;
    var before := f.args + f.locals[..u];
    var vals' := vals[k := v];
    PoolInUse(f, u, vals);
    PoolInUse(f', u + 1, vals');
    assert f'.args + f'.locals[..u + 1] == before + [Slot(k, Some(ty))];
    PoolSnoc(before, k, ty, vals');
    LowerSlots(f);
    PoolSame(before, vals, vals');
  }

  lemma {:induction false} PoolMatches(slots: seq<Slot>, ty: string, vals: seq<i64>)
    ensures |OfType(PoolOf(slots, vals), ty)| == |Matching(slots, ty)|
    ensures forall k :: 0 <= k < |Matching(slots, ty)| ==> OfType(PoolOf(slots, vals), ty)[k] == At(vals, Matching(slots, ty)[k])
    decreases |slots|
  {
    if slots != [] {
      var rest, s := slots[..|slots| - 1], slots[|slots| - 1];
      PoolMatches(rest, ty, vals);
      if s.tag.Some? {
        var p := PoolOf(rest, vals);
        assert (p + [Stored(s.tag.value, At(vals, s.index))])[..|p|] == p;
      } else {
        assert PoolOf(slots, vals) == PoolOf(rest, vals);
      }
    }
  }

  /** The slots in use still hold what they held. */
  ghost predicate Keeps(f: Func, vals: seq<i64>, vals': seq<i64>) {
    && |vals'| == |vals|
    && forall k :: 0 <= k < Slots(f) && SlotAt(f, k).tag.Some? ==> At(vals', k) == At(vals, k)
  }

  lemma KeepsTrans(f: Func, f1: Func, v0: seq<i64>, v1: seq<i64>, v2: seq<i64>)
    requires FuncOk(f) && FuncOk(f1) && Later(f, f1) && Keeps(f, v0, v1) && Keeps(f1, v1, v2)
    ensures Keeps(f, v0, v2)
  {
    forall k | 0 <= k < Slots(f) && SlotAt(f, k).tag.Some? ensures At(v2, k) == At(v0, k) {
      SettledLater(f, f1, Local(k));
    }
  }

  lemma DenoteKept(f: Func, vals: seq<i64>, vals': seq<i64>, ops: seq<Operand>)
    requires AllSettled(f, ops) && Keeps(f, vals, vals')
    ensures DenoteAll(ops, vals') == DenoteAll(ops, vals)
  {
    forall i | 0 <= i < |ops| ensures Denote(ops[i], vals') == Denote(ops[i], vals) {
      assert Settled(f, ops[i]);
    }
  }

  // ---------- a call ----------

  /** `m` is the module emitted into so far, `M` the finished one. */
  ghost predicate Covers(M: Mod, m: Mod) {
    m.types <= M.types && m.imports <= M.imports
  }

  lemma PushExec(M: Mod, host: Host, c0: Config, code: seq<Instr>, op: Operand, c: Config)
    requires Exec(M, host, code, c0) == c && c.Running?
    requires op.Const64? || (op.Local? && op.index < |c.locals|)
    ensures Exec(M, host, code + [PushInstr(op)], c0) == c.(stack := c.stack + [V64(Denote(op, c.locals))])
  {
    ExecSnoc(M, host, code, PushInstr(op), c0);
  }

  lemma ValuesSnoc(stack: seq<Value>, ops: seq<Operand>, vals: seq<i64>)
    requires ops != []
    ensures (stack + Values(DenoteAll(ops[..|ops| - 1], vals))) + [V64(Denote(ops[|ops| - 1], vals))] == stack + Values(DenoteAll(ops, vals))
  {
  }

  lemma {:induction false} PushesExec(M: Mod, host: Host, c0: Config, f: Func, ops: seq<Operand>, c: Config)
    requires AllSettled(f, ops)
    requires Exec(M, host, f.code, c0) == c && c.Running? && |c.locals| == Slots(f)
    ensures Exec(M, host, Pushed(f, ops), c0) == c.(stack := c.stack + Values(DenoteAll(ops, c.locals)))
    decreases |ops|
  {
    hide ExecCall, ExecInstr, Values;
    if ops == [] {
      assert Pushed(f, ops) == f.code;
      NoValues(c.stack, c.locals);
    } else {
      var rest, op := ops[..|ops| - 1], ops[|ops| - 1];
      PushesExec(M, host, c0, f, rest, c);
      assert Pushed(f, ops) == Pushed(f, rest) + [PushInstr(op)];
      assert Settled(f, op);
      PushExec(M, host, c0, Pushed(f, rest), op, c.(stack := c.stack + Values(DenoteAll(rest, c.locals))));
      ValuesSnoc(c.stack, ops, c.locals);
    }
  }

  lemma NoValues(stack: seq<Value>, vals: seq<i64>)
    ensures stack + Values(DenoteAll([], vals)) == stack
  {
  }

  lemma UnwrapValues(vs: seq<i64>)
    ensures AllI64(Values(vs)) && Unwrap(Values(vs)) == vs
  {
  }

  /** A `Call` reaches the function its index was handed out for, with the pushed values. */
  lemma CallExec(M: Mod, host: Host, m: Mod, id: nat, moduleName: string, name: string, vs: seq<i64>, stack: seq<Value>, c: Config)
    requires ModOk(m) && Covers(M, m) && id < |m.imports| && ImportKey(m, id) == (moduleName, name, |vs|)
    requires c.Running? && c.stack == stack + Values(vs)
    ensures var call := HostCall(moduleName, name, vs);
            ExecInstr(M, host, Call(id), c) ==
              match host(c.calls, call)
              case None => Trapped(c.calls + [call])
              case Some(v) => Running(c.locals, stack + [V64(v)], c.calls + [call])
  {
    assert M.imports[id] == m.imports[id];
    assert M.types[m.imports[id].typeIndex] == m.types[m.imports[id].typeIndex];
    assert c.stack[|stack|..] == Values(vs) && c.stack[..|stack|] == stack;
    UnwrapValues(vs);
  }

  ghost predicate Agrees(c: Config, f: Func, f': Func, op: Operand, vals: seq<i64>, stack: seq<Value>, r: Meaning) {
    match r
    case Traps(calls) => c == Trapped(calls)
    case Evaluates(v, pool, calls) =>
      && c.Running? && c.stack == stack && c.calls == calls && |c.locals| == Slots(f)
      && Keeps(f, vals, c.locals) && Pool(f', c.locals) == pool && Denote(op, c.locals) == v
  }

  lemma CallMeans(M: Mod, host: Host, c0: Config, f: Func, fn: HostFn, ops: seq<Operand>, c: Config)
    requires FuncOk(f) && |ops| == |fn.params| && AllSettled(f, ops)
    requires Exec(M, host, f.code, c0) == c && c.Running? && |c.locals| == Slots(f)
    requires CallAndStore(f, fn, ops).Some? && Covers(M, CallAndStore(f, fn, ops).value.0.mod)
    ensures var (f', op) := CallAndStore(f, fn, ops).value;
            Agrees(Exec(M, host, f'.code, c0), f, f', op, c.locals, c.stack,
                   CallHost(host, fn, DenoteAll(ops, c.locals), Pool(f, c.locals), c.calls))
  {
    hide ImportFunc, Eval;
    CallAndStoreOk(f, fn, ops);
    CallFnIs(f, fn, ops);
    ImportFuncInterns(f.mod, fn.moduleName, fn.name, |fn.params|);
    var (m, id) := ImportFunc(f.mod, fn.moduleName, fn.name, |fn.params|).value;
    var (f', op) := CallAndStore(f, fn, ops).value;
    var vs := DenoteAll(ops, c.locals);
    PushesExec(M, host, c0, f, ops, c);
    var c1 := Exec(M, host, Pushed(f, ops), c0);
    ExecSnoc(M, host, Pushed(f, ops), Call(id), c0);
    CallExec(M, host, m, id, fn.moduleName, fn.name, vs, c.stack, c1);
    StoreMeans(M, host, c0, f, f', fn, vs, c, CallCode(f, ops, id));
  }

  lemma StoreExec(M: Mod, host: Host, c0: Config, code: seq<Instr>, k: nat, c: Config, v: i64)
    requires Exec(M, host, code, c0) == c && c.Running? && k < |c.locals|
    requires c.stack != [] && c.stack[|c.stack| - 1] == V64(v)
    ensures Exec(M, host, code + [LocalSet(k)], c0) == Running(c.locals[k := v], c.stack[..|c.stack| - 1], c.calls)
  {
    ExecSnoc(M, host, code, LocalSet(k), c0);
  }

  lemma StoreKeeps(f: Func, vals: seq<i64>, v: i64)
    requires FuncOk(f) && Free(f) > 0 && |vals| == Slots(f)
    ensures Keeps(f, vals, vals[f.arity + Used(f) := v])
  {
    hide ModOk;
    assert SlotAt(f, f.arity + Used(f)) == f.locals[Used(f)];
  }

  /** The answer goes to the next free local, out of the way of every slot in use. */
  lemma StoreMeans(M: Mod, host: Host, c0: Config, f: Func, f': Func, fn: HostFn, vs: seq<i64>, c: Config, code: seq<Instr>)
    requires FuncOk(f) && Free(f) > 0 && c.Running? && |c.locals| == Slots(f)
    requires f'.args == f.args && f'.locals == f.locals[Used(f) := Slot(f.arity + Used(f), Some(fn.result))]
    requires f'.code == code + [LocalSet(f.arity + Used(f))]
    requires Exec(M, host, code, c0) ==
               var call := HostCall(fn.moduleName, fn.name, vs);
               match host(c.calls, call)
               case None => Trapped(c.calls + [call])
               case Some(v) => Running(c.locals, c.stack + [V64(v)], c.calls + [call])
    ensures Agrees(Exec(M, host, f'.code, c0), f, f', Local(f.arity + Used(f)), c.locals, c.stack,
                   CallHost(host, fn, vs, Pool(f, c.locals), c.calls))
  {
    hide Exec, Keeps, Pool, ModOk, PoolOf;
    var k := f.arity + Used(f);
    var answer := host(c.calls, HostCall(fn.moduleName, fn.name, vs));
    var c1 := Exec(M, host, code, c0);
    if answer.Some? {
      StoreExec(M, host, c0, code, k, c1, answer.value);
      StoreKeeps(f, c.locals, answer.value);
      PoolStore(f, f', fn.result, c.locals, answer.value);
      assert c1.stack[..|c.stack|] == c.stack;
    } else {
      ExecStops(M, host, code, [LocalSet(k)], c0);
    }
  }

  // ---------- expressions ----------

  ghost predicate AllAgree(c: Config, f: Func, f': Func, ops: seq<Operand>, vals: seq<i64>, stack: seq<Value>, r: Meanings) {
    match r
    case TrapsAt(calls) => c == Trapped(calls)
    case EvaluateTo(vs, pool, calls) =>
      && c.Running? && c.stack == stack && c.calls == calls && |c.locals| == Slots(f)
      && Keeps(f, vals, c.locals) && Pool(f', c.locals) == pool && DenoteAll(ops, c.locals) == vs
  }

  lemma CoversEarlier(M: Mod, f: Func, f': Func)
    requires Later(f, f') && Covers(M, f'.mod)
    ensures Covers(M, f.mod)
  {
  }

  lemma StaysTrapped(M: Mod, host: Host, c0: Config, f: Func, f': Func)
    requires Later(f, f') && !Exec(M, host, f.code, c0).Running?
    ensures Exec(M, host, f'.code, c0) == Exec(M, host, f.code, c0)
  {
    ExecStops(M, host, f.code, f'.code[|f.code|..], c0);
    assert f'.code == f.code + f'.code[|f.code|..];
  }

  lemma AgreesFrom(c2: Config, f: Func, f1: Func, f': Func, op: Operand, vals: seq<i64>, vals1: seq<i64>, stack: seq<Value>, r: Meaning)
    requires FuncOk(f) && FuncOk(f1) && Later(f, f1) && Keeps(f, vals, vals1)
    requires Agrees(c2, f1, f', op, vals1, stack, r)
    ensures Agrees(c2, f, f', op, vals, stack, r)
  {
    if r.Evaluates? { KeepsTrans(f, f1, vals, vals1, c2.locals); }
  }

  lemma NewMeans(M: Mod, host: Host, c0: Config, f: Func, fn: HostFn, index: u8, c: Config)
    requires FuncOk(f) && fn.params == [] && Emit(f, New(fn, index)).Some? && Covers(M, Emit(f, New(fn, index)).value.0.mod)
    requires Exec(M, host, f.code, c0) == c && c.Running? && |c.locals| == Slots(f)
    ensures var (f', op) := Emit(f, New(fn, index)).value;
            Agrees(Exec(M, host, f'.code, c0), f, f', op, c.locals, c.stack,
                   Eval(host, Slots(f), New(fn, index), Pool(f, c.locals), c.calls))
  {
    hide Exec, PoolOf, OfType, Matching, ModOk, CallAndStore;
    PoolMatches(f.args + f.locals, fn.result, c.locals);
    if ChooseLocal(f, fn.result, index).None? {
      CallMeans(M, host, c0, f, fn, [], c);
      assert DenoteAll([], c.locals) == [];
    }
  }

  /** The call of an application, once its arguments have been emitted. */
  lemma ApplyMeans(M: Mod, host: Host, c0: Config, f: Func, f1: Func, fn: HostFn, ops: seq<Operand>, c: Config, r: Meanings)
    requires FuncOk(f) && FuncOk(f1) && Later(f, f1) && |ops| == |fn.params| && AllSettled(f1, ops)
    requires c.Running? && |c.locals| == Slots(f)
    requires CallAndStore(f1, fn, ops).Some? && Covers(M, CallAndStore(f1, fn, ops).value.0.mod)
    requires AllAgree(Exec(M, host, f1.code, c0), f, f1, ops, c.locals, c.stack, r)
    ensures var (f', op) := CallAndStore(f1, fn, ops).value;
            Agrees(Exec(M, host, f'.code, c0), f, f', op, c.locals, c.stack,
                   match r
                   case TrapsAt(calls) => Traps(calls)
                   case EvaluateTo(vs, pool, calls) => CallHost(host, fn, vs, pool, calls))
  {
    var (f', op) := CallAndStore(f1, fn, ops).value;
    CallAndStoreOk(f1, fn, ops);
    var c1 := Exec(M, host, f1.code, c0);
    if r.TrapsAt? {
      StaysTrapped(M, host, c0, f1, f');
    } else {
      CallMeans(M, host, c0, f1, fn, ops, c1);
      AgreesFrom(Exec(M, host, f'.code, c0), f, f1, f', op, c.locals, c1.locals, c.stack, CallHost(host, fn, r.values, r.pool, r.calls));
    }
  }

  /** One more argument. */
  lemma NextMeans(c2: Config, f: Func, f1: Func, f': Func, ops: seq<Operand>, op: Operand, vals: seq<i64>, c1: Config, stack: seq<Value>,
                  r: Meanings, m: Meaning)
    requires FuncOk(f) && FuncOk(f1) && Later(f, f1) && AllSettled(f1, ops)
    requires r.EvaluateTo? && AllAgree(c1, f, f1, ops, vals, stack, r)
    requires Agrees(c2, f1, f', op, c1.locals, stack, m)
    ensures AllAgree(c2, f, f', ops + [op], vals, stack,
                     match m
                     case Traps(calls) => TrapsAt(calls)
                     case Evaluates(v, pool, calls) => EvaluateTo(r.values + [v], pool, calls))
  {
    if m.Evaluates? {
      KeepsTrans(f, f1, vals, c1.locals, c2.locals);
      DenoteKept(f1, c1.locals, c2.locals, ops);
      assert DenoteAll(ops + [op], c2.locals) == DenoteAll(ops, c2.locals) + [Denote(op, c2.locals)];
    }
  }

  /** From any state the code so far leads to, the code emitted for an expression makes the
      host calls left-to-right evaluation makes, in that order and with those arguments, traps
      when it traps, leaves the operand stack as it was and every earlier value in place, and
      the operand returned denotes the value. */
  lemma {:induction false} EmitMeans(M: Mod, host: Host, c0: Config, f: Func, e: Expr, c: Config)
    requires FuncOk(f) && Applicable(e) && Emit(f, e).Some? && Covers(M, Emit(f, e).value.0.mod)
    requires Exec(M, host, f.code, c0) == c && c.Running? && |c.locals| == Slots(f)
    ensures var (f', op) := Emit(f, e).value;
            Agrees(Exec(M, host, f'.code, c0), f, f', op, c.locals, c.stack,
                   Eval(host, Slots(f), e, Pool(f, c.locals), c.calls))
    decreases e
  {
    match e
    case Const(_, _) =>
    case New(fn, index) => NewMeans(M, host, c0, f, fn, index, c);
    case Sub(_, inner) => EmitMeans(M, host, c0, f, inner, c);
    case Apply(fn, args) =>
      EmitAllOk(f, args);
      var (f1, ops) := EmitAll(f, args).value;
      CallAndStoreOk(f1, fn, ops);
      CoversEarlier(M, f1, Emit(f, e).value.0);
      EmitAllMean(M, host, c0, f, args, c);
      ApplyMeans(M, host, c0, f, f1, fn, ops, c, EvalAll(host, Slots(f), args, Pool(f, c.locals), c.calls));
  }

  lemma {:induction false} EmitAllMean(M: Mod, host: Host, c0: Config, f: Func, args: seq<Expr>, c: Config)
    requires FuncOk(f) && (forall i :: 0 <= i < |args| ==> Applicable(args[i]))
    requires EmitAll(f, args).Some? && Covers(M, EmitAll(f, args).value.0.mod)
    requires Exec(M, host, f.code, c0) == c && c.Running? && |c.locals| == Slots(f)
    ensures var (f', ops) := EmitAll(f, args).value;
            AllAgree(Exec(M, host, f'.code, c0), f, f', ops, c.locals, c.stack,
                     EvalAll(host, Slots(f), args, Pool(f, c.locals), c.calls))
    decreases args
  {
    if args == [] {
      assert DenoteAll([], c.locals) == [];
    } else {
      var rest, e := args[..|args| - 1], args[|args| - 1];
      EmitAllOk(f, rest);
      var (f1, ops) := EmitAll(f, rest).value;
      var (f', op) := Emit(f1, e).value;
      EmitOk(f1, e);
      CoversEarlier(M, f1, f');
      EmitAllMean(M, host, c0, f, rest, c);
      var r := EvalAll(host, Slots(f), rest, Pool(f, c.locals), c.calls);
      var c1 := Exec(M, host, f1.code, c0);
      if r.TrapsAt? {
        StaysTrapped(M, host, c0, f1, f');
      } else {
        EmitMeans(M, host, c0, f1, e, c1);
        NextMeans(Exec(M, host, f'.code, c0), f, f1, f', ops, op, c.locals, c1, c.stack, r,
                  Eval(host, Slots(f1), e, Pool(f1, c1.locals), c1.calls));
      }
    }
  }
}
