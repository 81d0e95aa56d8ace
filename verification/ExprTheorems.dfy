/** What compiled expressions do: the module tables stay interned, locals are assigned once,
    emission never panics in a single-function module, and the code means what the expression
    means. */
module ExprTheorems {
  import opened Wrappers
  import opened Arithmetic
  import opened WasmMachine
  import opened ExprCompiler

  // ---------- interning ----------

  function ImportKey(m: Mod, i: nat): (string, string, nat)
    requires i < |m.imports| && m.imports[i].typeIndex < |m.types|
  {
    (m.imports[i].moduleName, m.imports[i].name, m.types[m.imports[i].typeIndex].params)
  }

  ghost predicate TypesOk(types: seq<FuncType>, refs: map<(nat, nat), nat>) {
    && (forall k :: k in refs ==> refs[k] < |types| && types[refs[k]] == FuncType(k.0, k.1))
    && (forall i :: 0 <= i < |types| ==> (types[i].params, types[i].results) in refs && refs[(types[i].params, types[i].results)] == i)
  }

  ghost predicate ImportsOk(m: Mod) {
    && (forall i :: 0 <= i < |m.imports| ==>
          && m.imports[i].typeIndex < |m.types| && m.types[m.imports[i].typeIndex].results == 1
          && ImportKey(m, i) in m.importRefs && m.importRefs[ImportKey(m, i)] == i)
    && (forall k :: k in m.importRefs ==> m.importRefs[k] < |m.imports| && ImportKey(m, m.importRefs[k]) == k)
  }

  /** The interning tables and the sections are inverse to each other. */
  ghost predicate ModOk(m: Mod) {
    TypesOk(m.types, m.typeRefs) && ImportsOk(m) && |m.funcs| == |m.codes|
  }

  /** The tables only grow, so the indices handed out stay right. */
  ghost predicate ModGrows(m: Mod, m': Mod) {
    m.types <= m'.types && m.imports <= m'.imports && m'.funcs == m.funcs && m'.codes == m.codes && m'.exports == m.exports
  }

  lemma NewTypeOk(types: seq<FuncType>, refs: map<(nat, nat), nat>, arity: nat, ret: nat)
    requires TypesOk(types, refs) && (arity, ret) !in refs
    ensures TypesOk(types + [FuncType(arity, ret)], refs[(arity, ret) := |types|])
  {
  }

  lemma MoreTypesOk(m: Mod, m': Mod)
    requires ImportsOk(m) && m.types <= m'.types && m'.imports == m.imports && m'.importRefs == m.importRefs
    ensures ImportsOk(m')
  {
    forall i | 0 <= i < |m.imports| ensures m'.imports[i].typeIndex < |m'.types| && ImportKey(m', i) == ImportKey(m, i) {
      assert m'.types[m.imports[i].typeIndex] == m.types[m.imports[i].typeIndex];
    }
  }

  lemma GetFnTypeInterns(m: Mod, arity: nat, ret: nat)
    requires ModOk(m)
    ensures var (m', ty) := GetFnType(m, arity, ret);
            && ModOk(m') && ModGrows(m, m') && m'.imports == m.imports && m'.importRefs == m.importRefs
            && ty < |m'.types| && m'.types[ty] == FuncType(arity, ret)
            && GetFnType(m', arity, ret) == (m', ty)
  {
    hide ImportsOk;
    if (arity, ret) !in m.typeRefs {
      NewTypeOk(m.types, m.typeRefs, arity, ret);
      MoreTypesOk(m, GetFnType(m, arity, ret).0);
    }
  }

  lemma NewImportOk(m: Mod, moduleName: string, name: string, arity: nat, ty: nat)
    requires ImportsOk(m) && ty < |m.types| && m.types[ty] == FuncType(arity, 1) && (moduleName, name, arity) !in m.importRefs
    ensures var m' := m.(imports := m.imports + [Import(moduleName, name, ty)], importRefs := m.importRefs[(moduleName, name, arity) := |m.imports|]);
            ImportsOk(m') && ImportKey(m', |m.imports|) == (moduleName, name, arity)
  {
    var m' := m.(imports := m.imports + [Import(moduleName, name, ty)], importRefs := m.importRefs[(moduleName, name, arity) := |m.imports|]);
    forall i | 0 <= i < |m.imports| ensures ImportKey(m', i) == ImportKey(m, i) { }
  }

  lemma NewImport(m: Mod, moduleName: string, name: string, arity: nat)
    requires ModOk(m) && m.funcs == [] && (moduleName, name, arity) !in m.importRefs
    ensures var (m', id) := ImportFunc(m, moduleName, name, arity).value;
            && ModOk(m') && ModGrows(m, m')
            && id == |m.imports| && |m'.imports| == id + 1 && ImportKey(m', id) == (moduleName, name, arity)
            && (moduleName, name, arity) in m'.importRefs && m'.importRefs[(moduleName, name, arity)] == id
  {
    hide TypesOk, ImportsOk;
    GetFnTypeInterns(m, arity, 1);
    var (m1, ty) := GetFnType(m, arity, 1);
    NewImportOk(m1, moduleName, name, arity, ty);
  }

  /** Importing yields the one index that stands for the named function at that arity, now and
      in every later module; importing again changes nothing. */
  lemma ImportFuncInterns(m: Mod, moduleName: string, name: string, arity: nat)
    requires ModOk(m)
    ensures ImportFunc(m, moduleName, name, arity).Some? <==> m.funcs == []
    ensures m.funcs == [] ==>
              var (m', id) := ImportFunc(m, moduleName, name, arity).value;
              && ModOk(m') && ModGrows(m, m')
              && id < |m'.imports| && ImportKey(m', id) == (moduleName, name, arity)
              && ImportFunc(m', moduleName, name, arity) == Some((m', id))
              && (forall i :: 0 <= i < |m'.imports| && ImportKey(m', i) == (moduleName, name, arity) ==> i == id)
              && |m.imports| <= |m'.imports| <= |m.imports| + 1
  {
    if m.funcs == [] {
      if (moduleName, name, arity) !in m.importRefs {
        NewImport(m, moduleName, name, arity);
      }
      var (m', id) := ImportFunc(m, moduleName, name, arity).value;
      forall i | 0 <= i < |m'.imports| && ImportKey(m', i) == (moduleName, name, arity) ensures i == id {
        assert m'.importRefs[ImportKey(m', i)] == i;
      }
    }
  }

  // ---------- the state of a function emitter ----------

  function Slots(f: Func): nat { |f.args| + |f.locals| }

  function SlotAt(f: Func, k: nat): Slot
    requires k < Slots(f)
  {
    (f.args + f.locals)[k]
  }

  function Used(f: Func): nat { FirstFree(f.locals) }

  function Free(f: Func): nat { |f.locals| - FirstFree(f.locals) }

  ghost predicate FuncOk(f: Func) {
    && ModOk(f.mod) && f.mod.funcs == []
    && |f.args| == f.arity && |f.locals| == f.numLocals
    && (forall k :: 0 <= k < Slots(f) ==> SlotAt(f, k).index == k)
    && (forall k :: Used(f) <= k < |f.locals| ==> f.locals[k].tag.None?)
  }

  /** `f'` is `f` some emissions later. */
  ghost predicate Later(f: Func, f': Func) {
    && f'.arity == f.arity && f'.ret == f.ret && f'.numLocals == f.numLocals && f'.args == f.args
    && |f'.locals| == |f.locals| && Used(f) <= Used(f')
    && f'.locals[..Used(f)] == f.locals[..Used(f)]
    && f.code <= f'.code && ModGrows(f.mod, f'.mod)
  }

  /** An operand an expression returns: a constant, or a slot in use. */
  predicate Settled(f: Func, op: Operand) {
    match op
    case Local(k) => k < Slots(f) && SlotAt(f, k).tag.Some?
    case Const64(_) => true
    case _ => false
  }

  lemma SettledLater(f: Func, f': Func, op: Operand)
    requires FuncOk(f) && Later(f, f') && Settled(f, op)
    ensures Settled(f', op)
  {
    if op.Local? && op.index >= |f.args| {
      assert f'.locals[..Used(f)][op.index - |f.args|] == f.locals[..Used(f)][op.index - |f.args|];
    }
  }

  lemma AllocLocalOk(f: Func, ty: string)
    requires FuncOk(f)
    ensures AllocLocal(f, ty).Some? <==> Free(f) > 0
    ensures Free(f) > 0 ==>
              var (f', k) := AllocLocal(f, ty).value;
              && FuncOk(f') && Later(f, f') && k == f.arity + Used(f) && k < Slots(f)
              && f' == f.(locals := f.locals[Used(f) := Slot(k, Some(ty))])
              && Used(f') == Used(f) + 1
  {
    if Free(f) > 0 {
      var u := Used(f);
      assert SlotAt(f, f.arity + u) == f.locals[u];
      var locals' := f.locals[u := f.locals[u].(tag := Some(ty))];
      FirstFreeIs(locals', u + 1);
      var f' := f.(locals := locals');
      forall k | 0 <= k < Slots(f') ensures SlotAt(f', k).index == k {
        assert SlotAt(f, k).index == k;
      }
    }
  }

  function Pushed(f: Func, ops: seq<Operand>): seq<Instr>
    requires forall i :: 0 <= i < |ops| ==> ops[i] != StackTop
  {
    f.code + seq(|ops|, i requires 0 <= i < |ops| => PushInstr(ops[i]))
  }

  lemma {:induction false} PushAllIs(f: Func, ops: seq<Operand>)
    requires forall i :: 0 <= i < |ops| ==> ops[i] != StackTop
    ensures PushAll(f, ops) == Some(f.(code := Pushed(f, ops)))
    decreases |ops|
  {
    if ops != [] {
      PushAllIs(f, ops[..|ops| - 1]);
      assert Pushed(f, ops) == Pushed(f, ops[..|ops| - 1]) + [PushInstr(ops[|ops| - 1])];
    } else {
      assert Pushed(f, ops) == f.code;
    }
  }

  /** The value on top of the stack may stand for the first operand, which then needs no push,
      and for no other. */
  lemma {:induction false} StackTopExactly(f: Func, ops: seq<Operand>)
    ensures PushAll(f, ops).Some? <==> forall i :: 0 < i < |ops| ==> ops[i] != StackTop
    ensures PushAll(f, ops).Some? && ops != [] && ops[0] == StackTop ==> PushAll(f, ops) == Some(f.(code := Pushed(f, ops[1..])))
    decreases |ops|
  {
    if ops != [] {
      var rest, op := ops[..|ops| - 1], ops[|ops| - 1];
      StackTopExactly(f, rest);
      assert forall i :: 0 < i < |ops| ==> ops[i] == if i < |rest| then rest[i] else op;
      if PushAll(f, ops).Some? && ops[0] == StackTop {
        if |ops| > 1 {
          assert rest[0] == StackTop && ops[1..] == rest[1..] + [op];
          assert Pushed(f, ops[1..]) == Pushed(f, rest[1..]) + [PushInstr(op)];
        } else {
          assert Pushed(f, ops[1..]) == f.code;
        }
      }
    }
  }

  function CallCode(f: Func, ops: seq<Operand>, id: nat): seq<Instr>
    requires forall i :: 0 <= i < |ops| ==> ops[i] != StackTop
  {
    Pushed(f, ops) + [Call(id)]
  }

  ghost predicate AllSettled(f: Func, ops: seq<Operand>) {
    forall i :: 0 <= i < |ops| ==> Settled(f, ops[i])
  }

  lemma SameSlots(f: Func, f1: Func)
    requires FuncOk(f) && f1.args == f.args && f1.locals == f.locals && f1.arity == f.arity && f1.numLocals == f.numLocals
    requires ModOk(f1.mod) && f1.mod.funcs == []
    ensures FuncOk(f1)
  {
    forall k | 0 <= k < Slots(f1) ensures SlotAt(f1, k).index == k {
      assert SlotAt(f1, k) == SlotAt(f, k);
    }
  }

  lemma CallFnIs(f: Func, fn: HostFn, ops: seq<Operand>)
    requires FuncOk(f) && |ops| == |fn.params| && AllSettled(f, ops)
    ensures ImportFunc(f.mod, fn.moduleName, fn.name, |fn.params|).Some?
    ensures var (m, id) := ImportFunc(f.mod, fn.moduleName, fn.name, |fn.params|).value;
            && CallFn(f, fn, ops) == Some(f.(mod := m, code := CallCode(f, ops, id)))
            && FuncOk(f.(mod := m, code := CallCode(f, ops, id)))
            && ModGrows(f.mod, m)
  {
    ImportFuncInterns(f.mod, fn.moduleName, fn.name, |fn.params|);
    var (m, id) := ImportFunc(f.mod, fn.moduleName, fn.name, |fn.params|).value;
    PushAllIs(f.(mod := m), ops);
    SameSlots(f, f.(mod := m, code := CallCode(f, ops, id)));
  }

  /** A call takes one local; it panics only for want of one. */
  lemma CallAndStoreOk(f: Func, fn: HostFn, ops: seq<Operand>)
    requires FuncOk(f) && |ops| == |fn.params| && AllSettled(f, ops)
    ensures CallAndStore(f, fn, ops).Some? <==> Free(f) > 0
    ensures Free(f) > 0 ==>
              var (f', op) := CallAndStore(f, fn, ops).value;
              var (m, id) := ImportFunc(f.mod, fn.moduleName, fn.name, |fn.params|).value;
              var k := f.arity + Used(f);
              && FuncOk(f') && Later(f, f') && Settled(f', op) && op == Local(k) && k < Slots(f)
              && f'.mod == m && Used(f') == Used(f) + 1
              && f'.locals == f.locals[Used(f) := Slot(k, Some(fn.result))]
              && f'.code == CallCode(f, ops, id) + [LocalSet(k)]
  {
    hide ModOk, CallFn, ImportFunc;
    CallFnIs(f, fn, ops);
    var f1 := CallFn(f, fn, ops).value;
    AllocLocalOk(f1, fn.result);
    if Free(f) > 0 {
      var (f2, k) := AllocLocal(f1, fn.result).value;
      SameSlots(f2, Emitted(f2, LocalSet(k)));
      assert SlotAt(f2, k) == f2.locals[Used(f)];
    }
  }

  lemma {:induction false} MatchingMember(slots: seq<Slot>, ty: string, k: nat)
    ensures k in Matching(slots, ty) <==> Slot(k, Some(ty)) in slots
    decreases |slots|
  {
    if slots != [] {
      MatchingMember(slots[..|slots| - 1], ty, k);
      assert slots == slots[..|slots| - 1] + [slots[|slots| - 1]];
    }
  }

  lemma ChosenIsSettled(f: Func, ty: string, index: u8)
    requires FuncOk(f) && Slots(f) > 0 && ChooseLocal(f, ty, index).Some?
    ensures ChooseLocal(f, ty, index).value < Slots(f)
    ensures SlotAt(f, ChooseLocal(f, ty, index).value).tag == Some(ty)
  {
    var k := ChooseLocal(f, ty, index).value;
    MatchingMember(f.args + f.locals, ty, k);
    var j :| 0 <= j < Slots(f) && (f.args + f.locals)[j] == Slot(k, Some(ty));
    assert SlotAt(f, j).index == j;
  }

  lemma LaterSelf(f: Func)
    ensures Later(f, f)
  {
  }

  lemma LaterTrans(f: Func, f1: Func, f2: Func)
    requires Later(f, f1) && Later(f1, f2)
    ensures Later(f, f2)
  {
    assert f2.locals[..Used(f)] == f2.locals[..Used(f1)][..Used(f)];
    assert f1.locals[..Used(f)] == f1.locals[..Used(f1)][..Used(f)];
  }

  // ---------- local allocation ----------

  /** Emission keeps the tables in order, returns a constant or a slot in use, and allocates at
      most as many locals as were announced. */
  lemma {:induction false} EmitOk(f: Func, e: Expr)
    requires FuncOk(f) && Applicable(e) && Emit(f, e).Some?
    ensures var (f', op) := Emit(f, e).value;
            FuncOk(f') && Later(f, f') && Settled(f', op) && Used(f') <= Used(f) + NumLocals(e)
    decreases e
  {
    match e
    case Const(_, _) => LaterSelf(f);
    case New(fn, index) =>
      if ChooseLocal(f, fn.result, index).Some? {
        ChosenIsSettled(f, fn.result, index);
        LaterSelf(f);
      } else {
        CallAndStoreOk(f, fn, []);
      }
    case Sub(_, inner) => EmitOk(f, inner);
    case Apply(fn, args) =>
      EmitAllOk(f, args);
      var (f1, ops) := EmitAll(f, args).value;
      CallAndStoreOk(f1, fn, ops);
      LaterTrans(f, f1, Emit(f, e).value.0);
  }

  lemma {:induction false} EmitAllOk(f: Func, args: seq<Expr>)
    requires FuncOk(f) && (forall i :: 0 <= i < |args| ==> Applicable(args[i])) && EmitAll(f, args).Some?
    ensures var (f', ops) := EmitAll(f, args).value;
            FuncOk(f') && Later(f, f') && AllSettled(f', ops) && Used(f') <= Used(f) + NumLocalsAll(args)
    decreases args
  {
    if args == [] {
      LaterSelf(f);
    } else {
      EmitAllOk(f, args[..|args| - 1]);
      var (f1, ops) := EmitAll(f, args[..|args| - 1]).value;
      EmitOk(f1, args[|args| - 1]);
      var (f2, op) := Emit(f1, args[|args| - 1]).value;
      LaterTrans(f, f1, f2);
      forall i | 0 <= i < |ops| ensures Settled(f2, ops[i]) {
        SettledLater(f1, f2, ops[i]);
      }
    }
  }

  /** With the announced number of locals free, emission does not panic. */
  lemma {:induction false} EmitNeverPanics(f: Func, e: Expr)
    requires FuncOk(f) && Applicable(e) && NumLocals(e) <= Free(f)
    ensures Emit(f, e).Some?
    decreases e
  {
    match e
    case Const(_, _) =>
    case New(fn, index) =>
      CallAndStoreOk(f, fn, []);
    case Sub(_, inner) => EmitNeverPanics(f, inner);
    case Apply(fn, args) =>
      EmitAllNeverPanics(f, args);
      EmitAllOk(f, args);
      var (f1, ops) := EmitAll(f, args).value;
      CallAndStoreOk(f1, fn, ops);
  }

  lemma {:induction false} EmitAllNeverPanics(f: Func, args: seq<Expr>)
    requires FuncOk(f) && (forall i :: 0 <= i < |args| ==> Applicable(args[i])) && NumLocalsAll(args) <= Free(f)
    ensures EmitAll(f, args).Some?
    decreases args
  {
    if args != [] {
      EmitAllNeverPanics(f, args[..|args| - 1]);
      EmitAllOk(f, args[..|args| - 1]);
      EmitNeverPanics(EmitAll(f, args[..|args| - 1]).value.0, args[|args| - 1]);
    }
  }

  // ---------- single assignment ----------

  /** The code writes exactly the locals in use, each once, in order of allocation, and reads
      a local only after its write. */
  ghost predicate SingleAssignment(arity: nat, used: nat, code: seq<Instr>) {
    && (forall p :: 0 <= p < |code| && code[p].LocalSet? ==> arity <= code[p].index < arity + used)
    && (forall k :: arity <= k < arity + used ==> LocalSet(k) in code)
    && (forall p, q :: 0 <= p < q < |code| && code[p].LocalSet? && code[q].LocalSet? ==> code[p].index < code[q].index)
    && (forall p :: 0 <= p < |code| && code[p].LocalGet? && code[p].index >= arity ==> LocalSet(code[p].index) in code[..p])
  }

  lemma ReadAssignsOnce(arity: nat, used: nat, code: seq<Instr>, i: Instr)
    requires SingleAssignment(arity, used, code) && !i.LocalSet?
    requires i.LocalGet? ==> i.index < arity + used
    ensures SingleAssignment(arity, used, code + [i])
  {
    var code' := code + [i];
    forall k | arity <= k < arity + used ensures LocalSet(k) in code' {
      assert LocalSet(k) in code;
    }
    forall p | 0 <= p < |code'| && code'[p].LocalGet? && code'[p].index >= arity
      ensures LocalSet(code'[p].index) in code'[..p]
    {
      assert code'[..p] == code[..p];
    }
  }

  lemma SettledIsUsed(f: Func, op: Operand)
    requires FuncOk(f) && Settled(f, op) && op.Local?
    ensures op.index < f.arity + Used(f)
  {
    if op.index >= f.arity {
      assert SlotAt(f, op.index) == f.locals[op.index - f.arity];
    }
  }

  lemma {:induction false} PushesAssignOnce(f: Func, ops: seq<Operand>)
    requires FuncOk(f) && AllSettled(f, ops) && SingleAssignment(f.arity, Used(f), f.code)
    ensures SingleAssignment(f.arity, Used(f), Pushed(f, ops))
    decreases |ops|
  {
    if ops == [] {
      assert Pushed(f, ops) == f.code;
    } else {
      var op := ops[|ops| - 1];
      PushesAssignOnce(f, ops[..|ops| - 1]);
      if op.Local? { SettledIsUsed(f, op); }
      ReadAssignsOnce(f.arity, Used(f), Pushed(f, ops[..|ops| - 1]), PushInstr(op));
      assert Pushed(f, ops) == Pushed(f, ops[..|ops| - 1]) + [PushInstr(op)];
    }
  }

  lemma SetAssignsOnce(arity: nat, used: nat, code: seq<Instr>)
    requires SingleAssignment(arity, used, code)
    ensures SingleAssignment(arity, used + 1, code + [LocalSet(arity + used)])
  {
    var code' := code + [LocalSet(arity + used)];
    forall k | arity <= k < arity + used + 1 ensures LocalSet(k) in code' {
      if k < arity + used { assert LocalSet(k) in code; } else { assert code'[|code|] == LocalSet(k); }
    }
    forall p | 0 <= p < |code'| && code'[p].LocalGet? && code'[p].index >= arity
      ensures LocalSet(code'[p].index) in code'[..p]
    {
      assert code'[..p] == code[..p];
    }
  }

  lemma CallAssignsOnce(f: Func, fn: HostFn, ops: seq<Operand>)
    requires FuncOk(f) && |ops| == |fn.params| && AllSettled(f, ops) && CallAndStore(f, fn, ops).Some?
    requires SingleAssignment(f.arity, Used(f), f.code)
    ensures var f' := CallAndStore(f, fn, ops).value.0;
            SingleAssignment(f.arity, Used(f'), f'.code)
  {
    CallAndStoreOk(f, fn, ops);
    var (_, id) := ImportFunc(f.mod, fn.moduleName, fn.name, |fn.params|).value;
    PushesAssignOnce(f, ops);
    ReadAssignsOnce(f.arity, Used(f), Pushed(f, ops), Call(id));
    SetAssignsOnce(f.arity, Used(f), CallCode(f, ops, id));
  }

  /** Every local is written exactly once, before any read. */
  lemma {:induction false} EmitAssignsOnce(f: Func, e: Expr)
    requires FuncOk(f) && Applicable(e) && Emit(f, e).Some? && SingleAssignment(f.arity, Used(f), f.code)
    ensures var f' := Emit(f, e).value.0;
            SingleAssignment(f.arity, Used(f'), f'.code)
    decreases e
  {
    match e
    case Const(_, _) =>
    case New(fn, index) =>
      CallAndStoreOk(f, fn, []);
      if ChooseLocal(f, fn.result, index).None? { CallAssignsOnce(f, fn, []); }
    case Sub(_, inner) => EmitAssignsOnce(f, inner);
    case Apply(fn, args) =>
      EmitAllAssignOnce(f, args);
      EmitAllOk(f, args);
      var (f1, ops) := EmitAll(f, args).value;
      CallAndStoreOk(f1, fn, ops);
      CallAssignsOnce(f1, fn, ops);
  }

  lemma {:induction false} EmitAllAssignOnce(f: Func, args: seq<Expr>)
    requires FuncOk(f) && (forall i :: 0 <= i < |args| ==> Applicable(args[i])) && EmitAll(f, args).Some?
    requires SingleAssignment(f.arity, Used(f), f.code)
    ensures var f' := EmitAll(f, args).value.0;
            SingleAssignment(f.arity, Used(f'), f'.code)
    decreases args
  {
    if args != [] {
      EmitAllAssignOnce(f, args[..|args| - 1]);
      EmitAllOk(f, args[..|args| - 1]);
      EmitAssignsOnce(EmitAll(f, args[..|args| - 1]).value.0, args[|args| - 1]);
    }
  }

  // ---------- the number of locals ----------

  /** Nothing in the expression may take an existing value. */
  predicate NeverPicks(e: Expr)
    decreases e
  {
    match e
    case Const(_, _) => true
    case New(_, _) => false
    case Sub(_, inner) => NeverPicks(inner)
    case Apply(_, args) => forall i :: 0 <= i < |args| ==> NeverPicks(args[i])
  }

  /** Then it takes all the locals announced. */
  lemma {:induction false} EmitTakesAll(f: Func, e: Expr)
    requires FuncOk(f) && Applicable(e) && NeverPicks(e) && Emit(f, e).Some?
    ensures Used(Emit(f, e).value.0) == Used(f) + NumLocals(e)
    decreases e
  {
    match e
    case Const(_, _) =>
    case Sub(_, inner) => EmitTakesAll(f, inner);
    case Apply(fn, args) =>
      EmitAllOk(f, args);
      EmitAllTakesAll(f, args);
      CallAndStoreOk(EmitAll(f, args).value.0, fn, EmitAll(f, args).value.1);
  }

  lemma {:induction false} EmitAllTakesAll(f: Func, args: seq<Expr>)
    requires FuncOk(f) && (forall i :: 0 <= i < |args| ==> Applicable(args[i]) && NeverPicks(args[i])) && EmitAll(f, args).Some?
    ensures Used(EmitAll(f, args).value.0) == Used(f) + NumLocalsAll(args)
    decreases args
  {
    if args != [] {
      var rest := args[..|args| - 1];
      EmitAllOk(f, rest);
      EmitAllTakesAll(f, rest);
      EmitTakesAll(EmitAll(f, rest).value.0, args[|args| - 1]);
    }
  }

  /** And a value made for want of an existing one takes the one announced. */
  lemma NewTakesOne(f: Func, fn: HostFn, index: u8)
    requires FuncOk(f) && fn.params == [] && Emit(f, New(fn, index)).Some? && Matching(f.args + f.locals, fn.result) == []
    ensures Used(Emit(f, New(fn, index)).value.0) == Used(f) + NumLocals(New(fn, index))
  {
    CallAndStoreOk(f, fn, []);
  }

  // ---------- constants ----------

  /** A signed literal stands for itself, a payload for the one 64-bit value with the same bits. */
  lemma LiteralIsCast(l: Literal)
    ensures l.Signed? ==> LiteralValue(l) == l.i
    ensures l.Payload? ==> (LiteralValue(l) - l.u) % 0x1_0000_0000_0000_0000 == 0
  {
  }
}
