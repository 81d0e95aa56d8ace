/** The emitters as the source has them: a module emitter whose sections grow in place, and a
    function emitter that owns it. Every method is proved against the functions of
    ExprCompiler; a result of None is a panic, after which the state is of no interest. */
module SynthEmitters {
  import opened Wrappers
  import opened Arithmetic
  import opened WasmMachine
  import C = ExprCompiler

  class ModEmitter {
    var types: seq<FuncType>
    var typeRefs: map<(nat, nat), nat>
    var imports: seq<Import>
    var importRefs: map<(string, string, nat), nat>
    var funcs: seq<nat>
    var codes: seq<Code>
    var exports: seq<Export>

    function View(): Mod
      reads this
    {
      Mod(types, typeRefs, imports, importRefs, funcs, codes, exports)
    }

    constructor ()
      ensures View() == C.DEFAULT_MOD
    {
      types, typeRefs, imports, importRefs, funcs, codes := [], map[], [], map[], [], [];
      exports := [MemoryExport("memory", 0)];
    }

    method GetFnType(arity: nat, ret: nat) returns (ty: nat)
      modifies this
      ensures (View(), ty) == C.GetFnType(old(View()), arity, ret)
    {
      if (arity, ret) in typeRefs {
        ty := typeRefs[(arity, ret)];
      } else {
        ty := |types|;
        types := types + [FuncType(arity, ret)];
        typeRefs := typeRefs[(arity, ret) := ty];
      }
    }

    method ImportFunc(moduleName: string, name: string, arity: nat) returns (id: Option<nat>)
      modifies this
      ensures match C.ImportFunc(old(View()), moduleName, name, arity)
              case None => id == None
              case Some((m, k)) => View() == m && id == Some(k)
    {
      if funcs != [] { return None; }
      var key := (moduleName, name, arity);
      if key in importRefs {
        id := Some(importRefs[key]);
      } else {
        var importId := |imports|;
        var ty := GetFnType(arity, 1);
        imports := imports + [Import(moduleName, name, ty)];
        importRefs := importRefs[key := importId];
        id := Some(importId);
      }
    }

    method DefineFunc(arity: nat, ret: nat, code: Code) returns (id: Option<nat>)
      modifies this
      ensures match C.DefineFunc(old(View()), arity, ret, code)
              case None => id == None
              case Some((m, k)) => View() == m && id == Some(k)
    {
      var ty := GetFnType(arity, ret);
      if |funcs| != |codes| { return None; }
      var fid := |imports| + |funcs|;
      funcs := funcs + [ty];
      codes := codes + [code];
      id := Some(fid);
    }

    method ExportFunc(id: nat, name: string)
      modifies this
      ensures View() == C.ExportFunc(old(View()), id, name)
    {
      exports := exports + [FuncExport(name, id)];
    }
  }

  /** Allocates the first slot without a tag, in place. */
  method AllocSlot(slots: array<C.Slot>, ty: string) returns (r: Option<nat>)
    modifies slots
    ensures match C.AllocSlot(old(slots[..]), ty)
            case None => r == None && slots[..] == old(slots[..])
            case Some((s, k)) => r == Some(k) && slots[..] == s
  {
    var i := 0;
    while i < slots.Length
      invariant 0 <= i <= slots.Length
      invariant slots[..] == old(slots[..])
      invariant forall j :: 0 <= j < i ==> slots[..][j].tag.Some?
    {
      if slots[i].tag.None? {
        C.FirstFreeIs(slots[..], i);
        slots[i] := slots[i].(tag := Some(ty));
        return Some(slots[i].index);
      }
      i := i + 1;
    }
    C.FirstFreeIs(slots[..], i);
    r := None;
  }

  /** One pass over the slots: takes the match after `skip` others, or says how many to go. */
  method ChooseInOnePass(slots: seq<C.Slot>, ty: string, skip: nat) returns (r: Option<nat>, left: nat)
    ensures var found := C.Matching(slots, ty);
            if skip < |found| then r == Some(found[skip]) else r == None && left == skip - |found|
  {
    left := skip;
    var i := 0;
    while i < |slots|
      invariant 0 <= i <= |slots|
      invariant left == skip - |C.Matching(slots[..i], ty)|
    {
      assert slots[..i + 1][..i] == slots[..i];
      if slots[i].tag == Some(ty) {
        if left == 0 {
          MatchingPrefix(slots, ty, i + 1);
          return Some(slots[i].index), 0;
        }
        left := left - 1;
      }
      i := i + 1;
    }
    assert slots[..i] == slots;
    r := None;
  }

  predicate SameRemainder(a: nat, b: nat, size: nat) {
    size > 0 ==> a % size == b % size
  }

  lemma Remainder(a: nat, b: nat, size: nat)
    requires SameRemainder(a, b, size) && a < size
    ensures b % size == a
  {
  }

  class FuncEmitter {
    const modEmit: ModEmitter
    const arity: nat
    const ret: nat
    const numLocals: nat
    var code: seq<Instr>
    const args: array<C.Slot>
    const locals: array<C.Slot>

    function View(): C.Func
      reads this, modEmit, args, locals
    {
      C.Func(modEmit.View(), arity, ret, numLocals, code, args[..], locals[..])
    }

    /** Takes the module emitter over. */
    constructor (modEmit: ModEmitter, arity: nat, ret: nat, numLocals: nat)
      ensures View() == C.NewFunc(modEmit.View(), arity, ret, numLocals)
      ensures this.modEmit == modEmit && args != locals && fresh(args) && fresh(locals)
    {
      this.modEmit, this.arity, this.ret, this.numLocals := modEmit, arity, ret, numLocals;
      code := [];
      args := new C.Slot[arity](i => C.Slot(i, None));
      locals := new C.Slot[numLocals](i => C.Slot(arity + i, None));
      new;
      assert args[..] == C.FreshSlots(0, arity);
      assert locals[..] == C.FreshSlots(arity, numLocals);
    }

    method AllocArg(ty: string) returns (r: Option<nat>)
      requires args != locals
      modifies args
      ensures match C.AllocArg(old(View()), ty)
              case None => r == None
              case Some((f, k)) => View() == f && r == Some(k)
    {
      r := AllocSlot(args, ty);
    }

    method AllocLocal(ty: string) returns (r: Option<nat>)
      requires args != locals
      modifies locals
      ensures match C.AllocLocal(old(View()), ty)
              case None => r == None
              case Some((f, k)) => View() == f && r == Some(k)
    {
      r := AllocSlot(locals, ty);
    }

    method Insn(i: Instr)
      modifies this
      ensures View() == C.Emitted(old(View()), i)
    {
      code := code + [i];
    }

    method AllocAndStoreLocal(ty: string) returns (r: Option<nat>)
      requires args != locals
      modifies this, locals
      ensures match C.AllocAndStore(old(View()), ty)
              case None => r == None
              case Some((f, k)) => View() == f && r == Some(k)
    {
      r := AllocLocal(ty);
      if r.Some? { Insn(LocalSet(r.value)); }
    }

    /** Cycles through the arguments and then the locals allocated to the type, skipping as many
        as the index says, modulo the number of slots. */
    method MaybeChooseLocal(ty: string, index: u8) returns (r: Option<nat>)
      requires args.Length + locals.Length > 0
      ensures r == C.ChooseLocal(View(), ty, index)
    {
      var slots := args[..] + locals[..];
      var n := index % |slots|;
      var skip: nat := n;
      while true
        invariant SameRemainder(skip, n, |C.Matching(slots, ty)|)
        decreases skip
      {
        var before := skip;
        r, skip := ChooseInOnePass(slots, ty, skip);
        if r.Some? {
          Remainder(before, n, |C.Matching(slots, ty)|);
          return;
        }
        if skip == before { return; }
        OneLess(before, |C.Matching(slots, ty)|);
      }
    }

    method PushFull(op: C.Operand, first: bool) returns (ok: bool)
      modifies this
      ensures match C.Push(old(View()), op, first)
              case None => !ok
              case Some(f) => ok && View() == f
    {
      ok := op != C.StackTop || first;
      match op
      case StackTop =>
      case Local(k) => Insn(LocalGet(k));
      case Const64(v) => Insn(I64Const(v));
      case Const32(v) => Insn(I32Const(v));
    }

    /** The emitter generated for a host function: import, push the operands, call. */
    method CallFn(fn: C.HostFn, ops: seq<C.Operand>) returns (ok: bool)
      requires |ops| == |fn.params|
      modifies this, modEmit
      ensures match C.CallFn(old(View()), fn, ops)
              case None => !ok
              case Some(f) => ok && View() == f
    {
      var id := modEmit.ImportFunc(fn.moduleName, fn.name, |fn.params|);
      if id.None? { return false; }
      ghost var f1 := View();
      var i, first := 0, true;
      while i < |ops|
        invariant 0 <= i <= |ops| && (first <==> i == 0)
        invariant C.PushAll(f1, ops[..i]) == Some(View())
        invariant modEmit.View() == f1.mod
      {
        assert ops[..i + 1][..i] == ops[..i];
        ok := PushFull(ops[i], first);
        if !ok {
          PushAllFails(f1, ops, i + 1);
          return;
        }
        first := false;
        i := i + 1;
      }
      assert ops[..i] == ops;
      Insn(Call(id.value));
      ok := true;
    }

    method CallAndStore(fn: C.HostFn, ops: seq<C.Operand>) returns (r: Option<C.Operand>)
      requires |ops| == |fn.params| && args != locals
      modifies this, modEmit, locals
      ensures match C.CallAndStore(old(View()), fn, ops)
              case None => r == None
              case Some((f, op)) => View() == f && r == Some(op)
    {
      var ok := CallFn(fn, ops);
      if !ok { return None; }
      var k := AllocAndStoreLocal(fn.result);
      r := if k.Some? then Some(C.Local(k.value)) else None;
    }

    /** The generated emitters of the expression types. */
    method Emit(e: C.Expr) returns (r: Option<C.Operand>)
      requires C.Applicable(e) && args != locals
      modifies this, modEmit, locals
      ensures match C.Emit(old(View()), e)
              case None => r == None
              case Some((f, op)) => View() == f && r == Some(op)
      decreases e
    {
      hide C.CallAndStore, C.ChooseLocal;
      match e
      case Const(_, lit) => r := Some(C.Const64(C.LiteralValue(lit)));
      case New(fn, index) =>
        if args.Length + locals.Length == 0 { return None; }
        var k := MaybeChooseLocal(fn.result, index);
        if k.Some? {
          r := Some(C.Local(k.value));
        } else {
          r := CallAndStore(fn, []);
        }
      case Sub(_, inner) => r := Emit(inner);
      case Apply(fn, es) =>
        var ops := [];
        var i := 0;
        while i < |es|
          invariant 0 <= i <= |es|
          invariant C.EmitAll(old(View()), es[..i]) == Some((View(), ops))
        {
          assert es[..i + 1][..i] == es[..i];
          var op := Emit(es[i]);
          if op.None? {
            EmitAllFails(old(View()), es, i + 1);
            return None;
          }
          ops := ops + [op.value];
          i := i + 1;
        }
        assert es[..i] == es;
        r := CallAndStore(fn, ops);
    }

    method Finish() returns (id: Option<nat>)
      modifies this, modEmit
      ensures match C.Finish(old(View()))
              case None => id == None
              case Some((m, k)) => modEmit.View() == m && id == Some(k)
    {
      Insn(End);
      id := modEmit.DefineFunc(arity, ret, Code(numLocals, code));
    }
  }

  lemma {:induction false} MatchingPrefix(slots: seq<C.Slot>, ty: string, k: nat)
    requires k <= |slots|
    ensures C.Matching(slots[..k], ty) <= C.Matching(slots, ty)
    decreases |slots| - k
  {
    if k == |slots| {
      assert slots[..k] == slots;
    } else {
      MatchingPrefix(slots, ty, k + 1);
      assert slots[..k + 1][..k] == slots[..k];
    }
  }

  lemma {:induction false} PushAllFails(f: C.Func, ops: seq<C.Operand>, k: nat)
    requires k <= |ops| && C.PushAll(f, ops[..k]).None?
    ensures C.PushAll(f, ops).None?
    decreases |ops| - k
  {
    if k == |ops| {
      assert ops[..k] == ops;
    } else {
      assert ops[..k + 1][..k] == ops[..k];
      PushAllFails(f, ops, k + 1);
    }
  }

  lemma {:induction false} EmitAllFails(f: C.Func, es: seq<C.Expr>, k: nat)
    requires forall i :: 0 <= i < |es| ==> C.Applicable(es[i])
    requires k <= |es| && C.EmitAll(f, es[..k]).None?
    ensures C.EmitAll(f, es).None?
    decreases |es| - k
  {
    if k == |es| {
      assert es[..k] == es;
    } else {
      assert es[..k + 1][..k] == es[..k];
      EmitAllFails(f, es, k + 1);
    }
  }

  lemma {:induction false} AllocArgsFails(f: C.Func, tys: seq<string>, k: nat)
    requires k <= |tys| && C.AllocArgs(f, tys[..k]).None?
    ensures C.AllocArgs(f, tys).None?
    decreases |tys| - k
  {
    if k == |tys| {
      assert tys[..k] == tys;
    } else {
      assert tys[..k + 1][..k] == tys[..k];
      AllocArgsFails(f, tys, k + 1);
    }
  }

  /** The module of one expression, before serialization. */
  method AsSingleFunctionModule(e: C.Expr, name: string, argTypes: seq<string>) returns (r: Option<Mod>)
    requires C.Applicable(e)
    ensures r == C.AsSingleFunctionModule(e, name, argTypes)
  {
    var numLocals := C.NumLocals(e);
    var me := new ModEmitter();
    var fe := new FuncEmitter(me, |argTypes|, 1, numLocals);
    ghost var f0 := fe.View();
    var i := 0;
    while i < |argTypes|
      invariant 0 <= i <= |argTypes|
      invariant C.AllocArgs(f0, argTypes[..i]) == Some(fe.View())
    {
      assert argTypes[..i + 1][..i] == argTypes[..i];
      var k := fe.AllocArg(argTypes[i]);
      if k.None? {
        AllocArgsFails(f0, argTypes, i + 1);
        return None;
      }
      i := i + 1;
    }
    assert argTypes[..i] == argTypes;
    var op := fe.Emit(e);
    if op.None? { return None; }
    var ok := fe.PushFull(op.value, false);
    if !ok { return None; }
    var id := fe.Finish();
    if id.None? { return None; }
    me.ExportFunc(id.value, name);
    r := Some(me.View());
  }
}
