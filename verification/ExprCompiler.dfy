/** Expressions over the environment interface, their left-to-right meaning, and the code the
    emitters produce for them, as functions on values. A result of None is a panic. */
module ExprCompiler {
  import opened Wrappers
  import opened Arithmetic
  import opened WasmMachine

  // ---------- expressions ----------

  /** A host function of the environment interface. */
  datatype HostFn = HostFn(moduleName: string, name: string, params: seq<string>, result: string)

  /** What a constant node holds: an i64, or anything passed as its 64-bit payload. */
  datatype Literal = Signed(i: i64) | Payload(u: u64)

  /** `New` takes an existing value of the type if there is one, and calls `fn` otherwise. */
  datatype Expr =
    | Const(ty: string, lit: Literal)
    | New(fn: HostFn, index: u8)
    | Sub(ty: string, inner: Expr)
    | Apply(fn: HostFn, args: seq<Expr>)

  function TypeOf(e: Expr): string {
    match e
    case Const(ty, _) => ty
    case New(fn, _) => fn.result
    case Sub(ty, _) => ty
    case Apply(fn, _) => fn.result
  }

  /** The cast of a payload to i64 wraps around. */
  function LiteralValue(l: Literal): i64 {
    match l
    case Signed(i) => i
    case Payload(u) => if u < 0x8000_0000_0000_0000 then u else u - 0x1_0000_0000_0000_0000
  }

  function NumLocals(e: Expr): nat {
    match e
    case Const(_, _) => 0
    case New(_, _) => 1
    case Sub(_, inner) => NumLocals(inner)
    case Apply(_, args) => NumLocalsAll(args) + 1
  }

  function NumLocalsAll(args: seq<Expr>): nat {
    if args == [] then 0 else NumLocalsAll(args[..|args| - 1]) + NumLocals(args[|args| - 1])
  }

  // ---------- meaning ----------

  /** A value some earlier expression stored, or an argument, with the type it goes under. */
  datatype Stored = Stored(ty: string, value: i64)

  datatype Meaning = Evaluates(value: i64, pool: seq<Stored>, calls: seq<HostCall>) | Traps(calls: seq<HostCall>)
  datatype Meanings = EvaluateTo(values: seq<i64>, pool: seq<Stored>, calls: seq<HostCall>) | TrapsAt(calls: seq<HostCall>)

  function OfType(pool: seq<Stored>, ty: string): seq<i64> {
    if pool == [] then []
    else OfType(pool[..|pool| - 1], ty) + if pool[|pool| - 1].ty == ty then [pool[|pool| - 1].value] else []
  }

  function CallHost(host: Host, fn: HostFn, args: seq<i64>, pool: seq<Stored>, calls: seq<HostCall>): Meaning {
    var call := HostCall(fn.moduleName, fn.name, args);
    match host(calls, call)
    case None => Traps(calls + [call])
    case Some(v) => Evaluates(v, pool + [Stored(fn.result, v)], calls + [call])
  }

  /** Left-to-right evaluation. `slots` is the number of arguments and locals of the function,
      which the choice of an existing value depends on. */
  function Eval(host: Host, slots: nat, e: Expr, pool: seq<Stored>, calls: seq<HostCall>): Meaning {
    match e
    case Const(_, lit) => Evaluates(LiteralValue(lit), pool, calls)
    case New(fn, index) =>
      var found := OfType(pool, fn.result);
      if found != [] then Evaluates(found[(if slots > 0 then index % slots else 0) % |found|], pool, calls)
      else CallHost(host, fn, [], pool, calls)
    case Sub(_, inner) => Eval(host, slots, inner, pool, calls)
    case Apply(fn, args) =>
      match EvalAll(host, slots, args, pool, calls)
      case TrapsAt(c) => Traps(c)
      case EvaluateTo(vs, p, c) => CallHost(host, fn, vs, p, c)
  }

  function EvalAll(host: Host, slots: nat, args: seq<Expr>, pool: seq<Stored>, calls: seq<HostCall>): (r: Meanings)
    ensures r.EvaluateTo? ==> |r.values| == |args|
  {
    if args == [] then EvaluateTo([], pool, calls)
    else
      match EvalAll(host, slots, args[..|args| - 1], pool, calls)
      case TrapsAt(c) => TrapsAt(c)
      case EvaluateTo(vs, p, c) =>
        match Eval(host, slots, args[|args| - 1], p, c)
        case Traps(c') => TrapsAt(c')
        case Evaluates(v, p', c') => EvaluateTo(vs + [v], p', c')
  }

  // ---------- module emitter ----------

  const NEW_MOD := Mod([], map[], [], map[], [], [], [])

  /** A fresh module has one memory, exported. */
  const DEFAULT_MOD := NEW_MOD.(exports := [MemoryExport("memory", 0)])

  function GetFnType(m: Mod, arity: nat, ret: nat): (Mod, nat) {
    if (arity, ret) in m.typeRefs then (m, m.typeRefs[(arity, ret)])
    else
      (m.(types := m.types + [FuncType(arity, ret)], typeRefs := m.typeRefs[(arity, ret) := |m.types|]), |m.types|)
  }

  function ImportFunc(m: Mod, moduleName: string, name: string, arity: nat): Option<(Mod, nat)> {
    if m.funcs != [] then None
    else if (moduleName, name, arity) in m.importRefs then Some((m, m.importRefs[(moduleName, name, arity)]))
    else
      var id := |m.imports|;
      var (m1, ty) := GetFnType(m, arity, 1);
      Some((m1.(imports := m1.imports + [Import(moduleName, name, ty)],
                importRefs := m1.importRefs[(moduleName, name, arity) := id]), id))
  }

  function DefineFunc(m: Mod, arity: nat, ret: nat, code: Code): Option<(Mod, nat)> {
    var (m1, ty) := GetFnType(m, arity, ret);
    if |m1.funcs| != |m1.codes| then None
    else Some((m1.(funcs := m1.funcs + [ty], codes := m1.codes + [code]), |m1.imports| + |m1.funcs|))
  }

  function ExportFunc(m: Mod, f: nat, name: string): Mod {
    m.(exports := m.exports + [FuncExport(name, f)])
  }

  // ---------- function emitter ----------

  datatype Operand = Local(index: nat) | Const64(v64: i64) | Const32(v32: i32) | StackTop

  /** An argument or local, and the type it is allocated to. */
  datatype Slot = Slot(index: nat, tag: Option<string>)

  datatype Func = Func(mod: Mod, arity: nat, ret: nat, numLocals: nat, code: seq<Instr>, args: seq<Slot>, locals: seq<Slot>)

  function FreshSlots(from: nat, count: nat): seq<Slot> {
    seq(count, i requires 0 <= i < count => Slot(from + i, None))
  }

  function NewFunc(m: Mod, arity: nat, ret: nat, numLocals: nat): Func {
    Func(m, arity, ret, numLocals, [], FreshSlots(0, arity), FreshSlots(arity, numLocals))
  }

  function Emitted(f: Func, i: Instr): Func {
    f.(code := f.code + [i])
  }

  /** The first slot not allocated yet, or the number of slots. */
  function FirstFree(slots: seq<Slot>): (k: nat)
    ensures k <= |slots|
    ensures k < |slots| ==> slots[k].tag.None?
    ensures forall i :: 0 <= i < k ==> slots[i].tag.Some?
  {
    if slots == [] || slots[0].tag.None? then 0 else 1 + FirstFree(slots[1..])
  }

  lemma {:induction false} FirstFreeIs(slots: seq<Slot>, k: nat)
    requires k <= |slots| && forall i :: 0 <= i < k ==> slots[i].tag.Some?
    requires k < |slots| ==> slots[k].tag.None?
    ensures FirstFree(slots) == k
    decreases k
  {
    if k > 0 { FirstFreeIs(slots[1..], k - 1); }
  }

  function AllocSlot(slots: seq<Slot>, ty: string): Option<(seq<Slot>, nat)> {
    var k := FirstFree(slots);
    if k == |slots| then None else Some((slots[k := slots[k].(tag := Some(ty))], slots[k].index))
  }

  function AllocArg(f: Func, ty: string): Option<(Func, nat)> {
    match AllocSlot(f.args, ty)
    case None => None
    case Some((args, k)) => Some((f.(args := args), k))
  }

  function AllocLocal(f: Func, ty: string): Option<(Func, nat)> {
    match AllocSlot(f.locals, ty)
    case None => None
    case Some((locals, k)) => Some((f.(locals := locals), k))
  }

  function AllocAndStore(f: Func, ty: string): Option<(Func, nat)> {
    match AllocLocal(f, ty)
    case None => None
    case Some((f1, k)) => Some((Emitted(f1, LocalSet(k)), k))
  }

  /** The slots allocated to a type, in order. */
  function Matching(slots: seq<Slot>, ty: string): seq<nat> {
    if slots == [] then []
    else Matching(slots[..|slots| - 1], ty) + if slots[|slots| - 1].tag == Some(ty) then [slots[|slots| - 1].index] else []
  }

  /** None without a slot to choose; the source divides by the number of slots. */
  function ChooseLocal(f: Func, ty: string, index: u8): Option<nat>
    requires |f.args| + |f.locals| > 0
  {
    var found := Matching(f.args + f.locals, ty);
    if found == [] then None else Some(found[(index % (|f.args| + |f.locals|)) % |found|])
  }

  function PushInstr(op: Operand): Instr
    requires op != StackTop
  {
    match op
    case Local(k) => LocalGet(k)
    case Const64(v) => I64Const(v)
    case Const32(v) => I32Const(v)
  }

  /** `first` says whether the value on top of the stack may be taken as the operand. */
  function Push(f: Func, op: Operand, first: bool): Option<Func> {
    if op == StackTop then (if first then Some(f) else None) else Some(Emitted(f, PushInstr(op)))
  }

  function PushAll(f: Func, ops: seq<Operand>): Option<Func> {
    if ops == [] then Some(f)
    else
      match PushAll(f, ops[..|ops| - 1])
      case None => None
      case Some(f1) => Push(f1, ops[|ops| - 1], |ops| == 1)
  }

  /** The emitter of a call of one host function. */
  function CallFn(f: Func, fn: HostFn, ops: seq<Operand>): Option<Func>
    requires |ops| == |fn.params|
  {
    match ImportFunc(f.mod, fn.moduleName, fn.name, |fn.params|)
    case None => None
    case Some((m, id)) =>
      match PushAll(f.(mod := m), ops)
      case None => None
      case Some(f1) => Some(Emitted(f1, Call(id)))
  }

  function CallAndStore(f: Func, fn: HostFn, ops: seq<Operand>): Option<(Func, Operand)>
    requires |ops| == |fn.params|
  {
    match CallFn(f, fn, ops)
    case None => None
    case Some(f1) =>
      match AllocAndStore(f1, fn.result)
      case None => None
      case Some((f2, k)) => Some((f2, Local(k)))
  }

  // ---------- expressions to code ----------

  /** Every call has as many arguments as its function has parameters. */
  predicate Applicable(e: Expr) {
    match e
    case Const(_, _) => true
    case New(fn, _) => fn.params == []
    case Sub(_, inner) => Applicable(inner)
    case Apply(fn, args) => |args| == |fn.params| && forall i :: 0 <= i < |args| ==> Applicable(args[i])
  }

  function Emit(f: Func, e: Expr): Option<(Func, Operand)>
    requires Applicable(e)
    decreases e
  {
    match e
    case Const(_, lit) => Some((f, Const64(LiteralValue(lit))))
    case New(fn, index) =>
      if |f.args| + |f.locals| == 0 then None
      else
        (match ChooseLocal(f, fn.result, index)
         case Some(k) => Some((f, Local(k)))
         case None => CallAndStore(f, fn, []))
    case Sub(_, inner) => Emit(f, inner)
    case Apply(fn, args) =>
      match EmitAll(f, args)
      case None => None
      case Some((f1, ops)) => CallAndStore(f1, fn, ops)
  }

  function EmitAll(f: Func, args: seq<Expr>): (r: Option<(Func, seq<Operand>)>)
    requires forall i :: 0 <= i < |args| ==> Applicable(args[i])
    ensures r.Some? ==> |r.value.1| == |args|
    decreases args
  {
    if args == [] then Some((f, []))
    else
      match EmitAll(f, args[..|args| - 1])
      case None => None
      case Some((f1, ops)) =>
        match Emit(f1, args[|args| - 1])
        case None => None
        case Some((f2, op)) => Some((f2, ops + [op]))
  }

  function AllocArgs(f: Func, tys: seq<string>): Option<Func> {
    if tys == [] then Some(f)
    else
      match AllocArgs(f, tys[..|tys| - 1])
      case None => None
      case Some(f1) =>
        match AllocArg(f1, tys[|tys| - 1])
        case None => None
        case Some((f2, _)) => Some(f2)
  }

  function Finish(f: Func): Option<(Mod, nat)> {
    DefineFunc(f.mod, f.arity, f.ret, Code(f.numLocals, f.code + [End]))
  }

  function AsSingleFunctionModule(e: Expr, name: string, argTypes: seq<string>): Option<Mod>
    requires Applicable(e)
  {
    match AllocArgs(NewFunc(DEFAULT_MOD, |argTypes|, 1, NumLocals(e)), argTypes)
    case None => None
    case Some(f) =>
      match Emit(f, e)
      case None => None
      case Some((f1, op)) =>
        match Push(f1, op, false)
        case None => None
        case Some(f2) =>
          match Finish(f2)
          case None => None
          case Some((m, id)) => Some(ExportFunc(m, id, name))
  }
}
