/** The part of the WebAssembly Core Specification 1.0 that expression code uses: module
    tables (section 2.5), straight-line execution (sections 4.4.1, 4.4.3 and 4.4.5) and
    validation (sections 3.3 and 3.4). Every function type has i64 parameters and results. */
module WasmMachine {
  import opened Wrappers
  import opened Arithmetic

  datatype FuncType = FuncType(params: nat, results: nat)
  datatype Import = Import(moduleName: string, name: string, typeIndex: nat)
  datatype Instr = LocalGet(index: nat) | LocalSet(index: nat) | I64Const(v64: i64) | I32Const(v32: i32) | Call(index: nat) | End
  datatype Code = Code(numLocals: nat, body: seq<Instr>)
  datatype Export = MemoryExport(name: string, index: nat) | FuncExport(name: string, index: nat)

  /** The sections of a module being emitted, with the emitter's two interning tables. */
  datatype Mod = Mod(
    types: seq<FuncType>,
    typeRefs: map<(nat, nat), nat>,
    imports: seq<Import>,
    importRefs: map<(string, string, nat), nat>,
    funcs: seq<nat>,
    codes: seq<Code>,
    exports: seq<Export>)

  // ---------- execution ----------

  datatype Value = V64(v64: i64) | V32(v32: i32)

  datatype HostCall = HostCall(moduleName: string, name: string, args: seq<i64>)

  /** An interpretation of the host functions: the answer to a call may depend on all the
      calls made before; no answer is a trap. */
  type Host = (seq<HostCall>, HostCall) -> Option<i64>

  datatype Config =
    | Running(locals: seq<i64>, stack: seq<Value>, calls: seq<HostCall>)
    | Trapped(calls: seq<HostCall>)
    | Stuck

  function Values(args: seq<i64>): seq<Value> {
    seq(|args|, i requires 0 <= i < |args| => V64(args[i]))
  }

  predicate AllI64(vs: seq<Value>) {
    forall v :: v in vs ==> v.V64?
  }

  function Unwrap(vs: seq<Value>): seq<i64>
    requires AllI64(vs)
  {
    seq<i64>(|vs|, i requires 0 <= i < |vs| => vs[i].v64)
  }

  /** A call of function index `f`; function indices start with the imports (section 2.5.1),
      and expression code calls nothing else. */
  function ExecCall(m: Mod, host: Host, f: nat, c: Config): Config
    requires c.Running?
  {
    if f >= |m.imports| || m.imports[f].typeIndex >= |m.types| then Stuck
    else
      var ty := m.types[m.imports[f].typeIndex];
      if ty.results != 1 || ty.params > |c.stack| || !AllI64(c.stack[|c.stack| - ty.params..]) then Stuck
      else
        var base := |c.stack| - ty.params;
        var call := HostCall(m.imports[f].moduleName, m.imports[f].name, Unwrap(c.stack[base..]));
        match host(c.calls, call)
        case None => Trapped(c.calls + [call])
        case Some(v) => Running(c.locals, c.stack[..base] + [V64(v)], c.calls + [call])
  }

  function ExecInstr(m: Mod, host: Host, i: Instr, c: Config): Config {
    if !c.Running? then c
    else
      match i
      case LocalGet(k) => if k < |c.locals| then c.(stack := c.stack + [V64(c.locals[k])]) else Stuck
      case LocalSet(k) =>
        if k < |c.locals| && c.stack != [] && c.stack[|c.stack| - 1].V64? then
          c.(locals := c.locals[k := c.stack[|c.stack| - 1].v64], stack := c.stack[..|c.stack| - 1])
        else Stuck
      case I64Const(v) => c.(stack := c.stack + [V64(v)])
      case I32Const(v) => c.(stack := c.stack + [V32(v)])
      case Call(f) => ExecCall(m, host, f, c)
      case End => c
  }

  function Exec(m: Mod, host: Host, code: seq<Instr>, c: Config): Config {
    if code == [] then c
    else ExecInstr(m, host, code[|code| - 1], Exec(m, host, code[..|code| - 1], c))
  }

  lemma ExecSnoc(m: Mod, host: Host, code: seq<Instr>, i: Instr, c: Config)
    ensures Exec(m, host, code + [i], c) == ExecInstr(m, host, i, Exec(m, host, code, c))
  {
    assert (code + [i])[..|code|] == code;
  }

  lemma {:induction false} ExecStops(m: Mod, host: Host, code: seq<Instr>, more: seq<Instr>, c: Config)
    requires !Exec(m, host, code, c).Running?
    ensures Exec(m, host, code + more, c) == Exec(m, host, code, c)
    decreases |more|
  {
    if more == [] {
      assert code + more == code;
    } else {
      ExecStops(m, host, code, more[..|more| - 1], c);
      assert code + more == code + more[..|more| - 1] + [more[|more| - 1]];
      ExecSnoc(m, host, code + more[..|more| - 1], more[|more| - 1], c);
    }
  }

  // ---------- validation ----------

  datatype ValType = I64Type | I32Type

  /** The operand types after an instruction, if it is valid at this point. */
  function CheckInstr(m: Mod, numLocals: nat, i: Instr, st: Option<seq<ValType>>): Option<seq<ValType>> {
    match st
    case None => None
    case Some(s) =>
      match i
      case LocalGet(k) => if k < numLocals then Some(s + [I64Type]) else None
      case LocalSet(k) =>
        if k < numLocals && s != [] && s[|s| - 1] == I64Type then Some(s[..|s| - 1]) else None
      case I64Const(_) => Some(s + [I64Type])
      case I32Const(_) => Some(s + [I32Type])
      case Call(f) =>
        if f >= |m.imports| || m.imports[f].typeIndex >= |m.types| then None
        else
          var ty := m.types[m.imports[f].typeIndex];
          if ty.params <= |s| && s[|s| - ty.params..] == Repeat(I64Type, ty.params) then
            Some(s[..|s| - ty.params] + Repeat(I64Type, ty.results))
          else None
      case End => Some(s)
  }

  function Repeat(t: ValType, n: nat): seq<ValType> {
    seq(n, i => t)
  }

  function Check(m: Mod, numLocals: nat, code: seq<Instr>, st: seq<ValType>): Option<seq<ValType>> {
    if code == [] then Some(st)
    else CheckInstr(m, numLocals, code[|code| - 1], Check(m, numLocals, code[..|code| - 1], st))
  }

  lemma CheckSnoc(m: Mod, numLocals: nat, code: seq<Instr>, i: Instr, st: seq<ValType>)
    ensures Check(m, numLocals, code + [i], st) == CheckInstr(m, numLocals, i, Check(m, numLocals, code, st))
  {
    assert (code + [i])[..|code|] == code;
  }

  predicate ValidFunc(m: Mod, k: nat)
    requires k < |m.funcs| == |m.codes|
  {
    && m.funcs[k] < |m.types|
    && m.codes[k].body != [] && m.codes[k].body[|m.codes[k].body| - 1] == End
    && Check(m, m.types[m.funcs[k]].params + m.codes[k].numLocals, m.codes[k].body, [])
         == Some(Repeat(I64Type, m.types[m.funcs[k]].results))
  }

  predicate ValidExport(m: Mod, e: Export) {
    match e
    case MemoryExport(_, k) => k == 0
    case FuncExport(_, k) => k < |m.imports| + |m.funcs|
  }

  /** Section 3.4.10 for modules with one memory; the limits an implementation may set on top
      are not part of it. */
  predicate ValidModule(m: Mod) {
    && (forall i :: 0 <= i < |m.imports| ==> m.imports[i].typeIndex < |m.types|)
    && |m.funcs| == |m.codes|
    && (forall k :: 0 <= k < |m.funcs| ==> ValidFunc(m, k))
    && (forall i :: 0 <= i < |m.exports| ==> ValidExport(m, m.exports[i]))
    && (forall i, j :: 0 <= i < j < |m.exports| ==> m.exports[i].name != m.exports[j].name)
  }
}
