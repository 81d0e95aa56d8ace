/** Value types of the authorization manager: addresses, invocations, the
    authorized invocation tree and the match states of a tracker. */
module AuthTypes {
  /** Host values are compared by content only, so an integer stands for one. */
  type Val = int

  datatype Address = AccountId(id: int) | ContractId(id: int)

  datatype CreateContractArgs = CreateContractArgs(idPreimage: int, executable: int)

  /** One entry of the authorization call stack. */
  datatype AuthStackFrame =
    | Contract(contract: Address, name: string)
    | CreateContractHostFn(args: CreateContractArgs)

  /** What an authorization is asked, or given, for. */
  datatype AuthorizedFunction =
    | ContractFn(contract: Address, name: string, args: seq<Val>)
    | CreateContractFn(createArgs: CreateContractArgs)

  function ToAuthorizedFunction(frame: AuthStackFrame, args: seq<Val>): AuthorizedFunction {
    match frame
    case Contract(contract, name) => ContractFn(contract, name, args)
    case CreateContractHostFn(createArgs) => CreateContractFn(createArgs)
  }

  /** The frame an authorized function can be required in. */
  function FrameOf(f: AuthorizedFunction): AuthStackFrame {
    match f
    case ContractFn(contract, name, _) => Contract(contract, name)
    case CreateContractFn(createArgs) => CreateContractHostFn(createArgs)
  }

  /** What it means that a function is the frame's own, called with these arguments. */
  predicate IsCall(f: AuthorizedFunction, frame: AuthStackFrame, args: seq<Val>) {
    match f
    case ContractFn(contract, name, fArgs) => frame.Contract? && frame.contract == contract && frame.name == name && fArgs == args
    case CreateContractFn(createArgs) => frame.CreateContractHostFn? && frame.args == createArgs
  }

  /** A node of the authorized invocation tree. */
  datatype Invocation =
    Invocation(function_: AuthorizedFunction, subs: seq<Invocation>, exhausted: bool)

  /** The mutable part of a node: all that a frame snapshot keeps of the tree. */
  datatype InvocationSnapshot =
    InvocationSnapshot(exhausted: bool, subs: seq<InvocationSnapshot>)

  /** The tree as exchanged with the outside world: no flags. */
  datatype XdrInvocation =
    XdrInvocation(function_: AuthorizedFunction, subs: seq<XdrInvocation>)

  datatype MatchState = Unmatched | RootMatch | SubMatch(indexInParent: nat) {
    predicate IsMatched() { this != Unmatched }
  }

  /** Child indices from the root of a tree to one of its nodes. */
  type Path = seq<nat>
}
