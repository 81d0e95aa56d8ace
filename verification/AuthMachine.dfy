/** The authorization manager as a state machine. An event is one call into the
    manager; authentication, which may call back into it, is a scope of its own that
    any balanced run may fill before the answer arrives. */
module AuthMachine {
  import opened Wrappers
  import opened AuthTypes
  import opened AuthTree
  import opened InvocationTracking

  // ---------- state ----------

  datatype Nonce = Nonce(value: int, liveUntil: nat)

  /** `borrowed` is set while the tracker is inside its own authentication. */
  datatype Account = Account(
    address: Address,
    tracker: Tracker,
    isSource: bool,
    verified: bool,
    nonce: Option<Nonce>,
    borrowed: bool)

  /** History variables: `depth`, the call depth the tracker was created at, and `used`, its
      surviving matches. */
  datatype Invoker = Invoker(contract: Address, tracker: Tracker, depth: nat, used: seq<Path>)

  /** Recording maps address object handles to trackers. */
  datatype Mode = Enforcing | Recording(handles: map<nat, nat>, disableNonRootAuth: bool)

  datatype AccountSnapshot = AccountSnapshot(root: InvocationSnapshot, verified: bool)

  datatype AccountsSnapshot =
    | EnforcingSnapshot(trackers: seq<Option<AccountSnapshot>>)
    | RecordingSnapshot(accounts: seq<Account>)

  /** What a frame keeps for its own rollback: the manager's snapshot, and the nonces of
      the host's storage snapshot. */
  datatype Snapshot = Snapshot(
    accounts: AccountsSnapshot,
    invokers: seq<InvocationSnapshot>,
    handles: Option<map<nat, nat>>,
    nonces: set<(Address, int)>)

  /** History of matches: which node of which account tracker was used, or recorded. */
  datatype Match = Match(account: nat, path: Path)

  datatype Kind = HostFnFrame | ContractFrame | CreateFrame | Authentication(account: nat)

  /** `before` is the state the scope was entered from. */
  datatype Ctl = Bottom | Scope(kind: Kind, snapshot: Option<Snapshot>, before: State)

  datatype State = State(
    mode: Mode,
    accounts: seq<Account>,
    invokers: seq<Invoker>,
    callStack: seq<AuthStackFrame>,
    nonces: set<(Address, int)>,
    log: seq<Match>,
    ctl: Ctl,
    failing: bool)

  /** What the host supplies: the ledger, its limits and the source account. */
  datatype Env = Env(ledgerSeq: nat, maxLiveUntil: nat, source: Option<Address>)

  datatype Credentials = SourceAccount | AddressCredentials(address: Address, nonce: int, expiration: nat)
  datatype AuthEntry = AuthEntry(credentials: Credentials, root: XdrInvocation)

  datatype Event =
    | PushHostFn
    | PushContract(contract: Address, name: string)
    | PushCreateContract(args: CreateContractArgs)
    | Pop
    | PopRollback
    | RequireAuth(address: Address, handle: nat, callArgs: seq<Val>, freshNonce: int)
    | AuthDone(authenticated: bool, nonceAccess: bool)
    | AddInvokerAuth(entries: seq<XdrInvocation>)

  /** `Stuck`: the event cannot happen here. `InternalError`: the run ends. */
  datatype StepResult = Next(state: State) | Stuck | InternalError

  // ---------- construction ----------

  function NewAccount(env: Env, e: AuthEntry): Option<Account> {
    match e.credentials
    case SourceAccount =>
      (match env.source
       case None => None
       case Some(a) => Some(Account(a, NewTracker(FromXdr(e.root)), true, false, None, false)))
    case AddressCredentials(a, n, exp) =>
      Some(Account(a, NewTracker(FromXdr(e.root)), false, false, Some(Nonce(n, exp)), false))
  }

  function NewAccounts(env: Env, entries: seq<AuthEntry>): (r: Option<seq<Account>>)
    ensures r.Some? ==> |r.value| == |entries|
    ensures r.Some? ==> forall i :: 0 <= i < |entries| ==> NewAccount(env, entries[i]) == Some(r.value[i])
  {
    if entries == [] then Some([])
    else
      match NewAccount(env, entries[0])
      case None => None
      case Some(a) =>
        match NewAccounts(env, entries[1..])
        case None => None
        case Some(rest) => Some([a] + rest)
  }

  function NewEnforcing(accounts: seq<Account>, nonces: set<(Address, int)>): State {
    State(Enforcing, accounts, [], [], nonces, [], Bottom, false)
  }

  function NewRecording(disableNonRootAuth: bool, nonces: set<(Address, int)>): State {
    State(Recording(map[], disableNonRootAuth), [], [], [], nonces, [], Bottom, false)
  }

  // ---------- frames ----------

  function PushAccount(a: Account): Account {
    if a.borrowed then a else a.(tracker := PushFrame(a.tracker))
  }

  function PopAccount(a: Account): Account {
    if a.borrowed then a else a.(tracker := PopFrame(a.tracker))
  }

  function PushAccounts(accounts: seq<Account>): seq<Account> {
    seq(|accounts|, i requires 0 <= i < |accounts| => PushAccount(accounts[i]))
  }

  function PopAccounts(accounts: seq<Account>): seq<Account> {
    seq(|accounts|, i requires 0 <= i < |accounts| => PopAccount(accounts[i]))
  }

  function PushInvoker(v: Invoker): Invoker {
    v.(tracker := PushFrame(v.tracker))
  }

  function PopInvoker(v: Invoker): Invoker {
    v.(tracker := PopFrame(v.tracker))
  }

  function PushInvokers(invokers: seq<Invoker>): seq<Invoker> {
    seq(|invokers|, i requires 0 <= i < |invokers| => PushInvoker(invokers[i]))
  }

  /** Removes the trailing trackers whose match stack is empty. */
  function DropOutOfScope(invokers: seq<Invoker>): seq<Invoker> {
    if invokers == [] || invokers[|invokers| - 1].tracker.stack != [] then invokers
    else DropOutOfScope(invokers[..|invokers| - 1])
  }

  function PopEach(invokers: seq<Invoker>): seq<Invoker> {
    seq(|invokers|, i requires 0 <= i < |invokers| => PopInvoker(invokers[i]))
  }

  function PopInvokers(invokers: seq<Invoker>): seq<Invoker> {
    DropOutOfScope(PopEach(invokers))
  }

  function SnapshotAccount(a: Account): Option<AccountSnapshot> {
    if a.borrowed then None else Some(AccountSnapshot(TakeSnapshot(a.tracker.root), a.verified))
  }

  function SnapshotInvokers(invokers: seq<Invoker>): seq<InvocationSnapshot> {
    seq(|invokers|, i requires 0 <= i < |invokers| => TakeSnapshot(invokers[i].tracker.root))
  }

  function SnapshotAccounts(mode: Mode, accounts: seq<Account>): AccountsSnapshot {
    match mode
    case Enforcing =>
      EnforcingSnapshot(seq(|accounts|, i requires 0 <= i < |accounts| => SnapshotAccount(accounts[i])))
    case Recording(_, _) => RecordingSnapshot(accounts)
  }

  function SnapshotOf(s: State): Snapshot {
    Snapshot(
      SnapshotAccounts(s.mode, s.accounts),
      SnapshotInvokers(s.invokers),
      if s.mode.Recording? then Some(s.mode.handles) else None,
      s.nonces)
  }

  function PushCallFrame(s: State, frame: AuthStackFrame): State {
    s.(callStack := s.callStack + [frame],
       accounts := PushAccounts(s.accounts),
       invokers := PushInvokers(s.invokers))
  }

  /** A contract frame; the snapshot is taken after the push. */
  function EnterContract(s: State, frame: AuthStackFrame): State {
    var s1 := PushCallFrame(s, frame);
    s1.(ctl := Scope(ContractFrame, Some(SnapshotOf(s1)), s))
  }

  /** A create-contract frame has no snapshot: it is always popped without rollback. */
  function EnterCreate(s: State, frame: AuthStackFrame): State {
    PushCallFrame(s, frame).(ctl := Scope(CreateFrame, None, s))
  }

  /** The host function frame at the bottom is not on the call stack. */
  function EnterHostFn(s: State): State {
    s.(ctl := Scope(HostFnFrame, Some(SnapshotOf(s)), s))
  }

  function PopCallFrame(s: State): State {
    if s.callStack == [] then s
    else
      s.(callStack := s.callStack[..|s.callStack| - 1],
         accounts := PopAccounts(s.accounts),
         invokers := PopInvokers(s.invokers))
  }

  // ---------- rollback ----------

  /** `None`: the tracker is unexpectedly borrowed, or its tree has changed shape. */
  function RollbackAccount(a: Account, snap: Option<AccountSnapshot>): Option<Account> {
    match snap
    case None => Some(a)
    case Some(sp) =>
      if a.borrowed then None
      else
        match RollbackTracker(a.tracker, sp.root)
        case None => None
        case Some(t) => Some(a.(tracker := t, verified := sp.verified))
  }

  function RollbackAccounts(accounts: seq<Account>, snaps: seq<Option<AccountSnapshot>>): (r: Option<seq<Account>>)
    requires |accounts| == |snaps|
    ensures r.Some? ==> |r.value| == |accounts|
    ensures r.Some? ==> forall i :: 0 <= i < |accounts| ==> RollbackAccount(accounts[i], snaps[i]) == Some(r.value[i])
    ensures r.None? ==> exists i :: 0 <= i < |accounts| && RollbackAccount(accounts[i], snaps[i]).None?
  {
    if accounts == [] then Some([])
    else
      match RollbackAccount(accounts[0], snaps[0])
      case None => None
      case Some(a) =>
        match RollbackAccounts(accounts[1..], snaps[1..])
        case None =>
          assert forall i :: 0 <= i < |accounts[1..]| ==> accounts[1..][i] == accounts[i + 1] && snaps[1..][i] == snaps[i + 1];
          None
        case Some(rest) => Some([a] + rest)
  }

  function RollbackInvokers(invokers: seq<Invoker>, snaps: seq<InvocationSnapshot>): (r: Option<seq<Invoker>>)
    requires |invokers| == |snaps|
    ensures r.Some? ==> |r.value| == |invokers|
    ensures r.Some? ==> forall i :: 0 <= i < |invokers| ==>
              RollbackTracker(invokers[i].tracker, snaps[i]).Some? &&
              r.value[i] == invokers[i].(tracker := RollbackTracker(invokers[i].tracker, snaps[i]).value)
    ensures r.None? ==> exists i :: 0 <= i < |invokers| && RollbackTracker(invokers[i].tracker, snaps[i]).None?
  {
    if invokers == [] then Some([])
    else
      match RollbackTracker(invokers[0].tracker, snaps[0])
      case None => None
      case Some(t) =>
        match RollbackInvokers(invokers[1..], snaps[1..])
        case None =>
          assert forall i :: 0 <= i < |invokers[1..]| ==> invokers[1..][i] == invokers[i + 1] && snaps[1..][i] == snaps[i + 1];
          None
        case Some(rest) => Some([invokers[0].(tracker := t)] + rest)
  }

  function RollbackTo(accounts: seq<Account>, snap: AccountsSnapshot): Option<seq<Account>> {
    match snap
    case EnforcingSnapshot(snaps) => if |accounts| != |snaps| then None else RollbackAccounts(accounts, snaps)
    case RecordingSnapshot(copies) => Some(copies)
  }

  /** `None` is an internal error. */
  function Rollback(s: State, snap: Snapshot): Option<State> {
    var accounts := RollbackTo(s.accounts, snap.accounts);
    if accounts.None? || |s.invokers| != |snap.invokers| then None
    else
      match RollbackInvokers(s.invokers, snap.invokers)
      case None => None
      case Some(invokers) =>
        var mode := if s.mode.Recording? && snap.handles.Some?
                    then Recording(snap.handles.value, s.mode.disableNonRootAuth) else s.mode;
        Some(s.(accounts := accounts.value, invokers := invokers, mode := mode, nonces := snap.nonces))
  }

  /** The matches made before a frame was entered outlive its rollback. */
  function Surviving<T>(log: seq<T>, n: nat): seq<T> {
    if n <= |log| then log[..n] else log
  }

  function SurvivingUses(invokers: seq<Invoker>, before: seq<Invoker>): seq<Invoker> {
    seq(|invokers|, k requires 0 <= k < |invokers| =>
      if k < |before| then invokers[k].(used := Surviving(invokers[k].used, |before[k].used|)) else invokers[k])
  }

  /** From a rolled back state, the state after the frame's pop. */
  function AfterRollback(s: State, s1: State): State
    requires s.ctl.Scope?
  {
    var b, popped := s.ctl.before, PopCallFrame(s1);
    popped.(ctl := b.ctl, failing := false, log := Surviving(s.log, |b.log|), invokers := SurvivingUses(popped.invokers, b.invokers))
  }

  // ---------- require_auth ----------

  datatype InvokerResult = Direct | NotAuthorized | ByTracker(index: nat, tracker: Tracker, path: Path) | InvokerFault

  function FindInvoker(invokers: seq<Invoker>, address: Address, f: AuthorizedFunction, i: nat): (r: InvokerResult)
    ensures !r.Direct?
    ensures r.ByTracker? ==> i <= r.index < |invokers| && invokers[r.index].contract == address
    ensures r.ByTracker? ==> TryMatch(invokers[r.index].tracker, f, true) == Matched(r.tracker, r.path)
    decreases |invokers| - i
  {
    if i >= |invokers| then NotAuthorized
    else if invokers[i].contract != address then FindInvoker(invokers, address, f, i + 1)
    else
      match TryMatch(invokers[i].tracker, f, true)
      case NoMatch => FindInvoker(invokers, address, f, i + 1)
      case Matched(t, p) => ByTracker(i, t, p)
      case Fault => InvokerFault
  }

  /** `maybe_check_invoker_contract_auth`: the direct invoker has authorized the call;
      otherwise an invoker higher up the stack may have. */
  function CheckInvoker(callStack: seq<AuthStackFrame>, invokers: seq<Invoker>, address: Address, f: AuthorizedFunction): InvokerResult {
    if |callStack| < 2 then NotAuthorized
    else
      var invoker := callStack[|callStack| - 2];
      if invoker.Contract? && invoker.contract == address then Direct
      else FindInvoker(invokers, address, f, 0)
  }

  predicate ActiveElsewhere(a: Account, address: Address) {
    !a.borrowed && a.address == address && IsActive(a.tracker) && !CurrentFrameMatched(a.tracker)
  }

  predicate HasActive(accounts: seq<Account>, address: Address) {
    exists i :: 0 <= i < |accounts| && ActiveElsewhere(accounts[i], address)
  }

  datatype FindResult = NotFound | Found(index: nat, tracker: Tracker, path: Path) | FindFault

  function FindAccount(accounts: seq<Account>, address: Address, f: AuthorizedFunction, allowRoot: bool, i: nat): (r: FindResult)
    ensures r.Found? ==> i <= r.index < |accounts| && !accounts[r.index].borrowed && accounts[r.index].address == address
    ensures r.Found? ==> TryMatch(accounts[r.index].tracker, f, allowRoot) == Matched(r.tracker, r.path)
    ensures r.FindFault? ==> exists k :: i <= k < |accounts| && !accounts[k].borrowed && TryMatch(accounts[k].tracker, f, allowRoot).Fault?
    decreases |accounts| - i
  {
    if i >= |accounts| then NotFound
    else if accounts[i].borrowed || accounts[i].address != address then FindAccount(accounts, address, f, allowRoot, i + 1)
    else
      match TryMatch(accounts[i].tracker, f, allowRoot)
      case NoMatch => FindAccount(accounts, address, f, allowRoot, i + 1)
      case Matched(t, p) => Found(i, t, p)
      case Fault => FindFault
  }

  /** A verified tracker answers at once; an unverified one is authenticated first. */
  function RequireEnforcing(s: State, address: Address, f: AuthorizedFunction): StepResult {
    match FindAccount(s.accounts, address, f, !HasActive(s.accounts, address), 0)
    case NotFound => Next(s.(failing := true))
    case FindFault => InternalError
    case Found(i, t, p) =>
      var a := s.accounts[i].(tracker := t);
      var log := s.log + [Match(i, p)];
      if a.verified then Next(s.(accounts := s.accounts[i := a], log := log))
      else Next(s.(accounts := s.accounts[i := a.(borrowed := true)], log := log,
                   ctl := Scope(Authentication(i), None, s)))
  }

  /** `AlreadyMatched` is an error of the request, `RecordFault` an internal one. */
  datatype RecordResult = Recorded(tracker: Tracker, path: Path) | AlreadyMatched | RecordFault

  /** `record_invocation`: appends a used child below the deepest matched node. */
  function RecordInvocation(t: Tracker, f: AuthorizedFunction): RecordResult {
    if CurrentFrameMatched(t) then AlreadyMatched
    else
      match LastInvocation(t, 0)
      case At(p) =>
        LastNeedsFrames(t, 0);
        var node := NodeAt(t.root, p);
        Recorded(t.(
          root := Append(t.root, p, f),
          stack := t.stack[|t.stack| - 1 := SubMatch(|node.subs|)]), p + [|node.subs|])
      case _ => RecordFault
  }

  datatype RecorderResult = NoRecorder | Recorder(index: nat) | RecorderFault

  /** The first tracker that is still active and unused in the current frame. */
  function FindRecorder(accounts: seq<Account>, address: Address, i: nat): (r: RecorderResult)
    ensures r.Recorder? ==>
              && i <= r.index < |accounts| && accounts[r.index].address == address && !accounts[r.index].borrowed
              && HasMatchInStack(accounts[r.index].tracker) && !CurrentFrameMatched(accounts[r.index].tracker)
              && forall k :: i <= k < r.index && accounts[k].address == address ==>
                   !HasMatchInStack(accounts[k].tracker) || CurrentFrameMatched(accounts[k].tracker)
    ensures r.RecorderFault? ==> exists k :: i <= k < |accounts| && accounts[k].borrowed
    ensures r.NoRecorder? ==> forall k :: i <= k < |accounts| && accounts[k].address == address ==>
              !HasMatchInStack(accounts[k].tracker) || CurrentFrameMatched(accounts[k].tracker)
    decreases |accounts| - i
  {
    if i >= |accounts| then NoRecorder
    else if accounts[i].borrowed then RecorderFault
    else if accounts[i].address == address && HasMatchInStack(accounts[i].tracker) && !CurrentFrameMatched(accounts[i].tracker) then Recorder(i)
    else FindRecorder(accounts, address, i + 1)
  }

  function NewRecordingAccount(env: Env, address: Address, f: AuthorizedFunction, depth: nat, freshNonce: int): Account
    requires depth > 0
  {
    var isSource := env.source == Some(address);
    Account(
      address,
      Tracker(Invocation(f, [], true), seq(depth - 1, _ => Unmatched) + [RootMatch], Some(depth - 1), false),
      isSource, true,
      if isSource then None else Some(Nonce(freshNonce, 0)),
      false)
  }

  function RecordWith(s: State, i: nat, f: AuthorizedFunction): StepResult
    requires i < |s.accounts|
  {
    match RecordInvocation(s.accounts[i].tracker, f)
    case Recorded(t, p) =>
      Next(s.(accounts := s.accounts[i := s.accounts[i].(tracker := t)], log := s.log + [Match(i, p)]))
    case AlreadyMatched => Next(s.(failing := true))
    case RecordFault => InternalError
  }

  function StartRecording(env: Env, s: State, address: Address, handle: nat, f: AuthorizedFunction, freshNonce: int): StepResult
    requires s.mode.Recording? && s.callStack != []
  {
    var a := NewRecordingAccount(env, address, f, |s.callStack|, freshNonce);
    if s.mode.disableNonRootAuth && |s.callStack| != 1 then Next(s.(failing := true))
    else if !a.isSource && (address, freshNonce) in s.nonces then Next(s.(failing := true))
    else Next(s.(
      accounts := s.accounts + [a],
      log := s.log + [Match(|s.accounts|, [])],
      mode := s.mode.(handles := s.mode.handles[handle := |s.accounts|]),
      nonces := if a.isSource then s.nonces else s.nonces + {(address, freshNonce)}))
  }

  /** When the handle leads to no active tracker, its entry is dropped and another is sought. */
  function RecordElsewhere(env: Env, s: State, address: Address, handle: nat, f: AuthorizedFunction, freshNonce: int): StepResult
    requires s.mode.Recording? && s.callStack != []
  {
    var s1 := s.(mode := s.mode.(handles := s.mode.handles - {handle}));
    match FindRecorder(s.accounts, address, 0)
    case Recorder(i) => RecordWith(s1, i, f)
    case RecorderFault => InternalError
    case NoRecorder => StartRecording(env, s1, address, handle, f, freshNonce)
  }

  function RequireRecording(env: Env, s: State, address: Address, handle: nat, f: AuthorizedFunction, freshNonce: int): StepResult
    requires s.mode.Recording? && s.callStack != []
  {
    var handles := s.mode.handles;
    if handle in handles && (handles[handle] >= |s.accounts| || s.accounts[handles[handle]].borrowed) then InternalError
    else if handle in handles && HasMatchInStack(s.accounts[handles[handle]].tracker) then
      RecordWith(s, handles[handle], f)
    else RecordElsewhere(env, s, address, handle, f, freshNonce)
  }

  /** The tracker after a match of its own. */
  function UseBy(v: Invoker, t: Tracker, p: Path): Invoker {
    v.(tracker := t, used := v.used + [p])
  }

  function RequireStep(env: Env, s: State, address: Address, handle: nat, callArgs: seq<Val>, freshNonce: int): StepResult {
    if s.callStack == [] then InternalError
    else
      var f := ToAuthorizedFunction(s.callStack[|s.callStack| - 1], callArgs);
      match CheckInvoker(s.callStack, s.invokers, address, f)
      case Direct => Next(s)
      case ByTracker(i, t, p) => Next(s.(invokers := s.invokers[i := UseBy(s.invokers[i], t, p)]))
      case InvokerFault => InternalError
      case NotAuthorized =>
        if s.mode.Enforcing? then RequireEnforcing(s, address, f)
        else RequireRecording(env, s, address, handle, f, freshNonce)
  }

  // ---------- authentication ----------

  /** `verify_and_consume_nonce`; `access` is whether the storage footprint admits the nonce key. */
  function ConsumeNonce(env: Env, a: Account, nonces: set<(Address, int)>, access: bool): Option<set<(Address, int)>> {
    if a.isSource then Some(nonces)
    else
      match a.nonce
      case None => None
      case Some(n) =>
        if env.ledgerSeq > n.liveUntil || n.liveUntil > env.maxLiveUntil || !access || (a.address, n.value) in nonces
        then None
        else Some(nonces + {(a.address, n.value)})
  }

  function FinishAuthentication(env: Env, s: State, i: nat, authenticated: bool, access: bool): State
    requires i < |s.accounts| && s.ctl.Scope?
  {
    var a := s.accounts[i];
    var released := s.(ctl := s.ctl.before.ctl);
    var nonces := if !s.failing && (authenticated || a.isSource) then ConsumeNonce(env, a, s.nonces, access) else None;
    if nonces.Some? then
      released.(accounts := s.accounts[i := a.(borrowed := false, verified := true)], nonces := nonces.value)
    else
      released.(accounts := s.accounts[i := a.(borrowed := false)], failing := true)
  }

  // ---------- the machine ----------

  function Step(env: Env, s: State, e: Event): StepResult {
    match e
    case PushHostFn =>
      if s.ctl.Bottom? && !s.failing then Next(EnterHostFn(s)) else Stuck
    case PushContract(contract, name) =>
      if !s.failing then Next(EnterContract(s, Contract(contract, name))) else Stuck
    case PushCreateContract(args) =>
      if !s.failing && s.ctl.Scope? && (s.ctl.kind.HostFnFrame? || s.ctl.kind.ContractFrame?)
      then Next(EnterCreate(s, CreateContractHostFn(args))) else Stuck
    case Pop =>
      if s.ctl.Scope? && !s.ctl.kind.Authentication? && (s.failing ==> s.ctl.kind.CreateFrame?)
      then Next(PopCallFrame(s).(ctl := s.ctl.before.ctl)) else Stuck
    case PopRollback =>
      if s.ctl.Scope? && s.ctl.snapshot.Some? then
        match Rollback(s, s.ctl.snapshot.value)
        case None => InternalError
        case Some(s1) => Next(AfterRollback(s, s1))
      else Stuck
    case RequireAuth(address, handle, callArgs, freshNonce) =>
      if !s.failing then RequireStep(env, s, address, handle, callArgs, freshNonce) else Stuck
    case AuthDone(authenticated, access) =>
      if s.ctl.Scope? && s.ctl.kind.Authentication? && s.ctl.kind.account < |s.accounts|
      then Next(FinishAuthentication(env, s, s.ctl.kind.account, authenticated, access)) else Stuck
    case AddInvokerAuth(entries) =>
      if !s.failing && s.callStack != [] && s.callStack[|s.callStack| - 1].Contract?
      then Next(s.(invokers := s.invokers + NewInvokers(s.callStack, entries))) else Stuck
  }

  function NewInvokers(callStack: seq<AuthStackFrame>, entries: seq<XdrInvocation>): seq<Invoker>
    requires callStack != [] && callStack[|callStack| - 1].Contract?
  {
    seq(|entries|, i requires 0 <= i < |entries| =>
      Invoker(callStack[|callStack| - 1].contract, NewTracker(FromXdr(entries[i])), |callStack|, []))
  }

  function Run(env: Env, s: State, events: seq<Event>): StepResult
    decreases |events|
  {
    if events == [] then Next(s)
    else
      match Step(env, s, events[0])
      case Next(s1) => Run(env, s1, events[1..])
      case Stuck => Stuck
      case InternalError => InternalError
  }
}
