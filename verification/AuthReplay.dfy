/** Record, then enforce: the trees recorded by a run authorize the same run. */
module AuthReplay {
  import opened Wrappers
  import opened AuthTypes
  import opened AuthTree
  import opened InvocationTracking
  import opened AuthMachine
  import opened AuthRecording

  // ---------- the recording side ----------

  /** Events of a run without rollback and without an enforcing authentication. */
  predicate Recordable(e: Event) {
    !e.PopRollback? && !e.AuthDone?
  }

  /** Every address is passed as the same object each time. */
  ghost predicate OneHandle(h: Address -> nat, events: seq<Event>) {
    && (forall a, b :: h(a) == h(b) ==> a == b)
    && forall k :: 0 <= k < |events| ==>
         Recordable(events[k]) && (events[k].RequireAuth? ==> events[k].handle == h(events[k].address))
  }

  ghost predicate RecorderOk(a: Account, callStack: seq<AuthStackFrame>) {
    && TrackerOk(a.tracker, callStack)
    && AllExhausted(a.tracker.root)
    && a.verified && !a.borrowed
    && (!a.isSource ==> a.nonce.Some?)
  }

  /** An active recorder is the one its address handle leads to. */
  ghost predicate HandlesOk(h: Address -> nat, accounts: seq<Account>, handles: map<nat, nat>) {
    && (forall k :: k in handles ==> handles[k] < |accounts| && h(accounts[handles[k]].address) == k)
    && (forall i :: 0 <= i < |accounts| && IsActive(accounts[i].tracker) ==>
          h(accounts[i].address) in handles && handles[h(accounts[i].address)] == i)
  }

  ghost predicate RecordInv(env: Env, h: Address -> nat, r: State) {
    && r.mode.Recording? && !r.failing
    && (forall i :: 0 <= i < |r.accounts| ==> RecorderOk(r.accounts[i], r.callStack))
    && (forall i :: 0 <= i < |r.accounts| && r.accounts[i].isSource ==> env.source == Some(r.accounts[i].address))
    && HandlesOk(h, r.accounts, r.mode.handles)
    && FrameScopes(r.ctl, r.callStack)
  }

  /** Open scopes are frames, and there are at least as many as call stack entries. */
  ghost predicate FrameScopes(ctl: Ctl, callStack: seq<AuthStackFrame>)
    decreases ctl
  {
    match ctl
    case Bottom => callStack == []
    case Scope(kind, _, before) =>
      && !kind.Authentication?
      && (kind.HostFnFrame? ==> callStack == [])
      && (!kind.HostFnFrame? ==> callStack != [])
      && FrameScopes(before.ctl, if kind.HostFnFrame? then [] else callStack[..|callStack| - 1])
  }

  ghost predicate AccountGrows(a: Account, b: Account) {
    && a.address == b.address && a.isSource == b.isSource && a.nonce == b.nonce
    && Grows(a.tracker.root, b.tracker.root)
  }

  ghost predicate AccountsGrow(a: seq<Account>, b: seq<Account>) {
    |a| <= |b| && forall i :: 0 <= i < |a| ==> AccountGrows(a[i], b[i])
  }

  lemma AccountsGrowRefl(a: seq<Account>)
    ensures AccountsGrow(a, a)
  {
    forall i | 0 <= i < |a| ensures AccountGrows(a[i], a[i]) { GrowsRefl(a[i].tracker.root); }
  }

  lemma AccountsGrowTrans(a: seq<Account>, b: seq<Account>, c: seq<Account>)
    requires AccountsGrow(a, b) && AccountsGrow(b, c)
    ensures AccountsGrow(a, c)
  {
    forall i | 0 <= i < |a| ensures AccountGrows(a[i], c[i]) {
      assert AccountGrows(a[i], b[i]) && AccountGrows(b[i], c[i]);
      GrowsTrans(a[i].tracker.root, b[i].tracker.root, c[i].tracker.root);
    }
  }

  lemma RecordGrowsTree(t: Tracker, f: AuthorizedFunction)
    requires RecordInvocation(t, f).Recorded?
    ensures Grows(t.root, RecordInvocation(t, f).tracker.root)
  {
    var p := LastInvocation(t, 0).path;
    AppendGrows(t.root, p, f);
  }

  /** Nothing recorded is lost, and no tracker is in authentication. */
  ghost predicate Keeps(r: State, r': State) {
    && r'.mode.Recording? && (r.failing ==> r'.failing)
    && AccountsGrow(r.accounts, r'.accounts)
    && forall i :: 0 <= i < |r'.accounts| ==> !r'.accounts[i].borrowed
  }

  lemma RecordWithKeeps(r: State, i: nat, f: AuthorizedFunction)
    requires Keeps(r, r) && i < |r.accounts| && RecordWith(r, i, f).Next?
    ensures Keeps(r, RecordWith(r, i, f).state)
  {
    hide RecordInvocation, Grows;
    if RecordInvocation(r.accounts[i].tracker, f).Recorded? {
      RecordGrowsTree(r.accounts[i].tracker, f);
    }
  }

  lemma StartKeeps(env: Env, r: State, address: Address, handle: nat, f: AuthorizedFunction, freshNonce: int)
    requires Keeps(r, r) && r.callStack != [] && StartRecording(env, r, address, handle, f, freshNonce).Next?
    ensures Keeps(r, StartRecording(env, r, address, handle, f, freshNonce).state)
  {
    hide Grows;
  }

  lemma RequestKeeps(env: Env, r: State, address: Address, handle: nat, f: AuthorizedFunction, freshNonce: int)
    requires Keeps(r, r) && r.callStack != [] && RequireRecording(env, r, address, handle, f, freshNonce).Next?
    ensures Keeps(r, RequireRecording(env, r, address, handle, f, freshNonce).state)
  {
    hide RecordWith, StartRecording, HasMatchInStack, AccountsGrow;
    var r1 := r.(mode := r.mode.(handles := r.mode.handles - {handle}));
    var existing := if handle in r.mode.handles then Some(r.mode.handles[handle]) else None;
    if existing.Some? && existing.value < |r.accounts| && HasMatchInStack(r.accounts[existing.value].tracker) {
      RecordWithKeeps(r, existing.value, f);
    } else if existing.None? || existing.value < |r.accounts| {
      var i := FindRecorder(r.accounts, address, 0);
      if i.Recorder? {
        RecordWithKeeps(r1, i.index, f);
      } else if i.NoRecorder? {
        StartKeeps(env, r1, address, handle, f, freshNonce);
      }
    }
  }

  /** No step of a rollback-free recording run loses anything recorded. */
  lemma StepGrows(env: Env, r: State, e: Event)
    requires r.mode.Recording? && Recordable(e) && Step(env, r, e).Next?
    requires forall i :: 0 <= i < |r.accounts| ==> !r.accounts[i].borrowed
    ensures Keeps(r, Step(env, r, e).state)
  {
    hide RequireRecording, CheckInvoker, RequireEnforcing, Grows;
    var r' := Step(env, r, e).state;
    AccountsGrowRefl(r.accounts);
    if e.RequireAuth? {
      var f := ToAuthorizedFunction(r.callStack[|r.callStack| - 1], e.callArgs);
      if CheckInvoker(r.callStack, r.invokers, e.address, f) == NotAuthorized {
        RequestKeeps(env, r, e.address, e.handle, f, e.freshNonce);
      }
    } else {
      assert |r'.accounts| == |r.accounts|;
      assert forall i :: 0 <= i < |r.accounts| ==> r'.accounts[i].tracker.root == r.accounts[i].tracker.root;
    }
  }

  lemma {:induction false} RunGrows(env: Env, h: Address -> nat, r: State, events: seq<Event>)
    requires r.mode.Recording? && OneHandle(h, events) && Run(env, r, events).Next?
    requires forall i :: 0 <= i < |r.accounts| ==> !r.accounts[i].borrowed
    ensures AccountsGrow(r.accounts, Run(env, r, events).state.accounts)
    ensures r.failing ==> Run(env, r, events).state.failing
    decreases |events|
  {
    if events == [] {
      AccountsGrowRefl(r.accounts);
    } else {
      StepGrows(env, r, events[0]);
      var r' := Step(env, r, events[0]).state;
      RunGrows(env, h, r', events[1..]);
      AccountsGrowTrans(r.accounts, r'.accounts, Run(env, r, events).state.accounts);
    }
  }
}
