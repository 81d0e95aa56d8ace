/** The simulation between a recording run and its enforcing replay. */
module AuthRecordEnforce {
  import opened Wrappers
  import opened AuthTypes
  import opened AuthTree
  import opened InvocationTracking
  import opened AuthMachine
  import opened AuthInvariant
  import opened AuthRecording
  import opened AuthReplay

  // ---------- the replaying accounts ----------

  /** The entry a client submits for a recorded tracker, valid until `exp`. */
  function PayloadEntry(a: Account, exp: nat): AuthEntry {
    AuthEntry(
      if a.isSource then SourceAccount
      else AddressCredentials(a.address, if a.nonce.Some? then a.nonce.value.value else 0, exp),
      ToXdr(a.tracker.root, false))
  }

  function Payloads(accounts: seq<Account>, exp: nat): seq<AuthEntry> {
    seq(|accounts|, i requires 0 <= i < |accounts| => PayloadEntry(accounts[i], exp))
  }

  function ReplayNonce(a: Account, exp: nat): Option<Nonce> {
    if a.isSource then None else Some(Nonce(if a.nonce.Some? then a.nonce.value.value else 0, exp))
  }

  /** The enforcing counterpart of a tracker recorded so far, given its final form. */
  ghost function Replayed(a: Account, final: Account, exp: nat): Account
    requires AccountGrows(a, final)
  {
    Account(a.address, Masked(a.tracker, Mask(a.tracker.root, final.tracker.root)), a.isSource, true, ReplayNonce(a, exp), false)
  }

  /** The enforcing counterpart of a tracker yet to be recorded. */
  function Fresh(final: Account, exp: nat, depth: nat): Account {
    Account(final.address, Tracker(Clear(final.tracker.root), seq(depth, _ => Unmatched), None, false),
            final.isSource, false, ReplayNonce(final, exp), false)
  }

  ghost function Counterparts(accounts: seq<Account>, final: seq<Account>, exp: nat, depth: nat): seq<Account>
    requires AccountsGrow(accounts, final)
  {
    seq(|final|, i requires 0 <= i < |final| =>
      if i < |accounts| then Replayed(accounts[i], final[i], exp) else Fresh(final[i], exp, depth))
  }

  ghost predicate SameScopes(a: Ctl, b: Ctl)
    decreases a
  {
    match a
    case Bottom => b.Bottom?
    case Scope(kind, _, before) => b.Scope? && b.kind == kind && SameScopes(before.ctl, b.before.ctl)
  }

  /** The enforcing state that mirrors a recording state on its way to `final`. */
  ghost predicate Sim(r: State, e: State, final: seq<Account>, exp: nat) {
    && AccountsGrow(r.accounts, final)
    && e.mode == Enforcing && !e.failing
    && e.accounts == Counterparts(r.accounts, final, exp, |r.callStack|)
    && e.invokers == r.invokers && e.callStack == r.callStack
    && e.nonces == r.nonces && e.log == r.log
    && SameScopes(r.ctl, e.ctl)
  }

  lemma PushCounterparts(accounts: seq<Account>, final: seq<Account>, exp: nat, depth: nat)
    requires AccountsGrow(accounts, final) && AccountsGrow(PushAccounts(accounts), final)
    requires forall i :: 0 <= i < |accounts| ==> !accounts[i].borrowed
    ensures PushAccounts(Counterparts(accounts, final, exp, depth)) == Counterparts(PushAccounts(accounts), final, exp, depth + 1)
  {
    var x := PushAccounts(Counterparts(accounts, final, exp, depth));
    var y := Counterparts(PushAccounts(accounts), final, exp, depth + 1);
    forall i | 0 <= i < |final| ensures x[i] == y[i] {
      if i >= |accounts| {
        assert x[i].tracker.stack == y[i].tracker.stack;
      }
    }
  }

  lemma PopCounterparts(accounts: seq<Account>, final: seq<Account>, exp: nat, depth: nat)
    requires AccountsGrow(accounts, final) && AccountsGrow(PopAccounts(accounts), final) && depth > 0
    requires forall i :: 0 <= i < |accounts| ==> !accounts[i].borrowed
    ensures PopAccounts(Counterparts(accounts, final, exp, depth)) == Counterparts(PopAccounts(accounts), final, exp, depth - 1)
  {
    var x := PopAccounts(Counterparts(accounts, final, exp, depth));
    var y := Counterparts(PopAccounts(accounts), final, exp, depth - 1);
    forall i | 0 <= i < |final| ensures x[i] == y[i] {
      if i >= |accounts| {
        assert x[i].tracker.stack == y[i].tracker.stack;
      }
    }
  }

  // ---------- one step of the replay ----------

  /** Enforcing, with every authentication answered positively at once. */
  function ReplayStep(env: Env, s: State, e: Event): StepResult {
    match Step(env, s, e)
    case Next(s1) =>
      if e.RequireAuth? && s1.ctl.Scope? && s1.ctl.kind.Authentication? then Step(env, s1, AuthDone(true, true)) else Next(s1)
    case r => r
  }

  function Replay(env: Env, s: State, events: seq<Event>): StepResult
    decreases |events|
  {
    if events == [] then Next(s)
    else
      match ReplayStep(env, s, events[0])
      case Next(s1) => Replay(env, s1, events[1..])
      case r => r
  }

  lemma PushRecordInv(env: Env, h: Address -> nat, r: State, frame: AuthStackFrame, ctl: Ctl)
    requires RecordInv(env, h, r)
    requires ctl.Scope? && ctl.before == r && PushesFrame(ctl.kind)
    ensures RecordInv(env, h, PushCallFrame(r, frame).(ctl := ctl))
  {
    var r' := PushCallFrame(r, frame).(ctl := ctl);
    forall i | 0 <= i < |r.accounts| ensures RecorderOk(r'.accounts[i], r'.callStack) {
      PushOk(r.accounts[i].tracker, r.callStack, frame);
    }
    assert r'.callStack[..|r'.callStack| - 1] == r.callStack;
    assert HandlesOk(h, r'.accounts, r'.mode.handles);
  }

  lemma PopRecordersOk(h: Address -> nat, accounts: seq<Account>, handles: map<nat, nat>, callStack: seq<AuthStackFrame>)
    requires callStack != [] && HandlesOk(h, accounts, handles)
    requires forall i :: 0 <= i < |accounts| ==> RecorderOk(accounts[i], callStack)
    ensures HandlesOk(h, PopAccounts(accounts), handles)
    ensures forall i :: 0 <= i < |accounts| ==> RecorderOk(PopAccounts(accounts)[i], callStack[..|callStack| - 1])
  {
    forall i | 0 <= i < |accounts| ensures RecorderOk(PopAccounts(accounts)[i], callStack[..|callStack| - 1]) {
      PopOk(accounts[i].tracker, callStack);
    }
  }

  lemma PopRecordInv(env: Env, h: Address -> nat, r: State)
    requires RecordInv(env, h, r) && r.ctl.Scope?
    ensures RecordInv(env, h, PopCallFrame(r).(ctl := r.ctl.before.ctl))
  {
    hide HandlesOk, RecorderOk, PopInvokers;
    if r.callStack != [] {
      PopRecordersOk(h, r.accounts, r.mode.handles, r.callStack);
    }
  }

  /** With one handle per address, a request is recorded by the tracker its handle leads to if
      that one is active, and by a new tracker otherwise: no other tracker can be active. */
  lemma RecordingChoice(env: Env, h: Address -> nat, r: State, address: Address, f: AuthorizedFunction, freshNonce: int)
    requires RecordInv(env, h, r) && r.callStack != []
    requires forall a, b :: h(a) == h(b) ==> a == b
    ensures var handle := h(address);
            var result := RequireRecording(env, r, address, handle, f, freshNonce);
            if handle in r.mode.handles && IsActive(r.accounts[r.mode.handles[handle]].tracker) then
              && r.accounts[r.mode.handles[handle]].address == address
              && result == RecordWith(r, r.mode.handles[handle], f)
            else
              && (forall i :: 0 <= i < |r.accounts| && r.accounts[i].address == address ==> !IsActive(r.accounts[i].tracker))
              && result == StartRecording(env, r.(mode := r.mode.(handles := r.mode.handles - {handle})), address, handle, f, freshNonce)
  {
    forall i | 0 <= i < |r.accounts| ensures HasMatchInStack(r.accounts[i].tracker) <==> IsActive(r.accounts[i].tracker) {
      assert RecorderOk(r.accounts[i], r.callStack);
      ActiveIffRootMatched(r.accounts[i].tracker, r.callStack);
    }
    var handle := h(address);
    var handles := r.mode.handles;
    if !(handle in handles && IsActive(r.accounts[handles[handle]].tracker)) {
      assert FindRecorder(r.accounts, address, 0).NoRecorder?;
    }
  }

  /** An inactive tracker whose root is used cannot match. */
  lemma InactiveNoMatch(t: Tracker, f: AuthorizedFunction, frames: seq<AuthStackFrame>, allowRoot: bool)
    requires TrackerOk(t, frames) && t.root.exhausted && !IsActive(t)
    ensures TryMatch(t, f, allowRoot) == NoMatch
  {
    LastIsFold(t, frames);
  }

  lemma {:induction false} SkipToAccount(accounts: seq<Account>, address: Address, f: AuthorizedFunction, allowRoot: bool, i: nat, m: nat)
    requires i <= m < |accounts|
    requires !accounts[m].borrowed && accounts[m].address == address
    requires TryMatch(accounts[m].tracker, f, allowRoot).Matched?
    requires forall k :: i <= k < m ==> accounts[k].borrowed || accounts[k].address != address || TryMatch(accounts[k].tracker, f, allowRoot) == NoMatch
    ensures var r := TryMatch(accounts[m].tracker, f, allowRoot);
            FindAccount(accounts, address, f, allowRoot, i) == Found(m, r.tracker, r.path)
    decreases m - i
  {
    if i < m { SkipToAccount(accounts, address, f, allowRoot, i + 1, m); }
  }

  /** Earlier counterparts of the address stay silent: their roots are used and they are not active. */
  lemma SilentCounterparts(h: Address -> nat, r: State, e: State, final: seq<Account>, exp: nat, env: Env, f: AuthorizedFunction, allowRoot: bool, i: nat)
    requires RecordInv(env, h, r) && Sim(r, e, final, exp)
    requires i < |r.accounts| && !IsActive(r.accounts[i].tracker)
    ensures TryMatch(e.accounts[i].tracker, f, allowRoot) == NoMatch
  {
    assert RecorderOk(r.accounts[i], r.callStack) && AccountGrows(r.accounts[i], final[i]);
    MaskedOk(r.accounts[i].tracker, final[i].tracker.root, r.callStack);
    InactiveNoMatch(e.accounts[i].tracker, f, r.callStack, allowRoot);
  }

  lemma RecordWithInv(env: Env, h: Address -> nat, r: State, i: nat, f: AuthorizedFunction)
    requires RecordInv(env, h, r) && i < |r.accounts|
    requires r.callStack != [] && FrameOf(f) == r.callStack[|r.callStack| - 1]
    requires RecordWith(r, i, f).Next? && !RecordWith(r, i, f).state.failing
    ensures RecordInv(env, h, RecordWith(r, i, f).state)
  {
    hide RecordInvocation, TrackerOk, IsActive, AllExhausted;
    assert RecorderOk(r.accounts[i], r.callStack);
    RecordedOk(r.accounts[i].tracker, f, r.callStack);
  }

  lemma ReplayRecordWith(env: Env, h: Address -> nat, r: State, e: State, final: seq<Account>, exp: nat, i: nat, address: Address, f: AuthorizedFunction)
    requires RecordInv(env, h, r) && Sim(r, e, final, exp)
    requires forall a, b :: h(a) == h(b) ==> a == b
    requires i < |r.accounts| && r.accounts[i].address == address && IsActive(r.accounts[i].tracker)
    requires r.callStack != [] && FrameOf(f) == r.callStack[|r.callStack| - 1]
    requires RecordWith(r, i, f).Next? && !RecordWith(r, i, f).state.failing
    requires AccountsGrow(RecordWith(r, i, f).state.accounts, final)
    ensures RecordInv(env, h, RecordWith(r, i, f).state)
    ensures var x := RequireEnforcing(e, address, f);
            x.Next? && x.state.ctl == e.ctl && Sim(RecordWith(r, i, f).state, x.state, final, exp)
  {
    hide TryMatch, RecordInvocation, TrackerOk, IsActive, Grows, AllExhausted, Masked, Mask, HasActive;
    var r' := RecordWith(r, i, f).state;
    var t := r.accounts[i].tracker;
    RecordWithInv(env, h, r, i, f);
    assert RecorderOk(r.accounts[i], r.callStack);
    assert AccountGrows(r'.accounts[i], final[i]);
    var allowRoot := !HasActive(e.accounts, address);
    ReplayMatch(t, f, final[i].tracker.root, r.callStack, allowRoot);
    forall k | 0 <= k < i && e.accounts[k].address == address
      ensures TryMatch(e.accounts[k].tracker, f, allowRoot) == NoMatch
    {
      SilentCounterparts(h, r, e, final, exp, env, f, allowRoot, k);
    }
    SkipToAccount(e.accounts, address, f, allowRoot, 0, i);
    var x := RequireEnforcing(e, address, f).state;
    assert x.accounts == Counterparts(r'.accounts, final, exp, |r'.callStack|);
  }
}
