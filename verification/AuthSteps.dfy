/** Matching, recording, authentication and the whole step relation keep the invariant; so every
    reachable state satisfies it, in either mode. */
module AuthSteps {
  import opened Wrappers
  import opened AuthTypes
  import opened AuthTree
  import opened InvocationTracking
  import opened AuthMachine
  import opened AuthInvariant
  import opened AuthPreservation
  import opened AuthRecording

  // ---------- matching an account tracker ----------

  function MatchedAccount(a: Account, t: Tracker): Account {
    a.(tracker := t, borrowed := !a.verified)
  }

  /** A tracker may start a new tree only where every other active tracker of the address
      has already matched the frame. */
  lemma MatchDisjoint(accounts: seq<Account>, callStack: seq<AuthStackFrame>, i: nat, f: AuthorizedFunction, allowRoot: bool)
    requires AccountsOk(accounts, callStack) && DisjointOk(accounts)
    requires callStack != [] && FrameOf(f) == callStack[|callStack| - 1]
    requires i < |accounts| && !accounts[i].borrowed
    requires allowRoot ==> !HasActive(accounts, accounts[i].address)
    requires TryMatch(accounts[i].tracker, f, allowRoot).Matched?
    ensures DisjointOk(accounts[i := MatchedAccount(accounts[i], TryMatch(accounts[i].tracker, f, allowRoot).tracker)])
  {
    var a := accounts[i];
    var r := TryMatch(a.tracker, f, allowRoot);
    var n := |callStack| - 1;
    MatchOk(a.tracker, f, allowRoot, callStack);
    assert AccountOk(a, callStack);
    var a' := MatchedAccount(a, r.tracker);
    var accounts' := accounts[i := a'];
    assert forall k :: 0 <= k < n ==> a'.tracker.stack[k] == a.tracker.stack[k] by {
      assert forall k :: 0 <= k < n ==> a'.tracker.stack[..n][k] == a.tracker.stack[..n][k];
    }
    forall j | 0 <= j < |accounts| && j != i && accounts[j].address == a.address
      ensures MatchedAtRootOf(a', accounts[j]) && MatchedAtRootOf(accounts[j], a')
    {
      var b := accounts[j];
      assert AccountOk(b, callStack);
      assert MatchedAtRootOf(a, b) && MatchedAtRootOf(b, a);
      assert allowRoot ==> !ActiveElsewhere(b, a.address);
    }
    forall k, j | 0 <= k < |accounts'| && 0 <= j < |accounts'| && k != j && accounts'[k].address == accounts'[j].address
      ensures MatchedAtRootOf(accounts'[k], accounts'[j])
    {
      assert k != i && j != i ==> MatchedAtRootOf(accounts[k], accounts[j]);
    }
  }

  lemma MatchedAccountOk(a: Account, callStack: seq<AuthStackFrame>, f: AuthorizedFunction, allowRoot: bool)
    requires AccountOk(a, callStack) && !a.borrowed
    requires callStack != [] && FrameOf(f) == callStack[|callStack| - 1]
    requires TryMatch(a.tracker, f, allowRoot).Matched?
    ensures var r := TryMatch(a.tracker, f, allowRoot);
            var a' := MatchedAccount(a, r.tracker);
            && AccountOk(a', callStack)
            && AccountEvolves(Below(|callStack|), a, a')
            && a'.tracker.root.exhausted
            && |r.tracker.stack| == |callStack|
            && UsesOneMore(a.tracker.root, a'.tracker.root, r.path)
  {
    MatchOk(a.tracker, f, allowRoot, callStack);
    MatchExtends(a.tracker, f, allowRoot, callStack);
    ExhaustUses(a.tracker.root, TryMatch(a.tracker, f, allowRoot).path);
    assert callStack[..|callStack|] == callStack;
  }

  lemma UpdateFlags(accounts: seq<Account>, nonces: set<(Address, int)>, i: nat, a: Account)
    requires i < |accounts| && VerifiedOk(accounts) && NoncesOk(accounts, nonces)
    requires a.address == accounts[i].address && a.nonce == accounts[i].nonce && a.isSource == accounts[i].isSource
    requires a.verified == accounts[i].verified && a.borrowed == !a.verified && a.tracker.root.exhausted
    ensures VerifiedOk(accounts[i := a]) && NoncesOk(accounts[i := a], nonces)
  {
    var accounts' := accounts[i := a];
    assert forall k :: 0 <= k < |accounts| ==>
      && HoldsNonce(accounts'[k]) == HoldsNonce(accounts[k])
      && accounts'[k].address == accounts[k].address && accounts'[k].nonce == accounts[k].nonce;
  }

  lemma MatchLocal(s: State, i: nat, f: AuthorizedFunction, allowRoot: bool)
    requires LocalInv(s) && !s.failing
    requires s.callStack != [] && FrameOf(f) == s.callStack[|s.callStack| - 1]
    requires i < |s.accounts| && !s.accounts[i].borrowed
    requires allowRoot ==> !HasActive(s.accounts, s.accounts[i].address)
    requires TryMatch(s.accounts[i].tracker, f, allowRoot).Matched?
    ensures var r := TryMatch(s.accounts[i].tracker, f, allowRoot);
            var accounts' := s.accounts[i := MatchedAccount(s.accounts[i], r.tracker)];
            && AccountsOk(accounts', s.callStack)
            && VerifiedOk(accounts')
            && NoncesOk(accounts', s.nonces)
            && DisjointOk(accounts')
            && LogOk(accounts', s.log + [Match(i, r.path)])
            && AccountEvolves(Below(|s.callStack|), s.accounts[i], accounts'[i])
            && |r.tracker.stack| == |s.callStack|
  {
    var a := s.accounts[i];
    var r := TryMatch(a.tracker, f, allowRoot);
    var a' := MatchedAccount(a, r.tracker);
    assert AccountOk(a, s.callStack);
    MatchedAccountOk(a, s.callStack, f, allowRoot);
    MatchDisjoint(s.accounts, s.callStack, i, f, allowRoot);
    UpdateFlags(s.accounts, s.nonces, i, a');
    LogAppend(s.accounts, s.log, i, a', r.path);
  }

  lemma NoAccountFault(s: State, address: Address, f: AuthorizedFunction, allowRoot: bool)
    requires LocalInv(s)
    requires s.callStack != [] && FrameOf(f) == s.callStack[|s.callStack| - 1]
    ensures !FindAccount(s.accounts, address, f, allowRoot, 0).FindFault?
  {
    forall k | 0 <= k < |s.accounts| && !s.accounts[k].borrowed
      ensures !TryMatch(s.accounts[k].tracker, f, allowRoot).Fault?
    {
      assert AccountOk(s.accounts[k], s.callStack);
      MatchOk(s.accounts[k].tracker, f, allowRoot, s.callStack);
    }
  }

  lemma FailInv(s: State)
    requires Inv(s)
    ensures Inv(s.(failing := true))
  {
    SelfEvolves(s);
    assert LocalInv(s.(failing := true));
    EvolveInv(s, s.(failing := true));
  }

  lemma EvolveOne(s: State, s': State, i: nat)
    requires LocalInv(s) && i < |s.accounts|
    requires s'.mode == s.mode && s'.callStack == s.callStack && s'.invokers == s.invokers
    requires |s'.accounts| == |s.accounts| && s'.accounts == s.accounts[i := s'.accounts[i]]
    requires s'.accounts[i].borrowed == s.accounts[i].borrowed
    requires AccountEvolves(Below(|s.callStack|), s.accounts[i], s'.accounts[i])
    requires s.log <= s'.log
    ensures Evolves(s, s')
  {
    SelfEvolves(s);
  }

  lemma UpdateEvolves(d: nat, accounts: seq<Account>, i: nat, a: Account)
    requires i < |accounts| && AccountsEvolve(d, accounts, accounts) && AccountEvolves(d, accounts[i], a)
    ensures AccountsEvolve(d, accounts, accounts[i := a])
  {
  }

  lemma AuthScopeRel(s: State, s': State, i: nat)
    requires LocalInv(s) && !s.failing && i < |s.accounts| && s.mode.Enforcing?
    requires s'.mode == s.mode && s'.callStack == s.callStack && s'.invokers == s.invokers
    requires |s'.accounts| == |s.accounts| && s'.accounts == s.accounts[i := s'.accounts[i]]
    requires s'.accounts[i].borrowed && !s.accounts[i].borrowed
    requires |s'.accounts[i].tracker.stack| == |s.callStack|
    requires AccountEvolves(Below(|s.callStack|), s.accounts[i], s'.accounts[i])
    requires s.log <= s'.log
    ensures ScopeRel(Authentication(i), s, s')
  {
    SelfEvolves(s);
    UpdateEvolves(Below(|s.callStack|), s.accounts, i, s'.accounts[i]);
  }

  /** Entering the authentication of a tracker that has just matched. */
  lemma EnterAuthentication(s: State, s': State, i: nat)
    requires Inv(s) && !s.failing && LocalInv(s') && i < |s.accounts| && s.mode.Enforcing?
    requires s'.ctl == Scope(Authentication(i), None, s)
    requires s'.mode == s.mode && s'.callStack == s.callStack && s'.invokers == s.invokers
    requires |s'.accounts| == |s.accounts| && s'.accounts == s.accounts[i := s'.accounts[i]]
    requires s'.accounts[i].borrowed && !s.accounts[i].borrowed
    requires |s'.accounts[i].tracker.stack| == |s.callStack|
    requires AccountEvolves(Below(|s.callStack|), s.accounts[i], s'.accounts[i])
    requires s.log <= s'.log
    ensures Inv(s')
  {
    AuthScopeRel(s, s', i);
  }

  /** The state after a match, whether or not an authentication follows. */
  lemma FoundLocal(s: State, s': State, i: nat, f: AuthorizedFunction, allowRoot: bool)
    requires LocalInv(s) && !s.failing && s.mode.Enforcing?
    requires s.callStack != [] && FrameOf(f) == s.callStack[|s.callStack| - 1]
    requires i < |s.accounts| && !s.accounts[i].borrowed
    requires allowRoot ==> !HasActive(s.accounts, s.accounts[i].address)
    requires TryMatch(s.accounts[i].tracker, f, allowRoot).Matched?
    requires var r := TryMatch(s.accounts[i].tracker, f, allowRoot);
             s' == s.(accounts := s.accounts[i := MatchedAccount(s.accounts[i], r.tracker)], log := s.log + [Match(i, r.path)], ctl := s'.ctl)
    requires s'.ctl == s.ctl || s'.ctl.Scope?
    ensures LocalInv(s') && |s'.accounts[i].tracker.stack| == |s.callStack|
    ensures AccountEvolves(Below(|s.callStack|), s.accounts[i], s'.accounts[i])
  {
    hide TryMatch, HasActive, AccountsOk, VerifiedOk, NoncesOk, InvokersOk, DisjointOk, LogOk, AccountEvolves;
    MatchLocal(s, i, f, allowRoot);
  }

  lemma RequireEnforcingInv(s: State, address: Address, f: AuthorizedFunction)
    requires Inv(s) && !s.failing && s.mode.Enforcing?
    requires s.callStack != [] && FrameOf(f) == s.callStack[|s.callStack| - 1]
    ensures var r := RequireEnforcing(s, address, f); r.Next? && Inv(r.state)
  {
    hide TryMatch, FindAccount, HasActive, SnapshotRel, ScopeRel, LocalInv, AccountEvolves;
    var allowRoot := !HasActive(s.accounts, address);
    NoAccountFault(s, address, f, allowRoot);
    match FindAccount(s.accounts, address, f, allowRoot, 0)
    case NotFound => FailInv(s);
    case Found(i, t, p) =>
      var s' := RequireEnforcing(s, address, f).state;
      FoundLocal(s, s', i, f, allowRoot);
      if s.accounts[i].verified {
        EvolveOne(s, s', i);
        EvolveInv(s, s');
      } else {
        EnterAuthentication(s, s', i);
      }
  }

  // ---------- recording ----------

  /** More matches in the current frame keep trees disjoint. */
  lemma RecordDisjoint(accounts: seq<Account>, callStack: seq<AuthStackFrame>, i: nat, a: Account)
    requires AccountsOk(accounts, callStack) && DisjointOk(accounts) && i < |accounts| && callStack != []
    requires !accounts[i].borrowed && AccountOk(a, callStack) && !a.borrowed && a.address == accounts[i].address
    requires IsActive(accounts[i].tracker) && CurrentFrameMatched(a.tracker)
    requires a.tracker.rootFrame == accounts[i].tracker.rootFrame
    requires a.tracker.stack[..|callStack| - 1] == accounts[i].tracker.stack[..|callStack| - 1]
    ensures DisjointOk(accounts[i := a])
  {
    var n := |callStack| - 1;
    var accounts' := accounts[i := a];
    var t, t' := accounts[i].tracker, a.tracker;
    assert AccountOk(accounts[i], callStack);
    assert forall k :: 0 <= k < n ==> t'.stack[k] == t.stack[k] by {
      assert forall k :: 0 <= k < n ==> t'.stack[..n][k] == t.stack[..n][k];
    }
    forall k, j | 0 <= k < |accounts'| && 0 <= j < |accounts'| && k != j && accounts'[k].address == accounts'[j].address
      ensures MatchedAtRootOf(accounts'[k], accounts'[j])
    {
      assert MatchedAtRootOf(accounts[k], accounts[j]);
    }
  }

  lemma RecordLocal(s: State, i: nat, f: AuthorizedFunction)
    requires LocalInv(s) && s.mode.Recording? && i < |s.accounts| && IsActive(s.accounts[i].tracker)
    requires s.callStack != [] && FrameOf(f) == s.callStack[|s.callStack| - 1]
    ensures RecordWith(s, i, f).Next? && LocalInv(RecordWith(s, i, f).state)
  {
    hide RecordInvocation, TrackerOk, AllExhausted, UsesOneMore, LogOk, NoncesOk, InvokersOk, DisjointOk, IsActive;
    var a := s.accounts[i];
    assert RecordedOnly(a) && AccountOk(a, s.callStack);
    RecordOk(a.tracker, f, s.callStack);
    var r := RecordInvocation(a.tracker, f);
    if r.Recorded? {
      var a' := a.(tracker := r.tracker);
      RecordDisjoint(s.accounts, s.callStack, i, a');
      LogAppend(s.accounts, s.log, i, a', r.path);
      KeepsNonces(s.accounts, s.nonces, i, a');
      AllUsedRoot(r.tracker.root);
    }
  }

  lemma AllUsedRoot(t: Invocation)
    requires AllExhausted(t)
    ensures t.exhausted
  {
  }

  lemma KeepsNonces(accounts: seq<Account>, nonces: set<(Address, int)>, i: nat, a: Account)
    requires NoncesOk(accounts, nonces) && i < |accounts| && a == accounts[i].(tracker := a.tracker)
    ensures NoncesOk(accounts[i := a], nonces)
  {
    var accounts' := accounts[i := a];
    assert forall k :: 0 <= k < |accounts| ==>
      && HoldsNonce(accounts'[k]) == HoldsNonce(accounts[k])
      && accounts'[k].address == accounts[k].address && accounts'[k].nonce == accounts[k].nonce;
  }

  /** A new tracker is made only where every active tracker of the address has already matched
      the frame. */
  lemma NewDisjoint(accounts: seq<Account>, callStack: seq<AuthStackFrame>, a: Account)
    requires AccountsOk(accounts, callStack) && DisjointOk(accounts) && callStack != []
    requires AccountOk(a, callStack) && !a.borrowed && !HasActive(accounts, a.address)
    requires forall i :: 0 <= i < |accounts| ==> !accounts[i].borrowed
    requires a.tracker.rootFrame == Some(|callStack| - 1) && CurrentFrameMatched(a.tracker)
    ensures DisjointOk(accounts + [a])
  {
    var accounts' := accounts + [a];
    forall k, j | 0 <= k < |accounts'| && 0 <= j < |accounts'| && k != j && accounts'[k].address == accounts'[j].address
      ensures MatchedAtRootOf(accounts'[k], accounts'[j])
    {
      if k < |accounts| {
        assert AccountOk(accounts[k], callStack) && !ActiveElsewhere(accounts[k], a.address);
        if j < |accounts| { assert MatchedAtRootOf(accounts[k], accounts[j]); }
      } else {
        assert AccountOk(accounts[j], callStack);
      }
    }
  }

  lemma NewHoldsNonce(accounts: seq<Account>, nonces: set<(Address, int)>, a: Account, n: int)
    requires NoncesOk(accounts, nonces) && a.verified
    requires !a.isSource ==> a.nonce.Some? && a.nonce.value.value == n && (a.address, n) !in nonces
    ensures NoncesOk(accounts + [a], if a.isSource then nonces else nonces + {(a.address, n)})
  {
    var accounts' := accounts + [a];
    forall j, k | 0 <= j < k < |accounts'| && HoldsNonce(accounts'[j]) && HoldsNonce(accounts'[k])
      ensures accounts'[j].address != accounts'[k].address || accounts'[j].nonce.value.value != accounts'[k].nonce.value.value
    {
      assert HoldsNonce(accounts[j]);
      if k < |accounts| { assert HoldsNonce(accounts[k]); }
    }
  }

  lemma NewAccountLocal(s: State, a: Account, n: int)
    requires LocalInv(s) && s.mode.Recording? && s.callStack != [] && !HasActive(s.accounts, a.address)
    requires TrackerOk(a.tracker, s.callStack) && AllExhausted(a.tracker.root) && a.verified && !a.borrowed
    requires a.tracker.rootFrame == Some(|s.callStack| - 1) && CurrentFrameMatched(a.tracker)
    requires CountExhausted(a.tracker.root) == 1 && forall q :: Flag(a.tracker.root, q) <==> q == []
    requires !a.isSource ==> a.nonce.Some? && a.nonce.value.value == n && (a.address, n) !in s.nonces
    ensures var accounts := s.accounts + [a];
            && AccountsOk(accounts, s.callStack) && DisjointOk(accounts) && VerifiedOk(accounts)
            && NoncesOk(accounts, if a.isSource then s.nonces else s.nonces + {(a.address, n)})
            && LogOk(accounts, s.log + [Match(|s.accounts|, [])])
            && forall i :: 0 <= i < |accounts| ==> RecordedOnly(accounts[i])
  {
    assert forall i :: 0 <= i < |s.accounts| ==> RecordedOnly(s.accounts[i]);
    hide TrackerOk, HasActive, CountExhausted, Flag, InvokersOk;
    NewDisjoint(s.accounts, s.callStack, a);
    NewHoldsNonce(s.accounts, s.nonces, a, n);
    LogNew(s.accounts, s.log, a);
    hide LogOk, NoncesOk, DisjointOk;
  }

  lemma StartLocal(env: Env, s: State, address: Address, handle: nat, f: AuthorizedFunction, freshNonce: int)
    requires LocalInv(s) && s.mode.Recording? && !HasActive(s.accounts, address)
    requires s.callStack != [] && FrameOf(f) == s.callStack[|s.callStack| - 1]
    ensures StartRecording(env, s, address, handle, f, freshNonce).Next?
    ensures LocalInv(StartRecording(env, s, address, handle, f, freshNonce).state)
  {
    hide HasActive, AccountsOk, LogOk, NoncesOk, InvokersOk, DisjointOk, VerifiedOk, TrackerOk, AllExhausted, CountExhausted, Flag;
    var a := NewRecordingAccount(env, address, f, |s.callStack|, freshNonce);
    NewRecordedOk(env, address, f, s.callStack, freshNonce);
    if StartRecording(env, s, address, handle, f, freshNonce).state.accounts == s.accounts + [a] {
      NewAccountLocal(s, a, freshNonce);
    }
  }

  /** What a request is recorded with: the tracker its handle leads to if that one is active;
      otherwise the first that is active and unmatched here; otherwise a new one. */
  lemma RecordingStep(env: Env, s: State, address: Address, handle: nat, f: AuthorizedFunction, freshNonce: int)
    requires LocalInv(s) && s.mode.Recording? && s.callStack != []
    ensures var handles := s.mode.handles;
            var s1 := s.(mode := s.mode.(handles := handles - {handle}));
            var r := RequireRecording(env, s, address, handle, f, freshNonce);
            if handle in handles && IsActive(s.accounts[handles[handle]].tracker) then r == RecordWith(s, handles[handle], f)
            else if HasActive(s.accounts, address) then
              exists i: nat ::
                && i < |s.accounts| && ActiveElsewhere(s.accounts[i], address) && r == RecordWith(s1, i, f)
                && forall k :: 0 <= k < i ==> !ActiveElsewhere(s.accounts[k], address)
            else r == StartRecording(env, s1, address, handle, f, freshNonce)
  {
    hide RecordWith, StartRecording;
    forall i | 0 <= i < |s.accounts|
      ensures !s.accounts[i].borrowed && (HasMatchInStack(s.accounts[i].tracker) <==> IsActive(s.accounts[i].tracker))
    {
      assert RecordedOnly(s.accounts[i]) && AccountOk(s.accounts[i], s.callStack);
      ActiveIffRootMatched(s.accounts[i].tracker, s.callStack);
    }
    hide HasMatchInStack, IsActive;
    var found := FindRecorder(s.accounts, address, 0);
    if found.Recorder? {
      assert ActiveElsewhere(s.accounts[found.index], address);
    }
  }

  lemma RecordingLocal(env: Env, s: State, address: Address, handle: nat, f: AuthorizedFunction, freshNonce: int)
    requires LocalInv(s) && s.mode.Recording?
    requires s.callStack != [] && FrameOf(f) == s.callStack[|s.callStack| - 1]
    ensures var r := RequireRecording(env, s, address, handle, f, freshNonce); r.Next? && LocalInv(r.state)
  {
    var s1 := s.(mode := s.mode.(handles := s.mode.handles - {handle}));
    var r := RequireRecording(env, s, address, handle, f, freshNonce);
    assert LocalInv(s1);
    RecordingStep(env, s, address, handle, f, freshNonce);
    hide RequireRecording, RecordWith, StartRecording, AccountsOk, LogOk, NoncesOk, InvokersOk, DisjointOk, VerifiedOk;
    if handle in s.mode.handles && IsActive(s.accounts[s.mode.handles[handle]].tracker) {
      RecordLocal(s, s.mode.handles[handle], f);
    } else if HasActive(s.accounts, address) {
      var i: nat :| i < |s.accounts| && ActiveElsewhere(s.accounts[i], address) && r == RecordWith(s1, i, f);
      RecordLocal(s1, i, f);
    } else {
      StartLocal(env, s1, address, handle, f, freshNonce);
    }
  }

  lemma RequireRecordingInv(env: Env, s: State, address: Address, handle: nat, f: AuthorizedFunction, freshNonce: int)
    requires Inv(s) && s.mode.Recording?
    requires s.callStack != [] && FrameOf(f) == s.callStack[|s.callStack| - 1]
    ensures var r := RequireRecording(env, s, address, handle, f, freshNonce); r.Next? && Inv(r.state)
  {
    hide LocalInv, RequireRecording;
    RecordingLocal(env, s, address, handle, f, freshNonce);
    RecordingEvolves(env, s, address, handle, f, freshNonce);
    EvolveInv(s, RequireRecording(env, s, address, handle, f, freshNonce).state);
  }

  lemma RecordingEvolves(env: Env, s: State, address: Address, handle: nat, f: AuthorizedFunction, freshNonce: int)
    requires LocalInv(s) && s.mode.Recording? && s.callStack != []
    requires RequireRecording(env, s, address, handle, f, freshNonce).Next?
    ensures Evolves(s, RequireRecording(env, s, address, handle, f, freshNonce).state)
    ensures RequireRecording(env, s, address, handle, f, freshNonce).state.ctl == s.ctl
  {
    hide LocalInv, RequireRecording, InvokersEvolve, OldOrMadeAt;
    SelfEvolves(s);
    RecordingKeeps(env, s, address, handle, f, freshNonce);
  }

  lemma RecordingKeeps(env: Env, s: State, address: Address, handle: nat, f: AuthorizedFunction, freshNonce: int)
    requires s.mode.Recording? && s.callStack != []
    ensures RequireRecording(env, s, address, handle, f, freshNonce).Next? ==>
              var s' := RequireRecording(env, s, address, handle, f, freshNonce).state;
              && SameMode(s.mode, s'.mode) && s'.callStack == s.callStack && s'.invokers == s.invokers
              && s'.ctl == s.ctl && s.log <= s'.log
  {
    hide RecordInvocation, FindRecorder, HasMatchInStack, NewRecordingAccount;
  }

  // ---------- invoker trackers ----------

  lemma MatchNeedsFrames(t: Tracker, f: AuthorizedFunction, allowRoot: bool)
    requires TryMatch(t, f, allowRoot).Matched?
    ensures t.stack != []
  {
  }

  lemma UseByOk(v: Invoker, t: Tracker, p: Path)
    requires UsesOk(v) && UsesOneMore(v.tracker.root, t.root, p)
    ensures UsesOk(UseBy(v, t, p))
  {
    forall q ensures q in UseBy(v, t, p).used <==> Flag(t.root, q) {
      assert q in v.used <==> Flag(v.tracker.root, q);
    }
  }

  lemma NewUsesOk(v: Invoker)
    requires NoneExhausted(v.tracker.root) && v.used == []
    ensures UsesOk(v)
  {
    CountNone(v.tracker.root);
    forall p ensures !Flag(v.tracker.root, p) {
      NoneExhaustedFlags(v.tracker.root, p);
    }
  }

  lemma InvokerMatchOk(v: Invoker, f: AuthorizedFunction, callStack: seq<AuthStackFrame>)
    requires InvokerOk(v, callStack) && callStack != [] && FrameOf(f) == callStack[|callStack| - 1]
    requires TryMatch(v.tracker, f, true).Matched?
    ensures var r := TryMatch(v.tracker, f, true);
            var v' := UseBy(v, r.tracker, r.path);
            InvokerOk(v', callStack) && InvokerEvolves(Below(|callStack|), v, v')
  {
    var r := TryMatch(v.tracker, f, true);
    var frames := callStack[v.depth..];
    MatchNeedsFrames(v.tracker, f, true);
    MatchOk(v.tracker, f, true, frames);
    MatchExtends(v.tracker, f, true, frames);
    ExhaustUses(v.tracker.root, r.path);
    UseByOk(v, r.tracker, r.path);
  }

  lemma InvokerMatchInv(s: State, i: nat, f: AuthorizedFunction)
    requires Inv(s) && !s.failing && i < |s.invokers|
    requires s.callStack != [] && FrameOf(f) == s.callStack[|s.callStack| - 1]
    requires TryMatch(s.invokers[i].tracker, f, true).Matched?
    ensures var r := TryMatch(s.invokers[i].tracker, f, true);
            Inv(s.(invokers := s.invokers[i := UseBy(s.invokers[i], r.tracker, r.path)]))
  {
    hide TryMatch, InvokerOk, InvokerEvolves, AccountsOk, VerifiedOk, NoncesOk, DisjointOk, LogOk, ScopeRel, SnapshotRel;
    var v := s.invokers[i];
    assert InvokerOk(v, s.callStack);
    InvokerMatchOk(v, f, s.callStack);
    var r := TryMatch(v.tracker, f, true);
    var s' := s.(invokers := s.invokers[i := UseBy(v, r.tracker, r.path)]);
    SelfEvolves(s);
    assert LocalInv(s');
    EvolveInv(s, s');
  }

  lemma NewInvokersOk(invokers: seq<Invoker>, callStack: seq<AuthStackFrame>, entries: seq<XdrInvocation>)
    requires InvokersOk(invokers, callStack) && callStack != [] && callStack[|callStack| - 1].Contract?
    ensures InvokersOk(invokers + NewInvokers(callStack, entries), callStack)
  {
    hide UsesOk, TrackerOk;
    var invokers' := invokers + NewInvokers(callStack, entries);
    forall k | 0 <= k < |invokers'| ensures InvokerOk(invokers'[k], callStack) {
      if k < |invokers| {
        assert InvokerOk(invokers[k], callStack);
      } else {
        var x := entries[k - |invokers|];
        FromXdrUnused(x);
        NewOk(FromXdr(x));
        NewUsesOk(invokers'[k]);
        assert callStack[|callStack|..] == [];
      }
    }
    forall j, k | 0 <= j <= k < |invokers'| ensures invokers'[j].depth <= invokers'[k].depth {
      assert j < |invokers| ==> InvokerOk(invokers[j], callStack);
    }
  }

  lemma AddInvokersInv(s: State, entries: seq<XdrInvocation>)
    requires Inv(s) && s.callStack != [] && s.callStack[|s.callStack| - 1].Contract?
    ensures Inv(s.(invokers := s.invokers + NewInvokers(s.callStack, entries)))
  {
    hide AccountsOk, VerifiedOk, NoncesOk, DisjointOk, LogOk, InvokersOk, SnapshotRel, ScopeRel;
    var s' := s.(invokers := s.invokers + NewInvokers(s.callStack, entries));
    NewInvokersOk(s.invokers, s.callStack, entries);
    SelfEvolves(s);
    assert LocalInv(s');
    EvolveInv(s, s');
  }

  // ---------- the end of an authentication ----------

  lemma ConsumeKeepsNonces(env: Env, accounts: seq<Account>, nonces: set<(Address, int)>, i: nat, access: bool)
    requires NoncesOk(accounts, nonces) && i < |accounts| && !accounts[i].verified
    ensures var r := ConsumeNonce(env, accounts[i], nonces, access);
            r.Some? ==> NoncesOk(accounts[i := accounts[i].(borrowed := false, verified := true)], r.value)
  {
    var a := accounts[i];
    var r := ConsumeNonce(env, a, nonces, access);
    if r.Some? {
      var accounts' := accounts[i := a.(borrowed := false, verified := true)];
      forall j, k | 0 <= j < k < |accounts'| && HoldsNonce(accounts'[j]) && HoldsNonce(accounts'[k])
        ensures accounts'[j].address != accounts'[k].address || accounts'[j].nonce.value.value != accounts'[k].nonce.value.value
      {
        assert j != i ==> HoldsNonce(accounts[j]);
        assert k != i ==> HoldsNonce(accounts[k]);
      }
    }
  }

  /** Releasing the tracker changes neither its tree nor its matches. */
  lemma ReleaseLocal(accounts: seq<Account>, callStack: seq<AuthStackFrame>, log: seq<Match>, i: nat, a: Account)
    requires AccountsOk(accounts, callStack) && DisjointOk(accounts) && LogOk(accounts, log)
    requires i < |accounts| && accounts[i].borrowed && |accounts[i].tracker.stack| == |callStack|
    requires a == accounts[i].(borrowed := false, verified := a.verified)
    ensures AccountsOk(accounts[i := a], callStack) && DisjointOk(accounts[i := a]) && LogOk(accounts[i := a], log)
  {
    var accounts' := accounts[i := a];
    assert AccountOk(accounts[i], callStack);
    assert callStack[..|callStack|] == callStack;
    forall k, j | 0 <= k < |accounts'| && 0 <= j < |accounts'| && k != j && accounts'[k].address == accounts'[j].address
      ensures MatchedAtRootOf(accounts'[k], accounts'[j])
    {
      assert MatchedAtRootOf(accounts[k], accounts[j]);
    }
    LogSameRoots(accounts, accounts', log);
  }

  lemma AuthDoneEvolves(env: Env, s: State, authenticated: bool, access: bool)
    requires Inv(s) && s.ctl.Scope? && s.ctl.kind.Authentication?
    ensures s.ctl.kind.account < |s.accounts|
    ensures Evolves(s.ctl.before, FinishAuthentication(env, s, s.ctl.kind.account, authenticated, access))
  {
    hide LocalInv, SnapshotRel, Extends, ConsumeNonce, InvokersEvolve, OldOrMadeAt;
    var b := s.ctl.before;
    var i := s.ctl.kind.account;
    var s' := FinishAuthentication(env, s, i, authenticated, access);
    forall k | 0 <= k < |s'.accounts|
      ensures AccountEvolves(Below(|b.callStack|), b.accounts[k], s'.accounts[k])
      ensures s'.accounts[k].borrowed <==> b.accounts[k].borrowed
    {
      assert AccountEvolves(Below(|b.callStack|), b.accounts[k], s.accounts[k]);
      assert s.accounts[k].borrowed <==> b.accounts[k].borrowed || k == i;
    }
  }

  lemma AuthDoneInv(env: Env, s: State, authenticated: bool, access: bool)
    requires Inv(s) && s.ctl.Scope? && s.ctl.kind.Authentication?
    ensures s.ctl.kind.account < |s.accounts|
    ensures Inv(FinishAuthentication(env, s, s.ctl.kind.account, authenticated, access))
  {
    AuthDoneEvolves(env, s, authenticated, access);
    var i := s.ctl.kind.account;
    var b := s.ctl.before;
    var s' := FinishAuthentication(env, s, i, authenticated, access);
    assert s.accounts[i].borrowed && |s.accounts[i].tracker.stack| == |s.callStack|;
    assert s.callStack == b.callStack;
    AuthDoneLocal(env, s, b.ctl, i, authenticated, access);
    LeaveInv(b, s');
  }

  lemma AuthDoneLocal(env: Env, s: State, ctl: Ctl, i: nat, authenticated: bool, access: bool)
    requires LocalInv(s) && s.ctl.Scope? && ctl == s.ctl.before.ctl
    requires ctl.Bottom? ==> s.callStack == []
    requires i < |s.accounts| && s.accounts[i].borrowed && |s.accounts[i].tracker.stack| == |s.callStack|
    ensures LocalInv(FinishAuthentication(env, s, i, authenticated, access))
  {
    var s' := FinishAuthentication(env, s, i, authenticated, access);
    assert AccountOk(s.accounts[i], s.callStack);
    ReleaseLocal(s.accounts, s.callStack, s.log, i, s'.accounts[i]);
    ConsumeKeepsNonces(env, s.accounts, s.nonces, i, access);
    ReleaseUnverified(s.accounts, s.nonces, i);
  }

  lemma ReleaseUnverified(accounts: seq<Account>, nonces: set<(Address, int)>, i: nat)
    requires NoncesOk(accounts, nonces) && i < |accounts|
    ensures NoncesOk(accounts[i := accounts[i].(borrowed := false)], nonces)
  {
    var accounts' := accounts[i := accounts[i].(borrowed := false)];
    assert forall k :: 0 <= k < |accounts| ==>
      && HoldsNonce(accounts'[k]) == HoldsNonce(accounts[k])
      && accounts'[k].address == accounts[k].address && accounts'[k].nonce == accounts[k].nonce;
  }

  // ---------- every step ----------

  lemma RequireStepInv(env: Env, s: State, address: Address, handle: nat, callArgs: seq<Val>, freshNonce: int)
    requires Inv(s) && !s.failing
    ensures var r := RequireStep(env, s, address, handle, callArgs, freshNonce); r.Next? ==> Inv(r.state)
  {
    if s.callStack != [] {
      var f := ToAuthorizedFunction(s.callStack[|s.callStack| - 1], callArgs);
      match CheckInvoker(s.callStack, s.invokers, address, f)
      case Direct =>
      case InvokerFault =>
      case ByTracker(i, t, p) => InvokerMatchInv(s, i, f);
      case NotAuthorized =>
        if s.mode.Enforcing? { RequireEnforcingInv(s, address, f); } else { RequireRecordingInv(env, s, address, handle, f, freshNonce); }
    }
  }

  lemma StepInv(env: Env, s: State, e: Event)
    requires Inv(s)
    ensures Step(env, s, e).Next? ==> Inv(Step(env, s, e).state)
  {
    if Step(env, s, e).Next? {
      match e
      case PushHostFn => EnterHostFnInv(s);
      case PushContract(contract, name) =>
        PushFrameInv(s, Contract(contract, name), ContractFrame, Some(SnapshotOf(PushCallFrame(s, Contract(contract, name)))));
      case PushCreateContract(args) => PushFrameInv(s, CreateContractHostFn(args), CreateFrame, None);
      case Pop => PopInv(s);
      case PopRollback =>
        RollbackResult(s);
        RestoredInv(s.ctl.before, Step(env, s, e).state);
      case RequireAuth(address, handle, callArgs, freshNonce) => RequireStepInv(env, s, address, handle, callArgs, freshNonce);
      case AuthDone(authenticated, access) => AuthDoneInv(env, s, authenticated, access);
      case AddInvokerAuth(entries) => AddInvokersInv(s, entries);
    }
  }

  lemma {:induction false} RunInv(env: Env, s: State, events: seq<Event>)
    requires Inv(s)
    ensures Run(env, s, events).Next? ==> Inv(Run(env, s, events).state)
    decreases |events|
  {
    if events != [] {
      StepInv(env, s, events[0]);
      match Step(env, s, events[0])
      case Next(s1) => RunInv(env, s1, events[1..]);
      case _ =>
    }
  }

  /** The state an enforcing manager starts from. */
  lemma InitInv(env: Env, entries: seq<AuthEntry>, nonces: set<(Address, int)>)
    requires NewAccounts(env, entries).Some?
    ensures Inv(NewEnforcing(NewAccounts(env, entries).value, nonces))
  {
    var accounts := NewAccounts(env, entries).value;
    forall i | 0 <= i < |accounts|
      ensures AccountOk(accounts[i], []) && NoneExhausted(accounts[i].tracker.root)
      ensures !accounts[i].borrowed && !accounts[i].verified
    {
      assert NewAccount(env, entries[i]) == Some(accounts[i]);
      FromXdrUnused(entries[i].root);
      NewOk(FromXdr(entries[i].root));
    }
    forall i, p | 0 <= i < |accounts| ensures !Flag(accounts[i].tracker.root, p) {
      NoneExhaustedFlags(accounts[i].tracker.root, p);
    }
    forall i | 0 <= i < |accounts| ensures CountExhausted(accounts[i].tracker.root) == LogCount([], i) {
      CountNone(accounts[i].tracker.root);
    }
    assert LocalInv(NewEnforcing(accounts, nonces));
  }

  /** The state a recording manager starts from. */
  lemma InitRecordingInv(disableNonRootAuth: bool, nonces: set<(Address, int)>)
    ensures Inv(NewRecording(disableNonRootAuth, nonces))
  {
    assert LocalInv(NewRecording(disableNonRootAuth, nonces));
  }

  /** In a run of either mode, with any events the machine allows. */
  ghost predicate Reachable(env: Env, s: State) {
    ReachableEnforcing(env, s) || ReachableRecording(env, s)
  }

  ghost predicate ReachableEnforcing(env: Env, s: State) {
    exists entries: seq<AuthEntry>, nonces: set<(Address, int)>, events: seq<Event> ::
      StartsAndRuns(env, entries, nonces, events, s)
  }

  ghost predicate StartsAndRuns(env: Env, entries: seq<AuthEntry>, nonces: set<(Address, int)>, events: seq<Event>, s: State) {
    var accounts := NewAccounts(env, entries);
    accounts.Some? && Run(env, NewEnforcing(accounts.value, nonces), events) == Next(s)
  }

  ghost predicate ReachableRecording(env: Env, s: State) {
    exists disableNonRootAuth: bool, nonces: set<(Address, int)>, events: seq<Event> ::
      Run(env, NewRecording(disableNonRootAuth, nonces), events) == Next(s)
  }

  lemma ReachableInv(env: Env, s: State)
    requires Reachable(env, s)
    ensures Inv(s)
  {
    if ReachableEnforcing(env, s) {
      var entries, nonces, events :| StartsAndRuns(env, entries, nonces, events, s);
      InitInv(env, entries, nonces);
      RunInv(env, NewEnforcing(NewAccounts(env, entries).value, nonces), events);
    } else {
      var disableNonRootAuth, nonces, events :| Run(env, NewRecording(disableNonRootAuth, nonces), events) == Next(s);
      InitRecordingInv(disableNonRootAuth, nonces);
      RunInv(env, NewRecording(disableNonRootAuth, nonces), events);
    }
  }

  lemma StepKeepsMode(env: Env, s: State, e: Event)
    ensures Step(env, s, e).Next? ==> Step(env, s, e).state.mode.Enforcing? == s.mode.Enforcing?
  {
    hide FindAccount, FindRecorder, RecordInvocation, HasActive, CheckInvoker, RollbackTo, RollbackInvokers;
  }

  lemma {:induction false} RunKeepsMode(env: Env, s: State, events: seq<Event>)
    ensures Run(env, s, events).Next? ==> Run(env, s, events).state.mode.Enforcing? == s.mode.Enforcing?
    decreases |events|
  {
    if events != [] {
      StepKeepsMode(env, s, events[0]);
      hide Step;
      if Step(env, s, events[0]).Next? { RunKeepsMode(env, Step(env, s, events[0]).state, events[1..]); }
    }
  }

  lemma EnforcingThroughout(env: Env, s: State)
    requires ReachableEnforcing(env, s)
    ensures s.mode.Enforcing?
  {
    var entries, nonces, events :| StartsAndRuns(env, entries, nonces, events, s);
    RunKeepsMode(env, NewEnforcing(NewAccounts(env, entries).value, nonces), events);
  }

  lemma RecordingThroughout(env: Env, s: State)
    requires ReachableRecording(env, s)
    ensures s.mode.Recording?
  {
    var disableNonRootAuth, nonces, events :| Run(env, NewRecording(disableNonRootAuth, nonces), events) == Next(s);
    RunKeepsMode(env, NewRecording(disableNonRootAuth, nonces), events);
  }
}
