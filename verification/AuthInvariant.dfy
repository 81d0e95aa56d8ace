/** The invariant of every run, enforcing or recording, and how states of a run relate. */
module AuthInvariant {
  import opened Wrappers
  import opened AuthTypes
  import opened AuthTree
  import opened InvocationTracking
  import opened AuthMachine

  // ---------- the parts of the invariant ----------

  /** A tracker outside authentication mirrors the whole call stack; one inside mirrors
      the frames below, the last of which it has just matched. */
  ghost predicate AccountOk(a: Account, callStack: seq<AuthStackFrame>) {
    if a.borrowed then
      && 1 <= |a.tracker.stack| <= |callStack|
      && TrackerOk(a.tracker, callStack[..|a.tracker.stack|])
      && CurrentFrameMatched(a.tracker)
      && a.tracker.root.exhausted
      && !a.verified
    else TrackerOk(a.tracker, callStack)
  }

  ghost predicate AccountsOk(accounts: seq<Account>, callStack: seq<AuthStackFrame>) {
    forall i :: 0 <= i < |accounts| ==> AccountOk(accounts[i], callStack)
  }

  /** Outside a failing frame, verified means used, for every tracker not in authentication. */
  ghost predicate VerifiedOk(accounts: seq<Account>) {
    forall i :: 0 <= i < |accounts| && !accounts[i].borrowed ==>
      (accounts[i].verified <==> accounts[i].tracker.root.exhausted)
  }

  predicate HoldsNonce(a: Account) {
    a.verified && !a.isSource
  }

  /** Every verified tracker with address credentials has its own nonce in the ledger. */
  ghost predicate NoncesOk(accounts: seq<Account>, nonces: set<(Address, int)>) {
    && (forall i :: 0 <= i < |accounts| && HoldsNonce(accounts[i]) ==>
          accounts[i].nonce.Some? && (accounts[i].address, accounts[i].nonce.value.value) in nonces)
    && (forall i, j :: 0 <= i < j < |accounts| && HoldsNonce(accounts[i]) && HoldsNonce(accounts[j]) ==>
          accounts[i].address != accounts[j].address || accounts[i].nonce.value.value != accounts[j].nonce.value.value)
  }

  /** The surviving matches of an invoker tracker are its used nodes, each listed once. */
  ghost predicate UsesOk(v: Invoker) {
    && |v.used| == CountExhausted(v.tracker.root)
    && (forall p :: p in v.used <==> Flag(v.tracker.root, p))
    && (forall j, k :: 0 <= j < k < |v.used| ==> v.used[j] != v.used[k])
  }

  /** An invoker tracker mirrors the frames above the one that created it, which is a frame of
      its contract. */
  ghost predicate InvokerOk(v: Invoker, callStack: seq<AuthStackFrame>) {
    && 1 <= v.depth <= |callStack|
    && callStack[v.depth - 1].Contract? && callStack[v.depth - 1].contract == v.contract
    && TrackerOk(v.tracker, callStack[v.depth..])
    && UsesOk(v)
  }

  ghost predicate InvokersOk(invokers: seq<Invoker>, callStack: seq<AuthStackFrame>) {
    && (forall k :: 0 <= k < |invokers| ==> InvokerOk(invokers[k], callStack))
    && (forall j, k :: 0 <= j <= k < |invokers| ==> invokers[j].depth <= invokers[k].depth)
  }

  /** If both trackers are active, `a` has matched the frame `b` is rooted at, unless
      that frame lies below `a`'s own root or above what `a` mirrors. */
  ghost predicate MatchedAtRootOf(a: Account, b: Account) {
    IsActive(a.tracker) && IsActive(b.tracker) && a.tracker.rootFrame.Some? && b.tracker.rootFrame.Some? ==>
      var j := b.tracker.rootFrame.value;
      a.tracker.rootFrame.value <= j < |a.tracker.stack| ==> a.tracker.stack[j].IsMatched()
  }

  ghost predicate DisjointOk(accounts: seq<Account>) {
    forall i, j :: 0 <= i < |accounts| && 0 <= j < |accounts| && i != j && accounts[i].address == accounts[j].address ==>
      MatchedAtRootOf(accounts[i], accounts[j])
  }

  function LogCount(log: seq<Match>, i: nat): nat {
    if log == [] then 0
    else LogCount(log[..|log| - 1], i) + (if log[|log| - 1].account == i then 1 else 0)
  }

  /** The log of surviving matches is the set of used nodes, each listed once. */
  ghost predicate LogOk(accounts: seq<Account>, log: seq<Match>) {
    && (forall k :: 0 <= k < |log| ==> log[k].account < |accounts| && Flag(accounts[log[k].account].tracker.root, log[k].path))
    && (forall i, p :: 0 <= i < |accounts| && Flag(accounts[i].tracker.root, p) ==> Match(i, p) in log)
    && (forall j, k :: 0 <= j < k < |log| ==> log[j] != log[k])
    && (forall i :: 0 <= i < |accounts| ==> CountExhausted(accounts[i].tracker.root) == LogCount(log, i))
  }

  /** While recording, every node is used, no tracker is in authentication, and a handle leads to
      a tracker. */
  ghost predicate RecordingOk(mode: Mode, accounts: seq<Account>) {
    mode.Recording? ==>
      && (forall i :: 0 <= i < |accounts| ==> RecordedOnly(accounts[i]))
      && (forall h :: h in mode.handles ==> mode.handles[h] < |accounts|)
  }

  ghost predicate RecordedOnly(a: Account) {
    AllExhausted(a.tracker.root) && a.verified && !a.borrowed
  }

  ghost predicate LocalInv(s: State) {
    && RecordingOk(s.mode, s.accounts)
    && (s.ctl.Bottom? ==> s.callStack == [])
    && AccountsOk(s.accounts, s.callStack)
    && (!s.failing ==> VerifiedOk(s.accounts))
    && NoncesOk(s.accounts, s.nonces)
    && InvokersOk(s.invokers, s.callStack)
    && DisjointOk(s.accounts)
    && LogOk(s.accounts, s.log)
  }

  // ---------- what a run leaves of an enclosing state ----------

  ghost predicate AccountEvolves(d: nat, a0: Account, a: Account) {
    && a.address == a0.address && a.isSource == a0.isSource && a.nonce == a0.nonce
    && (a0.verified ==> a.verified)
    && if a0.borrowed then a == a0 else Extends(d, a0.tracker, a.tracker)
  }

  ghost predicate InvokerEvolves(d: nat, v0: Invoker, v: Invoker) {
    && v.contract == v0.contract && v.depth == v0.depth && v0.used <= v.used
    && Extends(if d >= v0.depth then d - v0.depth else 0, v0.tracker, v.tracker)
  }

  ghost predicate AccountsEvolve(d: nat, accounts0: seq<Account>, accounts: seq<Account>) {
    && |accounts| == |accounts0|
    && forall i :: 0 <= i < |accounts| ==> AccountEvolves(d, accounts0[i], accounts[i])
  }

  /** Invoker trackers created below call depth `cut` are still there. */
  ghost predicate InvokersEvolve(d: nat, cut: nat, invokers0: seq<Invoker>, invokers: seq<Invoker>) {
    forall k :: 0 <= k < |invokers0| && invokers0[k].depth < cut ==>
      k < |invokers| && InvokerEvolves(d, invokers0[k], invokers[k])
  }

  /** Each tracker is an old one, or was made at call depth `n` or deeper. */
  predicate OldOrMadeAt(n: nat, invokers0: seq<Invoker>, invokers: seq<Invoker>) {
    forall k :: 0 <= k < |invokers| ==>
      (k < |invokers0| && invokers[k].depth == invokers0[k].depth) || invokers[k].depth >= n
  }

  ghost predicate SameBorrowed(accounts0: seq<Account>, accounts: seq<Account>)
    requires |accounts| == |accounts0|
  {
    forall i :: 0 <= i < |accounts| ==> (accounts[i].borrowed <==> accounts0[i].borrowed)
  }

  function Below(n: nat): nat { if n > 0 then n - 1 else 0 }

  /** Only the handles of a recording may change. */
  predicate SameMode(m0: Mode, m: Mode) {
    match m0
    case Enforcing => m.Enforcing?
    case Recording(_, disableNonRootAuth) => m.Recording? && m.disableNonRootAuth == disableNonRootAuth
  }

  /** `s` follows `b` at the same call depth; only the top frame may have new matches. While
      recording the account trackers need not follow: a rollback puts back copies of them. */
  ghost predicate Evolves(b: State, s: State) {
    && SameMode(b.mode, s.mode) && s.callStack == b.callStack
    && (s.mode.Enforcing? ==> AccountsEvolve(Below(|b.callStack|), b.accounts, s.accounts) && SameBorrowed(b.accounts, s.accounts))
    && InvokersEvolve(Below(|b.callStack|), |b.callStack|, b.invokers, s.invokers)
    && OldOrMadeAt(|s.callStack|, b.invokers, s.invokers)
    && b.log <= s.log
  }

  predicate PushesFrame(kind: Kind) { kind.ContractFrame? || kind.CreateFrame? }

  /** `s` is inside a scope of the given kind that was entered from `b`. */
  ghost predicate ScopeRel(kind: Kind, b: State, s: State) {
    && SameMode(b.mode, s.mode) && !b.failing
    && (if PushesFrame(kind) then |s.callStack| == |b.callStack| + 1 && b.callStack <= s.callStack
        else s.callStack == b.callStack)
    && (kind.HostFnFrame? ==> b.ctl.Bottom?)
    && (s.mode.Enforcing? ==>
          && AccountsEvolve(if PushesFrame(kind) then |b.callStack| else Below(|b.callStack|), b.accounts, s.accounts)
          && (forall i :: 0 <= i < |s.accounts| ==>
                (s.accounts[i].borrowed <==> b.accounts[i].borrowed || kind == Authentication(i))))
    && (kind.Authentication? ==>
          && s.mode.Enforcing?
          && kind.account < |b.accounts| && !b.accounts[kind.account].borrowed
          && |s.accounts[kind.account].tracker.stack| == |s.callStack|)
    && InvokersEvolve(if PushesFrame(kind) then |b.callStack| else Below(|b.callStack|), |s.callStack|, b.invokers, s.invokers)
    && OldOrMadeAt(|s.callStack|, b.invokers, s.invokers)
    && b.log <= s.log
  }

  ghost predicate SnapshotRel(ctl: Ctl, s: State)
    requires ctl.Scope?
  {
    match ctl.kind
    case HostFnFrame => ctl.snapshot == Some(SnapshotOf(ctl.before))
    case ContractFrame =>
      s.callStack != [] &&
      ctl.snapshot == Some(SnapshotOf(PushCallFrame(ctl.before, s.callStack[|s.callStack| - 1])))
    case _ => ctl.snapshot == None
  }

  /** The invariant holds of the state and of every state an open scope was entered from. */
  ghost predicate Inv(s: State)
    decreases s
  {
    && LocalInv(s)
    && (s.ctl.Scope? ==>
          && Inv(s.ctl.before)
          && ScopeRel(s.ctl.kind, s.ctl.before, s)
          && SnapshotRel(s.ctl, s))
  }

  // ---------- composition ----------

  lemma AccountsCompose(d: nat, d': nat, a0: seq<Account>, a1: seq<Account>, a2: seq<Account>)
    requires AccountsEvolve(d, a0, a1) && AccountsEvolve(d', a1, a2) && d <= d'
    requires forall i :: 0 <= i < |a0| && a0[i].borrowed ==> a1[i].borrowed
    requires forall i :: 0 <= i < |a0| && a1[i].borrowed && !a0[i].borrowed ==> Extends(d, a0[i].tracker, a1[i].tracker)
    ensures AccountsEvolve(d, a0, a2)
  {
    forall i | 0 <= i < |a2| ensures AccountEvolves(d, a0[i], a2[i]) {
      assert AccountEvolves(d, a0[i], a1[i]) && AccountEvolves(d', a1[i], a2[i]);
      if !a0[i].borrowed && !a1[i].borrowed {
        ExtendsTrans(d, d', a0[i].tracker, a1[i].tracker, a2[i].tracker);
      }
    }
  }

  lemma InvokersCompose(d: nat, d': nat, cut: nat, v0: seq<Invoker>, v1: seq<Invoker>, v2: seq<Invoker>)
    requires InvokersEvolve(d, cut, v0, v1) && InvokersEvolve(d', cut, v1, v2) && d <= d'
    ensures InvokersEvolve(d, cut, v0, v2)
  {
    forall k | 0 <= k < |v0| && v0[k].depth < cut
      ensures k < |v2| && InvokerEvolves(d, v0[k], v2[k])
    {
      assert InvokerEvolves(d, v0[k], v1[k]);
      assert InvokerEvolves(d', v1[k], v2[k]);
      var e := if d >= v0[k].depth then d - v0[k].depth else 0;
      var e' := if d' >= v0[k].depth then d' - v0[k].depth else 0;
      ExtendsTrans(e, e', v0[k].tracker, v1[k].tracker, v2[k].tracker);
    }
  }

  /** A scope relation survives any further evolution inside the scope. */
  lemma ScopeCompose(kind: Kind, b: State, s: State, s': State)
    requires ScopeRel(kind, b, s) && Evolves(s, s')
    ensures ScopeRel(kind, b, s')
  {
    var d := if PushesFrame(kind) then |b.callStack| else Below(|b.callStack|);
    if s.mode.Enforcing? { AccountsCompose(d, Below(|s.callStack|), b.accounts, s.accounts, s'.accounts); }
    InvokersCompose(d, Below(|s.callStack|), |s.callStack|, b.invokers, s.invokers, s'.invokers);
    if kind.Authentication? {
      assert AccountEvolves(Below(|s.callStack|), s.accounts[kind.account], s'.accounts[kind.account]);
    }
  }

  lemma EvolveInv(s: State, s': State)
    requires Inv(s) && Evolves(s, s') && s'.ctl == s.ctl && LocalInv(s')
    ensures Inv(s')
  {
    if s.ctl.Scope? {
      ScopeCompose(s.ctl.kind, s.ctl.before, s, s');
    }
  }

  /** Leaving a scope into a state that evolved from the one it was entered from. */
  lemma LeaveInv(b: State, s': State)
    requires Inv(b) && Evolves(b, s') && s'.ctl == b.ctl && LocalInv(s')
    ensures Inv(s')
  {
    EvolveInv(b, s');
  }

  lemma ExtendsBelow(d: nat, d': nat, t0: Tracker, t: Tracker)
    requires Extends(d, t0, t) && d' <= d
    ensures Extends(d', t0, t)
  {
    assert t.stack[..d'] == t.stack[..d][..d'];
    assert t0.stack[..d'] == t0.stack[..d][..d'];
  }

  lemma SelfAccount(d: nat, a: Account)
    requires !a.borrowed ==> d <= |a.tracker.stack|
    ensures AccountEvolves(d, a, a)
  {
    if !a.borrowed {
      ExtendsRefl(a.tracker);
      ExtendsBelow(|a.tracker.stack|, d, a.tracker, a.tracker);
    }
  }

  lemma SelfInvoker(d: nat, v: Invoker)
    requires d <= v.depth + |v.tracker.stack|
    ensures InvokerEvolves(d, v, v)
  {
    ExtendsRefl(v.tracker);
    ExtendsBelow(|v.tracker.stack|, if d >= v.depth then d - v.depth else 0, v.tracker, v.tracker);
  }

  /** Nothing but the parts that frames do not see has changed. */
  lemma SelfEvolves(s: State)
    requires LocalInv(s)
    ensures Evolves(s, s)
  {
    var d := Below(|s.callStack|);
    forall i | 0 <= i < |s.accounts| ensures AccountEvolves(d, s.accounts[i], s.accounts[i]) {
      assert AccountOk(s.accounts[i], s.callStack);
      SelfAccount(d, s.accounts[i]);
    }
    forall k | 0 <= k < |s.invokers| ensures InvokerEvolves(d, s.invokers[k], s.invokers[k]) {
      assert InvokerOk(s.invokers[k], s.callStack);
      SelfInvoker(d, s.invokers[k]);
    }
  }
}
