/** Frames and rollbacks keep the invariant, in either mode. */
module AuthPreservation {
  import opened Wrappers
  import opened AuthTypes
  import opened AuthTree
  import opened InvocationTracking
  import opened AuthMachine
  import opened AuthInvariant

  // ---------- small facts ----------

  /** The log depends on the trees only. */
  lemma LogSameRoots(accounts: seq<Account>, accounts': seq<Account>, log: seq<Match>)
    requires LogOk(accounts, log) && |accounts'| == |accounts|
    requires forall i :: 0 <= i < |accounts| ==> accounts'[i].tracker.root == accounts[i].tracker.root
    ensures LogOk(accounts', log)
  {
    forall i, p | 0 <= i < |accounts'| && Flag(accounts'[i].tracker.root, p) ensures Match(i, p) in log {
      assert Flag(accounts[i].tracker.root, p);
    }
  }

  lemma LogAppend(accounts: seq<Account>, log: seq<Match>, i: nat, a: Account, p: Path)
    requires LogOk(accounts, log) && i < |accounts|
    requires UsesOneMore(accounts[i].tracker.root, a.tracker.root, p)
    ensures LogOk(accounts[i := a], log + [Match(i, p)])
  {
    var accounts' := accounts[i := a];
    var log' := log + [Match(i, p)];
    forall k | 0 <= k < |log'|
      ensures log'[k].account < |accounts'| && Flag(accounts'[log'[k].account].tracker.root, log'[k].path)
    {
      assert Flag(a.tracker.root, log'[k].path) <==> Flag(accounts[i].tracker.root, log'[k].path) || log'[k].path == p;
    }
    forall m, q | 0 <= m < |accounts'| && Flag(accounts'[m].tracker.root, q) ensures Match(m, q) in log' {
      if m != i || q != p { assert Match(m, q) in log; } else { assert log'[|log|] == Match(m, q); }
    }
    forall m | 0 <= m < |accounts'| ensures CountExhausted(accounts'[m].tracker.root) == LogCount(log', m) {
      assert log'[..|log|] == log;
    }
  }

  /** A tracker that starts with its root used. */
  lemma LogNew(accounts: seq<Account>, log: seq<Match>, a: Account)
    requires LogOk(accounts, log)
    requires CountExhausted(a.tracker.root) == 1 && forall q :: Flag(a.tracker.root, q) <==> q == []
    ensures LogOk(accounts + [a], log + [Match(|accounts|, [])])
  {
    var n := |accounts|;
    var accounts' := accounts + [a];
    var log' := log + [Match(n, [])];
    forall k | 0 <= k < |log'|
      ensures log'[k].account < |accounts'| && Flag(accounts'[log'[k].account].tracker.root, log'[k].path)
    {
      assert k < |log| ==> log[k].account < n;
    }
    forall m, q | 0 <= m < |accounts'| && Flag(accounts'[m].tracker.root, q) ensures Match(m, q) in log' {
      if m < n { assert Match(m, q) in log; } else { assert log'[|log|] == Match(m, q); }
    }
    NoneLogged(log, n);
    forall m | 0 <= m < |accounts'| ensures CountExhausted(accounts'[m].tracker.root) == LogCount(log', m) {
      assert log'[..|log|] == log;
    }
  }

  lemma {:induction false} NoneLogged(log: seq<Match>, i: nat)
    requires forall k :: 0 <= k < |log| ==> log[k].account < i
    ensures LogCount(log, i) == 0
    decreases |log|
  {
    if log != [] { NoneLogged(log[..|log| - 1], i); }
  }

  // ---------- entering a frame ----------

  lemma PushAccountsLocal(accounts: seq<Account>, callStack: seq<AuthStackFrame>, frame: AuthStackFrame)
    requires AccountsOk(accounts, callStack) && DisjointOk(accounts)
    ensures AccountsOk(PushAccounts(accounts), callStack + [frame])
    ensures DisjointOk(PushAccounts(accounts))
    ensures AccountsEvolve(|callStack|, accounts, PushAccounts(accounts))
  {
    var accounts' := PushAccounts(accounts);
    forall i | 0 <= i < |accounts| ensures AccountOk(accounts'[i], callStack + [frame])
      ensures AccountEvolves(|callStack|, accounts[i], accounts'[i])
    {
      assert AccountOk(accounts[i], callStack);
      if accounts[i].borrowed {
        assert (callStack + [frame])[..|accounts[i].tracker.stack|] == callStack[..|accounts[i].tracker.stack|];
      } else {
        PushOk(accounts[i].tracker, callStack, frame);
        PushExtends(accounts[i].tracker);
      }
    }
    forall i, j | 0 <= i < |accounts'| && 0 <= j < |accounts'| && i != j && accounts'[i].address == accounts'[j].address
      ensures MatchedAtRootOf(accounts'[i], accounts'[j])
    {
      assert MatchedAtRootOf(accounts[i], accounts[j]);
      assert AccountOk(accounts[i], callStack) && AccountOk(accounts[j], callStack);
    }
  }

  lemma PushInvokersLocal(invokers: seq<Invoker>, callStack: seq<AuthStackFrame>, frame: AuthStackFrame)
    requires InvokersOk(invokers, callStack)
    ensures InvokersOk(PushInvokers(invokers), callStack + [frame])
    ensures InvokersEvolve(|callStack|, |callStack| + 1, invokers, PushInvokers(invokers))
  {
    var invokers' := PushInvokers(invokers);
    forall k | 0 <= k < |invokers|
      ensures InvokerOk(invokers'[k], callStack + [frame])
      ensures InvokerEvolves(|callStack|, invokers[k], invokers'[k])
    {
      var v := invokers[k];
      assert InvokerOk(v, callStack);
      PushOk(v.tracker, callStack[v.depth..], frame);
      assert (callStack + [frame])[v.depth..] == callStack[v.depth..] + [frame];
      PushExtends(v.tracker);
    }
  }

  lemma PushFrameInv(s: State, frame: AuthStackFrame, kind: Kind, snapshot: Option<Snapshot>)
    requires Inv(s) && !s.failing && PushesFrame(kind)
    requires snapshot == if kind.ContractFrame? then Some(SnapshotOf(PushCallFrame(s, frame))) else None
    ensures Inv(PushCallFrame(s, frame).(ctl := Scope(kind, snapshot, s)))
  {
    hide AccountsOk, InvokersOk, InvokersEvolve, DisjointOk, LogOk, AccountEvolves;
    var s1 := PushCallFrame(s, frame).(ctl := Scope(kind, snapshot, s));
    PushAccountsLocal(s.accounts, s.callStack, frame);
    PushInvokersLocal(s.invokers, s.callStack, frame);
    LogSameRoots(s.accounts, s1.accounts, s.log);
    assert LocalInv(s1);
    assert ScopeRel(kind, s, s1);
  }

  lemma EnterHostFnInv(s: State)
    requires Inv(s) && !s.failing && s.ctl.Bottom?
    ensures Inv(EnterHostFn(s))
  {
    SelfEvolves(s);
    assert LocalInv(EnterHostFn(s));
    assert ScopeRel(HostFnFrame, s, EnterHostFn(s));
  }

  // ---------- leaving a frame ----------

  lemma {:induction false} DropSpec(invokers: seq<Invoker>, depth: nat)
    requires forall k :: 0 <= k < |invokers| ==> (invokers[k].tracker.stack == [] <==> invokers[k].depth >= depth)
    requires forall j, k :: 0 <= j <= k < |invokers| ==> invokers[j].depth <= invokers[k].depth
    ensures |DropOutOfScope(invokers)| <= |invokers|
    ensures DropOutOfScope(invokers) == invokers[..|DropOutOfScope(invokers)|]
    ensures forall k :: 0 <= k < |invokers| ==> (k < |DropOutOfScope(invokers)| <==> invokers[k].depth < depth)
    decreases |invokers|
  {
    if invokers != [] {
      var n := |invokers| - 1;
      if invokers[n].tracker.stack == [] {
        DropSpec(invokers[..n], depth);
      }
    }
  }

  lemma PopInvokerOk(v: Invoker, callStack: seq<AuthStackFrame>)
    requires InvokerOk(v, callStack) && callStack != []
    ensures PopInvoker(v).tracker.stack == [] <==> v.depth >= |callStack| - 1
    ensures v.depth < |callStack| - 1 ==> InvokerOk(PopInvoker(v), callStack[..|callStack| - 1])
  {
    var n := |callStack| - 1;
    if v.depth < n {
      PopOk(v.tracker, callStack[v.depth..]);
      assert callStack[v.depth..][..n - v.depth] == callStack[..n][v.depth..];
      assert callStack[..n][v.depth - 1] == callStack[v.depth - 1];
    }
  }

  lemma PopEachOk(invokers: seq<Invoker>, callStack: seq<AuthStackFrame>)
    requires InvokersOk(invokers, callStack) && callStack != []
    ensures |PopEach(invokers)| == |invokers|
    ensures forall k :: 0 <= k < |invokers| ==>
              var v := PopEach(invokers)[k];
              && v == PopInvoker(invokers[k]) && v.depth == invokers[k].depth
              && (v.tracker.stack == [] <==> v.depth >= |callStack| - 1)
              && (v.depth < |callStack| - 1 ==> InvokerOk(v, callStack[..|callStack| - 1]))
  {
    hide InvokerOk;
    forall k | 0 <= k < |invokers|
      ensures PopInvoker(invokers[k]).tracker.stack == [] <==> invokers[k].depth >= |callStack| - 1
      ensures invokers[k].depth < |callStack| - 1 ==> InvokerOk(PopInvoker(invokers[k]), callStack[..|callStack| - 1])
    {
      PopInvokerOk(invokers[k], callStack);
    }
  }

  /** After a pop exactly the trackers created below the remaining depth are left. */
  lemma PopInvokersSpec(invokers: seq<Invoker>, callStack: seq<AuthStackFrame>)
    requires InvokersOk(invokers, callStack) && callStack != []
    ensures |PopInvokers(invokers)| <= |invokers|
    ensures forall k :: 0 <= k < |PopInvokers(invokers)| ==> PopInvokers(invokers)[k] == PopInvoker(invokers[k])
    ensures forall k :: 0 <= k < |invokers| ==> (k < |PopInvokers(invokers)| <==> invokers[k].depth < |callStack| - 1)
    ensures InvokersOk(PopInvokers(invokers), callStack[..|callStack| - 1])
  {
    hide InvokerOk, PopInvoker, PopEach, DropOutOfScope;
    PopEachOk(invokers, callStack);
    DropSpec(PopEach(invokers), |callStack| - 1);
  }

  lemma PopAccountsLocal(accounts: seq<Account>, callStack: seq<AuthStackFrame>)
    requires AccountsOk(accounts, callStack) && DisjointOk(accounts) && callStack != []
    requires forall i :: 0 <= i < |accounts| && accounts[i].borrowed ==> |accounts[i].tracker.stack| < |callStack|
    ensures AccountsOk(PopAccounts(accounts), callStack[..|callStack| - 1])
    ensures DisjointOk(PopAccounts(accounts))
  {
    var n := |callStack| - 1;
    var accounts' := PopAccounts(accounts);
    forall i | 0 <= i < |accounts| ensures AccountOk(accounts'[i], callStack[..n]) {
      assert AccountOk(accounts[i], callStack);
      if accounts[i].borrowed {
        assert callStack[..n][..|accounts[i].tracker.stack|] == callStack[..|accounts[i].tracker.stack|];
      } else {
        PopOk(accounts[i].tracker, callStack);
      }
    }
    forall i, j | 0 <= i < |accounts'| && 0 <= j < |accounts'| && i != j && accounts'[i].address == accounts'[j].address
      ensures MatchedAtRootOf(accounts'[i], accounts'[j])
    {
      assert MatchedAtRootOf(accounts[i], accounts[j]);
      assert AccountOk(accounts[i], callStack) && AccountOk(accounts[j], callStack);
    }
  }

  /** What a scope tells about trackers in authentication when it is about to be left. */
  lemma BorrowedBelow(s: State)
    requires Inv(s) && s.ctl.Scope? && PushesFrame(s.ctl.kind)
    ensures forall i :: 0 <= i < |s.accounts| && s.accounts[i].borrowed ==> |s.accounts[i].tracker.stack| < |s.callStack|
  {
    var b := s.ctl.before;
    forall i | 0 <= i < |s.accounts| && s.accounts[i].borrowed
      ensures |s.accounts[i].tracker.stack| < |s.callStack|
    {
      assert s.mode.Recording? ==> RecordedOnly(s.accounts[i]);
      assert AccountEvolves(|b.callStack|, b.accounts[i], s.accounts[i]);
      assert AccountOk(b.accounts[i], b.callStack);
    }
  }

  lemma PopAccountsEvolve(s: State)
    requires Inv(s) && s.ctl.Scope? && PushesFrame(s.ctl.kind) && s.mode.Enforcing?
    ensures AccountsEvolve(Below(|s.ctl.before.callStack|), s.ctl.before.accounts, PopAccounts(s.accounts))
  {
    var b := s.ctl.before;
    var d := |b.callStack|;
    var accounts := PopAccounts(s.accounts);
    forall i | 0 <= i < |s.accounts| ensures AccountEvolves(Below(d), b.accounts[i], accounts[i]) {
      assert AccountEvolves(d, b.accounts[i], s.accounts[i]);
      assert AccountOk(b.accounts[i], b.callStack);
      assert AccountOk(s.accounts[i], s.callStack);
      if !s.accounts[i].borrowed {
        PopExtends(b.accounts[i].tracker, s.accounts[i].tracker, b.callStack);
        ExtendsBelow(d, Below(d), b.accounts[i].tracker, accounts[i].tracker);
      }
    }
  }

  lemma PopInvokerEvolves(v0: Invoker, v: Invoker, callStack: seq<AuthStackFrame>)
    requires InvokerOk(v0, callStack) && InvokerEvolves(|callStack|, v0, v) && v0.depth < |callStack|
    requires |v.tracker.stack| == |callStack| + 1 - v.depth
    ensures InvokerEvolves(Below(|callStack|), v0, PopInvoker(v))
  {
    var d := |callStack|;
    PopExtends(v0.tracker, v.tracker, callStack[v0.depth..]);
    ExtendsBelow(d - v0.depth, Below(d) - v0.depth, v0.tracker, PopInvoker(v).tracker);
  }

  lemma PopInvokersEvolve(s: State)
    requires Inv(s) && s.ctl.Scope? && PushesFrame(s.ctl.kind)
    ensures InvokersEvolve(Below(|s.ctl.before.callStack|), |s.ctl.before.callStack|, s.ctl.before.invokers, PopInvokers(s.invokers))
  {
    hide AccountsOk, VerifiedOk, NoncesOk, DisjointOk, LogOk, SnapshotRel;
    var b := s.ctl.before;
    var d := |b.callStack|;
    var invokers := PopInvokers(s.invokers);
    PopInvokersSpec(s.invokers, s.callStack);
    forall k | 0 <= k < |b.invokers| && b.invokers[k].depth < d
      ensures k < |invokers| && InvokerEvolves(Below(d), b.invokers[k], invokers[k])
    {
      assert InvokerEvolves(d, b.invokers[k], s.invokers[k]);
      assert InvokerOk(b.invokers[k], b.callStack) && InvokerOk(s.invokers[k], s.callStack);
      PopInvokerEvolves(b.invokers[k], s.invokers[k], b.callStack);
    }
  }

  lemma PopScope(s: State)
    requires Inv(s) && s.ctl.Scope? && PushesFrame(s.ctl.kind)
    ensures InvokersOk(s.invokers, s.callStack) && s.callStack != []
    ensures ScopeRel(s.ctl.kind, s.ctl.before, s)
  {
  }

  lemma PopOldOrMadeAt(before: seq<Invoker>, invokers: seq<Invoker>, callStack: seq<AuthStackFrame>)
    requires InvokersOk(invokers, callStack) && callStack != [] && OldOrMadeAt(|callStack|, before, invokers)
    ensures OldOrMadeAt(|callStack| - 1, before, PopInvokers(invokers))
  {
    PopInvokersSpec(invokers, callStack);
    hide PopInvokers, InvokersOk;
  }

  lemma PopEvolves(s: State)
    requires Inv(s) && s.ctl.Scope? && PushesFrame(s.ctl.kind)
    ensures Evolves(s.ctl.before, PopCallFrame(s))
  {
    hide Inv, InvokersOk, InvokersEvolve, OldOrMadeAt, PopInvokers, AccountEvolves;
    PopScope(s);
    PopOldOrMadeAt(s.ctl.before.invokers, s.invokers, s.callStack);
    if s.mode.Enforcing? { PopAccountsEvolve(s); }
    PopInvokersEvolve(s);
  }

  lemma PopKeepsFlags(accounts: seq<Account>, nonces: set<(Address, int)>)
    ensures VerifiedOk(accounts) ==> VerifiedOk(PopAccounts(accounts))
    ensures NoncesOk(accounts, nonces) ==> NoncesOk(PopAccounts(accounts), nonces)
  {
    var accounts' := PopAccounts(accounts);
    assert forall i :: 0 <= i < |accounts| ==>
      && accounts'[i].verified == accounts[i].verified && accounts'[i].isSource == accounts[i].isSource
      && accounts'[i].nonce == accounts[i].nonce && accounts'[i].address == accounts[i].address
      && accounts'[i].borrowed == accounts[i].borrowed
      && accounts'[i].tracker.root.exhausted == accounts[i].tracker.root.exhausted;
  }

  lemma PopLocal(s: State, ctl: Ctl)
    requires LocalInv(s) && s.callStack != []
    requires forall i :: 0 <= i < |s.accounts| && s.accounts[i].borrowed ==> |s.accounts[i].tracker.stack| < |s.callStack|
    requires ctl.Bottom? ==> |s.callStack| == 1
    ensures LocalInv(PopCallFrame(s).(ctl := ctl))
  {
    hide AccountsOk, VerifiedOk, NoncesOk, InvokersOk, DisjointOk, LogOk, PopInvokers;
    PopAccountsLocal(s.accounts, s.callStack);
    PopInvokersSpec(s.invokers, s.callStack);
    PopKeepsFlags(s.accounts, s.nonces);
    LogSameRoots(s.accounts, PopAccounts(s.accounts), s.log);
  }

  lemma PopInv(s: State)
    requires Inv(s) && s.ctl.Scope? && !s.ctl.kind.Authentication?
    requires s.failing ==> s.ctl.kind.CreateFrame?
    ensures Inv(PopCallFrame(s).(ctl := s.ctl.before.ctl))
  {
    var b := s.ctl.before;
    var s1 := PopCallFrame(s).(ctl := b.ctl);
    if s.ctl.kind.HostFnFrame? {
      assert s1 == s.(ctl := Bottom);
      assert LocalInv(s1);
    } else {
      PopEvolves(s);
      BorrowedBelow(s);
      PopLocal(s, b.ctl);
      LeaveInv(b, s1);
    }
  }

  // ---------- rollback ----------

  lemma RollbackAccountExact(b: State, s: State, pushed: bool, i: nat)
    requires Inv(b) && i < |b.accounts| == |s.accounts|
    requires AccountEvolves(|b.callStack|, b.accounts[i], s.accounts[i])
    requires s.accounts[i].borrowed == b.accounts[i].borrowed
    requires !b.accounts[i].borrowed ==> |s.accounts[i].tracker.stack| == |b.callStack| + if pushed then 1 else 0
    ensures var r := RollbackAccount(s.accounts[i], SnapshotAccount(b.accounts[i]));
            r.Some? && b.accounts[i] == if pushed then PopAccount(r.value) else r.value
  {
    assert AccountOk(b.accounts[i], b.callStack);
    if !b.accounts[i].borrowed {
      RollbackRestores(b.accounts[i].tracker, s.accounts[i].tracker, b.callStack);
    }
  }

  lemma PushKeepsSnapshots(b: State, frame: AuthStackFrame)
    ensures SnapshotAccounts(Enforcing, PushAccounts(b.accounts)) == SnapshotAccounts(Enforcing, b.accounts)
    ensures SnapshotInvokers(PushInvokers(b.invokers)) == SnapshotInvokers(b.invokers)
  {
    var x := SnapshotAccounts(Enforcing, PushAccounts(b.accounts)).trackers;
    var y := SnapshotAccounts(Enforcing, b.accounts).trackers;
    forall i | 0 <= i < |b.accounts| ensures x[i] == y[i] {
      assert PushAccounts(b.accounts)[i] == PushAccount(b.accounts[i]);
      assert x[i] == SnapshotAccount(PushAccount(b.accounts[i]));
    }
    assert x == y;
  }

  /** What `PopRollback` leaves: the state from before the push, less the invoker trackers
      that were created for the call just ended. */
  ghost predicate Restored(b: State, s1: State) {
    s1 == b.(invokers := s1.invokers) && KeepsOuter(b, s1.invokers)
  }

  lemma RollbackFlagsExact(s: State)
    requires Inv(s) && s.ctl.Scope? && s.ctl.snapshot.Some? && s.mode.Enforcing?
    ensures var b := s.ctl.before;
            var snaps := SnapshotAccounts(Enforcing, b.accounts).trackers;
            && |snaps| == |s.accounts|
            && var r := RollbackAccounts(s.accounts, snaps);
               r.Some? && b.accounts == if s.ctl.kind.ContractFrame? then PopAccounts(r.value) else r.value
  {
    var b := s.ctl.before;
    var snaps := SnapshotAccounts(Enforcing, b.accounts).trackers;
    var pushed := s.ctl.kind.ContractFrame?;
    forall i | 0 <= i < |s.accounts|
      ensures var r := RollbackAccount(s.accounts[i], snaps[i]);
              r.Some? && b.accounts[i] == if pushed then PopAccount(r.value) else r.value
    {
      assert AccountEvolves(|b.callStack|, b.accounts[i], s.accounts[i]);
      assert AccountOk(s.accounts[i], s.callStack);
      RollbackAccountExact(b, s, pushed, i);
    }
    var r := RollbackAccounts(s.accounts, snaps);
    assert r.Some?;
    forall i | 0 <= i < |s.accounts|
      ensures b.accounts[i] == if pushed then PopAccounts(r.value)[i] else r.value[i]
    {
      assert RollbackAccount(s.accounts[i], snaps[i]) == Some(r.value[i]);
    }
  }

  /** Popping undoes pushing: a root match below the new frame stays where it is. */
  lemma PopPushed(accounts: seq<Account>, callStack: seq<AuthStackFrame>)
    requires AccountsOk(accounts, callStack)
    ensures PopAccounts(PushAccounts(accounts)) == accounts
  {
    forall i | 0 <= i < |accounts| ensures PopAccount(PushAccount(accounts[i])) == accounts[i] {
      assert AccountOk(accounts[i], callStack);
      var t := accounts[i].tracker;
      assert PushFrame(t).stack[..|t.stack|] == t.stack;
    }
  }

  /** Enforcing puts the flags back in place; recording puts back copies of the trackers. */
  lemma RollbackAccountsExact(s: State)
    requires Inv(s) && s.ctl.Scope? && s.ctl.snapshot.Some?
    ensures var r := RollbackTo(s.accounts, s.ctl.snapshot.value.accounts);
            r.Some? && s.ctl.before.accounts == if s.ctl.kind.ContractFrame? then PopAccounts(r.value) else r.value
  {
    SnapshotParts(s);
    if s.mode.Enforcing? {
      RollbackFlagsExact(s);
    } else {
      PopPushed(s.ctl.before.accounts, s.ctl.before.callStack);
    }
  }

  /** What the snapshot of an open scope consists of. */
  lemma SnapshotParts(s: State)
    requires Inv(s) && s.ctl.Scope? && s.ctl.snapshot.Some?
    ensures var b := s.ctl.before;
            var snap := s.ctl.snapshot.value;
            && SameMode(b.mode, s.mode)
            && snap.accounts == (if b.mode.Enforcing? then SnapshotAccounts(Enforcing, b.accounts)
                                 else RecordingSnapshot(if s.ctl.kind.ContractFrame? then PushAccounts(b.accounts) else b.accounts))
            && snap.invokers == SnapshotInvokers(b.invokers)
            && snap.handles == (if b.mode.Recording? then Some(b.mode.handles) else None)
            && snap.nonces == b.nonces
            && Surviving(s.log, |b.log|) == b.log
  {
    hide LocalInv, AccountsEvolve, InvokersEvolve, OldOrMadeAt;
    if s.ctl.kind.ContractFrame? {
      PushKeepsSnapshots(s.ctl.before, s.callStack[|s.callStack| - 1]);
    }
  }

  /** Invoker trackers after a frame's rollback and before its pop. */
  ghost predicate RolledBackInvokers(b: State, invokers: seq<Invoker>) {
    && |invokers| == |b.invokers|
    && forall k :: 0 <= k < |invokers| ==> RolledBackInvoker(|b.callStack|, b.invokers[k], invokers[k])
  }

  ghost predicate RolledBackInvoker(depth: nat, v0: Invoker, v: Invoker) {
    && v.depth == v0.depth
    && |v.tracker.stack| == depth + 1 - v0.depth
    && v0.used <= v.used
    && (v0.depth < depth ==> PopInvoker(v).(used := v0.used) == v0)
  }

  lemma RollbackInvokerExact(v0: Invoker, v: Invoker, callStack: seq<AuthStackFrame>)
    requires InvokerOk(v0, callStack) && InvokerEvolves(|callStack|, v0, v)
    requires |v.tracker.stack| == |callStack| + 1 - v.depth
    ensures var r := RollbackTracker(v.tracker, TakeSnapshot(v0.tracker.root));
            r.Some? && RolledBackInvoker(|callStack|, v0, v.(tracker := r.value))
  {
    hide UsesOk;
    RollbackRestores(v0.tracker, v.tracker, callStack[v0.depth..]);
  }

  lemma RollbackInvokersExact(s: State)
    requires Inv(s) && s.ctl.Scope? && s.ctl.kind.ContractFrame?
    requires |s.invokers| == |s.ctl.before.invokers|
    ensures var b := s.ctl.before;
            var r := RollbackInvokers(s.invokers, SnapshotInvokers(b.invokers));
            r.Some? && RolledBackInvokers(b, r.value)
  {
    hide RolledBackInvoker, RollbackTracker;
    var b := s.ctl.before;
    forall k | 0 <= k < |s.invokers|
      ensures var r := RollbackTracker(s.invokers[k].tracker, SnapshotInvokers(b.invokers)[k]);
              r.Some? && RolledBackInvoker(|b.callStack|, b.invokers[k], s.invokers[k].(tracker := r.value))
    {
      assert InvokerOk(b.invokers[k], b.callStack) && InvokerOk(s.invokers[k], s.callStack);
      assert InvokerEvolves(|b.callStack|, b.invokers[k], s.invokers[k]);
      RollbackInvokerExact(b.invokers[k], s.invokers[k], b.callStack);
    }
  }

  /** Popping the rolled back invoker trackers leaves those created by outer frames. */
  lemma PopRolledBack(b: State, invokers: seq<Invoker>)
    requires InvokersOk(b.invokers, b.callStack) && RolledBackInvokers(b, invokers)
    ensures KeepsOuter(b, SurvivingUses(PopInvokers(invokers), b.invokers))
  {
    var n := |b.callStack|;
    var popped := PopEach(invokers);
    forall k | 0 <= k < |invokers|
      ensures b.invokers[k].depth < n <==> b.invokers[k].tracker.stack != []
      ensures popped[k].depth == b.invokers[k].depth
      ensures popped[k].tracker.stack == [] <==> popped[k].depth >= n
    {
      assert InvokerOk(b.invokers[k], b.callStack);
    }
    DropSpec(popped, n);
    var left := PopInvokers(invokers);
    forall k | 0 <= k < |left| ensures SurvivingUses(left, b.invokers)[k] == b.invokers[k] {
      assert left[k] == PopInvoker(invokers[k]);
      assert b.invokers[k].used <= left[k].used;
    }
  }

  /** The rolled back state, before the pop, part by part. */
  lemma RollbackCount(s: State)
    requires Inv(s) && s.ctl.Scope? && s.ctl.snapshot.Some?
    ensures var b := s.ctl.before;
            var accounts := RollbackTo(s.accounts, s.ctl.snapshot.value.accounts);
            && accounts.Some?
            && (Rollback(s, s.ctl.snapshot.value).Some? ==> |s.invokers| == |b.invokers|)
            && (|s.invokers| == |b.invokers| ==>
                  var invokers := RollbackInvokers(s.invokers, SnapshotInvokers(b.invokers));
                  && invokers.Some?
                  && Rollback(s, s.ctl.snapshot.value) ==
                     Some(s.(accounts := accounts.value, invokers := invokers.value, mode := b.mode, nonces := b.nonces)))
  {
    hide Inv, RollbackTo, RollbackInvokers, SnapshotAccounts;
    SnapshotParts(s);
    RollbackAccountsExact(s);
    var b := s.ctl.before;
    if |s.invokers| == |b.invokers| {
      if s.ctl.kind.ContractFrame? {
        RollbackInvokersExact(s);
      } else {
        NoInvokersInHostFn(s);
      }
    }
  }

  lemma NoInvokersInHostFn(s: State)
    requires Inv(s) && s.ctl.Scope? && s.ctl.snapshot.Some? && !s.ctl.kind.ContractFrame?
    ensures s.ctl.kind.HostFnFrame? && s.callStack == s.ctl.before.callStack == []
    ensures s.invokers == s.ctl.before.invokers == []
    ensures RollbackInvokers(s.invokers, SnapshotInvokers(s.ctl.before.invokers)) == Some([])
  {
    NoInvokersAtBottom(s);
    NoInvokersAtBottom(s.ctl.before);
  }

  ghost predicate KeepsOuter(b: State, invokers: seq<Invoker>) {
    && |invokers| <= |b.invokers| && invokers == b.invokers[..|invokers|]
    && forall k :: 0 <= k < |b.invokers| ==> (k < |invokers| <==> b.invokers[k].tracker.stack != [])
  }

  lemma Assemble(s: State, b: State, s1: State, pushed: bool)
    requires s.ctl.Scope? && s.ctl.before == b && Surviving(s.log, |b.log|) == b.log
    requires s1.mode == b.mode && s1.nonces == b.nonces && !b.failing
    requires if pushed then
               && s1.callStack != [] && s1.callStack[..|s1.callStack| - 1] == b.callStack
               && PopAccounts(s1.accounts) == b.accounts && KeepsOuter(b, SurvivingUses(PopInvokers(s1.invokers), b.invokers))
             else
               && s1.callStack == b.callStack == []
               && s1.accounts == b.accounts && KeepsOuter(b, SurvivingUses(s1.invokers, b.invokers))
    ensures Restored(b, AfterRollback(s, s1))
  {
  }

  lemma ContractScope(s: State)
    requires Inv(s) && s.ctl.Scope? && s.ctl.kind.ContractFrame?
    ensures s.callStack != [] && s.callStack[..|s.callStack| - 1] == s.ctl.before.callStack
    ensures !s.ctl.before.failing && s.ctl.snapshot.Some?
    ensures InvokersOk(s.ctl.before.invokers, s.ctl.before.callStack)
  {
    hide AccountsEvolve, InvokersEvolve, OldOrMadeAt, SnapshotOf;
  }

  lemma RollbackContract(s: State)
    requires Inv(s) && s.ctl.Scope? && s.ctl.kind.ContractFrame?
    requires |s.invokers| == |s.ctl.before.invokers|
    ensures s.ctl.snapshot.Some?
    ensures var b := s.ctl.before;
            var r := Rollback(s, s.ctl.snapshot.value);
            r.Some? && Restored(b, AfterRollback(s, r.value))
  {
    hide Inv, LocalInv, Rollback, AfterRollback, RolledBackInvokers, RollbackTo, RollbackInvokers;
    ContractScope(s);
    SnapshotParts(s);
    RollbackCount(s);
    RollbackAccountsExact(s);
    RollbackInvokersExact(s);
    var s1 := Rollback(s, s.ctl.snapshot.value).value;
    PopRolledBack(s.ctl.before, s1.invokers);
    Assemble(s, s.ctl.before, s1, true);
  }

  lemma RollbackHostFn(s: State)
    requires Inv(s) && s.ctl.Scope? && s.ctl.kind.HostFnFrame?
    ensures s.ctl.snapshot.Some?
    ensures var b := s.ctl.before;
            var r := Rollback(s, s.ctl.snapshot.value);
            && |s.invokers| == |b.invokers|
            && r.Some? && Restored(b, AfterRollback(s, r.value))
  {
    HostFnScope(s);
    hide Inv, LocalInv, Rollback, AfterRollback, RollbackTo, RollbackInvokers;
    SnapshotParts(s);
    NoInvokersInHostFn(s);
    RollbackCount(s);
    RollbackAccountsExact(s);
    Assemble(s, s.ctl.before, Rollback(s, s.ctl.snapshot.value).value, false);
  }

  lemma HostFnScope(s: State)
    requires Inv(s) && s.ctl.Scope? && s.ctl.kind.HostFnFrame?
    ensures s.ctl.snapshot.Some? && !s.ctl.before.failing
  {
  }

  /** Rollback succeeds exactly when no invoker tracker is left over from the frame, and then
      it restores everything. */
  lemma RollbackResult(s: State)
    requires Inv(s) && s.ctl.Scope? && s.ctl.snapshot.Some?
    ensures var b := s.ctl.before;
            var r := Rollback(s, s.ctl.snapshot.value);
            && (r.Some? <==> |s.invokers| == |b.invokers|)
            && (r.Some? ==> Restored(b, AfterRollback(s, r.value)))
  {
    RollbackCount(s);
    if s.ctl.kind.HostFnFrame? {
      RollbackHostFn(s);
    } else if |s.invokers| == |s.ctl.before.invokers| {
      RollbackContract(s);
    }
  }

  lemma NoInvokersAtBottom(s: State)
    requires LocalInv(s) && s.callStack == []
    ensures s.invokers == []
  {
    assert s.invokers != [] ==> InvokerOk(s.invokers[0], s.callStack);
  }

  lemma RestoredInv(b: State, s1: State)
    requires Inv(b) && !b.failing && Restored(b, s1)
    ensures Inv(s1)
  {
    SelfEvolves(b);
    forall k | 0 <= k < |b.invokers| && b.invokers[k].depth < |b.callStack|
      ensures k < |s1.invokers| && InvokerEvolves(Below(|b.callStack|), b.invokers[k], s1.invokers[k])
    {
      assert InvokerOk(b.invokers[k], b.callStack);
    }
    assert LocalInv(s1);
    LeaveInv(b, s1);
  }
}
