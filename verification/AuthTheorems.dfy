/** What holds of every reachable state of the authorization manager, in either mode. */
module AuthTheorems {
  import opened Wrappers
  import opened AuthTypes
  import opened AuthTree
  import opened InvocationTracking
  import opened AuthMachine
  import opened AuthInvariant
  import opened AuthPreservation
  import opened AuthSteps

  // ---------- path refinement ----------

  /** The node matched at stack position `k` of a tracker rooted at frame `r`. */
  function PathAt(stack: seq<MatchState>, r: nat, k: nat): Path
    requires r <= k < |stack|
  {
    IndicesFrom(stack[..k + 1], r + 1)
  }

  lemma {:induction false} WalkFrames(t: Invocation, stack: seq<MatchState>, k: nat, frames: seq<AuthStackFrame>, m: nat)
    requires |stack| == |frames| && WalkOk(t, stack, k, frames)
    requires k <= m < |stack| && stack[m].IsMatched()
    ensures Flag(t, IndicesFrom(stack[..m + 1], k))
    ensures FrameOf(NodeAt(t, IndicesFrom(stack[..m + 1], k)).function_) == frames[m]
    decreases |stack| - k
  {
    var top := stack[..m + 1];
    match stack[k]
    case Unmatched => WalkFrames(t, stack, k + 1, frames, m);
    case RootMatch =>
    case SubMatch(i) =>
      if m == k {
        assert IndicesFrom(top, k + 1) == [];
        assert IndicesFrom(top, k) == [i];
      } else {
        WalkFrames(t.subs[i], stack, k + 1, frames, m);
        assert IndicesFrom(top, k) == [i] + IndicesFrom(top, k + 1);
        assert ([i] + IndicesFrom(top, k + 1))[1..] == IndicesFrom(top, k + 1);
      }
  }

  /** The frames an account tracker mirrors. */
  function MirroredFrames(s: State, i: nat): seq<AuthStackFrame>
    requires i < |s.accounts| && |s.accounts[i].tracker.stack| <= |s.callStack|
  {
    s.callStack[..|s.accounts[i].tracker.stack|]
  }

  lemma MirrorOk(env: Env, s: State, i: nat)
    requires Reachable(env, s) && i < |s.accounts|
    ensures |s.accounts[i].tracker.stack| <= |s.callStack|
    ensures TrackerOk(s.accounts[i].tracker, MirroredFrames(s, i))
    ensures !s.accounts[i].borrowed ==> |s.accounts[i].tracker.stack| == |s.callStack|
  {
    ReachableInv(env, s);
    assert AccountOk(s.accounts[i], s.callStack);
    assert s.callStack[..|s.callStack|] == s.callStack;
  }

  /** Every matched frame of a tracker stands for a used node, found by folding the stack up
      to it, whose function is one of that frame; the root match is the lowest; and the search
      the code performs never fails and finds the node of the whole fold. */
  ghost predicate PathsRefine(t: Tracker, frames: seq<AuthStackFrame>) {
    && |t.stack| == |frames|
    && (RootMatch in t.stack ==> t.rootFrame.Some?)
    && (LastInvocation(t, 0) == if RootMatch in t.stack then At(IndicesFrom(t.stack, t.rootFrame.value + 1)) else NoRoot)
    && forall k :: 0 <= k < |t.stack| && t.stack[k].IsMatched() ==>
         && t.rootFrame.Some? && t.rootFrame.value <= k
         && t.stack[t.rootFrame.value] == RootMatch
         && (t.stack[k] == RootMatch ==> k == t.rootFrame.value)
         && Flag(t.root, PathAt(t.stack, t.rootFrame.value, k))
         && FrameOf(NodeAt(t.root, PathAt(t.stack, t.rootFrame.value, k)).function_) == frames[k]
  }

  lemma TrackerRefines(t: Tracker, frames: seq<AuthStackFrame>)
    requires TrackerOk(t, frames)
    ensures PathsRefine(t, frames)
  {
    LastIsFold(t, frames);
    ActiveIffRootMatched(t, frames);
    forall k | 0 <= k < |t.stack| && t.stack[k].IsMatched()
      ensures t.rootFrame.Some? && t.rootFrame.value <= k
      ensures t.stack[t.rootFrame.value] == RootMatch
      ensures t.stack[k] == RootMatch ==> k == t.rootFrame.value
      ensures Flag(t.root, PathAt(t.stack, t.rootFrame.value, k))
      ensures FrameOf(NodeAt(t.root, PathAt(t.stack, t.rootFrame.value, k)).function_) == frames[k]
    {
      var r := t.rootFrame.value;
      if k == r {
        assert PathAt(t.stack, r, k) == [];
      } else {
        WalkFrames(t.root, t.stack, r + 1, frames, k);
      }
    }
  }

  /** So for every tracker in every reachable state: an account tracker over the call stack, or
      the part of it below its own authentication, and an invoker tracker over the frames above
      the one that made it. */
  lemma PathRefinement(env: Env, s: State)
    requires Reachable(env, s)
    ensures forall i :: 0 <= i < |s.accounts| ==>
              && |s.accounts[i].tracker.stack| <= |s.callStack|
              && PathsRefine(s.accounts[i].tracker, MirroredFrames(s, i))
              && (!s.accounts[i].borrowed ==> MirroredFrames(s, i) == s.callStack)
    ensures forall k :: 0 <= k < |s.invokers| ==>
              && s.invokers[k].depth <= |s.callStack|
              && PathsRefine(s.invokers[k].tracker, s.callStack[s.invokers[k].depth..])
  {
    ReachableInv(env, s);
    forall i | 0 <= i < |s.accounts|
      ensures |s.accounts[i].tracker.stack| <= |s.callStack| && PathsRefine(s.accounts[i].tracker, MirroredFrames(s, i))
      ensures !s.accounts[i].borrowed ==> MirroredFrames(s, i) == s.callStack
    {
      MirrorOk(env, s, i);
      TrackerRefines(s.accounts[i].tracker, MirroredFrames(s, i));
    }
    forall k | 0 <= k < |s.invokers|
      ensures s.invokers[k].depth <= |s.callStack| && PathsRefine(s.invokers[k].tracker, s.callStack[s.invokers[k].depth..])
    {
      assert InvokerOk(s.invokers[k], s.callStack);
      TrackerRefines(s.invokers[k].tracker, s.callStack[s.invokers[k].depth..]);
    }
  }

  // ---------- single use and conservation ----------

  function MatchesOf(log: seq<Match>, i: nat): seq<Path> {
    if log == [] then []
    else MatchesOf(log[..|log| - 1], i) + if log[|log| - 1].account == i then [log[|log| - 1].path] else []
  }

  lemma {:induction false} MatchesLength(log: seq<Match>, i: nat)
    ensures |MatchesOf(log, i)| == LogCount(log, i)
    decreases |log|
  {
    if log != [] { MatchesLength(log[..|log| - 1], i); }
  }

  lemma {:induction false} MatchesMember(log: seq<Match>, i: nat, p: Path)
    ensures p in MatchesOf(log, i) <==> Match(i, p) in log
    decreases |log|
  {
    if log != [] {
      MatchesMember(log[..|log| - 1], i, p);
      assert log == log[..|log| - 1] + [log[|log| - 1]];
    }
  }

  lemma {:induction false} MatchesDistinct(log: seq<Match>, i: nat)
    requires forall j, k :: 0 <= j < k < |log| ==> log[j] != log[k]
    ensures forall j, k :: 0 <= j < k < |MatchesOf(log, i)| ==> MatchesOf(log, i)[j] != MatchesOf(log, i)[k]
    decreases |log|
  {
    if log != [] {
      var rest, m := log[..|log| - 1], log[|log| - 1];
      MatchesDistinct(rest, i);
      MatchesMember(rest, i, m.path);
      if m.account == i {
        assert m !in rest;
      }
    }
  }

  /** The used nodes of a tree are exactly the matches listed: as many, each listed once,
      parents included. */
  ghost predicate Backs(root: Invocation, matches: seq<Path>) {
    && CountExhausted(root) == |matches|
    && (forall p :: p in matches <==> Flag(root, p))
    && (forall j, k :: 0 <= j < k < |matches| ==> matches[j] != matches[k])
    && (forall p, k: nat :: p in matches && k <= |p| ==> p[..k] in matches)
  }

  /** Over any run with arbitrary rollbacks, the used nodes of every tracker, of an account or
      of an invoker, are exactly its surviving matches. */
  lemma Conservation(env: Env, s: State)
    requires Reachable(env, s)
    ensures forall i :: 0 <= i < |s.accounts| ==> Backs(s.accounts[i].tracker.root, MatchesOf(s.log, i))
    ensures forall k :: 0 <= k < |s.invokers| ==> Backs(s.invokers[k].tracker.root, s.invokers[k].used)
  {
    ReachableInv(env, s);
    forall i | 0 <= i < |s.accounts| ensures Backs(s.accounts[i].tracker.root, MatchesOf(s.log, i)) {
      MirrorOk(env, s, i);
      AccountConserves(s, i);
    }
    forall k | 0 <= k < |s.invokers| ensures Backs(s.invokers[k].tracker.root, s.invokers[k].used) {
      assert InvokerOk(s.invokers[k], s.callStack);
      InvokerConserves(s.invokers[k], s.callStack);
    }
  }

  lemma PrefixesBack(root: Invocation, matches: seq<Path>)
    requires ParentClosed(root) && forall p :: p in matches <==> Flag(root, p)
    ensures forall p, k: nat :: p in matches && k <= |p| ==> p[..k] in matches
  {
    forall p, k: nat | p in matches && k <= |p| ensures p[..k] in matches {
      ParentClosedPaths(root, p, k);
    }
  }

  lemma AccountConserves(s: State, i: nat)
    requires LogOk(s.accounts, s.log) && i < |s.accounts| && ParentClosed(s.accounts[i].tracker.root)
    ensures Backs(s.accounts[i].tracker.root, MatchesOf(s.log, i))
  {
    var root := s.accounts[i].tracker.root;
    MatchesLength(s.log, i);
    MatchesDistinct(s.log, i);
    forall p ensures p in MatchesOf(s.log, i) <==> Flag(root, p) {
      MatchesMember(s.log, i, p);
    }
    PrefixesBack(root, MatchesOf(s.log, i));
  }

  lemma InvokerConserves(v: Invoker, callStack: seq<AuthStackFrame>)
    requires InvokerOk(v, callStack)
    ensures Backs(v.tracker.root, v.used)
  {
    PrefixesBack(v.tracker.root, v.used);
  }

  // ---------- rollback ----------

  /** The invoker trackers whose match stack is not empty. */
  function InScope(invokers: seq<Invoker>): seq<Invoker> {
    if invokers == [] then []
    else (if invokers[0].tracker.stack != [] then [invokers[0]] else []) + InScope(invokers[1..])
  }

  lemma {:induction false} InScopeIsPrefix(invokers: seq<Invoker>, m: nat)
    requires m <= |invokers|
    requires forall k :: 0 <= k < |invokers| ==> (k < m <==> invokers[k].tracker.stack != [])
    ensures InScope(invokers) == invokers[..m]
    decreases |invokers|
  {
    if invokers != [] {
      InScopeIsPrefix(invokers[1..], if m > 0 then m - 1 else 0);
      if m > 0 {
        assert invokers[..m] == [invokers[0]] + invokers[1..][..m - 1];
      }
    }
  }

  /** Push a contract frame, run anything that leads back to the top of that frame, and pop it
      with rollback. The pop goes through exactly when the frame has made no invoker tracker of
      its own that is still there, and then everything is as before the push: all account
      trackers with their flags, match stacks, root frames and progress, the nonces, the
      surviving matches, and every invoker tracker in use. Trackers made for this very call are
      gone. */
  lemma RollbackIsExact(env: Env, s0: State, contract: Address, name: string, events: seq<Event>, s: State)
    requires Reachable(env, s0) && !s0.failing
    requires var s1 := EnterContract(s0, Contract(contract, name));
             Run(env, s1, events) == Next(s) && s.ctl == s1.ctl
    ensures Step(env, s, PopRollback).Next? <==> !MadeTracker(s)
    ensures Step(env, s, PopRollback).Next? <==> |s.invokers| == |s0.invokers|
    ensures Step(env, s, PopRollback).Next? ==>
              Step(env, s, PopRollback).state == s0.(invokers := InScope(s0.invokers))
    ensures Step(env, s, PopRollback) != Stuck
  {
    hide Inv, Step;
    ReachableInv(env, s0);
    var s1 := EnterContract(s0, Contract(contract, name));
    assert Step(env, s0, PushContract(contract, name)) == Next(s1) by { PushContractStep(env, s0, contract, name); }
    StepInv(env, s0, PushContract(contract, name));
    RunInv(env, s1, events);
    RollbackStep(env, s);
    MadeTrackerCounts(s);
    if |s.invokers| == |s0.invokers| {
      var s2 := Step(env, s, PopRollback).state;
      InScopeIsPrefix(s0.invokers, |s2.invokers|);
    }
  }

  lemma PushContractStep(env: Env, s: State, contract: Address, name: string)
    requires !s.failing
    ensures Step(env, s, PushContract(contract, name)) == Next(EnterContract(s, Contract(contract, name)))
  {
  }

  lemma RollbackStep(env: Env, s: State)
    requires Inv(s) && s.ctl.Scope? && s.ctl.kind.ContractFrame? && s.ctl.snapshot.Some?
    ensures Step(env, s, PopRollback).Next? <==> |s.invokers| == |s.ctl.before.invokers|
    ensures Step(env, s, PopRollback).Next? ==> Restored(s.ctl.before, Step(env, s, PopRollback).state)
    ensures Step(env, s, PopRollback) != Stuck
  {
    hide Inv, Rollback, AfterRollback, Restored;
    RollbackResult(s);
  }

  /** The host function frame at the bottom restores everything, always. */
  lemma TopLevelRollbackIsExact(env: Env, s0: State, events: seq<Event>, s: State)
    requires Reachable(env, s0) && !s0.failing && s0.ctl.Bottom?
    requires Run(env, EnterHostFn(s0), events) == Next(s) && s.ctl == EnterHostFn(s0).ctl
    ensures Step(env, s, PopRollback) == Next(s0)
  {
    hide Inv, AfterRollback, Rollback;
    ReachableInv(env, s0);
    HostFnRunInv(env, s0, events);
    HostFnRollback(s);
  }

  lemma HostFnRunInv(env: Env, s0: State, events: seq<Event>)
    requires Inv(s0) && !s0.failing && s0.ctl.Bottom?
    ensures Run(env, EnterHostFn(s0), events).Next? ==> Inv(Run(env, EnterHostFn(s0), events).state)
  {
    EnterHostFnInv(s0);
    RunInv(env, EnterHostFn(s0), events);
  }

  lemma HostFnRollback(s: State)
    requires Inv(s) && s.ctl.Scope? && s.ctl.kind.HostFnFrame?
    ensures var r := Rollback(s, s.ctl.snapshot.value);
            r.Some? && AfterRollback(s, r.value) == s.ctl.before
  {
    hide Rollback;
    RollbackHostFn(s);
    BottomHasNoInvokers(s.ctl.before);
  }

  lemma BottomHasNoInvokers(b: State)
    requires Inv(b) && b.ctl.Bottom?
    ensures b.invokers == []
  {
    NoInvokersAtBottom(b);
  }

  // ---------- disjoint entries ----------

  /** Two entries of one address cannot share a call tree: if both are active, with roots at
      frames i and j, both are matched at the upper one. */
  lemma NoDisjointCover(env: Env, s: State, x: nat, y: nat)
    requires Reachable(env, s)
    requires x < |s.accounts| && y < |s.accounts| && x != y
    requires s.accounts[x].address == s.accounts[y].address
    requires !s.accounts[x].borrowed && !s.accounts[y].borrowed
    requires IsActive(s.accounts[x].tracker) && IsActive(s.accounts[y].tracker)
    ensures var a, b := s.accounts[x].tracker, s.accounts[y].tracker;
            && a.rootFrame.Some? && b.rootFrame.Some?
            && var top := if a.rootFrame.value >= b.rootFrame.value then a.rootFrame.value else b.rootFrame.value;
               && top < |s.callStack| == |a.stack| == |b.stack|
               && a.stack[top].IsMatched() && b.stack[top].IsMatched()
  {
    ReachableInv(env, s);
    MirrorOk(env, s, x);
    MirrorOk(env, s, y);
    assert MatchedAtRootOf(s.accounts[x], s.accounts[y]);
    assert MatchedAtRootOf(s.accounts[y], s.accounts[x]);
  }

  // ---------- verification and nonces ----------

  /** A tracker outside authentication and outside a failing frame is verified exactly when its
      root is used; verified address credentials have their nonce in the ledger; and no two
      verified trackers share one. */
  lemma VerifiedMeansUsed(env: Env, s: State, i: nat)
    requires Reachable(env, s) && i < |s.accounts|
    ensures !s.failing && !s.accounts[i].borrowed ==>
              (s.accounts[i].verified <==> s.accounts[i].tracker.root.exhausted)
    ensures s.accounts[i].borrowed ==> !s.accounts[i].verified && s.accounts[i].tracker.root.exhausted
    ensures HoldsNonce(s.accounts[i]) ==>
              && s.accounts[i].nonce.Some?
              && (s.accounts[i].address, s.accounts[i].nonce.value.value) in s.nonces
              && forall j :: 0 <= j < |s.accounts| && j != i && HoldsNonce(s.accounts[j]) && s.accounts[j].address == s.accounts[i].address ==>
                   s.accounts[j].nonce.Some? && s.accounts[j].nonce.value.value != s.accounts[i].nonce.value.value
  {
    ReachableInv(env, s);
    assert AccountOk(s.accounts[i], s.callStack);
  }

  // ---------- activity and scope ----------

  lemma ActivityIsRootMatch(env: Env, s: State, i: nat)
    requires Reachable(env, s) && i < |s.accounts|
    ensures IsActive(s.accounts[i].tracker) <==> RootMatch in s.accounts[i].tracker.stack
  {
    MirrorOk(env, s, i);
    ActiveIffRootMatched(s.accounts[i].tracker, MirroredFrames(s, i));
  }

  /** The tracker was made by the frame at its depth, a frame of its contract. */
  predicate MadeBy(v: Invoker, callStack: seq<AuthStackFrame>) {
    1 <= v.depth <= |callStack| && callStack[v.depth - 1].Contract? && callStack[v.depth - 1].contract == v.contract
  }

  /** An invoker tracker was made by a frame still on the call stack, a frame of its contract,
      and mirrors exactly the frames above; creation depths never decrease along the vector; and
      so the trailing pops after a frame remove exactly the trackers that went out of scope. */
  lemma InvokerScope(env: Env, s: State)
    requires Reachable(env, s)
    ensures forall k :: 0 <= k < |s.invokers| ==> MadeBy(s.invokers[k], s.callStack)
    ensures forall k :: 0 <= k < |s.invokers| ==> |s.invokers[k].tracker.stack| + s.invokers[k].depth == |s.callStack|
    ensures forall j, k :: 0 <= j <= k < |s.invokers| ==> s.invokers[j].depth <= s.invokers[k].depth
    ensures forall k :: 0 <= k < |s.invokers| ==> (IsActive(s.invokers[k].tracker) <==> RootMatch in s.invokers[k].tracker.stack)
    ensures s.callStack != [] ==>
              var left := PopInvokers(s.invokers);
              && |left| <= |s.invokers|
              && (forall k :: 0 <= k < |left| ==> left[k] == PopInvoker(s.invokers[k]))
              && (forall k :: 0 <= k < |s.invokers| ==> (k < |left| <==> s.invokers[k].depth < |s.callStack| - 1))
  {
    ReachableInv(env, s);
    forall k | 0 <= k < |s.invokers|
      ensures MadeBy(s.invokers[k], s.callStack) && |s.invokers[k].tracker.stack| + s.invokers[k].depth == |s.callStack|
      ensures IsActive(s.invokers[k].tracker) <==> RootMatch in s.invokers[k].tracker.stack
    {
      assert InvokerOk(s.invokers[k], s.callStack);
      ActiveIffRootMatched(s.invokers[k].tracker, s.callStack[s.invokers[k].depth..]);
    }
    if s.callStack != [] {
      PopInvokersSpec(s.invokers, s.callStack);
    }
  }

  // ---------- what a successful request means ----------

  /** When an account tracker answers a request, it used a node for the requested function that
      nobody had used, and that node's ancestors are the nodes matched on the frames below. */
  lemma AuthorizedInContext(env: Env, s: State, address: Address, handle: nat, callArgs: seq<Val>, freshNonce: int)
    requires ReachableEnforcing(env, s)
    requires Step(env, s, RequireAuth(address, handle, callArgs, freshNonce)).Next?
    ensures var s' := Step(env, s, RequireAuth(address, handle, callArgs, freshNonce)).state;
            s'.log != s.log ==>
              && |s'.log| == |s.log| + 1 && s.log <= s'.log
              && var Match(i, p) := s'.log[|s.log|];
                 && i < |s.accounts| == |s'.accounts|
                 && s.accounts[i].address == address && !s.accounts[i].borrowed
                 && var t, t' := s.accounts[i].tracker, s'.accounts[i].tracker;
                    && ValidPath(t.root, p) && !Flag(t.root, p) && Flag(t'.root, p)
                    && IsCall(NodeAt(t.root, p).function_, s.callStack[|s.callStack| - 1], callArgs)
                    && LastInvocation(t', 0) == At(p)
                    && (p != [] ==> LastInvocation(t, 0) == At(p[..|p| - 1]))
                    && (p == [] ==> LastInvocation(t, 0) == NoRoot && !HasActive(s.accounts, address))
                    && (s.accounts[i].verified || s'.ctl == Scope(Authentication(i), None, s))
  {
    ReachableInv(env, s);
    EnforcingThroughout(env, s);
    var s' := Step(env, s, RequireAuth(address, handle, callArgs, freshNonce)).state;
    if s'.log != s.log {
      var f := ToAuthorizedFunction(s.callStack[|s.callStack| - 1], callArgs);
      RequestReachesAccounts(env, s, address, handle, callArgs, freshNonce);
      FoundInContext(s, address, f);
    }
  }

  /** A request leaves everything as it was exactly when it asks for the authorization of the
      contract that called the current frame. */
  lemma DirectInvokerExactly(env: Env, s: State, address: Address, handle: nat, callArgs: seq<Val>, freshNonce: int)
    requires Reachable(env, s) && !s.failing && s.callStack != []
    ensures Step(env, s, RequireAuth(address, handle, callArgs, freshNonce)) == Next(s) <==>
              && |s.callStack| >= 2 && s.callStack[|s.callStack| - 2].Contract?
              && s.callStack[|s.callStack| - 2].contract == address
  {
    ReachableInv(env, s);
    LocalInvOf(s);
    RequestStep(env, s, address, handle, callArgs, freshNonce);
    hide Inv, LocalInv, Step, RequireStep;
    DirectRequest(env, s, address, handle, callArgs, freshNonce);
  }

  lemma DirectRequest(env: Env, s: State, address: Address, handle: nat, callArgs: seq<Val>, freshNonce: int)
    requires LocalInv(s) && !s.failing && s.callStack != []
    ensures RequireStep(env, s, address, handle, callArgs, freshNonce) == Next(s) <==>
              && |s.callStack| >= 2 && s.callStack[|s.callStack| - 2].Contract?
              && s.callStack[|s.callStack| - 2].contract == address
  {
    hide LocalInv, TryMatch, FindInvoker, RequireEnforcing, RequireRecording;
    var f := ToAuthorizedFunction(s.callStack[|s.callStack| - 1], callArgs);
    var r := CheckInvoker(s.callStack, s.invokers, address, f);
    AccountsChangeSomething(s, address, f);
    if s.mode.Recording? { RecordingChangesSomething(env, s, address, handle, f, freshNonce); }
    if r.ByTracker? { InvokerStepChanges(s, r.index, f); }
  }

  lemma InvokerStepChanges(s: State, i: nat, f: AuthorizedFunction)
    requires LocalInv(s) && s.callStack != [] && FrameOf(f) == s.callStack[|s.callStack| - 1]
    requires i < |s.invokers| && TryMatch(s.invokers[i].tracker, f, true).Matched?
    ensures var r := TryMatch(s.invokers[i].tracker, f, true);
            s.(invokers := s.invokers[i := UseBy(s.invokers[i], r.tracker, r.path)]) != s
  {
    var r := TryMatch(s.invokers[i].tracker, f, true);
    var v := UseBy(s.invokers[i], r.tracker, r.path);
    assert |v.used| == |s.invokers[i].used| + 1 && s.invokers[i := v][i] == v;
  }

  lemma RequestStep(env: Env, s: State, address: Address, handle: nat, callArgs: seq<Val>, freshNonce: int)
    ensures Step(env, s, RequireAuth(address, handle, callArgs, freshNonce)) ==
            if s.failing then Stuck else RequireStep(env, s, address, handle, callArgs, freshNonce)
  {
  }

  lemma LocalInvOf(s: State)
    requires Inv(s)
    ensures LocalInv(s)
  {
  }

  lemma AccountsChangeSomething(s: State, address: Address, f: AuthorizedFunction)
    ensures RequireEnforcing(s, address, f).Next? && !s.failing ==> RequireEnforcing(s, address, f).state != s
    ensures RequireEnforcing(s, address, f).Next? ==> RequireEnforcing(s, address, f).state.invokers == s.invokers
  {
    hide FindAccount, HasActive;
    var r := RequireEnforcing(s, address, f);
    if r.Next? && !s.failing {
      assert r.state.failing || |r.state.log| == |s.log| + 1;
    }
  }

  lemma RecordingChangesSomething(env: Env, s: State, address: Address, handle: nat, f: AuthorizedFunction, freshNonce: int)
    requires s.mode.Recording? && s.callStack != []
    ensures RequireRecording(env, s, address, handle, f, freshNonce).Next? ==>
              var s' := RequireRecording(env, s, address, handle, f, freshNonce).state;
              s'.invokers == s.invokers && (!s.failing ==> s' != s)
  {
    hide RecordInvocation, FindRecorder, HasMatchInStack;
    var r := RequireRecording(env, s, address, handle, f, freshNonce);
    if r.Next? && !s.failing {
      assert r.state.failing || |r.state.log| == |s.log| + 1;
    }
  }

  lemma InvokersChange(env: Env, s: State, address: Address, handle: nat, callArgs: seq<Val>, freshNonce: int)
    requires s.callStack != [] && RequireStep(env, s, address, handle, callArgs, freshNonce).Next?
    requires RequireStep(env, s, address, handle, callArgs, freshNonce).state.invokers != s.invokers
    ensures var f := ToAuthorizedFunction(s.callStack[|s.callStack| - 1], callArgs);
            var r := CheckInvoker(s.callStack, s.invokers, address, f);
            && r.ByTracker? && r.index < |s.invokers| && s.invokers[r.index].contract == address
            && TryMatch(s.invokers[r.index].tracker, f, true) == Matched(r.tracker, r.path)
            && RequireStep(env, s, address, handle, callArgs, freshNonce).state
                 == s.(invokers := s.invokers[r.index := UseBy(s.invokers[r.index], r.tracker, r.path)])
  {
    hide TryMatch, FindInvoker, RequireEnforcing, RequireRecording, ToAuthorizedFunction;
    var f := ToAuthorizedFunction(s.callStack[|s.callStack| - 1], callArgs);
    AccountsChangeSomething(s, address, f);
    if s.mode.Recording? { RecordingChangesSomething(env, s, address, handle, f, freshNonce); }
  }

  /** When an invoker tracker answers a request, nothing but that tracker changes: it was made
      by a frame below the current one, a frame of the contract asked for, and used an unused
      node for the requested function, below the node matched last. */
  lemma InvokerAuthorizedInContext(env: Env, s: State, address: Address, handle: nat, callArgs: seq<Val>, freshNonce: int)
    requires Reachable(env, s) && s.callStack != []
    requires Step(env, s, RequireAuth(address, handle, callArgs, freshNonce)).Next?
    ensures var s' := Step(env, s, RequireAuth(address, handle, callArgs, freshNonce)).state;
            s'.invokers != s.invokers ==>
              exists i: nat, p: Path :: i < |s.invokers| && UsesInvokerNode(s, s', i, p, address, callArgs)
  {
    hide UsesInvokerNode, Inv, LocalInv, Step, Reachable, RequireStep, TryMatch, CheckInvoker, ToAuthorizedFunction;
    ReachableInv(env, s);
    LocalInvOf(s);
    RequestStep(env, s, address, handle, callArgs, freshNonce);
    var s' := Step(env, s, RequireAuth(address, handle, callArgs, freshNonce)).state;
    if s'.invokers != s.invokers {
      InvokersChange(env, s, address, handle, callArgs, freshNonce);
      var r := CheckInvoker(s.callStack, s.invokers, address, ToAuthorizedFunction(s.callStack[|s.callStack| - 1], callArgs));
      InvokerStepUses(s, r.index, address, callArgs);
    }
  }

  lemma InvokerStepUses(s: State, i: nat, address: Address, callArgs: seq<Val>)
    requires LocalInv(s) && s.callStack != [] && i < |s.invokers| && s.invokers[i].contract == address
    requires TryMatch(s.invokers[i].tracker, ToAuthorizedFunction(s.callStack[|s.callStack| - 1], callArgs), true).Matched?
    ensures var r := TryMatch(s.invokers[i].tracker, ToAuthorizedFunction(s.callStack[|s.callStack| - 1], callArgs), true);
            UsesInvokerNode(s, s.(invokers := s.invokers[i := UseBy(s.invokers[i], r.tracker, r.path)]), i, r.path, address, callArgs)
  {
    var f := ToAuthorizedFunction(s.callStack[|s.callStack| - 1], callArgs);
    InvokerMatchInContext(s, i, f);
    assert InvokerOk(s.invokers[i], s.callStack);
    MatchNeedsFrames(s.invokers[i].tracker, f, true);
  }

  predicate UsesInvokerNode(s: State, s': State, i: nat, p: Path, address: Address, callArgs: seq<Val>)
    requires s.callStack != [] && i < |s.invokers|
  {
    && |s'.invokers| == |s.invokers| && s' == s.(invokers := s.invokers[i := s'.invokers[i]])
    && MadeBy(s.invokers[i], s.callStack) && s.invokers[i].depth < |s.callStack|
    && s.callStack[s.invokers[i].depth - 1].contract == address
    && s'.invokers[i] == UseBy(s.invokers[i], s'.invokers[i].tracker, p)
    && var t, t' := s.invokers[i].tracker, s'.invokers[i].tracker;
       && ValidPath(t.root, p) && !Flag(t.root, p) && Flag(t'.root, p)
       && IsCall(NodeAt(t.root, p).function_, s.callStack[|s.callStack| - 1], callArgs)
       && LastInvocation(t', 0) == At(p)
       && LastInvocation(t, 0) == if p == [] then NoRoot else At(p[..|p| - 1])
  }

  lemma InvokerMatchInContext(s: State, i: nat, f: AuthorizedFunction)
    requires LocalInv(s) && s.callStack != [] && FrameOf(f) == s.callStack[|s.callStack| - 1]
    requires i < |s.invokers| && TryMatch(s.invokers[i].tracker, f, true).Matched?
    ensures var t, r := s.invokers[i].tracker, TryMatch(s.invokers[i].tracker, f, true);
            && ValidPath(t.root, r.path) && !Flag(t.root, r.path) && Flag(r.tracker.root, r.path)
            && NodeAt(t.root, r.path).function_ == f
            && LastInvocation(r.tracker, 0) == At(r.path)
            && LastInvocation(t, 0) == if r.path == [] then NoRoot else At(r.path[..|r.path| - 1])
  {
    var v := s.invokers[i];
    assert InvokerOk(v, s.callStack);
    MatchNeedsFrames(v.tracker, f, true);
    MatchEndsAt(v.tracker, f, true, s.callStack[v.depth..]);
  }

  lemma RequestReachesAccounts(env: Env, s: State, address: Address, handle: nat, callArgs: seq<Val>, freshNonce: int)
    requires s.mode.Enforcing? && Step(env, s, RequireAuth(address, handle, callArgs, freshNonce)).Next?
    requires Step(env, s, RequireAuth(address, handle, callArgs, freshNonce)).state.log != s.log
    ensures s.callStack != []
    ensures RequireEnforcing(s, address, ToAuthorizedFunction(s.callStack[|s.callStack| - 1], callArgs)) ==
            Step(env, s, RequireAuth(address, handle, callArgs, freshNonce))
  {
  }

  lemma FoundInContext(s: State, address: Address, f: AuthorizedFunction)
    requires LocalInv(s) && s.callStack != [] && FrameOf(f) == s.callStack[|s.callStack| - 1]
    requires RequireEnforcing(s, address, f).Next? && RequireEnforcing(s, address, f).state.log != s.log
    ensures var s' := RequireEnforcing(s, address, f).state;
              && |s'.log| == |s.log| + 1 && s.log <= s'.log
              && var Match(i, p) := s'.log[|s.log|];
                 && i < |s.accounts| == |s'.accounts|
                 && s.accounts[i].address == address && !s.accounts[i].borrowed
                 && var t, t' := s.accounts[i].tracker, s'.accounts[i].tracker;
                    && ValidPath(t.root, p) && !Flag(t.root, p) && Flag(t'.root, p)
                    && NodeAt(t.root, p).function_ == f
                    && LastInvocation(t', 0) == At(p)
                    && (p != [] ==> LastInvocation(t, 0) == At(p[..|p| - 1]))
                    && (p == [] ==> LastInvocation(t, 0) == NoRoot && !HasActive(s.accounts, address))
                    && (s.accounts[i].verified || s'.ctl == Scope(Authentication(i), None, s))
  {
    hide FindAccount, TryMatch, HasActive, LastInvocation, ValidPath, Flag, NodeAt;
    var allowRoot := !HasActive(s.accounts, address);
    var r := FindAccount(s.accounts, address, f, allowRoot, 0);
    assert r.Found?;
    assert AccountOk(s.accounts[r.index], s.callStack);
    MatchEndsAt(s.accounts[r.index].tracker, f, allowRoot, s.callStack);
  }

  lemma MatchEndsAt(t: Tracker, f: AuthorizedFunction, allowRoot: bool, frames: seq<AuthStackFrame>)
    requires TrackerOk(t, frames) && frames != [] && FrameOf(f) == frames[|frames| - 1]
    requires TryMatch(t, f, allowRoot).Matched?
    ensures var r := TryMatch(t, f, allowRoot);
            && ValidPath(t.root, r.path) && !Flag(t.root, r.path) && Flag(r.tracker.root, r.path)
            && NodeAt(t.root, r.path).function_ == f
            && LastInvocation(r.tracker, 0) == At(r.path)
            && (r.path != [] ==> LastInvocation(t, 0) == At(r.path[..|r.path| - 1]))
            && (r.path == [] ==> LastInvocation(t, 0) == NoRoot && allowRoot)
  {
    var r := TryMatch(t, f, allowRoot);
    MatchOk(t, f, allowRoot, frames);
    LastIsFold(t, frames);
    LastIsFold(r.tracker, frames);
    ExhaustEffect(t.root, r.path, r.path);
    if r.path != [] {
      var j := r.path[|r.path| - 1];
      FoldExtend(t.stack, t.rootFrame.value + 1, j);
      assert r.tracker.stack == t.stack[|t.stack| - 1 := SubMatch(j)];
    }
  }

  lemma {:induction false} FoldExtend(stack: seq<MatchState>, k: nat, j: nat)
    requires k < |stack| && stack[|stack| - 1] == Unmatched
    ensures IndicesFrom(stack[|stack| - 1 := SubMatch(j)], k) == IndicesFrom(stack, k) + [j]
    decreases |stack| - k
  {
    if k < |stack| - 1 {
      FoldExtend(stack, k + 1, j);
    }
  }

  // ---------- when a run ends with an internal error ----------

  /** An invoker tracker that would match before any frame was pushed on it. */
  predicate AuthorizesItself(v: Invoker, address: Address, f: AuthorizedFunction) {
    v.contract == address && v.tracker.stack == [] && !v.tracker.root.exhausted && v.tracker.root.function_ == f
  }

  /** Of the trackers of the address, the first that answers the request does so. */
  predicate SelfAuthorized(invokers: seq<Invoker>, address: Address, f: AuthorizedFunction, i: nat)
    decreases |invokers| - i
  {
    i < |invokers| &&
    (AuthorizesItself(invokers[i], address, f) ||
     ((invokers[i].contract != address || TryMatch(invokers[i].tracker, f, true).NoMatch?) &&
      SelfAuthorized(invokers, address, f, i + 1)))
  }

  lemma FaultOf(v: Invoker, callStack: seq<AuthStackFrame>, address: Address, f: AuthorizedFunction)
    requires InvokerOk(v, callStack) && callStack != [] && FrameOf(f) == callStack[|callStack| - 1]
    ensures AuthorizesItself(v, address, f) <==> v.contract == address && TryMatch(v.tracker, f, true).Fault?
  {
    if v.tracker.stack != [] {
      MatchOk(v.tracker, f, true, callStack[v.depth..]);
    }
  }

  lemma {:induction false} FaultyInvoker(invokers: seq<Invoker>, callStack: seq<AuthStackFrame>, address: Address, f: AuthorizedFunction, i: nat)
    requires InvokersOk(invokers, callStack) && callStack != [] && FrameOf(f) == callStack[|callStack| - 1]
    ensures FindInvoker(invokers, address, f, i).InvokerFault? <==> SelfAuthorized(invokers, address, f, i)
    decreases |invokers| - i
  {
    if i < |invokers| {
      FaultOf(invokers[i], callStack, address, f);
      FaultyInvoker(invokers, callStack, address, f, i + 1);
    }
  }

  lemma CheckFault(s: State, address: Address, f: AuthorizedFunction)
    requires LocalInv(s) && s.callStack != [] && FrameOf(f) == s.callStack[|s.callStack| - 1]
    ensures CheckInvoker(s.callStack, s.invokers, address, f).InvokerFault? <==>
              && |s.callStack| >= 2
              && CheckInvoker(s.callStack, s.invokers, address, f) != Direct
              && SelfAuthorized(s.invokers, address, f, 0)
  {
    FaultyInvoker(s.invokers, s.callStack, address, f, 0);
  }

  /** The current frame, not called by its own contract, requests the authorization of its own
      contract for a call that it has just authorized, and no tracker before answers. */
  predicate AsksOfItself(s: State, address: Address, callArgs: seq<Val>) {
    && |s.callStack| >= 2
    && var frame, invoker := s.callStack[|s.callStack| - 1], s.callStack[|s.callStack| - 2];
       && frame.Contract? && frame.contract == address
       && !(invoker.Contract? && invoker.contract == address)
       && SelfAuthorized(s.invokers, address, ToAuthorizedFunction(frame, callArgs), 0)
  }

  /** A tracker with an empty match stack was made by the current frame. */
  lemma EmptyStackIsOwn(v: Invoker, callStack: seq<AuthStackFrame>)
    requires InvokerOk(v, callStack)
    ensures v.tracker.stack == [] <==> v.depth == |callStack|
    ensures v.depth == |callStack| ==> callStack[|callStack| - 1].Contract? && callStack[|callStack| - 1].contract == v.contract
  {
  }

  lemma {:induction false} SelfAuthorizedIsOwn(invokers: seq<Invoker>, callStack: seq<AuthStackFrame>, address: Address, f: AuthorizedFunction, i: nat)
    requires InvokersOk(invokers, callStack) && callStack != [] && SelfAuthorized(invokers, address, f, i)
    ensures callStack[|callStack| - 1].Contract? && callStack[|callStack| - 1].contract == address
    decreases |invokers| - i
  {
    EmptyStackIsOwn(invokers[i], callStack);
    if !AuthorizesItself(invokers[i], address, f) {
      SelfAuthorizedIsOwn(invokers, callStack, address, f, i + 1);
    }
  }

  lemma RequireFaults(env: Env, s: State, address: Address, handle: nat, callArgs: seq<Val>, freshNonce: int)
    requires LocalInv(s) && s.callStack != []
    ensures RequireStep(env, s, address, handle, callArgs, freshNonce) == InternalError <==>
            CheckInvoker(s.callStack, s.invokers, address, ToAuthorizedFunction(s.callStack[|s.callStack| - 1], callArgs)).InvokerFault?
  {
    var f := ToAuthorizedFunction(s.callStack[|s.callStack| - 1], callArgs);
    if s.mode.Enforcing? {
      NoAccountFault(s, address, f, !HasActive(s.accounts, address));
    } else {
      RecordingLocal(env, s, address, handle, f, freshNonce);
    }
    hide LocalInv, CheckInvoker, FindAccount, HasActive, ToAuthorizedFunction, RequireRecording;
  }

  lemma RequireErrorExactly(env: Env, s: State, address: Address, handle: nat, callArgs: seq<Val>, freshNonce: int)
    requires LocalInv(s) && s.callStack != []
    ensures RequireStep(env, s, address, handle, callArgs, freshNonce) == InternalError <==> AsksOfItself(s, address, callArgs)
  {
    hide RequireStep, FindInvoker, TryMatch;
    var f := ToAuthorizedFunction(s.callStack[|s.callStack| - 1], callArgs);
    RequireFaults(env, s, address, handle, callArgs, freshNonce);
    assert FrameOf(f) == s.callStack[|s.callStack| - 1];
    CheckFault(s, address, f);
    assert InvokersOk(s.invokers, s.callStack);
    hide LocalInv, InvokersOk, SelfAuthorized, ToAuthorizedFunction;
    if SelfAuthorized(s.invokers, address, f, 0) {
      SelfAuthorizedIsOwn(s.invokers, s.callStack, address, f, 0);
    }
  }

  /** Some invoker tracker was made by the current frame. */
  predicate MadeTracker(s: State) {
    exists k :: 0 <= k < |s.invokers| && s.invokers[k].tracker.stack == []
  }

  /** The frame made a tracker of its own exactly when there are more than before its push. */
  lemma MadeTrackerCounts(s: State)
    requires Inv(s) && s.ctl.Scope? && PushesFrame(s.ctl.kind)
    ensures |s.invokers| >= |s.ctl.before.invokers|
    ensures |s.invokers| != |s.ctl.before.invokers| <==> MadeTracker(s)
  {
    var b := s.ctl.before;
    forall k | 0 <= k < |b.invokers| ensures k < |s.invokers| && s.invokers[k].depth == b.invokers[k].depth < |s.callStack| {
      assert InvokerOk(b.invokers[k], b.callStack);
    }
    forall k | 0 <= k < |s.invokers|
      ensures s.invokers[k].tracker.stack == [] <==> k >= |b.invokers|
    {
      assert InvokerOk(s.invokers[k], s.callStack);
      EmptyStackIsOwn(s.invokers[k], s.callStack);
    }
    if b.invokers != [] {
      var last := b.invokers[|b.invokers| - 1];
      assert InvokerOk(last, b.callStack) && last.depth < |s.callStack|;
    }
    if |s.invokers| != |b.invokers| {
      assert s.invokers[|b.invokers|].tracker.stack == [];
    }
  }

  /** A rollback fails exactly when the failing frame has authorized calls as an invoker and
      has made no call since, so that its trackers are still there. */
  lemma RollbackErrorExactly(env: Env, s: State)
    requires Inv(s) && s.ctl.Scope? && s.ctl.snapshot.Some?
    ensures Step(env, s, PopRollback) == InternalError <==> MadeTracker(s)
    ensures Step(env, s, PopRollback) == InternalError <==> |s.invokers| != |s.ctl.before.invokers|
  {
    hide Rollback, AfterRollback, Restored;
    RollbackResult(s);
    if PushesFrame(s.ctl.kind) {
      hide Inv;
      MadeTrackerCounts(s);
    } else {
      HostFnMadeNone(s);
    }
  }

  lemma HostFnMadeNone(s: State)
    requires Inv(s) && s.ctl.Scope? && s.ctl.snapshot.Some? && !PushesFrame(s.ctl.kind)
    ensures s.invokers == [] && s.ctl.before.invokers == []
  {
    NoInvokersAtBottom(s.ctl.before);
    NoInvokersAtBottom(s);
  }

  /** A run of either mode ends with an internal error only in these cases: the rollback of a frame
      that has made invoker trackers of its own, a request outside of any frame, and a request
      for the frame's own authorization of the call it has just authorized. In particular the
      walks and the borrows never fail. */
  lemma InternalErrorExactly(env: Env, s: State, e: Event)
    requires Reachable(env, s)
    ensures Step(env, s, e) == InternalError <==>
            match e
            case PopRollback => s.ctl.Scope? && s.ctl.snapshot.Some? && MadeTracker(s)
            case RequireAuth(address, _, callArgs, _) => !s.failing && (s.callStack == [] || AsksOfItself(s, address, callArgs))
            case _ => false
  {
    ReachableInv(env, s);
    match e
    case PopRollback =>
      if s.ctl.Scope? && s.ctl.snapshot.Some? { RollbackErrorExactly(env, s); }
    case RequireAuth(address, handle, callArgs, freshNonce) =>
      if !s.failing && s.callStack != [] { RequireErrorExactly(env, s, address, handle, callArgs, freshNonce); }
    case _ =>
  }

  // ---------- both errors happen ----------

  /** A contract that authorizes a call and fails before making it cannot be rolled back. */
  lemma RollbackErrorHappens(env: Env, a: Address, b: Address)
    ensures var entry := XdrInvocation(ContractFn(b, "g", []), []);
            Run(env, NewEnforcing([], {}), [PushContract(a, "f"), AddInvokerAuth([entry]), PopRollback]) == InternalError
  {
    var entry := XdrInvocation(ContractFn(b, "g", []), []);
    var e1, e2, e3 := PushContract(a, "f"), AddInvokerAuth([entry]), PopRollback;
    var s0 := NewEnforcing([], {});
    var s1 := Step(env, s0, e1).state;
    var s2 := Step(env, s1, e2).state;
    assert |s2.invokers| == 1 && s2.ctl.snapshot.value.invokers == [];
    assert Step(env, s2, e3) == InternalError;
    assert [e1, e2, e3][1..] == [e2, e3] && [e2, e3][1..] == [e3];
    RunThree(env, s0, e1, e2, e3);
  }

  lemma RunThree(env: Env, s0: State, e1: Event, e2: Event, e3: Event)
    requires Step(env, s0, e1).Next? && Step(env, Step(env, s0, e1).state, e2).Next?
    requires Step(env, Step(env, Step(env, s0, e1).state, e2).state, e3) == InternalError
    ensures Run(env, s0, [e1, e2, e3]) == InternalError
  {
    hide Step;
    var s1 := Step(env, s0, e1).state;
    var s2 := Step(env, s1, e2).state;
    assert [e1, e2, e3][1..] == [e2, e3] && [e2, e3][1..] == [e3];
    assert Run(env, s2, [e3]) == InternalError;
    assert Run(env, s1, [e2, e3]) == InternalError;
  }

  /** A contract called by another that authorizes the very call it is in, and then requests its
      own authorization for it, ends the run. */
  lemma RequireErrorHappens(env: Env, a: Address, b: Address, x: Val)
    requires a != b
    ensures var entry := XdrInvocation(ContractFn(b, "g", [x]), []);
            Run(env, NewEnforcing([], {}),
                [PushContract(a, "f"), PushContract(b, "g"), AddInvokerAuth([entry]), RequireAuth(b, 0, [x], 0)]) == InternalError
  {
    var entry := XdrInvocation(ContractFn(b, "g", [x]), []);
    var e0, e1, e2, e3 := PushContract(a, "f"), PushContract(b, "g"), AddInvokerAuth([entry]), RequireAuth(b, 0, [x], 0);
    var s0 := NewEnforcing([], {});
    var s1 := Step(env, s0, e0).state;
    var s2 := Step(env, s1, e1).state;
    var s3 := Step(env, s2, e2).state;
    assert s3.callStack == [Contract(a, "f"), Contract(b, "g")];
    assert s3.invokers == [Invoker(b, NewTracker(FromXdr(entry)), 2, [])];
    assert TryMatch(s3.invokers[0].tracker, ContractFn(b, "g", [x]), true).Fault?;
    assert FindInvoker(s3.invokers, b, ContractFn(b, "g", [x]), 0) == InvokerFault;
    assert Step(env, s3, e3) == InternalError;
    assert [e0, e1, e2, e3][1..] == [e1, e2, e3];
    RunThree(env, s1, e1, e2, e3);
  }
}
