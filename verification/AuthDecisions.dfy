/** What the manager decides in any reachable state, in terms of trackers and nodes: which
    requests are answered and by whom, how an authentication ends, and what is submitted. */
module AuthDecisions {
  import opened Wrappers
  import opened AuthTypes
  import opened AuthTree
  import opened InvocationTracking
  import opened AuthMachine
  import opened AuthInvariant
  import opened AuthPreservation
  import opened AuthRecording
  import opened AuthSteps
  import opened AuthNonces
  import opened AuthTheorems

  // ---------- the end of an authentication ----------

  /** Credentials the ledger admits, with a nonce not consumed yet. */
  predicate Admissible(env: Env, a: Account, nonces: set<(Address, int)>) {
    match a.nonce
    case None => false
    case Some(Nonce(n, liveUntil)) => env.ledgerSeq <= liveUntil && liveUntil <= env.maxLiveUntil && (a.address, n) !in nonces
  }

  /** An authentication can always end. It succeeds exactly if nothing failed within it, and the
      account is the source account or was authenticated with admissible credentials whose nonce
      may be accessed; then the tracker is verified and the nonce consumed. Otherwise the frame
      fails, and neither has happened. Nothing else changes but that the scope is left. */
  lemma AuthenticationEnds(env: Env, s: State, authenticated: bool, access: bool)
    requires Reachable(env, s) && s.ctl.Scope? && s.ctl.kind.Authentication?
    ensures s.ctl.kind.account < |s.accounts| && s.mode.Enforcing?
    ensures var a := s.accounts[s.ctl.kind.account];
            var accepted := !s.failing && (a.isSource || (authenticated && access && Admissible(env, a, s.nonces)));
            Step(env, s, AuthDone(authenticated, access)) == Next(s.(
              accounts := s.accounts[s.ctl.kind.account := a.(borrowed := false, verified := accepted)],
              nonces := if accepted && !a.isSource then s.nonces + {(a.address, a.nonce.value.value)} else s.nonces,
              ctl := s.ctl.before.ctl,
              failing := !accepted))
  {
    hide Inv, Reachable, FinishAuthentication, Admissible;
    ReachableInv(env, s);
    BorrowedUnverified(s);
    Finishes(env, s, s.ctl.kind.account, authenticated, access);
  }

  lemma Finishes(env: Env, s: State, i: nat, authenticated: bool, access: bool)
    requires s.ctl.Scope? && i < |s.accounts| && !s.accounts[i].verified
    ensures var a := s.accounts[i];
            var accepted := !s.failing && (a.isSource || (authenticated && access && Admissible(env, a, s.nonces)));
            FinishAuthentication(env, s, i, authenticated, access) == s.(
              accounts := s.accounts[i := a.(borrowed := false, verified := accepted)],
              nonces := if accepted && !a.isSource then s.nonces + {(a.address, a.nonce.value.value)} else s.nonces,
              ctl := s.ctl.before.ctl,
              failing := !accepted)
  {
  }

  lemma BorrowedUnverified(s: State)
    requires Inv(s) && s.ctl.Scope? && s.ctl.kind.Authentication?
    ensures s.ctl.kind.account < |s.accounts| && s.mode.Enforcing?
    ensures s.accounts[s.ctl.kind.account].borrowed && !s.accounts[s.ctl.kind.account].verified
  {
    var i := s.ctl.kind.account;
    assert s.accounts[i].borrowed;
    assert AccountOk(s.accounts[i], s.callStack);
  }

  /** No other event ever verifies a tracker, rollbacks included. */
  lemma VerifiedOnlyByAuthentication(env: Env, s: State, e: Event, i: nat)
    requires Reachable(env, s) && Step(env, s, e).Next?
    requires i < |s.accounts| && i < |Step(env, s, e).state.accounts|
    requires !s.accounts[i].verified && Step(env, s, e).state.accounts[i].verified
    ensures e.AuthDone? && s.ctl.Scope? && s.ctl.kind == Authentication(i) && !s.failing
    ensures s.accounts[i].isSource || (e.authenticated && e.nonceAccess && Admissible(env, s.accounts[i], s.nonces))
  {
    hide Inv, Reachable, Admissible, FinishAuthentication;
    ReachableInv(env, s);
    if e.AuthDone? {
      AuthenticationEnds(env, s, e.authenticated, e.nonceAccess);
    } else {
      KeepsUnverified(env, s, e, i);
    }
  }

  lemma KeepsUnverified(env: Env, s: State, e: Event, i: nat)
    requires Inv(s) && Step(env, s, e).Next? && !e.AuthDone?
    requires i < |s.accounts| && i < |Step(env, s, e).state.accounts| && !s.accounts[i].verified
    ensures !Step(env, s, e).state.accounts[i].verified
  {
    hide Inv, Step;
    if e.PopRollback? {
      RollbackKeepsUnverified(env, s, i);
    } else if e.RequireAuth? {
      UnverifiedMeansEnforcing(s, i);
      RequestKeepsUnverified(env, s, e.address, e.handle, e.callArgs, e.freshNonce, i);
      RequestStep(env, s, e.address, e.handle, e.callArgs, e.freshNonce);
    } else {
      FramesKeepUnverified(env, s, e, i);
    }
  }

  lemma RollbackKeepsUnverified(env: Env, s: State, i: nat)
    requires Inv(s) && Step(env, s, PopRollback).Next?
    requires i < |s.accounts| && i < |Step(env, s, PopRollback).state.accounts| && !s.accounts[i].verified
    ensures !Step(env, s, PopRollback).state.accounts[i].verified
  {
    hide Inv, Rollback, AfterRollback;
    RollbackResult(s);
    RolledBackUnverified(s, i);
  }

  lemma FramesKeepUnverified(env: Env, s: State, e: Event, i: nat)
    requires Step(env, s, e).Next? && !e.AuthDone? && !e.PopRollback? && !e.RequireAuth?
    requires i < |s.accounts| && i < |Step(env, s, e).state.accounts| && !s.accounts[i].verified
    ensures !Step(env, s, e).state.accounts[i].verified
  {
    hide RequireStep, Rollback, AfterRollback, FinishAuthentication, SnapshotOf, PopInvokers, PushInvokers, PushFrame, PopFrame;
  }

  lemma UnverifiedMeansEnforcing(s: State, i: nat)
    requires Inv(s) && i < |s.accounts| && !s.accounts[i].verified
    ensures s.mode.Enforcing?
  {
    assert s.mode.Recording? ==> RecordedOnly(s.accounts[i]);
  }

  lemma RequestKeepsUnverified(env: Env, s: State, address: Address, handle: nat, callArgs: seq<Val>, freshNonce: int, i: nat)
    requires s.mode.Enforcing? && i < |s.accounts| && !s.accounts[i].verified
    ensures var r := RequireStep(env, s, address, handle, callArgs, freshNonce);
            r.Next? ==> i < |r.state.accounts| && !r.state.accounts[i].verified
  {
    hide CheckInvoker, RequireEnforcing, RequireRecording, ToAuthorizedFunction;
    if s.callStack != [] {
      EnforcingKeepsCredentials(s, address, ToAuthorizedFunction(s.callStack[|s.callStack| - 1], callArgs));
    }
  }

  lemma RolledBackUnverified(s: State, i: nat)
    requires Inv(s) && s.ctl.Scope? && i < |s.accounts| && i < |s.ctl.before.accounts| && !s.accounts[i].verified
    ensures !s.ctl.before.accounts[i].verified
  {
    if s.mode.Enforcing? {
      var b := s.ctl.before;
      var d := if PushesFrame(s.ctl.kind) then |b.callStack| else Below(|b.callStack|);
      assert AccountEvolves(d, b.accounts[i], s.accounts[i]);
    } else {
      assert RecordedOnly(s.accounts[i]);
    }
  }

  // ---------- what is submitted ----------

  /** An unused tracker of exactly the tree submitted. */
  ghost predicate Holds(t: Tracker, x: XdrInvocation) {
    ToXdr(t.root, false) == x && NoneExhausted(t.root) && t.stack == [] && t.rootFrame == None && !t.processed
  }

  /** Each entry makes one tracker, with the entry's tree, address, nonce and expiration. */
  lemma EntriesAreHeld(env: Env, entries: seq<AuthEntry>, i: nat)
    requires NewAccounts(env, entries).Some? && i < |entries|
    ensures var a := NewAccounts(env, entries).value[i];
            && Holds(a.tracker, entries[i].root) && !a.verified && !a.borrowed
            && match entries[i].credentials
               case SourceAccount => a.isSource && env.source == Some(a.address)
               case AddressCredentials(address, nonce, expiration) =>
                 !a.isSource && a.address == address && a.nonce == Some(Nonce(nonce, expiration))
  {
    assert NewAccount(env, entries[i]) == Some(NewAccounts(env, entries).value[i]);
    XdrBack(entries[i].root);
    FromXdrUnused(entries[i].root);
  }

  /** A contract's authorizations add one tracker each, in order, of that contract, and change
      nothing else. */
  lemma AuthorizationsAreHeld(env: Env, s: State, entries: seq<XdrInvocation>)
    requires Step(env, s, AddInvokerAuth(entries)).Next?
    ensures s.callStack != [] && s.callStack[|s.callStack| - 1].Contract?
    ensures var s' := Step(env, s, AddInvokerAuth(entries)).state;
            var n := |s.invokers|;
            && s' == s.(invokers := s'.invokers)
            && |s'.invokers| == n + |entries| && s'.invokers[..n] == s.invokers
            && forall i :: 0 <= i < |entries| ==>
                 && s'.invokers[n + i].contract == s.callStack[|s.callStack| - 1].contract
                 && Holds(s'.invokers[n + i].tracker, entries[i])
  {
    var s' := Step(env, s, AddInvokerAuth(entries)).state;
    forall i | 0 <= i < |entries| ensures Holds(s'.invokers[|s.invokers| + i].tracker, entries[i]) {
      XdrBack(entries[i]);
      FromXdrUnused(entries[i]);
    }
  }

  // ---------- who answers a request ----------

  /** The node at `p` is one the tracker may use for `f` in the current frame: unused, for that
      function, and right below the node matched last; or the root, if nothing is matched. */
  predicate Offers(t: Tracker, f: AuthorizedFunction, p: Path) {
    && !(t.stack != [] && t.stack[|t.stack| - 1] != Unmatched)
    && ValidPath(t.root, p) && !NodeAt(t.root, p).exhausted && NodeAt(t.root, p).function_ == f
    && if RootMatch in t.stack then t.rootFrame.Some? && p != [] && p[..|p| - 1] == IndicesFrom(t.stack, t.rootFrame.value + 1)
       else p == []
  }

  /** The earlier child. */
  predicate NotAfter(p: Path, q: Path) {
    p == q || (|p| == |q| && p != [] && p[|p| - 1] < q[|q| - 1])
  }

  /** A tracker matches exactly if it offers a node, and uses the first. */
  lemma MatchExactly(t: Tracker, f: AuthorizedFunction, allowRoot: bool, frames: seq<AuthStackFrame>)
    requires TrackerOk(t, frames)
    ensures TryMatch(t, f, allowRoot).NoMatch? <==> forall p :: Offers(t, f, p) ==> p == [] && !allowRoot
    ensures var r := TryMatch(t, f, allowRoot);
            r.Matched? ==> Offers(t, f, r.path) && (r.path == [] ==> allowRoot) && forall p :: Offers(t, f, p) ==> NotAfter(r.path, p)
  {
    LastIsFold(t, frames);
    ActiveIffRootMatched(t, frames);
    if CurrentFrameMatched(t) {
    } else if IsActive(t) {
      ChildOffers(t, f, IndicesFrom(t.stack, t.rootFrame.value + 1));
    } else {
      RootOffers(t, f);
      assert Offers(t, f, []) <==> !t.root.exhausted && t.root.function_ == f;
    }
  }

  lemma RootOffers(t: Tracker, f: AuthorizedFunction)
    requires RootMatch !in t.stack && !CurrentFrameMatched(t)
    ensures forall p :: Offers(t, f, p) <==> p == [] && !t.root.exhausted && t.root.function_ == f
  {
  }

  lemma ChildOffers(t: Tracker, f: AuthorizedFunction, q: Path)
    requires RootMatch in t.stack && !CurrentFrameMatched(t) && t.rootFrame.Some? && q == IndicesFrom(t.stack, t.rootFrame.value + 1)
    requires ValidPath(t.root, q)
    ensures var subs := NodeAt(t.root, q).subs;
            var r := FindSub(subs, f, 0);
            && (r.None? <==> forall p :: !Offers(t, f, p))
            && (r.Some? ==> Offers(t, f, q + [r.value]) && forall p :: Offers(t, f, p) ==> NotAfter(q + [r.value], p))
  {
    hide ValidPath, NodeAt, FindSub, IndicesFrom;
    var subs := NodeAt(t.root, q).subs;
    var r := FindSub(subs, f, 0);
    forall p | Offers(t, f, p) ensures r.Some? && NotAfter(q + [r.value], p) {
      OfferIsChild(t, f, q, p);
      var j := p[|p| - 1];
      assert 0 <= j < |subs| && !subs[j].exhausted && subs[j].function_ == f;
    }
    if r.Some? {
      ChildPath(t.root, q, r.value);
      var p := q + [r.value];
      assert p[..|p| - 1] == q;
      assert Offers(t, f, p);
    }
  }

  lemma OfferIsChild(t: Tracker, f: AuthorizedFunction, q: Path, p: Path)
    requires RootMatch in t.stack && t.rootFrame.Some? && q == IndicesFrom(t.stack, t.rootFrame.value + 1)
    requires ValidPath(t.root, q) && Offers(t, f, p)
    ensures p != []
    ensures var subs, j := NodeAt(t.root, q).subs, p[|p| - 1];
            p == q + [j] && j < |subs| && !subs[j].exhausted && subs[j].function_ == f
  {
    hide IndicesFrom;
    var j := p[|p| - 1];
    assert p == q + [j] && [j][1..] == [];
    PathConcat(t.root, q, [j]);
    var node := NodeAt(t.root, q);
    assert ValidPath(node, [j]) && NodeAt(node, [j]) == NodeAt(node.subs[j], []);
  }

  /** The address is that of the contract that called the current frame. */
  predicate DirectlyInvoked(s: State, address: Address) {
    && |s.callStack| >= 2
    && var invoker := s.callStack[|s.callStack| - 2];
       invoker.Contract? && invoker.contract == address
  }

  /** A tracker made by a contract at this address offers a node. */
  ghost predicate InvokerOffers(invokers: seq<Invoker>, address: Address, f: AuthorizedFunction, k: nat) {
    k < |invokers| && invokers[k].contract == address && exists p :: Offers(invokers[k].tracker, f, p)
  }

  lemma InvokerMatchExactly(invokers: seq<Invoker>, callStack: seq<AuthStackFrame>, address: Address, f: AuthorizedFunction, i: nat)
    requires InvokersOk(invokers, callStack) && i < |invokers| && invokers[i].contract == address
    ensures var r := TryMatch(invokers[i].tracker, f, true);
            && (r.NoMatch? <==> !InvokerOffers(invokers, address, f, i))
            && (r.Matched? ==>
                  && Offers(invokers[i].tracker, f, r.path)
                  && forall p :: Offers(invokers[i].tracker, f, p) ==> NotAfter(r.path, p))
  {
    assert InvokerOk(invokers[i], callStack);
    hide TryMatch, Offers;
    MatchExactly(invokers[i].tracker, f, true, callStack[invokers[i].depth..]);
  }

  lemma {:induction false} FindInvokerExactly(invokers: seq<Invoker>, callStack: seq<AuthStackFrame>, address: Address, f: AuthorizedFunction, i: nat)
    requires InvokersOk(invokers, callStack)
    ensures var r := FindInvoker(invokers, address, f, i);
            && (r.NotAuthorized? <==> forall k: nat :: i <= k ==> !InvokerOffers(invokers, address, f, k))
            && (r.ByTracker? ==>
                  && (forall k: nat :: i <= k < r.index ==> !InvokerOffers(invokers, address, f, k))
                  && Offers(invokers[r.index].tracker, f, r.path)
                  && forall p :: Offers(invokers[r.index].tracker, f, p) ==> NotAfter(r.path, p))
    decreases |invokers| - i
  {
    hide TryMatch, Offers, NotAfter, InvokersOk;
    if i < |invokers| {
      if invokers[i].contract == address { InvokerMatchExactly(invokers, callStack, address, f, i); }
      assert invokers[i].contract != address ==> !InvokerOffers(invokers, address, f, i);
      FindInvokerExactly(invokers, callStack, address, f, i + 1);
      hide InvokerOffers;
    }
  }

  /** Some invoker tracker answers for the address. */
  ghost predicate InvokerAnswers(s: State, address: Address, f: AuthorizedFunction) {
    |s.callStack| >= 2 && exists k: nat :: InvokerOffers(s.invokers, address, f, k)
  }

  /** Invokers answer exactly the requests for the direct invoker, and those for which a tracker
      of the address offers a node; then the first such tracker, and no other, uses the first
      node it offers. (The one exception to the use is the internal error.) */
  lemma InvokersAnswerExactly(env: Env, s: State, address: Address, handle: nat, callArgs: seq<Val>, freshNonce: int, f: AuthorizedFunction)
    requires Reachable(env, s) && !s.failing && s.callStack != [] && IsCall(f, s.callStack[|s.callStack| - 1], callArgs)
    ensures var r := Step(env, s, RequireAuth(address, handle, callArgs, freshNonce));
            && (DirectlyInvoked(s, address) ==> r == Next(s))
            && (!DirectlyInvoked(s, address) ==>
                 && ((r == InternalError || (r.Next? && r.state.invokers != s.invokers)) <==> InvokerAnswers(s, address, f))
                 && (r.Next? && r.state.invokers != s.invokers ==>
                       exists k: nat, p: Path :: FirstToAnswer(s, r.state, address, f, k, p)))
  {
    ReachableInv(env, s);
    LocalInvOf(s);
    RequestStep(env, s, address, handle, callArgs, freshNonce);
    CallIs(s.callStack[|s.callStack| - 1], callArgs, f);
    hide Inv, Step, Reachable;
    InvokersAnswer(env, s, address, handle, callArgs, freshNonce);
  }

  lemma CallIs(frame: AuthStackFrame, args: seq<Val>, f: AuthorizedFunction)
    requires IsCall(f, frame, args)
    ensures f == ToAuthorizedFunction(frame, args) && FrameOf(f) == frame
  {
  }

  ghost predicate FirstToAnswer(s: State, s': State, address: Address, f: AuthorizedFunction, k: nat, p: Path) {
    && k < |s.invokers| == |s'.invokers| && s.invokers[k].contract == address && Offers(s.invokers[k].tracker, f, p)
    && (forall j: nat :: j < k ==> !InvokerOffers(s.invokers, address, f, j))
    && (forall q :: Offers(s.invokers[k].tracker, f, q) ==> NotAfter(p, q))
    && s' == s.(invokers := s.invokers[k := UseBy(s.invokers[k], s'.invokers[k].tracker, p)])
    && s'.invokers[k].tracker.root == Exhaust(s.invokers[k].tracker.root, p)
  }

  lemma InvokersAnswer(env: Env, s: State, address: Address, handle: nat, callArgs: seq<Val>, freshNonce: int)
    requires LocalInv(s) && s.callStack != []
    ensures var f := ToAuthorizedFunction(s.callStack[|s.callStack| - 1], callArgs);
            var r := RequireStep(env, s, address, handle, callArgs, freshNonce);
            && (DirectlyInvoked(s, address) ==> r == Next(s))
            && (!DirectlyInvoked(s, address) ==>
                 && ((r == InternalError || (r.Next? && r.state.invokers != s.invokers)) <==> InvokerAnswers(s, address, f))
                 && (r.Next? && r.state.invokers != s.invokers ==>
                       exists k: nat, p: Path :: FirstToAnswer(s, r.state, address, f, k, p)))
  {
    hide LocalInv, TryMatch, RequireEnforcing, RequireRecording, FindInvoker, FirstToAnswer, InvokerOffers, ToAuthorizedFunction;
    var f := ToAuthorizedFunction(s.callStack[|s.callStack| - 1], callArgs);
    var c := CheckInvoker(s.callStack, s.invokers, address, f);
    VectorsOk(s);
    CallOf(s.callStack[|s.callStack| - 1], callArgs);
    FindInvokerExactly(s.invokers, s.callStack, address, f, 0);
    RequireFaults(env, s, address, handle, callArgs, freshNonce);
    AccountsChangeSomething(s, address, f);
    if s.mode.Recording? { RecordingChangesSomething(env, s, address, handle, f, freshNonce); }
    if c.ByTracker? {
      InvokerStepChanges(s, c.index, f);
      TrackerAnswers(s, address, f);
    }
  }

  lemma VectorsOk(s: State)
    requires LocalInv(s)
    ensures InvokersOk(s.invokers, s.callStack) && AccountsOk(s.accounts, s.callStack)
  {
  }

  lemma CallOf(frame: AuthStackFrame, args: seq<Val>)
    ensures FrameOf(ToAuthorizedFunction(frame, args)) == frame && IsCall(ToAuthorizedFunction(frame, args), frame, args)
  {
  }

  lemma TrackerAnswers(s: State, address: Address, f: AuthorizedFunction)
    requires LocalInv(s) && s.callStack != [] && FrameOf(f) == s.callStack[|s.callStack| - 1]
    requires FindInvoker(s.invokers, address, f, 0).ByTracker?
    ensures var c := FindInvoker(s.invokers, address, f, 0);
            && InvokerOffers(s.invokers, address, f, c.index)
            && FirstToAnswer(s, s.(invokers := s.invokers[c.index := UseBy(s.invokers[c.index], c.tracker, c.path)]), address, f, c.index, c.path)
  {
    hide LocalInv, TryMatch, FindInvoker, Offers;
    VectorsOk(s);
    FindInvokerExactly(s.invokers, s.callStack, address, f, 0);
    UsesOffered(s, FindInvoker(s.invokers, address, f, 0).index, f);
  }

  lemma UsesOffered(s: State, i: nat, f: AuthorizedFunction)
    requires LocalInv(s) && s.callStack != [] && FrameOf(f) == s.callStack[|s.callStack| - 1]
    requires i < |s.invokers| && TryMatch(s.invokers[i].tracker, f, true).Matched?
    ensures var r := TryMatch(s.invokers[i].tracker, f, true);
            ValidPath(s.invokers[i].tracker.root, r.path) && r.tracker.root == Exhaust(s.invokers[i].tracker.root, r.path)
  {
    assert InvokerOk(s.invokers[i], s.callStack);
    MatchNeedsFrames(s.invokers[i].tracker, f, true);
    MatchOk(s.invokers[i].tracker, f, true, s.callStack[s.invokers[i].depth..]);
  }

  // ---------- accounts ----------

  /** A tracker of the address that has started its tree and is unmatched in this frame. */
  predicate Waits(a: Account, address: Address) {
    && !a.borrowed && a.address == address
    && RootMatch in a.tracker.stack && a.tracker.stack[|a.tracker.stack| - 1] == Unmatched
  }

  ghost predicate NoneWaiting(accounts: seq<Account>, address: Address) {
    forall k :: 0 <= k < |accounts| ==> !Waits(accounts[k], address)
  }

  /** Account tracker `i` of the address, in no authentication, offers the node at `p`; its root
      only if no other tree of the address waits. */
  ghost predicate AccountOffers(accounts: seq<Account>, address: Address, f: AuthorizedFunction, i: nat, p: Path) {
    && i < |accounts| && !accounts[i].borrowed && accounts[i].address == address
    && Offers(accounts[i].tracker, f, p) && (p == [] ==> NoneWaiting(accounts, address))
  }

  lemma WaitingIsActive(s: State, address: Address)
    requires LocalInv(s)
    ensures forall k :: 0 <= k < |s.accounts| ==> (Waits(s.accounts[k], address) <==> ActiveElsewhere(s.accounts[k], address))
    ensures NoneWaiting(s.accounts, address) <==> !HasActive(s.accounts, address)
  {
    forall k | 0 <= k < |s.accounts| && !s.accounts[k].borrowed
      ensures IsActive(s.accounts[k].tracker) <==> RootMatch in s.accounts[k].tracker.stack
    {
      assert AccountOk(s.accounts[k], s.callStack);
      ActiveIffRootMatched(s.accounts[k].tracker, s.callStack);
    }
    hide IsActive;
    assert forall k :: 0 <= k < |s.accounts| ==> (Waits(s.accounts[k], address) <==> ActiveElsewhere(s.accounts[k], address));
  }

  lemma AccountMatchExactly(accounts: seq<Account>, callStack: seq<AuthStackFrame>, address: Address, f: AuthorizedFunction, i: nat)
    requires AccountsOk(accounts, callStack) && i < |accounts| && !accounts[i].borrowed && accounts[i].address == address
    ensures var r := TryMatch(accounts[i].tracker, f, NoneWaiting(accounts, address));
            && (r.NoMatch? <==> forall p :: !AccountOffers(accounts, address, f, i, p))
            && (r.Matched? ==>
                  && AccountOffers(accounts, address, f, i, r.path)
                  && forall p :: AccountOffers(accounts, address, f, i, p) ==> NotAfter(r.path, p))
  {
    assert AccountOk(accounts[i], callStack);
    hide TryMatch, Offers, NoneWaiting;
    var allowRoot := NoneWaiting(accounts, address);
    MatchExactly(accounts[i].tracker, f, allowRoot, callStack);
    assert forall p :: AccountOffers(accounts, address, f, i, p) <==> Offers(accounts[i].tracker, f, p) && (p == [] ==> allowRoot);
  }

  lemma {:induction false} FindAccountExactly(accounts: seq<Account>, callStack: seq<AuthStackFrame>, address: Address, f: AuthorizedFunction, i: nat)
    requires AccountsOk(accounts, callStack)
    ensures var r := FindAccount(accounts, address, f, NoneWaiting(accounts, address), i);
            && (r.NotFound? <==> forall k: nat, p :: i <= k ==> !AccountOffers(accounts, address, f, k, p))
            && (r.Found? ==>
                  && AccountOffers(accounts, address, f, r.index, r.path)
                  && (forall k: nat, p :: i <= k < r.index ==> !AccountOffers(accounts, address, f, k, p))
                  && forall p :: AccountOffers(accounts, address, f, r.index, p) ==> NotAfter(r.path, p))
    decreases |accounts| - i
  {
    hide TryMatch, Offers, NotAfter, NoneWaiting, AccountsOk;
    if i < |accounts| {
      if !accounts[i].borrowed && accounts[i].address == address { AccountMatchExactly(accounts, callStack, address, f, i); }
      assert accounts[i].borrowed || accounts[i].address != address ==> forall p :: !AccountOffers(accounts, address, f, i, p);
      FindAccountExactly(accounts, callStack, address, f, i + 1);
      hide AccountOffers;
    }
  }

  /** No account tracker of the address offers a node. */
  ghost predicate NoneOffers(accounts: seq<Account>, address: Address, f: AuthorizedFunction) {
    forall i: nat, p :: !AccountOffers(accounts, address, f, i, p)
  }

  /** Tracker `i` is the first that offers a node, and the node at `p` the first it offers. */
  ghost predicate FirstOffer(accounts: seq<Account>, address: Address, f: AuthorizedFunction, i: nat, p: Path) {
    && AccountOffers(accounts, address, f, i, p)
    && (forall k: nat, q :: k < i ==> !AccountOffers(accounts, address, f, k, q))
    && forall q :: AccountOffers(accounts, address, f, i, q) ==> NotAfter(p, q)
  }

  lemma FindsFirst(s: State, address: Address, f: AuthorizedFunction)
    requires LocalInv(s)
    ensures var r := FindAccount(s.accounts, address, f, !HasActive(s.accounts, address), 0);
            && (r.NotFound? <==> NoneOffers(s.accounts, address, f))
            && (r.Found? ==> FirstOffer(s.accounts, address, f, r.index, r.path))
  {
    hide LocalInv, HasActive, NoneWaiting, FindAccount, AccountOffers;
    VectorsOk(s);
    WaitingIsActive(s, address);
    FindAccountExactly(s.accounts, s.callStack, address, f, 0);
  }

  /** An enforcing request is refused exactly if the address is not the direct invoker's, no
      invoker tracker answers, and no account tracker of the address offers a node; and
      otherwise, if no invoker answers, the first account tracker that offers one uses the
      first it offers. */
  lemma EnforcingDecidesExactly(env: Env, s: State, address: Address, handle: nat, callArgs: seq<Val>, freshNonce: int, f: AuthorizedFunction)
    requires ReachableEnforcing(env, s) && !s.failing && s.callStack != [] && IsCall(f, s.callStack[|s.callStack| - 1], callArgs)
    ensures var r := Step(env, s, RequireAuth(address, handle, callArgs, freshNonce));
            && ((r.Next? && r.state.failing) <==>
                  !DirectlyInvoked(s, address) && !InvokerAnswers(s, address, f) && NoneOffers(s.accounts, address, f))
            && (r.Next? && r.state.log != s.log ==>
                  && |r.state.log| == |s.log| + 1 && s.log <= r.state.log
                  && FirstOffer(s.accounts, address, f, r.state.log[|s.log|].account, r.state.log[|s.log|].path))
  {
    ReachableInv(env, s);
    EnforcingThroughout(env, s);
    LocalInvOf(s);
    RequestStep(env, s, address, handle, callArgs, freshNonce);
    CallIs(s.callStack[|s.callStack| - 1], callArgs, f);
    hide Inv, Step, ReachableEnforcing;
    EnforcingDecides(env, s, address, handle, callArgs, freshNonce);
  }

  lemma EnforcingDecides(env: Env, s: State, address: Address, handle: nat, callArgs: seq<Val>, freshNonce: int)
    requires LocalInv(s) && s.mode.Enforcing? && !s.failing && s.callStack != []
    ensures var f := ToAuthorizedFunction(s.callStack[|s.callStack| - 1], callArgs);
            var r := RequireStep(env, s, address, handle, callArgs, freshNonce);
            && ((r.Next? && r.state.failing) <==>
                  !DirectlyInvoked(s, address) && !InvokerAnswers(s, address, f) && NoneOffers(s.accounts, address, f))
            && (r.Next? && r.state.log != s.log ==>
                  && |r.state.log| == |s.log| + 1 && s.log <= r.state.log
                  && FirstOffer(s.accounts, address, f, r.state.log[|s.log|].account, r.state.log[|s.log|].path))
  {
    hide LocalInv, InvokersOk, HasActive, NoneOffers, FirstOffer, InvokerOffers, NotAfter, Offers;
    hide FindInvoker, FindAccount, ToAuthorizedFunction, RequireRecording, TryMatch;
    var f := ToAuthorizedFunction(s.callStack[|s.callStack| - 1], callArgs);
    VectorsOk(s);
    CallOf(s.callStack[|s.callStack| - 1], callArgs);
    FindInvokerExactly(s.invokers, s.callStack, address, f, 0);
    NoAccountFault(s, address, f, !HasActive(s.accounts, address));
    FindsFirst(s, address, f);
  }
}
