/** What recording does in any reachable state, whatever handles are passed and whatever is
    rolled back: when a request is refused, and what is recorded otherwise. */
module AuthRecordingRuns {
  import opened Wrappers
  import opened AuthTypes
  import opened AuthTree
  import opened InvocationTracking
  import opened AuthMachine
  import opened AuthInvariant
  import opened AuthPreservation
  import opened AuthRecording
  import opened AuthSteps
  import opened AuthTheorems
  import opened AuthDecisions

  /** Every tracker is verified, with every node used, and in no authentication, and every
      handle leads to one. */
  lemma RecordingState(env: Env, s: State)
    requires ReachableRecording(env, s)
    ensures s.mode.Recording?
    ensures forall i :: 0 <= i < |s.accounts| ==>
              AllExhausted(s.accounts[i].tracker.root) && s.accounts[i].verified && !s.accounts[i].borrowed
    ensures forall h :: h in s.mode.handles ==> s.mode.handles[h] < |s.accounts|
  {
    ReachableInv(env, s);
    RecordingThroughout(env, s);
    assert forall i :: 0 <= i < |s.accounts| ==> RecordedOnly(s.accounts[i]);
  }

  /** The handle leads to an active tracker. */
  predicate LeadsToActive(s: State, handle: nat)
    requires s.mode.Recording? && forall h :: h in s.mode.handles ==> s.mode.handles[h] < |s.accounts|
  {
    handle in s.mode.handles && IsActive(s.accounts[s.mode.handles[handle]].tracker)
  }

  /** A recording request is refused exactly if no invoker answers it and either the tracker its
      handle leads to is active and has already matched the frame, or no tracker of the address
      can take it and a new one may not be made: outside the root frame if that is disabled, or
      with a nonce already taken. */
  lemma RefusedExactly(env: Env, s: State, address: Address, handle: nat, callArgs: seq<Val>, freshNonce: int, f: AuthorizedFunction)
    requires ReachableRecording(env, s) && !s.failing && s.callStack != [] && IsCall(f, s.callStack[|s.callStack| - 1], callArgs)
    ensures s.mode.Recording? && forall h :: h in s.mode.handles ==> s.mode.handles[h] < |s.accounts|
    ensures var r := Step(env, s, RequireAuth(address, handle, callArgs, freshNonce));
            (r.Next? && r.state.failing) <==>
              && !DirectlyInvoked(s, address) && !InvokerAnswers(s, address, f)
              && if LeadsToActive(s, handle) then CurrentFrameMatched(s.accounts[s.mode.handles[handle]].tracker)
                 else
                   && NoneWaiting(s.accounts, address)
                   && ((s.mode.disableNonRootAuth && |s.callStack| != 1)
                       || (env.source != Some(address) && (address, freshNonce) in s.nonces))
  {
    hide Inv, LocalInv, Step, ReachableRecording, RequireRecording, HasActive, NoneWaiting, InvokersOk, AccountsOk, FindInvoker, InvokerOffers, ToAuthorizedFunction;
    RecordingState(env, s);
    ReachableInv(env, s);
    LocalInvOf(s);
    VectorsOk(s);
    RequestStep(env, s, address, handle, callArgs, freshNonce);
    CallIs(s.callStack[|s.callStack| - 1], callArgs, f);
    FindInvokerExactly(s.invokers, s.callStack, address, f, 0);
    WaitingIsActive(s, address);
    RefusedLocally(env, s, address, handle, f, freshNonce);
  }

  lemma RefusedLocally(env: Env, s: State, address: Address, handle: nat, f: AuthorizedFunction, freshNonce: int)
    requires LocalInv(s) && s.mode.Recording? && !s.failing
    requires s.callStack != [] && FrameOf(f) == s.callStack[|s.callStack| - 1]
    requires forall h :: h in s.mode.handles ==> s.mode.handles[h] < |s.accounts|
    ensures var r := RequireRecording(env, s, address, handle, f, freshNonce);
            r.Next? && (r.state.failing <==>
              if LeadsToActive(s, handle) then CurrentFrameMatched(s.accounts[s.mode.handles[handle]].tracker)
              else
                && !HasActive(s.accounts, address)
                && ((s.mode.disableNonRootAuth && |s.callStack| != 1)
                    || (env.source != Some(address) && (address, freshNonce) in s.nonces)))
  {
    hide LocalInv, RequireRecording, HasActive, FindRecorder, LastInvocation, IsActive;
    RecordingStep(env, s, address, handle, f, freshNonce);
    RecordingLocal(env, s, address, handle, f, freshNonce);
  }

  // ---------- what is recorded ----------

  /** When a request is recorded, either the active tracker its handle leads to, or else the first
      one of the address that waits, gets one new node, for the requested function, below the node
      matched last; or, if there is none, a new tracker gets it as its root. The handle leads to
      the new tracker from then on, and nowhere if another tracker stood in for its own. */
  lemma RecordedInContext(env: Env, s: State, address: Address, handle: nat, callArgs: seq<Val>, freshNonce: int)
    requires ReachableRecording(env, s)
    requires Step(env, s, RequireAuth(address, handle, callArgs, freshNonce)).Next?
    ensures s.mode.Recording? && forall h :: h in s.mode.handles ==> s.mode.handles[h] < |s.accounts|
    ensures var s' := Step(env, s, RequireAuth(address, handle, callArgs, freshNonce)).state;
            s'.log != s.log ==>
              && s.callStack != [] && |s'.log| == |s.log| + 1 && s.log <= s'.log
              && var f := ToAuthorizedFunction(s.callStack[|s.callStack| - 1], callArgs);
                 var Match(i, p) := s'.log[|s.log|];
                 && IsCall(f, s.callStack[|s.callStack| - 1], callArgs)
                 && RecordedAs(env, s, s', address, handle, f, freshNonce, i, p)
  {
    hide RecordedAs, Inv, LocalInv, Step, ReachableRecording, RequireRecording, CheckInvoker, RecordsBelow, StartsTree, ToAuthorizedFunction;
    RecordingState(env, s);
    ReachableInv(env, s);
    LocalInvOf(s);
    RequestStep(env, s, address, handle, callArgs, freshNonce);
    if s.callStack != [] {
      CallOf(s.callStack[|s.callStack| - 1], callArgs);
      var f := ToAuthorizedFunction(s.callStack[|s.callStack| - 1], callArgs);
      if RequireRecording(env, s, address, handle, f, freshNonce).Next? {
        RecordedLocally(env, s, address, handle, f, freshNonce);
      }
    }
  }

  /** The active tracker the handle leads to, or else the first one that waits. */
  predicate TrackerFor(s: State, i: nat, address: Address, handle: nat)
    requires s.mode.Recording? && i < |s.accounts| && forall h :: h in s.mode.handles ==> s.mode.handles[h] < |s.accounts|
  {
    if LeadsToActive(s, handle) then s.mode.handles[handle] == i
    else Waits(s.accounts[i], address) && forall k :: 0 <= k < i ==> !Waits(s.accounts[k], address)
  }

  function HandlesAfter(s: State, i: nat, handle: nat): map<nat, nat>
    requires s.mode.Recording? && forall h :: h in s.mode.handles ==> s.mode.handles[h] < |s.accounts|
  {
    if LeadsToActive(s, handle) then s.mode.handles
    else if i < |s.accounts| then s.mode.handles - {handle}
    else s.mode.handles[handle := i]
  }

  predicate RecordsBelow(s: State, s': State, i: nat, p: Path, f: AuthorizedFunction)
    requires i < |s.accounts|
  {
    && |s'.accounts| == |s.accounts| && s'.accounts == s.accounts[i := s.accounts[i].(tracker := s'.accounts[i].tracker)]
    && s'.nonces == s.nonces
    && var t, t' := s.accounts[i].tracker, s'.accounts[i].tracker;
       && p != [] && ValidPath(t.root, p[..|p| - 1]) && t'.root == Append(t.root, p[..|p| - 1], f)
       && p[|p| - 1] == |NodeAt(t.root, p[..|p| - 1]).subs|
       && LastInvocation(t, 0) == At(p[..|p| - 1]) && LastInvocation(t', 0) == At(p)
  }

  ghost predicate StartsTree(env: Env, s: State, s': State, address: Address, f: AuthorizedFunction, freshNonce: int) {
    var n := |s.accounts|;
    && NoneWaiting(s.accounts, address)
    && |s'.accounts| == n + 1 && s'.accounts[..n] == s.accounts
    && var a := s'.accounts[n];
       && a.address == address && a.tracker.root == Invocation(f, [], true) && a.verified && !a.borrowed
       && (a.isSource <==> env.source == Some(address))
       && (!a.isSource ==> a.nonce == Some(Nonce(freshNonce, 0)) && (address, freshNonce) in s'.nonces - s.nonces)
  }

  ghost predicate RecordedAs(env: Env, s: State, s': State, address: Address, handle: nat, f: AuthorizedFunction, freshNonce: int, i: nat, p: Path)
    requires s.mode.Recording? && forall h :: h in s.mode.handles ==> s.mode.handles[h] < |s.accounts|
  {
    && s'.mode == s.mode.(handles := HandlesAfter(s, i, handle))
    && if i < |s.accounts| then RecordsBelow(s, s', i, p, f) && TrackerFor(s, i, address, handle)
       else i == |s.accounts| && p == [] && StartsTree(env, s, s', address, f, freshNonce)
  }

  /** The log is as before, or has one match more, recorded as it should be. */
  ghost predicate RecordedOnce(env: Env, s: State, s': State, address: Address, handle: nat, f: AuthorizedFunction, freshNonce: int)
    requires s.mode.Recording? && forall h :: h in s.mode.handles ==> s.mode.handles[h] < |s.accounts|
  {
    s'.log != s.log ==>
      && |s'.log| == |s.log| + 1 && s.log <= s'.log
      && RecordedAs(env, s, s', address, handle, f, freshNonce, s'.log[|s.log|].account, s'.log[|s.log|].path)
  }

  lemma RecordedLocally(env: Env, s: State, address: Address, handle: nat, f: AuthorizedFunction, freshNonce: int)
    requires LocalInv(s) && s.mode.Recording?
    requires s.callStack != [] && FrameOf(f) == s.callStack[|s.callStack| - 1]
    requires RequireRecording(env, s, address, handle, f, freshNonce).Next?
    requires forall h :: h in s.mode.handles ==> s.mode.handles[h] < |s.accounts|
    ensures RecordedOnce(env, s, RequireRecording(env, s, address, handle, f, freshNonce).state, address, handle, f, freshNonce)
  {
    var s1 := s.(mode := s.mode.(handles := s.mode.handles - {handle}));
    var r := RequireRecording(env, s, address, handle, f, freshNonce);
    RecordingStep(env, s, address, handle, f, freshNonce);
    WaitingIsActive(s, address);
    hide RequireRecording, RecordWith, StartRecording, RecordedOnce, NoneWaiting, Waits, ActiveElsewhere, HasActive, LocalInv, IsActive;
    if LeadsToActive(s, handle) {
      RecordedBy(env, s, s, s.mode.handles[handle], address, handle, f, freshNonce);
    } else if HasActive(s.accounts, address) {
      var i: nat :| i < |s.accounts| && ActiveElsewhere(s.accounts[i], address) && r == RecordWith(s1, i, f)
        && forall k :: 0 <= k < i ==> !ActiveElsewhere(s.accounts[k], address);
      ElsewhereIsActive(s, i, address);
      RecordedBy(env, s, s1, i, address, handle, f, freshNonce);
    } else {
      RecordedAnew(env, s, s1, address, handle, f, freshNonce);
    }
  }

  lemma RecordedBy(env: Env, s: State, s1: State, i: nat, address: Address, handle: nat, f: AuthorizedFunction, freshNonce: int)
    requires LocalInv(s) && s.mode.Recording? && i < |s.accounts| && IsActive(s.accounts[i].tracker)
    requires s.callStack != [] && FrameOf(f) == s.callStack[|s.callStack| - 1]
    requires forall h :: h in s.mode.handles ==> s.mode.handles[h] < |s.accounts|
    requires s1 == s.(mode := s.mode.(handles := HandlesAfter(s, i, handle))) && TrackerFor(s, i, address, handle)
    ensures RecordWith(s1, i, f).Next? && RecordedOnce(env, s, RecordWith(s1, i, f).state, address, handle, f, freshNonce)
  {
    hide RecordWith, RecordsBelow, StartsTree, TrackerFor, HandlesAfter, LocalInv, IsActive;
    RecordWithBelow(s, s1, i, f);
  }

  lemma RecordedAnew(env: Env, s: State, s1: State, address: Address, handle: nat, f: AuthorizedFunction, freshNonce: int)
    requires s.mode.Recording? && s.callStack != [] && NoneWaiting(s.accounts, address)
    requires forall h :: h in s.mode.handles ==> s.mode.handles[h] < |s.accounts|
    requires s1 == s.(mode := s.mode.(handles := s.mode.handles - {handle})) && !LeadsToActive(s, handle)
    ensures var r := StartRecording(env, s1, address, handle, f, freshNonce);
            r.Next? && RecordedOnce(env, s, r.state, address, handle, f, freshNonce)
  {
    hide StartRecording, RecordsBelow, StartsTree, NoneWaiting, TrackerFor, IsActive;
    StartsNew(env, s, s1, address, handle, f, freshNonce);
    var n := |s.accounts|;
    assert (s.mode.handles - {handle})[handle := n] == s.mode.handles[handle := n];
  }

  lemma ElsewhereIsActive(s: State, i: nat, address: Address)
    requires i < |s.accounts| && ActiveElsewhere(s.accounts[i], address)
    ensures IsActive(s.accounts[i].tracker)
  {
  }

  lemma StartsNew(env: Env, s: State, s1: State, address: Address, handle: nat, f: AuthorizedFunction, freshNonce: int)
    requires s.mode.Recording? && s.callStack != [] && NoneWaiting(s.accounts, address)
    requires s1 == s.(mode := s1.mode) && s1.mode.Recording?
    ensures var r := StartRecording(env, s1, address, handle, f, freshNonce);
            r.Next? && (r.state.log == s.log
              || (&& r.state.log == s.log + [Match(|s.accounts|, [])] && StartsTree(env, s, r.state, address, f, freshNonce)
                  && r.state.mode == s1.mode.(handles := s1.mode.handles[handle := |s.accounts|])))
  {
    hide NoneWaiting;
  }

  lemma RecordWithBelow(s: State, s1: State, i: nat, f: AuthorizedFunction)
    requires LocalInv(s) && s.mode.Recording? && i < |s.accounts| && IsActive(s.accounts[i].tracker)
    requires s.callStack != [] && FrameOf(f) == s.callStack[|s.callStack| - 1]
    requires s1 == s.(mode := s1.mode)
    ensures var r := RecordWith(s1, i, f);
            r.Next? && (r.state.log == s.log
              || (|r.state.log| == |s.log| + 1 && s.log <= r.state.log && r.state.log[|s.log|].account == i && r.state.mode == s1.mode
                  && RecordsBelow(s, r.state, i, r.state.log[|s.log|].path, f)))
  {
    hide RecordInvocation, LastInvocation, TrackerOk, AllExhausted, LocalInv, IsActive, UsesOneMore, ValidPath, NodeAt, Append;
    var t := s.accounts[i].tracker;
    RecorderTracker(s, i);
    RecordOk(t, f, s.callStack);
    if RecordInvocation(t, f).Recorded? {
      RecordEndsAt(t, f, s.callStack);
    }
  }

  lemma RecorderTracker(s: State, i: nat)
    requires LocalInv(s) && s.mode.Recording? && i < |s.accounts|
    ensures TrackerOk(s.accounts[i].tracker, s.callStack) && AllExhausted(s.accounts[i].tracker.root)
  {
    assert RecordedOnly(s.accounts[i]) && AccountOk(s.accounts[i], s.callStack);
  }

  lemma RootFrameInside(t: Tracker, frames: seq<AuthStackFrame>)
    requires TrackerOk(t, frames) && IsActive(t) && !CurrentFrameMatched(t)
    ensures t.rootFrame.Some? && t.rootFrame.value + 1 < |t.stack| == |frames| && t.stack[|t.stack| - 1] == Unmatched
  {
  }

  lemma RecordEndsAt(t: Tracker, f: AuthorizedFunction, frames: seq<AuthStackFrame>)
    requires TrackerOk(t, frames) && AllExhausted(t.root) && IsActive(t)
    requires frames != [] && FrameOf(f) == frames[|frames| - 1] && RecordInvocation(t, f).Recorded?
    ensures var r := RecordInvocation(t, f);
            var q := r.path[..|r.path| - 1];
            && r.path != [] && LastInvocation(t, 0) == At(q) && LastInvocation(r.tracker, 0) == At(r.path)
            && ValidPath(t.root, q) && r.path[|r.path| - 1] == |NodeAt(t.root, q).subs|
            && r.tracker.root == Append(t.root, q, f)
  {
    hide TrackerOk, AllExhausted, UsesOneMore, Append, Flag, ValidPath, NodeAt;
    var r := RecordInvocation(t, f);
    var q := LastInvocation(t, 0).path;
    RecordOk(t, f, frames);
    LastIsFold(t, frames);
    LastIsFold(r.tracker, frames);
    RootFrameInside(t, frames);
    hide LastInvocation;
    var j := |NodeAt(t.root, q).subs|;
    assert r.path == q + [j] && r.path[..|r.path| - 1] == q;
    FoldExtend(t.stack, t.rootFrame.value + 1, j);
    assert r.tracker.stack == t.stack[|t.stack| - 1 := SubMatch(j)];
  }

  // ---------- handles ----------

  /** `g` tells which address each handle stands for. */
  ghost predicate HandlesNameAddresses(g: nat -> Address, events: seq<Event>) {
    forall k :: 0 <= k < |events| && events[k].RequireAuth? ==> events[k].address == g(events[k].handle)
  }

  /** Handles lead to trackers of their address, in the state and in every state an open scope
      may be rolled back to. */
  ghost predicate HandlesLead(g: nat -> Address, s: State)
    decreases s
  {
    && s.mode.Recording?
    && (forall h :: h in s.mode.handles ==> s.mode.handles[h] < |s.accounts| && s.accounts[s.mode.handles[h]].address == g(h))
    && (s.ctl.Scope? ==> HandlesLead(g, s.ctl.before))
  }

  lemma RecordWithHandlesLead(g: nat -> Address, s: State, i: nat, f: AuthorizedFunction)
    requires HandlesLead(g, s) && i < |s.accounts|
    ensures RecordWith(s, i, f).Next? ==> HandlesLead(g, RecordWith(s, i, f).state)
  {
    hide RecordInvocation;
  }

  lemma StartHandlesLead(env: Env, g: nat -> Address, s: State, handle: nat, f: AuthorizedFunction, freshNonce: int)
    requires HandlesLead(g, s) && s.callStack != []
    ensures StartRecording(env, s, g(handle), handle, f, freshNonce).Next? ==>
              HandlesLead(g, StartRecording(env, s, g(handle), handle, f, freshNonce).state)
  {
  }

  lemma RequestHandlesLead(env: Env, g: nat -> Address, s: State, handle: nat, f: AuthorizedFunction, freshNonce: int)
    requires HandlesLead(g, s) && s.callStack != []
    ensures RequireRecording(env, s, g(handle), handle, f, freshNonce).Next? ==>
              HandlesLead(g, RequireRecording(env, s, g(handle), handle, f, freshNonce).state)
  {
    hide RecordWith, StartRecording, HasMatchInStack;
    var s1 := s.(mode := s.mode.(handles := s.mode.handles - {handle}));
    assert HandlesLead(g, s1);
    hide HandlesLead;
    if handle in s.mode.handles && s.mode.handles[handle] < |s.accounts| {
      RecordWithHandlesLead(g, s, s.mode.handles[handle], f);
    }
    var found := FindRecorder(s.accounts, g(handle), 0);
    if found.Recorder? { RecordWithHandlesLead(g, s1, found.index, f); }
    StartHandlesLead(env, g, s1, handle, f, freshNonce);
  }

  lemma RollbackHandlesLead(g: nat -> Address, s: State)
    requires Inv(s) && HandlesLead(g, s) && s.ctl.Scope? && s.ctl.snapshot.Some?
    ensures Rollback(s, s.ctl.snapshot.value).Some? ==>
              HandlesLead(g, AfterRollback(s, Rollback(s, s.ctl.snapshot.value).value))
  {
    hide Inv, Rollback, AfterRollback;
    RollbackResult(s);
  }

  lemma StepHandlesLead(env: Env, g: nat -> Address, s: State, e: Event)
    requires Inv(s) && HandlesLead(g, s) && Step(env, s, e).Next?
    requires e.RequireAuth? ==> e.address == g(e.handle)
    ensures HandlesLead(g, Step(env, s, e).state)
  {
    hide Inv, Rollback, AfterRollback, RequireRecording, CheckInvoker;
    match e
    case PopRollback => RollbackHandlesLead(g, s);
    case RequireAuth(_, handle, callArgs, freshNonce) =>
      RequestHandlesLead(env, g, s, handle, ToAuthorizedFunction(s.callStack[|s.callStack| - 1], callArgs), freshNonce);
    case _ =>
  }

  lemma {:induction false} RunHandlesLead(env: Env, g: nat -> Address, s: State, events: seq<Event>)
    requires Inv(s) && HandlesLead(g, s) && Run(env, s, events).Next? && HandlesNameAddresses(g, events)
    ensures HandlesLead(g, Run(env, s, events).state)
    decreases |events|
  {
    if events != [] {
      hide Inv, HandlesLead, Step;
      StepInv(env, s, events[0]);
      StepHandlesLead(env, g, s, events[0]);
      RunHandlesLead(env, g, Step(env, s, events[0]).state, events[1..]);
    }
  }

  /** If every handle stands for one address throughout a run, with any rollbacks, each known
      handle leads to a tracker of its address: trackers and handles are rolled back together. */
  lemma HandlesLeadToTheirAddress(env: Env, g: nat -> Address, disableNonRootAuth: bool, nonces: set<(Address, int)>, events: seq<Event>, s: State)
    requires Run(env, NewRecording(disableNonRootAuth, nonces), events) == Next(s) && HandlesNameAddresses(g, events)
    ensures HandlesLead(g, s)
  {
    InitRecordingInv(disableNonRootAuth, nonces);
    RunHandlesLead(env, g, NewRecording(disableNonRootAuth, nonces), events);
  }
}
