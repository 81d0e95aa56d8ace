/** Record, then enforce: every step of the replay is accepted, by the same tracker at the
    same node, and in the end every recorded node has been used. */
module AuthRecordTheorem {
  import opened Wrappers
  import opened AuthTypes
  import opened AuthTree
  import opened InvocationTracking
  import opened AuthMachine
  import opened AuthRecording
  import opened AuthReplay
  import opened AuthRecordEnforce

  predicate LedgerAdmits(env: Env, exp: nat) {
    env.ledgerSeq <= exp <= env.maxLiveUntil
  }

  // ---------- the first request of a tree ----------

  lemma FreshMatches(final: Account, exp: nat, depth: nat, f: AuthorizedFunction)
    requires depth > 0 && final.tracker.root.function_ == f
    ensures TryMatch(Fresh(final, exp, depth).tracker, f, true) == Matched(MatchRoot(Fresh(final, exp, depth).tracker), [])
  {
    var t := Fresh(final, exp, depth).tracker;
    SkipUnmatched(t, 0, |t.stack|);
  }

  lemma StartedIsReplayed(env: Env, address: Address, f: AuthorizedFunction, depth: nat, freshNonce: int, final: Account, exp: nat)
    requires depth > 0 && AccountGrows(NewRecordingAccount(env, address, f, depth, freshNonce), final)
    ensures final.tracker.root.function_ == f && final.address == address
    ensures Replayed(NewRecordingAccount(env, address, f, depth, freshNonce), final, exp) ==
            Fresh(final, exp, depth).(tracker := MatchRoot(Fresh(final, exp, depth).tracker), verified := true)
  {
    var a := NewRecordingAccount(env, address, f, depth, freshNonce);
    var t := MatchRoot(Fresh(final, exp, depth).tracker);
    var x := Replayed(a, final, exp);
    assert x.tracker.root.subs == t.root.subs;
    assert x.tracker.stack == t.stack;
  }

  lemma NewRecorderOk(env: Env, address: Address, f: AuthorizedFunction, callStack: seq<AuthStackFrame>, freshNonce: int)
    requires callStack != [] && FrameOf(f) == callStack[|callStack| - 1]
    ensures RecorderOk(NewRecordingAccount(env, address, f, |callStack|, freshNonce), callStack)
  {
    NewRecordedOk(env, address, f, callStack, freshNonce);
  }

  lemma StartHandlesOk(h: Address -> nat, accounts: seq<Account>, handles: map<nat, nat>, a: Account)
    requires HandlesOk(h, accounts, handles)
    requires forall x, y :: h(x) == h(y) ==> x == y
    requires forall i :: 0 <= i < |accounts| && accounts[i].address == a.address ==> !IsActive(accounts[i].tracker)
    ensures HandlesOk(h, accounts + [a], (handles - {h(a.address)})[h(a.address) := |accounts|])
  {
    hide IsActive;
  }

  lemma Started(env: Env, r: State, address: Address, handle: nat, f: AuthorizedFunction, freshNonce: int)
    requires r.mode.Recording? && r.callStack != [] && !StartRecording(env, r, address, handle, f, freshNonce).state.failing
    ensures var a := NewRecordingAccount(env, address, f, |r.callStack|, freshNonce);
            var r' := StartRecording(env, r, address, handle, f, freshNonce).state;
            && a.address == address && (a.isSource <==> env.source == Some(address))
            && r'.accounts == r.accounts + [a] && r'.log == r.log + [Match(|r.accounts|, [])]
            && r'.invokers == r.invokers && r'.callStack == r.callStack && r'.ctl == r.ctl
            && (!a.isSource ==> (address, freshNonce) !in r.nonces)
            && r'.nonces == if a.isSource then r.nonces else r.nonces + {(address, freshNonce)}
  {
  }

  lemma StartRecordInv(env: Env, h: Address -> nat, r: State, address: Address, f: AuthorizedFunction, freshNonce: int)
    requires RecordInv(env, h, r) && r.callStack != []
    requires forall a, b :: h(a) == h(b) ==> a == b
    requires FrameOf(f) == r.callStack[|r.callStack| - 1]
    requires forall i :: 0 <= i < |r.accounts| && r.accounts[i].address == address ==> !IsActive(r.accounts[i].tracker)
    ensures var r1 := r.(mode := r.mode.(handles := r.mode.handles - {h(address)}));
            var x := StartRecording(env, r1, address, h(address), f, freshNonce);
            x.Next? && (!x.state.failing ==> RecordInv(env, h, x.state))
  {
    hide IsActive, HandlesOk, FrameScopes, RecorderOk, NewRecordingAccount;
    var r1 := r.(mode := r.mode.(handles := r.mode.handles - {h(address)}));
    var x := StartRecording(env, r1, address, h(address), f, freshNonce);
    if !x.state.failing {
      var a := NewRecordingAccount(env, address, f, |r.callStack|, freshNonce);
      Started(env, r1, address, h(address), f, freshNonce);
      NewRecorderOk(env, address, f, r.callStack, freshNonce);
      StartHandlesOk(h, r.accounts, r.mode.handles, a);
    }
  }

  lemma NoneActive(env: Env, h: Address -> nat, r: State, e: State, final: seq<Account>, exp: nat, address: Address)
    requires RecordInv(env, h, r) && Sim(r, e, final, exp)
    requires forall i :: 0 <= i < |r.accounts| && r.accounts[i].address == address ==> !IsActive(r.accounts[i].tracker)
    ensures !HasActive(e.accounts, address)
  {
    forall i | 0 <= i < |e.accounts| ensures !ActiveElsewhere(e.accounts[i], address) {
      if i < |r.accounts| {
        assert RecorderOk(r.accounts[i], r.callStack);
      }
    }
  }

  lemma StartAccounts(env: Env, r: State, e: State, final: seq<Account>, exp: nat, address: Address, f: AuthorizedFunction, freshNonce: int)
    requires Sim(r, e, final, exp) && r.callStack != []
    requires var a := NewRecordingAccount(env, address, f, |r.callStack|, freshNonce);
             AccountsGrow(r.accounts + [a], final)
    ensures var a := NewRecordingAccount(env, address, f, |r.callStack|, freshNonce);
            var m := |r.accounts|;
            && m < |e.accounts|
            && AccountGrows(a, final[m])
            && e.accounts[m] == Fresh(final[m], exp, |r.callStack|)
            && e.accounts[m := Replayed(a, final[m], exp)] == Counterparts(r.accounts + [a], final, exp, |r.callStack|)
  {
    var a := NewRecordingAccount(env, address, f, |r.callStack|, freshNonce);
    assert AccountGrows((r.accounts + [a])[|r.accounts|], final[|r.accounts|]);
  }

  /** Tracker `m` has matched its root, and is being authenticated. */
  function InAuthentication(e: State, m: nat): State
    requires m < |e.accounts| && e.accounts[m].tracker.stack != []
  {
    var a := e.accounts[m];
    e.(accounts := e.accounts[m := a.(tracker := MatchRoot(a.tracker), borrowed := true)],
       log := e.log + [Match(m, [])],
       ctl := Scope(Authentication(m), None, e))
  }

  /** The counterpart of a tracker yet to be recorded answers with its root, and has to be
      authenticated. */
  lemma FreshAnswers(env: Env, h: Address -> nat, r: State, e: State, final: seq<Account>, exp: nat, address: Address, f: AuthorizedFunction)
    requires RecordInv(env, h, r) && Sim(r, e, final, exp) && r.callStack != []
    requires forall i :: 0 <= i < |r.accounts| && r.accounts[i].address == address ==> !IsActive(r.accounts[i].tracker)
    requires |r.accounts| < |final| && final[|r.accounts|].address == address && final[|r.accounts|].tracker.root.function_ == f
    ensures |e.accounts| == |final| && e.accounts[|r.accounts|].tracker.stack != []
    ensures RequireEnforcing(e, address, f) == Next(InAuthentication(e, |r.accounts|))
  {
    var m, depth := |r.accounts|, |r.callStack|;
    NoneActive(env, h, r, e, final, exp, address);
    forall k | 0 <= k < m && e.accounts[k].address == address
      ensures TryMatch(e.accounts[k].tracker, f, true) == NoMatch
    {
      SilentCounterparts(h, r, e, final, exp, env, f, true, k);
    }
    FreshMatches(final[m], exp, depth, f);
    hide RecordInv, TryMatch, HasActive, FindAccount, AccountsGrow;
    SkipToAccount(e.accounts, address, f, true, 0, m);
  }

  lemma AuthenticationSucceeds(env: Env, e: State, m: nat, exp: nat)
    requires !e.failing && LedgerAdmits(env, exp) && m < |e.accounts| && e.accounts[m].tracker.stack != []
    requires var a := e.accounts[m]; !a.isSource ==> a.nonce.Some? && a.nonce.value.liveUntil == exp && (a.address, a.nonce.value.value) !in e.nonces
    ensures var a := e.accounts[m];
            Step(env, InAuthentication(e, m), AuthDone(true, true)) ==
            Next(e.(accounts := e.accounts[m := a.(tracker := MatchRoot(a.tracker), borrowed := false, verified := true)],
                    log := e.log + [Match(m, [])],
                    nonces := if a.isSource then e.nonces else e.nonces + {(a.address, a.nonce.value.value)}))
  {
    var x := InAuthentication(e, m);
    assert x.accounts[m := e.accounts[m]] == e.accounts;
  }

  lemma ReplayStart(env: Env, h: Address -> nat, r: State, e: State, final: seq<Account>, exp: nat, address: Address, f: AuthorizedFunction, freshNonce: int)
    requires RecordInv(env, h, r) && Sim(r, e, final, exp) && LedgerAdmits(env, exp)
    requires r.callStack != []
    requires forall i :: 0 <= i < |r.accounts| && r.accounts[i].address == address ==> !IsActive(r.accounts[i].tracker)
    requires var r1 := r.(mode := r.mode.(handles := r.mode.handles - {h(address)}));
             var x := StartRecording(env, r1, address, h(address), f, freshNonce);
             x.Next? && !x.state.failing && AccountsGrow(x.state.accounts, final)
    ensures var r1 := r.(mode := r.mode.(handles := r.mode.handles - {h(address)}));
            var r' := StartRecording(env, r1, address, h(address), f, freshNonce).state;
            var x := RequireEnforcing(e, address, f);
            && x.Next? && x.state.ctl.Scope? && x.state.ctl.kind.Authentication?
            && Step(env, x.state, AuthDone(true, true)).Next?
            && Sim(r', Step(env, x.state, AuthDone(true, true)).state, final, exp)
  {
    assert r.mode.Recording?;
    hide RecordInv, RequireEnforcing, HasActive, Step, StartRecording, AccountsGrow;
    var r1 := r.(mode := r.mode.(handles := r.mode.handles - {h(address)}));
    var r' := StartRecording(env, r1, address, h(address), f, freshNonce).state;
    var m := |r.accounts|;
    var a := NewRecordingAccount(env, address, f, |r.callStack|, freshNonce);
    Started(env, r1, address, h(address), f, freshNonce);
    StartAccounts(env, r, e, final, exp, address, f, freshNonce);
    StartedIsReplayed(env, address, f, |r.callStack|, freshNonce, final[m], exp);
    FreshAnswers(env, h, r, e, final, exp, address, f);
    AuthenticationSucceeds(env, e, m, exp);
  }

  // ---------- every step ----------

  lemma RequireSim(env: Env, h: Address -> nat, r: State, e: State, ev: Event, final: seq<Account>, exp: nat)
    requires RecordInv(env, h, r) && Sim(r, e, final, exp) && LedgerAdmits(env, exp)
    requires forall a, b :: h(a) == h(b) ==> a == b
    requires ev.RequireAuth? && ev.handle == h(ev.address)
    requires Step(env, r, ev).Next? && !Step(env, r, ev).state.failing
    requires AccountsGrow(Step(env, r, ev).state.accounts, final)
    requires NoAuthentication(e.ctl)
    ensures RecordInv(env, h, Step(env, r, ev).state)
    ensures ReplayStep(env, e, ev).Next? && Sim(Step(env, r, ev).state, ReplayStep(env, e, ev).state, final, exp)
  {
    var f := ToAuthorizedFunction(r.callStack[|r.callStack| - 1], ev.callArgs);
    match CheckInvoker(r.callStack, r.invokers, ev.address, f)
    case Direct =>
    case ByTracker(i, t, p) =>
    case InvokerFault =>
    case NotAuthorized =>
      RecordingChoice(env, h, r, ev.address, f, ev.freshNonce);
      var handle := h(ev.address);
      if handle in r.mode.handles && IsActive(r.accounts[r.mode.handles[handle]].tracker) {
        ReplayRecordWith(env, h, r, e, final, exp, r.mode.handles[handle], ev.address, f);
      } else {
        StartRecordInv(env, h, r, ev.address, f, ev.freshNonce);
        ReplayStart(env, h, r, e, final, exp, ev.address, f, ev.freshNonce);
      }
  }

  predicate NoAuthentication(ctl: Ctl) {
    ctl.Scope? ==> !ctl.kind.Authentication?
  }

  lemma ScopesAreFrames(r: Ctl, e: Ctl, callStack: seq<AuthStackFrame>)
    requires FrameScopes(r, callStack) && SameScopes(r, e)
    ensures NoAuthentication(e)
  {
  }

  lemma OtherSim(env: Env, h: Address -> nat, r: State, e: State, ev: Event, final: seq<Account>, exp: nat)
    requires RecordInv(env, h, r) && Sim(r, e, final, exp)
    requires Recordable(ev) && !ev.RequireAuth?
    requires Step(env, r, ev).Next?
    requires AccountsGrow(Step(env, r, ev).state.accounts, final)
    ensures RecordInv(env, h, Step(env, r, ev).state)
    ensures ReplayStep(env, e, ev).Next? && Sim(Step(env, r, ev).state, ReplayStep(env, e, ev).state, final, exp)
  {
    hide Counterparts, TrackerOk;
    forall i | 0 <= i < |r.accounts| ensures !r.accounts[i].borrowed {
      assert RecorderOk(r.accounts[i], r.callStack);
    }
    var r' := Step(env, r, ev).state;
    match ev
    case PushHostFn =>
    case PushContract(contract, name) =>
      PushCounterparts(r.accounts, final, exp, |r.callStack|);
      PushRecordInv(env, h, r, Contract(contract, name), r'.ctl);
    case PushCreateContract(args) =>
      PushCounterparts(r.accounts, final, exp, |r.callStack|);
      PushRecordInv(env, h, r, CreateContractHostFn(args), r'.ctl);
    case Pop =>
      if r.callStack != [] { PopCounterparts(r.accounts, final, exp, |r.callStack|); }
      PopRecordInv(env, h, r);
    case AddInvokerAuth(entries) =>
  }

  lemma {:induction false} ReplayLoop(env: Env, h: Address -> nat, r: State, e: State, events: seq<Event>, final: State, exp: nat)
    requires RecordInv(env, h, r) && Sim(r, e, final.accounts, exp) && LedgerAdmits(env, exp)
    requires OneHandle(h, events)
    requires Run(env, r, events) == Next(final) && !final.failing
    ensures RecordInv(env, h, final)
    ensures Replay(env, e, events).Next? && Sim(final, Replay(env, e, events).state, final.accounts, exp)
    decreases |events|
  {
    if events != [] {
      var ev := events[0];
      var r' := Step(env, r, ev).state;
      forall i | 0 <= i < |r.accounts| ensures !r.accounts[i].borrowed {
        assert RecorderOk(r.accounts[i], r.callStack);
      }
      StepGrows(env, r, ev);
      RunGrows(env, h, r', events[1..]);
      ScopesAreFrames(r.ctl, e.ctl, r.callStack);
      if ev.RequireAuth? {
        RequireSim(env, h, r, e, ev, final.accounts, exp);
      } else {
        OtherSim(env, h, r, e, ev, final.accounts, exp);
      }
      ReplayLoop(env, h, r', ReplayStep(env, e, ev).state, events[1..], final, exp);
    }
  }

  // ---------- the theorem ----------

  lemma PayloadsAreFresh(env: Env, h: Address -> nat, final: State, exp: nat)
    requires RecordInv(env, h, final)
    ensures AccountsGrow([], final.accounts)
    ensures NewAccounts(env, Payloads(final.accounts, exp)) == Some(Counterparts([], final.accounts, exp, 0))
  {
    PayloadsFrom(env, h, final, exp, 0);
    assert Payloads(final.accounts, exp)[0..] == Payloads(final.accounts, exp);
    assert Counterparts([], final.accounts, exp, 0)[0..] == Counterparts([], final.accounts, exp, 0);
  }

  lemma {:induction false} PayloadsFrom(env: Env, h: Address -> nat, final: State, exp: nat, k: nat)
    requires RecordInv(env, h, final) && k <= |final.accounts|
    ensures AccountsGrow([], final.accounts)
    ensures NewAccounts(env, Payloads(final.accounts, exp)[k..]) == Some(Counterparts([], final.accounts, exp, 0)[k..])
    decreases |final.accounts| - k
  {
    if k < |final.accounts| {
      var a := final.accounts[k];
      assert RecorderOk(a, final.callStack);
      XdrRoundTrip(a.tracker.root);
      assert Fresh(a, exp, 0).tracker == NewTracker(Clear(a.tracker.root));
      assert NewAccount(env, PayloadEntry(a, exp)) == Some(Fresh(a, exp, 0));
      PayloadsFrom(env, h, final, exp, k + 1);
      assert Payloads(final.accounts, exp)[k..][1..] == Payloads(final.accounts, exp)[k + 1..];
      assert Counterparts([], final.accounts, exp, 0)[k..] == [Fresh(a, exp, 0)] + Counterparts([], final.accounts, exp, 0)[k + 1..];
    } else {
      assert Payloads(final.accounts, exp)[k..] == [] && Counterparts([], final.accounts, exp, 0)[k..] == [];
    }
  }

  /** Take any rollback-free run that recording accepts, with one handle per address. Submit
      the recorded payloads, in order, with an expiration the ledger admits, and replay the run
      in enforcing mode with every authentication successful. Every event is accepted; the log
      shows each request answered by the same tracker at the same node; and at the end the
      trackers, flags included, are the recorded ones, with every node used. */
  lemma RecordThenEnforce(env: Env, h: Address -> nat, disableNonRootAuth: bool, nonces: set<(Address, int)>, events: seq<Event>, final: State, exp: nat)
    requires OneHandle(h, events) && LedgerAdmits(env, exp)
    requires Run(env, NewRecording(disableNonRootAuth, nonces), events) == Next(final) && !final.failing
    ensures NewAccounts(env, Payloads(final.accounts, exp)).Some?
    ensures var start := NewEnforcing(NewAccounts(env, Payloads(final.accounts, exp)).value, nonces);
            var end := Replay(env, start, events);
            && end.Next? && !end.state.failing
            && end.state.log == final.log
            && end.state.nonces == final.nonces
            && |end.state.accounts| == |final.accounts|
            && forall i :: 0 <= i < |final.accounts| ==>
                 && end.state.accounts[i].tracker == final.accounts[i].tracker
                 && AllExhausted(end.state.accounts[i].tracker.root)
                 && end.state.accounts[i].verified
  {
    var r := NewRecording(disableNonRootAuth, nonces);
    assert RecordInv(env, h, r);
    RunGrows(env, h, r, events);
    assert AccountsGrow([], final.accounts);
    var e := NewEnforcing(Counterparts([], final.accounts, exp, 0), nonces);
    assert Sim(r, e, final.accounts, exp);
    ReplayLoop(env, h, r, e, events, final, exp);
    PayloadsAreFresh(env, h, final, exp);
    var end := Replay(env, e, events).state;
    forall i | 0 <= i < |final.accounts|
      ensures end.accounts[i].tracker == final.accounts[i].tracker && AllExhausted(end.accounts[i].tracker.root)
    {
      assert RecorderOk(final.accounts[i], final.callStack);
      MaskSelf(final.accounts[i].tracker.root);
    }
  }
}
