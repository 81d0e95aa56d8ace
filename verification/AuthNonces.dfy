/** Nonces over whole runs of either mode: no credentials are accepted or recorded whose nonce
    was consumed before the run, none are accepted whose expiration the ledger does not admit,
    and consumed nonces stay consumed. */
module AuthNonces {
  import opened Wrappers
  import opened AuthTypes
  import opened InvocationTracking
  import opened AuthMachine
  import opened AuthInvariant
  import opened AuthPreservation
  import opened AuthSteps

  /** Verified address credentials whose nonce was not among `used`; when enforcing, with an
      expiration that is neither past nor too far ahead. */
  predicate WellVerified(env: Env, enforcing: bool, used: set<(Address, int)>, a: Account) {
    HoldsNonce(a) ==>
      && a.nonce.Some? && (a.address, a.nonce.value.value) !in used
      && (enforcing ==> env.ledgerSeq <= a.nonce.value.liveUntil <= env.maxLiveUntil)
  }

  ghost predicate AllWellVerified(env: Env, enforcing: bool, used: set<(Address, int)>, accounts: seq<Account>) {
    forall i :: 0 <= i < |accounts| ==> WellVerified(env, enforcing, used, accounts[i])
  }

  /** In the state and in every state an open scope may be rolled back to. */
  ghost predicate NoReplay(env: Env, enforcing: bool, used: set<(Address, int)>, s: State)
    decreases s
  {
    && s.mode.Enforcing? == enforcing && used <= s.nonces && AllWellVerified(env, enforcing, used, s.accounts)
    && (s.ctl.Scope? ==> NoReplay(env, enforcing, used, s.ctl.before))
  }

  /** What bears on verification. */
  predicate SameCredentials(a: Account, b: Account) {
    b == a.(tracker := b.tracker, borrowed := b.borrowed)
  }

  lemma KeepsCredentials(env: Env, enforcing: bool, used: set<(Address, int)>, accounts: seq<Account>, accounts': seq<Account>)
    requires AllWellVerified(env, enforcing, used, accounts) && |accounts'| == |accounts|
    requires forall i :: 0 <= i < |accounts| ==> SameCredentials(accounts[i], accounts'[i])
    ensures AllWellVerified(env, enforcing, used, accounts')
  {
    forall i | 0 <= i < |accounts'| ensures WellVerified(env, enforcing, used, accounts'[i]) {
      assert WellVerified(env, enforcing, used, accounts[i]) && SameCredentials(accounts[i], accounts'[i]);
    }
  }

  lemma RequestNoReplay(env: Env, enforcing: bool, used: set<(Address, int)>, s: State, address: Address, handle: nat, callArgs: seq<Val>, freshNonce: int)
    requires NoReplay(env, enforcing, used, s)
    requires RequireStep(env, s, address, handle, callArgs, freshNonce).Next?
    ensures NoReplay(env, enforcing, used, RequireStep(env, s, address, handle, callArgs, freshNonce).state)
  {
    hide CheckInvoker, RequireRecording, RequireEnforcing, AllWellVerified, ToAuthorizedFunction;
    var s' := RequireStep(env, s, address, handle, callArgs, freshNonce).state;
    var f := ToAuthorizedFunction(s.callStack[|s.callStack| - 1], callArgs);
    EnforcingKeepsCredentials(s, address, f);
    if s.mode.Recording? { RecordingKeepsCredentials(env, s, address, handle, f, freshNonce); }
    GrowsCredentials(env, enforcing, used, s, s');
  }

  lemma GrowsCredentials(env: Env, enforcing: bool, used: set<(Address, int)>, s: State, s': State)
    requires AllWellVerified(env, enforcing, used, s.accounts) && used <= s.nonces && |s.accounts| <= |s'.accounts|
    requires forall i :: 0 <= i < |s.accounts| ==> SameCredentials(s.accounts[i], s'.accounts[i])
    requires forall i :: |s.accounts| <= i < |s'.accounts| ==> !enforcing && Recorded(s.nonces, s'.accounts[i])
    ensures AllWellVerified(env, enforcing, used, s'.accounts)
  {
    forall i | 0 <= i < |s'.accounts| ensures WellVerified(env, enforcing, used, s'.accounts[i]) {
      assert i < |s.accounts| ==> WellVerified(env, enforcing, used, s.accounts[i]) && SameCredentials(s.accounts[i], s'.accounts[i]);
    }
  }

  /** Credentials as recorded, with a nonce not consumed before. */
  predicate Recorded(nonces: set<(Address, int)>, a: Account) {
    HoldsNonce(a) ==> a.nonce.Some? && (a.address, a.nonce.value.value) !in nonces
  }

  ghost predicate KeepsRecorded(s: State, s': State) {
    && s'.mode.Recording? && s.nonces <= s'.nonces && |s.accounts| <= |s'.accounts| && s'.ctl == s.ctl
    && (forall i :: 0 <= i < |s.accounts| ==> SameCredentials(s.accounts[i], s'.accounts[i]))
    && (forall i :: |s.accounts| <= i < |s'.accounts| ==> Recorded(s.nonces, s'.accounts[i]))
  }

  lemma RecordWithKeepsRecorded(s: State, i: nat, f: AuthorizedFunction)
    requires s.mode.Recording? && i < |s.accounts|
    ensures RecordWith(s, i, f).Next? ==> KeepsRecorded(s, RecordWith(s, i, f).state)
  {
    hide RecordInvocation;
  }

  lemma StartKeepsRecorded(env: Env, s: State, address: Address, handle: nat, f: AuthorizedFunction, freshNonce: int)
    requires s.mode.Recording? && s.callStack != []
    ensures StartRecording(env, s, address, handle, f, freshNonce).Next? ==>
              KeepsRecorded(s, StartRecording(env, s, address, handle, f, freshNonce).state)
  {
  }

  lemma RecordingKeepsCredentials(env: Env, s: State, address: Address, handle: nat, f: AuthorizedFunction, freshNonce: int)
    requires s.mode.Recording? && s.callStack != []
    ensures RequireRecording(env, s, address, handle, f, freshNonce).Next? ==>
              KeepsRecorded(s, RequireRecording(env, s, address, handle, f, freshNonce).state)
  {
    hide RecordWith, StartRecording, HasMatchInStack, SameCredentials, Recorded;
    var s1 := s.(mode := s.mode.(handles := s.mode.handles - {handle}));
    if handle in s.mode.handles && s.mode.handles[handle] < |s.accounts| {
      RecordWithKeepsRecorded(s, s.mode.handles[handle], f);
    }
    var found := FindRecorder(s.accounts, address, 0);
    if found.Recorder? { RecordWithKeepsRecorded(s1, found.index, f); }
    StartKeepsRecorded(env, s1, address, handle, f, freshNonce);
  }

  lemma EnforcingKeepsCredentials(s: State, address: Address, f: AuthorizedFunction)
    ensures RequireEnforcing(s, address, f).Next? ==>
              var s' := RequireEnforcing(s, address, f).state;
              && s'.mode == s.mode && s'.nonces == s.nonces && |s'.accounts| == |s.accounts|
              && (forall i :: 0 <= i < |s.accounts| ==> SameCredentials(s.accounts[i], s'.accounts[i]))
              && (s'.ctl == s.ctl || (s'.ctl.Scope? && s'.ctl.before == s))
  {
    hide FindAccount, HasActive;
  }

  lemma DoneNoReplay(env: Env, enforcing: bool, used: set<(Address, int)>, s: State, i: nat, authenticated: bool, access: bool)
    requires NoReplay(env, enforcing, used, s) && s.ctl.Scope? && i < |s.accounts|
    ensures NoReplay(env, enforcing, used, FinishAuthentication(env, s, i, authenticated, access))
  {
    var s' := FinishAuthentication(env, s, i, authenticated, access);
    forall k | 0 <= k < |s'.accounts| ensures WellVerified(env, enforcing, used, s'.accounts[k]) {
      assert WellVerified(env, enforcing, used, s.accounts[k]);
    }
    assert s.ctl.before.ctl.Scope? ==> NoReplay(env, enforcing, used, s.ctl.before.ctl.before);
  }

  lemma FrameNoReplay(env: Env, enforcing: bool, used: set<(Address, int)>, s: State, frame: AuthStackFrame, kind: Kind, snapshot: Option<Snapshot>)
    requires NoReplay(env, enforcing, used, s)
    ensures NoReplay(env, enforcing, used, PushCallFrame(s, frame).(ctl := Scope(kind, snapshot, s)))
  {
    KeepsCredentials(env, enforcing, used, s.accounts, PushAccounts(s.accounts));
  }

  lemma LeaveNoReplay(env: Env, enforcing: bool, used: set<(Address, int)>, s: State)
    requires NoReplay(env, enforcing, used, s) && s.ctl.Scope?
    ensures NoReplay(env, enforcing, used, PopCallFrame(s).(ctl := s.ctl.before.ctl))
  {
    KeepsCredentials(env, enforcing, used, s.accounts, PopAccounts(s.accounts));
    assert s.ctl.before.ctl.Scope? ==> NoReplay(env, enforcing, used, s.ctl.before.ctl.before);
  }

  lemma RollbackNoReplay(env: Env, enforcing: bool, used: set<(Address, int)>, s: State)
    requires Inv(s) && NoReplay(env, enforcing, used, s) && s.ctl.Scope? && s.ctl.snapshot.Some?
    ensures Rollback(s, s.ctl.snapshot.value).Some? ==>
              NoReplay(env, enforcing, used, AfterRollback(s, Rollback(s, s.ctl.snapshot.value).value))
  {
    hide Rollback, AfterRollback;
    RollbackResult(s);
  }

  lemma StepNoReplay(env: Env, enforcing: bool, used: set<(Address, int)>, s: State, e: Event)
    requires Inv(s) && NoReplay(env, enforcing, used, s) && Step(env, s, e).Next?
    ensures NoReplay(env, enforcing, used, Step(env, s, e).state)
  {
    hide Rollback, AfterRollback, FinishAuthentication, RequireStep, PushCallFrame, PopCallFrame, LocalInv;
    match e
    case PushHostFn =>
    case PushContract(contract, name) =>
      var frame := Contract(contract, name);
      FrameNoReplay(env, enforcing, used, s, frame, ContractFrame, Some(SnapshotOf(PushCallFrame(s, frame))));
    case PushCreateContract(args) => FrameNoReplay(env, enforcing, used, s, CreateContractHostFn(args), CreateFrame, None);
    case Pop => LeaveNoReplay(env, enforcing, used, s);
    case PopRollback => RollbackNoReplay(env, enforcing, used, s);
    case RequireAuth(address, handle, callArgs, freshNonce) =>
      RequestNoReplay(env, enforcing, used, s, address, handle, callArgs, freshNonce);
    case AuthDone(authenticated, access) => DoneNoReplay(env, enforcing, used, s, s.ctl.kind.account, authenticated, access);
    case AddInvokerAuth(entries) =>
  }

  lemma {:induction false} RunNoReplay(env: Env, enforcing: bool, used: set<(Address, int)>, s: State, events: seq<Event>)
    requires Inv(s) && NoReplay(env, enforcing, used, s) && Run(env, s, events).Next?
    ensures NoReplay(env, enforcing, used, Run(env, s, events).state)
    decreases |events|
  {
    if events != [] {
      hide Inv, NoReplay, Step;
      StepInv(env, s, events[0]);
      StepNoReplay(env, enforcing, used, s, events[0]);
      RunNoReplay(env, enforcing, used, Step(env, s, events[0]).state, events[1..]);
    }
  }

  /** Over any enforcing run, with any rollbacks: nonces consumed before the run stay consumed,
      and no entry is ever verified with one of them, nor with an expiration that has passed or
      lies beyond what the ledger admits. */
  lemma CredentialsAreFresh(env: Env, entries: seq<AuthEntry>, nonces: set<(Address, int)>, events: seq<Event>, s: State, i: nat)
    requires StartsAndRuns(env, entries, nonces, events, s) && i < |s.accounts|
    ensures nonces <= s.nonces
    ensures s.accounts[i].verified && !s.accounts[i].isSource ==>
              && s.accounts[i].nonce.Some?
              && (s.accounts[i].address, s.accounts[i].nonce.value.value) in s.nonces - nonces
              && env.ledgerSeq <= s.accounts[i].nonce.value.liveUntil <= env.maxLiveUntil
  {
    var accounts := NewAccounts(env, entries).value;
    var start := NewEnforcing(accounts, nonces);
    InitInv(env, entries, nonces);
    forall k | 0 <= k < |accounts| ensures WellVerified(env, true, nonces, accounts[k]) {
      assert NewAccount(env, entries[k]) == Some(accounts[k]);
    }
    RunNoReplay(env, true, nonces, start, events);
    RunInv(env, start, events);
    assert WellVerified(env, true, nonces, s.accounts[i]);
    NoncesHeld(s, i);
  }

  /** And over any recording run: no recorded entry has a nonce consumed before, and each has
      consumed its own. */
  lemma RecordedNoncesAreFresh(env: Env, disableNonRootAuth: bool, nonces: set<(Address, int)>, events: seq<Event>, s: State, i: nat)
    requires Run(env, NewRecording(disableNonRootAuth, nonces), events) == Next(s) && i < |s.accounts|
    ensures nonces <= s.nonces
    ensures !s.accounts[i].isSource ==>
              && s.accounts[i].nonce.Some?
              && (s.accounts[i].address, s.accounts[i].nonce.value.value) in s.nonces - nonces
  {
    var start := NewRecording(disableNonRootAuth, nonces);
    InitRecordingInv(disableNonRootAuth, nonces);
    RunNoReplay(env, false, nonces, start, events);
    RunInv(env, start, events);
    assert WellVerified(env, false, nonces, s.accounts[i]);
    NoncesHeld(s, i);
    VerifiedWhenRecorded(s, i);
  }

  lemma VerifiedWhenRecorded(s: State, i: nat)
    requires Inv(s) && s.mode.Recording? && i < |s.accounts|
    ensures s.accounts[i].verified
  {
    assert RecordedOnly(s.accounts[i]);
  }

  lemma NoncesHeld(s: State, i: nat)
    requires Inv(s) && i < |s.accounts|
    ensures HoldsNonce(s.accounts[i]) ==>
              s.accounts[i].nonce.Some? && (s.accounts[i].address, s.accounts[i].nonce.value.value) in s.nonces
  {
  }
}
