/** The authorization manager as an object: vectors of tracker objects walked by loops.
    Each method takes the manager exactly where the state machine goes. */
module AuthManager {
  import opened Wrappers
  import opened AuthTypes
  import opened AuthTree
  import opened InvocationTracking
  import opened AuthMachine
  import opened AuthTrackers

  datatype RequireAnswer = Authorized | Refused | NeedsAuthentication(account: nat) | RequireError

  // ---------- vectors of trackers ----------

  /** The trackers of a vector and their parts lie in `repr`, and no two share an object. */
  ghost predicate AccountsIn(accounts: seq<AccountTracker>, repr: set<object>) {
    && (forall i :: 0 <= i < |accounts| ==> accounts[i] in repr && accounts[i].tracker in repr)
    && (forall i, j :: 0 <= i < j < |accounts| ==> accounts[i] != accounts[j] && accounts[i].tracker != accounts[j].tracker)
  }

  ghost predicate InvokersIn(invokers: seq<InvokerTracker>, repr: set<object>) {
    && (forall i :: 0 <= i < |invokers| ==> invokers[i] in repr && invokers[i].tracker in repr)
    && (forall i, j :: 0 <= i < j < |invokers| ==> invokers[i] != invokers[j] && invokers[i].tracker != invokers[j].tracker)
  }

  ghost function AccountsOf(accounts: seq<AccountTracker>, repr: set<object>): (views: seq<Account>)
    requires AccountsIn(accounts, repr)
    reads repr
    ensures |views| == |accounts|
  {
    seq(|accounts|, i requires 0 <= i < |accounts| reads repr => accounts[i].View())
  }

  ghost function InvokersOf(invokers: seq<InvokerTracker>, repr: set<object>): (views: seq<Invoker>)
    requires InvokersIn(invokers, repr)
    reads repr
    ensures |views| == |invokers|
  {
    seq(|invokers|, i requires 0 <= i < |invokers| reads repr => invokers[i].View())
  }

  // ---------- the state reached, part by part ----------

  lemma RollbackAssembled(s: State, snap: Snapshot, accounts: seq<Account>, invokers: seq<Invoker>)
    requires RollbackTo(s.accounts, snap.accounts) == Some(accounts)
    requires |s.invokers| == |snap.invokers| && RollbackInvokers(s.invokers, snap.invokers) == Some(invokers)
    ensures var mode := if s.mode.Recording? && snap.handles.Some? then s.mode.(handles := snap.handles.value) else s.mode;
            Rollback(s, snap) == Some(State(mode, accounts, invokers, s.callStack, snap.nonces, s.log, s.ctl, s.failing))
  {
  }

  /** The state after a match by tracker `i` was found in a request made in state `s`. */
  ghost function Used(found: State, i: nat, p: Path, s: State): State
    requires i < |found.accounts|
  {
    var a := found.accounts[i];
    found.(accounts := found.accounts[i := a.(borrowed := a.borrowed || !a.verified)],
           log := found.log + [Match(i, p)],
           ctl := if a.verified then found.ctl else Scope(Authentication(i), None, s))
  }

  lemma MatchAssembled(s: State, address: Address, f: AuthorizedFunction, i: nat, t: Tracker, p: Path)
    requires FindAccount(s.accounts, address, f, !HasActive(s.accounts, address), 0) == Found(i, t, p)
    ensures var a := s.accounts[i].(tracker := t);
            RequireEnforcing(s, address, f) == Next(Used(s.(accounts := s.accounts[i := a]), i, p, s))
  {
  }

  lemma NoMatchAssembled(s: State, address: Address, f: AuthorizedFunction)
    ensures var found := FindAccount(s.accounts, address, f, !HasActive(s.accounts, address), 0);
            && (found.NotFound? ==> RequireEnforcing(s, address, f) == Next(s.(failing := true)))
            && (found.FindFault? ==> RequireEnforcing(s, address, f) == InternalError)
  {
  }

  lemma DropsTrailing(invokers: seq<Invoker>, n: nat)
    requires n <= |invokers|
    ensures DropOutOfScope(invokers[..n]) ==
              if n > 0 && invokers[n - 1].tracker.stack == [] then DropOutOfScope(invokers[..n - 1]) else invokers[..n]
  {
    if n > 0 { assert invokers[..n][..n - 1] == invokers[..n - 1]; }
  }

  lemma AuthDoneAssembled(env: Env, s: State, authenticated: bool, access: bool)
    requires Step(env, s, AuthDone(authenticated, access)).Next?
    ensures s.ctl.Scope? && s.ctl.kind.Authentication? && s.ctl.kind.account < |s.accounts|
    ensures Step(env, s, AuthDone(authenticated, access)) == Next(FinishAuthentication(env, s, s.ctl.kind.account, authenticated, access))
  {
  }

  class AuthorizationManager {
    const env: Env
    var mode: Mode
    var accounts: seq<AccountTracker>
    var invokers: seq<InvokerTracker>
    var callStack: seq<AuthStackFrame>
    /** The host's nonce entries, rolled back with every frame. */
    var nonces: set<(Address, int)>
    /** History: surviving matches, open scopes, and whether the frame has to fail. */
    ghost var log: seq<Match>
    ghost var ctl: Ctl
    ghost var failing: bool
    ghost var accountRepr: set<object>
    ghost var invokerRepr: set<object>

    ghost predicate Valid()
      reads this
    {
      && this !in accountRepr && this !in invokerRepr && accountRepr !! invokerRepr
      && AccountsIn(accounts, accountRepr)
      && InvokersIn(invokers, invokerRepr)
    }

    ghost function AccountViews(): seq<Account>
      requires AccountsIn(accounts, accountRepr)
      reads this`accounts, this`accountRepr, accountRepr
    {
      AccountsOf(accounts, accountRepr)
    }

    ghost function InvokerViews(): seq<Invoker>
      requires InvokersIn(invokers, invokerRepr)
      reads this`invokers, this`invokerRepr, invokerRepr
    {
      InvokersOf(invokers, invokerRepr)
    }

    ghost function View(): State
      requires Valid()
      reads this, accountRepr, invokerRepr
    {
      State(mode, AccountViews(), InvokerViews(), callStack, nonces, log, ctl, failing)
    }

    constructor Enforcing(env: Env, entries: seq<Account>, nonces: set<(Address, int)>)
      ensures Valid() && fresh(accountRepr) && fresh(invokerRepr)
      ensures this.env == env && View() == NewEnforcing(entries, nonces)
    {
      this.env := env;
      mode := Mode.Enforcing;
      accounts, invokers, callStack := [], [], [];
      this.nonces := nonces;
      log, ctl, failing := [], Bottom, false;
      accountRepr, invokerRepr := {}, {};
      new;
      AddAccounts(entries);
    }

    constructor Recording(env: Env, disableNonRootAuth: bool, nonces: set<(Address, int)>)
      ensures Valid() && fresh(accountRepr) && fresh(invokerRepr)
      ensures this.env == env && View() == NewRecording(disableNonRootAuth, nonces)
    {
      this.env := env;
      mode := Mode.Recording(map[], disableNonRootAuth);
      accounts, invokers, callStack := [], [], [];
      this.nonces := nonces;
      log, ctl, failing := [], Bottom, false;
      accountRepr, invokerRepr := {}, {};
    }

    /** Appends a new tracker for each account. */
    method AddAccounts(entries: seq<Account>)
      requires Valid()
      modifies this`accounts, this`accountRepr
      ensures Valid() && fresh(accountRepr - old(accountRepr))
      ensures AccountViews() == old(AccountViews()) + entries
    {
      ghost var views := AccountViews();
      for i := 0 to |entries|
        invariant Valid() && fresh(accountRepr - old(accountRepr)) && old(accountRepr) <= accountRepr
        invariant AccountViews() == views + entries[..i]
      {
        var a := new AccountTracker(entries[i]);
        ghost var before := AccountViews();
        accounts := accounts + [a];
        accountRepr := accountRepr + {a, a.tracker};
        assert AccountViews() == before + [entries[i]];
      }
    }

    // ---------- frames ----------

    method PushAccountTrackers()
      requires Valid()
      modifies accountRepr
      ensures AccountViews() == PushAccounts(old(AccountViews()))
    {
      for i := 0 to |accounts|
        invariant forall k :: 0 <= k < i ==> accounts[k].View() == PushAccount(old(accounts[k].View()))
        invariant forall k :: i <= k < |accounts| ==> accounts[k].View() == old(accounts[k].View())
      {
        accounts[i].PushFrame();
      }
    }

    method PushInvokerTrackers()
      requires Valid()
      modifies invokerRepr
      ensures InvokerViews() == PushInvokers(old(InvokerViews()))
    {
      for i := 0 to |invokers|
        invariant forall k :: 0 <= k < i ==> invokers[k].View() == PushInvoker(old(invokers[k].View()))
        invariant forall k :: i <= k < |invokers| ==> invokers[k].View() == old(invokers[k].View())
      {
        invokers[i].tracker.PushFrame();
      }
    }

    method PushTrackerFrame()
      requires Valid()
      modifies accountRepr, invokerRepr
      ensures AccountViews() == PushAccounts(old(AccountViews()))
      ensures InvokerViews() == PushInvokers(old(InvokerViews()))
    {
      PushAccountTrackers();
      PushInvokerTrackers();
    }

    method PopAccountTrackers()
      requires Valid()
      modifies accountRepr
      ensures AccountViews() == PopAccounts(old(AccountViews()))
    {
      for i := 0 to |accounts|
        invariant forall k :: 0 <= k < i ==> accounts[k].View() == PopAccount(old(accounts[k].View()))
        invariant forall k :: i <= k < |accounts| ==> accounts[k].View() == old(accounts[k].View())
      {
        accounts[i].PopFrame();
      }
    }

    method PopInvokerTrackers()
      requires Valid()
      modifies invokerRepr
      ensures InvokerViews() == PopEach(old(InvokerViews()))
    {
      for i := 0 to |invokers|
        invariant forall k :: 0 <= k < i ==> invokers[k].View() == PopInvoker(old(invokers[k].View()))
        invariant forall k :: i <= k < |invokers| ==> invokers[k].View() == old(invokers[k].View())
      {
        invokers[i].tracker.PopFrame();
      }
    }

    /** Pops the trailing trackers that went out of scope. */
    method DropInvokers()
      requires Valid()
      modifies this`invokers
      ensures Valid()
      ensures InvokerViews() == DropOutOfScope(old(InvokerViews()))
    {
      hide DropOutOfScope;
      ghost var popped := InvokerViews();
      assert popped[..|invokers|] == popped;
      while invokers != [] && invokers[|invokers| - 1].tracker.matchStack == []
        invariant Valid() && |invokers| <= |popped|
        invariant InvokerViews() == popped[..|invokers|]
        invariant DropOutOfScope(popped) == DropOutOfScope(popped[..|invokers|])
        decreases |invokers|
      {
        var n := |invokers| - 1;
        assert InvokerViews()[n].tracker.stack == [];
        DropsTrailing(popped, n + 1);
        invokers := invokers[..n];
      }
      assert invokers != [] ==> InvokerViews()[|invokers| - 1].tracker.stack != [];
      DropsTrailing(popped, |invokers|);
    }

    method PopTrackerFrame()
      requires Valid()
      modifies this`invokers, accountRepr, invokerRepr
      ensures Valid()
      ensures AccountViews() == PopAccounts(old(AccountViews()))
      ensures InvokerViews() == PopInvokers(old(InvokerViews()))
    {
      PopAccountTrackers();
      PopInvokerTrackers();
      DropInvokers();
    }

    method PushContractFrame(contract: Address, name: string) returns (snap: Snapshot)
      requires Valid() && !failing
      modifies this`callStack, this`ctl, accountRepr, invokerRepr
      ensures Valid()
      ensures Next(View()) == Step(env, old(View()), PushContract(contract, name))
      ensures ctl.Scope? && ctl.snapshot == Some(snap)
    {
      hide AccountsOf, InvokersOf, PushAccounts, PushInvokers, SnapshotOf;
      ghost var s := View();
      callStack := callStack + [Contract(contract, name)];
      PushTrackerFrame();
      snap := TakeSnapshotOfAll();
      ctl := Scope(ContractFrame, Some(snap), s);
    }

    method PushCreateContractFrame(args: CreateContractArgs)
      requires Valid() && Step(env, View(), PushCreateContract(args)).Next?
      modifies this`callStack, this`ctl, accountRepr, invokerRepr
      ensures Valid()
      ensures Next(View()) == Step(env, old(View()), PushCreateContract(args))
    {
      ghost var s := View();
      callStack := callStack + [CreateContractHostFn(args)];
      PushTrackerFrame();
      ctl := Scope(CreateFrame, None, s);
    }

    /** Only a snapshot: host function frames are not on the call stack. */
    method PushHostFnFrame() returns (snap: Snapshot)
      requires Valid() && Step(env, View(), PushHostFn).Next?
      modifies this`ctl
      ensures Valid()
      ensures Next(View()) == Step(env, old(View()), PushHostFn)
      ensures ctl.Scope? && ctl.snapshot == Some(snap)
    {
      ghost var s := View();
      snap := TakeSnapshotOfAll();
      ctl := Scope(HostFnFrame, Some(snap), s);
    }

    method SnapshotAllAccounts() returns (snap: AccountsSnapshot)
      requires Valid()
      ensures snap == SnapshotAccounts(mode, AccountViews())
    {
      if mode.Enforcing? {
        var snaps: seq<Option<AccountSnapshot>> := [];
        for i := 0 to |accounts|
          invariant |snaps| == i
          invariant forall k :: 0 <= k < i ==> snaps[k] == SnapshotAccount(AccountViews()[k])
        {
          var a := accounts[i];
          if a.borrowed {
            snaps := snaps + [None];
          } else {
            snaps := snaps + [Some(AccountSnapshot(TakeSnapshot(a.tracker.root), a.verified))];
          }
        }
        snap := EnforcingSnapshot(snaps);
      } else {
        var copies: seq<Account> := [];
        for i := 0 to |accounts|
          invariant |copies| == i
          invariant forall k :: 0 <= k < i ==> copies[k] == AccountViews()[k]
        {
          copies := copies + [accounts[i].View()];
        }
        assert copies == AccountViews();
        snap := RecordingSnapshot(copies);
      }
    }

    method TakeSnapshotOfAll() returns (snap: Snapshot)
      requires Valid()
      ensures snap == SnapshotOf(View())
    {
      var accountsSnapshot := SnapshotAllAccounts();
      var snaps: seq<InvocationSnapshot> := [];
      for i := 0 to |invokers|
        invariant |snaps| == i
        invariant forall k :: 0 <= k < i ==> snaps[k] == TakeSnapshot(InvokerViews()[k].tracker.root)
      {
        snaps := snaps + [TakeSnapshot(invokers[i].tracker.root)];
      }
      assert snaps == SnapshotInvokers(InvokerViews());
      snap := Snapshot(accountsSnapshot, snaps, if mode.Recording? then Some(mode.handles) else None, nonces);
    }

    // ---------- rollback and pop ----------

    method RollbackAccountTrackers(snaps: seq<Option<AccountSnapshot>>) returns (ok: bool)
      requires Valid() && |snaps| == |accounts|
      modifies accountRepr
      ensures ok == RollbackAccounts(old(AccountViews()), snaps).Some?
      ensures ok ==> AccountViews() == RollbackAccounts(old(AccountViews()), snaps).value
    {
      ghost var views := AccountViews();
      for i := 0 to |accounts|
        invariant forall k :: 0 <= k < i ==> RollbackAccount(views[k], snaps[k]) == Some(accounts[k].View())
        invariant forall k :: i <= k < |accounts| ==> accounts[k].View() == views[k]
      {
        if snaps[i].Some? {
          var done := accounts[i].Rollback(snaps[i].value);
          if !done {
            assert RollbackAccount(views[i], snaps[i]).None?;
            return false;
          }
        }
      }
      return true;
    }

    method RollbackInvokerTrackers(snaps: seq<InvocationSnapshot>) returns (ok: bool)
      requires Valid() && |snaps| == |invokers|
      modifies invokerRepr
      ensures ok == RollbackInvokers(old(InvokerViews()), snaps).Some?
      ensures ok ==> InvokerViews() == RollbackInvokers(old(InvokerViews()), snaps).value
    {
      ghost var views := InvokerViews();
      for i := 0 to |invokers|
        invariant forall k :: 0 <= k < i ==>
                    RollbackTracker(views[k].tracker, snaps[k]) == Some(invokers[k].View().tracker)
                    && invokers[k].View() == views[k].(tracker := invokers[k].View().tracker)
        invariant forall k :: i <= k < |invokers| ==> invokers[k].View() == views[k]
      {
        var done := invokers[i].tracker.Rollback(snaps[i]);
        if !done {
          assert RollbackTracker(views[i].tracker, snaps[i]).None?;
          return false;
        }
      }
      assert forall k :: 0 <= k < |invokers| ==> InvokerViews()[k] == views[k].(tracker := RollbackTracker(views[k].tracker, snaps[k]).value);
      return true;
    }

    /** Recording rolls back by replacing the whole vector with the snapshot's copy. */
    method RestoreAccounts(snap: AccountsSnapshot) returns (ok: bool)
      requires Valid()
      modifies this`accounts, this`accountRepr, accountRepr
      ensures Valid() && fresh(accountRepr - old(accountRepr))
      ensures ok == RollbackTo(old(AccountViews()), snap).Some?
      ensures ok ==> AccountViews() == RollbackTo(old(AccountViews()), snap).value
    {
      match snap {
        case EnforcingSnapshot(snaps) =>
          if |accounts| != |snaps| { return false; }
          ok := RollbackAccountTrackers(snaps);
        case RecordingSnapshot(copies) =>
          accounts, accountRepr := [], {};
          AddAccounts(copies);
          ok := true;
      }
    }

    method RollbackManager(snap: Snapshot) returns (ok: bool)
      requires Valid()
      modifies this`accounts, this`accountRepr, this`mode, this`nonces, accountRepr, invokerRepr
      ensures Valid() && fresh(accountRepr - old(accountRepr))
      ensures ok == Rollback(old(View()), snap).Some?
      ensures ok ==> View() == Rollback(old(View()), snap).value
    {
      hide RollbackTo, RollbackInvokers, AccountsOf, InvokersOf;
      ghost var s := View();
      ok := RestoreAccounts(snap.accounts);
      if !ok { return false; }
      ghost var restored := AccountViews();
      if |invokers| != |snap.invokers| { return false; }
      ok := RollbackInvokerTrackers(snap.invokers);
      if !ok { return false; }
      RollbackAssembled(s, snap, restored, InvokerViews());
      if mode.Recording? && snap.handles.Some? {
        mode := mode.(handles := snap.handles.value);
      }
      nonces := snap.nonces;
      assert AccountViews() == restored;
    }

    method PopCallStack()
      requires Valid()
      modifies this`callStack, this`invokers, accountRepr, invokerRepr
      ensures Valid()
      ensures View() == PopCallFrame(old(View()))
    {
      if callStack != [] {
        callStack := callStack[..|callStack| - 1];
        PopTrackerFrame();
      }
    }

    method PopCommitted()
      requires Valid() && Step(env, View(), Pop).Next?
      modifies this, accountRepr, invokerRepr
      ensures Valid() && accountRepr == old(accountRepr)
      ensures Next(View()) == Step(env, old(View()), Pop)
    {
      hide PopCallFrame, AccountsOf, InvokersOf;
      PopCallStack();
      ctl := ctl.before.ctl;
    }

    method PopRolledBack(snapshot: Snapshot) returns (ok: bool)
      requires Valid() && ctl.Scope? && ctl.snapshot == Some(snapshot)
      modifies this, accountRepr, invokerRepr
      ensures Valid() && fresh(accountRepr - old(accountRepr))
      ensures if ok then Next(View()) == Step(env, old(View()), PopRollback) else Step(env, old(View()), PopRollback) == InternalError
    {
      hide Rollback, AfterRollback, AccountsOf, InvokersOf;
      ghost var s := View();
      ok := RollbackManager(snapshot);
      if !ok { return false; }
      LeaveRolledBack(s);
      ok := true;
    }

    method LeaveRolledBack(ghost s: State)
      requires Valid() && s.ctl.Scope? && log == s.log
      modifies this, accountRepr, invokerRepr
      ensures Valid() && accountRepr == old(accountRepr)
      ensures View() == AfterRollback(s, old(View()))
    {
      hide PopCallFrame, SurvivingUses, AccountsOf, InvokersOf;
      PopCallStack();
      ctl := s.ctl.before.ctl;
      failing := false;
      log := Surviving(log, |s.ctl.before.log|);
      ForgetUses(s.ctl.before.invokers);
    }

    /** History only: matches made since `before` do not survive. */
    ghost method ForgetUses(before: seq<Invoker>)
      requires Valid()
      modifies invokerRepr
      ensures Valid() && InvokerViews() == SurvivingUses(old(InvokerViews()), before)
    {
      forall k | 0 <= k < |invokers| && k < |before| {
        invokers[k].used := Surviving(invokers[k].used, |before[k].used|);
      }
    }

    /** Rollback, if asked for, comes before the pop. An empty call stack means the frame was
        a host function's. */
    method PopFrame(snapshot: Option<Snapshot>) returns (ok: bool)
      requires Valid()
      requires snapshot.None? ==> Step(env, View(), Pop).Next?
      requires snapshot.Some? ==> ctl.Scope? && ctl.snapshot == snapshot
      modifies this, accountRepr, invokerRepr
      ensures Valid() && fresh(accountRepr - old(accountRepr))
      ensures snapshot.None? ==> ok && Next(View()) == Step(env, old(View()), Pop)
      ensures snapshot.Some? ==>
                if ok then Next(View()) == Step(env, old(View()), PopRollback) else Step(env, old(View()), PopRollback) == InternalError
    {
      match snapshot {
        case None =>
          PopCommitted();
          ok := true;
        case Some(snap) =>
          ok := PopRolledBack(snap);
      }
    }

    // ---------- require_auth ----------

    /** The direct invoker first, then trackers of invokers further up. `None` is an internal error. */
    method MaybeCheckInvokerContractAuth(address: Address, f: AuthorizedFunction) returns (r: Option<bool>)
      requires Valid()
      modifies invokerRepr
      ensures match CheckInvoker(callStack, old(InvokerViews()), address, f)
              case Direct => r == Some(true) && InvokerViews() == old(InvokerViews())
              case NotAuthorized => r == Some(false) && InvokerViews() == old(InvokerViews())
              case ByTracker(i, t, p) => r == Some(true) && InvokerViews() == old(InvokerViews())[i := UseBy(old(InvokerViews())[i], t, p)]
              case InvokerFault => r == None
    {
      if |callStack| < 2 { return Some(false); }
      var invoker := callStack[|callStack| - 2];
      if invoker.Contract? && invoker.contract == address { return Some(true); }
      hide TryMatch;
      ghost var views := InvokerViews();
      for i := 0 to |invokers|
        invariant InvokerViews() == views
        invariant FindInvoker(views, address, f, 0) == FindInvoker(views, address, f, i)
      {
        if invokers[i].contract == address {
          assert views[i] == invokers[i].View();
          var m := AskInvoker(i, f);
          if m == MatchError { return None; }
          if m == Answer(true) { return Some(true); }
        }
      }
      return Some(false);
    }

    /** One invoker tracker tries to match, and takes note of the node. */
    method AskInvoker(i: nat, f: AuthorizedFunction) returns (m: MatchAnswer)
      requires Valid() && i < |invokers|
      modifies invokerRepr
      ensures match TryMatch(old(InvokerViews())[i].tracker, f, true)
              case NoMatch => m == Answer(false) && InvokerViews() == old(InvokerViews())
              case Matched(t, p) => m == Answer(true) && InvokerViews() == old(InvokerViews())[i := UseBy(old(InvokerViews())[i], t, p)]
              case Fault => m == MatchError
    {
      hide TryMatch;
      ghost var views := InvokerViews();
      assert views[i] == invokers[i].View();
      ghost var p;
      m, p := invokers[i].tracker.MaybeExtendInvocationMatch(f, true);
      if m == Answer(true) {
        invokers[i].used := invokers[i].used + [p];
        assert InvokerViews() == views[i := UseBy(views[i], invokers[i].tracker.View(), p)];
      } else if m == Answer(false) {
        assert InvokerViews() == views;
      }
    }

    method HasActiveTracker(address: Address) returns (r: bool)
      requires Valid()
      ensures r == HasActive(AccountViews(), address)
    {
      for i := 0 to |accounts|
        invariant forall k :: 0 <= k < i ==> !ActiveElsewhere(AccountViews()[k], address)
      {
        var a := accounts[i];
        if !a.borrowed && a.address == address && a.tracker.root.exhausted && !a.tracker.isFullyProcessed {
          var matched := a.tracker.CurrentFrameIsAlreadyMatched();
          if !matched {
            assert ActiveElsewhere(AccountViews()[i], address);
            return true;
          }
        }
      }
      return false;
    }

    method FindMatchingTracker(address: Address, f: AuthorizedFunction, allowRoot: bool) returns (r: Option<Option<nat>>, ghost path: Path)
      requires Valid()
      modifies accountRepr
      ensures match FindAccount(old(AccountViews()), address, f, allowRoot, 0)
              case NotFound => r == Some(None) && AccountViews() == old(AccountViews())
              case Found(i, t, p) => r == Some(Some(i)) && path == p && AccountViews() == old(AccountViews())[i := old(AccountViews())[i].(tracker := t)]
              case FindFault => r == None
    {
      hide TryMatch;
      ghost var views := AccountViews();
      for i := 0 to |accounts|
        invariant AccountViews() == views
        invariant FindAccount(views, address, f, allowRoot, 0) == FindAccount(views, address, f, allowRoot, i)
      {
        if !accounts[i].borrowed && accounts[i].address == address {
          assert views[i] == accounts[i].View();
          var m, p := accounts[i].tracker.MaybeExtendInvocationMatch(f, allowRoot);
          if m == MatchError { return None, []; }
          if m == Answer(true) {
            assert AccountViews() == views[i := views[i].(tracker := accounts[i].tracker.View())];
            return Some(Some(i)), p;
          }
          assert AccountViews() == views;
        }
      }
      return Some(None), [];
    }

    ghost predicate AnswerMatches(answer: RequireAnswer, s: State, result: StepResult)
      requires Valid()
      reads this, accountRepr, invokerRepr
    {
      match answer
      case RequireError => result == InternalError
      case Authorized => result == Next(View()) && !failing && ctl == s.ctl
      case Refused => result == Next(View()) && failing && ctl == s.ctl
      case NeedsAuthentication(i) => result == Next(View()) && !failing && ctl == Scope(Authentication(i), None, s)
    }

    /** A tracker that still has to be verified is marked borrowed, and the caller runs its
        authentication before calling `FinishAuthentication`. */
    method RequireAuthEnforcing(address: Address, f: AuthorizedFunction) returns (answer: RequireAnswer)
      requires Valid() && !failing
      modifies this`log, this`ctl, this`failing, accountRepr
      ensures Valid()
      ensures AnswerMatches(answer, old(View()), RequireEnforcing(old(View()), address, f))
    {
      ghost var s := View();
      var found, path := FindForRequest(address, f);
      if found.None? { return RequireError; }
      if found.value.None? {
        failing := true;
        return Refused;
      }
      answer := UseMatch(found.value.value, path, s);
    }

    /** A new tree may be started only if no active tracker of the address is unmatched here. */
    method FindForRequest(address: Address, f: AuthorizedFunction) returns (r: Option<Option<nat>>, ghost path: Path)
      requires Valid()
      modifies accountRepr
      ensures match r
              case None => RequireEnforcing(old(View()), address, f) == InternalError
              case Some(None) => View() == old(View()) && RequireEnforcing(old(View()), address, f) == Next(old(View()).(failing := true))
              case Some(Some(i)) =>
                && i < |accounts| && View() == old(View()).(accounts := AccountViews())
                && RequireEnforcing(old(View()), address, f) == Next(Used(View(), i, path, old(View())))
    {
      hide AccountsOf, InvokersOf, RequireEnforcing, HasActive, FindAccount;
      ghost var s := View();
      NoMatchAssembled(s, address, f);
      var hasActive := HasActiveTracker(address);
      r, path := FindMatchingTracker(address, f, !hasActive);
      if r.Some? && r.value.Some? {
        MatchAssembled(s, address, f, r.value.value, AccountViews()[r.value.value].tracker, path);
      }
    }

    /** Records the match, and starts the authentication if it is still due. */
    method UseMatch(i: nat, ghost path: Path, ghost s: State) returns (answer: RequireAnswer)
      requires Valid() && i < |accounts| && ctl == s.ctl
      modifies this`log, this`ctl, accountRepr
      ensures Valid()
      ensures answer == (if old(AccountViews())[i].verified then Authorized else NeedsAuthentication(i))
      ensures View() == Used(old(View()), i, path, s)
    {
      ghost var views := AccountViews();
      assert views[i] == accounts[i].View();
      log := log + [Match(i, path)];
      if accounts[i].verified {
        assert AccountViews() == views[i := views[i]];
        return Authorized;
      }
      accounts[i].borrowed := true;
      ctl := Scope(Authentication(i), None, s);
      assert AccountViews() == views[i := accounts[i].View()];
      return NeedsAuthentication(i);
    }

    /** The end of a tracker's authentication: on success its nonce is consumed. */
    method FinishAuthentication(i: nat, authenticated: bool, access: bool) returns (ok: bool)
      requires Valid() && Step(env, View(), AuthDone(authenticated, access)).Next? && ctl.kind.account == i
      requires failing ==> !authenticated && !accounts[i].isSource
      modifies this`nonces, this`ctl, this`failing, accountRepr
      ensures Valid()
      ensures Next(View()) == Step(env, old(View()), AuthDone(authenticated, access))
      ensures ok == !failing
    {
      hide InvokersOf, Step;
      ghost var s := View();
      AuthDoneAssembled(env, s, authenticated, access);
      var a := accounts[i];
      var consumed := false;
      if a.isSource {
        consumed := true;
      } else if authenticated && a.nonce.Some? && env.ledgerSeq <= a.nonce.value.liveUntil <= env.maxLiveUntil
                && access && (a.address, a.nonce.value.value) !in nonces {
        nonces := nonces + {(a.address, a.nonce.value.value)};
        consumed := true;
      }
      a.borrowed := false;
      if consumed { a.verified := true; } else { failing := true; }
      ctl := ctl.before.ctl;
      assert AccountViews() == s.accounts[i := a.View()];
      ok := consumed;
    }

    // ---------- recording ----------

    method IsBorrowed(i: nat) returns (r: bool)
      requires Valid() && i < |accounts|
      ensures r == AccountViews()[i].borrowed
    {
      r := accounts[i].borrowed;
      assert AccountViews()[i] == accounts[i].View();
    }

    method HasMatch(i: nat) returns (r: bool)
      requires Valid() && i < |accounts|
      ensures r == HasMatchInStack(AccountViews()[i].tracker)
    {
      r := accounts[i].tracker.HasMatchedInvocationsInStack();
      assert AccountViews()[i] == accounts[i].View();
    }

    method FindActiveRecorder(address: Address) returns (r: RecorderResult)
      requires Valid()
      ensures r == FindRecorder(AccountViews(), address, 0)
    {
      for i := 0 to |accounts|
        invariant FindRecorder(AccountViews(), address, 0) == FindRecorder(AccountViews(), address, i)
      {
        assert AccountViews()[i] == accounts[i].View();
        if accounts[i].borrowed { return RecorderFault; }
        if accounts[i].address == address {
          var active := HasMatch(i);
          var matched := accounts[i].tracker.CurrentFrameIsAlreadyMatched();
          if active && !matched { return Recorder(i); }
        }
      }
      return NoRecorder;
    }

    method RecordWithTracker(i: nat, f: AuthorizedFunction) returns (answer: RequireAnswer)
      requires Valid() && !failing && i < |accounts|
      modifies this`log, this`failing, accountRepr
      ensures Valid()
      ensures AnswerMatches(answer, old(View()), RecordWith(old(View()), i, f))
    {
      ghost var s := View();
      assert s.accounts[i] == accounts[i].View();
      ghost var r := RecordInvocation(s.accounts[i].tracker, f);
      var recorded := accounts[i].tracker.Record(f);
      assert AccountViews() == s.accounts[i := s.accounts[i].(tracker := accounts[i].tracker.View())];
      match recorded {
        case Appended =>
          log := log + [Match(i, r.path)];
          answer := Authorized;
        case ExistingValue =>
          assert AccountViews() == s.accounts;
          failing := true;
          answer := Refused;
        case RecordError =>
          answer := RequireError;
      }
    }

    method StartTracker(address: Address, handle: nat, f: AuthorizedFunction, freshNonce: int) returns (answer: RequireAnswer)
      requires Valid() && !failing && mode.Recording? && callStack != []
      modifies this`mode, this`nonces, this`accounts, this`accountRepr, this`log, this`failing
      ensures Valid() && fresh(accountRepr - old(accountRepr))
      ensures answer == (if failing then Refused else Authorized)
      ensures Next(View()) == StartRecording(env, old(View()), address, handle, f, freshNonce)
    {
      hide AccountsOf, InvokersOf;
      var isSource := env.source == Some(address);
      if (mode.disableNonRootAuth && |callStack| != 1) || (!isSource && (address, freshNonce) in nonces) {
        failing := true;
        return Refused;
      }
      if !isSource { nonces := nonces + {(address, freshNonce)}; }
      mode := mode.(handles := mode.handles[handle := |accounts|]);
      log := log + [Match(|accounts|, [])];
      AddAccounts([NewRecordingAccount(env, address, f, |callStack|, freshNonce)]);
      return Authorized;
    }

    method RecordWithAnother(address: Address, handle: nat, f: AuthorizedFunction, freshNonce: int) returns (answer: RequireAnswer)
      requires Valid() && !failing && mode.Recording? && callStack != []
      modifies this`mode, this`nonces, this`accounts, this`accountRepr, this`log, this`failing, accountRepr
      ensures Valid() && fresh(accountRepr - old(accountRepr))
      ensures AnswerMatches(answer, old(View()), RecordElsewhere(env, old(View()), address, handle, f, freshNonce))
    {
      hide RecordInvocation, RecordWith, StartRecording, FindRecorder;
      ghost var s := View();
      mode := mode.(handles := mode.handles - {handle});
      assert View() == s.(mode := s.mode.(handles := s.mode.handles - {handle}));
      var existing := FindActiveRecorder(address);
      match existing {
        case Recorder(i) => answer := RecordWithTracker(i, f);
        case RecorderFault => answer := RequireError;
        case NoRecorder => answer := StartTracker(address, handle, f, freshNonce);
      }
    }

    method RequireAuthRecording(address: Address, handle: nat, f: AuthorizedFunction, freshNonce: int) returns (answer: RequireAnswer)
      requires Valid() && !failing && mode.Recording? && callStack != []
      modifies this`mode, this`nonces, this`accounts, this`accountRepr, this`log, this`failing, accountRepr
      ensures Valid() && fresh(accountRepr - old(accountRepr))
      ensures AnswerMatches(answer, old(View()), RequireRecording(env, old(View()), address, handle, f, freshNonce))
    {
      hide AccountsOf, InvokersOf, RecordWith, RecordElsewhere, HasMatchInStack;
      if handle in mode.handles {
        var id := mode.handles[handle];
        if id >= |accounts| { return RequireError; }
        var borrowed := IsBorrowed(id);
        if borrowed { return RequireError; }
        var active := HasMatch(id);
        if active {
          answer := RecordWithTracker(id, f);
          return;
        }
      }
      answer := RecordWithAnother(address, handle, f, freshNonce);
    }

    // ---------- the entry points ----------

    method RequireAuth(address: Address, handle: nat, callArgs: seq<Val>, freshNonce: int) returns (answer: RequireAnswer)
      requires Valid() && !failing
      modifies this`mode, this`nonces, this`accounts, this`accountRepr, this`log, this`failing, this`ctl, accountRepr, invokerRepr
      ensures Valid() && fresh(accountRepr - old(accountRepr))
      ensures AnswerMatches(answer, old(View()), Step(env, old(View()), Event.RequireAuth(address, handle, callArgs, freshNonce)))
    {
      hide CheckInvoker, RequireEnforcing, RequireRecording, ToAuthorizedFunction;
      if callStack == [] { return RequireError; }
      var f := ToAuthorizedFunction(callStack[|callStack| - 1], callArgs);
      var byInvoker := MaybeCheckInvokerContractAuth(address, f);
      if byInvoker.None? { return RequireError; }
      if byInvoker.value { return Authorized; }
      if mode.Enforcing? {
        answer := RequireAuthEnforcing(address, f);
      } else {
        answer := RequireAuthRecording(address, handle, f, freshNonce);
      }
    }

    method AddInvokerContractAuth(entries: seq<XdrInvocation>)
      requires Valid() && Step(env, View(), AddInvokerAuth(entries)).Next?
      modifies this`invokers, this`invokerRepr
      ensures Valid() && fresh(invokerRepr - old(invokerRepr))
      ensures Next(View()) == Step(env, old(View()), AddInvokerAuth(entries))
    {
      hide FromXdr;
      ghost var s := View();
      var contract := callStack[|callStack| - 1].contract;
      for i := 0 to |entries|
        invariant Valid() && fresh(invokerRepr - old(invokerRepr)) && old(invokerRepr) <= invokerRepr
        invariant AccountViews() == s.accounts
        invariant InvokerViews() == s.invokers + NewInvokers(callStack, entries)[..i]
      {
        AddInvoker(contract, entries[i]);
      }
      assert NewInvokers(callStack, entries)[..|entries|] == NewInvokers(callStack, entries);
    }

    method AddInvoker(contract: Address, entry: XdrInvocation)
      requires Valid()
      modifies this`invokers, this`invokerRepr
      ensures Valid() && fresh(invokerRepr - old(invokerRepr)) && old(invokerRepr) <= invokerRepr
      ensures InvokerViews() == old(InvokerViews()) + [Invoker(contract, NewTracker(FromXdr(entry)), |callStack|, [])]
      ensures AccountViews() == old(AccountViews())
    {
      hide FromXdr;
      ghost var views := InvokerViews();
      var v := new InvokerTracker(contract, FromXdr(entry), |callStack|);
      invokers := invokers + [v];
      invokerRepr := invokerRepr + {v, v.tracker};
      assert InvokerViews() == views + [v.View()];
    }
  }
}
