/** The tracker objects, updated in place, and what they compute in terms of the
    value-level operations. */
module AuthTrackers {
  import opened Wrappers
  import opened AuthTypes
  import opened AuthTree
  import opened InvocationTracking
  import opened AuthMachine

  /** `Ok(matched)`, or an internal error. */
  datatype MatchAnswer = Answer(matched: bool) | MatchError

  /** `Ok`, the error that the frame is already authorized, or an internal error. */
  datatype RecordAnswer = Appended | ExistingValue | RecordError

  class InvocationTracker {
    var root: Invocation
    var matchStack: seq<MatchState>
    var rootExhaustedFrame: Option<nat>
    var isFullyProcessed: bool

    function View(): Tracker
      reads this
    {
      Tracker(root, matchStack, rootExhaustedFrame, isFullyProcessed)
    }

    constructor (root: Invocation)
      ensures View() == NewTracker(root)
    {
      this.root := root;
      matchStack := [];
      rootExhaustedFrame := None;
      isFullyProcessed := false;
    }

    /** A copy of a tracker. */
    constructor Clone(t: Tracker)
      ensures View() == t
    {
      root := t.root;
      matchStack := t.stack;
      rootExhaustedFrame := t.rootFrame;
      isFullyProcessed := t.processed;
    }

    method PushFrame()
      modifies this
      ensures View() == InvocationTracking.PushFrame(old(View()))
    {
      matchStack := matchStack + [Unmatched];
    }

    method PopFrame()
      modifies this
      ensures View() == InvocationTracking.PopFrame(old(View()))
    {
      if matchStack != [] {
        matchStack := matchStack[..|matchStack| - 1];
      }
      if rootExhaustedFrame.Some? && rootExhaustedFrame.value >= |matchStack| {
        isFullyProcessed := true;
      }
    }

    /** Skips unmatched frames in a loop and recurses into the child of a sub-match. */
    static method WalkDown(t: Invocation, stack: seq<MatchState>, start: nat) returns (r: Option<Path>)
      ensures r == Walk(t, stack, start)
      decreases |stack| - start
    {
      var i := start;
      while i < |stack|
        invariant start <= i
        invariant Walk(t, stack, start) == Walk(t, stack, i)
      {
        match stack[i]
        case SubMatch(index) =>
          if index >= |t.subs| { return None; }
          var rest := WalkDown(t.subs[index], stack, i + 1);
          return if rest.Some? then Some([index] + rest.value) else None;
        case RootMatch =>
          return None;
        case Unmatched =>
        i := i + 1;
      }
      return Some([]);
    }

    method LastAuthorizedInvocation() returns (r: LastResult)
      ensures r == LastInvocation(View(), 0)
    {
      var i := 0;
      while i < |matchStack|
        invariant LastInvocation(View(), 0) == LastInvocation(View(), i)
      {
        match matchStack[i]
        case RootMatch =>
          var p := WalkDown(root, matchStack, i + 1);
          return if p.Some? then At(p.value) else WalkError;
        case SubMatch(_) =>
          return WalkError;
        case Unmatched =>
        i := i + 1;
      }
      return NoRoot;
    }

    method CurrentFrameIsAlreadyMatched() returns (r: bool)
      ensures r == CurrentFrameMatched(View())
    {
      r := matchStack != [] && matchStack[|matchStack| - 1].IsMatched();
    }

    method MaybeExtendInvocationMatch(f: AuthorizedFunction, allowMatchingRoot: bool) returns (r: MatchAnswer, ghost path: Path)
      modifies this
      ensures match TryMatch(old(View()), f, allowMatchingRoot)
              case NoMatch => r == Answer(false) && View() == old(View())
              case Matched(t, p) => r == Answer(true) && View() == t && path == p
              case Fault => r == MatchError
    {
      var already := CurrentFrameIsAlreadyMatched();
      path := [];
      if already { return Answer(false), []; }
      ghost var t0 := View();
      var newMatchState := Unmatched;
      var last := LastAuthorizedInvocation();
      match last {
        case WalkError =>
          return MatchError, [];
        case At(p) =>
          LastNeedsFrames(t0, 0);
          var subs := NodeAt(root, p).subs;
          var index := 0;
          while index < |subs|
            invariant index <= |subs|
            invariant FindSub(subs, f, 0) == FindSub(subs, f, index)
          {
            if !subs[index].exhausted && subs[index].function_ == f {
              newMatchState := SubMatch(index);
              ChildPath(root, p, index);
              root := Exhaust(root, p + [index]);
              path := p + [index];
              break;
            }
            index := index + 1;
          }
        case NoRoot =>
          if !root.exhausted && allowMatchingRoot && root.function_ == f {
            newMatchState := RootMatch;
            root := root.(exhausted := true);
            if matchStack == [] { return MatchError, []; }
            rootExhaustedFrame := Some(|matchStack| - 1);
          }
      }
      if newMatchState.IsMatched() {
        matchStack := matchStack[|matchStack| - 1 := newMatchState];
      }
      r := Answer(newMatchState.IsMatched());
    }

    method Record(f: AuthorizedFunction) returns (r: RecordAnswer)
      modifies this
      ensures match RecordInvocation(old(View()), f)
              case Recorded(t, _) => r == Appended && View() == t
              case AlreadyMatched => r == ExistingValue && View() == old(View())
              case RecordFault => r == RecordError && View() == old(View())
    {
      var already := CurrentFrameIsAlreadyMatched();
      if already { return ExistingValue; }
      ghost var t0 := View();
      var last := LastAuthorizedInvocation();
      match last {
        case At(p) =>
          LastNeedsFrames(t0, 0);
          var node := NodeAt(root, p);
          root := Replace(root, p, node.(subs := node.subs + [Invocation(f, [], true)]));
          matchStack := matchStack[|matchStack| - 1 := SubMatch(|node.subs|)];
          return Appended;
        case _ =>
          return RecordError;
      }
    }

    method HasMatchedInvocationsInStack() returns (r: bool)
      ensures r == HasMatchInStack(View())
    {
      for i := 0 to |matchStack|
        invariant forall k :: 0 <= k < i ==> !matchStack[k].IsMatched()
      {
        if matchStack[i].IsMatched() { return true; }
      }
      return false;
    }

    method Rollback(snap: InvocationSnapshot) returns (ok: bool)
      modifies this
      ensures ok == RollbackTracker(old(View()), snap).Some?
      ensures View() == if ok then RollbackTracker(old(View()), snap).value else old(View())
    {
      var r := RollbackTree(root, snap);
      if r.None? { return false; }
      root := r.value;
      if !root.exhausted {
        rootExhaustedFrame := None;
        isFullyProcessed := false;
      }
      return true;
    }
  }

  class AccountTracker {
    const address: Address
    const tracker: InvocationTracker
    const isSource: bool
    const nonce: Option<Nonce>
    var verified: bool
    var borrowed: bool

    function View(): Account
      reads this, tracker
    {
      Account(address, tracker.View(), isSource, verified, nonce, borrowed)
    }

    /** A new object with the given contents. */
    constructor (a: Account)
      ensures View() == a && fresh(tracker)
    {
      address := a.address;
      isSource := a.isSource;
      nonce := a.nonce;
      verified := a.verified;
      borrowed := a.borrowed;
      tracker := new InvocationTracker.Clone(a.tracker);
    }

    method PushFrame()
      modifies tracker
      ensures View() == PushAccount(old(View()))
    {
      if !borrowed { tracker.PushFrame(); }
    }

    method PopFrame()
      modifies tracker
      ensures View() == PopAccount(old(View()))
    {
      if !borrowed { tracker.PopFrame(); }
    }

    method Rollback(snap: AccountSnapshot) returns (ok: bool)
      modifies this`verified, tracker
      ensures ok == RollbackAccount(old(View()), Some(snap)).Some?
      ensures ok ==> View() == RollbackAccount(old(View()), Some(snap)).value
    {
      if borrowed { return false; }
      ok := tracker.Rollback(snap.root);
      if ok { verified := snap.verified; }
    }
  }

  class InvokerTracker {
    const contract: Address
    const tracker: InvocationTracker
    /** History: the call depth of the creation, and the surviving matches. */
    ghost const depth: nat
    ghost var used: seq<Path>

    ghost function View(): Invoker
      reads this, tracker
    {
      Invoker(contract, tracker.View(), depth, used)
    }

    constructor (contract: Address, root: Invocation, ghost depth: nat)
      ensures View() == Invoker(contract, NewTracker(root), depth, []) && fresh(tracker)
    {
      this.contract := contract;
      this.depth := depth;
      used := [];
      tracker := new InvocationTracker(root);
    }
  }
}
