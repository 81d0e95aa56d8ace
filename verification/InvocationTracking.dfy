/** One tracker of an authorized invocation tree, as a value: what each operation
    on it computes, what it keeps, and why rolling back its flags restores it. */
module InvocationTracking {
  import opened Wrappers
  import opened AuthTypes
  import opened AuthTree

  datatype Tracker = Tracker(
    root: Invocation,
    stack: seq<MatchState>,
    rootFrame: Option<nat>,
    processed: bool)

  /** `Matched` carries the new tracker and the node that was used; `Fault` is an
      internal error of the walk, or a match with no frame to record it in. */
  datatype MatchResult = NoMatch | Matched(tracker: Tracker, path: Path) | Fault

  /** Result of the search for the deepest matched node. */
  datatype LastResult = NoRoot | At(path: Path) | WalkError

  // ---------- operations ----------

  function NewTracker(root: Invocation): Tracker {
    Tracker(root, [], None, false)
  }

  function PushFrame(t: Tracker): Tracker {
    t.(stack := t.stack + [Unmatched])
  }

  function PopFrame(t: Tracker): Tracker {
    var stack := if t.stack == [] then [] else t.stack[..|t.stack| - 1];
    t.(stack := stack,
       processed := t.processed || (t.rootFrame.Some? && t.rootFrame.value >= |stack|))
  }

  predicate IsActive(t: Tracker) {
    t.root.exhausted && !t.processed
  }

  predicate CurrentFrameMatched(t: Tracker) {
    t.stack != [] && t.stack[|t.stack| - 1].IsMatched()
  }

  predicate HasMatchInStack(t: Tracker) {
    exists k :: 0 <= k < |t.stack| && t.stack[k].IsMatched()
  }

  function LastInvocation(t: Tracker, k: nat): (r: LastResult)
    ensures r.At? ==> ValidPath(t.root, r.path)
    decreases |t.stack| - k
  {
    if k >= |t.stack| then NoRoot
    else
      match t.stack[k]
      case Unmatched => LastInvocation(t, k + 1)
      case SubMatch(_) => WalkError
      case RootMatch =>
        match Walk(t.root, t.stack, k + 1)
        case None => WalkError
        case Some(p) => At(p)
  }

  /** The first unused child that authorizes `f`. */
  function FindSub(subs: seq<Invocation>, f: AuthorizedFunction, i: nat): (r: Option<nat>)
    ensures r.Some? ==> i <= r.value < |subs| && !subs[r.value].exhausted && subs[r.value].function_ == f
    ensures r.Some? ==> forall k :: i <= k < r.value ==> subs[k].exhausted || subs[k].function_ != f
    ensures r.None? ==> forall k :: i <= k < |subs| ==> subs[k].exhausted || subs[k].function_ != f
    decreases |subs| - i
  {
    if i >= |subs| then None
    else if !subs[i].exhausted && subs[i].function_ == f then Some(i)
    else FindSub(subs, f, i + 1)
  }

  function MatchRoot(t: Tracker): Tracker
    requires t.stack != []
  {
    t.(root := t.root.(exhausted := true),
       rootFrame := Some(|t.stack| - 1),
       stack := t.stack[|t.stack| - 1 := RootMatch])
  }

  function MatchSub(t: Tracker, p: Path, j: nat): Tracker
    requires t.stack != [] && ValidPath(t.root, p + [j])
  {
    t.(root := Exhaust(t.root, p + [j]),
       stack := t.stack[|t.stack| - 1 := SubMatch(j)])
  }

  lemma LastNeedsFrames(t: Tracker, k: nat)
    requires LastInvocation(t, k).At?
    ensures t.stack != []
  {
  }

  lemma ChildPath(t: Invocation, p: Path, j: nat)
    requires ValidPath(t, p) && j < |NodeAt(t, p).subs|
    ensures ValidPath(t, p + [j]) && NodeAt(t, p + [j]) == NodeAt(t, p).subs[j]
  {
    PathConcat(t, p, [j]);
  }

  /** `maybe_extend_invocation_match`. */
  function TryMatch(t: Tracker, f: AuthorizedFunction, allowRoot: bool): MatchResult {
    if CurrentFrameMatched(t) then NoMatch
    else
      match LastInvocation(t, 0)
      case WalkError => Fault
      case At(p) =>
        (match FindSub(NodeAt(t.root, p).subs, f, 0)
         case None => NoMatch
         case Some(j) =>
           LastNeedsFrames(t, 0);
           ChildPath(t.root, p, j);
           Matched(MatchSub(t, p, j), p + [j]))
      case NoRoot =>
        if !t.root.exhausted && allowRoot && t.root.function_ == f then
          if t.stack == [] then Fault else Matched(MatchRoot(t), [])
        else NoMatch
  }

  function RollbackTracker(t: Tracker, snap: InvocationSnapshot): Option<Tracker> {
    match RollbackTree(t.root, snap)
    case None => None
    case Some(root) =>
      if root.exhausted then Some(t.(root := root))
      else Some(t.(root := root, rootFrame := None, processed := false))
  }

  // ---------- the state every step keeps ----------

  ghost predicate AllUnmatched(stack: seq<MatchState>, n: nat)
    requires n <= |stack|
  {
    forall k :: 0 <= k < n ==> stack[k] == Unmatched
  }

  /** The match stack mirrors `frames`. An active tracker has its one root match at
      `rootFrame` with nothing matched before it, and from there the sub-matches lead
      through used nodes that belong to the frames they were matched at. An inactive
      one has no match at all. Used nodes are closed under parents. */
  ghost predicate TrackerOk(t: Tracker, frames: seq<AuthStackFrame>) {
    && |t.stack| == |frames|
    && ParentClosed(t.root)
    && (t.root.exhausted <==> t.rootFrame.Some?)
    && if IsActive(t) then
         var r := t.rootFrame.value;
         && r < |t.stack|
         && t.stack[r] == RootMatch
         && AllUnmatched(t.stack, r)
         && FrameOf(t.root.function_) == frames[r]
         && WalkOk(t.root, t.stack, r + 1, frames)
       else
         && AllUnmatched(t.stack, |t.stack|)
         && (!t.root.exhausted ==> !t.processed)
  }

  lemma {:induction false} WalkOkNoRoot(t: Invocation, stack: seq<MatchState>, k: nat, frames: seq<AuthStackFrame>)
    requires |stack| == |frames| && WalkOk(t, stack, k, frames)
    ensures forall m :: k <= m < |stack| ==> stack[m] != RootMatch
    decreases |stack| - k
  {
    if k < |stack| {
      match stack[k]
      case SubMatch(i) => WalkOkNoRoot(t.subs[i], stack, k + 1, frames);
      case Unmatched => WalkOkNoRoot(t, stack, k + 1, frames);
      case RootMatch =>
    }
  }

  /** Activity, which the code reads off two flags, is the presence of a root match;
      there is at most one, and no sub-match comes before it. */
  lemma ActiveIffRootMatched(t: Tracker, frames: seq<AuthStackFrame>)
    requires TrackerOk(t, frames)
    ensures IsActive(t) <==> RootMatch in t.stack
    ensures IsActive(t) <==> HasMatchInStack(t)
    ensures forall i, j :: 0 <= i < |t.stack| && 0 <= j < |t.stack| && t.stack[i] == RootMatch && t.stack[j].IsMatched() ==> i <= j
    ensures forall i, j :: 0 <= i < |t.stack| && 0 <= j < |t.stack| && t.stack[i] == t.stack[j] == RootMatch ==> i == j
  {
    if IsActive(t) {
      var r := t.rootFrame.value;
      WalkOkNoRoot(t.root, t.stack, r + 1, frames);
      assert t.stack[r].IsMatched();
    }
  }

  lemma {:induction false} SkipUnmatched(t: Tracker, k: nat, n: nat)
    requires k <= n <= |t.stack| && AllUnmatched(t.stack, n)
    ensures LastInvocation(t, k) == LastInvocation(t, n)
    decreases n - k
  {
    if k < n {
      SkipUnmatched(t, k + 1, n);
    }
  }

  /** The search never fails and returns the node the plain fold leads to. */
  lemma LastIsFold(t: Tracker, frames: seq<AuthStackFrame>)
    requires TrackerOk(t, frames)
    ensures LastInvocation(t, 0) ==
            if IsActive(t) then At(IndicesFrom(t.stack, t.rootFrame.value + 1)) else NoRoot
    ensures IsActive(t) ==> Flag(t.root, IndicesFrom(t.stack, t.rootFrame.value + 1))
  {
    if IsActive(t) {
      var r := t.rootFrame.value;
      SkipUnmatched(t, 0, r);
      WalkIsFold(t.root, t.stack, r + 1, frames);
    } else {
      SkipUnmatched(t, 0, |t.stack|);
    }
  }

  lemma NewOk(root: Invocation)
    requires NoneExhausted(root)
    ensures TrackerOk(NewTracker(root), [])
  {
    NoneExhaustedClosed(root);
  }

  lemma PushOk(t: Tracker, frames: seq<AuthStackFrame>, frame: AuthStackFrame)
    requires TrackerOk(t, frames)
    ensures TrackerOk(PushFrame(t), frames + [frame])
  {
    if IsActive(t) {
      WalkOkPush(t.root, t.stack, t.rootFrame.value + 1, frames, frame);
    }
  }

  lemma PopOk(t: Tracker, frames: seq<AuthStackFrame>)
    requires TrackerOk(t, frames) && frames != []
    ensures TrackerOk(PopFrame(t), frames[..|frames| - 1])
  {
    if IsActive(t) && t.rootFrame.value < |t.stack| - 1 {
      WalkOkPop(t.root, t.stack, t.rootFrame.value + 1, frames);
    }
  }

  /** A match uses exactly one unused node, whose parent is used, and keeps the rest. */
  lemma MatchOk(t: Tracker, f: AuthorizedFunction, allowRoot: bool, frames: seq<AuthStackFrame>)
    requires TrackerOk(t, frames) && frames != [] && FrameOf(f) == frames[|frames| - 1]
    ensures !TryMatch(t, f, allowRoot).Fault?
    ensures var r := TryMatch(t, f, allowRoot);
            r.Matched? ==>
              && TrackerOk(r.tracker, frames)
              && ValidPath(t.root, r.path) && !Flag(t.root, r.path)
              && NodeAt(t.root, r.path).function_ == f
              && r.tracker.root == Exhaust(t.root, r.path)
              && IsActive(r.tracker)
              && CurrentFrameMatched(r.tracker)
              && !CurrentFrameMatched(t)
              && r.tracker.stack[..|frames| - 1] == t.stack[..|frames| - 1]
              && (r.path == [] <==> !t.root.exhausted)
              && (t.root.exhausted ==> r.tracker.rootFrame == t.rootFrame && r.tracker.processed == t.processed)
              && (r.path == [] ==> allowRoot && r.tracker.rootFrame == Some(|frames| - 1))
  {
    LastIsFold(t, frames);
    var r := TryMatch(t, f, allowRoot);
    if r.Matched? {
      if IsActive(t) {
        MatchSubOk(t, f, frames);
      } else {
        assert Exhaust(t.root, []) == t.root.(exhausted := true);
        ExhaustClosed(t.root, []);
      }
    }
  }

  lemma MatchSubOk(t: Tracker, f: AuthorizedFunction, frames: seq<AuthStackFrame>)
    requires TrackerOk(t, frames) && frames != [] && FrameOf(f) == frames[|frames| - 1]
    requires IsActive(t) && !CurrentFrameMatched(t)
    requires ValidPath(t.root, IndicesFrom(t.stack, t.rootFrame.value + 1))
    requires FindSub(NodeAt(t.root, IndicesFrom(t.stack, t.rootFrame.value + 1)).subs, f, 0).Some?
    ensures var p := IndicesFrom(t.stack, t.rootFrame.value + 1);
            var j := FindSub(NodeAt(t.root, p).subs, f, 0).value;
            && ValidPath(t.root, p + [j]) && !Flag(t.root, p + [j])
            && NodeAt(t.root, p + [j]).function_ == f
            && TrackerOk(MatchSub(t, p, j), frames)
            && MatchSub(t, p, j).root.exhausted
  {
    var r := t.rootFrame.value;
    var p := IndicesFrom(t.stack, r + 1);
    var j := FindSub(NodeAt(t.root, p).subs, f, 0).value;
    ChildPath(t.root, p, j);
    var t' := MatchSub(t, p, j);
    WalkIsFold(t.root, t.stack, r + 1, frames);
    WalkOkExtend(t.root, t.stack, r + 1, frames, j);
    assert (p + [j])[..|p + [j]| - 1] == p;
    ExhaustClosed(t.root, p + [j]);
    ExhaustFlagsLe(t.root, p + [j]);
  }

  // ---------- what a nested run leaves of a tracker ----------

  /** `t` evolved from `t0` while the bottom `d` frames stayed: same tree, same matches
      below `d`, and an already started tracker kept its root frame and its progress. */
  ghost predicate Extends(d: nat, t0: Tracker, t: Tracker) {
    && SameShape(t.root, t0.root)
    && d <= |t0.stack| && d <= |t.stack|
    && t.stack[..d] == t0.stack[..d]
    && (t0.root.exhausted ==> t.root.exhausted && t.rootFrame == t0.rootFrame && t.processed == t0.processed)
  }

  lemma ExtendsRefl(t: Tracker)
    ensures Extends(|t.stack|, t, t)
  {
    SameShapeRefl(t.root);
  }

  lemma ExtendsTrans(d: nat, d': nat, t0: Tracker, t1: Tracker, t2: Tracker)
    requires Extends(d, t0, t1) && Extends(d', t1, t2) && d <= d'
    ensures Extends(d, t0, t2)
  {
    SameShapeTrans(t2.root, t1.root, t0.root);
    assert t2.stack[..d] == t2.stack[..d'][..d];
    assert t1.stack[..d] == t1.stack[..d'][..d];
  }

  lemma MatchExtends(t: Tracker, f: AuthorizedFunction, allowRoot: bool, frames: seq<AuthStackFrame>)
    requires TrackerOk(t, frames) && frames != [] && FrameOf(f) == frames[|frames| - 1]
    requires TryMatch(t, f, allowRoot).Matched?
    ensures Extends(|frames| - 1, t, TryMatch(t, f, allowRoot).tracker)
  {
    var r := TryMatch(t, f, allowRoot);
    MatchOk(t, f, allowRoot, frames);
    ExhaustFlagsLe(t.root, r.path);
    FlagsLeShape(t.root, r.tracker.root);
    ShapeSym(t.root, r.tracker.root);
  }

  lemma {:induction false} ShapeSym(a: Invocation, b: Invocation)
    requires SameShape(a, b)
    ensures SameShape(b, a)
  {
    forall i | 0 <= i < |b.subs| ensures SameShape(b.subs[i], a.subs[i]) {
      ShapeSym(a.subs[i], b.subs[i]);
    }
  }

  lemma PushExtends(t: Tracker)
    ensures Extends(|t.stack|, t, PushFrame(t))
  {
    SameShapeRefl(t.root);
  }

  /** Popping the one frame above `t0` again. */
  lemma PopExtends(t0: Tracker, t: Tracker, frames0: seq<AuthStackFrame>)
    requires TrackerOk(t0, frames0)
    requires Extends(|t0.stack|, t0, t) && |t.stack| == |t0.stack| + 1
    ensures Extends(|t0.stack|, t0, PopFrame(t))
  {
  }

  /** The snapshot omits the match stack, the root frame and the progress flag; still,
      rolling back and popping the frame gives back the tracker as it was. */
  lemma RollbackRestores(t0: Tracker, t: Tracker, frames0: seq<AuthStackFrame>)
    requires TrackerOk(t0, frames0)
    requires Extends(|t0.stack|, t0, t)
    ensures RollbackTracker(t, TakeSnapshot(t0.root)).Some?
    ensures |t.stack| == |t0.stack| ==> RollbackTracker(t, TakeSnapshot(t0.root)).value == t0
    ensures |t.stack| == |t0.stack| + 1 ==> PopFrame(RollbackTracker(t, TakeSnapshot(t0.root)).value) == t0
  {
    RollbackExact(t.root, t0.root);
    var t1 := RollbackTracker(t, TakeSnapshot(t0.root)).value;
    assert t1.root == t0.root && t1.stack == t.stack;
    assert t.stack[..|t0.stack|] == t0.stack;
    if |t.stack| == |t0.stack| {
      assert t.stack == t0.stack;
    }
  }
}
