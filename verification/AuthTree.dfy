/** The authorized invocation tree: paths, flags, the walk along a match stack,
    snapshots and their rollback. */
module AuthTree {
  import opened Wrappers
  import opened AuthTypes

  // ---------- paths ----------

  predicate ValidPath(t: Invocation, p: Path)
    decreases |p|
  {
    p == [] || (p[0] < |t.subs| && ValidPath(t.subs[p[0]], p[1..]))
  }

  function NodeAt(t: Invocation, p: Path): Invocation
    requires ValidPath(t, p)
    decreases |p|
  {
    if p == [] then t else NodeAt(t.subs[p[0]], p[1..])
  }

  function Replace(t: Invocation, p: Path, n: Invocation): Invocation
    requires ValidPath(t, p)
    decreases |p|
  {
    if p == [] then n
    else t.(subs := t.subs[p[0] := Replace(t.subs[p[0]], p[1..], n)])
  }

  /** Marks the node at `p` as used. */
  function Exhaust(t: Invocation, p: Path): Invocation
    requires ValidPath(t, p)
  {
    Replace(t, p, NodeAt(t, p).(exhausted := true))
  }

  predicate Flag(t: Invocation, p: Path) {
    ValidPath(t, p) && NodeAt(t, p).exhausted
  }

  /** Adds a used child to the node at `p`. */
  function Append(t: Invocation, p: Path, f: AuthorizedFunction): Invocation
    requires ValidPath(t, p)
  {
    var node := NodeAt(t, p);
    Replace(t, p, node.(subs := node.subs + [Invocation(f, [], true)]))
  }

  lemma {:induction false} PathConcat(t: Invocation, p: Path, q: Path)
    requires ValidPath(t, p)
    ensures ValidPath(t, p + q) <==> ValidPath(NodeAt(t, p), q)
    ensures ValidPath(t, p + q) ==> NodeAt(t, p + q) == NodeAt(NodeAt(t, p), q)
    decreases |p|
  {
    if p == [] {
      assert p + q == q;
    } else {
      assert (p + q)[1..] == p[1..] + q;
      PathConcat(t.subs[p[0]], p[1..], q);
    }
  }

  // ---------- shape ----------

  ghost predicate SameShape(a: Invocation, b: Invocation) {
    && a.function_ == b.function_
    && |a.subs| == |b.subs|
    && forall i :: 0 <= i < |a.subs| ==> SameShape(a.subs[i], b.subs[i])
  }

  /** Same shape, and every node used in `a` is used in `b`. */
  ghost predicate FlagsLe(a: Invocation, b: Invocation) {
    && a.function_ == b.function_
    && |a.subs| == |b.subs|
    && (a.exhausted ==> b.exhausted)
    && forall i :: 0 <= i < |a.subs| ==> FlagsLe(a.subs[i], b.subs[i])
  }

  lemma {:induction false} SameShapeRefl(t: Invocation)
    ensures SameShape(t, t)
  {
    forall i | 0 <= i < |t.subs| ensures SameShape(t.subs[i], t.subs[i]) {
      SameShapeRefl(t.subs[i]);
    }
  }

  lemma {:induction false} SameShapeTrans(a: Invocation, b: Invocation, c: Invocation)
    requires SameShape(a, b) && SameShape(b, c)
    ensures SameShape(a, c)
  {
    forall i | 0 <= i < |a.subs| ensures SameShape(a.subs[i], c.subs[i]) {
      SameShapeTrans(a.subs[i], b.subs[i], c.subs[i]);
    }
  }

  lemma {:induction false} FlagsLeRefl(t: Invocation)
    ensures FlagsLe(t, t)
  {
    forall i | 0 <= i < |t.subs| ensures FlagsLe(t.subs[i], t.subs[i]) {
      FlagsLeRefl(t.subs[i]);
    }
  }

  lemma {:induction false} FlagsLeShape(a: Invocation, b: Invocation)
    requires FlagsLe(a, b)
    ensures SameShape(a, b)
  {
    forall i | 0 <= i < |a.subs| ensures SameShape(a.subs[i], b.subs[i]) {
      FlagsLeShape(a.subs[i], b.subs[i]);
    }
  }

  /** Using one more node changes that flag and nothing else. */
  lemma {:induction false} ExhaustEffect(t: Invocation, p: Path, q: Path)
    requires ValidPath(t, p)
    ensures ValidPath(Exhaust(t, p), q) <==> ValidPath(t, q)
    ensures Flag(Exhaust(t, p), q) <==> Flag(t, q) || q == p
    decreases |p|
  {
    if p == [] {
      if q != [] {
        assert Exhaust(t, p).subs == t.subs;
      }
    } else if q != [] && q[0] < |t.subs| {
      if q[0] == p[0] {
        assert (q[1..] == p[1..]) <==> (q == p) by {
          assert q == [q[0]] + q[1..] && p == [p[0]] + p[1..];
        }
        ExhaustEffect(t.subs[p[0]], p[1..], q[1..]);
      }
    }
  }

  lemma {:induction false} ExhaustFlagsLe(t: Invocation, p: Path)
    requires ValidPath(t, p)
    ensures FlagsLe(t, Exhaust(t, p))
    decreases |p|
  {
    var t' := Exhaust(t, p);
    forall i | 0 <= i < |t.subs| ensures FlagsLe(t.subs[i], t'.subs[i]) {
      if p != [] && i == p[0] {
        ExhaustFlagsLe(t.subs[i], p[1..]);
      } else {
        FlagsLeRefl(t.subs[i]);
      }
    }
  }

  lemma {:induction false} AppendEffect(t: Invocation, p: Path, f: AuthorizedFunction, q: Path)
    requires ValidPath(t, p)
    ensures Flag(Append(t, p, f), q) <==> Flag(t, q) || q == p + [|NodeAt(t, p).subs|]
    decreases |p|
  {
    var j := |NodeAt(t, p).subs|;
    var t' := Append(t, p, f);
    if p == [] {
      assert t'.subs == t.subs + [Invocation(f, [], true)];
      assert p + [j] == [j];
      if q != [] && q[0] == j {
        assert q == [j] + q[1..];
        assert Flag(t'.subs[j], q[1..]) <==> q[1..] == [];
      } else {
        assert q != [] && q[0] < j ==> t'.subs[q[0]] == t.subs[q[0]];
      }
    } else {
      assert t'.subs == t.subs[p[0] := Append(t.subs[p[0]], p[1..], f)];
      assert p + [j] == [p[0]] + (p[1..] + [j]);
      if q != [] {
        assert q == [q[0]] + q[1..];
        if q[0] == p[0] { AppendEffect(t.subs[p[0]], p[1..], f, q[1..]); }
      }
    }
  }

  // ---------- parents before children ----------

  ghost predicate AllExhausted(t: Invocation) {
    t.exhausted && forall i :: 0 <= i < |t.subs| ==> AllExhausted(t.subs[i])
  }

  ghost predicate NoneExhausted(t: Invocation) {
    !t.exhausted && forall i :: 0 <= i < |t.subs| ==> NoneExhausted(t.subs[i])
  }

  /** The used nodes are closed under parents. */
  ghost predicate ParentClosed(t: Invocation) {
    && (t.exhausted || NoneExhausted(t))
    && forall i :: 0 <= i < |t.subs| ==> ParentClosed(t.subs[i])
  }

  lemma {:induction false} NoneExhaustedClosed(t: Invocation)
    requires NoneExhausted(t)
    ensures ParentClosed(t)
  {
    forall i | 0 <= i < |t.subs| ensures ParentClosed(t.subs[i]) {
      NoneExhaustedClosed(t.subs[i]);
    }
  }

  lemma {:induction false} NoneExhaustedFlags(t: Invocation, p: Path)
    requires NoneExhausted(t)
    ensures !Flag(t, p)
    decreases |p|
  {
    if p != [] && p[0] < |t.subs| {
      NoneExhaustedFlags(t.subs[p[0]], p[1..]);
    }
  }

  /** `ParentClosed` read as a statement about paths. */
  lemma {:induction false} ParentClosedPaths(t: Invocation, p: Path, k: nat)
    requires ParentClosed(t) && Flag(t, p) && k <= |p|
    ensures Flag(t, p[..k])
    decreases |p|
  {
    if k == 0 {
      if !t.exhausted { NoneExhaustedFlags(t, p); }
    } else {
      assert p[..k][1..] == p[1..][..k - 1];
      ParentClosedPaths(t.subs[p[0]], p[1..], k - 1);
    }
  }

  /** A node may be used once its parent is. */
  lemma {:induction false} ExhaustClosed(t: Invocation, p: Path)
    requires ParentClosed(t) && ValidPath(t, p)
    requires p == [] || Flag(t, p[..|p| - 1])
    ensures ParentClosed(Exhaust(t, p))
    decreases |p|
  {
    if p != [] {
      var i := p[0];
      assert t.exhausted by { ValidPrefix(t, p, |p| - 1); ParentClosedPaths(t, p[..|p| - 1], 0); }
      if |p| > 1 {
        assert p[..|p| - 1][1..] == p[1..][..|p| - 2];
      }
      ExhaustClosed(t.subs[i], p[1..]);
      assert Exhaust(t, p).subs == t.subs[i := Exhaust(t.subs[i], p[1..])];
    }
  }

  lemma {:induction false} ValidPrefix(t: Invocation, p: Path, k: nat)
    requires ValidPath(t, p) && k <= |p|
    ensures ValidPath(t, p[..k])
    decreases |p|
  {
    if k > 0 {
      assert p[..k][1..] == p[1..][..k - 1];
      ValidPrefix(t.subs[p[0]], p[1..], k - 1);
    }
  }

  // ---------- counting used nodes ----------

  function CountExhausted(t: Invocation): nat
    decreases t, 1
  {
    (if t.exhausted then 1 else 0) + CountAll(t.subs)
  }

  function CountAll(ts: seq<Invocation>): nat
    decreases ts, 0
  {
    if ts == [] then 0 else CountExhausted(ts[0]) + CountAll(ts[1..])
  }

  lemma {:induction false} CountUpdate(ts: seq<Invocation>, i: nat, t: Invocation)
    requires i < |ts|
    ensures CountAll(ts[i := t]) == CountAll(ts) - CountExhausted(ts[i]) + CountExhausted(t)
    decreases |ts|
  {
    if i == 0 {
      assert ts[0 := t][1..] == ts[1..];
    } else {
      assert ts[i := t][1..] == ts[1..][i - 1 := t];
      CountUpdate(ts[1..], i - 1, t);
    }
  }

  lemma {:induction false} CountNone(t: Invocation)
    requires NoneExhausted(t)
    ensures CountExhausted(t) == 0
    decreases t, 1
  {
    CountNoneAll(t.subs);
  }

  lemma {:induction false} CountNoneAll(ts: seq<Invocation>)
    requires forall i :: 0 <= i < |ts| ==> NoneExhausted(ts[i])
    ensures CountAll(ts) == 0
    decreases ts, 0
  {
    if ts != [] {
      CountNone(ts[0]);
      CountNoneAll(ts[1..]);
    }
  }

  lemma {:induction false} CountExhaust(t: Invocation, p: Path)
    requires ValidPath(t, p) && !Flag(t, p)
    ensures CountExhausted(Exhaust(t, p)) == CountExhausted(t) + 1
    decreases |p|
  {
    if p != [] {
      CountExhaust(t.subs[p[0]], p[1..]);
      CountUpdate(t.subs, p[0], Exhaust(t.subs[p[0]], p[1..]));
    }
  }

  lemma {:induction false} CountSnoc(ts: seq<Invocation>, t: Invocation)
    ensures CountAll(ts + [t]) == CountAll(ts) + CountExhausted(t)
    decreases |ts|
  {
    if ts == [] {
      assert ts + [t] == [t] && [t][1..] == [];
    } else {
      assert (ts + [t])[1..] == ts[1..] + [t];
      CountSnoc(ts[1..], t);
    }
  }

  lemma {:induction false} CountAppended(t: Invocation, p: Path, f: AuthorizedFunction)
    requires ValidPath(t, p)
    ensures CountExhausted(Append(t, p, f)) == CountExhausted(t) + 1
    decreases |p|
  {
    if p == [] {
      CountSnoc(t.subs, Invocation(f, [], true));
    } else {
      CountAppended(t.subs[p[0]], p[1..], f);
      CountUpdate(t.subs, p[0], Append(t.subs[p[0]], p[1..], f));
    }
  }

  /** `t'` uses what `t` does, and the node at `p`. */
  ghost predicate UsesOneMore(t: Invocation, t': Invocation, p: Path) {
    && !Flag(t, p) && CountExhausted(t') == CountExhausted(t) + 1
    && forall q :: Flag(t', q) <==> Flag(t, q) || q == p
  }

  lemma ExhaustUses(t: Invocation, p: Path)
    requires ValidPath(t, p) && !Flag(t, p)
    ensures UsesOneMore(t, Exhaust(t, p), p)
  {
    CountExhaust(t, p);
    forall q ensures Flag(Exhaust(t, p), q) <==> Flag(t, q) || q == p { ExhaustEffect(t, p, q); }
  }

  lemma AppendUses(t: Invocation, p: Path, f: AuthorizedFunction)
    requires ValidPath(t, p)
    ensures UsesOneMore(t, Append(t, p, f), p + [|NodeAt(t, p).subs|])
  {
    CountAppended(t, p, f);
    PathConcat(t, p, [|NodeAt(t, p).subs|]);
    forall q ensures Flag(Append(t, p, f), q) <==> Flag(t, q) || q == p + [|NodeAt(t, p).subs|] { AppendEffect(t, p, f, q); }
  }

  // ---------- snapshot and rollback ----------

  function TakeSnapshot(t: Invocation): InvocationSnapshot {
    InvocationSnapshot(t.exhausted,
      seq(|t.subs|, i requires 0 <= i < |t.subs| => TakeSnapshot(t.subs[i])))
  }

  /** Restores the flags; `None` is the internal error of a shape mismatch. */
  function RollbackTree(t: Invocation, snap: InvocationSnapshot): Option<Invocation>
    decreases t, 1
  {
    if |t.subs| != |snap.subs| then None
    else
      match RollbackAll(t.subs, snap.subs)
      case None => None
      case Some(subs) => Some(Invocation(t.function_, subs, snap.exhausted))
  }

  function RollbackAll(ts: seq<Invocation>, snaps: seq<InvocationSnapshot>): Option<seq<Invocation>>
    requires |ts| == |snaps|
    decreases ts, 0
  {
    if ts == [] then Some([])
    else
      match RollbackTree(ts[0], snaps[0])
      case None => None
      case Some(t) =>
        match RollbackAll(ts[1..], snaps[1..])
        case None => None
        case Some(rest) => Some([t] + rest)
  }

  /** A snapshot keeps flags only, yet it brings back the whole tree. */
  lemma {:induction false} RollbackExact(t: Invocation, t0: Invocation)
    requires SameShape(t, t0)
    ensures RollbackTree(t, TakeSnapshot(t0)) == Some(t0)
    decreases t, 1
  {
    RollbackAllExact(t.subs, t0.subs, TakeSnapshot(t0).subs);
  }

  lemma {:induction false} RollbackAllExact(ts: seq<Invocation>, ts0: seq<Invocation>, snaps: seq<InvocationSnapshot>)
    requires |ts| == |ts0| == |snaps|
    requires forall i :: 0 <= i < |ts| ==> SameShape(ts[i], ts0[i]) && snaps[i] == TakeSnapshot(ts0[i])
    ensures RollbackAll(ts, snaps) == Some(ts0)
    decreases ts, 0
  {
    if ts != [] {
      RollbackExact(ts[0], ts0[0]);
      RollbackAllExact(ts[1..], ts0[1..], snaps[1..]);
      assert ts0 == [ts0[0]] + ts0[1..];
    }
  }

  // ---------- conversion from and to entries ----------

  function FromXdr(x: XdrInvocation): Invocation {
    Invocation(x.function_,
      seq(|x.subs|, i requires 0 <= i < |x.subs| => FromXdr(x.subs[i])),
      false)
  }

  /** With `exhaustedOnly`, unused sub-invocations are left out. */
  function ToXdr(t: Invocation, exhaustedOnly: bool): XdrInvocation
    decreases t, 1
  {
    XdrInvocation(t.function_, ToXdrAll(t.subs, exhaustedOnly))
  }

  function ToXdrAll(ts: seq<Invocation>, exhaustedOnly: bool): seq<XdrInvocation>
    decreases ts, 0
  {
    if ts == [] then []
    else if ts[0].exhausted || !exhaustedOnly then
      [ToXdr(ts[0], exhaustedOnly)] + ToXdrAll(ts[1..], exhaustedOnly)
    else ToXdrAll(ts[1..], exhaustedOnly)
  }

  lemma {:induction false} FromXdrUnused(x: XdrInvocation)
    ensures NoneExhausted(FromXdr(x))
  {
    forall i | 0 <= i < |x.subs| ensures NoneExhausted(FromXdr(x).subs[i]) {
      FromXdrUnused(x.subs[i]);
    }
  }

  // ---------- the walk along a match stack ----------

  /** `AuthorizedInvocation::last_authorized_invocation_mut`: the path from `t`
      to the deepest matched node, starting at stack position `k`. */
  function Walk(t: Invocation, stack: seq<MatchState>, k: nat): (r: Option<Path>)
    ensures r.Some? ==> ValidPath(t, r.value)
    decreases |stack| - k
  {
    if k >= |stack| then Some([])
    else
      match stack[k]
      case Unmatched => Walk(t, stack, k + 1)
      case RootMatch => None
      case SubMatch(i) =>
        if i >= |t.subs| then None
        else
          match Walk(t.subs[i], stack, k + 1)
          case None => None
          case Some(p) =>
            assert ([i] + p)[1..] == p;
            Some([i] + p)
  }

  /** The plain fold: the child indices recorded on the stack, in order. */
  function IndicesFrom(stack: seq<MatchState>, k: nat): Path
    decreases |stack| - k
  {
    if k >= |stack| then []
    else
      match stack[k]
      case SubMatch(i) => [i] + IndicesFrom(stack, k + 1)
      case _ => IndicesFrom(stack, k + 1)
  }

  /** What a walk relies on: the indices from `k` on lead through used nodes
      whose functions belong to the frames they were matched at. */
  ghost predicate WalkOk(t: Invocation, stack: seq<MatchState>, k: nat, frames: seq<AuthStackFrame>)
    requires |stack| == |frames|
    decreases |stack| - k
  {
    k >= |stack| ||
    match stack[k]
    case Unmatched => WalkOk(t, stack, k + 1, frames)
    case RootMatch => false
    case SubMatch(i) =>
      && i < |t.subs|
      && t.subs[i].exhausted
      && FrameOf(t.subs[i].function_) == frames[k]
      && WalkOk(t.subs[i], stack, k + 1, frames)
  }

  /** The walk never fails and ends where the fold leads. */
  lemma {:induction false} WalkIsFold(t: Invocation, stack: seq<MatchState>, k: nat, frames: seq<AuthStackFrame>)
    requires |stack| == |frames| && WalkOk(t, stack, k, frames)
    ensures Walk(t, stack, k) == Some(IndicesFrom(stack, k))
    ensures ValidPath(t, IndicesFrom(stack, k))
    ensures t.exhausted ==> Flag(t, IndicesFrom(stack, k))
    decreases |stack| - k
  {
    if k < |stack| {
      match stack[k]
      case SubMatch(i) =>
        WalkIsFold(t.subs[i], stack, k + 1, frames);
        assert ([i] + IndicesFrom(stack, k + 1))[1..] == IndicesFrom(stack, k + 1);
      case RootMatch =>
      case Unmatched =>
        WalkIsFold(t, stack, k + 1, frames);
    }
  }

  lemma {:induction false} WalkOkPush(t: Invocation, stack: seq<MatchState>, k: nat, frames: seq<AuthStackFrame>, frame: AuthStackFrame)
    requires |stack| == |frames| && WalkOk(t, stack, k, frames)
    ensures WalkOk(t, stack + [Unmatched], k, frames + [frame])
    decreases |stack| - k
  {
    if k < |stack| {
      match stack[k]
      case SubMatch(i) =>
        WalkOkPush(t.subs[i], stack, k + 1, frames, frame);
      case RootMatch =>
      case Unmatched =>
        WalkOkPush(t, stack, k + 1, frames, frame);
    }
  }

  lemma {:induction false} WalkOkPop(t: Invocation, stack: seq<MatchState>, k: nat, frames: seq<AuthStackFrame>)
    requires |stack| == |frames| > 0 && WalkOk(t, stack, k, frames)
    ensures WalkOk(t, stack[..|stack| - 1], k, frames[..|frames| - 1])
    decreases |stack| - k
  {
    if k < |stack| - 1 {
      match stack[k]
      case SubMatch(i) =>
        WalkOkPop(t.subs[i], stack, k + 1, frames);
      case RootMatch =>
      case Unmatched =>
        WalkOkPop(t, stack, k + 1, frames);
    }
  }

  /** Matching the top frame with child `j` of the node the walk ends at. */
  lemma {:induction false} WalkOkExtend(t: Invocation, stack: seq<MatchState>, k: nat, frames: seq<AuthStackFrame>, j: nat)
    requires |stack| == |frames| && k < |stack| && WalkOk(t, stack, k, frames)
    requires stack[|stack| - 1] == Unmatched
    requires ValidPath(t, IndicesFrom(stack, k)) && j < |NodeAt(t, IndicesFrom(stack, k)).subs|
    requires FrameOf(NodeAt(t, IndicesFrom(stack, k)).subs[j].function_) == frames[|frames| - 1]
    ensures ValidPath(t, IndicesFrom(stack, k) + [j])
    ensures WalkOk(Exhaust(t, IndicesFrom(stack, k) + [j]), stack[|stack| - 1 := SubMatch(j)], k, frames)
    decreases |stack| - k
  {
    var n := |stack|;
    var p := IndicesFrom(stack, k);
    PathConcat(t, p, [j]);
    if k == n - 1 {
      assert p == [] && p + [j] == [j];
      var stack' := stack[n - 1 := SubMatch(j)];
      var t' := Exhaust(t, [j]);
      assert t'.subs[j] == Exhaust(t.subs[j], []);
      assert stack'[k] == SubMatch(j) && WalkOk(t'.subs[j], stack', k + 1, frames);
    } else {
      match stack[k]
      case SubMatch(i) =>
        var q := IndicesFrom(stack, k + 1);
        assert p == [i] + q;
        assert p[1..] == q;
        WalkOkExtend(t.subs[i], stack, k + 1, frames, j);
        assert (p + [j])[0] == i && (p + [j])[1..] == q + [j];
        var t' := Exhaust(t, p + [j]);
        assert t'.subs[i] == Exhaust(t.subs[i], q + [j]);
        ExhaustFlagsLe(t.subs[i], q + [j]);
      case Unmatched =>
        WalkOkExtend(t, stack, k + 1, frames, j);
      case RootMatch =>
    }
  }
}
