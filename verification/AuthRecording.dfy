/** What recording does to one tracker: the trees it builds, and what enforcing makes of the
    final tree at every stage. */
module AuthRecording {
  import opened Wrappers
  import opened AuthTypes
  import opened AuthTree
  import opened InvocationTracking
  import opened AuthMachine

  // ---------- recorded trees and their replay ----------

  /** A tree with no node used. */
  function Clear(t: Invocation): Invocation {
    Invocation(t.function_, seq(|t.subs|, i requires 0 <= i < |t.subs| => Clear(t.subs[i])), false)
  }

  /** `b` is `a` with children appended, anywhere. */
  ghost predicate Grows(a: Invocation, b: Invocation) {
    && a.function_ == b.function_
    && |a.subs| <= |b.subs|
    && forall i :: 0 <= i < |a.subs| ==> Grows(a.subs[i], b.subs[i])
  }

  /** The tree of `b` with exactly the nodes of `a` used. */
  ghost function Mask(a: Invocation, b: Invocation): Invocation
    requires Grows(a, b)
  {
    Invocation(
      b.function_,
      seq(|b.subs|, i requires 0 <= i < |b.subs| =>
        if i < |a.subs| then Mask(a.subs[i], b.subs[i]) else Clear(b.subs[i])),
      true)
  }

  lemma {:induction false} ToXdrAllFull(ts: seq<Invocation>)
    ensures |ToXdrAll(ts, false)| == |ts|
    ensures forall i :: 0 <= i < |ts| ==> ToXdrAll(ts, false)[i] == ToXdr(ts[i], false)
    decreases |ts|
  {
    if ts != [] { ToXdrAllFull(ts[1..]); }
  }

  /** An exported tree read back is the tree with its flags reset. */
  lemma {:induction false} XdrRoundTrip(t: Invocation)
    ensures FromXdr(ToXdr(t, false)) == Clear(t)
  {
    ToXdrAllFull(t.subs);
    forall i | 0 <= i < |t.subs| ensures FromXdr(ToXdr(t, false).subs[i]) == Clear(t.subs[i]) {
      XdrRoundTrip(t.subs[i]);
    }
  }

  lemma {:induction false} FromXdrAllBack(xs: seq<XdrInvocation>, ts: seq<Invocation>)
    requires |ts| == |xs| && forall i :: 0 <= i < |xs| ==> ToXdr(ts[i], false) == xs[i]
    ensures ToXdrAll(ts, false) == xs
    decreases |xs|
  {
    if xs != [] {
      FromXdrAllBack(xs[1..], ts[1..]);
      assert xs == [xs[0]] + xs[1..];
    }
  }

  /** A submitted tree read in and exported is the tree submitted. */
  lemma {:induction false} XdrBack(x: XdrInvocation)
    ensures ToXdr(FromXdr(x), false) == x
  {
    forall i | 0 <= i < |x.subs| ensures ToXdr(FromXdr(x).subs[i], false) == x.subs[i] { XdrBack(x.subs[i]); }
    FromXdrAllBack(x.subs, FromXdr(x).subs);
  }

  function XdrSize(x: XdrInvocation): nat
    decreases x, 1
  {
    1 + XdrSizeAll(x.subs)
  }

  function XdrSizeAll(xs: seq<XdrInvocation>): nat
    decreases xs, 0
  {
    if xs == [] then 0 else XdrSize(xs[0]) + XdrSizeAll(xs[1..])
  }

  /** Exporting used nodes only exports exactly those. */
  lemma {:induction false} UsedPart(t: Invocation)
    requires ParentClosed(t) && t.exhausted
    ensures XdrSize(ToXdr(t, true)) == CountExhausted(t)
    ensures AllExhausted(t) ==> ToXdr(t, true) == ToXdr(t, false)
    decreases t, 1
  {
    UsedParts(t.subs);
  }

  lemma {:induction false} UsedParts(ts: seq<Invocation>)
    requires forall i :: 0 <= i < |ts| ==> ParentClosed(ts[i])
    ensures XdrSizeAll(ToXdrAll(ts, true)) == CountAll(ts)
    ensures (forall i :: 0 <= i < |ts| ==> AllExhausted(ts[i])) ==> ToXdrAll(ts, true) == ToXdrAll(ts, false)
    decreases ts, 0
  {
    if ts != [] {
      if ts[0].exhausted {
        UsedPart(ts[0]);
        assert ToXdrAll(ts, true)[1..] == ToXdrAll(ts[1..], true);
      } else {
        CountNone(ts[0]);
      }
      UsedParts(ts[1..]);
    }
  }

  lemma {:induction false} GrowsRefl(t: Invocation)
    ensures Grows(t, t)
  {
    forall i | 0 <= i < |t.subs| ensures Grows(t.subs[i], t.subs[i]) { GrowsRefl(t.subs[i]); }
  }

  lemma {:induction false} GrowsTrans(a: Invocation, b: Invocation, c: Invocation)
    requires Grows(a, b) && Grows(b, c)
    ensures Grows(a, c)
  {
    forall i | 0 <= i < |a.subs| ensures Grows(a.subs[i], c.subs[i]) { GrowsTrans(a.subs[i], b.subs[i], c.subs[i]); }
  }

  lemma {:induction false} MaskSelf(t: Invocation)
    requires AllExhausted(t)
    ensures Grows(t, t) && Mask(t, t) == t
  {
    GrowsRefl(t);
    forall i | 0 <= i < |t.subs| ensures Mask(t, t).subs[i] == t.subs[i] { MaskSelf(t.subs[i]); }
  }

  lemma {:induction false} AppendGrows(t: Invocation, p: Path, f: AuthorizedFunction)
    requires ValidPath(t, p)
    ensures Grows(t, Append(t, p, f))
    ensures AllExhausted(t) ==> AllExhausted(Append(t, p, f))
    decreases |p|
  {
    var t' := Append(t, p, f);
    forall i | 0 <= i < |t.subs| ensures Grows(t.subs[i], t'.subs[i]) {
      if p != [] && i == p[0] { AppendGrows(t.subs[i], p[1..], f); } else { GrowsRefl(t.subs[i]); }
    }
    if p != [] { AppendGrows(t.subs[p[0]], p[1..], f); }
  }

  /** Replaying the next recorded child: it is the first unused child with its function, and
      using it turns the mask of the old tree into the mask of the new one. */
  lemma {:induction false} MaskAppend(t: Invocation, p: Path, f: AuthorizedFunction, b: Invocation)
    requires ValidPath(t, p) && Grows(t, b) && Grows(Append(t, p, f), b) && AllExhausted(t)
    ensures var j := |NodeAt(t, p).subs|;
            var m := Mask(t, b);
            && ValidPath(m, p)
            && j < |NodeAt(m, p).subs|
            && NodeAt(m, p).subs[j].function_ == f && !NodeAt(m, p).subs[j].exhausted
            && (forall k :: 0 <= k < j ==> NodeAt(m, p).subs[k].exhausted)
            && ValidPath(m, p + [j])
            && Exhaust(m, p + [j]) == Mask(Append(t, p, f), b)
    decreases |p|
  {
    var j := |NodeAt(t, p).subs|;
    var m := Mask(t, b);
    var t' := Append(t, p, f);
    if p == [] {
      assert t'.subs[j] == Invocation(f, [], true);
      assert Grows(t'.subs[j], b.subs[j]);
      assert m.subs[j] == Clear(b.subs[j]);
      assert p + [j] == [j];
      assert [j][1..] == [] && NodeAt(m, [j]) == m.subs[j];
      var used := m.subs[j].(exhausted := true);
      assert Replace(m.subs[j], [], used) == used && ValidPath(m, [j]);
      assert Exhaust(m, [j]) == Replace(m, [j], used) == m.(subs := m.subs[j := used]);
      assert Mask(t'.subs[j], b.subs[j]).subs == Clear(b.subs[j]).subs;
      assert Exhaust(m, [j]).subs == Mask(t', b).subs;
    } else {
      var i := p[0];
      assert t'.subs[i] == Append(t.subs[i], p[1..], f);
      MaskAppend(t.subs[i], p[1..], f, b.subs[i]);
      assert (p + [j])[1..] == p[1..] + [j];
      assert Exhaust(m, p + [j]).subs[i] == Mask(t'.subs[i], b.subs[i]);
      assert Exhaust(m, p + [j]).subs == Mask(t', b).subs;
    }
  }

  lemma {:induction false} WalkMask(t: Invocation, b: Invocation, stack: seq<MatchState>, k: nat)
    requires Grows(t, b) && Walk(t, stack, k).Some?
    ensures Walk(Mask(t, b), stack, k) == Walk(t, stack, k)
    decreases |stack| - k
  {
    if k < |stack| {
      match stack[k]
      case Unmatched => WalkMask(t, b, stack, k + 1);
      case RootMatch =>
      case SubMatch(i) =>
        assert Mask(t, b).subs[i] == Mask(t.subs[i], b.subs[i]);
        WalkMask(t.subs[i], b.subs[i], stack, k + 1);
    }
  }

  lemma {:induction false} LastMask(t: Tracker, b: Invocation, k: nat)
    requires Grows(t.root, b) && LastInvocation(t, k) != WalkError
    ensures LastInvocation(t.(root := Mask(t.root, b)), k) == LastInvocation(t, k)
    decreases |t.stack| - k
  {
    if k < |t.stack| {
      match t.stack[k]
      case Unmatched => LastMask(t, b, k + 1);
      case SubMatch(_) =>
      case RootMatch => WalkMask(t.root, b, t.stack, k + 1);
    }
  }

  // ---------- a masked tracker matches what the recorder recorded ----------

  function Masked(t: Tracker, root: Invocation): Tracker {
    t.(root := root)
  }

  lemma {:induction false} ClearUnused(t: Invocation)
    ensures NoneExhausted(Clear(t)) && ParentClosed(Clear(t))
  {
    forall i | 0 <= i < |t.subs| ensures NoneExhausted(Clear(t).subs[i]) { ClearUnused(t.subs[i]); }
    NoneExhaustedClosed(Clear(t));
  }

  lemma {:induction false} MaskClosed(a: Invocation, b: Invocation)
    requires Grows(a, b)
    ensures ParentClosed(Mask(a, b))
  {
    forall i | 0 <= i < |b.subs| ensures ParentClosed(Mask(a, b).subs[i]) {
      if i < |a.subs| { MaskClosed(a.subs[i], b.subs[i]); } else { ClearUnused(b.subs[i]); }
    }
  }

  lemma {:induction false} AllExhaustedClosed(t: Invocation)
    requires AllExhausted(t)
    ensures ParentClosed(t)
  {
    forall i | 0 <= i < |t.subs| ensures ParentClosed(t.subs[i]) { AllExhaustedClosed(t.subs[i]); }
  }

  lemma {:induction false} WalkOkMask(a: Invocation, b: Invocation, stack: seq<MatchState>, k: nat, frames: seq<AuthStackFrame>)
    requires |stack| == |frames| && Grows(a, b) && WalkOk(a, stack, k, frames)
    ensures WalkOk(Mask(a, b), stack, k, frames)
    decreases |stack| - k
  {
    if k < |stack| {
      match stack[k]
      case Unmatched => WalkOkMask(a, b, stack, k + 1, frames);
      case RootMatch =>
      case SubMatch(i) =>
        assert Mask(a, b).subs[i] == Mask(a.subs[i], b.subs[i]);
        WalkOkMask(a.subs[i], b.subs[i], stack, k + 1, frames);
    }
  }

  lemma MaskedOk(t: Tracker, b: Invocation, frames: seq<AuthStackFrame>)
    requires TrackerOk(t, frames) && t.root.exhausted && Grows(t.root, b)
    ensures TrackerOk(Masked(t, Mask(t.root, b)), frames)
  {
    MaskClosed(t.root, b);
    if IsActive(t) { WalkOkMask(t.root, b, t.stack, t.rootFrame.value + 1, frames); }
  }

  lemma FirstUnused(subs: seq<Invocation>, f: AuthorizedFunction, i: nat, j: nat)
    requires i <= j < |subs| && !subs[j].exhausted && subs[j].function_ == f
    requires forall k :: i <= k < j ==> subs[k].exhausted
    ensures FindSub(subs, f, i) == Some(j)
  {
  }

  /** The enforcing tracker uses the node the recorder appended. */
  lemma ReplayMatch(t: Tracker, f: AuthorizedFunction, b: Invocation, frames: seq<AuthStackFrame>, allowRoot: bool)
    requires TrackerOk(t, frames) && AllExhausted(t.root)
    requires RecordInvocation(t, f).Recorded? && Grows(RecordInvocation(t, f).tracker.root, b)
    ensures Grows(t.root, b)
    ensures var r := RecordInvocation(t, f);
            TryMatch(Masked(t, Mask(t.root, b)), f, allowRoot) == Matched(Masked(r.tracker, Mask(r.tracker.root, b)), r.path)
  {
    var r := RecordInvocation(t, f);
    var p := LastInvocation(t, 0).path;
    LastNeedsFrames(t, 0);
    assert r.tracker.root == Append(t.root, p, f);
    AppendGrows(t.root, p, f);
    GrowsTrans(t.root, r.tracker.root, b);
    var m := Masked(t, Mask(t.root, b));
    LastMask(t, b, 0);
    MaskAppend(t.root, p, f, b);
    var j := |NodeAt(t.root, p).subs|;
    FirstUnused(NodeAt(m.root, p).subs, f, 0, j);
    assert TryMatch(m, f, allowRoot) == Matched(MatchSub(m, p, j), p + [j]);
  }

  lemma RecordedOk(t: Tracker, f: AuthorizedFunction, frames: seq<AuthStackFrame>)
    requires TrackerOk(t, frames) && AllExhausted(t.root)
    requires frames != [] && FrameOf(f) == frames[|frames| - 1]
    requires RecordInvocation(t, f).Recorded?
    ensures var t' := RecordInvocation(t, f).tracker;
            TrackerOk(t', frames) && AllExhausted(t'.root) && IsActive(t) && IsActive(t')
  {
    var t' := RecordInvocation(t, f).tracker;
    var p := LastInvocation(t, 0).path;
    LastIsFold(t, frames);
    AppendGrows(t.root, p, f);
    GrowsRefl(t'.root);
    ReplayMatch(t, f, t'.root, frames, true);
    MaskedOk(t, t'.root, frames);
    MatchOk(Masked(t, Mask(t.root, t'.root)), f, true, frames);
    MaskSelf(t'.root);
    assert Masked(t', Mask(t'.root, t'.root)) == t';
  }

  /** Recording under an active tracker never fails for want of a node, and adds exactly one
      used node for the requested function; everything else is kept. */
  lemma RecordOk(t: Tracker, f: AuthorizedFunction, frames: seq<AuthStackFrame>)
    requires TrackerOk(t, frames) && AllExhausted(t.root) && IsActive(t)
    requires frames != [] && FrameOf(f) == frames[|frames| - 1]
    ensures !RecordInvocation(t, f).RecordFault?
    ensures var r := RecordInvocation(t, f);
            r.Recorded? ==>
              && TrackerOk(r.tracker, frames) && AllExhausted(r.tracker.root) && IsActive(r.tracker)
              && CurrentFrameMatched(r.tracker)
              && |r.tracker.stack| == |t.stack| && r.tracker.stack[..|frames| - 1] == t.stack[..|frames| - 1]
              && r.tracker.rootFrame == t.rootFrame && r.tracker.processed == t.processed
              && UsesOneMore(t.root, r.tracker.root, r.path)
  {
    LastIsFold(t, frames);
    var r := RecordInvocation(t, f);
    if r.Recorded? {
      RecordedOk(t, f, frames);
      AppendUses(t.root, LastInvocation(t, 0).path, f);
    }
  }

  /** A tracker made for its first request. */
  lemma NewRecordedOk(env: Env, address: Address, f: AuthorizedFunction, callStack: seq<AuthStackFrame>, freshNonce: int)
    requires callStack != [] && FrameOf(f) == callStack[|callStack| - 1]
    ensures var a := NewRecordingAccount(env, address, f, |callStack|, freshNonce);
            && TrackerOk(a.tracker, callStack) && AllExhausted(a.tracker.root) && IsActive(a.tracker)
            && CountExhausted(a.tracker.root) == 1 && forall q :: Flag(a.tracker.root, q) <==> q == []
  {
    AllExhaustedClosed(NewRecordingAccount(env, address, f, |callStack|, freshNonce).tracker.root);
  }
}
