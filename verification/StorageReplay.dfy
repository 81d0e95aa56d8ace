/** Record, then enforce, for storage: the recorded footprint is exactly what the same
    operations need, frame rollbacks included. */
module StorageReplay {
  import opened Wrappers
  import opened Arithmetic
  import opened StorageModel

  /** The access an operation makes, if it gets that far. */
  function AccessOf(op: Op): Option<(LedgerKey, AccessType)> {
    match op
    case OpGet(k) => if SupportedKey(k) then Some((k, ReadOnly)) else None
    case OpTryGet(k) => if SupportedKey(k) then Some((k, ReadOnly)) else None
    case OpGetWithLiveUntil(k) => if SupportedKey(k) then Some((k, ReadOnly)) else None
    case OpHas(k) => if SupportedKey(k) then Some((k, ReadOnly)) else None
    case OpPut(k, e, _) => if SupportedKey(k) && SupportedKey(e.key) then Some((k, ReadWrite)) else None
    case OpDel(k) => if SupportedKey(k) then Some((k, ReadWrite)) else None
    case OpExtendTtl(k, threshold, extendTo) =>
      if SupportedKey(k) && threshold <= extendTo then Some((k, ReadOnly)) else None
    case _ => None
  }

  /** What recording sees at a key: its cache, or else the source. */
  function Seen(source: Ledger, cache: StorageMap, k: LedgerKey): Option<Stored> {
    if k in cache then cache[k] else Lookup(source, k)
  }

  /** A recording map and the enforcing map under footprint `g` that stands for the same ledger. */
  ghost predicate MapSim(source: Ledger, f: Footprint, g: Footprint, cache: StorageMap, strict: StorageMap) {
    && cache.Keys <= f.Keys
    && strict.Keys == g.Keys
    && forall k :: k in g ==> strict[k] == Seen(source, cache, k)
  }

  ghost predicate Sim(source: Ledger, g: Footprint, r: Host, e: Host) {
    && r.store.mode == Recording(source)
    && e.store.mode == Enforcing && e.store.footprint == g
    && FootprintLe(r.store.footprint, g)
    && MapSim(source, r.store.footprint, g, r.store.entries, e.store.entries)
    && |r.saved| == |e.saved|
    && forall i :: 0 <= i < |r.saved| ==> MapSim(source, r.store.footprint, g, r.saved[i], e.saved[i])
  }

  /** One operation: recording adds exactly its access, and never fails on the footprint. */
  lemma RecordingAccess(li: LedgerInfo, s: Store, op: Op)
    requires s.mode.Recording?
    ensures var x := Apply(li, s, op);
            && x.store.mode == s.mode
            && x.answer != Failed(ExceededLimit)
            && x.store.footprint == match AccessOf(op)
                                    case None => s.footprint
                                    case Some((k, ty)) => RecordAccess(s.footprint, k, ty)
  {
  }

  /** An operation the footprint does not allow fails with the footprint error. */
  lemma EnforcingRefuses(li: LedgerInfo, s: Store, op: Op)
    requires s.mode.Enforcing? && AccessOf(op).Some?
    requires !EnforceAccess(s.footprint, AccessOf(op).value.0, AccessOf(op).value.1)
    ensures Apply(li, s, op).answer == Failed(ExceededLimit)
  {
  }

  lemma ReadSim(source: Ledger, g: Footprint, r: Store, e: Store, k: LedgerKey)
    requires r.mode == Recording(source) && e.mode == Enforcing && e.footprint == g
    requires MapSim(source, r.footprint, g, r.entries, e.entries)
    requires SupportedKey(k) && EnforceAccess(g, k, ReadOnly)
    ensures var x, y := TryGetFull(r, k), TryGetFull(e, k);
            && x.result == y.result && y.store == e
            && x.store.mode == r.mode && x.store.footprint == RecordAccess(r.footprint, k, ReadOnly)
            && MapSim(source, x.store.footprint, g, x.store.entries, e.entries)
            && k in x.store.entries && x.store.entries[k] == e.entries[k]
  {
  }

  lemma UpdateSim(source: Ledger, f: Footprint, g: Footprint, cache: StorageMap, strict: StorageMap, k: LedgerKey, val: Option<Stored>)
    requires MapSim(source, f, g, cache, strict) && k in f && k in g
    ensures MapSim(source, f, g, cache[k := val], strict[k := val])
  {
  }

  lemma GrowSim(source: Ledger, f: Footprint, f': Footprint, g: Footprint, cache: StorageMap, strict: StorageMap)
    requires MapSim(source, f, g, cache, strict) && f.Keys <= f'.Keys
    ensures MapSim(source, f', g, cache, strict)
  {
  }

  lemma ExtendSim(li: LedgerInfo, source: Ledger, g: Footprint, r: Store, e: Store, k: LedgerKey, threshold: u32, extendTo: u32)
    requires r.mode == Recording(source) && e.mode == Enforcing && e.footprint == g
    requires MapSim(source, r.footprint, g, r.entries, e.entries)
    requires SupportedKey(k) && threshold <= extendTo && EnforceAccess(g, k, ReadOnly)
    ensures var x, y := ExtendTtl(li, r, k, threshold, extendTo), ExtendTtl(li, e, k, threshold, extendTo);
            && x.answer == y.answer
            && x.store.mode == r.mode && y.store.mode == e.mode && y.store.footprint == g
            && x.store.footprint == RecordAccess(r.footprint, k, ReadOnly)
            && MapSim(source, x.store.footprint, g, x.store.entries, y.store.entries)
  {
    ReadSim(source, g, r, e, k);
    hide ExtendedTo, MapSim, TryGetFull;
    var x := TryGetFull(r, k).store;
    var was := GetWithLiveUntil(r, k).answer;
    if was.EntryAndTtl? && ExtendedTo(li, k, was.stored.liveUntil, extendTo).Ok? {
      var live := ExtendedTo(li, k, was.stored.liveUntil, extendTo).value;
      UpdateSim(source, x.footprint, g, x.entries, e.entries, k, Some(Stored(was.stored.entry, Some(live))));
    }
  }

  /** One storage operation that the footprint allows. */
  lemma StoreSim(li: LedgerInfo, source: Ledger, g: Footprint, r: Store, e: Store, op: Op)
    requires r.mode == Recording(source) && e.mode == Enforcing && e.footprint == g
    requires MapSim(source, r.footprint, g, r.entries, e.entries)
    requires AccessOf(op).Some? ==> EnforceAccess(g, AccessOf(op).value.0, AccessOf(op).value.1)
    ensures var x, y := Apply(li, r, op), Apply(li, e, op);
            && x.answer == y.answer
            && x.store.mode == r.mode && y.store.mode == e.mode && y.store.footprint == g
            && r.footprint.Keys <= x.store.footprint.Keys
            && MapSim(source, x.store.footprint, g, x.store.entries, y.store.entries)
  {
    match AccessOf(op)
    case None =>
    case Some((k, ty)) =>
      if op.OpExtendTtl? {
        ExtendSim(li, source, g, r, e, k, op.threshold, op.extendTo);
        hide ExtendTtl, MapSim;
      } else if ty.ReadOnly? {
        ReadSim(source, g, r, e, k);
        hide TryGetFull, MapSim;
      } else {
        GrowSim(source, r.footprint, RecordAccess(r.footprint, k, ty), g, r.entries, e.entries);
        UpdateSim(source, RecordAccess(r.footprint, k, ty), g, r.entries, e.entries, k,
                  if op.OpPut? then Some(Stored(op.entry, op.liveUntil)) else None);
        hide MapSim;
      }
  }

  /** An allowed operation gives the answer recording gave, and the hosts keep matching. */
  lemma ApplySim(li: LedgerInfo, source: Ledger, g: Footprint, r: Host, e: Host, op: Op)
    requires Sim(source, g, r, e)
    requires FootprintLe(Apply(li, r.store, op).store.footprint, g)
    ensures Apply(li, e.store, op).answer == Apply(li, r.store, op).answer
    ensures Sim(source, g, Next(li, r, op), Next(li, e, op))
  {
    RecordingAccess(li, r.store, op);
    if AccessOf(op).Some? {
      RecordIsLeast(r.store.footprint, AccessOf(op).value.0, AccessOf(op).value.1, g);
    }
    StoreSim(li, source, g, r.store, e.store, op);
    var f' := Apply(li, r.store, op).store.footprint;
    forall i | 0 <= i < |r.saved| ensures MapSim(source, f', g, r.saved[i], e.saved[i]) {
      GrowSim(source, r.store.footprint, f', g, r.saved[i], e.saved[i]);
    }
  }

  lemma FootprintGrows(li: LedgerInfo, r: Host, op: Op)
    requires r.store.mode.Recording?
    ensures Next(li, r, op).store.mode == r.store.mode
    ensures FootprintLe(r.store.footprint, Next(li, r, op).store.footprint)
    ensures Next(li, r, op).store.footprint == Apply(li, r.store, op).store.footprint
  {
    RecordingAccess(li, r.store, op);
    match AccessOf(op)
    case None =>
    case Some((k, ty)) => RecordIsLeast(r.store.footprint, k, ty, r.store.footprint);
  }

  lemma FootprintTrans(f: Footprint, g: Footprint, h: Footprint)
    requires FootprintLe(f, g) && FootprintLe(g, h)
    ensures FootprintLe(f, h)
  {
    forall k | k in f ensures Allows(h, k, f[k]) {
      assert Allows(g, k, f[k]) && Allows(h, k, g[k]);
    }
  }

  /** The recorded footprint only grows along a run, and no access is ever downgraded. */
  lemma {:induction false} RunGrows(li: LedgerInfo, r: Host, ops: seq<Op>)
    requires r.store.mode.Recording?
    ensures Run(li, r, ops).store.mode == r.store.mode
    ensures FootprintLe(r.store.footprint, Run(li, r, ops).store.footprint)
    decreases |ops|
  {
    if ops != [] {
      FootprintGrows(li, r, ops[0]);
      RunGrows(li, Next(li, r, ops[0]), ops[1..]);
      FootprintTrans(r.store.footprint, Next(li, r, ops[0]).store.footprint, Run(li, r, ops).store.footprint);
    }
  }

  /** From matching states: the enforcing run agrees with the recording run throughout if the
      recorded footprint stays within `g`, and hits the footprint otherwise. */
  lemma {:induction false} Replay(li: LedgerInfo, source: Ledger, g: Footprint, r: Host, e: Host, ops: seq<Op>)
    requires Sim(source, g, r, e)
    ensures FootprintLe(Run(li, r, ops).store.footprint, g) ==>
              && Answers(li, e, ops) == Answers(li, r, ops)
              && Failed(ExceededLimit) !in Answers(li, e, ops)
              && Sim(source, g, Run(li, r, ops), Run(li, e, ops))
    ensures !FootprintLe(Run(li, r, ops).store.footprint, g) ==> Failed(ExceededLimit) in Answers(li, e, ops)
    decreases |ops|
  {
    if ops != [] {
      var op := ops[0];
      RecordingAccess(li, r.store, op);
      FootprintGrows(li, r, op);
      var r', e' := Next(li, r, op), Next(li, e, op);
      if FootprintLe(r'.store.footprint, g) {
        ApplySim(li, source, g, r, e, op);
        Replay(li, source, g, r', e', ops[1..]);
      } else {
        RunGrows(li, r', ops[1..]);
        if FootprintLe(Run(li, r, ops).store.footprint, g) {
          FootprintTrans(r'.store.footprint, Run(li, r, ops).store.footprint, g);
        }
        var (k, ty) := AccessOf(op).value;
        RecordIsLeast(r.store.footprint, k, ty, g);
        EnforcingRefuses(li, e.store, op);
        assert Answers(li, e, ops)[0] == Failed(ExceededLimit);
      }
    }
  }

  lemma StartSim(source: Ledger, g: Footprint)
    ensures Sim(source, g, StartRecording(source), StartEnforcing(g, RestrictTo(source, g)))
  {
  }

  /** Any operations, with any nesting of committed and aborted frames, run in recording mode
      and then in enforcing mode with the recorded footprint and the ledger restricted to it,
      answer the same at every step and end with the same entry at every footprint key. */
  lemma RecordThenEnforce(li: LedgerInfo, source: Ledger, ops: seq<Op>)
    ensures var recorded := Run(li, StartRecording(source), ops);
            var f := recorded.store.footprint;
            var start := StartEnforcing(f, RestrictTo(source, f));
            && Answers(li, start, ops) == Answers(li, StartRecording(source), ops)
            && Run(li, start, ops).store.entries.Keys == f.Keys
            && forall k :: k in f ==>
                 Run(li, start, ops).store.entries[k] == Seen(source, recorded.store.entries, k)
  {
    var f := Run(li, StartRecording(source), ops).store.footprint;
    StartSim(source, f);
    Replay(li, source, f, StartRecording(source), StartEnforcing(f, RestrictTo(source, f)), ops);
  }

  /** The recorded footprint is the least one: the same operations get through under `g`
      without a footprint error exactly when the recorded footprint is at most `g`. */
  lemma RecordedIsLeast(li: LedgerInfo, source: Ledger, ops: seq<Op>, g: Footprint)
    ensures Failed(ExceededLimit) !in Answers(li, StartEnforcing(g, RestrictTo(source, g)), ops) <==>
            FootprintLe(Run(li, StartRecording(source), ops).store.footprint, g)
  {
    StartSim(source, g);
    Replay(li, source, g, StartRecording(source), StartEnforcing(g, RestrictTo(source, g)), ops);
  }

  predicate NoFrames(ops: seq<Op>) {
    forall i :: 0 <= i < |ops| ==> !ops[i].Begin? && !ops[i].Commit? && !ops[i].Abort?
  }

  lemma {:induction false} CacheIsFootprint(li: LedgerInfo, r: Host, ops: seq<Op>)
    requires r.store.mode.Recording? && NoFrames(ops) && r.store.entries.Keys == r.store.footprint.Keys
    ensures Run(li, r, ops).store.entries.Keys == Run(li, r, ops).store.footprint.Keys
    decreases |ops|
  {
    if ops != [] {
      RecordingAccess(li, r.store, ops[0]);
      CacheIsFootprint(li, Next(li, r, ops[0]), ops[1..]);
    }
  }

  /** Without frames, recording and enforcing end with the very same map. */
  lemma SameMapWithoutFrames(li: LedgerInfo, source: Ledger, ops: seq<Op>)
    requires NoFrames(ops)
    ensures var recorded := Run(li, StartRecording(source), ops).store;
            Run(li, StartEnforcing(recorded.footprint, RestrictTo(source, recorded.footprint)), ops).store.entries == recorded.entries
  {
    RecordThenEnforce(li, source, ops);
    CacheIsFootprint(li, StartRecording(source), ops);
  }
}
