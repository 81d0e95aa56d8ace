/** What the storage is for: reading and writing one ledger. A recording storage over a source,
    and an enforcing one under a sufficient footprint, answer like the plain ledger itself,
    written to directly and put back when a frame is aborted. */
module StorageLedger {
  import opened Wrappers
  import opened Arithmetic
  import opened StorageModel
  import opened StorageReplay

  datatype Plain = Plain(ledger: Ledger, saved: seq<Ledger>)

  predicate Supported(op: Op) {
    match op
    case OpPut(k, e, _) => SupportedKey(k) && SupportedKey(e.key)
    case Begin | Commit | Abort => true
    case _ => SupportedKey(op.key)
  }

  /** The answer of the ledger. */
  function Ask(li: LedgerInfo, l: Ledger, op: Op): Answer {
    if !Supported(op) then Failed(InternalError)
    else
      match op
      case OpGet(k) => if k in l then Entry(l[k].entry) else Failed(MissingValue)
      case OpTryGet(k) => MaybeEntry(if k in l then Some(l[k].entry) else None)
      case OpGetWithLiveUntil(k) => if k in l then EntryAndTtl(l[k]) else Failed(MissingValue)
      case OpHas(k) => Present(k in l)
      case OpExtendTtl(k, threshold, extendTo) =>
        if threshold > extendTo then Failed(InvalidInput)
        else if k !in l then Failed(MissingValue)
        else
          (match ExtendedTo(li, k, l[k].liveUntil, extendTo)
           case Err(e) => Failed(e)
           case Ok(_) => Done)
      case _ => Done
  }

  /** What the operation does to the ledger. */
  function Write(li: LedgerInfo, l: Ledger, op: Op): Ledger {
    if Ask(li, l, op) != Done then l
    else
      match op
      case OpPut(k, e, live) => l[k := Stored(e, live)]
      case OpDel(k) => l - {k}
      case OpExtendTtl(k, threshold, extendTo) =>
        var was, live := l[k], ExtendedTo(li, k, l[k].liveUntil, extendTo).value;
        if was.liveUntil.value < live && was.liveUntil.value - li.sequence <= threshold
        then l[k := Stored(was.entry, Some(live))] else l
      case _ => l
  }

  function PlainNext(li: LedgerInfo, p: Plain, op: Op): Plain {
    match op
    case Begin => p.(saved := p.saved + [p.ledger])
    case Commit => if p.saved == [] then p else p.(saved := p.saved[..|p.saved| - 1])
    case Abort => if p.saved == [] then p else Plain(p.saved[|p.saved| - 1], p.saved[..|p.saved| - 1])
    case _ => p.(ledger := Write(li, p.ledger, op))
  }

  function PlainAnswers(li: LedgerInfo, p: Plain, ops: seq<Op>): seq<Answer>
    decreases |ops|
  {
    if ops == [] then [] else [Ask(li, p.ledger, ops[0])] + PlainAnswers(li, PlainNext(li, p, ops[0]), ops[1..])
  }

  function PlainRun(li: LedgerInfo, p: Plain, ops: seq<Op>): Plain
    decreases |ops|
  {
    if ops == [] then p else PlainRun(li, PlainNext(li, p, ops[0]), ops[1..])
  }

  // ---------- the cache over its source is the ledger ----------

  ghost predicate Shows(source: Ledger, cache: StorageMap, l: Ledger) {
    forall k :: Seen(source, cache, k) == Lookup(l, k)
  }

  ghost predicate ShowsAll(source: Ledger, h: Host, p: Plain) {
    && h.store.mode == Recording(source)
    && Shows(source, h.store.entries, p.ledger)
    && |h.saved| == |p.saved|
    && forall i :: 0 <= i < |h.saved| ==> Shows(source, h.saved[i], p.saved[i])
  }

  /** A read brings the key into the cache, as the ledger has it. */
  lemma ReadShows(source: Ledger, s: Store, l: Ledger, k: LedgerKey)
    requires s.mode == Recording(source) && Shows(source, s.entries, l) && SupportedKey(k)
    ensures var r := TryGetFull(s, k);
            && r.result == Ok(Lookup(l, k)) && r.store.mode == s.mode
            && k in r.store.entries && r.store.entries[k] == Lookup(l, k) && Shows(source, r.store.entries, l)
  {
    assert Seen(source, s.entries, k) == Lookup(l, k);
    var cache := TryGetFull(s, k).store.entries;
    forall x ensures Seen(source, cache, x) == Lookup(l, x) {
      assert Seen(source, s.entries, x) == Lookup(l, x);
    }
  }

  lemma UpdateShows(source: Ledger, cache: StorageMap, l: Ledger, k: LedgerKey, v: Option<Stored>)
    requires Shows(source, cache, l)
    ensures Shows(source, cache[k := v], match v case None => l - {k} case Some(x) => l[k := x])
  {
    var l' := match v case None => l - {k} case Some(x) => l[k := x];
    forall x ensures Seen(source, cache[k := v], x) == Lookup(l', x) {
      assert Seen(source, cache, x) == Lookup(l, x);
    }
  }

  lemma ExtendShows(li: LedgerInfo, source: Ledger, s: Store, l: Ledger, k: LedgerKey, threshold: u32, extendTo: u32)
    requires s.mode == Recording(source) && Shows(source, s.entries, l) && SupportedKey(k)
    ensures var op := OpExtendTtl(k, threshold, extendTo);
            && Apply(li, s, op).answer == Ask(li, l, op)
            && Apply(li, s, op).store.mode == s.mode
            && Shows(source, Apply(li, s, op).store.entries, Write(li, l, op))
  {
    hide ExtendedTo, Shows, TryGetFull;
    ReadShows(source, s, l, k);
    if k in l {
      var was := l[k];
      var r := ExtendedTo(li, k, was.liveUntil, extendTo);
      if r.Ok? {
        UpdateShows(source, TryGetFull(s, k).store.entries, l, k, Some(Stored(was.entry, Some(r.value))));
      }
    }
  }

  lemma ApplyShows(li: LedgerInfo, source: Ledger, s: Store, l: Ledger, op: Op)
    requires s.mode == Recording(source) && Shows(source, s.entries, l)
    ensures Apply(li, s, op).answer == Ask(li, l, op)
    ensures Apply(li, s, op).store.mode == s.mode
    ensures Shows(source, Apply(li, s, op).store.entries, Write(li, l, op))
  {
    hide ExtendedTo, Shows, RecordAccess;
    match op
    case OpPut(k, e, live) => UpdateShows(source, s.entries, l, k, Some(Stored(e, live)));
    case OpDel(k) => UpdateShows(source, s.entries, l, k, None);
    case OpExtendTtl(k, threshold, extendTo) =>
      if SupportedKey(k) { ExtendShows(li, source, s, l, k, threshold, extendTo); }
    case Begin | Commit | Abort =>
    case _ => if SupportedKey(op.key) { ReadShows(source, s, l, op.key); }
  }

  lemma {:induction false} RunShows(li: LedgerInfo, source: Ledger, h: Host, p: Plain, ops: seq<Op>)
    requires ShowsAll(source, h, p)
    ensures Answers(li, h, ops) == PlainAnswers(li, p, ops)
    ensures ShowsAll(source, Run(li, h, ops), PlainRun(li, p, ops))
    decreases |ops|
  {
    if ops != [] {
      hide Apply, Ask, Write, Seen;
      ApplyShows(li, source, h.store, p.ledger, ops[0]);
      RunShows(li, source, Next(li, h, ops[0]), PlainNext(li, p, ops[0]), ops[1..]);
    }
  }

  /** Any operations and frames get from a recording storage the answers the ledger gives, and
      the cache over the source ends as the ledger. */
  lemma RecordingIsTheLedger(li: LedgerInfo, source: Ledger, ops: seq<Op>)
    ensures Answers(li, StartRecording(source), ops) == PlainAnswers(li, Plain(source, []), ops)
    ensures forall k :: Seen(source, Run(li, StartRecording(source), ops).store.entries, k)
                        == Lookup(PlainRun(li, Plain(source, []), ops).ledger, k)
  {
    RunShows(li, source, StartRecording(source), Plain(source, []), ops);
  }

  /** And so does an enforcing storage under the recorded footprint, which ends with the
      ledger's entries at the footprint's keys. */
  lemma EnforcingIsTheLedger(li: LedgerInfo, source: Ledger, ops: seq<Op>)
    ensures var f := Run(li, StartRecording(source), ops).store.footprint;
            var start := StartEnforcing(f, RestrictTo(source, f));
            var end := PlainRun(li, Plain(source, []), ops).ledger;
            && Answers(li, start, ops) == PlainAnswers(li, Plain(source, []), ops)
            && Run(li, start, ops).store.entries == RestrictTo(end, f)
  {
    RecordThenEnforce(li, source, ops);
    RecordingIsTheLedger(li, source, ops);
  }

  // ---------- extensions ----------

  /** An extension that succeeds keeps the entry, never shortens its life, never lets it live
      past the limit or the requested ledger unless it did already, and leaves it living as
      long as requested, within the limit, if it was below the threshold. */
  lemma ExtensionGuarantees(li: LedgerInfo, l: Ledger, k: LedgerKey, threshold: u32, extendTo: u32)
    requires Ask(li, l, OpExtendTtl(k, threshold, extendTo)) == Done
    ensures k in l && l[k].liveUntil.Some? && MaxLiveUntil(li).Some?
    ensures var l' := Write(li, l, OpExtendTtl(k, threshold, extendTo));
            var was, limit := l[k].liveUntil.value, MaxLiveUntil(li).value;
            && l'.Keys == l.Keys && (forall x :: x in l && x != k ==> l'[x] == l[x])
            && l'[k].entry == l[k].entry && l'[k].liveUntil.Some?
            && (li.maxEntryTtl > 0 ==> limit - li.sequence + 1 == li.maxEntryTtl)
            && var now := l'[k].liveUntil.value;
               && was <= now
               && (now == was || (now <= limit && now <= li.sequence + extendTo))
               && (was - li.sequence > threshold ==> now == was)
               && (was - li.sequence <= threshold ==>
                     now >= limit || now >= li.sequence + extendTo)
               && (KeyDurability(k) == Some(Temporary) && was - li.sequence <= threshold ==> now >= li.sequence + extendTo)
  {
  }

  /** The last ledger an entry may live until, if it fits: the limit counts the current one. */
  function LastLedger(li: LedgerInfo): int {
    li.sequence + if li.maxEntryTtl > 0 then li.maxEntryTtl - 1 else 0
  }

  /** Keys of contract data and code. */
  predicate IsPersistent(k: LedgerKey) {
    k.ContractCodeKey? || (k.ContractDataKey? && k.durability.Persistent?)
  }

  /** An entry that is there, with a life that is not over. */
  predicate IsLive(li: LedgerInfo, l: Ledger, k: LedgerKey) {
    k in l && l[k].liveUntil.Some? && li.sequence <= l[k].liveUntil.value
  }

  /** Exactly when an extension succeeds: of a live entry, without overflow, and past the limit
      only if the entry is persistent, which then lives until the limit. */
  lemma ExtensionExactly(li: LedgerInfo, l: Ledger, k: LedgerKey, threshold: u32, extendTo: u32)
    ensures Ask(li, l, OpExtendTtl(k, threshold, extendTo)) == Done <==>
              && !k.OtherKey? && threshold <= extendTo && IsLive(li, l, k)
              && li.sequence + extendTo <= U32_MAX && LastLedger(li) <= U32_MAX
              && (li.sequence + extendTo <= LastLedger(li) || IsPersistent(k))
    ensures Ask(li, l, OpExtendTtl(k, threshold, extendTo)) == Done ==>
              var was := l[k].liveUntil.value;
              var asked := li.sequence + extendTo;
              var until := if asked <= LastLedger(li) then asked else LastLedger(li);
              Write(li, l, OpExtendTtl(k, threshold, extendTo)) ==
                if was < until && was - li.sequence <= threshold then l[k := Stored(l[k].entry, Some(until))] else l
  {
  }

  /** Why an extension fails; the ledger is then as it was. */
  lemma ExtensionErrors(li: LedgerInfo, l: Ledger, k: LedgerKey, threshold: u32, extendTo: u32)
    requires !k.OtherKey?
    ensures var a := Ask(li, l, OpExtendTtl(k, threshold, extendTo));
            && (threshold > extendTo ==> a == Failed(InvalidInput))
            && (threshold <= extendTo ==>
                 && (k !in l ==> a == Failed(MissingValue))
                 && (k in l && !IsLive(li, l, k) ==> a == Failed(InternalError))
                 && (IsLive(li, l, k) && (li.sequence + extendTo > U32_MAX || LastLedger(li) > U32_MAX) ==> a == Failed(ContextError))
                 && (IsLive(li, l, k) && LastLedger(li) < li.sequence + extendTo <= U32_MAX && LastLedger(li) <= U32_MAX && !IsPersistent(k) ==>
                       a == Failed(if k.ContractDataKey? then InvalidAction else InternalError)))
    ensures Ask(li, l, OpExtendTtl(k, threshold, extendTo)) != Done ==> Write(li, l, OpExtendTtl(k, threshold, extendTo)) == l
  {
  }
}
