/** Ledger entries, footprints and the storage operations, as values. */
module StorageModel {
  import opened Wrappers
  import opened Arithmetic

  datatype Durability = Temporary | Persistent

  datatype LedgerKey =
    | AccountKey(id: int)
    | TrustlineKey(id: int)
    | ContractDataKey(contract: int, key: int, durability: Durability)
    | ContractCodeKey(hash: int)
    | OtherKey(kind: int)

  /** An entry belongs to the one key its data determines; `content` is the rest. */
  datatype LedgerEntry = LedgerEntry(key: LedgerKey, content: int)

  /** An entry with the ledger it lives until, for the kinds that have one. */
  datatype Stored = Stored(entry: LedgerEntry, liveUntil: Option<u32>)

  datatype AccessType = ReadOnly | ReadWrite
  type Footprint = map<LedgerKey, AccessType>
  type StorageMap = map<LedgerKey, Option<Stored>>
  type Ledger = map<LedgerKey, Stored>

  datatype Mode = Recording(source: Ledger) | Enforcing
  datatype Store = Store(footprint: Footprint, mode: Mode, entries: StorageMap)

  datatype LedgerInfo = LedgerInfo(sequence: u32, maxEntryTtl: u32)

  datatype Error = ExceededLimit | MissingValue | InvalidInput | InvalidAction | InternalError | ContextError

  predicate SupportedKey(k: LedgerKey) { !k.OtherKey? }

  function KeyDurability(k: LedgerKey): Option<Durability> {
    match k
    case ContractDataKey(_, _, d) => Some(d)
    case ContractCodeKey(_) => Some(Persistent)
    case _ => None
  }

  // ---------- footprints ----------

  predicate Covers(granted: AccessType, needed: AccessType) {
    granted.ReadWrite? || needed.ReadOnly?
  }

  predicate Allows(f: Footprint, k: LedgerKey, ty: AccessType) {
    k in f && Covers(f[k], ty)
  }

  /** `f` grants nothing that `g` does not. */
  ghost predicate FootprintLe(f: Footprint, g: Footprint) {
    forall k :: k in f ==> Allows(g, k, f[k])
  }

  /** Adds the key, or upgrades it; never downgrades. */
  function RecordAccess(f: Footprint, k: LedgerKey, ty: AccessType): Footprint {
    if k in f then
      match (f[k], ty)
      case (ReadOnly, ReadWrite) => f[k := ty]
      case _ => f
    else f[k := ty]
  }

  function EnforceAccess(f: Footprint, k: LedgerKey, ty: AccessType): bool {
    if k in f then
      match (f[k], ty)
      case (ReadOnly, ReadWrite) => false
      case _ => true
    else false
  }

  /** The recorded footprint is the least one that grants what it granted and the new access. */
  lemma RecordIsLeast(f: Footprint, k: LedgerKey, ty: AccessType, g: Footprint)
    ensures FootprintLe(f, RecordAccess(f, k, ty)) && Allows(RecordAccess(f, k, ty), k, ty)
    ensures FootprintLe(RecordAccess(f, k, ty), g) <==> FootprintLe(f, g) && EnforceAccess(g, k, ty)
  {
    var r := RecordAccess(f, k, ty);
    if FootprintLe(r, g) {
      assert Allows(g, k, r[k]);
      forall x | x in f ensures Allows(g, x, f[x]) {
        assert Allows(g, x, r[x]);
      }
    }
  }

  // ---------- operations ----------

  function Lookup(source: Ledger, k: LedgerKey): Option<Stored> {
    if k in source then Some(source[k]) else None
  }

  /** Recording reads through to the source; enforcing only checks. */
  function PrepareReadOnly(s: Store, k: LedgerKey): Result<Store, Error> {
    match s.mode
    case Recording(source) =>
      Ok(s.(footprint := RecordAccess(s.footprint, k, ReadOnly),
            entries := if k in s.entries then s.entries else s.entries[k := Lookup(source, k)]))
    case Enforcing =>
      if EnforceAccess(s.footprint, k, ReadOnly) then Ok(s) else Err(ExceededLimit)
  }

  datatype Read = Read(store: Store, result: Result<Option<Stored>, Error>)

  function TryGetFull(s: Store, k: LedgerKey): Read {
    if !SupportedKey(k) then Read(s, Err(InternalError))
    else
      match PrepareReadOnly(s, k)
      case Err(e) => Read(s, Err(e))
      case Ok(s1) => Read(s1, if k in s1.entries then Ok(s1.entries[k]) else Err(InternalError))
  }

  datatype Answer =
    | Entry(entry: LedgerEntry)
    | MaybeEntry(maybe: Option<LedgerEntry>)
    | EntryAndTtl(stored: Stored)
    | Present(present: bool)
    | Done
    | Failed(error: Error)

  datatype Outcome = Outcome(store: Store, answer: Answer)

  function Get(s: Store, k: LedgerKey): Outcome {
    var r := TryGetFull(s, k);
    Outcome(r.store,
      match r.result
      case Err(e) => Failed(e)
      case Ok(None) => Failed(MissingValue)
      case Ok(Some(x)) => Entry(x.entry))
  }

  function TryGet(s: Store, k: LedgerKey): Outcome {
    var r := TryGetFull(s, k);
    Outcome(r.store,
      match r.result
      case Err(e) => Failed(e)
      case Ok(None) => MaybeEntry(None)
      case Ok(Some(x)) => MaybeEntry(Some(x.entry)))
  }

  function GetWithLiveUntil(s: Store, k: LedgerKey): Outcome {
    var r := TryGetFull(s, k);
    Outcome(r.store,
      match r.result
      case Err(e) => Failed(e)
      case Ok(None) => Failed(MissingValue)
      case Ok(Some(x)) => EntryAndTtl(x))
  }

  function Has(s: Store, k: LedgerKey): Outcome {
    var r := TryGetFull(s, k);
    Outcome(r.store,
      match r.result
      case Err(e) => Failed(e)
      case Ok(x) => Present(x.Some?))
  }

  function PutOpt(s: Store, k: LedgerKey, val: Option<Stored>): Outcome {
    if !SupportedKey(k) || (val.Some? && !SupportedKey(val.value.entry.key)) then Outcome(s, Failed(InternalError))
    else
      match s.mode
      case Recording(_) =>
        Outcome(s.(footprint := RecordAccess(s.footprint, k, ReadWrite), entries := s.entries[k := val]), Done)
      case Enforcing =>
        if EnforceAccess(s.footprint, k, ReadWrite) then Outcome(s.(entries := s.entries[k := val]), Done)
        else Outcome(s, Failed(ExceededLimit))
  }

  /** The last ledger an entry may live until, counting the current one; fails on overflow. */
  function MaxLiveUntil(li: LedgerInfo): Option<u32> {
    var ttl := if li.maxEntryTtl == 0 then 0 else li.maxEntryTtl - 1;
    if li.sequence + ttl <= U32_MAX then Some(li.sequence + ttl) else None
  }

  /** The new live-until ledger of an extension, or why there is none. */
  function ExtendedTo(li: LedgerInfo, k: LedgerKey, oldLiveUntil: Option<u32>, extendTo: u32): Result<u32, Error> {
    if oldLiveUntil.None? then Err(InternalError)
    else if oldLiveUntil.value < li.sequence then Err(InternalError)
    else if li.sequence + extendTo > U32_MAX then Err(ContextError)
    else if MaxLiveUntil(li).None? then Err(ContextError)
    else if li.sequence + extendTo > MaxLiveUntil(li).value then
      match KeyDurability(k)
      case Some(Persistent) => Ok(MaxLiveUntil(li).value)
      case Some(Temporary) => Err(InvalidAction)
      case None => Err(InternalError)
    else Ok(li.sequence + extendTo)
  }

  function ExtendTtl(li: LedgerInfo, s: Store, k: LedgerKey, threshold: u32, extendTo: u32): Outcome {
    if !SupportedKey(k) then Outcome(s, Failed(InternalError))
    else if threshold > extendTo then Outcome(s, Failed(InvalidInput))
    else
      var r := GetWithLiveUntil(s, k);
      if !r.answer.EntryAndTtl? then r
      else
        var was := r.answer.stored;
        match ExtendedTo(li, k, was.liveUntil, extendTo)
        case Err(e) => Outcome(r.store, Failed(e))
        case Ok(live) =>
          if live > was.liveUntil.value && was.liveUntil.value - li.sequence <= threshold
          then Outcome(r.store.(entries := r.store.entries[k := Some(Stored(was.entry, Some(live)))]), Done)
          else Outcome(r.store, Done)
  }

  // ---------- runs ----------

  /** `Begin`, `Commit` and `Abort` are the host's frames: aborting brings back the map as it
      was at the matching `Begin`, but not the footprint. */
  datatype Op =
    | OpGet(key: LedgerKey)
    | OpTryGet(key: LedgerKey)
    | OpGetWithLiveUntil(key: LedgerKey)
    | OpHas(key: LedgerKey)
    | OpPut(key: LedgerKey, entry: LedgerEntry, liveUntil: Option<u32>)
    | OpDel(key: LedgerKey)
    | OpExtendTtl(key: LedgerKey, threshold: u32, extendTo: u32)
    | Begin
    | Commit
    | Abort

  function Apply(li: LedgerInfo, s: Store, op: Op): Outcome {
    match op
    case OpGet(k) => Get(s, k)
    case OpTryGet(k) => TryGet(s, k)
    case OpGetWithLiveUntil(k) => GetWithLiveUntil(s, k)
    case OpHas(k) => Has(s, k)
    case OpPut(k, e, live) => PutOpt(s, k, Some(Stored(e, live)))
    case OpDel(k) => PutOpt(s, k, None)
    case OpExtendTtl(k, threshold, extendTo) => ExtendTtl(li, s, k, threshold, extendTo)
    case _ => Outcome(s, Done)
  }

  /** The storage with the rollback points of the open frames, outermost first. */
  datatype Host = Host(store: Store, saved: seq<StorageMap>)

  function Next(li: LedgerInfo, h: Host, op: Op): Host {
    match op
    case Begin => h.(saved := h.saved + [h.store.entries])
    case Commit => if h.saved == [] then h else h.(saved := h.saved[..|h.saved| - 1])
    case Abort =>
      if h.saved == [] then h
      else Host(h.store.(entries := h.saved[|h.saved| - 1]), h.saved[..|h.saved| - 1])
    case _ => h.(store := Apply(li, h.store, op).store)
  }

  function Run(li: LedgerInfo, h: Host, ops: seq<Op>): Host
    decreases |ops|
  {
    if ops == [] then h else Run(li, Next(li, h, ops[0]), ops[1..])
  }

  function Answers(li: LedgerInfo, h: Host, ops: seq<Op>): seq<Answer>
    decreases |ops|
  {
    if ops == [] then []
    else [Apply(li, h.store, ops[0]).answer] + Answers(li, Next(li, h, ops[0]), ops[1..])
  }

  function StartRecording(source: Ledger): Host {
    Host(Store(map[], Recording(source), map[]), [])
  }

  /** The map an enforcing run starts from: every key of the footprint, present or not. */
  function RestrictTo(source: Ledger, f: Footprint): StorageMap {
    map k | k in f :: Lookup(source, k)
  }

  function StartEnforcing(f: Footprint, entries: StorageMap): Host {
    Host(Store(f, Enforcing, entries), [])
  }
}
