/** The storage object, updated in place by each operation. */
module StorageObject {
  import opened Wrappers
  import opened Arithmetic
  import opened StorageModel

  class Storage {
    var footprint: Footprint
    var mode: Mode
    var entries: StorageMap

    function View(): Store
      reads this
    {
      Store(footprint, mode, entries)
    }

    constructor WithEnforcingFootprintAndMap(footprint: Footprint, entries: StorageMap)
      ensures View() == StartEnforcing(footprint, entries).store
    {
      this.footprint := footprint;
      this.mode := Enforcing;
      this.entries := entries;
    }

    constructor WithRecordingFootprint(source: Ledger)
      ensures View() == StartRecording(source).store
    {
      footprint := map[];
      mode := Recording(source);
      entries := map[];
    }

    /** Records the access, or reports whether the footprint allows it. */
    method Access(k: LedgerKey, ty: AccessType) returns (ok: bool)
      modifies this`footprint
      ensures ok == (mode.Recording? || EnforceAccess(old(footprint), k, ty))
      ensures footprint == if mode.Recording? then RecordAccess(old(footprint), k, ty) else old(footprint)
    {
      match mode {
        case Recording(_) =>
          if k !in footprint || (footprint[k].ReadOnly? && ty.ReadWrite?) {
            footprint := footprint[k := ty];
          }
          ok := true;
        case Enforcing =>
          ok := k in footprint && !(footprint[k].ReadOnly? && ty.ReadWrite?);
      }
    }

    method PrepareReadOnlyAccess(k: LedgerKey) returns (ok: bool)
      modifies this
      ensures ok == PrepareReadOnly(old(View()), k).Ok?
      ensures View() == if ok then PrepareReadOnly(old(View()), k).value else old(View())
    {
      ok := Access(k, ReadOnly);
      if mode.Recording? && k !in entries {
        entries := entries[k := if k in mode.source then Some(mode.source[k]) else None];
      }
    }

    method ReadFull(k: LedgerKey) returns (r: Result<Option<Stored>, Error>)
      modifies this
      ensures Read(View(), r) == TryGetFull(old(View()), k)
    {
      if !SupportedKey(k) { return Err(InternalError); }
      var ok := PrepareReadOnlyAccess(k);
      if !ok { return Err(ExceededLimit); }
      if k !in entries { return Err(InternalError); }
      return Ok(entries[k]);
    }

    method GetEntry(k: LedgerKey) returns (a: Answer)
      modifies this
      ensures Outcome(View(), a) == Get(old(View()), k)
    {
      var r := ReadFull(k);
      if r.Err? { return Failed(r.error); }
      if r.value.None? { return Failed(MissingValue); }
      return Entry(r.value.value.entry);
    }

    method TryGetEntry(k: LedgerKey) returns (a: Answer)
      modifies this
      ensures Outcome(View(), a) == TryGet(old(View()), k)
    {
      var r := ReadFull(k);
      if r.Err? { return Failed(r.error); }
      return MaybeEntry(if r.value.Some? then Some(r.value.value.entry) else None);
    }

    method GetWithLiveUntilLedger(k: LedgerKey) returns (a: Answer)
      modifies this
      ensures Outcome(View(), a) == GetWithLiveUntil(old(View()), k)
    {
      var r := ReadFull(k);
      if r.Err? { return Failed(r.error); }
      if r.value.None? { return Failed(MissingValue); }
      return EntryAndTtl(r.value.value);
    }

    method HasEntry(k: LedgerKey) returns (a: Answer)
      modifies this
      ensures Outcome(View(), a) == Has(old(View()), k)
    {
      var r := ReadFull(k);
      if r.Err? { return Failed(r.error); }
      return Present(r.value.Some?);
    }

    /** `put` and `del` funnel into this. */
    method PutOrDelete(k: LedgerKey, val: Option<Stored>) returns (a: Answer)
      modifies this
      ensures Outcome(View(), a) == PutOpt(old(View()), k, val)
    {
      if !SupportedKey(k) { return Failed(InternalError); }
      if val.Some? && !SupportedKey(val.value.entry.key) { return Failed(InternalError); }
      var ok := Access(k, ReadWrite);
      if !ok { return Failed(ExceededLimit); }
      entries := entries[k := val];
      return Done;
    }

    method ExtendEntryTtl(li: LedgerInfo, k: LedgerKey, threshold: u32, extendTo: u32) returns (a: Answer)
      modifies this
      ensures Outcome(View(), a) == ExtendTtl(li, old(View()), k, threshold, extendTo)
    {
      if !SupportedKey(k) { return Failed(InternalError); }
      if threshold > extendTo { return Failed(InvalidInput); }
      a := GetWithLiveUntilLedger(k);
      if !a.EntryAndTtl? { return a; }
      var entry, oldLiveUntil := a.stored.entry, a.stored.liveUntil;
      if oldLiveUntil.None? { return Failed(InternalError); }
      if oldLiveUntil.value < li.sequence { return Failed(InternalError); }
      if li.sequence + extendTo > U32_MAX { return Failed(ContextError); }
      var newLiveUntil := li.sequence + extendTo;
      var limit := MaxLiveUntil(li);
      if limit.None? { return Failed(ContextError); }
      if newLiveUntil > limit.value {
        match KeyDurability(k) {
          case Some(Persistent) => newLiveUntil := limit.value;
          case Some(Temporary) => return Failed(InvalidAction);
          case None => return Failed(InternalError);
        }
      }
      if newLiveUntil > oldLiveUntil.value && oldLiveUntil.value - li.sequence <= threshold {
        entries := entries[k := Some(Stored(entry, Some(newLiveUntil)))];
      }
      return Done;
    }
  }
}
