/** From submitted entries to an enforcing map, and from the map after a run to the changes
    reported for the ledger. */
module LedgerChanges {
  import opened Wrappers
  import opened Arithmetic
  import opened StorageModel

  predicate HasTtl(k: LedgerKey) { KeyDurability(k).Some? }

  // ---------- the footprint ----------

  /** Read-write keys first, then read-only keys over them. */
  method BuildFootprint(readWrite: seq<LedgerKey>, readOnly: seq<LedgerKey>) returns (r: Result<Footprint, Error>)
    ensures r.Ok? <==> forall k :: k in readWrite || k in readOnly ==> SupportedKey(k)
    ensures r.Err? ==> r.error == InternalError
    ensures r.Ok? ==>
              && (forall k :: k in r.value <==> k in readWrite || k in readOnly)
              && (forall k :: k in r.value ==> (r.value[k] == ReadOnly <==> k in readOnly))
  {
    var f: Footprint := map[];
    for i := 0 to |readWrite|
      invariant forall k :: k in f <==> k in readWrite[..i]
      invariant forall k :: k in f ==> f[k] == ReadWrite && SupportedKey(k)
    {
      if !SupportedKey(readWrite[i]) { return Err(InternalError); }
      f := f[readWrite[i] := ReadWrite];
    }
    for i := 0 to |readOnly|
      invariant forall k :: k in f <==> k in readWrite || k in readOnly[..i]
      invariant forall k :: k in f ==> SupportedKey(k) && (f[k] == ReadOnly <==> k in readOnly[..i])
    {
      if !SupportedKey(readOnly[i]) { return Err(InternalError); }
      f := f[readOnly[i] := ReadOnly];
    }
    return Ok(f);
  }

  // ---------- the map ----------

  /** The last submitted entry for a key. */
  function LastFor(entries: seq<LedgerEntry>, ttls: seq<Option<u32>>, k: LedgerKey): Option<Stored>
    requires |entries| == |ttls|
  {
    if entries == [] then None
    else
      var n := |entries| - 1;
      if entries[n].key == k then Some(Stored(entries[n], ttls[n])) else LastFor(entries[..n], ttls[..n], k)
  }

  /** The last index a key was submitted at, with its entry and its live-until ledger. */
  lemma {:induction false} LastForIsLast(entries: seq<LedgerEntry>, ttls: seq<Option<u32>>, k: LedgerKey)
    requires |entries| == |ttls|
    ensures LastFor(entries, ttls, k) == None <==> forall i :: 0 <= i < |entries| ==> entries[i].key != k
    ensures forall i :: 0 <= i < |entries| && entries[i].key == k && (forall j :: i < j < |entries| ==> entries[j].key != k) ==>
              LastFor(entries, ttls, k) == Some(Stored(entries[i], ttls[i]))
    decreases |entries|
  {
    if entries != [] {
      var n := |entries| - 1;
      LastForIsLast(entries[..n], ttls[..n], k);
      if entries[n].key != k {
        forall i | 0 <= i < |entries| && entries[i].key == k && (forall j :: i < j < |entries| ==> entries[j].key != k)
          ensures LastFor(entries, ttls, k) == Some(Stored(entries[i], ttls[i]))
        {
          assert entries[..n][i].key == k && ttls[..n][i] == ttls[i];
        }
        assert forall i :: 0 <= i < n ==> entries[..n][i] == entries[i];
      }
    }
  }

  predicate EntryAccepted(f: Footprint, e: LedgerEntry, ttl: Option<u32>, ledgerNum: u32) {
    && SupportedKey(e.key)
    && (ttl.Some? ==> ttl.value >= ledgerNum)
    && (HasTtl(e.key) ==> ttl.Some?)
    && e.key in f
  }

  /** Which entries are accepted: those of footprint keys, not over yet, and with a live-until
      ledger if they are contract data or code. */
  lemma AcceptedExactly(f: Footprint, e: LedgerEntry, ttl: Option<u32>, ledgerNum: u32)
    ensures EntryAccepted(f, e, ttl, ledgerNum) <==>
              && e.key in f && !e.key.OtherKey?
              && match ttl
                 case None => !e.key.ContractDataKey? && !e.key.ContractCodeKey?
                 case Some(until) => ledgerNum <= until
  {
  }

  ghost predicate AllAccepted(f: Footprint, entries: seq<LedgerEntry>, ttls: seq<Option<u32>>, ledgerNum: u32) {
    |entries| == |ttls| && forall i :: 0 <= i < |entries| ==> EntryAccepted(f, entries[i], ttls[i], ledgerNum)
  }

  /** Loads the entries, then adds an absent entry for every other footprint key; `footprintKeys`
      lists the footprint in its own order. Fails exactly on the malformed inputs. */
  method BuildStorageMap(f: Footprint, footprintKeys: seq<LedgerKey>, entries: seq<LedgerEntry>, ttls: seq<Option<u32>>, ledgerNum: u32)
    returns (r: Result<StorageMap, Error>)
    requires forall k :: k in f <==> k in footprintKeys
    ensures r.Ok? <==> AllAccepted(f, entries, ttls, ledgerNum)
    ensures r.Err? ==> r.error == InternalError
    ensures r.Ok? ==> |entries| == |ttls| && r.value.Keys == f.Keys && forall k :: k in f ==> r.value[k] == LastFor(entries, ttls, k)
  {
    if |entries| != |ttls| { return Err(InternalError); }
    var m: StorageMap := map[];
    for i := 0 to |entries|
      invariant forall j :: 0 <= j < i ==> EntryAccepted(f, entries[j], ttls[j], ledgerNum)
      invariant m.Keys <= f.Keys
      invariant forall k :: k in m <==> LastFor(entries[..i], ttls[..i], k).Some?
      invariant forall k :: k in m ==> m[k] == LastFor(entries[..i], ttls[..i], k)
    {
      var e := entries[i];
      if !SupportedKey(e.key) { return Err(InternalError); }
      if ttls[i].Some? {
        if ttls[i].value < ledgerNum { return Err(InternalError); }
      } else if HasTtl(e.key) {
        return Err(InternalError);
      }
      if e.key !in f { return Err(InternalError); }
      assert entries[..i + 1][..i] == entries[..i] && ttls[..i + 1][..i] == ttls[..i];
      m := m[e.key := Some(Stored(e, ttls[i]))];
    }
    assert entries[..|entries|] == entries && ttls[..|ttls|] == ttls;
    for i := 0 to |footprintKeys|
      invariant m.Keys <= f.Keys
      invariant forall j :: 0 <= j < i ==> footprintKeys[j] in m
      invariant forall k :: k in m ==> m[k] == LastFor(entries, ttls, k)
      invariant forall k :: LastFor(entries, ttls, k).Some? ==> k in m
    {
      if footprintKeys[i] !in m {
        m := m[footprintKeys[i] := None];
      }
    }
    return Ok(m);
  }

  /** What a built map guarantees. */
  ghost predicate Built(f: Footprint, m: StorageMap, ledgerNum: u32) {
    && m.Keys == f.Keys
    && forall k :: k in m && m[k].Some? ==>
         m[k].value.entry.key == k && (HasTtl(k) ==> m[k].value.liveUntil.Some? && m[k].value.liveUntil.value >= ledgerNum)
  }

  lemma {:induction false} LastForAccepted(f: Footprint, entries: seq<LedgerEntry>, ttls: seq<Option<u32>>, ledgerNum: u32, k: LedgerKey)
    requires AllAccepted(f, entries, ttls, ledgerNum) && LastFor(entries, ttls, k).Some?
    ensures var x := LastFor(entries, ttls, k).value;
            x.entry.key == k && EntryAccepted(f, x.entry, x.liveUntil, ledgerNum)
    decreases |entries|
  {
    var n := |entries| - 1;
    if entries[n].key == k {
      assert EntryAccepted(f, entries[n], ttls[n], ledgerNum);
    } else {
      LastForAccepted(f, entries[..n], ttls[..n], ledgerNum, k);
    }
  }

  lemma BuildsValidMap(f: Footprint, entries: seq<LedgerEntry>, ttls: seq<Option<u32>>, ledgerNum: u32, m: StorageMap)
    requires AllAccepted(f, entries, ttls, ledgerNum)
    requires m.Keys == f.Keys && forall k :: k in f ==> m[k] == LastFor(entries, ttls, k)
    ensures Built(f, m, ledgerNum)
  {
    forall k | k in m && m[k].Some?
      ensures m[k].value.entry.key == k && (HasTtl(k) ==> m[k].value.liveUntil.Some? && m[k].value.liveUntil.value >= ledgerNum)
    {
      LastForAccepted(f, entries, ttls, ledgerNum, k);
    }
  }

  // ---------- what an enforcing run may do to the map ----------

  /** A read-only entry: same data, live at least as long; absent stays absent. */
  predicate OnlyExtended(was: Option<Stored>, now: Option<Stored>) {
    match was
    case None => now.None?
    case Some(x) =>
      && now.Some? && now.value.entry == x.entry
      && (match x.liveUntil
          case None => now.value.liveUntil.None?
          case Some(l) => now.value.liveUntil.Some? && now.value.liveUntil.value >= l)
  }

  ghost predicate Framed(f: Footprint, init: StorageMap, m: StorageMap) {
    && m.Keys == f.Keys && init.Keys == f.Keys
    && forall k :: k in f && f[k] == ReadOnly ==> OnlyExtended(init[k], m[k])
  }

  ghost predicate HostFramed(f: Footprint, init: StorageMap, h: Host) {
    && h.store.mode == Enforcing && h.store.footprint == f
    && Framed(f, init, h.store.entries)
    && forall i :: 0 <= i < |h.saved| ==> Framed(f, init, h.saved[i])
  }

  lemma ApplyFramed(li: LedgerInfo, f: Footprint, init: StorageMap, s: Store, op: Op)
    requires s.mode == Enforcing && s.footprint == f && Framed(f, init, s.entries)
    ensures var x := Apply(li, s, op).store; x.mode == Enforcing && x.footprint == f && Framed(f, init, x.entries)
  {
  }

  lemma {:induction false} RunFramed(li: LedgerInfo, f: Footprint, init: StorageMap, h: Host, ops: seq<Op>)
    requires HostFramed(f, init, h)
    ensures HostFramed(f, init, Run(li, h, ops))
    decreases |ops|
  {
    if ops != [] {
      ApplyFramed(li, f, init, h.store, ops[0]);
      RunFramed(li, f, init, Next(li, h, ops[0]), ops[1..]);
    }
  }

  // ---------- live-until ledgers of what survives ----------

  ghost predicate CarriesTtl(m: StorageMap) {
    forall k :: k in m && m[k].Some? && HasTtl(k) ==> m[k].value.liveUntil.Some?
  }

  predicate PutsCarryTtl(ops: seq<Op>) {
    forall i :: 0 <= i < |ops| && ops[i].OpPut? && HasTtl(ops[i].key) ==> ops[i].liveUntil.Some?
  }

  lemma {:induction false} RunCarriesTtl(li: LedgerInfo, h: Host, ops: seq<Op>)
    requires h.store.mode.Enforcing? && PutsCarryTtl(ops) && CarriesTtl(h.store.entries)
    requires forall i :: 0 <= i < |h.saved| ==> CarriesTtl(h.saved[i])
    ensures CarriesTtl(Run(li, h, ops).store.entries)
    decreases |ops|
  {
    if ops != [] {
      assert CarriesTtl(Apply(li, h.store, ops[0]).store.entries);
      RunCarriesTtl(li, Next(li, h, ops[0]), ops[1..]);
    }
  }

  // ---------- the reported changes ----------

  datatype TtlChange = TtlChange(durability: Durability, oldLiveUntil: u32, newLiveUntil: u32)

  /** `newValue` stands for the encoded entry; `size` gives encoded lengths, which fit in 32 bits. */
  datatype Change = Change(readOnly: bool, key: LedgerKey, oldSize: u32, newValue: Option<LedgerEntry>, ttl: Option<TtlChange>)

  function Max(a: u32, b: u32): u32 { if a >= b then a else b }

  function ChangeOf(f: Footprint, init: StorageMap, m: StorageMap, k: LedgerKey, size: LedgerEntry -> u32): Result<Change, Error>
    requires k in m
  {
    if k !in init then Err(InternalError)
    else
      var was, now := init[k], m[k];
      var oldSize := if was.Some? then size(was.value.entry) else 0;
      if HasTtl(k) && ((was.Some? && was.value.liveUntil.None?) || (now.Some? && now.value.liveUntil.None?)) then Err(InternalError)
      else if k !in f then Err(InternalError)
      else
        var ttl :=
          if !HasTtl(k) then None
          else
            var oldLive := if was.Some? then was.value.liveUntil.value else 0;
            Some(TtlChange(KeyDurability(k).value, oldLive,
                           if now.Some? then Max(now.value.liveUntil.value, oldLive) else 0));
        var newValue := if f[k].ReadWrite? && now.Some? then Some(now.value.entry) else None;
        Ok(Change(f[k].ReadOnly?, k, oldSize, newValue, ttl))
  }

  /** Each key listed once. */
  ghost predicate Lists(keys: seq<LedgerKey>, all: set<LedgerKey>) {
    && (forall k :: k in keys <==> k in all)
    && (forall i, j :: 0 <= i < j < |keys| ==> keys[i] != keys[j])
  }

  /** One change per key of the map, in the map's order `keys`; stops at the first error. */
  method GetLedgerChanges(f: Footprint, m: StorageMap, keys: seq<LedgerKey>, init: StorageMap, size: LedgerEntry -> u32)
    returns (r: Result<seq<Change>, Error>)
    requires Lists(keys, m.Keys)
    ensures r.Ok? <==> forall k :: k in m ==> ChangeOf(f, init, m, k, size).Ok?
    ensures r.Ok? ==> |r.value| == |keys| && forall i :: 0 <= i < |keys| ==> ChangeOf(f, init, m, keys[i], size) == Ok(r.value[i])
    ensures r.Err? ==> r.error == InternalError
  {
    var changes: seq<Change> := [];
    for i := 0 to |keys|
      invariant |changes| == i
      invariant forall j :: 0 <= j < i ==> ChangeOf(f, init, m, keys[j], size) == Ok(changes[j])
    {
      var key := keys[i];
      assert key in m;
      var change := Change(false, key, 0, None, None);
      if HasTtl(key) {
        change := change.(ttl := Some(TtlChange(KeyDurability(key).value, 0, 0)));
      }
      if key !in init { return Err(InternalError); }
      if init[key].Some? {
        var was := init[key].value;
        change := change.(oldSize := size(was.entry));
        if change.ttl.Some? {
          if was.liveUntil.None? { return Err(InternalError); }
          change := change.(ttl := Some(change.ttl.value.(oldLiveUntil := was.liveUntil.value)));
        }
      }
      if m[key].Some? && change.ttl.Some? {
        var now := m[key].value;
        if now.liveUntil.None? { return Err(InternalError); }
        change := change.(ttl := Some(change.ttl.value.(newLiveUntil := Max(now.liveUntil.value, change.ttl.value.oldLiveUntil))));
      }
      if key !in f { return Err(InternalError); }
      match f[key] {
        case ReadOnly => change := change.(readOnly := true);
        case ReadWrite =>
          if m[key].Some? {
            change := change.(newValue := Some(m[key].value.entry));
          }
      }
      changes := changes + [change];
    }
    return Ok(changes);
  }

  /** What a reported change promises, against the maps before and after: the old size and
      live-until ledger are those before the run, zero for an absent entry; the new live-until
      ledger of a surviving entry is the later one of before and after, and zero once removed. */
  predicate Faithful(f: Footprint, init: StorageMap, m: StorageMap, c: Change, size: LedgerEntry -> u32)
    requires c.key in f && c.key in init && c.key in m
  {
    && c.readOnly == f[c.key].ReadOnly?
    && c.oldSize == (match init[c.key] case None => 0 case Some(x) => size(x.entry))
    && c.newValue == (if m[c.key].Some? && f[c.key].ReadWrite? then Some(m[c.key].value.entry) else None)
    && (c.ttl.Some? <==> HasTtl(c.key))
    && (c.ttl.Some? ==>
          var TtlChange(durability, was, now) := c.ttl.value;
          && KeyDurability(c.key) == Some(durability)
          && (match init[c.key] case None => was == 0 case Some(x) => x.liveUntil == Some(was))
          && (match m[c.key]
              case None => now == 0
              case Some(x) => x.liveUntil.Some? && now >= was && now >= x.liveUntil.value && (now == was || Some(now) == x.liveUntil)))
    && (c.readOnly && m[c.key].Some? && c.ttl.Some? ==> Some(c.ttl.value.newLiveUntil) == m[c.key].value.liveUntil)
  }

  /** From a built map, after any operations and frames: the map still has exactly the
      footprint's keys; read-only entries kept their data and at most live longer; the changes
      can be reported exactly if every surviving entry that needs a live-until ledger has one,
      which puts that carry one guarantee; and then each change is faithful, so no read-only key
      gets a new value and no surviving entry's live-until ledger is reduced. */
  lemma EnforcingChanges(li: LedgerInfo, f: Footprint, init: StorageMap, ledgerNum: u32, ops: seq<Op>, size: LedgerEntry -> u32)
    requires Built(f, init, ledgerNum)
    ensures var m := Run(li, StartEnforcing(f, init), ops).store.entries;
            && Framed(f, init, m)
            && ((forall k :: k in m ==> ChangeOf(f, init, m, k, size).Ok?) <==> CarriesTtl(m))
            && (PutsCarryTtl(ops) ==> CarriesTtl(m))
            && forall k :: k in m && ChangeOf(f, init, m, k, size).Ok? ==>
                 var c := ChangeOf(f, init, m, k, size).value;
                 c.key == k && Faithful(f, init, m, c, size)
  {
    hide Run;
    var h := StartEnforcing(f, init);
    forall k | k in f ensures OnlyExtended(init[k], init[k]) { }
    RunFramed(li, f, init, h, ops);
    if PutsCarryTtl(ops) { RunCarriesTtl(li, h, ops); }
    var m := Run(li, h, ops).store.entries;
    forall k | k in m ensures ChangeOf(f, init, m, k, size).Ok? <==> (m[k].Some? && HasTtl(k) ==> m[k].value.liveUntil.Some?) { }
  }

  // ---------- a whole invocation ----------

  function FootprintOf(readWrite: seq<LedgerKey>, readOnly: seq<LedgerKey>): Footprint {
    map k | k in readWrite + readOnly :: if k in readOnly then ReadOnly else ReadWrite
  }

  /** The map before the run: each footprint key with its last submitted entry. */
  function MapOf(f: Footprint, entries: seq<LedgerEntry>, ttls: seq<Option<u32>>): StorageMap
    requires |entries| == |ttls|
  {
    map k | k in f :: LastFor(entries, ttls, k)
  }

  ghost predicate WellFormed(readWrite: seq<LedgerKey>, readOnly: seq<LedgerKey>, entries: seq<LedgerEntry>, ttls: seq<Option<u32>>, ledgerNum: u32) {
    && (forall k :: k in readWrite + readOnly ==> SupportedKey(k))
    && AllAccepted(FootprintOf(readWrite, readOnly), entries, ttls, ledgerNum)
  }

  /** Build the footprint and the map, run, and report. A failed invocation reports nothing. For a
      successful one this goes through exactly if the input is well-formed and every surviving
      entry that needs a live-until ledger has one, which puts that carry one guarantee. Then
      there is one change for each submitted key, in the map's order, faithful to the last
      submitted entry and to the entry after the run; and read-only entries have kept their
      data. */
  method InvokeHostFunction(li: LedgerInfo, readWrite: seq<LedgerKey>, readOnly: seq<LedgerKey>, keys: seq<LedgerKey>,
                            entries: seq<LedgerEntry>, ttls: seq<Option<u32>>, ops: seq<Op>, succeeds: bool, size: LedgerEntry -> u32)
    returns (r: Result<seq<Change>, Error>)
    requires Lists(keys, FootprintOf(readWrite, readOnly).Keys)
    ensures r.Err? ==> r.error == InternalError
    ensures r.Ok? ==> WellFormed(readWrite, readOnly, entries, ttls, li.sequence)
    ensures WellFormed(readWrite, readOnly, entries, ttls, li.sequence) && !succeeds ==> r == Ok([])
    ensures WellFormed(readWrite, readOnly, entries, ttls, li.sequence) && succeeds ==>
              var f := FootprintOf(readWrite, readOnly);
              var init := MapOf(f, entries, ttls);
              var m := Run(li, StartEnforcing(f, init), ops).store.entries;
              && (r.Ok? <==> CarriesTtl(m)) && (PutsCarryTtl(ops) ==> r.Ok?)
              && Framed(f, init, m)
              && (r.Ok? ==>
                    && |r.value| == |keys|
                    && forall i :: 0 <= i < |keys| ==> r.value[i].key == keys[i] && Faithful(f, init, m, r.value[i], size))
  {
    hide Run, LastFor, Faithful, ChangeOf, EntryAccepted, SupportedKey;
    var footprint := BuildFootprint(readWrite, readOnly);
    if footprint.Err? { return Err(footprint.error); }
    var f := footprint.value;
    assert f == FootprintOf(readWrite, readOnly);
    var built := BuildStorageMap(f, keys, entries, ttls, li.sequence);
    if built.Err? { return Err(built.error); }
    var init := built.value;
    assert init == MapOf(f, entries, ttls);
    if !succeeds { return Ok([]); }
    BuildsValidMap(f, entries, ttls, li.sequence, init);
    var m := Run(li, StartEnforcing(f, init), ops).store.entries;
    EnforcingChanges(li, f, init, li.sequence, ops, size);
    r := GetLedgerChanges(f, m, keys, init, size);
  }
}
