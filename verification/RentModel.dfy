/** Rent fees, in saturating 64-bit arithmetic. */
module RentModel {
  import opened Arithmetic

  const TTL_ENTRY_SIZE: u32 := 48
  const DATA_SIZE_1KB_INCREMENT: i64 := 1024

  function Sat(x: int): i64 {
    if x < I64_MIN then I64_MIN else if x > I64_MAX then I64_MAX else x
  }

  function SatAdd(a: int, b: int): i64 { Sat(a + b) }

  function SatMul(a: i64, b: i64): i64 { Sat(a * b) }

  function SatAdd32(a: u32, b: u32): u32 { if a + b <= U32_MAX then a + b else U32_MAX }

  /** The quotient rounded up. */
  function DivCeil(n: int, d: int): int
    requires d > 0
  {
    n / d + if n % d > 0 then 1 else 0
  }

  /** An entry before and after a transaction; a new entry has size and live-until zero before. */
  datatype RentChange = RentChange(isPersistent: bool, oldSize: u32, newSize: u32, oldLiveUntil: u32, newLiveUntil: u32)

  datatype RentConfig = RentConfig(feePerWrite1kb: i64, feePerWriteEntry: i64, persistentDenominator: i64, temporaryDenominator: i64)

  /** The configuration the rent fees rely on. */
  predicate Sane(cfg: RentConfig) {
    cfg.feePerWrite1kb >= 0 && cfg.feePerWriteEntry >= 0 && cfg.persistentDenominator > 0 && cfg.temporaryDenominator > 0
  }

  // ---------- one entry ----------

  predicate IsNew(e: RentChange) {
    e.oldSize == 0 && e.oldLiveUntil == 0
  }

  /** The number of ledgers in (lo, hi], or a failure. */
  function ExclusiveDiff(lo: u32, hi: u32): int {
    if hi >= lo then hi - lo else -1
  }

  /** The ledgers the entry is extended by, negative if it is not extended. */
  function ExtensionLedgers(e: RentChange, current: u32): int {
    ExclusiveDiff(if IsNew(e) then (if current > 0 then current - 1 else 0) else e.oldLiveUntil, e.newLiveUntil)
  }

  /** The ledgers paid for at the old size, the current one included; negative if there are none. */
  function PrepaidLedgers(e: RentChange, current: u32): int {
    if IsNew(e) || e.oldLiveUntil < current then -1 else SatAdd32(e.oldLiveUntil - current, 1)
  }

  function Denominator(isPersistent: bool, cfg: RentConfig): i64 {
    SatMul(DATA_SIZE_1KB_INCREMENT, if isPersistent then cfg.persistentDenominator else cfg.temporaryDenominator)
  }

  function LedgerRent(isPersistent: bool, size: u32, ledgers: u32, cfg: RentConfig): int
    requires Sane(cfg)
  {
    DivCeil(SatMul(SatMul(size, cfg.feePerWrite1kb), ledgers), Denominator(isPersistent, cfg))
  }

  /** New ledgers cost rent at the new size; ledgers paid for at a smaller size are topped up. */
  function EntryFee(e: RentChange, cfg: RentConfig, current: u32): i64
    requires Sane(cfg)
  {
    var extension := ExtensionLedgers(e, current);
    var fee := if extension >= 0 then SatAdd(0, LedgerRent(e.isPersistent, e.newSize, extension, cfg)) else 0;
    var prepaid := PrepaidLedgers(e, current);
    if prepaid >= 0 && e.newSize >= e.oldSize then SatAdd(fee, LedgerRent(e.isPersistent, e.newSize - e.oldSize, prepaid, cfg))
    else fee
  }

  // ---------- all entries ----------

  predicate Extended(e: RentChange) {
    e.oldLiveUntil < e.newLiveUntil
  }

  /** What the loop over the entries accumulates. */
  datatype Accumulated = Accumulated(fee: i64, extended: i64, keyBytes: u32)

  function Accumulate(entries: seq<RentChange>, cfg: RentConfig, current: u32): Accumulated
    requires Sane(cfg)
  {
    if entries == [] then Accumulated(0, 0, 0)
    else
      var a, e := Accumulate(entries[..|entries| - 1], cfg, current), entries[|entries| - 1];
      Accumulated(SatAdd(a.fee, EntryFee(e, cfg, current)),
                  if Extended(e) then SatAdd(a.extended, 1) else a.extended,
                  if Extended(e) then SatAdd32(a.keyBytes, TTL_ENTRY_SIZE) else a.keyBytes)
  }

  function FeePerIncrement(value: u32, rate: i64, increment: i64): int
    requires increment > 0
  {
    DivCeil(SatMul(value, rate), increment)
  }

  /** Extensions are written to the ledger, so each pays for an entry of its own. */
  function WithWriteFees(a: Accumulated, cfg: RentConfig): i64 {
    var fee := SatAdd(a.fee, SatMul(cfg.feePerWriteEntry, a.extended));
    SatAdd(fee, FeePerIncrement(a.keyBytes, cfg.feePerWrite1kb, DATA_SIZE_1KB_INCREMENT))
  }

  function RentFee(entries: seq<RentChange>, cfg: RentConfig, current: u32): i64
    requires Sane(cfg)
  {
    WithWriteFees(Accumulate(entries, cfg, current), cfg)
  }

  // ---------- as the source computes them ----------

  method RentFeePerEntryChange(e: RentChange, cfg: RentConfig, current: u32) returns (fee: i64)
    requires Sane(cfg)
    ensures fee == EntryFee(e, cfg, current)
  {
    fee := 0;
    var extension := ExtensionLedgers(e, current);
    if extension >= 0 {
      fee := SatAdd(fee, LedgerRent(e.isPersistent, e.newSize, extension, cfg));
    }
    var prepaid := PrepaidLedgers(e, current);
    if prepaid >= 0 && e.newSize >= e.oldSize {
      fee := SatAdd(fee, LedgerRent(e.isPersistent, e.newSize - e.oldSize, prepaid, cfg));
    }
  }

  method ComputeRentFee(entries: seq<RentChange>, cfg: RentConfig, current: u32) returns (fee: i64)
    requires Sane(cfg)
    ensures fee == RentFee(entries, cfg, current)
  {
    fee := 0;
    var extended: i64, keyBytes: u32 := 0, 0;
    for i := 0 to |entries|
      invariant Accumulated(fee, extended, keyBytes) == Accumulate(entries[..i], cfg, current)
    {
      assert entries[..i + 1][..i] == entries[..i];
      var e := entries[i];
      var entryFee := RentFeePerEntryChange(e, cfg, current);
      fee := SatAdd(fee, entryFee);
      if e.oldLiveUntil < e.newLiveUntil {
        extended := SatAdd(extended, 1);
        keyBytes := SatAdd32(keyBytes, TTL_ENTRY_SIZE);
      }
    }
    assert entries[..|entries|] == entries;
    fee := SatAdd(fee, SatMul(cfg.feePerWriteEntry, extended));
    fee := SatAdd(fee, FeePerIncrement(keyBytes, cfg.feePerWrite1kb, DATA_SIZE_1KB_INCREMENT));
  }
}
