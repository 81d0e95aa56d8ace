/** Rent does not depend on the path taken, up to rounding, nor on the order of entries; and the
    changes left out of the rent computation are the ones that cost nothing, and the read-only
    ones. */
module RentTheorems {
  import opened Wrappers
  import opened Arithmetic
  import opened RentModel
  import L = LedgerChanges
  import S = StorageModel

  // ---------- rounding up ----------

  /** Rounding up is the one number that is not too small and not too large by one. */
  lemma CeilIs(n: nat, d: nat, c: int)
    requires d > 0
    ensures DivCeil(n, d) >= 0
    ensures DivCeil(n, d) == c <==> d * (c - 1) < n <= d * c
  {
    var q, r := Divide(n, d);
    var k := DivCeil(n, d);
    Distribute(d, q, 1);
    Distribute(d, c, -1);
    Distribute(d, c - k, k);
    Multiples(d, c - k);
  }

  lemma Between(d: int, k: int)
    requires d > 0 && -d < d * k < 2 * d
    ensures 0 <= k <= 1
  {
    Multiples(d, k);
    Distribute(d, k, -2);
    Multiples(d, k - 2);
    Distribute(d, k, 1);
    Multiples(d, k + 1);
  }

  /** Paying for two parts costs at most one more than paying for the whole. */
  lemma CeilSum(a: nat, b: nat, d: nat)
    requires d > 0
    ensures DivCeil(a + b, d) <= DivCeil(a, d) + DivCeil(b, d) <= DivCeil(a + b, d) + 1
  {
    var x, y, z := DivCeil(a, d), DivCeil(b, d), DivCeil(a + b, d);
    CeilIs(a, d, x);
    CeilIs(b, d, y);
    CeilIs(a + b, d, z);
    hide DivCeil;
    Distribute(d, x, -1);
    Distribute(d, y, -1);
    Distribute(d, z, -1);
    Distribute(d, x, y);
    Distribute(d, x + y - z, z);
    Between(d, x + y - z);
  }

  lemma CeilBounds(n: nat, d: nat)
    requires n <= I64_MAX && d >= 1024
    ensures 0 <= DivCeil(n, d) <= I64_MAX / 1024 + 1
  {
    var c := DivCeil(n, d);
    CeilIs(n, d, c);
    hide DivCeil;
    if c >= 1 {
      ProductNonNegative(d - 1024, c - 1);
      Distribute(c - 1, d - 1024, 1024);
    }
  }

  /** A fee is non-negative and far from saturating. */
  lemma RentBounds(isPersistent: bool, size: u32, ledgers: u32, cfg: RentConfig)
    requires Sane(cfg)
    ensures 0 <= LedgerRent(isPersistent, size, ledgers, cfg) <= I64_MAX / 1024 + 1
  {
    ProductNonNegative(size, cfg.feePerWrite1kb);
    ProductNonNegative(SatMul(size, cfg.feePerWrite1kb), ledgers);
    CeilBounds(SatMul(SatMul(size, cfg.feePerWrite1kb), ledgers), Denominator(isPersistent, cfg));
  }

  // ---------- paths ----------

  /** What an extension by some ledgers and a growth over prepaid ledgers cost in one go. */
  lemma ExistingEntryFee(e: RentChange, cfg: RentConfig, current: u32)
    requires Sane(cfg) && !IsNew(e) && e.oldLiveUntil <= e.newLiveUntil
    ensures EntryFee(e, cfg, current) ==
              LedgerRent(e.isPersistent, e.newSize, e.newLiveUntil - e.oldLiveUntil, cfg)
              + (if current <= e.oldLiveUntil && e.oldSize <= e.newSize
                 then LedgerRent(e.isPersistent, e.newSize - e.oldSize, SatAdd32(e.oldLiveUntil - current, 1), cfg) else 0)
  {
    hide LedgerRent;
    RentBounds(e.isPersistent, e.newSize, e.newLiveUntil - e.oldLiveUntil, cfg);
    if current <= e.oldLiveUntil && e.oldSize <= e.newSize {
      RentBounds(e.isPersistent, e.newSize - e.oldSize, SatAdd32(e.oldLiveUntil - current, 1), cfg);
    }
  }

  lemma NothingCostsNothing(isPersistent: bool, size: u32, ledgers: u32, cfg: RentConfig)
    requires Sane(cfg) && (size == 0 || ledgers == 0)
    ensures LedgerRent(isPersistent, size, ledgers, cfg) == 0
  {
    hide Denominator;
    DenominatorPositive(isPersistent, cfg);
    CeilIs(0, Denominator(isPersistent, cfg), 0);
    assert 0 * cfg.feePerWrite1kb == 0;
    assert SatMul(size, cfg.feePerWrite1kb) * 0 == 0;
  }

  /** Growing an entry and then extending it costs exactly what doing both at once costs, with
      or without saturation. */
  lemma ResizeThenExtend(e: RentChange, cfg: RentConfig, current: u32)
    requires Sane(cfg) && !IsNew(e) && e.oldLiveUntil <= e.newLiveUntil && e.oldSize <= e.newSize
    ensures var resize := e.(newLiveUntil := e.oldLiveUntil);
            var extend := e.(oldSize := e.newSize);
            EntryFee(resize, cfg, current) + EntryFee(extend, cfg, current) == EntryFee(e, cfg, current)
  {
    hide EntryFee, LedgerRent;
    var resize := e.(newLiveUntil := e.oldLiveUntil);
    var extend := e.(oldSize := e.newSize);
    ExistingEntryFee(e, cfg, current);
    ExistingEntryFee(resize, cfg, current);
    ExistingEntryFee(extend, cfg, current);
    NothingCostsNothing(e.isPersistent, e.newSize, 0, cfg);
    if current <= e.oldLiveUntil { NothingCostsNothing(e.isPersistent, 0, SatAdd32(e.oldLiveUntil - current, 1), cfg); }
  }

  /** What is paid for: bytes times ledgers, at the fee per kilobyte. */
  function Area(size: int, f: int, ledgers: int): int {
    size * f * ledgers
  }

  /** All the ledgers an entry of this size may pay for, this one included, fit in 64 bits. */
  predicate Fits(cfg: RentConfig, size: u32, current: u32, liveUntil: u32) {
    current <= liveUntil && liveUntil - current < U32_MAX && Area(size, cfg.feePerWrite1kb, liveUntil - current + 1) <= I64_MAX
  }

  lemma AreaGrows(size: nat, f: nat, ledgers: nat, size': nat, ledgers': nat)
    requires size <= size' && ledgers <= ledgers'
    ensures 0 <= Area(size, f, ledgers) <= Area(size', f, ledgers')
  {
    ProductNonNegative(size, f);
    ProductNonNegative(size' - size, f);
    Distribute(f, size' - size, size);
    var p, p' := size * f, size' * f;
    ProductNonNegative(p, ledgers);
    ProductNonNegative(p, ledgers' - ledgers);
    Distribute(p, ledgers' - ledgers, ledgers);
    ProductNonNegative(p' - p, ledgers');
    Distribute(ledgers', p' - p, p);
  }

  lemma RentIsExact(isPersistent: bool, size: u32, ledgers: u32, cfg: RentConfig, size': u32, ledgers': u32)
    requires Sane(cfg) && size <= size' && ledgers <= ledgers' && ledgers' >= 1
    requires Area(size', cfg.feePerWrite1kb, ledgers') <= I64_MAX
    ensures Area(size, cfg.feePerWrite1kb, ledgers) >= 0
    ensures LedgerRent(isPersistent, size, ledgers, cfg) == DivCeil(Area(size, cfg.feePerWrite1kb, ledgers), Denominator(isPersistent, cfg))
  {
    hide DivCeil, Denominator;
    var f := cfg.feePerWrite1kb;
    AreaGrows(size, f, ledgers, size', ledgers');
    AreaGrows(size, f, 1, size', ledgers');
    assert SatMul(size, f) == size * f;
  }

  lemma DenominatorPositive(isPersistent: bool, cfg: RentConfig)
    requires Sane(cfg)
    ensures Denominator(isPersistent, cfg) > 0
  {
  }

  lemma SameArea(size: int, growth: int, f: int, ext: int, pre: int)
    ensures Area(size + growth, f, ext) + Area(growth, f, pre) == Area(size, f, ext) + Area(growth, f, ext + pre)
  {
    Distribute(f, size, growth);
    Distribute(ext, size * f, growth * f);
    Distribute(growth * f, ext, pre);
  }

  /** The fees of the two orders, by what is paid for. */
  lemma TwoStepFees(e: RentChange, cfg: RentConfig, current: u32)
    requires Sane(cfg) && !IsNew(e) && current <= e.oldLiveUntil <= e.newLiveUntil && 0 < e.oldSize <= e.newSize
    requires Fits(cfg, e.newSize, current, e.newLiveUntil)
    ensures var f, d := cfg.feePerWrite1kb, Denominator(e.isPersistent, cfg);
            var ext, pre := e.newLiveUntil - e.oldLiveUntil, e.oldLiveUntil - current + 1;
            var growth := e.newSize - e.oldSize;
            && Area(e.newSize, f, ext) >= 0 && Area(growth, f, pre) >= 0 && Area(e.oldSize, f, ext) >= 0 && Area(growth, f, ext + pre) >= 0
            && EntryFee(e, cfg, current) == DivCeil(Area(e.newSize, f, ext), d) + DivCeil(Area(growth, f, pre), d)
            && EntryFee(e.(newSize := e.oldSize), cfg, current) == DivCeil(Area(e.oldSize, f, ext), d)
            && EntryFee(e.(oldLiveUntil := e.newLiveUntil), cfg, current) == DivCeil(Area(growth, f, ext + pre), d)
  {
    hide EntryFee, Area, LedgerRent, DivCeil, Denominator, SatMul;
    ExistingEntryFee(e, cfg, current);
    ExistingEntryFee(e.(newSize := e.oldSize), cfg, current);
    ExistingEntryFee(e.(oldLiveUntil := e.newLiveUntil), cfg, current);
    var ext, pre, all := e.newLiveUntil - e.oldLiveUntil, e.oldLiveUntil - current + 1, e.newLiveUntil - current + 1;
    var growth := e.newSize - e.oldSize;
    RentIsExact(e.isPersistent, e.newSize, ext, cfg, e.newSize, all);
    RentIsExact(e.isPersistent, growth, pre, cfg, e.newSize, all);
    RentIsExact(e.isPersistent, e.oldSize, ext, cfg, e.newSize, all);
    RentIsExact(e.isPersistent, growth, all, cfg, e.newSize, all);
    NothingCostsNothing(e.isPersistent, 0, pre, cfg);
    NothingCostsNothing(e.isPersistent, e.newSize, 0, cfg);
  }

  /** Extending an entry and then growing it is within one unit of doing both at once. */
  lemma ExtendThenResize(e: RentChange, cfg: RentConfig, current: u32)
    requires Sane(cfg) && !IsNew(e) && current <= e.oldLiveUntil <= e.newLiveUntil && 0 < e.oldSize <= e.newSize
    requires Fits(cfg, e.newSize, current, e.newLiveUntil)
    ensures var extend := e.(newSize := e.oldSize);
            var resize := e.(oldLiveUntil := e.newLiveUntil);
            var twoSteps := EntryFee(extend, cfg, current) + EntryFee(resize, cfg, current);
            EntryFee(e, cfg, current) - 1 <= twoSteps <= EntryFee(e, cfg, current) + 1
  {
    hide EntryFee, Area, DivCeil, Denominator, Fits, SatMul;
    TwoStepFees(e, cfg, current);
    DenominatorPositive(e.isPersistent, cfg);
    var f, d := cfg.feePerWrite1kb, Denominator(e.isPersistent, cfg);
    var ext, pre := e.newLiveUntil - e.oldLiveUntil, e.oldLiveUntil - current + 1;
    var growth := e.newSize - e.oldSize;
    SameArea(e.oldSize, growth, f, ext, pre);
    CeilSum(Area(e.newSize, f, ext), Area(growth, f, pre), d);
    CeilSum(Area(e.oldSize, f, ext), Area(growth, f, ext + pre), d);
  }

  /** Beyond 64 bits it need not be: an entry of one byte that lives for this ledger only, grown
      to five bytes and extended by one ledger, costs far less when it is extended first. */
  lemma SaturatedOrderMatters(current: u32)
    requires 0 < current < U32_MAX
    ensures var cfg := RentConfig(0x2000_0000_0000_0000, 0, 1, 1);
            var e := RentChange(true, 1, 5, current, current + 1);
            var extend := e.(newSize := e.oldSize);
            var resize := e.(oldLiveUntil := e.newLiveUntil);
            && Sane(cfg)
            && EntryFee(extend, cfg, current) + EntryFee(resize, cfg, current) + 1_000_000_000_000_000 < EntryFee(e, cfg, current)
  {
    hide EntryFee, LedgerRent;
    var cfg := RentConfig(0x2000_0000_0000_0000, 0, 1, 1);
    var e := RentChange(true, 1, 5, current, current + 1);
    ExistingEntryFee(e, cfg, current);
    ExistingEntryFee(e.(newSize := 1), cfg, current);
    ExistingEntryFee(e.(oldLiveUntil := current + 1), cfg, current);
    NothingCostsNothing(true, 0, 1, cfg);
    NothingCostsNothing(true, 5, 0, cfg);
    SaturatedRents(cfg);
  }

  lemma SaturatedRents(cfg: RentConfig)
    requires cfg == RentConfig(0x2000_0000_0000_0000, 0, 1, 1)
    ensures LedgerRent(true, 1, 1, cfg) == 0x8_0000_0000_0000
    ensures LedgerRent(true, 5, 1, cfg) == LedgerRent(true, 4, 1, cfg) == LedgerRent(true, 4, 2, cfg) == 0x20_0000_0000_0000
  {
    assert Denominator(true, cfg) == 1024;
    assert SatMul(SatMul(1, cfg.feePerWrite1kb), 1) == 0x2000_0000_0000_0000;
    assert SatMul(SatMul(5, cfg.feePerWrite1kb), 1) == I64_MAX;
    assert SatMul(SatMul(4, cfg.feePerWrite1kb), 1) == I64_MAX;
    assert SatMul(SatMul(4, cfg.feePerWrite1kb), 2) == I64_MAX;
    hide SatMul, Denominator;
    CeilIs(0x2000_0000_0000_0000, 1024, 0x8_0000_0000_0000);
    CeilIs(I64_MAX, 1024, 0x20_0000_0000_0000);
  }

  /** The extensions of one entry from stop to stop, the k-th made at ledger `at[k]`. */
  function SplitFee(isPersistent: bool, size: u32, stops: seq<u32>, at: seq<u32>, cfg: RentConfig): int
    requires Sane(cfg) && |at| + 1 == |stops|
  {
    if at == [] then 0
    else
      var n := |at|;
      SplitFee(isPersistent, size, stops[..n], at[..n - 1], cfg)
      + EntryFee(RentChange(isPersistent, size, size, stops[n - 1], stops[n]), cfg, at[n - 1])
  }

  predicate Ascending(stops: seq<u32>) {
    forall i, j :: 0 <= i <= j < |stops| ==> stops[i] <= stops[j]
  }

  /** Splitting an extension into k steps, made whenever, costs at least what one step costs and
      at most k - 1 more. */
  lemma {:induction false} SplitExtension(isPersistent: bool, size: u32, stops: seq<u32>, at: seq<u32>, cfg: RentConfig, current: u32)
    requires Sane(cfg) && size > 0 && |at| >= 1 && |at| + 1 == |stops| && Ascending(stops)
    requires Fits(cfg, size, stops[0], stops[|at|])
    ensures var oneStep := EntryFee(RentChange(isPersistent, size, size, stops[0], stops[|at|]), cfg, current);
            oneStep <= SplitFee(isPersistent, size, stops, at, cfg) <= oneStep + |at| - 1
    decreases |at|
  {
    hide EntryFee, Area, DivCeil, Denominator;
    var n := |at|;
    if n == 1 {
      assert SplitFee(isPersistent, size, stops[..1], at[..0], cfg) == 0;
      LedgerIsIrrelevant(isPersistent, size, stops[0], stops[1], cfg, current, at[0]);
    } else {
      assert Ascending(stops[..n]);
      FitsEarlier(cfg, size, stops[0], stops[n - 1], stops[n]);
      SplitExtension(isPersistent, size, stops[..n], at[..n - 1], cfg, current);
      OneMoreStop(isPersistent, size, stops[0], stops[n - 1], stops[n], cfg, current, at[n - 1]);
    }
  }

  lemma FitsEarlier(cfg: RentConfig, size: u32, from: u32, mid: u32, to: u32)
    requires Sane(cfg) && from <= mid <= to && Fits(cfg, size, from, to)
    ensures Fits(cfg, size, from, mid)
  {
    AreaGrows(size, cfg.feePerWrite1kb, mid - from + 1, size, to - from + 1);
  }

  lemma LedgerIsIrrelevant(isPersistent: bool, size: u32, from: u32, to: u32, cfg: RentConfig, current: u32, current': u32)
    requires Sane(cfg) && size > 0 && from <= to && Fits(cfg, size, from, to)
    ensures EntryFee(RentChange(isPersistent, size, size, from, to), cfg, current) == EntryFee(RentChange(isPersistent, size, size, from, to), cfg, current')
  {
    ExtensionFee(isPersistent, size, from, to, cfg, current, to - from + 1);
    ExtensionFee(isPersistent, size, from, to, cfg, current', to - from + 1);
  }

  lemma AreaSplits(size: int, f: int, a: int, b: int)
    ensures Area(size, f, a) + Area(size, f, b) == Area(size, f, a + b)
  {
    Distribute(size * f, a, b);
  }

  lemma OneMoreStop(isPersistent: bool, size: u32, from: u32, mid: u32, to: u32, cfg: RentConfig, current: u32, later: u32)
    requires Sane(cfg) && size > 0 && from <= mid <= to && Fits(cfg, size, from, to)
    ensures var whole := EntryFee(RentChange(isPersistent, size, size, from, to), cfg, current);
            var first := EntryFee(RentChange(isPersistent, size, size, from, mid), cfg, current);
            var second := EntryFee(RentChange(isPersistent, size, size, mid, to), cfg, later);
            whole <= first + second <= whole + 1
  {
    var all := to - from + 1;
    ExtensionFee(isPersistent, size, from, to, cfg, current, all);
    ExtensionFee(isPersistent, size, from, mid, cfg, current, all);
    ExtensionFee(isPersistent, size, mid, to, cfg, later, all);
    var f := cfg.feePerWrite1kb;
    AreaSplits(size, f, mid - from, to - mid);
    hide EntryFee, Area, DivCeil;
    CeilSum(Area(size, f, mid - from), Area(size, f, to - mid), Denominator(isPersistent, cfg));
  }

  lemma ExtensionFee(isPersistent: bool, size: u32, from: u32, to: u32, cfg: RentConfig, current: u32, ledgers: u32)
    requires Sane(cfg) && size > 0 && from <= to && to - from <= ledgers && ledgers >= 1
    requires Area(size, cfg.feePerWrite1kb, ledgers) <= I64_MAX
    ensures EntryFee(RentChange(isPersistent, size, size, from, to), cfg, current)
              == DivCeil(Area(size, cfg.feePerWrite1kb, to - from), Denominator(isPersistent, cfg))
    ensures Area(size, cfg.feePerWrite1kb, to - from) >= 0
  {
    hide EntryFee, Area, LedgerRent, DivCeil, Denominator;
    ExistingEntryFee(RentChange(isPersistent, size, size, from, to), cfg, current);
    RentIsExact(isPersistent, size, to - from, cfg, size, ledgers);
    if current <= from { NothingCostsNothing(isPersistent, 0, SatAdd32(from - current, 1), cfg); }
  }

  /** Creating an entry pays for every ledger from the current one on, and creating it with a
      short life and then extending it costs what creating it with the long life costs, or one
      more. */
  lemma CreateThenExtend(isPersistent: bool, size: u32, mid: u32, to: u32, cfg: RentConfig, current: u32, later: u32)
    requires Sane(cfg) && size > 0 && 0 < current <= mid <= to && Fits(cfg, size, current - 1, to)
    ensures var create := EntryFee(RentChange(isPersistent, 0, size, 0, mid), cfg, current);
            var extend := EntryFee(RentChange(isPersistent, size, size, mid, to), cfg, later);
            var oneStep := EntryFee(RentChange(isPersistent, 0, size, 0, to), cfg, current);
            && oneStep == LedgerRent(isPersistent, size, to - current + 1, cfg)
            && oneStep <= create + extend <= oneStep + 1
  {
    NewEntryFee(isPersistent, size, mid, cfg, current);
    NewEntryFee(isPersistent, size, to, cfg, current);
    FitsEarlier(cfg, size, current - 1, mid, to);
    OneMoreStop(isPersistent, size, current - 1, mid, to, cfg, current, later);
  }

  /** A new entry pays like one that lived until the ledger before the current one. */
  lemma NewEntryFee(isPersistent: bool, size: u32, to: u32, cfg: RentConfig, current: u32)
    requires Sane(cfg) && size > 0 && 0 < current <= to
    ensures EntryFee(RentChange(isPersistent, 0, size, 0, to), cfg, current) == LedgerRent(isPersistent, size, to - current + 1, cfg)
    ensures EntryFee(RentChange(isPersistent, size, size, current - 1, to), cfg, current) == LedgerRent(isPersistent, size, to - current + 1, cfg)
  {
    RentBounds(isPersistent, size, to - current + 1, cfg);
  }

  // ---------- order ----------

  function SumFees(entries: seq<RentChange>, cfg: RentConfig, current: u32): int
    requires Sane(cfg)
  {
    if entries == [] then 0
    else SumFees(entries[..|entries| - 1], cfg, current) + EntryFee(entries[|entries| - 1], cfg, current)
  }

  function CountExtended(entries: seq<RentChange>): nat {
    if entries == [] then 0
    else CountExtended(entries[..|entries| - 1]) + if entries[|entries| - 1].oldLiveUntil < entries[|entries| - 1].newLiveUntil then 1 else 0
  }

  lemma EntryFeeNonNegative(e: RentChange, cfg: RentConfig, current: u32)
    requires Sane(cfg)
    ensures EntryFee(e, cfg, current) >= 0
  {
    var extension, prepaid := ExtensionLedgers(e, current), PrepaidLedgers(e, current);
    if extension >= 0 { RentBounds(e.isPersistent, e.newSize, extension, cfg); }
    if prepaid >= 0 && e.newSize >= e.oldSize { RentBounds(e.isPersistent, e.newSize - e.oldSize, prepaid, cfg); }
  }

  /** With fees that are never negative, saturating step by step is saturating once at the end. */
  lemma {:induction false} AccumulateIsSum(entries: seq<RentChange>, cfg: RentConfig, current: u32)
    requires Sane(cfg)
    ensures SumFees(entries, cfg, current) >= 0
    ensures var a := Accumulate(entries, cfg, current);
            && a.fee == Sat(SumFees(entries, cfg, current))
            && a.extended == Sat(CountExtended(entries))
            && a.keyBytes == if TTL_ENTRY_SIZE * CountExtended(entries) <= U32_MAX then TTL_ENTRY_SIZE * CountExtended(entries) else U32_MAX
    decreases |entries|
  {
    if entries != [] {
      AccumulateIsSum(entries[..|entries| - 1], cfg, current);
      EntryFeeNonNegative(entries[|entries| - 1], cfg, current);
    }
  }

  lemma {:induction false} SumsWithout(entries: seq<RentChange>, k: nat, cfg: RentConfig, current: u32)
    requires Sane(cfg) && k < |entries|
    ensures var rest := entries[..k] + entries[k + 1..];
            && SumFees(entries, cfg, current) == SumFees(rest, cfg, current) + EntryFee(entries[k], cfg, current)
            && CountExtended(entries) == CountExtended(rest) + if Extended(entries[k]) then 1 else 0
    decreases |entries|
  {
    hide EntryFee;
    var n := |entries| - 1;
    var rest := entries[..k] + entries[k + 1..];
    if k == n {
      assert rest == entries[..n];
    } else {
      SumsWithout(entries[..n], k, cfg, current);
      assert rest[..n - 1] == entries[..n][..k] + entries[..n][k + 1..];
      assert rest[n - 1] == entries[n];
    }
  }

  lemma MultisetWithout(b: seq<RentChange>, k: nat)
    requires k < |b|
    ensures multiset(b[..k] + b[k + 1..]) == multiset(b) - multiset{b[k]}
  {
    assert b == b[..k] + [b[k]] + b[k + 1..];
  }

  lemma {:induction false} SumsPermute(a: seq<RentChange>, b: seq<RentChange>, cfg: RentConfig, current: u32)
    requires Sane(cfg) && multiset(a) == multiset(b)
    ensures SumFees(a, cfg, current) == SumFees(b, cfg, current) && CountExtended(a) == CountExtended(b)
    decreases |a|
  {
    hide EntryFee;
    if a == [] {
      assert |b| == |multiset(b)| == 0;
    } else {
      var n := |a| - 1;
      var x := a[n];
      assert a == a[..n] + [x];
      assert x in multiset(b);
      var k :| 0 <= k < |b| && b[k] == x;
      var rest := b[..k] + b[k + 1..];
      MultisetWithout(b, k);
      MultisetWithout(a, n);
      assert a[..n] + a[n + 1..] == a[..n];
      SumsPermute(a[..n], rest, cfg, current);
      SumsWithout(b, k, cfg, current);
    }
  }

  /** The rent fee depends only on which changes there are, even where it saturates. */
  lemma OrderIsIrrelevant(a: seq<RentChange>, b: seq<RentChange>, cfg: RentConfig, current: u32)
    requires Sane(cfg) && multiset(a) == multiset(b)
    ensures RentFee(a, cfg, current) == RentFee(b, cfg, current)
  {
    AccumulateIsSum(a, cfg, current);
    AccumulateIsSum(b, cfg, current);
    SumsPermute(a, b, cfg, current);
  }

  // ---------- the fees, over the configuration ----------

  function Cap(x: int): int { if x <= I64_MAX then x else I64_MAX }

  /** `c` is the quotient rounded up. */
  predicate IsCeil(num: int, den: int, c: int) {
    den * (c - 1) < num && num <= den * c
  }

  /** Bytes times fee per kilobyte times ledgers over the kilobyte times the rate denominator of
      the durability, rounded up. */
  predicate IsRent(isPersistent: bool, size: nat, ledgers: nat, cfg: RentConfig, c: int)
    requires Sane(cfg)
  {
    IsCeil(Cap(Cap(size * cfg.feePerWrite1kb) * ledgers),
           Cap(1024 * if isPersistent then cfg.persistentDenominator else cfg.temporaryDenominator), c)
  }

  /** The ledgers from the one before the current, for a new entry, or from the old live-until
      ledger to the new one. */
  function PaidAnew(e: RentChange, current: u32): int {
    var from := if e.oldSize == 0 && e.oldLiveUntil == 0 then (if current > 0 then current - 1 else 0) else e.oldLiveUntil;
    if from <= e.newLiveUntil then e.newLiveUntil - from else 0
  }

  /** The ledgers an existing entry had been paid for, this one included. */
  function PaidBefore(e: RentChange, current: u32): int {
    if (e.oldSize == 0 && e.oldLiveUntil == 0) || e.oldLiveUntil < current then 0
    else if e.oldLiveUntil - current < U32_MAX then e.oldLiveUntil - current + 1 else U32_MAX
  }

  function Growth(e: RentChange): int {
    if e.oldSize <= e.newSize then e.newSize - e.oldSize else 0
  }

  lemma RentIs(isPersistent: bool, size: u32, ledgers: u32, cfg: RentConfig, c: int)
    requires Sane(cfg)
    ensures IsRent(isPersistent, size, ledgers, cfg, c) <==> c == LedgerRent(isPersistent, size, ledgers, cfg)
  {
    var f := cfg.feePerWrite1kb;
    ProductNonNegative(size, f);
    ProductNonNegative(SatMul(size, f), ledgers);
    CeilIs(SatMul(SatMul(size, f), ledgers), Denominator(isPersistent, cfg), c);
    hide DivCeil;
  }

  /** The fee of an entry: rent at the new size for the ledgers paid anew, and rent at the growth
      for those paid before; saturation included. */
  lemma EntryFeeExactly(e: RentChange, cfg: RentConfig, current: u32, anew: int, growth: int)
    requires Sane(cfg)
    requires IsRent(e.isPersistent, e.newSize, PaidAnew(e, current), cfg, anew)
    requires IsRent(e.isPersistent, Growth(e), PaidBefore(e, current), cfg, growth)
    ensures EntryFee(e, cfg, current) == anew + growth
  {
    hide LedgerRent, IsRent;
    RentIs(e.isPersistent, e.newSize, PaidAnew(e, current), cfg, anew);
    RentIs(e.isPersistent, Growth(e), PaidBefore(e, current), cfg, growth);
    NothingCostsNothing(e.isPersistent, e.newSize, 0, cfg);
    NothingCostsNothing(e.isPersistent, Growth(e), 0, cfg);
    NothingCostsNothing(e.isPersistent, 0, PaidBefore(e, current), cfg);
    RentBounds(e.isPersistent, e.newSize, PaidAnew(e, current), cfg);
    RentBounds(e.isPersistent, Growth(e), PaidBefore(e, current), cfg);
  }

  /** There is always such a fee, and only one. */
  lemma RentIsUnique(isPersistent: bool, size: u32, ledgers: u32, cfg: RentConfig) returns (c: nat)
    requires Sane(cfg)
    ensures IsRent(isPersistent, size, ledgers, cfg, c)
    ensures forall d :: IsRent(isPersistent, size, ledgers, cfg, d) ==> d == c
  {
    hide IsRent, LedgerRent;
    RentBounds(isPersistent, size, ledgers, cfg);
    c := LedgerRent(isPersistent, size, ledgers, cfg);
    forall d ensures IsRent(isPersistent, size, ledgers, cfg, d) <==> d == c { RentIs(isPersistent, size, ledgers, cfg, d); }
  }

  /** How many entries are extended, and the bytes their extensions write, 48 for each, as far as
      the counters reach. */
  predicate Extensions(entries: seq<RentChange>, count: int, bytes: int) {
    && count == Cap(CountExtended(entries))
    && bytes == if 48 * CountExtended(entries) <= U32_MAX then 48 * CountExtended(entries) else U32_MAX
  }

  /** The write fee of `count` entries. */
  function EntryWrites(count: int, cfg: RentConfig): int {
    Cap(cfg.feePerWriteEntry * count)
  }

  /** `c` is the fee for the bytes written, rounded up to the kilobyte. */
  predicate IsByteFee(bytes: int, cfg: RentConfig, c: int) {
    IsCeil(Cap(bytes * cfg.feePerWrite1kb), 1024, c)
  }

  /** The rent fee: the entry fees, the write fee of each extended entry, and the fee for the
      bytes the extensions write. */
  lemma RentFeeExactly(entries: seq<RentChange>, cfg: RentConfig, current: u32, count: int, bytes: int, writes: int)
    requires Sane(cfg) && Extensions(entries, count, bytes) && IsByteFee(bytes, cfg, writes)
    ensures SumFees(entries, cfg, current) >= 0 && writes >= 0
    ensures RentFee(entries, cfg, current) == Cap(SumFees(entries, cfg, current) + EntryWrites(count, cfg) + writes)
  {
    hide Accumulate, SumFees, IsByteFee, EntryWrites, WithWriteFees, Cap, Extensions;
    Accumulates(entries, cfg, current, count, bytes);
    WriteFeesExactly(Accumulate(entries, cfg, current), cfg, SumFees(entries, cfg, current), writes);
  }

  lemma Accumulates(entries: seq<RentChange>, cfg: RentConfig, current: u32, count: int, bytes: int)
    requires Sane(cfg) && Extensions(entries, count, bytes)
    ensures SumFees(entries, cfg, current) >= 0
    ensures var a := Accumulate(entries, cfg, current);
            a.fee == Cap(SumFees(entries, cfg, current)) && a.extended == count >= 0 && a.keyBytes == bytes
  {
    AccumulateIsSum(entries, cfg, current);
    hide Accumulate, SumFees;
  }

  lemma WriteFeesExactly(a: Accumulated, cfg: RentConfig, fees: nat, writes: int)
    requires Sane(cfg) && a.fee == Cap(fees) && a.extended >= 0 && IsByteFee(a.keyBytes, cfg, writes)
    ensures writes >= 0 && WithWriteFees(a, cfg) == Cap(fees + EntryWrites(a.extended, cfg) + writes)
  {
    ProductNonNegative(cfg.feePerWriteEntry, a.extended);
    ProductNonNegative(a.keyBytes, cfg.feePerWrite1kb);
    var num := SatMul(a.keyBytes, cfg.feePerWrite1kb);
    CeilIs(num, 1024, writes);
    hide DivCeil;
  }

  // ---------- extraction from ledger changes ----------

  /** A written entry with a live-until ledger, as a rent change. */
  function AsRentChange(c: L.Change, size: S.LedgerEntry -> u32): Option<RentChange> {
    if c.ttl.Some? && c.newValue.Some? then
      Some(RentChange(c.ttl.value.durability.Persistent?, c.oldSize, size(c.newValue.value), c.ttl.value.oldLiveUntil, c.ttl.value.newLiveUntil))
    else None
  }

  predicate NotExtendedNorGrown(r: RentChange) {
    r.oldLiveUntil >= r.newLiveUntil && r.oldSize >= r.newSize
  }

  function ExtractOne(c: L.Change, size: S.LedgerEntry -> u32): Option<RentChange> {
    match AsRentChange(c, size)
    case None => None
    case Some(r) => if NotExtendedNorGrown(r) then None else Some(r)
  }

  function Extract(changes: seq<L.Change>, size: S.LedgerEntry -> u32): seq<RentChange> {
    if changes == [] then []
    else
      Extract(changes[..|changes| - 1], size) +
        match ExtractOne(changes[|changes| - 1], size) { case None => [] case Some(r) => [r] }
  }

  /** Every written entry with a live-until ledger, skipping nothing. */
  function AllWritten(changes: seq<L.Change>, size: S.LedgerEntry -> u32): seq<RentChange> {
    if changes == [] then []
    else
      AllWritten(changes[..|changes| - 1], size) +
        match AsRentChange(changes[|changes| - 1], size) { case None => [] case Some(r) => [r] }
  }

  lemma SkippedCostsNothing(r: RentChange, cfg: RentConfig, current: u32)
    requires Sane(cfg) && NotExtendedNorGrown(r)
    ensures EntryFee(r, cfg, current) == 0 && !Extended(r)
  {
    var extension, prepaid := ExtensionLedgers(r, current), PrepaidLedgers(r, current);
    if extension >= 0 { NothingCostsNothing(r.isPersistent, r.newSize, extension, cfg); }
    if prepaid >= 0 && r.newSize >= r.oldSize { NothingCostsNothing(r.isPersistent, 0, prepaid, cfg); }
  }

  lemma {:induction false} ExtractSums(changes: seq<L.Change>, size: S.LedgerEntry -> u32, cfg: RentConfig, current: u32)
    requires Sane(cfg)
    ensures SumFees(Extract(changes, size), cfg, current) == SumFees(AllWritten(changes, size), cfg, current)
    ensures CountExtended(Extract(changes, size)) == CountExtended(AllWritten(changes, size))
    decreases |changes|
  {
    if changes != [] {
      var rest, c := changes[..|changes| - 1], changes[|changes| - 1];
      ExtractSums(rest, size, cfg, current);
      var r := AsRentChange(c, size);
      if r.Some? {
        var x, y := Extract(rest, size), AllWritten(rest, size);
        assert (x + [r.value])[..|x|] == x && (y + [r.value])[..|y|] == y;
        if NotExtendedNorGrown(r.value) {
          SkippedCostsNothing(r.value, cfg, current);
          assert Extract(changes, size) == x;
        }
      } else {
        assert Extract(changes, size) == Extract(rest, size) && AllWritten(changes, size) == AllWritten(rest, size);
      }
    }
  }

  /** The changes of written entries that extraction skips would have cost nothing. */
  lemma SkippingIsFree(changes: seq<L.Change>, size: S.LedgerEntry -> u32, cfg: RentConfig, current: u32)
    requires Sane(cfg)
    ensures RentFee(Extract(changes, size), cfg, current) == RentFee(AllWritten(changes, size), cfg, current)
  {
    ExtractSums(changes, size, cfg, current);
    AccumulateIsSum(Extract(changes, size), cfg, current);
    AccumulateIsSum(AllWritten(changes, size), cfg, current);
  }

  /** Which changes of surviving entries reach the rent computation: those extended or grown,
      but only under a read-write key, and as what. The extension of a read-only entry is left
      out. */
  lemma ExtractedExactly(f: S.Footprint, init: S.StorageMap, m: S.StorageMap, c: L.Change, size: S.LedgerEntry -> u32)
    requires c.key in f && c.key in init && c.key in m && L.Faithful(f, init, m, c, size)
    requires c.ttl.Some? && m[c.key].Some?
    ensures ExtractOne(c, size).Some? <==>
              !c.readOnly && (c.ttl.value.oldLiveUntil < c.ttl.value.newLiveUntil || c.oldSize < size(m[c.key].value.entry))
    ensures ExtractOne(c, size).Some? ==>
              ExtractOne(c, size).value ==
                RentChange(c.key.ContractCodeKey? || (c.key.ContractDataKey? && c.key.durability.Persistent?),
                           c.oldSize, size(m[c.key].value.entry), c.ttl.value.oldLiveUntil, c.ttl.value.newLiveUntil)
  {
  }

  /** For one: a run that extends the one entry of a built map, under a read-only key. The
      change reports the extension, which is no no-op, and no rent is asked for it. */
  lemma ReadOnlyExtensionPaysNoRent(li: S.LedgerInfo, e: S.LedgerEntry, live: u32, extendTo: u32, size: S.LedgerEntry -> u32)
    requires L.HasTtl(e.key) && S.MaxLiveUntil(li).Some?
    requires li.sequence <= live < li.sequence + extendTo <= S.MaxLiveUntil(li).value
    ensures var f: S.Footprint := map[e.key := S.ReadOnly];
            var init: S.StorageMap := map[e.key := Some(S.Stored(e, Some(live)))];
            var m := S.Run(li, S.StartEnforcing(f, init), [S.OpExtendTtl(e.key, extendTo, extendTo)]).store.entries;
            && L.Built(f, init, li.sequence) && e.key in m
            && var r := L.ChangeOf(f, init, m, e.key, size);
               && r.Ok? && r.value.ttl.Some?
               && r.value.ttl.value.oldLiveUntil == live && r.value.ttl.value.newLiveUntil == li.sequence + extendTo
               && Extract([r.value], size) == []
  {
    var f: S.Footprint := map[e.key := S.ReadOnly];
    var init: S.StorageMap := map[e.key := Some(S.Stored(e, Some(live)))];
    var op := S.OpExtendTtl(e.key, extendTo, extendTo);
    var h := S.StartEnforcing(f, init);
    assert S.Apply(li, h.store, op).store.entries == init[e.key := Some(S.Stored(e, Some(li.sequence + extendTo)))];
    assert S.Run(li, h, [op]) == S.Next(li, h, op);
    var c := L.ChangeOf(f, init, S.Next(li, h, op).store.entries, e.key, size).value;
    assert [c][..0] == [];
  }
}
