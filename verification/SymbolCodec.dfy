/** Small symbols: up to nine characters of six bits each, packed into the low 54 bits of a body,
    the last character lowest. */
module SymbolCodec {
  import opened Wrappers
  import opened Arithmetic

  const MAX_SMALL_CHARS: nat := 9
  const SYMBOL_LIMIT: nat := 32
  const WORD: nat := 0x1_0000_0000_0000_0000
  const SMALL_BODIES: nat := 0x40_0000_0000_0000

  datatype Error = TooLong(length: nat) | BadChar(ch: char) | MalformedSmall

  // ---------- characters ----------

  type Code = x: nat | x < 64

  function EncodeChar(ch: char): Result<Code, Error> {
    if ch == '_' then Ok(1)
    else if '0' <= ch <= '9' then Ok(2 + (ch as int - '0' as int))
    else if 'A' <= ch <= 'Z' then Ok(12 + (ch as int - 'A' as int))
    else if 'a' <= ch <= 'z' then Ok(38 + (ch as int - 'a' as int))
    else Err(BadChar(ch))
  }

  /** The null character stands for the one code that is not a character. */
  function DecodeChar(c: Code): char {
    if c == 0 then '\0'
    else if c == 1 then '_'
    else if c <= 11 then ('0' as int + c - 2) as char
    else if c <= 37 then ('A' as int + c - 12) as char
    else ('a' as int + c - 38) as char
  }

  /** Both are digits, capital or small letters. */
  predicate SameClass(x: char, y: char) {
    ('0' <= x <= '9' && '0' <= y <= '9') || ('A' <= x <= 'Z' && 'A' <= y <= 'Z') || ('a' <= x <= 'z' && 'a' <= y <= 'z')
  }

  /** The codes run from one on through the underscore, digits, capital and small letters. */
  lemma CodesAreConsecutive(x: char, y: char)
    ensures EncodeChar('_') == Ok(1) && EncodeChar('0') == Ok(2) && EncodeChar('A') == Ok(12) && EncodeChar('a') == Ok(38)
    ensures EncodeChar('9') == Ok(11) && EncodeChar('Z') == Ok(37) && EncodeChar('z') == Ok(63)
    ensures SameClass(x, y) ==>
              EncodeChar(x).Ok? && EncodeChar(y).Ok? && EncodeChar(y).value - EncodeChar(x).value == y as int - x as int
    ensures EncodeChar(x).Ok? <==> x == '_' || SameClass(x, x)
  {
  }

  predicate SymbolChar(ch: char) {
    EncodeChar(ch).Ok?
  }

  /** Codes above zero and symbol characters correspond one to one. */
  lemma CharsAndCodes(c: Code, ch: char)
    ensures c != 0 ==> EncodeChar(DecodeChar(c)) == Ok(c) && DecodeChar(c) != '\0'
    ensures SymbolChar(ch) ==> EncodeChar(ch).value != 0 && DecodeChar(EncodeChar(ch).value) == ch
  {
  }

  // ---------- words ----------

  /** The six bits at a place of the 54-bit window, place 0 the highest. */
  function CodeAt(w: u64, k: nat): Code
    requires k < MAX_SMALL_CHARS
  {
    (w / Place(k)) % 64
  }

  function Place(k: nat): (p: nat)
    requires k < MAX_SMALL_CHARS
    ensures p > 0
  {
    match k
    case 0 => 0x1_0000_0000_0000
    case 1 => 0x400_0000_0000
    case 2 => 0x10_0000_0000
    case 3 => 0x4000_0000
    case 4 => 0x100_0000
    case 5 => 0x4_0000
    case 6 => 0x1000
    case 7 => 0x40
    case _ => 1
  }

  function Codes(w: u64): (cs: seq<Code>)
    ensures |cs| == MAX_SMALL_CHARS
  {
    seq(MAX_SMALL_CHARS, k requires 0 <= k < MAX_SMALL_CHARS => CodeAt(w, k))
  }

  function Shift(w: u64): u64 {
    (w * 64) % WORD
  }

  /** The characters of a sequence of codes; zero codes have none. */
  function Chars(cs: seq<Code>): string {
    if cs == [] then []
    else if cs[0] == 0 then Chars(cs[1..])
    else [DecodeChar(cs[0])] + Chars(cs[1..])
  }

  /** The string a body stands for. */
  function Decode(body: u64): string {
    Chars(Codes(body))
  }

  function Zeros(n: nat): seq<Code> {
    seq(n, _ => 0)
  }

  /** Shifting drops the highest code of the window; whatever was above it stays out. */
  lemma ShiftCodes(w: u64)
    ensures Codes(Shift(w)) == Codes(w)[1..] + [0]
  {
    hide Shift, CodeAt;
    forall k | 0 <= k < MAX_SMALL_CHARS ensures Codes(Shift(w))[k] == (Codes(w)[1..] + [0])[k] {
      if k < 8 { ShiftCode(w, k); } else { ShiftClears(w); }
    }
  }

  lemma ShiftClears(w: u64)
    ensures CodeAt(Shift(w), 8) == 0
  {
  }

  /** A word scaled by 64 and cut at its end, in terms of the quotients of the word. */
  lemma ScaledWord(w: nat, p: nat, m: nat, x: nat, low: nat, y: nat, z: nat)
    requires w == p * x + low && low < p && x == m * y + z && z < m
    requires 64 * p * m == WORD
    ensures 64 * w == WORD * y + (64 * p * z + 64 * low)
    ensures 0 <= 64 * p * z + 64 * low < WORD
  {
    var q := 64 * p;
    Associate(64, p, x);
    Distribute(q, m * y, z);
    Associate(q, m, y);
    Distribute(64, p * x, low);
    ProductNonNegative(q, z);
    ProductNonNegative(q, m - 1 - z);
    Distribute(q, m - 1 - z, z);
    Distribute(q, m, -1);
  }

  /** The window moves down by one place. */
  lemma ShiftWindow(w: u64, p: nat, r: nat)
    requires p > 0 && r > 0 && 64 * p * (64 * r) == WORD
    ensures Shift(w) / (64 * p) % 64 == w / p % 64
  {
    var x, low := Divide(w, p);
    var y, z := Divide(x, 64 * r);
    ScaledWord(w, p, 64 * r, x, low, y, z);
    QuotientIs(64 * w, WORD, y);
    QuotientIs(64 * p * z + 64 * low, 64 * p, z);
    Associate(64, r, y);
    var z1, z2 := Divide(z, 64);
    Distribute(64, r * y, z1);
    ProductNonNegative(r, y);
    QuotientIs(x, 64, r * y + z1);
  }

  lemma ShiftCode(w: u64, k: nat)
    requires k < 8
    ensures CodeAt(Shift(w), k) == CodeAt(w, k + 1)
  {
    match k
    case 0 => ShiftWindow(w, Place(1), 0x400);
    case 1 => ShiftWindow(w, Place(2), 0x1_0000);
    case 2 => ShiftWindow(w, Place(3), 0x40_0000);
    case 3 => ShiftWindow(w, Place(4), 0x1000_0000);
    case 4 => ShiftWindow(w, Place(5), 0x4_0000_0000);
    case 5 => ShiftWindow(w, Place(6), 0x100_0000_0000);
    case 6 => ShiftWindow(w, Place(7), 0x4000_0000_0000);
    case _ => ShiftWindow(w, Place(8), 0x10_0000_0000_0000);
  }

  // ---------- termination of the decoder ----------

  predicate Divides(m: nat, w: nat)
    requires m > 0
  {
    w % m == 0
  }

  /** An upper bound on the number of shifts that empty a word. */
  function ShiftsLeft(w: u64): nat {
    if w == 0 then 0
    else if Divides(0x1000_0000_0000_0000, w) then 1
    else if Divides(0x40_0000_0000_0000, w) then 2
    else if Divides(0x1_0000_0000_0000, w) then 3
    else if Divides(0x400_0000_0000, w) then 4
    else if Divides(0x10_0000_0000, w) then 5
    else if Divides(0x4000_0000, w) then 6
    else if Divides(0x100_0000, w) then 7
    else if Divides(0x4_0000, w) then 8
    else if Divides(0x1000, w) then 9
    else if Divides(0x40, w) then 10
    else 11
  }

  lemma ShiftDivides(w: u64, m: nat, q: nat)
    requires m > 0 && q > 0 && 64 * m * q == WORD
    ensures Divides(m, w) ==> Divides(64 * m, Shift(w))
  {
    if w % m == 0 {
      var x, low := Divide(w, m);
      var y, z := Divide(x, q);
      ScaledWord(w, m, q, x, low, y, z);
      QuotientIs(64 * w, WORD, y);
      QuotientIs(64 * m * z, 64 * m, z);
    }
  }

  lemma LastShift(w: u64)
    ensures Divides(0x1000_0000_0000_0000, w) ==> Shift(w) == 0
  {
  }

  lemma ShiftsDecrease(w: u64)
    requires w != 0
    ensures ShiftsLeft(Shift(w)) < ShiftsLeft(w)
  {
    ShiftDivides(w, 1, 0x400_0000_0000_0000);
    ShiftDivides(w, 0x40, 0x10_0000_0000_0000);
    ShiftDivides(w, 0x1000, 0x4000_0000_0000);
    ShiftDivides(w, 0x4_0000, 0x100_0000_0000);
    ShiftDivides(w, 0x100_0000, 0x4_0000_0000);
    ShiftDivides(w, 0x4000_0000, 0x1000_0000);
    ShiftDivides(w, 0x10_0000_0000, 0x40_0000);
    ShiftDivides(w, 0x400_0000_0000, 0x1_0000);
    ShiftDivides(w, 0x1_0000_0000_0000, 0x400);
    ShiftDivides(w, 0x40_0000_0000_0000, 0x10);
    LastShift(w);
    assert Divides(1, w);
    hide Shift, Divides;
  }

  // ---------- packing ----------

  function Pack(cs: seq<Code>): nat {
    if cs == [] then 0 else Pack(cs[..|cs| - 1]) * 64 + cs[|cs| - 1]
  }

  /** The codes of a prefix of a string of the given length, or the first failure. */
  function EncodePrefix(s: string, length: nat): (r: Result<seq<Code>, Error>)
    ensures r.Ok? ==> |r.value| == |s| <= MAX_SMALL_CHARS
  {
    if s == [] then Ok([])
    else
      match EncodePrefix(s[..|s| - 1], length)
      case Err(e) => Err(e)
      case Ok(cs) =>
        if |cs| >= MAX_SMALL_CHARS then Err(TooLong(length))
        else
          match EncodeChar(s[|s| - 1])
          case Err(e) => Err(e)
          case Ok(c) => Ok(cs + [c])
  }

  lemma {:induction false} PackBound(cs: seq<Code>)
    requires |cs| <= MAX_SMALL_CHARS
    ensures Pack(cs) < PlaceAbove(|cs|)
    decreases |cs|
  {
    if |cs| > 0 { PackBound(cs[..|cs| - 1]); }
  }

  /** One more than the largest number `n` codes can stand for. */
  function PlaceAbove(n: nat): (p: nat)
    requires n <= MAX_SMALL_CHARS
    ensures p <= SMALL_BODIES && (n < MAX_SMALL_CHARS ==> p == Place(8 - n))
  {
    if n == MAX_SMALL_CHARS then SMALL_BODIES else Place(8 - n)
  }

  function Encode(s: string): (r: Result<u64, Error>)
    ensures r.Ok? ==> r.value < SMALL_BODIES
  {
    match EncodePrefix(s, |s|)
    case Err(e) => Err(e)
    case Ok(cs) => PackBound(cs); Ok(Pack(cs))
  }

  function TryFromBody(body: u64): Result<u64, Error> {
    if body % SMALL_BODIES != body then Err(MalformedSmall) else Ok(body)
  }

  // ---------- codes of packed words ----------

  lemma QuotientOfAppended(x: nat, c: Code, p: nat)
    requires p > 0
    ensures (64 * x + c) / (64 * p) == x / p
  {
    var q, r := Divide(x, p);
    Associate(64, p, q);
    QuotientIs(64 * x + c, 64 * p, q);
  }

  lemma AppendCode(x: nat, c: Code)
    requires 64 * x + c < WORD
    ensures Codes(64 * x + c) == Codes(x)[1..] + [c]
  {
    forall k | 0 <= k < MAX_SMALL_CHARS ensures Codes(64 * x + c)[k] == (Codes(x)[1..] + [c])[k] {
      if k < 8 {
        QuotientOfAppended(x, c, Place(k + 1));
        assert Place(k) == 64 * Place(k + 1);
      } else {
        QuotientIs(64 * x + c, 64, x);
      }
    }
  }

  lemma {:induction false} CodesOfPacked(cs: seq<Code>)
    requires |cs| <= MAX_SMALL_CHARS && Pack(cs) < WORD
    ensures Codes(Pack(cs)) == Zeros(MAX_SMALL_CHARS - |cs|) + cs
    decreases |cs|
  {
    if cs != [] {
      var rest, c := cs[..|cs| - 1], cs[|cs| - 1];
      CodesOfPacked(rest);
      AppendCode(Pack(rest), c);
      assert (Zeros(MAX_SMALL_CHARS - |rest|) + rest)[1..] + [c] == Zeros(MAX_SMALL_CHARS - |cs|) + cs;
    } else {
      assert Codes(0) == Zeros(MAX_SMALL_CHARS);
    }
  }

  lemma PlacesNest(k: nat)
    requires 0 < k < MAX_SMALL_CHARS
    ensures Place(k - 1) == Place(k) * 64
  {
  }

  lemma NextCode(w: u64, k: nat)
    requires 0 < k < MAX_SMALL_CHARS
    ensures w / Place(k) == w / Place(k - 1) * 64 + CodeAt(w, k)
  {
    PlacesNest(k);
    QuotientsNest(w, Place(k), 64);
    hide Place;
  }

  lemma TopCode(w: u64)
    requires w < SMALL_BODIES
    ensures w / Place(0) == CodeAt(w, 0)
  {
  }

  lemma {:induction false} PackedCodes(w: u64, k: nat)
    requires w < SMALL_BODIES && k < MAX_SMALL_CHARS
    ensures Pack(Codes(w)[..k + 1]) == w / Place(k)
    decreases k
  {
    hide Place, CodeAt;
    var cs := Codes(w)[..k + 1];
    assert cs[..k] == Codes(w)[..k] && cs[k] == CodeAt(w, k);
    if k > 0 {
      PackedCodes(w, k - 1);
      NextCode(w, k);
    } else {
      assert Pack(cs[..0]) == 0;
      TopCode(w);
    }
  }

  /** A body within 54 bits is its nine codes, packed. */
  lemma BodyIsPacked(w: u64)
    requires w < SMALL_BODIES
    ensures Pack(Codes(w)) == w
  {
    PackedCodes(w, 8);
    assert Codes(w)[..9] == Codes(w);
  }
}
