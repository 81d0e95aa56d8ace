/** Round trips and order of small symbols, and the encoder, the decoding iterator and the
    comparison as the source has them. */
module SymbolTheorems {
  import opened Wrappers
  import opened Arithmetic
  import opened SymbolCodec

  // ---------- round trips ----------

  lemma {:induction false} CharsOfZeros(n: nat, cs: seq<Code>)
    ensures Chars(Zeros(n) + cs) == Chars(cs)
    decreases n
  {
    if n == 0 {
      assert Zeros(0) + cs == cs;
    } else {
      CharsOfZeros(n - 1, cs);
      assert (Zeros(n) + cs)[1..] == Zeros(n - 1) + cs;
    }
  }

  lemma {:induction false} CharsAppend(cs: seq<Code>, c: Code)
    ensures Chars(cs + [c]) == Chars(cs) + if c == 0 then [] else [DecodeChar(c)]
    decreases |cs|
  {
    if cs == [] {
      assert Chars([c][1..]) == [];
    } else {
      CharsAppend(cs[1..], c);
      assert (cs + [c])[1..] == cs[1..] + [c];
    }
  }

  lemma {:induction false} EncodedCodes(s: string, length: nat)
    requires EncodePrefix(s, length).Ok?
    ensures Chars(EncodePrefix(s, length).value) == s
    ensures forall i :: 0 <= i < |s| ==> EncodePrefix(s, length).value[i] != 0
    decreases |s|
  {
    if s != [] {
      EncodedCodes(s[..|s| - 1], length);
      var cs := EncodePrefix(s[..|s| - 1], length).value;
      var ch := s[|s| - 1];
      CharsAndCodes(0, ch);
      CharsAppend(cs, EncodeChar(ch).value);
    }
  }

  /** Decoding gives back every string that has a small symbol. */
  lemma DecodeEncode(s: string)
    requires Encode(s).Ok?
    ensures Decode(Encode(s).value) == s
    ensures TryFromBody(Encode(s).value) == Ok(Encode(s).value)
  {
    hide EncodePrefix, Chars, Codes, Pack;
    var cs := EncodePrefix(s, |s|).value;
    PackBound(cs);
    CodesOfPacked(cs);
    CharsOfZeros(MAX_SMALL_CHARS - |cs|, cs);
    EncodedCodes(s, |s|);
  }

  /** The first character that is none of a symbol. */
  predicate FirstBad(s: string, i: nat) {
    i < |s| && !SymbolChar(s[i]) && forall j :: 0 <= j < i ==> SymbolChar(s[j])
  }

  /** Which strings have one, and how the others fail: on the first bad character, if it comes
      among the first nine characters, and otherwise on the length. */
  lemma {:induction false} EncodableExactly(s: string, length: nat)
    ensures EncodePrefix(s, length).Ok? <==> |s| <= 9 && forall i :: 0 <= i < |s| ==> SymbolChar(s[i])
    ensures EncodePrefix(s, length).Err? ==>
              if exists i: nat :: i < 9 && FirstBad(s, i)
              then exists i: nat :: i < 9 && FirstBad(s, i) && EncodePrefix(s, length).error == BadChar(s[i])
              else EncodePrefix(s, length).error == TooLong(length)
    decreases |s|
  {
    if s != [] {
      var rest := s[..|s| - 1];
      EncodableExactly(rest, length);
      if EncodePrefix(rest, length).Err? {
        FirstBadPrefix(s, |s| - 1);
      } else if EncodePrefix(s, length).Err? && |rest| < MAX_SMALL_CHARS {
        assert FirstBad(s, |s| - 1);
      }
    }
  }

  lemma FirstBadPrefix(s: string, n: nat)
    requires n <= |s|
    ensures forall i: nat :: i < n ==> (FirstBad(s[..n], i) <==> FirstBad(s, i))
  {
    forall i: nat | i < n ensures FirstBad(s[..n], i) <==> FirstBad(s, i) {
      assert forall j :: 0 <= j <= i ==> s[..n][j] == s[j];
    }
  }

  /** The nonzero codes. */
  function Nonzero(cs: seq<Code>): (r: seq<Code>)
    ensures |r| <= |cs|
    ensures forall i :: 0 <= i < |r| ==> r[i] != 0
  {
    if cs == [] then []
    else if cs[0] == 0 then Nonzero(cs[1..])
    else [cs[0]] + Nonzero(cs[1..])
  }

  lemma {:induction false} CharsOfNonzero(cs: seq<Code>)
    ensures Chars(Nonzero(cs)) == Chars(cs)
    decreases |cs|
  {
    if cs != [] {
      CharsOfNonzero(cs[1..]);
      if cs[0] != 0 { assert Nonzero(cs)[1..] == Nonzero(cs[1..]); }
    }
  }

  lemma {:induction false} EncodeChars(cs: seq<Code>, length: nat)
    requires |cs| <= MAX_SMALL_CHARS && forall i :: 0 <= i < |cs| ==> cs[i] != 0
    ensures |Chars(cs)| == |cs| && EncodePrefix(Chars(cs), length) == Ok(cs)
    decreases |cs|
  {
    if cs != [] {
      var rest, c := cs[..|cs| - 1], cs[|cs| - 1];
      EncodeChars(rest, length);
      CharsAppend(rest, c);
      assert cs == rest + [c];
      CharsAndCodes(c, '_');
      assert Chars(cs)[..|cs| - 1] == Chars(rest);
    }
  }

  /** Encoding what a body stands for packs its nonzero codes together. */
  lemma EncodeDecode(body: u64)
    ensures Encode(Decode(body)) == Ok(Pack(Nonzero(Codes(body))))
  {
    var cs := Nonzero(Codes(body));
    CharsOfNonzero(Codes(body));
    EncodeChars(cs, |Decode(body)|);
  }

  /** No zero code below a nonzero one. */
  predicate Canonical(cs: seq<Code>) {
    forall i, k :: 0 <= i < k < |cs| && cs[i] != 0 ==> cs[k] != 0
  }

  lemma {:induction false} NonzeroOfCanonical(cs: seq<Code>)
    requires Canonical(cs)
    ensures cs == Zeros(|cs| - |Nonzero(cs)|) + Nonzero(cs)
    decreases |cs|
  {
    if cs != [] {
      assert Canonical(cs[1..]) by {
        forall i, k | 0 <= i < k < |cs[1..]| && cs[1..][i] != 0 ensures cs[1..][k] != 0 {
          assert cs[i + 1] != 0;
        }
      }
      NonzeroOfCanonical(cs[1..]);
      assert cs == [cs[0]] + cs[1..];
      if cs[0] != 0 {
        NonzeroIsAll(cs[1..]);
        assert Nonzero(cs) == cs;
      } else {
        assert Zeros(|cs| - |Nonzero(cs)|) == [0] + Zeros(|cs[1..]| - |Nonzero(cs[1..])|);
      }
    }
  }

  lemma {:induction false} NonzeroIsAll(cs: seq<Code>)
    requires forall i :: 0 <= i < |cs| ==> cs[i] != 0
    ensures Nonzero(cs) == cs
    decreases |cs|
  {
    if cs != [] { NonzeroIsAll(cs[1..]); }
  }

  lemma {:induction false} PackOfZeros(n: nat, cs: seq<Code>)
    ensures Pack(Zeros(n) + cs) == Pack(cs)
    decreases n + |cs|
  {
    if cs != [] {
      PackOfZeros(n, cs[..|cs| - 1]);
      assert (Zeros(n) + cs)[..n + |cs| - 1] == Zeros(n) + cs[..|cs| - 1];
    } else if n > 0 {
      PackOfZeros(n - 1, []);
      assert Zeros(n) + [] == Zeros(n) && Zeros(n)[..n - 1] == Zeros(n - 1) + [];
    }
  }

  /** A body that is a small symbol comes back from its string exactly when no zero code lies
      below a nonzero one. */
  lemma EncodeDecodeExactly(body: u64)
    requires TryFromBody(body).Ok?
    ensures Encode(Decode(body)).Ok?
    ensures Encode(Decode(body)) == Ok(body) <==> Canonical(Codes(body))
  {
    var cs := Nonzero(Codes(body));
    EncodeDecode(body);
    PackBound(cs);
    CodesOfPacked(cs);
    if Canonical(Codes(body)) {
      NonzeroOfCanonical(Codes(body));
      PackOfZeros(MAX_SMALL_CHARS - |cs|, cs);
      BodyIsPacked(body);
    }
  }

  // ---------- order ----------

  datatype Ordering = Less | Equal | Greater

  /** Lexicographic order of strings, by character code. */
  function Lex(s: string, t: string): Ordering {
    if s == [] then (if t == [] then Equal else Less)
    else if t == [] then Greater
    else if s[0] < t[0] then Less
    else if s[0] > t[0] then Greater
    else Lex(s[1..], t[1..])
  }

  lemma {:induction false} LexEqual(s: string, t: string)
    ensures Lex(s, t) == Equal <==> s == t
    ensures Lex(s, t) == Less <==> Lex(t, s) == Greater
    decreases |s|
  {
    if s != [] && t != [] {
      LexEqual(s[1..], t[1..]);
      assert s == [s[0]] + s[1..] && t == [t[0]] + t[1..];
    }
  }

  lemma {:induction false} LexTransitive(s: string, t: string, u: string)
    requires Lex(s, t) == Less && Lex(t, u) == Less
    ensures Lex(s, u) == Less
    decreases |s|
  {
    if s != [] && s[0] == t[0] == u[0] { LexTransitive(s[1..], t[1..], u[1..]); }
  }

  /** The order of small symbols. */
  function Order(a: u64, b: u64): Ordering {
    Lex(Decode(a), Decode(b))
  }

  /** Symbols made from strings are ordered as their strings; the order is total, and equal
      means the same body for bodies that come from strings. */
  lemma OrderIsLexicographic(s: string, t: string)
    requires Encode(s).Ok? && Encode(t).Ok?
    ensures Order(Encode(s).value, Encode(t).value) == Lex(s, t)
    ensures Order(Encode(s).value, Encode(t).value) == Equal <==> Encode(s).value == Encode(t).value
  {
    DecodeEncode(s);
    DecodeEncode(t);
    LexEqual(s, t);
  }

  /** Two small symbols compare equal exactly when they stand for the same string, which is the
      same body if both are canonical. */
  lemma OrderEqual(a: u64, b: u64)
    requires TryFromBody(a).Ok? && TryFromBody(b).Ok?
    ensures Order(a, b) == Equal <==> Nonzero(Codes(a)) == Nonzero(Codes(b))
    ensures Canonical(Codes(a)) && Canonical(Codes(b)) ==> (Order(a, b) == Equal <==> a == b)
  {
    LexEqual(Decode(a), Decode(b));
    CharsOfNonzero(Codes(a));
    CharsOfNonzero(Codes(b));
    EncodeChars(Nonzero(Codes(a)), 0);
    EncodeChars(Nonzero(Codes(b)), 0);
    EncodeDecodeExactly(a);
    EncodeDecodeExactly(b);
  }

  /** Not so for bodies with a gap: 64 and 1 both stand for one underscore. */
  lemma GapsCompareEqual()
    ensures TryFromBody(64).Ok? && TryFromBody(1).Ok? && Decode(64) == Decode(1) == "_"
    ensures Order(64, 1) == Equal && !Canonical(Codes(64))
  {
    var z := Zeros(7);
    AppendCode(0, 1);
    AppendCode(1, 0);
    assert Codes(0) == Zeros(9);
    assert Codes(1) == Zeros(8) + [1] && Codes(64) == z + [1, 0];
    CharsOfZeros(8, [1]);
    CharsOfZeros(7, [1, 0]);
    assert [1, 0][1..] == [0] && [0][1..] == [] && [1][1..] == [];
    assert Codes(64)[7] == 1 && Codes(64)[8] == 0;
    LexEqual("_", "_");
  }

  // ---------- as the source computes them ----------

  lemma {:induction false} EncodePrefixFails(s: string, length: nat, k: nat)
    requires k <= |s| && EncodePrefix(s[..k], length).Err?
    ensures EncodePrefix(s, length) == EncodePrefix(s[..k], length)
    decreases |s| - k
  {
    if k == |s| {
      assert s[..k] == s;
    } else {
      assert s[..k + 1][..k] == s[..k];
      EncodePrefixFails(s, length, k + 1);
    }
  }

  /** The sum is the bitwise or: the shifted word has no low bits. */
  method TryFromBytes(b: string) returns (r: Result<u64, Error>)
    ensures r == Encode(b)
  {
    hide EncodeChar, Codes;
    var n := 0;
    var accum: u64 := 0;
    while n < |b|
      invariant 0 <= n <= |b|
      invariant EncodePrefix(b[..n], |b|).Ok? && accum == Pack(EncodePrefix(b[..n], |b|).value)
    {
      var ch := b[n];
      assert b[..n + 1][..n] == b[..n];
      if n >= MAX_SMALL_CHARS {
        EncodePrefixFails(b, |b|, n + 1);
        return Err(TooLong(|b|));
      }
      ghost var cs := EncodePrefix(b[..n], |b|).value;
      PackBound(cs);
      n := n + 1;
      accum := Shift(accum);
      var v := EncodeChar(ch);
      if v.Err? {
        EncodePrefixFails(b, |b|, n);
        return Err(v.error);
      }
      assert (cs + [v.value])[..|cs|] == cs;
      PackBound(cs + [v.value]);
      accum := accum + v.value;
    }
    assert b[..n] == b;
    r := Ok(accum);
  }

  lemma DecodeShift(w: u64)
    ensures Decode(w) == (if CodeAt(w, 0) == 0 then [] else [DecodeChar(CodeAt(w, 0))]) + Decode(Shift(w))
  {
    ShiftCodes(w);
    CharsAppend(Codes(w)[1..], 0);
  }

  lemma DecodeNothing()
    ensures Decode(0) == []
  {
    assert Codes(0) == Zeros(9) + [];
    CharsOfZeros(9, []);
  }

  class SymbolSmallIter {
    var word: u64

    constructor (body: u64)
      ensures word == body
    {
      word := body;
    }

    /** The next character of what the word stands for; bits shifted past the window never make
        another one, and the word is used up in the end. */
    method Next() returns (r: Option<char>)
      modifies this
      ensures var s := Decode(old(word));
              if s == [] then r == None && word == 0
              else r == Some(s[0]) && Decode(word) == s[1..] && ShiftsLeft(word) < ShiftsLeft(old(word))
    {
      DecodeNothing();
      while word != 0
        invariant Decode(word) == Decode(old(word)) && ShiftsLeft(word) <= ShiftsLeft(old(word))
        decreases ShiftsLeft(word)
      {
        var res := DecodeChar(CodeAt(word, 0));
        CharsAndCodes(CodeAt(word, 0), '_');
        ShiftsDecrease(word);
        DecodeShift(word);
        word := Shift(word);
        if res != '\0' { return Some(res); }
      }
      r := None;
    }
  }

  /** Compares two symbols character by character. */
  method Compare(a: u64, b: u64) returns (r: Ordering)
    ensures r == Order(a, b)
  {
    hide Decode, ShiftsLeft;
    var x := new SymbolSmallIter(a);
    var y := new SymbolSmallIter(b);
    while true
      invariant x != y && fresh(x) && fresh(y)
      invariant Order(x.word, y.word) == Order(a, b)
      decreases |Decode(x.word)|
    {
      var c := x.Next();
      if c.None? {
        var d := y.Next();
        return if d.None? then Equal else Less;
      }
      var d := y.Next();
      if d.None? { return Greater; }
      if c.value < d.value { return Less; }
      if c.value > d.value { return Greater; }
    }
  }

  lemma {:induction false} CharsLength(cs: seq<Code>)
    ensures |Chars(cs)| <= |cs| && forall i :: 0 <= i < |Chars(cs)| ==> Chars(cs)[i] != '\0'
    decreases |cs|
  {
    if cs != [] {
      CharsLength(cs[1..]);
      CharsAndCodes(cs[0], '_');
    }
  }

  lemma DecodedLength(body: u64)
    ensures |Decode(body)| <= MAX_SMALL_CHARS
    ensures forall i :: 0 <= i < |Decode(body)| ==> Decode(body)[i] != '\0'
  {
    CharsLength(Codes(body));
  }

  /** Writes the characters into a zeroed buffer of the maximal symbol length. */
  method ToStr(body: u64) returns (chars: array<char>)
    ensures fresh(chars) && chars.Length == 32
    ensures var s := Decode(body);
            |s| <= 9 && chars[..|s|] == s && forall i :: |s| <= i < 32 ==> chars[i] == '\0'
  {
    hide Decode, ShiftsLeft;
    chars := new char[SYMBOL_LIMIT](_ => '\0');
    var iter := new SymbolSmallIter(body);
    ghost var s := Decode(body);
    DecodedLength(body);
    var n := 0;
    var src := iter.Next();
    while src.Some? && n < SYMBOL_LIMIT
      invariant n <= |s| && chars[..n] == s[..n]
      invariant forall i :: n <= i < SYMBOL_LIMIT ==> chars[i] == '\0'
      invariant if src.Some? then n < |s| && src.value == s[n] && Decode(iter.word) == s[n + 1..] else n == |s|
      invariant fresh(iter)
      decreases |s| - n
    {
      chars[n] := src.value;
      n := n + 1;
      src := iter.Next();
    }
  }

  /** The length of a buffer's contents: up to the first null. */
  method Len(chars: array<char>) returns (n: nat)
    ensures n <= chars.Length && (n < chars.Length ==> chars[n] == '\0')
    ensures forall i :: 0 <= i < n ==> chars[i] != '\0'
  {
    n := 0;
    while n < chars.Length
      invariant n <= chars.Length && forall i :: 0 <= i < n ==> chars[i] != '\0'
    {
      if chars[n] == '\0' { return; }
      n := n + 1;
    }
  }

  /** A symbol unpacked into a buffer reads back as its string. */
  method AsStr(body: u64) returns (s: string)
    ensures s == Decode(body)
  {
    var chars := ToStr(body);
    DecodedLength(body);
    hide Decode;
    ghost var d := |Decode(body)|;
    assert chars[d] == '\0';
    assert forall i :: 0 <= i < d ==> chars[i] == chars[..d][i];
    var n := Len(chars);
    s := chars[..n];
  }
}
