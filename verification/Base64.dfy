/**
 Base64 encoding and decoding (base64.hpp), measured against the bit streams of section 4
 of RFC 4648. Every shift in the code moves an even number of bits, so a stream is written
 as a sequence of bit pairs: four to a byte, three to a symbol.
 */
module Base64 {
  import opened Prelude

  type Byte = bv8

  datatype Alphabet = Auto | Standard | UrlSafe

  datatype Behavior = Moderate | Loose

  datatype Failure = InvalidCharacter

  const PAD: Byte := 61 // '='

  // ----- Symbols -----

  /** The symbol for a six-bit value: `A-Z`, `a-z`, `0-9` and two that depend on the alphabet. */
  function Symbol(alphabet: Alphabet, v: Byte): Byte {
    if v < 26 then v + 65
    else if v < 52 then v - 26 + 97
    else if v < 62 then v - 52 + 48
    else if v == 62 then (if alphabet.UrlSafe? then 45 else 43) // '-' or '+'
    else if alphabet.UrlSafe? then 95 else 47                   // '_' or '/'
  }

  predicate IsPlain(c: Byte) {
    65 <= c <= 90 || 97 <= c <= 122 || 48 <= c <= 57
  }

  /** `+` and `/`. */
  predicate IsStandardOnly(c: Byte) {
    c == 43 || c == 47
  }

  /** `-` and `_`. */
  predicate IsUrlOnly(c: Byte) {
    c == 45 || c == 95
  }

  predicate Accepts(alphabet: Alphabet, c: Byte) {
    || IsPlain(c)
    || (!alphabet.UrlSafe? && IsStandardOnly(c))
    || (!alphabet.Standard? && IsUrlOnly(c))
  }

  /** What a symbol stands for; no symbol has two meanings. */
  function ValueOf(c: Byte): Byte {
    if 65 <= c <= 90 then c - 65
    else if 97 <= c <= 122 then c - 97 + 26
    else if 48 <= c <= 57 then c - 48 + 52
    else if c == 43 || c == 45 then 62
    else 63
  }

  /** The code of the source: the value, and the alphabet once detected. */
  method Base64Value(alphabet: Alphabet, c: Byte) returns (r: Result<Byte, Failure>, next: Alphabet)
    ensures r == if Accepts(alphabet, c) then Ok(ValueOf(c)) else Err(InvalidCharacter)
    ensures next == Settled(alphabet, c)
  {
    next := alphabet;
    if 65 <= c && c <= 90 {
      return Ok(c - 65), next;
    } else if 97 <= c && c <= 122 {
      return Ok(c - 97 + 26), next;
    } else if 48 <= c && c <= 57 {
      return Ok(c - 48 + 52), next;
    }
    if alphabet.Standard? {
      if c == 43 {
        return Ok(62), next;
      } else if c == 47 {
        return Ok(63), next;
      }
    } else if alphabet.UrlSafe? {
      if c == 45 {
        return Ok(62), next;
      } else if c == 95 {
        return Ok(63), next;
      }
    } else {
      if c == 43 {
        return Ok(62), Standard;
      } else if c == 47 {
        return Ok(63), Standard;
      } else if c == 45 {
        return Ok(62), UrlSafe;
      } else if c == 95 {
        return Ok(63), UrlSafe;
      }
    }
    return Err(InvalidCharacter), next;
  }

  function Settled(alphabet: Alphabet, c: Byte): Alphabet {
    if !alphabet.Auto? then alphabet
    else if IsStandardOnly(c) then Standard
    else if IsUrlOnly(c) then UrlSafe
    else Auto
  }

  lemma SymbolRoundTrip(alphabet: Alphabet, v: Byte)
    requires v < 64
    ensures Accepts(alphabet, Symbol(alphabet, v)) && Symbol(alphabet, v) != PAD
    ensures ValueOf(Symbol(alphabet, v)) == v
  {}

  lemma ValueRoundTrip(alphabet: Alphabet, c: Byte)
    requires Accepts(alphabet, c) && !alphabet.Auto?
    ensures ValueOf(c) < 64 && Symbol(alphabet, ValueOf(c)) == c
  {}

  lemma AcceptedIsValue(alphabet: Alphabet, c: Byte)
    requires Accepts(alphabet, c)
    ensures ValueOf(c) < 64 && c != PAD
  {}

  // ----- Bit streams -----

  function BytePairs(x: Byte): (r: seq<Byte>)
    ensures |r| == 4
  {
    [x >> 6, (x >> 4) & 3, (x >> 2) & 3, x & 3]
  }

  function ValuePairs(v: Byte): (r: seq<Byte>)
    ensures |r| == 3
  {
    [v >> 4, (v >> 2) & 3, v & 3]
  }

  /** The bits of a byte string. */
  function ByteStream(s: seq<Byte>): (r: seq<Byte>)
    ensures |r| == 4 * |s|
  {
    if s == [] then [] else BytePairs(s[0]) + ByteStream(s[1..])
  }

  /** The bits a text of symbols stands for. */
  function SymbolStream(t: seq<Byte>): (r: seq<Byte>)
    ensures |r| == 3 * |t|
  {
    if t == [] then [] else ValuePairs(ValueOf(t[0])) + SymbolStream(t[1..])
  }

  function Zeros(n: nat): (r: seq<Byte>)
    ensures |r| == n && forall i :: 0 <= i < n ==> r[i] == 0
  {
    seq(n, _ => 0)
  }

  lemma {:induction false} ByteStreamConcat(a: seq<Byte>, b: seq<Byte>)
    ensures ByteStream(a + b) == ByteStream(a) + ByteStream(b)
  {
    if a == [] {
      assert a + b == b;
    } else {
      assert (a + b)[1..] == a[1..] + b;
      ByteStreamConcat(a[1..], b);
    }
  }

  lemma {:induction false} SymbolStreamConcat(a: seq<Byte>, b: seq<Byte>)
    ensures SymbolStream(a + b) == SymbolStream(a) + SymbolStream(b)
  {
    if a == [] {
      assert a + b == b;
    } else {
      assert (a + b)[1..] == a[1..] + b;
      SymbolStreamConcat(a[1..], b);
    }
  }

  lemma SingleByte(x: Byte)
    ensures ByteStream([x]) == BytePairs(x)
  {
    assert [x][1..] == [];
  }

  lemma SingleSymbol(c: Byte)
    ensures SymbolStream([c]) == ValuePairs(ValueOf(c))
  {
    assert [c][1..] == [];
  }

  lemma ByteFromPairs(x: Byte)
    ensures x == ((x >> 6) << 6) | (((x >> 4) & 3) << 4) | (((x >> 2) & 3) << 2) | (x & 3)
  {}

  lemma ValueFromPairs(v: Byte)
    requires v < 64
    ensures v == ((v >> 4) << 4) | (((v >> 2) & 3) << 2) | (v & 3)
  {}

  lemma BytePairsInjective(x: Byte, y: Byte)
    requires BytePairs(x) == BytePairs(y)
    ensures x == y
  {
    var a, b := BytePairs(x), BytePairs(y);
    assert a[0] == b[0] && a[1] == b[1] && a[2] == b[2] && a[3] == b[3];
    ByteFromPairs(x);
    ByteFromPairs(y);
  }

  lemma ValuePairsInjective(x: Byte, y: Byte)
    requires x < 64 && y < 64 && ValuePairs(x) == ValuePairs(y)
    ensures x == y
  {
    var a, b := ValuePairs(x), ValuePairs(y);
    assert a[0] == b[0] && a[1] == b[1] && a[2] == b[2];
    ValueFromPairs(x);
    ValueFromPairs(y);
  }

  lemma {:induction false} ByteStreamInjective(a: seq<Byte>, b: seq<Byte>)
    requires ByteStream(a) == ByteStream(b)
    ensures a == b
  {
    assert |a| == |b|;
    if a != [] {
      var x, y := ByteStream(a), ByteStream(b);
      assert x[..4] == BytePairs(a[0]) && y[..4] == BytePairs(b[0]);
      BytePairsInjective(a[0], b[0]);
      assert x[4..] == ByteStream(a[1..]) && y[4..] == ByteStream(b[1..]);
      ByteStreamInjective(a[1..], b[1..]);
    }
  }

  /** Texts over one alphabet that stand for the same bits are the same. */
  lemma {:induction false} SymbolStreamInjective(alphabet: Alphabet, a: seq<Byte>, b: seq<Byte>)
    requires !alphabet.Auto? && SymbolStream(a) == SymbolStream(b)
    requires forall c :: c in a || c in b ==> Accepts(alphabet, c)
    ensures a == b
  {
    assert |a| == |b|;
    if a != [] {
      var x, y := SymbolStream(a), SymbolStream(b);
      assert x[..3] == ValuePairs(ValueOf(a[0])) && y[..3] == ValuePairs(ValueOf(b[0]));
      ValueRoundTrip(alphabet, a[0]);
      ValueRoundTrip(alphabet, b[0]);
      ValuePairsInjective(ValueOf(a[0]), ValueOf(b[0]));
      assert x[3..] == SymbolStream(a[1..]) && y[3..] == SymbolStream(b[1..]);
      SymbolStreamInjective(alphabet, a[1..], b[1..]);
    }
  }

  // ----- Encoding -----

  function RequiredEncodeSize(size: nat): nat {
    (size / 3 + if size % 3 != 0 then 1 else 0) * 4
  }

  function MaxDecodeSize(size: nat): nat {
    (size / 4 + if size % 4 != 0 then 1 else 0) * 3
  }

  /** The number of symbols before the padding. */
  function SymbolCount(size: nat): nat {
    (4 * size + 2) / 3
  }

  /**
   Section 4 of RFC 4648: the bits of `s`, filled up with zeros to a whole number of symbols,
   and padding up to a multiple of four characters.
   */
  ghost predicate IsEncoding(alphabet: Alphabet, s: seq<Byte>, t: seq<Byte>) {
    var k := SymbolCount(|s|);
    && k <= |t| == RequiredEncodeSize(|s|)
    && (forall i :: 0 <= i < k ==> Accepts(alphabet, t[i]))
    && (forall i :: k <= i < |t| ==> t[i] == PAD)
    && SymbolStream(t[..k]) == ByteStream(s) + Zeros(3 * k - 4 * |s|)
  }

  /** The alphabet an encoder writes. */
  function Written(alphabet: Alphabet): Alphabet {
    if alphabet.UrlSafe? then UrlSafe else Standard
  }

  lemma FirstSymbol(x: Byte)
    ensures var v := (x >> 2) & 0x3f;
      v < 64 && v >> 4 == x >> 6 && (v >> 2) & 3 == (x >> 4) & 3 && v & 3 == (x >> 2) & 3
  {}

  lemma SecondSymbol(x: Byte, y: Byte)
    ensures var v := ((x & 0x3) << 4) | ((y >> 4) & 0x0f);
      v < 64 && v >> 4 == x & 3 && (v >> 2) & 3 == y >> 6 && v & 3 == (y >> 4) & 3
  {}

  lemma ThirdSymbol(y: Byte, z: Byte)
    ensures var v := ((y & 0xf) << 2) | ((z >> 6) & 0x03);
      v < 64 && v >> 4 == (y >> 2) & 3 && (v >> 2) & 3 == y & 3 && v & 3 == z >> 6
  {}

  lemma FourthSymbol(z: Byte)
    ensures var v := z & 0x3f;
      v < 64 && v >> 4 == (z >> 4) & 3 && (v >> 2) & 3 == (z >> 2) & 3 && v & 3 == z & 3
  {}

  lemma EndsOfBytes(x: Byte)
    ensures (x & 0x3) << 4 == ((x & 0x3) << 4) | ((0 >> 4) & 0x0f)
    ensures (x & 0xf) << 2 == ((x & 0xf) << 2) | ((0 >> 6) & 0x03)
    ensures BytePairs(0) == [0, 0, 0, 0]
  {}

  /** Four symbols carry three bytes. */
  lemma GroupPairs(x: Byte, y: Byte, z: Byte)
    ensures ValuePairs((x >> 2) & 0x3f) + ValuePairs(((x & 0x3) << 4) | ((y >> 4) & 0x0f))
            + ValuePairs(((y & 0xf) << 2) | ((z >> 6) & 0x03)) + ValuePairs(z & 0x3f)
            == BytePairs(x) + BytePairs(y) + BytePairs(z)
  {
    FirstSymbol(x);
    SecondSymbol(x, y);
    ThirdSymbol(y, z);
    FourthSymbol(z);
  }

  lemma TwoSymbolPairs(x: Byte)
    ensures ValuePairs((x >> 2) & 0x3f) + ValuePairs((x & 0x3) << 4) == BytePairs(x) + [0, 0]
  {
    FirstSymbol(x);
    SecondSymbol(x, 0);
    EndsOfBytes(x);
  }

  lemma ThreeSymbolPairs(x: Byte, y: Byte)
    ensures ValuePairs((x >> 2) & 0x3f) + ValuePairs(((x & 0x3) << 4) | ((y >> 4) & 0x0f)) + ValuePairs((y & 0xf) << 2)
            == BytePairs(x) + BytePairs(y) + [0]
  {
    FirstSymbol(x);
    SecondSymbol(x, y);
    ThirdSymbol(y, 0);
    EndsOfBytes(y);
  }

  /** Every symbol is one the alphabet accepts, and the symbols carry exactly `pairs`. */
  ghost predicate Carries(alphabet: Alphabet, t: seq<Byte>, pairs: seq<Byte>) {
    (forall i :: 0 <= i < |t| ==> Accepts(alphabet, t[i])) && SymbolStream(t) == pairs
  }

  lemma CarriesOne(alphabet: Alphabet, v: Byte)
    requires v < 64
    ensures Carries(Written(alphabet), [Symbol(alphabet, v)], ValuePairs(v))
  {
    assert Symbol(alphabet, v) == Symbol(Written(alphabet), v);
    SymbolRoundTrip(Written(alphabet), v);
    SingleSymbol(Symbol(alphabet, v));
  }

  lemma CarriesConcat(alphabet: Alphabet, a: seq<Byte>, p: seq<Byte>, b: seq<Byte>, q: seq<Byte>)
    requires Carries(alphabet, a, p) && Carries(alphabet, b, q)
    ensures Carries(alphabet, a + b, p + q)
  {
    SymbolStreamConcat(a, b);
  }

  /** One symbol more. */
  lemma CarriesNext(alphabet: Alphabet, out: seq<Byte>, pairs: seq<Byte>, v: Byte)
    requires Carries(Written(alphabet), out, pairs) && v < 64
    ensures Carries(Written(alphabet), out + [Symbol(alphabet, v)], pairs + ValuePairs(v))
  {
    hide Carries, Symbol, ValuePairs;
    CarriesOne(alphabet, v);
    CarriesConcat(Written(alphabet), out, pairs, [Symbol(alphabet, v)], ValuePairs(v));
  }

  lemma CarriesNothing(alphabet: Alphabet)
    ensures Carries(alphabet, [], ByteStream([]))
  {}

  lemma StreamNext(s: seq<Byte>, i: nat)
    requires i < |s|
    ensures ByteStream(s[..i + 1]) == ByteStream(s[..i]) + BytePairs(s[i])
  {
    hide ByteStream, BytePairs;
    ByteStreamConcat(s[..i], [s[i]]);
    SingleByte(s[i]);
    assert s[..i + 1] == s[..i] + [s[i]];
  }

  lemma FourSymbols(s: seq<Byte>, i: nat)
    requires i + 3 <= |s|
    ensures var x, y, z := s[i], s[i + 1], s[i + 2];
      ByteStream(s[..i]) + ValuePairs((x >> 2) & 0x3f) + ValuePairs(((x & 0x3) << 4) | ((y >> 4) & 0x0f))
      + ValuePairs(((y & 0xf) << 2) | ((z >> 6) & 0x03)) + ValuePairs(z & 0x3f)
      == ByteStream(s[..i + 3])
  {
    hide ByteStream, BytePairs, ValuePairs;
    var x, y, z := s[i], s[i + 1], s[i + 2];
    var p, p1, p2, p3 := ByteStream(s[..i]), ByteStream(s[..i + 1]), ByteStream(s[..i + 2]), ByteStream(s[..i + 3]);
    StreamNext(s, i);
    StreamNext(s, i + 1);
    StreamNext(s, i + 2);
    FourthGroup(p, p1, p2, p3, x, y, z);
  }

  lemma FourthGroup(p: seq<Byte>, p1: seq<Byte>, p2: seq<Byte>, p3: seq<Byte>, x: Byte, y: Byte, z: Byte)
    requires p1 == p + BytePairs(x) && p2 == p1 + BytePairs(y) && p3 == p2 + BytePairs(z)
    ensures p + ValuePairs((x >> 2) & 0x3f) + ValuePairs(((x & 0x3) << 4) | ((y >> 4) & 0x0f))
            + ValuePairs(((y & 0xf) << 2) | ((z >> 6) & 0x03)) + ValuePairs(z & 0x3f) == p3
  {
    GroupPairs(x, y, z);
    hide BytePairs, ValuePairs;
    Reassociate(p, ValuePairs((x >> 2) & 0x3f), ValuePairs(((x & 0x3) << 4) | ((y >> 4) & 0x0f)),
                ValuePairs(((y & 0xf) << 2) | ((z >> 6) & 0x03)), ValuePairs(z & 0x3f));
    Reassociate(p, BytePairs(x), BytePairs(y), BytePairs(z), []);
  }

  lemma Reassociate(p: seq<Byte>, a: seq<Byte>, b: seq<Byte>, c: seq<Byte>, d: seq<Byte>)
    ensures p + a + b + c + d == p + (a + b + c + d)
    ensures p + a + b + c == p + (a + b + c)
    ensures p + a + b == p + (a + b)
  {}

  lemma {:induction false} ThreeSymbols(s: seq<Byte>, i: nat)
    requires i + 2 == |s|
    ensures var x, y := s[i], s[i + 1];
      ByteStream(s[..i]) + ValuePairs((x >> 2) & 0x3f) + ValuePairs(((x & 0x3) << 4) | ((y >> 4) & 0x0f))
      + ValuePairs((y & 0xf) << 2) == ByteStream(s) + Zeros(1)
  {
    hide ByteStream, BytePairs, ValuePairs;
    StreamNext(s, i);
    StreamNext(s, i + 1);
    assert s[..i + 2] == s && Zeros(1) == [0];
    ThreeSymbolPairs(s[i], s[i + 1]);
    Reassociate(ByteStream(s[..i]), ValuePairs((s[i] >> 2) & 0x3f),
                ValuePairs(((s[i] & 0x3) << 4) | ((s[i + 1] >> 4) & 0x0f)), ValuePairs((s[i + 1] & 0xf) << 2), []);
    Reassociate(ByteStream(s[..i]), BytePairs(s[i]), BytePairs(s[i + 1]), [0], []);
  }

  lemma {:induction false} TwoSymbols(s: seq<Byte>, i: nat)
    requires i + 1 == |s|
    ensures ByteStream(s[..i]) + ValuePairs((s[i] >> 2) & 0x3f) + ValuePairs((s[i] & 0x3) << 4)
      == ByteStream(s) + Zeros(2)
  {
    hide ByteStream, BytePairs, ValuePairs;
    StreamNext(s, i);
    assert s[..i + 1] == s && Zeros(2) == [0, 0];
    TwoSymbolPairs(s[i]);
    Reassociate(ByteStream(s[..i]), ValuePairs((s[i] >> 2) & 0x3f), ValuePairs((s[i] & 0x3) << 4), [], []);
    Reassociate(ByteStream(s[..i]), BytePairs(s[i]), [0, 0], [], []);
  }

  lemma {:induction false} CloseEncoding(alphabet: Alphabet, s: seq<Byte>, symbols: seq<Byte>, t: seq<Byte>)
    requires |symbols| == SymbolCount(|s|) && symbols <= t && |t| == RequiredEncodeSize(|s|)
    requires forall i :: |symbols| <= i < |t| ==> t[i] == PAD
    requires Carries(alphabet, symbols, ByteStream(s) + Zeros(3 * |symbols| - 4 * |s|))
    ensures IsEncoding(alphabet, s, t)
  {
    hide ByteStream, SymbolStream, Accepts;
    assert t[..|symbols|] == symbols;
  }

  lemma GroupSizes(m: nat)
    ensures SymbolCount(3 * m) == RequiredEncodeSize(3 * m) == 4 * m
    ensures SymbolCount(3 * m + 1) == 4 * m + 2 && RequiredEncodeSize(3 * m + 1) == 4 * m + 4
    ensures SymbolCount(3 * m + 2) == 4 * m + 3 && RequiredEncodeSize(3 * m + 2) == 4 * m + 4
  {}

  method Encode(s: seq<Byte>, alphabet: Alphabet) returns (out: seq<Byte>)
    ensures IsEncoding(Written(alphabet), s, out)
  {
    hide Carries, Symbol, ValuePairs, BytePairs, ByteStream, SymbolStream, IsEncoding, SymbolCount, RequiredEncodeSize;
    out := [];
    var i: nat := 0;
    ghost var groups: nat := 0;
    CarriesNothing(Written(alphabet));
    while i < |s|
      invariant i <= |s| && i == 3 * groups && |out| == 4 * groups
      invariant Carries(Written(alphabet), out, ByteStream(s[..i]))
    {
      ghost var start, pairs := i, ByteStream(s[..i]);
      var i0 := s[i];
      var i1, i2: Byte := 0, 0;
      i := i + 1;
      FirstSymbol(i0);
      CarriesNext(alphabet, out, pairs, (i0 >> 2) & 0x3f);
      out := out + [Symbol(alphabet, (i0 >> 2) & 0x3f)];
      pairs := pairs + ValuePairs((i0 >> 2) & 0x3f);
      if i < |s| {
        i1 := s[i];
        i := i + 1;
        SecondSymbol(i0, i1);
        CarriesNext(alphabet, out, pairs, ((i0 & 0x3) << 4) | ((i1 >> 4) & 0x0f));
        out := out + [Symbol(alphabet, ((i0 & 0x3) << 4) | ((i1 >> 4) & 0x0f))];
        pairs := pairs + ValuePairs(((i0 & 0x3) << 4) | ((i1 >> 4) & 0x0f));
      } else {
        SecondSymbol(i0, 0);
        EndsOfBytes(i0);
        CarriesNext(alphabet, out, pairs, (i0 & 0x3) << 4);
        out := out + [Symbol(alphabet, (i0 & 0x3) << 4)];
        TwoSymbols(s, start);
        GroupSizes(groups);
        ghost var symbols := out;
        out := out + [PAD];
        out := out + [PAD];
        CloseEncoding(Written(alphabet), s, symbols, out);
        return;
      }
      if i < |s| {
        i2 := s[i];
        i := i + 1;
        ThirdSymbol(i1, i2);
        CarriesNext(alphabet, out, pairs, ((i1 & 0xf) << 2) | ((i2 >> 6) & 0x03));
        out := out + [Symbol(alphabet, ((i1 & 0xf) << 2) | ((i2 >> 6) & 0x03))];
        pairs := pairs + ValuePairs(((i1 & 0xf) << 2) | ((i2 >> 6) & 0x03));
      } else {
        ThirdSymbol(i1, 0);
        EndsOfBytes(i1);
        CarriesNext(alphabet, out, pairs, (i1 & 0xf) << 2);
        out := out + [Symbol(alphabet, (i1 & 0xf) << 2)];
        ThreeSymbols(s, start);
        GroupSizes(groups);
        ghost var symbols := out;
        out := out + [PAD];
        CloseEncoding(Written(alphabet), s, symbols, out);
        return;
      }
      FourthSymbol(i2);
      CarriesNext(alphabet, out, pairs, i2 & 0x3f);
      out := out + [Symbol(alphabet, i2 & 0x3f)];
      FourSymbols(s, start);
      groups := groups + 1;
    }
    GroupSizes(groups);
    assert s[..i] == s && ByteStream(s) + Zeros(0) == ByteStream(s);
    CloseEncoding(Written(alphabet), s, out, out);
  }

  /** A byte string has one encoding. */
  lemma EncodingIsUnique(alphabet: Alphabet, s: seq<Byte>, t1: seq<Byte>, t2: seq<Byte>)
    requires !alphabet.Auto? && IsEncoding(alphabet, s, t1) && IsEncoding(alphabet, s, t2)
    ensures t1 == t2
  {
    hide Accepts, ByteStream, SymbolStream;
    var k := SymbolCount(|s|);
    SymbolStreamInjective(alphabet, t1[..k], t2[..k]);
    assert t1 == t1[..k] + t1[k..] && t2 == t2[..k] + t2[k..];
  }

  // ----- Decoding -----

  ghost predicate Over(alphabet: Alphabet, d: seq<Byte>) {
    forall i :: 0 <= i < |d| ==> Accepts(alphabet, d[i])
  }

  /** Only symbols; with automatic detection, all from the same alphabet. */
  ghost predicate Accepted(alphabet: Alphabet, d: seq<Byte>) {
    if alphabet.Auto? then Over(Standard, d) || Over(UrlSafe, d) else Over(alphabet, d)
  }

  /** The longest accepted prefix: where the decoder stops taking symbols. */
  ghost function Data(alphabet: Alphabet, t: seq<Byte>): (d: seq<Byte>)
    ensures d <= t
  {
    if Accepted(alphabet, t) || t == [] then t else Data(alphabet, t[..|t| - 1])
  }

  function FromPairs(p: seq<Byte>): Byte
    requires |p| == 4
  {
    (p[0] << 6) | (p[1] << 4) | (p[2] << 2) | p[3]
  }

  /** The whole bytes of a bit stream; bits short of a byte are dropped. */
  function Packed(pairs: seq<Byte>): (s: seq<Byte>)
    ensures |s| == |pairs| / 4
  {
    if |pairs| < 4 then [] else [FromPairs(pairs[..4])] + Packed(pairs[4..])
  }

  ghost predicate OnlyPads(t: seq<Byte>) {
    forall i :: 0 <= i < |t| ==> t[i] == PAD
  }

  ghost function WrittenBytes(alphabet: Alphabet, t: seq<Byte>): seq<Byte> {
    Packed(SymbolStream(Data(alphabet, t)))
  }

  /**
   Decoding: the bytes in the bits of the longest accepted prefix, which only padding may
   follow; a loose decoder asks that of the first character after it alone.
   */
  ghost function Decoded(alphabet: Alphabet, behavior: Behavior, t: seq<Byte>): Result<seq<Byte>, Failure> {
    var n := |Data(alphabet, t)|;
    if n < |t| && t[n] != PAD then Err(InvalidCharacter)
    else if behavior.Moderate? && !OnlyPads(t[n..]) then Err(InvalidCharacter)
    else Ok(WrittenBytes(alphabet, t))
  }

  /** What is known of the alphabet after the symbols `d`. */
  ghost predicate Fits(asked: Alphabet, found: Alphabet, d: seq<Byte>) {
    if !asked.Auto? then found == asked && Over(asked, d)
    else match found
      case Auto => Over(Standard, d) && Over(UrlSafe, d)
      case Standard => Over(Standard, d) && !Over(UrlSafe, d)
      case UrlSafe => Over(UrlSafe, d) && !Over(Standard, d)
  }

  lemma OverNext(alphabet: Alphabet, d: seq<Byte>, c: Byte)
    ensures Over(alphabet, d + [c]) <==> Over(alphabet, d) && Accepts(alphabet, c)
  {
    hide Accepts;
    if Over(alphabet, d + [c]) {
      assert (d + [c])[|d|] == c;
      assert forall i :: 0 <= i < |d| ==> (d + [c])[i] == d[i];
    }
  }

  lemma FitsNext(asked: Alphabet, found: Alphabet, d: seq<Byte>, c: Byte)
    requires Fits(asked, found, d)
    ensures Accepted(asked, d)
    ensures Accepts(found, c) ==> Fits(asked, Settled(found, c), d + [c])
    ensures !Accepts(found, c) ==> !Accepted(asked, d + [c])
  {
    hide Over;
    OverNext(Standard, d, c);
    OverNext(UrlSafe, d, c);
    OverNext(asked, d, c);
  }

  lemma AcceptedShorter(alphabet: Alphabet, t: seq<Byte>, n: nat)
    requires n <= |t| && Accepted(alphabet, t)
    ensures Accepted(alphabet, t[..n])
  {}

  lemma {:induction false} DataIs(alphabet: Alphabet, t: seq<Byte>, n: nat)
    requires n <= |t| && Accepted(alphabet, t[..n])
    requires n < |t| ==> !Accepted(alphabet, t[..n + 1])
    ensures Data(alphabet, t) == t[..n]
    decreases |t|
  {
    if n == |t| {
      assert t[..n] == t;
    } else {
      var shorter := t[..|t| - 1];
      if Accepted(alphabet, t) {
        AcceptedShorter(alphabet, t, n + 1);
      }
      assert shorter[..n] == t[..n];
      if n + 1 < |t| {
        assert shorter[..n + 1] == t[..n + 1];
      }
      DataIs(alphabet, shorter, n);
    }
  }

  lemma {:induction false} DataAccepted(alphabet: Alphabet, t: seq<Byte>)
    ensures Accepted(alphabet, Data(alphabet, t))
    decreases |t|
  {
    if !Accepted(alphabet, t) && t != [] {
      DataAccepted(alphabet, t[..|t| - 1]);
    }
  }

  lemma {:induction false} PackedIs(s: seq<Byte>, spare: seq<Byte>, pairs: seq<Byte>)
    requires pairs == ByteStream(s) + spare && |spare| < 4
    ensures Packed(pairs) == s
  {
    if s != [] {
      assert pairs[..4] == BytePairs(s[0]) && pairs[4..] == ByteStream(s[1..]) + spare;
      PackedIs(s[1..], spare, pairs[4..]);
      ByteFromPairs(s[0]);
    }
  }

  ghost predicate AllPairs(p: seq<Byte>) {
    forall i :: 0 <= i < |p| ==> p[i] < 4
  }

  lemma PairsFromByte(a: Byte, b: Byte, c: Byte, d: Byte)
    requires a < 4 && b < 4 && c < 4 && d < 4
    ensures var x := (a << 6) | (b << 4) | (c << 2) | d;
      x >> 6 == a && (x >> 4) & 3 == b && (x >> 2) & 3 == c && x & 3 == d
  {}

  lemma GroupUnpacks(p: seq<Byte>)
    requires |p| == 4 && AllPairs(p)
    ensures BytePairs(FromPairs(p)) == p
  {
    PairsFromByte(p[0], p[1], p[2], p[3]);
  }

  /** Packing keeps all but the bits short of a byte. */
  lemma {:induction false} PackedStream(pairs: seq<Byte>)
    requires AllPairs(pairs)
    ensures ByteStream(Packed(pairs)) == pairs[..4 * (|pairs| / 4)]
  {
    hide BytePairs, FromPairs;
    if |pairs| >= 4 {
      GroupUnpacks(pairs[..4]);
      PackedStream(pairs[4..]);
      assert Packed(pairs)[1..] == Packed(pairs[4..]);
      assert pairs[..4 * (|pairs| / 4)] == pairs[..4] + pairs[4..][..4 * (|pairs[4..]| / 4)];
    }
  }

  lemma PairsAreSmall(v: Byte)
    requires v < 64
    ensures AllPairs(ValuePairs(v))
  {}

  lemma {:induction false} SymbolPairs(alphabet: Alphabet, t: seq<Byte>)
    requires Over(alphabet, t)
    ensures AllPairs(SymbolStream(t))
  {
    if t != [] {
      SymbolPairs(alphabet, t[1..]);
      AcceptedIsValue(alphabet, t[0]);
      PairsAreSmall(ValueOf(t[0]));
    }
  }

  /** Three quarters of the symbols, rounded down: within the size set aside for them. */
  lemma {:induction false} DecodedLength(alphabet: Alphabet, t: seq<Byte>)
    ensures |WrittenBytes(alphabet, t)| == 3 * |Data(alphabet, t)| / 4 <= MaxDecodeSize(|t|)
    ensures |WrittenBytes(alphabet, t)| <= |t|
  {}

  // ----- The decoder's pending bits -----

  /** The bits of the last symbol not yet in a byte. */
  function Pending(last: Byte, bits: Byte): seq<Byte> {
    if bits == 6 then ValuePairs(last)
    else if bits == 4 then [(last >> 2) & 3, last & 3]
    else if bits == 2 then [last & 3]
    else []
  }

  /** The byte made of the pending bits and the first bits of the next symbol. */
  function NextByte(last: Byte, part: Byte, bits: Byte): Byte
    requires bits in {2, 4, 6}
  {
    (last << (8 - bits)) | (part >> (bits - 2))
  }

  lemma JoinSix(l: Byte, p: Byte)
    requires l < 64 && p < 64
    ensures var x := (l << 2) | (p >> 4);
      x >> 6 == l >> 4 && (x >> 4) & 3 == (l >> 2) & 3 && (x >> 2) & 3 == l & 3 && x & 3 == p >> 4
  {}

  lemma JoinFour(l: Byte, p: Byte)
    requires l < 64 && p < 64
    ensures var x := (l << 4) | (p >> 2);
      x >> 6 == (l >> 2) & 3 && (x >> 4) & 3 == l & 3 && (x >> 2) & 3 == p >> 4 && x & 3 == (p >> 2) & 3
  {}

  lemma JoinTwo(l: Byte, p: Byte)
    requires l < 64 && p < 64
    ensures var x := (l << 6) | p;
      x >> 6 == l & 3 && (x >> 4) & 3 == p >> 4 && (x >> 2) & 3 == (p >> 2) & 3 && x & 3 == p & 3
  {}

  lemma JoinPairs(last: Byte, part: Byte, bits: Byte)
    requires bits in {2, 4, 6} && last < 64 && part < 64
    ensures BytePairs(NextByte(last, part, bits)) + Pending(part, bits - 2)
            == Pending(last, bits) + ValuePairs(part)
  {
    if bits == 6 {
      JoinSix(last, part);
      assert Pending(part, 4) == [(part >> 2) & 3, part & 3];
    } else if bits == 4 {
      JoinFour(last, part);
      assert Pending(part, 2) == [part & 3];
    } else {
      JoinTwo(last, part);
      assert Pending(part, 0) == [];
    }
  }

  /** The bytes written and the pending bits are the bits of the symbols read. */
  ghost predicate InStep(d: seq<Byte>, out: seq<Byte>, last: Byte, bits: Byte) {
    && bits in {0, 2, 4, 6} && last < 64
    && ByteStream(out) + Pending(last, bits) == SymbolStream(d)
  }

  /** One turn of the decoding loop. */
  lemma InStepNext(d: seq<Byte>, out: seq<Byte>, last: Byte, bits: Byte, c: Byte)
    requires InStep(d, out, last, bits) && ValueOf(c) < 64
    ensures var part := ValueOf(c);
      if bits + 6 >= 8 then InStep(d + [c], out + [NextByte(last, part, bits)], part, bits - 2)
      else InStep(d + [c], out, part, bits + 6)
  {
    hide ByteStream, SymbolStream, ValueOf, BytePairs, ValuePairs, Pending, NextByte;
    var part := ValueOf(c);
    SymbolStreamConcat(d, [c]);
    SingleSymbol(c);
    if bits + 6 >= 8 {
      var x := NextByte(last, part, bits);
      JoinPairs(last, part, bits);
      ByteStreamConcat(out, [x]);
      SingleByte(x);
      Reassociate(ByteStream(out), BytePairs(x), Pending(part, bits - 2), [], []);
      Reassociate(ByteStream(out), Pending(last, bits), ValuePairs(part), [], []);
    } else {
      NothingPending(last, part);
      assert ByteStream(out) + [] == ByteStream(out);
    }
  }

  lemma NothingPending(last: Byte, part: Byte)
    ensures Pending(last, 0) == [] && Pending(part, 6) == ValuePairs(part)
  {}

  lemma NothingRead(alphabet: Alphabet)
    ensures Fits(alphabet, alphabet, []) && InStep([], [], 0, 0)
  {}

  lemma PendingIsShort(last: Byte, bits: Byte)
    ensures |Pending(last, bits)| <= 3
  {}

  lemma {:induction false} InStepLength(d: seq<Byte>, out: seq<Byte>, last: Byte, bits: Byte)
    requires InStep(d, out, last, bits)
    ensures |out| <= |d| && (|d| > 0 ==> |out| < |d|) && Packed(SymbolStream(d)) == out
  {
    hide ByteStream, SymbolStream;
    PendingIsShort(last, bits);
    PackedIs(out, Pending(last, bits), SymbolStream(d));
  }

  /** Where the loop ends: at the end, at padding or at a character that is no symbol. */
  lemma {:induction false} DataFound(asked: Alphabet, found: Alphabet, t: seq<Byte>, n: nat)
    requires n <= |t| && Fits(asked, found, t[..n])
    requires n < |t| ==> t[n] == PAD || !Accepts(found, t[n])
    ensures Data(asked, t) == t[..n]
  {
    FitsNext(asked, found, t[..n], PAD);
    if n < |t| {
      FitsNext(asked, found, t[..n], t[n]);
      assert t[..n + 1] == t[..n] + [t[n]];
    }
    DataIs(asked, t, n);
  }

  /** What the decoder answers when its loop ends after `n` symbols. */
  lemma LoopDone(asked: Alphabet, found: Alphabet, behavior: Behavior, t: seq<Byte>, n: nat, out: seq<Byte>,
                 last: Byte, bits: Byte)
    requires n <= |t| && Fits(asked, found, t[..n]) && InStep(t[..n], out, last, bits)
    requires n < |t| ==> t[n] == PAD || !Accepts(found, t[n])
    ensures WrittenBytes(asked, t) == out && |out| <= n
    ensures n < |t| && t[n] != PAD ==> Decoded(asked, behavior, t) == Err(InvalidCharacter)
    ensures n < |t| && t[n] == PAD && behavior.Moderate? ==>
              Decoded(asked, behavior, t) == if OnlyPads(t[n..]) then Ok(out) else Err(InvalidCharacter)
    ensures n == |t| || (t[n] == PAD && behavior.Loose?) ==> Decoded(asked, behavior, t) == Ok(out)
  {
    hide Fits, InStep, Accepts, Packed, SymbolStream, Data;
    DataFound(asked, found, t, n);
    InStepLength(t[..n], out, last, bits);
  }

  method Decode(t: seq<Byte>, alphabet: Alphabet, behavior: Behavior) returns (r: Result<seq<Byte>, Failure>)
    ensures r == Decoded(alphabet, behavior, t)
  {
    hide WrittenBytes, Decoded, Fits, Data, Accepts, Settled, ValueOf, Packed, SymbolStream, InStep, NextByte;
    var out: seq<Byte> := [];
    var found := alphabet;
    var last: Byte := 0;
    var bits: Byte := 0;
    var i := 0;
    NothingRead(alphabet);
    while i < |t|
      invariant i <= |t| && bits in {0, 2, 4, 6}
      invariant Fits(alphabet, found, t[..i]) && InStep(t[..i], out, last, bits)
    {
      var c := t[i];
      if c == PAD {
        break;
      }
      var part, next := Base64Value(found, c);
      if part.Err? {
        LoopDone(alphabet, found, behavior, t, i, out, last, bits);
        return Err(InvalidCharacter);
      }
      assert t[..i + 1] == t[..i] + [c];
      FitsNext(alphabet, found, t[..i], c);
      AcceptedIsValue(found, c);
      InStepNext(t[..i], out, last, bits, c);
      i := i + 1;
      found := next;
      if bits + 6 >= 8 {
        out := out + [NextByte(last, part.value, bits)];
        bits := bits - 2;
      } else {
        bits := bits + 6;
      }
      last := part.value;
    }
    LoopDone(alphabet, found, behavior, t, i, out, last, bits);
    if behavior != Loose {
      ghost var n := i;
      while i < |t|
        invariant n <= i <= |t| && forall j :: n <= j < i ==> t[j] == PAD
      {
        if t[i] != PAD {
          assert t[n..][i - n] == t[i];
          return Err(InvalidCharacter);
        }
        i := i + 1;
      }
    }
    return Ok(out);
  }

  /** A buffer whose first bytes were written over. */
  ghost function Overwritten(bytes: seq<Byte>, was: seq<Byte>): seq<Byte>
    requires |bytes| <= |was|
  {
    bytes + was[|bytes|..]
  }

  lemma NothingWritten(was: seq<Byte>)
    ensures Overwritten([], was) == was
  {}

  lemma WriteNext(bytes: seq<Byte>, was: seq<Byte>, now: seq<Byte>, x: Byte)
    requires |bytes| < |was| && now == Overwritten(bytes, was)[|bytes| := x]
    ensures now == Overwritten(bytes + [x], was)
  {}

  lemma ReadAhead(bytes: seq<Byte>, was: seq<Byte>, i: nat)
    requires |bytes| <= i < |was|
    ensures |Overwritten(bytes, was)| == |was| && Overwritten(bytes, was)[i] == was[i]
  {}

  /**
   The same loop writing over its own input: what it writes stays behind what it reads, so
   the result is that of decoding elsewhere, in the first bytes of the buffer.
   */
  method DecodeInPlace(buffer: array<Byte>, size: nat, alphabet: Alphabet, behavior: Behavior)
    returns (r: Result<nat, Failure>)
    requires size <= buffer.Length
    modifies buffer
    ensures var decoded := Decoded(alphabet, behavior, old(buffer[..size]));
      r == if decoded.Ok? then Ok(|decoded.value|) else Err(InvalidCharacter)
    ensures var bytes := WrittenBytes(alphabet, old(buffer[..size]));
      |bytes| <= size && buffer[..] == Overwritten(bytes, old(buffer[..]))
  {
    hide Overwritten, WrittenBytes, Decoded, Fits, Data, Accepts, Settled, ValueOf, Packed, SymbolStream;
    hide InStep, NextByte;
    ghost var was := buffer[..];
    ghost var t := was[..size];
    ghost var bytes: seq<Byte> := [];
    var found := alphabet;
    var last: Byte := 0;
    var bits: Byte := 0;
    var i, o: nat := 0, 0;
    NothingRead(alphabet);
    assert buffer[..] == Overwritten([], was) by {
      NothingWritten(was);
    }
    while i < size
      invariant o <= i <= size && |bytes| == o && bits in {0, 2, 4, 6}
      invariant Fits(alphabet, found, t[..i]) && InStep(t[..i], bytes, last, bits)
      invariant buffer[..] == Overwritten(bytes, was)
    {
      ReadAhead(bytes, was, i);
      var c := buffer[i];
      assert c == buffer[..][i] == was[i] == t[i];
      if c == PAD {
        break;
      }
      var part, next := Base64Value(found, c);
      if part.Err? {
        LoopDone(alphabet, found, behavior, t, i, bytes, last, bits);
        return Err(InvalidCharacter);
      }
      assert t[..i + 1] == t[..i] + [c];
      FitsNext(alphabet, found, t[..i], c);
      AcceptedIsValue(found, c);
      InStepLength(t[..i], bytes, last, bits);
      InStepNext(t[..i], bytes, last, bits, c);
      i := i + 1;
      found := next;
      if bits + 6 >= 8 {
        ghost var before := buffer[..];
        buffer[o] := NextByte(last, part.value, bits);
        assert buffer[..] == before[o := NextByte(last, part.value, bits)];
        WriteNext(bytes, was, buffer[..], NextByte(last, part.value, bits));
        bytes := bytes + [NextByte(last, part.value, bits)];
        o := o + 1;
        bits := bits - 2;
      } else {
        bits := bits + 6;
      }
      last := part.value;
    }
    LoopDone(alphabet, found, behavior, t, i, bytes, last, bits);
    if behavior != Loose {
      ghost var n := i;
      while i < size
        invariant n <= i <= size && forall j :: n <= j < i ==> t[j] == PAD
        invariant buffer[..] == Overwritten(bytes, was)
      {
        ReadAhead(bytes, was, i);
        assert buffer[i] == buffer[..][i] == was[i] == t[i];
        if buffer[i] != PAD {
          assert t[n..][i - n] == t[i];
          return Err(InvalidCharacter);
        }
        i := i + 1;
      }
    }
    return Ok(o);
  }
}
