/**
 What base64 coding promises (base64.hpp): encodings decode to what was encoded, and the
 texts that encode back to themselves are exactly the canonical ones of section 3.5 of
 RFC 4648.
 */
module Base64Laws {
  import opened Prelude
  import opened Base64

  lemma {:induction false} EncodingData(e: Alphabet, alphabet: Alphabet, s: seq<Byte>, t: seq<Byte>)
    requires IsEncoding(e, s, t) && !e.Auto? && (alphabet == e || alphabet.Auto?)
    ensures Data(alphabet, t) == t[..SymbolCount(|s|)]
  {
    hide Accepts, ByteStream, SymbolStream;
    var k := SymbolCount(|s|);
    assert Over(e, t[..k]);
    if k < |t| {
      assert t[..k + 1][k] == PAD;
      PadIsNoSymbol(t[..k + 1], k);
    }
    DataIs(alphabet, t, k);
  }

  lemma PadIsNoSymbol(t: seq<Byte>, k: nat)
    requires k < |t| && t[k] == PAD
    ensures forall a: Alphabet :: !Accepted(a, t)
  {
    forall a: Alphabet ensures !Over(a, t) {
      assert !Accepts(a, t[k]);
    }
  }

  /** Decoding with the same alphabet, or detecting it, gives back what was encoded. */
  lemma DecodeEncoded(e: Alphabet, alphabet: Alphabet, behavior: Behavior, s: seq<Byte>, t: seq<Byte>)
    requires IsEncoding(e, s, t) && !e.Auto? && (alphabet == e || alphabet.Auto?)
    ensures Decoded(alphabet, behavior, t) == Ok(s)
  {
    hide Data, ByteStream, SymbolStream, Accepts;
    var k := SymbolCount(|s|);
    EncodingData(e, alphabet, s, t);
    PackedIs(s, Zeros(3 * k - 4 * |s|), SymbolStream(t[..k]));
  }

  /** The text without its final padding, at most two characters of it. */
  function Body(t: seq<Byte>): (d: seq<Byte>)
    ensures d <= t
  {
    if |t| < 1 || t[|t| - 1] != PAD then t
    else if |t| < 2 || t[|t| - 2] != PAD then t[..|t| - 1]
    else t[..|t| - 2]
  }

  /**
   The texts an encoder writes: whole groups of four, symbols of one alphabet before the
   padding, and zero in the bits that the last symbol has to spare.
   */
  ghost predicate Canonical(e: Alphabet, t: seq<Byte>) {
    var d := Body(t);
    && |t| % 4 == 0 && Over(e, d)
    && (|t| - |d| == 1 ==> d != [] && ValueOf(d[|d| - 1]) & 0x3 == 0)
    && (|t| - |d| == 2 ==> d != [] && ValueOf(d[|d| - 1]) & 0xf == 0)
  }

  lemma SpareBits(v: Byte)
    ensures v & 0xf == 0 <==> v & 3 == 0 && (v >> 2) & 3 == 0
  {}

  lemma {:induction false} LastPairs(d: seq<Byte>)
    requires d != []
    ensures var p, v := SymbolStream(d), ValueOf(d[|d| - 1]);
      p[|p| - 1] == v & 3 && p[|p| - 2] == (v >> 2) & 3
  {
    hide ValueOf;
    var n := |d| - 1;
    assert d == d[..n] + [d[n]];
    SymbolStreamConcat(d[..n], [d[n]]);
    SingleSymbol(d[n]);
  }

  /** The padding has as many characters as the last symbol has spare bit pairs. */
  lemma SpareCount(n: nat)
    ensures RequiredEncodeSize(n) - SymbolCount(n) == 3 * SymbolCount(n) - 4 * n
    ensures 0 <= 3 * SymbolCount(n) - 4 * n <= 2
    ensures RequiredEncodeSize(n) % 4 == 0
    ensures n > 0 ==> SymbolCount(n) > 0
  {}

  lemma EncodingIsCanonical(e: Alphabet, s: seq<Byte>, t: seq<Byte>)
    requires !e.Auto? && IsEncoding(e, s, t)
    ensures Canonical(e, t) && Body(t) == t[..SymbolCount(|s|)]
  {
    hide ByteStream, SymbolStream, ValueOf, RequiredEncodeSize, SymbolCount;
    SpareCount(|s|);
    var k := SymbolCount(|s|);
    var d := t[..k];
    assert k > 0 ==> Accepts(e, t[k - 1]);
    assert Body(t) == d;
    hide Accepts;
    if d != [] {
      LastPairs(d);
      SpareBits(ValueOf(d[k - 1]));
      var p := SymbolStream(d);
      assert |t| - k >= 1 ==> p[|p| - 1] == 0;
      assert |t| - k == 2 ==> p[|p| - 2] == 0;
    }
  }

  lemma CanonicalCount(n: nat, d: nat)
    requires n % 4 == 0 && d <= n <= d + 2
    ensures SymbolCount(3 * d / 4) == d && RequiredEncodeSize(3 * d / 4) == n
    ensures 3 * d - 4 * (3 * d / 4) == n - d
  {}

  lemma CanonicalIsEncoding(e: Alphabet, t: seq<Byte>)
    requires !e.Auto? && Canonical(e, t)
    ensures IsEncoding(e, Packed(SymbolStream(Body(t))), t)
  {
    var d := Body(t);
    var p := SymbolStream(d);
    var s := Packed(p);
    assert forall i :: |d| <= i < |t| ==> t[i] == PAD;
    assert |t| - 2 <= |d|;
    hide ByteStream, SymbolStream, ValueOf, RequiredEncodeSize, SymbolCount, Accepts, Packed, Body;
    CanonicalCount(|t|, |d|);
    SymbolPairs(e, d);
    PackedStream(p);
    if d != [] {
      LastPairs(d);
      SpareBits(ValueOf(d[|d| - 1]));
    }
    assert |s| == 3 * |d| / 4 && |p| - 4 * |s| == |t| - |d|;
    assert forall i :: 4 * |s| <= i < |p| ==> p[i] == 0;
    assert p == p[..4 * |s|] + Zeros(|t| - |d|);
    assert ByteStream(s) == p[..4 * |s|];
    assert t[..|d|] == d;
    assert forall i :: 0 <= i < |d| ==> Accepts(e, d[i]);
  }

  /** Encoding what was decoded gives the text back exactly when the text is canonical. */
  lemma EncodeDecoded(e: Alphabet, alphabet: Alphabet, behavior: Behavior, t: seq<Byte>, s: seq<Byte>)
    requires !e.Auto? && Decoded(alphabet, behavior, t) == Ok(s)
    ensures IsEncoding(e, s, t) <==> Canonical(e, t)
  {
    hide IsEncoding, Canonical, Packed, SymbolStream;
    if IsEncoding(e, s, t) {
      EncodingIsCanonical(e, s, t);
    }
    if Canonical(e, t) {
      CanonicalIsEncoding(e, t);
      BodyIsData(e, alphabet, t);
    }
  }

  lemma {:induction false} BodyIsData(e: Alphabet, alphabet: Alphabet, t: seq<Byte>)
    requires !e.Auto? && Canonical(e, t)
    requires var n := |Data(alphabet, t)|; n < |t| ==> t[n] == PAD
    ensures Data(alphabet, t) == Body(t)
  {
    var d, b := Data(alphabet, t), Body(t);
    assert forall i :: |b| <= i < |t| ==> t[i] == PAD;
    hide Data, Body;
    DataAccepted(alphabet, t);
    if |d| < |b| {
      AcceptedIsValue(e, b[|d|]);
      assert false;
    }
    if |b| < |d| {
      assert t[|b|] == d[|b|];
      PadIsNoSymbol(d, |b|);
    }
  }

  /** The canonical texts are the encodings. */
  lemma CanonicalIff(e: Alphabet, t: seq<Byte>)
    requires !e.Auto?
    ensures (exists s :: IsEncoding(e, s, t)) <==> Canonical(e, t)
  {
    if s :| IsEncoding(e, s, t) {
      EncodingIsCanonical(e, s, t);
    }
    if Canonical(e, t) {
      CanonicalIsEncoding(e, t);
    }
  }

  // ----- The table and the limits, spelled out -----

  lemma CapitalLetters(a: Alphabet)
    ensures Symbol(a, 0) == 'A' as Byte && Symbol(a, 1) == 'B' as Byte && Symbol(a, 2) == 'C' as Byte
    ensures Symbol(a, 3) == 'D' as Byte && Symbol(a, 4) == 'E' as Byte && Symbol(a, 5) == 'F' as Byte
    ensures Symbol(a, 6) == 'G' as Byte && Symbol(a, 7) == 'H' as Byte && Symbol(a, 8) == 'I' as Byte
    ensures Symbol(a, 9) == 'J' as Byte && Symbol(a, 10) == 'K' as Byte && Symbol(a, 11) == 'L' as Byte
    ensures Symbol(a, 12) == 'M' as Byte && Symbol(a, 13) == 'N' as Byte && Symbol(a, 14) == 'O' as Byte
    ensures Symbol(a, 15) == 'P' as Byte && Symbol(a, 16) == 'Q' as Byte && Symbol(a, 17) == 'R' as Byte
    ensures Symbol(a, 18) == 'S' as Byte && Symbol(a, 19) == 'T' as Byte && Symbol(a, 20) == 'U' as Byte
    ensures Symbol(a, 21) == 'V' as Byte && Symbol(a, 22) == 'W' as Byte && Symbol(a, 23) == 'X' as Byte
    ensures Symbol(a, 24) == 'Y' as Byte && Symbol(a, 25) == 'Z' as Byte
  {}

  lemma SmallLetters(a: Alphabet)
    ensures Symbol(a, 26) == 'a' as Byte && Symbol(a, 27) == 'b' as Byte && Symbol(a, 28) == 'c' as Byte
    ensures Symbol(a, 29) == 'd' as Byte && Symbol(a, 30) == 'e' as Byte && Symbol(a, 31) == 'f' as Byte
    ensures Symbol(a, 32) == 'g' as Byte && Symbol(a, 33) == 'h' as Byte && Symbol(a, 34) == 'i' as Byte
    ensures Symbol(a, 35) == 'j' as Byte && Symbol(a, 36) == 'k' as Byte && Symbol(a, 37) == 'l' as Byte
    ensures Symbol(a, 38) == 'm' as Byte && Symbol(a, 39) == 'n' as Byte && Symbol(a, 40) == 'o' as Byte
    ensures Symbol(a, 41) == 'p' as Byte && Symbol(a, 42) == 'q' as Byte && Symbol(a, 43) == 'r' as Byte
    ensures Symbol(a, 44) == 's' as Byte && Symbol(a, 45) == 't' as Byte && Symbol(a, 46) == 'u' as Byte
    ensures Symbol(a, 47) == 'v' as Byte && Symbol(a, 48) == 'w' as Byte && Symbol(a, 49) == 'x' as Byte
    ensures Symbol(a, 50) == 'y' as Byte && Symbol(a, 51) == 'z' as Byte
  {}

  lemma Digits(a: Alphabet)
    ensures Symbol(a, 52) == '0' as Byte && Symbol(a, 53) == '1' as Byte && Symbol(a, 54) == '2' as Byte
    ensures Symbol(a, 55) == '3' as Byte && Symbol(a, 56) == '4' as Byte && Symbol(a, 57) == '5' as Byte
    ensures Symbol(a, 58) == '6' as Byte && Symbol(a, 59) == '7' as Byte && Symbol(a, 60) == '8' as Byte
    ensures Symbol(a, 61) == '9' as Byte
  {}

  lemma LastSymbols()
    ensures Symbol(Standard, 62) == '+' as Byte && Symbol(Standard, 63) == '/' as Byte
    ensures Symbol(UrlSafe, 62) == '-' as Byte && Symbol(UrlSafe, 63) == '_' as Byte
    ensures PAD == '=' as Byte
  {}

  /** An alphabet accepts its 64 symbols and nothing else, and the detecting decoder those of both. */
  lemma AcceptsIff(a: Alphabet, c: Byte)
    ensures !a.Auto? ==> (Accepts(a, c) <==> exists v: Byte :: v < 64 && Symbol(a, v) == c)
    ensures Accepts(Auto, c) <==> Accepts(Standard, c) || Accepts(UrlSafe, c)
  {
    if !a.Auto? {
      if Accepts(a, c) {
        ValueRoundTrip(a, c);
        assert Symbol(a, ValueOf(c)) == c;
      }
      if v: Byte :| v < 64 && Symbol(a, v) == c {
        SymbolRoundTrip(a, v);
      }
    }
  }

  /**
   A text is refused exactly when the accepted symbols are followed by something other than
   `=`: right after them for every decoder, anywhere after them for the moderate one.
   */
  lemma {:induction false} RefusedIff(alphabet: Alphabet, t: seq<Byte>)
    ensures var n := |Data(alphabet, t)|;
      && (Decoded(alphabet, Loose, t).Err? <==> n < |t| && t[n] != '=' as Byte)
      && (Decoded(alphabet, Moderate, t).Err? <==> exists i :: n <= i < |t| && t[i] != '=' as Byte)
  {
    hide Data, WrittenBytes;
    var n := |Data(alphabet, t)|;
    if !OnlyPads(t[n..]) {
      var i :| 0 <= i < |t[n..]| && t[n..][i] != PAD;
      assert t[n + i] != PAD;
    }
    if i :| n <= i < |t| && t[i] != PAD {
      assert t[n..][i - n] != PAD;
    }
  }

  /** Three bytes are set aside for every four characters begun. */
  lemma MaxDecodeSizeIs(n: nat)
    ensures exists groups: nat :: MaxDecodeSize(n) == 3 * groups && 4 * groups - 4 < n <= 4 * groups
  {
    var groups: nat := n / 4 + if n % 4 != 0 then 1 else 0;
    assert MaxDecodeSize(n) == 3 * groups;
  }
}
