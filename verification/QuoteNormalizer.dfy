/**
 The Python-to-JSON quote normaliser (chat-peg-parser.cpp, normalize_quotes_to_json):
 single-quoted strings become double-quoted ones, True/False/None become their JSON
 spelling, and a prefix of a literal becomes the prefix of its spelling.
 */
module QuoteNormalizer {
  import opened Prelude

  datatype Mode = Bare | Single | Double

  predicate IsWordChar(c: char) {
    'a' <= c <= 'z' || 'A' <= c <= 'Z' || '0' <= c <= '9' || c == '_'
  }

  /** Length of the run of word characters at the front. */
  function WordLen(s: string): (n: nat)
    ensures n <= |s|
  {
    if s != "" && IsWordChar(s[0]) then 1 + WordLen(s[1..]) else 0
  }

  function Word(s: string): string {
    s[..WordLen(s)]
  }

  predicate StartsLiteral(c: char) {
    c == 'T' || c == 'F' || c == 'N'
  }

  predicate IsLiteralPrefix(w: string) {
    w != "" && (w <= "True" || w <= "False" || w <= "None")
  }

  function Translate(w: string): string {
    if w <= "True" then "true"[..|w|]
    else if w <= "False" then "false"[..|w|]
    else if w <= "None" then "null"[..|w|]
    else w
  }

  /** One round of the loop: what it emits, how far it reads and the mode it leaves. */
  datatype Chunk = Chunk(out: string, taken: nat, mode: Mode, midWord: bool)

  function Read(mode: Mode, midWord: bool, s: string): (r: Chunk)
    requires s != ""
    ensures 0 < r.taken <= |s|
    ensures r.midWord ==> r.mode.Bare?
  {
    var c := s[0];
    if c == '\\' && |s| >= 2 then
      match mode
      case Single =>
        Chunk(if s[1] == '\'' then "'" else if s[1] == '"' then "\\\"" else [c, s[1]], 2, Single, false)
      case Double => Chunk([c, s[1]], 2, Double, false)
      case Bare => Chunk([c], 1, Bare, false)
    else if c == '"' then
      match mode
      case Single => Chunk("\\\"", 1, Single, false)
      case Double => Chunk([c], 1, Bare, false)
      case Bare => Chunk([c], 1, Double, false)
    else if c == '\'' then
      match mode
      case Single => Chunk("\"", 1, Bare, false)
      case Double => Chunk([c], 1, Double, false)
      case Bare => Chunk("\"", 1, Single, false)
    else if mode.Bare? && !midWord && StartsLiteral(c) then
      Chunk(Translate(Word(s)), WordLen(s), Bare, true)
    else
      Chunk([c], 1, mode, mode.Bare? && IsWordChar(c))
  }

  /** What is emitted for `s`, read in `mode`; `midWord` says that a word character precedes it. */
  function Normalize(mode: Mode, midWord: bool, s: string): string
    decreases |s|
  {
    if s == "" then ""
    else var r := Read(mode, midWord, s); r.out + Normalize(r.mode, r.midWord, s[r.taken..])
  }

  function NormalizeText(s: string): string {
    Normalize(Bare, false, s)
  }

  // ----- Words -----

  ghost predicate AllWord(w: string) {
    forall i :: 0 <= i < |w| ==> IsWordChar(w[i])
  }

  lemma {:induction false} WordSplit(s: string)
    ensures AllWord(Word(s)) && s == Word(s) + s[WordLen(s)..]
    ensures WordLen(s) < |s| ==> !IsWordChar(s[WordLen(s)])
  {
    if s != "" && IsWordChar(s[0]) {
      WordSplit(s[1..]);
      assert Word(s) == [s[0]] + Word(s[1..]);
    }
  }

  lemma {:induction false} WordLenOf(w: string, t: string)
    requires AllWord(w)
    ensures WordLen(w + t) == |w| + WordLen(t)
    ensures Word(w + t) == w + Word(t)
  {
    if w == "" {
      assert w + t == t;
    } else {
      assert (w + t)[1..] == w[1..] + t;
      WordLenOf(w[1..], t);
    }
  }

  lemma {:induction false} WordLenStops(w: string, t: string)
    requires AllWord(w) && t != "" && !IsWordChar(t[0])
    ensures WordLen(w + t) == |w| && Word(w + t) == w
  {
    WordLenOf(w, t);
  }

  /** Once inside a word, its remaining characters are copied. */
  lemma {:induction false} CopyRestOfWord(w: string, t: string)
    requires AllWord(w)
    ensures Normalize(Bare, true, w + t) == w + Normalize(Bare, true, t)
  {
    if w == "" {
      assert w + t == t;
      assert w + Normalize(Bare, true, t) == Normalize(Bare, true, t);
    } else {
      assert (w + t)[1..] == w[1..] + t;
      CopyRestOfWord(w[1..], t);
      assert w + Normalize(Bare, true, t) == [w[0]] + (w[1..] + Normalize(Bare, true, t));
    }
  }

  lemma {:induction false} NormalizeUnfold(mode: Mode, midWord: bool, s: string, r: Chunk)
    requires s != "" && r == Read(mode, midWord, s)
    ensures Normalize(mode, midWord, s) == r.out + Normalize(r.mode, r.midWord, s[r.taken..])
  {}

  lemma ConsAppend(w: string, t: string)
    requires w != ""
    ensures w + t == [w[0]] + (w[1..] + t)
  {}

  /** A word whose first character cannot start a literal is copied. */
  lemma {:induction false} CopyPlainWord(w: string, t: string)
    requires AllWord(w) && w != "" && !StartsLiteral(w[0])
    ensures Normalize(Bare, false, w + t) == w + Normalize(Bare, true, t)
  {
    var s, u := w + t, w[1..];
    NormalizeUnfold(Bare, false, s, Chunk([w[0]], 1, Bare, true));
    assert s[1..] == u + t;
    CopyRestOfWord(u, t);
    ConsAppend(w, Normalize(Bare, true, t));
  }

  lemma {:induction false} MidWordIrrelevant(t: string)
    requires t == "" || !IsWordChar(t[0])
    ensures Normalize(Bare, true, t) == Normalize(Bare, false, t)
    ensures t != "" ==> Normalize(Bare, true, t) != "" && !IsWordChar(Normalize(Bare, true, t)[0])
  {}

  lemma TranslateIsWord(w: string)
    requires AllWord(w) && w != "" && StartsLiteral(w[0])
    ensures |Translate(w)| == |w| && AllWord(Translate(w))
    ensures IsLiteralPrefix(w) ==> !StartsLiteral(Translate(w)[0])
    ensures !IsLiteralPrefix(w) ==> Translate(w) == w
  {}

  lemma TranslateMonotone(a: string, b: string)
    requires a <= b && IsLiteralPrefix(b)
    ensures Translate(a) <= Translate(b)
  {
    if a != "" {
      assert a[0] == b[0];
    }
  }

  lemma LiteralPrefixClosed(a: string, b: string)
    requires a != "" && IsLiteralPrefix(a + b)
    ensures IsLiteralPrefix(a) && StartsLiteral(a[0])
  {
    assert a <= a + b;
    assert a[0] == (a + b)[0];
  }

  // ----- The loop of the source -----

  ghost function ModeOf(inSingle: bool, inDouble: bool): Mode {
    if inSingle then Single else if inDouble then Double else Bare
  }

  ghost predicate MidWord(mode: Mode, input: string, i: nat)
    requires i <= |input|
  {
    mode.Bare? && i > 0 && IsWordChar(input[i - 1])
  }

  /** `result` is what has been emitted for the first `i` characters. */
  ghost predicate Emitted(input: string, i: nat, mode: Mode, result: string) {
    i <= |input| && NormalizeText(input) == result + Normalize(mode, MidWord(mode, input, i), input[i..])
  }

  lemma Advance(input: string, i: nat, mode: Mode, result: string, r: Chunk)
    requires i < |input| && Emitted(input, i, mode, result)
    requires r == Read(mode, MidWord(mode, input, i), input[i..])
    requires r.midWord == MidWord(r.mode, input, i + r.taken)
    ensures Emitted(input, i + r.taken, r.mode, result + r.out)
  {
    var rest := input[i..];
    NormalizeUnfold(mode, MidWord(mode, input, i), rest, r);
    assert rest[r.taken..] == input[i + r.taken..];
  }

  lemma {:induction false} UnmatchedWord(s: string)
    requires s != "" && StartsLiteral(s[0]) && Translate(Word(s)) == Word(s)
    ensures Normalize(Bare, false, s) == [s[0]] + Normalize(Bare, true, s[1..])
  {
    var w, t := Word(s), s[WordLen(s)..];
    WordSplit(s);
    NormalizeUnfold(Bare, false, s, Chunk(w, |w|, Bare, true));
    var u := w[1..];
    assert s[1..] == u + t;
    CopyRestOfWord(u, t);
    ConsAppend(w, Normalize(Bare, true, t));
  }

  method TokenLength(input: string, i: nat) returns (n: nat)
    requires i <= |input|
    ensures n == WordLen(input[i..])
  {
    n := 0;
    while i + n < |input| && IsWordChar(input[i + n])
      invariant i + n <= |input|
      invariant n + WordLen(input[i + n..]) == WordLen(input[i..])
    {
      assert input[i + n..][1..] == input[i + n + 1..];
      n := n + 1;
    }
  }

  lemma {:induction false} ReadLiteral(s: string)
    requires s != "" && StartsLiteral(s[0])
    ensures Word(s) != "" && Read(Bare, false, s) == Chunk(Translate(Word(s)), WordLen(s), Bare, true)
  {}

  lemma EmitMatched(input: string, i: nat, result: string)
    requires i < |input| && StartsLiteral(input[i]) && Emitted(input, i, Bare, result)
    requires !MidWord(Bare, input, i)
    ensures var w := Word(input[i..]);
      w != "" && i + |w| <= |input| && Emitted(input, i + |w|, Bare, result + Translate(w))
  {
    var w := Word(input[i..]);
    ReadLiteral(input[i..]);
    assert MidWord(Bare, input, i + |w|) by {
      WordSplit(input[i..]);
      assert input[i + |w| - 1] == w[|w| - 1];
    }
    Advance(input, i, Bare, result, Chunk(Translate(w), |w|, Bare, true));
  }

  lemma EmitUnmatched(input: string, i: nat, result: string)
    requires i < |input| && StartsLiteral(input[i]) && Emitted(input, i, Bare, result)
    requires !MidWord(Bare, input, i) && Translate(Word(input[i..])) == Word(input[i..])
    ensures Emitted(input, i + 1, Bare, result + [input[i]])
  {
    UnmatchedWord(input[i..]);
    assert input[i..][1..] == input[i + 1..];
  }

  /** The literal table: the JSON spelling of a prefix of a Python literal. */
  method MatchLiteral(token: string) returns (spelling: Option<string>)
    requires token != ""
    ensures spelling.Some? <==> IsLiteralPrefix(token)
    ensures Translate(token) == if spelling.Some? then spelling.value else token
  {
    if token <= "True" {
      return Some("true"[..|token|]);
    } else if token <= "False" {
      return Some("false"[..|token|]);
    } else if token <= "None" {
      return Some("null"[..|token|]);
    }
    return None;
  }

  /** The literal branch: the JSON spelling of a matched token, or just its first character. */
  method EmitLiteral(input: string, i: nat, ghost result: string) returns (out: string, next: nat)
    requires i < |input| && StartsLiteral(input[i]) && !MidWord(Bare, input, i)
    requires Emitted(input, i, Bare, result)
    ensures i < next && Emitted(input, next, Bare, result + out)
  {
    hide Normalize, Read;
    var n := TokenLength(input, i);
    var token := input[i..i + n];
    assert token == Word(input[i..]);
    EmitMatched(input, i, result);
    var spelling := MatchLiteral(token);
    if spelling.Some? {
      return spelling.value, i + n;
    }
    EmitUnmatched(input, i, result);
    return [input[i]], i + 1;
  }

  method NormalizeQuotesToJson(input: string) returns (result: string)
    ensures result == NormalizeText(input)
  {
    result := "";
    var inSingle, inDouble := false, false;
    var i := 0;
    assert input[0..] == input;
    while i < |input|
      invariant !(inSingle && inDouble)
      invariant Emitted(input, i, ModeOf(inSingle, inDouble), result)
    {
      var c := input[i];
      ghost var mode := ModeOf(inSingle, inDouble);
      ghost var chunk := Read(mode, MidWord(mode, input, i), input[i..]);
      var out, taken := [c], 1;
      if c == '\\' && i + 1 < |input| {
        var next := input[i + 1];
        if inSingle {
          if next == '\'' {
            out := "'";
          } else if next == '"' {
            out := "\\\"";
          } else {
            out := [c, next];
          }
          taken := 2;
        } else if inDouble {
          out, taken := [c, next], 2;
        }
      } else if c == '"' {
        if inSingle {
          out := "\\\"";
        } else {
          inDouble := !inDouble;
        }
      } else if c == '\'' {
        if !inDouble {
          inSingle := !inSingle;
          out := "\"";
        }
      } else if !inSingle && !inDouble && StartsLiteral(c) && (i == 0 || !IsWordChar(input[i - 1])) {
        out, i := EmitLiteral(input, i, result);
        result := result + out;
        continue;
      }
      assert out == chunk.out && taken == chunk.taken;
      Advance(input, i, mode, result, chunk);
      result, i := result + out, i + taken;
    }
  }
}
