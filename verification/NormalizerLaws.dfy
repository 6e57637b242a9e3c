/**
 What the quote normaliser promises: it keeps the structure a reader sees, it is
 idempotent, and it is monotone on a growing input exactly when the growth does not
 break a pending apostrophe escape or a pending literal.
 */
module NormalizerLaws {
  import opened Prelude
  import opened JsonText
  import opened QuoteNormalizer

  // ----- An independent reader of the Python side, one character at a time -----

  /** `word` is the unquoted word the text ends in, or empty. */
  datatype PyState = PyState(mode: Mode, escaped: bool, word: string)

  const PY_START := PyState(Bare, false, "")

  function PyStep(s: PyState, c: char): PyState {
    if s.mode.Bare? then
      if c == '"' then PyState(Double, false, "")
      else if c == '\'' then PyState(Single, false, "")
      else PyState(Bare, false, if IsWordChar(c) then s.word + [c] else "")
    else if s.escaped then PyState(s.mode, false, "")
    else if c == '\\' then PyState(s.mode, true, "")
    else if c == (if s.mode.Single? then '\'' else '"') then PY_START
    else PyState(s.mode, false, "")
  }

  function PyRun(s: PyState, t: string): PyState
    decreases |t|
  {
    if t == "" then s else PyRun(PyStep(s, t[0]), t[1..])
  }

  /**
   What a reader sees: words, brackets and punctuation outside strings, string borders, and
   the content of strings with escaped quotes resolved.
   */
  datatype Event = Token(w: string) | Outside(c: char) | Open | Close | Content(c: char) | Escaped(c: char)

  /** A word ends where something else begins. */
  function Ended(word: string): seq<Event> {
    if word == "" then [] else [Token(word)]
  }

  function PyEvent(s: PyState, c: char): seq<Event> {
    if s.mode.Bare? then
      if IsWordChar(c) then [] else Ended(s.word) + [if c == '"' || c == '\'' then Open else Outside(c)]
    else if s.escaped then
      if c == '"' || (c == '\'' && s.mode.Single?) then [Content(c)] else [Escaped(c)]
    else if c == '\\' then []
    else if c == (if s.mode.Single? then '\'' else '"') then [Close]
    else [Content(c)]
  }

  function PyEvents(s: PyState, t: string): seq<Event>
    decreases |t|
  {
    if t == "" then [] else PyEvent(s, t[0]) + PyEvents(PyStep(s, t[0]), t[1..])
  }

  // ----- The same for JSON, on top of the scanner of the source -----

  datatype JsonState = JsonState(scan: Scan, word: string)

  const JSON_START := JsonState(START, "")

  function JsonStep(s: JsonState, c: char): JsonState {
    JsonState(ScanChar(s.scan, c), if !s.scan.inString && IsWordChar(c) then s.word + [c] else "")
  }

  function JsonRun(s: JsonState, t: string): JsonState
    decreases |t|
  {
    if t == "" then s else JsonRun(JsonStep(s, t[0]), t[1..])
  }

  function JsonEvent(s: JsonState, c: char): seq<Event> {
    if s.scan.escaped then
      if c == '"' then [Content(c)] else [Escaped(c)]
    else if s.scan.inString then
      if c == '\\' then [] else if c == '"' then [Close] else [Content(c)]
    else if IsWordChar(c) then []
    else Ended(s.word) + [if c == '"' then Open else Outside(c)]
  }

  function JsonEvents(s: JsonState, t: string): seq<Event>
    decreases |t|
  {
    if t == "" then [] else JsonEvent(s, t[0]) + JsonEvents(JsonStep(s, t[0]), t[1..])
  }

  lemma {:induction false} JsonRunScans(s: JsonState, t: string)
    ensures JsonRun(s, t).scan == ScanText(s.scan, t)
    decreases |t|
  {
    if t != "" {
      JsonRunScans(JsonStep(s, t[0]), t[1..]);
    }
  }

  /** Opening minus closing braces outside strings. */
  function Braces(es: seq<Event>): int {
    if es == [] then 0
    else (if es[0] == Outside('{') then 1 else if es[0] == Outside('}') then -1 else 0) + Braces(es[1..])
  }

  lemma {:induction false} BracesConcat(a: seq<Event>, b: seq<Event>)
    ensures Braces(a + b) == Braces(a) + Braces(b)
  {
    if a == [] {
      assert a + b == b;
    } else {
      assert (a + b)[1..] == a[1..] + b;
      BracesConcat(a[1..], b);
    }
  }

  /** The brace counter of the source counts exactly the brace events. */
  lemma {:induction false} DepthIsBraces(s: JsonState, t: string)
    requires s.scan.escaped ==> s.scan.inString
    ensures ScanText(s.scan, t).depth == s.scan.depth + Braces(JsonEvents(s, t))
    decreases |t|
  {
    if t != "" {
      DepthIsBraces(JsonStep(s, t[0]), t[1..]);
      BracesConcat(JsonEvent(s, t[0]), JsonEvents(JsonStep(s, t[0]), t[1..]));
      BracesOfEvent(s, t[0]);
    }
  }

  lemma BracesOfEvent(s: JsonState, c: char)
    requires s.scan.escaped ==> s.scan.inString
    ensures ScanChar(s.scan, c).depth == s.scan.depth + Braces(JsonEvent(s, c))
  {
    BracesEnded(s.word, if c == '"' then Open else Outside(c));
    BracesEnded("", Content(c));
    BracesEnded("", Escaped(c));
    BracesEnded("", Close);
  }

  lemma BracesEnded(word: string, e: Event)
    ensures Braces(Ended(word) + [e]) == Braces([e])
    ensures Braces([e]) == if e == Outside('{') then 1 else if e == Outside('}') then -1 else 0
  {
    BracesConcat(Ended(word), [e]);
    assert [e][1..] == [];
    assert Ended(word) != [] ==> Ended(word)[1..] == [];
  }

  // ----- Structure -----

  /** The events with every word in its JSON spelling. */
  function Told(es: seq<Event>): (r: seq<Event>)
    ensures |r| == |es|
  {
    if es == [] then []
    else [if es[0].Token? then Token(Translate(es[0].w)) else es[0]] + Told(es[1..])
  }

  lemma {:induction false} ToldConcat(a: seq<Event>, b: seq<Event>)
    ensures Told(a + b) == Told(a) + Told(b)
  {
    if a == [] {
      assert a + b == b;
    } else {
      assert (a + b)[1..] == a[1..] + b;
      ToldConcat(a[1..], b);
    }
  }

  lemma ToldEnded(word: string, e: Event)
    ensures Told(Ended(word)) == Ended(Translate(word))
    ensures !e.Token? ==> Told([e]) == [e] && Told(Ended(word) + [e]) == Ended(Translate(word)) + [e]
  {
    assert [e][1..] == [] && Told([]) == [];
    ToldConcat(Ended(word), [e]);
    assert Ended(word) != [] ==> Ended(word)[1..] == [];
  }

  /** The JSON reader state that corresponds to a Python reader state at depth `d`. */
  function Image(s: PyState, d: int): JsonState {
    JsonState(Scan(d, !s.mode.Bare?, s.escaped), Translate(s.word))
  }

  /** Both readers agree on `t` and on what `t` becomes, up to the final state. */
  ghost predicate SameReading(s: PyState, t: string, d: int, out: string) {
    && JsonEvents(Image(s, d), out) == Told(PyEvents(s, t))
    && JsonRun(Image(s, d), out) == Image(PyRun(s, t), d + Braces(PyEvents(s, t)))
  }

  lemma {:induction false} PyConcat(s: PyState, a: string, b: string)
    ensures PyRun(s, a + b) == PyRun(PyRun(s, a), b)
    ensures PyEvents(s, a + b) == PyEvents(s, a) + PyEvents(PyRun(s, a), b)
    decreases |a|
  {
    if a == "" {
      assert a + b == b;
    } else {
      assert (a + b)[1..] == a[1..] + b;
      PyConcat(PyStep(s, a[0]), a[1..], b);
    }
  }

  lemma {:induction false} JsonConcat(s: JsonState, a: string, b: string)
    ensures JsonRun(s, a + b) == JsonRun(JsonRun(s, a), b)
    ensures JsonEvents(s, a + b) == JsonEvents(s, a) + JsonEvents(JsonRun(s, a), b)
    decreases |a|
  {
    if a == "" {
      assert a + b == b;
    } else {
      assert (a + b)[1..] == a[1..] + b;
      JsonConcat(JsonStep(s, a[0]), a[1..], b);
    }
  }

  lemma {:induction false} ReadingComposes(s: PyState, d: int, a: string, x: string, b: string, y: string)
    requires SameReading(s, a, d, x)
    requires SameReading(PyRun(s, a), b, d + Braces(PyEvents(s, a)), y)
    ensures SameReading(s, a + b, d, x + y)
  {
    PyConcat(s, a, b);
    JsonConcat(Image(s, d), x, y);
    ToldConcat(PyEvents(s, a), PyEvents(PyRun(s, a), b));
    BracesConcat(PyEvents(s, a), PyEvents(PyRun(s, a), b));
  }

  lemma EmptyReading(s: PyState, d: int)
    ensures SameReading(s, "", d, "")
  {}

  /** A word makes no event before it has ended. */
  lemma {:induction false} WordIsSilent(s: PyState, w: string)
    requires AllWord(w) && s.mode.Bare?
    ensures PyEvents(s, w) == []
    decreases |w|
  {
    if w != "" {
      assert PyEvent(s, w[0]) == [];
      WordIsSilent(PyStep(s, w[0]), w[1..]);
    }
  }

  lemma {:induction false} WordIsRead(s: PyState, w: string)
    requires AllWord(w) && s.mode.Bare?
    ensures PyRun(s, w) == if w == "" then s else PyState(Bare, false, s.word + w)
    decreases |w|
  {
    if w != "" {
      var u := w[1..];
      WordIsRead(PyStep(s, w[0]), u);
      assert s.word + w == (s.word + [w[0]]) + u;
    }
  }

  lemma {:induction false} JsonWordIsRead(d: int, before: string, w: string)
    requires AllWord(w)
    ensures JsonEvents(JsonState(Scan(d, false, false), before), w) == []
    ensures JsonRun(JsonState(Scan(d, false, false), before), w) == JsonState(Scan(d, false, false), before + w)
    decreases |w|
  {
    if w != "" {
      JsonWordIsRead(d, before + [w[0]], w[1..]);
      assert before + w == (before + [w[0]]) + w[1..];
    } else {
      assert before + w == before;
    }
  }

  lemma {:induction false} JsonPair(s: JsonState, x: char, y: char)
    ensures JsonEvents(s, [x, y]) == JsonEvent(s, x) + JsonEvent(JsonStep(s, x), y)
    ensures JsonRun(s, [x, y]) == JsonStep(JsonStep(s, x), y)
  {
    var s' := JsonStep(s, x);
    assert [x, y][1..] == [y] && [y][1..] == "";
    assert JsonEvents(s', [y]) == JsonEvent(s', y) && JsonRun(s', [y]) == JsonStep(s', y);
  }

  lemma {:induction false} PyPair(s: PyState, x: char, y: char)
    ensures PyEvents(s, [x, y]) == PyEvent(s, x) + PyEvent(PyStep(s, x), y)
    ensures PyRun(s, [x, y]) == PyStep(PyStep(s, x), y)
  {
    var s' := PyStep(s, x);
    assert [x, y][1..] == [y] && [y][1..] == "";
    assert PyEvents(s', [y]) == PyEvent(s', y) && PyRun(s', [y]) == PyStep(s', y);
  }

  lemma {:induction false} One(s: PyState, d: JsonState, c: char)
    ensures PyEvents(s, [c]) == PyEvent(s, c) && PyRun(s, [c]) == PyStep(s, c)
    ensures JsonEvents(d, [c]) == JsonEvent(d, c) && JsonRun(d, [c]) == JsonStep(d, c)
  {
    assert [c][1..] == "";
  }

  /** An escape pair inside a string becomes one plain character or an escape pair. */
  lemma {:induction false} PairKeeps(s: PyState, x: char, d: int)
    requires !s.escaped && !s.mode.Bare? && s.word == ""
    ensures var piece := ['\\', x];
      && PyRun(s, piece) == PyState(s.mode, false, "")
      && (x == '\'' && s.mode.Single? ==> SameReading(s, piece, d, "'"))
      && (x != '\'' || !s.mode.Single? ==> SameReading(s, piece, d, piece))
  {
    PyPair(s, '\\', x);
    JsonPair(Image(s, d), '\\', x);
    ToldEnded("", Content(x));
    ToldEnded("", Escaped(x));
    One(s, Image(s, d), x);
  }

  lemma {:induction false} LiteralKeeps(s: PyState, w: string, d: int)
    requires s.mode.Bare? && !s.escaped && s.word == "" && AllWord(w) && w != "" && StartsLiteral(w[0])
    ensures PyRun(s, w) == PyState(Bare, false, w) && SameReading(s, w, d, Translate(w))
  {
    hide Translate, Told;
    NothingTold();
    TranslateIsWord(w);
    WordIsSilent(s, w);
    WordIsRead(s, w);
    JsonWordIsRead(d, "", Translate(w));
    assert "" + w == w && "" + Translate(w) == Translate(w);
  }

  lemma NothingTold()
    ensures Told([]) == [] && Translate("") == "" && Braces([]) == 0
  {}

  function CharOut(s: PyState, c: char): string {
    if c == '"' && s.mode.Single? then "\\\"" else if c == '\'' && !s.mode.Double? then "\"" else [c]
  }

  /** The word read so far, if any, is one that is copied, or it has ended. */
  predicate AtWord(s: PyState, midWord: bool, t: string) {
    && (midWord <==> s.word != "") && (midWord ==> s.mode.Bare?)
    && (s.word != "" && StartsLiteral(s.word[0]) ==> t == "" || !IsWordChar(t[0]))
  }

  lemma CopiedWord(w: string)
    ensures w != "" && !StartsLiteral(w[0]) ==> Translate(w) == w
    ensures Translate("") == ""
  {}

  lemma {:induction false} CharKeeps(s: PyState, c: char, d: int)
    requires !s.escaped && (!s.mode.Bare? ==> s.word == "")
    requires s.mode.Bare? && IsWordChar(c) ==> !StartsLiteral((s.word + [c])[0])
    ensures PyRun(s, [c]) == PyStep(s, c) && SameReading(s, [c], d, CharOut(s, c))
  {
    hide Braces, Told, Translate;
    NothingTold();
    One(s, Image(s, d), c);
    One(s, Image(s, d), '"');
    JsonPair(Image(s, d), '\\', '"');
    CopiedWord(s.word);
    CopiedWord(s.word + [c]);
    ToldEnded(s.word, Open);
    ToldEnded(s.word, Outside(c));
    ToldEnded("", Content(c));
    ToldEnded("", Close);
    assert s.word != "" ==> (s.word + [c])[0] == s.word[0];
    BracesEnded(s.word, Open);
    BracesEnded(s.word, Outside(c));
    BracesEnded("", Content(c));
    BracesEnded("", Close);
  }

  /** A round of the loop keeps the reading of the piece it consumes. */
  ghost predicate Keeps(s: PyState, t: string, d: int, r: Chunk)
    requires r.taken <= |t|
  {
    var piece := t[..r.taken];
    && SameReading(s, piece, d, r.out)
    && PyRun(s, piece).mode == r.mode
    && (r.taken < |t| ==> !PyRun(s, piece).escaped)
    && AtWord(PyRun(s, piece), r.midWord, t[r.taken..])
  }

  lemma {:induction false} PairChunk(s: PyState, t: string, d: int)
    requires |t| >= 2 && t[0] == '\\' && !s.escaped && !s.mode.Bare? && s.word == ""
    ensures Keeps(s, t, d, Read(s.mode, false, t))
  {
    assert t[..2] == ['\\', t[1]];
    PairKeeps(s, t[1], d);
  }

  lemma {:induction false} LiteralChunk(s: PyState, t: string, d: int)
    requires t != "" && StartsLiteral(t[0]) && !s.escaped && s.mode.Bare? && s.word == ""
    ensures Keeps(s, t, d, Read(s.mode, false, t))
  {
    ReadLiteral(t);
    WordSplit(t);
    LiteralKeeps(s, Word(t), d);
  }

  lemma {:induction false} CharChunk(s: PyState, midWord: bool, t: string, d: int)
    requires t != "" && !s.escaped && AtWord(s, midWord, t)
    requires !(|t| >= 2 && t[0] == '\\' && !s.mode.Bare?) && !(s.mode.Bare? && !midWord && StartsLiteral(t[0]))
    ensures Keeps(s, t, d, Read(s.mode, midWord, t))
  {
    assert t[..1] == [t[0]];
    CharKeeps(s, t[0], d);
    assert Read(s.mode, midWord, t).out == CharOut(s, t[0]);
  }

  lemma {:induction false} ChunkKeeps(s: PyState, midWord: bool, t: string, d: int)
    requires t != "" && !s.escaped && AtWord(s, midWord, t)
    ensures Keeps(s, t, d, Read(s.mode, midWord, t))
  {
    hide Keeps;
    if |t| >= 2 && t[0] == '\\' && !s.mode.Bare? {
      PairChunk(s, t, d);
    } else if s.mode.Bare? && !midWord && StartsLiteral(t[0]) {
      LiteralChunk(s, t, d);
    } else {
      CharChunk(s, midWord, t, d);
    }
  }

  lemma {:induction false} KeepsStructureFrom(s: PyState, midWord: bool, t: string, d: int)
    requires (t != "" ==> !s.escaped) && AtWord(s, midWord, t)
    ensures SameReading(s, t, d, Normalize(s.mode, midWord, t))
    decreases |t|
  {
    hide Read, SameReading, AtWord, PyRun, PyEvents, Braces;
    if t == "" {
      EmptyReading(s, d);
    } else {
      var r := Read(s.mode, midWord, t);
      var piece, rest := t[..r.taken], t[r.taken..];
      ChunkKeeps(s, midWord, t, d);
      KeepsStructureFrom(PyRun(s, piece), r.midWord, rest, d + Braces(PyEvents(s, piece)));
      ReadingComposes(s, d, piece, r.out, rest, Normalize(r.mode, r.midWord, rest));
      assert t == piece + rest;
    }
  }

  // ----- The spelling of words, on its own -----

  /** `js` is how JSON spells the Python word `py`, or as much of it as there is. */
  predicate Spells(py: string, js: string) {
    && |js| == |py|
    && (py <= "True" ==> js <= "true")
    && (py <= "False" ==> js <= "false")
    && (py <= "None" ==> js <= "null")
    && (py <= "True" || py <= "False" || py <= "None" || js == py)
  }

  /** The same events, with every word in its JSON spelling. */
  ghost predicate Spelled(es: seq<Event>, out: seq<Event>) {
    && |es| == |out|
    && forall i {:trigger out[i]} :: 0 <= i < |es| ==>
         if es[i].Token? then out[i].Token? && Spells(es[i].w, out[i].w) else out[i] == es[i]
  }

  lemma TranslateSpells(w: string)
    ensures Spells(w, Translate(w))
  {
    if w != "" {
      assert w <= "True" ==> w[0] == 'T';
      assert w <= "False" ==> w[0] == 'F';
      assert w <= "None" ==> w[0] == 'N';
    }
  }

  lemma {:induction false} ToldIsSpelled(es: seq<Event>)
    ensures Spelled(es, Told(es))
  {
    hide Translate, Spells;
    if es != [] {
      ToldIsSpelled(es[1..]);
      TranslateSpells(if es[0].Token? then es[0].w else "");
      var out := Told(es);
      assert out[1..] == Told(es[1..]);
      forall i | 0 < i < |es| ensures out[i] == out[1..][i - 1] && es[i] == es[1..][i - 1] {}
    }
  }

  /** A word alone: the literals and their beginnings change, every other word stays. */
  lemma {:induction false} WordSpelling(w: string)
    requires AllWord(w)
    ensures Spells(w, NormalizeText(w))
  {
    TranslateSpells(w);
    assert w + "" == w;
    if w == "" {
    } else if StartsLiteral(w[0]) {
      WordLenOf(w, "");
      NoWord();
      ReadLiteral(w);
      NormalizeUnfold(Bare, false, w, Chunk(Translate(w), |w|, Bare, true));
      NothingLeft(w);
    } else {
      CopyPlainWord(w, "");
      assert Normalize(Bare, true, "") == "" && w + Normalize(Bare, true, "") == w;
    }
  }

  lemma {:induction false} Literals(n: nat)
    ensures 1 <= n <= 4 ==> NormalizeText("True"[..n]) == "true"[..n]
    ensures 1 <= n <= 5 ==> NormalizeText("False"[..n]) == "false"[..n]
    ensures 1 <= n <= 4 ==> NormalizeText("None"[..n]) == "null"[..n]
  {
    hide NormalizeText;
    assert AllWord("True") && AllWord("False") && AllWord("None");
    if 1 <= n <= 4 {
      WordSpelling("True"[..n]);
      WordSpelling("None"[..n]);
    }
    if 1 <= n <= 5 {
      WordSpelling("False"[..n]);
    }
  }

  /**
   For every input, a JSON reader of the output sees what a Python reader of the input sees,
   with each word in its JSON spelling.
   */
  lemma {:induction false} KeepsStructure(t: string)
    ensures Spelled(PyEvents(PY_START, t), JsonEvents(JSON_START, NormalizeText(t)))
    ensures Spells(PyRun(PY_START, t).word, JsonRun(JSON_START, NormalizeText(t)).word)
    ensures ScanText(START, NormalizeText(t)).depth == Braces(PyEvents(PY_START, t))
    ensures ScanText(START, NormalizeText(t)).inString == !PyRun(PY_START, t).mode.Bare?
    ensures ScanText(START, NormalizeText(t)).escaped == PyRun(PY_START, t).escaped
  {
    hide Spelled, Spells;
    KeepsStructureFrom(PY_START, false, t, 0);
    JsonRunScans(JSON_START, NormalizeText(t));
    ToldIsSpelled(PyEvents(PY_START, t));
    TranslateSpells(PyRun(PY_START, t).word);
  }

  // ----- Escapes -----

  predicate IsHex(c: char) {
    '0' <= c <= '9' || 'a' <= c <= 'f' || 'A' <= c <= 'F'
  }

  predicate IsSimpleEscape(c: char) {
    c == '\\' || c == '/' || c == 'b' || c == 'f' || c == 'n' || c == 'r' || c == 't'
  }

  /** Text after a backslash that makes an escape of section 7 of RFC 8259. */
  predicate IsEscape(t: string) {
    t != "" &&
    (t[0] == '"' || IsSimpleEscape(t[0])
     || (t[0] == 'u' && |t| >= 5 && IsHex(t[1]) && IsHex(t[2]) && IsHex(t[3]) && IsHex(t[4])))
  }

  /** All complete escapes in the strings of a JSON text are ones that JSON has. */
  predicate JsonEscapes(s: Scan, t: string)
    decreases |t|
  {
    t != "" ==> (s.escaped ==> IsEscape(t)) && JsonEscapes(ScanChar(s, t[0]), t[1..])
  }

  /** The same for a Python text, where a single-quoted string may also escape an apostrophe. */
  predicate PyEscapes(s: PyState, t: string)
    decreases |t|
  {
    t != "" ==>
      && (s.escaped ==> IsEscape(t) || (t[0] == '\'' && s.mode.Single?))
      && PyEscapes(PyStep(s, t[0]), t[1..])
  }

  predicate IsHexContent(e: Event) {
    e.Content? && IsHex(e.c)
  }

  predicate EscapeEvent(es: seq<Event>)
    requires es != []
  {
    es[0].Escaped? ==>
      || IsSimpleEscape(es[0].c)
      || (&& es[0].c == 'u' && |es| >= 5
          && IsHexContent(es[1]) && IsHexContent(es[2]) && IsHexContent(es[3]) && IsHexContent(es[4]))
  }

  predicate EscapeEvents(es: seq<Event>) {
    es != [] ==> EscapeEvent(es) && EscapeEvents(es[1..])
  }

  predicate HexStart(t: string, n: nat) {
    n <= |t| && forall i :: 0 <= i < n ==> IsHex(t[i])
  }

  predicate HexEvents(es: seq<Event>, n: nat) {
    n <= |es| && forall i :: 0 <= i < n ==> IsHexContent(es[i])
  }

  lemma HexStartNext(t: string, n: nat)
    requires t != "" && n > 0
    ensures HexStart(t, n) <==> IsHex(t[0]) && HexStart(t[1..], n - 1)
  {
    if IsHex(t[0]) && HexStart(t[1..], n - 1) {
      assert forall i :: 0 < i < n ==> t[i] == t[1..][i - 1];
    }
  }

  lemma HexEventsNext(e: Event, es: seq<Event>, n: nat)
    requires n > 0
    ensures HexEvents([e] + es, n) <==> IsHexContent(e) && HexEvents(es, n - 1)
  {
    var all := [e] + es;
    assert all[0] == e;
    if HexEvents(all, n) {
      assert forall i :: 0 <= i < n - 1 ==> es[i] == all[i + 1];
    }
  }

  /** Inside a string, hexadecimal digits are the only text that reads as such. */
  lemma {:induction false} JsonHexDigits(s: JsonState, t: string, n: nat)
    requires s.scan.inString && !s.scan.escaped
    ensures HexStart(t, n) <==> HexEvents(JsonEvents(s, t), n)
    decreases n
  {
    hide HexStart, HexEvents;
    NoHex(t, JsonEvents(s, t));
    if n > 0 && t != "" {
      var s', u := JsonStep(s, t[0]), t[1..];
      HexStartNext(t, n);
      if t[0] == '\\' {
        assert JsonEvents(s, t) == JsonEvents(s', u);
        NoHex(u, JsonEvents(s', u));
        if u != "" {
          HexEventsNext(JsonEvent(s', u[0])[0], JsonEvents(JsonStep(s', u[0]), u[1..]), n);
        }
      } else {
        HexEventsNext(JsonEvent(s, t[0])[0], JsonEvents(s', u), n);
        if IsHex(t[0]) {
          JsonHexDigits(s', u, n - 1);
        }
      }
    }
  }

  lemma {:induction false} PyHexDigits(s: PyState, t: string, n: nat)
    requires !s.mode.Bare? && !s.escaped
    ensures HexStart(t, n) <==> HexEvents(PyEvents(s, t), n)
    decreases n
  {
    hide HexStart, HexEvents;
    NoHex(t, PyEvents(s, t));
    if n > 0 && t != "" {
      var s', u := PyStep(s, t[0]), t[1..];
      HexStartNext(t, n);
      if t[0] == '\\' {
        assert PyEvents(s, t) == PyEvents(s', u);
        NoHex(u, PyEvents(s', u));
        if u != "" {
          HexEventsNext(PyEvent(s', u[0])[0], PyEvents(PyStep(s', u[0]), u[1..]), n);
        }
      } else {
        HexEventsNext(PyEvent(s, t[0])[0], PyEvents(s', u), n);
        if IsHex(t[0]) {
          PyHexDigits(s', u, n - 1);
        }
      }
    }
  }

  lemma NoHex(t: string, es: seq<Event>)
    ensures HexStart(t, 0) && HexEvents(es, 0)
    ensures t == "" ==> forall n :: n > 0 ==> !HexStart(t, n)
    ensures es == [] ==> forall n :: n > 0 ==> !HexEvents(es, n)
  {}

  lemma HexFour(t: string, es: seq<Event>, c: char)
    ensures IsEscape([c] + t) <==> c == '"' || IsSimpleEscape(c) || (c == 'u' && HexStart(t, 4))
    ensures EscapeEvent([Escaped(c)] + es) <==> IsSimpleEscape(c) || (c == 'u' && HexEvents(es, 4))
  {
    var u, all := [c] + t, [Escaped(c)] + es;
    assert |t| >= 4 ==> u[1] == t[0] && u[2] == t[1] && u[3] == t[2] && u[4] == t[3];
    assert |es| >= 4 ==> all[1] == es[0] && all[2] == es[1] && all[3] == es[2] && all[4] == es[3];
  }

  lemma {:induction false} EscapeEventsAfter(e: Event, word: string, es: seq<Event>)
    ensures EscapeEvents([e] + es) <==> EscapeEvent([e] + es) && EscapeEvents(es)
    ensures !e.Escaped? ==> (EscapeEvents([e] + es) <==> EscapeEvents(es))
    ensures !e.Escaped? ==> (EscapeEvents(Ended(word) + [e] + es) <==> EscapeEvents(es))
  {
    assert ([e] + es)[1..] == es;
    if word == "" {
      assert Ended(word) + [e] + es == [e] + es;
    } else {
      assert (Ended(word) + [e] + es)[1..] == [e] + es;
    }
  }

  lemma {:induction false} JsonEscapesAreEvents(s: JsonState, t: string)
    requires s.scan.escaped ==> s.scan.inString
    ensures JsonEscapes(s.scan, t) <==> EscapeEvents(JsonEvents(s, t))
    decreases |t|
  {
    hide HexStart, HexEvents, EscapeEvents, EscapeEvent, IsEscape;
    if t == "" {
      NoEvents();
    } else {
      var c, s', u := t[0], JsonStep(s, t[0]), t[1..];
      var rest := JsonEvents(s', u);
      JsonEscapesAreEvents(s', u);
      assert t == [c] + u;
      if s.scan.escaped {
        HexFour(u, rest, c);
        EscapeEventsAfter(JsonEvent(s, c)[0], "", rest);
        JsonHexDigits(s', u, 4);
      } else if JsonEvent(s, c) == [] {
        assert JsonEvents(s, t) == rest;
      } else if s.scan.inString {
        EscapeEventsAfter(JsonEvent(s, c)[0], "", rest);
      } else {
        EscapeEventsAfter(if c == '"' then Open else Outside(c), s.word, rest);
      }
    }
  }

  lemma NoEvents()
    ensures EscapeEvents([])
  {}

  lemma {:induction false} PyEscapesAreEvents(s: PyState, t: string)
    requires s.escaped ==> !s.mode.Bare?
    ensures PyEscapes(s, t) <==> EscapeEvents(PyEvents(s, t))
    decreases |t|
  {
    hide HexStart, HexEvents, EscapeEvents, EscapeEvent, IsEscape;
    if t == "" {
      NoEvents();
    } else {
      var c, s', u := t[0], PyStep(s, t[0]), t[1..];
      var rest := PyEvents(s', u);
      PyEscapesAreEvents(s', u);
      assert t == [c] + u;
      if s.mode.Bare? && !IsWordChar(c) {
        EscapeEventsAfter(if c == '"' || c == '\'' then Open else Outside(c), s.word, rest);
      } else if PyEvent(s, c) == [] {
        assert PyEvents(s, t) == rest;
      } else {
        EscapeEventsAfter(PyEvent(s, c)[0], "", rest);
        if s.escaped {
          HexFour(u, rest, c);
          PyHexDigits(s', u, 4);
        }
      }
    }
  }

  lemma {:induction false} ToldEscapes(es: seq<Event>)
    ensures EscapeEvents(Told(es)) <==> EscapeEvents(es)
  {
    if es != [] {
      ToldEscapes(es[1..]);
      ToldAt(es, 4);
      assert Told(es)[1..] == Told(es[1..]);
    }
  }

  lemma {:induction false} ToldAt(es: seq<Event>, n: nat)
    ensures forall i :: 0 <= i <= n && i < |es| && !es[i].Token? ==> Told(es)[i] == es[i]
    ensures forall i :: 0 <= i <= n && i < |es| && es[i].Token? ==> Told(es)[i].Token?
  {
    if es != [] && n > 0 {
      ToldAt(es[1..], n - 1);
      forall i | 0 < i <= n && i < |es| ensures Told(es)[i] == Told(es[1..])[i - 1] && es[i] == es[1..][i - 1] {}
    }
  }

  lemma {:induction false} NormalizeIsFrom(t: string)
    ensures NormalizeText(t) == Normalize(Bare, false, t) && Image(PY_START, 0) == JSON_START
  {}

  /**
   The output has only escapes that JSON has exactly when the input has only such escapes,
   apart from apostrophes escaped in single-quoted strings.
   */
  lemma {:induction false} EscapesIff(t: string)
    ensures JsonEscapes(START, NormalizeText(t)) <==> PyEscapes(PY_START, t)
  {
    hide NormalizeText, EscapeEvents, Told, JsonEvents, PyEvents;
    KeepsStructureFrom(PY_START, false, t, 0);
    NormalizeIsFrom(t);
    JsonEscapesAreEvents(JSON_START, NormalizeText(t));
    PyEscapesAreEvents(PY_START, t);
    ToldEscapes(PyEvents(PY_START, t));
  }

  /** An apostrophe escaped in a double-quoted string is copied with its backslash. */
  lemma {:induction false} EscapeWitness()
    ensures !JsonEscapes(START, NormalizeText("\"\\'\""))
  {
    hide NormalizeText, JsonEscapes;
    var t := "\"\\'\"";
    var s1 := PyStep(PY_START, t[0]);
    var s2 := PyStep(s1, t[1..][0]);
    assert s2 == PyState(Double, true, "");
    assert !PyEscapes(s2, t[1..][1..]);
    assert !PyEscapes(s1, t[1..]) && !PyEscapes(PY_START, t);
    EscapesIff(t);
  }

  // ----- Idempotence -----

  function Rewritten(mode: Mode): Mode {
    if mode.Bare? then Bare else Double
  }

  /** Reading a chunk's output again reproduces it. */
  lemma {:induction false} Reread(mode: Mode, midWord: bool, t: string, y: string)
    requires t != "" && (midWord ==> mode.Bare?)
    requires !(mode.Bare? && !midWord && StartsLiteral(t[0]))
    requires Read(mode, midWord, t).taken == |t| ==> y == ""
    ensures var r := Read(mode, midWord, t);
      Normalize(Rewritten(mode), midWord, r.out + y) == r.out + Normalize(Rewritten(r.mode), r.midWord, y)
  {
    var r := Read(mode, midWord, t);
    var out := r.out + y;
    assert Read(Rewritten(mode), midWord, out) == Chunk(r.out, |r.out|, Rewritten(r.mode), r.midWord);
    NormalizeUnfold(Rewritten(mode), midWord, out, Chunk(r.out, |r.out|, Rewritten(r.mode), r.midWord));
    assert out[|r.out|..] == y;
  }

  lemma {:induction false} RereadLiteral(t: string, y: string)
    requires t != "" && StartsLiteral(t[0])
    requires y == "" || !IsWordChar(y[0])
    ensures Normalize(Bare, false, Translate(Word(t)) + y) == Translate(Word(t)) + Normalize(Bare, true, y)
  {
    var w := Word(t);
    WordSplit(t);
    TranslateIsWord(w);
    if IsLiteralPrefix(w) {
      CopyPlainWord(Translate(w), y);
    } else {
      var out := w + y;
      WordLenOf(w, y);
      assert Word(y) == "" && w + "" == w;
      ReadLiteral(out);
      NormalizeUnfold(Bare, false, out, Chunk(w, |w|, Bare, true));
      assert out[|w|..] == y;
    }
  }

  lemma {:induction false} IdempotentFrom(mode: Mode, midWord: bool, t: string)
    requires midWord ==> mode.Bare?
    ensures var out := Normalize(mode, midWord, t);
      Normalize(Rewritten(mode), midWord, out) == out
    decreases |t|
  {
    if t != "" {
      var r := Read(mode, midWord, t);
      var rest := t[r.taken..];
      NormalizeUnfold(mode, midWord, t, r);
      IdempotentFrom(r.mode, r.midWord, rest);
      var y := Normalize(r.mode, r.midWord, rest);
      if mode.Bare? && !midWord && StartsLiteral(t[0]) {
        WordSplit(t);
        MidWordIrrelevant(rest);
        RereadLiteral(t, y);
      } else {
        Reread(mode, midWord, t, y);
      }
    }
  }

  lemma Idempotent(t: string)
    ensures NormalizeText(NormalizeText(t)) == NormalizeText(t)
  {
    IdempotentFrom(Bare, false, t);
  }

  // ----- Growing input -----

  /**
   Whether text read up to state `s` may be followed by `u` without changing what was
   already emitted: no apostrophe after a pending backslash of a single-quoted string,
   and a pending literal stays a literal.
   */
  predicate SafeExtension(s: PyState, u: string) {
    && (s.mode.Single? && s.escaped && u != "" ==> u[0] != '\'')
    && (s.mode.Bare? && IsLiteralPrefix(s.word) ==> IsLiteralPrefix(s.word + Word(u)))
  }

  /** `b` continues `a` when the extension is safe, and contradicts it when it is not. */
  ghost predicate GrowsIff(safe: bool, a: string, b: string) {
    if safe then a <= b else Diverge(a, b)
  }

  lemma GrowsAfterCommon(safe: bool, p: string, a: string, b: string)
    requires GrowsIff(safe, a, b)
    ensures GrowsIff(safe, p + a, p + b)
  {
    if safe {
      PrefixAfterCommon(p, a, b);
    } else {
      DivergeIsFinal(a, b, p, p);
    }
  }

  lemma {:induction false} ExtendDangling(s: PyState, midWord: bool, u: string)
    requires !s.escaped && (midWord ==> s.mode.Bare?)
    ensures GrowsIff(SafeExtension(PyRun(s, "\\"), u),
                     Normalize(s.mode, midWord, "\\"), Normalize(s.mode, midWord, "\\" + u))
  {
    One(s, JSON_START, '\\');
    var t := "\\" + u;
    var a := Normalize(s.mode, midWord, "\\");
    NormalizeUnfold(s.mode, midWord, "\\", Chunk("\\", 1, s.mode, false));
    assert a == "\\";
    var r := Read(s.mode, midWord, t);
    NormalizeUnfold(s.mode, midWord, t, r);
    var b := Normalize(s.mode, midWord, t);
    assert b[0] == r.out[0];
    if !SafeExtension(PyRun(s, "\\"), u) {
      assert t[1] == '\'' && r.out == "'";
      assert a[0] != b[0];
    }
  }

  lemma WordGrows(w: string, x: string, tail: string)
    requires w != "" && StartsLiteral(w[0]) && AllWord(w) && AllWord(w + x)
    ensures GrowsIff(IsLiteralPrefix(w) ==> IsLiteralPrefix(w + x), Translate(w), Translate(w + x) + tail)
  {
    hide Translate, IsLiteralPrefix, AllWord, StartsLiteral;
    TranslateIsWord(w);
    TranslateIsWord(w + x);
    var a, b := Translate(w), Translate(w + x) + tail;
    if IsLiteralPrefix(w + x) {
      LiteralPrefixClosed(w, x);
      TranslateMonotone(w, w + x);
    } else if IsLiteralPrefix(w) {
      assert a[0] != w[0] == b[0];
    }
  }

  lemma {:induction false} ExtendWord(w: string, u: string)
    requires w != "" && StartsLiteral(w[0]) && AllWord(w)
    ensures GrowsIff(SafeExtension(PyState(Bare, false, w), u),
                     Normalize(Bare, false, w), Normalize(Bare, false, w + u))
  {
    hide Normalize, Read, Translate, IsLiteralPrefix, Word, WordLen;
    WordLenOf(w, "");
    NoWord();
    assert w + "" == w;
    WordLenOf(w, u);
    WordSplit(u);
    var w' := w + Word(u);
    ReadLiteral(w);
    ReadLiteral(w + u);
    NormalizeUnfold(Bare, false, w, Chunk(Translate(w), |w|, Bare, true));
    NormalizeUnfold(Bare, false, w + u, Chunk(Translate(w'), |w'|, Bare, true));
    WordGrows(w, Word(u), Normalize(Bare, true, (w + u)[|w'|..]));
    NothingLeft(w);
  }

  lemma NoWord()
    ensures WordLen("") == 0 && Word("") == ""
  {}

  lemma NothingLeft(w: string)
    ensures w[|w|..] == "" && Normalize(Bare, true, "") == "" && Translate(w) + "" == Translate(w)
  {}

  lemma {:induction false} ExtendFrom(s: PyState, t: string, u: string)
    requires !s.escaped && (s.word != "" ==> s.mode.Bare?) && !IsLiteralPrefix(s.word)
    ensures GrowsIff(SafeExtension(PyRun(s, t), u),
                     Normalize(s.mode, s.word != "", t), Normalize(s.mode, s.word != "", t + u))
    decreases |t|, 1
  {
    hide Read, IsLiteralPrefix;
    var mid := s.word != "";
    if t == "" {
    } else if t == "\\" {
      ExtendDangling(s, mid, u);
    } else if s.mode.Bare? && !mid && StartsLiteral(t[0]) {
      ExtendLiteral(s, t, u);
    } else {
      ExtendAfterChunk(s, t, u);
    }
  }

  lemma {:induction false} ExtendLiteral(s: PyState, t: string, u: string)
    requires !s.escaped && s.mode.Bare? && s.word == "" && t != "" && StartsLiteral(t[0])
    ensures GrowsIff(SafeExtension(PyRun(s, t), u), Normalize(Bare, false, t), Normalize(Bare, false, t + u))
    decreases |t|, 0
  {
    hide Read, Normalize, IsLiteralPrefix;
    var w := Word(t);
    WordSplit(t);
    WordIsRead(s, w);
    assert s.word + w == w;
    if w == t {
      ExtendWord(w, u);
    } else {
      var rest := t[|w|..];
      assert t + u == w + (rest + u);
      ExtendAfterWord(s, w, rest, u);
    }
  }

  lemma {:induction false} ExtendAfterChunk(s: PyState, t: string, u: string)
    requires t != "" && t != "\\" && !s.escaped && (s.word != "" ==> s.mode.Bare?) && !IsLiteralPrefix(s.word)
    requires !(s.mode.Bare? && s.word == "" && StartsLiteral(t[0]))
    ensures GrowsIff(SafeExtension(PyRun(s, t), u),
                     Normalize(s.mode, s.word != "", t), Normalize(s.mode, s.word != "", t + u))
    decreases |t|, 0
  {
    var r := Read(s.mode, s.word != "", t);
    ChunkState(s, t);
    ExtendFrom(PyRun(s, t[..r.taken]), t[r.taken..], u);
    ExtendChunk(s, t, u);
  }

  lemma {:induction false} FirstChunk(mode: Mode, mid: bool, t: string, u: string)
    requires t != "" && t != "\\" && !(mode.Bare? && !mid && StartsLiteral(t[0]))
    ensures var r := Read(mode, mid, t);
      Normalize(mode, mid, t + u) == r.out + Normalize(r.mode, r.midWord, t[r.taken..] + u)
  {
    var r := Read(mode, mid, t);
    assert Read(mode, mid, t + u) == r;
    NormalizeUnfold(mode, mid, t + u, r);
    assert (t + u)[r.taken..] == t[r.taken..] + u;
  }

  /** What holds after the first chunk holds for the whole text. */
  lemma ExtendChunk(s: PyState, t: string, u: string)
    requires t != "" && t != "\\" && !s.escaped && (s.word != "" ==> s.mode.Bare?)
    requires !(s.mode.Bare? && s.word == "" && StartsLiteral(t[0]))
    requires var r := Read(s.mode, s.word != "", t);
      var s' := PyRun(s, t[..r.taken]);
      && s'.mode == r.mode && (s'.word != "") == r.midWord
      && GrowsIff(SafeExtension(PyRun(s', t[r.taken..]), u),
                  Normalize(r.mode, r.midWord, t[r.taken..]), Normalize(r.mode, r.midWord, t[r.taken..] + u))
    ensures GrowsIff(SafeExtension(PyRun(s, t), u),
                     Normalize(s.mode, s.word != "", t), Normalize(s.mode, s.word != "", t + u))
  {
    var mid := s.word != "";
    var r := Read(s.mode, mid, t);
    var piece, rest := t[..r.taken], t[r.taken..];
    NormalizeUnfold(s.mode, mid, t, r);
    FirstChunk(s.mode, mid, t, u);
    assert t == piece + rest;
    PyConcat(s, piece, rest);
    GrowsAfterCommon(SafeExtension(PyRun(s, t), u), r.out,
                     Normalize(r.mode, r.midWord, rest), Normalize(r.mode, r.midWord, rest + u));
  }

  lemma ChunkState(s: PyState, t: string)
    requires t != "" && t != "\\" && !s.escaped && (s.word != "" ==> s.mode.Bare?) && !IsLiteralPrefix(s.word)
    requires !(s.mode.Bare? && s.word == "" && StartsLiteral(t[0]))
    ensures var r := Read(s.mode, s.word != "", t);
      var s' := PyRun(s, t[..r.taken]);
      && !s'.escaped && s'.mode == r.mode && (s'.word != "") == r.midWord
      && (s'.word != "" ==> s'.mode.Bare?) && !IsLiteralPrefix(s'.word)
  {
    var r := Read(s.mode, s.word != "", t);
    if r.taken == 2 {
      assert t[..2] == [t[0], t[1]];
      PyPair(s, t[0], t[1]);
    } else {
      assert t[..1] == [t[0]];
      One(s, JSON_START, t[0]);
      if s.mode.Bare? && IsLiteralPrefix(s.word + [t[0]]) {
        if s.word != "" {
          LiteralPrefixClosed(s.word, [t[0]]);
        } else {
          assert s.word + [t[0]] == [t[0]];
        }
      }
    }
  }

  /** A literal word followed by something else reads the same whatever comes later. */
  lemma {:induction false} ExtendAfterWord(s: PyState, w: string, rest: string, u: string)
    requires s.mode.Bare? && s.word == "" && !s.escaped
    requires AllWord(w) && w != "" && StartsLiteral(w[0]) && rest != "" && !IsWordChar(rest[0])
    ensures var t := w + rest;
      GrowsIff(SafeExtension(PyRun(s, t), u), Normalize(Bare, false, t), Normalize(Bare, false, t + u))
    decreases |rest|, 2
  {
    var t := w + rest;
    assert t + u == w + (rest + u);
    WordLenStops(w, rest);
    WordLenStops(w, rest + u);
    ReadLiteral(t);
    ReadLiteral(t + u);
    NormalizeUnfold(Bare, false, t, Chunk(Translate(w), |w|, Bare, true));
    NormalizeUnfold(Bare, false, t + u, Chunk(Translate(w), |w|, Bare, true));
    MidWordIrrelevant(rest);
    MidWordIrrelevant(rest + u);
    WordIsRead(s, w);
    PyConcat(s, w, rest);
    assert PyStep(PyRun(s, w), rest[0]) == PyStep(PY_START, rest[0]);
    ExtendFrom(PY_START, rest, u);
    GrowsAfterCommon(SafeExtension(PyRun(s, t), u), Translate(w),
                     Normalize(Bare, false, rest), Normalize(Bare, false, rest + u));
  }

  /** Monotone exactly when the extension is safe; otherwise the two outputs contradict each other. */
  lemma {:induction false} MonotoneIff(t: string, u: string)
    ensures NormalizeText(t) <= NormalizeText(t + u) <==> SafeExtension(PyRun(PY_START, t), u)
    ensures !SafeExtension(PyRun(PY_START, t), u) ==> Diverge(NormalizeText(t), NormalizeText(t + u))
  {
    ExtendFrom(PY_START, t, u);
    if !SafeExtension(PyRun(PY_START, t), u) {
      DivergeIsFinal(NormalizeText(t), NormalizeText(t + u), "", "");
    }
  }

  lemma BackslashState()
    ensures PyRun(PY_START, "'\\") == PyState(Single, true, "")
  {
    PyPair(PY_START, '\'', '\\');
    assert "'\\" == ['\'', '\\'];
  }

  lemma LetterState()
    ensures PyRun(PY_START, "T") == PyState(Bare, false, "T") && Word("x") == "x"
    ensures IsLiteralPrefix("T") && !IsLiteralPrefix("T" + "x")
  {
    One(PY_START, JSON_START, 'T');
    assert "T" == ['T'] && PY_START.word + ['T'] == "T" && "T" + "x" == "Tx";
    assert Word("x") == "x";
    assert "Tx"[1] == 'x' != "True"[1] && "Tx"[0] == 'T' != "False"[0] && "None"[0] != 'T';
  }

  /**
   The two ways growth goes wrong: an escaped apostrophe cut after its backslash, and a word that only
   starts like a literal.
   */
  lemma GrowthWitnesses()
    ensures !(NormalizeText("'\\") <= NormalizeText("'\\'"))
    ensures !(NormalizeText("T") <= NormalizeText("Tx"))
  {
    hide NormalizeText, PyRun, Word, IsLiteralPrefix;
    assert "'\\" + "'" == "'\\'" && "T" + "x" == "Tx";
    BackslashState();
    LetterState();
    MonotoneIff("'\\", "'");
    MonotoneIff("T", "x");
  }
}
