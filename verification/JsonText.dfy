/**
 JSON text at the character level: string escaping (section 7 of RFC 8259) and the
 brace counter that skips quoted strings (chat-peg-parser.cpp, json_brace_depth and
 escape_json_string_inner).
 */
module JsonText {
  import opened Prelude

  // ----- The brace counter -----

  datatype Scan = Scan(depth: int, inString: bool, escaped: bool)

  const START := Scan(0, false, false)

  function ScanChar(s: Scan, c: char): Scan {
    if s.escaped then s.(escaped := false)
    else if c == '\\' && s.inString then s.(escaped := true)
    else if c == '"' then s.(inString := !s.inString)
    else if s.inString then s
    else if c == '{' then s.(depth := s.depth + 1)
    else if c == '}' then s.(depth := s.depth - 1)
    else s
  }

  function ScanText(s: Scan, t: string): Scan
    decreases |t|
  {
    if t == "" then s else ScanText(ScanChar(s, t[0]), t[1..])
  }

  lemma {:induction false} ScanConcat(s: Scan, a: string, b: string)
    ensures ScanText(s, a + b) == ScanText(ScanText(s, a), b)
    decreases |a|
  {
    if a == "" {
      assert a + b == b;
    } else {
      assert (a + b)[1..] == a[1..] + b;
      ScanConcat(ScanChar(s, a[0]), a[1..], b);
    }
  }

  /** Text that leaves the scanner where it found it, whatever the depth around it. */
  ghost predicate Neutral(t: string) {
    forall d :: ScanText(Scan(d, false, false), t) == Scan(d, false, false)
  }

  lemma {:induction false} ScanShift(s: Scan, k: int, t: string)
    ensures ScanText(s.(depth := s.depth + k), t) == ScanText(s, t).(depth := ScanText(s, t).depth + k)
    decreases |t|
  {
    if t != "" {
      ScanShift(ScanChar(s, t[0]), k, t[1..]);
      assert ScanChar(s.(depth := s.depth + k), t[0])
          == ScanChar(s, t[0]).(depth := ScanChar(s, t[0]).depth + k);
    }
  }

  /** A text is neutral as soon as it is balanced and closes its strings at depth 0. */
  lemma {:induction false} BalancedIsNeutral(t: string)
    requires ScanText(START, t) == START
    ensures Neutral(t)
  {
    forall d ensures ScanText(Scan(d, false, false), t) == Scan(d, false, false) {
      ScanShift(START, d, t);
    }
  }

  method JsonBraceDepth(s: string) returns (depth: int)
    ensures depth == ScanText(START, s).depth
  {
    depth := 0;
    var inString := false;
    var escaped := false;
    for i := 0 to |s|
      invariant ScanText(START, s) == ScanText(Scan(depth, inString, escaped), s[i..])
    {
      var c := s[i];
      assert s[i..][1..] == s[i + 1..];
      if escaped {
        escaped := false;
        continue;
      }
      if c == '\\' && inString {
        escaped := true;
        continue;
      }
      if c == '"' {
        inString := !inString;
        continue;
      }
      if !inString {
        if c == '{' {
          depth := depth + 1;
        } else if c == '}' {
          depth := depth - 1;
        }
      }
    }
  }

  // ----- String escaping -----

  const HEX := "0123456789abcdef"

  function EscapeChar(c: char): (r: string) {
    if c == '"' then "\\\""
    else if c == '\\' then "\\\\"
    else if c as int == 8 then "\\b"
    else if c as int == 9 then "\\t"
    else if c as int == 10 then "\\n"
    else if c as int == 12 then "\\f"
    else if c as int == 13 then "\\r"
    else if c as int < 32 then "\\u00" + [HEX[c as int / 16], HEX[c as int % 16]]
    else [c]
  }

  /** The inner text of a JSON string literal, without the surrounding quotes. */
  function Escape(s: string): string {
    if s == "" then "" else EscapeChar(s[0]) + Escape(s[1..])
  }

  function Dump(s: string): string {
    "\"" + Escape(s) + "\""
  }

  lemma {:induction false} EscapeConcat(a: string, b: string)
    ensures Escape(a + b) == Escape(a) + Escape(b)
  {
    if a == "" {
      assert a + b == b;
    } else {
      assert (a + b)[1..] == a[1..] + b;
      EscapeConcat(a[1..], b);
    }
  }

  lemma {:induction false} EscapeMonotone(a: string, b: string)
    requires a <= b
    ensures Escape(a) <= Escape(b)
  {
    assert b == a + b[|a|..];
    EscapeConcat(a, b[|a|..]);
  }

  /** Inside a string, text without quotes and backslashes is skipped. */
  lemma {:induction false} ScanPlain(s: Scan, t: string)
    requires s.inString && !s.escaped
    requires '"' !in t && '\\' !in t
    ensures ScanText(s, t) == s
  {
    if t != "" {
      ScanPlain(s, t[1..]);
    }
  }

  lemma EscapeCharStaysInside(c: char, d: int)
    ensures ScanText(Scan(d, true, false), EscapeChar(c)) == Scan(d, true, false)
  {
    var s := Scan(d, true, false);
    var e := EscapeChar(c);
    if |e| == 1 {
      assert e[1..] == "";
    } else if |e| == 2 {
      var q := s.(escaped := true);
      assert ScanText(s, e) == ScanText(q, e[1..]);
      assert ScanText(q, e[1..]) == ScanText(s, e[1..][1..]);
      assert e[1..][1..] == "";
    } else {
      var h, l := HEX[c as int / 16], HEX[c as int % 16];
      assert e == ['\\', 'u', '0', '0', h, l];
      assert e[1..] == ['u', '0', '0', h, l];
      assert e[1..][1..] == ['0', '0', h, l];
      ScanPlain(s, e[1..][1..]);
      assert ScanText(s, e) == ScanText(s.(escaped := true), e[1..]) == ScanText(s, e[1..][1..]);
    }
  }

  lemma {:induction false} EscapeStaysInside(t: string, d: int)
    ensures ScanText(Scan(d, true, false), Escape(t)) == Scan(d, true, false)
  {
    if t != "" {
      EscapeCharStaysInside(t[0], d);
      EscapeStaysInside(t[1..], d);
      ScanConcat(Scan(d, true, false), EscapeChar(t[0]), Escape(t[1..]));
    }
  }

  lemma DumpIsNeutral(t: string)
    ensures Neutral(Dump(t))
  {
    forall d ensures ScanText(Scan(d, false, false), Dump(t)) == Scan(d, false, false) {
      EscapeStaysInside(t, d);
      ScanConcat(Scan(d, false, false), "\"" + Escape(t), "\"");
      ScanConcat(Scan(d, false, false), "\"", Escape(t));
    }
  }

  lemma NeutralConcat(a: string, b: string)
    requires Neutral(a) && Neutral(b)
    ensures Neutral(a + b)
  {
    forall d ensures ScanText(Scan(d, false, false), a + b) == Scan(d, false, false) {
      ScanConcat(Scan(d, false, false), a, b);
    }
  }

  // ----- Escaping loses nothing -----

  function HexValue(c: char): Option<int> {
    if '0' <= c <= '9' then Some(c as int - '0' as int)
    else if 'a' <= c <= 'f' then Some(c as int - 'a' as int + 10)
    else None
  }

  /** One JSON string character read from the front: the character and what it took. */
  function ReadChar(s: string): Option<(char, nat)>
    requires s != ""
  {
    if s[0] != '\\' then Some((s[0], 1))
    else if |s| < 2 then None
    else match s[1]
      case '"' => Some(('"', 2))
      case '\\' => Some(('\\', 2))
      case '/' => Some(('/', 2))
      case 'b' => Some((8 as char, 2))
      case 't' => Some((9 as char, 2))
      case 'n' => Some((10 as char, 2))
      case 'f' => Some((12 as char, 2))
      case 'r' => Some((13 as char, 2))
      case 'u' =>
        if |s| < 6 || s[2] != '0' || s[3] != '0' then None
        else (match (HexValue(s[4]), HexValue(s[5]))
              case (Some(h), Some(l)) => Some(((16 * h + l) as char, 6))
              case _ => None)
      case _ => None
  }

  /** The reader side of section 7 of RFC 8259, for the escapes that `Escape` writes. */
  function Unescape(s: string): Option<string>
    decreases |s|
  {
    if s == "" then Some("")
    else match ReadChar(s)
      case None => None
      case Some((c, n)) =>
        if n > |s| then None
        else match Unescape(s[n..])
          case None => None
          case Some(rest) => Some([c] + rest)
  }

  lemma ReadEscapedChar(c: char, t: string)
    ensures ReadChar(EscapeChar(c) + t) == Some((c, |EscapeChar(c)|))
  {
    var v := c as int;
    if v < 32 && |EscapeChar(c)| == 6 {
      assert HexValue(HEX[v / 16]) == Some(v / 16);
      assert HexValue(HEX[v % 16]) == Some(v % 16);
      assert 16 * (v / 16) + v % 16 == v;
    }
  }

  lemma {:induction false} UnescapeEscape(s: string)
    ensures Unescape(Escape(s)) == Some(s)
  {
    if s != "" {
      ReadEscapedChar(s[0], Escape(s[1..]));
      UnescapeEscape(s[1..]);
      assert Escape(s) == EscapeChar(s[0]) + Escape(s[1..]);
      assert Escape(s)[|EscapeChar(s[0])|..] == Escape(s[1..]);
      assert s == [s[0]] + s[1..];
    }
  }

  // ----- The escapes that are written -----

  /** Only quotes, backslashes and control characters are escaped. */
  lemma {:induction false} PlainIsKept(s: string)
    requires forall i :: 0 <= i < |s| ==> s[i] != '"' && s[i] != '\\' && ' ' <= s[i]
    ensures Escape(s) == s && Dump(s) == "\"" + s + "\""
  {
    if s != "" {
      PlainIsKept(s[1..]);
      assert s == [s[0]] + s[1..];
    }
  }

  /** Control characters with a short escape get it, the others four lower-case digits. */
  lemma EscapesAre()
    ensures EscapeChar('"') == "\\\"" && EscapeChar('\\') == "\\\\"
    ensures EscapeChar('\n') == "\\n" && EscapeChar('\r') == "\\r" && EscapeChar('\t') == "\\t"
    ensures EscapeChar(8 as char) == "\\b" && EscapeChar(12 as char) == "\\f"
    ensures EscapeChar(0 as char) == "\\u0000" && EscapeChar(11 as char) == "\\u000b"
    ensures EscapeChar(27 as char) == "\\u001b" && EscapeChar(31 as char) == "\\u001f"
  {}
}
