/**
 One row of comma-separated values with quoting (arg.cpp, parse_csv_row), against the
 writing rules of section 2 of RFC 4180.
 */
module CsvRow {

  const QUOTE: char := '\"'

  const COMMA: char := ','

  // ----- Reading -----

  /** The fields of a row, given those finished, the text of the current one and whether it is inside quotes. */
  function Fields(input: string, fields: seq<string>, field: string, inQuotes: bool): seq<string>
    decreases |input|
  {
    if input == "" then fields + [field]
    else if input[0] == QUOTE && !inQuotes && field == "" then Fields(input[1..], fields, field, true)
    else if input[0] == QUOTE && !inQuotes then Fields(input[1..], fields, field + [QUOTE], false)
    else if input[0] == QUOTE && |input| > 1 && input[1] == QUOTE then Fields(input[2..], fields, field + [QUOTE], true)
    else if input[0] == QUOTE then Fields(input[1..], fields, field, false)
    else if input[0] == COMMA && !inQuotes then Fields(input[1..], fields + [field], "", false)
    else Fields(input[1..], fields, field + [input[0]], inQuotes)
  }

  function Row(input: string): seq<string> {
    Fields(input, [], "", false)
  }

  method ParseCsvRow(input: string) returns (fields: seq<string>)
    ensures fields == Row(input)
  {
    fields := [];
    var field := "";
    var inQuotes := false;
    var i := 0;
    while i < |input|
      invariant 0 <= i <= |input|
      invariant Fields(input[i..], fields, field, inQuotes) == Row(input)
    {
      var ch := input[i];
      if ch == QUOTE {
        if !inQuotes {
          if field != "" {
            field := field + [QUOTE];
          } else {
            inQuotes := true;
          }
        } else {
          if i + 1 < |input| && input[i + 1] == QUOTE {
            field := field + [QUOTE];
            i := i + 1;
          } else {
            inQuotes := false;
          }
        }
      } else if ch == COMMA {
        if inQuotes {
          field := field + [COMMA];
        } else {
          fields := fields + [field];
          field := "";
        }
      } else {
        field := field + [ch];
      }
      i := i + 1;
    }
    fields := fields + [field];
  }

  // ----- Writing -----

  predicate NeedsQuotes(field: string) {
    COMMA in field || (field != "" && field[0] == QUOTE)
  }

  function Doubled(s: string): string {
    if s == "" then "" else (if s[0] == QUOTE then [QUOTE, QUOTE] else [s[0]]) + Doubled(s[1..])
  }

  function Quoted(s: string): string {
    [QUOTE] + Doubled(s) + [QUOTE]
  }

  function Cell(field: string, quoted: bool): string {
    if quoted then Quoted(field) else field
  }

  /** A row in which field `k` is quoted if `quoted[k]`. */
  function Written(fields: seq<string>, quoted: seq<bool>): string
    requires |fields| == |quoted|
  {
    if fields == [] then ""
    else
      var first := Cell(fields[0], quoted[0]);
      if |fields| == 1 then first else first + [COMMA] + Written(fields[1..], quoted[1..])
  }

  /** The row with the fewest quotes. */
  function WrittenMinimal(fields: seq<string>): string {
    Written(fields, seq(|fields|, i requires 0 <= i < |fields| => NeedsQuotes(fields[i])))
  }

  // ----- Reading what was written -----

  /** Text after an unquoted start: taken as it is, quotes included. */
  lemma {:induction false} ReadRaw(raw: string, rest: string, fields: seq<string>, field: string)
    requires COMMA !in raw
    requires field != "" || raw == "" || raw[0] != QUOTE
    ensures Fields(raw + rest, fields, field, false) == Fields(rest, fields, field + raw, false)
  {
    if raw == "" {
      assert raw + rest == rest && field + raw == field;
    } else {
      assert (raw + rest)[1..] == raw[1..] + rest;
      ReadRaw(raw[1..], rest, fields, field + [raw[0]]);
      assert field + [raw[0]] + raw[1..] == field + raw;
    }
  }

  /** Doubled quotes inside quotes give the text back. */
  lemma {:induction false} ReadDoubled(raw: string, rest: string, fields: seq<string>, field: string)
    requires rest == "" || rest[0] != QUOTE
    ensures Fields(Doubled(raw) + [QUOTE] + rest, fields, field, true) == Fields(rest, fields, field + raw, false)
  {
    var t := Doubled(raw) + [QUOTE] + rest;
    if raw == "" {
      assert t[1..] == rest && field + raw == field;
    } else {
      var tail := Doubled(raw[1..]) + [QUOTE] + rest;
      ReadDoubled(raw[1..], rest, fields, field + [raw[0]]);
      assert field + [raw[0]] + raw[1..] == field + raw;
      if raw[0] == QUOTE {
        assert t == [QUOTE, QUOTE] + tail;
        assert t[2..] == tail;
      } else {
        assert t == [raw[0]] + tail;
        assert t[1..] == tail;
      }
    }
  }

  lemma {:induction false} ReadQuoted(raw: string, rest: string, fields: seq<string>)
    requires rest == "" || rest[0] != QUOTE
    ensures Fields(Quoted(raw) + rest, fields, "", false) == Fields(rest, fields, raw, false)
  {
    assert (Quoted(raw) + rest)[1..] == Doubled(raw) + [QUOTE] + rest;
    ReadDoubled(raw, rest, fields, "");
    assert "" + raw == raw;
  }

  lemma {:induction false} ReadCell(field: string, quoted: bool, rest: string, fields: seq<string>)
    requires NeedsQuotes(field) ==> quoted
    requires rest == "" || rest[0] != QUOTE
    ensures Fields(Cell(field, quoted) + rest, fields, "", false) == Fields(rest, fields, field, false)
  {
    if quoted {
      ReadQuoted(field, rest, fields);
    } else {
      ReadRaw(field, rest, fields, "");
      assert "" + field == field;
    }
  }

  lemma {:induction false} ReadComma(rest: string, fields: seq<string>, field: string)
    ensures Fields([COMMA] + rest, fields, field, false) == Fields(rest, fields + [field], "", false)
    ensures Fields("", fields, field, false) == fields + [field]
  {
    assert ([COMMA] + rest)[1..] == rest;
  }

  lemma {:induction false} ReadWritten(fields: seq<string>, quoted: seq<bool>, before: seq<string>)
    requires |fields| == |quoted| > 0
    requires forall k :: 0 <= k < |fields| && NeedsQuotes(fields[k]) ==> quoted[k]
    ensures Fields(Written(fields, quoted), before, "", false) == before + fields
  {
    hide Fields, NeedsQuotes, Cell;
    var first := Cell(fields[0], quoted[0]);
    var rest := if |fields| == 1 then "" else [COMMA] + Written(fields[1..], quoted[1..]);
    assert Written(fields, quoted) == first + rest;
    ReadCell(fields[0], quoted[0], rest, before);
    ReadComma(rest[if |fields| > 1 then 1 else 0..], before, fields[0]);
    if |fields| > 1 {
      assert rest[1..] == Written(fields[1..], quoted[1..]);
      ReadWritten(fields[1..], quoted[1..], before + [fields[0]]);
      assert before + [fields[0]] + fields[1..] == before + fields;
    } else {
      assert before + [fields[0]] == before + fields;
    }
  }

  /** However the optional quotes are chosen, a written row reads back as its fields. */
  lemma {:induction false} RowOfWritten(fields: seq<string>, quoted: seq<bool>)
    requires |fields| == |quoted| > 0
    requires forall k :: 0 <= k < |fields| && NeedsQuotes(fields[k]) ==> quoted[k]
    ensures Row(Written(fields, quoted)) == fields
  {
    ReadWritten(fields, quoted, []);
    assert [] + fields == fields;
  }

  lemma RowOfWrittenMinimal(fields: seq<string>)
    requires fields != []
    ensures Row(WrittenMinimal(fields)) == fields
  {
    RowOfWritten(fields, seq(|fields|, i requires 0 <= i < |fields| => NeedsQuotes(fields[i])));
  }

  // ----- The quotes of the minimal writer are needed -----

  function TotalLength(fields: seq<string>): nat {
    if fields == [] then 0 else |fields[0]| + TotalLength(fields[1..])
  }

  lemma {:induction false} TotalLengthSnoc(fields: seq<string>, field: string)
    ensures TotalLength(fields + [field]) == TotalLength(fields) + |field|
  {
    if fields == [] {
      assert fields + [field] == [field];
    } else {
      assert (fields + [field])[1..] == fields[1..] + [field];
      TotalLengthSnoc(fields[1..], field);
    }
  }

  /** Reading adds no character, and finished fields stay. */
  lemma {:induction false} ReadingBound(input: string, fields: seq<string>, field: string, inQuotes: bool)
    ensures var r := Fields(input, fields, field, inQuotes);
      TotalLength(r) <= TotalLength(fields) + |field| + |input| && fields < r
    decreases |input|
  {
    TotalLengthSnoc(fields, field);
    if input != "" {
      if input[0] == QUOTE && inQuotes && |input| > 1 && input[1] == QUOTE {
        ReadingBound(input[2..], fields, field + [QUOTE], true);
      } else if input[0] == QUOTE && (inQuotes || field == "") {
        ReadingBound(input[1..], fields, field, !inQuotes);
      } else if input[0] == COMMA && !inQuotes {
        ReadingBound(input[1..], fields + [field], "", false);
      } else {
        ReadingBound(input[1..], fields, field + [input[0]], inQuotes);
      }
    }
  }

  /** The first comma of a row that does not start with a quote ends a field. */
  lemma FirstComma(input: string, n: nat)
    requires n < |input| && input[n] == COMMA && COMMA !in input[..n] && input[0] != QUOTE
    ensures |Row(input)| > 1
  {
    ReadRaw(input[..n], input[n..], [], "");
    assert input == input[..n] + input[n..] && input[n..][1..] == input[n + 1..];
    assert "" + input[..n] == input[..n];
    ReadingBound(input[n + 1..], [input[..n]], "", false);
    assert [] + [input[..n]] == [input[..n]];
  }

  lemma {:induction false} CommaFound(input: string) returns (n: nat)
    requires COMMA in input
    ensures n < |input| && input[n] == COMMA && COMMA !in input[..n]
  {
    if input[0] == COMMA {
      n := 0;
    } else {
      var m := CommaFound(input[1..]);
      n := m + 1;
      assert input[..n] == [input[0]] + input[1..][..m];
    }
  }

  /** A field can stand without quotes exactly when the minimal writer leaves them out. */
  lemma RawFieldIff(field: string)
    ensures Row(field) == [field] <==> !NeedsQuotes(field)
  {
    if !NeedsQuotes(field) {
      ReadRaw(field, "", [], "");
      assert field + "" == field && "" + field == field;
    } else if field[0] == QUOTE {
      ReadingBound(field[1..], [], "", true);
      assert TotalLength([field]) == |field|;
    } else {
      var n := CommaFound(field);
      FirstComma(field, n);
    }
  }

  // ----- Every text is a row -----

  /**
   What stands between two commas: plain text, quoted text with plain text right after it,
   or, at the very end, a quote that is never closed.
   */
  datatype Piece = Plain(text: string) | Closed(inner: string, more: string) | Unclosed(inner: string)

  predicate IsPlainText(s: string) {
    COMMA !in s && (s == "" || s[0] != QUOTE)
  }

  predicate IsPiece(p: Piece) {
    (p.Plain? ==> IsPlainText(p.text)) && (p.Closed? ==> IsPlainText(p.more))
  }

  function TextOf(p: Piece): string {
    match p
    case Plain(text) => text
    case Closed(inner, more) => Quoted(inner) + more
    case Unclosed(inner) => [QUOTE] + Doubled(inner)
  }

  function FieldOf(p: Piece): string {
    match p
    case Plain(text) => text
    case Closed(inner, more) => inner + more
    case Unclosed(inner) => inner
  }

  /** Pieces in a row: only the last may be unclosed. */
  predicate AreRow(ps: seq<Piece>) {
    ps != [] && forall k :: 0 <= k < |ps| ==> IsPiece(ps[k]) && (k < |ps| - 1 ==> !ps[k].Unclosed?)
  }

  function RowText(ps: seq<Piece>): string {
    if ps == [] then ""
    else if |ps| == 1 then TextOf(ps[0])
    else TextOf(ps[0]) + [COMMA] + RowText(ps[1..])
  }

  function FieldsOf(ps: seq<Piece>): seq<string> {
    if ps == [] then [] else [FieldOf(ps[0])] + FieldsOf(ps[1..])
  }

  lemma {:induction false} ReadUnclosed(raw: string, fields: seq<string>, field: string)
    ensures Fields(Doubled(raw), fields, field, true) == fields + [field + raw]
  {
    if raw == "" {
      assert field + raw == field;
    } else {
      var t, tail := Doubled(raw), Doubled(raw[1..]);
      ReadUnclosed(raw[1..], fields, field + [raw[0]]);
      assert field + [raw[0]] + raw[1..] == field + raw;
      if raw[0] == QUOTE {
        assert t == [QUOTE, QUOTE] + tail && t[2..] == tail;
      } else {
        assert t == [raw[0]] + tail && t[1..] == tail;
      }
    }
  }

  lemma {:induction false} ReadPiece(p: Piece, rest: string, fields: seq<string>)
    requires IsPiece(p) && (p.Unclosed? ==> rest == "")
    requires rest == "" || rest[0] == COMMA
    ensures Fields(TextOf(p) + rest, fields, "", false) == Fields(rest, fields, FieldOf(p), false)
  {
    hide Fields;
    assert "" + FieldOf(p) == FieldOf(p);
    match p
    case Plain(text) => ReadRaw(text, rest, fields, "");
    case Closed(inner, more) =>
      assert Quoted(inner) + more + rest == Quoted(inner) + (more + rest);
      ReadQuoted(inner, more + rest, fields);
      ReadRaw(more, rest, fields, inner);
    case Unclosed(inner) =>
      OpenQuote(Doubled(inner), fields);
      assert TextOf(p) + rest == [QUOTE] + Doubled(inner);
      ReadUnclosed(inner, fields, "");
      ReadComma("", fields, inner);
  }

  lemma {:induction false} OpenQuote(rest: string, fields: seq<string>)
    ensures Fields([QUOTE] + rest, fields, "", false) == Fields(rest, fields, "", true)
  {
    assert ([QUOTE] + rest)[1..] == rest;
  }

  lemma {:induction false} ReadPieces(ps: seq<Piece>, before: seq<string>)
    requires AreRow(ps)
    ensures Fields(RowText(ps), before, "", false) == before + FieldsOf(ps)
  {
    hide Fields, TextOf, FieldOf, IsPiece;
    var rest := if |ps| == 1 then "" else [COMMA] + RowText(ps[1..]);
    assert RowText(ps) == TextOf(ps[0]) + rest;
    ReadPiece(ps[0], rest, before);
    ReadComma(rest[if |ps| > 1 then 1 else 0..], before, FieldOf(ps[0]));
    if |ps| > 1 {
      assert rest[1..] == RowText(ps[1..]);
      ReadPieces(ps[1..], before + [FieldOf(ps[0])]);
      assert before + [FieldOf(ps[0])] + FieldsOf(ps[1..]) == before + FieldsOf(ps);
    } else {
      assert FieldsOf(ps) == [FieldOf(ps[0])];
    }
  }

  lemma {:induction false} DoubledCons(c: char, s: string)
    ensures Doubled("") == ""
    ensures Doubled([c] + s) == (if c == QUOTE then [QUOTE, QUOTE] else [c]) + Doubled(s)
  {
    assert ([c] + s)[1..] == s;
  }

  /** Text after an opening quote: closed before index `k`, or not at all. */
  ghost predicate ClosedAt(s: string, inner: string, k: nat, closed: bool) {
    && k <= |s|
    && if closed then s == Doubled(inner) + [QUOTE] + s[k..] && (k < |s| ==> s[k] != QUOTE) else s == Doubled(inner)
  }

  lemma ClosedLater(s: string, n: nat, inner: string, k: nat, closed: bool)
    requires 0 < n <= |s| && n == (if s[0] == QUOTE then 2 else 1) && (n == 2 ==> s[1] == QUOTE)
    requires ClosedAt(s[n..], inner, k, closed)
    ensures ClosedAt(s, [s[0]] + inner, k + n, closed)
  {
    hide Doubled;
    DoubledCons(s[0], inner);
    var head := s[..n];
    assert s == head + s[n..] && head == if s[0] == QUOTE then [QUOTE, QUOTE] else [s[0]];
    assert s[n..][k..] == s[k + n..];
    assert (head + Doubled(inner)) + [QUOTE] + s[k + n..] == head + (Doubled(inner) + [QUOTE] + s[k + n..]);
  }

  /** It is closed by the first quote that is not one of two. */
  lemma {:induction false} ClosingQuote(s: string) returns (inner: string, k: nat, closed: bool)
    ensures ClosedAt(s, inner, k, closed)
    decreases |s|
  {
    if s == "" {
      inner, k, closed := "", 0, false;
    } else if s[0] == QUOTE && (|s| == 1 || s[1] != QUOTE) {
      inner, k, closed := "", 1, true;
      assert s == [QUOTE] + s[1..];
    } else {
      hide ClosedAt;
      var n := if s[0] == QUOTE then 2 else 1;
      inner, k, closed := ClosingQuote(s[n..]);
      ClosedLater(s, n, inner, k, closed);
      inner, k := [s[0]] + inner, k + n;
    }
  }

  /** The text up to the first comma. */
  lemma {:induction false} UpToComma(s: string) returns (n: nat)
    ensures n <= |s| && COMMA !in s[..n] && (n < |s| ==> s[n] == COMMA)
  {
    if COMMA in s {
      n := CommaFound(s);
    } else {
      n := |s|;
    }
  }

  /** The first piece of a text, up to its comma or the end. */
  lemma {:induction false} FirstPiece(input: string) returns (p: Piece, n: nat)
    ensures IsPiece(p) && n <= |input| && TextOf(p) == input[..n]
    ensures n < |input| ==> input[n] == COMMA && !p.Unclosed?
  {
    hide Doubled;
    if input == "" || input[0] != QUOTE {
      n := UpToComma(input);
      p := Plain(input[..n]);
    } else {
      var s := input[1..];
      var inner, k, closed := ClosingQuote(s);
      assert input == [QUOTE] + s;
      if closed {
        var more := s[k..];
        var m := UpToComma(more);
        p, n := Closed(inner, more[..m]), 1 + k + m;
        assert s == Doubled(inner) + [QUOTE] + more && |s| == k + |more|;
        assert input == Quoted(inner) + more;
        assert input[..n] == Quoted(inner) + more[..m];
      } else {
        p, n := Unclosed(inner), |input|;
        assert input[..n] == input;
      }
    }
  }

  lemma {:induction false} PiecesOf(input: string) returns (ps: seq<Piece>)
    ensures AreRow(ps) && RowText(ps) == input
    decreases |input|
  {
    hide TextOf, IsPiece;
    var first, n := FirstPiece(input);
    ps := [first];
    assert input == input[..n] + input[n..];
    if n < |input| {
      var others := PiecesOf(input[n + 1..]);
      assert input[n..] == [COMMA] + input[n + 1..];
      ps := [first] + others;
      assert ps[1..] == others;
    }
  }

  /**
   Every text is a row of such pieces, and the fields read are theirs: quotes are dropped
   and doubled ones halved, commas inside quotes belong to the field, an unclosed quote
   takes all that is left, and a quote inside plain text stands for itself.
   */
  lemma {:induction false} RowIff(input: string, fields: seq<string>)
    ensures fields == Row(input) <==> exists ps :: AreRow(ps) && RowText(ps) == input && FieldsOf(ps) == fields
  {
    hide Fields, RowText, FieldsOf, AreRow;
    if ps :| AreRow(ps) && RowText(ps) == input && FieldsOf(ps) == fields {
      ReadPieces(ps, []);
      assert [] + fields == fields;
    }
    var ps := PiecesOf(input);
    ReadPieces(ps, []);
    assert [] + FieldsOf(ps) == FieldsOf(ps);
  }
}
