/**
 The plain-text export (src/export_command.cpp): CSV and JSON printers, against readers for the
 quoting rules of section 2 of RFC 4180 (with LF line ends) and the strings of section 7 of RFC 8259.
 */
module Export {
  import opened Prelude
  import opened Slices
  import opened Vaults

  const QUOTE: byte := 0x22
  const COMMA: byte := 0x2C
  const LF: byte := 0x0A

  // ---------------------------------------------------------------------------------
  // CSV: the printer.
  // ---------------------------------------------------------------------------------

  /** Characters that a spreadsheet would take for the start of a formula. */
  predicate Triggers(c: byte) {
    c == 0x3D || c == 0x2B || c == 0x2D || c == 0x40 || c == 0x09 || c == 0x0D
  }

  /** An apostrophe in front disarms a formula. */
  function Shielded(f: bytes): bytes {
    if f != [] && Triggers(f[0]) then [0x27] + f else f
  }

  function Twice(c: byte): bytes {
    if c == QUOTE then [QUOTE, QUOTE] else [c]
  }

  function Doubled(f: bytes): bytes {
    if f == [] then [] else Twice(f[0]) + Doubled(f[1..])
  }

  function CsvField(f: bytes): bytes {
    [QUOTE] + (Doubled(Shielded(f)) + [QUOTE])
  }

  function CsvRow(fields: seq<bytes>): bytes
    requires fields != []
  {
    if |fields| == 1 then CsvField(fields[0]) + [LF]
    else CsvField(fields[0]) + ([COMMA] + CsvRow(fields[1..]))
  }

  function Fields(e: Entry): (r: seq<bytes>)
    ensures r != []
  {
    [e.service, e.username, e.password, e.totpSecret]
  }

  function CsvRows(es: Entries): bytes {
    if es == [] then [] else CsvRow(Fields(es[0])) + CsvRows(es[1..])
  }

  const NAMES: seq<bytes> := [Ascii("service"), Ascii("username"), Ascii("password"), Ascii("totp_secret")]

  function BareRow(fields: seq<bytes>): bytes
    requires fields != []
  {
    if |fields| == 1 then fields[0] + [LF] else fields[0] + ([COMMA] + BareRow(fields[1..]))
  }

  function Csv(es: Entries): bytes {
    BareRow(NAMES) + CsvRows(es)
  }

  // ---------------------------------------------------------------------------------
  // CSV: the reader.
  // ---------------------------------------------------------------------------------

  /** A value read and what is left of the input. */
  datatype Read<+T> = Bad | Got(value: T, rest: bytes)

  /** The inside of a quoted field, up to its closing quote. */
  function ReadQuoted(b: bytes): (r: Read<bytes>)
    ensures r.Got? ==> |r.rest| < |b|
  {
    if b == [] then Bad
    else if b[0] != QUOTE then
      match ReadQuoted(b[1..])
      case Bad => Bad
      case Got(f, rest) => Got([b[0]] + f, rest)
    else if |b| > 1 && b[1] == QUOTE then
      match ReadQuoted(b[2..])
      case Bad => Bad
      case Got(f, rest) => Got([QUOTE] + f, rest)
    else Got([], b[1..])
  }

  /** An unquoted field ends before a comma or a line end and has no quotes. */
  function ReadBare(b: bytes): (r: Read<bytes>)
    ensures r.Got? ==> |r.rest| <= |b|
  {
    if b == [] || b[0] == COMMA || b[0] == LF then Got([], b)
    else if b[0] == QUOTE then Bad
    else
      match ReadBare(b[1..])
      case Bad => Bad
      case Got(f, rest) => Got([b[0]] + f, rest)
  }

  function ReadField(b: bytes): (r: Read<bytes>)
    ensures r.Got? ==> |r.rest| <= |b|
  {
    if b != [] && b[0] == QUOTE then ReadQuoted(b[1..]) else ReadBare(b)
  }

  function ReadRecord(b: bytes): (r: Read<seq<bytes>>)
    ensures r.Got? && b != [] ==> |r.rest| < |b|
    decreases |b|
  {
    match ReadField(b)
    case Bad => Bad
    case Got(f, rest) =>
      if rest == [] then Got([f], [])
      else if rest[0] == LF then Got([f], rest[1..])
      else if rest[0] != COMMA then Bad
      else
        match ReadRecord(rest[1..])
        case Bad => Bad
        case Got(fs, rest') => Got([f] + fs, rest')
  }

  function ReadRecords(b: bytes): Option<seq<seq<bytes>>>
    decreases |b|
  {
    if b == [] then Some([])
    else
      match ReadRecord(b)
      case Bad => None
      case Got(record, rest) =>
        match ReadRecords(rest)
        case None => None
        case Some(records) => Some([record] + records)
  }

  // ---------------------------------------------------------------------------------
  // CSV: the round trip.
  // ---------------------------------------------------------------------------------

  lemma {:induction false} QuotedRoundTrip(f: bytes, rest: bytes)
    requires rest == [] || rest[0] != QUOTE
    ensures ReadQuoted(Doubled(f) + ([QUOTE] + rest)) == Got(f, rest)
  {
    hide Twice, ReadQuoted;
    var end := [QUOTE] + rest;
    if f == [] {
      assert [] + end == end;
      ClosingQuote(rest);
    } else {
      QuotedRoundTrip(f[1..], rest);
      Assoc(Twice(f[0]), Doubled(f[1..]), end);
      OneMore(f[0], Doubled(f[1..]) + end, f[1..], rest);
      assert f == [f[0]] + f[1..];
    }
  }

  lemma ClosingQuote(rest: bytes)
    requires rest == [] || rest[0] != QUOTE
    ensures ReadQuoted([QUOTE] + rest) == Got([], rest)
  {
    assert ([QUOTE] + rest)[1..] == rest;
  }

  lemma OneMore(c: byte, inner: bytes, f: bytes, rest: bytes)
    requires ReadQuoted(inner) == Got(f, rest)
    ensures ReadQuoted(Twice(c) + inner) == Got([c] + f, rest)
  {
    var b := Twice(c) + inner;
    if c == QUOTE {
      assert b[2..] == inner;
    } else {
      assert b[1..] == inner;
    }
  }

  lemma FieldRoundTrip(f: bytes, rest: bytes)
    requires rest == [] || rest[0] != QUOTE
    ensures ReadField(CsvField(f) + rest) == Got(Shielded(f), rest)
  {
    hide ReadQuoted, Doubled, Shielded;
    var b, d := CsvField(f) + rest, Doubled(Shielded(f));
    assert b == [QUOTE] + (d + ([QUOTE] + rest)) && b[1..] == d + ([QUOTE] + rest);
    QuotedRoundTrip(Shielded(f), rest);
  }

  function AllShielded(fields: seq<bytes>): seq<bytes> {
    if fields == [] then [] else [Shielded(fields[0])] + AllShielded(fields[1..])
  }

  lemma {:induction false} RowRoundTrip(fields: seq<bytes>, rest: bytes)
    requires fields != []
    ensures ReadRecord(CsvRow(fields) + rest) == Got(AllShielded(fields), rest)
    decreases |fields|
  {
    hide ReadField, CsvField, Shielded;
    var b := CsvRow(fields) + rest;
    if |fields| == 1 {
      assert b == CsvField(fields[0]) + ([LF] + rest);
      FieldRoundTrip(fields[0], [LF] + rest);
      assert ([LF] + rest)[1..] == rest;
      assert AllShielded(fields) == [Shielded(fields[0])];
    } else {
      var more := CsvRow(fields[1..]) + rest;
      assert b == CsvField(fields[0]) + ([COMMA] + more);
      FieldRoundTrip(fields[0], [COMMA] + more);
      assert ([COMMA] + more)[1..] == more;
      RowRoundTrip(fields[1..], rest);
    }
  }

  function Records(es: Entries): seq<seq<bytes>> {
    if es == [] then [] else [AllShielded(Fields(es[0]))] + Records(es[1..])
  }

  lemma {:induction false} RowsRoundTrip(es: Entries)
    ensures ReadRecords(CsvRows(es)) == Some(Records(es))
  {
    hide CsvRow, ReadRecord, AllShielded, Fields;
    if es != [] {
      RowRoundTrip(Fields(es[0]), CsvRows(es[1..]));
      RowNotEmpty(Fields(es[0]));
      RowsRoundTrip(es[1..]);
    }
  }

  lemma RowNotEmpty(fields: seq<bytes>)
    requires fields != []
    ensures CsvRow(fields) != []
  {
  }

  ghost predicate Plain(f: bytes) {
    forall i :: 0 <= i < |f| ==> f[i] != QUOTE && f[i] != COMMA && f[i] != LF
  }

  lemma {:induction false} BareRoundTrip(f: bytes, rest: bytes)
    requires Plain(f) && rest != [] && (rest[0] == COMMA || rest[0] == LF)
    ensures ReadField(f + rest) == Got(f, rest) && ReadBare(f + rest) == Got(f, rest)
  {
    if f == [] {
      assert f + rest == rest;
    } else {
      assert (f + rest)[1..] == f[1..] + rest;
      BareRoundTrip(f[1..], rest);
      assert f == [f[0]] + f[1..];
    }
  }

  lemma {:induction false} BareRowRoundTrip(fields: seq<bytes>, rest: bytes)
    requires fields != [] && forall i :: 0 <= i < |fields| ==> Plain(fields[i])
    ensures ReadRecord(BareRow(fields) + rest) == Got(fields, rest) && BareRow(fields) != []
    decreases |fields|
  {
    hide ReadField, Plain;
    var b := BareRow(fields) + rest;
    if |fields| == 1 {
      assert b == fields[0] + ([LF] + rest);
      BareRoundTrip(fields[0], [LF] + rest);
      assert ([LF] + rest)[1..] == rest && fields == [fields[0]];
    } else {
      var more := BareRow(fields[1..]) + rest;
      assert b == fields[0] + ([COMMA] + more);
      BareRoundTrip(fields[0], [COMMA] + more);
      assert ([COMMA] + more)[1..] == more;
      BareRowRoundTrip(fields[1..], rest);
      assert fields == [fields[0]] + fields[1..];
    }
  }

  /** Reading the CSV gives back the header and one record per entry, each field in its shielded form. */
  lemma CsvRoundTrip(es: Entries)
    ensures ReadRecords(Csv(es)) == Some([NAMES] + Records(es))
  {
    hide ReadRecord, BareRow, CsvRows;
    NamesArePlain();
    BareRowRoundTrip(NAMES, CsvRows(es));
    RowsRoundTrip(es);
  }

  ghost predicate NeedsNoEscape(s: bytes) {
    forall i :: 0 <= i < |s| ==> s[i] != QUOTE && s[i] != BACKSLASH && s[i] >= 0x20
  }

  lemma WordIsPlain(s: string)
    requires forall i :: 0 <= i < |s| ==> 'a' <= s[i] <= 'z' || s[i] == '_'
    ensures Plain(Ascii(s)) && NeedsNoEscape(Ascii(s))
  {
  }

  lemma NamesArePlain()
    ensures |NAMES| == 4 && forall i :: 0 <= i < 4 ==> Plain(NAMES[i]) && NeedsNoEscape(NAMES[i])
  {
    hide Plain, NeedsNoEscape, Ascii;
    WordIsPlain("service");
    WordIsPlain("username");
    WordIsPlain("password");
    WordIsPlain("totp_secret");
  }

  lemma {:induction false} RecordAt(es: Entries, i: nat)
    requires i < |es|
    ensures |Records(es)| == |es|
    ensures Records(es)[i] == [Shielded(es[i].service), Shielded(es[i].username), Shielded(es[i].password),
        Shielded(es[i].totpSecret)]
  {
    hide Shielded;
    RecordsLength(es);
    if i == 0 {
      ShieldedFields(es[0]);
    } else {
      RecordAt(es[1..], i - 1);
    }
  }

  lemma ShieldedFields(e: Entry)
    ensures AllShielded(Fields(e)) == [Shielded(e.service), Shielded(e.username), Shielded(e.password),
        Shielded(e.totpSecret)]
  {
    hide Shielded;
    ShieldedCons(e.totpSecret, []);
    ShieldedCons(e.password, [e.totpSecret]);
    ShieldedCons(e.username, [e.password, e.totpSecret]);
    ShieldedCons(e.service, [e.username, e.password, e.totpSecret]);
    hide AllShielded;
    assert [e.totpSecret] + [] == [e.totpSecret];
    assert [e.password] + [e.totpSecret] == [e.password, e.totpSecret];
    assert [e.username] + [e.password, e.totpSecret] == [e.username, e.password, e.totpSecret];
    assert [e.service] + [e.username, e.password, e.totpSecret] == Fields(e);
  }

  lemma ShieldedCons(f: bytes, rest: seq<bytes>)
    ensures AllShielded([f] + rest) == [Shielded(f)] + AllShielded(rest) && AllShielded([]) == []
  {
    assert ([f] + rest)[1..] == rest;
  }

  lemma {:induction false} RecordsLength(es: Entries)
    ensures |Records(es)| == |es|
  {
    if es != [] {
      RecordsLength(es[1..]);
    }
  }

  /** The characters that a spreadsheet may take for the start of a formula. */
  const FORMULA_STARTS: bytes := Ascii("=+-@\t\r")

  /**
   No field that is read back starts like a formula; a field that does not is unchanged, and one that
   does gets an apostrophe in front.
   */
  lemma ShieldDisarms(f: bytes)
    ensures Shielded(f) != [] ==> Shielded(f)[0] !in FORMULA_STARTS
    ensures Shielded(f) == if f != [] && f[0] in FORMULA_STARTS then Ascii("'") + f else f
  {
    assert FORMULA_STARTS == [0x3D, 0x2B, 0x2D, 0x40, 0x09, 0x0D];
    assert Ascii("'") == [0x27];
  }

  // ---------------------------------------------------------------------------------
  // JSON: the printer.
  // ---------------------------------------------------------------------------------

  const BACKSLASH: byte := 0x5C

  function HexDigit(d: nat): byte
    requires d < 16
  {
    if d < 10 then 0x30 + d else 0x61 + d - 10
  }

  function Escape(c: byte): (r: bytes)
    ensures r != []
  {
    if c == QUOTE then [BACKSLASH, QUOTE]
    else if c == BACKSLASH then [BACKSLASH, BACKSLASH]
    else if c == 0x08 then [BACKSLASH, 0x62]
    else if c == 0x0C then [BACKSLASH, 0x66]
    else if c == 0x0A then [BACKSLASH, 0x6E]
    else if c == 0x0D then [BACKSLASH, 0x72]
    else if c == 0x09 then [BACKSLASH, 0x74]
    else if c < 0x20 then [BACKSLASH, 0x75, 0x30, 0x30, HexDigit(c / 16), HexDigit(c % 16)]
    else [c]
  }

  function Escaped(s: bytes): bytes {
    if s == [] then [] else Escape(s[0]) + Escaped(s[1..])
  }

  function JsonString(s: bytes): bytes {
    [QUOTE] + (Escaped(s) + [QUOTE])
  }

  /** A member: a name that needs no escape, a colon and a blank, and the value. */
  function Pair(name: bytes, value: bytes): bytes {
    [QUOTE] + (name + ([QUOTE, 0x3A, 0x20] + JsonString(value)))
  }

  const OPEN: bytes := Ascii("  {\n    ")
  const NEXT: bytes := Ascii(",\n    ")
  const CLOSE: bytes := Ascii("\n  }")

  function JsonMembers(fields: seq<bytes>, names: seq<bytes>): bytes
    requires |fields| == |names| > 0
  {
    if |fields| == 1 then Pair(names[0], fields[0])
    else Pair(names[0], fields[0]) + (NEXT + JsonMembers(fields[1..], names[1..]))
  }

  function JsonObject(e: Entry): bytes {
    OPEN + (JsonMembers(Fields(e), NAMES) + CLOSE)
  }

  function JsonObjects(es: Entries): bytes {
    if es == [] then []
    else JsonObject(es[0]) + ((if |es| > 1 then [COMMA, LF] else [LF]) + JsonObjects(es[1..]))
  }

  function Json(es: Entries): bytes {
    Ascii("[\n") + (JsonObjects(es) + [0x5D])
  }

  // ---------------------------------------------------------------------------------
  // JSON: the reader, for arrays of flat objects with string values.
  // ---------------------------------------------------------------------------------

  function HexValue(c: byte): Option<nat> {
    if 0x30 <= c <= 0x39 then Some(c - 0x30)
    else if 0x41 <= c <= 0x46 then Some(c - 0x41 + 10)
    else if 0x61 <= c <= 0x66 then Some(c - 0x61 + 10)
    else None
  }

  /** The character of an escape sequence, after the backslash. Code points beyond ASCII are not needed here. */
  function ReadEscape(b: bytes): (r: Read<byte>)
    ensures r.Got? ==> |r.rest| < |b|
  {
    if b == [] then Bad
    else if b[0] == QUOTE || b[0] == BACKSLASH || b[0] == 0x2F then Got(b[0], b[1..])
    else if b[0] == 0x62 then Got(0x08, b[1..])
    else if b[0] == 0x66 then Got(0x0C, b[1..])
    else if b[0] == 0x6E then Got(0x0A, b[1..])
    else if b[0] == 0x72 then Got(0x0D, b[1..])
    else if b[0] == 0x74 then Got(0x09, b[1..])
    else if b[0] == 0x75 && |b| >= 5 && b[1] == 0x30 && b[2] == 0x30
            && HexValue(b[3]).Some? && HexValue(b[4]).Some? && HexValue(b[3]).value < 8 then
      Got(16 * HexValue(b[3]).value + HexValue(b[4]).value, b[5..])
    else Bad
  }

  /** The inside of a string, up to its closing quote; control characters must be escaped. */
  function ReadChars(b: bytes): (r: Read<bytes>)
    ensures r.Got? ==> |r.rest| < |b|
    decreases |b|
  {
    if b == [] then Bad
    else if b[0] == QUOTE then Got([], b[1..])
    else if b[0] == BACKSLASH then
      match ReadEscape(b[1..])
      case Bad => Bad
      case Got(c, rest) =>
        match ReadChars(rest)
        case Bad => Bad
        case Got(s, rest') => Got([c] + s, rest')
    else if b[0] < 0x20 then Bad
    else
      match ReadChars(b[1..])
      case Bad => Bad
      case Got(s, rest) => Got([b[0]] + s, rest)
  }

  predicate IsBlank(c: byte) {
    c == 0x20 || c == 0x09 || c == 0x0A || c == 0x0D
  }

  function Skip(b: bytes): (r: bytes)
    ensures |r| <= |b|
  {
    if b != [] && IsBlank(b[0]) then Skip(b[1..]) else b
  }

  /** Expect one character after blanks. */
  function Expect(b: bytes, c: byte): (r: Option<bytes>)
    ensures r.Some? ==> |r.value| < |b|
  {
    var s := Skip(b);
    if s != [] && s[0] == c then Some(s[1..]) else None
  }

  function ReadString(b: bytes): (r: Read<bytes>)
    ensures r.Got? ==> |r.rest| < |b|
  {
    match Expect(b, QUOTE)
    case None => Bad
    case Some(rest) => ReadChars(rest)
  }

  function ReadPair(b: bytes): (r: Read<(bytes, bytes)>)
    ensures r.Got? ==> |r.rest| < |b|
  {
    match ReadString(b)
    case Bad => Bad
    case Got(name, rest) =>
      match Expect(rest, 0x3A)
      case None => Bad
      case Some(rest') =>
        match ReadString(rest')
        case Bad => Bad
        case Got(value, rest'') => Got((name, value), rest'')
  }

  /** Members up to the closing brace; at least one. */
  function ReadMembers(b: bytes): (r: Read<seq<(bytes, bytes)>>)
    ensures r.Got? ==> |r.rest| < |b|
    decreases |b|
  {
    match ReadPair(b)
    case Bad => Bad
    case Got(pair, rest) =>
      match Expect(rest, 0x7D)
      case Some(after) => Got([pair], after)
      case None =>
        match Expect(rest, COMMA)
        case None => Bad
        case Some(more) =>
          match ReadMembers(more)
          case Bad => Bad
          case Got(pairs, after) => Got([pair] + pairs, after)
  }

  function ReadObject(b: bytes): (r: Read<seq<(bytes, bytes)>>)
    ensures r.Got? ==> |r.rest| < |b|
  {
    match Expect(b, 0x7B)
    case None => Bad
    case Some(rest) =>
      match Expect(rest, 0x7D)
      case Some(after) => Got([], after)
      case None => ReadMembers(rest)
  }

  /** Objects up to the closing bracket; at least one. */
  function ReadObjects(b: bytes): (r: Read<seq<seq<(bytes, bytes)>>>)
    decreases |b|
  {
    match ReadObject(b)
    case Bad => Bad
    case Got(o, rest) =>
      match Expect(rest, 0x5D)
      case Some(after) => Got([o], after)
      case None =>
        match Expect(rest, COMMA)
        case None => Bad
        case Some(more) =>
          match ReadObjects(more)
          case Bad => Bad
          case Got(os, after) => Got([o] + os, after)
  }

  /** A whole document: one array and nothing after it but blanks. */
  function ReadJson(b: bytes): Option<seq<seq<(bytes, bytes)>>> {
    match Expect(b, 0x5B)
    case None => None
    case Some(rest) =>
      match Expect(rest, 0x5D)
      case Some(after) => if Skip(after) == [] then Some([]) else None
      case None =>
        match ReadObjects(rest)
        case Bad => None
        case Got(os, after) => if Skip(after) == [] then Some(os) else None
  }

  // ---------------------------------------------------------------------------------
  // JSON: the round trip.
  // ---------------------------------------------------------------------------------

  lemma EscapeRoundTrip(c: byte, rest: bytes)
    ensures var b := Escape(c) + rest;
      if c == QUOTE || c == BACKSLASH || c < 0x20
      then b[0] == BACKSLASH && ReadEscape(b[1..]) == Got(c, rest)
      else b == [c] + rest
  {
    var b := Escape(c) + rest;
    if c == QUOTE || c == BACKSLASH || c < 0x20 {
      var t := b[1..];
      if |Escape(c)| == 2 {
        assert t == [Escape(c)[1]] + rest && t[1..] == rest;
      } else {
        assert t == Escape(c)[1..] + rest && t[5..] == rest;
        assert HexValue(HexDigit(c / 16)) == Some(c / 16) && HexValue(HexDigit(c % 16)) == Some(c % 16);
      }
    }
  }

  lemma {:induction false} CharsRoundTrip(s: bytes, rest: bytes)
    ensures ReadChars(Escaped(s) + ([QUOTE] + rest)) == Got(s, rest)
  {
    hide ReadEscape, Escape;
    var b := Escaped(s) + ([QUOTE] + rest);
    if s == [] {
      assert b == [QUOTE] + rest && b[1..] == rest;
    } else {
      var more := Escaped(s[1..]) + ([QUOTE] + rest);
      assert b == Escape(s[0]) + more;
      EscapeRoundTrip(s[0], more);
      CharsRoundTrip(s[1..], rest);
      assert s == [s[0]] + s[1..];
      if !(s[0] == QUOTE || s[0] == BACKSLASH || s[0] < 0x20) {
        assert b[1..] == more;
      }
    }
  }

  lemma {:induction false} SkipBlanks(blanks: bytes, rest: bytes)
    requires forall i :: 0 <= i < |blanks| ==> IsBlank(blanks[i])
    requires rest == [] || !IsBlank(rest[0])
    ensures Skip(blanks + rest) == rest
  {
    if blanks == [] {
      assert blanks + rest == rest;
    } else {
      assert (blanks + rest)[1..] == blanks[1..] + rest;
      SkipBlanks(blanks[1..], rest);
    }
  }

  /** After blanks, the next character decides what `Expect` finds. */
  lemma ExpectAfter(blanks: bytes, c: byte, rest: bytes, d: byte)
    requires (forall i :: 0 <= i < |blanks| ==> IsBlank(blanks[i])) && !IsBlank(c)
    ensures Expect(blanks + ([c] + rest), d) == if c == d then Some(rest) else None
  {
    SkipBlanks(blanks, [c] + rest);
    assert ([c] + rest)[1..] == rest;
  }

  lemma StringRoundTrip(blanks: bytes, s: bytes, rest: bytes)
    requires forall i :: 0 <= i < |blanks| ==> IsBlank(blanks[i])
    ensures ReadString(blanks + (JsonString(s) + rest)) == Got(s, rest)
  {
    hide Escaped, ReadChars;
    var more := Escaped(s) + ([QUOTE] + rest);
    assert JsonString(s) + rest == [QUOTE] + more;
    ExpectAfter(blanks, QUOTE, more, QUOTE);
    CharsRoundTrip(s, rest);
  }

  lemma {:induction false} PlainIsEscaped(s: bytes)
    requires NeedsNoEscape(s)
    ensures Escaped(s) == s
  {
    if s != [] {
      PlainIsEscaped(s[1..]);
      assert s == [s[0]] + s[1..];
    }
  }

  lemma PairRoundTrip(blanks: bytes, name: bytes, value: bytes, rest: bytes)
    requires NeedsNoEscape(name) && forall i :: 0 <= i < |blanks| ==> IsBlank(blanks[i])
    ensures ReadPair(blanks + (Pair(name, value) + rest)) == Got((name, value), rest)
  {
    hide ReadString, Expect, NeedsNoEscape, Escaped;
    PlainIsEscaped(name);
    var last := JsonString(value) + rest;
    var tail: bytes := [0x3A] + ([0x20] + last);
    assert Pair(name, value) + rest == JsonString(name) + tail;
    StringRoundTrip(blanks, name, tail);
    assert tail == [] + tail;
    ExpectAfter([], 0x3A, [0x20] + last, 0x3A);
    StringRoundTrip([0x20], value, rest);
  }

  function Zip(names: seq<bytes>, fields: seq<bytes>): seq<(bytes, bytes)>
    requires |names| == |fields|
  {
    if names == [] then [] else [(names[0], fields[0])] + Zip(names[1..], fields[1..])
  }

  lemma CloseText(rest: bytes)
    ensures Expect(CLOSE + rest, 0x7D) == Some(rest)
  {
    hide Expect;
    var blanks: bytes := [0x0A, 0x20, 0x20];
    assert CLOSE == blanks + [0x7D];
    hide CLOSE;
    Assoc(blanks, [0x7D], rest);
    ExpectAfter(blanks, 0x7D, rest, 0x7D);
  }

  lemma NextText(more: bytes)
    ensures Expect(NEXT + more, 0x7D) == None
    ensures Expect(NEXT + more, COMMA) == Some([0x0A, 0x20, 0x20, 0x20, 0x20] + more)
  {
    hide Expect;
    var blanks: bytes := [0x0A, 0x20, 0x20, 0x20, 0x20];
    assert NEXT == [COMMA] + blanks;
    hide NEXT;
    Assoc([COMMA], blanks, more);
    var after := blanks + more;
    assert [COMMA] + after == [] + ([COMMA] + after);
    ExpectAfter([], COMMA, after, 0x7D);
    ExpectAfter([], COMMA, after, COMMA);
  }

  /** The last member, before the closing brace. */
  lemma LastMember(blanks: bytes, name: bytes, field: bytes, rest: bytes)
    requires NeedsNoEscape(name) && forall i :: 0 <= i < |blanks| ==> IsBlank(blanks[i])
    ensures ReadMembers(blanks + (Pair(name, field) + (CLOSE + rest))) == Got([(name, field)], rest)
  {
    hide Pair, ReadPair, Expect, NeedsNoEscape, CLOSE;
    PairRoundTrip(blanks, name, field, CLOSE + rest);
    CloseText(rest);
  }

  /** A member before others. */
  lemma NextMember(blanks: bytes, name: bytes, field: bytes, more: bytes)
    requires NeedsNoEscape(name) && forall i :: 0 <= i < |blanks| ==> IsBlank(blanks[i])
    ensures ReadMembers(blanks + (Pair(name, field) + (NEXT + more))) ==
      match ReadMembers([0x0A, 0x20, 0x20, 0x20, 0x20] + more)
      case Bad => Bad
      case Got(pairs, after) => Got([(name, field)] + pairs, after)
  {
    hide Pair, ReadPair, Expect, NeedsNoEscape, NEXT;
    PairRoundTrip(blanks, name, field, NEXT + more);
    NextText(more);
  }

  lemma {:induction false} MembersRoundTrip(blanks: bytes, fields: seq<bytes>, names: seq<bytes>, rest: bytes)
    requires |fields| == |names| > 0 && forall i :: 0 <= i < |blanks| ==> IsBlank(blanks[i])
    requires forall i :: 0 <= i < |names| ==> NeedsNoEscape(names[i])
    ensures ReadMembers(blanks + (JsonMembers(fields, names) + (CLOSE + rest))) == Got(Zip(names, fields), rest)
    decreases |fields|
  {
    hide Pair, ReadMembers, NeedsNoEscape, NEXT, CLOSE;
    if |fields| == 1 {
      LastMember(blanks, names[0], fields[0], rest);
      assert Zip(names, fields) == [(names[0], fields[0])];
    } else {
      var inner := JsonMembers(fields[1..], names[1..]);
      Assoc(Pair(names[0], fields[0]), NEXT + inner, CLOSE + rest);
      Assoc(NEXT, inner, CLOSE + rest);
      NextMember(blanks, names[0], fields[0], inner + (CLOSE + rest));
      MembersRoundTrip([0x0A, 0x20, 0x20, 0x20, 0x20], fields[1..], names[1..], rest);
    }
  }

  lemma PairStartsWithQuote(fields: seq<bytes>, names: seq<bytes>)
    requires |fields| == |names| > 0
    ensures JsonMembers(fields, names) != [] && JsonMembers(fields, names)[0] == QUOTE
  {
  }

  lemma ObjectRoundTrip(blanks: bytes, e: Entry, rest: bytes)
    requires forall i :: 0 <= i < |blanks| ==> IsBlank(blanks[i])
    ensures ReadObject(blanks + (JsonObject(e) + rest)) == Got(Zip(NAMES, Fields(e)), rest)
  {
    hide ReadMembers, JsonMembers, Expect, Zip, NAMES, Fields, NeedsNoEscape;
    NamesArePlain();
    FourFields(e);
    var members := JsonMembers(Fields(e), NAMES) + (CLOSE + rest);
    var inner: bytes := [0x0A, 0x20, 0x20, 0x20, 0x20] + members;
    assert OPEN == [0x20, 0x20] + ([0x7B] + [0x0A, 0x20, 0x20, 0x20, 0x20]);
    assert blanks + (JsonObject(e) + rest) == (blanks + [0x20, 0x20]) + ([0x7B] + inner);
    ExpectAfter(blanks + [0x20, 0x20], 0x7B, inner, 0x7B);
    PairStartsWithQuote(Fields(e), NAMES);
    assert members == [QUOTE] + members[1..];
    ExpectAfter([0x0A, 0x20, 0x20, 0x20, 0x20], QUOTE, members[1..], 0x7D);
    MembersRoundTrip([0x0A, 0x20, 0x20, 0x20, 0x20], Fields(e), NAMES, rest);
  }

  lemma FourFields(e: Entry)
    ensures |Fields(e)| == 4
  {
  }

  function Objects(es: Entries): seq<seq<(bytes, bytes)>> {
    if es == [] then []
    else NamesArePlain(); [Zip(NAMES, Fields(es[0]))] + Objects(es[1..])
  }

  lemma {:induction false} ObjectsRoundTrip(blanks: bytes, es: Entries)
    requires es != [] && forall i :: 0 <= i < |blanks| ==> IsBlank(blanks[i])
    ensures ReadObjects(blanks + (JsonObjects(es) + [0x5D])) == Got(Objects(es), [])
    decreases |es|
  {
    hide JsonObject, ReadObject, Expect, Zip, NAMES, Fields;
    NamesArePlain();
    FourFields(es[0]);
    if |es| == 1 {
      var after: bytes := [LF] + ([0x5D] + []);
      assert JsonObjects(es) + [0x5D] == JsonObject(es[0]) + after;
      ObjectRoundTrip(blanks, es[0], after);
      ExpectAfter([LF], 0x5D, [], 0x5D);
      assert Objects(es) == [Zip(NAMES, Fields(es[0]))];
    } else {
      var more := JsonObjects(es[1..]) + [0x5D];
      var after: bytes := [COMMA] + ([LF] + more);
      assert JsonObjects(es) + [0x5D] == JsonObject(es[0]) + after;
      ObjectRoundTrip(blanks, es[0], after);
      assert after == [] + after;
      ExpectAfter([], COMMA, [LF] + more, 0x5D);
      ExpectAfter([], COMMA, [LF] + more, COMMA);
      ObjectsRoundTrip([LF], es[1..]);
    }
  }

  /** Reading the JSON gives back, for every entry in order, its four fields exactly, byte for byte. */
  lemma JsonRoundTrip(es: Entries)
    ensures ReadJson(Json(es)) == Some(Objects(es))
  {
    hide JsonObjects, ReadObjects, Expect;
    var inner: bytes := [LF] + (JsonObjects(es) + [0x5D]);
    assert Ascii("[\n") == [0x5B, LF];
    assert Json(es) == [] + ([0x5B] + inner);
    ExpectAfter([], 0x5B, inner, 0x5B);
    if es == [] {
      NoObjects();
      assert inner == [LF] + ([0x5D] + []);
      ExpectAfter([LF], 0x5D, [], 0x5D);
    } else {
      FirstObject(es);
      ObjectsRoundTrip([LF], es);
    }
  }

  lemma NoObjects()
    ensures JsonObjects([]) == [] && Objects([]) == []
  {
  }

  lemma FirstObject(es: Entries)
    requires es != []
    ensures Expect([LF] + (JsonObjects(es) + [0x5D]), 0x5D) == None
  {
    hide JsonObject, Expect;
    var b: bytes := [LF] + (JsonObjects(es) + [0x5D]);
    ObjectStart(es[0]);
    var o := JsonObject(es[0]);
    assert b[..4] == [LF, 0x20, 0x20] + [0x7B];
    assert b == [LF, 0x20, 0x20] + ([0x7B] + b[4..]);
    ExpectAfter([LF, 0x20, 0x20], 0x7B, b[4..], 0x5D);
  }

  lemma ObjectStart(e: Entry)
    ensures |JsonObject(e)| >= 3 && JsonObject(e)[..3] == [0x20, 0x20, 0x7B]
  {
    assert OPEN[..3] == [0x20, 0x20, 0x7B];
  }

  lemma {:induction false} ObjectAt(es: Entries, i: nat)
    requires i < |es|
    ensures |Objects(es)| == |es|
    ensures Objects(es)[i] == [(Ascii("service"), es[i].service), (Ascii("username"), es[i].username),
                               (Ascii("password"), es[i].password), (Ascii("totp_secret"), es[i].totpSecret)]
  {
    hide Ascii;
    ObjectsLength(es);
    if i == 0 {
      ZippedFields(es[0]);
    } else {
      ObjectAt(es[1..], i - 1);
    }
  }

  lemma {:induction false} ObjectsLength(es: Entries)
    ensures |Objects(es)| == |es|
  {
    hide Zip;
    if es != [] {
      ObjectsLength(es[1..]);
    }
  }

  lemma ZippedFields(e: Entry)
    ensures |NAMES| == 4
    ensures Zip(NAMES, Fields(e)) == [(Ascii("service"), e.service), (Ascii("username"), e.username),
                                      (Ascii("password"), e.password), (Ascii("totp_secret"), e.totpSecret)]
  {
    hide Ascii;
    var n0, n1, n2, n3 := Ascii("service"), Ascii("username"), Ascii("password"), Ascii("totp_secret");
    ZipCons(n3, e.totpSecret, [], []);
    ZipCons(n2, e.password, [n3], [e.totpSecret]);
    ZipCons(n1, e.username, [n2, n3], [e.password, e.totpSecret]);
    ZipCons(n0, e.service, [n1, n2, n3], [e.username, e.password, e.totpSecret]);
    hide Zip;
    assert [n3] + [] == [n3] && [e.totpSecret] + [] == [e.totpSecret];
    assert [n2] + [n3] == [n2, n3] && [e.password] + [e.totpSecret] == [e.password, e.totpSecret];
    assert [n1] + [n2, n3] == [n1, n2, n3]
        && [e.username] + [e.password, e.totpSecret] == [e.username, e.password, e.totpSecret];
    assert [n0] + [n1, n2, n3] == NAMES && [e.service] + [e.username, e.password, e.totpSecret] == Fields(e);
  }

  lemma ZipCons(n: bytes, f: bytes, names: seq<bytes>, fields: seq<bytes>)
    requires |names| == |fields|
    ensures Zip([n] + names, [f] + fields) == [(n, f)] + Zip(names, fields) && Zip([], []) == []
  {
    assert ([n] + names)[1..] == names && ([f] + fields)[1..] == fields;
  }

  // ---------------------------------------------------------------------------------
  // The procedures, which append to a stream.
  // ---------------------------------------------------------------------------------

  class Output {
    var text: bytes

    constructor ()
      ensures text == []
    {
      text := [];
    }

    method Put(b: bytes)
      modifies this
      ensures text == old(text) + b
    {
      text := text + b;
    }

    method WriteDoubled(field: bytes)
      modifies this
      ensures text == old(text) + Doubled(field)
    {
      ghost var before := text;
      var i := 0;
      while i < |field|
        invariant 0 <= i <= |field| && text + Doubled(field[i..]) == before + Doubled(field)
      {
        assert field[i..][1..] == field[i + 1..];
        Assoc(text, Twice(field[i]), Doubled(field[i + 1..]));
        if field[i] == QUOTE {
          text := text + [QUOTE, QUOTE];
        } else {
          text := text + [field[i]];
        }
        i := i + 1;
      }
    }

    method WriteCsvField(field: bytes)
      modifies this
      ensures text == old(text) + CsvField(field)
    {
      hide Shielded, Doubled;
      ShieldedDoubled(field);
      ghost var mark: bytes := if field != [] && Triggers(field[0]) then [0x27] else [];
      Put([QUOTE]);
      if field != [] {
        var first := field[0];
        if first == 0x3D || first == 0x2B || first == 0x2D || first == 0x40 || first == 0x09 || first == 0x0D {
          Put([0x27]);
        }
      }
      assert text == old(text) + [QUOTE] + mark;
      WriteDoubled(field);
      Put([QUOTE]);
      Assoc(old(text) + [QUOTE], mark, Doubled(field));
      Assoc(old(text) + [QUOTE], mark + Doubled(field), [QUOTE]);
      Assoc(old(text), [QUOTE], mark + Doubled(field) + [QUOTE]);
    }

    method WriteRow(e: Entry)
      modifies this
      ensures text == old(text) + CsvRow(Fields(e))
    {
      hide CsvField;
      RowLayout(e);
      WriteCsvField(e.service);
      Put([COMMA]);
      WriteCsvField(e.username);
      Put([COMMA]);
      WriteCsvField(e.password);
      Put([COMMA]);
      WriteCsvField(e.totpSecret);
      Put([LF]);
      hide CsvRow, Fields;
      LeftNested(old(text), CsvField(e.service), [COMMA], CsvField(e.username), [COMMA],
                 CsvField(e.password), [COMMA], CsvField(e.totpSecret), [LF]);
    }

    method WriteCsv(es: Entries)
      modifies this
      ensures text == old(text) + Csv(es)
    {
      hide CsvRow, BareRow, Fields;
      Put(BareRow(NAMES));
      ghost var before := text;
      var i := 0;
      while i < |es|
        invariant 0 <= i <= |es| && text + CsvRows(es[i..]) == before + CsvRows(es)
      {
        assert es[i..][1..] == es[i + 1..];
        Assoc(text, CsvRow(Fields(es[i])), CsvRows(es[i + 1..]));
        WriteRow(es[i]);
        i := i + 1;
      }
      Assoc(old(text), BareRow(NAMES), CsvRows(es));
    }

    /** The switch over one character; the last escape is what `snprintf` makes of "\\u%04x". */
    method WriteEscape(c: byte)
      modifies this
      ensures text == old(text) + Escape(c)
    {
      if c == QUOTE {
        Put([BACKSLASH, QUOTE]);
      } else if c == BACKSLASH {
        Put([BACKSLASH, BACKSLASH]);
      } else if c == 0x08 {
        Put([BACKSLASH, 0x62]);
      } else if c == 0x0C {
        Put([BACKSLASH, 0x66]);
      } else if c == 0x0A {
        Put([BACKSLASH, 0x6E]);
      } else if c == 0x0D {
        Put([BACKSLASH, 0x72]);
      } else if c == 0x09 {
        Put([BACKSLASH, 0x74]);
      } else if c < 0x20 {
        Put([BACKSLASH, 0x75, 0x30, 0x30, HexDigit(c / 16), HexDigit(c % 16)]);
      } else {
        Put([c]);
      }
    }

    method WriteJsonString(s: bytes)
      modifies this
      ensures text == old(text) + JsonString(s)
    {
      hide Escape;
      text := text + [QUOTE];
      ghost var before := text;
      var i := 0;
      while i < |s|
        invariant 0 <= i <= |s| && text + Escaped(s[i..]) == before + Escaped(s)
      {
        assert s[i..][1..] == s[i + 1..];
        WriteEscape(s[i]);
        i := i + 1;
      }
      assert text == before + Escaped(s);
      text := text + [QUOTE];
    }

    method WriteMember(name: string, value: bytes)
      modifies this
      ensures text == old(text) + Pair(Ascii(name), value)
    {
      hide JsonString;
      Put([QUOTE]);
      Put(Ascii(name));
      Put([QUOTE, 0x3A, 0x20]);
      WriteJsonString(value);
    }

    method WriteObject(e: Entry)
      modifies this
      ensures text == old(text) + JsonObject(e)
    {
      hide Pair, Ascii;
      ObjectLayout(e);
      Put(OPEN);
      WriteMember("service", e.service);
      Put(NEXT);
      WriteMember("username", e.username);
      Put(NEXT);
      WriteMember("password", e.password);
      Put(NEXT);
      WriteMember("totp_secret", e.totpSecret);
      Put(CLOSE);
      hide JsonObject, OPEN, NEXT, CLOSE;
      var p, q, r, t := Pair(Ascii("service"), e.service), Pair(Ascii("username"), e.username),
        Pair(Ascii("password"), e.password), Pair(Ascii("totp_secret"), e.totpSecret);
      LeftNested(old(text) + OPEN, p, NEXT, q, NEXT, r, NEXT, t, CLOSE);
      Assoc(old(text), OPEN, p + (NEXT + (q + (NEXT + (r + (NEXT + (t + CLOSE)))))));
    }

    method WriteJson(es: Entries)
      modifies this
      ensures text == old(text) + Json(es)
    {
      hide JsonObject, Ascii;
      Put(Ascii("[\n"));
      ghost var before := text;
      var i := 0;
      while i < |es|
        invariant 0 <= i <= |es| && text + JsonObjects(es[i..]) == before + JsonObjects(es)
      {
        assert es[i..][1..] == es[i + 1..];
        ghost var end: bytes := if i < |es| - 1 then [COMMA, LF] else [LF];
        ghost var start, rest := text, JsonObjects(es[i + 1..]);
        Assoc(start, JsonObject(es[i]), end + rest);
        Assoc(start + JsonObject(es[i]), end, rest);
        WriteObject(es[i]);
        if i < |es| - 1 {
          Put([COMMA]);
        }
        Put([LF]);
        assert text == start + JsonObject(es[i]) + end;
        i := i + 1;
      }
      assert text == before + JsonObjects(es);
      Put([0x5D]);
      Assoc(before, JsonObjects(es), [0x5D]);
      Assoc(old(text), Ascii("[\n"), JsonObjects(es) + [0x5D]);
    }
  }

  lemma RowLayout(e: Entry)
    ensures CsvRow(Fields(e)) == CsvField(e.service) + ([COMMA] + (CsvField(e.username) + ([COMMA]
      + (CsvField(e.password) + ([COMMA] + (CsvField(e.totpSecret) + [LF]))))))
  {
    hide CsvField;
    var f := Fields(e);
    var f1: seq<bytes>, f2: seq<bytes>, f3: seq<bytes> := [e.username, e.password, e.totpSecret],
        [e.password, e.totpSecret], [e.totpSecret];
    assert f[1..] == f1 && f1[1..] == f2 && f2[1..] == f3;
    assert CsvRow(f3) == CsvField(e.totpSecret) + [LF];
    assert CsvRow(f2) == CsvField(e.password) + ([COMMA] + CsvRow(f3));
    assert CsvRow(f1) == CsvField(e.username) + ([COMMA] + CsvRow(f2));
  }

  lemma ObjectLayout(e: Entry)
    ensures JsonObject(e)
         == OPEN + (Pair(Ascii("service"), e.service) + (NEXT + (Pair(Ascii("username"), e.username) + (NEXT
      + (Pair(Ascii("password"), e.password) + (NEXT + (Pair(Ascii("totp_secret"), e.totpSecret) + CLOSE)))))))
  {
    hide Pair, Ascii;
    var n1: seq<bytes>, n2: seq<bytes>, n3: seq<bytes> := [Ascii("username"), Ascii("password"), Ascii("totp_secret")],
      [Ascii("password"), Ascii("totp_secret")], [Ascii("totp_secret")];
    var f1: seq<bytes>, f2: seq<bytes>, f3: seq<bytes> := [e.username, e.password, e.totpSecret],
        [e.password, e.totpSecret], [e.totpSecret];
    assert Fields(e)[1..] == f1 && f1[1..] == f2 && f2[1..] == f3;
    assert NAMES[1..] == n1 && n1[1..] == n2 && n2[1..] == n3;
    var p, q, r, t := Pair(Ascii("service"), e.service), Pair(n1[0], f1[0]), Pair(n2[0], f2[0]), Pair(n3[0], f3[0]);
    assert JsonMembers(f3, n3) == t;
    assert JsonMembers(f2, n2) == r + (NEXT + t);
    assert JsonMembers(f1, n1) == q + (NEXT + (r + (NEXT + t)));
    assert JsonMembers(Fields(e), NAMES) == p + (NEXT + (q + (NEXT + (r + (NEXT + t)))));
    hide JsonMembers;
    RightNested(p, NEXT, q, NEXT, r, NEXT, t, CLOSE);
  }

  /** Associativity, for the eight pieces that a row or an object is written in. */
  lemma RightNested(a: bytes, b: bytes, c: bytes, d: bytes, e: bytes, f: bytes, g: bytes, h: bytes)
    ensures (a + (b + (c + (d + (e + (f + g)))))) + h == a + (b + (c + (d + (e + (f + (g + h))))))
  {
    var g1 := f + g;
    assert g1 + h == f + (g + h);
    var e1 := e + g1;
    assert e1 + h == e + (g1 + h);
    var d1 := d + e1;
    assert d1 + h == d + (e1 + h);
    var c1 := c + d1;
    assert c1 + h == c + (d1 + h);
    var b1 := b + c1;
    assert b1 + h == b + (c1 + h);
    assert (a + b1) + h == a + (b1 + h);
  }

  lemma LeftNested(x: bytes, a: bytes, b: bytes, c: bytes, d: bytes, e: bytes, f: bytes, g: bytes, h: bytes)
    ensures x + a + b + c + d + e + f + g + h == x + (a + (b + (c + (d + (e + (f + (g + h)))))))
  {
    Assoc(x + a + b + c + d + e + f, g, h);
    Assoc(x + a + b + c + d + e, f, g + h);
    Assoc(x + a + b + c + d, e, f + (g + h));
    Assoc(x + a + b + c, d, e + (f + (g + h)));
    Assoc(x + a + b, c, d + (e + (f + (g + h))));
    Assoc(x + a, b, c + (d + (e + (f + (g + h)))));
    Assoc(x, a, b + (c + (d + (e + (f + (g + h))))));
  }

  lemma ShieldedDoubled(f: bytes)
    ensures Doubled(Shielded(f)) == (if f != [] && Triggers(f[0]) then [0x27] else []) + Doubled(f)
  {
    if f != [] && Triggers(f[0]) {
      assert ([0x27] + f)[1..] == f;
    }
  }
}
