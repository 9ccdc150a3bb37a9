/**
 When the JSON export is a JSON text in the sense of RFC 8259, which is UTF-8 (section 8.1). The
 printer passes every byte from 0x80 up through, so that depends on the fields.
 */
module ExportText {
  import opened Prelude
  import opened Slices
  import opened Utf8
  import opened Vaults
  import opened Export

  /** The bytes from 0x80 up that a field starts with. */
  function HighRun(s: bytes): (k: nat)
    ensures k <= |s| && (k < |s| ==> s[k] < 0x80)
  {
    if s == [] || s[0] < 0x80 then 0 else 1 + HighRun(s[1..])
  }

  lemma {:induction false} HighRunPasses(s: bytes)
    ensures Escaped(s) == s[..HighRun(s)] + Escaped(s[HighRun(s)..])
  {
    var k := HighRun(s);
    if k > 0 {
      HighRunPasses(s[1..]);
      assert s[1..][k - 1..] == s[k..];
      assert [s[0]] + s[1..][..k - 1] == s[..k];
      Assoc([s[0]], s[1..][..k - 1], Escaped(s[k..]));
    } else {
      assert s[..0] + Escaped(s) == Escaped(s) && s[0..] == s;
    }
  }

  lemma EscapeIsAscii(c: byte)
    requires c < 0x80
    ensures IsAscii(Escape(c))
  {
  }

  /** Escaping neither makes nor spoils UTF-8. */
  lemma {:induction false} EscapedUtf8(s: bytes)
    ensures ValidUtf8(Escaped(s)) <==> ValidUtf8(s)
    decreases |s|
  {
    hide ValidUtf8, Escape;
    var k := HighRun(s);
    HighRunPasses(s);
    if k == |s| {
      assert s[..k] == s && s[k..] == [] && s + [] == s;
    } else {
      var high, q, rest := s[..k], s[k], s[k + 1..];
      assert s == high + ([q] + rest) && s[k..][1..] == rest;
      AsciiSplits(high, q, rest);
      EscapeIsAscii(q);
      var e := Escape(q);
      assert e == [e[0]] + e[1..];
      Assoc([e[0]], e[1..], Escaped(rest));
      AsciiSplits(high, e[0], e[1..] + Escaped(rest));
      AsciiPrefix(e[1..], Escaped(rest));
      EscapedUtf8(rest);
    }
  }

  lemma StringUtf8(s: bytes, rest: bytes)
    ensures ValidUtf8(JsonString(s) + rest) <==> ValidUtf8(s) && ValidUtf8(rest)
  {
    hide ValidUtf8, Escaped;
    assert JsonString(s) + rest == [QUOTE] + (Escaped(s) + ([QUOTE] + rest));
    AsciiPrefix([QUOTE], Escaped(s) + ([QUOTE] + rest));
    AsciiSplits(Escaped(s), QUOTE, rest);
    EscapedUtf8(s);
  }

  lemma PairUtf8(name: bytes, value: bytes, rest: bytes)
    requires IsAscii(name)
    ensures ValidUtf8(Pair(name, value) + rest) <==> ValidUtf8(value) && ValidUtf8(rest)
  {
    hide ValidUtf8, JsonString;
    var before: bytes := [QUOTE] + (name + [QUOTE, 0x3A, 0x20]);
    assert Pair(name, value) + rest == before + (JsonString(value) + rest);
    AsciiPrefix(before, JsonString(value) + rest);
    StringUtf8(value, rest);
  }

  lemma LayoutIsAscii()
    ensures IsAscii(OPEN) && IsAscii(NEXT) && IsAscii(CLOSE) && IsAscii(Ascii("[\n"))
  {
  }

  lemma WordIsAscii(s: string)
    requires forall i :: 0 <= i < |s| ==> 'a' <= s[i] <= 'z' || s[i] == '_'
    ensures IsAscii(Ascii(s))
  {
  }

  lemma NamesAreAscii()
    ensures |NAMES| == 4 && forall i :: 0 <= i < 4 ==> IsAscii(NAMES[i])
  {
    hide IsAscii, Ascii;
    WordIsAscii("service");
    WordIsAscii("username");
    WordIsAscii("password");
    WordIsAscii("totp_secret");
  }

  ghost predicate AllText(fields: seq<bytes>) {
    forall i :: 0 <= i < |fields| ==> ValidUtf8(fields[i])
  }

  lemma AllTextCons(fields: seq<bytes>)
    requires fields != []
    ensures AllText(fields) <==> ValidUtf8(fields[0]) && AllText(fields[1..])
  {
    hide ValidUtf8;
    assert forall i :: 1 <= i < |fields| ==> fields[i] == fields[1..][i - 1];
  }

  lemma {:induction false} MembersUtf8(fields: seq<bytes>, names: seq<bytes>, rest: bytes)
    requires |fields| == |names| > 0 && forall i :: 0 <= i < |names| ==> IsAscii(names[i])
    ensures ValidUtf8(JsonMembers(fields, names) + rest) <==> AllText(fields) && ValidUtf8(rest)
    decreases |fields|
  {
    hide ValidUtf8, Pair, IsAscii, AllText, NEXT;
    AllTextCons(fields);
    if |fields| == 1 {
      PairUtf8(names[0], fields[0], rest);
      NoText(fields[1..]);
    } else {
      var inner := JsonMembers(fields[1..], names[1..]);
      Assoc(Pair(names[0], fields[0]), NEXT + inner, rest);
      Assoc(NEXT, inner, rest);
      PairUtf8(names[0], fields[0], NEXT + (inner + rest));
      LayoutIsAscii();
      AsciiPrefix(NEXT, inner + rest);
      MembersUtf8(fields[1..], names[1..], rest);
    }
  }

  lemma NoText(fields: seq<bytes>)
    requires fields == []
    ensures AllText(fields)
  {
  }

  lemma ObjectUtf8(e: Entry, rest: bytes)
    ensures ValidUtf8(JsonObject(e) + rest) <==> AllText(Fields(e)) && ValidUtf8(rest)
  {
    hide ValidUtf8, JsonMembers, IsAscii, AllText, OPEN, CLOSE, NAMES, Fields;
    NamesAreAscii();
    FourFields(e);
    LayoutIsAscii();
    var members := JsonMembers(Fields(e), NAMES);
    Assoc(OPEN, members + CLOSE, rest);
    Assoc(members, CLOSE, rest);
    AsciiPrefix(OPEN, members + (CLOSE + rest));
    MembersUtf8(Fields(e), NAMES, CLOSE + rest);
    AsciiPrefix(CLOSE, rest);
  }

  /** Every field of every entry is UTF-8. */
  ghost predicate IsText(es: Entries) {
    forall i :: 0 <= i < |es| ==> AllText(Fields(es[i]))
  }

  lemma {:induction false} ObjectsUtf8(es: Entries, rest: bytes)
    ensures ValidUtf8(JsonObjects(es) + rest) <==> IsText(es) && ValidUtf8(rest)
  {
    hide ValidUtf8, JsonObject, AllText, Fields;
    if es == [] {
      assert JsonObjects(es) + rest == rest;
    } else {
      var end: bytes := if |es| > 1 then [COMMA, LF] else [LF];
      var more := JsonObjects(es[1..]);
      Assoc(JsonObject(es[0]), end + more, rest);
      Assoc(end, more, rest);
      ObjectUtf8(es[0], end + (more + rest));
      AsciiPrefix(end, more + rest);
      ObjectsUtf8(es[1..], rest);
      assert forall i :: 1 <= i < |es| ==> es[i] == es[1..][i - 1];
    }
  }

  /** The document is UTF-8 if and only if every field is. */
  lemma JsonIsUtf8(es: Entries)
    ensures ValidUtf8(Json(es)) <==> IsText(es)
  {
    hide ValidUtf8, JsonObjects, IsText, Ascii;
    LayoutIsAscii();
    AsciiPrefix(Ascii("[\n"), JsonObjects(es) + [0x5D]);
    ObjectsUtf8(es, [0x5D]);
    BracketIsUtf8();
  }

  lemma BracketIsUtf8()
    ensures ValidUtf8([0x5D])
  {
    var b: bytes := [0x5D];
    assert CharLength(b) == 1 && b[1..] == [];
  }

  /** A reader that refuses what is not UTF-8. */
  function ReadJsonText(b: bytes): Option<seq<seq<(bytes, bytes)>>> {
    if ValidUtf8(b) then ReadJson(b) else None
  }

  /** Such a reader recovers all fields of a vault, exactly, if they are all UTF-8, and refuses the export if not. */
  lemma JsonTextRoundTrip(es: Entries)
    ensures IsText(es) ==> ReadJsonText(Json(es)) == Some(Objects(es))
    ensures !IsText(es) ==> ReadJsonText(Json(es)) == None
  {
    hide ValidUtf8, ReadJson, Json, IsText;
    JsonIsUtf8(es);
    JsonRoundTrip(es);
  }

  /** An export that is refused: a password of one byte that never occurs in UTF-8. */
  lemma ForeignByteIsRefused()
    ensures ReadJsonText(Json([Entry([0x78], [0x79], [0xFF], [], 1)])) == None
  {
    hide ReadJson, Json;
    var e := Entry([0x78], [0x79], [0xFF], [], 1);
    var s: bytes := [0xFF];
    assert Fields(e)[2] == s && CharLength(s) == 0 && !ValidUtf8(s);
    assert !AllText(Fields(e)) && [e][0] == e;
    JsonTextRoundTrip([e]);
  }
}
