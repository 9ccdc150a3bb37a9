/** Which byte sequences are UTF-8, and how ASCII characters divide a text. */
module Utf8 {
  import opened Prelude

  predicate Continues(c: byte) {
    0x80 <= c <= 0xBF
  }

  /** The length of the well-formed character that a text starts with, or 0: the table in section 4 of RFC 3629. */
  function CharLength(s: bytes): (n: nat)
    requires s != []
    ensures n <= |s|
  {
    if s[0] < 0x80 then 1
    else if |s| >= 2 && 0xC2 <= s[0] <= 0xDF && Continues(s[1]) then 2
    else if |s| >= 3 && 0xE0 <= s[0] <= 0xEF && Continues(s[1]) && Continues(s[2])
            && (s[0] == 0xE0 ==> s[1] >= 0xA0) && (s[0] == 0xED ==> s[1] <= 0x9F) then 3
    else if |s| >= 4 && 0xF0 <= s[0] <= 0xF4 && Continues(s[1]) && Continues(s[2]) && Continues(s[3])
            && (s[0] == 0xF0 ==> s[1] >= 0x90) && (s[0] == 0xF4 ==> s[1] <= 0x8F) then 4
    else 0
  }

  predicate ValidUtf8(s: bytes) {
    s == [] || (CharLength(s) > 0 && ValidUtf8(s[CharLength(s)..]))
  }

  predicate IsAscii(s: bytes) {
    forall i :: 0 <= i < |s| ==> s[i] < 0x80
  }

  lemma {:induction false} AsciiPrefix(a: bytes, b: bytes)
    requires IsAscii(a)
    ensures ValidUtf8(a + b) <==> ValidUtf8(b)
  {
    if a == [] {
      assert a + b == b;
    } else {
      assert (a + b)[1..] == a[1..] + b;
      AsciiPrefix(a[1..], b);
    }
  }

  /** No character reaches across an ASCII character. */
  lemma CharBeforeAscii(a: bytes, q: byte, b: bytes)
    requires a != [] && q < 0x80
    ensures CharLength(a + ([q] + b)) == CharLength(a)
  {
    var s := a + ([q] + b);
    assert s[|a|] == q && forall i :: 0 <= i < |a| ==> s[i] == a[i];
  }

  /** So a text is valid exactly if the parts before and after an ASCII character are. */
  lemma {:induction false} AsciiSplits(a: bytes, q: byte, b: bytes)
    requires q < 0x80
    ensures ValidUtf8(a + ([q] + b)) <==> ValidUtf8(a) && ValidUtf8(b)
    decreases |a|
  {
    var s := a + ([q] + b);
    if a == [] {
      assert s == [q] + b && s[1..] == b;
    } else {
      CharBeforeAscii(a, q, b);
      var n := CharLength(a);
      if n > 0 {
        assert s[n..] == a[n..] + ([q] + b);
        AsciiSplits(a[n..], q, b);
      }
    }
  }
}
