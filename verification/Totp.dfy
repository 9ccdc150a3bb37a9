/** One-time passwords (src/totp.cpp): Base32 decoding, section 6 of RFC 4648, and TOTP, RFC 6238. */
module Totp {
  import opened Prelude
  import opened Arith
  import opened Endian

  // ---------------------------------------------------------------------------------
  // Base32: what a text denotes.
  // ---------------------------------------------------------------------------------

  type Digit32 = x: int | 0 <= x < 32

  /** Spaces, hyphens and padding carry nothing. */
  predicate Skipped(ch: byte) {
    ch == 0x20 || ch == 0x2D || ch == 0x3D
  }

  /** A-Z and a-z are 0 to 25, 2-7 are 26 to 31. */
  function DigitOf(ch: byte): (d: Option<Digit32>) {
    if 0x41 <= ch <= 0x5A then Some(ch - 0x41)
    else if 0x61 <= ch <= 0x7A then Some(ch - 0x61)
    else if 0x32 <= ch <= 0x37 then Some(ch - 0x32 + 26)
    else None
  }

  /** The significant digits of a text, unless it has a foreign character. */
  function Digits(s: bytes): (r: Option<seq<Digit32>>) {
    if s == [] then Some([])
    else
      var last := s[|s| - 1];
      match Digits(s[..|s| - 1])
      case None => None
      case Some(ds) =>
        if Skipped(last) then Some(ds)
        else
          match DigitOf(last)
          case None => None
          case Some(d) => Some(ds + [d])
  }

  /** The number whose binary notation is the concatenation of the digits' five bits. */
  function Value32(ds: seq<Digit32>): (v: nat) {
    if ds == [] then 0 else 32 * Value32(ds[..|ds| - 1]) + ds[|ds| - 1]
  }

  function Pow2(k: nat): (p: nat)
    ensures p > 0
  {
    if k == 0 then 1 else 2 * Pow2(k - 1)
  }

  /** Drop the `k` low-order bits. */
  function Shr(v: nat, k: nat): (r: nat) {
    DivNat(v, Pow2(k));
    v / Pow2(k)
  }

  /** The leading floor(5n/8) bytes of the digits' bit string. */
  function LeadingBytes(ds: seq<Digit32>): (b: bytes)
    ensures |b| == 5 * |ds| / 8
  {
    Be(Shr(Value32(ds), 5 * |ds| % 8), 5 * |ds| / 8)
  }

  function Decoded(s: bytes): (r: Result<bytes, Failure>) {
    match Digits(s)
    case None => Err(BadBase32)
    case Some(ds) => if LeadingBytes(ds) == [] then Err(BadBase32) else Ok(LeadingBytes(ds))
  }

  /** The alphabet of section 6 of RFC 4648. */
  const ALPHABET: bytes := Ascii("ABCDEFGHIJKLMNOPQRSTUVWXYZ234567")

  /** A character is digit `d` if and only if it is the `d`-th of the alphabet, or that letter in lower case. */
  lemma AlphabetMeaning(ch: byte, d: Digit32)
    ensures |ALPHABET| == 32
    ensures DigitOf(ch) == Some(d) <==> ch == ALPHABET[d] || (d < 26 && ch == ALPHABET[d] + 0x20)
  {
    AlphabetIs(d);
    hide ALPHABET;
  }

  lemma AlphabetIs(d: Digit32)
    ensures |ALPHABET| == 32 && ALPHABET[d] == if d < 26 then 0x41 + d else 0x32 + d - 26
  {
  }

  /** Exactly the blank, the hyphen and the equals sign are skipped. */
  lemma SkippedMeaning(ch: byte)
    ensures Skipped(ch) <==> ch in Ascii(" -=")
  {
    assert Ascii(" -=") == [0x20, 0x2D, 0x3D];
  }

  function Significant(s: bytes): nat {
    if s == [] then 0 else Significant(s[..|s| - 1]) + if Skipped(s[|s| - 1]) then 0 else 1
  }

  lemma {:induction false} DigitsExactly(s: bytes)
    ensures Digits(s).Some? <==> forall i :: 0 <= i < |s| ==> Skipped(s[i]) || DigitOf(s[i]).Some?
    ensures Digits(s).Some? ==> |Digits(s).value| == Significant(s)
  {
    if s != [] {
      DigitsExactly(s[..|s| - 1]);
    }
  }

  /**
   A text is decoded if and only if every character is of the alphabet or skipped and at least two
   are significant, which is what one byte takes; else it is refused.
   */
  lemma DecodesExactly(s: bytes)
    ensures Decoded(s).Ok? <==>
      (forall i :: 0 <= i < |s| ==> Skipped(s[i]) || DigitOf(s[i]).Some?) && Significant(s) >= 2
    ensures Decoded(s).Err? ==> Decoded(s) == Err(BadBase32)
    ensures Decoded(s).Ok? ==> |Decoded(s).value| == 5 * Significant(s) / 8
  {
    hide Be, Shr, Value32, DigitOf, Skipped;
    DigitsExactly(s);
  }

  // ---------------------------------------------------------------------------------
  // The decoder: a 32-bit accumulator that is never masked.
  // ---------------------------------------------------------------------------------

  /** A push of five bits that does not complete a byte leaves the emitted bytes alone. */
  lemma ShortPush(v: nat, d: Digit32, left: nat)
    requires left < 3
    ensures Shr(32 * v + d, left + 5) == Shr(v, left)
  {
    assert Pow2(1) == 2 && Pow2(2) == 4 && Pow2(5) == 32 && Pow2(6) == 64 && Pow2(7) == 128;
  }

  /** A push that completes a byte: what is above the byte was emitted before. */
  lemma LongPush(v: nat, d: Digit32, left: nat)
    requires 3 <= left < 8
    ensures Shr(32 * v + d, left - 3) / 256 == Shr(v, left)
  {
    var x := 32 * v + d;
    Pow2Sum(left - 3, 8);
    Pow2Sum(left, 5);
    assert Pow2(4) == 16 && Pow2(5) == 32 && Pow2(8) == 16 * Pow2(4);
    DivDiv(x, Pow2(left - 3), 256);
    DivDiv(x, 32, Pow2(left));
  }

  /** The byte to emit is in the low 32 bits: wrapping around loses nothing that is still needed. */
  lemma LowBitsSuffice(x: nat, shift: nat)
    requires shift < 5
    ensures Shr(x % 0x1_0000_0000, shift) % 256 == Shr(x, shift) % 256
  {
    var p, k := Pow2(shift), Pow2(24 - shift);
    assert Pow2(4) == 16 && Pow2(8) == 16 * Pow2(4);
    Pow2Sum(8, 8);
    Pow2Sum(16, 8);
    Pow2Sum(shift, 24 - shift);
    var q, y := x / 0x1_0000_0000, x % 0x1_0000_0000;
    LowBits(x, p, k, q, y);
  }

  lemma LowBits(x: nat, p: nat, k: nat, q: nat, y: nat)
    requires p > 0 && p * k == 0x100_0000 && x == 0x1_0000_0000 * q + y
    ensures x / p % 256 == y / p % 256
  {
    var z := y / p;
    assert x == 256 * (p * k) * q + y == p * (256 * (k * q)) + (p * z + y % p) == p * (256 * (k * q) + z) + y % p;
    Quotient(x, p, 256 * (k * q) + z, y % p);
  }

  lemma ValueSnoc(ds: seq<Digit32>, d: Digit32)
    ensures Value32(ds + [d]) == 32 * Value32(ds) + d
  {
    assert (ds + [d])[..|ds|] == ds;
  }

  /** `(buffer << 5) | d` on a 32-bit word: the five low bits are free after the shift. */
  function Pushed(buffer: u32, d: Digit32): (r: u32) {
    (buffer as int * 32 + d) % 0x1_0000_0000
  }

  lemma Accumulates(v: nat, d: Digit32)
    ensures Pushed(v % 0x1_0000_0000, d) == (32 * v + d) % 0x1_0000_0000
  {
    var q := v / 0x1_0000_0000;
    assert 32 * v + d == 0x1_0000_0000 * (32 * q) + (v % 0x1_0000_0000 * 32 + d);
  }

  lemma BitCount(n: nat)
    ensures var left := 5 * n % 8;
      if left + 5 < 8 then 5 * (n + 1) % 8 == left + 5 && 5 * (n + 1) / 8 == 5 * n / 8
      else 5 * (n + 1) % 8 == left - 3 && 5 * (n + 1) / 8 == 5 * n / 8 + 1
  {
  }

  method DecodeBase32(secret: bytes) returns (r: Result<bytes, Failure>)
    ensures r == Decoded(secret)
  {
    hide Be, Shr, Value32, Digits, Pushed;
    var result: bytes := [];
    var buffer: u32 := 0;
    var bitsLeft: nat := 0;
    ghost var ds: seq<Digit32> := [];
    StartOfDecoding();
    var i := 0;
    while i < |secret|
      invariant 0 <= i <= |secret|
      invariant Digits(secret[..i]) == Some(ds)
      invariant buffer == Value32(ds) % 0x1_0000_0000
      invariant |result| == 5 * |ds| / 8 && bitsLeft == 5 * |ds| % 8
      invariant result == Be(Shr(Value32(ds), bitsLeft), |result|)
    {
      DigitsSnoc(secret[..i], secret[i]);
      assert secret[..i + 1] == secret[..i] + [secret[i]];
      var ch := secret[i];
      i := i + 1;
      if Skipped(ch) {
        continue;
      }
      match DigitOf(ch) {
        case None =>
          ForeignCharacter(secret, i);
          return Err(BadBase32);
        case Some(d) =>
          ghost var v := Value32(ds);
          ValueSnoc(ds, d);
          ds := ds + [d];
          Accumulates(v, d);
          BitCount(|ds| - 1);
          buffer := Pushed(buffer, d);
          bitsLeft := bitsLeft + 5;
          if bitsLeft >= 8 {
            LongPush(v, d, bitsLeft - 5);
            bitsLeft := bitsLeft - 8;
            LowBitsSuffice(32 * v + d, bitsLeft);
            BeSnoc(Shr(32 * v + d, bitsLeft), |result|);
            result := result + [Shr(buffer, bitsLeft) % 256];
          } else {
            ShortPush(v, d, bitsLeft - 5);
          }
      }
    }
    assert secret[..i] == secret;
    r := if result == [] then Err(BadBase32) else Ok(result);
  }

  lemma DigitsSnoc(s: bytes, ch: byte)
    requires Digits(s).Some?
    ensures Digits(s + [ch]) ==
      if Skipped(ch) then Digits(s)
      else if DigitOf(ch).None? then None
      else Some(Digits(s).value + [DigitOf(ch).value])
  {
    assert (s + [ch])[..|s|] == s;
  }

  lemma StartOfDecoding()
    ensures Digits([]) == Some([]) && Value32([]) == 0 && Be(Shr(0, 0), 0) == []
  {
  }

  lemma BeSnoc(v: nat, k: nat)
    ensures Be(v, k + 1) == Be(v / 256, k) + [v % 256]
  {
  }

  /** One bad character spoils the text, whatever follows it. */
  lemma {:induction false} ForeignCharacter(s: bytes, i: nat)
    requires i <= |s| && Digits(s[..i]).None?
    ensures Digits(s).None?
  {
    if i == |s| {
      assert s[..i] == s;
    } else {
      assert s[..|s| - 1][..i] == s[..i];
      ForeignCharacter(s[..|s| - 1], i);
    }
  }

  // ---------------------------------------------------------------------------------
  // Decoding inverts encoding.
  // ---------------------------------------------------------------------------------

  /** Number of digits that hold the bits of `m` bytes. */
  function DigitCount(m: nat): nat {
    (8 * m + 4) / 5
  }

  function ToDigits(v: nat, n: nat): (ds: seq<Digit32>)
    ensures |ds| == n
  {
    if n == 0 then [] else ToDigits(v / 32, n - 1) + [v % 32]
  }

  /** The encoding of RFC 4648: the bits of the bytes, filled up with zeros to a multiple of five. */
  function Encoded(b: bytes): (ds: seq<Digit32>)
    ensures |ds| == DigitCount(|b|)
  {
    var n := DigitCount(|b|);
    DigitCountFits(|b|);
    ToDigits(FromBe(b) * Pow2(5 * n - 8 * |b|), n)
  }

  lemma {:induction false} ToDigitsValue(v: nat, n: nat)
    requires v < Pow2(5 * n)
    ensures Value32(ToDigits(v, n)) == v
  {
    if n > 0 {
      Pow2Sum(5 * (n - 1), 5);
      assert Pow2(5) == 32;
      ToDigitsValue(v / 32, n - 1);
    }
  }

  lemma {:induction false} Pow2Sum(a: nat, b: nat)
    ensures Pow2(a + b) == Pow2(a) * Pow2(b)
  {
    if b > 0 {
      Pow2Sum(a, b - 1);
      assert Pow2(a) * (2 * Pow2(b - 1)) == 2 * (Pow2(a) * Pow2(b - 1));
    }
  }

  lemma {:induction false} Pow2Pow256(k: nat)
    ensures Pow2(8 * k) == Pow256(k)
  {
    if k > 0 {
      Pow2Pow256(k - 1);
      Pow2Sum(8 * (k - 1), 8);
      assert Pow2(4) == 16 && Pow2(8) == 16 * Pow2(4);
    }
  }

  /** Any text whose significant digits are the encoding of some bytes decodes to those bytes. */
  lemma DecodeInvertsEncode(b: bytes, text: bytes)
    requires b != [] && Digits(text) == Some(Encoded(b))
    ensures Decoded(text) == Ok(b)
  {
    hide Be, FromBe, Digits, Value32, ToDigits, Shr, DigitCount;
    var m, n := |b|, DigitCount(|b|);
    DigitCountFits(m);
    var r, v := 5 * n - 8 * m, FromBe(b);
    FromBeBound(b);
    Pow2Pow256(m);
    Shl(v, 8 * m, r);
    ToDigitsValue(v * Pow2(r), n);
    BeUnique(b);
  }

  lemma DigitCountFits(m: nat)
    ensures var n := DigitCount(m); 8 * m <= 5 * n && 5 * n / 8 == m && 5 * n % 8 == 5 * n - 8 * m
  {
  }

  /** Appending `r` zero bits to a number of `k` bits gives one of `k + r` bits, and dropping them undoes it. */
  lemma Shl(v: nat, k: nat, r: nat)
    requires v < Pow2(k)
    ensures v * Pow2(r) < Pow2(k + r) && Shr(v * Pow2(r), r) == v
  {
    Pow2Sum(k, r);
    MulMonotone(Pow2(r), v + 1, Pow2(k));
    Quotient(v * Pow2(r), Pow2(r), v, 0);
  }

  // Which texts those are: either case, with anything that is skipped put in anywhere.

  function Letter(d: Digit32, upper: bool): (ch: byte)
    ensures !Skipped(ch) && DigitOf(ch) == Some(d)
  {
    if d < 26 then (if upper then 0x41 else 0x61) + d else 0x32 + d - 26
  }

  /** The text of the digits, digit `i` in upper case if `upper(i)`. */
  function Text(ds: seq<Digit32>, upper: nat -> bool): (s: bytes) {
    if ds == [] then [] else Text(ds[..|ds| - 1], upper) + [Letter(ds[|ds| - 1], upper(|ds| - 1))]
  }

  lemma {:induction false} TextDigits(ds: seq<Digit32>, upper: nat -> bool)
    ensures Digits(Text(ds, upper)) == Some(ds)
  {
    if ds != [] {
      var p := ds[..|ds| - 1];
      TextDigits(p, upper);
      assert ds == p + [ds[|ds| - 1]];
      var s := Text(ds, upper);
      assert s[..|s| - 1] == Text(p, upper);
    }
  }

  /** A text without its spaces, hyphens and padding. */
  function Stripped(s: bytes): (r: bytes) {
    if s == [] then []
    else Stripped(s[..|s| - 1]) + if Skipped(s[|s| - 1]) then [] else [s[|s| - 1]]
  }

  lemma {:induction false} StrippingKeepsDigits(s: bytes)
    ensures Digits(Stripped(s)) == Digits(s)
  {
    if s != [] {
      var p, last := s[..|s| - 1], s[|s| - 1];
      StrippingKeepsDigits(p);
      if Skipped(last) {
        assert Stripped(p) + [] == Stripped(p);
      } else {
        assert (Stripped(p) + [last])[..|Stripped(p)|] == Stripped(p);
      }
    }
  }

  /**
   Every spelling of an encoding decodes: the letters of the encoding of `b`, each in either case,
   with any spaces, hyphens and padding anywhere among them.
   */
  lemma EverySpellingDecodes(b: bytes, text: bytes, upper: nat -> bool)
    requires b != [] && Stripped(text) == Text(Encoded(b), upper)
    ensures Decoded(text) == Ok(b)
  {
    hide Encoded, Decoded, Text, Stripped;
    TextDigits(Encoded(b), upper);
    StrippingKeepsDigits(text);
    DecodeInvertsEncode(b, text);
  }

  // ---------------------------------------------------------------------------------
  // TOTP.
  // ---------------------------------------------------------------------------------

  type Digest = b: bytes | |b| == 20
    witness [0, 0, 0, 0, 0, 0, 0, 0, 0, 0, 0, 0, 0, 0, 0, 0, 0, 0, 0, 0]

  /** HMAC-SHA1, a parameter: (key, message) to 20 bytes. */
  type Hmac = (bytes, bytes) -> Digest

  datatype Code = Code(digits: bytes, remaining: u32)

  /** Dynamic truncation, section 5.3 of RFC 4226: 31 bits at the offset named by the last nibble. */
  function Truncate(md: Digest): (v: nat)
    ensures v < 0x8000_0000
  {
    var o := md[19] % 16;
    (md[o] % 128) as int * 0x100_0000 + md[o + 1] as int * 0x1_0000 + md[o + 2] as int * 0x100 + md[o + 3] as int
  }

  function Pow10(k: nat): (p: nat)
    ensures p > 0
  {
    if k == 0 then 1 else 10 * Pow10(k - 1)
  }

  /** Exactly `k` decimal digits of `v`, most significant first. */
  function Decimal(v: nat, k: nat): (s: bytes)
    ensures |s| == k
    ensures forall i :: 0 <= i < k ==> 0x30 <= s[i] <= 0x39
  {
    if k == 0 then [] else Decimal(v / 10, k - 1) + [0x30 + v % 10]
  }

  function DecimalValue(s: bytes): (v: int) {
    if s == [] then 0 else 10 * DecimalValue(s[..|s| - 1]) + (s[|s| - 1] as int - 0x30)
  }

  lemma {:induction false} DecimalRoundTrip(v: nat, k: nat)
    requires v < Pow10(k)
    ensures DecimalValue(Decimal(v, k)) == v
  {
    if k > 0 {
      DecimalRoundTrip(v / 10, k - 1);
      assert Decimal(v, k)[..k - 1] == Decimal(v / 10, k - 1);
    }
  }

  /** A zero timestamp asks for the current time. */
  function At(timestamp: u64, now: Instant): (t: Instant) {
    if timestamp == 0 then now else timestamp
  }

  function Totp(
      hmac: Hmac, secret: bytes, timestamp: u64, now: Instant, step: u32, digits: u32): (r: Result<Code, Failure>)
  {
    if step == 0 || digits < 6 || digits > 8 then Err(BadTotpParameter)
    else
      var t := At(timestamp, now);
      match Decoded(secret)
      case Err(e) => Err(e)
      case Ok(key) => Ok(Code(Decimal(Truncate(hmac(key, Be(t / step, 8))) % Pow10(digits), digits), step - t % step))
  }

  /**
   A produced code is `digits` decimal digits whose value is the truncated HMAC of the time
   step modulo a power of ten, and it expires exactly when the next step begins.
   */
  lemma TotpMeaning(hmac: Hmac, secret: bytes, timestamp: u64, now: Instant, step: u32, digits: u32, code: Code)
    requires Totp(hmac, secret, timestamp, now, step, digits) == Ok(code)
    ensures step > 0 && 6 <= digits <= 8 && Decoded(secret).Ok?
    ensures |code.digits| == digits && forall i :: 0 <= i < digits ==> 0x30 <= code.digits[i] <= 0x39
    ensures DecimalValue(code.digits)
         == Truncate(hmac(Decoded(secret).value, Be(At(timestamp, now) / step, 8))) % Pow10(digits)
    ensures 1 <= code.remaining <= step
    ensures (At(timestamp, now) + code.remaining) % step == 0
    ensures (At(timestamp, now) + code.remaining) / step == At(timestamp, now) / step + 1
  {
    hide Decoded, Be, Truncate, Pow10;
    var t := At(timestamp, now);
    DecimalRoundTrip(Truncate(hmac(Decoded(secret).value, Be(t / step, 8))) % Pow10(digits), digits);
    Remaining(t, step);
  }

  /** A code is produced exactly for a non-zero step, six to eight digits and a secret that decodes. */
  lemma TotpSucceedsExactly(hmac: Hmac, secret: bytes, timestamp: u64, now: Instant, step: u32, digits: u32)
    ensures Totp(hmac, secret, timestamp, now, step, digits).Ok?
      <==> step > 0 && 6 <= digits <= 8 && Decoded(secret).Ok?
  {
    hide Decoded, Be, Truncate, Pow10, Decimal;
  }

  /** A timestamp counts as it is, except that zero means now. */
  lemma ZeroMeansNow(hmac: Hmac, secret: bytes, timestamp: u64, now: Instant, later: Instant, step: u32, digits: u32)
    ensures At(0, now) == now && (timestamp != 0 ==> At(timestamp, now) == timestamp)
    ensures timestamp != 0 ==>
      Totp(hmac, secret, timestamp, now, step, digits) == Totp(hmac, secret, timestamp, later, step, digits)
    ensures Totp(hmac, secret, 0, now, step, digits) == Totp(hmac, secret, now, later, step, digits)
  {
    hide Decoded, Be, Truncate, Pow10, Decimal;
  }

  /**
   The truncated value is the four bytes at the offset in the low nibble of the last byte, big-endian,
   without the sign bit.
   */
  lemma TruncateMeaning(md: Digest)
    ensures Truncate(md) == FromBe(md[md[19] % 16..md[19] % 16 + 4]) % 0x8000_0000
  {
    var o := md[19] % 16;
    var b := md[o..o + 4];
    assert FromBe(b[..3]) == 256 * FromBe(b[..3][..2]) + b[2];
    assert FromBe(b[..3][..2]) == 256 * FromBe(b[..3][..2][..1]) + b[1];
    assert FromBe(b[..3][..2][..1]) == b[0];
    hide FromBe;
    TopBit(md[o], md[o + 1], md[o + 2], md[o + 3]);
  }

  lemma TopBit(b0: byte, b1: byte, b2: byte, b3: byte)
    ensures (((b0 as int * 256 + b1 as int) * 256 + b2 as int) * 256 + b3 as int) % 0x8000_0000
         == (b0 % 128) as int * 0x100_0000 + b1 as int * 0x1_0000 + b2 as int * 0x100 + b3 as int
  {
  }

  /** The example of section 5.4 of RFC 4226, up to its code of six digits. */
  lemma TruncationExample()
    ensures var md: Digest := [0x1f, 0x86, 0x98, 0x69, 0x0e, 0x02, 0xca, 0x16, 0x61, 0x85,
                               0x50, 0xef, 0x7f, 0x19, 0xda, 0x8e, 0x94, 0x5b, 0x55, 0x5a];
      Truncate(md) == 0x50ef7f19 && Truncate(md) % 1_000_000 == 872921
  {
  }

  lemma Remaining(t: nat, step: nat)
    requires step > 0
    ensures 1 <= step - t % step <= step
    ensures (t + (step - t % step)) % step == 0 && (t + (step - t % step)) / step == t / step + 1
  {
    assert t + (step - t % step) == step * (t / step + 1);
    Quotient(t + (step - t % step), step, t / step + 1, 0);
  }

  // --- the procedure ---

  /** `std::to_string`. */
  function Shortest(v: nat): (s: bytes)
    ensures |s| > 0
  {
    if v < 10 then [0x30 + v] else Shortest(v / 10) + [0x30 + v % 10]
  }

  function Zeros(k: nat): (s: bytes)
    ensures |s| == k
  {
    if k == 0 then [] else [0x30] + Zeros(k - 1)
  }

  lemma {:induction false} DecimalZero(k: nat)
    ensures Decimal(0, k) == Zeros(k)
    ensures Zeros(k) + [0x30] == [0x30] + Zeros(k)
  {
    if k > 0 {
      DecimalZero(k - 1);
      assert [0x30] + Zeros(k - 1) + [0x30] == [0x30] + (Zeros(k - 1) + [0x30]);
    }
  }

  lemma {:induction false} Padded(v: nat, k: nat)
    requires v < Pow10(k) && k > 0
    ensures |Shortest(v)| <= k
    ensures Zeros(k - |Shortest(v)|) + Shortest(v) == Decimal(v, k)
  {
    if v < 10 {
      DecimalZero(k - 1);
    } else {
      assert k > 1;
      Padded(v / 10, k - 1);
      var z := Zeros(k - |Shortest(v)|);
      assert z + (Shortest(v / 10) + [0x30 + v % 10]) == (z + Shortest(v / 10)) + [0x30 + v % 10];
    }
  }

  lemma {:induction false} BeTop(v: nat, k: nat, j: nat)
    requires j <= k
    ensures Be(v, k)[..j] == Be(v / Pow256(k - j), j)
    decreases k
  {
    if j < k {
      BeTop(v / 256, k - 1, j);
      assert Be(v, k)[..j] == Be(v / 256, k - 1)[..j];
      DivDiv(v, 256, Pow256(k - 1 - j));
    }
  }

  method TimeBytes(timeStep: u64) returns (r: bytes)
    ensures r == Be(timeStep, 8)
  {
    hide Be;
    var bs := new byte[8](_ => 0);
    var rest: nat, i := timeStep, 7;
    while i >= 0
      invariant -1 <= i <= 7
      invariant rest == timeStep / Pow256(7 - i)
      invariant bs[i + 1..] == Be(timeStep, 8)[i + 1..]
    {
      BeTop(timeStep, 8, i + 1);
      BeSnoc(rest, i);
      assert Be(timeStep, 8)[i] == Be(timeStep, 8)[..i + 1][i] == rest % 256;
      bs[i] := rest % 256;
      DivDiv(timeStep, Pow256(7 - i), 256);
      assert bs[i..] == [bs[i]] + bs[i + 1..];
      assert Be(timeStep, 8)[i..] == [Be(timeStep, 8)[i]] + Be(timeStep, 8)[i + 1..];
      rest, i := rest / 256, i - 1;
    }
    r := bs[..];
  }

  method GenerateTotp(hmac: Hmac, secret: bytes, timestamp: u64, now: Instant, step: u32, digits: u32)
    returns (r: Result<Code, Failure>)
    ensures r == Totp(hmac, secret, timestamp, now, step, digits)
  {
    hide Decoded, Be, Truncate;
    if step == 0 || digits < 6 || digits > 8 {
      return Err(BadTotpParameter);
    }
    var t := At(timestamp, now);
    var remaining: u32 := step - t % step;
    var key := DecodeBase32(secret);
    if key.Err? {
      return Err(key.error);
    }
    var message := TimeBytes(t / step);
    var md: Digest := hmac(key.value, message);
    var modulus, d := 1, 0;
    while d < digits
      invariant 0 <= d <= digits && modulus == Pow10(d)
    {
      modulus, d := 10 * modulus, d + 1;
    }
    var otp := Truncate(md) % modulus;
    Padded(otp, digits);
    var text := Shortest(otp);
    if |text| < digits {
      text := Zeros(digits - |text|) + text;
    } else {
      assert Zeros(0) + text == text;
    }
    r := Ok(Code(text, remaining));
  }
}
