/**
 The encrypted vault file (src/vault.cpp): a 48-byte header "DUCK", version, Argon2 cost
 parameters, salt and IV, which is also the additional authenticated data, followed by the
 ciphertext and its tag.
 */
module VaultFile {
  import opened Prelude
  import opened Endian
  import opened Slices
  import opened Vaults
  import opened VaultFormat

  // ---------------------------------------------------------------------------------
  // Cryptography is a parameter: any key derivation and any authenticated cipher.
  // ---------------------------------------------------------------------------------

  datatype KdfParams = KdfParams(timeCost: u32, memoryCost: u32, parallelism: u32)

  datatype Crypto = Crypto(
    /** (password, salt, parameters) to a key */
    kdf: (bytes, bytes, KdfParams) -> Option<bytes>,
    /** (plaintext, key, iv, aad) to ciphertext and tag */
    enc: (bytes, bytes, bytes, bytes) -> bytes,
    /** (ciphertext and tag, key, iv, aad) to plaintext, or an authentication failure */
    dec: (bytes, bytes, bytes, bytes) -> Option<bytes>)

  const DEFAULT_KDF := KdfParams(2, 65536, 1)
  const MAGIC: bytes := [0x44, 0x55, 0x43, 0x4B]
  const HEADER_SIZE := 48
  const TAG_SIZE := 16
  const MAX_FILE := 500 * 1024 * 1024

  type Salt = b: bytes | |b| == 16 witness [0, 0, 0, 0, 0, 0, 0, 0, 0, 0, 0, 0, 0, 0, 0, 0]
  type Iv = b: bytes | |b| == 12 witness [0, 0, 0, 0, 0, 0, 0, 0, 0, 0, 0, 0]

  /** Different passwords give different keys, and a ciphertext opens only as it was sealed. */
  ghost predicate Ideal(c: Crypto) {
    && (forall p, s :: c.kdf(p, s, DEFAULT_KDF).Some?)
    && (forall p, q, s, d :: c.kdf(p, s, d).Some? && c.kdf(p, s, d) == c.kdf(q, s, d) ==> p == q)
    && (forall t, k, v, a :: |c.enc(t, k, v, a)| >= |t| + TAG_SIZE)
    && (forall t, k, v, a :: c.dec(c.enc(t, k, v, a), k, v, a) == Some(t))
    && (forall t, k, v, a, l, w, b :: c.dec(c.enc(t, k, v, a), l, w, b).Some? ==> l == k && w == v && b == a)
  }

  // ---------------------------------------------------------------------------------
  // Writing and reading a package.
  // ---------------------------------------------------------------------------------

  /** The header of a package; what is written today is version 3 with the default costs. */
  function HeaderOf(version: u32, kdf: KdfParams, salt: Salt, iv: Iv): (h: bytes)
    ensures |h| == HEADER_SIZE
  {
    MAGIC + Le(version, 4) + Le(kdf.timeCost, 4) + Le(kdf.memoryCost, 4) + Le(kdf.parallelism, 4) + salt + iv
  }

  function Header(salt: Salt, iv: Iv): (h: bytes)
    ensures |h| == HEADER_SIZE
  {
    HeaderOf(3, DEFAULT_KDF, salt, iv)
  }

  lemma HeaderLayout(version: u32, kdf: KdfParams, salt: Salt, iv: Iv)
    ensures var h := HeaderOf(version, kdf, salt, iv);
      && h[..4] == MAGIC && h[4..8] == Le(version, 4) && h[8..12] == Le(kdf.timeCost, 4)
      && h[12..16] == Le(kdf.memoryCost, 4) && h[16..20] == Le(kdf.parallelism, 4) && h[20..36] == salt
          && h[36..48] == iv
  {
    hide Le;
  }

  /** The header as it is written today: name, version 3, two passes over 64 MiB in one lane, salt and IV. */
  lemma HeaderExample(salt: Salt, iv: Iv)
    ensures Header(salt, iv)
         == Ascii("DUCK") + [3, 0, 0, 0] + [2, 0, 0, 0] + [0, 0, 1, 0] + [1, 0, 0, 0] + salt + iv
  {
    assert Ascii("DUCK") == MAGIC;
    LeSmall(3, 4);
    LeSmall(2, 4);
    LeSmall(1, 4);
    LeSmall(1, 2);
    assert Le(65536, 4) == [0] + Le(256, 3) && Le(256, 3) == [0] + Le(1, 2);
    hide Le, Ascii;
    assert Le(3, 4) == [3, 0, 0, 0] && Le(2, 4) == [2, 0, 0, 0] && Le(1, 4) == [1, 0, 0, 0];
    assert Le(65536, 4) == [0, 0, 1, 0];
  }

  function Package(c: Crypto, es: Entries, password: bytes, salt: Salt, iv: Iv): (r: Result<bytes, Failure>) {
    match c.kdf(password, salt, DEFAULT_KDF)
    case None => Err(CryptoFailure)
    case Some(key) => Ok(Header(salt, iv) + c.enc(Body(es, 3), key, iv, Header(salt, iv)))
  }

  datatype Parsed = Parsed(version: u32, kdf: KdfParams, salt: bytes, iv: bytes, aad: bytes, ciphertext: bytes)

  function Field(blob: bytes, o: nat): (w: u32)
    requires o + 4 <= |blob|
  {
    FromLeBound(blob[o..o + 4]);
    Widths();
    FromLe(blob[o..o + 4])
  }

  function Parse(blob: bytes): (r: Result<Parsed, Failure>)
    ensures r.Ok? ==> |blob| >= HEADER_SIZE && 1 <= r.value.version <= 3
  {
    if |blob| < HEADER_SIZE + TAG_SIZE then Err(Truncated)
    else if blob[..4] != MAGIC then Err(NotAVault)
    else if Field(blob, 4) != 1 && Field(blob, 4) != 2 && Field(blob, 4) != 3 then Err(UnsupportedVersion)
    else if Field(blob, 12) > 1024 * 1024 || Field(blob, 8) > 100 || Field(blob, 16) > 64 then Err(KdfLimits)
    else Ok(Parsed(
      Field(blob, 4),
      KdfParams(Field(blob, 8), Field(blob, 12), Field(blob, 16)),
      blob[20..36],
      blob[36..48],
      if Field(blob, 4) >= 2 then blob[..HEADER_SIZE] else [],
      blob[HEADER_SIZE..]))
  }

  /** The authenticated plaintext of a package and the format version it was written in. */
  function Unseal(c: Crypto, blob: bytes, password: bytes): (r: Result<(bytes, u32), Failure>) {
    match Parse(blob)
    case Err(e) => Err(e)
    case Ok(p) =>
      match c.kdf(password, p.salt, p.kdf)
      case None => Err(CryptoFailure)
      case Some(key) =>
        match c.dec(p.ciphertext, key, p.iv, p.aad)
        case None => Err(WrongPassword)
        case Some(plain) => Ok((plain, p.version))
  }

  /** `load_vault` on the bytes of a file, including the size limit of `read_file`. */
  function Load(c: Crypto, blob: bytes, password: bytes, clock: Clock): (r: Result<Entries, Failure>)
    ensures r.Ok? ==> WellFormed(r.value)
  {
    if |blob| > MAX_FILE then Err(FileTooLarge)
    else
      match Unseal(c, blob, password)
      case Err(e) => Err(e)
      case Ok((plain, version)) =>
        ArbitraryBytesAreSafe(plain, version, clock);
        match Deserialized(plain, version, clock)
        case None => Err(MalformedBody)
        case Some(es) => Ok(es)
  }

  // ---------------------------------------------------------------------------------
  // Properties.
  // ---------------------------------------------------------------------------------

  lemma FieldOfHeader(blob: bytes, o: nat, v: u32)
    requires o + 4 <= |blob| && blob[o..o + 4] == Le(v, 4)
    ensures Field(blob, o) == v
  {
    Widths();
    LeRoundTrip(v, 4);
  }

  /**
   A file loads exactly if it has 64 bytes to 500 MiB, begins with "DUCK", is of version 1, 2 or 3 and
   within the limits of cost, and its ciphertext opens, with the header as additional data since
   version 2, to a body that decodes.
   */
  lemma LoadSucceedsExactly(c: Crypto, blob: bytes, password: bytes, clock: Clock)
    ensures Load(c, blob, password, clock).Ok? <==>
      && 64 <= |blob| <= 524_288_000
      && blob[..4] == Ascii("DUCK")
      && var version := FromLe(blob[4..8]);
      && 1 <= version <= 3
      && FromLe(blob[8..12]) <= 100 && FromLe(blob[12..16]) <= 1_048_576 && FromLe(blob[16..20]) <= 64
      && var costs := KdfParams(FromLe(blob[8..12]), FromLe(blob[12..16]), FromLe(blob[16..20]));
      var key := c.kdf(password, blob[20..36], costs);
      && key.Some?
      && var plain := c.dec(blob[48..], key.value, blob[36..48], if version >= 2 then blob[..48] else []);
      && plain.Some? && Deserialized(plain.value, version, clock).Some?
  {
    hide FromLe, Deserialized;
    assert Ascii("DUCK") == MAGIC;
  }

  predicate WithinLimits(kdf: KdfParams) {
    kdf.memoryCost <= 1024 * 1024 && kdf.timeCost <= 100 && kdf.parallelism <= 64
  }

  /**
   Every header parses back to what it was made from, and is itself the authenticated data since
   version 2; unknown versions and excessive costs are refused.
   */
  lemma ParseHeader(version: u32, kdf: KdfParams, salt: Salt, iv: Iv, ct: bytes)
    requires |ct| >= TAG_SIZE
    ensures var h := HeaderOf(version, kdf, salt, iv);
      Parse(h + ct) ==
        if version < 1 || version > 3 then Err(UnsupportedVersion)
        else if !WithinLimits(kdf) then Err(KdfLimits)
        else Ok(Parsed(version, kdf, salt, iv, if version >= 2 then h else [], ct))
  {
    hide HeaderOf, Le, FromLe;
    HeaderLayout(version, kdf, salt, iv);
    var h := HeaderOf(version, kdf, salt, iv);
    var blob := h + ct;
    assert blob[..4] == h[..4] && blob[4..8] == h[4..8] && blob[8..12] == h[8..12];
    assert blob[12..16] == h[12..16] && blob[16..20] == h[16..20];
    assert blob[20..36] == h[20..36] && blob[36..48] == h[36..48];
    assert blob[..48] == h && blob[48..] == ct;
    FieldOfHeader(blob, 4, version);
    FieldOfHeader(blob, 8, kdf.timeCost);
    FieldOfHeader(blob, 12, kdf.memoryCost);
    FieldOfHeader(blob, 16, kdf.parallelism);
  }

  /** The header that is parsed back is the one the package was sealed with. */
  lemma ParsePackage(salt: Salt, iv: Iv, ct: bytes)
    requires |ct| >= TAG_SIZE
    ensures Parse(Header(salt, iv) + ct) == Ok(Parsed(3, DEFAULT_KDF, salt, iv, Header(salt, iv), ct))
  {
    hide HeaderOf, Parse;
    ParseHeader(3, DEFAULT_KDF, salt, iv, ct);
  }

  /** A file as versions 1 and 2 wrote it. Version 1 did not authenticate its header. */
  function OlderFile(
    c: Crypto, es: Entries, version: u32, kdf: KdfParams, password: bytes, salt: Salt, iv: Iv): (blob: bytes)
    requires c.kdf(password, salt, kdf).Some?
  {
    var h := HeaderOf(version, kdf, salt, iv);
    h + c.enc(Body(es, version), c.kdf(password, salt, kdf).value, iv, if version == 1 then [] else h)
  }

  /**
   Files of versions 1 and 2, written with any costs within the limits and before there were TOTP
   secrets, still load, under their own password only.
   */
  lemma OlderFilesLoad(
    c: Crypto, es: Entries, version: u32, kdf: KdfParams, password: bytes, salt: Salt, iv: Iv, q: bytes, clock: Clock)
    requires Ideal(c) && WellFormed(es) && Fits32(es) && forall j :: 0 <= j < |es| ==> es[j].totpSecret == []
    requires 1 <= version <= 2 && WithinLimits(kdf) && c.kdf(password, salt, kdf).Some?
    ensures var blob := OlderFile(c, es, version, kdf, password, salt, iv);
      && (Unseal(c, blob, q).Ok? <==> q == password)
      && (|blob| <= MAX_FILE ==> Load(c, blob, password, clock) == Ok(es))
  {
    hide HeaderOf, Parse, Body, Deserialized, Fits32, WellFormed;
    var h := HeaderOf(version, kdf, salt, iv);
    var key := c.kdf(password, salt, kdf).value;
    var aad := if version == 1 then [] else h;
    var ct := c.enc(Body(es, version), key, iv, aad);
    ParseHeader(version, kdf, salt, iv, ct);
    BodyRoundTrip(es, version, clock);
    assert c.dec(ct, key, iv, aad) == Some(Body(es, version));
    var other := c.kdf(q, salt, kdf);
    assert other.Some? && c.dec(ct, other.value, iv, aad).Some? ==> other.value == key;
  }

  /** A package unseals with exactly one password, to exactly the body it was made from. */
  lemma UnsealPackage(c: Crypto, es: Entries, password: bytes, salt: Salt, iv: Iv, q: bytes)
    requires Ideal(c)
    ensures Package(c, es, password, salt, iv).Ok?
    ensures Unseal(c, Package(c, es, password, salt, iv).value, q)
         == if q == password then Ok((Body(es, 3), 3)) else Err(WrongPassword)
  {
    hide Header, Body, Parse;
    var h := Header(salt, iv);
    var key := c.kdf(password, salt, DEFAULT_KDF).value;
    var ct := c.enc(Body(es, 3), key, iv, h);
    ParsePackage(salt, iv, ct);
    assert c.kdf(q, salt, DEFAULT_KDF).Some?;
    var other := c.kdf(q, salt, DEFAULT_KDF).value;
    assert c.dec(ct, other, iv, h).Some? ==> other == key;
  }

  /**
   File round trip, with its exact condition. Loading a package under its own password gives
   back the same entries in the same order if and only if the package is at most 500 MiB, the
   limit of `read_file`; a longer package is refused. The 32-bit casts of lengths need no
   hypothesis: a package below the limit has none that truncates.
   */
  lemma FileRoundTrip(c: Crypto, es: Entries, password: bytes, salt: Salt, iv: Iv, clock: Clock)
    requires Ideal(c) && WellFormed(es)
    ensures Package(c, es, password, salt, iv).Ok?
    ensures var blob := Package(c, es, password, salt, iv).value;
      && blob[..HEADER_SIZE] == Header(salt, iv)
      && Load(c, blob, password, clock) == (if |blob| <= MAX_FILE then Ok(es) else Err(FileTooLarge))
  {
    hide Header, Body, Deserialized, Unseal, Fits32;
    UnsealPackage(c, es, password, salt, iv, password);
    var blob := Package(c, es, password, salt, iv).value;
    var key := c.kdf(password, salt, DEFAULT_KDF).value;
    var ct := c.enc(Body(es, 3), key, iv, Header(salt, iv));
    assert blob == Header(salt, iv) + ct;
    assert |ct| >= |Body(es, 3)| + TAG_SIZE;
    if |blob| <= MAX_FILE {
      ShortBodyFits32(es);
      BodyRoundTrip(es, 3, clock);
    }
  }

  /** A vault that is written and never read again: one entry whose password alone has 500 MiB. */
  lemma OversizedVaultIsLost(c: Crypto, password: bytes, salt: Salt, iv: Iv, clock: Clock)
    requires Ideal(c)
    ensures var es := [Entry([0x78], [0x79], seq(MAX_FILE, _ => 65), [], 1)];
      WellFormed(es) && Package(c, es, password, salt, iv).Ok?
      && Load(c, Package(c, es, password, salt, iv).value, password, clock) == Err(FileTooLarge)
  {
    hide Load, Header, Body;
    var es := [Entry([0x78], [0x79], seq(MAX_FILE, _ => 65), [], 1)];
    FileRoundTrip(c, es, password, salt, iv, clock);
    BodyHoldsPassword(es);
    var key := c.kdf(password, salt, DEFAULT_KDF).value;
    var ct := c.enc(Body(es, 3), key, iv, Header(salt, iv));
    assert |ct| >= |Body(es, 3)| + TAG_SIZE;
  }

  lemma BodyHoldsPassword(es: Entries)
    requires es != []
    ensures |Body(es, 3)| >= |es[0].password|
  {
    hide EncEntries;
    EncEntriesLong(es);
  }

  /** Under any other password a package does not load, whatever its size. */
  lemma OtherPasswordFails(c: Crypto, es: Entries, password: bytes, salt: Salt, iv: Iv, q: bytes, clock: Clock)
    requires Ideal(c) && q != password
    ensures Package(c, es, password, salt, iv).Ok?
    ensures Load(c, Package(c, es, password, salt, iv).value, q, clock).Err?
  {
    hide Package, Unseal;
    UnsealPackage(c, es, password, salt, iv, q);
  }

  /** The whole header is authenticated: no other 48 bytes in front of the ciphertext load under any password. */
  lemma HeaderIsAuthenticated(
      c: Crypto, es: Entries, password: bytes, salt: Salt, iv: Iv, forged: bytes, q: bytes, clock: Clock)
    requires Ideal(c)
    requires |forged| == HEADER_SIZE && forged != Header(salt, iv)
    ensures Package(c, es, password, salt, iv).Ok?
    ensures Load(c, forged + Package(c, es, password, salt, iv).value[HEADER_SIZE..], q, clock).Err?
  {
    hide Header, Body, Field;
    var h := Header(salt, iv);
    var key := c.kdf(password, salt, DEFAULT_KDF).value;
    var ct := c.enc(Body(es, 3), key, iv, h);
    assert Package(c, es, password, salt, iv).value[HEADER_SIZE..] == ct;
    var blob := forged + ct;
    assert blob[..HEADER_SIZE] == forged && blob[HEADER_SIZE..] == ct;
    var r := Parse(blob);
    if r.Ok? {
      var p := r.value;
      assert p.aad != h;
      assert forall l :: c.dec(ct, l, p.iv, p.aad).Some? ==> p.aad == h;
    }
  }

  // ---------------------------------------------------------------------------------
  // The idealisation is consistent: here is a cipher that satisfies it.
  // ---------------------------------------------------------------------------------

  function Escaped(x: bytes): (r: bytes) {
    if x == [] then [0] else [1, x[0]] + Escaped(x[1..])
  }

  lemma {:induction false} EscapedIsPrefixFree(x: bytes, y: bytes, u: bytes, v: bytes)
    requires Escaped(x) + u == Escaped(y) + v
    ensures x == y && u == v
  {
    var l, r := Escaped(x) + u, Escaped(y) + v;
    assert l[0] == r[0];
    if x == [] {
      assert y == [];
      assert l[1..] == u && r[1..] == v;
    } else {
      assert y != [];
      assert l[1] == x[0] && r[1] == y[0];
      assert l[2..] == Escaped(x[1..]) + u && r[2..] == Escaped(y[1..]) + v;
      EscapedIsPrefixFree(x[1..], y[1..], u, v);
      assert x == [x[0]] + x[1..] && y == [y[0]] + y[1..];
    }
  }

  function Label(k: bytes, v: bytes, a: bytes): (r: bytes) {
    Escaped(k) + (Escaped(v) + Escaped(a))
  }

  lemma LabelIsPrefixFree(k: bytes, v: bytes, a: bytes, l: bytes, w: bytes, b: bytes, t: bytes, u: bytes)
    requires Label(k, v, a) + t == Label(l, w, b) + u
    ensures k == l && v == w && a == b && t == u
  {
    hide Escaped;
    Assoc(Escaped(k), Escaped(v) + Escaped(a), t);
    Assoc(Escaped(v), Escaped(a), t);
    Assoc(Escaped(l), Escaped(w) + Escaped(b), u);
    Assoc(Escaped(w), Escaped(b), u);
    EscapedIsPrefixFree(k, l, Escaped(v) + (Escaped(a) + t), Escaped(w) + (Escaped(b) + u));
    EscapedIsPrefixFree(v, w, Escaped(a) + t, Escaped(b) + u);
    EscapedIsPrefixFree(a, b, t, u);
  }

  const ZERO_TAG: bytes := [0, 0, 0, 0, 0, 0, 0, 0, 0, 0, 0, 0, 0, 0, 0, 0]

  function LabelledEnc(t: bytes, k: bytes, v: bytes, a: bytes): (r: bytes)
    ensures |r| >= |t| + TAG_SIZE
  {
    ZERO_TAG + (Label(k, v, a) + t)
  }

  function LabelledDec(ct: bytes, k: bytes, v: bytes, a: bytes): (r: Option<bytes>) {
    var n := TAG_SIZE + |Label(k, v, a)|;
    if n <= |ct| && ct[TAG_SIZE..n] == Label(k, v, a) then Some(ct[n..]) else None
  }

  function Labelled(): Crypto {
    Crypto((p, s, d) => Some(p), LabelledEnc, LabelledDec)
  }

  lemma LabelledOpens(t: bytes, k: bytes, v: bytes, a: bytes)
    ensures LabelledDec(LabelledEnc(t, k, v, a), k, v, a) == Some(t)
  {
    hide Label;
    var ct, n := LabelledEnc(t, k, v, a), TAG_SIZE + |Label(k, v, a)|;
    assert ct[TAG_SIZE..n] == Label(k, v, a) && ct[n..] == t;
  }

  lemma LabelledAuthenticates(t: bytes, k: bytes, v: bytes, a: bytes, l: bytes, w: bytes, b: bytes)
    requires LabelledDec(LabelledEnc(t, k, v, a), l, w, b).Some?
    ensures l == k && w == v && b == a
  {
    hide Label;
    var ct := LabelledEnc(t, k, v, a);
    var n := TAG_SIZE + |Label(l, w, b)|;
    assert ct[TAG_SIZE..] == Label(k, v, a) + t;
    assert ct[TAG_SIZE..] == Label(l, w, b) + ct[n..];
    LabelIsPrefixFree(k, v, a, l, w, b, t, ct[n..]);
  }

  /** The assumptions about the cipher can be met. */
  lemma IdealIsInhabited()
    ensures Ideal(Labelled())
  {
    hide LabelledEnc, LabelledDec;
    forall t, k, v, a ensures LabelledDec(LabelledEnc(t, k, v, a), k, v, a) == Some(t) {
      LabelledOpens(t, k, v, a);
    }
    forall t, k, v, a, l, w, b | LabelledDec(LabelledEnc(t, k, v, a), l, w, b).Some?
      ensures l == k && w == v && b == a
    {
      LabelledAuthenticates(t, k, v, a, l, w, b);
    }
  }

  lemma LabelledSize(es: Entries, password: bytes, salt: Salt, iv: Iv)
    ensures Package(Labelled(), es, password, salt, iv).Ok?
    ensures |Package(Labelled(), es, password, salt, iv).value| == 187 + 2 * |password| + |Body(es, 3)|
  {
    hide Body, Escaped, Header;
    EscapedSize(password);
    EscapedSize(iv);
    EscapedSize(Header(salt, iv));
  }

  lemma {:induction false} EscapedSize(x: bytes)
    ensures |Escaped(x)| == 2 * |x| + 1
  {
    if x != [] {
      EscapedSize(x[1..]);
    }
  }

  // ---------------------------------------------------------------------------------
  // The procedures of src/vault.cpp.
  // ---------------------------------------------------------------------------------

  method SerializeAndEncrypt(c: Crypto, entries: Entries, password: bytes, salt: Salt, iv: Iv)
    returns (r: Result<bytes, Failure>)
    ensures r == Package(c, entries, password, salt, iv)
  {
    var plain := Serialize(entries);
    var header := new Buffer();
    header.data := MAGIC;
    header.WriteUint32(3);
    header.WriteUint32(DEFAULT_KDF.timeCost);
    header.WriteUint32(DEFAULT_KDF.memoryCost);
    header.WriteUint32(DEFAULT_KDF.parallelism);
    header.data := header.data + salt;
    header.data := header.data + iv;
    var key := c.kdf(password, salt, DEFAULT_KDF);
    if key.None? {
      return Err(CryptoFailure);
    }
    r := Ok(header.data + c.enc(plain, key.value, iv, header.data));
  }

  method LoadVault(c: Crypto, blob: bytes, password: bytes, clock: Clock) returns (r: Result<Entries, Failure>)
    ensures r == Load(c, blob, password, clock)
  {
    hide Deserialized;
    if |blob| > MAX_FILE {
      return Err(FileTooLarge);
    }
    if |blob| < HEADER_SIZE + TAG_SIZE {
      return Err(Truncated);
    }
    if blob[0] != 0x44 || blob[1] != 0x55 || blob[2] != 0x43 || blob[3] != 0x4B {
      assert blob[..4][0] == blob[0] && blob[..4][1] == blob[1] && blob[..4][2] == blob[2] && blob[..4][3] == blob[3];
      return Err(NotAVault);
    }
    assert blob[..4] == MAGIC;
    var version := ReadUint32(blob, 4);
    if version.value != 1 && version.value != 2 && version.value != 3 {
      return Err(UnsupportedVersion);
    }
    var aad := if version.value >= 2 then blob[..HEADER_SIZE] else [];
    var time := ReadUint32(blob, version.next);
    var memory := ReadUint32(blob, time.next);
    var parallelism := ReadUint32(blob, memory.next);
    if memory.value > 1024 * 1024 || time.value > 100 || parallelism.value > 64 {
      return Err(KdfLimits);
    }
    var params := KdfParams(time.value, memory.value, parallelism.value);
    match c.kdf(password, blob[20..36], params) {
      case None => r := Err(CryptoFailure);
      case Some(key) =>
        match c.dec(blob[48..], key, blob[36..48], aad) {
          case None => r := Err(WrongPassword);
          case Some(plain) =>
            var es := Deserialize(plain, version.value, clock);
            r := if es.None? then Err(MalformedBody) else Ok(es.value);
        }
    }
  }
}
