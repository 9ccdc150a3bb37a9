/**
 The plaintext body of a vault file (src/vault.cpp): a count, then per entry three
 length-prefixed strings, a 64-bit timestamp and, since version 3, the TOTP secret.
 */
module VaultFormat {
  import opened Prelude
  import opened Arith
  import opened Endian
  import opened Slices
  import opened Vaults

  // ---------------------------------------------------------------------------------
  // The format, as a function of the entries.
  // ---------------------------------------------------------------------------------

  /** A string is stored as its length, cast to 32 bits, and its bytes. */
  function EncString(s: bytes): (b: bytes)
    ensures |b| == 4 + |s|
  {
    Le(Low32(|s|), 4) + s
  }

  /** One entry; bodies older than version 3 have no TOTP secret. */
  function EncEntry(e: Entry, version: u32): (b: bytes)
    ensures |b| >= 20 + |e.service| + |e.username| + |e.password|
    ensures version >= 3 ==> |b| >= 24 + |e.service| + |e.username| + |e.password| + |e.totpSecret|
  {
    EncString(e.service) + (EncString(e.username)
        + (EncString(e.password) + EncTail(e.lastUpdated, e.totpSecret, version)))
  }

  function EncTail(stamp: u64, secret: bytes, version: u32): (b: bytes)
    ensures |b| == 8 + if version >= 3 then 4 + |secret| else 0
  {
    Le(stamp, 8) + if version >= 3 then EncString(secret) else []
  }

  function EncEntries(es: Entries, version: u32): (b: bytes) {
    if es == [] then [] else EncEntry(es[0], version) + EncEntries(es[1..], version)
  }

  function Body(es: Entries, version: u32): (b: bytes) {
    Le(Low32(|es|), 4) + EncEntries(es, version)
  }

  /** Every length that is stored in 32 bits fits in 32 bits. */
  ghost predicate Fits32(es: Entries) {
    && |es| < 0x1_0000_0000
    && forall i :: 0 <= i < |es| ==> EntryFits32(es[i])
  }

  ghost predicate EntryFits32(e: Entry) {
    && |e.service| < 0x1_0000_0000
    && |e.username| < 0x1_0000_0000
    && |e.password| < 0x1_0000_0000
    && |e.totpSecret| < 0x1_0000_0000
  }

  // ---------------------------------------------------------------------------------
  // The tolerant reader, as a function of the bytes. `next` is the offset after a read.
  // ---------------------------------------------------------------------------------

  datatype Read<+T> = Malformed | Read(value: T, next: nat)

  function ReadU32(b: bytes, o: nat): (r: Read<u32>) {
    if o + 4 > |b| then Malformed
    else FromLeBound(b[o..o + 4]); Widths(); Read(FromLe(b[o..o + 4]), o + 4)
  }

  function ReadU64(b: bytes, o: nat): (r: Read<u64>)
    ensures o + 8 <= |b| ==> r.Read? && r.next == o + 8
  {
    if o + 8 > |b| then Malformed
    else FromLeBound(b[o..o + 8]); Widths(); Read(FromLe(b[o..o + 8]), o + 8)
  }

  function ReadString(b: bytes, o: nat): (r: Read<bytes>)
    ensures r.Read? ==> o + 4 <= r.next <= |b|
  {
    match ReadU32(b, o)
    case Malformed => Malformed
    case Read(len, p) => if |b| - p < len then Malformed else Read(b[p..p + len], p + len)
  }

  /** The timestamp and the secret are optional at the end of the data. */
  function ReadTail(b: bytes, o: nat, version: u32): (r: Read<(u64, bytes)>) {
    var (stamp, p) := if o + 8 <= |b| then (ReadU64(b, o).value, o + 8) else (0, o);
    if version >= 3 && p + 4 <= |b| then
      match ReadString(b, p)
      case Malformed => Malformed
      case Read(t, q) => Read((stamp, t), q)
    else Read((stamp, []), p)
  }

  function ReadEntry(b: bytes, o: nat, version: u32): (r: Read<Entry>) {
    match ReadString(b, o)
    case Malformed => Malformed
    case Read(s, o1) =>
      match ReadString(b, o1)
      case Malformed => Malformed
      case Read(u, o2) =>
        match ReadString(b, o2)
        case Malformed => Malformed
        case Read(p, o3) =>
          match ReadTail(b, o3, version)
          case Malformed => Malformed
          case Read((stamp, t), o4) => Read(Entry(s, u, p, t, stamp), o4)
  }

  /** Read entries `i..n` from offset `o` and add each to `acc`. */
  function ReadEntries(b: bytes, o: nat, i: nat, n: nat, version: u32, acc: Entries, clock: Clock): (r: Option<Entries>)
    decreases n - i
  {
    if i >= n then Some(acc)
    else
      match ReadEntry(b, o, version)
      case Malformed => None
      case Read(e, p) => ReadEntries(b, p, i + 1, n, version, Put(acc, Stamped(e, clock(i))), clock)
  }

  function Deserialized(b: bytes, version: u32, clock: Clock): (r: Option<Entries>) {
    if b == [] then Some([])
    else
      match ReadU32(b, 0)
      case Malformed => None
      case Read(n, o) => ReadEntries(b, o, 0, n, version, [], clock)
  }

  // ---------------------------------------------------------------------------------
  // Decoding arbitrary bytes.
  // ---------------------------------------------------------------------------------

  lemma {:induction false} ReadEntriesWellFormed(
    b: bytes, o: nat, i: nat, n: nat, version: u32, acc: Entries, clock: Clock)
    requires WellFormed(acc)
    ensures var r := ReadEntries(b, o, i, n, version, acc, clock); r.Some? ==> WellFormed(r.value)
    decreases n - i
  {
    if i < n {
      var r := ReadEntry(b, o, version);
      if r.Read? {
        var e := Stamped(r.value, clock(i));
        PutWellFormed(acc, e);
        ReadEntriesWellFormed(b, r.next, i + 1, n, version, Put(acc, e), clock);
      }
    }
  }

  /** Whatever the bytes and the version, the result is a rejection or a well-formed vault. */
  lemma ArbitraryBytesAreSafe(b: bytes, version: u32, clock: Clock)
    ensures var r := Deserialized(b, version, clock); r.Some? ==> WellFormed(r.value)
  {
    var r := ReadU32(b, 0);
    if r.Read? {
      ReadEntriesWellFormed(b, r.next, 0, r.value, version, [], clock);
    }
  }

  // ---------------------------------------------------------------------------------
  // Round trip.
  // ---------------------------------------------------------------------------------

  lemma ReadStringAt(b: bytes, o: nat, s: bytes)
    requires Stands(b, o, EncString(s)) && |s| < 0x1_0000_0000
    ensures ReadString(b, o) == Read(s, o + 4 + |s|)
  {
    StandsSplit(b, o, Le(|s|, 4), s);
    Widths();
    LeRoundTrip(|s|, 4);
  }

  /** A string is read exactly where one was written: what is cut short, or announced too long, is rejected. */
  lemma ReadStringExactly(b: bytes, o: nat, s: bytes, next: nat)
    requires |s| < 0x1_0000_0000
    ensures ReadString(b, o) == Read(s, next) <==> Stands(b, o, EncString(s)) && next == o + 4 + |s|
  {
    if Stands(b, o, EncString(s)) {
      ReadStringAt(b, o, s);
    }
    if ReadString(b, o) == Read(s, next) {
      LeUnique(b[o..o + 4]);
      Low32Exact(|s|);
      hide Le, FromLe, Low32;
      assert b[o..o + 4 + |s|] == b[o..o + 4] + b[o + 4..o + 4 + |s|];
    }
  }

  lemma ReadTailAt(b: bytes, o: nat, stamp: u64, t: bytes, version: u32)
    requires Stands(b, o, EncTail(stamp, t, version))
    requires |t| < 0x1_0000_0000 && (version < 3 ==> t == [])
    ensures ReadTail(b, o, version) == Read((stamp, t), o + 8 + if version >= 3 then 4 + |t| else 0)
  {
    var rest := if version >= 3 then EncString(t) else [];
    StandsSplit(b, o, Le(stamp, 8), rest);
    Widths();
    LeRoundTrip(stamp, 8);
    if version >= 3 {
      ReadStringAt(b, o + 8, t);
    }
  }

  lemma ReadEntryAt(b: bytes, o: nat, e: Entry, version: u32)
    requires Stands(b, o, EncEntry(e, version)) && EntryFits32(e)
    requires version < 3 ==> e.totpSecret == []
    ensures ReadEntry(b, o, version) == Read(e, o + |EncEntry(e, version)|)
  {
    hide EncString, EncTail, ReadString, ReadTail, Stands;
    var s, u, p := EncString(e.service), EncString(e.username), EncString(e.password);
    var tail := EncTail(e.lastUpdated, e.totpSecret, version);
    StandsSplit(b, o, s, u + (p + tail));
    StandsSplit(b, o + |s|, u, p + tail);
    StandsSplit(b, o + |s| + |u|, p, tail);
    ReadStringAt(b, o, e.service);
    ReadStringAt(b, o + |s|, e.username);
    ReadStringAt(b, o + |s| + |u|, e.password);
    ReadTailAt(b, o + |s| + |u| + |p|, e.lastUpdated, e.totpSecret, version);
  }

  lemma {:induction false} ReadEntriesAt(b: bytes, o: nat, i: nat, es: Entries, version: u32, clock: Clock)
    requires i <= |es| && Stands(b, o, EncEntries(es[i..], version))
    requires WellFormed(es) && Fits32(es)
    requires version < 3 ==> forall j :: 0 <= j < |es| ==> es[j].totpSecret == []
    ensures ReadEntries(b, o, i, |es|, version, es[..i], clock) == Some(es)
    decreases |es| - i
  {
    hide EncEntry, ReadEntry, Stands, Put;
    if i == |es| {
      assert es[..i] == es;
    } else {
      assert es[i..][1..] == es[i + 1..];
      StandsSplit(b, o, EncEntry(es[i], version), EncEntries(es[i + 1..], version));
      ReadEntryAt(b, o, es[i], version);
      PutFresh(es[..i], es[i]);
      assert es[..i] + [es[i]] == es[..i + 1];
      ReadEntriesAt(b, o + |EncEntry(es[i], version)|, i + 1, es, version, clock);
    }
  }

  /** Reading a written body gives back exactly the entries, in order; whatever follows is ignored. */
  lemma BodyRoundTrip(es: Entries, version: u32, clock: Clock)
    requires WellFormed(es) && Fits32(es)
    requires version < 3 ==> forall j :: 0 <= j < |es| ==> es[j].totpSecret == []
    ensures Deserialized(Body(es, version), version, clock) == Some(es)
  {
    hide EncEntries, ReadEntries, Le, FromLe;
    var b := Body(es, version);
    assert Stands(b, 0, Le(|es|, 4) + EncEntries(es, version));
    StandsSplit(b, 0, Le(|es|, 4), EncEntries(es, version));
    Widths();
    LeRoundTrip(|es|, 4);
    assert es[0..] == es && es[..0] == [];
    ReadEntriesAt(b, 4, 0, es, version, clock);
  }

  /** Entries `i` and on, added one after the other. */
  function Gathered(es: Entries, i: nat, acc: Entries, clock: Clock): (r: Entries)
    decreases |es| - i
  {
    if i >= |es| then acc else Gathered(es, i + 1, Put(acc, Stamped(es[i], clock(i))), clock)
  }

  lemma {:induction false} ReadEntriesGather(
      b: bytes, o: nat, i: nat, es: Entries, version: u32, acc: Entries, clock: Clock)
    requires i <= |es| && Stands(b, o, EncEntries(es[i..], version)) && Fits32(es)
    requires version < 3 ==> forall j :: 0 <= j < |es| ==> es[j].totpSecret == []
    ensures ReadEntries(b, o, i, |es|, version, acc, clock) == Some(Gathered(es, i, acc, clock))
    decreases |es| - i
  {
    hide EncEntry, ReadEntry, Stands, Put, Stamped;
    if i < |es| {
      assert es[i..][1..] == es[i + 1..];
      StandsSplit(b, o, EncEntry(es[i], version), EncEntries(es[i + 1..], version));
      ReadEntryAt(b, o, es[i], version);
      var next := o + |EncEntry(es[i], version)|;
      ReadEntriesGather(b, next, i + 1, es, version, Put(acc, Stamped(es[i], clock(i))), clock);
    }
  }

  /** What is read from a body with undated entries or repeated services: each is dated and added in turn. */
  lemma AnyBodyReads(es: Entries, version: u32, clock: Clock)
    requires Fits32(es) && (version < 3 ==> forall j :: 0 <= j < |es| ==> es[j].totpSecret == [])
    ensures Deserialized(Body(es, version), version, clock) == Some(Gathered(es, 0, [], clock))
  {
    hide EncEntries, ReadEntries, Le, FromLe;
    var b := Body(es, version);
    assert Stands(b, 0, Le(|es|, 4) + EncEntries(es, version));
    StandsSplit(b, 0, Le(|es|, 4), EncEntries(es, version));
    Widths();
    LeRoundTrip(|es|, 4);
    assert es[0..] == es;
    ReadEntriesGather(b, 4, 0, es, version, [], clock);
  }

  /** Of entries with the same service the last one counts. */
  lemma {:induction false} LastEntryCounts(es: Entries, i: nat, acc: Entries, clock: Clock, j: nat)
    requires i <= j < |es| && forall m :: j < m < |es| ==> es[m].service != es[j].service
    ensures Find(Gathered(es, i, acc, clock), es[j].service) == Some(Stamped(es[j], clock(j)))
    decreases |es| - i
  {
    hide Find, Put;
    var next := Put(acc, Stamped(es[i], clock(i)));
    if i < j {
      LastEntryCounts(es, i + 1, next, clock, j);
    } else {
      PutFind(acc, Stamped(es[i], clock(i)), es[j].service);
      LaterEntriesElsewhere(es, j + 1, next, clock, es[j].service);
    }
  }

  lemma {:induction false} LaterEntriesElsewhere(es: Entries, i: nat, acc: Entries, clock: Clock, s: bytes)
    requires forall m :: i <= m < |es| ==> es[m].service != s
    ensures Find(Gathered(es, i, acc, clock), s) == Find(acc, s)
    decreases |es| - i
  {
    hide Find, Put;
    if i < |es| {
      PutFind(acc, Stamped(es[i], clock(i)), s);
      LaterEntriesElsewhere(es, i + 1, Put(acc, Stamped(es[i], clock(i))), clock, s);
    }
  }

  /** The bytes of one entry that ends after its `rest`: three strings, and what follows them. */
  function OneEntry(s: bytes, u: bytes, rest: bytes): bytes {
    Le(1, 4) + (EncString(s) + (EncString(u) + rest))
  }

  /** At the end of the data the date may be missing, and with it the secret: the entry is dated now. */
  lemma MissingDateIsForgiven(s: bytes, u: bytes, p: bytes, version: u32, clock: Clock)
    requires |s| < 0x1_0000_0000 && |u| < 0x1_0000_0000 && |p| < 0x1_0000_0000
    ensures Deserialized(OneEntry(s, u, EncString(p)), version, clock) == Some([Entry(s, u, p, [], clock(0))])
  {
    var b := OneEntry(s, u, EncString(p));
    hide EncString, ReadString, ReadU64, ReadU32, Stands, Deserialized;
    ShortEntry(EncString(s) + (EncString(u) + EncString(p)), EncString(p), s, u);
    CountIsOne(EncString(s) + (EncString(u) + EncString(p)));
    assert EncString(p) + [] == EncString(p);
    ThirdString(b, 12 + |s| + |u|, p, []);
    OneEntryReads(b, Entry(s, u, p, [], 0), |b|, version, clock);
  }

  /** The secret alone may be missing, in version 3 too. */
  lemma MissingSecretIsForgiven(s: bytes, u: bytes, p: bytes, stamp: Instant, version: u32, clock: Clock)
    requires |s| < 0x1_0000_0000 && |u| < 0x1_0000_0000 && |p| < 0x1_0000_0000
    ensures Deserialized(OneEntry(s, u, EncString(p) + Le(stamp, 8)), version, clock)
         == Some([Entry(s, u, p, [], stamp)])
  {
    var rest := EncString(p) + Le(stamp, 8);
    var b := OneEntry(s, u, rest);
    hide EncString, ReadString, ReadU64, ReadU32, Stands, Deserialized;
    ShortEntry(EncString(s) + (EncString(u) + rest), rest, s, u);
    CountIsOne(EncString(s) + (EncString(u) + rest));
    ThirdString(b, 12 + |s| + |u|, p, Le(stamp, 8));
    DateAtEnd(b, |b| - 8, stamp);
    OneEntryReads(b, Entry(s, u, p, [], stamp), |b|, version, clock);
  }

  /** A missing string or a missing entry is not forgiven; no data at all are an empty vault. */
  lemma MissingStringIsRejected(s: bytes, u: bytes, version: u32, clock: Clock)
    requires |s| < 0x1_0000_0000 && |u| < 0x1_0000_0000
    ensures Deserialized(OneEntry(s, u, []), version, clock) == None
    ensures Deserialized([], version, clock) == Some([])
  {
    hide EncString, ReadString, ReadU32, Stands;
    ShortEntry(EncString(s) + (EncString(u) + []), [], s, u);
    CountIsOne(EncString(s) + (EncString(u) + []));
    NoString(OneEntry(s, u, []));
  }

  lemma OneEntryReads(b: bytes, e: Entry, next: nat, version: u32, clock: Clock)
    requires b != [] && ReadU32(b, 0) == Read(1, 4) && ReadEntry(b, 4, version) == Read(e, next)
    ensures Deserialized(b, version, clock) == Some([Stamped(e, clock(0))])
  {
    hide ReadU32, ReadEntry;
    var e' := Stamped(e, clock(0));
    assert Put([], e') == [e'];
    assert ReadEntries(b, next, 1, 1, version, [e'], clock) == Some([e']);
  }

  lemma CountIsOne(rest: bytes)
    ensures ReadU32(Le(1, 4) + rest, 0) == Read(1, 4)
  {
    Widths();
    LeRoundTrip(1, 4);
    hide Le, FromLe;
    assert (Le(1, 4) + rest)[0..4] == Le(1, 4);
  }

  lemma ShortEntry(body: bytes, rest: bytes, s: bytes, u: bytes)
    requires body == EncString(s) + (EncString(u) + rest) && |s| < 0x1_0000_0000 && |u| < 0x1_0000_0000
    ensures var b := Le(1, 4) + body;
      && ReadString(b, 0 + 4) == Read(s, 8 + |s|) && ReadString(b, 8 + |s|) == Read(u, 12 + |s| + |u|)
      && |b| == 12 + |s| + |u| + |rest|
      && Stands(b, 12 + |s| + |u|, rest)
  {
    hide Le, EncString, ReadString;
    var b := Le(1, 4) + body;
    assert b[4..] == body;
    assert Stands(b, 4, body);
    StandsSplit(b, 4, EncString(s), EncString(u) + rest);
    StandsSplit(b, 8 + |s|, EncString(u), rest);
    ReadStringAt(b, 4, s);
    ReadStringAt(b, 8 + |s|, u);
  }

  lemma ThirdString(b: bytes, o: nat, p: bytes, rest: bytes)
    requires Stands(b, o, EncString(p) + rest) && |p| < 0x1_0000_0000
    ensures ReadString(b, o) == Read(p, o + 4 + |p|) && Stands(b, o + 4 + |p|, rest)
  {
    StandsSplit(b, o, EncString(p), rest);
    ReadStringAt(b, o, p);
  }

  lemma NoString(b: bytes)
    ensures ReadString(b, |b|) == Malformed
  {
  }

  lemma DateAtEnd(b: bytes, o: nat, stamp: u64)
    requires Stands(b, o, Le(stamp, 8)) && o + 8 == |b|
    ensures ReadU64(b, o) == Read(stamp, |b|)
  {
    Widths();
    LeRoundTrip(stamp, 8);
    hide Le, FromLe;
    assert b[o..o + 8] == b[o..];
  }

  /** A version-2 body, written before there were secrets, decodes to the same entries with empty secrets. */
  lemma Version2RoundTrip(es: Entries, clock: Clock)
    requires WellFormed(es) && Fits32(es)
    ensures Deserialized(Body(es, 2), 2, clock) == Some(WithoutSecrets(es))
  {
    var fs := WithoutSecrets(es);
    EncWithoutSecrets(es);
    BodyRoundTrip(fs, 2, clock);
  }

  function WithoutSecrets(es: Entries): (r: Entries)
    ensures |r| == |es|
    ensures forall i :: 0 <= i < |es| ==> r[i] == es[i].(totpSecret := [])
  {
    if es == [] then [] else [es[0].(totpSecret := [])] + WithoutSecrets(es[1..])
  }

  lemma {:induction false} EncWithoutSecrets(es: Entries)
    ensures EncEntries(WithoutSecrets(es), 2) == EncEntries(es, 2)
  {
    if es != [] {
      EncWithoutSecrets(es[1..]);
      assert WithoutSecrets(es)[1..] == WithoutSecrets(es[1..]);
    }
  }

  /** The bytes of a small vault of each version. */
  lemma BodyExample()
    ensures var e := Entry([0x73], [0x75], [0x70, 0x77], [0x74], 7);
      && Body([e], 3) == [1, 0, 0, 0] + (([1, 0, 0, 0] + [0x73]) + (([1, 0, 0, 0] + [0x75])
           + (([2, 0, 0, 0] + [0x70, 0x77]) + ([7, 0, 0, 0, 0, 0, 0, 0] + ([1, 0, 0, 0] + [0x74])))))
      && Body([e], 2) == [1, 0, 0, 0] + (([1, 0, 0, 0] + [0x73]) + (([1, 0, 0, 0] + [0x75])
           + (([2, 0, 0, 0] + [0x70, 0x77]) + [7, 0, 0, 0, 0, 0, 0, 0])))
  {
    var e := Entry([0x73], [0x75], [0x70, 0x77], [0x74], 7);
    LeSmall(1, 4);
    LeSmall(2, 4);
    LeSmall(7, 8);
    Low32Exact(1);
    Low32Exact(2);
    hide Le, Low32;
    assert Le(1, 4) == [1, 0, 0, 0] && Le(2, 4) == [2, 0, 0, 0] && Le(7, 8) == [7, 0, 0, 0, 0, 0, 0, 0];
    assert Le(7, 8) + [] == Le(7, 8);
    SingleEntry(e, 3);
    SingleEntry(e, 2);
    hide EncEntries;
  }

  lemma SingleEntry(e: Entry, version: u32)
    ensures EncEntries([e], version) == EncEntry(e, version)
  {
    hide EncEntry;
    assert EncEntries([e], version) == EncEntry(e, version) + EncEntries([e][1..], version);
    assert EncEntry(e, version) + [] == EncEntry(e, version);
  }

  /** Nothing that is stored is longer than the body: a short body has no truncated length. */
  lemma {:induction false} EncEntriesLong(es: Entries)
    ensures |EncEntries(es, 3)| >= 24 * |es|
    ensures forall i :: 0 <= i < |es| ==>
      |EncEntries(es, 3)| >= |es[i].service| + |es[i].username| + |es[i].password| + |es[i].totpSecret|
  {
    if es != [] {
      EncEntriesLong(es[1..]);
      forall i | 1 <= i < |es| ensures
        |EncEntries(es, 3)| >= |es[i].service| + |es[i].username| + |es[i].password| + |es[i].totpSecret|
      {
        assert es[i] == es[1..][i - 1];
      }
    }
  }

  lemma ShortBodyFits32(es: Entries)
    requires |Body(es, 3)| < 0x1_0000_0000
    ensures Fits32(es)
  {
    EncEntriesLong(es);
  }

  // ---------------------------------------------------------------------------------
  // The procedures of src/vault.cpp, which push into a buffer or advance an offset.
  // ---------------------------------------------------------------------------------

  function Word(b0: byte, b1: byte, b2: byte, b3: byte): (w: u32) {
    b0 as int + 256 * b1 as int + 65536 * b2 as int + 16777216 * b3 as int
  }

  lemma FromLeDigits4(b: bytes)
    requires |b| == 4
    ensures FromLe(b) == Word(b[0], b[1], b[2], b[3])
  {
    assert FromLe(b[1..]) == b[1] + 256 * FromLe(b[1..][1..]);
    assert FromLe(b[1..][1..]) == b[2] + 256 * FromLe(b[1..][1..][1..]);
    assert FromLe(b[1..][1..][1..]) == b[3];
  }

  lemma {:induction false} LeSnoc(v: nat, k: nat)
    ensures Le(v, k + 1) == Le(v, k) + [v / Pow256(k) % 256]
  {
    if k > 0 {
      LeSnoc(v / 256, k - 1);
      DivDiv(v, 256, Pow256(k - 1));
    }
  }

  lemma LeDigits4(v: nat)
    ensures Le(v, 4) == [v % 256, v / 256 % 256, v / 65536 % 256, v / 16777216 % 256]
  {
    assert Pow256(1) == 256 && Pow256(2) == 65536 && Pow256(3) == 256 * Pow256(2);
    LeSnoc(v, 0);
    LeSnoc(v, 1);
    LeSnoc(v, 2);
    LeSnoc(v, 3);
    hide Le, Pow256;
    assert Le(v, 2) == [v % 256, v / 256 % 256];
    assert Le(v, 3) == [v % 256, v / 256 % 256, v / 65536 % 256];
  }

  lemma {:induction false} FromLeSnoc(b: bytes, x: byte)
    ensures FromLe(b + [x]) == FromLe(b) + Pow256(|b|) * x
  {
    if b == [] {
      assert FromLe([x]) == x;
    } else {
      FromLeSnoc(b[1..], x);
      assert (b + [x])[1..] == b[1..] + [x];
      assert 256 * (Pow256(|b| - 1) * x) == Pow256(|b|) * x;
    }
  }

  /** The growing `SecureBytes` that the writers append to. */
  class Buffer {
    var data: bytes

    constructor ()
      ensures data == []
    {
      data := [];
    }

    method WriteUint32(value: u32)
      modifies this
      ensures data == old(data) + Le(value, 4)
    {
      LeDigits4(value);
      data := data + [value % 256];
      data := data + [value / 256 % 256];
      data := data + [value / 65536 % 256];
      data := data + [value / 16777216 % 256];
    }

    method WriteUint64(value: u64)
      modifies this
      ensures data == old(data) + Le(value, 8)
    {
      var i: nat, shift: nat := 0, 1;
      while i < 8
        invariant 0 <= i <= 8 && shift == Pow256(i)
        invariant data == old(data) + Le(value, i)
      {
        LeSnoc(value, i);
        data := data + [value / shift % 256];
        i, shift := i + 1, 256 * shift;
      }
    }

    method WriteString(s: bytes)
      modifies this
      ensures data == old(data) + EncString(s)
    {
      WriteUint32(Low32(|s|));
      data := data + s;
    }
  }

  lemma Regroup(x: bytes, s: bytes, u: bytes, p: bytes, l: bytes, t: bytes)
    ensures x + s + u + p + l + t == x + (s + (u + (p + (l + t))))
  {
    Assoc(x + s + u + p, l, t);
    Assoc(x + s + u, p, l + t);
    Assoc(x + s, u, p + (l + t));
    Assoc(x, s, u + (p + (l + t)));
  }

  method Serialize(entries: Entries) returns (r: bytes)
    ensures r == Body(entries, 3)
  {
    var buffer := new Buffer();
    buffer.WriteUint32(Low32(|entries|));
    var i := 0;
    while i < |entries|
      invariant 0 <= i <= |entries|
      invariant buffer.data + EncEntries(entries[i..], 3) == Body(entries, 3)
    {
      var e := entries[i];
      ghost var before := buffer.data;
      buffer.WriteString(e.service);
      buffer.WriteString(e.username);
      buffer.WriteString(e.password);
      buffer.WriteUint64(e.lastUpdated);
      buffer.WriteString(e.totpSecret);
      Regroup(before, EncString(e.service), EncString(e.username), EncString(e.password),
              Le(e.lastUpdated, 8), EncString(e.totpSecret));
      assert entries[i..][1..] == entries[i + 1..];
      Assoc(before, EncEntry(e, 3), EncEntries(entries[i + 1..], 3));
      i := i + 1;
    }
    r := buffer.data;
  }

  method ReadUint32(b: bytes, offset: nat) returns (r: Read<u32>)
    ensures r == ReadU32(b, offset)
  {
    if offset + 4 > |b| {
      return Malformed;
    }
    FromLeDigits4(b[offset..offset + 4]);
    var value := Word(b[offset], b[offset + 1], b[offset + 2], b[offset + 3]);
    r := Read(value, offset + 4);
  }

  method ReadUint64(b: bytes, offset: nat) returns (r: Read<u64>)
    ensures r == ReadU64(b, offset)
  {
    if offset + 8 > |b| {
      return Malformed;
    }
    var value: nat, i: nat, shift: nat := 0, 0, 1;
    while i < 8
      invariant 0 <= i <= 8 && shift == Pow256(i)
      invariant value == FromLe(b[offset..offset + i])
    {
      FromLeSnoc(b[offset..offset + i], b[offset + i]);
      assert b[offset..offset + i + 1] == b[offset..offset + i] + [b[offset + i]];
      value := value + shift * b[offset + i];
      i, shift := i + 1, 256 * shift;
    }
    FromLeBound(b[offset..offset + 8]);
    Widths();
    r := Read(value, offset + 8);
  }

  method ReadStr(b: bytes, offset: nat) returns (r: Read<bytes>)
    ensures r == ReadString(b, offset)
  {
    var len := ReadUint32(b, offset);
    if len.Malformed? || |b| - len.next < len.value {
      return Malformed;
    }
    r := Read(b[len.next..len.next + len.value], len.next + len.value);
  }

  /** `Vault::deserialize`: every read is in range, the loop ends, and the result is the specified one. */
  method Deserialize(b: bytes, version: u32, clock: Clock) returns (r: Option<Entries>)
    ensures r == Deserialized(b, version, clock)
    ensures r.Some? ==> WellFormed(r.value)
  {
    hide ReadU32, ReadU64, ReadString, Put;
    ArbitraryBytesAreSafe(b, version, clock);
    if b == [] {
      return Some([]);
    }
    var count := ReadUint32(b, 0);
    if count.Malformed? {
      return None;
    }
    var vault := new Vault();
    var offset: nat, i: nat := count.next, 0;
    while i < count.value
      invariant 0 <= i <= count.value
      invariant ReadEntries(b, offset, i, count.value, version, vault.entries, clock) == Deserialized(b, version, clock)
    {
      var service := ReadStr(b, offset);
      if service.Malformed? { return None; }
      var username := ReadStr(b, service.next);
      if username.Malformed? { return None; }
      var password := ReadStr(b, username.next);
      if password.Malformed? { return None; }
      offset := password.next;
      var stamp: u64 := 0;
      if offset + 8 <= |b| {
        var s := ReadUint64(b, offset);
        stamp, offset := s.value, s.next;
      }
      var secret: bytes := [];
      if version >= 3 && offset + 4 <= |b| {
        var t := ReadStr(b, offset);
        if t.Malformed? { return None; }
        secret, offset := t.value, t.next;
      }
      vault.AddEntry(Entry(service.value, username.value, password.value, secret, stamp), clock(i));
      i := i + 1;
    }
    r := Some(vault.entries);
  }
}
