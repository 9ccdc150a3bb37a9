/** The in-memory vault: an ordered list of entries keyed by service (src/vault.cpp, class Vault). */
module Vaults {
  import opened Prelude

  datatype Entry = Entry(
    service: bytes,
    username: bytes,
    password: bytes,
    totpSecret: bytes,
    lastUpdated: u64)

  type Entries = seq<Entry>

  /** Position of the first entry for `s`, or the length of the list. */
  function IndexOf(es: Entries, s: bytes): (i: nat)
    ensures i <= |es|
    ensures i < |es| ==> es[i].service == s
    ensures forall j :: 0 <= j < i ==> es[j].service != s
  {
    if es == [] then 0 else if es[0].service == s then 0 else 1 + IndexOf(es[1..], s)
  }

  function Find(es: Entries, s: bytes): (r: Option<Entry>)
    ensures r.Some? ==> r.value in es && r.value.service == s
    ensures r.None? ==> forall e <- es :: e.service != s
  {
    var i := IndexOf(es, s);
    if i < |es| then Some(es[i]) else None
  }

  /** Replace the entry of the same service where it stands, or append. */
  function Put(es: Entries, e: Entry): (r: Entries) {
    var i := IndexOf(es, e.service);
    if i < |es| then es[i := e] else es + [e]
  }

  /** A zero timestamp means "not set" and is replaced by the clock. */
  function Stamped(e: Entry, now: Instant): (r: Entry)
    ensures r.lastUpdated != 0 && r.service == e.service
  {
    if e.lastUpdated == 0 then e.(lastUpdated := now) else e
  }

  function Remove(es: Entries, s: bytes): (r: Entries) {
    if es == [] then []
    else if es[0].service == s then Remove(es[1..], s)
    else [es[0]] + Remove(es[1..], s)
  }

  ghost predicate Distinct(es: Entries) {
    forall i, j :: 0 <= i < j < |es| ==> es[i].service != es[j].service
  }

  ghost predicate Dated(es: Entries) {
    forall i :: 0 <= i < |es| ==> es[i].lastUpdated != 0
  }

  /** What every vault held in memory satisfies. */
  ghost predicate WellFormed(es: Entries) {
    Distinct(es) && Dated(es)
  }

  lemma {:induction false} IndexOfUnique(es: Entries, i: nat)
    requires i < |es| && forall j :: 0 <= j < i ==> es[j].service != es[i].service
    ensures IndexOf(es, es[i].service) == i
  {
    var k := IndexOf(es, es[i].service);
  }

  lemma FindAt(es: Entries, i: nat)
    requires Distinct(es) && i < |es|
    ensures Find(es, es[i].service) == Some(es[i])
  {
    IndexOfUnique(es, i);
  }

  /** Two lists with pairwise distinct services and the same elements answer every lookup alike. */
  lemma FindByMembership(es: Entries, fs: Entries, s: bytes)
    requires Distinct(es) && Distinct(fs)
    requires multiset(es) == multiset(fs)
    ensures Find(es, s) == Find(fs, s)
  {
    forall e | e in es ensures e in fs {
      assert e in multiset(es);
    }
    forall e | e in fs ensures e in es {
      assert e in multiset(fs);
    }
    if Find(es, s).Some? {
      var e := Find(es, s).value;
      var j :| 0 <= j < |fs| && fs[j] == e;
      FindAt(fs, j);
    }
  }

  /** `Put` overrides one key and leaves every other lookup alone. */
  lemma PutFind(es: Entries, e: Entry, s: bytes)
    ensures Find(Put(es, e), s) == if s == e.service then Some(e) else Find(es, s)
  {
    var r := Put(es, e);
    var i := IndexOf(es, e.service);
    if s == e.service {
      IndexOfUnique(r, i);
    } else {
      var k := IndexOf(es, s);
      if k < |es| {
        assert forall j :: 0 <= j < k ==> r[j].service != s;
        assert r[k].service == s;
        IndexOfUnique(r, k);
      } else {
        assert forall j :: 0 <= j < |r| ==> r[j].service != s;
      }
    }
  }

  lemma PutWellFormed(es: Entries, e: Entry)
    requires WellFormed(es) && e.lastUpdated != 0
    ensures WellFormed(Put(es, e))
  {
    var i := IndexOf(es, e.service);
  }

  /** An entry is replaced where it stands, or comes last; nothing else moves. */
  lemma PutOrder(es: Entries, e: Entry)
    requires Distinct(es)
    ensures var r := Put(es, e);
      if exists i :: 0 <= i < |es| && es[i].service == e.service then
        |r| == |es| && forall i :: 0 <= i < |es| ==> r[i] == if es[i].service == e.service then e else es[i]
      else
        r == es + [e]
  {
    var i := IndexOf(es, e.service);
  }

  /** A date that is set is kept, and a missing one becomes the present; nothing else changes. */
  lemma StampedMeaning(e: Entry, now: Instant)
    ensures Stamped(e, now)
         == Entry(e.service, e.username, e.password, e.totpSecret, if e.lastUpdated != 0 then e.lastUpdated else now)
  {
  }

  lemma PutFresh(es: Entries, e: Entry)
    requires forall j :: 0 <= j < |es| ==> es[j].service != e.service
    ensures Put(es, e) == es + [e]
  {
  }

  lemma FindCons(e: Entry, es: Entries, s: bytes)
    ensures Find([e] + es, s) == if e.service == s then Some(e) else Find(es, s)
  {
    assert ([e] + es)[1..] == es;
  }

  /** `Remove` drops one key and leaves every other lookup alone. */
  lemma {:induction false} RemoveFind(es: Entries, s: bytes, t: bytes)
    ensures Find(Remove(es, s), t) == if t == s then None else Find(es, t)
  {
    if es != [] {
      RemoveFind(es[1..], s, t);
      assert es == [es[0]] + es[1..];
      FindCons(es[0], es[1..], t);
      FindCons(es[0], Remove(es[1..], s), t);
    }
  }

  lemma {:induction false} RemoveSnoc(es: Entries, e: Entry, s: bytes)
    ensures Remove(es + [e], s) == Remove(es, s) + if e.service == s then [] else [e]
  {
    if es != [] {
      RemoveSnoc(es[1..], e, s);
      assert (es + [e])[1..] == es[1..] + [e];
    }
  }

  lemma {:induction false} RemoveSubset(es: Entries, s: bytes, e: Entry)
    requires e in Remove(es, s)
    ensures e in es
  {
    if es != [] && e in Remove(es[1..], s) {
      RemoveSubset(es[1..], s, e);
    }
  }

  lemma {:induction false} RemoveWellFormed(es: Entries, s: bytes)
    requires WellFormed(es)
    ensures WellFormed(Remove(es, s))
  {
    if es != [] {
      RemoveWellFormed(es[1..], s);
      if es[0].service != s {
        var r := Remove(es[1..], s);
        forall j | 0 <= j < |r| ensures r[j].service != es[0].service {
          RemoveSubset(es[1..], s, r[j]);
        }
      }
    }
  }

  /** The class of src/vault.cpp. Its operations are specified by the functions above. */
  class Vault {
    var entries: Entries

    constructor ()
      ensures entries == []
    {
      entries := [];
    }

    /** `std::ranges::find_if` over the entries. */
    method FindIndex(service: bytes) returns (i: nat)
      ensures i == IndexOf(entries, service)
    {
      i := 0;
      while i < |entries| && entries[i].service != service
        invariant i <= |entries|
        invariant forall j :: 0 <= j < i ==> entries[j].service != service
      {
        i := i + 1;
      }
      var k := IndexOf(entries, service);
      if i < |entries| {
        IndexOfUnique(entries, i);
      }
    }

    method AddEntry(entry: Entry, now: Instant)
      modifies this
      ensures entries == Put(old(entries), Stamped(entry, now))
      ensures old(WellFormed(entries)) ==> WellFormed(entries)
    {
      var e := entry;
      if e.lastUpdated == 0 {
        e := e.(lastUpdated := now);
      }
      if WellFormed(entries) {
        PutWellFormed(entries, e);
      }
      var i := FindIndex(e.service);
      if i < |entries| {
        entries := entries[i := e];
      } else {
        entries := entries + [e];
      }
    }

    method RemoveEntry(service: bytes) returns (removed: bool)
      modifies this
      ensures entries == Remove(old(entries), service)
      ensures removed <==> old(Find(entries, service)).Some?
      ensures old(WellFormed(entries)) ==> WellFormed(entries)
    {
      if WellFormed(entries) {
        RemoveWellFormed(entries, service);
      }
      var kept: Entries := [];
      removed := false;
      var i := 0;
      while i < |entries|
        invariant 0 <= i <= |entries|
        invariant entries == old(entries)
        invariant kept == Remove(entries[..i], service)
        invariant removed <==> exists j :: 0 <= j < i && entries[j].service == service
      {
        RemoveSnoc(entries[..i], entries[i], service);
        assert entries[..i + 1] == entries[..i] + [entries[i]];
        if entries[i].service == service {
          removed := true;
        } else {
          kept := kept + [entries[i]];
        }
        i := i + 1;
      }
      assert entries[..i] == entries;
      entries := kept;
    }

    method GetEntry(service: bytes) returns (r: Option<Entry>)
      ensures r == Find(entries, service)
    {
      var i := FindIndex(service);
      r := if i < |entries| then Some(entries[i]) else None;
    }
  }
}
