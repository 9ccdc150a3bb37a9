/** How a vault in memory absorbs the vault on disk (src/vault_service.cpp, `merge_disk_state_with_lock_held`). */
module Merging {
  import opened Prelude
  import opened Vaults

  function MergeOne(local: Entries, d: Entry, tombs: seq<bytes>): (r: Entries) {
    if d.service in tombs then local
    else
      match Find(local, d.service)
      case None => Put(local, d)
      case Some(l) => if d.lastUpdated > l.lastUpdated then Put(local, d) else local
  }

  function Merge(local: Entries, disk: Entries, tombs: seq<bytes>): (r: Entries)
    decreases disk
  {
    if disk == [] then local else Merge(MergeOne(local, disk[0], tombs), disk[1..], tombs)
  }

  /** Last writer wins: ties go to the local entry, a buried service is not taken from disk. */
  function Join(local: Option<Entry>, disk: Option<Entry>, buried: bool): (r: Option<Entry>) {
    if buried || disk.None? then local
    else if local.None? || disk.value.lastUpdated > local.value.lastUpdated then disk
    else local
  }

  lemma MergeOneFind(local: Entries, d: Entry, tombs: seq<bytes>, s: bytes)
    ensures Find(MergeOne(local, d, tombs), s)
         == if s == d.service then Join(Find(local, s), Some(d), s in tombs) else Find(local, s)
  {
    hide Put, Find;
    PutFind(local, d, s);
  }

  /** The merge is the pointwise join of the two vaults, whatever the order of the entries on disk. */
  lemma {:induction false} MergeIsJoin(local: Entries, disk: Entries, tombs: seq<bytes>, s: bytes)
    requires Distinct(disk)
    ensures Find(Merge(local, disk, tombs), s) == Join(Find(local, s), Find(disk, s), s in tombs)
    decreases disk
  {
    if disk != [] {
      var next := MergeOne(local, disk[0], tombs);
      MergeIsJoin(next, disk[1..], tombs, s);
      MergeOneFind(local, disk[0], tombs, s);
      assert disk == [disk[0]] + disk[1..];
      FindCons(disk[0], disk[1..], s);
      if s == disk[0].service {
        NotInRest(disk);
      }
    }
  }

  lemma NotInRest(es: Entries)
    requires Distinct(es) && es != []
    ensures Find(es[1..], es[0].service) == None
  {
    var r := Find(es[1..], es[0].service);
    assert forall j :: 0 <= j < |es[1..]| ==> es[1..][j] == es[j + 1];
  }

  /** Reordering the entries on disk does not change any lookup. */
  lemma MergeIgnoresDiskOrder(local: Entries, disk: Entries, permuted: Entries, tombs: seq<bytes>, s: bytes)
    requires Distinct(disk) && Distinct(permuted) && multiset(disk) == multiset(permuted)
    ensures Find(Merge(local, disk, tombs), s) == Find(Merge(local, permuted, tombs), s)
  {
    MergeIsJoin(local, disk, tombs, s);
    MergeIsJoin(local, permuted, tombs, s);
    FindByMembership(disk, permuted, s);
  }

  lemma {:induction false} MergeWellFormed(local: Entries, disk: Entries, tombs: seq<bytes>)
    requires WellFormed(local) && Dated(disk)
    ensures WellFormed(Merge(local, disk, tombs))
    decreases disk
  {
    hide Put, Find, Distinct;
    if disk != [] {
      PutWellFormed(local, disk[0]);
      MergeWellFormed(MergeOne(local, disk[0], tombs), disk[1..], tombs);
    }
  }

  /** Merging a vault with entries it already has changes nothing, not even the order. */
  lemma {:induction false} MergeWithSelf(es: Entries, i: nat, tombs: seq<bytes>)
    requires Distinct(es) && i <= |es|
    ensures Merge(es, es[i..], tombs) == es
    decreases |es| - i
  {
    if i < |es| {
      FindAt(es, i);
      assert es[i..][1..] == es[i + 1..];
      MergeWithSelf(es, i + 1, tombs);
    }
  }

  /** Nothing on disk is lost or made older by a merge, except what was buried. */
  lemma MergeKeeps(local: Entries, disk: Entries, tombs: seq<bytes>, s: bytes)
    requires Distinct(disk) && Find(disk, s).Some? && s !in tombs
    ensures Find(Merge(local, disk, tombs), s).Some?
    ensures Find(Merge(local, disk, tombs), s).value.lastUpdated >= Find(disk, s).value.lastUpdated
  {
    MergeIsJoin(local, disk, tombs, s);
  }
}
