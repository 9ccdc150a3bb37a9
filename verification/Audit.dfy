/** Reuse grouping in the security audit (src/audit_engine.cpp, `run_audit`). */
module Audit {
  import opened Prelude
  import opened Vaults

  function Names(es: Entries): (r: seq<bytes>)
    ensures |r| == |es| && forall i :: 0 <= i < |es| ==> r[i] == CStr(es[i].service)
  {
    seq(|es|, i requires 0 <= i < |es| => CStr(es[i].service))
  }

  function Hashes<H>(es: Entries, sha: bytes -> H): (r: seq<H>)
    ensures |r| == |es| && forall i :: 0 <= i < |es| ==> r[i] == sha(es[i].password)
  {
    seq(|es|, i requires 0 <= i < |es| => sha(es[i].password))
  }

  // ---------------------------------------------------------------------------------
  // What the report should say.
  // ---------------------------------------------------------------------------------

  /** The names, in vault order, of the entries before `m` other than `i` that have the hash of `i`. */
  function Others<H(==), N>(hs: seq<H>, names: seq<N>, i: nat, m: nat): (r: seq<N>)
    requires |hs| == |names| && i < |hs| && m <= |hs|
  {
    if m == 0 then []
    else Others(hs, names, i, m - 1) + if m - 1 != i && hs[m - 1] == hs[i] then [names[m - 1]] else []
  }

  /** How many of the first `m` entries have a hash. */
  function Count<H(==)>(hs: seq<H>, h: H, m: nat): (c: nat)
    requires m <= |hs|
  {
    if m == 0 then 0 else Count(hs, h, m - 1) + if hs[m - 1] == h then 1 else 0
  }

  function All<H(==)>(hs: seq<H>): set<H> {
    set h | h in hs
  }

  /** The hashes that at least two entries have. */
  function Shared<H(==)>(hs: seq<H>): set<H> {
    set h | h in hs && Count(hs, h, |hs|) > 1
  }

  /** The names at these positions. */
  function NamesAt<N>(names: seq<N>, ps: seq<nat>): seq<N>
    requires forall a :: 0 <= a < |ps| ==> ps[a] < |names|
  {
    if ps == [] then [] else NamesAt(names, ps[..|ps| - 1]) + [names[ps[|ps| - 1]]]
  }

  /** Exactly the positions of other entries with the same hash, ascending. */
  ghost predicate ArePeers<H>(hs: seq<H>, i: nat, m: nat, ps: seq<nat>)
    requires i < |hs| && m <= |hs|
  {
    && (forall a :: 0 <= a < |ps| ==> ps[a] < m)
    && (forall a, b :: 0 <= a < b < |ps| ==> ps[a] < ps[b])
    && (forall j: nat :: j in ps <==> j < m && j != i && hs[j] == hs[i])
  }

  /** What `Others` means, position by position. */
  lemma {:induction false} OthersMeaning<H, N>(hs: seq<H>, names: seq<N>, i: nat, m: nat) returns (ps: seq<nat>)
    requires |hs| == |names| && i < |hs| && m <= |hs|
    ensures ArePeers(hs, i, m, ps) && forall a :: 0 <= a < |ps| ==> ps[a] < |names|
    ensures Others(hs, names, i, m) == NamesAt(names, ps)
  {
    hide Others, NamesAt, ArePeers;
    if m == 0 {
      ps := [];
      NoPeers(hs, names, i);
    } else {
      var n := m - 1;
      ps := OthersMeaning(hs, names, i, n);
      NextOther(hs, names, i, n);
      PeersSnoc(hs, i, n, ps);
      if n != i && hs[n] == hs[i] {
        NamesSnoc(names, ps, n);
        ps := ps + [n];
      } else {
        assert Others(hs, names, i, n) + [] == Others(hs, names, i, n);
      }
    }
  }

  lemma NoPeers<H, N>(hs: seq<H>, names: seq<N>, i: nat)
    requires |hs| == |names| && i < |hs|
    ensures ArePeers(hs, i, 0, []) && Others(hs, names, i, 0) == NamesAt(names, [])
  {
  }

  lemma PeersSnoc<H>(hs: seq<H>, i: nat, n: nat, ps: seq<nat>)
    requires i < |hs| && n < |hs| && ArePeers(hs, i, n, ps)
    ensures ArePeers(hs, i, n + 1, if n != i && hs[n] == hs[i] then ps + [n] else ps)
    ensures forall a :: 0 <= a < |ps| ==> ps[a] < n
  {
  }

  lemma NamesSnoc<N>(names: seq<N>, ps: seq<nat>, n: nat)
    requires n < |names| && forall a :: 0 <= a < |ps| ==> ps[a] < |names|
    ensures forall a :: 0 <= a < |ps + [n]| ==> (ps + [n])[a] < |names|
    ensures NamesAt(names, ps + [n]) == NamesAt(names, ps) + [names[n]]
  {
    assert (ps + [n])[..|ps|] == ps;
  }

  /** A hash is shared exactly if two different entries have it. */
  lemma SharedMeaning<H>(hs: seq<H>, h: H)
    ensures h in Shared(hs) <==> exists i, j :: 0 <= i < j < |hs| && hs[i] == h && hs[j] == h
  {
    CountMeaning(hs, h, |hs|);
    if h in Shared(hs) {
      var i :| 0 <= i < |hs| && hs[i] == h;
      if forall j :: 0 <= j < |hs| && hs[j] == h ==> j == i {
        assert Positions(hs, h, |hs|) <= {i};
        SmallSubset(Positions(hs, h, |hs|), {i});
      }
    }
    if i, j :| 0 <= i < j < |hs| && hs[i] == h && hs[j] == h {
      SmallSubset({i, j}, Positions(hs, h, |hs|));
    }
  }

  function Positions<H(==)>(hs: seq<H>, h: H, m: nat): set<int>
    requires m <= |hs|
  {
    set i | 0 <= i < m && hs[i] == h
  }

  lemma SmallSubset(a: set<int>, b: set<int>)
    requires a <= b
    ensures |a| <= |b|
  {
    assert b == a + (b - a);
  }

  lemma {:induction false} CountMeaning<H>(hs: seq<H>, h: H, m: nat)
    requires m <= |hs|
    ensures Count(hs, h, m) == |Positions(hs, h, m)|
  {
    if m > 0 {
      CountMeaning(hs, h, m - 1);
      var before := Positions(hs, h, m - 1);
      assert Positions(hs, h, m) == if hs[m - 1] == h then before + {m - 1} else before;
    }
  }

  // ---------------------------------------------------------------------------------
  // First loop: the hash table.
  // ---------------------------------------------------------------------------------

  /** The positions before `m` of a hash, ascending. */
  function Indices<H(==)>(hs: seq<H>, h: H, m: nat): (r: seq<nat>)
    requires m <= |hs|
    ensures |r| == Count(hs, h, m)
  {
    if m == 0 then [] else Indices(hs, h, m - 1) + if hs[m - 1] == h then [m - 1] else []
  }

  ghost predicate Ascending(indices: seq<nat>, n: nat) {
    && (forall a :: 0 <= a < |indices| ==> indices[a] < n)
    && (forall a, b :: 0 <= a < b < |indices| ==> indices[a] < indices[b])
  }

  lemma {:induction false} IndicesOf<H>(hs: seq<H>, h: H, m: nat)
    requires m <= |hs|
    ensures Ascending(Indices(hs, h, m), m)
    ensures forall i :: 0 <= i < m ==> (hs[i] == h <==> i in Indices(hs, h, m))
  {
    if m > 0 {
      IndicesOf(hs, h, m - 1);
      var r := Indices(hs, h, m - 1);
      assert hs[m - 1] == h ==> Indices(hs, h, m) == r + [m - 1];
    }
  }

  function At<H(==)>(groups: map<H, seq<nat>>, h: H): seq<nat> {
    if h in groups then groups[h] else []
  }

  method GroupByHash<H(==,!new)>(hs: seq<H>) returns (groups: map<H, seq<nat>>)
    ensures forall h :: h in groups <==> h in hs
    ensures forall h :: h in groups ==> groups[h] == Indices(hs, h, |hs|)
  {
    hide Indices;
    groups := map[];
    var i := 0;
    forall h ensures Indices(hs, h, 0) == [] {
      NoIndices(hs, h);
    }
    while i < |hs|
      invariant 0 <= i <= |hs|
      invariant forall h :: h in groups <==> h in hs[..i]
      invariant forall h :: At(groups, h) == Indices(hs, h, i)
    {
      var h := hs[i];
      assert hs[..i + 1] == hs[..i] + [h];
      ghost var before := groups;
      groups := groups[h := At(groups, h) + [i]];
      forall g ensures At(groups, g) == Indices(hs, g, i + 1) {
        NextIndex(hs, g, i);
        assert At(before, g) == Indices(hs, g, i);
      }
      i := i + 1;
    }
    assert hs[..i] == hs;
    assert forall h :: h in groups ==> groups[h] == At(groups, h);
  }

  lemma NoIndices<H>(hs: seq<H>, h: H)
    ensures Indices(hs, h, 0) == []
  {
  }

  lemma NextIndex<H>(hs: seq<H>, h: H, i: nat)
    requires i < |hs|
    ensures Indices(hs, h, i + 1) == Indices(hs, h, i) + if hs[i] == h then [i] else []
    ensures hs[i] != h ==> Indices(hs, h, i + 1) == Indices(hs, h, i)
  {
  }

  // ---------------------------------------------------------------------------------
  // Second loop: one group.
  // ---------------------------------------------------------------------------------

  function NamesExcept<N>(indices: seq<nat>, names: seq<N>, i: nat, b: nat): seq<N>
    requires b <= |indices| && forall a :: 0 <= a < |indices| ==> indices[a] < |names|
  {
    if b == 0 then []
    else NamesExcept(indices, names, i, b - 1) + if indices[b - 1] != i then [names[indices[b - 1]]] else []
  }

  /** The rows after the first `a` members of a group got theirs. */
  function Linked<N>(indices: seq<nat>, names: seq<N>, rows: seq<seq<N>>, a: nat): (r: seq<seq<N>>)
    requires a <= |indices| && |rows| == |names| && forall a :: 0 <= a < |indices| ==> indices[a] < |names|
    ensures |r| == |rows|
  {
    if a == 0 then rows
    else
      var i := indices[a - 1];
      var r := Linked(indices, names, rows, a - 1);
      r[i := r[i] + NamesExcept(indices, names, i, |indices|)]
  }

  method LinkGroup<N>(indices: seq<nat>, names: seq<N>, rows: seq<seq<N>>) returns (r: seq<seq<N>>)
    requires |rows| == |names| && forall a :: 0 <= a < |indices| ==> indices[a] < |names|
    ensures r == Linked(indices, names, rows, |indices|)
  {
    r := rows;
    var a := 0;
    while a < |indices|
      invariant 0 <= a <= |indices| && r == Linked(indices, names, rows, a)
    {
      var idx := indices[a];
      ghost var before := r;
      assert before[idx] + [] == before[idx];
      var b := 0;
      while b < |indices|
        invariant 0 <= b <= |indices| && |r| == |rows|
        invariant r == before[idx := before[idx] + NamesExcept(indices, names, idx, b)]
      {
        var other := indices[b];
        ghost var had, more := before[idx], NamesExcept(indices, names, idx, b);
        assert more + [] == more && (had + more) + [names[other]] == had + (more + [names[other]]);
        if idx != other {
          r := r[idx := r[idx] + [names[other]]];
        }
        b := b + 1;
      }
      a := a + 1;
    }
  }

  lemma {:induction false} LinkedAt<N>(indices: seq<nat>, names: seq<N>, rows: seq<seq<N>>, a: nat, i: nat)
    requires a <= |indices| && |rows| == |names| && Ascending(indices, |names|) && i < |rows|
    ensures Linked(indices, names, rows, a)[i]
         == rows[i] + if i in indices[..a] then NamesExcept(indices, names, i, |indices|) else []
  {
    hide NamesExcept;
    if a > 0 {
      LinkedAt(indices, names, rows, a - 1, i);
      assert indices[..a] == indices[..a - 1] + [indices[a - 1]];
    }
  }

  lemma {:induction false} GroupNames<H, N>(hs: seq<H>, names: seq<N>, i: nat, m: nat)
    requires |hs| == |names| && i < |hs| && m <= |hs|
    requires Ascending(Indices(hs, hs[i], m), |hs|)
    ensures NamesExcept(Indices(hs, hs[i], m), names, i, |Indices(hs, hs[i], m)|) == Others(hs, names, i, m)
  {
    hide NamesExcept, Others, Indices;
    if m == 0 {
      NoNames(hs, names, i);
    } else {
      var n := m - 1;
      var s := Indices(hs, hs[i], n);
      IndicesOf(hs, hs[i], n);
      NextIndex(hs, hs[i], n);
      NextOther(hs, names, i, n);
      GroupNames(hs, names, i, n);
      if hs[n] == hs[i] {
        LastName(s, n, names, i);
      }
    }
  }

  lemma NoNames<H, N>(hs: seq<H>, names: seq<N>, i: nat)
    requires |hs| == |names| && i < |hs|
    ensures Indices(hs, hs[i], 0) == [] && NamesExcept([], names, i, 0) == [] && Others(hs, names, i, 0) == []
  {
  }

  lemma NextOther<H, N>(hs: seq<H>, names: seq<N>, i: nat, n: nat)
    requires |hs| == |names| && i < |hs| && n < |hs|
    ensures Others(hs, names, i, n + 1) == Others(hs, names, i, n) + if n != i && hs[n] == hs[i] then [names[n]] else []
    ensures hs[n] != hs[i] ==> Others(hs, names, i, n + 1) == Others(hs, names, i, n)
  {
  }

  lemma LastName<N>(s: seq<nat>, n: nat, names: seq<N>, i: nat)
    requires (forall a :: 0 <= a < |s| ==> s[a] < |names|) && n < |names|
    ensures forall a :: 0 <= a < |s + [n]| ==> (s + [n])[a] < |names|
    ensures NamesExcept(s + [n], names, i, |s + [n]|)
         == NamesExcept(s, names, i, |s|) + if n != i then [names[n]] else []
  {
    PrefixNames(s, [n], names, i, |s|);
    assert (s + [n])[|s|] == n;
  }

  lemma {:induction false} PrefixNames<N>(s: seq<nat>, t: seq<nat>, names: seq<N>, i: nat, b: nat)
    requires b <= |s|
    requires (forall a :: 0 <= a < |s| ==> s[a] < |names|) && forall a :: 0 <= a < |t| ==> t[a] < |names|
    ensures forall a :: 0 <= a < |s + t| ==> (s + t)[a] < |names|
    ensures NamesExcept(s + t, names, i, b) == NamesExcept(s, names, i, b)
  {
    if b > 0 {
      PrefixNames(s, t, names, i, b - 1);
    }
  }

  // ---------------------------------------------------------------------------------
  // The report.
  // ---------------------------------------------------------------------------------

  /** A row is complete unless its group is left to do: then it is still empty. */
  ghost predicate RowDone<H, N>(hs: seq<H>, names: seq<N>, row: seq<N>, todo: set<H>, i: nat)
    requires |hs| == |names| && i < |hs|
  {
    row == if hs[i] in todo then [] else Others(hs, names, i, |hs|)
  }

  ghost predicate Complete<H, N>(hs: seq<H>, names: seq<N>, rows: seq<seq<N>>, todo: set<H>)
    requires |hs| == |names| == |rows|
  {
    forall i: nat :: i < |hs| ==> RowDone(hs, names, rows[i], todo, i)
  }

  lemma LinkingCompletes<H, N>(hs: seq<H>, names: seq<N>, rows: seq<seq<N>>, todo: set<H>, h: H, r: seq<seq<N>>)
    requires |hs| == |names| == |rows| && h in todo && Complete(hs, names, rows, todo)
    requires Ascending(Indices(hs, h, |hs|), |names|)
    requires r == Linked(Indices(hs, h, |hs|), names, rows, |Indices(hs, h, |hs|)|)
    ensures Complete(hs, names, r, todo - {h})
  {
    hide Linked, Others, Indices, Count, Ascending, RowDone;
    forall i: nat | i < |hs| ensures RowDone(hs, names, r[i], todo - {h}, i) {
      assert RowDone(hs, names, rows[i], todo, i);
      RowStaysDone(hs, names, rows, todo, h, i);
    }
  }

  lemma RowStaysDone<H, N>(hs: seq<H>, names: seq<N>, rows: seq<seq<N>>, todo: set<H>, h: H, i: nat)
    requires |hs| == |names| == |rows| && h in todo && i < |hs| && RowDone(hs, names, rows[i], todo, i)
    requires Ascending(Indices(hs, h, |hs|), |names|)
    ensures RowDone(hs, names, Linked(Indices(hs, h, |hs|), names, rows, |Indices(hs, h, |hs|)|)[i], todo - {h}, i)
  {
    hide Linked, Others, Indices, Count, Ascending;
    RowAfterLinking(hs, names, rows, h, i);
  }

  lemma RowAfterLinking<H, N>(hs: seq<H>, names: seq<N>, rows: seq<seq<N>>, h: H, i: nat)
    requires |hs| == |names| == |rows| && i < |hs|
    requires Ascending(Indices(hs, h, |hs|), |names|)
    requires hs[i] == h ==> rows[i] == []
    ensures Linked(Indices(hs, h, |hs|), names, rows, |Indices(hs, h, |hs|)|)[i]
         == if hs[i] == h then Others(hs, names, i, |hs|) else rows[i]
  {
    hide Linked, Others, NamesExcept, Indices, Count;
    var indices := Indices(hs, h, |hs|);
    IndicesOf(hs, h, |hs|);
    LinkedAt(indices, names, rows, |indices|, i);
    assert indices[..|indices|] == indices;
    if hs[i] == h {
      GroupNames(hs, names, i, |hs|);
    }
  }

  /** A group of one has nothing to link. */
  lemma LonersComplete<H, N>(hs: seq<H>, names: seq<N>, rows: seq<seq<N>>, todo: set<H>, h: H)
    requires |hs| == |names| == |rows| && Complete(hs, names, rows, todo) && Count(hs, h, |hs|) <= 1
    ensures Complete(hs, names, rows, todo - {h})
  {
    hide Others, Count;
    forall i: nat | i < |hs| ensures RowDone(hs, names, rows[i], todo - {h}, i) {
      assert RowDone(hs, names, rows[i], todo, i);
      OthersCount(hs, names, i, |hs|);
    }
  }

  lemma StartsComplete<H, N>(hs: seq<H>, names: seq<N>, rows: seq<seq<N>>, todo: set<H>)
    requires |hs| == |names| == |rows| && (forall h :: h in hs ==> h in todo)
    requires forall i :: 0 <= i < |rows| ==> rows[i] == []
    ensures Complete(hs, names, rows, todo)
  {
  }

  lemma CompleteRows<H, N>(hs: seq<H>, names: seq<N>, rows: seq<seq<N>>)
    requires |hs| == |names| == |rows| && Complete(hs, names, rows, {})
    ensures forall i :: 0 <= i < |hs| ==> rows[i] == Others(hs, names, i, |hs|)
  {
    hide Others, RowDone;
    forall i: nat | i < |hs| ensures rows[i] == Others(hs, names, i, |hs|) {
      assert RowDone(hs, names, rows[i], {}, i);
      DoneRow(hs, names, rows[i], i);
    }
  }

  lemma DoneRow<H, N>(hs: seq<H>, names: seq<N>, row: seq<N>, i: nat)
    requires |hs| == |names| && i < |hs| && RowDone(hs, names, row, {}, i)
    ensures row == Others(hs, names, i, |hs|)
  {
  }

  /** Crossing off a hash: it is one of the shared ones exactly when its group has several members. */
  lemma CrossOff<H>(hs: seq<H>, todo: set<H>, h: H)
    requires h in hs && h in todo
    ensures Shared(hs) - (todo - {h}) == (Shared(hs) - todo) + if Count(hs, h, |hs|) > 1 then {h} else {}
    ensures |Shared(hs) - (todo - {h})| == |Shared(hs) - todo| + if Count(hs, h, |hs|) > 1 then 1 else 0
  {
    hide Count;
    var shared := Shared(hs);
    if Count(hs, h, |hs|) > 1 {
      assert shared - (todo - {h}) == (shared - todo) + {h};
    } else {
      assert shared - (todo - {h}) == shared - todo;
    }
  }

  /**
   The report: `reused_with` of every entry names exactly the other entries with the same password
   hash, in vault order, and `reused_passwords` counts the hashes that at least two entries share.
   The hash table is walked in any order.
   */
  method ReuseReport<H(==,!new)>(es: Entries, sha: bytes -> H)
    returns (reusedWith: seq<seq<bytes>>, reusedPasswords: nat)
    ensures |reusedWith| == |es|
    ensures forall i :: 0 <= i < |es| ==> reusedWith[i] == Others(Hashes(es, sha), Names(es), i, |es|)
    ensures reusedPasswords == |Shared(Hashes(es, sha))|
  {
    hide Names, Hashes, Others, Linked, Indices, Count, Complete, Shared;
    var hs, names := Hashes(es, sha), Names(es);
    var groups := GroupByHash(hs);
    reusedWith := seq(|es|, _ => []);
    reusedPasswords := 0;
    var todo := groups.Keys;
    StartsComplete(hs, names, reusedWith, todo);
    NothingCrossedOff(hs, todo);
    while todo != {}
      invariant todo <= groups.Keys && |reusedWith| == |es|
      invariant Complete(hs, names, reusedWith, todo)
      invariant reusedPasswords == |Shared(hs) - todo|
      decreases |todo|
    {
      var h :| h in todo;
      var indices := groups[h];
      IndicesOf(hs, h, |hs|);
      CrossOff(hs, todo, h);
      if |indices| > 1 {
        reusedPasswords := reusedPasswords + 1;
        var linked := LinkGroup(indices, names, reusedWith);
        LinkingCompletes(hs, names, reusedWith, todo, h, linked);
        reusedWith := linked;
      } else {
        LonersComplete(hs, names, reusedWith, todo, h);
      }
      todo := todo - {h};
    }
    CompleteRows(hs, names, reusedWith);
    assert Shared(hs) - {} == Shared(hs);
  }

  lemma NothingCrossedOff<H>(hs: seq<H>, todo: set<H>)
    requires forall h :: h in hs ==> h in todo
    ensures |Shared(hs) - todo| == 0
  {
    hide Count;
    assert Shared(hs) - todo == {};
  }

  // ---------------------------------------------------------------------------------
  // Conservation.
  // ---------------------------------------------------------------------------------

  lemma {:induction false} OthersCount<H, N>(hs: seq<H>, names: seq<N>, i: nat, m: nat)
    requires |hs| == |names| && i < |hs| && m <= |hs|
    ensures |Others(hs, names, i, m)| + (if i < m then 1 else 0) == Count(hs, hs[i], m)
  {
    if m > 0 {
      OthersCount(hs, names, i, m - 1);
    }
  }

  /** Sum of `f` over a set, in whatever order. */
  ghost function SumOver<H>(s: set<H>, f: H -> nat): nat {
    if s == {} then 0
    else
      var x :| x in s;
      f(x) + SumOver(s - {x}, f)
  }

  lemma {:induction false} SumOverAny<H>(s: set<H>, f: H -> nat, x: H)
    requires x in s
    ensures SumOver(s, f) == f(x) + SumOver(s - {x}, f)
  {
    var y :| y in s && SumOver(s, f) == f(y) + SumOver(s - {y}, f);
    if x != y {
      SumOverAny(s - {y}, f, x);
      SumOverAny(s - {x}, f, y);
      assert s - {y} - {x} == s - {x} - {y};
    }
  }

  lemma {:induction false} SumOverSame<H>(s: set<H>, f: H -> nat, g: H -> nat)
    requires forall x :: x in s ==> f(x) == g(x)
    ensures SumOver(s, f) == SumOver(s, g)
  {
    if s != {} {
      var x :| x in s;
      SumOverAny(s, f, x);
      SumOverAny(s, g, x);
      SumOverSame(s - {x}, f, g);
    }
  }

  lemma {:induction false} SumOfZeros<H>(s: set<H>, f: H -> nat)
    requires forall x :: x in s ==> f(x) == 0
    ensures SumOver(s, f) == 0
  {
    if s != {} {
      var x :| x in s;
      SumOverAny(s, f, x);
      SumOfZeros(s - {x}, f);
    }
  }

  function Lengths<N>(rows: seq<seq<N>>, m: nat): nat
    requires m <= |rows|
  {
    if m == 0 then 0 else Lengths(rows, m - 1) + |rows[m - 1]|
  }

  /** What `c` members of a group of `k` have in their lists. */
  function Links(c: nat, k: nat): nat {
    if k == 0 then 0 else c * (k - 1)
  }

  lemma OneMoreLink(c: nat, k: nat)
    requires k > 0
    ensures Links(c + 1, k) == Links(c, k) + k - 1 
  {
  }

  lemma NoLinks(k: nat)
    ensures Links(0, k) == 0
  {
  }

  ghost function Weight<H>(hs: seq<H>, m: nat): H -> nat
    requires m <= |hs|
  {
    h => Links(Count(hs, h, m), Count(hs, h, |hs|))
  }

  lemma {:induction false} LengthsByGroup<H, N>(hs: seq<H>, names: seq<N>, rows: seq<seq<N>>, m: nat)
    requires |hs| == |names| == |rows| && m <= |hs|
    requires forall i :: 0 <= i < |rows| ==> rows[i] == Others(hs, names, i, |hs|)
    ensures Lengths(rows, m) == SumOver(All(hs), Weight(hs, m))
  {
    hide Others, SumOver, Links;
    var all := All(hs);
    if m == 0 {
      forall h: H | h in all ensures Weight(hs, 0)(h) == 0 {
        NoLinks(Count(hs, h, |hs|));
      }
      SumOfZeros(all, Weight(hs, 0));
    } else {
      LengthsByGroup(hs, names, rows, m - 1);
      var h := hs[m - 1];
      OthersCount(hs, names, m - 1, |hs|);
      OneMoreLink(Count(hs, h, m - 1), Count(hs, h, |hs|));
      SumOverAny(all, Weight(hs, m), h);
      SumOverAny(all, Weight(hs, m - 1), h);
      SumOverSame(all - {h}, Weight(hs, m), Weight(hs, m - 1));
    }
  }

  /** The lists of the report have, together, k(k-1) names for every group of k entries. */
  lemma ReuseConservation<H>(es: Entries, sha: bytes -> H, reusedWith: seq<seq<bytes>>)
    requires |reusedWith| == |es|
    requires forall i :: 0 <= i < |es| ==> reusedWith[i] == Others(Hashes(es, sha), Names(es), i, |es|)
    ensures var hs := Hashes(es, sha);
      Lengths(reusedWith, |es|) == SumOver(All(hs), h => Links(Count(hs, h, |es|), Count(hs, h, |es|)))
  {
    hide Hashes, Names, Others, SumOver, Links;
    var hs := Hashes(es, sha);
    LengthsByGroup(hs, Names(es), reusedWith, |es|);
    SumOverSame(All(hs), Weight(hs, |es|), h => Links(Count(hs, h, |es|), Count(hs, h, |es|)));
  }
}
