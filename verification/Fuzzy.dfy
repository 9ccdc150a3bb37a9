/** Fuzzy search (src/utils.cpp, `fuzzy_match`) and the ranked listing (src/vault_service.cpp, `list_entries`). */
module Fuzzy {
  import opened Prelude
  import opened Vaults

  /** `std::tolower` in the C locale. */
  function Lower(b: byte): byte {
    if 0x41 <= b <= 0x5A then b + 0x20 else b
  }

  // ---------------------------------------------------------------------------------
  // The promise: a case-insensitive subsequence.
  // ---------------------------------------------------------------------------------

  /** The characters of `q` stand in `t` at the increasing positions `at`, up to case. */
  ghost predicate Embeds(q: bytes, t: bytes, at: seq<nat>) {
    && |at| == |q|
    && (forall i, j :: 0 <= i < j < |at| ==> at[i] < at[j])
    && (forall i :: 0 <= i < |at| ==> at[i] < |t| && Lower(q[i]) == Lower(t[at[i]]))
  }

  ghost predicate Subsequence(q: bytes, t: bytes) {
    exists at :: Embeds(q, t, at)
  }

  // ---------------------------------------------------------------------------------
  // The matcher.
  // ---------------------------------------------------------------------------------

  /** First character of the target, or just after a separator. */
  function AtBoundary(t: bytes, i: nat): bool
    requires i < |t|
  {
    i == 0 || t[i - 1] == 0x2E || t[i - 1] == 0x2D || t[i - 1] == 0x5F
  }

  /** Points for a match at position `i` that is the `run`-th in a row. */
  function Points(t: bytes, i: nat, run: nat): (p: nat)
    requires i < |t| && run > 0
    ensures p <= 35 + 5 * (run - 1)
  {
    10 + 5 * (run - 1) + if AtBoundary(t, i) then 25 else 0
  }

  /** The greedy scan from query position `qi` and target position `ti`: how far the query gets, and the points. */
  function Scan(q: bytes, t: bytes, qi: nat, ti: nat, run: nat): (r: (nat, nat))
    requires qi <= |q| && ti <= |t|
    ensures qi <= r.0 <= |q| && r.0 - qi <= |t| - ti
    decreases |t| - ti
  {
    if qi == |q| || ti == |t| then (qi, 0)
    else if Lower(q[qi]) == Lower(t[ti]) then
      var (end, points) := Scan(q, t, qi + 1, ti + 1, run + 1);
      (end, points + Points(t, ti, run + 1))
    else Scan(q, t, qi, ti + 1, 0)
  }

  function Score(q: bytes, t: bytes): (s: int)
    ensures s >= 0
  {
    if q == [] then 1
    else
      var (end, points) := Scan(q, t, 0, 0, 0);
      if end < |q| then 0
      else if points - 2 * (|t| - |q|) > 1 then points - 2 * (|t| - |q|)
      else 1
  }

  method FuzzyMatch(query: bytes, target: bytes) returns (score: int)
    ensures score == Score(query, target)
  {
    if query == [] {
      return 1;
    }
    if target == [] {
      return 0;
    }
    var qi, ti, run := 0, 0, 0;
    score := 0;
    while qi < |query| && ti < |target|
      invariant 0 <= qi <= |query| && 0 <= ti <= |target| && run >= 0
      invariant score >= 0
      invariant var (end, points) := Scan(query, target, qi, ti, run);
        Scan(query, target, 0, 0, 0) == (end, score + points)
      decreases |target| - ti
    {
      if Lower(query[qi]) == Lower(target[ti]) {
        qi := qi + 1;
        run := run + 1;
        score := score + 10;
        if run > 1 {
          score := score + (run - 1) * 5;
        }
        if ti == 0 || target[ti - 1] == 0x2E || target[ti - 1] == 0x2D || target[ti - 1] == 0x5F {
          score := score + 25;
        }
      } else {
        run := 0;
      }
      ti := ti + 1;
    }
    if qi == |query| {
      score := score - 2 * (|target| - |query|);
      return if score > 1 then score else 1;
    }
    return 0;
  }

  // ---------------------------------------------------------------------------------
  // Greed is complete.
  // ---------------------------------------------------------------------------------

  /** A scan that gets through has found an embedding. */
  lemma {:induction false} ScanFinds(q: bytes, t: bytes, qi: nat, ti: nat, run: nat) returns (at: seq<nat>)
    requires qi <= |q| && ti <= |t| && Scan(q, t, qi, ti, run).0 == |q|
    ensures Embeds(q[qi..], t, at) && forall i :: 0 <= i < |at| ==> at[i] >= ti
    decreases |t| - ti
  {
    if qi == |q| {
      at := [];
    } else if Lower(q[qi]) == Lower(t[ti]) {
      at := ScanFinds(q, t, qi + 1, ti + 1, run + 1);
      assert q[qi..] == [q[qi]] + q[qi + 1..];
      at := [ti] + at;
    } else {
      at := ScanFinds(q, t, qi, ti + 1, 0);
    }
  }

  /** If the rest of the query embeds in the rest of the target, taking the first match never spoils it. */
  lemma {:induction false} ScanGetsThrough(q: bytes, t: bytes, qi: nat, ti: nat, run: nat, at: seq<nat>)
    requires qi <= |q| && ti <= |t|
    requires Embeds(q[qi..], t, at) && forall i :: 0 <= i < |at| ==> at[i] >= ti
    ensures Scan(q, t, qi, ti, run).0 == |q|
    decreases |t| - ti
  {
    if qi < |q| {
      assert q[qi..][0] == q[qi] && at[0] >= ti;
      if Lower(q[qi]) == Lower(t[ti]) {
        assert q[qi..][1..] == q[qi + 1..];
        assert Embeds(q[qi + 1..], t, at[1..]) by {
          forall i | 0 <= i < |at| - 1 ensures Lower(q[qi + 1..][i]) == Lower(t[at[1..][i]]) {
            assert q[qi..][i + 1] == q[qi + 1..][i];
          }
        }
        ScanGetsThrough(q, t, qi + 1, ti + 1, run + 1, at[1..]);
      } else {
        assert at[0] != ti;
        ScanGetsThrough(q, t, qi, ti + 1, 0, at);
      }
    }
  }

  /** The score is positive if and only if the query is a case-insensitive subsequence of the target. */
  lemma PositiveExactlyOnSubsequences(q: bytes, t: bytes)
    ensures Score(q, t) > 0 <==> Subsequence(q, t)
  {
    assert q[0..] == q;
    if q == [] {
      assert Embeds(q, t, []);
    } else {
      if Score(q, t) > 0 {
        var at := ScanFinds(q, t, 0, 0, 0);
      }
      if Subsequence(q, t) {
        var at :| Embeds(q, t, at);
        ScanGetsThrough(q, t, 0, 0, 0, at);
      }
    }
  }

  // ---------------------------------------------------------------------------------
  // What a score is worth, apart from how it is found.
  // ---------------------------------------------------------------------------------

  /** Two characters match exactly if they are the same or one letter in both cases. */
  lemma LowerMeaning(x: byte, y: byte)
    ensures Lower(x) == Lower(y) <==>
      || x == y
      || ('a' as int <= x <= 'z' as int && y == x - 32)
      || ('a' as int <= y <= 'z' as int && x == y - 32)
  {
  }

  /** The first character, or one after a dot, a hyphen or an underscore. */
  predicate StartsWord(t: bytes, i: nat)
    requires i < |t|
  {
    i == 0 || t[i - 1] in Ascii(".-_")
  }

  /** How many positions just before the `i`-th one follow each other. */
  function Chain(at: seq<nat>, i: nat): (c: nat)
    requires i < |at|
  {
    if i > 0 && at[i] == at[i - 1] + 1 then 1 + Chain(at, i - 1) else 0
  }

  /** Ten points for a match, five for each one it follows directly, twenty-five at the start of a word. */
  function Worth(t: bytes, at: seq<nat>): (w: nat)
    requires forall i :: 0 <= i < |at| ==> at[i] < |t|
  {
    if at == [] then 0
    else
      var n := |at| - 1;
      Worth(t, at[..n]) + 10 + 5 * Chain(at, n) + if StartsWord(t, at[n]) then 25 else 0
  }

  /** No embedding has any character further left. */
  ghost predicate Leftmost(q: bytes, t: bytes, at: seq<nat>) {
    forall other: seq<nat> :: Embeds(q, t, other) ==> forall i :: 0 <= i < |at| && i < |other| ==> at[i] <= other[i]
  }

  lemma {:induction false} ChainPrefix(at: seq<nat>, more: seq<nat>, i: nat)
    requires i < |at|
    ensures Chain(at + more, i) == Chain(at, i)
  {
    if i > 0 {
      ChainPrefix(at, more, i - 1);
    }
  }

  lemma WorthSnoc(t: bytes, at: seq<nat>, p: nat)
    requires p < |t| && forall i :: 0 <= i < |at| ==> at[i] < |t|
    ensures forall i :: 0 <= i < |at + [p]| ==> (at + [p])[i] < |t|
    ensures var run := if at != [] && p == at[|at| - 1] + 1 then Chain(at, |at| - 1) + 2 else 1;
      && Chain(at + [p], |at|) == run - 1
      && Worth(t, at + [p]) == Worth(t, at) + Points(t, p, run)
  {
    var more := at + [p];
    assert more[..|at|] == at;
    if at != [] {
      ChainPrefix(at, [p], |at| - 1);
    }
    assert Ascii(".-_") == [0x2E, 0x2D, 0x5F];
  }

  /** The run that the matcher has counted when it has matched at `at` and stands at `ti`. */
  function RunAt(at: seq<nat>, ti: nat): nat {
    if at != [] && at[|at| - 1] + 1 == ti then Chain(at, |at| - 1) + 1 else 0
  }

  /** `at` is where the matcher has found the query so far, as far left as can be. */
  ghost predicate FoundSoFar(q: bytes, t: bytes, at: seq<nat>, ti: nat) {
    && |at| <= |q| && ti <= |t|
    && (forall i, j :: 0 <= i < j < |at| ==> at[i] < at[j])
    && (forall i :: 0 <= i < |at| ==> at[i] < ti && Lower(q[i]) == Lower(t[at[i]]))
    && (forall other: seq<nat> :: Embeds(q, t, other) ==>
          && (forall i :: 0 <= i < |at| ==> at[i] <= other[i])
          && (|at| < |q| ==> ti <= other[|at|]))
  }

  lemma FoundOneMore(q: bytes, t: bytes, at: seq<nat>, ti: nat)
    requires FoundSoFar(q, t, at, ti) && |at| < |q| && ti < |t|
    ensures Lower(q[|at|]) == Lower(t[ti]) ==> FoundSoFar(q, t, at + [ti], ti + 1)
    ensures Lower(q[|at|]) != Lower(t[ti]) ==> FoundSoFar(q, t, at, ti + 1)
  {
    hide Lower;
    forall other: seq<nat> | Embeds(q, t, other)
      ensures ti <= other[|at|] && (|at| + 1 < |q| ==> ti + 1 <= other[|at| + 1])
      ensures Lower(q[|at|]) != Lower(t[ti]) ==> ti + 1 <= other[|at|]
    {
      assert |at| + 1 < |q| ==> other[|at|] < other[|at| + 1];
    }
  }

  lemma {:induction false} ScanIsWorth(q: bytes, t: bytes, at: seq<nat>, ti: nat) returns (end: seq<nat>)
    requires FoundSoFar(q, t, at, ti)
    ensures Scan(q, t, |at|, ti, RunAt(at, ti)).0 == |end| && ti <= |t|
    ensures exists te :: FoundSoFar(q, t, end, te)
    ensures forall i :: 0 <= i < |end| ==> end[i] < |t|
    ensures Scan(q, t, |at|, ti, RunAt(at, ti)).1 + Worth(t, at) == Worth(t, end)
    decreases |t| - ti
  {
    hide Worth, Chain, FoundSoFar, Lower, Points;
    Bounded(q, t, at, ti);
    if |at| == |q| || ti == |t| {
      end := at;
    } else {
      FoundOneMore(q, t, at, ti);
      if Lower(q[|at|]) == Lower(t[ti]) {
        WorthSnoc(t, at, ti);
        end := ScanIsWorth(q, t, at + [ti], ti + 1);
      } else {
        end := ScanIsWorth(q, t, at, ti + 1);
      }
    }
  }

  lemma Bounded(q: bytes, t: bytes, at: seq<nat>, ti: nat)
    requires FoundSoFar(q, t, at, ti)
    ensures |at| <= |q| && ti <= |t| && (forall i :: 0 <= i < |at| ==> at[i] < ti && at[i] < |t|)
    ensures at != [] ==> at[|at| - 1] < ti
  {
  }

  /**
   The score of a match is what its leftmost embedding is worth, less two points for every character
   that the target has more than the query, but at least one.
   */
  lemma ScoreMeaning(q: bytes, t: bytes) returns (at: seq<nat>)
    requires q != [] && Subsequence(q, t)
    ensures Embeds(q, t, at) && Leftmost(q, t, at)
    ensures var points := Worth(t, at) - 2 * (|t| - |q|);
      Score(q, t) == if points >= 1 then points else 1
  {
    hide Lower, Points;
    PositiveExactlyOnSubsequences(q, t);
    at := ScanIsWorth(q, t, [], 0);
    var te :| FoundSoFar(q, t, at, te);
  }

  // ---------------------------------------------------------------------------------
  // How high a score can be.
  // ---------------------------------------------------------------------------------

  /** The number of pairs among `n` things. */
  function PairCount(n: nat): nat {
    if n == 0 then 0 else PairCount(n - 1) + n - 1
  }

  lemma {:induction false} PairCountFormula(n: nat)
    ensures 2 * PairCount(n) == n * (n - 1)
  {
    if n > 0 {
      PairCountFormula(n - 1);
      assert n * (n - 1) == (n - 1) * (n - 2) + 2 * (n - 1);
    }
  }

  lemma {:induction false} ScanBound(q: bytes, t: bytes, qi: nat, ti: nat, run: nat)
    requires qi <= |q| && ti <= |t| && run <= qi
    ensures var (end, points) := Scan(q, t, qi, ti, run);
      points + 5 * PairCount(qi) <= 35 * (end - qi) + 5 * PairCount(end)
    decreases |t| - ti
  {
    if qi < |q| && ti < |t| {
      if Lower(q[qi]) == Lower(t[ti]) {
        ScanBound(q, t, qi + 1, ti + 1, run + 1);
      } else {
        ScanBound(q, t, qi, ti + 1, 0);
      }
    }
  }

  /** At most 35 points per character of the query, and 5 more for each pair of them. */
  lemma ScoreBound(q: bytes, t: bytes)
    requires q != []
    ensures Score(q, t) <= 35 * |q| + 5 * PairCount(|q|)
    ensures 2 * PairCount(|q|) == |q| * (|q| - 1)
  {
    ScanBound(q, t, 0, 0, 0);
    PairCountFormula(|q|);
  }

  function Dots(n: nat): bytes {
    seq(n, _ => 0x2E)
  }

  lemma {:induction false} DotsScan(n: nat, i: nat)
    requires i <= n
    ensures Scan(Dots(n), Dots(n), i, i, i).0 == n
    ensures Scan(Dots(n), Dots(n), i, i, i).1 + 35 * i + 5 * PairCount(i) == 35 * n + 5 * PairCount(n)
    decreases n - i
  {
    if i < n {
      DotsScan(n, i + 1);
      assert AtBoundary(Dots(n), i);
    }
  }

  /** The bound is reached: n dots, searched for in n dots. */
  lemma ScoreBoundIsTight(n: nat)
    requires n > 0
    ensures Score(Dots(n), Dots(n)) == 35 * n + 5 * PairCount(n)
  {
    DotsScan(n, 0);
  }

  const LONGEST := 29302

  lemma LongestSums()
    ensures 35 * LONGEST + 5 * PairCount(LONGEST) < 0x8000_0000 <= 35 * (LONGEST + 1) + 5 * PairCount(LONGEST + 1)
  {
    PairCountFormula(LONGEST);
    PairCountFormula(LONGEST + 1);
  }

  /** The sums of points of all queries of a length fit a 32-bit `int` if and only if that length is at most 29,302. */
  lemma SumsFitInt32(n: nat)
    ensures (forall q, t :: |q| == n ==> Scan(q, t, 0, 0, 0).1 < 0x8000_0000) <==> n <= LONGEST
  {
    hide Scan, PairCount;
    LongestSums();
    if n <= LONGEST {
      forall q: bytes, t: bytes | |q| == n ensures Scan(q, t, 0, 0, 0).1 < 0x8000_0000 {
        SumBelow(q, t, LONGEST);
      }
    } else {
      DotsScan(n, 0);
      PairCountGrows(LONGEST + 1, n);
      NoPairs();
      assert |Dots(n)| == n && Scan(Dots(n), Dots(n), 0, 0, 0).1 >= 0x8000_0000;
    }
  }

  lemma NoPairs()
    ensures PairCount(0) == 0
  {
  }

  lemma SumBelow(q: bytes, t: bytes, n: nat)
    requires |q| <= n
    ensures Scan(q, t, 0, 0, 0).1 <= 35 * n + 5 * PairCount(n)
  {
    ScanBound(q, t, 0, 0, 0);
    PairCountGrows(Scan(q, t, 0, 0, 0).0, n);
  }

  /** Then, for a target below 1 GiB, nothing else that the matcher computes leaves that range either. */
  lemma ScoresFitInt32(q: bytes, t: bytes)
    requires |q| <= LONGEST && |q| <= |t| < 0x4000_0000
    ensures 0 <= 2 * (|t| - |q|) < 0x8000_0000
    ensures -0x8000_0000 <= Scan(q, t, 0, 0, 0).1 - 2 * (|t| - |q|) < 0x8000_0000
    ensures Score(q, t) < 0x8000_0000
  {
    hide PairCount;
    LongestSums();
    SumBelow(q, t, LONGEST);
  }

  lemma {:induction false} PairCountGrows(m: nat, n: nat)
    requires m <= n
    ensures PairCount(m) <= PairCount(n)
  {
    if m < n {
      PairCountGrows(m, n - 1);
    }
  }

  // ---------------------------------------------------------------------------------
  // The listing.
  // ---------------------------------------------------------------------------------

  function Matching(es: Entries, q: bytes): (r: Entries) {
    if es == [] then []
    else if Score(q, es[|es| - 1].service) > 0 then Matching(es[..|es| - 1], q) + [es[|es| - 1]]
    else Matching(es[..|es| - 1], q)
  }

  ghost predicate Ranked(es: Entries, q: bytes) {
    forall i, j :: 0 <= i < j < |es| ==> Score(q, es[i].service) >= Score(q, es[j].service)
  }

  /** What `list_entries` may return: everything in vault order, or the matches by falling score, ties in any order. */
  ghost predicate IsListing(es: Entries, q: bytes, r: Entries) {
    if q == [] then r == es else multiset(r) == multiset(Matching(es, q)) && Ranked(r, q)
  }

  /** The matches are, with their multiplicity, the entries of which the query is a subsequence. */
  lemma {:induction false} MatchingCounts(es: Entries, q: bytes, e: Entry)
    ensures multiset(Matching(es, q))[e] == if Subsequence(q, e.service) then multiset(es)[e] else 0
  {
    hide Score, Subsequence;
    PositiveExactlyOnSubsequences(q, e.service);
    if es != [] {
      var last := es[|es| - 1];
      MatchingCounts(es[..|es| - 1], q, e);
      assert es == es[..|es| - 1] + [last];
    }
  }

  /** Insert by falling score; stands for one round of the library's sort. */
  method Insert(sorted: Entries, e: Entry, q: bytes) returns (r: Entries)
    requires Ranked(sorted, q)
    ensures Ranked(r, q) && multiset(r) == multiset(sorted) + multiset{e}
  {
    hide Score;
    var i := 0;
    while i < |sorted| && Score(q, sorted[i].service) > Score(q, e.service)
      invariant 0 <= i <= |sorted|
      invariant forall j :: 0 <= j < i ==> Score(q, sorted[j].service) > Score(q, e.service)
    {
      i := i + 1;
    }
    r := sorted[..i] + [e] + sorted[i..];
    assert sorted == sorted[..i] + sorted[i..];
  }

  method ListEntries(entries: Entries, query: bytes) returns (r: Entries)
    ensures IsListing(entries, query, r)
  {
    hide Score;
    if query == [] {
      return entries;
    }
    var filtered: Entries := [];
    var i := 0;
    while i < |entries|
      invariant 0 <= i <= |entries| && filtered == Matching(entries[..i], query)
    {
      assert entries[..i + 1][..i] == entries[..i];
      var score := FuzzyMatch(query, entries[i].service);
      if score > 0 {
        filtered := filtered + [entries[i]];
      }
      i := i + 1;
    }
    assert entries[..i] == entries;
    r := [];
    i := 0;
    while i < |filtered|
      invariant 0 <= i <= |filtered|
      invariant Ranked(r, query) && multiset(r) == multiset(filtered[..i])
    {
      r := Insert(r, filtered[i], query);
      assert filtered[..i + 1] == filtered[..i] + [filtered[i]];
      i := i + 1;
    }
    assert filtered[..i] == filtered;
  }
}
