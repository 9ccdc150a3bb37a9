/**
 Fixed-width integers and length-prefixed strings: little-endian in the vault file
 (src/vault.cpp), big-endian on the agent's socket (src/ipc.cpp).
 */
module Endian {
  import opened Prelude

  /** The `k` low-order base-256 digits of `v`, least significant first. */
  function Le(v: nat, k: nat): (b: bytes)
    ensures |b| == k
  {
    if k == 0 then [] else [v % 256] + Le(v / 256, k - 1)
  }

  /** The number a little-endian digit string denotes. */
  function FromLe(b: bytes): (v: nat) {
    if b == [] then 0 else b[0] + 256 * FromLe(b[1..])
  }

  /** Big-endian is little-endian read backwards; the same digits, most significant first. */
  function Be(v: nat, k: nat): (b: bytes)
    ensures |b| == k
  {
    if k == 0 then [] else Be(v / 256, k - 1) + [v % 256]
  }

  function FromBe(b: bytes): (v: nat) {
    if b == [] then 0 else 256 * FromBe(b[..|b| - 1]) + b[|b| - 1]
  }

  function Pow256(k: nat): (p: nat)
    ensures p > 0
  {
    if k == 0 then 1 else 256 * Pow256(k - 1)
  }

  lemma Widths()
    ensures Pow256(4) == 0x1_0000_0000
    ensures Pow256(8) == 0x1_0000_0000_0000_0000
  {
    assert Pow256(2) == 0x1_0000;
    assert Pow256(4) == 0x1_0000 * Pow256(2);
    assert Pow256(6) == 0x1_0000 * Pow256(4);
    assert Pow256(8) == 0x1_0000 * Pow256(6);
  }

  lemma {:induction false} LeRoundTrip(v: nat, k: nat)
    requires v < Pow256(k)
    ensures FromLe(Le(v, k)) == v
  {
    if k > 0 {
      LeRoundTrip(v / 256, k - 1);
      assert Le(v, k)[1..] == Le(v / 256, k - 1);
    }
  }

  lemma {:induction false} BeRoundTrip(v: nat, k: nat)
    requires v < Pow256(k)
    ensures FromBe(Be(v, k)) == v
  {
    if k > 0 {
      BeRoundTrip(v / 256, k - 1);
      assert Be(v, k)[..k - 1] == Be(v / 256, k - 1);
    }
  }

  lemma {:induction false} FromBeBound(b: bytes)
    ensures FromBe(b) < Pow256(|b|)
  {
    if b != [] {
      FromBeBound(b[..|b| - 1]);
    }
  }

  lemma {:induction false} FromLeBound(b: bytes)
    ensures FromLe(b) < Pow256(|b|)
  {
    if b != [] {
      FromLeBound(b[1..]);
    }
  }

  /** A digit string is determined by its length and its value. */
  lemma {:induction false} BeUnique(b: bytes)
    ensures Be(FromBe(b), |b|) == b
  {
    if b != [] {
      BeUnique(b[..|b| - 1]);
      assert b == b[..|b| - 1] + [b[|b| - 1]];
    }
  }

  lemma {:induction false} LeUnique(b: bytes)
    ensures Le(FromLe(b), |b|) == b
  {
    if b != [] {
      LeUnique(b[1..]);
      LastDigit(b[0], FromLe(b[1..]));
      assert b == [b[0]] + b[1..];
    }
  }

  lemma LastDigit(d: byte, v: nat)
    ensures (d + 256 * v) % 256 == d && (d + 256 * v) / 256 == v
  {
  }

  lemma {:induction false} LeZero(k: nat)
    ensures |Le(0, k)| == k && forall i :: 0 <= i < k ==> Le(0, k)[i] == 0
  {
    if k > 0 {
      LeZero(k - 1);
    }
  }

  /** A small number has one digit, and zeros. */
  lemma LeSmall(n: byte, k: nat)
    requires k > 0
    ensures Le(n, k)[0] == n && forall i :: 1 <= i < k ==> Le(n, k)[i] == 0
  {
    LeZero(k - 1);
  }
}
