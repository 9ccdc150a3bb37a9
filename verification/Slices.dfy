/** Parts of byte sequences, for reasoning about encoders and decoders. */
module Slices {
  import opened Prelude

  /** `part` stands in `buf` at `offset`. */
  ghost predicate Stands(buf: bytes, offset: nat, part: bytes) {
    offset + |part| <= |buf| && buf[offset..offset + |part|] == part
  }

  lemma StandsSplit(buf: bytes, offset: nat, x: bytes, y: bytes)
    requires Stands(buf, offset, x + y)
    ensures Stands(buf, offset, x) && Stands(buf, offset + |x|, y)
  {
    var z := buf[offset..offset + |x + y|];
    assert z[..|x|] == x && z[|x|..] == y;
  }

  lemma StandsJoin(buf: bytes, offset: nat, x: bytes, y: bytes)
    requires Stands(buf, offset, x) && Stands(buf, offset + |x|, y)
    ensures Stands(buf, offset, x + y)
  {
    assert buf[offset..offset + |x + y|] == buf[offset..offset + |x|] + buf[offset + |x|..offset + |x| + |y|];
  }

  lemma StandsWhole(b: bytes)
    ensures Stands(b, 0, b)
  {
  }

  lemma Assoc(x: bytes, y: bytes, z: bytes)
    ensures (x + y) + z == x + (y + z)
  {
  }
}
