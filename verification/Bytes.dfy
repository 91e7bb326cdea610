/** Bytes and big-endian integers, as encoding/binary writes them. */
module Bytes {
  type Byte = x: int | 0 <= x < 256

  type Text = seq<Byte>

  /** The value of the leading `width` bytes' place. */
  function Pow256(width: nat): (p: nat)
    ensures p >= 1
  {
    if width == 0 then 1 else 256 * Pow256(width - 1)
  }

  /** The low `width` bytes of `v`, most significant first. */
  function BigEndian(v: nat, width: nat): (b: seq<Byte>)
    ensures |b| == width
  {
    if width == 0 then [] else BigEndian(v / 256, width - 1) + [v % 256]
  }

  function Value(b: seq<Byte>): nat {
    if b == [] then 0 else Value(b[..|b| - 1]) * 256 + b[|b| - 1]
  }

  lemma {:induction false} ValueOfBigEndian(v: nat, width: nat)
    requires v < Pow256(width)
    ensures Value(BigEndian(v, width)) == v
  {
    if width == 0 {
    } else {
      var b := BigEndian(v, width);
      assert b[..|b| - 1] == BigEndian(v / 256, width - 1);
      ValueOfBigEndian(v / 256, width - 1);
    }
  }

  lemma {:induction false} BigEndianOfValue(b: seq<Byte>)
    ensures Value(b) < Pow256(|b|) && BigEndian(Value(b), |b|) == b
  {
    if b == [] {
    } else {
      var front, last := b[..|b| - 1], b[|b| - 1];
      BigEndianOfValue(front);
      assert b == front + [last] && Value(b) / 256 == Value(front) && Value(b) % 256 == last;
    }
  }

  /** Width is what limits big-endian numbers: below 256^width they are pairwise distinct, and at
      256^width they start over. */
  lemma BigEndianInjective(v: nat, w: nat, width: nat)
    requires v < Pow256(width) && w < Pow256(width)
    ensures BigEndian(v, width) == BigEndian(w, width) ==> v == w
  {
    ValueOfBigEndian(v, width);
    ValueOfBigEndian(w, width);
  }

  lemma {:induction false} BigEndianWraps(width: nat)
    ensures BigEndian(Pow256(width), width) == BigEndian(0, width)
  {
    if width == 0 {
    } else {
      BigEndianWraps(width - 1);
    }
  }
}
