/** Octets and the big-endian integers that the wire formats share. */
module Bytes {

  type Byte = b: int | 0 <= b < 256

  type Payload = seq<Byte>

  const TWO_TO_64: int := 0x1_0000_0000_0000_0000

  newtype uint64 = x: int | 0 <= x < TWO_TO_64

  datatype Option<+T> = None | Some(value: T)

  /** 256 to the given power: one more than the largest integer of that width. */
  function Pow256(width: nat): (p: nat)
    ensures p >= 1
  {
    if width == 0 then 1 else 256 * Pow256(width - 1)
  }

  /** encoding/binary BigEndian.PutUint16/32: the low `width` octets of n. */
  function PutUint(n: nat, width: nat): (b: seq<Byte>)
    ensures |b| == width
  {
    if width == 0 then [] else PutUint(n / 256, width - 1) + [n % 256]
  }

  /** encoding/binary BigEndian.Uint16/32. */
  function Uint(b: seq<Byte>): (n: nat)
  {
    if b == [] then 0 else 256 * Uint(b[..|b| - 1]) + b[|b| - 1]
  }

  lemma {:induction false} UintOfPut(n: nat, width: nat)
    requires n < Pow256(width)
    ensures Uint(PutUint(n, width)) == n
  {
    if width > 0 {
      UintOfPut(n / 256, width - 1);
      var b := PutUint(n, width);
      assert b[..width - 1] == PutUint(n / 256, width - 1);
    }
  }

  lemma {:induction false} PutOfUint(b: seq<Byte>)
    ensures Uint(b) < Pow256(|b|)
    ensures PutUint(Uint(b), |b|) == b
  {
    if b != [] {
      PutOfUint(b[..|b| - 1]);
      assert b == b[..|b| - 1] + [b[|b| - 1]];
    }
  }

  lemma Widths()
    ensures Pow256(1) == 0x100 && Pow256(2) == 0x1_0000 && Pow256(4) == 0x1_0000_0000
  {
    assert Pow256(2) == 256 * Pow256(1);
    assert Pow256(3) == 256 * Pow256(2);
  }

  /** The most significant octet comes first. */
  lemma BigEndian16(n: nat)
    requires n < 0x1_0000
    ensures PutUint(n, 2) == [n / 0x100, n % 0x100]
  {
    assert PutUint(n / 256, 1) == PutUint(n / 256 / 256, 0) + [n / 256 % 256];
  }

  lemma BigEndian32(n: nat)
    requires n < 0x1_0000_0000
    ensures PutUint(n, 4) == [n / 0x100_0000, n / 0x1_0000 % 0x100, n / 0x100 % 0x100, n % 0x100]
  {
    var high, low := n / 0x1_0000, n % 0x1_0000;
    BigEndian16(high);
    assert n / 256 / 256 == high;
    assert PutUint(n / 256, 3) == PutUint(high, 2) + [n / 256 % 256];
  }
}
