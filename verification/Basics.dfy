/** Values every part of the kernel handles. */
module Basics {
  type byte = x: int | 0 <= x < 256

  datatype Option<+T> = None | Some(value: T)

  /** The number a little-endian byte string denotes. */
  function Value(s: seq<byte>): nat {
    if s == [] then 0 else s[0] + 256 * Value(s[1..])
  }

  /** Bit `k` of a number, the lowest being bit 0. */
  ghost predicate Bit(x: nat, k: nat) {
    if k == 0 then x % 2 == 1 else Bit(x / 2, k - 1)
  }

  lemma LowBits(x: nat)
    ensures Bit(x, 0) <==> x % 2 == 1
    ensures Bit(x, 1) <==> x / 2 % 2 == 1
    ensures Bit(x, 2) <==> x / 2 / 2 % 2 == 1
    ensures Bit(x, 3) <==> x / 2 / 2 / 2 % 2 == 1
    ensures Bit(x, 4) <==> x / 2 / 2 / 2 / 2 % 2 == 1
  {
    assert Bit(x, 1) <==> Bit(x / 2, 0);
    assert Bit(x, 2) <==> Bit(x / 2, 1);
    assert Bit(x / 2, 1) <==> Bit(x / 2 / 2, 0);
    assert Bit(x, 3) <==> Bit(x / 2, 2);
    assert Bit(x / 2, 2) <==> Bit(x / 2 / 2, 1);
    assert Bit(x / 2 / 2, 1) <==> Bit(x / 2 / 2 / 2, 0);
    assert Bit(x, 4) <==> Bit(x / 2, 3);
    assert Bit(x / 2, 3) <==> Bit(x / 2 / 2, 2);
    assert Bit(x / 2 / 2, 2) <==> Bit(x / 2 / 2 / 2, 1);
    assert Bit(x / 2 / 2 / 2, 1) <==> Bit(x / 2 / 2 / 2 / 2, 0);
  }
}
