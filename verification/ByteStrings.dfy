/** Bytes, and numbers in big-endian byte order. */
module ByteStrings {

  type byte = x: int | 0 <= x < 0x100

  type bytes = seq<byte>

  function Pow256(n: nat): (p: nat)
    ensures p > 0
  {
    if n == 0 then 1 else 256 * Pow256(n - 1)
  }

  /** Big-endian. */
  function Be(s: bytes): nat {
    if s == [] then 0 else Be(s[..|s| - 1]) * 256 + s[|s| - 1]
  }

  function PutBe(n: nat, v: nat): (s: bytes)
    ensures |s| == n
  {
    if n == 0 then [] else PutBe(n - 1, v / 256) + [v % 256]
  }

  /** The first byte counts most. */
  lemma {:induction false} BeFirst(b: byte, s: bytes)
    ensures Be([b] + s) == b * Pow256(|s|) + Be(s)
  {
    if s == [] {
      assert ([b] + s)[..0] == [];
    } else {
      var n := |s| - 1;
      BeFirst(b, s[..n]);
      assert ([b] + s)[..|s|] == [b] + s[..n];
      assert b * Pow256(|s|) == (b * Pow256(n)) * 256;
    }
  }

  lemma {:induction false} BePut(n: nat, v: nat)
    requires v < Pow256(n)
    ensures Be(PutBe(n, v)) == v
  {
    if n > 0 {
      BePut(n - 1, v / 256);
      assert (PutBe(n - 1, v / 256) + [v % 256])[..n - 1] == PutBe(n - 1, v / 256);
    }
  }

  lemma {:induction false} PutBeOf(s: bytes)
    ensures Be(s) < Pow256(|s|) && PutBe(|s|, Be(s)) == s
  {
    if s != [] {
      var t := s[..|s| - 1];
      PutBeOf(t);
      assert Be(s) / 256 == Be(t) && Be(s) % 256 == s[|s| - 1];
      assert t + [s[|s| - 1]] == s;
    }
  }

  lemma {:induction false} Powers()
    ensures Pow256(2) == 0x1_0000 && Pow256(4) == 0x1_0000_0000 && Pow256(8) == 0x1_0000_0000_0000_0000
  {
    assert Pow256(2) == 256 * Pow256(1) == 256 * (256 * Pow256(0));
    assert Pow256(4) == 256 * Pow256(3) == 256 * (256 * Pow256(2));
    assert Pow256(6) == 256 * Pow256(5) == 256 * (256 * Pow256(4));
    assert Pow256(8) == 256 * Pow256(7) == 256 * (256 * Pow256(6));
  }
}
