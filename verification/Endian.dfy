/** Big-endian integers of a fixed number of bytes. */
module Endian {
  import opened Basics

  function Pow256(n: nat): nat {
    if n == 0 then 1 else 256 * Pow256(n - 1)
  }

  /** The n low-order bytes of v, most significant first. */
  function BE(v: nat, n: nat): (s: Bytes)
    ensures |s| == n
  {
    if n == 0 then [] else BE(v / 256, n - 1) + [v % 256]
  }

  function FromBE(s: Bytes): nat {
    if s == [] then 0 else 256 * FromBE(s[..|s| - 1]) + s[|s| - 1]
  }

  lemma {:induction false} ReadBack(v: nat, n: nat)
    requires v < Pow256(n)
    ensures FromBE(BE(v, n)) == v
  {
    if n > 0 {
      assert v / 256 < Pow256(n - 1);
      ReadBack(v / 256, n - 1);
      assert BE(v, n)[..n - 1] == BE(v / 256, n - 1);
    }
  }

  lemma {:induction false} WriteBack(s: Bytes)
    ensures FromBE(s) < Pow256(|s|) && BE(FromBE(s), |s|) == s
  {
    if s != [] {
      var n := |s| - 1;
      WriteBack(s[..n]);
      assert FromBE(s) / 256 == FromBE(s[..n]) && FromBE(s) % 256 == s[n];
      assert s == s[..n] + [s[n]];
    }
  }

  lemma Powers()
    ensures Pow256(2) == 0x1_0000 && Pow256(4) == 0x1_0000_0000 && Pow256(8) == 0x1_0000_0000_0000_0000
  {
    assert Pow256(4) == 256 * 256 * Pow256(2);
    assert Pow256(6) == 256 * 256 * Pow256(4);
  }
}
