/** Little-endian numbers in byte sequences. */
module LittleEndian {
  import opened Basics

  function Pow256(n: nat): (r: nat)
    ensures r >= 1
  {
    if n == 0 then 1 else 256 * Pow256(n - 1)
  }

  /** The n low bytes of v. */
  function Le(v: nat, n: nat): (r: seq<byte>)
    ensures |r| == n
  {
    if n == 0 then [] else [v % 256] + Le(v / 256, n - 1)
  }

  function Value(s: seq<byte>): nat { if s == [] then 0 else s[0] as int + 256 * Value(s[1..]) }

  /** Reading back what fits gives the number. */
  lemma {:induction false} LeBack(v: nat, n: nat)
    requires v < Pow256(n)
    ensures Value(Le(v, n)) == v
  {
    if n > 0 {
      assert v / 256 < Pow256(n - 1);
      LeBack(v / 256, n - 1);
      assert Le(v, n)[1..] == Le(v / 256, n - 1);
    }
  }

  lemma Powers()
    ensures Pow256(2) == 0x1_0000 && Pow256(4) == 0x1_0000_0000 && Pow256(8) == 0x1_0000_0000_0000_0000
  {
    assert Pow256(1) == 256 && Pow256(3) == 0x100_0000 && Pow256(5) == 0x100_0000_0000;
    assert Pow256(6) == 0x1_0000_0000_0000 && Pow256(7) == 0x100_0000_0000_0000;
  }

  function Field(a: seq<byte>, at: nat, n: nat): nat
    requires at + n <= |a|
  {
    Value(a[at..at + n])
  }

  lemma {:induction false} ZeroValue(n: nat)
    ensures Value(Zeros(n)) == 0
  {
    if n > 0 {
      ZeroValue(n - 1);
      assert Zeros(n)[1..] == Zeros(n - 1);
    }
  }
}
