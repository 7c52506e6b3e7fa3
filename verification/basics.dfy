/** Bytes, optional values, little-endian reads and division, shared by all the models. */
module Basics {
  type byte = x: int | 0 <= x < 256

  datatype Option<+T> = None | Some(value: T) {
    predicate IsFailure() { None? }
    function PropagateFailure<U>(): Option<U> requires None? { None }
    function Extract(): T requires Some? { value }
  }

  /** A request to the device: it succeeds if the device is healthy and may fail otherwise. */
  method Answers(healthy: bool) returns (ok: bool)
    ensures healthy ==> ok
  {
    ok := true;
    if !healthy {
      ok := *;
    }
  }

  function Zeros(n: nat): (r: seq<byte>)
    ensures |r| == n
  {
    seq(n, i => 0 as byte)
  }

  /** Little-endian reads. */
  function Rd16(b: seq<byte>, i: nat): nat
    requires i + 2 <= |b|
  {
    b[i] as int + 256 * (b[i + 1] as int)
  }

  function Rd32(b: seq<byte>, i: nat): nat
    requires i + 4 <= |b|
  {
    Rd16(b, i) + 0x1_0000 * Rd16(b, i + 2)
  }

  /** Two spans that share a place. */
  predicate Overlap(a: nat, n: nat, b: nat, m: nat) { n > 0 && m > 0 && a < b + m && b < a + n }

  predicate Power2(n: nat) { n == 1 || (n > 0 && n % 2 == 0 && Power2(n / 2)) }

  /** Where user memory lies. */
  const USER_BASE: nat := 0x4000_0000_0000
  const USER_LIMIT: nat := 0x4080_0000_0000

  lemma Multiples(x: int, y: int, n: nat)
    requires x <= y
    ensures x * n <= y * n
  {
  }

  lemma DivideUnique(a: int, n: nat, q: int, r: nat)
    requires n > 0 && a == q * n + r && r < n
    ensures a / n == q && a % n == r
  {
    var q', r' := a / n, a % n;
    assert a == q' * n + r';
    if q' < q {
      Multiples(q' + 1, q, n);
      assert false;
    } else if q < q' {
      Multiples(q + 1, q', n);
      assert false;
    }
  }
}
