/**
  How many values machine words take, and products of two variables, taken in small steps.
 */
module Arithmetic {
  const WORD16 := 0x1_0000
  const WORD32 := 0x1_0000_0000
  const WORD64 := 0x1_0000_0000_0000_0000

  /** The value of a byte. */
  type Octet = x: nat | x < 256

  lemma Distribute(q: nat, m: nat)
    ensures (q + 1) * m == q * m + m
  {
  }

  lemma {:induction false} Apart(q: nat, k: nat, m: nat)
    requires q < k
    ensures k * m >= q * m + m
  {
    Distribute(k - 1, m);
    if q < k - 1 {
      Apart(q, k - 1, m);
    }
  }

  lemma RemainderIs(x: nat, q: nat, r: nat, m: nat)
    requires r < m && x == r + q * m
    ensures x % m == r && x / m == q
  {
    var k, s := x / m, x % m;
    assert x == k * m + s;
    if k < q {
      Apart(k, q, m);
    } else if q < k {
      Apart(q, k, m);
    }
  }
}
