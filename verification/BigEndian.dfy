/**
  Numbers as strings of bytes, the most significant byte first.
 */
module BigEndian {
  import opened Arithmetic
  import opened Bytes

  function ByteOf(n: nat): Byte {
    (n % 256) as bv8
  }

  /** The number, most significant byte first. */
  function Value(s: seq<Byte>): nat {
    if s == [] then 0 else Value(s[..|s| - 1]) * 256 + s[|s| - 1] as nat
  }

  lemma NoBytes()
    ensures Value([]) == 0
  {
  }

  function Pow256(n: nat): (p: nat)
    ensures p > 0
  {
    if n == 0 then 1 else 256 * Pow256(n - 1)
  }

  lemma {:induction false} ValueFits(s: seq<Byte>)
    ensures Value(s) < Pow256(|s|)
  {
    if s != [] {
      ValueFits(s[..|s| - 1]);
    }
  }

  lemma OneByteMore(b: nat, p: nat, v: nat, x: nat)
    ensures (b * p + v) * 256 + x == b * (256 * p) + (v * 256 + x)
  {
  }

  /** The first byte counts for the most. */
  lemma {:induction false} ValueIsBigEndian(b: Byte, s: seq<Byte>)
    ensures Value([b] + s) == b as nat * Pow256(|s|) + Value(s)
  {
    var t := [b] + s;
    if s == [] {
      assert t[..0] == [];
    } else {
      assert t[..|t| - 1] == [b] + s[..|s| - 1];
      ValueIsBigEndian(b, s[..|s| - 1]);
      OneByteMore(b as nat, Pow256(|s| - 1), Value(s[..|s| - 1]), s[|s| - 1] as nat);
    }
  }

  lemma NextDigit(n: nat, m: nat)
    requires m > 0
    ensures n / 256 % m * 256 + n % 256 == n % (256 * m)
  {
    var q, r, d := n / 256 / m, n / 256 % m, n % 256;
    assert n / 256 == m * q + r && n == 256 * (n / 256) + d;
    assert n == (256 * m) * q + (r * 256 + d);
    RemainderIs(n, q, r * 256 + d, 256 * m);
  }

  lemma ByteOfValue(n: nat)
    ensures ByteOf(n) as nat == n % 256
  {
    ToByteValue(n % 256);
  }

  /** A byte more, from the number that is left over. */
  lemma ValueGrows(s: seq<Byte>, n: nat, m: nat)
    requires m > 0 && Value(s) == n / 256 % m
    ensures Value(s + [ByteOf(n)]) == n % (256 * m)
  {
    var t := s + [ByteOf(n)];
    assert t[..|t| - 1] == s;
    ByteOfValue(n);
    NextDigit(n, m);
  }

  lemma Quotients(n: nat)
    ensures n / 0x100 / 0x100 == n / 0x1_0000 && n / 0x1_0000 / 0x100 == n / 0x100_0000
    ensures n / 0x100_0000 / 0x100 == n / WORD32
  {
  }

  lemma FourBytes(n: nat)
    ensures Value([] + [ByteOf(n / 0x100_0000)] + [ByteOf(n / 0x1_0000)] + [ByteOf(n / 0x100)] + [ByteOf(n)]) == n % WORD32
  {
    hide ByteOf, Value;
    Quotients(n);
    var b3 := [] + [ByteOf(n / 0x100_0000)];
    var b2 := b3 + [ByteOf(n / 0x1_0000)];
    var b1 := b2 + [ByteOf(n / 0x100)];
    NoBytes();
    ValueGrows([], n / 0x100_0000, 1);
    ValueGrows(b3, n / 0x1_0000, 0x100);
    ValueGrows(b2, n / 0x100, 0x1_0000);
    ValueGrows(b1, n, 0x100_0000);
  }

  lemma FourMore(s: seq<Byte>, n: nat)
    requires Value(s) == n / WORD32 % WORD32
    ensures Value(s + [ByteOf(n / 0x100_0000)] + [ByteOf(n / 0x1_0000)] + [ByteOf(n / 0x100)] + [ByteOf(n)]) == n % WORD64
  {
    hide ByteOf, Value;
    Quotients(n);
    var b3 := s + [ByteOf(n / 0x100_0000)];
    var b2 := b3 + [ByteOf(n / 0x1_0000)];
    var b1 := b2 + [ByteOf(n / 0x100)];
    ValueGrows(s, n / 0x100_0000, WORD32);
    ValueGrows(b3, n / 0x1_0000, 0x100_0000_0000);
    ValueGrows(b2, n / 0x100, 0x1_0000_0000_0000);
    ValueGrows(b1, n, 0x100_0000_0000_0000);
  }
}
