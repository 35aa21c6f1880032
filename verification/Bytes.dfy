/**
  Bytes and words: the numbers bytes stand for, their exclusive-or, and the field GF(2^8) of
  section 4 of FIPS 197.
 */
module Bytes {
  type Byte = bv8
  type Word = bv32

  function Zeros(n: nat): (s: seq<Byte>)
    ensures |s| == n
    ensures forall i :: 0 <= i < n ==> s[i] == 0
  {
    seq(n, i => 0)
  }

  /** Adding one wraps around at 256. */
  lemma PlusOne(x: Byte)
    ensures (x + 1) as nat == if x == 0xff then 0 else x as nat + 1
  {
  }

  /** The byte reached by counting up from zero. */
  function CountedUp(v: nat): (b: Byte)
    requires v < 256
    ensures b as nat == v
  {
    if v == 0 then 0
    else
      var b := CountedUp(v - 1);
      PlusOne(b);
      b + 1
  }

  /** The byte with a given value. */
  function ToByte(v: nat): Byte
    requires v < 256
  {
    v as Byte
  }

  lemma ToByteValue(v: nat)
    requires v < 256
    ensures ToByte(v) as nat == v
  {
    var b := CountedUp(v);
    assert (b as nat) as Byte == b;
  }

  lemma SameByte(x: Byte)
    ensures ToByte(x as nat) == x
  {
  }

  function Xor(x: Byte, y: Byte): Byte {
    x ^ y
  }

  lemma XorTwice(x: Byte, k: Byte)
    ensures Xor(Xor(x, k), k) == x
  {
  }

  lemma XorCommutes(x: Byte, y: Byte)
    ensures Xor(x, y) == Xor(y, x)
  {
  }

  lemma XorZero(x: Byte)
    ensures Xor(x, x) == 0 && Xor(x, 0) == x
  {
  }

  lemma XorAssociates(x: Byte, y: Byte, z: Byte)
    ensures Xor(Xor(x, y), z) == Xor(x, Xor(y, z))
  {
  }

  function Xor4(x: Byte, y: Byte, z: Byte, w: Byte): Byte {
    Xor(Xor(Xor(x, y), z), w)
  }

  lemma XorTurns(x: Byte, y: Byte, z: Byte, w: Byte)
    ensures Xor4(x, y, z, w) == Xor4(y, z, w, x)
  {
    hide Xor;
    XorAssociates(x, y, z);
    XorAssociates(x, Xor(y, z), w);
    XorCommutes(x, Xor(Xor(y, z), w));
  }

  lemma Interchange(a: Byte, b: Byte, c: Byte, d: Byte)
    ensures Xor(Xor(a, b), Xor(c, d)) == Xor(Xor(a, c), Xor(b, d))
  {
    hide Xor;
    XorAssociates(a, b, Xor(c, d));
    XorAssociates(b, c, d);
    XorCommutes(b, c);
    XorAssociates(c, b, d);
    XorAssociates(a, c, Xor(b, d));
  }

  lemma XorZeros(x: Byte)
    ensures Xor4(x, 0, 0, 0) == x
  {
    hide Xor;
    XorZero(x);
  }

  lemma Add4(p0: Byte, p1: Byte, p2: Byte, p3: Byte, q0: Byte, q1: Byte, q2: Byte, q3: Byte)
    ensures Xor(Xor4(p0, p1, p2, p3), Xor4(q0, q1, q2, q3)) == Xor4(Xor(p0, q0), Xor(p1, q1), Xor(p2, q2), Xor(p3, q3))
  {
    hide Xor;
    Interchange(p0, p1, q0, q1);
    Interchange(Xor(p0, p1), p2, Xor(q0, q1), q2);
    Interchange(Xor(Xor(p0, p1), p2), p3, Xor(Xor(q0, q1), q2), q3);
  }

  /** A square of bytes may be summed up by rows or by columns. */
  lemma Regroup(p0: Byte, p1: Byte, p2: Byte, p3: Byte, q0: Byte, q1: Byte, q2: Byte, q3: Byte,
                r0: Byte, r1: Byte, r2: Byte, r3: Byte, s0: Byte, s1: Byte, s2: Byte, s3: Byte)
    ensures Xor4(Xor4(p0, p1, p2, p3), Xor4(q0, q1, q2, q3), Xor4(r0, r1, r2, r3), Xor4(s0, s1, s2, s3))
            == Xor4(Xor4(p0, q0, r0, s0), Xor4(p1, q1, r1, s1), Xor4(p2, q2, r2, s2), Xor4(p3, q3, r3, s3))
  {
    hide Xor;
    Add4(p0, p1, p2, p3, q0, q1, q2, q3);
    Add4(Xor(p0, q0), Xor(p1, q1), Xor(p2, q2), Xor(p3, q3), r0, r1, r2, r3);
    Add4(Xor(Xor(p0, q0), r0), Xor(Xor(p1, q1), r1), Xor(Xor(p2, q2), r2), Xor(Xor(p3, q3), r3), s0, s1, s2, s3);
  }

  // ----- the field GF(2^8) -----

  predicate Top(x: Byte) {
    x & 0x80 != 0
  }

  function Shl(x: Byte): Byte {
    x << 1
  }

  /** A byte times the polynomial x, modulo x^8 + x^4 + x^3 + x + 1. */
  function Xtime(x: Byte): Byte {
    if Top(x) then Xor(Shl(x), 0x1b) else Shl(x)
  }

  lemma TopAdds(x: Byte, y: Byte)
    ensures Top(Xor(x, y)) <==> Top(x) != Top(y)
  {
  }

  lemma ShlAdds(x: Byte, y: Byte)
    ensures Shl(Xor(x, y)) == Xor(Shl(x), Shl(y))
  {
  }

  /** That product is additive. */
  lemma XtimeAdds(x: Byte, y: Byte)
    ensures Xtime(Xor(x, y)) == Xor(Xtime(x), Xtime(y))
  {
    hide Xor, Shl, Top;
    TopAdds(x, y);
    ShlAdds(x, y);
    Interchange(Shl(x), 0x1b, Shl(y), 0x1b);
    XorZero(0x1b);
    XorZero(Xor(Shl(x), Shl(y)));
    XorAssociates(Shl(x), Shl(y), 0x1b);
    XorAssociates(Shl(x), 0x1b, Shl(y));
    XorCommutes(0x1b, Shl(y));
  }

  // ----- sums of multiples of one byte -----

  function Pick(chosen: bool, x: Byte): Byte {
    if chosen then x else 0
  }

  datatype Powers = Powers(x: Byte, x2: Byte, x4: Byte, x8: Byte, x16: Byte)

  /** Which of them take part in a sum. */
  datatype Choice = Choice(a: bool, b: bool, c: bool, d: bool, e: bool)

  function Total(a: bool, b: bool, c: bool, d: bool, e: bool, x: Byte, x2: Byte, x4: Byte, x8: Byte, x16: Byte): Byte {
    Xor(Xor4(Pick(a, x), Pick(b, x2), Pick(c, x4), Pick(d, x8)), Pick(e, x16))
  }

  function Sum(m: Choice, p: Powers): Byte {
    Total(m.a, m.b, m.c, m.d, m.e, p.x, p.x2, p.x4, p.x8, p.x16)
  }

  function Either(m: Choice, n: Choice): Choice {
    Choice(m.a != n.a, m.b != n.b, m.c != n.c, m.d != n.d, m.e != n.e)
  }

  lemma PickAdds(a: bool, b: bool, x: Byte)
    ensures Xor(Pick(a, x), Pick(b, x)) == Pick(a != b, x)
  {
    hide Xor;
    XorZero(x);
    XorZero(0);
    XorCommutes(0, x);
  }

  lemma TotalAdds(a: bool, b: bool, c: bool, d: bool, e: bool, a': bool, b': bool, c': bool, d': bool, e': bool,
                  x: Byte, x2: Byte, x4: Byte, x8: Byte, x16: Byte)
    ensures Xor(Total(a, b, c, d, e, x, x2, x4, x8, x16), Total(a', b', c', d', e', x, x2, x4, x8, x16))
            == Total(a != a', b != b', c != c', d != d', e != e', x, x2, x4, x8, x16)
  {
    hide Xor, Xor4, Pick;
    Interchange(Xor4(Pick(a, x), Pick(b, x2), Pick(c, x4), Pick(d, x8)), Pick(e, x16),
                Xor4(Pick(a', x), Pick(b', x2), Pick(c', x4), Pick(d', x8)), Pick(e', x16));
    Add4(Pick(a, x), Pick(b, x2), Pick(c, x4), Pick(d, x8), Pick(a', x), Pick(b', x2), Pick(c', x4), Pick(d', x8));
    PickAdds(a, a', x);
    PickAdds(b, b', x2);
    PickAdds(c, c', x4);
    PickAdds(d, d', x8);
    PickAdds(e, e', x16);
  }

  /** What is chosen twice is gone. */
  lemma SumAdds(m: Choice, n: Choice, p: Powers)
    ensures Xor(Sum(m, p), Sum(n, p)) == Sum(Either(m, n), p)
  {
    hide Xor, Total;
    TotalAdds(m.a, m.b, m.c, m.d, m.e, n.a, n.b, n.c, n.d, n.e, p.x, p.x2, p.x4, p.x8, p.x16);
  }

  const ONE := Choice(true, false, false, false, false)
  const TWO := Choice(false, true, false, false, false)
  const FOUR := Choice(false, false, true, false, false)
  const EIGHT := Choice(false, false, false, true, false)
  const SIXTEEN := Choice(false, false, false, false, true)
  const NONE := Choice(false, false, false, false, false)

  /** The powers themselves as sums. */
  lemma Single(p: Powers)
    ensures Sum(ONE, p) == p.x && Sum(TWO, p) == p.x2 && Sum(FOUR, p) == p.x4 && Sum(EIGHT, p) == p.x8
    ensures Sum(SIXTEEN, p) == p.x16 && Sum(NONE, p) == 0
  {
    hide Xor;
    XorZero(p.x);
    XorZero(p.x2);
    XorZero(p.x4);
    XorZero(p.x8);
    XorZero(p.x16);
    XorZero(0);
    XorCommutes(0, p.x2);
    XorCommutes(0, p.x4);
    XorCommutes(0, p.x8);
    XorCommutes(0, p.x16);
  }

  lemma Sum3(m: Choice, n: Choice, o: Choice, p: Powers)
    ensures Xor(Xor(Sum(m, p), Sum(n, p)), Sum(o, p)) == Sum(Either(Either(m, n), o), p)
  {
    hide Xor, Sum;
    SumAdds(m, n, p);
    SumAdds(Either(m, n), o, p);
  }

  lemma Sum4(m: Choice, n: Choice, o: Choice, q: Choice, p: Powers)
    ensures Xor4(Sum(m, p), Sum(n, p), Sum(o, p), Sum(q, p)) == Sum(Either(Either(Either(m, n), o), q), p)
  {
    hide Xor, Sum;
    Sum3(m, n, o, p);
    SumAdds(Either(Either(m, n), o), q, p);
  }
}
