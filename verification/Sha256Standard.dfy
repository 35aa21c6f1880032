/**
  What sections 4.1.2, 4.2.2 and 5.3.3 of FIPS 180-4 say of the functions and constants of
  SHA-256.
 */
module Sha256Standard {
  import opened Arithmetic
  import opened Bytes
  import opened Sha256

  // ----- the functions -----

  lemma Rotate2(x: Word)
    ensures Rotr(x, 2) == x.RotateRight(2)
  {
  }

  lemma Rotate6(x: Word)
    ensures Rotr(x, 6) == x.RotateRight(6)
  {
  }

  lemma Rotate7(x: Word)
    ensures Rotr(x, 7) == x.RotateRight(7)
  {
  }

  lemma Rotate11(x: Word)
    ensures Rotr(x, 11) == x.RotateRight(11)
  {
  }

  lemma Rotate13(x: Word)
    ensures Rotr(x, 13) == x.RotateRight(13)
  {
  }

  lemma Rotate17(x: Word)
    ensures Rotr(x, 17) == x.RotateRight(17)
  {
  }

  lemma Rotate18(x: Word)
    ensures Rotr(x, 18) == x.RotateRight(18)
  {
  }

  lemma Rotate19(x: Word)
    ensures Rotr(x, 19) == x.RotateRight(19)
  {
  }

  lemma Rotate22(x: Word)
    ensures Rotr(x, 22) == x.RotateRight(22)
  {
  }

  lemma Rotate25(x: Word)
    ensures Rotr(x, 25) == x.RotateRight(25)
  {
  }

  function Xor3(x: Word, y: Word, z: Word): Word {
    x ^ y ^ z
  }

  function Sum0(x: Word): Word {
    Xor3(x.RotateRight(2), x.RotateRight(13), x.RotateRight(22))
  }

  lemma Ep0Unfolds(x: Word)
    ensures Ep0(x) == Xor3(Rotr(x, 2), Rotr(x, 13), Rotr(x, 22))
  {
    hide Rotr;
  }

  lemma Ep0Rotates(x: Word)
    ensures Ep0(x) == Sum0(x)
  {
    hide Rotr, Xor3, Ep0;
    assert Ep0(x) == Xor3(Rotr(x, 2), Rotr(x, 13), Rotr(x, 22)) by {
      Ep0Unfolds(x);
    }
    Rotate2(x);
    Rotate13(x);
    Rotate22(x);
  }

  function Sum1(x: Word): Word {
    Xor3(x.RotateRight(6), x.RotateRight(11), x.RotateRight(25))
  }

  lemma Ep1Unfolds(x: Word)
    ensures Ep1(x) == Xor3(Rotr(x, 6), Rotr(x, 11), Rotr(x, 25))
  {
    hide Rotr;
  }

  lemma Ep1Rotates(x: Word)
    ensures Ep1(x) == Sum1(x)
  {
    hide Rotr, Xor3, Ep1;
    assert Ep1(x) == Xor3(Rotr(x, 6), Rotr(x, 11), Rotr(x, 25)) by {
      Ep1Unfolds(x);
    }
    Rotate6(x);
    Rotate11(x);
    Rotate25(x);
  }

  function Sigma0(x: Word): Word {
    Xor3(x.RotateRight(7), x.RotateRight(18), x >> 3)
  }

  lemma Sig0Unfolds(x: Word)
    ensures Sig0(x) == Xor3(Rotr(x, 7), Rotr(x, 18), x >> 3)
  {
    hide Rotr;
  }

  lemma Sig0Rotates(x: Word)
    ensures Sig0(x) == Sigma0(x)
  {
    hide Rotr, Xor3, Sig0;
    assert Sig0(x) == Xor3(Rotr(x, 7), Rotr(x, 18), x >> 3) by {
      Sig0Unfolds(x);
    }
    Rotate7(x);
    Rotate18(x);
  }

  function Sigma1(x: Word): Word {
    Xor3(x.RotateRight(17), x.RotateRight(19), x >> 10)
  }

  lemma Sig1Unfolds(x: Word)
    ensures Sig1(x) == Xor3(Rotr(x, 17), Rotr(x, 19), x >> 10)
  {
    hide Rotr;
  }

  lemma Sig1Rotates(x: Word)
    ensures Sig1(x) == Sigma1(x)
  {
    hide Rotr, Xor3, Sig1;
    assert Sig1(x) == Xor3(Rotr(x, 17), Rotr(x, 19), x >> 10) by {
      Sig1Unfolds(x);
    }
    Rotate17(x);
    Rotate19(x);
  }

  /** The four functions of one word are sums of rotated and shifted copies of it. */
  lemma SumsRotate(x: Word)
    ensures Ep0(x) == Sum0(x) && Ep1(x) == Sum1(x) && Sig0(x) == Sigma0(x) && Sig1(x) == Sigma1(x)
  {
    hide Ep0, Ep1, Sig0, Sig1, Sum0, Sum1, Sigma0, Sigma1;
    Ep0Rotates(x);
    Ep1Rotates(x);
    Sig0Rotates(x);
    Sig1Rotates(x);
  }

  /** Where x has ones, the choice is y, and where it has zeros, z. */
  lemma ChMeaning(x: Word, y: Word, z: Word)
    ensures Ch(x, y, z) & x == y & x && Ch(x, y, z) & !x == z & !x
  {
  }

  /** Wherever x and y agree, m is the same. */
  predicate Follows(m: Word, x: Word, y: Word) {
    m & !(x ^ y) == x & !(x ^ y)
  }

  lemma MajTurns(x: Word, y: Word, z: Word)
    ensures Maj(x, y, z) == Maj(y, z, x)
  {
  }

  lemma MajFollows(x: Word, y: Word, z: Word)
    ensures Follows(Maj(x, y, z), x, y)
  {
  }

  /** Wherever two of three words agree, so does the majority. */
  lemma MajMeaning(x: Word, y: Word, z: Word)
    ensures Follows(Maj(x, y, z), x, y) && Follows(Maj(x, y, z), y, z) && Follows(Maj(x, y, z), z, x)
  {
    hide Maj, Follows;
    MajFollows(x, y, z);
    MajTurns(x, y, z);
    MajFollows(y, z, x);
    MajTurns(y, z, x);
    MajFollows(z, x, y);
  }

  // ----- the constants -----

  /** The first 64 primes. */
  const PRIMES_0: seq<nat> := [2, 3, 5, 7, 11, 13, 17, 19, 23, 29, 31, 37, 41, 43, 47, 53]
  const PRIMES_1: seq<nat> := [59, 61, 67, 71, 73, 79, 83, 89, 97, 101, 103, 107, 109, 113, 127, 131]
  const PRIMES_2: seq<nat> := [137, 139, 149, 151, 157, 163, 167, 173, 179, 181, 191, 193, 197, 199, 211, 223]
  const PRIMES_3: seq<nat> := [227, 229, 233, 239, 241, 251, 257, 263, 269, 271, 277, 281, 283, 293, 307, 311]

  const PRIMES := PRIMES_0 + PRIMES_1 + PRIMES_2 + PRIMES_3

  function Square(x: nat): nat {
    x * x
  }

  function Cube(x: nat): nat {
    x * x * x
  }

  /** The first 32 bits behind the point of the square root of p, whose whole part is c. */
  ghost predicate RootBits(p: nat, c: nat, k: nat) {
    k < WORD32 && Square(c * WORD32 + k) <= p * WORD64 < Square(c * WORD32 + k + 1)
  }

  const WORD96 := 0x1_0000_0000_0000_0000_0000_0000

  /** The same of the cube root. */
  ghost predicate CubeRootBits(p: nat, c: nat, k: nat) {
    k < WORD32 && Cube(c * WORD32 + k) <= p * WORD96 < Cube(c * WORD32 + k + 1)
  }

  ghost predicate IsRootFraction(p: nat, k: nat) {
    exists c :: RootBits(p, c, k)
  }

  ghost predicate IsCubeRootFraction(p: nat, k: nat) {
    exists c :: CubeRootBits(p, c, k)
  }

  lemma InitialRoots()
    ensures RootBits(PRIMES_0[0], 1, INITIAL[0] as nat)
    ensures RootBits(PRIMES_0[1], 1, INITIAL[1] as nat)
    ensures RootBits(PRIMES_0[2], 2, INITIAL[2] as nat)
    ensures RootBits(PRIMES_0[3], 2, INITIAL[3] as nat)
    ensures RootBits(PRIMES_0[4], 3, INITIAL[4] as nat)
    ensures RootBits(PRIMES_0[5], 3, INITIAL[5] as nat)
    ensures RootBits(PRIMES_0[6], 4, INITIAL[6] as nat)
    ensures RootBits(PRIMES_0[7], 4, INITIAL[7] as nat)
  {
  }

  lemma Cubes0()
    ensures CubeRootBits(PRIMES_0[0], 1, K_0[0] as nat)
    ensures CubeRootBits(PRIMES_0[1], 1, K_0[1] as nat)
    ensures CubeRootBits(PRIMES_0[2], 1, K_0[2] as nat)
    ensures CubeRootBits(PRIMES_0[3], 1, K_0[3] as nat)
    ensures CubeRootBits(PRIMES_0[4], 2, K_0[4] as nat)
    ensures CubeRootBits(PRIMES_0[5], 2, K_0[5] as nat)
    ensures CubeRootBits(PRIMES_0[6], 2, K_0[6] as nat)
    ensures CubeRootBits(PRIMES_0[7], 2, K_0[7] as nat)
  {
  }

  lemma Cubes1()
    ensures CubeRootBits(PRIMES_0[8], 2, K_0[8] as nat)
    ensures CubeRootBits(PRIMES_0[9], 3, K_0[9] as nat)
    ensures CubeRootBits(PRIMES_0[10], 3, K_0[10] as nat)
    ensures CubeRootBits(PRIMES_0[11], 3, K_0[11] as nat)
    ensures CubeRootBits(PRIMES_0[12], 3, K_0[12] as nat)
    ensures CubeRootBits(PRIMES_0[13], 3, K_0[13] as nat)
    ensures CubeRootBits(PRIMES_0[14], 3, K_0[14] as nat)
    ensures CubeRootBits(PRIMES_0[15], 3, K_0[15] as nat)
  {
  }

  lemma Cubes2()
    ensures CubeRootBits(PRIMES_1[0], 3, K_1[0] as nat)
    ensures CubeRootBits(PRIMES_1[1], 3, K_1[1] as nat)
    ensures CubeRootBits(PRIMES_1[2], 4, K_1[2] as nat)
    ensures CubeRootBits(PRIMES_1[3], 4, K_1[3] as nat)
    ensures CubeRootBits(PRIMES_1[4], 4, K_1[4] as nat)
    ensures CubeRootBits(PRIMES_1[5], 4, K_1[5] as nat)
    ensures CubeRootBits(PRIMES_1[6], 4, K_1[6] as nat)
    ensures CubeRootBits(PRIMES_1[7], 4, K_1[7] as nat)
  {
  }

  lemma Cubes3()
    ensures CubeRootBits(PRIMES_1[8], 4, K_1[8] as nat)
    ensures CubeRootBits(PRIMES_1[9], 4, K_1[9] as nat)
    ensures CubeRootBits(PRIMES_1[10], 4, K_1[10] as nat)
    ensures CubeRootBits(PRIMES_1[11], 4, K_1[11] as nat)
    ensures CubeRootBits(PRIMES_1[12], 4, K_1[12] as nat)
    ensures CubeRootBits(PRIMES_1[13], 4, K_1[13] as nat)
    ensures CubeRootBits(PRIMES_1[14], 5, K_1[14] as nat)
    ensures CubeRootBits(PRIMES_1[15], 5, K_1[15] as nat)
  {
  }

  lemma Cubes4()
    ensures CubeRootBits(PRIMES_2[0], 5, K_2[0] as nat)
    ensures CubeRootBits(PRIMES_2[1], 5, K_2[1] as nat)
    ensures CubeRootBits(PRIMES_2[2], 5, K_2[2] as nat)
    ensures CubeRootBits(PRIMES_2[3], 5, K_2[3] as nat)
    ensures CubeRootBits(PRIMES_2[4], 5, K_2[4] as nat)
    ensures CubeRootBits(PRIMES_2[5], 5, K_2[5] as nat)
    ensures CubeRootBits(PRIMES_2[6], 5, K_2[6] as nat)
    ensures CubeRootBits(PRIMES_2[7], 5, K_2[7] as nat)
  {
  }

  lemma Cubes5()
    ensures CubeRootBits(PRIMES_2[8], 5, K_2[8] as nat)
    ensures CubeRootBits(PRIMES_2[9], 5, K_2[9] as nat)
    ensures CubeRootBits(PRIMES_2[10], 5, K_2[10] as nat)
    ensures CubeRootBits(PRIMES_2[11], 5, K_2[11] as nat)
    ensures CubeRootBits(PRIMES_2[12], 5, K_2[12] as nat)
    ensures CubeRootBits(PRIMES_2[13], 5, K_2[13] as nat)
    ensures CubeRootBits(PRIMES_2[14], 5, K_2[14] as nat)
    ensures CubeRootBits(PRIMES_2[15], 6, K_2[15] as nat)
  {
  }

  lemma Cubes6()
    ensures CubeRootBits(PRIMES_3[0], 6, K_3[0] as nat)
    ensures CubeRootBits(PRIMES_3[1], 6, K_3[1] as nat)
    ensures CubeRootBits(PRIMES_3[2], 6, K_3[2] as nat)
    ensures CubeRootBits(PRIMES_3[3], 6, K_3[3] as nat)
    ensures CubeRootBits(PRIMES_3[4], 6, K_3[4] as nat)
    ensures CubeRootBits(PRIMES_3[5], 6, K_3[5] as nat)
    ensures CubeRootBits(PRIMES_3[6], 6, K_3[6] as nat)
    ensures CubeRootBits(PRIMES_3[7], 6, K_3[7] as nat)
  {
  }

  lemma Cubes7()
    ensures CubeRootBits(PRIMES_3[8], 6, K_3[8] as nat)
    ensures CubeRootBits(PRIMES_3[9], 6, K_3[9] as nat)
    ensures CubeRootBits(PRIMES_3[10], 6, K_3[10] as nat)
    ensures CubeRootBits(PRIMES_3[11], 6, K_3[11] as nat)
    ensures CubeRootBits(PRIMES_3[12], 6, K_3[12] as nat)
    ensures CubeRootBits(PRIMES_3[13], 6, K_3[13] as nat)
    ensures CubeRootBits(PRIMES_3[14], 6, K_3[14] as nat)
    ensures CubeRootBits(PRIMES_3[15], 6, K_3[15] as nat)
  {
  }

  lemma RowSizes()
    ensures |K_0| == |K_1| == |K_2| == |K_3| == 16 && |INITIAL| == 8
    ensures |PRIMES_0| == |PRIMES_1| == |PRIMES_2| == |PRIMES_3| == 16
  {
  }

  lemma OneOfEight(t: nat, b: nat)
    requires b <= t < b + 8
    ensures t == b || t == b + 1 || t == b + 2 || t == b + 3 || t == b + 4 || t == b + 5 || t == b + 6 || t == b + 7
  {
  }

  /** Word t of the constants comes from the cube root of a prime, and that of the initial hash value from the square root. */
  lemma ConstantsMeaning(t: nat)
    requires t < 64
    ensures IsCubeRootFraction(PRIMES[t], RoundConstant(t) as nat)
    ensures t < 8 ==> IsRootFraction(PRIMES[t], INITIAL[t] as nat)
  {
    hide RootBits, CubeRootBits, PRIMES_0, PRIMES_1, PRIMES_2, PRIMES_3, K_0, K_1, K_2, K_3, INITIAL;
    RowSizes();
    InitialRoots();
    if 0 <= t < 8 {
      OneOfEight(t, 0);
      Cubes0();
    } else if 8 <= t < 16 {
      OneOfEight(t, 8);
      Cubes1();
    } else if 16 <= t < 24 {
      OneOfEight(t, 16);
      Cubes2();
    } else if 24 <= t < 32 {
      OneOfEight(t, 24);
      Cubes3();
    } else if 32 <= t < 40 {
      OneOfEight(t, 32);
      Cubes4();
    } else if 40 <= t < 48 {
      OneOfEight(t, 40);
      Cubes5();
    } else if 48 <= t < 56 {
      OneOfEight(t, 48);
      Cubes6();
    } else {
      OneOfEight(t, 56);
      Cubes7();
    }
  }
}
