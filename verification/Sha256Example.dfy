/**
  The computation of sections 6.2.1 and 6.2.2 of FIPS 180-4, written out for one message:
  the hash of "abc" is the one published with the standard.
 */
module Sha256Example {
  import opened BigEndian
  import opened Bytes
  import opened Sha256
  import opened Sha256Standard

  // ----- the schedule -----

  /** Word t of a schedule, from the words before it. */
  function Scheduled(w2: Word, w7: Word, w15: Word, w16: Word): Word {
    Add(Add(Add(Sigma1(w2), w7), Sigma0(w15)), w16)
  }

  lemma ScheduledIs(w2: Word, w7: Word, w15: Word, w16: Word)
    ensures NextWord(w2, w7, w15, w16) == Scheduled(w2, w7, w15, w16)
  {
    hide Add, Sig0, Sig1, Sigma0, Sigma1;
    SumsRotate(w2);
    SumsRotate(w15);
  }

  ghost predicate Recurs(w: seq<Word>, t: nat)
    requires 16 <= t < |w|
  {
    w[t] == Scheduled(w[t - 2], w[t - 7], w[t - 15], w[t - 16])
  }

  ghost predicate Begins(w: seq<Word>, block: seq<Byte>, t: nat)
    requires t < 16 <= |w| && |block| == BLOCK_SIZE
  {
    w[t] == WordOf(block[4 * t], block[4 * t + 1], block[4 * t + 2], block[4 * t + 3])
  }

  lemma ScheduleNext(block: seq<Byte>, w: seq<Word>, t: nat)
    requires |block| == BLOCK_SIZE && |w| == 64 && 0 < t <= 64 && Schedule(block, t - 1) == w[..t - 1]
    requires if t <= 16 then Begins(w, block, t - 1) else Recurs(w, t - 1)
    ensures Schedule(block, t) == w[..t - 1] + [w[t - 1]]
  {
    hide WordOf, NextWord, Scheduled;
    if t > 16 {
      ScheduledIs(w[t - 3], w[t - 8], w[t - 16], w[t - 17]);
    }
  }

  /** Words that begin with the block and then follow the recurrence are the schedule of the block. */
  lemma {:induction false} ScheduleIs(block: seq<Byte>, w: seq<Word>, t: nat)
    requires |block| == BLOCK_SIZE && |w| == 64 && t <= 64
    requires forall i :: 0 <= i < 16 ==> Begins(w, block, i)
    requires forall i :: 16 <= i < 64 ==> Recurs(w, i)
    ensures Schedule(block, t) == w[..t]
  {
    hide Begins, Recurs;
    if t > 0 {
      ScheduleIs(block, w, t - 1);
      ScheduleNext(block, w, t);
      assert w[..t] == w[..t - 1] + [w[t - 1]];
    }
  }

  // ----- the rounds -----

  /** One round, with the sums of section 4.1.2. */
  function Turned(r: Registers, k: Word, w: Word): Registers {
    var t1 := Add(Add(Add(Add(r.h, Sum1(r.e)), Ch(r.e, r.f, r.g)), k), w);
    var t2 := Add(Sum0(r.a), Maj(r.a, r.b, r.c));
    Registers(Add(t1, t2), r.a, r.b, r.c, Add(r.d, t1), r.e, r.f, r.g)
  }

  lemma TurnedIs(r: Registers, k: Word, w: Word)
    ensures Round(r, k, w) == Turned(r, k, w)
  {
    hide Add, Ep0, Ep1, Sum0, Sum1, Ch, Maj;
    SumsRotate(r.e);
    SumsRotate(r.a);
  }

  lemma NextRound(r: Registers, w: seq<Word>, t: nat, k: Word, x: Word)
    requires t < |w| == 64 && RoundConstant(t) == k && w[t] == x
    ensures Rounds(r, w, t + 1) == Turned(Rounds(r, w, t), k, x)
  {
    hide Turned, Round, RoundConstant;
    TurnedIs(Rounds(r, w, t), k, x);
  }

  // ----- the message "abc" -----

  const ABC: seq<Byte> := [0x61, 0x62, 0x63]

  const W_0: seq<Word> := [0x61626380, 0x00000000, 0x00000000, 0x00000000, 0x00000000, 0x00000000, 0x00000000, 0x00000000]
  const W_1: seq<Word> := [0x00000000, 0x00000000, 0x00000000, 0x00000000, 0x00000000, 0x00000000, 0x00000000, 0x00000018]
  const W_2: seq<Word> := [0x61626380, 0x000f0000, 0x7da86405, 0x600003c6, 0x3e9d7b78, 0x0183fc00, 0x12dcbfdb, 0xe2e2c38e]
  const W_3: seq<Word> := [0xc8215c1a, 0xb73679a2, 0xe5bc3909, 0x32663c5b, 0x9d209d67, 0xec8726cb, 0x702138a4, 0xd3b7973b]
  const W_4: seq<Word> := [0x93f5997f, 0x3b68ba73, 0xaff4ffc1, 0xf10a5c62, 0x0a8b3996, 0x72af830a, 0x9409e33e, 0x24641522]
  const W_5: seq<Word> := [0x9f47bf94, 0xf0a64f5a, 0x3e246a79, 0x27333ba3, 0x0c4763f2, 0x840abf27, 0x7a290d5d, 0x065c43da]
  const W_6: seq<Word> := [0xfb3e89cb, 0xcc7617db, 0xb9e66c34, 0xa9993667, 0x84badedd, 0xc21462bc, 0x1487472c, 0xb20f7a99]
  const W_7: seq<Word> := [0xef57b9cd, 0xebe6b238, 0x9fe3095e, 0x78bc8d4b, 0xa43fcf15, 0x668b2ff8, 0xeeaba2cc, 0x12b1edeb]

  /** Its schedule. */
  const W := W_0 + W_1 + W_2 + W_3 + W_4 + W_5 + W_6 + W_7

  lemma Words2()
    ensures Scheduled(0x00000000, 0x00000000, 0x00000000, 0x61626380) == 0x61626380
    ensures Scheduled(0x00000018, 0x00000000, 0x00000000, 0x00000000) == 0x000f0000
    ensures Scheduled(0x61626380, 0x00000000, 0x00000000, 0x00000000) == 0x7da86405
    ensures Scheduled(0x000f0000, 0x00000000, 0x00000000, 0x00000000) == 0x600003c6
    ensures Scheduled(0x7da86405, 0x00000000, 0x00000000, 0x00000000) == 0x3e9d7b78
    ensures Scheduled(0x600003c6, 0x00000000, 0x00000000, 0x00000000) == 0x0183fc00
    ensures Scheduled(0x3e9d7b78, 0x00000018, 0x00000000, 0x00000000) == 0x12dcbfdb
    ensures Scheduled(0x0183fc00, 0x61626380, 0x00000000, 0x00000000) == 0xe2e2c38e
  {
  }

  lemma Schedule2()
    ensures Recurs(W, 16)
    ensures Recurs(W, 17)
    ensures Recurs(W, 18)
    ensures Recurs(W, 19)
    ensures Recurs(W, 20)
    ensures Recurs(W, 21)
    ensures Recurs(W, 22)
    ensures Recurs(W, 23)
  {
    hide Scheduled;
    Words2();
  }

  lemma Words3()
    ensures Scheduled(0x12dcbfdb, 0x000f0000, 0x00000000, 0x00000000) == 0xc8215c1a
    ensures Scheduled(0xe2e2c38e, 0x7da86405, 0x00000000, 0x00000000) == 0xb73679a2
    ensures Scheduled(0xc8215c1a, 0x600003c6, 0x00000000, 0x00000000) == 0xe5bc3909
    ensures Scheduled(0xb73679a2, 0x3e9d7b78, 0x00000000, 0x00000000) == 0x32663c5b
    ensures Scheduled(0xe5bc3909, 0x0183fc00, 0x00000000, 0x00000000) == 0x9d209d67
    ensures Scheduled(0x32663c5b, 0x12dcbfdb, 0x00000000, 0x00000000) == 0xec8726cb
    ensures Scheduled(0x9d209d67, 0xe2e2c38e, 0x00000018, 0x00000000) == 0x702138a4
    ensures Scheduled(0xec8726cb, 0xc8215c1a, 0x61626380, 0x00000018) == 0xd3b7973b
  {
  }

  lemma Schedule3()
    ensures Recurs(W, 24)
    ensures Recurs(W, 25)
    ensures Recurs(W, 26)
    ensures Recurs(W, 27)
    ensures Recurs(W, 28)
    ensures Recurs(W, 29)
    ensures Recurs(W, 30)
    ensures Recurs(W, 31)
  {
    hide Scheduled;
    Words3();
  }

  lemma Words4()
    ensures Scheduled(0x702138a4, 0xb73679a2, 0x000f0000, 0x61626380) == 0x93f5997f
    ensures Scheduled(0xd3b7973b, 0xe5bc3909, 0x7da86405, 0x000f0000) == 0x3b68ba73
    ensures Scheduled(0x93f5997f, 0x32663c5b, 0x600003c6, 0x7da86405) == 0xaff4ffc1
    ensures Scheduled(0x3b68ba73, 0x9d209d67, 0x3e9d7b78, 0x600003c6) == 0xf10a5c62
    ensures Scheduled(0xaff4ffc1, 0xec8726cb, 0x0183fc00, 0x3e9d7b78) == 0x0a8b3996
    ensures Scheduled(0xf10a5c62, 0x702138a4, 0x12dcbfdb, 0x0183fc00) == 0x72af830a
    ensures Scheduled(0x0a8b3996, 0xd3b7973b, 0xe2e2c38e, 0x12dcbfdb) == 0x9409e33e
    ensures Scheduled(0x72af830a, 0x93f5997f, 0xc8215c1a, 0xe2e2c38e) == 0x24641522
  {
  }

  lemma Schedule4()
    ensures Recurs(W, 32)
    ensures Recurs(W, 33)
    ensures Recurs(W, 34)
    ensures Recurs(W, 35)
    ensures Recurs(W, 36)
    ensures Recurs(W, 37)
    ensures Recurs(W, 38)
    ensures Recurs(W, 39)
  {
    hide Scheduled;
    Words4();
  }

  lemma Words5()
    ensures Scheduled(0x9409e33e, 0x3b68ba73, 0xb73679a2, 0xc8215c1a) == 0x9f47bf94
    ensures Scheduled(0x24641522, 0xaff4ffc1, 0xe5bc3909, 0xb73679a2) == 0xf0a64f5a
    ensures Scheduled(0x9f47bf94, 0xf10a5c62, 0x32663c5b, 0xe5bc3909) == 0x3e246a79
    ensures Scheduled(0xf0a64f5a, 0x0a8b3996, 0x9d209d67, 0x32663c5b) == 0x27333ba3
    ensures Scheduled(0x3e246a79, 0x72af830a, 0xec8726cb, 0x9d209d67) == 0x0c4763f2
    ensures Scheduled(0x27333ba3, 0x9409e33e, 0x702138a4, 0xec8726cb) == 0x840abf27
    ensures Scheduled(0x0c4763f2, 0x24641522, 0xd3b7973b, 0x702138a4) == 0x7a290d5d
    ensures Scheduled(0x840abf27, 0x9f47bf94, 0x93f5997f, 0xd3b7973b) == 0x065c43da
  {
  }

  lemma Schedule5()
    ensures Recurs(W, 40)
    ensures Recurs(W, 41)
    ensures Recurs(W, 42)
    ensures Recurs(W, 43)
    ensures Recurs(W, 44)
    ensures Recurs(W, 45)
    ensures Recurs(W, 46)
    ensures Recurs(W, 47)
  {
    hide Scheduled;
    Words5();
  }

  lemma Words6()
    ensures Scheduled(0x7a290d5d, 0xf0a64f5a, 0x3b68ba73, 0x93f5997f) == 0xfb3e89cb
    ensures Scheduled(0x065c43da, 0x3e246a79, 0xaff4ffc1, 0x3b68ba73) == 0xcc7617db
    ensures Scheduled(0xfb3e89cb, 0x27333ba3, 0xf10a5c62, 0xaff4ffc1) == 0xb9e66c34
    ensures Scheduled(0xcc7617db, 0x0c4763f2, 0x0a8b3996, 0xf10a5c62) == 0xa9993667
    ensures Scheduled(0xb9e66c34, 0x840abf27, 0x72af830a, 0x0a8b3996) == 0x84badedd
    ensures Scheduled(0xa9993667, 0x7a290d5d, 0x9409e33e, 0x72af830a) == 0xc21462bc
    ensures Scheduled(0x84badedd, 0x065c43da, 0x24641522, 0x9409e33e) == 0x1487472c
    ensures Scheduled(0xc21462bc, 0xfb3e89cb, 0x9f47bf94, 0x24641522) == 0xb20f7a99
  {
  }

  lemma Schedule6()
    ensures Recurs(W, 48)
    ensures Recurs(W, 49)
    ensures Recurs(W, 50)
    ensures Recurs(W, 51)
    ensures Recurs(W, 52)
    ensures Recurs(W, 53)
    ensures Recurs(W, 54)
    ensures Recurs(W, 55)
  {
    hide Scheduled;
    Words6();
  }

  lemma Words7()
    ensures Scheduled(0x1487472c, 0xcc7617db, 0xf0a64f5a, 0x9f47bf94) == 0xef57b9cd
    ensures Scheduled(0xb20f7a99, 0xb9e66c34, 0x3e246a79, 0xf0a64f5a) == 0xebe6b238
    ensures Scheduled(0xef57b9cd, 0xa9993667, 0x27333ba3, 0x3e246a79) == 0x9fe3095e
    ensures Scheduled(0xebe6b238, 0x84badedd, 0x0c4763f2, 0x27333ba3) == 0x78bc8d4b
    ensures Scheduled(0x9fe3095e, 0xc21462bc, 0x840abf27, 0x0c4763f2) == 0xa43fcf15
    ensures Scheduled(0x78bc8d4b, 0x1487472c, 0x7a290d5d, 0x840abf27) == 0x668b2ff8
    ensures Scheduled(0xa43fcf15, 0xb20f7a99, 0x065c43da, 0x7a290d5d) == 0xeeaba2cc
    ensures Scheduled(0x668b2ff8, 0xef57b9cd, 0xfb3e89cb, 0x065c43da) == 0x12b1edeb
  {
  }

  lemma Schedule7()
    ensures Recurs(W, 56)
    ensures Recurs(W, 57)
    ensures Recurs(W, 58)
    ensures Recurs(W, 59)
    ensures Recurs(W, 60)
    ensures Recurs(W, 61)
    ensures Recurs(W, 62)
    ensures Recurs(W, 63)
  {
    hide Scheduled;
    Words7();
  }

  // The registers, round by round.
  const R_0 := Registers(0x6a09e667, 0xbb67ae85, 0x3c6ef372, 0xa54ff53a, 0x510e527f, 0x9b05688c, 0x1f83d9ab, 0x5be0cd19)
  const R_1 := Registers(0x5d6aebcd, 0x6a09e667, 0xbb67ae85, 0x3c6ef372, 0xfa2a4622, 0x510e527f, 0x9b05688c, 0x1f83d9ab)
  const R_2 := Registers(0x5a6ad9ad, 0x5d6aebcd, 0x6a09e667, 0xbb67ae85, 0x78ce7989, 0xfa2a4622, 0x510e527f, 0x9b05688c)
  const R_3 := Registers(0xc8c347a7, 0x5a6ad9ad, 0x5d6aebcd, 0x6a09e667, 0xf92939eb, 0x78ce7989, 0xfa2a4622, 0x510e527f)
  const R_4 := Registers(0xd550f666, 0xc8c347a7, 0x5a6ad9ad, 0x5d6aebcd, 0x24e00850, 0xf92939eb, 0x78ce7989, 0xfa2a4622)
  const R_5 := Registers(0x04409a6a, 0xd550f666, 0xc8c347a7, 0x5a6ad9ad, 0x43ada245, 0x24e00850, 0xf92939eb, 0x78ce7989)
  const R_6 := Registers(0x2b4209f5, 0x04409a6a, 0xd550f666, 0xc8c347a7, 0x714260ad, 0x43ada245, 0x24e00850, 0xf92939eb)
  const R_7 := Registers(0xe5030380, 0x2b4209f5, 0x04409a6a, 0xd550f666, 0x9b27a401, 0x714260ad, 0x43ada245, 0x24e00850)
  const R_8 := Registers(0x85a07b5f, 0xe5030380, 0x2b4209f5, 0x04409a6a, 0x0c657a79, 0x9b27a401, 0x714260ad, 0x43ada245)
  const R_9 := Registers(0x8e04ecb9, 0x85a07b5f, 0xe5030380, 0x2b4209f5, 0x32ca2d8c, 0x0c657a79, 0x9b27a401, 0x714260ad)
  const R_10 := Registers(0x8c87346b, 0x8e04ecb9, 0x85a07b5f, 0xe5030380, 0x1cc92596, 0x32ca2d8c, 0x0c657a79, 0x9b27a401)
  const R_11 := Registers(0x4798a3f4, 0x8c87346b, 0x8e04ecb9, 0x85a07b5f, 0x436b23e8, 0x1cc92596, 0x32ca2d8c, 0x0c657a79)
  const R_12 := Registers(0xf71fc5a9, 0x4798a3f4, 0x8c87346b, 0x8e04ecb9, 0x816fd6e9, 0x436b23e8, 0x1cc92596, 0x32ca2d8c)
  const R_13 := Registers(0x87912990, 0xf71fc5a9, 0x4798a3f4, 0x8c87346b, 0x1e578218, 0x816fd6e9, 0x436b23e8, 0x1cc92596)
  const R_14 := Registers(0xd932eb16, 0x87912990, 0xf71fc5a9, 0x4798a3f4, 0x745a48de, 0x1e578218, 0x816fd6e9, 0x436b23e8)
  const R_15 := Registers(0xc0645fde, 0xd932eb16, 0x87912990, 0xf71fc5a9, 0x0b92f20c, 0x745a48de, 0x1e578218, 0x816fd6e9)
  const R_16 := Registers(0xb0fa238e, 0xc0645fde, 0xd932eb16, 0x87912990, 0x07590dcd, 0x0b92f20c, 0x745a48de, 0x1e578218)
  const R_17 := Registers(0x21da9a9b, 0xb0fa238e, 0xc0645fde, 0xd932eb16, 0x8034229c, 0x07590dcd, 0x0b92f20c, 0x745a48de)
  const R_18 := Registers(0xc2fbd9d1, 0x21da9a9b, 0xb0fa238e, 0xc0645fde, 0x846ee454, 0x8034229c, 0x07590dcd, 0x0b92f20c)
  const R_19 := Registers(0xfe777bbf, 0xc2fbd9d1, 0x21da9a9b, 0xb0fa238e, 0xcc899961, 0x846ee454, 0x8034229c, 0x07590dcd)
  const R_20 := Registers(0xe1f20c33, 0xfe777bbf, 0xc2fbd9d1, 0x21da9a9b, 0xb0638179, 0xcc899961, 0x846ee454, 0x8034229c)
  const R_21 := Registers(0x9dc68b63, 0xe1f20c33, 0xfe777bbf, 0xc2fbd9d1, 0x8ada8930, 0xb0638179, 0xcc899961, 0x846ee454)
  const R_22 := Registers(0xc2606d6d, 0x9dc68b63, 0xe1f20c33, 0xfe777bbf, 0xe1257970, 0x8ada8930, 0xb0638179, 0xcc899961)
  const R_23 := Registers(0xa7a3623f, 0xc2606d6d, 0x9dc68b63, 0xe1f20c33, 0x49f5114a, 0xe1257970, 0x8ada8930, 0xb0638179)
  const R_24 := Registers(0xc5d53d8d, 0xa7a3623f, 0xc2606d6d, 0x9dc68b63, 0xaa47c347, 0x49f5114a, 0xe1257970, 0x8ada8930)
  const R_25 := Registers(0x1c2c2838, 0xc5d53d8d, 0xa7a3623f, 0xc2606d6d, 0x2823ef91, 0xaa47c347, 0x49f5114a, 0xe1257970)
  const R_26 := Registers(0xcde8037d, 0x1c2c2838, 0xc5d53d8d, 0xa7a3623f, 0x14383d8e, 0x2823ef91, 0xaa47c347, 0x49f5114a)
  const R_27 := Registers(0xb62ec4bc, 0xcde8037d, 0x1c2c2838, 0xc5d53d8d, 0xc74c6516, 0x14383d8e, 0x2823ef91, 0xaa47c347)
  const R_28 := Registers(0x77d37528, 0xb62ec4bc, 0xcde8037d, 0x1c2c2838, 0xedffbff8, 0xc74c6516, 0x14383d8e, 0x2823ef91)
  const R_29 := Registers(0x363482c9, 0x77d37528, 0xb62ec4bc, 0xcde8037d, 0x6112a3b7, 0xedffbff8, 0xc74c6516, 0x14383d8e)
  const R_30 := Registers(0xa0060b30, 0x363482c9, 0x77d37528, 0xb62ec4bc, 0xade79437, 0x6112a3b7, 0xedffbff8, 0xc74c6516)
  const R_31 := Registers(0xea992a22, 0xa0060b30, 0x363482c9, 0x77d37528, 0x0109ab3a, 0xade79437, 0x6112a3b7, 0xedffbff8)
  const R_32 := Registers(0x73b33bf5, 0xea992a22, 0xa0060b30, 0x363482c9, 0xba591112, 0x0109ab3a, 0xade79437, 0x6112a3b7)
  const R_33 := Registers(0x98e12507, 0x73b33bf5, 0xea992a22, 0xa0060b30, 0x9cd9f5f6, 0xba591112, 0x0109ab3a, 0xade79437)
  const R_34 := Registers(0xfe604df5, 0x98e12507, 0x73b33bf5, 0xea992a22, 0x59249dd3, 0x9cd9f5f6, 0xba591112, 0x0109ab3a)
  const R_35 := Registers(0xa9a7738c, 0xfe604df5, 0x98e12507, 0x73b33bf5, 0x085f3833, 0x59249dd3, 0x9cd9f5f6, 0xba591112)
  const R_36 := Registers(0x65a0cfe4, 0xa9a7738c, 0xfe604df5, 0x98e12507, 0xf4b002d6, 0x085f3833, 0x59249dd3, 0x9cd9f5f6)
  const R_37 := Registers(0x41a65cb1, 0x65a0cfe4, 0xa9a7738c, 0xfe604df5, 0x0772a26b, 0xf4b002d6, 0x085f3833, 0x59249dd3)
  const R_38 := Registers(0x34df1604, 0x41a65cb1, 0x65a0cfe4, 0xa9a7738c, 0xa507a53d, 0x0772a26b, 0xf4b002d6, 0x085f3833)
  const R_39 := Registers(0x6dc57a8a, 0x34df1604, 0x41a65cb1, 0x65a0cfe4, 0xf0781bc8, 0xa507a53d, 0x0772a26b, 0xf4b002d6)
  const R_40 := Registers(0x79ea687a, 0x6dc57a8a, 0x34df1604, 0x41a65cb1, 0x1efbc0a0, 0xf0781bc8, 0xa507a53d, 0x0772a26b)
  const R_41 := Registers(0xd6670766, 0x79ea687a, 0x6dc57a8a, 0x34df1604, 0x26352d63, 0x1efbc0a0, 0xf0781bc8, 0xa507a53d)
  const R_42 := Registers(0xdf46652f, 0xd6670766, 0x79ea687a, 0x6dc57a8a, 0x838b2711, 0x26352d63, 0x1efbc0a0, 0xf0781bc8)
  const R_43 := Registers(0x17aa0dfe, 0xdf46652f, 0xd6670766, 0x79ea687a, 0xdecd4715, 0x838b2711, 0x26352d63, 0x1efbc0a0)
  const R_44 := Registers(0x9d4baf93, 0x17aa0dfe, 0xdf46652f, 0xd6670766, 0xfda24c2e, 0xdecd4715, 0x838b2711, 0x26352d63)
  const R_45 := Registers(0x26628815, 0x9d4baf93, 0x17aa0dfe, 0xdf46652f, 0xa80f11f0, 0xfda24c2e, 0xdecd4715, 0x838b2711)
  const R_46 := Registers(0x72ab4b91, 0x26628815, 0x9d4baf93, 0x17aa0dfe, 0xb7755da1, 0xa80f11f0, 0xfda24c2e, 0xdecd4715)
  const R_47 := Registers(0xa14c14b0, 0x72ab4b91, 0x26628815, 0x9d4baf93, 0xd57b94a9, 0xb7755da1, 0xa80f11f0, 0xfda24c2e)
  const R_48 := Registers(0x4172328d, 0xa14c14b0, 0x72ab4b91, 0x26628815, 0xfecf0bc6, 0xd57b94a9, 0xb7755da1, 0xa80f11f0)
  const R_49 := Registers(0x05757ceb, 0x4172328d, 0xa14c14b0, 0x72ab4b91, 0xbd714038, 0xfecf0bc6, 0xd57b94a9, 0xb7755da1)
  const R_50 := Registers(0xf11bfaa8, 0x05757ceb, 0x4172328d, 0xa14c14b0, 0x6e5c390c, 0xbd714038, 0xfecf0bc6, 0xd57b94a9)
  const R_51 := Registers(0x7a0508a1, 0xf11bfaa8, 0x05757ceb, 0x4172328d, 0x52f1ccf7, 0x6e5c390c, 0xbd714038, 0xfecf0bc6)
  const R_52 := Registers(0x886e7a22, 0x7a0508a1, 0xf11bfaa8, 0x05757ceb, 0x49231c1e, 0x52f1ccf7, 0x6e5c390c, 0xbd714038)
  const R_53 := Registers(0x101fd28f, 0x886e7a22, 0x7a0508a1, 0xf11bfaa8, 0x529e7d00, 0x49231c1e, 0x52f1ccf7, 0x6e5c390c)
  const R_54 := Registers(0xf5702fdb, 0x101fd28f, 0x886e7a22, 0x7a0508a1, 0x9f4787c3, 0x529e7d00, 0x49231c1e, 0x52f1ccf7)
  const R_55 := Registers(0x3ec45cdb, 0xf5702fdb, 0x101fd28f, 0x886e7a22, 0xe50e1b4f, 0x9f4787c3, 0x529e7d00, 0x49231c1e)
  const R_56 := Registers(0x38cc9913, 0x3ec45cdb, 0xf5702fdb, 0x101fd28f, 0x54cb266b, 0xe50e1b4f, 0x9f4787c3, 0x529e7d00)
  const R_57 := Registers(0xfcd1887b, 0x38cc9913, 0x3ec45cdb, 0xf5702fdb, 0x9b5e906c, 0x54cb266b, 0xe50e1b4f, 0x9f4787c3)
  const R_58 := Registers(0xc062d46f, 0xfcd1887b, 0x38cc9913, 0x3ec45cdb, 0x7e44008e, 0x9b5e906c, 0x54cb266b, 0xe50e1b4f)
  const R_59 := Registers(0xffb70472, 0xc062d46f, 0xfcd1887b, 0x38cc9913, 0x6d83bfc6, 0x7e44008e, 0x9b5e906c, 0x54cb266b)
  const R_60 := Registers(0xb6ae8fff, 0xffb70472, 0xc062d46f, 0xfcd1887b, 0xb21bad3d, 0x6d83bfc6, 0x7e44008e, 0x9b5e906c)
  const R_61 := Registers(0xb85e2ce9, 0xb6ae8fff, 0xffb70472, 0xc062d46f, 0x961f4894, 0xb21bad3d, 0x6d83bfc6, 0x7e44008e)
  const R_62 := Registers(0x04d24d6c, 0xb85e2ce9, 0xb6ae8fff, 0xffb70472, 0x948d25b6, 0x961f4894, 0xb21bad3d, 0x6d83bfc6)
  const R_63 := Registers(0xd39a2165, 0x04d24d6c, 0xb85e2ce9, 0xb6ae8fff, 0xfb121210, 0x948d25b6, 0x961f4894, 0xb21bad3d)
  const R_64 := Registers(0x506e3058, 0xd39a2165, 0x04d24d6c, 0xb85e2ce9, 0x5ef50f24, 0xfb121210, 0x948d25b6, 0x961f4894)

  lemma Turns0()
    ensures Turned(R_0, 0x428a2f98, 0x61626380) == R_1
    ensures Turned(R_1, 0x71374491, 0x00000000) == R_2
    ensures Turned(R_2, 0xb5c0fbcf, 0x00000000) == R_3
    ensures Turned(R_3, 0xe9b5dba5, 0x00000000) == R_4
    ensures Turned(R_4, 0x3956c25b, 0x00000000) == R_5
    ensures Turned(R_5, 0x59f111f1, 0x00000000) == R_6
    ensures Turned(R_6, 0x923f82a4, 0x00000000) == R_7
    ensures Turned(R_7, 0xab1c5ed5, 0x00000000) == R_8
  {
  }

  lemma Constants0()
    ensures RoundConstant(0) == 0x428a2f98 && RoundConstant(1) == 0x71374491
    ensures RoundConstant(2) == 0xb5c0fbcf && RoundConstant(3) == 0xe9b5dba5
    ensures RoundConstant(4) == 0x3956c25b && RoundConstant(5) == 0x59f111f1
    ensures RoundConstant(6) == 0x923f82a4 && RoundConstant(7) == 0xab1c5ed5
  {
  }

  lemma Fetched0(w: seq<Word>)
    requires |w| == 64 && w[0..8] == W_0
    ensures w[0] == 0x61626380 && w[1] == 0x00000000
    ensures w[2] == 0x00000000 && w[3] == 0x00000000
    ensures w[4] == 0x00000000 && w[5] == 0x00000000
    ensures w[6] == 0x00000000 && w[7] == 0x00000000
  {
    assert forall i :: 0 <= i < 8 ==> w[0..8][i] == w[0 + i];
  }

  lemma Reached0(r: Registers, w: seq<Word>)
    requires |w| == 64 && w[0..8] == W_0 && Rounds(r, w, 0) == R_0
    ensures Rounds(r, w, 8) == R_8
  {
    hide *;
    Turns0();
    Constants0();
    Fetched0(w);
    NextRound(r, w, 0, 0x428a2f98, 0x61626380);
    NextRound(r, w, 1, 0x71374491, 0x00000000);
    NextRound(r, w, 2, 0xb5c0fbcf, 0x00000000);
    NextRound(r, w, 3, 0xe9b5dba5, 0x00000000);
    NextRound(r, w, 4, 0x3956c25b, 0x00000000);
    NextRound(r, w, 5, 0x59f111f1, 0x00000000);
    NextRound(r, w, 6, 0x923f82a4, 0x00000000);
    NextRound(r, w, 7, 0xab1c5ed5, 0x00000000);
  }

  lemma Turns1()
    ensures Turned(R_8, 0xd807aa98, 0x00000000) == R_9
    ensures Turned(R_9, 0x12835b01, 0x00000000) == R_10
    ensures Turned(R_10, 0x243185be, 0x00000000) == R_11
    ensures Turned(R_11, 0x550c7dc3, 0x00000000) == R_12
    ensures Turned(R_12, 0x72be5d74, 0x00000000) == R_13
    ensures Turned(R_13, 0x80deb1fe, 0x00000000) == R_14
    ensures Turned(R_14, 0x9bdc06a7, 0x00000000) == R_15
    ensures Turned(R_15, 0xc19bf174, 0x00000018) == R_16
  {
  }

  lemma Constants1()
    ensures RoundConstant(8) == 0xd807aa98 && RoundConstant(9) == 0x12835b01
    ensures RoundConstant(10) == 0x243185be && RoundConstant(11) == 0x550c7dc3
    ensures RoundConstant(12) == 0x72be5d74 && RoundConstant(13) == 0x80deb1fe
    ensures RoundConstant(14) == 0x9bdc06a7 && RoundConstant(15) == 0xc19bf174
  {
  }

  lemma Fetched1(w: seq<Word>)
    requires |w| == 64 && w[8..16] == W_1
    ensures w[8] == 0x00000000 && w[9] == 0x00000000
    ensures w[10] == 0x00000000 && w[11] == 0x00000000
    ensures w[12] == 0x00000000 && w[13] == 0x00000000
    ensures w[14] == 0x00000000 && w[15] == 0x00000018
  {
    assert forall i :: 0 <= i < 8 ==> w[8..16][i] == w[8 + i];
  }

  lemma Reached1(r: Registers, w: seq<Word>)
    requires |w| == 64 && w[8..16] == W_1 && Rounds(r, w, 8) == R_8
    ensures Rounds(r, w, 16) == R_16
  {
    hide *;
    Turns1();
    Constants1();
    Fetched1(w);
    NextRound(r, w, 8, 0xd807aa98, 0x00000000);
    NextRound(r, w, 9, 0x12835b01, 0x00000000);
    NextRound(r, w, 10, 0x243185be, 0x00000000);
    NextRound(r, w, 11, 0x550c7dc3, 0x00000000);
    NextRound(r, w, 12, 0x72be5d74, 0x00000000);
    NextRound(r, w, 13, 0x80deb1fe, 0x00000000);
    NextRound(r, w, 14, 0x9bdc06a7, 0x00000000);
    NextRound(r, w, 15, 0xc19bf174, 0x00000018);
  }

  lemma Turns2()
    ensures Turned(R_16, 0xe49b69c1, 0x61626380) == R_17
    ensures Turned(R_17, 0xefbe4786, 0x000f0000) == R_18
    ensures Turned(R_18, 0x0fc19dc6, 0x7da86405) == R_19
    ensures Turned(R_19, 0x240ca1cc, 0x600003c6) == R_20
    ensures Turned(R_20, 0x2de92c6f, 0x3e9d7b78) == R_21
    ensures Turned(R_21, 0x4a7484aa, 0x0183fc00) == R_22
    ensures Turned(R_22, 0x5cb0a9dc, 0x12dcbfdb) == R_23
    ensures Turned(R_23, 0x76f988da, 0xe2e2c38e) == R_24
  {
  }

  lemma Constants2()
    ensures RoundConstant(16) == 0xe49b69c1 && RoundConstant(17) == 0xefbe4786
    ensures RoundConstant(18) == 0x0fc19dc6 && RoundConstant(19) == 0x240ca1cc
    ensures RoundConstant(20) == 0x2de92c6f && RoundConstant(21) == 0x4a7484aa
    ensures RoundConstant(22) == 0x5cb0a9dc && RoundConstant(23) == 0x76f988da
  {
  }

  lemma Fetched2(w: seq<Word>)
    requires |w| == 64 && w[16..24] == W_2
    ensures w[16] == 0x61626380 && w[17] == 0x000f0000
    ensures w[18] == 0x7da86405 && w[19] == 0x600003c6
    ensures w[20] == 0x3e9d7b78 && w[21] == 0x0183fc00
    ensures w[22] == 0x12dcbfdb && w[23] == 0xe2e2c38e
  {
    assert forall i :: 0 <= i < 8 ==> w[16..24][i] == w[16 + i];
  }

  lemma Reached2(r: Registers, w: seq<Word>)
    requires |w| == 64 && w[16..24] == W_2 && Rounds(r, w, 16) == R_16
    ensures Rounds(r, w, 24) == R_24
  {
    hide *;
    Turns2();
    Constants2();
    Fetched2(w);
    NextRound(r, w, 16, 0xe49b69c1, 0x61626380);
    NextRound(r, w, 17, 0xefbe4786, 0x000f0000);
    NextRound(r, w, 18, 0x0fc19dc6, 0x7da86405);
    NextRound(r, w, 19, 0x240ca1cc, 0x600003c6);
    NextRound(r, w, 20, 0x2de92c6f, 0x3e9d7b78);
    NextRound(r, w, 21, 0x4a7484aa, 0x0183fc00);
    NextRound(r, w, 22, 0x5cb0a9dc, 0x12dcbfdb);
    NextRound(r, w, 23, 0x76f988da, 0xe2e2c38e);
  }

  lemma Turns3()
    ensures Turned(R_24, 0x983e5152, 0xc8215c1a) == R_25
    ensures Turned(R_25, 0xa831c66d, 0xb73679a2) == R_26
    ensures Turned(R_26, 0xb00327c8, 0xe5bc3909) == R_27
    ensures Turned(R_27, 0xbf597fc7, 0x32663c5b) == R_28
    ensures Turned(R_28, 0xc6e00bf3, 0x9d209d67) == R_29
    ensures Turned(R_29, 0xd5a79147, 0xec8726cb) == R_30
    ensures Turned(R_30, 0x06ca6351, 0x702138a4) == R_31
    ensures Turned(R_31, 0x14292967, 0xd3b7973b) == R_32
  {
  }

  lemma Constants3()
    ensures RoundConstant(24) == 0x983e5152 && RoundConstant(25) == 0xa831c66d
    ensures RoundConstant(26) == 0xb00327c8 && RoundConstant(27) == 0xbf597fc7
    ensures RoundConstant(28) == 0xc6e00bf3 && RoundConstant(29) == 0xd5a79147
    ensures RoundConstant(30) == 0x06ca6351 && RoundConstant(31) == 0x14292967
  {
  }

  lemma Fetched3(w: seq<Word>)
    requires |w| == 64 && w[24..32] == W_3
    ensures w[24] == 0xc8215c1a && w[25] == 0xb73679a2
    ensures w[26] == 0xe5bc3909 && w[27] == 0x32663c5b
    ensures w[28] == 0x9d209d67 && w[29] == 0xec8726cb
    ensures w[30] == 0x702138a4 && w[31] == 0xd3b7973b
  {
    assert forall i :: 0 <= i < 8 ==> w[24..32][i] == w[24 + i];
  }

  lemma Reached3(r: Registers, w: seq<Word>)
    requires |w| == 64 && w[24..32] == W_3 && Rounds(r, w, 24) == R_24
    ensures Rounds(r, w, 32) == R_32
  {
    hide *;
    Turns3();
    Constants3();
    Fetched3(w);
    NextRound(r, w, 24, 0x983e5152, 0xc8215c1a);
    NextRound(r, w, 25, 0xa831c66d, 0xb73679a2);
    NextRound(r, w, 26, 0xb00327c8, 0xe5bc3909);
    NextRound(r, w, 27, 0xbf597fc7, 0x32663c5b);
    NextRound(r, w, 28, 0xc6e00bf3, 0x9d209d67);
    NextRound(r, w, 29, 0xd5a79147, 0xec8726cb);
    NextRound(r, w, 30, 0x06ca6351, 0x702138a4);
    NextRound(r, w, 31, 0x14292967, 0xd3b7973b);
  }

  lemma Turns4()
    ensures Turned(R_32, 0x27b70a85, 0x93f5997f) == R_33
    ensures Turned(R_33, 0x2e1b2138, 0x3b68ba73) == R_34
    ensures Turned(R_34, 0x4d2c6dfc, 0xaff4ffc1) == R_35
    ensures Turned(R_35, 0x53380d13, 0xf10a5c62) == R_36
    ensures Turned(R_36, 0x650a7354, 0x0a8b3996) == R_37
    ensures Turned(R_37, 0x766a0abb, 0x72af830a) == R_38
    ensures Turned(R_38, 0x81c2c92e, 0x9409e33e) == R_39
    ensures Turned(R_39, 0x92722c85, 0x24641522) == R_40
  {
  }

  lemma Constants4()
    ensures RoundConstant(32) == 0x27b70a85 && RoundConstant(33) == 0x2e1b2138
    ensures RoundConstant(34) == 0x4d2c6dfc && RoundConstant(35) == 0x53380d13
    ensures RoundConstant(36) == 0x650a7354 && RoundConstant(37) == 0x766a0abb
    ensures RoundConstant(38) == 0x81c2c92e && RoundConstant(39) == 0x92722c85
  {
  }

  lemma Fetched4(w: seq<Word>)
    requires |w| == 64 && w[32..40] == W_4
    ensures w[32] == 0x93f5997f && w[33] == 0x3b68ba73
    ensures w[34] == 0xaff4ffc1 && w[35] == 0xf10a5c62
    ensures w[36] == 0x0a8b3996 && w[37] == 0x72af830a
    ensures w[38] == 0x9409e33e && w[39] == 0x24641522
  {
    assert forall i :: 0 <= i < 8 ==> w[32..40][i] == w[32 + i];
  }

  lemma Reached4(r: Registers, w: seq<Word>)
    requires |w| == 64 && w[32..40] == W_4 && Rounds(r, w, 32) == R_32
    ensures Rounds(r, w, 40) == R_40
  {
    hide *;
    Turns4();
    Constants4();
    Fetched4(w);
    NextRound(r, w, 32, 0x27b70a85, 0x93f5997f);
    NextRound(r, w, 33, 0x2e1b2138, 0x3b68ba73);
    NextRound(r, w, 34, 0x4d2c6dfc, 0xaff4ffc1);
    NextRound(r, w, 35, 0x53380d13, 0xf10a5c62);
    NextRound(r, w, 36, 0x650a7354, 0x0a8b3996);
    NextRound(r, w, 37, 0x766a0abb, 0x72af830a);
    NextRound(r, w, 38, 0x81c2c92e, 0x9409e33e);
    NextRound(r, w, 39, 0x92722c85, 0x24641522);
  }

  lemma Turns5()
    ensures Turned(R_40, 0xa2bfe8a1, 0x9f47bf94) == R_41
    ensures Turned(R_41, 0xa81a664b, 0xf0a64f5a) == R_42
    ensures Turned(R_42, 0xc24b8b70, 0x3e246a79) == R_43
    ensures Turned(R_43, 0xc76c51a3, 0x27333ba3) == R_44
    ensures Turned(R_44, 0xd192e819, 0x0c4763f2) == R_45
    ensures Turned(R_45, 0xd6990624, 0x840abf27) == R_46
    ensures Turned(R_46, 0xf40e3585, 0x7a290d5d) == R_47
    ensures Turned(R_47, 0x106aa070, 0x065c43da) == R_48
  {
  }

  lemma Constants5()
    ensures RoundConstant(40) == 0xa2bfe8a1 && RoundConstant(41) == 0xa81a664b
    ensures RoundConstant(42) == 0xc24b8b70 && RoundConstant(43) == 0xc76c51a3
    ensures RoundConstant(44) == 0xd192e819 && RoundConstant(45) == 0xd6990624
    ensures RoundConstant(46) == 0xf40e3585 && RoundConstant(47) == 0x106aa070
  {
  }

  lemma Fetched5(w: seq<Word>)
    requires |w| == 64 && w[40..48] == W_5
    ensures w[40] == 0x9f47bf94 && w[41] == 0xf0a64f5a
    ensures w[42] == 0x3e246a79 && w[43] == 0x27333ba3
    ensures w[44] == 0x0c4763f2 && w[45] == 0x840abf27
    ensures w[46] == 0x7a290d5d && w[47] == 0x065c43da
  {
    assert forall i :: 0 <= i < 8 ==> w[40..48][i] == w[40 + i];
  }

  lemma Reached5(r: Registers, w: seq<Word>)
    requires |w| == 64 && w[40..48] == W_5 && Rounds(r, w, 40) == R_40
    ensures Rounds(r, w, 48) == R_48
  {
    hide *;
    Turns5();
    Constants5();
    Fetched5(w);
    NextRound(r, w, 40, 0xa2bfe8a1, 0x9f47bf94);
    NextRound(r, w, 41, 0xa81a664b, 0xf0a64f5a);
    NextRound(r, w, 42, 0xc24b8b70, 0x3e246a79);
    NextRound(r, w, 43, 0xc76c51a3, 0x27333ba3);
    NextRound(r, w, 44, 0xd192e819, 0x0c4763f2);
    NextRound(r, w, 45, 0xd6990624, 0x840abf27);
    NextRound(r, w, 46, 0xf40e3585, 0x7a290d5d);
    NextRound(r, w, 47, 0x106aa070, 0x065c43da);
  }

  lemma Turns6()
    ensures Turned(R_48, 0x19a4c116, 0xfb3e89cb) == R_49
    ensures Turned(R_49, 0x1e376c08, 0xcc7617db) == R_50
    ensures Turned(R_50, 0x2748774c, 0xb9e66c34) == R_51
    ensures Turned(R_51, 0x34b0bcb5, 0xa9993667) == R_52
    ensures Turned(R_52, 0x391c0cb3, 0x84badedd) == R_53
    ensures Turned(R_53, 0x4ed8aa4a, 0xc21462bc) == R_54
    ensures Turned(R_54, 0x5b9cca4f, 0x1487472c) == R_55
    ensures Turned(R_55, 0x682e6ff3, 0xb20f7a99) == R_56
  {
  }

  lemma Constants6()
    ensures RoundConstant(48) == 0x19a4c116 && RoundConstant(49) == 0x1e376c08
    ensures RoundConstant(50) == 0x2748774c && RoundConstant(51) == 0x34b0bcb5
    ensures RoundConstant(52) == 0x391c0cb3 && RoundConstant(53) == 0x4ed8aa4a
    ensures RoundConstant(54) == 0x5b9cca4f && RoundConstant(55) == 0x682e6ff3
  {
  }

  lemma Fetched6(w: seq<Word>)
    requires |w| == 64 && w[48..56] == W_6
    ensures w[48] == 0xfb3e89cb && w[49] == 0xcc7617db
    ensures w[50] == 0xb9e66c34 && w[51] == 0xa9993667
    ensures w[52] == 0x84badedd && w[53] == 0xc21462bc
    ensures w[54] == 0x1487472c && w[55] == 0xb20f7a99
  {
    assert forall i :: 0 <= i < 8 ==> w[48..56][i] == w[48 + i];
  }

  lemma Reached6(r: Registers, w: seq<Word>)
    requires |w| == 64 && w[48..56] == W_6 && Rounds(r, w, 48) == R_48
    ensures Rounds(r, w, 56) == R_56
  {
    hide *;
    Turns6();
    Constants6();
    Fetched6(w);
    NextRound(r, w, 48, 0x19a4c116, 0xfb3e89cb);
    NextRound(r, w, 49, 0x1e376c08, 0xcc7617db);
    NextRound(r, w, 50, 0x2748774c, 0xb9e66c34);
    NextRound(r, w, 51, 0x34b0bcb5, 0xa9993667);
    NextRound(r, w, 52, 0x391c0cb3, 0x84badedd);
    NextRound(r, w, 53, 0x4ed8aa4a, 0xc21462bc);
    NextRound(r, w, 54, 0x5b9cca4f, 0x1487472c);
    NextRound(r, w, 55, 0x682e6ff3, 0xb20f7a99);
  }

  lemma Turns7()
    ensures Turned(R_56, 0x748f82ee, 0xef57b9cd) == R_57
    ensures Turned(R_57, 0x78a5636f, 0xebe6b238) == R_58
    ensures Turned(R_58, 0x84c87814, 0x9fe3095e) == R_59
    ensures Turned(R_59, 0x8cc70208, 0x78bc8d4b) == R_60
    ensures Turned(R_60, 0x90befffa, 0xa43fcf15) == R_61
    ensures Turned(R_61, 0xa4506ceb, 0x668b2ff8) == R_62
    ensures Turned(R_62, 0xbef9a3f7, 0xeeaba2cc) == R_63
    ensures Turned(R_63, 0xc67178f2, 0x12b1edeb) == R_64
  {
  }

  lemma Constants7()
    ensures RoundConstant(56) == 0x748f82ee && RoundConstant(57) == 0x78a5636f
    ensures RoundConstant(58) == 0x84c87814 && RoundConstant(59) == 0x8cc70208
    ensures RoundConstant(60) == 0x90befffa && RoundConstant(61) == 0xa4506ceb
    ensures RoundConstant(62) == 0xbef9a3f7 && RoundConstant(63) == 0xc67178f2
  {
  }

  lemma Fetched7(w: seq<Word>)
    requires |w| == 64 && w[56..64] == W_7
    ensures w[56] == 0xef57b9cd && w[57] == 0xebe6b238
    ensures w[58] == 0x9fe3095e && w[59] == 0x78bc8d4b
    ensures w[60] == 0xa43fcf15 && w[61] == 0x668b2ff8
    ensures w[62] == 0xeeaba2cc && w[63] == 0x12b1edeb
  {
    assert forall i :: 0 <= i < 8 ==> w[56..64][i] == w[56 + i];
  }

  lemma Reached7(r: Registers, w: seq<Word>)
    requires |w| == 64 && w[56..64] == W_7 && Rounds(r, w, 56) == R_56
    ensures Rounds(r, w, 64) == R_64
  {
    hide *;
    Turns7();
    Constants7();
    Fetched7(w);
    NextRound(r, w, 56, 0x748f82ee, 0xef57b9cd);
    NextRound(r, w, 57, 0x78a5636f, 0xebe6b238);
    NextRound(r, w, 58, 0x84c87814, 0x9fe3095e);
    NextRound(r, w, 59, 0x8cc70208, 0x78bc8d4b);
    NextRound(r, w, 60, 0x90befffa, 0xa43fcf15);
    NextRound(r, w, 61, 0xa4506ceb, 0x668b2ff8);
    NextRound(r, w, 62, 0xbef9a3f7, 0xeeaba2cc);
    NextRound(r, w, 63, 0xc67178f2, 0x12b1edeb);
  }

  lemma Loaded()
    ensures Load(INITIAL) == R_0
  {
  }

  lemma Sliced()
    ensures |W| == 64
    ensures W[0..8] == W_0
    ensures W[8..16] == W_1
    ensures W[16..24] == W_2
    ensures W[24..32] == W_3
    ensures W[32..40] == W_4
    ensures W[40..48] == W_5
    ensures W[48..56] == W_6
    ensures W[56..64] == W_7
  {
  }

  lemma NoRounds(r: Registers, w: seq<Word>)
    requires |w| == 64
    ensures Rounds(r, w, 0) == r
  {
  }

  /** All 64 rounds. */
  lemma AllRounds()
    ensures |W| == 64 && Rounds(Load(INITIAL), W, 64) == R_64
  {
    hide *;
    Loaded();
    Sliced();
    NoRounds(R_0, W);
    Reached0(R_0, W);
    Reached1(R_0, W);
    Reached2(R_0, W);
    Reached3(R_0, W);
    Reached4(R_0, W);
    Reached5(R_0, W);
    Reached6(R_0, W);
    Reached7(R_0, W);
  }

  const BLOCK := ABC + [0x80] + Zeros(52) + Zeros(7) + [0x18]

  lemma SmallBytes()
    ensures ByteOf(0) == 0 && ByteOf(24) == 0x18
  {
  }

  lemma Padded()
    ensures |BLOCK| == BLOCK_SIZE && ABC + Padding(|ABC|) == BLOCK
  {
    hide ByteOf;
    assert ByteOf(0) == 0 && ByteOf(24) == 0x18 by {
      SmallBytes();
    }
    assert LengthBytes(24) == Zeros(7) + [0x18];
  }

  lemma BlockBytes()
    ensures |BLOCK| == BLOCK_SIZE && BLOCK[0] == 0x61 && BLOCK[1] == 0x62 && BLOCK[2] == 0x63 && BLOCK[3] == 0x80
    ensures (forall i :: 4 <= i < 63 ==> BLOCK[i] == 0) && BLOCK[63] == 0x18
  {
  }

  lemma FirstWords()
    ensures |W| == 64 && W[0] == 0x61626380 && (forall i :: 1 <= i < 15 ==> W[i] == 0) && W[15] == 0x18
    ensures WordOf(0x61, 0x62, 0x63, 0x80) == 0x61626380 && WordOf(0, 0, 0, 0) == 0 && WordOf(0, 0, 0, 0x18) == 0x18
  {
    hide W;
    Sliced();
    assert forall i :: 0 <= i < 8 ==> W[0..8][i] == W[i];
    assert forall i :: 8 <= i < 16 ==> W[8..16][i - 8] == W[i];
  }

  lemma Beginning(t: nat)
    requires t < 16
    ensures |BLOCK| == BLOCK_SIZE && |W| == 64 && Begins(W, BLOCK, t)
  {
    hide W, BLOCK, WordOf;
    BlockBytes();
    FirstWords();
  }

  lemma RecursAt(t: nat)
    requires 16 <= t < 64
    ensures |W| == 64 && Recurs(W, t)
  {
    hide *;
    Sliced();
    if t < 24 {
      OneOfEight(t, 16);
      Schedule2();
    } else if t < 32 {
      OneOfEight(t, 24);
      Schedule3();
    } else if t < 40 {
      OneOfEight(t, 32);
      Schedule4();
    } else if t < 48 {
      OneOfEight(t, 40);
      Schedule5();
    } else if t < 56 {
      OneOfEight(t, 48);
      Schedule6();
    } else {
      OneOfEight(t, 56);
      Schedule7();
    }
  }

  lemma WholeSchedule()
    ensures |BLOCK| == BLOCK_SIZE && |W| == 64 && Schedule(BLOCK, 64) == W
  {
    Padded();
    forall t | 0 <= t < 16
      ensures Begins(W, BLOCK, t)
    {
      Beginning(t);
    }
    forall t | 16 <= t < 64
      ensures Recurs(W, t)
    {
      RecursAt(t);
    }
    ScheduleIs(BLOCK, W, 64);
  }

  const STATE: seq<Word> := [0xba7816bf, 0x8f01cfea, 0x414140de, 0x5dae2223, 0xb00361a3, 0x96177a9c, 0xb410ff61, 0xf20015ad]

  lemma OneBlock()
    requires |BLOCK| == BLOCK_SIZE && ABC + Padding(|ABC|) == BLOCK
    ensures |INITIAL| == 8 && FinalState(ABC) == Added(INITIAL, Rounds(Load(INITIAL), Schedule(BLOCK, 64), 64))
  {
    hide BLOCK, Padding, ABC, Added, Rounds, Load, Schedule;
    assert [] + BLOCK == BLOCK;
    FoldNext([], BLOCK);
  }

  lemma LastAdded()
    ensures |INITIAL| == 8 && Added(INITIAL, R_64) == STATE
  {
  }

  lemma FinalAbc()
    ensures FinalState(ABC) == STATE
  {
    hide *;
    Padded();
    WholeSchedule();
    AllRounds();
    OneBlock();
    LastAdded();
  }

  /** Four bytes of the result for every word of the state. */
  lemma FourOf(state: seq<Word>, k: nat, b0: Byte, b1: Byte, b2: Byte, b3: Byte)
    requires k < |state| && ByteAt(state[k], 0) == b0 && ByteAt(state[k], 1) == b1
    requires ByteAt(state[k], 2) == b2 && ByteAt(state[k], 3) == b3
    ensures BytesOf(state)[4 * k..4 * k + 4] == [b0, b1, b2, b3]
  {
    hide ByteAt;
  }

  lemma Digest0()
    ensures |STATE| == 8 && BytesOf(STATE)[0..4] == [0xba, 0x78, 0x16, 0xbf]
  {
    FourOf(STATE, 0, 0xba, 0x78, 0x16, 0xbf);
  }

  lemma Digest1()
    ensures |STATE| == 8 && BytesOf(STATE)[4..8] == [0x8f, 0x01, 0xcf, 0xea]
  {
    FourOf(STATE, 1, 0x8f, 0x01, 0xcf, 0xea);
  }

  lemma Digest2()
    ensures |STATE| == 8 && BytesOf(STATE)[8..12] == [0x41, 0x41, 0x40, 0xde]
  {
    FourOf(STATE, 2, 0x41, 0x41, 0x40, 0xde);
  }

  lemma Digest3()
    ensures |STATE| == 8 && BytesOf(STATE)[12..16] == [0x5d, 0xae, 0x22, 0x23]
  {
    FourOf(STATE, 3, 0x5d, 0xae, 0x22, 0x23);
  }

  lemma Digest4()
    ensures |STATE| == 8 && BytesOf(STATE)[16..20] == [0xb0, 0x03, 0x61, 0xa3]
  {
    FourOf(STATE, 4, 0xb0, 0x03, 0x61, 0xa3);
  }

  lemma Digest5()
    ensures |STATE| == 8 && BytesOf(STATE)[20..24] == [0x96, 0x17, 0x7a, 0x9c]
  {
    FourOf(STATE, 5, 0x96, 0x17, 0x7a, 0x9c);
  }

  lemma Digest6()
    ensures |STATE| == 8 && BytesOf(STATE)[24..28] == [0xb4, 0x10, 0xff, 0x61]
  {
    FourOf(STATE, 6, 0xb4, 0x10, 0xff, 0x61);
  }

  lemma Digest7()
    ensures |STATE| == 8 && BytesOf(STATE)[28..32] == [0xf2, 0x00, 0x15, 0xad]
  {
    FourOf(STATE, 7, 0xf2, 0x00, 0x15, 0xad);
  }

  const DIGEST: seq<Byte> :=
    [0xba, 0x78, 0x16, 0xbf] + [0x8f, 0x01, 0xcf, 0xea]
    + [0x41, 0x41, 0x40, 0xde] + [0x5d, 0xae, 0x22, 0x23]
    + [0xb0, 0x03, 0x61, 0xa3] + [0x96, 0x17, 0x7a, 0x9c]
    + [0xb4, 0x10, 0xff, 0x61] + [0xf2, 0x00, 0x15, 0xad]

  lemma Fours(s: seq<Byte>)
    requires |s| == 32
    ensures s == s[0..4] + s[4..8] + s[8..12] + s[12..16] + s[16..20] + s[20..24] + s[24..28] + s[28..32]
  {
  }

  lemma StateBytes()
    ensures BytesOf(STATE) == DIGEST
  {
    hide BytesOf, STATE;
    Digest0();
    Digest1();
    Digest2();
    Digest3();
    Digest4();
    Digest5();
    Digest6();
    Digest7();
    Fours(BytesOf(STATE));
  }

  /** The hash of "abc" is the published one. */
  lemma Published()
    ensures Hash(ABC) == DIGEST
  {
    hide BytesOf, FinalState, ABC, STATE, DIGEST;
    FinalAbc();
    StateBytes();
  }
}
