/**
  The example of appendix B of FIPS 197, step by step: a block and the words its key
  expands to lead to the block published there.
 */
module AesExample {
  import opened Arithmetic
  import opened Bytes
  import opened AesTables
  import opened Aes

  lemma SubByte(x: Byte, r: nat, c: nat, y: Byte)
    requires r < 16 && c < 16 && x as nat == 16 * r + c && Sbox(r)[c] == y as nat
    ensures Sub(x) == y
  {
    hide Sbox, ToByte;
    SameByte(y);
  }

  // ----- the expanded key, by rounds -----

  const K_0: seq<Word> := [0x2b7e1516, 0x28aed2a6, 0xabf71588, 0x09cf4f3c]
  const K_1: seq<Word> := [0xa0fafe17, 0x88542cb1, 0x23a33939, 0x2a6c7605]
  const K_2: seq<Word> := [0xf2c295f2, 0x7a96b943, 0x5935807a, 0x7359f67f]
  const K_3: seq<Word> := [0x3d80477d, 0x4716fe3e, 0x1e237e44, 0x6d7a883b]
  const K_4: seq<Word> := [0xef44a541, 0xa8525b7f, 0xb671253b, 0xdb0bad00]
  const K_5: seq<Word> := [0xd4d1c6f8, 0x7c839d87, 0xcaf2b8bc, 0x11f915bc]
  const K_6: seq<Word> := [0x6d88a37a, 0x110b3efd, 0xdbf98641, 0xca0093fd]
  const K_7: seq<Word> := [0x4e54f70e, 0x5f5fc9f3, 0x84a64fb2, 0x4ea6dc4f]
  const K_8: seq<Word> := [0xead27321, 0xb58dbad2, 0x312bf560, 0x7f8d292f]
  const K_9: seq<Word> := [0xac7766f3, 0x19fadc21, 0x28d12941, 0x575c006e]
  const K_10: seq<Word> := [0xd014f9a8, 0xc9ee2589, 0xe13f0cc8, 0xb6630ca6]

  const KEY := K_0 + K_1 + K_2 + K_3 + K_4 + K_5 + K_6 + K_7 + K_8 + K_9 + K_10

  lemma KeyParts()
    ensures |KEY| == 44
    ensures KEY[0..4] == K_0
    ensures KEY[4..8] == K_1
    ensures KEY[8..12] == K_2
    ensures KEY[12..16] == K_3
    ensures KEY[16..20] == K_4
    ensures KEY[20..24] == K_5
    ensures KEY[24..28] == K_6
    ensures KEY[28..32] == K_7
    ensures KEY[32..36] == K_8
    ensures KEY[36..40] == K_9
    ensures KEY[40..44] == K_10
  {
  }

  /** One round key added, from its four words. */
  lemma KeyIsAdded(m: Matrix, key: seq<Word>, i: nat, k: seq<Word>)
    requires 4 * i + 4 <= |key| && |k| == 4 && key[4 * i..4 * i + 4] == k
    ensures KeyAdded(m, key, i) == KeyAdded(m, k, 0)
  {
    hide AddColumn, KeyColumn;
    var own := key[4 * i..4 * i + 4];
    assert own[0] == key[4 * i] && own[1] == key[4 * i + 1] && own[2] == key[4 * i + 2] && own[3] == key[4 * i + 3];
  }

  // ----- the block that goes in and the one that comes out -----

  const PLAIN: seq<Byte> := [
    0x32, 0x43, 0xf6, 0xa8, 0x88, 0x5a, 0x30, 0x8d, 0x31, 0x31, 0x98, 0xa2, 0xe0, 0x37, 0x07, 0x34]
  const CIPHER: seq<Byte> := [
    0x39, 0x25, 0x84, 0x1d, 0x02, 0xdc, 0x09, 0xfb, 0xdc, 0x11, 0x85, 0x97, 0x19, 0x6a, 0x0b, 0x32]

  // ----- the state, at the start of each round and after each of its steps -----

  const S_0 := Matrix(
    Column(0x19, 0x3d, 0xe3, 0xbe), Column(0xa0, 0xf4, 0xe2, 0x2b),
    Column(0x9a, 0xc6, 0x8d, 0x2a), Column(0xe9, 0xf8, 0x48, 0x08))
  const SUBSTITUTED_0 := Matrix(
    Column(0xd4, 0x27, 0x11, 0xae), Column(0xe0, 0xbf, 0x98, 0xf1),
    Column(0xb8, 0xb4, 0x5d, 0xe5), Column(0x1e, 0x41, 0x52, 0x30))
  const SHIFTED_0 := Matrix(
    Column(0xd4, 0xbf, 0x5d, 0x30), Column(0xe0, 0xb4, 0x52, 0xae),
    Column(0xb8, 0x41, 0x11, 0xf1), Column(0x1e, 0x27, 0x98, 0xe5))
  const MIXED_0 := Matrix(
    Column(0x04, 0x66, 0x81, 0xe5), Column(0xe0, 0xcb, 0x19, 0x9a),
    Column(0x48, 0xf8, 0xd3, 0x7a), Column(0x28, 0x06, 0x26, 0x4c))
  const S_1 := Matrix(
    Column(0xa4, 0x9c, 0x7f, 0xf2), Column(0x68, 0x9f, 0x35, 0x2b),
    Column(0x6b, 0x5b, 0xea, 0x43), Column(0x02, 0x6a, 0x50, 0x49))
  const SUBSTITUTED_1 := Matrix(
    Column(0x49, 0xde, 0xd2, 0x89), Column(0x45, 0xdb, 0x96, 0xf1),
    Column(0x7f, 0x39, 0x87, 0x1a), Column(0x77, 0x02, 0x53, 0x3b))
  const SHIFTED_1 := Matrix(
    Column(0x49, 0xdb, 0x87, 0x3b), Column(0x45, 0x39, 0x53, 0x89),
    Column(0x7f, 0x02, 0xd2, 0xf1), Column(0x77, 0xde, 0x96, 0x1a))
  const MIXED_1 := Matrix(
    Column(0x58, 0x4d, 0xca, 0xf1), Column(0x1b, 0x4b, 0x5a, 0xac),
    Column(0xdb, 0xe7, 0xca, 0xa8), Column(0x1b, 0x6b, 0xb0, 0xe5))
  const S_2 := Matrix(
    Column(0xaa, 0x8f, 0x5f, 0x03), Column(0x61, 0xdd, 0xe3, 0xef),
    Column(0x82, 0xd2, 0x4a, 0xd2), Column(0x68, 0x32, 0x46, 0x9a))
  const SUBSTITUTED_2 := Matrix(
    Column(0xac, 0x73, 0xcf, 0x7b), Column(0xef, 0xc1, 0x11, 0xdf),
    Column(0x13, 0xb5, 0xd6, 0xb5), Column(0x45, 0x23, 0x5a, 0xb8))
  const SHIFTED_2 := Matrix(
    Column(0xac, 0xc1, 0xd6, 0xb8), Column(0xef, 0xb5, 0x5a, 0x7b),
    Column(0x13, 0x23, 0xcf, 0xdf), Column(0x45, 0x73, 0x11, 0xb5))
  const MIXED_2 := Matrix(
    Column(0x75, 0xec, 0x09, 0x93), Column(0x20, 0x0b, 0x63, 0x33),
    Column(0x53, 0xc0, 0xcf, 0x7c), Column(0xbb, 0x25, 0xd0, 0xdc))
  const S_3 := Matrix(
    Column(0x48, 0x6c, 0x4e, 0xee), Column(0x67, 0x1d, 0x9d, 0x0d),
    Column(0x4d, 0xe3, 0xb1, 0x38), Column(0xd6, 0x5f, 0x58, 0xe7))
  const SUBSTITUTED_3 := Matrix(
    Column(0x52, 0x50, 0x2f, 0x28), Column(0x85, 0xa4, 0x5e, 0xd7),
    Column(0xe3, 0x11, 0xc8, 0x07), Column(0xf6, 0xcf, 0x6a, 0x94))
  const SHIFTED_3 := Matrix(
    Column(0x52, 0xa4, 0xc8, 0x94), Column(0x85, 0x11, 0x6a, 0x28),
    Column(0xe3, 0xcf, 0x2f, 0xd7), Column(0xf6, 0x50, 0x5e, 0x07))
  const MIXED_3 := Matrix(
    Column(0x0f, 0xd6, 0xda, 0xa9), Column(0x60, 0x31, 0x38, 0xbf),
    Column(0x6f, 0xc0, 0x10, 0x6b), Column(0x5e, 0xb3, 0x13, 0x01))
  const S_4 := Matrix(
    Column(0xe0, 0x92, 0x7f, 0xe8), Column(0xc8, 0x63, 0x63, 0xc0),
    Column(0xd9, 0xb1, 0x35, 0x50), Column(0x85, 0xb8, 0xbe, 0x01))
  const SUBSTITUTED_4 := Matrix(
    Column(0xe1, 0x4f, 0xd2, 0x9b), Column(0xe8, 0xfb, 0xfb, 0xba),
    Column(0x35, 0xc8, 0x96, 0x53), Column(0x97, 0x6c, 0xae, 0x7c))
  const SHIFTED_4 := Matrix(
    Column(0xe1, 0xfb, 0x96, 0x7c), Column(0xe8, 0xc8, 0xae, 0x9b),
    Column(0x35, 0x6c, 0xd2, 0xba), Column(0x97, 0x4f, 0xfb, 0x53))
  const MIXED_4 := Matrix(
    Column(0x25, 0xd1, 0xa9, 0xad), Column(0xbd, 0x11, 0xd1, 0x68),
    Column(0xb6, 0x3a, 0x33, 0x8e), Column(0x4c, 0x4c, 0xc0, 0xb0))
  const S_5 := Matrix(
    Column(0xf1, 0x00, 0x6f, 0x55), Column(0xc1, 0x92, 0x4c, 0xef),
    Column(0x7c, 0xc8, 0x8b, 0x32), Column(0x5d, 0xb5, 0xd5, 0x0c))
  const SUBSTITUTED_5 := Matrix(
    Column(0xa1, 0x63, 0xa8, 0xfc), Column(0x78, 0x4f, 0x29, 0xdf),
    Column(0x10, 0xe8, 0x3d, 0x23), Column(0x4c, 0xd5, 0x03, 0xfe))
  const SHIFTED_5 := Matrix(
    Column(0xa1, 0x4f, 0x3d, 0xfe), Column(0x78, 0xe8, 0x03, 0xfc),
    Column(0x10, 0xd5, 0xa8, 0xdf), Column(0x4c, 0x63, 0x29, 0x23))
  const MIXED_5 := Matrix(
    Column(0x4b, 0x86, 0x8d, 0x6d), Column(0x2c, 0x4a, 0x89, 0x80),
    Column(0x33, 0x9d, 0xf4, 0xe8), Column(0x37, 0xd2, 0x18, 0xd8))
  const S_6 := Matrix(
    Column(0x26, 0x0e, 0x2e, 0x17), Column(0x3d, 0x41, 0xb7, 0x7d),
    Column(0xe8, 0x64, 0x72, 0xa9), Column(0xfd, 0xd2, 0x8b, 0x25))
  const SUBSTITUTED_6 := Matrix(
    Column(0xf7, 0xab, 0x31, 0xf0), Column(0x27, 0x83, 0xa9, 0xff),
    Column(0x9b, 0x43, 0x40, 0xd3), Column(0x54, 0xb5, 0x3d, 0x3f))
  const SHIFTED_6 := Matrix(
    Column(0xf7, 0x83, 0x40, 0x3f), Column(0x27, 0x43, 0x3d, 0xf0),
    Column(0x9b, 0xb5, 0x31, 0xff), Column(0x54, 0xab, 0xa9, 0xd3))
  const MIXED_6 := Matrix(
    Column(0x14, 0x15, 0xb5, 0xbf), Column(0x46, 0x16, 0x15, 0xec),
    Column(0x27, 0x46, 0x56, 0xd7), Column(0x34, 0x2a, 0xd8, 0x43))
  const S_7 := Matrix(
    Column(0x5a, 0x41, 0x42, 0xb1), Column(0x19, 0x49, 0xdc, 0x1f),
    Column(0xa3, 0xe0, 0x19, 0x65), Column(0x7a, 0x8c, 0x04, 0x0c))
  const SUBSTITUTED_7 := Matrix(
    Column(0xbe, 0x83, 0x2c, 0xc8), Column(0xd4, 0x3b, 0x86, 0xc0),
    Column(0x0a, 0xe1, 0xd4, 0x4d), Column(0xda, 0x64, 0xf2, 0xfe))
  const SHIFTED_7 := Matrix(
    Column(0xbe, 0x3b, 0xd4, 0xfe), Column(0xd4, 0xe1, 0xf2, 0xc8),
    Column(0x0a, 0x64, 0x2c, 0xc0), Column(0xda, 0x83, 0x86, 0x4d))
  const MIXED_7 := Matrix(
    Column(0x00, 0x51, 0x2f, 0xd1), Column(0xb1, 0xc8, 0x89, 0xff),
    Column(0x54, 0x76, 0x6d, 0xcd), Column(0xfa, 0x1b, 0x99, 0xea))
  const S_8 := Matrix(
    Column(0xea, 0x83, 0x5c, 0xf0), Column(0x04, 0x45, 0x33, 0x2d),
    Column(0x65, 0x5d, 0x98, 0xad), Column(0x85, 0x96, 0xb0, 0xc5))
  const SUBSTITUTED_8 := Matrix(
    Column(0x87, 0xec, 0x4a, 0x8c), Column(0xf2, 0x6e, 0xc3, 0xd8),
    Column(0x4d, 0x4c, 0x46, 0x95), Column(0x97, 0x90, 0xe7, 0xa6))
  const SHIFTED_8 := Matrix(
    Column(0x87, 0x6e, 0x46, 0xa6), Column(0xf2, 0x4c, 0xe7, 0x8c),
    Column(0x4d, 0x90, 0x4a, 0xd8), Column(0x97, 0xec, 0xc3, 0x95))
  const MIXED_8 := Matrix(
    Column(0x47, 0x37, 0x94, 0xed), Column(0x40, 0xd4, 0xe4, 0xa5),
    Column(0xa3, 0x70, 0x3a, 0xa6), Column(0x4c, 0x9f, 0x42, 0xbc))
  const S_9 := Matrix(
    Column(0xeb, 0x40, 0xf2, 0x1e), Column(0x59, 0x2e, 0x38, 0x84),
    Column(0x8b, 0xa1, 0x13, 0xe7), Column(0x1b, 0xc3, 0x42, 0xd2))
  const SUBSTITUTED_9 := Matrix(
    Column(0xe9, 0x09, 0x89, 0x72), Column(0xcb, 0x31, 0x07, 0x5f),
    Column(0x3d, 0x32, 0x7d, 0x94), Column(0xaf, 0x2e, 0x2c, 0xb5))
  const SHIFTED_9 := Matrix(
    Column(0xe9, 0x31, 0x7d, 0xb5), Column(0xcb, 0x32, 0x2c, 0x72),
    Column(0x3d, 0x2e, 0x89, 0x5f), Column(0xaf, 0x09, 0x07, 0x94))
  const S_10 := Matrix(
    Column(0x39, 0x25, 0x84, 0x1d), Column(0x02, 0xdc, 0x09, 0xfb),
    Column(0xdc, 0x11, 0x85, 0x97), Column(0x19, 0x6a, 0x0b, 0x32))

  lemma Start()
    ensures KeyAdded(MatrixOf(PLAIN), K_0, 0) == S_0
  {
  }

  lemma SubstitutedLeft0()
    ensures SubColumn(S_0.c0) == SUBSTITUTED_0.c0 && SubColumn(S_0.c1) == SUBSTITUTED_0.c1
  {
    hide Sub;
    SubByte(0x19, 1, 9, 0xd4);
    SubByte(0x3d, 3, 13, 0x27);
    SubByte(0xe3, 14, 3, 0x11);
    SubByte(0xbe, 11, 14, 0xae);
    SubByte(0xa0, 10, 0, 0xe0);
    SubByte(0xf4, 15, 4, 0xbf);
    SubByte(0xe2, 14, 2, 0x98);
    SubByte(0x2b, 2, 11, 0xf1);
  }

  lemma SubstitutedRight0()
    ensures SubColumn(S_0.c2) == SUBSTITUTED_0.c2 && SubColumn(S_0.c3) == SUBSTITUTED_0.c3
  {
    hide Sub;
    SubByte(0x9a, 9, 10, 0xb8);
    SubByte(0xc6, 12, 6, 0xb4);
    SubByte(0x8d, 8, 13, 0x5d);
    SubByte(0x2a, 2, 10, 0xe5);
    SubByte(0xe9, 14, 9, 0x1e);
    SubByte(0xf8, 15, 8, 0x41);
    SubByte(0x48, 4, 8, 0x52);
    SubByte(0x08, 0, 8, 0x30);
  }

  lemma Mixed0()
    ensures Mixed(SHIFTED_0) == MIXED_0
  {
    hide Row;
    RowIsMultiples(0xd4);
    RowIsMultiples(0xbf);
    RowIsMultiples(0x5d);
    RowIsMultiples(0x30);
    RowIsMultiples(0xe0);
    RowIsMultiples(0xb4);
    RowIsMultiples(0x52);
    RowIsMultiples(0xae);
    RowIsMultiples(0xb8);
    RowIsMultiples(0x41);
    RowIsMultiples(0x11);
    RowIsMultiples(0xf1);
    RowIsMultiples(0x1e);
    RowIsMultiples(0x27);
    RowIsMultiples(0x98);
    RowIsMultiples(0xe5);
  }

  lemma Shifted0()
    ensures Shifted(SUBSTITUTED_0) == SHIFTED_0
  {
  }

  lemma Added0()
    ensures |K_1| == 4 && KeyAdded(MIXED_0, K_1, 0) == S_1
  {
  }

  lemma Round1()
    requires |KEY| == 44 && KEY[4..8] == K_1
    ensures EncryptRound(S_0, KEY, 1) == S_1
  {
    hide SubColumn, Shifted, Mixed, KeyAdded, KEY, K_1;
    SubstitutedLeft0();
    SubstitutedRight0();
    Shifted0();
    Mixed0();
    Added0();
    KeyIsAdded(MIXED_0, KEY, 1, K_1);
  }

  lemma SubstitutedLeft1()
    ensures SubColumn(S_1.c0) == SUBSTITUTED_1.c0 && SubColumn(S_1.c1) == SUBSTITUTED_1.c1
  {
    hide Sub;
    SubByte(0xa4, 10, 4, 0x49);
    SubByte(0x9c, 9, 12, 0xde);
    SubByte(0x7f, 7, 15, 0xd2);
    SubByte(0xf2, 15, 2, 0x89);
    SubByte(0x68, 6, 8, 0x45);
    SubByte(0x9f, 9, 15, 0xdb);
    SubByte(0x35, 3, 5, 0x96);
    SubByte(0x2b, 2, 11, 0xf1);
  }

  lemma SubstitutedRight1()
    ensures SubColumn(S_1.c2) == SUBSTITUTED_1.c2 && SubColumn(S_1.c3) == SUBSTITUTED_1.c3
  {
    hide Sub;
    SubByte(0x6b, 6, 11, 0x7f);
    SubByte(0x5b, 5, 11, 0x39);
    SubByte(0xea, 14, 10, 0x87);
    SubByte(0x43, 4, 3, 0x1a);
    SubByte(0x02, 0, 2, 0x77);
    SubByte(0x6a, 6, 10, 0x02);
    SubByte(0x50, 5, 0, 0x53);
    SubByte(0x49, 4, 9, 0x3b);
  }

  lemma Mixed1()
    ensures Mixed(SHIFTED_1) == MIXED_1
  {
    hide Row;
    RowIsMultiples(0x49);
    RowIsMultiples(0xdb);
    RowIsMultiples(0x87);
    RowIsMultiples(0x3b);
    RowIsMultiples(0x45);
    RowIsMultiples(0x39);
    RowIsMultiples(0x53);
    RowIsMultiples(0x89);
    RowIsMultiples(0x7f);
    RowIsMultiples(0x02);
    RowIsMultiples(0xd2);
    RowIsMultiples(0xf1);
    RowIsMultiples(0x77);
    RowIsMultiples(0xde);
    RowIsMultiples(0x96);
    RowIsMultiples(0x1a);
  }

  lemma Shifted1()
    ensures Shifted(SUBSTITUTED_1) == SHIFTED_1
  {
  }

  lemma Added1()
    ensures |K_2| == 4 && KeyAdded(MIXED_1, K_2, 0) == S_2
  {
  }

  lemma Round2()
    requires |KEY| == 44 && KEY[8..12] == K_2
    ensures EncryptRound(S_1, KEY, 2) == S_2
  {
    hide SubColumn, Shifted, Mixed, KeyAdded, KEY, K_2;
    SubstitutedLeft1();
    SubstitutedRight1();
    Shifted1();
    Mixed1();
    Added1();
    KeyIsAdded(MIXED_1, KEY, 2, K_2);
  }

  lemma SubstitutedLeft2()
    ensures SubColumn(S_2.c0) == SUBSTITUTED_2.c0 && SubColumn(S_2.c1) == SUBSTITUTED_2.c1
  {
    hide Sub;
    SubByte(0xaa, 10, 10, 0xac);
    SubByte(0x8f, 8, 15, 0x73);
    SubByte(0x5f, 5, 15, 0xcf);
    SubByte(0x03, 0, 3, 0x7b);
    SubByte(0x61, 6, 1, 0xef);
    SubByte(0xdd, 13, 13, 0xc1);
    SubByte(0xe3, 14, 3, 0x11);
    SubByte(0xef, 14, 15, 0xdf);
  }

  lemma SubstitutedRight2()
    ensures SubColumn(S_2.c2) == SUBSTITUTED_2.c2 && SubColumn(S_2.c3) == SUBSTITUTED_2.c3
  {
    hide Sub;
    SubByte(0x82, 8, 2, 0x13);
    SubByte(0xd2, 13, 2, 0xb5);
    SubByte(0x4a, 4, 10, 0xd6);
    SubByte(0xd2, 13, 2, 0xb5);
    SubByte(0x68, 6, 8, 0x45);
    SubByte(0x32, 3, 2, 0x23);
    SubByte(0x46, 4, 6, 0x5a);
    SubByte(0x9a, 9, 10, 0xb8);
  }

  lemma Mixed2()
    ensures Mixed(SHIFTED_2) == MIXED_2
  {
    hide Row;
    RowIsMultiples(0xac);
    RowIsMultiples(0xc1);
    RowIsMultiples(0xd6);
    RowIsMultiples(0xb8);
    RowIsMultiples(0xef);
    RowIsMultiples(0xb5);
    RowIsMultiples(0x5a);
    RowIsMultiples(0x7b);
    RowIsMultiples(0x13);
    RowIsMultiples(0x23);
    RowIsMultiples(0xcf);
    RowIsMultiples(0xdf);
    RowIsMultiples(0x45);
    RowIsMultiples(0x73);
    RowIsMultiples(0x11);
    RowIsMultiples(0xb5);
  }

  lemma Shifted2()
    ensures Shifted(SUBSTITUTED_2) == SHIFTED_2
  {
  }

  lemma Added2()
    ensures |K_3| == 4 && KeyAdded(MIXED_2, K_3, 0) == S_3
  {
  }

  lemma Round3()
    requires |KEY| == 44 && KEY[12..16] == K_3
    ensures EncryptRound(S_2, KEY, 3) == S_3
  {
    hide SubColumn, Shifted, Mixed, KeyAdded, KEY, K_3;
    SubstitutedLeft2();
    SubstitutedRight2();
    Shifted2();
    Mixed2();
    Added2();
    KeyIsAdded(MIXED_2, KEY, 3, K_3);
  }

  lemma SubstitutedLeft3()
    ensures SubColumn(S_3.c0) == SUBSTITUTED_3.c0 && SubColumn(S_3.c1) == SUBSTITUTED_3.c1
  {
    hide Sub;
    SubByte(0x48, 4, 8, 0x52);
    SubByte(0x6c, 6, 12, 0x50);
    SubByte(0x4e, 4, 14, 0x2f);
    SubByte(0xee, 14, 14, 0x28);
    SubByte(0x67, 6, 7, 0x85);
    SubByte(0x1d, 1, 13, 0xa4);
    SubByte(0x9d, 9, 13, 0x5e);
    SubByte(0x0d, 0, 13, 0xd7);
  }

  lemma SubstitutedRight3()
    ensures SubColumn(S_3.c2) == SUBSTITUTED_3.c2 && SubColumn(S_3.c3) == SUBSTITUTED_3.c3
  {
    hide Sub;
    SubByte(0x4d, 4, 13, 0xe3);
    SubByte(0xe3, 14, 3, 0x11);
    SubByte(0xb1, 11, 1, 0xc8);
    SubByte(0x38, 3, 8, 0x07);
    SubByte(0xd6, 13, 6, 0xf6);
    SubByte(0x5f, 5, 15, 0xcf);
    SubByte(0x58, 5, 8, 0x6a);
    SubByte(0xe7, 14, 7, 0x94);
  }

  lemma Mixed3()
    ensures Mixed(SHIFTED_3) == MIXED_3
  {
    hide Row;
    RowIsMultiples(0x52);
    RowIsMultiples(0xa4);
    RowIsMultiples(0xc8);
    RowIsMultiples(0x94);
    RowIsMultiples(0x85);
    RowIsMultiples(0x11);
    RowIsMultiples(0x6a);
    RowIsMultiples(0x28);
    RowIsMultiples(0xe3);
    RowIsMultiples(0xcf);
    RowIsMultiples(0x2f);
    RowIsMultiples(0xd7);
    RowIsMultiples(0xf6);
    RowIsMultiples(0x50);
    RowIsMultiples(0x5e);
    RowIsMultiples(0x07);
  }

  lemma Shifted3()
    ensures Shifted(SUBSTITUTED_3) == SHIFTED_3
  {
  }

  lemma Added3()
    ensures |K_4| == 4 && KeyAdded(MIXED_3, K_4, 0) == S_4
  {
  }

  lemma Round4()
    requires |KEY| == 44 && KEY[16..20] == K_4
    ensures EncryptRound(S_3, KEY, 4) == S_4
  {
    hide SubColumn, Shifted, Mixed, KeyAdded, KEY, K_4;
    SubstitutedLeft3();
    SubstitutedRight3();
    Shifted3();
    Mixed3();
    Added3();
    KeyIsAdded(MIXED_3, KEY, 4, K_4);
  }

  lemma SubstitutedLeft4()
    ensures SubColumn(S_4.c0) == SUBSTITUTED_4.c0 && SubColumn(S_4.c1) == SUBSTITUTED_4.c1
  {
    hide Sub;
    SubByte(0xe0, 14, 0, 0xe1);
    SubByte(0x92, 9, 2, 0x4f);
    SubByte(0x7f, 7, 15, 0xd2);
    SubByte(0xe8, 14, 8, 0x9b);
    SubByte(0xc8, 12, 8, 0xe8);
    SubByte(0x63, 6, 3, 0xfb);
    SubByte(0x63, 6, 3, 0xfb);
    SubByte(0xc0, 12, 0, 0xba);
  }

  lemma SubstitutedRight4()
    ensures SubColumn(S_4.c2) == SUBSTITUTED_4.c2 && SubColumn(S_4.c3) == SUBSTITUTED_4.c3
  {
    hide Sub;
    SubByte(0xd9, 13, 9, 0x35);
    SubByte(0xb1, 11, 1, 0xc8);
    SubByte(0x35, 3, 5, 0x96);
    SubByte(0x50, 5, 0, 0x53);
    SubByte(0x85, 8, 5, 0x97);
    SubByte(0xb8, 11, 8, 0x6c);
    SubByte(0xbe, 11, 14, 0xae);
    SubByte(0x01, 0, 1, 0x7c);
  }

  lemma Mixed4()
    ensures Mixed(SHIFTED_4) == MIXED_4
  {
    hide Row;
    RowIsMultiples(0xe1);
    RowIsMultiples(0xfb);
    RowIsMultiples(0x96);
    RowIsMultiples(0x7c);
    RowIsMultiples(0xe8);
    RowIsMultiples(0xc8);
    RowIsMultiples(0xae);
    RowIsMultiples(0x9b);
    RowIsMultiples(0x35);
    RowIsMultiples(0x6c);
    RowIsMultiples(0xd2);
    RowIsMultiples(0xba);
    RowIsMultiples(0x97);
    RowIsMultiples(0x4f);
    RowIsMultiples(0xfb);
    RowIsMultiples(0x53);
  }

  lemma Shifted4()
    ensures Shifted(SUBSTITUTED_4) == SHIFTED_4
  {
  }

  lemma Added4()
    ensures |K_5| == 4 && KeyAdded(MIXED_4, K_5, 0) == S_5
  {
  }

  lemma Round5()
    requires |KEY| == 44 && KEY[20..24] == K_5
    ensures EncryptRound(S_4, KEY, 5) == S_5
  {
    hide SubColumn, Shifted, Mixed, KeyAdded, KEY, K_5;
    SubstitutedLeft4();
    SubstitutedRight4();
    Shifted4();
    Mixed4();
    Added4();
    KeyIsAdded(MIXED_4, KEY, 5, K_5);
  }

  lemma SubstitutedLeft5()
    ensures SubColumn(S_5.c0) == SUBSTITUTED_5.c0 && SubColumn(S_5.c1) == SUBSTITUTED_5.c1
  {
    hide Sub;
    SubByte(0xf1, 15, 1, 0xa1);
    SubByte(0x00, 0, 0, 0x63);
    SubByte(0x6f, 6, 15, 0xa8);
    SubByte(0x55, 5, 5, 0xfc);
    SubByte(0xc1, 12, 1, 0x78);
    SubByte(0x92, 9, 2, 0x4f);
    SubByte(0x4c, 4, 12, 0x29);
    SubByte(0xef, 14, 15, 0xdf);
  }

  lemma SubstitutedRight5()
    ensures SubColumn(S_5.c2) == SUBSTITUTED_5.c2 && SubColumn(S_5.c3) == SUBSTITUTED_5.c3
  {
    hide Sub;
    SubByte(0x7c, 7, 12, 0x10);
    SubByte(0xc8, 12, 8, 0xe8);
    SubByte(0x8b, 8, 11, 0x3d);
    SubByte(0x32, 3, 2, 0x23);
    SubByte(0x5d, 5, 13, 0x4c);
    SubByte(0xb5, 11, 5, 0xd5);
    SubByte(0xd5, 13, 5, 0x03);
    SubByte(0x0c, 0, 12, 0xfe);
  }

  lemma Mixed5()
    ensures Mixed(SHIFTED_5) == MIXED_5
  {
    hide Row;
    RowIsMultiples(0xa1);
    RowIsMultiples(0x4f);
    RowIsMultiples(0x3d);
    RowIsMultiples(0xfe);
    RowIsMultiples(0x78);
    RowIsMultiples(0xe8);
    RowIsMultiples(0x03);
    RowIsMultiples(0xfc);
    RowIsMultiples(0x10);
    RowIsMultiples(0xd5);
    RowIsMultiples(0xa8);
    RowIsMultiples(0xdf);
    RowIsMultiples(0x4c);
    RowIsMultiples(0x63);
    RowIsMultiples(0x29);
    RowIsMultiples(0x23);
  }

  lemma Shifted5()
    ensures Shifted(SUBSTITUTED_5) == SHIFTED_5
  {
  }

  lemma Added5()
    ensures |K_6| == 4 && KeyAdded(MIXED_5, K_6, 0) == S_6
  {
  }

  lemma Round6()
    requires |KEY| == 44 && KEY[24..28] == K_6
    ensures EncryptRound(S_5, KEY, 6) == S_6
  {
    hide SubColumn, Shifted, Mixed, KeyAdded, KEY, K_6;
    SubstitutedLeft5();
    SubstitutedRight5();
    Shifted5();
    Mixed5();
    Added5();
    KeyIsAdded(MIXED_5, KEY, 6, K_6);
  }

  lemma SubstitutedLeft6()
    ensures SubColumn(S_6.c0) == SUBSTITUTED_6.c0 && SubColumn(S_6.c1) == SUBSTITUTED_6.c1
  {
    hide Sub;
    SubByte(0x26, 2, 6, 0xf7);
    SubByte(0x0e, 0, 14, 0xab);
    SubByte(0x2e, 2, 14, 0x31);
    SubByte(0x17, 1, 7, 0xf0);
    SubByte(0x3d, 3, 13, 0x27);
    SubByte(0x41, 4, 1, 0x83);
    SubByte(0xb7, 11, 7, 0xa9);
    SubByte(0x7d, 7, 13, 0xff);
  }

  lemma SubstitutedRight6()
    ensures SubColumn(S_6.c2) == SUBSTITUTED_6.c2 && SubColumn(S_6.c3) == SUBSTITUTED_6.c3
  {
    hide Sub;
    SubByte(0xe8, 14, 8, 0x9b);
    SubByte(0x64, 6, 4, 0x43);
    SubByte(0x72, 7, 2, 0x40);
    SubByte(0xa9, 10, 9, 0xd3);
    SubByte(0xfd, 15, 13, 0x54);
    SubByte(0xd2, 13, 2, 0xb5);
    SubByte(0x8b, 8, 11, 0x3d);
    SubByte(0x25, 2, 5, 0x3f);
  }

  lemma Mixed6()
    ensures Mixed(SHIFTED_6) == MIXED_6
  {
    hide Row;
    RowIsMultiples(0xf7);
    RowIsMultiples(0x83);
    RowIsMultiples(0x40);
    RowIsMultiples(0x3f);
    RowIsMultiples(0x27);
    RowIsMultiples(0x43);
    RowIsMultiples(0x3d);
    RowIsMultiples(0xf0);
    RowIsMultiples(0x9b);
    RowIsMultiples(0xb5);
    RowIsMultiples(0x31);
    RowIsMultiples(0xff);
    RowIsMultiples(0x54);
    RowIsMultiples(0xab);
    RowIsMultiples(0xa9);
    RowIsMultiples(0xd3);
  }

  lemma Shifted6()
    ensures Shifted(SUBSTITUTED_6) == SHIFTED_6
  {
  }

  lemma Added6()
    ensures |K_7| == 4 && KeyAdded(MIXED_6, K_7, 0) == S_7
  {
  }

  lemma Round7()
    requires |KEY| == 44 && KEY[28..32] == K_7
    ensures EncryptRound(S_6, KEY, 7) == S_7
  {
    hide SubColumn, Shifted, Mixed, KeyAdded, KEY, K_7;
    SubstitutedLeft6();
    SubstitutedRight6();
    Shifted6();
    Mixed6();
    Added6();
    KeyIsAdded(MIXED_6, KEY, 7, K_7);
  }

  lemma SubstitutedLeft7()
    ensures SubColumn(S_7.c0) == SUBSTITUTED_7.c0 && SubColumn(S_7.c1) == SUBSTITUTED_7.c1
  {
    hide Sub;
    SubByte(0x5a, 5, 10, 0xbe);
    SubByte(0x41, 4, 1, 0x83);
    SubByte(0x42, 4, 2, 0x2c);
    SubByte(0xb1, 11, 1, 0xc8);
    SubByte(0x19, 1, 9, 0xd4);
    SubByte(0x49, 4, 9, 0x3b);
    SubByte(0xdc, 13, 12, 0x86);
    SubByte(0x1f, 1, 15, 0xc0);
  }

  lemma SubstitutedRight7()
    ensures SubColumn(S_7.c2) == SUBSTITUTED_7.c2 && SubColumn(S_7.c3) == SUBSTITUTED_7.c3
  {
    hide Sub;
    SubByte(0xa3, 10, 3, 0x0a);
    SubByte(0xe0, 14, 0, 0xe1);
    SubByte(0x19, 1, 9, 0xd4);
    SubByte(0x65, 6, 5, 0x4d);
    SubByte(0x7a, 7, 10, 0xda);
    SubByte(0x8c, 8, 12, 0x64);
    SubByte(0x04, 0, 4, 0xf2);
    SubByte(0x0c, 0, 12, 0xfe);
  }

  lemma Mixed7()
    ensures Mixed(SHIFTED_7) == MIXED_7
  {
    hide Row;
    RowIsMultiples(0xbe);
    RowIsMultiples(0x3b);
    RowIsMultiples(0xd4);
    RowIsMultiples(0xfe);
    RowIsMultiples(0xd4);
    RowIsMultiples(0xe1);
    RowIsMultiples(0xf2);
    RowIsMultiples(0xc8);
    RowIsMultiples(0x0a);
    RowIsMultiples(0x64);
    RowIsMultiples(0x2c);
    RowIsMultiples(0xc0);
    RowIsMultiples(0xda);
    RowIsMultiples(0x83);
    RowIsMultiples(0x86);
    RowIsMultiples(0x4d);
  }

  lemma Shifted7()
    ensures Shifted(SUBSTITUTED_7) == SHIFTED_7
  {
  }

  lemma Added7()
    ensures |K_8| == 4 && KeyAdded(MIXED_7, K_8, 0) == S_8
  {
  }

  lemma Round8()
    requires |KEY| == 44 && KEY[32..36] == K_8
    ensures EncryptRound(S_7, KEY, 8) == S_8
  {
    hide SubColumn, Shifted, Mixed, KeyAdded, KEY, K_8;
    SubstitutedLeft7();
    SubstitutedRight7();
    Shifted7();
    Mixed7();
    Added7();
    KeyIsAdded(MIXED_7, KEY, 8, K_8);
  }

  lemma SubstitutedLeft8()
    ensures SubColumn(S_8.c0) == SUBSTITUTED_8.c0 && SubColumn(S_8.c1) == SUBSTITUTED_8.c1
  {
    hide Sub;
    SubByte(0xea, 14, 10, 0x87);
    SubByte(0x83, 8, 3, 0xec);
    SubByte(0x5c, 5, 12, 0x4a);
    SubByte(0xf0, 15, 0, 0x8c);
    SubByte(0x04, 0, 4, 0xf2);
    SubByte(0x45, 4, 5, 0x6e);
    SubByte(0x33, 3, 3, 0xc3);
    SubByte(0x2d, 2, 13, 0xd8);
  }

  lemma SubstitutedRight8()
    ensures SubColumn(S_8.c2) == SUBSTITUTED_8.c2 && SubColumn(S_8.c3) == SUBSTITUTED_8.c3
  {
    hide Sub;
    SubByte(0x65, 6, 5, 0x4d);
    SubByte(0x5d, 5, 13, 0x4c);
    SubByte(0x98, 9, 8, 0x46);
    SubByte(0xad, 10, 13, 0x95);
    SubByte(0x85, 8, 5, 0x97);
    SubByte(0x96, 9, 6, 0x90);
    SubByte(0xb0, 11, 0, 0xe7);
    SubByte(0xc5, 12, 5, 0xa6);
  }

  lemma Mixed8()
    ensures Mixed(SHIFTED_8) == MIXED_8
  {
    hide Row;
    RowIsMultiples(0x87);
    RowIsMultiples(0x6e);
    RowIsMultiples(0x46);
    RowIsMultiples(0xa6);
    RowIsMultiples(0xf2);
    RowIsMultiples(0x4c);
    RowIsMultiples(0xe7);
    RowIsMultiples(0x8c);
    RowIsMultiples(0x4d);
    RowIsMultiples(0x90);
    RowIsMultiples(0x4a);
    RowIsMultiples(0xd8);
    RowIsMultiples(0x97);
    RowIsMultiples(0xec);
    RowIsMultiples(0xc3);
    RowIsMultiples(0x95);
  }

  lemma Shifted8()
    ensures Shifted(SUBSTITUTED_8) == SHIFTED_8
  {
  }

  lemma Added8()
    ensures |K_9| == 4 && KeyAdded(MIXED_8, K_9, 0) == S_9
  {
  }

  lemma Round9()
    requires |KEY| == 44 && KEY[36..40] == K_9
    ensures EncryptRound(S_8, KEY, 9) == S_9
  {
    hide SubColumn, Shifted, Mixed, KeyAdded, KEY, K_9;
    SubstitutedLeft8();
    SubstitutedRight8();
    Shifted8();
    Mixed8();
    Added8();
    KeyIsAdded(MIXED_8, KEY, 9, K_9);
  }

  lemma SubstitutedLeft9()
    ensures SubColumn(S_9.c0) == SUBSTITUTED_9.c0 && SubColumn(S_9.c1) == SUBSTITUTED_9.c1
  {
    hide Sub;
    SubByte(0xeb, 14, 11, 0xe9);
    SubByte(0x40, 4, 0, 0x09);
    SubByte(0xf2, 15, 2, 0x89);
    SubByte(0x1e, 1, 14, 0x72);
    SubByte(0x59, 5, 9, 0xcb);
    SubByte(0x2e, 2, 14, 0x31);
    SubByte(0x38, 3, 8, 0x07);
    SubByte(0x84, 8, 4, 0x5f);
  }

  lemma SubstitutedRight9()
    ensures SubColumn(S_9.c2) == SUBSTITUTED_9.c2 && SubColumn(S_9.c3) == SUBSTITUTED_9.c3
  {
    hide Sub;
    SubByte(0x8b, 8, 11, 0x3d);
    SubByte(0xa1, 10, 1, 0x32);
    SubByte(0x13, 1, 3, 0x7d);
    SubByte(0xe7, 14, 7, 0x94);
    SubByte(0x1b, 1, 11, 0xaf);
    SubByte(0xc3, 12, 3, 0x2e);
    SubByte(0x42, 4, 2, 0x2c);
    SubByte(0xd2, 13, 2, 0xb5);
  }

  lemma LastRound()
    ensures |K_10| == 4 && KeyAdded(Shifted(SUBSTITUTED_9), K_10, 0) == S_10
  {
  }

  lemma Plain()
    ensures |PLAIN| == BLOCK_SIZE && |CIPHER| == BLOCK_SIZE && BlockOf(S_10) == CIPHER
    ensures |K_0| == 4
  {
  }

  lemma NineRounds()
    ensures |KEY| == 44 && |PLAIN| == BLOCK_SIZE && Forward(MatrixOf(PLAIN), KEY, 9) == S_9
  {
    hide EncryptRound, KEY, MatrixOf, KeyAdded, PLAIN;
    KeyParts();
    Plain();
    Start();
    KeyIsAdded(MatrixOf(PLAIN), KEY, 0, K_0);
    var m := MatrixOf(PLAIN);
    assert Forward(m, KEY, 0) == S_0;
    Round1();
    assert Forward(m, KEY, 1) == S_1;
    Round2();
    assert Forward(m, KEY, 2) == S_2;
    Round3();
    assert Forward(m, KEY, 3) == S_3;
    Round4();
    assert Forward(m, KEY, 4) == S_4;
    Round5();
    assert Forward(m, KEY, 5) == S_5;
    Round6();
    assert Forward(m, KEY, 6) == S_6;
    Round7();
    assert Forward(m, KEY, 7) == S_7;
    Round8();
    assert Forward(m, KEY, 8) == S_8;
    Round9();
    assert Forward(m, KEY, 9) == S_9;
  }

  /** The block comes out as published, and decryption leads back. */
  lemma Published()
    ensures |PLAIN| == |CIPHER| == BLOCK_SIZE && Expands(KEY, EncryptionRounds(128))
    ensures EncryptBlock(PLAIN, KEY, 128) == CIPHER && DecryptBlock(CIPHER, KEY, 128) == PLAIN
  {
    hide SubColumn, Shifted, KeyAdded, Forward, BlockOf, MatrixOf, DecryptBlock, KEY, PLAIN, CIPHER;
    KeyParts();
    Plain();
    NineRounds();
    SubstitutedLeft9();
    SubstitutedRight9();
    LastRound();
    KeyIsAdded(Shifted(SUBSTITUTED_9), KEY, 10, K_10);
    BlockComesBack(PLAIN, KEY, 128);
  }
}
