/**
  The S-box as section 5.1.1 of FIPS 197 defines it: the inverse in GF(2^8), and then an
  affine map.
 */
module AesSbox {
  import opened Arithmetic
  import opened Bytes
  import opened AesTables

  /** The product in GF(2^8): x times the powers of the polynomial x that y is made of. */
  function Times(x: Byte, y: Byte): Byte {
    var x1 := Double(x);
    var x2 := Double(x1);
    var x3 := Double(x2);
    var x4 := Double(x3);
    var x5 := Double(x4);
    var x6 := Double(x5);
    var x7 := Double(x6);
    (if y & 0x01 != 0 then x else 0) ^ (if y & 0x02 != 0 then x1 else 0)
    ^ (if y & 0x04 != 0 then x2 else 0) ^ (if y & 0x08 != 0 then x3 else 0)
    ^ (if y & 0x10 != 0 then x4 else 0) ^ (if y & 0x20 != 0 then x5 else 0)
    ^ (if y & 0x40 != 0 then x6 else 0) ^ (if y & 0x80 != 0 then x7 else 0)
  }

  /** The affine map: every bit is the sum of five, and of a bit of 0x63. */
  function Affine(b: Byte): Byte {
    b ^ b.RotateLeft(1) ^ b.RotateLeft(2) ^ b.RotateLeft(3) ^ b.RotateLeft(4) ^ 0x63
  }

  /** Whether inv is the inverse of x; zero, which has none, stands for itself. */
  predicate IsInverse(x: Byte, inv: Byte) {
    if x == 0 then inv == 0 else Times(x, inv) == 1
  }

  /** The value is that of the affine map at the inverse. */
  ghost predicate MapsTo(x: Byte, inv: Byte, v: nat) {
    IsInverse(x, inv) && Affine(inv) as nat == v
  }

  ghost predicate Defined(x: Byte, v: nat) {
    exists inv :: MapsTo(x, inv, v)
  }

  lemma DefinedLow0(x: Byte)
    requires 0x00 <= x <= 0x07
    ensures Defined(x, SBOX_0[x as nat % 16])
  {
    if x == 0x00 { assert MapsTo(0x00, 0x00, 0x63); } else if x == 0x01 { assert MapsTo(0x01, 0x01, 0x7c); }
    else if x == 0x02 { assert MapsTo(0x02, 0x8d, 0x77); } else if x == 0x03 { assert MapsTo(0x03, 0xf6, 0x7b); }
    else if x == 0x04 { assert MapsTo(0x04, 0xcb, 0xf2); } else if x == 0x05 { assert MapsTo(0x05, 0x52, 0x6b); }
    else if x == 0x06 { assert MapsTo(0x06, 0x7b, 0x6f); } else if x == 0x07 { assert MapsTo(0x07, 0xd1, 0xc5); }
  }

  lemma DefinedHigh0(x: Byte)
    requires 0x08 <= x <= 0x0f
    ensures Defined(x, SBOX_0[x as nat % 16])
  {
    if x == 0x08 { assert MapsTo(0x08, 0xe8, 0x30); } else if x == 0x09 { assert MapsTo(0x09, 0x4f, 0x01); }
    else if x == 0x0a { assert MapsTo(0x0a, 0x29, 0x67); } else if x == 0x0b { assert MapsTo(0x0b, 0xc0, 0x2b); }
    else if x == 0x0c { assert MapsTo(0x0c, 0xb0, 0xfe); } else if x == 0x0d { assert MapsTo(0x0d, 0xe1, 0xd7); }
    else if x == 0x0e { assert MapsTo(0x0e, 0xe5, 0xab); } else if x == 0x0f { assert MapsTo(0x0f, 0xc7, 0x76); }
  }

  lemma DefinedLow1(x: Byte)
    requires 0x10 <= x <= 0x17
    ensures Defined(x, SBOX_1[x as nat % 16])
  {
    if x == 0x10 { assert MapsTo(0x10, 0x74, 0xca); } else if x == 0x11 { assert MapsTo(0x11, 0xb4, 0x82); }
    else if x == 0x12 { assert MapsTo(0x12, 0xaa, 0xc9); } else if x == 0x13 { assert MapsTo(0x13, 0x4b, 0x7d); }
    else if x == 0x14 { assert MapsTo(0x14, 0x99, 0xfa); } else if x == 0x15 { assert MapsTo(0x15, 0x2b, 0x59); }
    else if x == 0x16 { assert MapsTo(0x16, 0x60, 0x47); } else if x == 0x17 { assert MapsTo(0x17, 0x5f, 0xf0); }
  }

  lemma DefinedHigh1(x: Byte)
    requires 0x18 <= x <= 0x1f
    ensures Defined(x, SBOX_1[x as nat % 16])
  {
    if x == 0x18 { assert MapsTo(0x18, 0x58, 0xad); } else if x == 0x19 { assert MapsTo(0x19, 0x3f, 0xd4); }
    else if x == 0x1a { assert MapsTo(0x1a, 0xfd, 0xa2); } else if x == 0x1b { assert MapsTo(0x1b, 0xcc, 0xaf); }
    else if x == 0x1c { assert MapsTo(0x1c, 0xff, 0x9c); } else if x == 0x1d { assert MapsTo(0x1d, 0x40, 0xa4); }
    else if x == 0x1e { assert MapsTo(0x1e, 0xee, 0x72); } else if x == 0x1f { assert MapsTo(0x1f, 0xb2, 0xc0); }
  }

  lemma DefinedLow2(x: Byte)
    requires 0x20 <= x <= 0x27
    ensures Defined(x, SBOX_2[x as nat % 16])
  {
    if x == 0x20 { assert MapsTo(0x20, 0x3a, 0xb7); } else if x == 0x21 { assert MapsTo(0x21, 0x6e, 0xfd); }
    else if x == 0x22 { assert MapsTo(0x22, 0x5a, 0x93); } else if x == 0x23 { assert MapsTo(0x23, 0xf1, 0x26); }
    else if x == 0x24 { assert MapsTo(0x24, 0x55, 0x36); } else if x == 0x25 { assert MapsTo(0x25, 0x4d, 0x3f); }
    else if x == 0x26 { assert MapsTo(0x26, 0xa8, 0xf7); } else if x == 0x27 { assert MapsTo(0x27, 0xc9, 0xcc); }
  }

  lemma DefinedHigh2(x: Byte)
    requires 0x28 <= x <= 0x2f
    ensures Defined(x, SBOX_2[x as nat % 16])
  {
    if x == 0x28 { assert MapsTo(0x28, 0xc1, 0x34); } else if x == 0x29 { assert MapsTo(0x29, 0x0a, 0xa5); }
    else if x == 0x2a { assert MapsTo(0x2a, 0x98, 0xe5); } else if x == 0x2b { assert MapsTo(0x2b, 0x15, 0xf1); }
    else if x == 0x2c { assert MapsTo(0x2c, 0x30, 0x71); } else if x == 0x2d { assert MapsTo(0x2d, 0x44, 0xd8); }
    else if x == 0x2e { assert MapsTo(0x2e, 0xa2, 0x31); } else if x == 0x2f { assert MapsTo(0x2f, 0xc2, 0x15); }
  }

  lemma DefinedLow3(x: Byte)
    requires 0x30 <= x <= 0x37
    ensures Defined(x, SBOX_3[x as nat % 16])
  {
    if x == 0x30 { assert MapsTo(0x30, 0x2c, 0x04); } else if x == 0x31 { assert MapsTo(0x31, 0x45, 0xc7); }
    else if x == 0x32 { assert MapsTo(0x32, 0x92, 0x23); } else if x == 0x33 { assert MapsTo(0x33, 0x6c, 0xc3); }
    else if x == 0x34 { assert MapsTo(0x34, 0xf3, 0x18); } else if x == 0x35 { assert MapsTo(0x35, 0x39, 0x96); }
    else if x == 0x36 { assert MapsTo(0x36, 0x66, 0x05); } else if x == 0x37 { assert MapsTo(0x37, 0x42, 0x9a); }
  }

  lemma DefinedHigh3(x: Byte)
    requires 0x38 <= x <= 0x3f
    ensures Defined(x, SBOX_3[x as nat % 16])
  {
    if x == 0x38 { assert MapsTo(0x38, 0xf2, 0x07); } else if x == 0x39 { assert MapsTo(0x39, 0x35, 0x12); }
    else if x == 0x3a { assert MapsTo(0x3a, 0x20, 0x80); } else if x == 0x3b { assert MapsTo(0x3b, 0x6f, 0xe2); }
    else if x == 0x3c { assert MapsTo(0x3c, 0x77, 0xeb); } else if x == 0x3d { assert MapsTo(0x3d, 0xbb, 0x27); }
    else if x == 0x3e { assert MapsTo(0x3e, 0x59, 0xb2); } else if x == 0x3f { assert MapsTo(0x3f, 0x19, 0x75); }
  }

  lemma DefinedLow4(x: Byte)
    requires 0x40 <= x <= 0x47
    ensures Defined(x, SBOX_4[x as nat % 16])
  {
    if x == 0x40 { assert MapsTo(0x40, 0x1d, 0x09); } else if x == 0x41 { assert MapsTo(0x41, 0xfe, 0x83); }
    else if x == 0x42 { assert MapsTo(0x42, 0x37, 0x2c); } else if x == 0x43 { assert MapsTo(0x43, 0x67, 0x1a); }
    else if x == 0x44 { assert MapsTo(0x44, 0x2d, 0x1b); } else if x == 0x45 { assert MapsTo(0x45, 0x31, 0x6e); }
    else if x == 0x46 { assert MapsTo(0x46, 0xf5, 0x5a); } else if x == 0x47 { assert MapsTo(0x47, 0x69, 0xa0); }
  }

  lemma DefinedHigh4(x: Byte)
    requires 0x48 <= x <= 0x4f
    ensures Defined(x, SBOX_4[x as nat % 16])
  {
    if x == 0x48 { assert MapsTo(0x48, 0xa7, 0x52); } else if x == 0x49 { assert MapsTo(0x49, 0x64, 0x3b); }
    else if x == 0x4a { assert MapsTo(0x4a, 0xab, 0xd6); } else if x == 0x4b { assert MapsTo(0x4b, 0x13, 0xb3); }
    else if x == 0x4c { assert MapsTo(0x4c, 0x54, 0x29); } else if x == 0x4d { assert MapsTo(0x4d, 0x25, 0xe3); }
    else if x == 0x4e { assert MapsTo(0x4e, 0xe9, 0x2f); } else if x == 0x4f { assert MapsTo(0x4f, 0x09, 0x84); }
  }

  lemma DefinedLow5(x: Byte)
    requires 0x50 <= x <= 0x57
    ensures Defined(x, SBOX_5[x as nat % 16])
  {
    if x == 0x50 { assert MapsTo(0x50, 0xed, 0x53); } else if x == 0x51 { assert MapsTo(0x51, 0x5c, 0xd1); }
    else if x == 0x52 { assert MapsTo(0x52, 0x05, 0x00); } else if x == 0x53 { assert MapsTo(0x53, 0xca, 0xed); }
    else if x == 0x54 { assert MapsTo(0x54, 0x4c, 0x20); } else if x == 0x55 { assert MapsTo(0x55, 0x24, 0xfc); }
    else if x == 0x56 { assert MapsTo(0x56, 0x87, 0xb1); } else if x == 0x57 { assert MapsTo(0x57, 0xbf, 0x5b); }
  }

  lemma DefinedHigh5(x: Byte)
    requires 0x58 <= x <= 0x5f
    ensures Defined(x, SBOX_5[x as nat % 16])
  {
    if x == 0x58 { assert MapsTo(0x58, 0x18, 0x6a); } else if x == 0x59 { assert MapsTo(0x59, 0x3e, 0xcb); }
    else if x == 0x5a { assert MapsTo(0x5a, 0x22, 0xbe); } else if x == 0x5b { assert MapsTo(0x5b, 0xf0, 0x39); }
    else if x == 0x5c { assert MapsTo(0x5c, 0x51, 0x4a); } else if x == 0x5d { assert MapsTo(0x5d, 0xec, 0x4c); }
    else if x == 0x5e { assert MapsTo(0x5e, 0x61, 0x58); } else if x == 0x5f { assert MapsTo(0x5f, 0x17, 0xcf); }
  }

  lemma DefinedLow6(x: Byte)
    requires 0x60 <= x <= 0x67
    ensures Defined(x, SBOX_6[x as nat % 16])
  {
    if x == 0x60 { assert MapsTo(0x60, 0x16, 0xd0); } else if x == 0x61 { assert MapsTo(0x61, 0x5e, 0xef); }
    else if x == 0x62 { assert MapsTo(0x62, 0xaf, 0xaa); } else if x == 0x63 { assert MapsTo(0x63, 0xd3, 0xfb); }
    else if x == 0x64 { assert MapsTo(0x64, 0x49, 0x43); } else if x == 0x65 { assert MapsTo(0x65, 0xa6, 0x4d); }
    else if x == 0x66 { assert MapsTo(0x66, 0x36, 0x33); } else if x == 0x67 { assert MapsTo(0x67, 0x43, 0x85); }
  }

  lemma DefinedHigh6(x: Byte)
    requires 0x68 <= x <= 0x6f
    ensures Defined(x, SBOX_6[x as nat % 16])
  {
    if x == 0x68 { assert MapsTo(0x68, 0xf4, 0x45); } else if x == 0x69 { assert MapsTo(0x69, 0x47, 0xf9); }
    else if x == 0x6a { assert MapsTo(0x6a, 0x91, 0x02); } else if x == 0x6b { assert MapsTo(0x6b, 0xdf, 0x7f); }
    else if x == 0x6c { assert MapsTo(0x6c, 0x33, 0x50); } else if x == 0x6d { assert MapsTo(0x6d, 0x93, 0x3c); }
    else if x == 0x6e { assert MapsTo(0x6e, 0x21, 0x9f); } else if x == 0x6f { assert MapsTo(0x6f, 0x3b, 0xa8); }
  }

  lemma DefinedLow7(x: Byte)
    requires 0x70 <= x <= 0x77
    ensures Defined(x, SBOX_7[x as nat % 16])
  {
    if x == 0x70 { assert MapsTo(0x70, 0x79, 0x51); } else if x == 0x71 { assert MapsTo(0x71, 0xb7, 0xa3); }
    else if x == 0x72 { assert MapsTo(0x72, 0x97, 0x40); } else if x == 0x73 { assert MapsTo(0x73, 0x85, 0x8f); }
    else if x == 0x74 { assert MapsTo(0x74, 0x10, 0x92); } else if x == 0x75 { assert MapsTo(0x75, 0xb5, 0x9d); }
    else if x == 0x76 { assert MapsTo(0x76, 0xba, 0x38); } else if x == 0x77 { assert MapsTo(0x77, 0x3c, 0xf5); }
  }

  lemma DefinedHigh7(x: Byte)
    requires 0x78 <= x <= 0x7f
    ensures Defined(x, SBOX_7[x as nat % 16])
  {
    if x == 0x78 { assert MapsTo(0x78, 0xb6, 0xbc); } else if x == 0x79 { assert MapsTo(0x79, 0x70, 0xb6); }
    else if x == 0x7a { assert MapsTo(0x7a, 0xd0, 0xda); } else if x == 0x7b { assert MapsTo(0x7b, 0x06, 0x21); }
    else if x == 0x7c { assert MapsTo(0x7c, 0xa1, 0x10); } else if x == 0x7d { assert MapsTo(0x7d, 0xfa, 0xff); }
    else if x == 0x7e { assert MapsTo(0x7e, 0x81, 0xf3); } else if x == 0x7f { assert MapsTo(0x7f, 0x82, 0xd2); }
  }

  lemma DefinedLow8(x: Byte)
    requires 0x80 <= x <= 0x87
    ensures Defined(x, SBOX_8[x as nat % 16])
  {
    if x == 0x80 { assert MapsTo(0x80, 0x83, 0xcd); } else if x == 0x81 { assert MapsTo(0x81, 0x7e, 0x0c); }
    else if x == 0x82 { assert MapsTo(0x82, 0x7f, 0x13); } else if x == 0x83 { assert MapsTo(0x83, 0x80, 0xec); }
    else if x == 0x84 { assert MapsTo(0x84, 0x96, 0x5f); } else if x == 0x85 { assert MapsTo(0x85, 0x73, 0x97); }
    else if x == 0x86 { assert MapsTo(0x86, 0xbe, 0x44); } else if x == 0x87 { assert MapsTo(0x87, 0x56, 0x17); }
  }

  lemma DefinedHigh8(x: Byte)
    requires 0x88 <= x <= 0x8f
    ensures Defined(x, SBOX_8[x as nat % 16])
  {
    if x == 0x88 { assert MapsTo(0x88, 0x9b, 0xc4); } else if x == 0x89 { assert MapsTo(0x89, 0x9e, 0xa7); }
    else if x == 0x8a { assert MapsTo(0x8a, 0x95, 0x7e); } else if x == 0x8b { assert MapsTo(0x8b, 0xd9, 0x3d); }
    else if x == 0x8c { assert MapsTo(0x8c, 0xf7, 0x64); } else if x == 0x8d { assert MapsTo(0x8d, 0x02, 0x5d); }
    else if x == 0x8e { assert MapsTo(0x8e, 0xb9, 0x19); } else if x == 0x8f { assert MapsTo(0x8f, 0xa4, 0x73); }
  }

  lemma DefinedLow9(x: Byte)
    requires 0x90 <= x <= 0x97
    ensures Defined(x, SBOX_9[x as nat % 16])
  {
    if x == 0x90 { assert MapsTo(0x90, 0xde, 0x60); } else if x == 0x91 { assert MapsTo(0x91, 0x6a, 0x81); }
    else if x == 0x92 { assert MapsTo(0x92, 0x32, 0x4f); } else if x == 0x93 { assert MapsTo(0x93, 0x6d, 0xdc); }
    else if x == 0x94 { assert MapsTo(0x94, 0xd8, 0x22); } else if x == 0x95 { assert MapsTo(0x95, 0x8a, 0x2a); }
    else if x == 0x96 { assert MapsTo(0x96, 0x84, 0x90); } else if x == 0x97 { assert MapsTo(0x97, 0x72, 0x88); }
  }

  lemma DefinedHigh9(x: Byte)
    requires 0x98 <= x <= 0x9f
    ensures Defined(x, SBOX_9[x as nat % 16])
  {
    if x == 0x98 { assert MapsTo(0x98, 0x2a, 0x46); } else if x == 0x99 { assert MapsTo(0x99, 0x14, 0xee); }
    else if x == 0x9a { assert MapsTo(0x9a, 0x9f, 0xb8); } else if x == 0x9b { assert MapsTo(0x9b, 0x88, 0x14); }
    else if x == 0x9c { assert MapsTo(0x9c, 0xf9, 0xde); } else if x == 0x9d { assert MapsTo(0x9d, 0xdc, 0x5e); }
    else if x == 0x9e { assert MapsTo(0x9e, 0x89, 0x0b); } else if x == 0x9f { assert MapsTo(0x9f, 0x9a, 0xdb); }
  }

  lemma DefinedLow10(x: Byte)
    requires 0xa0 <= x <= 0xa7
    ensures Defined(x, SBOX_10[x as nat % 16])
  {
    if x == 0xa0 { assert MapsTo(0xa0, 0xfb, 0xe0); } else if x == 0xa1 { assert MapsTo(0xa1, 0x7c, 0x32); }
    else if x == 0xa2 { assert MapsTo(0xa2, 0x2e, 0x3a); } else if x == 0xa3 { assert MapsTo(0xa3, 0xc3, 0x0a); }
    else if x == 0xa4 { assert MapsTo(0xa4, 0x8f, 0x49); } else if x == 0xa5 { assert MapsTo(0xa5, 0xb8, 0x06); }
    else if x == 0xa6 { assert MapsTo(0xa6, 0x65, 0x24); } else if x == 0xa7 { assert MapsTo(0xa7, 0x48, 0x5c); }
  }

  lemma DefinedHigh10(x: Byte)
    requires 0xa8 <= x <= 0xaf
    ensures Defined(x, SBOX_10[x as nat % 16])
  {
    if x == 0xa8 { assert MapsTo(0xa8, 0x26, 0xc2); } else if x == 0xa9 { assert MapsTo(0xa9, 0xc8, 0xd3); }
    else if x == 0xaa { assert MapsTo(0xaa, 0x12, 0xac); } else if x == 0xab { assert MapsTo(0xab, 0x4a, 0x62); }
    else if x == 0xac { assert MapsTo(0xac, 0xce, 0x91); } else if x == 0xad { assert MapsTo(0xad, 0xe7, 0x95); }
    else if x == 0xae { assert MapsTo(0xae, 0xd2, 0xe4); } else if x == 0xaf { assert MapsTo(0xaf, 0x62, 0x79); }
  }

  lemma DefinedLow11(x: Byte)
    requires 0xb0 <= x <= 0xb7
    ensures Defined(x, SBOX_11[x as nat % 16])
  {
    if x == 0xb0 { assert MapsTo(0xb0, 0x0c, 0xe7); } else if x == 0xb1 { assert MapsTo(0xb1, 0xe0, 0xc8); }
    else if x == 0xb2 { assert MapsTo(0xb2, 0x1f, 0x37); } else if x == 0xb3 { assert MapsTo(0xb3, 0xef, 0x6d); }
    else if x == 0xb4 { assert MapsTo(0xb4, 0x11, 0x8d); } else if x == 0xb5 { assert MapsTo(0xb5, 0x75, 0xd5); }
    else if x == 0xb6 { assert MapsTo(0xb6, 0x78, 0x4e); } else if x == 0xb7 { assert MapsTo(0xb7, 0x71, 0xa9); }
  }

  lemma DefinedHigh11(x: Byte)
    requires 0xb8 <= x <= 0xbf
    ensures Defined(x, SBOX_11[x as nat % 16])
  {
    if x == 0xb8 { assert MapsTo(0xb8, 0xa5, 0x6c); } else if x == 0xb9 { assert MapsTo(0xb9, 0x8e, 0x56); }
    else if x == 0xba { assert MapsTo(0xba, 0x76, 0xf4); } else if x == 0xbb { assert MapsTo(0xbb, 0x3d, 0xea); }
    else if x == 0xbc { assert MapsTo(0xbc, 0xbd, 0x65); } else if x == 0xbd { assert MapsTo(0xbd, 0xbc, 0x7a); }
    else if x == 0xbe { assert MapsTo(0xbe, 0x86, 0xae); } else if x == 0xbf { assert MapsTo(0xbf, 0x57, 0x08); }
  }

  lemma DefinedLow12(x: Byte)
    requires 0xc0 <= x <= 0xc7
    ensures Defined(x, SBOX_12[x as nat % 16])
  {
    if x == 0xc0 { assert MapsTo(0xc0, 0x0b, 0xba); } else if x == 0xc1 { assert MapsTo(0xc1, 0x28, 0x78); }
    else if x == 0xc2 { assert MapsTo(0xc2, 0x2f, 0x25); } else if x == 0xc3 { assert MapsTo(0xc3, 0xa3, 0x2e); }
    else if x == 0xc4 { assert MapsTo(0xc4, 0xda, 0x1c); } else if x == 0xc5 { assert MapsTo(0xc5, 0xd4, 0xa6); }
    else if x == 0xc6 { assert MapsTo(0xc6, 0xe4, 0xb4); } else if x == 0xc7 { assert MapsTo(0xc7, 0x0f, 0xc6); }
  }

  lemma DefinedHigh12(x: Byte)
    requires 0xc8 <= x <= 0xcf
    ensures Defined(x, SBOX_12[x as nat % 16])
  {
    if x == 0xc8 { assert MapsTo(0xc8, 0xa9, 0xe8); } else if x == 0xc9 { assert MapsTo(0xc9, 0x27, 0xdd); }
    else if x == 0xca { assert MapsTo(0xca, 0x53, 0x74); } else if x == 0xcb { assert MapsTo(0xcb, 0x04, 0x1f); }
    else if x == 0xcc { assert MapsTo(0xcc, 0x1b, 0x4b); } else if x == 0xcd { assert MapsTo(0xcd, 0xfc, 0xbd); }
    else if x == 0xce { assert MapsTo(0xce, 0xac, 0x8b); } else if x == 0xcf { assert MapsTo(0xcf, 0xe6, 0x8a); }
  }

  lemma DefinedLow13(x: Byte)
    requires 0xd0 <= x <= 0xd7
    ensures Defined(x, SBOX_13[x as nat % 16])
  {
    if x == 0xd0 { assert MapsTo(0xd0, 0x7a, 0x70); } else if x == 0xd1 { assert MapsTo(0xd1, 0x07, 0x3e); }
    else if x == 0xd2 { assert MapsTo(0xd2, 0xae, 0xb5); } else if x == 0xd3 { assert MapsTo(0xd3, 0x63, 0x66); }
    else if x == 0xd4 { assert MapsTo(0xd4, 0xc5, 0x48); } else if x == 0xd5 { assert MapsTo(0xd5, 0xdb, 0x03); }
    else if x == 0xd6 { assert MapsTo(0xd6, 0xe2, 0xf6); } else if x == 0xd7 { assert MapsTo(0xd7, 0xea, 0x0e); }
  }

  lemma DefinedHigh13(x: Byte)
    requires 0xd8 <= x <= 0xdf
    ensures Defined(x, SBOX_13[x as nat % 16])
  {
    if x == 0xd8 { assert MapsTo(0xd8, 0x94, 0x61); } else if x == 0xd9 { assert MapsTo(0xd9, 0x8b, 0x35); }
    else if x == 0xda { assert MapsTo(0xda, 0xc4, 0x57); } else if x == 0xdb { assert MapsTo(0xdb, 0xd5, 0xb9); }
    else if x == 0xdc { assert MapsTo(0xdc, 0x9d, 0x86); } else if x == 0xdd { assert MapsTo(0xdd, 0xf8, 0xc1); }
    else if x == 0xde { assert MapsTo(0xde, 0x90, 0x1d); } else if x == 0xdf { assert MapsTo(0xdf, 0x6b, 0x9e); }
  }

  lemma DefinedLow14(x: Byte)
    requires 0xe0 <= x <= 0xe7
    ensures Defined(x, SBOX_14[x as nat % 16])
  {
    if x == 0xe0 { assert MapsTo(0xe0, 0xb1, 0xe1); } else if x == 0xe1 { assert MapsTo(0xe1, 0x0d, 0xf8); }
    else if x == 0xe2 { assert MapsTo(0xe2, 0xd6, 0x98); } else if x == 0xe3 { assert MapsTo(0xe3, 0xeb, 0x11); }
    else if x == 0xe4 { assert MapsTo(0xe4, 0xc6, 0x69); } else if x == 0xe5 { assert MapsTo(0xe5, 0x0e, 0xd9); }
    else if x == 0xe6 { assert MapsTo(0xe6, 0xcf, 0x8e); } else if x == 0xe7 { assert MapsTo(0xe7, 0xad, 0x94); }
  }

  lemma DefinedHigh14(x: Byte)
    requires 0xe8 <= x <= 0xef
    ensures Defined(x, SBOX_14[x as nat % 16])
  {
    if x == 0xe8 { assert MapsTo(0xe8, 0x08, 0x9b); } else if x == 0xe9 { assert MapsTo(0xe9, 0x4e, 0x1e); }
    else if x == 0xea { assert MapsTo(0xea, 0xd7, 0x87); } else if x == 0xeb { assert MapsTo(0xeb, 0xe3, 0xe9); }
    else if x == 0xec { assert MapsTo(0xec, 0x5d, 0xce); } else if x == 0xed { assert MapsTo(0xed, 0x50, 0x55); }
    else if x == 0xee { assert MapsTo(0xee, 0x1e, 0x28); } else if x == 0xef { assert MapsTo(0xef, 0xb3, 0xdf); }
  }

  lemma DefinedLow15(x: Byte)
    requires 0xf0 <= x <= 0xf7
    ensures Defined(x, SBOX_15[x as nat % 16])
  {
    if x == 0xf0 { assert MapsTo(0xf0, 0x5b, 0x8c); } else if x == 0xf1 { assert MapsTo(0xf1, 0x23, 0xa1); }
    else if x == 0xf2 { assert MapsTo(0xf2, 0x38, 0x89); } else if x == 0xf3 { assert MapsTo(0xf3, 0x34, 0x0d); }
    else if x == 0xf4 { assert MapsTo(0xf4, 0x68, 0xbf); } else if x == 0xf5 { assert MapsTo(0xf5, 0x46, 0xe6); }
    else if x == 0xf6 { assert MapsTo(0xf6, 0x03, 0x42); } else if x == 0xf7 { assert MapsTo(0xf7, 0x8c, 0x68); }
  }

  lemma DefinedHigh15(x: Byte)
    requires 0xf8 <= x <= 0xff
    ensures Defined(x, SBOX_15[x as nat % 16])
  {
    if x == 0xf8 { assert MapsTo(0xf8, 0xdd, 0x41); } else if x == 0xf9 { assert MapsTo(0xf9, 0x9c, 0x99); }
    else if x == 0xfa { assert MapsTo(0xfa, 0x7d, 0x2d); } else if x == 0xfb { assert MapsTo(0xfb, 0xa0, 0x0f); }
    else if x == 0xfc { assert MapsTo(0xfc, 0xcd, 0xb0); } else if x == 0xfd { assert MapsTo(0xfd, 0x1a, 0x54); }
    else if x == 0xfe { assert MapsTo(0xfe, 0x41, 0xbb); } else if x == 0xff { assert MapsTo(0xff, 0x1c, 0x16); }
  }

  /** The entry of the box for x, in the row that x belongs to. */
  lemma InRow(x: Byte, h: nat)
    requires h < 16 && x as nat / 16 == h
    ensures SboxAt(x as nat) == Sbox(h)[x as nat % 16]
  {
    hide Sbox;
  }

  lemma DefinedAt(x: Byte)
    ensures Defined(x, SboxAt(x as nat))
  {
    hide Defined, SboxAt;
    if x <= 0x0f { InRow(x, 0); if x <= 0x07 { DefinedLow0(x); } else { DefinedHigh0(x); } }
    else if x <= 0x1f { InRow(x, 1); if x <= 0x17 { DefinedLow1(x); } else { DefinedHigh1(x); } }
    else if x <= 0x2f { InRow(x, 2); if x <= 0x27 { DefinedLow2(x); } else { DefinedHigh2(x); } }
    else if x <= 0x3f { InRow(x, 3); if x <= 0x37 { DefinedLow3(x); } else { DefinedHigh3(x); } }
    else if x <= 0x4f { InRow(x, 4); if x <= 0x47 { DefinedLow4(x); } else { DefinedHigh4(x); } }
    else if x <= 0x5f { InRow(x, 5); if x <= 0x57 { DefinedLow5(x); } else { DefinedHigh5(x); } }
    else if x <= 0x6f { InRow(x, 6); if x <= 0x67 { DefinedLow6(x); } else { DefinedHigh6(x); } }
    else if x <= 0x7f { InRow(x, 7); if x <= 0x77 { DefinedLow7(x); } else { DefinedHigh7(x); } }
    else if x <= 0x8f { InRow(x, 8); if x <= 0x87 { DefinedLow8(x); } else { DefinedHigh8(x); } }
    else if x <= 0x9f { InRow(x, 9); if x <= 0x97 { DefinedLow9(x); } else { DefinedHigh9(x); } }
    else if x <= 0xaf { InRow(x, 10); if x <= 0xa7 { DefinedLow10(x); } else { DefinedHigh10(x); } }
    else if x <= 0xbf { InRow(x, 11); if x <= 0xb7 { DefinedLow11(x); } else { DefinedHigh11(x); } }
    else if x <= 0xcf { InRow(x, 12); if x <= 0xc7 { DefinedLow12(x); } else { DefinedHigh12(x); } }
    else if x <= 0xdf { InRow(x, 13); if x <= 0xd7 { DefinedLow13(x); } else { DefinedHigh13(x); } }
    else if x <= 0xef { InRow(x, 14); if x <= 0xe7 { DefinedLow14(x); } else { DefinedHigh14(x); } }
    else { InRow(x, 15); if x <= 0xf7 { DefinedLow15(x); } else { DefinedHigh15(x); } }
  }

  lemma SubIs(x: Byte)
    ensures Sub(x) == ToByte(SboxAt(x as nat))
  {
    hide Sbox, ToByte;
  }

  /** The box gives the affine map at the inverse. */
  lemma SubMeaning(x: Byte)
    ensures exists inv :: IsInverse(x, inv) && Sub(x) == Affine(inv)
  {
    hide IsInverse, Affine, SboxAt, ToByte;
    DefinedAt(x);
    var inv :| MapsTo(x, inv, SboxAt(x as nat));
    SameByte(Affine(inv));
    SubIs(x);
  }
}
