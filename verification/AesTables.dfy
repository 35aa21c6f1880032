/**
  The tables of the block cipher (librist-master/contrib/aes.c:54-227) and what makes
  them work: the second S-box undoes the first, and the multiplication table holds
  products over GF(2^8), section 4.2 of FIPS 197.
 */
module AesTables {
  import opened Arithmetic
  import opened Bytes

  // The rows of aes_sbox.
  const SBOX_0: seq<Octet> := [0x63, 0x7c, 0x77, 0x7b, 0xf2, 0x6b, 0x6f, 0xc5, 0x30, 0x01, 0x67, 0x2b, 0xfe, 0xd7, 0xab, 0x76]
  const SBOX_1: seq<Octet> := [0xca, 0x82, 0xc9, 0x7d, 0xfa, 0x59, 0x47, 0xf0, 0xad, 0xd4, 0xa2, 0xaf, 0x9c, 0xa4, 0x72, 0xc0]
  const SBOX_2: seq<Octet> := [0xb7, 0xfd, 0x93, 0x26, 0x36, 0x3f, 0xf7, 0xcc, 0x34, 0xa5, 0xe5, 0xf1, 0x71, 0xd8, 0x31, 0x15]
  const SBOX_3: seq<Octet> := [0x04, 0xc7, 0x23, 0xc3, 0x18, 0x96, 0x05, 0x9a, 0x07, 0x12, 0x80, 0xe2, 0xeb, 0x27, 0xb2, 0x75]
  const SBOX_4: seq<Octet> := [0x09, 0x83, 0x2c, 0x1a, 0x1b, 0x6e, 0x5a, 0xa0, 0x52, 0x3b, 0xd6, 0xb3, 0x29, 0xe3, 0x2f, 0x84]
  const SBOX_5: seq<Octet> := [0x53, 0xd1, 0x00, 0xed, 0x20, 0xfc, 0xb1, 0x5b, 0x6a, 0xcb, 0xbe, 0x39, 0x4a, 0x4c, 0x58, 0xcf]
  const SBOX_6: seq<Octet> := [0xd0, 0xef, 0xaa, 0xfb, 0x43, 0x4d, 0x33, 0x85, 0x45, 0xf9, 0x02, 0x7f, 0x50, 0x3c, 0x9f, 0xa8]
  const SBOX_7: seq<Octet> := [0x51, 0xa3, 0x40, 0x8f, 0x92, 0x9d, 0x38, 0xf5, 0xbc, 0xb6, 0xda, 0x21, 0x10, 0xff, 0xf3, 0xd2]
  const SBOX_8: seq<Octet> := [0xcd, 0x0c, 0x13, 0xec, 0x5f, 0x97, 0x44, 0x17, 0xc4, 0xa7, 0x7e, 0x3d, 0x64, 0x5d, 0x19, 0x73]
  const SBOX_9: seq<Octet> := [0x60, 0x81, 0x4f, 0xdc, 0x22, 0x2a, 0x90, 0x88, 0x46, 0xee, 0xb8, 0x14, 0xde, 0x5e, 0x0b, 0xdb]
  const SBOX_10: seq<Octet> := [0xe0, 0x32, 0x3a, 0x0a, 0x49, 0x06, 0x24, 0x5c, 0xc2, 0xd3, 0xac, 0x62, 0x91, 0x95, 0xe4, 0x79]
  const SBOX_11: seq<Octet> := [0xe7, 0xc8, 0x37, 0x6d, 0x8d, 0xd5, 0x4e, 0xa9, 0x6c, 0x56, 0xf4, 0xea, 0x65, 0x7a, 0xae, 0x08]
  const SBOX_12: seq<Octet> := [0xba, 0x78, 0x25, 0x2e, 0x1c, 0xa6, 0xb4, 0xc6, 0xe8, 0xdd, 0x74, 0x1f, 0x4b, 0xbd, 0x8b, 0x8a]
  const SBOX_13: seq<Octet> := [0x70, 0x3e, 0xb5, 0x66, 0x48, 0x03, 0xf6, 0x0e, 0x61, 0x35, 0x57, 0xb9, 0x86, 0xc1, 0x1d, 0x9e]
  const SBOX_14: seq<Octet> := [0xe1, 0xf8, 0x98, 0x11, 0x69, 0xd9, 0x8e, 0x94, 0x9b, 0x1e, 0x87, 0xe9, 0xce, 0x55, 0x28, 0xdf]
  const SBOX_15: seq<Octet> := [0x8c, 0xa1, 0x89, 0x0d, 0xbf, 0xe6, 0x42, 0x68, 0x41, 0x99, 0x2d, 0x0f, 0xb0, 0x54, 0xbb, 0x16]

  /** Row r of aes_sbox. */
  function Sbox(r: nat): (s: seq<Octet>)
    requires r < 16
    ensures |s| == 16
  {
    match r
    case 0 => SBOX_0
    case 1 => SBOX_1
    case 2 => SBOX_2
    case 3 => SBOX_3
    case 4 => SBOX_4
    case 5 => SBOX_5
    case 6 => SBOX_6
    case 7 => SBOX_7
    case 8 => SBOX_8
    case 9 => SBOX_9
    case 10 => SBOX_10
    case 11 => SBOX_11
    case 12 => SBOX_12
    case 13 => SBOX_13
    case 14 => SBOX_14
    case _ => SBOX_15
  }

  // The rows of aes_invsbox.
  const INV_SBOX_0: seq<Octet> := [0x52, 0x09, 0x6a, 0xd5, 0x30, 0x36, 0xa5, 0x38, 0xbf, 0x40, 0xa3, 0x9e, 0x81, 0xf3, 0xd7, 0xfb]
  const INV_SBOX_1: seq<Octet> := [0x7c, 0xe3, 0x39, 0x82, 0x9b, 0x2f, 0xff, 0x87, 0x34, 0x8e, 0x43, 0x44, 0xc4, 0xde, 0xe9, 0xcb]
  const INV_SBOX_2: seq<Octet> := [0x54, 0x7b, 0x94, 0x32, 0xa6, 0xc2, 0x23, 0x3d, 0xee, 0x4c, 0x95, 0x0b, 0x42, 0xfa, 0xc3, 0x4e]
  const INV_SBOX_3: seq<Octet> := [0x08, 0x2e, 0xa1, 0x66, 0x28, 0xd9, 0x24, 0xb2, 0x76, 0x5b, 0xa2, 0x49, 0x6d, 0x8b, 0xd1, 0x25]
  const INV_SBOX_4: seq<Octet> := [0x72, 0xf8, 0xf6, 0x64, 0x86, 0x68, 0x98, 0x16, 0xd4, 0xa4, 0x5c, 0xcc, 0x5d, 0x65, 0xb6, 0x92]
  const INV_SBOX_5: seq<Octet> := [0x6c, 0x70, 0x48, 0x50, 0xfd, 0xed, 0xb9, 0xda, 0x5e, 0x15, 0x46, 0x57, 0xa7, 0x8d, 0x9d, 0x84]
  const INV_SBOX_6: seq<Octet> := [0x90, 0xd8, 0xab, 0x00, 0x8c, 0xbc, 0xd3, 0x0a, 0xf7, 0xe4, 0x58, 0x05, 0xb8, 0xb3, 0x45, 0x06]
  const INV_SBOX_7: seq<Octet> := [0xd0, 0x2c, 0x1e, 0x8f, 0xca, 0x3f, 0x0f, 0x02, 0xc1, 0xaf, 0xbd, 0x03, 0x01, 0x13, 0x8a, 0x6b]
  const INV_SBOX_8: seq<Octet> := [0x3a, 0x91, 0x11, 0x41, 0x4f, 0x67, 0xdc, 0xea, 0x97, 0xf2, 0xcf, 0xce, 0xf0, 0xb4, 0xe6, 0x73]
  const INV_SBOX_9: seq<Octet> := [0x96, 0xac, 0x74, 0x22, 0xe7, 0xad, 0x35, 0x85, 0xe2, 0xf9, 0x37, 0xe8, 0x1c, 0x75, 0xdf, 0x6e]
  const INV_SBOX_10: seq<Octet> := [0x47, 0xf1, 0x1a, 0x71, 0x1d, 0x29, 0xc5, 0x89, 0x6f, 0xb7, 0x62, 0x0e, 0xaa, 0x18, 0xbe, 0x1b]
  const INV_SBOX_11: seq<Octet> := [0xfc, 0x56, 0x3e, 0x4b, 0xc6, 0xd2, 0x79, 0x20, 0x9a, 0xdb, 0xc0, 0xfe, 0x78, 0xcd, 0x5a, 0xf4]
  const INV_SBOX_12: seq<Octet> := [0x1f, 0xdd, 0xa8, 0x33, 0x88, 0x07, 0xc7, 0x31, 0xb1, 0x12, 0x10, 0x59, 0x27, 0x80, 0xec, 0x5f]
  const INV_SBOX_13: seq<Octet> := [0x60, 0x51, 0x7f, 0xa9, 0x19, 0xb5, 0x4a, 0x0d, 0x2d, 0xe5, 0x7a, 0x9f, 0x93, 0xc9, 0x9c, 0xef]
  const INV_SBOX_14: seq<Octet> := [0xa0, 0xe0, 0x3b, 0x4d, 0xae, 0x2a, 0xf5, 0xb0, 0xc8, 0xeb, 0xbb, 0x3c, 0x83, 0x53, 0x99, 0x61]
  const INV_SBOX_15: seq<Octet> := [0x17, 0x2b, 0x04, 0x7e, 0xba, 0x77, 0xd6, 0x26, 0xe1, 0x69, 0x14, 0x63, 0x55, 0x21, 0x0c, 0x7d]

  /** Row r of aes_invsbox. */
  function InvSbox(r: nat): (s: seq<Octet>)
    requires r < 16
    ensures |s| == 16
  {
    match r
    case 0 => INV_SBOX_0
    case 1 => INV_SBOX_1
    case 2 => INV_SBOX_2
    case 3 => INV_SBOX_3
    case 4 => INV_SBOX_4
    case 5 => INV_SBOX_5
    case 6 => INV_SBOX_6
    case 7 => INV_SBOX_7
    case 8 => INV_SBOX_8
    case 9 => INV_SBOX_9
    case 10 => INV_SBOX_10
    case 11 => INV_SBOX_11
    case 12 => INV_SBOX_12
    case 13 => INV_SBOX_13
    case 14 => INV_SBOX_14
    case _ => INV_SBOX_15
  }

  /** A row of gf_mul. */
  datatype Products = Products(by2: Byte, by3: Byte, by9: Byte, by11: Byte, by13: Byte, by14: Byte)

  /** Rows 0 to 15 of gf_mul. */
  const GF_MUL_0: seq<Products> := [
    Products(0x00, 0x00, 0x00, 0x00, 0x00, 0x00), Products(0x02, 0x03, 0x09, 0x0b, 0x0d, 0x0e),
    Products(0x04, 0x06, 0x12, 0x16, 0x1a, 0x1c), Products(0x06, 0x05, 0x1b, 0x1d, 0x17, 0x12),
    Products(0x08, 0x0c, 0x24, 0x2c, 0x34, 0x38), Products(0x0a, 0x0f, 0x2d, 0x27, 0x39, 0x36),
    Products(0x0c, 0x0a, 0x36, 0x3a, 0x2e, 0x24), Products(0x0e, 0x09, 0x3f, 0x31, 0x23, 0x2a),
    Products(0x10, 0x18, 0x48, 0x58, 0x68, 0x70), Products(0x12, 0x1b, 0x41, 0x53, 0x65, 0x7e),
    Products(0x14, 0x1e, 0x5a, 0x4e, 0x72, 0x6c), Products(0x16, 0x1d, 0x53, 0x45, 0x7f, 0x62),
    Products(0x18, 0x14, 0x6c, 0x74, 0x5c, 0x48), Products(0x1a, 0x17, 0x65, 0x7f, 0x51, 0x46),
    Products(0x1c, 0x12, 0x7e, 0x62, 0x46, 0x54), Products(0x1e, 0x11, 0x77, 0x69, 0x4b, 0x5a)]

  /** Rows 16 to 31 of gf_mul. */
  const GF_MUL_1: seq<Products> := [
    Products(0x20, 0x30, 0x90, 0xb0, 0xd0, 0xe0), Products(0x22, 0x33, 0x99, 0xbb, 0xdd, 0xee),
    Products(0x24, 0x36, 0x82, 0xa6, 0xca, 0xfc), Products(0x26, 0x35, 0x8b, 0xad, 0xc7, 0xf2),
    Products(0x28, 0x3c, 0xb4, 0x9c, 0xe4, 0xd8), Products(0x2a, 0x3f, 0xbd, 0x97, 0xe9, 0xd6),
    Products(0x2c, 0x3a, 0xa6, 0x8a, 0xfe, 0xc4), Products(0x2e, 0x39, 0xaf, 0x81, 0xf3, 0xca),
    Products(0x30, 0x28, 0xd8, 0xe8, 0xb8, 0x90), Products(0x32, 0x2b, 0xd1, 0xe3, 0xb5, 0x9e),
    Products(0x34, 0x2e, 0xca, 0xfe, 0xa2, 0x8c), Products(0x36, 0x2d, 0xc3, 0xf5, 0xaf, 0x82),
    Products(0x38, 0x24, 0xfc, 0xc4, 0x8c, 0xa8), Products(0x3a, 0x27, 0xf5, 0xcf, 0x81, 0xa6),
    Products(0x3c, 0x22, 0xee, 0xd2, 0x96, 0xb4), Products(0x3e, 0x21, 0xe7, 0xd9, 0x9b, 0xba)]

  /** Rows 32 to 47 of gf_mul. */
  const GF_MUL_2: seq<Products> := [
    Products(0x40, 0x60, 0x3b, 0x7b, 0xbb, 0xdb), Products(0x42, 0x63, 0x32, 0x70, 0xb6, 0xd5),
    Products(0x44, 0x66, 0x29, 0x6d, 0xa1, 0xc7), Products(0x46, 0x65, 0x20, 0x66, 0xac, 0xc9),
    Products(0x48, 0x6c, 0x1f, 0x57, 0x8f, 0xe3), Products(0x4a, 0x6f, 0x16, 0x5c, 0x82, 0xed),
    Products(0x4c, 0x6a, 0x0d, 0x41, 0x95, 0xff), Products(0x4e, 0x69, 0x04, 0x4a, 0x98, 0xf1),
    Products(0x50, 0x78, 0x73, 0x23, 0xd3, 0xab), Products(0x52, 0x7b, 0x7a, 0x28, 0xde, 0xa5),
    Products(0x54, 0x7e, 0x61, 0x35, 0xc9, 0xb7), Products(0x56, 0x7d, 0x68, 0x3e, 0xc4, 0xb9),
    Products(0x58, 0x74, 0x57, 0x0f, 0xe7, 0x93), Products(0x5a, 0x77, 0x5e, 0x04, 0xea, 0x9d),
    Products(0x5c, 0x72, 0x45, 0x19, 0xfd, 0x8f), Products(0x5e, 0x71, 0x4c, 0x12, 0xf0, 0x81)]

  /** Rows 48 to 63 of gf_mul. */
  const GF_MUL_3: seq<Products> := [
    Products(0x60, 0x50, 0xab, 0xcb, 0x6b, 0x3b), Products(0x62, 0x53, 0xa2, 0xc0, 0x66, 0x35),
    Products(0x64, 0x56, 0xb9, 0xdd, 0x71, 0x27), Products(0x66, 0x55, 0xb0, 0xd6, 0x7c, 0x29),
    Products(0x68, 0x5c, 0x8f, 0xe7, 0x5f, 0x03), Products(0x6a, 0x5f, 0x86, 0xec, 0x52, 0x0d),
    Products(0x6c, 0x5a, 0x9d, 0xf1, 0x45, 0x1f), Products(0x6e, 0x59, 0x94, 0xfa, 0x48, 0x11),
    Products(0x70, 0x48, 0xe3, 0x93, 0x03, 0x4b), Products(0x72, 0x4b, 0xea, 0x98, 0x0e, 0x45),
    Products(0x74, 0x4e, 0xf1, 0x85, 0x19, 0x57), Products(0x76, 0x4d, 0xf8, 0x8e, 0x14, 0x59),
    Products(0x78, 0x44, 0xc7, 0xbf, 0x37, 0x73), Products(0x7a, 0x47, 0xce, 0xb4, 0x3a, 0x7d),
    Products(0x7c, 0x42, 0xd5, 0xa9, 0x2d, 0x6f), Products(0x7e, 0x41, 0xdc, 0xa2, 0x20, 0x61)]

  /** Rows 64 to 79 of gf_mul. */
  const GF_MUL_4: seq<Products> := [
    Products(0x80, 0xc0, 0x76, 0xf6, 0x6d, 0xad), Products(0x82, 0xc3, 0x7f, 0xfd, 0x60, 0xa3),
    Products(0x84, 0xc6, 0x64, 0xe0, 0x77, 0xb1), Products(0x86, 0xc5, 0x6d, 0xeb, 0x7a, 0xbf),
    Products(0x88, 0xcc, 0x52, 0xda, 0x59, 0x95), Products(0x8a, 0xcf, 0x5b, 0xd1, 0x54, 0x9b),
    Products(0x8c, 0xca, 0x40, 0xcc, 0x43, 0x89), Products(0x8e, 0xc9, 0x49, 0xc7, 0x4e, 0x87),
    Products(0x90, 0xd8, 0x3e, 0xae, 0x05, 0xdd), Products(0x92, 0xdb, 0x37, 0xa5, 0x08, 0xd3),
    Products(0x94, 0xde, 0x2c, 0xb8, 0x1f, 0xc1), Products(0x96, 0xdd, 0x25, 0xb3, 0x12, 0xcf),
    Products(0x98, 0xd4, 0x1a, 0x82, 0x31, 0xe5), Products(0x9a, 0xd7, 0x13, 0x89, 0x3c, 0xeb),
    Products(0x9c, 0xd2, 0x08, 0x94, 0x2b, 0xf9), Products(0x9e, 0xd1, 0x01, 0x9f, 0x26, 0xf7)]

  /** Rows 80 to 95 of gf_mul. */
  const GF_MUL_5: seq<Products> := [
    Products(0xa0, 0xf0, 0xe6, 0x46, 0xbd, 0x4d), Products(0xa2, 0xf3, 0xef, 0x4d, 0xb0, 0x43),
    Products(0xa4, 0xf6, 0xf4, 0x50, 0xa7, 0x51), Products(0xa6, 0xf5, 0xfd, 0x5b, 0xaa, 0x5f),
    Products(0xa8, 0xfc, 0xc2, 0x6a, 0x89, 0x75), Products(0xaa, 0xff, 0xcb, 0x61, 0x84, 0x7b),
    Products(0xac, 0xfa, 0xd0, 0x7c, 0x93, 0x69), Products(0xae, 0xf9, 0xd9, 0x77, 0x9e, 0x67),
    Products(0xb0, 0xe8, 0xae, 0x1e, 0xd5, 0x3d), Products(0xb2, 0xeb, 0xa7, 0x15, 0xd8, 0x33),
    Products(0xb4, 0xee, 0xbc, 0x08, 0xcf, 0x21), Products(0xb6, 0xed, 0xb5, 0x03, 0xc2, 0x2f),
    Products(0xb8, 0xe4, 0x8a, 0x32, 0xe1, 0x05), Products(0xba, 0xe7, 0x83, 0x39, 0xec, 0x0b),
    Products(0xbc, 0xe2, 0x98, 0x24, 0xfb, 0x19), Products(0xbe, 0xe1, 0x91, 0x2f, 0xf6, 0x17)]

  /** Rows 96 to 111 of gf_mul. */
  const GF_MUL_6: seq<Products> := [
    Products(0xc0, 0xa0, 0x4d, 0x8d, 0xd6, 0x76), Products(0xc2, 0xa3, 0x44, 0x86, 0xdb, 0x78),
    Products(0xc4, 0xa6, 0x5f, 0x9b, 0xcc, 0x6a), Products(0xc6, 0xa5, 0x56, 0x90, 0xc1, 0x64),
    Products(0xc8, 0xac, 0x69, 0xa1, 0xe2, 0x4e), Products(0xca, 0xaf, 0x60, 0xaa, 0xef, 0x40),
    Products(0xcc, 0xaa, 0x7b, 0xb7, 0xf8, 0x52), Products(0xce, 0xa9, 0x72, 0xbc, 0xf5, 0x5c),
    Products(0xd0, 0xb8, 0x05, 0xd5, 0xbe, 0x06), Products(0xd2, 0xbb, 0x0c, 0xde, 0xb3, 0x08),
    Products(0xd4, 0xbe, 0x17, 0xc3, 0xa4, 0x1a), Products(0xd6, 0xbd, 0x1e, 0xc8, 0xa9, 0x14),
    Products(0xd8, 0xb4, 0x21, 0xf9, 0x8a, 0x3e), Products(0xda, 0xb7, 0x28, 0xf2, 0x87, 0x30),
    Products(0xdc, 0xb2, 0x33, 0xef, 0x90, 0x22), Products(0xde, 0xb1, 0x3a, 0xe4, 0x9d, 0x2c)]

  /** Rows 112 to 127 of gf_mul. */
  const GF_MUL_7: seq<Products> := [
    Products(0xe0, 0x90, 0xdd, 0x3d, 0x06, 0x96), Products(0xe2, 0x93, 0xd4, 0x36, 0x0b, 0x98),
    Products(0xe4, 0x96, 0xcf, 0x2b, 0x1c, 0x8a), Products(0xe6, 0x95, 0xc6, 0x20, 0x11, 0x84),
    Products(0xe8, 0x9c, 0xf9, 0x11, 0x32, 0xae), Products(0xea, 0x9f, 0xf0, 0x1a, 0x3f, 0xa0),
    Products(0xec, 0x9a, 0xeb, 0x07, 0x28, 0xb2), Products(0xee, 0x99, 0xe2, 0x0c, 0x25, 0xbc),
    Products(0xf0, 0x88, 0x95, 0x65, 0x6e, 0xe6), Products(0xf2, 0x8b, 0x9c, 0x6e, 0x63, 0xe8),
    Products(0xf4, 0x8e, 0x87, 0x73, 0x74, 0xfa), Products(0xf6, 0x8d, 0x8e, 0x78, 0x79, 0xf4),
    Products(0xf8, 0x84, 0xb1, 0x49, 0x5a, 0xde), Products(0xfa, 0x87, 0xb8, 0x42, 0x57, 0xd0),
    Products(0xfc, 0x82, 0xa3, 0x5f, 0x40, 0xc2), Products(0xfe, 0x81, 0xaa, 0x54, 0x4d, 0xcc)]

  /** Rows 128 to 143 of gf_mul. */
  const GF_MUL_8: seq<Products> := [
    Products(0x1b, 0x9b, 0xec, 0xf7, 0xda, 0x41), Products(0x19, 0x98, 0xe5, 0xfc, 0xd7, 0x4f),
    Products(0x1f, 0x9d, 0xfe, 0xe1, 0xc0, 0x5d), Products(0x1d, 0x9e, 0xf7, 0xea, 0xcd, 0x53),
    Products(0x13, 0x97, 0xc8, 0xdb, 0xee, 0x79), Products(0x11, 0x94, 0xc1, 0xd0, 0xe3, 0x77),
    Products(0x17, 0x91, 0xda, 0xcd, 0xf4, 0x65), Products(0x15, 0x92, 0xd3, 0xc6, 0xf9, 0x6b),
    Products(0x0b, 0x83, 0xa4, 0xaf, 0xb2, 0x31), Products(0x09, 0x80, 0xad, 0xa4, 0xbf, 0x3f),
    Products(0x0f, 0x85, 0xb6, 0xb9, 0xa8, 0x2d), Products(0x0d, 0x86, 0xbf, 0xb2, 0xa5, 0x23),
    Products(0x03, 0x8f, 0x80, 0x83, 0x86, 0x09), Products(0x01, 0x8c, 0x89, 0x88, 0x8b, 0x07),
    Products(0x07, 0x89, 0x92, 0x95, 0x9c, 0x15), Products(0x05, 0x8a, 0x9b, 0x9e, 0x91, 0x1b)]

  /** Rows 144 to 159 of gf_mul. */
  const GF_MUL_9: seq<Products> := [
    Products(0x3b, 0xab, 0x7c, 0x47, 0x0a, 0xa1), Products(0x39, 0xa8, 0x75, 0x4c, 0x07, 0xaf),
    Products(0x3f, 0xad, 0x6e, 0x51, 0x10, 0xbd), Products(0x3d, 0xae, 0x67, 0x5a, 0x1d, 0xb3),
    Products(0x33, 0xa7, 0x58, 0x6b, 0x3e, 0x99), Products(0x31, 0xa4, 0x51, 0x60, 0x33, 0x97),
    Products(0x37, 0xa1, 0x4a, 0x7d, 0x24, 0x85), Products(0x35, 0xa2, 0x43, 0x76, 0x29, 0x8b),
    Products(0x2b, 0xb3, 0x34, 0x1f, 0x62, 0xd1), Products(0x29, 0xb0, 0x3d, 0x14, 0x6f, 0xdf),
    Products(0x2f, 0xb5, 0x26, 0x09, 0x78, 0xcd), Products(0x2d, 0xb6, 0x2f, 0x02, 0x75, 0xc3),
    Products(0x23, 0xbf, 0x10, 0x33, 0x56, 0xe9), Products(0x21, 0xbc, 0x19, 0x38, 0x5b, 0xe7),
    Products(0x27, 0xb9, 0x02, 0x25, 0x4c, 0xf5), Products(0x25, 0xba, 0x0b, 0x2e, 0x41, 0xfb)]

  /** Rows 160 to 175 of gf_mul. */
  const GF_MUL_10: seq<Products> := [
    Products(0x5b, 0xfb, 0xd7, 0x8c, 0x61, 0x9a), Products(0x59, 0xf8, 0xde, 0x87, 0x6c, 0x94),
    Products(0x5f, 0xfd, 0xc5, 0x9a, 0x7b, 0x86), Products(0x5d, 0xfe, 0xcc, 0x91, 0x76, 0x88),
    Products(0x53, 0xf7, 0xf3, 0xa0, 0x55, 0xa2), Products(0x51, 0xf4, 0xfa, 0xab, 0x58, 0xac),
    Products(0x57, 0xf1, 0xe1, 0xb6, 0x4f, 0xbe), Products(0x55, 0xf2, 0xe8, 0xbd, 0x42, 0xb0),
    Products(0x4b, 0xe3, 0x9f, 0xd4, 0x09, 0xea), Products(0x49, 0xe0, 0x96, 0xdf, 0x04, 0xe4),
    Products(0x4f, 0xe5, 0x8d, 0xc2, 0x13, 0xf6), Products(0x4d, 0xe6, 0x84, 0xc9, 0x1e, 0xf8),
    Products(0x43, 0xef, 0xbb, 0xf8, 0x3d, 0xd2), Products(0x41, 0xec, 0xb2, 0xf3, 0x30, 0xdc),
    Products(0x47, 0xe9, 0xa9, 0xee, 0x27, 0xce), Products(0x45, 0xea, 0xa0, 0xe5, 0x2a, 0xc0)]

  /** Rows 176 to 191 of gf_mul. */
  const GF_MUL_11: seq<Products> := [
    Products(0x7b, 0xcb, 0x47, 0x3c, 0xb1, 0x7a), Products(0x79, 0xc8, 0x4e, 0x37, 0xbc, 0x74),
    Products(0x7f, 0xcd, 0x55, 0x2a, 0xab, 0x66), Products(0x7d, 0xce, 0x5c, 0x21, 0xa6, 0x68),
    Products(0x73, 0xc7, 0x63, 0x10, 0x85, 0x42), Products(0x71, 0xc4, 0x6a, 0x1b, 0x88, 0x4c),
    Products(0x77, 0xc1, 0x71, 0x06, 0x9f, 0x5e), Products(0x75, 0xc2, 0x78, 0x0d, 0x92, 0x50),
    Products(0x6b, 0xd3, 0x0f, 0x64, 0xd9, 0x0a), Products(0x69, 0xd0, 0x06, 0x6f, 0xd4, 0x04),
    Products(0x6f, 0xd5, 0x1d, 0x72, 0xc3, 0x16), Products(0x6d, 0xd6, 0x14, 0x79, 0xce, 0x18),
    Products(0x63, 0xdf, 0x2b, 0x48, 0xed, 0x32), Products(0x61, 0xdc, 0x22, 0x43, 0xe0, 0x3c),
    Products(0x67, 0xd9, 0x39, 0x5e, 0xf7, 0x2e), Products(0x65, 0xda, 0x30, 0x55, 0xfa, 0x20)]

  /** Rows 192 to 207 of gf_mul. */
  const GF_MUL_12: seq<Products> := [
    Products(0x9b, 0x5b, 0x9a, 0x01, 0xb7, 0xec), Products(0x99, 0x58, 0x93, 0x0a, 0xba, 0xe2),
    Products(0x9f, 0x5d, 0x88, 0x17, 0xad, 0xf0), Products(0x9d, 0x5e, 0x81, 0x1c, 0xa0, 0xfe),
    Products(0x93, 0x57, 0xbe, 0x2d, 0x83, 0xd4), Products(0x91, 0x54, 0xb7, 0x26, 0x8e, 0xda),
    Products(0x97, 0x51, 0xac, 0x3b, 0x99, 0xc8), Products(0x95, 0x52, 0xa5, 0x30, 0x94, 0xc6),
    Products(0x8b, 0x43, 0xd2, 0x59, 0xdf, 0x9c), Products(0x89, 0x40, 0xdb, 0x52, 0xd2, 0x92),
    Products(0x8f, 0x45, 0xc0, 0x4f, 0xc5, 0x80), Products(0x8d, 0x46, 0xc9, 0x44, 0xc8, 0x8e),
    Products(0x83, 0x4f, 0xf6, 0x75, 0xeb, 0xa4), Products(0x81, 0x4c, 0xff, 0x7e, 0xe6, 0xaa),
    Products(0x87, 0x49, 0xe4, 0x63, 0xf1, 0xb8), Products(0x85, 0x4a, 0xed, 0x68, 0xfc, 0xb6)]

  /** Rows 208 to 223 of gf_mul. */
  const GF_MUL_13: seq<Products> := [
    Products(0xbb, 0x6b, 0x0a, 0xb1, 0x67, 0x0c), Products(0xb9, 0x68, 0x03, 0xba, 0x6a, 0x02),
    Products(0xbf, 0x6d, 0x18, 0xa7, 0x7d, 0x10), Products(0xbd, 0x6e, 0x11, 0xac, 0x70, 0x1e),
    Products(0xb3, 0x67, 0x2e, 0x9d, 0x53, 0x34), Products(0xb1, 0x64, 0x27, 0x96, 0x5e, 0x3a),
    Products(0xb7, 0x61, 0x3c, 0x8b, 0x49, 0x28), Products(0xb5, 0x62, 0x35, 0x80, 0x44, 0x26),
    Products(0xab, 0x73, 0x42, 0xe9, 0x0f, 0x7c), Products(0xa9, 0x70, 0x4b, 0xe2, 0x02, 0x72),
    Products(0xaf, 0x75, 0x50, 0xff, 0x15, 0x60), Products(0xad, 0x76, 0x59, 0xf4, 0x18, 0x6e),
    Products(0xa3, 0x7f, 0x66, 0xc5, 0x3b, 0x44), Products(0xa1, 0x7c, 0x6f, 0xce, 0x36, 0x4a),
    Products(0xa7, 0x79, 0x74, 0xd3, 0x21, 0x58), Products(0xa5, 0x7a, 0x7d, 0xd8, 0x2c, 0x56)]

  /** Rows 224 to 239 of gf_mul. */
  const GF_MUL_14: seq<Products> := [
    Products(0xdb, 0x3b, 0xa1, 0x7a, 0x0c, 0x37), Products(0xd9, 0x38, 0xa8, 0x71, 0x01, 0x39),
    Products(0xdf, 0x3d, 0xb3, 0x6c, 0x16, 0x2b), Products(0xdd, 0x3e, 0xba, 0x67, 0x1b, 0x25),
    Products(0xd3, 0x37, 0x85, 0x56, 0x38, 0x0f), Products(0xd1, 0x34, 0x8c, 0x5d, 0x35, 0x01),
    Products(0xd7, 0x31, 0x97, 0x40, 0x22, 0x13), Products(0xd5, 0x32, 0x9e, 0x4b, 0x2f, 0x1d),
    Products(0xcb, 0x23, 0xe9, 0x22, 0x64, 0x47), Products(0xc9, 0x20, 0xe0, 0x29, 0x69, 0x49),
    Products(0xcf, 0x25, 0xfb, 0x34, 0x7e, 0x5b), Products(0xcd, 0x26, 0xf2, 0x3f, 0x73, 0x55),
    Products(0xc3, 0x2f, 0xcd, 0x0e, 0x50, 0x7f), Products(0xc1, 0x2c, 0xc4, 0x05, 0x5d, 0x71),
    Products(0xc7, 0x29, 0xdf, 0x18, 0x4a, 0x63), Products(0xc5, 0x2a, 0xd6, 0x13, 0x47, 0x6d)]

  /** Rows 240 to 255 of gf_mul. */
  const GF_MUL_15: seq<Products> := [
    Products(0xfb, 0x0b, 0x31, 0xca, 0xdc, 0xd7), Products(0xf9, 0x08, 0x38, 0xc1, 0xd1, 0xd9),
    Products(0xff, 0x0d, 0x23, 0xdc, 0xc6, 0xcb), Products(0xfd, 0x0e, 0x2a, 0xd7, 0xcb, 0xc5),
    Products(0xf3, 0x07, 0x15, 0xe6, 0xe8, 0xef), Products(0xf1, 0x04, 0x1c, 0xed, 0xe5, 0xe1),
    Products(0xf7, 0x01, 0x07, 0xf0, 0xf2, 0xf3), Products(0xf5, 0x02, 0x0e, 0xfb, 0xff, 0xfd),
    Products(0xeb, 0x13, 0x79, 0x92, 0xb4, 0xa7), Products(0xe9, 0x10, 0x70, 0x99, 0xb9, 0xa9),
    Products(0xef, 0x15, 0x6b, 0x84, 0xae, 0xbb), Products(0xed, 0x16, 0x62, 0x8f, 0xa3, 0xb5),
    Products(0xe3, 0x1f, 0x5d, 0xbe, 0x80, 0x9f), Products(0xe1, 0x1c, 0x54, 0xb5, 0x8d, 0x91),
    Products(0xe7, 0x19, 0x4f, 0xa8, 0x9a, 0x83), Products(0xe5, 0x1a, 0x46, 0xa3, 0x97, 0x8d)]

  /** Rows 16h to 16h + 15 of gf_mul: multiples by 2, 3, 9, 11, 13 and 14. */
  function GfMul(h: nat): (s: seq<Products>)
    requires h < 16
    ensures |s| == 16
  {
    match h
    case 0 => GF_MUL_0
    case 1 => GF_MUL_1
    case 2 => GF_MUL_2
    case 3 => GF_MUL_3
    case 4 => GF_MUL_4
    case 5 => GF_MUL_5
    case 6 => GF_MUL_6
    case 7 => GF_MUL_7
    case 8 => GF_MUL_8
    case 9 => GF_MUL_9
    case 10 => GF_MUL_10
    case 11 => GF_MUL_11
    case 12 => GF_MUL_12
    case 13 => GF_MUL_13
    case 14 => GF_MUL_14
    case _ => GF_MUL_15
  }

  // ----- the S-boxes undo each other -----

  function InvSboxAt(y: nat): Octet
    requires y < 256
  {
    InvSbox(y / 16)[y % 16]
  }

  lemma InverseRow0(c: nat)
    requires c < 16
    ensures InvSboxAt(SBOX_0[c]) == 0 + c
  {
  }

  lemma InverseRow1(c: nat)
    requires c < 16
    ensures InvSboxAt(SBOX_1[c]) == 16 + c
  {
  }

  lemma InverseRow2(c: nat)
    requires c < 16
    ensures InvSboxAt(SBOX_2[c]) == 32 + c
  {
  }

  lemma InverseRow3(c: nat)
    requires c < 16
    ensures InvSboxAt(SBOX_3[c]) == 48 + c
  {
  }

  lemma InverseRow4(c: nat)
    requires c < 16
    ensures InvSboxAt(SBOX_4[c]) == 64 + c
  {
  }

  lemma InverseRow5(c: nat)
    requires c < 16
    ensures InvSboxAt(SBOX_5[c]) == 80 + c
  {
  }

  lemma InverseRow6(c: nat)
    requires c < 16
    ensures InvSboxAt(SBOX_6[c]) == 96 + c
  {
  }

  lemma InverseRow7(c: nat)
    requires c < 16
    ensures InvSboxAt(SBOX_7[c]) == 112 + c
  {
  }

  lemma InverseRow8(c: nat)
    requires c < 16
    ensures InvSboxAt(SBOX_8[c]) == 128 + c
  {
  }

  lemma InverseRow9(c: nat)
    requires c < 16
    ensures InvSboxAt(SBOX_9[c]) == 144 + c
  {
  }

  lemma InverseRow10(c: nat)
    requires c < 16
    ensures InvSboxAt(SBOX_10[c]) == 160 + c
  {
  }

  lemma InverseRow11(c: nat)
    requires c < 16
    ensures InvSboxAt(SBOX_11[c]) == 176 + c
  {
  }

  lemma InverseRow12(c: nat)
    requires c < 16
    ensures InvSboxAt(SBOX_12[c]) == 192 + c
  {
  }

  lemma InverseRow13(c: nat)
    requires c < 16
    ensures InvSboxAt(SBOX_13[c]) == 208 + c
  {
  }

  lemma InverseRow14(c: nat)
    requires c < 16
    ensures InvSboxAt(SBOX_14[c]) == 224 + c
  {
  }

  lemma InverseRow15(c: nat)
    requires c < 16
    ensures InvSboxAt(SBOX_15[c]) == 240 + c
  {
  }

  lemma InverseAt(r: nat, c: nat)
    requires r < 16 && c < 16
    ensures InvSboxAt(Sbox(r)[c]) == 16 * r + c
  {
    hide InvSboxAt;
    if r == 0 { InverseRow0(c); }
    else if r == 1 { InverseRow1(c); }
    else if r == 2 { InverseRow2(c); }
    else if r == 3 { InverseRow3(c); }
    else if r == 4 { InverseRow4(c); }
    else if r == 5 { InverseRow5(c); }
    else if r == 6 { InverseRow6(c); }
    else if r == 7 { InverseRow7(c); }
    else if r == 8 { InverseRow8(c); }
    else if r == 9 { InverseRow9(c); }
    else if r == 10 { InverseRow10(c); }
    else if r == 11 { InverseRow11(c); }
    else if r == 12 { InverseRow12(c); }
    else if r == 13 { InverseRow13(c); }
    else if r == 14 { InverseRow14(c); }
    else { InverseRow15(c); }
  }

  /** aes_sbox[x >> 4][x & 0x0F]. */
  function Sub(x: Byte): Byte {
    ToByte(Sbox(x as nat / 16)[x as nat % 16])
  }

  /** aes_invsbox[x >> 4][x & 0x0F]. */
  function InvSub(x: Byte): Byte {
    ToByte(InvSboxAt(x as nat))
  }

  /** Substituting back gives the byte that was substituted. */
  lemma SubInverse(x: Byte)
    ensures InvSub(Sub(x)) == x
  {
    hide Sbox, InvSboxAt, ToByte;
    InverseAt(x as nat / 16, x as nat % 16);
    ToByteValue(Sbox(x as nat / 16)[x as nat % 16]);
    SameByte(x);
  }

  function SboxAt(i: nat): Octet
    requires i < 256
  {
    Sbox(i / 16)[i % 16]
  }

  lemma InverseAtIndex(i: nat)
    requires i < 256
    ensures InvSboxAt(SboxAt(i)) == i
  {
    InverseAt(i / 16, i % 16);
  }

  /** What the box gives for numbers below n: as many values, since it can be undone. */
  ghost function Image(n: nat): (image: set<nat>)
    requires n <= 256
    ensures |image| == n
    ensures forall y :: y in image ==> y < 256 && InvSboxAt(y) < n && SboxAt(InvSboxAt(y)) == y
  {
    if n == 0 then {}
    else
      InverseAtIndex(n - 1);
      Image(n - 1) + {SboxAt(n - 1)}
  }

  ghost function Below(n: nat): (s: set<nat>)
    ensures |s| == n
    ensures forall y: nat :: y in s <==> y < n
  {
    if n == 0 then {} else Below(n - 1) + {n - 1}
  }

  /** So it gives every value, and undoing comes first as well as last. */
  lemma ReachedByInverse(y: nat)
    requires y < 256
    ensures SboxAt(InvSboxAt(y)) == y
  {
    hide SboxAt, InvSboxAt;
    var rest := Below(256) - Image(256);
    assert Image(256) <= Below(256);
    assert |rest| == 0;
    assert y in Image(256);
  }

  lemma InvSubInverse(y: Byte)
    ensures Sub(InvSub(y)) == y
  {
    hide Sbox, InvSboxAt, ToByte;
    ReachedByInverse(y as nat);
    ToByteValue(InvSboxAt(y as nat));
    SameByte(y);
  }

  // ----- the multiplication table -----

  /** The multiples by 2, 3, 9, 11, 13 and 14. */
  function Multiples(x: Byte): Products {
    var x2 := Xtime(x);
    var x4 := Xtime(x2);
    var x8 := Xtime(x4);
    Products(x2, Xor(x2, x), Xor(x8, x), Xor(Xor(x8, x2), x), Xor(Xor(x8, x4), x), Xor(Xor(x8, x4), x2))
  }

  // The same in single bits, which is how the rows are checked.

  function Double(x: Byte): Byte {
    (x << 1) ^ (if x & 0x80 != 0 then 0x1b else 0)
  }

  function InBits(x: Byte): Products {
    var x2 := Double(x);
    var x4 := Double(x2);
    var x8 := Double(x4);
    Products(x2, Xor(x2, x), Xor(x8, x), Xor(Xor(x8, x2), x), Xor(Xor(x8, x4), x), Xor(Xor(x8, x4), x2))
  }

  lemma DoubleIsXtime(x: Byte)
    ensures Double(x) == Xtime(x)
  {
  }

  lemma InBitsIsMultiples(x: Byte)
    ensures InBits(x) == Multiples(x)
  {
    hide Double, Xtime, Xor;
    DoubleIsXtime(x);
    DoubleIsXtime(Xtime(x));
    DoubleIsXtime(Xtime(Xtime(x)));
  }

  /** gf_mul[x]. */
  function Row(x: Byte): Products {
    GfMul(x as nat / 16)[x as nat % 16]
  }

  lemma MultiplesLow0(x: Byte)
    requires 0x00 <= x <= 0x07
    ensures GF_MUL_0[x as nat % 16] == InBits(x)
  {
    if x == 0x00 {} else if x == 0x01 {} else if x == 0x02 {} else if x == 0x03 {}
    else if x == 0x04 {} else if x == 0x05 {} else if x == 0x06 {} else if x == 0x07 {}
  }

  lemma MultiplesHigh0(x: Byte)
    requires 0x08 <= x <= 0x0f
    ensures GF_MUL_0[x as nat % 16] == InBits(x)
  {
    if x == 0x08 {} else if x == 0x09 {} else if x == 0x0a {} else if x == 0x0b {}
    else if x == 0x0c {} else if x == 0x0d {} else if x == 0x0e {} else if x == 0x0f {}
  }

  lemma MultiplesRow0(x: Byte)
    requires 0x00 <= x <= 0x0f
    ensures GF_MUL_0[x as nat % 16] == InBits(x)
  {
    hide InBits;
    if x <= 0x07 { MultiplesLow0(x); } else { MultiplesHigh0(x); }
  }

  lemma MultiplesLow1(x: Byte)
    requires 0x10 <= x <= 0x17
    ensures GF_MUL_1[x as nat % 16] == InBits(x)
  {
    if x == 0x10 {} else if x == 0x11 {} else if x == 0x12 {} else if x == 0x13 {}
    else if x == 0x14 {} else if x == 0x15 {} else if x == 0x16 {} else if x == 0x17 {}
  }

  lemma MultiplesHigh1(x: Byte)
    requires 0x18 <= x <= 0x1f
    ensures GF_MUL_1[x as nat % 16] == InBits(x)
  {
    if x == 0x18 {} else if x == 0x19 {} else if x == 0x1a {} else if x == 0x1b {}
    else if x == 0x1c {} else if x == 0x1d {} else if x == 0x1e {} else if x == 0x1f {}
  }

  lemma MultiplesRow1(x: Byte)
    requires 0x10 <= x <= 0x1f
    ensures GF_MUL_1[x as nat % 16] == InBits(x)
  {
    hide InBits;
    if x <= 0x17 { MultiplesLow1(x); } else { MultiplesHigh1(x); }
  }

  lemma MultiplesLow2(x: Byte)
    requires 0x20 <= x <= 0x27
    ensures GF_MUL_2[x as nat % 16] == InBits(x)
  {
    if x == 0x20 {} else if x == 0x21 {} else if x == 0x22 {} else if x == 0x23 {}
    else if x == 0x24 {} else if x == 0x25 {} else if x == 0x26 {} else if x == 0x27 {}
  }

  lemma MultiplesHigh2(x: Byte)
    requires 0x28 <= x <= 0x2f
    ensures GF_MUL_2[x as nat % 16] == InBits(x)
  {
    if x == 0x28 {} else if x == 0x29 {} else if x == 0x2a {} else if x == 0x2b {}
    else if x == 0x2c {} else if x == 0x2d {} else if x == 0x2e {} else if x == 0x2f {}
  }

  lemma MultiplesRow2(x: Byte)
    requires 0x20 <= x <= 0x2f
    ensures GF_MUL_2[x as nat % 16] == InBits(x)
  {
    hide InBits;
    if x <= 0x27 { MultiplesLow2(x); } else { MultiplesHigh2(x); }
  }

  lemma MultiplesLow3(x: Byte)
    requires 0x30 <= x <= 0x37
    ensures GF_MUL_3[x as nat % 16] == InBits(x)
  {
    if x == 0x30 {} else if x == 0x31 {} else if x == 0x32 {} else if x == 0x33 {}
    else if x == 0x34 {} else if x == 0x35 {} else if x == 0x36 {} else if x == 0x37 {}
  }

  lemma MultiplesHigh3(x: Byte)
    requires 0x38 <= x <= 0x3f
    ensures GF_MUL_3[x as nat % 16] == InBits(x)
  {
    if x == 0x38 {} else if x == 0x39 {} else if x == 0x3a {} else if x == 0x3b {}
    else if x == 0x3c {} else if x == 0x3d {} else if x == 0x3e {} else if x == 0x3f {}
  }

  lemma MultiplesRow3(x: Byte)
    requires 0x30 <= x <= 0x3f
    ensures GF_MUL_3[x as nat % 16] == InBits(x)
  {
    hide InBits;
    if x <= 0x37 { MultiplesLow3(x); } else { MultiplesHigh3(x); }
  }

  lemma MultiplesLow4(x: Byte)
    requires 0x40 <= x <= 0x47
    ensures GF_MUL_4[x as nat % 16] == InBits(x)
  {
    if x == 0x40 {} else if x == 0x41 {} else if x == 0x42 {} else if x == 0x43 {}
    else if x == 0x44 {} else if x == 0x45 {} else if x == 0x46 {} else if x == 0x47 {}
  }

  lemma MultiplesHigh4(x: Byte)
    requires 0x48 <= x <= 0x4f
    ensures GF_MUL_4[x as nat % 16] == InBits(x)
  {
    if x == 0x48 {} else if x == 0x49 {} else if x == 0x4a {} else if x == 0x4b {}
    else if x == 0x4c {} else if x == 0x4d {} else if x == 0x4e {} else if x == 0x4f {}
  }

  lemma MultiplesRow4(x: Byte)
    requires 0x40 <= x <= 0x4f
    ensures GF_MUL_4[x as nat % 16] == InBits(x)
  {
    hide InBits;
    if x <= 0x47 { MultiplesLow4(x); } else { MultiplesHigh4(x); }
  }

  lemma MultiplesLow5(x: Byte)
    requires 0x50 <= x <= 0x57
    ensures GF_MUL_5[x as nat % 16] == InBits(x)
  {
    if x == 0x50 {} else if x == 0x51 {} else if x == 0x52 {} else if x == 0x53 {}
    else if x == 0x54 {} else if x == 0x55 {} else if x == 0x56 {} else if x == 0x57 {}
  }

  lemma MultiplesHigh5(x: Byte)
    requires 0x58 <= x <= 0x5f
    ensures GF_MUL_5[x as nat % 16] == InBits(x)
  {
    if x == 0x58 {} else if x == 0x59 {} else if x == 0x5a {} else if x == 0x5b {}
    else if x == 0x5c {} else if x == 0x5d {} else if x == 0x5e {} else if x == 0x5f {}
  }

  lemma MultiplesRow5(x: Byte)
    requires 0x50 <= x <= 0x5f
    ensures GF_MUL_5[x as nat % 16] == InBits(x)
  {
    hide InBits;
    if x <= 0x57 { MultiplesLow5(x); } else { MultiplesHigh5(x); }
  }

  lemma MultiplesLow6(x: Byte)
    requires 0x60 <= x <= 0x67
    ensures GF_MUL_6[x as nat % 16] == InBits(x)
  {
    if x == 0x60 {} else if x == 0x61 {} else if x == 0x62 {} else if x == 0x63 {}
    else if x == 0x64 {} else if x == 0x65 {} else if x == 0x66 {} else if x == 0x67 {}
  }

  lemma MultiplesHigh6(x: Byte)
    requires 0x68 <= x <= 0x6f
    ensures GF_MUL_6[x as nat % 16] == InBits(x)
  {
    if x == 0x68 {} else if x == 0x69 {} else if x == 0x6a {} else if x == 0x6b {}
    else if x == 0x6c {} else if x == 0x6d {} else if x == 0x6e {} else if x == 0x6f {}
  }

  lemma MultiplesRow6(x: Byte)
    requires 0x60 <= x <= 0x6f
    ensures GF_MUL_6[x as nat % 16] == InBits(x)
  {
    hide InBits;
    if x <= 0x67 { MultiplesLow6(x); } else { MultiplesHigh6(x); }
  }

  lemma MultiplesLow7(x: Byte)
    requires 0x70 <= x <= 0x77
    ensures GF_MUL_7[x as nat % 16] == InBits(x)
  {
    if x == 0x70 {} else if x == 0x71 {} else if x == 0x72 {} else if x == 0x73 {}
    else if x == 0x74 {} else if x == 0x75 {} else if x == 0x76 {} else if x == 0x77 {}
  }

  lemma MultiplesHigh7(x: Byte)
    requires 0x78 <= x <= 0x7f
    ensures GF_MUL_7[x as nat % 16] == InBits(x)
  {
    if x == 0x78 {} else if x == 0x79 {} else if x == 0x7a {} else if x == 0x7b {}
    else if x == 0x7c {} else if x == 0x7d {} else if x == 0x7e {} else if x == 0x7f {}
  }

  lemma MultiplesRow7(x: Byte)
    requires 0x70 <= x <= 0x7f
    ensures GF_MUL_7[x as nat % 16] == InBits(x)
  {
    hide InBits;
    if x <= 0x77 { MultiplesLow7(x); } else { MultiplesHigh7(x); }
  }

  lemma MultiplesLow8(x: Byte)
    requires 0x80 <= x <= 0x87
    ensures GF_MUL_8[x as nat % 16] == InBits(x)
  {
    if x == 0x80 {} else if x == 0x81 {} else if x == 0x82 {} else if x == 0x83 {}
    else if x == 0x84 {} else if x == 0x85 {} else if x == 0x86 {} else if x == 0x87 {}
  }

  lemma MultiplesHigh8(x: Byte)
    requires 0x88 <= x <= 0x8f
    ensures GF_MUL_8[x as nat % 16] == InBits(x)
  {
    if x == 0x88 {} else if x == 0x89 {} else if x == 0x8a {} else if x == 0x8b {}
    else if x == 0x8c {} else if x == 0x8d {} else if x == 0x8e {} else if x == 0x8f {}
  }

  lemma MultiplesRow8(x: Byte)
    requires 0x80 <= x <= 0x8f
    ensures GF_MUL_8[x as nat % 16] == InBits(x)
  {
    hide InBits;
    if x <= 0x87 { MultiplesLow8(x); } else { MultiplesHigh8(x); }
  }

  lemma MultiplesLow9(x: Byte)
    requires 0x90 <= x <= 0x97
    ensures GF_MUL_9[x as nat % 16] == InBits(x)
  {
    if x == 0x90 {} else if x == 0x91 {} else if x == 0x92 {} else if x == 0x93 {}
    else if x == 0x94 {} else if x == 0x95 {} else if x == 0x96 {} else if x == 0x97 {}
  }

  lemma MultiplesHigh9(x: Byte)
    requires 0x98 <= x <= 0x9f
    ensures GF_MUL_9[x as nat % 16] == InBits(x)
  {
    if x == 0x98 {} else if x == 0x99 {} else if x == 0x9a {} else if x == 0x9b {}
    else if x == 0x9c {} else if x == 0x9d {} else if x == 0x9e {} else if x == 0x9f {}
  }

  lemma MultiplesRow9(x: Byte)
    requires 0x90 <= x <= 0x9f
    ensures GF_MUL_9[x as nat % 16] == InBits(x)
  {
    hide InBits;
    if x <= 0x97 { MultiplesLow9(x); } else { MultiplesHigh9(x); }
  }

  lemma MultiplesLow10(x: Byte)
    requires 0xa0 <= x <= 0xa7
    ensures GF_MUL_10[x as nat % 16] == InBits(x)
  {
    if x == 0xa0 {} else if x == 0xa1 {} else if x == 0xa2 {} else if x == 0xa3 {}
    else if x == 0xa4 {} else if x == 0xa5 {} else if x == 0xa6 {} else if x == 0xa7 {}
  }

  lemma MultiplesHigh10(x: Byte)
    requires 0xa8 <= x <= 0xaf
    ensures GF_MUL_10[x as nat % 16] == InBits(x)
  {
    if x == 0xa8 {} else if x == 0xa9 {} else if x == 0xaa {} else if x == 0xab {}
    else if x == 0xac {} else if x == 0xad {} else if x == 0xae {} else if x == 0xaf {}
  }

  lemma MultiplesRow10(x: Byte)
    requires 0xa0 <= x <= 0xaf
    ensures GF_MUL_10[x as nat % 16] == InBits(x)
  {
    hide InBits;
    if x <= 0xa7 { MultiplesLow10(x); } else { MultiplesHigh10(x); }
  }

  lemma MultiplesLow11(x: Byte)
    requires 0xb0 <= x <= 0xb7
    ensures GF_MUL_11[x as nat % 16] == InBits(x)
  {
    if x == 0xb0 {} else if x == 0xb1 {} else if x == 0xb2 {} else if x == 0xb3 {}
    else if x == 0xb4 {} else if x == 0xb5 {} else if x == 0xb6 {} else if x == 0xb7 {}
  }

  lemma MultiplesHigh11(x: Byte)
    requires 0xb8 <= x <= 0xbf
    ensures GF_MUL_11[x as nat % 16] == InBits(x)
  {
    if x == 0xb8 {} else if x == 0xb9 {} else if x == 0xba {} else if x == 0xbb {}
    else if x == 0xbc {} else if x == 0xbd {} else if x == 0xbe {} else if x == 0xbf {}
  }

  lemma MultiplesRow11(x: Byte)
    requires 0xb0 <= x <= 0xbf
    ensures GF_MUL_11[x as nat % 16] == InBits(x)
  {
    hide InBits;
    if x <= 0xb7 { MultiplesLow11(x); } else { MultiplesHigh11(x); }
  }

  lemma MultiplesLow12(x: Byte)
    requires 0xc0 <= x <= 0xc7
    ensures GF_MUL_12[x as nat % 16] == InBits(x)
  {
    if x == 0xc0 {} else if x == 0xc1 {} else if x == 0xc2 {} else if x == 0xc3 {}
    else if x == 0xc4 {} else if x == 0xc5 {} else if x == 0xc6 {} else if x == 0xc7 {}
  }

  lemma MultiplesHigh12(x: Byte)
    requires 0xc8 <= x <= 0xcf
    ensures GF_MUL_12[x as nat % 16] == InBits(x)
  {
    if x == 0xc8 {} else if x == 0xc9 {} else if x == 0xca {} else if x == 0xcb {}
    else if x == 0xcc {} else if x == 0xcd {} else if x == 0xce {} else if x == 0xcf {}
  }

  lemma MultiplesRow12(x: Byte)
    requires 0xc0 <= x <= 0xcf
    ensures GF_MUL_12[x as nat % 16] == InBits(x)
  {
    hide InBits;
    if x <= 0xc7 { MultiplesLow12(x); } else { MultiplesHigh12(x); }
  }

  lemma MultiplesLow13(x: Byte)
    requires 0xd0 <= x <= 0xd7
    ensures GF_MUL_13[x as nat % 16] == InBits(x)
  {
    if x == 0xd0 {} else if x == 0xd1 {} else if x == 0xd2 {} else if x == 0xd3 {}
    else if x == 0xd4 {} else if x == 0xd5 {} else if x == 0xd6 {} else if x == 0xd7 {}
  }

  lemma MultiplesHigh13(x: Byte)
    requires 0xd8 <= x <= 0xdf
    ensures GF_MUL_13[x as nat % 16] == InBits(x)
  {
    if x == 0xd8 {} else if x == 0xd9 {} else if x == 0xda {} else if x == 0xdb {}
    else if x == 0xdc {} else if x == 0xdd {} else if x == 0xde {} else if x == 0xdf {}
  }

  lemma MultiplesRow13(x: Byte)
    requires 0xd0 <= x <= 0xdf
    ensures GF_MUL_13[x as nat % 16] == InBits(x)
  {
    hide InBits;
    if x <= 0xd7 { MultiplesLow13(x); } else { MultiplesHigh13(x); }
  }

  lemma MultiplesLow14(x: Byte)
    requires 0xe0 <= x <= 0xe7
    ensures GF_MUL_14[x as nat % 16] == InBits(x)
  {
    if x == 0xe0 {} else if x == 0xe1 {} else if x == 0xe2 {} else if x == 0xe3 {}
    else if x == 0xe4 {} else if x == 0xe5 {} else if x == 0xe6 {} else if x == 0xe7 {}
  }

  lemma MultiplesHigh14(x: Byte)
    requires 0xe8 <= x <= 0xef
    ensures GF_MUL_14[x as nat % 16] == InBits(x)
  {
    if x == 0xe8 {} else if x == 0xe9 {} else if x == 0xea {} else if x == 0xeb {}
    else if x == 0xec {} else if x == 0xed {} else if x == 0xee {} else if x == 0xef {}
  }

  lemma MultiplesRow14(x: Byte)
    requires 0xe0 <= x <= 0xef
    ensures GF_MUL_14[x as nat % 16] == InBits(x)
  {
    hide InBits;
    if x <= 0xe7 { MultiplesLow14(x); } else { MultiplesHigh14(x); }
  }

  lemma MultiplesLow15(x: Byte)
    requires 0xf0 <= x <= 0xf7
    ensures GF_MUL_15[x as nat % 16] == InBits(x)
  {
    if x == 0xf0 {} else if x == 0xf1 {} else if x == 0xf2 {} else if x == 0xf3 {}
    else if x == 0xf4 {} else if x == 0xf5 {} else if x == 0xf6 {} else if x == 0xf7 {}
  }

  lemma MultiplesHigh15(x: Byte)
    requires 0xf8 <= x <= 0xff
    ensures GF_MUL_15[x as nat % 16] == InBits(x)
  {
    if x == 0xf8 {} else if x == 0xf9 {} else if x == 0xfa {} else if x == 0xfb {}
    else if x == 0xfc {} else if x == 0xfd {} else if x == 0xfe {} else if x == 0xff {}
  }

  lemma MultiplesRow15(x: Byte)
    requires 0xf0 <= x <= 0xff
    ensures GF_MUL_15[x as nat % 16] == InBits(x)
  {
    hide InBits;
    if x <= 0xf7 { MultiplesLow15(x); } else { MultiplesHigh15(x); }
  }

  lemma RowIs(x: Byte, h: nat)
    requires h < 16 && x as nat / 16 == h
    ensures Row(x) == GfMul(h)[x as nat % 16]
  {
    hide GfMul;
  }

  lemma RowIsInBitsLow(x: Byte)
    requires x <= 0x7f
    ensures Row(x) == InBits(x)
  {
    hide InBits, Row;
    if x <= 0x0f { RowIs(x, 0); MultiplesRow0(x); }
    else if x <= 0x1f { RowIs(x, 1); MultiplesRow1(x); }
    else if x <= 0x2f { RowIs(x, 2); MultiplesRow2(x); }
    else if x <= 0x3f { RowIs(x, 3); MultiplesRow3(x); }
    else if x <= 0x4f { RowIs(x, 4); MultiplesRow4(x); }
    else if x <= 0x5f { RowIs(x, 5); MultiplesRow5(x); }
    else if x <= 0x6f { RowIs(x, 6); MultiplesRow6(x); }
    else { RowIs(x, 7); MultiplesRow7(x); }
  }

  lemma RowIsInBitsHigh(x: Byte)
    requires x > 0x7f
    ensures Row(x) == InBits(x)
  {
    hide InBits, Row;
    if x <= 0x8f { RowIs(x, 8); MultiplesRow8(x); }
    else if x <= 0x9f { RowIs(x, 9); MultiplesRow9(x); }
    else if x <= 0xaf { RowIs(x, 10); MultiplesRow10(x); }
    else if x <= 0xbf { RowIs(x, 11); MultiplesRow11(x); }
    else if x <= 0xcf { RowIs(x, 12); MultiplesRow12(x); }
    else if x <= 0xdf { RowIs(x, 13); MultiplesRow13(x); }
    else if x <= 0xef { RowIs(x, 14); MultiplesRow14(x); }
    else { RowIs(x, 15); MultiplesRow15(x); }
  }

  lemma RowIsInBits(x: Byte)
    ensures Row(x) == InBits(x)
  {
    hide InBits, Row;
    if x <= 0x7f { RowIsInBitsLow(x); } else { RowIsInBitsHigh(x); }
  }

  /** The table holds the products it should. */
  lemma RowIsMultiples(x: Byte)
    ensures Row(x) == Multiples(x)
  {
    hide Row, InBits, Multiples;
    RowIsInBits(x);
    InBitsIsMultiples(x);
  }
}
