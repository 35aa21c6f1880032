/**
  Streaming SHA-256 (librist-master/contrib/sha256.c) against sections 5.1.1 and 6.2 of
  FIPS 180-4.
 */
module Sha256 {
  import opened Arithmetic
  import opened BigEndian
  import opened Bytes

  const BLOCK_SIZE := 64
  const HASH_SIZE := 32

  // The rows of k.
  const K_0: seq<Word> := [
    0x428a2f98, 0x71374491, 0xb5c0fbcf, 0xe9b5dba5, 0x3956c25b, 0x59f111f1, 0x923f82a4, 0xab1c5ed5,
    0xd807aa98, 0x12835b01, 0x243185be, 0x550c7dc3, 0x72be5d74, 0x80deb1fe, 0x9bdc06a7, 0xc19bf174]
  const K_1: seq<Word> := [
    0xe49b69c1, 0xefbe4786, 0x0fc19dc6, 0x240ca1cc, 0x2de92c6f, 0x4a7484aa, 0x5cb0a9dc, 0x76f988da,
    0x983e5152, 0xa831c66d, 0xb00327c8, 0xbf597fc7, 0xc6e00bf3, 0xd5a79147, 0x06ca6351, 0x14292967]
  const K_2: seq<Word> := [
    0x27b70a85, 0x2e1b2138, 0x4d2c6dfc, 0x53380d13, 0x650a7354, 0x766a0abb, 0x81c2c92e, 0x92722c85,
    0xa2bfe8a1, 0xa81a664b, 0xc24b8b70, 0xc76c51a3, 0xd192e819, 0xd6990624, 0xf40e3585, 0x106aa070]
  const K_3: seq<Word> := [
    0x19a4c116, 0x1e376c08, 0x2748774c, 0x34b0bcb5, 0x391c0cb3, 0x4ed8aa4a, 0x5b9cca4f, 0x682e6ff3,
    0x748f82ee, 0x78a5636f, 0x84c87814, 0x8cc70208, 0x90befffa, 0xa4506ceb, 0xbef9a3f7, 0xc67178f2]

  const K := K_0 + K_1 + K_2 + K_3

  /** The initial hash value. */
  const INITIAL: seq<Word> := [
    0x6a09e667, 0xbb67ae85, 0x3c6ef372, 0xa54ff53a, 0x510e527f, 0x9b05688c, 0x1f83d9ab, 0x5be0cd19]

  // ----- the functions of section 4.1.2 -----

  function Rotr(x: Word, n: nat): Word
    requires n < 32
  {
    (x >> n) | (x << (32 - n))
  }

  function Ch(x: Word, y: Word, z: Word): Word {
    (x & y) ^ (!x & z)
  }

  function Maj(x: Word, y: Word, z: Word): Word {
    (x & y) ^ (x & z) ^ (y & z)
  }

  function Ep0(x: Word): Word {
    Rotr(x, 2) ^ Rotr(x, 13) ^ Rotr(x, 22)
  }

  function Ep1(x: Word): Word {
    Rotr(x, 6) ^ Rotr(x, 11) ^ Rotr(x, 25)
  }

  function Sig0(x: Word): Word {
    Rotr(x, 7) ^ Rotr(x, 18) ^ (x >> 3)
  }

  function Sig1(x: Word): Word {
    Rotr(x, 17) ^ Rotr(x, 19) ^ (x >> 10)
  }

  function WordOf(b0: Byte, b1: Byte, b2: Byte, b3: Byte): Word {
    ((b0 as Word) << 24) | ((b1 as Word) << 16) | ((b2 as Word) << 8) | (b3 as Word)
  }

  function Add(x: Word, y: Word): Word {
    x + y
  }

  // ----- the compression function of section 6.2.2 -----

  function NextWord(w2: Word, w7: Word, w15: Word, w16: Word): Word {
    Add(Add(Add(Sig1(w2), w7), Sig0(w15)), w16)
  }

  /** The first t words of the message schedule. */
  function Schedule(block: seq<Byte>, t: nat): (w: seq<Word>)
    requires |block| == BLOCK_SIZE && t <= 64
    ensures |w| == t
  {
    if t == 0 then []
    else
      var w := Schedule(block, t - 1);
      if t <= 16 then w + [WordOf(block[4 * t - 4], block[4 * t - 3], block[4 * t - 2], block[4 * t - 1])]
      else w + [NextWord(w[t - 3], w[t - 8], w[t - 16], w[t - 17])]
  }

  datatype Registers = Registers(a: Word, b: Word, c: Word, d: Word, e: Word, f: Word, g: Word, h: Word)

  function Load(state: seq<Word>): Registers
    requires |state| == 8
  {
    Registers(state[0], state[1], state[2], state[3], state[4], state[5], state[6], state[7])
  }

  function T1(r: Registers, k: Word, w: Word): Word {
    Add(Add(Add(Add(r.h, Ep1(r.e)), Ch(r.e, r.f, r.g)), k), w)
  }

  function T2(r: Registers): Word {
    Add(Ep0(r.a), Maj(r.a, r.b, r.c))
  }

  function Round(r: Registers, k: Word, w: Word): Registers {
    Registers(Add(T1(r, k, w), T2(r)), r.a, r.b, r.c, Add(r.d, T1(r, k, w)), r.e, r.f, r.g)
  }

  function RoundConstant(t: nat): Word
    requires t < 64
  {
    K[t]
  }

  function Rounds(r: Registers, w: seq<Word>, t: nat): Registers
    requires t <= |w| == 64
  {
    if t == 0 then r else Round(Rounds(r, w, t - 1), RoundConstant(t - 1), w[t - 1])
  }

  function Added(state: seq<Word>, r: Registers): (s: seq<Word>)
    requires |state| == 8
    ensures |s| == 8
  {
    [Add(state[0], r.a), Add(state[1], r.b), Add(state[2], r.c), Add(state[3], r.d),
     Add(state[4], r.e), Add(state[5], r.f), Add(state[6], r.g), Add(state[7], r.h)]
  }

  function Compress(state: seq<Word>, block: seq<Byte>): (s: seq<Word>)
    requires |state| == 8 && |block| == BLOCK_SIZE
    ensures |s| == 8
  {
    Added(state, Rounds(Load(state), Schedule(block, 64), 64))
  }

  // ----- the hash -----

  /** The state after the whole blocks of msg. */
  function Fold(msg: seq<Byte>): (s: seq<Word>)
    requires |msg| % BLOCK_SIZE == 0
    ensures |s| == 8
  {
    if msg == [] then INITIAL
    else Compress(Fold(msg[..|msg| - BLOCK_SIZE]), msg[|msg| - BLOCK_SIZE..])
  }

  /** A 64-bit length, most significant byte first. */
  function LengthBytes(n: nat): (s: seq<Byte>)
    ensures |s| == 8
  {
    [ByteOf(n / 0x100_0000_0000_0000), ByteOf(n / 0x1_0000_0000_0000), ByteOf(n / 0x100_0000_0000), ByteOf(n / 0x1_0000_0000),
     ByteOf(n / 0x100_0000), ByteOf(n / 0x1_0000), ByteOf(n / 0x100), ByteOf(n)]
  }

  /** The bytes stand for the number, modulo 2^64. */
  lemma LengthMeaning(n: nat)
    ensures Value(LengthBytes(n)) == n % WORD64
  {
    hide ByteOf, Value;
    var m := n / WORD32;
    var upper := [] + [ByteOf(m / 0x100_0000)] + [ByteOf(m / 0x1_0000)] + [ByteOf(m / 0x100)] + [ByteOf(m)];
    FourBytes(m);
    FourMore(upper, n);
    assert LengthBytes(n) == upper + [ByteOf(n / 0x100_0000)] + [ByteOf(n / 0x1_0000)] + [ByteOf(n / 0x100)] + [ByteOf(n)];
  }

  /** The padding of section 5.1.1 for a message of n bytes. */
  function Padding(n: nat): (s: seq<Byte>)
    ensures (n + |s|) % BLOCK_SIZE == 0
  {
    [0x80] + Zeros((55 - n) % BLOCK_SIZE) + LengthBytes(8 * n % WORD64)
  }

  /** The state that the whole padded message leads to. */
  function FinalState(msg: seq<Byte>): (s: seq<Word>)
    ensures |s| == 8
  {
    Fold(msg + Padding(|msg|))
  }

  /** Byte i of a word, the most significant one first. */
  function ByteAt(w: Word, i: nat): Byte
    requires i < 4
  {
    if i == 0 then ((w >> 24) & 0xff) as Byte
    else if i == 1 then ((w >> 16) & 0xff) as Byte
    else if i == 2 then ((w >> 8) & 0xff) as Byte
    else (w & 0xff) as Byte
  }

  /** The words of the state, each with its most significant byte first. */
  function BytesOf(state: seq<Word>): (s: seq<Byte>)
    ensures |s| == 4 * |state|
    ensures forall i :: 0 <= i < |s| ==> s[i] == ByteAt(state[i / 4], i % 4)
  {
    seq(4 * |state|, i requires 0 <= i < 4 * |state| => ByteAt(state[i / 4], i % 4))
  }

  function Hash(msg: seq<Byte>): (s: seq<Byte>)
    ensures |s| == HASH_SIZE
  {
    BytesOf(FinalState(msg))
  }

  lemma FoldNext(msg: seq<Byte>, block: seq<Byte>)
    requires |msg| % BLOCK_SIZE == 0 && |block| == BLOCK_SIZE
    ensures |msg + block| % BLOCK_SIZE == 0 && Fold(msg + block) == Compress(Fold(msg), block)
  {
    assert (msg + block)[..|msg|] == msg && (msg + block)[|msg|..] == block;
  }

  /** How many zeros pad a message whose last d bytes are left over. */
  lemma PaddingZeros(n: nat, d: nat)
    requires d < BLOCK_SIZE && d <= n && (n - d) % BLOCK_SIZE == 0
    ensures (55 - n) % BLOCK_SIZE == if d < 56 then 55 - d else 119 - d
  {
  }

  /** The last block, when the length fits behind what is left over. */
  lemma PaddedShort(msg: seq<Byte>, whole: nat)
    requires whole <= |msg| < whole + 56 && whole % BLOCK_SIZE == 0
    ensures FinalState(msg) == Compress(Fold(msg[..whole]), msg[whole..] + [0x80] + Zeros(55 - (|msg| - whole))
                                                            + LengthBytes(8 * |msg| % WORD64))
  {
    hide Fold, Compress, LengthBytes;
    var block := msg[whole..] + [0x80] + Zeros(55 - (|msg| - whole)) + LengthBytes(8 * |msg| % WORD64);
    PaddingZeros(|msg|, |msg| - whole);
    assert msg + Padding(|msg|) == msg[..whole] + block;
    FoldNext(msg[..whole], block);
  }

  /** The last two blocks, when it does not. */
  lemma PaddedLong(msg: seq<Byte>, whole: nat)
    requires whole + 56 <= |msg| < whole + BLOCK_SIZE && whole % BLOCK_SIZE == 0
    ensures FinalState(msg) == Compress(Compress(Fold(msg[..whole]), msg[whole..] + [0x80] + Zeros(63 - (|msg| - whole))),
                                        Zeros(56) + LengthBytes(8 * |msg| % WORD64))
  {
    hide Fold, Compress, LengthBytes;
    var d := |msg| - whole;
    var first, second := msg[whole..] + [0x80] + Zeros(63 - d), Zeros(56) + LengthBytes(8 * |msg| % WORD64);
    PaddingZeros(|msg|, d);
    assert Zeros(119 - d) == Zeros(63 - d) + Zeros(56);
    assert msg + Padding(|msg|) == (msg[..whole] + first) + second;
    FoldNext(msg[..whole], first);
    FoldNext(msg[..whole] + first, second);
  }

  /** The last block holds what is left over and one byte more. */
  lemma LastByte(msg: seq<Byte>, whole: nat, b: Byte, block: seq<Byte>)
    requires whole <= |msg| && whole % BLOCK_SIZE == 0 && |msg| == whole + BLOCK_SIZE - 1 && block == msg[whole..] + [b]
    ensures (msg + [b])[..whole] == msg[..whole] && |msg + [b]| % BLOCK_SIZE == 0
    ensures Fold((msg + [b])[..|msg| + 1]) == Compress(Fold(msg[..whole]), block)
  {
    hide Fold, Compress;
    FoldNext(msg[..whole], block);
    assert (msg + [b])[..|msg| + 1] == msg[..whole] + block;
    assert (msg + [b])[..whole] == msg[..whole];
  }

  lemma BitsAddUp(whole: nat, d: nat)
    ensures (8 * whole % WORD64 + d * 8) % WORD64 == 8 * (whole + d) % WORD64
  {
  }

  /** The i-th bytes of all words stand in their places. */
  ghost predicate Column(hash: seq<Byte>, state: seq<Word>, i: nat) {
    && |hash| >= HASH_SIZE && |state| == 8 && i < 4
    && hash[i] == ByteAt(state[0], i) && hash[i + 4] == ByteAt(state[1], i)
    && hash[i + 8] == ByteAt(state[2], i) && hash[i + 12] == ByteAt(state[3], i)
    && hash[i + 16] == ByteAt(state[4], i) && hash[i + 20] == ByteAt(state[5], i)
    && hash[i + 24] == ByteAt(state[6], i) && hash[i + 28] == ByteAt(state[7], i)
  }

  lemma ColumnsKeep(hash: seq<Byte>, hash': seq<Byte>, state: seq<Word>, i: nat)
    requires (forall j :: 0 <= j < i ==> Column(hash, state, j)) && Column(hash', state, i) && |hash'| == |hash|
    requires forall k :: 0 <= k < |hash| && (k >= HASH_SIZE || k % 4 != i) ==> hash'[k] == hash[k]
    ensures forall j :: 0 <= j < i + 1 ==> Column(hash', state, j)
  {
    hide ByteAt;
    forall j | 0 <= j < i
      ensures Column(hash', state, j)
    {
      assert Column(hash, state, j);
    }
  }

  lemma ColumnHolds(hash: seq<Byte>, state: seq<Word>, w: nat, i: nat)
    requires Column(hash, state, i) && w < 8
    ensures hash[i + 4 * w] == ByteAt(state[w], i)
  {
    hide ByteAt;
  }

  lemma Place(k: nat)
    requires k < HASH_SIZE
    ensures k / 4 < 8 && k % 4 < 4 && k == k % 4 + 4 * (k / 4)
  {
  }

  lemma ColumnsMake(hash: seq<Byte>, state: seq<Word>)
    requires |hash| >= HASH_SIZE && |state| == 8 && forall j :: 0 <= j < 4 ==> Column(hash, state, j)
    ensures hash[..HASH_SIZE] == BytesOf(state)
  {
    hide ByteAt, Column;
    forall k | 0 <= k < HASH_SIZE
      ensures hash[k] == ByteAt(state[k / 4], k % 4)
    {
      Place(k);
      ColumnHolds(hash, state, k / 4, k % 4);
    }
  }

  // ----- the context -----

  method PutFour(a: array<Byte>, i: nat, w: Byte, x: Byte, y: Byte, z: Byte)
    requires i + 4 <= a.Length
    modifies a
    ensures a[i] == w && a[i + 1] == x && a[i + 2] == y && a[i + 3] == z
    ensures forall j :: 0 <= j < i || i + 4 <= j < a.Length ==> a[j] == old(a[j])
  {
    a[i] := w;
    a[i + 1] := x;
    a[i + 2] := y;
    a[i + 3] := z;
  }

  method PutSpread(a: array<Byte>, i: nat, w: Byte, x: Byte, y: Byte, z: Byte)
    requires i + 12 < a.Length
    modifies a
    ensures a[i] == w && a[i + 4] == x && a[i + 8] == y && a[i + 12] == z
    ensures forall j :: 0 <= j < a.Length && j != i && j != i + 4 && j != i + 8 && j != i + 12 ==> a[j] == old(a[j])
  {
    a[i] := w;
    a[i + 4] := x;
    a[i + 8] := y;
    a[i + 12] := z;
  }

  method SetInitial(state: array<Word>)
    requires state.Length == 8
    modifies state
    ensures state[..] == INITIAL
  {
    state[0], state[1], state[2], state[3] := 0x6a09e667, 0xbb67ae85, 0x3c6ef372, 0xa54ff53a;
    state[4], state[5], state[6], state[7] := 0x510e527f, 0x9b05688c, 0x1f83d9ab, 0x5be0cd19;
    assert forall i :: 0 <= i < 8 ==> state[i] == INITIAL[i];
  }

  /** The message schedule. */
  method Expand(block: array<Byte>) returns (m: array<Word>)
    requires block.Length >= BLOCK_SIZE
    ensures fresh(m) && m[..] == Schedule(block[..BLOCK_SIZE], 64)
  {
    hide WordOf, NextWord;
    m := new Word[64];
    var i, j := 0, 0;
    while i < 16
      invariant 0 <= i <= 16 && j == 4 * i && m[..i] == Schedule(block[..BLOCK_SIZE], i)
    {
      m[i] := WordOf(block[j], block[j + 1], block[j + 2], block[j + 3]);
      i, j := i + 1, j + 4;
    }
    while i < 64
      invariant 16 <= i <= 64 && m[..i] == Schedule(block[..BLOCK_SIZE], i)
    {
      m[i] := NextWord(m[i - 2], m[i - 7], m[i - 15], m[i - 16]);
      i := i + 1;
    }
  }

  /** The 64 rounds on eight variables. */
  method RunRounds(r0: Registers, m: array<Word>) returns (r: Registers)
    requires m.Length == 64
    ensures r == Rounds(r0, m[..], 64)
  {
    hide Ep0, Ep1, Ch, Maj, Add, RoundConstant;
    var a, b, c, d, e, f, g, h := r0.a, r0.b, r0.c, r0.d, r0.e, r0.f, r0.g, r0.h;
    var i := 0;
    while i < 64
      invariant 0 <= i <= 64 && Registers(a, b, c, d, e, f, g, h) == Rounds(r0, m[..], i)
    {
      var t1 := Add(Add(Add(Add(h, Ep1(e)), Ch(e, f, g)), RoundConstant(i)), m[i]);
      var t2 := Add(Ep0(a), Maj(a, b, c));
      h := g;
      g := f;
      f := e;
      e := Add(d, t1);
      d := c;
      c := b;
      b := a;
      a := Add(t1, t2);
      i := i + 1;
    }
    r := Registers(a, b, c, d, e, f, g, h);
  }

  method AddFour(state: array<Word>, i: nat, w: Word, x: Word, y: Word, z: Word)
    requires i + 4 <= state.Length
    modifies state
    ensures state[i] == Add(old(state[i]), w) && state[i + 1] == Add(old(state[i + 1]), x)
    ensures state[i + 2] == Add(old(state[i + 2]), y) && state[i + 3] == Add(old(state[i + 3]), z)
    ensures forall j :: 0 <= j < i || i + 4 <= j < state.Length ==> state[j] == old(state[j])
  {
    state[i] := Add(state[i], w);
    state[i + 1] := Add(state[i + 1], x);
    state[i + 2] := Add(state[i + 2], y);
    state[i + 3] := Add(state[i + 3], z);
  }

  method AddTo(state: array<Word>, r: Registers)
    requires state.Length == 8
    modifies state
    ensures state[..] == Added(old(state[..]), r)
  {
    hide Add;
    AddFour(state, 0, r.a, r.b, r.c, r.d);
    AddFour(state, 4, r.e, r.f, r.g, r.h);
  }

  /** _librist_SHA256_Transform. */
  method Transform(state: array<Word>, block: array<Byte>)
    requires state.Length == 8 && block.Length >= BLOCK_SIZE && state as object != block
    modifies state
    ensures state[..] == Compress(old(state[..]), block[..BLOCK_SIZE])
  {
    hide Schedule, Rounds, Added;
    var m := Expand(block);
    var r := Registers(state[0], state[1], state[2], state[3], state[4], state[5], state[6], state[7]);
    r := RunRounds(r, m);
    AddTo(state, r);
  }

  class Context {
    const data: array<Byte>
    var datalen: nat
    var bitlen: nat
    const state: array<Word>

    /** All bytes hashed so far. */
    ghost var absorbed: seq<Byte>

    ghost predicate Separate() {
      data as object != state && data.Length == BLOCK_SIZE && state.Length == 8
    }

    /** What has been absorbed is the whole blocks in the state and the rest in the buffer. */
    ghost predicate Valid()
      reads this, data, state
    {
      && Separate() && datalen < BLOCK_SIZE && datalen <= |absorbed|
      && var whole := |absorbed| - datalen;
         && whole % BLOCK_SIZE == 0
         && state[..] == Fold(absorbed[..whole]) && data[..datalen] == absorbed[whole..]
         && bitlen == 8 * whole % WORD64
    }

    constructor ()
      ensures Valid() && Separate() && absorbed == [] && fresh(data) && fresh(state)
    {
      data := new Byte[BLOCK_SIZE];
      state := new Word[8](i requires 0 <= i < 8 => INITIAL[i]);
      datalen, bitlen, absorbed := 0, 0, [];
    }

    /** The assignment of one context to another. */
    constructor Copy(from: Context)
      requires from.Separate()
      ensures Separate() && state[..] == from.state[..] && absorbed == from.absorbed && fresh(data) && fresh(state)
      ensures from.Valid() ==> Valid()
    {
      hide Fold, INITIAL;
      data := new Byte[BLOCK_SIZE](i requires 0 <= i < from.data.Length reads from.data => from.data[i]);
      state := new Word[8](i requires 0 <= i < from.state.Length reads from.state => from.state[i]);
      datalen, bitlen, absorbed := from.datalen, from.bitlen, from.absorbed;
      new;
      assert state[..] == from.state[..];
      assert datalen <= BLOCK_SIZE ==> data[..datalen] == from.data[..datalen];
    }

    /** _librist_SHA256_Init. */
    method Init()
      requires Separate()
      modifies `datalen, `bitlen, `absorbed, state
      ensures Valid() && absorbed == []
    {
      hide INITIAL;
      datalen, bitlen := 0, 0;
      SetInitial(state);
      absorbed := [];
    }

    /** After exactly one block nothing is left over. */
    lemma OneBlock()
      requires Valid() && |absorbed| == BLOCK_SIZE
      ensures state[..] == Fold(absorbed)
    {
      hide Fold;
      assert datalen == 0;
      assert absorbed[..BLOCK_SIZE] == absorbed;
    }

    /** One turn of the absorbing loop. */
    method Absorb(b: Byte)
      requires Valid()
      modifies `datalen, `bitlen, `absorbed, data, state
      ensures Valid() && absorbed == old(absorbed) + [b]
    {
      hide Fold, Compress;
      ghost var msg, whole := absorbed, |absorbed| - datalen;
      data[datalen] := b;
      datalen := datalen + 1;
      absorbed := absorbed + [b];
      assert absorbed[..whole] == msg[..whole];
      assert data[..datalen] == msg[whole..] + [b];
      if datalen == BLOCK_SIZE {
        LastByte(msg, whole, b, data[..datalen]);
        Transform(state, data);
        bitlen := (bitlen + 512) % WORD64;
        datalen := 0;
      }
    }

    /** _librist_SHA256_Update: absorbs the bytes one by one. */
    method Update(bytes: seq<Byte>)
      requires Valid() && |bytes| < 0x1_0000_0000
      modifies `datalen, `bitlen, `absorbed, data, state
      ensures Valid() && absorbed == old(absorbed) + bytes
    {
      hide Valid;
      var i := 0;
      while i < |bytes|
        invariant 0 <= i <= |bytes| && Valid() && absorbed == old(absorbed) + bytes[..i]
      {
        Absorb(bytes[i]);
        i := i + 1;
      }
    }

    /** Writes the bit that ends the message and zeros from there up to position to. */
    method Pad(to: nat)
      requires Separate() && datalen < to <= BLOCK_SIZE
      modifies data
      ensures data[..to] == old(data[..datalen]) + [0x80] + Zeros(to - datalen - 1)
    {
      var i := datalen;
      data[i] := 0x80;
      i := i + 1;
      while i < to
        invariant datalen < i <= to
        invariant data[..i] == old(data[..datalen]) + [0x80] + Zeros(i - datalen - 1)
      {
        data[i] := 0;
        i := i + 1;
      }
    }

    /** Writes the length in bits into the last eight bytes. */
    method WriteLength()
      requires Separate()
      modifies data
      ensures data[..] == old(data[..56]) + LengthBytes(bitlen)
    {
      hide ByteOf;
      PutFour(data, 60, ByteOf(bitlen / 0x100_0000), ByteOf(bitlen / 0x1_0000), ByteOf(bitlen / 0x100), ByteOf(bitlen));
      PutFour(data, 56, ByteOf(bitlen / 0x100_0000_0000_0000), ByteOf(bitlen / 0x1_0000_0000_0000),
              ByteOf(bitlen / 0x100_0000_0000), ByteOf(bitlen / 0x1_0000_0000));
    }

    /** The i-th bytes of all words of the state. */
    method PutColumn(hash: array<Byte>, i: nat)
      requires Separate() && hash.Length >= HASH_SIZE && hash as object != state && i < 4
      modifies hash
      ensures Column(hash[..], state[..], i)
      ensures forall k :: 0 <= k < hash.Length && (k >= HASH_SIZE || k % 4 != i) ==> hash[k] == old(hash[k])
    {
      hide ByteAt;
      PutSpread(hash, i, ByteAt(state[0], i), ByteAt(state[1], i), ByteAt(state[2], i), ByteAt(state[3], i));
      PutSpread(hash, i + 16, ByteAt(state[4], i), ByteAt(state[5], i), ByteAt(state[6], i), ByteAt(state[7], i));
    }

    /** The bytes of the state. */
    method Extract(hash: array<Byte>)
      requires Separate() && hash.Length >= HASH_SIZE && hash as object != state
      modifies hash
      ensures hash[..HASH_SIZE] == BytesOf(state[..])
      ensures hash[HASH_SIZE..] == old(hash[HASH_SIZE..])
    {
      hide ByteAt, Column, BytesOf;
      var i := 0;
      while i < 4
        invariant 0 <= i <= 4 && |state[..]| == 8
        invariant forall j :: 0 <= j < i ==> Column(hash[..], state[..], j)
        invariant forall k :: HASH_SIZE <= k < hash.Length ==> hash[k] == old(hash[k])
      {
        ghost var before := hash[..];
        PutColumn(hash, i);
        ColumnsKeep(before, hash[..], state[..], i);
        i := i + 1;
      }
      ColumnsMake(hash[..], state[..]);
    }

    /** Zeros in place of the first 56 bytes. */
    method ClearHead()
      requires Separate()
      modifies data
      ensures data[..56] == Zeros(56)
    {
      var i := 0;
      while i < 56
        invariant 0 <= i <= 56 && forall k :: 0 <= k < i ==> data[k] == 0
      {
        data[i] := 0;
        i := i + 1;
      }
    }

    /** The padded blocks. */
    method Finish()
      requires Valid()
      modifies `bitlen, data, state
      ensures state[..] == FinalState(absorbed)
    {
      hide Fold, Compress, FinalState, LengthBytes;
      ghost var whole := |absorbed| - datalen;
      if datalen < 56 {
        PaddedShort(absorbed, whole);
        Pad(56);
      } else {
        PaddedLong(absorbed, whole);
        Pad(64);
        Transform(state, data);
        ClearHead();
      }
      BitsAddUp(whole, datalen);
      bitlen := (bitlen + datalen * 8) % WORD64;
      WriteLength();
      assert data[..BLOCK_SIZE] == data[..];
      Transform(state, data);
    }

    /** _librist_SHA256_Final: pads what is left over and returns the hash of all that was absorbed. */
    method Final(hash: array<Byte>)
      requires Valid() && hash.Length >= HASH_SIZE && hash as object != state && hash != data
      modifies `bitlen, data, state, hash
      ensures state[..] == FinalState(absorbed)
      ensures hash[..HASH_SIZE] == Hash(absorbed) && hash[HASH_SIZE..] == old(hash[HASH_SIZE..])
    {
      Finish();
      Extract(hash);
    }
  }

  /** The parts of a message, put together. */
  function Joined(parts: seq<seq<Byte>>): seq<Byte> {
    if parts == [] then [] else Joined(parts[..|parts| - 1]) + parts[|parts| - 1]
  }

  /** However a message is split into updates, its hash is that of the whole. */
  method HashParts(parts: seq<seq<Byte>>) returns (hash: seq<Byte>)
    requires forall i :: 0 <= i < |parts| ==> |parts[i]| < 0x1_0000_0000
    ensures hash == Hash(Joined(parts))
  {
    hide Context.Valid, Hash;
    var ctx := new Context();
    ctx.Init();
    var i := 0;
    while i < |parts|
      invariant 0 <= i <= |parts| && ctx.Valid() && ctx.absorbed == Joined(parts[..i])
      invariant fresh(ctx) && fresh(ctx.data) && fresh(ctx.state)
    {
      ctx.Update(parts[i]);
      assert parts[..i + 1][..i] == parts[..i];
      i := i + 1;
    }
    assert parts[..|parts|] == parts;
    var out := new Byte[HASH_SIZE];
    ctx.Final(out);
    hash := out[..HASH_SIZE];
  }
}
