/**
  PBKDF2 with HMAC-SHA-256 (librist-master/contrib/fastpbkdf2.c): the fast form against
  section 5.2 of RFC 8018 and section 2 of RFC 2104.
 */
module Pbkdf2 {
  import opened Arithmetic
  import opened BigEndian
  import opened Bytes
  import opened Sha256

  // ----- the textbook form -----

  /** Every byte exclusive-or a constant. */
  function Masked(s: seq<Byte>, m: Byte): (r: seq<Byte>)
    ensures |r| == |s|
    ensures forall i :: 0 <= i < |s| ==> r[i] == m ^ s[i]
  {
    seq(|s|, i requires 0 <= i < |s| => m ^ s[i])
  }

  function XorAll(s: seq<Byte>, t: seq<Byte>): (r: seq<Byte>)
    requires |s| == |t|
    ensures |r| == |s|
    ensures forall i :: 0 <= i < |s| ==> r[i] == s[i] ^ t[i]
  {
    seq(|s|, i requires 0 <= i < |s| => s[i] ^ t[i])
  }

  /** The key as one block: a long one hashed, a short one filled up. */
  function BlockKey(key: seq<Byte>): (k: seq<Byte>)
    ensures |k| == BLOCK_SIZE
  {
    if |key| > BLOCK_SIZE then Hash(key) + Zeros(BLOCK_SIZE - HASH_SIZE) else key + Zeros(BLOCK_SIZE - |key|)
  }

  function InnerBlock(key: seq<Byte>): (b: seq<Byte>)
    ensures |b| == BLOCK_SIZE
  {
    Masked(BlockKey(key), 0x36)
  }

  function OuterBlock(key: seq<Byte>): (b: seq<Byte>)
    ensures |b| == BLOCK_SIZE
  {
    Masked(BlockKey(key), 0x5c)
  }

  /** The state that the key leads to in the inner hash. */
  function InnerState(key: seq<Byte>): (s: seq<Word>)
    ensures |s| == 8
  {
    Fold(InnerBlock(key))
  }

  /** The state that the key leads to in the outer hash. */
  function OuterState(key: seq<Byte>): (s: seq<Word>)
    ensures |s| == 8
  {
    Fold(OuterBlock(key))
  }

  function Hmac(key: seq<Byte>, msg: seq<Byte>): (h: seq<Byte>)
    ensures |h| == HASH_SIZE
  {
    Hash(OuterBlock(key) + Hash(InnerBlock(key) + msg))
  }

  /** A 32-bit number, most significant byte first. */
  function Int32(n: nat): (s: seq<Byte>)
    ensures |s| == 4
  {
    [ByteOf(n / 0x100_0000), ByteOf(n / 0x1_0000), ByteOf(n / 0x100), ByteOf(n)]
  }

  /** The bytes stand for the number, modulo 2^32. */
  lemma Int32Meaning(n: nat)
    ensures Value(Int32(n)) == n % WORD32
  {
    hide ByteOf, Value;
    FourBytes(n);
    assert Int32(n) == [] + [ByteOf(n / 0x100_0000)] + [ByteOf(n / 0x1_0000)] + [ByteOf(n / 0x100)] + [ByteOf(n)];
  }

  /** The 0x36s and 0x5cs of section 2 of RFC 2104. */
  const IPAD: seq<Byte> := seq(BLOCK_SIZE, i => 0x36)
  const OPAD: seq<Byte> := seq(BLOCK_SIZE, i => 0x5c)

  lemma SameBlock(key: seq<Byte>)
    ensures |key| < BLOCK_SIZE ==> BlockKey(key + Zeros(BLOCK_SIZE - |key|)) == BlockKey(key)
    ensures |key| > BLOCK_SIZE ==> BlockKey(Hash(key)) == BlockKey(key)
  {
    hide Hash;
    assert Zeros(0) == [];
  }

  /** A key of one block is added to either pad, a shorter one stands for the block it begins, and a longer one for its hash. */
  lemma HmacMeaning(key: seq<Byte>, msg: seq<Byte>)
    ensures |key| == BLOCK_SIZE ==> Hmac(key, msg) == Hash(XorAll(key, OPAD) + Hash(XorAll(key, IPAD) + msg))
    ensures |key| < BLOCK_SIZE ==> Hmac(key, msg) == Hmac(key + Zeros(BLOCK_SIZE - |key|), msg)
    ensures |key| > BLOCK_SIZE ==> Hmac(key, msg) == Hmac(Hash(key), msg)
  {
    hide Hash;
    if |key| == BLOCK_SIZE {
      assert BlockKey(key) == key;
      assert InnerBlock(key) == XorAll(key, IPAD) && OuterBlock(key) == XorAll(key, OPAD);
    } else {
      SameBlock(key);
    }
  }

  /** The c-th iterate for the block with the given number. */
  function U(password: seq<Byte>, salt: seq<Byte>, number: nat, c: nat): (u: seq<Byte>)
    requires c > 0
    ensures |u| == HASH_SIZE
  {
    if c == 1 then Hmac(password, salt + Int32(number)) else Hmac(password, U(password, salt, number, c - 1))
  }

  /** The exclusive-or of the first c iterates. */
  function T(password: seq<Byte>, salt: seq<Byte>, number: nat, c: nat): (t: seq<Byte>)
    requires c > 0
    ensures |t| == HASH_SIZE
  {
    if c == 1 then U(password, salt, number, 1)
    else XorAll(T(password, salt, number, c - 1), U(password, salt, number, c))
  }

  /** The first n blocks of the derived key. */
  function Blocks(password: seq<Byte>, salt: seq<Byte>, c: nat, n: nat): (s: seq<Byte>)
    requires c > 0
    ensures |s| == HASH_SIZE * n
  {
    if n == 0 then [] else Blocks(password, salt, c, n - 1) + T(password, salt, n, c)
  }

  lemma FirstBlock(password: seq<Byte>, salt: seq<Byte>, c: nat)
    requires c > 0
    ensures Blocks(password, salt, c, 1) == T(password, salt, 1, c)
  {
    hide T;
    assert Blocks(password, salt, c, 0) == [];
  }

  lemma ZeroAndOne()
    ensures ByteOf(0) == 0 && ByteOf(1) == 1
  {
  }

  lemma NumberOne()
    ensures Int32(1) == [0, 0, 0, 1]
  {
    hide ByteOf;
    ZeroAndOne();
  }

  /** After two iterations the key begins with the sum of two: of the salt and the number one, and of the first of them. */
  lemma DerivedKeyBegins(password: seq<Byte>, salt: seq<Byte>)
    ensures var u := Hmac(password, salt + [0, 0, 0, 1]);
            Blocks(password, salt, 1, 1) == u && Blocks(password, salt, 2, 1) == XorAll(u, Hmac(password, u))
  {
    hide Hmac;
    var u := Hmac(password, salt + [0, 0, 0, 1]);
    NumberOne();
    assert U(password, salt, 1, 1) == u && U(password, salt, 1, 2) == Hmac(password, u);
    FirstBlock(password, salt, 1);
    FirstBlock(password, salt, 2);
  }

  // ----- why the fast loop is right -----

  /** What pads a hash behind one whole block. */
  function PadTail(): (s: seq<Byte>)
    ensures |s| == BLOCK_SIZE - HASH_SIZE
  {
    [0x80] + Zeros(23) + LengthBytes(768)
  }

  /** Hashing one block and a hash is one more compression of the block's state. */
  lemma OneCompression(block: seq<Byte>, u: seq<Byte>)
    requires |block| == BLOCK_SIZE && |u| == HASH_SIZE
    ensures FinalState(block + u) == Compress(Fold(block), u + PadTail())
  {
    hide Fold, Compress, LengthBytes;
    assert Padding(96) == PadTail();
    assert block + u + Padding(96) == block + (u + PadTail());
    FoldNext(block, u + PadTail());
  }

  /** The next iterate from the two states that the key leads to. */
  lemma FastIterate(key: seq<Byte>, u: seq<Byte>)
    requires |u| == HASH_SIZE
    ensures var inner := BytesOf(Compress(InnerState(key), u + PadTail()));
            Hmac(key, u) == BytesOf(Compress(OuterState(key), inner + PadTail()))
  {
    hide Fold, Compress, PadTail, InnerBlock, OuterBlock;
    OneCompression(InnerBlock(key), u);
    OneCompression(OuterBlock(key), Hash(InnerBlock(key) + u));
  }

  function XorWord(x: Word, y: Word): Word {
    x ^ y
  }

  function XorWords(s: seq<Word>, t: seq<Word>): (r: seq<Word>)
    requires |s| == |t|
    ensures |r| == |s|
    ensures forall i :: 0 <= i < |s| ==> r[i] == XorWord(s[i], t[i])
  {
    seq(|s|, i requires 0 <= i < |s| => XorWord(s[i], t[i]))
  }

  lemma XorLowByte(x: Word, y: Word)
    ensures ((x ^ y) & 0xff) as Byte == ((x & 0xff) as Byte) ^ ((y & 0xff) as Byte)
  {
  }

  lemma XorShifts(x: Word, y: Word)
    ensures (x ^ y) >> 24 == (x >> 24) ^ (y >> 24)
    ensures (x ^ y) >> 16 == (x >> 16) ^ (y >> 16)
    ensures (x ^ y) >> 8 == (x >> 8) ^ (y >> 8)
  {
  }

  lemma XorByte(x: Word, y: Word, i: nat)
    requires i < 4
    ensures ByteAt(XorWord(x, y), i) == ByteAt(x, i) ^ ByteAt(y, i)
  {
    XorShifts(x, y);
    if i == 0 {
      XorLowByte(x >> 24, y >> 24);
    } else if i == 1 {
      XorLowByte(x >> 16, y >> 16);
    } else if i == 2 {
      XorLowByte(x >> 8, y >> 8);
    } else {
      XorLowByte(x, y);
    }
  }

  /** Exclusive-or of words is exclusive-or of their bytes. */
  lemma XorBytes(s: seq<Word>, t: seq<Word>)
    requires |s| == |t|
    ensures BytesOf(XorWords(s, t)) == XorAll(BytesOf(s), BytesOf(t))
  {
    hide ByteAt, XorWord;
    var a, b, c := BytesOf(XorWords(s, t)), BytesOf(s), BytesOf(t);
    forall i | 0 <= i < 4 * |s|
      ensures a[i] == b[i] ^ c[i]
    {
      XorByte(s[i / 4], t[i / 4], i % 4);
    }
  }

  // ----- HMAC over contexts -----

  method HashKey(key: seq<Byte>, inner: Context) returns (k: seq<Byte>)
    requires inner.Separate() && |key| < WORD32
    modifies inner, inner.data, inner.state
    ensures k == Hash(key)
  {
    hide Context.Valid, Hash;
    inner.Init();
    inner.Update(key);
    var hash := new Byte[HASH_SIZE];
    inner.Final(hash);
    k := hash[..HASH_SIZE];
    assert [] + key == key;
  }

  lemma KeyFits(key: seq<Byte>)
    ensures |key| > BLOCK_SIZE ==> BlockKey(key) == Hash(key) + Zeros(BLOCK_SIZE - HASH_SIZE)
    ensures |key| < BLOCK_SIZE ==> BlockKey(key) == key + Zeros(BLOCK_SIZE - |key|)
    ensures |key| == BLOCK_SIZE ==> BlockKey(key) == key
  {
  }

  /** The key as one block; a long key is hashed with the inner context. */
  method PrepareKey(key: seq<Byte>, inner: Context) returns (k: seq<Byte>)
    requires inner.Separate() && |key| < WORD32
    modifies inner, inner.data, inner.state
    ensures k == BlockKey(key)
  {
    hide Context.Valid, BlockKey, Hash, Zeros;
    KeyFits(key);
    k := key;
    if |key| > BLOCK_SIZE {
      k := HashKey(key, inner);
    }
    if BLOCK_SIZE > |k| {
      k := k + Zeros(BLOCK_SIZE - |k|);
    }
  }

  method MaskBlock(k: seq<Byte>, m: Byte) returns (blk: seq<Byte>)
    ensures blk == Masked(k, m)
  {
    blk := [];
    var i := 0;
    while i < |k|
      invariant 0 <= i <= |k| && |blk| == i && forall j :: 0 <= j < i ==> blk[j] == m ^ k[j]
    {
      blk := blk + [m ^ k[i]];
      i := i + 1;
    }
  }

  lemma BlocksAre(key: seq<Byte>, k: seq<Byte>, blkInner: seq<Byte>, blkOuter: seq<Byte>)
    requires k == BlockKey(key) && blkInner == Masked(k, 0x36) && blkOuter == Masked(k, 0x5c)
    ensures blkInner == InnerBlock(key) && blkOuter == OuterBlock(key)
  {
  }

  class HmacContext {
    const inner: Context
    const outer: Context

    /** The parts of both contexts are different objects. */
    ghost predicate Apart() {
      && inner != outer && inner.Separate() && outer.Separate()
      && inner.data != outer.data && inner.state != outer.state
      && inner.data as object != outer.state && outer.data as object != inner.state
    }

    ghost predicate Valid()
      reads inner, inner.data, inner.state, outer, outer.data, outer.state
    {
      Apart() && inner.Valid() && outer.Valid()
    }

    /** Both contexts have absorbed the block that the key makes for them, and nothing else. */
    ghost predicate Primed(key: seq<Byte>)
      reads inner, inner.data, inner.state, outer, outer.data, outer.state
    {
      Valid() && inner.absorbed == InnerBlock(key) && outer.absorbed == OuterBlock(key)
    }

    /** HMAC_INIT. */
    method Init(key: seq<Byte>)
      requires Apart() && |key| < WORD32
      modifies inner, inner.data, inner.state, outer, outer.data, outer.state
      ensures Primed(key)
    {
      hide Context.Valid, InnerBlock, OuterBlock, BlockKey, Masked;
      var k := PrepareKey(key, inner);
      var blkInner := MaskBlock(k, 0x36);
      var blkOuter := MaskBlock(k, 0x5c);
      BlocksAre(key, k, blkInner, blkOuter);
      inner.Init();
      inner.Update(blkInner);
      outer.Init();
      outer.Update(blkOuter);
    }

    constructor (key: seq<Byte>)
      requires |key| < WORD32
      ensures Primed(key)
      ensures fresh(inner) && fresh(inner.data) && fresh(inner.state)
      ensures fresh(outer) && fresh(outer.data) && fresh(outer.state)
    {
      hide Context.Valid;
      inner := new Context();
      outer := new Context();
      new;
      Init(key);
    }

    /** The assignment of one HMAC context to another. */
    constructor Copy(from: HmacContext)
      requires from.Valid()
      ensures Valid() && inner.absorbed == from.inner.absorbed && outer.absorbed == from.outer.absorbed
      ensures fresh(inner) && fresh(inner.data) && fresh(inner.state)
      ensures fresh(outer) && fresh(outer.data) && fresh(outer.state)
    {
      hide Context.Valid;
      inner := new Context.Copy(from.inner);
      outer := new Context.Copy(from.outer);
    }

    /** HMAC_UPDATE. */
    method Update(bytes: seq<Byte>)
      requires Valid() && |bytes| < WORD32
      modifies inner, inner.data, inner.state
      ensures Valid() && inner.absorbed == old(inner.absorbed) + bytes && outer.absorbed == old(outer.absorbed)
    {
      inner.Update(bytes);
    }

    /** HMAC_FINAL. */
    method Final(out: array<Byte>)
      requires Valid() && out.Length >= HASH_SIZE
      requires out != inner.data && out != outer.data && out as object != inner.state && out as object != outer.state
      modifies inner, inner.data, inner.state, outer, outer.data, outer.state, out
      ensures outer.state[..] == FinalState(old(outer.absorbed) + Hash(old(inner.absorbed)))
      ensures out[..HASH_SIZE] == BytesOf(outer.state[..]) && out[HASH_SIZE..] == old(out[HASH_SIZE..])
    {
      hide Context.Valid, FinalState, BytesOf;
      inner.Final(out);
      outer.Update(out[..HASH_SIZE]);
      outer.Final(out);
    }
  }

  // ----- the fast loop -----

  /** md_pad: what pads a message of msg bytes whose last part stands in the first used bytes of the block. */
  method MdPad(block: array<Byte>, used: nat, msg: nat)
    requires block.Length == BLOCK_SIZE && used + 5 <= BLOCK_SIZE
    modifies block
    ensures block[..used] == old(block[..used])
    ensures block[used..] == [0x80] + Zeros(BLOCK_SIZE - used - 5) + Int32(8 * msg % WORD32)
  {
    hide ByteOf;
    var i := used;
    while i < BLOCK_SIZE - 4
      invariant used <= i <= BLOCK_SIZE - 4
      invariant forall j :: 0 <= j < used ==> block[j] == old(block[j])
      invariant forall j :: used <= j < i ==> block[j] == 0
    {
      block[i] := 0;
      i := i + 1;
    }
    block[used] := 0x80;
    var n := 8 * msg % WORD32;
    PutFour(block, BLOCK_SIZE - 4, ByteOf(n / 0x100_0000), ByteOf(n / 0x1_0000), ByteOf(n / 0x100), ByteOf(n));
  }

  lemma LengthOf96()
    ensures LengthBytes(768) == Zeros(4) + Int32(768) && 8 * 96 % WORD32 == 768
  {
    assert ByteOf(0) == 0;
  }

  /** The padding that the fast loop prepares once is the one hashing would add each time. */
  lemma PadIsTail()
    ensures [0x80] + Zeros(BLOCK_SIZE - HASH_SIZE - 5) + Int32(8 * 96 % WORD32) == PadTail()
  {
    LengthOf96();
    hide LengthBytes, Int32, ByteOf;
    assert Zeros(27) == Zeros(23) + Zeros(4);
  }

  /** sha256_cpy. */
  method CopyState(to: array<Word>, from: array<Word>)
    requires to.Length == 8 == from.Length && to != from
    modifies to
    ensures to[..] == from[..]
  {
    to[0], to[1], to[2], to[3] := from[0], from[1], from[2], from[3];
    to[4], to[5], to[6], to[7] := from[4], from[5], from[6], from[7];
    assert forall i :: 0 <= i < 8 ==> to[i] == from[i];
  }

  method XorFour(a: array<Word>, i: nat, w: Word, x: Word, y: Word, z: Word)
    requires i + 4 <= a.Length
    modifies a
    ensures a[i] == XorWord(old(a[i]), w) && a[i + 1] == XorWord(old(a[i + 1]), x)
    ensures a[i + 2] == XorWord(old(a[i + 2]), y) && a[i + 3] == XorWord(old(a[i + 3]), z)
    ensures forall j :: 0 <= j < i || i + 4 <= j < a.Length ==> a[j] == old(a[j])
  {
    hide XorWord;
    a[i] := XorWord(a[i], w);
    a[i + 1] := XorWord(a[i + 1], x);
    a[i + 2] := XorWord(a[i + 2], y);
    a[i + 3] := XorWord(a[i + 3], z);
  }

  /** sha256_xor. */
  method XorState(to: array<Word>, from: array<Word>)
    requires to.Length == 8 == from.Length && to != from
    modifies to
    ensures to[..] == XorWords(old(to[..]), from[..])
  {
    hide XorWord;
    XorFour(to, 0, from[0], from[1], from[2], from[3]);
    XorFour(to, 4, from[4], from[5], from[6], from[7]);
  }

  /** One half of the fast iteration: the copied state takes in the padded block, and its bytes go back there. */
  method Half(ctx: Context, start: Context, block: array<Byte>)
    requires ctx.Separate() && start.Separate() && ctx.state != start.state && block.Length == BLOCK_SIZE
    requires block as object != ctx.state && block as object != start.state && block[HASH_SIZE..] == PadTail()
    modifies ctx.state, block
    ensures ctx.state[..] == Compress(start.state[..], old(block[..HASH_SIZE]) + PadTail())
    ensures block[..HASH_SIZE] == BytesOf(ctx.state[..]) && block[HASH_SIZE..] == PadTail()
  {
    hide Compress, BytesOf, PadTail;
    CopyState(ctx.state, start.state);
    assert block[..BLOCK_SIZE] == block[..HASH_SIZE] + block[HASH_SIZE..];
    Transform(ctx.state, block);
    ctx.Extract(block);
  }

  // ----- one block of the derived key -----

  /** What the fast loop knows after c iterations. */
  ghost predicate Iterated(password: seq<Byte>, salt: seq<Byte>, number: nat, c: nat, block: seq<Byte>, result: seq<Word>) {
    && c > 0 && |block| == BLOCK_SIZE && |result| == 8
    && block[..HASH_SIZE] == U(password, salt, number, c) && block[HASH_SIZE..] == PadTail()
    && BytesOf(result) == T(password, salt, number, c)
  }

  lemma FirstIterate(password: seq<Byte>, salt: seq<Byte>, number: nat, block: seq<Byte>, result: seq<Word>)
    requires |block| == BLOCK_SIZE && |result| == 8 && block[HASH_SIZE..] == PadTail() && block[..HASH_SIZE] == BytesOf(result)
    requires result == FinalState(OuterBlock(password) + Hash(InnerBlock(password) + salt + Int32(number)))
    ensures Iterated(password, salt, number, 1, block, result)
  {
    hide FinalState, BytesOf, PadTail, InnerBlock, OuterBlock, Int32;
    assert InnerBlock(password) + salt + Int32(number) == InnerBlock(password) + (salt + Int32(number));
  }

  lemma NextIterate(password: seq<Byte>, salt: seq<Byte>, number: nat, c: nat,
                    block: seq<Byte>, result: seq<Word>, mid: seq<Byte>, block': seq<Byte>, state: seq<Word>)
    requires Iterated(password, salt, number, c, block, result)
    requires |block'| == BLOCK_SIZE && block'[HASH_SIZE..] == PadTail()
    requires |mid| == HASH_SIZE && mid == BytesOf(Compress(InnerState(password), block[..HASH_SIZE] + PadTail()))
    requires state == Compress(OuterState(password), mid + PadTail()) && block'[..HASH_SIZE] == BytesOf(state)
    ensures Iterated(password, salt, number, c + 1, block', XorWords(result, state))
  {
    hide InnerState, OuterState, Compress, BytesOf, PadTail, InnerBlock, OuterBlock;
    FastIterate(password, block[..HASH_SIZE]);
    XorBytes(result, state);
  }

  /** The states of a primed context are those of the two blocks. */
  lemma PrimedStates(ctx: HmacContext, key: seq<Byte>)
    requires ctx.Primed(key)
    ensures ctx.inner.state[..] == InnerState(key) && ctx.outer.state[..] == OuterState(key)
  {
    hide Fold, Context.Valid, InnerBlock, OuterBlock;
    ctx.inner.OneBlock();
    ctx.outer.OneBlock();
  }

  /** One turn of the fast loop. */
  method FastRound(ctx: HmacContext, start: HmacContext, block: array<Byte>, ghost key: seq<Byte>) returns (ghost mid: seq<Byte>)
    requires ctx.Apart() && start.Apart() && block.Length == BLOCK_SIZE && block[HASH_SIZE..] == PadTail()
    requires ctx.inner.state != start.inner.state && ctx.inner.state != start.outer.state && ctx.outer.state != start.outer.state
    requires block as object != ctx.inner.state && block as object != ctx.outer.state
    requires block as object != start.inner.state && block as object != start.outer.state
    requires start.inner.state[..] == InnerState(key) && start.outer.state[..] == OuterState(key)
    modifies ctx.inner.state, ctx.outer.state, block
    ensures block[HASH_SIZE..] == PadTail() && |mid| == HASH_SIZE
    ensures mid == BytesOf(Compress(InnerState(key), old(block[..HASH_SIZE]) + PadTail()))
    ensures ctx.outer.state[..] == Compress(OuterState(key), mid + PadTail())
    ensures block[..HASH_SIZE] == BytesOf(ctx.outer.state[..])
  {
    hide InnerState, OuterState, Compress, BytesOf, PadTail;
    Half(ctx.inner, start.inner, block);
    mid := block[..HASH_SIZE];
    Half(ctx.outer, start.outer, block);
  }

  /** The first iteration, with the padding block prepared for the others. */
  method FirstRound(start: HmacContext, number: nat, salt: seq<Byte>, ghost password: seq<Byte>)
    returns (ctx: HmacContext, block: array<Byte>, result: Context)
    requires start.Primed(password) && |salt| < WORD32
    ensures fresh(ctx) && fresh(ctx.inner) && fresh(ctx.inner.state) && fresh(ctx.outer) && fresh(ctx.outer.state)
    ensures fresh(block) && fresh(result) && fresh(result.state) && ctx.Apart() && result.Separate() && block.Length == BLOCK_SIZE
    ensures block as object != ctx.inner.state && block as object != ctx.outer.state && block as object != result.state
    ensures result.state != ctx.outer.state && result.state != ctx.inner.state
    ensures Iterated(password, salt, number, 1, block[..], result.state[..])
  {
    hide Context.Valid, InnerBlock, OuterBlock, FinalState, BytesOf, PadTail, Int32, Iterated;
    block := new Byte[BLOCK_SIZE];
    MdPad(block, HASH_SIZE, BLOCK_SIZE + HASH_SIZE);
    PadIsTail();
    ctx := new HmacContext.Copy(start);
    ctx.Update(salt);
    ctx.Update(Int32(number));
    ctx.Final(block);
    result := new Context.Copy(ctx.outer);
    FirstIterate(password, salt, number, block[..], result.state[..]);
  }

  /** The next iteration. */
  method NextRound(ctx: HmacContext, start: HmacContext, block: array<Byte>, result: array<Word>,
                   ghost password: seq<Byte>, ghost salt: seq<Byte>, ghost number: nat, ghost c: nat)
    requires ctx.Apart() && start.Apart() && block.Length == BLOCK_SIZE && result.Length == 8
    requires ctx.inner.state != start.inner.state && ctx.inner.state != start.outer.state && ctx.outer.state != start.outer.state
    requires block as object != ctx.inner.state && block as object != ctx.outer.state && block as object != result
    requires block as object != start.inner.state && block as object != start.outer.state
    requires result != ctx.inner.state && result != ctx.outer.state
    requires start.inner.state[..] == InnerState(password) && start.outer.state[..] == OuterState(password)
    requires Iterated(password, salt, number, c, block[..], result[..])
    modifies ctx.inner.state, ctx.outer.state, block, result
    ensures Iterated(password, salt, number, c + 1, block[..], result[..])
  {
    hide InnerState, OuterState, Compress, BytesOf, PadTail, T, U, XorWords;
    ghost var before, r := block[..], result[..];
    ghost var mid := FastRound(ctx, start, block, password);
    XorState(result, ctx.outer.state);
    NextIterate(password, salt, number, c, before, r, mid, block[..], ctx.outer.state[..]);
  }

  /** The fast loop. */
  method Iterate(ctx: HmacContext, start: HmacContext, block: array<Byte>, result: array<Word>, iterations: nat,
                 ghost password: seq<Byte>, ghost salt: seq<Byte>, ghost number: nat)
    requires ctx.Apart() && start.Apart() && block.Length == BLOCK_SIZE && result.Length == 8 && iterations > 0
    requires ctx.inner.state != start.inner.state && ctx.inner.state != start.outer.state && ctx.outer.state != start.outer.state
    requires block as object != ctx.inner.state && block as object != ctx.outer.state && block as object != result
    requires block as object != start.inner.state && block as object != start.outer.state
    requires result != ctx.inner.state && result != ctx.outer.state
    requires result != start.inner.state && result != start.outer.state && ctx.outer.state != start.inner.state
    requires start.inner.state[..] == InnerState(password) && start.outer.state[..] == OuterState(password)
    requires Iterated(password, salt, number, 1, block[..], result[..])
    modifies ctx.inner.state, ctx.outer.state, block, result
    ensures Iterated(password, salt, number, iterations, block[..], result[..])
  {
    hide InnerState, OuterState, Iterated;
    var i := 1;
    while i < iterations
      invariant 1 <= i <= iterations && Iterated(password, salt, number, i, block[..], result[..])
      invariant start.inner.state[..] == InnerState(password) && start.outer.state[..] == OuterState(password)
    {
      NextRound(ctx, start, block, result, password, salt, number, i);
      i := i + 1;
    }
  }

  lemma LastIterate(password: seq<Byte>, salt: seq<Byte>, number: nat, c: nat, block: seq<Byte>, result: seq<Word>)
    requires Iterated(password, salt, number, c, block, result)
    ensures c > 0 && BytesOf(result) == T(password, salt, number, c)
  {
  }

  /** The state whose bytes are one block of the derived key. */
  method Digest(start: HmacContext, number: nat, salt: seq<Byte>, iterations: nat, ghost password: seq<Byte>)
    returns (result: Context)
    requires start.Primed(password) && |salt| < WORD32 && iterations > 0
    ensures fresh(result) && fresh(result.state) && result.Separate()
    ensures BytesOf(result.state[..]) == T(password, salt, number, iterations)
  {
    PrimedStates(start, password);
    hide Context.Valid, InnerState, OuterState, BytesOf, T, U, InnerBlock, OuterBlock, Iterated;
    var ctx, block;
    ctx, block, result := FirstRound(start, number, salt, password);
    Iterate(ctx, start, block, result.state, iterations, password, salt, number);
    LastIterate(password, salt, number, iterations, block[..], result.state[..]);
  }

  /** PBKDF2_F: one block of the derived key, by midstates and prepared padding. */
  method F(start: HmacContext, number: nat, salt: seq<Byte>, iterations: nat, out: array<Byte>, ghost password: seq<Byte>)
    requires start.Primed(password) && |salt| < WORD32 && iterations > 0 && out.Length >= HASH_SIZE
    modifies out
    ensures out[..HASH_SIZE] == T(password, salt, number, iterations)
    ensures out[HASH_SIZE..] == old(out[HASH_SIZE..])
  {
    hide Context.Valid, BytesOf, T, U, InnerBlock, OuterBlock;
    var result := Digest(start, number, salt, iterations, password);
    result.Extract(out);
  }

  // ----- the derived key -----

  /** How many bytes of the output are written: the number of blocks is computed in 32 bits. */
  function Written(nout: nat): (n: nat)
    ensures n <= nout
  {
    var blocks := (nout + HASH_SIZE - 1) % WORD32 / HASH_SIZE;
    if nout <= blocks * HASH_SIZE then nout else blocks * HASH_SIZE
  }

  /** All of the output is written exactly if its length, rounded up, fits 32 bits. */
  lemma WholeOutput(nout: nat)
    requires nout > 0
    ensures Written(nout) == nout <==> nout + HASH_SIZE - 1 < WORD32
  {
  }

  /** The start of the derived key, which any longer run of blocks begins with. */
  lemma {:induction false} BlocksBegin(password: seq<Byte>, salt: seq<Byte>, c: nat, n: nat, m: nat)
    requires c > 0 && n <= m
    ensures Blocks(password, salt, c, n) <= Blocks(password, salt, c, m)
  {
    hide T;
    if n < m {
      BlocksBegin(password, salt, c, n, m - 1);
    }
  }

  lemma TakeBlock(password: seq<Byte>, salt: seq<Byte>, c: nat, n: nat, block: seq<Byte>, taken: nat)
    requires c > 0 && block == T(password, salt, n + 1, c) && taken <= HASH_SIZE
    ensures Blocks(password, salt, c, n + 1)[..HASH_SIZE * n + taken] == Blocks(password, salt, c, n) + block[..taken]
  {
    hide T;
  }

  /** Writes one block, or what of it still fits, behind those before. */
  method PutBlock(out: array<Byte>, offset: nat, block: array<Byte>, taken: nat)
    requires out != block && offset + taken <= out.Length && taken <= block.Length
    modifies out
    ensures out[..offset + taken] == old(out[..offset]) + block[..taken]
    ensures out[offset + taken..] == old(out[offset + taken..])
  {
    var i := 0;
    while i < taken
      invariant 0 <= i <= taken && out[..offset] == old(out[..offset])
      invariant forall j :: 0 <= j < i ==> out[offset + j] == block[j]
      invariant forall j :: offset + taken <= j < out.Length ==> out[j] == old(out[j])
    {
      out[offset + i] := block[i];
      i := i + 1;
    }
  }

  /** One turn of the loop over the blocks. */
  method Block(start: HmacContext, counter: nat, salt: seq<Byte>, iterations: nat, out: array<Byte>, nout: nat,
               ghost password: seq<Byte>)
    requires start.Primed(password) && |salt| < WORD32 && iterations > 0 && counter > 0
    requires HASH_SIZE * (counter - 1) <= nout <= out.Length
    requires out != start.inner.data && out != start.outer.data
    requires out as object != start.inner.state && out as object != start.outer.state
    requires out[..HASH_SIZE * (counter - 1)] == Blocks(password, salt, iterations, counter - 1)
    modifies out
    ensures start.Primed(password)
    ensures var done := if HASH_SIZE * counter <= nout then HASH_SIZE * counter else nout;
            && out[..done] == Blocks(password, salt, iterations, counter)[..done]
            && out[done..] == old(out[done..])
  {
    hide Context.Valid, InnerBlock, OuterBlock, T, Blocks;
    var block := new Byte[HASH_SIZE];
    F(start, counter, salt, iterations, block, password);
    var offset := (counter - 1) * HASH_SIZE;
    var taken := if nout - offset > HASH_SIZE then HASH_SIZE else nout - offset;
    TakeBlock(password, salt, iterations, counter - 1, block[..HASH_SIZE], taken);
    PutBlock(out, offset, block, taken);
  }

  lemma NoBlocks(password: seq<Byte>, salt: seq<Byte>, c: nat)
    requires c > 0
    ensures Blocks(password, salt, c, 0) == []
  {
  }

  /**
    PBKDF2: the output is the start of the derived key, and nothing behind it is touched;
    it is whole unless nout comes within a block of 2^32.
   */
  method DeriveKey(password: seq<Byte>, salt: seq<Byte>, iterations: nat, out: array<Byte>, nout: nat)
    requires |password| < WORD32 && |salt| < WORD32 && iterations > 0 && 0 < nout <= out.Length
    modifies out
    ensures Written(nout) <= |Blocks(password, salt, iterations, (nout + HASH_SIZE - 1) / HASH_SIZE)|
    ensures out[..Written(nout)] == Blocks(password, salt, iterations, (nout + HASH_SIZE - 1) / HASH_SIZE)[..Written(nout)]
    ensures out[Written(nout)..] == old(out[Written(nout)..])
  {
    hide Context.Valid, InnerBlock, OuterBlock, Blocks;
    var ctx := new HmacContext(password);
    var blocksNeeded := (nout + HASH_SIZE - 1) % WORD32 / HASH_SIZE;
    var counter := 1;
    ghost var done := 0;
    NoBlocks(password, salt, iterations);
    while counter <= blocksNeeded
      invariant 1 <= counter <= blocksNeeded + 1 && ctx.Primed(password)
      invariant done == if HASH_SIZE * (counter - 1) <= nout then HASH_SIZE * (counter - 1) else nout
      invariant out[..done] == Blocks(password, salt, iterations, counter - 1)[..done]
      invariant out[done..] == old(out[done..])
    {
      Block(ctx, counter, salt, iterations, out, nout, password);
      done := if HASH_SIZE * counter <= nout then HASH_SIZE * counter else nout;
      counter := counter + 1;
    }
    BlocksBegin(password, salt, iterations, blocksNeeded, (nout + HASH_SIZE - 1) / HASH_SIZE);
  }
}
