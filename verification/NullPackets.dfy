/**
  Leaving out null transport packets and putting them back
  (librist-master/src/mpegts.c:12-92); packets are those of section 2.4.3.2 of
  ISO/IEC 13818-1.
 */
module NullPackets {
  import opened Bits
  import opened Bytes

  /** The fields of the header extension that these functions touch; the sender starts with both zero. */
  datatype Header = Header(flags: nat, npdBits: nat)

  // ----- packets in a payload -----

  /** Where the n-th packet starts. */
  function Start(size: nat, n: nat): nat {
    if n == 0 then 0 else Start(size, n - 1) + size
  }

  lemma {:induction false} StartIs(size: nat, n: nat)
    ensures Start(size, n) == n * size
  {
    if n > 0 {
      StartIs(size, n - 1);
      assert n * size == (n - 1) * size + size;
    }
  }

  lemma {:induction false} StartGrows(size: nat, n: nat, m: nat)
    requires n <= m
    ensures Start(size, n) <= Start(size, m)
    ensures n < m ==> Start(size, n) + size <= Start(size, m)
  {
    if n < m {
      StartGrows(size, n, m - 1);
    }
  }

  function PacketAt(s: seq<Byte>, size: nat, i: nat): (p: seq<Byte>)
    requires Start(size, i + 1) <= |s|
    ensures |p| == size
  {
    s[Start(size, i)..Start(size, i + 1)]
  }

  /** All sixteen bits behind the sync byte are those of a null packet without any flag. */
  predicate IsNull(p: seq<Byte>) {
    |p| >= 4 && p[1] == 0x1f && p[2] == 0xff
  }

  /** The packet that stands in for a suppressed one. */
  function NullPacket(size: nat): (p: seq<Byte>)
    requires size >= 4
    ensures |p| == size && IsNull(p)
  {
    [0x47, 0x1f, 0xff, 0x10] + seq(size - 4, i => 0xff)
  }

  /** The packet identifier: the lower five bits of the second byte, and the third. */
  function PacketId(p: seq<Byte>): bv16
    requires |p| >= 4
  {
    (((p[1] & 0x1f) as bv16) << 8) | (p[2] as bv16)
  }

  /** A packet is taken for a null packet exactly if it has the identifier of null packets, and none of the three flags before it. */
  lemma IsNullMeaning(p: seq<Byte>)
    requires |p| >= 4
    ensures IsNull(p) <==> PacketId(p) == 0x1fff && p[1] & 0xe0 == 0
  {
  }

  /**
    The packet that stands in has the sync byte and the identifier of null packets, no
    flag, not scrambled, a payload and no adaptation field, counter zero, and every bit
    of the payload set.
   */
  lemma NullPacketMeaning(size: nat)
    requires size >= 4
    ensures var p := NullPacket(size);
            && p[0] == 0x47 && PacketId(p) == 0x1fff && p[1] & 0xe0 == 0
            && p[3] & 0xc0 == 0 && (p[3] >> 4) & 0x03 == 1 && p[3] & 0x0f == 0
            && forall i :: 4 <= i < size ==> p[i] == 0xff
  {
    IsNullMeaning(NullPacket(size));
  }

  /** The packets among the first n that are not null, one after the other. */
  function Kept(s: seq<Byte>, size: nat, n: nat): seq<Byte>
    requires Start(size, n) <= |s|
  {
    if n == 0 then []
    else Kept(s, size, n - 1) + (if IsNull(PacketAt(s, size, n - 1)) then [] else PacketAt(s, size, n - 1))
  }

  /** How many of the first n packets are null. */
  function Nulls(s: seq<Byte>, size: nat, n: nat): (k: nat)
    requires Start(size, n) <= |s|
    ensures k <= n
  {
    if n == 0 then 0 else Nulls(s, size, n - 1) + (if IsNull(PacketAt(s, size, n - 1)) then 1 else 0)
  }

  /** A bit for every null packet among the first n, from bit 6 down. */
  function MaskOf(s: seq<Byte>, size: nat, n: nat, bits: nat): nat
    requires Start(size, n) <= |s| && n <= 7
  {
    if n == 0 then bits
    else
      var m := MaskOf(s, size, n - 1, bits);
      if IsNull(PacketAt(s, size, n - 1)) then SetBit(m, 7 - n) else m
  }

  /** The first n packets, null packets in their plainest form. */
  function Canonical(s: seq<Byte>, size: nat, n: nat): (c: seq<Byte>)
    requires Start(size, n) <= |s| && size >= 4
    ensures |c| == Start(size, n)
  {
    if n == 0 then []
    else Canonical(s, size, n - 1) + (if IsNull(PacketAt(s, size, n - 1)) then NullPacket(size) else PacketAt(s, size, n - 1))
  }

  // ----- the choice of packet size -----

  function PacketSize(len: nat): nat {
    if len % 188 == 0 then 188 else 204
  }

  /** No payload of up to seven packets can be read both ways. */
  lemma SizeIsClear(count: nat)
    requires 0 < count <= 7
    ensures PacketSize(count * 188) == 188 && PacketSize(count * 204) == 204
  {
    if count <= 3 {
    } else if count <= 5 {
    } else {
    }
  }

  /** What the suppressing function refuses. */
  predicate Refused(s: seq<Byte>)
    requires s != []
  {
    |s| % PacketSize(|s|) != 0 || |s| / PacketSize(|s|) > 7 || s[0] != 0x47
  }

  predicate IsWhole(len: nat, n: nat) {
    len == n * 188 || len == n * 204
  }

  /** Accepted are one to seven whole packets of either size that begin with a sync byte. */
  lemma RefusedMeaning(s: seq<Byte>)
    requires s != []
    ensures !Refused(s) <==> s[0] == 0x47 && exists n :: 1 <= n <= 7 && IsWhole(|s|, n)
  {
    if !Refused(s) {
      assert IsWhole(|s|, |s| / PacketSize(|s|));
    }
    if n :| 1 <= n <= 7 && IsWhole(|s|, n) {
      SizeIsClear(n);
    }
  }

  // ----- expanding -----

  /** How many of the bits 6, 5, ... of the first n are set. */
  function Ones(bits: nat, n: nat): (k: nat)
    requires n <= 7
    ensures k <= n
  {
    if n == 0 then 0 else Ones(bits, n - 1) + (if Bit(bits, 7 - n) then 1 else 0)
  }

  /** The packet size the header announces. */
  function AnnouncedSize(bits: nat): (size: nat)
    ensures size == 188 || size == 204
  {
    if Bit(bits, 7) then 204 else 188
  }

  /** How many packets the output has for an input of len bytes. */
  function AnnouncedCount(len: nat, bits: nat): (count: nat)
    ensures Ones(bits, 7) <= count
  {
    len / AnnouncedSize(bits) + Ones(bits, 7)
  }

  /** The bit that says whether the i-th packet is null. */
  function BitPosition(i: int): int {
    6 - i
  }

  /** No bit position below zero is tested for any packet of the output. */
  predicate PositionsDefined(len: nat, bits: nat) {
    Ones(bits, 7) > 0 ==> forall i | 0 <= i < AnnouncedCount(len, bits) :: BitPosition(i) >= 0
  }

  /** Nothing checks this before the bits are tested: the positions stay defined exactly if there are seven packets at most. */
  lemma PositionsAreDefined(len: nat, bits: nat)
    ensures PositionsDefined(len, bits) <==> Ones(bits, 7) == 0 || AnnouncedCount(len, bits) <= 7
  {
    hide Ones, AnnouncedCount;
    if Ones(bits, 7) > 0 && AnnouncedCount(len, bits) > 7 {
      assert BitPosition(7) < 0;
    }
  }

  lemma {:induction false} OnesGrow(bits: nat, n: nat, m: nat)
    requires n <= m <= 7
    ensures Ones(bits, n) <= Ones(bits, m) <= Ones(bits, n) + (m - n)
  {
    if n < m {
      OnesGrow(bits, n, m - 1);
    }
  }

  /** Seven ordinary packets under a header that announces a null: the eighth packet has no bit. */
  lemma EightPackets()
    ensures AnnouncedCount(1316, 64) == 8 && !PositionsDefined(1316, 64)
  {
    assert forall j :: 0 <= j < 8 ==> (Bit(64, j) <==> j == 6) by {
      assert 64 == 2 * 32 && 32 == 2 * 16 && 16 == 2 * 8 && 8 == 2 * 4 && 4 == 2 * 2;
    }
    assert Ones(64, 7) == 1;
    PositionsAreDefined(1316, 64);
  }

  /** The input is not read behind its end exactly if no null is announced behind the last packet. */
  lemma InputSuffices(len: nat, bits: nat)
    requires AnnouncedCount(len, bits) <= 7
    ensures var size, count := AnnouncedSize(bits), AnnouncedCount(len, bits);
            Start(size, count - Ones(bits, count)) <= len <==> Ones(bits, count) == Ones(bits, 7)
  {
    hide Ones;
    var size, count := AnnouncedSize(bits), AnnouncedCount(len, bits);
    OnesGrow(bits, count, 7);
    StartIs(size, count - Ones(bits, count));
  }

  /** Null packets where bits are set, and the packets of s where they are not. */
  function Expanded(s: seq<Byte>, size: nat, bits: nat, n: nat): (e: seq<Byte>)
    requires n <= 7 && size >= 4 && Start(size, n - Ones(bits, n)) <= |s|
    ensures |e| == Start(size, n)
  {
    if n == 0 then []
    else
      var k := n - Ones(bits, n);
      if Bit(bits, 7 - n) then Expanded(s, size, bits, n - 1) + NullPacket(size)
      else Expanded(s, size, bits, n - 1) + PacketAt(s, size, k - 1)
  }

  // ----- the round trip -----

  /** The mask before any null packet was seen tells the packet size only. */
  function SizeBits(size: nat): nat {
    if size == 204 then SetBit(0, 7) else 0
  }

  lemma SizeBitsAre(size: nat, j: nat)
    ensures Bit(SizeBits(size), j) <==> j == 7 && size == 204
  {
    SetBitSets(0, 7, j);
    ZeroHasNoBits(j);
  }

  lemma MaskStep(s: seq<Byte>, size: nat, n: nat, bits: nat)
    requires Start(size, n) <= |s| && n <= 7
    ensures n == 0 ==> MaskOf(s, size, n, bits) == bits
    ensures n > 0 ==> Start(size, n - 1) <= |s|
                      && MaskOf(s, size, n, bits)
                         == if IsNull(PacketAt(s, size, n - 1)) then SetBit(MaskOf(s, size, n - 1, bits), 7 - n)
                            else MaskOf(s, size, n - 1, bits)
  {
    hide IsNull, PacketAt, SetBit;
  }

  /** Bits 6, 5, ... of the mask say which packets are null, and bit 7 which size they have. */
  lemma {:induction false} MaskBits(s: seq<Byte>, size: nat, n: nat, j: nat)
    requires Start(size, n) <= |s| && n <= 7
    ensures j < 7 - n ==> !Bit(MaskOf(s, size, n, SizeBits(size)), j)
    ensures j >= 7 ==> (Bit(MaskOf(s, size, n, SizeBits(size)), j) <==> j == 7 && size == 204)
    ensures 7 - n <= j < 7 ==> Start(size, 6 - j + 1) <= |s|
                               && (Bit(MaskOf(s, size, n, SizeBits(size)), j) <==> IsNull(PacketAt(s, size, 6 - j)))
  {
    MaskStep(s, size, n, SizeBits(size));
    hide MaskOf, Bit, SetBit, SizeBits, IsNull, PacketAt, Start;
    if n == 0 {
      SizeBitsAre(size, j);
    } else {
      MaskBits(s, size, n - 1, j);
      SetBitSets(MaskOf(s, size, n - 1, SizeBits(size)), 7 - n, j);
      if j == 7 - n {
        assert 6 - j == n - 1;
      } else if 7 - n < j < 7 {
        StartGrows(size, 6 - j + 1, n);
      }
    }
  }

  lemma {:induction false} OnesAreNulls(s: seq<Byte>, size: nat, count: nat, n: nat)
    requires n <= count <= 7 && Start(size, count) <= |s|
    ensures Start(size, n) <= |s| && Ones(MaskOf(s, size, count, SizeBits(size)), n) == Nulls(s, size, n)
  {
    StartGrows(size, n, count);
    if n > 0 {
      OnesAreNulls(s, size, count, n - 1);
      MaskBits(s, size, count, 7 - n);
    }
  }

  /** Behind the last packet no bit is set. */
  lemma {:induction false} OnesEnd(s: seq<Byte>, size: nat, count: nat, n: nat)
    requires count <= n <= 7 && Start(size, count) <= |s|
    ensures Ones(MaskOf(s, size, count, SizeBits(size)), n) == Nulls(s, size, count)
  {
    if n == count {
      OnesAreNulls(s, size, count, count);
    } else {
      OnesEnd(s, size, count, n - 1);
      MaskBits(s, size, count, 7 - n);
    }
  }

  lemma {:induction false} KeptLength(s: seq<Byte>, size: nat, n: nat)
    requires Start(size, n) <= |s|
    ensures |Kept(s, size, n)| == Start(size, n - Nulls(s, size, n))
  {
    if n > 0 {
      KeptLength(s, size, n - 1);
    }
  }

  /** How many packets there are, in a payload that is made of whole ones. */
  function PacketCount(len: nat): (count: nat)
    ensures Start(PacketSize(len), count) <= len
  {
    StartIs(PacketSize(len), len / PacketSize(len));
    len / PacketSize(len)
  }

  /** Whether the packets that are kept fit where they are put, if anything is put there at all. */
  predicate HasRoom(s: seq<Byte>, room: nat)
    requires s != []
  {
    var size, count := PacketSize(|s|), PacketCount(|s|);
    Refused(s) || Nulls(s, size, count) == 0 || |Kept(s, size, count)| <= room
  }

  /** Six of the larger packets are room enough for any payload: one packet at least is left out. */
  lemma SixPacketsSuffice(s: seq<Byte>)
    requires s != []
    ensures HasRoom(s, 6 * 204)
  {
    hide Nulls, Kept;
    var size, count := PacketSize(|s|), PacketCount(|s|);
    KeptLength(s, size, count);
    StartIs(size, count - Nulls(s, size, count));
  }

  lemma {:induction false} KeptGrows(s: seq<Byte>, size: nat, n: nat, m: nat)
    requires n <= m && Start(size, m) <= |s|
    ensures Start(size, n) <= |s| && Kept(s, size, n) <= Kept(s, size, m)
  {
    StartGrows(size, n, m);
    if n < m {
      KeptGrows(s, size, n, m - 1);
    }
  }

  lemma LastOfPrefix(whole: seq<Byte>, a: seq<Byte>, p: seq<Byte>, from: nat, to: nat)
    requires a + p <= whole && from == |a| && to == |a| + |p|
    ensures whole[from..to] == p
  {
    assert whole[..to] == a + p;
    assert whole[from..to] == whole[..to][from..];
  }

  /** The n-th packet, if it was kept, stands behind those kept before it. */
  lemma KeptHolds(s: seq<Byte>, size: nat, count: nat, n: nat)
    requires 0 < n <= count && Start(size, count) <= |s|
    ensures Start(size, n) <= |s|
    ensures !IsNull(PacketAt(s, size, n - 1)) ==>
              && Start(size, n - Nulls(s, size, n)) <= |Kept(s, size, count)|
              && PacketAt(Kept(s, size, count), size, n - Nulls(s, size, n) - 1) == PacketAt(s, size, n - 1)
  {
    StartGrows(size, n, count);
    KeptGrows(s, size, n, count);
    KeptLength(s, size, n);
    KeptLength(s, size, n - 1);
    var p := PacketAt(s, size, n - 1);
    if !IsNull(p) {
      var k := n - 1 - Nulls(s, size, n - 1);
      LastOfPrefix(Kept(s, size, count), Kept(s, size, n - 1), p, Start(size, k), Start(size, k + 1));
    }
  }

  /** Expanding what was kept gives back the payload, its null packets in their plainest form. */
  lemma {:induction false} ExpandRestores(s: seq<Byte>, size: nat, count: nat, n: nat)
    requires n <= count <= 7 && Start(size, count) <= |s| && size >= 4
    ensures var mask := MaskOf(s, size, count, SizeBits(size));
            && Start(size, n) <= |s|
            && Start(size, n - Ones(mask, n)) <= |Kept(s, size, count)|
            && Expanded(Kept(s, size, count), size, mask, n) == Canonical(s, size, n)
  {
    hide IsNull, NullPacket, MaskOf, Kept, PacketAt;
    var mask := MaskOf(s, size, count, SizeBits(size));
    OnesAreNulls(s, size, count, n);
    KeptLength(s, size, n);
    KeptGrows(s, size, n, count);
    if n > 0 {
      ExpandRestores(s, size, count, n - 1);
      MaskBits(s, size, count, 7 - n);
      KeptHolds(s, size, count, n);
    }
  }

  /** The i-th packet is not null, or null in the plainest form. */
  predicate IsPlain(s: seq<Byte>, size: nat, i: nat)
    requires size >= 4
  {
    Start(size, i + 1) <= |s| && (IsNull(PacketAt(s, size, i)) ==> PacketAt(s, size, i) == NullPacket(size))
  }

  lemma SameParts(a: seq<Byte>, b: seq<Byte>, c: seq<Byte>, d: seq<Byte>)
    requires |a| == |c|
    ensures a + b == c + d <==> a == c && b == d
  {
    assert (a + b)[..|a|] == a && (c + d)[..|c|] == c;
    assert (a + b)[|a|..] == b && (c + d)[|c|..] == d;
  }

  /** So the payload itself comes back exactly if its null packets were plain to begin with. */
  lemma {:induction false} CanonicalIsSame(s: seq<Byte>, size: nat, n: nat)
    requires Start(size, n) <= |s| && size >= 4
    ensures Canonical(s, size, n) == s[..Start(size, n)]
            <==> forall i :: 0 <= i < n ==> IsPlain(s, size, i)
  {
    hide IsNull, NullPacket;
    if n == 0 {
      assert s[..0] == [];
    } else {
      CanonicalIsSame(s, size, n - 1);
      var last := PacketAt(s, size, n - 1);
      assert s[..Start(size, n)] == s[..Start(size, n - 1)] + last;
      assert IsPlain(s, size, n - 1) <==> (IsNull(last) ==> last == NullPacket(size));
      SameParts(Canonical(s, size, n - 1), if IsNull(last) then NullPacket(size) else last, s[..Start(size, n - 1)], last);
    }
  }

  lemma StartCounts(size: nat, n: nat)
    requires size == 188 || size == 204
    ensures Start(size, n) / size == n
  {
    StartIs(size, n);
    if size == 188 {
      assert Start(size, n) == n * 188;
    } else {
      assert Start(size, n) == n * 204;
    }
  }

  /**
    What the expanding side works out of the header and the length of what was kept is
    the packet size and the number of packets, so it rebuilds a payload of the same
    length: the original one exactly if its null packets were plain.
   */
  lemma RoundTrip(s: seq<Byte>)
    requires s != [] && !Refused(s)
    ensures var size, count := PacketSize(|s|), |s| / PacketSize(|s|);
            && count <= 7 && Start(size, count) == |s|
            && var mask, kept := MaskOf(s, size, count, SizeBits(size)), Kept(s, size, count);
               && size == AnnouncedSize(mask)
               && AnnouncedCount(|kept|, mask) == count
               && Start(size, count - Ones(mask, count)) <= |kept|
               && Expanded(kept, size, mask, count) == Canonical(s, size, count)
               && |Canonical(s, size, count)| == |s|
               && (Canonical(s, size, count) == s <==> forall i :: 0 <= i < count ==> IsPlain(s, size, i))
  {
    hide IsNull, NullPacket, MaskOf, Kept, PacketAt, Expanded, Canonical, Nulls, Ones, Start, IsPlain, Bit;
    var size, count := PacketSize(|s|), |s| / PacketSize(|s|);
    StartIs(size, count);
    MaskBits(s, size, count, 7);
    OnesEnd(s, size, count, 7);
    KeptLength(s, size, count);
    StartCounts(size, count - Nulls(s, size, count));
    ExpandRestores(s, size, count, count);
    CanonicalIsSame(s, size, count);
    assert s[..Start(size, count)] == s;
  }

  // ----- the two functions -----

  /** memcpy. */
  method CopyPacket(to: array<Byte>, at: nat, from: array<Byte>, offset: nat, size: nat)
    requires to != from && at + size <= to.Length && offset + size <= from.Length
    modifies to
    ensures to[..at + size] == old(to[..at]) + from[offset..offset + size]
    ensures forall j :: at + size <= j < to.Length ==> to[j] == old(to[j])
  {
    var i := 0;
    while i < size
      invariant 0 <= i <= size && to[..at + i] == old(to[..at]) + from[offset..offset + i]
      invariant forall j :: at + size <= j < to.Length ==> to[j] == old(to[j])
    {
      to[at + i] := from[offset + i];
      i := i + 1;
    }
  }

  /** What the loops meet at the i-th packet. */
  lemma NextPacket(s: seq<Byte>, size: nat, i: nat, count: nat)
    requires i < count && Start(size, count) <= |s|
    ensures Start(size, i) + size == Start(size, i + 1) <= Start(size, count)
    ensures PacketAt(s, size, i) == s[Start(size, i)..Start(size, i) + size]
    ensures Kept(s, size, i + 1) == Kept(s, size, i) + (if IsNull(PacketAt(s, size, i)) then [] else PacketAt(s, size, i))
    ensures Nulls(s, size, i + 1) == Nulls(s, size, i) + (if IsNull(PacketAt(s, size, i)) then 1 else 0)
  {
    hide IsNull;
    StartGrows(size, i + 1, count);
  }

  lemma NextMark(s: seq<Byte>, size: nat, i: nat, count: nat, bits: nat)
    requires i < count <= 7 && Start(size, count) <= |s|
    ensures Start(size, i) <= Start(size, i + 1) <= |s|
    ensures MaskOf(s, size, i + 1, bits)
            == if IsNull(PacketAt(s, size, i)) then SetBit(MaskOf(s, size, i, bits), 6 - i) else MaskOf(s, size, i, bits)
  {
    hide IsNull;
    StartGrows(size, i, count);
    StartGrows(size, i + 1, count);
  }

  lemma NothingYet(s: seq<Byte>, size: nat, bits: nat)
    ensures Start(size, 0) == 0 && Kept(s, size, 0) == [] && Nulls(s, size, 0) == 0 && MaskOf(s, size, 0, bits) == bits
  {
  }

  /** The first loop: marks the null packets and counts them. */
  method Mark(payload: array<Byte>, size: nat, count: nat, bits: nat) returns (suppressed: nat, npdBits: nat)
    requires size >= 4 && count <= 7 && Start(size, count) <= payload.Length
    ensures suppressed == Nulls(payload[..Start(size, count)], size, count)
    ensures npdBits == MaskOf(payload[..Start(size, count)], size, count, bits)
  {
    hide Start, MaskOf, Nulls, PacketAt;
    ghost var s := payload[..Start(size, count)];
    NothingYet(s, size, bits);
    suppressed, npdBits := 0, bits;
    var offset, i := 0, 0;
    while i < count
      invariant 0 <= i <= count && offset == Start(size, i) <= |s|
      invariant suppressed == Nulls(s, size, i) && npdBits == MaskOf(s, size, i, bits)
    {
      NextPacket(s, size, i, count);
      NextMark(s, size, i, count, bits);
      if payload[offset + 1] == 0x1f && payload[offset + 2] == 0xff {
        npdBits := SetBit(npdBits, 6 - i);
        suppressed := suppressed + 1;
      }
      offset := offset + size;
      i := i + 1;
    }
  }

  /** The second loop: copies the packets that are not marked. */
  method Copy(payload: array<Byte>, out: array<Byte>, size: nat, count: nat, npdBits: nat) returns (outputOffset: nat)
    requires size >= 4 && count <= 7 && Start(size, count) <= payload.Length
    requires |Kept(payload[..Start(size, count)], size, count)| <= out.Length
    requires payload != out && npdBits == MaskOf(payload[..Start(size, count)], size, count, SizeBits(size))
    modifies out
    ensures outputOffset <= Start(size, count) && outputOffset == |Kept(payload[..Start(size, count)], size, count)|
    ensures out[..outputOffset] == Kept(payload[..Start(size, count)], size, count)
  {
    hide Start, MaskOf, IsNull, Kept, PacketAt, Bit;
    ghost var s := payload[..Start(size, count)];
    NothingYet(s, size, npdBits);
    outputOffset := 0;
    var offset, i := 0, 0;
    while i < count
      invariant 0 <= i <= count && offset == Start(size, i) <= |s| && outputOffset <= offset
      invariant outputOffset <= out.Length && out[..outputOffset] == Kept(s, size, i)
    {
      NextPacket(s, size, i, count);
      KeptGrows(s, size, i + 1, count);
      MaskBits(s, size, count, 6 - i);
      if !Bit(npdBits, 6 - i) {
        assert s[offset..offset + size] == payload[offset..offset + size];
        CopyPacket(out, outputOffset, payload, offset, size);
        outputOffset := outputOffset + size;
      }
      offset := offset + size;
      i := i + 1;
    }
  }

  lemma FlagBits()
    ensures !Bit(0, 7) && Bit(SetBit(0, 7), 7) && Bit(UnsetBit(SetBit(0, 7), 7), 7)
  {
    ZeroHasNoBits(7);
    SetBitSets(0, 7, 7);
    UnsetKeepsBit(SetBit(0, 7), 7, 7);
  }

  /**
    suppress_null_packets, for a header that starts at zero. When the first byte is no
    sync byte, the flag set just before stays set.
   */
  method Suppress(payload: array<Byte>, out: array<Byte>, len: nat) returns (ret: int, len': nat, header: Header)
    requires 0 < len <= payload.Length && payload != out && HasRoom(payload[..len], out.Length)
    modifies out
    ensures ret == -1 <==> Refused(payload[..len])
    ensures ret <= 0 ==> len' == len && out[..] == old(out[..])
    ensures ret == -1 ==> (Bit(header.flags, 7) <==> len % PacketSize(len) == 0 && PacketCount(len) <= 7)
    ensures ret >= 0 ==>
              var size, count := PacketSize(len), PacketCount(len);
              && Start(size, count) == len && count <= 7
              && header.npdBits == MaskOf(payload[..len], size, count, SizeBits(size)) && Bit(header.flags, 7)
              && ret == Nulls(payload[..len], size, count)
    ensures ret > 0 ==>
              var size, count := PacketSize(len), PacketCount(len);
              && len' <= len && len' == |Kept(payload[..len], size, count)|
              && out[..len'] == Kept(payload[..len], size, count)
  {
    hide MaskOf, IsNull, Kept, Nulls;
    SizeBitsAre(188, 7);
    var npdBits, flags, packetSize := 0, 0, 188;
    len' := len;
    FlagBits();
    if len % packetSize != 0 {
      packetSize := 204;
      if len % packetSize != 0 {
        return -1, len, Header(flags, npdBits);
      }
      npdBits := SetBit(npdBits, 7);
    }
    var count := len / packetSize;
    if count > 7 {
      return -1, len, Header(flags, npdBits);
    }
    flags := SetBit(flags, 7);
    if payload[0] != 0x47 {
      flags := UnsetBit(flags, 7);
      return -1, len, Header(flags, npdBits);
    }
    StartIs(packetSize, count);
    assert count * packetSize == len;
    var suppressed;
    suppressed, npdBits := Mark(payload, packetSize, count, npdBits);
    header := Header(flags, npdBits);
    if suppressed == 0 {
      return 0, len, header;
    }
    len' := Copy(payload, out, packetSize, count, npdBits);
    ret := suppressed;
  }

  /** Writes the packet that stands in for a suppressed one. */
  method WriteNull(out: array<Byte>, offset: nat, size: nat)
    requires size >= 4 && offset + size <= out.Length
    modifies out
    ensures out[..offset + size] == old(out[..offset]) + NullPacket(size)
  {
    var i := 4;
    out[offset], out[offset + 1], out[offset + 2], out[offset + 3] := 0x47, 0x1f, 0xff, 0x10;
    while i < size
      invariant 4 <= i <= size && out[..offset + i] == old(out[..offset]) + NullPacket(i)
    {
      out[offset + i] := 0xff;
      i := i + 1;
    }
  }

  /** How many null packets the header announces. */
  method CountNulls(npdBits: nat) returns (count: nat)
    ensures count == Ones(npdBits, 7)
  {
    hide Bit;
    count := 0;
    var i := 0;
    while i < 7
      invariant 0 <= i <= 7 && count == Ones(npdBits, i)
    {
      if Bit(npdBits, 6 - i) {
        count := count + 1;
      }
      i := i + 1;
    }
  }

  /** How far the input is read before and after the i-th packet of the output. */
  lemma InputNext(size: nat, bits: nat, i: nat, count: nat)
    requires i < count <= 7
    ensures Ones(bits, i) <= i && Ones(bits, i + 1) <= i + 1 && Ones(bits, count) <= count
    ensures Ones(bits, i + 1) == Ones(bits, i) + (if Bit(bits, 6 - i) then 1 else 0)
    ensures Start(size, i) + size == Start(size, i + 1) <= Start(size, count)
    ensures Start(size, i + 1 - Ones(bits, i + 1)) <= Start(size, count - Ones(bits, count))
    ensures Start(size, i - Ones(bits, i)) + (if Bit(bits, 6 - i) then 0 else size) == Start(size, i + 1 - Ones(bits, i + 1))
  {
    hide Bit;
    OnesGrow(bits, i + 1, count);
    StartGrows(size, i + 1, count);
    StartGrows(size, i + 1 - Ones(bits, i + 1), count - Ones(bits, count));
  }

  /** The i-th packet of the output. */
  lemma ExpandedNext(s: seq<Byte>, size: nat, bits: nat, i: nat, count: nat)
    requires i < count <= 7 && size >= 4 && Start(size, count - Ones(bits, count)) <= |s|
    ensures var k := i - Ones(bits, i);
            && Start(size, i) + size == Start(size, i + 1) <= Start(size, count) && k <= i
            && Start(size, k) <= Start(size, i + 1 - Ones(bits, i + 1)) <= |s|
            && (Bit(bits, 6 - i) ==> Start(size, i + 1 - Ones(bits, i + 1)) == Start(size, k)
                                     && Expanded(s, size, bits, i + 1) == Expanded(s, size, bits, i) + NullPacket(size))
            && (!Bit(bits, 6 - i) ==> Start(size, i + 1 - Ones(bits, i + 1)) == Start(size, k) + size
                                      && Expanded(s, size, bits, i + 1)
                                         == Expanded(s, size, bits, i) + s[Start(size, k)..Start(size, k) + size])
  {
    hide Bit, NullPacket, Start, Ones;
    InputNext(size, bits, i, count);
  }

  lemma ExpandedNone(s: seq<Byte>, size: nat, bits: nat)
    requires size >= 4
    ensures Ones(bits, 0) == 0 && Start(size, 0) == 0 && Expanded(s, size, bits, 0) == []
  {
  }

  /** The loop of expand_null_packets. */
  method ExpandAll(payload: array<Byte>, out: array<Byte>, size: nat, count: nat, npdBits: nat)
    requires payload != out && size >= 4 && count <= 7
    requires Start(size, count - Ones(npdBits, count)) <= payload.Length && Start(size, count) <= out.Length
    modifies out
    ensures out[..Start(size, count)] == Expanded(payload[..], size, npdBits, count)
  {
    hide Bit, NullPacket, Expanded, Ones, Start;
    ExpandedNone(payload[..], size, npdBits);
    var offset, inputOffset, i := 0, 0, 0;
    while i < count
      invariant 0 <= i <= count && offset == Start(size, i) <= out.Length
      invariant inputOffset == Start(size, i - Ones(npdBits, i)) <= payload.Length
      invariant out[..offset] == Expanded(payload[..], size, npdBits, i)
    {
      ExpandedNext(payload[..], size, npdBits, i, count);
      if !Bit(npdBits, 6 - i) {
        assert payload[..][inputOffset..inputOffset + size] == payload[inputOffset..inputOffset + size];
        CopyPacket(out, offset, payload, inputOffset, size);
        inputOffset := inputOffset + size;
      } else {
        WriteNull(out, offset, size);
      }
      offset := offset + size;
      i := i + 1;
    }
  }

  /**
    expand_null_packets. What it reads of the payload is what the header asks for. Where
    a null is announced among more than seven packets its bit positions go below zero.
   */
  method Expand(payload: array<Byte>, out: array<Byte>, len: nat, npdBits: nat) returns (ret: nat, len': nat)
    requires payload != out
    requires Ones(npdBits, 7) > 0 ==>
               var size, count := AnnouncedSize(npdBits), AnnouncedCount(len, npdBits);
               && count <= 7
               && Start(size, count - Ones(npdBits, count)) <= payload.Length
               && Start(size, count) <= out.Length
    modifies out
    ensures Ones(npdBits, 7) == 0 ==> ret == 0 && len' == len && out[..] == old(out[..])
    ensures Ones(npdBits, 7) > 0 ==>
              var size, count := AnnouncedSize(npdBits), AnnouncedCount(len, npdBits);
              && ret == len' == Start(size, count)
              && out[..len'] == Expanded(payload[..], size, npdBits, count)
  {
    hide Bit, NullPacket;
    var packetSize := if Bit(npdBits, 7) then 204 else 188;
    var tsCount := len / packetSize;
    var nullCount := CountNulls(npdBits);
    if nullCount == 0 {
      return 0, len;
    }
    tsCount := tsCount + nullCount;
    len' := tsCount * packetSize;
    StartIs(packetSize, tsCount);
    ExpandAll(payload, out, packetSize, tsCount, npdBits);
    ret := len';
  }
}
