/**
  The two forms of a retransmission request: the encoder of the receiver
  (librist-master/src/udp.c:478-569) and the decoder of the sender
  (librist-master/src/rist-common.c:1549-1622). The bitmask form is the Generic NACK of
  section 6.2.1 of RFC 4585; the range form is an APP packet, section 6.7 of RFC 3550.
 */
module NackCodec {
  import opened Arithmetic
  import opened Bits

  const FB_HEADER_SIZE := 12
  const PTYPE_NACK_CUSTOM := 204
  const PTYPE_NACK_BITMASK := 205
  const RANGE_FLAGS := 0x80
  const BITMASK_FLAGS := 0x81
  /** "RIST" in ASCII. */
  const NAME: seq<Octet> := [0x52, 0x49, 0x53, 0x54]

  /** The value a 32-bit variable takes. */
  function Wrap32(x: nat): nat {
    x % WORD32
  }

  /** A first sequence number, and either how many follow it or which of the sixteen after it are meant. */
  datatype Record = Record(start: nat, extra: nat)

  // ----- words in a buffer -----

  function Word16At(p: seq<Octet>, i: nat): (w: nat)
    requires i + 2 <= |p|
    ensures w < WORD16
  {
    p[i] as int * 256 + p[i + 1] as int
  }

  method Get16(buf: array<Octet>, i: nat) returns (w: nat)
    requires i + 2 <= buf.Length
    ensures w == Word16At(buf[..], i)
  {
    w := buf[i] as int * 256 + buf[i + 1] as int;
  }

  method Put16(buf: array<Octet>, i: nat, x: nat)
    requires i + 2 <= buf.Length && x < WORD16
    modifies buf
    ensures Word16At(buf[..], i) == x
    ensures forall j :: 0 <= j < buf.Length && j != i && j != i + 1 ==> buf[j] == old(buf[j])
  {
    assert x / 256 < 256;
    buf[i] := x / 256;
    buf[i + 1] := x % 256;
  }

  method Put32(buf: array<Octet>, i: nat, x: nat)
    requires i + 4 <= buf.Length && x < WORD32
    modifies buf
    ensures Word16At(buf[..], i) == x / WORD16 && Word16At(buf[..], i + 2) == x % WORD16
    ensures forall j :: 0 <= j < i || i + 4 <= j < buf.Length ==> buf[j] == old(buf[j])
  {
    Put16(buf, i, x / WORD16);
    Put16(buf, i + 2, x % WORD16);
  }

  // ----- messages -----

  /** The i-th record of a message. */
  function RecordAt(p: seq<Octet>, i: nat): Record
    requires FB_HEADER_SIZE + 4 * i + 4 <= |p|
  {
    Record(Word16At(p, FB_HEADER_SIZE + 4 * i), Word16At(p, FB_HEADER_SIZE + 4 * i + 2))
  }

  /** The records stand behind the header, their first numbers cut to sixteen bits. */
  ghost predicate RecordsAt(p: seq<Octet>, rs: seq<Record>) {
    && FB_HEADER_SIZE + 4 * |rs| <= |p|
    && forall i :: 0 <= i < |rs| ==> RecordAt(p, i) == Record(rs[i].start % WORD16, rs[i].extra)
  }

  /** The header common to both forms, and the records; the length counts words of 32 bits. */
  ghost predicate Message(p: seq<Octet>, flags: Octet, ptype: Octet, first: nat, rs: seq<Record>) {
    && RecordsAt(p, rs)
    && p[0] == flags && p[1] == ptype && Word16At(p, 2) == (2 + |rs|) % WORD16
    && Word16At(p, 4) == first / WORD16 && Word16At(p, 6) == first % WORD16
  }

  ghost predicate RangeMessage(p: seq<Octet>, ssrc: nat, rs: seq<Record>) {
    Message(p, RANGE_FLAGS, PTYPE_NACK_CUSTOM, ssrc, rs) && p[8..12] == NAME
  }

  ghost predicate BitmaskMessage(p: seq<Octet>, ssrc: nat, rs: seq<Record>) {
    && Message(p, BITMASK_FLAGS, PTYPE_NACK_BITMASK, 0, rs)
    && Word16At(p, 8) == ssrc / WORD16 && Word16At(p, 10) == ssrc % WORD16
  }

  // ----- the range form -----

  /** One more number after last: the last record grows, or a new one starts. */
  function RangeAppend(rs: seq<Record>, last: nat, tmp: nat): (rs': seq<Record>)
    requires rs != []
    ensures |rs| <= |rs'| <= |rs| + 1
  {
    var r := rs[|rs| - 1];
    if r.extra != WORD16 - 1 && tmp == last + 1 then rs[|rs| - 1 := r.(extra := r.extra + 1)]
    else rs + [Record(tmp, 0)]
  }

  /** A record for every run of numbers each one more than the one before, without a step from 65535 to 0. */
  function RangeRecords(s: seq<nat>): (rs: seq<Record>)
    requires s != []
    ensures 0 < |rs| <= |s|
  {
    var n := |s| - 1;
    if n == 0 then [Record(s[0] % WORD16, 0)]
    else RangeAppend(RangeRecords(s[..n]), s[n - 1] % WORD16, s[n] % WORD16)
  }

  /** The numbers a record of the range form asks for. */
  function Expand(r: Record, msb: nat): (s: seq<nat>)
    ensures |s| == r.extra + 1
    decreases r.extra
  {
    if r.extra == 0 then [Wrap32(msb + r.start)]
    else Expand(r.(extra := r.extra - 1), msb) + [Wrap32(msb + r.start + r.extra)]
  }

  function ExpandAll(rs: seq<Record>, msb: nat): (s: seq<nat>)
    ensures |s| >= |rs|
  {
    if rs == [] then [] else ExpandAll(rs[..|rs| - 1], msb) + Expand(rs[|rs| - 1], msb)
  }

  /** All numbers share the upper sixteen bits, as those handed to the encoder together do. */
  ghost predicate Shares(s: seq<nat>, msb: nat) {
    && msb % WORD16 == 0 && msb < WORD32
    && forall i :: 0 <= i < |s| ==> s[i] == msb + s[i] % WORD16
  }

  ghost predicate RecordsFit(rs: seq<Record>) {
    forall i :: 0 <= i < |rs| ==> rs[i].start + rs[i].extra < WORD16
  }

  lemma SharesPrefix(s: seq<nat>, msb: nat, n: nat)
    requires Shares(s, msb) && n <= |s|
    ensures Shares(s[..n], msb)
  {
  }

  lemma SharedFits(x: nat, msb: nat)
    requires msb % WORD16 == 0 && msb < WORD32 && x == msb + x % WORD16
    ensures x < WORD32 && x % WORD32 == x
  {
  }

  lemma ExpandAllAppend(rs: seq<Record>, r: Record, msb: nat)
    ensures ExpandAll(rs + [r], msb) == ExpandAll(rs, msb) + Expand(r, msb)
  {
    assert (rs + [r])[..|rs|] == rs;
  }

  lemma ExpandNext(start: nat, j: nat, msb: nat)
    ensures Expand(Record(start, j + 1), msb) == Expand(Record(start, j), msb) + [Wrap32(msb + start + j + 1)]
  {
    hide Wrap32;
  }

  /** A longer last record asks for one number more. */
  lemma ExpandLonger(rs: seq<Record>, r: Record, msb: nat)
    ensures ExpandAll(rs + [r.(extra := r.extra + 1)], msb)
            == ExpandAll(rs + [r], msb) + [Wrap32(msb + r.start + r.extra + 1)]
  {
    ExpandAllAppend(rs, r, msb);
    ExpandAllAppend(rs, r.(extra := r.extra + 1), msb);
    ExpandNext(r.start, r.extra, msb);
    hide ExpandAll, Expand, Wrap32;
    var a, b, c := ExpandAll(rs, msb), Expand(r, msb), [Wrap32(msb + r.start + r.extra + 1)];
    assert Expand(r.(extra := r.extra + 1), msb) == b + c;
    assert a + (b + c) == (a + b) + c;
  }

  /** The records fit their words, end at low, and ask for the numbers in s. */
  ghost predicate AsksFor(rs: seq<Record>, s: seq<nat>, low: nat, msb: nat) {
    && rs != [] && ExpandAll(rs, msb) == s && RecordsFit(rs)
    && rs[|rs| - 1].start + rs[|rs| - 1].extra == low
  }

  lemma AsksOneMore(rs: seq<Record>, s: seq<nat>, x: nat, tmp: nat, msb: nat)
    requires 0 < tmp < WORD16 && AsksFor(rs, s, tmp - 1, msb) && Wrap32(msb + tmp) == x
    ensures AsksFor(rs[|rs| - 1 := rs[|rs| - 1].(extra := rs[|rs| - 1].extra + 1)], s + [x], tmp, msb)
  {
    hide ExpandAll, Wrap32;
    var init, r := rs[..|rs| - 1], rs[|rs| - 1];
    ExpandLonger(init, r, msb);
    assert rs == init + [r];
    assert rs[|rs| - 1 := r.(extra := r.extra + 1)] == init + [r.(extra := r.extra + 1)];
  }

  lemma ExpandOne(start: nat, msb: nat)
    ensures Expand(Record(start, 0), msb) == [Wrap32(msb + start)] && ExpandAll([], msb) == []
  {
  }

  lemma AsksAnew(rs: seq<Record>, s: seq<nat>, low: nat, x: nat, tmp: nat, msb: nat)
    requires AsksFor(rs, s, low, msb) && tmp < WORD16 && Wrap32(msb + tmp) == x
    ensures AsksFor(rs + [Record(tmp, 0)], s + [x], tmp, msb)
  {
    hide ExpandAll, Expand, Wrap32;
    ExpandAllAppend(rs, Record(tmp, 0), msb);
    ExpandOne(tmp, msb);
  }

  lemma AsksFirst(tmp: nat, x: nat, msb: nat)
    requires tmp < WORD16 && Wrap32(msb + tmp) == x
    ensures AsksFor([Record(tmp, 0)], [x], tmp, msb)
  {
    ExpandAllAppend([], Record(tmp, 0), msb);
    ExpandOne(tmp, msb);
    assert [] + [Record(tmp, 0)] == [Record(tmp, 0)];
  }

  lemma SharedLast(s: seq<nat>, msb: nat)
    requires s != [] && Shares(s, msb)
    ensures Wrap32(msb + s[|s| - 1] % WORD16) == s[|s| - 1]
  {
    SharedFits(s[|s| - 1], msb);
  }

  /** The records ask for exactly the numbers they were made from, in order. */
  lemma {:induction false} RangeExpands(s: seq<nat>, msb: nat)
    requires s != [] && Shares(s, msb)
    ensures AsksFor(RangeRecords(s), s, s[|s| - 1] % WORD16, msb)
  {
    hide AsksFor, Shares, Wrap32;
    var n := |s| - 1;
    SharedLast(s, msb);
    var tmp := s[n] % WORD16;
    if n == 0 {
      AsksFirst(tmp, s[0], msb);
      assert s == [s[0]];
    } else {
      SharesPrefix(s, msb, n);
      RangeExpands(s[..n], msb);
      var rs := RangeRecords(s[..n]);
      assert s == s[..n] + [s[n]] && s[..n][n - 1] == s[n - 1];
      if rs[|rs| - 1].extra != WORD16 - 1 && tmp == s[n - 1] % WORD16 + 1 {
        AsksOneMore(rs, s[..n], s[n], tmp, msb);
      } else {
        AsksAnew(rs, s[..n], s[n - 1] % WORD16, s[n], tmp, msb);
      }
    }
  }

  // ----- the bitmask form -----

  /** One more number: a bit of the last record, or a new record. */
  function BitmaskAppend(rs: seq<Record>, x: nat): (rs': seq<Record>)
    requires rs != []
    ensures |rs| <= |rs'| <= |rs| + 1
  {
    var r := rs[|rs| - 1];
    if r.start < x <= (r.start + 16) % WORD32 then rs[|rs| - 1 := r.(extra := SetBit(r.extra, x - r.start - 1))]
    else rs + [Record(x, 0)]
  }

  /** A record for every stretch of numbers within sixteen of the first; first numbers are kept whole here. */
  function BitmaskRecords(s: seq<nat>): (rs: seq<Record>)
    requires s != []
    ensures 0 < |rs| <= |s|
  {
    var n := |s| - 1;
    if n == 0 then [Record(s[0], 0)] else BitmaskAppend(BitmaskRecords(s[..n]), s[n])
  }

  /** The numbers a record of the bitmask form asks for, up to its j-th bit. */
  function BitsUpTo(r: Record, msb: nat, j: nat): (s: seq<nat>)
  {
    if j == 0 then [Wrap32(msb + r.start)]
    else BitsUpTo(r, msb, j - 1) + (if Bit(r.extra, j - 1) then [Wrap32(msb + r.start + j)] else [])
  }

  function BitsAll(rs: seq<Record>, msb: nat): seq<nat> {
    if rs == [] then [] else BitsAll(rs[..|rs| - 1], msb) + BitsUpTo(rs[|rs| - 1], msb, 16)
  }

  ghost predicate Covers(r: Record, x: nat) {
    x == r.start || (r.start < x <= r.start + 16 && Bit(r.extra, x - r.start - 1))
  }

  ghost predicate SomeCovers(rs: seq<Record>, x: nat) {
    exists i :: 0 <= i < |rs| && Covers(rs[i], x)
  }

  ghost predicate MasksFit(rs: seq<Record>) {
    forall i :: 0 <= i < |rs| ==> rs[i].extra < WORD16
  }

  lemma MaskCovers(r: Record, y: nat, x: nat)
    requires r.start < y <= r.start + 16
    ensures Covers(r.(extra := SetBit(r.extra, y - r.start - 1)), x) <==> x == y || Covers(r, x)
  {
    if r.start < x <= r.start + 16 {
      SetBitSets(r.extra, y - r.start - 1, x - r.start - 1);
    }
  }

  lemma FreshCovers(y: nat, x: nat)
    ensures Covers(Record(y, 0), x) <==> x == y
  {
    if x > y {
      ZeroHasNoBits(x - y - 1);
    }
  }

  lemma CoversLast(rs: seq<Record>, r: Record, x: nat)
    ensures SomeCovers(rs + [r], x) <==> SomeCovers(rs, x) || Covers(r, x)
  {
    if SomeCovers(rs, x) {
      var i :| 0 <= i < |rs| && Covers(rs[i], x);
      assert (rs + [r])[i] == rs[i];
    }
    if Covers(r, x) {
      assert (rs + [r])[|rs|] == r;
    }
  }

  lemma CoversConcat(a: seq<Record>, b: seq<Record>, x: nat)
    ensures SomeCovers(a + b, x) <==> SomeCovers(a, x) || SomeCovers(b, x)
  {
    if SomeCovers(a, x) {
      var i :| 0 <= i < |a| && Covers(a[i], x);
      assert (a + b)[i] == a[i];
    }
    if SomeCovers(b, x) {
      var i :| 0 <= i < |b| && Covers(b[i], x);
      assert (a + b)[|a| + i] == b[i];
    }
  }

  lemma NoneCovers(x: nat)
    ensures !SomeCovers([], x)
  {
  }

  lemma {:induction false} MasksAreWords(s: seq<nat>)
    requires s != []
    ensures MasksFit(BitmaskRecords(s))
  {
    var n := |s| - 1;
    if n > 0 {
      MasksAreWords(s[..n]);
      var rs := BitmaskRecords(s[..n]);
      var r := rs[|rs| - 1];
      if r.start < s[n] <= (r.start + 16) % WORD32 {
        Pow2Of16();
        SetBitFits(r.extra, s[n] - r.start - 1, 16);
      }
    }
  }

  /** One more number is one more that is covered. */
  lemma AppendCovers(rs: seq<Record>, y: nat, x: nat)
    requires rs != []
    ensures SomeCovers(BitmaskAppend(rs, y), x) <==> SomeCovers(rs, x) || x == y
  {
    hide Covers, SomeCovers, SetBit;
    var init, r := rs[..|rs| - 1], rs[|rs| - 1];
    if r.start < y <= (r.start + 16) % WORD32 {
      var r' := r.(extra := SetBit(r.extra, y - r.start - 1));
      assert rs == init + [r] && rs[|rs| - 1 := r'] == init + [r'];
      MaskCovers(r, y, x);
      CoversLast(init, r, x);
      CoversLast(init, r', x);
    } else {
      FreshCovers(y, x);
      CoversLast(rs, Record(y, 0), x);
    }
  }

  /** The records cover exactly the numbers they were made from. */
  lemma {:induction false} BitmaskCovers(s: seq<nat>, x: nat)
    requires s != []
    ensures SomeCovers(BitmaskRecords(s), x) <==> x in s
  {
    hide Covers, SomeCovers, BitmaskAppend;
    var n := |s| - 1;
    if n == 0 {
      FreshCovers(s[0], x);
      CoversLast([], Record(s[0], 0), x);
      NoneCovers(x);
      assert [] + [Record(s[0], 0)] == BitmaskRecords(s);
    } else {
      BitmaskCovers(s[..n], x);
      AppendCovers(BitmaskRecords(s[..n]), s[n], x);
      assert s == s[..n] + [s[n]];
    }
  }

  /** Every first number is one of those the records were made from. */
  lemma {:induction false} StartsComeFrom(s: seq<nat>, i: nat)
    requires s != [] && i < |BitmaskRecords(s)|
    ensures BitmaskRecords(s)[i].start in s
  {
    var n := |s| - 1;
    if n > 0 {
      var rs := BitmaskRecords(s[..n]);
      if i < |rs| {
        StartsComeFrom(s[..n], i);
      }
    }
  }

  // ----- the encoder -----

  lemma RecordsKeep(p: seq<Octet>, p': seq<Octet>, rs: seq<Record>)
    requires RecordsAt(p, rs) && |p'| >= |p| && forall j :: FB_HEADER_SIZE <= j < FB_HEADER_SIZE + 4 * |rs| ==> p'[j] == p[j]
    ensures RecordsAt(p', rs)
  {
    forall i | 0 <= i < |rs|
      ensures RecordAt(p', i) == RecordAt(p, i)
    {
    }
  }

  /** A buffer under construction: the header, the records before the last, and the first number of the last. */
  ghost predicate Open(p: seq<Octet>, header: seq<Octet>, rs: seq<Record>) {
    && rs != [] && |p| >= FB_HEADER_SIZE + 4 * |rs| && p[..FB_HEADER_SIZE] == header
    && RecordsAt(p, rs[..|rs| - 1])
    && Word16At(p, FB_HEADER_SIZE + 4 * (|rs| - 1)) == rs[|rs| - 1].start % WORD16
  }

  lemma Closed(p: seq<Octet>, p': seq<Octet>, header: seq<Octet>, rs: seq<Record>)
    requires Open(p, header, rs) && |p'| == |p|
    requires forall j :: 0 <= j < |p| && j != FB_HEADER_SIZE + 4 * |rs| - 2 && j != FB_HEADER_SIZE + 4 * |rs| - 1 ==> p'[j] == p[j]
    requires Word16At(p', FB_HEADER_SIZE + 4 * |rs| - 2) == rs[|rs| - 1].extra
    ensures RecordsAt(p', rs) && p'[..FB_HEADER_SIZE] == header
  {
    var init := rs[..|rs| - 1];
    RecordsKeep(p, p', init);
    forall i | 0 <= i < |rs|
      ensures RecordAt(p', i) == Record(rs[i].start % WORD16, rs[i].extra)
    {
      if i < |init| {
        assert rs[i] == init[i] && RecordAt(p', i) == Record(init[i].start % WORD16, init[i].extra);
      }
    }
  }

  lemma Opened(p: seq<Octet>, p': seq<Octet>, header: seq<Octet>, rs: seq<Record>, r: Record)
    requires RecordsAt(p, rs) && p[..FB_HEADER_SIZE] == header && |p'| == |p| >= FB_HEADER_SIZE + 4 * |rs| + 4
    requires forall j :: 0 <= j < FB_HEADER_SIZE + 4 * |rs| ==> p'[j] == p[j]
    requires Word16At(p', FB_HEADER_SIZE + 4 * |rs|) == r.start % WORD16
    ensures Open(p', header, rs + [r])
  {
    RecordsKeep(p, p', rs);
    assert (rs + [r])[..|rs|] == rs;
  }

  /** Writes the second word of the record at rec. */
  method CloseRecord(buf: array<Octet>, rec: nat, extra: nat, ghost header: seq<Octet>, ghost rs: seq<Record>)
    requires Open(buf[..], header, rs) && rec == FB_HEADER_SIZE + 4 * |rs| - 4 && extra == rs[|rs| - 1].extra < WORD16
    modifies buf
    ensures RecordsAt(buf[..], rs) && buf[..FB_HEADER_SIZE] == header
    ensures forall j :: rec + 4 <= j < buf.Length ==> buf[j] == old(buf[j])
  {
    ghost var p := buf[..];
    hide RecordsAt;
    Put16(buf, rec + 2, extra);
    Closed(p, buf[..], header, rs);
    assert buf[..][..FB_HEADER_SIZE] == buf[..FB_HEADER_SIZE];
  }

  /** Writes the first word of a new record at rec. */
  method OpenRecord(buf: array<Octet>, rec: nat, start: nat, ghost header: seq<Octet>, ghost rs: seq<Record>)
    requires RecordsAt(buf[..], rs) && buf.Length >= FB_HEADER_SIZE && buf[..FB_HEADER_SIZE] == header
    requires rec == FB_HEADER_SIZE + 4 * |rs| <= buf.Length - 4
    modifies buf
    ensures Open(buf[..], header, rs + [Record(start, 0)])
    ensures forall j :: rec + 4 <= j < buf.Length ==> buf[j] == old(buf[j])
  {
    ghost var p := buf[..];
    hide RecordsAt;
    assert p[..FB_HEADER_SIZE] == buf[..FB_HEADER_SIZE];
    Put16(buf, rec, start % WORD16);
    Opened(p, buf[..], header, rs, Record(start, 0));
  }

  /** Finishes the record at rec and starts the next one. */
  method NextRecord(buf: array<Octet>, rec: nat, extra: nat, start: nat, ghost header: seq<Octet>, ghost rs: seq<Record>)
    returns (rec': nat)
    requires Open(buf[..], header, rs) && rec == FB_HEADER_SIZE + 4 * |rs| - 4 && extra == rs[|rs| - 1].extra < WORD16
    requires rec + 8 <= buf.Length
    modifies buf
    ensures rec' == rec + 4 && Open(buf[..], header, rs + [Record(start, 0)])
    ensures forall j :: rec' + 4 <= j < buf.Length ==> buf[j] == old(buf[j])
  {
    CloseRecord(buf, rec, extra, header, rs);
    rec' := rec + 4;
    OpenRecord(buf, rec', start, header, rs);
  }

  /** The header of a request, whose length is still to be written. */
  method WriteHeader(buf: array<Octet>, flags: Octet, ptype: Octet, first: nat, second0: nat, second1: nat)
    requires buf.Length >= FB_HEADER_SIZE && first < WORD32 && second0 < WORD16 && second1 < WORD16
    modifies buf
    ensures buf[0] == flags && buf[1] == ptype
    ensures Word16At(buf[..], 4) == first / WORD16 && Word16At(buf[..], 6) == first % WORD16
    ensures Word16At(buf[..], 8) == second0 && Word16At(buf[..], 10) == second1
    ensures forall j :: FB_HEADER_SIZE <= j < buf.Length ==> buf[j] == old(buf[j])
  {
    buf[0], buf[1] := flags, ptype;
    Put32(buf, 4, first);
    Put16(buf, 8, second0);
    Put16(buf, 10, second1);
  }

  /** Writes the length, which counts the records modulo 65536, and so finishes the message. */
  method WriteLength(buf: array<Octet>, count: nat, flags: Octet, ptype: Octet, first: nat, ghost rs: seq<Record>)
    requires RecordsAt(buf[..], rs) && count == |rs| && buf[0] == flags && buf[1] == ptype
    requires Word16At(buf[..], 4) == first / WORD16 && Word16At(buf[..], 6) == first % WORD16
    modifies buf
    ensures Message(buf[..], flags, ptype, first, rs)
    ensures forall j :: 4 <= j < buf.Length ==> buf[j] == old(buf[j])
  {
    ghost var p := buf[..];
    Put16(buf, 2, (2 + count) % WORD16);
    RecordsKeep(p, buf[..], rs);
  }

  lemma RangeNext(s: seq<nat>, i: nat)
    requires 0 < i < |s|
    ensures RangeRecords(s[..i + 1]) == RangeAppend(RangeRecords(s[..i]), s[i - 1] % WORD16, s[i] % WORD16)
  {
    assert s[..i + 1][..i] == s[..i];
  }

  lemma Longer(p: seq<Octet>, header: seq<Octet>, rs: seq<Record>, extra: nat)
    requires Open(p, header, rs)
    ensures Open(p, header, rs[|rs| - 1 := rs[|rs| - 1].(extra := extra)])
  {
    assert rs[|rs| - 1 := rs[|rs| - 1].(extra := extra)][..|rs| - 1] == rs[..|rs| - 1];
  }

  /** One turn of the range loop. */
  method RangeStep(buf: array<Octet>, rec: nat, extra: nat, lastSeq: nat, tmpSeq: nat, fciCount: nat,
                   ghost header: seq<Octet>, ghost rs: seq<Record>)
    returns (rec': nat, extra': nat, fciCount': nat)
    requires rs != [] && Open(buf[..], header, rs) && extra == rs[|rs| - 1].extra < WORD16 && rec + 8 <= buf.Length
    requires fciCount == |rs| && rec == FB_HEADER_SIZE + 4 * |rs| - 4
    modifies buf
    ensures var rs' := RangeAppend(rs, lastSeq, tmpSeq);
            && Open(buf[..], header, rs') && extra' == rs'[|rs'| - 1].extra < WORD16
            && fciCount' == |rs'| && rec' == FB_HEADER_SIZE + 4 * |rs'| - 4
    ensures forall j :: rec' + 4 <= j < buf.Length ==> buf[j] == old(buf[j])
  {
    hide Open;
    rec', extra', fciCount' := rec, extra, fciCount;
    if extra == WORD16 - 1 {
      rec' := NextRecord(buf, rec, extra, tmpSeq, header, rs);
      fciCount', extra' := fciCount + 1, 0;
    } else if tmpSeq == lastSeq + 1 {
      Longer(buf[..], header, rs, extra + 1);
      extra' := extra + 1;
    } else {
      rec' := NextRecord(buf, rec, extra, tmpSeq, header, rs);
      fciCount', extra' := fciCount + 1, 0;
    }
  }

  /** The first word of the first record. */
  method Begin(buf: array<Octet>, start: nat, ghost header: seq<Octet>)
    requires buf.Length >= FB_HEADER_SIZE + 4 && buf[..FB_HEADER_SIZE] == header
    modifies buf
    ensures Open(buf[..], header, [Record(start, 0)])
    ensures forall j :: FB_HEADER_SIZE + 4 <= j < buf.Length ==> buf[j] == old(buf[j])
  {
    OpenRecord(buf, FB_HEADER_SIZE, start, header, []);
    assert [] + [Record(start, 0)] == [Record(start, 0)];
  }

  /** Closes the last record and writes the length. */
  method Finish(buf: array<Octet>, rec: nat, extra: nat, fciCount: nat, flags: Octet, ptype: Octet, first: nat,
                ghost header: seq<Octet>, ghost rs: seq<Record>)
    requires rs != [] && Open(buf[..], header, rs) && extra == rs[|rs| - 1].extra < WORD16
    requires fciCount == |rs| && rec == FB_HEADER_SIZE + 4 * |rs| - 4
    requires |header| == FB_HEADER_SIZE && header[0] == flags && header[1] == ptype
    requires Word16At(header, 4) == first / WORD16 && Word16At(header, 6) == first % WORD16
    modifies buf
    ensures Message(buf[..], flags, ptype, first, rs)
    ensures forall j :: 8 <= j < FB_HEADER_SIZE ==> buf[j] == header[j]
    ensures forall j :: rec + 4 <= j < buf.Length ==> buf[j] == old(buf[j])
  {
    CloseRecord(buf, rec, extra, header, rs);
    assert forall j :: 0 <= j < FB_HEADER_SIZE ==> buf[j] == buf[..FB_HEADER_SIZE][j];
    WriteLength(buf, fciCount, flags, ptype, first, rs);
  }

  lemma RangeStarts(s: seq<nat>)
    requires s != []
    ensures RangeRecords(s[..1]) == [Record(s[0] % WORD16, 0)]
  {
  }

  /** The range form of rist_receiver_send_nacks. */
  method EncodeRange(seqs: seq<nat>, ssrc: nat, buf: array<Octet>) returns (size: nat)
    requires seqs != [] && ssrc < WORD32 && buf.Length >= FB_HEADER_SIZE + 4 * |seqs|
    modifies buf
    ensures RangeMessage(buf[..], ssrc, RangeRecords(seqs)) && size == FB_HEADER_SIZE + 4 * |RangeRecords(seqs)|
    ensures forall j :: size <= j < buf.Length ==> buf[j] == old(buf[j])
  {
    hide RecordsAt, Open, Message, RangeRecords, RangeAppend;
    WriteHeader(buf, RANGE_FLAGS, PTYPE_NACK_CUSTOM, ssrc, 0x5249, 0x5354);
    ghost var header := buf[..FB_HEADER_SIZE];
    var rec, fciCount, extra := FB_HEADER_SIZE, 1, 0;
    var tmpSeq := seqs[0] % WORD16;
    var lastSeq := tmpSeq;
    Begin(buf, tmpSeq, header);
    RangeStarts(seqs);
    ghost var rs := RangeRecords(seqs[..1]);
    var i := 1;
    while i < |seqs|
      invariant 1 <= i <= |seqs| && rs == RangeRecords(seqs[..i]) && lastSeq == seqs[i - 1] % WORD16
      invariant Open(buf[..], header, rs) && extra == rs[|rs| - 1].extra < WORD16
      invariant fciCount == |rs| && rec == FB_HEADER_SIZE + 4 * |rs| - 4
      invariant forall j :: rec + 4 <= j < buf.Length ==> buf[j] == old(buf[j])
    {
      tmpSeq := seqs[i] % WORD16;
      RangeNext(seqs, i);
      rec, extra, fciCount := RangeStep(buf, rec, extra, lastSeq, tmpSeq, fciCount, header, rs);
      rs := RangeRecords(seqs[..i + 1]);
      lastSeq := tmpSeq;
      i := i + 1;
    }
    assert seqs[..|seqs|] == seqs;
    Finish(buf, rec, extra, fciCount, RANGE_FLAGS, PTYPE_NACK_CUSTOM, ssrc, header, rs);
    size := rec + 4;
  }

  // ----- the bitmask encoder -----

  lemma BitmaskNext(s: seq<nat>, i: nat)
    requires 0 < i < |s|
    ensures BitmaskRecords(s[..i + 1]) == BitmaskAppend(BitmaskRecords(s[..i]), s[i])
  {
    assert s[..i + 1][..i] == s[..i];
  }

  /** One turn of the bitmask loop; lastSeq is the first number of the record at rec. */
  method BitmaskStep(buf: array<Octet>, rec: nat, extra: nat, lastSeq: nat, boundary: nat, tmpSeq: nat, fciCount: nat,
                     ghost header: seq<Octet>, ghost rs: seq<Record>)
    returns (rec': nat, extra': nat, fciCount': nat, lastSeq': nat, boundary': nat)
    requires rs != [] && Open(buf[..], header, rs) && extra == rs[|rs| - 1].extra < WORD16 && rec + 8 <= buf.Length
    requires fciCount == |rs| && rec == FB_HEADER_SIZE + 4 * |rs| - 4
    requires lastSeq == rs[|rs| - 1].start && boundary == (lastSeq + 16) % WORD32
    modifies buf
    ensures var rs' := BitmaskAppend(rs, tmpSeq);
            && Open(buf[..], header, rs') && extra' == rs'[|rs'| - 1].extra
            && fciCount' == |rs'| && rec' == FB_HEADER_SIZE + 4 * |rs'| - 4
            && lastSeq' == rs'[|rs'| - 1].start && boundary' == (lastSeq' + 16) % WORD32
    ensures forall j :: rec' + 4 <= j < buf.Length ==> buf[j] == old(buf[j])
  {
    hide Open, SetBit;
    rec', extra', fciCount', lastSeq', boundary' := rec, extra, fciCount, lastSeq, boundary;
    if lastSeq < tmpSeq <= boundary {
      var bitnum := tmpSeq - lastSeq;
      extra' := SetBit(extra, bitnum - 1);
      Longer(buf[..], header, rs, extra');
    } else {
      rec' := NextRecord(buf, rec, extra, tmpSeq, header, rs);
      fciCount', extra' := fciCount + 1, 0;
      lastSeq', boundary' := tmpSeq, (tmpSeq + 16) % WORD32;
    }
  }

  lemma BitmaskStarts(s: seq<nat>)
    requires s != []
    ensures BitmaskRecords(s[..1]) == [Record(s[0], 0)]
  {
  }

  /** The bitmask form of rist_receiver_send_nacks. */
  method EncodeBitmask(seqs: seq<nat>, ssrc: nat, buf: array<Octet>) returns (size: nat)
    requires seqs != [] && ssrc < WORD32 && buf.Length >= FB_HEADER_SIZE + 4 * |seqs|
    modifies buf
    ensures BitmaskMessage(buf[..], ssrc, BitmaskRecords(seqs)) && size == FB_HEADER_SIZE + 4 * |BitmaskRecords(seqs)|
    ensures forall j :: size <= j < buf.Length ==> buf[j] == old(buf[j])
  {
    hide RecordsAt, Open, Message, BitmaskRecords, BitmaskAppend;
    WriteHeader(buf, BITMASK_FLAGS, PTYPE_NACK_BITMASK, 0, ssrc / WORD16, ssrc % WORD16);
    ghost var header := buf[..FB_HEADER_SIZE];
    var rec, fciCount, extra := FB_HEADER_SIZE, 1, 0;
    var lastSeq, boundary := seqs[0], (seqs[0] + 16) % WORD32;
    Begin(buf, lastSeq, header);
    BitmaskStarts(seqs);
    ghost var rs := BitmaskRecords(seqs[..1]);
    var i := 1;
    while i < |seqs|
      invariant 1 <= i <= |seqs| && rs == BitmaskRecords(seqs[..i])
      invariant lastSeq == rs[|rs| - 1].start && boundary == (lastSeq + 16) % WORD32
      invariant Open(buf[..], header, rs) && extra == rs[|rs| - 1].extra
      invariant fciCount == |rs| && rec == FB_HEADER_SIZE + 4 * |rs| - 4
      invariant forall j :: rec + 4 <= j < buf.Length ==> buf[j] == old(buf[j])
    {
      BitmaskNext(seqs, i);
      MasksAreWords(seqs[..i]);
      rec, extra, fciCount, lastSeq, boundary :=
        BitmaskStep(buf, rec, extra, lastSeq, boundary, seqs[i], fciCount, header, rs);
      rs := BitmaskRecords(seqs[..i + 1]);
      i := i + 1;
    }
    assert seqs[..|seqs|] == seqs;
    MasksAreWords(seqs);
    Finish(buf, rec, extra, fciCount, BITMASK_FLAGS, PTYPE_NACK_BITMASK, 0, header, rs);
    size := rec + 4;
  }

  // ----- the decoder -----

  /** The number of records the length field stands for. */
  function CountOf(p: seq<Octet>): (n: nat)
    requires |p| >= FB_HEADER_SIZE
    ensures n < WORD16
  {
    (Word16At(p, 2) - 2) % WORD16
  }

  /** The first n records of a message. */
  function RecordsIn(p: seq<Octet>, n: nat): (rs: seq<Record>)
    requires FB_HEADER_SIZE + 4 * n <= |p|
    ensures |rs| == n
  {
    if n == 0 then [] else RecordsIn(p, n - 1) + [RecordAt(p, n - 1)]
  }

  /** A request that is long enough for the records it announces. */
  predicate Complete(p: seq<Octet>) {
    |p| >= FB_HEADER_SIZE && |p| >= FB_HEADER_SIZE + 4 * CountOf(p)
  }

  /**
    The two tests a request of size bytes has passed when it gets to the decoder, where p
    is what lies in memory from its first byte on: at least four bytes, and no fewer than
    its length says once that is cut to sixteen bits. Both count one byte too many.
   */
  predicate PassesLengthTest(p: seq<Octet>, size: nat) {
    |p| >= 4 && size + 1 >= 4 && (4 * (1 + Word16At(p, 2))) % WORD16 <= size + 1
  }

  /**
    The decoder does not test the length itself. What passes the tests is as long as the
    records it announces exactly if the length field counts the two words behind the
    first, is small enough for the cut, and the message is not one byte short of it.
   */
  lemma CompleteWhenTested(p: seq<Octet>, size: nat)
    requires size <= |p| && size < WORD16 && PassesLengthTest(p, size)
    ensures Complete(p[..size]) <==> 2 <= Word16At(p, 2) < 16383 && 4 * (1 + Word16At(p, 2)) != size + 1
  {
    if size >= 4 {
      assert Word16At(p[..size], 2) == Word16At(p, 2);
    }
    hide Word16At;
  }

  /** A bitmask request of twelve bytes with a length field of 0 passes, and announces 65534 records. */
  lemma TestIsNotEnough()
    ensures var p: seq<Octet> := [BITMASK_FLAGS, PTYPE_NACK_BITMASK] + seq(10, i => 0);
            PassesLengthTest(p, |p|) && CountOf(p) == 65534 && !Complete(p)
  {
  }

  /** The numbers the first n records ask for. */
  function Asked(p: seq<Octet>, n: nat, msb: nat): seq<nat>
    requires FB_HEADER_SIZE + 4 * n <= |p|
  {
    if p[1] == PTYPE_NACK_CUSTOM then ExpandAll(RecordsIn(p, n), msb) else BitsAll(RecordsIn(p, n), msb)
  }

  /** The sequence numbers a request asks for; none if it is malformed or comes at a wrong time. */
  function Requests(p: seq<Octet>, msb: nat, receiverMode: bool, authenticated: bool): seq<nat>
    requires Complete(p)
  {
    if receiverMode || !authenticated || p[0] / 64 != 2 then []
    else if p[1] == PTYPE_NACK_CUSTOM then
      if p[8..12] != NAME then [] else Asked(p, CountOf(p), msb)
    else if p[1] == PTYPE_NACK_BITMASK then Asked(p, CountOf(p), msb)
    else []
  }

  /** What the sender takes for a request: of version 2, and in the bitmask form or in the range form under its name. */
  predicate IsRequest(p: seq<Octet>) {
    && |p| >= FB_HEADER_SIZE && 128 <= p[0] < 192
    && (p[1] == 205 || (p[1] == 204 && p[8] == 'R' as nat && p[9] == 'I' as nat && p[10] == 'S' as nat && p[11] == 'T' as nat))
  }

  lemma {:induction false} FirstBit(r: Record, msb: nat, j: nat)
    ensures |BitsUpTo(r, msb, j)| >= 1
  {
    if j > 0 {
      FirstBit(r, msb, j - 1);
    }
  }

  lemma {:induction false} OneEach(rs: seq<Record>, msb: nat)
    ensures |BitsAll(rs, msb)| >= |rs|
  {
    hide BitsUpTo;
    if rs != [] {
      OneEach(rs[..|rs| - 1], msb);
      FirstBit(rs[|rs| - 1], msb, 16);
    }
  }

  lemma NameIs(p: seq<Octet>)
    requires |p| >= FB_HEADER_SIZE
    ensures p[8..12] == NAME <==> p[8] == 'R' as nat && p[9] == 'I' as nat && p[10] == 'S' as nat && p[11] == 'T' as nat
  {
    var name := p[8..12];
    assert name[0] == p[8] && name[1] == p[9] && name[2] == p[10] && name[3] == p[11];
  }

  /** A message asks for nothing exactly if it is no request, comes to a receiver or before the handshake, or has no record. */
  lemma RequestsMeaning(p: seq<Octet>, msb: nat, receiverMode: bool, authenticated: bool)
    requires Complete(p)
    ensures Requests(p, msb, receiverMode, authenticated) == []
            <==> receiverMode || !authenticated || !IsRequest(p) || CountOf(p) == 0
  {
    NameIs(p);
    var rs := RecordsIn(p, CountOf(p));
    OneEach(rs, msb);
    hide RecordsIn, NAME, Word16At, CountOf, Expand, BitsUpTo;
  }

  /** A record of the range form asks for its first number and as many after it as it says. */
  lemma {:induction false} RangeMeans(r: Record, msb: nat, k: nat)
    requires k <= r.extra
    ensures Expand(r, msb)[k] == (msb + r.start + k) % WORD32
    decreases r.extra
  {
    hide Expand;
    if r.extra == 0 {
      ExpandOne(r.start, msb);
    } else {
      ExpandNext(r.start, r.extra - 1, msb);
      if k < r.extra {
        RangeMeans(r.(extra := r.extra - 1), msb, k);
      }
    }
  }

  /** The (j + 1)-th number after the first of a record of the bitmask form is x, and its bit is set. */
  predicate MarksIt(r: Record, msb: nat, j: nat, x: nat) {
    Bit(r.extra, j) && x == (msb + r.start + j + 1) % WORD32
  }

  lemma LastMark(r: Record, msb: nat, n: nat, x: nat)
    requires n > 0
    ensures x in BitsUpTo(r, msb, n) <==> x in BitsUpTo(r, msb, n - 1) || MarksIt(r, msb, n - 1, x)
  {
    hide Bit;
    var last := if Bit(r.extra, n - 1) then [Wrap32(msb + r.start + n)] else [];
    assert x in BitsUpTo(r, msb, n) <==> x in BitsUpTo(r, msb, n - 1) || x in last;
  }

  /** Such a record asks for its first number, and for those whose bits are set. */
  lemma {:induction false} MaskMeans(r: Record, msb: nat, n: nat, x: nat)
    ensures x in BitsUpTo(r, msb, n) <==> x == (msb + r.start) % WORD32 || exists j :: 0 <= j < n && MarksIt(r, msb, j, x)
  {
    if n > 0 {
      MaskMeans(r, msb, n - 1, x);
      LastMark(r, msb, n, x);
      hide BitsUpTo, MarksIt;
    }
  }

  lemma OneMoreRecord(p: seq<Octet>, n: nat, msb: nat)
    requires FB_HEADER_SIZE + 4 * n + 4 <= |p|
    ensures ExpandAll(RecordsIn(p, n + 1), msb) == ExpandAll(RecordsIn(p, n), msb) + Expand(RecordAt(p, n), msb)
    ensures BitsAll(RecordsIn(p, n + 1), msb) == BitsAll(RecordsIn(p, n), msb) + BitsUpTo(RecordAt(p, n), msb, 16)
  {
    assert RecordsIn(p, n + 1)[..n] == RecordsIn(p, n);
  }

  /** The numbers of a range record, one by one. */
  method ExpandRecord(missing: nat, additional: nat, msb: nat) returns (requests: seq<nat>)
    ensures requests == Expand(Record(missing, additional), msb)
  {
    hide Expand;
    ExpandOne(missing, msb);
    requests := [Wrap32(msb + missing)];
    var j := 0;
    while j < additional
      invariant 0 <= j <= additional && requests == Expand(Record(missing, j), msb)
    {
      ExpandNext(missing, j, msb);
      requests := requests + [Wrap32(msb + missing + j + 1)];
      j := j + 1;
    }
  }

  /** The numbers of a bitmask record, bit by bit. */
  method ExpandBits(missing: nat, bitmask: nat, msb: nat) returns (requests: seq<nat>)
    ensures requests == BitsUpTo(Record(missing, bitmask), msb, 16)
  {
    requests := [Wrap32(msb + missing)];
    var j := 0;
    while j < 16
      invariant 0 <= j <= 16 && requests == BitsUpTo(Record(missing, bitmask), msb, j)
    {
      if Bit(bitmask, j) {
        requests := requests + [Wrap32(msb + missing + j + 1)];
      }
      j := j + 1;
    }
  }

  lemma AskedNext(p: seq<Octet>, i: nat, msb: nat)
    requires FB_HEADER_SIZE + 4 * i + 4 <= |p|
    ensures Asked(p, i + 1, msb) == Asked(p, i, msb) + (if p[1] == PTYPE_NACK_CUSTOM then Expand(RecordAt(p, i), msb)
                                                        else BitsUpTo(RecordAt(p, i), msb, 16))
  {
    OneMoreRecord(p, i, msb);
    hide ExpandAll, BitsAll, RecordsIn, Expand, BitsUpTo, RecordAt;
  }

  method ReadRecord(p: array<Octet>, i: nat) returns (start: nat, extra: nat)
    requires FB_HEADER_SIZE + 4 * i + 4 <= p.Length
    ensures RecordAt(p[..], i) == Record(start, extra)
  {
    hide Word16At;
    start := Get16(p, FB_HEADER_SIZE + 4 * i);
    extra := Get16(p, FB_HEADER_SIZE + 4 * i + 2);
  }

  /** One turn of the record loop. */
  method DecodeRecord(p: array<Octet>, i: nat, msb: nat) returns (more: seq<nat>)
    requires FB_HEADER_SIZE + 4 * i + 4 <= p.Length
    ensures Asked(p[..], i + 1, msb) == Asked(p[..], i, msb) + more
  {
    AskedNext(p[..], i, msb);
    hide Asked, Expand, BitsUpTo, Wrap32, RecordAt;
    var missing, extra := ReadRecord(p, i);
    if p[1] == PTYPE_NACK_CUSTOM {
      more := ExpandRecord(missing, extra, msb);
    } else {
      more := ExpandBits(missing, extra, msb);
    }
  }

  lemma NothingAsked(p: seq<Octet>, msb: nat)
    requires |p| >= FB_HEADER_SIZE
    ensures Asked(p, 0, msb) == []
  {
  }

  method DecodeRecords(p: array<Octet>, msb: nat) returns (requests: seq<nat>)
    requires Complete(p[..])
    ensures requests == Asked(p[..], CountOf(p[..]), msb)
  {
    NothingAsked(p[..], msb);
    hide Asked, Word16At;
    requests := [];
    var len := Get16(p, 2);
    var nrecords := (len - 2) % WORD16;
    var i := 0;
    while i < nrecords
      invariant 0 <= i <= nrecords == CountOf(p[..]) && requests == Asked(p[..], i, msb)
    {
      var more := DecodeRecord(p, i, msb);
      requests := requests + more;
      i := i + 1;
    }
  }

  /** rist_sender_recv_nack: the numbers it queues for retransmission, in order. */
  method Decode(p: array<Octet>, msb: nat, receiverMode: bool, authenticated: bool) returns (requests: seq<nat>)
    requires Complete(p[..])
    ensures requests == Requests(p[..], msb, receiverMode, authenticated)
  {
    requests := [];
    if receiverMode || !authenticated || p[0] / 64 != 2 {
      return;
    }
    if p[1] == PTYPE_NACK_CUSTOM {
      assert p[..][8..12] == p[8..12];
      if p[8..12] != NAME {
        return;
      }
    } else if p[1] != PTYPE_NACK_BITMASK {
      return;
    }
    requests := DecodeRecords(p, msb);
  }

  // ----- round trips -----

  lemma CutLength(n: nat)
    ensures n % WORD16 <= n && (n % WORD16 == n <==> n < WORD16) && ((2 + n) % WORD16 - 2) % WORD16 == n % WORD16
  {
  }

  /** As many records come out as went in, modulo 65536. */
  lemma CountComesBack(p: seq<Octet>, flags: Octet, ptype: Octet, first: nat, rs: seq<Record>)
    requires Message(p, flags, ptype, first, rs)
    ensures Complete(p) && CountOf(p) == |rs| % WORD16 <= |rs| && |p| >= FB_HEADER_SIZE + 4 * |rs|
  {
    CutLength(|rs|);
  }

  lemma {:induction false} RecordsComeBack(p: seq<Octet>, rs: seq<Record>, n: nat)
    requires RecordsAt(p, rs) && n <= |rs|
    ensures forall i :: 0 <= i < n ==> RecordsIn(p, n)[i] == Record(rs[i].start % WORD16, rs[i].extra)
  {
    if n > 0 {
      RecordsComeBack(p, rs, n - 1);
    }
  }

  lemma {:induction false} PrefixIsShorter(rs: seq<Record>, k: nat, msb: nat)
    requires k < |rs|
    ensures |ExpandAll(rs[..k], msb)| < |ExpandAll(rs, msb)|
  {
    var init := rs[..|rs| - 1];
    if k < |rs| - 1 {
      PrefixIsShorter(init, k, msb);
      assert init[..k] == rs[..k];
    }
  }

  lemma RangeRecordsComeBack(p: seq<Octet>, rs: seq<Record>, n: nat)
    requires RecordsAt(p, rs) && RecordsFit(rs) && n <= |rs| && |p| >= FB_HEADER_SIZE + 4 * n
    ensures RecordsIn(p, n) == rs[..n]
  {
    RecordsComeBack(p, rs, n);
  }

  lemma RangeCut(p: seq<Octet>, rs: seq<Record>, s: seq<nat>, low: nat, msb: nat, n: nat)
    requires RecordsAt(p, rs) && AsksFor(rs, s, low, msb) && |p| >= FB_HEADER_SIZE + 4 * |rs| && n <= |rs|
    ensures ExpandAll(RecordsIn(p, n), msb) == s <==> n == |rs|
  {
    hide ExpandAll, RecordsAt, RecordsIn;
    RangeRecordsComeBack(p, rs, n);
    if n == |rs| {
      assert rs[..|rs|] == rs;
    } else {
      PrefixIsShorter(rs, n, msb);
    }
  }

  lemma RangeRead(p: seq<Octet>, ssrc: nat, rs: seq<Record>, msb: nat)
    requires RangeMessage(p, ssrc, rs)
    ensures Complete(p) && |p| >= FB_HEADER_SIZE + 4 * |rs| && RecordsAt(p, rs)
    ensures Requests(p, msb, false, true) == ExpandAll(RecordsIn(p, |rs| % WORD16), msb)
  {
    hide RecordsAt, ExpandAll, RecordsIn;
    CountComesBack(p, RANGE_FLAGS, PTYPE_NACK_CUSTOM, ssrc, rs);
  }

  /** The range form gives back the same numbers in the same order, exactly if the number of records fits the length field. */
  lemma RangeRoundTrip(p: seq<Octet>, ssrc: nat, s: seq<nat>, msb: nat)
    requires s != [] && Shares(s, msb) && RangeMessage(p, ssrc, RangeRecords(s))
    ensures Complete(p)
    ensures Requests(p, msb, false, true) == s <==> |RangeRecords(s)| < WORD16
    ensures |s| < WORD16 ==> Requests(p, msb, false, true) == s
  {
    hide RangeRecords, ExpandAll, Shares, RangeMessage, Requests, RecordsIn, CountOf, Complete, RecordsAt, AsksFor;
    var rs := RangeRecords(s);
    RangeRead(p, ssrc, rs, msb);
    RangeExpands(s, msb);
    CutLength(|rs|);
    RangeCut(p, rs, s, s[|s| - 1] % WORD16, msb, |rs| % WORD16);
  }

  lemma BitmaskRead(p: seq<Octet>, ssrc: nat, rs: seq<Record>, msb: nat)
    requires BitmaskMessage(p, ssrc, rs)
    ensures Complete(p) && |p| >= FB_HEADER_SIZE + 4 * |rs| && RecordsAt(p, rs) && |rs| % WORD16 <= |rs|
    ensures Requests(p, msb, false, true) == BitsAll(RecordsIn(p, |rs| % WORD16), msb)
  {
    hide RecordsAt, BitsAll, RecordsIn;
    CountComesBack(p, BITMASK_FLAGS, PTYPE_NACK_BITMASK, 0, rs);
  }

  lemma {:induction false} BitsMean(r: Record, start: nat, msb: nat, j: nat, x: nat)
    requires start == r.start % WORD16 && r.start == msb + start && j <= 16
    requires forall y: nat :: Covers(r, y) ==> y < WORD32
    ensures x in BitsUpTo(Record(start, r.extra), msb, j) <==> Covers(r, x) && x <= r.start + j
  {
    if j == 0 {
      assert Covers(r, r.start);
    } else {
      BitsMean(r, start, msb, j - 1, x);
      if Bit(r.extra, j - 1) {
        assert Covers(r, r.start + j);
      }
    }
  }

  lemma CoversAtMost(r: Record, x: nat)
    ensures Covers(r, x) ==> x <= r.start + 16
  {
  }

  lemma {:induction false} BitsAllMean(rs: seq<Record>, cut: seq<Record>, msb: nat, x: nat)
    requires |cut| == |rs| && forall i :: 0 <= i < |rs| ==> cut[i] == Record(rs[i].start % WORD16, rs[i].extra)
    requires forall i :: 0 <= i < |rs| ==> rs[i].start == msb + rs[i].start % WORD16
    requires forall i, y: nat :: 0 <= i < |rs| && Covers(rs[i], y) ==> y < WORD32
    ensures x in BitsAll(cut, msb) <==> SomeCovers(rs, x)
  {
    hide Covers;
    if rs != [] {
      var init, r := rs[..|rs| - 1], rs[|rs| - 1];
      BitsAllMean(init, cut[..|rs| - 1], msb, x);
      BitsMean(r, r.start % WORD16, msb, 16, x);
      CoversAtMost(r, x);
      assert rs == init + [r];
      CoversLast(init, r, x);
    }
  }

  lemma SharedIn(s: seq<nat>, msb: nat, y: nat)
    requires Shares(s, msb) && y in s
    ensures y < WORD32
  {
    SharedFits(y, msb);
  }

  /** The bitmask form asks for the numbers that its first records cover, as many as the length field tells. */
  lemma BitmaskDecodes(p: seq<Octet>, ssrc: nat, s: seq<nat>, msb: nat, x: nat)
    requires s != [] && Shares(s, msb) && BitmaskMessage(p, ssrc, BitmaskRecords(s))
    ensures Complete(p)
    ensures x in Requests(p, msb, false, true) <==> SomeCovers(BitmaskRecords(s)[..|BitmaskRecords(s)| % WORD16], x)
    ensures x in s <==> SomeCovers(BitmaskRecords(s), x)
  {
    hide BitmaskRecords, Complete, Requests, BitmaskMessage, RecordsAt, BitsAll;
    var rs := BitmaskRecords(s);
    var n := |rs| % WORD16;
    BitmaskRead(p, ssrc, rs, msb);
    RecordsComeBack(p, rs, n);
    forall i | 0 <= i < |rs|
      ensures rs[i].start == msb + rs[i].start % WORD16
    {
      StartsComeFrom(s, i);
    }
    forall i, y: nat | 0 <= i < |rs| && Covers(rs[i], y)
      ensures y < WORD32
    {
      assert SomeCovers(rs, y);
      BitmaskCovers(s, y);
      SharedIn(s, msb, y);
    }
    BitsAllMean(rs[..n], RecordsIn(p, n), msb, x);
    BitmaskCovers(s, x);
  }

  /**
    So the same set of numbers comes back exactly if the records that the length field
    cannot count cover nothing else; with fewer than 65536 records there are none of those.
   */
  lemma BitmaskRoundTrip(p: seq<Octet>, ssrc: nat, s: seq<nat>, msb: nat)
    requires s != [] && Shares(s, msb) && BitmaskMessage(p, ssrc, BitmaskRecords(s))
    ensures Complete(p)
    ensures var rs, n := BitmaskRecords(s), |BitmaskRecords(s)| % WORD16;
            && ((forall x: nat :: x in Requests(p, msb, false, true) <==> x in s)
                <==> forall x: nat :: SomeCovers(rs[n..], x) ==> SomeCovers(rs[..n], x))
            && (|rs| < WORD16 ==> forall x: nat :: x in Requests(p, msb, false, true) <==> x in s)
  {
    hide BitmaskRecords, Complete, Requests, BitmaskMessage, RecordsAt, SomeCovers;
    var rs, n := BitmaskRecords(s), |BitmaskRecords(s)| % WORD16;
    BitmaskDecodes(p, ssrc, s, msb, 0);
    forall x: nat
      ensures x in Requests(p, msb, false, true) <==> SomeCovers(rs[..n], x)
      ensures x in s <==> SomeCovers(rs[..n], x) || SomeCovers(rs[n..], x)
    {
      BitmaskDecodes(p, ssrc, s, msb, x);
      assert rs == rs[..n] + rs[n..];
      CoversConcat(rs[..n], rs[n..], x);
    }
    if |rs| < WORD16 {
      assert rs[n..] == [];
      forall x: nat
        ensures !SomeCovers(rs[n..], x)
      {
        NoneCovers(x);
      }
    }
  }
}
