/**
  Counter mode (librist-master/contrib/aes.c:229-237 and 316-363), section 6.5 of NIST
  SP 800-38A.
 */
module AesCtr {
  import opened Arithmetic
  import opened BigEndian
  import opened Bytes
  import opened Aes

  // ----- the counter -----

  /** The next counter: the last byte grows, and passes a carry on when it wraps around. */
  function Increment(s: seq<Byte>): (r: seq<Byte>)
    ensures |r| == |s|
  {
    if s == [] then []
    else if s[|s| - 1] == 0xff then Increment(s[..|s| - 1]) + [0]
    else s[|s| - 1 := s[|s| - 1] + 1]
  }

  lemma LastByteGrows(x: Byte)
    ensures x == 0xff <==> x as nat == 255
    ensures x != 0xff ==> (x + 1) as nat == x as nat + 1
    ensures x + 1 == 0 <==> x == 0xff
  {
    PlusOne(x);
  }

  /** The next counter is one more, and starts anew when its bytes can hold no more. */
  lemma {:induction false} IncrementAdds(s: seq<Byte>)
    ensures Value(Increment(s)) == if Value(s) + 1 == Pow256(|s|) then 0 else Value(s) + 1
  {
    if s != [] {
      var n := |s| - 1;
      ValueFits(s[..n]);
      LastByteGrows(s[n]);
      if s[n] == 0xff {
        IncrementAdds(s[..n]);
        assert (Increment(s[..n]) + [0])[..n] == Increment(s[..n]);
      } else {
        assert s[n := s[n] + 1][..n] == s[..n];
      }
    }
  }

  /** The counter after n steps. */
  function Counter(iv: seq<Byte>, n: nat): (c: seq<Byte>)
    ensures |c| == |iv|
  {
    if n == 0 then iv else Increment(Counter(iv, n - 1))
  }

  /** How often the counter has started anew after n steps. */
  lemma {:induction false} CounterWraps(iv: seq<Byte>, n: nat) returns (q: nat)
    ensures Value(Counter(iv, n)) + q * Pow256(|iv|) == Value(iv) + n
  {
    if n == 0 {
      q := 0;
    } else {
      q := CounterWraps(iv, n - 1);
      IncrementAdds(Counter(iv, n - 1));
      hide Value, Increment, Pow256;
      Distribute(q, Pow256(|iv|));
      if Value(Counter(iv, n - 1)) + 1 == Pow256(|iv|) {
        q := q + 1;
      }
    }
  }

  /** n steps add n, modulo what the bytes can hold. */
  lemma CounterAdds(iv: seq<Byte>, n: nat)
    ensures Value(Counter(iv, n)) == (Value(iv) + n) % Pow256(|iv|)
  {
    var q := CounterWraps(iv, n);
    ValueFits(Counter(iv, n));
    RemainderIs(Value(iv) + n, q, Value(Counter(iv, n)), Pow256(|iv|));
  }

  /** So no counter comes twice before all have been used. */
  lemma CountersDiffer(iv: seq<Byte>, n: nat, m: nat)
    requires n < m < n + Pow256(|iv|)
    ensures Counter(iv, n) != Counter(iv, m)
  {
    var q := CounterWraps(iv, n);
    var k := CounterWraps(iv, m);
    hide Value, Counter, Pow256;
    if Counter(iv, n) == Counter(iv, m) {
      if q < k {
        Apart(q, k, Pow256(|iv|));
      } else if k < q {
        Apart(k, q, Pow256(|iv|));
      }
    }
  }

  /** The bytes from position at on have wrapped around to zero; those from low to there are still to grow. */
  ghost predicate Carried(s: seq<Byte>, low: nat, at: nat, now: seq<Byte>) {
    && low <= at <= |s|
    && now == s[..at] + Zeros(|s| - at)
    && Increment(s[low..]) == Increment(s[low..at]) + Zeros(|s| - at)
  }

  lemma CarryStarts(s: seq<Byte>, low: nat)
    requires low <= |s|
    ensures Carried(s, low, |s|, s)
  {
    assert s[low..|s|] == s[low..] && s[..|s|] == s && Zeros(0) == [];
  }

  lemma IncrementNone()
    ensures Increment([]) == []
  {
  }

  lemma LastStep(s: seq<Byte>, n: nat)
    requires s != []
    ensures var b := s[|s| - 1];
            && (b == 0xff <==> b + 1 == 0)
            && Increment(s) == (if b == 0xff then Increment(s[..|s| - 1]) else s[..|s| - 1]) + [b + 1]
            && Zeros(n + 1) == [0] + Zeros(n)
  {
    LastByteGrows(s[|s| - 1]);
  }

  /** The byte before grows, which is all, or wraps around in its turn. */
  lemma CarryMoves(s: seq<Byte>, low: nat, idx: nat, now: seq<Byte>)
    requires Carried(s, low, idx + 1, now) && low <= idx < |s|
    ensures |now| == |s|
    ensures var b := now[idx] + 1;
            && (b == 0 && idx > low ==> Carried(s, low, idx, now[idx := b]))
            && (b != 0 || idx == low ==> now[idx := b] == s[..low] + Increment(s[low..]))
  {
    hide Increment;
    LastStep(s[low..idx + 1], |s| - 1 - idx);
    assert s[low..idx + 1][..idx - low] == s[low..idx];
    assert s[..idx + 1] == s[..idx] + [s[idx]] && s[..idx] == s[..low] + s[low..idx];
    IncrementNone();
    var b := now[idx] + 1;
    assert now[idx := b] == s[..idx] + [b] + Zeros(|s| - 1 - idx);
  }

  lemma CarryEnds(s: seq<Byte>, now: seq<Byte>)
    requires Carried(s, |s|, |s|, now)
    ensures now == s[..|s|] + Increment(s[|s|..])
  {
  }

  /**
    increment_iv: the last counterSize bytes count up by one, big-endian; the others stay.
   */
  method IncrementIv(iv: array<Byte>, counterSize: nat)
    requires iv.Length == BLOCK_SIZE && counterSize <= BLOCK_SIZE
    modifies iv
    ensures iv[..] == old(iv[..BLOCK_SIZE - counterSize]) + Increment(old(iv[BLOCK_SIZE - counterSize..]))
  {
    var low := BLOCK_SIZE - counterSize;
    ghost var s := iv[..];
    CarryStarts(s, low);
    hide Carried, Increment;
    var idx := BLOCK_SIZE - 1;
    while idx >= low
      invariant low - 1 <= idx < BLOCK_SIZE && Carried(s, low, idx + 1, iv[..])
      decreases idx
    {
      CarryMoves(s, low, idx, iv[..]);
      iv[idx] := iv[idx] + 1;
      if iv[idx] != 0 || idx == low {
        break;
      }
      idx := idx - 1;
    }
    if counterSize == 0 {
      CarryEnds(s, iv[..]);
    }
  }

  // ----- the mode -----

  /** Byte k of the key stream. */
  function Stream(key: seq<Word>, keysize: int, iv: seq<Byte>, k: nat): Byte
    requires |iv| == BLOCK_SIZE && Expands(key, EncryptionRounds(keysize))
  {
    EncryptBlock(Counter(iv, k / BLOCK_SIZE), key, keysize)[k % BLOCK_SIZE]
  }

  function Ctr(text: seq<Byte>, key: seq<Word>, keysize: int, iv: seq<Byte>): (out: seq<Byte>)
    requires |iv| == BLOCK_SIZE && Expands(key, EncryptionRounds(keysize))
    ensures |out| == |text|
    ensures forall k :: 0 <= k < |text| ==> out[k] == Xor(text[k], Stream(key, keysize, iv, k))
  {
    seq(|text|, k requires 0 <= k < |text| => Xor(text[k], Stream(key, keysize, iv, k)))
  }

  /** Counter mode is its own inverse. */
  lemma CtrInvolution(text: seq<Byte>, key: seq<Word>, keysize: int, iv: seq<Byte>)
    requires |iv| == BLOCK_SIZE && Expands(key, EncryptionRounds(keysize))
    ensures Ctr(Ctr(text, key, keysize, iv), key, keysize, iv) == text
  {
    hide Stream, Xor;
    forall k | 0 <= k < |text|
      ensures Ctr(Ctr(text, key, keysize, iv), key, keysize, iv)[k] == text[k]
    {
      XorTwice(text[k], Stream(key, keysize, iv, k));
    }
  }

  /** Byte k of the output is that of the text, plus the same byte of the block that the counter leads to: iv advanced by k / 16. */
  lemma CtrMeaning(text: seq<Byte>, key: seq<Word>, keysize: int, iv: seq<Byte>, k: nat) returns (c: seq<Byte>)
    requires |iv| == BLOCK_SIZE && Expands(key, EncryptionRounds(keysize)) && k < |text|
    ensures |c| == BLOCK_SIZE && Value(c) == (Value(iv) + k / 16) % Pow256(BLOCK_SIZE)
    ensures Ctr(text, key, keysize, iv)[k] == Xor(text[k], EncryptBlock(c, key, keysize)[k % 16])
  {
    hide Value, Pow256, EncryptBlock, Xor, Counter, Expands;
    c := Counter(iv, k / 16);
    CounterAdds(iv, k / 16);
  }

  /** xor_buf. */
  method XorBuf(pad: seq<Byte>, out: array<Byte>, at: nat, len: nat)
    requires len <= |pad| && at + len <= out.Length
    modifies out
    ensures forall j :: at <= j < at + len ==> out[j] == Xor(old(out[j]), pad[j - at])
    ensures forall j :: 0 <= j < at || at + len <= j < out.Length ==> out[j] == old(out[j])
  {
    hide Xor;
    var i := 0;
    while i < len
      invariant 0 <= i <= len
      invariant forall j :: at <= j < at + i ==> out[j] == Xor(old(out[j]), pad[j - at])
      invariant forall j :: 0 <= j < at || at + i <= j < out.Length ==> out[j] == old(out[j])
    {
      out[at + i] := Xor(out[at + i], pad[i]);
      i := i + 1;
    }
  }

  /** The first done bytes went through counter mode, the others are still the text. */
  ghost predicate DoneTo(out: seq<Byte>, text: seq<Byte>, key: seq<Word>, keysize: int, iv: seq<Byte>, done: nat)
    requires |iv| == BLOCK_SIZE && Expands(key, EncryptionRounds(keysize))
  {
    && done <= |text| <= |out|
    && forall k :: 0 <= k < |text| ==> out[k] == if k < done then Xor(text[k], Stream(key, keysize, iv, k)) else text[k]
  }

  /** Part of a block more. */
  lemma DoneMore(out: seq<Byte>, out': seq<Byte>, text: seq<Byte>, key: seq<Word>, keysize: int, iv: seq<Byte>,
                 n: nat, len: nat, pad: seq<Byte>)
    requires |iv| == BLOCK_SIZE && Expands(key, EncryptionRounds(keysize)) && len <= BLOCK_SIZE == |pad| && |out'| == |out|
    requires DoneTo(out, text, key, keysize, iv, BLOCK_SIZE * n) && BLOCK_SIZE * n + len <= |text|
    requires pad == EncryptBlock(Counter(iv, n), key, keysize)
    requires forall j :: BLOCK_SIZE * n <= j < BLOCK_SIZE * n + len ==> out'[j] == Xor(out[j], pad[j - BLOCK_SIZE * n])
    requires forall j :: 0 <= j < BLOCK_SIZE * n || BLOCK_SIZE * n + len <= j < |out| ==> out'[j] == out[j]
    ensures DoneTo(out', text, key, keysize, iv, BLOCK_SIZE * n + len)
  {
    hide EncryptBlock, Counter, Xor;
    forall k | BLOCK_SIZE * n <= k < BLOCK_SIZE * n + len
      ensures out'[k] == Xor(text[k], Stream(key, keysize, iv, k))
    {
      assert k / BLOCK_SIZE == n && k % BLOCK_SIZE == k - BLOCK_SIZE * n;
    }
  }

  /** One whole block of aes_encrypt_ctr, or what is left over at the end. */
  method CtrStep(ivBuf: array<Byte>, out: array<Byte>, key: seq<Word>, keysize: int, len: nat,
                 ghost text: seq<Byte>, ghost iv: seq<Byte>, idx: nat, ghost n: nat)
    requires |iv| == BLOCK_SIZE == ivBuf.Length && Expands(key, EncryptionRounds(keysize)) && ivBuf != out
    requires idx == BLOCK_SIZE * n && len <= BLOCK_SIZE && idx + len <= |text| <= out.Length
    requires ivBuf[..] == Counter(iv, n) && DoneTo(out[..], text, key, keysize, iv, idx)
    modifies out
    ensures DoneTo(out[..], text, key, keysize, iv, idx + len)
    ensures forall j :: |text| <= j < out.Length ==> out[j] == old(out[j])
  {
    hide DoneTo, Counter, EncryptBlock, Xor, Expands;
    ghost var before := out[..];
    var pad := Encrypt(ivBuf[..], key, keysize);
    XorBuf(pad, out, idx, len);
    DoneMore(before, out[..], text, key, keysize, iv, n, len, pad);
  }

  /** memcpy from the input, unless it is the output. */
  method CopyIn(input: array<Byte>, inLen: nat, out: array<Byte>)
    requires inLen <= input.Length && inLen <= out.Length
    modifies out
    ensures out[..inLen] == old(input[..inLen])
    ensures forall j :: inLen <= j < out.Length ==> out[j] == old(out[j])
  {
    if input != out {
      var i := 0;
      while i < inLen
        invariant 0 <= i <= inLen && out[..i] == input[..i]
        invariant forall j :: inLen <= j < out.Length ==> out[j] == old(out[j])
      {
        out[i] := input[i];
        i := i + 1;
      }
    }
  }

  lemma CounterStarts(iv: seq<Byte>)
    ensures Counter(iv, 0) == iv
  {
  }

  /** All sixteen bytes of the counter block count. */
  method NextCounter(ivBuf: array<Byte>, ghost iv: seq<Byte>, ghost n: nat)
    requires ivBuf.Length == BLOCK_SIZE && ivBuf[..] == Counter(iv, n)
    modifies ivBuf
    ensures ivBuf[..] == Counter(iv, n + 1)
  {
    hide Increment;
    assert ivBuf[BLOCK_SIZE - BLOCK_SIZE..] == ivBuf[..];
    IncrementIv(ivBuf, BLOCK_SIZE);
  }

  /**
    aes_encrypt_ctr, which decrypts as well; input and output may be the same array, and
    the input may have any length.
   */
  method EncryptCtr(input: array<Byte>, inLen: nat, out: array<Byte>, key: seq<Word>, keysize: int, iv: seq<Byte>)
    requires inLen <= input.Length && inLen <= out.Length
    requires |iv| == BLOCK_SIZE && Expands(key, EncryptionRounds(keysize))
    modifies out
    ensures out[..inLen] == Ctr(old(input[..inLen]), key, keysize, iv)
    ensures forall j :: inLen <= j < out.Length ==> out[j] == old(out[j])
  {
    hide Counter, EncryptBlock, Xor, Expands, Increment;
    ghost var text := input[..inLen];
    CopyIn(input, inLen, out);
    var ivBuf := new Byte[BLOCK_SIZE](i requires 0 <= i < BLOCK_SIZE => iv[i]);
    CounterStarts(iv);
    assert ivBuf[..] == iv;
    var idx := 0;
    ghost var n := 0;
    if inLen > BLOCK_SIZE {
      var lastBlockLength := inLen - BLOCK_SIZE;
      while idx < lastBlockLength
        invariant idx == BLOCK_SIZE * n < inLen && ivBuf[..] == Counter(iv, n)
        invariant DoneTo(out[..], text, key, keysize, iv, idx)
        invariant forall j :: inLen <= j < out.Length ==> out[j] == old(out[j])
      {
        CtrStep(ivBuf, out, key, keysize, BLOCK_SIZE, text, iv, idx, n);
        NextCounter(ivBuf, iv, n);
        idx := idx + BLOCK_SIZE;
        n := n + 1;
      }
    }
    CtrStep(ivBuf, out, key, keysize, inLen - idx, text, iv, idx, n);
  }
}
