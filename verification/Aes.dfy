/**
  The block cipher (librist-master/contrib/aes.c:595-1083) and counter mode
  (librist-master/contrib/aes.c:229-237 and 316-363), after sections 5.1 and 5.3 of
  FIPS 197 and section 6.5 of NIST SP 800-38A. A key schedule is any array of words.
 */
module Aes {
  import opened Bytes
  import opened AesTables

  // ----- columns -----

  datatype Column = Column(b0: Byte, b1: Byte, b2: Byte, b3: Byte)

  function Mix(c: Column): Column {
    Column(Xor4(Row(c.b0).by2, Row(c.b1).by3, c.b2, c.b3),
           Xor4(c.b0, Row(c.b1).by2, Row(c.b2).by3, c.b3),
           Xor4(c.b0, c.b1, Row(c.b2).by2, Row(c.b3).by3),
           Xor4(Row(c.b0).by3, c.b1, c.b2, Row(c.b3).by2))
  }

  function InvMix(c: Column): Column {
    Column(Xor4(Row(c.b0).by14, Row(c.b1).by11, Row(c.b2).by13, Row(c.b3).by9),
           Xor4(Row(c.b0).by9, Row(c.b1).by14, Row(c.b2).by11, Row(c.b3).by13),
           Xor4(Row(c.b0).by13, Row(c.b1).by9, Row(c.b2).by14, Row(c.b3).by11),
           Xor4(Row(c.b0).by11, Row(c.b1).by13, Row(c.b2).by9, Row(c.b3).by14))
  }

  // ----- why mixing back gives the column that was mixed -----

  /** The product of a sum is the sum of the products. */
  lemma RowAdds(x: Byte, y: Byte)
    ensures var p, q, r := Row(x), Row(y), Row(Xor(x, y));
            && r.by9 == Xor(p.by9, q.by9) && r.by11 == Xor(p.by11, q.by11)
            && r.by13 == Xor(p.by13, q.by13) && r.by14 == Xor(p.by14, q.by14)
  {
    hide Row, Xtime, Xor;
    RowIsMultiples(x);
    RowIsMultiples(y);
    RowIsMultiples(Xor(x, y));
    var x2, x4, x8 := Xtime(x), Xtime(Xtime(x)), Xtime(Xtime(Xtime(x)));
    var y2, y4, y8 := Xtime(y), Xtime(Xtime(y)), Xtime(Xtime(Xtime(y)));
    XtimeAdds(x, y);
    XtimeAdds(x2, y2);
    XtimeAdds(x4, y4);
    Interchange(x8, y8, x, y);
    Interchange(x8, y8, x2, y2);
    Interchange(x8, y8, x4, y4);
    Interchange(Xor(x8, x2), Xor(y8, y2), x, y);
    Interchange(Xor(x8, x4), Xor(y8, y4), x, y);
    Interchange(Xor(x8, x4), Xor(y8, y4), x2, y2);
  }

  lemma RowAdds4(x: Byte, y: Byte, z: Byte, w: Byte)
    ensures var p, q, r, s, t := Row(x), Row(y), Row(z), Row(w), Row(Xor4(x, y, z, w));
            && t.by9 == Xor4(p.by9, q.by9, r.by9, s.by9) && t.by11 == Xor4(p.by11, q.by11, r.by11, s.by11)
            && t.by13 == Xor4(p.by13, q.by13, r.by13, s.by13) && t.by14 == Xor4(p.by14, q.by14, r.by14, s.by14)
  {
    hide Row, Xor;
    RowAdds(x, y);
    RowAdds(Xor(x, y), z);
    RowAdds(Xor(Xor(x, y), z), w);
  }

  function PowersOf(x: Byte): Powers {
    Powers(x, Xtime(x), Xtime(Xtime(x)), Xtime(Xtime(Xtime(x))), Xtime(Xtime(Xtime(Xtime(x)))))
  }

  const NINE := Choice(true, false, false, true, false)
  const ELEVEN := Choice(true, true, false, true, false)
  const THIRTEEN := Choice(true, false, true, true, false)
  const FOURTEEN := Choice(false, true, true, true, false)
  const EIGHTEEN := Choice(false, true, false, false, true)
  const TWENTY_TWO := Choice(false, true, true, false, true)
  const TWENTY_SIX := Choice(false, true, false, true, true)
  const TWENTY_EIGHT := Choice(false, false, true, true, true)

  /** The multiples of a byte and of its double, as sums of the byte times powers of x. */
  lemma RowSums(x: Byte)
    ensures var p, r := PowersOf(x), Row(x);
            && r.by2 == p.x2 && r.by3 == Xor(p.x2, x) && r.by9 == Sum(NINE, p) && r.by11 == Sum(ELEVEN, p)
            && r.by13 == Sum(THIRTEEN, p) && r.by14 == Sum(FOURTEEN, p)
    ensures var p, r := PowersOf(x), Row(Xtime(x));
            && r.by9 == Sum(EIGHTEEN, p) && r.by11 == Sum(TWENTY_TWO, p)
            && r.by13 == Sum(TWENTY_SIX, p) && r.by14 == Sum(TWENTY_EIGHT, p)
  {
    hide Row, Xtime, Xor, Sum;
    RowIsMultiples(x);
    RowIsMultiples(Xtime(x));
    var p := PowersOf(x);
    Single(p);
    SumAdds(EIGHT, ONE, p);
    Sum3(EIGHT, TWO, ONE, p);
    Sum3(EIGHT, FOUR, ONE, p);
    Sum3(EIGHT, FOUR, TWO, p);
    SumAdds(SIXTEEN, TWO, p);
    Sum3(SIXTEEN, FOUR, TWO, p);
    Sum3(SIXTEEN, EIGHT, TWO, p);
    Sum3(SIXTEEN, EIGHT, FOUR, p);
  }

  /** What one byte contributes to each byte that comes back: itself to its own, nothing to the others. */
  lemma Contributions(x: Byte)
    ensures var p, p2, p3 := Row(x), Row(Row(x).by2), Row(Row(x).by3);
            && Xor4(p2.by14, p.by11, p.by13, p3.by9) == x && Xor4(p3.by14, p2.by11, p.by13, p.by9) == 0
            && Xor4(p.by14, p3.by11, p2.by13, p.by9) == 0 && Xor4(p.by14, p.by11, p3.by13, p2.by9) == 0
  {
    hide Row, Xtime, Xor, Xor4, Sum;
    var p := PowersOf(x);
    RowSums(x);
    RowAdds(Xtime(x), x);
    SumAdds(EIGHTEEN, NINE, p);
    SumAdds(TWENTY_TWO, ELEVEN, p);
    SumAdds(TWENTY_SIX, THIRTEEN, p);
    SumAdds(TWENTY_EIGHT, FOURTEEN, p);
    Sum4(TWENTY_EIGHT, ELEVEN, THIRTEEN, Either(EIGHTEEN, NINE), p);
    Sum4(Either(TWENTY_EIGHT, FOURTEEN), TWENTY_TWO, THIRTEEN, NINE, p);
    Sum4(FOURTEEN, Either(TWENTY_TWO, ELEVEN), TWENTY_SIX, NINE, p);
    Sum4(FOURTEEN, ELEVEN, Either(TWENTY_SIX, THIRTEEN), EIGHTEEN, p);
    Single(p);
  }

  /** The first byte of what comes back is the sum of what the four bytes contribute to it. */
  lemma FirstByte(c: Column)
    ensures InvMix(Mix(c)).b0 == c.b0
  {
    hide Row, Xor, Xor4;
    var p, q, r, s := Row(c.b0), Row(c.b1), Row(c.b2), Row(c.b3);
    RowAdds4(p.by2, q.by3, c.b2, c.b3);
    RowAdds4(c.b0, q.by2, r.by3, c.b3);
    RowAdds4(c.b0, c.b1, r.by2, s.by3);
    RowAdds4(p.by3, c.b1, c.b2, s.by2);
    Regroup(Row(p.by2).by14, Row(q.by3).by14, r.by14, s.by14, p.by11, Row(q.by2).by11, Row(r.by3).by11, s.by11,
            p.by13, q.by13, Row(r.by2).by13, Row(s.by3).by13, Row(p.by3).by9, q.by9, r.by9, Row(s.by2).by9);
    Contributions(c.b0);
    Contributions(c.b1);
    Contributions(c.b2);
    Contributions(c.b3);
    XorZeros(c.b0);
  }

  function Turn(c: Column): Column {
    Column(c.b1, c.b2, c.b3, c.b0)
  }

  /** Mixing treats all four places alike. */
  lemma MixTurns(c: Column)
    ensures Mix(Turn(c)) == Turn(Mix(c)) && InvMix(Turn(c)) == Turn(InvMix(c))
  {
    hide Row, Xor4;
    var p, q, r, s := Row(c.b0), Row(c.b1), Row(c.b2), Row(c.b3);
    XorTurns(c.b0, q.by2, r.by3, c.b3);
    XorTurns(c.b0, c.b1, r.by2, s.by3);
    XorTurns(p.by3, c.b1, c.b2, s.by2);
    XorTurns(p.by2, q.by3, c.b2, c.b3);
    XorTurns(p.by9, q.by14, r.by11, s.by13);
    XorTurns(p.by13, q.by9, r.by14, s.by11);
    XorTurns(p.by11, q.by13, r.by9, s.by14);
    XorTurns(p.by14, q.by11, r.by13, s.by9);
  }

  /** Mixing back gives the column that was mixed. */
  lemma MixInverse(c: Column)
    ensures InvMix(Mix(c)) == c
  {
    hide Mix, InvMix;
    var c1, c2, c3 := Turn(c), Turn(Turn(c)), Turn(Turn(Turn(c)));
    FirstByte(c);
    FirstByte(c1);
    FirstByte(c2);
    FirstByte(c3);
    MixTurns(c);
    MixTurns(c1);
    MixTurns(c2);
    MixTurns(Mix(c));
    MixTurns(Mix(c1));
    MixTurns(Mix(c2));
  }

  // ----- the state and its four steps -----

  const BLOCK_SIZE := 16

  datatype Matrix = Matrix(c0: Column, c1: Column, c2: Column, c3: Column)

  function SubColumn(c: Column): Column {
    Column(Sub(c.b0), Sub(c.b1), Sub(c.b2), Sub(c.b3))
  }

  function InvSubColumn(c: Column): Column {
    Column(InvSub(c.b0), InvSub(c.b1), InvSub(c.b2), InvSub(c.b3))
  }

  function Substituted(m: Matrix): Matrix {
    Matrix(SubColumn(m.c0), SubColumn(m.c1), SubColumn(m.c2), SubColumn(m.c3))
  }

  function SubstitutedBack(m: Matrix): Matrix {
    Matrix(InvSubColumn(m.c0), InvSubColumn(m.c1), InvSubColumn(m.c2), InvSubColumn(m.c3))
  }

  /** Row r is turned r places to the left. */
  function Shifted(m: Matrix): Matrix {
    Matrix(Column(m.c0.b0, m.c1.b1, m.c2.b2, m.c3.b3),
           Column(m.c1.b0, m.c2.b1, m.c3.b2, m.c0.b3),
           Column(m.c2.b0, m.c3.b1, m.c0.b2, m.c1.b3),
           Column(m.c3.b0, m.c0.b1, m.c1.b2, m.c2.b3))
  }

  /** Row r is turned r places to the right. */
  function ShiftedBack(m: Matrix): Matrix {
    Matrix(Column(m.c0.b0, m.c3.b1, m.c2.b2, m.c1.b3),
           Column(m.c1.b0, m.c0.b1, m.c3.b2, m.c2.b3),
           Column(m.c2.b0, m.c1.b1, m.c0.b2, m.c3.b3),
           Column(m.c3.b0, m.c2.b1, m.c1.b2, m.c0.b3))
  }

  function Mixed(m: Matrix): Matrix {
    Matrix(Mix(m.c0), Mix(m.c1), Mix(m.c2), Mix(m.c3))
  }

  function MixedBack(m: Matrix): Matrix {
    Matrix(InvMix(m.c0), InvMix(m.c1), InvMix(m.c2), InvMix(m.c3))
  }

  /** The bytes of a key word, the most significant one first. */
  function KeyColumn(w: Word): Column {
    Column(((w >> 24) & 0xff) as Byte, ((w >> 16) & 0xff) as Byte, ((w >> 8) & 0xff) as Byte, (w & 0xff) as Byte)
  }

  function AddColumn(c: Column, k: Column): Column {
    Column(Xor(c.b0, k.b0), Xor(c.b1, k.b1), Xor(c.b2, k.b2), Xor(c.b3, k.b3))
  }

  /** The i-th round key is the i-th group of four words. */
  function KeyAdded(m: Matrix, key: seq<Word>, i: nat): Matrix
    requires 4 * i + 4 <= |key|
  {
    Matrix(AddColumn(m.c0, KeyColumn(key[4 * i])), AddColumn(m.c1, KeyColumn(key[4 * i + 1])),
           AddColumn(m.c2, KeyColumn(key[4 * i + 2])), AddColumn(m.c3, KeyColumn(key[4 * i + 3])))
  }

  lemma SubColumnInverse(c: Column)
    ensures InvSubColumn(SubColumn(c)) == c
  {
    hide Sub, InvSub;
    SubInverse(c.b0);
    SubInverse(c.b1);
    SubInverse(c.b2);
    SubInverse(c.b3);
  }

  lemma AddColumnTwice(c: Column, k: Column)
    ensures AddColumn(AddColumn(c, k), k) == c
  {
    hide Xor;
    XorTwice(c.b0, k.b0);
    XorTwice(c.b1, k.b1);
    XorTwice(c.b2, k.b2);
    XorTwice(c.b3, k.b3);
  }

  /** Every step has its inverse. */
  lemma StepsInvert(m: Matrix, key: seq<Word>, i: nat)
    requires 4 * i + 4 <= |key|
    ensures SubstitutedBack(Substituted(m)) == m && ShiftedBack(Shifted(m)) == m && MixedBack(Mixed(m)) == m
    ensures KeyAdded(KeyAdded(m, key, i), key, i) == m
  {
    hide Mix, InvMix, Sub, InvSub, Xor, KeyColumn;
    SubColumnInverse(m.c0);
    SubColumnInverse(m.c1);
    SubColumnInverse(m.c2);
    SubColumnInverse(m.c3);
    MixInverse(m.c0);
    MixInverse(m.c1);
    MixInverse(m.c2);
    MixInverse(m.c3);
    AddColumnTwice(m.c0, KeyColumn(key[4 * i]));
    AddColumnTwice(m.c1, KeyColumn(key[4 * i + 1]));
    AddColumnTwice(m.c2, KeyColumn(key[4 * i + 2]));
    AddColumnTwice(m.c3, KeyColumn(key[4 * i + 3]));
  }

  // ----- the cipher and its inverse -----

  /** How many rounds encryption and decryption make of a key size. */
  function EncryptionRounds(keysize: int): nat {
    if keysize == 128 then 10 else if keysize == 192 then 12 else 14
  }

  function DecryptionRounds(keysize: int): nat {
    if keysize > 192 then 14 else if keysize > 128 then 12 else 10
  }

  /** They agree on the three key sizes and on anything above 192. */
  lemma RoundsAgree(keysize: int)
    ensures EncryptionRounds(keysize) == DecryptionRounds(keysize) <==> keysize == 128 || keysize == 192 || keysize > 192
  {
  }

  /** Of the three sizes of the standard, one round for each of a key's words, and six more. */
  lemma RoundCounts(keysize: int)
    requires keysize == 128 || keysize == 192 || keysize == 256
    ensures EncryptionRounds(keysize) == keysize / 32 + 6 == DecryptionRounds(keysize)
  {
  }

  function EncryptRound(m: Matrix, key: seq<Word>, i: nat): Matrix
    requires 4 * i + 4 <= |key|
  {
    KeyAdded(Mixed(Shifted(Substituted(m))), key, i)
  }

  /** The state after the first i full rounds. */
  function Forward(m: Matrix, key: seq<Word>, i: nat): Matrix
    requires 4 * i + 4 <= |key|
  {
    if i == 0 then KeyAdded(m, key, 0) else EncryptRound(Forward(m, key, i - 1), key, i)
  }

  function Encrypted(m: Matrix, key: seq<Word>, n: nat): Matrix
    requires n > 0 && 4 * n + 4 <= |key|
  {
    KeyAdded(Shifted(Substituted(Forward(m, key, n - 1))), key, n)
  }

  function DecryptRound(m: Matrix, key: seq<Word>, i: nat): Matrix
    requires 4 * i + 4 <= |key|
  {
    MixedBack(KeyAdded(SubstitutedBack(ShiftedBack(m)), key, i))
  }

  /** The state after the rounds from the n-th down to the i-th were taken back. */
  function Backward(m: Matrix, key: seq<Word>, n: nat, i: nat): Matrix
    requires i <= n && 4 * n + 4 <= |key|
    decreases n - i
  {
    if i == n then KeyAdded(m, key, n) else DecryptRound(Backward(m, key, n, i + 1), key, i)
  }

  function Decrypted(m: Matrix, key: seq<Word>, n: nat): Matrix
    requires n > 0 && 4 * n + 4 <= |key|
  {
    KeyAdded(SubstitutedBack(ShiftedBack(Backward(m, key, n, 1))), key, 0)
  }

  /** Taking rounds back leads through the states encryption went through. */
  lemma {:induction false} BackwardMeetsForward(m: Matrix, key: seq<Word>, n: nat, i: nat)
    requires 0 < i <= n && 4 * n + 4 <= |key|
    ensures Backward(Encrypted(m, key, n), key, n, i) == Shifted(Substituted(Forward(m, key, i - 1)))
    decreases n - i
  {
    hide Shifted, Substituted, Mixed, KeyAdded, ShiftedBack, SubstitutedBack, MixedBack;
    if i == n {
      StepsInvert(Shifted(Substituted(Forward(m, key, n - 1))), key, n);
    } else {
      BackwardMeetsForward(m, key, n, i + 1);
      var before := Shifted(Substituted(Forward(m, key, i - 1)));
      StepsInvert(Substituted(Forward(m, key, i)), key, i);
      StepsInvert(Forward(m, key, i), key, i);
      StepsInvert(Mixed(before), key, i);
      StepsInvert(before, key, i);
    }
  }

  /** Decryption undoes encryption, whatever the words of the key schedule are. */
  lemma DecryptionInverts(m: Matrix, key: seq<Word>, n: nat)
    requires n > 0 && 4 * n + 4 <= |key|
    ensures Decrypted(Encrypted(m, key, n), key, n) == m
  {
    hide Shifted, Substituted, Mixed, KeyAdded, ShiftedBack, SubstitutedBack, MixedBack;
    BackwardMeetsForward(m, key, n, 1);
    StepsInvert(Substituted(Forward(m, key, 0)), key, 0);
    StepsInvert(Forward(m, key, 0), key, 0);
    StepsInvert(m, key, 0);
  }

  // ----- blocks -----

  /** Consecutive bytes of a block go down the columns. */
  function MatrixOf(block: seq<Byte>): Matrix
    requires |block| == BLOCK_SIZE
  {
    Matrix(Column(block[0], block[1], block[2], block[3]), Column(block[4], block[5], block[6], block[7]),
           Column(block[8], block[9], block[10], block[11]), Column(block[12], block[13], block[14], block[15]))
  }

  function BlockOf(m: Matrix): (block: seq<Byte>)
    ensures |block| == BLOCK_SIZE
  {
    [m.c0.b0, m.c0.b1, m.c0.b2, m.c0.b3, m.c1.b0, m.c1.b1, m.c1.b2, m.c1.b3,
     m.c2.b0, m.c2.b1, m.c2.b2, m.c2.b3, m.c3.b0, m.c3.b1, m.c3.b2, m.c3.b3]
  }

  lemma BlockOfMatrix(block: seq<Byte>, m: Matrix)
    requires |block| == BLOCK_SIZE
    ensures BlockOf(MatrixOf(block)) == block && MatrixOf(BlockOf(m)) == m
  {
  }

  predicate Expands(key: seq<Word>, rounds: nat) {
    4 * rounds + 4 <= |key|
  }

  function EncryptBlock(block: seq<Byte>, key: seq<Word>, keysize: int): (out: seq<Byte>)
    requires |block| == BLOCK_SIZE && Expands(key, EncryptionRounds(keysize))
    ensures |out| == BLOCK_SIZE
  {
    BlockOf(Encrypted(MatrixOf(block), key, EncryptionRounds(keysize)))
  }

  function DecryptBlock(block: seq<Byte>, key: seq<Word>, keysize: int): (out: seq<Byte>)
    requires |block| == BLOCK_SIZE && Expands(key, DecryptionRounds(keysize))
    ensures |out| == BLOCK_SIZE
  {
    BlockOf(Decrypted(MatrixOf(block), key, DecryptionRounds(keysize)))
  }

  /** Every block comes back from every key schedule, when both sides make the same number of rounds. */
  lemma BlockComesBack(block: seq<Byte>, key: seq<Word>, keysize: int)
    requires |block| == BLOCK_SIZE && (keysize == 128 || keysize == 192 || keysize > 192)
    requires Expands(key, EncryptionRounds(keysize))
    ensures DecryptBlock(EncryptBlock(block, key, keysize), key, keysize) == block
  {
    hide Encrypted, Decrypted, MatrixOf, BlockOf;
    var n, m := EncryptionRounds(keysize), MatrixOf(block);
    RoundsAgree(keysize);
    BlockOfMatrix(block, Encrypted(m, key, n));
    DecryptionInverts(m, key, n);
  }

  // ----- the steps in place -----

  ghost function ColumnAt(state: array2<Byte>, j: nat): Column
    requires state.Length0 == 4 && state.Length1 == 4 && j < 4
    reads state
  {
    Column(state[0, j], state[1, j], state[2, j], state[3, j])
  }

  /** The 4 by 4 state array, by columns. */
  ghost function View(state: array2<Byte>): Matrix
    requires state.Length0 == 4 && state.Length1 == 4
    reads state
  {
    Matrix(ColumnAt(state, 0), ColumnAt(state, 1), ColumnAt(state, 2), ColumnAt(state, 3))
  }

  method SetColumn(state: array2<Byte>, j: nat, c: Column)
    requires state.Length0 == 4 && state.Length1 == 4 && j < 4
    modifies state
    ensures ColumnAt(state, j) == c
    ensures forall k :: 0 <= k < 4 && k != j ==> ColumnAt(state, k) == old(ColumnAt(state, k))
  {
    state[0, j] := c.b0;
    state[1, j] := c.b1;
    state[2, j] := c.b2;
    state[3, j] := c.b3;
  }

  method GetColumn(state: array2<Byte>, j: nat) returns (c: Column)
    requires state.Length0 == 4 && state.Length1 == 4 && j < 4
    ensures c == ColumnAt(state, j)
  {
    c := Column(state[0, j], state[1, j], state[2, j], state[3, j]);
  }

  /** AddRoundKey. */
  method AddRoundKey(state: array2<Byte>, key: seq<Word>, i: nat)
    requires state.Length0 == 4 && state.Length1 == 4 && 4 * i + 4 <= |key|
    modifies state
    ensures View(state) == KeyAdded(old(View(state)), key, i)
  {
    hide Xor, KeyColumn;
    var j := 0;
    while j < 4
      invariant 0 <= j <= 4
      invariant forall k :: 0 <= k < j ==> ColumnAt(state, k) == AddColumn(old(ColumnAt(state, k)), KeyColumn(key[4 * i + k]))
      invariant forall k :: j <= k < 4 ==> ColumnAt(state, k) == old(ColumnAt(state, k))
    {
      var c := GetColumn(state, j);
      SetColumn(state, j, AddColumn(c, KeyColumn(key[4 * i + j])));
      j := j + 1;
    }
  }

  /** SubBytes. */
  method SubBytes(state: array2<Byte>)
    requires state.Length0 == 4 && state.Length1 == 4
    modifies state
    ensures View(state) == Substituted(old(View(state)))
  {
    hide Sub;
    var j := 0;
    while j < 4
      invariant 0 <= j <= 4
      invariant forall k :: 0 <= k < j ==> ColumnAt(state, k) == SubColumn(old(ColumnAt(state, k)))
      invariant forall k :: j <= k < 4 ==> ColumnAt(state, k) == old(ColumnAt(state, k))
    {
      var c := GetColumn(state, j);
      SetColumn(state, j, SubColumn(c));
      j := j + 1;
    }
  }

  /** InvSubBytes. */
  method InvSubBytes(state: array2<Byte>)
    requires state.Length0 == 4 && state.Length1 == 4
    modifies state
    ensures View(state) == SubstitutedBack(old(View(state)))
  {
    hide InvSub;
    var j := 0;
    while j < 4
      invariant 0 <= j <= 4
      invariant forall k :: 0 <= k < j ==> ColumnAt(state, k) == InvSubColumn(old(ColumnAt(state, k)))
      invariant forall k :: j <= k < 4 ==> ColumnAt(state, k) == old(ColumnAt(state, k))
    {
      var c := GetColumn(state, j);
      SetColumn(state, j, InvSubColumn(c));
      j := j + 1;
    }
  }

  /** What a row holds after it was turned, the other rows being what they were. */
  twostate predicate RowBecomes(state: array2<Byte>, r: nat, a: Byte, b: Byte, c: Byte, d: Byte)
    requires state.Length0 == 4 && state.Length1 == 4 && r < 4
    reads state
  {
    && state[r, 0] == a && state[r, 1] == b && state[r, 2] == c && state[r, 3] == d
    && forall i, k :: 0 <= i < 4 && 0 <= k < 4 && i != r ==> state[i, k] == old(state[i, k])
  }

  method TurnLeft(state: array2<Byte>, r: nat)
    requires state.Length0 == 4 && state.Length1 == 4 && r < 4
    modifies state
    ensures RowBecomes(state, r, old(state[r, 1]), old(state[r, 2]), old(state[r, 3]), old(state[r, 0]))
  {
    var t := state[r, 0];
    state[r, 0] := state[r, 1];
    state[r, 1] := state[r, 2];
    state[r, 2] := state[r, 3];
    state[r, 3] := t;
  }

  method TurnRight(state: array2<Byte>, r: nat)
    requires state.Length0 == 4 && state.Length1 == 4 && r < 4
    modifies state
    ensures RowBecomes(state, r, old(state[r, 3]), old(state[r, 0]), old(state[r, 1]), old(state[r, 2]))
  {
    var t := state[r, 3];
    state[r, 3] := state[r, 2];
    state[r, 2] := state[r, 1];
    state[r, 1] := state[r, 0];
    state[r, 0] := t;
  }

  /** Turning twice, which is the same in both directions. */
  method SwapHalves(state: array2<Byte>, r: nat)
    requires state.Length0 == 4 && state.Length1 == 4 && r < 4
    modifies state
    ensures RowBecomes(state, r, old(state[r, 2]), old(state[r, 3]), old(state[r, 0]), old(state[r, 1]))
  {
    var t := state[r, 0];
    state[r, 0] := state[r, 2];
    state[r, 2] := t;
    t := state[r, 1];
    state[r, 1] := state[r, 3];
    state[r, 3] := t;
  }

  /** ShiftRows; three places to the left are one to the right. */
  method ShiftRows(state: array2<Byte>)
    requires state.Length0 == 4 && state.Length1 == 4
    modifies state
    ensures View(state) == Shifted(old(View(state)))
  {
    TurnLeft(state, 1);
    SwapHalves(state, 2);
    TurnRight(state, 3);
  }

  /** InvShiftRows. */
  method InvShiftRows(state: array2<Byte>)
    requires state.Length0 == 4 && state.Length1 == 4
    modifies state
    ensures View(state) == ShiftedBack(old(View(state)))
  {
    TurnRight(state, 1);
    SwapHalves(state, 2);
    TurnLeft(state, 3);
  }

  /** One column of MixColumns. */
  method MixColumn(state: array2<Byte>, j: nat, col: Column)
    requires state.Length0 == 4 && state.Length1 == 4 && j < 4
    modifies state
    ensures ColumnAt(state, j) == Mix(col)
    ensures forall k :: 0 <= k < 4 && k != j ==> ColumnAt(state, k) == old(ColumnAt(state, k))
  {
    hide Row, Xor;
    var s0 := Row(col.b0).by2;
    s0 := Xor(s0, Row(col.b1).by3);
    s0 := Xor(s0, col.b2);
    s0 := Xor(s0, col.b3);
    var s1 := col.b0;
    s1 := Xor(s1, Row(col.b1).by2);
    s1 := Xor(s1, Row(col.b2).by3);
    s1 := Xor(s1, col.b3);
    var s2 := col.b0;
    s2 := Xor(s2, col.b1);
    s2 := Xor(s2, Row(col.b2).by2);
    s2 := Xor(s2, Row(col.b3).by3);
    var s3 := Row(col.b0).by3;
    s3 := Xor(s3, col.b1);
    s3 := Xor(s3, col.b2);
    s3 := Xor(s3, Row(col.b3).by2);
    SetColumn(state, j, Column(s0, s1, s2, s3));
  }

  /** One column of InvMixColumns. */
  method InvMixColumn(state: array2<Byte>, j: nat, col: Column)
    requires state.Length0 == 4 && state.Length1 == 4 && j < 4
    modifies state
    ensures ColumnAt(state, j) == InvMix(col)
    ensures forall k :: 0 <= k < 4 && k != j ==> ColumnAt(state, k) == old(ColumnAt(state, k))
  {
    hide Row, Xor;
    var s0 := Row(col.b0).by14;
    s0 := Xor(s0, Row(col.b1).by11);
    s0 := Xor(s0, Row(col.b2).by13);
    s0 := Xor(s0, Row(col.b3).by9);
    var s1 := Row(col.b0).by9;
    s1 := Xor(s1, Row(col.b1).by14);
    s1 := Xor(s1, Row(col.b2).by11);
    s1 := Xor(s1, Row(col.b3).by13);
    var s2 := Row(col.b0).by13;
    s2 := Xor(s2, Row(col.b1).by9);
    s2 := Xor(s2, Row(col.b2).by14);
    s2 := Xor(s2, Row(col.b3).by11);
    var s3 := Row(col.b0).by11;
    s3 := Xor(s3, Row(col.b1).by13);
    s3 := Xor(s3, Row(col.b2).by9);
    s3 := Xor(s3, Row(col.b3).by14);
    SetColumn(state, j, Column(s0, s1, s2, s3));
  }

  /** MixColumns. */
  method MixColumns(state: array2<Byte>)
    requires state.Length0 == 4 && state.Length1 == 4
    modifies state
    ensures View(state) == Mixed(old(View(state)))
  {
    hide Row, Xor;
    var j := 0;
    while j < 4
      invariant 0 <= j <= 4
      invariant forall k :: 0 <= k < j ==> ColumnAt(state, k) == Mix(old(ColumnAt(state, k)))
      invariant forall k :: j <= k < 4 ==> ColumnAt(state, k) == old(ColumnAt(state, k))
    {
      var col := GetColumn(state, j);
      MixColumn(state, j, col);
      j := j + 1;
    }
  }

  /** InvMixColumns. */
  method InvMixColumns(state: array2<Byte>)
    requires state.Length0 == 4 && state.Length1 == 4
    modifies state
    ensures View(state) == MixedBack(old(View(state)))
  {
    hide Row, Xor;
    var j := 0;
    while j < 4
      invariant 0 <= j <= 4
      invariant forall k :: 0 <= k < j ==> ColumnAt(state, k) == InvMix(old(ColumnAt(state, k)))
      invariant forall k :: j <= k < 4 ==> ColumnAt(state, k) == old(ColumnAt(state, k))
    {
      var col := GetColumn(state, j);
      InvMixColumn(state, j, col);
      j := j + 1;
    }
  }

  method Load(block: seq<Byte>) returns (state: array2<Byte>)
    requires |block| == BLOCK_SIZE
    ensures fresh(state) && state.Length0 == 4 && state.Length1 == 4 && View(state) == MatrixOf(block)
  {
    state := new Byte[4, 4]((r, c) requires 0 <= r < 4 && 0 <= c < 4 => block[4 * c + r]);
  }

  method Store(state: array2<Byte>) returns (block: seq<Byte>)
    requires state.Length0 == 4 && state.Length1 == 4
    ensures block == BlockOf(View(state))
  {
    block := [state[0, 0], state[1, 0], state[2, 0], state[3, 0], state[0, 1], state[1, 1], state[2, 1], state[3, 1],
              state[0, 2], state[1, 2], state[2, 2], state[3, 2], state[0, 3], state[1, 3], state[2, 3], state[3, 3]];
  }

  /** aes_encrypt. */
  method Encrypt(block: seq<Byte>, key: seq<Word>, keysize: int) returns (out: seq<Byte>)
    requires |block| == BLOCK_SIZE && Expands(key, EncryptionRounds(keysize))
    ensures out == EncryptBlock(block, key, keysize)
  {
    hide Shifted, Substituted, Mixed, KeyAdded, MatrixOf, BlockOf;
    var n := EncryptionRounds(keysize);
    var state := Load(block);
    AddRoundKey(state, key, 0);
    var i := 1;
    while i < n
      invariant 1 <= i <= n && View(state) == Forward(MatrixOf(block), key, i - 1)
    {
      SubBytes(state);
      ShiftRows(state);
      MixColumns(state);
      AddRoundKey(state, key, i);
      i := i + 1;
    }
    SubBytes(state);
    ShiftRows(state);
    AddRoundKey(state, key, n);
    out := Store(state);
  }

  /** aes_decrypt. */
  method Decrypt(block: seq<Byte>, key: seq<Word>, keysize: int) returns (out: seq<Byte>)
    requires |block| == BLOCK_SIZE && Expands(key, DecryptionRounds(keysize))
    ensures out == DecryptBlock(block, key, keysize)
  {
    hide ShiftedBack, SubstitutedBack, MixedBack, KeyAdded, MatrixOf, BlockOf;
    var n := DecryptionRounds(keysize);
    var state := Load(block);
    AddRoundKey(state, key, n);
    var i := n;
    while i > 1
      invariant 1 <= i <= n && View(state) == Backward(MatrixOf(block), key, n, i)
    {
      i := i - 1;
      InvShiftRows(state);
      InvSubBytes(state);
      AddRoundKey(state, key, i);
      InvMixColumns(state);
    }
    InvShiftRows(state);
    InvSubBytes(state);
    AddRoundKey(state, key, 0);
    out := Store(state);
  }
}
