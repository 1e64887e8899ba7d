/**
 The AES block code: table-driven rounds, two per loop iteration, proved against
 section 5 of FIPS 197.
 */
module AesCode {
  import opened AesField
  import opened AesCipher
  import opened RoundTower

  // ------------------------------------------------------------------ tables, by the formulas that define them

  function Te0(t: Tables, x: Byte): Word { Word(M2(t.xt, t.S(x)), t.S(x), t.S(x), M3(t.xt, t.S(x))) }
  function Te1(t: Tables, x: Byte): Word { Word(M3(t.xt, t.S(x)), M2(t.xt, t.S(x)), t.S(x), t.S(x)) }
  function Te2(t: Tables, x: Byte): Word { Word(t.S(x), M3(t.xt, t.S(x)), M2(t.xt, t.S(x)), t.S(x)) }
  function Te3(t: Tables, x: Byte): Word { Word(t.S(x), t.S(x), M3(t.xt, t.S(x)), M2(t.xt, t.S(x))) }
  function Te4(t: Tables, x: Byte): Word { Word(t.S(x), t.S(x), t.S(x), t.S(x)) }

  function Td0(t: Tables, x: Byte): Word { TdRow(t, t.Si(x)) }
  function Td1(t: Tables, x: Byte): Word { var w := TdRow(t, t.Si(x)); Word(w.b3, w.b0, w.b1, w.b2) }
  function Td2(t: Tables, x: Byte): Word { var w := TdRow(t, t.Si(x)); Word(w.b2, w.b3, w.b0, w.b1) }
  function Td3(t: Tables, x: Byte): Word { var w := TdRow(t, t.Si(x)); Word(w.b1, w.b2, w.b3, w.b0) }
  function Td4(t: Tables, x: Byte): Word { Word(t.Si(x), t.Si(x), t.Si(x), t.Si(x)) }

  function TdRow(t: Tables, y: Byte): Word { Word(Me(t.xt, y), M9(t.xt, y), Md(t.xt, y), Mb(t.xt, y)) }

  // a word masked to one of its bytes
  function Mask0(w: Word): Word { Word(w.b0, 0, 0, 0) }
  function Mask1(w: Word): Word { Word(0, w.b1, 0, 0) }
  function Mask2(w: Word): Word { Word(0, 0, w.b2, 0) }
  function Mask3(w: Word): Word { Word(0, 0, 0, w.b3) }

  function Add4(a: Word, b: Word, c: Word, d: Word): Word { Add(Add(Add(a, b), c), d) }

  lemma ZerosAround(a: Byte)
    ensures Xor(Xor(Xor(a, 0), 0), 0) == a && Xor(Xor(Xor(0, a), 0), 0) == a
    ensures Xor(Xor(Xor(0, 0), a), 0) == a && Xor(Xor(Xor(0, 0), 0), a) == a
  {
  }

  /** Four masked words joined. */
  lemma MasksJoin(a: Word, b: Word, c: Word, d: Word)
    ensures Add4(Mask0(a), Mask1(b), Mask2(c), Mask3(d)) == Word(a.b0, b.b1, c.b2, d.b3)
  {
    ZerosAround(a.b0);
    ZerosAround(b.b1);
    ZerosAround(c.b2);
    ZerosAround(d.b3);
  }

  // ------------------------------------------------------------------ one table round

  function EncWord(t: Tables, a: Word, b: Word, c: Word, d: Word, k: Word): Word {
    Add(Add4(Te0(t, a.b0), Te1(t, b.b1), Te2(t, c.b2), Te3(t, d.b3)), k)
  }

  function EncRound(t: Tables, s: Block, k: Block): Block {
    Block(EncWord(t, s.w0, s.w1, s.w2, s.w3, k.w0), EncWord(t, s.w1, s.w2, s.w3, s.w0, k.w1),
          EncWord(t, s.w2, s.w3, s.w0, s.w1, k.w2), EncWord(t, s.w3, s.w0, s.w1, s.w2, k.w3))
  }

  function DecWord(t: Tables, a: Word, b: Word, c: Word, d: Word, k: Word): Word {
    Add(Add4(Td0(t, a.b0), Td1(t, b.b1), Td2(t, c.b2), Td3(t, d.b3)), k)
  }

  function DecRound(t: Tables, s: Block, k: Block): Block {
    Block(DecWord(t, s.w0, s.w3, s.w2, s.w1, k.w0), DecWord(t, s.w1, s.w0, s.w3, s.w2, k.w1),
          DecWord(t, s.w2, s.w1, s.w0, s.w3, k.w2), DecWord(t, s.w3, s.w2, s.w1, s.w0, k.w3))
  }

  function EncFinalWord(t: Tables, a: Word, b: Word, c: Word, d: Word): Word {
    Add4(Mask0(Te4(t, a.b0)), Mask1(Te4(t, b.b1)), Mask2(Te4(t, c.b2)), Mask3(Te4(t, d.b3)))
  }

  function EncFinal(t: Tables, s: Block): Block {
    Block(EncFinalWord(t, s.w0, s.w1, s.w2, s.w3), EncFinalWord(t, s.w1, s.w2, s.w3, s.w0),
          EncFinalWord(t, s.w2, s.w3, s.w0, s.w1), EncFinalWord(t, s.w3, s.w0, s.w1, s.w2))
  }

  function DecFinalWord(t: Tables, a: Word, b: Word, c: Word, d: Word): Word {
    Add4(Mask0(Td4(t, a.b0)), Mask1(Td4(t, b.b1)), Mask2(Td4(t, c.b2)), Mask3(Td4(t, d.b3)))
  }

  function DecFinal(t: Tables, s: Block): Block {
    Block(DecFinalWord(t, s.w0, s.w3, s.w2, s.w1), DecFinalWord(t, s.w1, s.w0, s.w3, s.w2),
          DecFinalWord(t, s.w2, s.w1, s.w0, s.w3), DecFinalWord(t, s.w3, s.w2, s.w1, s.w0))
  }

  /** The table-driven rounds of AES_encrypt and AES_decrypt. */
  function EncTables(t: Tables): Rounds<Block, Block> {
    Rounds((s, k) => EncRound(t, s, k), s => EncFinal(t, s), (s, k) => AddKey(s, k))
  }

  function DecTables(t: Tables): Rounds<Block, Block> {
    Rounds((s, k) => DecRound(t, s, k), s => DecFinal(t, s), (s, k) => AddKey(s, k))
  }

  /** A table round is SubBytes, ShiftRows, MixColumns and AddRoundKey. */
  lemma EncRoundIsRound(t: Tables, s: Block, k: Block)
    ensures EncRound(t, s, k) == Round(t, s, k)
  {
  }

  lemma DecRoundIsRound(t: Tables, s: Block, k: Block)
    ensures DecRound(t, s, k) == InvRound(t, s, k)
  {
  }

  lemma EncFinalIsFinal(t: Tables, s: Block)
    ensures EncFinal(t, s) == ShiftRows(SubBytes(t.S, s))
  {
    MasksJoin(Te4(t, s.w0.b0), Te4(t, s.w1.b1), Te4(t, s.w2.b2), Te4(t, s.w3.b3));
    MasksJoin(Te4(t, s.w1.b0), Te4(t, s.w2.b1), Te4(t, s.w3.b2), Te4(t, s.w0.b3));
    MasksJoin(Te4(t, s.w2.b0), Te4(t, s.w3.b1), Te4(t, s.w0.b2), Te4(t, s.w1.b3));
    MasksJoin(Te4(t, s.w3.b0), Te4(t, s.w0.b1), Te4(t, s.w1.b2), Te4(t, s.w2.b3));
  }

  lemma DecFinalIsFinal(t: Tables, s: Block)
    ensures DecFinal(t, s) == InvShiftRows(SubBytes(t.Si, s))
  {
    MasksJoin(Td4(t, s.w0.b0), Td4(t, s.w3.b1), Td4(t, s.w2.b2), Td4(t, s.w1.b3));
    MasksJoin(Td4(t, s.w1.b0), Td4(t, s.w0.b1), Td4(t, s.w3.b2), Td4(t, s.w2.b3));
    MasksJoin(Td4(t, s.w2.b0), Td4(t, s.w1.b1), Td4(t, s.w0.b2), Td4(t, s.w3.b3));
    MasksJoin(Td4(t, s.w3.b0), Td4(t, s.w2.b1), Td4(t, s.w1.b2), Td4(t, s.w0.b3));
  }

  /** The table-driven rounds are the cipher's and the equivalent inverse cipher's. */
  lemma EncTablesAreCipher(t: Tables)
    ensures SameRounds(EncTables(t), Forward(t))
  {
    forall s, k ensures EncTables(t).round(s, k) == Forward(t).round(s, k) { EncRoundIsRound(t, s, k); }
    forall s ensures EncTables(t).final(s) == Forward(t).final(s) { EncFinalIsFinal(t, s); }
  }

  lemma DecTablesAreCipher(t: Tables)
    ensures SameRounds(DecTables(t), Backward(t))
  {
    forall s, k ensures DecTables(t).round(s, k) == Backward(t).round(s, k) { DecRoundIsRound(t, s, k); }
    forall s ensures DecTables(t).final(s) == Backward(t).final(s) { DecFinalIsFinal(t, s); }
  }

  // ------------------------------------------------------------------ bytes and schedules

  function GetU32(b: seq<Byte>, i: nat): Word
    requires i + 4 <= |b|
  {
    Word(b[i], b[i + 1], b[i + 2], b[i + 3])
  }

  function PutU32(w: Word): seq<Byte> { [w.b0, w.b1, w.b2, w.b3] }

  function GetBlock(b: seq<Byte>): Block
    requires |b| == 16
  {
    Block(GetU32(b, 0), GetU32(b, 4), GetU32(b, 8), GetU32(b, 12))
  }

  function PutBlock(s: Block): (b: seq<Byte>)
    ensures |b| == 16
  {
    PutU32(s.w0) + PutU32(s.w1) + PutU32(s.w2) + PutU32(s.w3)
  }

  lemma BlockBytes(b: seq<Byte>, s: Block)
    ensures GetBlock(PutBlock(s)) == s
    ensures |b| == 16 ==> PutBlock(GetBlock(b)) == b
  {
  }

  /** Round key j of a schedule of words. */
  function KeyAt(rk: seq<Word>, j: nat): Block
    requires 4 * j + 4 <= |rk|
  {
    Block(rk[4 * j], rk[4 * j + 1], rk[4 * j + 2], rk[4 * j + 3])
  }

  /** The first n round keys. */
  function Keys(rk: seq<Word>, n: nat): (ks: seq<Block>)
    requires 4 * n <= |rk|
    ensures |ks| == n && forall j :: 0 <= j < n ==> ks[j] == KeyAt(rk, j)
  {
    if n == 0 then [] else Keys(rk, n - 1) + [KeyAt(rk, n - 1)]
  }

  // ------------------------------------------------------------------ one block

  /** The cipher on the sixteen bytes of a block, and the inverse cipher. */
  function CipherBytes(t: Tables, ks: seq<Block>, b: seq<Byte>): (c: seq<Byte>)
    requires |ks| >= 2 && |b| == 16
    ensures |c| == 16
  {
    PutBlock(Run(Forward(t), ks, GetBlock(b)))
  }

  function InverseBytes(t: Tables, ks: seq<Block>, c: seq<Byte>): (b: seq<Byte>)
    requires |ks| >= 2 && |c| == 16
    ensures |b| == 16
  {
    PutBlock(Run(Backward(t), ks, GetBlock(c)))
  }

  /** AES_encrypt: for every even number of rounds and every round-key array the
      table-driven loop computes the cipher. */
  method Encrypt(t: Tables, input: seq<Byte>, rk: seq<Word>, rounds: nat) returns (out: seq<Byte>)
    requires |input| == 16 && rounds >= 2 && rounds % 2 == 0 && 4 * rounds + 4 <= |rk|
    ensures out == CipherBytes(t, Keys(rk, rounds + 1), input)
  {
    var ks := Keys(rk, rounds + 1);
    var s := RunPairs(EncTables(t), ks, GetBlock(input));
    EncTablesAreCipher(t);
    SameRun(EncTables(t), Forward(t), ks, GetBlock(input));
    out := PutBlock(s);
  }

  /** AES_decrypt likewise computes the equivalent inverse cipher. */
  method Decrypt(t: Tables, input: seq<Byte>, rk: seq<Word>, rounds: nat) returns (out: seq<Byte>)
    requires |input| == 16 && rounds >= 2 && rounds % 2 == 0 && 4 * rounds + 4 <= |rk|
    ensures out == InverseBytes(t, Keys(rk, rounds + 1), input)
  {
    var ks := Keys(rk, rounds + 1);
    var s := RunPairs(DecTables(t), ks, GetBlock(input));
    DecTablesAreCipher(t);
    SameRun(DecTables(t), Backward(t), ks, GetBlock(input));
    out := PutBlock(s);
  }
}
