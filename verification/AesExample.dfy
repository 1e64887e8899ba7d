/**
 The worked examples of FIPS 197: the round of Appendix B and the key expansions of Appendix A, computed
 by the model for any tables that have the standard's doubling and the entries of its substitution box
 that the examples use.
 */
module AesExample {
  import opened AesField
  import opened AesCipher
  import opened AesCode
  import opened AesKeys
  import opened RoundTower

  /** The tables have the standard's doubling. */
  ghost predicate Doubles(t: Tables) { forall b :: t.xt(b) == Xtime(b) }

  // ------------------------------------------------------------------ Appendix B, round 1

  const START: seq<Byte> := [0x19, 0x3d, 0xe3, 0xbe, 0xa0, 0xf4, 0xe2, 0x2b,
                             0x9a, 0xc6, 0x8d, 0x2a, 0xe9, 0xf8, 0x48, 0x08]

  const SUBSTITUTED: seq<Byte> := [0xd4, 0x27, 0x11, 0xae, 0xe0, 0xbf, 0x98, 0xf1,
                                   0xb8, 0xb4, 0x5d, 0xe5, 0x1e, 0x41, 0x52, 0x30]

  const SHIFTED: seq<Byte> := [0xd4, 0xbf, 0x5d, 0x30, 0xe0, 0xb4, 0x52, 0xae,
                               0xb8, 0x41, 0x11, 0xf1, 0x1e, 0x27, 0x98, 0xe5]

  const MIXED: seq<Byte> := [0x04, 0x66, 0x81, 0xe5, 0xe0, 0xcb, 0x19, 0x9a,
                             0x48, 0xf8, 0xd3, 0x7a, 0x28, 0x06, 0x26, 0x4c]

  const ROUND_KEY: seq<Byte> := [0xa0, 0xfa, 0xfe, 0x17, 0x88, 0x54, 0x2c, 0xb1,
                                 0x23, 0xa3, 0x39, 0x39, 0x2a, 0x6c, 0x76, 0x05]

  const ROUND_END: seq<Byte> := [0xa4, 0x9c, 0x7f, 0xf2, 0x68, 0x9f, 0x35, 0x2b,
                                 0x6b, 0x5b, 0xea, 0x43, 0x02, 0x6a, 0x50, 0x49]

  ghost predicate RoundBox(t: Tables) { forall i :: 0 <= i < 16 ==> t.S(START[i]) == SUBSTITUTED[i] }

  lemma Substituted(t: Tables)
    requires RoundBox(t)
    ensures SubBytes(t.S, GetBlock(START)) == GetBlock(SUBSTITUTED)
  {
  }

  lemma Shifted()
    ensures ShiftRows(GetBlock(SUBSTITUTED)) == GetBlock(SHIFTED)
  {
  }

  lemma Column0(f: Byte -> Byte)
    requires f(0xd4) == Xtime(0xd4) && f(0xbf) == Xtime(0xbf) && f(0x5d) == Xtime(0x5d) && f(0x30) == Xtime(0x30)
    ensures Mix(f, Word(0xd4, 0xbf, 0x5d, 0x30)) == Word(0x04, 0x66, 0x81, 0xe5)
  {
  }

  lemma Column1(f: Byte -> Byte)
    requires f(0xe0) == Xtime(0xe0) && f(0xb4) == Xtime(0xb4) && f(0x52) == Xtime(0x52) && f(0xae) == Xtime(0xae)
    ensures Mix(f, Word(0xe0, 0xb4, 0x52, 0xae)) == Word(0xe0, 0xcb, 0x19, 0x9a)
  {
  }

  lemma Column2(f: Byte -> Byte)
    requires f(0xb8) == Xtime(0xb8) && f(0x41) == Xtime(0x41) && f(0x11) == Xtime(0x11) && f(0xf1) == Xtime(0xf1)
    ensures Mix(f, Word(0xb8, 0x41, 0x11, 0xf1)) == Word(0x48, 0xf8, 0xd3, 0x7a)
  {
  }

  lemma Column3(f: Byte -> Byte)
    requires f(0x1e) == Xtime(0x1e) && f(0x27) == Xtime(0x27) && f(0x98) == Xtime(0x98) && f(0xe5) == Xtime(0xe5)
    ensures Mix(f, Word(0x1e, 0x27, 0x98, 0xe5)) == Word(0x28, 0x06, 0x26, 0x4c)
  {
  }

  lemma Mixed(t: Tables)
    requires Doubles(t)
    ensures MixColumns(t.xt, GetBlock(SHIFTED)) == GetBlock(MIXED)
  {
    Column0(t.xt);
    Column1(t.xt);
    Column2(t.xt);
    Column3(t.xt);
  }

  lemma KeyAdded()
    ensures AddKey(GetBlock(MIXED), GetBlock(ROUND_KEY)) == GetBlock(ROUND_END)
  {
  }

  /** The code's table round on the example's state and round key gives the example's next state, byte for byte. */
  lemma RoundExample(t: Tables)
    requires Doubles(t) && RoundBox(t)
    ensures PutBlock(EncRound(t, GetBlock(START), GetBlock(ROUND_KEY))) == ROUND_END
  {
    EncRoundIsRound(t, GetBlock(START), GetBlock(ROUND_KEY));
    Substituted(t);
    Shifted();
    Mixed(t);
    KeyAdded();
    BlockBytes(ROUND_END, GetBlock(ROUND_END));
  }

  // ------------------------------------------------------------------ Appendix A, key expansion

  const KEY_128: seq<Byte> := [0x2b, 0x7e, 0x15, 0x16, 0x28, 0xae, 0xd2, 0xa6,
                               0xab, 0xf7, 0x15, 0x88, 0x09, 0xcf, 0x4f, 0x3c]

  const KEY_256: seq<Byte> := [0x60, 0x3d, 0xeb, 0x10, 0x15, 0xca, 0x71, 0xbe, 0x2b, 0x73, 0xae, 0xf0,
                               0x85, 0x7d, 0x77, 0x81, 0x1f, 0x35, 0x2c, 0x07, 0x3b, 0x61, 0x08, 0xd7,
                               0x2d, 0x98, 0x10, 0xa3, 0x09, 0x14, 0xdf, 0xf4]

  /** Word i of a schedule, whatever its length. */
  function WordAt(t: Tables, key: seq<Byte>, nk: nat, i: nat): Word
    requires 0 < nk && 4 * nk <= |key|
  {
    Schedule(t, key, nk, i + 1)[i]
  }

  lemma {:induction false} WordStays(t: Tables, key: seq<Byte>, nk: nat, i: nat, m: nat)
    requires 0 < nk && 4 * nk <= |key| && i < m
    ensures Schedule(t, key, nk, m)[i] == WordAt(t, key, nk, i)
  {
    if i < m - 1 { WordStays(t, key, nk, i, m - 1); }
  }

  lemma WordIs(t: Tables, key: seq<Byte>, nk: nat, i: nat)
    requires 0 < nk && 4 * nk <= |key|
    ensures i < nk ==> WordAt(t, key, nk, i) == GetU32(key, 4 * i)
    ensures i >= nk ==>
              WordAt(t, key, nk, i) == Add(WordAt(t, key, nk, i - nk), Step(t, nk, WordAt(t, key, nk, i - 1), i))
  {
    if i >= nk {
      WordStays(t, key, nk, i - nk, i);
      WordStays(t, key, nk, i - 1, i);
    }
  }

  /** The first word after a 128-bit key. */
  lemma KeyExample128(t: Tables)
    requires t.S(0xcf) == 0x8a && t.S(0x4f) == 0x84 && t.S(0x3c) == 0xeb && t.S(0x09) == 0x01
    ensures WordAt(t, KEY_128, 4, 4) == Word(0xa0, 0xfa, 0xfe, 0x17)
  {
    WordIs(t, KEY_128, 4, 0);
    WordIs(t, KEY_128, 4, 3);
    WordIs(t, KEY_128, 4, 4);
    assert Rcon(1) == 1;
  }

  lemma FirstAfter256(t: Tables)
    requires t.S(0x14) == 0xfa && t.S(0xdf) == 0x9e && t.S(0xf4) == 0xbf && t.S(0x09) == 0x01
    ensures WordAt(t, KEY_256, 8, 8) == Word(0x9b, 0xa3, 0x54, 0x11)
  {
    EndWords256();
    Rotated(t, KEY_256, Word(0x09, 0x14, 0xdf, 0xf4), Word(0x60, 0x3d, 0xeb, 0x10));
  }

  lemma EndWords256()
    ensures GetU32(KEY_256, 0) == Word(0x60, 0x3d, 0xeb, 0x10)
    ensures GetU32(KEY_256, 28) == Word(0x09, 0x14, 0xdf, 0xf4)
  {
  }

  lemma Rotated(t: Tables, key: seq<Byte>, a: Word, b: Word)
    requires 32 <= |key| && GetU32(key, 28) == a && GetU32(key, 0) == b
    ensures WordAt(t, key, 8, 8) == Add(b, Add(SubWord(t.S, RotWord(a)), Word(1, 0, 0, 0)))
  {
    WordIs(t, key, 8, 0);
    WordIs(t, key, 8, 7);
    WordIs(t, key, 8, 8);
    assert Rcon(1) == 1;
  }

  lemma Chained(t: Tables, key: seq<Byte>, i: nat, a: Word, b: Word)
    requires 32 <= |key| && 8 < i < 12 && WordAt(t, key, 8, i - 1) == a && GetU32(key, 4 * (i - 8)) == b
    ensures WordAt(t, key, 8, i) == Add(b, a)
  {
    WordIs(t, key, 8, i - 8);
    WordIs(t, key, 8, i);
  }

  lemma Extra(t: Tables, key: seq<Byte>, a: Word, b: Word)
    requires 32 <= |key| && WordAt(t, key, 8, 11) == a && GetU32(key, 16) == b
    ensures WordAt(t, key, 8, 12) == Add(b, SubWord(t.S, a))
  {
    WordIs(t, key, 8, 4);
    WordIs(t, key, 8, 12);
  }

  lemma KeyWords256()
    ensures GetU32(KEY_256, 4) == Word(0x15, 0xca, 0x71, 0xbe)
    ensures GetU32(KEY_256, 8) == Word(0x2b, 0x73, 0xae, 0xf0)
  {
  }

  lemma MoreWords256()
    ensures GetU32(KEY_256, 12) == Word(0x85, 0x7d, 0x77, 0x81)
    ensures GetU32(KEY_256, 16) == Word(0x1f, 0x35, 0x2c, 0x07)
  {
  }

  /** The first words after a 256-bit key, up to the one with the extra substitution. */
  lemma KeyExample256(t: Tables)
    requires t.S(0x14) == 0xfa && t.S(0xdf) == 0x9e && t.S(0xf4) == 0xbf && t.S(0x09) == 0x01
    requires t.S(0x20) == 0xb7 && t.S(0x67) == 0x85 && t.S(0xfc) == 0xb0 && t.S(0xde) == 0x1d
    ensures WordAt(t, KEY_256, 8, 8) == Word(0x9b, 0xa3, 0x54, 0x11)
    ensures WordAt(t, KEY_256, 8, 11) == Word(0x20, 0x67, 0xfc, 0xde)
    ensures WordAt(t, KEY_256, 8, 12) == Word(0xa8, 0xb0, 0x9c, 0x1a)
  {
    FirstAfter256(t);
    KeyWords256();
    MoreWords256();
    Chained(t, KEY_256, 9, Word(0x9b, 0xa3, 0x54, 0x11), Word(0x15, 0xca, 0x71, 0xbe));
    Chained(t, KEY_256, 10, Word(0x8e, 0x69, 0x25, 0xaf), Word(0x2b, 0x73, 0xae, 0xf0));
    Chained(t, KEY_256, 11, Word(0xa5, 0x1a, 0x8b, 0x5f), Word(0x85, 0x7d, 0x77, 0x81));
    Extra(t, KEY_256, Word(0x20, 0x67, 0xfc, 0xde), Word(0x1f, 0x35, 0x2c, 0x07));
  }
}
