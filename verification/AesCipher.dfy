/** Iterated keyed rounds between two whitening keys, and what inverts them. */
module RoundTower {

  /** The pieces of a cipher: a full round, the unkeyed part of the final round, and key addition. */
  datatype Rounds<!S, !K> = Rounds(round: (S, K) -> S, final: S -> S, add: (S, K) -> S)

  /** The state after the first j of the keys. */
  function Iter<S, K>(f: (S, K) -> S, ks: seq<K>, s: S, j: nat): S
    requires j <= |ks|
  {
    if j == 0 then s else f(Iter(f, ks, s, j - 1), ks[j - 1])
  }

  /** Add ks[0], run a full round with each of the middle keys, finish with the last key. */
  function Run<S, K>(c: Rounds<S, K>, ks: seq<K>, s: S): S
    requires |ks| >= 2
  {
    var n := |ks| - 1;
    c.add(c.final(Iter(c.round, ks[1..n], c.add(s, ks[0]), n - 1)), ks[n])
  }

  /** The code's loop: two full rounds per iteration, leaving in the middle of the last
      one, then the final round. It computes the same for every even number of rounds. */
  method RunPairs<S, K>(c: Rounds<S, K>, ks: seq<K>, input: S) returns (out: S)
    requires |ks| >= 3 && |ks| % 2 == 1
    ensures out == Run(c, ks, input)
  {
    var rounds := |ks| - 1;
    ghost var mid := ks[1..rounds];
    var s := c.add(input, ks[0]);
    ghost var s0 := s;
    var t := s;
    var r, p := rounds / 2, 0;
    while true
      invariant 0 < r && p == rounds - 2 * r && s == Iter(c.round, mid, s0, p)
      decreases r
    {
      t := c.round(s, ks[p + 1]);
      assert mid[p] == ks[p + 1] && t == Iter(c.round, mid, s0, p + 1);
      p := p + 2;
      r := r - 1;
      if r == 0 { break; }
      s := c.round(t, ks[p]);
      assert mid[p - 1] == ks[p];
    }
    out := c.add(c.final(t), ks[p]);
  }

  ghost predicate SameRounds<S(!new), K(!new)>(c: Rounds<S, K>, d: Rounds<S, K>) {
    && (forall s, k :: c.round(s, k) == d.round(s, k))
    && (forall s :: c.final(s) == d.final(s))
    && (forall s, k :: c.add(s, k) == d.add(s, k))
  }

  lemma {:induction false} SameIter<S(!new), K(!new)>(c: Rounds<S, K>, d: Rounds<S, K>, ks: seq<K>, s: S, j: nat)
    requires SameRounds(c, d) && j <= |ks|
    ensures Iter(c.round, ks, s, j) == Iter(d.round, ks, s, j)
  {
    if j > 0 { SameIter(c, d, ks, s, j - 1); }
  }

  lemma SameRun<S(!new), K(!new)>(c: Rounds<S, K>, d: Rounds<S, K>, ks: seq<K>, s: S)
    requires SameRounds(c, d) && |ks| >= 2
    ensures Run(c, ks, s) == Run(d, ks, s)
  {
    SameIter(c, d, ks[1..|ks| - 1], c.add(s, ks[0]), |ks| - 2);
  }

  /** d takes back what c does: key addition is its own inverse, d's final part undoes c's,
      and d's round with a key transformed by u undoes c's round on finished states. */
  ghost predicate Inverts<S(!new), K(!new)>(c: Rounds<S, K>, d: Rounds<S, K>, u: K -> K) {
    && (forall s, k :: d.add(c.add(s, k), k) == s)
    && (forall s :: d.final(c.final(s)) == s)
    && (forall s, k :: d.round(c.final(c.round(s, k)), u(k)) == c.final(s))
  }

  /** Keys in reverse, transformed except the first and the last. */
  predicate Reversed<K(==)>(ks: seq<K>, ds: seq<K>, u: K -> K) {
    && |ds| == |ks| >= 2
    && ds[0] == ks[|ks| - 1]
    && ds[|ds| - 1] == ks[0]
    && forall i :: 0 < i < |ks| - 1 ==> ds[i] == u(ks[|ks| - 1 - i])
  }

  lemma {:induction false} IterUndone<S(!new), K(!new)>(
      c: Rounds<S, K>, d: Rounds<S, K>, u: K -> K, ks: seq<K>, ds: seq<K>, s: S, j: nat)
    requires Inverts(c, d, u)
    requires |ds| == |ks| && forall i :: 0 <= i < |ds| ==> ds[i] == u(ks[|ks| - 1 - i])
    requires j <= |ks|
    ensures Iter(d.round, ds, c.final(Iter(c.round, ks, s, |ks|)), j) == c.final(Iter(c.round, ks, s, |ks| - j))
  {
    if j > 0 {
      IterUndone(c, d, u, ks, ds, s, j - 1);
      var n := |ks| - j;
      assert Iter(c.round, ks, s, n + 1) == c.round(Iter(c.round, ks, s, n), ks[n]);
      assert ds[j - 1] == u(ks[n]);
    }
  }

  /** With the reversed keys, d inverts c, for any number of rounds. */
  lemma RunUndone<S(!new), K(!new)>(c: Rounds<S, K>, d: Rounds<S, K>, u: K -> K, ks: seq<K>, ds: seq<K>, s: S)
    requires Inverts(c, d, u) && Reversed(ks, ds, u)
    ensures Run(d, ds, Run(c, ks, s)) == s
  {
    var n := |ks| - 1;
    var s0 := c.add(s, ks[0]);
    var e := Iter(c.round, ks[1..n], s0, n - 1);
    assert d.add(Run(c, ks, s), ds[0]) == c.final(e);
    IterUndone(c, d, u, ks[1..n], ds[1..n], s0, n - 1);
  }
}

/**
 The cipher of section 5 of FIPS 197 and its equivalent inverse (section 5.3.5),
 over columns of four bytes, and the proof that the one undoes the other.
 */
module AesCipher {
  import opened AesField
  import opened RoundTower

  /** A 32-bit word of the code: four bytes, most significant first; a column of the state. */
  datatype Word = Word(b0: Byte, b1: Byte, b2: Byte, b3: Byte)

  datatype Block = Block(w0: Word, w1: Word, w2: Word, w3: Word)

  function Add(x: Word, y: Word): Word {
    Word(Xor(x.b0, y.b0), Xor(x.b1, y.b1), Xor(x.b2, y.b2), Xor(x.b3, y.b3))
  }

  function Mix(f: Byte -> Byte, w: Word): Word {
    Word(Sum4(M2(f, w.b0), M3(f, w.b1), w.b2, w.b3),
         Sum4(w.b0, M2(f, w.b1), M3(f, w.b2), w.b3),
         Sum4(w.b0, w.b1, M2(f, w.b2), M3(f, w.b3)),
         Sum4(M3(f, w.b0), w.b1, w.b2, M2(f, w.b3)))
  }

  function InvMix(f: Byte -> Byte, w: Word): Word {
    Word(Sum4(Me(f, w.b0), Mb(f, w.b1), Md(f, w.b2), M9(f, w.b3)),
         Sum4(M9(f, w.b0), Me(f, w.b1), Mb(f, w.b2), Md(f, w.b3)),
         Sum4(Md(f, w.b0), M9(f, w.b1), Me(f, w.b2), Mb(f, w.b3)),
         Sum4(Mb(f, w.b0), Md(f, w.b1), M9(f, w.b2), Me(f, w.b3)))
  }

  function SubWord(s: Byte -> Byte, w: Word): Word { Word(s(w.b0), s(w.b1), s(w.b2), s(w.b3)) }

  function AddKey(s: Block, k: Block): Block {
    Block(Add(s.w0, k.w0), Add(s.w1, k.w1), Add(s.w2, k.w2), Add(s.w3, k.w3))
  }

  function SubBytes(sb: Byte -> Byte, s: Block): Block {
    Block(SubWord(sb, s.w0), SubWord(sb, s.w1), SubWord(sb, s.w2), SubWord(sb, s.w3))
  }

  function ShiftRows(s: Block): Block {
    Block(Word(s.w0.b0, s.w1.b1, s.w2.b2, s.w3.b3), Word(s.w1.b0, s.w2.b1, s.w3.b2, s.w0.b3),
          Word(s.w2.b0, s.w3.b1, s.w0.b2, s.w1.b3), Word(s.w3.b0, s.w0.b1, s.w1.b2, s.w2.b3))
  }

  function InvShiftRows(s: Block): Block {
    Block(Word(s.w0.b0, s.w3.b1, s.w2.b2, s.w1.b3), Word(s.w1.b0, s.w0.b1, s.w3.b2, s.w2.b3),
          Word(s.w2.b0, s.w1.b1, s.w0.b2, s.w3.b3), Word(s.w3.b0, s.w2.b1, s.w1.b2, s.w0.b3))
  }

  function MixColumns(f: Byte -> Byte, s: Block): Block {
    Block(Mix(f, s.w0), Mix(f, s.w1), Mix(f, s.w2), Mix(f, s.w3))
  }

  function InvMixColumns(f: Byte -> Byte, s: Block): Block {
    Block(InvMix(f, s.w0), InvMix(f, s.w1), InvMix(f, s.w2), InvMix(f, s.w3))
  }

  // ------------------------------------------------------------------ the cipher

  function Round(t: Tables, s: Block, k: Block): Block {
    AddKey(MixColumns(t.xt, ShiftRows(SubBytes(t.S, s))), k)
  }

  function InvRound(t: Tables, s: Block, k: Block): Block {
    AddKey(InvMixColumns(t.xt, InvShiftRows(SubBytes(t.Si, s))), k)
  }

  /** The cipher: full rounds, then one without the mixing of columns. */
  function Forward(t: Tables): Rounds<Block, Block> {
    Rounds((s, k) => Round(t, s, k), s => ShiftRows(SubBytes(t.S, s)), (s, k) => AddKey(s, k))
  }

  /** The equivalent inverse cipher: the same shape with the inverse steps. */
  function Backward(t: Tables): Rounds<Block, Block> {
    Rounds((s, k) => InvRound(t, s, k), s => InvShiftRows(SubBytes(t.Si, s)), (s, k) => AddKey(s, k))
  }

  /** How the middle round keys are transformed for decryption. */
  function UnmixKey(t: Tables): Block -> Block { k => InvMixColumns(t.xt, k) }

  // ------------------------------------------------------------------ each step undone

  lemma InvMixMix(f: Byte -> Byte, w: Word)
    requires Linear(f)
    ensures InvMix(f, Mix(f, w)) == w
  {
    AesField.Unmix(f, w.b0, w.b1, w.b2, w.b3);
    UnmixRow1(f, w);
    UnmixRow2(f, w);
    UnmixRow3(f, w);
  }

  // the other three bytes, by turning the column until the byte is on top
  lemma Turn4(a: Byte, b: Byte, c: Byte, d: Byte)
    ensures Sum4(a, b, c, d) == Sum4(b, c, d, a)
    ensures Sum4(a, b, c, d) == Sum4(c, d, a, b)
    ensures Sum4(a, b, c, d) == Sum4(d, a, b, c)
  {
    Turn(a, b, c, d);
    Turn(b, c, d, a);
    Turn(c, d, a, b);
  }

  lemma UnmixRow1(f: Byte -> Byte, w: Word)
    requires Linear(f)
    ensures InvMix(f, Mix(f, w)).b1 == w.b1
  {
    var a, b, c, d := w.b0, w.b1, w.b2, w.b3;
    AesField.Unmix(f, b, c, d, a);
    Turn4(M2(f, a), M3(f, b), c, d);
    Turn4(a, M2(f, b), M3(f, c), d);
    Turn4(a, b, M2(f, c), M3(f, d));
    Turn4(M3(f, a), b, c, M2(f, d));
    var m := Mix(f, w);
    Turn4(M9(f, m.b0), Me(f, m.b1), Mb(f, m.b2), Md(f, m.b3));
  }

  lemma UnmixRow2(f: Byte -> Byte, w: Word)
    requires Linear(f)
    ensures InvMix(f, Mix(f, w)).b2 == w.b2
  {
    var a, b, c, d := w.b0, w.b1, w.b2, w.b3;
    AesField.Unmix(f, c, d, a, b);
    Turn4(M2(f, a), M3(f, b), c, d);
    Turn4(a, M2(f, b), M3(f, c), d);
    Turn4(a, b, M2(f, c), M3(f, d));
    Turn4(M3(f, a), b, c, M2(f, d));
    var m := Mix(f, w);
    Turn4(Md(f, m.b0), M9(f, m.b1), Me(f, m.b2), Mb(f, m.b3));
  }

  lemma UnmixRow3(f: Byte -> Byte, w: Word)
    requires Linear(f)
    ensures InvMix(f, Mix(f, w)).b3 == w.b3
  {
    var a, b, c, d := w.b0, w.b1, w.b2, w.b3;
    AesField.Unmix(f, d, a, b, c);
    Turn4(M2(f, a), M3(f, b), c, d);
    Turn4(a, M2(f, b), M3(f, c), d);
    Turn4(a, b, M2(f, c), M3(f, d));
    Turn4(M3(f, a), b, c, M2(f, d));
    var m := Mix(f, w);
    Turn4(Mb(f, m.b0), Md(f, m.b1), M9(f, m.b2), Me(f, m.b3));
  }

  lemma InvMixAdds(f: Byte -> Byte, x: Word, y: Word)
    requires Linear(f)
    ensures InvMix(f, Add(x, y)) == Add(InvMix(f, x), InvMix(f, y))
  {
    M9Adds(f, x.b0, y.b0); MbAdds(f, x.b0, y.b0); MdAdds(f, x.b0, y.b0); MeAdds(f, x.b0, y.b0);
    M9Adds(f, x.b1, y.b1); MbAdds(f, x.b1, y.b1); MdAdds(f, x.b1, y.b1); MeAdds(f, x.b1, y.b1);
    M9Adds(f, x.b2, y.b2); MbAdds(f, x.b2, y.b2); MdAdds(f, x.b2, y.b2); MeAdds(f, x.b2, y.b2);
    M9Adds(f, x.b3, y.b3); MbAdds(f, x.b3, y.b3); MdAdds(f, x.b3, y.b3); MeAdds(f, x.b3, y.b3);
    Swap4(Me(f, x.b0), Mb(f, x.b1), Md(f, x.b2), M9(f, x.b3), Me(f, y.b0), Mb(f, y.b1), Md(f, y.b2), M9(f, y.b3));
    Swap4(M9(f, x.b0), Me(f, x.b1), Mb(f, x.b2), Md(f, x.b3), M9(f, y.b0), Me(f, y.b1), Mb(f, y.b2), Md(f, y.b3));
    Swap4(Md(f, x.b0), M9(f, x.b1), Me(f, x.b2), Mb(f, x.b3), Md(f, y.b0), M9(f, y.b1), Me(f, y.b2), Mb(f, y.b3));
    Swap4(Mb(f, x.b0), Md(f, x.b1), M9(f, x.b2), Me(f, x.b3), Mb(f, y.b0), Md(f, y.b1), M9(f, y.b2), Me(f, y.b3));
  }

  lemma AddTwice(x: Word, k: Word)
    ensures Add(Add(x, k), k) == x
  {
    XorTwice(x.b0, k.b0);
    XorTwice(x.b1, k.b1);
    XorTwice(x.b2, k.b2);
    XorTwice(x.b3, k.b3);
  }

  lemma AddKeyTwice(s: Block, k: Block)
    ensures AddKey(AddKey(s, k), k) == s
  {
    AddTwice(s.w0, k.w0);
    AddTwice(s.w1, k.w1);
    AddTwice(s.w2, k.w2);
    AddTwice(s.w3, k.w3);
  }

  lemma SubShiftUndone(t: Tables, s: Block)
    requires Valid(t)
    ensures InvShiftRows(SubBytes(t.Si, ShiftRows(SubBytes(t.S, s)))) == s
  {
  }

  /** Unmixing a mixed state plus a round key, then adding the unmixed key, gives the state. */
  lemma MixKeyUndone(f: Byte -> Byte, s: Block, k: Block)
    requires Linear(f)
    ensures AddKey(InvMixColumns(f, AddKey(MixColumns(f, s), k)), InvMixColumns(f, k)) == s
  {
    InvMixAdds(f, Mix(f, s.w0), k.w0);
    InvMixAdds(f, Mix(f, s.w1), k.w1);
    InvMixAdds(f, Mix(f, s.w2), k.w2);
    InvMixAdds(f, Mix(f, s.w3), k.w3);
    InvMixMix(f, s.w0);
    InvMixMix(f, s.w1);
    InvMixMix(f, s.w2);
    InvMixMix(f, s.w3);
    AddKeyTwice(s, InvMixColumns(f, k));
  }

  /** An inverse round takes the state entering the substitution of one round back to
      that of the round before. */
  lemma InvRoundUndoes(t: Tables, e: Block, k: Block)
    requires Valid(t)
    ensures InvRound(t, ShiftRows(SubBytes(t.S, Round(t, e, k))), InvMixColumns(t.xt, k))
            == ShiftRows(SubBytes(t.S, e))
  {
    SubShiftUndone(t, Round(t, e, k));
    MixKeyUndone(t.xt, ShiftRows(SubBytes(t.S, e)), k);
  }

  lemma BackwardInverts(t: Tables)
    requires Valid(t)
    ensures Inverts(Forward(t), Backward(t), UnmixKey(t))
  {
    var c, d, u := Forward(t), Backward(t), UnmixKey(t);
    forall s, k ensures d.add(c.add(s, k), k) == s { AddKeyTwice(s, k); }
    forall s ensures d.final(c.final(s)) == s { SubShiftUndone(t, s); }
    forall s, k ensures d.round(c.final(c.round(s, k)), u(k)) == c.final(s) { InvRoundUndoes(t, s, k); }
  }

  /** Decryption inverts encryption, for any number of rounds and any round keys. */
  lemma DecryptInvertsEncrypt(t: Tables, ks: seq<Block>, ds: seq<Block>, s: Block)
    requires Valid(t) && Reversed(ks, ds, UnmixKey(t))
    ensures Run(Backward(t), ds, Run(Forward(t), ks, s)) == s
  {
    BackwardInverts(t);
    RunUndone(Forward(t), Backward(t), UnmixKey(t), ks, ds, s);
  }
}
