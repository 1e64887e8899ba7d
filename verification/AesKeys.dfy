/**
 The key schedules: AES_set_encrypt_key against section 5.2 of FIPS 197, and
 AES_set_decrypt_key against what the equivalent inverse cipher needs, so that a
 block encrypted under any 128, 192 or 256-bit key decrypts to itself.
 */
module AesKeys {
  import opened Arithmetic
  import opened AesField
  import opened AesCipher
  import opened AesCode
  import opened RoundTower

  // ------------------------------------------------------------------ section 5.2 of FIPS 197

  function RotWord(w: Word): Word { Word(w.b1, w.b2, w.b3, w.b0) }

  /** The round constant: x to the power n - 1. */
  function Rcon(n: nat): Byte
    requires n > 0
  {
    if n == 1 then 1 else Xtime(Rcon(n - 1))
  }

  /** What is added to the word nk places back to give word i. */
  function Step(t: Tables, nk: nat, last: Word, i: nat): Word
    requires 0 < nk <= i
  {
    if i % nk == 0 then Positive(i, nk); Add(SubWord(t.S, RotWord(last)), Word(Rcon(i / nk), 0, 0, 0))
    else if nk > 6 && i % nk == 4 then SubWord(t.S, last)
    else last
  }

  lemma Positive(i: nat, nk: nat)
    requires 0 < nk <= i
    ensures i / nk > 0
  {
  }

  function NextWord(t: Tables, nk: nat, w: seq<Word>): Word
    requires 0 < nk <= |w|
  {
    Add(w[|w| - nk], Step(t, nk, w[|w| - 1], |w|))
  }

  /** The first m words of the schedule for a key of nk words. */
  function Schedule(t: Tables, key: seq<Byte>, nk: nat, m: nat): (w: seq<Word>)
    requires 0 < nk && 4 * nk <= |key|
    ensures |w| == m
  {
    if m == 0 then []
    else var w := Schedule(t, key, nk, m - 1);
         w + [if m <= nk then GetU32(key, 4 * m - 4) else NextWord(t, nk, w)]
  }

  // ------------------------------------------------------------------ the code's constants and table lookups

  const RCON: seq<Byte> := [0x01, 0x02, 0x04, 0x08, 0x10, 0x20, 0x40, 0x80, 0x1b, 0x36]

  lemma RconNext(i: nat)
    requires i < 9
    ensures RCON[i + 1] == Xtime(RCON[i])
  {
  }

  /** The table of literals holds the powers of x. */
  lemma {:induction false} RconTable(i: nat)
    requires i < 10
    ensures RCON[i] == Rcon(i + 1)
  {
    if i > 0 {
      RconTable(i - 1);
      RconNext(i - 1);
    }
  }

  function CodeRotSub(t: Tables, back: Word, temp: Word, rcon: Byte): Word {
    Add(Add(Add(Add(Add(back, Mask0(Te4(t, temp.b1))), Mask1(Te4(t, temp.b2))), Mask2(Te4(t, temp.b3))),
            Mask3(Te4(t, temp.b0))), Word(rcon, 0, 0, 0))
  }

  function CodeSub(t: Tables, back: Word, temp: Word): Word {
    Add(Add(Add(Add(back, Mask0(Te4(t, temp.b0))), Mask1(Te4(t, temp.b1))), Mask2(Te4(t, temp.b2))),
        Mask3(Te4(t, temp.b3)))
  }

  function CodeUnmix(t: Tables, w: Word): Word {
    Add4(Td0(t, Te4(t, w.b0).b3), Td1(t, Te4(t, w.b1).b3), Td2(t, Te4(t, w.b2).b3), Td3(t, Te4(t, w.b3).b3))
  }

  lemma AddAssoc(a: Word, b: Word, c: Word)
    ensures Add(Add(a, b), c) == Add(a, Add(b, c))
  {
    Assoc(a.b0, b.b0, c.b0);
    Assoc(a.b1, b.b1, c.b1);
    Assoc(a.b2, b.b2, c.b2);
    Assoc(a.b3, b.b3, c.b3);
  }

  lemma AddAll(a: Word, b: Word, c: Word, d: Word, e: Word)
    ensures Add(Add(Add(Add(a, b), c), d), e) == Add(a, Add4(b, c, d, e))
  {
    AddAssoc(a, b, c);
    AddAssoc(a, Add(b, c), d);
    AddAssoc(a, Add(Add(b, c), d), e);
  }

  lemma CodeSubIs(t: Tables, back: Word, temp: Word)
    ensures CodeSub(t, back, temp) == Add(back, SubWord(t.S, temp))
  {
    AddAll(back, Mask0(Te4(t, temp.b0)), Mask1(Te4(t, temp.b1)), Mask2(Te4(t, temp.b2)), Mask3(Te4(t, temp.b3)));
    MasksJoin(Te4(t, temp.b0), Te4(t, temp.b1), Te4(t, temp.b2), Te4(t, temp.b3));
  }

  lemma CodeRotSubIs(t: Tables, back: Word, temp: Word, rcon: Byte)
    ensures CodeRotSub(t, back, temp, rcon) == Add(back, Add(SubWord(t.S, RotWord(temp)), Word(rcon, 0, 0, 0)))
  {
    CodeSubIs(t, back, RotWord(temp));
    AddAssoc(back, SubWord(t.S, RotWord(temp)), Word(rcon, 0, 0, 0));
  }

  /** Looking up the substituted byte in the decryption tables leaves the unmixing alone. */
  lemma CodeUnmixIs(t: Tables, w: Word)
    requires Valid(t)
    ensures CodeUnmix(t, w) == InvMix(t.xt, w)
  {
  }

  function CodeUnmixKey(t: Tables, k: Block): Block {
    Block(CodeUnmix(t, k.w0), CodeUnmix(t, k.w1), CodeUnmix(t, k.w2), CodeUnmix(t, k.w3))
  }

  lemma UnmixCode(t: Tables)
    requires Valid(t)
    ensures forall k :: CodeUnmixKey(t, k) == UnmixKey(t)(k)
  {
    forall k: Block ensures CodeUnmixKey(t, k) == UnmixKey(t)(k) {
      CodeUnmixIs(t, k.w0);
      CodeUnmixIs(t, k.w1);
      CodeUnmixIs(t, k.w2);
      CodeUnmixIs(t, k.w3);
    }
  }

  // ------------------------------------------------------------------ reordering keys

  predicate Swapped<K(==)>(w: seq<K>, v: seq<K>, a: nat, b: nat) {
    && |v| == |w| && a < |w| && b < |w|
    && forall q :: 0 <= q < |w| ==> v[q] == if q == a then w[b] else if q == b then w[a] else w[q]
  }

  /** The first a and the last a of the keys 0 to n have changed places. */
  predicate HalfReversed<K(==)>(w: seq<K>, v: seq<K>, n: nat, a: nat) {
    && |v| == |w| && n < |w|
    && (forall q :: a <= q <= n - a ==> v[q] == w[q])
    && (forall q :: 0 <= q <= n && !(a <= q <= n - a) ==> v[q] == w[n - q])
  }

  predicate AllReversed<K(==)>(w: seq<K>, v: seq<K>, n: nat) {
    && |v| == |w| && n < |w|
    && forall q :: 0 <= q <= n ==> v[q] == w[n - q]
  }

  /** The keys 1 to i - 1 have been transformed. */
  predicate Inner<K(==)>(w: seq<K>, v: seq<K>, n: nat, i: nat, u: K -> K) {
    && |v| == |w| && n < |w|
    && forall q :: 0 <= q <= n ==> v[q] == if 0 < q < i then u(w[q]) else w[q]
  }

  lemma KeysSwapped(w: seq<Word>, v: seq<Word>, a: nat, b: nat)
    requires |v| == |w| && |w| % 4 == 0 && a < b && 4 * b < |w|
    requires KeyAt(v, a) == KeyAt(w, b) && KeyAt(v, b) == KeyAt(w, a)
    requires forall k :: 0 <= k < |w| && !(4 * a <= k < 4 * a + 4) && !(4 * b <= k < 4 * b + 4) ==> v[k] == w[k]
    ensures Swapped(Keys(w, |w| / 4), Keys(v, |v| / 4), a, b)
  {
    forall q: nat | 4 * q < |w| && q != a && q != b ensures KeyAt(v, q) == KeyAt(w, q) {
    }
  }

  lemma SwapStep<K>(w: seq<K>, v: seq<K>, v': seq<K>, n: nat, a: nat)
    requires HalfReversed(w, v, n, a) && a < n - a && Swapped(v, v', a, n - a)
    ensures HalfReversed(w, v', n, a + 1)
  {
    forall q | 0 <= q <= n && !(a + 1 <= q <= n - (a + 1)) ensures v'[q] == w[n - q] {
      if q == a {
        assert v'[q] == v[n - a];
      } else if q == n - a {
        assert v'[q] == v[a];
      }
    }
  }

  lemma ReversedInner<K>(w: seq<K>, v: seq<K>, d: seq<K>, n: nat, u: K -> K)
    requires 0 < n && AllReversed(w, v, n) && Inner(v, d, n, n, u)
    ensures Reversed(w[..n + 1], d[..n + 1], u)
  {
    var ks, ds := w[..n + 1], d[..n + 1];
    forall i | 0 < i < n ensures ds[i] == u(ks[n - i]) {
      assert v[i] == w[n - i];
    }
    assert v[0] == w[n] && v[n] == w[0];
  }

  // ------------------------------------------------------------------ the schedules filled in place

  class Key {
    var rounds: nat
    const rk: array<Word>

    /** The round keys in use. */
    ghost function Used(): (ks: seq<Block>)
      requires 4 * rounds + 4 <= rk.Length
      reads this, rk
      ensures |ks| == rounds + 1
    {
      Keys(rk[..], rounds + 1)
    }

    constructor (rk: array<Word>)
      requires rk.Length == 60
      ensures this.rk == rk
    {
      this.rk := rk;
      rounds := 0;
    }

    /** One word of the schedule stored. */
    method Put(t: Tables, ghost key: seq<Byte>, ghost nk: nat, i: nat, v: Word)
      requires i < rk.Length && 0 < nk && 4 * nk <= |key|
      requires rk[..i] == Schedule(t, key, nk, i)
      requires v == if i < nk then GetU32(key, 4 * i) else NextWord(t, nk, rk[..i])
      modifies rk
      ensures rk[..i + 1] == Schedule(t, key, nk, i + 1)
      ensures rk[i] == v && forall j :: 0 <= j < rk.Length && j != i ==> rk[j] == old(rk[j])
    {
      rk[i] := v;
      assert rk[..i] == old(rk[..i]);
      assert rk[..i + 1] == rk[..i] + [v];
    }

    method Load(t: Tables, key: seq<Byte>, ghost nk: nat, i: nat)
      requires i < rk.Length && i < nk && 4 * nk <= |key|
      requires rk[..i] == Schedule(t, key, nk, i)
      modifies rk
      ensures rk[..i + 1] == Schedule(t, key, nk, i + 1)
    {
      Put(t, key, nk, i, GetU32(key, 4 * i));
    }

    method Chain(t: Tables, ghost key: seq<Byte>, nk: nat, i: nat, ghost q: nat, ghost r: nat)
      requires 0 < nk <= i < rk.Length && 4 * nk <= |key|
      requires i == nk * q + r && 0 < r < nk && (nk > 6 ==> r != 4)
      requires rk[..i] == Schedule(t, key, nk, i)
      modifies rk
      ensures rk[..i + 1] == Schedule(t, key, nk, i + 1)
    {
      DivMod(i, nk, q, r);
      Put(t, key, nk, i, Add(rk[i - nk], rk[i - 1]));
    }

    method ChainRotSub(t: Tables, ghost key: seq<Byte>, nk: nat, i: nat, c: nat)
      requires 0 < nk <= i < rk.Length && 4 * nk <= |key| && c < 10
      requires i == nk * (c + 1)
      requires rk[..i] == Schedule(t, key, nk, i)
      modifies rk
      ensures rk[..i + 1] == Schedule(t, key, nk, i + 1)
    {
      DivMod(i, nk, c + 1, 0);
      CodeRotSubIs(t, rk[i - nk], rk[i - 1], RCON[c]);
      RconTable(c);
      Put(t, key, nk, i, CodeRotSub(t, rk[i - nk], rk[i - 1], RCON[c]));
    }

    method ChainSub(t: Tables, ghost key: seq<Byte>, nk: nat, i: nat, ghost q: nat)
      requires 6 < nk <= i < rk.Length && 4 * nk <= |key| && i == nk * q + 4
      requires rk[..i] == Schedule(t, key, nk, i)
      modifies rk
      ensures rk[..i + 1] == Schedule(t, key, nk, i + 1)
    {
      DivMod(i, nk, q, 4);
      CodeSubIs(t, rk[i - nk], rk[i - 1]);
      Put(t, key, nk, i, CodeSub(t, rk[i - nk], rk[i - 1]));
    }

    method Expand128(t: Tables, ghost key: seq<Byte>)
      requires rk.Length == 60 && |key| == 16 && rk[..4] == Schedule(t, key, 4, 4)
      modifies rk
      ensures rk[..|key| + 28] == EncryptWords(t, key)
    {
      var i, p := 0, 0;
      while true
        invariant 0 <= i < 10 && p == 4 * i && rk[..p + 4] == Schedule(t, key, 4, p + 4)
        decreases 10 - i
      {
        ChainRotSub(t, key, 4, p + 4, i);
        Chain(t, key, 4, p + 5, i + 1, 1);
        Chain(t, key, 4, p + 6, i + 1, 2);
        Chain(t, key, 4, p + 7, i + 1, 3);
        i := i + 1;
        if i == 10 { break; }
        p := p + 4;
      }
    }

    method Expand192(t: Tables, ghost key: seq<Byte>)
      requires rk.Length == 60 && |key| == 24 && rk[..6] == Schedule(t, key, 6, 6)
      modifies rk
      ensures rk[..|key| + 28] == EncryptWords(t, key)
    {
      var i, p := 0, 0;
      while true
        invariant 0 <= i < 8 && p == 6 * i && rk[..p + 6] == Schedule(t, key, 6, p + 6)
        decreases 8 - i
      {
        ChainRotSub(t, key, 6, p + 6, i);
        Chain(t, key, 6, p + 7, i + 1, 1);
        Chain(t, key, 6, p + 8, i + 1, 2);
        Chain(t, key, 6, p + 9, i + 1, 3);
        i := i + 1;
        if i == 8 { break; }
        Chain(t, key, 6, p + 10, i, 4);
        Chain(t, key, 6, p + 11, i, 5);
        p := p + 6;
      }
    }

    method Expand256(t: Tables, ghost key: seq<Byte>)
      requires rk.Length == 60 && |key| == 32 && rk[..8] == Schedule(t, key, 8, 8)
      modifies rk
      ensures rk[..|key| + 28] == EncryptWords(t, key)
    {
      var i, p := 0, 0;
      while true
        invariant 0 <= i < 7 && p == 8 * i && rk[..p + 8] == Schedule(t, key, 8, p + 8)
        decreases 7 - i
      {
        ChainRotSub(t, key, 8, p + 8, i);
        Chain(t, key, 8, p + 9, i + 1, 1);
        Chain(t, key, 8, p + 10, i + 1, 2);
        Chain(t, key, 8, p + 11, i + 1, 3);
        i := i + 1;
        if i == 7 { break; }
        ChainSub(t, key, 8, p + 12, i);
        Chain(t, key, 8, p + 13, i, 5);
        Chain(t, key, 8, p + 14, i, 6);
        Chain(t, key, 8, p + 15, i, 7);
        p := p + 8;
      }
    }

    method LoadKey(t: Tables, key: seq<Byte>, nk: nat)
      requires 0 < nk <= rk.Length && 4 * nk <= |key|
      modifies rk
      ensures rk[..nk] == Schedule(t, key, nk, nk)
    {
      for i := 0 to nk
        invariant rk[..i] == Schedule(t, key, nk, i)
      {
        Load(t, key, nk, i);
      }
    }

    /** AES_set_encrypt_key: refuses other key sizes untouched; otherwise the array holds
        the key expansion and the number of rounds is 10, 12 or 14. */
    method SetEncryptKey(t: Tables, userKey: seq<Byte>, bits: int) returns (r: int)
      requires rk.Length == 60 && (KeySize(bits) ==> |userKey| == bits / 8)
      modifies this`rounds, rk
      ensures r == if KeySize(bits) then 0 else -2
      ensures r < 0 ==> rounds == old(rounds) && rk[..] == old(rk[..])
      ensures r == 0 ==> rounds == bits / 32 + 6 && rk[..4 * (rounds + 1)] == EncryptWords(t, userKey)
      ensures r == 0 ==> Used() == EncryptKeys(t, userKey)
    {
      if bits != 128 && bits != 192 && bits != 256 { return -2; }
      if bits == 128 { rounds := 10; } else if bits == 192 { rounds := 12; } else { rounds := 14; }
      LoadKey(t, userKey, bits / 32);
      if bits == 128 {
        Expand128(t, userKey);
      } else if bits == 192 {
        Expand192(t, userKey);
      } else {
        Expand256(t, userKey);
      }
      ScheduleKeys(t, userKey, rk[..], rounds);
      return 0;
    }

    /** The round keys the array holds. */
    ghost function View(): (ks: seq<Block>)
      requires rk.Length % 4 == 0
      reads rk
      ensures |ks| == rk.Length / 4
    {
      Keys(rk[..], rk.Length / 4)
    }

    /** The round keys at words i and j change places. */
    method SwapKeys(i: nat, j: nat, ghost a: nat, ghost b: nat)
      requires rk.Length % 4 == 0 && i == 4 * a && j == 4 * b && a < b && j < rk.Length
      modifies rk
      ensures Swapped(old(View()), View(), a, b)
    {
      rk[i], rk[j] := rk[j], rk[i];
      rk[i + 1], rk[j + 1] := rk[j + 1], rk[i + 1];
      rk[i + 2], rk[j + 2] := rk[j + 2], rk[i + 2];
      rk[i + 3], rk[j + 3] := rk[j + 3], rk[i + 3];
      KeysSwapped(old(rk[..]), rk[..], a, b);
    }

    method ReverseKeys(n: nat)
      requires rk.Length % 4 == 0 && 4 * n < rk.Length
      modifies rk
      ensures AllReversed(old(View()), View(), n)
    {
      var i, j := 0, 4 * n;
      ghost var a, b := 0, n;
      while i < j
        invariant i == 4 * a && j == 4 * b && a + b == n && a <= b + 1
        invariant HalfReversed(old(View()), View(), n, a)
      {
        ghost var before := View();
        SwapKeys(i, j, a, b);
        SwapStep(old(View()), before, View(), n, a);
        i, j := i + 4, j - 4;
        a, b := a + 1, b - 1;
      }
    }

    method StoreKey(p: nat, ghost a: nat, k: Block)
      requires rk.Length % 4 == 0 && p == 4 * a && p < rk.Length
      modifies rk
      ensures View() == old(View())[a := k]
    {
      rk[p] := k.w0;
      rk[p + 1] := k.w1;
      rk[p + 2] := k.w2;
      rk[p + 3] := k.w3;
    }

    /** The round keys between the first and the last unmixed where they stand. */
    method UnmixKeys(t: Tables, n: nat, ghost u: Block -> Block)
      requires rk.Length % 4 == 0 && 0 < n && 4 * n < rk.Length
      requires forall k :: CodeUnmixKey(t, k) == u(k)
      modifies rk
      ensures Inner(old(View()), View(), n, n, u)
    {
      var p := 0;
      for i := 1 to n
        invariant p == 4 * (i - 1)
        invariant Inner(old(View()), View(), n, i, u)
      {
        p := p + 4;
        var k := Block(rk[p], rk[p + 1], rk[p + 2], rk[p + 3]);
        assert k == View()[i];
        StoreKey(p, i, CodeUnmixKey(t, k));
      }
    }

    method InvertKeys(t: Tables, ghost ks: seq<Block>)
      requires Valid(t) && rk.Length % 4 == 0 && |ks| == rounds + 1 && 0 < rounds && 4 * rounds < rk.Length
      requires Used() == ks
      modifies rk
      ensures Reversed(ks, Used(), UnmixKey(t))
    {
      ghost var w := View();
      KeysPrefix(rk[..], rk.Length / 4, rounds + 1);
      ReverseKeys(rounds);
      ghost var v := View();
      UnmixCode(t);
      UnmixKeys(t, rounds, UnmixKey(t));
      ReversedInner(w, v, View(), rounds, UnmixKey(t));
      KeysPrefix(rk[..], rk.Length / 4, rounds + 1);
    }

    /** AES_set_decrypt_key: the round keys of the encryption schedule in reverse, those
        between the first and the last unmixed. */
    method SetDecryptKey(t: Tables, userKey: seq<Byte>, bits: int) returns (r: int)
      requires Valid(t) && rk.Length == 60 && (KeySize(bits) ==> |userKey| == bits / 8)
      modifies this`rounds, rk
      ensures r == if KeySize(bits) then 0 else -2
      ensures r < 0 ==> rounds == old(rounds) && rk[..] == old(rk[..])
      ensures r == 0 ==> rounds == bits / 32 + 6
      ensures r == 0 ==> Reversed(EncryptKeys(t, userKey), Used(), UnmixKey(t))
    {
      r := SetEncryptKey(t, userKey, bits);
      if r < 0 { return; }
      InvertKeys(t, EncryptKeys(t, userKey));
    }
  }

  predicate KeySize(bits: int) { bits == 128 || bits == 192 || bits == 256 }

  /** The words of the encryption schedule of a key. */
  function EncryptWords(t: Tables, key: seq<Byte>): (w: seq<Word>)
    requires KeySize(8 * |key|)
  {
    Schedule(t, key, |key| / 4, |key| + 28)
  }

  function EncryptKeys(t: Tables, key: seq<Byte>): (ks: seq<Block>)
    requires KeySize(8 * |key|)
    ensures |ks| == |key| / 4 + 7
  {
    Keys(EncryptWords(t, key), |key| / 4 + 7)
  }

  lemma KeysPrefix(w: seq<Word>, n: nat, m: nat)
    requires 4 * n <= |w| && m <= n
    ensures Keys(w, n)[..m] == Keys(w, m)
  {
  }

  /** An array that begins with the schedule has the schedule's round keys. */
  lemma ScheduleKeys(t: Tables, key: seq<Byte>, w: seq<Word>, rounds: nat)
    requires KeySize(8 * |key|) && rounds == |key| / 4 + 6
    requires 4 * (rounds + 1) <= |w| && w[..4 * (rounds + 1)] == EncryptWords(t, key)
    ensures Keys(w, rounds + 1) == EncryptKeys(t, key)
  {
    var e := EncryptWords(t, key);
    forall q | 0 <= q < rounds + 1 ensures KeyAt(w, q) == KeyAt(e, q) {
      assert w[4 * q] == e[4 * q] && w[4 * q + 1] == e[4 * q + 1];
      assert w[4 * q + 2] == e[4 * q + 2] && w[4 * q + 3] == e[4 * q + 3];
    }
  }

  // ------------------------------------------------------------------ one block, there and back

  /** Every key of 128, 192 or 256 bits, every block: decryption under the decryption
      schedule undoes encryption under the encryption schedule. */
  lemma BlockRoundTrip(t: Tables, key: seq<Byte>, dk: seq<Block>, b: seq<Byte>)
    requires Valid(t) && KeySize(8 * |key|) && |b| == 16
    requires Reversed(EncryptKeys(t, key), dk, UnmixKey(t))
    ensures InverseBytes(t, dk, CipherBytes(t, EncryptKeys(t, key), b)) == b
  {
    var s := GetBlock(b);
    DecryptInvertsEncrypt(t, EncryptKeys(t, key), dk, s);
    BlockBytes(b, s);
    BlockBytes(b, Run(Forward(t), EncryptKeys(t, key), s));
  }
}
