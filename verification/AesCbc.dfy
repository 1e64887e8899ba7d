/**
 Cipher block chaining as AES_cbc_encrypt does it: whole blocks, then a short last
 block padded with zeros; the chaining vector is updated in place and carried on.
 */
module AesCbc {
  import opened AesField
  import opened AesCipher
  import AesCode

  type Bytes = seq<Byte>
  type BlockMap = Bytes -> Bytes

  ghost predicate Blocks(f: BlockMap) {
    forall b :: |b| == 16 ==> |f(b)| == 16
  }

  /** d takes back what e does to a block. */
  ghost predicate Undoes(d: BlockMap, e: BlockMap) {
    Blocks(d) && Blocks(e) && forall b :: |b| == 16 ==> d(e(b)) == b
  }

  function XorBytes(a: Bytes, b: Bytes): (c: Bytes)
    requires |a| <= |b|
    ensures |c| == |a| && forall i :: 0 <= i < |a| ==> c[i] == Xor(a[i], b[i])
  {
    seq(|a|, i requires 0 <= i < |a| => Xor(a[i], b[i]))
  }

  function Padded(x: Bytes): (b: Bytes)
    requires |x| < 16
    ensures |b| == 16 && b[..|x|] == x && forall i :: |x| <= i < 16 ==> b[i] == 0
  {
    x + seq(16 - |x|, _ => 0)
  }

  // ------------------------------------------------------------------ what is computed

  ghost function Encrypted(e: BlockMap, iv: Bytes, x: Bytes): (c: Bytes)
    requires Blocks(e) && |iv| == 16
    ensures |c| == (|x| + 15) / 16 * 16
    decreases |x|
  {
    if |x| == 0 then []
    else if |x| < 16 then e(XorBytes(Padded(x), iv))
    else var c := e(XorBytes(x[..16], iv)); c + Encrypted(e, c, x[16..])
  }

  /** The chaining vector encryption leaves: the last block it wrote. */
  ghost function EncryptVector(e: BlockMap, iv: Bytes, x: Bytes): (v: Bytes)
    requires Blocks(e) && |iv| == 16
    ensures |v| == 16
    decreases |x|
  {
    if |x| == 0 then iv
    else if |x| < 16 then e(XorBytes(Padded(x), iv))
    else EncryptVector(e, e(XorBytes(x[..16], iv)), x[16..])
  }

  /** The first `len` bytes decryption gives; a short last block still reads sixteen. */
  ghost function Decrypted(d: BlockMap, iv: Bytes, c: Bytes, len: nat): (x: Bytes)
    requires Blocks(d) && |iv| == 16 && (len + 15) / 16 * 16 <= |c|
    ensures |x| == len
    decreases len
  {
    if len == 0 then []
    else if len < 16 then XorBytes(d(c[..16]), iv)[..len]
    else XorBytes(d(c[..16]), iv) + Decrypted(d, c[..16], c[16..], len - 16)
  }

  /** The chaining vector decryption leaves: the last block read, but after a short last
      block what that block decrypts to. */
  ghost function DecryptVector(d: BlockMap, iv: Bytes, c: Bytes, len: nat): (v: Bytes)
    requires Blocks(d) && |iv| == 16 && (len + 15) / 16 * 16 <= |c|
    ensures |v| == 16
    decreases len
  {
    if len == 0 then iv
    else if len < 16 then d(c[..16])
    else DecryptVector(d, c[..16], c[16..], len - 16)
  }

  // ------------------------------------------------------------------ laws

  lemma XorUndone(a: Bytes, b: Bytes)
    requires |a| <= |b|
    ensures XorBytes(XorBytes(a, b), b) == a
  {
    forall i | 0 <= i < |a| ensures XorBytes(XorBytes(a, b), b)[i] == a[i] {
      XorTwice(a[i], b[i]);
    }
  }

  /** Block i of some bytes, and the block in front of it, the chaining vector standing in front of the first. */
  function BlockAt(x: Bytes, i: nat): (b: Bytes)
    requires 16 * i + 16 <= |x|
    ensures |b| == 16
  {
    x[16 * i..16 * i + 16]
  }

  function BlockBefore(iv: Bytes, x: Bytes, i: nat): (b: Bytes)
    requires |iv| == 16 && 16 * i <= |x|
    ensures |b| == 16
  {
    if i == 0 then iv else BlockAt(x, i - 1)
  }

  /** Block i of a message, a short last one filled up with zeros. */
  function PlainBlock(x: Bytes, i: nat): (b: Bytes)
    requires 16 * i < |x|
    ensures |b| == 16
  {
    if 16 * i + 16 <= |x| then BlockAt(x, i) else Padded(x[16 * i..])
  }

  lemma DropSlice(c: Bytes, k: nat, p: nat, q: nat)
    requires k <= p <= q <= |c|
    ensures c[k..][p - k..q - k] == c[p..q]
  {
  }

  lemma BehindSlice(b: Bytes, rest: Bytes, p: nat, q: nat)
    requires |b| <= p <= q <= |b| + |rest|
    ensures (b + rest)[p..q] == rest[p - |b|..q - |b|]
  {
  }

  lemma PlainShift(x: Bytes, i: nat)
    requires i > 0 && 16 * i < |x|
    ensures PlainBlock(x, i) == PlainBlock(x[16..], i - 1)
  {
    DropSlice(x, 16, 16 * i, |x|);
    if 16 * i + 16 <= |x| { DropSlice(x, 16, 16 * i, 16 * i + 16); }
  }

  lemma CipherShift(b: Bytes, rest: Bytes, i: nat)
    requires |b| == 16 && i > 0 && 16 * i <= |rest|
    ensures BlockAt(b + rest, i) == BlockAt(rest, i - 1) && BlockBefore(b, rest, i - 1) == BlockAt(b + rest, i - 1)
  {
    BehindSlice(b, rest, 16 * i, 16 * i + 16);
    if i > 1 { BehindSlice(b, rest, 16 * (i - 1), 16 * i); }
  }

  lemma EncryptUnfolds(e: BlockMap, iv: Bytes, x: Bytes) returns (b: Bytes, rest: Bytes)
    requires Blocks(e) && |iv| == 16 && |x| >= 16
    ensures |b| == 16 && b == e(XorBytes(x[..16], iv)) && rest == Encrypted(e, b, x[16..])
    ensures Encrypted(e, iv, x) == b + rest
  {
    b := e(XorBytes(x[..16], iv));
    rest := Encrypted(e, b, x[16..]);
  }

  ghost predicate ChainedAt(e: BlockMap, iv: Bytes, x: Bytes, c: Bytes, i: nat)
    requires Blocks(e) && |iv| == 16
  {
    && 16 * i < |x| && 16 * i + 16 <= |c|
    && BlockAt(c, i) == e(XorBytes(PlainBlock(x, i), BlockBefore(iv, c, i)))
  }

  /** The chaining equations of section 6.2 of NIST SP 800-38A. Every block of the ciphertext is the encryption of
      the plaintext block, added to the ciphertext block in front; a short last block is filled up with zeros. */
  lemma {:induction false} EncryptEquation(e: BlockMap, iv: Bytes, x: Bytes, i: nat)
    requires Blocks(e) && |iv| == 16 && 16 * i < |x|
    ensures ChainedAt(e, iv, x, Encrypted(e, iv, x), i)
    decreases i
  {
    if i == 0 {
      FirstChained(e, iv, x);
    } else {
      var b, rest := EncryptUnfolds(e, iv, x);
      EncryptEquation(e, b, x[16..], i - 1);
      ChainShift(e, iv, x, b, rest, i);
    }
  }

  lemma FirstChained(e: BlockMap, iv: Bytes, x: Bytes)
    requires Blocks(e) && |iv| == 16 && x != []
    ensures ChainedAt(e, iv, x, Encrypted(e, iv, x), 0)
  {
    if |x| < 16 {
      assert x[0..] == x;
    } else {
      var b, rest := EncryptUnfolds(e, iv, x);
      assert BlockAt(b + rest, 0) == b && BlockAt(x, 0) == x[..16];
    }
  }

  lemma ChainShift(e: BlockMap, iv: Bytes, x: Bytes, b: Bytes, rest: Bytes, i: nat)
    requires Blocks(e) && |iv| == |b| == 16 && i > 0 && 16 * i < |x| && ChainedAt(e, b, x[16..], rest, i - 1)
    ensures ChainedAt(e, iv, x, b + rest, i)
  {
    PlainShift(x, i);
    CipherShift(b, rest, i);
  }

  /** Block i of the plaintext x of c is y, or as much of y as there is. */
  predicate PlainAt(x: Bytes, i: nat, y: Bytes) {
    |y| == 16 && 16 * i < |x| && if 16 * i + 16 <= |x| then BlockAt(x, i) == y else x[16 * i..] == y[..|x| - 16 * i]
  }

  /** Every block of the plaintext is the decryption of the ciphertext block, added to the one in front; of a short
      last block only the first bytes are given. */
  lemma {:induction false} DecryptEquation(d: BlockMap, iv: Bytes, c: Bytes, len: nat, i: nat)
    requires Blocks(d) && |iv| == 16 && (len + 15) / 16 * 16 <= |c| && 16 * i < len
    ensures PlainAt(Decrypted(d, iv, c, len), i, XorBytes(d(BlockAt(c, i)), BlockBefore(iv, c, i)))
    decreases i
  {
    if i == 0 {
      FirstEquation(d, iv, c, len);
    } else {
      var y, rest := DecryptUnfolds(d, iv, c, len);
      DecryptEquation(d, c[..16], c[16..], len - 16, i - 1);
      ShiftedBlocks(c, i);
      ShiftedPlain(y, rest, i, XorBytes(d(BlockAt(c, i)), BlockBefore(iv, c, i)));
    }
  }

  lemma DecryptUnfolds(d: BlockMap, iv: Bytes, c: Bytes, len: nat) returns (y: Bytes, rest: Bytes)
    requires Blocks(d) && |iv| == 16 && (len + 15) / 16 * 16 <= |c| && len > 16
    ensures |y| == 16 && |c[..16]| == 16 && (len - 16 + 15) / 16 * 16 <= |c[16..]|
    ensures rest == Decrypted(d, c[..16], c[16..], len - 16) && Decrypted(d, iv, c, len) == y + rest
  {
    y, rest := XorBytes(d(c[..16]), iv), Decrypted(d, c[..16], c[16..], len - 16);
  }

  lemma FirstEquation(d: BlockMap, iv: Bytes, c: Bytes, len: nat)
    requires Blocks(d) && |iv| == 16 && (len + 15) / 16 * 16 <= |c| && 0 < len
    ensures PlainAt(Decrypted(d, iv, c, len), 0, XorBytes(d(BlockAt(c, 0)), iv))
  {
    assert BlockAt(c, 0) == c[..16];
    if len >= 16 {
      var y := XorBytes(d(c[..16]), iv);
      assert BlockAt(y + Decrypted(d, c[..16], c[16..], len - 16), 0) == y;
    }
  }

  lemma ShiftedBlocks(c: Bytes, i: nat)
    requires i > 0 && 16 * i + 16 <= |c|
    ensures BlockAt(c[16..], i - 1) == BlockAt(c, i)
    ensures BlockBefore(c[..16], c[16..], i - 1) == BlockAt(c, i - 1)
  {
    DropSlice(c, 16, 16 * i, 16 * i + 16);
    if i > 1 { DropSlice(c, 16, 16 * (i - 1), 16 * i); }
  }

  lemma ShiftedPlain(b: Bytes, rest: Bytes, i: nat, y: Bytes)
    requires |b| == 16 && i > 0 && PlainAt(rest, i - 1, y)
    ensures PlainAt(b + rest, i, y)
  {
    var x := b + rest;
    BehindSlice(b, rest, 16 * i, |x|);
    if 16 * i + 16 <= |x| { BehindSlice(b, rest, 16 * i, 16 * i + 16); }
  }

  /** Encryption leaves the last block it wrote as the chaining vector. */
  lemma {:induction false} VectorIsLast(e: BlockMap, iv: Bytes, x: Bytes)
    requires Blocks(e) && |iv| == 16
    ensures var c := Encrypted(e, iv, x); EncryptVector(e, iv, x) == if x == [] then iv else c[|c| - 16..]
    decreases |x|
  {
    if |x| >= 16 {
      var b := e(XorBytes(x[..16], iv));
      VectorIsLast(e, b, x[16..]);
      assert Encrypted(e, iv, x) == b + Encrypted(e, b, x[16..]);
    }
  }

  /** Decryption gives back every message, of any length. */
  lemma {:induction false} CbcRoundTrip(e: BlockMap, d: BlockMap, iv: Bytes, x: Bytes)
    requires Undoes(d, e) && |iv| == 16
    ensures Decrypted(d, iv, Encrypted(e, iv, x), |x|) == x
    decreases |x|
  {
    if 0 < |x| < 16 {
      XorUndone(Padded(x), iv);
      var c := e(XorBytes(Padded(x), iv));
      assert c[..16] == c;
    } else if |x| >= 16 {
      var c := e(XorBytes(x[..16], iv));
      XorUndone(x[..16], iv);
      var rest := Encrypted(e, c, x[16..]);
      assert (c + rest)[..16] == c && (c + rest)[16..] == rest;
      CbcRoundTrip(e, d, c, x[16..]);
    }
  }

  /** Every message comes back, whatever the chaining vector. */
  ghost predicate RoundTrips(e: BlockMap, d: BlockMap) {
    && Blocks(e) && Blocks(d)
    && forall iv, x :: |iv| == 16 ==> Decrypted(d, iv, Encrypted(e, iv, x), |x|) == x
  }

  lemma AllRoundTrip(e: BlockMap, d: BlockMap)
    requires Undoes(d, e)
    ensures RoundTrips(e, d)
  {
    forall iv: Bytes, x: Bytes | |iv| == 16 ensures Decrypted(d, iv, Encrypted(e, iv, x), |x|) == x {
      CbcRoundTrip(e, d, iv, x);
    }
  }

  /** A message may be encrypted in several calls, if each but the last is whole blocks. */
  lemma {:induction false} EncryptInParts(e: BlockMap, iv: Bytes, x: Bytes, y: Bytes, n: nat)
    requires Blocks(e) && |iv| == 16 && |x| == 16 * n
    ensures Encrypted(e, iv, x + y) == Encrypted(e, iv, x) + Encrypted(e, EncryptVector(e, iv, x), y)
    ensures EncryptVector(e, iv, x + y) == EncryptVector(e, EncryptVector(e, iv, x), y)
    decreases n
  {
    if n == 0 {
      assert x + y == y;
    } else {
      assert (x + y)[..16] == x[..16] && (x + y)[16..] == x[16..] + y;
      var c := e(XorBytes(x[..16], iv));
      EncryptInParts(e, c, x[16..], y, n - 1);
      var v := EncryptVector(e, iv, x);
      assert Encrypted(e, iv, x + y) == c + (Encrypted(e, c, x[16..]) + Encrypted(e, v, y));
    }
  }

  lemma {:induction false} DecryptInParts(d: BlockMap, iv: Bytes, c: Bytes, c': Bytes, len: nat, n: nat)
    requires Blocks(d) && |iv| == 16 && |c| == 16 * n && (len + 15) / 16 * 16 <= |c'|
    ensures Decrypted(d, iv, c + c', |c| + len)
            == Decrypted(d, iv, c, |c|) + Decrypted(d, DecryptVector(d, iv, c, |c|), c', len)
    ensures DecryptVector(d, iv, c + c', |c| + len) == DecryptVector(d, DecryptVector(d, iv, c, |c|), c', len)
    decreases n
  {
    if n == 0 {
      assert c + c' == c';
    } else {
      assert (c + c')[..16] == c[..16] && (c + c')[16..] == c[16..] + c';
      DecryptInParts(d, c[..16], c[16..], c', len, n - 1);
    }
  }

  lemma {:induction false} VectorAfter(e: BlockMap, d: BlockMap, iv: Bytes, x: Bytes, n: nat, r: nat)
    requires Blocks(e) && Blocks(d) && |iv| == 16 && |x| == 16 * n + r && r < 16
    ensures DecryptVector(d, iv, Encrypted(e, iv, x), |x|)
            == if r == 0 then EncryptVector(e, iv, x) else d(EncryptVector(e, iv, x))
    decreases n
  {
    if 0 < |x| < 16 {
      var c := e(XorBytes(Padded(x), iv));
      assert c[..16] == c;
    } else if |x| >= 16 {
      var c := e(XorBytes(x[..16], iv));
      var rest := Encrypted(e, c, x[16..]);
      assert (c + rest)[..16] == c && (c + rest)[16..] == rest;
      VectorAfter(e, d, c, x[16..], n - 1, r);
    }
  }

  /** The two sides carry on with the same chaining vector exactly when the message is
      whole blocks, or the last block written happens to be a fixed point of decryption. */
  lemma VectorsAgreeIff(e: BlockMap, d: BlockMap, iv: Bytes, x: Bytes)
    requires Undoes(d, e) && |iv| == 16
    ensures DecryptVector(d, iv, Encrypted(e, iv, x), |x|) == EncryptVector(e, iv, x)
            <==> |x| % 16 == 0 || d(EncryptVector(e, iv, x)) == EncryptVector(e, iv, x)
  {
    VectorAfter(e, d, iv, x, |x| / 16, |x| % 16);
  }

  /** Every bit inverted: a block map that is its own inverse and fixes no block. */
  function Inverted(): BlockMap { b => seq(|b|, i requires 0 <= i < |b| => Xor(b[i], 0xff)) }

  /** With it the two vectors differ after every message that is not whole blocks. */
  lemma VectorsDiffer(iv: Bytes, x: Bytes)
    requires |iv| == 16 && |x| % 16 != 0
    ensures Undoes(Inverted(), Inverted())
    ensures DecryptVector(Inverted(), iv, Encrypted(Inverted(), iv, x), |x|) != EncryptVector(Inverted(), iv, x)
  {
    var f := Inverted();
    forall b: Bytes | |b| == 16 ensures |f(b)| == 16 && f(f(b)) == b && f(b) != b {
      forall i | 0 <= i < 16 ensures f(f(b))[i] == b[i] && f(b)[i] != b[i] { XorOnes(b[i]); }
      assert f(b)[0] != b[0];
    }
    VectorsAgreeIff(f, f, iv, x);
  }

  lemma XorOnes(a: Byte)
    ensures Xor(Xor(a, 0xff), 0xff) == a && Xor(a, 0xff) != a
  {
  }

  // ------------------------------------------------------------------ the code

  /** A block map that is the cipher, or the inverse cipher, under round keys. */
  ghost predicate Ciphers(t: Tables, ks: seq<Block>, e: BlockMap) {
    && |ks| >= 2
    && forall b: Bytes {:trigger AesCode.CipherBytes(t, ks, b)} :: |b| == 16 ==> e(b) == AesCode.CipherBytes(t, ks, b)
  }

  ghost predicate Deciphers(t: Tables, ks: seq<Block>, d: BlockMap) {
    && |ks| >= 2
    && forall b: Bytes {:trigger AesCode.InverseBytes(t, ks, b)} :: |b| == 16 ==> d(b) == AesCode.InverseBytes(t, ks, b)
  }

  /** The block code under a key schedule, and what it does to a block in either direction. */
  class BlockCode {
    const t: Tables
    const rk: seq<Word>
    const rounds: nat
    ghost const e: BlockMap
    ghost const d: BlockMap

    ghost predicate Ok() {
      && rounds >= 2 && rounds % 2 == 0 && 4 * rounds + 4 <= |rk| && Blocks(e) && Blocks(d)
      && Ciphers(t, AesCode.Keys(rk, rounds + 1), e) && Deciphers(t, AesCode.Keys(rk, rounds + 1), d)
    }

    constructor (t: Tables, rk: seq<Word>, rounds: nat)
      requires rounds >= 2 && rounds % 2 == 0 && 4 * rounds + 4 <= |rk|
      ensures Ok() && this.t == t && this.rk == rk && this.rounds == rounds
    {
      this.t, this.rk, this.rounds := t, rk, rounds;
      this.e := b => if |b| == 16 then AesCode.CipherBytes(t, AesCode.Keys(rk, rounds + 1), b) else b;
      this.d := b => if |b| == 16 then AesCode.InverseBytes(t, AesCode.Keys(rk, rounds + 1), b) else b;
    }

    method Encrypt(x: Bytes) returns (c: Bytes)
      requires Ok() && |x| == 16
      ensures c == e(x) && |c| == 16
    {
      c := AesCode.Encrypt(t, x, rk, rounds);
    }

    method Decrypt(x: Bytes) returns (c: Bytes)
      requires Ok() && |x| == 16
      ensures c == d(x) && |c| == 16
    {
      c := AesCode.Decrypt(t, x, rk, rounds);
    }
  }

  /** The bytes b stored from index `at` on. */
  method Store(a: array<Byte>, at: nat, b: Bytes)
    requires at + |b| <= a.Length
    modifies a
    ensures a[..] == old(a[..at]) + b + old(a[at + |b|..])
  {
    for n := 0 to |b|
      invariant forall k :: 0 <= k < a.Length ==> a[k] == if at <= k < at + n then b[k - at] else old(a[k])
    {
      a[at + n] := b[n];
    }
  }

  /** All of an array. */
  method Replace(a: array<Byte>, b: Bytes)
    requires |b| == a.Length
    modifies a
    ensures a[..] == b
  {
    forall k | 0 <= k < |b| { a[k] := b[k]; }
  }

  method MixIn(tmp: array<Byte>, input: array<Byte>, at: nat, ivec: array<Byte>)
    requires tmp.Length == ivec.Length == 16 && at + 16 <= input.Length && tmp != input && tmp != ivec
    modifies tmp
    ensures tmp[..] == XorBytes(input[at..at + 16], ivec[..])
  {
    for n := 0 to 16
      invariant tmp[..n] == XorBytes(input[at..at + n], ivec[..])
    {
      tmp[n] := Xor(input[at + n], ivec[n]);
      assert tmp[..n + 1] == tmp[..n] + [tmp[n]];
    }
    assert tmp[..] == tmp[..16];
  }

  method MixTail(tmp: array<Byte>, input: array<Byte>, at: nat, len: nat, ivec: array<Byte>)
    requires tmp.Length == ivec.Length == 16 && len < 16 && at + len <= input.Length && tmp != input && tmp != ivec
    modifies tmp
    ensures tmp[..] == XorBytes(Padded(input[at..at + len]), ivec[..])
  {
    ghost var b := Padded(input[at..at + len]);
    for n := 0 to len
      invariant forall k :: 0 <= k < n ==> tmp[k] == Xor(b[k], ivec[k])
    {
      assert b[n] == b[..len][n];
      tmp[n] := Xor(input[at + n], ivec[n]);
    }
    for n := len to 16
      invariant forall k :: 0 <= k < n ==> tmp[k] == Xor(b[k], ivec[k])
    {
      XorZero(ivec[n]);
      tmp[n] := ivec[n];
    }
  }

  lemma XorZero(a: Byte)
    ensures Xor(0, a) == a
  {
  }

  // ------------------------------------------------------------------ progress of the two loops

  /** With p bytes done, what is written and what is left make up the whole. */
  ghost predicate EncryptedTo(e: BlockMap, iv0: Bytes, x: Bytes, p: nat, done: Bytes, iv: Bytes) {
    && Blocks(e) && |iv0| == 16 && |iv| == 16 && p <= |x|
    && Encrypted(e, iv0, x) == done + Encrypted(e, iv, x[p..])
    && EncryptVector(e, iv0, x) == EncryptVector(e, iv, x[p..])
  }

  ghost predicate DecryptedTo(d: BlockMap, iv0: Bytes, c: Bytes, len: nat, p: nat, done: Bytes, iv: Bytes) {
    && Blocks(d) && |iv0| == 16 && |iv| == 16 && p <= len && p % 16 == 0 && (len + 15) / 16 * 16 <= |c|
    && Decrypted(d, iv0, c, len) == done + Decrypted(d, iv, c[p..], len - p)
    && DecryptVector(d, iv0, c, len) == DecryptVector(d, iv, c[p..], len - p)
  }

  lemma EncryptStep(e: BlockMap, iv0: Bytes, x: Bytes, p: nat, done: Bytes, iv: Bytes)
    requires EncryptedTo(e, iv0, x, p, done, iv) && p + 16 <= |x|
    ensures var c := e(XorBytes(x[p..p + 16], iv)); EncryptedTo(e, iv0, x, p + 16, done + c, c)
  {
    var c := e(XorBytes(x[p..p + 16], iv));
    assert x[p..][..16] == x[p..p + 16] && x[p..][16..] == x[p + 16..];
    assert done + (c + Encrypted(e, c, x[p + 16..])) == (done + c) + Encrypted(e, c, x[p + 16..]);
  }

  lemma EncryptLast(e: BlockMap, iv0: Bytes, x: Bytes, p: nat, done: Bytes, iv: Bytes)
    requires EncryptedTo(e, iv0, x, p, done, iv) && |x| - p < 16
    ensures p == |x| ==> Encrypted(e, iv0, x) == done && EncryptVector(e, iv0, x) == iv
    ensures p < |x| ==> var c := e(XorBytes(Padded(x[p..]), iv));
                        Encrypted(e, iv0, x) == done + c && EncryptVector(e, iv0, x) == c
  {
  }

  lemma DecryptStep(d: BlockMap, iv0: Bytes, c: Bytes, len: nat, p: nat, done: Bytes, iv: Bytes)
    requires DecryptedTo(d, iv0, c, len, p, done, iv) && p + 16 <= len
    ensures var b := c[p..p + 16]; DecryptedTo(d, iv0, c, len, p + 16, done + XorBytes(d(b), iv), b)
  {
    var b := c[p..p + 16];
    var y := XorBytes(d(b), iv);
    assert c[p..][..16] == b && c[p..][16..] == c[p + 16..];
    var rest := Decrypted(d, b, c[p + 16..], len - p - 16);
    assert done + (y + rest) == (done + y) + rest;
  }

  lemma DecryptLast(d: BlockMap, iv0: Bytes, c: Bytes, len: nat, p: nat, done: Bytes, iv: Bytes)
    requires DecryptedTo(d, iv0, c, len, p, done, iv) && len - p < 16
    ensures p == len ==> Decrypted(d, iv0, c, len) == done && DecryptVector(d, iv0, c, len) == iv
    ensures p < len ==> p + 16 <= |c| &&
                        var b := d(c[p..p + 16]);
                        && Decrypted(d, iv0, c, len) == done + XorBytes(b, iv)[..len - p]
                        && DecryptVector(d, iv0, c, len) == b
  {
    if p < len { assert c[p..][..16] == c[p..p + 16]; }
  }

  // ------------------------------------------------------------------ AES_cbc_encrypt

  /** One whole block: mixed with the chaining vector, encrypted, stored in both places. */
  method EncryptAt(code: BlockCode, input: array<Byte>, out: array<Byte>, p: nat, ivec: array<Byte>, tmp: array<Byte>)
    requires code.Ok() && ivec.Length == tmp.Length == 16 && ivec != out && tmp != input && tmp != ivec && tmp != out
    requires p + 16 <= input.Length && p + 16 <= out.Length
    modifies out, ivec, tmp
    ensures var c := code.e(XorBytes(old(input[p..p + 16]), old(ivec[..])));
            out[..] == old(out[..p]) + c + old(out[p + 16..]) && ivec[..] == c
    ensures input != ivec ==> forall k :: p + 16 <= k < input.Length ==> input[k] == old(input[k])
  {
    MixIn(tmp, input, p, ivec);
    var c := code.Encrypt(tmp[..]);
    Store(out, p, c);
    Store(ivec, 0, c);
  }

  method EncryptTailAt(code: BlockCode, input: array<Byte>, out: array<Byte>, p: nat, len: nat, ivec: array<Byte>,
                       tmp: array<Byte>)
    requires code.Ok() && ivec.Length == tmp.Length == 16 && ivec != out && tmp != input && tmp != ivec && tmp != out
    requires len < 16 && p + len <= input.Length && p + 16 <= out.Length
    modifies out, ivec, tmp
    ensures var c := code.e(XorBytes(Padded(old(input[p..p + len])), old(ivec[..])));
            out[..] == old(out[..p]) + c + old(out[p + 16..]) && ivec[..] == c
  {
    MixTail(tmp, input, p, len, ivec);
    var c := code.Encrypt(tmp[..]);
    Store(out, p, c);
    Store(ivec, 0, c);
  }

  /** The loop over whole blocks keeps whatever one block keeps. */
  method EncryptBlocks(code: BlockCode, input: array<Byte>, out: array<Byte>, length: nat, ivec: array<Byte>,
                       tmp: array<Byte>, ghost x: Bytes, ghost inv: (nat, Bytes, Bytes) -> bool)
    returns (p: nat, len: nat, ghost q: nat)
    requires code.Ok() && ivec.Length == tmp.Length == 16
    requires ivec != input && ivec != out && tmp != input && tmp != ivec && tmp != out
    requires length <= input.Length && length <= out.Length && x == input[..length]
    requires inv(0, [], ivec[..]) && Kept(code.e, x, inv)
    modifies out, ivec, tmp
    ensures p + len == length && len < 16 && p == 16 * q
    ensures inv(p, out[..p], ivec[..])
    ensures (forall k :: p <= k < length ==> input[k] == x[k]) && out[p..] == old(out[p..])
  {
    p, len, q := 0, length, 0;
    assert out[..0] == [];
    while len >= 16
      invariant p + len == length && p == 16 * q
      invariant forall k :: p <= k < length ==> input[k] == x[k]
      invariant inv(p, out[..p], ivec[..])
      invariant forall k :: p <= k < out.Length ==> out[k] == old(out[k])
    {
      ghost var done, iv, b := out[..p], ivec[..], x[p..p + 16];
      assert input[p..p + 16] == b;
      EncryptAt(code, input, out, p, ivec, tmp);
      assert out[..p + 16] == done + ivec[..];
      assert inv(p + 16, done + ivec[..], ivec[..]);
      len, p, q := len - 16, p + 16, q + 1;
    }
  }

  /** Encrypting one more block keeps inv. */
  ghost predicate Kept(e: BlockMap, x: Bytes, inv: (nat, Bytes, Bytes) -> bool)
    requires Blocks(e)
  {
    forall p: nat, done, iv :: inv(p, done, iv) && |iv| == 16 && p + 16 <= |x| ==>
      var c := e(XorBytes(x[p..p + 16], iv)); inv(p + 16, done + c, c)
  }

  /** The encrypting half; the input and the output may be one buffer. */
  method CbcEncrypt(code: BlockCode, input: array<Byte>, out: array<Byte>, length: nat, ivec: array<Byte>)
    requires code.Ok() && ivec.Length == 16 && ivec != input && ivec != out
    requires length <= input.Length && (length + 15) / 16 * 16 <= out.Length
    modifies out, ivec
    ensures var n := (length + 15) / 16 * 16;
            out[..n] == Encrypted(code.e, old(ivec[..]), old(input[..length])) && out[n..] == old(out[n..])
    ensures ivec[..] == EncryptVector(code.e, old(ivec[..]), old(input[..length]))
  {
    ghost var x, iv0, e := input[..length], ivec[..], code.e;
    ghost var inv := (p: nat, done, iv) => EncryptedTo(e, iv0, x, p, done, iv);
    EncryptProgress(e, iv0, x, inv);
    var tmp := new Byte[16];
    var p, len, q := EncryptBlocks(code, input, out, length, ivec, tmp, x, inv);
    EncryptRest(code, input, out, p, len, ivec, tmp, x, iv0, q);
  }

  /** What the loop leaves: nothing, or a short last block. */
  method EncryptRest(code: BlockCode, input: array<Byte>, out: array<Byte>, p: nat, len: nat, ivec: array<Byte>,
                     tmp: array<Byte>, ghost x: Bytes, ghost iv0: Bytes, ghost q: nat)
    requires code.Ok() && ivec.Length == tmp.Length == 16 && ivec != input && ivec != out
    requires tmp != input && tmp != out && tmp != ivec
    requires len < 16 && p == 16 * q && |x| == p + len <= input.Length && (p + len + 15) / 16 * 16 <= out.Length
    requires EncryptedTo(code.e, iv0, x, p, out[..p], ivec[..])
    requires forall k :: p <= k < |x| ==> input[k] == x[k]
    modifies out, ivec, tmp
    ensures var n := (p + len + 15) / 16 * 16;
            out[..n] == Encrypted(code.e, iv0, x) && out[n..] == old(out[n..])
    ensures ivec[..] == EncryptVector(code.e, iv0, x)
  {
    EncryptLast(code.e, iv0, x, p, out[..p], ivec[..]);
    if len > 0 {
      ghost var done := out[..p];
      assert input[p..p + len] == x[p..];
      EncryptTailAt(code, input, out, p, len, ivec, tmp);
      assert out[..p + 16] == done + ivec[..];
    }
  }

  lemma EncryptProgress(e: BlockMap, iv0: Bytes, x: Bytes, inv: (nat, Bytes, Bytes) -> bool)
    requires Blocks(e) && |iv0| == 16
    requires forall p: nat, done, iv :: inv(p, done, iv) == EncryptedTo(e, iv0, x, p, done, iv)
    ensures inv(0, [], iv0) && Kept(e, x, inv)
  {
    assert x[0..] == x;
    assert EncryptedTo(e, iv0, x, 0, [], iv0);
    forall p: nat, done: Bytes, iv: Bytes | inv(p, done, iv) && |iv| == 16 && p + 16 <= |x|
      ensures var c := e(XorBytes(x[p..p + 16], iv)); inv(p + 16, done + c, c)
    {
      EncryptStep(e, iv0, x, p, done, iv);
    }
  }

  method XorInPlace(out: array<Byte>, p: nat, ivec: array<Byte>)
    requires ivec.Length == 16 && p + 16 <= out.Length && ivec != out
    modifies out
    ensures out[..] == old(out[..p]) + XorBytes(old(out[p..p + 16]), ivec[..]) + old(out[p + 16..])
  {
    for n := 0 to 16
      invariant forall k :: 0 <= k < out.Length ==>
                  out[k] == if p <= k < p + n then Xor(old(out[k]), ivec[k - p]) else old(out[k])
    {
      out[p + n] := Xor(out[p + n], ivec[n]);
    }
  }

  /** One whole block: decrypted, then the chaining vector mixed in; the ciphertext is kept
      aside first, as the output may overwrite it. */
  method DecryptAt(code: BlockCode, input: array<Byte>, out: array<Byte>, p: nat, ivec: array<Byte>)
    requires code.Ok() && ivec.Length == 16 && ivec != out
    requires p + 16 <= input.Length && p + 16 <= out.Length
    modifies out, ivec
    ensures var b := old(input[p..p + 16]);
            out[..] == old(out[..p]) + XorBytes(code.d(b), old(ivec[..])) + old(out[p + 16..]) && ivec[..] == b
    ensures input != ivec ==> forall k :: p + 16 <= k < input.Length ==> input[k] == old(input[k])
  {
    var tmp := input[p..p + 16];
    var x := code.Decrypt(tmp);
    Store(out, p, x);
    Stored(old(out[..p]), x, old(out[p + 16..]), out[..], p);
    XorInPlace(out, p, ivec);
    Replace(ivec, tmp);
  }

  lemma Stored(a: Bytes, x: Bytes, b: Bytes, all: Bytes, p: nat)
    requires all == a + x + b && |a| == p
    ensures all[..p] == a && all[p..p + |x|] == x && all[p + |x|..] == b
  {
  }

  ghost predicate KeptBack(d: BlockMap, c: Bytes, len: nat, inv: (nat, Bytes, Bytes) -> bool)
    requires Blocks(d) && len <= |c|
  {
    forall p: nat, done, iv :: inv(p, done, iv) && |iv| == 16 && p + 16 <= len ==>
      var b := c[p..p + 16]; inv(p + 16, done + XorBytes(d(b), iv), b)
  }

  method DecryptBlocks(code: BlockCode, input: array<Byte>, out: array<Byte>, length: nat, ivec: array<Byte>,
                       ghost c: Bytes, ghost inv: (nat, Bytes, Bytes) -> bool)
    returns (p: nat, len: nat, ghost q: nat)
    requires code.Ok() && ivec.Length == 16 && ivec != input && ivec != out
    requires length <= input.Length && length <= out.Length && c == input[..]
    requires inv(0, [], ivec[..]) && KeptBack(code.d, c, length, inv)
    modifies out, ivec
    ensures p + len == length && len < 16 && p == 16 * q
    ensures inv(p, out[..p], ivec[..])
    ensures (forall k :: p <= k < |c| ==> input[k] == c[k]) && out[p..] == old(out[p..])
  {
    p, len, q := 0, length, 0;
    assert out[..0] == [];
    while len >= 16
      invariant p + len == length && p == 16 * q
      invariant forall k :: p <= k < |c| ==> input[k] == c[k]
      invariant inv(p, out[..p], ivec[..])
      invariant forall k :: p <= k < out.Length ==> out[k] == old(out[k])
    {
      ghost var done, iv, b := out[..p], ivec[..], c[p..p + 16];
      assert input[p..p + 16] == b;
      DecryptAt(code, input, out, p, ivec);
      assert out[..p + 16] == done + XorBytes(code.d(b), iv);
      assert inv(p + 16, done + XorBytes(code.d(b), iv), b);
      len, p, q := len - 16, p + 16, q + 1;
    }
  }

  method XorTail(out: array<Byte>, p: nat, tmp: Bytes, len: nat, ivec: array<Byte>)
    requires ivec.Length == |tmp| == 16 && len < 16 && p + len <= out.Length && ivec != out
    modifies out
    ensures out[..] == old(out[..p]) + XorBytes(tmp, ivec[..])[..len] + old(out[p + len..])
  {
    for n := 0 to len
      invariant forall k :: 0 <= k < out.Length ==>
                  out[k] == if p <= k < p + n then Xor(tmp[k - p], ivec[k - p]) else old(out[k])
    {
      out[p + n] := Xor(tmp[n], ivec[n]);
    }
  }

  /** A short last block: only its first bytes are written, and the chaining vector becomes
      the decrypted block. */
  method DecryptTailAt(code: BlockCode, input: array<Byte>, out: array<Byte>, p: nat, len: nat, ivec: array<Byte>)
    requires code.Ok() && ivec.Length == 16 && ivec != input && ivec != out
    requires len < 16 && p + 16 <= input.Length && p + len <= out.Length
    modifies out, ivec
    ensures var b := code.d(old(input[p..p + 16]));
            out[..] == old(out[..p]) + XorBytes(b, old(ivec[..]))[..len] + old(out[p + len..]) && ivec[..] == b
  {
    var tmp := code.Decrypt(input[p..p + 16]);
    XorTail(out, p, tmp, len, ivec);
    Replace(ivec, tmp);
  }

  lemma DecryptStart(d: BlockMap, iv0: Bytes, c: Bytes, len: nat)
    requires Blocks(d) && |iv0| == 16 && (len + 15) / 16 * 16 <= |c|
    ensures DecryptedTo(d, iv0, c, len, 0, [], iv0)
  {
    assert c[0..] == c;
  }

  lemma DecryptProgress(d: BlockMap, iv0: Bytes, c: Bytes, len: nat, inv: (nat, Bytes, Bytes) -> bool)
    requires Blocks(d) && |iv0| == 16 && (len + 15) / 16 * 16 <= |c|
    requires forall p: nat, done, iv :: inv(p, done, iv) == DecryptedTo(d, iv0, c, len, p, done, iv)
    ensures inv(0, [], iv0) && KeptBack(d, c, len, inv)
  {
    DecryptStart(d, iv0, c, len);
    forall p: nat, done: Bytes, iv: Bytes | inv(p, done, iv) && |iv| == 16 && p + 16 <= len
      ensures var b := c[p..p + 16]; inv(p + 16, done + XorBytes(d(b), iv), b)
    {
      DecryptStep(d, iv0, c, len, p, done, iv);
    }
  }

  /** The decrypting half; the input and the output may be one buffer. */
  method CbcDecrypt(code: BlockCode, input: array<Byte>, out: array<Byte>, length: nat, ivec: array<Byte>)
    requires code.Ok() && ivec.Length == 16 && ivec != input && ivec != out
    requires (length + 15) / 16 * 16 <= input.Length && length <= out.Length
    modifies out, ivec
    ensures out[..length] == Decrypted(code.d, old(ivec[..]), old(input[..]), length)
    ensures out[length..] == old(out[length..])
    ensures ivec[..] == DecryptVector(code.d, old(ivec[..]), old(input[..]), length)
  {
    ghost var c, iv0, d := input[..], ivec[..], code.d;
    ghost var inv := (p: nat, done, iv) => DecryptedTo(d, iv0, c, length, p, done, iv);
    DecryptProgress(d, iv0, c, length, inv);
    var p, len, q := DecryptBlocks(code, input, out, length, ivec, c, inv);
    assert out[length..] == old(out[length..]);
    DecryptRest(code, input, out, p, len, ivec, c, iv0);
  }

  /** What the loop leaves: nothing, or a short last block. */
  method DecryptRest(code: BlockCode, input: array<Byte>, out: array<Byte>, p: nat, len: nat, ivec: array<Byte>,
                     ghost c: Bytes, ghost iv0: Bytes)
    requires code.Ok() && ivec.Length == 16 && ivec != input && ivec != out && len < 16 && p + len <= out.Length
    requires |c| == input.Length && DecryptedTo(code.d, iv0, c, p + len, p, out[..p], ivec[..])
    requires forall k :: p <= k < |c| ==> input[k] == c[k]
    modifies out, ivec
    ensures out[..p + len] == Decrypted(code.d, iv0, c, p + len) && out[p + len..] == old(out[p + len..])
    ensures ivec[..] == DecryptVector(code.d, iv0, c, p + len)
  {
    DecryptLast(code.d, iv0, c, p + len, p, out[..p], ivec[..]);
    if len > 0 {
      ghost var done, iv := out[..p], ivec[..];
      assert input[p..p + 16] == c[p..p + 16];
      DecryptTailAt(code, input, out, p, len, ivec);
      assert out[..p + len] == done + XorBytes(ivec[..], iv)[..len];
    }
  }

  /** What one call leaves: the output and the chaining vector, in either direction. */
  ghost predicate Sealed(e: BlockMap, iv: Bytes, x: Bytes, before: Bytes, after: Bytes, vector: Bytes) {
    && Blocks(e) && |iv| == 16
    && var c := Encrypted(e, iv, x);
    && |c| <= |before| && after == c + before[|c|..] && vector == EncryptVector(e, iv, x)
  }

  ghost predicate Opened(d: BlockMap, iv: Bytes, c: Bytes, len: nat, before: Bytes, after: Bytes, vector: Bytes) {
    && Blocks(d) && |iv| == 16 && (len + 15) / 16 * 16 <= |c| && len <= |before|
    && after == Decrypted(d, iv, c, len) + before[len..] && vector == DecryptVector(d, iv, c, len)
  }

  method Crypt(code: BlockCode, input: array<Byte>, out: array<Byte>, length: nat, ivec: array<Byte>, enc: bool)
    requires code.Ok() && ivec.Length == 16 && ivec != input && ivec != out
    requires length <= input.Length && length <= out.Length
    requires (length + 15) / 16 * 16 <= if enc then out.Length else input.Length
    modifies out, ivec
    ensures enc ==> Sealed(code.e, old(ivec[..]), old(input[..length]), old(out[..]), out[..], ivec[..])
    ensures !enc ==> Opened(code.d, old(ivec[..]), old(input[..]), length, old(out[..]), out[..], ivec[..])
  {
    ghost var n := (length + 15) / 16 * 16;
    if enc {
      CbcEncrypt(code, input, out, length, ivec);
      assert out[..] == out[..n] + out[n..];
    } else {
      CbcDecrypt(code, input, out, length, ivec);
      assert out[..] == out[..length] + out[length..];
    }
  }

  /** Bytes behind the last block are not looked at. */
  lemma {:induction false} DecryptedPrefix(d: BlockMap, iv: Bytes, c: Bytes, more: Bytes, len: nat)
    requires Blocks(d) && |iv| == 16 && (len + 15) / 16 * 16 <= |c|
    ensures Decrypted(d, iv, c + more, len) == Decrypted(d, iv, c, len)
    decreases len
  {
    if len >= 16 {
      assert (c + more)[..16] == c[..16] && (c + more)[16..] == c[16..] + more;
      DecryptedPrefix(d, c[..16], c[16..], more, len - 16);
    } else if len > 0 {
      assert (c + more)[..16] == c[..16];
    }
  }

  /** A buffer sealed and opened in place is what it was. */
  lemma SealedOpens(e: BlockMap, d: BlockMap, iv: Bytes, x: Bytes, before: Bytes, middle: Bytes, after: Bytes,
                    v1: Bytes, v2: Bytes)
    requires Undoes(d, e) && Sealed(e, iv, x, before, middle, v1) && Opened(d, iv, middle, |x|, middle, after, v2)
    ensures after[..|x|] == x
  {
    var c := Encrypted(e, iv, x);
    DecryptedPrefix(d, iv, c, before[|c|..], |x|);
    CbcRoundTrip(e, d, iv, x);
  }
}

/** Chaining under a key: what the block code and the chaining code give together. */
module AesMessages {
  import opened AesField
  import opened AesCipher
  import opened AesCode
  import opened AesKeys
  import opened AesCbc
  import opened RoundTower

  /** What AES_encrypt and AES_decrypt do to a block under a schedule. */
  function EncryptMap(t: Tables, ks: seq<Block>): BlockMap
    requires |ks| >= 2
  {
    b => if |b| == 16 then CipherBytes(t, ks, b) else b
  }

  function DecryptMap(t: Tables, ks: seq<Block>): BlockMap
    requires |ks| >= 2
  {
    b => if |b| == 16 then InverseBytes(t, ks, b) else b
  }

  lemma MapsUndone(t: Tables, key: Bytes, dk: seq<Block>)
    requires Valid(t) && KeySize(8 * |key|) && Reversed(EncryptKeys(t, key), dk, UnmixKey(t))
    ensures Undoes(DecryptMap(t, dk), EncryptMap(t, EncryptKeys(t, key)))
  {
    CiphersUndone(t, key, dk, EncryptMap(t, EncryptKeys(t, key)), DecryptMap(t, dk));
  }

  /** Every message, every chaining vector, every key: decrypting gives the message back. */
  lemma MessageRoundTrip(t: Tables, key: Bytes, dk: seq<Block>)
    requires Valid(t) && KeySize(8 * |key|) && Reversed(EncryptKeys(t, key), dk, UnmixKey(t))
    ensures RoundTrips(EncryptMap(t, EncryptKeys(t, key)), DecryptMap(t, dk))
  {
    MapsUndone(t, key, dk);
    AllRoundTrip(EncryptMap(t, EncryptKeys(t, key)), DecryptMap(t, dk));
  }

  /** The standard's doubling map is one the proofs cover, with any invertible substitution. */
  lemma StandardTables(S: Byte -> Byte, Si: Byte -> Byte)
    requires forall b :: Si(S(b)) == b
    ensures Valid(Tables(Xtime, S, Si))
  {
    XtimeLinear();
  }

  lemma CiphersUndone(t: Tables, key: Bytes, dk: seq<Block>, e: BlockMap, d: BlockMap)
    requires Valid(t) && KeySize(8 * |key|) && Reversed(EncryptKeys(t, key), dk, UnmixKey(t))
    requires Ciphers(t, EncryptKeys(t, key), e) && Deciphers(t, dk, d)
    ensures Undoes(d, e)
  {
    forall b: Bytes | |b| == 16 ensures |e(b)| == 16 && |d(b)| == 16 && d(e(b)) == b {
      BlockRoundTrip(t, key, dk, b);
      var c, x := CipherBytes(t, EncryptKeys(t, key), b), InverseBytes(t, dk, b);
      assert e(b) == c && d(c) == InverseBytes(t, dk, c);
    }
  }

  /** AES_cbc_encrypt under a key schedule: one direction or the other, the input and the
      output possibly one buffer. */
  method CbcCrypt(t: Tables, input: array<Byte>, out: array<Byte>, length: nat, key: Key, ivec: array<Byte>, enc: bool)
    returns (ghost f: BlockMap)
    requires key.rounds >= 2 && key.rounds % 2 == 0 && 4 * key.rounds + 4 <= key.rk.Length
    requires ivec.Length == 16 && ivec != input && ivec != out
    requires (key.rk as object) != out && (key.rk as object) != ivec
    requires length <= input.Length && length <= out.Length
    requires (length + 15) / 16 * 16 <= if enc then out.Length else input.Length
    modifies out, ivec
    ensures enc ==> Ciphers(t, key.Used(), f)
    ensures enc ==> Sealed(f, old(ivec[..]), old(input[..length]), old(out[..]), out[..], ivec[..])
    ensures !enc ==> Deciphers(t, key.Used(), f)
    ensures !enc ==> Opened(f, old(ivec[..]), old(input[..]), length, old(out[..]), out[..], ivec[..])
  {
    var code := new BlockCode(t, key.rk[..], key.rounds);
    Crypt(code, input, out, length, ivec, enc);
    assert key.rk[..] == code.rk;
    f := if enc then code.e else code.d;
  }

  /** The same on one buffer, with the round keys named. */
  method CryptInPlace(t: Tables, buffer: array<Byte>, length: nat, key: Key, ivec: array<Byte>, enc: bool,
                      ghost ks: seq<Block>)
    returns (ghost f: BlockMap)
    requires key.rounds >= 2 && key.rounds % 2 == 0 && 4 * key.rounds + 4 <= key.rk.Length && ks == key.Used()
    requires ivec.Length == 16 && ivec != buffer && (key.rk as object) != buffer && (key.rk as object) != ivec
    requires length <= buffer.Length && (length + 15) / 16 * 16 <= buffer.Length
    modifies buffer, ivec
    ensures enc ==> Ciphers(t, ks, f)
    ensures enc ==> Sealed(f, old(ivec[..]), old(buffer[..length]), old(buffer[..]), buffer[..], ivec[..])
    ensures !enc ==> Deciphers(t, ks, f)
    ensures !enc ==> Opened(f, old(ivec[..]), old(buffer[..]), length, old(buffer[..]), buffer[..], ivec[..])
  {
    f := CbcCrypt(t, buffer, buffer, length, key, ivec, enc);
    assert key.rk[..] == old(key.rk[..]);
    assert key.Used() == ks;
  }

  ghost predicate EncryptsUnder(t: Tables, key: Bytes, e: BlockMap) {
    KeySize(8 * |key|) && Ciphers(t, EncryptKeys(t, key), e)
  }

  ghost predicate DecryptsUnder(t: Tables, key: Bytes, d: BlockMap) {
    KeySize(8 * |key|) && exists dk :: Reversed(EncryptKeys(t, key), dk, UnmixKey(t)) && Deciphers(t, dk, d)
  }

  lemma UndoneUnder(t: Tables, key: Bytes, e: BlockMap, d: BlockMap)
    requires Valid(t) && EncryptsUnder(t, key, e) && DecryptsUnder(t, key, d)
    ensures Undoes(d, e)
  {
    var dk :| Reversed(EncryptKeys(t, key), dk, UnmixKey(t)) && Deciphers(t, dk, d);
    CiphersUndone(t, key, dk, e, d);
  }

  /** The schedule set up and the buffer encrypted in place. */
  method Seal(t: Tables, userKey: Bytes, bits: int, buffer: array<Byte>, length: nat, ivec: array<Byte>)
    returns (r: int, ghost e: BlockMap)
    requires (length + 15) / 16 * 16 <= buffer.Length && length <= buffer.Length && ivec.Length == 16 && ivec != buffer
    requires KeySize(bits) ==> |userKey| == bits / 8
    modifies buffer, ivec
    ensures r == if KeySize(bits) then 0 else -2
    ensures r < 0 ==> buffer[..] == old(buffer[..])
    ensures r == 0 ==> EncryptsUnder(t, userKey, e)
    ensures r == 0 ==> Sealed(e, old(ivec[..]), old(buffer[..length]), old(buffer[..]), buffer[..], ivec[..])
  {
    var rk := new Word[60];
    var key := new Key(rk);
    r := key.SetEncryptKey(t, userKey, bits);
    e := b => b;
    if r < 0 { return; }
    RoundCount(bits, key.rounds);
    assert (key.rk as object) != buffer && (key.rk as object) != ivec;
    e := CryptInPlace(t, buffer, length, key, ivec, true, key.Used());
  }

  /** The schedule set up and the buffer decrypted in place. */
  method Open(t: Tables, userKey: Bytes, bits: int, buffer: array<Byte>, length: nat, ivec: array<Byte>)
    returns (r: int, ghost d: BlockMap)
    requires Valid(t)
    requires (length + 15) / 16 * 16 <= buffer.Length && length <= buffer.Length && ivec.Length == 16 && ivec != buffer
    requires KeySize(bits) ==> |userKey| == bits / 8
    modifies buffer, ivec
    ensures r == if KeySize(bits) then 0 else -2
    ensures r < 0 ==> buffer[..] == old(buffer[..])
    ensures r == 0 ==> DecryptsUnder(t, userKey, d)
    ensures r == 0 ==> Opened(d, old(ivec[..]), old(buffer[..]), length, old(buffer[..]), buffer[..], ivec[..])
  {
    var rk := new Word[60];
    var key := new Key(rk);
    r := key.SetDecryptKey(t, userKey, bits);
    d := b => b;
    if r < 0 { return; }
    RoundCount(bits, key.rounds);
    ghost var dk := key.Used();
    assert Reversed(EncryptKeys(t, userKey), dk, UnmixKey(t));
    assert (key.rk as object) != buffer && (key.rk as object) != ivec;
    d := CryptInPlace(t, buffer, length, key, ivec, false, dk);
    DecryptsWith(t, userKey, dk, d);
  }

  lemma RoundCount(bits: int, rounds: nat)
    requires KeySize(bits) && rounds == bits / 32 + 6
    ensures rounds >= 2 && rounds % 2 == 0 && 4 * rounds + 4 <= 60 && KeySize(8 * (bits / 8))
  {
  }

  lemma DecryptsWith(t: Tables, key: Bytes, dk: seq<Block>, d: BlockMap)
    requires KeySize(8 * |key|) && Reversed(EncryptKeys(t, key), dk, UnmixKey(t)) && Deciphers(t, dk, d)
    ensures DecryptsUnder(t, key, d)
  {
  }

  /** A chaining vector that starts as iv. */
  method VectorOf(iv: Bytes) returns (a: array<Byte>)
    requires |iv| == 16
    ensures fresh(a) && a.Length == 16 && a[..] == iv
  {
    a := new Byte[16](i requires 0 <= i < 16 => iv[i]);
  }

  /** A buffer encrypted in place and decrypted in place under one key is what it was,
      whatever its length; only the padding behind it may differ. */
  method EncryptAndBack(t: Tables, userKey: Bytes, bits: int, buffer: array<Byte>, length: nat, iv: Bytes)
    returns (r: int)
    requires Valid(t) && |iv| == 16 && (length + 15) / 16 * 16 <= buffer.Length && length <= buffer.Length
    requires KeySize(bits) ==> |userKey| == bits / 8
    modifies buffer
    ensures r == if KeySize(bits) then 0 else -2
    ensures buffer[..length] == old(buffer[..length])
  {
    var ivec := VectorOf(iv);
    var back := VectorOf(iv);
    ghost var before := buffer[..];
    assert before[..length] == buffer[..length];
    var q, e := Seal(t, userKey, bits, buffer, length, ivec);
    ghost var middle := buffer[..];
    ghost var d: BlockMap;
    r, d := Open(t, userKey, bits, buffer, length, back);
    if r == 0 {
      UndoneUnder(t, userKey, e, d);
      SealedOpens(e, d, iv, before[..length], before, middle, buffer[..], ivec[..], back[..]);
    }
    assert buffer[..][..length] == buffer[..length];
  }
}
