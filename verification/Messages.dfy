/** Any values written one after the other and read back one after the other. */
module Sequencing {
  import opened Disk
  import opened Options

  type Bytes = seq<byte>

  /** How a value is written, of what kind it is, and how a kind is read at a position. */
  datatype Codec<!V, !K> = Codec(ok: V -> bool, enc: V -> Bytes, kind: V -> K,
                                 read: (Bytes, nat, K) -> Option<(V, int)>)

  /** The bytes b stand at position p of c. */
  predicate At(c: Bytes, p: nat, b: Bytes) {
    p + |b| <= |c| && c[p..p + |b|] == b
  }

  lemma AtSplit(c: Bytes, p: nat, a: Bytes, b: Bytes)
    requires At(c, p, a + b)
    ensures At(c, p, a) && At(c, p + |a|, b)
  {
    var all := c[p..p + |a + b|];
    assert c[p..p + |a|] == all[..|a|] && c[p + |a|..p + |a| + |b|] == all[|a|..];
  }

  /** A value standing anywhere in c is read back, and the position moves behind it. */
  ghost predicate Faithful<V(!new), K>(f: Codec<V, K>, c: Bytes) {
    forall x, p: nat :: f.ok(x) && At(c, p, f.enc(x)) ==> f.read(c, p, f.kind(x)) == Some((x, p + |f.enc(x)|))
  }

  /** The first n values written. */
  function Encoded<V, K>(f: Codec<V, K>, xs: seq<V>, n: nat): Bytes
    requires n <= |xs|
  {
    if n == 0 then [] else Encoded(f, xs, n - 1) + f.enc(xs[n - 1])
  }

  /** The first n kinds read; nothing if one of the reads gives nothing. */
  function ReadFirst<V, K>(f: Codec<V, K>, c: Bytes, ks: seq<K>, n: nat): Option<(seq<V>, int)>
    requires n <= |ks|
  {
    if n == 0 then Some(([], 0))
    else
      match ReadFirst(f, c, ks, n - 1)
      case None => None
      case Some((xs, p)) =>
        if p < 0 then None
        else
          match f.read(c, p, ks[n - 1])
          case None => None
          case Some((x, q)) => Some((xs + [x], q))
  }

  predicate KindsOf<V, K(==)>(f: Codec<V, K>, xs: seq<V>, ks: seq<K>) {
    |ks| == |xs| && forall i :: 0 <= i < |xs| ==> ks[i] == f.kind(xs[i])
  }

  /** Whatever was written, the matching reads give back, in order. */
  lemma {:induction false} ReadBack<V(!new), K>(f: Codec<V, K>, xs: seq<V>, ks: seq<K>, c: Bytes, n: nat)
    requires Faithful(f, c) && (forall i :: 0 <= i < |xs| ==> f.ok(xs[i])) && KindsOf(f, xs, ks)
    requires n <= |xs| && At(c, 0, Encoded(f, xs, n))
    ensures ReadFirst(f, c, ks, n) == Some((xs[..n], |Encoded(f, xs, n)|))
  {
    if n > 0 {
      AtSplit(c, 0, Encoded(f, xs, n - 1), f.enc(xs[n - 1]));
      ReadBack(f, xs, ks, c, n - 1);
      assert xs[..n] == xs[..n - 1] + [xs[n - 1]];
    }
  }

  lemma ReadBackAll<V(!new), K>(f: Codec<V, K>, xs: seq<V>, ks: seq<K>, c: Bytes)
    requires Faithful(f, c) && (forall i :: 0 <= i < |xs| ==> f.ok(xs[i])) && KindsOf(f, xs, ks)
    requires At(c, 0, Encoded(f, xs, |xs|))
    ensures ReadFirst(f, c, ks, |ks|) == Some((xs, |Encoded(f, xs, |xs|)|))
  {
    ReadBack(f, xs, ks, c, |xs|);
    assert xs[..|xs|] == xs;
  }
}

/**
 Typed values in a message: little-endian integers, length-prefixed strings and raw
 bytes, written by MessageBuilder into a growing buffer and read back by MessageReader.
 Sizes and positions are unsigned 32-bit numbers that wrap around.
 */
module MessageCodec {
  import opened Arithmetic
  import opened Disk
  import opened Options
  import opened Sequencing

  const WORD: nat := 0x1_0000_0000

  // ------------------------------------------------------------------ little-endian integers

  function PutLe(v: nat, n: nat): (s: Bytes)
    ensures |s| == n
  {
    if n == 0 then [] else [(v % 256) as byte] + PutLe(v / 256, n - 1)
  }

  function GetLe(s: Bytes): (v: nat)
    ensures v < Pow256(|s|)
  {
    if s == [] then 0 else s[0] as nat + 256 * GetLe(s[1..])
  }

  lemma {:induction false} LeRoundTrip(v: nat, n: nat)
    requires v < Pow256(n)
    ensures GetLe(PutLe(v, n)) == v
  {
    if n > 0 {
      LeRoundTrip(v / 256, n - 1);
      assert PutLe(v, n)[1..] == PutLe(v / 256, n - 1);
    }
  }

  /** Least significant byte first. */
  lemma {:induction false} LeBytes(v: nat, n: nat, i: nat)
    requires i < n
    ensures PutLe(v, n)[i] as nat == v / Pow256(i) % 256
  {
    if i > 0 {
      LeBytes(v / 256, n - 1, i - 1);
      DivTwice(v, 256, Pow256(i - 1));
    }
  }

  /** Any bytes are those of the number read from them. */
  lemma {:induction false} LePutBack(s: Bytes)
    ensures PutLe(GetLe(s), |s|) == s
  {
    if s != [] {
      LePutBack(s[1..]);
      DivMod(GetLe(s), 256, GetLe(s[1..]), s[0] as nat);
    }
  }

  /** The pattern a machine stores for v, and the value it reads from a pattern. */
  function Unsigned(v: int, n: nat): int { if v < 0 then v + Pow256(n) else v }

  function Valued(u: nat, signed: bool, n: nat): int { if signed && 2 * u >= Pow256(n) then u - Pow256(n) else u }

  predicate InRange(v: int, signed: bool, n: nat) {
    if signed then 0 <= 2 * v + Pow256(n) < 2 * Pow256(n) else 0 <= v < Pow256(n)
  }

  lemma SignRoundTrip(v: int, signed: bool, n: nat)
    requires InRange(v, signed, n)
    ensures 0 <= Unsigned(v, n) < Pow256(n) && Valued(Unsigned(v, n), signed, n) == v
  {
  }

  /** Two's complement: the pattern is the value modulo the number of patterns. */
  lemma PatternOf(v: int, signed: bool, n: nat)
    requires InRange(v, signed, n)
    ensures Unsigned(v, n) == v % Pow256(n)
  {
    if v < 0 { DivMod(v, Pow256(n), -1, v + Pow256(n)); } else { DivMod(v, Pow256(n), 0, v); }
  }

  lemma ValuedInRange(u: nat, signed: bool, n: nat)
    requires u < Pow256(n)
    ensures InRange(Valued(u, signed, n), signed, n) && Unsigned(Valued(u, signed, n), n) == u
  {
  }

  // ------------------------------------------------------------------ values

  datatype Kind = IntOf(width: nat, signed: bool) | TextOf | BytesOf(count: nat)

  datatype Value = Int(width: nat, signed: bool, v: int) | Text(s: Bytes) | Raw(b: Bytes)

  predicate Valid(x: Value) {
    match x
    case Int(w, signed, v) => (w == 1 || w == 2 || w == 4 || w == 8) && InRange(v, signed, w)
    case Text(s) => |s| < WORD
    case Raw(b) => |b| < WORD
  }

  predicate KindOk(k: Kind) {
    (k.IntOf? ==> k.width < WORD) && (k.BytesOf? ==> k.count < WORD)
  }

  function KindOf(x: Value): (k: Kind)
    ensures Valid(x) ==> KindOk(k)
  {
    match x
    case Int(w, signed, _) => IntOf(w, signed)
    case Text(_) => TextOf
    case Raw(b) => BytesOf(|b|)
  }

  function Encode(x: Value): Bytes
    requires Valid(x)
  {
    match x
    case Int(w, signed, v) => SignRoundTrip(v, signed, w); PutLe(Unsigned(v, w), w)
    case Text(s) => PutLe(|s|, 4) + s
    case Raw(b) => b
  }

  /** The bytes of a value: an integer's least significant byte first, a text's length in four
      bytes and then its characters, raw bytes as they are. */
  lemma EncodedBytes(x: Value)
    requires Valid(x)
    ensures match x
            case Int(w, _, v) =>
              |Encode(x)| == w && forall i :: 0 <= i < w ==> Encode(x)[i] as nat == v % Pow256(w) / Pow256(i) % 256
            case Text(s) =>
              && |Encode(x)| == 4 + |s| && Encode(x)[4..] == s
              && forall i :: 0 <= i < 4 ==> Encode(x)[i] as nat == |s| / Pow256(i) % 256
            case Raw(b) => Encode(x) == b
  {
    match x
    case Int(w, signed, v) =>
      PatternOf(v, signed, w);
      forall i | 0 <= i < w ensures Encode(x)[i] as nat == v % Pow256(w) / Pow256(i) % 256 {
        LeBytes(Unsigned(v, w), w, i);
      }
    case Text(s) =>
      forall i | 0 <= i < 4 ensures Encode(x)[i] as nat == |s| / Pow256(i) % 256 {
        LeBytes(|s|, 4, i);
      }
    case Raw(b) =>
  }

  // ------------------------------------------------------------------ reading

  /** A read gives a value, throws because the size check failed, or gets past a size check
      that wrapped around and reads beyond the message. */
  datatype Outcome = Read(x: Value) | Throws | Overrun

  function Wrap(n: nat): nat { n % WORD }

  /** The size check. */
  predicate Assured(size: nat, pos: nat, n: nat) { Wrap(pos + n) <= size }

  /** The check lets a read through that the message cannot serve exactly when the sum of
      position and count does not fit 32 bits. */
  lemma CheckWrongIff(size: nat, pos: nat, n: nat)
    requires pos <= size < WORD && n < WORD
    ensures Assured(size, pos, n) && pos + n > size <==> pos + n >= WORD
    ensures !Assured(size, pos, n) ==> pos + n > size
  {
  }

  function ReadInt(c: Bytes, pos: nat, w: nat, signed: bool): (r: (Outcome, nat))
    requires pos <= |c| < WORD && w < WORD
    ensures r.0.Read? ==> r.1 <= |c| && r.0.x.Int? && (!signed ==> 0 <= r.0.x.v < Pow256(w))
  {
    if !Assured(|c|, pos, w) then (Throws, pos)
    else if pos + w > |c| then (Overrun, Wrap(pos + w))
    else (Read(Int(w, signed, Valued(GetLe(c[pos..pos + w]), signed, w))), pos + w)
  }

  function ReadRaw(c: Bytes, pos: nat, n: nat): (r: (Outcome, nat))
    requires pos <= |c| < WORD && n < WORD
    ensures r.0.Read? ==> r.1 <= |c| && r.0.x.Raw?
  {
    if !Assured(|c|, pos, n) then (Throws, pos)
    else if pos + n > |c| then (Overrun, Wrap(pos + n))
    else (Read(Raw(c[pos..pos + n])), pos + n)
  }

  /** The length first; if the bytes are not there the position stays behind the length. */
  function ReadText(c: Bytes, pos: nat): (r: (Outcome, nat))
    requires pos <= |c| < WORD
    ensures r.0.Read? ==> r.1 <= |c|
  {
    var (r, p) := ReadInt(c, pos, 4, false);
    if !r.Read? then (r, p)
    else
      Pow4();
      var (body, q) := ReadRaw(c, p, r.x.v);
      (if body.Read? then Read(Text(body.x.b)) else body, q)
  }

  function ReadKind(c: Bytes, pos: nat, k: Kind): (r: (Outcome, nat))
    requires pos <= |c| < WORD && KindOk(k)
    ensures r.0.Read? ==> r.1 <= |c|
  {
    match k
    case IntOf(w, signed) => ReadInt(c, pos, w, signed)
    case TextOf => ReadText(c, pos)
    case BytesOf(n) => ReadRaw(c, pos, n)
  }

  /** What becomes of a read of n bytes: it is served exactly when they are there; it throws and the
      position stays exactly when they are not and the sum fits 32 bits; otherwise it overruns and the
      position wraps around. */
  lemma ReadDecided(c: Bytes, pos: nat, n: nat, signed: bool)
    requires pos <= |c| < WORD && n < WORD
    ensures ReadInt(c, pos, n, signed).1 == ReadRaw(c, pos, n).1
            == if pos + n <= |c| then pos + n else if pos + n < WORD then pos else pos + n - WORD
    ensures ReadInt(c, pos, n, signed).0.Read? <==> pos + n <= |c|
    ensures ReadRaw(c, pos, n).0.Read? <==> pos + n <= |c|
    ensures ReadInt(c, pos, n, signed).0.Overrun? <==> pos + n >= WORD
    ensures ReadRaw(c, pos, n).0.Overrun? <==> pos + n >= WORD
  {
  }

  /** A text whose length claims more than a 32-bit position can reach is read beyond the
      message: the wrapped check lets it through. */
  lemma TextOverruns(c: Bytes, pos: nat)
    requires pos + 4 <= |c| < WORD
    ensures ReadText(c, pos).0.Overrun? <==> pos + 4 + GetLe(c[pos..pos + 4]) >= WORD
    ensures ReadText(c, pos).0.Throws? <==> |c| < pos + 4 + GetLe(c[pos..pos + 4]) < WORD
  {
    Pow4();
    CheckWrongIff(|c|, pos + 4, GetLe(c[pos..pos + 4]));
  }

  lemma HugeTextOverruns()
    ensures ReadText([0xff, 0xff, 0xff, 0xff], 0).0 == Overrun
  {
    var c: Bytes := [0xff, 0xff, 0xff, 0xff];
    assert c[0..4] == c;
    assert c[1..] == [0xff, 0xff, 0xff] && c[1..][1..] == [0xff, 0xff] && c[1..][1..][1..] == [0xff];
    assert GetLe([0xff]) == 0xff;
    assert GetLe(c[1..][1..]) == 0xffff;
    assert GetLe(c) == 0xffff_ffff;
    TextOverruns(c, 0);
  }

  // ------------------------------------------------------------------ what was written is read

  lemma Pow4()
    ensures Pow256(4) == WORD
  {
    assert Pow256(2) == 0x1_0000;
  }

  /** A value somewhere in a message is read back, and the position moves behind it. */
  lemma ReadEncoded(x: Value, c: Bytes, p: nat)
    requires Valid(x) && At(c, p, Encode(x)) && |c| < WORD
    ensures ReadKind(c, p, KindOf(x)) == (Read(x), p + |Encode(x)|)
  {
    match x
    case Int(w, signed, v) =>
      SignRoundTrip(v, signed, w);
      LeRoundTrip(Unsigned(v, w), w);
    case Text(s) =>
      Pow4();
      LeRoundTrip(|s|, 4);
      ReadEncodedText(s, PutLe(|s|, 4), c, p);
    case Raw(b) =>
  }

  lemma ReadEncodedText(s: Bytes, head: Bytes, c: Bytes, p: nat)
    requires |head| == 4 && GetLe(head) == |s| < WORD && At(c, p, head + s) && |c| < WORD
    ensures ReadText(c, p) == (Read(Text(s)), p + 4 + |s|)
  {
    AtSplit(c, p, head, s);
    assert ReadInt(c, p, 4, false) == (Read(Int(4, false, |s|)), p + 4);
  }

  /** Whatever a read gives is a value of its kind whose encoding stands where it was read. */
  lemma ReadIsEncoded(c: Bytes, p: nat, k: Kind)
    requires p <= |c| < WORD && KindOk(k) && (k.IntOf? ==> k.width in {1, 2, 4, 8})
    ensures var (r, q) := ReadKind(c, p, k);
            r.Read? ==> Valid(r.x) && KindOf(r.x) == k && At(c, p, Encode(r.x)) && q == p + |Encode(r.x)|
  {
    match k
    case IntOf(w, signed) =>
      if p + w <= |c| { ReadIntEncoded(c, p, w, signed); }
    case TextOf =>
      if p + 4 <= |c| { ReadTextEncoded(c, p); }
    case BytesOf(n) =>
  }

  lemma ReadIntEncoded(c: Bytes, p: nat, w: nat, signed: bool)
    requires p + w <= |c| < WORD && w in {1, 2, 4, 8}
    ensures var (r, q) := ReadInt(c, p, w, signed);
            && r.Read? && r.x.Int? && r.x.width == w && r.x.signed == signed && q == p + w
            && Valid(r.x) && At(c, p, Encode(r.x))
  {
    var b := c[p..p + w];
    LePutBack(b);
    ValuedInRange(GetLe(b), signed, w);
  }

  lemma ReadTextEncoded(c: Bytes, p: nat)
    requires p + 4 <= |c| < WORD
    ensures var (r, q) := ReadText(c, p);
            r.Read? ==> r.x.Text? && Valid(r.x) && At(c, p, Encode(r.x)) && q == p + |Encode(r.x)|
  {
    var b := c[p..p + 4];
    Pow4();
    LePutBack(b);
    var n := GetLe(b);
    assert ReadInt(c, p, 4, false) == (Read(Int(4, false, n)), p + 4);
    if p + 4 + n <= |c| {
      var s := c[p + 4..p + 4 + n];
      assert c[p..p + 4 + n] == b + s;
    }
  }

  /** Values of a message, with reads that fail giving nothing. */
  function Wire(): Codec<Value, Kind> {
    Codec(x => Valid(x), x => if Valid(x) then Encode(x) else [], x => KindOf(x), (c, p, k) => TryRead(c, p, k))
  }

  function TryRead(c: Bytes, p: nat, k: Kind): Option<(Value, int)> {
    if p <= |c| < WORD && KindOk(k) then
      var (r, q) := ReadKind(c, p, k);
      if r.Read? then Some((r.x, q)) else None
    else None
  }

  lemma TryEncoded(x: Value, c: Bytes, p: nat)
    requires Valid(x) && At(c, p, Encode(x)) && |c| < WORD
    ensures TryRead(c, p, KindOf(x)) == Some((x, p + |Encode(x)|))
  {
    ReadEncoded(x, c, p);
  }

  lemma WireReads(f: Codec<Value, Kind>, x: Value, c: Bytes, p: nat)
    requires f == Wire() && f.ok(x) && At(c, p, f.enc(x)) && |c| < WORD
    ensures f.read(c, p, f.kind(x)) == Some((x, p + |f.enc(x)|))
  {
    TryEncoded(x, c, p);
  }

  lemma WireFaithful(c: Bytes) returns (f: Codec<Value, Kind>)
    requires |c| < WORD
    ensures f == Wire() && Faithful(f, c)
  {
    f := Wire();
    forall x, p: nat | f.ok(x) && At(c, p, f.enc(x)) ensures f.read(c, p, f.kind(x)) == Some((x, p + |f.enc(x)|)) {
      WireReads(f, x, c, p);
    }
  }

  /** Every list of values that fits a message comes back through the matching reads. */
  lemma ValuesReadBack(xs: seq<Value>, ks: seq<Kind>, c: Bytes)
    requires (forall i :: 0 <= i < |xs| ==> Valid(xs[i])) && KindsOf(Wire(), xs, ks)
    requires At(c, 0, Encoded(Wire(), xs, |xs|)) && |c| < WORD
    ensures ReadFirst(Wire(), c, ks, |ks|) == Some((xs, |Encoded(Wire(), xs, |xs|)|))
  {
    var f := WireFaithful(c);
    ReadBackAll(f, xs, ks, c);
  }

  // ------------------------------------------------------------------ the builder

  /** A message: its header and its content. */
  datatype Message = Message(header: int, content: Bytes)

  class Builder {
    const initCap: nat
    var header: int
    var content: array<byte>
    var size: nat

    predicate Ok()
      reads this
    {
      size <= content.Length < WORD && initCap < WORD
    }

    function Contents(): Bytes
      requires Ok()
      reads this, content
    {
      content[..size]
    }

    constructor (header: int, initCap: nat)
      requires initCap < WORD
      ensures Ok() && Contents() == [] && this.header == header && this.initCap == initCap
      ensures fresh(content) && content.Length == initCap
    {
      this.header, this.initCap, size := header, initCap, 0;
      content := new byte[initCap];
    }

    /** Room for n bytes: twice the capacity, wrapped around, or n if that is not enough. */
    method Reserve(n: nat)
      requires Ok() && n < WORD
      modifies this`content
      ensures Ok() && content.Length >= n && Contents() == old(Contents())
      ensures content == old(content) || fresh(content)
      ensures old(content.Length) >= n ==> content == old(content)
      ensures old(content.Length) < n ==>
                content.Length == if Wrap(2 * old(content.Length)) >= n then Wrap(2 * old(content.Length)) else n
    {
      if content.Length >= n { return; }
      var capacity := Wrap(2 * content.Length);
      if capacity < n { capacity := n; }
      var grown := new byte[capacity];
      forall i | 0 <= i < size { grown[i] := content[i]; }
      content := grown;
    }

    /** Raw bytes at the end. */
    method WriteBytes(b: Bytes)
      requires Ok() && size + |b| < WORD
      modifies this`content, this`size, content
      ensures Ok() && Contents() == old(Contents()) + b
      ensures content == old(content) || fresh(content)
    {
      Reserve(size + |b|);
      forall i | 0 <= i < |b| { content[size + i] := b[i]; }
      size := size + |b|;
      assert content[..size] == old(Contents()) + b;
    }

    method WriteInt(width: nat, signed: bool, v: int)
      requires Ok() && Valid(Int(width, signed, v)) && size + width < WORD
      modifies this`content, this`size, content
      ensures Ok() && Contents() == old(Contents()) + Encode(Int(width, signed, v))
      ensures content == old(content) || fresh(content)
    {
      SignRoundTrip(v, signed, width);
      WriteBytes(PutLe(Unsigned(v, width), width));
    }

    /** The length and the characters, with room reserved for both at once. */
    method WriteText(s: Bytes)
      requires Ok() && size + 4 + |s| < WORD
      modifies this`content, this`size, content
      ensures Ok() && Contents() == old(Contents()) + Encode(Text(s))
      ensures content == old(content) || fresh(content)
    {
      Reserve(size + 4 + |s|);
      WriteBytes(PutLe(|s|, 4));
      WriteBytes(s);
    }

    /** The message takes the buffer along; the builder starts anew. */
    method ToMessage() returns (m: Message)
      requires Ok()
      modifies this`content, this`size
      ensures m == Message(header, old(Contents())) && Ok() && Contents() == []
      ensures fresh(content) && content.Length == initCap
    {
      m := Message(header, content[..size]);
      content := new byte[initCap];
      size := 0;
    }
  }

  // ------------------------------------------------------------------ the reader

  class Reader {
    const content: Bytes
    var seekPos: nat

    predicate Ok()
      reads this
    {
      seekPos <= |content| < WORD
    }

    constructor (m: Message)
      requires |m.content| < WORD
      ensures Ok() && content == m.content && seekPos == 0
    {
      content, seekPos := m.content, 0;
    }

    method Seek(pos: nat) returns (ok: bool)
      requires Ok()
      modifies this
      ensures Ok() && ok == (pos <= |content|) && seekPos == if ok then pos else old(seekPos)
    {
      if pos > |content| { return false; }
      seekPos := pos;
      return true;
    }

    method GetInt(width: nat, signed: bool) returns (r: Outcome)
      requires Ok() && width < WORD
      modifies this
      ensures Ok() && (r, seekPos) == ReadInt(content, old(seekPos), width, signed)
    {
      if Wrap(seekPos + width) > |content| { return Throws; }
      if seekPos + width > |content| {
        seekPos := Wrap(seekPos + width);
        return Overrun;
      }
      r := Read(Int(width, signed, Valued(GetLe(content[seekPos..seekPos + width]), signed, width)));
      seekPos := seekPos + width;
    }

    method GetBytes(n: nat) returns (r: Outcome)
      requires Ok() && n < WORD
      modifies this
      ensures Ok() && (r, seekPos) == ReadRaw(content, old(seekPos), n)
    {
      if Wrap(seekPos + n) > |content| { return Throws; }
      if seekPos + n > |content| {
        seekPos := Wrap(seekPos + n);
        return Overrun;
      }
      r := Read(Raw(content[seekPos..seekPos + n]));
      seekPos := seekPos + n;
    }

    method GetText() returns (r: Outcome)
      requires Ok()
      modifies this
      ensures Ok() && (r, seekPos) == ReadText(content, old(seekPos))
    {
      r := GetInt(4, false);
      if !r.Read? { return; }
      Pow4();
      r := GetBytes(r.x.v);
      if r.Read? { r := Read(Text(r.x.b)); }
    }
  }
}

/**
 Messages on a connection: an eight-byte header in front of each, sent whole, received
 in whatever pieces the socket hands over.
 */
module MessageStream {
  import opened Arithmetic
  import opened Disk
  import opened Options
  import opened Sequencing
  import opened MessageCodec

  // ------------------------------------------------------------------ framing

  predicate Sendable(m: Message) {
    InRange(m.header, true, 4) && |m.content| < WORD
  }

  function Head(m: Message): (h: Bytes)
    requires Sendable(m)
    ensures |h| == 8
  {
    SignRoundTrip(m.header, true, 4);
    PutLe(Unsigned(m.header, 4), 4) + PutLe(|m.content|, 4)
  }

  function Frame(m: Message): Bytes
    requires Sendable(m)
  {
    Head(m) + m.content
  }

  /** The header and the length an eight-byte head stands for. */
  function HeaderOf(h: Bytes): int
    requires |h| == 8
  {
    Valued(GetLe(h[..4]), true, 4)
  }

  function LengthOf(h: Bytes): (n: nat)
    requires |h| == 8
    ensures n < WORD
  {
    Pow4();
    GetLe(h[4..])
  }

  /** The first message of a stream and what follows it. */
  function Parse(c: Bytes): Option<(Message, Bytes)> {
    if |c| < 8 || |c| < 8 + LengthOf(c[..8]) then None
    else
      var n := LengthOf(c[..8]);
      Some((Message(HeaderOf(c[..8]), c[8..8 + n]), c[8 + n..]))
  }

  lemma HeadRead(m: Message)
    requires Sendable(m)
    ensures HeaderOf(Head(m)) == m.header && LengthOf(Head(m)) == |m.content|
  {
    SignRoundTrip(m.header, true, 4);
    LeRoundTrip(Unsigned(m.header, 4), 4);
    Pow4();
    LeRoundTrip(|m.content|, 4);
    var a, b := PutLe(Unsigned(m.header, 4), 4), PutLe(|m.content|, 4);
    assert (a + b)[..4] == a && (a + b)[4..] == b;
  }

  /** The bytes of a frame: the header in bytes 0 to 3 and the length in bytes 4 to 7, both least
      significant byte first, and the content behind them. */
  lemma FrameBytes(m: Message)
    requires Sendable(m)
    ensures var f := Frame(m);
            && |f| == 8 + |m.content| && f[8..] == m.content
            && forall i :: 0 <= i < 4 ==>
                 && f[i] as nat == m.header % WORD / Pow256(i) % 256
                 && f[4 + i] as nat == |m.content| / Pow256(i) % 256
  {
    Pow4();
    PatternOf(m.header, true, 4);
    var f := Frame(m);
    forall i | 0 <= i < 4
      ensures f[i] as nat == m.header % WORD / Pow256(i) % 256 && f[4 + i] as nat == |m.content| / Pow256(i) % 256
    {
      LeBytes(Unsigned(m.header, 4), 4, i);
      LeBytes(|m.content|, 4, i);
    }
  }

  /** Whatever is taken off a stream is a message whose frame stands at its front. */
  lemma ParsedIsFramed(c: Bytes)
    ensures match Parse(c)
            case None => true
            case Some((m, rest)) => Sendable(m) && c == Frame(m) + rest
  {
    if Parse(c).Some? {
      var h := c[..8];
      var (m, rest) := Parse(c).value;
      Pow4();
      ValuedInRange(GetLe(h[..4]), true, 4);
      LePutBack(h[..4]);
      LePutBack(h[4..]);
      assert h == h[..4] + h[4..] == Head(m);
      assert c == h + m.content + rest;
    }
  }

  lemma ParseFrame(m: Message, rest: Bytes)
    requires Sendable(m)
    ensures Parse(Frame(m) + rest) == Some((m, rest))
  {
    HeadRead(m);
    FrameParts(Head(m), m.content, rest);
  }

  lemma FrameParts(h: Bytes, b: Bytes, rest: Bytes)
    requires |h| == 8
    ensures (h + b + rest)[..8] == h && (h + b + rest)[8..8 + |b|] == b && (h + b + rest)[8 + |b|..] == rest
  {
  }

  // ------------------------------------------------------------------ many messages

  /** The first n messages on the wire. */
  function Framed(ms: seq<Message>, n: nat): Bytes
    requires n <= |ms| && forall i :: 0 <= i < |ms| ==> Sendable(ms[i])
  {
    if n == 0 then [] else Framed(ms, n - 1) + Frame(ms[n - 1])
  }

  /** n messages taken off a stream, and what is left of it. */
  function ParseMany(c: Bytes, n: nat): Option<(seq<Message>, Bytes)> {
    if n == 0 then Some(([], c))
    else
      match ParseMany(c, n - 1)
      case None => None
      case Some((ms, rest)) =>
        match Parse(rest)
        case None => None
        case Some((m, after)) => Some((ms + [m], after))
  }

  /** Consecutive messages come back in order, with their headers. */
  lemma {:induction false} FramedParse(ms: seq<Message>, n: nat, rest: Bytes)
    requires n <= |ms| && forall i :: 0 <= i < |ms| ==> Sendable(ms[i])
    ensures ParseMany(Framed(ms, n) + rest, n) == Some((ms[..n], rest))
  {
    if n == 0 {
      assert [] + rest == rest;
    } else {
      var before, f := Framed(ms, n - 1), Frame(ms[n - 1]);
      assert before + f + rest == before + (f + rest);
      FramedParse(ms, n - 1, f + rest);
      ParseFrame(ms[n - 1], rest);
      assert ms[..n] == ms[..n - 1] + [ms[n - 1]];
    }
  }

  /** What is sent: a header and values, each message below the 32-bit size limit. */
  datatype Letter = Letter(header: int, values: seq<Value>)

  predicate Fits(l: Letter) {
    && InRange(l.header, true, 4)
    && (forall i :: 0 <= i < |l.values| ==> Valid(l.values[i]))
    && |Encoded(Wire(), l.values, |l.values|)| < WORD
  }

  function Built(l: Letter): (m: Message)
    requires Fits(l)
    ensures Sendable(m)
  {
    Message(l.header, Encoded(Wire(), l.values, |l.values|))
  }

  /** Values built into messages, framed, taken off the stream in order and read with the
      matching reads are the values that went in. */
  lemma EndToEnd(ls: seq<Letter>, ms: seq<Message>, rest: Bytes, i: nat, ks: seq<Kind>)
    requires |ms| == |ls| && (forall j :: 0 <= j < |ls| ==> Fits(ls[j]) && ms[j] == Built(ls[j]) && Sendable(ms[j]))
    requires i < |ls| && KindsOf(Wire(), ls[i].values, ks)
    ensures ParseMany(Framed(ms, |ms|) + rest, |ms|) == Some((ms, rest))
    ensures ms[i].header == ls[i].header
    ensures ReadFirst(Wire(), ms[i].content, ks, |ks|) == Some((ls[i].values, |ms[i].content|))
  {
    FramedParse(ms, |ms|, rest);
    assert ms[..|ms|] == ms;
    assert Fits(ls[i]) && ms[i] == Built(ls[i]);
    Whole(ms[i].content);
    ValuesReadBack(ls[i].values, ks, ms[i].content);
  }

  lemma Whole(c: Bytes)
    ensures At(c, 0, c)
  {
  }

  // ------------------------------------------------------------------ the connection

  /** The socket's answers: how much each call moves, or a failure. */
  type Socket = nat -> int

  ghost predicate Healthy(s: Socket) {
    forall n :: s(n) > 0
  }

  /** Every send takes all it is given. */
  ghost predicate Takes(s: Socket) {
    forall n :: s(n) >= WORD
  }

  class Connection {
    const recvs: Socket
    const sends: Socket
    var open: bool
    var incoming: Bytes
    var outgoing: Bytes
    var calls: nat

    constructor (recvs: Socket, sends: Socket, incoming: Bytes)
      ensures this.recvs == recvs && this.sends == sends && open && this.incoming == incoming && outgoing == []
    {
      this.recvs, this.sends, open, this.incoming, outgoing, calls := recvs, sends, true, incoming, [], 0;
    }

    /** One recv: some of what is there, at most what is asked for; 0 at the end of the stream. */
    method Recv(size: nat) returns (n: int, data: Bytes)
      modifies this`incoming, this`calls
      ensures n <= size && n <= |old(incoming)| && data + incoming == old(incoming) && |data| == if n > 0 then n else 0
      ensures Healthy(recvs) && size > 0 && old(incoming) != [] ==> n > 0
    {
      n := recvs(calls);
      if n > size { n := size; }
      if n > |incoming| { n := |incoming|; }
      calls := calls + 1;
      data := if n > 0 then incoming[..n] else [];
      incoming := incoming[|data|..];
    }

    /** The loop over short reads. */
    method ReceiveDirect(size: nat) returns (ok: bool, content: Bytes)
      modifies this`open, this`incoming, this`calls
      ensures ok ==> |content| == size && content + incoming == old(incoming) && open == old(open)
      ensures !ok ==> !open
      ensures Healthy(recvs) ==> (ok <==> 0 < size <= |old(incoming)|)
    {
      var n, data := Recv(size);
      content := data;
      var left := size;
      while 0 < n < left
        invariant content + incoming == old(incoming) && n <= left
        invariant |content| + left == size + |data| && |data| == if n > 0 then n else 0
        invariant Healthy(recvs) && size > 0 && size <= |old(incoming)| ==> n > 0
        invariant n > 0 ==> |content| <= size
        invariant open == old(open) && (n == left ==> |content| == size || n <= 0)
        decreases left
      {
        left := left - n;
        n, data := Recv(left);
        content := content + data;
      }
      ok := n > 0;
      if !ok { open := false; }
    }

    method Receive(size: nat) returns (ok: bool, content: Bytes)
      modifies this`open, this`incoming, this`calls
      ensures ok ==> |content| == size && content + incoming == old(incoming) && open == old(open)
      ensures !ok ==> !open
      ensures old(open) && Healthy(recvs) ==> (ok <==> 0 < size <= |old(incoming)|)
      ensures !old(open) ==> !ok && incoming == old(incoming)
    {
      if !open { return false, []; }
      ok, content := ReceiveDirect(size);
    }

    /** One message off the stream, or an exception and a closed connection. */
    method ReadMessage() returns (r: Option<Message>)
      modifies this`open, this`incoming, this`calls
      ensures r.Some? ==> Parse(old(incoming)) == Some((r.value, incoming)) && open == old(open)
      ensures r.None? ==> !open
      ensures old(open) && Healthy(recvs) ==> (r.Some? <==> Parse(old(incoming)).Some?)
      ensures !old(open) ==> r.None? && incoming == old(incoming)
    {
      var ok, head := Receive(8);
      if !ok { return None; }
      ghost var c := old(incoming);
      assert c[..8] == head && c[8..] == incoming;
      var n := LengthOf(head);
      var content: Bytes := [];
      if n > 0 {
        ok, content := Receive(n);
        if !ok { return None; }
      }
      assert c == head + content + incoming;
      FrameParts(head, content, incoming);
      r := Some(Message(HeaderOf(head), content));
    }

    /** One send, which must take everything. */
    method Send(content: Bytes) returns (ok: bool)
      modifies this`open, this`outgoing, this`calls
      ensures ok <==> old(open) && sends(old(calls)) >= |content|
      ensures ok ==> open && outgoing == old(outgoing) + content
      ensures !ok ==> !open && old(outgoing) <= outgoing <= old(outgoing) + content
      ensures !old(open) ==> outgoing == old(outgoing)
    {
      if !open { return false; }
      var n := sends(calls);
      calls := calls + 1;
      if n > |content| { n := |content|; }
      if n > 0 { outgoing := outgoing + content[..n]; }
      ok := n == |content|;
      if !ok { open := false; }
    }

    /** The head and, if there is any, the content; after a failure the peer has at most a
        first part of the frame and the connection is closed. */
    method WriteMessage(m: Message) returns (ok: bool)
      requires Sendable(m)
      modifies this`open, this`outgoing, this`calls
      ensures old(open) && Takes(sends) ==> ok
      ensures ok ==> old(open) && open && outgoing == old(outgoing) + Frame(m)
      ensures !ok ==> !open && old(outgoing) <= outgoing <= old(outgoing) + Frame(m)
      ensures !old(open) ==> outgoing == old(outgoing)
    {
      ok := Send(Head(m));
      assert old(outgoing) + Frame(m) == old(outgoing) + Head(m) + m.content;
      if ok && |m.content| > 0 {
        ok := Send(m.content);
      }
    }
  }
}
