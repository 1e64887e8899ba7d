/**
 The migration stream: how records become bytes on the source and disks on the
 receiver. A record starts with a big-endian 64-bit word, sector or percentage in
 the high bits and flags in the low nine; a block record carries the device name,
 length first, and a chunk of exactly 2048 sectors.
 */
module MigrationWire {
  import opened Arithmetic
  import opened Disk
  import opened MigrationProtocol

  type Name = seq<byte>

  const BLOCK_SIZE: nat := 0x10_0000

  // ------------------------------------------------------------------ big-endian words

  function PutBe(v: nat, n: nat): (s: seq<byte>)
    ensures |s| == n
  {
    if n == 0 then [] else PutBe(v / 256, n - 1) + [(v % 256) as byte]
  }

  function GetBe(s: seq<byte>): nat {
    if s == [] then 0 else GetBe(s[..|s| - 1]) * 256 + s[|s| - 1] as nat
  }

  lemma {:induction false} BeRoundTrip(v: nat, n: nat)
    requires v < Pow256(n)
    ensures GetBe(PutBe(v, n)) == v
  {
    if n > 0 {
      BeRoundTrip(v / 256, n - 1);
      assert PutBe(v, n)[..n - 1] == PutBe(v / 256, n - 1);
    }
  }

  /** Most significant byte first. */
  lemma {:induction false} BeBytes(v: nat, n: nat, i: nat)
    requires i < n
    ensures PutBe(v, n)[i] as nat == v / Pow256(n - 1 - i) % 256
  {
    if i < n - 1 {
      BeBytes(v / 256, n - 1, i);
      DivTwice(v, 256, Pow256(n - 2 - i));
    }
  }

  lemma Pow256Of8()
    ensures Pow256(8) == 0x1_0000_0000_0000_0000
  {
    assert Pow256(4) == 0x1_0000_0000;
    assert Pow256(6) == 0x1_0000_0000_0000;
  }

  // ------------------------------------------------------------------ writing

  /** The names fit the one-byte length, hold no terminator and are all different. */
  predicate NamesOk(names: seq<Name>) {
    && (forall i :: 0 <= i < |names| ==> |names[i]| < 32 && 0 !in names[i])
    && (forall i, j :: 0 <= i < j < |names| ==> names[i] != names[j])
  }

  /** A record that fits the format, for devices of the given lengths in sectors. */
  predicate RecordOk(lens: seq<nat>, rec: Record) {
    match rec
    case DeviceBlock(dev, sector, _) => dev < |lens| && sector < lens[dev]
    case Progress(p) => p <= 100
    case EndOfSection => true
  }

  /** Device lengths in bytes are signed 64-bit numbers. */
  predicate LensOk(lens: seq<nat>) {
    forall i :: 0 <= i < |lens| ==> lens[i] * 512 < 0x8000_0000_0000_0000
  }

  /** What follows the word of a block record. */
  function BlockBody(name: Name, data: ChunkBuf): seq<byte>
    requires |name| < 32
  {
    [|name| as byte] + name + Flatten(data)
  }

  function Encode(names: seq<Name>, lens: seq<nat>, rec: Record): (s: seq<byte>)
    requires |names| == |lens| && NamesOk(names) && RecordOk(lens, rec)
    ensures |s| >= 8
  {
    match rec
    case DeviceBlock(dev, sector, data) =>
      PutBe(sector * 512 + 1, 8) + BlockBody(names[dev], data)
    case Progress(p) => PutBe(p * 512 + 4, 8)
    case EndOfSection => PutBe(2, 8)
  }

  predicate RecordsOk(lens: seq<nat>, out: seq<Record>) {
    forall j :: 0 <= j < |out| ==> RecordOk(lens, out[j])
  }

  function EncodeAll(names: seq<Name>, lens: seq<nat>, out: seq<Record>): seq<byte>
    requires |names| == |lens| && NamesOk(names) && RecordsOk(lens, out)
  {
    if out == [] then [] else Encode(names, lens, out[0]) + EncodeAll(names, lens, out[1..])
  }

  // ------------------------------------------------------------------ reading

  datatype Code = Ok | UnknownDevice | UnknownFlags | Truncated

  /** What the loader has read: a chunk for a device, a percentage it prints with a newline behind
      the last one, or the end of a section. */
  datatype Item = Chunk(dev: nat, sector: int, data: ChunkBuf) | Printed(percent: int, newline: bool) | Ended

  datatype Outcome = Outcome(code: Code, images: seq<Image>, rest: seq<byte>, read: seq<Item>)

  /** A C string ends at its first zero byte. */
  function CString(s: seq<byte>): seq<byte> {
    if s == [] || s[0] == 0 then [] else [s[0]] + CString(s[1..])
  }

  /** Index of the device of that name, or the number of devices. */
  function FindDevice(names: seq<Name>, name: Name): (i: nat)
    ensures i <= |names|
    ensures i < |names| ==> names[i] == name
    ensures i == |names| ==> name !in names
  {
    if names == [] || names[0] == name then 0 else 1 + FindDevice(names[1..], name)
  }

  /** The word as a signed number, shifted right by nine bits. */
  function Address(v: nat): int {
    if v < 0x8000_0000_0000_0000 then v / 512 else (v - 0x1_0000_0000_0000_0000) / 512
  }

  /** A 64-bit number cut down to a C int. */
  function ToInt(v: int): (r: int)
    ensures -0x8000_0000 <= r < 0x8000_0000 && (r - v) % 0x1_0000_0000 == 0
  {
    var low := v % 0x1_0000_0000;
    if low < 0x8000_0000 then low else low - 0x1_0000_0000
  }

  function WriteChunk(images: seq<Image>, i: nat, sector: int, data: ChunkBuf): (r: seq<Image>)
    requires i < |images|
    ensures |r| == |images|
  {
    if sector >= 0 then Apply(images, DeviceBlock(i, sector, data)) else images
  }

  /** What the name buffer and the chunk buffer hold where the stream does not fill them. */
  datatype Buffers = Buffers(name: seq<byte>, data: seq<byte>)

  type Stale = b: Buffers | |b.name| == 255 && |b.data| == 0x10_0000
    witness Buffers(seq(255, _ => 0), seq(0x10_0000, _ => 0))

  /** A buffer of n bytes read from the stream s: a short read leaves the rest as it was. */
  function ReadBuffer(s: seq<byte>, n: nat, was: seq<byte>): (b: seq<byte>)
    requires n <= |was|
    ensures |b| == n
  {
    if n <= |s| then s[..n] else s + was[|s|..n]
  }

  function After(s: seq<byte>, n: nat): (r: seq<byte>)
    ensures |r| <= |s|
  {
    if n <= |s| then s[n..] else []
  }

  /** The device block behind a word: name, chunk, write. A missing length byte reads as 0.
      The stream's error flag is looked at only after the write. */
  function LoadBlock(names: seq<Name>, st: Stale, images: seq<Image>, sector: int, s: seq<byte>): (r: Outcome)
    requires |names| == |images|
    ensures |r.images| == |images| && |r.rest| <= |s|
  {
    var len := if s == [] then 0 else s[0] as nat;
    var body := After(s, 1);
    var i := FindDevice(names, CString(ReadBuffer(body, len, st.name)));
    var rest := After(body, len);
    if i == |names| then Outcome(UnknownDevice, images, rest, [])
    else
      var data: ChunkBuf := Chop(ReadBuffer(rest, BLOCK_SIZE, st.data));
      Outcome(if |s| < 1 + len + BLOCK_SIZE then Truncated else Ok,
              WriteChunk(images, i, sector, data), After(rest, BLOCK_SIZE), [Chunk(i, sector, data)])
  }

  /** The end of the section is read unless something before it failed. */
  function Ending(o: Outcome, more: bool): Outcome {
    if o.code == Ok && !more then o.(read := o.read + [Ended]) else o
  }

  /** Act on a word: the outcome and whether the section goes on. */
  function LoadWord(names: seq<Name>, st: Stale, images: seq<Image>, v: nat, s: seq<byte>): (r: (Outcome, bool))
    requires |names| == |images|
    ensures |r.0.images| == |images| && |r.0.rest| <= |s|
  {
    var flags := v % 512;
    var more := flags / 2 % 2 == 0;
    if flags % 2 == 1 then (Ending(LoadBlock(names, st, images, Address(v), s), more), more)
    else if flags / 4 % 2 == 1 then
      (Ending(Outcome(Ok, images, s, [Printed(ToInt(Address(v)), Address(v) == 100)]), more), more)
    else (Ending(Outcome(if more then UnknownFlags else Ok, images, s, []), more), more)
  }

  /** One turn of block_load's loop. A word cut short by the end of the stream reads as
      zeros below, so none of its flags is set. */
  function LoadRecord(names: seq<Name>, st: Stale, images: seq<Image>, s: seq<byte>): (r: (Outcome, bool))
    requires |names| == |images|
    ensures |r.0.images| == |images| && (r.0.code == Ok ==> |r.0.rest| < |s|)
  {
    if |s| < 8 then (Outcome(UnknownFlags, images, [], []), false)
    else LoadWord(names, st, images, GetBe(s[..8]), s[8..])
  }

  /** An outcome with more read in front of it. */
  function Behind(read: seq<Item>, o: Outcome): Outcome { o.(read := read + o.read) }

  /** block_load: records up to an end-of-section flag. */
  function LoadSection(names: seq<Name>, st: Stale, images: seq<Image>, s: seq<byte>): (r: Outcome)
    requires |names| == |images|
    ensures |r.images| == |images| && (r.code == Ok ==> |r.rest| < |s|)
    decreases |s|
  {
    var (o, more) := LoadRecord(names, st, images, s);
    if o.code == Ok && more then Behind(o.read, LoadSection(names, st, o.images, o.rest)) else o
  }

  /** Sections until the stream is used up. */
  function LoadAll(names: seq<Name>, st: Stale, images: seq<Image>, s: seq<byte>): Outcome
    requires |names| == |images|
    decreases |s|
  {
    if s == [] then Outcome(Ok, images, [], [])
    else
      var o := LoadSection(names, st, images, s);
      if o.code == Ok then Behind(o.read, LoadAll(names, st, o.images, o.rest)) else o
  }

  /** The receiving side as an object: its disks are updated, and its log grows, as the stream is read. */
  class Receiver {
    const names: seq<Name>
    var images: seq<Image>
    var log: seq<Item>

    constructor (names: seq<Name>, images: seq<Image>)
      requires |names| == |images|
      ensures this.names == names && this.images == images && log == []
    {
      this.names, this.images, log := names, images, [];
    }

    /** One turn of the loop. */
    method LoadTurn(stream: seq<byte>, st: Stale) returns (code: Code, rest: seq<byte>, more: bool)
      requires |names| == |images|
      modifies this
      ensures |images| == |old(images)| && old(log) <= log
      ensures (Outcome(code, images, rest, log[|old(log)|..]), more) == LoadRecord(names, st, old(images), stream)
    {
      ghost var read: seq<Item> := [];
      if |stream| < 8 {
        assert log[|old(log)|..] == read;
        return UnknownFlags, [], false;
      }
      var v := GetBe(stream[..8]);
      var flags := v % 512;
      rest, code, more := stream[8..], Ok, flags / 2 % 2 == 0;
      if flags % 2 == 1 {
        var o := LoadBlock(names, st, images, Address(v), rest);
        images, rest, code, log := o.images, o.rest, o.code, log + o.read;
        read := o.read;
      } else if flags / 4 % 2 == 1 {
        read := [Printed(ToInt(Address(v)), Address(v) == 100)];
        log := log + [Printed(ToInt(Address(v)), Address(v) == 100)];
      } else if more {
        code := UnknownFlags;
      }
      if code == Ok && !more {
        log := log + [Ended];
        read := read + [Ended];
      }
      assert log == old(log) + read;
      assert log[|old(log)|..] == read;
    }

    method BlockLoad(stream: seq<byte>, st: Stale) returns (code: Code, rest: seq<byte>)
      requires |names| == |images|
      modifies this
      ensures |images| == |old(images)| && old(log) <= log
      ensures Outcome(code, images, rest, log[|old(log)|..]) == LoadSection(names, st, old(images), stream)
    {
      rest, code := stream, Ok;
      var more := true;
      ghost var n := |log|;
      while more && code == Ok
        invariant |images| == |old(images)| && old(log) <= log && n == |old(log)|
        invariant LoadSection(names, st, old(images), stream)
                  == if more && code == Ok then Behind(log[n..], LoadSection(names, st, images, rest))
                     else Outcome(code, images, rest, log[n..])
        decreases more && code == Ok, |rest|
      {
        ghost var seen := log;
        BehindTurn(names, st, images, rest, log[n..]);
        code, rest, more := LoadTurn(rest, st);
        assert log[n..] == seen[n..] + log[|seen|..];
      }
    }
  }

  lemma BehindTurn(names: seq<Name>, st: Stale, images: seq<Image>, s: seq<byte>, read: seq<Item>)
    requires |names| == |images|
    ensures var (o, more) := LoadRecord(names, st, images, s);
            Behind(read, LoadSection(names, st, images, s))
            == if o.code == Ok && more then Behind(read + o.read, LoadSection(names, st, o.images, o.rest))
               else Behind(read, o)
  {
    var (o, more) := LoadRecord(names, st, images, s);
    if o.code == Ok && more {
      var t := LoadSection(names, st, o.images, o.rest);
      assert read + (o.read + t.read) == (read + o.read) + t.read;
    }
  }

  // ------------------------------------------------------------------ round trip

  lemma {:induction false} CStringWhole(s: seq<byte>)
    requires 0 !in s
    ensures CString(s) == s
  {
    if s != [] { CStringWhole(s[1..]); }
  }

  lemma FindDeviceIs(names: seq<Name>, i: nat)
    requires NamesOk(names) && i < |names|
    ensures FindDevice(names, names[i]) == i
  {
  }

  lemma BlockRoundTrip(names: seq<Name>, st: Stale, images: seq<Image>, dev: nat, sector: nat, data: ChunkBuf,
                       rest: seq<byte>)
    requires |names| == |images| && NamesOk(names) && dev < |names|
    ensures LoadBlock(names, st, images, sector, BlockBody(names[dev], data) + rest)
            == Outcome(Ok, Apply(images, DeviceBlock(dev, sector, data)), rest, [Chunk(dev, sector, data)])
  {
    var name := names[dev];
    var s := BlockBody(name, data) + rest;
    assert s[1..] == name + (Flatten(data) + rest);
    assert s[1..][..|name|] == name;
    assert s[1..][|name|..] == Flatten(data) + rest;
    CStringWhole(name);
    FindDeviceIs(names, dev);
    assert (Flatten(data) + rest)[..BLOCK_SIZE] == Flatten(data);
    assert (Flatten(data) + rest)[BLOCK_SIZE..] == rest;
    ChopFlatten(data);
  }

  lemma WordRoundTrip(v: nat)
    requires v < 0x8000_0000_0000_0000
    ensures GetBe(PutBe(v, 8)) == v
  {
    Pow256Of8();
    BeRoundTrip(v, 8);
  }

  lemma WordLoads(names: seq<Name>, st: Stale, images: seq<Image>, word: seq<byte>, rest: seq<byte>)
    requires |names| == |images| && |word| == 8
    ensures LoadRecord(names, st, images, word + rest) == LoadWord(names, st, images, GetBe(word), rest)
  {
    assert (word + rest)[..8] == word && (word + rest)[8..] == rest;
  }

  lemma DeviceLoads(names: seq<Name>, st: Stale, images: seq<Image>, dev: nat, sector: nat,
                    data: ChunkBuf, word: seq<byte>, rest: seq<byte>)
    requires |names| == |images| && NamesOk(names) && dev < |names|
    requires sector * 512 + 1 < 0x8000_0000_0000_0000 && |word| == 8 && GetBe(word) == sector * 512 + 1
    ensures LoadRecord(names, st, images, word + BlockBody(names[dev], data) + rest)
            == (Outcome(Ok, Apply(images, DeviceBlock(dev, sector, data)), rest, [Chunk(dev, sector, data)]), true)
  {
    var body := BlockBody(names[dev], data) + rest;
    assert word + BlockBody(names[dev], data) + rest == word + body;
    WordLoads(names, st, images, word, body);
    BlockWord(names, st, images, sector, GetBe(word), body);
    BlockRoundTrip(names, st, images, dev, sector, data, rest);
  }

  /** The three words the source writes. */
  lemma BlockWord(names: seq<Name>, st: Stale, images: seq<Image>, h: nat, v: nat, s: seq<byte>)
    requires |names| == |images| && v == h * 512 + 1 && v < 0x8000_0000_0000_0000
    ensures LoadWord(names, st, images, v, s) == (LoadBlock(names, st, images, h, s), true)
  {
    DivMod(v, 512, h, 1);
  }

  lemma EndWord(names: seq<Name>, st: Stale, images: seq<Image>, s: seq<byte>)
    requires |names| == |images|
    ensures LoadWord(names, st, images, 2, s) == (Outcome(Ok, images, s, [Ended]), false)
  {
    assert [] + [Ended] == [Ended];
  }

  lemma ProgressWord(names: seq<Name>, st: Stale, images: seq<Image>, h: nat, v: nat, s: seq<byte>)
    requires |names| == |images| && v == h * 512 + 4 && h <= 100
    ensures LoadWord(names, st, images, v, s) == (Outcome(Ok, images, s, [Printed(h, h == 100)]), true)
  {
    DivMod(v, 512, h, 4);
    assert ToInt(h) == h;
  }

  lemma PlainLoads(names: seq<Name>, st: Stale, images: seq<Image>, h: nat, f: nat, word: seq<byte>, rest: seq<byte>)
    requires |names| == |images| && h <= 100 && (f == 4 || (f == 2 && h == 0))
    requires |word| == 8 && GetBe(word) == h * 512 + f
    ensures LoadRecord(names, st, images, word + rest)
            == if f == 2 then (Outcome(Ok, images, rest, [Ended]), false)
               else (Outcome(Ok, images, rest, [Printed(h, h == 100)]), true)
  {
    WordLoads(names, st, images, word, rest);
    if f == 2 { EndWord(names, st, images, rest); } else { ProgressWord(names, st, images, h, GetBe(word), rest); }
  }

  /** What is read of a record. */
  function ItemOf(rec: Record): Item {
    match rec
    case DeviceBlock(dev, sector, data) => Chunk(dev, sector, data)
    case Progress(p) => Printed(p, p == 100)
    case EndOfSection => Ended
  }

  /** Any record comes back from its bytes, and its effect is the protocol's. */
  lemma RecordRoundTrip(names: seq<Name>, st: Stale, lens: seq<nat>, images: seq<Image>, rec: Record, rest: seq<byte>)
    requires |names| == |lens| == |images| && NamesOk(names) && LensOk(lens) && RecordOk(lens, rec)
    ensures LoadRecord(names, st, images, Encode(names, lens, rec) + rest)
            == (Outcome(Ok, Apply(images, rec), rest, [ItemOf(rec)]), rec != EndOfSection)
  {
    match rec
    case DeviceBlock(dev, sector, data) =>
      WordRoundTrip(sector * 512 + 1);
      DeviceLoads(names, st, images, dev, sector, data, PutBe(sector * 512 + 1, 8), rest);
    case Progress(p) =>
      WordRoundTrip(p * 512 + 4);
      PlainLoads(names, st, images, p, 4, PutBe(p * 512 + 4, 8), rest);
    case EndOfSection =>
      WordRoundTrip(2);
      PlainLoads(names, st, images, 0, 2, PutBe(2, 8), rest);
  }

  lemma {:induction false} ReceiveFirst(r: seq<Image>, rec: Record, out: seq<Record>)
    ensures Receive(r, [rec] + out) == Receive(Apply(r, rec), out)
  {
    var all := [rec] + out;
    if out == [] {
      assert all[..0] == [];
    } else {
      assert all[..|all| - 1] == [rec] + out[..|out| - 1];
      ReceiveFirst(r, rec, out[..|out| - 1]);
    }
  }

  function ItemsOf(out: seq<Record>): (r: seq<Item>)
    ensures |r| == |out| && forall j :: 0 <= j < |r| ==> r[j] == ItemOf(out[j])
  {
    seq(|out|, j requires 0 <= j < |out| => ItemOf(out[j]))
  }

  predicate Closed(out: seq<Record>) { out == [] || out[|out| - 1] == EndOfSection }

  /** A stream of whole sections loads to exactly the disks the protocol's receiver has, and what
      the loader reads are the records, one by one. */
  lemma {:induction false} StreamRoundTrip(names: seq<Name>, st: Stale, lens: seq<nat>, images: seq<Image>,
                                           out: seq<Record>)
    requires |names| == |lens| == |images| && NamesOk(names) && LensOk(lens) && RecordsOk(lens, out) && Closed(out)
    ensures LoadAll(names, st, images, EncodeAll(names, lens, out))
            == Outcome(Ok, Receive(images, out), [], ItemsOf(out))
    decreases |out|, 1
  {
    if out != [] {
      SectionRoundTrip(names, st, lens, images, out);
    }
  }

  /** ... also when the loader is in the middle of a section. */
  lemma {:induction false} SectionRoundTrip(names: seq<Name>, st: Stale, lens: seq<nat>, images: seq<Image>,
                                            out: seq<Record>)
    requires |names| == |lens| == |images| && NamesOk(names) && LensOk(lens) && RecordsOk(lens, out)
    requires out != [] && Closed(out)
    ensures Through(names, st, images, EncodeAll(names, lens, out), Receive(images, out), ItemsOf(out))
    decreases |out|, 0
  {
    var rec, tail := out[0], out[1..];
    var s, r1, t := EncodeAll(names, lens, out), Apply(images, rec), EncodeAll(names, lens, tail);
    assert out == [rec] + tail;
    ReceiveFirst(images, rec, tail);
    RecordRoundTrip(names, st, lens, images, rec, t);
    assert ItemsOf(out) == [ItemOf(rec)] + ItemsOf(tail);
    if rec == EndOfSection {
      StreamRoundTrip(names, st, lens, r1, tail);
      SectionLast(names, st, images, s, ItemOf(rec), r1, t, ItemsOf(tail), Receive(r1, tail));
    } else {
      SectionRoundTrip(names, st, lens, r1, tail);
      SectionOn(names, st, images, s, ItemOf(rec), r1, t, ItemsOf(tail), Receive(r1, tail));
    }
  }

  /** Loading s ends the section at hand, and then goes through to the end of the stream. */
  ghost predicate Through(names: seq<Name>, st: Stale, images: seq<Image>, s: seq<byte>, done: seq<Image>,
                          items: seq<Item>)
    requires |names| == |images|
  {
    var o := LoadSection(names, st, images, s);
    && o.code == Ok
    && Behind(o.read, LoadAll(names, st, o.images, o.rest)) == Outcome(Ok, done, [], items)
  }

  lemma SectionOn(names: seq<Name>, st: Stale, images: seq<Image>, s: seq<byte>, item: Item, r1: seq<Image>,
                  t: seq<byte>, items: seq<Item>, done: seq<Image>)
    requires |names| == |images| == |r1| && LoadRecord(names, st, images, s) == (Outcome(Ok, r1, t, [item]), true)
    requires Through(names, st, r1, t, done, items)
    ensures Through(names, st, images, s, done, [item] + items)
  {
    var o := LoadSection(names, st, r1, t);
    var rest := LoadAll(names, st, o.images, o.rest);
    assert ([item] + o.read) + rest.read == [item] + (o.read + rest.read);
  }

  lemma SectionLast(names: seq<Name>, st: Stale, images: seq<Image>, s: seq<byte>, item: Item, r1: seq<Image>,
                    t: seq<byte>, items: seq<Item>, done: seq<Image>)
    requires |names| == |images| == |r1| && LoadRecord(names, st, images, s) == (Outcome(Ok, r1, t, [item]), false)
    requires LoadAll(names, st, r1, t) == Outcome(Ok, done, [], items)
    ensures Through(names, st, images, s, done, [item] + items)
  {
  }

  /** The stream determines its records. */
  lemma StreamDetermines(names: seq<Name>, lens: seq<nat>, out: seq<Record>, out': seq<Record>)
    requires |names| == |lens| && NamesOk(names) && LensOk(lens)
    requires RecordsOk(lens, out) && Closed(out) && RecordsOk(lens, out') && Closed(out')
    requires EncodeAll(names, lens, out) == EncodeAll(names, lens, out')
    ensures out == out'
  {
    var st := Buffers(seq(255, _ => 0), seq(0x10_0000, _ => 0));
    var images := seq(|names|, _ => []);
    StreamRoundTrip(names, st, lens, images, out);
    StreamRoundTrip(names, st, lens, images, out');
    assert |out| == |ItemsOf(out)| == |out'|;
    forall j | 0 <= j < |out| ensures out[j] == out'[j] {
      assert ItemOf(out[j]) == ItemsOf(out)[j] == ItemOf(out'[j]);
    }
  }

  /** The words of the format, byte by byte: the flags are the last byte of the word, and the sector
      or the percentage starts at its tenth bit from below. */
  lemma WordBytes(h: nat, f: nat)
    requires h < 0x80_0000_0000_0000 && f < 256
    ensures var w := PutBe(h * 512 + f, 8);
            && w[7] as nat == f && w[6] as nat == h * 2 % 256
            && forall i :: 0 <= i < 6 ==> w[i] as nat == h / 128 / Pow256(5 - i) % 256
  {
    var v := h * 512 + f;
    assert v / 256 == 2 * h && v / 256 / 256 == h / 128;
    forall i | 0 <= i < 6 ensures PutBe(v, 8)[i] as nat == h / 128 / Pow256(5 - i) % 256 {
      BeBytes(v / 256 / 256, 6, i);
    }
  }

  lemma SmallWord(h: nat, f: nat)
    requires h < 128 && f < 256
    ensures PutBe(h * 512 + f, 8) == [0, 0, 0, 0, 0, 0, (2 * h) as byte, f as byte]
  {
    WordBytes(h, f);
    var w := PutBe(h * 512 + f, 8);
    assert forall i :: 0 <= i < 6 ==> w[i] == 0;
  }

  /** The bytes of the three records. */
  lemma RecordBytes(names: seq<Name>, lens: seq<nat>, rec: Record)
    requires |names| == |lens| && NamesOk(names) && RecordOk(lens, rec)
    ensures var s := Encode(names, lens, rec);
            match rec
            case DeviceBlock(dev, sector, data) =>
              var n := |names[dev]|;
              && |s| == 9 + n + 0x10_0000 && s[..8] == PutBe(sector * 512 + 1, 8)
              && s[8] as nat == n && s[9..9 + n] == names[dev] && s[9 + n..] == Flatten(data)
            case Progress(p) => s == [0, 0, 0, 0, 0, 0, (2 * p) as byte, 4]
            case EndOfSection => s == [0, 0, 0, 0, 0, 0, 0, 2]
  {
    match rec
    case DeviceBlock(dev, sector, data) =>
    case Progress(p) => SmallWord(p, 4);
    case EndOfSection => SmallWord(0, 2);
  }
}
