/** Single bits of 32-bit words. */
module WordBits {

  function And(v: bv32, m: bv32): bv32 { v & m }

  function Or(v: bv32, m: bv32): bv32 { v | m }

  function Clear(v: bv32, m: bv32): bv32 { v & !m }

  function Shl(v: bv32): bv32 { v << 1 }

  /** 1 << n. */
  function Bit(n: nat): bv32 {
    if n == 0 then 1 else Shl(Bit(n - 1))
  }

  predicate HasBit(v: bv32, n: nat) { And(v, Bit(n)) != 0 }

  function WithBit(v: bv32, n: nat): bv32 { Or(v, Bit(n)) }

  function WithoutBit(v: bv32, n: nat): bv32 { Clear(v, Bit(n)) }

  lemma ShlAnd(x: bv32, y: bv32)
    ensures And(Shl(x), Shl(y)) == Shl(And(x, y))
  {
  }

  lemma ShlEven(x: bv32)
    ensures And(1, Shl(x)) == 0
  {
  }

  lemma AndComm(x: bv32, y: bv32)
    ensures And(x, y) == And(y, x)
  {
  }

  lemma AndOr(v: bv32, m: bv32, k: bv32)
    ensures And(Or(v, m), k) == Or(And(v, k), And(m, k))
  {
    calc {
      And(Or(v, m), k);
      (v | m) & k;
      (v & k) | (m & k);
      Or(And(v, k), And(m, k));
    }
  }

  lemma AndClear(v: bv32, m: bv32, k: bv32)
    ensures And(Clear(v, m), k) == Clear(And(v, k), And(m, k))
  {
  }

  lemma ZeroLaws(x: bv32)
    ensures Or(x, 0) == x && Clear(x, 0) == x
  {
  }

  lemma SetSame(v: bv32, m: bv32)
    ensures And(Or(v, m), m) == m
  {
  }

  lemma ClearSame(v: bv32, m: bv32)
    ensures And(Clear(v, m), m) == 0
  {
  }

  lemma {:induction false} BitsDisjoint(a: nat, b: nat)
    requires a < b
    ensures And(Bit(a), Bit(b)) == 0
    decreases a
  {
    if a == 0 {
      ShlEven(Bit(b - 1));
    } else {
      BitsDisjoint(a - 1, b - 1);
      ShlAnd(Bit(a - 1), Bit(b - 1));
    }
  }

  lemma DistinctBits(a: nat, b: nat)
    requires a != b
    ensures And(Bit(a), Bit(b)) == 0
  {
    if a < b {
      BitsDisjoint(a, b);
    } else {
      BitsDisjoint(b, a);
      AndComm(Bit(a), Bit(b));
    }
  }

  lemma {:induction false} ZeroStays(n: nat, k: nat)
    requires Bit(n) == 0
    ensures Bit(n + k) == 0
    decreases k
  {
    if k > 0 { ZeroStays(n, k - 1); }
  }

  lemma TopBit()
    ensures Bit(31) == 0x8000_0000
  {
    assert Bit(3) == 0x8;
    assert Bit(7) == 0x80;
    assert Bit(11) == 0x800;
    assert Bit(15) == 0x8000;
    assert Bit(19) == 0x8_0000;
    assert Bit(23) == 0x80_0000;
    assert Bit(27) == 0x800_0000;
  }

  lemma BitNonzero(n: nat)
    requires n < 32
    ensures Bit(n) != 0
  {
    TopBit();
    if Bit(n) == 0 { ZeroStays(n, 31 - n); }
  }

  /** Setting or clearing bit a of a word changes bit a and no other. */
  lemma WordUpdate(v: bv32, a: nat, b: nat)
    requires a < 32 && b < 32
    ensures HasBit(WithBit(v, a), b) == (a == b || HasBit(v, b))
    ensures HasBit(WithoutBit(v, a), b) == (a != b && HasBit(v, b))
  {
    if a == b {
      BitNonzero(a);
      SetSame(v, Bit(a));
      ClearSame(v, Bit(a));
    } else {
      DistinctBits(a, b);
      AndOr(v, Bit(a), Bit(b));
      AndClear(v, Bit(a), Bit(b));
      ZeroLaws(And(v, Bit(b)));
    }
  }

  lemma ZeroHasNone(n: nat)
    ensures !HasBit(0, n)
  {
  }
}

/**
 The dirty bitmap of a block device: 32-bit words, one bit per 2048-sector chunk,
 updated in place. It refines the set of dirty chunks the migration protocol uses.
 */
module DirtyBitmap {
  import opened MigrationProtocol
  import opened WordBits

  /** Chunk c is marked in the words. */
  predicate Marked(w: seq<bv32>, c: nat)
    requires c < 32 * |w|
  {
    HasBit(w[c / 32], c % 32)
  }

  class Bitmap {
    const sectors: nat
    const words: array<bv32>

    ghost predicate Valid() {
      32 * 2048 * words.Length >= sectors
    }

    /** The set this bitmap stands for. */
    ghost function Dirty(): (r: set<nat>)
      reads words
      ensures forall c: nat :: c in r <==> c < 32 * words.Length && Marked(words[..], c)
    {
      set c: nat | c < 32 * words.Length && Marked(words[..], c)
    }

    /** bdrv_set_dirty_tracking(bs, 1), rounded up to whole words: nothing is dirty. */
    constructor (sectors: nat)
      ensures Valid() && this.sectors == sectors && fresh(words) && Dirty() == {}
    {
      this.sectors := sectors;
      var n := (sectors + 0xffff) / 0x1_0000;
      words := new bv32[n](_ => 0);
      new;
      forall c: nat | c < 32 * words.Length ensures !Marked(words[..], c) {
        ZeroHasNone(c % 32);
      }
    }

    /** set_dirty_bitmap. */
    method SetDirtyBitmap(sector: nat, n: nat, dirty: bool)
      requires Valid() && sector + n <= sectors && (n > 0 || sectors > 0)
      modifies words
      ensures forall c: nat :: c in Dirty() <==> if Meets(sector, n, c) then dirty else c in old(Dirty())
    {
      var start, end := sector / 2048, LastChunk(sector, n);
      var i := start;
      while i <= end
        invariant start <= i && (i <= end + 1 || i == start)
        invariant forall c: nat :: c < 32 * words.Length ==>
                    (Marked(words[..], c) <==> if start <= c < i then dirty else old(Marked(words[..], c)))
      {
        var idx, bit := i / 32, i % 32;
        var val := words[idx];
        ghost var w := words[..];
        val := if dirty then WithBit(val, bit) else WithoutBit(val, bit);
        words[idx] := val;
        UpdateMarks(w, i, dirty);
        assert words[..] == Update1(w, i, dirty);
        i := i + 1;
      }
      forall c: nat ensures c in Dirty() <==> if Meets(sector, n, c) then dirty else c in old(Dirty()) {
        MarkedIffMet(sector, n, c);
      }
    }

    /** bdrv_get_dirty: a sector beyond the device is never dirty. */
    method GetDirty(sector: nat) returns (r: bool)
      requires Valid()
      ensures r <==> sector < sectors && sector / 2048 in Dirty()
    {
      if sector < sectors {
        var chunk := sector / 2048;
        r := HasBit(words[chunk / 32], chunk % 32);
        assert r == Marked(words[..], chunk);
      } else {
        r := false;
      }
    }
  }

  function Update1(w: seq<bv32>, i: nat, dirty: bool): (w': seq<bv32>)
    requires i < 32 * |w|
    ensures |w'| == |w|
  {
    w[i / 32 := if dirty then WithBit(w[i / 32], i % 32) else WithoutBit(w[i / 32], i % 32)]
  }

  /** Updating one chunk's bit leaves every other chunk as it was. */
  lemma UpdateMarks(w: seq<bv32>, i: nat, dirty: bool)
    requires i < 32 * |w|
    ensures forall c: nat :: c < 32 * |w| ==> Marked(Update1(w, i, dirty), c) == if c == i then dirty else Marked(w, c)
  {
    forall c: nat | c < 32 * |w|
      ensures Marked(Update1(w, i, dirty), c) == if c == i then dirty else Marked(w, c)
    {
      if c / 32 == i / 32 {
        WordUpdate(w[i / 32], i % 32, c % 32);
      }
    }
  }

  /** A history of updates on the abstract set, which is the set the migration protocol keeps. */
  datatype Update = Update(sector: nat, n: nat, dirty: bool)

  function Replay(s: set<nat>, us: seq<Update>): set<nat> {
    if us == [] then s
    else
      var u, before := us[|us| - 1], Replay(s, us[..|us| - 1]);
      if u.dirty then before + ChunksOf(u.sector, u.n) else before - ChunksOf(u.sector, u.n)
  }

  /** After any history the last update with a sector in the chunk decides. */
  lemma {:induction false} LastUpdateDecides(s: set<nat>, us: seq<Update>, c: nat, k: nat)
    requires k < |us| && Meets(us[k].sector, us[k].n, c)
    requires forall j :: k < j < |us| ==> !Meets(us[j].sector, us[j].n, c)
    ensures c in Replay(s, us) <==> us[k].dirty
    decreases |us|
  {
    var last := us[|us| - 1];
    MarkedIffMet(last.sector, last.n, c);
    if k < |us| - 1 { LastUpdateDecides(s, us[..|us| - 1], c, k); }
  }

  /** A chunk no update has a sector in keeps its mark. */
  lemma {:induction false} UnmetStays(s: set<nat>, us: seq<Update>, c: nat)
    requires forall j :: 0 <= j < |us| ==> !Meets(us[j].sector, us[j].n, c)
    ensures c in Replay(s, us) <==> c in s
    decreases |us|
  {
    if us != [] {
      var last := us[|us| - 1];
      MarkedIffMet(last.sector, last.n, c);
      UnmetStays(s, us[..|us| - 1], c);
    }
  }

  lemma {:induction false} ReplayNext(s: set<nat>, us: seq<Update>, k: nat, after: set<nat>)
    requires k < |us|
    requires forall c: nat :: c in after <==>
               if Meets(us[k].sector, us[k].n, c) then us[k].dirty else c in Replay(s, us[..k])
    ensures after == Replay(s, us[..k + 1])
  {
    assert us[..k + 1][..k] == us[..k];
    forall c: nat ensures c in after <==> c in Replay(s, us[..k + 1]) {
      MarkedIffMet(us[k].sector, us[k].n, c);
    }
  }

  /** The bitmap object after any history of updates holds the replayed set. */
  method RunUpdates(b: Bitmap, us: seq<Update>)
    requires b.Valid()
    requires forall j :: 0 <= j < |us| ==> us[j].sector + us[j].n <= b.sectors && (us[j].n > 0 || b.sectors > 0)
    modifies b.words
    ensures b.Dirty() == Replay(old(b.Dirty()), us)
  {
    var k := 0;
    while k < |us|
      invariant k <= |us| && b.Dirty() == Replay(old(b.Dirty()), us[..k])
    {
      b.SetDirtyBitmap(us[k].sector, us[k].n, us[k].dirty);
      ReplayNext(old(b.Dirty()), us, k, b.Dirty());
      k := k + 1;
    }
    assert us[..|us|] == us;
  }

  /** The source allocates ceil(sectors / 16384) bytes and reads and writes 4-byte words.
      The word of the last chunk lies inside the allocation if and only if the number of
      bytes is a multiple of four. */
  lemma LastWordAllocatedIff(sectors: nat)
    requires sectors > 0
    ensures var bytes, word := (sectors + 16383) / 16384, (sectors - 1) / 2048 / 32;
            4 * (word + 1) <= bytes <==> bytes % 4 == 0
  {
  }

  /** On a device of one sector the word is not inside: one byte is allocated and four are used. */
  lemma OneSectorOutside()
    ensures var sectors := 1;
            var bytes, word := (sectors + 16383) / 16384, (sectors - 1) / 2048 / 32;
            4 * (word + 1) > bytes
  {
    LastWordAllocatedIff(1);
  }
}
