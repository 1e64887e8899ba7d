/**
 The simple disk that every fast form in the block layer has to agree with: a
 sequence of 512-byte sectors, read and written in whole sectors, and its view
 as one flat byte array.
 */
module Disk {

  newtype byte = x: int | 0 <= x < 256

  type Sector = s: seq<byte> | |s| == 512 witness seq(512, _ => 0)

  const ZERO_SECTOR: Sector := seq(512, _ => 0)

  type Image = seq<Sector>

  /** Overwrite the sectors starting at `at`; the request must lie inside the image. */
  function WriteSectors(image: Image, at: nat, data: seq<Sector>): (r: Image)
    requires at + |data| <= |image|
    ensures |r| == |image|
    ensures forall k :: 0 <= k < |image| ==> r[k] == if at <= k < at + |data| then data[k - at] else image[k]
  {
    image[..at] + data + image[at + |data|..]
  }

  /** The byte array an image stands for. */
  function Flatten(image: Image): (b: seq<byte>)
    ensures |b| == 512 * |image|
  {
    if image == [] then [] else image[0] + Flatten(image[1..])
  }

  /** Cut a byte array back into sectors. */
  function Chop(b: seq<byte>): (image: Image)
    requires |b| % 512 == 0
    ensures 512 * |image| == |b|
  {
    if b == [] then [] else [b[..512]] + Chop(b[512..])
  }

  lemma {:induction false} FlattenAppend(a: Image, b: Image)
    ensures Flatten(a + b) == Flatten(a) + Flatten(b)
  {
    if a == [] {
      assert a + b == b;
    } else {
      assert (a + b)[1..] == a[1..] + b;
      FlattenAppend(a[1..], b);
    }
  }

  /** Flattening forgets nothing: cutting the bytes up again gives the image back. */
  lemma {:induction false} ChopFlatten(image: Image)
    ensures Chop(Flatten(image)) == image
  {
    if image != [] {
      var b := Flatten(image);
      assert b[..512] == image[0];
      assert b[512..] == Flatten(image[1..]);
      ChopFlatten(image[1..]);
    }
  }

  /** Byte p of the flat view is byte p % 512 of sector p / 512. */
  lemma {:induction false} FlattenAt(image: Image, p: nat)
    requires p < 512 * |image|
    ensures Flatten(image)[p] == image[p / 512][p % 512]
  {
    if p >= 512 {
      FlattenAt(image[1..], p - 512);
    }
  }

  lemma FlattenSplit(image: Image, n: nat, p: nat)
    requires n <= |image| && p == 512 * n
    ensures Flatten(image[..n]) == Flatten(image)[..p] && Flatten(image[n..]) == Flatten(image)[p..]
  {
    assert image == image[..n] + image[n..];
    FlattenAppend(image[..n], image[n..]);
  }

  /** A slice of whole sectors flattens to the corresponding slice of bytes. */
  lemma FlattenSlice(image: Image, lo: nat, hi: nat, p: nat, q: nat)
    requires lo <= hi <= |image| && p == 512 * lo && q == 512 * hi
    ensures Flatten(image[lo..hi]) == Flatten(image)[p..q]
  {
    FlattenSplit(image, hi, q);
    FlattenSplit(image[..hi], lo, p);
    assert image[..hi][lo..] == image[lo..hi];
    assert Flatten(image)[..q][p..] == Flatten(image)[p..q];
  }

  lemma {:induction false} FlattenChop(b: seq<byte>)
    requires |b| % 512 == 0
    ensures Flatten(Chop(b)) == b
  {
    if b != [] {
      FlattenChop(b[512..]);
      assert Chop(b)[1..] == Chop(b[512..]);
      assert b == b[..512] + b[512..];
    }
  }

  /** Sector s is bytes 512 s to 512 s + 512 of the flat view. */
  lemma FlattenSector(image: Image, s: nat)
    requires s < |image|
    ensures Flatten(image)[512 * s..512 * s + 512] == image[s]
  {
    FlattenSlice(image, s, s + 1, 512 * s, 512 * s + 512);
    assert image[s..s + 1] == [image[s]];
    FlattenOne(image[s]);
  }

  lemma FlattenOne(s: Sector)
    ensures Flatten([s]) == s
  {
    assert [s][1..] == [];
  }

  lemma SliceOfSlice(b: seq<byte>, lo: nat, hi: nat, o: nat, n: nat, at: nat)
    requires at == lo + o && at + n <= hi <= |b|
    ensures b[lo..hi][o..o + n] == b[at..at + n]
  {
    var x, y := b[lo..hi][o..o + n], b[at..at + n];
    assert forall k :: 0 <= k < n ==> x[k] == y[k];
  }

  /** Replace the bytes from `at` on by d. */
  function Splice(b: seq<byte>, at: nat, d: seq<byte>): (r: seq<byte>)
    requires at + |d| <= |b|
    ensures |r| == |b|
  {
    b[..at] + d + b[at + |d|..]
  }

  lemma SpliceTwice(b: seq<byte>, at: nat, x: seq<byte>, y: seq<byte>)
    requires at + |x| + |y| <= |b|
    ensures Splice(Splice(b, at, x), at + |x|, y) == Splice(b, at, x + y)
  {
  }

  /** Splicing into a slice is splicing into the whole. */
  lemma SpliceInside(b: seq<byte>, lo: nat, hi: nat, o: nat, d: seq<byte>, at: nat)
    requires at == lo + o && at + |d| <= hi <= |b|
    ensures Splice(b, lo, Splice(b[lo..hi], o, d)) == Splice(b, at, d)
  {
  }

  /** Writing whole sectors splices their bytes. */
  lemma FlattenWrite(image: Image, at: nat, data: seq<Sector>, p: nat)
    requires at + |data| <= |image| && p == 512 * at
    ensures Flatten(WriteSectors(image, at, data)) == Splice(Flatten(image), p, Flatten(data))
  {
    var end := at + |data|;
    assert WriteSectors(image, at, data) == image[..at] + (data + image[end..]);
    FlattenAppend(image[..at], data + image[end..]);
    FlattenAppend(data, image[end..]);
    FlattenSplit(image, at, p);
    FlattenSplit(image, end, p + |Flatten(data)|);
    SpliceParts(Flatten(image), p, Flatten(data), Flatten(image[..at]), Flatten(image[end..]));
  }

  lemma SpliceParts(b: seq<byte>, at: nat, d: seq<byte>, before: seq<byte>, after: seq<byte>)
    requires at + |d| <= |b| && before == b[..at] && after == b[at + |d|..]
    ensures before + (d + after) == Splice(b, at, d)
  {
  }
}
