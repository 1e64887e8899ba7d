/**
 Byte-granular access to a device that only reads and writes whole sectors:
 an unaligned head, whole sectors in the middle and a partial tail, each end by
 reading a sector, patching it and writing it back.
 */
module ByteAccess {
  import opened Disk
  import opened Errno

  /** memcpy into part of a buffer. */
  method CopyInto(dst: array<byte>, at: nat, src: seq<byte>)
    requires at + |src| <= dst.Length
    modifies dst
    ensures dst[..] == Splice(old(dst[..]), at, src)
  {
    forall k | 0 <= k < |src| { dst[at + k] := src[k]; }
  }

  /** Length of the unaligned head: (512 - offset) & 511, but no more than count. */
  function HeadLen(offset: int, count: nat): (n: nat)
    ensures n <= count && n < 512
    ensures n > 0 ==> offset % 512 + n <= 512
    ensures n < count ==> (offset + n) % 512 == 0
  {
    var r := offset % 512;
    var len := if r == 0 then 0 else 512 - r;
    if len > count then count else len
  }

  /** Whole sectors among n bytes; the byte after them is as aligned as the first. */
  function WholeSectors(at: int, n: nat): (nb: nat)
    ensures 512 * nb <= n < 512 * nb + 512 && (at + 512 * nb) % 512 == at % 512
  {
    n / 512
  }

  /** Bytes of a sector with d patched in at position o. */
  function Patch(s: Sector, o: nat, d: seq<byte>): Sector
    requires o + |d| <= 512
  {
    Splice(s, o, d)
  }

  /** Patching the sector that holds byte `at` splices the bytes of the device. */
  lemma FlattenPatch(image: Image, s: nat, o: nat, d: seq<byte>, at: nat)
    requires s < |image| && o + |d| <= 512 && at == 512 * s + o
    ensures Flatten(WriteSectors(image, s, [Patch(image[s], o, d)])) == Splice(Flatten(image), at, d)
  {
    var p, b, lo := Patch(image[s], o, d), Flatten(image), 512 * s;
    FlattenWrite(image, s, [p], lo);
    FlattenOne(p);
    FlattenSector(image, s);
    SpliceInside(b, lo, lo + 512, o, d, at);
  }

  /** The first pos bytes of the buffer are the device's from offset on. */
  ghost predicate Filled(b0: seq<byte>, cur: seq<byte>, bytes: seq<byte>, offset: int, pos: nat) {
    if pos == 0 then cur == b0
    else 0 <= offset && offset + pos <= |bytes| && pos <= |b0| && cur == Splice(b0, 0, bytes[offset..offset + pos])
  }

  /** Reading on where the last piece stopped. */
  lemma ReadOn(b0: seq<byte>, cur: seq<byte>, bytes: seq<byte>, offset: int, pos: nat, n: nat)
    requires Filled(b0, cur, bytes, offset, pos) && |cur| == |b0|
    requires 0 < n && 0 <= offset && offset + pos + n <= |bytes| && pos + n <= |b0|
    ensures Filled(b0, Splice(cur, pos, bytes[offset + pos..offset + pos + n]), bytes, offset, pos + n)
  {
    var x, y := bytes[offset..offset + pos], bytes[offset + pos..offset + pos + n];
    assert bytes[offset..offset + pos + n] == x + y;
    if pos > 0 { SpliceTwice(b0, 0, x, y); } else { assert x + y == y; }
  }

  lemma ReadInto(b0: seq<byte>, before: seq<byte>, after: seq<byte>, bytes: seq<byte>, offset: int, pos: nat, n: nat)
    requires Filled(b0, before, bytes, offset, pos) && |before| == |b0|
    requires 0 < n && pos + n <= |b0| && 0 <= offset + pos && offset + pos + n <= |bytes|
    requires after == Splice(before, pos, bytes[offset + pos..offset + pos + n])
    ensures Filled(b0, after, bytes, offset, pos + n)
  {
    ReadOn(b0, before, bytes, offset, pos, n);
  }

  /** The device holds the first pos bytes of the data from offset on, else is as before. */
  ghost predicate Written(b0: seq<byte>, cur: seq<byte>, data: seq<byte>, offset: int, pos: nat) {
    if pos == 0 then cur == b0
    else 0 <= offset && offset + pos <= |b0| && pos <= |data| && cur == Splice(b0, offset, data[..pos])
  }

  /** Writing on where the last piece stopped. */
  lemma WriteOn(b0: seq<byte>, cur: seq<byte>, data: seq<byte>, offset: int, pos: nat, n: nat)
    requires Written(b0, cur, data, offset, pos) && |cur| == |b0|
    requires 0 < n && pos + n <= |data| && 0 <= offset && offset + pos + n <= |b0|
    ensures Written(b0, Splice(cur, offset + pos, data[pos..pos + n]), data, offset, pos + n)
  {
    assert data[..pos + n] == data[..pos] + data[pos..pos + n];
    if pos > 0 { SpliceTwice(b0, offset, data[..pos], data[pos..pos + n]); }
  }

  lemma WriteInto(b0: seq<byte>, before: seq<byte>, after: seq<byte>, data: seq<byte>, offset: int, pos: nat, n: nat)
    requires Written(b0, before, data, offset, pos) && |before| == |b0|
    requires 0 < n && pos + n <= |data| && 0 <= offset + pos && offset + pos + n <= |b0|
    requires after == Splice(before, offset + pos, data[pos..pos + n])
    ensures Written(b0, after, data, offset, pos + n)
  {
    WriteOn(b0, before, data, offset, pos, n);
  }

  /** Driver calls for n bytes from a sector boundary on: the whole sectors, then the tail,
      the tail taking `part` calls. */
  function SectorCalls(n: nat, part: nat): nat {
    (if n / 512 > 0 then 1 else 0) + if n % 512 > 0 then part else 0
  }

  /** Driver calls for a whole request: the head, the whole sectors, the tail. */
  function Calls(offset: int, count: nat, part: nat): nat {
    var len := HeadLen(offset, count);
    (if len > 0 then part else 0) + SectorCalls(count - len, part)
  }

  lemma SectorCallsSplit(n: nat, nb: nat, part: nat)
    requires 0 < nb && 512 * nb <= n < 512 * nb + 512
    ensures SectorCalls(n, part) == 1 + SectorCalls(n - 512 * nb, part)
  {
  }

  /** Reading a part takes one driver call; replacing it takes a read and a write. */
  const READING := 1
  const PATCHING := 2

  /** Calls [from, from + n) are answered without an error. */
  predicate Answered(answers: nat -> int, from: nat, n: nat) {
    forall k :: from <= k < from + n ==> answers(k) >= 0
  }

  lemma AnsweredSplit(answers: nat -> int, from: nat, n: nat, m: nat)
    ensures Answered(answers, from, n + m) <==> Answered(answers, from, n) && Answered(answers, from + n, m)
  {
  }

  /** The whole sectors take one call, the rest as many as it takes alone. */
  lemma CallsSplit(answers: nat -> int, from: nat, n: nat, nb: nat, part: nat)
    requires 0 < nb && 512 * nb <= n < 512 * nb + 512
    ensures var rest := SectorCalls(n - 512 * nb, part);
            && SectorCalls(n, part) == 1 + rest
            && (Answered(answers, from, 1 + rest) <==> Answered(answers, from, 1) && Answered(answers, from + 1, rest))
  {
    SectorCallsSplit(n, nb, part);
    AnsweredSplit(answers, from, 1, SectorCalls(n - 512 * nb, part));
  }

  /** ret is the error of the first call from `from` on that was answered with one. */
  ghost predicate FirstError(answers: nat -> int, from: nat, ret: int) {
    exists k: nat :: k >= from && answers(k) == ret < 0 && Answered(answers, from, k - from)
  }

  /** A block device with its medium and its driver, which answers each call with an error
      or not. */
  class Device {
    const answers: nat -> int
    var inserted: bool
    var readOnly: bool
    var image: Image
    var calls: nat

    constructor (image: Image, readOnly: bool, answers: nat -> int)
      ensures this.image == image && this.readOnly == readOnly && inserted && this.answers == answers && calls == 0
    {
      this.image, this.readOnly, this.inserted, this.answers, this.calls := image, readOnly, true, answers, 0;
    }

    /** What the next driver call returns. */
    function Answer(): (r: int)
      reads this
      ensures r <= 0 && (r == 0 <==> Answered(answers, calls, 1))
    {
      if answers(calls) < 0 then answers(calls) else 0
    }

    ghost function Bytes(): seq<byte>
      reads this
    {
      Flatten(image)
    }

    /** bdrv_check_request on a device that cannot grow. */
    predicate InRange(sector: int, n: nat)
      reads this
    {
      sector >= 0 && sector + n <= |image|
    }

    /** bdrv_read. */
    method Read(sector: int, n: nat) returns (ret: int, data: seq<Sector>)
      modifies this`calls
      ensures ret == if !inserted then -ENOMEDIUM else if !InRange(sector, n) then -EIO else old(Answer())
      ensures data == if ret == 0 then image[sector..sector + n] else []
      ensures calls == old(calls) + if inserted && InRange(sector, n) then 1 else 0
    {
      data := [];
      if !inserted { return -ENOMEDIUM, data; }
      if sector < 0 || sector + n > |image| { return -EIO, data; }
      ret := Answer();
      calls := calls + 1;
      if ret == 0 { data := image[sector..sector + n]; }
    }

    /** bdrv_write. */
    method Write(sector: int, data: seq<Sector>) returns (ret: int)
      modifies this`image, this`calls
      ensures ret == if !inserted then -ENOMEDIUM else if readOnly then -EACCES
                     else if !old(InRange(sector, |data|)) then -EIO else old(Answer())
      ensures image == if ret == 0 then WriteSectors(old(image), sector, data) else old(image)
      ensures calls == old(calls) + if inserted && !readOnly && old(InRange(sector, |data|)) then 1 else 0
    {
      if !inserted { return -ENOMEDIUM; }
      if readOnly { return -EACCES; }
      if sector < 0 || sector + |data| > |image| { return -EIO; }
      ret := Answer();
      calls := calls + 1;
      if ret == 0 { image := WriteSectors(image, sector, data); }
    }

    /** The error a failed read of count bytes may return: that of a device without medium, of a request that
        does not fit, or of the first driver call that failed. */
    ghost predicate ReadError(ret: int, offset: int, count: nat, from: nat)
      reads this
    {
      if !inserted then ret == -ENOMEDIUM
      else (ret == -EIO && !Inside(offset, count)) || FirstError(answers, from, ret)
    }

    /** The same for a write, which a read-only device refuses. */
    ghost predicate WriteError(ret: int, offset: int, count: nat, from: nat)
      reads this
    {
      ReadError(ret, offset, count, from) || (inserted && readOnly && ret == -EACCES)
    }

    /** Bytes [at, at + n) lie in a device with a medium. */
    predicate Inside(at: int, n: nat)
      reads this
    {
      inserted && 0 <= at && at + n <= 512 * |image|
    }

    /** Part of the sector that holds byte `at`, read through a one-sector buffer. */
    method ReadPart(at: int, n: nat, buf: array<byte>, pos: nat) returns (ret: int)
      requires 0 < n && at % 512 + n <= 512 && pos + n <= buf.Length
      modifies this`calls, buf
      ensures ret == if !inserted then -ENOMEDIUM else if !Inside(at, n) then -EIO else old(Answer())
      ensures ret == 0 ==> calls == old(calls) + READING
      ensures ret == 0 ==> buf[..] == Splice(old(buf[..]), pos, Bytes()[at..at + n])
    {
      var tmp;
      var sector, o := at / 512, at % 512;
      ret, tmp := Read(sector, 1);
      if ret < 0 { return; }
      FlattenSector(image, sector);
      SliceOfSlice(Bytes(), 512 * sector, 512 * sector + 512, o, n, at);
      CopyInto(buf, pos, tmp[0][o..o + n]);
    }

    /** Whole sectors from byte `at` on, read straight into the buffer. */
    method ReadWhole(at: int, nb: nat, buf: array<byte>, pos: nat) returns (ret: int)
      requires 0 < nb && at % 512 == 0 && pos + 512 * nb <= buf.Length
      modifies this`calls, buf
      ensures ret == if !inserted then -ENOMEDIUM else if !Inside(at, 512 * nb) then -EIO else old(Answer())
      ensures ret == 0 ==> calls == old(calls) + 1
      ensures ret == 0 ==> buf[..] == Splice(old(buf[..]), pos, Bytes()[at..at + 512 * nb])
    {
      var data;
      var sector := at / 512;
      ret, data := Read(sector, nb);
      if ret < 0 { return; }
      FlattenSlice(image, sector, sector + nb, at, at + 512 * nb);
      CopyInto(buf, pos, Flatten(data));
    }

    /** bdrv_pread. It succeeds exactly on requests inside the device whose driver calls all
        succeed (and on empty ones), and then the buffer holds exactly that slice of the
        device's bytes. */
    method Pread(offset: int, buf: array<byte>, count: nat) returns (ret: int)
      requires count <= buf.Length
      modifies this`calls, buf
      ensures ret == count <==>
                count == 0 || (Inside(offset, count) && Answered(answers, old(calls), Calls(offset, count, READING)))
      ensures ret == count || ReadError(ret, offset, count, old(calls))
      ensures ret == count ==> Filled(old(buf[..]), buf[..], Bytes(), offset, count)
    {
      var len := HeadLen(offset, count);
      if len > 0 {
        AnsweredSplit(answers, calls, READING, SectorCalls(count - len, READING));
        var r := ReadPart(offset, len, buf, 0);
        if r < 0 { return r; }
        ReadOn(old(buf[..]), old(buf[..]), Bytes(), offset, 0, len);
        if len == count { return count; }
      }
      ret := PreadSectors(offset, len, buf, count, old(buf[..]));
    }

    method ReadMiddle(offset: int, pos: nat, nb: nat, buf: array<byte>, ghost b0: seq<byte>) returns (ret: int)
      requires 0 < nb && (offset + pos) % 512 == 0 && pos + 512 * nb <= buf.Length == |b0|
      requires Filled(b0, buf[..], Bytes(), offset, pos)
      modifies this`calls, buf
      ensures ret == if !inserted then -ENOMEDIUM else if !Inside(offset + pos, 512 * nb) then -EIO else old(Answer())
      ensures ret == 0 ==> calls == old(calls) + 1 && Filled(b0, buf[..], Bytes(), offset, pos + 512 * nb)
    {
      ret := ReadWhole(offset + pos, nb, buf, pos);
      if ret == 0 {
        ReadInto(b0, old(buf[..]), buf[..], Bytes(), offset, pos, 512 * nb);
      }
    }

    method ReadLast(offset: int, pos: nat, n: nat, buf: array<byte>, ghost b0: seq<byte>) returns (ret: int)
      requires 0 < n < 512 && (offset + pos) % 512 == 0 && pos + n <= buf.Length == |b0|
      requires Filled(b0, buf[..], Bytes(), offset, pos)
      modifies this`calls, buf
      ensures ret == if !inserted then -ENOMEDIUM else if !Inside(offset + pos, n) then -EIO else old(Answer())
      ensures ret == 0 ==> calls == old(calls) + READING && Filled(b0, buf[..], Bytes(), offset, pos + n)
    {
      ret := ReadPart(offset + pos, n, buf, pos);
      if ret == 0 { ReadInto(b0, old(buf[..]), buf[..], Bytes(), offset, pos, n); }
    }

    /** The whole sectors of a read whose first pos bytes are done, then its tail. */
    method PreadSectors(offset: int, pos: nat, buf: array<byte>, count: nat, ghost b0: seq<byte>) returns (ret: int)
      requires pos <= count <= buf.Length == |b0| && (pos < count ==> (offset + pos) % 512 == 0)
      requires Filled(b0, buf[..], Bytes(), offset, pos) && (pos > 0 ==> inserted)
      modifies this`calls, buf
      ensures ret == count <==>
                || count == 0
                || (Inside(offset, count) && Answered(answers, old(calls), SectorCalls(count - pos, READING)))
      ensures ret == count || ReadError(ret, offset, count, old(calls))
      ensures ret == count ==> Filled(b0, buf[..], Bytes(), offset, count)
    {
      var nb := WholeSectors(offset + pos, count - pos);
      if nb == 0 {
        ret := PreadTail(offset, pos, buf, count, b0);
      } else {
        CallsSplit(answers, calls, count - pos, nb, READING);
        var next := pos + 512 * nb;
        var r := ReadMiddle(offset, pos, nb, buf, b0);
        if r < 0 { return r; }
        ret := PreadTail(offset, next, buf, count, b0);
      }
    }

    method PreadTail(offset: int, pos: nat, buf: array<byte>, count: nat, ghost b0: seq<byte>) returns (ret: int)
      requires pos <= count <= buf.Length == |b0| && count < pos + 512 && (pos < count ==> (offset + pos) % 512 == 0)
      requires Filled(b0, buf[..], Bytes(), offset, pos) && (pos > 0 ==> inserted)
      modifies this`calls, buf
      ensures ret == count <==>
                || count == 0
                || (Inside(offset, count) && Answered(answers, old(calls), SectorCalls(count - pos, READING)))
      ensures ret == count || ReadError(ret, offset, count, old(calls))
      ensures ret == count ==> Filled(b0, buf[..], Bytes(), offset, count)
    {
      if count - pos > 0 {
        var r := ReadLast(offset, pos, count - pos, buf, b0);
        if r < 0 { return r; }
      }
      return count;
    }

    /** Read the sector that holds byte `at`, patch it, write it back. */
    method WritePart(at: int, d: seq<byte>) returns (ret: int)
      requires d != [] && at % 512 + |d| <= 512
      modifies this`image, this`calls
      ensures ret == 0 <==> !readOnly && old(Inside(at, |d|)) && Answered(answers, old(calls), PATCHING)
      ensures ret == 0 || (ret < 0 && image == old(image) && WriteError(ret, at, |d|, old(calls)))
      ensures ret == 0 ==> calls == old(calls) + PATCHING
      ensures |image| == |old(image)|
      ensures ret == 0 ==> Bytes() == Splice(old(Bytes()), at, d)
    {
      var tmp;
      var sector, o := at / 512, at % 512;
      AnsweredSplit(answers, calls, 1, 1);
      ret, tmp := Read(sector, 1);
      if ret < 0 { return; }
      assert tmp[0] == image[sector];
      FlattenPatch(image, sector, o, d, at);
      ret := Write(sector, [Patch(tmp[0], o, d)]);
    }

    /** Write whole sectors from byte `at` on. */
    method WriteWhole(at: int, d: seq<byte>) returns (ret: int)
      requires at % 512 == 0 && |d| % 512 == 0 && d != []
      modifies this`image, this`calls
      ensures ret == 0 <==> !readOnly && old(Inside(at, |d|)) && Answered(answers, old(calls), 1)
      ensures ret == 0 || (ret < 0 && image == old(image) && WriteError(ret, at, |d|, old(calls)))
      ensures ret == 0 ==> calls == old(calls) + 1
      ensures |image| == |old(image)|
      ensures ret == 0 ==> Bytes() == Splice(old(Bytes()), at, d)
    {
      var data, sector := Chop(d), at / 512;
      FlattenChop(d);
      if sector >= 0 && sector + |data| <= |image| { FlattenWrite(image, sector, data, at); }
      ret := Write(sector, data);
    }

    /** bdrv_pwrite. It succeeds exactly on requests inside a writable device whose driver
        calls all succeed (and on empty ones); then exactly the requested bytes are replaced.
        A failing write leaves a prefix of the data behind: nothing, the head, or the head
        and the whole sectors. */
    method Pwrite(offset: int, data: seq<byte>) returns (ret: int, ghost done: nat)
      modifies this`image, this`calls
      ensures ret == |data| <==>
                || data == []
                || (!readOnly && old(Inside(offset, |data|))
                    && Answered(answers, old(calls), Calls(offset, |data|, PATCHING)))
      ensures ret == |data| ==> calls == old(calls) + Calls(offset, |data|, PATCHING)
      ensures ret == |data| || (ret < 0 && WriteError(ret, offset, |data|, old(calls)))
      ensures |image| == |old(image)| && done <= |data|
      ensures ret == |data| ==> done == |data|
      ensures Written(old(Bytes()), Bytes(), data, offset, done)
    {
      var count := |data|;
      var len := HeadLen(offset, count);
      if len > 0 {
        AnsweredSplit(answers, calls, PATCHING, SectorCalls(count - len, PATCHING));
        var r := WritePart(offset, data[..len]);
        if r < 0 { return r, 0; }
        WriteOn(old(Bytes()), old(Bytes()), data, offset, 0, len);
        if len == count { return count, len; }
      }
      ret, done := PwriteSectors(offset, len, data, old(Bytes()));
    }

    method WriteMiddle(offset: int, pos: nat, nb: nat, data: seq<byte>, ghost b0: seq<byte>) returns (ret: int)
      requires 0 < nb && (offset + pos) % 512 == 0 && pos + 512 * nb <= |data|
      requires Written(b0, Bytes(), data, offset, pos) && |b0| == 512 * |image|
      modifies this`image, this`calls
      ensures ret == 0 <==> !readOnly && old(Inside(offset + pos, 512 * nb)) && Answered(answers, old(calls), 1)
      ensures ret == 0 || (ret < 0 && image == old(image) && WriteError(ret, offset + pos, 512 * nb, old(calls)))
      ensures |image| == |old(image)|
      ensures ret == 0 ==> calls == old(calls) + 1 && Written(b0, Bytes(), data, offset, pos + 512 * nb)
    {
      ret := WriteWhole(offset + pos, data[pos..pos + 512 * nb]);
      if ret == 0 { WriteInto(b0, old(Bytes()), Bytes(), data, offset, pos, 512 * nb); }
    }

    /** The whole sectors of a write whose first pos bytes are done, then its tail. */
    method PwriteSectors(offset: int, pos: nat, data: seq<byte>, ghost b0: seq<byte>)
      returns (ret: int, ghost done: nat)
      requires pos <= |data| && (pos < |data| ==> (offset + pos) % 512 == 0)
      requires Written(b0, Bytes(), data, offset, pos) && |b0| == 512 * |image| && (pos > 0 ==> inserted && !readOnly)
      modifies this`image, this`calls
      ensures ret == |data| <==>
                || data == []
                || (!readOnly && old(Inside(offset, |data|))
                    && Answered(answers, old(calls), SectorCalls(|data| - pos, PATCHING)))
      ensures ret == |data| ==> calls == old(calls) + SectorCalls(|data| - pos, PATCHING)
      ensures ret == |data| || (ret < 0 && WriteError(ret, offset, |data|, old(calls)))
      ensures |image| == |old(image)| && done <= |data|
      ensures ret == |data| ==> done == |data|
      ensures Written(b0, Bytes(), data, offset, done)
    {
      var nb := WholeSectors(offset + pos, |data| - pos);
      if nb == 0 {
        ret, done := PwriteTail(offset, pos, data, b0);
      } else {
        CallsSplit(answers, calls, |data| - pos, nb, PATCHING);
        var next := pos + 512 * nb;
        var r := WriteMiddle(offset, pos, nb, data, b0);
        if r < 0 { return r, pos; }
        ret, done := PwriteTail(offset, next, data, b0);
      }
    }

    method PwriteTail(offset: int, pos: nat, data: seq<byte>, ghost b0: seq<byte>) returns (ret: int, ghost done: nat)
      requires pos <= |data| < pos + 512 && (pos < |data| ==> (offset + pos) % 512 == 0)
      requires Written(b0, Bytes(), data, offset, pos) && |b0| == 512 * |image| && (pos > 0 ==> inserted && !readOnly)
      modifies this`image, this`calls
      ensures ret == |data| <==>
                || data == []
                || (!readOnly && old(Inside(offset, |data|))
                    && Answered(answers, old(calls), SectorCalls(|data| - pos, PATCHING)))
      ensures ret == |data| ==> calls == old(calls) + SectorCalls(|data| - pos, PATCHING)
      ensures ret == |data| || (ret < 0 && WriteError(ret, offset, |data|, old(calls)))
      ensures |image| == |old(image)| && done <= |data|
      ensures ret == |data| ==> done == |data|
      ensures Written(b0, Bytes(), data, offset, done)
    {
      if |data| - pos > 0 {
        var r := WritePart(offset + pos, data[pos..|data|]);
        if r < 0 { return r, pos; }
        WriteInto(b0, old(Bytes()), Bytes(), data, offset, pos, |data| - pos);
      }
      return |data|, |data|;
    }
  }

  /** What was written is what is read back, and every other byte is as before. */
  lemma ReadBackWritten(b: seq<byte>, offset: nat, data: seq<byte>, at: nat, n: nat)
    requires offset + |data| <= |b| && at + n <= |b|
    ensures Splice(b, offset, data)[offset..offset + |data|] == data
    ensures at + n <= offset || offset + |data| <= at ==> Splice(b, offset, data)[at..at + n] == b[at..at + n]
  {
    var s := Splice(b, offset, data);
    var x, y := s[at..at + n], b[at..at + n];
    if at + n <= offset || offset + |data| <= at {
      forall k | 0 <= k < n ensures x[k] == y[k] { assert s[at + k] == b[at + k]; }
    }
  }

  /** A read that follows a successful write of the same range returns the data. */
  method WriteThenRead(dev: Device, offset: int, data: seq<byte>, buf: array<byte>) returns (ret: int)
    requires |data| <= buf.Length
    modifies dev`image, dev`calls, buf
    ensures ret == |data| <==>
              || data == []
              || (!dev.readOnly && old(dev.Inside(offset, |data|))
                  && Answered(dev.answers, old(dev.calls),
                              Calls(offset, |data|, PATCHING) + Calls(offset, |data|, READING)))
    ensures ret == |data| ==> buf[..|data|] == data
  {
    ghost var done;
    AnsweredSplit(dev.answers, dev.calls, Calls(offset, |data|, PATCHING), Calls(offset, |data|, READING));
    ret, done := dev.Pwrite(offset, data);
    if ret == |data| {
      ret := dev.Pread(offset, buf, |data|);
      assert data[..done] == data;
    }
  }
}
