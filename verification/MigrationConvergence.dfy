/**
 Live migration converges. An invariant over every interleaving of guest writes,
 driver reads, read completions and save calls says of each sector behind the
 bulk walk: its chunk is dirty, or a block for it is pending, or the receiver
 already has it. From it follows what the receiver holds when stage 3 is over.
 */
module MigrationConvergence {
  import opened Disk
  import opened MigrationProtocol

  // ------------------------------------------------------------------ invariant

  /** Unallocated sectors of a shared-base device are the same on both sides. */
  ghost predicate DeviceInv(d: Device, r: Image) {
    && Aligned(d)
    && |r| == |d.image|
    && (d.shared ==> forall k: nat :: k < |r| && k !in d.alloc ==> r[k] == d.image[k])
  }

  /** A block covers a chunk behind the walk; what it has read of a clean chunk is current. */
  ghost predicate BlockInv(d: Device, b: Block) {
    && b.sector % 2048 == 0
    && b.sector < d.cur <= |d.image|
    && b.nr == Min(2048, |d.image| - b.sector)
    && forall k: nat :: k in b.filled && k < b.nr
                        && (b.sector / 2048 !in d.dirty || (d.shared && b.sector + k !in d.alloc))
                        ==> b.buf[k] == d.image[b.sector + k]
  }

  ghost predicate BlocksInv(s: State, bs: seq<Block>) {
    forall j :: 0 <= j < |bs| ==> bs[j].dev < |s.devs| && BlockInv(s.devs[bs[j].dev], bs[j])
  }

  predicate For(b: Block, i: nat, c: nat) { b.dev == i && b.sector / 2048 == c }

  predicate Waiting(bs: seq<Block>, i: nat, c: nat) {
    exists j :: 0 <= j < |bs| && For(bs[j], i, c)
  }

  /** Some read of chunk c of device i has been submitted and not yet been sent. */
  predicate Pending(s: State, i: nat, c: nat) {
    Waiting(s.inflight, i, c) || Waiting(s.queue, i, c)
  }

  /** Sector k lies in a chunk that fits the device; only those the receiver can take. */
  predicate InFullChunk(image: Image, k: nat) {
    k / 2048 * 2048 + 2048 <= |image|
  }

  ghost predicate SectorInv(s: State, i: nat, k: nat, r: Image)
    requires i < |s.devs| && |r| == |s.devs[i].image|
  {
    var d := s.devs[i];
    k < d.cur <= |d.image| && InFullChunk(d.image, k) && k / 2048 !in d.dirty && !Pending(s, i, k / 2048)
    ==> r[k] == d.image[k]
  }

  /** Sectors outside every full chunk are never written on the receiver. */
  ghost predicate TailKept(r: Image, r0: Image) {
    |r| == |r0| && forall k: nat :: k < |r| && !InFullChunk(r, k) ==> r[k] == r0[k]
  }

  lemma WholeChunkKeepsTail(r: Image, r': Image, r0: Image, sector: nat)
    requires TailKept(r, r0) && |r'| == |r| && sector % 2048 == 0
    requires forall k: nat :: k < |r| && r'[k] != r[k] ==> sector <= k < sector + 2048 <= |r|
    ensures TailKept(r', r0)
  {
    forall k: nat | k < |r| && !InFullChunk(r', k) ensures r'[k] == r0[k] {
      if sector <= k < sector + 2048 { assert k / 2048 == sector / 2048; }
    }
  }

  predicate Accounted(s: State) {
    && s.submitted == |s.inflight|
    && s.readDone == |s.queue|
    && s.submitted + s.readDone + s.transferred == s.issued
  }

  ghost predicate Inv(s: State, r0: seq<Image>) {
    var r := Receive(r0, s.out);
    && s.totalSum > 0
    && |r| == |s.devs|
    && Accounted(s)
    && (forall i :: 0 <= i < |s.devs| ==> DeviceInv(s.devs[i], r[i]) && TailKept(r[i], r0[i]))
    && BlocksInv(s, s.inflight)
    && BlocksInv(s, s.queue)
    && (forall j :: 0 <= j < |s.queue| && s.queue[j].ret >= 0 ==> FullyRead(s.queue[j]))
    && (forall i, k: nat :: 0 <= i < |s.devs| ==> SectorInv(s, i, k, r[i]))
  }

  // ------------------------------------------------------------------ environment steps

  lemma GuestWriteKeeps(s: State, i: nat, at: nat, data: seq<Sector>, r0: seq<Image>)
    requires Inv(s, r0)
    ensures Inv(GuestWrite(s, i, at, data), r0)
  {
    var s' := GuestWrite(s, i, at, data);
    if i < |s.devs| && at + |data| <= |s.devs[i].image| {
      var r := Receive(r0, s.out);
      var d, d' := s.devs[i], s'.devs[i];
      DeviceWrite(d, at, data);
      assert DeviceInv(d, r[i]) && DeviceInv(d', r[i]);
      WriteBlocks(s, i, at, data, s.inflight);
      WriteBlocks(s, i, at, data, s.queue);
      forall i', k: nat | 0 <= i' < |s'.devs|
        ensures SectorInv(s', i', k, r[i'])
      {
        assert SectorInv(s, i', k, r[i']);
        assert Pending(s', i', k / 2048) == Pending(s, i', k / 2048);
      }
    }
  }

  lemma WriteBlocks(s: State, i: nat, at: nat, data: seq<Sector>, bs: seq<Block>)
    requires i < |s.devs| && at + |data| <= |s.devs[i].image| && BlocksInv(s, bs)
    ensures BlocksInv(GuestWrite(s, i, at, data), bs)
  {
    var s' := GuestWrite(s, i, at, data);
    DeviceWrite(s.devs[i], at, data);
    forall j | 0 <= j < |bs| ensures BlockInv(s'.devs[bs[j].dev], bs[j]) {
      assert BlockInv(s.devs[bs[j].dev], bs[j]);
    }
  }

  /** A guest write changes only sectors it marks dirty and allocated. */
  lemma DeviceWrite(d: Device, at: nat, data: seq<Sector>)
    requires at + |data| <= |d.image|
    ensures var d' := WriteDevice(d, at, data);
            && d' == d.(image := d'.image, dirty := d'.dirty, alloc := d'.alloc)
            && |d'.image| == |d.image| && d.dirty <= d'.dirty && d.alloc <= d'.alloc
            && (forall k: nat :: k < |d.image| && (k / 2048 !in d'.dirty || k !in d'.alloc) ==>
                  d'.image[k] == d.image[k])
  {
    TouchedChunks(at, |data|);
  }

  /** Every sector of a request lies in one of the chunks marked for it. */
  lemma TouchedChunks(at: nat, n: nat)
    ensures forall k: nat :: at <= k < at + n ==> k / 2048 in ChunksOf(at, n)
  {
  }

  /** Sectors whose device is unchanged keep their invariant while no block goes away. */
  lemma SectorsKept(s: State, s': State, r: seq<Image>)
    requires s'.devs == s.devs && |r| == |s.devs|
    requires forall i :: 0 <= i < |r| ==> |r[i]| == |s.devs[i].image|
    requires forall i, k: nat :: 0 <= i < |s.devs| ==> SectorInv(s, i, k, r[i])
    requires forall i, c :: Pending(s, i, c) ==> Pending(s', i, c)
    ensures forall i, k: nat :: 0 <= i < |s'.devs| ==> SectorInv(s', i, k, r[i])
  {
    forall i, k: nat | 0 <= i < |s'.devs| ensures SectorInv(s', i, k, r[i]) {
      assert SectorInv(s, i, k, r[i]);
      assert Pending(s, i, k / 2048) ==> Pending(s', i, k / 2048);
    }
  }

  lemma InvLengths(s: State, r0: seq<Image>)
    requires Inv(s, r0)
    ensures var r := Receive(r0, s.out);
            |r| == |s.devs| && forall i :: 0 <= i < |r| ==> |r[i]| == |s.devs[i].image|
  {
    forall i | 0 <= i < |s.devs| ensures |Receive(r0, s.out)[i]| == |s.devs[i].image| {
      assert DeviceInv(s.devs[i], Receive(r0, s.out)[i]);
    }
  }

  lemma DriverReadKeeps(s: State, j: nat, k: nat, r0: seq<Image>)
    requires Inv(s, r0)
    ensures Inv(DriverRead(s, j, k), r0)
  {
    var s' := DriverRead(s, j, k);
    if s' != s {
      SamePending(s, s');
      InvLengths(s, r0);
      SectorsKept(s, s', Receive(r0, s.out));
    }
  }

  /** Blocks that keep their place, device and sector leave the pending chunks alone. */
  lemma SamePending(s: State, s': State)
    requires s'.queue == s.queue && |s'.inflight| == |s.inflight|
    requires forall j :: 0 <= j < |s.inflight| ==>
               s'.inflight[j].dev == s.inflight[j].dev && s'.inflight[j].sector == s.inflight[j].sector
    ensures forall i, c :: Pending(s', i, c) == Pending(s, i, c)
  {
    forall i, c ensures Pending(s', i, c) == Pending(s, i, c) {
      assert forall j :: 0 <= j < |s.inflight| ==> For(s'.inflight[j], i, c) == For(s.inflight[j], i, c);
      if Waiting(s.inflight, i, c) {
        var j :| 0 <= j < |s.inflight| && For(s.inflight[j], i, c);
        assert For(s'.inflight[j], i, c);
      }
    }
  }

  lemma ReadCallbackKeeps(s: State, j: nat, ret: int, r0: seq<Image>)
    requires Inv(s, r0)
    ensures Inv(ReadCallback(s, j, ret), r0)
  {
    var s' := ReadCallback(s, j, ret);
    if s' != s {
      var b := s.inflight[j].(ret := ret);
      assert s'.queue[|s.queue|] == b && BlockInv(s.devs[b.dev], b);
      CallbackPending(s, j, ret);
      InvLengths(s, r0);
      SectorsKept(s, s', Receive(r0, s.out));
    }
  }

  /** A completed read moves to the queue; no chunk stops being pending. */
  lemma CallbackPending(s: State, j: nat, ret: int)
    ensures forall i, c :: Pending(s, i, c) ==> Pending(ReadCallback(s, j, ret), i, c)
  {
    var s' := ReadCallback(s, j, ret);
    if s' != s {
      forall i, c | Pending(s, i, c) ensures Pending(s', i, c) {
        if Waiting(s.inflight, i, c) {
          var m :| 0 <= m < |s.inflight| && For(s.inflight[m], i, c);
          if m == j {
            assert For(s'.queue[|s.queue|], i, c);
          } else {
            assert For(s'.inflight[if m < j then m else m - 1], i, c);
          }
        } else {
          var m :| 0 <= m < |s.queue| && For(s.queue[m], i, c);
          assert For(s'.queue[m], i, c);
        }
      }
    }
  }

  // ------------------------------------------------------------------ sending

  lemma NoticeKeeps(s: State, s': State, rec: Record, r0: seq<Image>)
    requires Inv(s, r0) && !rec.DeviceBlock?
    requires s' == s.(out := s.out + [rec], prevProgress := s'.prevProgress)
    ensures Inv(s', r0)
  {
    ReceiveOne(r0, s.out, rec);
    SamePending(s, s');
    InvLengths(s, r0);
    SectorsKept(s, s', Receive(r0, s.out));
  }

  /** What sending one block and reporting an error keep, a flush keeps. */
  lemma {:induction false} FlushPreserves(p: State -> bool, s: State, quota: nat)
    requires p(s)
    requires forall s' {:trigger FlushOne(s')} :: p(s') && s'.queue != [] && s'.queue[0].ret >= 0 ==> p(FlushOne(s'))
    requires forall s' {:trigger Fail(s')} :: p(s') ==> p(Fail(s'))
    ensures p(FlushBlocks(s, quota))
    decreases |s.queue|
  {
    if s.queue != [] && quota > 0 && s.queue[0].ret >= 0 {
      FlushPreserves(p, FlushOne(s), quota - 1);
    }
  }

  lemma FlushKeeps(s: State, quota: nat, r0: seq<Image>)
    requires Inv(s, r0)
    ensures Inv(FlushBlocks(s, quota), r0)
  {
    var p := s' => Inv(s', r0);
    forall s' | p(s') && s'.queue != [] && s'.queue[0].ret >= 0 ensures p(FlushOne(s')) {
      FlushOneKeeps(s', r0);
    }
    forall s' | p(s') ensures p(Fail(s')) {
      ErrorKeeps(s', r0);
    }
    FlushPreserves(p, s, quota);
  }

  lemma ErrorKeeps(s: State, r0: seq<Image>)
    requires Inv(s, r0)
    ensures Inv(s.(err := true), r0)
  {
    SamePending(s, s.(err := true));
    InvLengths(s, r0);
    SectorsKept(s, s.(err := true), Receive(r0, s.out));
  }

  /** Image r' is r with the full chunk at `sector` replaced by `data`, if it fits. */
  ghost predicate ChunkWritten(r: Image, r': Image, sector: nat, data: ChunkBuf) {
    && |r'| == |r|
    && forall k: nat :: k < |r| ==>
         r'[k] == if sector <= k < sector + 2048 <= |r| then data[k - sector] else r[k]
  }

  /** Sending block b turns the receiver's images r into r'. */
  ghost predicate Sent(b: Block, r: seq<Image>, r': seq<Image>) {
    && |r'| == |r|
    && forall i :: 0 <= i < |r| ==> if i == b.dev then ChunkWritten(r[i], r'[i], b.sector, b.buf) else r'[i] == r[i]
  }

  lemma FlushOneKeeps(s: State, r0: seq<Image>)
    requires Inv(s, r0) && s.queue != [] && s.queue[0].ret >= 0
    ensures Inv(FlushOne(s), r0)
  {
    var b, s' := s.queue[0], FlushOne(s);
    ReceiveOne(r0, s.out, DeviceBlock(b.dev, b.sector, b.buf));
    var r, r' := Receive(r0, s.out), Receive(r0, s'.out);
    assert r' == Apply(r, DeviceBlock(b.dev, b.sector, b.buf));
    assert BlockInv(s.devs[b.dev], b);
    assert Sent(b, r, r');
    FlushDevices(s.devs, b, r, r', r0);
    assert BlocksInv(s', s'.queue);
    FlushSectors(s, r, r');
  }

  lemma FlushDevices(devs: seq<Device>, b: Block, r: seq<Image>, r': seq<Image>, r0: seq<Image>)
    requires |r| == |r0| == |devs| && Sent(b, r, r')
    requires b.dev < |devs| && BlockInv(devs[b.dev], b) && FullyRead(b)
    requires forall i :: 0 <= i < |devs| ==> DeviceInv(devs[i], r[i]) && TailKept(r[i], r0[i])
    ensures forall i :: 0 <= i < |devs| ==> DeviceInv(devs[i], r'[i]) && TailKept(r'[i], r0[i])
  {
    forall i | 0 <= i < |devs| ensures DeviceInv(devs[i], r'[i]) && TailKept(r'[i], r0[i]) {
      assert DeviceInv(devs[i], r[i]) && TailKept(r[i], r0[i]);
      if i == b.dev { FlushDevice(devs[i], b, r[i], r'[i], r0[i]); }
    }
  }

  lemma FlushSectors(s: State, r: seq<Image>, r': seq<Image>)
    requires s.queue != [] && |r| == |s.devs| && Sent(s.queue[0], r, r')
    requires var b := s.queue[0]; b.dev < |s.devs| && BlockInv(s.devs[b.dev], b) && FullyRead(b)
    requires forall i :: 0 <= i < |s.devs| ==> |r[i]| == |s.devs[i].image|
    requires forall i, k: nat :: 0 <= i < |s.devs| ==> SectorInv(s, i, k, r[i])
    ensures forall i :: 0 <= i < |s.devs| ==> |r'[i]| == |s.devs[i].image|
    ensures forall i, k: nat :: 0 <= i < |s.devs| ==> SectorInv(FlushOne(s), i, k, r'[i])
  {
    forall i, k: nat | 0 <= i < |s.devs| ensures SectorInv(FlushOne(s), i, k, r'[i]) {
      assert SectorInv(s, i, k, r[i]);
      FlushSector(s, i, k, r[i], r'[i]);
    }
  }

  lemma FlushDevice(d: Device, b: Block, r: Image, r': Image, r0: Image)
    requires DeviceInv(d, r) && TailKept(r, r0) && BlockInv(d, b) && FullyRead(b)
    requires ChunkWritten(r, r', b.sector, b.buf)
    ensures DeviceInv(d, r') && TailKept(r', r0)
  {
    WholeChunkKeepsTail(r, r', r0, b.sector);
    if b.sector + 2048 <= |r| { assert b.nr == 2048; }
  }

  lemma FlushSector(s: State, i: nat, k: nat, r: Image, r': Image)
    requires s.queue != [] && i < |s.devs| && |r| == |s.devs[i].image|
    requires SectorInv(s, i, k, r)
    requires var b := s.queue[0];
             if b.dev == i then BlockInv(s.devs[i], b) && FullyRead(b) && ChunkWritten(r, r', b.sector, b.buf)
             else r' == r
    ensures SectorInv(FlushOne(s), i, k, r')
  {
    var b := s.queue[0];
    if For(b, i, k / 2048) {
      assert b.sector <= k < b.sector + 2048;
      if b.sector + 2048 <= |r| { assert b.nr == 2048; }
    } else {
      PendingAfterFlush(s, i, k / 2048);
    }
  }

  lemma PendingAfterFlush(s: State, i: nat, c: nat)
    requires s.queue != [] && !For(s.queue[0], i, c)
    ensures Waiting(s.queue[1..], i, c) == Waiting(s.queue, i, c)
  {
    if Waiting(s.queue, i, c) {
      var m :| 0 <= m < |s.queue| && For(s.queue[m], i, c);
      assert For(s.queue[1..][m - 1], i, c);
    }
  }

  // ------------------------------------------------------------------ bulk phase

  /** The effect of a bulk step on its device: the walk skips unallocated sectors only,
      then passes one chunk and marks it clean. */
  ghost predicate BulkDevice(d: Device, d': Device) {
    var at := BulkAt(d);
    var sector := at / 2048 * 2048;
    && d'.image == d.image && d'.alloc == d.alloc && d'.shared == d.shared && d'.bulkDone == d.bulkDone
    && d.cur <= at <= |d.image|
    && (forall k :: d.cur <= k < at ==> d.shared && k !in d.alloc)
    && (at < |d.image| ==>
          && d.cur <= sector
          && d'.cur == sector + Min(2048, |d.image| - sector)
          && d'.dirty == d.dirty - {sector / 2048})
    && (at == |d.image| ==> d'.cur == |d.image| && d'.dirty == d.dirty)
  }

  /** ... and on the receiver: a synchronous step delivers its chunk if the chunk fits. */
  ghost predicate BulkImage(d: Device, async: bool, r: Image, r': Image) {
    var sector := BulkAt(d) / 2048 * 2048;
    && |r'| == |r|
    && (forall k: nat :: k < |r| ==>
          r'[k] == if !async && BulkAt(d) < |d.image| && sector <= k < sector + 2048 <= |d.image| && k < |d.image|
                   then d.image[k] else r[k])
  }

  /** ... and on the pipeline: an asynchronous step adds one empty block for its chunk. */
  ghost predicate BulkPipeline(s: State, s': State, i: nat, async: bool)
    requires i < |s.devs|
  {
    var d := s.devs[i];
    var sector := BulkAt(d) / 2048 * 2048;
    && s'.queue == s.queue
    && (!async || BulkAt(d) >= |d.image| ==> s'.inflight == s.inflight)
    && (async && BulkAt(d) < |d.image| ==>
          && |s'.inflight| == |s.inflight| + 1
          && s.inflight <= s'.inflight
          && var b := s'.inflight[|s.inflight|];
             b.dev == i && b.sector == sector && b.nr == Min(2048, |d.image| - sector) && b.filled == {})
  }

  ghost predicate BulkStep(s: State, s': State, i: nat, async: bool, r0: seq<Image>) {
    var r, r' := Receive(r0, s.out), Receive(r0, s'.out);
    && i < |s.devs| == |r|
    && |s'.devs| == |s.devs|
    && s'.devs == s.devs[i := s'.devs[i]]
    && BulkDevice(s.devs[i], s'.devs[i])
    && BulkImage(s.devs[i], async, r[i], r'[i])
    && (forall i' :: 0 <= i' < |r| && i' != i ==> r'[i'] == r[i'])
    && BulkPipeline(s, s', i, async)
    && s'.totalSum == s.totalSum
    && s'.readDone == s.readDone && s'.transferred == s.transferred
    && s'.submitted - s.submitted == s'.issued - s.issued == |s'.inflight| - |s.inflight|
  }

  lemma BulkDeviceEffect(s: State, i: nat, async: bool, junk: Junk)
    requires i < |s.devs| && Aligned(s.devs[i])
    ensures var s' := SaveDeviceBulk(s, i, async, junk).0;
            && s'.devs == s.devs[i := s'.devs[i]]
            && BulkDevice(s.devs[i], s'.devs[i])
            && BulkPipeline(s, s', i, async)
  {
    BulkAtSpec(s.devs[i]);
  }

  lemma BulkOutput(s: State, i: nat, async: bool, junk: Junk)
    requires i < |s.devs| && Aligned(s.devs[i])
    ensures var d, out' := s.devs[i], SaveDeviceBulk(s, i, async, junk).0.out;
            var sector := BulkAt(d) / 2048 * 2048;
            if BulkAt(d) < |d.image| && !async
            then out' == s.out + [DeviceBlock(i, sector,
                                   ReadInto(d.image, sector, Min(2048, |d.image| - sector), junk(i, sector)))]
            else out' == s.out
  {
    BulkAtSpec(s.devs[i]);
  }

  lemma BulkImageEffect(s: State, i: nat, async: bool, junk: Junk, r0: seq<Image>)
    requires i < |s.devs| == |r0| && Aligned(s.devs[i]) && |r0[i]| == |s.devs[i].image|
    ensures var r, r' := Receive(r0, s.out), Receive(r0, SaveDeviceBulk(s, i, async, junk).0.out);
            && BulkImage(s.devs[i], async, r[i], r'[i])
            && (forall i' :: 0 <= i' < |r| && i' != i ==> r'[i'] == r[i'])
  {
    var d := s.devs[i];
    var sector := BulkAt(d) / 2048 * 2048;
    BulkOutput(s, i, async, junk);
    if BulkAt(d) < |d.image| && !async {
      var data := ReadInto(d.image, sector, Min(2048, |d.image| - sector), junk(i, sector));
      ReceiveOne(r0, s.out, DeviceBlock(i, sector, data));
    }
  }

  lemma BulkEffect(s: State, i: nat, async: bool, junk: Junk, r0: seq<Image>)
    requires Inv(s, r0) && i < |s.devs|
    ensures BulkStep(s, SaveDeviceBulk(s, i, async, junk).0, i, async, r0)
  {
    assert DeviceInv(s.devs[i], Receive(r0, s.out)[i]);
    BulkDeviceEffect(s, i, async, junk);
    BulkImageEffect(s, i, async, junk, r0);
  }

  lemma BulkDeviceKeeps(s: State, s': State, i: nat, async: bool, r0: seq<Image>)
    requires Inv(s, r0) && BulkStep(s, s', i, async, r0)
    requires s'.devs[i].bulkDone ==> s'.devs[i].cur == |s'.devs[i].image|
    ensures Inv(s', r0)
  {
    var r, r' := Receive(r0, s.out), Receive(r0, s'.out);
    forall i' | 0 <= i' < |s'.devs| ensures DeviceInv(s'.devs[i'], r'[i']) && TailKept(r'[i'], r0[i']) {
      assert DeviceInv(s.devs[i'], r[i']) && TailKept(r[i'], r0[i']);
      WholeChunkKeepsTail(r[i'], r'[i'], r0[i'], BulkAt(s.devs[i]) / 2048 * 2048);
    }
    OldBlocksKeep(s, s', i, async, r0, s.queue);
    OldBlocksKeep(s, s', i, async, r0, s.inflight);
    forall i', k: nat | 0 <= i' < |s'.devs|
      ensures SectorInv(s', i', k, r'[i'])
    {
      BulkSectorKeeps(s, s', i, async, r0, i', k);
    }
  }

  lemma OldBlocksKeep(s: State, s': State, i: nat, async: bool, r0: seq<Image>, bs: seq<Block>)
    requires BulkStep(s, s', i, async, r0) && BlocksInv(s, bs)
    ensures BlocksInv(s', bs)
  {
    forall j | 0 <= j < |bs| ensures BlockInv(s'.devs[bs[j].dev], bs[j]) {
      assert BlockInv(s.devs[bs[j].dev], bs[j]);
    }
  }

  lemma BulkSectorKeeps(s: State, s': State, i: nat, async: bool, r0: seq<Image>, i': nat, k: nat)
    requires Inv(s, r0) && BulkStep(s, s', i, async, r0) && i' < |s.devs|
    ensures var r' := Receive(r0, s'.out);
            |r'[i']| == |s'.devs[i'].image| && SectorInv(s', i', k, r'[i'])
  {
    var r := Receive(r0, s.out);
    assert DeviceInv(s.devs[i'], r[i']);
    assert SectorInv(s, i', k, r[i']);
    PendingGrows(s, s', i', k / 2048);
    if i' == i {
      var sector := BulkAt(s.devs[i]) / 2048 * 2048;
      if async && BulkAt(s.devs[i]) < |s.devs[i].image| {
        assert For(s'.inflight[|s.inflight|], i, sector / 2048);
      }
      if sector <= k < sector + 2048 {
        assert k / 2048 == sector / 2048;
      }
    }
  }

  lemma PendingGrows(s: State, s': State, i: nat, c: nat)
    requires s'.queue == s.queue && s.inflight <= s'.inflight
    ensures Pending(s, i, c) ==> Pending(s', i, c)
  {
    if Waiting(s.inflight, i, c) {
      var j :| 0 <= j < |s.inflight| && For(s.inflight[j], i, c);
      assert For(s'.inflight[j], i, c);
    }
  }

  lemma FinishDeviceKeeps(s: State, i: nat, r0: seq<Image>)
    requires Inv(s, r0) && i < |s.devs| && s.devs[i].cur == |s.devs[i].image|
    ensures Inv(s.(devs := s.devs[i := s.devs[i].(bulkDone := true)]), r0)
  {
    var s' := s.(devs := s.devs[i := s.devs[i].(bulkDone := true)]);
    var r := Receive(r0, s.out);
    forall i', k: nat | 0 <= i' < |s'.devs| ensures SectorInv(s', i', k, r[i']) {
      assert SectorInv(s, i', k, r[i']);
      assert Pending(s', i', k / 2048) == Pending(s, i', k / 2048);
    }
  }

  lemma StepDeviceKeeps(s: State, i: nat, async: bool, junk: Junk, r0: seq<Image>)
    requires Inv(s, r0) && i < |s.devs| && !s.devs[i].bulkDone
    ensures Inv(StepDevice(s, i, async, junk), r0)
  {
    var (s1, fin) := SaveDeviceBulk(s, i, async, junk);
    assert DeviceInv(s.devs[i], Receive(r0, s.out)[i]);
    DeviceStepProgress(s, i, async, junk);
    BulkEffect(s, i, async, junk, r0);
    BulkDeviceKeeps(s, s1, i, async, r0);
    if fin { FinishDeviceKeeps(s1, i, r0); }
  }

  lemma BulkBlockKeeps(s: State, async: bool, junk: Junk, r0: seq<Image>)
    requires Inv(s, r0)
    ensures Inv(SaveBulkedBlock(s, async, junk).0, r0)
  {
    var i := FirstIncomplete(s.devs);
    if i == |s.devs| {
      ProgressKeeps(s, CompletedSum(s.devs), r0);
    } else {
      StepDeviceKeeps(s, i, async, junk, r0);
      ReportKeeps(StepDevice(s, i, async, junk), i, r0);
    }
  }

  lemma ReportKeeps(s: State, i: nat, r0: seq<Image>)
    requires Inv(s, r0) && i < |s.devs|
    ensures Inv(ReportUpTo(s, i), r0)
  {
    ProgressKeeps(s, CompletedSum(s.devs[..i + 1]), r0);
  }

  lemma ProgressKeeps(s: State, sum: nat, r0: seq<Image>)
    requires Inv(s, r0)
    ensures Inv(ReportProgress(s, sum), r0)
  {
    var p := Percent(sum, s.totalSum);
    if p != s.prevProgress {
      NoticeKeeps(s, ReportProgress(s, sum), Progress(p), r0);
    }
  }

  lemma InvAligned(s: State, r0: seq<Image>)
    requires Inv(s, r0)
    ensures AllAligned(s.devs)
  {
    forall i | 0 <= i < |s.devs| ensures Aligned(s.devs[i]) {
      assert DeviceInv(s.devs[i], Receive(r0, s.out)[i]);
    }
  }

  lemma {:induction false} BulkLoopKeeps(s: State, rate: int, junk: Junk, r0: seq<Image>)
    requires Inv(s, r0) && AllAligned(s.devs)
    ensures Inv(BulkLoop(s, rate, junk), r0)
    decreases Remaining(s.devs)
  {
    if (s.submitted + s.readDone) * 0x10_0000 < rate {
      BulkStepProgress(s, true, junk);
      BulkBlockKeeps(s, true, junk, r0);
      var (s', more) := SaveBulkedBlock(s, true, junk);
      if more { BulkLoopKeeps(s', rate, junk, r0); }
    }
  }

  /** The synchronous phase keeps the invariant, adds nothing to the pipeline, and
      leaves every device walked to its end. */
  lemma {:induction false} SyncBulkKeeps(s: State, junk: Junk, r0: seq<Image>)
    requires Inv(s, r0) && AllAligned(s.devs)
    ensures var s' := SyncBulk(s, junk);
            && Inv(s', r0)
            && |s'.devs| == |s.devs|
            && s'.inflight == s.inflight && s'.queue == s.queue && s'.err == s.err
            && (forall i :: 0 <= i < |s.devs| ==>
                  s'.devs[i].image == s.devs[i].image && s'.devs[i].cur == |s.devs[i].image|)
    decreases Remaining(s.devs)
  {
    BulkStepProgress(s, false, junk);
    BulkBlockKeeps(s, false, junk, r0);
    SyncStepFrame(s, junk);
    var (s', more) := SaveBulkedBlock(s, false, junk);
    if more {
      SyncBulkKeeps(s', junk, r0);
    } else {
      InvAligned(s', r0);
    }
  }

  lemma SyncDeviceFrame(s: State, i: nat, junk: Junk)
    requires i < |s.devs|
    ensures var s' := StepDevice(s, i, false, junk);
            s'.inflight == s.inflight && s'.queue == s.queue && s'.err == s.err
  {
  }

  lemma SyncStepFrame(s: State, junk: Junk)
    requires s.totalSum > 0 && AllAligned(s.devs)
    ensures var s' := SaveBulkedBlock(s, false, junk).0;
            && |s'.devs| == |s.devs|
            && s'.inflight == s.inflight && s'.queue == s.queue && s'.err == s.err
            && (forall i :: 0 <= i < |s.devs| ==> s'.devs[i].image == s.devs[i].image)
  {
    var i := FirstIncomplete(s.devs);
    if i < |s.devs| {
      StepDeviceProgress(s, i, false, junk);
      SyncDeviceFrame(s, i, junk);
      assert SaveBulkedBlock(s, false, junk).0.devs == StepDevice(s, i, false, junk).devs;
    }
  }

  lemma PumpKeeps(s: State, env: Env, r0: seq<Image>)
    requires Inv(s, r0) && AllAligned(s.devs)
    ensures Inv(Pump(s, env), r0)
  {
    FlushFrame(s, env.quota1);
    FlushKeeps(s, env.quota1, r0);
    var s1 := FlushBlocks(s, env.quota1);
    if !s1.err {
      BulkLoopKeeps(s1, env.rate, env.junk, r0);
      FlushKeeps(BulkLoop(s1, env.rate, env.junk), env.quota2, r0);
    }
  }

  // ------------------------------------------------------------------ dirty pass

  /** The device does not end on a chunk boundary and its last, partial chunk is dirty. */
  predicate TailDirty(d: Device) {
    |d.image| % 2048 != 0 && |d.image| / 2048 in d.dirty && |d.image| / 2048 * 2048 < d.cur
  }

  /** The partial last chunk is dirty and the bulk walk will not read it any more: it is behind
      the walk, or the walk skips it because the base is shared and none of it is allocated. */
  predicate TailStays(d: Device) {
    var tail := |d.image| / 2048;
    && |d.image| % 2048 != 0 && tail in d.dirty
    && (tail * 2048 < d.cur || (d.shared && forall k: nat :: tail * 2048 <= k < |d.image| ==> k !in d.alloc))
  }

  predicate AnyTailStays(devs: seq<Device>) {
    exists j :: 0 <= j < |devs| && TailStays(devs[j])
  }

  predicate SameTails(devs: seq<Device>, devs': seq<Device>) {
    |devs'| == |devs| && forall j :: 0 <= j < |devs| ==> TailStays(devs'[j]) == TailStays(devs[j])
  }

  /** What a bulk step makes of its device: the walk ends, or one chunk is read and cleaned. */
  predicate Stepped(d: Device, d': Device) {
    var at := BulkAt(d);
    var sector := at / 2048 * 2048;
    var nr := Min(2048, |d.image| - sector);
    if at >= |d.image| then d' == d.(cur := |d.image|, completed := d'.completed, bulkDone := d'.bulkDone)
    else d' == d.(cur := sector + nr, completed := d'.completed, bulkDone := d'.bulkDone,
                  dirty := d.dirty - ChunksOf(sector, nr))
  }

  lemma StepShape(s: State, i: nat, async: bool, junk: Junk)
    requires i < |s.devs|
    ensures var devs' := StepDevice(s, i, async, junk).devs;
            devs' == s.devs[i := devs'[i]] && Stepped(s.devs[i], devs'[i])
  {
  }

  lemma SteppedTail(d: Device, d': Device)
    requires Aligned(d) && Stepped(d, d')
    ensures TailStays(d') == TailStays(d)
  {
    BulkAtSpec(d);
    if BulkAt(d) < |d.image| {
      FirstAllocatedSpec(d, d.cur);
      ReadTail(d, BulkAt(d), d');
    } else {
      SkippedTail(d, d');
    }
  }

  lemma SkippedTail(d: Device, d': Device)
    requires Aligned(d) && d' == d.(cur := |d.image|, completed := d'.completed, bulkDone := d'.bulkDone)
    requires forall k :: d.cur <= k < |d.image| ==> d.shared && k !in d.alloc
    ensures TailStays(d') == TailStays(d)
  {
    var tail := |d.image| / 2048;
    if |d.image| % 2048 != 0 && d.cur <= tail * 2048 {
      assert tail * 2048 !in d.alloc;
    }
  }

  lemma ReadTail(d: Device, at: nat, d': Device)
    requires Aligned(d) && d.cur <= at / 2048 * 2048 <= at < |d.image| && (d.shared ==> at in d.alloc)
    requires var sector := at / 2048 * 2048;
             var nr := Min(2048, |d.image| - sector);
             d' == d.(cur := sector + nr, completed := d'.completed, bulkDone := d'.bulkDone,
                      dirty := d.dirty - ChunksOf(sector, nr))
    ensures TailStays(d') == TailStays(d)
  {
    var sector, tail := at / 2048 * 2048, |d.image| / 2048;
    if sector == tail * 2048 {
      assert tail in ChunksOf(sector, |d.image| - sector);
    } else {
      assert sector + 2048 <= tail * 2048;
      assert tail !in ChunksOf(sector, 2048);
    }
  }

  /** Whether a dirty tail stays is settled before the walk gets there. */
  lemma StepTail(s: State, i: nat, async: bool, junk: Junk)
    requires i < |s.devs| && Aligned(s.devs[i])
    ensures SameTails(s.devs, StepDevice(s, i, async, junk).devs)
  {
    StepShape(s, i, async, junk);
    SteppedTail(s.devs[i], StepDevice(s, i, async, junk).devs[i]);
  }

  lemma BulkTails(s: State, async: bool, junk: Junk)
    requires s.totalSum > 0 && AllAligned(s.devs)
    ensures SameTails(s.devs, SaveBulkedBlock(s, async, junk).0.devs)
  {
    var i := FirstIncomplete(s.devs);
    if i < |s.devs| { StepTail(s, i, async, junk); }
  }

  lemma {:induction false} SyncTails(s: State, junk: Junk)
    requires s.totalSum > 0 && AllAligned(s.devs)
    ensures SameTails(s.devs, SyncBulk(s, junk).devs)
    decreases Remaining(s.devs)
  {
    BulkTails(s, false, junk);
    BulkStepProgress(s, false, junk);
    var (s', more) := SaveBulkedBlock(s, false, junk);
    if more { SyncTails(s', junk); }
  }

  lemma {:induction false} LoopTails(s: State, rate: int, junk: Junk)
    requires s.totalSum > 0 && AllAligned(s.devs)
    ensures SameTails(s.devs, BulkLoop(s, rate, junk).devs)
    decreases Remaining(s.devs)
  {
    if (s.submitted + s.readDone) * 0x10_0000 < rate {
      BulkTails(s, true, junk);
      BulkStepProgress(s, true, junk);
      var (s', more) := SaveBulkedBlock(s, true, junk);
      if more { LoopTails(s', rate, junk); }
    }
  }

  /** Sector k is resent by a dirty pass that starts at `from`. */
  predicate Resent(d: Device, from: nat, k: nat) {
    from <= k < d.cur <= |d.image| && k / 2048 in d.dirty && InFullChunk(d.image, k)
  }

  /** The receiver's image after a dirty pass over d: resent sectors, and only those, are d's. */
  ghost predicate DirtyImage(d: Device, from: nat, r: Image, r': Image) {
    && |r'| == |r|
    && (forall k: nat :: k < |r| ==> r'[k] == if Resent(d, from, k) then d.image[k] else r[k])
  }

  ghost predicate DirtyEffect(s: State, s': State, i: nat, sector: nat, r0: seq<Image>) {
    var r, r' := Receive(r0, s.out), Receive(r0, s'.out);
    && i < |s.devs| == |r0| == |s'.devs|
    && (forall j :: 0 <= j < |s.devs| && j != i ==> s'.devs[j] == s.devs[j] && r'[j] == r[j])
    && s'.devs[i].image == s.devs[i].image
    && s'.inflight == s.inflight && s'.queue == s.queue
    && DirtyImage(s.devs[i], sector, r[i], r'[i])
    && (s'.err <==> s.err || (TailDirty(s.devs[i]) && sector <= |s.devs[i].image| / 2048 * 2048))
  }

  lemma {:induction false} DirtyDeviceEffect(s: State, i: nat, sector: nat, r0: seq<Image>)
    requires i < |s.devs| == |r0| && |r0[i]| == |s.devs[i].image|
    requires Aligned(s.devs[i]) && sector % 2048 == 0
    ensures DirtyEffect(s, DirtyDevice(s, i, sector), i, sector, r0)
    decreases s.devs[i].cur - sector
  {
    var d := s.devs[i];
    var s' := DirtyDevice(s, i, sector);
    if sector < d.cur {
      if sector / 2048 !in d.dirty {
        DirtyDeviceEffect(s, i, sector + 2048, r0);
        DirtySkipEffect(s, s', i, sector, r0);
      } else if sector + 2048 <= |d.image| {
        var s1 := ResendOne(s, i, sector);
        DirtyDeviceEffect(s1, i, sector + 2048, r0);
        assert s' == DirtyDevice(s1, i, sector + 2048);
        DirtyCompose(s, s', i, sector, r0);
      } else {
        DirtyTailEffect(s, i, sector, r0);
      }
    } else {
      DirtyEndEffect(s, i, sector, r0);
    }
  }

  lemma DirtyEndEffect(s: State, i: nat, sector: nat, r0: seq<Image>)
    requires i < |s.devs| == |r0| && s.devs[i].cur <= sector
    ensures DirtyEffect(s, s, i, sector, r0)
  {
  }

  lemma DirtyTailEffect(s: State, i: nat, sector: nat, r0: seq<Image>)
    requires i < |s.devs| == |r0| && |r0[i]| == |s.devs[i].image|
    requires sector % 2048 == 0 && sector / 2048 in s.devs[i].dirty
    requires sector < s.devs[i].cur <= |s.devs[i].image| < sector + 2048
    ensures DirtyEffect(s, s.(err := true), i, sector, r0)
  {
    assert |s.devs[i].image| / 2048 == sector / 2048;
  }

  /** One resend of the dirty pass. */
  function ResendOne(s: State, i: nat, sector: nat): State
    requires i < |s.devs| && sector + 2048 <= |s.devs[i].image|
  {
    var d := s.devs[i];
    SendBlock(s, i, sector, d.image[sector..sector + 2048]).(
      devs := s.devs[i := d.(dirty := d.dirty - ChunksOf(sector, 2048))])
  }

  lemma DirtyCompose(s: State, s': State, i: nat, sector: nat, r0: seq<Image>)
    requires i < |s.devs| == |r0| && |r0[i]| == |s.devs[i].image|
    requires Aligned(s.devs[i]) && sector % 2048 == 0 && sector < s.devs[i].cur
    requires sector / 2048 in s.devs[i].dirty && sector + 2048 <= |s.devs[i].image|
    requires DirtyEffect(ResendOne(s, i, sector), s', i, sector + 2048, r0)
    ensures DirtyEffect(s, s', i, sector, r0)
  {
    var d := s.devs[i];
    var s1 := ResendOne(s, i, sector);
    ReceiveOne(r0, s.out, DeviceBlock(i, sector, d.image[sector..sector + 2048]));
    DirtyResend(d, sector);
    assert s1.devs[i] == d.(dirty := d.dirty - ChunksOf(sector, 2048));
    var r, r1, r' := Receive(r0, s.out), Receive(r0, s1.out), Receive(r0, s'.out);
    assert r1[i] == WriteSectors(r[i], sector, d.image[sector..sector + 2048]);
    assert forall k: nat :: sector <= k < sector + 2048 ==> r1[i][k] == d.image[k];
  }

  lemma DirtySkipEffect(s: State, s': State, i: nat, sector: nat, r0: seq<Image>)
    requires i < |s.devs| && sector % 2048 == 0 && sector / 2048 !in s.devs[i].dirty
    requires DirtyEffect(s, s', i, sector + 2048, r0)
    ensures DirtyEffect(s, s', i, sector, r0)
  {
    DirtySkip(s.devs[i], sector);
  }

  lemma DirtySkip(d: Device, sector: nat)
    requires sector % 2048 == 0 && sector / 2048 !in d.dirty
    ensures forall k: nat :: Resent(d, sector, k) == Resent(d, sector + 2048, k)
    ensures TailDirty(d) && sector <= |d.image| / 2048 * 2048 ==> sector + 2048 <= |d.image| / 2048 * 2048
  {
    forall k: nat | sector <= k < sector + 2048 ensures k / 2048 == sector / 2048 {}
  }

  lemma DirtyResend(d: Device, sector: nat)
    requires sector % 2048 == 0 && sector / 2048 in d.dirty && sector < d.cur <= |d.image|
    requires sector + 2048 <= |d.image| && (d.cur % 2048 == 0 || d.cur == |d.image|)
    ensures var d1 := d.(dirty := d.dirty - ChunksOf(sector, 2048));
            && (forall k: nat ::
                  Resent(d, sector, k) <==> (sector <= k < sector + 2048 || Resent(d1, sector + 2048, k)))
            && (TailDirty(d1) && sector + 2048 <= |d.image| / 2048 * 2048
                <==> TailDirty(d) && sector <= |d.image| / 2048 * 2048)
  {
    assert ChunksOf(sector, 2048) == {sector / 2048};
    forall k: nat | sector <= k < sector + 2048 ensures k / 2048 == sector / 2048 {}
  }

  predicate AnyTailDirty(devs: seq<Device>, from: nat) {
    exists j :: from <= j < |devs| && TailDirty(devs[j])
  }

  /** The whole dirty pass fails exactly on a dirty partial tail; otherwise it brings
      every dirty full chunk up to date and touches nothing else. */
  lemma {:induction false} DirtyPassEffect(s: State, i: nat, r0: seq<Image>)
    requires i <= |s.devs| == |r0| && !s.err
    requires forall j :: 0 <= j < |s.devs| ==> Aligned(s.devs[j]) && |r0[j]| == |s.devs[j].image|
    ensures var s' := DirtyPass(s, i);
            var r, r' := Receive(r0, s.out), Receive(r0, s'.out);
            && (s'.err <==> AnyTailDirty(s.devs, i))
            && (!s'.err ==> forall j :: i <= j < |s.devs| ==> DirtyImage(s.devs[j], 0, r[j], r'[j]))
            && (forall j :: 0 <= j < i ==> r'[j] == r[j])
    decreases |s.devs| - i
  {
    if i < |s.devs| {
      var s1 := DirtyDevice(s, i, 0);
      DirtyDeviceEffect(s, i, 0, r0);
      DirtyDeviceFrame(s, i, 0);
      if s1.err {
        assert TailDirty(s.devs[i]);
      } else {
        DirtyPassEffect(s1, i + 1, r0);
        assert forall j :: i < j < |s.devs| ==> s1.devs[j] == s.devs[j];
      }
    }
  }

  // ------------------------------------------------------------------ whole runs

  /** Everything that can happen while a migration is under way. */
  datatype Event =
    | Write(dev: nat, at: nat, data: seq<Sector>)
    | Sample(block: nat, position: nat)
    | Done(block: nat, ret: int)
    | SaveLive(env: Env)

  predicate Runnable(s: State) { s.totalSum > 0 && AllAligned(s.devs) }

  function Step(s: State, e: Event): State
    requires Runnable(s)
  {
    match e
    case Write(i, at, data) => GuestWrite(s, i, at, data)
    case Sample(j, k) => DriverRead(s, j, k)
    case Done(j, ret) => ReadCallback(s, j, ret)
    case SaveLive(env) =>
      if s.err then s
      else
        var s' := Pump(s, env);
        if s'.err then s' else s'.(out := s'.out + [EndOfSection])
  }

  /** States reachable from s0 by a sequence of events. */
  ghost predicate Reaches(s0: State, events: seq<Event>, s: State) {
    if events == [] then s == s0
    else exists m :: Runnable(m) && Reaches(s0, events[..|events| - 1], m) && s == Step(m, events[|events| - 1])
  }

  /** A migration that has just been initialised; the dirty sets may hold anything. */
  ghost predicate Initial(s: State, r0: seq<Image>) {
    && |r0| == |s.devs|
    && s.inflight == [] && s.queue == [] && s.out == [] && !s.err
    && s.submitted == s.readDone == s.transferred == s.issued == 0
    && s.totalSum > 0
    && forall i :: 0 <= i < |s.devs| ==>
         var d := s.devs[i];
         && |d.image| > 0 && |r0[i]| == |d.image| && d.cur == d.completed == 0 && !d.bulkDone
         && (d.shared ==> forall k: nat :: k < |r0[i]| && k !in d.alloc ==> r0[i][k] == d.image[k])
  }

  lemma InitialInv(s: State, r0: seq<Image>)
    requires Initial(s, r0)
    ensures Inv(s, r0)
  {
    forall i | 0 <= i < |s.devs| ensures DeviceInv(s.devs[i], r0[i]) {}
  }

  lemma StepKeeps(s: State, e: Event, r0: seq<Image>)
    requires Inv(s, r0) && Runnable(s)
    ensures Inv(Step(s, e), r0)
  {
    match e
    case Write(i, at, data) => GuestWriteKeeps(s, i, at, data, r0);
    case Sample(j, k) => DriverReadKeeps(s, j, k, r0);
    case Done(j, ret) => ReadCallbackKeeps(s, j, ret, r0);
    case SaveLive(env) =>
      if !s.err {
        PumpKeeps(s, env, r0);
        var s' := Pump(s, env);
        if !s'.err { NoticeKeeps(s', s'.(out := s'.out + [EndOfSection]), EndOfSection, r0); }
      }
  }

  /** The invariant holds in every state of every run. */
  lemma {:induction false} RunKeeps(s0: State, events: seq<Event>, s: State, r0: seq<Image>)
    requires Initial(s0, r0) && Reaches(s0, events, s)
    ensures Inv(s, r0) && Runnable(s)
  {
    if events == [] {
      InitialInv(s0, r0);
    } else {
      var before := events[..|events| - 1];
      var m :| Runnable(m) && Reaches(s0, before, m) && s == Step(m, events[|events| - 1]);
      RunKeeps(s0, before, m, r0);
      StepKeeps(m, events[|events| - 1], r0);
    }
    InvAligned(s, r0);
  }

  /** A read that stage 3 will drop, of a clean full chunk the receiver does not have. */
  ghost predicate Lost(s: State, i: nat, k: nat, r: Image)
    requires i < |s.devs| && |r| == |s.devs[i].image|
  {
    var d := s.devs[i];
    && k < d.cur <= |d.image| && InFullChunk(d.image, k) && k / 2048 !in d.dirty
    && Pending(s, i, k / 2048) && r[k] != d.image[k]
  }

  /** Completion as one dirty pass after the synchronous phase, seen from the receiver. */
  lemma CompleteImages(s: State, junk: Junk, r0: seq<Image>)
    requires Inv(s, r0) && Runnable(s) && !s.err
    ensures var b, s' := SyncBulk(s, junk), Complete(s, junk);
            var rb, r' := Receive(r0, b.out), Receive(r0, s'.out);
            && Inv(b, r0) && |b.devs| == |r'| == |rb|
            && (s'.err <==> AnyTailDirty(b.devs, 0))
            && (!s'.err ==> forall i :: 0 <= i < |b.devs| ==> DirtyImage(b.devs[i], 0, rb[i], r'[i]))
  {
    var b := SyncBulk(s, junk);
    SyncBulkKeeps(s, junk, r0);
    InvAligned(b, r0);
    var p, rb := DirtyPass(b, 0), Receive(r0, b.out);
    forall j | 0 <= j < |b.devs| ensures |r0[j]| == |b.devs[j].image| {
      assert DeviceInv(b.devs[j], rb[j]);
    }
    DirtyPassEffect(b, 0, r0);
    ReceiveOne(r0, p.out, Progress(100));
    if p.err {
      assert Complete(s, junk).out == p.out + [Progress(100)];
    } else {
      ReceiveOne(r0, p.out + [Progress(100)], EndOfSection);
    }
  }

  /** What stage 3 leaves on the receiver, from any state the invariant allows: it fails
      exactly when a dirty partial chunk is one its walk will not read again, and otherwise
      the receiver has every full-chunk sector except those still pending; sectors outside
      the full chunks are as they were before the migration. */
  lemma StageThree(s: State, junk: Junk, r0: seq<Image>)
    requires Inv(s, r0) && Runnable(s) && !s.err
    ensures var b, s' := SyncBulk(s, junk), Complete(s, junk);
            var rb, r' := Receive(r0, b.out), Receive(r0, s'.out);
            && (s'.err <==> AnyTailStays(s.devs))
            && |b.devs| == |s.devs| == |r'|
            && (!s'.err ==> forall i :: 0 <= i < |s.devs| ==>
                  |rb[i]| == |b.devs[i].image| == |s.devs[i].image|
                  && StageThreeImage(s.devs[i].image, b, i, rb[i], r'[i], r0[i]))
  {
    var b := SyncBulk(s, junk);
    var rb, r' := Receive(r0, b.out), Receive(r0, Complete(s, junk).out);
    SyncBulkKeeps(s, junk, r0);
    CompleteImages(s, junk, r0);
    SyncTails(s, junk);
    TailsAtEnd(s.devs, b.devs);
    if !Complete(s, junk).err {
      forall i | 0 <= i < |s.devs|
        ensures |rb[i]| == |b.devs[i].image| == |s.devs[i].image|
        ensures StageThreeImage(s.devs[i].image, b, i, rb[i], r'[i], r0[i])
      {
        assert DeviceInv(b.devs[i], rb[i]) && TailKept(rb[i], r0[i]);
        assert forall k: nat :: SectorInv(b, i, k, rb[i]);
        StageThreeDevice(b, i, rb[i], r'[i], r0[i]);
      }
    }
  }

  lemma TailsAtEnd(devs: seq<Device>, ends: seq<Device>)
    requires SameTails(devs, ends) && forall i :: 0 <= i < |ends| ==> ends[i].cur == |ends[i].image|
    ensures AnyTailStays(devs) <==> AnyTailDirty(ends, 0)
  {
    forall i | 0 <= i < |ends| ensures TailStays(ends[i]) == TailDirty(ends[i]) {}
    if AnyTailStays(devs) { var j :| 0 <= j < |devs| && TailStays(devs[j]); assert TailDirty(ends[j]); }
    if AnyTailDirty(ends, 0) { var j :| 0 <= j < |ends| && TailDirty(ends[j]); assert TailStays(devs[j]); }
  }

  /** The receiver's image r' after stage 3, given what it was (rb) before the dirty pass. */
  ghost predicate StageThreeImage(image: Image, b: State, i: nat, rb: Image, r': Image, r0: Image)
    requires i < |b.devs| && |rb| == |b.devs[i].image|
  {
    && |r'| == |image|
    && TailKept(r', r0)
    && forall k: nat :: k < |image| && InFullChunk(image, k) ==> (r'[k] == image[k] <==> !Lost(b, i, k, rb))
  }

  lemma StageThreeDevice(b: State, i: nat, rb: Image, r': Image, r0: Image)
    requires i < |b.devs| && |rb| == |b.devs[i].image| == b.devs[i].cur
    requires DirtyImage(b.devs[i], 0, rb, r') && TailKept(rb, r0)
    requires forall k: nat :: SectorInv(b, i, k, rb)
    ensures StageThreeImage(b.devs[i].image, b, i, rb, r', r0)
  {
    var d := b.devs[i];
    forall k: nat | k < |r'| && !InFullChunk(r', k) ensures r'[k] == r0[k] {
      assert !InFullChunk(rb, k) && !Resent(d, 0, k);
    }
    forall k: nat | k < |d.image| && InFullChunk(d.image, k)
      ensures r'[k] == d.image[k] <==> !Lost(b, i, k, rb)
    {
      assert SectorInv(b, i, k, rb);
    }
  }
}
