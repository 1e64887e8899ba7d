/**
 Live block migration as a state machine over values.

 The source walks every device once (the bulk phase), reading 2048-sector chunks
 asynchronously while the guest keeps writing; a dirty set records the chunks
 written since they were read; stage 3 reads what is left and resends what is
 dirty. The receiver writes each block it gets. Every function here is one
 routine of the source, or one thing the environment may do between routines.
 */
module MigrationProtocol {
  import opened Disk

  type ChunkBuf = b: seq<Sector> | |b| == 2048 witness seq(2048, _ => ZERO_SECTOR)

  /** Contents of a freshly allocated transfer buffer, per device and sector: anything. */
  type Junk = (nat, nat) -> ChunkBuf

  datatype Device = Device(
    bs: nat,             // which of the machine's block devices it is
    image: Image,
    shared: bool,        // migrate only what is not in the shared base image
    alloc: set<nat>,     // sectors present in the overlay
    dirty: set<nat>,     // chunks written since last read
    cur: nat,            // next sector of the bulk walk
    completed: nat,
    bulkDone: bool)

  /** One chunk on its way; `filled` are the buffer positions the driver has read so far. */
  datatype Block = Block(dev: nat, sector: nat, nr: nat, buf: ChunkBuf, filled: set<nat>, ret: int)

  datatype Record =
    | DeviceBlock(dev: nat, sector: nat, data: ChunkBuf)
    | Progress(percent: nat)
    | EndOfSection

  datatype State = State(
    devs: seq<Device>,
    inflight: seq<Block>,   // reads submitted to the driver
    queue: seq<Block>,      // blk_list: reads completed, not yet sent
    submitted: int,
    readDone: int,
    transferred: int,
    issued: nat,            // history: asynchronous reads ever submitted
    totalSum: int,
    prevProgress: int,
    out: seq<Record>,
    err: bool)

  // ------------------------------------------------------------------ environment

  function Range(lo: nat, hi: nat): (r: set<nat>)
    ensures forall x: nat :: x in r <==> lo <= x < hi
    decreases hi - lo
  {
    if lo >= hi then {} else {lo} + Range(lo + 1, hi)
  }

  function LastChunk(sector: nat, n: nat): nat {
    if sector + n == 0 then 0 else (sector + n - 1) / 2048
  }

  /** The chunks a request touches, as the dirty bitmap marks them. */
  function ChunksOf(sector: nat, n: nat): set<nat> {
    Range(sector / 2048, LastChunk(sector, n) + 1)
  }

  /** Sector k is one of the 2048 sectors of chunk c. */
  predicate InChunk(k: nat, c: nat) { 2048 * c <= k < 2048 * (c + 1) }

  /** Some sector of the request lies in chunk c. An empty request, where set_dirty_bitmap takes the
      sector in front of it for its last, meets the chunk it lies inside; at sector 0 it meets chunk 0. */
  ghost predicate Meets(sector: nat, n: nat, c: nat) {
    if n > 0 then exists k: nat :: sector <= k < sector + n && InChunk(k, c)
    else InChunk(sector, c) && (sector == 0 || sector != 2048 * c)
  }

  /** The chunks marked for a request are exactly those it meets. */
  lemma MarkedIffMet(sector: nat, n: nat, c: nat)
    ensures c in ChunksOf(sector, n) <==> Meets(sector, n, c)
  {
    if n > 0 && c in ChunksOf(sector, n) {
      var k := if 2048 * c <= sector then sector else 2048 * c;
      assert InChunk(k, c);
    }
  }

  /** A write inside the device: the data lands and its chunks are marked dirty. */
  function WriteDevice(d: Device, at: nat, data: seq<Sector>): Device
    requires at + |data| <= |d.image|
  {
    d.(image := WriteSectors(d.image, at, data),
       dirty := d.dirty + ChunksOf(at, |data|),
       alloc := d.alloc + Range(at, at + |data|))
  }

  /** A guest write; requests outside the device are refused. */
  function GuestWrite(s: State, i: nat, at: nat, data: seq<Sector>): State {
    if i < |s.devs| && at + |data| <= |s.devs[i].image|
    then s.(devs := s.devs[i := WriteDevice(s.devs[i], at, data)]) else s
  }

  /** The driver copies one sector of an outstanding read into its buffer. */
  function DriverRead(s: State, j: nat, k: nat): State {
    if j < |s.inflight| && k < s.inflight[j].nr && k < 2048 && s.inflight[j].dev < |s.devs|
       && s.inflight[j].sector + k < |s.devs[s.inflight[j].dev].image| then
      var b := s.inflight[j];
      var sec := s.devs[b.dev].image[b.sector + k];
      var buf: ChunkBuf := b.buf[k := sec];
      s.(inflight := s.inflight[j := b.(buf := buf, filled := b.filled + {k})])
    else s
  }

  predicate FullyRead(b: Block) {
    forall k: nat :: k < b.nr ==> k in b.filled
  }

  /** Read completion: a success is reported only once every sector has been read. */
  function ReadCallback(s: State, j: nat, ret: int): State {
    if j < |s.inflight| && (ret < 0 || FullyRead(s.inflight[j])) then
      s.(inflight := s.inflight[..j] + s.inflight[j + 1..],
         queue := s.queue + [s.inflight[j].(ret := ret)],
         submitted := s.submitted - 1,
         readDone := s.readDone + 1)
    else s
  }

  // ------------------------------------------------------------------ source side

  /** First allocated sector at or after `from`, or the end of the device. */
  function FirstAllocated(d: Device, from: nat): (r: nat)
    decreases |d.image| - from
  {
    if from >= |d.image| || from in d.alloc then from else FirstAllocated(d, from + 1)
  }

  function SendBlock(s: State, dev: nat, sector: nat, data: ChunkBuf): State {
    s.(out := s.out + [DeviceBlock(dev, sector, data)])
  }

  function Min(a: int, b: int): int { if a < b then a else b }

  /** What a synchronous read of `nr` sectors leaves in a buffer that held `junk`. */
  function ReadInto(image: Image, sector: nat, nr: nat, junk: ChunkBuf): ChunkBuf
    requires sector + nr <= |image| && nr <= 2048
  {
    image[sector..sector + nr] + junk[nr..]
  }

  /** Read the chunk that holds sector `at`, as a block in flight or straight onto the
      stream, and mark it clean; the flag says it was the device's last. */
  function ReadChunk(s: State, i: nat, at: nat, async: bool, junk: Junk): (r: (State, bool))
    requires i < |s.devs| && at < |s.devs[i].image|
    ensures |r.0.devs| == |s.devs|
  {
    var d := s.devs[i];
    var sector := at / 2048 * 2048;
    var nr := Min(2048, |d.image| - sector);
    var d' := d.(completed := at, dirty := d.dirty - ChunksOf(sector, nr), cur := sector + nr);
    var s' := if async
              then s.(inflight := s.inflight + [Block(i, sector, nr, junk(i, sector), {}, 0)],
                      submitted := s.submitted + 1, issued := s.issued + 1)
              else SendBlock(s, i, sector, ReadInto(d.image, sector, nr, junk(i, sector)));
    (s'.(devs := s.devs[i := d']), sector + nr >= |d.image|)
  }

  /** Where the bulk walk of device d looks next. */
  function BulkAt(d: Device): nat { if d.shared then FirstAllocated(d, d.cur) else d.cur }

  /** One bulk step of one device; the flag says the device is finished. */
  function SaveDeviceBulk(s: State, i: nat, async: bool, junk: Junk): (r: (State, bool))
    requires i < |s.devs|
    ensures |r.0.devs| == |s.devs|
  {
    var d := s.devs[i];
    var total := |d.image|;
    if BulkAt(d) >= total then
      (s.(devs := s.devs[i := d.(cur := total, completed := total)]), true)
    else
      ReadChunk(s, i, BulkAt(d), async, junk)
  }

  /** The same when the read is refused or fails: the error is recorded, the walk stays. */
  function TryDevice(s: State, i: nat, async: bool, junk: Junk, ok: bool): (r: (State, bool))
    requires i < |s.devs|
    ensures |r.0.devs| == |s.devs|
  {
    var d := s.devs[i];
    if ok || BulkAt(d) >= |d.image| then SaveDeviceBulk(s, i, async, junk)
    else (s.(devs := s.devs[i := d.(completed := BulkAt(d))], err := true), false)
  }

  function FirstIncomplete(devs: seq<Device>): (i: nat)
    ensures i <= |devs|
    ensures i < |devs| ==> !devs[i].bulkDone
    ensures forall j :: 0 <= j < i ==> devs[j].bulkDone
  {
    if devs == [] || !devs[0].bulkDone then 0 else 1 + FirstIncomplete(devs[1..])
  }

  function CompletedSum(devs: seq<Device>): (n: nat) {
    if devs == [] then 0 else CompletedSum(devs[..|devs| - 1]) + devs[|devs| - 1].completed
  }

  function Percent(completedSum: nat, totalSum: nat): nat
    requires totalSum > 0
  {
    completedSum * 100 / totalSum
  }

  function ReportProgress(s: State, completedSum: nat): State
    requires s.totalSum > 0
  {
    var p := Percent(completedSum, s.totalSum);
    if p != s.prevProgress then s.(prevProgress := p, out := s.out + [Progress(p)]) else s
  }

  /** One bulk step of device i, marking it done when its walk is over. */
  function StepDevice(s: State, i: nat, async: bool, junk: Junk): (r: State)
    requires i < |s.devs|
    ensures |r.devs| == |s.devs| && r.totalSum == s.totalSum
  {
    var (s1, fin) := SaveDeviceBulk(s, i, async, junk);
    if fin then s1.(devs := s1.devs[i := s1.devs[i].(bulkDone := true)]) else s1
  }

  /** Progress counts the devices up to the one just stepped. */
  function ReportUpTo(s: State, i: nat): State
    requires s.totalSum > 0 && i < |s.devs|
  {
    ReportProgress(s, CompletedSum(s.devs[..i + 1]))
  }

  /** One bulk step of the first unfinished device; the flag says there was one. */
  function SaveBulkedBlock(s: State, async: bool, junk: Junk): (r: (State, bool))
    requires s.totalSum > 0
  {
    var i := FirstIncomplete(s.devs);
    if i == |s.devs| then
      (ReportProgress(s, CompletedSum(s.devs)), false)
    else
      (ReportUpTo(StepDevice(s, i, async, junk), i), true)
  }

  function Fail(s: State): State { s.(err := true) }

  /** The queue's head goes out on the stream. */
  function FlushOne(s: State): State
    requires s.queue != []
  {
    var b := s.queue[0];
    SendBlock(s, b.dev, b.sector, b.buf).(
      queue := s.queue[1..], readDone := s.readDone - 1, transferred := s.transferred + 1)
  }

  /** Send completed reads, at most `quota` of them before the rate limiter says stop. */
  function FlushBlocks(s: State, quota: nat): State
    decreases |s.queue|
  {
    if s.queue == [] || quota == 0 then s
    else if s.queue[0].ret < 0 then Fail(s)
    else FlushBlocks(FlushOne(s), quota - 1)
  }

  /** Sectors a device still has to walk, plus one until it is done. */
  function Left(d: Device): nat {
    (if d.bulkDone then 0 else 1) + (if d.cur <= |d.image| then |d.image| - d.cur else 0)
  }

  /** The measure of the bulk loops. */
  function Remaining(devs: seq<Device>): (n: nat) {
    if devs == [] then 0 else Left(devs[0]) + Remaining(devs[1..])
  }

  lemma {:induction false} RemainingUpdate(devs: seq<Device>, i: nat, d: Device)
    requires i < |devs|
    ensures Remaining(devs[i := d]) == Remaining(devs) - Left(devs[i]) + Left(d)
  {
    if i == 0 {
      assert devs[i := d][1..] == devs[1..];
    } else {
      assert devs[i := d][1..] == devs[1..][i - 1 := d];
      RemainingUpdate(devs[1..], i - 1, d);
    }
  }

  /** The bulk walk is always at a chunk boundary or at the end. */
  predicate Aligned(d: Device) {
    && d.cur <= |d.image|
    && (d.cur % 2048 == 0 || d.cur == |d.image|)
    && (d.bulkDone ==> d.cur == |d.image|)
  }

  predicate AllAligned(devs: seq<Device>) {
    forall i :: 0 <= i < |devs| ==> Aligned(devs[i])
  }

  lemma {:induction false} FirstAllocatedSpec(d: Device, from: nat)
    requires from <= |d.image|
    ensures from <= FirstAllocated(d, from) <= |d.image|
    ensures forall k :: from <= k < FirstAllocated(d, from) ==> k !in d.alloc
    ensures FirstAllocated(d, from) < |d.image| ==> FirstAllocated(d, from) in d.alloc
    decreases |d.image| - from
  {
    if from < |d.image| && from !in d.alloc {
      FirstAllocatedSpec(d, from + 1);
    }
  }

  lemma BulkAtSpec(d: Device)
    requires Aligned(d)
    ensures d.cur <= BulkAt(d) <= |d.image|
    ensures BulkAt(d) < |d.image| ==> d.cur <= BulkAt(d) / 2048 * 2048 <= BulkAt(d)
    ensures forall k :: d.cur <= k < BulkAt(d) ==> d.shared && k !in d.alloc
  {
    FirstAllocatedSpec(d, d.cur);
  }

  lemma DeviceStepProgress(s: State, i: nat, async: bool, junk: Junk)
    requires i < |s.devs| && Aligned(s.devs[i]) && !s.devs[i].bulkDone
    ensures var (s', fin) := SaveDeviceBulk(s, i, async, junk);
            var d := s'.devs[i];
            && s'.devs == s.devs[i := d]
            && d.image == s.devs[i].image
            && s.devs[i].cur <= d.cur
            && Aligned(d)
            && (fin <==> d.cur == |d.image|)
            && (!fin ==> s.devs[i].cur < d.cur && !d.bulkDone)
  {
    BulkAtSpec(s.devs[i]);
  }

  lemma StepDeviceProgress(s: State, i: nat, async: bool, junk: Junk)
    requires i < |s.devs| && Aligned(s.devs[i]) && !s.devs[i].bulkDone
    ensures var s' := StepDevice(s, i, async, junk);
            var d' := s'.devs[i];
            && s'.devs == s.devs[i := d']
            && d'.image == s.devs[i].image
            && Aligned(d')
            && Left(d') < Left(s.devs[i])
  {
    DeviceStepProgress(s, i, async, junk);
  }

  /** A bulk step keeps the walk aligned and makes progress. */
  lemma BulkStepProgress(s: State, async: bool, junk: Junk)
    requires s.totalSum > 0 && AllAligned(s.devs)
    ensures var (s', more) := SaveBulkedBlock(s, async, junk);
            && AllAligned(s'.devs)
            && |s'.devs| == |s.devs|
            && s'.totalSum == s.totalSum
            && (more ==> Remaining(s'.devs) < Remaining(s.devs))
            && (!more ==> s'.devs == s.devs && FirstIncomplete(s.devs) == |s.devs|)
  {
    var i := FirstIncomplete(s.devs);
    if i < |s.devs| {
      StepDeviceProgress(s, i, async, junk);
      OneDeviceProgress(s.devs, StepDevice(s, i, async, junk).devs, i);
    }
  }

  lemma OneDeviceProgress(devs: seq<Device>, devs': seq<Device>, i: nat)
    requires i < |devs| == |devs'| && devs' == devs[i := devs'[i]] && AllAligned(devs)
    requires Aligned(devs'[i]) && Left(devs'[i]) < Left(devs[i])
    ensures AllAligned(devs') && Remaining(devs') < Remaining(devs)
  {
    RemainingUpdate(devs, i, devs'[i]);
  }

  /** The rate-controlled asynchronous bulk loop. */
  function BulkLoop(s: State, rate: int, junk: Junk): State
    requires s.totalSum > 0 && AllAligned(s.devs)
    decreases Remaining(s.devs)
  {
    if (s.submitted + s.readDone) * 0x10_0000 < rate then
      BulkStepProgress(s, true, junk);
      var (s', more) := SaveBulkedBlock(s, true, junk);
      if more then BulkLoop(s', rate, junk) else s'
    else s
  }

  /** How many more reads the loop starts with so many outstanding. */
  function Room(outstanding: int, rate: int): nat {
    if rate <= outstanding * 0x10_0000 then 0 else (rate - outstanding * 0x10_0000 + 0xf_ffff) / 0x10_0000
  }

  lemma RoomOne(outstanding: int, rate: int)
    ensures Room(outstanding, rate) > 0 <==> outstanding * 0x10_0000 < rate
    ensures outstanding * 0x10_0000 < rate ==> Room(outstanding + 1, rate) == Room(outstanding, rate) - 1
  {
  }

  /** Stage 3 finishes the bulk phase synchronously. */
  function SyncBulk(s: State, junk: Junk): State
    requires s.totalSum > 0 && AllAligned(s.devs)
    decreases Remaining(s.devs)
  {
    BulkStepProgress(s, false, junk);
    var (s', more) := SaveBulkedBlock(s, false, junk);
    if more then SyncBulk(s', junk) else s'
  }

  /** Answers of the rate limiter and the allocator during one call. */
  datatype Env = Env(quota1: nat, rate: int, quota2: nat, junk: Junk)

  /** The part of block_save_live common to every stage: flush, bulk loop, flush. */
  function Pump(s: State, env: Env): State
    requires s.totalSum > 0 && AllAligned(s.devs)
  {
    var s1 := FlushBlocks(s, env.quota1);
    FlushFrame(s, env.quota1);
    if s1.err then s1
    else FlushBlocks(BulkLoop(s1, env.rate, env.junk), env.quota2)
  }

  lemma {:induction false} FlushFrame(s: State, quota: nat)
    ensures var s' := FlushBlocks(s, quota);
            s' == s.(queue := s'.queue, readDone := s'.readDone, transferred := s'.transferred,
                     out := s'.out, err := s'.err)
    decreases |s.queue|
  {
    if s.queue != [] && quota > 0 && s.queue[0].ret >= 0 {
      FlushFrame(FlushOne(s), quota - 1);
    }
  }

  /** The dirty pass over one device, from `sector` on. A dirty chunk that sticks
      out of the device cannot be read whole, which is a read error. */
  function DirtyDevice(s: State, i: nat, sector: nat): State
    requires i < |s.devs|
    decreases s.devs[i].cur - sector
  {
    var d := s.devs[i];
    if sector >= d.cur then s
    else if sector / 2048 !in d.dirty then DirtyDevice(s, i, sector + 2048)
    else if sector + 2048 > |d.image| then s.(err := true)
    else
      var buf: ChunkBuf := d.image[sector..sector + 2048];
      var s1 := SendBlock(s, i, sector, buf);
      DirtyDevice(s1.(devs := s.devs[i := d.(dirty := d.dirty - ChunksOf(sector, 2048))]), i, sector + 2048)
  }

  lemma {:induction false} DirtyDeviceFrame(s: State, i: nat, sector: nat)
    requires i < |s.devs|
    ensures var s' := DirtyDevice(s, i, sector);
            && s' == s.(devs := s'.devs, out := s'.out, err := s'.err)
            && |s'.devs| == |s.devs| && s'.devs[i] == s.devs[i].(dirty := s'.devs[i].dirty)
            && s'.devs == s.devs[i := s'.devs[i]]
    decreases s.devs[i].cur - sector
  {
    var d := s.devs[i];
    if sector < d.cur {
      if sector / 2048 !in d.dirty {
        DirtyDeviceFrame(s, i, sector + 2048);
      } else if sector + 2048 <= |d.image| {
        var s1 := SendBlock(s, i, sector, d.image[sector..sector + 2048]);
        DirtyDeviceFrame(s1.(devs := s.devs[i := d.(dirty := d.dirty - ChunksOf(sector, 2048))]), i, sector + 2048);
      }
    }
  }

  function DirtyPass(s: State, i: nat): State
    requires i <= |s.devs|
    decreases |s.devs| - i
  {
    if i == |s.devs| then s
    else
      var s' := DirtyDevice(s, i, 0);
      DirtyDeviceFrame(s, i, 0);
      if s'.err then s' else DirtyPass(s', i + 1)
  }

  /** Stage 3 after the common part: finish, resend, clean up, report. */
  function Complete(s: State, junk: Junk): State
    requires s.totalSum > 0 && AllAligned(s.devs)
  {
    var s' := DirtyPass(SyncBulk(s, junk), 0);
    s'.(devs := [], queue := [], out := s'.out + [Progress(100)] + (if s'.err then [] else [EndOfSection]))
  }

  // ------------------------------------------------------------------ receiver

  /** The receiver always writes a whole chunk; the block layer refuses one that
      sticks out of the device, and the refusal is ignored. */
  function Apply(r: seq<Image>, rec: Record): (r': seq<Image>)
    ensures |r'| == |r|
    ensures forall i :: 0 <= i < |r| ==> |r'[i]| == |r[i]|
  {
    match rec
    case DeviceBlock(dev, sector, data) =>
      if dev < |r| && sector + 2048 <= |r[dev]|
      then r[dev := WriteSectors(r[dev], sector, data)] else r
    case _ => r
  }

  function Receive(r: seq<Image>, out: seq<Record>): (r': seq<Image>)
    ensures |r'| == |r|
    ensures forall i :: 0 <= i < |r| ==> |r'[i]| == |r[i]|
  {
    if out == [] then r else Apply(Receive(r, out[..|out| - 1]), out[|out| - 1])
  }

  lemma ReceiveOne(r: seq<Image>, out: seq<Record>, rec: Record)
    ensures Receive(r, out + [rec]) == Apply(Receive(r, out), rec)
  {
    assert (out + [rec])[..|out|] == out;
  }
}
