/**
 What the last stage loses, told from the state it is called in: blocks it will not send,
 among them those its own asynchronous loop still starts, are dropped, and a sector is lost
 if the receiver lacks it and nothing makes up for it.
 */
module MigrationLoss {
  import opened Disk
  import opened MigrationProtocol
  import opened MigrationConvergence
  import opened MigrationTheorems

  // ------------------------------------------------------------------ the walk ahead

  /** The bulk walk has not come to chunk c of the device, and will read it. */
  predicate Unread(d: Device, c: nat) {
    && d.cur <= c * 2048 < |d.image|
    && (d.shared ==> exists k: nat :: k in d.alloc && c * 2048 <= k < |d.image| && k < c * 2048 + 2048)
  }

  /** How many chunks below c the walk will read. */
  function Count(d: Device, c: nat): nat {
    if c == 0 then 0 else Count(d, c - 1) + if Unread(d, c - 1) then 1 else 0
  }

  /** How many chunks of the devices before device i. */
  function CountBefore(devs: seq<Device>, i: nat): nat
    requires i <= |devs|
  {
    if i == 0 then 0 else CountBefore(devs, i - 1) + Count(devs[i - 1], |devs[i - 1].image|)
  }

  /** Chunk c of device i is among the next n chunks the walk will read. */
  predicate Ahead(devs: seq<Device>, n: nat, i: nat, c: nat) {
    i < |devs| && Unread(devs[i], c) && CountBefore(devs, i) + Count(devs[i], c) < n
  }

  lemma {:induction false} CountNone(d: Device, c: nat)
    requires forall x: nat :: x < c ==> !Unread(d, x)
    ensures Count(d, c) == 0
  {
    if c > 0 { CountNone(d, c - 1); }
  }

  /** One chunk fewer to read. */
  ghost predicate Fewer(d: Device, d': Device, c: nat) {
    && |d'.image| == |d.image| && c < |d.image|
    && Unread(d, c) && (forall x: nat :: x < c ==> !Unread(d, x))
    && forall x: nat :: Unread(d', x) <==> Unread(d, x) && x != c
  }

  lemma {:induction false} CountFewer(d: Device, d': Device, c: nat, e: nat)
    requires Fewer(d, d', c)
    ensures Count(d', e) == Count(d, e) - if c < e then 1 else 0
  {
    if e > 0 { CountFewer(d, d', c, e - 1); }
  }

  lemma {:induction false} CountSame(d: Device, d': Device, e: nat)
    requires forall x: nat :: Unread(d', x) == Unread(d, x)
    ensures Count(d', e) == Count(d, e)
  {
    if e > 0 { CountSame(d, d', e - 1); }
  }

  lemma DoneNone(d: Device)
    requires Aligned(d) && d.bulkDone
    ensures forall c: nat :: !Unread(d, c)
  {
  }

  lemma {:induction false} CountBeforeNone(devs: seq<Device>, i: nat)
    requires i <= |devs| && AllAligned(devs) && forall j :: 0 <= j < i ==> devs[j].bulkDone
    ensures CountBefore(devs, i) == 0
  {
    if i > 0 {
      CountBeforeNone(devs, i - 1);
      DoneNone(devs[i - 1]);
      CountNone(devs[i - 1], |devs[i - 1].image|);
    }
  }

  lemma {:induction false} CountBeforeFewer(devs: seq<Device>, devs': seq<Device>, i: nat, c: nat, j: nat)
    requires i < |devs| == |devs'| && devs' == devs[i := devs'[i]] && Fewer(devs[i], devs'[i], c) && j <= |devs|
    ensures CountBefore(devs', j) == CountBefore(devs, j) - if i < j then 1 else 0
  {
    if j > 0 {
      CountBeforeFewer(devs, devs', i, c, j - 1);
      if i == j - 1 { CountFewer(devs[i], devs'[i], c, |devs[i].image|); }
    }
  }

  lemma {:induction false} CountBeforeSame(devs: seq<Device>, devs': seq<Device>, i: nat, j: nat)
    requires i < |devs| == |devs'| && devs' == devs[i := devs'[i]] && |devs'[i].image| == |devs[i].image|
    requires j <= |devs| && forall x: nat :: Unread(devs'[i], x) == Unread(devs[i], x)
    ensures CountBefore(devs', j) == CountBefore(devs, j)
  {
    if j > 0 {
      CountBeforeSame(devs, devs', i, j - 1);
      if i == j - 1 { CountSame(devs[i], devs'[i], |devs[i].image|); }
    }
  }

  /** The first unfinished device reads its next chunk: that one, and one fewer after it. */
  lemma AheadRead(devs: seq<Device>, devs': seq<Device>, i: nat, c: nat, n: nat, j: nat, e: nat)
    requires i < |devs| == |devs'| && devs' == devs[i := devs'[i]] && Fewer(devs[i], devs'[i], c)
    requires AllAligned(devs) && (forall x :: 0 <= x < i ==> devs[x].bulkDone) && n > 0
    ensures Ahead(devs, n, j, e) <==> (j == i && e == c) || Ahead(devs', n - 1, j, e)
  {
    CountBeforeNone(devs, i);
    CountNone(devs[i], c);
    if j < |devs| {
      CountBeforeFewer(devs, devs', i, c, j);
      if j == i {
        CountFewer(devs[i], devs'[i], c, e);
      } else if j < i {
        DoneNone(devs[j]);
      }
    }
  }

  lemma AheadSkip(devs: seq<Device>, devs': seq<Device>, i: nat, n: nat, j: nat, e: nat)
    requires i < |devs| == |devs'| && devs' == devs[i := devs'[i]] && |devs'[i].image| == |devs[i].image|
    requires forall x: nat :: !Unread(devs[i], x) && !Unread(devs'[i], x)
    ensures Ahead(devs, n, j, e) <==> Ahead(devs', n, j, e)
  {
    if j < |devs| { CountBeforeSame(devs, devs', i, j); }
  }

  /** What a bulk step does to the walk: a chunk is read, or there is none left. */
  lemma StepFewer(d: Device, d': Device)
    requires Aligned(d) && Stepped(d, d')
    ensures BulkAt(d) < |d.image| ==>
              var c := BulkAt(d) / 2048;
              Fewer(d, d', c) && d'.dirty == d.dirty - {c} && d.cur <= c * 2048 < d'.cur
    ensures BulkAt(d) >= |d.image| ==> forall x: nat :: !Unread(d, x) && !Unread(d', x)
  {
    FirstAllocatedSpec(d, d.cur);
    BulkAtSpec(d);
    var at := BulkAt(d);
    if at < |d.image| {
      var c := at / 2048;
      assert ChunksOf(c * 2048, Min(2048, |d.image| - c * 2048)) == {c};
      forall x: nat | x < c ensures !Unread(d, x) {}
      forall x: nat ensures Unread(d', x) <==> Unread(d, x) && x != c {}
    }
  }

  // ------------------------------------------------------------------ the asynchronous loop

  /** Device d' after the walk has read the next n chunks. */
  ghost predicate WalkedDevice(devs: seq<Device>, n: nat, i: nat, d': Device)
    requires i < |devs|
  {
    && d'.image == devs[i].image && devs[i].cur <= d'.cur
    && forall c: nat ::
         && (c in d'.dirty <==> c in devs[i].dirty && !Ahead(devs, n, i, c))
         && (Ahead(devs, n, i, c) ==> c * 2048 < d'.cur)
  }

  /** The state s' after the loop has started the next n reads from s. */
  ghost predicate Walked(s: State, s': State, n: nat) {
    && |s'.devs| == |s.devs| && s'.queue == s.queue
    && (forall i: nat, c: nat ::
          Waiting(s'.inflight, i, c) <==> Waiting(s.inflight, i, c) || Ahead(s.devs, n, i, c))
    && forall i :: 0 <= i < |s.devs| ==> WalkedDevice(s.devs, n, i, s'.devs[i])
  }

  /** One turn of the loop, of device i. */
  ghost predicate Started(s: State, s1: State, i: nat) {
    && i < |s.devs| == |s1.devs| && s1.devs == s.devs[i := s1.devs[i]] && Stepped(s.devs[i], s1.devs[i])
    && s1.queue == s.queue && s1.readDone == s.readDone
    && s1.submitted - s.submitted == |s1.inflight| - |s.inflight|
    && if BulkAt(s.devs[i]) < |s.devs[i].image|
       then |s1.inflight| == |s.inflight| + 1 && s1.inflight[..|s.inflight|] == s.inflight
            && For(s1.inflight[|s.inflight|], i, BulkAt(s.devs[i]) / 2048)
       else s1.inflight == s.inflight
  }

  lemma StartsOne(s: State, junk: Junk)
    requires Runnable(s) && FirstIncomplete(s.devs) < |s.devs|
    ensures Started(s, SaveBulkedBlock(s, true, junk).0, FirstIncomplete(s.devs))
  {
    var i := FirstIncomplete(s.devs);
    StepShape(s, i, true, junk);
    BulkDeviceEffect(s, i, true, junk);
    StartCounts(s, i, junk);
  }

  lemma StartCounts(s: State, i: nat, junk: Junk)
    requires i < |s.devs| && Aligned(s.devs[i])
    ensures var s1 := SaveDeviceBulk(s, i, true, junk).0;
            s1.readDone == s.readDone && s1.submitted - s.submitted == |s1.inflight| - |s.inflight|
  {
  }

  lemma WaitingOneMore(bs: seq<Block>, bs': seq<Block>, i: nat, c: nat)
    requires |bs'| == |bs| + 1 && bs'[..|bs|] == bs
    ensures Waiting(bs', i, c) <==> Waiting(bs, i, c) || For(bs'[|bs|], i, c)
  {
    if Waiting(bs, i, c) { var j :| 0 <= j < |bs| && For(bs[j], i, c); assert For(bs'[j], i, c); }
    if Waiting(bs', i, c) { var j :| 0 <= j < |bs'| && For(bs'[j], i, c); assert j < |bs| ==> For(bs[j], i, c); }
  }

  lemma WalkedRead(s: State, s1: State, s': State, i: nat, n: nat)
    requires AllAligned(s.devs) && Started(s, s1, i) && BulkAt(s.devs[i]) < |s.devs[i].image|
    requires (forall x :: 0 <= x < i ==> s.devs[x].bulkDone) && n > 0 && Walked(s1, s', n - 1)
    ensures Walked(s, s', n)
  {
    var c := BulkAt(s.devs[i]) / 2048;
    StepFewer(s.devs[i], s1.devs[i]);
    forall j: nat, e: nat
      ensures Ahead(s.devs, n, j, e) <==> (j == i && e == c) || Ahead(s1.devs, n - 1, j, e)
      ensures Waiting(s1.inflight, j, e) <==> Waiting(s.inflight, j, e) || (j == i && e == c)
    {
      AheadRead(s.devs, s1.devs, i, c, n, j, e);
      WaitingOneMore(s.inflight, s1.inflight, j, e);
    }
    forall j | 0 <= j < |s.devs| ensures WalkedDevice(s.devs, n, j, s'.devs[j]) {
      assert WalkedDevice(s1.devs, n - 1, j, s'.devs[j]);
    }
  }

  lemma WalkedSkip(s: State, s1: State, s': State, i: nat, n: nat)
    requires AllAligned(s.devs) && Started(s, s1, i) && BulkAt(s.devs[i]) >= |s.devs[i].image|
    requires Walked(s1, s', n)
    ensures Walked(s, s', n)
  {
    StepFewer(s.devs[i], s1.devs[i]);
    forall j: nat, e: nat ensures Ahead(s.devs, n, j, e) <==> Ahead(s1.devs, n, j, e) {
      AheadSkip(s.devs, s1.devs, i, n, j, e);
    }
    forall j | 0 <= j < |s.devs| ensures WalkedDevice(s.devs, n, j, s'.devs[j]) {
      assert WalkedDevice(s1.devs, n, j, s'.devs[j]);
    }
  }

  lemma AllRead(devs: seq<Device>, n: nat, i: nat, c: nat)
    requires AllAligned(devs) && FirstIncomplete(devs) == |devs|
    ensures !Ahead(devs, n, i, c)
  {
    if i < |devs| { DoneNone(devs[i]); }
  }

  lemma WalkedNone(s: State, s': State, n: nat)
    requires s'.devs == s.devs && s'.queue == s.queue && s'.inflight == s.inflight
    requires n == 0 || (AllAligned(s.devs) && FirstIncomplete(s.devs) == |s.devs|)
    ensures Walked(s, s', n)
  {
    forall j: nat, e: nat ensures !Ahead(s.devs, n, j, e) { if n > 0 { AllRead(s.devs, n, j, e); } }
  }

  lemma WalkedOne(s: State, s1: State, s': State, rate: int)
    requires AllAligned(s.devs) && Started(s, s1, FirstIncomplete(s.devs))
    requires (s.submitted + s.readDone) * 0x10_0000 < rate
    requires Walked(s1, s', Room(s1.submitted + s1.readDone, rate))
    ensures Walked(s, s', Room(s.submitted + s.readDone, rate))
  {
    var i, n := FirstIncomplete(s.devs), Room(s.submitted + s.readDone, rate);
    RoomOne(s.submitted + s.readDone, rate);
    if BulkAt(s.devs[i]) < |s.devs[i].image| {
      WalkedRead(s, s1, s', i, n);
    } else {
      WalkedSkip(s, s1, s', i, n);
    }
  }

  lemma ReportsOnly(s: State, junk: Junk)
    requires s.totalSum > 0 && FirstIncomplete(s.devs) == |s.devs|
    ensures var (s1, more) := SaveBulkedBlock(s, true, junk);
            !more && s1.devs == s.devs && s1.queue == s.queue && s1.inflight == s.inflight
  {
  }

  lemma LoopOpens(s: State, rate: int, junk: Junk)
    requires Runnable(s) && (s.submitted + s.readDone) * 0x10_0000 < rate
    ensures var (s1, more) := SaveBulkedBlock(s, true, junk);
            && Runnable(s1) && (more ==> Remaining(s1.devs) < Remaining(s.devs))
            && (more <==> FirstIncomplete(s.devs) < |s.devs|)
            && BulkLoop(s, rate, junk) == if more then BulkLoop(s1, rate, junk) else s1
  {
    BulkStepProgress(s, true, junk);
  }

  /** The loop starts the reads there is room for, in the order of the walk, and no others. */
  lemma {:induction false} LoopWalks(s: State, rate: int, junk: Junk)
    requires Runnable(s)
    ensures Walked(s, BulkLoop(s, rate, junk), Room(s.submitted + s.readDone, rate))
    decreases Remaining(s.devs)
  {
    if (s.submitted + s.readDone) * 0x10_0000 < rate {
      LoopOpens(s, rate, junk);
      var s1 := SaveBulkedBlock(s, true, junk).0;
      if FirstIncomplete(s.devs) < |s.devs| {
        StartsOne(s, junk);
        LoopWalks(s1, rate, junk);
        WalkedOne(s, s1, BulkLoop(s1, rate, junk), rate);
      } else {
        ReportsOnly(s, junk);
        WalkedNone(s, s1, Room(s.submitted + s.readDone, rate));
      }
    } else {
      WalkedNone(s, s, 0);
    }
  }

  // ------------------------------------------------------------------ what the receiver gets

  function Deliver(r: seq<Image>, b: Block): (r': seq<Image>)
    ensures |r'| == |r| && forall i :: 0 <= i < |r| ==> |r'[i]| == |r[i]|
  {
    Apply(r, DeviceBlock(b.dev, b.sector, b.buf))
  }

  /** The receiver's images after the first n blocks, in order. */
  function Delivered(r: seq<Image>, bs: seq<Block>, n: nat): (r': seq<Image>)
    requires n <= |bs|
    ensures |r'| == |r| && forall i :: 0 <= i < |r| ==> |r'[i]| == |r[i]|
  {
    if n == 0 then r else Deliver(Delivered(r, bs, n - 1), bs[n - 1])
  }

  lemma {:induction false} DeliveredNext(r: seq<Image>, bs: seq<Block>, n: nat)
    requires 0 < n <= |bs|
    ensures Delivered(r, bs, n) == Delivered(Deliver(r, bs[0]), bs[1..], n - 1)
  {
    if n > 1 {
      DeliveredNext(r, bs, n - 1);
      assert bs[1..][n - 2] == bs[n - 1];
    }
  }

  lemma {:induction false} DeliveredOn(r: seq<Image>, bs: seq<Block>, n1: nat, n2: nat)
    requires n1 + n2 <= |bs|
    ensures Delivered(Delivered(r, bs, n1), bs[n1..], n2) == Delivered(r, bs, n1 + n2)
  {
    if n2 > 0 {
      DeliveredOn(r, bs, n1, n2 - 1);
      assert bs[n1..][n2 - 1] == bs[n1 + n2 - 1];
    }
  }

  lemma FlushOneDelivers(s: State, r0: seq<Image>)
    requires s.queue != []
    ensures Receive(r0, FlushOne(s).out) == Deliver(Receive(r0, s.out), s.queue[0])
  {
    var b := s.queue[0];
    ReceiveOne(r0, s.out, DeviceBlock(b.dev, b.sector, b.buf));
  }

  lemma LaterInReach(queue: seq<Block>, quota: nat)
    requires queue != [] && quota > 0 && !FailedInReach(queue, quota)
    ensures queue[0].ret >= 0 && !FailedInReach(queue[1..], quota - 1)
  {
    var tail := queue[1..];
    forall j | 0 <= j < |tail| && j < quota - 1 ensures tail[j].ret >= 0 { assert queue[j + 1].ret >= 0; }
  }

  /** Whatever one block sent does to an observation, a flush does for the blocks it sends. */
  lemma {:induction false} FlushFolds(seen: State -> seq<Image>, s: State, quota: nat, n: nat)
    requires !FailedInReach(s.queue, quota) && n == Min(quota, |s.queue|)
    requires forall x: State {:trigger FlushOne(x)} :: x.queue != [] ==>
               seen(FlushOne(x)) == Deliver(seen(x), x.queue[0])
    ensures seen(FlushBlocks(s, quota)) == Delivered(seen(s), s.queue, n)
    decreases |s.queue|
  {
    if n > 0 {
      LaterInReach(s.queue, quota);
      FlushFolds(seen, FlushOne(s), quota - 1, n - 1);
      DeliveredNext(seen(s), s.queue, n);
    }
  }

  lemma FlushDelivers(s: State, quota: nat, r0: seq<Image>, n: nat)
    requires !FailedInReach(s.queue, quota) && n == Min(quota, |s.queue|)
    ensures Receive(r0, FlushBlocks(s, quota).out) == Delivered(Receive(r0, s.out), s.queue, n)
  {
    var seen := (x: State) => Receive(r0, x.out);
    forall x: State | x.queue != [] ensures seen(FlushOne(x)) == Deliver(seen(x), x.queue[0]) {
      FlushOneDelivers(x, r0);
    }
    FlushFolds(seen, s, quota, n);
  }

  lemma ReportReceived(s: State, sum: nat, r0: seq<Image>)
    requires s.totalSum > 0
    ensures Receive(r0, ReportProgress(s, sum).out) == Receive(r0, s.out)
  {
    ReceiveOne(r0, s.out, Progress(Percent(sum, s.totalSum)));
  }

  lemma StepReceived(s: State, async: bool, junk: Junk, r0: seq<Image>)
    requires s.totalSum > 0
    ensures var i := FirstIncomplete(s.devs);
            var out := if i < |s.devs| then SaveDeviceBulk(s, i, async, junk).0.out else s.out;
            Receive(r0, SaveBulkedBlock(s, async, junk).0.out) == Receive(r0, out)
  {
    var i := FirstIncomplete(s.devs);
    if i < |s.devs| {
      var s1 := StepDevice(s, i, async, junk);
      ReportReceived(s1, CompletedSum(s1.devs[..i + 1]), r0);
    } else {
      ReportReceived(s, CompletedSum(s.devs), r0);
    }
  }

  /** The asynchronous loop sends nothing but reports. */
  lemma {:induction false} LoopReceived(s: State, rate: int, junk: Junk, r0: seq<Image>)
    requires Runnable(s)
    ensures Receive(r0, BulkLoop(s, rate, junk).out) == Receive(r0, s.out)
    decreases Remaining(s.devs)
  {
    if (s.submitted + s.readDone) * 0x10_0000 < rate {
      LoopOpens(s, rate, junk);
      var i := FirstIncomplete(s.devs);
      StepReceived(s, true, junk, r0);
      if i < |s.devs| {
        BulkOutput(s, i, true, junk);
        LoopReceived(SaveBulkedBlock(s, true, junk).0, rate, junk, r0);
      }
    }
  }

  // ------------------------------------------------------------------ behind the walk

  predicate SameChunk(r: Image, r': Image, c: nat) {
    |r'| == |r| && forall k: nat :: k < |r| && k / 2048 == c ==> r'[k] == r[k]
  }

  /** What lies behind the walk of d stays as it is. */
  ghost predicate Past(d: Device, d': Device, r: Image, r': Image) {
    d.cur <= d'.cur && forall c: nat :: c * 2048 < d.cur ==> (c in d'.dirty <==> c in d.dirty) && SameChunk(r, r', c)
  }

  ghost predicate AllPast(s: State, s': State, r: seq<Image>, r': seq<Image>) {
    && |s'.devs| == |s.devs| == |r| == |r'|
    && forall i :: 0 <= i < |s.devs| ==> Past(s.devs[i], s'.devs[i], r[i], r'[i])
  }

  lemma PastStep(d: Device, d': Device, r: Image, r': Image)
    requires Aligned(d) && Stepped(d, d') && BulkImage(d, false, r, r')
    ensures Past(d, d', r, r')
  {
    StepFewer(d, d');
    BulkAtSpec(d);
    forall c: nat | c * 2048 < d.cur ensures SameChunk(r, r', c) {
      forall k: nat | k < |r| && k / 2048 == c ensures r'[k] == r[k] {}
    }
  }

  lemma OnePast(s: State, s1: State, i: nat, r: seq<Image>, r': seq<Image>)
    requires i < |s.devs| == |s1.devs| == |r| == |r'| && s1.devs == s.devs[i := s1.devs[i]]
    requires Past(s.devs[i], s1.devs[i], r[i], r'[i]) && forall j :: 0 <= j < |r| && j != i ==> r'[j] == r[j]
    ensures AllPast(s, s1, r, r')
  {
    forall j | 0 <= j < |s.devs| ensures Past(s.devs[j], s1.devs[j], r[j], r'[j]) {}
  }

  lemma StepBulked(s: State, async: bool, junk: Junk)
    requires s.totalSum > 0 && FirstIncomplete(s.devs) < |s.devs|
    ensures SaveBulkedBlock(s, async, junk).0.devs == StepDevice(s, FirstIncomplete(s.devs), async, junk).devs
  {
  }

  /** The receiver's images have the sizes of the devices. */
  predicate Sized(devs: seq<Device>, r: seq<Image>) {
    |r| == |devs| && forall i :: 0 <= i < |r| ==> |r[i]| == |devs[i].image|
  }

  lemma SyncStepOne(s: State, junk: Junk, r0: seq<Image>, i: nat) returns (s1: State)
    requires Runnable(s) && Sized(s.devs, r0) && i == FirstIncomplete(s.devs) < |s.devs|
    ensures s1 == SaveBulkedBlock(s, false, junk).0
    ensures |s1.devs| == |s.devs| && s1.devs == s.devs[i := s1.devs[i]] && Stepped(s.devs[i], s1.devs[i])
    ensures var r, r' := Receive(r0, s.out), Receive(r0, s1.out);
            BulkImage(s.devs[i], false, r[i], r'[i]) && forall j :: 0 <= j < |r| && j != i ==> r'[j] == r[j]
  {
    s1 := SaveBulkedBlock(s, false, junk).0;
    StepReceived(s, false, junk, r0);
    StepBulked(s, false, junk);
    StepShape(s, i, false, junk);
    BulkImageEffect(s, i, false, junk, r0);
  }

  lemma SyncStepNone(s: State, junk: Junk, r0: seq<Image>) returns (s1: State)
    requires s.totalSum > 0 && FirstIncomplete(s.devs) == |s.devs|
    ensures s1 == SaveBulkedBlock(s, false, junk).0 && s1.devs == s.devs && Receive(r0, s1.out) == Receive(r0, s.out)
  {
    s1 := SaveBulkedBlock(s, false, junk).0;
    StepReceived(s, false, junk, r0);
  }

  lemma NonePast(s: State, s1: State, r: seq<Image>)
    requires s1.devs == s.devs && |r| == |s.devs|
    ensures AllPast(s, s1, r, r)
  {
  }

  lemma SyncStepPast(s: State, junk: Junk, r0: seq<Image>) returns (s1: State)
    requires Runnable(s) && Sized(s.devs, r0)
    ensures s1 == SaveBulkedBlock(s, false, junk).0
    ensures AllPast(s, s1, Receive(r0, s.out), Receive(r0, s1.out))
  {
    var i := FirstIncomplete(s.devs);
    if i < |s.devs| {
      s1 := SyncStepOne(s, junk, r0, i);
      var r, r' := Receive(r0, s.out), Receive(r0, s1.out);
      PastStep(s.devs[i], s1.devs[i], r[i], r'[i]);
      OnePast(s, s1, i, r, r');
    } else {
      s1 := SyncStepNone(s, junk, r0);
      NonePast(s, s1, Receive(r0, s.out));
    }
  }

  lemma AllPastTrans(s: State, s1: State, s': State, r: seq<Image>, r1: seq<Image>, r': seq<Image>)
    requires AllPast(s, s1, r, r1) && AllPast(s1, s', r1, r')
    ensures AllPast(s, s', r, r')
  {
    forall i | 0 <= i < |s.devs| ensures Past(s.devs[i], s'.devs[i], r[i], r'[i]) {
      assert Past(s.devs[i], s1.devs[i], r[i], r1[i]) && Past(s1.devs[i], s'.devs[i], r1[i], r'[i]);
      forall c: nat | c * 2048 < s.devs[i].cur
        ensures (c in s'.devs[i].dirty <==> c in s.devs[i].dirty) && SameChunk(r[i], r'[i], c)
      {
        assert SameChunk(r[i], r1[i], c) && SameChunk(r1[i], r'[i], c);
      }
    }
  }

  lemma SyncOpens(s: State, junk: Junk)
    requires Runnable(s)
    ensures var (s1, more) := SaveBulkedBlock(s, false, junk);
            && Runnable(s1) && (more ==> Remaining(s1.devs) < Remaining(s.devs))
            && SyncBulk(s, junk) == if more then SyncBulk(s1, junk) else s1
  {
    BulkStepProgress(s, false, junk);
  }

  /** The synchronous phase only touches what lies ahead. */
  lemma {:induction false} SyncPast(s: State, junk: Junk, r0: seq<Image>) returns (s': State)
    requires Inv(s, r0) && Runnable(s)
    ensures s' == SyncBulk(s, junk) && AllPast(s, s', Receive(r0, s.out), Receive(r0, s'.out))
    decreases Remaining(s.devs)
  {
    SyncOpens(s, junk);
    InvLengths(s, r0);
    var s1 := SyncStepPast(s, junk, r0);
    if SaveBulkedBlock(s, false, junk).1 {
      BulkBlockKeeps(s, false, junk, r0);
      s' := SyncPast(s1, junk, r0);
      AllPastTrans(s, s1, s', Receive(r0, s.out), Receive(r0, s1.out), Receive(r0, s'.out));
    } else {
      s' := s1;
    }
  }

  // ------------------------------------------------------------------ told before the call

  /** How many queued blocks the call's two flushes send. */
  function Reach(s: State, env: Env): (n: nat)
    ensures n <= |s.queue|
  {
    Min(env.quota1 + env.quota2, |s.queue|)
  }

  /** How many reads its asynchronous loop has room for, after the first flush. */
  function Fresh(s: State, env: Env): nat {
    Room(|s.inflight| + |s.queue| - Min(env.quota1, |s.queue|), env.rate)
  }

  /** A block of chunk c of device i will be dropped, and the dirty pass will not make up for
      it: the loop starts its read, or the chunk is clean and its read is in flight or stays
      queued. */
  predicate Dropped(s: State, env: Env, i: nat, c: nat)
    requires i < |s.devs|
  {
    || Ahead(s.devs, Fresh(s, env), i, c)
    || (c !in s.devs[i].dirty && (Waiting(s.inflight, i, c) || Waiting(s.queue[Reach(s, env)..], i, c)))
  }

  /** A flush that reaches no failed read: what it sends and what it leaves. */
  lemma FlushSends(s: State, quota: nat, r0: seq<Image>, n: nat) returns (p: State)
    requires !s.err && !FailedInReach(s.queue, quota) && n == Min(quota, |s.queue|)
    ensures p == FlushBlocks(s, quota) && !p.err && p.devs == s.devs && p.inflight == s.inflight
    ensures p.queue == s.queue[n..] && p.totalSum == s.totalSum
    ensures Receive(r0, p.out) == Delivered(Receive(r0, s.out), s.queue, n)
  {
    p := FlushBlocks(s, quota);
    FlushFrame(s, quota);
    FlushFailsIff(s, quota);
    FlushDelivers(s, quota, r0, n);
  }

  lemma FirstInReach(queue: seq<Block>, q1: nat, q2: nat)
    requires !FailedInReach(queue, q1 + q2)
    ensures !FailedInReach(queue, q1)
  {
    forall j | 0 <= j < |queue| && j < q1 ensures queue[j].ret >= 0 {}
  }

  lemma FlushedFirst(s: State, env: Env, r0: seq<Image>) returns (s1: State)
    requires Inv(s, r0) && Runnable(s) && !s.err && !FailedInReach(s.queue, env.quota1 + env.quota2)
    ensures s1 == FlushBlocks(s, env.quota1) && !s1.err && Runnable(s1) && s1.devs == s.devs
    ensures var n1 := Min(env.quota1, |s.queue|);
            && s1.inflight == s.inflight && s1.queue == s.queue[n1..]
            && Receive(r0, s1.out) == Delivered(Receive(r0, s.out), s.queue, n1)
    ensures Fresh(s, env) == Room(s1.submitted + s1.readDone, env.rate)
  {
    FirstInReach(s.queue, env.quota1, env.quota2);
    s1 := FlushSends(s, env.quota1, r0, Min(env.quota1, |s.queue|));
    FlushKeeps(s, env.quota1, r0);
    assert Accounted(s1);
    assert s1.submitted + s1.readDone == |s.inflight| + |s.queue| - Min(env.quota1, |s.queue|);
  }

  /** What the common part of the call leaves, from what it found. */
  lemma PumpTold(s: State, env: Env, r0: seq<Image>) returns (p: State)
    requires Inv(s, r0) && Runnable(s) && !s.err && !FailedInReach(s.queue, env.quota1 + env.quota2)
    ensures p == Pump(s, env) && !p.err && p.queue == s.queue[Reach(s, env)..]
    ensures Receive(r0, p.out) == Delivered(Receive(r0, s.out), s.queue, Reach(s, env))
  {
    var s1 := FlushedFirst(s, env, r0);
    p := PumpFrom(s, s1, env, r0);
  }

  lemma PumpFrom(s: State, s1: State, env: Env, r0: seq<Image>) returns (p: State)
    requires !FailedInReach(s.queue, env.quota1 + env.quota2) && !s1.err && Runnable(s1)
    requires var n1 := Min(env.quota1, |s.queue|);
             s1.queue == s.queue[n1..] && Receive(r0, s1.out) == Delivered(Receive(r0, s.out), s.queue, n1)
    ensures p == FlushBlocks(BulkLoop(s1, env.rate, env.junk), env.quota2)
    ensures !p.err && p.queue == s.queue[Reach(s, env)..]
    ensures Receive(r0, p.out) == Delivered(Receive(r0, s.out), s.queue, Reach(s, env))
  {
    var s2 := LoopLeaves(s1, env, r0);
    p := FlushedSecond(s.queue, Receive(r0, s.out), s2, env, Min(env.quota1, |s.queue|), Reach(s, env), r0);
  }

  lemma LoopLeaves(s1: State, env: Env, r0: seq<Image>) returns (s2: State)
    requires Runnable(s1)
    ensures s2 == BulkLoop(s1, env.rate, env.junk) && s2.queue == s1.queue && s2.err == s1.err
    ensures Receive(r0, s2.out) == Receive(r0, s1.out)
  {
    s2 := BulkLoop(s1, env.rate, env.junk);
    LoopReceived(s1, env.rate, env.junk, r0);
    BulkLoopFrame(s1, env.rate, env.junk);
  }

  lemma PumpWalks(s: State, env: Env, r0: seq<Image>, p: State)
    requires Inv(s, r0) && Runnable(s) && !s.err && !FailedInReach(s.queue, env.quota1 + env.quota2)
    requires p == Pump(s, env)
    ensures Walked(s, p.(queue := s.queue), Fresh(s, env))
  {
    var s1 := FlushedFirst(s, env, r0);
    FlushFrame(BulkLoop(s1, env.rate, env.junk), env.quota2);
    WalksOn(s, s1, p, env, Fresh(s, env));
  }

  lemma WalksOn(s: State, s1: State, p: State, env: Env, n: nat)
    requires Runnable(s1) && s1.devs == s.devs && s1.inflight == s.inflight
    requires n == Room(s1.submitted + s1.readDone, env.rate)
    requires var s2 := BulkLoop(s1, env.rate, env.junk); p.devs == s2.devs && p.inflight == s2.inflight
    ensures Walked(s, p.(queue := s.queue), n)
  {
    LoopWalks(s1, env.rate, env.junk);
    SameWalked(s, s1, BulkLoop(s1, env.rate, env.junk), p, n);
  }

  lemma SameWalked(s: State, s1: State, s2: State, p: State, n: nat)
    requires Walked(s1, s2, n) && s1.devs == s.devs && s1.inflight == s.inflight
    requires p.devs == s2.devs && p.inflight == s2.inflight
    ensures Walked(s, p.(queue := s.queue), n)
  {
  }

  lemma FlushedSecond(queue: seq<Block>, r: seq<Image>, s2: State, env: Env, n1: nat, n: nat, r0: seq<Image>)
    returns (p: State)
    requires !FailedInReach(queue, env.quota1 + env.quota2)
    requires n1 == Min(env.quota1, |queue|) && n == Min(env.quota1 + env.quota2, |queue|)
    requires !s2.err && s2.queue == queue[n1..] && Receive(r0, s2.out) == Delivered(r, queue, n1)
    ensures p == FlushBlocks(s2, env.quota2) && !p.err && p.queue == queue[n..]
    ensures Receive(r0, p.out) == Delivered(r, queue, n)
  {
    var rest := s2.queue;
    var n2 := Min(env.quota2, |rest|);
    RestInReach(queue, env.quota1, env.quota2, n1);
    p := FlushSends(s2, env.quota2, r0, n2);
    TwoParts(queue, rest, r, env.quota1, env.quota2, n1, n2, n);
  }

  lemma TwoParts(queue: seq<Block>, rest: seq<Block>, r: seq<Image>, q1: nat, q2: nat, n1: nat, n2: nat, n: nat)
    requires n1 == Min(q1, |queue|) && rest == queue[n1..] && n2 == Min(q2, |rest|) && n == Min(q1 + q2, |queue|)
    ensures rest[n2..] == queue[n..] && Delivered(Delivered(r, queue, n1), rest, n2) == Delivered(r, queue, n)
  {
    assert n == n1 + n2;
    DeliveredOn(r, queue, n1, n2);
  }

  lemma RestInReach(queue: seq<Block>, q1: nat, q2: nat, n1: nat)
    requires !FailedInReach(queue, q1 + q2) && n1 == Min(q1, |queue|)
    ensures !FailedInReach(queue[n1..], q2)
  {
    var rest := queue[n1..];
    forall j | 0 <= j < |rest| && j < q2 ensures rest[j].ret >= 0 { assert queue[n1 + j].ret >= 0; }
  }

  /** A pending block's chunk lies behind the walk. */
  lemma WaitingBehind(s: State, bs: seq<Block>, i: nat, c: nat)
    requires i < |s.devs| && BlocksInv(s, bs) && Waiting(bs, i, c)
    ensures c * 2048 < s.devs[i].cur
  {
    var j :| 0 <= j < |bs| && For(bs[j], i, c);
    assert BlockInv(s.devs[bs[j].dev], bs[j]);
  }

  /** Sector k of device i is lost by the call if and only if its block is dropped and the
      blocks that are still sent leave the receiver without it. */
  lemma LostIff(s: State, p: State, b: State, env: Env, i: nat, k: nat, r: Image, rb: Image)
    requires i < |s.devs| == |p.devs| == |b.devs| && |r| == |rb| == |s.devs[i].image|
    requires BlocksInv(s, s.inflight) && BlocksInv(s, s.queue) && k < |s.devs[i].image|
    requires p.queue == s.queue[Reach(s, env)..] && Walked(s, p.(queue := s.queue), Fresh(s, env))
    requires b.inflight == p.inflight && b.queue == p.queue && Past(p.devs[i], b.devs[i], r, rb)
    requires b.devs[i].image == s.devs[i].image && b.devs[i].cur == |s.devs[i].image|
    ensures Lost(b, i, k, rb) <==>
              InFullChunk(s.devs[i].image, k) && Dropped(s, env, i, k / 2048) && r[k] != s.devs[i].image[k]
  {
    var c, n := k / 2048, Fresh(s, env);
    assert WalkedDevice(s.devs, n, i, p.devs[i]);
    var rest := s.queue[Reach(s, env)..];
    assert Waiting(p.inflight, i, c) <==> Waiting(s.inflight, i, c) || Ahead(s.devs, n, i, c);
    if Waiting(s.inflight, i, c) { WaitingBehind(s, s.inflight, i, c); }
    if Waiting(rest, i, c) { WaitingBehind(s, rest, i, c); }
    if c * 2048 < p.devs[i].cur { assert SameChunk(r, rb, c); }
  }

  /** The receiver's disk after the last stage, told from the state the stage is called in,
      over every run: it equals the source's if and only if the partial last chunk agreed
      beforehand and no dropped block leaves the receiver without a sector. */
  lemma LossTold(s0: State, events: seq<Event>, s: State, env: Env, r0: seq<Image>, i: nat)
    requires Initial(s0, r0) && Reaches(s0, events, s) && Runnable(s) && !s.err
    requires !FailedInReach(s.queue, env.quota1 + env.quota2) && !AnyTailStays(s.devs) && i < |r0|
    ensures !FinalStage(s, env).err && |s.devs| == |r0| && |r0[i]| == |s.devs[i].image|
    ensures var r := Delivered(Receive(r0, s.out), s.queue, Reach(s, env));
            var image := s.devs[i].image;
            Receive(r0, FinalStage(s, env).out)[i] == image <==>
              && TailAgrees(image, r0[i])
              && forall k: nat :: k < |image| && InFullChunk(image, k) && Dropped(s, env, i, k / 2048) ==>
                   r[i][k] == image[k]
  {
    RunKeeps(s0, events, s, r0);
    FinalStageFailsIff(s, env, r0);
    InvLengths(s, r0);
    var p, b := LossesTold(s, env, r0, i);
    MigrationConverges(s0, events, s, env, r0);
  }

  /** The sectors of device i the call loses, one by one. */
  lemma LossesTold(s: State, env: Env, r0: seq<Image>, i: nat) returns (p: State, b: State)
    requires Inv(s, r0) && Runnable(s) && !s.err && i < |s.devs|
    requires !FailedInReach(s.queue, env.quota1 + env.quota2)
    ensures p == Pump(s, env) && !p.err && Runnable(p) && b == SyncBulk(p, env.junk)
    ensures |s.devs| == |r0| == |p.devs| == |b.devs| && p.devs[i].image == s.devs[i].image
    ensures |r0[i]| == |s.devs[i].image| == |b.devs[i].image|
    ensures var r, rb := Delivered(Receive(r0, s.out), s.queue, Reach(s, env)), Receive(r0, b.out);
            forall k: nat :: k < |s.devs[i].image| ==>
              (Lost(b, i, k, rb[i]) <==>
                 InFullChunk(s.devs[i].image, k) && Dropped(s, env, i, k / 2048) && r[i][k] != s.devs[i].image[k])
  {
    p := PumpTold(s, env, r0);
    PumpWalks(s, env, r0, p);
    PumpKeeps(s, env, r0);
    PumpRunnable(s, env);
    b := SyncPast(p, env.junk, r0);
    SyncBulkKeeps(p, env.junk, r0);
    InvLengths(s, r0);
    InvLengths(b, r0);
    var r, rb := Receive(r0, p.out), Receive(r0, b.out);
    assert WalkedDevice(s.devs, Fresh(s, env), i, p.devs[i]);
    assert Past(p.devs[i], b.devs[i], r[i], rb[i]);
    forall k: nat | k < |s.devs[i].image|
      ensures Lost(b, i, k, rb[i]) <==>
                InFullChunk(s.devs[i].image, k) && Dropped(s, env, i, k / 2048) && r[i][k] != s.devs[i].image[k]
    {
      LostIff(s, p, b, env, i, k, r[i], rb[i]);
    }
  }

  /** After a completed second stage only queued blocks can be dropped. */
  lemma StageTwoDrops(s: State, env: Env, r0: seq<Image>, i: nat, c: nat)
    requires Inv(s, r0) && Runnable(s) && Stage2Completed(s) && i < |s.devs|
    ensures Dropped(s, env, i, c) <==> c !in s.devs[i].dirty && Waiting(s.queue[Reach(s, env)..], i, c)
  {
    AllRead(s.devs, Fresh(s, env), i, c);
  }
}
