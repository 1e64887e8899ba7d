/**
 The migration driver in the form the source gives it: one object whose counters,
 device list and block list are updated by loops and callbacks. Every method is
 proved to compute the transition of the protocol it stands for.
 */
module MigrationDriver {
  import opened Disk
  import opened MigrationProtocol
  import opened MigrationConvergence
  import opened MigrationTheorems
  import opened MigrationRetry

  /** A block device of the virtual machine. */
  datatype BlockDevice = BlockDevice(isHd: bool, image: Image, alloc: set<nat>, dirty: set<nat>)

  /** Answers of bdrv_is_allocated: run lengths, per device and sector. */
  type Runs = (nat, nat) -> nat

  /** A run has at least one sector, stays inside the device and is uniform. */
  ghost predicate RunsCorrect(d: Device, i: nat, runs: Runs) {
    forall k: nat :: k < |d.image| ==>
      1 <= runs(i, k) <= |d.image| - k && forall m :: k <= m < k + runs(i, k) ==> (m in d.alloc <==> k in d.alloc)
  }

  ghost predicate AllRunsCorrect(devs: seq<Device>, runs: Runs) {
    forall i :: 0 <= i < |devs| ==> RunsCorrect(devs[i], i, runs)
  }

  lemma {:induction false} FirstAllocatedSkip(d: Device, from: nat, n: nat)
    requires from + n <= |d.image| && forall m :: from <= m < from + n ==> m !in d.alloc
    ensures FirstAllocated(d, from) == FirstAllocated(d, from + n)
    decreases n
  {
    if n > 0 { FirstAllocatedSkip(d, from + 1, n - 1); }
  }

  predicate Listed(d: BlockDevice) { d.isHd && |d.image| > 0 }

  function StartOf(bs: nat, d: BlockDevice, shared: bool): Device {
    Device(bs, d.image, shared, d.alloc, d.dirty, 0, 0, false)
  }

  /** The hard disks that have at least one sector, set up for a bulk walk. */
  function InitDevices(bs: seq<BlockDevice>, shared: bool): seq<Device> {
    if bs == [] then []
    else
      var n := |bs| - 1;
      InitDevices(bs[..n], shared) + (if Listed(bs[n]) then [StartOf(n, bs[n], shared)] else [])
  }

  function SectorSum(devs: seq<Device>): nat {
    if devs == [] then 0 else SectorSum(devs[..|devs| - 1]) + |devs[|devs| - 1].image|
  }

  lemma InitOne(bs: seq<BlockDevice>, n: nat, shared: bool)
    requires n < |bs|
    ensures var before, after := InitDevices(bs[..n], shared), InitDevices(bs[..n + 1], shared);
            if Listed(bs[n])
            then after == before + [StartOf(n, bs[n], shared)]
                 && SectorSum(after) == SectorSum(before) + |bs[n].image|
            else after == before
  {
    assert bs[..n + 1][..n] == bs[..n];
    var before, after := InitDevices(bs[..n], shared), InitDevices(bs[..n + 1], shared);
    if after != before { assert after[..|before|] == before; }
  }

  lemma {:induction false} InitDevicesFresh(bs: seq<BlockDevice>, shared: bool)
    ensures forall i :: 0 <= i < |InitDevices(bs, shared)| ==>
              var d := InitDevices(bs, shared)[i];
              |d.image| > 0 && d.cur == d.completed == 0 && !d.bulkDone && d.shared == shared && Aligned(d)
  {
    if bs != [] { InitDevicesFresh(bs[..|bs| - 1], shared); }
  }

  /** Block device k of the machine is on the migration's list. */
  predicate OnList(devs: seq<Device>, k: nat) {
    exists i :: 0 <= i < |devs| && devs[i].bs == k
  }

  /** The list holds exactly the hard disks with at least one sector. */
  lemma {:induction false} InitLists(bs: seq<BlockDevice>, shared: bool, k: nat)
    ensures OnList(InitDevices(bs, shared), k) <==> k < |bs| && Listed(bs[k])
  {
    if bs != [] {
      var n := |bs| - 1;
      InitLists(bs[..n], shared, k);
      var before, after := InitDevices(bs[..n], shared), InitDevices(bs, shared);
      assert before <= after;
      if OnList(before, k) { var i :| 0 <= i < |before| && before[i].bs == k; assert after[i].bs == k; }
      if OnList(after, k) { var i :| 0 <= i < |after| && after[i].bs == k; assert i < |before| ==> before[i].bs == k; }
      if Listed(bs[n]) { assert after[|before|].bs == n; }
    }
  }

  predicate SameAs(d: Device, b: BlockDevice, shared: bool) {
    d.image == b.image && d.alloc == b.alloc && d.dirty == b.dirty && d.shared == shared
  }

  /** The devices stand in the machine's order, each with the contents, the allocation and the dirty chunks it has
      there. */
  predicate InMachineOrder(devs: seq<Device>, bs: seq<BlockDevice>, shared: bool) {
    && (forall i :: 0 <= i < |devs| ==> devs[i].bs < |bs| && SameAs(devs[i], bs[devs[i].bs], shared))
    && (forall i, j :: 0 <= i < j < |devs| ==> devs[i].bs < devs[j].bs)
  }

  lemma {:induction false} InitInOrder(bs: seq<BlockDevice>, shared: bool)
    ensures InMachineOrder(InitDevices(bs, shared), bs, shared)
  {
    if bs != [] {
      var n := |bs| - 1;
      InitInOrder(bs[..n], shared);
      OneMoreInOrder(InitDevices(bs[..n], shared), bs, shared);
    }
  }

  lemma OneMoreInOrder(devs: seq<Device>, bs: seq<BlockDevice>, shared: bool)
    requires bs != [] && InMachineOrder(devs, bs[..|bs| - 1], shared)
    ensures var n := |bs| - 1;
            InMachineOrder(devs, bs, shared) && InMachineOrder(devs + [StartOf(n, bs[n], shared)], bs, shared)
  {
    forall i | 0 <= i < |devs| ensures devs[i].bs < |bs| && SameAs(devs[i], bs[devs[i].bs], shared) {
      assert SameAs(devs[i], bs[..|bs| - 1][devs[i].bs], shared);
    }
  }

  lemma {:induction false} SectorSumPositive(devs: seq<Device>)
    requires forall i :: 0 <= i < |devs| ==> |devs[i].image| > 0
    ensures SectorSum(devs) > 0 <==> devs != []
  {
    if devs != [] { SectorSumPositive(devs[..|devs| - 1]); }
  }

  /** block_save_live once the migration is initialised: the new state and the answer. */
  function SaveStage(s: State, stage: int, env: Env): (State, int)
    requires Runnable(s)
  {
    var p := Pump(s, env);
    PumpRunnable(s, env);
    if p.err then (p.(devs := [], queue := []), 0)
    else if stage == 3 then (Complete(p, env.junk), 0)
    else (p.(out := p.out + [EndOfSection]), if stage == 2 && Stage2Completed(p) then 1 else 0)
  }

  /** The block layer's answers to the reads of one call: whether each asynchronous read is
      accepted, each synchronous read of the bulk phase works, each read of the dirty pass. */
  datatype Reads = Reads(submits: Answers, answers: Answers, dirty: (nat, nat) -> bool)

  /** The common part of block_save_live, its loop taking n turns. */
  function TryPump(s: State, env: Env, io: Reads, n: nat): State {
    var s1 := FlushBlocks(s, env.quota1);
    if s1.err then s1
    else FlushBlocks(Turns(s1, Async(env.rate), env.junk, io.submits, n).s, env.quota2)
  }

  /** Stage 3 after the common part, its loop taking m turns. */
  function TryComplete(s: State, junk: Junk, io: Reads, m: nat): State {
    var p := DirtyBlocks(Turns(s, Sync, junk, io.answers, m).s, io.dirty);
    p.(devs := [], queue := [], out := p.out + [Progress(100)] + (if p.err then [] else [EndOfSection]))
  }

  /** block_save_live likewise, with reads that may fail. */
  function TryStage(s: State, stage: int, env: Env, io: Reads, n: nat, m: nat): (State, int) {
    var p := TryPump(s, env, io, n);
    if p.err then (p.(devs := [], queue := []), 0)
    else if stage == 3 then (TryComplete(p, env.junk, io, m), 0)
    else (p.(out := p.out + [EndOfSection]), if stage == 2 && Stage2Completed(p) then 1 else 0)
  }

  /** The loops the call comes to end, after n and m turns. */
  predicate LoopsEnd(s: State, stage: int, env: Env, io: Reads, n: nat, m: nat) {
    var s1, p := FlushBlocks(s, env.quota1), TryPump(s, env, io, n);
    && (!s1.err ==> Ends(s1, Async(env.rate), env.junk, io.submits, n))
    && (!p.err && stage == 3 ==> Ends(p, Sync, env.junk, io.answers, m))
  }

  /** The machine's block devices, each with a dirty bitmap or without. */
  class Machine {
    var tracking: seq<bool>

    constructor (n: nat)
      ensures |tracking| == n && forall k :: 0 <= k < n ==> !tracking[k]
    {
      tracking := seq(n, _ => false);
    }
  }

  class BlockMigration {
    const machine: Machine
    const enabled: bool
    const shared: bool
    var devs: seq<Device>
    var inflight: seq<Block>
    var blkList: seq<Block>
    var submitted: int
    var readDone: int
    var transferred: int
    ghost var issued: nat
    var totalSum: int
    var prevProgress: int
    var out: seq<Record>
    var err: bool

    ghost function View(): State
      reads this
    {
      State(devs, inflight, blkList, submitted, readDone, transferred, issued, totalSum, prevProgress, out, err)
    }

    constructor (machine: Machine, enable: bool, sharedBase: bool)
      ensures this.machine == machine
      ensures View() == State([], [], [], 0, 0, 0, 0, 0, -1, [], false)
      ensures enabled == (enable || sharedBase) && shared == sharedBase
    {
      this.machine, enabled, shared := machine, enable || sharedBase, sharedBase;
      devs, inflight, blkList, out := [], [], [], [];
      submitted, readDone, transferred, issued := 0, 0, 0, 0;
      totalSum, prevProgress, err := 0, -1, false;
    }

    /** init_blk_migration. A migration started with empty lists is in an initial state. */
    method Init(bs: seq<BlockDevice>)
      requires devs == []
      modifies this`devs, this`submitted, this`readDone, this`transferred, this`issued, this`totalSum, this`prevProgress
      ensures devs == InitDevices(bs, shared) && totalSum == SectorSum(devs)
      ensures submitted == readDone == transferred == issued == 0 && prevProgress == -1
    {
      submitted, readDone, transferred, prevProgress, issued := 0, 0, 0, -1, 0;
      devs, totalSum := ListDevices(bs, shared);
    }

    /** The loop of init_blk_migration over the machine's block devices. */
    static method ListDevices(bs: seq<BlockDevice>, shared: bool) returns (list: seq<Device>, sum: nat)
      ensures list == InitDevices(bs, shared) && sum == SectorSum(list)
    {
      list, sum := [], 0;
      var n := 0;
      while n < |bs|
        invariant n <= |bs|
        invariant list == InitDevices(bs[..n], shared) && sum == SectorSum(list)
      {
        InitOne(bs, n, shared);
        if Listed(bs[n]) {
          sum := sum + |bs[n].image|;
          list := list + [StartOf(n, bs[n], shared)];
        }
        n := n + 1;
      }
      assert bs[..|bs|] == bs;
    }

    /** blk_mig_read_cb, called by the driver for outstanding read j. */
    method ReadCb(j: nat, ret: int)
      requires j < |inflight| && (ret < 0 || FullyRead(inflight[j]))
      modifies this
      ensures View() == ReadCallback(old(View()), j, ret)
    {
      blkList := blkList + [inflight[j].(ret := ret)];
      inflight := inflight[..j] + inflight[j + 1..];
      submitted := submitted - 1;
      readDone := readDone + 1;
    }

    /** mig_save_device_bulk; `ok` is whether the read was accepted, or worked, and `tried`
        whether there was one. */
    method SaveDevice(i: nat, isAsync: bool, junk: Junk, runs: Runs, ok: bool) returns (done: bool, tried: bool)
      requires i < |devs| && Aligned(devs[i]) && RunsCorrect(devs[i], i, runs)
      modifies this
      ensures (View(), done) == TryDevice(old(View()), i, isAsync, junk, ok)
      ensures tried == (BulkAt(old(devs)[i]) < |old(devs)[i].image|)
    {
      var d := devs[i];
      var total := |d.image|;
      var cur := NextSector(d, i, runs);
      if cur >= total {
        devs := devs[i := d.(cur := total, completed := total)];
        return true, false;
      }
      tried := true;
      if !ok {
        devs := devs[i := d.(completed := cur)];
        err := true;
        return false, tried;
      }
      done := IssueRead(i, cur, isAsync, junk);
    }

    /** Read one chunk, marking it clean at once. */
    method IssueRead(i: nat, cur: nat, isAsync: bool, junk: Junk) returns (done: bool)
      requires i < |devs| && cur < |devs[i].image|
      modifies this
      ensures (View(), done) == ReadChunk(old(View()), i, cur, isAsync, junk)
    {
      var d := devs[i];
      var sector := cur / 2048 * 2048;
      var nr := Min(2048, |d.image| - sector);
      ghost var v := ChunkRead(View(), i, cur, isAsync, junk, sector, nr);
      if isAsync {
        inflight := inflight + [Block(i, sector, nr, junk(i, sector), {}, 0)];
        submitted := submitted + 1;
        issued := issued + 1;
      } else {
        out := out + [DeviceBlock(i, sector, ReadInto(d.image, sector, nr, junk(i, sector)))];
      }
      devs := devs[i := d.(completed := cur, dirty := d.dirty - ChunksOf(sector, nr), cur := sector + nr)];
      done := sector + nr >= |d.image|;
      assert View() == v;
    }

    /** Where the bulk walk goes on: with a shared base, past what is not allocated. */
    method NextSector(d: Device, i: nat, runs: Runs) returns (cur: nat)
      requires Aligned(d) && RunsCorrect(d, i, runs)
      ensures cur == BulkAt(d)
    {
      cur := d.cur;
      if d.shared {
        while cur < |d.image| && cur !in d.alloc
          invariant d.cur <= cur <= |d.image|
          invariant FirstAllocated(d, cur) == FirstAllocated(d, d.cur)
        {
          FirstAllocatedSkip(d, cur, runs(i, cur));
          cur := cur + runs(i, cur);
        }
      }
    }

    /** One step of the first unfinished device, inside blk_mig_save_bulked_block. */
    method StepOne(i: nat, isAsync: bool, junk: Junk, runs: Runs, ok: bool) returns (tried: bool)
      requires i < |devs| && Aligned(devs[i]) && AllRunsCorrect(devs, runs)
      modifies this
      ensures View() == TryStep(old(View()), i, isAsync, junk, ok)
      ensures tried == (BulkAt(old(devs)[i]) < |old(devs)[i].image|)
      ensures |devs| == |old(devs)| && devs == old(devs)[i := devs[i]] && AllRunsCorrect(devs, runs)
    {
      BulkDeviceEffect(View(), i, isAsync, junk);
      assert RunsCorrect(devs[i], i, runs);
      var fin;
      fin, tried := SaveDevice(i, isAsync, junk, runs, ok);
      if fin { devs := devs[i := devs[i].(bulkDone := true)]; }
      assert RunsCorrect(devs[i], i, runs);
    }

    /** blk_mig_save_bulked_block. */
    method SaveBulked(isAsync: bool, junk: Junk, runs: Runs, ok: bool) returns (more: bool, tried: bool)
      requires Runnable(View()) && AllRunsCorrect(devs, runs)
      modifies this
      ensures (View(), more) == TryBulked(old(View()), isAsync, junk, ok) && tried == Reading(old(View()))
      ensures AllRunsCorrect(devs, runs)
    {
      var i, sum := FindIncomplete();
      more, tried := i < |devs|, false;
      if more {
        tried := StepOne(i, isAsync, junk, runs, ok);
        SumNext(devs, i);
        assert devs[..i] == old(devs)[..i];
        sum := sum + devs[i].completed;
      } else {
        assert devs[..i] == devs;
      }
      TellProgress(sum);
    }

    /** Progress goes onto the stream only when it changes. */
    method TellProgress(sum: nat)
      requires totalSum > 0
      modifies this`prevProgress, this`out
      ensures View() == ReportProgress(old(View()), sum)
    {
      var progress := Percent(sum, totalSum);
      if progress != prevProgress {
        prevProgress := progress;
        out := out + [Progress(progress)];
      }
    }

    /** The walk of blk_mig_save_bulked_block to the first unfinished device. */
    method FindIncomplete() returns (i: nat, sum: nat)
      ensures i == FirstIncomplete(devs) && sum == CompletedSum(devs[..i])
    {
      sum, i := 0, 0;
      while i < |devs| && devs[i].bulkDone
        invariant i <= |devs|
        invariant forall j :: 0 <= j < i ==> devs[j].bulkDone
        invariant sum == CompletedSum(devs[..i])
      {
        assert devs[..i + 1][..i] == devs[..i];
        sum := sum + devs[i].completed;
        i := i + 1;
      }
      FirstIncompleteIs(devs, i);
    }

    /** flush_blks: `quota` blocks may go before the rate limiter says stop. */
    method FlushBlks(quota: nat)
      modifies this
      ensures View() == FlushBlocks(old(View()), quota)
    {
      var q := quota;
      while |blkList| > 0
        invariant FlushBlocks(View(), q) == FlushBlocks(old(View()), quota)
        decreases |blkList|
      {
        if q == 0 { return; }
        var blk := blkList[0];
        if blk.ret < 0 {
          err := true;
          return;
        }
        out := out + [DeviceBlock(blk.dev, blk.sector, blk.buf)];
        blkList := blkList[1..];
        readDone := readDone - 1;
        transferred := transferred + 1;
        q := q - 1;
      }
    }

    /** blk_mig_save_dirty_blocks; `ok` says which reads work. */
    method SaveDirtyBlocks(ok: (nat, nat) -> bool)
      modifies this
      ensures View() == DirtyBlocks(old(View()), ok)
    {
      var i := 0;
      while i < |devs|
        invariant i <= |devs| && err == old(err)
        invariant TryDirtyPass(View().(err := false), i, ok) == TryDirtyPass(old(View()).(err := false), 0, ok)
        decreases |devs| - i
      {
        var failed := SaveDirtyDevice(i, ok);
        if failed { return; }
        i := i + 1;
      }
    }

    /** The inner loop, over the sectors of a device; it tells whether a read failed. */
    method SaveDirtyDevice(i: nat, ok: (nat, nat) -> bool) returns (failed: bool)
      requires i < |devs|
      modifies this
      ensures |devs| == |old(devs)|
      ensures var s' := TryDirty(old(View()).(err := false), i, 0, ok);
              failed == s'.err && View() == s'.(err := s'.err || old(err))
    {
      ghost var v := View().(err := false);
      TryDirtyFrame(v, i, 0, ok);
      var sector := 0;
      while sector < devs[i].cur
        invariant |devs| == |old(devs)| && err == old(err)
        invariant TryDirty(View().(err := false), i, sector, ok) == TryDirty(v, i, 0, ok)
        decreases devs[i].cur - sector
      {
        var d := devs[i];
        if sector / 2048 in d.dirty {
          if sector + 2048 > |d.image| || !ok(i, sector) {
            err := true;
            return true;
          }
          out := out + [DeviceBlock(i, sector, d.image[sector..sector + 2048])];
          devs := devs[i := d.(dirty := d.dirty - ChunksOf(sector, 2048))];
        }
        sector := sector + 2048;
      }
      failed := false;
    }

    /** is_stage2_completed. */
    method IsStage2Completed() returns (r: bool)
      ensures r == Stage2Completed(View())
      ensures r <==> submitted <= 0 && forall i :: 0 <= i < |devs| ==> devs[i].bulkDone
    {
      if submitted > 0 { return false; }
      var i := 0;
      while i < |devs|
        invariant i <= |devs| && forall j :: 0 <= j < i ==> devs[j].bulkDone
      {
        if !devs[i].bulkDone {
          FirstIncompleteIs(devs, i);
          return false;
        }
        i := i + 1;
      }
      FirstIncompleteIs(devs, i);
      r := true;
    }

    /** set_dirty_tracking: switched for the devices on the list, in the machine. */
    method SetDirtyTracking(enable: bool)
      requires forall i :: 0 <= i < |devs| ==> devs[i].bs < |machine.tracking|
      modifies machine
      ensures |machine.tracking| == |old(machine.tracking)|
      ensures forall k :: 0 <= k < |machine.tracking| ==>
                machine.tracking[k] == if OnList(devs, k) then enable else old(machine.tracking[k])
    {
      for i := 0 to |devs|
        invariant |machine.tracking| == |old(machine.tracking)|
        invariant forall k :: 0 <= k < |machine.tracking| ==>
                    machine.tracking[k] == if OnList(devs[..i], k) then enable else old(machine.tracking[k])
      {
        ghost var b := devs[i].bs;
        machine.tracking := machine.tracking[devs[i].bs := enable];
        forall k: nat ensures OnList(devs[..i + 1], k) <==> OnList(devs[..i], k) || k == b {
          OneMore(devs, i, k);
        }
      }
      assert devs[..|devs|] == devs;
    }

    /** blk_mig_cleanup: the device list is emptied before dirty tracking is switched off
        for its members, so it is switched off for none. */
    method Cleanup()
      modifies this`devs, this`blkList, machine
      ensures View() == old(View()).(devs := [], queue := [])
      ensures machine.tracking == old(machine.tracking)
    {
      while devs != []
        modifies this`devs
        invariant View() == old(View()).(devs := devs)
        decreases |devs|
      {
        devs := devs[1..];
      }
      while blkList != []
        modifies this`blkList
        invariant View() == old(View()).(devs := [], queue := blkList)
        decreases |blkList|
      {
        blkList := blkList[1..];
      }
      SetDirtyTracking(false);
    }

    /** block_save_live from the first flush on, its loops taking n and m turns. */
    method SaveLiveStage(stage: int, env: Env, runs: Runs, io: Reads, ghost n: nat, ghost m: nat) returns (r: int)
      requires Runnable(View()) && AllRunsCorrect(devs, runs) && LoopsEnd(View(), stage, env, io, n, m)
      modifies this, machine
      ensures (View(), r) == TryStage(old(View()), stage, env, io, n, m)
      ensures machine.tracking == old(machine.tracking)
    {
      FlushFrame(View(), env.quota1);
      FlushBlks(env.quota1);
      if err {
        Cleanup();
        return 0;
      }
      SaveLoop(Async(env.rate), env.junk, runs, io.submits, n);
      FlushFrame(View(), env.quota2);
      FlushBlks(env.quota2);
      ghost var p := View();
      if err {
        Cleanup();
        return 0;
      }
      if stage == 3 {
        SaveLoop(Sync, env.junk, runs, io.answers, m);
        SaveDirtyBlocks(io.dirty);
        Cleanup();
        out := out + [Progress(100)];
        r := 0;
        if err {
          assert View().out == TryComplete(p, env.junk, io, m).out;
          return;
        }
        out := out + [EndOfSection];
        return;
      }
      out := out + [EndOfSection];
      if stage == 2 {
        var c := IsStage2Completed();
        r := if c then 1 else 0;
      } else {
        r := 0;
      }
    }

    /** One turn of a loop around blk_mig_save_bulked_block; `calls` counts its reads. */
    method SaveTurn(mode: Mode, junk: Junk, runs: Runs, answers: Answers, calls: nat) returns (more: bool, made: nat)
      requires Runnable(View()) && AllRunsCorrect(devs, runs) && !Held(mode)
      modifies this
      ensures Loop(View(), made, !more) == Turn(Loop(old(View()), calls, false), mode, junk, answers)
      ensures AllRunsCorrect(devs, runs)
    {
      TurnOpens(Loop(View(), calls, false), mode, junk, answers);
      var tried;
      more, tried := SaveBulked(mode.Async?, junk, runs, answers(calls));
      made := if tried then calls + 1 else calls;
    }

    /** The two loops around blk_mig_save_bulked_block; each ends only if enough reads work. */
    method SaveLoop(mode: Mode, junk: Junk, runs: Runs, answers: Answers, ghost n: nat)
      requires Runnable(View()) && AllRunsCorrect(devs, runs) && Ends(View(), mode, junk, answers, n)
      modifies this
      ensures View() == Turns(old(View()), mode, junk, answers, n).s
      ensures Runnable(View()) && AllRunsCorrect(devs, runs)
    {
      var calls := 0;
      ghost var s, k := View(), 0;
      while !Held(mode)
        invariant Runnable(View()) && AllRunsCorrect(devs, runs)
        invariant Turns(s, mode, junk, answers, k) == Loop(View(), calls, false)
        decreases n - k
      {
        NextTurn(s, mode, junk, answers, n, k, View(), calls);
        var more;
        more, calls := SaveTurn(mode, junk, runs, answers, calls);
        if !more { return; }
        k := k + 1;
      }
      NextTurn(s, mode, junk, answers, n, k, View(), calls);
      TurnOpens(Loop(View(), calls, false), mode, junk, answers);
    }

    predicate Held(mode: Mode)
      reads this
      ensures Held(mode) == MigrationRetry.Held(View(), mode)
    {
      mode.Async? && (submitted + readDone) * 0x10_0000 >= mode.rate
    }

    /** block_save_live. */
    method SaveLive(stage: int, env: Env, runs: Runs, bs: seq<BlockDevice>, io: Reads, ghost n: nat, ghost m: nat)
      returns (r: int)
      requires stage >= 0 && enabled && stage != 1 ==>
                 Runnable(View()) && AllRunsCorrect(devs, runs) && LoopsEnd(View(), stage, env, io, n, m)
      requires stage == 1 ==>
                 && devs == [] && AllRunsCorrect(InitDevices(bs, shared), runs) && InitDevices(bs, shared) != []
                 && LoopsEnd(Initialised(View(), bs, shared), stage, env, io, n, m)
      requires |machine.tracking| == |bs|
      modifies this, machine
      ensures |machine.tracking| == |bs| && forall k :: 0 <= k < |bs| ==>
                machine.tracking[k] == (old(machine.tracking[k]) || (stage == 1 && enabled && Listed(bs[k])))
      ensures stage < 0 ==> r == 0 && View() == old(View()).(devs := [], queue := [])
      ensures stage >= 0 && !enabled ==> r == 1 && View() == old(View()).(out := old(out) + [EndOfSection])
      ensures stage >= 0 && enabled ==>
                var s := if stage == 1 then Initialised(old(View()), bs, shared) else old(View());
                Runnable(s) && (View(), r) == TryStage(s, stage, env, io, n, m)
    {
      if stage < 0 {
        Cleanup();
        return 0;
      }
      if !enabled {
        out := out + [EndOfSection];
        return 1;
      }
      if stage == 1 {
        InitDevicesFresh(bs, shared);
        SectorSumPositive(InitDevices(bs, shared));
        Init(bs);
        forall k: nat ensures OnList(devs, k) <==> k < |bs| && Listed(bs[k]) { InitLists(bs, shared, k); }
        forall i | 0 <= i < |devs| ensures devs[i].bs < |bs| { assert OnList(devs, devs[i].bs); }
        SetDirtyTracking(true);
      }
      r := SaveLiveStage(stage, env, runs, io, n, m);
    }
  }

  /** The state a chunk's read leaves, branch by branch. */
  lemma ChunkRead(s: State, i: nat, at: nat, async: bool, junk: Junk, sector: nat, nr: nat) returns (s': State)
    requires i < |s.devs| && at < |s.devs[i].image|
    requires sector == at / 2048 * 2048 && nr == Min(2048, |s.devs[i].image| - sector)
    ensures sector + nr <= |s.devs[i].image|
    ensures ReadChunk(s, i, at, async, junk) == (s', sector + nr >= |s.devs[i].image|)
    ensures var d := s.devs[i];
            var devs := s.devs[i := d.(completed := at, dirty := d.dirty - ChunksOf(sector, nr), cur := sector + nr)];
            if async
            then s' == s.(devs := devs, submitted := s.submitted + 1, issued := s.issued + 1,
                          inflight := s.inflight + [Block(i, sector, nr, junk(i, sector), {}, 0)])
            else s' == s.(devs := devs,
                          out := s.out + [DeviceBlock(i, sector, ReadInto(d.image, sector, nr, junk(i, sector)))])
  {
    s' := ReadChunk(s, i, at, async, junk).0;
  }

  /** init_blk_migration on values. */
  function Initialised(s: State, bs: seq<BlockDevice>, shared: bool): State {
    var devs := InitDevices(bs, shared);
    s.(devs := devs, submitted := 0, readDone := 0, transferred := 0, issued := 0,
       totalSum := SectorSum(devs), prevProgress := -1)
  }

  lemma SumNext(devs: seq<Device>, i: nat)
    requires i < |devs|
    ensures CompletedSum(devs[..i + 1]) == CompletedSum(devs[..i]) + devs[i].completed
  {
    assert devs[..i + 1][..i] == devs[..i];
  }

  lemma OneMore(devs: seq<Device>, i: nat, k: nat)
    requires i < |devs|
    ensures OnList(devs[..i + 1], k) <==> OnList(devs[..i], k) || k == devs[i].bs
  {
    var before, after := devs[..i], devs[..i + 1];
    if OnList(before, k) { var j :| 0 <= j < i && before[j].bs == k; assert after[j].bs == k; }
    if OnList(after, k) { var j :| 0 <= j <= i && after[j].bs == k; assert j < i ==> before[j].bs == k; }
    assert after[i].bs == devs[i].bs;
  }

  lemma {:induction false} FirstIncompleteIs(devs: seq<Device>, i: nat)
    requires i <= |devs| && (i < |devs| ==> !devs[i].bulkDone)
    requires forall j :: 0 <= j < i ==> devs[j].bulkDone
    ensures FirstIncomplete(devs) == i
  {
  }

  /** A migration of freshly listed disks starts in an initial state of the protocol. */
  lemma StartIsInitial(bs: seq<BlockDevice>, shared: bool, r0: seq<Image>)
    requires var devs := InitDevices(bs, shared);
             && devs != [] && |r0| == |devs|
             && (forall i :: 0 <= i < |r0| ==> |r0[i]| == |devs[i].image|)
             && (shared ==> forall i, k: nat :: 0 <= i < |r0| && k < |r0[i]| && k !in devs[i].alloc ==>
                   r0[i][k] == devs[i].image[k])
    ensures var devs := InitDevices(bs, shared);
            Initial(State(devs, [], [], 0, 0, 0, 0, SectorSum(devs), -1, [], false), r0)
  {
    InitDevicesFresh(bs, shared);
    SectorSumPositive(InitDevices(bs, shared));
  }
}
