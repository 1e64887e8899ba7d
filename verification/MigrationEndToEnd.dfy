/**
 Source, stream and receiver put together: the bytes a completed migration writes,
 parsed by block_load, leave the receiver with the source's disks.
 */
module MigrationEndToEnd {
  import opened Arithmetic
  import opened Disk
  import opened MigrationProtocol
  import opened MigrationConvergence
  import opened MigrationTheorems
  import opened MigrationWire

  function Total(lens: seq<nat>): nat {
    if lens == [] then 0 else Total(lens[..|lens| - 1]) + lens[|lens| - 1]
  }

  predicate BlocksOk(lens: seq<nat>, bs: seq<Block>) {
    forall j :: 0 <= j < |bs| ==> bs[j].dev < |lens| && bs[j].sector < lens[bs[j].dev]
  }

  predicate DevicesOk(lens: seq<nat>, devs: seq<Device>) {
    && |devs| == |lens|
    && forall i :: 0 <= i < |devs| ==> |devs[i].image| == lens[i] && devs[i].completed <= lens[i]
  }

  /** Everything on the stream, or on its way there, fits the format. */
  predicate StreamInv(s: State, lens: seq<nat>) {
    && DevicesOk(lens, s.devs)
    && s.totalSum == Total(lens) > 0
    && BlocksOk(lens, s.inflight)
    && BlocksOk(lens, s.queue)
    && RecordsOk(lens, s.out)
  }

  lemma {:induction false} CompletedBounded(lens: seq<nat>, devs: seq<Device>, n: nat)
    requires DevicesOk(lens, devs) && n <= |devs|
    ensures CompletedSum(devs[..n]) <= Total(lens[..n]) <= Total(lens)
    decreases |lens| - n, n
  {
    PrefixTotal(lens, n);
    CompletedPrefix(lens, devs, n);
  }

  lemma {:induction false} PrefixTotal(lens: seq<nat>, n: nat)
    requires n <= |lens|
    ensures Total(lens[..n]) <= Total(lens)
    decreases |lens|
  {
    if n < |lens| {
      var l := lens[..|lens| - 1];
      assert l[..n] == lens[..n];
      PrefixTotal(l, n);
    } else {
      assert lens[..n] == lens;
    }
  }

  lemma {:induction false} CompletedPrefix(lens: seq<nat>, devs: seq<Device>, n: nat)
    requires DevicesOk(lens, devs) && n <= |devs|
    ensures CompletedSum(devs[..n]) <= Total(lens[..n])
    decreases n
  {
    if n > 0 {
      assert devs[..n][..n - 1] == devs[..n - 1] && lens[..n][..n - 1] == lens[..n - 1];
      CompletedPrefix(lens, devs, n - 1);
    }
  }

  lemma PercentBounded(a: nat, b: nat)
    requires a <= b && b > 0
    ensures Percent(a, b) <= 100
  {
    var q := Percent(a, b);
    assert q * b <= a * 100;
    if q > 100 { MulMonotone(b, 101, q); }
  }

  /** Reported progress is always a percentage. */
  lemma ReportOk(s: State, n: nat, lens: seq<nat>)
    requires StreamInv(s, lens) && n <= |s.devs|
    ensures StreamInv(ReportProgress(s, CompletedSum(s.devs[..n])), lens)
  {
    CompletedBounded(lens, s.devs, n);
    PercentBounded(CompletedSum(s.devs[..n]), s.totalSum);
  }

  /** What a bulk step adds: at most one block in flight or on the stream, of its own device. */
  lemma StepAdds(s: State, i: nat, async: bool, junk: Junk)
    requires i < |s.devs|
    ensures var s', sector := StepDevice(s, i, async, junk), BulkAt(s.devs[i]) / 2048 * 2048;
            && s'.queue == s.queue && s'.totalSum == s.totalSum
            && (s'.inflight == s.inflight
                || (BulkAt(s.devs[i]) < |s.devs[i].image|
                    && exists b :: s'.inflight == s.inflight + [b] && b.dev == i && b.sector == sector))
            && (s'.out == s.out
                || (BulkAt(s.devs[i]) < |s.devs[i].image|
                    && exists data :: s'.out == s.out + [DeviceBlock(i, sector, data)]))
  {
    var s' := StepDevice(s, i, async, junk);
    if BulkAt(s.devs[i]) < |s.devs[i].image| {
      if async {
        var b := s'.inflight[|s.inflight|];
        assert s'.inflight == s.inflight + [b];
      } else {
        var data := s'.out[|s.out|].data;
        assert s'.out == s.out + [DeviceBlock(i, BulkAt(s.devs[i]) / 2048 * 2048, data)];
      }
    }
  }

  lemma StepCompleted(s: State, i: nat, async: bool, junk: Junk)
    requires i < |s.devs| && Aligned(s.devs[i])
    ensures var d' := StepDevice(s, i, async, junk).devs[i];
            d'.image == s.devs[i].image && d'.completed <= |d'.image|
  {
    BulkAtSpec(s.devs[i]);
  }

  lemma StepDeviceOk(s: State, i: nat, async: bool, junk: Junk, lens: seq<nat>)
    requires StreamInv(s, lens) && AllAligned(s.devs) && i < |s.devs|
    ensures StreamInv(StepDevice(s, i, async, junk), lens)
  {
    StepAdds(s, i, async, junk);
    StepShape(s, i, async, junk);
    StepCompleted(s, i, async, junk);
  }

  lemma BulkedOk(s: State, async: bool, junk: Junk, lens: seq<nat>)
    requires StreamInv(s, lens) && AllAligned(s.devs)
    ensures StreamInv(SaveBulkedBlock(s, async, junk).0, lens)
  {
    var i := FirstIncomplete(s.devs);
    if i == |s.devs| {
      assert s.devs[..i] == s.devs;
      ReportOk(s, i, lens);
    } else {
      StepDeviceOk(s, i, async, junk, lens);
      ReportOk(StepDevice(s, i, async, junk), i + 1, lens);
    }
  }

  lemma {:induction false} BulkLoopOk(s: State, rate: int, junk: Junk, lens: seq<nat>)
    requires StreamInv(s, lens) && Runnable(s)
    ensures StreamInv(BulkLoop(s, rate, junk), lens)
    decreases Remaining(s.devs)
  {
    if (s.submitted + s.readDone) * 0x10_0000 < rate {
      BulkStepProgress(s, true, junk);
      BulkedOk(s, true, junk, lens);
      var (s', more) := SaveBulkedBlock(s, true, junk);
      if more { BulkLoopOk(s', rate, junk, lens); }
    }
  }

  lemma {:induction false} SyncBulkOk(s: State, junk: Junk, lens: seq<nat>)
    requires StreamInv(s, lens) && Runnable(s)
    ensures StreamInv(SyncBulk(s, junk), lens)
    decreases Remaining(s.devs)
  {
    BulkStepProgress(s, false, junk);
    BulkedOk(s, false, junk, lens);
    var (s', more) := SaveBulkedBlock(s, false, junk);
    if more { SyncBulkOk(s', junk, lens); }
  }

  lemma {:induction false} FlushOk(s: State, quota: nat, lens: seq<nat>)
    requires StreamInv(s, lens)
    ensures StreamInv(FlushBlocks(s, quota), lens)
    decreases |s.queue|
  {
    if s.queue != [] && quota > 0 && s.queue[0].ret >= 0 { FlushOk(FlushOne(s), quota - 1, lens); }
  }

  lemma PumpOk(s: State, env: Env, lens: seq<nat>)
    requires StreamInv(s, lens) && Runnable(s)
    ensures StreamInv(Pump(s, env), lens)
  {
    FlushFrame(s, env.quota1);
    FlushOk(s, env.quota1, lens);
    var s1 := FlushBlocks(s, env.quota1);
    if !s1.err {
      BulkLoopOk(s1, env.rate, env.junk, lens);
      FlushOk(BulkLoop(s1, env.rate, env.junk), env.quota2, lens);
    }
  }

  lemma {:induction false} DirtyDeviceOk(s: State, i: nat, sector: nat, lens: seq<nat>)
    requires StreamInv(s, lens) && i < |s.devs| && s.devs[i].cur <= |s.devs[i].image|
    ensures StreamInv(DirtyDevice(s, i, sector), lens)
    decreases s.devs[i].cur - sector
  {
    var d := s.devs[i];
    if sector < d.cur {
      if sector / 2048 !in d.dirty {
        DirtyDeviceOk(s, i, sector + 2048, lens);
      } else if sector + 2048 <= |d.image| {
        assert DirtyDevice(s, i, sector) == DirtyDevice(ResendOne(s, i, sector), i, sector + 2048);
        DirtyDeviceOk(ResendOne(s, i, sector), i, sector + 2048, lens);
      }
    }
  }

  lemma {:induction false} DirtyPassOk(s: State, i: nat, lens: seq<nat>)
    requires StreamInv(s, lens) && i <= |s.devs| && AllAligned(s.devs)
    ensures StreamInv(DirtyPass(s, i), lens)
    decreases |s.devs| - i
  {
    if i < |s.devs| {
      DirtyDeviceOk(s, i, 0, lens);
      DirtyDeviceFrame(s, i, 0);
      var s' := DirtyDevice(s, i, 0);
      if !s'.err { DirtyPassOk(s', i + 1, lens); }
    }
  }

  lemma StepOk(s: State, e: Event, lens: seq<nat>)
    requires StreamInv(s, lens) && Runnable(s)
    ensures StreamInv(Step(s, e), lens)
  {
    match e
    case Write(i, at, data) =>
    case Sample(j, k) =>
    case Done(j, ret) =>
    case SaveLive(env) =>
      if !s.err { PumpOk(s, env, lens); }
  }

  lemma StepCloses(s: State, e: Event)
    requires Runnable(s) && (!s.err ==> Closed(s.out))
    ensures !Step(s, e).err ==> Closed(Step(s, e).out)
  {
  }

  /** In every state of every run the stream fits the format, and without an error it ends
      with a closed section. */
  lemma {:induction false} RunOk(s0: State, events: seq<Event>, s: State, r0: seq<Image>, lens: seq<nat>)
    requires Initial(s0, r0) && Reaches(s0, events, s) && StreamInv(s0, lens)
    ensures StreamInv(s, lens) && (!s.err ==> Closed(s.out))
  {
    if events != [] {
      var before := events[..|events| - 1];
      var m :| Runnable(m) && Reaches(s0, before, m) && s == Step(m, events[|events| - 1]);
      RunOk(s0, before, m, r0, lens);
      StepOk(m, events[|events| - 1], lens);
      StepCloses(m, events[|events| - 1]);
    }
  }

  lemma FinalStageOk(s: State, env: Env, lens: seq<nat>)
    requires StreamInv(s, lens) && Runnable(s) && !FinalStage(s, env).err
    ensures RecordsOk(lens, FinalStage(s, env).out) && Closed(FinalStage(s, env).out)
  {
    PumpOk(s, env, lens);
    PumpRunnable(s, env);
    var p := Pump(s, env);
    SyncBulkOk(p, env.junk, lens);
    SyncBulkRunnable(p, env.junk);
    DirtyPassOk(SyncBulk(p, env.junk), 0, lens);
  }

  lemma {:induction false} SyncBulkRunnable(s: State, junk: Junk)
    requires Runnable(s)
    ensures Runnable(SyncBulk(s, junk))
    decreases Remaining(s.devs)
  {
    BulkStepProgress(s, false, junk);
    var (s', more) := SaveBulkedBlock(s, false, junk);
    if more { SyncBulkRunnable(s', junk); }
  }

  /** End to end. In every run on chunk-aligned disks whose stage 3 finds the pipeline
      empty, the byte stream written, loaded by the receiver section by section, is
      accepted to its last byte and leaves every disk equal to the source's. */
  lemma MigrationEndToEnd(s0: State, events: seq<Event>, s: State, env: Env,
                          r0: seq<Image>, names: seq<Name>, st: Stale, lens: seq<nat>)
    requires Initial(s0, r0) && StreamInv(s0, lens) && Reaches(s0, events, s) && Runnable(s)
    requires |names| == |lens| && NamesOk(names) && LensOk(lens)
    requires forall i :: 0 <= i < |lens| ==> lens[i] % 2048 == 0
    requires !s.err && !Pump(s, env).err && Pump(s, env).inflight == [] && Pump(s, env).queue == []
    ensures var p, f := Pump(s, env), FinalStage(s, env);
            && |p.devs| == |lens| == |r0|
            && RecordsOk(lens, f.out)
            && var o := LoadAll(names, st, r0, EncodeAll(names, lens, f.out));
               && o.code == Ok && o.rest == [] && o.read == ItemsOf(f.out) && |o.images| == |p.devs|
               && forall i :: 0 <= i < |p.devs| ==> o.images[i] == p.devs[i].image
  {
    RunOk(s0, events, s, r0, lens);
    PumpOk(s, env, lens);
    CleanMigration(s0, events, s, env, r0);
    FinalStageOk(s, env, lens);
    StreamRoundTrip(names, st, lens, r0, FinalStage(s, env).out);
  }
}
