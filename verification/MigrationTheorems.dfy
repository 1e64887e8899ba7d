/**
 What live migration guarantees, over whole runs: when the receiver ends up with
 the source's disks, exactly when it does not, and a run that shows the gap.
 */
module MigrationTheorems {
  import opened Disk
  import opened MigrationProtocol
  import opened MigrationConvergence

  /** The receiver's device already agrees with the source beyond the last full chunk. */
  predicate TailAgrees(image: Image, r: Image)
    requires |r| == |image|
  {
    forall k: nat :: k < |image| && !InFullChunk(image, k) ==> r[k] == image[k]
  }

  /** Stage 3 run to its end: flush, bulk loop, flush, then completion. */
  function FinalStage(s: State, env: Env): State
    requires Runnable(s)
  {
    var p := Pump(s, env);
    PumpRunnable(s, env);
    if p.err then p else Complete(p, env.junk)
  }

  lemma PumpRunnable(s: State, env: Env)
    requires Runnable(s)
    ensures Runnable(Pump(s, env))
  {
    FlushFrame(s, env.quota1);
    var s1 := FlushBlocks(s, env.quota1);
    if !s1.err {
      BulkLoopRunnable(s1, env.rate, env.junk);
      FlushFrame(BulkLoop(s1, env.rate, env.junk), env.quota2);
    }
  }

  lemma {:induction false} BulkLoopRunnable(s: State, rate: int, junk: Junk)
    requires Runnable(s)
    ensures Runnable(BulkLoop(s, rate, junk))
    decreases Remaining(s.devs)
  {
    if (s.submitted + s.readDone) * 0x10_0000 < rate {
      BulkStepProgress(s, true, junk);
      var (s', more) := SaveBulkedBlock(s, true, junk);
      if more { BulkLoopRunnable(s', rate, junk); }
    }
  }

  /** Convergence. In every run that completes stage 3 without error, a device of the
      receiver equals the source's if and only if nothing was dropped from the pipeline
      that the receiver lacked, and the partial last chunk (which is never transferred)
      already agreed. */
  lemma MigrationConverges(s0: State, events: seq<Event>, s: State, env: Env, r0: seq<Image>)
    requires Initial(s0, r0) && Reaches(s0, events, s) && Runnable(s)
    requires !s.err && !Pump(s, env).err && !FinalStage(s, env).err
    ensures var p := Pump(s, env);
            && Runnable(p) && |p.devs| == |r0|
            && var b := SyncBulk(p, env.junk);
               var rb, r' := Receive(r0, b.out), Receive(r0, FinalStage(s, env).out);
               && |b.devs| == |p.devs|
               && forall i :: 0 <= i < |p.devs| ==>
                    && |rb[i]| == |r0[i]| == |p.devs[i].image| == |b.devs[i].image|
                    && (r'[i] == p.devs[i].image <==>
                          && (forall k: nat :: k < |rb[i]| ==> !Lost(b, i, k, rb[i]))
                          && TailAgrees(p.devs[i].image, r0[i]))
  {
    RunKeeps(s0, events, s, r0);
    PumpKeeps(s, env, r0);
    PumpRunnable(s, env);
    var p := Pump(s, env);
    StageThree(p, env.junk, r0);
    var b := SyncBulk(p, env.junk);
    SyncBulkKeeps(p, env.junk, r0);
    var rb, r' := Receive(r0, b.out), Receive(r0, FinalStage(s, env).out);
    forall i | 0 <= i < |p.devs|
      ensures |rb[i]| == |r0[i]| == |p.devs[i].image| == |b.devs[i].image|
      ensures r'[i] == p.devs[i].image <==>
                && (forall k: nat :: k < |rb[i]| ==> !Lost(b, i, k, rb[i]))
                && TailAgrees(p.devs[i].image, r0[i])
    {
      assert DeviceInv(p.devs[i], Receive(r0, p.out)[i]);
      DeviceVerdict(p.devs[i].image, b, i, rb[i], r'[i], r0[i]);
    }
  }

  lemma DeviceVerdict(image: Image, b: State, i: nat, rb: Image, r': Image, r0: Image)
    requires i < |b.devs| && b.devs[i].image == image && |rb| == |r'| == |r0| == |image|
    requires StageThreeImage(image, b, i, rb, r', r0)
    ensures r' == image <==> (forall k: nat :: k < |rb| ==> !Lost(b, i, k, rb)) && TailAgrees(image, r0)
  {
    if r' == image {
      forall k: nat | k < |rb| ensures !Lost(b, i, k, rb) {
        if InFullChunk(image, k) { assert r'[k] == image[k]; }
      }
      forall k: nat | k < |image| && !InFullChunk(image, k) ensures r0[k] == image[k] {
        assert InFullChunk(r', k) == InFullChunk(image, k);
      }
    }
    if (forall k: nat :: k < |rb| ==> !Lost(b, i, k, rb)) && TailAgrees(image, r0) {
      forall k: nat | k < |image| ensures r'[k] == image[k] {
        assert InFullChunk(r', k) == InFullChunk(image, k);
        assert !Lost(b, i, k, rb);
      }
    }
  }

  /** The clean case: chunk-aligned devices and an empty pipeline at the synchronous phase. */
  lemma CleanMigration(s0: State, events: seq<Event>, s: State, env: Env, r0: seq<Image>)
    requires Initial(s0, r0) && Reaches(s0, events, s) && Runnable(s)
    requires !s.err && !Pump(s, env).err
    requires Pump(s, env).inflight == [] && Pump(s, env).queue == []
    requires forall i :: 0 <= i < |Pump(s, env).devs| ==> |Pump(s, env).devs[i].image| % 2048 == 0
    ensures var p := Pump(s, env);
            && !FinalStage(s, env).err
            && |p.devs| == |r0|
            && forall i :: 0 <= i < |r0| ==> Receive(r0, FinalStage(s, env).out)[i] == p.devs[i].image
  {
    RunKeeps(s0, events, s, r0);
    PumpKeeps(s, env, r0);
    PumpRunnable(s, env);
    var p := Pump(s, env);
    var b := SyncBulk(p, env.junk);
    SyncBulkKeeps(p, env.junk, r0);
    StageThree(p, env.junk, r0);
    MigrationConverges(s0, events, s, env, r0);
    forall i | 0 <= i < |p.devs| ensures Receive(r0, FinalStage(s, env).out)[i] == p.devs[i].image {
      NothingMissing(p.devs[i].image, b, i, Receive(r0, b.out)[i], r0[i]);
    }
  }

  lemma NothingMissing(image: Image, b: State, i: nat, rb: Image, r0: Image)
    requires |image| % 2048 == 0 && b.inflight == [] && b.queue == []
    requires i < |b.devs| && b.devs[i].image == image && |rb| == |r0| == |image|
    ensures (forall k: nat :: k < |rb| ==> !Lost(b, i, k, rb)) && TailAgrees(image, r0)
  {
    forall k: nat | k < |image| ensures InFullChunk(image, k) {}
  }

  // ------------------------------------------------------------------ stage 2

  /** is_stage2_completed: it looks at reads in flight and at the bulk walk, not at the queue. */
  predicate Stage2Completed(s: State) {
    s.submitted <= 0 && FirstIncomplete(s.devs) == |s.devs|
  }

  /** After stage 2 reports completion nothing is in flight, stage 3 starts no new read,
      and its queue is emptied exactly when the rate limiter lets every queued block out. */
  lemma StageTwoSuffices(s: State, env: Env, r0: seq<Image>)
    requires Inv(s, r0) && Runnable(s) && Stage2Completed(s)
    requires forall j :: 0 <= j < |s.queue| ==> s.queue[j].ret >= 0
    ensures var p := Pump(s, env);
            && p.inflight == []
            && p.err == s.err
            && (!s.err ==> (p.queue == [] <==> env.quota1 + env.quota2 >= |s.queue|))
  {
    FlushCount(s, env.quota1);
    FlushFrame(s, env.quota1);
    var s1 := FlushBlocks(s, env.quota1);
    if !s1.err {
      var s2 := BulkLoop(s1, env.rate, env.junk);
      assert s2 == s1 || s2 == SaveBulkedBlock(s1, true, env.junk).0;
      FlushCount(s2, env.quota2);
      FlushFrame(s2, env.quota2);
    }
  }

  /** A flush without read errors sends the first `quota` queued blocks, no more, no fewer. */
  lemma {:induction false} FlushCount(s: State, quota: nat)
    requires forall j :: 0 <= j < |s.queue| ==> s.queue[j].ret >= 0
    ensures FlushBlocks(s, quota).queue == s.queue[if quota < |s.queue| then quota else |s.queue|..]
    ensures FlushBlocks(s, quota).err == s.err
    decreases |s.queue|
  {
    if s.queue != [] && quota > 0 {
      FlushCount(FlushOne(s), quota - 1);
    }
  }

  // ------------------------------------------------------------------ when stage 3 fails

  /** A failed read within reach of the call's two flushes. */
  predicate FailedInReach(queue: seq<Block>, quota: nat) {
    exists j :: 0 <= j < |queue| && j < quota && queue[j].ret < 0
  }

  lemma {:induction false} FlushFailsIff(s: State, quota: nat)
    requires !s.err
    ensures var s' := FlushBlocks(s, quota);
            && (s'.err <==> FailedInReach(s.queue, quota))
            && (!s'.err ==> s'.queue == s.queue[if quota < |s.queue| then quota else |s.queue|..])
    decreases |s.queue|
  {
    if s.queue != [] && quota > 0 {
      if s.queue[0].ret >= 0 {
        FlushFailsIff(FlushOne(s), quota - 1);
        var tail := s.queue[1..];
        if FailedInReach(tail, quota - 1) {
          var j :| 0 <= j < |tail| && j < quota - 1 && tail[j].ret < 0;
          assert s.queue[j + 1].ret < 0;
        }
        if FailedInReach(s.queue, quota) {
          var j :| 0 <= j < |s.queue| && j < quota && s.queue[j].ret < 0;
          assert tail[j - 1].ret < 0;
        }
      }
    }
  }

  /** The asynchronous loop only puts reads in flight. */
  lemma {:induction false} BulkLoopFrame(s: State, rate: int, junk: Junk)
    requires Runnable(s)
    ensures BulkLoop(s, rate, junk).queue == s.queue && BulkLoop(s, rate, junk).err == s.err
    decreases Remaining(s.devs)
  {
    if (s.submitted + s.readDone) * 0x10_0000 < rate {
      BulkStepProgress(s, true, junk);
      AsyncStepFrame(s, junk);
      var (s', more) := SaveBulkedBlock(s, true, junk);
      if more { BulkLoopFrame(s', rate, junk); }
    }
  }

  lemma AsyncStepFrame(s: State, junk: Junk)
    requires s.totalSum > 0
    ensures var s' := SaveBulkedBlock(s, true, junk).0; s'.queue == s.queue && s'.err == s.err
  {
  }

  lemma PumpFailsIff(s: State, env: Env)
    requires Runnable(s) && !s.err
    ensures Pump(s, env).err <==> FailedInReach(s.queue, env.quota1 + env.quota2)
    ensures !Pump(s, env).err ==> SameTails(s.devs, Pump(s, env).devs)
  {
    FlushFrame(s, env.quota1);
    FlushFailsIff(s, env.quota1);
    var s1 := FlushBlocks(s, env.quota1);
    if s1.err {
      var j :| 0 <= j < |s.queue| && j < env.quota1 && s.queue[j].ret < 0;
      assert FailedInReach(s.queue, env.quota1 + env.quota2);
    } else {
      BulkLoopFrame(s1, env.rate, env.junk);
      LoopTails(s1, env.rate, env.junk);
      var s2 := BulkLoop(s1, env.rate, env.junk);
      FlushFrame(s2, env.quota2);
      FlushFailsIff(s2, env.quota2);
      LaterFailure(s.queue, env.quota1, env.quota2);
    }
  }

  lemma LaterFailure(queue: seq<Block>, q1: nat, q2: nat)
    requires !FailedInReach(queue, q1)
    ensures var rest := queue[if q1 < |queue| then q1 else |queue|..];
            FailedInReach(rest, q2) <==> FailedInReach(queue, q1 + q2)
  {
    var rest := queue[if q1 < |queue| then q1 else |queue|..];
    if FailedInReach(rest, q2) {
      var j :| 0 <= j < |rest| && j < q2 && rest[j].ret < 0;
      assert queue[q1 + j].ret < 0;
    }
    if FailedInReach(queue, q1 + q2) {
      var j :| 0 <= j < |queue| && j < q1 + q2 && queue[j].ret < 0;
      assert j >= q1;
      assert rest[j - q1].ret < 0;
    }
  }

  /** The last call fails exactly when its flushes reach a failed read, or some device has a
      dirty partial chunk that the walk has passed or will pass over: all of it known when
      the call starts. */
  lemma FinalStageFailsIff(s: State, env: Env, r0: seq<Image>)
    requires Inv(s, r0) && Runnable(s) && !s.err
    ensures FinalStage(s, env).err <==> FailedInReach(s.queue, env.quota1 + env.quota2) || AnyTailStays(s.devs)
  {
    PumpFailsIff(s, env);
    PumpRunnable(s, env);
    var p := Pump(s, env);
    if !p.err {
      PumpKeeps(s, env, r0);
      StageThree(p, env.junk, r0);
      if AnyTailStays(s.devs) { var j :| 0 <= j < |s.devs| && TailStays(s.devs[j]); assert TailStays(p.devs[j]); }
      if AnyTailStays(p.devs) { var j :| 0 <= j < |p.devs| && TailStays(p.devs[j]); assert TailStays(s.devs[j]); }
    }
  }

  // ------------------------------------------------------------------ a run that loses data

  const ONE_SECTOR: Sector := seq(512, _ => 1)

  function ZeroJunk(): Junk { (i, k) => seq(2048, _ => ZERO_SECTOR) }

  /** One device of n sectors full of ones, to be copied onto zeros. */
  function Ones(n: nat): Device { Device(0, seq(n, _ => ONE_SECTOR), false, {}, {}, 0, 0, false) }

  function OneDevice(n: nat): State { State([Ones(n)], [], [], 0, 0, 0, 0, n, -1, [], false) }

  function OneReceiver(n: nat): seq<Image> { [seq(n, _ => ZERO_SECTOR)] }

  lemma Extend(s0: State, events: seq<Event>, s: State, e: Event)
    requires Reaches(s0, events, s) && Runnable(s)
    ensures Reaches(s0, events + [e], Step(s, e))
  {
    assert (events + [e])[..|events|] == events;
  }

  lemma SampleOne(s: State, k: nat)
    requires |s.inflight| == 1 && k < 2048
    requires var b := s.inflight[0]; b.nr == 2048 && b.dev < |s.devs| && b.sector + 2048 <= |s.devs[b.dev].image|
    ensures var s' := DriverRead(s, 0, k);
            && |s'.inflight| == 1 && s' == s.(inflight := s'.inflight)
            && s'.inflight[0] == s.inflight[0].(buf := s'.inflight[0].buf, filled := s'.inflight[0].filled)
            && s'.inflight[0].filled == s.inflight[0].filled + {k}
  {
  }

  /** The driver can finish the read of block 0. */
  lemma {:induction false} SampleAll(s0: State, events: seq<Event>, s: State, n: nat)
    returns (events': seq<Event>, s': State)
    requires Reaches(s0, events, s) && Runnable(s) && |s.inflight| == 1 && n <= 2048
    requires var b := s.inflight[0]; b.nr == 2048 && b.dev < |s.devs| && b.sector + 2048 <= |s.devs[b.dev].image|
    ensures Reaches(s0, events', s') && |s'.inflight| == 1 && s' == s.(inflight := s'.inflight)
    ensures s'.inflight[0] == s.inflight[0].(buf := s'.inflight[0].buf, filled := s'.inflight[0].filled)
    ensures forall k: nat :: k < n ==> k in s'.inflight[0].filled
  {
    if n == 0 {
      events', s' := events, s;
    } else {
      var ev, m := SampleAll(s0, events, s, n - 1);
      Extend(s0, ev, m, Sample(0, n - 1));
      SampleOne(m, n - 1);
      events', s' := ev + [Sample(0, n - 1)], DriverRead(m, 0, n - 1);
    }
  }

  /** The device's only chunk goes into flight with the first save. */
  function InFlight(n: nat): State {
    OneDevice(n).(devs := [Ones(n).(cur := n, bulkDone := true)],
                  inflight := [Block(0, 0, n, ZeroJunk()(0, 0), {}, 0)],
                  submitted := 1, issued := 1, prevProgress := 0, out := [Progress(0)])
  }

  lemma FirstRead(n: nat)
    requires 0 < n <= 2048
    ensures StepDevice(OneDevice(n), 0, true, ZeroJunk()) == InFlight(n).(prevProgress := -1, out := [])
  {
    var s0, junk := OneDevice(n), ZeroJunk();
    var d := s0.devs[0];
    assert d.dirty - ChunksOf(0, n) == {};
    var (s1, fin) := ReadChunk(s0, 0, 0, true, junk);
    assert s1.devs == [d.(cur := n)] && fin;
  }

  lemma FirstReport(s: State, n: nat)
    requires 0 < n && s == InFlight(n).(prevProgress := -1, out := [])
    ensures ReportUpTo(s, 0) == InFlight(n)
  {
    assert s.devs[..1] == s.devs && s.devs[..0] == [];
    assert CompletedSum(s.devs) == 0;
    assert Percent(0, n) == 0;
  }

  lemma FirstStep(n: nat)
    requires 0 < n <= 2048
    ensures SaveBulkedBlock(OneDevice(n), true, ZeroJunk()) == (InFlight(n), true)
  {
    FirstRead(n);
    FirstReport(StepDevice(OneDevice(n), 0, true, ZeroJunk()), n);
  }

  lemma FirstSave(n: nat)
    requires 0 < n <= 2048
    ensures Initial(OneDevice(n), OneReceiver(n)) && Runnable(OneDevice(n))
    ensures var s := InFlight(n);
            Step(OneDevice(n), SaveLive(Env(0, 1, 0, ZeroJunk()))) == s.(out := s.out + [EndOfSection])
  {
    FirstStep(n);
    BulkStepProgress(OneDevice(n), true, ZeroJunk());
    assert BulkLoop(OneDevice(n), 1, ZeroJunk()) == InFlight(n);
  }

  /** A run that ends with stage 2 complete and the device's only block queued. */
  lemma ReachQueued() returns (events: seq<Event>, s: State)
    ensures Initial(OneDevice(2048), OneReceiver(2048)) && Reaches(OneDevice(2048), events, s) && Runnable(s)
    ensures s.devs == [Ones(2048).(cur := 2048, bulkDone := true)]
    ensures s.submitted == 0 && |s.queue| == 1 && For(s.queue[0], 0, 0) && s.totalSum == 2048 && !s.err
    ensures s.prevProgress == 0 && s.out == [Progress(0), EndOfSection]
    ensures Inv(s, OneReceiver(2048)) && |s.devs[0].image| == 2048
  {
    var s0 := OneDevice(2048);
    var e := SaveLive(Env(0, 1, 0, ZeroJunk()));
    FirstSave(2048);
    Extend(s0, [], s0, e);
    var s1 := Step(s0, e);
    RunKeeps(s0, [] + [e], s1, OneReceiver(2048));
    var ev, s2 := SampleAll(s0, [] + [e], s1, 2048);
    Extend(s0, ev, s2, Done(0, 0));
    assert FullyRead(s2.inflight[0]);
    events, s := ev + [Done(0, 0)], Step(s2, Done(0, 0));
    RunKeeps(s0, events, s, OneReceiver(2048));
  }

  /** A device of one sector, written after the walk has passed it: no read has failed, and the
      last stage fails whatever the rate limiter does. */
  lemma PartialChunkFails(env: Env) returns (events: seq<Event>, s: State)
    ensures Initial(OneDevice(1), OneReceiver(1)) && Reaches(OneDevice(1), events, s) && Runnable(s)
    ensures !s.err && s.queue == [] && FinalStage(s, env).err
  {
    var s0 := OneDevice(1);
    var e, w := SaveLive(Env(0, 1, 0, ZeroJunk())), Write(0, 0, [ONE_SECTOR]);
    FirstSave(1);
    Extend(s0, [], s0, e);
    var s1 := Step(s0, e);
    RunKeeps(s0, [] + [e], s1, OneReceiver(1));
    Extend(s0, [] + [e], s1, w);
    events, s := [] + [e] + [w], Step(s1, w);
    RunKeeps(s0, events, s, OneReceiver(1));
    assert 0 in ChunksOf(0, 1);
    assert TailStays(s.devs[0]);
    FinalStageFailsIff(s, env, OneReceiver(1));
  }

  /** Stage 2 reports completion, stage 3 completes without error, the device is
      chunk-aligned, and the receiver still has the old data: the rate limiter kept the
      only block in the queue and cleanup dropped it. */
  lemma QueuedBlockLost() returns (events: seq<Event>, s: State, env: Env)
    ensures Initial(OneDevice(2048), OneReceiver(2048)) && Reaches(OneDevice(2048), events, s) && Runnable(s)
    ensures Stage2Completed(s) && !s.err && !FinalStage(s, env).err
    ensures |s.devs| == 1 && |s.devs[0].image| == 2048
    ensures Receive(OneReceiver(2048), FinalStage(s, env).out)[0] != s.devs[0].image
  {
    events, s := ReachQueued();
    env := Env(0, 0, 0, ZeroJunk());
    StuckQueue(s, env);
  }

  lemma StuckQueue(s: State, env: Env)
    requires Inv(s, OneReceiver(2048)) && Runnable(s) && !s.err && env == Env(0, 0, 0, ZeroJunk())
    requires s.devs == [Ones(2048).(cur := 2048, bulkDone := true)]
    requires s.submitted == 0 && |s.queue| == 1 && For(s.queue[0], 0, 0) && s.totalSum == 2048
    requires s.prevProgress == 0 && s.out == [Progress(0), EndOfSection]
    ensures Stage2Completed(s) && !FinalStage(s, env).err
    ensures Receive(OneReceiver(2048), FinalStage(s, env).out)[0] != s.devs[0].image
  {
    var r0 := OneReceiver(2048);
    assert s.devs[1..] == [] && s.devs[..0] == [];
    assert FirstIncomplete(s.devs) == 1;
    assert CompletedSum(s.devs) == 0;
    assert Pump(s, env) == s;
    assert SyncBulk(s, env.junk) == s;
    StageThree(s, env.junk, r0);
    assert s.out == [] + [Progress(0)] + [EndOfSection];
    ReceiveOne(r0, [Progress(0)], EndOfSection);
    ReceiveOne(r0, [], Progress(0));
    assert Receive(r0, s.out) == r0;
    assert r0[0][0][0] == 0 && s.devs[0].image[0][0] == 1;
    assert Lost(s, 0, 0, r0[0]);
  }
}
