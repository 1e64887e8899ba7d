/**
 The driver object and the theorems about whole runs joined: what a call of block_save_live
 that reports no error does is a step of the protocol, whatever reads may fail; its start is
 an initial state; the bytes it has written in the end load to the source's disks, or lack
 exactly the sectors that could be told before the last call.
 */
module MigrationWhole {
  import opened Disk
  import opened MigrationProtocol
  import opened MigrationConvergence
  import opened MigrationTheorems
  import opened MigrationWire
  import opened MigrationEndToEnd
  import opened MigrationRetry
  import opened MigrationLoss
  import opened MigrationDriver
  import opened MigrationProgress

  /** What initialisation makes of the machine's block devices. */
  function Start(bs: seq<BlockDevice>, shared: bool): State {
    var devs := InitDevices(bs, shared);
    State(devs, [], [], 0, 0, 0, 0, SectorSum(devs), -1, [], false)
  }

  function Lens(devs: seq<Device>): (lens: seq<nat>)
    ensures |lens| == |devs| && forall i :: 0 <= i < |devs| ==> lens[i] == |devs[i].image|
  {
    if devs == [] then [] else Lens(devs[..|devs| - 1]) + [|devs[|devs| - 1].image|]
  }

  lemma {:induction false} SumIsTotal(devs: seq<Device>)
    ensures SectorSum(devs) == Total(Lens(devs))
  {
    if devs != [] {
      SumIsTotal(devs[..|devs| - 1]);
      assert Lens(devs)[..|devs| - 1] == Lens(devs[..|devs| - 1]);
    }
  }

  lemma StartStream(bs: seq<BlockDevice>, shared: bool)
    requires InitDevices(bs, shared) != []
    ensures StreamInv(Start(bs, shared), Lens(InitDevices(bs, shared)))
  {
    var devs := InitDevices(bs, shared);
    InitDevicesFresh(bs, shared);
    SectorSumPositive(devs);
    SumIsTotal(devs);
    DevicesStream(devs, Lens(devs));
  }

  lemma DevicesStream(devs: seq<Device>, lens: seq<nat>)
    requires |lens| == |devs| && SectorSum(devs) == Total(lens) > 0
    requires forall i :: 0 <= i < |devs| ==> lens[i] == |devs[i].image| && devs[i].completed == 0
    ensures StreamInv(State(devs, [], [], 0, 0, 0, 0, SectorSum(devs), -1, [], false), lens)
  {
  }

  // ------------------------------------------------------------------ a call without error

  lemma {:induction false} FlushErr(s: State, quota: nat)
    requires s.err
    ensures FlushBlocks(s, quota).err
    decreases |s.queue|
  {
    if s.queue != [] && quota > 0 && s.queue[0].ret >= 0 { FlushErr(FlushOne(s), quota - 1); }
  }

  ghost predicate AllWork(io: Reads) {
    && (forall c :: io.submits(c)) && (forall c :: io.answers(c)) && forall i, k :: io.dirty(i, k)
  }

  /** With no error, or no read that fails, a loop is the protocol's phase. */
  lemma LoopWorks(s: State, mode: Mode, junk: Junk, answers: Answers, n: nat)
    requires Runnable(s) && Ends(s, mode, junk, answers, n)
    requires (!s.err && forall c :: answers(c)) || !Turns(s, mode, junk, answers, n).s.err
    ensures Turns(s, mode, junk, answers, n).s == Phase(s, mode, junk)
    ensures Runnable(Phase(s, mode, junk)) && Turns(s, mode, junk, answers, n).s.err == false
  {
    if !s.err { LoopErrorIff(s, mode, junk, answers, n); }
    TurnsRunnable(s, mode, junk, answers, n);
    LoopIsPhase(s, mode, junk, answers, n);
  }

  lemma PumpWorks(s: State, stage: int, env: Env, io: Reads, n: nat, m: nat)
    requires Runnable(s) && !s.err && LoopsEnd(s, stage, env, io, n, m)
    requires AllWork(io) || !TryPump(s, env, io, n).err
    ensures TryPump(s, env, io, n) == Pump(s, env)
  {
    FlushFrame(s, env.quota1);
    var s1 := FlushBlocks(s, env.quota1);
    if !s1.err {
      var s2 := Turns(s1, Async(env.rate), env.junk, io.submits, n).s;
      if s2.err { FlushErr(s2, env.quota2); }
      LoopWorks(s1, Async(env.rate), env.junk, io.submits, n);
    }
  }

  lemma CompleteWorks(p: State, junk: Junk, io: Reads, m: nat)
    requires Runnable(p) && !p.err && Ends(p, Sync, junk, io.answers, m)
    requires AllWork(io) || !TryComplete(p, junk, io, m).err
    ensures TryComplete(p, junk, io, m) == Complete(p, junk)
  {
    LoopWorks(p, Sync, junk, io.answers, m);
    DirtyBlocksWork(SyncBulk(p, junk), io.dirty);
  }

  /** A call that reports no error, whatever could have failed, and a call none of whose reads
      fails, does what the protocol says. */
  lemma StageWorks(s: State, stage: int, env: Env, io: Reads, n: nat, m: nat)
    requires Runnable(s) && !s.err && LoopsEnd(s, stage, env, io, n, m)
    requires AllWork(io) || !TryStage(s, stage, env, io, n, m).0.err
    ensures TryStage(s, stage, env, io, n, m) == SaveStage(s, stage, env)
  {
    PumpWorks(s, stage, env, io, n, m);
    PumpRunnable(s, env);
    var p := Pump(s, env);
    if !p.err && stage == 3 { CompleteWorks(p, env.junk, io, m); }
  }

  /** A call before the last stage is the protocol's step, or reports an error and has dropped
      its lists. */
  lemma StageIsStep(s: State, stage: int, env: Env, io: Reads, n: nat, m: nat)
    requires Runnable(s) && !s.err && stage != 3 && LoopsEnd(s, stage, env, io, n, m)
    ensures var s' := TryStage(s, stage, env, io, n, m).0;
            if s'.err then s'.devs == [] && s'.queue == [] else s' == Step(s, SaveLive(env))
  {
    if !TryStage(s, stage, env, io, n, m).0.err { StageWorks(s, stage, env, io, n, m); }
  }

  /** The last stage is the protocol's final stage, likewise. */
  lemma StageIsFinal(s: State, env: Env, io: Reads, n: nat, m: nat)
    requires Runnable(s) && !s.err && LoopsEnd(s, 3, env, io, n, m)
    ensures var s' := TryStage(s, 3, env, io, n, m).0;
            s'.devs == [] && s'.queue == [] && (!s'.err ==> s' == FinalStage(s, env))
  {
    if !TryStage(s, 3, env, io, n, m).0.err { StageWorks(s, 3, env, io, n, m); }
  }

  // ------------------------------------------------------------------ from devices to disks

  /** The receiver's devices match the migrated ones, and with a shared base the sectors not
      in the overlay agree. */
  ghost predicate Prepared(bs: seq<BlockDevice>, shared: bool, r0: seq<Image>) {
    var devs := InitDevices(bs, shared);
    && devs != [] && |r0| == |devs|
    && (forall i :: 0 <= i < |r0| ==> |r0[i]| == |devs[i].image|)
    && (shared ==> forall i, k: nat :: 0 <= i < |r0| && k < |r0[i]| && k !in devs[i].alloc ==>
          r0[i][k] == devs[i].image[k])
  }

  /** From the machine's block devices to the receiver's disks: whatever happened between the
      first save and the last, if the last call finds no read failed or pending and reports no
      error, what the driver has written loads without error and leaves every disk as the
      source has it. */
  lemma DriverEndToEnd(bs: seq<BlockDevice>, shared: bool, events: seq<Event>, s: State, env: Env,
                       io: Reads, n: nat, m: nat, r0: seq<Image>, names: seq<Name>, st: Stale)
    requires Prepared(bs, shared, r0) && |names| == |r0| && NamesOk(names) && LensOk(Lens(InitDevices(bs, shared)))
    requires forall i :: 0 <= i < |r0| ==> |r0[i]| % 2048 == 0
    requires Reaches(Start(bs, shared), events, s) && Runnable(s) && !s.err && LoopsEnd(s, 3, env, io, n, m)
    requires !TryStage(s, 3, env, io, n, m).0.err
    requires var p := Pump(s, env); !p.err && p.inflight == [] && p.queue == []
    ensures var lens, p, f := Lens(InitDevices(bs, shared)), Pump(s, env), TryStage(s, 3, env, io, n, m).0;
            && |p.devs| == |r0| && RecordsOk(lens, f.out)
            && var o := LoadAll(names, st, r0, EncodeAll(names, lens, f.out));
               && o.code == Ok && o.rest == [] && o.read == ItemsOf(f.out) && |o.images| == |r0|
               && forall i :: 0 <= i < |r0| ==> o.images[i] == p.devs[i].image
  {
    var s0, lens := Start(bs, shared), Lens(InitDevices(bs, shared));
    StartIsInitial(bs, shared, r0);
    StartStream(bs, shared);
    StageIsFinal(s, env, io, n, m);
    MigrationEndToEnd.MigrationEndToEnd(s0, events, s, env, r0, names, st, lens);
  }

  /** Whatever the disks are like, the stream of every run whose last call reports no error loads to its end: the
      receiver reads the records one by one and has the disks they give in order. */
  lemma DriverStream(bs: seq<BlockDevice>, shared: bool, events: seq<Event>, s: State, env: Env,
                     io: Reads, n: nat, m: nat, r0: seq<Image>, names: seq<Name>, st: Stale)
    requires Prepared(bs, shared, r0) && |names| == |r0| && NamesOk(names) && LensOk(Lens(InitDevices(bs, shared)))
    requires Reaches(Start(bs, shared), events, s) && Runnable(s) && !s.err && LoopsEnd(s, 3, env, io, n, m)
    requires !TryStage(s, 3, env, io, n, m).0.err
    ensures var lens, f := Lens(InitDevices(bs, shared)), TryStage(s, 3, env, io, n, m).0;
            && RecordsOk(lens, f.out)
            && LoadAll(names, st, r0, EncodeAll(names, lens, f.out))
               == Outcome(Ok, Receive(r0, f.out), [], ItemsOf(f.out))
  {
    var s0, lens := Start(bs, shared), Lens(InitDevices(bs, shared));
    StartIsInitial(bs, shared, r0);
    StartStream(bs, shared);
    StageIsFinal(s, env, io, n, m);
    RunOk(s0, events, s, r0, lens);
    FinalStageOk(s, env, lens);
    StreamRoundTrip(names, st, lens, r0, FinalStage(s, env).out);
  }

  /** The receiver of such a stream prints "100 %" with a newline at the very end; unless every disk shares its
      base image it has not printed it before. */
  lemma DriverPrints(bs: seq<BlockDevice>, shared: bool, events: seq<Event>, s: State, env: Env,
                     io: Reads, n: nat, m: nat, r0: seq<Image>, names: seq<Name>, st: Stale)
    requires Prepared(bs, shared, r0) && |names| == |r0| && NamesOk(names) && LensOk(Lens(InitDevices(bs, shared)))
    requires Reaches(Start(bs, shared), events, s) && Runnable(s) && !s.err && LoopsEnd(s, 3, env, io, n, m)
    requires !TryStage(s, 3, env, io, n, m).0.err
    ensures var lens, f := Lens(InitDevices(bs, shared)), TryStage(s, 3, env, io, n, m).0;
            && RecordsOk(lens, f.out)
            && PrintsLast(LoadAll(names, st, r0, EncodeAll(names, lens, f.out)).read, SomePlain(Pump(s, env).devs))
  {
    DriverStream(bs, shared, events, s, env, io, n, m, r0, names, st);
    StageIsFinal(s, env, io, n, m);
    StartIsInitial(bs, shared, r0);
    ProgressTold(Start(bs, shared), events, s, r0);
    HundredLast(s, env);
    LastItems(FinalStage(s, env).out, SomePlain(Pump(s, env).devs));
  }

  /** One hundred is printed, the section ends, and with a disk of its own it is printed only then. */
  predicate PrintsLast(read: seq<Item>, once: bool) {
    && |read| >= 2 && read[|read| - 2] == Printed(100, true) && read[|read| - 1] == Ended
    && (once ==> forall k :: 0 <= k < |read| && read[k] == Printed(100, true) ==> k == |read| - 2)
  }

  lemma LastItems(out: seq<Record>, once: bool)
    requires |out| >= 2 && out[|out| - 2] == Progress(100) && out[|out| - 1] == EndOfSection
    requires once ==> forall k :: 0 <= k < |out| && out[k] == Progress(100) ==> k == |out| - 2
    ensures PrintsLast(ItemsOf(out), once)
  {
    var read := ItemsOf(out);
    if once {
      forall k | 0 <= k < |read| && read[k] == Printed(100, true) ensures k == |read| - 2 {
        assert ItemOf(out[k]) == Printed(100, true);
      }
    }
  }

  /** In every run whose last call reports no error, the disk the receiver has after loading the stream equals the
      source's if and only if the partial last chunk agreed beforehand and no block dropped by the call leaves
      the receiver without a sector, all told from the state before the call. */
  lemma DriverLoss(bs: seq<BlockDevice>, shared: bool, events: seq<Event>, s: State, env: Env,
                   io: Reads, n: nat, m: nat, r0: seq<Image>, names: seq<Name>, st: Stale, i: nat)
    requires Prepared(bs, shared, r0) && |names| == |r0| && NamesOk(names) && LensOk(Lens(InitDevices(bs, shared)))
    requires Reaches(Start(bs, shared), events, s) && Runnable(s) && !s.err && LoopsEnd(s, 3, env, io, n, m)
    requires !TryStage(s, 3, env, io, n, m).0.err && i < |r0|
    ensures |s.devs| == |r0| && |r0[i]| == |s.devs[i].image|
    ensures var lens, f := Lens(InitDevices(bs, shared)), TryStage(s, 3, env, io, n, m).0;
            && RecordsOk(lens, f.out)
            && var o := LoadAll(names, st, r0, EncodeAll(names, lens, f.out));
               var r, image := Delivered(Receive(r0, s.out), s.queue, Reach(s, env)), s.devs[i].image;
               && o.code == Ok && |o.images| == |r0|
               && (o.images[i] == image <==>
                     && TailAgrees(image, r0[i])
                     && forall k: nat :: k < |image| && InFullChunk(image, k) && Dropped(s, env, i, k / 2048) ==>
                          r[i][k] == image[k])
  {
    DriverStream(bs, shared, events, s, env, io, n, m, r0, names, st);
    StartIsInitial(bs, shared, r0);
    StageIsFinal(s, env, io, n, m);
    RunKeeps(Start(bs, shared), events, s, r0);
    FinalStageFailsIff(s, env, r0);
    LossTold(Start(bs, shared), events, s, env, r0, i);
  }

  // ------------------------------------------------------------------ answers and ends of sections

  /** What a call before the last answers: 1 if and only if it is a call of the second stage that reports no error,
      no read is in flight after it and every walk is at the end of its device. */
  lemma StageAnswers(bs: seq<BlockDevice>, shared: bool, events: seq<Event>, s: State, stage: int, env: Env,
                     io: Reads, n: nat, m: nat, r0: seq<Image>)
    requires Prepared(bs, shared, r0) && Reaches(Start(bs, shared), events, s) && Runnable(s) && !s.err
    requires stage != 3 && LoopsEnd(s, stage, env, io, n, m)
    ensures var (s', r) := TryStage(s, stage, env, io, n, m);
            && (r == 0 || r == 1)
            && (r == 1 <==> && stage == 2 && !s'.err && s'.inflight == []
                            && forall i :: 0 <= i < |s'.devs| ==> s'.devs[i].cur == |s'.devs[i].image|)
  {
    var p := Pump(s, env);
    StartIsInitial(bs, shared, r0);
    RunKeeps(Start(bs, shared), events, s, r0);
    ProgressTold(Start(bs, shared), events, s, r0);
    if !TryStage(s, stage, env, io, n, m).0.err {
      StageWorks(s, stage, env, io, n, m);
      PumpKeeps(s, env, r0);
      PumpBelow(s, env);
      StageTwoMeans(p, r0);
    }
  }

  lemma StageTwoMeans(p: State, r0: seq<Image>)
    requires Inv(p, r0) && BelowInv(p)
    ensures Stage2Completed(p)
            <==> p.inflight == [] && forall i :: 0 <= i < |p.devs| ==> p.devs[i].cur == |p.devs[i].image|
  {
    forall i | 0 <= i < |p.devs| ensures WalkFits(p.devs[i]) {}
    if FirstIncomplete(p.devs) < |p.devs| { assert !p.devs[FirstIncomplete(p.devs)].bulkDone; }
  }

  /** The stream has only grown, and by no end of section. */
  predicate LeftOpen(out: seq<Record>, out': seq<Record>) {
    out <= out' && forall k :: |out| <= k < |out'| ==> out'[k] != EndOfSection
  }

  lemma {:induction false} FlushOpen(s: State, quota: nat)
    ensures LeftOpen(s.out, FlushBlocks(s, quota).out)
    decreases |s.queue|
  {
    if s.queue != [] && quota > 0 && s.queue[0].ret >= 0 { FlushOpen(FlushOne(s), quota - 1); }
  }

  lemma StepOpen(s: State, i: nat, async: bool, junk: Junk, ok: bool)
    requires i < |s.devs|
    ensures LeftOpen(s.out, TryStep(s, i, async, junk, ok).out)
  {
  }

  lemma BulkedOpen(s: State, async: bool, junk: Junk, ok: bool)
    requires s.totalSum > 0
    ensures LeftOpen(s.out, TryBulked(s, async, junk, ok).0.out)
  {
    var i := FirstIncomplete(s.devs);
    if i < |s.devs| { StepOpen(s, i, async, junk, ok); }
  }

  lemma {:induction false} TurnsOpen(s: State, mode: Mode, junk: Junk, answers: Answers, n: nat)
    ensures LeftOpen(s.out, Turns(s, mode, junk, answers, n).s.out)
  {
    if n > 0 {
      TurnsOpen(s, mode, junk, answers, n - 1);
      var l := Turns(s, mode, junk, answers, n - 1);
      TurnOpen(l, mode, junk, answers);
      assert Turns(s, mode, junk, answers, n) == Turn(l, mode, junk, answers);
    }
  }

  lemma TurnOpen(l: Loop, mode: Mode, junk: Junk, answers: Answers)
    ensures LeftOpen(l.s.out, Turn(l, mode, junk, answers).s.out)
  {
    if !l.ended && l.s.totalSum > 0 && !Held(l.s, mode) { BulkedOpen(l.s, mode.Async?, junk, answers(l.calls)); }
  }

  lemma PumpOpen(s: State, env: Env, io: Reads, n: nat)
    ensures LeftOpen(s.out, TryPump(s, env, io, n).out)
  {
    var s1 := FlushBlocks(s, env.quota1);
    FlushOpen(s, env.quota1);
    if !s1.err {
      TurnsOpen(s1, Async(env.rate), env.junk, io.submits, n);
      FlushOpen(Turns(s1, Async(env.rate), env.junk, io.submits, n).s, env.quota2);
    }
  }

  lemma {:induction false} DirtyOpen(s: State, i: nat, sector: nat, ok: (nat, nat) -> bool)
    requires i < |s.devs|
    ensures LeftOpen(s.out, TryDirty(s, i, sector, ok).out)
    decreases s.devs[i].cur - sector
  {
    var d := s.devs[i];
    if sector < d.cur {
      if sector / 2048 !in d.dirty {
        DirtyOpen(s, i, sector + 2048, ok);
      } else if sector + 2048 <= |d.image| && ok(i, sector) {
        DirtyOpen(ResendOne(s, i, sector), i, sector + 2048, ok);
      }
    }
  }

  lemma {:induction false} PassOpen(s: State, i: nat, ok: (nat, nat) -> bool)
    requires i <= |s.devs|
    ensures LeftOpen(s.out, TryDirtyPass(s, i, ok).out)
    decreases |s.devs| - i
  {
    if i < |s.devs| {
      DirtyOpen(s, i, 0, ok);
      TryDirtyFrame(s, i, 0, ok);
      var s' := TryDirty(s, i, 0, ok);
      if !s'.err { PassOpen(s', i + 1, ok); }
    }
  }

  /** A call that reports an error leaves its section open, whatever failed; one that reports none closes it with
      its last record and with no other. */
  lemma SectionClosedIff(s: State, stage: int, env: Env, io: Reads, n: nat, m: nat)
    requires !s.err
    ensures var s' := TryStage(s, stage, env, io, n, m).0;
            if s'.err then LeftOpen(s.out, s'.out)
            else |s'.out| > |s.out| && LeftOpen(s.out, s'.out[..|s'.out| - 1]) && s'.out[|s'.out| - 1] == EndOfSection
  {
    var p := TryPump(s, env, io, n);
    PumpOpen(s, env, io, n);
    if !p.err && stage == 3 {
      var q := Turns(p, Sync, env.junk, io.answers, m).s;
      TurnsOpen(p, Sync, env.junk, io.answers, m);
      PassOpen(q.(err := false), 0, io.dirty);
    }
    var s' := TryStage(s, stage, env, io, n, m).0;
    if !s'.err {
      var q := Turns(p, Sync, env.junk, io.answers, m).s;
      var before := if stage == 3 then TryDirtyPass(q.(err := false), 0, io.dirty).out + [Progress(100)] else p.out;
      assert s'.out == before + [EndOfSection];
      assert s'.out[..|s'.out| - 1] == before;
    }
  }

  /** One sector to migrate and reads that fail: the loop of the last stage does not end. */
  lemma OneSectorHangs(junk: Junk, n: nat)
    ensures Runnable(OneDevice(1)) && !Ends(OneDevice(1), Sync, junk, _ => false, n)
  {
    var s := OneDevice(1);
    var d := s.devs[0];
    assert d == Ones(1) && BulkAt(d) == 0 && Advanced(d).cur == 1;
    assert Chunks(d) == 1;
    ChunksIn(s.devs, 0);
    FailingNeverEnds(s, Sync, junk, _ => false, n);
  }
}
