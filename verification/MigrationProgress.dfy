/**
 The progress a migration reports: what the percentages on the stream say of the walk, in
 every state of every run, whether reads work or fail.
 */
module MigrationProgress {
  import opened Arithmetic
  import opened Disk
  import opened MigrationProtocol
  import opened MigrationConvergence
  import opened MigrationTheorems
  import opened MigrationRetry
  import opened MigrationDriver

  // ------------------------------------------------------------------ the percentages on a stream

  /** The last percentage on the stream; -1 if there is none. */
  function LastPercent(out: seq<Record>): int {
    if out == [] then -1
    else
      match out[|out| - 1]
      case Progress(p) => p
      case _ => LastPercent(out[..|out| - 1])
  }

  /** No percentage is told twice in a row. */
  predicate Changing(out: seq<Record>) {
    forall k :: 0 <= k < |out| && out[k].Progress? ==> LastPercent(out[..k]) != out[k].percent
  }

  lemma AddRecord(out: seq<Record>, rec: Record)
    requires Changing(out) && (rec.Progress? ==> rec.percent != LastPercent(out))
    ensures Changing(out + [rec]) && LastPercent(out + [rec]) == if rec.Progress? then rec.percent else LastPercent(out)
  {
    var out' := out + [rec];
    assert out'[..|out|] == out;
    forall k | 0 <= k < |out'| && out'[k].Progress? ensures LastPercent(out'[..k]) != out'[k].percent {
      if k < |out| { assert out'[..k] == out[..k] && out'[k] == out[k]; }
    }
  }

  // ------------------------------------------------------------------ the invariant

  /** p is the percentage of `total` that `done` makes, rounded down. */
  predicate PercentIs(p: int, done: nat, total: int) { p * total <= 100 * done < (p + 1) * total }

  /** A walk is at the end of its device exactly when it is marked done, and has looked at no sector behind it. */
  predicate WalkFits(d: Device) {
    && |d.image| > 0 && Aligned(d) && (d.bulkDone <==> d.cur == |d.image|)
    && d.completed <= |d.image| && (!d.shared ==> d.completed < |d.image|)
  }

  /** Devices behind the one being walked are untouched. */
  predicate InOrder(devs: seq<Device>) {
    && (forall i :: 0 <= i < |devs| ==> WalkFits(devs[i]))
    && (forall j :: FirstIncomplete(devs) < j < |devs| ==> devs[j].completed == 0 && !devs[j].bulkDone)
  }

  /** The last percentage told is that of the sectors walked; none is told before the first step. */
  predicate Told(s: State) {
    && s.totalSum > 0 && s.prevProgress == LastPercent(s.out) && Changing(s.out)
    && (|| PercentIs(s.prevProgress, CompletedSum(s.devs), s.totalSum)
        || (s.prevProgress == -1 && CompletedSum(s.devs) == 0))
  }

  predicate ProgressInv(s: State) { InOrder(s.devs) && Told(s) }

  // ------------------------------------------------------------------ sums

  lemma {:induction false} SameSum(devs: seq<Device>, devs': seq<Device>)
    requires |devs| == |devs'| && forall i :: 0 <= i < |devs| ==> devs[i].completed == devs'[i].completed
    ensures CompletedSum(devs) == CompletedSum(devs')
  {
    if devs != [] { SameSum(devs[..|devs| - 1], devs'[..|devs| - 1]); }
  }

  lemma {:induction false} ZeroTail(devs: seq<Device>, n: nat)
    requires n <= |devs| && forall j :: n <= j < |devs| ==> devs[j].completed == 0
    ensures CompletedSum(devs) == CompletedSum(devs[..n])
    decreases |devs|
  {
    if n == |devs| {
      assert devs[..n] == devs;
    } else {
      var init := devs[..|devs| - 1];
      ZeroTail(init, n);
      assert init[..n] == devs[..n];
    }
  }

  lemma {:induction false} SameFirst(devs: seq<Device>, devs': seq<Device>)
    requires |devs| == |devs'| && forall i :: 0 <= i < |devs| ==> devs[i].bulkDone == devs'[i].bulkDone
    ensures FirstIncomplete(devs) == FirstIncomplete(devs')
    decreases |devs|
  {
    if devs != [] { SameFirst(devs[1..], devs'[1..]); }
  }

  // ------------------------------------------------------------------ one step of the walk

  /** Whether the read is made, works or fails, or there is none left to make: completed is the sector the
      walk has come to. */
  lemma Looked(s: State, i: nat, async: bool, junk: Junk, ok: bool)
    requires i < |s.devs| && Aligned(s.devs[i])
    ensures var s' := TryStep(s, i, async, junk, ok);
            && s'.devs == s.devs[i := s'.devs[i]] && s'.devs[i].completed == BulkAt(s.devs[i])
            && s'.prevProgress == s.prevProgress && s'.totalSum == s.totalSum
  {
    BulkAtSpec(s.devs[i]);
  }

  lemma StepWalked(s: State, i: nat, async: bool, junk: Junk, ok: bool)
    requires i < |s.devs| && WalkFits(s.devs[i]) && !s.devs[i].bulkDone
    ensures WalkFits(TryStep(s, i, async, junk, ok).devs[i])
  {
    var d := s.devs[i];
    BulkAtSpec(d);
    if BulkAt(d) < |d.image| {
      ChunkFits(d, BulkAt(d));
      if ok { StepShape(s, i, async, junk); }
    }
  }

  /** A device whose walk has read the chunk that holds `at`. */
  lemma ChunkFits(d: Device, at: nat)
    requires WalkFits(d) && d.cur <= at < |d.image| && (!d.shared ==> at == d.cur)
    ensures var end := at / 2048 * 2048 + Min(2048, |d.image| - at / 2048 * 2048);
            WalkFits(d.(completed := at, cur := end, bulkDone := end >= |d.image|))
  {
  }

  lemma StepOut(s: State, i: nat, async: bool, junk: Junk, ok: bool)
    requires i < |s.devs| && Changing(s.out)
    ensures var s' := TryStep(s, i, async, junk, ok); Changing(s'.out) && LastPercent(s'.out) == LastPercent(s.out)
  {
    var d := s.devs[i];
    if ok && !async && BulkAt(d) < |d.image| {
      var out' := TryStep(s, i, async, junk, ok).out;
      assert out' == s.out + [out'[|s.out|]];
      AddRecord(s.out, out'[|s.out|]);
    }
  }

  lemma PercentOf(done: nat, total: nat)
    requires total > 0
    ensures PercentIs(Percent(done, total), done, total)
  {
  }

  lemma ReportTells(s: State, done: nat)
    requires s.totalSum > 0 && s.prevProgress == LastPercent(s.out) && Changing(s.out)
    ensures var s' := ReportProgress(s, done);
            && s'.prevProgress == LastPercent(s'.out) && Changing(s'.out) && s'.devs == s.devs
            && s'.totalSum == s.totalSum && PercentIs(s'.prevProgress, done, s'.totalSum)
  {
    PercentOf(done, s.totalSum);
    var p := Percent(done, s.totalSum);
    if p != s.prevProgress { AddRecord(s.out, Progress(p)); }
  }

  lemma OrderKept(devs: seq<Device>, devs': seq<Device>)
    requires InOrder(devs) && |devs'| == |devs| && FirstIncomplete(devs) < |devs|
    requires var i := FirstIncomplete(devs); devs' == devs[i := devs'[i]] && WalkFits(devs'[i])
    ensures InOrder(devs') && forall j :: FirstIncomplete(devs) < j < |devs| ==> devs'[j].completed == 0
  {
    var i := FirstIncomplete(devs);
    FirstAtLeast(devs', i);
  }

  lemma {:induction false} FirstAtLeast(devs: seq<Device>, i: nat)
    requires i <= |devs| && forall j :: 0 <= j < i ==> devs[j].bulkDone
    ensures FirstIncomplete(devs) >= i
    decreases |devs|
  {
    if devs != [] && i > 0 { FirstAtLeast(devs[1..], i - 1); }
  }

  /** One step of the walk keeps the invariant, and tells the percentage of what is walked then. */
  lemma BulkedTells(s: State, async: bool, junk: Junk, ok: bool)
    requires ProgressInv(s)
    ensures var s' := TryBulked(s, async, junk, ok).0;
            ProgressInv(s') && PercentIs(s'.prevProgress, CompletedSum(s'.devs), s'.totalSum)
  {
    var i := FirstIncomplete(s.devs);
    if i == |s.devs| {
      ReportTells(s, CompletedSum(s.devs));
    } else {
      var s1 := TryStep(s, i, async, junk, ok);
      Looked(s, i, async, junk, ok);
      StepWalked(s, i, async, junk, ok);
      StepOut(s, i, async, junk, ok);
      OrderKept(s.devs, s1.devs);
      ZeroTail(s1.devs, i + 1);
      ReportTells(s1, CompletedSum(s1.devs[..i + 1]));
    }
  }

  // ------------------------------------------------------------------ below one hundred

  /** Some device does not share its base image. */
  predicate SomePlain(devs: seq<Device>) { exists i :: 0 <= i < |devs| && !devs[i].shared }

  /** No record tells one hundred. */
  predicate Below(out: seq<Record>) { forall k :: 0 <= k < |out| && out[k].Progress? ==> out[k].percent < 100 }

  predicate BelowInv(s: State) {
    && ProgressInv(s) && s.totalSum == SectorSum(s.devs)
    && (SomePlain(s.devs) ==> Below(s.out))
  }

  lemma {:induction false} SumBelow(devs: seq<Device>)
    requires forall i :: 0 <= i < |devs| ==> WalkFits(devs[i])
    ensures CompletedSum(devs) <= SectorSum(devs) && (SomePlain(devs) ==> CompletedSum(devs) < SectorSum(devs))
  {
    if devs != [] {
      var init := devs[..|devs| - 1];
      SumBelow(init);
      if SomePlain(devs) {
        var i :| 0 <= i < |devs| && !devs[i].shared;
        if i < |devs| - 1 { assert !init[i].shared; }
      }
    }
  }

  lemma PercentBelow(p: int, done: nat, total: int)
    requires PercentIs(p, done, total) && done < total
    ensures p < 100
  {
    MulMonotone(total, 100, if p < 100 then 100 else p);
  }

  lemma {:induction false} SameSectors(devs: seq<Device>, devs': seq<Device>)
    requires |devs| == |devs'| && forall i :: 0 <= i < |devs| ==> |devs[i].image| == |devs'[i].image|
    ensures SectorSum(devs) == SectorSum(devs')
  {
    if devs != [] { SameSectors(devs[..|devs| - 1], devs'[..|devs| - 1]); }
  }

  /** Devices that are the same but for what the guest writes. */
  predicate SameWalks(devs: seq<Device>, devs': seq<Device>) {
    |devs'| == |devs| && forall i :: 0 <= i < |devs| ==>
      var d, d' := devs[i], devs'[i];
      d' == d.(image := d'.image, dirty := d'.dirty, alloc := d'.alloc) && |d'.image| == |d.image|
  }

  lemma DevicesSame(s: State, s': State)
    requires BelowInv(s) && SameWalks(s.devs, s'.devs)
    requires s'.out == s.out && s'.prevProgress == s.prevProgress && s'.totalSum == s.totalSum
    ensures BelowInv(s')
  {
    SameSum(s.devs, s'.devs);
    SameFirst(s.devs, s'.devs);
    SameSectors(s.devs, s'.devs);
    forall i | 0 <= i < |s'.devs| ensures WalkFits(s'.devs[i]) { assert WalkFits(s.devs[i]); }
    if SomePlain(s'.devs) {
      var i :| 0 <= i < |s'.devs| && !s'.devs[i].shared;
      assert !s.devs[i].shared;
    }
  }

  lemma MoreOut(s: State, s': State, rec: Record)
    requires BelowInv(s) && s'.out == s.out + [rec] && !rec.Progress?
    requires s'.devs == s.devs && s'.prevProgress == s.prevProgress && s'.totalSum == s.totalSum
    ensures BelowInv(s')
  {
    AddRecord(s.out, rec);
  }

  lemma {:induction false} FlushBelow(s: State, quota: nat)
    requires BelowInv(s)
    ensures BelowInv(FlushBlocks(s, quota))
    decreases |s.queue|
  {
    if s.queue != [] && quota > 0 && s.queue[0].ret >= 0 {
      var b := s.queue[0];
      MoreOut(s, FlushOne(s), DeviceBlock(b.dev, b.sector, b.buf));
      FlushBelow(FlushOne(s), quota - 1);
    }
  }

  lemma ReportBelow(s: State, done: nat)
    requires s.totalSum > 0 && Below(s.out) && done < s.totalSum
    ensures Below(ReportProgress(s, done).out)
  {
    PercentOf(done, s.totalSum);
    PercentBelow(Percent(done, s.totalSum), done, s.totalSum);
  }

  lemma StepBelow(s: State, i: nat, async: bool, junk: Junk, ok: bool)
    requires i < |s.devs| && Below(s.out)
    ensures Below(TryStep(s, i, async, junk, ok).out)
  {
  }

  lemma StepSame(s: State, i: nat, async: bool, junk: Junk, ok: bool)
    requires i < |s.devs|
    ensures var s' := TryStep(s, i, async, junk, ok);
            forall j :: 0 <= j < |s.devs| ==>
              |s'.devs[j].image| == |s.devs[j].image| && s'.devs[j].shared == s.devs[j].shared
  {
  }

  lemma BulkedBelow(s: State, async: bool, junk: Junk, ok: bool)
    requires BelowInv(s)
    ensures BelowInv(TryBulked(s, async, junk, ok).0)
  {
    var i := FirstIncomplete(s.devs);
    BulkedTells(s, async, junk, ok);
    if i == |s.devs| {
      SumBelow(s.devs);
      if SomePlain(s.devs) { ReportBelow(s, CompletedSum(s.devs)); }
    } else {
      var s1 := SteppedBelow(s, i, async, junk, ok);
      if SomePlain(s1.devs) { WalkBelow(s1, i); }
    }
  }

  lemma SteppedBelow(s: State, i: nat, async: bool, junk: Junk, ok: bool) returns (s1: State)
    requires BelowInv(s) && i == FirstIncomplete(s.devs) < |s.devs|
    ensures s1 == TryStep(s, i, async, junk, ok) && |s1.devs| == |s.devs|
    ensures s1.totalSum == SectorSum(s1.devs) > 0 && (SomePlain(s1.devs) ==> Below(s1.out))
    ensures forall j :: 0 <= j < |s1.devs| ==> WalkFits(s1.devs[j])
    ensures forall j :: i < j < |s1.devs| ==> s1.devs[j].completed == 0
  {
    s1 := TryStep(s, i, async, junk, ok);
    StepSame(s, i, async, junk, ok);
    SameSectors(s.devs, s1.devs);
    SamePlain(s.devs, s1.devs);
    Looked(s, i, async, junk, ok);
    StepWalked(s, i, async, junk, ok);
    OrderKept(s.devs, s1.devs);
    if SomePlain(s.devs) { StepBelow(s, i, async, junk, ok); }
  }

  lemma SamePlain(devs: seq<Device>, devs': seq<Device>)
    requires |devs| == |devs'| && forall j :: 0 <= j < |devs| ==> devs'[j].shared == devs[j].shared
    ensures SomePlain(devs) <==> SomePlain(devs')
  {
    if SomePlain(devs) {
      var k :| 0 <= k < |devs| && !devs[k].shared;
      assert !devs'[k].shared;
    }
    if SomePlain(devs') {
      var k :| 0 <= k < |devs'| && !devs'[k].shared;
      assert !devs[k].shared;
    }
  }

  lemma WalkBelow(s: State, i: nat)
    requires i < |s.devs| && (forall j :: 0 <= j < |s.devs| ==> WalkFits(s.devs[j])) && SomePlain(s.devs)
    requires forall j :: i < j < |s.devs| ==> s.devs[j].completed == 0
    requires s.totalSum == SectorSum(s.devs) > 0 && Below(s.out)
    ensures Below(ReportUpTo(s, i).out)
  {
    ZeroTail(s.devs, i + 1);
    SumBelow(s.devs);
    ReportBelow(s, CompletedSum(s.devs[..i + 1]));
  }

  lemma WorksBelow(s: State, async: bool, junk: Junk)
    requires BelowInv(s)
    ensures BelowInv(SaveBulkedBlock(s, async, junk).0)
  {
    BulkedBelow(s, async, junk, true);
  }

  lemma {:induction false} LoopBelow(s: State, rate: int, junk: Junk)
    requires BelowInv(s) && AllAligned(s.devs)
    ensures BelowInv(BulkLoop(s, rate, junk))
    decreases Remaining(s.devs)
  {
    if (s.submitted + s.readDone) * 0x10_0000 < rate {
      BulkStepProgress(s, true, junk);
      WorksBelow(s, true, junk);
      var (s', more) := SaveBulkedBlock(s, true, junk);
      if more { LoopBelow(s', rate, junk); }
    }
  }

  lemma {:induction false} SyncBelow(s: State, junk: Junk)
    requires BelowInv(s) && AllAligned(s.devs)
    ensures BelowInv(SyncBulk(s, junk))
    decreases Remaining(s.devs)
  {
    BulkStepProgress(s, false, junk);
    WorksBelow(s, false, junk);
    var (s', more) := SaveBulkedBlock(s, false, junk);
    if more { SyncBelow(s', junk); }
  }

  lemma PumpBelow(s: State, env: Env)
    requires BelowInv(s) && Runnable(s)
    ensures BelowInv(Pump(s, env))
  {
    FlushFrame(s, env.quota1);
    FlushBelow(s, env.quota1);
    var s1 := FlushBlocks(s, env.quota1);
    if !s1.err {
      LoopBelow(s1, env.rate, env.junk);
      FlushBelow(BulkLoop(s1, env.rate, env.junk), env.quota2);
    }
  }

  lemma StepKeepsBelow(s: State, e: Event)
    requires BelowInv(s) && Runnable(s)
    ensures BelowInv(Step(s, e))
  {
    match e
    case Write(i, at, data) => DevicesSame(s, Step(s, e));
    case Sample(j, k) => DevicesSame(s, Step(s, e));
    case Done(j, ret) => DevicesSame(s, Step(s, e));
    case SaveLive(env) =>
      if !s.err {
        PumpBelow(s, env);
        if !Pump(s, env).err { MoreOut(Pump(s, env), Step(s, e), EndOfSection); }
      }
  }

  /** A migration that has just been initialised has told nothing. */
  ghost predicate Untold(s: State, r0: seq<Image>) {
    Initial(s, r0) && s.prevProgress == -1 && s.totalSum == SectorSum(s.devs)
  }

  lemma InitialBelow(s: State, r0: seq<Image>)
    requires Untold(s, r0)
    ensures BelowInv(s)
  {
    ZeroTail(s.devs, 0);
    assert s.devs[..0] == [];
    forall i | 0 <= i < |s.devs| ensures WalkFits(s.devs[i]) {}
  }

  /** In every state of every run the last percentage told is that of the sectors walked so far, rounded down, no
      percentage is told twice in a row, and none is one hundred unless every disk shares its base image. */
  lemma {:induction false} ProgressTold(s0: State, events: seq<Event>, s: State, r0: seq<Image>)
    requires Untold(s0, r0) && Reaches(s0, events, s)
    ensures BelowInv(s)
  {
    if events == [] {
      InitialBelow(s0, r0);
    } else {
      var before := events[..|events| - 1];
      var m :| Runnable(m) && Reaches(s0, before, m) && s == Step(m, events[|events| - 1]);
      ProgressTold(s0, before, m, r0);
      StepKeepsBelow(m, events[|events| - 1]);
    }
  }

  // ------------------------------------------------------------------ the last stage

  lemma {:induction false} DirtyBelow(s: State, i: nat, sector: nat)
    requires i < |s.devs| && Below(s.out)
    ensures Below(DirtyDevice(s, i, sector).out)
    decreases s.devs[i].cur - sector
  {
    var d := s.devs[i];
    if sector < d.cur {
      if sector / 2048 !in d.dirty {
        DirtyBelow(s, i, sector + 2048);
      } else if sector + 2048 <= |d.image| {
        var s1 := SendBlock(s, i, sector, d.image[sector..sector + 2048]);
        DirtyBelow(s1.(devs := s.devs[i := d.(dirty := d.dirty - ChunksOf(sector, 2048))]), i, sector + 2048);
      }
    }
  }

  lemma {:induction false} PassBelow(s: State, i: nat)
    requires i <= |s.devs| && Below(s.out)
    ensures Below(DirtyPass(s, i).out)
    decreases |s.devs| - i
  {
    if i < |s.devs| {
      DirtyBelow(s, i, 0);
      DirtyDeviceFrame(s, i, 0);
      var s' := DirtyDevice(s, i, 0);
      if !s'.err { PassBelow(s', i + 1); }
    }
  }

  lemma {:induction false} SyncShares(s: State, junk: Junk)
    requires s.totalSum > 0 && AllAligned(s.devs) && SomePlain(s.devs)
    ensures SomePlain(SyncBulk(s, junk).devs)
    decreases Remaining(s.devs)
  {
    BulkStepProgress(s, false, junk);
    var (s', more) := SaveBulkedBlock(s, false, junk);
    BulkedShares(s, false, junk);
    if more { SyncShares(s', junk); }
  }

  lemma BulkedShares(s: State, async: bool, junk: Junk)
    requires s.totalSum > 0 && SomePlain(s.devs)
    ensures SomePlain(SaveBulkedBlock(s, async, junk).0.devs)
  {
    var i := FirstIncomplete(s.devs);
    if i < |s.devs| { StepShares(s, i, async, junk); }
  }

  lemma StepShares(s: State, i: nat, async: bool, junk: Junk)
    requires i < |s.devs| && SomePlain(s.devs)
    ensures SomePlain(StepDevice(s, i, async, junk).devs)
  {
    var k :| 0 <= k < |s.devs| && !s.devs[k].shared;
    StepShape(s, i, async, junk);
    StepSame(s, i, async, junk, true);
    assert StepDevice(s, i, async, junk) == TryStep(s, i, async, junk, true);
    assert !StepDevice(s, i, async, junk).devs[k].shared;
  }

  /** The last stage, if it reports no error, tells one hundred and closes the section; with a disk of its own it
      is the only time one hundred is told. */
  lemma HundredLast(s: State, env: Env)
    requires BelowInv(s) && Runnable(s) && !FinalStage(s, env).err
    ensures var out := FinalStage(s, env).out;
            && |out| >= 2 && out[|out| - 2] == Progress(100) && out[|out| - 1] == EndOfSection
            && (SomePlain(Pump(s, env).devs) ==>
                  forall k :: 0 <= k < |out| && out[k] == Progress(100) ==> k == |out| - 2)
  {
    PumpRunnable(s, env);
    PumpBelow(s, env);
    var p := Pump(s, env);
    if SomePlain(p.devs) {
      SyncBelow(p, env.junk);
      SyncShares(p, env.junk);
      PassBelow(SyncBulk(p, env.junk), 0);
    }
  }
}
