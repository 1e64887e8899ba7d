/**
 Reads that fail. In the bulk phase a read that is refused or fails leaves the device where
 it was and the loop tries again, so a loop ends exactly when enough reads work; in the
 dirty pass a failed read ends the pass. Either way the error stays with the stream, so a
 call that reports none is the protocol's.
 */
module MigrationRetry {
  import opened Disk
  import opened MigrationProtocol
  import opened MigrationConvergence

  // ------------------------------------------------------------------ the dirty pass

  /** The dirty pass over one device when only the reads `ok` work. */
  function TryDirty(s: State, i: nat, sector: nat, ok: (nat, nat) -> bool): State
    requires i < |s.devs|
    decreases s.devs[i].cur - sector
  {
    var d := s.devs[i];
    if sector >= d.cur then s
    else if sector / 2048 !in d.dirty then TryDirty(s, i, sector + 2048, ok)
    else if sector + 2048 > |d.image| || !ok(i, sector) then s.(err := true)
    else TryDirty(ResendOne(s, i, sector), i, sector + 2048, ok)
  }

  lemma {:induction false} TryDirtyFrame(s: State, i: nat, sector: nat, ok: (nat, nat) -> bool)
    requires i < |s.devs|
    ensures var s' := TryDirty(s, i, sector, ok);
            |s'.devs| == |s.devs| && s'.devs == s.devs[i := s.devs[i].(dirty := s'.devs[i].dirty)]
    decreases s.devs[i].cur - sector
  {
    var d := s.devs[i];
    if sector < d.cur {
      if sector / 2048 !in d.dirty {
        TryDirtyFrame(s, i, sector + 2048, ok);
      } else if sector + 2048 <= |d.image| && ok(i, sector) {
        TryDirtyFrame(ResendOne(s, i, sector), i, sector + 2048, ok);
      }
    }
  }

  function TryDirtyPass(s: State, i: nat, ok: (nat, nat) -> bool): State
    requires i <= |s.devs|
    decreases |s.devs| - i
  {
    if i == |s.devs| then s
    else
      TryDirtyFrame(s, i, 0, ok);
      var s' := TryDirty(s, i, 0, ok);
      if s'.err then s' else TryDirtyPass(s', i + 1, ok)
  }

  lemma {:induction false} TryDirtyAll(s: State, i: nat, sector: nat, ok: (nat, nat) -> bool)
    requires i < |s.devs| && ((forall j, k :: ok(j, k)) || !TryDirty(s, i, sector, ok).err)
    ensures TryDirty(s, i, sector, ok) == DirtyDevice(s, i, sector)
    decreases s.devs[i].cur - sector
  {
    var d := s.devs[i];
    if sector < d.cur {
      if sector / 2048 !in d.dirty {
        TryDirtyAll(s, i, sector + 2048, ok);
      } else if sector + 2048 <= |d.image| {
        TryDirtyAll(ResendOne(s, i, sector), i, sector + 2048, ok);
      }
    }
  }

  /** When every read works, or none that is made fails, it is the protocol's dirty pass. */
  lemma {:induction false} TryDirtyPassAll(s: State, i: nat, ok: (nat, nat) -> bool)
    requires i <= |s.devs| && ((forall j, k :: ok(j, k)) || !TryDirtyPass(s, i, ok).err)
    ensures TryDirtyPass(s, i, ok) == DirtyPass(s, i)
    decreases |s.devs| - i
  {
    if i < |s.devs| {
      TryDirtyAll(s, i, 0, ok);
      TryDirtyFrame(s, i, 0, ok);
      var s' := TryDirty(s, i, 0, ok);
      if !s'.err { TryDirtyPassAll(s', i + 1, ok); }
    }
  }

  /** blk_mig_save_dirty_blocks: an error from before does not stop it, and stays. */
  function DirtyBlocks(s: State, ok: (nat, nat) -> bool): State {
    var p := TryDirtyPass(s.(err := false), 0, ok);
    p.(err := p.err || s.err)
  }

  lemma DirtyBlocksWork(s: State, ok: (nat, nat) -> bool)
    requires !s.err && ((forall j, k :: ok(j, k)) || !DirtyBlocks(s, ok).err)
    ensures DirtyBlocks(s, ok) == DirtyPass(s, 0)
  {
    assert s.(err := false) == s;
    TryDirtyPassAll(s, 0, ok);
  }

  /** A dirty chunk behind the walk whose read does not work, or that sticks out of the device. */
  predicate Unreadable(d: Device, i: nat, from: nat, ok: (nat, nat) -> bool) {
    exists c: nat :: c in d.dirty && from <= c * 2048 < d.cur && (c * 2048 + 2048 > |d.image| || !ok(i, c * 2048))
  }

  /** The pass over a device fails exactly on such a chunk. */
  lemma {:induction false} TryDirtyFailsIff(s: State, i: nat, c: nat, ok: (nat, nat) -> bool)
    requires i < |s.devs| && !s.err
    ensures TryDirty(s, i, c * 2048, ok).err <==> Unreadable(s.devs[i], i, c * 2048, ok)
    decreases s.devs[i].cur - c * 2048
  {
    var d, sector := s.devs[i], c * 2048;
    if sector < d.cur {
      if c !in d.dirty {
        TryDirtyFailsIff(s, i, c + 1, ok);
        LaterUnreadable(d, d, i, c, ok);
      } else if sector + 2048 <= |d.image| && ok(i, sector) {
        var s1 := ResendOne(s, i, sector);
        assert ChunksOf(sector, 2048) == {c};
        TryDirtyFailsIff(s1, i, c + 1, ok);
        LaterUnreadable(d, s1.devs[i], i, c, ok);
      }
    }
  }

  lemma LaterUnreadable(d: Device, d1: Device, i: nat, c: nat, ok: (nat, nat) -> bool)
    requires d1 == d.(dirty := d1.dirty) && (d1.dirty == d.dirty - {c})
    requires c in d.dirty ==> c * 2048 + 2048 <= |d.image| && ok(i, c * 2048)
    ensures Unreadable(d, i, c * 2048, ok) <==> Unreadable(d1, i, c * 2048 + 2048, ok)
  {
    if Unreadable(d, i, c * 2048, ok) {
      var b: nat :| b in d.dirty && c * 2048 <= b * 2048 < d.cur && (b * 2048 + 2048 > |d.image| || !ok(i, b * 2048));
      assert b in d1.dirty;
    }
    if Unreadable(d1, i, c * 2048 + 2048, ok) {
      var b: nat :| b in d1.dirty && c * 2048 + 2048 <= b * 2048 < d1.cur
                    && (b * 2048 + 2048 > |d1.image| || !ok(i, b * 2048));
      assert b in d.dirty;
    }
  }

  // ------------------------------------------------------------------ the bulk loops

  /** Answers of the block layer to a loop's reads, in the order they are made. */
  type Answers = nat -> bool

  /** The rate-controlled loop of every stage, and the loop of the last stage. */
  datatype Mode = Async(rate: int) | Sync

  /** The loop: its state, the reads made so far, and whether it has ended. */
  datatype Loop = Loop(s: State, calls: nat, ended: bool)

  /** A step of the first unfinished device makes a read. */
  predicate Reading(s: State) {
    var i := FirstIncomplete(s.devs);
    i < |s.devs| && BulkAt(s.devs[i]) < |s.devs[i].image|
  }

  /** blk_mig_save_bulked_block with a read that works or not. */
  function TryBulked(s: State, async: bool, junk: Junk, ok: bool): (r: (State, bool))
    requires s.totalSum > 0
  {
    var i := FirstIncomplete(s.devs);
    if i == |s.devs| then (ReportProgress(s, CompletedSum(s.devs)), false)
    else (ReportUpTo(TryStep(s, i, async, junk, ok), i), true)
  }

  function TryStep(s: State, i: nat, async: bool, junk: Junk, ok: bool): (r: State)
    requires i < |s.devs|
    ensures |r.devs| == |s.devs| && r.totalSum == s.totalSum
  {
    var (s1, fin) := TryDevice(s, i, async, junk, ok);
    if fin then s1.(devs := s1.devs[i := s1.devs[i].(bulkDone := true)]) else s1
  }

  /** The loop's own condition fails: as many reads are outstanding as the rate allows. */
  predicate Held(s: State, mode: Mode) {
    mode.Async? && (s.submitted + s.readDone) * 0x10_0000 >= mode.rate
  }

  /** One turn: the first unfinished device is stepped, its read answered by the next answer. */
  function Turn(l: Loop, mode: Mode, junk: Junk, answers: Answers): Loop {
    if l.ended || l.s.totalSum <= 0 then l
    else if Held(l.s, mode) then l.(ended := true)
    else
      var (s', more) := TryBulked(l.s, mode.Async?, junk, answers(l.calls));
      Loop(s', l.calls + (if Reading(l.s) then 1 else 0), !more)
  }

  function TurnOf(mode: Mode, junk: Junk, answers: Answers): Loop -> Loop { l => Turn(l, mode, junk, answers) }

  function Iterate(f: Loop -> Loop, l: Loop, n: nat): Loop {
    if n == 0 then l else f(Iterate(f, l, n - 1))
  }

  /** The loop after n turns. */
  function Turns(s: State, mode: Mode, junk: Junk, answers: Answers, n: nat): Loop {
    Iterate(TurnOf(mode, junk, answers), Loop(s, 0, false), n)
  }

  /** What every turn keeps holds after any number, and what every turn raises has risen. */
  lemma {:induction false} IterateGains(f: Loop -> Loop, p: Loop -> bool, gain: Loop -> int, l: Loop, n: nat)
    requires p(l)
    requires forall x {:trigger f(x)} :: p(x) ==>
               p(f(x)) && (x.ended ==> f(x).ended) && (!f(x).ended ==> gain(f(x)) > gain(x))
    ensures p(Iterate(f, l, n))
    ensures !Iterate(f, l, n).ended ==> gain(Iterate(f, l, n)) >= gain(l) + n
  {
    if n > 0 { IterateGains(f, p, gain, l, n - 1); }
  }

  function Successes(answers: Answers, n: nat): nat {
    if n == 0 then 0 else Successes(answers, n - 1) + (if answers(n - 1) then 1 else 0)
  }

  /** The walk behind the chunk that is read next. */
  function Advanced(d: Device): Device {
    var sector := BulkAt(d) / 2048 * 2048;
    d.(cur := sector + Min(2048, |d.image| - sector))
  }

  /** The chunks of a device still to be read. */
  function Chunks(d: Device): nat
    decreases |d.image| - d.cur
  {
    if !Aligned(d) || d.bulkDone || BulkAt(d) >= |d.image| then 0
    else BulkAtSpec(d); if Advanced(d).cur == |d.image| then 1 else 1 + Chunks(Advanced(d))
  }

  function AllChunks(devs: seq<Device>): nat {
    if devs == [] then 0 else Chunks(devs[0]) + AllChunks(devs[1..])
  }

  function Unfinished(devs: seq<Device>): nat {
    if devs == [] then 0 else (if devs[0].bulkDone then 0 else 1) + Unfinished(devs[1..])
  }

  lemma {:induction false} SumsUpdate(devs: seq<Device>, i: nat, d: Device)
    requires i < |devs|
    ensures AllChunks(devs[i := d]) == AllChunks(devs) - Chunks(devs[i]) + Chunks(d)
    ensures Unfinished(devs[i := d])
            == Unfinished(devs) - (if devs[i].bulkDone then 0 else 1) + (if d.bulkDone then 0 else 1)
  {
    if i == 0 {
      assert devs[i := d][1..] == devs[1..];
    } else {
      assert devs[i := d][1..] == devs[1..][i - 1 := d];
      SumsUpdate(devs[1..], i - 1, d);
    }
  }

  /** What remains does not depend on anything but the walk and the allocation. */
  lemma {:induction false} ChunksSame(d: Device, d': Device)
    requires d' == d.(dirty := d'.dirty, completed := d'.completed)
    ensures Chunks(d') == Chunks(d)
    decreases |d.image| - d.cur
  {
    AllocatedSame(d, d', d.cur);
    if Aligned(d) && !d.bulkDone && BulkAt(d) < |d.image| {
      BulkAtSpec(d);
      if Advanced(d).cur < |d.image| { ChunksSame(Advanced(d), Advanced(d')); }
    }
  }

  lemma {:induction false} AllocatedSame(d: Device, d': Device, from: nat)
    requires d'.image == d.image && d'.alloc == d.alloc
    ensures FirstAllocated(d', from) == FirstAllocated(d, from)
    decreases |d.image| - from
  {
    if from < |d.image| && from !in d.alloc { AllocatedSame(d, d', from + 1); }
  }

  /** A device after one turn: read or not, finished or not. */
  lemma TurnDevice(s: State, i: nat, async: bool, junk: Junk, ok: bool)
    requires i < |s.devs| && Aligned(s.devs[i]) && !s.devs[i].bulkDone
    ensures var d := s.devs[i];
            var (s1, fin) := TryDevice(s, i, async, junk, ok);
            var d' := s1.devs[i].(bulkDone := fin);
            && s1.devs == s.devs[i := s1.devs[i]] && Aligned(d') && s1.totalSum == s.totalSum
            && (BulkAt(d) >= |d.image| ==> fin && Chunks(d) == Chunks(d') == 0)
            && (BulkAt(d) < |d.image| ==> Chunks(d) == Chunks(d') + (if ok then 1 else 0))
            && (BulkAt(d) < |d.image| && !ok ==> !fin && d' == d.(completed := d'.completed))
  {
    var d := s.devs[i];
    var (s1, fin) := TryDevice(s, i, async, junk, ok);
    var d' := s1.devs[i].(bulkDone := fin);
    BulkAtSpec(d);
    if BulkAt(d) < |d.image| {
      if ok {
        if !fin { ChunksSame(Advanced(d), d'); }
      } else {
        ChunksSame(d, d');
      }
    }
  }

  lemma TurnCounters(s: State, i: nat, async: bool, junk: Junk, ok: bool)
    requires i < |s.devs|
    ensures var s1, read := TryDevice(s, i, async, junk, ok).0, BulkAt(s.devs[i]) < |s.devs[i].image|;
            && (s1.err <==> s.err || (read && !ok))
            && s1.readDone == s.readDone && s1.submitted == s.submitted + (if async && read && ok then 1 else 0)
  {
  }

  lemma {:induction false} ChunksIn(devs: seq<Device>, i: nat)
    requires i < |devs|
    ensures AllChunks(devs) >= Chunks(devs[i]) && (!devs[i].bulkDone ==> Unfinished(devs) > 0)
  {
    if i > 0 { ChunksIn(devs[1..], i - 1); }
  }

  lemma {:induction false} NoneLeft(devs: seq<Device>)
    requires forall i :: 0 <= i < |devs| ==> devs[i].bulkDone
    ensures AllChunks(devs) == 0 && Unfinished(devs) == 0
  {
    if devs != [] { NoneLeft(devs[1..]); }
  }

  lemma {:induction false} SuccessesBounded(answers: Answers, n: nat, m: nat)
    requires n <= m
    ensures Successes(answers, n) <= Successes(answers, m) && Successes(answers, n) <= n
    decreases m
  {
    if n < m {
      SuccessesBounded(answers, n, m - 1);
    } else if n > 0 {
      SuccessesBounded(answers, n - 1, m - 1);
    }
  }

  /** How many reads the loop has to bring off. */
  function Wanted(s: State, mode: Mode): nat {
    match mode
    case Sync => AllChunks(s.devs)
    case Async(rate) => Min(AllChunks(s.devs), Room(s.submitted + s.readDone, rate))
  }

  /** Reads that worked and reads still wanted add up; a failed read is not forgotten. */
  predicate LoopInv(l: Loop, s0: State, mode: Mode, answers: Answers) {
    && l.s.totalSum > 0 && AllAligned(l.s.devs)
    && Successes(answers, l.calls) + Wanted(l.s, mode) == Wanted(s0, mode)
    && (l.ended ==> Wanted(l.s, mode) == 0)
    && (l.s.err <==> s0.err || Successes(answers, l.calls) < l.calls)
  }

  lemma TurnDevs(l: Loop, mode: Mode, junk: Junk, answers: Answers)
    requires l.s.totalSum > 0 && !l.ended && !Held(l.s, mode)
    requires var i := FirstIncomplete(l.s.devs); i < |l.s.devs| && Aligned(l.s.devs[i])
    ensures var i := FirstIncomplete(l.s.devs);
            var (s1, fin) := TryDevice(l.s, i, mode.Async?, junk, answers(l.calls));
            var l' := Turn(l, mode, junk, answers);
            && l'.s.devs == l.s.devs[i := s1.devs[i].(bulkDone := fin)]
            && l'.s.totalSum == l.s.totalSum && l'.s.err == s1.err && !l'.ended
            && l'.s.submitted == s1.submitted && l'.s.readDone == s1.readDone
  {
    var i := FirstIncomplete(l.s.devs);
    TurnDevice(l.s, i, mode.Async?, junk, answers(l.calls));
  }

  /** A turn reads a chunk, fails to, or finishes a device. */
  predicate Counted(l: Loop, l': Loop, mode: Mode, answers: Answers) {
    var read := l'.calls > l.calls;
    && l'.s.totalSum > 0 && AllAligned(l'.s.devs) && !l'.ended
    && l'.calls == l.calls + (if read then 1 else 0)
    && Wanted(l.s, mode) == Wanted(l'.s, mode) + (if read && answers(l.calls) then 1 else 0)
    && (read ==> Wanted(l.s, mode) > 0 && Unfinished(l'.s.devs) <= Unfinished(l.s.devs))
    && (!read ==> Unfinished(l'.s.devs) < Unfinished(l.s.devs))
    && (l'.s.err <==> l.s.err || (read && !answers(l.calls)))
  }

  lemma TurnWanted(s: State, s': State, mode: Mode, read: bool, ok: bool)
    requires !Held(s, mode)
    requires AllChunks(s.devs) == AllChunks(s'.devs) + (if read && ok then 1 else 0) && (read ==> AllChunks(s.devs) > 0)
    requires s'.readDone == s.readDone
    requires s'.submitted == s.submitted + (if mode.Async? && read && ok then 1 else 0)
    ensures Wanted(s, mode) == Wanted(s', mode) + (if read && ok then 1 else 0) && (read ==> Wanted(s, mode) > 0)
  {
    if mode.Async? { RoomOne(s.submitted + s.readDone, mode.rate); }
  }

  lemma TurnCounts(l: Loop, mode: Mode, junk: Junk, answers: Answers)
    requires l.s.totalSum > 0 && AllAligned(l.s.devs) && !l.ended && !Held(l.s, mode)
    requires FirstIncomplete(l.s.devs) < |l.s.devs|
    ensures Counted(l, Turn(l, mode, junk, answers), mode, answers)
  {
    var s, i, ok := l.s, FirstIncomplete(l.s.devs), answers(l.calls);
    TurnDevice(s, i, mode.Async?, junk, ok);
    TurnCounters(s, i, mode.Async?, junk, ok);
    TurnDevs(l, mode, junk, answers);
    var l' := Turn(l, mode, junk, answers);
    SumsUpdate(s.devs, i, l'.s.devs[i]);
    ChunksIn(s.devs, i);
    BulkAtSpec(s.devs[i]);
    TurnWanted(s, l'.s, mode, Reading(s), ok);
  }

  ghost predicate Advances(l: Loop, l': Loop, s0: State, mode: Mode, answers: Answers) {
    && LoopInv(l', s0, mode, answers)
    && (!l'.ended ==>
          && l'.calls - Unfinished(l'.s.devs) > l.calls - Unfinished(l.s.devs)
          && (l'.calls > l.calls ==> Successes(answers, l.calls) < Wanted(s0, mode)))
  }

  lemma CountsAdvance(l: Loop, l': Loop, s0: State, mode: Mode, answers: Answers)
    requires LoopInv(l, s0, mode, answers) && Counted(l, l', mode, answers)
    ensures Advances(l, l', s0, mode, answers)
  {
    SuccessesBounded(answers, l.calls, l.calls);
  }

  lemma LastTurn(l: Loop, s0: State, mode: Mode, junk: Junk, answers: Answers)
    requires LoopInv(l, s0, mode, answers) && !l.ended
    requires Held(l.s, mode) || FirstIncomplete(l.s.devs) == |l.s.devs|
    ensures Advances(l, Turn(l, mode, junk, answers), s0, mode, answers)
    ensures Turn(l, mode, junk, answers).calls == l.calls
  {
    if !Held(l.s, mode) { NoneLeft(l.s.devs); }
  }

  lemma TurnKeeps(l: Loop, s0: State, mode: Mode, junk: Junk, answers: Answers)
    requires LoopInv(l, s0, mode, answers)
    ensures Advances(l, Turn(l, mode, junk, answers), s0, mode, answers)
    ensures Turn(l, mode, junk, answers).calls <= l.calls + 1
    ensures l.ended ==> Turn(l, mode, junk, answers) == l
  {
    if !l.ended {
      if Held(l.s, mode) || FirstIncomplete(l.s.devs) == |l.s.devs| {
        LastTurn(l, s0, mode, junk, answers);
      } else {
        TurnCounts(l, mode, junk, answers);
        CountsAdvance(l, Turn(l, mode, junk, answers), s0, mode, answers);
      }
    }
  }

  /** A turn keeps the balance; with m answers that hold enough successes it needs no more than m. */
  lemma TurnsGain(s: State, mode: Mode, junk: Junk, answers: Answers, m: nat, n: nat)
    requires s.totalSum > 0 && AllAligned(s.devs)
    ensures var l := Turns(s, mode, junk, answers, n);
            && LoopInv(l, s, mode, answers)
            && (Successes(answers, m) >= Wanted(s, mode) && !l.ended ==>
                  l.calls <= m && l.calls - Unfinished(l.s.devs) >= n - Unfinished(s.devs))
  {
    var f, gain := TurnOf(mode, junk, answers), (x: Loop) => x.calls - Unfinished(x.s.devs);
    var p := (x: Loop) => LoopInv(x, s, mode, answers)
                          && (Successes(answers, m) >= Wanted(s, mode) && !x.ended ==> x.calls <= m);
    forall x | p(x)
      ensures p(f(x)) && (x.ended ==> f(x).ended) && (!f(x).ended ==> gain(f(x)) > gain(x))
    {
      TurnKeeps(x, s, mode, junk, answers);
      TurnsWithin(x, f(x), s, mode, answers, m);
    }
    IterateGains(f, p, gain, Loop(s, 0, false), n);
  }

  lemma TurnsWithin(x: Loop, x': Loop, s: State, mode: Mode, answers: Answers, m: nat)
    requires LoopInv(x, s, mode, answers) && Advances(x, x', s, mode, answers) && x'.calls <= x.calls + 1
    requires Successes(answers, m) >= Wanted(s, mode) && !x.ended ==> x.calls <= m
    requires x.ended ==> x' == x
    ensures Successes(answers, m) >= Wanted(s, mode) && !x'.ended ==> x'.calls <= m
  {
    if x.calls == m { SuccessesBounded(answers, x.calls, m); }
  }

  lemma EnoughEnds(s: State, mode: Mode, junk: Junk, answers: Answers, m: nat)
    requires s.totalSum > 0 && AllAligned(s.devs) && Successes(answers, m) >= Wanted(s, mode)
    ensures Turns(s, mode, junk, answers, m + Unfinished(s.devs) + 1).ended
  {
    TurnsGain(s, mode, junk, answers, m, m + Unfinished(s.devs) + 1);
  }

  predicate Ends(s: State, mode: Mode, junk: Junk, answers: Answers, n: nat) {
    Turns(s, mode, junk, answers, n).ended
  }

  predicate Enough(s: State, mode: Mode, answers: Answers, m: nat) { Successes(answers, m) >= Wanted(s, mode) }

  /** A bulk loop ends if and only if, of the reads it makes, as many work as there are chunks
      left to read, or as the rate leaves room for. */
  lemma LoopEndsIff(s: State, mode: Mode, junk: Junk, answers: Answers)
    requires s.totalSum > 0 && AllAligned(s.devs)
    ensures (exists n: nat :: Ends(s, mode, junk, answers, n)) <==> (exists m: nat :: Enough(s, mode, answers, m))
  {
    if n: nat :| Ends(s, mode, junk, answers, n) {
      TurnsGain(s, mode, junk, answers, 0, n);
      assert Enough(s, mode, answers, Turns(s, mode, junk, answers, n).calls);
    }
    if m: nat :| Enough(s, mode, answers, m) {
      EnoughEnds(s, mode, junk, answers, m);
      assert Ends(s, mode, junk, answers, m + Unfinished(s.devs) + 1);
    }
  }

  /** With reads that all fail it never ends, unless there is none to make. */
  lemma FailingNeverEnds(s: State, mode: Mode, junk: Junk, answers: Answers, n: nat)
    requires s.totalSum > 0 && AllAligned(s.devs) && Wanted(s, mode) > 0 && forall c :: !answers(c)
    ensures !Ends(s, mode, junk, answers, n)
  {
    LoopEndsIff(s, mode, junk, answers);
    forall m: nat ensures !Enough(s, mode, answers, m) { NoneSucceeds(answers, m); }
  }

  lemma {:induction false} NoneSucceeds(answers: Answers, n: nat)
    requires forall c :: !answers(c)
    ensures Successes(answers, n) == 0
  {
    if n > 0 { NoneSucceeds(answers, n - 1); }
  }

  /** At any time the loop has recorded an error if and only if some read it made failed. */
  lemma LoopErrorIff(s: State, mode: Mode, junk: Junk, answers: Answers, n: nat)
    requires s.totalSum > 0 && AllAligned(s.devs) && !s.err
    ensures var l := Turns(s, mode, junk, answers, n); l.s.err <==> exists c: nat :: c < l.calls && !answers(c)
  {
    TurnsGain(s, mode, junk, answers, 0, n);
    AllWorked(answers, Turns(s, mode, junk, answers, n).calls);
  }

  lemma {:induction false} AllWorked(answers: Answers, n: nat)
    ensures Successes(answers, n) < n <==> exists c: nat :: c < n && !answers(c)
    ensures Successes(answers, n) <= n
  {
    if n > 0 {
      AllWorked(answers, n - 1);
      if c: nat :| c < n && !answers(c) { assert c < n - 1 || !answers(n - 1); }
    }
  }

  lemma {:induction false} AllSucceed(answers: Answers, n: nat)
    requires forall c :: answers(c)
    ensures Successes(answers, n) == n
  {
    if n > 0 { AllSucceed(answers, n - 1); }
  }

  /** When every read works the loop ends. */
  lemma LoopEnds(s: State, mode: Mode, junk: Junk, answers: Answers)
    requires s.totalSum > 0 && AllAligned(s.devs) && forall c :: answers(c)
    ensures exists n: nat :: Ends(s, mode, junk, answers, n)
  {
    AllSucceed(answers, Wanted(s, mode));
    assert Enough(s, mode, answers, Wanted(s, mode));
    LoopEndsIff(s, mode, junk, answers);
  }

  // ------------------------------------------------------------------ no error, no failure

  lemma {:induction false} IterateKeeps(f: Loop -> Loop, p: Loop -> bool, l: Loop, n: nat)
    requires p(l) && forall x {:trigger f(x)} :: p(x) ==> p(f(x))
    ensures p(Iterate(f, l, n))
  {
    if n > 0 { IterateKeeps(f, p, l, n - 1); }
  }

  /** What the protocol says a loop computes. */
  function Phase(s: State, mode: Mode, junk: Junk): State
    requires s.totalSum > 0 && AllAligned(s.devs)
  {
    match mode
    case Sync => SyncBulk(s, junk)
    case Async(rate) => BulkLoop(s, rate, junk)
  }

  /** The loop at l has recorded an error, or is on its way to t. */
  predicate Towards(l: Loop, mode: Mode, junk: Junk, t: State) {
    l.s.err || (l.s.totalSum > 0 && AllAligned(l.s.devs) && t == if l.ended then l.s else Phase(l.s, mode, junk))
  }

  lemma TurnWorks(l: Loop, mode: Mode, junk: Junk, answers: Answers)
    requires l.s.totalSum > 0 && !l.ended && !Held(l.s, mode) && (Reading(l.s) ==> answers(l.calls))
    ensures var (s', more) := SaveBulkedBlock(l.s, mode.Async?, junk);
            Turn(l, mode, junk, answers).s == s' && Turn(l, mode, junk, answers).ended == !more
  {
  }

  lemma TurnFails(l: Loop, mode: Mode, junk: Junk, answers: Answers)
    requires l.s.totalSum > 0 && !l.ended && !Held(l.s, mode)
    requires l.s.err || (Reading(l.s) && !answers(l.calls))
    ensures Turn(l, mode, junk, answers).s.err
  {
    var i := FirstIncomplete(l.s.devs);
    if i < |l.s.devs| { TurnCounters(l.s, i, mode.Async?, junk, answers(l.calls)); }
  }

  lemma PhaseOpens(s: State, mode: Mode, junk: Junk)
    requires s.totalSum > 0 && AllAligned(s.devs) && !Held(s, mode)
    ensures var (s', more) := SaveBulkedBlock(s, mode.Async?, junk);
            && s'.totalSum > 0 && AllAligned(s'.devs)
            && Phase(s, mode, junk) == if more then Phase(s', mode, junk) else s'
  {
    BulkStepProgress(s, mode.Async?, junk);
  }

  lemma TurnTowards(l: Loop, mode: Mode, junk: Junk, answers: Answers, t: State)
    requires Towards(l, mode, junk, t)
    ensures Towards(Turn(l, mode, junk, answers), mode, junk, t)
  {
    if !l.ended && l.s.totalSum > 0 && !Held(l.s, mode) {
      if l.s.err || (Reading(l.s) && !answers(l.calls)) {
        TurnFails(l, mode, junk, answers);
      } else {
        PhaseOpens(l.s, mode, junk);
        TurnWorks(l, mode, junk, answers);
      }
    }
  }

  lemma StaysTowards(l: Loop, mode: Mode, junk: Junk, answers: Answers, t: State, n: nat)
    requires Towards(l, mode, junk, t)
    ensures Towards(Iterate(TurnOf(mode, junk, answers), l, n), mode, junk, t)
  {
    var f, p := TurnOf(mode, junk, answers), (x: Loop) => Towards(x, mode, junk, t);
    forall x | p(x) ensures p(f(x)) { TurnTowards(x, mode, junk, answers, t); }
    IterateKeeps(f, p, l, n);
  }

  /** A loop that has ended and recorded no error has done what the protocol says, whatever
      the answers to reads it did not make. */
  lemma LoopIsPhase(s: State, mode: Mode, junk: Junk, answers: Answers, n: nat)
    requires s.totalSum > 0 && AllAligned(s.devs) && Ends(s, mode, junk, answers, n)
    requires !Turns(s, mode, junk, answers, n).s.err
    ensures Turns(s, mode, junk, answers, n).s == Phase(s, mode, junk)
  {
    StaysTowards(Loop(s, 0, false), mode, junk, answers, Phase(s, mode, junk), n);
  }

  /** Once it has ended it stays as it is. */
  lemma {:induction false} EndsLater(s: State, mode: Mode, junk: Junk, answers: Answers, n: nat, k: nat)
    requires Ends(s, mode, junk, answers, n) && n <= k
    ensures Turns(s, mode, junk, answers, k) == Turns(s, mode, junk, answers, n)
    decreases k
  {
    if n < k { EndsLater(s, mode, junk, answers, n, k - 1); }
  }

  lemma TurnsRunnable(s: State, mode: Mode, junk: Junk, answers: Answers, k: nat)
    requires s.totalSum > 0 && AllAligned(s.devs)
    ensures var l := Turns(s, mode, junk, answers, k);
            && l.s.totalSum > 0 && AllAligned(l.s.devs)
            && Turns(s, mode, junk, answers, k + 1) == Turn(l, mode, junk, answers)
  {
    TurnsGain(s, mode, junk, answers, 0, k);
  }

  lemma TurnOpens(l: Loop, mode: Mode, junk: Junk, answers: Answers)
    requires !l.ended && l.s.totalSum > 0
    ensures Turn(l, mode, junk, answers) ==
              if Held(l.s, mode) then Loop(l.s, l.calls, true)
              else
                var (s', more) := TryBulked(l.s, mode.Async?, junk, answers(l.calls));
                Loop(s', l.calls + (if Reading(l.s) then 1 else 0), !more)
  {
  }

  /** A turn of a loop that ends after n turns and has not yet. */
  lemma NextTurn(s: State, mode: Mode, junk: Junk, answers: Answers, n: nat, k: nat, v: State, calls: nat)
    requires s.totalSum > 0 && AllAligned(s.devs) && Ends(s, mode, junk, answers, n)
    requires Turns(s, mode, junk, answers, k) == Loop(v, calls, false)
    ensures k < n && v.totalSum > 0 && AllAligned(v.devs)
    ensures var l := Turn(Loop(v, calls, false), mode, junk, answers);
            && l.s.totalSum > 0 && AllAligned(l.s.devs)
            && Turns(s, mode, junk, answers, if l.ended then n else k + 1) == l
  {
    if n <= k { EndsLater(s, mode, junk, answers, n, k); }
    TurnsRunnable(s, mode, junk, answers, k);
    TurnsRunnable(s, mode, junk, answers, k + 1);
    if Turns(s, mode, junk, answers, k + 1).ended { EndsLater(s, mode, junk, answers, k + 1, n); }
  }
}
