/**
 Async contexts and bottom halves: a stack of run queues whose callbacks may call
 back into every operation here. A machine with explicit frames makes the re-entrant
 calls steps of one run: a walk over the active context's list, or a callback that
 walk is waiting for. Callbacks are arbitrary, except that they balance their pushes
 and pops and do not poll the context they were called from.
 */
module AsyncContexts {

  /** A bottom half belongs to the context that was active when it was made. */
  datatype Bh = Bh(home: nat, scheduled: bool, idle: bool, deleted: bool)

  datatype Context = Context(serial: nat, id: int, bhs: seq<nat>)

  /** The walk of qemu_bh_poll in a context: `left` bottom halves from the end of the list are
      still to be looked at, the current one included; new ones go in front and are not met.
      `late` are those scheduled when the walk had reached or passed them, and not unscheduled since. */
  datatype Frame =
    | Walk(depth: nat, left: nat, ret: bool, idleRan: bool, popping: bool, late: set<nat>)
    | Callback(bh: nat)

  datatype State = State(contexts: seq<Context>, bhs: seq<Bh>, frames: seq<Frame>, serials: nat, aborted: bool)

  datatype Event =
    | New | Schedule(bh: nat) | ScheduleIdle(bh: nat) | Cancel(bh: nat) | Delete(bh: nat)
    | Push | Poll | Pop
    | Return   // the running callback comes back
    | Advance  // the walk goes one step on

  // ------------------------------------------------------------------ steps

  function Active(s: State): int { |s.contexts| - 1 }

  /** Control is with a callback, or with the main program. */
  predicate UserTurn(s: State) {
    !s.aborted && s.contexts != [] && (s.frames == [] || s.frames[|s.frames| - 1].Callback?)
  }

  /** The depth of the walk that called the running callback; -1 for the main program. */
  function Floor(s: State): int {
    if |s.frames| < 2 || !s.frames[|s.frames| - 2].Walk? then -1 else s.frames[|s.frames| - 2].depth
  }

  predicate Runnable(b: Bh) { b.scheduled && !b.deleted }

  /** What the walk f has reached or passed while a callback runs. */
  function Reached(contexts: seq<Context>, f: Frame): seq<nat> {
    if f.Walk? && f.depth < |contexts| && 0 < f.left <= |contexts[f.depth].bhs|
    then contexts[f.depth].bhs[..|contexts[f.depth].bhs| - f.left + 1] else []
  }

  function Noted(contexts: seq<Context>, f: Frame, b: nat): Frame {
    if f.Walk? && b in Reached(contexts, f) then f.(late := f.late + {b}) else f
  }

  function Dropped(f: Frame, b: nat): Frame { if f.Walk? then f.(late := f.late - {b}) else f }

  /** A bottom half becomes due: the walks that have reached it will not come back to it. */
  function NoteLate(contexts: seq<Context>, frames: seq<Frame>, b: nat): (r: seq<Frame>)
    ensures |r| == |frames| && forall i :: 0 <= i < |r| ==> r[i] == Noted(contexts, frames[i], b)
  {
    if frames == [] then []
    else NoteLate(contexts, frames[..|frames| - 1], b) + [Noted(contexts, frames[|frames| - 1], b)]
  }

  /** It is no longer due. */
  function DropLate(frames: seq<Frame>, b: nat): (r: seq<Frame>)
    ensures |r| == |frames| && forall i :: 0 <= i < |r| ==> r[i] == Dropped(frames[i], b)
  {
    if frames == [] then [] else DropLate(frames[..|frames| - 1], b) + [Dropped(frames[|frames| - 1], b)]
  }

  /** A new bottom half at the front of the active context's list. */
  function AddBh(s: State, scheduled: bool): State
    requires s.contexts != []
  {
    var d := |s.contexts| - 1;
    var c := s.contexts[d];
    s.(bhs := s.bhs + [Bh(c.serial, scheduled, false, false)],
       contexts := s.contexts[d := c.(bhs := [|s.bhs|] + c.bhs)])
  }

  /** qemu_bh_new, and qemu_bh_schedule if it is due at once. */
  function MakeBh(s: State, scheduled: bool): State
    requires s.contexts != []
  {
    var s1 := AddBh(s, scheduled);
    if scheduled then s1.(frames := NoteLate(s1.contexts, s.frames, |s.bhs|)) else s1
  }

  /** New flags of a bottom half; the walks take note if it becomes due or stops being so. */
  function SetBh(s: State, b: nat, bh: Bh): State
    requires b < |s.bhs|
  {
    s.(bhs := s.bhs[b := bh],
       frames := if bh.scheduled then NoteLate(s.contexts, s.frames, b) else DropLate(s.frames, b))
  }

  /** async_context_push. */
  function PushContext(s: State): State
    requires s.contexts != []
  {
    s.(contexts := s.contexts + [Context(s.serials, s.contexts[|s.contexts| - 1].id + 1, [])], serials := s.serials + 1)
  }

  function StartWalk(s: State, popping: bool): State
    requires s.contexts != []
  {
    var d := |s.contexts| - 1;
    s.(frames := s.frames + [Walk(d, |s.contexts[d].bhs|, false, false, popping, {})])
  }

  function Undeleted(list: seq<nat>, bhs: seq<Bh>): (r: seq<nat>)
    ensures |r| <= |list|
    ensures forall b :: b in r ==> b in list && (b < |bhs| ==> !bhs[b].deleted)
    ensures forall b :: b in list && b < |bhs| && !bhs[b].deleted ==> b in r
  {
    if list == [] then []
    else (if list[0] < |bhs| && bhs[list[0]].deleted then [] else [list[0]]) + Undeleted(list[1..], bhs)
  }

  /** The end of a walk: deleted bottom halves go; a pop walks again if something ran,
      otherwise it leaves the context and schedules the parent's completion bottom half. */
  function EndWalk(s: State): State
    requires s.frames != [] && s.contexts != []
    requires var f := s.frames[|s.frames| - 1]; f.Walk? && f.depth == |s.contexts| - 1
  {
    var f := s.frames[|s.frames| - 1];
    var c := s.contexts[f.depth];
    var kept := Undeleted(c.bhs, s.bhs);
    var below := s.frames[..|s.frames| - 1];
    if !f.popping then s.(contexts := s.contexts[f.depth := c.(bhs := kept)], frames := below)
    else if f.ret then
      s.(contexts := s.contexts[f.depth := c.(bhs := kept)],
         frames := below + [Walk(f.depth, |kept|, false, false, true, {})])
    else if f.depth == 0 then s.(contexts := [], frames := below, aborted := true)
    else MakeBh(s.(contexts := s.contexts[..f.depth], frames := below), true)
  }

  /** One step of the walk: run the current bottom half if it is due, else go to the next. */
  function StepWalk(s: State): State
    requires s.frames != [] && s.contexts != []
    requires var f := s.frames[|s.frames| - 1]; f.Walk? && f.depth == |s.contexts| - 1
    requires var f := s.frames[|s.frames| - 1]; f.left <= |s.contexts[f.depth].bhs|
  {
    var f := s.frames[|s.frames| - 1];
    var list := s.contexts[f.depth].bhs;
    var below := s.frames[..|s.frames| - 1];
    if f.left == 0 then EndWalk(s)
    else
      var b := list[|list| - f.left];
      if b < |s.bhs| && Runnable(s.bhs[b]) then
        var s1 := SetBh(s.(frames := below), b, s.bhs[b].(scheduled := false, idle := false));
        var f1 := f.(ret := f.ret || !s.bhs[b].idle, idleRan := f.idleRan || s.bhs[b].idle, late := f.late - {b});
        s1.(frames := s1.frames + [f1, Callback(b)])
      else s.(frames := below + [f.(left := f.left - 1)])
  }

  /** The callback returns to the walk, which goes to the next bottom half. */
  function ReturnTo(s: State): State
    requires |s.frames| >= 2
    requires var f := s.frames[|s.frames| - 2]; f.Walk? && f.left > 0
  {
    var f := s.frames[|s.frames| - 2];
    s.(frames := s.frames[..|s.frames| - 2] + [f.(left := f.left - 1)])
  }

  predicate Walking(s: State) {
    && !s.aborted && s.frames != [] && s.contexts != []
    && var f := s.frames[|s.frames| - 1];
       f.Walk? && f.depth == |s.contexts| - 1 && f.left <= |s.contexts[f.depth].bhs|
  }

  /** What may happen next. A callback polls or pops only contexts above its own, and comes
      back to the context it was called in. */
  predicate Enabled(s: State, e: Event) {
    match e
    case Advance => Walking(s)
    case Return => UserTurn(s) && |s.frames| >= 2 && s.frames[|s.frames| - 2].Walk? && s.frames[|s.frames| - 2].left > 0
                   && Active(s) == Floor(s)
    case Poll => UserTurn(s) && Active(s) > Floor(s)
    case Pop => UserTurn(s) && Active(s) > Floor(s)
    case New => UserTurn(s)
    case Push => UserTurn(s)
    case _ => UserTurn(s) && e.bh < |s.bhs|
  }

  function Step(s: State, e: Event): State {
    if !Enabled(s, e) then s
    else match e
      case New => MakeBh(s, false)
      case Schedule(b) => if s.bhs[b].scheduled then s else SetBh(s, b, s.bhs[b].(scheduled := true, idle := false))
      case ScheduleIdle(b) => if s.bhs[b].scheduled then s else SetBh(s, b, s.bhs[b].(scheduled := true, idle := true))
      case Cancel(b) => SetBh(s, b, s.bhs[b].(scheduled := false))
      case Delete(b) => SetBh(s, b, s.bhs[b].(scheduled := false, deleted := true))
      case Push => PushContext(s)
      case Poll => StartWalk(s, false)
      case Pop => StartWalk(s, true)
      case Return => ReturnTo(s)
      case Advance => StepWalk(s)
  }

  function Run(s: State, es: seq<Event>): State {
    if es == [] then s else Step(Run(s, es[..|es| - 1]), es[|es| - 1])
  }

  /** The program starts in one context, numbered 0. */
  const START := State([Context(0, 0, [])], [], [], 1, false)

  // ------------------------------------------------------------------ invariant

  /** A context's number is its depth, and its list holds its own bottom halves. */
  predicate ContextOk(s: State, d: nat)
    requires d < |s.contexts|
  {
    var c := s.contexts[d];
    && c.id == d && c.serial < s.serials
    && forall j :: 0 <= j < |c.bhs| ==> c.bhs[j] < |s.bhs| && s.bhs[c.bhs[j]].home == c.serial
  }

  predicate ContextsOk(s: State) {
    && (s.contexts == [] ==> s.aborted)
    && (forall d :: 0 <= d < |s.contexts| ==> ContextOk(s, d))
    && (forall d, d' :: 0 <= d < d' < |s.contexts| ==> s.contexts[d].serial != s.contexts[d'].serial)
  }

  /** A walk that has called nothing yet is on top, and what it has passed is not due. */
  predicate WalkOk(s: State, i: nat)
    requires i < |s.frames| && s.frames[i].Walk?
  {
    var f := s.frames[i];
    && f.depth < |s.contexts|
    && f.left <= |s.contexts[f.depth].bhs|
    && (i == |s.frames| - 1 ==> f.depth == |s.contexts| - 1)
    && (!f.ret && !f.idleRan ==>
          && i == |s.frames| - 1
          && forall j :: 0 <= j < |s.contexts[f.depth].bhs| - f.left && s.contexts[f.depth].bhs[j] < |s.bhs| ==>
               !Runnable(s.bhs[s.contexts[f.depth].bhs[j]]))
  }

  /** The bottom half a callback belongs to is still where its walk stands. */
  predicate CallbackOk(s: State, i: nat)
    requires i < |s.frames| && s.frames[i].Callback?
  {
    && i > 0 && s.frames[i - 1].Walk?
    && var f := s.frames[i - 1];
       && f.depth < |s.contexts| && 0 < f.left <= |s.contexts[f.depth].bhs|
       && s.contexts[f.depth].bhs[|s.contexts[f.depth].bhs| - f.left] == s.frames[i].bh
  }

  predicate FramesOk(s: State) {
    && (forall i :: 0 <= i < |s.frames| ==> (s.frames[i].Walk? <==> i % 2 == 0))
    && (forall i :: 0 <= i < |s.frames| && s.frames[i].Walk? ==> WalkOk(s, i))
    && (forall i :: 0 <= i < |s.frames| && s.frames[i].Callback? ==> CallbackOk(s, i))
    && (forall i, j :: 0 <= i < j < |s.frames| && s.frames[i].Walk? && s.frames[j].Walk? ==>
          s.frames[i].depth < s.frames[j].depth)
  }

  predicate Inv(s: State) {
    ContextsOk(s) && (!s.aborted ==> FramesOk(s))
  }

  // ------------------------------------------------------------------ every step keeps it

  /** The same frames up to what the walks have noted. */
  predicate SameWalk(f: Frame, f': Frame) {
    if f.Walk? then f'.Walk? && f' == f.(late := f'.late) else f' == f
  }

  predicate SameWalks(fs: seq<Frame>, fs': seq<Frame>) {
    |fs'| == |fs| && forall i :: 0 <= i < |fs| ==> SameWalk(fs[i], fs'[i])
  }

  lemma NotesKeep(s: State, frames: seq<Frame>)
    requires FramesOk(s) && SameWalks(s.frames, frames)
    ensures FramesOk(s.(frames := frames))
  {
    var s' := s.(frames := frames);
    forall i | 0 <= i < |frames| ensures SameWalk(s.frames[i], frames[i]) {}
    forall i | 0 <= i < |frames| && frames[i].Walk? ensures WalkOk(s', i) { assert WalkOk(s, i); }
    forall i | 0 <= i < |frames| && frames[i].Callback? ensures CallbackOk(s', i) {
      assert CallbackOk(s, i);
      assert SameWalk(s.frames[i - 1], frames[i - 1]);
    }
  }

  lemma FlagsOk(s: State, b: nat, bh: Bh)
    requires Inv(s) && UserTurn(s) && b < |s.bhs| && bh.home == s.bhs[b].home
    ensures Inv(s.(bhs := s.bhs[b := bh]))
  {
    var s1 := s.(bhs := s.bhs[b := bh]);
    SameContexts(s, s1);
    forall i | 0 <= i < |s1.frames| && s1.frames[i].Walk? ensures WalkOk(s1, i) { assert WalkOk(s, i); }
    forall i | 0 <= i < |s1.frames| && s1.frames[i].Callback? ensures CallbackOk(s1, i) { assert CallbackOk(s, i); }
  }

  lemma FlagsKeep(s: State, b: nat, bh: Bh)
    requires Inv(s) && UserTurn(s) && b < |s.bhs| && bh.home == s.bhs[b].home
    ensures Inv(SetBh(s, b, bh)) && SameWalks(s.frames, SetBh(s, b, bh).frames)
  {
    var s1 := s.(bhs := s.bhs[b := bh]);
    FlagsOk(s, b, bh);
    NotesKeep(s1, SetBh(s, b, bh).frames);
    SameContexts(s1, SetBh(s, b, bh));
  }

  lemma AddKeeps(s: State, scheduled: bool)
    requires Inv(s) && UserTurn(s)
    ensures Inv(AddBh(s, scheduled))
  {
    var s1 := AddBh(s, scheduled);
    forall d | 0 <= d < |s1.contexts| ensures ContextOk(s1, d) { assert ContextOk(s, d); }
    forall i | 0 <= i < |s1.frames| && s1.frames[i].Walk? ensures WalkOk(s1, i) { assert WalkOk(s, i); }
    forall i | 0 <= i < |s1.frames| && s1.frames[i].Callback? ensures CallbackOk(s1, i) { assert CallbackOk(s, i); }
  }

  lemma MakeKeeps(s: State, scheduled: bool)
    requires Inv(s) && UserTurn(s)
    ensures Inv(MakeBh(s, scheduled))
  {
    var s1 := AddBh(s, scheduled);
    AddKeeps(s, scheduled);
    NotesKeep(s1, MakeBh(s, scheduled).frames);
    SameContexts(s1, MakeBh(s, scheduled));
  }

  lemma PushKeeps(s: State)
    requires Inv(s) && UserTurn(s)
    ensures Inv(PushContext(s))
  {
    var s' := PushContext(s);
    assert ContextOk(s, |s.contexts| - 1);
    forall d | 0 <= d < |s'.contexts| ensures ContextOk(s', d) {
      if d < |s.contexts| { assert ContextOk(s, d); }
    }
    forall d, d' | 0 <= d < d' < |s'.contexts| ensures s'.contexts[d].serial != s'.contexts[d'].serial {
      assert ContextOk(s, d);
    }
    forall i | 0 <= i < |s'.frames| && s'.frames[i].Walk? ensures WalkOk(s', i) { assert WalkOk(s, i); }
    forall i | 0 <= i < |s'.frames| && s'.frames[i].Callback? ensures CallbackOk(s', i) { assert CallbackOk(s, i); }
  }

  /** Frames below the top, and the depths of their walks. */
  lemma DepthsBelow(s: State, i: nat)
    requires !s.aborted && FramesOk(s) && UserTurn(s) && i < |s.frames| && s.frames[i].Walk?
    ensures s.frames[i].depth <= Floor(s)
  {
    var top := |s.frames| - 1;
    assert CallbackOk(s, top);
  }

  lemma StartKeeps(s: State, popping: bool)
    requires Inv(s) && UserTurn(s) && Active(s) > Floor(s)
    ensures Inv(StartWalk(s, popping))
  {
    var s', n := StartWalk(s, popping), |s.frames|;
    if n > 0 { assert CallbackOk(s, n - 1); }
    forall d | 0 <= d < |s'.contexts| ensures ContextOk(s', d) { assert ContextOk(s, d); }
    forall i | 0 <= i < |s'.frames| && s'.frames[i].Walk? ensures WalkOk(s', i) {
      if i < n { assert WalkOk(s, i); }
    }
    forall i | 0 <= i < |s'.frames| && s'.frames[i].Callback? ensures CallbackOk(s', i) { assert CallbackOk(s, i); }
    forall i | 0 <= i < n && s'.frames[i].Walk? ensures s'.frames[i].depth < s'.frames[n].depth { DepthsBelow(s, i); }
  }

  // ------------------------------------------------------------------ frames one on top of the other

  lemma SameContexts(s: State, s': State)
    requires ContextsOk(s) && s'.contexts == s.contexts && s'.serials == s.serials && s'.aborted == s.aborted
    requires |s'.bhs| == |s.bhs| && forall b :: 0 <= b < |s.bhs| ==> s'.bhs[b].home == s.bhs[b].home
    ensures ContextsOk(s')
  {
    forall d | 0 <= d < |s'.contexts| ensures ContextOk(s', d) { assert ContextOk(s, d); }
  }

  /** Fewer frames, down to a callback or to none. */
  lemma Shorten(s: State, n: nat)
    requires FramesOk(s) && n <= |s.frames| && n % 2 == 0
    ensures FramesOk(s.(frames := s.frames[..n]))
  {
    var s' := s.(frames := s.frames[..n]);
    forall i | 0 <= i < n && s'.frames[i].Walk? ensures WalkOk(s', i) { assert WalkOk(s, i); }
    forall i | 0 <= i < n && s'.frames[i].Callback? ensures CallbackOk(s', i) { assert CallbackOk(s, i); }
  }

  predicate PassedClean(s: State, f: Frame)
    requires f.Walk? && f.depth < |s.contexts|
  {
    var list := s.contexts[f.depth].bhs;
    forall j :: 0 <= j < |list| - f.left && list[j] < |s.bhs| ==> !Runnable(s.bhs[list[j]])
  }

  /** A walk of the active context on top of frames of lower contexts. */
  lemma StackWalk(s: State, fs: seq<Frame>, f: Frame)
    requires FramesOk(s.(frames := fs)) && |fs| % 2 == 0
    requires f.Walk? && s.contexts != [] && f.depth == |s.contexts| - 1 && f.left <= |s.contexts[f.depth].bhs|
    requires !f.ret && !f.idleRan ==> PassedClean(s, f)
    requires forall i :: 0 <= i < |fs| && fs[i].Walk? ==> fs[i].depth < f.depth
    ensures FramesOk(s.(frames := fs + [f]))
  {
    var s0, s' := s.(frames := fs), s.(frames := fs + [f]);
    forall i | 0 <= i < |s'.frames| && s'.frames[i].Walk? ensures WalkOk(s', i) {
      if i < |fs| { assert WalkOk(s0, i); }
    }
    forall i | 0 <= i < |s'.frames| && s'.frames[i].Callback? ensures CallbackOk(s', i) { assert CallbackOk(s0, i); }
  }

  /** And a callback on top of that. */
  lemma StackCall(s: State, gs: seq<Frame>, b: nat)
    requires FramesOk(s.(frames := gs)) && |gs| % 2 == 1
    requires var f := gs[|gs| - 1];
             && f.Walk? && (f.ret || f.idleRan) && f.depth < |s.contexts| && 0 < f.left <= |s.contexts[f.depth].bhs|
             && s.contexts[f.depth].bhs[|s.contexts[f.depth].bhs| - f.left] == b
    ensures FramesOk(s.(frames := gs + [Callback(b)]))
  {
    var s0, s' := s.(frames := gs), s.(frames := gs + [Callback(b)]);
    forall i | 0 <= i < |s'.frames| && s'.frames[i].Walk? ensures WalkOk(s', i) { assert WalkOk(s0, i); }
    forall i | 0 <= i < |s'.frames| && s'.frames[i].Callback? ensures CallbackOk(s', i) {
      if i < |gs| { assert CallbackOk(s0, i); }
    }
  }

  /** The walk a callback returns to has called something and is of the active context. */
  lemma ReturnTop(s: State)
    requires FramesOk(s) && Enabled(s, Return)
    ensures var n := |s.frames| - 2;
            var f := s.frames[n];
            && n % 2 == 0 && (f.ret || f.idleRan) && f.depth == |s.contexts| - 1
            && f.left <= |s.contexts[f.depth].bhs|
  {
    var n := |s.frames| - 2;
    assert CallbackOk(s, n + 1) && WalkOk(s, n);
  }

  lemma LowerBelow(s: State, n: nat)
    requires FramesOk(s) && n < |s.frames| && s.frames[n].Walk?
    ensures forall i :: 0 <= i < n && s.frames[..n][i].Walk? ==> s.frames[..n][i].depth < s.frames[n].depth
  {
  }

  lemma ReturnFrames(s: State)
    requires FramesOk(s) && Enabled(s, Return)
    ensures FramesOk(ReturnTo(s))
  {
    var n := |s.frames| - 2;
    var f := s.frames[n];
    ReturnTop(s);
    Shorten(s, n);
    LowerBelow(s, n);
    var s' := GoesOn(s, s.frames[..n], f);
    assert ReturnTo(s) == s';
  }

  lemma GoesOn(s: State, fs: seq<Frame>, f: Frame) returns (s': State)
    requires FramesOk(s.(frames := fs)) && |fs| % 2 == 0 && f.Walk? && f.left > 0 && (f.ret || f.idleRan)
    requires s.contexts != [] && f.depth == |s.contexts| - 1 && f.left <= |s.contexts[f.depth].bhs|
    requires forall i :: 0 <= i < |fs| && fs[i].Walk? ==> fs[i].depth < f.depth
    ensures s' == s.(frames := fs + [f.(left := f.left - 1)]) && FramesOk(s')
  {
    StackWalk(s, fs, f.(left := f.left - 1));
    s' := s.(frames := fs + [f.(left := f.left - 1)]);
  }

  lemma ReturnKeeps(s: State)
    requires Inv(s) && Enabled(s, Return)
    ensures Inv(ReturnTo(s))
  {
    ReturnFrames(s);
    SameContexts(s, ReturnTo(s));
  }

  /** The bottom half the walk stands at. */
  function Current(s: State): (b: nat)
    requires Walking(s) && s.frames[|s.frames| - 1].left > 0
  {
    var f := s.frames[|s.frames| - 1];
    s.contexts[f.depth].bhs[|s.contexts[f.depth].bhs| - f.left]
  }

  predicate Calls(s: State) {
    Walking(s) && s.frames[|s.frames| - 1].left > 0 && Current(s) < |s.bhs| && Runnable(s.bhs[Current(s)])
  }

  /** The state below the call, its bottom half no longer scheduled, and the calling walk. */
  function Quieted(s: State): State
    requires Calls(s)
  {
    var b := Current(s);
    SetBh(s.(frames := s.frames[..|s.frames| - 1]), b, s.bhs[b].(scheduled := false, idle := false))
  }

  function Caller(s: State): Frame
    requires Calls(s)
  {
    var f, b := s.frames[|s.frames| - 1], Current(s);
    f.(ret := f.ret || !s.bhs[b].idle, idleRan := f.idleRan || s.bhs[b].idle, late := f.late - {b})
  }

  lemma StackedCall(s: State)
    requires Calls(s)
    ensures var s1 := Quieted(s);
            StepWalk(s) == s1.(frames := s1.frames + [Caller(s)] + [Callback(Current(s))])
  {
    var fs, f, c := Quieted(s).frames, Caller(s), Callback(Current(s));
    assert fs + [f, c] == fs + [f] + [c];
  }

  lemma QuietedKeeps(s: State)
    requires Inv(s) && Calls(s)
    ensures var s1 := Quieted(s);
            && Inv(s1) && !s1.aborted && s1.contexts == s.contexts && s1.serials == s.serials
            && SameWalks(s.frames[..|s.frames| - 1], s1.frames)
  {
    var n, b := |s.frames| - 1, Current(s);
    var s0 := s.(frames := s.frames[..n]);
    assert WalkOk(s, n);
    Shorten(s, n);
    BaseTurn(s, n);
    SameContexts(s, s0);
    FlagsKeep(s0, b, s.bhs[b].(scheduled := false, idle := false));
  }

  lemma CallKeeps(s: State)
    requires Inv(s) && Calls(s)
    ensures Inv(StepWalk(s))
  {
    var n, f, s1 := |s.frames| - 1, Caller(s), Quieted(s);
    QuietedKeeps(s);
    assert WalkOk(s, n);
    forall i | 0 <= i < |s1.frames| && s1.frames[i].Walk? ensures s1.frames[i].depth < f.depth {
      assert SameWalk(s.frames[..n][i], s1.frames[i]);
    }
    CallFrames(s1, f, Current(s));
    StackedCall(s);
    SameContexts(s1, StepWalk(s));
  }

  lemma CallFrames(s: State, f: Frame, b: nat)
    requires FramesOk(s) && |s.frames| % 2 == 0 && s.contexts != []
    requires && f.Walk? && (f.ret || f.idleRan)
             && f.depth == |s.contexts| - 1 && 0 < f.left <= |s.contexts[f.depth].bhs|
             && s.contexts[f.depth].bhs[|s.contexts[f.depth].bhs| - f.left] == b
    requires forall i :: 0 <= i < |s.frames| && s.frames[i].Walk? ==> s.frames[i].depth < f.depth
    ensures FramesOk(s.(frames := s.frames + [f] + [Callback(b)]))
  {
    StackWalk(s, s.frames, f);
    StackCall(s, s.frames + [f], b);
  }

  /** Below a walk it is a callback's turn, or the main program's. */
  lemma BaseTurn(s: State, n: nat)
    requires !s.aborted && FramesOk(s) && s.contexts != [] && n < |s.frames| && s.frames[n].Walk?
    ensures UserTurn(s.(frames := s.frames[..n]))
  {
    if n > 0 { assert !s.frames[n - 1].Walk?; }
  }

  lemma SkipKeeps(s: State)
    requires Inv(s) && Walking(s) && s.frames[|s.frames| - 1].left > 0 && !Calls(s)
    ensures Inv(StepWalk(s))
  {
    var n := |s.frames| - 1;
    var f := s.frames[n];
    assert WalkOk(s, n);
    Shorten(s, n);
    StackWalk(s, s.frames[..n], f.(left := f.left - 1));
    SameContexts(s, StepWalk(s));
  }

  /** Taking deleted bottom halves out of the active list, with only walks of lower contexts waiting. */
  lemma TrimKeeps(s: State, kept: seq<nat>)
    requires Inv(s) && Walking(s)
    requires var c := s.contexts[|s.contexts| - 1]; forall b :: b in kept ==> b in c.bhs
    ensures var d := |s.contexts| - 1;
            Inv(s.(contexts := s.contexts[d := s.contexts[d].(bhs := kept)], frames := s.frames[..|s.frames| - 1]))
  {
    var d, n := |s.contexts| - 1, |s.frames| - 1;
    var c := s.contexts[d];
    var s' := s.(contexts := s.contexts[d := c.(bhs := kept)], frames := s.frames[..n]);
    forall e | 0 <= e < |s'.contexts| ensures ContextOk(s', e) {
      assert ContextOk(s, e);
      if e == d {
        forall j | 0 <= j < |kept| ensures kept[j] < |s.bhs| && s.bhs[kept[j]].home == c.serial {
          assert kept[j] in c.bhs;
        }
      }
    }
    BelowKeeps(s, s');
  }

  /** Frames below a top walk do not depend on its context. */
  lemma BelowKeeps(s: State, s': State)
    requires !s.aborted && FramesOk(s) && Walking(s)
    requires s'.frames == s.frames[..|s.frames| - 1] && s'.bhs == s.bhs && !s'.aborted
    requires var d := |s.contexts| - 1; |s'.contexts| >= d && s'.contexts[..d] == s.contexts[..d]
    ensures FramesOk(s')
  {
    var d, n := |s.contexts| - 1, |s.frames| - 1;
    assert WalkOk(s, n);
    Shorten(s, n);
    var s0 := s.(frames := s.frames[..n]);
    forall i | 0 <= i < n && s0.frames[i].Walk? ensures s0.frames[i].depth < d { }
    Elsewhere(s0, s', d);
  }

  lemma Elsewhere(s: State, s': State, d: nat)
    requires FramesOk(s) && s'.frames == s.frames && s'.bhs == s.bhs && |s.frames| % 2 == 0
    requires d <= |s.contexts| && d <= |s'.contexts| && s'.contexts[..d] == s.contexts[..d]
    requires forall i :: 0 <= i < |s.frames| && s.frames[i].Walk? ==> s.frames[i].depth < d
    ensures FramesOk(s')
  {
    forall e | 0 <= e < d ensures s'.contexts[e] == s.contexts[e] {
      assert s'.contexts[..d][e] == s.contexts[..d][e];
    }
    forall i | 0 <= i < |s.frames| && s.frames[i].Walk? ensures WalkOk(s', i) { assert WalkOk(s, i); }
    forall i | 0 <= i < |s.frames| && s.frames[i].Callback? ensures CallbackOk(s', i) { assert CallbackOk(s, i); }
  }

  // ------------------------------------------------------------------ the end of a walk

  lemma EndKeeps(s: State)
    requires Inv(s) && Walking(s) && s.frames[|s.frames| - 1].left == 0
    ensures Inv(EndWalk(s))
  {
    var n, d := |s.frames| - 1, |s.contexts| - 1;
    var f, below := s.frames[n], s.frames[..n];
    var kept := Undeleted(s.contexts[d].bhs, s.bhs);
    assert WalkOk(s, n);
    if !f.popping {
      TrimKeeps(s, kept);
    } else if f.ret {
      TrimKeeps(s, kept);
      var s1 := s.(contexts := s.contexts[d := s.contexts[d].(bhs := kept)], frames := below);
      StackWalk(s1, below, Walk(d, |kept|, false, false, true, {}));
      SameContexts(s1, EndWalk(s));
    } else if d > 0 {
      LeaveKeeps(s);
      BaseTurn(s, n);
      MakeKeeps(s.(contexts := s.contexts[..d], frames := below), true);
    }
  }

  lemma LeaveKeeps(s: State)
    requires Inv(s) && Walking(s) && |s.contexts| > 1
    ensures Inv(s.(contexts := s.contexts[..|s.contexts| - 1], frames := s.frames[..|s.frames| - 1]))
  {
    var d := |s.contexts| - 1;
    var s' := s.(contexts := s.contexts[..d], frames := s.frames[..|s.frames| - 1]);
    forall e | 0 <= e < d ensures ContextOk(s', e) { assert ContextOk(s, e); }
    BelowKeeps(s, s');
  }

  lemma AdvanceKeeps(s: State)
    requires Inv(s) && Walking(s)
    ensures Inv(StepWalk(s))
  {
    if s.frames[|s.frames| - 1].left == 0 { EndKeeps(s); } else if Calls(s) { CallKeeps(s); } else { SkipKeeps(s); }
  }

  lemma StepKeeps(s: State, e: Event)
    requires Inv(s)
    ensures Inv(Step(s, e))
  {
    if Enabled(s, e) {
      match e
      case New => MakeKeeps(s, false);
      case Schedule(b) => if !s.bhs[b].scheduled { FlagsKeep(s, b, s.bhs[b].(scheduled := true, idle := false)); }
      case ScheduleIdle(b) => if !s.bhs[b].scheduled { FlagsKeep(s, b, s.bhs[b].(scheduled := true, idle := true)); }
      case Cancel(b) => FlagsKeep(s, b, s.bhs[b].(scheduled := false));
      case Delete(b) => FlagsKeep(s, b, s.bhs[b].(scheduled := false, deleted := true));
      case Push => PushKeeps(s);
      case Poll => StartKeeps(s, false);
      case Pop => StartKeeps(s, true);
      case Return => ReturnKeeps(s);
      case Advance => AdvanceKeeps(s);
    }
  }

  lemma {:induction false} RunKeeps(es: seq<Event>)
    ensures Inv(Run(START, es))
  {
    if es != [] {
      RunKeeps(es[..|es| - 1]);
      StepKeeps(Run(START, es[..|es| - 1]), es[|es| - 1]);
    }
  }

  // ------------------------------------------------------------------ what follows for every run

  /** A callback about to start belongs to the active context, whose number is its depth. */
  predicate Isolated(s: State) {
    && (Calls(s) ==> s.bhs[Current(s)].home == s.contexts[Active(s)].serial)
    && (!s.aborted ==> Active(s) >= 0 && s.contexts[Active(s)].id == Active(s))
  }

  lemma InvIsolates(s: State)
    requires Inv(s)
    ensures Isolated(s)
  {
    if !s.aborted { assert ContextOk(s, |s.contexts| - 1); }
  }

  /** In every run, every callback starts while its own context is the active one. */
  lemma Isolation(es: seq<Event>)
    ensures Isolated(Run(START, es))
  {
    RunKeeps(es);
    InvIsolates(Run(START, es));
  }

  /** While a callback runs, the list its walk will go on with still holds its bottom half. */
  lemma CurrentStays(es: seq<Event>, i: nat)
    ensures var s := Run(START, es);
            !s.aborted && i < |s.frames| && s.frames[i].Callback? ==>
              && i > 0 && s.frames[i - 1].Walk? && s.frames[i - 1].depth < |s.contexts|
              && s.frames[i].bh in s.contexts[s.frames[i - 1].depth].bhs
  {
    var s := Run(START, es);
    RunKeeps(es);
    if !s.aborted && i < |s.frames| && s.frames[i].Callback? { assert CallbackOk(s, i); }
  }

  lemma StepUnscheduled(s: State, e: Event, b: nat)
    requires b < |s.bhs| && !s.bhs[b].scheduled && e != Schedule(b) && e != ScheduleIdle(b)
    ensures b < |Step(s, e).bhs| && !Step(s, e).bhs[b].scheduled
  {
  }

  /** A bottom half that is not scheduled - because it was cancelled or deleted, or has just been
      called - is not called again until it is scheduled again, whatever else happens. */
  lemma {:induction false} NotCalledUnlessScheduled(s: State, es: seq<Event>, b: nat)
    requires b < |s.bhs| && !s.bhs[b].scheduled && Schedule(b) !in es && ScheduleIdle(b) !in es
    ensures b < |Run(s, es).bhs| && !Run(s, es).bhs[b].scheduled
    ensures Calls(Run(s, es)) ==> Current(Run(s, es)) != b
  {
    if es != [] {
      NotCalledUnlessScheduled(s, es[..|es| - 1], b);
      StepUnscheduled(Run(s, es[..|es| - 1]), es[|es| - 1], b);
    }
  }

  /** A bottom half that has been cancelled, deleted or called is not called, again or at all,
      until it is scheduled anew. */
  lemma NotAgain(s: State, e: Event, es: seq<Event>, b: nat)
    requires b < |s.bhs| && Schedule(b) !in es && ScheduleIdle(b) !in es
    requires (e in {Cancel(b), Delete(b)} && Enabled(s, e)) || (e == Advance && Calls(s) && Current(s) == b)
    ensures var s' := Run(Step(s, e), es); Calls(s') ==> Current(s') != b
  {
    assert !Step(s, e).bhs[b].scheduled;
    NotCalledUnlessScheduled(Step(s, e), es, b);
  }

  /** The pop is about to leave its context. */
  predicate Leaving(s: State) {
    Walking(s) && var f := s.frames[|s.frames| - 1]; f.popping && f.left == 0 && !f.ret
  }

  /** Some bottom half of the context being left is still due and would be dropped. */
  predicate Drops(s: State)
    requires Leaving(s)
  {
    var list := s.contexts[|s.contexts| - 1].bhs;
    exists j :: 0 <= j < |list| && list[j] < |s.bhs| && Runnable(s.bhs[list[j]])
  }

  predicate DropsOnlyAfterIdle(s: State) {
    Leaving(s) && Drops(s) ==> s.frames[|s.frames| - 1].idleRan
  }

  lemma InvDrops(s: State)
    requires Inv(s)
    ensures DropsOnlyAfterIdle(s)
  {
    if Leaving(s) { assert WalkOk(s, |s.frames| - 1); }
  }

  /** A pop drops a bottom half that is due only if its last walk ran an idle one. */
  lemma PopDropsOnlyAfterIdle(es: seq<Event>)
    ensures DropsOnlyAfterIdle(Run(START, es))
  {
    RunKeeps(es);
    InvDrops(Run(START, es));
  }

  // ------------------------------------------------------------------ exactly what a pop drops

  /** What the walk in frame i is behind with: passed, or reached while its callback runs. */
  function Behind(s: State, i: nat): seq<nat>
    requires i < |s.frames| && s.frames[i].Walk?
  {
    var f := s.frames[i];
    if i < |s.frames| - 1 then Reached(s.contexts, f)
    else if f.depth < |s.contexts| && f.left <= |s.contexts[f.depth].bhs|
    then s.contexts[f.depth].bhs[..|s.contexts[f.depth].bhs| - f.left] else []
  }

  /** Of the undeleted ones, exactly those behind the walk that are due have been noted. */
  ghost predicate Balanced(bhs: seq<Bh>, behind: seq<nat>, late: set<nat>) {
    && (forall b :: b in late ==> b < |bhs|)
    && forall b: nat :: b < |bhs| ==> ((b in late && !bhs[b].deleted) <==> (b in behind && Runnable(bhs[b])))
  }

  ghost predicate LateInv(s: State) {
    !s.aborted ==>
      forall i :: 0 <= i < |s.frames| && s.frames[i].Walk? ==> Balanced(s.bhs, Behind(s, i), s.frames[i].late)
  }

  lemma FlagsBalance(bhs: seq<Bh>, behind: seq<nat>, late: set<nat>, b: nat, bh: Bh)
    requires Balanced(bhs, behind, late) && b < |bhs| && (bh.scheduled ==> bh.deleted == bhs[b].deleted)
    ensures Balanced(bhs[b := bh], behind,
                     if !bh.scheduled then late - {b} else if b in behind then late + {b} else late)
  {
  }

  /** A new bottom half in front of a walk's list is behind that walk. */
  lemma NewBalances(bhs: seq<Bh>, behind: seq<nat>, late: set<nat>, bh: Bh, front: bool)
    requires Balanced(bhs, behind, late) && !bh.deleted && |bhs| !in behind
    ensures var n, behind' := |bhs|, if front then [|bhs|] + behind else behind;
            Balanced(bhs + [bh], behind', if bh.scheduled && front then late + {n} else late)
  {
  }

  lemma SetLate(s: State, b: nat, bh: Bh)
    requires LateInv(s) && UserTurn(s) && b < |s.bhs| && (bh.scheduled ==> bh.deleted == s.bhs[b].deleted)
    ensures LateInv(SetBh(s, b, bh))
  {
    var s' := SetBh(s, b, bh);
    forall i | 0 <= i < |s'.frames| && s'.frames[i].Walk? ensures Balanced(s'.bhs, Behind(s', i), s'.frames[i].late) {
      FlagsBalance(s.bhs, Behind(s, i), s.frames[i].late, b, bh);
      assert Behind(s', i) == Behind(s, i) == Reached(s.contexts, s.frames[i]);
    }
  }

  lemma MakeLate(s: State, scheduled: bool)
    requires Inv(s) && LateInv(s) && UserTurn(s)
    ensures LateInv(MakeBh(s, scheduled))
  {
    var s', d := MakeBh(s, scheduled), |s.contexts| - 1;
    forall i | 0 <= i < |s'.frames| && s'.frames[i].Walk? ensures Balanced(s'.bhs, Behind(s', i), s'.frames[i].late) {
      MakeLateAt(s, scheduled, i);
    }
  }

  lemma ReachedAfterAdd(s: State, scheduled: bool, i: nat)
    requires Inv(s) && UserTurn(s) && i < |s.frames| && s.frames[i].Walk?
    ensures var f, n := s.frames[i], |s.bhs|;
            var before, after := Reached(s.contexts, f), Reached(AddBh(s, scheduled).contexts, f);
            n !in before && after == if f.depth == |s.contexts| - 1 then [n] + before else before
  {
    var f := s.frames[i];
    assert WalkOk(s, i) && CallbackOk(s, i + 1);
    assert ContextOk(s, f.depth);
    var list := s.contexts[f.depth].bhs;
    var list' := AddBh(s, scheduled).contexts[f.depth].bhs;
    if f.depth == |s.contexts| - 1 {
      assert list' == [|s.bhs|] + list;
      assert list'[..|list'| - f.left + 1] == [|s.bhs|] + list[..|list| - f.left + 1];
    }
  }

  lemma MakeLateAt(s: State, scheduled: bool, i: nat)
    requires Inv(s) && LateInv(s) && UserTurn(s) && i < |s.frames| && s.frames[i].Walk?
    ensures var s' := MakeBh(s, scheduled); Balanced(s'.bhs, Behind(s', i), s'.frames[i].late)
  {
    var s1, s', f := AddBh(s, scheduled), MakeBh(s, scheduled), s.frames[i];
    ReachedAfterAdd(s, scheduled, i);
    NewBalances(s.bhs, Reached(s.contexts, f), f.late, s1.bhs[|s.bhs|], f.depth == |s.contexts| - 1);
    assert s'.frames[i] == if scheduled then Noted(s1.contexts, f, |s.bhs|) else f;
    assert Behind(s', i) == Reached(s1.contexts, f);
  }

  lemma PushLate(s: State)
    requires Inv(s) && LateInv(s) && UserTurn(s)
    ensures LateInv(PushContext(s))
  {
    var s' := PushContext(s);
    forall i | 0 <= i < |s'.frames| && s'.frames[i].Walk? ensures Balanced(s'.bhs, Behind(s', i), s'.frames[i].late) {
      assert WalkOk(s, i);
      assert Behind(s', i) == Behind(s, i);
    }
  }

  /** Frames that end with a callback, or none: every walk among them waits for one. */
  predicate Waiting(fs: seq<Frame>) {
    |fs| % 2 == 0 && forall i :: 0 <= i < |fs| ==> (fs[i].Walk? <==> i % 2 == 0)
  }

  ghost predicate LowerLate(s: State, fs: seq<Frame>) {
    forall i :: 0 <= i < |fs| && fs[i].Walk? ==> Balanced(s.bhs, Reached(s.contexts, fs[i]), fs[i].late)
  }

  lemma LateBelow(s: State, n: nat)
    requires !s.aborted && FramesOk(s) && LateInv(s) && n <= |s.frames| && n % 2 == 0
    ensures Waiting(s.frames[..n]) && LowerLate(s, s.frames[..n])
  {
    var fs := s.frames[..n];
    forall i | 0 <= i < n && fs[i].Walk? ensures Balanced(s.bhs, Reached(s.contexts, fs[i]), fs[i].late) {
      assert s.frames[i].Walk? && i < n - 1;
      assert Balanced(s.bhs, Behind(s, i), s.frames[i].late);
    }
  }

  /** Walks that wait, alone or under one more walk, or under that and its callback. */
  lemma LateAlone(s: State)
    requires Waiting(s.frames) && LowerLate(s, s.frames)
    ensures LateInv(s)
  {
    forall i | 0 <= i < |s.frames| && s.frames[i].Walk? ensures Balanced(s.bhs, Behind(s, i), s.frames[i].late) {
      assert i < |s.frames| - 1;
    }
  }

  lemma LateUnder(s: State, fs: seq<Frame>, f: Frame)
    requires Waiting(fs) && LowerLate(s, fs) && f.Walk? && f.depth < |s.contexts|
    requires var list := s.contexts[f.depth].bhs;
             f.left <= |list| && Balanced(s.bhs, list[..|list| - f.left], f.late)
    ensures LateInv(s.(frames := fs + [f]))
  {
    var s' := s.(frames := fs + [f]);
    forall i | 0 <= i < |s'.frames| && s'.frames[i].Walk? ensures Balanced(s'.bhs, Behind(s', i), s'.frames[i].late) {
      if i < |fs| { assert s'.frames[i] == fs[i]; }
    }
  }

  lemma LateCalled(s: State, fs: seq<Frame>, f: Frame, b: nat)
    requires Waiting(fs) && LowerLate(s, fs) && f.Walk? && Balanced(s.bhs, Reached(s.contexts, f), f.late)
    ensures LateInv(s.(frames := fs + [f, Callback(b)]))
  {
    var s' := s.(frames := fs + [f, Callback(b)]);
    forall i | 0 <= i < |s'.frames| && s'.frames[i].Walk? ensures Balanced(s'.bhs, Behind(s', i), s'.frames[i].late) {
      if i < |fs| { assert s'.frames[i] == fs[i]; }
    }
  }

  /** A fresh walk is behind with nothing. */
  lemma FreshLate(s: State, fs: seq<Frame>, popping: bool)
    requires s.contexts != [] && Waiting(fs) && LowerLate(s, fs)
    ensures var d := |s.contexts| - 1;
            LateInv(s.(frames := fs + [Walk(d, |s.contexts[d].bhs|, false, false, popping, {})]))
  {
    var d := |s.contexts| - 1;
    var list := s.contexts[d].bhs;
    assert list[..|list| - |list|] == [];
    LateUnder(s, fs, Walk(d, |list|, false, false, popping, {}));
  }

  lemma ReturnLate(s: State)
    requires Inv(s) && LateInv(s) && Enabled(s, Return)
    ensures LateInv(ReturnTo(s))
  {
    var n := |s.frames| - 2;
    var f := s.frames[n];
    assert WalkOk(s, n) && CallbackOk(s, n + 1);
    assert Balanced(s.bhs, Behind(s, n), f.late);
    LateBelow(s, n);
    LateUnder(s, s.frames[..n], f.(left := f.left - 1));
  }

  lemma SkipBalances(bhs: seq<Bh>, list: seq<nat>, n: nat, late: set<nat>)
    requires n < |list| && Balanced(bhs, list[..n], late) && (list[n] < |bhs| ==> !Runnable(bhs[list[n]]))
    ensures Balanced(bhs, list[..n + 1], late)
  {
    assert list[..n + 1] == list[..n] + [list[n]];
  }

  lemma SkipShape(s: State)
    requires Walking(s) && s.frames[|s.frames| - 1].left > 0 && !Calls(s)
    ensures var n := |s.frames| - 1;
            StepWalk(s) == s.(frames := s.frames[..n] + [s.frames[n].(left := s.frames[n].left - 1)])
  {
  }

  lemma SkippedLate(s: State, fs: seq<Frame>, f: Frame)
    requires Waiting(fs) && LowerLate(s, fs) && f.Walk? && f.depth < |s.contexts|
    requires var list := s.contexts[f.depth].bhs;
             && 0 < f.left <= |list| && Balanced(s.bhs, list[..|list| - f.left], f.late)
             && (list[|list| - f.left] < |s.bhs| ==> !Runnable(s.bhs[list[|list| - f.left]]))
    ensures LateInv(s.(frames := fs + [f.(left := f.left - 1)]))
  {
    var list := s.contexts[f.depth].bhs;
    SkipBalances(s.bhs, list, |list| - f.left, f.late);
    LateUnder(s, fs, f.(left := f.left - 1));
  }

  lemma SkipLate(s: State)
    requires !s.aborted && FramesOk(s) && LateInv(s) && Walking(s) && s.frames[|s.frames| - 1].left > 0 && !Calls(s)
    ensures LateInv(StepWalk(s))
  {
    var n := |s.frames| - 1;
    TopBalanced(s);
    LateBelow(s, n);
    SkippedLate(s, s.frames[..n], s.frames[n]);
    SkipShape(s);
  }

  lemma CallBalances(bhs: seq<Bh>, list: seq<nat>, n: nat, late: set<nat>, bh: Bh)
    requires n < |list| && Balanced(bhs, list[..n], late) && list[n] < |bhs| && !bh.scheduled
    ensures Balanced(bhs[list[n] := bh], list[..n + 1], late - {list[n]})
  {
    FlagsBalance(bhs, list[..n], late, list[n], bh);
    assert list[..n + 1] == list[..n] + [list[n]];
  }

  lemma TopBalanced(s: State)
    requires LateInv(s) && Walking(s)
    ensures var f := s.frames[|s.frames| - 1];
            var list := s.contexts[f.depth].bhs;
            Balanced(s.bhs, list[..|list| - f.left], f.late)
  {
    assert Balanced(s.bhs, Behind(s, |s.frames| - 1), s.frames[|s.frames| - 1].late);
  }

  /** The frame of a walk that has just called b. */
  function Calling(f: Frame, b: nat, idle: bool): Frame
    requires f.Walk?
  {
    f.(ret := f.ret || !idle, idleRan := f.idleRan || idle, late := f.late - {b})
  }

  lemma CallShape(s: State)
    requires Calls(s)
    ensures var n, b := |s.frames| - 1, Current(s);
            StepWalk(s) == s.(bhs := s.bhs[b := s.bhs[b].(scheduled := false, idle := false)],
                              frames := DropLate(s.frames[..n], b)
                                        + [Calling(s.frames[n], b, s.bhs[b].idle), Callback(b)])
  {
  }

  lemma CallLate(s: State)
    requires !s.aborted && FramesOk(s) && LateInv(s) && Calls(s)
    ensures LateInv(StepWalk(s))
  {
    var n, b := |s.frames| - 1, Current(s);
    var f, fs, bh := s.frames[n], s.frames[..n], s.bhs[b].(scheduled := false, idle := false);
    TopBalanced(s);
    LateBelow(s, n);
    CalledLate(s, fs, f, b, bh);
    CallShape(s);
  }

  lemma CalledLate(s: State, fs: seq<Frame>, f: Frame, b: nat, bh: Bh)
    requires Waiting(fs) && LowerLate(s, fs) && f.Walk? && f.depth < |s.contexts|
    requires var list := s.contexts[f.depth].bhs;
             && 0 < f.left <= |list| && list[|list| - f.left] == b && Balanced(s.bhs, list[..|list| - f.left], f.late)
    requires b < |s.bhs| && !bh.scheduled
    ensures LateInv(s.(bhs := s.bhs[b := bh], frames := DropLate(fs, b) + [Calling(f, b, s.bhs[b].idle), Callback(b)]))
  {
    var list := s.contexts[f.depth].bhs;
    DropBelow(s, fs, b, bh);
    CallBalances(s.bhs, list, |list| - f.left, f.late, bh);
    LateCalled(s.(bhs := s.bhs[b := bh]), DropLate(fs, b), Calling(f, b, s.bhs[b].idle), b);
  }

  lemma DropBelow(s: State, fs: seq<Frame>, b: nat, bh: Bh)
    requires Waiting(fs) && LowerLate(s, fs) && b < |s.bhs| && !bh.scheduled
    ensures Waiting(DropLate(fs, b)) && LowerLate(s.(bhs := s.bhs[b := bh]), DropLate(fs, b))
  {
    var s1, gs := s.(bhs := s.bhs[b := bh]), DropLate(fs, b);
    forall i | 0 <= i < |gs| && gs[i].Walk? ensures Balanced(s1.bhs, Reached(s1.contexts, gs[i]), gs[i].late) {
      assert gs[i] == Dropped(fs[i], b) && fs[i].Walk?;
      FlagsBalance(s.bhs, Reached(s.contexts, fs[i]), fs[i].late, b, bh);
      assert Reached(s.contexts, gs[i]) == Reached(s.contexts, fs[i]);
    }
  }

  /** The list of the active context does not matter to the walks below the one on top. */
  lemma OtherListLate(s: State, s': State)
    requires Inv(s) && LateInv(s) && Walking(s)
    requires s'.bhs == s.bhs
    requires var d := |s.contexts| - 1; |s'.contexts| >= d && s'.contexts[..d] == s.contexts[..d]
    ensures var fs := s.frames[..|s.frames| - 1]; Waiting(fs) && LowerLate(s', fs)
  {
    var n, d := |s.frames| - 1, |s.contexts| - 1;
    assert WalkOk(s, n);
    LateBelow(s, n);
    var fs := s.frames[..n];
    forall i | 0 <= i < n && fs[i].Walk? ensures Balanced(s'.bhs, Reached(s'.contexts, fs[i]), fs[i].late) {
      var e := s.frames[i].depth;
      assert e < d;
      assert s'.contexts[..d][e] == s.contexts[..d][e];
      assert Reached(s'.contexts, fs[i]) == Reached(s.contexts, fs[i]);
    }
  }

  lemma EndLate(s: State)
    requires Inv(s) && LateInv(s) && Walking(s) && s.frames[|s.frames| - 1].left == 0
    ensures LateInv(EndWalk(s))
  {
    var n, d := |s.frames| - 1, |s.contexts| - 1;
    var f, below := s.frames[n], s.frames[..n];
    var kept := Undeleted(s.contexts[d].bhs, s.bhs);
    assert WalkOk(s, n);
    var trimmed := s.(contexts := s.contexts[d := s.contexts[d].(bhs := kept)], frames := below);
    OtherListLate(s, trimmed);
    if !f.popping {
      LateAlone(trimmed);
    } else if f.ret {
      FreshLate(trimmed, below, true);
    } else if d > 0 {
      var left := s.(contexts := s.contexts[..d], frames := below);
      OtherListLate(s, left);
      LateAlone(left);
      LeaveKeeps(s);
      BaseTurn(s, n);
      MakeLate(left, true);
    }
  }

  lemma AdvanceLate(s: State)
    requires Inv(s) && LateInv(s) && Walking(s)
    ensures LateInv(StepWalk(s))
  {
    if s.frames[|s.frames| - 1].left == 0 { EndLate(s); } else if Calls(s) { CallLate(s); } else { SkipLate(s); }
  }

  lemma StepLate(s: State, e: Event)
    requires Inv(s) && LateInv(s)
    ensures LateInv(Step(s, e))
  {
    if Enabled(s, e) {
      match e
      case New => MakeLate(s, false);
      case Schedule(b) => if !s.bhs[b].scheduled { SetLate(s, b, s.bhs[b].(scheduled := true, idle := false)); }
      case ScheduleIdle(b) => if !s.bhs[b].scheduled { SetLate(s, b, s.bhs[b].(scheduled := true, idle := true)); }
      case Cancel(b) => SetLate(s, b, s.bhs[b].(scheduled := false));
      case Delete(b) => SetLate(s, b, s.bhs[b].(scheduled := false, deleted := true));
      case Push => PushLate(s);
      case Poll => StartLate(s, false);
      case Pop => StartLate(s, true);
      case Return => ReturnLate(s);
      case Advance => AdvanceLate(s);
    }
  }

  lemma StartLate(s: State, popping: bool)
    requires Inv(s) && LateInv(s) && UserTurn(s)
    ensures LateInv(StartWalk(s, popping))
  {
    var d, n := |s.contexts| - 1, |s.frames|;
    if n > 0 { assert !s.frames[n - 1].Walk?; }
    LateBelow(s, n);
    assert s.frames[..n] == s.frames;
    FreshLate(s, s.frames, popping);
  }

  lemma {:induction false} RunLate(es: seq<Event>)
    ensures LateInv(Run(START, es))
  {
    if es != [] {
      RunKeeps(es[..|es| - 1]);
      RunLate(es[..|es| - 1]);
      StepLate(Run(START, es[..|es| - 1]), es[|es| - 1]);
    }
  }

  /** Some undeleted bottom half was scheduled after the walk had reached it. */
  predicate LateOnes(s: State)
    requires Leaving(s)
  {
    exists b :: b in s.frames[|s.frames| - 1].late && b < |s.bhs| && !s.bhs[b].deleted
  }

  predicate DropsLateOnes(s: State) { Leaving(s) ==> (Drops(s) <==> LateOnes(s)) }

  lemma BalancedDue(bhs: seq<Bh>, list: seq<nat>, late: set<nat>)
    requires Balanced(bhs, list, late)
    ensures (exists j :: 0 <= j < |list| && list[j] < |bhs| && Runnable(bhs[list[j]]))
            <==> (exists b :: b in late && b < |bhs| && !bhs[b].deleted)
  {
    if j :| 0 <= j < |list| && list[j] < |bhs| && Runnable(bhs[list[j]]) {
      assert list[j] in late;
    }
    if b :| b in late && b < |bhs| && !bhs[b].deleted {
      var j :| 0 <= j < |list| && list[j] == b;
      assert Runnable(bhs[list[j]]);
    }
  }

  lemma LateDrops(s: State)
    requires Inv(s) && LateInv(s)
    ensures DropsLateOnes(s)
  {
    if Leaving(s) {
      var n := |s.frames| - 1;
      var list := s.contexts[|s.contexts| - 1].bhs;
      assert Balanced(s.bhs, Behind(s, n), s.frames[n].late);
      assert Behind(s, n) == list;
      BalancedDue(s.bhs, list, s.frames[n].late);
    }
  }

  /** In every run, a pop that leaves its context drops a bottom half that is due if and only if
      an undeleted one was scheduled after its last walk had reached it and not unscheduled since. */
  lemma PopDropsIff(es: seq<Event>)
    ensures DropsLateOnes(Run(START, es))
  {
    RunKeeps(es);
    RunLate(es);
    LateDrops(Run(START, es));
  }

  predicate NoIdle(s: State) {
    && (forall b :: 0 <= b < |s.bhs| ==> !s.bhs[b].idle)
    && (forall i :: 0 <= i < |s.frames| && s.frames[i].Walk? ==> !s.frames[i].idleRan)
  }

  lemma SetNoIdle(s: State, b: nat, bh: Bh)
    requires NoIdle(s) && b < |s.bhs| && !bh.idle
    ensures NoIdle(SetBh(s, b, bh))
  {
  }

  lemma MakeNoIdle(s: State, scheduled: bool)
    requires NoIdle(s) && s.contexts != []
    ensures NoIdle(MakeBh(s, scheduled))
  {
  }

  lemma AdvanceNoIdle(s: State)
    requires NoIdle(s) && Walking(s)
    ensures NoIdle(StepWalk(s))
  {
    var below := s.(frames := s.frames[..|s.frames| - 1]);
    if s.frames[|s.frames| - 1].left == 0 {
      if |s.contexts| > 1 { MakeNoIdle(below.(contexts := s.contexts[..|s.contexts| - 1]), true); }
    } else if Calls(s) {
      SetNoIdle(below, Current(s), s.bhs[Current(s)].(scheduled := false, idle := false));
    }
  }

  lemma StepNoIdle(s: State, e: Event)
    requires NoIdle(s) && !e.ScheduleIdle?
    ensures NoIdle(Step(s, e))
  {
    if Enabled(s, e) {
      match e
      case New => MakeNoIdle(s, false);
      case Schedule(b) => SetNoIdle(s, b, s.bhs[b].(scheduled := true, idle := false));
      case Cancel(b) => SetNoIdle(s, b, s.bhs[b].(scheduled := false));
      case Delete(b) => SetNoIdle(s, b, s.bhs[b].(scheduled := false, deleted := true));
      case Advance => AdvanceNoIdle(s);
      case _ =>
    }
  }

  lemma {:induction false} RunNoIdle(es: seq<Event>)
    requires forall e :: e in es ==> !e.ScheduleIdle?
    ensures NoIdle(Run(START, es))
  {
    if es != [] {
      RunNoIdle(es[..|es| - 1]);
      StepNoIdle(Run(START, es[..|es| - 1]), es[|es| - 1]);
    }
  }

  /** If nothing is ever scheduled idle, no pop ever drops a bottom half that is due. */
  lemma PopNeverDrops(es: seq<Event>)
    requires forall e :: e in es ==> !e.ScheduleIdle?
    ensures var s := Run(START, es); Leaving(s) ==> !Drops(s)
  {
    PopDropsOnlyAfterIdle(es);
    RunNoIdle(es);
  }

  /** After a context is left, the next poll of the parent first calls the bottom half that runs
      the completions queued meanwhile. */
  lemma CompletionsNext(es: seq<Event>)
    ensures var s := Run(START, es);
            Leaving(s) && Active(s) > 0 ==>
              var s' := Step(s, Advance);
              Active(s') == Active(s) - 1
              && (Enabled(s', Poll) ==>
                    var s2 := Step(Step(s', Poll), Advance);
                    s2.frames != [] && s2.frames[|s2.frames| - 1] == Callback(|s.bhs|))
  {
    var s := Run(START, es);
    if Leaving(s) && Active(s) > 0 { NextPoll(s); }
  }

  lemma NextPoll(s: State)
    requires Leaving(s) && Active(s) > 0
    ensures var s' := Step(s, Advance);
            Active(s') == Active(s) - 1
            && (Enabled(s', Poll) ==>
                  var s2 := Step(Step(s', Poll), Advance);
                  s2.frames != [] && s2.frames[|s2.frames| - 1] == Callback(|s.bhs|))
  {
    var s' := Step(s, Advance);
    assert s'.contexts[|s'.contexts| - 1].bhs[0] == |s.bhs| && Runnable(s'.bhs[|s.bhs|]);
    if Enabled(s', Poll) {
      var s1 := Step(s', Poll);
      assert Walking(s1) && Calls(s1) && Current(s1) == |s.bhs|;
    }
  }

  // ------------------------------------------------------------------ an idle bottom half that loses another

  lemma {:induction false} Then(es: seq<Event>, e: Event) returns (es': seq<Event>)
    ensures Run(START, es') == Step(Run(START, es), e)
  {
    es' := es + [e];
    assert es'[..|es'| - 1] == es;
  }

  function IdleState(bhs: seq<Bh>, frames: seq<Frame>): State {
    State([Context(0, 0, []), Context(1, 1, [1, 0])], bhs, frames, 2, false)
  }

  const IDLE_DUE: seq<Bh> := [Bh(1, true, true, false), Bh(1, false, false, false)]
  const NONE_DUE: seq<Bh> := [Bh(1, false, false, false), Bh(1, false, false, false)]
  const OTHER_DUE: seq<Bh> := [Bh(1, false, false, false), Bh(1, true, false, false)]

  lemma TwoMade() returns (es: seq<Event>)
    ensures Run(START, es) == IdleState(NONE_DUE, [])
  {
    var e1 := Then([], Push);
    var s1 := State([Context(0, 0, []), Context(1, 1, [])], [], [], 2, false);
    assert Run(START, e1) == s1;
    var e2 := Then(e1, New);
    var s2 := State([Context(0, 0, []), Context(1, 1, [0])], [Bh(1, false, false, false)], [], 2, false);
    assert [0] + [] == [0] && [] + s2.bhs == s2.bhs;
    assert Step(s1, New) == s2;
    es := Then(e2, New);
    assert [1] + [0] == [1, 0];
    assert Step(s2, New) == IdleState(NONE_DUE, []);
  }

  lemma IdleScheduled()
    ensures Step(IdleState(NONE_DUE, []), ScheduleIdle(0)) == IdleState(IDLE_DUE, [])
    ensures Step(IdleState(IDLE_DUE, []), Pop) == IdleState(IDLE_DUE, [Walk(1, 2, false, false, true, {})])
  {
    assert NONE_DUE[0 := Bh(1, true, true, false)] == IDLE_DUE;
    assert NoteLate(IdleState(NONE_DUE, []).contexts, [], 0) == [];
  }

  lemma OtherPassed()
    ensures Step(IdleState(IDLE_DUE, [Walk(1, 2, false, false, true, {})]), Advance)
            == IdleState(IDLE_DUE, [Walk(1, 1, false, false, true, {})])
  {
  }

  /** The walk calls the idle bottom half, which is last in the list. */
  lemma IdleCalled()
    ensures Step(IdleState(IDLE_DUE, [Walk(1, 1, false, false, true, {})]), Advance)
            == IdleState(NONE_DUE, [Walk(1, 1, false, true, true, {}), Callback(0)])
  {
    assert DropLate([], 0) == [];
    assert {} - {0} == {};
    assert IDLE_DUE[0 := Bh(1, false, false, false)] == NONE_DUE;
  }

  /** Its callback schedules the one the walk has passed. */
  lemma OtherScheduled()
    ensures Step(IdleState(NONE_DUE, [Walk(1, 1, false, true, true, {}), Callback(0)]), Schedule(1))
            == IdleState(OTHER_DUE, [Walk(1, 1, false, true, true, {1}), Callback(0)])
  {
    var s := IdleState(NONE_DUE, [Walk(1, 1, false, true, true, {}), Callback(0)]);
    assert Reached(s.contexts, s.frames[0]) == [1, 0];
    assert 1 in [1, 0] && {} + {1} == {1};
    var r := NoteLate(s.contexts, s.frames, 1);
    assert r[0] == Walk(1, 1, false, true, true, {1}) && r[1] == Callback(0);
    assert r == [Walk(1, 1, false, true, true, {1}), Callback(0)];
    assert NONE_DUE[1 := Bh(1, true, false, false)] == OTHER_DUE;
  }

  /** A run in which an idle bottom half runs last, its callback schedules one the walk has
      already passed, and the pop drops that one. */
  lemma IdlePopDrops() returns (es: seq<Event>)
    ensures var s := Run(START, es); Leaving(s) && Drops(s)
  {
    es := TwoMade();
    IdleScheduled();
    es := Then(es, ScheduleIdle(0));
    es := Then(es, Pop);
    OtherPassed();
    es := Then(es, Advance);
    IdleCalled();
    es := Then(es, Advance);
    OtherScheduled();
    es := Then(es, Schedule(1));
    LastReturn();
    es := Then(es, Return);
  }

  lemma LastReturn()
    ensures var s := Step(IdleState(OTHER_DUE, [Walk(1, 1, false, true, true, {1}), Callback(0)]), Return);
            Leaving(s) && Drops(s)
  {
    var s := Step(IdleState(OTHER_DUE, [Walk(1, 1, false, true, true, {1}), Callback(0)]), Return);
    assert s.frames == [Walk(1, 0, false, true, true, {1})];
    assert s.contexts[1].bhs[0] == 1;
  }
}
