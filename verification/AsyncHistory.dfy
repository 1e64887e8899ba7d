/** Things that happen at moments of a history. */
module Moments {

  /** Of the moments before n at which p or q happens, the last is one of p; q before p at the same moment. */
  ghost predicate Last(p: nat -> bool, q: nat -> bool, n: nat) {
    exists k: nat :: k < n && p(k) && NoneSince(q, k, n)
  }

  ghost predicate NoneSince(q: nat -> bool, k: nat, n: nat) {
    forall j: nat :: k < j < n ==> !q(j)
  }

  lemma LastStep(p: nat -> bool, q: nat -> bool, n: nat)
    ensures Last(p, q, n + 1) <==> p(n) || (Last(p, q, n) && !q(n))
  {
    if p(n) { assert NoneSince(q, n, n + 1); }
    if Last(p, q, n) && !q(n) {
      var k: nat :| k < n && p(k) && NoneSince(q, k, n);
      assert NoneSince(q, k, n + 1);
    }
    if Last(p, q, n + 1) && !p(n) {
      var k: nat :| k < n + 1 && p(k) && NoneSince(q, k, n + 1);
      assert NoneSince(q, k, n);
    }
  }

  lemma LastSame(p: nat -> bool, q: nat -> bool, p': nat -> bool, q': nat -> bool, n: nat)
    requires forall k: nat :: k < n ==> p(k) == p'(k) && q(k) == q'(k)
    ensures Last(p, q, n) <==> Last(p', q', n)
  {
    if Last(p, q, n) {
      var k: nat :| k < n && p(k) && NoneSince(q, k, n);
      assert p'(k) && NoneSince(q', k, n);
    }
    if Last(p', q', n) {
      var k: nat :| k < n && p'(k) && NoneSince(q', k, n);
      assert p(k) && NoneSince(q, k, n);
    }
  }

  lemma {:induction false} FirstMoment(p: nat -> bool, n: nat) returns (k: nat)
    requires exists j: nat :: j < n && p(j)
    ensures k < n && p(k) && forall j: nat :: j < k ==> !p(j)
  {
    if j: nat :| j < n - 1 && p(j) {
      k := FirstMoment(p, n - 1);
    } else {
      k := n - 1;
    }
  }

  lemma {:induction false} Growing(f: nat -> nat, k: nat, n: nat, end: nat)
    requires k <= n <= end && forall j: nat :: j < end ==> f(j) <= f(j + 1)
    ensures f(k) <= f(n)
    decreases n
  {
    if k < n {
      Growing(f, k, n - 1, end);
      assert f(n - 1) <= f(n - 1 + 1);
    }
  }

  lemma NeverLast(p: nat -> bool, q: nat -> bool, n: nat)
    requires forall k: nat :: k < n ==> !p(k)
    ensures !Last(p, q, n)
  {
  }
}

/**
 What the history of calls alone says about bottom halves: which are deleted, due or
 idle, where they are kept, and which of them a poll or a pop calls.
 */
module AsyncHistory {
  import opened AsyncContexts
  import opened Moments

  // ------------------------------------------------------------------ what a step does to a bottom half

  /** The step leaves a context for its parent and makes the completion bottom half. */
  predicate Leaves(s: State, e: Event) { e == Advance && Leaving(s) && Active(s) > 0 }

  /** The step makes b due: it is scheduled, or made due by a pop. */
  predicate MakesDue(s: State, e: Event, b: nat) {
    (e in {Schedule(b), ScheduleIdle(b)} && Enabled(s, e)) || (Leaves(s, e) && b == |s.bhs|)
  }

  /** The walk calls b. */
  predicate CallsIt(s: State, e: Event, b: nat) { e == Advance && Calls(s) && Current(s) == b }

  predicate Deletes(s: State, e: Event, b: nat) { e == Delete(b) && Enabled(s, e) }

  predicate Cancels(s: State, e: Event, b: nat) { e == Cancel(b) && Enabled(s, e) }

  /** The step makes b no longer due. */
  predicate Quiets(s: State, e: Event, b: nat) { Cancels(s, e, b) || Deletes(s, e, b) || CallsIt(s, e, b) }

  /** The step makes a bottom half. */
  predicate Makes(s: State, e: Event) { (e == New && Enabled(s, e)) || Leaves(s, e) }

  lemma AdvanceBhs(s: State)
    requires Walking(s)
    ensures var s' := StepWalk(s);
            if Calls(s) then s'.bhs == s.bhs[Current(s) := s.bhs[Current(s)].(scheduled := false, idle := false)]
            else if Leaves(s, Advance)
            then s'.bhs == s.bhs + [Bh(s.contexts[|s.contexts| - 2].serial, true, false, false)]
            else s'.bhs == s.bhs
  {
    if Calls(s) { CallShape(s); }
  }

  /** What becomes of the flags of b. */
  predicate FlagsAfter(s: State, e: Event, s': State, b: nat) {
    && b < |s.bhs| && b < |s'.bhs|
    && s'.bhs[b].home == s.bhs[b].home
    && s'.bhs[b].deleted == (s.bhs[b].deleted || Deletes(s, e, b))
    && s'.bhs[b].scheduled == (MakesDue(s, e, b) || (s.bhs[b].scheduled && !Quiets(s, e, b)))
    && (s'.bhs[b].scheduled ==> s'.bhs[b].idle == if s.bhs[b].scheduled then s.bhs[b].idle else e == ScheduleIdle(b))
  }

  lemma CallBhs(s: State, e: Event, b: nat)
    requires b < |s.bhs| && e != Advance
    ensures FlagsAfter(s, e, Step(s, e), b)
  {
  }

  lemma StepBhs(s: State, e: Event, b: nat)
    requires b < |s.bhs|
    ensures FlagsAfter(s, e, Step(s, e), b)
  {
    if e != Advance { CallBhs(s, e, b); } else if Walking(s) { AdvanceBhs(s); }
  }

  /** A new one belongs to the context active afterwards, and is due only if a pop made it. */
  predicate MadeAfter(s: State, e: Event, s': State) {
    var b := |s.bhs|;
    && |s'.bhs| == b + (if Makes(s, e) then 1 else 0)
    && (Makes(s, e) ==>
          && s'.contexts != [] && !Quiets(s, e, b)
          && s'.bhs[b] == Bh(s'.contexts[Active(s')].serial, Leaves(s, e), false, false))
  }

  lemma LeaveMakes(s: State)
    requires Leaves(s, Advance)
    ensures MadeAfter(s, Advance, Step(s, Advance))
  {
  }

  lemma CallMakes(s: State, e: Event)
    requires e != Advance
    ensures MadeAfter(s, e, Step(s, e))
  {
  }

  lemma StepMakes(s: State, e: Event)
    ensures MadeAfter(s, e, Step(s, e))
  {
    if e != Advance {
      CallMakes(s, e);
    } else if Leaves(s, e) {
      LeaveMakes(s);
    } else if Walking(s) {
      AdvanceBhs(s);
    }
  }

  // ------------------------------------------------------------------ over a run

  function At(es: seq<Event>, k: nat): State
    requires k <= |es|
  {
    Run(START, es[..k])
  }

  ghost predicate DeletedAt(es: seq<Event>, k: nat, b: nat) { k < |es| && Deletes(At(es, k), es[k], b) }

  ghost predicate DueAt(es: seq<Event>, k: nat, b: nat) { k < |es| && MakesDue(At(es, k), es[k], b) }

  ghost predicate QuietAt(es: seq<Event>, k: nat, b: nat) { k < |es| && Quiets(At(es, k), es[k], b) }

  /** An idle scheduling of one that was not due. */
  ghost predicate IdleAt(es: seq<Event>, k: nat, b: nat) {
    k < |es| && es[k] == ScheduleIdle(b) && MakesDue(At(es, k), es[k], b) && !LastMadeDue(es[..k], b)
  }

  /** It was deleted at some moment. */
  ghost predicate WasDeleted(es: seq<Event>, b: nat) { exists k: nat :: DeletedAt(es, k, b) }

  /** Of all that made b due or no longer due, the last made it due. */
  ghost predicate LastMadeDue(es: seq<Event>, b: nat) {
    Last((k: nat) => DueAt(es, k, b), (k: nat) => QuietAt(es, k, b), |es|)
  }

  /** What made it due was an idle scheduling: later schedulings of one that is due already do not count. */
  ghost predicate MadeDueIdle(es: seq<Event>, b: nat) {
    Last((k: nat) => IdleAt(es, k, b), (k: nat) => QuietAt(es, k, b), |es|)
  }

  lemma AtInit(es: seq<Event>, n: nat, k: nat)
    requires k < n <= |es|
    ensures es[..n][..k] == es[..k] && es[..n][k] == es[k] && At(es[..n], k) == At(es, k)
  {
    assert es[..n][..k] == es[..k];
  }

  lemma DueStep(es: seq<Event>, b: nat)
    requires es != []
    ensures var n := |es| - 1;
            LastMadeDue(es, b) <==> DueAt(es, n, b) || (LastMadeDue(es[..n], b) && !QuietAt(es, n, b))
  {
    var n := |es| - 1;
    var init := es[..n];
    var p, q := (k: nat) => DueAt(es, k, b), (k: nat) => QuietAt(es, k, b);
    var p', q' := (k: nat) => DueAt(init, k, b), (k: nat) => QuietAt(init, k, b);
    forall k: nat | k < n ensures p(k) == p'(k) && q(k) == q'(k) { AtInit(es, n, k); }
    LastStep(p, q, n);
    LastSame(p, q, p', q', n);
  }

  lemma IdleStep(es: seq<Event>, b: nat)
    requires es != []
    ensures var n := |es| - 1;
            MadeDueIdle(es, b) <==> IdleAt(es, n, b) || (MadeDueIdle(es[..n], b) && !QuietAt(es, n, b))
  {
    var n := |es| - 1;
    var init := es[..n];
    var p, q := (k: nat) => IdleAt(es, k, b), (k: nat) => QuietAt(es, k, b);
    var p', q' := (k: nat) => IdleAt(init, k, b), (k: nat) => QuietAt(init, k, b);
    forall k: nat | k < n ensures p(k) == p'(k) && q(k) == q'(k) { AtInit(es, n, k); }
    LastStep(p, q, n);
    LastSame(p, q, p', q', n);
  }

  lemma DeletedStep(es: seq<Event>, b: nat)
    requires es != []
    ensures var n := |es| - 1; WasDeleted(es, b) <==> DeletedAt(es, n, b) || WasDeleted(es[..n], b)
  {
    var n := |es| - 1;
    forall k: nat | k < n ensures DeletedAt(es[..n], k, b) == DeletedAt(es, k, b) { AtInit(es, n, k); }
    if WasDeleted(es[..n], b) {
      var k: nat :| DeletedAt(es[..n], k, b);
      assert DeletedAt(es, k, b);
    }
    if WasDeleted(es, b) {
      var k: nat :| DeletedAt(es, k, b);
      assert k < n ==> DeletedAt(es[..n], k, b);
    }
  }

  /** Nothing happens to a bottom half before it is made. */
  lemma {:induction false} NotBefore(es: seq<Event>, b: nat)
    requires b >= |Run(START, es).bhs|
    ensures !WasDeleted(es, b) && !LastMadeDue(es, b) && !MadeDueIdle(es, b)
  {
    forall k: nat | k < |es| ensures !DeletedAt(es, k, b) && !DueAt(es, k, b) && !IdleAt(es, k, b) {
      NotThen(es, k, b);
    }
    NeverLast((k: nat) => DueAt(es, k, b), (k: nat) => QuietAt(es, k, b), |es|);
    NeverLast((k: nat) => IdleAt(es, k, b), (k: nat) => QuietAt(es, k, b), |es|);
  }

  lemma NotThen(es: seq<Event>, k: nat, b: nat)
    requires k < |es| && b >= |Run(START, es).bhs|
    ensures !DeletedAt(es, k, b) && !DueAt(es, k, b)
  {
    assert es[..|es|] == es;
    BhsGrow(es, k + 1, |es|);
    NextAt(es, k);
    RunKeeps(es[..k]);
    StepMakes(At(es, k), es[k]);
  }

  lemma NextAt(es: seq<Event>, k: nat)
    requires k < |es|
    ensures At(es, k + 1) == Step(At(es, k), es[k])
  {
    assert es[..k + 1][..k] == es[..k];
  }

  lemma StepGrows(s: State, e: Event, s': State)
    requires s' == Step(s, e)
    ensures |s'.bhs| >= |s.bhs|
  {
    StepMakes(s, e);
  }

  function HowMany(es: seq<Event>, k: nat): nat { if k <= |es| then |At(es, k).bhs| else 0 }

  lemma GrowsAt(es: seq<Event>, k: nat)
    requires k < |es|
    ensures HowMany(es, k) <= HowMany(es, k + 1)
  {
    NextAt(es, k);
    StepGrows(At(es, k), es[k], At(es, k + 1));
  }

  lemma BhsGrow(es: seq<Event>, k: nat, n: nat)
    requires k <= n <= |es|
    ensures |At(es, k).bhs| <= |At(es, n).bhs|
  {
    var f := (j: nat) => HowMany(es, j);
    forall j: nat | j < |es| ensures f(j) <= f(j + 1) { GrowsAt(es, j); }
    Growing(f, k, n, |es|);
    assert f(k) == |At(es, k).bhs| && f(n) == |At(es, n).bhs|;
  }

  /** The flags are as the history has them. */
  ghost predicate FlagsTold(es: seq<Event>, bhs: seq<Bh>, b: nat)
    requires b < |bhs|
  {
    && (bhs[b].deleted <==> WasDeleted(es, b))
    && (bhs[b].scheduled <==> LastMadeDue(es, b))
    && (bhs[b].scheduled ==> (bhs[b].idle <==> MadeDueIdle(es, b)))
  }

  /** In every run a bottom half is deleted if and only if it was deleted by a call, scheduled if and only
      if the last of the calls and walks that changed it made it due, and idle, while it is scheduled, if
      and only if an idle scheduling did. */
  lemma {:induction false} FlagsFromHistory(es: seq<Event>, b: nat)
    requires b < |Run(START, es).bhs|
    ensures FlagsTold(es, Run(START, es).bhs, b)
  {
    if es != [] {
      var n := |es| - 1;
      var s := Run(START, es[..n]);
      StepMakes(s, es[n]);
      if b < |s.bhs| {
        FlagsFromHistory(es[..n], b);
        StepBhs(s, es[n], b);
        FlagsOn(es, s, Run(START, es), b);
      } else {
        NotBefore(es[..n], b);
        FlagsNew(es, s, Run(START, es), b);
      }
    }
  }

  lemma HistoryStep(es: seq<Event>, b: nat)
    requires es != []
    ensures var n := |es| - 1;
            && (WasDeleted(es, b) <==> DeletedAt(es, n, b) || WasDeleted(es[..n], b))
            && (LastMadeDue(es, b) <==> DueAt(es, n, b) || (LastMadeDue(es[..n], b) && !QuietAt(es, n, b)))
            && (MadeDueIdle(es, b) <==> IdleAt(es, n, b) || (MadeDueIdle(es[..n], b) && !QuietAt(es, n, b)))
  {
    DeletedStep(es, b);
    DueStep(es, b);
    IdleStep(es, b);
  }

  lemma FlagsOn(es: seq<Event>, s: State, s': State, b: nat)
    requires es != [] && s == Run(START, es[..|es| - 1]) && FlagsAfter(s, es[|es| - 1], s', b)
    requires FlagsTold(es[..|es| - 1], s.bhs, b)
    ensures FlagsTold(es, s'.bhs, b)
  {
    HistoryStep(es, b);
  }

  lemma FlagsNew(es: seq<Event>, s: State, s': State, b: nat)
    requires es != [] && s == Run(START, es[..|es| - 1]) && MadeAfter(s, es[|es| - 1], s')
    requires Makes(s, es[|es| - 1]) && b == |s.bhs|
    requires var init := es[..|es| - 1]; !WasDeleted(init, b) && !LastMadeDue(init, b) && !MadeDueIdle(init, b)
    ensures FlagsTold(es, s'.bhs, b)
  {
    HistoryStep(es, b);
  }

  // ------------------------------------------------------------------ what a step does to lists and frames

  /** The walk on top is at its end and stays in its context. */
  predicate EndsHere(s: State, e: Event) {
    e == Advance && Walking(s) && s.frames[|s.frames| - 1].left == 0 && !Leaving(s)
  }

  /** Contexts come and go at the top of the stack only. */
  lemma StepContexts(s: State, e: Event)
    ensures var s' := Step(s, e);
            && |s'.contexts| == (if e == Advance && Leaving(s) then (if Active(s) > 0 then |s.contexts| - 1 else 0)
                                 else if e == Push && Enabled(s, e) then |s.contexts| + 1 else |s.contexts|)
            && (s'.aborted <==> s.aborted || (e == Advance && Leaving(s) && Active(s) == 0))
            && forall d :: 0 <= d < |s.contexts| && d < |s'.contexts| ==> s'.contexts[d].serial == s.contexts[d].serial
  {
    if e == Advance && Calls(s) { CallShape(s); }
  }

  /** A list gets a new bottom half in front, or loses the deleted ones at the end of a walk, or stays. */
  predicate ListAfter(s: State, e: Event, s': State, d: nat)
    requires d < |s.contexts| && d < |s'.contexts|
  {
    var list := s.contexts[d].bhs;
    s'.contexts[d].bhs == if Makes(s, e) && d == |s'.contexts| - 1 then [|s.bhs|] + list
                          else if EndsHere(s, e) && d == |s.contexts| - 1 then Undeleted(list, s.bhs) else list
  }

  lemma CallLists(s: State, e: Event, d: nat)
    requires e != Advance && d < |s.contexts| && d < |Step(s, e).contexts|
    ensures ListAfter(s, e, Step(s, e), d)
  {
  }

  lemma EndLists(s: State, d: nat)
    requires Walking(s) && s.frames[|s.frames| - 1].left == 0 && d < |s.contexts| && d < |EndWalk(s).contexts|
    ensures ListAfter(s, Advance, EndWalk(s), d)
  {
  }

  lemma WalkLists(s: State)
    requires Walking(s) && s.frames[|s.frames| - 1].left > 0
    ensures StepWalk(s).contexts == s.contexts
  {
    if Calls(s) { CallShape(s); }
  }

  lemma StepLists(s: State, e: Event, d: nat)
    requires d < |s.contexts| && d < |Step(s, e).contexts|
    ensures ListAfter(s, e, Step(s, e), d)
  {
    if e != Advance {
      CallLists(s, e, d);
    } else if Walking(s) {
      if s.frames[|s.frames| - 1].left == 0 { EndLists(s, d); } else { WalkLists(s); }
    }
  }

  /** The walk goes on as it is, in the same frame. */
  predicate SameOn(f: Frame, f': Frame) {
    f.Walk? && f'.Walk? && f'.depth == f.depth && f'.popping == f.popping
  }

  predicate Top(s: State, i: nat) { i == |s.frames| - 1 }

  /** How many bottom halves the walk in frame i has still to look at. */
  function ToGo(s: State, i: nat): nat
    requires i < |s.frames| && s.frames[i].Walk?
  {
    var f := s.frames[i];
    if Top(s, i) || f.left == 0 then f.left else f.left - 1
  }

  /** The walk in frame i is as far as it was. */
  predicate Kept(s: State, s': State, i: nat)
    requires i < |s.frames| && s.frames[i].Walk?
  {
    i < |s'.frames| && SameOn(s.frames[i], s'.frames[i]) && ToGo(s', i) == ToGo(s, i)
  }

  lemma CallFramesOn(s: State, i: nat)
    requires Walking(s) && s.frames[|s.frames| - 1].left > 0 && i < |s.frames| && s.frames[i].Walk?
    ensures var s' := StepWalk(s);
            && i < |s'.frames| && SameOn(s.frames[i], s'.frames[i])
            && s'.frames[i].left == s.frames[i].left - (if Calls(s) || i < |s.frames| - 1 then 0 else 1)
            && |s'.frames| == |s.frames| + (if Calls(s) then 1 else 0)
  {
    if Calls(s) { CallShape(s); } else { SkipShape(s); }
  }

  lemma EndFrames(s: State, i: nat)
    requires Walking(s) && s.frames[|s.frames| - 1].left == 0 && i < |s.frames| && s.frames[i].Walk?
    ensures var s', n, f := StepWalk(s), |s.frames| - 1, s.frames[|s.frames| - 1];
            && |s'.frames| == n + (if f.popping && f.ret then 1 else 0)
            && (i < n ==> SameOn(s.frames[i], s'.frames[i]) && s'.frames[i].left == s.frames[i].left)
            && (f.popping && f.ret ==> SameOn(f, s'.frames[n]))
  {
  }

  lemma UserFrames(s: State, e: Event, i: nat)
    requires UserTurn(s) && Enabled(s, e) && e != Return && i < |s.frames| && s.frames[i].Walk?
    ensures var s' := Step(s, e);
            |s'.frames| >= |s.frames| && SameOn(s.frames[i], s'.frames[i]) && s'.frames[i].left == s.frames[i].left
  {
  }

  lemma ReturnFramesOn(s: State, i: nat)
    requires Enabled(s, Return) && i < |s.frames| && s.frames[i].Walk?
    ensures var s', n := ReturnTo(s), |s.frames| - 2;
            && |s'.frames| == n + 1 && i <= n && SameOn(s.frames[i], s'.frames[i])
            && s'.frames[i].left == s.frames[i].left - (if i == n then 1 else 0)
  {
  }

  lemma AdvanceKept(s: State, i: nat)
    requires Inv(s) && Walking(s) && i < |s.frames| - 1 && s.frames[i].Walk?
    ensures Kept(s, StepWalk(s), i)
  {
    var n := |s.frames| - 1;
    assert i % 2 == 0 && n % 2 == 0;
    if s.frames[n].left == 0 { EndFrames(s, i); } else { CallFramesOn(s, i); }
  }

  /** No step but the walk's own moves it. */
  lemma StepKept(s: State, e: Event, i: nat)
    requires Inv(s) && !s.aborted && i < |s.frames| && s.frames[i].Walk?
    requires !(e == Advance && Walking(s) && Top(s, i))
    ensures Kept(s, Step(s, e), i)
  {
    assert i % 2 == 0;
    if Enabled(s, e) {
      if e == Advance {
        AdvanceKept(s, i);
      } else if e == Return {
        ReturnFramesOn(s, i);
      } else {
        UserFrames(s, e, i);
      }
    }
  }

  /** Its own step takes it to the next bottom half; at the end it is over, or a pop walks again. */
  lemma StepMoves(s: State)
    requires Inv(s) && Walking(s)
    ensures var s', n := StepWalk(s), |s.frames| - 1;
            var f := s.frames[n];
            if f.left > 0 then n < |s'.frames| && SameOn(f, s'.frames[n]) && ToGo(s', n) == ToGo(s, n) - 1
            else if f.popping && f.ret then |s'.frames| == n + 1 && SameOn(f, s'.frames[n])
            else |s'.frames| == n
  {
    var n := |s.frames| - 1;
    if s.frames[n].left == 0 { EndFrames(s, n); } else { CallFramesOn(s, n); }
  }

  // ------------------------------------------------------------------ what a walk calls

  function Suffix(list: seq<nat>, n: nat): seq<nat> { if n <= |list| then list[|list| - n..] else list }

  /** The walk in frame i has b still in front of it, and b is due. */
  predicate Awaits(s: State, i: nat, b: nat) {
    && !s.aborted && i < |s.frames| && s.frames[i].Walk? && s.frames[i].depth < |s.contexts|
    && b in Suffix(s.contexts[s.frames[i].depth].bhs, ToGo(s, i))
    && b < |s.bhs| && Runnable(s.bhs[b])
  }

  lemma SuffixKept(list: seq<nat>, b: nat, n: nat)
    requires n <= |list|
    ensures Suffix([b] + list, n) == Suffix(list, n)
  {
  }

  lemma SuffixNext(list: seq<nat>, n: nat, b: nat)
    requires 0 < n <= |list| && b in Suffix(list, n) && b != list[|list| - n]
    ensures b in Suffix(list, n - 1)
  {
    assert Suffix(list, n) == [list[|list| - n]] + Suffix(list, n - 1);
  }

  lemma ToGoFits(s: State, i: nat)
    requires Inv(s) && !s.aborted && i < |s.frames| && s.frames[i].Walk?
    ensures s.frames[i].depth < |s.contexts| && ToGo(s, i) <= |s.contexts[s.frames[i].depth].bhs|
    ensures s.frames[i].depth < |s.contexts| - 1 || !Walking(s) || Top(s, i)
  {
    assert WalkOk(s, i);
    if Walking(s) && !Top(s, i) { assert WalkOk(s, |s.frames| - 1); }
  }

  /** Only the walk that has it in front can call it. */
  lemma OnlyItsWalk(s: State, i: nat, b: nat)
    requires Inv(s) && Awaits(s, i, b) && Calls(s) && Current(s) == b
    ensures Top(s, i)
  {
    var d, top := s.frames[i].depth, |s.contexts| - 1;
    ToGoFits(s, i);
    assert ContextOk(s, d) && ContextOk(s, top);
    assert b in s.contexts[d].bhs && b in s.contexts[top].bhs;
  }

  /** A walk that does not have to end goes on in its list. */
  lemma ListOn(s: State, e: Event, i: nat)
    requires Inv(s) && !s.aborted && i < |s.frames| && s.frames[i].Walk? && ToGo(s, i) > 0
    ensures var s', d, n := Step(s, e), s.frames[i].depth, ToGo(s, i);
            && !s'.aborted && d < |s.contexts| && d < |s'.contexts|
            && Suffix(s'.contexts[d].bhs, n) == Suffix(s.contexts[d].bhs, n)
            && n <= |s'.contexts[d].bhs|
  {
    var d, n := s.frames[i].depth, ToGo(s, i);
    ToGoFits(s, i);
    NotOver(s, e, i);
    StepContexts(s, e);
    StepLists(s, e, d);
    SuffixKept(s.contexts[d].bhs, |s.bhs|, n);
  }

  lemma NotOver(s: State, e: Event, i: nat)
    requires Inv(s) && !s.aborted && i < |s.frames| && s.frames[i].Walk? && ToGo(s, i) > 0
    ensures var d := s.frames[i].depth;
            && !(EndsHere(s, e) && d == |s.contexts| - 1)
            && (e == Advance && Leaving(s) ==> d < |s.contexts| - 1)
  {
    ToGoFits(s, i);
  }

  lemma AwaitsFlags(s: State, e: Event, b: nat)
    requires b < |s.bhs| && Runnable(s.bhs[b]) && !Quiets(s, e, b)
    ensures b < |Step(s, e).bhs| && Runnable(Step(s, e).bhs[b])
  {
    StepBhs(s, e, b);
  }

  lemma AwaitsOther(s: State, e: Event, i: nat, b: nat)
    requires Inv(s) && Awaits(s, i, b) && !(e == Advance && Walking(s) && Top(s, i)) && !Quiets(s, e, b)
    ensures Awaits(Step(s, e), i, b)
  {
    ListOn(s, e, i);
    StepKept(s, e, i);
    AwaitsFlags(s, e, b);
  }

  lemma AwaitsOwn(s: State, i: nat, b: nat)
    requires Inv(s) && Awaits(s, i, b) && Walking(s) && Top(s, i) && !CallsIt(s, Advance, b)
    ensures Awaits(Step(s, Advance), i, b)
  {
    OwnList(s, i, b);
    OwnFrame(s, i);
    AwaitsFlags(s, Advance, b);
    AwaitsIf(Step(s, Advance), i, b, s.frames[i].depth, ToGo(s, i) - 1);
  }

  lemma OwnFrame(s: State, i: nat)
    requires Inv(s) && Walking(s) && Top(s, i) && ToGo(s, i) > 0
    ensures var s' := Step(s, Advance);
            i < |s'.frames| && SameOn(s.frames[i], s'.frames[i]) && ToGo(s', i) == ToGo(s, i) - 1
  {
    StepMoves(s);
  }

  lemma AwaitsIf(s: State, i: nat, b: nat, d: nat, n: nat)
    requires !s.aborted && i < |s.frames| && s.frames[i].Walk? && s.frames[i].depth == d < |s.contexts|
    requires ToGo(s, i) == n && b in Suffix(s.contexts[d].bhs, n) && b < |s.bhs| && Runnable(s.bhs[b])
    ensures Awaits(s, i, b)
  {
  }

  lemma OwnList(s: State, i: nat, b: nat)
    requires Inv(s) && Awaits(s, i, b) && Walking(s) && Top(s, i) && !CallsIt(s, Advance, b)
    ensures var s', d := Step(s, Advance), s.frames[i].depth;
            && ToGo(s, i) > 0 && !s'.aborted && d < |s'.contexts| && b in Suffix(s'.contexts[d].bhs, ToGo(s, i) - 1)
  {
    var d := s.frames[i].depth;
    NotCurrent(s, i, b);
    ListOn(s, Advance, i);
    InShorter(s.contexts[d].bhs, Step(s, Advance).contexts[d].bhs, ToGo(s, i), b);
  }

  lemma NotCurrent(s: State, i: nat, b: nat)
    requires Inv(s) && Awaits(s, i, b) && Walking(s) && Top(s, i) && !CallsIt(s, Advance, b)
    ensures var list := s.contexts[s.frames[i].depth].bhs;
            0 < ToGo(s, i) <= |list| && list[|list| - ToGo(s, i)] != b
  {
    ToGoFits(s, i);
  }

  lemma InShorter(list: seq<nat>, list': seq<nat>, n: nat, b: nat)
    requires 0 < n <= |list| && n <= |list'| && Suffix(list, n) == Suffix(list', n)
    requires b in Suffix(list, n) && b != list[|list| - n]
    ensures b in Suffix(list', n - 1)
  {
    SuffixNext(list, n, b);
    SuffixShorter(list, list', n);
  }

  lemma SuffixShorter(list: seq<nat>, list': seq<nat>, n: nat)
    requires 0 < n <= |list| && n <= |list'| && Suffix(list, n) == Suffix(list', n)
    ensures Suffix(list, n - 1) == Suffix(list', n - 1)
  {
    assert Suffix(list, n - 1) == Suffix(list, n)[1..];
    assert Suffix(list', n - 1) == Suffix(list', n)[1..];
  }

  lemma {:induction false} RunInv(s: State, es: seq<Event>)
    requires Inv(s)
    ensures Inv(Run(s, es))
  {
    if es != [] {
      RunInv(s, es[..|es| - 1]);
      StepKeeps(Run(s, es[..|es| - 1]), es[|es| - 1]);
    }
  }

  ghost predicate QuietsAt(s: State, es: seq<Event>, k: nat, b: nat) {
    k < |es| && Quiets(Run(s, es[..k]), es[k], b)
  }

  ghost predicate QuietedIn(s: State, es: seq<Event>, b: nat) { exists k: nat :: QuietsAt(s, es, k, b) }

  lemma QuietsBefore(s: State, es: seq<Event>, n: nat, b: nat)
    requires n <= |es|
    ensures forall k: nat :: k < n ==> QuietsAt(s, es[..n], k, b) == QuietsAt(s, es, k, b)
  {
    forall k: nat | k < n ensures QuietsAt(s, es[..n], k, b) == QuietsAt(s, es, k, b) {
      assert es[..n][..k] == es[..k];
    }
  }

  /** As long as nothing makes it no longer due, the walk keeps it in front. */
  lemma {:induction false} KeepsAwaiting(s: State, es: seq<Event>, i: nat, b: nat)
    requires Inv(s) && Awaits(s, i, b) && !QuietedIn(s, es, b)
    ensures Awaits(Run(s, es), i, b)
  {
    if es != [] {
      var n := |es| - 1;
      QuietsBefore(s, es, n, b);
      KeepsAwaiting(s, es[..n], i, b);
      RunInv(s, es[..n]);
      assert !QuietsAt(s, es, n, b);
      AwaitsStep(Run(s, es[..n]), es[n], i, b);
    }
  }

  lemma AwaitsStep(s: State, e: Event, i: nat, b: nat)
    requires Inv(s) && Awaits(s, i, b) && !Quiets(s, e, b)
    ensures Awaits(Step(s, e), i, b)
  {
    if e == Advance && Walking(s) && Top(s, i) { AwaitsOwn(s, i, b); } else { AwaitsOther(s, e, i, b); }
  }

  /** The walk in frame i calls b. */
  predicate CalledBy(s: State, e: Event, i: nat, b: nat) { CallsIt(s, e, b) && Top(s, i) }

  lemma StartAwaits(s: State, e: Event, b: nat)
    requires e in {Poll, Pop} && Enabled(s, e) && b in s.contexts[Active(s)].bhs && b < |s.bhs| && Runnable(s.bhs[b])
    ensures Awaits(Step(s, e), |s.frames|, b)
  {
  }

  /** A bottom half that is due when a poll or a pop starts is called by its walk before that is over, unless it is
      cancelled or deleted first. */
  lemma DueIsCalled(es0: seq<Event>, e: Event, es: seq<Event>, b: nat) returns (k: nat)
    requires var s := Run(START, es0);
             && e in {Poll, Pop} && Enabled(s, e) && b in s.contexts[Active(s)].bhs && b < |s.bhs| && Runnable(s.bhs[b])
             && |Run(Step(s, e), es).frames| <= |s.frames|
    ensures k < |es| && !QuietedIn(Step(Run(START, es0), e), es[..k], b)
    ensures var m := Run(Step(Run(START, es0), e), es[..k]);
            CalledBy(m, es[k], |Run(START, es0).frames|, b) || Cancels(m, es[k], b) || Deletes(m, es[k], b)
  {
    var s := Run(START, es0);
    RunKeeps(es0);
    StepKeeps(s, e);
    StartAwaits(s, e, b);
    k := FirstQuieted(Step(s, e), es, |s.frames|, b);
  }

  lemma FirstQuieted(s: State, es: seq<Event>, i: nat, b: nat) returns (k: nat)
    requires Inv(s) && Awaits(s, i, b) && !Awaits(Run(s, es), i, b)
    ensures k < |es| && !QuietedIn(s, es[..k], b)
    ensures var m := Run(s, es[..k]); CalledBy(m, es[k], i, b) || Cancels(m, es[k], b) || Deletes(m, es[k], b)
  {
    if !QuietedIn(s, es, b) { KeepsAwaiting(s, es, i, b); }
    k := FirstIn(s, es, b);
    KeepsAwaiting(s, es[..k], i, b);
    RunInv(s, es[..k]);
    QuietedHow(Run(s, es[..k]), es[k], i, b);
  }

  lemma QuietedHow(s: State, e: Event, i: nat, b: nat)
    requires Inv(s) && Awaits(s, i, b) && Quiets(s, e, b)
    ensures CalledBy(s, e, i, b) || Cancels(s, e, b) || Deletes(s, e, b)
  {
    if CallsIt(s, e, b) { OnlyItsWalk(s, i, b); }
  }

  lemma FirstIn(s: State, es: seq<Event>, b: nat) returns (k: nat)
    requires QuietedIn(s, es, b)
    ensures QuietsAt(s, es, k, b) && !QuietedIn(s, es[..k], b)
  {
    var p := (j: nat) => QuietsAt(s, es, j, b);
    var j: nat :| QuietsAt(s, es, j, b);
    assert p(j);
    k := FirstMoment(p, |es|);
    QuietsBefore(s, es, k, b);
    forall j: nat | j < k ensures !QuietsAt(s, es, j, b) { assert !p(j); }
  }

  // ------------------------------------------------------------------ what the lists hold

  predicate NewestFirst(list: seq<nat>) { forall i, j :: 0 <= i < j < |list| ==> list[i] > list[j] }

  /** No bottom half made in context d is missing from its list unless it is deleted. */
  predicate Complete(s: State, d: nat)
    requires d < |s.contexts|
  {
    forall b :: 0 <= b < |s.bhs| && s.bhs[b].home == s.contexts[d].serial && !s.bhs[b].deleted ==>
      b in s.contexts[d].bhs
  }

  predicate ListOk(s: State, d: nat)
    requires d < |s.contexts|
  {
    NewestFirst(s.contexts[d].bhs) && Complete(s, d)
  }

  predicate ListsOk(s: State) {
    && (forall b :: 0 <= b < |s.bhs| ==> s.bhs[b].home < s.serials)
    && (forall d :: 0 <= d < |s.contexts| ==> ListOk(s, d))
  }

  lemma {:induction false} UndeletedOrder(list: seq<nat>, bhs: seq<Bh>)
    requires NewestFirst(list)
    ensures NewestFirst(Undeleted(list, bhs))
    decreases |list|
  {
    if list != [] {
      var tail := list[1..];
      var rest := Undeleted(tail, bhs);
      UndeletedOrder(tail, bhs);
      forall j | 0 <= j < |rest| ensures rest[j] < list[0] {
        assert rest[j] in tail;
        var k :| 0 <= k < |tail| && tail[k] == rest[j];
        assert list[k + 1] == rest[j];
      }
      assert NewestFirst([list[0]] + rest);
    }
  }

  lemma SerialsGrow(s: State, e: Event)
    ensures Step(s, e).serials == s.serials + if e == Push && Enabled(s, e) then 1 else 0
  {
    if e == Advance && Calls(s) { CallShape(s); }
  }

  lemma HomesStep(s: State, e: Event)
    requires Inv(s) && ListsOk(s)
    ensures var s' := Step(s, e); forall b :: 0 <= b < |s'.bhs| ==> s'.bhs[b].home < s'.serials
  {
    var s' := Step(s, e);
    StepMakes(s, e);
    SerialsGrow(s, e);
    StepKeeps(s, e);
    forall b | 0 <= b < |s'.bhs| ensures s'.bhs[b].home < s'.serials {
      if b < |s.bhs| { StepBhs(s, e, b); } else { assert ContextOk(s', |s'.contexts| - 1); }
    }
  }

  lemma OrderStep(s: State, e: Event, d: nat)
    requires Inv(s) && ListsOk(s) && d < |s.contexts| && d < |Step(s, e).contexts|
    ensures NewestFirst(Step(s, e).contexts[d].bhs)
  {
    StepLists(s, e, d);
    assert ListOk(s, d) && ContextOk(s, d);
    OrderAfter(s.contexts[d].bhs, s.bhs, Step(s, e).contexts[d].bhs);
  }

  lemma OrderAfter(list: seq<nat>, bhs: seq<Bh>, list': seq<nat>)
    requires NewestFirst(list) && forall j :: 0 <= j < |list| ==> list[j] < |bhs|
    requires list' == list || list' == [|bhs|] + list || list' == Undeleted(list, bhs)
    ensures NewestFirst(list')
  {
    UndeletedOrder(list, bhs);
  }

  /** A bottom half of context d after a step: an old one stays in the list while it is not deleted, */
  lemma OldStays(s: State, e: Event, d: nat, b: nat)
    requires ListsOk(s) && d < |s.contexts| && d < |Step(s, e).contexts| && b < |s.bhs|
    requires s.bhs[b].home == s.contexts[d].serial && !s.bhs[b].deleted
    ensures b in Step(s, e).contexts[d].bhs
  {
    StepLists(s, e, d);
    assert ListOk(s, d);
  }

  /** and a new one is put into the list of the active context. */
  lemma NewListed(s: State, e: Event, d: nat)
    requires Inv(s) && Makes(s, e) && d < |s.contexts| && d < |Step(s, e).contexts|
    requires var s' := Step(s, e); |s.bhs| < |s'.bhs| && s'.bhs[|s.bhs|].home == s'.contexts[d].serial
    ensures |s.bhs| in Step(s, e).contexts[d].bhs
  {
    var s' := Step(s, e);
    StepMakes(s, e);
    StepKeeps(s, e);
    var top := |s'.contexts| - 1;
    assert d == top;
    StepLists(s, e, d);
  }

  lemma CompleteStep(s: State, e: Event, d: nat, b: nat)
    requires Inv(s) && ListsOk(s) && d < |s.contexts| && d < |Step(s, e).contexts| && b < |Step(s, e).bhs|
    requires var s' := Step(s, e); s'.bhs[b].home == s'.contexts[d].serial && !s'.bhs[b].deleted
    ensures b in Step(s, e).contexts[d].bhs
  {
    StepContexts(s, e);
    if b < |s.bhs| {
      StepBhs(s, e, b);
      OldStays(s, e, d, b);
    } else {
      StepMakes(s, e);
      NewListed(s, e, d);
    }
  }

  /** The list of a context just entered. */
  lemma PushedList(s: State)
    requires Inv(s) && ListsOk(s) && Enabled(s, Push)
    ensures ListOk(Step(s, Push), |s.contexts|)
  {
  }

  lemma ListsStep(s: State, e: Event)
    requires Inv(s) && ListsOk(s)
    ensures ListsOk(Step(s, e))
  {
    var s' := Step(s, e);
    HomesStep(s, e);
    StepContexts(s, e);
    forall d | 0 <= d < |s'.contexts| ensures ListOk(s', d) {
      if d < |s.contexts| {
        OrderStep(s, e, d);
        forall b | 0 <= b < |s'.bhs| && s'.bhs[b].home == s'.contexts[d].serial && !s'.bhs[b].deleted
          ensures b in s'.contexts[d].bhs
        {
          CompleteStep(s, e, d, b);
        }
      } else {
        PushedList(s);
      }
    }
  }

  /** In every run the list of a context holds every undeleted bottom half made in it, newest first. */
  lemma {:induction false} ListsTold(es: seq<Event>)
    ensures ListsOk(Run(START, es))
  {
    if es != [] {
      ListsTold(es[..|es| - 1]);
      RunKeeps(es[..|es| - 1]);
      ListsStep(Run(START, es[..|es| - 1]), es[|es| - 1]);
    }
  }

  /** At the end of a walk the deleted ones go: the list then holds exactly the undeleted ones made in the context. */
  lemma WalkEndFrees(es: seq<Event>, b: nat)
    requires var s := Run(START, es); EndsHere(s, Advance) && b < |s.bhs|
    ensures var s, s' := Run(START, es), Run(START, es + [Advance]);
            && Active(s') == Active(s) >= 0 && |s'.bhs| == |s.bhs|
            && (b in s'.contexts[Active(s)].bhs
                <==> s.bhs[b].home == s.contexts[Active(s)].serial && !s.bhs[b].deleted)
  {
    assert (es + [Advance])[..|es|] == es;
    RunKeeps(es);
    ListsTold(es);
    var s := Run(START, es);
    var s' := EndShape(s);
    EndFrees(s, s', b);
  }

  lemma EndShape(s: State) returns (s': State)
    requires EndsHere(s, Advance)
    ensures s' == Step(s, Advance) && s'.bhs == s.bhs && |s'.contexts| == |s.contexts|
    ensures var d := |s.contexts| - 1; s'.contexts[d].bhs == Undeleted(s.contexts[d].bhs, s.bhs)
  {
    s' := Step(s, Advance);
    StepContexts(s, Advance);
    StepLists(s, Advance, |s.contexts| - 1);
    AdvanceBhs(s);
  }

  lemma EndFrees(s: State, s': State, b: nat)
    requires Inv(s) && ListsOk(s) && s.contexts != [] && b < |s.bhs|
    requires s'.bhs == s.bhs && |s'.contexts| == |s.contexts|
    requires var d := |s.contexts| - 1; s'.contexts[d].bhs == Undeleted(s.contexts[d].bhs, s.bhs)
    ensures b in s'.contexts[Active(s)].bhs <==> s.bhs[b].home == s.contexts[Active(s)].serial && !s.bhs[b].deleted
  {
    var d := |s.contexts| - 1;
    assert ContextOk(s, d) && ListOk(s, d);
    TrimmedHas(s, d, b);
  }

  lemma TrimmedHas(s: State, d: nat, b: nat)
    requires d < |s.contexts| && ContextOk(s, d) && Complete(s, d) && b < |s.bhs|
    ensures b in Undeleted(s.contexts[d].bhs, s.bhs) <==> s.bhs[b].home == s.contexts[d].serial && !s.bhs[b].deleted
  {
  }

  // ------------------------------------------------------------------ polls and pops come back

  /** The walk started in frame n is not over, and the contexts up to its own are those it found. */
  ghost predicate Under(s0: State, s: State, n: nat, popping: bool) {
    && !s.aborted && |s.frames| > n && s.frames[n].Walk?
    && s.frames[n].depth == Active(s0) && s.frames[n].popping == popping
    && SameStack(s0, s, |s0.contexts|)
  }

  /** The first n contexts are the same ones. */
  predicate SameStack(s0: State, s: State, n: nat) {
    n <= |s0.contexts| && n <= |s.contexts| && forall d :: 0 <= d < n ==> s.contexts[d].serial == s0.contexts[d].serial
  }

  /** A walk is over: a poll has left the stack of contexts as it was, a pop has left one context, or has aborted
      in the last. */
  ghost predicate Back(s0: State, s: State, n: nat, popping: bool) {
    if popping && Active(s0) == 0 then s.aborted
    else !s.aborted && |s.frames| == n && |s.contexts| == |s0.contexts| - (if popping then 1 else 0)
         && SameStack(s0, s, |s.contexts|)
  }

  predicate Over(s: State, n: nat) { s.aborted || |s.frames| <= n }

  lemma UnderOther(s0: State, s: State, e: Event, n: nat, popping: bool)
    requires Inv(s) && s0.contexts != [] && Under(s0, s, n, popping) && !(e == Advance && Walking(s) && Top(s, n))
    ensures Under(s0, Step(s, e), n, popping)
  {
    StepKept(s, e, n);
    StackOther(s0, s, e, n, popping);
  }

  lemma StackOther(s0: State, s: State, e: Event, n: nat, popping: bool)
    requires Inv(s) && s0.contexts != [] && Under(s0, s, n, popping) && !(e == Advance && Walking(s) && Top(s, n))
    ensures !Step(s, e).aborted && SameStack(s0, Step(s, e), |s0.contexts|)
  {
    StepContexts(s, e);
    assert WalkOk(s, n);
    if e == Advance && Walking(s) { assert WalkOk(s, |s.frames| - 1); }
  }

  lemma UnderOwn(s0: State, s: State, n: nat, popping: bool)
    requires Inv(s) && s0.contexts != [] && Under(s0, s, n, popping) && Walking(s) && Top(s, n)
    ensures var s' := Step(s, Advance); if Over(s', n) then Back(s0, s', n, popping) else Under(s0, s', n, popping)
  {
    StepMoves(s);
    StepContexts(s, Advance);
    assert WalkOk(s, n);
  }

  /** However a poll or a pop goes on, the first time its walk is over a poll is back in the context it started in,
      and a pop in the parent of that context; a pop of the last context aborts. */
  lemma {:induction false} ComesBack(es0: seq<Event>, e: Event, es: seq<Event>)
    requires e in {Poll, Pop} && Enabled(Run(START, es0), e)
    requires var s := Run(START, es0);
             forall k: nat {:trigger es[..k]} :: k < |es| ==> !Over(Run(Step(s, e), es[..k]), |s.frames|)
    ensures var s := Run(START, es0);
            var s', n := Run(Step(s, e), es), |s.frames|;
            if Over(s', n) then Back(s, s', n, e == Pop) else Under(s, s', n, e == Pop)
  {
    var s := Run(START, es0);
    RunKeeps(es0);
    StepKeeps(s, e);
    if es != [] {
      var init := es[..|es| - 1];
      forall k: nat | k < |init| ensures init[..k] == es[..k] {}
      ComesBack(es0, e, init);
      RunInv(Step(s, e), init);
      UnderStep(s, Run(Step(s, e), init), es[|es| - 1], |s.frames|, e == Pop);
    }
  }

  lemma UnderStep(s0: State, s: State, e: Event, n: nat, popping: bool)
    requires Inv(s) && s0.contexts != [] && Under(s0, s, n, popping)
    ensures var s' := Step(s, e); if Over(s', n) then Back(s0, s', n, popping) else Under(s0, s', n, popping)
  {
    if e == Advance && Walking(s) && Top(s, n) {
      UnderOwn(s0, s, n, popping);
    } else {
      UnderOther(s0, s, e, n, popping);
    }
  }

  // ------------------------------------------------------------------ what a poll returns

  /** The walk in frame n runs one that is not idle. */
  predicate RunsBusy(s: State, e: Event, n: nat) {
    e == Advance && Calls(s) && Top(s, n) && !s.bhs[Current(s)].idle
  }

  lemma OwnRet(s: State)
    requires Walking(s) && s.frames[|s.frames| - 1].left > 0
    ensures var s', n := StepWalk(s), |s.frames| - 1;
            && n < |s'.frames| && s'.frames[n].Walk?
            && s'.frames[n].ret == (s.frames[n].ret || RunsBusy(s, Advance, n))
  {
    if Calls(s) { CallShape(s); } else { SkipShape(s); }
  }

  lemma LowerRet(s: State, i: nat)
    requires Walking(s) && i < |s.frames| - 1 && s.frames[i].Walk? && i < |StepWalk(s).frames|
    ensures var s' := StepWalk(s); s'.frames[i].Walk? && s'.frames[i].ret == s.frames[i].ret
  {
    if Calls(s) { CallShape(s); }
  }

  lemma OtherRet(s: State, e: Event, i: nat)
    requires Enabled(s, e) && e != Advance && i < |s.frames| && s.frames[i].Walk? && i < |Step(s, e).frames|
    ensures var s' := Step(s, e); s'.frames[i].Walk? && s'.frames[i].ret == s.frames[i].ret
  {
  }

  lemma RetStep(s0: State, s: State, e: Event, n: nat)
    requires Inv(s) && s0.contexts != [] && Under(s0, s, n, false) && Under(s0, Step(s, e), n, false)
    ensures Step(s, e).frames[n].ret == (s.frames[n].ret || RunsBusy(s, e, n))
  {
    if Enabled(s, e) {
      if e != Advance {
        OtherRet(s, e, n);
      } else if Top(s, n) {
        StepMoves(s);
        OwnRet(s);
      } else {
        LowerRet(s, n);
      }
    }
  }

  ghost predicate RanBusy(s: State, es: seq<Event>, n: nat) {
    exists k: nat :: BusyAt(s, es, k, n)
  }

  ghost predicate BusyAt(s: State, es: seq<Event>, k: nat, n: nat) {
    k < |es| && RunsBusy(Run(s, es[..k]), es[k], n)
  }

  lemma BusyStep(s: State, es: seq<Event>, n: nat)
    requires es != []
    ensures var m := |es| - 1;
            RanBusy(s, es, n) <==> RanBusy(s, es[..m], n) || RunsBusy(Run(s, es[..m]), es[m], n)
  {
    var m := |es| - 1;
    forall k: nat | k < m ensures BusyAt(s, es[..m], k, n) == BusyAt(s, es, k, n) { assert es[..m][..k] == es[..k]; }
    if RanBusy(s, es[..m], n) {
      var k: nat :| BusyAt(s, es[..m], k, n);
      assert BusyAt(s, es, k, n);
    }
    if RunsBusy(Run(s, es[..m]), es[m], n) { assert BusyAt(s, es, m, n); }
    if RanBusy(s, es, n) {
      var k: nat :| BusyAt(s, es, k, n);
      assert k < m ==> BusyAt(s, es[..m], k, n);
    }
  }

  /** The result a poll is about to return says whether its walk has run one that was not idle. */
  lemma {:induction false} PollReports(es0: seq<Event>, es: seq<Event>)
    requires Enabled(Run(START, es0), Poll)
    requires var s := Run(START, es0);
             forall k: nat {:trigger es[..k]} :: k <= |es| ==> !Over(Run(Step(s, Poll), es[..k]), |s.frames|)
    ensures var s := Run(START, es0);
            var s', n := Run(Step(s, Poll), es), |s.frames|;
            |s'.frames| > n && s'.frames[n].Walk? && (s'.frames[n].ret <==> RanBusy(Step(s, Poll), es, n))
  {
    var s, n := Run(START, es0), |Run(START, es0).frames|;
    assert es[..|es|] == es;
    ComesBack(es0, Poll, es);
    if es != [] {
      var m := |es| - 1;
      forall k: nat | k <= m ensures es[..m][..k] == es[..k] {}
      PollReports(es0, es[..m]);
      ComesBack(es0, Poll, es[..m]);
      RunKeeps(es0);
      StepKeeps(s, Poll);
      RunInv(Step(s, Poll), es[..m]);
      RetStep(s, Run(Step(s, Poll), es[..m]), es[m], n);
      BusyStep(Step(s, Poll), es, n);
    }
  }
}
