/**
 Completion of a merged group of writes: one control block counts the writes still
 running and tells every original caller once the group is over, or as soon as one
 of the writes fails.
 */
module MultiwriteCompletion {
  import opened Errno

  /** One call of an original request's callback: which, with what code, and how many
      writes of the group were still running. */
  datatype Call = Call(index: nat, code: int, running: int)

  datatype Group = Group(error: int, running: int, callers: nat, calls: seq<Call>, freed: nat)

  /** Every caller is called once with the code. */
  function Round(n: nat, code: int, running: int): seq<Call> {
    if n == 0 then [] else Round(n - 1, code, running) + [Call(n - 1, code, running)]
  }

  /** multiwrite_cb on values. */
  function Completed(g: Group, ret: int): Group {
    var g1 := if ret < 0 then g.(error := ret, calls := g.calls + Round(g.callers, ret, g.running)) else g;
    var g2 := g1.(running := g1.running - 1);
    if g2.running == 0
    then g2.(calls := if g2.error == 0 then g2.calls + Round(g2.callers, 0, 0) else g2.calls, freed := g2.freed + 1)
    else g2
  }

  function CompletedAll(g: Group, rets: seq<int>): Group {
    if rets == [] then g else Completed(CompletedAll(g, rets[..|rets| - 1]), rets[|rets| - 1])
  }

  /** The loop of bdrv_aio_multiwrite over the merged requests, given which of them the
      driver accepts: it stops at the first refusal. */
  function Accepted(accepts: seq<bool>): (n: nat)
    ensures n <= |accepts| && (n < |accepts| ==> !accepts[n])
    ensures forall i :: 0 <= i < n ==> accepts[i]
  {
    if accepts == [] || !accepts[0] then 0 else 1 + Accepted(accepts[1..])
  }

  class ControlBlock {
    var error: int
    var numRequests: int
    const numCallbacks: nat
    ghost var calls: seq<Call>
    ghost var freed: nat

    ghost function View(): Group
      reads this
    {
      Group(error, numRequests, numCallbacks, calls, freed)
    }

    constructor (n: nat)
      ensures View() == Group(0, 0, n, [], 0)
    {
      error, numRequests, numCallbacks := 0, 0, n;
      calls, freed := [], 0;
    }

    /** multiwrite_user_cb. */
    method UserCallbacks()
      modifies this`calls
      ensures calls == old(calls) + Round(numCallbacks, error, numRequests)
    {
      var i := 0;
      while i < numCallbacks
        invariant i <= numCallbacks && calls == old(calls) + Round(i, error, numRequests)
      {
        calls := calls + [Call(i, error, numRequests)];
        i := i + 1;
      }
    }

    /** multiwrite_cb; the block must still be there. */
    method Complete(ret: int)
      requires numRequests > 0 && freed == 0
      modifies this
      ensures View() == Completed(old(View()), ret)
    {
      if ret < 0 {
        error := ret;
        UserCallbacks();
      }
      numRequests := numRequests - 1;
      if numRequests == 0 {
        if error == 0 { UserCallbacks(); }
        freed := freed + 1;
      }
    }

    /** The submission loop of bdrv_aio_multiwrite; `errors` are the error fields of the requests. */
    method Submit(accepts: seq<bool>, errors: array<int>) returns (r: int)
      requires error == 0 && numRequests == 0 && freed == 0 && calls == [] && errors.Length == |accepts|
      modifies this, errors
      ensures forall k :: 0 <= k < errors.Length ==> errors[k] == if r < 0 && k == 0 then EIO else old(errors[k])
      ensures var k := Accepted(accepts);
              && calls == [] && numRequests == k
              && (k == |accepts| ==> r == 0 && error == 0 && freed == 0)
              && (0 < k < |accepts| ==> r == 0 && error == EIO && freed == 0)
              && (0 == k < |accepts| ==> r == -1 && freed == 1)
    {
      var i := 0;
      while i < |accepts|
        invariant 0 <= i <= |accepts| && numRequests == i
        invariant Accepted(accepts) == i + Accepted(accepts[i..])
        invariant error == 0 && freed == 0 && calls == [] && errors[..] == old(errors[..])
      {
        assert accepts[i..][1..] == accepts[i + 1..];
        if !accepts[i] {
          if numRequests == 0 {
            errors[i] := EIO;
            freed := 1;
            return -1;
          }
          error := EIO;
          return 0;
        }
        numRequests := numRequests + 1;
        i := i + 1;
      }
      return 0;
    }
  }

  // ------------------------------------------------------------------ how often, with what

  function Failures(rets: seq<int>): nat {
    if rets == [] then 0 else Failures(rets[..|rets| - 1]) + if rets[|rets| - 1] < 0 then 1 else 0
  }

  function CallsOf(calls: seq<Call>, i: nat): nat {
    if calls == [] then 0 else CallsOf(calls[..|calls| - 1], i) + if calls[|calls| - 1].index == i then 1 else 0
  }

  lemma {:induction false} CallsOfAppend(a: seq<Call>, b: seq<Call>, i: nat)
    ensures CallsOf(a + b, i) == CallsOf(a, i) + CallsOf(b, i)
  {
    if b == [] {
      assert a + b == a;
    } else {
      assert (a + b)[..|a + b| - 1] == a + b[..|b| - 1];
      CallsOfAppend(a, b[..|b| - 1], i);
    }
  }

  lemma {:induction false} CallsOfRound(n: nat, code: int, running: int, i: nat)
    ensures CallsOf(Round(n, code, running), i) == if i < n then 1 else 0
  {
    if n > 0 {
      CallsOfRound(n - 1, code, running, i);
      assert Round(n, code, running)[..|Round(n, code, running)| - 1] == Round(n - 1, code, running);
    }
  }

  /** While some writes are still running: one round per failure so far. */
  lemma {:induction false} PartWay(g: Group, rets: seq<int>, i: nat)
    requires i < g.callers && g.calls == [] && g.freed == 0 && |rets| < g.running
    ensures var r := CompletedAll(g, rets);
            && r.callers == g.callers && r.running == g.running - |rets| && r.freed == 0
            && CallsOf(r.calls, i) == Failures(rets)
            && (r.error == 0 <==> Failures(rets) == 0 && g.error == 0)
  {
    if rets != [] {
      var before := rets[..|rets| - 1];
      PartWay(g, before, i);
      var b := CompletedAll(g, before);
      var ret := rets[|rets| - 1];
      CallsOfAppend(b.calls, Round(b.callers, ret, b.running), i);
      CallsOfRound(b.callers, ret, b.running, i);
    }
  }

  /** After the last completion, in whatever order they came: the block has been freed
      exactly once, and every caller has been called once per failed write, or once at
      the end if no write failed and none was refused. */
  lemma AllDone(g: Group, rets: seq<int>, i: nat)
    requires i < g.callers && g.calls == [] && g.freed == 0 && |rets| == g.running > 0
    ensures var r := CompletedAll(g, rets);
            && r.freed == 1 && r.running == 0
            && CallsOf(r.calls, i) == Failures(rets) + (if Failures(rets) == 0 && g.error == 0 then 1 else 0)
  {
    var before := rets[..|rets| - 1];
    PartWay(g, before, i);
    var b := CompletedAll(g, before);
    var ret := rets[|rets| - 1];
    var calls1 := if ret < 0 then b.calls + Round(b.callers, ret, b.running) else b.calls;
    CallsOfAppend(b.calls, Round(b.callers, ret, b.running), i);
    CallsOfRound(b.callers, ret, b.running, i);
    CallsOfAppend(calls1, Round(b.callers, 0, 0), i);
    CallsOfRound(b.callers, 0, 0, i);
  }

  /** The exact condition for "each callback runs exactly once": one write failed, or none
      did and every write was accepted. With two failures, or a refusal and no failure,
      callers are called twice or never. */
  lemma ExactlyOnceIff(accepted: nat, refused: bool, n: nat, rets: seq<int>)
    requires accepted > 0 && n > 0 && |rets| == accepted
    ensures var g := Group(if refused then EIO else 0, accepted, n, [], 0);
            (forall i: nat :: i < n ==> CallsOf(CompletedAll(g, rets).calls, i) == 1)
            <==> Failures(rets) == 1 || (Failures(rets) == 0 && !refused)
  {
    var g := Group(if refused then EIO else 0, accepted, n, [], 0);
    forall i: nat | i < n
      ensures CallsOf(CompletedAll(g, rets).calls, i)
              == Failures(rets) + (if Failures(rets) == 0 && !refused then 1 else 0)
    {
      AllDone(g, rets, i);
    }
    assert CallsOf(CompletedAll(g, rets).calls, 0)
        == Failures(rets) + (if Failures(rets) == 0 && !refused then 1 else 0);
  }

  /** Two writes that both fail: the only caller is called twice. */
  lemma TwoFailures()
    ensures CallsOf(CompletedAll(Group(0, 2, 1, [], 0), [-EIO, -EIO]).calls, 0) == 2
  {
    var rets := [-EIO, -EIO];
    assert rets[..1] == [-EIO] && [-EIO][..0] == [];
    assert Failures([-EIO]) == 1;
    AllDone(Group(0, 2, 1, [], 0), rets, 0);
  }

  /** One write accepted and done, the next refused: the caller is never called. */
  lemma RefusedNeverTold()
    ensures CallsOf(CompletedAll(Group(EIO, 1, 1, [], 0), [0]).calls, 0) == 0
  {
    assert [0][..0] == [];
    assert Failures([0]) == 0;
    AllDone(Group(EIO, 1, 1, [], 0), [0], 0);
  }

  /** The k-th completion failed and this call tells so. */
  predicate Tells(g: Group, call: Call, rets: seq<int>, k: nat) {
    k < |rets| && rets[k] == call.code < 0 && call.running == g.running - k
  }

  /** A caller is told success only after every write of the group has completed, none has failed
      and none was refused; any other call is made during the completion of a write that has failed, with
      its code. */
  ghost predicate CallHonest(g: Group, call: Call, rets: seq<int>) {
    if call.code == 0
    then g.error == 0 && 0 < g.running <= |rets| && Failures(rets[..g.running]) == 0 && call.running == 0
    else exists k: nat :: Tells(g, call, rets, k)
  }

  ghost predicate CallsHonest(g: Group, calls: seq<Call>, rets: seq<int>) {
    forall c :: 0 <= c < |calls| ==> CallHonest(g, calls[c], rets)
  }

  lemma {:induction false} RoundCodes(n: nat, code: int, running: int)
    ensures forall k :: 0 <= k < |Round(n, code, running)| ==>
              Round(n, code, running)[k].code == code && Round(n, code, running)[k].running == running
    ensures forall i: nat :: i < n ==> Call(i, code, running) in Round(n, code, running)
  {
    if n > 0 { RoundCodes(n - 1, code, running); }
  }

  lemma {:induction false} ErrorTracks(g: Group, rets: seq<int>)
    ensures var r := CompletedAll(g, rets);
            && r.running == g.running - |rets| && r.callers == g.callers
            && (r.error == 0 <==> g.error == 0 && Failures(rets) == 0)
  {
    if rets != [] { ErrorTracks(g, rets[..|rets| - 1]); }
  }

  lemma {:induction false} CodesHonest(g: Group, rets: seq<int>)
    requires g.calls == []
    ensures CallsHonest(g, CompletedAll(g, rets).calls, rets)
  {
    if rets != [] {
      var before, ret := rets[..|rets| - 1], rets[|rets| - 1];
      CodesHonest(g, before);
      ErrorTracks(g, before);
      ErrorTracks(g, rets);
      var b := CompletedAll(g, before);
      HonestLater(g, b.calls, before, ret, rets);
      if ret < 0 { HonestRound(g, b.callers, b.running, rets); }
      if b.running == 1 { RoundCodes(b.callers, 0, 0); }
      assert rets[..|rets|] == rets;
    }
  }

  lemma HonestRound(g: Group, n: nat, running: int, rets: seq<int>)
    requires rets != [] && rets[|rets| - 1] < 0 && running == g.running - (|rets| - 1)
    ensures CallsHonest(g, Round(n, rets[|rets| - 1], running), rets)
  {
    var last := |rets| - 1;
    var round := Round(n, rets[last], running);
    RoundCodes(n, rets[last], running);
    forall c | 0 <= c < |round| ensures CallHonest(g, round[c], rets) { assert Tells(g, round[c], rets, last); }
  }

  lemma HonestLater(g: Group, calls: seq<Call>, before: seq<int>, ret: int, rets: seq<int>)
    requires CallsHonest(g, calls, before) && rets == before + [ret]
    ensures CallsHonest(g, calls, rets)
  {
    forall c | 0 <= c < |calls| ensures CallHonest(g, calls[c], rets) {
      assert CallHonest(g, calls[c], before);
      if calls[c].code == 0 {
        assert rets[..g.running] == before[..g.running];
      } else {
        var k: nat :| Tells(g, calls[c], before, k);
        assert Tells(g, calls[c], rets, k);
      }
    }
  }

  /** Every failure is told to every caller, with its code, while it is being completed. */
  lemma {:induction false} FailureTold(g: Group, rets: seq<int>, k: nat, i: nat)
    requires k < |rets| && rets[k] < 0 && i < g.callers
    ensures Call(i, rets[k], g.running - k) in CompletedAll(g, rets).calls
  {
    var n := |rets| - 1;
    var before := rets[..n];
    var b := CompletedAll(g, before);
    ErrorTracks(g, before);
    if k < n {
      FailureTold(g, before, k, i);
    } else {
      RoundCodes(b.callers, rets[n], b.running);
    }
  }
}
