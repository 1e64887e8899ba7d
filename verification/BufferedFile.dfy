/**
 The rate-limited output stream a migration writes to. The backend may take all of
 what it is offered, part of it, nothing for now, or fail; its answers are an
 arbitrary sequence, so what is proved holds whatever the backend does.
 */
module BufferedStream {
  import opened Disk
  import opened Errno

  /** The backend's answer to its n-th call. */
  type Backend = nat -> int

  datatype File = File(
    hasError: bool,
    frozen: bool,
    xfer: nat,
    limit: nat,
    buffer: seq<byte>,
    sent: seq<byte>,   // everything the backend has taken
    calls: nat)        // how often it has been asked

  /** It never takes more than it is offered. */
  function Answer(b: Backend, calls: nat, offered: nat): (r: int)
    ensures r <= offered
  {
    if b(calls) > offered then offered else b(calls)
  }

  // ------------------------------------------------------------------ the operations on values

  /** The backend is offered the bytes of data from `from` on and takes a first part of them. */
  function Offer(b: Backend, s: File, data: seq<byte>, from: nat): (r: (File, int))
    requires from <= |data|
    ensures from + r.1 <= |data| && r.0.buffer == s.buffer
  {
    var n := Answer(b, s.calls, |data| - from);
    (s.(calls := s.calls + 1, sent := if n > 0 then s.sent + data[from..from + n] else s.sent), n)
  }

  /** The flush loop from `offset` on, and the offset where it stops. */
  function FlushFrom(b: Backend, s: File, offset: nat): (r: (File, nat))
    requires offset <= |s.buffer|
    ensures offset <= r.1 <= |s.buffer| && r.0.buffer == s.buffer
    decreases |s.buffer| - offset
  {
    if offset == |s.buffer| then (s, offset)
    else
      var (s1, n) := Offer(b, s, s.buffer, offset);
      if n == -EAGAIN then (s1.(frozen := true), offset)
      else if n <= 0 then (s1.(hasError := true), offset)
      else FlushFrom(b, s1, offset + n)
  }

  function Flush(b: Backend, s: File): File {
    if s.hasError then s
    else var (s1, offset) := FlushFrom(b, s, 0); s1.(buffer := s1.buffer[offset..])
  }

  /** The loop that hands bytes straight to the backend; EINVAL if that failed. */
  function PutFrom(b: Backend, s: File, buf: seq<byte>, offset: nat): (r: (File, int))
    requires offset <= |buf|
    ensures r.1 == -EINVAL || offset <= r.1 <= |buf|
    ensures r.0.buffer == s.buffer
    decreases |buf| - offset
  {
    if s.frozen || offset == |buf| || s.xfer > s.limit then (s, offset)
    else
      var (s1, n) := Offer(b, s, buf, offset);
      if n == -EAGAIN then (s1.(frozen := true), offset)
      else if n <= 0 then (s1.(hasError := true), -EINVAL)
      else PutFrom(b, s1.(xfer := s.xfer + n), buf, offset + n)
  }

  function Put(b: Backend, s: File, buf: seq<byte>): (File, int) {
    if s.hasError then (s, -EINVAL)
    else
      var (s1, offset) := PutFrom(b, Flush(b, s.(frozen := false)), buf, 0);
      if offset == -EINVAL then (s1, -EINVAL) else (s1.(buffer := s1.buffer + buf[offset..]), |buf|)
  }

  function Tick(b: Backend, s: File): File {
    if s.hasError || s.frozen then s else Flush(b, s.(xfer := 0))
  }

  function SetLimit(s: File, rate: nat): File {
    if s.hasError then s else s.(limit := rate / 10)
  }

  predicate Limited(s: File) {
    !s.hasError && (s.frozen || s.xfer > s.limit)
  }

  // ------------------------------------------------------------------ closing

  datatype End = Finished | NotReady | Failed

  /** How offering `left` bytes again and again ends within n offers: a matter of the backend's
      answers alone. */
  function Drain(b: Backend, calls: nat, left: nat, n: nat): End
    decreases n
  {
    if left == 0 then Finished
    else if n == 0 then NotReady
    else
      var a := Answer(b, calls, left);
      if a == -EAGAIN then Drain(b, calls + 1, left, n - 1)
      else if a <= 0 then Failed
      else Drain(b, calls + 1, left - a, n - 1)
  }

  /** Closing s is over after n offers. */
  predicate Settled(b: Backend, s: File, n: nat) {
    s.hasError || Drain(b, s.calls, |s.buffer|, n) != NotReady
  }

  /** From its k-th call on the backend no longer says "not now". */
  ghost predicate ReadyFrom(b: Backend, k: nat) {
    forall n :: n >= k ==> b(n) != -EAGAIN
  }

  /** Then every closing is over some time. */
  lemma {:induction false} ReadySettles(b: Backend, calls: nat, left: nat, k: nat, n: nat)
    requires ReadyFrom(b, k) && n >= left + if calls < k then k - calls else 0
    ensures Drain(b, calls, left, n) != NotReady
    decreases n
  {
    if left > 0 {
      var a := Answer(b, calls, left);
      if a == -EAGAIN {
        ReadySettles(b, calls + 1, left, k, n - 1);
      } else if a > 0 {
        ReadySettles(b, calls + 1, left - a, k, n - 1);
      }
    }
  }

  /** What is left of the draining after a part of it. */
  predicate Drained(b: Backend, s: File, s1: File, left: nat, left1: nat, n: nat) {
    var end := Drain(b, s.calls, left, n);
    && s1.calls >= s.calls && (left > 0 ==> s1.calls > s.calls)
    && (s1.calls > s.calls + n ==> end == NotReady)
    && (s1.calls <= s.calls + n ==>
          end == if s1.hasError then Failed else Drain(b, s1.calls, left1, n - (s1.calls - s.calls)))
  }

  lemma DrainedOne(b: Backend, s: File, s1: File, s2: File, left: nat, a: nat, left2: nat, n: nat)
    requires 0 < a <= left && a == Answer(b, s.calls, left) && s1.calls == s.calls + 1
    requires Drained(b, s1, s2, left - a, left2, if n == 0 then 0 else n - 1)
    ensures Drained(b, s, s2, left, left2, n)
  {
  }

  lemma DrainedStop(b: Backend, s: File, offset: nat, n: nat)
    requires offset <= |s.buffer| && !s.hasError && FlushStops(b, s, offset)
    ensures var (s1, o) := FlushFrom(b, s, offset); Drained(b, s, s1, |s.buffer| - offset, |s.buffer| - o, n)
  {
  }

  /** A flush is the first part of the draining. */
  lemma {:induction false} FlushDrains(b: Backend, s: File, offset: nat, n: nat)
    requires offset <= |s.buffer| && !s.hasError
    ensures var (s1, o) := FlushFrom(b, s, offset); Drained(b, s, s1, |s.buffer| - offset, |s.buffer| - o, n)
    decreases |s.buffer| - offset
  {
    if FlushStops(b, s, offset) {
      DrainedStop(b, s, offset, n);
    } else {
      var (s1, a) := Offer(b, s, s.buffer, offset);
      FlushDrains(b, s1, offset + a, if n == 0 then 0 else n - 1);
      FlushNext(b, s, offset);
      var (s2, o) := FlushFrom(b, s1, offset + a);
      DrainedOne(b, s, s1, s2, |s.buffer| - offset, a, |s.buffer| - o, n);
    }
  }

  /** The closing loop: flush until nothing is left or something failed. */
  function CloseFrom(b: Backend, s: File, n: nat): (r: File)
    requires Settled(b, s, n)
    ensures r.hasError || r.buffer == []
    decreases n
  {
    if s.hasError || s.buffer == [] then s
    else
      FlushDrains(b, s, 0, n);
      var s1 := Flush(b, s);
      if s1.hasError then s1 else CloseFrom(b, s1, n - (s1.calls - s.calls))
  }

  lemma CloseTurn(b: Backend, s: File, n: nat) returns (m: nat)
    requires Settled(b, s, n) && !s.hasError && s.buffer != []
    ensures var s1 := Flush(b, s);
            Settled(b, s1, m) && CloseFrom(b, s, n) == CloseFrom(b, s1, m) && (s1.hasError || m < n)
  {
    var s1 := Flush(b, s);
    m := FlushLeaves(b, s, s1, n);
    assert CloseFrom(b, s, n) == if s1.hasError then s1 else CloseFrom(b, s1, n - (s1.calls - s.calls));
  }

  lemma FlushLeaves(b: Backend, s: File, s1: File, n: nat) returns (m: nat)
    requires Settled(b, s, n) && !s.hasError && s.buffer != [] && s1 == Flush(b, s)
    ensures Settled(b, s1, m)
    ensures if s1.hasError then m == 0 else s.calls < s1.calls <= s.calls + n && m == n - (s1.calls - s.calls)
  {
    FlushDrains(b, s, 0, n);
    m := if s1.hasError then 0 else n - (s1.calls - s.calls);
  }

  // ------------------------------------------------------------------ conservation

  /** s' has sent and buffered what s had, and then `more`. */
  predicate Carries(s: File, s': File, more: seq<byte>) {
    !s'.hasError ==> !s.hasError && s'.sent + s'.buffer == s.sent + s.buffer + more
  }

  lemma SliceJoin(a: seq<byte>, c: seq<byte>, i: nat, j: nat, k: nat)
    requires i <= j <= k <= |c|
    ensures a + c[i..j] + c[j..k] == a + c[i..k]
  {
  }

  lemma SplitSum(a: seq<byte>, c: seq<byte>, o: nat)
    requires o <= |c|
    ensures a + c[0..o] + c[o..] == a + c == a + c + []
  {
  }

  predicate Flushed(s: File, s1: File, offset: nat, o: nat) {
    && offset <= o <= |s.buffer|
    && s1.sent == s.sent + s.buffer[offset..o]
    && (s.hasError ==> s1.hasError)
    && (!s1.hasError && !s1.frozen ==> o == |s.buffer|)
  }

  lemma FlushedJoin(b: Backend, s: File, s2: File, offset: nat, o: nat)
    requires offset < |s.buffer|
    requires var (s1, n) := Offer(b, s, s.buffer, offset); n > 0 && Flushed(s1, s2, offset + n, o)
    ensures Flushed(s, s2, offset, o)
  {
    var (s1, n) := Offer(b, s, s.buffer, offset);
    SliceJoin(s.sent, s.buffer, offset, offset + n, o);
  }

  lemma FlushedStop(b: Backend, s: File, offset: nat)
    requires offset <= |s.buffer| && FlushStops(b, s, offset)
    ensures var (s1, o) := FlushFrom(b, s, offset); Flushed(s, s1, offset, o)
  {
    assert s.sent + s.buffer[offset..offset] == s.sent;
  }

  /** Whatever holds where the flush stops, and before an offer if it holds after, holds of it. */
  lemma {:induction false} FlushInduct(b: Backend, p: (File, nat, File, nat) -> bool, s: File, offset: nat)
    requires offset <= |s.buffer|
    requires forall x: File, o: nat {:trigger FlushStops(b, x, o)} :: o <= |x.buffer| && FlushStops(b, x, o) ==>
               p(x, o, FlushFrom(b, x, o).0, FlushFrom(b, x, o).1)
    requires forall x: File, o: nat, y, e: nat {:trigger FlushStops(b, x, o), p(x, o, y, e)} ::
               && o <= |x.buffer| && !FlushStops(b, x, o)
               && p(Offer(b, x, x.buffer, o).0, o + Offer(b, x, x.buffer, o).1, y, e)
               ==> p(x, o, y, e)
    ensures var (s1, o) := FlushFrom(b, s, offset); p(s, offset, s1, o)
    decreases |s.buffer| - offset
  {
    if !FlushStops(b, s, offset) {
      var (s1, n) := Offer(b, s, s.buffer, offset);
      FlushInduct(b, p, s1, offset + n);
      FlushNext(b, s, offset);
    }
  }

  predicate FlushStops(b: Backend, s: File, offset: nat)
    requires offset <= |s.buffer|
  {
    offset == |s.buffer| || Offer(b, s, s.buffer, offset).1 <= 0
  }

  lemma FlushNext(b: Backend, s: File, offset: nat)
    requires offset <= |s.buffer| && !FlushStops(b, s, offset)
    ensures var (s1, n) := Offer(b, s, s.buffer, offset); FlushFrom(b, s, offset) == FlushFrom(b, s1, offset + n)
  {
  }

  lemma FlushFromSends(b: Backend, s: File, offset: nat)
    requires offset <= |s.buffer|
    ensures var (s1, o) := FlushFrom(b, s, offset); Flushed(s, s1, offset, o)
  {
    var p := (x, o: nat, y, e: nat) => Flushed(x, y, o, e);
    forall x: File, o: nat | o <= |x.buffer| && FlushStops(b, x, o)
      ensures p(x, o, FlushFrom(b, x, o).0, FlushFrom(b, x, o).1)
    {
      FlushedStop(b, x, o);
    }
    forall x: File, o: nat, y, e: nat
      | o <= |x.buffer| && !FlushStops(b, x, o)
        && p(Offer(b, x, x.buffer, o).0, o + Offer(b, x, x.buffer, o).1, y, e)
      ensures p(x, o, y, e)
    {
      FlushedJoin(b, x, y, o, e);
    }
    FlushInduct(b, p, s, offset);
  }

  /** A flush moves bytes from the buffer to the backend, in order; if it neither froze
      nor failed the buffer is empty. */
  lemma FlushCarries(b: Backend, s: File)
    ensures Carries(s, Flush(b, s), [])
    ensures var s' := Flush(b, s); !s'.hasError && !s'.frozen ==> s'.buffer == []
  {
    if !s.hasError {
      FlushFromSends(b, s, 0);
      var (s1, o) := FlushFrom(b, s, 0);
      SplitSum(s.sent, s.buffer, o);
    }
  }

  /** What handing over bytes from `offset` on leaves: sent up to o, or an error. */
  predicate HandedOn(s: File, s1: File, buf: seq<byte>, offset: nat, o: int)
    requires offset <= |buf|
  {
    if o == -EINVAL then s1.hasError
    else offset <= o <= |buf| && s1.sent == s.sent + buf[offset..o] && s1.hasError == s.hasError
  }

  lemma HandedJoin(b: Backend, s: File, s2: File, buf: seq<byte>, offset: nat, o: int)
    requires offset <= |buf| && !Stops(b, s, buf, offset)
    requires var (s1, next) := Taken(b, s, buf, offset); HandedOn(s1, s2, buf, next, o)
    ensures HandedOn(s, s2, buf, offset, o)
  {
    var n := Offer(b, s, buf, offset).1;
    if o != -EINVAL { SliceJoin(s.sent, buf, offset, offset + n, o); }
  }

  lemma HandedStop(b: Backend, s: File, buf: seq<byte>, offset: nat)
    requires offset <= |buf|
    requires Stops(b, s, buf, offset)
    ensures var (s1, o) := PutFrom(b, s, buf, offset); HandedOn(s, s1, buf, offset, o)
  {
    assert s.sent + buf[offset..offset] == s.sent;
  }

  predicate Stops(b: Backend, s: File, buf: seq<byte>, offset: nat)
    requires offset <= |buf|
  {
    s.frozen || offset == |buf| || s.xfer > s.limit || Offer(b, s, buf, offset).1 <= 0
  }

  /** One offer that was taken, and where the loop goes on. */
  function Taken(b: Backend, s: File, buf: seq<byte>, offset: nat): (r: (File, nat))
    requires offset <= |buf| && !Stops(b, s, buf, offset)
    ensures offset < r.1 <= |buf|
  {
    var (s1, n) := Offer(b, s, buf, offset);
    (s1.(xfer := s.xfer + n), offset + n)
  }

  lemma PutNext(b: Backend, s: File, buf: seq<byte>, offset: nat)
    requires offset <= |buf| && !Stops(b, s, buf, offset)
    ensures var (s1, o) := Taken(b, s, buf, offset); PutFrom(b, s, buf, offset) == PutFrom(b, s1, buf, o)
  {
  }

  /** Whatever holds where the loop stops, and before an offer if it holds after, holds of the loop. */
  lemma {:induction false} PutInduct(b: Backend, buf: seq<byte>, p: (File, nat, File, int) -> bool, s: File,
                                     offset: nat)
    requires offset <= |buf|
    requires forall x, o: nat {:trigger Stops(b, x, buf, o)} :: o <= |buf| && Stops(b, x, buf, o) ==>
               p(x, o, PutFrom(b, x, buf, o).0, PutFrom(b, x, buf, o).1)
    requires forall x, o: nat, y, e {:trigger Stops(b, x, buf, o), p(x, o, y, e)} ::
               && o <= |buf| && !Stops(b, x, buf, o)
               && p(Taken(b, x, buf, o).0, Taken(b, x, buf, o).1, y, e)
               ==> p(x, o, y, e)
    ensures var (s1, o) := PutFrom(b, s, buf, offset); p(s, offset, s1, o)
    decreases |buf| - offset
  {
    if !Stops(b, s, buf, offset) {
      var (s1, o) := Taken(b, s, buf, offset);
      PutInduct(b, buf, p, s1, o);
      PutNext(b, s, buf, offset);
    }
  }

  lemma PutFromSends(b: Backend, s: File, buf: seq<byte>, offset: nat)
    requires offset <= |buf|
    ensures var (s1, o) := PutFrom(b, s, buf, offset); HandedOn(s, s1, buf, offset, o)
    ensures s.frozen ==> PutFrom(b, s, buf, offset) == (s, offset)
  {
    var p := (x, o: nat, y, e) => o <= |buf| && HandedOn(x, y, buf, o, e);
    forall x, o: nat | o <= |buf| && Stops(b, x, buf, o)
      ensures p(x, o, PutFrom(b, x, buf, o).0, PutFrom(b, x, buf, o).1)
    {
      HandedStop(b, x, buf, o);
    }
    forall x, o: nat, y, e
      | o <= |buf| && !Stops(b, x, buf, o) && p(Taken(b, x, buf, o).0, Taken(b, x, buf, o).1, y, e)
      ensures p(x, o, y, e)
    {
      HandedJoin(b, x, y, buf, o, e);
    }
    PutInduct(b, buf, p, s, offset);
  }

  /** Bytes handed on behind an empty buffer, or kept behind a buffer while frozen, stay in order. */
  lemma PutInOrder(b: Backend, s1: File, buf: seq<byte>)
    requires !s1.hasError && (s1.frozen || s1.buffer == [])
    ensures var (s2, o) := PutFrom(b, s1, buf, 0);
            o != -EINVAL ==> !s2.hasError && s2.sent + (s2.buffer + buf[o..]) == s1.sent + s1.buffer + buf
    ensures var (s2, o) := PutFrom(b, s1, buf, 0); o == -EINVAL ==> s2.hasError
  {
    PutFromSends(b, s1, buf, 0);
    var (s2, o) := PutFrom(b, s1, buf, 0);
    if o != -EINVAL {
      if s1.frozen {
        assert buf[0..] == buf;
      } else {
        SplitSum(s1.sent, buf, o);
        assert s2.buffer + buf[o..] == buf[o..];
        assert s1.sent + s1.buffer == s1.sent;
      }
    }
  }

  /** A put keeps the order: straight to the backend only behind an empty buffer. */
  lemma PutCarries(b: Backend, s: File, buf: seq<byte>)
    ensures var (s', r) := Put(b, s, buf); Carries(s, s', buf) && (!s'.hasError ==> r == |buf|)
  {
    if !s.hasError {
      var s0 := s.(frozen := false);
      var s1 := Flush(b, s0);
      FlushCarries(b, s0);
      if s1.hasError {
        PutFromSends(b, s1, buf, 0);
      } else {
        PutInOrder(b, s1, buf);
        assert s.sent + s.buffer + [] == s.sent + s.buffer;
      }
    }
  }

  // ------------------------------------------------------------------ every run

  datatype Event = PutBytes(buf: seq<byte>) | RateTick | RateLimit(rate: nat)

  function Step(b: Backend, s: File, e: Event): File {
    match e
    case PutBytes(buf) => Put(b, s, buf).0
    case RateTick => Tick(b, s)
    case RateLimit(rate) => SetLimit(s, rate)
  }

  function Run(b: Backend, s: File, es: seq<Event>): File {
    if es == [] then s else Step(b, Run(b, s, es[..|es| - 1]), es[|es| - 1])
  }

  /** All bytes handed to the stream, in order. */
  function Handed(es: seq<Event>): seq<byte> {
    if es == [] then []
    else Handed(es[..|es| - 1]) + match es[|es| - 1] { case PutBytes(buf) => buf case _ => [] }
  }

  /** Whatever the backend answers, while there is no error the bytes delivered followed by
      the bytes buffered are all bytes accepted. */
  lemma {:induction false} RunConserves(b: Backend, s: File, es: seq<Event>)
    ensures Carries(s, Run(b, s, es), Handed(es))
  {
    if es == [] {
      assert s.sent + s.buffer + [] == s.sent + s.buffer;
    } else {
      var init, e := es[..|es| - 1], es[|es| - 1];
      RunConserves(b, s, init);
      var s1 := Run(b, s, init);
      match e
      case PutBytes(buf) =>
        PutCarries(b, s1, buf);
        assert (s.sent + s.buffer + Handed(init)) + buf == s.sent + s.buffer + (Handed(init) + buf);
      case RateTick =>
        FlushCarries(b, s1.(xfer := 0));
        assert Handed(es) == Handed(init) + [] == Handed(init);
        assert s1.sent + s1.buffer + [] == s1.sent + s1.buffer;
      case RateLimit(_) =>
        assert Handed(es) == Handed(init) + [] == Handed(init);
    }
  }

  /** After an error nothing more reaches the backend. */
  lemma {:induction false} ErrorStops(b: Backend, s: File, es: seq<Event>)
    requires s.hasError
    ensures Run(b, s, es) == s
  {
    if es != [] { ErrorStops(b, s, es[..|es| - 1]); }
  }

  lemma CarriesOn(s: File, s1: File, s': File)
    requires Carries(s, s1, []) && Carries(s1, s', [])
    ensures Carries(s, s', [])
  {
    assert s.sent + s.buffer + [] == s.sent + s.buffer && s1.sent + s1.buffer + [] == s1.sent + s1.buffer;
  }

  lemma {:induction false} CloseCarries(b: Backend, s: File, n: nat)
    requires Settled(b, s, n)
    ensures Carries(s, CloseFrom(b, s, n), [])
    decreases !s.hasError, n
  {
    if s.hasError || s.buffer == [] {
      assert s.sent + s.buffer + [] == s.sent + s.buffer;
    } else {
      var m := CloseTurn(b, s, n);
      FlushCarries(b, s);
      CloseCarries(b, Flush(b, s), m);
      CarriesOn(s, Flush(b, s), CloseFrom(b, s, n));
    }
  }

  lemma FailsShort(b: Backend, s: File, offset: nat)
    requires offset <= |s.buffer| && !s.hasError
    ensures var (s1, o) := FlushFrom(b, s, offset); s1.hasError ==> o < |s.buffer|
  {
    FlushInduct(b, (x: File, o, y: File, e) => !x.hasError && y.hasError ==> e < |x.buffer|, s, offset);
  }

  /** Closing ends with an error, and with bytes the backend has not taken, if and only if the
      backend's answers to the buffered bytes come to a failure; the result of closing does
      not depend on that. */
  lemma {:induction false} CloseFailsIff(b: Backend, s: File, n: nat)
    requires !s.hasError && Settled(b, s, n)
    ensures var s' := CloseFrom(b, s, n);
            (s'.hasError <==> Drain(b, s.calls, |s.buffer|, n) == Failed) && (s'.hasError <==> s'.buffer != [])
    decreases n
  {
    if s.buffer != [] {
      FlushDrains(b, s, 0, n);
      FailsShort(b, s, 0);
      var s1 := Flush(b, s);
      if !s1.hasError { CloseFailsIff(b, s1, n - (s1.calls - s.calls)); }
    }
  }

  /** A byte that is lost on closing. */
  lemma CloseLoses(b: Backend)
    requires b(0) == -5
    ensures var s := FRESH.(buffer := [1]);
            Settled(b, s, 1) && CloseFrom(b, s, 1).hasError && CloseFrom(b, s, 1).sent == []
  {
    var s := FRESH.(buffer := [1]);
    assert Drain(b, 0, 1, 1) == Failed;
    CloseFailsIff(b, s, 1);
    assert FlushFrom(b, s, 0) == (s.(calls := 1, hasError := true), 0);
  }

  const FRESH := File(false, false, 0, 0, [], [], 0)

  /** Closing without an error means the backend has taken every byte ever handed in. */
  lemma CloseDelivers(b: Backend, limit: nat, es: seq<Event>, n: nat)
    requires Settled(b, Run(b, FRESH.(limit := limit), es), n)
    ensures var s := CloseFrom(b, Run(b, FRESH.(limit := limit), es), n); !s.hasError ==> s.sent == Handed(es)
  {
    var s0 := FRESH.(limit := limit);
    var s1 := Run(b, s0, es);
    RunConserves(b, s0, es);
    CloseCarries(b, s1, n);
    var s := CloseFrom(b, s1, n);
    if !s.hasError {
      calc {
        s.sent;
        { assert s.buffer == []; }
        s.sent + s.buffer;
        s1.sent + s1.buffer + [];
        s1.sent + s1.buffer;
        s0.sent + s0.buffer + Handed(es);
        Handed(es);
      }
    }
  }

  // ------------------------------------------------------------------ a put whose flush fails

  /** How offering `left` bytes until they are taken ends, and after how many calls in all:
      a matter of the backend's answers alone. */
  function Offering(b: Backend, calls: nat, left: nat): (End, nat)
    decreases left
  {
    if left == 0 then (Finished, calls)
    else
      var n := Answer(b, calls, left);
      if n == -EAGAIN then (NotReady, calls + 1)
      else if n <= 0 then (Failed, calls + 1)
      else Offering(b, calls + 1, left - n)
  }

  /** The same under the rate limit. */
  function Handing(b: Backend, calls: nat, xfer: nat, limit: nat, left: nat): End
    decreases left
  {
    if left == 0 || xfer > limit then Finished
    else
      var n := Answer(b, calls, left);
      if n == -EAGAIN then NotReady
      else if n <= 0 then Failed
      else Handing(b, calls + 1, xfer + n, limit, left - n)
  }

  predicate EndsAs(b: Backend, s: File, s1: File, offset: nat, o: nat)
    requires offset <= |s.buffer|
  {
    var (end, calls) := Offering(b, s.calls, |s.buffer| - offset);
    && s1.calls == calls && (s1.hasError <==> end == Failed) && (s1.frozen <==> end == NotReady)
    && (end == Failed ==> o < |s.buffer|)
  }

  lemma FlushEnds(b: Backend, s: File, offset: nat)
    requires offset <= |s.buffer| && !s.hasError && !s.frozen
    ensures var (s1, o) := FlushFrom(b, s, offset); EndsAs(b, s, s1, offset, o)
  {
    var p := (x: File, o: nat, y: File, e: nat) =>
      o <= |x.buffer| && !x.hasError && !x.frozen ==> EndsAs(b, x, y, o, e);
    FlushInduct(b, p, s, offset);
  }

  lemma {:induction false} PutEnds(b: Backend, s: File, buf: seq<byte>, offset: nat)
    requires offset <= |buf| && !s.frozen
    ensures var ((s1, o), end) := (PutFrom(b, s, buf, offset), Handing(b, s.calls, s.xfer, s.limit, |buf| - offset));
            (o == -EINVAL <==> end == Failed) && (s1.frozen <==> end == NotReady)
    decreases |buf| - offset
  {
    if offset < |buf| && s.xfer <= s.limit {
      var (s1, n) := Offer(b, s, buf, offset);
      if n != -EAGAIN && n > 0 { PutEnds(b, s1.(xfer := s.xfer + n), buf, offset + n); }
    }
  }

  /** A put without an error before it tells the truth about errors - success exactly when there
      is none afterwards - if and only if the answers to the flush at its start do not end in a
      failure, or those to its own bytes after that do too. */
  lemma PutReportsIff(b: Backend, s: File, buf: seq<byte>)
    requires !s.hasError
    ensures var (s', r) := Put(b, s, buf);
            var (end, calls) := Offering(b, s.calls, |s.buffer|);
            (r == |buf| <==> !s'.hasError)
            <==> (end == Failed ==> Handing(b, calls, s.xfer, s.limit, |buf|) == Failed)
  {
    var s0 := s.(frozen := false);
    FlushEnds(b, s0, 0);
    FlushUncounted(b, s0, 0);
    var s1 := Flush(b, s0);
    PutReports(b, s, s1, buf);
    if s1.hasError { PutEnds(b, s1, buf, 0); }
  }

  lemma PutReports(b: Backend, s: File, s1: File, buf: seq<byte>)
    requires !s.hasError && s1 == Flush(b, s.(frozen := false))
    ensures var ((s', r), o) := (Put(b, s, buf), PutFrom(b, s1, buf, 0).1);
            (r == |buf| <==> o != -EINVAL) && (s'.hasError <==> s1.hasError || o == -EINVAL)
  {
    PutFromErr(b, s1, buf, 0);
  }

  lemma PutFromErr(b: Backend, s: File, buf: seq<byte>, offset: nat)
    requires offset <= |buf|
    ensures var (s1, o) := PutFrom(b, s, buf, offset); s1.hasError <==> s.hasError || o == -EINVAL
  {
    PutInduct(b, buf, (x: File, o, y: File, e) => y.hasError <==> x.hasError || e == -EINVAL, s, offset);
  }

  /** It hands bytes of its own over while older ones stay behind in the buffer if and only if the
      flush at its start ends in a failure, the count is not above the limit, and the backend
      takes something of what it is offered next. */
  lemma PutOvertakesIff(b: Backend, s: File, buf: seq<byte>)
    requires !s.hasError
    ensures var s1, s' := Flush(b, s.(frozen := false)), Put(b, s, buf).0;
            var (end, calls) := Offering(b, s.calls, |s.buffer|);
            (s1.buffer != [] && |s'.sent| > |s1.sent|)
            <==> (end == Failed && buf != [] && s.xfer <= s.limit && Answer(b, calls, |buf|) > 0)
  {
    var s0 := s.(frozen := false);
    FlushEnds(b, s0, 0);
    FlushUncounted(b, s0, 0);
    FlushCarries(b, s0);
    var s1 := Flush(b, s0);
    FirstOffer(b, s1, buf);
  }

  lemma FirstOffer(b: Backend, s: File, buf: seq<byte>)
    ensures |PutFrom(b, s, buf, 0).0.sent| > |s.sent|
            <==> !s.frozen && buf != [] && s.xfer <= s.limit && Answer(b, s.calls, |buf|) > 0
  {
    if !s.frozen && buf != [] && s.xfer <= s.limit {
      OfferGrows(b, s, buf);
      var (s1, n) := Offer(b, s, buf, 0);
      if n > 0 {
        PutFromGrows(b, s1.(xfer := s.xfer + n), buf, n);
        assert PutFrom(b, s, buf, 0) == PutFrom(b, s1.(xfer := s.xfer + n), buf, n);
      } else {
        assert PutFrom(b, s, buf, 0).0.sent == s.sent;
      }
    }
  }

  lemma OfferGrows(b: Backend, s: File, data: seq<byte>)
    ensures var (s1, n) := Offer(b, s, data, 0);
            n == Answer(b, s.calls, |data|) && |s1.sent| == |s.sent| + if n > 0 then n else 0
  {
  }

  lemma PutFromGrows(b: Backend, s: File, buf: seq<byte>, offset: nat)
    requires offset <= |buf|
    ensures |PutFrom(b, s, buf, offset).0.sent| >= |s.sent|
  {
    PutInduct(b, buf, (x: File, o, y: File, e) => |y.sent| >= |x.sent|, s, offset);
  }

  /** A put that does both: it reports success and hands its byte over ahead of an older one. */
  lemma FailedFlushReorders(b: Backend, s: File)
    requires s == FRESH.(buffer := [1]) && b(0) == -5 && b(1) == 1
    ensures var (s', r) := Put(b, s, [2]); r == 1 && s'.hasError && s'.sent == [2] && s'.buffer == [1]
  {
    var s0 := s.(frozen := false);
    assert FlushFrom(b, s0, 0) == (s0.(calls := 1, hasError := true), 0);
    var s1 := s0.(calls := 1, hasError := true);
    assert Flush(b, s0) == s1;
    var s2 := s1.(calls := 2, sent := [2], xfer := 1);
    assert [2][0..1] == [2];
    assert s1.sent + [2] == [2];
    assert Offer(b, s1, [2], 0) == (s1.(calls := 2, sent := [2]), 1);
    assert PutFrom(b, s1, [2], 0) == PutFrom(b, s2, [2], 1) == (s2, 1);
    assert [2][1..] == [] && [1] + [2][1..] == [1];
  }

  // ------------------------------------------------------------------ the rate limit

  lemma {:induction false} PutFromCounts(b: Backend, s: File, buf: seq<byte>, offset: nat)
    requires offset <= |buf|
    ensures var s1 := PutFrom(b, s, buf, offset).0;
            && s1.xfer - s.xfer == |s1.sent| - |s.sent| && s1.limit == s.limit
            && (s.xfer > s.limit ==> s1 == s)
            && s1.xfer <= if s.xfer > s.limit then s.xfer else s.limit + |buf| - offset
    decreases |buf| - offset
  {
    if !s.frozen && offset < |buf| && s.xfer <= s.limit {
      var (s1, n) := Offer(b, s, buf, offset);
      if n != -EAGAIN && n > 0 { PutFromCounts(b, s1.(xfer := s.xfer + n), buf, offset + n); }
    }
  }

  /** Between ticks a put counts exactly the bytes it hands straight over, hands none over once the
      count is above the limit, and never gets above the limit by more than its own bytes. */
  lemma PutRespectsLimit(b: Backend, s: File, buf: seq<byte>)
    requires !s.hasError
    ensures var s1, s' := Flush(b, s.(frozen := false)), Put(b, s, buf).0;
            && s'.xfer - s.xfer == |s'.sent| - |s1.sent| && s'.limit == s.limit
            && (s.xfer > s.limit ==> s'.sent == s1.sent)
            && s'.xfer <= if s.xfer > s.limit then s.xfer else s.limit + |buf|
  {
    FlushUncounted(b, s.(frozen := false), 0);
    PutFromCounts(b, Flush(b, s.(frozen := false)), buf, 0);
  }

  lemma FlushUncounted(b: Backend, s: File, offset: nat)
    requires offset <= |s.buffer|
    ensures var s1 := FlushFrom(b, s, offset).0; s1.xfer == s.xfer && s1.limit == s.limit
  {
    FlushInduct(b, (x: File, o, y: File, e) => y.xfer == x.xfer && y.limit == x.limit, s, offset);
  }

  // ------------------------------------------------------------------ the rate limit over a run

  /** The bytes a put hands straight to the backend: all it delivers but those of the flush at its start. */
  function Direct(b: Backend, s: File, buf: seq<byte>): int {
    |Put(b, s, buf).0.sent| - |if s.hasError then s.sent else Flush(b, s.(frozen := false)).sent|
  }

  /** The bytes handed straight over since the last tick that was neither frozen nor failed. */
  function DirectSince(b: Backend, s: File, es: seq<Event>): int {
    if es == [] then 0
    else
      var init := es[..|es| - 1];
      var s1 := Run(b, s, init);
      match es[|es| - 1]
      case PutBytes(buf) => DirectSince(b, s, init) + Direct(b, s1, buf)
      case RateTick => if s1.hasError || s1.frozen then DirectSince(b, s, init) else 0
      case RateLimit(_) => DirectSince(b, s, init)
  }

  lemma StepCounts(b: Backend, s: File, e: Event)
    ensures Step(b, s, e).xfer == match e
                                  case PutBytes(buf) => s.xfer + Direct(b, s, buf)
                                  case RateTick => if s.hasError || s.frozen then s.xfer else 0
                                  case RateLimit(_) => s.xfer
  {
    match e
    case PutBytes(buf) => if !s.hasError { PutRespectsLimit(b, s, buf); }
    case RateTick => FlushUncounted(b, s.(xfer := 0), 0);
    case RateLimit(_) =>
  }

  /** In every run of a fresh stream the count is exactly those bytes. */
  lemma {:induction false} CountIsDirect(b: Backend, s: File, es: seq<Event>)
    requires s.xfer == 0
    ensures Run(b, s, es).xfer == DirectSince(b, s, es)
  {
    if es != [] {
      var init := es[..|es| - 1];
      CountIsDirect(b, s, init);
      StepCounts(b, Run(b, s, init), es[|es| - 1]);
    }
  }

  /** No put is longer than `most`, and no limit set is above `limit`. */
  predicate Within(es: seq<Event>, limit: nat, most: nat) {
    forall i :: 0 <= i < |es| ==>
      match es[i]
      case PutBytes(buf) => |buf| <= most
      case RateLimit(rate) => rate / 10 <= limit
      case RateTick => true
  }

  /** Between two such ticks no more bytes are handed over than the limit and one put. */
  lemma {:induction false} WithinLimit(b: Backend, s: File, es: seq<Event>, limit: nat, most: nat)
    requires s.xfer == 0 && s.limit <= limit && Within(es, limit, most)
    ensures DirectSince(b, s, es) <= limit + most && Run(b, s, es).limit <= limit
  {
    CountIsDirect(b, s, es);
    if es != [] {
      var init, e := es[..|es| - 1], es[|es| - 1];
      var s1 := Run(b, s, init);
      WithinLimit(b, s, init, limit, most);
      CountIsDirect(b, s, init);
      match e
      case PutBytes(buf) => if !s1.hasError { PutRespectsLimit(b, s1, buf); }
      case RateTick => FlushUncounted(b, s1.(xfer := 0), 0);
      case RateLimit(_) =>
    }
  }

  /** The limit is a tenth, rounded down, of the last rate set before any error. */
  lemma {:induction false} LastRate(b: Backend, s: File, es: seq<Event>, k: nat)
    requires k < |es| && es[k].RateLimit? && !Run(b, s, es[..k]).hasError
    requires forall j :: k < j < |es| ==> !es[j].RateLimit?
    ensures var limit := Run(b, s, es).limit; 10 * limit <= es[k].rate < 10 * limit + 10
  {
    LimitKept(b, s, es, k + 1);
    var es' := es[..k + 1];
    assert es'[..k] == es[..k] && es'[k] == es[k];
    TenthOf(Run(b, s, es[..k]), es[k].rate);
  }

  lemma {:induction false} LimitKept(b: Backend, s: File, es: seq<Event>, k: nat)
    requires k <= |es| && forall j :: k <= j < |es| ==> !es[j].RateLimit?
    ensures Run(b, s, es).limit == Run(b, s, es[..k]).limit
    decreases |es|
  {
    if k == |es| {
      assert es[..k] == es;
    } else {
      var init := es[..|es| - 1];
      assert init[..k] == es[..k];
      LimitKept(b, s, init, k);
      LimitStays(b, Run(b, s, init), es[|es| - 1]);
    }
  }

  lemma TenthOf(s: File, rate: nat)
    requires !s.hasError
    ensures var limit := SetLimit(s, rate).limit; 10 * limit <= rate < 10 * limit + 10
  {
  }

  lemma LimitStays(b: Backend, s: File, e: Event)
    requires !e.RateLimit?
    ensures Step(b, s, e).limit == s.limit
  {
    match e
    case PutBytes(buf) => if !s.hasError { PutRespectsLimit(b, s, buf); }
    case RateTick => FlushUncounted(b, s.(xfer := 0), 0);
  }

  // ------------------------------------------------------------------ when the writer is held back

  /** How a put ends is told by the backend's answers: first those to the buffered bytes, then, unless
      the backend was not ready, those to its own. */
  lemma PutEndsAs(b: Backend, s: File, buf: seq<byte>)
    requires !s.hasError
    ensures var s' := Put(b, s, buf).0;
            var (end, calls) := Offering(b, s.calls, |s.buffer|);
            var own := Handing(b, calls, s.xfer, s.limit, |buf|);
            && (s'.frozen <==> end == NotReady || own == NotReady)
            && (s'.hasError <==> end == Failed || (end == Finished && own == Failed))
  {
    var s0 := s.(frozen := false);
    FlushEnds(b, s0, 0);
    FlushUncounted(b, s0, 0);
    var s1 := Flush(b, s0);
    PutReports(b, s, s1, buf);
    if s1.frozen { PutFromSends(b, s1, buf, 0); } else { PutEnds(b, s1, buf, 0); }
  }

  /** A tick on a stream that is neither frozen nor failed holds the writer back afterwards if and only if
      the backend was not ready for the buffered bytes. */
  lemma TickReleases(b: Backend, s: File)
    requires !s.hasError && !s.frozen
    ensures var s', end := Tick(b, s), Offering(b, s.calls, |s.buffer|).0;
            && (s'.hasError <==> end == Failed) && (s'.frozen <==> end == NotReady)
            && (Limited(s') <==> end == NotReady) && (end == Finished ==> s'.buffer == [])
  {
    var s0 := s.(xfer := 0);
    FlushEnds(b, s0, 0);
    FlushUncounted(b, s0, 0);
    FlushCarries(b, s0);
  }

  /** The backend was not ready the last time it was asked, as its answers tell. */
  function Stuck(b: Backend, s: File, es: seq<Event>): bool {
    if es == [] then false
    else
      var init := es[..|es| - 1];
      var s1 := Run(b, s, init);
      var (end, calls) := Offering(b, s1.calls, |s1.buffer|);
      if s1.hasError then Stuck(b, s, init)
      else
        match es[|es| - 1]
        case PutBytes(buf) => end == NotReady || Handing(b, calls, s1.xfer, s1.limit, |buf|) == NotReady
        case RateTick => Stuck(b, s, init) || end == NotReady
        case RateLimit(_) => Stuck(b, s, init)
  }

  lemma {:induction false} FrozenIffStuck(b: Backend, s: File, es: seq<Event>)
    requires !s.frozen
    ensures Run(b, s, es).frozen <==> Stuck(b, s, es)
  {
    if es != [] {
      var init := es[..|es| - 1];
      var s1 := Run(b, s, init);
      FrozenIffStuck(b, s, init);
      if !s1.hasError {
        match es[|es| - 1]
        case PutBytes(buf) => PutEndsAs(b, s1, buf);
        case RateTick => if !s1.frozen { TickReleases(b, s1); }
        case RateLimit(_) =>
      }
    }
  }

  /** In every run the writer is held back if and only if there is no error and the backend was not ready the
      last time, or more bytes than the limit were handed over since the last tick that went through. */
  lemma HeldBackIff(b: Backend, s: File, es: seq<Event>)
    requires s.xfer == 0 && !s.frozen
    ensures var s' := Run(b, s, es);
            Limited(s') <==> !s'.hasError && (Stuck(b, s, es) || DirectSince(b, s, es) > s'.limit)
  {
    CountIsDirect(b, s, es);
    FrozenIffStuck(b, s, es);
  }

  // ------------------------------------------------------------------ the code

  class BufferedFile {
    const backend: Backend
    var hasError: bool
    var freezeOutput: bool
    var bytesXfer: nat
    var xferLimit: nat
    var buffer: array<byte>
    var bufferSize: nat
    var sent: seq<byte>
    var calls: nat

    predicate Valid()
      reads this
    {
      bufferSize <= buffer.Length
    }

    function View(): File
      requires Valid()
      reads this, buffer
    {
      File(hasError, freezeOutput, bytesXfer, xferLimit, buffer[..bufferSize], sent, calls)
    }

    constructor (backend: Backend, bytesPerSec: nat)
      ensures Valid() && this.backend == backend && View() == FRESH.(limit := bytesPerSec / 10)
    {
      this.backend := backend;
      hasError, freezeOutput, bytesXfer, xferLimit := false, false, 0, bytesPerSec / 10;
      buffer, bufferSize, sent, calls := new byte[0], 0, [], 0;
    }

    /** The backend is offered some bytes. */
    method PutBuffer(buf: seq<byte>, from: nat) returns (ret: int)
      requires Valid() && from <= |buf|
      modifies this`sent, this`calls
      ensures (View(), ret) == Offer(backend, old(View()), buf, from)
    {
      ret := Answer(backend, calls, |buf| - from);
      calls := calls + 1;
      if ret > 0 { sent := sent + buf[from..from + ret]; }
    }

    /** Grows the buffer when the bytes do not fit, then appends them. */
    method Append(buf: seq<byte>)
      requires Valid()
      modifies this`buffer, this`bufferSize, buffer
      ensures Valid() && View() == old(View()).(buffer := old(View()).buffer + buf)
      ensures buffer == old(buffer) || fresh(buffer)
      ensures buffer.Length == if old(bufferSize) + |buf| <= old(buffer.Length) then old(buffer.Length)
                               else old(buffer.Length) + |buf| + 1024
    {
      if |buf| > buffer.Length - bufferSize {
        var tmp := new byte[buffer.Length + |buf| + 1024];
        forall i | 0 <= i < bufferSize { tmp[i] := buffer[i]; }
        buffer := tmp;
      }
      assert buffer[..bufferSize] == old(View()).buffer;
      forall i | 0 <= i < |buf| { buffer[bufferSize + i] := buf[i]; }
      assert buffer[..bufferSize] == old(View()).buffer && buffer[bufferSize..bufferSize + |buf|] == buf;
      bufferSize := bufferSize + |buf|;
      assert buffer[..bufferSize] == old(View()).buffer + buf;
    }

    /** The bytes from `offset` on move to the front. */
    method Drop(offset: nat)
      requires Valid() && offset <= bufferSize
      modifies this`bufferSize, buffer
      ensures Valid() && View() == old(View()).(buffer := old(View()).buffer[offset..])
    {
      for i := 0 to bufferSize - offset
        modifies buffer
        invariant forall k :: 0 <= k < i ==> buffer[k] == old(buffer[k + offset])
        invariant forall k :: i <= k < buffer.Length ==> buffer[k] == old(buffer[k])
      {
        buffer[i] := buffer[i + offset];
      }
      bufferSize := bufferSize - offset;
    }

    /** One turn of the flush loop. */
    method FlushOnce(offset: nat) returns (next: nat, stop: bool)
      requires Valid() && offset < bufferSize
      modifies this`hasError, this`freezeOutput, this`sent, this`calls
      ensures stop ==> (View(), next) == FlushFrom(backend, old(View()), offset)
      ensures !stop ==> offset < next <= bufferSize
                        && FlushFrom(backend, old(View()), offset) == FlushFrom(backend, View(), next)
    {
      var ret := PutBuffer(buffer[..bufferSize], offset);
      if ret == -EAGAIN {
        freezeOutput := true;
        return offset, true;
      }
      if ret <= 0 {
        hasError := true;
        return offset, true;
      }
      return offset + ret, false;
    }

    /** The flush loop; the buffer itself stays until the loop is over. */
    method SendBuffer() returns (offset: nat)
      requires Valid()
      modifies this`hasError, this`freezeOutput, this`sent, this`calls
      ensures offset <= bufferSize && (View(), offset) == FlushFrom(backend, old(View()), 0)
    {
      offset := 0;
      ghost var s0 := View();
      while offset < bufferSize
        invariant offset <= bufferSize
        invariant FlushFrom(backend, s0, 0) == FlushFrom(backend, View(), offset)
      {
        var stop;
        offset, stop := FlushOnce(offset);
        if stop { return; }
      }
    }

    method FlushBuffer()
      requires Valid()
      modifies this`hasError, this`freezeOutput, this`sent, this`calls, this`bufferSize, buffer
      ensures Valid() && View() == Flush(backend, old(View()))
    {
      if hasError { return; }
      var offset := SendBuffer();
      Drop(offset);
    }

    /** One turn of the loop that hands bytes straight to the backend. */
    method SendOnce(buf: seq<byte>, offset: nat) returns (next: int, stop: bool)
      requires Valid() && offset < |buf| && !freezeOutput && bytesXfer <= xferLimit
      modifies this`hasError, this`freezeOutput, this`bytesXfer, this`sent, this`calls
      ensures stop ==> (View(), next) == PutFrom(backend, old(View()), buf, offset)
      ensures !stop ==> offset < next <= |buf|
                        && PutFrom(backend, old(View()), buf, offset) == PutFrom(backend, View(), buf, next)
    {
      var ret := PutBuffer(buf, offset);
      if ret == -EAGAIN {
        freezeOutput := true;
        return offset, true;
      }
      if ret <= 0 {
        hasError := true;
        return -EINVAL, true;
      }
      bytesXfer := bytesXfer + ret;
      return offset + ret, false;
    }

    /** The loop. */
    method SendBytes(buf: seq<byte>) returns (offset: int)
      requires Valid()
      modifies this`hasError, this`freezeOutput, this`bytesXfer, this`sent, this`calls
      ensures (View(), offset) == PutFrom(backend, old(View()), buf, 0)
    {
      offset := 0;
      ghost var s0 := View();
      while !freezeOutput && offset < |buf|
        invariant 0 <= offset <= |buf|
        invariant PutFrom(backend, s0, buf, 0) == PutFrom(backend, View(), buf, offset)
        decreases |buf| - offset
      {
        if bytesXfer > xferLimit { return; }
        var stop;
        offset, stop := SendOnce(buf, offset);
        if stop { return; }
      }
    }

    method PutBytes(buf: seq<byte>) returns (r: int)
      requires Valid()
      modifies this, buffer
      ensures Valid() && (View(), r) == Put(backend, old(View()), buf)
      ensures buffer == old(buffer) || fresh(buffer)
    {
      if hasError { return -EINVAL; }
      freezeOutput := false;
      FlushBuffer();
      r := SendBytes(buf);
      if r >= 0 {
        Append(buf[r..]);
        r := |buf|;
      }
    }

    method RateTick()
      requires Valid()
      modifies this`hasError, this`freezeOutput, this`bytesXfer, this`sent, this`calls, this`bufferSize, buffer
      ensures Valid() && View() == Tick(backend, old(View()))
    {
      if hasError || freezeOutput { return; }
      bytesXfer := 0;
      FlushBuffer();
    }

    method SetRateLimit(newRate: nat) returns (r: nat)
      requires Valid()
      modifies this`xferLimit
      ensures View() == SetLimit(old(View()), newRate) && r == View().limit
    {
      if !hasError { xferLimit := newRate / 10; }
      return xferLimit;
    }

    /** Whether the writer should hold back. */
    method RateLimit() returns (r: bool)
      requires Valid()
      ensures r == Limited(View())
    {
      if hasError { return false; }
      if freezeOutput { return true; }
      return bytesXfer > xferLimit;
    }

    /** The closing loop, over after n offers; returns what the backend's own close returned. */
    method Close(closed: int, ghost n: nat) returns (r: int)
      requires Valid() && Settled(backend, View(), n)
      modifies this, buffer
      ensures Valid() && r == closed && View() == CloseFrom(backend, old(View()), n)
    {
      ghost var m: nat := n;
      while !hasError && bufferSize > 0
        modifies this`hasError, this`freezeOutput, this`sent, this`calls, this`bufferSize, buffer
        invariant Valid() && Settled(backend, View(), m)
        invariant CloseFrom(backend, old(View()), n) == CloseFrom(backend, View(), m)
        decreases !hasError, m
      {
        ghost var s := View();
        m := CloseTurn(backend, s, m);
        FlushBuffer();
        assert View() == Flush(backend, s);
      }
      r := closed;
    }
  }
}
