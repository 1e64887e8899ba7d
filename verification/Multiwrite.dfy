/**
 Merging of write requests: sort by start sector, then join requests that touch.
 The merged requests must write what the originals write, in whatever order those
 would have been done.
 */
module IoVectors {
  import opened Disk

  function Join(iov: seq<seq<byte>>): seq<byte> {
    if iov == [] then [] else Join(iov[..|iov| - 1]) + iov[|iov| - 1]
  }

  function Take(b: seq<byte>, n: nat): seq<byte> {
    if n <= |b| then b[..n] else b
  }

  lemma JoinOne(iov: seq<seq<byte>>, b: seq<byte>)
    ensures Join(iov + [b]) == Join(iov) + b
  {
    assert (iov + [b])[..|iov|] == iov;
  }

  lemma {:induction false} JoinPrefix(iov: seq<seq<byte>>, k: nat)
    requires k <= |iov|
    ensures |Join(iov[..k])| <= |Join(iov)| && Join(iov)[..|Join(iov[..k])|] == Join(iov[..k])
    decreases |iov|
  {
    if k == |iov| {
      assert iov[..k] == iov;
    } else {
      var l := iov[..|iov| - 1];
      assert l[..k] == iov[..k];
      JoinPrefix(l, k);
    }
  }

  /** A scatter/gather list under construction. */
  class IoVector {
    var iov: seq<seq<byte>>
    var size: nat

    ghost predicate Valid()
      reads this
    {
      size == |Join(iov)|
    }

    constructor ()
      ensures Valid() && iov == []
    {
      iov, size := [], 0;
    }

    /** qemu_iovec_add. */
    method Add(b: seq<byte>)
      requires Valid()
      modifies this
      ensures Valid() && iov == old(iov) + [b] && Join(iov) == Join(old(iov)) + b
    {
      JoinOne(iov, b);
      iov, size := iov + [b], size + |b|;
    }

    /** qemu_iovec_concat: append the first n bytes of src, or all of it if shorter. */
    method Concat(src: seq<seq<byte>>, n: nat)
      requires Valid()
      modifies this
      ensures Valid() && Join(iov) == Join(old(iov)) + Take(Join(src), n)
    {
      var i, done := 0, 0;
      while i < |src| && done != n
        invariant i <= |src| && Valid()
        invariant done == |Join(src[..i])| <= n
        invariant Join(iov) == Join(old(iov)) + Join(src[..i])
      {
        assert src[..i + 1][..i] == src[..i];
        JoinPrefix(src, i + 1);
        if done + |src[i]| > n {
          Add(src[i][..n - done]);
          assert Join(src)[..n] == Join(src[..i + 1])[..n] == Join(src[..i]) + src[i][..n - done];
          return;
        }
        Add(src[i]);
        done := done + |src[i]|;
        i := i + 1;
      }
      JoinPrefix(src, i);
      assert src[..|src|] == src;
    }
  }
}

module Multiwrite {
  import opened Disk
  import opened IoVectors

  datatype Request = Request(sector: nat, nb: nat, iov: seq<seq<byte>>)

  function Payload(r: Request): seq<byte> { Join(r.iov) }

  /** The vector holds exactly the announced number of sectors. */
  predicate Consistent(r: Request) { |Payload(r)| == 512 * r.nb }

  predicate AllConsistent(rs: seq<Request>) { forall i :: 0 <= i < |rs| ==> Consistent(rs[i]) }

  predicate WellFormed(rs: seq<Request>) { forall i :: 0 <= i < |rs| ==> Consistent(rs[i]) && rs[i].nb > 0 }

  predicate Sorted(rs: seq<Request>) { forall i, j :: 0 <= i < j < |rs| ==> rs[i].sector <= rs[j].sector }

  /** No request starts before the one sorted in front of it ends. */
  predicate NoOverlap(rs: seq<Request>) {
    forall i :: 0 <= i < |rs| - 1 ==> rs[i].sector + rs[i].nb <= rs[i + 1].sector
  }

  predicate Disjoint(a: Request, b: Request) {
    a.sector + a.nb <= b.sector || b.sector + b.nb <= a.sector
  }

  predicate PairwiseDisjoint(rs: seq<Request>) {
    forall i, j :: 0 <= i < j < |rs| ==> Disjoint(rs[i], rs[j])
  }

  // ------------------------------------------------------------------ sorting

  /** Conversion to a 32-bit int. */
  function ToInt32(x: int): int {
    var m := x % 0x1_0000_0000;
    if m < 0x8000_0000 then m else m - 0x1_0000_0000
  }

  /** multiwrite_req_compare: the 64-bit difference is returned as an int. */
  function Compare(a: Request, b: Request): int { ToInt32(a.sector - b.sector) }

  /** What qsort leaves when the comparator is an order. */
  predicate Ordered(rs: seq<Request>) {
    forall i, j :: 0 <= i < j < |rs| ==> Compare(rs[i], rs[j]) <= 0
  }

  predicate DifferencesFit(rs: seq<Request>) {
    forall a, b :: a in rs && b in rs ==> a.sector - b.sector < 0x8000_0000
  }

  /** The comparator tells which of two requests starts first exactly when the low 32 bits of
      their distance, read as a signed number, have its sign. */
  lemma CompareRightIff(a: Request, b: Request)
    ensures var low := (a.sector - b.sector) % 0x1_0000_0000;
            (Compare(a, b) <= 0 <==> a.sector <= b.sector)
            <==> if a.sector <= b.sector then low == 0 || low >= 0x8000_0000 else 0 < low < 0x8000_0000
  {
  }

  /** While distances fit an int, sorting by the comparator is sorting by sector. */
  lemma ComparatorSorts(rs: seq<Request>)
    requires DifferencesFit(rs)
    ensures Ordered(rs) <==> Sorted(rs)
  {
    forall i, j | 0 <= i < j < |rs| ensures Compare(rs[i], rs[j]) <= 0 <==> rs[i].sector <= rs[j].sector {
      assert rs[i] in rs && rs[j] in rs;
      CompareFits(rs[i], rs[j]);
    }
  }

  lemma CompareFits(a: Request, b: Request)
    requires -0x8000_0000 <= a.sector - b.sector < 0x8000_0000
    ensures Compare(a, b) == a.sector - b.sector
  {
  }

  /** Two gigasectors apart, the comparator puts the later request first. */
  lemma ComparatorWraps(iov: seq<seq<byte>>)
    ensures Compare(Request(0x8000_0000, 1, iov), Request(0, 1, iov)) < 0
  {
  }

  // ------------------------------------------------------------------ merging

  /** How much of the first request goes in front of the second. If the second starts earlier the
      distance is negative and as a size exceeds every vector: all of it. */
  function Cut(a: Request, b: Request): nat {
    if b.sector < a.sector then |Payload(a)| else (b.sector - a.sector) * 512
  }

  /** The vector of two touching requests joined: the first is cut where the second starts. */
  ghost predicate Merges(a: Request, b: Request, m: Request) {
    && m.sector == a.sector
    && m.nb == a.nb + b.nb
    && Payload(m) == Take(Payload(a), Cut(a, b)) + Payload(b)
  }

  /** The whole pass over sorted requests: `out` are the merged requests of rs. */
  ghost predicate MergedTo(rs: seq<Request>, out: seq<Request>)
    decreases |rs|
  {
    if |rs| <= 1 then out == rs
    else if rs[1].sector <= rs[0].sector + rs[0].nb
    then exists m :: Merges(rs[0], rs[1], m) && MergedTo([m] + rs[2..], out)
    else |out| > 0 && out[0] == rs[0] && MergedTo(rs[1..], out[1..])
  }

  /** Nothing is left to merge: each request ends before the sector in front of the next. */
  predicate Apart(rs: seq<Request>) {
    forall i :: 0 <= i < |rs| - 1 ==> rs[i].sector + rs[i].nb < rs[i + 1].sector
  }

  lemma {:induction false} MergedApart(rs: seq<Request>, out: seq<Request>)
    requires MergedTo(rs, out)
    ensures Apart(out) && |out| <= |rs| && (rs != [] ==> out != [] && out[0].sector == rs[0].sector)
    decreases |rs|
  {
    if |rs| > 1 {
      if rs[1].sector <= rs[0].sector + rs[0].nb {
        var m :| Merges(rs[0], rs[1], m) && MergedTo([m] + rs[2..], out);
        MergedApart([m] + rs[2..], out);
      } else {
        MergedApart(rs[1..], out[1..]);
        forall i | 0 <= i < |out| - 1 ensures out[i].sector + out[i].nb < out[i + 1].sector {
          assert out[i + 1] == out[1..][i];
          if i > 0 { assert out[i] == out[1..][i - 1]; }
        }
      }
    }
  }

  /** With `done` finished and `cur` still to go, the pass over rs is on its way. */
  ghost predicate Leads(rs: seq<Request>, done: seq<Request>, cur: seq<Request>) {
    forall res :: MergedTo(cur, res) ==> MergedTo(rs, done + res)
  }

  lemma LeadsStart(rs: seq<Request>)
    ensures Leads(rs, [], rs)
  {
    forall res | MergedTo(rs, res) ensures MergedTo(rs, [] + res) {
      assert [] + res == res;
    }
  }

  lemma LeadsMerge(rs: seq<Request>, done: seq<Request>, cur: seq<Request>, m: Request)
    requires Leads(rs, done, cur) && |cur| > 1
    requires cur[1].sector <= cur[0].sector + cur[0].nb && Merges(cur[0], cur[1], m)
    ensures Leads(rs, done, [m] + cur[2..])
  {
  }

  lemma LeadsSkip(rs: seq<Request>, done: seq<Request>, cur: seq<Request>)
    requires Leads(rs, done, cur) && |cur| > 1 && cur[1].sector > cur[0].sector + cur[0].nb
    ensures Leads(rs, done + [cur[0]], cur[1..])
  {
    forall res | MergedTo(cur[1..], res) ensures MergedTo(rs, done + [cur[0]] + res) {
      assert ([cur[0]] + res)[1..] == res;
      assert MergedTo(cur, [cur[0]] + res);
      assert done + [cur[0]] + res == done + ([cur[0]] + res);
    }
  }

  /** Join two touching requests in a fresh vector. */
  method MergeTwo(a: Request, b: Request) returns (m: Request)
    ensures Merges(a, b, m)
  {
    var q := new IoVector();
    q.Concat(a.iov, Cut(a, b));
    q.Concat(b.iov, |Join(b.iov)|);
    m := Request(a.sector, a.nb + b.nb, q.iov);
  }

  /** multiwrite_merge. `sorted` is what qsort leaves in the array, whatever the comparator did. */
  method Merge(reqs: array<Request>, sorted: seq<Request>) returns (n: nat)
    requires reqs.Length > 0 && multiset(sorted) == multiset(reqs[..])
    modifies reqs
    ensures 0 < n <= reqs.Length && MergedTo(sorted, reqs[..n])
  {
    SameLength(sorted, reqs[..]);
    forall k | 0 <= k < reqs.Length { reqs[k] := sorted[k]; }
    assert reqs[..] == sorted;
    n := MergePass(reqs);
  }

  /** The array a in the middle of the pass over rs: requests before `out` are finished,
      `out` is being extended, and those from i on are untouched. */
  ghost predicate Midway(rs: seq<Request>, a: seq<Request>, out: nat, i: nat) {
    && out < i <= |a| == |rs|
    && a[i..] == rs[i..]
    && Leads(rs, a[..out], [a[out]] + rs[i..])
  }

  lemma MidwayStart(rs: seq<Request>)
    requires rs != []
    ensures Midway(rs, rs, 0, 1)
  {
    LeadsStart(rs);
    assert rs[..0] == [] && [rs[0]] + rs[1..] == rs;
  }

  lemma MidwayEnd(rs: seq<Request>, a: seq<Request>, out: nat)
    requires Midway(rs, a, out, |a|)
    ensures MergedTo(rs, a[..out + 1])
  {
    assert MergedTo([a[out]], [a[out]]) && [a[out]] + rs[|a|..] == [a[out]];
    assert a[..out + 1] == a[..out] + [a[out]];
  }

  lemma MidwayMerge(rs: seq<Request>, a: seq<Request>, out: nat, i: nat, m: Request)
    requires Midway(rs, a, out, i) && i < |a|
    requires a[i].sector <= a[out].sector + a[out].nb && Merges(a[out], a[i], m)
    ensures Midway(rs, a[out := m], out, i + 1)
  {
    var cur := [a[out]] + rs[i..];
    assert a[i] == a[i..][0] == rs[i] == cur[1];
    LeadsMerge(rs, a[..out], cur, m);
    var a' := a[out := m];
    assert cur[2..] == rs[i + 1..] && a'[..out] == a[..out] && a'[i + 1..] == a[i..][1..] == rs[i + 1..];
  }

  lemma MidwaySkip(rs: seq<Request>, a: seq<Request>, out: nat, i: nat)
    requires Midway(rs, a, out, i) && i < |a|
    requires a[i].sector > a[out].sector + a[out].nb
    ensures Midway(rs, a[out + 1 := a[i]], out + 1, i + 1)
  {
    var cur := [a[out]] + rs[i..];
    assert a[i] == a[i..][0] == rs[i] == cur[1];
    LeadsSkip(rs, a[..out], cur);
    var a' := a[out + 1 := a[i]];
    assert a'[..out + 1] == a[..out] + [a[out]];
    assert cur[1..] == [a[i]] + rs[i + 1..] && a'[i + 1..] == a[i..][1..] == rs[i + 1..];
  }

  /** One turn of the pass: request i joins the one being extended, or becomes it. */
  method MergeTurn(reqs: array<Request>, out: nat, i: nat, ghost sorted: seq<Request>) returns (out': nat)
    requires out < i < reqs.Length && Midway(sorted, reqs[..], out, i)
    modifies reqs
    ensures out' < i + 1 && Midway(sorted, reqs[..], out', i + 1)
  {
    ghost var a := reqs[..];
    if reqs[i].sector <= reqs[out].sector + reqs[out].nb {
      var m := MergeTwo(reqs[out], reqs[i]);
      MidwayMerge(sorted, a, out, i, m);
      reqs[out] := m;
      assert reqs[..] == a[out := m];
      out' := out;
    } else {
      MidwaySkip(sorted, a, out, i);
      out' := out + 1;
      reqs[out'] := reqs[i];
      assert reqs[..] == a[out + 1 := a[i]];
    }
  }

  /** The pass over the array, in place. */
  method MergePass(reqs: array<Request>) returns (n: nat)
    requires reqs.Length > 0
    modifies reqs
    ensures 0 < n <= reqs.Length && MergedTo(old(reqs[..]), reqs[..n])
  {
    var out: nat, i: nat := 0, 1;
    ghost var sorted := reqs[..];
    MidwayStart(sorted);
    while i < reqs.Length
      invariant out < i <= reqs.Length && Midway(sorted, reqs[..], out, i)
    {
      out := MergeTurn(reqs, out, i, sorted);
      i := i + 1;
    }
    n := out + 1;
    MidwayEnd(sorted, reqs[..], out);
    assert reqs[..n] == reqs[..][..n];
  }

  lemma SameLength(a: seq<Request>, b: seq<Request>)
    requires multiset(a) == multiset(b)
    ensures |a| == |b|
  {
    assert |multiset(a)| == |a| && |multiset(b)| == |b|;
  }

  // ------------------------------------------------------------------ when vectors stay consistent

  function TotalSectors(rs: seq<Request>): nat {
    if rs == [] then 0 else rs[0].nb + TotalSectors(rs[1..])
  }

  function TotalBytes(rs: seq<Request>): nat {
    if rs == [] then 0 else |Payload(rs[0])| + TotalBytes(rs[1..])
  }

  /** Merging keeps every announced sector and never adds bytes. */
  lemma {:induction false} MergeTotals(rs: seq<Request>, out: seq<Request>)
    requires MergedTo(rs, out)
    ensures TotalSectors(out) == TotalSectors(rs) && TotalBytes(out) <= TotalBytes(rs)
    decreases |rs|
  {
    if |rs| > 1 {
      if rs[1].sector <= rs[0].sector + rs[0].nb {
        var m :| Merges(rs[0], rs[1], m) && MergedTo([m] + rs[2..], out);
        TotalsOfMerge(rs, m);
        MergeTotals([m] + rs[2..], out);
      } else {
        MergeTotals(rs[1..], out[1..]);
      }
    }
  }

  lemma TotalsOfMerge(rs: seq<Request>, m: Request)
    requires |rs| > 1 && Merges(rs[0], rs[1], m)
    ensures TotalSectors([m] + rs[2..]) == TotalSectors(rs)
    ensures TotalBytes([m] + rs[2..]) == TotalBytes(rs) - |Payload(rs[0])| - |Payload(rs[1])| + |Payload(m)|
    ensures |Payload(m)| <= |Payload(rs[0])| + |Payload(rs[1])|
  {
    assert ([m] + rs[2..])[1..] == rs[2..] == rs[1..][1..];
  }

  lemma {:induction false} ConsistentTotals(rs: seq<Request>)
    requires AllConsistent(rs)
    ensures TotalBytes(rs) == 512 * TotalSectors(rs)
  {
    if rs != [] {
      assert forall i :: 0 <= i < |rs[1..]| ==> rs[1..][i] == rs[i + 1];
      ConsistentTotals(rs[1..]);
    }
  }

  lemma ExactMerge(a: Request, b: Request, m: Request)
    requires Merges(a, b, m) && Consistent(a) && b.sector == a.sector + a.nb
    ensures Payload(m) == Payload(a) + Payload(b)
  {
  }

  /** Joining the first two requests keeps the rest of the list in order. */
  lemma MergedHead(rs: seq<Request>, m: Request)
    requires |rs| > 1 && Merges(rs[0], rs[1], m) && rs[1].sector <= rs[0].sector + rs[0].nb
    requires WellFormed(rs) && NoOverlap(rs)
    ensures WellFormed([m] + rs[2..]) && NoOverlap([m] + rs[2..])
  {
    ExactMerge(rs[0], rs[1], m);
    var rs' := [m] + rs[2..];
    assert forall i :: 1 <= i < |rs'| ==> rs'[i] == rs[i + 1];
    assert m.sector + m.nb == rs[1].sector + rs[1].nb;
  }

  lemma TailOk(rs: seq<Request>)
    requires rs != [] && WellFormed(rs) && NoOverlap(rs)
    ensures WellFormed(rs[1..]) && NoOverlap(rs[1..])
  {
    assert forall i :: 0 <= i < |rs[1..]| ==> rs[1..][i] == rs[i + 1];
  }

  /** Sorted requests that do not overlap merge without losing a byte, and every merged
      request stays consistent. */
  lemma {:induction false} DisjointStaysConsistent(rs: seq<Request>, out: seq<Request>)
    requires MergedTo(rs, out) && WellFormed(rs) && NoOverlap(rs)
    ensures WellFormed(out)
    decreases |rs|
  {
    if |rs| > 1 {
      if rs[1].sector <= rs[0].sector + rs[0].nb {
        var m :| Merges(rs[0], rs[1], m) && MergedTo([m] + rs[2..], out);
        MergedHead(rs, m);
        DisjointStaysConsistent([m] + rs[2..], out);
      } else {
        TailOk(rs);
        DisjointStaysConsistent(rs[1..], out[1..]);
        assert forall i :: 0 < i < |out| ==> out[i] == out[1..][i - 1];
      }
    }
  }

  /** An overlap loses bytes while the sector counts are still added up. */
  lemma {:induction false} OverlapLosesBytes(rs: seq<Request>, out: seq<Request>)
    requires MergedTo(rs, out) && WellFormed(rs) && Sorted(rs) && !NoOverlap(rs)
    ensures TotalBytes(out) < TotalBytes(rs)
    decreases |rs|
  {
    if rs[1].sector < rs[0].sector + rs[0].nb {
      var m :| Merges(rs[0], rs[1], m) && MergedTo([m] + rs[2..], out);
      OverlapCut(rs[0], rs[1], m);
      TotalsOfMerge(rs, m);
      MergeTotals([m] + rs[2..], out);
    } else if rs[1].sector == rs[0].sector + rs[0].nb {
      var m :| Merges(rs[0], rs[1], m) && MergedTo([m] + rs[2..], out);
      ExactMerge(rs[0], rs[1], m);
      TotalsOfMerge(rs, m);
      OverlapMoves(rs, m);
      OverlapLosesBytes([m] + rs[2..], out);
    } else {
      OverlapLater(rs);
      OverlapLosesBytes(rs[1..], out[1..]);
    }
  }

  lemma OverlapCut(a: Request, b: Request, m: Request)
    requires Merges(a, b, m) && Consistent(a) && a.sector <= b.sector < a.sector + a.nb
    ensures |Payload(m)| < |Payload(a)| + |Payload(b)|
  {
  }

  lemma OverlapLater(rs: seq<Request>)
    requires |rs| > 1 && WellFormed(rs) && Sorted(rs) && !NoOverlap(rs) && rs[1].sector >= rs[0].sector + rs[0].nb
    ensures WellFormed(rs[1..]) && Sorted(rs[1..]) && !NoOverlap(rs[1..])
  {
    var i :| 0 <= i < |rs| - 1 && rs[i].sector + rs[i].nb > rs[i + 1].sector;
    var t := rs[1..];
    assert t[i - 1] == rs[i] && t[i] == rs[i + 1];
    assert t[i - 1].sector + t[i - 1].nb > t[i - 1 + 1].sector;
  }

  lemma OverlapMoves(rs: seq<Request>, m: Request)
    requires |rs| > 1 && Merges(rs[0], rs[1], m) && rs[1].sector == rs[0].sector + rs[0].nb
    requires Sorted(rs) && !NoOverlap(rs)
    ensures Sorted([m] + rs[2..]) && !NoOverlap([m] + rs[2..])
  {
    var rs' := [m] + rs[2..];
    var i :| 0 <= i < |rs| - 1 && rs[i].sector + rs[i].nb > rs[i + 1].sector;
    assert rs'[i].sector == rs[i + 1].sector || i >= 1;
    assert i >= 1 && rs'[i - 1].sector + rs'[i - 1].nb > rs'[i].sector;
  }

  /** The exact condition: for any sorted well-formed requests, every merged request
      announces what its vector holds if and only if no two requests overlap. */
  lemma MergeConsistentIff(rs: seq<Request>, out: seq<Request>)
    requires MergedTo(rs, out) && WellFormed(rs) && Sorted(rs)
    ensures AllConsistent(out) <==> PairwiseDisjoint(rs)
  {
    DisjointIff(rs);
    if NoOverlap(rs) {
      DisjointStaysConsistent(rs, out);
    } else {
      OverlapLosesBytes(rs, out);
      MergeTotals(rs, out);
      ConsistentTotals(rs);
      if AllConsistent(out) { ConsistentTotals(out); }
    }
  }

  function Zeros(sector: nat, nb: nat): Request { Request(sector, nb, [seq(512 * nb, _ => 0)]) }

  /** Two writes of the same sector: however they are merged, the result announces two sectors
      and does not hold them. */
  lemma SameSectorInconsistent(out: seq<Request>)
    requires MergedTo([Zeros(0, 1), Zeros(0, 1)], out)
    ensures !AllConsistent(out)
  {
    var r := Zeros(0, 1);
    JoinOne([], r.iov[0]);
    assert [] + [r.iov[0]] == r.iov;
    assert Consistent(r) && !Disjoint([r, r][0], [r, r][1]);
    MergeConsistentIff([r, r], out);
  }

  lemma DisjointIff(rs: seq<Request>)
    requires WellFormed(rs) && Sorted(rs)
    ensures PairwiseDisjoint(rs) <==> NoOverlap(rs)
  {
    if NoOverlap(rs) {
      forall i, j | 0 <= i < j < |rs| ensures Disjoint(rs[i], rs[j]) {
        assert rs[i + 1].sector <= rs[j].sector;
      }
    }
    if PairwiseDisjoint(rs) {
      forall i | 0 <= i < |rs| - 1 ensures rs[i].sector + rs[i].nb <= rs[i + 1].sector {
        assert Disjoint(rs[i], rs[i + 1]);
      }
    }
  }

  // ------------------------------------------------------------------ what gets written

  predicate InBounds(rs: seq<Request>, n: nat) {
    forall i :: 0 <= i < |rs| ==> 512 * (rs[i].sector + rs[i].nb) <= n
  }

  /** The disk, as bytes, after the requests have been written one after the other. */
  function WriteAll(b: seq<byte>, rs: seq<Request>): (r: seq<byte>)
    requires AllConsistent(rs) && InBounds(rs, |b|)
    ensures |r| == |b|
  {
    if rs == [] then b
    else
      var q := rs[|rs| - 1];
      Splice(WriteAll(b, rs[..|rs| - 1]), 512 * q.sector, Payload(q))
  }

  predicate Covers(r: Request, p: nat) { 512 * r.sector <= p < 512 * (r.sector + r.nb) }

  /** Request r puts value v at byte p. */
  predicate Puts(r: Request, p: nat, v: byte) {
    Covers(r, p) && p - 512 * r.sector < |Payload(r)| && Payload(r)[p - 512 * r.sector] == v
  }

  ghost predicate SomePuts(rs: seq<Request>, p: nat, v: byte) {
    exists i :: 0 <= i < |rs| && Puts(rs[i], p, v)
  }

  ghost predicate NonePuts(rs: seq<Request>, p: nat) {
    forall i :: 0 <= i < |rs| ==> !Covers(rs[i], p)
  }

  lemma SpliceAt(b: seq<byte>, at: nat, d: seq<byte>, p: nat)
    requires at + |d| <= |b| && p < |b|
    ensures Splice(b, at, d)[p] == if at <= p < at + |d| then d[p - at] else b[p]
  {
  }

  lemma PutsLast(rs: seq<Request>, p: nat, v: byte)
    requires rs != []
    ensures SomePuts(rs, p, v) <==> SomePuts(rs[..|rs| - 1], p, v) || Puts(rs[|rs| - 1], p, v)
  {
    var l := rs[..|rs| - 1];
    if SomePuts(rs, p, v) {
      var i :| 0 <= i < |rs| && Puts(rs[i], p, v);
      if i < |l| { assert Puts(l[i], p, v); }
    }
    if SomePuts(l, p, v) {
      var i :| 0 <= i < |l| && Puts(l[i], p, v);
      assert Puts(rs[i], p, v);
    }
  }

  lemma NothingThere(rs: seq<Request>, p: nat, v: byte)
    requires NonePuts(rs, p)
    ensures !SomePuts(rs, p, v)
  {
  }

  /** Disjoint requests: a byte ends up with what the one request over it put there,
      and keeps its old value if there is none. The order plays no part. */
  lemma {:induction false} WriteAllAt(b: seq<byte>, rs: seq<Request>, p: nat)
    requires AllConsistent(rs) && InBounds(rs, |b|) && PairwiseDisjoint(rs) && p < |b|
    ensures NonePuts(rs, p) ==> WriteAll(b, rs)[p] == b[p]
    ensures !NonePuts(rs, p) ==> SomePuts(rs, p, WriteAll(b, rs)[p])
    ensures forall v :: SomePuts(rs, p, v) ==> WriteAll(b, rs)[p] == v
  {
    if rs != [] {
      var l, q := rs[..|rs| - 1], rs[|rs| - 1];
      WriteAllAt(b, l, p);
      var v := WriteAll(b, rs)[p];
      SpliceAt(WriteAll(b, l), 512 * q.sector, Payload(q), p);
      PutsLast(rs, p, v);
      if Covers(q, p) {
        OnlyLast(rs, p);
        forall w | SomePuts(rs, p, w) ensures v == w {
          PutsLast(rs, p, w);
          NothingThere(l, p, w);
        }
      } else {
        forall w | SomePuts(rs, p, w) ensures v == w { PutsLast(rs, p, w); }
        if NonePuts(l, p) { NoneAtAll(rs, p); }
      }
    }
  }

  lemma OnlyLast(rs: seq<Request>, p: nat)
    requires rs != [] && PairwiseDisjoint(rs) && Covers(rs[|rs| - 1], p)
    ensures NonePuts(rs[..|rs| - 1], p)
  {
    forall i | 0 <= i < |rs| - 1 ensures !Covers(rs[i], p) {
      assert Disjoint(rs[i], rs[|rs| - 1]);
    }
  }

  lemma NoneAtAll(rs: seq<Request>, p: nat)
    requires rs != [] && NonePuts(rs[..|rs| - 1], p) && !Covers(rs[|rs| - 1], p)
    ensures NonePuts(rs, p)
  {
    forall i | 0 <= i < |rs| ensures !Covers(rs[i], p) {
      if i < |rs| - 1 { assert rs[i] == rs[..|rs| - 1][i]; }
    }
  }

  /** Merging changes neither which bytes are written nor with what. */
  lemma {:induction false} MergePuts(rs: seq<Request>, out: seq<Request>, p: nat, v: byte)
    requires MergedTo(rs, out) && WellFormed(rs) && NoOverlap(rs)
    ensures SomePuts(out, p, v) <==> SomePuts(rs, p, v)
    decreases |rs|
  {
    if |rs| > 1 {
      if rs[1].sector <= rs[0].sector + rs[0].nb {
        var m :| Merges(rs[0], rs[1], m) && MergedTo([m] + rs[2..], out);
        MergedHead(rs, m);
        MergePuts([m] + rs[2..], out, p, v);
        MergeTwoPuts(rs, m, p, v);
      } else {
        TailOk(rs);
        MergePuts(rs[1..], out[1..], p, v);
        PutsTail(rs, p, v);
        PutsTail(out, p, v);
      }
    }
  }

  lemma PutsTail(rs: seq<Request>, p: nat, v: byte)
    requires rs != []
    ensures SomePuts(rs, p, v) <==> Puts(rs[0], p, v) || SomePuts(rs[1..], p, v)
  {
    if SomePuts(rs, p, v) {
      var i :| 0 <= i < |rs| && Puts(rs[i], p, v);
      if i > 0 { assert Puts(rs[1..][i - 1], p, v); }
    }
    if SomePuts(rs[1..], p, v) {
      var i :| 0 <= i < |rs[1..]| && Puts(rs[1..][i], p, v);
      assert Puts(rs[i + 1], p, v);
    }
  }

  lemma MergeTwoPuts(rs: seq<Request>, m: Request, p: nat, v: byte)
    requires |rs| > 1 && Merges(rs[0], rs[1], m) && rs[1].sector == rs[0].sector + rs[0].nb
    requires Consistent(rs[0]) && Consistent(rs[1])
    ensures SomePuts([m] + rs[2..], p, v) <==> SomePuts(rs, p, v)
  {
    ExactMerge(rs[0], rs[1], m);
    PutsTail(rs, p, v);
    PutsTail(rs[1..], p, v);
    PutsTail([m] + rs[2..], p, v);
    assert rs[1..][1..] == rs[2..] == ([m] + rs[2..])[1..];
    assert Puts(m, p, v) <==> Puts(rs[0], p, v) || Puts(rs[1], p, v);
  }

  /** Merged requests are sorted and still do not overlap, and end no later. */
  lemma {:induction false} MergeKeepsOrder(rs: seq<Request>, out: seq<Request>, n: nat)
    requires MergedTo(rs, out) && WellFormed(rs) && NoOverlap(rs) && InBounds(rs, n)
    ensures NoOverlap(out) && InBounds(out, n)
    ensures rs != [] ==> out != [] && out[0].sector == rs[0].sector
    decreases |rs|
  {
    if |rs| > 1 {
      if rs[1].sector <= rs[0].sector + rs[0].nb {
        var m :| Merges(rs[0], rs[1], m) && MergedTo([m] + rs[2..], out);
        MergedHead(rs, m);
        assert InBounds([m] + rs[2..], n);
        MergeKeepsOrder([m] + rs[2..], out, n);
      } else {
        TailOk(rs);
        MergeKeepsOrder(rs[1..], out[1..], n);
        OrderFromTail(out, n);
      }
    }
  }

  lemma OrderFromTail(out: seq<Request>, n: nat)
    requires |out| > 1 && NoOverlap(out[1..]) && InBounds(out[1..], n)
    requires out[0].sector + out[0].nb <= out[1].sector && 512 * (out[0].sector + out[0].nb) <= n
    ensures NoOverlap(out) && InBounds(out, n)
  {
    assert forall i :: 0 < i < |out| ==> out[i] == out[1..][i - 1];
  }

  lemma SortedNoOverlap(rs: seq<Request>)
    requires NoOverlap(rs)
    ensures Sorted(rs) && PairwiseDisjoint(rs)
  {
    forall i, j | 0 <= i < j < |rs| ensures rs[i].sector + rs[i].nb <= rs[j].sector {
      Chain(rs, i, j);
    }
  }

  lemma {:induction false} Chain(rs: seq<Request>, i: nat, j: nat)
    requires NoOverlap(rs) && i < j < |rs|
    ensures rs[i].sector + rs[i].nb <= rs[j].sector
    decreases j - i
  {
    if i + 1 < j { Chain(rs, i + 1, j); }
  }

  lemma SamePuts(a: seq<Request>, b: seq<Request>, p: nat, v: byte)
    requires multiset(a) == multiset(b) && SomePuts(a, p, v)
    ensures SomePuts(b, p, v)
  {
    var i :| 0 <= i < |a| && Puts(a[i], p, v);
    assert a[i] in multiset(a);
    var j :| 0 <= j < |b| && b[j] == a[i];
    assert Puts(b[j], p, v);
  }

  lemma FitsAnyOrder(a: seq<Request>, b: seq<Request>)
    requires multiset(a) == multiset(b) && DifferencesFit(a)
    ensures DifferencesFit(b)
  {
    forall x | x in b ensures x in a { assert x in multiset(b); }
  }

  /** Write merging preserves meaning. For pairwise disjoint well-formed requests in any order
      whose distances fit an int, sorted as the comparator has it, writing the merged requests
      leaves the same disk as writing the originals. */
  lemma MergePreservesMeaning(b: seq<byte>, reqs: seq<Request>, sorted: seq<Request>, out: seq<Request>)
    requires WellFormed(reqs) && PairwiseDisjoint(reqs) && InBounds(reqs, |b|)
    requires multiset(sorted) == multiset(reqs) && DifferencesFit(reqs) && Ordered(sorted) && MergedTo(sorted, out)
    ensures WellFormed(out) && InBounds(out, |b|)
    ensures WriteAll(b, out) == WriteAll(b, reqs)
  {
    FitsAnyOrder(reqs, sorted);
    ComparatorSorts(sorted);
    SortedInherits(reqs, sorted, |b|);
    DisjointIff(sorted);
    DisjointStaysConsistent(sorted, out);
    MergeKeepsOrder(sorted, out, |b|);
    SortedNoOverlap(out);
    forall p: nat | p < |b| ensures WriteAll(b, out)[p] == WriteAll(b, reqs)[p] {
      WriteAllAt(b, out, p);
      WriteAllAt(b, reqs, p);
      SameByte(b, reqs, sorted, out, p);
    }
  }

  lemma SameByte(b: seq<byte>, reqs: seq<Request>, sorted: seq<Request>, out: seq<Request>, p: nat)
    requires WellFormed(reqs) && WellFormed(sorted) && WellFormed(out)
    requires InBounds(out, |b|) && InBounds(reqs, |b|) && p < |b|
    requires multiset(sorted) == multiset(reqs) && MergedTo(sorted, out) && NoOverlap(sorted)
    requires NonePuts(reqs, p) ==> WriteAll(b, reqs)[p] == b[p]
    requires NonePuts(out, p) ==> WriteAll(b, out)[p] == b[p]
    requires !NonePuts(reqs, p) ==> SomePuts(reqs, p, WriteAll(b, reqs)[p])
    requires !NonePuts(out, p) ==> SomePuts(out, p, WriteAll(b, out)[p])
    requires forall v :: SomePuts(out, p, v) ==> WriteAll(b, out)[p] == v
    ensures WriteAll(b, out)[p] == WriteAll(b, reqs)[p]
  {
    if !NonePuts(reqs, p) {
      var v := WriteAll(b, reqs)[p];
      SamePuts(reqs, sorted, p, v);
      MergePuts(sorted, out, p, v);
    } else if !NonePuts(out, p) {
      var v := WriteAll(b, out)[p];
      MergePuts(sorted, out, p, v);
      SamePuts(sorted, reqs, p, v);
    }
  }

  /** A sorted permutation of disjoint well-formed requests is disjoint and well-formed. */
  lemma SortedInherits(reqs: seq<Request>, sorted: seq<Request>, n: nat)
    requires WellFormed(reqs) && PairwiseDisjoint(reqs) && InBounds(reqs, n) && multiset(sorted) == multiset(reqs)
    ensures WellFormed(sorted) && PairwiseDisjoint(sorted) && InBounds(sorted, n)
  {
    forall i | 0 <= i < |sorted|
      ensures Consistent(sorted[i]) && sorted[i].nb > 0 && 512 * (sorted[i].sector + sorted[i].nb) <= n
    {
      assert sorted[i] in multiset(reqs);
    }
    forall i, j | 0 <= i < j < |sorted| ensures Disjoint(sorted[i], sorted[j]) {
      TwoPlaces(reqs, sorted, i, j);
    }
  }

  lemma TwoPlaces(reqs: seq<Request>, sorted: seq<Request>, i: nat, j: nat)
    requires multiset(sorted) == multiset(reqs) && i < j < |sorted|
    ensures exists k, l :: 0 <= k < |reqs| && 0 <= l < |reqs| && k != l && reqs[k] == sorted[i] && reqs[l] == sorted[j]
  {
    var x, y := sorted[i], sorted[j];
    assert x in multiset(reqs) && y in multiset(reqs);
    var k :| 0 <= k < |reqs| && reqs[k] == x;
    if x != y {
      var l :| 0 <= l < |reqs| && reqs[l] == y;
      assert k != l;
    } else {
      CountsTwo(sorted, i, j);
      var l := SecondPlace(reqs, k);
    }
  }

  lemma CountsTwo(s: seq<Request>, i: nat, j: nat)
    requires i < j < |s| && s[i] == s[j]
    ensures multiset(s)[s[i]] >= 2
  {
    assert s == s[..j] + s[j..];
    assert s[..j][i] == s[i] && s[j..][0] == s[i];
    assert multiset(s) == multiset(s[..j]) + multiset(s[j..]);
  }

  lemma SecondPlace(s: seq<Request>, k: nat) returns (l: nat)
    requires k < |s| && multiset(s)[s[k]] >= 2
    ensures l < |s| && l != k && s[l] == s[k]
  {
    var x, others := s[k], s[..k] + s[k + 1..];
    assert s == s[..k] + [x] + s[k + 1..];
    assert multiset(s) == multiset(others) + multiset{x};
    assert x in multiset(others);
    var o :| 0 <= o < |others| && others[o] == x;
    l := if o < k then o else o + 1;
  }
}
