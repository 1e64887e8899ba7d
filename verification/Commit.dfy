/**
 Committing a copy-on-write overlay into its backing image, sector by sector and
 run by run. The visible disk never changes while the backing image takes over.
 */
module Commit {
  import opened Disk
  import opened Errno

  /** The disk a guest sees: the overlay where it has a sector, else the backing image,
      and the sector `beyond` (zeros) past its end. */
  function Visible(overlay: map<nat, Sector>, backing: Image, beyond: Sector, k: nat): Sector {
    if k in overlay then overlay[k] else if k < |backing| then backing[k] else beyond
  }

  function View(overlay: map<nat, Sector>, backing: Image, beyond: Sector, total: nat): (v: Image)
    ensures |v| == total && forall k :: 0 <= k < total ==> v[k] == Visible(overlay, backing, beyond, k)
  {
    if total == 0 then []
    else View(overlay, backing, beyond, total - 1) + [Visible(overlay, backing, beyond, total - 1)]
  }

  /** Sectors below n have been committed: they hold their visible contents, and nothing
      else of the backing image has changed. */
  ghost predicate Committed(overlay: map<nat, Sector>, before: Image, after: Image, beyond: Sector, n: nat) {
    && |after| == |before|
    && forall k: nat :: k < |before| ==> after[k] == if k < n then Visible(overlay, before, beyond, k) else before[k]
  }

  lemma SameView(o1: map<nat, Sector>, b1: Image, o2: map<nat, Sector>, b2: Image, beyond: Sector, total: nat)
    requires forall k: nat :: k < total ==> Visible(o1, b1, beyond, k) == Visible(o2, b2, beyond, k)
    ensures View(o1, b1, beyond, total) == View(o2, b2, beyond, total)
  {
  }

  /** However far a commit has got, the visible disk is the same. */
  lemma CommitKeepsView(overlay: map<nat, Sector>, before: Image, after: Image, beyond: Sector, n: nat, total: nat)
    requires Committed(overlay, before, after, beyond, n)
    ensures View(overlay, after, beyond, total) == View(overlay, before, beyond, total)
  {
    SameView(overlay, after, overlay, before, beyond, total);
  }

  /** Once it has got everywhere, the visible disk is the same with any part of the overlay left,
      or none of it. */
  lemma EmptyKeepsView(overlay: map<nat, Sector>, rest: map<nat, Sector>, before: Image, after: Image, beyond: Sector,
                       total: nat)
    requires Committed(overlay, before, after, beyond, total)
    requires forall k :: k in overlay ==> k < |before|
    requires forall k :: k in rest ==> k in overlay && rest[k] == overlay[k]
    ensures View(rest, after, beyond, total) == View(overlay, before, beyond, total)
  {
    SameView(rest, after, overlay, before, beyond, total);
  }

  /** A sector the commit can read from the overlay and write to the backing image. */
  predicate Committable(backing: Image, io: nat -> bool, k: nat) {
    k < |backing| && io(k)
  }

  /** Sector n of the overlay is the first that cannot be committed. */
  ghost predicate FirstBad(overlay: map<nat, Sector>, backing: Image, io: nat -> bool, n: nat) {
    && n in overlay && !Committable(backing, io, n)
    && forall k: nat :: k < n && k in overlay ==> Committable(backing, io, k)
  }

  class CowImage {
    var inserted: bool
    var readOnly: bool
    var hasBacking: bool
    var canEmpty: bool
    const total: nat
    const beyond: Sector
    var overlay: map<nat, Sector>
    var backing: Image

    constructor (total: nat, beyond: Sector, overlay: map<nat, Sector>, backing: Image, canEmpty: bool)
      requires forall k :: k in overlay ==> k < total
      ensures Valid() && this.overlay == overlay && this.backing == backing && this.total == total
    {
      this.total, this.beyond, this.overlay, this.backing, this.canEmpty := total, beyond, overlay, backing, canEmpty;
      inserted, readOnly, hasBacking := true, false, true;
    }

    ghost predicate Valid()
      reads this
    {
      forall k :: k in overlay ==> k < total
    }

    /** Copy a run of n allocated sectors, one by one, up to the first that fails. */
    method CommitRun(i: nat, n: nat, io: nat -> bool, ghost before: Image) returns (done: nat)
      requires forall k :: i <= k < i + n ==> k in overlay
      requires Committed(overlay, before, backing, beyond, i)
      modifies this`backing
      ensures done <= n && Committed(overlay, before, backing, beyond, i + done)
      ensures forall k :: i <= k < i + done ==> Committable(before, io, k)
      ensures done < n ==> !Committable(before, io, i + done)
    {
      done := 0;
      while done < n
        invariant done <= n && Committed(overlay, before, backing, beyond, i + done)
        invariant forall k :: i <= k < i + done ==> Committable(before, io, k)
      {
        var k := i + done;
        if k >= |backing| || !io(k) { return; }
        backing := backing[k := overlay[k]];
        done := done + 1;
      }
    }

    /** The loop over the runs; it stops at the first sector that cannot be committed, or behind the last. */
    method CommitSectors(run: nat -> nat, io: nat -> bool) returns (n: nat)
      requires Valid()
      requires forall i: nat :: i < total ==>
                 1 <= run(i) <= total - i && forall k :: i <= k < i + run(i) ==> (k in overlay <==> i in overlay)
      modifies this`backing
      ensures n <= total && Committed(overlay, old(backing), backing, beyond, n)
      ensures forall k: nat :: k < n && k in overlay ==> Committable(old(backing), io, k)
      ensures n < total ==> n in overlay && !Committable(old(backing), io, n)
    {
      n := 0;
      while n < total
        invariant n <= total && Committed(overlay, old(backing), backing, beyond, n)
        invariant forall k: nat :: k < n && k in overlay ==> Committable(old(backing), io, k)
      {
        var length := run(n);
        if n in overlay {
          var done := CommitRun(n, length, io, old(backing));
          if done < length { return n + done; }
        }
        n := n + length;
      }
    }

    /** bdrv_commit. `run(i)` is the run length bdrv_is_allocated reports at i; `io(i)` says
        whether reading and writing sector i succeed; `emptied` is what bdrv_make_empty returns, and
        `kept` the sectors it leaves in the overlay if that is an error. */
    method Commit(run: nat -> nat, io: nat -> bool, emptied: int, kept: set<nat>) returns (ret: int)
      requires Valid()
      requires forall i: nat :: i < total ==>
                 1 <= run(i) <= total - i && forall k :: i <= k < i + run(i) ==> (k in overlay <==> i in overlay)
      modifies this`overlay, this`backing
      ensures Valid() && |backing| == |old(backing)|
      ensures View(overlay, backing, beyond, total) == View(old(overlay), old(backing), beyond, total)
      ensures !inserted ==> ret == -ENOMEDIUM
      ensures inserted && readOnly ==> ret == -EACCES
      ensures inserted && !readOnly && !hasBacking ==> ret == -ENOTSUP
      ensures !inserted || readOnly || !hasBacking ==> overlay == old(overlay) && backing == old(backing)
      ensures inserted && !readOnly && hasBacking ==>
                var all := forall k: nat :: k in old(overlay) ==> Committable(old(backing), io, k);
                && ret == (if !all then -EIO else if canEmpty then emptied else 0)
                && (all ==> Committed(old(overlay), old(backing), backing, beyond, total))
                && (!all ==> exists n :: FirstBad(old(overlay), old(backing), io, n)
                                         && Committed(old(overlay), old(backing), backing, beyond, n))
                && (all && canEmpty && emptied == 0 ==> overlay == map[])
                && (!all || !canEmpty ==> overlay == old(overlay))
    {
      if !inserted { return -ENOMEDIUM; }
      if readOnly { return -EACCES; }
      if !hasBacking { return -ENOTSUP; }
      var n := CommitSectors(run, io);
      CommitKeepsView(overlay, old(backing), backing, beyond, n, total);
      if n < total {
        assert FirstBad(overlay, old(backing), io, n);
        return -EIO;
      }
      if canEmpty {
        var rest := if emptied == 0 then map[] else map k | k in overlay && k in kept :: overlay[k];
        EmptyKeepsView(overlay, rest, old(backing), backing, beyond, total);
        overlay := rest;
        return emptied;
      }
      return 0;
    }
  }
}
