/** Extent records and the lists of them that fill a leaf of the extent tree (alloc.c).  A list is
    given as a sequence, on which the tree proofs work, and as the array with its
    `next free` count that the driver shifts in place. */
module ExtentLeaf {
  /** A leaf record: a run of clusters.  Physical addresses are in clusters. */
  datatype Rec = Rec(cpos: int, clusters: int, phys: int, flags: bv8)

  /** An empty extent, as memset leaves it. */
  const NOREC := Rec(0, 0, 0, 0)

  predicate Empty(r: Rec) {
    r.clusters == 0
  }

  function End(r: Rec): int {
    r.cpos + r.clusters
  }

  predicate Covers(r: Rec, c: int) {
    r.cpos <= c < End(r)
  }

  predicate HasEmpty(s: seq<Rec>) {
    |s| > 0 && Empty(s[0])
  }

  /** The list without the empty extent it may begin with. */
  function Solid(s: seq<Rec>): seq<Rec> {
    if HasEmpty(s) then s[1..] else s
  }

  // ----- What a list of records maps -----

  datatype Cell = Hole | Mapped(phys: int, flags: bv8)

  function CellOf(r: Rec, c: int): Cell {
    Mapped(r.phys + (c - r.cpos), r.flags)
  }

  /** The mapping of cluster c by the first n records. */
  function AtUpTo(s: seq<Rec>, n: nat, c: int): Cell
    requires n <= |s|
  {
    if n == 0 then Hole
    else if Covers(s[n - 1], c) then CellOf(s[n - 1], c)
    else AtUpTo(s, n - 1, c)
  }

  function At(s: seq<Rec>, c: int): Cell {
    AtUpTo(s, |s|, c)
  }

  /** Non-empty records in order, disjoint. */
  predicate Sorted(s: seq<Rec>) {
    && (forall i :: 0 <= i < |s| ==> s[i].clusters > 0 && s[i].cpos >= 0)
    && (forall i, j :: 0 <= i < j < |s| ==> End(s[i]) <= s[j].cpos)
  }

  lemma {:induction false} AtPrefix(s: seq<Rec>, t: seq<Rec>, n: nat, c: int)
    requires n <= |s| && n <= |t| && s[..n] == t[..n]
    ensures AtUpTo(s, n, c) == AtUpTo(t, n, c)
  {
    if n > 0 {
      assert s[n - 1] == s[..n][n - 1] == t[..n][n - 1] == t[n - 1];
      assert s[..n - 1] == s[..n][..n - 1] == t[..n][..n - 1] == t[..n - 1];
      AtPrefix(s, t, n - 1, c);
    }
  }

  /** The later list decides, and the earlier one is asked where the later has a hole. */
  lemma {:induction false} AtConcat(s: seq<Rec>, t: seq<Rec>, c: int)
    ensures At(s + t, c) == if At(t, c) != Hole then At(t, c) else At(s, c)
    decreases |t|
  {
    if t == [] {
      assert s + t == s;
    } else {
      var t' := t[..|t| - 1];
      AtConcat(s, t', c);
      assert (s + t)[..|s + t| - 1] == (s + t')[..|s + t'|];
      AtPrefix(s + t, s + t', |s + t'|, c);
      AtPrefix(t, t', |t'|, c);
    }
  }

  lemma At1(r: Rec, c: int)
    ensures At([r], c) == if Covers(r, c) then CellOf(r, c) else Hole
  {
    assert AtUpTo([r], 0, c) == Hole;
  }

  lemma {:induction false} AtHit(s: seq<Rec>, n: nat, k: nat, c: int)
    requires Sorted(s) && k < n <= |s| && Covers(s[k], c)
    ensures AtUpTo(s, n, c) == CellOf(s[k], c)
  {
    if k < n - 1 {
      AtHit(s, n - 1, k, c);
    }
  }

  lemma {:induction false} AtMiss(s: seq<Rec>, n: nat, c: int)
    requires n <= |s| && forall i :: 0 <= i < n ==> !Covers(s[i], c)
    ensures AtUpTo(s, n, c) == Hole
  {
    if n > 0 {
      AtMiss(s, n - 1, c);
    }
  }

  /** A cluster is mapped exactly when a record covers it. */
  lemma {:induction false} AtHole(s: seq<Rec>, n: nat, c: int)
    requires n <= |s|
    ensures AtUpTo(s, n, c) == Hole <==> forall i :: 0 <= i < n ==> !Covers(s[i], c)
  {
    if n > 0 {
      AtHole(s, n - 1, c);
    }
  }

  // ----- List operations -----

  /** The index at which a record of this offset goes: before the first one that starts later. */
  function InsertIndexFrom(s: seq<Rec>, cpos: int, i: nat): (k: nat)
    requires i <= |s|
    ensures i <= k <= |s|
    ensures forall j :: i <= j < k ==> s[j].cpos <= cpos
    ensures k < |s| ==> cpos < s[k].cpos
    decreases |s| - i
  {
    if i == |s| || cpos < s[i].cpos then i else InsertIndexFrom(s, cpos, i + 1)
  }

  function InsertIndex(s: seq<Rec>, cpos: int): (k: nat)
    ensures k <= |s|
    ensures forall j :: 0 <= j < k ==> s[j].cpos <= cpos
    ensures k < |s| ==> cpos < s[k].cpos
  {
    InsertIndexFrom(s, cpos, 0)
  }

  function InsertAt(s: seq<Rec>, k: nat, r: Rec): seq<Rec>
    requires k <= |s|
  {
    s[..k] + [r] + s[k..]
  }

  function InsertSorted(s: seq<Rec>, r: Rec): seq<Rec> {
    InsertAt(s, InsertIndex(s, r.cpos), r)
  }

  /** ocfs2_rotate_leaf(). */
  function RotateLeaf(s: seq<Rec>, r: Rec): seq<Rec> {
    InsertSorted(Solid(s), r)
  }

  /** ocfs2_create_empty_extent(). */
  function CreateEmpty(s: seq<Rec>): (r: seq<Rec>)
    ensures r != [] && Empty(r[0]) && Solid(r) == Solid(s)
  {
    if HasEmpty(s) then s else [NOREC] + s
  }

  /** ocfs2_cleanup_merge(): a record that was used up makes way for an empty extent in front. */
  function CleanupMerge(s: seq<Rec>, index: nat): seq<Rec>
    requires index < |s|
  {
    if Empty(s[index]) then [NOREC] + s[..index] + s[index + 1..] else s
  }

  /** ocfs2_search_extent_list(). */
  function SearchFrom(s: seq<Rec>, c: int, i: nat): (k: int)
    requires i <= |s|
    ensures k == -1 || (i <= k < |s| && Covers(s[k], c))
    ensures k == -1 ==> forall j :: i <= j < |s| ==> !Covers(s[j], c)
    ensures k >= 0 ==> forall j :: i <= j < k ==> !Covers(s[j], c)
    decreases |s| - i
  {
    if i == |s| then -1 else if Covers(s[i], c) then i else SearchFrom(s, c, i + 1)
  }

  function Search(s: seq<Rec>, c: int): (k: int)
    ensures k == -1 || (0 <= k < |s| && Covers(s[k], c))
    ensures k == -1 ==> forall j :: 0 <= j < |s| ==> !Covers(s[j], c)
    ensures k >= 0 ==> forall j :: 0 <= j < k ==> !Covers(s[j], c)
  {
    SearchFrom(s, c, 0)
  }

  datatype Contig = ContigNone | ContigLeft | ContigRight | ContigLeftRight
  datatype Split = SplitNone | SplitLeft | SplitRight

  /** ocfs2_extent_rec_contig(): is `r` a continuation of `ext`, or the other way round? */
  function RecContig(ext: Rec, r: Rec): Contig {
    if ext.flags != r.flags then ContigNone
    else if End(ext) == r.cpos && ext.phys + ext.clusters == r.phys then ContigRight
    else if End(r) == ext.cpos && r.phys + r.clusters == ext.phys then ContigLeft
    else ContigNone
  }

  /** ocfs2_subtract_from_rec(). */
  function Subtract(r: Rec, piece: Rec, split: Split): Rec {
    if split == SplitLeft then
      r.(cpos := r.cpos + piece.clusters, phys := r.phys + piece.clusters, clusters := r.clusters - piece.clusters)
    else r.(clusters := r.clusters - piece.clusters)
  }

  // ----- The list in place -----

  /** An extent list as it lies in its block. */
  class ExtentList {
    const recs: array<Rec>
    var nextFree: nat

    ghost predicate Valid()
      reads this
    {
      nextFree <= recs.Length
    }

    ghost function Contents(): seq<Rec>
      requires Valid()
      reads this, recs
    {
      recs[..nextFree]
    }

    constructor (count: nat)
      ensures Valid() && fresh(recs) && recs.Length == count && Contents() == []
    {
      recs := new Rec[count](_ => NOREC);
      nextFree := 0;
    }

    /** memmove() of `n` records from index `from` to the slot after. */
    method MoveUp(from: nat, n: nat)
      requires from + n < recs.Length
      modifies recs
      ensures forall k :: 0 <= k < recs.Length ==>
                recs[k] == if from < k <= from + n then old(recs[k - 1]) else old(recs[k])
    {
      var i := n;
      while i > 0
        invariant 0 <= i <= n
        invariant forall k :: from + 1 + i <= k < from + 1 + n ==> recs[k] == old(recs[k - 1])
        invariant forall k :: 0 <= k < recs.Length && !(from + 1 + i <= k < from + 1 + n) ==> recs[k] == old(recs[k])
      {
        i := i - 1;
        recs[from + i + 1] := recs[from + i];
      }
    }

    method MoveDown()
      requires Valid() && nextFree > 0
      modifies recs
      ensures forall k :: 0 <= k < nextFree - 1 ==> recs[k] == old(recs[k + 1])
      ensures forall k :: nextFree - 1 <= k < recs.Length ==> recs[k] == old(recs[k])
    {
      var i := 0;
      while i < nextFree - 1
        invariant 0 <= i <= nextFree - 1
        invariant forall k :: 0 <= k < i ==> recs[k] == old(recs[k + 1])
        invariant forall k :: i <= k < recs.Length ==> recs[k] == old(recs[k])
      {
        recs[i] := recs[i + 1];
        i := i + 1;
      }
    }

    /** ocfs2_shift_records_right(). */
    method ShiftRecordsRight()
      requires Valid() && 0 < nextFree < recs.Length
      modifies recs
      ensures recs[1..nextFree + 1] == old(Contents())
    {
      MoveUp(0, nextFree);
    }

    /** Open a slot at index k for a record. */
    method InsertRec(k: nat, r: Rec)
      requires Valid() && k <= nextFree < recs.Length
      modifies this, recs
      ensures Valid() && nextFree == old(nextFree) + 1 && Contents() == InsertAt(old(Contents()), k, r)
    {
      ghost var was := Contents();
      MoveUp(k, nextFree - k);
      recs[k] := r;
      nextFree := nextFree + 1;
      assert Contents()[..k] == was[..k];
      assert Contents()[k + 1..] == was[k..];
    }

    method FindSlot(cpos: int) returns (k: nat)
      requires Valid()
      ensures k == InsertIndex(Contents(), cpos)
    {
      k := 0;
      while k < nextFree && cpos >= recs[k].cpos
        invariant 0 <= k <= nextFree
        invariant InsertIndexFrom(Contents(), cpos, k) == InsertIndex(Contents(), cpos)
      {
        k := k + 1;
      }
    }

    /** ocfs2_rotate_leaf(): drop the empty extent, then open a slot where the record belongs. */
    method RotateIn(r: Rec)
      requires Valid() && nextFree > 0 && (nextFree < recs.Length || HasEmpty(Contents()))
      modifies this, recs
      ensures Valid() && Contents() == RotateLeaf(old(Contents()), r)
    {
      hide InsertIndex, InsertAt;
      ghost var was := Contents();
      if recs[0].clusters == 0 {
        MoveDown();
        nextFree := nextFree - 1;
      }
      assert Contents() == Solid(was);
      var k := FindSlot(r.cpos);
      InsertRec(k, r);
    }

    /** ocfs2_remove_empty_extent(). */
    method RemoveEmptyExtent()
      requires Valid() && nextFree > 0
      modifies this, recs
      ensures Valid() && Contents() == Solid(old(Contents()))
    {
      if recs[0].clusters == 0 {
        MoveDown();
        nextFree := nextFree - 1;
        recs[nextFree] := NOREC;
      }
    }

    /** ocfs2_create_empty_extent(). */
    method CreateEmptyExtent()
      requires Valid() && (nextFree < recs.Length || HasEmpty(Contents()))
      modifies this, recs
      ensures Valid() && Contents() == CreateEmpty(old(Contents()))
    {
      ghost var was := Contents();
      if nextFree != 0 {
        if recs[0].clusters == 0 {
          return;
        }
        ShiftRecordsRight();
      }
      nextFree := nextFree + 1;
      recs[0] := NOREC;
      assert Contents() == [NOREC] + was;
    }

    /** ocfs2_cleanup_merge(). */
    method CleanupAfterMerge(index: nat)
      requires Valid() && index < nextFree
      requires index > 0 ==> !HasEmpty(Contents())
      modifies recs
      ensures Contents() == CleanupMerge(old(Contents()), index)
    {
      ghost var was := Contents();
      if recs[index].clusters != 0 {
        return;
      }
      if index > 0 {
        MoveUp(0, index);
      }
      recs[0] := NOREC;
      assert forall k :: 1 <= k <= index ==> recs[k] == was[k - 1];
      assert forall k :: index < k < nextFree ==> recs[k] == was[k];
      assert Contents() == [NOREC] + was[..index] + was[index + 1..];
    }

    /** Drop the last record and shift the rest, leaving an empty extent in front. */
    method RotateOut()
      requires Valid() && nextFree > 0
      modifies this`nextFree, recs
      ensures Valid() && Contents() == [NOREC] + old(Contents())[..old(nextFree) - 1]
    {
      ghost var was := Contents();
      nextFree := nextFree - 1;
      if nextFree > 0 {
        ShiftRecordsRight();
      }
      recs[0] := NOREC;
      nextFree := nextFree + 1;
      assert Contents()[1..] == was[..|was| - 1];
    }

    /** The rotation of one record to the leaf on the right: it takes the empty slot there and
        leaves one here. */
    method RotateOutTo(right: ExtentList)
      requires Valid() && right.Valid() && right != this && right.recs != recs && nextFree > 0
      requires right.nextFree < right.recs.Length || HasEmpty(right.Contents())
      modifies this`nextFree, recs, right, right.recs
      ensures Valid() && right.Valid()
      ensures var l, r := old(Contents()), CreateEmpty(old(right.Contents()));
        && Contents() == [NOREC] + l[..|l| - 1]
        && right.Contents() == [l[|l| - 1]] + r[1..]
    {
      right.CreateEmptyExtent();
      ghost var r := right.Contents();
      right.recs[0] := recs[nextFree - 1];
      assert right.Contents()[1..] == r[1..];
      RotateOut();
    }
  }
}
