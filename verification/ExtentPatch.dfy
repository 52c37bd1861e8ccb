/** What a change to a list of extent records does to the mapping of clusters: each operation on
    leaves is a point update of that mapping. */
module ExtentPatch {
  import opened ExtentLeaf

  /** `t` maps the clusters of r as r says, and all others as `s` does. */
  ghost predicate Updated(s: seq<Rec>, t: seq<Rec>, r: Rec) {
    forall c :: At(t, c) == if Covers(r, c) then CellOf(r, c) else At(s, c)
  }

  /** `t` has a hole from lo to hi, and maps the other clusters as `s` does. */
  ghost predicate Removed(s: seq<Rec>, t: seq<Rec>, lo: int, hi: int) {
    forall c :: At(t, c) == if lo <= c < hi then Hole else At(s, c)
  }

  ghost predicate SameMap(s: seq<Rec>, t: seq<Rec>) {
    forall c :: At(t, c) == At(s, c)
  }

  /** The record overlaps none of the list. */
  predicate Apart(s: seq<Rec>, r: Rec) {
    forall i :: 0 <= i < |s| ==> End(s[i]) <= r.cpos || End(r) <= s[i].cpos
  }

  lemma At3(x: seq<Rec>, m: seq<Rec>, z: seq<Rec>, c: int)
    ensures At(x + m + z, c) == if At(z, c) != Hole then At(z, c) else if At(m, c) != Hole then At(m, c) else At(x, c)
  {
    AtConcat(x + m, z, c);
    AtConcat(x, m, c);
  }

  /** Nothing is mapped where no record is. */
  lemma ApartHole(s: seq<Rec>, r: Rec, c: int)
    requires Apart(s, r) && Covers(r, c)
    ensures At(s, c) == Hole
  {
    AtMiss(s, |s|, c);
  }

  /** A point update of the middle is one of the whole, if what comes later is not concerned. */
  lemma UpdatedAmid(x: seq<Rec>, m: seq<Rec>, m': seq<Rec>, z: seq<Rec>, r: Rec)
    requires Updated(m, m', r) && Apart(z, r)
    ensures Updated(x + m + z, x + m' + z, r)
  {
    forall c
      ensures At(x + m' + z, c) == if Covers(r, c) then CellOf(r, c) else At(x + m + z, c)
    {
      At3(x, m, z, c);
      At3(x, m', z, c);
      if Covers(r, c) {
        ApartHole(z, r, c);
      }
    }
  }

  lemma RemovedAmid(x: seq<Rec>, m: seq<Rec>, m': seq<Rec>, z: seq<Rec>, lo: int, hi: int)
    requires Removed(m, m', lo, hi) && Apart(x, Rec(lo, hi - lo, 0, 0)) && Apart(z, Rec(lo, hi - lo, 0, 0))
    ensures Removed(x + m + z, x + m' + z, lo, hi)
  {
    forall c
      ensures At(x + m' + z, c) == if lo <= c < hi then Hole else At(x + m + z, c)
    {
      At3(x, m, z, c);
      At3(x, m', z, c);
      if lo <= c < hi {
        ApartHole(z, Rec(lo, hi - lo, 0, 0), c);
        ApartHole(x, Rec(lo, hi - lo, 0, 0), c);
      }
    }
  }

  // ----- Inserting -----

  lemma InsertAtUpdates(x: seq<Rec>, z: seq<Rec>, r: Rec)
    requires Apart(z, r)
    ensures Updated(x + z, x + [r] + z, r)
  {
    forall c
      ensures At(x + [r] + z, c) == if Covers(r, c) then CellOf(r, c) else At(x + z, c)
    {
      At3(x, [r], z, c);
      At1(r, c);
      AtConcat(x, z, c);
      if Covers(r, c) {
        ApartHole(z, r, c);
      }
    }
  }

  /** A record that overlaps nothing goes to its place and adds its clusters to the mapping. */
  lemma InsertSortedUpdates(s: seq<Rec>, r: Rec)
    requires Sorted(s) && Apart(s, r) && r.clusters > 0 && r.cpos >= 0
    ensures Sorted(InsertSorted(s, r)) && Updated(s, InsertSorted(s, r), r)
  {
    var k := InsertIndex(s, r.cpos);
    assert s == s[..k] + s[k..];
    assert Apart(s[k..], r);
    InsertAtUpdates(s[..k], s[k..], r);
    InsertSortedSorted(s, r);
  }

  lemma InsertSortedSorted(s: seq<Rec>, r: Rec)
    requires Sorted(s) && Apart(s, r) && r.clusters > 0 && r.cpos >= 0
    ensures Sorted(InsertSorted(s, r))
  {
    hide InsertIndexFrom;
    var k := InsertIndex(s, r.cpos);
    assert forall i :: 0 <= i < k ==> End(s[i]) <= r.cpos;
    assert forall i :: k <= i < |s| ==> End(r) <= s[i].cpos by {
      if k < |s| {
        assert End(r) <= s[k].cpos;
      }
    }
    SortedInsert(s[..k], r, s[k..]);
  }

  lemma SortedInsert(x: seq<Rec>, r: Rec, z: seq<Rec>)
    requires Sorted(x) && Sorted(z) && r.clusters > 0 && r.cpos >= 0
    requires forall i :: 0 <= i < |x| ==> End(x[i]) <= r.cpos
    requires forall i :: 0 <= i < |z| ==> End(r) <= z[i].cpos
    ensures Sorted(x + [r] + z)
  {
    var t := x + [r] + z;
    forall i, j | 0 <= i < j < |t|
      ensures End(t[i]) <= t[j].cpos
    {
      if i < |x| <= j {
        assert End(t[i]) <= r.cpos < End(r);
      }
    }
  }

  /** The record at i grown by a contiguous one. */
  function Grown(a: Rec, contig: Contig, r: Rec): Rec {
    if contig == ContigLeft then Rec(r.cpos, a.clusters + r.clusters, r.phys, a.flags)
    else a.(clusters := a.clusters + r.clusters)
  }

  lemma GrownUpdates(s: seq<Rec>, i: nat, contig: Contig, r: Rec)
    requires Sorted(s) && i < |s| && Apart(s, r) && r.clusters > 0 && r.cpos >= 0
    requires contig == RecContig(s[i], r) && (contig == ContigLeft || contig == ContigRight)
    ensures var t := s[i := Grown(s[i], contig, r)]; Sorted(t) && Updated(s, t, r)
  {
    var t := s[i := Grown(s[i], contig, r)];
    assert s == s[..i] + [s[i]] + s[i + 1..];
    assert t == s[..i] + [t[i]] + s[i + 1..];
    forall c
      ensures At([t[i]], c) == if Covers(r, c) then CellOf(r, c) else At([s[i]], c)
    {
      At1(t[i], c);
      At1(s[i], c);
    }
    assert Apart(s[i + 1..], r);
    UpdatedAmid(s[..i], [s[i]], [t[i]], s[i + 1..], r);
  }

  // ----- Removing -----

  /** What is left of a record from which an edge, or all, is cut: nothing, its right or its left. */
  function Remainder(r: Rec, cpos: int, len: int): seq<Rec> {
    if r.cpos == cpos && End(r) == cpos + len then []
    else if r.cpos == cpos then [Rec(cpos + len, r.clusters - len, r.phys + len, r.flags)]
    else [r.(clusters := r.clusters - len)]
  }

  /** The cut has an edge in common with the record. */
  predicate CutsEdge(r: Rec, cpos: int, len: int) {
    && len > 0 && r.cpos <= cpos && cpos + len <= End(r)
    && (r.cpos == cpos || End(r) == cpos + len)
  }

  lemma RemainderRemoves(r: Rec, cpos: int, len: int)
    requires CutsEdge(r, cpos, len) && r.cpos >= 0
    ensures Removed([r], Remainder(r, cpos, len), cpos, cpos + len)
    ensures forall a :: a in Remainder(r, cpos, len) ==>
              a.clusters > 0 && r.cpos <= a.cpos && End(a) <= End(r)
  {
    var m := Remainder(r, cpos, len);
    forall c
      ensures At(m, c) == if cpos <= c < cpos + len then Hole else At([r], c)
    {
      At1(r, c);
      if m == [] {
        AtMiss(m, 0, c);
      } else {
        At1(m[0], c);
      }
    }
  }

  function CutList(l: seq<Rec>, index: nat, cpos: int, len: int): seq<Rec>
    requires index < |l|
  {
    l[..index] + Remainder(l[index], cpos, len) + l[index + 1..]
  }

  lemma CutRemoves(l: seq<Rec>, index: nat, cpos: int, len: int)
    requires Sorted(l) && index < |l| && CutsEdge(l[index], cpos, len)
    ensures Removed(l, CutList(l, index, cpos, len), cpos, cpos + len)
  {
    var x, z, m := l[..index], l[index + 1..], Remainder(l[index], cpos, len);
    RemainderRemoves(l[index], cpos, len);
    assert l == x + [l[index]] + z;
    RemovedAmid(x, [l[index]], m, z, cpos, cpos + len);
  }

  lemma CutSorted(l: seq<Rec>, index: nat, cpos: int, len: int)
    requires Sorted(l) && index < |l| && CutsEdge(l[index], cpos, len)
    ensures Sorted(CutList(l, index, cpos, len))
  {
    var m := Remainder(l[index], cpos, len);
    RemainderRemoves(l[index], cpos, len);
    if m == [] {
      assert CutList(l, index, cpos, len) == l[..index] + l[index + 1..];
    } else {
      SortedInsert(l[..index], m[0], l[index + 1..]);
    }
  }

  // ----- Splitting -----

  /** The piece is one end of the record, and not all of it. */
  predicate Splits(r: Rec, piece: Rec, split: Split) {
    && split != SplitNone && 0 < piece.clusters < r.clusters
    && (if split == SplitLeft then piece.cpos == r.cpos else End(piece) == End(r))
  }

  /** The record in two, in order. */
  function SplitRec(r: Rec, piece: Rec, split: Split): (t: seq<Rec>)
    ensures |t| == 2
  {
    if split == SplitLeft then [piece, Subtract(r, piece, split)] else [Subtract(r, piece, split), piece]
  }

  function SplitAt(s: seq<Rec>, k: nat, piece: Rec, split: Split): seq<Rec>
    requires k < |s|
  {
    s[..k] + SplitRec(s[k], piece, split) + s[k + 1..]
  }

  lemma SplitRecUpdates(r: Rec, piece: Rec, split: Split)
    requires Splits(r, piece, split) && r.cpos >= 0
    ensures Updated([r], SplitRec(r, piece, split), piece)
    ensures var t := SplitRec(r, piece, split);
      && |t| == 2 && t[0].clusters > 0 && t[1].clusters > 0
      && r.cpos == t[0].cpos && End(t[0]) == t[1].cpos && End(t[1]) == End(r)
  {
    var t := SplitRec(r, piece, split);
    assert t == [t[0]] + [t[1]];
    forall c
      ensures At(t, c) == if Covers(piece, c) then CellOf(piece, c) else At([r], c)
    {
      AtConcat([t[0]], [t[1]], c);
      At1(t[0], c);
      At1(t[1], c);
      At1(r, c);
    }
  }

  /** A split keeps the order and is a point update: the piece maps as it says. */
  lemma SplitAtUpdates(s: seq<Rec>, k: nat, piece: Rec, split: Split)
    requires Sorted(s) && k < |s| && Splits(s[k], piece, split)
    ensures Updated(s, SplitAt(s, k, piece, split), piece) && Sorted(SplitAt(s, k, piece, split))
  {
    var x, z, t := s[..k], s[k + 1..], SplitRec(s[k], piece, split);
    SplitRecUpdates(s[k], piece, split);
    assert s == x + [s[k]] + z;
    assert Apart(z, piece);
    UpdatedAmid(x, [s[k]], t, z, piece);
    SplitSorted(x, s[k], t, z);
  }

  lemma SplitSorted(x: seq<Rec>, r: Rec, t: seq<Rec>, z: seq<Rec>)
    requires Sorted(x) && Sorted(z) && |t| == 2 && r.cpos >= 0 && t[0].clusters > 0 && t[1].clusters > 0
    requires r.cpos == t[0].cpos && End(t[0]) == t[1].cpos && End(t[1]) == End(r)
    requires forall i :: 0 <= i < |x| ==> End(x[i]) <= r.cpos
    requires forall i :: 0 <= i < |z| ==> End(r) <= z[i].cpos
    ensures Sorted(x + t + z)
  {
    SortedInsert(x, t[0], [t[1]] + z);
    assert x + [t[0]] + ([t[1]] + z) == x + t + z;
  }

  /** In a list in order at most one record covers a cluster. */
  lemma CoversOnce(s: seq<Rec>, i: nat, j: nat, c: int)
    requires Sorted(s) && i < |s| && j < |s| && Covers(s[i], c) && Covers(s[j], c)
    ensures i == j
  {
  }

  /** ocfs2_make_right_split_rec(): the part of a record from a cluster on. */
  function RightPart(cpos: int, r: Rec): Rec {
    Rec(cpos, End(r) - cpos, r.phys + (cpos - r.cpos), r.flags)
  }

  /** Cutting a record in two changes nothing in the mapping. */
  lemma RightPartKeeps(s: seq<Rec>, k: nat, cpos: int)
    requires Sorted(s) && k < |s| && s[k].cpos < cpos < End(s[k])
    ensures Splits(s[k], RightPart(cpos, s[k]), SplitRight)
    ensures var t := SplitAt(s, k, RightPart(cpos, s[k]), SplitRight);
      && SameMap(s, t) && Sorted(t) && k < |t| && t[k] == s[k].(clusters := cpos - s[k].cpos)
  {
    var piece := RightPart(cpos, s[k]);
    SplitAtUpdates(s, k, piece, SplitRight);
    forall c
      ensures At(SplitAt(s, k, piece, SplitRight), c) == At(s, c)
    {
      if Covers(piece, c) {
        AtHit(s, |s|, k, c);
      }
    }
  }

  lemma UpdatedAfter(s: seq<Rec>, t: seq<Rec>, u: seq<Rec>, r: Rec)
    requires SameMap(s, t) && Updated(t, u, r)
    ensures Updated(s, u, r)
  {
  }

  lemma RemovedAfter(s: seq<Rec>, t: seq<Rec>, u: seq<Rec>, lo: int, hi: int)
    requires SameMap(s, t) && Removed(t, u, lo, hi)
    ensures Removed(s, u, lo, hi)
  {
  }

  // ----- Merging -----

  function KeepLeft(a: Rec, n: int): seq<Rec> {
    if a.clusters == n then [] else [a.(clusters := a.clusters - n)]
  }

  function KeepRight(a: Rec, n: int): seq<Rec> {
    if a.clusters == n then [] else [Rec(a.cpos + n, a.clusters - n, a.phys + n, a.flags)]
  }

  function GrowFront(b: Rec, n: int): Rec {
    Rec(b.cpos - n, b.clusters + n, b.phys - n, b.flags)
  }

  function GrowBack(a: Rec, n: int): Rec {
    a.(clusters := a.clusters + n)
  }

  /** The last n clusters of record k go over to the next record. */
  function MergedRight(s: seq<Rec>, k: nat, n: int): seq<Rec>
    requires k + 1 < |s|
  {
    s[..k] + (KeepLeft(s[k], n) + [GrowFront(s[k + 1], n)]) + s[k + 2..]
  }

  /** The first n clusters of record k go over to the record before. */
  function MergedLeft(s: seq<Rec>, k: nat, n: int): seq<Rec>
    requires 0 < k < |s|
  {
    s[..k - 1] + ([GrowBack(s[k - 1], n)] + KeepRight(s[k], n)) + s[k + 1..]
  }

  /** The record r is the end of record a, and record b continues it. */
  predicate JoinsNext(a: Rec, b: Rec, r: Rec) {
    && 0 < r.clusters <= a.clusters && End(r) == End(a) && RecContig(b, r) == ContigLeft && b.clusters > 0
  }

  predicate JoinsPrev(a: Rec, b: Rec, r: Rec) {
    && 0 < r.clusters <= b.clusters && r.cpos == b.cpos && RecContig(a, r) == ContigRight && a.clusters > 0
  }

  lemma JoinNextUpdates(a: Rec, b: Rec, r: Rec)
    requires JoinsNext(a, b, r)
    ensures Updated([a, b], KeepLeft(a, r.clusters) + [GrowFront(b, r.clusters)], r)
  {
    var m, g := KeepLeft(a, r.clusters), GrowFront(b, r.clusters);
    assert [a, b] == [a] + [b];
    forall c
      ensures At(m + [g], c) == if Covers(r, c) then CellOf(r, c) else At([a, b], c)
    {
      AtConcat(m, [g], c);
      AtConcat([a], [b], c);
      At1(a, c);
      At1(b, c);
      At1(g, c);
      if m != [] {
        At1(m[0], c);
      } else {
        AtMiss(m, 0, c);
      }
    }
  }

  lemma JoinPrevUpdates(a: Rec, b: Rec, r: Rec)
    requires JoinsPrev(a, b, r)
    ensures Updated([a, b], [GrowBack(a, r.clusters)] + KeepRight(b, r.clusters), r)
  {
    var m, g := KeepRight(b, r.clusters), GrowBack(a, r.clusters);
    assert [a, b] == [a] + [b];
    forall c
      ensures At([g] + m, c) == if Covers(r, c) then CellOf(r, c) else At([a, b], c)
    {
      AtConcat([g], m, c);
      AtConcat([a], [b], c);
      At1(a, c);
      At1(b, c);
      At1(g, c);
      if m != [] {
        At1(m[0], c);
      } else {
        AtMiss(m, 0, c);
      }
    }
  }

  lemma ApartBehind(s: seq<Rec>, k: nat, r: Rec)
    requires Sorted(s) && k < |s| && End(r) <= End(s[k])
    ensures Apart(s[k + 1..], r)
  {
  }

  /** Merging to the right is a point update. */
  lemma MergedRightUpdates(s: seq<Rec>, k: nat, r: Rec)
    requires Sorted(s) && k + 1 < |s| && JoinsNext(s[k], s[k + 1], r)
    ensures Updated(s, MergedRight(s, k, r.clusters), r)
  {
    hide Sorted, Updated;
    JoinNextUpdates(s[k], s[k + 1], r);
    assert s == s[..k] + [s[k], s[k + 1]] + s[k + 2..];
    assert Apart(s[k + 2..], r) by { ApartBehindNext(s, k, r); }
    UpdatedAmid(s[..k], [s[k], s[k + 1]], KeepLeft(s[k], r.clusters) + [GrowFront(s[k + 1], r.clusters)],
        s[k + 2..], r);
  }

  lemma ApartBehindNext(s: seq<Rec>, k: nat, r: Rec)
    requires Sorted(s) && k + 1 < |s| && End(r) <= End(s[k])
    ensures Apart(s[k + 2..], r)
  {
  }

  lemma MergedLeftUpdates(s: seq<Rec>, k: nat, r: Rec)
    requires Sorted(s) && 0 < k < |s| && JoinsPrev(s[k - 1], s[k], r)
    ensures Updated(s, MergedLeft(s, k, r.clusters), r)
  {
    hide Sorted, Updated;
    JoinPrevUpdates(s[k - 1], s[k], r);
    assert s == s[..k - 1] + [s[k - 1], s[k]] + s[k + 1..];
    ApartBehind(s, k, r);
    UpdatedAmid(s[..k - 1], [s[k - 1], s[k]], [GrowBack(s[k - 1], r.clusters)] + KeepRight(s[k], r.clusters),
        s[k + 1..], r);
  }

  /** ocfs2_figure_merge_contig_type() over all records: what r, a part of record k, continues. */
  function MergeContig(s: seq<Rec>, k: nat, r: Rec): Contig
    requires k < |s|
  {
    var a := if k > 0 then RecContig(s[k - 1], r) else ContigNone;
    var b := if k + 1 < |s| then RecContig(s[k + 1], r) else ContigNone;
    if b == ContigLeft && a == ContigRight then ContigLeftRight else if a == ContigNone then b else a
  }

  /** r is a part of record k, with whatever address and flags. */
  predicate PartOf(s: seq<Rec>, k: nat, r: Rec) {
    k < |s| && r.clusters > 0 && s[k].cpos <= r.cpos && End(r) <= End(s[k])
  }

  /** What each kind of contiguousness means for the neighbours. */
  lemma ContigMeans(s: seq<Rec>, k: nat, r: Rec)
    requires Sorted(s) && PartOf(s, k, r)
    ensures var c := MergeContig(s, k, r);
      && (c == ContigRight || c == ContigLeftRight ==> k > 0 && JoinsPrev(s[k - 1], s[k], r))
      && (c == ContigLeft || c == ContigLeftRight ==> k + 1 < |s| && JoinsNext(s[k], s[k + 1], r))
      && (c == ContigLeftRight ==> r.cpos == s[k].cpos && r.clusters == s[k].clusters)
  {
    if k > 0 {
      assert End(s[k - 1]) <= s[k].cpos;
    }
    if k + 1 < |s| {
      assert End(s[k]) <= s[k + 1].cpos;
    }
  }

  /** The record that a full merge to the right leaves continues the one before. */
  lemma ThenPrev(s: seq<Rec>, k: nat, r: Rec)
    requires Sorted(s) && PartOf(s, k, r) && MergeContig(s, k, r) == ContigLeftRight
    ensures 0 < k && k + 1 < |s|
    ensures var t := MergedRight(s, k, r.clusters);
      var g := GrowFront(s[k + 1], r.clusters);
      k < |t| && t[k] == g && t[k - 1] == s[k - 1] && JoinsPrev(t[k - 1], t[k], g) && Sorted(t)
  {
    ContigMeans(s, k, r);
    var g := GrowFront(s[k + 1], r.clusters);
    var t := MergedRight(s, k, r.clusters);
    assert [] + [g] == [g];
    assert t == s[..k] + [g] + s[k + 2..];
    SortedInsert(s[..k], g, s[k + 2..]);
  }

  /** Merging a whole record into the one before keeps the mapping. */
  lemma WholeMergeKeeps(t: seq<Rec>, k: nat)
    requires Sorted(t) && 0 < k < |t| && JoinsPrev(t[k - 1], t[k], t[k])
    ensures SameMap(t, MergedLeft(t, k, t[k].clusters))
  {
    MergedLeftUpdates(t, k, t[k]);
    forall c
      ensures At(MergedLeft(t, k, t[k].clusters), c) == At(t, c)
    {
      if Covers(t[k], c) {
        AtHit(t, |t|, k, c);
      }
    }
  }

  lemma ThenSame(s: seq<Rec>, t: seq<Rec>, u: seq<Rec>, r: Rec)
    requires Updated(s, t, r) && SameMap(t, u)
    ensures Updated(s, u, r)
  {
  }

  /** Replacing a record by another over the same clusters. */
  lemma ReplaceUpdates(s: seq<Rec>, k: nat, r: Rec)
    requires Sorted(s) && k < |s| && r.cpos == s[k].cpos && r.clusters == s[k].clusters
    ensures Updated(s, s[k := r], r) && Sorted(s[k := r])
  {
    assert s == s[..k] + [s[k]] + s[k + 1..];
    assert s[k := r] == s[..k] + [r] + s[k + 1..];
    assert Apart(s[k + 1..], r);
    forall c
      ensures At([r], c) == if Covers(r, c) then CellOf(r, c) else At([s[k]], c)
    {
      At1(r, c);
      At1(s[k], c);
    }
    UpdatedAmid(s[..k], [s[k]], [r], s[k + 1..], r);
  }

  lemma ContigKinds(s: seq<Rec>, k: nat, r: Rec)
    requires Sorted(s) && PartOf(s, k, r)
    ensures var c := MergeContig(s, k, r);
      c == ContigNone || c == ContigRight || c == ContigLeft || c == ContigLeftRight
  {
  }
}
