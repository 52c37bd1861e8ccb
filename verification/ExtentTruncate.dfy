/** The loops that unmap parts of a file one extent at a time: the punch-hole loop of file.c and the
    tail truncation of alloc.c.  Each pass looks at the tree that the pass before has left. */
module ExtentTruncate {
  import opened ExtentLeaf
  import opened ExtentBTree
  import opened ExtentPatch
  import opened ExtentLeaves
  import opened ExtentTree

  // ----- The number of clusters -----

  function Total(s: seq<Rec>): int {
    if s == [] then 0 else Total(s[..|s| - 1]) + s[|s| - 1].clusters
  }

  function Range(lo: int, hi: int): (r: set<int>)
    ensures forall c :: c in r <==> lo <= c < hi
    ensures lo <= hi ==> |r| == hi - lo
    decreases hi - lo
  {
    if lo >= hi then {} else Range(lo, hi - 1) + {hi - 1}
  }

  function Cells(s: seq<Rec>): set<int> {
    if s == [] then {} else Cells(s[..|s| - 1]) + Range(s[|s| - 1].cpos, End(s[|s| - 1]))
  }

  lemma {:induction false} CellsAreMapped(s: seq<Rec>, c: int)
    ensures c in Cells(s) <==> At(s, c) != Hole
  {
    if s != [] {
      var t := s[..|s| - 1];
      CellsAreMapped(t, c);
      AtPrefix(s, t, |t|, c);
    }
  }

  /** The lengths of the records add up to the number of mapped clusters. */
  lemma {:induction false} TotalIsMapped(s: seq<Rec>)
    requires Sorted(s)
    ensures Total(s) == |Cells(s)|
  {
    if s != [] {
      var t, r := s[..|s| - 1], s[|s| - 1];
      TotalIsMapped(t);
      assert Cells(t) !! Range(r.cpos, End(r)) by {
        forall c | c in Cells(t)
          ensures c < r.cpos
        {
          CellsAreMapped(t, c);
          AtHole(t, |t|, c);
        }
      }
    }
  }

  /** Unmapping mapped clusters takes exactly their number off the total. */
  lemma RemovedTotal(s: seq<Rec>, t: seq<Rec>, lo: int, hi: int)
    requires Sorted(s) && Sorted(t) && Removed(s, t, lo, hi) && lo <= hi
    requires forall c :: lo <= c < hi ==> At(s, c) != Hole
    ensures Total(t) == Total(s) - (hi - lo)
  {
    TotalIsMapped(s);
    TotalIsMapped(t);
    assert Cells(s) == Cells(t) + Range(lo, hi) && Cells(t) !! Range(lo, hi) by {
      forall c
        ensures c in Cells(s) <==> c in Cells(t) || lo <= c < hi
        ensures c in Cells(t) ==> !(lo <= c < hi)
      {
        CellsAreMapped(s, c);
        CellsAreMapped(t, c);
      }
    }
  }

  lemma TotalZero(s: seq<Rec>)
    requires Sorted(s)
    ensures Total(s) >= 0 && (Total(s) == 0 <==> s == [])
  {
    TotalIsMapped(s);
    if s != [] {
      CellsAreMapped(s, s[0].cpos);
      AtHole(s, |s|, s[0].cpos);
      assert s[0].cpos in Cells(s);
    }
  }

  // ----- Punching a hole -----

  predicate IsLastBefore(el: seq<Rec>, i: int, pos: int) {
    && -1 <= i < |el|
    && (i >= 0 ==> el[i].cpos < pos)
    && forall j :: i < j < |el| ==> el[j].cpos >= pos
  }

  /** ocfs2_find_rec(): the last record that starts before pos. */
  method FindRec(el: seq<Rec>, pos: int) returns (i: int)
    ensures IsLastBefore(el, i, pos)
  {
    i := |el| - 1;
    while i >= 0 && el[i].cpos >= pos
      invariant -1 <= i < |el|
      invariant forall j :: i < j < |el| ==> el[j].cpos >= pos
    {
      i := i - 1;
    }
  }

  /** The clusters from cpos on are those of the record that lie in the range. */
  ghost predicate IsPart(rec: Rec, start: int, stop: int, cpos: int, len: int) {
    len > 0 && forall c :: cpos <= c < cpos + len <==> Covers(rec, c) && start <= c < stop
  }

  lemma PartEnds(rec: Rec, start: int, stop: int, cpos: int, len: int)
    requires IsPart(rec, start, stop, cpos, len)
    ensures rec.cpos <= cpos && start <= cpos && cpos + len <= End(rec) && cpos + len <= stop
    ensures cpos + len == End(rec) || cpos + len == stop
  {
    assert Covers(rec, cpos) && Covers(rec, cpos + len - 1);
    assert Covers(rec, cpos + len) ==> cpos + len == stop;
  }

  /** ocfs2_calc_trunc_pos(): what to remove of a record in this pass, and where the next pass
      ends. */
  method CalcTruncPos(rec: Rec, start: int, stop: int) returns (done: bool, cpos: int, len: int, next: int)
    requires rec.clusters > 0 && rec.cpos < stop && start < stop
    ensures done <==> End(rec) <= start
    ensures !done ==>
              next == cpos < stop && IsPart(rec, start, stop, cpos, len)
  {
    var range := End(rec);
    var end := if range < stop then range else stop;
    done, cpos, len, next := true, 0, 0, stop;
    if rec.cpos >= start {
      done, cpos, len, next := false, rec.cpos, end - rec.cpos, rec.cpos;
    } else if range > start {
      done, cpos, len, next := false, start, end - start, start;
    }
    assert !done ==> Covers(rec, cpos) && start <= cpos < stop;
  }

  /** No record goes across the cluster. */
  ghost predicate Clean(s: seq<Rec>, c: int) {
    forall j :: 0 <= j < |s| ==> s[j].cpos >= c || End(s[j]) <= c
  }

  /** The record that reaches over the end of the hole is the only one of the last leaf, and is cut
      on its left side only. */
  ghost predicate PunchesLone(t: ExtentTree, start: int, stop: int)
    reads t
  {
    exists k :: 0 <= k < |t.Records()| && start <= t.Records()[k].cpos < stop < End(t.Records()[k])
                && t.CutsLone(t.Records()[k].cpos, stop - t.Records()[k].cpos)
  }

  /** What has been done when everything from `end` on is: the range is unmapped from there. */
  ghost predicate PunchedFrom(s: seq<Rec>, t: seq<Rec>, start: int, stop: int, end: int) {
    forall c :: At(t, c) == if start <= c < stop && end <= c then Hole else At(s, c)
  }

  lemma LeafLastBefore(s: seq<Slot>, hi: int, x: bool, cap: nat, p: nat, end: int, i: int)
    requires Tidy(s, hi, x, cap) && p < |s| && s[p].lo <= end && (p + 1 < |s| ==> end <= s[p + 1].lo)
    requires IsLastBefore(s[p].b.recs, i, end)
    ensures Clean(Flat(s), s[p].lo)
    ensures i < 0 ==> forall j :: 0 <= j < |Flat(s)| ==> Flat(s)[j].cpos >= end || End(Flat(s)[j]) <= s[p].lo
    ensures var k := |FlatUpTo(s, p)| + i;
      i >= 0 ==> k < |Flat(s)| && Flat(s)[k] == s[p].b.recs[i]
                 && forall j :: k < j < |Flat(s)| ==> Flat(s)[j].cpos >= end
  {
    hide Good, Filled, SolidBut, FlatUpTo, FlatFrom, Solid;
    LeafHasRecords(s, hi, x, cap, p);
    TidyLeaf(s, hi, x, cap, p);
    FlatAround(s, p);
    FlatUpToWithin(s, hi, x, p);
    if p + 1 < |s| {
      FlatFromWithin(s, hi, x, p + 1);
    } else {
      FlatFromEnd(s);
    }
  }

  /** The last record of the whole tree that starts before `end`, from the leaf whose range has
      `end` or ends with it. */
  lemma LastBefore(t: ExtentTree, x: bool, c: int, end: int, i: int)
    requires t.Valid(x) && 0 <= c && c <= end <= c + 1
    requires FindLeaf(t.root, c) < |t.S()| && IsLastBefore(t.S()[FindLeaf(t.root, c)].b.recs, i, end)
    ensures var p := FindLeaf(t.root, c); var lo := if t.depth == 0 then 0 else t.S()[p].lo;
      && 0 <= lo <= c && Clean(t.Records(), lo)
      && (i < 0 ==> forall j :: 0 <= j < |t.Records()| ==> t.Records()[j].cpos >= end || End(t.Records()[j]) <= lo)
      && var k := |FlatUpTo(t.S(), p)| + i;
         i >= 0 ==> k < |t.Records()| && t.Records()[k] == t.S()[p].b.recs[i]
                    && forall j :: k < j < |t.Records()| ==> t.Records()[j].cpos >= end
  {
    hide Slots, Shaped, Packed, Ranged, Good, Filled, FlatUpTo, SumRightmost, Chained, SolidBut;
    t.ShallowLeaf(x);
    t.RecordsSorted(x);
    var p := FindLeaf(t.root, c);
    if t.depth == 0 {
      FlatInline(Slot(0, t.root.b));
      NoneBefore(t.S());
    } else {
      t.FindsRange(c);
      LowestLo(t.S(), t.Hi(), x, p);
      LeafLastBefore(t.S(), t.Hi(), x, t.cap, p, end, i);
    }
  }

  lemma LeafThere(t: ExtentTree, x: bool, c: int)
    requires t.Valid(x) && c >= 0
    ensures FindLeaf(t.root, c) < |t.S()|
  {
    hide Slots, Shaped, Packed, Ranged, Good, Filled, FlatUpTo, SumRightmost, Chained, SolidBut;
    t.ShallowLeaf(x);
    if t.depth > 0 {
      t.FindsRange(c);
    }
  }

  lemma NoneBefore(s: seq<Slot>)
    ensures FlatUpTo(s, 0) == []
  {
  }

  lemma LowestLo(s: seq<Slot>, hi: int, x: bool, p: nat)
    requires Good(s, hi, x) && p < |s|
    ensures 0 <= s[p].lo
  {
    LosAscend(s, hi, x, 0, p);
  }

  /** One pass that removes the part of record k that lies in the rest of the range. */
  lemma PunchStep(s: seq<Rec>, t: seq<Rec>, t': seq<Rec>, start: int, stop: int, end: int, k: nat, cpos: int, len: int)
    requires Sorted(t) && PunchedFrom(s, t, start, stop, end) && end <= stop && k < |t|
    requires forall j :: k < j < |t| ==> t[j].cpos >= end
    requires IsPart(t[k], start, end, cpos, len) && Removed(t, t', cpos, cpos + len)
    ensures PunchedFrom(s, t', start, stop, cpos)
  {
    PartEnds(t[k], start, end, cpos, len);
    forall c
      ensures At(t', c) == if start <= c < stop && cpos <= c then Hole else At(s, c)
    {
      if start <= c < end && cpos <= c && c >= cpos + len {
        assert !Covers(t[k], c);
        AtHole(t, |t|, c);
        assert forall j :: 0 <= j < k ==> End(t[j]) <= t[k].cpos;

      }
    }
  }

  /** One pass that finds no record in the rest of the range down to lo. */
  lemma SkipStep(s: seq<Rec>, t: seq<Rec>, start: int, stop: int, end: int, lo: int)
    requires Sorted(t) && PunchedFrom(s, t, start, stop, end) && lo <= end <= stop
    requires forall j :: 0 <= j < |t| ==> t[j].cpos >= end || End(t[j]) <= lo
    ensures PunchedFrom(s, t, start, stop, lo)
  {
    forall c
      ensures At(t, c) == if start <= c < stop && lo <= c then Hole else At(s, c)
    {
      if start <= c < end && lo <= c {
        AtHole(t, |t|, c);
      }
    }
  }

  lemma CleanHole(s: seq<Rec>, c: int)
    requires At(s, c) == Hole
    ensures Clean(s, c)
  {
    AtHole(s, |s|, c);
  }

  /** ocfs2_find_cpos_for_left_leaf() on the path to a cluster: 0 in the leftmost leaf only. */
  lemma LeftOf(t: ExtentTree, x: bool, c: int)
    requires t.Valid(x) && t.depth > 0 && c >= 0
    ensures var p := FindLeaf(t.root, c);
      && p < |t.S()| && (p > 0 ==> t.LeftCpos(p) < c) && (t.LeftCpos(p) == 0 <==> p == 0)
      && (p > 0 ==> t.LeftCpos(p) == t.S()[p].lo - 1 > 0) && (p == 0 ==> t.S()[p].lo == 0)
  {
    hide Slots, Shaped, Packed, Ranged, Good, Filled, FlatUpTo, SumRightmost, Chained, SolidBut;
    t.ShallowLeaf(x);
    t.FindsRange(c);
    LowestStart(t.S(), t.Hi(), x);
    var p := FindLeaf(t.root, c);
    if p > 0 {
      TidyLoose(t.S(), t.Hi(), x, t.cap);
      LooseLo(t.S(), t.Hi(), x, t.cap, p - 1);
    }
  }

  /** The removal in one pass; only the first can be one of `CutsLone`. */
  lemma LoneOnlyFirst(t: ExtentTree, x: bool, start: int, stop: int, end: int, k: nat, cpos: int, len: int)
    requires t.Valid(x) && k < |t.Records()| && start >= 0 && IsPart(t.Records()[k], start, end, cpos, len)
    requires Clean(t.Records(), end) || (end == stop && !PunchesLone(t, start, stop))
    ensures !t.CutsLone(cpos, len)
  {
    hide Slots, Shaped, Packed, Ranged, Good, Filled, FlatUpTo, SumRightmost, Chained, SolidBut;
    var recs := t.Records();
    PartEnds(recs[k], start, end, cpos, len);
    if t.CutsLone(cpos, len) {
      LoneIsRecord(t, x, k, cpos, len);
    }
  }

  lemma LoneIsRecord(t: ExtentTree, x: bool, k: nat, cpos: int, len: int)
    requires t.Valid(x) && k < |t.Records()| && Covers(t.Records()[k], cpos) && t.CutsLone(cpos, len) && len >= 0
    ensures t.Records()[k].cpos == cpos && cpos + len < End(t.Records()[k])
  {
    hide Slots, Shaped, Packed, Ranged, Good, Filled, FlatUpTo, SumRightmost, Chained, SolidBut;
    t.ShallowLeaf(x);
    t.RecordsSorted(x);
    var p := FindLeaf(t.root, cpos);
    var j := |FlatUpTo(t.S(), p)|;
    t.PartWhere(x, p, 0, j);
    CoversOnce(t.Records(), j, k, cpos);
  }

  lemma NothingPunched(s: seq<Rec>, start: int, stop: int)
    ensures PunchedFrom(s, s, start, stop, stop)
  {
  }

  lemma AllPunched(s: seq<Rec>, t: seq<Rec>, start: int, stop: int, end: int)
    requires PunchedFrom(s, t, start, stop, end) && (end <= start || stop <= start)
    ensures Removed(s, t, start, stop)
  {
  }

  /** The record that has a cluster is the only one that has it. */
  lemma OnlyIn(s: seq<Rec>, k: nat, c: int)
    requires Sorted(s) && k < |s| && Covers(s[k], c)
    ensures At(s, c) != Hole && forall j :: 0 <= j < |s| && Covers(s[j], c) ==> j == k
  {
    AtHit(s, |s|, k, c);
  }

  lemma PassIs(t: ExtentTree, y: bool, start: int, stop: int, end: int, k: nat, cpos: int, len: int)
    requires t.Valid(y) && k < |t.Records()| && start >= 0 && IsPart(t.Records()[k], start, end, cpos, len)
    requires !y || Clean(t.Records(), end) || (end == stop && !PunchesLone(t, start, stop))
    ensures cpos >= 0 && At(t.Records(), cpos) != Hole && t.InOneRecord(cpos, len)
    ensures y ==> !t.CutsLone(cpos, len)
  {
    hide Slots, Shaped, Packed, Ranged, Good, Filled, FlatUpTo, SumRightmost, Chained, SolidBut, PunchesLone, Clean;
    PartEnds(t.Records()[k], start, end, cpos, len);
    t.RecordsSorted(y);
    OnlyIn(t.Records(), k, cpos);
    if y {
      LoneOnlyFirst(t, y, start, stop, end, k, cpos, len);
    }
  }

  lemma GapAt(s: seq<Rec>, t: seq<Rec>, cpos: int, len: int)
    requires Removed(s, t, cpos, cpos + len) && len > 0
    ensures Clean(t, cpos)
  {
    CleanHole(t, cpos);
  }

  /** The loop of ocfs2_remove_inode_range(): from the end of the range to its start, exactly the
      clusters of the range are unmapped. */
  method PunchHole(t: ExtentTree, ghost x: bool, start: int, stop: int)
    requires t.Valid(x) && start >= 0 && stop >= 0
    modifies t
    ensures Removed(old(t.Records()), t.Records(), start, stop)
    ensures t.Valid(x && old(!PunchesLone(t, start, stop)))
  {
    hide Slots, Shaped, Packed, Ranged, Good, Filled, FlatUpTo, SumRightmost, Chained, SolidBut, SearchFrom,
      PunchesLone, Clean, PunchedFrom, Covers, At, Removed, IsPart;
    ghost var s := t.Records();
    ghost var y := x && !PunchesLone(t, start, stop);
    t.WeakerValid(x, y);
    NothingPunched(s, start, stop);
    var end, c := stop, stop;
    while end > start
      invariant t.Valid(y) && 0 <= c && c <= end <= c + 1 && end <= stop
      invariant PunchedFrom(s, t.Records(), start, stop, end)
      invariant !y || Clean(t.Records(), end) || (end == stop && !PunchesLone(t, start, stop))
      decreases end, c
    {
      LeafThere(t, y, c);
      var p := FindLeaf(t.root, c);
      var el := Slots(t.root, 0)[p].b.recs;
      var i := FindRec(el, end);
      LastBefore(t, y, c, end, i);
      t.RecordsSorted(y);
      if i < 0 {
        if t.depth == 0 {
          SkipStep(s, t.Records(), start, stop, end, 0);
          end := 0;
          break;
        }
        LeftOf(t, y, c);
        SkipStep(s, t.Records(), start, stop, end, t.S()[p].lo);
        c := t.LeftCpos(p);
        if c == 0 {
          end := 0;
          break;
        }
        end := c + 1;
        continue;
      }
      ghost var k := |FlatUpTo(t.S(), p)| + i;
      var done, cpos, len, next := CalcTruncPos(el[i], start, end);
      ghost var r := t.Records();
      if done {
        SkipStep(s, r, start, stop, end, start);
        end := start;
        break;
      }
      PassIs(t, y, start, stop, end, k, cpos, len);
      var removed := t.RemoveExtent(y, cpos, len);
      PunchStep(s, r, t.Records(), start, stop, end, k, cpos, len);
      GapAt(r, t.Records(), cpos, len);
      end := next;
      c := end;
    }
    AllPunched(s, t.Records(), start, stop, end);
  }

  // ----- Cutting off the tail -----

  /** A cluster number past all that a file can have. */
  const LAST := 0xFFFF_FFFF

  /** The walk to it ends in the rightmost leaf, which holds the last record. */
  lemma LastLeaf(t: ExtentTree, x: bool)
    requires t.Valid(x) && t.Records() != [] && End(t.Records()[|t.Records()| - 1]) <= LAST
    ensures var p := FindLeaf(t.root, LAST);
      && p < |t.S()| && t.S()[p].b.recs != []
      && t.S()[p].b.recs[|t.S()[p].b.recs| - 1] == t.Records()[|t.Records()| - 1]
  {
    hide Slots, Shaped, Packed, Ranged, Good, Filled, FlatUpTo, SumRightmost, Chained, SolidBut;
    t.ShallowLeaf(x);
    if t.depth == 0 {
      FlatInline(Slot(0, t.root.b));
    } else {
      t.FindsRange(LAST);
      t.TidyTail(x);
      RightmostLeaf(t.S(), t.Hi(), x, t.cap, FindLeaf(t.root, LAST));
    }
  }

  lemma RightmostLeaf(s: seq<Slot>, hi: int, x: bool, cap: nat, p: nat)
    requires Tidy(s, hi, x, cap) && InRangeOf(s, p, LAST) && Flat(s) != [] && End(Flat(s)[|Flat(s)| - 1]) <= LAST
    ensures p < |s| && s[p].b.recs != [] && s[p].b.recs[|s[p].b.recs| - 1] == Flat(s)[|Flat(s)| - 1]
  {
    hide Good, Filled, SolidBut, FlatUpTo, FlatFrom, Solid;
    var n := |s| - 1;
    LeafHasRecords(s, hi, x, cap, n);
    TidyLeaf(s, hi, x, cap, n);
    FlatAround(s, n);
    FlatFromEnd(s);
    if p < n {
      LosAscend(s, hi, x, p + 1, n);
    }
  }

  /** The first list with nothing mapped from `high` on, as far as it has come. */
  ghost predicate CutsFrom(s: seq<Rec>, t: seq<Rec>, high: int) {
    forall c :: At(t, c) == At(s, c) || (c >= high && At(t, c) == Hole)
  }

  /** `t` is `s` without the clusters from `high` on. */
  ghost predicate CutOff(s: seq<Rec>, t: seq<Rec>, high: int) {
    forall c :: At(t, c) == if c >= high then Hole else At(s, c)
  }

  lemma CutStep(s: seq<Rec>, t: seq<Rec>, t': seq<Rec>, high: int, cpos: int)
    requires Sorted(t) && Sorted(t') && t != [] && CutsFrom(s, t, high) && high <= cpos
    requires t[|t| - 1].cpos <= cpos < End(t[|t| - 1]) <= LAST && Removed(t, t', cpos, End(t[|t| - 1]))
    ensures CutsFrom(s, t', high) && (t' != [] ==> End(t'[|t'| - 1]) <= LAST)
    ensures Total(t') == Total(t) - (End(t[|t| - 1]) - cpos)
  {
    var rec := t[|t| - 1];
    forall c | cpos <= c < End(rec)
      ensures At(t, c) != Hole
    {
      assert Covers(rec, c);
    }
    RemovedTotal(t, t', cpos, End(rec));
    if t' != [] {
      var c := End(t'[|t'| - 1]) - 1;
      assert Covers(t'[|t'| - 1], c);
      assert At(t', c) != Hole;
      AtHole(t, |t|, c);
    }
  }

  lemma CutDone(s: seq<Rec>, t: seq<Rec>, high: int)
    requires Sorted(t) && CutsFrom(s, t, high) && (t == [] || End(t[|t| - 1]) <= high)
    ensures CutOff(s, t, high)
  {
    forall c
      ensures At(t, c) == if c >= high then Hole else At(s, c)
    {
      if c >= high {
        AtHole(t, |t|, c);
      }
    }
  }

  lemma LastHas(s: seq<Rec>, cpos: int)
    requires Sorted(s) && s != [] && Covers(s[|s| - 1], cpos)
    ensures At(s, cpos) != Hole && cpos >= 0
    ensures forall j :: 0 <= j < |s| && Covers(s[j], cpos) ==> End(s[j]) == End(s[|s| - 1])
  {
    OnlyIn(s, |s| - 1, cpos);
  }

  lemma EdgeIsNotLone(t: ExtentTree, x: bool, cpos: int)
    requires t.Valid(x) && t.Records() != [] && Covers(t.Records()[|t.Records()| - 1], cpos)
    ensures !t.CutsLone(cpos, End(t.Records()[|t.Records()| - 1]) - cpos)
  {
    hide Slots, Shaped, Packed, Ranged, Good, Filled, FlatUpTo, SumRightmost, Chained, SolidBut;
    var recs := t.Records();
    var k := |recs| - 1;
    t.RecordsSorted(x);
    assert IsPart(recs[k], cpos, End(recs[k]), cpos, End(recs[k]) - cpos);
    LoneOnlyFirst(t, x, cpos, End(recs[k]), End(recs[k]), k, cpos, End(recs[k]) - cpos);
  }

  /** ocfs2_commit_truncate(): the clusters from `high` on are unmapped, from the last record to the
      first, and the file's count of clusters says when nothing is left. */
  method CommitTruncate(t: ExtentTree, ghost x: bool, high: int, clusters: int) returns (left: int)
    requires t.Valid(x) && high >= 0 && clusters == Total(t.Records())
    requires t.Records() != [] ==> End(t.Records()[|t.Records()| - 1]) <= LAST
    modifies t
    ensures t.Valid(x) && CutOff(old(t.Records()), t.Records(), high)
    ensures left == Total(t.Records())
  {
    hide Slots, Shaped, Packed, Ranged, Good, Filled, FlatUpTo, SumRightmost, Chained, SolidBut, SearchFrom, CutsFrom,
      CutOff, At, Removed, Total;
    ghost var s := t.Records();
    left := clusters;
    NothingCut(s, high);
    while left != 0
      invariant t.Valid(x) && CutsFrom(s, t.Records(), high) && left == Total(t.Records())
      invariant t.Records() != [] ==> End(t.Records()[|t.Records()| - 1]) <= LAST
      decreases left
    {
      t.RecordsSorted(x);
      ghost var r := t.Records();
      TotalZero(r);
      LastLeaf(t, x);
      var el := Slots(t.root, 0)[FindLeaf(t.root, LAST)].b.recs;
      var rec := el[|el| - 1];
      var range := End(rec);
      if range <= high {
        break;
      }
      var cpos := if rec.cpos >= high then rec.cpos else high;
      EdgeIsNotLone(t, x, cpos);
      LastHas(r, cpos);
      var removed := t.RemoveExtent(x, cpos, range - cpos);
      t.RecordsSorted(x);
      CutStep(s, r, t.Records(), high, cpos);
      TotalZero(t.Records());
      left := left - (range - cpos);
    }
    t.RecordsSorted(x);
    TotalZero(t.Records());
    CutDone(s, t.Records(), high);
  }

  lemma NothingCut(s: seq<Rec>, high: int)
    ensures CutsFrom(s, s, high)
  {
  }

  // ----- Where the ranges stop being exact -----

  const FirstRecs := [Rec(0, 10, 1000, 0), Rec(20, 10, 2000, 0), Rec(40, 10, 3000, 0)]

  function TwoLeaves(last: Rec): seq<Slot> {
    [Slot(0, LeafBlk(1, 2, FirstRecs)), Slot(100, LeafBlk(2, 0, [last]))]
  }

  const WholeLast := Rec(100, 30, 5000, 0)
  const CutLast := Rec(120, 10, 5020, 0)
  const Crossing := Rec(50, 60, 3010, 0)

  lemma TwoLeavesTidy(last: Rec)
    requires 100 <= last.cpos && last.clusters > 0 && End(last) == 130
    ensures Tidy(TwoLeaves(last), 130, last.cpos == 100, 3) && Chained(TwoLeaves(last), 2, 3)
    ensures Flat(TwoLeaves(last)) == FirstRecs + [last]
  {
    hide Sorted, FlatUpTo;
    TwoSorted(last);
    TwoLeavesFlat(last);
  }

  lemma TwoLeavesFlat(last: Rec)
    requires last.clusters > 0
    ensures Flat(TwoLeaves(last)) == FirstRecs + [last]
  {
    var s := TwoLeaves(last);
    assert FlatUpTo(s, 0) == [];
    assert FlatUpTo(s, 1) == [] + FirstRecs == FirstRecs;
    assert FlatUpTo(s, 2) == FirstRecs + [last];
  }

  lemma TwoSorted(last: Rec)
    requires 100 <= last.cpos && last.clusters > 0
    ensures Sorted(FirstRecs) && Sorted([last])
  {
  }

  lemma CrossingContinues()
    ensures ContigType(FirstRecs, Crossing, 1000) == ContigRight
  {
    assert FindContig(FirstRecs, Crossing, 3) == 3;
    assert FindContig(FirstRecs, Crossing, 2) == 2;
    assert FindContig(FirstRecs, Crossing, 1) == 2;
  }

  /** A cut on the left of a record that is alone in the last leaf leaves the range of the leaf as
      it was.  A record that continues the leaf before it and reaches past the old boundary is then
      put there, and the walk does not find its end again. */
  lemma LoneCutThenOverrun()
    ensures Tidy(TwoLeaves(WholeLast), 130, true, 3) && Chained(TwoLeaves(WholeLast), 2, 3)
    ensures LoneLeftCut(TwoLeaves(WholeLast), 1, 100, 20) && Trimmed([WholeLast], 0, 100, 20) == [CutLast]
    ensures Tidy(TwoLeaves(CutLast), 130, false, 3) && !Tidy(TwoLeaves(CutLast), 130, true, 3)
    ensures Apart(Flat(TwoLeaves(CutLast)), Crossing) && InRangeOf(TwoLeaves(CutLast), 0, Crossing.cpos)
    ensures ContigType(FirstRecs, Crossing, 1000) == ContigRight
    ensures Covers(Crossing, 105) && InRangeOf(TwoLeaves(CutLast), 1, 105) && At([CutLast], 105) == Hole
  {
    hide Tidy, Chained, FlatUpTo, ContigType;
    TwoLeavesTidy(WholeLast);
    TwoLeavesTidy(CutLast);
    CrossingContinues();
    assert !Tidy(TwoLeaves(CutLast), 130, true, 3) by { CutIsInexact(); }
    At1(CutLast, 105);
  }

  /** The two leaves below a root. */
  const TwoLeafRoot := Node([Kid(0, 100, Leaf(LeafBlk(1, 2, FirstRecs))),
                             Kid(100, 30, Leaf(LeafBlk(2, 0, [WholeLast])))])

  lemma TwoLeafSlots()
    ensures Slots(TwoLeafRoot, 0) == TwoLeaves(WholeLast)
    ensures Shaped(TwoLeafRoot, 1) && Ranged(TwoLeafRoot, 0, 130) && Packed(TwoLeafRoot, 3)
    ensures SumRightmost(TwoLeafRoot) == 130
  {
    var t := TwoLeafRoot;
    assert SlotsUpTo(t, 0) == [];
    assert SlotsUpTo(t, 1) == [] + [Slot(0, t.kids[0].sub.b)];
    assert SlotsUpTo(t, 2) == SlotsUpTo(t, 1) + [Slot(100, t.kids[1].sub.b)];
  }

  /** The same on a tree with exact ranges, by the operations themselves: after the cut the ranges are
      not exact, and the insert, of a record that overlaps none, overruns. */
  method CutTree() returns (t: ExtentTree)
    ensures fresh(t) && t.Valid(false) && !t.Valid(true) && t.Records() == FirstRecs + [CutLast]
    ensures Fits(Crossing) && Apart(t.Records(), Crossing) && t.Overruns(Crossing, 1000)
  {
    hide Tidy, Chained, FlatUpTo, ContigType, Slots, Shaped, Ranged, Packed;
    t := new ExtentTree.Of(2, 3, TwoLeafRoot, 1, 2, 3);
    TwoLeafSlots();
    TwoLeavesTidy(WholeLast);
    assert t.Valid(true);
    LoneCutThenOverrun();
    t.TruncateRec(true, 1, 0, 100, 20);
    assert t.S() == TwoLeaves(CutLast);
    t.FindsRange(Crossing.cpos);
    TwoLeavesTidy(CutLast);
  }

  /** And the walk loses clusters of it. */
  method OverrunTree() returns (t: ExtentTree)
    ensures fresh(t) && exists c :: Covers(Crossing, c) && t.Find(c) == Hole
  {
    hide Covers;
    t := CutTree();
    t.InsertExtent(false, Crossing, 1000);
  }

  lemma CutIsInexact()
    ensures !Tidy(TwoLeaves(CutLast), 130, true, 3)
  {
    assert Solid(TwoLeaves(CutLast)[1].b.recs) == [CutLast];
  }
}
