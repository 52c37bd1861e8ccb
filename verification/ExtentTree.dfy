/** The extent tree operations of alloc.c over the blocks of ExtentBTree: each changes leaves in
    place and corrects the ranges kept above them. */
module ExtentTree {
  import opened ExtentLeaf
  import opened ExtentBTree
  import opened ExtentLeaves
  import opened ExtentPatch

  datatype Status = Done | Lost | Refused

  /** The flags to set are not set yet, and those to clear are. */
  predicate CanChange(flags: bv8, newFlags: bv8, clearFlags: bv8) {
    flags & newFlags == 0 && (clearFlags == 0 || flags & clearFlags != 0)
  }

  function ChangedFlags(flags: bv8, newFlags: bv8, clearFlags: bv8): bv8 {
    (flags | newFlags) & !clearFlags
  }

  class ExtentTree {
    const rootCap: nat
    const cap: nat
    var root: Tree
    var depth: nat
    var lastEb: nat
    var nextBlk: nat    // the supply of new metadata blocks

    ghost function S(): seq<Slot>
      reads this
    {
      Slots(root, 0)
    }

    ghost function Hi(): int
      reads this
    {
      SumRightmost(root)
    }

    /** The blocks above the leaves are as they must be. */
    ghost predicate Built()
      reads this
    {
      && 0 < rootCap < cap && cap >= 3 && nextBlk > 0
      && Shaped(root, depth)
      && (root.Node? ==> Ranged(root, 0, Hi()) && Packed(root, cap) && |root.kids| <= rootCap)
    }

    /** What holds between top-level operations. */
    ghost predicate Valid(x: bool)
      reads this
    {
      && Built()
      && if depth == 0 then
           && root == Leaf(LeafBlk(0, 0, root.b.recs)) && lastEb == 0
           && Sorted(root.b.recs) && |root.b.recs| <= rootCap
         else Tidy(S(), Hi(), x, cap) && Chained(S(), lastEb, nextBlk)
    }

    /** All records in order, whatever leaf they lie in. */
    ghost function Records(): seq<Rec>
      reads this
    {
      Flat(S())
    }

    constructor (rootCap: nat, cap: nat)
      requires 0 < rootCap < cap && cap >= 3
      ensures Valid(true) && Records() == [] && depth == 0
    {
      this.rootCap, this.cap := rootCap, cap;
      root := Leaf(LeafBlk(0, 0, []));
      depth, lastEb, nextBlk := 0, 0, 1;
      new;
      FlatInline(Slot(0, root.b));
    }

    /** A tree as it is found on disk. */
    constructor Of(rootCap: nat, cap: nat, root: Tree, depth: nat, lastEb: nat, nextBlk: nat)
      ensures this.rootCap == rootCap && this.cap == cap && this.root == root && this.depth == depth
      ensures this.lastEb == lastEb && this.nextBlk == nextBlk
    {
      this.rootCap, this.cap, this.root, this.depth := rootCap, cap, root, depth;
      this.lastEb, this.nextBlk := lastEb, nextBlk;
    }

    /** Replace leaf i. */
    method PutBlk(i: nat, b: LeafBlk)
      requires Built() && depth > 0 && i < |S()|
      modifies this`root
      ensures Built() && Hi() == old(Hi())
      ensures S() == old(S())[i := Slot(old(S())[i].lo, b)] && SameRoom(old(root), root, cap)
    {
      SetLeafRoom(root, 0, i, b, cap);
      SetLeafSlots(root, 0, i, b);
      SetLeafKeeps(root, 0, Hi(), depth, i, b);
      SetLeafFull(root, 0, cap, i, b);
      root := SetLeaf(root, 0, i, b);
    }

    /** Replace the records of leaf i. */
    method PutLeaf(i: nat, recs: seq<Rec>)
      requires Built() && depth > 0 && i < |S()|
      modifies this`root
      ensures Built() && Hi() == old(Hi())
      ensures S() == old(S())[i := WithRecs(old(S())[i], recs)]
    {
      PutBlk(i, Slots(root, 0)[i].b.(recs := recs));
    }

    /** ocfs2_complete_edge_insert(): the boundary in front of leaf i follows its first record. */
    method FixEdge(i: nat)
      requires Built() && depth > 0 && 0 < i < |S()| && |S()[i - 1].b.recs| == cap
      requires S()[i - 1].lo <= FirstCpos(Leaf(S()[i].b)) <= RangeEnd(S(), i, Hi())
      modifies this`root
      ensures Built() && Hi() == old(Hi())
      ensures S() == old(S())[i := Slot(FirstCpos(Leaf(old(S())[i].b)), old(S())[i].b)]
    {
      EdgeFixMoves(root, depth, 0, Hi(), cap, i, FirstCpos(Leaf(S()[i].b)));
      root := EdgeFix(root, 0, i);
    }

    /** ocfs2_adjust_rightmost_records(). */
    method FixHi(range: int)
      requires Built() && depth > 0 && |S()| > 0 && S()[|S()| - 1].lo <= range
      modifies this`root
      ensures Built() && S() == old(S()) && Hi() == range && SameRoom(old(root), root, cap)
    {
      SetHiRoom(root, range, cap);
      SetHiKeeps(root, depth, 0, Hi(), cap, range);
      root := SetHi(root, range);
    }

    /** ocfs2_shift_tree_depth() for a root that already has blocks below it. */
    method Shift()
      requires Built() && depth > 0 && Hi() >= 0
      modifies this`root, this`depth, this`nextBlk
      ensures Built() && S() == old(S()) && Hi() == old(Hi()) && depth == old(depth) + 1 && nextBlk == old(nextBlk) + 1
      ensures root.Node? && |root.kids| == 1 && RoomBelow(root, cap)
    {
      ShiftDepthKeeps(root, depth, Hi(), cap);
      root := ShiftDepth(root);
      depth := depth + 1;
      nextBlk := nextBlk + 1;
    }

    /** The same for records that were in the root itself: they become the first leaf block. */
    method ShiftInline()
      requires Built() && depth == 0 && root.Leaf? && SumRightmost(root) >= 0
      modifies this`root, this`depth, this`nextBlk, this`lastEb
      ensures Built() && depth == 1 && lastEb == old(nextBlk) && nextBlk == old(nextBlk) + 1
      ensures S() == [Slot(0, LeafBlk(lastEb, 0, old(root).b.recs))] && Hi() == SumRightmost(old(root))
    {
      var leaf := Leaf(LeafBlk(nextBlk, 0, root.b.recs));
      ShiftDepthKeeps(leaf, 0, SumRightmost(leaf), cap);
      root := ShiftDepth(leaf);
      depth := 1;
      lastEb := nextBlk;
      nextBlk := nextBlk + 1;
    }

    /** ocfs2_add_branch(): a new rightmost leaf that holds one empty extent.  A gap between the
        last record and the end of the root's range is closed first. */
    method AddLeaf()
      requires Built() && depth > 0 && |S()| > 0 && S()[|S()| - 1].b.recs != []
      requires S()[|S()| - 1].lo <= LastEnd(S()[|S()| - 1].b.recs) <= Hi()
      requires root.Node? && (RoomBelow(root, cap) || |root.kids| < rootCap)
      modifies this`root, this`lastEb, this`nextBlk
      ensures Built() && lastEb == old(nextBlk) && nextBlk == old(nextBlk) + 1
      ensures S() == WithNewLeaf(old(S()), lastEb) && Hi() == LastEnd(old(S())[|old(S())| - 1].b.recs)
    {
      var s := Slots(root, 0);
      var n := |s| - 1;
      var newCpos := End(s[n].b.recs[|s[n].b.recs| - 1]);
      if SumRightmost(root) > newCpos {
        FixHi(newCpos);
      }
      PutBlk(n, s[n].b.(next := nextBlk));
      var b := LeafBlk(nextBlk, 0, [Rec(newCpos, 0, 0, 0)]);
      AddBranchExtends(root, depth, 0, newCpos, cap, b);
      root := AddBranch(root, depth, cap, b, newCpos);
      lastEb := nextBlk;
      nextBlk := nextBlk + 1;
    }

    /** ocfs2_rotate_subtree_right(): the last record of leaf i - 1 moves to leaf i. */
    method RotateSubtreeRight(ghost x: bool, i: nat)
      requires Built() && depth > 0 && Good(S(), Hi(), x) && 0 < i < |S()|
      requires |S()[i - 1].b.recs| == cap
      requires HasEmpty(S()[i].b.recs) || |S()[i].b.recs| < cap
      modifies this`root
      ensures Built() && Hi() == old(Hi())
      ensures if HasEmpty(old(S())[i - 1].b.recs) then S() == old(S()) else S() == RotatedRight(old(S()), i)
    {
      hide Slots, Good, Solid, CreateEmpty, FlatUpTo, SumRightmost, Shaped, Ranged, Packed, FirstCpos;
      var l, r := Slots(root, 0)[i - 1].b.recs, Slots(root, 0)[i].b.recs;
      if HasEmpty(l) {
        return;
      }
      ghost var s := S();
      RotateRightGood(s, Hi(), x, i);
      PutPairIs(s, i, [NOREC] + l[..|l| - 1], CreateEmpty(r)[0 := l[|l| - 1]], l[|l| - 1].cpos);
      PutLeaf(i, CreateEmpty(r)[0 := l[|l| - 1]]);
      PutLeaf(i - 1, [NOREC] + l[..|l| - 1]);
      FixEdge(i);
    }

    /** ocfs2_find_cpos_for_left_leaf(): a cluster in the leaf to the left, 0 for the leftmost. */
    function LeftCpos(j: nat): int
      requires j < |Slots(root, 0)|
      reads this
    {
      if j == 0 then 0 else Slots(root, 0)[j].lo - 1
    }

    lemma NodeRanged()
      requires Built() && depth > 0
      ensures Ranged(root, 0, Hi())
    {
    }

    /** The cluster in front of leaf j leads to the leaf on its left. */
    lemma FindsLeft(x: bool, j: nat, left: nat)
      requires Built() && depth > 0 && Good(S(), Hi(), x) && 0 < j < |S()| && S()[j - 1].lo < S()[j].lo
      requires left == FindLeaf(root, S()[j].lo - 1)
      ensures left == j - 1
    {
      hide Slots, Solid, SumRightmost, Shaped, Packed, Ranged, Good;
      assert Ranged(root, 0, Hi()) by { NodeRanged(); }
      LowestStart(S(), Hi(), x);
      LosAscend(S(), Hi(), x, 0, j - 1);
      FindLeafRange(root, depth, 0, Hi(), S()[j].lo - 1);
      if left < j - 1 {
        LosAscend(S(), Hi(), x, left + 1, j - 1);
      } else if left >= j {
        LosAscend(S(), Hi(), x, j, left);
      }
    }

    /** ocfs2_rotate_tree_right(): rotate from the rightmost leaf until the one that takes the record
        has room.  Returns that leaf, and whether the leaf on its left needs an edge fix-up after
        the insert. */
    method RotateTreeRight(ghost x: bool, split: Split, cpos: int) returns (right: nat, hasLeft: bool)
      requires Built() && depth > 0 && cpos >= 0 && |S()| > 0
      requires Rotating(S(), Hi(), x, cap, split, cpos, |S()| - 1)
      modifies this`root
      ensures Built() && Hi() == old(Hi()) && Good(S(), Hi(), x) && Filled(S(), cap)
      ensures SameBlocks(old(S()), S()) && Flat(S()) == Flat(old(S()))
      ensures right < |S()| && (right + 1 < |S()| ==> cpos < S()[right + 1].lo)
      ensures !hasLeft ==> S()[right].lo <= cpos && Rotating(S(), Hi(), x, cap, split, cpos, right)
      ensures hasLeft && split == SplitNone ==>
                && right > 0 && Rotating(S(), Hi(), x, cap, split, cpos, right)
                && |S()[right - 1].b.recs| == cap && S()[right - 1].b.recs[cap - 1].cpos < cpos < S()[right].lo
      ensures hasLeft && split != SplitNone ==>
                && right > 0 && SolidBut(S(), right - 1) && HasEmpty(S()[right - 1].b.recs)
                && S()[right].b.recs != [] && Covers(S()[right].b.recs[0], cpos)
    {
      hide Slots, Solid, CreateEmpty, FlatUpTo, SumRightmost, Shaped, Ranged, Packed, Within, RotatedRight,
        Good, Filled, SolidBut, SameBlocks, Covers, HasEmpty;
      right := |Slots(root, 0)| - 1;
      hasLeft := false;
      var leftCpos := LeftCpos(right);
      SameBlocksRefl(S());
      while leftCpos != 0 && cpos <= leftCpos
        invariant Built() && Hi() == old(Hi()) && Rotating(S(), Hi(), x, cap, split, cpos, right)
        invariant SameBlocks(old(S()), S()) && Flat(S()) == Flat(old(S()))
        invariant leftCpos == LeftCpos(right)
        decreases right
      {
        var left := FindLeaf(root, leftCpos);
        LeftLeaf(S(), Hi(), x, cap, right);
        FindsLeft(x, right, left);
        var l := Slots(root, 0)[left].b.recs;
        if split == SplitNone && cpos > l[|l| - 1].cpos {
          return right, true;
        }
        RotatingNext(S(), Hi(), x, cap, split, cpos, right);
        SameBlocksTrans(old(S()), S(), RotatedRight(S(), right));
        RotateSubtreeRight(x, right);
        var r := Slots(root, 0)[right].b.recs;
        if split != SplitNone && Covers(r[0], cpos) {
          return right, true;
        }
        right := left;
        leftCpos := LeftCpos(right);
      }
      LowestStart(S(), Hi(), x);
      if right > 0 {
        LeftLeaf(S(), Hi(), x, cap, right);
      }
    }

    /** The rightmost leaf has no free slot. */
    ghost predicate LastFull()
      requires depth > 0 ==> |S()| > 0
      requires depth == 0 ==> root.Leaf?
      reads this
    {
      if depth == 0 then |root.b.recs| == rootCap else |S()[|S()| - 1].b.recs| == cap
    }

    /** What an insert finds after the tree has grown. */
    ghost predicate Roomy(x: bool)
      reads this
    {
      && Built() && depth > 0 && |S()| > 0 && Good(S(), Hi(), x) && Filled(S(), cap) && SolidBut(S(), |S()| - 1)
      && HasRoom(S()[|S()| - 1].b.recs, cap) && Chained(S(), lastEb, nextBlk)
      && (NoRecords(S()[|S()| - 1].b.recs) ==> |S()| > 1 && Hi() == S()[|S()| - 1].lo == LastEnd(Records()))
      && (HasEmpty(S()[|S()| - 1].b.recs) ==> NoRecords(S()[|S()| - 1].b.recs))
    }

    /** ocfs2_grow_tree(): room for one more record, by a new branch or a new level. */
    method GrowTree(ghost x: bool)
      requires Valid(x) && LastFull()
      modifies this
      ensures Roomy(x) && Records() == old(Records())
      ensures Hi() == LastEnd(old(Records()))
    {
      hide Slots, Good, Filled, SolidBut, Chained, FlatUpTo, Shaped, Ranged, Packed, LastEnd;
      ghost var s := S();
      if depth == 0 {
        InlineFull(x);
        ShiftInline();
        return;
      }
      TidyTail(x);
      if !RoomBelow(root, cap) && |root.kids| == rootCap {
        Shift();
      }
      ChainedMore(s, lastEb, old(nextBlk), nextBlk);
      NewLeafGood(s, Hi(), x, cap, nextBlk, lastEb);
      AddLeaf();
    }

    lemma InlineFull(x: bool)
      requires Valid(x) && depth == 0 && |root.b.recs| == rootCap
      ensures root.Leaf? && SumRightmost(root) == LastEnd(Records()) > 0
      ensures var y := Slot(0, LeafBlk(nextBlk, 0, root.b.recs));
        && Tidy([y], SumRightmost(root), x, cap) && HasRoom(root.b.recs, cap) && Chained([y], nextBlk, nextBlk + 1)
        && Flat([y]) == Records() && !NoRecords(root.b.recs) && !HasEmpty(root.b.recs) && SolidBut([y], 0)
    {
      hide Good, Filled, SolidBut, Chained, FlatUpTo;
      var y := Slot(0, LeafBlk(nextBlk, 0, root.b.recs));
      FlatInline(Slot(0, root.b));
      FlatInline(y);
      InlineGood(y, x, cap);
      SolidButAny([y], 0);
    }

    lemma TidyTail(x: bool)
      requires Valid(x) && depth > 0
      ensures |S()| > 0 && root.Node? && |root.kids| <= rootCap
      ensures S()[|S()| - 1].b.recs != [] && LastEnd(S()[|S()| - 1].b.recs) == LastEnd(Records())
      ensures 0 <= S()[|S()| - 1].lo <= LastEnd(S()[|S()| - 1].b.recs) <= Hi()
    {
      hide Slots, FlatUpTo;
      TidyLeaf(S(), Hi(), x, cap, |S()| - 1);
      FlatLast(S());
    }

    method InsertInline(ghost x: bool, r: Rec, contig: Contig, k: nat, appending: bool)
      requires Valid(x) && depth == 0 && Fits(r) && Apart(Records(), r)
      requires contig != ContigNone ==> k < |root.b.recs| && contig == RecContig(root.b.recs[k], r)
      requires contig == ContigNone ==> |root.b.recs| < rootCap && (appending ==> Appends(root.b.recs, r.cpos))
      requires appending ==> Appends(root.b.recs, r.cpos)
      modifies this`root
      ensures Valid(x) && Updated(old(Records()), Records(), r)
    {
      hide FlatUpTo, Appends, RecContig, InsertAtLeaf, Apart;
      var l := root.b.recs;
      FlatInline(Slot(0, root.b));
      InlineInsert(l, r, contig, k, appending);
      root := Leaf(root.b.(recs := InsertAtLeaf(l, r, contig, k, appending)));
      FlatInline(Slot(0, root.b));
    }

    /** The leaf whose range has the cluster. */
    lemma FindsRange(c: int)
      requires Built() && depth > 0 && c >= 0
      ensures InRangeOf(S(), FindLeaf(root, c), c)
    {
      hide Slots, Shaped, Packed, Ranged;
      NodeRanged();
      FindLeafRange(root, depth, 0, Hi(), c);
    }

    /** What a walk down the tree and a search of the leaf find for a cluster. */
    ghost function Find(c: int): Cell
      reads this
    {
      var i := FindLeaf(root, c);
      if i < |S()| then At(S()[i].b.recs, c) else Hole
    }

    /** The walk finds what a scan of all records would. */
    lemma FindIsAt(x: bool, c: int)
      requires Valid(x) && c >= 0
      ensures Find(c) == At(Records(), c)
    {
      hide Slots, Shaped, Packed, Ranged, Good, Filled, FlatUpTo, SumRightmost, Chained;
      ShallowLeaf(x);
      if depth == 0 {
        FlatInline(Slot(0, root.b));
      } else {
        FindsRange(c);
        AtOfLeaf(S(), Hi(), x, FindLeaf(root, c), c);
      }
    }

    /** The new record continues the last record of a leaf and reaches into the range of the next
        leaf, which can only be when that range begins before its first record. */
    ghost predicate Crosses(p: nat, r: Rec)
      reads this
    {
      p + 1 < |S()| && r.cpos < S()[p + 1].lo < End(r)
    }

    /** An insert that grows the record at k of leaf p.  Clusters past the range of the leaf are not
        found again. */
    method InsertContiguous(ghost x: bool, p: nat, r: Rec, contig: Contig, k: nat, appending: bool)
      requires Valid(x) && depth > 0 && Fits(r) && Apart(Records(), r) && InRangeOf(S(), p, r.cpos)
      requires k < |S()[p].b.recs| && contig == RecContig(S()[p].b.recs[k], r)
      requires contig == ContigRight || (contig == ContigLeft && k > 0)
      requires appending <==> p == |S()| - 1 && Appends(S()[p].b.recs, r.cpos)
      modifies this`root
      ensures old(!Crosses(p, r)) ==> Valid(x) && Updated(old(Records()), Records(), r)
      ensures old(Crosses(p, r)) ==> Find(old(S()[p + 1].lo)) == Hole
    {
      hide Slots, Shaped, Packed, Ranged, Good, Filled, Apart, RecContig, Grown, FlatUpTo, SumRightmost, Chained,
        Updated, SolidBut, SameBlocks;
      ghost var s := S();
      var l := Slots(root, 0)[p].b.recs;
      var hi := if appending then End(r) else SumRightmost(root);
      ghost var fits := !Crosses(p, r);
      LeafHasRecords(s, Hi(), x, cap, p);
      if fits {
        ContigInsert(s, Hi(), x, hi, cap, p, contig, k, r);
      }
      if appending {
        TailStart(x, r.cpos);
        FixHi(End(r));
      }
      PutLeaf(p, InsertAtLeaf(l, r, contig, k, appending));
      if fits {
        ChainKept(s, S(), lastEb, nextBlk);
      } else {
        var c := s[p + 1].lo;
        LosAscend(s, old(Hi()), x, 0, p + 1);
        FindsRange(c);
        TidyLoose(s, old(Hi()), x, cap);
        assert InRangeOf(s, FindLeaf(root, c), c) by { SameRanges(s, S(), FindLeaf(root, c), c); }
        RightOf(s, old(Hi()), x, cap, p, FindLeaf(root, c));
        LeafHole(s, old(Hi()), x, cap, p + 1, r, c);
      }
    }

    lemma LeftStays(x: bool, p: nat, r: Rec, contig: Contig, k: nat)
      requires Valid(x) && depth > 0 && p < |S()| && k < |S()[p].b.recs| && contig == RecContig(S()[p].b.recs[k], r)
      ensures contig == ContigLeft ==> !Crosses(p, r)
    {
      hide Slots, Shaped, Packed, Ranged, Good, Filled, FlatUpTo;
      LeafHasRecords(S(), Hi(), x, cap, p);
      TidyLeaf(S(), Hi(), x, cap, p);
    }

    lemma TailStart(x: bool, cpos: int)
      requires Valid(x) && depth > 0 && |S()| > 0 && S()[|S()| - 1].lo <= cpos
      ensures S()[|S()| - 1].lo <= cpos
    {
    }

    /** ocfs2_append_rec_to_path() and the insert at the end of the rightmost leaf. */
    method InsertAtTail(ghost x: bool, r: Rec)
      requires Roomy(x) && Fits(r) && Apart(Records(), r)
      requires S()[|S()| - 1].lo <= r.cpos && Appends(S()[|S()| - 1].b.recs, r.cpos)
      modifies this`root
      ensures Valid(x) && Updated(old(Records()), Records(), r)
    {
      hide Slots, Shaped, Packed, Ranged, Good, Filled, Apart, FlatUpTo, SumRightmost, Chained, Updated, SolidBut,
        InsertSorted, Solid;
      ghost var s, hi := S(), Hi();
      var right := FindLeaf(root, r.cpos);
      FindsRange(r.cpos);
      FindsLast(s, hi, x, right, r.cpos);
      var l := Slots(root, 0)[right].b.recs;
      TailFits(s, hi, x, cap, r);
      if right > 0 {
        EdgeOnly(s, right, InsertAtLeaf(l, r, ContigNone, 0, true), r.cpos);
      }
      var hasLeft := NoRecords(l) && LeftCpos(right) != 0;
      FixHi(End(r));
      PutLeaf(right, InsertAtLeaf(l, r, ContigNone, 0, true));
      if hasLeft {
        FixEdge(right);
      }
      ChainKept(s, S(), lastEb, nextBlk);
    }

    /** An insert between records: rotate room to the leaf it belongs to. */
    method InsertByRotation(ghost x: bool, r: Rec)
      requires Roomy(x) && Fits(r) && Apart(Records(), r) && r.cpos < LastEnd(Records())
      modifies this`root
      ensures Valid(x) && Updated(old(Records()), Records(), r)
    {
      hide Slots, Shaped, Packed, Ranged, Good, Filled, Apart, FlatUpTo, SumRightmost, Chained, Updated, SolidBut,
        InsertSorted, Solid, HasRoom, SameBlocks, LastEnd, InsertAtLeaf;
      ghost var s, hi := S(), Hi();
      RotatingStart(s, hi, x, cap, r);
      var right, hasLeft := RotateTreeRight(x, SplitNone, r.cpos);
      ghost var s1 := S();
      ChainKept(s, s1, lastEb, nextBlk);
      RotationFits(s1, hi, x, cap, right, hasLeft, r);
      var t := InsertAtLeaf(Slots(root, 0)[right].b.recs, r, ContigNone, 0, false);
      if right > 0 {
        EdgeOnly(s1, right, t, r.cpos);
      }
      PutLeaf(right, t);
      if hasLeft {
        FixEdge(right);
      }
      ChainKept(s1, S(), lastEb, nextBlk);
    }

    lemma ShallowLeaf(x: bool)
      requires Valid(x)
      ensures |Slots(root, 0)| > 0
      ensures depth == 0 ==> root.Leaf? && Slots(root, 0) == [Slot(0, root.b)] && root.b.blk == lastEb
    {
      hide Good, Filled, SolidBut, Chained;
      if depth > 0 {
        LowestStart(S(), Hi(), x);
      }
    }

    /** The block number tells the rightmost leaf, and there appending means after all records. */
    lemma AppendingLast(x: bool, p: nat, cpos: int)
      requires Valid(x) && cpos >= 0 && |S()| > 0
      requires if depth == 0 then p == 0 else InRangeOf(S(), p, cpos)
      ensures p < |S()| && (S()[p].b.blk == lastEb <==> p == |S()| - 1)
      ensures p == |S()| - 1 && Appends(S()[p].b.recs, cpos) <==> LastEnd(Records()) <= cpos
    {
      hide Slots, Good, Filled, SolidBut, FlatUpTo;
      if depth == 0 {
        ShallowLeaf(x);
        FlatInline(Slot(0, root.b));
      } else {
        TidyTail(x);
        LeafHasRecords(S(), Hi(), x, cap, p);
        if p < |S()| - 1 {
          LosAscend(S(), Hi(), x, p + 1, |S()| - 1);
        }
      }
    }

    lemma RoomyAlready(x: bool)
      requires Valid(x) && depth > 0 && |S()| > 0 && |S()[|S()| - 1].b.recs| != cap
      ensures Roomy(x)
    {
      hide Slots, Good, Chained, FlatUpTo;
      LeafHasRecords(S(), Hi(), x, cap, |S()| - 1);
      SolidButAny(S(), |S()| - 1);
    }

    lemma AfterLast(x: bool, cpos: int)
      requires Roomy(x) && LastEnd(Records()) <= cpos
      ensures S()[|S()| - 1].lo <= cpos && Appends(S()[|S()| - 1].b.recs, cpos)
    {
      hide Slots, Good, Filled, Chained, FlatUpTo;
      var n := |S()| - 1;
      if !NoRecords(S()[n].b.recs) {
        TidyLeaf(S(), Hi(), x, cap, n);
        FlatLast(S());
      }
    }

    /** The insert continues a record of the leaf it is directed to and crosses into the next. */
    ghost predicate Overruns(r: Rec, maxLeaf: nat)
      reads this
    {
      var p := FindLeaf(root, r.cpos);
      && p < |S()| && ContigType(S()[p].b.recs, r, maxLeaf) == ContigRight && Crosses(p, r)
    }

    /** Where the ranges are exact no insert overruns. */
    lemma ExactNeverOverruns(r: Rec, maxLeaf: nat)
      requires Valid(true) && Fits(r) && Apart(Records(), r)
      ensures !Overruns(r, maxLeaf)
    {
      hide Slots, Shaped, Packed, Ranged, Good, Filled, Apart, FlatUpTo, SumRightmost, Chained, RecContig;
      ShallowLeaf(true);
      var p := FindLeaf(root, r.cpos);
      if depth > 0 && p + 1 < |S()| && r.cpos < S()[p + 1].lo {
        ExactGood(S(), Hi(), p + 1);
        EndsBeforeNext(S(), Hi(), true, p, r);
      }
    }

    /** ocfs2_insert_extent(): whatever the shape of the tree, the mapping gains the clusters of the
        record and keeps the rest, and the tree stays as it must be; except that a record that
        overruns the range of its leaf is lost to the walk from there on. */
    method InsertExtent(ghost x: bool, r: Rec, maxLeaf: nat)
      requires Valid(x) && Fits(r) && Apart(Records(), r)
      modifies this
      ensures old(!Overruns(r, maxLeaf)) ==> Valid(x) && Updated(old(Records()), Records(), r)
      ensures old(Overruns(r, maxLeaf)) ==> exists c :: Covers(r, c) && Find(c) == Hole
    {
      hide Slots, Shaped, Packed, Ranged, Good, Filled, Apart, FlatUpTo, SumRightmost, Chained, Updated, SolidBut,
        Solid, HasRoom, SameBlocks, RecContig;
      var p := 0;
      if depth > 0 {
        p := FindLeaf(root, r.cpos);
        FindsRange(r.cpos);
      }
      ShallowLeaf(x);
      var el := Slots(root, 0)[p].b.recs;
      var contig, k := ContigType(el, r, maxLeaf), FindContig(el, r, 0);
      if depth > 0 && contig == ContigLeft && k == 0 {
        contig := ContigNone;
      }
      var appending := Slots(root, 0)[p].b.blk == lastEb && Appends(el, r.cpos);
      AppendingLast(x, p, r.cpos);
      if contig != ContigNone {
        if depth == 0 {
          InsertInline(x, r, contig, k, appending);
        } else {
          LeftStays(x, p, r, contig, k);
          InsertContiguous(x, p, r, contig, k, appending);
        }
        return;
      }
      var full := if depth == 0 then rootCap == |el| else cap == |Slots(root, 0)[|Slots(root, 0)| - 1].b.recs|;
      if full {
        GrowTree(x);
      } else if depth == 0 {
        InsertInline(x, r, contig, k, appending);
        return;
      } else {
        RoomyAlready(x);
      }
      if appending {
        AfterLast(x, r.cpos);
        InsertAtTail(x, r);
      } else {
        InsertByRotation(x, r);
      }
    }

    // ----- Rotating to the left -----

    /** What holds while records move to the left. */
    ghost predicate Moving(x: bool)
      reads this
    {
      Built() && depth > 0 && |S()| > 0 && Loose(S(), Hi(), x, cap) && Chained(S(), lastEb, nextBlk)
    }

    /** ocfs2_unlink_subtree(), ocfs2_update_edge_lengths() and the new last block. */
    method UnlinkLast()
      requires Built() && depth > 0 && |S()| > 1 && S()[|S()| - 2].b.recs != []
      requires S()[|S()| - 2].lo <= LastEnd(S()[|S()| - 2].b.recs)
      modifies this`root, this`lastEb
      ensures Built() && S() == WithoutLast(old(S())) && Hi() == LastEnd(old(S()[|S()| - 2].b.recs))
      ensures lastEb == old(S()[|S()| - 2].b.blk)
    {
      var s := Slots(root, 0);
      var n := |s| - 2;
      var range := End(s[n].b.recs[|s[n].b.recs| - 1]);
      PutBlk(n, s[n].b.(next := 0));
      UnlinkShortens(root, depth, 0, Hi(), cap, range);
      root := SetHi(Unlink(root), range);
      lastEb := s[n].b.blk;
    }

    /** ocfs2_rotate_subtree_left() for leaves i - 1 and i: `again` is -EAGAIN, `deleted` says that
        leaf i is gone. */
    method RotateSubtreeLeft(ghost x: bool, i: nat) returns (again: bool, deleted: bool)
      requires Moving(x) && 0 < i < |S()| && HasEmpty(S()[i - 1].b.recs)
      modifies this`root, this`lastEb
      ensures Moving(x) && Records() == old(Records())
      ensures again <==> old(i < |S()| - 1 && HasEmpty(S()[i].b.recs))
      ensures again ==> S() == old(S()) && !deleted
      ensures deleted <==> old(i == |S()| - 1 && |Solid(S()[i].b.recs)| <= 1)
      ensures |S()| == if deleted then old(|S()|) - 1 else old(|S()|)
      ensures !again ==> !HasEmpty(S()[i - 1].b.recs)
      ensures !again && !deleted ==> (HasEmpty(S()[i].b.recs) <==> i < |S()| - 1)
      ensures Empties(S()) <= Empties(old(S()))
      ensures !again && i == old(|S()|) - 1 ==> Empties(S()) < Empties(old(S()))
      ensures forall j :: 0 <= j < i - 1 ==> S()[j].b.recs == old(S())[j].b.recs
    {
      hide Slots, Shaped, Packed, Ranged, Good, Filled, FlatUpTo, SumRightmost, Chained, Solid, SameBlocks,
        EmptiesUpTo, LastEnd, RotateLeaf, RotatedLeft, InsertSorted;
      ghost var s := S();
      var n := |Slots(root, 0)|;
      var l, r := Slots(root, 0)[i - 1].b.recs, Slots(root, 0)[i].b.recs;
      again, deleted := false, false;
      if HasEmpty(r) && i < n - 1 {
        return true, false;
      }
      var rest := Solid(r);
      LooseLeaf(s, Hi(), x, cap, i);
      if i == n - 1 && |rest| <= 1 {
        RotateLeftDrops(s, Hi(), x, cap, lastEb, nextBlk);
        DropMiddle(s, rest);
        if |rest| == 1 {
          PutLeaf(i - 1, RotateLeaf(l, rest[0]));
          UnlinkLast();
        } else {
          UnlinkLast();
          PutLeaf(i - 1, Solid(l));
        }
        return false, true;
      }
      RotateLeftGood(s, Hi(), x, cap, i);
      RotatedLeftIs(s, i);
      PutLeaf(i - 1, RotateLeaf(l, rest[0]));
      PutLeaf(i, if i == n - 1 then rest[1..] else [NOREC] + rest[1..]);
      FixEdge(i);
      ChainKept(s, S(), lastEb, nextBlk);
    }

    /** ocfs2_find_cpos_for_right_leaf(): where the leaf to the right starts, 0 for the rightmost. */
    function RightCpos(j: nat): int
      requires j < |Slots(root, 0)|
      reads this
    {
      if j == |Slots(root, 0)| - 1 then 0 else Slots(root, 0)[j + 1].lo
    }

    /** __ocfs2_rotate_tree_left(): fill the empty slot of leaf `start` by moving one record left
        in every pair from there on.  `again` is -EAGAIN, and leaf `restart` is in the way. */
    method RotateLeftFrom(ghost x: bool, start: nat) returns (again: bool, restart: nat)
      requires Moving(x) && start < |S()| && (start < |S()| - 1 || !HasEmpty(S()[start].b.recs))
      modifies this`root, this`lastEb
      ensures Moving(x) && Records() == old(Records())
      ensures again ==> |S()| == old(|S()|) && start < restart < |S()| - 1 && HasEmpty(S()[restart].b.recs)
      ensures start < |S()| && (!again || restart > start + 1 ==> !HasEmpty(S()[start].b.recs))
      ensures |S()| >= old(|S()|) - 1 && Empties(S()) <= Empties(old(S()))
      ensures !again && HasEmpty(old(S())[start].b.recs) ==> Empties(S()) < Empties(old(S()))
      ensures forall j :: 0 <= j < start ==> S()[j].b.recs == old(S())[j].b.recs
    {
      hide Slots, Shaped, Packed, Ranged, Good, Filled, FlatUpTo, SumRightmost, Chained, Solid, HasEmpty,
        EmptiesUpTo, LastEnd, Loose;
      again, restart := false, 0;
      if !HasEmpty(Slots(root, 0)[start].b.recs) {
        return;
      }
      var left := start;
      var rightCpos := RightCpos(left);
      while rightCpos != 0
        invariant Moving(x) && Records() == old(Records()) && !again
        invariant start <= left < |S()| == old(|S()|) && rightCpos == RightCpos(left)
        invariant left < |S()| - 1 ==> HasEmpty(S()[left].b.recs)
        invariant left == |S()| - 1 ==> Empties(S()) < Empties(old(S()))
        invariant left > start ==> !HasEmpty(S()[start].b.recs)
        invariant Empties(S()) <= Empties(old(S()))
        invariant forall j :: 0 <= j < start ==> S()[j].b.recs == old(S())[j].b.recs
        decreases |S()| - left
      {
        var right := FindLeaf(root, rightCpos);
        LooseLo(S(), Hi(), x, cap, left);
        FindsRange(rightCpos);
        RightOf(S(), Hi(), x, cap, left, right);
        var blocked, deleted := RotateSubtreeLeft(x, right);
        if blocked {
          return true, right;
        }
        if deleted {
          break;
        }
        left := right;
        rightCpos := RightCpos(left);
      }
      if left < |S()| - 1 && rightCpos == 0 {
        LooseLo(S(), Hi(), x, cap, left);
      }
    }

    /** ocfs2_remove_rightmost_path(): the rightmost leaf goes away; with the only leaf the root
        goes back to holding the records itself. */
    method RemoveRightmostPath(ghost x: bool)
      requires Moving(x) && Solid(S()[|S()| - 1].b.recs) == []
      modifies this`root, this`lastEb, this`depth
      ensures Records() == old(Records()) && (depth == 0 <==> old(|S()|) == 1)
      ensures depth > 0 ==> (
                && Moving(x) && |S()| == old(|S()|) - 1
                && Empties(S()) == Empties(old(S())) - EmptyIn(old(S()[|S()| - 1].b.recs))
                && forall j :: 0 <= j < |S()| ==> S()[j].b.recs == old(S())[j].b.recs)
      ensures depth == 0 ==> Valid(x) && Records() == []
    {
      hide Slots, Shaped, Packed, Ranged, Good, Filled, FlatUpTo, SumRightmost, Chained, Solid, HasEmpty,
        EmptiesUpTo, LastEnd, Loose;
      ghost var s := S();
      var n := |Slots(root, 0)|;
      if n > 1 {
        LooseLeaf(s, Hi(), x, cap, n - 2);
        LooseAlso(s, Hi(), x, cap);
        DropLastGood(s, Hi(), x, cap, lastEb, nextBlk);
        UnlinkLast();
      } else {
        OnlyLeafEmpty(s);
        root := Leaf(LeafBlk(0, 0, []));
        depth := 0;
        lastEb := 0;
        InlineEmpty(x);
      }
    }

    lemma InlineEmpty(x: bool)
      requires root == Leaf(LeafBlk(0, 0, [])) && depth == 0 && lastEb == 0
      requires 0 < rootCap < cap && cap >= 3 && nextBlk > 0
      ensures Valid(x) && Records() == []
    {
      FlatInline(Slot(0, root.b));
    }

    /** ocfs2_rotate_tree_left(): the restarts after -EAGAIN come to an end, the starting leaf loses
        its empty slot, the records keep their order, and a rightmost branch goes away only when it
        has none left. */
    method RotateTreeLeft(ghost x: bool, p: nat)
      requires Moving(x) && p < |S()|
      modifies this`root, this`lastEb, this`depth
      ensures Records() == old(Records())
      ensures !HasEmpty(old(S())[p].b.recs) ==> S() == old(S()) && depth == old(depth)
      ensures depth > 0 ==> Moving(x) && Empties(S()) <= Empties(old(S()))
      ensures depth > 0 && HasEmpty(old(S())[p].b.recs) ==> Empties(S()) < Empties(old(S()))
      ensures depth > 0 && p < |S()| ==> !HasEmpty(S()[p].b.recs)
      ensures depth == 0 ==> Valid(x) && Records() == [] && old(|S()|) == 1
      ensures old(p < |S()| - 1 || |S()[p].b.recs| > 1) ==> depth > 0 && p < |S()|
      ensures depth > 0 && p < |S()| ==> forall j :: 0 <= j < p ==> S()[j].b.recs == old(S())[j].b.recs
    {
      hide Slots, Shaped, Packed, Ranged, Good, Filled, FlatUpTo, SumRightmost, Chained, Solid, HasEmpty,
        EmptiesUpTo, LastEnd, Loose;
      var l := Slots(root, 0)[p].b.recs;
      if !HasEmpty(l) {
        return;
      }
      if p == |Slots(root, 0)| - 1 {
        if |l| > 1 {
          ghost var s := S();
          LastSolid(s, Hi(), x, cap);

          PutLeaf(p, Solid(l));
          ChainKept(s, S(), lastEb, nextBlk);
          EmptyInIs(l);
        } else {
          OneEmpty(S(), Hi(), x, cap, p);
          EmptyInIs(l);
          RemoveRightmostPath(x);
        }
        return;
      }
      var done := false;
      while !done
        invariant Moving(x) && Records() == old(Records()) && depth > 0 && p < |S()|
        invariant forall j :: 0 <= j < p ==> S()[j].b.recs == old(S())[j].b.recs
        invariant done ==> !HasEmpty(S()[p].b.recs) && Empties(S()) < Empties(old(S()))
        invariant !done ==> p < |S()| - 1 || !HasEmpty(S()[p].b.recs)
        invariant Empties(S()) <= Empties(old(S()))
        invariant !done && Empties(S()) == Empties(old(S())) ==> HasEmpty(S()[p].b.recs)
        decreases !done, Empties(S())
      {
        ghost var before := Empties(S());
        var again, q := RotateLeftFrom(x, p);
        if !again {
          done := true;
        }
        ghost var size := |S()|;
        while again
          invariant Moving(x) && Records() == old(Records()) && p < |S()|
          invariant forall j :: 0 <= j < p ==> S()[j].b.recs == old(S())[j].b.recs
          invariant again ==> p < q < |S()| - 1 && HasEmpty(S()[q].b.recs) && |S()| == size
          invariant Empties(S()) <= before
          invariant !done && !again ==> Empties(S()) < before && p < |S()| - 1
          invariant done ==> !again && !HasEmpty(S()[p].b.recs) && Empties(S()) < Empties(old(S()))
          decreases again, size - q
        {
          again, q := RotateLeftFrom(x, q);
        }
      }
    }

    // ----- Removing -----

    lemma InlineCut(x: bool, index: nat, cpos: int, len: int)
      requires Valid(x) && depth == 0 && index < |root.b.recs| && CutsEdge(root.b.recs[index], cpos, len)
      ensures var l, t := root.b.recs, Solid(Trimmed(root.b.recs, index, cpos, len));
        Records() == l && Sorted(t) && |t| <= rootCap && Removed(l, t, cpos, cpos + len)
    {
      hide FlatUpTo, Removed;
      FlatInline(Slot(0, root.b));
      TrimmedSolid(root.b.recs, index, cpos, len);
      SolidSize(Trimmed(root.b.recs, index, cpos, len));
    }

    lemma NextIsNone(x: bool, p: nat)
      requires Valid(x) && depth > 0 && p < |S()|
      ensures S()[p].b.next == 0 <==> p == |S()| - 1
    {
      hide Slots, Good, Filled, SolidBut;
      if p < |S()| - 1 {
        assert S()[p + 1].b.blk > 0;
      }
    }

    method CutInline(ghost x: bool, index: nat, cpos: int, len: int)
      requires Valid(x) && depth == 0 && index < |root.b.recs| && CutsEdge(root.b.recs[index], cpos, len)
      modifies this`root
      ensures Valid(x) && Removed(old(Records()), Records(), cpos, cpos + len)
    {
      hide FlatUpTo, Removed, CutsEdge, Trimmed, Solid;
      InlineCut(x, index, cpos, len);
      root := Leaf(root.b.(recs := Solid(Trimmed(root.b.recs, index, cpos, len))));
      FlatInline(Slot(0, root.b));
    }

    /** ocfs2_truncate_rec(): cut an edge, or all, of the record at index of leaf p.  Exact ranges stay so
        unless the cut was a `LoneLeftCut`, after which they never are. */
    method TruncateRec(ghost x: bool, p: nat, index: nat, cpos: int, len: int)
      requires Valid(x) && p < |S()| && index < |S()[p].b.recs| && CutsEdge(S()[p].b.recs[index], cpos, len)
      modifies this`root, this`lastEb, this`depth
      ensures Removed(old(Records()), Records(), cpos, cpos + len)
      ensures Valid(x && old(!LoneLeftCut(S(), p, cpos, len)))
      ensures old(LoneLeftCut(S(), p, cpos, len)) ==>
                && !Valid(true) && depth == old(depth)
                && S() == old(S())[p := WithRecs(old(S())[p], Trimmed(old(S())[p].b.recs, 0, cpos, len))]
    {
      hide Slots, Shaped, Packed, Ranged, Good, Filled, FlatUpTo, SumRightmost, Chained, Solid, HasEmpty, Trimmed,
        EmptiesUpTo, LastEnd, Removed, CutsEdge, FirstCpos, SolidBut;
      ghost var s := S();
      ShallowLeaf(x);
      var l := Slots(root, 0)[p].b.recs;
      var t := Trimmed(l, index, cpos, len);
      if depth == 0 {
        CutInline(x, index, cpos, len);
        return;
      }
      ghost var y := x && !LoneLeftCut(s, p, cpos, len);
      TidyWeaker(s, Hi(), x, y, cap);
      TrimGood(s, Hi(), y, cap, p, index, cpos, len);
      TrimmedFlat(s, Hi(), y, cap, p, index, cpos, len);
      TrimHi(s, Hi(), y, cap, p, index, cpos, len);
      LeafHasRecords(s, Hi(), y, cap, p);
      var atEdge := p > 0 && index == 0 && |l| > 1 && l[0].cpos == cpos;
      var newHi := if Slots(root, 0)[p].b.next == 0 && index == |l| - 1 && Solid(t) != [] && cpos + len == End(l[index])
                   then LastEnd(t) else SumRightmost(root);
      NextIsNone(x, p);
      if AtEdge(s, p, index, cpos) {
        TrimmedFull(s, Hi(), y, cap, p, index, cpos, len);
      }
      PutLeaf(p, t);
      if newHi != SumRightmost(root) {
        FixHi(newHi);
      }
      if atEdge {
        EdgeOnly(s, p, t, FirstCpos(Leaf(s[p].b.(recs := t))));
        FixEdge(p);
      }
      ghost var u := S();
      ChainKept(s, u, lastEb, nextBlk);
      EmptiesOne(u, p);
      if LoneLeftCut(s, p, cpos, len) {
        LoneIsInexact(s, old(Hi()), y, cap, p, cpos, len, u);
      }
      RotateTreeLeft(y, p);
      if depth > 0 {
        LooseTidy(S(), Hi(), y, cap);
      }
    }

    // ----- Splitting -----

    /** Where the record that covers a cluster is. */
    lemma Locate(x: bool, c: int, k: nat)
      requires Valid(x) && c >= 0 && k < |Records()| && Covers(Records()[k], c)
      ensures var p := FindLeaf(root, c);
        && p < |S()| && 0 <= Search(S()[p].b.recs, c) < |S()[p].b.recs|
        && S()[p].b.recs[Search(S()[p].b.recs, c)] == Records()[k]
    {
      hide Slots, Shaped, Packed, Ranged, Good, Filled, FlatUpTo, SumRightmost, Chained, Covers, EmptyIn, SearchFrom;
      ShallowLeaf(x);
      if depth == 0 {
        FlatInline(Slot(0, root.b));
        CoversOnce(root.b.recs, k, Search(root.b.recs, c), c);
      } else {
        FindsRange(c);
        SplitFound(S(), Hi(), x, FindLeaf(root, c), c, k);
      }
    }

    method SplitInline(ghost x: bool, ghost k: nat, piece: Rec, split: Split)
      requires Valid(x) && depth == 0 && |root.b.recs| < rootCap
      requires k < |Records()| && Splits(Records()[k], piece, split)
      modifies this`root
      ensures Valid(x) && Records() == SplitAt(old(Records()), k, piece, split)
    {
      hide FlatUpTo, Splits, SplitAt, Subtract, InsertSorted, Solid, SearchFrom;
      FlatInline(Slot(0, root.b));
      InlineSplit(root.b.recs, k, piece, split);
      var l := root.b.recs;
      var i := Search(l, piece.cpos);
      root := Leaf(root.b.(recs := RotateLeaf(l[i := Subtract(l[i], piece, split)], piece)));
      FlatInline(Slot(0, root.b));
    }

    /** ocfs2_split_record() after a rotation made room: in the leaf that holds the record, or
        across two leaves when the record itself was the one that moved. */
    method SplitRotated(ghost x: bool, ghost k: nat, piece: Rec, split: Split)
      requires Roomy(x) && k < |Records()| && Splits(Records()[k], piece, split)
      modifies this`root
      ensures Valid(x) && Records() == SplitAt(old(Records()), k, piece, split)
    {
      hide Slots, Shaped, Packed, Ranged, Good, Filled, FlatUpTo, SumRightmost, Chained, SolidBut, Subtract, SplitAt,
        Splits, InsertSorted, Solid, HasRoom, SameBlocks, LastEnd, RotateLeaf, SearchFrom, HasEmpty;
      SplitStarts(S(), Hi(), x, cap, k, piece, split);
      var right, hasLeft := RotateTreeRight(x, split, piece.cpos);
      ghost var s, hi := S(), Hi();
      ChainKept(old(S()), s, lastEb, nextBlk);
      var r := Slots(root, 0)[right].b.recs;
      if !hasLeft {
        SplitInside(s, hi, x, cap, right, k, piece, split);
        var i := Search(r, piece.cpos);
        PutLeaf(right, RotateLeaf(r[i := Subtract(r[i], piece, split)], piece));
      } else {
        SplitAcross(s, hi, x, cap, right, k, piece, split);
        var l := Slots(root, 0)[right - 1].b.recs;
        AcrossSteps(s, hi, x, right, piece, split);
        var l', r' := RotateLeaf(l, piece), r[0 := Subtract(r[0], piece, split)];
        if split == SplitRight {
          var moved := RotateLeaf(l, r[0]);
          var i := Search(moved, piece.cpos);
          l', r' := moved[i := Subtract(moved[i], piece, split)], RotateLeaf(r[0 := NOREC], piece);
        }
        PutPairIs(s, right, l', r', r'[0].cpos);
        PutLeaf(right, r');
        PutLeaf(right - 1, l');
        FixEdge(right);
      }
      ChainKept(s, S(), lastEb, nextBlk);
    }

    lemma RecordsSorted(x: bool)
      requires Valid(x)
      ensures Sorted(Records())
    {
      hide Slots, Shaped, Packed, Ranged, Good, Filled, FlatUpTo, SumRightmost, Chained;
      ShallowLeaf(x);
      if depth == 0 {
        FlatInline(Slot(0, root.b));
      } else {
        FlatWithin(S(), Hi(), x);
      }
    }

    /** Cut a piece off a record as one of its own, growing the tree if its last leaf is full. */
    method SplitOff(ghost x: bool, ghost k: nat, piece: Rec, split: Split)
      requires Valid(x) && k < |Records()| && Splits(Records()[k], piece, split)
      modifies this
      ensures Valid(x) && Records() == SplitAt(old(Records()), k, piece, split)
    {
      hide Slots, Shaped, Packed, Ranged, Good, Filled, FlatUpTo, SumRightmost, Chained, SolidBut, SplitAt, Splits;
      ShallowLeaf(x);
      var n := |Slots(root, 0)|;
      var full := if depth == 0 then |root.b.recs| == rootCap else |Slots(root, 0)[n - 1].b.recs| == cap;
      if full {
        GrowTree(x);
      } else if depth == 0 {
        SplitInline(x, k, piece, split);
        return;
      } else {
        RoomyAlready(x);
      }
      SplitRotated(x, k, piece, split);
    }

    /** ocfs2_split_and_insert(): the new record replaces the part of the old one that it covers;
        a part in the middle is split off on the right first. */
    method SplitAndInsert(ghost x: bool, ghost k: nat, r: Rec)
      requires Valid(x) && k < |Records()| && 0 < r.clusters < Records()[k].clusters
      requires Records()[k].cpos <= r.cpos && End(r) <= End(Records()[k])
      modifies this
      ensures Valid(x) && Updated(old(Records()), Records(), r)
    {
      hide Slots, Shaped, Packed, Ranged, Good, Filled, FlatUpTo, SumRightmost, Chained, SolidBut, Updated, SameMap,
        SplitAt;
      RecordsSorted(x);
      ghost var s := Records();
      CoveredRecord(x, k, r.cpos);
      var p := FindLeaf(root, r.cpos);
      var rec := Slots(root, 0)[p].b.recs[Search(Slots(root, 0)[p].b.recs, r.cpos)];
      if r.cpos == rec.cpos {
        SplitAtUpdates(s, k, r, SplitLeft);
        SplitOff(x, k, r, SplitLeft);
      } else if End(r) == End(rec) {
        SplitAtUpdates(s, k, r, SplitRight);
        SplitOff(x, k, r, SplitRight);
      } else {
        RightPartKeeps(s, k, End(r));
        SplitOff(x, k, RightPart(End(r), rec), SplitRight);
        ghost var t := Records();
        SplitAtUpdates(t, k, r, SplitRight);
        SplitOff(x, k, r, SplitRight);
        UpdatedAfter(s, t, Records(), r);
      }
    }

    lemma CoveredRecord(x: bool, k: nat, c: int)
      requires Valid(x) && k < |Records()| && Covers(Records()[k], c)
      ensures c >= 0
      ensures var p := FindLeaf(root, c);
        && p < |S()| && 0 <= Search(S()[p].b.recs, c) < |S()[p].b.recs|
        && S()[p].b.recs[Search(S()[p].b.recs, c)] == Records()[k]
    {
      hide Slots, Shaped, Packed, Ranged, Good, Filled, FlatUpTo, SumRightmost, Chained, SearchFrom;
      RecordsSorted(x);
      Locate(x, c, k);
    }

    /** The removal trims the only record of the rightmost leaf on its left. */
    ghost predicate CutsLone(cpos: int, len: int)
      reads this
    {
      var p := FindLeaf(root, cpos);
      p < |S()| && LoneLeftCut(S(), p, cpos, len)
    }

    lemma LeafFound(x: bool, c: int)
      requires Valid(x) && c >= 0
      ensures FindLeaf(root, c) < |S()|
      ensures Search(S()[FindLeaf(root, c)].b.recs, c) == -1 <==> At(Records(), c) == Hole
    {
      hide Slots, Shaped, Packed, Ranged, Good, Filled, FlatUpTo, SumRightmost, Chained, SolidBut, SearchFrom;
      ShallowLeaf(x);
      FindIsAt(x, c);
      if depth > 0 {
        FindsRange(c);
      }
      var el := S()[FindLeaf(root, c)].b.recs;
      AtHole(el, |el|, c);
    }

    lemma WeakerValid(x: bool, y: bool)
      requires Valid(x) && (y ==> x)
      ensures Valid(y)
    {
      hide Slots, Good, Filled, SolidBut;
      if depth > 0 {
        TidyWeaker(S(), Hi(), x, y, cap);
      }
    }

    /** The range ends no later than the record that has its start. */
    ghost predicate InOneRecord(cpos: int, len: int)
      reads this
    {
      forall k :: 0 <= k < |Records()| && Covers(Records()[k], cpos) ==> cpos + len <= End(Records()[k])
    }

    /** ocfs2_remove_extent(): exactly the clusters asked for are unmapped, unless no record has their
        start, and the tree stays as it must be, with exact ranges if and only if they were exact and
        the cut was none of `CutsLone`. */
    method RemoveExtent(ghost x: bool, cpos: int, len: int) returns (ok: bool)
      requires Valid(x) && cpos >= 0 && len > 0 && InOneRecord(cpos, len)
      modifies this
      ensures ok <==> At(old(Records()), cpos) != Hole
      ensures if ok then Removed(old(Records()), Records(), cpos, cpos + len) else Records() == old(Records())
      ensures Valid(x && old(!CutsLone(cpos, len)))
      ensures old(CutsLone(cpos, len)) ==> !Valid(true)
    {
      hide Slots, Shaped, Packed, Ranged, Good, Filled, FlatUpTo, SumRightmost, Chained, SolidBut, Removed, SameMap,
        SplitAt, SearchFrom, At;
      RecordsSorted(x);
      LeafFound(x, cpos);
      ghost var s := Records();
      var p := FindLeaf(root, cpos);
      var index := Search(Slots(root, 0)[p].b.recs, cpos);
      if index == -1 {
        WeakerValid(x, x && !CutsLone(cpos, len));
        return false;
      }
      ok := true;
      ghost var k := FoundAt(x, p, index, cpos);
      var rec := Slots(root, 0)[p].b.recs[index];
      if rec.cpos == cpos || End(rec) == cpos + len {
        TruncateRec(x, p, index, cpos, len);
        return;
      }
      RightPartKeeps(s, k, cpos + len);
      SplitOff(x, k, RightPart(cpos + len, rec), SplitRight);
      ghost var t := Records();
      CoveredRecord(x, k, cpos);
      p := FindLeaf(root, cpos);
      index := Search(Slots(root, 0)[p].b.recs, cpos);
      TruncateRec(x, p, index, cpos, len);
      RemovedAfter(s, t, Records(), cpos, cpos + len);
    }

    // ----- Merging -----

    /** ocfs2_merge_rec_right(): the clusters of r, the end of record `index` of leaf p, go to the
        front of the next record, in this leaf or the one to the right. */
    method MergeRecRight(ghost x: bool, p: nat, index: nat, r: Rec, ghost k: nat)
      requires Valid(x) && depth > 0 && IsAt(S(), p, index, k) && k + 1 < |Records()|
      requires JoinsNext(Records()[k], Records()[k + 1], r)
      modifies this`root
      ensures Moving(x) && SameBlocks(old(S()), S()) && SolidBut(S(), p)
      ensures Records() == MergedRight(old(Records()), k, r.clusters)
      ensures |S()| == old(|S()|) && p < |S()|
      ensures HasEmpty(S()[p].b.recs) <==> old(r.clusters == Records()[k].clusters)
      ensures FlatUpTo(S(), p) == FlatUpTo(old(S()), p) && |S()[p].b.recs| == |old(S())[p].b.recs|
    {
      hide Slots, Shaped, Packed, Ranged, Good, Filled, FlatUpTo, FlatFrom, SumRightmost, Chained, SolidBut, Solid,
        JoinsNext, MergedRight, MergedNext, GrowFront, KeepLeft, GaveLast, Within;
      ghost var s, hi := S(), Hi();
      var l := Slots(root, 0)[p].b.recs;
      var n := r.clusters;
      NextWhere(s, hi, x, cap, p, index, k);
      LeafHasRecords(s, hi, x, cap, p);
      TidyLeaf(s, hi, x, cap, p);
      if index == |l| - 1 && |l| == cap {
        LeafHasRecords(s, hi, x, cap, p + 1);
        TidyLeaf(s, hi, x, cap, p + 1);
        TidyLoose(s, hi, x, cap);
        LooseLo(s, hi, x, cap, p);
        FindsRange(RightCpos(p));
        var right := FindLeaf(root, RightCpos(p));
        RightOf(s, hi, x, cap, p, right);
        var q := Slots(root, 0)[right].b.recs;
        var l' := GaveLast(l, n);
        var g := GrowFront(q[0], n);
        MergeAcrossNext(s, hi, x, cap, p, r);
        AcrossNextIs(s, p, k, n);
        PutPairIs(s, right, l', q[0 := g], g.cpos);
        PutLeaf(right, q[0 := g]);
        PutLeaf(p, l');
        FixEdge(right);
        FlatSame(s, S(), p);
      } else {
        MergeNextLeaf(l, s[p].lo, RangeEnd(s, p, hi), index, r);
        MergeInside(s, hi, x, cap, p, MergedNext(l, index, n), MergedRight(l, index, n), n == l[index].clusters);
        FlatAround(s, p);
        SpliceNext(FlatUpTo(s, p), l, FlatFrom(s, p + 1), index, n);
        PutLeaf(p, MergedNext(l, index, n));
        FlatSame(s, S(), p);
      }
      ChainKept(s, S(), lastEb, nextBlk);
    }

    /** The merge of the first record of leaf p with the last of the leaf to its left. */
    method MergeAcrossLeft(ghost x: bool, p: nat, r: Rec, ghost k: nat) returns (q: nat)
      requires Valid(x) && depth > 0 && 0 < k < |Records()| && IsAt(S(), p, 0, k)
      requires JoinsPrev(Records()[k - 1], Records()[k], r)
      modifies this`root, this`lastEb
      ensures Moving(x) && q < |S()| && SolidBut(S(), q)
      ensures HasEmpty(S()[q].b.recs) ==> old(r.clusters == Records()[k].clusters)
      ensures Records() == MergedLeft(old(Records()), k, r.clusters)
    {
      hide Slots, Shaped, Packed, Ranged, Good, Filled, FlatUpTo, FlatFrom, SumRightmost, Chained, SolidBut, Solid,
        JoinsPrev, MergedLeft, GrowBack, KeepRight, CleanupMerge, Within, GaveFirst, FirstCpos, LastEnd;
      ghost var s, hi := S(), Hi();
      var t := Slots(root, 0)[p].b.recs;
      var n := r.clusters;
      q := p;
      PrevWhere(s, hi, x, cap, p, 0, k);
      LeafHasRecords(s, hi, x, cap, p);
      TidyLeaf(s, hi, x, cap, p);
      LeafHasRecords(s, hi, x, cap, p - 1);
      TidyLeaf(s, hi, x, cap, p - 1);
      LeftLeaf(s, hi, x, cap, p) by { SolidButAny(s, p); }
      FindsLeft(x, p, FindLeaf(root, LeftCpos(p)));
      var left := FindLeaf(root, LeftCpos(p));
      var l := Slots(root, 0)[left].b.recs;
      var l' := l[|l| - 1 := GrowBack(l[|l| - 1], n)];
      var rest := GaveFirst(t, n);
      MergeAcrossPrev(s, hi, x, cap, p, r);
      AcrossPrevIs(s, p, k, n);
      if rest[0].clusters == 0 && |rest| == 1 {
        UsedUp(s, p, t, n);
        MergeDropsLast(s, hi, x, cap, r, lastEb, nextBlk);
        PutLeaf(left, l');
        UnlinkLast();
        q := left;
        TidyMoving(S(), Hi(), x, cap, q);
      } else {
        StillThere(t, n);
        EdgeStart(s[p].b, rest);
        PutPairIs(s, p, l', rest, Solid(rest)[0].cpos);
        PutLeaf(p, rest);
        PutLeaf(left, l');
        FixEdge(p);
        ChainKept(s, S(), lastEb, nextBlk);
      }
    }

    /** ocfs2_merge_rec_left(): the clusters of r, the start of record `index` of leaf p, go to the
        end of the record before, in this leaf or the one to the left.  When that uses up the only
        record of the rightmost leaf, the leaf goes away; the leaf to go on with is returned. */
    method MergeRecLeft(ghost x: bool, p: nat, index: nat, r: Rec, ghost k: nat) returns (q: nat)
      requires Valid(x) && depth > 0 && 0 < k < |Records()| && IsAt(S(), p, index, k)
      requires JoinsPrev(Records()[k - 1], Records()[k], r)
      modifies this`root, this`lastEb
      ensures Moving(x) && q < |S()| && SolidBut(S(), q)
      ensures HasEmpty(S()[q].b.recs) ==> old(r.clusters == Records()[k].clusters)
      ensures Records() == MergedLeft(old(Records()), k, r.clusters)
    {
      hide Slots, Shaped, Packed, Ranged, Good, Filled, FlatUpTo, FlatFrom, SumRightmost, Chained, SolidBut, Solid,
        JoinsPrev, MergedLeft, MergedPrev, GrowBack, KeepRight, CleanupMerge, Within, GaveFirst, FirstCpos, LastEnd;
      ghost var s, hi := S(), Hi();
      var t := Slots(root, 0)[p].b.recs;
      var n := r.clusters;
      q := p;
      PrevWhere(s, hi, x, cap, p, index, k);
      LeafHasRecords(s, hi, x, cap, p);
      TidyLeaf(s, hi, x, cap, p);
      if index > 0 {
        MergePrevLeaf(t, s[p].lo, RangeEnd(s, p, hi), index, r);
        MergeInside(s, hi, x, cap, p, MergedPrev(t, index, n), MergedLeft(t, index, n), n == t[index].clusters);
        FlatAround(s, p);
        SplicePrev(FlatUpTo(s, p), t, FlatFrom(s, p + 1), index, n);
        PutLeaf(p, MergedPrev(t, index, n));
        ChainKept(s, S(), lastEb, nextBlk);
        return;
      }
      q := MergeAcrossLeft(x, p, r, k);
    }

    /** Merges and replacements in a tree without blocks; what is left over is rotated away. */
    method MergeInline(ghost x: bool, k: nat, r: Rec, contig: Contig)
      requires Valid(x) && depth == 0 && PartOf(Records(), k, r) && contig == MergeContig(Records(), k, r) != ContigNone
      modifies this`root
      ensures Valid(x) && Updated(old(Records()), Records(), r)
    {
      hide FlatUpTo, Updated, SameMap, MergedNext, MergedPrev, MergedRight, MergedLeft, Solid, JoinsNext, JoinsPrev,
        RecContig;
      FlatInline(Slot(0, root.b));
      var l := root.b.recs;
      ContigMeans(l, k, r);
      ContigKinds(l, k, r);
      if contig == ContigRight {
        InlineMergePrev(l, k, r);
        MergedLeftUpdates(l, k, r);
        root := Leaf(root.b.(recs := Solid(MergedPrev(l, k, r.clusters))));
      } else {
        InlineMergeNext(l, k, r);
        MergedRightUpdates(l, k, r);
        var t := Solid(MergedNext(l, k, r.clusters));
        if contig == ContigLeftRight {
          ThenPrev(l, k, r);
          InlineMergePrev(t, k, t[k]);
          WholeMergeKeeps(t, k);
          ThenSame(l, t, MergedLeft(t, k, t[k].clusters), r);
          t := Solid(MergedPrev(t, k, t[k].clusters));
        }
        root := Leaf(root.b.(recs := t));
      }
      FlatInline(Slot(0, root.b));
    }

    /** Rotate away the empty extent a merge may have left in leaf q. */
    method RotateAway(ghost x: bool, q: nat, covers: bool)
      requires Moving(x) && q < |S()| && SolidBut(S(), q) && (HasEmpty(S()[q].b.recs) ==> covers)
      modifies this`root, this`lastEb, this`depth
      ensures Valid(x) && Records() == old(Records())
      ensures old(q < |S()| - 1 || |S()[q].b.recs| > 1) ==> depth > 0 && q < |S()|
      ensures depth > 0 && q < |S()| ==> FlatUpTo(S(), q) == FlatUpTo(old(S()), q)
    {
      hide Slots, Shaped, Packed, Ranged, Good, Filled, FlatUpTo, SumRightmost, Chained, SolidBut, EmptiesUpTo,
        HasEmpty, Loose;
      EmptiesOne(S(), q);
      EmptyInIs(S()[q].b.recs);
      if covers {
        RotateTreeLeft(x, q);
      }
      if depth > 0 {
        LooseTidy(S(), Hi(), x, cap);
        if q < |S()| {
          FlatSame(old(S()), S(), q);
        }
      }
    }

    /** The second half of a merge with both neighbours: the record now at `index` goes whole to the
        one before it. */
    method MergeSecond(ghost x: bool, p: nat, index: nat, ghost k: nat)
      requires Moving(x) && p < |S()| && SolidBut(S(), p) && (p < |S()| - 1 || |S()[p].b.recs| > 1)
      requires index < |S()[p].b.recs| && index < cap && k == |FlatUpTo(S(), p)| + index && 0 < k < |Records()|
      requires JoinsPrev(Records()[k - 1], Records()[k], Records()[k])
      modifies this`root, this`lastEb, this`depth
      ensures Valid(x) && Records() == MergedLeft(old(Records()), k, old(Records())[k].clusters)
    {
      hide Slots, Shaped, Packed, Ranged, Good, Filled, FlatUpTo, SumRightmost, Chained, SolidBut, EmptiesUpTo,
        HasEmpty, Loose, MergedLeft, JoinsPrev;
      RotateAway(x, p, true);
      StillAt(S(), Hi(), x, cap, p, index, k);
      var rec := Slots(root, 0)[p].b.recs[index];
      var q := MergeRecLeft(x, p, index, rec, k);
      RotateAway(x, q, true);
    }

    lemma PartWhere(x: bool, p: nat, index: nat, k: nat)
      requires Valid(x) && depth > 0 && IsAt(S(), p, index, k)
      ensures k < |Records()| && S()[p].b.recs[index] == Records()[k]
      ensures index < cap && (k + 1 < |Records()| ==> p < |S()| - 1 || |S()[p].b.recs| > 1)
    {
      hide Slots, Shaped, Packed, Ranged, Good, FlatUpTo, Chained;
      NextWhere(S(), Hi(), x, cap, p, index, k);
    }

    /** ocfs2_try_to_merge_extent() in a tree with blocks: to the right and then to the left when r
        continues both neighbours, else to the one it continues. */
    method TryToMerge(ghost x: bool, p: nat, index: nat, ghost k: nat, r: Rec, contig: Contig)
      requires Valid(x) && depth > 0 && k < |Records()| && IsAt(S(), p, index, k) && PartOf(Records(), k, r)
      requires contig == MergeContig(Records(), k, r) != ContigNone
      modifies this`root, this`lastEb, this`depth
      ensures Valid(x) && Updated(old(Records()), Records(), r)
    {
      hide Slots, Shaped, Packed, Ranged, Good, Filled, FlatUpTo, SumRightmost, Chained, Updated, SameMap,
        MergedRight, MergedLeft,
        JoinsNext, JoinsPrev, RecContig, SolidBut, EmptiesUpTo, SameBlocks, Solid, GrowFront, HasEmpty, MergeContig;
      RecordsSorted(x);
      ghost var s := Records();
      ContigMeans(s, k, r);
      ContigKinds(s, k, r);
      PartWhere(x, p, index, k);
      var covers := r.clusters == Slots(root, 0)[p].b.recs[index].clusters;
      if contig == ContigRight {
        MergedLeftUpdates(s, k, r);
        var q := MergeRecLeft(x, p, index, r, k);
        RotateAway(x, q, covers);
        return;
      }
      MergedRightUpdates(s, k, r);
      MergeRecRight(x, p, index, r, k);
      if contig == ContigLeft {
        RotateAway(x, p, covers);
        return;
      }
      ThenPrev(s, k, r);
      ghost var t := Records();
      WholeMergeKeeps(t, k);
      ThenSame(s, t, MergedLeft(t, k, t[k].clusters), r);
      MergeSecond(x, p, index, k);
    }

    // ----- Changing part of a record -----

    /** ocfs2_figure_merge_contig_type(): look at the record before and the one after, in this leaf
        or the neighbouring ones. */
    method FigureMergeContig(ghost x: bool, p: nat, index: nat, ghost k: nat, r: Rec) returns (contig: Contig)
      requires Valid(x) && k < |Records()| && p < |S()| && index < |S()[p].b.recs| && PartOf(Records(), k, r)
      requires if depth == 0 then p == 0 && index == k else IsAt(S(), p, index, k)
      ensures contig == MergeContig(Records(), k, r)
    {
      hide Slots, Shaped, Packed, Ranged, Good, Filled, FlatUpTo, SumRightmost, Chained, RecContig, SolidBut;
      ShallowLeaf(x);
      FiguresNeighbours(x, p, index, k);
      var l := Slots(root, 0)[p].b.recs;
      var before, after := ContigNone, ContigNone;
      if index > 0 {
        before := RecContig(l[index - 1], r);
      } else if depth > 0 && LeftCpos(p) != 0 {
        var left := Slots(root, 0)[FindLeaf(root, LeftCpos(p))].b.recs;
        before := RecContig(left[|left| - 1], r);
      }
      if index < |l| - 1 {
        after := RecContig(l[index + 1], r);
      } else if depth > 0 && |l| == cap && RightCpos(p) != 0 {
        var right := Slots(root, 0)[FindLeaf(root, RightCpos(p))].b.recs;
        after := RecContig(right[0], r);
      }
      contig := before;
      if after == ContigLeft && before == ContigRight {
        contig := ContigLeftRight;
      } else if before == ContigNone {
        contig := after;
      }
    }

    lemma FiguresNeighbours(x: bool, p: nat, index: nat, k: nat)
      requires Valid(x) && k < |Records()| && p < |S()| && index < |S()[p].b.recs|
      requires if depth == 0 then p == 0 && index == k else IsAt(S(), p, index, k)
      ensures var l := S()[p].b.recs;
        && (depth == 0 ==> Records() == l)
        && (depth > 0 && index > 0 ==> k > 0 && Records()[k - 1] == l[index - 1])
        && (depth > 0 && index == 0 ==>
              && (LeftCpos(p) == 0 <==> k == 0)
              && (k > 0 ==> var q := FindLeaf(root, LeftCpos(p));
                    q < |S()| && S()[q].b.recs != [] && Records()[k - 1] == S()[q].b.recs[|S()[q].b.recs| - 1]))
        && (depth > 0 && index < |l| - 1 ==> k + 1 < |Records()| && Records()[k + 1] == l[index + 1])
        && (depth > 0 && index == |l| - 1 ==>
              && (|l| == cap && RightCpos(p) != 0 <==> k + 1 < |Records()|)
              && (k + 1 < |Records()| ==> var q := FindLeaf(root, RightCpos(p));
                    q < |S()| && S()[q].b.recs != [] && Records()[k + 1] == S()[q].b.recs[0]))
    {
      hide Slots, Shaped, Packed, Ranged, Good, Filled, FlatUpTo, SumRightmost, Chained, SolidBut;
      ShallowLeaf(x);
      if depth == 0 {
        FlatInline(Slot(0, root.b));
      } else {
        NextWhere(S(), Hi(), x, cap, p, index, k);
        PrevWhere(S(), Hi(), x, cap, p, index, k);
        TidyLoose(S(), Hi(), x, cap);
        if p > 0 {
          SolidButAny(S(), p);
          LeftLeaf(S(), Hi(), x, cap, p);
          FindsLeft(x, p, FindLeaf(root, LeftCpos(p)));
        }
        if p + 1 < |S()| {
          LooseLo(S(), Hi(), x, cap, p);
          FindsRange(RightCpos(p));
          RightOf(S(), Hi(), x, cap, p, FindLeaf(root, RightCpos(p)));
        }
      }
    }

    method ReplaceRec(ghost x: bool, p: nat, index: nat, ghost k: nat, r: Rec)
      requires Valid(x) && k < |Records()| && p < |S()| && index < |S()[p].b.recs|
      requires if depth == 0 then p == 0 && index == k else IsAt(S(), p, index, k)
      requires r.cpos == S()[p].b.recs[index].cpos && r.clusters == S()[p].b.recs[index].clusters
      modifies this`root
      ensures Valid(x) && Updated(old(Records()), Records(), r)
    {
      hide Slots, Shaped, Packed, Ranged, Good, Filled, FlatUpTo, SumRightmost, Chained, SolidBut, Updated, Solid;
      ghost var s := S();
      ShallowLeaf(x);
      RecordsSorted(x);
      if depth == 0 {
        FlatInline(Slot(0, root.b));
        ReplaceUpdates(root.b.recs, index, r);
        root := Leaf(root.b.(recs := root.b.recs[index := r]));
        InlineIs();
        assert Valid(x);
        assert Records() == old(root.b.recs)[index := r];
        assert old(Records()) == old(root.b.recs);
      } else {
        PartWhere(x, p, index, k);
        ReplaceGood(s, Hi(), x, cap, p, index, k, r);
        ReplaceUpdates(Records(), k, r);
        PutLeaf(p, Slots(root, 0)[p].b.recs[index := r]);
        ChainKept(s, S(), lastEb, nextBlk);
      }
    }

    /** ocfs2_split_extent(): r takes the place of the part of record k that it covers, merged with
        the neighbours it continues; a range that runs past the record is refused. */
    method SplitExtent(ghost x: bool, p: nat, index: nat, ghost k: nat, r: Rec) returns (ok: bool)
      requires Valid(x) && k < |Records()| && p < |S()| && index < |S()[p].b.recs| && r.clusters > 0
      requires if depth == 0 then p == 0 && index == k else IsAt(S(), p, index, k)
      modifies this
      ensures Valid(x) && (ok <==> PartOf(old(Records()), k, r))
      ensures if ok then Updated(old(Records()), Records(), r) else Records() == old(Records())
    {
      hide Slots, Shaped, Packed, Ranged, Good, Filled, FlatUpTo, SumRightmost, Chained, SolidBut, Updated, MergeContig;
      FiguredRecord(x, p, index, k);
      var rec := Slots(root, 0)[p].b.recs[index];
      if rec.cpos > r.cpos || End(rec) < End(r) {
        return false;
      }
      ok := true;
      var contig := FigureMergeContig(x, p, index, k, r);
      if contig == ContigNone {
        if rec.cpos == r.cpos && rec.clusters == r.clusters {
          ReplaceRec(x, p, index, k, r);
        } else {
          SplitAndInsert(x, k, r);
        }
      } else if depth == 0 {
        MergeInline(x, index, r, contig);
      } else {
        TryToMerge(x, p, index, k, r, contig);
      }
    }

    lemma FiguredRecord(x: bool, p: nat, index: nat, k: nat)
      requires Valid(x) && k < |Records()| && p < |S()| && index < |S()[p].b.recs|
      requires if depth == 0 then p == 0 && index == k else IsAt(S(), p, index, k)
      ensures S()[p].b.recs[index] == Records()[k]
    {
      hide Slots, Shaped, Packed, Ranged, Good, Filled, FlatUpTo, SumRightmost, Chained, SolidBut;
      ShallowLeaf(x);
      if depth == 0 {
        FlatInline(Slot(0, root.b));
      } else {
        PartWhere(x, p, index, k);
      }
    }

    lemma InlineIs()
      requires depth == 0 && root.Leaf? && root == Leaf(LeafBlk(0, 0, root.b.recs)) && lastEb == 0
      requires Sorted(root.b.recs) && |root.b.recs| <= rootCap && 0 < rootCap < cap && cap >= 3 && nextBlk > 0
      ensures Valid(true) && Valid(false) && Records() == root.b.recs
    {
      FlatInline(Slot(0, root.b));
    }

    /** The record that the walk and the search found, among all records. */
    lemma FoundAt(x: bool, p: nat, index: nat, c: int) returns (k: nat)
      requires Valid(x) && c >= 0 && p == FindLeaf(root, c) && p < |S()|
      requires index == Search(S()[p].b.recs, c)
      ensures k < |Records()| && Records()[k] == S()[p].b.recs[index] && Covers(Records()[k], c)
      ensures if depth == 0 then p == 0 && index == k else IsAt(S(), p, index, k)
    {
      hide Slots, Shaped, Packed, Ranged, Good, Filled, FlatUpTo, SumRightmost, Chained, SolidBut, SearchFrom;
      ShallowLeaf(x);
      if depth == 0 {
        FlatInline(Slot(0, root.b));
        k := index;
      } else {
        k := |FlatUpTo(S(), p)| + index;
        PartWhere(x, p, index, k);
      }
    }

    /** ocfs2_change_extent_flag(): move a mapped range to a new physical place and set or clear
        flags on it, unless no record has its start (-EROFS), the flags are set or clear already, or
        it runs past the record (-EIO).  Everything else keeps its mapping. */
    method ChangeExtentFlag(ghost x: bool, cpos: int, len: int, phys: int, newFlags: bv8, clearFlags: bv8)
      returns (status: Status)
      requires Valid(x) && cpos >= 0 && len > 0
      modifies this
      ensures Valid(x) && (status != Done ==> Records() == old(Records()))
      ensures status == Lost <==> At(old(Records()), cpos) == Hole
      ensures forall k :: 0 <= k < |old(Records())| && Covers(old(Records())[k], cpos) ==>
                var rec := old(Records())[k];
                && (status == Done <==> CanChange(rec.flags, newFlags, clearFlags) && cpos + len <= End(rec))
                && (status == Done ==>
                      Updated(old(Records()), Records(),
                              Rec(cpos, len, phys, ChangedFlags(rec.flags, newFlags, clearFlags))))
    {
      hide Slots, Shaped, Packed, Ranged, Good, Filled, FlatUpTo, SumRightmost, Chained, SolidBut, Updated, CanChange,
        ChangedFlags;
      ShallowLeaf(x);
      FindIsAt(x, cpos);
      RecordsSorted(x);
      var p := FindLeaf(root, cpos);
      if depth > 0 {
        FindsRange(cpos);
      }
      var el := Slots(root, 0)[p].b.recs;
      var index := Search(el, cpos);
      AtHole(Records(), |Records()|, cpos);
      if index == -1 {
        AtMiss(el, |el|, cpos);
        return Lost;
      }
      var rec := el[index];
      ghost var k := FoundAt(x, p, index, cpos);
      if !CanChange(rec.flags, newFlags, clearFlags) {
        return Refused;
      }
      var r := Rec(cpos, len, phys, ChangedFlags(rec.flags, newFlags, clearFlags));
      var ok := SplitExtent(x, p, index, k, r);
      status := if ok then Done else Refused;
    }
  }
}
