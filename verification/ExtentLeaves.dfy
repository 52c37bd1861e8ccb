/** The leaves of an extent tree (alloc.c) from left to right: what they hold, what is kept of
    them between operations, and what moving records between neighbours does to them. */
module ExtentLeaves {
  import opened ExtentLeaf
  import opened ExtentBTree
  import opened ExtentPatch

  // ----- The leaves in order -----

  /** The records of the first n leaves, without empty extents. */
  function FlatUpTo(s: seq<Slot>, n: nat): seq<Rec>
    requires n <= |s|
  {
    if n == 0 then [] else FlatUpTo(s, n - 1) + Solid(s[n - 1].b.recs)
  }

  function FlatFrom(s: seq<Slot>, n: nat): seq<Rec>
    requires n <= |s|
    decreases |s| - n
  {
    if n == |s| then [] else Solid(s[n].b.recs) + FlatFrom(s, n + 1)
  }

  function Flat(s: seq<Slot>): seq<Rec> {
    FlatUpTo(s, |s|)
  }

  /** Where the range of leaf i ends. */
  function RangeEnd(s: seq<Slot>, i: nat, hi: int): int
    requires i < |s|
  {
    if i + 1 < |s| then s[i + 1].lo else hi
  }

  /** Records in order within a range. */
  predicate Within(s: seq<Rec>, lo: int, hi: int) {
    Sorted(s) && forall k :: 0 <= k < |s| ==> lo <= s[k].cpos && End(s[k]) <= hi
  }

  /** Only the first record may be empty; the others are in order. */
  predicate LeafOk(recs: seq<Rec>, lo: int, hi: int) {
    Within(Solid(recs), lo, hi)
  }

  lemma WithinJoin(a: seq<Rec>, b: seq<Rec>, lo: int, c: int, hi: int)
    requires Within(a, lo, c) && Within(b, c, hi) && lo <= c <= hi
    ensures Within(a + b, lo, hi)
  {
  }

  lemma WithinCut(s: seq<Rec>, lo: int, hi: int, k: nat)
    requires Within(s, lo, hi) && k < |s|
    ensures lo <= s[k].cpos < End(s[k]) <= hi
    ensures Within(s[..k], lo, s[k].cpos) && Within(s[k..], s[k].cpos, hi)
    ensures Within([s[k]], s[k].cpos, End(s[k])) && Within(s[k + 1..], End(s[k]), hi)
  {
  }

  /** The range of leaf i starts at its first record. */
  predicate ExactAt(s: seq<Slot>, i: nat)
    requires i < |s|
  {
    i > 0 && Solid(s[i].b.recs) != [] ==> s[i].lo == Solid(s[i].b.recs)[0].cpos
  }

  lemma ExactGood(s: seq<Slot>, hi: int, i: nat)
    requires Good(s, hi, true) && i < |s|
    ensures ExactAt(s, i)
  {
  }

  /** Ranges ascend from zero, every record lies in the range of its leaf, and the range of every
      leaf but the first starts at its first record. */
  predicate Good(s: seq<Slot>, hi: int, x: bool) {
    && |s| > 0 && s[0].lo == 0
    && (forall i :: 0 <= i < |s| ==> s[i].lo <= RangeEnd(s, i, hi))
    && (forall i :: 0 <= i < |s| ==> LeafOk(s[i].b.recs, s[i].lo, RangeEnd(s, i, hi)))
    && (x ==> forall i :: 1 <= i < |s| && Solid(s[i].b.recs) != [] ==> s[i].lo == Solid(s[i].b.recs)[0].cpos)
  }

  /** Every leaf but the last is full. */
  predicate Filled(s: seq<Slot>, cap: nat) {
    && (forall i :: 0 <= i < |s| - 1 ==> |s[i].b.recs| == cap)
    && (forall i :: 0 <= i < |s| ==> |s[i].b.recs| <= cap)
  }

  /** The leaves are chained by block number, left to right. */
  predicate Chained(s: seq<Slot>, last: nat, limit: nat) {
    && |s| > 0 && s[|s| - 1].b.blk == last && s[|s| - 1].b.next == 0
    && (forall i :: 0 <= i < |s| - 1 ==> s[i].b.next == s[i + 1].b.blk)
    && (forall i :: 0 <= i < |s| ==> 0 < s[i].b.blk < limit)
    && (forall i, j :: 0 <= i < j < |s| ==> s[i].b.blk != s[j].b.blk)
  }

  /** The same blocks in the same chain. */
  predicate SameBlocks(s: seq<Slot>, u: seq<Slot>) {
    |s| == |u| && forall i :: 0 <= i < |s| ==> u[i].b.blk == s[i].b.blk && u[i].b.next == s[i].b.next
  }

  /** No leaf but j is empty or begins with an empty extent. */
  predicate SolidBut(s: seq<Slot>, j: int) {
    forall i :: 0 <= i < |s| && i != j ==> s[i].b.recs != [] && !HasEmpty(s[i].b.recs)
  }

  /** Room for one more record. */
  predicate HasRoom(recs: seq<Rec>, cap: nat) {
    HasEmpty(recs) || |recs| < cap
  }

  function WithRecs(x: Slot, recs: seq<Rec>): Slot {
    x.(b := x.b.(recs := recs))
  }

  lemma {:induction false} FlatJoin(s: seq<Slot>, n: nat)
    requires n <= |s|
    ensures Flat(s) == FlatUpTo(s, n) + FlatFrom(s, n)
    decreases |s| - n
  {
    if n < |s| {
      FlatJoin(s, n + 1);
    }
  }

  lemma {:induction false} FlatSame(s: seq<Slot>, u: seq<Slot>, n: nat)
    requires n <= |s| && n <= |u| && forall i :: 0 <= i < n ==> s[i].b.recs == u[i].b.recs
    ensures FlatUpTo(s, n) == FlatUpTo(u, n)
  {
    if n > 0 {
      FlatSame(s, u, n - 1);
    }
  }

  lemma {:induction false} FlatFromSame(s: seq<Slot>, u: seq<Slot>, n: nat)
    requires n <= |s| == |u| && forall i :: n <= i < |s| ==> s[i].b.recs == u[i].b.recs
    ensures FlatFrom(s, n) == FlatFrom(u, n)
    decreases |s| - n
  {
    if n < |s| {
      FlatFromSame(s, u, n + 1);
    }
  }

  /** The records around leaf i. */
  lemma FlatAround(s: seq<Slot>, i: nat)
    requires i < |s|
    ensures Flat(s) == FlatUpTo(s, i) + Solid(s[i].b.recs) + FlatFrom(s, i + 1)
  {
    FlatJoin(s, i + 1);
  }

  function PutOne(s: seq<Slot>, i: nat, recs: seq<Rec>): seq<Slot>
    requires i < |s|
  {
    s[i := WithRecs(s[i], recs)]
  }

  /** Two neighbouring leaves with new records and the boundary between them at c. */
  function PutPair(s: seq<Slot>, i: nat, l: seq<Rec>, r: seq<Rec>, c: int): seq<Slot>
    requires 0 < i < |s|
  {
    s[i - 1 := WithRecs(s[i - 1], l)][i := Slot(c, s[i].b.(recs := r))]
  }

  lemma FlatOne(s: seq<Slot>, i: nat, recs: seq<Rec>)
    requires i < |s|
    ensures Flat(PutOne(s, i, recs)) == FlatUpTo(s, i) + Solid(recs) + FlatFrom(s, i + 1)
  {
    var u := PutOne(s, i, recs);
    FlatAround(u, i);
    FlatSame(s, u, i);
    FlatFromSame(s, u, i + 1);
  }

  lemma FlatPair(s: seq<Slot>, i: nat, l: seq<Rec>, r: seq<Rec>, c: int)
    requires 0 < i < |s|
    ensures Flat(PutPair(s, i, l, r, c)) == FlatUpTo(s, i - 1) + Solid(l) + Solid(r) + FlatFrom(s, i + 1)
    ensures Flat(s) == FlatUpTo(s, i - 1) + Solid(s[i - 1].b.recs) + Solid(s[i].b.recs) + FlatFrom(s, i + 1)
  {
    var u := PutPair(s, i, l, r, c);
    FlatAround(s, i);
    FlatAround(u, i);
    FlatSame(s, u, i - 1);
    FlatFromSame(s, u, i + 1);
  }

  /** The range of a leaf begins at its first record, if it has one. */
  predicate StartsRight(i: nat, recs: seq<Rec>, lo: int) {
    i > 0 && Solid(recs) != [] ==> lo == Solid(recs)[0].cpos
  }

  lemma OneGood(s: seq<Slot>, hi: int, x: bool, i: nat, recs: seq<Rec>)
    requires Good(s, hi, x) && i < |s|
    requires LeafOk(recs, s[i].lo, RangeEnd(s, i, hi)) && (x ==> StartsRight(i, recs, s[i].lo))
    ensures Good(PutOne(s, i, recs), hi, x)
  {
    hide LeafOk, Solid;
  }

  lemma PairGood(s: seq<Slot>, hi: int, x: bool, i: nat, l: seq<Rec>, r: seq<Rec>, c: int)
    requires Good(s, hi, x) && 0 < i < |s| && s[i - 1].lo <= c <= RangeEnd(s, i, hi)
    requires LeafOk(l, s[i - 1].lo, c) && LeafOk(r, c, RangeEnd(s, i, hi))
    requires x ==> StartsRight(i - 1, l, s[i - 1].lo) && StartsRight(i, r, c)
    ensures Good(PutPair(s, i, l, r, c), hi, x)
  {
    hide LeafOk, Solid;
    var u := PutPair(s, i, l, r, c);
    forall j | 0 <= j < |u|
      ensures u[j].lo <= RangeEnd(u, j, hi) && LeafOk(u[j].b.recs, u[j].lo, RangeEnd(u, j, hi))
    {
    }
  }

  lemma PutPairIs(s: seq<Slot>, i: nat, l: seq<Rec>, r: seq<Rec>, c: int)
    requires 0 < i < |s|
    ensures var u := PutOne(PutOne(s, i, r), i - 1, l);
      && u[i - 1] == WithRecs(s[i - 1], l) && u[i].b == s[i].b.(recs := r)
      && u[i := Slot(c, u[i].b)] == PutPair(s, i, l, r, c)
      && (i + 1 < |s| ==> u[i + 1] == s[i + 1])
  {
  }

  /** The leaves after their boundary pair i has been rotated right. */
  function RotatedRight(s: seq<Slot>, i: nat): seq<Slot>
    requires 0 < i < |s| && |s[i - 1].b.recs| > 0
  {
    var l, r := s[i - 1].b.recs, s[i].b.recs;
    var m := l[|l| - 1];
    PutPair(s, i, [NOREC] + l[..|l| - 1], CreateEmpty(r)[0 := m], m.cpos)
  }

  /** An empty extent in front changes nothing. */
  lemma SolidEmpty(x: seq<Rec>)
    ensures Solid([NOREC] + x) == x && HasEmpty([NOREC] + x)
  {
  }

  lemma FilledEmpty(r: seq<Rec>, m: Rec)
    ensures CreateEmpty(r) != [] && CreateEmpty(r)[0 := m] == [m] + Solid(r)
  {
    if HasEmpty(r) {
      assert r[0 := m] == [m] + r[1..];
    } else {
      assert ([NOREC] + r)[0 := m] == [m] + r;
    }
  }

  lemma WithinWider(s: seq<Rec>, lo: int, lo': int, hi': int, hi: int)
    requires Within(s, lo', hi') && lo <= lo' && hi' <= hi
    ensures Within(s, lo, hi)
  {
  }

  lemma RotateRecs(l: seq<Rec>, r: seq<Rec>, lo: int, mid: int, hi: int)
    requires |l| > 1 && !HasEmpty(l) && LeafOk(l, lo, mid) && LeafOk(r, mid, hi) && mid <= hi
    ensures CreateEmpty(r) != []
    ensures var m := l[|l| - 1];
      var l', r' := [NOREC] + l[..|l| - 1], CreateEmpty(r)[0 := m];
      && lo <= m.cpos <= hi && LeafOk(l', lo, m.cpos) && LeafOk(r', m.cpos, hi)
      && Solid(l') != [] && Solid(l')[0] == l[0] && Solid(l) == l
      && !HasEmpty(r') && Solid(r') == r' && r'[0] == m
      && Solid(l') + Solid(r') == Solid(l) + Solid(r)
  {
    hide Within, CreateEmpty;
    var m, init := l[|l| - 1], l[..|l| - 1];
    WithinCut(l, lo, mid, |l| - 1);
    assert l == init + [m];
    SolidEmpty(init);
    FilledEmpty(r, m);
    WithinWider(Solid(r), End(m), mid, hi, hi);
    WithinJoin([m], Solid(r), m.cpos, End(m), hi);
    assert init + ([m] + Solid(r)) == l + Solid(r);
  }

  lemma RotateRightGood(s: seq<Slot>, hi: int, x: bool, i: nat)
    requires Good(s, hi, x) && 0 < i < |s| && |s[i - 1].b.recs| > 1 && !HasEmpty(s[i - 1].b.recs)
    ensures var u := RotatedRight(s, i);
      && Good(u, hi, x) && Flat(u) == Flat(s)
      && s[i - 1].lo <= u[i].lo <= RangeEnd(s, i, hi) && !HasEmpty(u[i].b.recs)
      && FirstCpos(Leaf(u[i].b)) == u[i].lo
  {
    hide LeafOk, Solid, CreateEmpty, FlatUpTo, FlatFrom;
    var l, r := s[i - 1].b.recs, s[i].b.recs;
    RotateRecs(l, r, s[i - 1].lo, s[i].lo, RangeEnd(s, i, hi));
    var m := l[|l| - 1];
    var l', r' := [NOREC] + l[..|l| - 1], CreateEmpty(r)[0 := m];
    PairGood(s, hi, x, i, l', r', m.cpos);
    FlatPair(s, i, l', r', m.cpos);
    Regroup(FlatUpTo(s, i - 1), Solid(l'), Solid(r'), Solid(l), Solid(r), FlatFrom(s, i + 1));
  }

  lemma Regroup(a: seq<Rec>, b: seq<Rec>, c: seq<Rec>, d: seq<Rec>, e: seq<Rec>, f: seq<Rec>)
    requires b + c == d + e
    ensures a + b + c + f == a + d + e + f
  {
    assert a + b + c == a + (b + c);
    assert a + d + e == a + (d + e);
  }

  lemma {:induction false} LosAscend(s: seq<Slot>, hi: int, x: bool, i: nat, j: nat)
    requires Good(s, hi, x) && i <= j < |s|
    ensures s[i].lo <= s[j].lo
  {
    hide Good;
    if i < j {
      LosAscend(s, hi, x, i, j - 1);
      LosNext(s, hi, x, j - 1);
    }
  }

  lemma LosNext(s: seq<Slot>, hi: int, x: bool, i: nat)
    requires Good(s, hi, x) && i + 1 < |s|
    ensures s[i].lo <= s[i + 1].lo
  {
    hide LeafOk, Solid;
    assert s[i].lo <= RangeEnd(s, i, hi);
  }

  /** A full leaf without an empty extent holds several clusters, so the range after it starts
      well past zero. */
  lemma LeftLeaf(s: seq<Slot>, hi: int, x: bool, cap: nat, j: nat)
    requires Good(s, hi, x) && Filled(s, cap) && SolidBut(s, j) && 0 < j < |s| && cap >= 3
    ensures var l := s[j - 1].b.recs;
      && |l| == cap && s[j - 1].lo < s[j].lo && s[j].lo >= 2
      && !HasEmpty(l) && l[cap - 1].clusters > 0 && End(l[cap - 1]) <= s[j].lo
  {
    var l := s[j - 1].b.recs;
    assert LeafOk(l, s[j - 1].lo, RangeEnd(s, j - 1, hi));
    assert Solid(l) == l && l[0].cpos >= 0 && End(l[0]) <= l[1].cpos && End(l[1]) <= s[j].lo;
  }

  lemma RotateRightKeeps(s: seq<Slot>, cap: nat, j: nat)
    requires 0 < j < |s| && Filled(s, cap) && SolidBut(s, j) && HasRoom(s[j].b.recs, cap)
    requires |s[j - 1].b.recs| > 1 && s[j - 1].b.recs[|s[j - 1].b.recs| - 1].clusters != 0
    ensures var u := RotatedRight(s, j);
      && Filled(u, cap) && SameBlocks(s, u) && SolidBut(u, j - 1) && HasEmpty(u[j - 1].b.recs)
      && u[j].b.recs != [] && u[j].b.recs[0] == s[j - 1].b.recs[|s[j - 1].b.recs| - 1]
      && u[j].lo == u[j].b.recs[0].cpos && u[j - 1].lo == s[j - 1].lo
  {
    var l, r := s[j - 1].b.recs, s[j].b.recs;
    assert |CreateEmpty(r)| == if HasEmpty(r) then |r| else |r| + 1;
  }

  lemma SameBlocksTrans(s: seq<Slot>, u: seq<Slot>, v: seq<Slot>)
    requires SameBlocks(s, u) && SameBlocks(u, v)
    ensures SameBlocks(s, v)
  {
  }

  /** The last record of a leaf is one of all the records. */
  lemma InFlat(s: seq<Slot>, i: nat, k: nat)
    requires i < |s| && k < |Solid(s[i].b.recs)|
    ensures Solid(s[i].b.recs)[k] in Flat(s)
  {
    FlatAround(s, i);
    assert Flat(s)[|FlatUpTo(s, i)| + k] == Solid(s[i].b.recs)[k];
  }

  /** The records of the leaves before i end where leaf i starts, the others begin there. */
  lemma {:induction false} FlatUpToWithin(s: seq<Slot>, hi: int, x: bool, i: nat)
    requires Good(s, hi, x) && i < |s|
    ensures 0 <= s[i].lo && Within(FlatUpTo(s, i), 0, s[i].lo)
  {
    hide Solid, Within;
    if i == 0 {
      WithinNone(0, 0);
    } else {
      FlatUpToWithin(s, hi, x, i - 1);
      assert LeafOk(s[i - 1].b.recs, s[i - 1].lo, RangeEnd(s, i - 1, hi));
      assert s[i - 1].lo <= RangeEnd(s, i - 1, hi);
      WithinJoin(FlatUpTo(s, i - 1), Solid(s[i - 1].b.recs), 0, s[i - 1].lo, s[i].lo);
    }
  }

  lemma {:induction false} FlatFromWithin(s: seq<Slot>, hi: int, x: bool, i: nat)
    requires Good(s, hi, x) && i < |s|
    ensures s[i].lo <= hi && Within(FlatFrom(s, i), s[i].lo, hi)
    decreases |s| - i
  {
    hide Solid, Within;
    assert LeafOk(s[i].b.recs, s[i].lo, RangeEnd(s, i, hi));
    assert s[i].lo <= RangeEnd(s, i, hi);
    if i + 1 == |s| {
      WithinNone(hi, hi);
      WithinJoin(Solid(s[i].b.recs), [], s[i].lo, hi, hi);
      assert FlatFrom(s, i) == Solid(s[i].b.recs) + [];
    } else {
      FlatFromWithin(s, hi, x, i + 1);
      WithinJoin(Solid(s[i].b.recs), FlatFrom(s, i + 1), s[i].lo, s[i + 1].lo, hi);
    }
  }

  lemma WithinNone(lo: int, hi: int)
    ensures Within([], lo, hi)
  {
  }

  /** All records are in order. */
  lemma FlatWithin(s: seq<Slot>, hi: int, x: bool)
    requires Good(s, hi, x)
    ensures hi >= 0 && Within(Flat(s), 0, hi)
  {
    hide Within, Solid;
    FlatFromWithin(s, hi, x, 0);
    FlatJoin(s, 0);
    assert Flat(s) == FlatFrom(s, 0);
  }

  /** Some record maps the cluster. */
  predicate IsMapped(s: seq<Rec>, c: int) {
    exists k :: 0 <= k < |s| && Covers(s[k], c)
  }

  lemma BeforeLastOf(x: seq<Rec>, y: seq<Rec>, lo: int, mid: int, hi: int, c: int)
    requires Within(x, lo, mid) && Within(y, mid, hi) && x != [] && c < mid && IsMapped(x + y, c)
    ensures Covers(x[|x| - 1], c) || c < x[|x| - 1].cpos
  {
    var k :| 0 <= k < |x + y| && Covers((x + y)[k], c);
    assert k < |x|;
  }

  /** A cluster before leaf j that is mapped, but not by the last record before it, lies before
      that record. */
  lemma BeforeLast(s: seq<Slot>, hi: int, x: bool, j: nat, cpos: int)
    requires Good(s, hi, x) && 0 < j < |s| && cpos < s[j].lo
    requires s[j - 1].b.recs != [] && !HasEmpty(s[j - 1].b.recs)
    requires IsMapped(Flat(s), cpos)
    ensures var m := s[j - 1].b.recs[|s[j - 1].b.recs| - 1]; Covers(m, cpos) || cpos < m.cpos
  {
    hide Within, IsMapped, Good, FlatFrom, Covers;
    var l := s[j - 1].b.recs;
    FlatUpToWithin(s, hi, x, j);
    FlatFromWithin(s, hi, x, j);
    FlatJoin(s, j);
    assert FlatUpTo(s, j) == FlatUpTo(s, j - 1) + l;
    BeforeLastOf(FlatUpTo(s, j), FlatFrom(s, j), 0, s[j].lo, hi, cpos);
  }

  /** What a rotation to the right has to find, and leaves behind for the next one. */
  predicate Rotating(s: seq<Slot>, hi: int, x: bool, cap: nat, split: Split, cpos: int, j: nat) {
    && Good(s, hi, x) && Filled(s, cap) && j < |s| && SolidBut(s, j) && HasRoom(s[j].b.recs, cap)
    && (j + 1 < |s| ==> cpos < s[j + 1].lo && ExactAt(s, j + 1))
    && if split == SplitNone then forall r :: r in Flat(s) ==> r.cpos != cpos else IsMapped(Flat(s), cpos)
  }

  /** The record that would move starts after the one to insert, or is the one to split. */
  lemma RotatesPast(s: seq<Slot>, hi: int, x: bool, cap: nat, split: Split, cpos: int, j: nat)
    requires Rotating(s, hi, x, cap, split, cpos, j) && 0 < j && cpos < s[j].lo && cap >= 3
    requires split == SplitNone ==> cpos <= s[j - 1].b.recs[|s[j - 1].b.recs| - 1].cpos
    ensures |s[j - 1].b.recs| == cap
    ensures var m := s[j - 1].b.recs[cap - 1]; cpos < m.cpos || (split != SplitNone && Covers(m, cpos))
  {
    LeftLeaf(s, hi, x, cap, j);
    if split == SplitNone {
      assert Solid(s[j - 1].b.recs) == s[j - 1].b.recs;
      InFlat(s, j - 1, cap - 1);
    } else {
      BeforeLast(s, hi, x, j, cpos);
    }
  }

  /** After the rotation the leaf on the left is the next one to look at. */
  lemma RotatingNext(s: seq<Slot>, hi: int, x: bool, cap: nat, split: Split, cpos: int, j: nat)
    requires Rotating(s, hi, x, cap, split, cpos, j) && 0 < j && cpos < s[j].lo && cap >= 3
    requires |s[j - 1].b.recs| == cap && !HasEmpty(s[j - 1].b.recs)
    requires split == SplitNone ==> cpos <= s[j - 1].b.recs[cap - 1].cpos
    ensures var u := RotatedRight(s, j);
      && SameBlocks(s, u) && Flat(u) == Flat(s) && Good(u, hi, x) && Filled(u, cap)
      && SolidBut(u, j - 1) && HasEmpty(u[j - 1].b.recs)
      && u[j].b.recs != [] && u[j].b.recs[0] == s[j - 1].b.recs[cap - 1] && (j + 1 < |u| ==> cpos < u[j + 1].lo)
      && (split == SplitNone || !Covers(u[j].b.recs[0], cpos) ==> Rotating(u, hi, x, cap, split, cpos, j - 1))
  {
    hide Good, Filled, SolidBut, SameBlocks, Covers, RotatedRight, FlatUpTo;
    LeftLeafFull(s, hi, x, cap, j);
    RotateRightGood(s, hi, x, j);
    RotateRightKeeps(s, cap, j);
    RotatesPast(s, hi, x, cap, split, cpos, j);
    RotatedTail(s, j);
  }

  lemma LeftLeafFull(s: seq<Slot>, hi: int, x: bool, cap: nat, j: nat)
    requires Good(s, hi, x) && Filled(s, cap) && SolidBut(s, j) && 0 < j < |s| && cap >= 3
    ensures |s[j - 1].b.recs| == cap && s[j - 1].b.recs[cap - 1].clusters > 0
  {
    LeftLeaf(s, hi, x, cap, j);
  }

  lemma RotatedTail(s: seq<Slot>, j: nat)
    requires 0 < j < |s| && |s[j - 1].b.recs| > 0
    ensures var u := RotatedRight(s, j);
      |u| == |s| && (j + 1 < |s| ==> u[j + 1] == s[j + 1])
  {
  }

  lemma SameBlocksRefl(s: seq<Slot>)
    ensures SameBlocks(s, s)
  {
  }

  lemma LowestStart(s: seq<Slot>, hi: int, x: bool)
    requires Good(s, hi, x)
    ensures |s| > 0 && s[0].lo == 0
  {
  }

  // ----- Inserting a record -----

  /** ocfs2_figure_contig_type(): the first record the new one continues, and on which side. */
  function FindContig(s: seq<Rec>, r: Rec, i: nat): (k: nat)
    requires i <= |s|
    ensures i <= k <= |s| && (k < |s| ==> RecContig(s[k], r) != ContigNone)
    decreases |s| - i
  {
    if i == |s| || RecContig(s[i], r) != ContigNone then i else FindContig(s, r, i + 1)
  }

  /** The contiguousness the insert will use: none when it would exceed the limit on the size of an
      extent (0: no limit). */
  function ContigType(s: seq<Rec>, r: Rec, maxLeaf: nat): (c: Contig)
    ensures c != ContigNone ==>
              var k := FindContig(s, r, 0);
              k < |s| && c == RecContig(s[k], r) && (c == ContigLeft || c == ContigRight)
  {
    var k := FindContig(s, r, 0);
    if k == |s| then ContigNone
    else if maxLeaf != 0 && s[k].clusters + r.clusters > maxLeaf then ContigNone
    else RecContig(s[k], r)
  }

  predicate NoRecords(s: seq<Rec>) {
    s == [] || (|s| == 1 && HasEmpty(s))
  }

  /** ocfs2_figure_appending_type(), for the rightmost leaf. */
  predicate Appends(s: seq<Rec>, cpos: int) {
    NoRecords(s) || cpos >= End(s[|s| - 1])
  }

  /** ocfs2_insert_at_leaf() without a split. */
  function InsertAtLeaf(s: seq<Rec>, r: Rec, contig: Contig, k: nat, appending: bool): seq<Rec>
    requires contig != ContigNone ==> k < |s|
  {
    if contig != ContigNone then s[k := Grown(s[k], contig, r)]
    else if NoRecords(s) then [r]
    else if appending then s + [r]
    else RotateLeaf(s, r)
  }

  /** A record that a leaf can take without a contiguous one goes to its place in order. */
  lemma InsertAtLeafSorted(s: seq<Rec>, r: Rec, appending: bool)
    requires Sorted(Solid(s)) && r.clusters > 0
    requires appending ==> Appends(s, r.cpos) && (NoRecords(s) || !HasEmpty(s))
    ensures var u := InsertAtLeaf(s, r, ContigNone, 0, appending);
      u == InsertSorted(Solid(s), r) && Solid(u) == u && |u| == |Solid(s)| + 1
  {
    var t := Solid(s);
    var k := InsertIndex(t, r.cpos);
    if NoRecords(s) {
      assert t == [];
    } else if appending {
      assert t == s;
      assert forall i :: 0 <= i < |s| ==> s[i].cpos < End(s[|s| - 1]);
      assert k == |s|;
    }
  }

  /** The new record fits a range that its neighbours leave free. */
  lemma InsertWithin(s: seq<Rec>, lo: int, hi: int, r: Rec)
    requires Within(s, lo, hi) && Apart(s, r) && r.clusters > 0 && 0 <= lo <= r.cpos && End(r) <= hi
    ensures Within(InsertSorted(s, r), lo, hi) && Updated(s, InsertSorted(s, r), r)
  {
    InsertSortedUpdates(s, r);
  }

  lemma GrownWithin(s: seq<Rec>, lo: int, hi: int, hi': int, i: nat, contig: Contig, r: Rec)
    requires Within(s, lo, hi) && i < |s| && Apart(s, r) && r.clusters > 0 && r.cpos >= 0
    requires contig == RecContig(s[i], r) && (contig == ContigLeft || contig == ContigRight)
    requires lo <= r.cpos && End(r) <= hi' && (i + 1 < |s| ==> hi <= hi')
    requires |s| > 0 ==> End(s[|s| - 1]) <= hi'
    ensures var t := s[i := Grown(s[i], contig, r)]; Within(t, lo, hi') && Updated(s, t, r)
  {
    GrownUpdates(s, i, contig, r);
  }

  lemma OneGoodHi(s: seq<Slot>, hi: int, x: bool, hi': int, i: nat, recs: seq<Rec>)
    requires Good(s, hi, x) && i < |s| && (i == |s| - 1 || hi' == hi) && s[|s| - 1].lo <= hi'
    requires LeafOk(recs, s[i].lo, RangeEnd(s, i, hi')) && (x ==> StartsRight(i, recs, s[i].lo))
    ensures Good(PutOne(s, i, recs), hi', x)
  {
    hide LeafOk, Solid;
    var u := PutOne(s, i, recs);
    forall j | 0 <= j < |u|
      ensures u[j].lo <= RangeEnd(u, j, hi') && LeafOk(u[j].b.recs, u[j].lo, RangeEnd(u, j, hi'))
    {
      assert s[j].lo <= RangeEnd(s, j, hi);
    }
  }

  lemma ApartParts(x: seq<Rec>, m: seq<Rec>, z: seq<Rec>, r: Rec)
    requires Apart(x + m + z, r)
    ensures Apart(x, r) && Apart(m, r) && Apart(z, r)
  {
    var t := x + m + z;
    assert forall i :: 0 <= i < |x| ==> x[i] == t[i];
    assert forall i :: 0 <= i < |m| ==> m[i] == t[|x| + i];
    assert forall i :: 0 <= i < |z| ==> z[i] == t[|x| + |m| + i];
  }

  lemma ApartLeaf(s: seq<Slot>, i: nat, r: Rec)
    requires i < |s| && Apart(Flat(s), r)
    ensures Apart(FlatUpTo(s, i), r) && Apart(Solid(s[i].b.recs), r) && Apart(FlatFrom(s, i + 1), r)
  {
    hide Solid, Apart;
    FlatAround(s, i);
    ApartParts(FlatUpTo(s, i), Solid(s[i].b.recs), FlatFrom(s, i + 1), r);
  }

  /** A record that starts before the next leaf ends before it, when it overlaps nothing. */
  lemma EndsBefore(s: seq<Slot>, hi: int, x: bool, p: nat, r: Rec)
    requires Good(s, hi, x) && p + 1 < |s| && Apart(Flat(s), r) && r.clusters > 0
    requires r.cpos < s[p + 1].lo && Solid(s[p + 1].b.recs) != [] && ExactAt(s, p + 1)
    ensures End(r) <= s[p + 1].lo
  {
    hide FlatUpTo, FlatFrom;
    ApartLeaf(s, p + 1, r);
    assert s[p + 1].lo == Solid(s[p + 1].b.recs)[0].cpos;
    assert LeafOk(s[p + 1].b.recs, s[p + 1].lo, RangeEnd(s, p + 1, hi));
  }

  /** The point update of one leaf is that of the whole. */
  lemma LeafUpdated(s: seq<Slot>, i: nat, recs: seq<Rec>, r: Rec)
    requires i < |s| && Apart(Flat(s), r) && Updated(Solid(s[i].b.recs), Solid(recs), r)
    ensures Updated(Flat(s), Flat(PutOne(s, i, recs)), r)
  {
    hide Solid, Apart, Updated, FlatUpTo, FlatFrom;
    FlatOne(s, i, recs);
    FlatAround(s, i);
    ApartLeaf(s, i, r);
    UpdatedAmid(FlatUpTo(s, i), Solid(s[i].b.recs), Solid(recs), FlatFrom(s, i + 1), r);
  }

  /** The state of the leaves between top-level operations. */
  predicate Tidy(s: seq<Slot>, hi: int, x: bool, cap: nat) {
    Good(s, hi, x) && Filled(s, cap) && SolidBut(s, -1)
  }

  predicate Fits(r: Rec) {
    r.clusters > 0 && r.cpos >= 0
  }

  /** Leaf p is the one whose range has the record's first cluster. */
  predicate InRangeOf(s: seq<Slot>, p: nat, cpos: int) {
    p < |s| && s[p].lo <= cpos && (p + 1 < |s| ==> cpos < s[p + 1].lo)
  }

  /** What is known of a leaf between operations. */
  lemma TidyLeaf(s: seq<Slot>, hi: int, x: bool, cap: nat, p: nat)
    requires Good(s, hi, x) && Filled(s, cap) && p < |s| && s[p].b.recs != [] && !HasEmpty(s[p].b.recs)
    ensures var l, e := s[p].b.recs, RangeEnd(s, p, hi);
      && Solid(l) == l && Within(l, s[p].lo, e) && 0 <= s[p].lo <= e && |l| <= cap
      && (p + 1 < |s| ==> |l| == cap) && (x && p > 0 ==> s[p].lo == l[0].cpos)
      && s[|s| - 1].lo <= hi
  {
    LosAscend(s, hi, x, 0, p);
    assert LeafOk(s[p].b.recs, s[p].lo, RangeEnd(s, p, hi));
    assert s[|s| - 1].lo <= RangeEnd(s, |s| - 1, hi);
  }

  /** One leaf with as many records as before. */
  lemma PutOneFilled(s: seq<Slot>, cap: nat, p: nat, t: seq<Rec>, j: int)
    requires p < |s| && Filled(s, cap) && SolidBut(s, j) && (j == p || j == -1)
    requires t != [] && !HasEmpty(t) && |t| <= cap && (p + 1 < |s| ==> |t| == cap)
    ensures Filled(PutOne(s, p, t), cap) && SolidBut(PutOne(s, p, t), -1) && SameBlocks(s, PutOne(s, p, t))
  {
  }

  lemma ContigLeaf(l: seq<Rec>, lo: int, e: int, e': int, contig: Contig, k: nat, r: Rec, first: bool)
    requires Within(l, lo, e) && Apart(l, r) && Fits(r) && lo <= r.cpos && k < |l|
    requires contig == RecContig(l[k], r) && (contig == ContigRight || (contig == ContigLeft && k > 0))
    requires if r.cpos >= End(l[|l| - 1]) then e' == End(r) || (e' == e && End(r) <= e) else e' == e
    ensures var t := l[k := Grown(l[k], contig, r)];
      && Within(t, lo, e') && Updated(l, t, r) && Solid(t) == t && !HasEmpty(t) && t[0].cpos == l[0].cpos
      && lo <= e'
  {
    ContigEnds(l, lo, e, e', r);
    GrownWithin(l, lo, e, e', k, contig, r);
  }

  /** A contiguous insert grows one record of one leaf. */
  lemma ContigInsert(s: seq<Slot>, hi: int, x: bool, hi': int, cap: nat, p: nat, contig: Contig, k: nat, r: Rec)
    requires Tidy(s, hi, x, cap) && InRangeOf(s, p, r.cpos) && Fits(r) && Apart(Flat(s), r)
    requires k < |s[p].b.recs| && contig == RecContig(s[p].b.recs[k], r)
    requires contig == ContigRight || (contig == ContigLeft && k > 0)
    requires x || p + 1 == |s| || End(r) <= s[p + 1].lo
    requires var l := s[p].b.recs[|s[p].b.recs| - 1];
      if p == |s| - 1 && r.cpos >= End(l) then hi' == End(r) else hi' == hi
    ensures var u := PutOne(s, p, s[p].b.recs[k := Grown(s[p].b.recs[k], contig, r)]);
      && Tidy(u, hi', x, cap) && SameBlocks(s, u) && Updated(Flat(s), Flat(u), r)
      && s[|s| - 1].lo <= hi'
  {
    hide Good, Filled, Solid, Within, Updated, Apart, FlatUpTo, SameBlocks, Grown;
    var l := s[p].b.recs;
    var t := l[k := Grown(l[k], contig, r)];
    TidyLeaf(s, hi, x, cap, p);
    ApartLeaf(s, p, r);
    if p + 1 < |s| && x {
      ExactGood(s, hi, p + 1);
      EndsBeforeNext(s, hi, x, p, r);
    }
    ContigLeaf(l, s[p].lo, RangeEnd(s, p, hi), RangeEnd(s, p, hi'), contig, k, r, p > 0);
    LastLo(s, hi, x, hi', p);
    OneGoodHi(s, hi, x, hi', p, t);
    LeafUpdated(s, p, t, r);
    PutOneFilled(s, cap, p, t, -1);
  }

  lemma LastLo(s: seq<Slot>, hi: int, x: bool, hi': int, p: nat)
    requires Good(s, hi, x) && p < |s| && (hi' == hi || (p == |s| - 1 && s[p].lo <= hi'))
    ensures s[|s| - 1].lo <= hi'
  {
    assert s[|s| - 1].lo <= RangeEnd(s, |s| - 1, hi);
  }

  lemma EndsBeforeNext(s: seq<Slot>, hi: int, x: bool, p: nat, r: Rec)
    requires Good(s, hi, x) && SolidBut(s, p) && p + 1 < |s| && Apart(Flat(s), r) && Fits(r)
    requires r.cpos < s[p + 1].lo && ExactAt(s, p + 1)
    ensures End(r) <= s[p + 1].lo
  {
    assert Solid(s[p + 1].b.recs) == s[p + 1].b.recs;
    EndsBefore(s, hi, x, p, r);
  }

  lemma ContigEnds(l: seq<Rec>, lo: int, hi: int, e: int, r: Rec)
    requires Within(l, lo, hi) && l != [] && Apart(l, r) && Fits(r) && lo <= r.cpos
    requires if r.cpos >= End(l[|l| - 1]) then e == End(r) || (e == hi && End(r) <= hi) else e == hi
    ensures End(r) <= e && End(l[|l| - 1]) <= e
  {
    if r.cpos < End(l[|l| - 1]) {
      assert End(r) <= l[|l| - 1].cpos;
    }
  }

  lemma PairGoodHi(s: seq<Slot>, hi: int, x: bool, hi': int, i: nat, l: seq<Rec>, r: seq<Rec>, c: int)
    requires Good(s, hi, x) && 0 < i < |s| && (i == |s| - 1 || hi' == hi) && s[i - 1].lo <= c <= RangeEnd(s, i, hi')
    requires LeafOk(l, s[i - 1].lo, c) && LeafOk(r, c, RangeEnd(s, i, hi'))
    requires x ==> StartsRight(i - 1, l, s[i - 1].lo) && StartsRight(i, r, c)
    ensures Good(PutPair(s, i, l, r, c), hi', x)
  {
    hide LeafOk, Solid;
    var u := PutPair(s, i, l, r, c);
    forall j | 0 <= j < |u|
      ensures u[j].lo <= RangeEnd(u, j, hi') && LeafOk(u[j].b.recs, u[j].lo, RangeEnd(u, j, hi'))
    {
      assert s[j].lo <= RangeEnd(s, j, hi);
    }
  }

  /** The records of a leaf with one more, inside its range. */
  lemma InsertInRange(l: seq<Rec>, lo: int, hi: int, e: int, r: Rec)
    requires Within(l, lo, hi) && Apart(l, r) && Fits(r) && 0 <= lo <= r.cpos && End(r) <= e
    requires l != [] ==> End(l[|l| - 1]) <= e
    ensures var t := InsertSorted(l, r);
      && Within(t, lo, e) && Updated(l, t, r) && t != [] && Solid(t) == t && !HasEmpty(t)
      && (l != [] && l[0].cpos <= r.cpos ==> t[0] == l[0])
      && (l != [] && r.cpos < l[0].cpos ==> t[0] == r) && (l == [] ==> t == [r])
      && |t| == |l| + 1
  {
    assert Within(l, lo, e);
    InsertWithin(l, lo, e, r);
    var k := InsertIndex(l, r.cpos);
    assert l != [] && l[0].cpos <= r.cpos ==> k > 0;
  }

  /** What a leaf with room holds. */
  lemma RoomLeaf(s: seq<Slot>, hi: int, x: bool, cap: nat, p: nat, r: Rec)
    requires Good(s, hi, x) && Filled(s, cap) && p < |s| && HasRoom(s[p].b.recs, cap) && Apart(Flat(s), r)
    ensures var l, e := Solid(s[p].b.recs), RangeEnd(s, p, hi);
      && Within(l, s[p].lo, e) && 0 <= s[p].lo <= e && Apart(l, r) && |l| < cap
      && (p + 1 < |s| ==> |l| + 1 == cap) && (x && p > 0 && l != [] ==> s[p].lo == l[0].cpos)
      && s[|s| - 1].lo <= hi
  {
    ApartLeaf(s, p, r);
    LosAscend(s, hi, x, 0, p);
    assert LeafOk(s[p].b.recs, s[p].lo, RangeEnd(s, p, hi));
    assert s[|s| - 1].lo <= RangeEnd(s, |s| - 1, hi);
  }

  /** An insert that stays inside the range of the leaf with room. */
  lemma InsertInside(s: seq<Slot>, hi: int, x: bool, hi': int, cap: nat, p: nat, r: Rec)
    requires Good(s, hi, x) && Filled(s, cap) && p < |s| && SolidBut(s, p) && HasRoom(s[p].b.recs, cap)
    requires Apart(Flat(s), r) && Fits(r) && s[p].lo <= r.cpos && End(r) <= RangeEnd(s, p, hi')
    requires hi' == hi || (p == |s| - 1 && (Solid(s[p].b.recs) != [] ==>
                                              End(Solid(s[p].b.recs)[|Solid(s[p].b.recs)| - 1]) <= hi'))
    requires x && p > 0 && Solid(s[p].b.recs) == [] ==> s[p].lo == r.cpos
    ensures var t := InsertSorted(Solid(s[p].b.recs), r);
      var u := PutOne(s, p, t);
      && Tidy(u, hi', x, cap) && SameBlocks(s, u) && Updated(Flat(s), Flat(u), r) && s[|s| - 1].lo <= hi'
  {
    hide Good, Filled, Solid, Updated, Apart, FlatUpTo, SameBlocks, InsertSorted;
    RoomLeaf(s, hi, x, cap, p, r);
    var l := Solid(s[p].b.recs);
    var t := InsertSorted(l, r);
    InsertInRange(l, s[p].lo, RangeEnd(s, p, hi), RangeEnd(s, p, hi'), r);
    OneGoodHi(s, hi, x, hi', p, t);
    LeafUpdated(s, p, t, r);
    PutOneFilled(s, cap, p, t, p);
  }

  /** An insert in front of the leaf with room: the boundary moves to the new record. */
  lemma InsertAtEdge(s: seq<Slot>, hi: int, x: bool, hi': int, cap: nat, p: nat, r: Rec)
    requires Good(s, hi, x) && Filled(s, cap) && 0 < p < |s| && SolidBut(s, p) && HasRoom(s[p].b.recs, cap)
    requires Apart(Flat(s), r) && Fits(r) && End(r) <= RangeEnd(s, p, hi') && cap > 0
    requires hi' == hi || (p == |s| - 1 && Solid(s[p].b.recs) == [])
    requires s[p - 1].b.recs[|s[p - 1].b.recs| - 1].cpos < r.cpos
    requires Solid(s[p].b.recs) != [] ==> r.cpos < s[p].lo
    ensures var t := InsertSorted(Solid(s[p].b.recs), r);
      var u := PutPair(s, p, s[p - 1].b.recs, t, r.cpos);
      && Tidy(u, hi', x, cap) && SameBlocks(s, u) && Updated(Flat(s), Flat(u), r)
      && t != [] && t[0] == r && !HasEmpty(t) && s[p - 1].lo <= r.cpos <= RangeEnd(s, p, hi')
  {
    hide Good, Filled, Updated, FlatUpTo, FlatFrom, SameBlocks, InsertSorted, Within, Solid;
    RoomLeaf(s, hi, x, cap, p, r);
    TidyLeaf(s, hi, x, cap, p - 1);
    ApartLeaf(s, p - 1, r);
    var k, l := s[p - 1].b.recs, Solid(s[p].b.recs);
    var t := InsertSorted(l, r);
    EdgeFits(k, s[p - 1].lo, s[p].lo, l, RangeEnd(s, p, hi), RangeEnd(s, p, hi'), r);
    PairGoodHi(s, hi, x, hi', p, k, t, r.cpos);
    PairUpdated(s, p, t, r);
    PutPairFilled(s, cap, p, t, r.cpos);
  }

  lemma EdgeFits(k: seq<Rec>, lo: int, mid: int, l: seq<Rec>, hi: int, e: int, r: Rec)
    requires Within(k, lo, mid) && k != [] && Within(l, mid, hi) && Apart(k, r) && Apart(l, r) && Fits(r)
    requires k[|k| - 1].cpos < r.cpos && End(r) <= e && 0 <= lo && (l != [] ==> hi == e && r.cpos < mid)
    ensures var t := InsertSorted(l, r);
      && Within(k, lo, r.cpos) && Within(t, r.cpos, e) && t != [] && t[0] == r && Solid(t) == t && !HasEmpty(t)
      && Updated(l, t, r) && lo <= r.cpos <= e && |t| == |l| + 1
  {
    assert Within(l, r.cpos, e);
    InsertInRange(l, r.cpos, e, e, r);
  }

  lemma PairUpdated(s: seq<Slot>, p: nat, t: seq<Rec>, r: Rec)
    requires 0 < p < |s| && Apart(Flat(s), r) && Updated(Solid(s[p].b.recs), Solid(t), r)
    ensures Updated(Flat(s), Flat(PutPair(s, p, s[p - 1].b.recs, t, r.cpos)), r)
  {
    hide Solid, Apart, Updated, FlatUpTo, FlatFrom;
    FlatPair(s, p, s[p - 1].b.recs, t, r.cpos);
    ApartLeaf(s, p, r);
    UpdatedAmid(FlatUpTo(s, p - 1) + Solid(s[p - 1].b.recs), Solid(s[p].b.recs), Solid(t), FlatFrom(s, p + 1), r);
  }

  lemma PutPairFilled(s: seq<Slot>, cap: nat, p: nat, t: seq<Rec>, c: int)
    requires 0 < p < |s| && Filled(s, cap) && SolidBut(s, p)
    requires t != [] && !HasEmpty(t) && |t| <= cap && (p + 1 < |s| ==> |t| == cap)
    ensures var u := PutPair(s, p, s[p - 1].b.recs, t, c);
      Filled(u, cap) && SolidBut(u, -1) && SameBlocks(s, u)
  {
  }

  // ----- A new leaf at the right -----

  function LastEnd(s: seq<Rec>): int {
    if s == [] then 0 else End(s[|s| - 1])
  }

  /** The leaves after ocfs2_add_branch(). */
  function WithNewLeaf(s: seq<Slot>, blk: nat): seq<Slot>
    requires |s| > 0
  {
    var n := |s| - 1;
    var e := LastEnd(s[n].b.recs);
    s[n := Slot(s[n].lo, s[n].b.(next := blk))] + [Slot(e, LeafBlk(blk, 0, [Rec(e, 0, 0, 0)]))]
  }

  lemma NewLeafGood(s: seq<Slot>, hi: int, x: bool, cap: nat, blk: nat, last: nat)
    requires Tidy(s, hi, x, cap) && |s[|s| - 1].b.recs| == cap && cap > 0 && Chained(s, last, blk) && blk > 0
    ensures var u, e := WithNewLeaf(s, blk), LastEnd(s[|s| - 1].b.recs);
      && Good(u, e, x) && Filled(u, cap) && SolidBut(u, |u| - 1) && Chained(u, blk, blk + 1) && Flat(u) == Flat(s)
      && s[|s| - 1].lo <= e <= hi && e >= 0
  {
    hide Good, Filled, SolidBut, Chained, FlatUpTo, WithNewLeaf;
    var n := |s| - 1;
    TidyEnds(s, hi, x, cap);
    NewLeafRanges(s, hi, x, cap, blk);
    NewLeafFilled(s, cap, blk);
    NewLeafFlat(s, blk);
    NewLeafChain(s, blk, last);
  }

  lemma TidyEnds(s: seq<Slot>, hi: int, x: bool, cap: nat)
    requires Tidy(s, hi, x, cap)
    ensures |s| > 0
    ensures var n := |s| - 1;
      var e := LastEnd(s[n].b.recs);
      s[n].b.recs != [] && LeafOk(s[n].b.recs, s[n].lo, e) && 0 <= s[n].lo <= e <= hi && e > 0
  {
    hide Good, Filled, SolidBut, Sorted;
    LowestStart(s, hi, x);
    LeafHasRecords(s, hi, x, cap, |s| - 1);
    TidyLeaf(s, hi, x, cap, |s| - 1);
    EndsAtLast(s[|s| - 1].b.recs, s[|s| - 1].lo, hi);
  }

  lemma EndsAtLast(l: seq<Rec>, lo: int, hi: int)
    requires Within(l, lo, hi) && l != [] && lo >= 0
    ensures Within(l, lo, LastEnd(l)) && lo <= LastEnd(l) <= hi && LastEnd(l) > 0
  {
  }

  lemma FreshLeaf(e: int)
    ensures LeafOk([Rec(e, 0, 0, 0)], e, e) && Solid([Rec(e, 0, 0, 0)]) == [] && HasEmpty([Rec(e, 0, 0, 0)])
  {
  }

  lemma SolidButAny(s: seq<Slot>, j: int)
    requires SolidBut(s, -1)
    ensures SolidBut(s, j)
  {
  }

  lemma NewLeafFilled(s: seq<Slot>, cap: nat, blk: nat)
    requires |s| > 0 && Filled(s, cap) && SolidBut(s, -1) && |s[|s| - 1].b.recs| == cap && cap > 0
    ensures var u := WithNewLeaf(s, blk); Filled(u, cap) && SolidBut(u, |u| - 1)
  {
    hide LastEnd;
  }

  lemma NewLeafFlat(s: seq<Slot>, blk: nat)
    requires |s| > 0
    ensures Flat(WithNewLeaf(s, blk)) == Flat(s)
  {
    var u := WithNewLeaf(s, blk);
    FlatSame(s, u, |s|);
    FreshLeaf(u[|s|].lo);
    assert Flat(u) == FlatUpTo(u, |s|) + [];
  }

  lemma NewLeafRanges(s: seq<Slot>, hi: int, x: bool, cap: nat, blk: nat)
    requires Good(s, hi, x) && LeafOk(s[|s| - 1].b.recs, s[|s| - 1].lo, LastEnd(s[|s| - 1].b.recs))
    requires s[|s| - 1].lo <= LastEnd(s[|s| - 1].b.recs)
    ensures Good(WithNewLeaf(s, blk), LastEnd(s[|s| - 1].b.recs), x)
  {
    hide LastEnd, LeafOk, Solid;
    var u, e := WithNewLeaf(s, blk), LastEnd(s[|s| - 1].b.recs);
    FreshLeaf(e);
    forall j | 0 <= j < |u|
      ensures u[j].lo <= RangeEnd(u, j, e) && LeafOk(u[j].b.recs, u[j].lo, RangeEnd(u, j, e))
    {
      if j < |s| - 1 {
        assert s[j].lo <= RangeEnd(s, j, hi);
      }
    }
  }

  lemma NewLeafChain(s: seq<Slot>, blk: nat, last: nat)
    requires Chained(s, last, blk) && blk > 0
    ensures Chained(WithNewLeaf(s, blk), blk, blk + 1)
  {
    hide LastEnd;
  }

  lemma ChainKept(s: seq<Slot>, u: seq<Slot>, last: nat, limit: nat)
    requires Chained(s, last, limit) && SameBlocks(s, u)
    ensures Chained(u, last, limit)
  {
  }

  /** The records of a tree without blocks. */
  lemma FlatInline(x: Slot)
    requires Sorted(x.b.recs)
    ensures Flat([x]) == x.b.recs && Solid(x.b.recs) == x.b.recs
  {
    assert FlatUpTo([x], 0) == [];
    assert FlatUpTo([x], 1) == FlatUpTo([x], 0) + Solid(x.b.recs);
  }

  /** A full inline list is a tidy leaf of its own. */
  lemma InlineGood(y: Slot, x: bool, cap: nat)
    requires y.lo == 0 && Sorted(y.b.recs) && y.b.recs != [] && |y.b.recs| < cap && y.b.blk > 0 && y.b.next == 0
    ensures Tidy([y], LastEnd(y.b.recs), x, cap) && HasRoom(y.b.recs, cap) && Chained([y], y.b.blk, y.b.blk + 1)
    ensures LastEnd(y.b.recs) > 0
  {
    assert Solid(y.b.recs) == y.b.recs;
    assert LeafOk(y.b.recs, 0, LastEnd(y.b.recs));
  }

  lemma ChainedMore(s: seq<Slot>, last: nat, limit: nat, limit': nat)
    requires Chained(s, last, limit) && limit <= limit'
    ensures Chained(s, last, limit')
  {
  }

  /** The last record of the last leaf is the last of all. */
  lemma FlatLast(s: seq<Slot>)
    requires |s| > 0 && s[|s| - 1].b.recs != [] && !HasEmpty(s[|s| - 1].b.recs)
    ensures Flat(s) != [] && LastEnd(Flat(s)) == LastEnd(s[|s| - 1].b.recs)
  {
    var l := s[|s| - 1].b.recs;
    assert Flat(s) == FlatUpTo(s, |s| - 1) + l;
  }

  /** An insert into a tree without blocks. */
  lemma InlineInsert(l: seq<Rec>, r: Rec, contig: Contig, k: nat, appending: bool)
    requires Sorted(l) && Fits(r) && Apart(l, r) && (appending ==> Appends(l, r.cpos))
    requires contig != ContigNone ==> k < |l| && contig == RecContig(l[k], r)
    ensures var t := InsertAtLeaf(l, r, contig, k, appending);
      && Sorted(t) && Updated(l, t, r) && |t| == if contig == ContigNone then |l| + 1 else |l|
  {
    if contig != ContigNone {
      GrownUpdates(l, k, contig, r);
    } else {
      assert Solid(l) == l;
      InsertAtLeafSorted(l, r, appending);
      InsertSortedUpdates(l, r);
    }
  }

  /** A record that is not the last one ends by the end of the tree. */
  lemma EndsByHi(s: seq<Slot>, hi: int, x: bool, p: nat, r: Rec)
    requires Good(s, hi, x) && SolidBut(s, p) && p < |s| && Apart(Flat(s), r) && Fits(r)
    requires r.cpos < LastEnd(Flat(s)) && (p + 1 < |s| ==> r.cpos < s[p + 1].lo && ExactAt(s, p + 1))
    ensures End(r) <= RangeEnd(s, p, hi)
  {
    hide Good, SolidBut, FlatUpTo;
    if p + 1 < |s| {
      EndsBeforeNext(s, hi, x, p, r);
    } else {
      FlatWithin(s, hi, x);
      assert End(r) <= Flat(s)[|Flat(s)| - 1].cpos;
    }
  }

  /** The leaf that a rotation ends at has records, unless it is the first. */
  lemma TargetHasRecords(s: seq<Slot>, hi: int, x: bool, cap: nat, p: nat, cpos: int)
    requires Good(s, hi, x) && Filled(s, cap) && p < |s| && cap >= 3 && s[p].lo <= cpos < LastEnd(Flat(s))
    ensures Solid(s[p].b.recs) != []
  {
    hide FlatUpTo, FlatFrom, Good, Within;
    EmptyTail(s, p);
    FlatUpToWithin(s, hi, x, p);
    WithinLast(FlatUpTo(s, p), 0, s[p].lo);
  }

  lemma WithinLast(x: seq<Rec>, lo: int, hi: int)
    requires Within(x, lo, hi) && lo >= 0 && lo <= hi
    ensures LastEnd(x) <= hi
  {
  }

  /** Behind a last leaf without records there is nothing. */
  lemma EmptyTail(s: seq<Slot>, p: nat)
    requires p < |s|
    ensures p == |s| - 1 && Solid(s[p].b.recs) == [] ==> Flat(s) == FlatUpTo(s, p)
  {
  }

  lemma RotatingStart(s: seq<Slot>, hi: int, x: bool, cap: nat, r: Rec)
    requires Good(s, hi, x) && Filled(s, cap) && |s| > 0 && SolidBut(s, |s| - 1) && HasRoom(s[|s| - 1].b.recs, cap)
    requires Apart(Flat(s), r) && Fits(r)
    ensures Rotating(s, hi, x, cap, SplitNone, r.cpos, |s| - 1)
  {
    hide FlatUpTo;
    FlatWithin(s, hi, x);
    assert forall k :: 0 <= k < |Flat(s)| ==> Flat(s)[k].cpos != r.cpos;
  }

  lemma LeafHasRecords(s: seq<Slot>, hi: int, x: bool, cap: nat, p: nat)
    requires Tidy(s, hi, x, cap) && p < |s|
    ensures s[p].b.recs != [] && !HasEmpty(s[p].b.recs)
  {
  }

  lemma FindsLast(s: seq<Slot>, hi: int, x: bool, p: nat, c: int)
    requires Good(s, hi, x) && InRangeOf(s, p, c) && s[|s| - 1].lo <= c
    ensures p == |s| - 1
  {
    hide Good;
    if p < |s| - 1 {
      LosAscend(s, hi, x, p + 1, |s| - 1);
    }
  }

  /** Only the boundary of a changed leaf moves. */
  lemma EdgeOnly(s: seq<Slot>, p: nat, t: seq<Rec>, c: int)
    requires 0 < p < |s|
    ensures PutOne(s, p, t)[p := Slot(c, PutOne(s, p, t)[p].b)] == PutPair(s, p, s[p - 1].b.recs, t, c)
    ensures t != [] && !HasEmpty(t) ==> FirstCpos(Leaf(PutOne(s, p, t)[p].b)) == t[0].cpos
    ensures PutOne(s, p, t)[p - 1] == s[p - 1]
  {
  }

  /** A record appended at the right: to a leaf with records, or as the first of a new one. */
  lemma TailFits(s: seq<Slot>, hi: int, x: bool, cap: nat, r: Rec)
    requires Good(s, hi, x) && Filled(s, cap) && |s| > 0 && SolidBut(s, |s| - 1) && HasRoom(s[|s| - 1].b.recs, cap)
    requires var l := s[|s| - 1].b.recs;
      && Appends(l, r.cpos) && (NoRecords(l) ==> |s| > 1 && hi == s[|s| - 1].lo) && (HasEmpty(l) ==> NoRecords(l))
    requires Apart(Flat(s), r) && Fits(r) && s[|s| - 1].lo <= r.cpos && cap >= 3
    ensures var p := |s| - 1;
      var t := InsertAtLeaf(s[p].b.recs, r, ContigNone, 0, true);
      var u := if NoRecords(s[p].b.recs) then PutPair(s, p, s[p - 1].b.recs, t, r.cpos) else PutOne(s, p, t);
      && Tidy(u, End(r), x, cap) && SameBlocks(s, u) && Updated(Flat(s), Flat(u), r) && s[p].lo <= End(r)
      && (NoRecords(s[p].b.recs) ==>
            && t == [r] && s[p].lo != 1 && |s[p - 1].b.recs| == cap && s[p - 1].lo <= r.cpos)
  {
    hide Good, Filled, Apart, FlatUpTo, Updated, SolidBut, InsertSorted, SameBlocks;
    var p := |s| - 1;
    var l := s[p].b.recs;
    TailSorted(s, hi, x, p);
    InsertAtLeafSorted(l, r, true);
    if NoRecords(l) {
      LeftLeaf(s, hi, x, cap, p);
      InsertAtEdge(s, hi, x, End(r), cap, p, r);
      InsertEmpty(r);
    } else {
      InsertInside(s, hi, x, End(r), cap, p, r);
    }
  }

  lemma InsertEmpty(r: Rec)
    ensures InsertSorted([], r) == [r]
  {
  }

  lemma TailSorted(s: seq<Slot>, hi: int, x: bool, p: nat)
    requires Good(s, hi, x) && p < |s|
    ensures Sorted(Solid(s[p].b.recs)) && (!HasEmpty(s[p].b.recs) ==> Solid(s[p].b.recs) == s[p].b.recs)
    ensures NoRecords(s[p].b.recs) ==> Solid(s[p].b.recs) == []
  {
    assert LeafOk(s[p].b.recs, s[p].lo, RangeEnd(s, p, hi));
  }

  /** A record inserted after a rotation: into the leaf the rotation made room in, and with the
      boundary in front of it moved if it goes before that leaf's records. */
  lemma RotationFits(s: seq<Slot>, hi: int, x: bool, cap: nat, p: nat, hasLeft: bool, r: Rec)
    requires Rotating(s, hi, x, cap, SplitNone, r.cpos, p) && cap >= 3
    requires Apart(Flat(s), r) && Fits(r) && r.cpos < LastEnd(Flat(s))
    requires if hasLeft then p > 0 && |s[p - 1].b.recs| == cap && s[p - 1].b.recs[cap - 1].cpos < r.cpos < s[p].lo
             else s[p].lo <= r.cpos
    ensures var t := InsertAtLeaf(s[p].b.recs, r, ContigNone, 0, false);
      var u := if hasLeft then PutPair(s, p, s[p - 1].b.recs, t, r.cpos) else PutOne(s, p, t);
      && Tidy(u, hi, x, cap) && SameBlocks(s, u) && Updated(Flat(s), Flat(u), r)
      && (hasLeft ==> t != [] && !HasEmpty(t) && t[0] == r && s[p - 1].lo <= r.cpos <= RangeEnd(s, p, hi))
  {
    hide Good, Filled, Apart, FlatUpTo, Updated, SolidBut, InsertSorted, SameBlocks, HasRoom, Solid, NoRecords;
    TailSorted(s, hi, x, p);
    InsertAtLeafSorted(s[p].b.recs, r, false);
    EndsByHi(s, hi, x, p, r);
    if hasLeft {
      InsertAtEdge(s, hi, x, hi, cap, p, r);
    } else {
      TargetHasRecords(s, hi, x, cap, p, r.cpos);
      InsertInside(s, hi, x, hi, cap, p, r);
    }
  }

  // ----- Rotating to the left -----

  function EmptyIn(recs: seq<Rec>): nat {
    if HasEmpty(recs) then 1 else 0
  }

  /** The number of leaves among the first n that begin with an empty extent. */
  function EmptiesUpTo(s: seq<Slot>, n: nat): nat
    requires n <= |s|
  {
    if n == 0 then 0 else EmptiesUpTo(s, n - 1) + EmptyIn(s[n - 1].b.recs)
  }

  function Empties(s: seq<Slot>): nat {
    EmptiesUpTo(s, |s|)
  }

  lemma {:induction false} EmptiesSame(s: seq<Slot>, u: seq<Slot>, n: nat)
    requires n <= |s| && n <= |u| && forall i :: 0 <= i < n ==> s[i].b.recs == u[i].b.recs
    ensures EmptiesUpTo(s, n) == EmptiesUpTo(u, n)
  {
    if n > 0 {
      EmptiesSame(s, u, n - 1);
    }
  }

  lemma {:induction false} EmptiesPut(s: seq<Slot>, i: nat, recs: seq<Rec>, n: nat)
    requires i < n <= |s|
    ensures EmptiesUpTo(PutOne(s, i, recs), n) == EmptiesUpTo(s, n) - EmptyIn(s[i].b.recs) + EmptyIn(recs)
    ensures EmptiesUpTo(s, n) >= EmptyIn(s[i].b.recs)
  {
    if i == n - 1 {
      EmptiesSame(s, PutOne(s, i, recs), i);
    } else {
      EmptiesPut(s, i, recs, n - 1);
    }
  }

  /** None means no leaf begins with an empty extent. */
  lemma {:induction false} EmptiesNone(s: seq<Slot>, n: nat)
    requires n <= |s|
    ensures EmptiesUpTo(s, n) == 0 <==> forall i :: 0 <= i < n ==> !HasEmpty(s[i].b.recs)
  {
    if n > 0 {
      EmptiesNone(s, n - 1);
    }
  }

  lemma EmptiesPair(s: seq<Slot>, i: nat, l: seq<Rec>, r: seq<Rec>, c: int)
    requires 0 < i < |s|
    ensures Empties(PutPair(s, i, l, r, c))
         == Empties(s) - EmptyIn(s[i - 1].b.recs) - EmptyIn(s[i].b.recs) + EmptyIn(l) + EmptyIn(r)
  {
    var u := PutOne(s, i - 1, l);
    EmptiesPut(s, i - 1, l, |s|);
    EmptiesPut(u, i, r, |s|);
    EmptiesSame(PutOne(u, i, r), PutPair(s, i, l, r, c), |s|);
  }

  /** The leaves without the last one. */
  function WithoutLast(s: seq<Slot>): seq<Slot>
    requires |s| > 1
  {
    var n := |s| - 2;
    s[..n + 1][n := Slot(s[n].lo, s[n].b.(next := 0))]
  }

  /** What holds of the leaves while records move left: any of them may begin with an empty extent. */
  predicate Loose(s: seq<Slot>, hi: int, x: bool, cap: nat) {
    Good(s, hi, x) && Filled(s, cap) && forall i :: 0 <= i < |s| ==> s[i].b.recs != []
  }

  /** The first record of leaf i moves to the empty slot of leaf i - 1. */
  function RotatedLeft(s: seq<Slot>, i: nat): seq<Slot>
    requires 0 < i < |s| && |Solid(s[i].b.recs)| > 1
  {
    var l, r := s[i - 1].b.recs, Solid(s[i].b.recs);
    var rest := if i == |s| - 1 then r[1..] else [NOREC] + r[1..];
    PutPair(s, i, RotateLeaf(l, r[0]), rest, r[1].cpos)
  }

  lemma RotateLeftRecs(l: seq<Rec>, r: seq<Rec>, lo: int, mid: int, hi: int, last: bool)
    requires LeafOk(l, lo, mid) && LeafOk(r, mid, hi) && lo <= mid && |Solid(r)| > 1 && HasEmpty(l)
    ensures var t := Solid(r);
      var l', r' := RotateLeaf(l, t[0]), if last then t[1..] else [NOREC] + t[1..];
      && l' == Solid(l) + [t[0]] && Solid(l') == l' && !HasEmpty(l') && |l'| == |l|
      && LeafOk(l', lo, t[1].cpos) && LeafOk(r', t[1].cpos, hi) && lo <= t[1].cpos <= hi
      && Solid(r') == t[1..] && Solid(r') != [] && (HasEmpty(r') <==> !last) && r' != []
      && Solid(l') + Solid(r') == Solid(l) + Solid(r)
      && (Solid(l) != [] ==> l'[0] == Solid(l)[0])
      && |r'| == (if last then |t| - 1 else |t|)
  {
    hide Within, InsertSorted;
    var x, t := Solid(l), Solid(r);
    MoveFirst(x, t, lo, mid, hi);
    SolidEmpty(t[1..]);
  }

  lemma MoveFirst(x: seq<Rec>, t: seq<Rec>, lo: int, mid: int, hi: int)
    requires Within(x, lo, mid) && Within(t, mid, hi) && lo <= mid && |t| > 1
    ensures InsertSorted(x, t[0]) == x + [t[0]] && Within(x + [t[0]], lo, t[1].cpos)
    ensures Within(t[1..], t[1].cpos, hi) && lo <= t[1].cpos <= hi && t[0].clusters > 0 && t[1].clusters > 0
    ensures x + [t[0]] + t[1..] == x + t && (x != [] ==> x[0].clusters > 0)
  {
    WithinCut(t, mid, hi, 1);
    assert t[..1] == [t[0]];
    InsertLast(x, t[0]);
    WithinJoin(x, [t[0]], lo, mid, t[1].cpos);
  }

  lemma InsertLast(x: seq<Rec>, r: Rec)
    requires forall i :: 0 <= i < |x| ==> x[i].cpos <= r.cpos
    ensures InsertSorted(x, r) == x + [r]
  {
    var k := InsertIndex(x, r.cpos);
  }

  /** One rotation to the left: the order of the records stays, the empty slot moves right and is
      lost at the last leaf. */
  lemma RotateLeftGood(s: seq<Slot>, hi: int, x: bool, cap: nat, i: nat)
    requires Loose(s, hi, x, cap) && 0 < i < |s| && HasEmpty(s[i - 1].b.recs) && |Solid(s[i].b.recs)| > 1 && cap >= 3
    requires i < |s| - 1 ==> !HasEmpty(s[i].b.recs)
    ensures var u := RotatedLeft(s, i);
      && Loose(u, hi, x, cap) && Flat(u) == Flat(s) && SameBlocks(s, u)
      && !HasEmpty(u[i - 1].b.recs) && (HasEmpty(u[i].b.recs) <==> i < |s| - 1)
      && Empties(u) <= Empties(s) && (i == |s| - 1 ==> Empties(u) < Empties(s))
      && s[i - 1].lo <= u[i].lo <= RangeEnd(s, i, hi) && FirstCpos(Leaf(u[i].b)) == u[i].lo
      && |u[i - 1].b.recs| == cap
  {
    hide Good, FlatUpTo, FlatFrom, Solid, EmptiesUpTo, RotateLeaf;
    var l, r := s[i - 1].b.recs, s[i].b.recs;
    LeafRange(s, hi, x, i - 1);
    LeafRange(s, hi, x, i);
    RotateLeftRecs(l, r, s[i - 1].lo, s[i].lo, RangeEnd(s, i, hi), i == |s| - 1);
    var t := Solid(r);
    var l', r' := RotateLeaf(l, t[0]), if i == |s| - 1 then t[1..] else [NOREC] + t[1..];
    SolidFirst(l, r');
    PairGood(s, hi, x, i, l', r', t[1].cpos);
    FlatPair(s, i, l', r', t[1].cpos);
    Regroup(FlatUpTo(s, i - 1), Solid(l'), Solid(r'), Solid(l), Solid(r), FlatFrom(s, i + 1));
    EmptiesPair(s, i, l', r', t[1].cpos);
    SolidSize(r);
  }

  lemma LeafRange(s: seq<Slot>, hi: int, x: bool, i: nat)
    requires Good(s, hi, x) && i < |s|
    ensures LeafOk(s[i].b.recs, s[i].lo, RangeEnd(s, i, hi)) && s[i].lo <= RangeEnd(s, i, hi)
    ensures x && i > 0 && Solid(s[i].b.recs) != [] ==> s[i].lo == Solid(s[i].b.recs)[0].cpos
  {
  }

  lemma SolidSize(r: seq<Rec>)
    ensures |Solid(r)| == |r| - EmptyIn(r)
  {
  }

  /** The first record of a list behind its empty extent. */
  lemma SolidFirst(l: seq<Rec>, r: seq<Rec>)
    ensures |l| >= 2 && HasEmpty(l) ==> Solid(l) != []
    ensures Solid(r) != [] && r != [] ==> FirstCpos(Leaf(LeafBlk(0, 0, r))) == Solid(r)[0].cpos
  {
  }

  /** As `Loose`, but for the last leaf, and for how full the one before is. */
  predicate LooseBefore(s: seq<Slot>, hi: int, x: bool, cap: nat) {
    && Good(s, hi, x)
    && (forall i :: 0 <= i < |s| - 2 ==> |s[i].b.recs| == cap)
    && (forall i :: 0 <= i < |s| - 1 ==> s[i].b.recs != [] && |s[i].b.recs| <= cap)
  }

  /** The last leaf has no records left and goes away. */
  lemma DropLastGood(s: seq<Slot>, hi: int, x: bool, cap: nat, last: nat, limit: nat)
    requires LooseBefore(s, hi, x, cap) && |s| > 1 && Solid(s[|s| - 1].b.recs) == [] && Solid(s[|s| - 2].b.recs) != []
    requires Chained(s, last, limit)
    ensures var u, e := WithoutLast(s), LastEnd(s[|s| - 2].b.recs);
      && Loose(u, e, x, cap) && Flat(u) == Flat(s) && Chained(u, s[|s| - 2].b.blk, limit)
      && Empties(u) == Empties(s) - EmptyIn(s[|s| - 1].b.recs) && s[|s| - 2].lo <= e
      && (forall j :: 0 <= j < |u| ==> u[j].b.recs == s[j].b.recs && u[j].lo == s[j].lo)
  {
    hide Chained, FlatUpTo, EmptiesUpTo, LastEnd, Loose, LooseBefore;
    var u := WithoutLast(s);
    DropRanges(s, hi, x, cap);
    FlatSame(s, u, |u|);
    EmptyLastFlat(s);
    EmptiesSame(s, u, |u|);
    EmptiesLast(s);
    DropChain(s, last, limit);
  }

  lemma EmptyLastFlat(s: seq<Slot>)
    requires |s| > 0 && Solid(s[|s| - 1].b.recs) == []
    ensures Flat(s) == FlatUpTo(s, |s| - 1)
  {
  }

  lemma EmptiesLast(s: seq<Slot>)
    requires |s| > 0
    ensures Empties(s) == EmptiesUpTo(s, |s| - 1) + EmptyIn(s[|s| - 1].b.recs)
  {
  }

  lemma DropChain(s: seq<Slot>, last: nat, limit: nat)
    requires |s| > 1 && Chained(s, last, limit)
    ensures Chained(WithoutLast(s), s[|s| - 2].b.blk, limit)
  {
  }

  lemma DropRanges(s: seq<Slot>, hi: int, x: bool, cap: nat)
    requires LooseBefore(s, hi, x, cap) && |s| > 1 && Solid(s[|s| - 2].b.recs) != []
    ensures Loose(WithoutLast(s), LastEnd(s[|s| - 2].b.recs), x, cap) && s[|s| - 2].lo <= LastEnd(s[|s| - 2].b.recs)
  {
    hide LeafOk, Solid, LastEnd;
    var n := |s| - 2;
    var u, e := WithoutLast(s), LastEnd(s[n].b.recs);
    LeafRange(s, hi, x, n);
    OwnEnd(s[n].b.recs, s[n].lo, RangeEnd(s, n, hi));
    forall j | 0 <= j < |u|
      ensures u[j].lo <= RangeEnd(u, j, e) && LeafOk(u[j].b.recs, u[j].lo, RangeEnd(u, j, e))
    {
      if j < n {
        LeafRange(s, hi, x, j);
      }
    }
  }

  /** A leaf lies within the end of its own last record. */
  lemma OwnEnd(l: seq<Rec>, lo: int, hi: int)
    requires LeafOk(l, lo, hi) && Solid(l) != []
    ensures LeafOk(l, lo, LastEnd(l)) && lo <= LastEnd(l) <= hi && LastEnd(l) == LastEnd(Solid(l))
  {
    var t := Solid(l);
    assert l[|l| - 1] == t[|t| - 1];
  }

  /** The last leaf's only record, or none, moves to the leaf on its left; then it goes away. */
  lemma RotateLeftDrops(s: seq<Slot>, hi: int, x: bool, cap: nat, last: nat, limit: nat)
    requires Loose(s, hi, x, cap) && |s| > 1 && HasEmpty(s[|s| - 2].b.recs) && |Solid(s[|s| - 1].b.recs)| <= 1
    requires cap >= 3
    requires Chained(s, last, limit)
    ensures |Solid(s[|s| - 2].b.recs)| > 0
    ensures var n := |s| - 2;
      var l' := Solid(s[n].b.recs) + Solid(s[n + 1].b.recs);
      var u := WithoutLast(PutOne(s, n, l'));
      && l' != [] && !HasEmpty(l') && Loose(u, LastEnd(l'), x, cap) && Flat(u) == Flat(s)
      && Chained(u, s[n].b.blk, limit) && Empties(u) < Empties(s) && s[n].lo <= LastEnd(l')
      && (forall j :: 0 <= j < n ==> u[j].b.recs == s[j].b.recs)
      && (Solid(s[n + 1].b.recs) != [] ==> RotateLeaf(s[n].b.recs, Solid(s[n + 1].b.recs)[0]) == l')
      && Solid(s[n].b.recs) != [] && LastEnd(s[n].b.recs) == LastEnd(Solid(s[n].b.recs))
  {
    hide Good, FlatUpTo, FlatFrom, Solid, EmptiesUpTo, Chained, RotateLeaf, LastEnd;
    var n := |s| - 2;
    var l, r := s[n].b.recs, s[n + 1].b.recs;
    LeafRange(s, hi, x, n);
    LeafRange(s, hi, x, n + 1);
    var l' := Solid(l) + Solid(r);
    JoinRecs(l, r, s[n].lo, s[n + 1].lo, hi);
    SolidSize(l);
    SolidSize(r);
    FreshLeaf(0);
    SolidEmpty([]);
    var s1 := PutPair(s, n + 1, l', [NOREC], LastEnd(l'));
    PairGood(s, hi, x, n + 1, l', [NOREC], LastEnd(l'));
    FlatPair(s, n + 1, l', [NOREC], LastEnd(l'));
    Regroup(FlatUpTo(s, n), l', [], Solid(l), Solid(r), FlatFrom(s, n + 2));
    EmptiesPair(s, n + 1, l', [NOREC], LastEnd(l'));
    ChainKept(s, s1, last, limit);
    DropLastGood(s1, hi, x, cap, last, limit);
    assert WithoutLast(s1) == WithoutLast(PutOne(s, n, l'));
  }

  lemma JoinRecs(l: seq<Rec>, r: seq<Rec>, lo: int, mid: int, hi: int)
    requires LeafOk(l, lo, mid) && LeafOk(r, mid, hi) && lo <= mid <= hi && |Solid(r)| <= 1 && |l| >= 2 && HasEmpty(l)
    ensures var l' := Solid(l) + Solid(r);
      && Solid(l) != [] && l' != [] && Solid(l') == l' && !HasEmpty(l') && l'[0] == Solid(l)[0]
      && LeafOk(l', lo, LastEnd(l')) && LeafOk([NOREC], LastEnd(l'), hi) && lo <= LastEnd(l') <= hi
      && (Solid(r) != [] ==> RotateLeaf(l, Solid(r)[0]) == l') && LastEnd(l) == LastEnd(Solid(l))
  {
    var x, t := Solid(l), Solid(r);
    WithinJoin(x, t, lo, mid, hi);
    if t != [] {
      InsertLast(x, t[0]);
      assert t == [t[0]];
    }
    OwnEnd(x + t, lo, hi);
  }

  /** The order of the two updates does not matter. */
  lemma DropMiddle(s: seq<Slot>, rest: seq<Rec>)
    requires |s| > 1 && rest == Solid(s[|s| - 1].b.recs)
    ensures rest == [] ==> (
              && PutOne(WithoutLast(s), |s| - 2, Solid(s[|s| - 2].b.recs))
                 == WithoutLast(PutOne(s, |s| - 2, Solid(s[|s| - 2].b.recs) + rest))
              && Solid(s[|s| - 2].b.recs) + rest == Solid(s[|s| - 2].b.recs))
    ensures |rest| == 1 ==> rest == [rest[0]]
  {
    assert Solid(s[|s| - 2].b.recs) + [] == Solid(s[|s| - 2].b.recs);
  }

  lemma LooseLeaf(s: seq<Slot>, hi: int, x: bool, cap: nat, i: nat)
    requires Loose(s, hi, x, cap) && i < |s| && cap >= 3
    ensures s[i].b.recs != [] && (i < |s| - 1 ==> |s[i].b.recs| == cap && |Solid(s[i].b.recs)| >= 2)
  {
  }

  lemma RotatedLeftIs(s: seq<Slot>, i: nat)
    requires 0 < i < |s| && |Solid(s[i].b.recs)| > 1
    ensures var t := Solid(s[i].b.recs);
      var u := PutOne(PutOne(s, i - 1, RotateLeaf(s[i - 1].b.recs, t[0])),
                      i, if i == |s| - 1 then t[1..] else [NOREC] + t[1..]);
      && u[i := Slot(t[1].cpos, u[i].b)] == RotatedLeft(s, i) && u[i].b == RotatedLeft(s, i)[i].b
      && u[i - 1] == RotatedLeft(s, i)[i - 1] && RotatedLeft(s, i)[i].lo == t[1].cpos
      && (i + 1 < |s| ==> u[i + 1] == s[i + 1]) && |u| == |s|
      && (forall j :: 0 <= j < i - 1 ==> RotatedLeft(s, i)[j] == s[j])
  {
    hide Solid, RotateLeaf;
  }

  /** Ranges of leaves that hold records grow strictly. */
  lemma LooseLo(s: seq<Slot>, hi: int, x: bool, cap: nat, j: nat)
    requires Loose(s, hi, x, cap) && j + 1 < |s| && cap >= 3
    ensures s[j].lo < s[j + 1].lo && s[j + 1].lo >= 2
  {
    LeafRange(s, hi, x, j);
    LooseLeaf(s, hi, x, cap, j);
    var t := Solid(s[j].b.recs);
    assert t[0].cpos >= 0 && End(t[0]) <= t[1].cpos && End(t[1]) <= s[j + 1].lo;
  }

  lemma RightOf(s: seq<Slot>, hi: int, x: bool, cap: nat, j: nat, i: nat)
    requires Loose(s, hi, x, cap) && j + 1 < |s| && cap >= 3 && InRangeOf(s, i, s[j + 1].lo)
    ensures i == j + 1
  {
    hide Good, Filled;
    if i < j + 1 {
      LosAscend(s, hi, x, i + 1, j + 1);
    } else if i > j + 1 {
      LooseLo(s, hi, x, cap, j + 1);
      LosAscend(s, hi, x, j + 2, i);
    }
  }

  /** One leaf with an empty extent, and none once it is gone. */
  lemma EmptiesOne(s: seq<Slot>, p: nat)
    requires p < |s| && SolidBut(s, p)
    ensures Empties(s) == EmptyIn(s[p].b.recs)
  {
    var u := PutOne(s, p, []);
    EmptiesPut(s, p, [], |s|);
    EmptiesNone(u, |s|);
  }

  lemma LooseTidy(s: seq<Slot>, hi: int, x: bool, cap: nat)
    requires Loose(s, hi, x, cap) && Empties(s) == 0
    ensures Tidy(s, hi, x, cap)
  {
    EmptiesNone(s, |s|);
  }

  lemma LastSolid(s: seq<Slot>, hi: int, x: bool, cap: nat)
    requires Loose(s, hi, x, cap) && |s| > 0 && |s[|s| - 1].b.recs| > 1
    ensures var p := |s| - 1;
      var u := PutOne(s, p, Solid(s[p].b.recs));
      && Loose(u, hi, x, cap) && Flat(u) == Flat(s) && SameBlocks(s, u) && !HasEmpty(u[p].b.recs)
      && Empties(u) == Empties(s) - EmptyIn(s[p].b.recs)
  {
    hide Good, FlatUpTo, FlatFrom, EmptiesUpTo, Solid;
    var p := |s| - 1;
    var t := Solid(s[p].b.recs);
    LeafRange(s, hi, x, p);
    SolidTwice(s[p].b.recs, s[p].lo, hi);
    SolidSize(s[p].b.recs);
    OneGood(s, hi, x, p, t);
    FlatOne(s, p, t);
    FlatAround(s, p);
    EmptiesPut(s, p, t, |s|);
  }

  lemma SolidTwice(l: seq<Rec>, lo: int, hi: int)
    requires LeafOk(l, lo, hi)
    ensures Solid(Solid(l)) == Solid(l) && !HasEmpty(Solid(l))
  {
  }

  lemma LooseAlso(s: seq<Slot>, hi: int, x: bool, cap: nat)
    requires Loose(s, hi, x, cap)
    ensures LooseBefore(s, hi, x, cap)
  {
  }

  lemma OnlyLeafEmpty(s: seq<Slot>)
    requires |s| == 1 && Solid(s[0].b.recs) == []
    ensures Flat(s) == []
  {
    assert FlatUpTo(s, 0) == [];
  }

  lemma EmptyInIs(l: seq<Rec>)
    ensures EmptyIn(l) == 1 <==> HasEmpty(l)
  {
  }

  lemma OneEmpty(s: seq<Slot>, hi: int, x: bool, cap: nat, p: nat)
    requires Loose(s, hi, x, cap) && p < |s| && |s[p].b.recs| <= 1 && HasEmpty(s[p].b.recs)
    ensures Solid(s[p].b.recs) == []
  {
  }

  // ----- Looking up a cluster -----

  lemma AtSolid(l: seq<Rec>, c: int)
    ensures At(l, c) == At(Solid(l), c)
  {
    if HasEmpty(l) {
      assert l == [l[0]] + l[1..];
      AtConcat([l[0]], l[1..], c);
      At1(l[0], c);
    }
  }

  lemma BeyondHole(t: seq<Rec>, lo: int, hi: int, c: int)
    requires Within(t, lo, hi) && (c < lo || hi <= c)
    ensures At(t, c) == Hole
  {
    AtMiss(t, |t|, c);
  }

  /** The leaf whose range has the cluster holds the record that maps it, if any does. */
  lemma AtOfLeaf(s: seq<Slot>, hi: int, x: bool, i: nat, c: int)
    requires Good(s, hi, x) && InRangeOf(s, i, c)
    ensures At(s[i].b.recs, c) == At(Flat(s), c)
  {
    hide Good, FlatUpTo, FlatFrom, Within, Solid;
    FlatAround(s, i);
    FlatUpToWithin(s, hi, x, i);
    BeyondHole(FlatUpTo(s, i), 0, s[i].lo, c);
    if i + 1 < |s| {
      FlatFromWithin(s, hi, x, i + 1);
      BeyondHole(FlatFrom(s, i + 1), s[i + 1].lo, hi, c);
    } else {
      FlatFromEnd(s);
      AtMiss([], 0, c);
    }
    At3(FlatUpTo(s, i), Solid(s[i].b.recs), FlatFrom(s, i + 1), c);
    AtSolid(s[i].b.recs, c);
  }

  lemma FlatFromEnd(s: seq<Slot>)
    ensures FlatFrom(s, |s|) == []
  {
  }

  lemma TidyLoose(s: seq<Slot>, hi: int, x: bool, cap: nat)
    requires Tidy(s, hi, x, cap)
    ensures Loose(s, hi, x, cap)
  {
  }

  lemma SameRanges(s: seq<Slot>, u: seq<Slot>, i: nat, c: int)
    requires |s| == |u| && (forall j :: 0 <= j < |s| ==> s[j].lo == u[j].lo) && InRangeOf(u, i, c)
    ensures InRangeOf(s, i, c)
  {
  }

  /** A cluster of a record that overlaps nothing is mapped by no leaf. */
  lemma LeafHole(s: seq<Slot>, hi: int, x: bool, cap: nat, i: nat, r: Rec, c: int)
    requires Tidy(s, hi, x, cap) && i < |s| && Apart(Flat(s), r) && Covers(r, c)
    ensures At(s[i].b.recs, c) == Hole
  {
    hide Good, Filled, FlatUpTo, FlatFrom, Apart;
    ApartLeaf(s, i, r);
    ApartHole(Solid(s[i].b.recs), r, c);
    AtSolid(s[i].b.recs, c);
  }

  // ----- Truncating a record -----

  /** The leaf after ocfs2_truncate_rec() has cut the record at index. */
  function Trimmed(l: seq<Rec>, index: nat, cpos: int, len: int): seq<Rec>
    requires index < |l|
  {
    var m := Remainder(l[index], cpos, len);
    if m == [] then CleanupMerge(l[index := NOREC], index) else l[index := m[0]]
  }

  lemma TrimmedSolid(l: seq<Rec>, index: nat, cpos: int, len: int)
    requires Sorted(l) && index < |l| && CutsEdge(l[index], cpos, len)
    ensures var t := Trimmed(l, index, cpos, len);
      && Solid(t) == CutList(l, index, cpos, len) && |t| == |l| && t != []
      && (HasEmpty(t) <==> Remainder(l[index], cpos, len) == [])
      && Removed(l, Solid(t), cpos, cpos + len) && Sorted(Solid(t))
  {
    CutRemoves(l, index, cpos, len);
    CutSorted(l, index, cpos, len);
    RemainderRemoves(l[index], cpos, len);
    var m := Remainder(l[index], cpos, len);
    var t := Trimmed(l, index, cpos, len);
    if m == [] {
      var u := l[index := NOREC];
      assert t == [NOREC] + (u[..index] + u[index + 1..]);
      assert u[..index] == l[..index] && u[index + 1..] == l[index + 1..];
      SolidEmpty(u[..index] + u[index + 1..]);
      assert l[..index] + [] == l[..index];
    } else {
      assert m == [m[0]];
      assert t == l[..index] + m + l[index + 1..];
    }
  }

  /** The trimmed leaf in the range of the old one, or in the range that begins at its own start. */
  lemma TrimmedWithin(l: seq<Rec>, lo: int, hi: int, index: nat, cpos: int, len: int)
    requires Within(l, lo, hi) && 0 <= lo && index < |l| && CutsEdge(l[index], cpos, len)
    ensures var t := Solid(Trimmed(l, index, cpos, len));
      && Within(t, lo, hi)
      && (t != [] ==> lo <= t[0].cpos && Within(t, t[0].cpos, hi) && t[0].cpos <= hi && l[0].cpos <= t[0].cpos)
      && (t != [] && !(index == 0 && cpos == l[0].cpos) ==> t[0].cpos == l[0].cpos)
      && (t == [] ==> |l| == 1)
  {
    TrimmedSolid(l, index, cpos, len);
    RemainderRemoves(l[index], cpos, len);
    var m := Remainder(l[index], cpos, len);
    var t := Solid(Trimmed(l, index, cpos, len));
    forall k | 0 <= k < |t|
      ensures lo <= t[k].cpos && End(t[k]) <= hi
    {
      if k < index {
        assert t[k] == l[k];
      } else if k < index + |m| {
        assert t[k] == m[0];
      } else {
        assert t[k] == l[k - |m| + 1];
      }
    }
    if t != [] {
      if index > 0 {
        assert t[0] == l[0];
      } else if m != [] {
        assert t[0] == m[0];
      } else {
        assert t[0] == l[1];
      }
    }
  }

  /** The cut begins a leaf that has others to its left and records to spare. */
  predicate AtEdge(s: seq<Slot>, p: nat, index: nat, cpos: int)
    requires p < |s|
  {
    p > 0 && index == 0 && |s[p].b.recs| > 1 && s[p].b.recs[0].cpos == cpos
  }

  /** The cut trims the only record of the rightmost leaf on its left: the one case in which
      the range above is not corrected. */
  predicate LoneLeftCut(s: seq<Slot>, p: nat, cpos: int, len: int)
    requires p < |s|
  {
    && p > 0 && |s[p].b.recs| == 1 && s[p].b.recs[0].cpos == cpos && cpos + len < End(s[p].b.recs[0])
  }

  /** After it the range of the leaf begins before its record. */
  lemma LoneIsInexact(s: seq<Slot>, hi: int, x: bool, cap: nat, p: nat, cpos: int, len: int, u: seq<Slot>)
    requires Tidy(s, hi, x, cap) && p < |s| && LoneLeftCut(s, p, cpos, len) && CutsEdge(s[p].b.recs[0], cpos, len)
    requires p < |u| && u[p].lo == s[p].lo && u[p].b.recs == Trimmed(s[p].b.recs, 0, cpos, len)
    ensures !HasEmpty(u[p].b.recs) && forall e :: !Tidy(u, e, true, cap)
  {
    hide Filled, SolidBut;
    var rec := s[p].b.recs[0];
    assert LeafOk(s[p].b.recs, s[p].lo, RangeEnd(s, p, hi));
    assert Remainder(rec, cpos, len) != [];
    assert u[p].b.recs[0].cpos == cpos + len;
  }

  function TrimmedSlots(s: seq<Slot>, p: nat, index: nat, cpos: int, len: int): seq<Slot>
    requires p < |s| && index < |s[p].b.recs|
  {
    var t := Trimmed(s[p].b.recs, index, cpos, len);
    if AtEdge(s, p, index, cpos) then PutPair(s, p, s[p - 1].b.recs, t, FirstCpos(Leaf(s[p].b.(recs := t))))
    else PutOne(s, p, t)
  }

  /** Where the tree ends after the cut: at its last record, if that was cut at its right. */
  function TrimmedHi(s: seq<Slot>, hi: int, p: nat, index: nat, cpos: int, len: int): int
    requires p < |s| && index < |s[p].b.recs|
  {
    var l := s[p].b.recs;
    var t := Trimmed(l, index, cpos, len);
    if p == |s| - 1 && index == |l| - 1 && Solid(t) != [] && cpos + len == End(l[index]) then LastEnd(t) else hi
  }

  lemma TrimHi(s: seq<Slot>, hi: int, x: bool, cap: nat, p: nat, index: nat, cpos: int, len: int)
    requires Tidy(s, hi, x, cap) && p < |s| && index < |s[p].b.recs| && CutsEdge(s[p].b.recs[index], cpos, len)
    ensures var l, t, e := s[p].b.recs, Trimmed(s[p].b.recs, index, cpos, len), TrimmedHi(s, hi, p, index, cpos, len);
      && LeafOk(t, s[p].lo, RangeEnd(s, p, e)) && 0 <= s[p].lo <= RangeEnd(s, p, e) && s[|s| - 1].lo <= e
      && (Solid(t) != [] ==> var c := Solid(t)[0].cpos;
            LeafOk(t, c, RangeEnd(s, p, e)) && s[p].lo <= c <= RangeEnd(s, p, e))
      && (p == |s| - 1 || e == hi)
  {
    hide Good, Filled, Trimmed;
    var l := s[p].b.recs;
    TidyLeaf(s, hi, x, cap, p);
    TrimmedWithin(l, s[p].lo, RangeEnd(s, p, hi), index, cpos, len);
    var t := Trimmed(l, index, cpos, len);
    if Solid(t) != [] {
      OwnEnd(t, s[p].lo, RangeEnd(s, p, hi));
    }
  }

  lemma ApartOfCut(x: seq<Rec>, l: seq<Rec>, z: seq<Rec>, index: nat, cpos: int, len: int)
    requires Sorted(x + l + z) && index < |l| && CutsEdge(l[index], cpos, len)
    ensures Apart(x, Rec(cpos, len, 0, 0)) && Apart(z, Rec(cpos, len, 0, 0))
  {
    var a := x + l + z;
    assert a[|x| + index] == l[index];
    assert forall i :: 0 <= i < |x| ==> a[i] == x[i];
    assert forall i :: 0 <= i < |z| ==> a[|x| + |l| + i] == z[i];
  }

  lemma TrimmedFlat(s: seq<Slot>, hi: int, x: bool, cap: nat, p: nat, index: nat, cpos: int, len: int)
    requires Tidy(s, hi, x, cap) && p < |s| && index < |s[p].b.recs| && CutsEdge(s[p].b.recs[index], cpos, len)
    ensures Removed(Flat(s), Flat(TrimmedSlots(s, p, index, cpos, len)), cpos, cpos + len)
  {
    hide Good, Filled, Trimmed, FlatUpTo, FlatFrom, FirstCpos, AtEdge, Removed;
    var l := s[p].b.recs;
    var t := Trimmed(l, index, cpos, len);
    TidyLeaf(s, hi, x, cap, p);
    FlatWithin(s, hi, x);
    TrimmedSolid(l, index, cpos, len);
    FlatAround(s, p);
    ApartOfCut(FlatUpTo(s, p), l, FlatFrom(s, p + 1), index, cpos, len);
    RemovedAmid(FlatUpTo(s, p), l, Solid(t), FlatFrom(s, p + 1), cpos, cpos + len);
    if AtEdge(s, p, index, cpos) {
      assert 0 < p by { EdgeIsInner(s, p, index, cpos); }
      FlatPair(s, p, s[p - 1].b.recs, t, FirstCpos(Leaf(s[p].b.(recs := t))));
      FlatUpToNext(s, p);
    } else {
      FlatOne(s, p, t);
    }
  }

  lemma EdgeIsInner(s: seq<Slot>, p: nat, index: nat, cpos: int)
    requires p < |s| && AtEdge(s, p, index, cpos)
    ensures 0 < p
  {
  }

  lemma FlatUpToNext(s: seq<Slot>, p: nat)
    requires 0 < p <= |s|
    ensures FlatUpTo(s, p) == FlatUpTo(s, p - 1) + Solid(s[p - 1].b.recs)
  {
  }

  /** The leaves after the cut: in order, with the boundaries right unless the cut was alone, and at
      most the cut leaf beginning with an empty extent. */
  lemma TrimGood(s: seq<Slot>, hi: int, x: bool, cap: nat, p: nat, index: nat, cpos: int, len: int)
    requires Tidy(s, hi, x, cap) && p < |s| && index < |s[p].b.recs| && CutsEdge(s[p].b.recs[index], cpos, len)
    requires x ==> !LoneLeftCut(s, p, cpos, len)
    ensures var u, e := TrimmedSlots(s, p, index, cpos, len), TrimmedHi(s, hi, p, index, cpos, len);
      Loose(u, e, x, cap) && SolidBut(u, p) && SameBlocks(s, u)
  {
    hide Good, Filled, FlatUpTo, FlatFrom, Within, Trimmed, Solid, FirstCpos, SolidBut, HasEmpty;
    if AtEdge(s, p, index, cpos) {
      TrimGoodEdge(s, hi, x, cap, p, index, cpos, len);
    } else {
      TrimGoodInner(s, hi, x, cap, p, index, cpos, len);
    }
  }

  lemma TrimGoodEdge(s: seq<Slot>, hi: int, x: bool, cap: nat, p: nat, index: nat, cpos: int, len: int)
    requires Tidy(s, hi, x, cap) && p < |s| && index < |s[p].b.recs| && CutsEdge(s[p].b.recs[index], cpos, len)
    requires AtEdge(s, p, index, cpos)
    ensures var u, e := TrimmedSlots(s, p, index, cpos, len), TrimmedHi(s, hi, p, index, cpos, len);
      Loose(u, e, x, cap) && SolidBut(u, p) && SameBlocks(s, u)
  {
    hide Good, Filled, FlatUpTo, FlatFrom, Within, Trimmed, Solid, FirstCpos, HasEmpty;
    var l, e := s[p].b.recs, TrimmedHi(s, hi, p, index, cpos, len);
    var t := Trimmed(l, index, cpos, len);
    TidyLeaf(s, hi, x, cap, p);
    TrimHi(s, hi, x, cap, p, index, cpos, len);
    TrimmedSolid(l, index, cpos, len);
    TrimmedWithin(l, s[p].lo, RangeEnd(s, p, hi), index, cpos, len);
    TidyLeaf(s, hi, x, cap, p - 1);
    WithinWider(s[p - 1].b.recs, s[p - 1].lo, s[p - 1].lo, s[p].lo, Solid(t)[0].cpos);
    EdgeStart(s[p].b, t);
    PairGoodHi(s, hi, x, e, p, s[p - 1].b.recs, t, Solid(t)[0].cpos);
    PutPairLoose(s, cap, p, t, Solid(t)[0].cpos);
  }

  lemma EdgeStart(b: LeafBlk, t: seq<Rec>)
    requires Solid(t) != [] && t != []
    ensures FirstCpos(Leaf(b.(recs := t))) == Solid(t)[0].cpos
  {
  }

  lemma PutPairLoose(s: seq<Slot>, cap: nat, p: nat, t: seq<Rec>, c: int)
    requires 0 < p < |s| && Filled(s, cap) && SolidBut(s, -1) && t != [] && |t| == |s[p].b.recs|
    ensures var u := PutPair(s, p, s[p - 1].b.recs, t, c);
      Filled(u, cap) && SolidBut(u, p) && SameBlocks(s, u) && forall j :: 0 <= j < |u| ==> u[j].b.recs != []
  {
  }

  lemma PutOneLoose(s: seq<Slot>, cap: nat, p: nat, t: seq<Rec>)
    requires p < |s| && Filled(s, cap) && SolidBut(s, -1) && t != [] && |t| == |s[p].b.recs|
    ensures var u := PutOne(s, p, t);
      Filled(u, cap) && SolidBut(u, p) && SameBlocks(s, u) && forall j :: 0 <= j < |u| ==> u[j].b.recs != []
  {
  }

  lemma TrimGoodInner(s: seq<Slot>, hi: int, x: bool, cap: nat, p: nat, index: nat, cpos: int, len: int)
    requires Tidy(s, hi, x, cap) && p < |s| && index < |s[p].b.recs| && CutsEdge(s[p].b.recs[index], cpos, len)
    requires !AtEdge(s, p, index, cpos) && (x ==> !LoneLeftCut(s, p, cpos, len))
    ensures var u, e := TrimmedSlots(s, p, index, cpos, len), TrimmedHi(s, hi, p, index, cpos, len);
      Loose(u, e, x, cap) && SolidBut(u, p) && SameBlocks(s, u)
  {
    hide Good, Filled, FlatUpTo, FlatFrom, Within, Trimmed, Solid, FirstCpos, HasEmpty, SolidBut;
    var l, e := s[p].b.recs, TrimmedHi(s, hi, p, index, cpos, len);
    var t := Trimmed(l, index, cpos, len);
    LeafHasRecords(s, hi, x, cap, p);
    TidyLeaf(s, hi, x, cap, p);
    TrimHi(s, hi, x, cap, p, index, cpos, len);
    TrimmedSolid(l, index, cpos, len);
    TrimmedWithin(l, s[p].lo, RangeEnd(s, p, hi), index, cpos, len);
    AllCut(l, index, cpos, len);
    OneGoodHi(s, hi, x, e, p, t);
    PutOneLoose(s, cap, p, t);
  }

  lemma AllCut(l: seq<Rec>, index: nat, cpos: int, len: int)
    requires Sorted(l) && index < |l| && CutsEdge(l[index], cpos, len)
    ensures |l| == 1 && cpos == l[0].cpos && cpos + len == End(l[0]) ==> Solid(Trimmed(l, index, cpos, len)) == []
  {
  }

  lemma TidyWeaker(s: seq<Slot>, hi: int, x: bool, y: bool, cap: nat)
    requires Tidy(s, hi, x, cap) && (y ==> x)
    ensures Tidy(s, hi, y, cap)
  {
  }

  /** What the fix-ups after a cut need. */
  lemma TrimmedFull(s: seq<Slot>, hi: int, x: bool, cap: nat, p: nat, index: nat, cpos: int, len: int)
    requires Tidy(s, hi, x, cap) && p < |s| && index < |s[p].b.recs| && CutsEdge(s[p].b.recs[index], cpos, len)
    requires AtEdge(s, p, index, cpos)
    ensures var t, e := Trimmed(s[p].b.recs, index, cpos, len), TrimmedHi(s, hi, p, index, cpos, len);
      && |s[p - 1].b.recs| == cap
      && s[p - 1].lo <= FirstCpos(Leaf(s[p].b.(recs := t))) <= RangeEnd(s, p, e)
  {
    hide Good, Filled, Trimmed, SolidBut, Solid, Within, FirstCpos, CutsEdge;
    LeafHasRecords(s, hi, x, cap, p);
    LeafHasRecords(s, hi, x, cap, p - 1);
    TidyLeaf(s, hi, x, cap, p - 1);
    TidyLeaf(s, hi, x, cap, p);
    TrimHi(s, hi, x, cap, p, index, cpos, len);
    TrimmedSolid(s[p].b.recs, index, cpos, len);
    TrimmedWithin(s[p].b.recs, s[p].lo, RangeEnd(s, p, hi), index, cpos, len);
    EdgeStart(s[p].b, Trimmed(s[p].b.recs, index, cpos, len));
    LeafRange(s, hi, x, p - 1);
  }

  // ----- Splitting a record -----

  /** The split inside one leaf: the record shrinks and the piece is put in its place by the
      rotation of the leaf. */
  lemma SplitInList(t: seq<Rec>, i: nat, piece: Rec, split: Split)
    requires Sorted(t) && i < |t| && Splits(t[i], piece, split)
    ensures InsertSorted(t[i := Subtract(t[i], piece, split)], piece) == SplitAt(t, i, piece, split)
  {
    var u := t[i := Subtract(t[i], piece, split)];
    var k := InsertIndex(u, piece.cpos);
    SplitIndex(t, i, piece, split);
    if split == SplitLeft {
      assert u[..i] == t[..i] && u[i..] == [u[i]] + t[i + 1..];
    } else {
      assert u[..i + 1] == t[..i] + [u[i]] && u[i + 1..] == t[i + 1..];
    }
  }

  lemma SplitIndex(t: seq<Rec>, i: nat, piece: Rec, split: Split)
    requires Sorted(t) && i < |t| && Splits(t[i], piece, split)
    ensures InsertIndex(t[i := Subtract(t[i], piece, split)], piece.cpos) == if split == SplitLeft then i else i + 1
  {
    hide InsertIndex;
    var u := t[i := Subtract(t[i], piece, split)];
    assert forall j :: 0 <= j < i ==> u[j].cpos < piece.cpos;
    assert forall j :: i < j < |u| ==> u[j].cpos > piece.cpos;
    IndexIs(u, piece.cpos, if split == SplitLeft then i else i + 1);
  }

  lemma IndexIs(s: seq<Rec>, cpos: int, e: nat)
    requires e <= |s| && forall j :: 0 <= j < e ==> s[j].cpos <= cpos
    requires forall j :: e <= j < |s| ==> s[j].cpos > cpos
    ensures InsertIndex(s, cpos) == e
  {
    hide InsertIndexFrom;
    assert e < |s| ==> s[e].cpos > cpos;
  }

  lemma SplitWithin(t: seq<Rec>, lo: int, hi: int, i: nat, piece: Rec, split: Split)
    requires Within(t, lo, hi) && i < |t| && Splits(t[i], piece, split)
    ensures var u := SplitAt(t, i, piece, split);
      && Within(u, lo, hi) && u != [] && u[0].cpos == t[0].cpos && Solid(u) == u && !HasEmpty(u) && |u| == |t| + 1
  {
    SplitAtUpdates(t, i, piece, split);
    SplitRecUpdates(t[i], piece, split);
    var m := SplitRec(t[i], piece, split);
    var u := SplitAt(t, i, piece, split);
    forall k | 0 <= k < |u|
      ensures lo <= u[k].cpos && End(u[k]) <= hi
    {
      if k < i {
        assert u[k] == t[k];
      } else if k < i + 2 {
        assert u[k] == m[k - i];
      } else {
        assert u[k] == t[k - 1];
      }
    }
    if i > 0 {
      assert u[0] == t[0];
    }
  }

  /** The split of one leaf is that of all the records. */
  lemma SplitFlat(s: seq<Slot>, p: nat, i: nat, piece: Rec, split: Split, recs: seq<Rec>)
    requires p < |s| && i < |Solid(s[p].b.recs)| && Solid(recs) == SplitAt(Solid(s[p].b.recs), i, piece, split)
    ensures |FlatUpTo(s, p)| + i < |Flat(s)| && Flat(s)[|FlatUpTo(s, p)| + i] == Solid(s[p].b.recs)[i]
    ensures Flat(PutOne(s, p, recs)) == SplitAt(Flat(s), |FlatUpTo(s, p)| + i, piece, split)
  {
    hide Solid, FlatUpTo, FlatFrom, SplitRec;
    FlatAround(s, p);
    FlatOne(s, p, recs);
    SpliceSplit(FlatUpTo(s, p), Solid(s[p].b.recs), FlatFrom(s, p + 1), i, piece, split);
  }

  lemma SpliceSplit(x: seq<Rec>, t: seq<Rec>, z: seq<Rec>, i: nat, piece: Rec, split: Split)
    requires i < |t|
    ensures (x + t + z)[|x| + i] == t[i]
    ensures x + SplitAt(t, i, piece, split) + z == SplitAt(x + t + z, |x| + i, piece, split)
  {
    hide SplitRec;
    var a, k := x + t + z, |x| + i;
    assert a[k] == t[i];
    assert a[..k] == x + t[..i];
    assert a[k + 1..] == t[i + 1..] + z;
  }

  /** The record that covers the cluster is in the leaf whose range has it. */
  lemma SplitFound(s: seq<Slot>, hi: int, x: bool, p: nat, c: int, k: nat)
    requires Good(s, hi, x) && InRangeOf(s, p, c) && k < |Flat(s)| && Covers(Flat(s)[k], c)
    ensures p < |s|
    ensures var idx := Search(s[p].b.recs, c);
      && EmptyIn(s[p].b.recs) <= idx < |s[p].b.recs|
      && var i := idx - EmptyIn(s[p].b.recs);
         && i < |Solid(s[p].b.recs)| && Solid(s[p].b.recs)[i] == s[p].b.recs[idx] == Flat(s)[k]
         && k == |FlatUpTo(s, p)| + i
  {
    hide Good, FlatUpTo, FlatFrom, Covers, Solid, Within, AtUpTo, SearchFrom, EmptyIn, HasEmpty;
    LeafSearch(s, hi, x, p, c, k);
    var l := s[p].b.recs;
    var idx := Search(l, c);
    EmptyCoversNone(l, c);
    var i := idx - EmptyIn(l);
    FlatIndex(s, p, i);
    FlatWithin(s, hi, x);
    WithinSorted(Flat(s), 0, hi);
    CoversOnce(Flat(s), k, |FlatUpTo(s, p)| + i, c);
  }

  lemma FlatIndex(s: seq<Slot>, p: nat, i: nat)
    requires p < |s| && i < |Solid(s[p].b.recs)|
    ensures |FlatUpTo(s, p)| + i < |Flat(s)| && Flat(s)[|FlatUpTo(s, p)| + i] == Solid(s[p].b.recs)[i]
  {
    hide Solid;
    FlatAround(s, p);
  }

  lemma LeafSearch(s: seq<Slot>, hi: int, x: bool, p: nat, c: int, k: nat)
    requires Good(s, hi, x) && InRangeOf(s, p, c) && k < |Flat(s)| && Covers(Flat(s)[k], c)
    ensures 0 <= Search(s[p].b.recs, c) < |s[p].b.recs| && Covers(s[p].b.recs[Search(s[p].b.recs, c)], c)
  {
    hide Good, FlatUpTo, FlatFrom, Covers, Solid, SearchFrom;
    AtHole(Flat(s), |Flat(s)|, c);
    AtOfLeaf(s, hi, x, p, c);
    AtHole(s[p].b.recs, |s[p].b.recs|, c);
  }

  lemma EmptyCoversNone(l: seq<Rec>, c: int)
    ensures HasEmpty(l) ==> !Covers(l[0], c)
    ensures forall j :: 0 <= j < |l| && Covers(l[j], c) ==> EmptyIn(l) <= j
    ensures forall j :: EmptyIn(l) <= j < |l| ==> Solid(l)[j - EmptyIn(l)] == l[j]
    ensures |Solid(l)| == |l| - EmptyIn(l)
  {
  }

  lemma SubtractSolid(l: seq<Rec>, idx: nat, a: Rec)
    requires EmptyIn(l) <= idx < |l| && a.clusters > 0
    ensures Solid(l[idx := a]) == Solid(l)[idx - EmptyIn(l) := a]
  {
  }

  lemma SubtractLeaves(r: Rec, piece: Rec, split: Split)
    requires Splits(r, piece, split)
    ensures Subtract(r, piece, split).clusters > 0 && Covers(r, piece.cpos)
  {
  }

  /** A split of a record in the leaf that has room. */
  lemma SplitInside(s: seq<Slot>, hi: int, x: bool, cap: nat, p: nat, k: nat, piece: Rec, split: Split)
    requires Rotating(s, hi, x, cap, split, piece.cpos, p) && s[p].lo <= piece.cpos
    requires k < |Flat(s)| && Splits(Flat(s)[k], piece, split)
    ensures var idx := Search(s[p].b.recs, piece.cpos);
      && 0 <= idx < |s[p].b.recs|
      && var t := RotateLeaf(s[p].b.recs[idx := Subtract(s[p].b.recs[idx], piece, split)], piece);
         var u := PutOne(s, p, t);
         Tidy(u, hi, x, cap) && SameBlocks(s, u) && Flat(u) == SplitAt(Flat(s), k, piece, split)
  {
    hide Good, Filled, FlatUpTo, Solid, Within, SplitAt, Splits, InsertSorted, SolidBut, Subtract, HasRoom, EmptyIn,
      IsMapped;
    var l := s[p].b.recs;
    SubtractLeaves(Flat(s)[k], piece, split);
    SplitFound(s, hi, x, p, piece.cpos, k);
    var idx := Search(l, piece.cpos);
    var i := idx - EmptyIn(l);
    SubtractSolid(l, idx, Subtract(l[idx], piece, split));
    LeafRange(s, hi, x, p);
    WithinSorted(Solid(l), s[p].lo, RangeEnd(s, p, hi));
    SplitInList(Solid(l), i, piece, split);
    SplitWithin(Solid(l), s[p].lo, RangeEnd(s, p, hi), i, piece, split);
    var t := SplitAt(Solid(l), i, piece, split);
    OneGood(s, hi, x, p, t);
    RoomSize(s, cap, p);
    PutOneFilled(s, cap, p, t, p);
    SplitFlat(s, p, i, piece, split, t);
  }

  lemma WithinSorted(t: seq<Rec>, lo: int, hi: int)
    requires Within(t, lo, hi)
    ensures Sorted(t)
  {
  }

  lemma RoomSize(s: seq<Slot>, cap: nat, p: nat)
    requires Filled(s, cap) && p < |s| && HasRoom(s[p].b.recs, cap)
    ensures var n := |Solid(s[p].b.recs)| + 1; n <= cap && (p + 1 < |s| ==> n == cap)
  {
  }

  /** A split of a record that the rotation has moved to the front of the next leaf: the part
      that comes first goes back to the empty slot on the left. */
  lemma SplitAcross(s: seq<Slot>, hi: int, x: bool, cap: nat, p: nat, k: nat, piece: Rec, split: Split)
    requires Good(s, hi, x) && Filled(s, cap) && 0 < p < |s| && SolidBut(s, p - 1) && cap >= 3
    requires HasEmpty(s[p - 1].b.recs) && s[p].b.recs != [] && Covers(s[p].b.recs[0], piece.cpos)
    requires k < |Flat(s)| && Splits(Flat(s)[k], piece, split)
    ensures s[p].b.recs[0] == Flat(s)[k] && !HasEmpty(s[p].b.recs)
    ensures var l, r := s[p - 1].b.recs, s[p].b.recs;
      var m := SplitRec(r[0], piece, split);
      var u := PutPair(s, p, Solid(l) + [m[0]], [m[1]] + r[1..], m[1].cpos);
      && Tidy(u, hi, x, cap) && SameBlocks(s, u) && Flat(u) == SplitAt(Flat(s), k, piece, split)
      && RotateLeaf(l, m[0]) == Solid(l) + [m[0]] && RotateLeaf(l, r[0]) == Solid(l) + [r[0]]
      && s[p - 1].lo <= m[1].cpos <= RangeEnd(s, p, hi) && |Solid(l) + [m[0]]| == cap
      && m[1].clusters > 0 && RotateLeaf(r[0 := NOREC], m[1]) == [m[1]] + r[1..]
  {
    hide Good, Filled, FlatUpTo, FlatFrom, Solid, Within, Splits, InsertSorted, Subtract, HasEmpty, SplitAt, SplitRec;
    var l, r := s[p - 1].b.recs, s[p].b.recs;
    SubtractLeaves(Flat(s)[k], piece, split);
    SolidSize(l);
    LeftFull(s, cap, p);
    FrontRecord(s, hi, x, p, piece.cpos, k);
    LeafRange(s, hi, x, p);
    LeafRange(s, hi, x, p - 1);
    SplitParts(l, r, s[p - 1].lo, s[p].lo, RangeEnd(s, p, hi), piece, split);
    var m := SplitRec(r[0], piece, split);
    var l', r' := Solid(l) + [m[0]], [m[1]] + r[1..];
    PairGood(s, hi, x, p, l', r', m[1].cpos);
    FlatPair(s, p, l', r', m[1].cpos);
    AcrossFlat(s, p, k, piece, split);
    AcrossFilled(s, cap, p, l', r', m[1].cpos);
  }

  lemma LeftFull(s: seq<Slot>, cap: nat, p: nat)
    requires 0 < p < |s| && Filled(s, cap)
    ensures |s[p - 1].b.recs| == cap
  {
  }

  lemma FrontRecord(s: seq<Slot>, hi: int, x: bool, p: nat, c: int, k: nat)
    requires Good(s, hi, x) && 0 < p < |s| && s[p].b.recs != [] && Covers(s[p].b.recs[0], c)
    requires k < |Flat(s)| && Covers(Flat(s)[k], c)
    ensures Solid(s[p].b.recs) == s[p].b.recs && s[p].b.recs[0] == Flat(s)[k] && k == |FlatUpTo(s, p)|
    ensures !HasEmpty(s[p].b.recs)
  {
    hide Good, FlatUpTo, FlatFrom;
    FlatWithin(s, hi, x);
    FlatAround(s, p);
    assert Flat(s)[|FlatUpTo(s, p)|] == s[p].b.recs[0];
    CoversOnce(Flat(s), k, |FlatUpTo(s, p)|, c);
  }

  lemma SplitParts(l: seq<Rec>, r: seq<Rec>, lo: int, mid: int, hi: int, piece: Rec, split: Split)
    requires LeafOk(l, lo, mid) && LeafOk(r, mid, hi) && lo <= mid && HasEmpty(l) && r != [] && Solid(r) == r
    requires Splits(r[0], piece, split)
    ensures var m := SplitRec(r[0], piece, split);
      var l', r' := Solid(l) + [m[0]], [m[1]] + r[1..];
      && LeafOk(l', lo, m[1].cpos) && LeafOk(r', m[1].cpos, hi) && lo <= m[1].cpos <= hi
      && Solid(l') == l' && Solid(r') == r' && !HasEmpty(l') && !HasEmpty(r') && m[1].clusters > 0
      && (Solid(l) != [] ==> l'[0] == Solid(l)[0])
      && RotateLeaf(l, m[0]) == l' && RotateLeaf(l, r[0]) == Solid(l) + [r[0]]
      && RotateLeaf(r[0 := NOREC], m[1]) == r'
  {
    hide SplitRec;
    var m := SplitRec(r[0], piece, split);
    var x := Solid(l);
    SplitRecUpdates(r[0], piece, split);
    assert Within([m[0]], mid, m[1].cpos);
    WithinJoin(x, [m[0]], lo, mid, m[1].cpos);
    WithinCut(r, mid, hi, 0);
    assert Within([m[1]], m[1].cpos, End(r[0]));
    WithinJoin([m[1]], r[1..], m[1].cpos, End(r[0]), hi);
    InsertLast(x, m[0]);
    InsertLast(x, r[0]);
    assert Solid(r[0 := NOREC]) == r[1..];
    InsertFirst(r[1..], m[1]);
  }

  lemma InsertFirst(t: seq<Rec>, r: Rec)
    requires t != [] ==> r.cpos < t[0].cpos
    ensures InsertSorted(t, r) == [r] + t
  {
    var k := InsertIndex(t, r.cpos);
  }

  lemma AcrossFlat(s: seq<Slot>, p: nat, k: nat, piece: Rec, split: Split)
    requires 0 < p < |s| && s[p].b.recs != [] && Solid(s[p].b.recs) == s[p].b.recs && k == |FlatUpTo(s, p)| < |Flat(s)|
    ensures var l, r := s[p - 1].b.recs, s[p].b.recs;
      var m := SplitRec(r[0], piece, split);
      FlatUpTo(s, p - 1) + (Solid(l) + [m[0]]) + ([m[1]] + r[1..]) + FlatFrom(s, p + 1)
      == SplitAt(Flat(s), k, piece, split)
  {
    hide Solid, FlatUpTo, FlatFrom;
    var l, r := s[p - 1].b.recs, s[p].b.recs;
    var m := SplitRec(r[0], piece, split);
    FlatAround(s, p);
    FlatUpToNext(s, p);
    SpliceSplit(FlatUpTo(s, p), r, FlatFrom(s, p + 1), 0, piece, split);
    assert SplitAt(r, 0, piece, split) == [m[0]] + ([m[1]] + r[1..]);
    assert FlatUpTo(s, p) == FlatUpTo(s, p - 1) + Solid(l);
  }

  lemma AcrossFilled(s: seq<Slot>, cap: nat, p: nat, l: seq<Rec>, r: seq<Rec>, c: int)
    requires 0 < p < |s| && Filled(s, cap) && SolidBut(s, p - 1)
    requires |l| == |s[p - 1].b.recs| && |r| == |s[p].b.recs| && l != [] && r != [] && !HasEmpty(l) && !HasEmpty(r)
    ensures var u := PutPair(s, p, l, r, c); Filled(u, cap) && SolidBut(u, -1) && SameBlocks(s, u)
  {
  }

  lemma InlineSplit(l: seq<Rec>, k: nat, piece: Rec, split: Split)
    requires Sorted(l) && k < |l| && Splits(l[k], piece, split)
    ensures var i := Search(l, piece.cpos);
      && i == k
      && RotateLeaf(l[i := Subtract(l[i], piece, split)], piece) == SplitAt(l, k, piece, split)
      && Sorted(SplitAt(l, k, piece, split)) && |SplitAt(l, k, piece, split)| == |l| + 1
  {
    SubtractLeaves(l[k], piece, split);
    var i := Search(l, piece.cpos);
    CoversOnce(l, k, i, piece.cpos);
    SplitInList(l, k, piece, split);
    SplitAtUpdates(l, k, piece, split);
    var u := l[k := Subtract(l[k], piece, split)];
    assert Solid(u) == u;
  }

  lemma SplitStarts(s: seq<Slot>, hi: int, x: bool, cap: nat, k: nat, piece: Rec, split: Split)
    requires Good(s, hi, x) && Filled(s, cap) && |s| > 0 && SolidBut(s, |s| - 1) && HasRoom(s[|s| - 1].b.recs, cap)
    requires k < |Flat(s)| && Splits(Flat(s)[k], piece, split)
    ensures Rotating(s, hi, x, cap, split, piece.cpos, |s| - 1) && piece.cpos >= 0 && split != SplitNone
  {
    hide Good, FlatUpTo;
    FlatWithin(s, hi, x);
    SubtractLeaves(Flat(s)[k], piece, split);
  }

  /** The steps of ocfs2_split_record() for a record at the front of the leaf on the right. */
  lemma AcrossSteps(s: seq<Slot>, hi: int, x: bool, p: nat, piece: Rec, split: Split)
    requires Good(s, hi, x) && 0 < p < |s| && HasEmpty(s[p - 1].b.recs) && s[p].b.recs != []
    requires !HasEmpty(s[p].b.recs) && Splits(s[p].b.recs[0], piece, split)
    ensures var l, r := s[p - 1].b.recs, s[p].b.recs;
      var m := SplitRec(r[0], piece, split);
      && (split == SplitLeft ==>
            && RotateLeaf(l, piece) == Solid(l) + [m[0]]
            && r[0 := Subtract(r[0], piece, split)] == [m[1]] + r[1..])
      && (split == SplitRight ==>
            var moved := RotateLeaf(l, r[0]);
            var i := Search(moved, piece.cpos);
            && 0 <= i < |moved| && moved[i := Subtract(moved[i], piece, split)] == Solid(l) + [m[0]]
            && RotateLeaf(r[0 := NOREC], piece) == [m[1]] + r[1..])
      && FirstCpos(Leaf(s[p].b.(recs := [m[1]] + r[1..]))) == m[1].cpos
  {
    hide Good, FlatUpTo, InsertSorted, SearchFrom, Within;
    var l, r := s[p - 1].b.recs, s[p].b.recs;
    LeafRange(s, hi, x, p);
    LeafRange(s, hi, x, p - 1);
    SplitParts(l, r, s[p - 1].lo, s[p].lo, RangeEnd(s, p, hi), piece, split);
    if split == SplitRight {
      MovedFound(Solid(l), r, s[p - 1].lo, s[p].lo, RangeEnd(s, p, hi), piece, split);
    }
  }

  lemma MovedFound(t: seq<Rec>, r: seq<Rec>, lo: int, mid: int, hi: int, piece: Rec, split: Split)
    requires Within(t, lo, mid) && Within(r, mid, hi) && r != [] && Splits(r[0], piece, split)
    ensures Search(t + [r[0]], piece.cpos) == |t|
    ensures (t + [r[0]])[|t| := Subtract(r[0], piece, split)] == t + [Subtract(r[0], piece, split)]
  {
    SubtractLeaves(r[0], piece, split);
    var u := t + [r[0]];
    assert u[|t|] == r[0];
  }

  // ----- Merging records -----

  /** A stretch of a list replaced by records in the same range. */
  lemma Replaced(s: seq<Rec>, lo: int, hi: int, i: nat, j: nat, t: seq<Rec>)
    requires Within(s, lo, hi) && 0 <= lo && i < j <= |s| && Within(t, s[i].cpos, End(s[j - 1]))
    ensures Within(s[..i] + t + s[j..], lo, hi)
  {
    hide Within;
    WithinCut(s, lo, hi, i);
    WithinCut(s, lo, hi, j - 1);
    InOrder(s, lo, hi, i, j - 1);
    assert s[j - 1 + 1..] == s[j..];
    WithinJoin(s[..i], t, lo, s[i].cpos, End(s[j - 1]));
    WithinJoin(s[..i] + t, s[j..], lo, End(s[j - 1]), hi);
  }

  lemma InOrder(s: seq<Rec>, lo: int, hi: int, i: nat, j: nat)
    requires Within(s, lo, hi) && i <= j < |s|
    ensures lo <= s[i].cpos <= End(s[j]) <= hi
  {
  }

  function MergedNext(l: seq<Rec>, index: nat, n: int): seq<Rec>
    requires index + 1 < |l|
  {
    CleanupMerge(l[index := l[index].(clusters := l[index].clusters - n)][index + 1 := GrowFront(l[index + 1], n)],
                 index)
  }

  function MergedPrev(l: seq<Rec>, index: nat, n: int): seq<Rec>
    requires 0 < index < |l|
  {
    var b := l[index];
    CleanupMerge(l[index - 1 := GrowBack(l[index - 1], n)]
                  [index := Rec(b.cpos + n, b.clusters - n, b.phys + n, b.flags)], index)
  }

  lemma NextWithin(a: Rec, b: Rec, r: Rec)
    requires JoinsNext(a, b, r) && a.cpos >= 0
    ensures var t := KeepLeft(a, r.clusters) + [GrowFront(b, r.clusters)];
      Within(t, a.cpos, End(b)) && t[0].cpos == a.cpos && End(t[|t| - 1]) == End(b)
    ensures var g := GrowFront(b, r.clusters);
      && Within(KeepLeft(a, r.clusters), a.cpos, g.cpos) && a.cpos <= g.cpos <= End(a) && g.clusters > 0
      && Within([g], g.cpos, End(b))
  {
  }

  lemma WithinSolid(t: seq<Rec>, lo: int, hi: int)
    requires Within(t, lo, hi)
    ensures Solid(t) == t && !HasEmpty(t) && (t != [] ==> lo <= t[0].cpos)
  {
  }

  lemma PrevWithin(a: Rec, b: Rec, r: Rec)
    requires JoinsPrev(a, b, r) && a.cpos >= 0
    ensures var t := [GrowBack(a, r.clusters)] + KeepRight(b, r.clusters);
      Within(t, a.cpos, End(b)) && t[0].cpos == a.cpos && End(t[|t| - 1]) == End(b)
    ensures var g := GrowBack(a, r.clusters);
      && Within([g], a.cpos, End(g)) && b.cpos <= End(g) <= End(b) && g.clusters > 0
      && Within(KeepRight(b, r.clusters), End(g), End(b))
      && (KeepRight(b, r.clusters) != [] ==> KeepRight(b, r.clusters)[0].cpos == End(g))
  {
  }

  /** What a leaf is after a merge inside it. */
  predicate MergedLeaf(l: seq<Rec>, t: seq<Rec>, lo: int, hi: int, m: seq<Rec>, used: bool) {
    && Solid(t) == m && |t| == |l| && t != [] && (HasEmpty(t) <==> used)
    && Within(m, lo, hi) && m != [] && m[0].cpos == l[0].cpos && LastEnd(m) == LastEnd(l)
  }

  lemma MergeNextLeaf(l: seq<Rec>, lo: int, hi: int, index: nat, r: Rec)
    requires Within(l, lo, hi) && 0 <= lo && index + 1 < |l| && JoinsNext(l[index], l[index + 1], r)
    ensures MergedLeaf(l, MergedNext(l, index, r.clusters), lo, hi, MergedRight(l, index, r.clusters),
                       r.clusters == l[index].clusters)
  {
    hide Within, RecContig, Sorted;
    var n := r.clusters;
    var m := KeepLeft(l[index], n) + [GrowFront(l[index + 1], n)];
    InOrder(l, lo, hi, index, index);
    NextWithin(l[index], l[index + 1], r);
    Replaced(l, lo, hi, index, index + 2, m);
    var u := l[index := l[index].(clusters := l[index].clusters - n)][index + 1 := GrowFront(l[index + 1], n)];
    WithinSolid(MergedRight(l, index, n), lo, hi);
    MergeEnds(l, index, index + 2, m);
    if n == l[index].clusters {
      assert u[..index] == l[..index] && u[index + 1..] == [u[index + 1]] + l[index + 2..];
      SolidEmpty(u[..index] + u[index + 1..]);
      assert MergedNext(l, index, n) == [NOREC] + (u[..index] + u[index + 1..]);
      assert u[..index] + u[index + 1..] == MergedRight(l, index, n);
    } else {
      assert u == MergedRight(l, index, n);
    }
  }

  lemma MergePrevLeaf(l: seq<Rec>, lo: int, hi: int, index: nat, r: Rec)
    requires Within(l, lo, hi) && 0 <= lo && 0 < index < |l| && JoinsPrev(l[index - 1], l[index], r)
    ensures MergedLeaf(l, MergedPrev(l, index, r.clusters), lo, hi, MergedLeft(l, index, r.clusters),
                       r.clusters == l[index].clusters)
  {
    hide Within, RecContig, Sorted;
    var n := r.clusters;
    var b := l[index];
    var m := [GrowBack(l[index - 1], n)] + KeepRight(b, n);
    InOrder(l, lo, hi, index - 1, index - 1);
    PrevWithin(l[index - 1], b, r);
    Replaced(l, lo, hi, index - 1, index + 1, m);
    var u := l[index - 1 := GrowBack(l[index - 1], n)][index := Rec(b.cpos + n, b.clusters - n, b.phys + n, b.flags)];
    WithinSolid(MergedLeft(l, index, n), lo, hi);
    MergeEnds(l, index - 1, index + 1, m);
    if n == b.clusters {
      assert u[..index] == l[..index - 1] + [u[index - 1]] && u[index + 1..] == l[index + 1..];
      SolidEmpty(u[..index] + u[index + 1..]);
      assert MergedPrev(l, index, n) == [NOREC] + (u[..index] + u[index + 1..]);
      assert u[..index] + u[index + 1..] == MergedLeft(l, index, n);
    } else {
      assert u == MergedLeft(l, index, n);
    }
  }

  /** The ends of a list with a stretch replaced. */
  lemma MergeEnds(l: seq<Rec>, i: nat, j: nat, m: seq<Rec>)
    requires i < j <= |l| && m != [] && m[0].cpos == l[i].cpos && End(m[|m| - 1]) == End(l[j - 1])
    ensures var t := l[..i] + m + l[j..];
      t != [] && t[0].cpos == l[0].cpos && LastEnd(t) == LastEnd(l)
  {
    var t := l[..i] + m + l[j..];
    if i > 0 {
      assert t[0] == l[0];
    }
    if j < |l| {
      assert t[|t| - 1] == l[|l| - 1];
    } else {
      assert t[|t| - 1] == m[|m| - 1];
    }
  }

  lemma SpliceNext(x: seq<Rec>, t: seq<Rec>, z: seq<Rec>, i: nat, n: int)
    requires i + 1 < |t|
    ensures x + MergedRight(t, i, n) + z == MergedRight(x + t + z, |x| + i, n)
  {
    hide KeepLeft, GrowFront;
    var a, k := x + t + z, |x| + i;
    assert a[k] == t[i] && a[k + 1] == t[i + 1];
    assert a[..k] == x + t[..i] && a[k + 2..] == t[i + 2..] + z;
  }

  lemma SplicePrev(x: seq<Rec>, t: seq<Rec>, z: seq<Rec>, i: nat, n: int)
    requires 0 < i < |t|
    ensures x + MergedLeft(t, i, n) + z == MergedLeft(x + t + z, |x| + i, n)
  {
    hide KeepRight, GrowBack;
    var a, k := x + t + z, |x| + i;
    assert a[k] == t[i] && a[k - 1] == t[i - 1];
    assert a[..k - 1] == x + t[..i - 1] && a[k + 1..] == t[i + 1..] + z;
  }

  /** A merge inside one leaf. */
  lemma MergeInside(s: seq<Slot>, hi: int, x: bool, cap: nat, p: nat, t: seq<Rec>, m: seq<Rec>, used: bool)
    requires Tidy(s, hi, x, cap) && p < |s| && MergedLeaf(s[p].b.recs, t, s[p].lo, RangeEnd(s, p, hi), m, used)
    ensures var u := PutOne(s, p, t);
      Loose(u, hi, x, cap) && SolidBut(u, p) && SameBlocks(s, u) && Flat(u) == FlatUpTo(s, p) + m + FlatFrom(s, p + 1)
  {
    hide Good, Filled, FlatUpTo, FlatFrom, Solid, Within, SolidBut, LastEnd;
    LeafHasRecords(s, hi, x, cap, p);
    TidyLeaf(s, hi, x, cap, p);
    OneGood(s, hi, x, p, t);
    PutOneLoose(s, cap, p, t);
    FlatOne(s, p, t);
  }

  /** The leaf on the left after its last record gave n clusters to the leaf on the right. */
  function GaveLast(l: seq<Rec>, n: int): (t: seq<Rec>)
    requires l != []
    ensures |t| == |l|
  {
    var a := l[|l| - 1];
    CleanupMerge(l[|l| - 1 := a.(clusters := a.clusters - n)], |l| - 1)
  }

  /** A merge of the last record of a leaf with the first of the next. */
  lemma MergeAcrossNext(s: seq<Slot>, hi: int, x: bool, cap: nat, p: nat, r: Rec)
    requires Tidy(s, hi, x, cap) && p + 1 < |s| && |s[p].b.recs| > 1 && s[p + 1].b.recs != []
    requires JoinsNext(s[p].b.recs[|s[p].b.recs| - 1], s[p + 1].b.recs[0], r)
    ensures var l, q := s[p].b.recs, s[p + 1].b.recs;
      var a, n := l[|l| - 1], r.clusters;
      var l' := GaveLast(l, n);
      var g := GrowFront(q[0], n);
      var u := PutPair(s, p + 1, l', q[0 := g], g.cpos);
      && Loose(u, hi, x, cap) && SolidBut(u, p) && SameBlocks(s, u)
      && Flat(u) == FlatUpTo(s, p) + (l[..|l| - 1] + (KeepLeft(a, n) + [g]) + q[1..]) + FlatFrom(s, p + 2)
      && s[p].lo <= g.cpos <= RangeEnd(s, p + 1, hi) && |l'| == cap && g.clusters > 0
      && (HasEmpty(l') <==> n == a.clusters)
  {
    hide Good, Filled, FlatUpTo, FlatFrom, Solid, Within, SolidBut, JoinsNext, GrowFront, KeepLeft, GaveLast, Empty;
    var l, q := s[p].b.recs, s[p + 1].b.recs;
    LeafHasRecords(s, hi, x, cap, p);
    LeafHasRecords(s, hi, x, cap, p + 1);
    TidyLeaf(s, hi, x, cap, p);
    TidyLeaf(s, hi, x, cap, p + 1);
    var a, n := l[|l| - 1], r.clusters;
    var l' := GaveLast(l, n);
    var g := GrowFront(q[0], n);
    AcrossNextRecs(l, q, s[p].lo, s[p + 1].lo, RangeEnd(s, p + 1, hi), r);
    PairGood(s, hi, x, p + 1, l', q[0 := g], g.cpos);
    PutPairTidy(s, cap, p + 1, l', q[0 := g], g.cpos);
    FlatPair(s, p + 1, l', q[0 := g], g.cpos);
    AcrossNextFlat(FlatUpTo(s, p), l[..|l| - 1], KeepLeft(a, n), g, q[1..], FlatFrom(s, p + 2));
  }

  lemma AcrossNextFlat(x: seq<Rec>, y: seq<Rec>, k: seq<Rec>, g: Rec, q: seq<Rec>, z: seq<Rec>)
    ensures x + (y + k) + ([g] + q) + z == x + (y + (k + [g]) + q) + z
  {
  }

  lemma PutPairTidy(s: seq<Slot>, cap: nat, p: nat, l: seq<Rec>, r: seq<Rec>, c: int)
    requires 0 < p < |s| && Filled(s, cap) && SolidBut(s, -1)
    requires l != [] && r != [] && |l| == |s[p - 1].b.recs| && |r| == |s[p].b.recs|
    requires !HasEmpty(l) || !HasEmpty(r)
    ensures var u := PutPair(s, p, l, r, c);
      Filled(u, cap) && SolidBut(u, if HasEmpty(l) then p - 1 else p) && (!HasEmpty(r) ==> SolidBut(u, p - 1))
      && SameBlocks(s, u) && forall j :: 0 <= j < |u| ==> u[j].b.recs != []
  {
  }

  lemma AcrossNextRecs(l: seq<Rec>, q: seq<Rec>, lo: int, mid: int, hi: int, r: Rec)
    requires Within(l, lo, mid) && Within(q, mid, hi) && 0 <= lo <= mid && |l| > 1 && q != [] && !HasEmpty(l)
    requires JoinsNext(l[|l| - 1], q[0], r)
    ensures var a, n := l[|l| - 1], r.clusters;
      var l' := GaveLast(l, n);
      var g := GrowFront(q[0], n);
      && Solid(l') == l[..|l| - 1] + KeepLeft(a, n) && |l'| == |l| && l' != [] && Solid(l') != []
      && (HasEmpty(l') <==> n == a.clusters)
      && Solid(l')[0].cpos == l[0].cpos && LeafOk(l', lo, g.cpos)
      && Solid(q[0 := g]) == [g] + q[1..] && !HasEmpty(q[0 := g]) && LeafOk(q[0 := g], g.cpos, hi)
      && q[0 := g] == [g] + q[1..] && lo <= g.cpos <= hi && g.clusters > 0
  {
    hide Within, RecContig;
    var a, n := l[|l| - 1], r.clusters;
    var u := l[|l| - 1 := a.(clusters := a.clusters - n)];
    var init := l[..|l| - 1];
    WithinCut(l, lo, mid, |l| - 1);
    WithinCut(q, mid, hi, 0);
    var g := GrowFront(q[0], n);
    NextWithin(a, q[0], r);
    WithinJoin(init, KeepLeft(a, n), lo, a.cpos, g.cpos);
    WithinJoin([g], q[1..], g.cpos, End(q[0]), hi);
    WithinSolid(init + KeepLeft(a, n), lo, g.cpos);
    WithinSolid([g] + q[1..], g.cpos, hi);
    assert q[0 := g] == [g] + q[1..];
    if a.clusters == n {
      SolidEmpty(init);
      assert CleanupMerge(u, |l| - 1) == [NOREC] + init + u[|l|..];
      assert [NOREC] + init + u[|l|..] == [NOREC] + init;
      assert init + [] == init;
    } else {
      assert u == init + KeepLeft(a, n);
    }
  }

  function ShrunkFront(b: Rec, n: int): Rec {
    Rec(b.cpos + n, b.clusters - n, b.phys + n, b.flags)
  }

  /** The leaf on the right after its first record gave n clusters to the leaf on the left. */
  function GaveFirst(q: seq<Rec>, n: int): seq<Rec>
    requires q != []
  {
    CleanupMerge(q[0 := ShrunkFront(q[0], n)], 0)
  }

  lemma AcrossPrevRecs(l: seq<Rec>, q: seq<Rec>, lo: int, mid: int, hi: int, r: Rec)
    requires Within(l, lo, mid) && Within(q, mid, hi) && 0 <= lo <= mid && l != [] && q != []
    requires JoinsPrev(l[|l| - 1], q[0], r)
    ensures var n := r.clusters;
      var g := GrowBack(l[|l| - 1], n);
      var l', t := l[|l| - 1 := g], GaveFirst(q, n);
      && Solid(t) == KeepRight(q[0], n) + q[1..] && |t| == |q| && t != []
      && (HasEmpty(t) <==> n == q[0].clusters) && (Solid(t) == [] ==> |q| == 1)
      && l' == l[..|l| - 1] + [g] && Solid(l') == l' && !HasEmpty(l') && l'[0].cpos == l[0].cpos
      && Within(l', lo, End(g)) && lo <= End(g) <= hi && LastEnd(l') == End(g)
      && (Solid(t) != [] ==> var c := Solid(t)[0].cpos;
            Within(Solid(t), c, hi) && Within(l', lo, c) && lo <= c <= hi)
  {
    hide Within, RecContig;
    var n := r.clusters;
    var a := l[|l| - 1];
    var g := GrowBack(a, n);
    WithinCut(l, lo, mid, |l| - 1);
    WithinCut(q, mid, hi, 0);
    PrevWithin(a, q[0], r);
    var k, rest := KeepRight(q[0], n), q[1..];
    WithinJoin(l[..|l| - 1], [g], lo, a.cpos, End(g));
    WithinSolid(l[..|l| - 1] + [g], lo, End(g));
    WithinJoin(k, rest, End(g), End(q[0]), hi);
    WithinSolid(k + rest, End(g), hi);
    assert l[|l| - 1 := g] == l[..|l| - 1] + [g];
    GaveSolid(q, n);
    if k + rest != [] {
      FromFirst(k + rest, End(g), hi);
      WithinWider(l[..|l| - 1] + [g], lo, lo, End(g), (k + rest)[0].cpos);
    }
  }

  lemma FromFirst(t: seq<Rec>, lo: int, hi: int)
    requires Within(t, lo, hi) && t != []
    ensures Within(t, t[0].cpos, hi) && lo <= t[0].cpos <= hi
  {
  }

  lemma GaveSolid(q: seq<Rec>, n: int)
    requires q != [] && 0 < n <= q[0].clusters && Solid(KeepRight(q[0], n) + q[1..]) == KeepRight(q[0], n) + q[1..]
    ensures Solid(GaveFirst(q, n)) == KeepRight(q[0], n) + q[1..] && |GaveFirst(q, n)| == |q|
    ensures HasEmpty(GaveFirst(q, n)) <==> n == q[0].clusters
  {
    var u := q[0 := ShrunkFront(q[0], n)];
    if n == q[0].clusters {
      assert CleanupMerge(u, 0) == [NOREC] + q[1..];
      SolidEmpty(q[1..]);
      assert [] + q[1..] == q[1..];
    } else {
      assert u == KeepRight(q[0], n) + q[1..];
    }
  }

  /** A merge of the first record of a leaf with the last of the one before. */
  lemma MergeAcrossPrev(s: seq<Slot>, hi: int, x: bool, cap: nat, p: nat, r: Rec)
    requires Tidy(s, hi, x, cap) && 0 < p < |s| && s[p].b.recs != [] && s[p - 1].b.recs != []
    requires JoinsPrev(s[p - 1].b.recs[|s[p - 1].b.recs| - 1], s[p].b.recs[0], r)
    ensures var l, q, n := s[p - 1].b.recs, s[p].b.recs, r.clusters;
      var g := GrowBack(l[|l| - 1], n);
      var l', t := l[|l| - 1 := g], GaveFirst(q, n);
      && |l'| == cap && t != [] && |t| == |q| && (HasEmpty(t) <==> n == q[0].clusters)
      && Solid(t) == KeepRight(q[0], n) + q[1..] && (Solid(t) == [] ==> |q| == 1)
      && (Solid(t) != [] ==>
            var u := PutPair(s, p, l', t, Solid(t)[0].cpos);
            && Loose(u, hi, x, cap) && SolidBut(u, p) && SameBlocks(s, u)
            && Flat(u) == FlatUpTo(s, p - 1) + (l[..|l| - 1] + ([g] + KeepRight(q[0], n)) + q[1..]) + FlatFrom(s, p + 1)
            && s[p - 1].lo <= Solid(t)[0].cpos <= RangeEnd(s, p, hi))
  {
    hide Good, Filled, FlatUpTo, FlatFrom, Solid, Within, SolidBut, JoinsPrev, GrowBack, KeepRight, GaveFirst;
    var l, q, n := s[p - 1].b.recs, s[p].b.recs, r.clusters;
    LeafHasRecords(s, hi, x, cap, p);
    LeafHasRecords(s, hi, x, cap, p - 1);
    TidyLeaf(s, hi, x, cap, p);
    TidyLeaf(s, hi, x, cap, p - 1);
    AcrossPrevRecs(l, q, s[p - 1].lo, s[p].lo, RangeEnd(s, p, hi), r);
    var g := GrowBack(l[|l| - 1], n);
    var l', t := l[|l| - 1 := g], GaveFirst(q, n);
    if Solid(t) != [] {
      PairGood(s, hi, x, p, l', t, Solid(t)[0].cpos);
      PutPairTidy(s, cap, p, l', t, Solid(t)[0].cpos);
      FlatPair(s, p, l', t, Solid(t)[0].cpos);
      AcrossPrevFlat(FlatUpTo(s, p - 1), l[..|l| - 1], g, KeepRight(q[0], n), q[1..], FlatFrom(s, p + 1));
    }
  }

  lemma AcrossPrevFlat(x: seq<Rec>, y: seq<Rec>, g: Rec, k: seq<Rec>, q: seq<Rec>, z: seq<Rec>)
    ensures x + (y + [g]) + (k + q) + z == x + (y + ([g] + k) + q) + z
  {
  }

  /** The merge takes the only record of the rightmost leaf. */
  lemma MergeDropsLast(s: seq<Slot>, hi: int, x: bool, cap: nat, r: Rec, last: nat, limit: nat)
    requires Tidy(s, hi, x, cap) && |s| > 1 && |s[|s| - 1].b.recs| == 1 && s[|s| - 2].b.recs != []
    requires JoinsPrev(s[|s| - 2].b.recs[|s[|s| - 2].b.recs| - 1], s[|s| - 1].b.recs[0], r)
    requires r.clusters == s[|s| - 1].b.recs[0].clusters && Chained(s, last, limit)
    ensures var n := |s| - 2;
      var l := s[n].b.recs;
      var l' := l[|l| - 1 := GrowBack(l[|l| - 1], r.clusters)];
      var u := WithoutLast(PutOne(s, n, l'));
      && Tidy(u, LastEnd(l'), x, cap) && Chained(u, s[n].b.blk, limit) && s[n].lo <= LastEnd(l')
      && Flat(u) == FlatUpTo(s, n) + (l[..|l| - 1] + ([GrowBack(l[|l| - 1], r.clusters)] + [])) + FlatFrom(s, n + 2)
  {
    hide Good, Filled, FlatUpTo, FlatFrom, Solid, SolidBut, JoinsPrev, GrowBack, KeepRight, GaveFirst, Chained, LastEnd,
      EmptiesUpTo, Within;
    var n := |s| - 2;
    var l, q := s[n].b.recs, s[n + 1].b.recs;
    LeafHasRecords(s, hi, x, cap, n);
    LeafHasRecords(s, hi, x, cap, n + 1);
    TidyLeaf(s, hi, x, cap, n);
    TidyLeaf(s, hi, x, cap, n + 1);
    AcrossPrevRecs(l, q, s[n].lo, s[n + 1].lo, hi, r);
    var l' := l[|l| - 1 := GrowBack(l[|l| - 1], r.clusters)];
    var e := LastEnd(l');
    NoneLeft(e, hi);
    var s1 := PutPair(s, n + 1, l', [NOREC], e);
    PairGood(s, hi, x, n + 1, l', [NOREC], e);
    PutPairTidy(s, cap, n + 1, l', [NOREC], e);
    FlatPair(s, n + 1, l', [NOREC], e);
    ChainKept(s, s1, last, limit);
    LooseAlso(s1, hi, x, cap);
    DropLastGood(s1, hi, x, cap, last, limit);
    EmptiesOne(s1, n + 1);
    LooseTidy(WithoutLast(s1), e, x, cap);
    assert WithoutLast(s1) == WithoutLast(PutOne(s, n, l'));
    assert l[..|l| - 1] + ([GrowBack(l[|l| - 1], r.clusters)] + []) == l';
    assert FlatUpTo(s, n) + l' + [] == FlatUpTo(s, n) + l';
  }

  lemma NoneLeft(e: int, hi: int)
    ensures LeafOk([NOREC], e, hi) && Solid([NOREC]) == [] && HasEmpty([NOREC])
  {
  }

  // ----- The neighbours of a record -----

  /** Record `index` of leaf p is number k of all. */
  ghost predicate IsAt(s: seq<Slot>, p: nat, index: nat, k: nat) {
    p < |s| && index < |s[p].b.recs| && k == |FlatUpTo(s, p)| + index
  }

  lemma NextWhere(s: seq<Slot>, hi: int, x: bool, cap: nat, p: nat, index: nat, k: nat)
    requires Tidy(s, hi, x, cap) && IsAt(s, p, index, k)
    ensures k < |Flat(s)| && Flat(s)[k] == s[p].b.recs[index]
    ensures k + 1 < |Flat(s)| ==>
              var l := s[p].b.recs;
              if index + 1 < |l| then Flat(s)[k + 1] == l[index + 1]
              else p + 1 < |s| && |l| == cap && s[p + 1].b.recs != [] && Flat(s)[k + 1] == s[p + 1].b.recs[0]
    ensures k + 1 == |Flat(s)| <==> index + 1 == |s[p].b.recs| && p + 1 == |s|
  {
    hide Good, Filled, Solid, SolidBut;
    var l := s[p].b.recs;
    LeafHasRecords(s, hi, x, cap, p);
    TidyLeaf(s, hi, x, cap, p);
    FlatAround(s, p);
    if p + 1 < |s| {
      LeafHasRecords(s, hi, x, cap, p + 1);
      TidyLeaf(s, hi, x, cap, p + 1);
      FlatAround(s, p + 1);
    }
  }

  lemma PrevWhere(s: seq<Slot>, hi: int, x: bool, cap: nat, p: nat, index: nat, k: nat)
    requires Tidy(s, hi, x, cap) && IsAt(s, p, index, k)
    ensures k < |Flat(s)| && Flat(s)[k] == s[p].b.recs[index]
    ensures k > 0 ==>
              if index > 0 then Flat(s)[k - 1] == s[p].b.recs[index - 1]
              else p > 0 && s[p - 1].b.recs != [] && Flat(s)[k - 1] == s[p - 1].b.recs[|s[p - 1].b.recs| - 1]
    ensures k == 0 <==> index == 0 && p == 0
  {
    hide Good, Filled, Solid, SolidBut;
    LeafHasRecords(s, hi, x, cap, p);
    TidyLeaf(s, hi, x, cap, p);
    FlatAround(s, p);
    if p > 0 {
      LeafHasRecords(s, hi, x, cap, p - 1);
      TidyLeaf(s, hi, x, cap, p - 1);
      FlatAround(s, p - 1);
    }
  }

  /** The merge across two leaves, among all records. */
  lemma AcrossNextIs(s: seq<Slot>, p: nat, k: nat, n: int)
    requires p + 1 < |s| && s[p].b.recs != [] && s[p + 1].b.recs != []
    requires Solid(s[p].b.recs) == s[p].b.recs && Solid(s[p + 1].b.recs) == s[p + 1].b.recs
    requires k == |FlatUpTo(s, p)| + |s[p].b.recs| - 1
    ensures k + 1 < |Flat(s)|
    ensures var l, q := s[p].b.recs, s[p + 1].b.recs;
      FlatUpTo(s, p) + (l[..|l| - 1] + (KeepLeft(l[|l| - 1], n) + [GrowFront(q[0], n)]) + q[1..]) + FlatFrom(s, p + 2)
      == MergedRight(Flat(s), k, n)
  {
    hide KeepLeft, GrowFront, Solid;
    var l, q := s[p].b.recs, s[p + 1].b.recs;
    FlatPair(s, p + 1, l, q, 0);
    var t := l + q;
    assert t[|l| - 1] == l[|l| - 1] && t[|l|] == q[0];
    assert t[..|l| - 1] == l[..|l| - 1] && t[|l| + 1..] == q[1..];
    assert FlatUpTo(s, p) + l + q == FlatUpTo(s, p) + t;
    SpliceNext(FlatUpTo(s, p), t, FlatFrom(s, p + 2), |l| - 1, n);
  }

  lemma AcrossPrevIs(s: seq<Slot>, p: nat, k: nat, n: int)
    requires 0 < p < |s| && s[p].b.recs != [] && s[p - 1].b.recs != []
    requires Solid(s[p].b.recs) == s[p].b.recs && Solid(s[p - 1].b.recs) == s[p - 1].b.recs
    requires k == |FlatUpTo(s, p)|
    ensures 0 < k < |Flat(s)|
    ensures var l, q := s[p - 1].b.recs, s[p].b.recs;
      FlatUpTo(s, p - 1) + (l[..|l| - 1] + ([GrowBack(l[|l| - 1], n)] + KeepRight(q[0], n)) + q[1..]) +
          FlatFrom(s, p + 1)
      == MergedLeft(Flat(s), k, n)
  {
    hide KeepRight, GrowBack, Solid;
    var l, q := s[p - 1].b.recs, s[p].b.recs;
    FlatPair(s, p, l, q, 0);
    FlatUpToNext(s, p);
    var t := l + q;
    assert t[|l| - 1] == l[|l| - 1] && t[|l|] == q[0];
    assert t[..|l| - 1] == l[..|l| - 1] && t[|l| + 1..] == q[1..];
    assert FlatUpTo(s, p - 1) + l + q == FlatUpTo(s, p - 1) + t;
    SplicePrev(FlatUpTo(s, p - 1), t, FlatFrom(s, p + 1), |l|, n);
  }

  /** The only record of the leaf was used up, so the leaf is the last. */
  lemma UsedUp(s: seq<Slot>, p: nat, t: seq<Rec>, n: int)
    requires p < |s| && t == s[p].b.recs && t != []
    ensures GaveFirst(t, n)[0].clusters == 0 && |GaveFirst(t, n)| == 1 ==> |t| == 1
    ensures |t| == 1 && n == t[0].clusters ==> KeepRight(t[0], n) == [] && t[1..] == []
  {
  }

  lemma StillThere(t: seq<Rec>, n: int)
    requires t != [] && !HasEmpty(t)
    ensures var rest := GaveFirst(t, n);
      (rest[0].clusters == 0 && |rest| == 1) || KeepRight(t[0], n) + t[1..] != []
  {
  }

  lemma TidyMoving(s: seq<Slot>, hi: int, x: bool, cap: nat, q: nat)
    requires Tidy(s, hi, x, cap)
    ensures Loose(s, hi, x, cap) && SolidBut(s, q)
  {
  }

  /** Merges in a tree without blocks. */
  lemma InlineMergeNext(l: seq<Rec>, index: nat, r: Rec)
    requires Sorted(l) && index + 1 < |l| && JoinsNext(l[index], l[index + 1], r)
    ensures var t := Solid(MergedNext(l, index, r.clusters));
      t == MergedRight(l, index, r.clusters) && Sorted(t) && |t| <= |l|
  {
    MergeNextLeaf(l, 0, LastEnd(l), index, r);
    SolidSize(MergedNext(l, index, r.clusters));
  }

  lemma InlineMergePrev(l: seq<Rec>, index: nat, r: Rec)
    requires Sorted(l) && 0 < index < |l| && JoinsPrev(l[index - 1], l[index], r)
    ensures var t := Solid(MergedPrev(l, index, r.clusters));
      t == MergedLeft(l, index, r.clusters) && Sorted(t) && |t| <= |l|
  {
    MergePrevLeaf(l, 0, LastEnd(l), index, r);
    SolidSize(MergedPrev(l, index, r.clusters));
  }

  /** One record replaced in place. */
  lemma ReplaceGood(s: seq<Slot>, hi: int, x: bool, cap: nat, p: nat, index: nat, k: nat, r: Rec)
    requires Tidy(s, hi, x, cap) && IsAt(s, p, index, k)
    requires r.cpos == s[p].b.recs[index].cpos && r.clusters == s[p].b.recs[index].clusters
    ensures k < |Flat(s)|
    ensures var u := PutOne(s, p, s[p].b.recs[index := r]);
      Tidy(u, hi, x, cap) && SameBlocks(s, u) && Flat(u) == Flat(s)[k := r]
  {
    hide Good, Filled, FlatUpTo, FlatFrom, Solid, SolidBut;
    var l := s[p].b.recs;
    var t := l[index := r];
    LeafHasRecords(s, hi, x, cap, p);
    TidyLeaf(s, hi, x, cap, p);
    ReplaceWithin(l, s[p].lo, RangeEnd(s, p, hi), index, r);
    OneGood(s, hi, x, p, t);
    PutOneFilled(s, cap, p, t, -1);
    FlatOne(s, p, t);
    FlatAround(s, p);
    assert Flat(s)[k := r] == FlatUpTo(s, p) + t + FlatFrom(s, p + 1);
  }

  lemma ReplaceWithin(l: seq<Rec>, lo: int, hi: int, index: nat, r: Rec)
    requires Within(l, lo, hi) && index < |l| && r.cpos == l[index].cpos && r.clusters == l[index].clusters
    ensures var t := l[index := r]; Within(t, lo, hi) && Solid(t) == t && !HasEmpty(t) && t[0].cpos == l[0].cpos
  {
  }

  /** A record keeps its number while the leaves before its own stay. */
  lemma StillAt(s: seq<Slot>, hi: int, x: bool, cap: nat, p: nat, index: nat, k: nat)
    requires Tidy(s, hi, x, cap) && p < |s| && index < cap && k == |FlatUpTo(s, p)| + index && k < |Flat(s)|
    ensures IsAt(s, p, index, k) && s[p].b.recs[index] == Flat(s)[k]
  {
    hide Good, Filled, FlatUpTo, Solid, SolidBut;
    LeafHasRecords(s, hi, x, cap, p);
    TidyLeaf(s, hi, x, cap, p);
    FlatAround(s, p);
    if p + 1 == |s| {
      FlatFromEnd(s);
    }
  }
}
