/** The blocks of an extent tree (alloc.c): the leaves, and above them nodes whose records hold the
    range of clusters of each child.  The view of a tree is the sequence of its leaves, each with
    the offset at which the nodes above say its range starts. */
module ExtentBTree {
  import opened ExtentLeaf

  /** A leaf block: its number, the number of the leaf to its right (0: none) and its records. */
  datatype LeafBlk = LeafBlk(blk: nat, next: nat, recs: seq<Rec>)

  datatype Tree = Leaf(b: LeafBlk) | Node(kids: seq<Kid>)

  /** An interior record: the range of a child, and the child. */
  datatype Kid = Kid(cpos: int, clusters: int, sub: Tree)

  datatype Slot = Slot(lo: int, b: LeafBlk)

  function KidEnd(k: Kid): int {
    k.cpos + k.clusters
  }

  function Last(t: Tree): (k: nat)
    requires t.Node? && t.kids != []
    ensures k < |t.kids|
  {
    |t.kids| - 1
  }

  /** The leaves under the first n children, left to right. */
  function SlotsUpTo(t: Tree, n: nat): seq<Slot>
    requires t.Node? && n <= |t.kids|
    decreases t, n
  {
    if n == 0 then [] else SlotsUpTo(t, n - 1) + Slots(t.kids[n - 1].sub, t.kids[n - 1].cpos)
  }

  /** The view of a tree whose range starts at lo. */
  function Slots(t: Tree, lo: int): seq<Slot>
    decreases t, if t.Node? then |t.kids| + 1 else 0
  {
    match t
    case Leaf(b) => [Slot(lo, b)]
    case Node(kids) => SlotsUpTo(t, |kids|)
  }

  function SlotsFrom(t: Tree, n: nat): seq<Slot>
    requires t.Node? && n <= |t.kids|
    decreases |t.kids| - n
  {
    if n == |t.kids| then [] else Slots(t.kids[n].sub, t.kids[n].cpos) + SlotsFrom(t, n + 1)
  }

  /** All leaves are at the same depth. */
  predicate Shaped(t: Tree, d: nat) {
    match t
    case Leaf(_) => d == 0
    case Node(kids) => d > 0 && kids != [] && forall k :: 0 <= k < |kids| ==> Shaped(kids[k].sub, d - 1)
  }

  /** The records of every node tile its range without a hole. */
  predicate Ranged(t: Tree, lo: int, hi: int) {
    match t
    case Leaf(_) => true
    case Node(kids) =>
      && kids != [] && kids[0].cpos == lo && KidEnd(kids[|kids| - 1]) == hi
      && (forall k :: 0 <= k < |kids| - 1 ==> kids[k + 1].cpos == KidEnd(kids[k]))
      && (forall k :: 0 <= k < |kids| ==>
            kids[k].clusters >= 0 && Ranged(kids[k].sub, kids[k].cpos, KidEnd(kids[k])))
  }

  /** Every node is full, as to the left of the rightmost path. */
  predicate Complete(t: Tree, cap: nat) {
    match t
    case Leaf(_) => true
    case Node(kids) => |kids| == cap && forall k :: 0 <= k < |kids| ==> Complete(kids[k].sub, cap)
  }

  /** Everything to the left of the rightmost path is full. */
  predicate Packed(t: Tree, cap: nat) {
    match t
    case Leaf(_) => true
    case Node(kids) =>
      && kids != []
      && (forall k :: 0 <= k < |kids| - 1 ==> Complete(kids[k].sub, cap))
      && (kids[|kids| - 1].sub.Node? ==> |kids[|kids| - 1].sub.kids| <= cap)
      && Packed(kids[|kids| - 1].sub, cap)
  }

  // ----- About the view -----

  lemma {:induction false} SlotsJoin(t: Tree, n: nat)
    requires t.Node? && n <= |t.kids|
    ensures SlotsUpTo(t, n) + SlotsFrom(t, n) == Slots(t, 0)
    decreases |t.kids| - n
  {
    if n < |t.kids| {
      SlotsJoin(t, n + 1);
      assert SlotsUpTo(t, n) + SlotsFrom(t, n) == SlotsUpTo(t, n + 1) + SlotsFrom(t, n + 1);
    }
  }

  /** The view around child k. */
  lemma SlotsAround(t: Tree, lo: int, k: nat)
    requires t.Node? && k < |t.kids|
    ensures Slots(t, lo) == SlotsUpTo(t, k) + Slots(t.kids[k].sub, t.kids[k].cpos) + SlotsFrom(t, k + 1)
  {
    SlotsJoin(t, k + 1);
  }

  lemma {:induction false} SlotsSame(t: Tree, u: Tree, n: nat)
    requires t.Node? && u.Node? && n <= |t.kids| && n <= |u.kids|
    requires forall i :: 0 <= i < n ==>
               Slots(t.kids[i].sub, t.kids[i].cpos) == Slots(u.kids[i].sub, u.kids[i].cpos)
    ensures SlotsUpTo(t, n) == SlotsUpTo(u, n)
  {
    if n > 0 {
      SlotsSame(t, u, n - 1);
    }
  }

  lemma {:induction false} SlotsFromSame(t: Tree, u: Tree, n: nat)
    requires t.Node? && u.Node? && n <= |t.kids| == |u.kids|
    requires forall i :: n <= i < |t.kids| ==> t.kids[i] == u.kids[i]
    ensures SlotsFrom(t, n) == SlotsFrom(u, n)
    decreases |t.kids| - n
  {
    if n < |t.kids| {
      SlotsFromSame(t, u, n + 1);
    }
  }

  /** Every tree has a leaf, and its first leaf starts where the tree does. */
  lemma {:induction false} SlotsFirst(t: Tree, d: nat, lo: int, hi: int)
    requires Shaped(t, d) && Ranged(t, lo, hi)
    ensures |Slots(t, lo)| >= 1 && Slots(t, lo)[0].lo == lo
    decreases d
  {
    if t.Node? {
      SlotsFirst(t.kids[0].sub, d - 1, lo, KidEnd(t.kids[0]));
      SlotsAround(t, lo, 0);
    }
  }

  // ----- Finding a leaf -----

  /** The child to descend to: the first whose range has c, else the last. */
  function PickFrom(kids: seq<Kid>, c: int, k: nat): (r: nat)
    requires k < |kids|
    ensures k <= r < |kids|
    ensures r < |kids| - 1 ==> kids[r].cpos <= c < KidEnd(kids[r])
    ensures forall j :: k <= j < r ==> !(kids[j].cpos <= c < KidEnd(kids[j]))
    decreases |kids| - k
  {
    if k == |kids| - 1 || kids[k].cpos <= c < KidEnd(kids[k]) then k else PickFrom(kids, c, k + 1)
  }

  /** The position of the leaf that __ocfs2_find_path() ends at. */
  function FindLeaf(t: Tree, c: int): nat
    decreases t
  {
    match t
    case Leaf(_) => 0
    case Node(kids) =>
      if kids == [] then 0 else
      var k := PickFrom(kids, c, 0);
      |SlotsUpTo(t, k)| + FindLeaf(kids[k].sub, c)
  }

  lemma {:induction false} KidsOrdered(t: Tree, lo: int, hi: int, j: nat, k: nat)
    requires t.Node? && Ranged(t, lo, hi) && j <= k < |t.kids|
    ensures t.kids[j].cpos <= t.kids[k].cpos && KidEnd(t.kids[k]) <= hi
    ensures j < k ==> KidEnd(t.kids[j]) <= t.kids[k].cpos
    decreases |t.kids| - j
  {
    if j < k {
      KidsOrdered(t, lo, hi, j + 1, k);
    } else if k < |t.kids| - 1 {
      KidsOrdered(t, lo, hi, k + 1, k + 1);
    }
  }

  /** Past the ranges of the children before it means at or after the child picked. */
  lemma {:induction false} PickedStart(t: Tree, lo: int, hi: int, c: int, k: nat)
    requires t.Node? && Ranged(t, lo, hi) && lo <= c && k < |t.kids|
    requires forall j :: 0 <= j < k ==> !(t.kids[j].cpos <= c < KidEnd(t.kids[j]))
    ensures t.kids[k].cpos <= c
  {
    if k > 0 {
      PickedStart(t, lo, hi, c, k - 1);
    }
  }

  /** The leaf found is the one whose range has c, or the rightmost when none has. */
  lemma {:induction false} FindLeafRange(t: Tree, d: nat, lo: int, hi: int, c: int)
    requires Shaped(t, d) && Ranged(t, lo, hi) && lo <= c
    ensures var s, i := Slots(t, lo), FindLeaf(t, c);
      && i < |s| && s[i].lo <= c && (i + 1 < |s| ==> c < s[i + 1].lo)
    decreases d
  {
    if t.Node? {
      var k := PickFrom(t.kids, c, 0);
      PickedStart(t, lo, hi, c, k);
      var kid := t.kids[k];
      FindLeafRange(kid.sub, d - 1, kid.cpos, KidEnd(kid), c);
      FindInKid(t, d, lo, hi, c, k);
    }
  }

  lemma FindInKid(t: Tree, d: nat, lo: int, hi: int, c: int, k: nat)
    requires t.Node? && Shaped(t, d) && Ranged(t, lo, hi) && k == PickFrom(t.kids, c, 0) < |t.kids|
    requires t.kids[k].cpos <= c && (k < Last(t) ==> c < t.kids[k + 1].cpos)
    requires var s, i := Slots(t.kids[k].sub, t.kids[k].cpos), FindLeaf(t.kids[k].sub, c);
      i < |s| && s[i].lo <= c && (i + 1 < |s| ==> c < s[i + 1].lo)
    ensures var s, i := Slots(t, lo), FindLeaf(t, c);
      && i < |s| && s[i].lo <= c && (i + 1 < |s| ==> c < s[i + 1].lo)
  {
    hide Slots, SlotsUpTo, SlotsFrom, Shaped, Ranged, PickFrom;
    SlotsAround(t, lo, k);
    SlotsBehind(t, lo, hi, d, k);
  }

  /** What follows a child starts where the next child does. */
  lemma SlotsBehind(t: Tree, lo: int, hi: int, d: nat, k: nat)
    requires t.Node? && Shaped(t, d) && Ranged(t, lo, hi) && k < |t.kids|
    ensures if k < Last(t) then SlotsFrom(t, k + 1) != [] && SlotsFrom(t, k + 1)[0].lo == t.kids[k + 1].cpos
            else SlotsFrom(t, k + 1) == []
  {
    if k < Last(t) {
      SlotsFirst(t.kids[k + 1].sub, d - 1, t.kids[k + 1].cpos, KidEnd(t.kids[k + 1]));
    }
  }

  // ----- Changing a leaf -----

  /** The child that holds leaf i. */
  function KidOf(t: Tree, i: nat, n: nat): (k: nat)
    requires t.Node? && n <= |t.kids| && i < |SlotsUpTo(t, n)|
    ensures k < n && |SlotsUpTo(t, k)| <= i < |SlotsUpTo(t, k + 1)|
    ensures i - |SlotsUpTo(t, k)| < |Slots(t.kids[k].sub, t.kids[k].cpos)|
  {
    if i >= |SlotsUpTo(t, n - 1)| then n - 1 else KidOf(t, i, n - 1)
  }

  function SetSub(t: Tree, k: nat, sub: Tree): Tree
    requires t.Node? && k < |t.kids|
  {
    Node(t.kids[k := t.kids[k].(sub := sub)])
  }

  /** Replace leaf i. */
  function SetLeaf(t: Tree, lo: int, i: nat, b: LeafBlk): Tree
    requires i < |Slots(t, lo)|
    decreases t
  {
    match t
    case Leaf(_) => Leaf(b)
    case Node(kids) =>
      var k := KidOf(t, i, |kids|);
      SetSub(t, k, SetLeaf(kids[k].sub, kids[k].cpos, i - |SlotsUpTo(t, k)|, b))
  }

  /** Replacing the subtree of one child replaces its stretch of the view. */
  lemma SetSubSlots(t: Tree, lo: int, k: nat, sub: Tree)
    requires t.Node? && k < |t.kids|
    ensures Slots(SetSub(t, k, sub), lo) == SlotsUpTo(t, k) + Slots(sub, t.kids[k].cpos) + SlotsFrom(t, k + 1)
  {
    var u := SetSub(t, k, sub);
    SlotsAround(u, lo, k);
    SlotsSame(t, u, k);
    SlotsFromSame(t, u, k + 1);
  }

  lemma SetLeafStep(t: Tree, lo: int, i: nat, k: nat, sub: Tree, b: LeafBlk)
    requires t.Node? && k < |t.kids| && |SlotsUpTo(t, k)| <= i
    requires var s, j := Slots(t.kids[k].sub, t.kids[k].cpos), i - |SlotsUpTo(t, k)|;
      j < |s| && Slots(sub, t.kids[k].cpos) == s[j := Slot(s[j].lo, b)]
    ensures i < |Slots(t, lo)|
    ensures Slots(SetSub(t, k, sub), lo) == Slots(t, lo)[i := Slot(Slots(t, lo)[i].lo, b)]
  {
    hide Slots, SlotsUpTo, SlotsFrom, SetSub;
    SlotsAround(t, lo, k);
    SetSubSlots(t, lo, k, sub);
  }

  lemma {:induction false} SetLeafSlots(t: Tree, lo: int, i: nat, b: LeafBlk)
    requires i < |Slots(t, lo)|
    ensures Slots(SetLeaf(t, lo, i, b), lo) == Slots(t, lo)[i := Slot(Slots(t, lo)[i].lo, b)]
    decreases t
  {
    hide SlotsUpTo, SlotsFrom;
    if t.Node? {
      assert i < |SlotsUpTo(t, |t.kids|)|;
      var k := KidOf(t, i, |t.kids|);
      var j := i - |SlotsUpTo(t, k)|;
      var kid := t.kids[k];
      SetLeafSlots(kid.sub, kid.cpos, j, b);
      SetLeafStep(t, lo, i, k, SetLeaf(kid.sub, kid.cpos, j, b), b);
    }
  }

  lemma SetSubKeeps(t: Tree, lo: int, hi: int, d: nat, k: nat, sub: Tree)
    requires t.Node? && k < |t.kids| && Shaped(t, d) && Ranged(t, lo, hi)
    requires Shaped(sub, d - 1) && Ranged(sub, t.kids[k].cpos, KidEnd(t.kids[k]))
    ensures Shaped(SetSub(t, k, sub), d) && Ranged(SetSub(t, k, sub), lo, hi)
  {
  }

  /** How full a changed subtree is decides how full the tree is. */
  lemma SetSubFull(t: Tree, cap: nat, k: nat, sub: Tree)
    requires t.Node? && k < |t.kids|
    requires (Complete(t.kids[k].sub, cap) ==> Complete(sub, cap)) && (Packed(t.kids[k].sub, cap) ==> Packed(sub, cap))
    requires sub.Node? ==> t.kids[k].sub.Node? && |sub.kids| <= |t.kids[k].sub.kids|
    ensures Complete(t, cap) ==> Complete(SetSub(t, k, sub), cap)
    ensures Packed(t, cap) ==> Packed(SetSub(t, k, sub), cap)
  {
  }

  lemma {:induction false} SetLeafKeeps(t: Tree, lo: int, hi: int, d: nat, i: nat, b: LeafBlk)
    requires i < |Slots(t, lo)| && Shaped(t, d) && Ranged(t, lo, hi)
    ensures var u := SetLeaf(t, lo, i, b); Shaped(u, d) && Ranged(u, lo, hi)
    decreases d
  {
    hide SlotsUpTo, SlotsFrom;
    if t.Node? {
      var k := KidOf(t, i, |t.kids|);
      var kid := t.kids[k];
      var j := i - |SlotsUpTo(t, k)|;
      SetLeafKeeps(kid.sub, kid.cpos, KidEnd(kid), d - 1, j, b);
      SetSubKeeps(t, lo, hi, d, k, SetLeaf(kid.sub, kid.cpos, j, b));
    }
  }

  lemma {:induction false} SetLeafFull(t: Tree, lo: int, cap: nat, i: nat, b: LeafBlk)
    requires i < |Slots(t, lo)|
    ensures var u := SetLeaf(t, lo, i, b);
      && (t.Node? <==> u.Node?) && (t.Node? ==> |u.kids| == |t.kids|)
      && (Complete(t, cap) ==> Complete(u, cap)) && (Packed(t, cap) ==> Packed(u, cap))
    decreases t
  {
    if t.Node? {
      var k := KidOf(t, i, |t.kids|);
      var kid := t.kids[k];
      var j := i - |SlotsUpTo(t, k)|;
      SetLeafFull(kid.sub, kid.cpos, cap, j, b);
      SetSubFull(t, cap, k, SetLeaf(kid.sub, kid.cpos, j, b));
    }
  }

  // ----- Moving the boundary between two leaves -----

  /** l_next_free_rec of a block. */
  function NextFree(t: Tree): nat {
    match t
    case Leaf(b) => |b.recs|
    case Node(kids) => |kids|
  }

  /** Where the records of a block start, as ocfs2_adjust_adjacent_records() reads it: an empty
      extent in front of a leaf is skipped. */
  function FirstCpos(t: Tree): int {
    match t
    case Leaf(b) =>
      if HasEmpty(b.recs) && |b.recs| > 1 then b.recs[1].cpos
      else if |b.recs| > 0 then b.recs[0].cpos else 0
    case Node(kids) => if kids == [] then 0 else kids[0].cpos
  }

  /** The record at `idx` now ends at c. */
  function EndAt(kids: seq<Kid>, idx: int, c: int): seq<Kid> {
    if 0 <= idx < |kids| then kids[idx := kids[idx].(clusters := c - kids[idx].cpos)] else kids
  }

  /** The record at `idx` now starts at c and ends where it did. */
  function StartAt(kids: seq<Kid>, idx: int, c: int): seq<Kid> {
    if 0 <= idx < |kids| then kids[idx := kids[idx].(cpos := c, clusters := KidEnd(kids[idx]) - c)] else kids
  }

  /** ocfs2_complete_edge_insert() below the subtree root, for the blocks of the two paths at one
      height.  The index of the record on the left is taken from the child's own record count. */
  function FixPair(l: Tree, r: Tree): (Tree, Tree)
    decreases l
  {
    if l.Leaf? || r.Leaf? || l.kids == [] || r.kids == [] then (l, r) else
    var (lc, rc) := FixPair(l.kids[Last(l)].sub, r.kids[0].sub);
    var c := FirstCpos(rc);
    (Node(EndAt(SetSub(l, Last(l), lc).kids, NextFree(lc) - 1, c)),
     Node(StartAt(SetSub(r, 0, rc).kids, 0, c)))
  }

  /** ocfs2_complete_edge_insert() for the boundary in front of leaf i: down to the subtree root,
      where the two paths part. */
  function EdgeFix(t: Tree, lo: int, i: nat): Tree
    requires 0 < i < |Slots(t, lo)|
    decreases t
  {
    if t.Leaf? then t else
    var k, r := KidOf(t, i - 1, |t.kids|), KidOf(t, i, |t.kids|);
    if k == r then SetSub(t, k, EdgeFix(t.kids[k].sub, t.kids[k].cpos, i - |SlotsUpTo(t, k)|))
    else
      var (lc, rc) := FixPair(t.kids[k].sub, t.kids[r].sub);
      var c := FirstCpos(rc);
      Node(StartAt(EndAt(SetSub(SetSub(t, k, lc), r, rc).kids, k, c), r, c))
  }

  /** Replacing one child replaces its stretch of the view. */
  lemma KidSlots(t: Tree, lo: int, k: nat, kid: Kid)
    requires t.Node? && k < |t.kids|
    ensures Slots(Node(t.kids[k := kid]), lo) == SlotsUpTo(t, k) + Slots(kid.sub, kid.cpos) + SlotsFrom(t, k + 1)
  {
    var u := Node(t.kids[k := kid]);
    SlotsAround(u, lo, k);
    SlotsSame(t, u, k);
    SlotsFromSame(t, u, k + 1);
  }

  /** The last leaf of a tree is that of its last child. */
  lemma LastSlot(t: Tree, lo: int, hi: int, d: nat)
    requires t.Node? && Shaped(t, d) && Ranged(t, lo, hi)
    ensures var s, c := Slots(t, lo), t.kids[Last(t)];
      && |s| > 0 && |Slots(c.sub, c.cpos)| > 0
      && s[|s| - 1] == Slots(c.sub, c.cpos)[|Slots(c.sub, c.cpos)| - 1]
  {
    var c := t.kids[Last(t)];
    SlotsAround(t, lo, Last(t));
    SlotsFirst(c.sub, d - 1, c.cpos, KidEnd(c));
  }

  /** The first leaf of a tree is that of its first child, and the second starts no later than
      the first child ends. */
  lemma FirstSlot(t: Tree, lo: int, hi: int, d: nat)
    requires t.Node? && Shaped(t, d) && Ranged(t, lo, hi)
    ensures var s, c := Slots(t, lo), t.kids[0];
      && |s| >= |Slots(c.sub, c.cpos)| > 0 && s[0] == Slots(c.sub, c.cpos)[0]
      && (|Slots(c.sub, c.cpos)| > 1 ==> s[1] == Slots(c.sub, c.cpos)[1])
      && (|Slots(c.sub, c.cpos)| == 1 ==> if |t.kids| > 1 then |s| > 1 && s[1].lo == KidEnd(c) else |s| == 1)
  {
    var c := t.kids[0];
    SlotsAround(t, lo, 0);
    SlotsFirst(c.sub, d - 1, c.cpos, KidEnd(c));
    if |t.kids| > 1 {
      var e := t.kids[1];
      SlotsFirst(e.sub, d - 1, e.cpos, KidEnd(e));
    }
  }

  /** Where the first leaf of a tree ends: where the second starts, or at the end of the tree. */
  function FirstEnd(s: seq<Slot>, hi: int): int {
    if |s| > 1 then s[1].lo else hi
  }

  /** The left path: each last record now ends at c. */
  lemma LeftEdge(l: Tree, d: nat, lo: int, m: int, cap: nat, lc: Tree, c: int)
    requires l.Node? && Shaped(l, d) && Ranged(l, lo, m) && Complete(l, cap)
    requires Shaped(lc, d - 1) && Ranged(lc, l.kids[Last(l)].cpos, c) && Complete(lc, cap)
    requires Slots(lc, l.kids[Last(l)].cpos) == Slots(l.kids[Last(l)].sub, l.kids[Last(l)].cpos)
    requires l.kids[Last(l)].cpos <= c
    ensures var u := Node(EndAt(SetSub(l, Last(l), lc).kids, Last(l), c));
      Shaped(u, d) && Ranged(u, lo, c) && Complete(u, cap) && Slots(u, lo) == Slots(l, lo) && NextFree(u) == NextFree(l)
  {
    var k := Last(l);
    var u := Node(EndAt(SetSub(l, k, lc).kids, k, c));
    assert u == Node(l.kids[k := Kid(l.kids[k].cpos, c - l.kids[k].cpos, lc)]);
    KidSlots(l, lo, k, u.kids[k]);
    SlotsAround(l, lo, k);
  }

  /** The right path: each first record now starts at c. */
  lemma RightEdge(r: Tree, d: nat, m: int, hi: int, rc: Tree, c: int)
    requires r.Node? && Shaped(r, d) && Ranged(r, m, hi)
    requires Shaped(rc, d - 1) && Ranged(rc, c, KidEnd(r.kids[0])) && c <= KidEnd(r.kids[0])
    requires |Slots(r.kids[0].sub, m)| > 0
    requires Slots(rc, c) == Slots(r.kids[0].sub, m)[0 := Slot(c, Slots(r.kids[0].sub, m)[0].b)]
    ensures var u := Node(StartAt(SetSub(r, 0, rc).kids, 0, c));
      && Shaped(u, d) && Ranged(u, c, hi) && FirstCpos(u) == c && NextFree(u) == NextFree(r)
      && |Slots(r, m)| > 0 && Slots(u, c) == Slots(r, m)[0 := Slot(c, Slots(r, m)[0].b)]
  {
    var u := Node(StartAt(SetSub(r, 0, rc).kids, 0, c));
    assert u == Node(r.kids[0 := Kid(c, KidEnd(r.kids[0]) - c, rc)]);
    KidSlots(r, m, 0, u.kids[0]);
    SlotsAround(r, m, 0);
  }

  lemma RightEdgeFull(r: Tree, d: nat, cap: nat, rc: Tree, c: int)
    requires r.Node? && Shaped(r, d) && Shaped(rc, d - 1)
    requires Complete(r.kids[0].sub, cap) ==> Complete(rc, cap)
    requires Packed(r.kids[0].sub, cap) ==> Packed(rc, cap)
    requires NextFree(rc) == NextFree(r.kids[0].sub)
    ensures var u := Node(StartAt(SetSub(r, 0, rc).kids, 0, c));
      (Complete(r, cap) ==> Complete(u, cap)) && (Packed(r, cap) ==> Packed(u, cap))
  {
  }

  /** The two paths at one height, with the boundary between them. */
  predicate Facing(l: Tree, r: Tree, d: nat, lo: int, m: int, hi: int, cap: nat, c: int) {
    && Shaped(l, d) && Shaped(r, d) && Ranged(l, lo, m) && Ranged(r, m, hi) && Complete(l, cap)
    && |Slots(l, lo)| > 0 && |Slots(r, m)| > 0
    && |Slots(l, lo)[|Slots(l, lo)| - 1].b.recs| == cap
    && c == FirstCpos(Leaf(Slots(r, m)[0].b))
    && Slots(l, lo)[|Slots(l, lo)| - 1].lo <= c <= FirstEnd(Slots(r, m), hi)
  }

  /** The paths u, v are l, r with the boundary moved to c. */
  predicate Moved(l: Tree, r: Tree, u: Tree, v: Tree, d: nat, lo: int, m: int, hi: int, cap: nat, c: int) {
    && Shaped(u, d) && Ranged(u, lo, c) && Complete(u, cap) && NextFree(u) == NextFree(l)
    && Slots(u, lo) == Slots(l, lo)
    && Shaped(v, d) && Ranged(v, c, hi) && FirstCpos(v) == c && NextFree(v) == NextFree(r)
    && (Complete(r, cap) ==> Complete(v, cap)) && (Packed(r, cap) ==> Packed(v, cap))
    && |Slots(r, m)| > 0 && Slots(v, c) == Slots(r, m)[0 := Slot(c, Slots(r, m)[0].b)]
    && lo <= c <= hi
  }

  lemma FacingKids(l: Tree, r: Tree, d: nat, lo: int, m: int, hi: int, cap: nat, c: int)
    requires Facing(l, r, d, lo, m, hi, cap, c) && d > 0
    ensures l.Node? && r.Node? && l.kids != [] && r.kids != []
    ensures var lk, rk := l.kids[Last(l)], r.kids[0];
      && Facing(lk.sub, rk.sub, d - 1, lk.cpos, m, KidEnd(rk), cap, c)
      && NextFree(lk.sub) == |l.kids| && lo <= lk.cpos && KidEnd(rk) <= hi && rk.cpos == m
      && |Slots(rk.sub, m)| > 0
  {
    assert l.Node? && r.Node? && l.kids != [] && r.kids != [];
    KidShape(l, lo, m, d, cap, Last(l));
    KidShape(r, m, hi, d, cap, 0);
    LastSlot(l, lo, m, d);
    FirstSlot(r, m, hi, d);
    var lk := l.kids[Last(l)];
    LeafCount(lk.sub, lk.cpos, d - 1, cap);
  }

  lemma FixPairStep(l: Tree, r: Tree, d: nat, lo: int, m: int, hi: int, cap: nat, c: int)
    requires Facing(l, r, d, lo, m, hi, cap, c) && d > 0
    requires l.Node? && r.Node? && l.kids != [] && r.kids != []
    requires var lk, rk, p := l.kids[Last(l)], r.kids[0], FixPair(l.kids[Last(l)].sub, r.kids[0].sub);
      && Moved(lk.sub, rk.sub, p.0, p.1, d - 1, lk.cpos, m, KidEnd(rk), cap, c)
      && NextFree(lk.sub) == |l.kids| && lo <= lk.cpos && KidEnd(rk) <= hi && rk.cpos == m
    ensures var p := FixPair(l, r); Moved(l, r, p.0, p.1, d, lo, m, hi, cap, c)
  {
    hide Slots, SlotsUpTo, SlotsFrom, Shaped, Ranged, Complete, Packed, SetSub, EndAt, StartAt;
    var (lc, rc) := FixPair(l.kids[Last(l)].sub, r.kids[0].sub);
    LeftEdge(l, d, lo, m, cap, lc, c);
    RightEdge(r, d, m, hi, rc, c);
    RightEdgeFull(r, d, cap, rc, c);
  }

  /** Below the subtree root the edge fix-up moves the boundary and nothing else.  It needs the left
      path full: only then is the child's record count the index of the record that leads to it. */
  lemma {:induction false} FixPairMoves(l: Tree, r: Tree, d: nat, lo: int, m: int, hi: int, cap: nat, c: int)
    requires Facing(l, r, d, lo, m, hi, cap, c)
    ensures var p := FixPair(l, r); Moved(l, r, p.0, p.1, d, lo, m, hi, cap, c)
    decreases d
  {
    if d > 0 {
      FacingKids(l, r, d, lo, m, hi, cap, c);
      var lk, rk := l.kids[Last(l)], r.kids[0];
      FixPairMoves(lk.sub, rk.sub, d - 1, lk.cpos, m, KidEnd(rk), cap, c);
      FixPairStep(l, r, d, lo, m, hi, cap, c);
    }
  }

  lemma LeafCount(t: Tree, lo: int, d: nat, cap: nat)
    requires Shaped(t, d) && Complete(t, cap) && |Slots(t, lo)| > 0
    requires |Slots(t, lo)[|Slots(t, lo)| - 1].b.recs| == cap
    ensures NextFree(t) == cap
  {
  }

  /** What a tree says about one of its children. */
  lemma KidShape(t: Tree, lo: int, hi: int, d: nat, cap: nat, k: nat)
    requires t.Node? && k < |t.kids| && Shaped(t, d) && Ranged(t, lo, hi)
    ensures var kid := t.kids[k];
      && d > 0 && Shaped(kid.sub, d - 1) && Ranged(kid.sub, kid.cpos, KidEnd(kid)) && kid.clusters >= 0
      && lo <= kid.cpos && KidEnd(kid) <= hi && (k == 0 ==> kid.cpos == lo) && (k == Last(t) ==> KidEnd(kid) == hi)
      && (Complete(t, cap) ==> |t.kids| == cap && Complete(kid.sub, cap))
      && (Packed(t, cap) ==> if k == Last(t) then Packed(kid.sub, cap) else Complete(kid.sub, cap))
  {
    KidsOrdered(t, lo, hi, 0, k);
  }

  /** Two neighbouring children get new subtrees and a new boundary between them. */
  lemma PairSlots(t: Tree, lo: int, k: nat, a: Kid, b: Kid)
    requires t.Node? && k + 1 < |t.kids|
    ensures Slots(Node(t.kids[k := a][k + 1 := b]), lo)
         == SlotsUpTo(t, k) + Slots(a.sub, a.cpos) + Slots(b.sub, b.cpos) + SlotsFrom(t, k + 2)
  {
    var t1 := Node(t.kids[k := a]);
    var u := Node(t1.kids[k + 1 := b]);
    KidSlots(t1, lo, k + 1, b);
    SlotsSame(t, t1, k);
    SlotsFromSame(t, t1, k + 2);
  }

  /** What the subtree root of an edge fix-up needs of the boundary leaf. */
  lemma RootPair(t: Tree, d: nat, lo: int, hi: int, cap: nat, i: nat, k: nat)
    requires t.Node? && Shaped(t, d) && Ranged(t, lo, hi) && k + 1 < |t.kids|
    requires i == |SlotsUpTo(t, k + 1)| && 0 < i < |Slots(t, lo)|
    ensures var s, l, r := Slots(t, lo), t.kids[k], t.kids[k + 1];
      var sl, sr := Slots(l.sub, l.cpos), Slots(r.sub, r.cpos);
      && |sl| > 0 && |sr| > 0 && s[i - 1] == sl[|sl| - 1] && s[i] == sr[0]
      && i == |SlotsUpTo(t, k)| + |sl|
      && FirstEnd(s[i..], hi) == FirstEnd(sr, KidEnd(r))
      && s == SlotsUpTo(t, k) + sl + sr + SlotsFrom(t, k + 2)
  {
    var l, r := t.kids[k], t.kids[k + 1];
    SlotsAround(t, lo, k + 1);
    SlotsFirst(l.sub, d - 1, l.cpos, KidEnd(l));
    SlotsFirst(r.sub, d - 1, r.cpos, KidEnd(r));
    if k + 2 < |t.kids| {
      var e := t.kids[k + 2];
      SlotsFirst(e.sub, d - 1, e.cpos, KidEnd(e));
    }
  }

  lemma {:induction false} UpToMono(t: Tree, j: nat, k: nat)
    requires t.Node? && j <= k <= |t.kids|
    ensures |SlotsUpTo(t, j)| <= |SlotsUpTo(t, k)|
  {
    if j < k {
      UpToMono(t, j, k - 1);
    }
  }

  lemma {:induction false} CompletePacked(t: Tree, cap: nat)
    requires Complete(t, cap) && cap > 0
    ensures Packed(t, cap)
  {
    if t.Node? {
      CompletePacked(t.kids[Last(t)].sub, cap);
    }
  }

  /** The leaves on both sides of a boundary are under one child or under two neighbours. */
  lemma BoundaryKids(t: Tree, lo: int, hi: int, d: nat, i: nat)
    requires t.Node? && Shaped(t, d) && Ranged(t, lo, hi) && 0 < i < |Slots(t, lo)|
    ensures var k, r := KidOf(t, i - 1, |t.kids|), KidOf(t, i, |t.kids|);
      && (k == r ==> 0 < i - |SlotsUpTo(t, k)| < |Slots(t.kids[k].sub, t.kids[k].cpos)|)
      && (k != r ==> r == k + 1 && i == |SlotsUpTo(t, r)|)
  {
    var k, r := KidOf(t, i - 1, |t.kids|), KidOf(t, i, |t.kids|);
    if r < k {
      UpToMono(t, r + 1, k);
    } else if k + 1 < r {
      KidHasSlots(t, lo, hi, d, k + 1);
      UpToMono(t, k + 2, r);
    } else if k < r {
      UpToMono(t, k + 1, r);
    }
  }

  lemma KidHasSlots(t: Tree, lo: int, hi: int, d: nat, k: nat)
    requires t.Node? && Shaped(t, d) && Ranged(t, lo, hi) && k < |t.kids|
    ensures |SlotsUpTo(t, k + 1)| > |SlotsUpTo(t, k)|
  {
    var e := t.kids[k];
    SlotsFirst(e.sub, d - 1, e.cpos, KidEnd(e));
  }

  /** A boundary that may move to c: the leaf on the left is full, and c is where the leaf on the
      right starts. */
  predicate Movable(t: Tree, d: nat, lo: int, hi: int, cap: nat, i: nat, c: int) {
    var s := Slots(t, lo);
    && Shaped(t, d) && Ranged(t, lo, hi) && Packed(t, cap) && cap > 0
    && 0 < i < |s| && |s[i - 1].b.recs| == cap
    && c == FirstCpos(Leaf(s[i].b)) && s[i - 1].lo <= c <= FirstEnd(s[i..], hi)
  }

  predicate BoundaryAt(t: Tree, u: Tree, d: nat, lo: int, hi: int, cap: nat, i: nat, c: int) {
    && Shaped(u, d) && Ranged(u, lo, hi) && NextFree(u) == NextFree(t)
    && Packed(u, cap) && (Complete(t, cap) ==> Complete(u, cap))
    && i < |Slots(t, lo)| && Slots(u, lo) == Slots(t, lo)[i := Slot(c, Slots(t, lo)[i].b)]
  }

  lemma MovableInKid(t: Tree, d: nat, lo: int, hi: int, cap: nat, i: nat, c: int, k: nat)
    requires t.Node? && Movable(t, d, lo, hi, cap, i, c) && k < |t.kids| && |SlotsUpTo(t, k)| <= i
    requires 0 < i - |SlotsUpTo(t, k)| < |Slots(t.kids[k].sub, t.kids[k].cpos)|
    ensures d > 0 && Movable(t.kids[k].sub, d - 1, t.kids[k].cpos, KidEnd(t.kids[k]), cap, i - |SlotsUpTo(t, k)|, c)
  {
    hide Slots, SlotsUpTo, SlotsFrom, Packed, Complete;
    var kid := t.kids[k];
    KidShape(t, lo, hi, d, cap, k);
    if k < Last(t) {
      CompletePacked(kid.sub, cap);
      var e := t.kids[k + 1];
      SlotsFirst(e.sub, d - 1, e.cpos, KidEnd(e));
      FromHead(t, k + 1);
    } else {
      FromEnd(t);
    }
    SlotsAround(t, lo, k);
  }

  lemma FromHead(t: Tree, k: nat)
    requires t.Node? && k < |t.kids|
    ensures SlotsFrom(t, k) == Slots(t.kids[k].sub, t.kids[k].cpos) + SlotsFrom(t, k + 1)
  {
  }

  lemma FromEnd(t: Tree)
    requires t.Node?
    ensures SlotsFrom(t, |t.kids|) == []
  {
  }

  lemma BoundaryInKid(t: Tree, d: nat, lo: int, hi: int, cap: nat, i: nat, c: int, k: nat, sub: Tree)
    requires t.Node? && d > 0 && Shaped(t, d) && Ranged(t, lo, hi) && Packed(t, cap)
    requires k < |t.kids| && |SlotsUpTo(t, k)| <= i < |Slots(t, lo)|
    requires BoundaryAt(t.kids[k].sub, sub, d - 1, t.kids[k].cpos, KidEnd(t.kids[k]), cap, i - |SlotsUpTo(t, k)|, c)
    ensures BoundaryAt(t, SetSub(t, k, sub), d, lo, hi, cap, i, c)
  {
    hide Slots, SlotsUpTo, SlotsFrom;
    SlotsAround(t, lo, k);
    SetSubSlots(t, lo, k, sub);
    SetSubKeeps(t, lo, hi, d, k, sub);
    KidSubKind(t, d, k, sub);
    SetSubFull(t, cap, k, sub);
  }

  lemma KidSubKind(t: Tree, d: nat, k: nat, sub: Tree)
    requires t.Node? && k < |t.kids| && d > 0 && Shaped(t, d) && Shaped(sub, d - 1)
    ensures sub.Node? <==> t.kids[k].sub.Node?
  {
  }

  /** The records of the subtree root after the fix-up. */
  function RootPairFix(t: Tree, k: nat, lc: Tree, rc: Tree, c: int): Tree
    requires t.Node? && k + 1 < |t.kids|
  {
    Node(t.kids[k := Kid(t.kids[k].cpos, c - t.kids[k].cpos, lc)]
               [k + 1 := Kid(c, KidEnd(t.kids[k + 1]) - c, rc)])
  }

  lemma RootPairFixIs(t: Tree, k: nat, lc: Tree, rc: Tree, c: int)
    requires t.Node? && k + 1 < |t.kids|
    ensures Node(StartAt(EndAt(SetSub(SetSub(t, k, lc), k + 1, rc).kids, k, c), k + 1, c)) ==
            RootPairFix(t, k, lc, rc, c)
  {
    var a := SetSub(SetSub(t, k, lc), k + 1, rc).kids;
    assert a[k] == t.kids[k].(sub := lc) && a[k + 1] == t.kids[k + 1].(sub := rc);
    var b := EndAt(a, k, c);
    assert b[k] == Kid(t.kids[k].cpos, c - t.kids[k].cpos, lc) && b[k + 1] == a[k + 1];
    assert StartAt(b, k + 1, c) == RootPairFix(t, k, lc, rc, c).kids;
  }

  lemma RootPairShape(t: Tree, d: nat, lo: int, hi: int, k: nat, lc: Tree, rc: Tree, c: int)
    requires t.Node? && k + 1 < |t.kids| && Shaped(t, d) && Ranged(t, lo, hi)
    requires Shaped(lc, d - 1) && Ranged(lc, t.kids[k].cpos, c)
    requires Shaped(rc, d - 1) && Ranged(rc, c, KidEnd(t.kids[k + 1]))
    requires t.kids[k].cpos <= c <= KidEnd(t.kids[k + 1])
    ensures var u := RootPairFix(t, k, lc, rc, c); Shaped(u, d) && Ranged(u, lo, hi)
  {
  }

  lemma RootPairFull(t: Tree, d: nat, cap: nat, k: nat, lc: Tree, rc: Tree, c: int)
    requires t.Node? && k + 1 < |t.kids| && Shaped(t, d) && Shaped(rc, d - 1) && Packed(t, cap)
    requires Complete(lc, cap) && NextFree(rc) == NextFree(t.kids[k + 1].sub)
    requires Complete(t.kids[k + 1].sub, cap) ==> Complete(rc, cap)
    requires Packed(t.kids[k + 1].sub, cap) ==> Packed(rc, cap)
    ensures var u := RootPairFix(t, k, lc, rc, c); Packed(u, cap) && (Complete(t, cap) ==> Complete(u, cap))
  {
  }

  lemma EdgeFixRoot(t: Tree, d: nat, lo: int, hi: int, cap: nat, i: nat, c: int, k: nat)
    requires t.Node? && k + 1 < |t.kids| && Movable(t, d, lo, hi, cap, i, c) && i == |SlotsUpTo(t, k + 1)|
    ensures var p := FixPair(t.kids[k].sub, t.kids[k + 1].sub);
      FirstCpos(p.1) == c && BoundaryAt(t, RootPairFix(t, k, p.0, p.1, c), d, lo, hi, cap, i, c)
  {
    hide Slots, SlotsUpTo, SlotsFrom, Packed, Complete, Ranged, Shaped, FixPair;
    var a, b := t.kids[k], t.kids[k + 1];
    KidShape(t, lo, hi, d, cap, k);
    KidShape(t, lo, hi, d, cap, k + 1);
    RootPair(t, d, lo, hi, cap, i, k);
    KidsOrdered(t, lo, hi, k, k + 1);
    AdjacentKids(t, lo, hi, k);
    FixPairMoves(a.sub, b.sub, d - 1, a.cpos, KidEnd(a), KidEnd(b), cap, c);
    var (lc, rc) := FixPair(a.sub, b.sub);
    RootPairShape(t, d, lo, hi, k, lc, rc, c);
    RootPairFull(t, d, cap, k, lc, rc, c);
    PairSlots(t, lo, k, Kid(a.cpos, c - a.cpos, lc), Kid(c, KidEnd(b) - c, rc));
  }

  lemma AdjacentKids(t: Tree, lo: int, hi: int, k: nat)
    requires t.Node? && k + 1 < |t.kids| && Ranged(t, lo, hi)
    ensures t.kids[k + 1].cpos == KidEnd(t.kids[k])
  {
  }

  /** The edge fix-up of a whole tree moves one boundary and nothing else: the ranges above stay
      exact, the leaves and their order stay, and so does how full the nodes are. */
  lemma {:induction false} EdgeFixMoves(t: Tree, d: nat, lo: int, hi: int, cap: nat, i: nat, c: int)
    requires Movable(t, d, lo, hi, cap, i, c)
    ensures BoundaryAt(t, EdgeFix(t, lo, i), d, lo, hi, cap, i, c)
    decreases d
  {
    hide Slots, SlotsUpTo, SlotsFrom, Packed, Complete, Ranged, FixPair, SetSub, StartAt, EndAt, RootPairFix,
      BoundaryAt;
    NodeOfTwo(t, lo);
    BoundaryKids(t, lo, hi, d, i);
    var k, r := KidOf(t, i - 1, |t.kids|), KidOf(t, i, |t.kids|);
    if k == r {
      var j := i - |SlotsUpTo(t, k)|;
      MovableInKid(t, d, lo, hi, cap, i, c, k);
      EdgeFixMoves(t.kids[k].sub, d - 1, t.kids[k].cpos, KidEnd(t.kids[k]), cap, j, c);
      BoundaryInKid(t, d, lo, hi, cap, i, c, k, EdgeFix(t.kids[k].sub, t.kids[k].cpos, j));
    } else {
      EdgeFixRoot(t, d, lo, hi, cap, i, c, k);
      var p := FixPair(t.kids[k].sub, t.kids[k + 1].sub);
      RootPairFixIs(t, k, p.0, p.1, c);
    }
  }

  lemma NodeOfTwo(t: Tree, lo: int)
    requires |Slots(t, lo)| > 1
    ensures t.Node?
    ensures Slots(t, lo) == SlotsUpTo(t, |t.kids|)
  {
  }

  // ----- The right edge of the tree -----

  /** ocfs2_adjust_rightmost_records() and ocfs2_update_edge_lengths(): every last record on the
      rightmost path ends at `range`. */
  function SetHi(t: Tree, range: int): Tree {
    match t
    case Leaf(_) => t
    case Node(kids) =>
      if kids == [] then t
      else var k := kids[|kids| - 1]; Node(kids[|kids| - 1 := Kid(k.cpos, range - k.cpos, SetHi(k.sub, range))])
  }

  lemma {:induction false} SlotsAtLeast(t: Tree, d: nat, lo: int, hi: int)
    requires Shaped(t, d) && Ranged(t, lo, hi)
    ensures |Slots(t, lo)| > 0 && lo <= Slots(t, lo)[|Slots(t, lo)| - 1].lo
    decreases d
  {
    SlotsFirst(t, d, lo, hi);
    if t.Node? {
      var k := t.kids[Last(t)];
      SlotsAtLeast(k.sub, d - 1, k.cpos, KidEnd(k));
      LastSlot(t, lo, hi, d);
      KidsOrdered(t, lo, hi, 0, Last(t));
    }
  }

  /** `u` is `t` with its right end moved to `range`. */
  predicate EndsAt(t: Tree, u: Tree, d: nat, lo: int, cap: nat, range: int) {
    && Shaped(u, d) && Ranged(u, lo, range) && NextFree(u) == NextFree(t) && Slots(u, lo) == Slots(t, lo)
    && (Packed(t, cap) ==> Packed(u, cap)) && (Complete(t, cap) ==> Complete(u, cap))
  }

  lemma LastKidEndsAt(t: Tree, d: nat, lo: int, hi: int, cap: nat, range: int, sub: Tree)
    requires t.Node? && d > 0 && Shaped(t, d) && Ranged(t, lo, hi)
    requires EndsAt(t.kids[Last(t)].sub, sub, d - 1, t.kids[Last(t)].cpos, cap, range)
    requires t.kids[Last(t)].cpos <= range
    ensures var k := t.kids[Last(t)];
      EndsAt(t, Node(t.kids[Last(t) := Kid(k.cpos, range - k.cpos, sub)]), d, lo, cap, range)
  {
    var k := Kid(t.kids[Last(t)].cpos, range - t.kids[Last(t)].cpos, sub);
    KidSlots(t, lo, Last(t), k);
    SlotsAround(t, lo, Last(t));
    KidSubKind(t, d, Last(t), sub);
  }

  lemma {:induction false} SetHiKeeps(t: Tree, d: nat, lo: int, hi: int, cap: nat, range: int)
    requires Shaped(t, d) && Ranged(t, lo, hi) && |Slots(t, lo)| > 0 && Slots(t, lo)[|Slots(t, lo)| - 1].lo <= range
    ensures EndsAt(t, SetHi(t, range), d, lo, cap, range)
    decreases d
  {
    if t.Node? {
      var k := t.kids[Last(t)];
      LastSlot(t, lo, hi, d);
      SlotsAtLeast(k.sub, d - 1, k.cpos, KidEnd(k));
      SetHiKeeps(k.sub, d - 1, k.cpos, KidEnd(k), cap, range);
      LastKidEndsAt(t, d, lo, hi, cap, range, SetHi(k.sub, range));
    }
  }

  // ----- Growing -----

  /** A branch of single records down to one leaf. */
  function Spine(d: nat, b: LeafBlk, cpos: int): Tree {
    if d == 0 then Leaf(b) else Node([Kid(cpos, 0, Spine(d - 1, b, cpos))])
  }

  lemma {:induction false} SpineShape(d: nat, b: LeafBlk, cpos: int, cap: nat)
    requires cap > 0
    ensures var t := Spine(d, b, cpos);
      && Shaped(t, d) && Ranged(t, cpos, cpos) && Packed(t, cap) && Slots(t, cpos) == [Slot(cpos, b)]
      && (t.Node? ==> |t.kids| <= cap)
  {
    if d > 0 {
      SpineShape(d - 1, b, cpos, cap);
      var t := Spine(d, b, cpos);
      assert SlotsUpTo(t, 0) == [];
      assert SlotsUpTo(t, 1) == SlotsUpTo(t, 0) + Slots(t.kids[0].sub, cpos);
    }
  }

  /** Whether a block below this one on the rightmost path, above the leaves, has room. */
  predicate RoomBelow(t: Tree, cap: nat)
    requires t.Node?
  {
    && t.kids != [] && t.kids[Last(t)].sub.Node?
    && (|t.kids[Last(t)].sub.kids| < cap || RoomBelow(t.kids[Last(t)].sub, cap))
  }

  /** ocfs2_add_branch() at the block that ocfs2_find_branch_target() picks: the lowest on the
      rightmost path with room, else this one. */
  function AddBranch(t: Tree, d: nat, cap: nat, b: LeafBlk, cpos: int): Tree
    requires t.Node? && d > 0
    decreases d
  {
    if d > 1 && RoomBelow(t, cap) then SetSub(t, Last(t), AddBranch(t.kids[Last(t)].sub, d - 1, cap, b, cpos))
    else Node(t.kids + [Kid(cpos, 0, Spine(d - 1, b, cpos))])
  }

  lemma {:induction false} NoRoomComplete(t: Tree, cap: nat)
    requires Packed(t, cap) && (t.Node? ==> |t.kids| == cap && !RoomBelow(t, cap))
    ensures Complete(t, cap)
  {
    if t.Node? {
      NoRoomComplete(t.kids[Last(t)].sub, cap);
    }
  }

  lemma AppendKid(t: Tree, d: nat, lo: int, hi: int, cap: nat, kid: Kid)
    requires t.Node? && Shaped(t, d) && Ranged(t, lo, hi) && Packed(t, cap)
    requires kid.cpos == hi && kid.clusters == 0 && Shaped(kid.sub, d - 1) && Ranged(kid.sub, hi, hi)
    requires Packed(kid.sub, cap) && (kid.sub.Node? ==> |kid.sub.kids| <= cap)
    requires Complete(t.kids[Last(t)].sub, cap)
    ensures var u := Node(t.kids + [kid]);
      && Shaped(u, d) && Ranged(u, lo, hi) && Packed(u, cap) && Slots(u, lo) == Slots(t, lo) + Slots(kid.sub, hi)
  {
    var u := Node(t.kids + [kid]);
    SlotsSame(t, u, |t.kids|);
    assert Slots(u, lo) == SlotsUpTo(u, |t.kids|) + Slots(kid.sub, hi);
  }

  /** `u` is `t` with one more leaf at its right end, over an empty range. */
  predicate Extended(t: Tree, u: Tree, d: nat, lo: int, hi: int, cap: nat, b: LeafBlk) {
    && u.Node? && Shaped(u, d) && Ranged(u, lo, hi) && Packed(u, cap)
    && Slots(u, lo) == Slots(t, lo) + [Slot(hi, b)]
  }

  lemma ExtendLastKid(t: Tree, d: nat, lo: int, hi: int, cap: nat, b: LeafBlk, sub: Tree)
    requires t.Node? && d > 1 && Shaped(t, d) && Ranged(t, lo, hi) && Packed(t, cap)
    requires Extended(t.kids[Last(t)].sub, sub, d - 1, t.kids[Last(t)].cpos, hi, cap, b) && NextFree(sub) <= cap
    ensures Extended(t, SetSub(t, Last(t), sub), d, lo, hi, cap, b)
  {
    SetSubSlots(t, lo, Last(t), sub);
    SlotsAround(t, lo, Last(t));
    FromEnd(t);
  }

  /** A new branch extends the tree at the right by one leaf; a block that gets a new record had
      room, and the root gets one only when nothing below it has room. */
  lemma {:induction false} AddBranchExtends(t: Tree, d: nat, lo: int, hi: int, cap: nat, b: LeafBlk)
    requires t.Node? && Shaped(t, d) && Ranged(t, lo, hi) && Packed(t, cap) && cap > 0
    ensures d > 0
    ensures var u := AddBranch(t, d, cap, b, hi);
      && Extended(t, u, d, lo, hi, cap, b)
      && |u.kids| == if RoomBelow(t, cap) then |t.kids| else |t.kids| + 1
    decreases d
  {
    hide Slots, SlotsUpTo;
    var k := t.kids[Last(t)];
    KidShape(t, lo, hi, d, cap, Last(t));
    if d > 1 && RoomBelow(t, cap) {
      AddBranchExtends(k.sub, d - 1, k.cpos, hi, cap, b);
      ExtendLastKid(t, d, lo, hi, cap, b, AddBranch(k.sub, d - 1, cap, b, hi));
    } else {
      NoRoomComplete(k.sub, cap);
      SpineShape(d - 1, b, hi, cap);
      AppendKid(t, d, lo, hi, cap, Kid(hi, 0, Spine(d - 1, b, hi)));
    }
  }

  /** The record after the last one of a block: where its range ends. */
  function SumRightmost(t: Tree): int {
    match t
    case Leaf(b) => if b.recs == [] then 0 else End(b.recs[|b.recs| - 1])
    case Node(kids) => if kids == [] then 0 else KidEnd(kids[|kids| - 1])
  }

  /** ocfs2_shift_tree_depth(): the root's records move to a new block, the only one below it. */
  function ShiftDepth(t: Tree): Tree {
    Node([Kid(0, SumRightmost(t), t)])
  }

  lemma ShiftDepthKeeps(t: Tree, d: nat, hi: int, cap: nat)
    requires Shaped(t, d) && Ranged(t, 0, hi) && Packed(t, cap) && (t.Node? ==> |t.kids| <= cap)
    requires SumRightmost(t) == hi >= 0
    ensures var u := ShiftDepth(t);
      Shaped(u, d + 1) && Ranged(u, 0, hi) && Packed(u, cap) && Slots(u, 0) == Slots(t, 0)
    ensures ShiftDepth(t).Node? && |ShiftDepth(t).kids| == 1
    ensures t.Node? && |t.kids| < cap ==> RoomBelow(ShiftDepth(t), cap)
  {
    var u := ShiftDepth(t);
    assert SlotsUpTo(u, 1) == SlotsUpTo(u, 0) + Slots(t, 0);
  }

  // ----- Shrinking -----

  /** ocfs2_unlink_subtree() for the rightmost leaf: the record of the branch that leads to it alone
      goes away at the block where that branch parts from the path to its left. */
  function Unlink(t: Tree): Tree {
    match t
    case Leaf(_) => t
    case Node(kids) =>
      if kids == [] then t else
      var k := kids[|kids| - 1];
      if |Slots(k.sub, k.cpos)| == 1 && |kids| > 1 then Node(kids[..|kids| - 1])
      else SetSub(t, |kids| - 1, Unlink(k.sub))
  }

  /** `u` is `t` without its last leaf, ending at `range`. */
  predicate Shortened(t: Tree, u: Tree, d: nat, lo: int, cap: nat, range: int) {
    && Shaped(u, d) && Ranged(u, lo, range) && u.Node? && t.Node? && 0 < |u.kids| <= |t.kids|
    && |Slots(t, lo)| > 0 && Slots(u, lo) == Slots(t, lo)[..|Slots(t, lo)| - 1]
    && Packed(u, cap)
  }

  lemma DropKid(t: Tree, d: nat, lo: int, hi: int, cap: nat)
    requires t.Node? && |t.kids| > 1 && Shaped(t, d) && Ranged(t, lo, hi) && Packed(t, cap) && cap > 0
    requires |Slots(t.kids[Last(t)].sub, t.kids[Last(t)].cpos)| == 1
    ensures var u := Node(t.kids[..|t.kids| - 1]); Shortened(t, u, d, lo, cap, t.kids[Last(t)].cpos)
  {
    var u := Node(t.kids[..|t.kids| - 1]);
    SlotsSame(t, u, |u.kids|);
    SlotsAround(t, lo, Last(t));
    FromEnd(t);
    CompletePacked(t.kids[|t.kids| - 2].sub, cap);
  }

  lemma ShortenLastKid(t: Tree, d: nat, lo: int, hi: int, cap: nat, range: int, sub: Tree)
    requires t.Node? && d > 0 && Shaped(t, d) && Ranged(t, lo, hi) && Packed(t, cap)
    requires Shortened(t.kids[Last(t)].sub, sub, d - 1, t.kids[Last(t)].cpos, cap, range)
    requires t.kids[Last(t)].cpos <= range
    ensures var k := t.kids[Last(t)];
      Shortened(t, Node(t.kids[Last(t) := Kid(k.cpos, range - k.cpos, sub)]), d, lo, cap, range)
  {
    var k := Kid(t.kids[Last(t)].cpos, range - t.kids[Last(t)].cpos, sub);
    KidSlots(t, lo, Last(t), k);
    SlotsAround(t, lo, Last(t));
    FromEnd(t);
  }

  lemma SetHiOfSetSub(t: Tree, sub: Tree, range: int)
    requires t.Node? && t.kids != []
    ensures SetHi(SetSub(t, Last(t), sub), range)
         == Node(t.kids[Last(t) := Kid(t.kids[Last(t)].cpos, range - t.kids[Last(t)].cpos, SetHi(sub, range))])
  {
    var u := SetSub(t, Last(t), sub);
    assert u.kids[|u.kids| - 1] == t.kids[Last(t)].(sub := sub);
  }

  lemma UnlinkHere(t: Tree, d: nat, lo: int, hi: int, cap: nat, range: int)
    requires t.Node? && |t.kids| > 1 && Shaped(t, d) && Ranged(t, lo, hi) && Packed(t, cap) && cap > 0
    requires |Slots(t.kids[Last(t)].sub, t.kids[Last(t)].cpos)| == 1
    requires |Slots(t, lo)| > 1 && Slots(t, lo)[|Slots(t, lo)| - 2].lo <= range
    ensures Shortened(t, SetHi(Unlink(t), range), d, lo, cap, range)
  {
    hide Slots, SlotsUpTo;
    DropKid(t, d, lo, hi, cap);
    SetHiKeeps(Node(t.kids[..|t.kids| - 1]), d, lo, t.kids[Last(t)].cpos, cap, range);
  }

  /** Where the last two leaves are, seen from the last child. */
  lemma LastTwo(t: Tree, d: nat, lo: int, hi: int)
    requires t.Node? && Shaped(t, d) && Ranged(t, lo, hi)
    ensures var k, s := t.kids[Last(t)], Slots(t, lo);
      var r := Slots(k.sub, k.cpos);
      && 0 < |r| <= |s| && (|r| == |s| ==> |t.kids| == 1 || |SlotsUpTo(t, Last(t))| == 0)
      && (|r| > 1 ==> s[|s| - 2] == r[|r| - 2] && k.cpos <= r[|r| - 2].lo)
      && (|t.kids| == 1 ==> s == r)
  {
    var k := t.kids[Last(t)];
    SlotsAround(t, lo, Last(t));
    FromEnd(t);
    SlotsFirst(k.sub, d - 1, k.cpos, KidEnd(k));
    if |Slots(k.sub, k.cpos)| > 1 {
      SlotsAtHead(k.sub, d - 1, k.cpos, KidEnd(k), |Slots(k.sub, k.cpos)| - 2);
    }
  }

  /** Unlinking the last leaf and correcting the edge lengths leaves the tree of the others. */
  lemma {:induction false} UnlinkShortens(t: Tree, d: nat, lo: int, hi: int, cap: nat, range: int)
    requires Shaped(t, d) && Ranged(t, lo, hi) && Packed(t, cap) && cap > 0
    requires |Slots(t, lo)| > 1 && Slots(t, lo)[|Slots(t, lo)| - 2].lo <= range
    ensures Shortened(t, SetHi(Unlink(t), range), d, lo, cap, range)
    decreases d
  {
    hide Slots, SlotsUpTo, SetHi, Shaped, Ranged, Packed;
    NodeOfTwo(t, lo);
    NodeKids(t, d);
    var k := t.kids[Last(t)];
    KidShape(t, lo, hi, d, cap, Last(t));
    LastTwo(t, d, lo, hi);
    if |Slots(k.sub, k.cpos)| == 1 {
      UnlinkHere(t, d, lo, hi, cap, range);
    } else {
      UnlinkShortens(k.sub, d - 1, k.cpos, KidEnd(k), cap, range);
      SetHiOfSetSub(t, Unlink(k.sub), range);
      ShortenLastKid(t, d, lo, hi, cap, range, SetHi(Unlink(k.sub), range));
    }
  }

  lemma NodeKids(t: Tree, d: nat)
    requires t.Node? && Shaped(t, d)
    ensures t.kids != []
  {
  }

  /** The leaves of a tree start no earlier than the tree. */
  lemma {:induction false} SlotsAtHead(t: Tree, d: nat, lo: int, hi: int, i: nat)
    requires Shaped(t, d) && Ranged(t, lo, hi) && i < |Slots(t, lo)|
    ensures lo <= Slots(t, lo)[i].lo
    decreases d
  {
    hide SlotsUpTo, SlotsFrom, Shaped, Ranged, Packed, Complete;
    if t.Node? {
      var k := KidOf(t, i, |t.kids|);
      var kid := t.kids[k];
      KidShape(t, lo, hi, d, 0, k);
      SlotsAround(t, lo, k);
      SlotsAtHead(kid.sub, d - 1, kid.cpos, KidEnd(kid), i - |SlotsUpTo(t, k)|);
    }
  }

  /** Neither a change of ranges nor one of a leaf makes or takes room above the leaves. */
  predicate SameRoom(t: Tree, u: Tree, cap: nat) {
    && (t.Node? <==> u.Node?)
    && (t.Node? ==> |u.kids| == |t.kids| && (RoomBelow(u, cap) <==> RoomBelow(t, cap)))
  }

  lemma {:induction false} SetHiRoom(t: Tree, range: int, cap: nat)
    ensures SameRoom(t, SetHi(t, range), cap)
  {
    if t.Node? && t.kids != [] {
      SetHiRoom(t.kids[Last(t)].sub, range, cap);
    }
  }

  lemma {:induction false} SetLeafRoom(t: Tree, lo: int, i: nat, b: LeafBlk, cap: nat)
    requires i < |Slots(t, lo)|
    ensures SameRoom(t, SetLeaf(t, lo, i, b), cap)
    decreases t
  {
    hide SlotsUpTo;
    if t.Node? {
      assert i < |SlotsUpTo(t, |t.kids|)|;
      var k := KidOf(t, i, |t.kids|);
      SetLeafRoom(t.kids[k].sub, t.kids[k].cpos, i - |SlotsUpTo(t, k)|, b, cap);
    }
  }
}
