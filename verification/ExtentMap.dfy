/** The cache of extents of a file and its readers (extent_map.c): a short list that keeps what was
    used last in front, and the questions about holes and data that are answered from it or from
    the extent tree. */
module ExtentMap {
  import opened ExtentLeaf
  import opened ExtentBTree
  import opened ExtentPatch
  import opened ExtentLeaves
  import opened ExtentTree
  import opened ExtentTruncate

  const MAXITEMS := 3

  // ----- The cache -----

  /** The item maps its clusters as the file does. */
  ghost predicate Inside(s: seq<Rec>, item: Rec) {
    item.clusters > 0 && forall c :: Covers(item, c) ==> At(s, c) == CellOf(item, c)
  }

  ghost predicate AllInside(s: seq<Rec>, items: seq<Rec>) {
    forall i :: 0 <= i < |items| ==> Inside(s, items[i])
  }

  /** ocfs2_ei_is_contained(). */
  predicate IsContained(a: Rec, b: Rec) {
    (a.cpos <= b.cpos < End(a)) || (a.cpos < End(b) <= End(a))
  }

  /** Two items meet exactly when one of them contains an end of the other. */
  lemma ContainedMeets(a: Rec, b: Rec)
    requires a.clusters > 0 && b.clusters > 0
    ensures IsContained(a, b) || IsContained(b, a) <==> exists c :: Covers(a, c) && Covers(b, c)
  {
    var c := if a.cpos <= b.cpos then b.cpos else a.cpos;
    assert IsContained(a, b) || IsContained(b, a) ==> Covers(a, c) && Covers(b, c);
  }

  datatype Merge = NoMerge | Merged(item: Rec)

  /** ocfs2_try_to_merge_extent_map(). */
  function TryMerge(item: Rec, ins: Rec): Merge {
    if ins.phys == item.phys + item.clusters && ins.cpos == End(item) && ins.flags == item.flags then
      Merged(item.(clusters := item.clusters + ins.clusters))
    else if ins.phys + ins.clusters == item.phys && End(ins) == item.cpos && ins.flags == item.flags then
      Merged(ins.(clusters := item.clusters + ins.clusters))
    else if IsContained(item, ins) || IsContained(ins, item) then Merged(ins)
    else NoMerge
  }

  lemma MergedIsInside(s: seq<Rec>, item: Rec, ins: Rec)
    requires Inside(s, item) && Inside(s, ins) && TryMerge(item, ins).Merged?
    ensures Inside(s, TryMerge(item, ins).item)
    ensures forall c :: Covers(ins, c) ==> Covers(TryMerge(item, ins).item, c)
  {
    var m := TryMerge(item, ins).item;
    forall c | Covers(m, c)
      ensures At(s, c) == CellOf(m, c)
    {
      assert Covers(item, c) || Covers(ins, c);
    }
  }

  function ToFront(items: seq<Rec>, i: nat, item: Rec): seq<Rec>
    requires i < |items|
  {
    [item] + items[..i] + items[i + 1..]
  }

  lemma FrontInside(s: seq<Rec>, items: seq<Rec>, i: nat, item: Rec)
    requires AllInside(s, items) && i < |items| && Inside(s, item)
    ensures AllInside(s, ToFront(items, i, item)) && |ToFront(items, i, item)| == |items|
  {
  }

  /** The first item that takes the new one. */
  function MergeIndex(items: seq<Rec>, ins: Rec): (i: nat)
    ensures i <= |items| && (i < |items| ==> TryMerge(items[i], ins).Merged?)
    ensures forall j :: 0 <= j < i ==> TryMerge(items[j], ins) == NoMerge
  {
    if items == [] || TryMerge(items[0], ins).Merged? then 0 else 1 + MergeIndex(items[1..], ins)
  }

  /** Into the first item that the new one continues or meets, else as an item of its own, in place
      of the last when the cache is full. */
  function Inserted(items: seq<Rec>, ins: Rec): seq<Rec> {
    var i := MergeIndex(items, ins);
    if i < |items| then ToFront(items, i, TryMerge(items[i], ins).item)
    else if |items| < MAXITEMS then [ins] + items
    else ToFront(items, |items| - 1, ins)
  }

  /** Everything in the cache stays inside the file, and the new extent is answered next. */
  lemma InsertedInside(s: seq<Rec>, items: seq<Rec>, ins: Rec)
    requires Inside(s, ins) && AllInside(s, items) && |items| <= MAXITEMS
    ensures AllInside(s, Inserted(items, ins)) && 0 < |Inserted(items, ins)| <= MAXITEMS
    ensures forall c :: Covers(ins, c) ==> Covers(Inserted(items, ins)[0], c)
  {
    hide At;
    var i := MergeIndex(items, ins);
    if i < |items| {
      MergedIsInside(s, items[i], ins);
      FrontInside(s, items, i, TryMerge(items[i], ins).item);
    }
  }

  /** What is left of the items below a cluster. */
  function Below(items: seq<Rec>, cpos: int): (r: seq<Rec>)
    ensures |r| <= |items|
  {
    if items == [] then []
    else Below(items[..|items| - 1], cpos) +
         var last := items[|items| - 1];
         if last.cpos >= cpos then []
         else if End(last) > cpos then [last.(clusters := cpos - last.cpos)]
         else [last]
  }

  /** After a change of the file from cpos on, what is left is inside the new file. */
  lemma {:induction false} BelowInside(s: seq<Rec>, t: seq<Rec>, items: seq<Rec>, cpos: int)
    requires AllInside(s, items) && forall c :: c < cpos ==> At(t, c) == At(s, c)
    ensures AllInside(t, Below(items, cpos))
    ensures forall i :: 0 <= i < |Below(items, cpos)| ==> End(Below(items, cpos)[i]) <= cpos
  {
    hide At;
    if items != [] {
      var last := items[|items| - 1];
      BelowInside(s, t, items[..|items| - 1], cpos);
      assert Inside(s, last);
    }
  }

  /** The list of cached extents, the last used in front. */
  class ExtentCache {
    var items: seq<Rec>
    var numItems: nat

    ghost predicate Valid()
      reads this
    {
      numItems == |items| <= MAXITEMS
    }

    constructor ()
      ensures Valid() && items == []
    {
      items, numItems := [], 0;
    }

    /** ocfs2_extent_map_lookup(): the first item with the cluster answers and moves to the front. */
    method Lookup(cpos: int) returns (found: bool, phys: int, len: int, flags: bv8)
      requires Valid()
      modifies this`items
      ensures Valid()
      ensures found <==> exists i :: 0 <= i < |old(items)| && Covers(old(items)[i], cpos)
      ensures if found then
                exists i :: 0 <= i < |old(items)| && Covers(old(items)[i], cpos)
                            && (forall j :: 0 <= j < i ==> !Covers(old(items)[j], cpos))
                            && items == ToFront(old(items), i, old(items)[i])
                            && CellOf(old(items)[i], cpos) == Mapped(phys, flags) && cpos + len == End(old(items)[i])
              else items == old(items)
    {
      found, phys, len, flags := false, 0, 0, 0;
      var i := 0;
      while i < |items|
        invariant 0 <= i <= |items| && items == old(items)
        invariant forall j :: 0 <= j < i ==> !Covers(items[j], cpos)
      {
        var item := items[i];
        if item.cpos <= cpos < End(item) {
          assert Covers(old(items)[i], cpos);
          items := ToFront(items, i, item);
          found, flags := true, item.flags;
          phys, len := item.phys + (cpos - item.cpos), item.clusters - (cpos - item.cpos);
          return;
        }
        i := i + 1;
      }
    }

    /** A hit tells the truth about every cluster it claims. */
    method LookupSound(cpos: int, ghost s: seq<Rec>) returns (found: bool, phys: int, len: int, flags: bv8)
      requires Valid() && AllInside(s, items)
      modifies this`items
      ensures Valid() && AllInside(s, items)
      ensures found ==> len > 0 && forall c :: cpos <= c < cpos + len ==> At(s, c) == Mapped(phys + (c - cpos), flags)
    {
      hide At;
      ghost var was := items;
      found, phys, len, flags := Lookup(cpos);
      if found {
        ghost var i :| 0 <= i < |was| && Covers(was[i], cpos) && items == ToFront(was, i, was[i])
                       && CellOf(was[i], cpos) == Mapped(phys, flags) && cpos + len == End(was[i]);
        assert Inside(s, was[i]);
        FrontInside(s, was, i, was[i]);
        assert forall c :: cpos <= c < cpos + len ==> Covers(was[i], c);
      }
    }

    /** ocfs2_extent_map_trunc(). */
    method Trunc(cpos: int)
      requires Valid()
      modifies this
      ensures Valid() && items == Below(old(items), cpos)
    {
      var kept := [];
      var i := 0;
      while i < |items|
        invariant 0 <= i <= |items| && items == old(items)
        invariant kept == Below(items[..i], cpos) && numItems == |kept| + (|items| - i)
      {
        assert items[..i + 1][..i] == items[..i];
        var item := items[i];
        if item.cpos >= cpos {
          numItems := numItems - 1;
        } else if End(item) > cpos {
          kept := kept + [item.(clusters := cpos - item.cpos)];
        } else {
          kept := kept + [item];
        }
        i := i + 1;
      }
      assert items[..|items|] == items;
      items := kept;
    }

    /** ocfs2_extent_map_insert_rec(). */
    method Insert(ins: Rec)
      requires Valid()
      modifies this
      ensures Valid() && items == Inserted(old(items), ins)
    {
      var i := 0;
      while i < |items|
        invariant 0 <= i <= |items| && items == old(items)
        invariant forall j :: 0 <= j < i ==> TryMerge(items[j], ins) == NoMerge
      {
        var m := TryMerge(items[i], ins);
        if m.Merged? {
          assert i == MergeIndex(items, ins);
          items := ToFront(items, i, m.item);
          return;
        }
        i := i + 1;
      }
      assert MergeIndex(items, ins) == |items|;
      if numItems < MAXITEMS {
        items := [ins] + items;
        numItems := numItems + 1;
      } else {
        items := ToFront(items, |items| - 1, ins);
      }
    }
  }

  // ----- Holes -----

  /** ocfs2_search_for_hole_index(). */
  method SearchForHole(el: seq<Rec>, v: int) returns (i: nat)
    ensures i <= |el| && (i < |el| ==> v < el[i].cpos) && forall j :: 0 <= j < i ==> el[j].cpos <= v
  {
    i := 0;
    while i < |el| && v >= el[i].cpos
      invariant i <= |el| && forall j :: 0 <= j < i ==> el[j].cpos <= v
    {
      i := i + 1;
    }
  }

  const UINTMAX := 0xFFFF_FFFF

  /** The records from k on are those that begin behind v. */
  predicate NextIs(s: seq<Rec>, v: int, k: nat) {
    k <= |s| && (k > 0 ==> s[k - 1].cpos <= v) && (k < |s| ==> v < s[k].cpos)
  }

  /** A hole at v reaches to the next record. */
  lemma HoleReaches(s: seq<Rec>, v: int, k: nat)
    requires Sorted(s) && At(s, v) == Hole && NextIs(s, v, k)
    ensures forall c :: v <= c && (k < |s| ==> c < s[k].cpos) ==> At(s, c) == Hole
    ensures k < |s| ==> At(s, s[k].cpos) != Hole
  {
    AtHole(s, |s|, v);
    forall c | v <= c && (k < |s| ==> c < s[k].cpos)
      ensures At(s, c) == Hole
    {
      forall j | 0 <= j < |s|
        ensures !Covers(s[j], c)
      {
        assert !Covers(s[j], v);
        if j < k {
          assert s[j].cpos <= s[k - 1].cpos;
        } else {
          assert s[k].cpos <= s[j].cpos;
        }
      }
      AtHole(s, |s|, c);
    }
    if k < |s| {
      AtHit(s, |s|, k, s[k].cpos);
    }
  }

  /** The next record as the leaf for v shows it: in that leaf, or first in the next. */
  lemma NextInTree(t: ExtentTree, x: bool, v: int, i: nat)
    requires t.Valid(x) && v >= 0 && FindLeaf(t.root, v) < |t.S()|
    requires var el := t.S()[FindLeaf(t.root, v)].b.recs;
      && i <= |el| && (i < |el| ==> v < el[i].cpos) && (forall j :: 0 <= j < i ==> el[j].cpos <= v)
    ensures var p := FindLeaf(t.root, v); var el := t.S()[p].b.recs; var k := |FlatUpTo(t.S(), p)| + i;
      && NextIs(t.Records(), v, k)
      && (i < |el| ==> k < |t.Records()| && t.Records()[k] == el[i])
      && (i == |el| && p + 1 < |t.S()| ==>
            t.S()[p + 1].b.recs != [] && k < |t.Records()| && t.Records()[k] == t.S()[p + 1].b.recs[0])
      && (i == |el| && p + 1 == |t.S()| ==> k == |t.Records()|)
  {
    hide Slots, Shaped, Packed, Ranged, Good, Filled, FlatUpTo, SumRightmost, Chained, SolidBut;
    t.ShallowLeaf(x);
    if t.depth == 0 {
      FlatInline(Slot(0, t.root.b));
      NoneBefore(t.S());
    } else {
      t.FindsRange(v);
      NextInLeaf(t.S(), t.Hi(), x, t.cap, FindLeaf(t.root, v), v, i);
    }
  }

  lemma NextInLeaf(s: seq<Slot>, hi: int, x: bool, cap: nat, p: nat, v: int, i: nat)
    requires Tidy(s, hi, x, cap) && InRangeOf(s, p, v) && i <= |s[p].b.recs|
    requires (i < |s[p].b.recs| ==> v < s[p].b.recs[i].cpos) && forall j :: 0 <= j < i ==> s[p].b.recs[j].cpos <= v
    ensures var k := |FlatUpTo(s, p)| + i;
      && NextIs(Flat(s), v, k)
      && (i < |s[p].b.recs| ==> k < |Flat(s)| && Flat(s)[k] == s[p].b.recs[i])
      && (i == |s[p].b.recs| && p + 1 < |s| ==>
            s[p + 1].b.recs != [] && k < |Flat(s)| && Flat(s)[k] == s[p + 1].b.recs[0])
      && (i == |s[p].b.recs| && p + 1 == |s| ==> k == |Flat(s)|)
  {
    hide Good, Filled, SolidBut, FlatUpTo, Within;
    LeafHasRecords(s, hi, x, cap, p);
    if i > 0 {
      NextWhere(s, hi, x, cap, p, i - 1, |FlatUpTo(s, p)| + i - 1);
      if i == |s[p].b.recs| && p + 1 < |s| {
        FirstStarts(s, hi, x, cap, p + 1);
      }
    } else {
      PrevWhere(s, hi, x, cap, p, 0, |FlatUpTo(s, p)|);
      if p > 0 {
        LastEnds(s, hi, x, cap, p - 1);
      }
    }
  }

  lemma FirstStarts(s: seq<Slot>, hi: int, x: bool, cap: nat, p: nat)
    requires Tidy(s, hi, x, cap) && p < |s|
    ensures s[p].b.recs != [] && s[p].lo <= s[p].b.recs[0].cpos
  {
    hide Good, Filled, SolidBut;
    LeafHasRecords(s, hi, x, cap, p);
    TidyLeaf(s, hi, x, cap, p);
  }

  lemma LastEnds(s: seq<Slot>, hi: int, x: bool, cap: nat, p: nat)
    requires Tidy(s, hi, x, cap) && p + 1 < |s|
    ensures s[p].b.recs != [] && s[p].b.recs[|s[p].b.recs| - 1].cpos <= s[p + 1].lo
  {
    hide Good, Filled, SolidBut;
    LeafHasRecords(s, hi, x, cap, p);
    TidyLeaf(s, hi, x, cap, p);
  }

  /** ocfs2_figure_hole_clusters(): the length of the hole at v, to the next record of this leaf or
      of the next one, or to the largest cluster number. */
  method FigureHole(t: ExtentTree, ghost x: bool, v: int) returns (len: int)
    requires t.Valid(x) && 0 <= v && At(t.Records(), v) == Hole
    ensures v < UINTMAX ==> len > 0
    ensures forall c :: v <= c < v + len ==> At(t.Records(), c) == Hole
    ensures || At(t.Records(), v + len) != Hole
            || (v + len == UINTMAX && forall c :: v <= c ==> At(t.Records(), c) == Hole)
  {
    hide Slots, Shaped, Packed, Ranged, Good, Filled, FlatUpTo, SumRightmost, Chained, SolidBut, At;
    LeafThere(t, x, v);
    t.RecordsSorted(x);
    var p := FindLeaf(t.root, v);
    var el := Slots(t.root, 0)[p].b.recs;
    var i := SearchForHole(el, v);
    NextInTree(t, x, v, i);
    HoleReaches(t.Records(), v, |FlatUpTo(t.S(), p)| + i);
    if t.depth > 0 {
      t.NextIsNone(x, p);
    }
    DepthZero(t, x);
    if i == |el| && t.depth > 0 && Slots(t.root, 0)[p].b.next != 0 {
      el := Slots(t.root, 0)[p + 1].b.recs;
      i := SearchForHole(el, v);
      assert i == 0;
    }
    if i == |el| {
      len := UINTMAX - v;
    } else {
      len := el[i].cpos - v;
    }
  }

  lemma DepthZero(t: ExtentTree, x: bool)
    requires t.Valid(x)
    ensures t.depth == 0 ==> |t.S()| == 1
  {
    hide Slots, Shaped, Packed, Ranged, Good, Filled, FlatUpTo, SumRightmost, Chained, SolidBut;
    t.ShallowLeaf(x);
  }

  // ----- What the tree answers -----

  /** The answer for a cluster: its record, and whether that is the last of the file; or a hole and
      its length. */
  datatype Answer = InHole(len: int) | InRec(rec: Rec, isLast: bool)

  ghost predicate Answers(s: seq<Rec>, v: int, a: Answer) {
    match a
    case InHole(len) =>
      && At(s, v) == Hole && (v < UINTMAX ==> len > 0) && (forall c :: v <= c < v + len ==> At(s, c) == Hole)
      && (At(s, v + len) != Hole || (v + len == UINTMAX && forall c :: v <= c ==> At(s, c) == Hole))
    case InRec(rec, isLast) =>
      && Covers(rec, v) && (forall c :: Covers(rec, c) ==> At(s, c) == CellOf(rec, c)) && rec.clusters > 0
      && (isLast <==> forall c :: c >= End(rec) ==> At(s, c) == Hole)
  }

  lemma RecAnswers(s: seq<Rec>, v: int, k: nat)
    requires Sorted(s) && k < |s| && Covers(s[k], v)
    ensures Answers(s, v, InRec(s[k], k == |s| - 1))
  {
    forall c | Covers(s[k], c)
      ensures At(s, c) == CellOf(s[k], c)
    {
      AtHit(s, |s|, k, c);
    }
    if k == |s| - 1 {
      forall c | c >= End(s[k])
        ensures At(s, c) == Hole
      {
        AtMiss(s, |s|, c);
      }
    } else {
      AtHit(s, |s|, k + 1, s[k + 1].cpos);
      assert s[k + 1].cpos >= End(s[k]) && At(s, s[k + 1].cpos) != Hole;
    }
  }

  /** ocfs2_get_clusters_nocache(): the answer is right for the whole tree, although it comes from
      one leaf and, for holes and last records, a look at its neighbour. */
  method GetClustersNocache(t: ExtentTree, ghost x: bool, v: int) returns (a: Answer)
    requires t.Valid(x) && 0 <= v
    ensures Answers(t.Records(), v, a)
  {
    hide Slots, Shaped, Packed, Ranged, Good, Filled, FlatUpTo, SumRightmost, Chained, SolidBut, At;
    LeafThere(t, x, v);
    t.RecordsSorted(x);
    t.FindIsAt(x, v);
    var p := FindLeaf(t.root, v);
    var el := Slots(t.root, 0)[p].b.recs;
    var i := Search(el, v);
    SearchHit(el, v);
    if i == -1 {
      var len := FigureHole(t, x, v);
      return InHole(len);
    }
    ghost var k := t.FoundAt(x, p, i, v);
    RecAnswers(t.Records(), v, k);
    LastInTree(t, x, p, i, k);
    var isLast := false;
    if i == |el| - 1 {
      if t.depth == 0 || Slots(t.root, 0)[p].b.blk == t.lastEb {
        isLast := true;
      } else if Slots(t.root, 0)[p].b.next == t.lastEb {
        isLast := NoRecords(Slots(t.root, 0)[p + 1].b.recs);
      }
    }
    a := InRec(el[i], isLast);
  }

  lemma SearchHit(el: seq<Rec>, v: int)
    ensures Search(el, v) == -1 <==> At(el, v) == Hole
  {
    AtHole(el, |el|, v);
  }

  /** A record is the last of all exactly when it is the last of the rightmost leaf; and the next
      leaf is never empty. */
  lemma LastInTree(t: ExtentTree, x: bool, p: nat, i: nat, k: nat)
    requires t.Valid(x) && p < |t.S()| && i < |t.S()[p].b.recs| && k < |t.Records()|
    requires if t.depth == 0 then p == 0 && i == k else IsAt(t.S(), p, i, k)
    ensures var b := t.S()[p].b;
      && (k == |t.Records()| - 1 <==> i == |b.recs| - 1 && (t.depth == 0 || b.blk == t.lastEb))
      && (t.depth > 0 && b.blk != t.lastEb ==> p + 1 < |t.S()| && !NoRecords(t.S()[p + 1].b.recs))
  {
    hide Slots, Shaped, Packed, Ranged, Good, Filled, FlatUpTo, SumRightmost, SolidBut;
    t.ShallowLeaf(x);
    if t.depth == 0 {
      FlatInline(Slot(0, t.root.b));
    } else {
      NextWhere(t.S(), t.Hi(), x, t.cap, p, i, k);
      if p + 1 < |t.S()| {
        LeafHasRecords(t.S(), t.Hi(), x, t.cap, p + 1);
      }
    }
  }

  // ----- The file: its tree and its cache -----

  class FileMap {
    const tree: ExtentTree
    const cache: ExtentCache

    /** The cache agrees with the tree. */
    ghost predicate Valid(x: bool)
      reads this, tree, cache
    {
      tree.Valid(x) && cache.Valid() && AllInside(tree.Records(), cache.items)
    }

    constructor (tree: ExtentTree, ghost x: bool)
      requires tree.Valid(x)
      ensures Valid(x) && this.tree == tree && fresh(cache)
    {
      this.tree := tree;
      cache := new ExtentCache();
    }

    /** ocfs2_get_clusters(): from the cache, or from the tree and then into the cache.  Either way
        what it says of a cluster and those behind it is what the tree has; for a hole the
        physical cluster is 0. */
    method GetClusters(ghost x: bool, v: int) returns (phys: int, len: int, flags: bv8, hit: bool)
      requires Valid(x) && 0 <= v
      modifies cache
      ensures Valid(x)
      ensures if At(tree.Records(), v) == Hole then
                phys == 0 && flags == 0 && !hit && Answers(tree.Records(), v, InHole(len))
              else
                len > 0 && forall c :: v <= c < v + len ==> At(tree.Records(), c) == Mapped(phys + (c - v), flags)
    {
      hide At, Slots, Shaped, Packed, Ranged, Good, Filled, FlatUpTo, SumRightmost, Chained, SolidBut;
      hit, phys, len, flags := cache.LookupSound(v, tree.Records());
      if hit {
        return;
      }
      var a := GetClustersNocache(tree, x, v);
      if a.InHole? {
        phys, len, flags := 0, a.len, 0;
        return;
      }
      var rec := a.rec;
      phys, len, flags := rec.phys + (v - rec.cpos), rec.clusters - (v - rec.cpos), rec.flags;
      InsertedInside(tree.Records(), cache.items, rec);
      cache.Insert(rec);
      assert forall c :: v <= c < v + len ==> Covers(rec, c);
    }

    /** ocfs2_insert_extent(), which puts the new record in the cache as well: the items that were there
        stay right, and the next question about a cluster of the record is answered from the front. */
    method AddExtent(ghost x: bool, r: Rec, maxLeaf: nat)
      requires Valid(x) && Fits(r) && Apart(tree.Records(), r)
      modifies tree, cache
      ensures cache.items == Inserted(old(cache.items), r)
      ensures forall c :: Covers(r, c) && old(!tree.Overruns(r, maxLeaf)) ==>
              cache.items != [] && Covers(cache.items[0], c)
      ensures old(!tree.Overruns(r, maxLeaf)) ==> Valid(x) && Updated(old(tree.Records()), tree.Records(), r)
    {
      hide At, Slots, Shaped, Packed, Ranged, Good, Filled, FlatUpTo, SumRightmost, Chained, SolidBut, Apart, Inserted;
      ghost var s, items, kept := tree.Records(), cache.items, !tree.Overruns(r, maxLeaf);
      tree.InsertExtent(x, r, maxLeaf);
      if kept {
        StillInside(s, tree.Records(), items, r);
        InsertedInside(tree.Records(), items, r);
      }
      cache.Insert(r);
    }

    /** ocfs2_mark_extent_written() and other changes of flags: the cache is emptied first. */
    method ChangeFlags(ghost x: bool, cpos: int, len: int, phys: int, newFlags: bv8, clearFlags: bv8)
      returns (status: Status)
      requires Valid(x) && cpos >= 0 && len > 0
      modifies tree, cache
      ensures Valid(x)
      ensures forall k :: 0 <= k < |old(tree.Records())| && Covers(old(tree.Records())[k], cpos) && status == Done ==>
                var rec := old(tree.Records())[k];
                Updated(old(tree.Records()), tree.Records(),
                    Rec(cpos, len, phys, ChangedFlags(rec.flags, newFlags, clearFlags)))
    {
      hide At, Slots, Shaped, Packed, Ranged, Good, Filled, FlatUpTo, SumRightmost, Chained, SolidBut, Updated;
      tree.RecordsSorted(x);
      EmptiedCache(tree.Records(), cache.items);
      cache.Trunc(0);
      status := tree.ChangeExtentFlag(x, cpos, len, phys, newFlags, clearFlags);
    }

    /** ocfs2_remove_extent(), which empties the cache first. */
    method Remove(ghost x: bool, cpos: int, len: int) returns (ok: bool)
      requires Valid(x) && cpos >= 0 && len > 0 && tree.InOneRecord(cpos, len)
      modifies tree, cache
      ensures Valid(x && old(!tree.CutsLone(cpos, len)))
      ensures old(tree.CutsLone(cpos, len)) ==> !Valid(true)
      ensures ok ==> Removed(old(tree.Records()), tree.Records(), cpos, cpos + len)
    {
      hide At, Slots, Shaped, Packed, Ranged, Good, Filled, FlatUpTo, SumRightmost, Chained, SolidBut, Removed;
      tree.RecordsSorted(x);
      EmptiedCache(tree.Records(), cache.items);
      cache.Trunc(0);
      ok := tree.RemoveExtent(x, cpos, len);
    }

    /** The tail truncation, which cuts the cache at the new end; each removal then empties it. */
    method Truncate(ghost x: bool, high: int, clusters: int) returns (left: int)
      requires Valid(x) && high >= 0 && clusters == Total(tree.Records())
      requires tree.Records() != [] ==> End(tree.Records()[|tree.Records()| - 1]) <= LAST
      modifies tree, cache
      ensures Valid(x) && CutOff(old(tree.Records()), tree.Records(), high) && left == Total(tree.Records())
    {
      hide At, Slots, Shaped, Packed, Ranged, Good, Filled, FlatUpTo, SumRightmost, Chained, SolidBut, Total;
      ghost var s, items := tree.Records(), cache.items;
      cache.Trunc(high);
      left := CommitTruncate(tree, x, high, clusters);
      BelowInside(s, tree.Records(), items, high);
      if left != clusters {
        tree.RecordsSorted(x);
        EmptiedCache(tree.Records(), cache.items);
        cache.Trunc(0);
      }
    }
  }

  lemma StillInside(s: seq<Rec>, t: seq<Rec>, items: seq<Rec>, r: Rec)
    requires AllInside(s, items) && Updated(s, t, r) && Apart(s, r)
    ensures AllInside(t, items)
  {
    hide At;
    forall i, c | 0 <= i < |items| && Covers(items[i], c)
      ensures At(t, c) == CellOf(items[i], c)
    {
      assert Inside(s, items[i]);
      if Covers(r, c) {
        ApartHole(s, r, c);
      }
    }
  }

  /** Truncating at 0 leaves nothing: the items of a file begin at 0 or later. */
  lemma EmptiedCache(s: seq<Rec>, items: seq<Rec>)
    requires AllInside(s, items) && Sorted(s)
    ensures Below(items, 0) == []
  {
    if items != [] {
      var last := items[|items| - 1];
      assert Inside(s, last) && Covers(last, last.cpos);
      assert At(s, last.cpos) != Hole;
      AtHole(s, |s|, last.cpos);
      EmptiedCache(s, items[..|items| - 1]);
    }
  }

  // ----- Seeking data and holes -----

  const UNWRITTEN: bv8 := 1

  /** The cluster holds written data. */
  ghost predicate IsData(s: seq<Rec>, c: int) {
    At(s, c) != Hole && At(s, c).flags & UNWRITTEN == 0
  }

  /** The byte at o, with clusters of `cs` bytes, is what is looked for. */
  ghost predicate Wanted(s: seq<Rec>, cs: nat, data: bool, o: int)
    requires cs > 0 && o >= 0
  {
    IsData(s, o / cs) == data
  }

  lemma InCluster(o: int, cs: int, c: int)
    requires cs > 0 && o >= 0 && c >= 0
    ensures o / cs >= c <==> o >= c * cs
  {
    var q, r := o / cs, o % cs;
    assert o == q * cs + r;
    if q >= c {
      assert q * cs >= c * cs;
    } else {
      assert (q + 1) * cs <= c * cs;
    }
  }

  /** ocfs2_clusters_for_bytes(). */
  function ClustersFor(bytes: int, cs: int): int
    requires cs > 0
  {
    (bytes + cs - 1) / cs
  }

  lemma ClustersCover(bytes: int, cs: int, o: int)
    requires cs > 0 && 0 <= o < bytes
    ensures o / cs < ClustersFor(bytes, cs)
    ensures ClustersFor(bytes, cs) * cs >= bytes && (ClustersFor(bytes, cs) - 1) * cs < bytes
  {
    var n := ClustersFor(bytes, cs);
    InCluster(bytes + cs - 1, cs, n);
    InCluster(bytes + cs - 1, cs, n + 1);
    assert (n + 1) * cs == n * cs + cs && (n - 1) * cs == n * cs - cs;
    InCluster(o, cs, n);
  }

  /** All clusters of the range are wanted, or none. */
  ghost predicate Same(s: seq<Rec>, lo: int, hi: int, data: bool) {
    forall c :: lo <= c < hi ==> IsData(s, c) == data
  }

  /** r is the first byte from offset on that is wanted, before the end of the file. */
  ghost predicate First(s: seq<Rec>, cs: nat, data: bool, offset: int, r: int)
    requires cs > 0 && offset >= 0
  {
    offset <= r && Wanted(s, cs, data, r) && forall o :: offset <= o < r ==> !Wanted(s, cs, data, o)
  }

  /** No wanted cluster means no wanted byte. */
  lemma NoneBytes(s: seq<Rec>, cs: nat, data: bool, offset: int, c: int, r: int)
    requires cs > 0 && 0 <= offset && 0 <= c && Same(s, offset / cs, c, !data) && r <= c * cs
    ensures forall o :: offset <= o < r ==> !Wanted(s, cs, data, o)
  {
    forall o | offset <= o < r
      ensures !Wanted(s, cs, data, o)
    {
      InCluster(o, cs, offset / cs);
      InCluster(offset, cs, offset / cs);
      InCluster(o, cs, c);
    }
  }

  /** A wanted cluster that follows unwanted ones starts with the first wanted byte. */
  lemma FirstByte(s: seq<Rec>, cs: nat, data: bool, offset: int, c: int)
    requires cs > 0 && 0 <= offset && offset / cs <= c && Same(s, offset / cs, c, !data) && IsData(s, c) == data
    ensures First(s, cs, data, offset, if c * cs > offset then c * cs else offset)
  {
    var r := if c * cs > offset then c * cs else offset;
    NoneBytes(s, cs, data, offset, c, if c * cs < r then c * cs else r);
    InCluster(r, cs, c);
    InCluster(r, cs, c + 1);
    InCluster(offset, cs, c + 1);
    assert (c + 1) * cs == c * cs + cs;
    if c * cs <= offset {
      InCluster(offset, cs, c);
    }
  }

  /** What a seek promises: the first byte of the kind, or that there is none before the end of the
      file, which for holes is the answer then. */
  ghost predicate SeekIs(s: seq<Rec>, cs: nat, offset: int, size: int, data: bool, ok: bool, r: int)
    requires cs > 0 && offset >= 0
  {
    if ok && (data || r != size) then r < size && First(s, cs, data, offset, r)
    else (ok <==> !data) && forall o :: offset <= o < size ==> !Wanted(s, cs, data, o)
  }

  /** The clusters that an answer speaks of. */
  function Extent(v: int, a: Answer): int {
    if a.InHole? then a.len else a.rec.clusters - (v - a.rec.cpos)
  }

  lemma SameData(s: seq<Rec>, v: int, a: Answer)
    requires Answers(s, v, a) && 0 <= v < UINTMAX
    ensures Extent(v, a) > 0 && Same(s, v, v + Extent(v, a), a.InRec? && a.rec.flags & UNWRITTEN == 0)
    ensures a.InRec? && a.isLast ==> forall c :: c >= v + Extent(v, a) ==> At(s, c) == Hole
  {
    hide At;
    if a.InRec? {
      assert forall c :: v <= c < v + Extent(v, a) ==> Covers(a.rec, c);
    }
  }

  lemma SeekFound(s: seq<Rec>, cs: nat, offset: int, size: int, data: bool, c: int)
    requires cs > 0 && 0 <= offset < size && offset / cs <= c < ClustersFor(size, cs)
    requires Same(s, offset / cs, c, !data) && IsData(s, c) == data
    ensures SeekIs(s, cs, offset, size, data, true, if c * cs > offset then c * cs else offset)
  {
    hide IsData;
    FirstByte(s, cs, data, offset, c);
    ClustersCover(size, cs, offset);
    Times(c, ClustersFor(size, cs) - 1, cs);
  }

  lemma Times(a: int, b: int, cs: int)
    requires a <= b && cs > 0
    ensures a * cs <= b * cs
  {
  }

  /** When the loop ends without an answer, there is none, or the hole behind the last extent. */
  lemma SeekEnds(s: seq<Rec>, cs: nat, offset: int, size: int, data: bool, cpos: int, clen: int, isLast: bool)
    requires cs > 0 && 0 <= offset < size && offset / cs <= cpos && clen > 0
    requires Same(s, offset / cs, cpos, !data) && (!isLast ==> cpos >= ClustersFor(size, cs))
    requires isLast ==> Same(s, offset / cs, cpos + clen, !data) && forall c :: c >= cpos + clen ==> At(s, c) == Hole
    ensures data ==> SeekIs(s, cs, offset, size, data, false, offset)
    ensures var extoff := (if cpos * cs + clen * cs > size then size else cpos * cs + clen * cs);
      !data ==> SeekIs(s, cs, offset, size, data, true, if extoff > offset then extoff else offset)
  {
    hide At, Wanted;
    ClustersCover(size, cs, offset);
    var n := ClustersFor(size, cs);
    var e := cpos + clen;
    assert e * cs == cpos * cs + clen * cs;
    if !isLast {
      Times(n, cpos, cs);
      Times(1, clen, cs);
      NoneBytes(s, cs, data, offset, cpos, size);
    } else if data {
      var m := if e > n then e else n;
      Times(n, m, cs);
      NoneBytes(s, cs, data, offset, m, size);
    } else if e * cs >= size {
      NoneBytes(s, cs, data, offset, e, size);
    } else {
      FirstByte(s, cs, data, offset, e);
    }
  }

  /** ocfs2_seek_data_hole_offset(): for data, the first written byte from the offset on, or none
      before the end of the file; for holes, the first byte in a hole or an unwritten extent, or the
      end of the file. */
  method SeekDataHole(t: ExtentTree, ghost x: bool, isInline: bool, offset: int, size: int, cs: nat, data: bool)
    returns (ok: bool, r: int)
    requires t.Valid(x) && 0 <= offset && cs > 0 && ClustersFor(size, cs) <= UINTMAX
    ensures offset >= size ==> !ok
    ensures offset < size && isInline ==> ok && r == if data then offset else size
    ensures offset < size && !isInline ==> SeekIs(t.Records(), cs, offset, size, data, ok, r)
  {
    hide Slots, Shaped, Packed, Ranged, Good, Filled, FlatUpTo, SumRightmost, Chained, SolidBut, At, IsData, SeekIs,
      ClustersFor;
    ok, r := true, offset;
    if offset >= size {
      return false, offset;
    }
    if isInline {
      return true, if data then offset else size;
    }
    ghost var s := t.Records();
    var start, cend := offset / cs, ClustersFor(size, cs);
    ClustersCover(size, cs, offset);
    var cpos, clen, isLast := start, 0, false;
    while cpos < cend && !isLast
      invariant start <= cpos && Same(s, start, cpos, !data) && clen >= 0 && (clen == 0 ==> cpos < cend)
      invariant isLast ==> clen > 0 && Same(s, start, cpos + clen, !data)
      invariant isLast ==> forall c :: c >= cpos + clen ==> At(s, c) == Hole
      decreases cend - cpos, !isLast
    {
      var a := GetClustersNocache(t, x, cpos);
      SameData(s, cpos, a);
      var isData := a.InRec? && a.rec.flags & UNWRITTEN == 0;
      clen := Extent(cpos, a);
      isLast := a.InRec? && a.isLast;
      assert IsData(s, cpos) == isData;
      if isData == data {
        SeekFound(s, cs, offset, size, data, cpos);
        return true, if cpos * cs > offset then cpos * cs else offset;
      }
      if !isLast {
        cpos := cpos + clen;
      }
    }
    SeekEnds(s, cs, offset, size, data, cpos, clen, isLast);
    if data {
      return false, offset;
    }
    var extoff, extlen := cpos * cs, clen * cs;
    if extoff + extlen > size {
      extlen := size - extoff;
    }
    extoff := extoff + extlen;
    r := if extoff > offset then extoff else offset;
  }
}
