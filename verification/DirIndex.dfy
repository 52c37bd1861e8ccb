/** The hash index of a directory (dir.c): a list of entries in the index root, or clusters of leaf
    blocks in an extent tree keyed by the major hash.  The block within a cluster comes from the
    minor hash. */
module DirIndex {
  import opened ExtentLeaf
  import opened ExtentBTree
  import opened ExtentPatch
  import opened ExtentLeaves
  import opened ExtentTree
  import opened ExtentTruncate

  datatype Hash = Hash(major: nat, minor: nat)

  /** An index entry: the hash of a name and the block of entries that has it. */
  datatype Entry = Entry(hash: Hash, blk: nat)

  // ----- Lists of entries -----

  function WithoutEntry(l: seq<Entry>, i: nat): seq<Entry>
    requires i < |l|
  {
    l[..i] + l[i + 1..]
  }

  lemma RemovedCount(l: seq<Entry>, i: nat)
    requires i < |l|
    ensures multiset(WithoutEntry(l, i)) == multiset(l) - multiset{l[i]} && l[i] in multiset(l)
    ensures |WithoutEntry(l, i)| == |l| - 1 && forall j :: 0 <= j < |l| - 1 ==> WithoutEntry(l, i)[j] in l
  {
    assert l == l[..i] + [l[i]] + l[i + 1..];
  }

  lemma OwnerNat(s: seq<Rec>, h: int, c: int)
    requires OwnerIs(s, h, c)
    ensures 0 <= c <= h
  {
  }

  /** The entries on one side of a major hash, in order. */
  function Side(l: seq<Entry>, split: nat, upper: bool): (r: seq<Entry>)
    ensures |r| <= |l|
  {
    if l == [] then []
    else Side(l[..|l| - 1], split, upper) + if (l[|l| - 1].hash.major >= split) == upper then [l[|l| - 1]] else []
  }

  lemma {:induction false} SideCount(l: seq<Entry>, split: nat, upper: bool, e: Entry)
    ensures multiset(Side(l, split, upper))[e] == if (e.hash.major >= split) == upper then multiset(l)[e] else 0
  {
    if l != [] {
      var t := l[..|l| - 1];
      SideCount(t, split, upper, e);
      assert l == t + [l[|l| - 1]];
    }
  }

  /** The entries of one block of a cluster, in order. */
  function Bucket(l: seq<Entry>, n: nat, b: nat): (r: seq<Entry>)
    requires n > 0
    ensures |r| <= |l|
  {
    if l == [] then []
    else Bucket(l[..|l| - 1], n, b) + if l[|l| - 1].hash.minor % n == b then [l[|l| - 1]] else []
  }

  lemma {:induction false} BucketCount(l: seq<Entry>, n: nat, b: nat, e: Entry)
    requires n > 0
    ensures multiset(Bucket(l, n, b))[e] == if e.hash.minor % n == b then multiset(l)[e] else 0
  {
    if l != [] {
      var t := l[..|l| - 1];
      BucketCount(t, n, b, e);
      assert l == t + [l[|l| - 1]];
    }
  }

  predicate ByMajor(l: seq<Entry>) {
    forall i, j :: 0 <= i < j < |l| ==> l[i].hash.major <= l[j].hash.major
  }

  function SortedInsert(l: seq<Entry>, e: Entry): (r: seq<Entry>)
    requires ByMajor(l)
    ensures ByMajor(r) && |r| == |l| + 1
    ensures forall i :: 0 <= i < |r| ==> r[i] == e || r[i] in l
  {
    if l == [] then [e]
    else if l[|l| - 1].hash.major <= e.hash.major then l + [e]
    else SortedInsert(l[..|l| - 1], e) + [l[|l| - 1]]
  }

  lemma {:induction false} SortedInsertCount(l: seq<Entry>, e: Entry)
    requires ByMajor(l)
    ensures multiset(SortedInsert(l, e)) == multiset(l) + multiset{e}
  {
    if l != [] && l[|l| - 1].hash.major > e.hash.major {
      var t, last := l[..|l| - 1], l[|l| - 1];
      SortedInsertCount(t, e);
      assert l == t + [last];
      LastCounts(t, last);
      LastCounts(SortedInsert(t, e), last);
    }
  }

  /** The block is sorted before it is split. */
  function Sort(l: seq<Entry>): (r: seq<Entry>)
    ensures ByMajor(r) && |r| == |l|
  {
    if l == [] then [] else SortedInsert(Sort(l[..|l| - 1]), l[|l| - 1])
  }

  lemma {:induction false} SortKeeps(l: seq<Entry>)
    ensures multiset(Sort(l)) == multiset(l)
  {
    hide SortedInsert;
    if l != [] {
      var t, last := l[..|l| - 1], l[|l| - 1];
      SortKeeps(t);
      SortedInsertCount(Sort(t), last);
      assert l == t + [last];
      LastCounts(t, last);
    }
  }

  lemma LastCounts(l: seq<Entry>, e: Entry)
    ensures multiset(l + [e]) == multiset(l) + multiset{e}
  {
  }

  /** ocfs2_dx_leaf_same_major(). */
  method SameMajor(l: seq<Entry>) returns (same: bool)
    requires ByMajor(l)
    ensures same <==> forall i, j :: 0 <= i < j < |l| ==> l[i].hash.major == l[j].hash.major
  {
    var i := 0;
    while i < |l| - 1
      invariant i == 0 || i <= |l| - 1
      invariant forall j :: 0 <= j <= i < |l| ==> l[j].hash.major == l[0].hash.major
    {
      if l[i].hash.major != l[i + 1].hash.major {
        return false;
      }
      i := i + 1;
    }
    same := true;
  }

  /** Some entry, or the new one, will go to the new cluster. */
  predicate IsReached(l: seq<Entry>, insert: nat, split: nat) {
    split <= insert || exists i :: 0 <= i < |l| && split <= l[i].hash.major
  }

  /** ocfs2_dx_dir_find_leaf_split(): the hash from which on entries go to a new cluster.  It is
      refused exactly when all entries, and the new one, have the same major hash. */
  method FindLeafSplit(l: seq<Entry>, leafCpos: nat, insert: nat) returns (ok: bool, split: nat)
    requires ByMajor(l) && l != [] && leafCpos <= insert
    requires forall i :: 0 <= i < |l| ==> leafCpos <= l[i].hash.major
    ensures !ok <==> forall i :: 0 <= i < |l| ==> l[i].hash.major == insert
    ensures ok ==> leafCpos < split && IsReached(l, insert, split)
  {
    var same := SameMajor(l);
    ok, split := true, 0;
    if same {
      var val := l[0].hash.major;
      if val == insert {
        ok := false;
      } else if val == leafCpos {
        split := leafCpos + 1;
      } else if val > insert {
        split := val;
      } else {
        split := insert;
      }
      return;
    }
    var i := |l| / 2;
    assert l[|l| - 1].hash.major > leafCpos;
    while l[i].hash.major <= leafCpos
      invariant |l| / 2 <= i < |l|
      decreases |l| - i
    {
      i := i + 1;
    }
    split := l[i].hash.major;
  }

  /** ocfs2_dx_dir_transfer_leaf(), for one block. */
  method TransferBlock(l: seq<Entry>, split: nat) returns (kept: seq<Entry>, moved: seq<Entry>)
    ensures kept == Side(l, split, false) && moved == Side(l, split, true)
  {
    kept, moved := [], [];
    var j := 0;
    while j < |l|
      invariant 0 <= j <= |l|
      invariant kept == Side(l[..j], split, false) && moved == Side(l[..j], split, true)
    {
      assert l[..j + 1][..j] == l[..j];
      if l[j].hash.major >= split {
        moved := moved + [l[j]];
      } else {
        kept := kept + [l[j]];
      }
      j := j + 1;
    }
    assert l[..|l|] == l;
  }

  // ----- Where an entry belongs -----

  /** The allocated cluster with the largest number not above h. */
  ghost predicate OwnerIs(s: seq<Rec>, h: int, c: int) {
    0 <= c <= h && At(s, c) != Hole && forall d :: c < d <= h ==> At(s, d) == Hole
  }

  ghost function Owner(s: seq<Rec>, h: int): (c: int)
    requires h >= 0 && At(s, 0) != Hole
    ensures OwnerIs(s, h, c)
  {
    if At(s, h) != Hole then h else Owner(s, h - 1)
  }

  lemma OwnerOnce(s: seq<Rec>, h: int, c: int, d: int)
    requires OwnerIs(s, h, c) && OwnerIs(s, h, d)
    ensures c == d
  {
  }

  /** Splitting the range of cluster c at `split` is all a new cluster does. */
  lemma OwnerAfter(s: seq<Rec>, t: seq<Rec>, c: int, split: int, phys: int, h: int, d: int)
    requires Updated(s, t, Rec(split, 1, phys, 0)) && At(s, split) == Hole && OwnerIs(s, split, c)
    requires OwnerIs(s, h, d)
    ensures OwnerIs(t, h, if d == c && h >= split then split else d)
  {
    hide At;
    var r := Rec(split, 1, phys, 0);
    assert forall i :: Covers(r, i) <==> i == split;
    assert At(t, split) != Hole;
  }

  type Leaves = map<int, seq<seq<Entry>>>

  /** The blocks of a cluster, of which each entry has its place there. */
  ghost predicate ClusterOk(s: seq<Rec>, c: int, blocks: seq<seq<Entry>>, n: nat, perLeaf: nat) {
    && n > 0 && |blocks| == n
    && (forall b :: 0 <= b < n ==> |blocks[b]| <= perLeaf)
    && (forall b, i :: 0 <= b < n && 0 <= i < |blocks[b]| ==>
          OwnerIs(s, blocks[b][i].hash.major, c) && blocks[b][i].hash.minor % n == b)
  }

  /** Every allocated cluster has its blocks, and shares them with no other. */
  ghost predicate Placed(s: seq<Rec>, leaves: Leaves, n: nat, perLeaf: nat) {
    && n > 0 && At(s, 0) != Hole
    && (forall c :: At(s, c) != Hole ==> c >= 0 && At(s, c).flags == 0 && At(s, c).phys in leaves)
    && (forall c :: At(s, c) != Hole ==> ClusterOk(s, c, leaves[At(s, c).phys], n, perLeaf))
    && (forall c, d :: At(s, c) != Hole && At(s, d) != Hole && c != d ==> At(s, c).phys != At(s, d).phys)
  }

  /** The list in which an entry of this hash is, if there is one. */
  ghost function Home(s: seq<Rec>, leaves: Leaves, n: nat, perLeaf: nat, hash: Hash): (l: seq<Entry>)
    requires Placed(s, leaves, n, perLeaf)
  {
    leaves[At(s, Owner(s, hash.major)).phys][hash.minor % n]
  }

  ghost function Count(s: seq<Rec>, leaves: Leaves, n: nat, perLeaf: nat, e: Entry): nat
    requires Placed(s, leaves, n, perLeaf)
  {
    multiset(Home(s, leaves, n, perLeaf, e.hash))[e]
  }

  /** An entry that is in any block at all is in its home list. */
  lemma InHome(s: seq<Rec>, leaves: Leaves, n: nat, perLeaf: nat, c: int, b: nat, i: nat)
    requires Placed(s, leaves, n, perLeaf) && At(s, c) != Hole && b < n
    requires i < |leaves[At(s, c).phys][b]|
    ensures Home(s, leaves, n, perLeaf, leaves[At(s, c).phys][b][i].hash) == leaves[At(s, c).phys][b]
  {
    hide At;
    var e := leaves[At(s, c).phys][b][i];
    OwnerOnce(s, e.hash.major, c, Owner(s, e.hash.major));
  }

  // ----- Changing the index -----

  /** What a split does to the blocks of the cluster at p: the upper entries go to cluster q. */
  ghost predicate IsTransfer(leaves: Leaves, after: Leaves, p: int, q: int, split: nat, n: nat) {
    && p in leaves && q !in leaves && |leaves[p]| == n
    && p in after && q in after && |after[p]| == n && |after[q]| == n
    && (forall r :: r in leaves && r != p ==> r in after && after[r] == leaves[r])
    && (forall b :: 0 <= b < n ==>
          multiset(after[p][b]) == multiset(Side(leaves[p][b], split, false))
          && multiset(after[q][b]) == multiset(Side(leaves[p][b], split, true)))
  }

  lemma SideIn(l: seq<Entry>, t: seq<Entry>, split: nat, upper: bool, i: nat)
    requires multiset(t) == multiset(Side(l, split, upper)) && i < |t|
    ensures t[i] in l && ((t[i].hash.major >= split) == upper)
    ensures |t| <= |l|
  {
    assert t[i] in multiset(t);
    SideCount(l, split, upper, t[i]);
    assert t[i] in multiset(l);
    assert |multiset(t)| == |t| && |multiset(Side(l, split, upper))| == |Side(l, split, upper)|;
  }

  lemma OtherCluster(s: seq<Rec>, t: seq<Rec>, c: int, split: int, q: int, d: int, blocks: seq<seq<Entry>>,
                     n: nat, perLeaf: nat)
    requires Updated(s, t, Rec(split, 1, q, 0)) && At(s, split) == Hole && OwnerIs(s, split, c)
    requires ClusterOk(s, d, blocks, n, perLeaf) && d != c
    ensures ClusterOk(t, d, blocks, n, perLeaf)
  {
    hide OwnerIs, Updated, At;
    forall b, i | 0 <= b < n && 0 <= i < |blocks[b]|
      ensures OwnerIs(t, blocks[b][i].hash.major, d)
    {
      OwnerAfter(s, t, c, split, q, blocks[b][i].hash.major, d);
    }
  }

  lemma HalfCluster(s: seq<Rec>, t: seq<Rec>, c: int, split: nat, q: int, was: seq<seq<Entry>>, blocks: seq<seq<Entry>>,
                    upper: bool, n: nat, perLeaf: nat)
    requires Updated(s, t, Rec(split, 1, q, 0)) && At(s, split) == Hole && OwnerIs(s, split, c)
    requires ClusterOk(s, c, was, n, perLeaf) && |blocks| == n
    requires forall b :: 0 <= b < n ==> multiset(blocks[b]) == multiset(Side(was[b], split, upper))
    ensures ClusterOk(t, if upper then split else c, blocks, n, perLeaf)
  {
    hide OwnerIs, Updated, At, Side;
    forall b | 0 <= b < n
      ensures |blocks[b]| <= perLeaf
    {
      assert |multiset(blocks[b])| == |blocks[b]|;
      assert |multiset(Side(was[b], split, upper))| == |Side(was[b], split, upper)|;
    }
    forall b, i | 0 <= b < n && 0 <= i < |blocks[b]|
      ensures OwnerIs(t, blocks[b][i].hash.major, if upper then split else c) && blocks[b][i].hash.minor % n == b
    {
      SideIn(was[b], blocks[b], split, upper, i);
      var j :| 0 <= j < |was[b]| && was[b][j] == blocks[b][i];
      OwnerAfter(s, t, c, split, q, was[b][j].hash.major, c);
    }
  }

  /** A rebalance keeps every entry in its place and loses none. */
  lemma TransferPlaced(s: seq<Rec>, t: seq<Rec>, leaves: Leaves, after: Leaves, c: int, split: nat, q: int,
                       n: nat, perLeaf: nat)
    requires Placed(s, leaves, n, perLeaf) && OwnerIs(s, split, c) && At(s, split) == Hole
    requires Updated(s, t, Rec(split, 1, q, 0)) && IsTransfer(leaves, after, At(s, c).phys, q, split, n)
    ensures Placed(t, after, n, perLeaf)
  {
    hide ClusterOk, At, Side;
    var p := At(s, c).phys;
    assert OwnerIs(s, split, c) && At(s, c) != Hole;
    CellsAfter(s, t, split, q);
    forall d | At(t, d) != Hole
      ensures ClusterOk(t, d, after[At(t, d).phys], n, perLeaf)
    {
      if d == c {
        HalfCluster(s, t, c, split, q, leaves[p], after[p], false, n, perLeaf);
      } else if d == split {
        HalfCluster(s, t, c, split, q, leaves[p], after[q], true, n, perLeaf);
      } else {
        OtherCluster(s, t, c, split, q, d, leaves[At(s, d).phys], n, perLeaf);
      }
    }
  }

  lemma CellsAfter(s: seq<Rec>, t: seq<Rec>, split: int, q: int)
    requires Updated(s, t, Rec(split, 1, q, 0)) && At(s, split) == Hole
    ensures At(t, split) == Mapped(q, 0)
    ensures forall d :: d != split ==> At(t, d) == At(s, d)
  {
    hide At;
    var r := Rec(split, 1, q, 0);
    assert forall i :: Covers(r, i) <==> i == split;
  }

  lemma TransferCount(s: seq<Rec>, t: seq<Rec>, leaves: Leaves, after: Leaves, c: int, split: nat, q: int, n: nat,
                      perLeaf: nat,
                      e: Entry)
    requires Placed(s, leaves, n, perLeaf) && OwnerIs(s, split, c) && At(s, split) == Hole
    requires Updated(s, t, Rec(split, 1, q, 0)) && IsTransfer(leaves, after, At(s, c).phys, q, split, n)
    requires Placed(t, after, n, perLeaf)
    ensures Count(t, after, n, perLeaf, e) == Count(s, leaves, n, perLeaf, e)
  {
    hide ClusterOk, At, Side, Owner;
    CellsAfter(s, t, split, q);
    var d := Owner(s, e.hash.major);
    var b := e.hash.minor % n;
    var p := At(s, c).phys;
    OwnerAfter(s, t, c, split, q, e.hash.major, d);
    OwnerOnce(t, e.hash.major, Owner(t, e.hash.major), if d == c && e.hash.major >= split then split else d);
    if d == c {
      SideCount(leaves[p][b], split, false, e);
      SideCount(leaves[p][b], split, true, e);
    }
  }

  /** The blocks with another home list for a hash. */
  ghost function WithHome(s: seq<Rec>, leaves: Leaves, n: nat, perLeaf: nat, hash: Hash, l: seq<Entry>): Leaves
    requires Placed(s, leaves, n, perLeaf)
  {
    var p := At(s, Owner(s, hash.major)).phys;
    leaves[p := leaves[p][hash.minor % n := l]]
  }

  /** Putting one entry in its home list, or taking one out of it. */
  lemma HomePlaced(s: seq<Rec>, leaves: Leaves, n: nat, perLeaf: nat, hash: Hash, l: seq<Entry>)
    requires Placed(s, leaves, n, perLeaf) && |l| <= perLeaf
    requires forall i :: 0 <= i < |l| ==> l[i].hash == hash || l[i] in Home(s, leaves, n, perLeaf, hash)
    ensures var after := WithHome(s, leaves, n, perLeaf, hash, l);
      Placed(s, after, n, perLeaf) && Home(s, after, n, perLeaf, hash) == l
  {
    hide At, Owner;
    var c := Owner(s, hash.major);
    var p := At(s, c).phys;
    var b := hash.minor % n;
    var blocks := leaves[p][b := l];
    assert ClusterOk(s, c, leaves[p], n, perLeaf);
    assert ClusterOk(s, c, blocks, n, perLeaf) by {
      forall b', i | 0 <= b' < n && 0 <= i < |blocks[b']|
        ensures OwnerIs(s, blocks[b'][i].hash.major, c) && blocks[b'][i].hash.minor % n == b'
      {
        if b' == b && blocks[b'][i].hash != hash {
          var j :| 0 <= j < |leaves[p][b]| && leaves[p][b][j] == l[i];
        }
      }
    }
  }

  lemma HomeCount(s: seq<Rec>, leaves: Leaves, n: nat, perLeaf: nat, hash: Hash, l: seq<Entry>, e: Entry)
    requires Placed(s, leaves, n, perLeaf) && Placed(s, WithHome(s, leaves, n, perLeaf, hash, l), n, perLeaf)
    requires e.hash == hash || multiset(l)[e] == multiset(Home(s, leaves, n, perLeaf, hash))[e]
    ensures Count(s, WithHome(s, leaves, n, perLeaf, hash, l), n, perLeaf, e) ==
            Count(s, leaves, n, perLeaf, e) + multiset(l)[e] - multiset(Home(s, leaves, n, perLeaf, hash))[e]
  {
    hide At, Owner, ClusterOk;
    assert ClusterOk(s, Owner(s, hash.major), leaves[At(s, Owner(s, hash.major)).phys], n, perLeaf);
    BlocksAre(s, Owner(s, hash.major), leaves[At(s, Owner(s, hash.major)).phys], n, perLeaf);
    BlocksAre(s, Owner(s, e.hash.major), leaves[At(s, Owner(s, e.hash.major)).phys], n, perLeaf);
  }

  /** One entry more, or one less, in its home list. */
  lemma HomeInsert(s: seq<Rec>, leaves: Leaves, n: nat, perLeaf: nat, f: Entry)
    requires Placed(s, leaves, n, perLeaf) && |Home(s, leaves, n, perLeaf, f.hash)| < perLeaf
    ensures var after := WithHome(s, leaves, n, perLeaf, f.hash, Home(s, leaves, n, perLeaf, f.hash) + [f]);
      && Placed(s, after, n, perLeaf) && after.Keys == leaves.Keys
      && forall e: Entry :: Count(s, after, n, perLeaf, e) == Count(s, leaves, n, perLeaf, e) + if e == f then 1 else 0
  {
    hide Placed, WithHome, Home, Count;
    var l := Home(s, leaves, n, perLeaf, f.hash) + [f];
    HomePlaced(s, leaves, n, perLeaf, f.hash, l);
    forall e: Entry
      ensures var after := WithHome(s, leaves, n, perLeaf, f.hash, l);
        Count(s, after, n, perLeaf, e) == Count(s, leaves, n, perLeaf, e) + if e == f then 1 else 0
    {
      HomeCount(s, leaves, n, perLeaf, f.hash, l, e);
    }
    WithHomeKeys(s, leaves, n, perLeaf, f.hash, l);
  }

  lemma HomeRemove(s: seq<Rec>, leaves: Leaves, n: nat, perLeaf: nat, hash: Hash, i: nat)
    requires Placed(s, leaves, n, perLeaf) && i < |Home(s, leaves, n, perLeaf, hash)| <= perLeaf
    requires Home(s, leaves, n, perLeaf, hash)[i].hash == hash
    ensures var f := Home(s, leaves, n, perLeaf, hash)[i];
      var after := WithHome(s, leaves, n, perLeaf, hash, WithoutEntry(Home(s, leaves, n, perLeaf, hash), i));
      && Placed(s, after, n, perLeaf) && after.Keys == leaves.Keys
      && forall e: Entry :: Count(s, after, n, perLeaf, e) == Count(s, leaves, n, perLeaf, e) - if e == f then 1 else 0
  {
    hide Placed, WithHome, Home, Count, WithoutEntry;
    var was := Home(s, leaves, n, perLeaf, hash);
    RemovedCount(was, i);
    var l := WithoutEntry(was, i);
    HomePlaced(s, leaves, n, perLeaf, hash, l);
    forall e: Entry
      ensures var after := WithHome(s, leaves, n, perLeaf, hash, l);
        Count(s, after, n, perLeaf, e) == Count(s, leaves, n, perLeaf, e) - if e == was[i] then 1 else 0
    {
      HomeCount(s, leaves, n, perLeaf, hash, l, e);
    }
    WithHomeKeys(s, leaves, n, perLeaf, hash, l);
  }

  lemma WithHomeKeys(s: seq<Rec>, leaves: Leaves, n: nat, perLeaf: nat, hash: Hash, l: seq<Entry>)
    requires Placed(s, leaves, n, perLeaf)
    ensures WithHome(s, leaves, n, perLeaf, hash, l).Keys == leaves.Keys
  {
    hide At;
    assert OwnerIs(s, hash.major, Owner(s, hash.major));
  }

  lemma BlocksAre(s: seq<Rec>, c: int, blocks: seq<seq<Entry>>, n: nat, perLeaf: nat)
    requires ClusterOk(s, c, blocks, n, perLeaf)
    ensures n > 0 && |blocks| == n
  {
  }

  /** ocfs2_dx_dir_transfer_leaf(), for all blocks of the cluster. */
  method TransferCluster(blocks: seq<seq<Entry>>, split: nat) returns (kept: seq<seq<Entry>>, moved: seq<seq<Entry>>)
    ensures |kept| == |moved| == |blocks|
    ensures forall b :: 0 <= b < |blocks| ==> kept[b] == Side(blocks[b], split, false)
    ensures forall b :: 0 <= b < |blocks| ==> moved[b] == Side(blocks[b], split, true)
  {
    kept, moved := [], [];
    var i := 0;
    while i < |blocks|
      invariant |kept| == |moved| == i <= |blocks|
      invariant forall b :: 0 <= b < i ==>
                  kept[b] == Side(blocks[b], split, false) && moved[b] == Side(blocks[b], split, true)
    {
      var k, m := TransferBlock(blocks[i], split);
      kept, moved := kept + [k], moved + [m];
      i := i + 1;
    }
  }

  /** The loop of ocfs2_expand_inline_dx_root(): each entry to the block its minor hash chooses. */
  method Distribute(l: seq<Entry>, n: nat) returns (blocks: seq<seq<Entry>>)
    requires n > 0
    ensures |blocks| == n && forall b :: 0 <= b < n ==> blocks[b] == Bucket(l, n, b)
  {
    blocks := seq(n, _ => []);
    var i := 0;
    while i < |l|
      invariant 0 <= i <= |l| && |blocks| == n
      invariant forall b :: 0 <= b < n ==> blocks[b] == Bucket(l[..i], n, b)
    {
      assert l[..i + 1][..i] == l[..i];
      var j := l[i].hash.minor % n;
      blocks := blocks[j := blocks[j] + [l[i]]];
      i := i + 1;
    }
    assert l[..|l|] == l;
  }

  lemma OnlyCluster(s: seq<Rec>, phys: int)
    requires Updated([], s, Rec(0, 1, phys, 0))
    ensures At(s, 0) == Mapped(phys, 0) && forall c :: c != 0 ==> At(s, c) == Hole
  {
    assert At([], 0) == Hole;
    CellsAfter([], s, 0, phys);
    forall c
      ensures At([], c) == Hole
    {
    }
  }

  /** The first cluster takes over all entries of the root. */
  lemma ExpandPlaced(s: seq<Rec>, l: seq<Entry>, blocks: seq<seq<Entry>>, phys: int, n: nat, perLeaf: nat)
    requires n > 0 && |l| <= perLeaf && Updated([], s, Rec(0, 1, phys, 0))
    requires |blocks| == n && forall b :: 0 <= b < n ==> blocks[b] == Bucket(l, n, b)
    ensures Placed(s, map[phys := blocks], n, perLeaf)
    ensures forall e: Entry :: Count(s, map[phys := blocks], n, perLeaf, e) == multiset(l)[e]
  {
    hide At, Owner, Bucket;
    OnlyCluster(s, phys);
    assert ClusterOk(s, 0, blocks, n, perLeaf) by {
      forall b, i | 0 <= b < n && 0 <= i < |blocks[b]|
        ensures OwnerIs(s, blocks[b][i].hash.major, 0) && blocks[b][i].hash.minor % n == b
      {
        assert blocks[b][i] in multiset(blocks[b]);
        BucketCount(l, n, b, blocks[b][i]);
      }
    }
    forall e: Entry
      ensures Count(s, map[phys := blocks], n, perLeaf, e) == multiset(l)[e]
    {
      BucketCount(l, n, e.hash.minor % n, e);
      OwnerOnce(s, e.hash.major, 0, Owner(s, e.hash.major));
    }
  }

  /** Where a full block is split there is no cluster yet. */
  lemma SplitIsFree(s: seq<Rec>, h: int, c: int, split: int)
    requires OwnerIs(s, h, c) && c < split <= h
    ensures OwnerIs(s, split, c) && At(s, split) == Hole
  {
  }

  // ----- The index in place -----

  lemma HoleApart(s: seq<Rec>, c: int, phys: int)
    requires At(s, c) == Hole
    ensures Apart(s, Rec(c, 1, phys, 0))
  {
    AtHole(s, |s|, c);
  }

  /** The cluster that the last record not behind h gives. */
  function ClusterIn(rec: Rec, h: int): int {
    if h >= End(rec) then End(rec) - 1 else h
  }

  lemma LastIsOwner(s: seq<Rec>, k: nat, h: int)
    requires Sorted(s) && k < |s| && s[k].cpos <= h && forall j :: k < j < |s| ==> s[j].cpos > h
    ensures var c := ClusterIn(s[k], h); OwnerIs(s, h, c) && At(s, c) == CellOf(s[k], c)
  {
    var c := ClusterIn(s[k], h);
    AtHit(s, |s|, k, c);
    forall d | c < d <= h
      ensures At(s, d) == Hole
    {
      AtMiss(s, |s|, d);
    }
  }

  /** ocfs2_dx_dir_lookup_rec(): the last record of the leaf that does not start behind the hash is
      the last such record of the whole tree, and there is one. */
  lemma LookupFinds(t: ExtentTree, h: int, i: int)
    requires t.Valid(true) && At(t.Records(), 0) != Hole && h >= 0
    requires FindLeaf(t.root, h) < |t.S()| && IsLastBefore(t.S()[FindLeaf(t.root, h)].b.recs, i, h + 1)
    ensures 0 <= i < |t.S()[FindLeaf(t.root, h)].b.recs|
    ensures var rec := t.S()[FindLeaf(t.root, h)].b.recs[i]; var c := ClusterIn(rec, h);
      OwnerIs(t.Records(), h, c) && At(t.Records(), c) == CellOf(rec, c)
  {
    hide Slots, Shaped, Packed, Ranged, Good, Filled, FlatUpTo, SumRightmost, Chained, SolidBut, ClusterIn, OwnerIs;
    LastBefore(t, true, h, h + 1, i);
    t.RecordsSorted(true);
    if i < 0 {
      NeverBefore(t, h);
    } else {
      LastIsOwner(t.Records(), |FlatUpTo(t.S(), FindLeaf(t.root, h))| + i, h);
    }
  }

  /** The leaf for h has a record that does not start behind h. */
  lemma NeverBefore(t: ExtentTree, h: int)
    requires t.Valid(true) && At(t.Records(), 0) != Hole && h >= 0 && FindLeaf(t.root, h) < |t.S()|
    ensures !IsLastBefore(t.S()[FindLeaf(t.root, h)].b.recs, -1, h + 1)
  {
    hide Slots, Shaped, Packed, Ranged, Good, Filled, FlatUpTo, SumRightmost, Chained, SolidBut;
    var p := FindLeaf(t.root, h);
    if IsLastBefore(t.S()[p].b.recs, -1, h + 1) {
      LastBefore(t, true, h, h + 1, -1);
      t.ShallowLeaf(true);
      t.RecordsSorted(true);
      AtHole(t.Records(), |t.Records()|, 0);
      if t.depth > 0 {
        LeafHasRecords(t.S(), t.Hi(), true, t.cap, p);
        TidyLeaf(t.S(), t.Hi(), true, t.cap, p);
        LowestStart(t.S(), t.Hi(), true);
      }
    }
  }

  lemma NoneApart(r: Rec)
    ensures Apart([], r)
  {
  }

  /** Sorting a block changes no count. */
  lemma SortedHome(s: seq<Rec>, leaves: Leaves, n: nat, perLeaf: nat, hash: Hash, l: seq<Entry>)
    requires Placed(s, leaves, n, perLeaf) && multiset(l) == multiset(Home(s, leaves, n, perLeaf, hash))
    requires |l| <= perLeaf
    ensures var after := WithHome(s, leaves, n, perLeaf, hash, l);
      && Placed(s, after, n, perLeaf) && Home(s, after, n, perLeaf, hash) == l && after.Keys == leaves.Keys
      && forall e: Entry :: Count(s, after, n, perLeaf, e) == Count(s, leaves, n, perLeaf, e)
    ensures forall i :: 0 <= i < |l| ==> Owner(s, hash.major) <= l[i].hash.major
  {
    hide At, Owner, Count;
    var c := Owner(s, hash.major);
    assert ClusterOk(s, c, leaves[At(s, c).phys], n, perLeaf);
    forall i | 0 <= i < |l|
      ensures l[i] in Home(s, leaves, n, perLeaf, hash) && c <= l[i].hash.major
    {
      assert l[i] in multiset(l);
    }
    HomePlaced(s, leaves, n, perLeaf, hash, l);
    forall e: Entry
      ensures Count(s, WithHome(s, leaves, n, perLeaf, hash, l), n, perLeaf, e) == Count(s, leaves, n, perLeaf, e)
    {
      HomeCount(s, leaves, n, perLeaf, hash, l, e);
    }
    WithHomeKeys(s, leaves, n, perLeaf, hash, l);
  }

  lemma SplitPlace(s: seq<Rec>, leaves: Leaves, n: nat, perLeaf: nat, hash: Hash, split: nat)
    requires Placed(s, leaves, n, perLeaf)
    requires Owner(s, hash.major) < split && IsReached(Home(s, leaves, n, perLeaf, hash), hash.major, split)
    ensures OwnerIs(s, split, Owner(s, hash.major)) && At(s, split) == Hole
  {
    hide At, Owner;
    var c := Owner(s, hash.major);
    assert ClusterOk(s, c, leaves[At(s, c).phys], n, perLeaf);
    if split <= hash.major {
      SplitIsFree(s, hash.major, c, split);
    } else {
      var l := Home(s, leaves, n, perLeaf, hash);
      var i :| 0 <= i < |l| && split <= l[i].hash.major;
      SplitIsFree(s, l[i].hash.major, c, split);
    }
  }

  lemma BlocksOf(s: seq<Rec>, leaves: Leaves, n: nat, perLeaf: nat, c: int)
    requires Placed(s, leaves, n, perLeaf) && At(s, c) != Hole
    ensures At(s, c).phys in leaves && |leaves[At(s, c).phys]| == n
  {
  }

  lemma Transferred(s: seq<Rec>, t: seq<Rec>, leaves: Leaves, after: Leaves, c: int, split: nat, q: int, n: nat,
                    perLeaf: nat)
    requires Placed(s, leaves, n, perLeaf) && OwnerIs(s, split, c) && At(s, split) == Hole
    requires Updated(s, t, Rec(split, 1, q, 0)) && IsTransfer(leaves, after, At(s, c).phys, q, split, n)
    ensures Placed(t, after, n, perLeaf)
    ensures forall e: Entry :: Count(t, after, n, perLeaf, e) == Count(s, leaves, n, perLeaf, e)
  {
    hide Placed, At, Owner, Count, Updated, IsTransfer;
    TransferPlaced(s, t, leaves, after, c, split, q, n, perLeaf);
    forall e: Entry
      ensures Count(t, after, n, perLeaf, e) == Count(s, leaves, n, perLeaf, e)
    {
      TransferCount(s, t, leaves, after, c, split, q, n, perLeaf, e);
    }
  }

  /** Where in the index an entry is: in the root, or in a block of a cluster. */
  datatype Place = InRoot | InLeaf(phys: int, idx: nat)

  class DxIndex {
    const n: nat          // blocks in a cluster
    const perRoot: nat    // entries the root has room for
    const perLeaf: nat    // entries a leaf block has room for
    const tree: ExtentTree
    var isInline: bool
    var rootList: seq<Entry>
    var leaves: Leaves

    ghost predicate Valid()
      reads this, tree
    {
      && n > 0 && 0 < perRoot <= perLeaf && tree.Valid(true)
      && if isInline then tree.Records() == [] && |rootList| <= perRoot && leaves == map[]
         else Placed(tree.Records(), leaves, n, perLeaf)
    }

    /** How often the index has an entry. */
    ghost function Occurs(e: Entry): nat
      requires Valid()
      reads this, tree
    {
      if isInline then multiset(rootList)[e] else Count(tree.Records(), leaves, n, perLeaf, e)
    }

    predicate IsPlace(place: Place)
      reads this
    {
      match place
      case InRoot => isInline
      case InLeaf(phys, idx) => !isInline && phys in leaves && idx < |leaves[phys]|
    }

    function ListAt(place: Place): seq<Entry>
      requires IsPlace(place)
      reads this
    {
      match place
      case InRoot => rootList
      case InLeaf(phys, idx) => leaves[phys][idx]
    }

    /** The place is the one for entries of this hash. */
    ghost predicate AtHome(place: Place, hash: Hash)
      requires Valid()
      reads this, tree
    {
      if isInline then place == InRoot
      else place == InLeaf(At(tree.Records(), Owner(tree.Records(), hash.major)).phys, hash.minor % n)
    }

    /** ocfs2_dx_dir_attach_index(): an empty inline index. */
    constructor (n: nat, perRoot: nat, perLeaf: nat, rootCap: nat, cap: nat)
      requires n > 0 && 0 < perRoot <= perLeaf && 0 < rootCap < cap && cap >= 3
      ensures Valid() && fresh(tree) && isInline && rootList == []
      ensures this.n == n && this.perRoot == perRoot && this.perLeaf == perLeaf
      ensures forall e: Entry :: Occurs(e) == 0
    {
      this.n, this.perRoot, this.perLeaf := n, perRoot, perLeaf;
      isInline, rootList, leaves := true, [], map[];
      tree := new ExtentTree(rootCap, cap);
    }

    /** Where an entry is counted. */
    lemma HomeHas(place: Place, hash: Hash)
      requires Valid() && AtHome(place, hash)
      ensures IsPlace(place)
      ensures forall e: Entry :: e.hash == hash ==> Occurs(e) == multiset(ListAt(place))[e]
      ensures |ListAt(place)| <= if isInline then perRoot else perLeaf
    {
      hide At;
      if !isInline {
        assert OwnerIs(tree.Records(), hash.major, Owner(tree.Records(), hash.major));
      }
    }

    /** ocfs2_dx_dir_lookup(): the cluster with the largest number not above the major hash, and
        the block that the minor hash chooses there. */
    method Lookup(hash: Hash) returns (cpos: nat, phys: int)
      requires Valid() && !isInline
      ensures OwnerIs(tree.Records(), hash.major, cpos) && cpos == Owner(tree.Records(), hash.major)
      ensures At(tree.Records(), cpos).phys == phys && AtHome(InLeaf(phys, hash.minor % n), hash)
    {
      hide At, OwnerIs, Placed, Slots, Shaped, Packed, Ranged, Good, Filled, FlatUpTo, SumRightmost, Chained,
        SolidBut, Sorted, Tidy, Owner;
      ZeroMapped();
      LeafThere(tree, true, hash.major);
      var el := Slots(tree.root, 0)[FindLeaf(tree.root, hash.major)].b.recs;
      var i := FindRec(el, hash.major + 1);
      LookupFinds(tree, hash.major, i);
      var rec := el[i];
      var cend := End(rec);
      var c;
      if hash.major >= cend {
        c, phys := rec.cpos + (rec.clusters - 1), rec.phys + (rec.clusters - 1);
      } else {
        c, phys := hash.major, rec.phys + (hash.major - rec.cpos);
      }
      OwnerOnce(tree.Records(), hash.major, c, Owner(tree.Records(), hash.major));
      OwnerNat(tree.Records(), hash.major, c);
      cpos := c;
    }

    lemma ZeroMapped()
      requires Valid() && !isInline
      ensures At(tree.Records(), 0) != Hole
    {
    }

    /** ocfs2_dx_dir_insert(), into the place that was found for the hash. */
    method Insert(place: Place, hash: Hash, blk: nat)
      requires Valid() && AtHome(place, hash) && IsPlace(place)
      requires |ListAt(place)| < if isInline then perRoot else perLeaf
      modifies this
      ensures Valid() && isInline == old(isInline) && leaves.Keys == old(leaves).Keys
      ensures forall q :: IsPlace(q) <==> old(IsPlace(q))
      ensures forall q :: old(IsPlace(q)) ==>
                ListAt(q) == old(ListAt(q)) + if q == place then [Entry(hash, blk)] else []
      ensures forall e: Entry :: Occurs(e) == old(Occurs(e)) + if e == Entry(hash, blk) then 1 else 0
    {
      hide At, Placed, Count, Slots, Shaped, Packed, Ranged, Good, Filled, FlatUpTo, SumRightmost, Chained, SolidBut,
        Sorted, Tidy, Owner;
      var l := ListAt(place) + [Entry(hash, blk)];
      if isInline {
        rootList := l;
      } else {
        HomeInsert(tree.Records(), leaves, n, perLeaf, Entry(hash, blk));
        leaves := leaves[place.phys := leaves[place.phys][place.idx := l]];
      }
    }

    /** ocfs2_dx_list_remove_entry(). */
    method Remove(place: Place, i: nat)
      requires Valid() && IsPlace(place) && i < |ListAt(place)| && AtHome(place, ListAt(place)[i].hash)
      modifies this
      ensures Valid() && isInline == old(isInline) && leaves.Keys == old(leaves).Keys
      ensures forall e: Entry :: Occurs(e) == old(Occurs(e)) - if e == old(ListAt(place)[i]) then 1 else 0
    {
      hide At, Placed, Count, Slots, Shaped, Packed, Ranged, Good, Filled, FlatUpTo, SumRightmost, Chained, SolidBut,
        Sorted, Tidy, Owner, WithoutEntry;
      RemovedCount(ListAt(place), i);
      var l := WithoutEntry(ListAt(place), i);
      if isInline {
        rootList := l;
      } else {
        HomeHas(place, ListAt(place)[i].hash);
        HomeRemove(tree.Records(), leaves, n, perLeaf, ListAt(place)[i].hash, i);
        leaves := leaves[place.phys := leaves[place.phys][place.idx := l]];
      }
    }

    /** ocfs2_expand_inline_dx_root(): the entries move to a cluster of their own, at hash 0. */
    method ExpandInline(phys: int)
      requires Valid() && isInline
      modifies this, tree
      ensures Valid() && !isInline && leaves.Keys == {phys}
      ensures forall q :: IsPlace(q) ==> |ListAt(q)| <= old(|rootList|)
      ensures forall e: Entry :: Occurs(e) == old(Occurs(e))
    {
      hide At, Placed, Count, Slots, Shaped, Packed, Ranged, Good, Filled, FlatUpTo, SumRightmost, Chained, SolidBut,
        Sorted, Tidy, Owner, Updated, Apart;
      var blocks := Distribute(rootList, n);
      var r := Rec(0, 1, phys, 0);
      NoneApart(r);
      tree.ExactNeverOverruns(r, 0);
      tree.InsertExtent(true, r, 0);
      ExpandPlaced(tree.Records(), rootList, blocks, phys, n, perLeaf);
      leaves := map[phys := blocks];
      isInline, rootList := false, [];
    }

    /** ocfs2_dx_dir_rebalance(): a full block, and with it its cluster, is split by major hash into
        a new cluster.  It is refused only when the block is not full, or all its entries have the
        hash to insert. */
    method Rebalance(hash: Hash, cpos: nat, phys: int, newPhys: int) returns (ok: bool)
      requires Valid() && !isInline && newPhys !in leaves
      requires AtHome(InLeaf(phys, hash.minor % n), hash) && cpos == Owner(tree.Records(), hash.major)
      modifies this, tree
      ensures Valid() && !isInline && leaves.Keys <= old(leaves.Keys) + {newPhys}
      ensures forall e: Entry :: Occurs(e) == old(Occurs(e))
      ensures !ok ==> old(|ListAt(InLeaf(phys, hash.minor % n))|) < perLeaf
                      || forall e :: e in old(ListAt(InLeaf(phys, hash.minor % n))) ==> e.hash.major == hash.major
    {
      hide At, Placed, Count, Slots, Shaped, Packed, Ranged, Good, Filled, FlatUpTo, SumRightmost, Chained, SolidBut,
        Sorted, Tidy, Owner, Updated, Apart;
      HomeHas(InLeaf(phys, hash.minor % n), hash);
      ghost var was := ListAt(InLeaf(phys, hash.minor % n));
      if |leaves[phys][hash.minor % n]| < perLeaf {
        return false;
      }
      var l := SortBlock(hash, phys);
      var split;
      ok, split := FindLeafSplit(l, cpos, hash.major);
      if ok {
        SplitCluster(hash, cpos, phys, split, newPhys);
      } else {
        forall e | e in was
          ensures e.hash.major == hash.major
        {
          assert e in multiset(l);
        }
      }
    }

    method SortBlock(hash: Hash, phys: int) returns (l: seq<Entry>)
      requires Valid() && !isInline && AtHome(InLeaf(phys, hash.minor % n), hash)
      requires IsPlace(InLeaf(phys, hash.minor % n))
      modifies this
      ensures Valid() && !isInline && leaves.Keys == old(leaves.Keys)
      ensures forall e: Entry :: Occurs(e) == old(Occurs(e))
      ensures AtHome(InLeaf(phys, hash.minor % n), hash) && IsPlace(InLeaf(phys, hash.minor % n))
      ensures l == ListAt(InLeaf(phys, hash.minor % n)) && ByMajor(l)
      ensures multiset(l) == multiset(old(ListAt(InLeaf(phys, hash.minor % n))))
      ensures |l| == old(|ListAt(InLeaf(phys, hash.minor % n))|)
      ensures forall i :: 0 <= i < |l| ==> Owner(tree.Records(), hash.major) <= l[i].hash.major
    {
      hide At, Placed, Count, Slots, Shaped, Packed, Ranged, Good, Filled, FlatUpTo, SumRightmost, Chained, SolidBut,
        Sorted, Tidy, Owner;
      var idx := hash.minor % n;
      HomeHas(InLeaf(phys, idx), hash);
      l := Sort(leaves[phys][idx]);
      SortKeeps(leaves[phys][idx]);
      SortedHome(tree.Records(), leaves, n, perLeaf, hash, l);
      leaves := leaves[phys := leaves[phys][idx := l]];
    }

    method SplitCluster(hash: Hash, cpos: nat, phys: int, split: nat, newPhys: int)
      requires Valid() && !isInline && newPhys !in leaves && cpos == Owner(tree.Records(), hash.major)
      requires AtHome(InLeaf(phys, hash.minor % n), hash) && IsPlace(InLeaf(phys, hash.minor % n))
      requires cpos < split && IsReached(ListAt(InLeaf(phys, hash.minor % n)), hash.major, split)
      modifies this, tree
      ensures Valid() && !isInline && leaves.Keys == old(leaves.Keys) + {newPhys}
      ensures forall e: Entry :: Occurs(e) == old(Occurs(e))
    {
      hide At, Placed, Count, Slots, Shaped, Packed, Ranged, Good, Filled, FlatUpTo, SumRightmost, Chained, SolidBut,
        Sorted, Tidy, Owner, Updated, Apart, IsReached;
      ghost var s, was := tree.Records(), leaves;
      SplitPlace(s, leaves, n, perLeaf, hash, split);
      BlocksOf(s, leaves, n, perLeaf, cpos);
      var r := Rec(split, 1, newPhys, 0);
      HoleApart(s, split, newPhys);
      tree.ExactNeverOverruns(r, 0);
      tree.InsertExtent(true, r, 0);
      var kept, moved := TransferCluster(leaves[phys], split);
      leaves := leaves[phys := kept][newPhys := moved];
      Transferred(s, tree.Records(), was, leaves, cpos, split, newPhys, n, perLeaf);
    }

    /** ocfs2_find_dir_space_dx(): a place with room for the hash, after one rebalance at most. */
    method FindSpace(hash: Hash, newPhys: int) returns (ok: bool, place: Place)
      requires Valid() && !isInline && newPhys !in leaves
      modifies this, tree
      ensures Valid() && !isInline && leaves.Keys <= old(leaves.Keys) + {newPhys}
      ensures forall e: Entry :: Occurs(e) == old(Occurs(e))
      ensures ok ==> AtHome(place, hash) && IsPlace(place) && |ListAt(place)| < perLeaf
    {
      hide At, Placed, Count, Slots, Shaped, Packed, Ranged, Good, Filled, FlatUpTo, SumRightmost, Chained, SolidBut,
        Sorted, Tidy, Owner;
      var cpos, phys := Lookup(hash);
      place := InLeaf(phys, hash.minor % n);
      HomeHas(place, hash);
      if |ListAt(place)| >= perLeaf {
        ok := Rebalance(hash, cpos, phys, newPhys);
        if !ok {
          return;
        }
        cpos, phys := Lookup(hash);
        place := InLeaf(phys, hash.minor % n);
        HomeHas(place, hash);
      }
      ok := |ListAt(place)| < perLeaf;
    }
  }
}
