/** An indexed directory (dir.c): blocks of entries, a hash index over their names, and a linked list
    of the blocks that have room. */
module IndexedDir {
  import opened DirBlock
  import opened DirIndex
  import opened ExtentLeaf
  import opened ExtentBTree
  import opened ExtentLeaves
  import opened ExtentTree

  /** A block of entries with its trailer: the length of its largest hole as far as it is known, and
      the next block with room. */
  datatype Block = Block(l: seq<Dirent>, freeLen: nat, freeNext: nat)

  type Blocks = map<nat, Block>

  // ----- The list of blocks with room -----

  function NextIn(free: seq<nat>, i: nat): nat {
    if i < |free| then free[i] else 0
  }

  predicate Distinct(s: seq<nat>) {
    forall i, j :: 0 <= i < j < |s| ==> s[i] != s[j]
  }

  /** The links from the head on are the list `free`: it ends, has no block twice, and has exactly
      the blocks whose recorded free length is not zero. */
  ghost predicate FreeList(blocks: Blocks, head: nat, free: seq<nat>) {
    && Distinct(free) && head == NextIn(free, 0)
    && (forall i :: 0 <= i < |free| ==>
          free[i] != 0 && free[i] in blocks && blocks[free[i]].freeNext == NextIn(free, i + 1))
    && (forall b :: b in blocks ==> (b in free <==> blocks[b].freeLen != 0))
  }

  /** The list is determined by the links. */
  lemma {:induction false} FreeListOnce(blocks: Blocks, head: nat, f: seq<nat>, g: seq<nat>, i: nat)
    requires FreeList(blocks, head, f) && FreeList(blocks, head, g) && i <= |f| && i <= |g| && f[..i] == g[..i]
    ensures f == g
    decreases |f| - i
  {
    hide FreeList, Distinct;
    SameNext(blocks, head, f, g, i);
    if i < |f| && i < |g| {
      assert f[..i + 1] == f[..i] + [f[i]] && g[..i + 1] == g[..i] + [g[i]];
      FreeListOnce(blocks, head, f, g, i + 1);
    } else {
      assert f == f[..i] && g == g[..i];
    }
  }

  lemma SameNext(blocks: Blocks, head: nat, f: seq<nat>, g: seq<nat>, i: nat)
    requires FreeList(blocks, head, f) && FreeList(blocks, head, g) && i <= |f| && i <= |g| && f[..i] == g[..i]
    ensures (i < |f| <==> i < |g|) && (i < |f| ==> f[i] == g[i])
  {
    hide FreeList, Distinct;
    ListDistinct(blocks, head, f);
    ListDistinct(blocks, head, g);
    if i > 0 {
      assert f[i - 1] == f[..i][i - 1] == g[..i][i - 1] == g[i - 1];
      ListLink(blocks, head, f, i - 1);
      ListLink(blocks, head, g, i - 1);
    }
    if i < |f| {
      ListLink(blocks, head, f, i);
    }
    if i < |g| {
      ListLink(blocks, head, g, i);
    }
  }

  /** ocfs2_dx_dir_link_trailer(), and the same step of a delete: a block goes to the front. */
  lemma FreePushed(blocks: Blocks, head: nat, free: seq<nat>, b: nat, l: seq<Dirent>, len: nat)
    requires FreeList(blocks, head, free) && b != 0 && len > 0
    requires b in blocks ==> blocks[b].freeLen == 0
    ensures FreeList(blocks[b := Block(l, len, head)], b, [b] + free)
  {
    assert b !in free;
  }

  lemma FreeRelen(blocks: Blocks, head: nat, free: seq<nat>, b: nat, l: seq<Dirent>, len: nat)
    requires FreeList(blocks, head, free) && b in blocks && blocks[b].freeLen > 0 && len > 0
    ensures FreeList(blocks[b := Block(l, len, blocks[b].freeNext)], head, free)
  {
  }

  /** ocfs2_remove_block_from_free_list(): the link of the block before, or the head, skips it. */
  function Unlinked(blocks: Blocks, prev: nat, b: nat, l: seq<Dirent>): Blocks
    requires b in blocks && (prev != 0 ==> prev in blocks)
  {
    (if prev == 0 then blocks else blocks[prev := blocks[prev].(freeNext := blocks[b].freeNext)])[b := Block(l, 0, 0)]
  }

  function CutOut(free: seq<nat>, k: nat): (g: seq<nat>)
    requires k < |free|
    ensures |g| == |free| - 1
    ensures forall i :: 0 <= i < |g| ==> g[i] == if i < k then free[i] else free[i + 1]
  {
    free[..k] + free[k + 1..]
  }

  lemma CutOutHas(free: seq<nat>, k: nat)
    requires k < |free| && Distinct(free)
    ensures Distinct(CutOut(free, k)) && forall b :: b in CutOut(free, k) <==> b in free && b != free[k]
  {
    var g := CutOut(free, k);
    forall b | b in free && b != free[k]
      ensures b in g
    {
      var i :| 0 <= i < |free| && free[i] == b;
      assert g[if i < k then i else i - 1] == b;
    }
  }

  ghost predicate IsUnlinked(blocks: Blocks, after: Blocks, prev: nat, b: nat) {
    && b in blocks && after.Keys == blocks.Keys && after[b].freeLen == 0
    && (forall c :: c in blocks && c != b && (prev == 0 || c != prev) ==> after[c] == blocks[c])
    && (prev != 0 ==> prev in blocks && prev != b && after[prev] == blocks[prev].(freeNext := blocks[b].freeNext))
  }

  lemma UnlinkedAt(blocks: Blocks, prev: nat, b: nat, l: seq<Dirent>)
    requires b in blocks && (prev != 0 ==> prev in blocks && prev != b)
    ensures IsUnlinked(blocks, Unlinked(blocks, prev, b, l), prev, b)
  {
  }

  lemma ListLink(blocks: Blocks, head: nat, free: seq<nat>, i: nat)
    requires FreeList(blocks, head, free) && i < |free|
    ensures free[i] != 0 && free[i] in blocks && blocks[free[i]].freeNext == NextIn(free, i + 1)
  {
  }

  function PrevIn(free: seq<nat>, k: nat): nat
    requires k < |free|
  {
    if k == 0 then 0 else free[k - 1]
  }

  lemma UnlinkLink(blocks: Blocks, after: Blocks, head: nat, free: seq<nat>, k: nat, i: nat)
    requires FreeList(blocks, head, free) && k < |free| && i < |free| - 1
    requires IsUnlinked(blocks, after, PrevIn(free, k), free[k])
    ensures var j := if i < k then i else i + 1;
      free[j] != 0 && free[j] in after && after[free[j]].freeNext == NextIn(CutOut(free, k), i + 1)
  {
    hide FreeList;
    ListDistinct(blocks, head, free);
    ListLink(blocks, head, free, k);
    if i < k - 1 {
      ListLink(blocks, head, free, i);
      DistinctAt(free, i, k);
      DistinctAt(free, i, k - 1);
      assert after[free[i]] == blocks[free[i]];
    } else if i == k - 1 {
      ListLink(blocks, head, free, i);
    } else {
      ListLink(blocks, head, free, i + 1);
      DistinctAt(free, k, i + 1);
      assert after[free[i + 1]] == blocks[free[i + 1]];
    }
  }

  lemma UnlinkMember(blocks: Blocks, after: Blocks, head: nat, free: seq<nat>, k: nat, b: nat)
    requires FreeList(blocks, head, free) && k < |free| && IsUnlinked(blocks, after, PrevIn(free, k), free[k])
    requires b in after
    ensures b in CutOut(free, k) <==> after[b].freeLen != 0
  {
    hide CutOut, FreeList;
    ListDistinct(blocks, head, free);
    CutOutHas(free, k);
    assert b != free[k] ==> after[b].freeLen == blocks[b].freeLen;
  }

  lemma UnlinkedList(blocks: Blocks, after: Blocks, head: nat, free: seq<nat>, k: nat)
    requires FreeList(blocks, head, free) && k < |free| && IsUnlinked(blocks, after, PrevIn(free, k), free[k])
    ensures FreeList(after, if k == 0 then blocks[free[k]].freeNext else head, CutOut(free, k))
  {
    hide Distinct, FreeList, IsUnlinked;
    var g := CutOut(free, k);
    ListDistinct(blocks, head, free);
    CutOutHas(free, k);
    ListLink(blocks, head, free, k);
    forall i | 0 <= i < |g|
      ensures g[i] != 0 && g[i] in after && after[g[i]].freeNext == NextIn(g, i + 1)
    {
      UnlinkLink(blocks, after, head, free, k, i);
      assert g[i] == if i < k then free[i] else free[i + 1];
    }
    forall b | b in after
      ensures b in g <==> after[b].freeLen != 0
    {
      UnlinkMember(blocks, after, head, free, k, b);
    }
    IsFreeList(after, if k == 0 then blocks[free[k]].freeNext else head, g);
  }

  lemma ListDistinct(blocks: Blocks, head: nat, free: seq<nat>)
    requires FreeList(blocks, head, free)
    ensures Distinct(free) && head == NextIn(free, 0)
    ensures forall b :: b in blocks ==> (b in free <==> blocks[b].freeLen != 0)
  {
  }

  lemma FreeUnlinked(blocks: Blocks, head: nat, free: seq<nat>, k: nat, l: seq<Dirent>)
    requires FreeList(blocks, head, free) && k < |free|
    ensures var prev := PrevIn(free, k);
      && (prev != 0 ==> prev in blocks) && free[k] in blocks
      && FreeList(Unlinked(blocks, prev, free[k], l), if k == 0 then blocks[free[k]].freeNext else head,
          CutOut(free, k))
  {
    hide CutOut, Unlinked, FreeList;
    ListDistinct(blocks, head, free);
    ListLink(blocks, head, free, k);
    if k > 0 {
      ListLink(blocks, head, free, k - 1);
    }
    UnlinkedAt(blocks, PrevIn(free, k), free[k], l);
    UnlinkedList(blocks, Unlinked(blocks, PrevIn(free, k), free[k], l), head, free, k);
  }

  lemma IsFreeList(blocks: Blocks, head: nat, free: seq<nat>)
    requires Distinct(free) && head == NextIn(free, 0)
    requires forall i :: 0 <= i < |free| ==>
               free[i] != 0 && free[i] in blocks && blocks[free[i]].freeNext == NextIn(free, i + 1)
    requires forall b :: b in blocks ==> (b in free <==> blocks[b].freeLen != 0)
    ensures FreeList(blocks, head, free)
  {
  }

  lemma DistinctAt(s: seq<nat>, i: nat, j: nat)
    requires Distinct(s) && i < j < |s|
    ensures s[i] != s[j]
  {
  }

  // ----- Counting live names -----

  /** How many live entries have the hash. */
  function HashCount(l: seq<Dirent>, H: Name -> Hash, hash: Hash): nat {
    if l == [] then 0 else (if IsLive(l[0]) && H(l[0].name) == hash then 1 else 0) + HashCount(l[1..], H, hash)
  }

  lemma {:induction false} HashCountConcat(a: seq<Dirent>, b: seq<Dirent>, H: Name -> Hash, hash: Hash)
    ensures HashCount(a + b, H, hash) == HashCount(a, H, hash) + HashCount(b, H, hash)
  {
    if a == [] {
      assert a + b == b;
    } else {
      HashCountConcat(a[1..], b, H, hash);
      assert (a + b)[1..] == a[1..] + b;
    }
  }

  lemma HashOne(d: Dirent, H: Name -> Hash, hash: Hash)
    ensures HashCount([d], H, hash) == if IsLive(d) && H(d.name) == hash then 1 else 0
  {
    assert [d][1..] == [];
  }

  lemma {:induction false} HashHas(l: seq<Dirent>, H: Name -> Hash, i: nat)
    requires i < |l| && IsLive(l[i])
    ensures HashCount(l, H, H(l[i].name)) > 0
  {
    if i > 0 {
      HashHas(l[1..], H, i - 1);
    }
  }

  lemma AddedCount(l: seq<Dirent>, i: nat, name: Name, inode: nat, H: Name -> Hash, hash: Hash)
    requires i < |l| && WouldFit(l[i], RecLen(|name|)) && inode != 0
    ensures HashCount(Added(l, i, name, inode), H, hash) == HashCount(l, H, hash) + if H(name) == hash then 1 else 0
  {
    hide RecLen, WouldFit, HashCount;
    var d, m := l[i], DirBlock.Split(l[i], name, inode);
    assert l == l[..i] + [d] + l[i + 1..];
    HashCountConcat(l[..i] + [d], l[i + 1..], H, hash);
    HashCountConcat(l[..i], [d], H, hash);
    HashCountConcat(l[..i] + m, l[i + 1..], H, hash);
    HashCountConcat(l[..i], m, H, hash);
    HashOne(d, H, hash);
    HashOne(m[0], H, hash);
    if IsLive(d) {
      HashOne(m[1], H, hash);
      assert m == [m[0]] + [m[1]];
      HashCountConcat([m[0]], [m[1]], H, hash);
    } else {
      assert m == [m[0]];
    }
  }

  lemma DeletedCount(l: seq<Dirent>, i: nat, H: Name -> Hash, hash: Hash)
    requires i < |l| && IsLive(l[i])
    ensures HashCount(Deleted(l, i), H, hash) == HashCount(l, H, hash) - if H(l[i].name) == hash then 1 else 0
  {
    hide HashCount;
    var d := l[i];
    var b := l[i + 1..];
    HashOne(d, H, hash);
    if i == 0 {
      assert l == [d] + b;
      assert Deleted(l, i) == [d.(inode := 0)] + b;
      HashCountConcat([d], b, H, hash);
      HashCountConcat([d.(inode := 0)], b, H, hash);
      HashOne(d.(inode := 0), H, hash);
    } else {
      var p := l[i - 1];
      var a, e := l[..i - 1], p.(recLen := p.recLen + d.recLen);
      assert l == a + [p] + [d] + b;
      HashCountConcat(a + [p] + [d], b, H, hash);
      HashCountConcat(a + [p], [d], H, hash);
      HashCountConcat(a, [p], H, hash);
      HashCountConcat(a + [e], b, H, hash);
      HashCountConcat(a, [e], H, hash);
      HashOne(p, H, hash);
      HashOne(e, H, hash);
    }
  }

  // ----- The directory -----

  /** Every block is in order, and its recorded free length no more than its largest hole. */
  ghost predicate BlocksOk(blocks: Blocks, size: nat) {
    forall b :: b in blocks ==> b != 0 && BlockOk(blocks[b].l, size) && blocks[b].freeLen <= MaxHole(blocks[b].l)
  }

  /** No name is in two blocks. */
  ghost predicate NamesApart(blocks: Blocks) {
    forall a, b :: a in blocks && b in blocks && a != b ==> Live(blocks[a].l).Keys !! Live(blocks[b].l).Keys
  }

  /** The name leads to this inode. */
  ghost predicate Maps(blocks: Blocks, name: Name, inode: nat) {
    exists b :: b in blocks && name in Live(blocks[b].l) && Live(blocks[b].l)[name] == inode
  }

  ghost predicate HasName(blocks: Blocks, name: Name) {
    exists b :: b in blocks && name in Live(blocks[b].l)
  }

  /** How many entries the index must have for a hash and a block. */
  ghost function Wanted(blocks: Blocks, H: Name -> Hash, e: Entry): nat {
    if e.blk in blocks then HashCount(blocks[e.blk].l, H, e.hash) else 0
  }

  // ----- What a change of one block does to the whole -----

  /** Only the entries of one block have changed. */
  ghost predicate OnlyBlock(blocks: Blocks, after: Blocks, b: nat, l: seq<Dirent>) {
    && b in blocks && after.Keys == blocks.Keys && after[b].l == l
    && forall c :: c in blocks && c != b ==> after[c].l == blocks[c].l && after[c].freeLen == blocks[c].freeLen
  }

  lemma UnlinkedOnly(blocks: Blocks, prev: nat, b: nat, l: seq<Dirent>)
    requires b in blocks && (prev != 0 ==> prev in blocks && prev != b)
    ensures OnlyBlock(blocks, Unlinked(blocks, prev, b, l), b, l) && Unlinked(blocks, prev, b, l)[b].freeLen == 0
  {
  }

  lemma OnlyBlockOk(blocks: Blocks, after: Blocks, b: nat, l: seq<Dirent>, size: nat)
    requires BlocksOk(blocks, size) && OnlyBlock(blocks, after, b, l) && BlockOk(l, size)
    requires after[b].freeLen <= MaxHole(l)
    ensures BlocksOk(after, size)
  {
    hide BlockOk, MaxHole;
  }

  /** Adding a name that was in no block. */
  lemma NamesAdded(blocks: Blocks, after: Blocks, b: nat, l: seq<Dirent>, name: Name, inode: nat)
    requires NamesApart(blocks) && !HasName(blocks, name) && OnlyBlock(blocks, after, b, l)
    requires Live(l) == Live(blocks[b].l)[name := inode]
    ensures NamesApart(after)
    ensures forall m, i :: Maps(after, m, i) <==> if m == name then i == inode else Maps(blocks, m, i)
  {
    hide Live;
    forall m, i
      ensures Maps(after, m, i) <==> if m == name then i == inode else Maps(blocks, m, i)
    {
      if m == name {
        assert name in Live(after[b].l);
      } else if Maps(blocks, m, i) {
        var c :| c in blocks && m in Live(blocks[c].l) && Live(blocks[c].l)[m] == i;
        assert c in after && m in Live(after[c].l);
      }
    }
  }

  lemma NamesDeleted(blocks: Blocks, after: Blocks, b: nat, l: seq<Dirent>, name: Name)
    requires NamesApart(blocks) && OnlyBlock(blocks, after, b, l)
    requires name in Live(blocks[b].l) && Live(l) == Live(blocks[b].l) - {name}
    ensures NamesApart(after)
    ensures forall m, i :: Maps(after, m, i) <==> m != name && Maps(blocks, m, i)
  {
    hide Live;
    forall m, i
      ensures Maps(after, m, i) <==> m != name && Maps(blocks, m, i)
    {
      if m != name && Maps(blocks, m, i) {
        var c :| c in blocks && m in Live(blocks[c].l) && Live(blocks[c].l)[m] == i;
        assert c in after && m in Live(after[c].l);
      }
    }
  }

  /** A block without entries changes no name. */
  lemma NamesGrown(blocks: Blocks, b: nat, blk: Block)
    requires NamesApart(blocks) && b !in blocks && Live(blk.l) == map[]
    ensures NamesApart(blocks[b := blk])
    ensures forall m, i :: Maps(blocks[b := blk], m, i) <==> Maps(blocks, m, i)
    ensures forall m :: HasName(blocks[b := blk], m) <==> HasName(blocks, m)
  {
    hide Live;
    var after := blocks[b := blk];
    forall c | c in blocks
      ensures after[c] == blocks[c]
    {
    }
    forall m, i
      ensures Maps(after, m, i) <==> Maps(blocks, m, i)
    {
      if Maps(blocks, m, i) {
        var c :| c in blocks && m in Live(blocks[c].l) && Live(blocks[c].l)[m] == i;
        assert c in after && m in Live(after[c].l);
      }
    }
    forall m
      ensures HasName(after, m) <==> HasName(blocks, m)
    {
      if HasName(blocks, m) {
        var c :| c in blocks && m in Live(blocks[c].l);
        assert c in after && m in Live(after[c].l);
      }
    }
  }

  /** A new block: one free record. */
  lemma EmptyBlock(size: nat, H: Name -> Hash)
    requires size >= MINREC && size % 4 == 0
    ensures var l := [Dirent(0, [], size)];
      && BlockOk(l, size) && Live(l) == map[] && MaxHole(l) == size
      && forall hash :: HashCount(l, H, hash) == 0
  {
    One(Dirent(0, [], size));
    RecLenOk(0);
    forall hash
      ensures HashCount([Dirent(0, [], size)], H, hash) == 0
    {
      HashOne(Dirent(0, [], size), H, hash);
    }
  }

  /** A block with a recorded free length of this size takes the name: the add scan does not leave
      the block. */
  lemma RoomForName(l: seq<Dirent>, size: nat, name: Name)
    requires BlockOk(l, size) && RecLen(|name|) <= MaxHole(l)
    ensures AddScan(l, name) < |l|
  {
    hide RecLen, MaxHole, Live, NoDup, Size, HoleIn, WouldFit;
    assert RecLen(|name|) > 0 by { RecLenOk(|name|); }
    MaxHoleSome(l);
    var i :| 0 <= i < |l| && HoleIn(l[i]) == MaxHole(l);
    FitsHole(l[i], RecLen(|name|));
  }

  /** The add scan stops at a record that takes the new entry. */
  lemma AddFacts(blocks: Blocks, size: nat, b: nat, name: Name, inode: nat)
    requires BlocksOk(blocks, size) && b in blocks && !HasName(blocks, name) && RecLen(|name|) <= blocks[b].freeLen
    requires inode != 0 && name != []
    ensures var l := blocks[b].l; var i := AddScan(l, name);
      && BlockOk(l, size) && i < |l| && !Matches(l[i], name) && WouldFit(l[i], RecLen(|name|))
      && BlockOk(Added(l, i, name, inode), size) && Live(Added(l, i, name, inode)) == Live(l)[name := inode]
  {
    hide RecLen, MaxHole, Live, NoDup, Size, HoleIn, WouldFit, BlockOk, Added;
    var l := blocks[b].l;
    RoomForName(l, size, name);
    LiveHas(l, name);
    assert name !in Live(l);
    AddKeeps(l, size, AddScan(l, name), name, inode);
  }

  lemma AddedToBlocks(blocks: Blocks, after: Blocks, size: nat, b: nat, name: Name, inode: nat, H: Name -> Hash)
    requires BlocksOk(blocks, size) && b in blocks && !HasName(blocks, name) && RecLen(|name|) <= blocks[b].freeLen
    requires inode != 0 && name != [] && NamesApart(blocks)
    requires var l := blocks[b].l; var i := AddScan(l, name);
      i < |l| && WouldFit(l[i], RecLen(|name|)) && OnlyBlock(blocks, after, b, Added(l, i, name, inode))
    requires b in after && after[b].freeLen <= MaxHole(after[b].l)
    ensures BlocksOk(after, size) && NamesApart(after)
    ensures forall m, i :: Maps(after, m, i) <==> if m == name then i == inode else Maps(blocks, m, i)
    ensures forall e: Entry :: Wanted(after, H, e) == Wanted(blocks, H, e) + if e == Entry(H(name), b) then 1 else 0
  {
    hide RecLen, MaxHole, Live, NoDup, Size, HoleIn, WouldFit, BlockOk, Added, BlocksOk, NamesApart, Maps, HasName;
    AddFacts(blocks, size, b, name, inode);
    var l, i := blocks[b].l, AddScan(blocks[b].l, name);
    OnlyBlockOk(blocks, after, b, Added(l, i, name, inode), size);
    NamesAdded(blocks, after, b, Added(l, i, name, inode), name, inode);
    forall e: Entry
      ensures Wanted(after, H, e) == Wanted(blocks, H, e) + if e == Entry(H(name), b) then 1 else 0
    {
      AddedCount(l, i, name, inode, H, e.hash);
    }
  }

  lemma DeletedFromBlocks(blocks: Blocks, after: Blocks, size: nat, b: nat, i: nat, H: Name -> Hash)
    requires BlocksOk(blocks, size) && NamesApart(blocks) && b in blocks && i < |blocks[b].l| && IsLive(blocks[b].l[i])
    requires OnlyBlock(blocks, after, b, Deleted(blocks[b].l, i)) && b in after
    requires after[b].freeLen <= MaxHole(after[b].l)
    ensures var name := blocks[b].l[i].name;
      && BlocksOk(after, size) && NamesApart(after)
      && (forall m, j :: Maps(after, m, j) <==> m != name && Maps(blocks, m, j))
      && (forall e: Entry :: Wanted(after, H, e) == Wanted(blocks, H, e) - if e == Entry(H(name), b) then 1 else 0)
  {
    hide RecLen, MaxHole, Live, NoDup, Size, HoleIn, BlockOk, Deleted, NamesApart, Maps, HasName;
    var l, name := blocks[b].l, blocks[b].l[i].name;
    DeleteKeeps(l, size, i);
    OnlyBlockOk(blocks, after, b, Deleted(l, i), size);
    NamesDeleted(blocks, after, b, Deleted(l, i), name);
    forall e: Entry
      ensures Wanted(after, H, e) == Wanted(blocks, H, e) - if e == Entry(H(name), b) then 1 else 0
    {
      DeletedCount(l, i, H, e.hash);
      HashHas(l, H, i);
    }
  }

  lemma OnlySet(blocks: Blocks, b: nat, l: seq<Dirent>, len: nat, next: nat)
    requires b in blocks
    ensures OnlyBlock(blocks, blocks[b := Block(l, len, next)], b, l)
  {
  }

  lemma PrevIsOther(blocks: Blocks, head: nat, free: seq<nat>, k: nat)
    requires FreeList(blocks, head, free) && k < |free|
    ensures PrevIn(free, k) != 0 ==> PrevIn(free, k) in blocks && PrevIn(free, k) != free[k]
    ensures PrevIn(free, k) == 0 <==> k == 0
  {
    ListLink(blocks, head, free, if k == 0 then 0 else k - 1);
    if k > 0 {
      DistinctAt(free, k - 1, k);
    }
  }

  lemma OnlyKeeps(blocks: Blocks, after: Blocks, b: nat, l: seq<Dirent>)
    requires OnlyBlock(blocks, after, b, l)
    ensures b in blocks && b in after && after[b].l == l
  {
  }

  lemma BlockIs(blocks: Blocks, size: nat, b: nat)
    requires BlocksOk(blocks, size) && b in blocks
    ensures b != 0 && BlockOk(blocks[b].l, size)
  {
  }

  lemma RecLenMonotone(n: nat)
    requires n <= 255
    ensures 0 < RecLen(n) <= RecLen(255)
  {
  }

  /** A directory of one block. */
  lemma OneBlock(b: nat, blk: Block, size: nat)
    requires b != 0 && BlockOk(blk.l, size) && blk.freeLen <= MaxHole(blk.l) && blk.freeNext == 0
    ensures BlocksOk(map[b := blk], size) && NamesApart(map[b := blk])
    ensures if blk.freeLen != 0 then FreeList(map[b := blk], b, [b]) else FreeList(map[b := blk], 0, [])
    ensures forall m, i :: Maps(map[b := blk], m, i) <==> m in Live(blk.l) && Live(blk.l)[m] == i
  {
    hide BlockOk, MaxHole, Live;
    var blocks := map[b := blk];
    forall m, i | m in Live(blk.l) && Live(blk.l)[m] == i
      ensures Maps(blocks, m, i)
    {
      assert b in blocks && m in Live(blocks[b].l);
    }
  }

  lemma AtListEnd(blocks: Blocks, head: nat, free: seq<nat>, k: nat)
    requires FreeList(blocks, head, free) && k <= |free| && NextIn(free, k) == 0
    ensures k == |free|
  {
  }

  /** The names of a directory itself and of its parent. */
  const DOT: Name := [46]
  const DOTDOT: Name := [46, 46]

  /** The bytes of the trailer of a block. */
  const TRAILER := 64

  /** ocfs2_fill_initial_dirents(). */
  lemma FirstBlock(size: nat, H: Name -> Hash, self: nat, parent: nat)
    requires size >= RecLen(255) && size % 4 == 0 && self != 0 && parent != 0
    ensures var l := [Dirent(self, DOT, RecLen(1)), Dirent(parent, DOTDOT, size - RecLen(1))];
      && BlockOk(l, size) && Live(l) == map[DOT := self, DOTDOT := parent]
      && 0 < size - RecLen(1) - RecLen(2) - TRAILER <= MaxHole(l)
      && forall hash ::
           HashCount(l, H, hash) == (if H(DOT) == hash then 1 else 0) + (if H(DOTDOT) == hash then 1 else 0)
  {
    hide Live, NoDup, MaxHole, HashCount, Size;
    var a, b := Dirent(self, DOT, RecLen(1)), Dirent(parent, DOTDOT, size - RecLen(1));
    assert [a, b] == [] + [a] + [b];
    One(a);
    One(b);
    BlockParts([], [a], [b], size);
    assert Size([]) == 0 && NoDup([]) && Live([]) == map[] && MaxHole([]) == 0 by { NoEntries(); }
    assert |DOT| == 1 && |DOTDOT| == 2;
    forall hash
      ensures HashCount([a, b], H, hash) == (if H(DOT) == hash then 1 else 0) + (if H(DOTDOT) == hash then 1 else 0)
    {
      assert [a, b] == [a] + [b];
      HashCountConcat([a], [b], H, hash);
      HashOne(a, H, hash);
      HashOne(b, H, hash);
    }
  }

  // ----- Indexing a block that has none -----

  function LiveCount(l: seq<Dirent>): nat {
    if l == [] then 0 else LiveCount(l[..|l| - 1]) + if IsLive(l[|l| - 1]) then 1 else 0
  }

  lemma {:induction false} LiveCountPrefix(l: seq<Dirent>, i: nat)
    requires i <= |l|
    ensures LiveCount(l[..i]) <= LiveCount(l)
    decreases |l| - i
  {
    if i < |l| {
      assert l[..i + 1][..i] == l[..i];
      LiveCountPrefix(l, i + 1);
    } else {
      assert l[..i] == l;
    }
  }

  lemma HashCountSnoc(l: seq<Dirent>, i: nat, H: Name -> Hash, hash: Hash)
    requires i < |l|
    ensures HashCount(l[..i + 1], H, hash) ==
            HashCount(l[..i], H, hash) + if IsLive(l[i]) && H(l[i].name) == hash then 1 else 0
  {
    assert l[..i + 1] == l[..i] + [l[i]];
    HashCountConcat(l[..i], [l[i]], H, hash);
    HashOne(l[i], H, hash);
  }

  /** Where a hash goes: the root, or the block that the lookup gives. */
  method PlaceOf(index: DxIndex, hash: Hash) returns (place: Place)
    requires index.Valid()
    ensures index.AtHome(place, hash) && index.IsPlace(place)
  {
    hide Placed, Count, Slots, Shaped, Packed, Ranged, Good, Filled, FlatUpTo, SumRightmost, Chained, SolidBut,
      Sorted, Tidy, Owner, At;
    place := InRoot;
    if !index.isInline {
      var cpos, phys := index.Lookup(hash);
      place := InLeaf(phys, hash.minor % index.n);
    }
    index.HomeHas(place, hash);
  }

  /** ocfs2_dx_dir_index_block() and ocfs2_dx_dir_index_root_block(): an entry for each live record
      of the block. */
  method IndexBlock(index: DxIndex, l: seq<Dirent>, blk: nat, H: Name -> Hash)
    requires index.Valid() && LiveCount(l) <= if index.isInline then index.perRoot else index.perLeaf
    requires forall e: Entry :: index.Occurs(e) == 0
    requires forall q :: index.IsPlace(q) ==> index.ListAt(q) == []
    modifies index
    ensures index.Valid() && index.isInline == old(index.isInline)
    ensures forall e: Entry :: index.Occurs(e) == if e.blk == blk then HashCount(l, H, e.hash) else 0
  {
    hide Placed, Count, Slots, Shaped, Packed, Ranged, Good, Filled, FlatUpTo, SumRightmost, Chained, SolidBut,
      Sorted, Tidy, Owner, At, HashCount, LiveCount;
    var i := 0;
    assert HashNone(H) && LiveCount(l[..0]) == 0 by { NoneCounted(l, H); }
    assert l[..0] == [];
    while i < |l|
      invariant 0 <= i <= |l| && index.Valid() && index.isInline == old(index.isInline)
      invariant forall e: Entry :: index.Occurs(e) == if e.blk == blk then HashCount(l[..i], H, e.hash) else 0
      invariant forall q :: index.IsPlace(q) ==> |index.ListAt(q)| <= LiveCount(l[..i])
    {
      LiveCountStep(l, i);
      forall hash {
        HashCountSnoc(l, i, H, hash);
      }
      if IsLive(l[i]) {
        var place := PlaceOf(index, H(l[i].name));
        index.Insert(place, H(l[i].name), blk);
      }
      i := i + 1;
    }
    assert l[..i] == l;
  }

  ghost predicate HashNone(H: Name -> Hash) {
    forall hash :: HashCount([], H, hash) == 0
  }

  /** Growing the last record changes no count. */
  lemma ExpandCounts(l: seq<Dirent>, bytes: nat, H: Name -> Hash)
    requires l != []
    ensures LiveCount(Expanded(l, bytes)) == LiveCount(l)
    ensures forall hash :: HashCount(Expanded(l, bytes), H, hash) == HashCount(l, H, hash)
  {
    hide HashCount;
    var a, d := l[..|l| - 1], l[|l| - 1];
    var e := d.(recLen := d.recLen + bytes);
    assert l == a + [d] && Expanded(l, bytes) == a + [e];
    assert Expanded(l, bytes)[..|l| - 1] == a;
    forall hash
      ensures HashCount(a + [e], H, hash) == HashCount(a + [d], H, hash)
    {
      HashCountConcat(a, [d], H, hash);
      HashCountConcat(a, [e], H, hash);
      HashOne(d, H, hash);
      HashOne(e, H, hash);
    }
  }

  lemma NoneCounted(l: seq<Dirent>, H: Name -> Hash)
    ensures HashNone(H) && LiveCount(l[..0]) == 0
  {
  }

  lemma LiveCountStep(l: seq<Dirent>, i: nat)
    requires i < |l|
    ensures LiveCount(l[..i + 1]) == LiveCount(l[..i]) + (if IsLive(l[i]) then 1 else 0) <= LiveCount(l)
  {
    assert l[..i + 1][..i] == l[..i];
    LiveCountPrefix(l, i + 1);
  }

  // ----- The directory in place -----

  /** What a search found: the entry in the index, and the record in its block. */
  datatype Found = NotFound | Found(place: Place, j: nat, blk: nat, i: nat)

  /** What an insert has prepared: a place in the index, a block with room, and the block before
      that on the free list (0: none). */
  datatype Prepared = NoSpace | Prepared(place: Place, blk: nat, prev: nat)

  class Directory {
    const H: Name -> Hash
    const size: nat
    const index: DxIndex
    var blocks: Blocks
    var freeHead: nat
    ghost var free: seq<nat>

    /** The blocks are in order, the free list is right, and the index has exactly one entry for
        each live record, by hash of its name and block. */
    ghost predicate Valid()
      reads this, index, index.tree
    {
      && size >= RecLen(255) && size % 4 == 0 && index.Valid()
      && BlocksOk(blocks, size) && NamesApart(blocks) && FreeList(blocks, freeHead, free)
      && forall e: Entry :: index.Occurs(e) == Wanted(blocks, H, e)
    }

    /** ocfs2_fill_new_dir_dx(): a directory with the entries for itself and its parent.  The free
        length recorded is less than the hole, by the size of the trailer. */
    constructor (H: Name -> Hash, size: nat, index: DxIndex, blk: nat, self: nat, parent: nat)
      requires size >= RecLen(255) && size % 4 == 0 && blk != 0 && self != 0 && parent != 0
      requires index.Valid() && index.isInline && index.rootList == [] && index.perRoot >= 2
      requires forall e: Entry :: index.Occurs(e) == 0
      modifies index
      ensures Valid() && this.index == index
      ensures forall m, i :: Maps(blocks, m, i) <==> (m == DOT && i == self) || (m == DOTDOT && i == parent)
    {
      hide Live, NoDup, MaxHole, HashCount, Size, Placed, Count, Slots, Shaped, Packed, Ranged, Good, Filled, FlatUpTo,
        SumRightmost, Chained, SolidBut, Sorted, Tidy, Owner, At, BlockOk, Maps, DirentOk, HoleIn;
      this.H, this.size, this.index := H, size, index;
      var l := [Dirent(self, DOT, RecLen(1)), Dirent(parent, DOTDOT, size - RecLen(1))];
      blocks := map[blk := Block(l, size - RecLen(1) - RecLen(2) - TRAILER, 0)];
      freeHead, free := blk, [blk];
      new;
      FirstBlock(size, H, self, parent);
      index.Insert(InRoot, H(DOT), blk);
      index.Insert(InRoot, H(DOTDOT), blk);
      OneBlock(blk, blocks[blk], size);
    }

    /** ocfs2_expand_inline_dir(): the entries of an inline directory become the first block, whose
        last record grows to its end, and all are indexed: in the root if that leaves room for one
        more, else in a first cluster.  No name is lost or changed. */
    constructor FromInline(H: Name -> Hash, size: nat, index: DxIndex, l: seq<Dirent>, blk: nat, phys: int)
      requires size >= RecLen(255) && size % 4 == 0 && blk != 0 && l != []
      requires Size(l) <= size && Size(l) % 4 == 0 && BlockOk(l, Size(l)) && LiveCount(l) <= index.perLeaf
      requires index.Valid() && index.isInline && index.rootList == [] && forall e: Entry :: index.Occurs(e) == 0
      modifies index, index.tree
      ensures Valid() && this.index == index
      ensures forall m, i :: Maps(blocks, m, i) <==> m in Live(l) && Live(l)[m] == i
    {
      hide Live, NoDup, MaxHole, HashCount, Size, Placed, Count, Slots, Shaped, Packed, Ranged, Good, Filled,
        FlatUpTo, SumRightmost, Chained, SolidBut, Sorted, Tidy, Owner, At, BlockOk, Maps, DirentOk, HoleIn, Expanded,
        LiveCount, FreeLen, RecLen, FreeList;
      this.H, this.size, this.index := H, size, index;
      var t := Expanded(l, size - Size(l));
      var len := FreeLen(t);
      blocks := map[blk := Block(t, len, 0)];
      freeHead := if len != 0 then blk else 0;
      free := if len != 0 then [blk] else [];
      new;
      ExpandKeeps(l, Size(l), size - Size(l));
      ExpandCounts(l, size - Size(l), H);
      OneBlock(blk, blocks[blk], size);
      if LiveCount(t) >= index.perRoot {
        index.ExpandInline(phys);
      }
      IndexBlock(index, t, blk, H);
    }

    ghost predicate IsFound(f: Found, name: Name)
      requires Valid()
      reads this, index, index.tree
    {
      && f.Found? && index.AtHome(f.place, H(name)) && index.IsPlace(f.place)
      && f.j < |index.ListAt(f.place)| && index.ListAt(f.place)[f.j] == Entry(H(name), f.blk)
      && f.blk in blocks && f.i < |blocks[f.blk].l| && Matches(blocks[f.blk].l[f.i], name)
    }

    /** ocfs2_dx_dir_search(): the index finds a name exactly when a scan of all blocks would. */
    method Search(name: Name) returns (f: Found)
      requires Valid()
      ensures f.Found? <==> HasName(blocks, name)
      ensures f.Found? ==> IsFound(f, name) && f.i == FindIn(blocks[f.blk].l, name)
    {
      hide BlocksOk, NamesApart, FreeList, Live, Matches, RecLen, Placed, Count, Slots, Shaped, Packed, Ranged, Good,
        Filled, FlatUpTo, SumRightmost, Chained, SolidBut, Sorted, Tidy, Owner, At;
      var hash := H(name);
      var place := PlaceOf(index, hash);
      index.HomeHas(place, hash);
      var list := index.ListAt(place);
      var j := 0;
      while j < |list|
        invariant 0 <= j <= |list|
        invariant forall k :: 0 <= k < j && list[k].hash == hash ==>
                    list[k].blk in blocks && name !in Live(blocks[list[k].blk].l)
      {
        if list[j].hash == hash {
          InList(list, j);
          assert index.Occurs(list[j]) > 0;
          var l := blocks[list[j].blk].l;
          FindLive(l, name);
          if FindIn(l, name) < |l| {
            f := Found(place, j, list[j].blk, FindIn(l, name));
            assert name in Live(blocks[f.blk].l);
            return;
          }
        }
        j := j + 1;
      }
      if HasName(blocks, name) {
        var b :| b in blocks && name in Live(blocks[b].l);
        MustBeListed(b, name);
        assert false;
      }
      f := NotFound;
    }

    /** ocfs2_search_dx_free_list(): the first block on the list with room for the name, and the one
        before it. */
    method SearchFreeList(len: nat) returns (found: bool, blk: nat, prev: nat, ghost k: nat)
      requires FreeList(blocks, freeHead, free) && len > 0
      ensures found ==>
                && k < |free| && blk == free[k] && prev == PrevIn(free, k)
                && blk in blocks && len <= blocks[blk].freeLen
                && forall i :: 0 <= i < k ==> free[i] in blocks && blocks[free[i]].freeLen < len
      ensures !found ==> forall b :: b in blocks ==> blocks[b].freeLen < len
    {
      hide FreeList, Distinct;
      ListDistinct(blocks, freeHead, free);
      blk, prev, k, found := freeHead, 0, 0, false;
      while blk != 0
        invariant k <= |free| && blk == NextIn(free, k) && (k < |free| ==> prev == PrevIn(free, k))
        invariant forall i :: 0 <= i < k ==> free[i] in blocks
        invariant forall i :: 0 <= i < k ==> blocks[free[i]].freeLen < len
        decreases |free| - k
      {
        ListLink(blocks, freeHead, free, k);
        if len <= blocks[blk].freeLen {
          found := true;
          return;
        }
        prev := blk;
        blk := blocks[blk].freeNext;
        k := k + 1;
      }
      AtListEnd(blocks, freeHead, free, k);
    }

    lemma MustBeListed(b: nat, name: Name)
      requires Valid() && b in blocks && name in Live(blocks[b].l)
      ensures index.Occurs(Entry(H(name), b)) > 0
    {
      LiveHas(blocks[b].l, name);
      var i :| 0 <= i < |blocks[b].l| && Matches(blocks[b].l[i], name);
      HashHas(blocks[b].l, H, i);
    }

    /** The insert has been prepared: the index has a place for the hash, and the block is on the
        free list, behind the one given, and has room for the name. */
    ghost predicate Ready(p: Prepared, name: Name, k: nat)
      requires Valid()
      reads this, index, index.tree
    {
      && p.Prepared? && index.AtHome(p.place, H(name)) && index.IsPlace(p.place)
      && |index.ListAt(p.place)| < (if index.isInline then index.perRoot else index.perLeaf)
      && k < |free| && free[k] == p.blk && PrevIn(free, k) == p.prev && p.blk in blocks
      && RecLen(|name|) <= blocks[p.blk].freeLen
    }

    /** ocfs2_recalc_free_list(), with the block's new entries: it stays on the list while it has
        room for any entry. */
    method RecalcFreeList(blk: nat, prev: nat, l: seq<Dirent>, ghost k: nat)
      requires FreeList(blocks, freeHead, free) && k < |free| && blk == free[k] && prev == PrevIn(free, k)
      requires blk in blocks && blocks[blk].freeLen > 0
      modifies this
      ensures FreeList(blocks, freeHead, free) && OnlyBlock(old(blocks), blocks, blk, l)
      ensures blk in blocks && blocks[blk].freeLen == FreeLen(l)
    {
      hide FreeList, FreeLen, OnlyBlock, Unlinked, CutOut;
      var b := blocks[blk];
      var len := FreeLen(l);
      if len != 0 {
        FreeRelen(blocks, freeHead, free, blk, l, len);
        OnlySet(blocks, blk, l, len, b.freeNext);
        blocks := blocks[blk := Block(l, len, b.freeNext)];
      } else {
        FreeUnlinked(blocks, freeHead, free, k, l);
        PrevIsOther(blocks, freeHead, free, k);
        UnlinkedOnly(blocks, prev, blk, l);
        OnlyKeeps(blocks, Unlinked(blocks, prev, blk, l), blk, l);
        blocks := Unlinked(blocks, prev, blk, l);
        if prev == 0 {
          freeHead := b.freeNext;
        }
        free := CutOut(free, k);
      }
    }

    /** __ocfs2_add_entry() on an indexed directory: one name more, and one index entry for it. */
    method AddEntry(name: Name, inode: nat, p: Prepared, ghost k: nat)
      requires Valid() && Ready(p, name, k) && !HasName(blocks, name) && inode != 0 && name != []
      modifies this, index
      ensures Valid()
      ensures forall m, i :: Maps(blocks, m, i) <==> if m == name then i == inode else old(Maps(blocks, m, i))
      ensures p.blk in blocks && old(p.blk in blocks)
      ensures OnlyBlock(old(blocks), blocks, p.blk, AddedFirst(old(blocks[p.blk].l), name, inode))
    {
      hide Live, NoDup, MaxHole, HashCount, Size, RecLen, WouldFit, BlockOk, Added, FreeList, Placed, Count,
        Slots, Shaped, Packed,
        Ranged, Good, Filled, FlatUpTo, SumRightmost, Chained, SolidBut, Sorted, Tidy, Owner, At, BlocksOk, NamesApart,
        OnlyBlock, Maps, Wanted;
      ghost var was := blocks;
      AddFacts(blocks, size, p.blk, name, inode);
      RecLenOk(|name|);
      var i := AddScan(blocks[p.blk].l, name);
      var l := Added(blocks[p.blk].l, i, name, inode);
      index.Insert(p.place, H(name), p.blk);
      RecalcFreeList(p.blk, p.prev, l, k);
      OnlyKeeps(was, blocks, p.blk, l);
      AddedToBlocks(was, blocks, size, p.blk, name, inode, H);
    }

    /** ocfs2_delete_entry_dx(): what a search has found is taken out of its block and out of the
        index, and the block goes to the front of the free list unless it is on it. */
    method Delete(f: Found, ghost name: Name)
      requires Valid() && IsFound(f, name)
      modifies this, index
      ensures Valid()
      ensures forall m, i :: Maps(blocks, m, i) <==> m != name && old(Maps(blocks, m, i))
      ensures f.blk in blocks && f.blk in free && blocks[f.blk].freeLen == FreeLen(blocks[f.blk].l) > 0
      ensures free == if old(blocks[f.blk].freeLen) == 0 then [f.blk] + old(free) else old(free)
      ensures OnlyBlock(old(blocks), blocks, f.blk, Deleted(old(blocks[f.blk].l), f.i))
    {
      hide Live, NoDup, MaxHole, HashCount, Size, RecLen, BlockOk, Deleted, FreeList, Placed, Count, Slots, Shaped,
        Packed, Ranged, Good, Filled, FlatUpTo, SumRightmost, Chained, SolidBut, Sorted, Tidy, Owner, At, BlocksOk,
        NamesApart, OnlyBlock, Maps, Wanted, FreeLen;
      ghost var was := blocks;
      var b := blocks[f.blk];
      BlockIs(blocks, size, f.blk);
      DeleteKeeps(b.l, size, f.i);
      var l := Deleted(b.l, f.i);
      var len := FreeLen(l);
      if b.freeLen == 0 {
        FreePushed(blocks, freeHead, free, f.blk, l, len);
        OnlySet(blocks, f.blk, l, len, freeHead);
        blocks := blocks[f.blk := Block(l, len, freeHead)];
        freeHead, free := f.blk, [f.blk] + free;
      } else {
        FreeRelen(blocks, freeHead, free, f.blk, l, len);
        OnlySet(blocks, f.blk, l, len, b.freeNext);
        blocks := blocks[f.blk := Block(l, len, b.freeNext)];
      }
      DeletedFromBlocks(was, blocks, size, f.blk, f.i, H);
      ListDistinct(blocks, freeHead, free);
      index.Remove(f.place, f.j);
    }

    /** ocfs2_extend_dir(): a new block, at the front of the free list. */
    method ExtendDir(blk: nat)
      requires Valid() && blk != 0 && blk !in blocks
      modifies this
      ensures Valid() && free == [blk] + old(free)
      ensures blocks == old(blocks)[blk := Block([Dirent(0, [], size)], size, old(freeHead))]
      ensures forall m, i :: Maps(blocks, m, i) <==> old(Maps(blocks, m, i))
      ensures forall m :: HasName(blocks, m) <==> old(HasName(blocks, m))
    {
      hide Live, NoDup, MaxHole, HashCount, Size, RecLen, BlockOk, FreeList, Placed, Count, Slots, Shaped, Packed,
        Ranged, Good, Filled, FlatUpTo, SumRightmost, Chained, SolidBut, Sorted, Tidy, Owner, At, NamesApart,
        Maps, HasName;
      RecLenOk(255);
      EmptyBlock(size, H);
      var b := Block([Dirent(0, [], size)], size, freeHead);
      FreePushed(blocks, freeHead, free, blk, b.l, size);
      NamesGrown(blocks, blk, b);
      blocks := blocks[blk := b];
      freeHead, free := blk, [blk] + free;
    }

    /** ocfs2_prepare_dx_dir_for_insert(): a place in the index, which may have to leave the root or
        be split, and a block with room, which may have to be new. */
    method PrepareForInsert(name: Name, phys1: int, phys2: int, newBlk: nat) returns (p: Prepared, ghost k: nat)
      requires Valid() && |name| <= 255 && newBlk != 0 && newBlk !in blocks
      requires phys1 !in index.leaves && phys2 !in index.leaves && phys1 != phys2
      modifies this, index, index.tree
      ensures Valid()
      ensures forall m, i :: Maps(blocks, m, i) <==> old(Maps(blocks, m, i))
      ensures forall m :: HasName(blocks, m) <==> old(HasName(blocks, m))
      ensures p.Prepared? ==> Ready(p, name, k)
      ensures || blocks == old(blocks)
              || blocks == old(blocks)[newBlk := Block([Dirent(0, [], size)], size, old(freeHead))]
    {
      hide Live, NoDup, MaxHole, HashCount, Size, RecLen, BlockOk, FreeList, Placed, Count, Slots, Shaped, Packed,
        Ranged, Good, Filled, FlatUpTo, SumRightmost, Chained, SolidBut, Sorted, Tidy, Owner, At, NamesApart,
        Maps, HasName, BlocksOk, Wanted;
      var place := InRoot;
      k := 0;
      if index.isInline && |index.rootList| >= index.perRoot {
        index.ExpandInline(phys1);
      }
      if !index.isInline {
        var ok;
        ok, place := index.FindSpace(H(name), phys2);
        if !ok {
          return NoSpace, 0;
        }
      }
      RecLenMonotone(|name|);
      var found, blk, prev, at := SearchFreeList(RecLen(|name|));
      k := at;
      if !found {
        ExtendDir(newBlk);
        blk, prev, k := newBlk, 0, 0;
      }
      p := Prepared(place, blk, prev);
    }
  }

  lemma InList(l: seq<Entry>, j: nat)
    requires j < |l|
    ensures multiset(l)[l[j]] > 0
  {
  }
}
