/** An indexed directory with its blocks in their bytes (dir.c): the operations of IndexedDir change
    the buffers of DirBytes in place, and what a walk of each buffer gives is the block that the
    index and the list of blocks with room go by. */
module IndexedBytes {
  import opened DirBlock
  import opened DirBytes
  import opened DirIndex
  import opened IndexedDir
  import opened ExtentLeaf
  import opened ExtentBTree
  import opened ExtentLeaves
  import opened ExtentTree

  /** Every block has its own buffer, and the walk of that gives its entries. */
  ghost predicate Shows(bufs: map<nat, DirBuffer>, blocks: Blocks, size: nat)
    reads Buffers(bufs)
  {
    && bufs.Keys == blocks.Keys
    && (forall b :: b in bufs ==> Shown(bufs[b], blocks[b].l, size))
    && (forall a, b :: a in bufs && b in bufs && a != b ==> bufs[a].data != bufs[b].data)
  }

  ghost function Buffers(bufs: map<nat, DirBuffer>): set<object> {
    (set b | b in bufs :: bufs[b]) + (set b | b in bufs :: bufs[b].data)
  }

  ghost predicate Shown(buf: DirBuffer, l: seq<Dirent>, size: nat)
    reads buf, buf.data
  {
    buf.Valid() && buf.data.Length == size && buf.Contents() == l
  }

  /** What the insert has prepared: the scan of the block ends at a record with room. */
  lemma ReadyScan(dir: Directory, p: Prepared, name: Name, k: nat, inode: nat)
    requires dir.Valid() && dir.Ready(p, name, k) && !HasName(dir.blocks, name) && inode != 0 && name != []
    ensures p.blk in dir.blocks
    ensures var l := dir.blocks[p.blk].l; var i := AddScan(l, name);
      && Named(l) && i < |l| && !Matches(l[i], name) && WouldFit(l[i], RecLen(|name|))
      && AddedFirst(l, name, inode) == Added(l, i, name, inode)
  {
    hide RecLen, MaxHole, Live, NoDup, Size, HoleIn, WouldFit, Added, BlocksOk, NamesApart, HasName, FreeList;
    AddFacts(dir.blocks, dir.size, p.blk, name, inode);
  }

  lemma SizeOk(dir: Directory)
    requires dir.Valid()
    ensures dir.size >= MINREC && dir.size % 4 == 0
  {
    RecLenOk(255);
  }

  class ByteDirectory {
    const dir: Directory
    var bufs: map<nat, DirBuffer>

    ghost predicate Valid()
      reads this, dir, dir.index, dir.index.tree, Buffers(bufs)
    {
      dir.Valid() && Shows(bufs, dir.blocks, dir.size)
    }

    /** A directory of one block that has just been made or converted. */
    constructor (dir: Directory, blk: nat, buf: DirBuffer)
      requires dir.Valid() && dir.blocks.Keys == {blk} && Shown(buf, dir.blocks[blk].l, dir.size)
      ensures Valid() && this.dir == dir && bufs == map[blk := buf]
    {
      hide Live, NoDup, MaxHole, HashCount, Size, RecLen, WouldFit, BlockOk, Added, AddedFirst, AddScan, Deleted,
        FindIn, FreeLen, Matches, FreeList, Placed, Count, Slots, Shaped, Packed, Ranged, Good, Filled, FlatUpTo,
        SumRightmost, Chained, SolidBut, Sorted, Tidy, Owner, At, BlocksOk, NamesApart, Maps, HasName, Wanted, Walks,
        Reaches, Before, Chain, Read, Directory.Valid, DirBuffer.Valid, DirBuffer.Contents;
      this.dir := dir;
      bufs := map[blk := buf];
    }

    /** The indexed search, to the place of the record in its block. */
    method Search(name: Name) returns (f: Found, offset: nat)
      requires Valid()
      ensures f.Found? <==> HasName(dir.blocks, name)
      ensures f.Found? ==> dir.IsFound(f, name) && f.blk in bufs && bufs[f.blk].OffsetOf(offset, f.i)
    {
      hide Live, NoDup, MaxHole, HashCount, Size, RecLen, WouldFit, BlockOk, Added, AddedFirst, AddScan, Deleted,
        FindIn, FreeLen, Matches, FreeList, Placed, Count, Slots, Shaped, Packed, Ranged, Good, Filled, FlatUpTo,
        SumRightmost, Chained, SolidBut, Sorted, Tidy, Owner, At, BlocksOk, NamesApart, Maps, HasName, Wanted, Walks,
        Reaches, Before, Chain, Read, Directory.Valid, DirBuffer.Valid, DirBuffer.Contents;
      offset := 0;
      f := dir.Search(name);
      if f.Found? {
        var found, o, i := bufs[f.blk].Search(name);
        offset := o;
      }
    }

    /** The entry is written into the block that the insert has prepared. */
    method AddEntry(name: Name, inode: nat, kind: Byte, p: Prepared, ghost k: nat) returns (status: AddStatus)
      requires Valid() && dir.Ready(p, name, k) && !HasName(dir.blocks, name)
      requires 0 < inode < 0x1_0000_0000_0000_0000 && 0 < |name| <= MAXNAME
      modifies dir, dir.index, Buffers(bufs)
      ensures Valid() && status == AddDone && bufs == old(bufs)
      ensures forall m, i :: Maps(dir.blocks, m, i) <==> if m == name then i == inode else old(Maps(dir.blocks, m, i))
    {
      hide Live, NoDup, MaxHole, HashCount, Size, RecLen, WouldFit, BlockOk, Added, AddedFirst, AddScan, Deleted,
        FindIn, FreeLen, Matches, FreeList, Placed, Count, Slots, Shaped, Packed, Ranged, Good, Filled, FlatUpTo,
        SumRightmost, Chained, SolidBut, Sorted, Tidy, Owner, At, BlocksOk, NamesApart, Maps, HasName, Wanted, Walks,
        Reaches, Before, Chain, Read, Directory.Valid, DirBuffer.Valid, DirBuffer.Contents;
      ReadyScan(dir, p, name, k, inode);
      status := bufs[p.blk].Add(name, inode, kind);
      dir.AddEntry(name, inode, p, k);
    }

    /** The record that the search has found is deleted where it lies. */
    method Delete(f: Found, offset: nat, ghost name: Name) returns (found: bool)
      requires Valid() && dir.IsFound(f, name) && f.blk in bufs && bufs[f.blk].OffsetOf(offset, f.i)
      modifies dir, dir.index, Buffers(bufs)
      ensures Valid() && found && bufs == old(bufs)
      ensures forall m, i :: Maps(dir.blocks, m, i) <==> m != name && old(Maps(dir.blocks, m, i))
    {
      hide Live, NoDup, MaxHole, HashCount, Size, RecLen, WouldFit, BlockOk, Added, AddedFirst, AddScan, Deleted,
        FindIn, FreeLen, Matches, FreeList, Placed, Count, Slots, Shaped, Packed, Ranged, Good, Filled, FlatUpTo,
        SumRightmost, Chained, SolidBut, Sorted, Tidy, Owner, At, BlocksOk, NamesApart, Maps, HasName, Wanted, Walks,
        Reaches, Before, Chain, Read, Directory.Valid, DirBuffer.Valid, DirBuffer.Contents;
      ghost var k;
      found, k := bufs[f.blk].Delete(offset);
      dir.Delete(f, name);
    }

    /** A block that has been added gets a buffer, made in ocfs2_extend_dir(). */
    method AddBuffer(blk: nat)
      requires dir.Valid() && dir.size < 65536 && blk in dir.blocks && dir.blocks[blk].l == [Dirent(0, [], dir.size)]
      requires blk !in bufs && Shows(bufs, dir.blocks - {blk}, dir.size)
      modifies this
      ensures Valid() && fresh(Buffers(bufs) - old(Buffers(bufs)))
    {
      hide Live, NoDup, MaxHole, HashCount, Size, RecLen, WouldFit, BlockOk, Added, AddedFirst, AddScan, Deleted,
        FindIn, FreeLen, Matches, FreeList, Placed, Count, Slots, Shaped, Packed, Ranged, Good, Filled, FlatUpTo,
        SumRightmost, Chained, SolidBut, Sorted, Tidy, Owner, At, BlocksOk, NamesApart, Maps, HasName, Wanted, Walks,
        Reaches, Before, Chain, Read, Directory.Valid, DirBuffer.Valid, DirBuffer.Contents;
      SizeOk(dir);
      var buf := new DirBuffer(dir.size);
      bufs := bufs[blk := buf];
    }

    /** The buffers follow what an insert has prepared: one more if the block is new. */
    method Follow(blk: nat, ghost next: nat, ghost was: Blocks)
      requires dir.Valid() && dir.size < 65536 && Shows(bufs, was, dir.size) && blk !in was
      requires dir.blocks == was || dir.blocks == was[blk := Block([Dirent(0, [], dir.size)], dir.size, next)]
      modifies this
      ensures Valid() && fresh(Buffers(bufs) - old(Buffers(bufs)))
    {
      hide Live, NoDup, MaxHole, HashCount, Size, RecLen, WouldFit, BlockOk, Added, AddedFirst, AddScan, Deleted,
        FindIn, FreeLen, Matches, FreeList, Placed, Count, Slots, Shaped, Packed, Ranged, Good, Filled, FlatUpTo,
        SumRightmost, Chained, SolidBut, Sorted, Tidy, Owner, At, BlocksOk, NamesApart, Maps, HasName, Wanted, Walks,
        Reaches, Before, Chain, Read, Directory.Valid, DirBuffer.Valid, DirBuffer.Contents;
      if blk in dir.blocks {
        assert dir.blocks - {blk} == was;
        AddBuffer(blk);
      }
    }

    /** A place in the index and a block with room, whose buffer is new if the block is. */
    method PrepareForInsert(name: Name, phys1: int, phys2: int, newBlk: nat) returns (p: Prepared, ghost k: nat)
      requires Valid() && |name| <= 255 && newBlk != 0 && newBlk !in dir.blocks && dir.size < 65536
      requires phys1 !in dir.index.leaves && phys2 !in dir.index.leaves && phys1 != phys2
      modifies this, dir, dir.index, dir.index.tree
      ensures Valid() && fresh(Buffers(bufs) - old(Buffers(bufs)))
      ensures forall m, i :: Maps(dir.blocks, m, i) <==> old(Maps(dir.blocks, m, i))
      ensures forall m :: HasName(dir.blocks, m) <==> old(HasName(dir.blocks, m))
      ensures p.Prepared? ==> dir.Ready(p, name, k)
    {
      hide Live, NoDup, MaxHole, HashCount, Size, RecLen, WouldFit, BlockOk, Added, AddedFirst, AddScan, Deleted,
        FindIn, FreeLen, Matches, FreeList, Placed, Count, Slots, Shaped, Packed, Ranged, Good, Filled, FlatUpTo,
        SumRightmost, Chained, SolidBut, Sorted, Tidy, Owner, At, BlocksOk, NamesApart, Maps, HasName, Wanted, Walks,
        Reaches, Before, Chain, Read, Directory.Valid, DirBuffer.Valid, DirBuffer.Contents, Shown, OnlyBlock;
      ghost var was := dir.blocks;
      ghost var next := dir.freeHead;
      p, k := dir.PrepareForInsert(name, phys1, phys2, newBlk);
      Follow(newBlk, next, was);
    }
  }
}
