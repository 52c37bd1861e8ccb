/** A block of directory entries in its bytes (dir.c): the fields of each entry are read and written
    where they lie, and a walk by record lengths gives the list that DirBlock reasons about. */
module DirBytes {
  import opened DirBlock
  import BlockCheck

  // ----- One entry -----

  /** Bytes of the fields before the name: inode number, record length, name length and file type. */
  const HEAD := 12
  const MAXNAME := 255

  /** The entry whose header begins at o.  One whose name runs out of the block reads as malformed. */
  function Read(h: seq<Byte>, o: nat): (d: Dirent)
    ensures o + HEAD > |h| ==> d.recLen == 0
    ensures |d.name| <= MAXNAME
  {
    if o + HEAD > |h| || o + HEAD + h[o + 10] > |h| then Dirent(0, [], 0)
    else
      Dirent(BlockCheck.FromLe(h[o..o + 8]), h[o + HEAD..o + HEAD + h[o + 10]], BlockCheck.FromLe(h[o + 8..o + 10]))
  }

  /** The bytes of the entry itself, without what is left of its record. */
  function Extent(h: seq<Byte>, o: nat): nat {
    o + HEAD + |Read(h, o).name|
  }

  function Write(h: seq<Byte>, o: nat, b: seq<Byte>): (t: seq<Byte>)
    requires o + |b| <= |h|
    ensures |t| == |h| && t[..o] == h[..o] && t[o + |b|..] == h[o + |b|..] && t[o..o + |b|] == b
  {
    h[..o] + b + h[o + |b|..]
  }

  function Le64(n: nat): (s: seq<Byte>)
    requires n < 0x1_0000_0000_0000_0000
    ensures |s| == 8
  {
    BlockCheck.Le32(n % 0x1_0000_0000) + BlockCheck.Le32(n / 0x1_0000_0000)
  }

  lemma FromLe64(n: nat)
    requires n < 0x1_0000_0000_0000_0000
    ensures BlockCheck.FromLe(Le64(n)) == n
  {
    var lo, hi := BlockCheck.Le32(n % 0x1_0000_0000), BlockCheck.Le32(n / 0x1_0000_0000);
    BlockCheck.FromLeLe32(n % 0x1_0000_0000);
    BlockCheck.FromLeLe32(n / 0x1_0000_0000);
    FourThenFour(lo, hi);
  }

  lemma FourThenFour(a: seq<Byte>, b: seq<Byte>)
    requires |a| == 4
    ensures BlockCheck.FromLe(a + b) == BlockCheck.FromLe(a) + 0x1_0000_0000 * BlockCheck.FromLe(b)
  {
    OneThen(a[0], a[1..], b);
    OneThen(a[1], a[2..], b);
    OneThen(a[2], a[3..], b);
    OneThen(a[3], a[4..], b);
    assert a == [a[0]] + a[1..] && a[1..] == [a[1]] + a[2..] && a[2..] == [a[2]] + a[3..] && a[3..] == [a[3]] + a[4..];
    assert a[4..] + b == b;
  }

  lemma OneThen(x: Byte, a: seq<Byte>, b: seq<Byte>)
    ensures BlockCheck.FromLe([x] + a + b) == x + 256 * BlockCheck.FromLe(a + b)
    ensures BlockCheck.FromLe([x] + a) == x + 256 * BlockCheck.FromLe(a)
  {
    assert ([x] + a + b)[1..] == a + b;
    assert ([x] + a)[1..] == a;
  }

  lemma Within(h: seq<Byte>, o: nat, e: nat, i: nat, j: nat)
    requires o <= i <= j <= e <= |h|
    ensures h[i..j] == h[o..e][i - o..j - o]
  {
    var w := h[o..e];
    assert forall k :: i <= k < j ==> h[k] == w[k - o];
    assert h[i..j] == w[i - o..j - o];
  }

  /** An entry reads the same wherever its own bytes are the same. */
  lemma ReadSame(h: seq<Byte>, t: seq<Byte>, o: nat)
    requires Read(h, o).recLen > 0 && Extent(h, o) <= |t| && h[o..Extent(h, o)] == t[o..Extent(h, o)]
    ensures Read(t, o) == Read(h, o)
  {
    var e := Extent(h, o);
    Within(h, o, e, o, o + 8);
    Within(t, o, e, o, o + 8);
    Within(h, o, e, o + 8, o + 10);
    Within(t, o, e, o + 8, o + 10);
    Within(h, o, e, o + HEAD, e);
    Within(t, o, e, o + HEAD, e);
    assert h[o + 10] == h[o..e][10] == t[o..e][10] == t[o + 10];
  }

  lemma ReadPrefix(h: seq<Byte>, t: seq<Byte>, o: nat, n: nat)
    requires Read(h, o).recLen > 0 && Extent(h, o) <= n <= |h| && n <= |t| && h[..n] == t[..n]
    ensures Read(t, o) == Read(h, o)
  {
    hide Read;
    Within(h, 0, n, o, Extent(h, o));
    Within(t, 0, n, o, Extent(h, o));
    assert h[0..n] == h[..n] && t[0..n] == t[..n];
    ReadSame(h, t, o);
  }

  lemma ReadBehind(h: seq<Byte>, t: seq<Byte>, o: nat, n: nat)
    requires Read(h, o).recLen > 0 && n <= o && |t| == |h| && h[n..] == t[n..]
    ensures Read(t, o) == Read(h, o)
  {
    hide Read;
    ReadInside(h, o);
    Within(h, n, |h|, o, Extent(h, o));
    Within(t, n, |t|, o, Extent(h, o));
    assert h[n..|h|] == h[n..] && t[n..|t|] == t[n..];
    ReadSame(h, t, o);
  }

  lemma ReadInside(h: seq<Byte>, o: nat)
    requires Read(h, o).recLen > 0
    ensures Extent(h, o) <= |h|
  {
  }

  /** Writing one field changes that field. */
  lemma ReadRecLen(h: seq<Byte>, o: nat, n: nat)
    requires Read(h, o).recLen > 0 && n < 65536
    ensures o + 10 <= |h| && Read(Write(h, o + 8, BlockCheck.Le16(n)), o) == Read(h, o).(recLen := n)
  {
    var t := Write(h, o + 8, BlockCheck.Le16(n));
    BlockCheck.FromLeLe16(n);
    assert t[o..o + 8] == h[o..o + 8] && t[o + 10] == h[o + 10] && t[o + 8..o + 10] == BlockCheck.Le16(n);
    assert t[o + HEAD..o + HEAD + h[o + 10]] == h[o + HEAD..o + HEAD + h[o + 10]];
  }

  lemma ReadInode(h: seq<Byte>, o: nat, n: nat)
    requires Read(h, o).recLen > 0 && n < 0x1_0000_0000_0000_0000
    ensures o + 8 <= |h| && Read(Write(h, o, Le64(n)), o) == Read(h, o).(inode := n)
  {
    var t := Write(h, o, Le64(n));
    FromLe64(n);
    assert t[o..o + 8] == Le64(n) && t[o + 10] == h[o + 10] && t[o + 8..o + 10] == h[o + 8..o + 10];
    assert t[o + HEAD..o + HEAD + h[o + 10]] == h[o + HEAD..o + HEAD + h[o + 10]];
  }

  /** The bytes of an entry, with its file type. */
  function Encode(d: Dirent, kind: Byte): (b: seq<Byte>)
    requires d.inode < 0x1_0000_0000_0000_0000 && d.recLen < 65536 && |d.name| <= MAXNAME
    ensures |b| == HEAD + |d.name|
  {
    Le64(d.inode) + BlockCheck.Le16(d.recLen) + [|d.name|, kind] + d.name
  }

  lemma ReadEncoded(h: seq<Byte>, o: nat, d: Dirent, kind: Byte)
    requires d.inode < 0x1_0000_0000_0000_0000 && d.recLen < 65536 && |d.name| <= MAXNAME
    requires o + HEAD + |d.name| <= |h|
    ensures Read(Write(h, o, Encode(d, kind)), o) == d
  {
    var b := Encode(d, kind);
    var t := Write(h, o, b);
    FromLe64(d.inode);
    BlockCheck.FromLeLe16(d.recLen);
    assert b[0..8] == Le64(d.inode) && b[8..10] == BlockCheck.Le16(d.recLen) && b[10] == |d.name|;
    assert b[HEAD..HEAD + |d.name|] == d.name;
    forall i, j | 0 <= i <= j <= |b|
      ensures t[o + i..o + j] == b[i..j]
    {
      assert t[o + i..o + j] == t[o..o + |b|][i..j];
    }
    assert t[o + 10] == t[o..o + |b|][10];
    assert t[o..o + 8] == t[o + 0..o + 8] == b[0..8];
  }

  // ----- The walk -----

  /** The records that a walk from an offset finds. */
  function Chain(h: seq<Byte>, o: nat): seq<Dirent>
    decreases |h| - o
  {
    var d := Read(h, o);
    if o >= |h| || d.recLen == 0 then [] else [d] + Chain(h, o + d.recLen)
  }

  /** The walk meets well-formed records and ends at the end of the block. */
  predicate Walks(h: seq<Byte>, o: nat)
    decreases |h| - o
  {
    o == |h| || (o < |h| && DirentOk(Read(h, o)) && Walks(h, o + Read(h, o).recLen))
  }

  /** The records of a walk from a that begin before o, when o is on the walk. */
  function Before(h: seq<Byte>, a: nat, o: nat): seq<Dirent>
    decreases o - a
  {
    var d := Read(h, a);
    if a >= o || a >= |h| || d.recLen == 0 then [] else [d] + Before(h, a + d.recLen, o)
  }

  predicate Reaches(h: seq<Byte>, a: nat, o: nat)
    decreases o - a
  {
    a == o || (a < o && a < |h| && Read(h, a).recLen > 0 && Reaches(h, a + Read(h, a).recLen, o))
  }

  /** A well-formed record has its own bytes within it. */
  lemma ExtentFits(h: seq<Byte>, o: nat)
    requires DirentOk(Read(h, o))
    ensures Extent(h, o) <= o + Read(h, o).recLen && Extent(h, o) <= |h| && o + HEAD <= |h|
  {
    RecLenOk(|Read(h, o).name|);
  }

  lemma {:induction false} WalksTiles(h: seq<Byte>, o: nat)
    requires Walks(h, o)
    ensures o <= |h| && Tiles(Chain(h, o), |h| - o)
    decreases |h| - o
  {
    hide Read;
    if o < |h| {
      var n := o + Read(h, o).recLen;
      WalksTiles(h, n);
      assert Chain(h, o)[1..] == Chain(h, n);
    }
  }

  /** A walk goes the same way as long as nothing before o has changed. */
  lemma {:induction false} ChainSplit(h: seq<Byte>, t: seq<Byte>, a: nat, o: nat)
    requires Walks(h, a) && Reaches(h, a, o) && o <= |h| && o <= |t| && h[..o] == t[..o]
    ensures Walks(h, o) && Chain(t, a) == Before(h, a, o) + Chain(t, o)
    ensures Walks(t, a) <==> Walks(t, o)
    ensures Before(t, a, o) == Before(h, a, o) && Reaches(t, a, o)
    decreases o - a
  {
    hide Read, DirentOk;
    if a < o {
      OkLength(Read(h, a));
      ExtentFits(h, a);
      var n := a + Read(h, a).recLen;
      ReachesBeyond(h, n, o);
      ReadPrefix(h, t, a, o);
      ChainSplit(h, t, n, o);
    }
  }

  lemma OkLength(d: Dirent)
    requires DirentOk(d)
    ensures d.recLen > 0 && d.recLen % 4 == 0
  {
  }

  lemma ReachesBeyond(h: seq<Byte>, a: nat, target: nat)
    requires Reaches(h, a, target)
    ensures a <= target
  {
  }

  /** What lies behind an offset alone decides the walk from there. */
  lemma {:induction false} ChainBehind(h: seq<Byte>, t: seq<Byte>, o: nat)
    requires Walks(h, o) && o <= |h| == |t| && h[o..] == t[o..]
    ensures Walks(t, o) && Chain(t, o) == Chain(h, o)
    decreases |h| - o
  {
    hide Read, DirentOk;
    if o < |h| {
      OkLength(Read(h, o));
      ReadBehind(h, t, o, o);
      var n := o + Read(h, o).recLen;
      WalksTiles(h, n);
      assert h[n..] == h[o..][n - o..] == t[o..][n - o..] == t[n..];
      ChainBehind(h, t, n);
    }
  }

  lemma {:induction false} BeforeStep(h: seq<Byte>, a: nat, o: nat)
    requires Walks(h, a) && Reaches(h, a, o) && o < |h| && Read(h, o).recLen > 0
    ensures Reaches(h, a, o + Read(h, o).recLen)
    ensures Before(h, a, o + Read(h, o).recLen) == Before(h, a, o) + [Read(h, o)]
    decreases o - a
  {
    hide Read;
    if a < o {
      BeforeStep(h, a + Read(h, a).recLen, o);
    } else {
      var n := o + Read(h, o).recLen;
      assert Before(h, n, n) == [];
    }
  }

  lemma WalkEnds(h: seq<Byte>)
    ensures Reaches(h, 0, 0) && Before(h, 0, 0) == [] && Chain(h, |h|) == [] && Walks(h, |h|)
  {
  }

  lemma Step(h: seq<Byte>, o: nat)
    requires DirentOk(Read(h, o))
    ensures var n := o + Read(h, o).recLen;
      Chain(h, o) == [Read(h, o)] + Chain(h, n) && (Walks(h, o) <==> Walks(h, n))
  {
    ExtentFits(h, o);
  }

  /** Where a record and what follows it stand in the whole. */
  lemma RecordAt(h: seq<Byte>, o: nat)
    requires Walks(h, 0) && Reaches(h, 0, o) && o < |h|
    ensures var d := Read(h, o); var n := o + d.recLen;
      && Walks(h, o) && DirentOk(d) && d.recLen > 0 && n <= |h| && o + HEAD <= Extent(h, o) <= n
      && Walks(h, n) && Reaches(h, 0, n) && Before(h, 0, n) == Before(h, 0, o) + [d]
      && Chain(h, 0) == Before(h, 0, o) + [d] + Chain(h, n)
  {
    hide Read;
    ChainSplit(h, h, 0, o);
    ExtentFits(h, o);
    BeforeStep(h, 0, o);
    WalksTiles(h, o + Read(h, o).recLen);
  }

  /** Records on the walk do not begin inside each other. */
  lemma ReachesNext(h: seq<Byte>, o: nat, target: nat)
    requires Walks(h, 0) && Reaches(h, 0, o) && o < |h|
    ensures o < target < |h| && Reaches(h, 0, target) ==> o + Read(h, o).recLen <= target
  {
    if o < target < |h| && Reaches(h, 0, target) {
      ReachesFrom(h, 0, o, target);
    }
  }

  lemma {:induction false} ReachesFrom(h: seq<Byte>, a: nat, o: nat, target: nat)
    requires Walks(h, a) && Reaches(h, a, o) && Reaches(h, a, target) && o < target < |h|
    ensures o + Read(h, o).recLen <= target
    decreases o - a
  {
    hide Read;
    if a < o {
      ReachesFrom(h, a + Read(h, a).recLen, o, target);
    } else {
      ReachesBeyond(h, o + Read(h, o).recLen, target);
    }
  }

  /** A change to the record at o alone, or to what it covers. */
  lemma RecordChanged(h: seq<Byte>, t: seq<Byte>, o: nat, n: nat)
    requires Walks(h, 0) && Reaches(h, 0, o) && Walks(h, n) && o < n <= |h| == |t|
    requires h[..o] == t[..o] && h[n..] == t[n..]
    ensures Walks(t, n) && Chain(t, n) == Chain(h, n)
    ensures Chain(t, 0) == Before(h, 0, o) + Chain(t, o) && (Walks(t, 0) <==> Walks(t, o))
  {
    ChainSplit(h, t, 0, o);
    ChainBehind(h, t, n);
  }

  // ----- Changing the bytes -----

  /** The bytes after the record at o has gone to the one at prev. */
  function AfterDelete(h: seq<Byte>, prev: nat, o: nat): (t: seq<Byte>)
    requires prev + 10 <= |h| && o + 8 <= |h| && Read(h, prev).recLen + Read(h, o).recLen < 65536
    ensures |t| == |h|
  {
    Write(Write(h, prev + 8, BlockCheck.Le16(Read(h, prev).recLen + Read(h, o).recLen)), o, Le64(0))
  }

  lemma DeletedChain(h: seq<Byte>, prev: nat, o: nat)
    requires Walks(h, 0) && Reaches(h, 0, prev) && prev < |h| < 65536 && prev + Read(h, prev).recLen == o < |h|
    ensures prev + 10 <= |h| && o + 8 <= |h| && Read(h, prev).recLen + Read(h, o).recLen < 65536
    ensures var t, k := AfterDelete(h, prev, o), |Before(h, 0, prev)| + 1;
      && Walks(t, 0) && k < |Chain(h, 0)| && Before(h, 0, o) == Before(h, 0, prev) + [Read(h, prev)]
      && Chain(t, 0) == Deleted(Chain(h, 0), k)
  {
    hide Chain, Walks, Reaches, Before, DirentOk, Read, Write;
    RecordAt(h, prev);
    RecordAt(h, o);
    var p, d := Read(h, prev), Read(h, o);
    var n, sum := o + d.recLen, p.recLen + d.recLen;
    var u := Write(h, prev + 8, BlockCheck.Le16(sum));
    ReadRecLen(h, prev, sum);
    var t := Write(u, o, Le64(0));
    ReadPrefix(u, t, prev, o);
    KeptOutside(h, prev, n, u, prev + 8, 2);
    KeptOutside(u, prev, n, t, o, 8);
    RecordChanged(h, t, prev, n);
    OkLength(d);
    GrownOk(p, d.recLen);
    Step(t, prev);
  }

  /** A write inside [a, n) leaves the rest. */
  lemma KeptOutside(h: seq<Byte>, a: nat, n: nat, t: seq<Byte>, o: nat, len: nat)
    requires a <= o && o + len <= n <= |h| == |t| && t[..o] == h[..o] && t[o + len..] == h[o + len..]
    ensures t[..a] == h[..a] && t[n..] == h[n..]
  {
    assert t[..a] == t[..o][..a] == h[..o][..a] == h[..a];
    assert t[n..] == t[o + len..][n - (o + len)..] == h[o + len..][n - (o + len)..] == h[n..];
  }

  lemma DeletedFirst(h: seq<Byte>)
    requires Walks(h, 0) && 0 < |h|
    ensures 8 <= |h|
    ensures var t := Write(h, 0, Le64(0)); Walks(t, 0) && 0 < |Chain(h, 0)| && Chain(t, 0) == Deleted(Chain(h, 0), 0)
  {
    hide Chain, Walks, Reaches, Before, DirentOk, Read, Write;
    WalkEnds(h);
    RecordAt(h, 0);
    var d := Read(h, 0);
    var t := Write(h, 0, Le64(0));
    ReadInode(h, 0, 0);
    KeptOutside(h, 0, d.recLen, t, 0, 8);
    RecordChanged(h, t, 0, d.recLen);
    FreedOk(d);
    Step(t, 0);
  }

  lemma FreedOk(d: Dirent)
    requires DirentOk(d)
    ensures DirentOk(d.(inode := 0))
  {
  }

  predicate Fits(h: seq<Byte>, o: nat, name: Name, inode: nat) {
    && o < |h| < 65536 && DirentOk(Read(h, o)) && o + Read(h, o).recLen <= |h|
    && WouldFit(Read(h, o), RecLen(|name|)) && 0 < |name| <= MAXNAME && inode < 0x1_0000_0000_0000_0000
    && (IsLive(Read(h, o)) ==> Read(h, o).name != [])
  }

  /** The bytes after an entry went into the record at o, behind the live entry there if there is
      one. */
  function AfterAdd(h: seq<Byte>, o: nat, name: Name, inode: nat, kind: Byte): (t: seq<Byte>)
    requires Fits(h, o, name, inode)
    ensures |t| == |h|
  {
    var d := Read(h, o);
    RecLenOk(|name|);
    RecLenOk(|d.name|);
    if IsLive(d) then
      var u := RecLen(|d.name|);
      Write(Write(h, o + 8, BlockCheck.Le16(u)), o + u, Encode(Dirent(inode, name, d.recLen - u), kind))
    else
      FreeFits(d, RecLen(|name|));
      Write(h, o, Encode(Dirent(inode, name, d.recLen), kind))
  }

  /** The bytes outside the record stay, and inside it the one or two entries read as the split of
      the record. */
  predicate Reads(h: seq<Byte>, t: seq<Byte>, o: nat, name: Name, inode: nat)
    requires WouldFit(Read(h, o), RecLen(|name|))
  {
    var d := Read(h, o);
    var r := Split(d, name, inode);
    && |t| == |h| && o + d.recLen <= |h| && t[..o] == h[..o] && t[o + d.recLen..] == h[o + d.recLen..]
    && Read(t, o) == r[0] && (IsLive(d) ==> Read(t, o + RecLen(|d.name|)) == r[1])
  }

  lemma AddedBehind(h: seq<Byte>, o: nat, name: Name, inode: nat, kind: Byte)
    requires Fits(h, o, name, inode) && IsLive(Read(h, o))
    ensures Reads(h, AfterAdd(h, o, name, inode, kind), o, name, inode)
  {
    hide Read, Write, Encode, RecLen, DirentOk;
    var d := Read(h, o);
    var n := o + d.recLen;
    RecLenOk(|name|);
    RecLenOk(|d.name|);
    OkLength(d);
    var u := RecLen(|d.name|);
    var v := Write(h, o + 8, BlockCheck.Le16(u));
    var e := Dirent(inode, name, d.recLen - u);
    var t := Write(v, o + u, Encode(e, kind));
    ReadRecLen(h, o, u);
    ReadEncoded(v, o + u, e, kind);
    ReadPrefix(v, t, o, o + u);
    KeptOutside(h, o, n, v, o + 8, 2);
    KeptOutside(v, o, n, t, o + u, HEAD + |name|);
  }

  lemma AddedInFree(h: seq<Byte>, o: nat, name: Name, inode: nat, kind: Byte)
    requires Fits(h, o, name, inode) && !IsLive(Read(h, o))
    ensures Reads(h, AfterAdd(h, o, name, inode, kind), o, name, inode)
  {
    hide Read, Write, Encode, RecLen;
    var d := Read(h, o);
    RecLenOk(|name|);
    FreeFits(d, RecLen(|name|));
    ReadEncoded(h, o, Dirent(inode, name, d.recLen), kind);
    KeptOutside(h, o, o + d.recLen, AfterAdd(h, o, name, inode, kind), o, HEAD + |name|);
  }

  lemma AddedReads(h: seq<Byte>, o: nat, name: Name, inode: nat, kind: Byte)
    requires Fits(h, o, name, inode)
    ensures Reads(h, AfterAdd(h, o, name, inode, kind), o, name, inode)
  {
    hide Reads, AfterAdd;
    if IsLive(Read(h, o)) {
      AddedBehind(h, o, name, inode, kind);
    } else {
      AddedInFree(h, o, name, inode, kind);
    }
  }

  lemma AddedChain(h: seq<Byte>, o: nat, name: Name, inode: nat, kind: Byte)
    requires Walks(h, 0) && Reaches(h, 0, o) && Fits(h, o, name, inode)
    ensures var t, k := AfterAdd(h, o, name, inode, kind), |Before(h, 0, o)|;
      && Walks(t, 0)
      && k < |Chain(h, 0)| && Chain(h, 0)[k] == Read(h, o) && Chain(t, 0) == Added(Chain(h, 0), k, name, inode)
  {
    hide Chain, Walks, Reaches, Before, RecLen, DirentOk, Read, AfterAdd;
    var d := Read(h, o);
    RecordAt(h, o);
    SplitOk(d, name, inode);
    AddedReads(h, o, name, inode, kind);
    var t := AfterAdd(h, o, name, inode, kind);
    RecordChanged(h, t, o, o + d.recLen);
    Step(t, o);
    if IsLive(d) {
      Step(t, o + RecLen(|d.name|));
    }
  }

  /** The last record, grown by what the buffer is longer than before. */
  lemma ExpandedChain(h: seq<Byte>, g: seq<Byte>, o: nat, bytes: nat)
    requires Walks(h, 0) && Reaches(h, 0, o) && o < |h| && o + Read(h, o).recLen == |h| && bytes % 4 == 0
    requires |g| == |h| + bytes < 65536 && g[..|h|] == h
    ensures o + 10 <= |g|
    ensures var t := Write(g, o + 8, BlockCheck.Le16(Read(h, o).recLen + bytes));
      Walks(t, 0) && Chain(h, 0) != [] && Chain(t, 0) == Expanded(Chain(h, 0), bytes)
  {
    hide Chain, Walks, Reaches, Before, DirentOk, Read, Write;
    RecordAt(h, o);
    WalkEnds(h);
    var d := Read(h, o);
    ReadPrefix(h, g, o, |h|);
    ReadRecLen(g, o, d.recLen + bytes);
    var t := Write(g, o + 8, BlockCheck.Le16(d.recLen + bytes));
    GrownOk(d, bytes);
    assert t[..o] == t[..o + 8][..o] == g[..o + 8][..o] == g[..o] == g[..|h|][..o] == h[..o];
    ChainSplit(h, t, 0, o);
    WalkEnds(t);
    Step(t, o);
  }

  datatype AddStatus = AddDone | AddExists | AddBug

  /** A block of directory entries, in its bytes. */
  class DirBuffer {
    const data: array<Byte>

    ghost predicate Valid()
      reads this, data
    {
      Walks(data[..], 0) && data.Length < 65536
    }

    /** The entries that a walk from the start meets. */
    ghost function Contents(): seq<Dirent>
      reads this, data
    {
      Chain(data[..], 0)
    }

    /** ocfs2_extend_dir(): a new block with one free record. */
    constructor (size: nat)
      requires MINREC <= size < 65536 && size % 4 == 0
      ensures Valid() && fresh(data) && data.Length == size && Contents() == [Dirent(0, [], size)]
    {
      data := new Byte[size](_ => 0);
      new;
      ghost var b := Encode(Dirent(0, [], size), 0);
      ghost var h := data[..];
      ZeroBytes();
      assert h[..8] == Le64(0) && h[8..10] == BlockCheck.Le16(0);
      assert h[0..HEAD] == Encode(Dirent(0, [], 0), 0);
      assert Write(h, 0, Encode(Dirent(0, [], 0), 0)) == h;
      WriteBytes(8, BlockCheck.Le16(size));
      FreshBlock(h, size);
    }

    /** Bytes of the buffer are overwritten. */
    method WriteBytes(o: nat, b: seq<Byte>)
      requires o + |b| <= data.Length
      modifies data
      ensures data[..] == Write(old(data[..]), o, b)
    {
      for i := 0 to |b|
        invariant forall j :: 0 <= j < data.Length ==> data[j] == if o <= j < o + i then b[j - o] else old(data[j])
      {
        data[o + i] := b[i];
      }
    }

    /** The record at this offset is number i of the block. */
    ghost predicate OffsetOf(offset: nat, i: nat)
      reads this, data
    {
      offset < data.Length && Reaches(data[..], 0, offset) && |Before(data[..], 0, offset)| == i
    }

    /** ocfs2_search_dirblock(). */
    method Search(name: Name) returns (found: bool, offset: nat, ghost i: nat)
      requires Valid()
      ensures found <==> exists j :: 0 <= j < |Contents()| && Matches(Contents()[j], name)
      ensures found ==> i == FindIn(Contents(), name) < |Contents()| && Matches(Contents()[i], name)
      ensures found ==> OffsetOf(offset, i)
    {
      hide Chain, Walks, Reaches, Before, DirentOk, Matches, Read;
      ghost var h := data[..];
      WalkEnds(h);
      offset, i := 0, 0;
      while offset < data.Length
        invariant offset <= data.Length && Reaches(h, 0, offset) && h == data[..]
        invariant Contents() == Before(h, 0, offset) + Chain(h, offset) && i == |Before(h, 0, offset)|
        invariant forall j :: 0 <= j < i ==> !Matches(Contents()[j], name)
        decreases data.Length - offset
      {
        RecordAt(h, offset);
        var d := Read(data[..], offset);
        assert Contents()[i] == d;
        if Matches(d, name) {
          FindFirst(Contents(), name, i);
          found := true;
          return;
        }
        offset := offset + d.recLen;
        i := i + 1;
      }
      found := false;
    }

    /** __ocfs2_delete_entry(): the walk finds the record by its place, if it is one, and keeps the
        one before.  Deleting a live entry is one removal from the map from names to inodes. */
    method Delete(target: nat) returns (found: bool, ghost k: nat)
      requires Valid()
      modifies data
      ensures Valid() && (found <==> target < data.Length && Reaches(old(data[..]), 0, target))
      ensures found ==> old(OffsetOf(target, k)) && k < |old(Contents())| && Contents() == Deleted(old(Contents()), k)
      ensures !found ==> Contents() == old(Contents())
      ensures found && BlockOk(old(Contents()), data.Length) && IsLive(old(Contents())[k]) ==>
                && BlockOk(Contents(), data.Length)
                && Live(Contents()) == Live(old(Contents())) - {old(Contents())[k].name}
    {
      hide Chain, Walks, Reaches, Before, DirentOk, Deleted, Read, Write, BlockOk, Live;
      ghost var h := data[..];
      WalkEnds(h);
      var offset: nat, hasPrev, prev: nat := 0, false, 0;
      k := 0;
      while offset < data.Length
        invariant offset <= data.Length && Reaches(h, 0, offset) && h == data[..] && k == |Before(h, 0, offset)|
        invariant Reaches(h, 0, target) && target < data.Length ==> offset <= target
        invariant hasPrev <==> offset > 0
        invariant hasPrev ==> prev < offset && Reaches(h, 0, prev) && prev + Read(h, prev).recLen == offset
        decreases data.Length - offset
      {
        RecordAt(h, offset);
        if offset == target {
          if hasPrev {
            DeletedChain(h, prev, target);
            WriteBytes(prev + 8, BlockCheck.Le16(Read(data[..], prev).recLen + Read(data[..], target).recLen));
          } else {
            DeletedFirst(h);
          }
          WriteBytes(target, Le64(0));
          DeletedLive(Chain(h, 0), data.Length, k);
          found := true;
          return;
        }
        ReachesNext(h, offset, target);
        hasPrev, prev := true, offset;
        offset := offset + Read(data[..], offset).recLen;
        k := k + 1;
      }
      found := false;
    }

    /** __ocfs2_add_entry(): into the first record with room, unless one with the name comes first.
        Where no record has room the scan would leave the block, a bug the driver checks for.  A
        successful add is one insert into the map from names to inodes. */
    method Add(name: Name, inode: nat, kind: Byte) returns (status: AddStatus)
      requires Valid() && Named(Contents()) && 0 < |name| <= MAXNAME && inode < 0x1_0000_0000_0000_0000
      modifies data
      ensures var l := old(Contents()); var i := AddScan(l, name);
        && Valid()
        && (status == AddBug <==> i == |l|)
        && (status == AddExists <==> i < |l| && Matches(l[i], name))
        && Contents() == if status == AddDone then Added(l, i, name, inode) else l
      ensures status == AddDone && inode != 0 ==>
                BlockOk(old(Contents()), data.Length) && name !in Live(old(Contents())) ==>
                BlockOk(Contents(), data.Length) && Live(Contents()) == Live(old(Contents()))[name := inode]
    {
      hide RecLen, WouldFit, Matches, Chain, Walks, Reaches, Before, AddScan, Added, DirentOk, Read, Write, Encode,
        BlockOk, Live;
      WalkEnds(data[..]);
      ghost var h := data[..];
      ghost var l := Contents();
      var offset := 0;
      ghost var i := 0;
      while offset < data.Length
        invariant offset <= data.Length && Reaches(h, 0, offset) && h == data[..]
        invariant i == |Before(h, 0, offset)| && l == Before(h, 0, offset) + Chain(h, offset)
        invariant forall j :: 0 <= j < i ==> !Matches(l[j], name) && !WouldFit(l[j], RecLen(|name|))
        decreases data.Length - offset
      {
        RecordAt(h, offset);
        var d := Read(data[..], offset);
        assert l[i] == d;
        if Matches(d, name) {
          assert i == AddScan(l, name);
          return AddExists;
        }
        if WouldFit(d, RecLen(|name|)) {
          assert i == AddScan(l, name);
          AddedChain(h, offset, name, inode, kind);
          PutEntry(offset, name, inode, kind);
          AddedLive(l, data.Length, i, name, inode);
          return AddDone;
        }
        offset := offset + d.recLen;
        i := i + 1;
      }
      assert AddScan(l, name) == |l|;
      status := AddBug;
    }

    /** Cut the live entry to what it needs and put the new one behind it, or in the free record. */
    method PutEntry(o: nat, name: Name, inode: nat, kind: Byte)
      requires Fits(data[..], o, name, inode)
      modifies data
      ensures data[..] == AfterAdd(old(data[..]), o, name, inode, kind)
    {
      hide RecLen, Read, Write, Encode, AfterAdd;
      if IsLive(Read(data[..], o)) {
        PutBehind(o, name, inode, kind);
      } else {
        PutInstead(o, name, inode, kind);
      }
    }

    method PutBehind(o: nat, name: Name, inode: nat, kind: Byte)
      requires Fits(data[..], o, name, inode) && IsLive(Read(data[..], o))
      modifies data
      ensures data[..] == AfterAdd(old(data[..]), o, name, inode, kind)
    {
      hide RecLen, Read, Write, Encode;
      var d := Read(data[..], o);
      RecLenOk(|name|);
      RecLenOk(|d.name|);
      var u := RecLen(|d.name|);
      WriteBytes(o + 8, BlockCheck.Le16(u));
      WriteBytes(o + u, Encode(Dirent(inode, name, d.recLen - u), kind));
    }

    method PutInstead(o: nat, name: Name, inode: nat, kind: Byte)
      requires Fits(data[..], o, name, inode) && !IsLive(Read(data[..], o))
      modifies data
      ensures data[..] == AfterAdd(old(data[..]), o, name, inode, kind)
    {
      hide RecLen, Read, Write, Encode;
      var d := Read(data[..], o);
      RecLenOk(|name|);
      FreeFits(d, RecLen(|name|));
      WriteBytes(o, Encode(Dirent(inode, name, d.recLen), kind));
    }

    /** ocfs2_find_max_rec_len(). */
    method FindMaxRecLen() returns (r: nat)
      requires Valid() && data.Length > 0
      ensures r == FreeLen(Contents())
    {
      hide Chain, Walks, Reaches, Before, DirentOk, Read, MaxHole;
      ghost var h := data[..];
      WalkEnds(h);
      NoEntries();
      var offset, largest := 0, 0;
      while offset < data.Length
        invariant offset <= data.Length && Reaches(h, 0, offset)
        invariant Contents() == Before(h, 0, offset) + Chain(h, offset) && largest == MaxHole(Before(h, 0, offset))
        decreases data.Length - offset
      {
        RecordAt(h, offset);
        var d := Read(data[..], offset);
        MaxHoleConcat(Before(h, 0, offset), [d]);
        One(d);
        largest := Max(largest, HoleIn(d));
        offset := offset + d.recLen;
      }
      assert Contents() == Before(h, 0, offset);
      r := if largest >= MINREC then largest else 0;
    }

    /** The first block of a directory that was inline: its records, the last of which grows to the
        end of the block (ocfs2_expand_inline_dir() and ocfs2_expand_last_dirent()). */
    constructor FromInline(from: DirBuffer, size: nat)
      requires from.Valid() && 0 < from.data.Length <= size < 65536 && (size - from.data.Length) % 4 == 0
      ensures Valid() && fresh(data) && data.Length == size && from.Contents() != []
      ensures Contents() == Expanded(from.Contents(), size - from.data.Length)
    {
      hide Chain, Walks, Reaches, Before, DirentOk, Read, Write;
      var oldSize := from.data.Length;
      data := new Byte[size](i requires 0 <= i < size reads from.data =>
        if i < from.data.Length then from.data[i] else 0);
      new;
      ghost var h := from.data[..];
      ghost var g := data[..];
      assert g[..|h|] == h;
      WalkEnds(h);
      var offset: nat, last: nat := 0, 0;
      while offset < oldSize
        invariant offset <= oldSize && Reaches(h, 0, offset) && g == data[..] && h == from.data[..]
        invariant offset > 0 ==> last < offset && Reaches(h, 0, last) && last + Read(h, last).recLen == offset
        decreases oldSize - offset
      {
        RecordAt(h, offset);
        ReadPrefix(h, g, offset, |h|);
        last := offset;
        offset := offset + Read(data[..], offset).recLen;
      }
      RecordAt(h, last);
      ReadPrefix(h, g, last, |h|);
      ExpandedChain(h, g, last, size - oldSize);
      WriteBytes(last + 8, BlockCheck.Le16(Read(data[..], last).recLen + (size - oldSize)));
    }
  }

  lemma FindFirst(l: seq<Dirent>, name: Name, i: nat)
    requires i < |l| && Matches(l[i], name) && forall j :: 0 <= j < i ==> !Matches(l[j], name)
    ensures FindIn(l, name) == i
  {
    hide Matches;
  }

  /** A zeroed buffer with the record length of its first header set. */
  lemma FreshBlock(h: seq<Byte>, size: nat)
    requires MINREC <= size == |h| < 65536 && size % 4 == 0 && Write(h, 0, Encode(Dirent(0, [], 0), 0)) == h
    ensures var t := Write(h, 8, BlockCheck.Le16(size)); Walks(t, 0) && Chain(t, 0) == [Dirent(0, [], size)]
  {
    hide Chain, Walks, Reaches, Before;
    var t := Write(h, 8, BlockCheck.Le16(size));
    var b := Encode(Dirent(0, [], size), 0);
    assert h[0..HEAD] == Encode(Dirent(0, [], 0), 0);
    forall k | 0 <= k < HEAD
      ensures t[k] == b[k]
    {
      assert h[k] == h[0..HEAD][k];
      if k < 8 {
        assert t[k] == t[..8][k] == h[..8][k];
      } else if k < 10 {
        assert t[k] == t[8..10][k - 8];
      } else {
        assert t[k] == t[10..][k - 10] == h[10..][k - 10];
      }
    }
    assert t[0..HEAD] == b;
    assert Write(t, 0, b) == t;
    ReadEncoded(t, 0, Dirent(0, [], size), 0);
    RecLenOk(0);
    WalkEnds(t);
    Step(t, 0);
  }

  lemma ZeroBytes()
    ensures Le64(0) == [0, 0, 0, 0, 0, 0, 0, 0] && BlockCheck.Le16(0) == [0, 0]
    ensures Encode(Dirent(0, [], 0), 0) == [0, 0, 0, 0, 0, 0, 0, 0, 0, 0, 0, 0]
  {
  }

  lemma DeletedLive(l: seq<Dirent>, size: nat, k: nat)
    requires k < |l|
    ensures BlockOk(l, size) && IsLive(l[k]) ==>
            BlockOk(Deleted(l, k), size) && Live(Deleted(l, k)) == Live(l) - {l[k].name}
  {
    hide BlockOk, Live, Deleted;
    if BlockOk(l, size) && IsLive(l[k]) {
      DeleteKeeps(l, size, k);
    }
  }

  lemma AddedLive(l: seq<Dirent>, size: nat, i: nat, name: Name, inode: nat)
    requires i < |l| && WouldFit(l[i], RecLen(|name|)) && name != []
    ensures BlockOk(l, size) && name !in Live(l) && inode != 0 ==>
              BlockOk(Added(l, i, name, inode), size) && Live(Added(l, i, name, inode)) == Live(l)[name := inode]
  {
    hide BlockOk, Live, Added;
    if BlockOk(l, size) && name !in Live(l) && inode != 0 {
      AddKeeps(l, size, i, name, inode);
    }
  }
}
