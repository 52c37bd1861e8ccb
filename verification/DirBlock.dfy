/** The entries of one directory block (dir.c) as a list: records that tile the block, and what
    adding and deleting an entry does to the map from names to inodes. */
module DirBlock {
  import BlockCheck

  type Byte = BlockCheck.Byte

  /** A name is bytes without meaning, up to 255 of them in an entry. */
  type Name = seq<Byte>
  /** A directory entry; the inode number is 0 when it is free. */
  datatype Dirent = Dirent(inode: nat, name: Name, recLen: nat)

  /** The bytes an entry with a name of this length needs. */
  function RecLen(n: nat): nat {
    (n + 12 + 3) / 4 * 4
  }

  const MINREC := 16

  /** ocfs2_check_dir_entry(), but for the end of the block. */
  predicate DirentOk(d: Dirent) {
    d.recLen >= MINREC && d.recLen % 4 == 0 && d.recLen >= RecLen(|d.name|)
  }

  predicate IsLive(d: Dirent) {
    d.inode != 0
  }

  /** ocfs2_match(). */
  predicate Matches(d: Dirent, name: Name) {
    d.name == name && IsLive(d)
  }

  /** ocfs2_figure_dirent_hole(). */
  function HoleIn(d: Dirent): int {
    if IsLive(d) then d.recLen - RecLen(|d.name|) else d.recLen
  }

  /** ocfs2_dirent_would_fit(). */
  predicate WouldFit(d: Dirent, len: nat) {
    (!IsLive(d) && d.recLen >= len) || d.recLen >= RecLen(|d.name|) + len
  }

  /** A well-formed record has room exactly when its hole is large enough. */
  lemma FitsHole(d: Dirent, len: nat)
    requires DirentOk(d) && len > 0
    ensures WouldFit(d, len) <==> HoleIn(d) >= len
  {
  }

  // ----- Lists of entries -----

  function Size(l: seq<Dirent>): nat {
    if l == [] then 0 else l[0].recLen + Size(l[1..])
  }

  predicate AllOk(l: seq<Dirent>) {
    forall i :: 0 <= i < |l| ==> DirentOk(l[i])
  }

  /** The records fill `size` bytes exactly. */
  predicate Tiles(l: seq<Dirent>, size: nat) {
    AllOk(l) && Size(l) == size
  }

  function Own(d: Dirent): map<Name, nat> {
    if IsLive(d) then map[d.name := d.inode] else map[]
  }

  /** The live entries; a later one hides an earlier of the same name. */
  function Live(l: seq<Dirent>): map<Name, nat> {
    if l == [] then map[] else Own(l[0]) + Live(l[1..])
  }

  /** No name is there twice. */
  predicate NoDup(l: seq<Dirent>) {
    l == [] || ((IsLive(l[0]) ==> l[0].name !in Live(l[1..])) && NoDup(l[1..]))
  }

  function Max(a: int, b: int): int {
    if a >= b then a else b
  }

  function MaxHole(l: seq<Dirent>): (r: int)
    ensures r >= 0
  {
    if l == [] then 0 else Max(HoleIn(l[0]), MaxHole(l[1..]))
  }

  /** The free length as it is recorded: holes too small for any entry do not count. */
  function FreeLen(l: seq<Dirent>): (r: nat)
    ensures r <= MaxHole(l) && (r == 0 <==> MaxHole(l) < MINREC)
  {
    if MaxHole(l) >= MINREC then MaxHole(l) else 0
  }

  lemma NoEntries()
    ensures Size([]) == 0 && NoDup([]) && Live([]) == map[] && MaxHole([]) == 0
  {
  }

  lemma {:induction false} SizeConcat(a: seq<Dirent>, b: seq<Dirent>)
    ensures Size(a + b) == Size(a) + Size(b)
  {
    if a == [] {
      assert a + b == b;
    } else {
      SizeConcat(a[1..], b);
      assert (a + b)[1..] == a[1..] + b;
    }
  }

  lemma {:induction false} LiveConcat(a: seq<Dirent>, b: seq<Dirent>)
    ensures Live(a + b) == Live(a) + Live(b)
  {
    hide Own;
    if a == [] {
      assert a + b == b;
    } else {
      LiveConcat(a[1..], b);
      assert (a + b)[1..] == a[1..] + b;
    }
  }

  lemma {:induction false} NoDupConcat(a: seq<Dirent>, b: seq<Dirent>)
    ensures NoDup(a + b) <==> NoDup(a) && NoDup(b) && Live(a).Keys !! Live(b).Keys
  {
    if a == [] {
      assert a + b == b;
    } else {
      NoDupConcat(a[1..], b);
      LiveConcat(a[1..], b);
      assert (a + b)[1..] == a[1..] + b;
    }
  }

  lemma {:induction false} MaxHoleConcat(a: seq<Dirent>, b: seq<Dirent>)
    ensures MaxHole(a + b) == Max(MaxHole(a), MaxHole(b))
  {
    if a == [] {
      assert a + b == b;
    } else {
      MaxHoleConcat(a[1..], b);
      assert (a + b)[1..] == a[1..] + b;
    }
  }

  /** A name is in the map exactly when a live record has it. */
  lemma {:induction false} LiveHas(l: seq<Dirent>, name: Name)
    ensures name in Live(l) <==> exists i :: 0 <= i < |l| && Matches(l[i], name)
  {
    if l != [] {
      LiveHas(l[1..], name);
      if name in Live(l[1..]) {
        var i :| 0 <= i < |l[1..]| && Matches(l[1..][i], name);
        assert Matches(l[i + 1], name);
      } else if exists i :: 0 <= i < |l| && Matches(l[i], name) {
        var i :| 0 <= i < |l| && Matches(l[i], name);
        assert i > 0 ==> Matches(l[1..][i - 1], name);
      }
    }
  }

  /** Some record has the largest hole, and none a larger one. */
  lemma {:induction false} MaxHoleIs(l: seq<Dirent>, i: nat)
    requires i < |l|
    ensures HoleIn(l[i]) <= MaxHole(l)
  {
    if i > 0 {
      MaxHoleIs(l[1..], i - 1);
    }
  }

  lemma {:induction false} MaxHoleSome(l: seq<Dirent>)
    ensures MaxHole(l) > 0 ==> exists i :: 0 <= i < |l| && HoleIn(l[i]) == MaxHole(l)
  {
    if l != [] {
      MaxHoleSome(l[1..]);
      if MaxHole(l) > 0 && HoleIn(l[0]) != MaxHole(l) {
        var i :| 0 <= i < |l[1..]| && HoleIn(l[1..][i]) == MaxHole(l[1..]);
        assert HoleIn(l[i + 1]) == MaxHole(l);
      }
    }
  }

  // ----- Adding -----

  /** Where the add scan stops: the first record with the name or with room for it. */
  function AddScan(l: seq<Dirent>, name: Name): (i: nat)
    ensures i <= |l|
    ensures i < |l| ==> Matches(l[i], name) || WouldFit(l[i], RecLen(|name|))
    ensures forall j :: 0 <= j < i ==> !Matches(l[j], name) && !WouldFit(l[j], RecLen(|name|))
  {
    if l == [] || Matches(l[0], name) || WouldFit(l[0], RecLen(|name|)) then 0 else 1 + AddScan(l[1..], name)
  }

  /** What becomes of the record the new entry goes to: one record, or two when it was live. */
  function Split(d: Dirent, name: Name, inode: nat): (r: seq<Dirent>)
    requires WouldFit(d, RecLen(|name|))
  {
    if IsLive(d) then
      [d.(recLen := RecLen(|d.name|)), Dirent(inode, name, d.recLen - RecLen(|d.name|))]
    else [Dirent(inode, name, d.recLen)]
  }

  function Added(l: seq<Dirent>, i: nat, name: Name, inode: nat): seq<Dirent>
    requires i < |l| && WouldFit(l[i], RecLen(|name|))
  {
    l[..i] + Split(l[i], name, inode) + l[i + 1..]
  }

  /** The entry goes to the first record that has room. */
  function AddedFirst(l: seq<Dirent>, name: Name, inode: nat): seq<Dirent> {
    var i := AddScan(l, name);
    if i < |l| && WouldFit(l[i], RecLen(|name|)) then Added(l, i, name, inode) else l
  }

  lemma RecLenOk(n: nat)
    ensures RecLen(n) % 4 == 0 && n + 12 <= RecLen(n) < n + 16
  {
  }

  /** The live names are not empty. */
  predicate Named(l: seq<Dirent>) {
    forall i :: 0 <= i < |l| && IsLive(l[i]) ==> l[i].name != []
  }

  /** A block between operations: tiled, and its names distinct. */
  predicate BlockOk(l: seq<Dirent>, size: nat) {
    Tiles(l, size) && NoDup(l) && Named(l)
  }

  lemma BlockParts(a: seq<Dirent>, m: seq<Dirent>, b: seq<Dirent>, size: nat)
    ensures BlockOk(a + m + b, size) <==>
            && AllOk(a) && AllOk(m) && AllOk(b) && Named(a) && Named(m) && Named(b)
            && Size(a) + Size(m) + Size(b) == size
            && NoDup(a) && NoDup(m) && NoDup(b)
            && Live(a).Keys !! Live(m).Keys && (Live(a) + Live(m)).Keys !! Live(b).Keys
    ensures Live(a + m + b) == Live(a) + Live(m) + Live(b)
    ensures MaxHole(a + m + b) == Max(Max(MaxHole(a), MaxHole(m)), MaxHole(b))
  {
    hide DirentOk, Size, Live, NoDup, MaxHole;
    SizeConcat(a + m, b);
    SizeConcat(a, m);
    LiveConcat(a + m, b);
    LiveConcat(a, m);
    NoDupConcat(a + m, b);
    NoDupConcat(a, m);
    MaxHoleConcat(a + m, b);
    MaxHoleConcat(a, m);
    PartsOk(a + m, b);
    PartsOk(a, m);
  }

  lemma PartsOk(a: seq<Dirent>, b: seq<Dirent>)
    ensures AllOk(a + b) <==> AllOk(a) && AllOk(b)
    ensures Named(a + b) <==> Named(a) && Named(b)
  {
    hide DirentOk, IsLive;
    var t := a + b;
    assert forall i :: 0 <= i < |a| ==> t[i] == a[i];
    assert forall i :: 0 <= i < |b| ==> t[|a| + i] == b[i];
  }

  /** What one record contributes. */
  lemma One(d: Dirent)
    ensures Size([d]) == d.recLen && NoDup([d]) && MaxHole([d]) == Max(HoleIn(d), 0)
    ensures Live([d]) == Own(d)
  {
    assert [d][1..] == [];
  }

  lemma SplitOk(d: Dirent, name: Name, inode: nat)
    requires DirentOk(d) && WouldFit(d, RecLen(|name|)) && name != [] && (IsLive(d) ==> d.name != [])
    ensures AllOk(Split(d, name, inode))
  {
    hide RecLen;
    RecLenOk(|name|);
    RecLenOk(|d.name|);
    Fourths(d.recLen, RecLen(|d.name|));
  }

  lemma Fourths(a: int, b: int)
    requires a % 4 == 0 && b % 4 == 0
    ensures (a - b) % 4 == 0
  {
  }

  lemma FreeFits(d: Dirent, len: nat)
    requires DirentOk(d) && WouldFit(d, len) && !IsLive(d)
    ensures d.recLen >= len
  {
  }

  lemma SplitInside(d: Dirent, name: Name)
    requires WouldFit(d, RecLen(|name|)) && IsLive(d)
    ensures 0 < RecLen(|d.name|) < d.recLen
  {
  }

  lemma SplitKeeps(d: Dirent, name: Name, inode: nat)
    requires DirentOk(d) && WouldFit(d, RecLen(|name|)) && inode != 0 && name != []
    requires IsLive(d) ==> d.name != [] && d.name != name
    ensures BlockOk(Split(d, name, inode), d.recLen)
    ensures Live(Split(d, name, inode)) == Own(d) + map[name := inode]
  {
    SplitOk(d, name, inode);
    var r := Split(d, name, inode);
    if IsLive(d) {
      assert r[1..] == [r[1]];
      One(r[1]);
    } else {
      One(r[0]);
    }
  }

  /** An add keeps the tiling and is one insert into the map of live entries. */
  lemma AddKeeps(l: seq<Dirent>, size: nat, i: nat, name: Name, inode: nat)
    requires BlockOk(l, size) && name !in Live(l) && name != [] && inode != 0
    requires i < |l| && WouldFit(l[i], RecLen(|name|))
    ensures BlockOk(Added(l, i, name, inode), size) && Live(Added(l, i, name, inode)) == Live(l)[name := inode]
  {
    hide RecLen, Size, Live, NoDup, MaxHole, WouldFit, Split, BlockOk;
    var d := l[i];
    var a, b := l[..i], l[i + 1..];
    assert l == a + [d] + b;
    BlockParts(a, [d], b, size);
    One(d);
    SplitKeeps(d, name, inode);
    Parted(Split(d, name, inode), d.recLen);
    BlockParts(a, Split(d, name, inode), b, size);
  }

  lemma Parted(l: seq<Dirent>, size: nat)
    requires BlockOk(l, size)
    ensures AllOk(l) && Named(l) && Size(l) == size && NoDup(l)
  {
  }

  // ----- Deleting -----

  /** The record goes to the one before it; the first of a block is only marked free. */
  function Deleted(l: seq<Dirent>, i: nat): seq<Dirent>
    requires i < |l|
  {
    if i == 0 then [l[0].(inode := 0)] + l[1..]
    else l[..i - 1] + [l[i - 1].(recLen := l[i - 1].recLen + l[i].recLen)] + l[i + 1..]
  }

  lemma DeleteFirst(d: Dirent, b: seq<Dirent>, size: nat)
    requires BlockOk([d] + b, size) && IsLive(d)
    ensures var t := [d.(inode := 0)] + b;
      BlockOk(t, size) && Live(t) == Live([d] + b) - {d.name} && MaxHole(t) >= MINREC
    ensures d.name in Live([d] + b)
  {
    hide RecLen, Size, Live, NoDup, MaxHole, BlockOk;
    var e := d.(inode := 0);
    assert [d] + b == [] + [d] + b && [e] + b == [] + [e] + b;
    BlockParts([], [d], b, size);
    BlockParts([], [e], b, size);
    One(d);
    One(e);
  }

  lemma DeleteLater(a: seq<Dirent>, p: Dirent, d: Dirent, b: seq<Dirent>, size: nat)
    requires BlockOk(a + [p, d] + b, size) && IsLive(d)
    ensures var t := a + [p.(recLen := p.recLen + d.recLen)] + b;
      BlockOk(t, size) && Live(t) == Live(a + [p, d] + b) - {d.name} && MaxHole(t) >= MINREC
    ensures d.name in Live(a + [p, d] + b)
  {
    hide RecLen, Size, Live, NoDup, MaxHole, BlockOk;
    var e := p.(recLen := p.recLen + d.recLen);
    assert [p, d] == [p] + [d];
    BlockParts(a, [p, d], b, size);
    SizeConcat([p], [d]);
    LiveConcat([p], [d]);
    NoDupConcat([p], [d]);
    PartsOk([p], [d]);
    One(p);
    One(d);
    One(e);
    GrownOk(p, d.recLen);
    BlockParts(a, [e], b, size);
  }

  /** A delete keeps the tiling, takes one entry out of the map, and leaves a hole that will hold
      an entry. */
  lemma DeleteKeeps(l: seq<Dirent>, size: nat, i: nat)
    requires BlockOk(l, size) && i < |l| && IsLive(l[i])
    ensures BlockOk(Deleted(l, i), size) && Live(Deleted(l, i)) == Live(l) - {l[i].name}
    ensures l[i].name in Live(l) && FreeLen(Deleted(l, i)) > 0
  {
    hide RecLen, Size, Live, NoDup, MaxHole, BlockOk;
    if i == 0 {
      assert l == [l[0]] + l[1..];
      DeleteFirst(l[0], l[1..], size);
    } else {
      assert l == l[..i - 1] + [l[i - 1], l[i]] + l[i + 1..];
      DeleteLater(l[..i - 1], l[i - 1], l[i], l[i + 1..], size);
    }
  }

  // ----- Growing -----

  /** ocfs2_expand_last_dirent(): the last record takes the rest of the block. */
  function Expanded(l: seq<Dirent>, bytes: nat): seq<Dirent>
    requires l != []
  {
    l[..|l| - 1] + [l[|l| - 1].(recLen := l[|l| - 1].recLen + bytes)]
  }

  lemma ExpandKeeps(l: seq<Dirent>, size: nat, bytes: nat)
    requires BlockOk(l, size) && l != [] && bytes % 4 == 0
    ensures BlockOk(Expanded(l, bytes), size + bytes) && Live(Expanded(l, bytes)) == Live(l)
    ensures MaxHole(Expanded(l, bytes)) == Max(MaxHole(l), HoleIn(Expanded(l, bytes)[|l| - 1]))
  {
    hide RecLen, Size, Live, NoDup, MaxHole, BlockOk, DirentOk, HoleIn;
    var a, d := l[..|l| - 1], l[|l| - 1];
    var e := d.(recLen := d.recLen + bytes);
    assert l == a + [d] + [];
    assert Expanded(l, bytes) == a + [e] + [];
    BlockParts(a, [d], [], size);
    One(d);
    One(e);
    GrownOk(d, bytes);
    BlockParts(a, [e], [], size + bytes);
  }

  lemma GrownOk(d: Dirent, bytes: nat)
    requires DirentOk(d) && bytes % 4 == 0
    ensures DirentOk(d.(recLen := d.recLen + bytes))
    ensures HoleIn(d.(recLen := d.recLen + bytes)) == HoleIn(d) + bytes
  {
  }

  // ----- Over whole runs -----

  /** The first live record with the name. */
  function FindIn(l: seq<Dirent>, name: Name): (i: nat)
    ensures i <= |l| && (i < |l| ==> Matches(l[i], name)) && forall j :: 0 <= j < i ==> !Matches(l[j], name)
  {
    if l == [] || Matches(l[0], name) then 0 else 1 + FindIn(l[1..], name)
  }

  lemma FindLive(l: seq<Dirent>, name: Name)
    ensures FindIn(l, name) < |l| <==> name in Live(l)
  {
    LiveHas(l, name);
  }

  /** An entry added, for a name that the caller has not found, or deleted by its name. */
  datatype Op = Adds(name: Name, inode: nat) | Deletes(name: Name)

  /** Whether the operation has an effect: a record has room, or the name is there. */
  predicate Works(l: seq<Dirent>, op: Op) {
    match op
    case Adds(name, inode) =>
      name !in Live(l) && name != [] && inode != 0 && AddScan(l, name) < |l| && !Matches(l[AddScan(l, name)], name)
    case Deletes(name) => FindIn(l, name) < |l|
  }

  function Do(l: seq<Dirent>, op: Op): seq<Dirent> {
    if !Works(l, op) then l
    else match op
      case Adds(name, inode) => Added(l, AddScan(l, name), name, inode)
      case Deletes(name) => Deleted(l, FindIn(l, name))
  }

  function DoAll(l: seq<Dirent>, ops: seq<Op>): seq<Dirent>
    decreases |ops|
  {
    if ops == [] then l else DoAll(Do(l, ops[0]), ops[1..])
  }

  /** The operations of a run that have an effect. */
  function Effective(l: seq<Dirent>, ops: seq<Op>): seq<Op>
    decreases |ops|
  {
    if ops == [] then [] else (if Works(l, ops[0]) then [ops[0]] else []) + Effective(Do(l, ops[0]), ops[1..])
  }

  /** What they do to a map from names to inodes. */
  function MapAll(m: map<Name, nat>, ops: seq<Op>): map<Name, nat>
    decreases |ops|
  {
    if ops == [] then m
    else MapAll(if ops[0].Adds? then m[ops[0].name := ops[0].inode] else m - {ops[0].name}, ops[1..])
  }

  lemma DoKeeps(l: seq<Dirent>, size: nat, op: Op)
    requires BlockOk(l, size) && Works(l, op)
    ensures BlockOk(Do(l, op), size)
    ensures Live(Do(l, op)) == if op.Adds? then Live(l)[op.name := op.inode] else Live(l) - {op.name}
  {
    hide BlockOk, Live, Added, Deleted, RecLen, WouldFit;
    match op
    case Adds(name, inode) => AddKeeps(l, size, AddScan(l, name), name, inode);
    case Deletes(name) => DeleteKeeps(l, size, FindIn(l, name));
  }

  /** After any run of adds and deletes the records tile the block, names are distinct, and the live
      entries are those of the start with the inserts and removals of the run made to them. */
  lemma {:induction false} RunKeeps(l: seq<Dirent>, size: nat, ops: seq<Op>)
    requires BlockOk(l, size)
    ensures BlockOk(DoAll(l, ops), size) && Live(DoAll(l, ops)) == MapAll(Live(l), Effective(l, ops))
    decreases |ops|
  {
    hide BlockOk, Live, Do, Works;
    if ops != [] {
      var op := ops[0];
      if Works(l, op) {
        DoKeeps(l, size, op);
        RunKeeps(Do(l, op), size, ops[1..]);
        var rest := Effective(Do(l, op), ops[1..]);
        assert ([op] + rest)[1..] == rest;
      } else {
        assert Do(l, op) == l by { Idle(l, op); }
        RunKeeps(l, size, ops[1..]);
        assert [] + Effective(l, ops[1..]) == Effective(l, ops[1..]);
      }
    }
  }

  lemma Idle(l: seq<Dirent>, op: Op)
    requires !Works(l, op)
    ensures Do(l, op) == l
  {
  }
}
