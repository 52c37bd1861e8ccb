/** The forms of compute and validate that take a block spread over several buffers of equal
    size (the _bhs functions of blockcheck.c).  They are proved to do to the concatenation of
    the buffers exactly what the single-buffer forms do, so single-bit repair holds for them. */
module BlockCheckBuffers {
  import opened BitMath
  import opened BlockCheck

  ghost function Flat(parts: seq<seq<Byte>>): (s: seq<Byte>) {
    if parts == [] then [] else Flat(parts[..|parts| - 1]) + parts[|parts| - 1]
  }

  ghost function Parts(bufs: seq<array<Byte>>): (parts: seq<seq<Byte>>)
    reads bufs
    ensures |parts| == |bufs| && forall i | 0 <= i < |bufs| :: parts[i] == bufs[i][..]
  {
    seq(|bufs|, i requires 0 <= i < |bufs| reads bufs => bufs[i][..])
  }

  /** Buffers of one size, no two the same, that together are no larger than a block. */
  ghost predicate Buffers(bufs: seq<array<Byte>>, size: nat) {
    && size > 0
    && (forall i | 0 <= i < |bufs| :: bufs[i].Length == size)
    && (forall i, j | 0 <= i < j < |bufs| :: bufs[i] != bufs[j])
    && |bufs| * size <= MAX_BLOCK
  }

  lemma {:induction false} FlatLength(parts: seq<seq<Byte>>, size: nat)
    requires forall i | 0 <= i < |parts| :: |parts[i]| == size
    ensures |Flat(parts)| == |parts| * size
  {
    if parts != [] {
      FlatLength(parts[..|parts| - 1], size);
    }
  }

  lemma FlatNext(parts: seq<seq<Byte>>, i: nat)
    requires i < |parts|
    ensures Flat(parts[..i + 1]) == Flat(parts[..i]) + parts[i]
  {
    assert parts[..i + 1][..i] == parts[..i];
  }

  /** Bit k of buffer b, and byte `off` of buffer `at`, within the whole. */
  function WholeBit(size: nat, b: nat, k: nat): nat {
    8 * (size * b) + k
  }

  function WholeByte(size: nat, at: nat, off: nat): nat {
    at * size + off
  }

  lemma WholeBitFits(size: nat, b: nat, k: nat, n: nat)
    requires k < 8 * size
    ensures b < n ==> WholeBit(size, b, k) < 8 * (n * size)
    ensures b == n ==> WholeBit(size, b, k) == 8 * (n * size) + k
  {
    assert size * b == b * size;
    if b < n {
      MulMonotone(b + 1, n, size);
      assert (b + 1) * size == b * size + size;
    }
  }

  lemma WholeByteFits(size: nat, at: nat, off: nat, n: nat)
    requires at < n && off + CHECK_SIZE <= size
    ensures WholeByte(size, at, off) + CHECK_SIZE <= n * size
  {
    MulMonotone(at + 1, n, size);
    assert (at + 1) * size == at * size + size;
  }

  /** Changing the check structure inside one buffer changes it inside the whole. */
  lemma {:induction false} FlatStore(parts: seq<seq<Byte>>, size: nat, at: nat, off: nat, c: seq<Byte>)
    requires forall i | 0 <= i < |parts| :: |parts[i]| == size
    requires at < |parts| && off + CHECK_SIZE <= size && |c| <= CHECK_SIZE
    ensures WholeByte(size, at, off) + CHECK_SIZE <= |Flat(parts)|
    ensures Flat(parts[at := WithCheck(parts[at], off, c)]) == WithCheck(Flat(parts), WholeByte(size, at, off), c)
  {
    hide WholeByte;
    var n := |parts| - 1;
    FlatLength(parts, size);
    FlatLength(parts[..n], size);
    WholeByteFits(size, at, off, n + 1);
    var stored := parts[at := WithCheck(parts[at], off, c)];
    if at == n {
      assert stored[..n] == parts[..n];
      LastByte(size, n, off);
    } else {
      assert stored[..n] == parts[..n][at := WithCheck(parts[at], off, c)];
      FlatStore(parts[..n], size, at, off, c);
    }
  }

  lemma LastByte(size: nat, n: nat, off: nat)
    ensures WholeByte(size, n, off) == n * size + off
  {
  }

  lemma MulMonotone(a: nat, b: nat, c: nat)
    requires a <= b
    ensures a * c <= b * c
  {
  }

  /** Adjacent hunks, each repaired at its own bit offset, are the whole repaired. */
  lemma FixedConcat(a: seq<Byte>, b: seq<Byte>, fix: nat, a': seq<Byte>, b': seq<Byte>)
    requires Fixed(a, 8 * |a|, 0, fix, a') && Fixed(b, 8 * |b|, 8 * |a|, fix, b')
    ensures Fixed(a + b, 8 * |a + b|, 0, fix, a' + b')
  {
    hide Flip, ParityBits;
    var d := 8 * |a|;
    if k :| 0 <= k < d && HunkBit(0, k) == fix {
      FixedInFirst(a, b, k, a', b');
    } else if k :| 0 <= k < 8 * |b| && HunkBit(d, k) == fix {
      assert HunkBit(d, k) == HunkBit(0, d + k);
      FlipInSecond(a, b, k);
      FixHere(a + b, 8 * |a + b|, 0, d + k);
    } else {
      forall k | 0 <= k < 8 * |a + b| ensures HunkBit(0, k) != fix {
        if k >= d {
          assert HunkBit(d, k - d) == HunkBit(0, k);
        }
      }
    }
  }

  lemma FixedInFirst(a: seq<Byte>, b: seq<Byte>, k: nat, a': seq<Byte>, b': seq<Byte>)
    requires k < 8 * |a|
    requires Fixed(a, 8 * |a|, 0, HunkBit(0, k), a') && Fixed(b, 8 * |b|, 8 * |a|, HunkBit(0, k), b')
    ensures Fixed(a + b, 8 * |a + b|, 0, HunkBit(0, k), a' + b')
  {
    forall j | 0 <= j < 8 * |b| ensures HunkBit(8 * |a|, j) != HunkBit(0, k) {
      CodeBitIncreasing(k, 8 * |a| + j);
    }
    FlipInFirst(a, b, k);
    hide HunkBit, Flip;
    FixHere(a + b, 8 * |a + b|, 0, k);
  }

  lemma FlipInFirst(a: seq<Byte>, b: seq<Byte>, k: nat)
    requires k < 8 * |a|
    ensures Flip(a + b, k) == Flip(a, k) + b
  {
  }

  lemma FlipInSecond(a: seq<Byte>, b: seq<Byte>, k: nat)
    requires k < 8 * |b|
    ensures Flip(a + b, 8 * |a| + k) == a + Flip(b, k)
  {
    assert (8 * |a| + k) / 8 == |a| + k / 8 && (8 * |a| + k) % 8 == k % 8;
  }

  method CrcOfBuffers(bufs: seq<array<Byte>>, crc: Crc32) returns (c: U32)
    requires ChunkLaw(crc)
    ensures c == crc(ALL_ONES, Flat(Parts(bufs)))
  {
    c := ALL_ONES;
    ghost var parts := Parts(bufs);
    for i := 0 to |bufs|
      invariant c == crc(ALL_ONES, Flat(parts[..i]))
    {
      FlatNext(parts, i);
      c := crc(c, bufs[i][..]);
    }
    assert parts[..|bufs|] == parts;
  }

  /** The bit offset of buffer i within the whole. */
  function HunkOffset(size: nat, i: nat): (nr: nat) {
    size * 8 * i
  }

  /** The cast of the running ECC to 16 bits, which loses nothing on a block that fits. */
  function ToU16(n: nat): (r: nat)
    ensures n < 65536 ==> r == n
  {
    n % 65536
  }

  method EccOfBuffers(bufs: seq<array<Byte>>, size: nat) returns (e: nat)
    requires Buffers(bufs, size)
    ensures e == Ecc(Flat(Parts(bufs))) < 65536
  {
    e := 0;
    ghost var parts := Parts(bufs);
    EccBounds(parts, size);
    assert forall i | 0 <= i < |bufs| :: parts[i] == bufs[i][..] && bufs[i].Length == size;
    hide EccUpTo, HunkOffset, ToU16, Bits, Parity, Xor, Uniform, Parts, Buffers;
    for i := 0 to |bufs|
      invariant e == EccUpTo(parts, i)
    {
      EccNext(parts, size, i);
      e := HammingEncode(e, bufs[i], size * 8, HunkOffset(size, i));
      e := ToU16(e);
    }
  }

  /** Buffers of equal size that together fit in a block. */
  ghost predicate Uniform(parts: seq<seq<Byte>>, size: nat) {
    (forall i | 0 <= i < |parts| :: |parts[i]| == size) && |parts| * size <= MAX_BLOCK
  }

  /** The ECC of the first i buffers. */
  ghost function EccUpTo(parts: seq<seq<Byte>>, i: nat): nat
    requires i <= |parts|
  {
    Ecc(Flat(parts[..i]))
  }

  lemma EccBounds(parts: seq<seq<Byte>>, size: nat)
    requires Uniform(parts, size)
    ensures EccUpTo(parts, 0) == 0
    ensures EccUpTo(parts, |parts|) == Ecc(Flat(parts)) < 65536
  {
    FlatLength(parts, size);
    assert parts[..|parts|] == parts;
    EccFits(Flat(parts));
  }

  lemma BitsConcat(a: seq<Byte>, b: seq<Byte>)
    ensures Bits(a + b) == Bits(a) + Bits(b)
  {
    forall k | 0 <= k < 8 * |b| ensures Bit(a + b, 8 * |a| + k) == Bit(b, k) {
      assert (8 * |a| + k) / 8 == |a| + k / 8 && (8 * |a| + k) % 8 == k % 8;
    }
    var whole := Bits(a) + Bits(b);
    forall i | 0 <= i < 8 * |a + b| ensures Bits(a + b)[i] == whole[i] {
      if i >= 8 * |a| {
        assert Bit(a + b, 8 * |a| + (i - 8 * |a|)) == Bit(b, i - 8 * |a|);
      }
    }
  }

  /** Hunk-wise encoding is whole encoding. */
  lemma EccConcat(a: seq<Byte>, b: seq<Byte>)
    ensures Ecc(a + b) == Xor(Ecc(a), Parity(Bits(b), 8 * |a|, 8 * |b|))
  {
    hide Parity, Xor, Bits;
    BitsConcat(a, b);
    ParityHunks(Bits(a), Bits(b), 0, 8 * |b|);
  }

  lemma EccNext(parts: seq<seq<Byte>>, size: nat, i: nat)
    requires Uniform(parts, size) && i < |parts|
    ensures EccUpTo(parts, i + 1)
         == Xor(EccUpTo(parts, i), Parity(Bits(parts[i]), HunkOffset(size, i), size * 8)) < 65536
  {
    hide Bits, Xor, Parity;
    FlatLength(parts[..i], size);
    FlatLength(parts[..i + 1], size);
    FlatNext(parts, i);
    MulMonotone(i + 1, |parts|, size);
    EccConcat(Flat(parts[..i]), parts[i]);
    EccFits(Flat(parts[..i + 1]));
    assert 8 * (i * size) == size * 8 * i;
  }

  /** Flipping a bit of one buffer flips a bit of the whole. */
  lemma {:induction false} FlatFlip(parts: seq<seq<Byte>>, size: nat, b: nat, k: nat)
    requires (forall i | 0 <= i < |parts| :: |parts[i]| == size) && b < |parts| && k < 8 * size
    ensures WholeBit(size, b, k) < 8 * |Flat(parts)|
    ensures Flat(parts[b := Flip(parts[b], k)]) == Flip(Flat(parts), WholeBit(size, b, k))
  {
    hide Flip, WholeBit;
    var n := |parts| - 1;
    FlatLength(parts, size);
    FlatLength(parts[..n], size);
    WholeBitFits(size, b, k, n);
    WholeBitFits(size, b, k, n + 1);
    var flipped := parts[b := Flip(parts[b], k)];
    if b == n {
      assert flipped[..n] == parts[..n];
      FlipInSecond(Flat(parts[..n]), parts[n], k);
    } else {
      assert flipped[..n] == parts[..n][b := Flip(parts[b], k)];
      FlatFlip(parts[..n], size, b, k);
      FlipInFirst(Flat(parts[..n]), parts[n], WholeBit(size, b, k));
    }
  }

  /** Equal wholes in buffers of equal size are equal buffers. */
  lemma {:induction false} FlatInjective(p: seq<seq<Byte>>, q: seq<seq<Byte>>, size: nat)
    requires |p| == |q| && Flat(p) == Flat(q)
    requires forall i | 0 <= i < |p| :: |p[i]| == size && |q[i]| == size
    ensures p == q
  {
    if p != [] {
      var n := |p| - 1;
      FlatLength(p[..n], size);
      FlatLength(q[..n], size);
      var m := |Flat(p[..n])|;
      assert Flat(p[..n]) == Flat(p)[..m] == Flat(q)[..m] == Flat(q[..n]);
      assert p[n] == Flat(p)[m..] == Flat(q)[m..] == q[n];
      FlatInjective(p[..n], q[..n], size);
      assert p == p[..n] + [p[n]] && q == q[..n] + [q[n]];
    }
  }

  /** All buffers but one are as they were. */
  ghost predicate OneChanged(was: seq<seq<Byte>>, now: seq<seq<Byte>>, b: nat) {
    |was| == |now| && forall j | 0 <= j < |was| && j != b :: now[j] == was[j]
  }

  /** A fix is one flip or none. */
  lemma FixedCases(t: seq<Byte>, fix: nat, r: seq<Byte>) returns (flips: bool, k: nat)
    requires Fixed(t, 8 * |t|, 0, fix, r)
    ensures if flips then k < 8 * |t| && r == Flip(t, k) else r == t
  {
    hide Flip, HunkBit;
    flips, k := false, 0;
    if j :| 0 <= j < 8 * |t| && HunkBit(0, j) == fix {
      flips, k := true, j;
    }
  }

  /** A fix of the whole changes one buffer at most. */
  lemma OneFixed(was: seq<seq<Byte>>, now: seq<seq<Byte>>, size: nat, fix: nat) returns (b: nat)
    requires size > 0 && |was| == |now|
    requires forall i | 0 <= i < |was| :: |was[i]| == size && |now[i]| == size
    requires Fixed(Flat(was), 8 * |Flat(was)|, 0, fix, Flat(now))
    ensures OneChanged(was, now, b)
  {
    hide Flip, Fixed, Flat, WholeBit;
    FlatLength(was, size);
    var flips, k := FixedCases(Flat(was), fix, Flat(now));
    b := 0;
    if flips {
      var m;
      b, m := BufferOf(k, size, |was|);
      FlatFlip(was, size, b, m);
      FlatInjective(was[b := Flip(was[b], m)], now, size);
    } else {
      FlatInjective(was, now, size);
    }
  }

  /** The buffer of a bit of the whole, and the bit there. */
  lemma {:induction false} BufferOf(k: nat, size: nat, n: nat) returns (b: nat, m: nat)
    requires size > 0 && k < 8 * (n * size)
    ensures b < n && m < 8 * size && k == WholeBit(size, b, m)
    decreases k
  {
    if k < 8 * size {
      b, m := 0, k;
      assert n > 0;
    } else {
      assert n * size == (n - 1) * size + size;
      b, m := BufferOf(k - 8 * size, size, n - 1);
      assert size * (b + 1) == size * b + size;
      b := b + 1;
    }
  }

  /** Try the repair against each buffer in turn; at most one of them changes. */
  method FixBuffers(bufs: seq<array<Byte>>, size: nat, fix: nat)
    requires Buffers(bufs, size)
    modifies bufs
    ensures Fixed(old(Flat(Parts(bufs))), 8 * |old(Flat(Parts(bufs)))|, 0, fix, Flat(Parts(bufs)))
    ensures exists b :: OneChanged(old(Parts(bufs)), Parts(bufs), b)
  {
    ghost var was := Parts(bufs);
    ghost var done := was;
    for i := 0 to |bufs|
      invariant |done| == |bufs| && forall j | 0 <= j < |bufs| :: done[j] == bufs[j][..]
      invariant forall j | i <= j < |bufs| :: done[j] == was[j]
      invariant FixedPrefix(was, done, i, fix)
    {
      HammingFix(bufs[i], size * 8, HunkOffset(size, i), fix);
      ghost var next := done[i := bufs[i][..]];
      FixNext(was, done, next, size, i, fix);
      done := next;
    }
    assert was[..|bufs|] == was && done[..|bufs|] == done && done == Parts(bufs);
    ghost var b := OneFixed(was, done, size, fix);
  }

  /** The first i buffers have been through the repair. */
  ghost predicate FixedPrefix(was: seq<seq<Byte>>, done: seq<seq<Byte>>, i: nat, fix: nat)
    requires i <= |was| == |done|
  {
    Fixed(Flat(was[..i]), 8 * |Flat(was[..i])|, 0, fix, Flat(done[..i]))
  }

  lemma FixNext(was: seq<seq<Byte>>, done: seq<seq<Byte>>, next: seq<seq<Byte>>, size: nat, i: nat, fix: nat)
    requires i < |was| == |done| == |next| && forall j | 0 <= j < |was| :: |was[j]| == size
    requires next == done[i := next[i]] && FixedPrefix(was, done, i, fix)
    requires Fixed(was[i], size * 8, HunkOffset(size, i), fix, next[i])
    ensures FixedPrefix(was, next, i + 1, fix)
  {
    hide Fixed;
    FlatLength(was[..i], size);
    assert 8 * (i * size) == size * 8 * i;
    FlatNext(was, i);
    assert next[..i] == done[..i];
    FlatNext(next, i);
    FixedConcat(Flat(was[..i]), was[i], fix, Flat(done[..i]), next[i]);
  }

  /** Which of the buffers bc is, or their number if it is none of them. */
  ghost function IndexOf(bufs: seq<array<Byte>>, bc: array<Byte>): (i: nat)
    ensures i <= |bufs| && (i < |bufs| ==> bufs[i] == bc) && (i == |bufs| ==> bc !in bufs)
  {
    if bufs == [] || bufs[0] == bc then 0 else 1 + IndexOf(bufs[1..], bc)
  }

  /** Codes written to the check structure, which is in buffer `at` or, when there is no such buffer,
      apart from all. */
  ghost predicate Wrote(was: seq<seq<Byte>>, b: seq<Byte>, at: nat, size: nat, off: nat, c: seq<Byte>,
                        now: seq<seq<Byte>>, b': seq<Byte>)
    requires off + CHECK_SIZE <= |b| && |c| <= CHECK_SIZE
  {
    && b' == WithCheck(b, off, c) && |now| == |was|
    && if at < |was| then
         && |Flat(was)| == |Flat(now)| == |was| * size && WholeByte(size, at, off) + CHECK_SIZE <= |was| * size
         && Flat(now) == WithCheck(Flat(was), WholeByte(size, at, off), c)
       else now == was
  }

  method StoreIn(bufs: seq<array<Byte>>, size: nat, bc: array<Byte>, off: nat, c: seq<Byte>)
    requires Buffers(bufs, size) && off + CHECK_SIZE <= bc.Length && |c| <= CHECK_SIZE
    modifies bc
    ensures Wrote(old(Parts(bufs)), old(bc[..]), IndexOf(bufs, bc), size, off, c, Parts(bufs), bc[..])
  {
    ghost var was := Parts(bufs);
    ghost var at := IndexOf(bufs, bc);
    FlatLength(was, size);
    StoreCheck(bc, off, c);
    if at < |bufs| {
      WholeByteFits(size, at, off, |bufs|);
      FlatStore(was, size, at, off, c);
      assert Parts(bufs) == was[at := WithCheck(was[at], off, c)];
    }
  }

  /** What the computation of the check makes of the buffers. */
  ghost predicate ComputedBhs(was: seq<seq<Byte>>, b: seq<Byte>, at: nat, size: nat, off: nat, crc: Crc32,
                              now: seq<seq<Byte>>, b': seq<Byte>)
    requires off + CHECK_SIZE <= |b|
  {
    if at < |was| then
      && WholeByte(size, at, off) + CHECK_SIZE <= |Flat(was)| <= MAX_BLOCK
      && Flat(now) == Computed(Flat(was), WholeByte(size, at, off), crc)
    else
      && now == was && |Flat(was)| <= MAX_BLOCK
      && b' == if was == [] then b else ComputedApart(b, off, Flat(was), crc)
  }

  lemma IsComputedBhs(was: seq<seq<Byte>>, b: seq<Byte>, at: nat, size: nat, off: nat, crc: Crc32, c: U32, e: nat,
                      z: seq<seq<Byte>>, zb: seq<Byte>, now: seq<seq<Byte>>, b': seq<Byte>)
    requires Uniform(was, size) && off + CHECK_SIZE <= |b| && |zb| == |b| && was != []
    requires Wrote(was, b, at, size, off, NO_CHECK, z, zb)
    requires c == crc(ALL_ONES, Flat(z)) && e == Ecc(Flat(z)) < 65536
    requires Wrote(z, zb, at, size, off, Codes(c, e), now, b')
    ensures ComputedBhs(was, b, at, size, off, crc, now, b')
  {
    hide Flat, Ecc, Codes, WithCheck;
    FlatLength(was, size);
    if at < |was| {
      ZeroThenCodes(Flat(was), WholeByte(size, at, off), c, e);
    } else {
      ZeroThenCodes(b, off, c, e);
    }
  }

  /** ocfs2_block_check_compute_bhs(): the codes of the concatenation, in one of the buffers or apart.
      No buffers, no codes. */
  method BlockCheckComputeBhs(bufs: seq<array<Byte>>, size: nat, bc: array<Byte>, off: nat, crc: Crc32)
    requires Buffers(bufs, size) && off + CHECK_SIZE <= bc.Length && ChunkLaw(crc)
    modifies bc
    ensures ComputedBhs(old(Parts(bufs)), old(bc[..]), IndexOf(bufs, bc), size, off, crc, Parts(bufs), bc[..])
  {
    hide Bits, Parity, Xor, Ecc, Codes, Flat, WithCheck, Wrote, ComputedBhs;
    ghost var was, b := Parts(bufs), bc[..];
    if |bufs| == 0 {
      NoBuffers(b, size, off, crc);
      return;
    }
    StoreIn(bufs, size, bc, off, NO_CHECK);
    ghost var z, zb := Parts(bufs), bc[..];
    var c := CrcOfBuffers(bufs, crc);
    var e := EccOfBuffers(bufs, size);
    StoreIn(bufs, size, bc, off, Codes(c, e));
    IsComputedBhs(was, b, IndexOf(bufs, bc), size, off, crc, c, e, z, zb, Parts(bufs), bc[..]);
  }

  lemma NoBuffers(b: seq<Byte>, size: nat, off: nat, crc: Crc32)
    requires off + CHECK_SIZE <= |b|
    ensures ComputedBhs([], b, 0, size, off, crc, [], b) && ValidatedBhs([], b, 0, size, off, crc, 0, [], b)
  {
  }

  /** What validation answers and makes of the buffers. */
  ghost predicate ValidatedBhs(was: seq<seq<Byte>>, b: seq<Byte>, at: nat, size: nat, off: nat, crc: Crc32,
                               rc: int, now: seq<seq<Byte>>, b': seq<Byte>)
    requires off + CHECK_SIZE <= |b|
  {
    if at < |was| then
      && WholeByte(size, at, off) + CHECK_SIZE <= |Flat(was)| <= MAX_BLOCK
      && Validated(Flat(was), WholeByte(size, at, off), crc, rc, Flat(now))
    else if was == [] then rc == 0 && now == was && b' == b
    else
      && ValidatedApart(b, off, Flat(was), crc, rc, b', Flat(now))
      && exists i :: OneChanged(was, now, i)
  }

  /** The ECC pass of validation: repair what the ECC points at and look at the CRC again. */
  method RepairBuffers(bufs: seq<array<Byte>>, size: nat, stored: U32, ecc: nat, crc: Crc32)
    returns (rc: int)
    requires Buffers(bufs, size) && ChunkLaw(crc) && ecc < 65536
    modifies bufs
    ensures Fixed(old(Flat(Parts(bufs))), 8 * |old(Flat(Parts(bufs)))|, 0,
                  Xor(Ecc(old(Flat(Parts(bufs)))), ecc), Flat(Parts(bufs)))
    ensures rc == if crc(ALL_ONES, Flat(Parts(bufs))) == stored then 0 else EIO
    ensures exists b :: OneChanged(old(Parts(bufs)), Parts(bufs), b)
  {
    hide Fixed, Flat, Ecc;
    var e := EccOfBuffers(bufs, size);
    FixBuffers(bufs, size, Xor(e, ecc));
    var c := CrcOfBuffers(bufs, crc);
    rc := if c == stored then 0 else EIO;
  }

  /** What the repair leaves, and the answer. */
  ghost predicate Mended(z: seq<seq<Byte>>, crc: Crc32, c: U32, e: nat, y: seq<seq<Byte>>, rc: int) {
    && |y| == |z|
    && (exists i :: OneChanged(z, y, i))
    && if crc(ALL_ONES, Flat(z)) == c then y == z && rc == 0
       else Fixed(Flat(z), 8 * |Flat(z)|, 0, Xor(Ecc(Flat(z)), e), Flat(y))
            && rc == if crc(ALL_ONES, Flat(y)) == c then 0 else EIO
  }

  lemma IsValidatedBhs(was: seq<seq<Byte>>, b: seq<Byte>, at: nat, size: nat, off: nat, crc: Crc32, c: U32, e: nat,
                       z: seq<seq<Byte>>, zb: seq<Byte>, y: seq<seq<Byte>>, rc: int, now: seq<seq<Byte>>, b': seq<Byte>)
    requires Uniform(was, size) && Uniform(y, size) && off + CHECK_SIZE <= |b| && |zb| == |b| && was != []
    requires (at < |was| ==> was[at] == b) && c == StoredCrc(b, off) && e == StoredEcc(b, off) < 65536
    requires Wrote(was, b, at, size, off, NO_CHECK, z, zb) && Mended(z, crc, c, e, y, rc)
    requires at == |was| || at < |was|
    requires exists yb :: |yb| == |b| && (at == |was| ==> yb == zb)
                          && Wrote(y, yb, at, size, off, Codes(c, e), now, b')
    ensures ValidatedBhs(was, b, at, size, off, crc, rc, now, b')
  {
    hide Flat, Ecc, Codes, WithCheck, Xor, Fixed, FromLe, Validated, ValidatedApart;
    FlatLength(was, size);
    FlatLength(y, size);
    var yb :| |yb| == |b| && (at == |was| ==> yb == zb) && Wrote(y, yb, at, size, off, Codes(c, e), now, b');
    if at < |was| {
      WholeByteFits(size, at, off, |was|);
      CheckOfWhole(was, size, at, off);
      IsValidated(Flat(was), WholeByte(size, at, off), crc, c, e, Flat(y), rc, Flat(now));
    } else {
      ZeroThenCodes(b, off, c, e);
      IsValidatedApart(b, off, Flat(was), crc, c, e, rc, b', Flat(now));
    }
  }

  /** ocfs2_block_check_validate_bhs(): the verdict on the concatenation, and at most one buffer
      repaired. */
  method BlockCheckValidateBhs(bufs: seq<array<Byte>>, size: nat, bc: array<Byte>, off: nat, crc: Crc32)
    returns (rc: int)
    requires Buffers(bufs, size) && off + CHECK_SIZE <= bc.Length && ChunkLaw(crc)
    modifies bufs, bc
    ensures ValidatedBhs(old(Parts(bufs)), old(bc[..]), IndexOf(bufs, bc), size, off, crc, rc, Parts(bufs), bc[..])
  {
    hide Bits, Parity, Xor, Ecc, Codes, Flat, WithCheck, FromLe, Fixed, Wrote, ValidatedBhs, Mended;
    ghost var was, b := Parts(bufs), bc[..];
    if |bufs| == 0 {
      NoBuffers(b, size, off, crc);
      return 0;
    }
    var stored, ecc := StoredCrc(bc[..], off), StoredEcc(bc[..], off);
    FromLeBound(bc[..][off..off + 4]);
    FromLeBound(bc[..][off + 4..off + 6]);
    StoreIn(bufs, size, bc, off, NO_CHECK);
    ghost var z, zb := Parts(bufs), bc[..];
    rc := MendBuffers(bufs, size, stored, ecc, crc);
    ghost var y, yb := Parts(bufs), bc[..];
    StoreIn(bufs, size, bc, off, Codes(stored, ecc));
    IsValidatedBhs(was, b, IndexOf(bufs, bc), size, off, crc, stored, ecc, z, zb, y, rc, Parts(bufs), bc[..]);
  }

  method MendBuffers(bufs: seq<array<Byte>>, size: nat, stored: U32, ecc: nat, crc: Crc32) returns (rc: int)
    requires Buffers(bufs, size) && ChunkLaw(crc) && ecc < 65536
    modifies bufs
    ensures Mended(old(Parts(bufs)), crc, stored, ecc, Parts(bufs), rc)
  {
    hide Fixed, Flat, Ecc, Xor;
    ghost var z := Parts(bufs);
    var c := CrcOfBuffers(bufs, crc);
    rc := 0;
    if c != stored {
      rc := RepairBuffers(bufs, size, stored, ecc, crc);
    } else {
      assert OneChanged(z, z, 0);
    }
  }

  /** The verdict from its parts: the stored codes, the block as the repair left it, and the codes put
      back. */
  lemma IsValidated(s: seq<Byte>, pos: nat, crc: Crc32, c: U32, e: nat, y: seq<Byte>, rc: int, r: seq<Byte>)
    requires pos + CHECK_SIZE <= |s| <= MAX_BLOCK && c == StoredCrc(s, pos) && e == StoredEcc(s, pos) < 65536
    requires |y| == |s| && r == WithCheck(y, pos, Codes(c, e))
    requires var z := Zeroed(s, pos);
      if crc(ALL_ONES, z) == c then y == z && rc == 0
      else Fixed(z, 8 * |z|, 0, Xor(Ecc(z), e), y) && rc == if crc(ALL_ONES, y) == c then 0 else EIO
    ensures Validated(s, pos, crc, rc, r)
  {
    hide Fixed, Ecc, Xor, WithCheck, Codes, FromLe;
    var z := Zeroed(s, pos);
    ZeroThenCodes(s, pos, c, e);
    assert crc(ALL_ONES, z) != c ==> Repaired(z, pos, crc, c, e, y, rc, r);
  }

  lemma IsValidatedApart(b: seq<Byte>, off: nat, s: seq<Byte>, crc: Crc32, c: U32, e: nat, rc: int, b': seq<Byte>,
                         r: seq<Byte>)
    requires off + CHECK_SIZE <= |b| && c == StoredCrc(b, off) && e == StoredEcc(b, off) < 65536 && |r| == |s|
    requires b' == Stored(b, off, c, e)
    requires if crc(ALL_ONES, s) == c then r == s && rc == 0
             else Fixed(s, 8 * |s|, 0, Xor(Ecc(s), e), r) && rc == if crc(ALL_ONES, r) == c then 0 else EIO
    ensures ValidatedApart(b, off, s, crc, rc, b', r)
  {
    hide Fixed, Ecc, Xor, WithCheck, Codes, FromLe;
  }

  /** Single-bit repair over many buffers: compute the check, flip any one bit of any buffer outside the
      check structure, validate.  The answer is 0, and every byte of every buffer is back if and only
      if the CRC tells the damaged whole from the good one. */
  lemma SingleBitRepairBhs(parts: seq<seq<Byte>>, good: seq<seq<Byte>>, size: nat, at: nat, off: nat, crc: Crc32,
                           b: nat, k: nat, rc: int, after: seq<seq<Byte>>)
    requires Uniform(parts, size) && Uniform(good, size) && Uniform(after, size) && |good| == |parts| == |after|
    requires at < |parts| && off + CHECK_SIZE <= size && b < |parts| && k < 8 * size
    requires b == at ==> OutsideCheck(k, off)
    requires WholeByte(size, at, off) + CHECK_SIZE <= |Flat(parts)| <= MAX_BLOCK
    requires Flat(good) == Computed(Flat(parts), WholeByte(size, at, off), crc)
    requires var bad := Flat(good[b := Flip(good[b], k)]);
      |bad| == |Flat(parts)| && Validated(bad, WholeByte(size, at, off), crc, rc, Flat(after))
    ensures rc == 0 && WholeBit(size, b, k) < 8 * |Flat(parts)|
    ensures var z := Zeroed(Flat(parts), WholeByte(size, at, off));
      after == good <==> crc(ALL_ONES, Flip(z, WholeBit(size, b, k))) != crc(ALL_ONES, z)
  {
    hide Flip, Bits, Ecc, Flat, Validated, Computed, Zeroed, OutsideCheck, WholeBit, WholeByte;
    FlatFlip(good, size, b, k);
    CheckElsewhere(size, at, off, b, k);
    SingleBitRepair(Flat(parts), WholeByte(size, at, off), crc, WholeBit(size, b, k), rc, Flat(after));
    if Flat(after) == Flat(good) {
      FlatInjective(after, good, size);
    }
  }

  lemma CheckElsewhere(size: nat, at: nat, off: nat, b: nat, k: nat)
    requires off + CHECK_SIZE <= size && k < 8 * size && (b == at ==> OutsideCheck(k, off))
    ensures OutsideCheck(WholeBit(size, b, k), WholeByte(size, at, off))
  {
    assert at * size == size * at;
    if b < at {
      MulMonotone(b + 1, at, size);
      assert (b + 1) * size == size * b + size;
    } else if b > at {
      MulMonotone(at + 1, b, size);
      assert (at + 1) * size == size * at + size && b * size == size * b;
    }
  }

  /** The codes stored in one buffer are those stored in the whole. */
  lemma CheckOfWhole(parts: seq<seq<Byte>>, size: nat, at: nat, off: nat)
    requires forall i | 0 <= i < |parts| :: |parts[i]| == size
    requires at < |parts| && off + CHECK_SIZE <= size
    ensures WholeByte(size, at, off) + CHECK_SIZE <= |Flat(parts)|
    ensures StoredCrc(Flat(parts), WholeByte(size, at, off)) == StoredCrc(parts[at], off)
    ensures StoredEcc(Flat(parts), WholeByte(size, at, off)) == StoredEcc(parts[at], off)
  {
    hide FromLe, Flat, WholeByte;
    var c := parts[at][off..off + CHECK_SIZE];
    FlatStore(parts, size, at, off, c);
    assert parts[at] == WithCheck(parts[at], off, c);
    assert parts == parts[at := WithCheck(parts[at], off, c)];
    var pos := WholeByte(size, at, off);
    var whole := Flat(parts);
    assert WithCheck(whole, pos, c)[pos..pos + CHECK_SIZE] == c;
    Subrange(whole, pos);
    Subrange(parts[at], off);
  }
}
