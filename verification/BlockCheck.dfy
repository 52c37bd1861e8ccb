/** Hamming code and CRC protection of metadata blocks (blockcheck.c).

    A block is a sequence of bytes; bit i of a block is bit i % 8 of byte i / 8, counted from the
    least significant end, as the little-endian bit operations of the kernel count it.  The
    CRC is a parameter: only its chunk-composition law is ever used. */
module BlockCheck {
  import opened BitMath

  type Byte = x: int | 0 <= x < 256
  type U32 = x: int | 0 <= x < 0x1_0000_0000
  type Crc32 = (U32, seq<Byte>) -> U32

  const ALL_ONES: U32 := 0xFFFF_FFFF
  const EIO := -5
  /** Size of struct ocfs2_block_check: a 32-bit CRC, a 16-bit ECC and 16 reserved bits. */
  const CHECK_SIZE := 8
  /** No block with an ECC is larger than this. */
  const MAX_BLOCK := 4096

  /** crc32_le() may be fed a buffer in pieces. */
  ghost predicate ChunkLaw(crc: Crc32) {
    && (forall s: U32 :: crc(s, []) == s)
    && (forall s: U32, a: seq<Byte>, b: seq<Byte> :: crc(crc(s, a), b) == crc(s, a + b))
  }

  // ----- Numbering of code bits -----

  /** The number of parity bits that precede data bit i in the code. */
  function ParityBits(i: nat): (p: nat)
    ensures p >= 2
  {
    if i == 0 then 2
    else var p := ParityBits(i - 1); if i + p + 1 == Pow2(p) then p + 1 else p
  }

  /** The (1-based) code bit that stores data bit i. */
  function CodeBit(i: nat): nat {
    i + 1 + ParityBits(i)
  }

  /** A code bit lies strictly between the last parity bit before it and the next one. */
  lemma {:induction false} CodeBitWindow(i: nat)
    ensures Pow2(ParityBits(i) - 1) < CodeBit(i) < Pow2(ParityBits(i))
  {
    if i == 0 {
      assert Pow2(1) == 2 && Pow2(2) == 4;
    } else {
      CodeBitWindow(i - 1);
      assert Pow2(ParityBits(i - 1) + 1) == 2 * Pow2(ParityBits(i - 1));
    }
  }

  /** Data never lands on a power of two: those bits hold parity. */
  lemma CodeBitIsNotParity(i: nat)
    ensures !IsPow2(CodeBit(i))
  {
    CodeBitWindow(i);
    BetweenIsNotPow2(ParityBits(i), CodeBit(i));
  }

  /** The next code bit is the next number, skipping a parity bit if there is one in between. */
  lemma CodeBitNext(i: nat)
    ensures CodeBit(i + 1) == if IsPow2(CodeBit(i) + 1) then CodeBit(i) + 2 else CodeBit(i) + 1
  {
    hide HWeight, IsPow2;
    CodeBitWindow(i);
    var p := ParityBits(i);
    if CodeBit(i) + 1 == Pow2(p) {
      Pow2IsPow2(p);
    } else {
      BetweenIsNotPow2(p, CodeBit(i) + 1);
    }
  }

  /** Code bit numbers grow strictly, and the number of parity bits before them never falls. */
  lemma {:induction false} CodeBitIncreasing(i: nat, j: nat)
    requires i < j
    ensures CodeBit(i) < CodeBit(j) && ParityBits(i) <= ParityBits(j)
    decreases j
  {
    if i < j - 1 {
      CodeBitIncreasing(i, j - 1);
    }
  }

  /** Every code bit that is not a parity bit stores some data bit. */
  lemma {:induction false} CodeBitOnto(b: nat) returns (i: nat)
    requires b >= 3 && !IsPow2(b)
    ensures CodeBit(i) == b
  {
    if b == 3 {
      i := 0;
    } else if IsPow2(b - 1) {
      if b == 4 {
        assert b - 1 == 3;
        CodeBitIsNotParity(0);
      } else {
        var k := IsPow2Means(b - 1);
        assert k > 1 by { assert Pow2(0) == 1 && Pow2(1) == 2; }
        assert Pow2(k - 1) < b - 2 < Pow2(k) by { assert Pow2(k) == 2 * Pow2(k - 1); Pow2Monotone(1, k - 1); }
        BetweenIsNotPow2(k, b - 2);
        i := CodeBitOnto(b - 2);
        CodeBitNext(i);
        i := i + 1;
      }
    } else {
      i := CodeBitOnto(b - 1);
      CodeBitNext(i);
      i := i + 1;
    }
  }

  /** While p is below its final value, the next parity bit still lies below the code bit. */
  lemma {:induction false} ParityBelow(i: nat, p: nat)
    requires p < ParityBits(i)
    ensures Pow2(p) < i + p + 2
    decreases ParityBits(i) - p
  {
    if p == ParityBits(i) - 1 {
      CodeBitWindow(i);
    } else {
      ParityBelow(i, p + 1);
    }
  }

  /** calc_code_bit(): the code bit of data bit i, counting parity bits from a cached p.  Any
      value of the cache left by an earlier bit gives the same answer as no cache. */
  method CalcCodeBit(i: nat, cache: nat) returns (b: nat, p: nat)
    requires cache <= ParityBits(i)
    ensures b == CodeBit(i) && p == ParityBits(i)
  {
    p := cache;
    b := i + 1 + p;
    while Pow2(p) < b + 1
      invariant p <= ParityBits(i) && b == i + 1 + p
      decreases ParityBits(i) - p
    {
      if p == ParityBits(i) {
        CodeBitWindow(i);
      }
      b := b + 1;
      p := p + 1;
    }
    if p < ParityBits(i) {
      ParityBelow(i, p);
    }
  }

  // ----- Bits of a block -----

  /** Bit k of a word, counted from the least significant end. */
  predicate BitOf(b: nat, k: nat) {
    if k == 0 then b % 2 == 1 else BitOf(b / 2, k - 1)
  }

  /** Set the bit if it is clear, clear it if it is set. */
  function FlipOf(b: nat, k: nat): nat {
    if k == 0 then (if b % 2 == 1 then b - 1 else b + 1) else 2 * FlipOf(b / 2, k - 1) + b % 2
  }

  lemma {:induction false} FlipOfFits(b: nat, k: nat, m: nat)
    requires b < Pow2(m) && k < m
    ensures FlipOf(b, k) < Pow2(m)
  {
    if k > 0 {
      FlipOfFits(b / 2, k - 1, m - 1);
    }
  }

  lemma {:induction false} FlipOfBits(b: nat, k: nat, j: nat)
    ensures BitOf(FlipOf(b, k), j) == (BitOf(b, j) != (j == k))
    ensures FlipOf(FlipOf(b, k), k) == b
  {
    if k > 0 && j > 0 {
      FlipOfBits(b / 2, k - 1, j - 1);
    } else if k > 0 {
      FlipOfBits(b / 2, k - 1, k - 1);
    }
  }

  predicate Bit(s: seq<Byte>, i: nat)
    requires i < 8 * |s|
  {
    BitOf(s[i / 8], i % 8)
  }

  function Bits(s: seq<Byte>): (bits: seq<bool>)
    ensures |bits| == 8 * |s|
    ensures forall i :: 0 <= i < |bits| ==> bits[i] == Bit(s, i)
  {
    seq(8 * |s|, i requires 0 <= i < 8 * |s| => Bit(s, i))
  }

  function FlipByte(b: Byte, k: nat): (r: Byte)
    requires k < 8
  {
    assert Pow2(8) == 256 by { assert Pow2(4) == 16; }
    FlipOfFits(b, k, 8);
    FlipOf(b, k)
  }

  function Flip(s: seq<Byte>, i: nat): (r: seq<Byte>)
    requires i < 8 * |s|
    ensures |r| == |s|
  {
    s[i / 8 := FlipByte(s[i / 8], i % 8)]
  }

  /** Flipping a bit changes that bit and no other; doing it twice changes nothing. */
  lemma FlipBits(s: seq<Byte>, i: nat)
    requires i < 8 * |s|
    ensures Bits(Flip(s, i)) == Bits(s)[i := !Bits(s)[i]]
    ensures Flip(Flip(s, i), i) == s
  {
    forall j | 0 <= j < 8 * |s| ensures Bit(Flip(s, i), j) == (Bit(s, j) != (i == j)) {
      if i / 8 == j / 8 {
        FlipOfBits(s[i / 8], i % 8, j % 8);
      }
    }
    FlipOfBits(s[i / 8], i % 8, i % 8);
  }

  // ----- The Hamming code -----

  /** The code bit number that data bit i of a hunk at bit offset nr adds to the parity. */
  function Term(bits: seq<bool>, nr: nat, i: nat): nat
    requires i < |bits|
  {
    if bits[i] then CodeBit(nr + i) else 0
  }

  /** The parity of the first d bits of a hunk that starts at data bit nr: the exclusive-or of
      the code bit numbers of those that are set. */
  function Parity(bits: seq<bool>, nr: nat, d: nat): nat
    requires d <= |bits|
  {
    if d == 0 then 0 else Xor(Parity(bits, nr, d - 1), Term(bits, nr, d - 1))
  }

  lemma {:induction false} ParityPrefix(a: seq<bool>, b: seq<bool>, nr: nat, d: nat)
    requires d <= |a| && d <= |b| && forall i | 0 <= i < d :: a[i] == b[i]
    ensures Parity(a, nr, d) == Parity(b, nr, d)
  {
    if d > 0 {
      ParityPrefix(a, b, nr, d - 1);
    }
  }

  /** Encoding hunk by hunk is encoding the whole. */
  lemma {:induction false} ParityHunks(a: seq<bool>, b: seq<bool>, nr: nat, d: nat)
    requires d <= |b|
    ensures Parity(a + b, nr, |a| + d) == Xor(Parity(a, nr, |a|), Parity(b, nr + |a|, d))
    decreases d
  {
    if d == 0 {
      ParityPrefix(a, a + b, nr, |a|);
      XorZero(Parity(a, nr, |a|));
    } else {
      ParityHunks(a, b, nr, d - 1);
      XorAssoc(Parity(a, nr, |a|), Parity(b, nr + |a|, d - 1), Term(b, nr + |a|, d - 1));
      assert Term(a + b, nr, |a| + d - 1) == Term(b, nr + |a|, d - 1);
    }
  }

  /** Flipping one data bit changes the parity by exactly its code bit number. */
  lemma {:induction false} ParityFlip(bits: seq<bool>, nr: nat, i: nat, d: nat)
    requires i < d <= |bits|
    ensures Parity(bits[i := !bits[i]], nr, d) == Xor(Parity(bits, nr, d), CodeBit(nr + i))
  {
    hide CodeBit;
    var flipped := bits[i := !bits[i]];
    var rest, c := Parity(bits, nr, d - 1), CodeBit(nr + i);
    if i == d - 1 {
      ParityPrefix(bits, flipped, nr, d - 1);
      XorAssoc(rest, c, c);
      XorSelf(c);
      XorZero(rest);
    } else {
      ParityFlip(bits, nr, i, d - 1);
      var last := Term(bits, nr, d - 1);
      XorAssoc(rest, c, last);
      XorComm(c, last);
      XorAssoc(rest, last, c);
    }
  }

  lemma {:induction false} Pow2Dominates(q: nat)
    requires q >= 16
    ensures Pow2(q) >= 65520 + q
  {
    if q == 16 {
      assert Pow2(4) == 16 && Pow2(8) == 256 && Pow2(12) == 4096 && Pow2(16) == 65536;
    } else {
      Pow2Dominates(q - 1);
    }
  }

  /** The code bits of a 4096-byte block fit in 16 bits. */
  lemma CodeBitFits(i: nat)
    requires i < 8 * MAX_BLOCK
    ensures CodeBit(i) < Pow2(16)
  {
    CodeBitWindow(i);
    if ParityBits(i) > 16 {
      Pow2Dominates(ParityBits(i) - 1);
    } else {
      Pow2Monotone(ParityBits(i), 16);
    }
  }

  lemma {:induction false} ParityFits(bits: seq<bool>, nr: nat, d: nat)
    requires d <= |bits| && nr + d <= 8 * MAX_BLOCK
    ensures Parity(bits, nr, d) < Pow2(16) == 65536
  {
    assert Pow2(16) == 65536 by { assert Pow2(4) == 16 && Pow2(8) == 256 && Pow2(12) == 4096; }
    if d > 0 {
      ParityFits(bits, nr, d - 1);
      CodeBitFits(nr + d - 1);
      XorBound(Parity(bits, nr, d - 1), Term(bits, nr, d - 1), 16);
    }
  }

  ghost predicate IsNextBit(bits: seq<bool>, d: nat, from: nat, i: nat)
    requires d <= |bits|
  {
    from <= i <= d && (i < d ==> bits[i]) && forall j | from <= j < i :: !bits[j]
  }

  /** ocfs2_find_next_bit(): the first set bit at or after `from`, or d. */
  method FindNextBit(data: array<Byte>, d: nat, from: nat) returns (i: nat)
    requires from <= d <= 8 * data.Length
    ensures IsNextBit(Bits(data[..]), d, from, i)
  {
    i := from;
    while i < d && !Bit(data[..], i)
      invariant from <= i <= d
      invariant forall j | from <= j < i :: !Bits(data[..])[j]
    {
      i := i + 1;
    }
  }

  /** A run of clear bits does not change the parity. */
  lemma {:induction false} ParityClear(bits: seq<bool>, nr: nat, i: nat, j: nat)
    requires i <= j <= |bits| && forall k | i <= k < j :: !bits[k]
    ensures Parity(bits, nr, j) == Parity(bits, nr, i)
  {
    if i < j {
      ParityClear(bits, nr, i, j - 1);
      XorZero(Parity(bits, nr, j - 1));
    }
  }

  /** Start the encoding loop at the first set bit. */
  lemma EncodeStart(parity: nat, bits: seq<bool>, nr: nat, d: nat, i: nat)
    requires d <= |bits| && IsNextBit(bits, d, 0, i)
    ensures i <= d && (i < d ==> bits[i])
    ensures parity == Xor(parity, Parity(bits, nr, i))
  {
    ParityClear(bits, nr, 0, i);
    XorZero(parity);
  }

  /** One turn of the encoding loop: fold in the set bit i and move on to the next one, j. */
  lemma EncodeStep(parity: nat, bits: seq<bool>, nr: nat, d: nat, i: nat, j: nat)
    requires i < d <= |bits| && bits[i] && IsNextBit(bits, d, i + 1, j)
    ensures i < j <= d && (j < d ==> bits[j])
    ensures Xor(Xor(parity, Parity(bits, nr, i)), CodeBit(nr + i)) == Xor(parity, Parity(bits, nr, j))
    ensures ParityBits(nr + i) <= ParityBits(nr + j)
  {
    hide ParityBits, Xor;
    XorAssoc(parity, Parity(bits, nr, i), CodeBit(nr + i));
    ParityClear(bits, nr, i + 1, j);
    CodeBitIncreasing(nr + i, nr + j);
  }

  /** ocfs2_hamming_encode(): fold one hunk of d bits, at bit offset nr, into the parity. */
  method HammingEncode(parity: nat, data: array<Byte>, d: nat, nr: nat) returns (r: nat)
    requires 0 < d <= 8 * data.Length
    ensures r == Xor(parity, Parity(Bits(data[..]), nr, d))
  {
    hide Xor, ParityBits, CodeBit, Parity, Bits, Bit, BitOf, IsNextBit;
    ghost var bits := Bits(data[..]);
    r := parity;
    var p: nat := 0;
    var i := FindNextBit(data, d, 0);
    EncodeStart(parity, bits, nr, d, i);
    while i < d
      invariant i <= d && (i < d ==> bits[i])
      invariant p <= ParityBits(nr + i)
      invariant r == Xor(parity, Parity(bits, nr, i))
    {
      var b, next;
      b, p := CalcCodeBit(nr + i, p);
      r := Xor(r, b);
      next := FindNextBit(data, d, i + 1);
      EncodeStep(parity, bits, nr, d, i, next);
      i := next;
    }
  }

  /** The code bit of bit k of the hunk that starts at data bit nr. */
  function HunkBit(nr: nat, k: nat): nat {
    CodeBit(nr + k)
  }

  /** What a fix of code bit `fix` makes of a hunk: the data bit stored there is flipped, if the
      hunk has it. */
  ghost predicate Fixed(s: seq<Byte>, d: nat, nr: nat, fix: nat, r: seq<Byte>)
    requires d <= 8 * |s|
  {
    && (forall k | 0 <= k < d && HunkBit(nr, k) == fix :: r == Flip(s, k))
    && ((forall k | 0 <= k < d :: HunkBit(nr, k) != fix) ==> r == s)
  }

  /** A hunk does not hold a code bit that is parity, past its end or before its start. */
  lemma NotInHunk(d: nat, nr: nat, fix: nat)
    requires IsPow2(fix) || fix >= CodeBit(nr + d) || fix < CodeBit(nr)
    ensures forall k | 0 <= k < d :: HunkBit(nr, k) != fix
  {
    hide ParityBits, HWeight;
    forall k | 0 <= k < d ensures HunkBit(nr, k) != fix {
      CodeBitIsNotParity(nr + k);
      CodeBitIncreasing(nr + k, nr + d);
      if k > 0 {
        CodeBitIncreasing(nr, nr + k);
      }
    }
  }

  lemma FixHere(s: seq<Byte>, d: nat, nr: nat, i: nat)
    requires i < d <= 8 * |s|
    ensures Fixed(s, d, nr, HunkBit(nr, i), Flip(s, i))
  {
    forall k | 0 <= k < d && k != i ensures HunkBit(nr, k) != HunkBit(nr, i) {
      if k < i {
        CodeBitIncreasing(nr + k, nr + i);
      } else {
        CodeBitIncreasing(nr + i, nr + k);
      }
    }
  }

  /** Step over the parity bit that may precede the code bit of data bit n. */
  method SkipParity(start: nat, ghost n: nat) returns (b: nat)
    requires start == CodeBit(n) || (IsPow2(start) && start + 1 == CodeBit(n))
    ensures b == CodeBit(n)
  {
    CodeBitIsNotParity(n);
    b := start;
    while HWeight(b) == 1
      invariant b == CodeBit(n) || (IsPow2(b) && b + 1 == CodeBit(n))
      decreases CodeBit(n) - b
    {
      b := b + 1;
    }
  }

  /** The search of ocfs2_hamming_fix(): the bit of this hunk to repair, or d if there is none. */
  method FindDamage(d: nat, nr: nat, fix: nat) returns (i: nat)
    ensures i <= d
    ensures i < d ==> HunkBit(nr, i) == fix
    ensures i == d ==> forall k | 0 <= k < d :: HunkBit(nr, k) != fix
  {
    hide ParityBits, HWeight;
    if HWeight(fix) == 1 {
      NotInHunk(d, nr, fix);
      return d;
    }
    var past, _ := CalcCodeBit(nr + d, 0);
    if fix >= past {
      NotInHunk(d, nr, fix);
      return d;
    }
    var b, _ := CalcCodeBit(nr, 0);
    if fix < b {
      NotInHunk(d, nr, fix);
      return d;
    }
    i := 0;
    while i < d
      invariant i <= d
      invariant b == CodeBit(nr + i) || (IsPow2(b) && b + 1 == CodeBit(nr + i))
      invariant forall k | 0 <= k < i :: HunkBit(nr, k) != fix
    {
      b := SkipParity(b, nr + i);
      if b == fix {
        return;
      }
      CodeBitNext(nr + i);
      i, b := i + 1, b + 1;
    }
  }

  /** ocfs2_hamming_fix(): repair in place the data bit stored at code bit `fix`. */
  method HammingFix(data: array<Byte>, d: nat, nr: nat, fix: nat)
    requires 0 < d <= 8 * data.Length
    modifies data
    ensures Fixed(old(data[..]), d, nr, fix, data[..])
  {
    var i := FindDamage(d, nr, fix);
    if i < d {
      FixHere(data[..], d, nr, i);
      FlipInPlace(data, i);
    }
  }

  /** Test the bit, then clear or set it. */
  method FlipInPlace(data: array<Byte>, i: nat)
    requires i < 8 * data.Length
    modifies data
    ensures data[..] == Flip(old(data[..]), i)
  {
    data[i / 8] := FlipByte(data[i / 8], i % 8);
  }

  // ----- The check structure inside a block -----

  function Le16(n: nat): (s: seq<Byte>)
    requires n < 65536
    ensures |s| == 2
  {
    [n % 256, n / 256]
  }

  function Le32(n: U32): (s: seq<Byte>)
    ensures |s| == 4
  {
    Le16(n % 65536) + Le16(n / 65536)
  }

  function FromLe(s: seq<Byte>): nat {
    if s == [] then 0 else s[0] + 256 * FromLe(s[1..])
  }

  lemma FromLeLe16(n: nat)
    requires n < 65536
    ensures FromLe(Le16(n)) == n
  {
    var s := Le16(n);
    assert s[1..] == [n / 256] && s[1..][1..] == [];
    assert FromLe(s[1..]) == n / 256;
  }

  lemma FromLeLe32(n: U32)
    ensures FromLe(Le32(n)) == n
  {
    var s := Le32(n);
    assert s[1..][1..] == Le16(n / 65536);
    FromLeLe16(n / 65536);
    FromLeLe16(n % 65536);
  }

  /** The block with these bytes in the check structure at `off`: all eight, or the six of the codes. */
  function WithCheck(s: seq<Byte>, off: nat, c: seq<Byte>): (r: seq<Byte>)
    requires off + |c| <= |s|
    ensures |r| == |s|
  {
    s[..off] + c + s[off + |c|..]
  }

  /** The bytes of the two codes; the two that are left of the structure are reserved. */
  function Codes(crc: U32, ecc: nat): (c: seq<Byte>)
    requires ecc < 65536
    ensures |c| == 6
  {
    Le32(crc) + Le16(ecc)
  }

  lemma ZeroThenCodes(s: seq<Byte>, off: nat, crc: U32, ecc: nat)
    requires off + CHECK_SIZE <= |s| && ecc < 65536
    ensures WithCheck(Zeroed(s, off), off, Codes(crc, ecc)) == Stored(s, off, crc, ecc)
    ensures Stored(Zeroed(s, off), off, crc, ecc) == Stored(s, off, crc, ecc)
  {
    hide Le16, Le32;
  }

  const NO_CHECK: seq<Byte> := [0, 0, 0, 0, 0, 0, 0, 0]

  /** The block as it is when codes are computed over it: its check structure zeroed. */
  function Zeroed(s: seq<Byte>, off: nat): (r: seq<Byte>)
    requires off + CHECK_SIZE <= |s|
    ensures |r| == |s|
  {
    WithCheck(s, off, NO_CHECK)
  }

  function Stored(s: seq<Byte>, off: nat, crc: U32, ecc: nat): (r: seq<Byte>)
    requires off + CHECK_SIZE <= |s| && ecc < 65536
    ensures |r| == |s|
  {
    WithCheck(s, off, Codes(crc, ecc) + [0, 0])
  }

  function StoredCrc(s: seq<Byte>, off: nat): (r: nat)
    requires off + CHECK_SIZE <= |s|
  {
    FromLe(s[off..off + 4])
  }

  function StoredEcc(s: seq<Byte>, off: nat): nat
    requires off + CHECK_SIZE <= |s|
  {
    FromLe(s[off + 4..off + 6])
  }

  lemma FromLeBound(s: seq<Byte>)
    ensures |s| == 2 ==> FromLe(s) < 65536
    ensures |s| == 4 ==> FromLe(s) < 0x1_0000_0000
  {
    if |s| == 4 {
      assert FromLe(s[1..][1..]) < 65536 by { FromLeBound(s[2..]); assert s[1..][1..] == s[2..]; }
    } else if |s| == 2 {
      assert s[1..][1..] == [];
    }
  }

  lemma ReadBack(s: seq<Byte>, off: nat, crc: U32, ecc: nat)
    requires off + CHECK_SIZE <= |s| && ecc < 65536
    ensures StoredCrc(Stored(s, off, crc, ecc), off) == crc
    ensures StoredEcc(Stored(s, off, crc, ecc), off) == ecc
    ensures Zeroed(Stored(s, off, crc, ecc), off) == Zeroed(s, off)
  {
    var r := Stored(s, off, crc, ecc);
    assert r[off..off + 6] == Codes(crc, ecc);
    assert r[off..off + 4] == Le32(crc);
    assert r[off + 4..off + 6] == Le16(ecc);
    FromLeLe32(crc);
    FromLeLe16(ecc);
  }

  /** The ECC of a whole block. */
  function Ecc(s: seq<Byte>): nat {
    Parity(Bits(s), 0, 8 * |s|)
  }

  lemma EccFits(s: seq<Byte>)
    requires |s| <= MAX_BLOCK
    ensures Ecc(s) < 65536
  {
    ParityFits(Bits(s), 0, 8 * |s|);
  }

  /** What computing the check of a block makes of it. */
  ghost function Computed(s: seq<Byte>, off: nat, crc: Crc32): (r: seq<Byte>)
    requires off + CHECK_SIZE <= |s| <= MAX_BLOCK
    ensures |r| == |s|
  {
    var z := Zeroed(s, off);
    EccFits(z);
    Stored(s, off, crc(ALL_ONES, z), Ecc(z))
  }

  /** The verdict on zeroed block z whose stored codes are c and e, and the block left behind, with the
      codes put back: -EIO if the CRC fails even after the repair that the ECC asks for.  A repair
      that hits the reserved bytes of the structure stays there. */
  ghost predicate Verdict(z: seq<Byte>, off: nat, crc: Crc32, c: U32, e: nat, rc: int, r: seq<Byte>)
    requires off + CHECK_SIZE <= |z| && e < 65536
  {
    if crc(ALL_ONES, z) == c then
      rc == 0 && r == Stored(z, off, c, e)
    else
      exists y: seq<Byte> :: Repaired(z, off, crc, c, e, y, rc, r)
  }

  ghost predicate Repaired(z: seq<Byte>, off: nat, crc: Crc32, c: U32, e: nat, y: seq<Byte>,
                           rc: int, r: seq<Byte>)
    requires off + CHECK_SIZE <= |z| && e < 65536
  {
    && Fixed(z, 8 * |z|, 0, Xor(Ecc(z), e), y)
    && |y| == |z|
    && r == WithCheck(y, off, Codes(c, e))
    && rc == if crc(ALL_ONES, y) == c then 0 else EIO
  }

  /** What validating a block answers and leaves behind. */
  ghost predicate Validated(s: seq<Byte>, off: nat, crc: Crc32, rc: int, r: seq<Byte>)
    requires off + CHECK_SIZE <= |s| <= MAX_BLOCK
  {
    FromLeBound(s[off..off + 4]);
    FromLeBound(s[off + 4..off + 6]);
    Verdict(Zeroed(s, off), off, crc, StoredCrc(s, off), StoredEcc(s, off), rc, r)
  }

  /** The codes of block s, put in a check structure that is not part of it. */
  ghost function ComputedApart(b: seq<Byte>, at: nat, s: seq<Byte>, crc: Crc32): (r: seq<Byte>)
    requires at + CHECK_SIZE <= |b| && |s| <= MAX_BLOCK
    ensures |r| == |b|
  {
    EccFits(s);
    Stored(b, at, crc(ALL_ONES, s), Ecc(s))
  }

  /** The verdict on block s whose codes c and e are stored elsewhere, and what is left of it. */
  ghost predicate VerdictApart(s: seq<Byte>, crc: Crc32, c: U32, e: nat, rc: int, r: seq<Byte>) {
    if crc(ALL_ONES, s) == c then rc == 0 && r == s
    else
      && Fixed(s, 8 * |s|, 0, Xor(Ecc(s), e), r) && |r| == |s|
      && rc == if crc(ALL_ONES, r) == c then 0 else EIO
  }

  ghost predicate ValidatedApart(b: seq<Byte>, at: nat, s: seq<Byte>, crc: Crc32, rc: int, b': seq<Byte>, r: seq<Byte>)
    requires at + CHECK_SIZE <= |b|
  {
    FromLeBound(b[at..at + 4]);
    FromLeBound(b[at + 4..at + 6]);
    && VerdictApart(s, crc, StoredCrc(b, at), StoredEcc(b, at), rc, r)
    && b' == Stored(b, at, StoredCrc(b, at), StoredEcc(b, at))
  }

  // ----- Main results -----

  /** A block that was not touched since its check was computed validates and is unchanged. */
  lemma CleanBlock(s: seq<Byte>, off: nat, crc: Crc32, rc: int, r: seq<Byte>)
    requires off + CHECK_SIZE <= |s| <= MAX_BLOCK
    requires Validated(Computed(s, off, crc), off, crc, rc, r)
    ensures rc == 0 && r == Computed(s, off, crc)
  {
    hide Ecc, Codes, Zeroed, Stored, StoredCrc, StoredEcc, FromLe, Repaired;
    var z := Zeroed(s, off);
    EccFits(z);
    ReadBack(s, off, crc(ALL_ONES, z), Ecc(z));
    ZeroThenCodes(s, off, crc(ALL_ONES, z), Ecc(z));
  }

  predicate OutsideCheck(i: nat, off: nat) {
    i < 8 * off || 8 * (off + CHECK_SIZE) <= i
  }

  lemma FlipOutside(s: seq<Byte>, off: nat, i: nat, c: seq<Byte>)
    requires off + CHECK_SIZE <= |s| && i < 8 * |s| && OutsideCheck(i, off) && |c| == CHECK_SIZE
    ensures WithCheck(Flip(s, i), off, c) == Flip(WithCheck(s, off, c), i)
    ensures Flip(s, i)[off..off + CHECK_SIZE] == s[off..off + CHECK_SIZE]
  {
  }

  /** Single-bit repair.  Compute the check of a block, flip any one bit outside the check
      structure, validate: the answer is 0 and every byte is back, if and only if the CRC tells
      the damaged block from the good one.  (When it does not, the damage goes unnoticed.) */
  lemma SingleBitRepair(s: seq<Byte>, off: nat, crc: Crc32, i: nat, rc: int, r: seq<Byte>)
    requires off + CHECK_SIZE <= |s| <= MAX_BLOCK
    requires i < 8 * |s| && OutsideCheck(i, off)
    requires Validated(Flip(Computed(s, off, crc), i), off, crc, rc, r)
    ensures rc == 0
    ensures r == Computed(s, off, crc) <==>
              crc(ALL_ONES, Flip(Zeroed(s, off), i)) != crc(ALL_ONES, Zeroed(s, off))
  {
    var z := Zeroed(s, off);
    EccFits(z);
    DamagedCheck(s, off, crc, i);
    Restore(s, off, NO_CHECK, NO_CHECK);
    RepairVerdict(z, off, crc, i, rc, r);
    ZeroThenCodes(s, off, crc(ALL_ONES, z), Ecc(z));
  }

  /** The same with the check structure outside the block, for any bit of the block. */
  lemma SingleBitRepairApart(b: seq<Byte>, at: nat, s: seq<Byte>, crc: Crc32, i: nat, rc: int, b': seq<Byte>,
                             r: seq<Byte>)
    requires at + CHECK_SIZE <= |b| && |s| <= MAX_BLOCK && i < 8 * |s|
    requires ValidatedApart(ComputedApart(b, at, s, crc), at, Flip(s, i), crc, rc, b', r)
    ensures rc == 0 && b' == ComputedApart(b, at, s, crc)
    ensures r == s <==> crc(ALL_ONES, Flip(s, i)) != crc(ALL_ONES, s)
  {
    EccFits(s);
    ReadBack(b, at, crc(ALL_ONES, s), Ecc(s));
    var codes := Codes(crc(ALL_ONES, s), Ecc(s)) + [0, 0];
    Restore(b, at, codes, codes);
    FlipBits(s, i);
    assert Bits(Flip(s, i))[i] != Bits(s)[i];
    if crc(ALL_ONES, Flip(s, i)) != crc(ALL_ONES, s) {
      EccDifference(s, i);
      FixUndoes(s, i, r);
    }
  }

  lemma RepairVerdict(z: seq<Byte>, off: nat, crc: Crc32, i: nat, rc: int, r: seq<Byte>)
    requires off + CHECK_SIZE <= |z| && Ecc(z) < 65536 && z == Zeroed(z, off)
    requires i < 8 * |z| && OutsideCheck(i, off)
    requires Verdict(Flip(z, i), off, crc, crc(ALL_ONES, z), Ecc(z), rc, r)
    ensures rc == 0
    ensures r == Stored(z, off, crc(ALL_ONES, z), Ecc(z)) <==>
              crc(ALL_ONES, Flip(z, i)) != crc(ALL_ONES, z)
  {
    hide Flip, Ecc, Codes, Zeroed, Fixed, Bits, WithCheck, OutsideCheck, CodeBit, Xor;
    var c, bz := crc(ALL_ONES, z), Flip(z, i);
    ZeroThenCodes(z, off, c, Ecc(z));
    if crc(ALL_ONES, bz) == c {
      UnnoticedDamage(z, off, i, c, Ecc(z));
    } else {
      var y :| Repaired(bz, off, crc, c, Ecc(z), y, rc, r);
      EccDifference(z, i);
      FixUndoes(z, i, y);
    }
  }

  /** The ECCs of a good block and a damaged one differ by the code bit of the damaged bit. */
  lemma EccDifference(z: seq<Byte>, i: nat)
    requires i < 8 * |z|
    ensures Xor(Ecc(Flip(z, i)), Ecc(z)) == CodeBit(i)
  {
    FlipBits(z, i);
    ParityFlip(Bits(z), 0, i, 8 * |z|);
    XorCancel(Ecc(z), CodeBit(i));
  }

  lemma FixUndoes(z: seq<Byte>, i: nat, y: seq<Byte>)
    requires i < 8 * |z|
    requires Fixed(Flip(z, i), 8 * |z|, 0, CodeBit(i), y)
    ensures y == z
  {
    assert HunkBit(0, i) == CodeBit(i);
    FlipBits(z, i);
  }

  lemma UnnoticedDamage(z: seq<Byte>, off: nat, i: nat, c: U32, e: nat)
    requires off + CHECK_SIZE <= |z| && e < 65536
    requires i < 8 * |z| && OutsideCheck(i, off)
    ensures Stored(Flip(z, i), off, c, e) != Stored(z, off, c, e)
  {
    var good := Stored(z, off, c, e);
    FlipOutside(z, off, i, Codes(c, e) + [0, 0]);
    FlipBits(good, i);
    assert Bits(Flip(good, i))[i] != Bits(good)[i];
  }

  /** What validation reads from a damaged block: the CRC and ECC of the good one, over the
      damaged data. */
  lemma DamagedCheck(s: seq<Byte>, off: nat, crc: Crc32, i: nat)
    requires off + CHECK_SIZE <= |s| <= MAX_BLOCK
    requires i < 8 * |s| && OutsideCheck(i, off)
    ensures
      var z, bad := Zeroed(s, off), Flip(Computed(s, off, crc), i);
      && Zeroed(bad, off) == Flip(z, i)
      && StoredCrc(bad, off) == crc(ALL_ONES, z)
      && StoredEcc(bad, off) == Ecc(z)
  {
    var good, z := Computed(s, off, crc), Zeroed(s, off);
    EccFits(z);
    ReadBack(s, off, crc(ALL_ONES, z), Ecc(z));
    FlipOutside(good, off, i, NO_CHECK);
    SameCheck(Flip(good, i), good, off);
  }

  lemma Subrange(a: seq<Byte>, off: nat)
    requires off + CHECK_SIZE <= |a|
    ensures a[off..off + 4] == a[off..off + CHECK_SIZE][..4]
    ensures a[off + 4..off + 6] == a[off..off + CHECK_SIZE][4..6]
  {
    var c := a[off..off + CHECK_SIZE];
    forall k | 0 <= k < 2 ensures c[4..6][k] == a[off + 4..off + 6][k] {
      assert c[4..6][k] == c[4 + k];
    }
  }

  lemma SameCheck(a: seq<Byte>, b: seq<Byte>, off: nat)
    requires |a| == |b| && off + CHECK_SIZE <= |a|
    requires a[off..off + CHECK_SIZE] == b[off..off + CHECK_SIZE]
    ensures StoredCrc(a, off) == StoredCrc(b, off) && StoredEcc(a, off) == StoredEcc(b, off)
  {
    Subrange(a, off);
    Subrange(b, off);
  }

  /** ocfs2_block_check_compute().  The check structure is at `at` in bc, which is the block itself or
      another buffer. */
  method BlockCheckCompute(data: array<Byte>, bc: array<Byte>, at: nat, crc: Crc32)
    requires at + CHECK_SIZE <= bc.Length && 0 < data.Length <= MAX_BLOCK
    modifies bc
    ensures if bc == data then data[..] == Computed(old(data[..]), at, crc)
            else data[..] == old(data[..]) && bc[..] == ComputedApart(old(bc[..]), at, data[..], crc)
  {
    StoreCheck(bc, at, NO_CHECK);
    var c := crc(ALL_ONES, data[..]);
    ghost var z := data[..];
    var e := HammingEncodeBlock(data);
    EccFits(z);
    StoreCheck(bc, at, Codes(c, e));
    ZeroThenCodes(old(bc[..]), at, c, e);
  }

  lemma Restore(s: seq<Byte>, off: nat, c: seq<Byte>, d: seq<Byte>)
    requires off + CHECK_SIZE <= |s| && |c| == |d| == CHECK_SIZE
    ensures WithCheck(WithCheck(s, off, c), off, d) == WithCheck(s, off, d)
  {
  }

  /** ocfs2_hamming_encode_block(). */
  method HammingEncodeBlock(data: array<Byte>) returns (r: nat)
    requires data.Length > 0
    ensures r == Ecc(data[..])
  {
    r := HammingEncode(0, data, 8 * data.Length, 0);
    XorZero(r);
    XorZero(Ecc(data[..]));
  }

  method StoreCheck(data: array<Byte>, off: nat, c: seq<Byte>)
    requires off + |c| <= data.Length
    modifies data
    ensures data[..] == WithCheck(old(data[..]), off, c)
  {
    for k := 0 to |c|
      invariant forall j | 0 <= j < data.Length ::
                  data[j] == if off <= j < off + k then c[j - off] else old(data[j])
    {
      data[off + k] := c[k];
    }
  }

  /** ocfs2_block_check_validate(). */
  method BlockCheckValidate(data: array<Byte>, bc: array<Byte>, at: nat, crc: Crc32) returns (rc: int)
    requires at + CHECK_SIZE <= bc.Length && 0 < data.Length <= MAX_BLOCK
    modifies data, bc
    ensures if bc == data then Validated(old(data[..]), at, crc, rc, data[..])
            else ValidatedApart(old(bc[..]), at, old(data[..]), crc, rc, bc[..], data[..])
  {
    FromLeBound(bc[at..at + 4]);
    FromLeBound(bc[at + 4..at + 6]);
    var stored, ecc := StoredCrc(bc[..], at), StoredEcc(bc[..], at);
    assert bc[at..at + 4] == bc[..][at..at + 4];
    assert bc[at + 4..at + 6] == bc[..][at + 4..at + 6];
    rc := 0;
    StoreCheck(bc, at, NO_CHECK);
    ghost var z := data[..];
    ghost var y := z;
    var c := crc(ALL_ONES, data[..]);
    var damaged := c != stored;
    if damaged {
      var e := HammingEncodeBlock(data);
      HammingFix(data, 8 * data.Length, 0, Xor(e, ecc));
      y := data[..];
      c := crc(ALL_ONES, data[..]);
      if c != stored {
        rc := EIO;
      }
    }
    StoreCheck(bc, at, Codes(stored, ecc));
    ZeroThenCodes(old(bc[..]), at, stored, ecc);
    if bc == data {
      assert damaged ==> Repaired(z, at, crc, stored, ecc, y, rc, data[..]);
    }
  }
}
