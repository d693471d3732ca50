/**
 Bit counting and bitwise operations on strings (bitops.c): the forms that work on whole machine
 words, against bits and bytes.
 */
module Bitops {
  import Crc64

  // ------------------------------------------------------------------
  // Counting bits
  // ------------------------------------------------------------------

  /** The number of bits set in a byte. */
  function Ones(b: bv8): nat {
    (if b & 1 != 0 then 1 else 0) + (if b & 2 != 0 then 1 else 0)
    + (if b & 4 != 0 then 1 else 0) + (if b & 8 != 0 then 1 else 0)
    + (if b & 16 != 0 then 1 else 0) + (if b & 32 != 0 then 1 else 0)
    + (if b & 64 != 0 then 1 else 0) + (if b & 128 != 0 then 1 else 0)
  }

  function BitCount(s: seq<bv8>): nat
    decreases |s|
  {
    if s == [] then 0 else Ones(s[0]) + BitCount(s[1..])
  }

  lemma {:induction false} BitCountConcat(a: seq<bv8>, b: seq<bv8>)
    ensures BitCount(a + b) == BitCount(a) + BitCount(b)
    decreases |a|
  {
    hide Ones;
    if a == [] {
      assert a + b == b;
    } else {
      BitCountConcat(a[1..], b);
      assert (a + b)[0] == a[0] && (a + b)[1..] == a[1..] + b;
    }
  }

  /** Four bytes read as one word, low byte first. */
  function Word32(a: bv8, b: bv8, c: bv8, d: bv8): bv32 {
    (a as bv32) | ((b as bv32) << 8) | ((c as bv32) << 16) | ((d as bv32) << 24)
  }

  /** Counts in pairs of bits, as the source computes them. */
  function Pairs(x: bv32): bv32 {
    x - ((x >> 1) & 0x5555_5555)
  }

  /** Counts in groups of four bits. */
  function Fours(x: bv32): bv32 {
    (x & 0x3333_3333) + ((x >> 2) & 0x3333_3333)
  }

  /** Counts in bytes. */
  function Eights(x: bv32): bv32 {
    (x + (x >> 4)) & 0x0f0f_0f0f
  }

  /** The multiplication adds all four bytes up in the highest one. */
  function Total(x: bv32): bv32 {
    (x * 0x0101_0101) >> 24
  }

  /** The number of bits of a word, by steps on all groups at once. */
  function WordCount(x: bv32): bv32 {
    Total(Eights(Fours(Pairs(x))))
  }

  function Plus(x: bv32, y: bv32): bv32 {
    x + y
  }

  /** The sum of the two bits of every pair: the pairs with one bit set, and those with both. */
  function PairSum(x: bv32): bv32 {
    (x & 0x5555_5555) ^ ((x >> 1) & 0x5555_5555) ^ (((x & (x >> 1)) & 0x5555_5555) << 1)
  }

  /** Subtracting the upper bit of each pair once adds the two bits of the pair. */
  lemma PairsAdd(x: bv32)
    ensures Pairs(x) == PairSum(x)
  {
  }

  // the same steps on one byte

  function Pairs8(x: bv8): bv8 {
    (x & 0x55) + ((x >> 1) & 0x55)
  }

  function Fours8(x: bv8): bv8 {
    (x & 0x33) + ((x >> 2) & 0x33)
  }

  function Eights8(x: bv8): bv8 {
    (x + (x >> 4)) & 0x0f
  }

  function Count8(b: bv8): bv8 {
    Eights8(Fours8(Pairs8(b)))
  }

  predicate SmallFours(x: bv8) {
    x & 0x0f <= 4 && x & 0xf0 <= 0x40
  }

  lemma ByteCounted(b: bv8)
    ensures SmallFours(Fours8(Pairs8(b))) && Count8(b) <= 8 && Count8(b) as nat == Ones(b)
  {
  }

  lemma PairsByByte(a: bv8, b: bv8, c: bv8, d: bv8)
    ensures PairSum(Word32(a, b, c, d)) == Word32(Pairs8(a), Pairs8(b), Pairs8(c), Pairs8(d))
  {
  }

  lemma FoursByByte(a: bv8, b: bv8, c: bv8, d: bv8)
    ensures Fours(Word32(a, b, c, d)) == Word32(Fours8(a), Fours8(b), Fours8(c), Fours8(d))
  {
  }

  lemma EightsByByte(a: bv8, b: bv8, c: bv8, d: bv8)
    requires SmallFours(a) && SmallFours(b) && SmallFours(c) && SmallFours(d)
    ensures Eights(Word32(a, b, c, d)) == Word32(Eights8(a), Eights8(b), Eights8(c), Eights8(d))
  {
  }

  function Sum4(a: bv8, b: bv8, c: bv8, d: bv8): bv32 {
    Plus(Plus(Plus(a as bv32, b as bv32), c as bv32), d as bv32)
  }

  lemma TotalOfBytes(a: bv8, b: bv8, c: bv8, d: bv8)
    requires a <= 8 && b <= 8 && c <= 8 && d <= 8
    ensures Total(Word32(a, b, c, d)) == Sum4(a, b, c, d)
  {
  }

  lemma SmallSum(x: bv32, y: bv32)
    requires x <= 24 && y <= 8
    ensures Plus(x, y) as nat == (x as nat) + (y as nat) && (x <= 16 ==> Plus(x, y) <= 24) && (x <= 8 ==> Plus(x, y) <= 16)
  {
  }

  lemma Widened(b: bv8)
    requires b <= 8
    ensures (b as bv32) <= 8 && (b as bv32) as nat == b as nat
  {
  }

  lemma FourSmall(a: bv8, b: bv8, c: bv8, d: bv8)
    requires a <= 8 && b <= 8 && c <= 8 && d <= 8
    ensures Sum4(a, b, c, d) as nat == (a as nat) + (b as nat) + (c as nat) + (d as nat)
  {
    hide Plus;
    Widened(a);
    Widened(b);
    Widened(c);
    Widened(d);
    SmallSum(a as bv32, b as bv32);
    SmallSum(Plus(a as bv32, b as bv32), c as bv32);
    SmallSum(Plus(Plus(a as bv32, b as bv32), c as bv32), d as bv32);
  }

  /** Counting all groups of a word at once counts its bits. */
  lemma WordCounted(a: bv8, b: bv8, c: bv8, d: bv8)
    ensures WordCount(Word32(a, b, c, d)) as nat == Ones(a) + Ones(b) + Ones(c) + Ones(d)
  {
    hide Ones, Word32, Pairs, PairSum, Fours, Eights, Total, Sum4, Pairs8, Fours8, Eights8, SmallFours;
    ByteCounted(a);
    ByteCounted(b);
    ByteCounted(c);
    ByteCounted(d);
    PairsAdd(Word32(a, b, c, d));
    PairsByByte(a, b, c, d);
    FoursByByte(Pairs8(a), Pairs8(b), Pairs8(c), Pairs8(d));
    EightsByByte(Fours8(Pairs8(a)), Fours8(Pairs8(b)), Fours8(Pairs8(c)), Fours8(Pairs8(d)));
    TotalOfBytes(Count8(a), Count8(b), Count8(c), Count8(d));
    FourSmall(Count8(a), Count8(b), Count8(c), Count8(d));
  }

  lemma FourMore(s: seq<bv8>, p: nat)
    requires p + 4 <= |s|
    ensures BitCount(s[..p + 4]) == BitCount(s[..p]) + (Ones(s[p]) + Ones(s[p + 1]) + Ones(s[p + 2]) + Ones(s[p + 3]))
  {
    hide Ones;
    var four := [s[p], s[p + 1], s[p + 2], s[p + 3]];
    assert s[..p + 4] == s[..p] + four;
    BitCountConcat(s[..p], four);
    OneCounted(s[p + 3]);
    assert four == [s[p]] + ([s[p + 1]] + ([s[p + 2]] + [s[p + 3]]));
    BitCountConcat([s[p]], [s[p + 1]] + ([s[p + 2]] + [s[p + 3]]));
    BitCountConcat([s[p + 1]], [s[p + 2]] + [s[p + 3]]);
    BitCountConcat([s[p + 2]], [s[p + 3]]);
    OneCounted(s[p]);
    OneCounted(s[p + 1]);
    OneCounted(s[p + 2]);
  }

  lemma OneCounted(b: bv8)
    ensures BitCount([b]) == Ones(b)
  {
    hide Ones;
    assert [b][1..] == [];
  }

  /** Counts the bits of the word that starts at byte `p`. */
  method CountWord(s: array<bv8>, p: nat, bits: nat) returns (bits': nat)
    requires p + 4 <= s.Length && bits == BitCount(s[..p])
    ensures bits' == BitCount(s[..p + 4])
  {
    hide Ones, WordCount, Word32, BitCount;
    var aux := Word32(s[p], s[p + 1], s[p + 2], s[p + 3]);
    WordCounted(s[p], s[p + 1], s[p + 2], s[p + 3]);
    FourMore(s[..], p);
    assert s[..][..p + 4] == s[..p + 4] && s[..][..p] == s[..p];
    bits' := bits + WordCount(aux) as nat;
  }

  /** `popcount`: sixteen bytes at a time, then the bytes that are left. */
  method Popcount(s: array<bv8>, count0: nat) returns (bits: nat)
    requires count0 <= s.Length
    ensures bits == BitCount(s[..count0])
  {
    hide Ones;
    var count, p := count0, 0;
    bits := 0;
    while count >= 16
      invariant p + count == count0 && bits == BitCount(s[..p])
    {
      bits := CountWord(s, p, bits);
      bits := CountWord(s, p + 4, bits);
      bits := CountWord(s, p + 8, bits);
      bits := CountWord(s, p + 12, bits);
      count, p := count - 16, p + 16;
    }
    while count > 0
      invariant p + count == count0 && bits == BitCount(s[..p])
    {
      assert s[..p + 1] == s[..p] + [s[p]];
      BitCountConcat(s[..p], [s[p]]);
      OneCounted(s[p]);
      bits := bits + Ones(s[p]);
      count, p := count - 1, p + 1;
    }
  }

  // ------------------------------------------------------------------
  // BITOP
  // ------------------------------------------------------------------

  datatype Operation = And | Or | XorOp | Not

  function Combine(op: Operation, a: bv8, b: bv8): bv8 {
    match op
    case And => a & b
    case Or => a | b
    case XorOp => a ^ b
    case Not => a
  }

  /** A byte of a source; a source that is too short is padded with zeros. */
  function ByteAt(s: seq<bv8>, j: nat): bv8 {
    if j < |s| then s[j] else 0
  }

  /** Byte `j` of the first `k` sources combined. */
  function Folded(op: Operation, srcs: seq<seq<bv8>>, j: nat, k: nat): bv8
    requires 0 < k <= |srcs|
  {
    if k == 1 then (if op.Not? then !ByteAt(srcs[0], j) else ByteAt(srcs[0], j))
    else Combine(op, Folded(op, srcs, j, k - 1), ByteAt(srcs[k - 1], j))
  }

  predicate BitSet(b: bv8, i: bv8) {
    (b >> (i & 7)) & 1 == 1
  }

  /** How many of the first `k` sources have the bit. */
  function Having(srcs: seq<seq<bv8>>, j: nat, k: nat, i: bv8): nat
    requires k <= |srcs|
  {
    if k == 0 then 0 else Having(srcs, j, k - 1, i) + (if j < |srcs[k - 1]| && BitSet(srcs[k - 1][j], i) then 1 else 0)
  }

  /** A bit of the result: set in all sources, in one, in an odd number of them, or not set in the only one. */
  lemma {:induction false} BitsOfResult(op: Operation, srcs: seq<seq<bv8>>, j: nat, k: nat, i: bv8)
    requires 0 < k <= |srcs| && (op.Not? ==> k == 1)
    ensures var n := Having(srcs, j, k, i);
            && n <= k
            && BitSet(Folded(op, srcs, j, k), i) == match op
                                                    case And => n == k
                                                    case Or => n > 0
                                                    case XorOp => n % 2 == 1
                                                    case Not => n == 0
  {
    hide BitSet, Folded, Having;
    HavingNext(srcs, j, k, i);
    if k == 1 {
      FirstBits(op, srcs, j, i);
    } else {
      BitsOfResult(op, srcs, j, k - 1, i);
      NextBits(op, srcs, j, k, i);
    }
  }

  lemma HavingNext(srcs: seq<seq<bv8>>, j: nat, k: nat, i: bv8)
    requires 0 < k <= |srcs|
    ensures Having(srcs, j, k, i) == Having(srcs, j, k - 1, i) + if BitSet(ByteAt(srcs[k - 1], j), i) then 1 else 0
    ensures Having(srcs, j, 0, i) == 0
  {
    hide BitSet;
    ZeroHasNoBit(i);
  }

  lemma FirstBits(op: Operation, srcs: seq<seq<bv8>>, j: nat, i: bv8)
    requires srcs != []
    ensures BitSet(Folded(op, srcs, j, 1), i) == (BitSet(ByteAt(srcs[0], j), i) != op.Not?)
  {
    hide BitSet;
    NegatedBit(ByteAt(srcs[0], j), i);
  }

  lemma NextBits(op: Operation, srcs: seq<seq<bv8>>, j: nat, k: nat, i: bv8)
    requires 1 < k <= |srcs|
    ensures var before, next := BitSet(Folded(op, srcs, j, k - 1), i), BitSet(ByteAt(srcs[k - 1], j), i);
            BitSet(Folded(op, srcs, j, k), i)
            == if op.And? then before && next else if op.Or? then before || next else if op.XorOp? then before != next else before
  {
    hide BitSet, ByteAt, Combine;
    CombinedBits(op, Folded(op, srcs, j, k - 1), ByteAt(srcs[k - 1], j), i);
  }

  lemma CombinedBits(op: Operation, a: bv8, b: bv8, i: bv8)
    ensures var x, y := BitSet(a, i), BitSet(b, i);
            BitSet(Combine(op, a, b), i) == if op.And? then x && y else if op.Or? then x || y else if op.XorOp? then x != y else x
  {
    BitsOfAnd(a, b, i);
    BitsOfOr(a, b, i);
    BitsOfXor(a, b, i);
    hide BitSet;
  }

  lemma ZeroHasNoBit(i: bv8)
    ensures !BitSet(0, i)
  {
  }

  lemma NegatedBit(a: bv8, i: bv8)
    ensures BitSet(!a, i) == !BitSet(a, i)
  {
  }

  lemma BitsOfAnd(a: bv8, b: bv8, i: bv8)
    ensures BitSet(a & b, i) == (BitSet(a, i) && BitSet(b, i))
  {
  }

  lemma BitsOfOr(a: bv8, b: bv8, i: bv8)
    ensures BitSet(a | b, i) == (BitSet(a, i) || BitSet(b, i))
  {
  }

  lemma BitsOfXor(a: bv8, b: bv8, i: bv8)
    ensures BitSet(a ^ b, i) == (BitSet(a, i) != BitSet(b, i))
  {
  }

  /** Eight bytes read as one word, low byte first. */
  function Word64(s: seq<bv8>): bv64
    requires |s| == 8
  {
    (s[0] as bv64) | ((s[1] as bv64) << 8) | ((s[2] as bv64) << 16) | ((s[3] as bv64) << 24)
    | ((s[4] as bv64) << 32) | ((s[5] as bv64) << 40) | ((s[6] as bv64) << 48) | ((s[7] as bv64) << 56)
  }

  function CombineWords(op: Operation, a: bv64, b: bv64): bv64 {
    match op
    case And => a & b
    case Or => a | b
    case XorOp => a ^ b
    case Not => !a
  }

  /** What one source, or the negation, does to a byte of the result. */
  function Applied(op: Operation, a: bv8, b: bv8): bv8 {
    if op.Not? then !a else Combine(op, a, b)
  }

  function Bytewise(op: Operation, s: seq<bv8>, t: seq<bv8>): seq<bv8>
    requires |s| == 8 && |t| == 8
  {
    [Applied(op, s[0], t[0]), Applied(op, s[1], t[1]), Applied(op, s[2], t[2]), Applied(op, s[3], t[3]),
     Applied(op, s[4], t[4]), Applied(op, s[5], t[5]), Applied(op, s[6], t[6]), Applied(op, s[7], t[7])]
  }

  lemma AndByByte(s: seq<bv8>, t: seq<bv8>)
    requires |s| == 8 && |t| == 8
    ensures Crc64.WordBytes(CombineWords(And, Word64(s), Word64(t))) == Bytewise(And, s, t)
  {
  }

  lemma OrByByte(s: seq<bv8>, t: seq<bv8>)
    requires |s| == 8 && |t| == 8
    ensures Crc64.WordBytes(CombineWords(Or, Word64(s), Word64(t))) == Bytewise(Or, s, t)
  {
  }

  lemma XorByByte(s: seq<bv8>, t: seq<bv8>)
    requires |s| == 8 && |t| == 8
    ensures Crc64.WordBytes(CombineWords(XorOp, Word64(s), Word64(t))) == Bytewise(XorOp, s, t)
  {
  }

  lemma NotByByte(s: seq<bv8>, t: seq<bv8>)
    requires |s| == 8 && |t| == 8
    ensures Crc64.WordBytes(CombineWords(Not, Word64(s), Word64(t))) == Bytewise(Not, s, t)
  {
  }

  /** An operation on words is the operation on their bytes. */
  lemma WordIsBytes(op: Operation, s: seq<bv8>, t: seq<bv8>)
    requires |s| == 8 && |t| == 8
    ensures var r := Crc64.WordBytes(CombineWords(op, Word64(s), Word64(t)));
            forall i :: 0 <= i < 8 ==> r[i] == Applied(op, s[i], t[i])
  {
    hide Word64, Crc64.WordBytes, CombineWords, Applied, Bytewise;
    match op {
      case And => AndByByte(s, t);
      case Or => OrByByte(s, t);
      case XorOp => XorByByte(s, t);
      case Not => NotByByte(s, t);
    }
    BytewiseIs(op, s, t);
  }

  lemma BytewiseIs(op: Operation, s: seq<bv8>, t: seq<bv8>)
    requires |s| == 8 && |t| == 8
    ensures forall i :: 0 <= i < 8 ==> Bytewise(op, s, t)[i] == Applied(op, s[i], t[i])
  {
    hide Applied;
    var r := Bytewise(op, s, t);
    assert r[0] == Applied(op, s[0], t[0]) && r[1] == Applied(op, s[1], t[1]);
    assert r[2] == Applied(op, s[2], t[2]) && r[3] == Applied(op, s[3], t[3]);
    assert r[4] == Applied(op, s[4], t[4]) && r[5] == Applied(op, s[5], t[5]);
    assert r[6] == Applied(op, s[6], t[6]) && r[7] == Applied(op, s[7], t[7]);
  }

  // ------------------------------------------------------------------
  // The word-wise path
  // ------------------------------------------------------------------

  /** `lres[k] op= lp[i][k]`, for the word that starts at byte `at`. */
  method CombineWordAt(op: Operation, res: array<bv8>, at: nat, src: seq<bv8>)
    requires at + 8 <= res.Length && at + 8 <= |src|
    modifies res
    ensures forall k :: 0 <= k < res.Length ==>
              res[k] == if at <= k < at + 8 then Applied(op, old(res[k]), src[k]) else old(res[k])
  {
    hide Word64, Crc64.WordBytes, CombineWords, Applied;
    var b := Crc64.WordBytes(CombineWords(op, Word64(res[at..at + 8]), Word64(src[at..at + 8])));
    WordIsBytes(op, res[at..at + 8], src[at..at + 8]);
    forall k | 0 <= k < 8 {
      res[at + k] := b[k];
    }
    forall k | 0 <= k < res.Length
      ensures res[k] == if at <= k < at + 8 then Applied(op, old(res[k]), src[k]) else old(res[k])
    {
      if at <= k < at + 8 {
        assert res[at + (k - at)] == b[k - at];
      }
    }
  }

  /** Four words. */
  method CombineBlock(op: Operation, res: array<bv8>, at: nat, src: seq<bv8>)
    requires at + 32 <= res.Length && at + 32 <= |src|
    modifies res
    ensures forall k :: 0 <= k < res.Length ==>
              res[k] == if at <= k < at + 32 then Applied(op, old(res[k]), src[k]) else old(res[k])
  {
    hide Applied;
    CombineWordAt(op, res, at, src);
    CombineWordAt(op, res, at + 8, src);
    CombineWordAt(op, res, at + 16, src);
    CombineWordAt(op, res, at + 24, src);
  }

  lemma FoldedNext(op: Operation, srcs: seq<seq<bv8>>, j: nat, k: nat)
    requires 0 < k < |srcs| && !op.Not? && j < |srcs[k]|
    ensures Folded(op, srcs, j, k + 1) == Applied(op, Folded(op, srcs, j, k), srcs[k][j])
  {
    hide Combine;
  }

  /** The block of all sources that starts at byte `at`, the result holding the bytes of the first source. */
  method FastBlock(op: Operation, srcs: seq<seq<bv8>>, res: array<bv8>, at: nat)
    requires 0 < |srcs| && (op.Not? ==> |srcs| == 1) && at + 32 <= res.Length
    requires forall i :: 0 <= i < |srcs| ==> at + 32 <= |srcs[i]|
    requires forall k :: at <= k < at + 32 ==> res[k] == srcs[0][k]
    modifies res
    ensures forall k :: 0 <= k < res.Length ==>
              res[k] == if at <= k < at + 32 then Folded(op, srcs, k, |srcs|) else old(res[k])
  {
    hide Combine;
    if op == Not {
      CombineBlock(op, res, at, srcs[0]);
      return;
    }
    var i := 1;
    while i < |srcs|
      invariant 1 <= i <= |srcs|
      invariant forall k :: 0 <= k < res.Length ==>
                  res[k] == if at <= k < at + 32 then Folded(op, srcs, k, i) else old(res[k])
    {
      forall k | at <= k < at + 32
        ensures Folded(op, srcs, k, i + 1) == Applied(op, Folded(op, srcs, k, i), srcs[i][k])
      {
        FoldedNext(op, srcs, k, i);
      }
      CombineBlock(op, res, at, srcs[i]);
      i := i + 1;
    }
  }

  /** The shortest and the longest source. */
  method Lengths(srcs: seq<seq<bv8>>) returns (minlen: nat, maxlen: nat)
    requires 0 < |srcs|
    ensures forall i :: 0 <= i < |srcs| ==> minlen <= |srcs[i]| <= maxlen
    ensures (exists i :: 0 <= i < |srcs| && |srcs[i]| == minlen) && (exists i :: 0 <= i < |srcs| && |srcs[i]| == maxlen)
  {
    minlen, maxlen := |srcs[0]|, |srcs[0]|;
    var j := 1;
    while j < |srcs|
      invariant 1 <= j <= |srcs|
      invariant forall i :: 0 <= i < j ==> minlen <= |srcs[i]| <= maxlen
      invariant (exists i :: 0 <= i < |srcs| && |srcs[i]| == minlen) && (exists i :: 0 <= i < |srcs| && |srcs[i]| == maxlen)
    {
      if |srcs[j]| > maxlen {
        maxlen := |srcs[j]|;
      }
      if |srcs[j]| < minlen {
        minlen := |srcs[j]|;
      }
      j := j + 1;
    }
  }

  /** One byte of the result, source by source. */
  method SlowByte(op: Operation, srcs: seq<seq<bv8>>, j: nat) returns (output: bv8)
    requires 0 < |srcs| && (op.Not? ==> |srcs| == 1)
    ensures output == Folded(op, srcs, j, |srcs|)
  {
    hide Combine;
    output := if |srcs[0]| <= j then 0 else srcs[0][j];
    if op == Not {
      output := !output;
    }
    var i := 1;
    while i < |srcs|
      invariant 1 <= i <= |srcs| && output == Folded(op, srcs, j, i)
    {
      var byte := if |srcs[i]| <= j then 0 else srcs[i][j];
      output := Combine(op, output, byte);
      i := i + 1;
    }
  }

  /**
   The computation of `bitopCommand`: every byte of the result combines the bytes of all sources,
   missing ones counting as zeros, although most are computed 32 at a time.
   */
  method Bitop(op: Operation, srcs: seq<seq<bv8>>) returns (res: array<bv8>)
    requires 0 < |srcs| && (op.Not? ==> |srcs| == 1)
    ensures fresh(res) && forall i :: 0 <= i < |srcs| ==> |srcs[i]| <= res.Length
    ensures exists i :: 0 <= i < |srcs| && |srcs[i]| == res.Length
    ensures forall j :: 0 <= j < res.Length ==> res[j] == Folded(op, srcs, j, |srcs|)
  {
    hide Folded;
    var minlen, maxlen := Lengths(srcs);
    res := new bv8[maxlen](_ => 0);
    var j := 0;
    if minlen > 0 && |srcs| <= 16 {
      forall k | 0 <= k < minlen {
        res[k] := srcs[0][k];
      }
      while minlen - j >= 32
        invariant 0 <= j <= minlen
        invariant forall k :: 0 <= k < j ==> res[k] == Folded(op, srcs, k, |srcs|)
        invariant forall k :: j <= k < minlen ==> res[k] == srcs[0][k]
      {
        FastBlock(op, srcs, res, j);
        j := j + 32;
      }
    }
    while j < maxlen
      invariant 0 <= j <= maxlen
      invariant forall k :: 0 <= k < j ==> res[k] == Folded(op, srcs, k, |srcs|)
    {
      res[j] := SlowByte(op, srcs, j);
      j := j + 1;
    }
  }
}
