/** Words of several bytes, low byte first, unsigned and in two's complement. */
module Words {
  import opened Bytes

  function Power256(k: nat): (p: nat)
    ensures p > 0
  {
    if k == 0 then 1 else 256 * Power256(k - 1)
  }

  /** A word of `k` bytes. */
  function LittleEndian(n: nat, k: nat): (b: seq<u8>)
    ensures |b| == k
  {
    if k == 0 then [] else [n % 256] + LittleEndian(n / 256, k - 1)
  }

  function FromLittleEndian(b: seq<u8>): (n: nat)
    ensures n < Power256(|b|)
  {
    if b == [] then 0
    else
      assert b[0] + 256 * FromLittleEndian(b[1..]) < 256 * Power256(|b| - 1);
      b[0] + 256 * FromLittleEndian(b[1..])
  }

  lemma {:induction false} LittleEndianBack(n: nat, k: nat)
    requires n < Power256(k)
    ensures FromLittleEndian(LittleEndian(n, k)) == n
  {
    if k > 0 {
      LittleEndianBack(n / 256, k - 1);
      assert LittleEndian(n, k)[1..] == LittleEndian(n / 256, k - 1);
    }
  }

  lemma Powers()
    ensures Power256(1) == 0x100 && Power256(2) == 0x1_0000 && Power256(4) == 0x1_0000_0000 && Power256(8) == 0x1_0000_0000_0000_0000
  {
    assert Power256(6) == 0x1_0000_0000_0000;
  }

  function SignedWord(n: nat, power: nat): int {
    if 2 * n < power then n else n - power
  }

  /** The number held in bytes, in two's complement. */
  function FromBytes(b: seq<u8>): int {
    SignedWord(FromLittleEndian(b), Power256(|b|))
  }

  predicate FitsBytes(v: int, k: nat) {
    0 <= Power256(k) + 2 * v && 2 * v < Power256(k)
  }

  /** The number held in 1, 2, 4 or 8 bytes, written out: the last byte counts most and carries the sign. */
  lemma LowByteFirst(b: seq<u8>)
    ensures |b| == 1 ==> FromBytes(b) == b[0] as int - if b[0] >= 128 then 0x100 else 0
    ensures |b| == 2 ==> FromBytes(b) == b[0] as int + 0x100 * b[1] as int - if b[1] >= 128 then 0x1_0000 else 0
    ensures |b| == 4 ==>
              FromBytes(b) == b[0] as int + 0x100 * b[1] as int + 0x1_0000 * b[2] as int + 0x100_0000 * b[3] as int
                              - if b[3] >= 128 then 0x1_0000_0000 else 0
    ensures |b| == 8 ==>
              FromBytes(b) == b[0] as int + 0x100 * b[1] as int + 0x1_0000 * b[2] as int + 0x100_0000 * b[3] as int
                              + 0x1_0000_0000 * b[4] as int + 0x100_0000_0000 * b[5] as int + 0x1_0000_0000_0000 * b[6] as int
                              + 0x100_0000_0000_0000 * b[7] as int - if b[7] >= 128 then 0x1_0000_0000_0000_0000 else 0
  {
    hide FromLittleEndian;
    Powers();
    if |b| == 8 {
      FourBytes(b[..4]);
      FourBytes(b[4..]);
      EightBytes(b);
    } else if |b| == 4 {
      FourBytes(b);
    } else if |b| == 2 {
      NextByte(b);
      NextByte(b[1..]);
      NoBytes(b[2..]);
    } else if |b| == 1 {
      NextByte(b);
      NoBytes(b[1..]);
    }
  }

  lemma NextByte(b: seq<u8>)
    requires b != []
    ensures FromLittleEndian(b) == b[0] + 256 * FromLittleEndian(b[1..])
  {
  }

  lemma NoBytes(b: seq<u8>)
    requires b == []
    ensures FromLittleEndian(b) == 0
  {
  }

  lemma FourBytes(b: seq<u8>)
    requires |b| == 4
    ensures FromLittleEndian(b) == b[0] as int + 0x100 * b[1] as int + 0x1_0000 * b[2] as int + 0x100_0000 * b[3] as int
  {
    hide FromLittleEndian;
    NextByte(b);
    NextByte(b[1..]);
    NextByte(b[2..]);
    NextByte(b[3..]);
    NoBytes(b[4..]);
  }

  lemma EightBytes(b: seq<u8>)
    requires |b| == 8
    ensures FromLittleEndian(b) == FromLittleEndian(b[..4]) + 0x1_0000_0000 * FromLittleEndian(b[4..])
  {
    hide FromLittleEndian;
    NextByte(b);
    NextByte(b[1..]);
    NextByte(b[2..]);
    NextByte(b[3..]);
    FourBytes(b[..4]);
  }

  function ToBytes(v: int, k: nat): (b: seq<u8>)
    requires FitsBytes(v, k)
    ensures |b| == k
  {
    LittleEndian(if v < 0 then v + Power256(k) else v, k)
  }

  lemma BytesRoundTrip(v: int, k: nat)
    requires FitsBytes(v, k)
    ensures FromBytes(ToBytes(v, k)) == v
  {
    hide LittleEndian, FromLittleEndian, Power256;
    LittleEndianBack(if v < 0 then v + Power256(k) else v, k);
  }
}
