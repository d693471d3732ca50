/**
 The checksum of crc64.c: a table-driven loop, against the polynomial division it stands for, bit
 by bit, on words and bytes as bit vectors.
 */
module Crc64 {

  /** The polynomial as the source gives it, highest power first. */
  const POLY: bv64 := 0xad93d23594c935a9

  /** The bits of a word in the opposite order. */
  function Reflect(x: bv64): bv64 {
    var a := ((x >> 1) & 0x5555555555555555) | ((x & 0x5555555555555555) << 1);
    var b := ((a >> 2) & 0x3333333333333333) | ((a & 0x3333333333333333) << 2);
    var c := ((b >> 4) & 0x0f0f0f0f0f0f0f0f) | ((b & 0x0f0f0f0f0f0f0f0f) << 4);
    var d := ((c >> 8) & 0x00ff00ff00ff00ff) | ((c & 0x00ff00ff00ff00ff) << 8);
    var e := ((d >> 16) & 0x0000ffff0000ffff) | ((d & 0x0000ffff0000ffff) << 16);
    (e >> 32) | (e << 32)
  }

  /** The reflected polynomial, lowest power in the highest bit. */
  const REFLECTED: bv64 := 0x95ac9329ac4bc9b5

  lemma ReflectedPolynomial()
    ensures Reflect(POLY) == REFLECTED && Reflect(REFLECTED) == POLY
  {
  }

  /** One step of the division: the bit shifted out decides whether the polynomial is subtracted. */
  function Step(c: bv64): bv64 {
    if c & 1 == 1 then (c >> 1) ^ REFLECTED else c >> 1
  }

  function EightSteps(c: bv64): bv64 {
    Step(Step(Step(Step(Step(Step(Step(Step(c))))))))
  }

  /** A byte is added to the register and divided out. */
  function ByteStep(c: bv64, b: bv8): bv64 {
    EightSteps(c ^ (b as bv64))
  }

  /** The checksum bit by bit: each byte is added to the register and divided out. */
  function Serial(crc: bv64, s: seq<bv8>): bv64
    decreases |s|
  {
    if s == [] then crc else Serial(ByteStep(crc, s[0]), s[1..])
  }

  function Row0(low: bv8): bv64 {
    if low == 0 then 0x0000000000000000
    else if low == 1 then 0x7ad870c830358979
    else if low == 2 then 0xf5b0e190606b12f2
    else if low == 3 then 0x8f689158505e9b8b
    else if low == 4 then 0xc038e5739841b68f
    else if low == 5 then 0xbae095bba8743ff6
    else if low == 6 then 0x358804e3f82aa47d
    else if low == 7 then 0x4f50742bc81f2d04
    else if low == 8 then 0xab28ecb46814fe75
    else if low == 9 then 0xd1f09c7c5821770c
    else if low == 10 then 0x5e980d24087fec87
    else if low == 11 then 0x24407dec384a65fe
    else if low == 12 then 0x6b1009c7f05548fa
    else if low == 13 then 0x11c8790fc060c183
    else if low == 14 then 0x9ea0e857903e5a08
    else 0xe478989fa00bd371
  }

  function Row1(low: bv8): bv64 {
    if low == 0 then 0x7d08ff3b88be6f81
    else if low == 1 then 0x07d08ff3b88be6f8
    else if low == 2 then 0x88b81eabe8d57d73
    else if low == 3 then 0xf2606e63d8e0f40a
    else if low == 4 then 0xbd301a4810ffd90e
    else if low == 5 then 0xc7e86a8020ca5077
    else if low == 6 then 0x4880fbd87094cbfc
    else if low == 7 then 0x32588b1040a14285
    else if low == 8 then 0xd620138fe0aa91f4
    else if low == 9 then 0xacf86347d09f188d
    else if low == 10 then 0x2390f21f80c18306
    else if low == 11 then 0x594882d7b0f40a7f
    else if low == 12 then 0x1618f6fc78eb277b
    else if low == 13 then 0x6cc0863448deae02
    else if low == 14 then 0xe3a8176c18803589
    else 0x997067a428b5bcf0
  }

  function Row2(low: bv8): bv64 {
    if low == 0 then 0xfa11fe77117cdf02
    else if low == 1 then 0x80c98ebf2149567b
    else if low == 2 then 0x0fa11fe77117cdf0
    else if low == 3 then 0x75796f2f41224489
    else if low == 4 then 0x3a291b04893d698d
    else if low == 5 then 0x40f16bccb908e0f4
    else if low == 6 then 0xcf99fa94e9567b7f
    else if low == 7 then 0xb5418a5cd963f206
    else if low == 8 then 0x513912c379682177
    else if low == 9 then 0x2be1620b495da80e
    else if low == 10 then 0xa489f35319033385
    else if low == 11 then 0xde51839b2936bafc
    else if low == 12 then 0x9101f7b0e12997f8
    else if low == 13 then 0xebd98778d11c1e81
    else if low == 14 then 0x64b116208142850a
    else 0x1e6966e8b1770c73
  }

  function Row3(low: bv8): bv64 {
    if low == 0 then 0x8719014c99c2b083
    else if low == 1 then 0xfdc17184a9f739fa
    else if low == 2 then 0x72a9e0dcf9a9a271
    else if low == 3 then 0x08719014c99c2b08
    else if low == 4 then 0x4721e43f0183060c
    else if low == 5 then 0x3df994f731b68f75
    else if low == 6 then 0xb29105af61e814fe
    else if low == 7 then 0xc849756751dd9d87
    else if low == 8 then 0x2c31edf8f1d64ef6
    else if low == 9 then 0x56e99d30c1e3c78f
    else if low == 10 then 0xd9810c6891bd5c04
    else if low == 11 then 0xa3597ca0a188d57d
    else if low == 12 then 0xec09088b6997f879
    else if low == 13 then 0x96d1784359a27100
    else if low == 14 then 0x19b9e91b09fcea8b
    else 0x636199d339c963f2
  }

  function Row4(low: bv8): bv64 {
    if low == 0 then 0xdf7adabd7a6e2d6f
    else if low == 1 then 0xa5a2aa754a5ba416
    else if low == 2 then 0x2aca3b2d1a053f9d
    else if low == 3 then 0x50124be52a30b6e4
    else if low == 4 then 0x1f423fcee22f9be0
    else if low == 5 then 0x659a4f06d21a1299
    else if low == 6 then 0xeaf2de5e82448912
    else if low == 7 then 0x902aae96b271006b
    else if low == 8 then 0x74523609127ad31a
    else if low == 9 then 0x0e8a46c1224f5a63
    else if low == 10 then 0x81e2d7997211c1e8
    else if low == 11 then 0xfb3aa75142244891
    else if low == 12 then 0xb46ad37a8a3b6595
    else if low == 13 then 0xceb2a3b2ba0eecec
    else if low == 14 then 0x41da32eaea507767
    else 0x3b024222da65fe1e
  }

  function Row5(low: bv8): bv64 {
    if low == 0 then 0xa2722586f2d042ee
    else if low == 1 then 0xd8aa554ec2e5cb97
    else if low == 2 then 0x57c2c41692bb501c
    else if low == 3 then 0x2d1ab4dea28ed965
    else if low == 4 then 0x624ac0f56a91f461
    else if low == 5 then 0x1892b03d5aa47d18
    else if low == 6 then 0x97fa21650afae693
    else if low == 7 then 0xed2251ad3acf6fea
    else if low == 8 then 0x095ac9329ac4bc9b
    else if low == 9 then 0x7382b9faaaf135e2
    else if low == 10 then 0xfcea28a2faafae69
    else if low == 11 then 0x8632586aca9a2710
    else if low == 12 then 0xc9622c4102850a14
    else if low == 13 then 0xb3ba5c8932b0836d
    else if low == 14 then 0x3cd2cdd162ee18e6
    else 0x460abd1952db919f
  }

  function Row6(low: bv8): bv64 {
    if low == 0 then 0x256b24ca6b12f26d
    else if low == 1 then 0x5fb354025b277b14
    else if low == 2 then 0xd0dbc55a0b79e09f
    else if low == 3 then 0xaa03b5923b4c69e6
    else if low == 4 then 0xe553c1b9f35344e2
    else if low == 5 then 0x9f8bb171c366cd9b
    else if low == 6 then 0x10e3202993385610
    else if low == 7 then 0x6a3b50e1a30ddf69
    else if low == 8 then 0x8e43c87e03060c18
    else if low == 9 then 0xf49bb8b633338561
    else if low == 10 then 0x7bf329ee636d1eea
    else if low == 11 then 0x012b592653589793
    else if low == 12 then 0x4e7b2d0d9b47ba97
    else if low == 13 then 0x34a35dc5ab7233ee
    else if low == 14 then 0xbbcbcc9dfb2ca865
    else 0xc113bc55cb19211c
  }

  function Row7(low: bv8): bv64 {
    if low == 0 then 0x5863dbf1e3ac9dec
    else if low == 1 then 0x22bbab39d3991495
    else if low == 2 then 0xadd33a6183c78f1e
    else if low == 3 then 0xd70b4aa9b3f20667
    else if low == 4 then 0x985b3e827bed2b63
    else if low == 5 then 0xe2834e4a4bd8a21a
    else if low == 6 then 0x6debdf121b863991
    else if low == 7 then 0x1733afda2bb3b0e8
    else if low == 8 then 0xf34b37458bb86399
    else if low == 9 then 0x8993478dbb8deae0
    else if low == 10 then 0x06fbd6d5ebd3716b
    else if low == 11 then 0x7c23a61ddbe6f812
    else if low == 12 then 0x3373d23613f9d516
    else if low == 13 then 0x49aba2fe23cc5c6f
    else if low == 14 then 0xc6c333a67392c7e4
    else 0xbc1b436e43a74e9d
  }

  function Row8(low: bv8): bv64 {
    if low == 0 then 0x95ac9329ac4bc9b5
    else if low == 1 then 0xef74e3e19c7e40cc
    else if low == 2 then 0x601c72b9cc20db47
    else if low == 3 then 0x1ac40271fc15523e
    else if low == 4 then 0x5594765a340a7f3a
    else if low == 5 then 0x2f4c0692043ff643
    else if low == 6 then 0xa02497ca54616dc8
    else if low == 7 then 0xdafce7026454e4b1
    else if low == 8 then 0x3e847f9dc45f37c0
    else if low == 9 then 0x445c0f55f46abeb9
    else if low == 10 then 0xcb349e0da4342532
    else if low == 11 then 0xb1eceec59401ac4b
    else if low == 12 then 0xfebc9aee5c1e814f
    else if low == 13 then 0x8464ea266c2b0836
    else if low == 14 then 0x0b0c7b7e3c7593bd
    else 0x71d40bb60c401ac4
  }

  function Row9(low: bv8): bv64 {
    if low == 0 then 0xe8a46c1224f5a634
    else if low == 1 then 0x927c1cda14c02f4d
    else if low == 2 then 0x1d148d82449eb4c6
    else if low == 3 then 0x67ccfd4a74ab3dbf
    else if low == 4 then 0x289c8961bcb410bb
    else if low == 5 then 0x5244f9a98c8199c2
    else if low == 6 then 0xdd2c68f1dcdf0249
    else if low == 7 then 0xa7f41839ecea8b30
    else if low == 8 then 0x438c80a64ce15841
    else if low == 9 then 0x3954f06e7cd4d138
    else if low == 10 then 0xb63c61362c8a4ab3
    else if low == 11 then 0xcce411fe1cbfc3ca
    else if low == 12 then 0x83b465d5d4a0eece
    else if low == 13 then 0xf96c151de49567b7
    else if low == 14 then 0x76048445b4cbfc3c
    else 0x0cdcf48d84fe7545
  }

  function Row10(low: bv8): bv64 {
    if low == 0 then 0x6fbd6d5ebd3716b7
    else if low == 1 then 0x15651d968d029fce
    else if low == 2 then 0x9a0d8ccedd5c0445
    else if low == 3 then 0xe0d5fc06ed698d3c
    else if low == 4 then 0xaf85882d2576a038
    else if low == 5 then 0xd55df8e515432941
    else if low == 6 then 0x5a3569bd451db2ca
    else if low == 7 then 0x20ed197575283bb3
    else if low == 8 then 0xc49581ead523e8c2
    else if low == 9 then 0xbe4df122e51661bb
    else if low == 10 then 0x3125607ab548fa30
    else if low == 11 then 0x4bfd10b2857d7349
    else if low == 12 then 0x04ad64994d625e4d
    else if low == 13 then 0x7e7514517d57d734
    else if low == 14 then 0xf11d85092d094cbf
    else 0x8bc5f5c11d3cc5c6
  }

  function Row11(low: bv8): bv64 {
    if low == 0 then 0x12b5926535897936
    else if low == 1 then 0x686de2ad05bcf04f
    else if low == 2 then 0xe70573f555e26bc4
    else if low == 3 then 0x9ddd033d65d7e2bd
    else if low == 4 then 0xd28d7716adc8cfb9
    else if low == 5 then 0xa85507de9dfd46c0
    else if low == 6 then 0x273d9686cda3dd4b
    else if low == 7 then 0x5de5e64efd965432
    else if low == 8 then 0xb99d7ed15d9d8743
    else if low == 9 then 0xc3450e196da80e3a
    else if low == 10 then 0x4c2d9f413df695b1
    else if low == 11 then 0x36f5ef890dc31cc8
    else if low == 12 then 0x79a59ba2c5dc31cc
    else if low == 13 then 0x037deb6af5e9b8b5
    else if low == 14 then 0x8c157a32a5b7233e
    else 0xf6cd0afa9582aa47
  }

  function Row12(low: bv8): bv64 {
    if low == 0 then 0x4ad64994d625e4da
    else if low == 1 then 0x300e395ce6106da3
    else if low == 2 then 0xbf66a804b64ef628
    else if low == 3 then 0xc5bed8cc867b7f51
    else if low == 4 then 0x8aeeace74e645255
    else if low == 5 then 0xf036dc2f7e51db2c
    else if low == 6 then 0x7f5e4d772e0f40a7
    else if low == 7 then 0x05863dbf1e3ac9de
    else if low == 8 then 0xe1fea520be311aaf
    else if low == 9 then 0x9b26d5e88e0493d6
    else if low == 10 then 0x144e44b0de5a085d
    else if low == 11 then 0x6e963478ee6f8124
    else if low == 12 then 0x21c640532670ac20
    else if low == 13 then 0x5b1e309b16452559
    else if low == 14 then 0xd476a1c3461bbed2
    else 0xaeaed10b762e37ab
  }

  function Row13(low: bv8): bv64 {
    if low == 0 then 0x37deb6af5e9b8b5b
    else if low == 1 then 0x4d06c6676eae0222
    else if low == 2 then 0xc26e573f3ef099a9
    else if low == 3 then 0xb8b627f70ec510d0
    else if low == 4 then 0xf7e653dcc6da3dd4
    else if low == 5 then 0x8d3e2314f6efb4ad
    else if low == 6 then 0x0256b24ca6b12f26
    else if low == 7 then 0x788ec2849684a65f
    else if low == 8 then 0x9cf65a1b368f752e
    else if low == 9 then 0xe62e2ad306bafc57
    else if low == 10 then 0x6946bb8b56e467dc
    else if low == 11 then 0x139ecb4366d1eea5
    else if low == 12 then 0x5ccebf68aecec3a1
    else if low == 13 then 0x2616cfa09efb4ad8
    else if low == 14 then 0xa97e5ef8cea5d153
    else 0xd3a62e30fe90582a
  }

  function Row14(low: bv8): bv64 {
    if low == 0 then 0xb0c7b7e3c7593bd8
    else if low == 1 then 0xca1fc72bf76cb2a1
    else if low == 2 then 0x45775673a732292a
    else if low == 3 then 0x3faf26bb9707a053
    else if low == 4 then 0x70ff52905f188d57
    else if low == 5 then 0x0a2722586f2d042e
    else if low == 6 then 0x854fb3003f739fa5
    else if low == 7 then 0xff97c3c80f4616dc
    else if low == 8 then 0x1bef5b57af4dc5ad
    else if low == 9 then 0x61372b9f9f784cd4
    else if low == 10 then 0xee5fbac7cf26d75f
    else if low == 11 then 0x9487ca0fff135e26
    else if low == 12 then 0xdbd7be24370c7322
    else if low == 13 then 0xa10fceec0739fa5b
    else if low == 14 then 0x2e675fb4576761d0
    else 0x54bf2f7c6752e8a9
  }

  function Row15(low: bv8): bv64 {
    if low == 0 then 0xcdcf48d84fe75459
    else if low == 1 then 0xb71738107fd2dd20
    else if low == 2 then 0x387fa9482f8c46ab
    else if low == 3 then 0x42a7d9801fb9cfd2
    else if low == 4 then 0x0df7adabd7a6e2d6
    else if low == 5 then 0x772fdd63e7936baf
    else if low == 6 then 0xf8474c3bb7cdf024
    else if low == 7 then 0x829f3cf387f8795d
    else if low == 8 then 0x66e7a46c27f3aa2c
    else if low == 9 then 0x1c3fd4a417c62355
    else if low == 10 then 0x935745fc4798b8de
    else if low == 11 then 0xe98f353477ad31a7
    else if low == 12 then 0xa6df411fbfb21ca3
    else if low == 13 then 0xdc0731d78f8795da
    else if low == 14 then 0x536fa08fdfd90e51
    else 0x29b7d047efec8728
  }

  /** `crc64_tab`. */
  function Table(b: bv8): bv64 {
    var high, low := b >> 4, b & 15;
    if high == 0 then Row0(low)
    else if high == 1 then Row1(low)
    else if high == 2 then Row2(low)
    else if high == 3 then Row3(low)
    else if high == 4 then Row4(low)
    else if high == 5 then Row5(low)
    else if high == 6 then Row6(low)
    else if high == 7 then Row7(low)
    else if high == 8 then Row8(low)
    else if high == 9 then Row9(low)
    else if high == 10 then Row10(low)
    else if high == 11 then Row11(low)
    else if high == 12 then Row12(low)
    else if high == 13 then Row13(low)
    else if high == 14 then Row14(low)
    else Row15(low)
  }

  lemma TableBottom(b: bv8)
    requires b < 0x20
    ensures Table(b) == EightSteps(b as bv64)
  {
  }

  lemma TableLow(b: bv8)
    requires 0x20 <= b < 0x40
    ensures Table(b) == EightSteps(b as bv64)
  {
  }

  lemma TableMiddle(b: bv8)
    requires 0x40 <= b < 0x80
    ensures Table(b) == EightSteps(b as bv64)
  {
  }

  lemma TableUpper(b: bv8)
    requires 0x80 <= b < 0xc0
    ensures Table(b) == EightSteps(b as bv64)
  {
  }

  lemma TableTop(b: bv8)
    requires 0xc0 <= b
    ensures Table(b) == EightSteps(b as bv64)
  {
  }

  /** All 256 entries are what dividing the byte leaves. */
  lemma TableIsDivision(b: bv8)
    ensures Table(b) == EightSteps(b as bv64)
  {
    hide Table, EightSteps;
    if b < 0x20 {
      TableBottom(b);
    } else if b < 0x40 {
      TableLow(b);
    } else if b < 0x80 {
      TableMiddle(b);
    } else if b < 0xc0 {
      TableUpper(b);
    } else {
      TableTop(b);
    }
  }

  // ------------------------------------------------------------------
  // Linearity
  // ------------------------------------------------------------------

  lemma BothEven(x: bv64, y: bv64)
    requires x & 1 == 0 && y & 1 == 0
    ensures Step(x ^ y) == Step(x) ^ Step(y)
  {
  }

  lemma OneOdd(x: bv64, y: bv64)
    requires x & 1 == 1 && y & 1 == 0
    ensures Step(x ^ y) == Step(x) ^ Step(y) && Step(y ^ x) == Step(y) ^ Step(x)
  {
  }

  lemma BothOdd(x: bv64, y: bv64)
    requires x & 1 == 1 && y & 1 == 1
    ensures Step(x ^ y) == Step(x) ^ Step(y)
  {
  }

  lemma LowBit(x: bv64)
    ensures x & 1 == 0 || x & 1 == 1
  {
  }

  /** Addition of polynomials. */
  function Plus(x: bv64, y: bv64): bv64 {
    x ^ y
  }

  lemma StepIsLinear(x: bv64, y: bv64)
    ensures Step(Plus(x, y)) == Plus(Step(x), Step(y))
  {
    hide Step;
    LowBit(x);
    LowBit(y);
    if x & 1 == 0 {
      if y & 1 == 0 {
        BothEven(x, y);
      } else {
        OneOdd(y, x);
      }
    } else if y & 1 == 0 {
      OneOdd(x, y);
    } else {
      BothOdd(x, y);
    }
  }

  lemma EightStepsAreLinear(x: bv64, y: bv64)
    ensures EightSteps(Plus(x, y)) == Plus(EightSteps(x), EightSteps(y))
  {
    hide Step, Plus;
    var x2, y2 := Step(Step(x)), Step(Step(y));
    var x4, y4 := Step(Step(x2)), Step(Step(y2));
    var x6, y6 := Step(Step(x4)), Step(Step(y4));
    StepIsLinear(x, y);
    StepIsLinear(Step(x), Step(y));
    StepIsLinear(x2, y2);
    StepIsLinear(Step(x2), Step(y2));
    StepIsLinear(x4, y4);
    StepIsLinear(Step(x4), Step(y4));
    StepIsLinear(x6, y6);
    StepIsLinear(Step(x6), Step(y6));
  }

  function Xor(a: seq<bv8>, b: seq<bv8>): (d: seq<bv8>)
    requires |a| == |b|
    ensures |d| == |a| && forall i :: 0 <= i < |a| ==> d[i] == a[i] ^ b[i]
  {
    seq(|a|, i requires 0 <= i < |a| => a[i] ^ b[i])
  }

  lemma XorRegroups(x: bv64, y: bv64, a: bv8, b: bv8)
    ensures Plus(x ^ (a as bv64), y ^ (b as bv64)) == Plus(x, y) ^ ((a ^ b) as bv64)
  {
  }

  lemma ByteStepIsLinear(x: bv64, y: bv64, a: bv8, b: bv8)
    ensures Plus(ByteStep(x, a), ByteStep(y, b)) == ByteStep(Plus(x, y), a ^ b)
  {
    hide EightSteps, Plus;
    XorRegroups(x, y, a, b);
    EightStepsAreLinear(x ^ (a as bv64), y ^ (b as bv64));
  }

  /** The checksum of a difference is the difference of the checksums. */
  lemma {:induction false} SerialIsLinear(x: bv64, y: bv64, a: seq<bv8>, b: seq<bv8>)
    requires |a| == |b|
    ensures Plus(Serial(x, a), Serial(y, b)) == Serial(Plus(x, y), Xor(a, b))
    decreases |a|
  {
    hide ByteStep, Plus;
    if a != [] {
      ByteStepIsLinear(x, y, a[0], b[0]);
      SerialIsLinear(ByteStep(x, a[0]), ByteStep(y, b[0]), a[1..], b[1..]);
      assert Xor(a, b)[1..] == Xor(a[1..], b[1..]);
    }
  }

  // ------------------------------------------------------------------
  // The table-driven loop
  // ------------------------------------------------------------------

  lemma HighBytesShift(y: bv64)
    requires y & 0xff00_0000_0000_0000 == 0
    ensures EightSteps(y << 8) == y
  {
  }

  lemma SplitRegister(c: bv64, b: bv8)
    ensures c ^ (b as bv64) == Plus(((c & 0xff) as bv8 ^ b) as bv64, (c >> 8) << 8)
    ensures (c >> 8) & 0xff00_0000_0000_0000 == 0
  {
  }

  /** What the loop with the table does with a byte. */
  function TableRound(c: bv64, b: bv8): bv64 {
    Plus(Table((c & 0xff) as bv8 ^ b), c >> 8)
  }

  lemma TableRoundDivides(c: bv64, b: bv8)
    ensures TableRound(c, b) == ByteStep(c, b)
  {
    hide Table, EightSteps, Plus;
    var low := (c & 0xff) as bv8 ^ b;
    SplitRegister(c, b);
    HighBytesShift(c >> 8);
    EightStepsAreLinear(low as bv64, (c >> 8) << 8);
    TableIsDivision(low);
  }

  /** `crc64`. */
  method Crc64(crc: bv64, s: array<bv8>, l: nat) returns (r: bv64)
    requires l <= s.Length
    ensures r == Serial(crc, s[..l])
  {
    hide Table, EightSteps, Plus, ByteStep;
    r := crc;
    var j := 0;
    assert s[0..l] == s[..l];
    while j < l
      invariant 0 <= j <= l && Serial(r, s[j..l]) == Serial(crc, s[..l])
    {
      var byte := s[j];
      TableRoundDivides(r, byte);
      assert s[j..l][0] == byte && s[j..l][1..] == s[j + 1..l];
      r := Plus(Table((r & 0xff) as bv8 ^ byte), r >> 8);
      j := j + 1;
    }
  }

  /** Checksums can be computed piece by piece. */
  lemma {:induction false} SerialConcat(crc: bv64, a: seq<bv8>, b: seq<bv8>)
    ensures Serial(crc, a + b) == Serial(Serial(crc, a), b)
    decreases |a|
  {
    hide ByteStep;
    if a == [] {
      assert a + b == b;
    } else {
      SerialConcat(ByteStep(crc, a[0]), a[1..], b);
      assert (a + b)[0] == a[0] && (a + b)[1..] == a[1..] + b;
    }
  }

  // ------------------------------------------------------------------
  // Short changes are always noticed
  // ------------------------------------------------------------------

  /** The low `n` bytes of a word. */
  function Mask(n: nat): bv64 {
    if n == 0 then 0
    else if n == 1 then 0xff
    else if n == 2 then 0xffff
    else if n == 3 then 0xff_ffff
    else if n == 4 then 0xffff_ffff
    else if n == 5 then 0xff_ffff_ffff
    else if n == 6 then 0xffff_ffff_ffff
    else if n == 7 then 0xff_ffff_ffff_ffff
    else 0xffff_ffff_ffff_ffff
  }

  /** The word has no more than `n` bytes. */
  predicate Within(y: bv64, n: nat) {
    y & Mask(n) == y
  }

  /** A word with a byte put below it. */
  function Joined(y: bv64, b: bv8): bv64 {
    (y << 8) ^ (b as bv64)
  }

  /** The highest byte is free. */
  predicate Shiftable(y: bv64) {
    y & 0xff00_0000_0000_0000 == 0
  }

  /** Bytes as a word, the first one lowest. */
  function Word(w: seq<bv8>): bv64
    decreases |w|
  {
    if w == [] then 0 else Joined(Word(w[1..]), w[0])
  }

  lemma StepLosesNothing(c: bv64, d: bv64)
    requires Step(c) == Step(d)
    ensures c == d
  {
  }

  lemma EightStepsLoseNothing(c: bv64, d: bv64)
    requires EightSteps(c) == EightSteps(d)
    ensures c == d
  {
    hide Step;
    var c4, d4 := Step(Step(Step(Step(c)))), Step(Step(Step(Step(d))));
    StepLosesNothing(Step(Step(Step(c4))), Step(Step(Step(d4))));
    StepLosesNothing(Step(Step(c4)), Step(Step(d4)));
    StepLosesNothing(Step(c4), Step(d4));
    StepLosesNothing(c4, d4);
    StepLosesNothing(Step(Step(Step(c))), Step(Step(Step(d))));
    StepLosesNothing(Step(Step(c)), Step(Step(d)));
    StepLosesNothing(Step(c), Step(d));
    StepLosesNothing(c, d);
  }

  lemma SevenBytes(y: bv64, n: nat)
    requires n < 8 && Within(y, n)
    ensures Shiftable(y)
  {
  }

  lemma OneByteMore(y: bv64, n: nat, b: bv8)
    requires n < 8 && Within(y, n)
    ensures Within(Joined(y, b), n + 1)
  {
  }

  lemma XorBack(c: bv64, b: bv8, z: bv64)
    requires c ^ (b as bv64) == z
    ensures c == z ^ (b as bv64)
  {
  }

  /** A register that a byte turns into a short word was that word shifted, plus the byte. */
  lemma ByteStepBack(c: bv64, b: bv8, y: bv64)
    requires ByteStep(c, b) == y && Shiftable(y)
    ensures c == Joined(y, b)
  {
    hide EightSteps;
    HighBytesShift(y);
    EightStepsLoseNothing(c ^ (b as bv64), y << 8);
    XorBack(c, b, y << 8);
  }

  /** At most eight bytes that leave nothing in the register were what was in it. */
  lemma {:induction false} NothingLeft(c: bv64, w: seq<bv8>)
    requires |w| <= 8 && Serial(c, w) == 0
    ensures c == Word(w) && Within(c, |w|)
    decreases |w|
  {
    hide ByteStep, Within, Joined, Shiftable;
    if w == [] {
      NoBytes();
    } else {
      var y := ByteStep(c, w[0]);
      NothingLeft(y, w[1..]);
      SevenBytes(y, |w| - 1);
      ByteStepBack(c, w[0], y);
      OneByteMore(y, |w| - 1, w[0]);
    }
  }

  lemma NoBytes()
    ensures Within(0, 0)
  {
  }

  lemma TopPart(y: bv64, b: bv8)
    requires Shiftable(y) && Joined(y, b) == 0
    ensures y == 0 && b == 0
  {
  }

  lemma {:induction false} ZeroWord(w: seq<bv8>)
    requires |w| <= 8 && Word(w) == 0
    ensures forall i :: 0 <= i < |w| ==> w[i] == 0
    decreases |w|
  {
    hide Within, Joined, Shiftable;
    if w != [] {
      WordWithin(w[1..]);
      SevenBytes(Word(w[1..]), |w| - 1);
      TopPart(Word(w[1..]), w[0]);
      ZeroWord(w[1..]);
    }
  }

  lemma {:induction false} WordWithin(w: seq<bv8>)
    requires |w| <= 8
    ensures Within(Word(w), |w|)
    decreases |w|
  {
    hide Within, Joined;
    if w == [] {
      NoBytes();
    } else {
      WordWithin(w[1..]);
      OneByteMore(Word(w[1..]), |w| - 1, w[0]);
    }
  }

  predicate AllZero(d: seq<bv8>) {
    forall i :: 0 <= i < |d| ==> d[i] == 0
  }

  lemma ZeroByte(c: bv64)
    ensures ByteStep(0, 0) == 0
    ensures ByteStep(c, 0) == 0 ==> c == 0
  {
    hide EightSteps;
    assert EightSteps(0) == 0 by {
      HighBytesShift(0);
      assert (0 as bv64) << 8 == 0;
    }
    if ByteStep(c, 0) == 0 {
      ByteStepBack(c, 0, 0);
    }
  }

  /** Zero bytes leave an empty register empty, and no other one. */
  lemma {:induction false} SerialOfZeros(c: bv64, d: seq<bv8>)
    requires AllZero(d)
    ensures Serial(c, d) == 0 <==> c == 0
    decreases |d|
  {
    hide ByteStep;
    if d != [] {
      ZeroByte(c);
      SerialOfZeros(ByteStep(c, d[0]), d[1..]);
    }
  }

  lemma WindowRemains(before: seq<bv8>, window: seq<bv8>, after: seq<bv8>)
    requires AllZero(before) && AllZero(after) && |window| <= 8 && !AllZero(window)
    ensures Serial(0, before + (window + after)) != 0
  {
    hide Serial;
    SerialConcat(0, before, window + after);
    SerialOfZeros(0, before);
    SerialConcat(0, window, after);
    if Serial(0, window) == 0 {
      NothingLeft(0, window);
      ZeroWord(window);
    }
    SerialOfZeros(Serial(0, window), after);
  }

  lemma CutInThree<T>(d: seq<T>, at: nat, end: nat, i: nat)
    requires at <= i < end <= |d|
    ensures d == d[..at] + (d[at..end] + d[end..]) && d[at..end][i - at] == d[i]
  {
  }

  /** A difference confined to eight consecutive bytes does not divide out. */
  lemma ShortDifference(d: seq<bv8>, at: nat)
    requires forall i :: 0 <= i < |d| && (i < at || at + 8 <= i) ==> d[i] == 0
    ensures Serial(0, d) == 0 <==> AllZero(d)
  {
    hide Serial;
    if AllZero(d) {
      SerialOfZeros(0, d);
    } else {
      var i :| 0 <= i < |d| && d[i] != 0;
      assert at <= |d|;
      var end := if at + 8 <= |d| then at + 8 else |d|;
      CutInThree(d, at, end, i);
      OutsideIsZero(d, at, end);
      assert !AllZero(d[at..end]);
      hide AllZero;
      WindowRemains(d[..at], d[at..end], d[end..]);
    }
  }

  lemma OutsideIsZero(d: seq<bv8>, at: nat, end: nat)
    requires at <= end <= |d| && forall i :: 0 <= i < |d| && (i < at || end <= i) ==> d[i] == 0
    ensures AllZero(d[..at]) && AllZero(d[end..])
  {
  }

  lemma XorZero(a: bv8, b: bv8)
    ensures a ^ b == 0 <==> a == b
  {
  }

  lemma PlusZero(x: bv64, y: bv64)
    ensures Plus(x, y) == 0 <==> x == y
    ensures Plus(x, x) == 0
  {
  }

  /** Messages of one length that differ only within eight consecutive bytes have different checksums. */
  lemma ShortChangesAreNoticed(crc: bv64, a: seq<bv8>, b: seq<bv8>, at: nat)
    requires |a| == |b| && forall i :: 0 <= i < |a| && (i < at || at + 8 <= i) ==> a[i] == b[i]
    ensures Serial(crc, a) == Serial(crc, b) <==> a == b
  {
    hide Serial, Plus;
    var d := Xor(a, b);
    forall i | 0 <= i < |a| ensures d[i] == 0 <==> a[i] == b[i] {
      XorZero(a[i], b[i]);
    }
    SerialIsLinear(crc, crc, a, b);
    PlusZero(crc, crc);
    PlusZero(Serial(crc, a), Serial(crc, b));
    ShortDifference(d, at);
    if AllZero(d) {
      assert forall i :: 0 <= i < |a| ==> a[i] == b[i];
    }
  }

  // ------------------------------------------------------------------
  // The footer of a dumped value
  // ------------------------------------------------------------------

  /** A word as bytes, low byte first. */
  function WordBytes(x: bv64): (b: seq<bv8>)
    ensures |b| == 8
  {
    [(x & 0xff) as bv8, ((x >> 8) & 0xff) as bv8, ((x >> 16) & 0xff) as bv8, ((x >> 24) & 0xff) as bv8,
     ((x >> 32) & 0xff) as bv8, ((x >> 40) & 0xff) as bv8, ((x >> 48) & 0xff) as bv8, ((x >> 56) & 0xff) as bv8]
  }

  /** `createDumpPayload`, around the saved object: its bytes, the version 6 in two bytes, and the checksum of both. */
  function CreateDumpPayload(saved: seq<bv8>): seq<bv8> {
    var body := saved + [6, 0];
    body + WordBytes(Serial(0, body))
  }

  /** `verifyDumpPayload`. */
  predicate VerifyDumpPayload(p: seq<bv8>) {
    && |p| >= 10
    && p[|p| - 10] == 6 && p[|p| - 9] == 0
    && WordBytes(Serial(0, p[..|p| - 8])) == p[|p| - 8..]
  }

  /** Nothing but a created payload is accepted: the version is checked as well. */
  lemma OnlyCreatedIsAccepted(p: seq<bv8>)
    ensures VerifyDumpPayload(p) <==>
            exists saved :: p == saved + [6, 0] + WordBytes(Serial(0, saved + [6, 0]))
  {
    hide Serial, WordBytes;
    if VerifyDumpPayload(p) {
      var saved := p[..|p| - 10];
      assert p[..|p| - 8] == saved + [6, 0];
      assert p == saved + [6, 0] + WordBytes(Serial(0, saved + [6, 0]));
    }
    if saved :| p == saved + [6, 0] + WordBytes(Serial(0, saved + [6, 0])) {
      assert p == CreateDumpPayload(saved);
      CreatedIsAccepted(saved);
    }
  }

  /** What was created is accepted, with any object inside. */
  lemma CreatedIsAccepted(saved: seq<bv8>)
    ensures VerifyDumpPayload(CreateDumpPayload(saved))
  {
    hide Serial, WordBytes;
    var body := saved + [6, 0];
    var p := CreateDumpPayload(saved);
    assert p[..|p| - 8] == body && p[|p| - 8..] == WordBytes(Serial(0, body));
    assert body[|body| - 2] == 6 && body[|body| - 1] == 0;
  }

  lemma WordBytesTellApart(x: bv64, y: bv64)
    requires WordBytes(x) == WordBytes(y)
    ensures x == y
  {
    var a, b := WordBytes(x), WordBytes(y);
    assert a[0] == b[0] && a[1] == b[1] && a[2] == b[2] && a[3] == b[3];
    assert a[4] == b[4] && a[5] == b[5] && a[6] == b[6] && a[7] == b[7];
    SameBytes(x, y);
  }

  lemma SameBytes(x: bv64, y: bv64)
    requires x & 0xff == y & 0xff && (x >> 8) & 0xff == (y >> 8) & 0xff
    requires (x >> 16) & 0xff == (y >> 16) & 0xff && (x >> 24) & 0xff == (y >> 24) & 0xff
    requires (x >> 32) & 0xff == (y >> 32) & 0xff && (x >> 40) & 0xff == (y >> 40) & 0xff
    requires (x >> 48) & 0xff == (y >> 48) & 0xff && (x >> 56) & 0xff == (y >> 56) & 0xff
    ensures x == y
  {
  }

  /** Changing no more than eight consecutive bytes before the checksum is always found out. */
  lemma ChangedPayloadIsRejected(p: seq<bv8>, q: seq<bv8>, at: nat)
    requires VerifyDumpPayload(p) && |q| == |p| && q != p && q[|q| - 8..] == p[|p| - 8..]
    requires forall i :: 0 <= i < |p| - 8 && (i < at || at + 8 <= i) ==> p[i] == q[i]
    ensures !VerifyDumpPayload(q)
  {
    hide Serial, WordBytes;
    var a, b := p[..|p| - 8], q[..|q| - 8];
    ShortChangesAreNoticed(0, a, b, at);
    assert p == a + p[|p| - 8..] && q == b + q[|q| - 8..];
    if VerifyDumpPayload(q) {
      WordBytesTellApart(Serial(0, a), Serial(0, b));
    }
  }
}
