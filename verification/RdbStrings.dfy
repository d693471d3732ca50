/**
 Lengths and strings in a dump file (rdb.c): the loader as functions of the bytes that follow, and
 the saver, which picks one of several forms, proved to write what the loader reads back.
 */
module RdbStrings {
  import opened Bytes
  import opened Decimal
  import opened Requests
  import opened Words
  import Lzf

  const LEN_LIMIT := 0x1_0000_0000
  /** What `rdbLoadLen` returns for a failure is also the largest length. */
  const LEN_ERROR := 0xffff_ffff

  const ENC_INT8 := 0
  const ENC_INT16 := 1
  const ENC_INT32 := 2
  const ENC_LZF := 3

  /** What was read, and the bytes after it. */
  datatype Parsed<T> = Parsed(value: T, rest: Text)

  // ------------------------------------------------------------------
  // Lengths
  // ------------------------------------------------------------------

  datatype Length = Plain(n: nat) | Special(kind: nat)

  /** The word of a high part and a low byte. */
  function Word(high: int, low: int): int {
    high * 256 + low
  }

  function BigEndian4(n: nat): Text
    requires n < LEN_LIMIT
  {
    [n / 0x100_0000, n / 0x1_0000 % 256, n / 256 % 256, n % 256]
  }

  /** `rdbSaveLen`. */
  function SaveLen(n: nat): (out: Text)
    requires n < LEN_LIMIT
  {
    if n < 64 then [n]
    else if n < 16384 then [64 + n / 256, n % 256]
    else [128] + BigEndian4(n)
  }

  /** `rdbLoadLen`. */
  function LoadLen(s: Text): (r: Option<Parsed<Length>>)
    ensures r.Some? ==> |r.value.rest| < |s|
  {
    if s == [] then None
    else
      var b := s[0];
      if b / 64 == 3 then Some(Parsed(Special(b % 64), s[1..]))
      else if b / 64 == 0 then Some(Parsed(Plain(b % 64), s[1..]))
      else if b / 64 == 1 then
        if |s| < 2 then None else Some(Parsed(Plain(Word(b % 64, s[1])), s[2..]))
      else if |s| < 5 then None
      else Some(Parsed(Plain(Word(Word(Word(s[1], s[2]), s[3]), s[4])), s[5..]))
  }

  lemma BigEndianBack(n: nat)
    requires n < LEN_LIMIT
    ensures var b := BigEndian4(n); |b| == 4 && Word(Word(Word(b[0], b[1]), b[2]), b[3]) == n
  {
    assert n == n / 256 * 256 + n % 256;
    assert n / 256 == n / 0x1_0000 * 256 + n / 256 % 256;
    assert n / 0x1_0000 == n / 0x100_0000 * 256 + n / 0x1_0000 % 256;
  }

  /** Every length is read back, whichever of the three forms it was given. */
  lemma LengthRoundTrip(n: nat, rest: Text)
    requires n < LEN_LIMIT
    ensures LoadLen(SaveLen(n) + rest) == Some(Parsed(Plain(n), rest))
  {
    var s := SaveLen(n) + rest;
    if n < 64 {
      assert s[1..] == rest;
    } else if n < 16384 {
      assert (64 + n / 256) / 64 == 1 && (64 + n / 256) % 64 == n / 256;
      assert s[2..] == rest;
    } else {
      BigEndianBack(n);
      assert s[1..5] == BigEndian4(n) && s[5..] == rest;
      assert s[1] == BigEndian4(n)[0] && s[2] == BigEndian4(n)[1] && s[3] == BigEndian4(n)[2] && s[4] == BigEndian4(n)[3];
    }
  }

  /** The three forms and how a reader tells them apart: the two highest bits of the first byte. */
  lemma LengthForms(n: nat)
    requires n < LEN_LIMIT
    ensures var b := SaveLen(n);
            if n < 64 then |b| == 1 && b[0] == n
            else if n < 16384 then |b| == 2 && 64 <= b[0] < 128 && (b[0] as int - 64) * 0x100 + b[1] as int == n
            else |b| == 5 && b[0] == 128 && b[1] as int * 0x100_0000 + b[2] as int * 0x1_0000 + b[3] as int * 0x100 + b[4] as int == n
  {
    BigEndianBack(n);
  }

  /** Numbers take as many bytes as they need, behind a byte that says how many. */
  lemma IntegerForms(v: int)
    ensures var e := EncodeInteger(v);
            if -0x80 <= v < 0x80 then e.Some? && |e.value| == 2 && e.value[0] == 0xc0
            else if -0x8000 <= v < 0x8000 then e.Some? && |e.value| == 3 && e.value[0] == 0xc1
            else if -0x8000_0000 <= v < 0x8000_0000 then e.Some? && |e.value| == 5 && e.value[0] == 0xc2
            else e.None?
  {
    hide ToBytes;
    Powers();
  }

  // ------------------------------------------------------------------
  // Integers
  // ------------------------------------------------------------------

  /** `rdbEncodeInteger`: little endian, in two's complement. */
  function EncodeInteger(v: int): Option<Text> {
    Powers();
    if -128 <= v <= 127 then Some([192 + ENC_INT8] + ToBytes(v, 1))
    else if -32768 <= v <= 32767 then Some([192 + ENC_INT16] + ToBytes(v, 2))
    else if -0x8000_0000 <= v <= 0x7fff_ffff then Some([192 + ENC_INT32] + ToBytes(v, 4))
    else None
  }

  /** `rdbLoadIntegerObject`, as the text of the number. */
  function LoadInteger(kind: nat, s: Text): (r: Option<Parsed<Text>>)
    requires kind <= ENC_INT32
    ensures r.Some? ==> |r.value.rest| <= |s|
  {
    var width := if kind == ENC_INT8 then 1 else if kind == ENC_INT16 then 2 else 4;
    if |s| < width then None else Some(Parsed(Show(FromBytes(s[..width])), s[width..]))
  }

  lemma IntegerRoundTrip(v: int, rest: Text)
    ensures var e := EncodeInteger(v);
            e.Some? ==>
              && |e.value| > 0 && e.value[0] >= 192 && e.value[0] - 192 <= ENC_INT32
              && LoadInteger(e.value[0] - 192, e.value[1..] + rest) == Some(Parsed(Show(v), rest))
  {
    hide Show, ToBytes, FromBytes;
    var e := EncodeInteger(v);
    if e.Some? {
      Powers();
      var width := |e.value| - 1;
      BytesRoundTrip(v, width);
      assert e.value[1..] == ToBytes(v, width);
      assert (ToBytes(v, width) + rest)[..width] == ToBytes(v, width) && (ToBytes(v, width) + rest)[width..] == rest;
    }
  }

  // ------------------------------------------------------------------
  // Strings
  // ------------------------------------------------------------------

  function Number(l: Length): nat {
    match l case Plain(n) => n case Special(k) => k
  }

  function Zeros(n: nat): (z: Text)
    ensures |z| == n
  {
    seq(n, _ => 0)
  }

  /** `rdbLoadLzfStringObject`. */
  function LoadLzf(s: Text): (r: Option<Parsed<Text>>)
    ensures r.Some? ==> |r.value.rest| <= |s|
  {
    match LoadLen(s)
    case None => None
    case Some(Parsed(l, s1)) =>
      if Number(l) == LEN_ERROR then None
      else
        match LoadLen(s1)
        case None => None
        case Some(Parsed(l', s2)) =>
          var clen, len := Number(l), Number(l');
          if len == LEN_ERROR || clen == 0 || clen > |s2| then None
          else
            match Lzf.Decode(s2[..clen], 0, [], len)
            case Err(_) => None
            case Ok(out) =>
              if out == [] || |out| > len then None
              else Some(Parsed(out + Zeros(len - |out|), s2[clen..]))
  }

  /** `rdbGenericLoadStringObject`. */
  function LoadString(s: Text): (r: Option<Parsed<Text>>)
    ensures r.Some? ==> |r.value.rest| < |s|
  {
    match LoadLen(s)
    case None => None
    case Some(Parsed(Special(k), s1)) =>
      if k <= ENC_INT32 then LoadInteger(k, s1) else if k == ENC_LZF then LoadLzf(s1) else None
    case Some(Parsed(Plain(n), s1)) =>
      if n == LEN_ERROR || n > |s1| then None else Some(Parsed(s1[..n], s1[n..]))
  }

  // ------------------------------------------------------------------
  // More bytes behind what was read change nothing
  // ------------------------------------------------------------------

  /** The same with more bytes behind. */
  function Extended<T>(r: Option<Parsed<T>>, more: Text): Option<Parsed<T>> {
    match r case None => None case Some(Parsed(v, rest)) => Some(Parsed(v, rest + more))
  }

  /** What is left is an end of what there was. */
  predicate EndOf(rest: Text, s: Text) {
    |rest| <= |s| && s[|s| - |rest|..] == rest
  }

  lemma EndOfEnd(a: Text, b: Text, c: Text)
    requires EndOf(a, b) && EndOf(b, c)
    ensures EndOf(a, c)
  {
    assert c[|c| - |a|..] == c[|c| - |b|..][|b| - |a|..];
  }

  lemma LenExtends(s: Text, more: Text)
    ensures LoadLen(s).Some? ==> LoadLen(s + more) == Extended(LoadLen(s), more) && EndOf(LoadLen(s).value.rest, s)
  {
    hide Word;
    if s != [] {
      var t := s + more;
      assert forall i :: 0 <= i < |s| ==> t[i] == s[i];
      assert forall i :: 0 <= i <= |s| ==> t[i..] == s[i..] + more;
    }
  }

  lemma IntegerExtends(kind: nat, s: Text, more: Text)
    requires kind <= ENC_INT32
    ensures LoadInteger(kind, s).Some? ==>
              LoadInteger(kind, s + more) == Extended(LoadInteger(kind, s), more) && EndOf(LoadInteger(kind, s).value.rest, s)
  {
    hide Show, FromBytes;
    var width := if kind == ENC_INT8 then 1 else if kind == ENC_INT16 then 2 else 4;
    if |s| >= width {
      assert (s + more)[..width] == s[..width] && (s + more)[width..] == s[width..] + more;
    }
  }

  lemma SliceExtends(s: Text, more: Text, n: nat)
    requires n <= |s|
    ensures (s + more)[..n] == s[..n] && (s + more)[n..] == s[n..] + more && EndOf(s[n..], s)
  {
  }

  lemma LzfExtends(s: Text, more: Text)
    ensures LoadLzf(s).Some? ==> LoadLzf(s + more) == Extended(LoadLzf(s), more) && EndOf(LoadLzf(s).value.rest, s)
  {
    hide LoadLen, Lzf.Decode, EndOf;
    if LoadLzf(s).Some? {
      LenExtends(s, more);
      var s1 := LoadLen(s).value.rest;
      LenExtends(s1, more);
      var s2, clen := LoadLen(s1).value.rest, Number(LoadLen(s).value.value);
      SliceExtends(s2, more, clen);
      EndOfEnd(s2, s1, s);
      EndOfEnd(s2[clen..], s2, s);
    }
  }

  lemma StringExtends(s: Text, more: Text)
    ensures LoadString(s).Some? ==> LoadString(s + more) == Extended(LoadString(s), more) && EndOf(LoadString(s).value.rest, s)
  {
    hide LoadLen, LoadInteger, LoadLzf, EndOf;
    LenExtends(s, more);
    if LoadString(s).Some? {
      var s1 := LoadLen(s).value.rest;
      match LoadLen(s).value.value
      case Special(k) =>
        if k <= ENC_INT32 {
          IntegerExtends(k, s1, more);
        } else {
          LzfExtends(s1, more);
        }
        EndOfEnd(LoadString(s).value.rest, s1, s);
      case Plain(n) =>
        SliceExtends(s1, more, n);
        EndOfEnd(s1[n..], s1, s);
    }
  }

  /** Whatever follows, the loader reads the string back and leaves what follows untouched. */
  ghost predicate Saves(out: Text, s: Text) {
    forall rest :: LoadString(out + rest) == Some(Parsed(s, rest))
  }

  /** Any length can be written, but the largest one is read as an error. */
  lemma VerbatimSaves(s: Text)
    requires |s| < LEN_LIMIT
    ensures Saves(SaveLen(|s|) + s, s) <==> |s| != LEN_ERROR
    ensures |s| == LEN_ERROR ==> forall rest :: LoadString(SaveLen(|s|) + s + rest) == None
  {
    hide LoadLen, SaveLen;
    if |s| == LEN_ERROR {
      forall rest ensures LoadString(SaveLen(|s|) + s + rest) == None {
        LengthRoundTrip(|s|, s + rest);
        assert SaveLen(|s|) + s + rest == SaveLen(|s|) + (s + rest);
      }
      assert LoadString(SaveLen(|s|) + s + []) == None;
      return;
    }
    forall rest ensures LoadString(SaveLen(|s|) + s + rest) == Some(Parsed(s, rest)) {
      LengthRoundTrip(|s|, s + rest);
      assert SaveLen(|s|) + s + rest == SaveLen(|s|) + (s + rest);
    }
  }

  lemma SpecialLength(kind: nat, rest: Text)
    requires kind < 64
    ensures LoadLen([192 + kind] + rest) == Some(Parsed(Special(kind), rest))
  {
    assert (192 + kind) / 64 == 3 && (192 + kind) % 64 == kind;
    assert ([192 + kind] + rest)[1..] == rest;
  }

  lemma IntegerSaves(v: int)
    ensures EncodeInteger(v).Some? ==> Saves(EncodeInteger(v).value, Show(v))
  {
    hide LoadLen, EncodeInteger, LoadInteger, Show;
    if EncodeInteger(v).Some? {
      var e := EncodeInteger(v).value;
      forall rest ensures LoadString(e + rest) == Some(Parsed(Show(v), rest)) {
        IntegerRoundTrip(v, rest);
        SpecialLength(e[0] - 192, e[1..] + rest);
        assert e + rest == [192 + (e[0] - 192)] + (e[1..] + rest);
      }
    }
  }

  function LzfForm(code: Text, length: nat): Text
    requires |code| < LEN_LIMIT && length < LEN_LIMIT
  {
    [192 + ENC_LZF] + SaveLen(|code|) + SaveLen(length) + code
  }

  /** The compressed form: its mark, the two lengths, and the compressed bytes. */
  lemma LzfFormIs(code: Text, length: nat)
    requires |code| < LEN_LIMIT && length < LEN_LIMIT
    ensures LzfForm(code, length) == [0xc3] + SaveLen(|code|) + SaveLen(length) + code
  {
  }

  lemma LzfSaves(code: Text, s: Text)
    requires Lzf.IsLzfOf(code, s) && code != [] && s != [] && |code| < LEN_ERROR && |s| < LEN_LIMIT
    ensures Saves(LzfForm(code, |s|), s) <==> |s| != LEN_ERROR
  {
    hide LoadLen, SaveLen, Lzf.Decode, Lzf.IsLzfOf;
    forall rest ensures LoadString(LzfForm(code, |s|) + rest) == if |s| == LEN_ERROR then None else Some(Parsed(s, rest)) {
      var s2 := code + rest;
      LengthRoundTrip(|s|, s2);
      LengthRoundTrip(|code|, SaveLen(|s|) + s2);
      SpecialLength(ENC_LZF, SaveLen(|code|) + (SaveLen(|s|) + s2));
      assert LzfForm(code, |s|) + rest == [192 + ENC_LZF] + (SaveLen(|code|) + (SaveLen(|s|) + s2));
      Lzf.DecodeInvertsEncoding(code, s, |s|);
      assert s2[..|code|] == code && s2[|code|..] == rest && s + Zeros(0) == s;
    }
    if |s| == LEN_ERROR {
      assert LoadString(LzfForm(code, |s|) + []) == None;
    }
  }

  /** The uninitialised table of the compressor and the address of its input. */
  datatype Memory = Memory(htab: array<u64>, base: nat)

  ghost predicate Fits(m: Memory, n: nat) {
    m.htab.Length == Lzf.HSIZE && Lzf.MAX_OFF <= m.base && m.base + n <= Lzf.TWO_64
  }

  /** `rdbSaveLzfStringObject`; nothing when the string does not become at least four bytes shorter. */
  method SaveLzfString(s: Text, m: Memory) returns (out: Text)
    requires Fits(m, |s|) && |s| < LEN_LIMIT
    modifies m.htab
    ensures out == [] || (Saves(out, s) <==> |s| != LEN_ERROR)
    ensures out == [] || exists code ::
                           && Lzf.IsLzfOf(code, s) && 0 < |code| <= |s| - 4 && out == LzfForm(code, |s|)
                           && (Lzf.AllEqual(s) && |s| > 20 ==> 66 * |code| <= |s| + 658)
    ensures Lzf.AllEqual(s) && |s| > 20 ==> out != []
  {
    if |s| <= 4 {
      return [];
    }
    var input, output := new u8[|s|](i requires 0 <= i < |s| => s[i]), new u8[|s| - 3](_ => 0);
    assert input[..] == s;
    var comprlen := Lzf.Compress(input, output, |s| - 4, m.htab, m.base);
    if comprlen == 0 {
      return [];
    }
    var code := output[..comprlen];
    out := LzfForm(code, |s|);
    LzfSaves(code, s);
  }

  lemma NoSmallNumber(s: Text)
    requires Read(s).Some? ==> EncodeInteger(Read(s).value).None?
    ensures forall v :: -0x8000_0000 <= v < 0x8000_0000 ==> s != Show(v)
  {
    hide Read, Show, EncodeInteger;
    forall v | -0x8000_0000 <= v < 0x8000_0000 ensures s != Show(v) {
      if s == Show(v) {
        ReadShow(v);
        IntegerForms(v);
        assert false;
      }
    }
  }

  lemma SmallNumber(s: Text, v: int)
    requires InRange(v) && s == Show(v) && EncodeInteger(v).Some?
    ensures -0x8000_0000 <= v < 0x8000_0000
  {
    hide Show, EncodeInteger;
    IntegerForms(v);
  }

  /** `rdbSaveRawString`: as an integer, compressed, or as it is. */
  method SaveRawString(s: Text, compression: bool, m: Memory) returns (out: Text)
    requires Fits(m, |s|) && |s| < LEN_LIMIT
    modifies m.htab
    ensures Saves(out, s) <==> |s| != LEN_ERROR
    ensures (|s| <= 11 && exists v :: -0x8000_0000 <= v < 0x8000_0000 && s == Show(v) && Some(out) == EncodeInteger(v))
            || ((|s| <= 11 ==> forall v :: -0x8000_0000 <= v < 0x8000_0000 ==> s != Show(v)) &&
                if compression && |s| > 20 && out != SaveLen(|s|) + s
                then exists code :: Lzf.IsLzfOf(code, s) && 0 < |code| <= |s| - 4 && out == LzfForm(code, |s|)
                else out == SaveLen(|s|) + s)
    ensures compression && |s| > 20 && Lzf.AllEqual(s) ==>
              exists code :: Lzf.IsLzfOf(code, s) && 66 * |code| <= |s| + 658 && out == LzfForm(code, |s|)
  {
    hide Read, Saves, EncodeInteger, SaveLen, Show;
    if |s| <= 11 {
      var v := ParseLength(s);
      if v.Some? {
        ReadBack(s);
        var e := EncodeInteger(v.value);
        IntegerSaves(v.value);
        if e.Some? {
          SmallNumber(s, v.value);
          return e.value;
        }
      }
      NoSmallNumber(s);
    }
    if compression && |s| > 20 {
      out := SaveLzfString(s, m);
      if out != [] {
        return;
      }
    }
    VerbatimSaves(s);
    out := SaveLen(|s|) + s;
  }

  lemma ReadBack(s: Text)
    requires Read(s).Some?
    ensures s == Show(Read(s).value) && InRange(Read(s).value)
  {
  }

  /** `rdbSaveLongLongAsStringObject`. */
  method SaveLongLong(v: int) returns (out: Text)
    requires InRange(v)
    ensures Saves(out, Show(v))
    ensures |Show(v)| <= 20
            && out == if -0x8000_0000 <= v < 0x8000_0000 then EncodeInteger(v).value else SaveLen(|Show(v)|) + Show(v)
  {
    hide Saves, EncodeInteger, SaveLen, Show;
    IntegerForms(v);
    LongLongLength(v);
    var e := EncodeInteger(v);
    if e.Some? {
      IntegerSaves(v);
      return e.value;
    }
    var buf := new u8[32](_ => 0);
    var enclen := Ll2string(buf, 32, v);
    assert buf[..enclen] == Show(v);
    VerbatimSaves(Show(v));
    out := SaveLen(enclen) + buf[..enclen];
  }

  lemma SmallNumbersAreShort(s: Text)
    ensures forall v :: -0x8000_0000 <= v < 0x8000_0000 && s == Show(v) ==> |s| <= 11 && Read(s) == Some(v)
  {
    hide Read, Show;
    forall v | -0x8000_0000 <= v < 0x8000_0000 && s == Show(v) ensures |s| <= 11 && Read(s) == Some(v) {
      ReadShow(v);
      ShowAtMost(v);
    }
  }

  lemma ShowAtMost(v: int)
    requires -0x8000_0000 <= v < 0x8000_0000
    ensures |Show(v)| <= 11
  {
    hide Digits;
    DigitsLength(if v < 0 then -v else v, 10);
    assert Pow10(10) == 10_000_000_000;
  }

  /** `rdbSaveStringObject`: a string may be held as a number. */
  method SaveString(s: Text, compression: bool, heldAsNumber: bool, m: Memory) returns (out: Text)
    requires Fits(m, |s|) && |s| < LEN_LIMIT
    modifies m.htab
    ensures Saves(out, s) <==> |s| != LEN_ERROR
    ensures compression && |s| > 20 && Lzf.AllEqual(s) ==>
              exists code :: Lzf.IsLzfOf(code, s) && 66 * |code| <= |s| + 658 && out == LzfForm(code, |s|)
    ensures forall v :: -0x8000_0000 <= v < 0x8000_0000 && s == Show(v) ==> Some(out) == EncodeInteger(v)
  {
    hide Read, Saves, Show, EncodeInteger, Lzf.AllEqual, Lzf.IsLzfOf;
    SmallNumbersAreShort(s);
    if heldAsNumber {
      var v := ParseLength(s);
      if v.Some? {
        ReadBack(s);
        LongLongLength(v.value);
        IntegerForms(v.value);
        out := SaveLongLong(v.value);
        return;
      }
    }
    out := SaveRawString(s, compression, m);
  }
}
