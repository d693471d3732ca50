/**
 The LZF codec: the compressor of lzf_c.c and the decompressor of lzf_d.c.

 Pointers into the input are indices; the hash table holds raw addresses, because
 it is never initialised and may hold any bit pattern when the compressor reads it.
 */
module Lzf {
  import opened Bytes

  const MAX_LIT := 32
  const MAX_OFF := 8192
  const MAX_REF := 264
  const HSIZE := 65536
  const TWO_64 := 0x1_0000_0000_0000_0000

  datatype Errno = E2BIG | EINVAL

  datatype Decoded = Ok(out: seq<u8>) | Err(errno: Errno)

  // ------------------------------------------------------------------
  // The format
  // ------------------------------------------------------------------

  /** A literal run, or a copy of `len` bytes that starts `off + 1` bytes back. */
  datatype Token = Literal(bytes: seq<u8>) | BackRef(off: nat, len: nat)

  /** Tokens in the order they are written, built at the end as the compressor does. */
  datatype Tokens = Empty | Snoc(before: Tokens, last: Token)

  predicate TokenOk(t: Token, produced: nat) {
    match t
    case Literal(bytes) => 1 <= |bytes| <= MAX_LIT
    case BackRef(off, len) => off < MAX_OFF && off < produced && 3 <= len <= MAX_REF
  }

  function RenderToken(t: Token): seq<u8> {
    match t
    case Literal(bytes) => [Byte(|bytes| - 1)] + bytes
    case BackRef(off, len) =>
      if len - 2 < 7 then [Byte(off / 256 + (len - 2) * 32), Byte(off)]
      else [Byte(off / 256 + 7 * 32), Byte(len - 9), Byte(off)]
  }

  /** `n` bytes copied one at a time from `dist` bytes back; the copy may overlap its own output. */
  function CopyBack(out: seq<u8>, dist: nat, n: nat): (r: seq<u8>)
    requires 1 <= dist <= |out|
    ensures |r| == |out| + n && r[..|out|] == out
    ensures forall k :: |out| <= k < |r| ==> r[k] == r[k - dist]
  {
    if n == 0 then out
    else
      var r := CopyBack(out, dist, n - 1);
      r + [r[|r| - dist]]
  }

  /** What one token adds to the output before it. */
  function Apply(t: Token, out: seq<u8>): seq<u8>
    requires TokenOk(t, |out|)
  {
    match t
    case Literal(bytes) => out + bytes
    case BackRef(off, len) => CopyBack(out, off + 1, len)
  }

  /** The bytes the tokens stand for; None when some token is malformed where it stands. */
  function Expand(ts: Tokens): Option<seq<u8>> {
    match ts
    case Empty => Some([])
    case Snoc(before, t) =>
      match Expand(before)
      case None => None
      case Some(out) => if TokenOk(t, |out|) then Some(Apply(t, out)) else None
  }

  function Render(ts: Tokens): seq<u8> {
    match ts
    case Empty => []
    case Snoc(before, t) => Render(before) + RenderToken(t)
  }

  /** `code` is some valid LZF encoding of `data`. */
  ghost predicate IsLzfOf(code: seq<u8>, data: seq<u8>) {
    exists ts :: Expand(ts) == Some(data) && Render(ts) == code
  }

  lemma RenderingEncodes(ts: Tokens, code: seq<u8>, data: seq<u8>)
    requires Expand(ts) == Some(data) && Render(ts) == code
    ensures IsLzfOf(code, data)
    ensures data != [] ==> code != []
  {
    if data != [] {
      assert ts.Snoc? && |RenderToken(ts.last)| > 0;
    }
  }

  // ------------------------------------------------------------------
  // What a byte string decodes to, with the checks in the order of the code
  // ------------------------------------------------------------------

  /** What the control bytes at a position announce: a run, or a copy whose header ends before `next`. */
  datatype Header = Run(count: nat) | Copy(next: nat, count: nat, dist: nat) | Truncated

  function ParseHeader(code: seq<u8>, i: nat): (h: Header)
    requires i < |code|
    ensures h.Run? ==> h.count > 0
    ensures h.Copy? ==> i < h.next <= |code| && h.count > 0 && h.dist > 0
  {
    var ctrl: nat := code[i];
    if ctrl < 32 then Run(ctrl + 1)
    else
      var long := ctrl / 32 == 7;
      var j := if long then i + 2 else i + 1;
      if j >= |code| then Truncated
      else
        var extra: nat := if long then code[i + 1] else 0;
        var low: nat := code[j];
        Copy(j + 1, ctrl / 32 + extra + 2, ctrl % 32 * 256 + low + 1)
  }

  datatype Step = Next(i: nat, out: seq<u8>) | Stop(errno: Errno)

  /** One pass of the decoding loop at position `i` with `out` already produced. */
  function DecodeStep(code: seq<u8>, i: nat, out: seq<u8>, cap: nat): (s: Step)
    requires i < |code|
    ensures s.Next? ==> i < s.i <= |code| && |out| < |s.out| <= cap
  {
    match ParseHeader(code, i)
    case Run(count) =>
      if |out| + count > cap then Stop(E2BIG)
      else if i + 1 + count > |code| then Stop(EINVAL)
      else Next(i + 1 + count, out + code[i + 1..i + 1 + count])
    case Copy(next, count, dist) =>
      if |out| + count > cap then Stop(E2BIG)
      else if dist > |out| then Stop(EINVAL)
      else Next(next, CopyBack(out, dist, count))
    case Truncated => Stop(EINVAL)
  }

  function Decode(code: seq<u8>, i: nat, out: seq<u8>, cap: nat): Decoded
    requires i <= |code|
    decreases |code| - i
  {
    if i == |code| then Ok(out)
    else
      match DecodeStep(code, i, out, cap)
      case Stop(e) => Err(e)
      case Next(i', out') => Decode(code, i', out', cap)
  }

  lemma ControlByte(off: nat, l: nat)
    requires off < MAX_OFF && 1 <= l <= 7
    ensures var c := Byte(off / 256 + l * 32); c / 32 == l && c % 32 == off / 256
    ensures off / 256 * 256 + Byte(off) == off
  {
  }

  lemma HeaderOfToken(t: Token, produced: nat, code: seq<u8>, i: nat)
    requires TokenOk(t, produced)
    requires var r := RenderToken(t); i + |r| <= |code| && code[i..i + |r|] == r
    ensures ParseHeader(code, i) == match t
                                    case Literal(b) => Run(|b|)
                                    case BackRef(off, len) => Copy(i + |RenderToken(t)|, len, off + 1)
  {
    var r := RenderToken(t);
    assert code[i] == code[i..i + |r|][0] && code[i + 1] == code[i..i + |r|][1];
    match t
    case Literal(b) =>
    case BackRef(off, len) =>
      ControlByte(off, Min(len - 2, 7));
      assert len - 2 >= 7 ==> code[i + 2] == code[i..i + |r|][2];
  }

  /** One rendered token, wherever it stands in the code, decodes to what it stands for. */
  lemma DecodeToken(t: Token, code: seq<u8>, i: nat, out: seq<u8>, cap: nat)
    requires TokenOk(t, |out|) && |Apply(t, out)| <= cap
    requires i + |RenderToken(t)| <= |code|
    requires code[i..i + |RenderToken(t)|] == RenderToken(t)
    ensures DecodeStep(code, i, out, cap) == Next(i + |RenderToken(t)|, Apply(t, out))
  {
    hide ParseHeader;
    HeaderOfToken(t, |out|, code, i);
    if t.Literal? {
      assert code[i + 1..i + |RenderToken(t)|] == code[i..i + |RenderToken(t)|][1..] == t.bytes;
    }
  }

  lemma {:induction false} DecodeTokens(ts: Tokens, code: seq<u8>, cap: nat)
    requires Expand(ts).Some? && |Expand(ts).value| <= cap
    requires |Render(ts)| <= |code| && code[..|Render(ts)|] == Render(ts)
    ensures Decode(code, 0, [], cap) == Decode(code, |Render(ts)|, Expand(ts).value, cap)
  {
    match ts
    case Empty =>
    case Snoc(before, t) =>
      var out, k, r := Expand(before).value, |Render(before)|, RenderToken(t);
      assert code[..k] == code[..|Render(ts)|][..k] == Render(before);
      DecodeTokens(before, code, cap);
      assert code[k..k + |r|] == code[..|Render(ts)|][k..] == r;
      DecodeToken(t, code, k, out, cap);
  }

  /** Round trip: whichever encoding was chosen, decoding it into enough room gives the data back. */
  lemma DecodeInvertsEncoding(code: seq<u8>, data: seq<u8>, cap: nat)
    requires IsLzfOf(code, data) && |data| <= cap
    ensures Decode(code, 0, [], cap) == Ok(data)
  {
    var ts :| Expand(ts) == Some(data) && Render(ts) == code;
    DecodeTokens(ts, code, cap);
  }

  /**
   The bytes of a token: 000LLLLL before a run of L + 1 literals; LLLooooo oooooooo for a copy of
   L + 2 bytes from o + 1 bytes back; 111ooooo LLLLLLLL oooooooo for a copy of L + 9 bytes.
   */
  lemma FormatOfTokens(t: Token, produced: nat)
    requires TokenOk(t, produced)
    ensures t.Literal? ==> RenderToken(t)[0] as int == |t.bytes| - 1 < 32 && RenderToken(t)[1..] == t.bytes
    ensures t.BackRef? && t.len <= 8 ==>
              var r := RenderToken(t); |r| == 2 && r[0] as int == 32 * (t.len - 2) + t.off / 256 && r[1] as int == t.off % 256
    ensures t.BackRef? && t.len >= 9 ==>
              var r := RenderToken(t); |r| == 3 && r[0] as int == 224 + t.off / 256 && r[1] as int == t.len - 9 && r[2] as int == t.off % 256
  {
  }

  /** Each pass of the decoder reads the bytes of one token, unless it stops with an error. */
  lemma StepReadsToken(code: seq<u8>, i: nat, out: seq<u8>, cap: nat) returns (t: Token)
    requires i < |code| && DecodeStep(code, i, out, cap).Next?
    ensures var Next(i', out') := DecodeStep(code, i, out, cap);
            TokenOk(t, |out|) && RenderToken(t) == code[i..i'] && Apply(t, out) == out'
  {
    hide CopyBack, ParseHeader, RenderToken;
    match ParseHeader(code, i)
    case Run(count) =>
      t := Literal(code[i + 1..i + 1 + count]);
      RunBytes(code, i);
    case Copy(next, count, dist) =>
      t := BackRef(dist - 1, count);
      CopyBytes(code, i);
  }

  lemma RunBytes(code: seq<u8>, i: nat)
    requires i < |code| && ParseHeader(code, i).Run?
    ensures var count := ParseHeader(code, i).count;
            count <= MAX_LIT && (i + 1 + count <= |code| ==> RenderToken(Literal(code[i + 1..i + 1 + count])) == code[i..i + 1 + count])
  {
  }

  lemma CopyBytes(code: seq<u8>, i: nat)
    requires i < |code| && ParseHeader(code, i).Copy?
    ensures var Copy(next, count, dist) := ParseHeader(code, i);
            dist <= MAX_OFF && 3 <= count <= MAX_REF && RenderToken(BackRef(dist - 1, count)) == code[i..next]
  {
    hide RenderToken, ParseHeader;
    var Copy(next, count, dist) := ParseHeader(code, i);
    HeaderIs(code, i);
    var ctrl, low: nat := code[i], code[next - 1];
    SplitsBack(ctrl, low);
    RenderedReference(dist - 1, count);
    if ctrl / 32 == 7 {
      assert code[i..next] == [code[i], code[i + 1], code[i + 2]];
    } else {
      assert code[i..next] == [code[i], code[i + 1]];
    }
  }

  lemma HeaderIs(code: seq<u8>, i: nat)
    requires i < |code| && ParseHeader(code, i).Copy?
    ensures var Copy(next, count, dist) := ParseHeader(code, i); var ctrl: nat, low: nat := code[i], code[next - 1];
            && ctrl >= 32 && dist == ctrl % 32 * 256 + low + 1
            && if ctrl / 32 == 7 then next == i + 3 && count == 9 + code[i + 1] as nat else next == i + 2 && count == ctrl / 32 + 2
  {
  }

  lemma SplitsBack(ctrl: nat, low: nat)
    requires ctrl < 256 && low < 256
    ensures var off := ctrl % 32 * 256 + low; off < MAX_OFF && Byte(off) as int == low && off / 256 == ctrl % 32
    ensures var off := ctrl % 32 * 256 + low; Byte(off / 256 + ctrl / 32 * 32) as int == ctrl && ctrl / 32 <= 7
  {
    var off := ctrl % 32 * 256 + low;
    assert off / 256 == ctrl % 32;
    assert ctrl == ctrl / 32 * 32 + ctrl % 32;
  }

  lemma RenderedReference(off: nat, len: nat)
    requires off < MAX_OFF && 3 <= len <= MAX_REF
    ensures RenderToken(BackRef(off, len))
            == if len < 9 then [Byte(off / 256 + (len - 2) * 32), Byte(off)] else [Byte(off / 256 + 7 * 32), Byte(len - 9), Byte(off)]
    ensures len >= 9 ==> Byte(len - 9) as int == len - 9
  {
  }

  lemma {:induction false} DecodedIsEncoding(code: seq<u8>, i: nat, ts: Tokens, out: seq<u8>, cap: nat)
    requires i <= |code| && Render(ts) == code[..i] && Expand(ts) == Some(out) && Decode(code, i, out, cap).Ok?
    ensures IsLzfOf(code, Decode(code, i, out, cap).out) && (|out| <= cap ==> |Decode(code, i, out, cap).out| <= cap)
    decreases |code| - i
  {
    hide Apply, DecodeStep, RenderToken, TokenOk;
    if i == |code| {
      assert code[..i] == code;
      RenderingEncodes(ts, code, out);
    } else {
      var t := StepReadsToken(code, i, out, cap);
      var Next(i', out') := DecodeStep(code, i, out, cap);
      assert code[..i'] == code[..i] + code[i..i'];
      DecodedIsEncoding(code, i', Snoc(ts, t), out', cap);
    }
  }

  /** The decoder accepts exactly the encodings of what fits, and returns what they encode. */
  lemma DecodesExactlyEncodings(code: seq<u8>, data: seq<u8>, cap: nat)
    ensures Decode(code, 0, [], cap) == Ok(data) <==> IsLzfOf(code, data) && |data| <= cap
  {
    hide IsLzfOf;
    if IsLzfOf(code, data) && |data| <= cap {
      DecodeInvertsEncoding(code, data, cap);
    }
    if Decode(code, 0, [], cap) == Ok(data) {
      DecodedIsEncoding(code, 0, Empty, [], cap);
    }
  }

  lemma {:induction false} OverflowStops(ts: Tokens, code: seq<u8>, cap: nat)
    requires Expand(ts).Some? && |Expand(ts).value| > cap
    requires |Render(ts)| <= |code| && code[..|Render(ts)|] == Render(ts)
    ensures Decode(code, 0, [], cap) == Err(E2BIG)
  {
    match ts
    case Empty =>
    case Snoc(before, t) =>
      var out, k, r := Expand(before).value, |Render(before)|, RenderToken(t);
      assert code[..k] == code[..|Render(ts)|][..k] == Render(before);
      if |out| > cap {
        OverflowStops(before, code, cap);
      } else {
        DecodeTokens(before, code, cap);
        assert code[k..k + |r|] == code[..|Render(ts)|][k..] == r;
        OverflowingToken(t, code, k, out, cap);
      }
  }

  lemma OverflowingToken(t: Token, code: seq<u8>, i: nat, out: seq<u8>, cap: nat)
    requires TokenOk(t, |out|) && |out| <= cap < |Apply(t, out)|
    requires var r := RenderToken(t); 0 < |r| && i + |r| <= |code| && code[i..i + |r|] == r
    ensures DecodeStep(code, i, out, cap) == Stop(E2BIG)
  {
    hide ParseHeader, RenderToken;
    HeaderOfToken(t, |out|, code, i);
  }

  /** An encoding of more than fits is E2BIG, which lets the caller try again with more room. */
  lemma TooLittleRoom(code: seq<u8>, data: seq<u8>, cap: nat)
    requires IsLzfOf(code, data) && |data| > cap
    ensures Decode(code, 0, [], cap) == Err(E2BIG)
  {
    var ts :| Expand(ts) == Some(data) && Render(ts) == code;
    OverflowStops(ts, code, cap);
  }

  // ------------------------------------------------------------------
  // lzf_decompress
  // ------------------------------------------------------------------

  /** The unchecked copy at the end of a back reference: byte by byte out of its own output. */
  method CopyReference(output: array<u8>, op0: nat, dist: nat, n: nat) returns (op: nat)
    requires 1 <= dist <= op0 && op0 + n <= output.Length
    modifies output
    ensures op == op0 + n
    ensures output[..op] == CopyBack(old(output[..op0]), dist, n)
  {
    op := op0;
    var ref := op - dist;
    var k := 0;
    ghost var out := output[..op0];
    while k < n
      invariant 0 <= k <= n && op == op0 + k && ref == op - dist
      invariant output[..op] == CopyBack(out, dist, k)
    {
      output[op] := output[ref];
      assert output[..op + 1] == output[..op] + [output[..op][ref]];
      op, ref, k := op + 1, ref + 1, k + 1;
    }
  }

  /** The literal run: `count` bytes straight from the input. */
  method CopyLiterals(input: array<u8>, ip0: nat, output: array<u8>, op0: nat, count: nat) returns (ip: nat, op: nat)
    requires input != output
    requires ip0 + count <= input.Length && op0 + count <= output.Length
    modifies output
    ensures ip == ip0 + count && op == op0 + count
    ensures output[..op] == old(output[..op0]) + input[ip0..ip]
  {
    ip, op := ip0, op0;
    var left := count;
    while left > 0
      invariant 0 <= left <= count && ip == ip0 + (count - left) && op == op0 + (count - left)
      invariant output[..op] == old(output[..op0]) + input[ip0..ip]
    {
      output[op] := input[ip];
      op, ip, left := op + 1, ip + 1, left - 1;
    }
  }

  /** One pass of the loop body. */
  method DecompressStep(input: array<u8>, ip0: nat, output: array<u8>, op0: nat)
    returns (ip: nat, op: nat, errno: Option<Errno>)
    requires input != output && ip0 < input.Length && op0 <= output.Length
    modifies output
    ensures op <= output.Length
    ensures match DecodeStep(input[..], ip0, old(output[..op0]), output.Length)
            case Stop(e) => errno == Some(e)
            case Next(i, out) => errno == None && ip == i && op == |out| && output[..op] == out
  {
    hide CopyBack;
    ip, op := ip0 + 1, op0;
    var ctrl: nat := input[ip0];
    if ctrl < 32 {
      var count := ctrl + 1;
      if op + count > output.Length {
        return ip, op, Some(E2BIG);
      }
      if ip + count > input.Length {
        return ip, op, Some(EINVAL);
      }
      assert input[..][ip..ip + count] == input[ip..ip + count];
      ip, op := CopyLiterals(input, ip, output, op, count);
    } else {
      var len := ctrl / 32;
      var back := ctrl % 32 * 256 + 1;
      if ip >= input.Length {
        return ip, op, Some(EINVAL);
      }
      if len == 7 {
        len := len + input[ip] as nat;
        ip := ip + 1;
        if ip >= input.Length {
          return ip, op, Some(EINVAL);
        }
      }
      back := back + input[ip] as nat;
      ip := ip + 1;
      if op + len + 2 > output.Length {
        return ip, op, Some(E2BIG);
      }
      if back > op {
        return ip, op, Some(EINVAL);
      }
      op := CopyReference(output, op, back, len + 2);
    }
    errno := None;
  }

  method Decompress(input: array<u8>, output: array<u8>) returns (n: nat, errno: Option<Errno>)
    requires input.Length > 0 && input != output
    modifies output
    ensures match Decode(input[..], 0, [], output.Length)
            case Ok(out) => n == |out| && n <= output.Length && output[..n] == out && errno == None
            case Err(e) => n == 0 && errno == Some(e)
  {
    var ip: nat, op: nat := 0, 0;
    // the input is not empty, so testing before the first pass is the same as testing after it
    while ip < input.Length
      invariant ip <= input.Length && op <= output.Length
      invariant Decode(input[..], 0, [], output.Length) == Decode(input[..], ip, output[..op], output.Length)
      decreases input.Length - ip
    {
      ip, op, errno := DecompressStep(input, ip, output, op);
      if errno.Some? {
        return 0, errno;
      }
    }
    return op, None;
  }

  // ------------------------------------------------------------------
  // lzf_compress
  // ------------------------------------------------------------------

  function First(a: u8, b: u8): nat {
    a * 256 + b
  }

  /** `(v << 8) | p[2]` in 32-bit arithmetic. */
  function NextHash(v: nat, b: u8): nat {
    (v * 256) % 0x1_0000_0000 + b
  }

  /** `((h >> 8) - h * 5) & (HSIZE - 1)`. */
  function Slot(h: nat): (i: nat)
    ensures i < HSIZE
  {
    (h / 256 - h * 5) % HSIZE
  }

  ghost predicate Match(data: seq<u8>, ref: nat, ip: nat, n: nat)
    requires ref <= ip && ip + n <= |data|
  {
    forall k :: ip <= k < ip + n ==> data[k] == data[k - (ip - ref)]
  }

  /** A copy from earlier data reproduces data that matches it, even where the two overlap. */
  lemma {:induction false} CopyBackOfMatch(data: seq<u8>, ref: nat, ip: nat, n: nat)
    requires ref < ip && ip + n <= |data| && Match(data, ref, ip, n)
    ensures CopyBack(data[..ip], ip - ref, n) == data[..ip + n]
  {
    if n > 0 {
      CopyBackOfMatch(data, ref, ip, n - 1);
      assert data[..ip + n] == data[..ip + n - 1] + [data[ip + n - 1]];
    }
  }

  /**
   The state between two bytes of input: everything before the open literal run is rendered
   tokens, then comes the byte reserved for the length of the run, then the run itself.
   The last clause bounds how much longer than the input the output may have become.
   */
  ghost predicate Encoding(ts: Tokens, data: seq<u8>, ip: nat, out: seq<u8>, op: nat, lit: nat) {
    && lit <= ip <= |data| && lit < op <= |out|
    && Expand(ts) == Some(data[..ip - lit])
    && Render(ts) == out[..op - lit - 1]
    && out[op - lit..op] == data[ip - lit..ip]
    && 32 * (op - lit - 1) <= 33 * (ip - lit)
  }

  function CloseRun(ts: Tokens, run: seq<u8>): Tokens {
    if run == [] then ts else Snoc(ts, Literal(run))
  }

  lemma ClosedTokens(ts: Tokens, run: seq<u8>)
    requires Expand(ts).Some? && |run| <= MAX_LIT
    ensures Expand(CloseRun(ts, run)) == Some(Expand(ts).value + run)
    ensures Render(CloseRun(ts, run)) == Render(ts) + if run == [] then [] else [Byte(|run| - 1)] + run
  {
    if run == [] {
      assert Expand(ts).value + run == Expand(ts).value && Render(ts) + [] == Render(ts);
    }
  }

  /** Filling the reserved byte completes the run behind it and leaves the code before it alone. */
  lemma PatchedRun(before: seq<u8>, run: seq<u8>, out: seq<u8>, op: nat, closed: seq<u8>)
    requires |run| < op <= |out| && before == out[..op - |run| - 1] && run == out[op - |run|..op]
    requires closed == out[op - |run| - 1 := Byte(|run| - 1)]
    ensures closed[..op - |run| - 1] == before
    ensures closed[..op] == before + ([Byte(|run| - 1)] + run)
  {
  }

  /** Writing the length in front of the open run turns it into a token; an empty run leaves none. */
  lemma ClosedRun(ts: Tokens, data: seq<u8>, ip: nat, out: seq<u8>, op: nat, lit: nat, closed: seq<u8>)
    requires Encoding(ts, data, ip, out, op, lit) && lit <= MAX_LIT
    requires closed == out[op - lit - 1 := Byte(lit - 1)]
    ensures Expand(CloseRun(ts, data[ip - lit..ip])) == Some(data[..ip])
    ensures Render(CloseRun(ts, data[ip - lit..ip])) == closed[..if lit == 0 then op - 1 else op]
  {
    hide Expand, Render;
    var run := data[ip - lit..ip];
    ClosedTokens(ts, run);
    PatchedRun(Render(ts), run, out, op, closed);
    assert data[..ip - lit] + run == data[..ip];
  }

  /** `*(u16 *)ref == *(u16 *)ip && ref[2] == ip[2]`. */
  predicate ThreeBytesAgree(input: array<u8>, ref: nat, ip: nat)
    requires ref + 2 < input.Length && ip + 2 < input.Length
    reads input
  {
    input[ref] == input[ip] && input[ref + 1] == input[ip + 1] && input[ref + 2] == input[ip + 2]
  }

  /**
   Length of the match between `ref` and `ip`, whose first three bytes are known to agree:
   a block of sixteen comparisons when there is room for it, then one byte at a time.
   It is the longest match, except that it may stop once `maxlen` is reached.
   */
  method MatchLength(input: array<u8>, ref: nat, ip: nat, maxlen: nat) returns (len: nat)
    requires ref < ip && ip + 4 < input.Length
    requires maxlen == Min(input.Length - ip - 2, MAX_REF)
    requires ThreeBytesAgree(input, ref, ip)
    ensures 3 <= len <= MAX_REF && ip + len <= input.Length
    ensures Match(input[..], ref, ip, len)
    ensures len < maxlen ==> input[ref + len] != input[ip + len]
  {
    len := 2;
    if maxlen > 16 {
      var step := 0;
      while step < 16
        invariant 0 <= step <= 16 && len == 2 + step
        invariant Match(input[..], ref, ip, len + 1)
      {
        len, step := len + 1, step + 1;
        if input[ref + len] != input[ip + len] {
          return;
        }
      }
    }
    len := len + 1;
    while len < maxlen && input[ref + len] == input[ip + len]
      invariant 3 <= len <= MAX_REF && ip + len <= input.Length
      invariant Match(input[..], ref, ip, len)
    {
      len := len + 1;
    }
  }

  /** The two or three bytes of a back reference; `len` is the total length minus two, as in the code. */
  method EmitReference(output: array<u8>, op0: nat, off: nat, len: nat) returns (op: nat)
    requires off < MAX_OFF && 1 <= len <= MAX_REF - 2 && op0 + 3 <= output.Length
    modifies output
    ensures op <= op0 + 3 && (len < 7 ==> op == op0 + 2)
    ensures output[..op] == old(output[..op0]) + RenderToken(BackRef(off, len + 2))
    ensures output[op..] == old(output[op..])
  {
    op := op0;
    if len < 7 {
      output[op] := Byte(off / 256 + len * 32);
      op := op + 1;
    } else {
      output[op] := Byte(off / 256 + 7 * 32);
      op := op + 1;
      output[op] := Byte(len - 7);
      op := op + 1;
    }
    output[op] := Byte(off);
    op := op + 1;
  }

  /** `op[-lit-1] = lit - 1; op -= !lit;`: ends the open run and gives back the byte of an empty one. */
  method StopRun(ghost ts: Tokens, input: array<u8>, ip: nat, output: array<u8>, op0: nat, lit: nat)
    returns (op: nat, ghost ts': Tokens)
    requires input != output && Encoding(ts, input[..], ip, output[..], op0, lit) && lit <= MAX_LIT
    modifies output
    ensures op == (if lit == 0 then op0 - 1 else op0)
    ensures Expand(ts') == Some(input[..ip]) && Render(ts') == output[..op]
    ensures 32 * op < 33 * ip + 32
  {
    hide Expand, Render;
    ghost var out := output[..];
    output[op0 - lit - 1] := Byte(lit - 1);
    ClosedRun(ts, input[..], ip, out, op0, lit, output[..]);
    ts' := CloseRun(ts, input[..][ip - lit..ip]);
    assert input[..][..ip] == input[..ip];
    op := if lit == 0 then op0 - 1 else op0;
  }

  lemma LongerRun(ts: Tokens, data: seq<u8>, ip: nat, out: seq<u8>, op: nat, lit: nat, out': seq<u8>)
    requires Encoding(ts, data, ip, out, op, lit) && ip < |data| && op < |out|
    requires out' == out[op := data[ip]]
    ensures Encoding(ts, data, ip + 1, out', op + 1, lit + 1)
  {
    assert out'[op - lit..op + 1] == out[op - lit..op] + [data[ip]];
    assert data[ip - lit..ip + 1] == data[ip - lit..ip] + [data[ip]];
    assert out'[..op - lit - 1] == out[..op - lit - 1];
  }

  /** One more literal byte, closing the run when it is full. */
  method PushLiteral(ghost ts: Tokens, input: array<u8>, ip: nat, output: array<u8>, op0: nat, lit0: nat)
    returns (op: nat, lit: nat, ghost ts': Tokens)
    requires input != output && Encoding(ts, input[..], ip, output[..], op0, lit0)
    requires lit0 < MAX_LIT && ip < input.Length && op0 < output.Length
    requires lit0 + 1 == MAX_LIT ==> op0 + 1 < output.Length
    modifies output
    ensures Encoding(ts', input[..], ip + 1, output[..], op, lit) && lit < MAX_LIT
    ensures if lit0 + 1 == MAX_LIT then op == op0 + 2 && lit == 0 else op == op0 + 1 && lit == lit0 + 1
  {
    hide Expand, Render;
    lit := lit0 + 1;
    ghost var out := output[..];
    output[op0] := input[ip];
    op := op0 + 1;
    ts' := ts;
    LongerRun(ts, input[..], ip, out, op0, lit0, output[..]);
    if lit == MAX_LIT {
      op, ts' := StopRun(ts, input, ip + 1, output, op, lit);
      assert output[..][..op] == output[..op] && input[..][..ip + 1] == input[..ip + 1];
      lit, op := 0, op + 1;
    }
  }

  lemma AppendedReference(ts: Tokens, data: seq<u8>, ref: nat, ip: nat, len: nat, before: seq<u8>, out: seq<u8>, op: nat)
    requires ref < ip && ip + len <= |data| && ip - ref - 1 < MAX_OFF && 3 <= len <= MAX_REF
    requires Match(data, ref, ip, len)
    requires Expand(ts) == Some(data[..ip]) && Render(ts) == before && 32 * |before| < 33 * ip + 32
    requires op < |out| && out[..op] == before + RenderToken(BackRef(ip - ref - 1, len))
    ensures Encoding(Snoc(ts, BackRef(ip - ref - 1, len)), data, ip + len, out, op + 1, 0)
  {
    CopyBackOfMatch(data, ref, ip, len);
  }

  /** The output is never more than a 32nd longer than the input, so it runs out only when it is small. */
  lemma NoRoom(ts: Tokens, data: seq<u8>, ip: nat, out: seq<u8>, op: nat, lit: nat, room: int)
    requires Encoding(ts, data, ip, out, op, lit) && lit < MAX_LIT && room <= op
    ensures 32 * room <= 33 * ip + 32
  {
  }

  /** Writes one back reference, as long as the data matches, behind complete tokens. */
  method WriteMatch(ghost ts: Tokens, input: array<u8>, ref: nat, ip0: nat, output: array<u8>, op0: nat)
    returns (ip: nat, op: nat, ghost ts': Tokens)
    requires input != output && ref < ip0 && ip0 - ref - 1 < MAX_OFF && ip0 + 4 < input.Length && ThreeBytesAgree(input, ref, ip0)
    requires Expand(ts) == Some(input[..ip0]) && 32 * op0 < 33 * ip0 + 32
    requires op0 + 4 <= output.Length && Render(ts) == output[..op0]
    modifies output
    ensures ip0 + 3 <= ip <= input.Length && op <= op0 + 4 && Encoding(ts', input[..], ip, output[..], op, 0)
    ensures ip - ip0 < Min(input.Length - ip0 - 2, 264) ==> input[ref + (ip - ip0)] != input[ip]
  {
    hide Expand, Render, Match, ThreeBytesAgree, Encoding;
    ghost var data, out := input[..], output[..op0];
    var off := ip0 - ref - 1;
    var len := MatchLength(input, ref, ip0, Min(input.Length - ip0 - 2, MAX_REF));
    assert data[..ip0] == input[..ip0];
    op := EmitReference(output, op0, off, len - 2);
    AppendedReference(ts, data, ref, ip0, len, out, output[..], op);
    ts' := Snoc(ts, BackRef(off, len));
    ip, op := ip0 + len, op + 1;
  }

  /** The match branch: ends the run, then writes one back reference and opens the next run. */
  method PushMatch(ghost ts: Tokens, input: array<u8>, ref: nat, ip0: nat, output: array<u8>, op0: nat, lit: nat, outLen: nat)
    returns (fits: bool, ip: nat, op: nat, ghost ts': Tokens)
    requires input != output && Encoding(ts, input[..], ip0, output[..], op0, lit)
    requires lit < MAX_LIT && outLen < output.Length
    requires 1 <= ref < ip0 && ip0 - ref - 1 < MAX_OFF && ip0 + 4 < input.Length && ThreeBytesAgree(input, ref, ip0)
    modifies output
    ensures !fits ==> 32 * outLen <= 33 * input.Length + 96
    ensures fits ==> ip0 + 3 <= ip <= input.Length && op <= outLen && Encoding(ts', input[..], ip, output[..], op, 0)
    ensures if fits then op <= op0 + 4 && (ip - ip0 < Min(input.Length - ip0 - 2, 264) ==> input[ref + (ip - ip0)] != input[ip])
            else op0 + 4 >= outLen
  {
    hide Expand, Render, ThreeBytesAgree, Encoding;
    ghost var data, out0 := input[..], output[..];
    op, ts' := StopRun(ts, input, ip0, output, op0, lit);
    if op + 3 + 1 >= outLen {
      NoRoom(ts, data, ip0, out0, op0, lit, outLen - 4);
      return false, ip0, op, ts';
    }
    fits := true;
    ip, op, ts' := WriteMatch(ts', input, ref, ip0, output, op);
  }

  /** A hash holds the last bytes that went in, and selects its slot by the last three. */
  lemma HashHolds(v: nat, b: u8)
    ensures NextHash(v, b) % 0x100_0000 == v % 65536 * 256 + b
  {
    var q, r := v / 0x100_0000, v % 0x100_0000;
    assert v * 256 == r * 256 + 0x1_0000_0000 * q;
    Wraps(r * 256, q);
    assert v % 65536 == r % 65536 by {
      assert v == r + 65536 * (256 * q);
      SameRest(r, 256 * q);
    }
    assert r * 256 == r % 65536 * 256 + 0x100_0000 * (r / 65536);
  }

  lemma Wraps(a: nat, c: nat)
    requires a < 0x1_0000_0000
    ensures (a + 0x1_0000_0000 * c) % 0x1_0000_0000 == a
  {
  }

  lemma HashHoldsTwo(x: u8, y: u8, z: u8)
    ensures (First(x, y) * 256 + z) % 65536 == First(y, z) && First(x, y) % 65536 == First(x, y)
  {
  }

  lemma TwoOfThree(h: nat)
    ensures h % 65536 == h % 0x100_0000 % 65536
  {
    var q, r := h / 0x100_0000, h % 0x100_0000;
    assert h == r + 65536 * (256 * q);
    SameRest(r, 256 * q);
  }

  lemma SlotOfThree(h: nat, h': nat)
    requires h % 0x100_0000 == h' % 0x100_0000
    ensures Slot(h) == Slot(h')
  {
    SlotOfRest(h);
    SlotOfRest(h');
  }

  lemma SlotOfRest(h: nat)
    ensures Slot(h) == Slot(h % 0x100_0000)
  {
    var q, r := h / 0x100_0000, h % 0x100_0000;
    assert h == q * 0x100_0000 + r;
    assert h / 256 == q * 65536 + r / 256;
    assert h / 256 - h * 5 == (r / 256 - r * 5) + 65536 * (q - q * 1280);
    SameRest(r / 256 - r * 5, q - q * 1280);
  }

  lemma SameRest(a: int, c: int)
    ensures (a + 65536 * c) % 65536 == a % 65536
  {
  }

  /** `hval = NEXT (hval, ip); htab[IDX (hval)] = ip`, returning the address it replaces. */
  method Remember(htab: array<u64>, hval0: nat, b: u8, addr: u64) returns (hval: nat, previous: u64)
    requires htab.Length == HSIZE
    modifies htab
    ensures hval == NextHash(hval0, b)
    ensures previous == old(htab[Slot(hval)])
    ensures htab[..] == old(htab[..])[Slot(hval) := addr]
  {
    hval := NextHash(hval0, b);
    previous := htab[Slot(hval)];
    htab[Slot(hval)] := addr;
  }

  /** After a match, the positions of its last two bytes are entered into the table. */
  method Reseed(input: array<u8>, ip: nat, htab: array<u64>, base: nat) returns (hval: nat)
    requires 2 <= ip && ip + 1 < input.Length && base + ip < TWO_64
    requires htab.Length == HSIZE && (htab as object) != input
    modifies htab
    ensures var h1 := NextHash(First(input[ip - 2], input[ip - 1]), input[ip]);
            && hval == NextHash(h1, input[ip + 1])
            && htab[..] == old(htab[..])[Slot(h1) := base + ip - 2][Slot(hval) := base + ip - 1]
    ensures hval % 0x100_0000 == First(input[ip - 1], input[ip]) * 256 + input[ip + 1] && htab[Slot(hval)] == base + ip - 1
  {
    hide First, NextHash, Slot;
    var previous;
    HashHolds(First(input[ip - 2], input[ip - 1]), input[ip]);
    HashHolds(NextHash(First(input[ip - 2], input[ip - 1]), input[ip]), input[ip + 1]);
    HashHoldsTwo(input[ip - 2], input[ip - 1], input[ip]);
    TwoOfThree(NextHash(First(input[ip - 2], input[ip - 1]), input[ip]));
    hval := First(input[ip - 2], input[ip - 1]);
    hval, previous := Remember(htab, hval, input[ip], base + ip - 2);
    hval, previous := Remember(htab, hval, input[ip + 1], base + ip - 1);
  }

  /**
   Whether the address read from the table may be used as a match for `ip`. The distance is
   computed with unsigned wrap-around, so an address beyond `ip` must not slip through.
   */
  method Usable(input: array<u8>, base: nat, ip: nat, addr: u64) returns (hit: bool)
    requires MAX_OFF <= base && base + input.Length <= TWO_64 && ip + 2 < input.Length
    ensures hit <==> base < addr < base + ip && base + ip - addr - 1 < MAX_OFF && ip + 4 < input.Length
                     && ThreeBytesAgree(input, addr - base, ip)
  {
    var off := (base + ip - addr - 1) % TWO_64;
    hit := off < MAX_OFF && ip + 4 < input.Length && addr > base && ThreeBytesAgree(input, addr - base, ip);
  }

  lemma ThreeBytesAre(input: array<u8>, ref: nat, ip: nat)
    requires ref + 2 < input.Length && ip + 2 < input.Length
    ensures ThreeBytesAgree(input, ref, ip) <==> input[ref..ref + 3] == input[ip..ip + 3]
  {
    var a, b := input[ref..ref + 3], input[ip..ip + 3];
    assert a[0] == input[ref] && a[1] == input[ref + 1] && a[2] == input[ref + 2];
    assert b[0] == input[ip] && b[1] == input[ip + 1] && b[2] == input[ip + 2];
  }

  /** One pass of the main loop: a match or one literal byte; `ok` is false when the output is full. */
  method CompressStep(ghost ts0: Tokens, input: array<u8>, ip0: nat, output: array<u8>, op0: nat, lit0: nat,
                      outLen: nat, htab: array<u64>, hval0: nat, base: nat)
    returns (ok: bool, ip: nat, op: nat, lit: nat, hval: nat, ghost ts: Tokens)
    requires input != output && outLen < output.Length
    requires Encoding(ts0, input[..], ip0, output[..], op0, lit0) && lit0 < MAX_LIT && ip0 + 2 < input.Length
    requires htab.Length == HSIZE && (htab as object) !in {output as object, input as object}
    requires MAX_OFF <= base && base + input.Length <= TWO_64
    modifies output, htab
    ensures ok ==> Encoding(ts, input[..], ip, output[..], op, lit) && lit < MAX_LIT && ip0 < ip <= input.Length
    ensures ok ==> op <= outLen + 1
    ensures !ok ==> 32 * outLen <= 33 * input.Length + 96 && op0 + 4 >= outLen
    ensures ok ==> op <= op0 + 4 && (ip == ip0 + 1 ==> op <= op0 + 2 && (lit0 < 31 ==> op == op0 + 1 && lit == lit0 + 1))
    ensures ok && hval0 % 65536 == First(input[ip0], input[ip0 + 1]) && ip + 2 < input.Length ==>
              hval % 0x100_0000 == First(input[ip - 1], input[ip]) * 256 + input[ip + 1] && htab[Slot(hval)] == base + ip - 1
    ensures var addr := old(htab[Slot(NextHash(hval0, input[ip0 + 2]))]);
            ok ==> if base < addr < base + ip0 && base + ip0 - addr <= 8192 && ip0 + 4 < input.Length
                      && input[addr - base..addr - base + 3] == input[ip0..ip0 + 3]
                   then ip >= ip0 + 3 && (ip - ip0 < Min(input.Length - ip0 - 2, 264) ==> input[addr - base + (ip - ip0)] != input[ip])
                   else ip == ip0 + 1
  {
    hide Expand, Render, First, NextHash, Slot, Encoding;
    var addr, hit;
    ts, op, lit, ip := ts0, op0, lit0, ip0;
    hval, addr := Remember(htab, hval0, input[ip + 2], base + ip);
    HashHolds(hval0, input[ip + 2]);
    hit := Usable(input, base, ip, addr);
    if base < addr < base + ip && ip + 4 < input.Length {
      ThreeBytesAre(input, addr - base, ip);
    }
    if hit {
      ok, ip, op, ts := PushMatch(ts, input, addr - base, ip, output, op, lit, outLen);
      lit := 0;
      if ok && ip + 2 < input.Length {
        hval := Reseed(input, ip, htab, base);
      }
    } else if op >= outLen {
      NoRoom(ts, input[..], ip, output[..], op, lit, outLen);
      ok := false;
    } else {
      op, lit, ts := PushLiteral(ts, input, ip, output, op, lit);
      ok, ip := true, ip + 1;
    }
  }

  predicate AllEqual(s: seq<u8>) {
    forall k :: 0 <= k < |s| ==> s[k] == s[0]
  }

  /** How much output a run of `n` equal bytes may have taken when `ip` of them are done. */
  predicate Frugal(n: nat, ip: nat, op: nat) {
    if ip < 2 then op == ip + 1
    else 66 * op <= 196 + ip + if ip + 4 < n then 0 else if ip + 2 < n then 132 * (ip + 4 - n) else 264
  }

  /** A hash value as the main loop keeps it: of the last bytes, the place before `ip` being the last one entered under it. */
  predicate Hashed(input: array<u8>, ip: nat, hval: nat, htab: array<u64>, base: nat)
    requires htab.Length == HSIZE
    reads input, htab
  {
    ip + 2 < input.Length ==>
      && hval % 65536 == First(input[ip], input[ip + 1])
      && (ip > 0 ==> hval % 0x100_0000 == First(input[ip - 1], input[ip]) * 256 + input[ip + 1] && htab[Slot(hval)] == base + ip - 1)
  }

  lemma StaysHashed(input: array<u8>, ip: nat, hval: nat, htab: array<u64>, base: nat)
    requires htab.Length == HSIZE && ip > 0
    requires ip + 2 < input.Length ==>
               hval % 0x100_0000 == First(input[ip - 1], input[ip]) * 256 + input[ip + 1] && htab[Slot(hval)] == base + ip - 1
    ensures Hashed(input, ip, hval, htab, base)
  {
    hide Slot, First;
    if ip + 2 < input.Length {
      TwoOfThree(hval);
      HashHoldsTwo(input[ip - 1], input[ip], input[ip + 1]);
    }
  }

  /** In a run of equal bytes the candidate is the place just before. */
  lemma CandidateInRun(input: array<u8>, ip: nat, hval: nat, htab: array<u64>, base: nat)
    requires htab.Length == HSIZE && Hashed(input, ip, hval, htab, base) && 0 < ip && ip + 2 < input.Length && AllEqual(input[..])
    ensures htab[Slot(NextHash(hval, input[ip + 2]))] == base + ip - 1
    ensures input[ip - 1..ip + 2] == input[ip..ip + 3]
  {
    hide Slot, First, NextHash;
    var s := input[..];
    assert forall k :: 0 <= k < |s| ==> input[k] == s[k] == s[0];
    HashHolds(hval, input[ip + 2]);
    SlotOfThree(hval, NextHash(hval, input[ip + 2]));
  }

  lemma HashedNow(input: array<u8>, ip: nat, hval: nat, htab: array<u64>, base: nat)
    requires htab.Length == HSIZE && Hashed(input, ip, hval, htab, base)
    ensures ip + 2 < input.Length ==> hval % 65536 == First(input[ip], input[ip + 1])
  {
  }

  lemma AllEqualAt(input: array<u8>)
    requires AllEqual(input[..])
    ensures forall i, j :: 0 <= i < input.Length && 0 <= j < input.Length ==> input[i] == input[j]
  {
    var s := input[..];
    assert forall k :: 0 <= k < |s| ==> input[k] == s[k] == s[0];
  }

  lemma RoomInRun(n: nat, ip: nat, op: nat, outLen: nat)
    requires n > 20 && ip + 2 < n && Frugal(n, ip, op) && outLen >= n - 4
    ensures op + 4 < outLen
  {
  }

  lemma RunStep(n: nat, ip0: nat, op0: nat, ip: nat, op: nat)
    requires n > 20 && ip0 + 2 < n && Frugal(n, ip0, op0)
    requires ip0 < 2 ==> ip == ip0 + 1 && op == op0 + 1
    requires 2 <= ip0 && ip0 + 4 < n ==> op <= op0 + 4 && ip - ip0 >= Min(n - ip0 - 2, 264)
    requires ip0 + 4 >= n ==> ip == ip0 + 1 && op <= op0 + 2
    ensures Frugal(n, ip, op)
  {
  }

  /** The main loop, up to the last two bytes of input. */
  method CompressBody(input: array<u8>, output: array<u8>, outLen: nat, htab: array<u64>, base: nat)
    returns (ok: bool, ip: nat, op: nat, lit: nat, ghost ts: Tokens)
    requires input != output && input.Length >= 2
    requires 1 <= outLen < output.Length
    requires htab.Length == HSIZE && (htab as object) !in {output as object, input as object}
    requires MAX_OFF <= base && base + input.Length <= TWO_64
    modifies output, htab
    ensures ok ==> Encoding(ts, input[..], ip, output[..], op, lit) && lit < MAX_LIT && ip >= input.Length - 2
    ensures !ok ==> 32 * outLen <= 33 * input.Length + 96
    ensures AllEqual(input[..]) && input.Length > 20 && outLen >= input.Length - 4 ==> ok && Frugal(input.Length, ip, op)
  {
    ok, ip, op, lit, ts := true, 0, 1, 0, Empty;
    assert Encoding(ts, input[..], ip, output[..], op, lit);
    var hval := First(input[0], input[1]);
    HashHoldsTwo(input[0], input[1], input[1]);
    assert Hashed(input, ip, hval, htab, base);
    hide Expand, Render, Encoding, Hashed, Slot, NextHash, First;
    ghost var run := AllEqual(input[..]) && input.Length > 20 && outLen >= input.Length - 4;
    while ok && ip < input.Length - 2
      invariant ok ==> Hashed(input, ip, hval, htab, base)
      invariant run ==> ok && Frugal(input.Length, ip, op) && (ip < 2 ==> lit == ip)
      invariant ok ==> Encoding(ts, input[..], ip, output[..], op, lit) && lit < MAX_LIT && ip <= input.Length
      invariant !ok ==> 32 * outLen <= 33 * input.Length + 96
      decreases ok, input.Length - ip
    {
      ghost var ip0, op0 := ip, op;
      HashedNow(input, ip, hval, htab, base);
      if run {
        RoomInRun(input.Length, ip, op, outLen);
        if ip > 0 {
          CandidateInRun(input, ip, hval, htab, base);
        }
      }
      ok, ip, op, lit, hval, ts := CompressStep(ts, input, ip, output, op, lit, outLen, htab, hval, base);
      if ok {
        StaysHashed(input, ip, hval, htab, base);
      }
      if run {
        AllEqualAt(input);
        RunStep(input.Length, ip0, op0, ip, op);
      }
    }
  }

  /** The last bytes, then the end of the run; at most three bytes of output are still needed. */
  method CompressTail(input: array<u8>, ip0: nat, output: array<u8>, op0: nat, lit0: nat, ghost ts0: Tokens)
    returns (op: nat)
    requires input != output && Encoding(ts0, input[..], ip0, output[..], op0, lit0) && lit0 < MAX_LIT
    requires input.Length > 0 && ip0 + 2 >= input.Length && op0 + 3 <= output.Length
    modifies output
    ensures 0 < op <= op0 + 3 && op <= output.Length
    ensures IsLzfOf(output[..op], input[..])
  {
    hide Expand, Render;
    var ip: nat, lit: nat := ip0, lit0;
    op := op0;
    ghost var ts := ts0;
    while ip < input.Length
      invariant ip0 <= ip && Encoding(ts, input[..], ip, output[..], op, lit) && lit < MAX_LIT
      invariant || (op == op0 + (ip - ip0) && lit == lit0 + (ip - ip0))
                || (op == op0 + (ip - ip0) + 1 && lit < ip - ip0)
    {
      op, lit, ts := PushLiteral(ts, input, ip, output, op, lit);
      ip := ip + 1;
    }
    op, ts := StopRun(ts, input, ip, output, op, lit);
    assert input[..ip] == input[..];
    RenderingEncodes(ts, output[..op], input[..]);
  }

  /**
   `base` is the address of the input, and `htab` holds whatever addresses were on the stack.
   The output buffer has one byte more than `outLen`, as its callers allocate it. A run of equal bytes
   shrinks to about a 66th, whatever the table held.
   */
  method Compress(input: array<u8>, output: array<u8>, outLen: nat, htab: array<u64>, base: nat) returns (n: nat)
    requires input != output && input.Length != 1
    requires outLen + 1 <= output.Length
    requires htab.Length == HSIZE && (htab as object) !in {output as object, input as object}
    requires MAX_OFF <= base && base + input.Length <= TWO_64
    modifies output, htab
    ensures n <= outLen
    ensures n > 0 ==> IsLzfOf(output[..n], input[..])
    ensures n == 0 ==> input.Length == 0 || 32 * outLen <= 33 * input.Length + 96
    ensures AllEqual(input[..]) && input.Length > 20 && outLen >= input.Length - 4 ==> 0 < n && 66 * n <= input.Length + 658
  {
    if input.Length == 0 || outLen == 0 {
      return 0;
    }
    var ok, ip: nat, op: nat, lit: nat;
    ghost var ts;
    ok, ip, op, lit, ts := CompressBody(input, output, outLen, htab, base);
    if !ok || op + 3 > outLen {
      return 0;
    }
    n := CompressTail(input, ip, output, op, lit, ts);
  }

  /** What the codec is for: compressing into a buffer and decompressing from it gives the input back. */
  method RoundTrip(input: array<u8>, outLen: nat, htab: array<u64>, base: nat) returns (n: nat, m: nat, back: array<u8>)
    requires input.Length != 1
    requires htab.Length == HSIZE && (htab as object) != input
    requires MAX_OFF <= base && base + input.Length <= TWO_64
    modifies htab
    ensures n <= outLen && input[..] == old(input[..])
    ensures n > 0 ==> m == input.Length == back.Length && back[..] == input[..]
  {
    var output := new u8[outLen + 1](_ => 0);
    back := new u8[input.Length](_ => 0);
    m := 0;
    n := Compress(input, output, outLen, htab, base);
    if n > 0 {
      var code := new u8[n](i requires 0 <= i < n <= output.Length reads output => output[i]);
      assert code[..] == output[..n];
      DecodeInvertsEncoding(code[..], input[..], back.Length);
      var errno;
      m, errno := Decompress(code, back);
      assert back[..] == back[..m];
    }
  }
}
