/**
 The request parser of networking.c. `Run` says what the bytes of a query buffer mean, one token at
 a time, and `Process` adds the limits on lines that have not ended, which look at the whole buffer.
 The client class parses in place, with a cursor and a buffer it trims, and is proved to compute
 `Process`. `Run` can be interrupted anywhere; so what a client comes to does not depend on how the
 network cuts the byte stream exactly when no cut lets a limit fire.
 */
module Requests {
  import opened Bytes
  import opened Decimal

  type Text = seq<u8>

  /** The argument vector of a command. */
  type Command = seq<Text>

  const INLINE_MAX_SIZE := 65536
  const MBULK_BIG_ARG := 32768
  const IOBUF_LEN := 16384
  const MAX_ARGUMENTS := 1048576
  const MAX_BULK := 536870912

  const CR: u8 := 13
  const LF: u8 := 10
  const SPACE: u8 := 32
  const STAR: u8 := 42
  const DOLLAR: u8 := 36

  datatype Kind = Unknown | Inline | Multibulk

  datatype ProtocolError =
    | InvalidMultibulkLength
    | ExpectedDollar(got: u8)
    | InvalidBulkLength
    | TooBigInline
    | TooBigCount
    | TooBigBulkCount

  /** What a client knows between two tokens; `done` are the commands it has executed. */
  datatype Parse = Parse(kind: Kind, multibulklen: nat, bulklen: int, argv: Command, done: seq<Command>,
                         error: Option<ProtocolError>)

  function Fresh(done: seq<Command>): Parse {
    Parse(Unknown, 0, -1, [], done, None)
  }

  /** Executes the argument vector read so far, if it is not empty, and resets the client. */
  function Finish(p: Parse): Parse {
    Fresh(if p.argv == [] then p.done else p.done + [p.argv])
  }

  // ------------------------------------------------------------------
  // Tokens
  // ------------------------------------------------------------------

  /** `strchr(s, '\r')`, which does not look past a NUL byte. */
  function FirstCr(s: Text): (r: Option<nat>)
    ensures r.Some? ==> r.value < |s| && s[r.value] == CR
  {
    if s == [] || s[0] == 0 then None
    else if s[0] == CR then Some(0)
    else match FirstCr(s[1..]) case None => None case Some(i) => Some(i + 1)
  }

  /** Where the first line ends: its carriage return, if one more byte has arrived. */
  function Line(s: Text): (r: Option<nat>)
    ensures r.Some? ==> r.value + 2 <= |s|
  {
    match FirstCr(s)
    case Some(i) => if i + 2 <= |s| then Some(i) else None
    case None => None
  }

  /** `strstr(s, "\r\n")`. */
  function FirstCrLf(s: Text): (r: Option<nat>)
    ensures r.Some? ==> r.value + 2 <= |s|
  {
    if |s| < 2 || s[0] == 0 then None
    else if s[0] == CR && s[1] == LF then Some(0)
    else match FirstCrLf(s[1..]) case None => None case Some(i) => Some(i + 1)
  }

  function FirstSpace(s: Text): (n: nat)
    ensures n <= |s|
  {
    if s == [] || s[0] == SPACE then 0 else 1 + FirstSpace(s[1..])
  }

  /** The non-empty pieces of a line between single spaces. */
  function Words(line: Text): Command
    decreases |line|
  {
    var n := FirstSpace(line);
    var word := if n == 0 then [] else [line[..n]];
    if n == |line| then word else word + Words(line[n + 1..])
  }

  datatype Progress = Wait | Next(p: Parse, used: nat)

  function StepInline(p: Parse, s: Text): Progress {
    match FirstCrLf(s)
    case None => Wait
    case Some(i) => Next(Finish(p.(argv := Words(s[..i]))), i + 2)
  }

  ghost function StepCount(p: Parse, s: Text): Progress {
    match Line(s)
    case None => Wait
    case Some(i) =>
      match Read(s[Min(1, i)..i])
      case None => Next(p.(error := Some(InvalidMultibulkLength)), 0)
      case Some(n) =>
        if n > MAX_ARGUMENTS then Next(p.(error := Some(InvalidMultibulkLength)), 0)
        else if n <= 0 then Next(Finish(p), i + 2)
        else Next(p.(multibulklen := n), i + 2)
  }

  ghost function StepBulkLength(p: Parse, s: Text): Progress {
    match Line(s)
    case None => Wait
    case Some(i) =>
      if s[0] != DOLLAR then Next(p.(error := Some(ExpectedDollar(s[0]))), 0)
      else
        match Read(s[1..i])
        case None => Next(p.(error := Some(InvalidBulkLength)), 0)
        case Some(n) =>
          if n < 0 || n > MAX_BULK then Next(p.(error := Some(InvalidBulkLength)), 0)
          else Next(p.(bulklen := n), i + 2)
  }

  function StepBulk(p: Parse, s: Text): Progress
    requires p.multibulklen > 0 && p.bulklen >= 0
  {
    if |s| < p.bulklen + 2 then Wait
    else
      var q := p.(argv := p.argv + [s[..p.bulklen]], bulklen := -1, multibulklen := p.multibulklen - 1);
      Next(if q.multibulklen == 0 then Finish(q) else q, p.bulklen + 2)
  }

  /** The next token, from the bytes that have arrived. */
  ghost function Step(p: Parse, s: Text): Progress
    requires s != []
  {
    match p.kind
    case Unknown => Next(p.(kind := if s[0] == STAR then Multibulk else Inline), 0)
    case Inline => StepInline(p, s)
    case Multibulk =>
      if p.multibulklen == 0 then StepCount(p, s)
      else if p.bulklen < 0 then StepBulkLength(p, s)
      else StepBulk(p, s)
  }

  function Rank(p: Parse): nat {
    if p.error.Some? then 0 else if p.kind.Unknown? then 2 else 1
  }

  lemma StepShrinks(p: Parse, s: Text)
    requires s != [] && p.error.None? && Step(p, s).Next?
    ensures var Next(q, n) := Step(p, s);
            n <= |s| && (n > 0 || Rank(q) < Rank(p))
  {
  }

  /** Token after token, until bytes are missing or the client has broken the protocol. */
  ghost function Run(p: Parse, s: Text): (Parse, Text)
    decreases |s|, Rank(p)
  {
    if s == [] || p.error.Some? then (p, s)
    else
      match Step(p, s)
      case Wait => (p, s)
      case Next(q, n) =>
        StepShrinks(p, s);
        Run(q, s[n..])
  }

  // ------------------------------------------------------------------
  // Interrupting the parser
  // ------------------------------------------------------------------

  lemma {:induction false} FirstCrStable(a: Text, b: Text)
    ensures FirstCr(a).Some? ==> FirstCr(a + b) == FirstCr(a)
    ensures FirstCr(a + b).Some? && FirstCr(a + b).value < |a| ==> FirstCr(a) == FirstCr(a + b)
  {
    if a != [] {
      FirstCrStable(a[1..], b);
      assert (a + b)[1..] == a[1..] + b;
    }
  }

  lemma {:induction false} FirstCrLfStable(a: Text, b: Text)
    ensures FirstCrLf(a).Some? ==> FirstCrLf(a + b) == FirstCrLf(a)
    ensures FirstCrLf(a + b).Some? && FirstCrLf(a + b).value + 2 <= |a| ==> FirstCrLf(a) == FirstCrLf(a + b)
  {
    if |a| >= 2 {
      FirstCrLfStable(a[1..], b);
      assert (a + b)[1..] == a[1..] + b;
    }
  }

  /** More bytes do not change a token that is complete, and a token that is complete needs no more bytes. */
  lemma StepStable(p: Parse, a: Text, b: Text)
    requires a != [] && p.error.None?
    ensures Step(p, a).Next? ==> Step(p, a + b) == Step(p, a)
    ensures Step(p, a + b).Next? && Step(p, a + b).used <= |a| && Step(p, a + b).p.error.None? ==> Step(p, a) == Step(p, a + b)
  {
    hide Read, Words, FirstCr, FirstCrLf;
    FirstCrStable(a, b);
    FirstCrLfStable(a, b);
    assert (a + b)[0] == a[0];
    assert forall i, j :: 0 <= i <= j <= |a| ==> (a + b)[i..j] == a[i..j];
    assert forall j :: 0 <= j <= |a| ==> (a + b)[..j] == a[..j];
  }

  /** Parsing what arrives later from where the parser stopped is parsing everything at once. */
  lemma {:induction false} RunResumes(p: Parse, a: Text, b: Text)
    ensures var (q, r) := Run(p, a); Run(p, a + b) == Run(q, r + b)
    decreases |a|, Rank(p)
  {
    hide Step;
    if a == [] {
      assert a + b == b;
    } else if p.error.None? && Step(p, a).Next? {
      StepShrinks(p, a);
      StepStable(p, a, b);
      var Next(q, n) := Step(p, a);
      RunResumes(q, a[n..], b);
      assert (a + b)[n..] == a[n..] + b;
    }
  }

  function Concat(chunks: seq<Text>): Text {
    if chunks == [] then [] else chunks[0] + Concat(chunks[1..])
  }

  /** What a client has come to after reading the given pieces one after the other. */
  ghost function Reads(p: Parse, rest: Text, chunks: seq<Text>): (Parse, Text)
    decreases |chunks|
  {
    if chunks == [] then (p, rest)
    else var (q, r) := Run(p, rest + chunks[0]); Reads(q, r, chunks[1..])
  }

  lemma {:induction false} RunSettles(p: Parse, s: Text)
    ensures var (q, r) := Run(p, s); Run(q, r) == (q, r)
    decreases |s|, Rank(p)
  {
    if s != [] && p.error.None? && Step(p, s).Next? {
      StepShrinks(p, s);
      RunSettles(Step(p, s).p, s[Step(p, s).used..]);
    }
  }

  /** But for the limits below, only the bytes matter and not how they were cut, well formed or not. */
  lemma {:induction false} CutsDoNotMatter(p: Parse, rest: Text, chunks: seq<Text>)
    requires Run(p, rest) == (p, rest)
    ensures Reads(p, rest, chunks) == Run(p, rest + Concat(chunks))
    decreases |chunks|
  {
    hide Run;
    if chunks == [] {
      assert rest + Concat(chunks) == rest;
    } else {
      var (q, r) := Run(p, rest + chunks[0]);
      RunSettles(p, rest + chunks[0]);
      CutsDoNotMatter(q, r, chunks[1..]);
      RunResumes(p, rest + chunks[0], Concat(chunks[1..]));
      assert rest + Concat(chunks) == (rest + chunks[0]) + Concat(chunks[1..]);
    }
  }

  // ------------------------------------------------------------------
  // Limits on lines that have not ended
  // ------------------------------------------------------------------

  predicate SizeError(e: Option<ProtocolError>) {
    e in {Some(TooBigInline), Some(TooBigCount), Some(TooBigBulkCount)}
  }

  /**
   How many bytes the buffer keeps before the next token. The arguments of a command are kept until
   it is complete, except that a large argument moves to the front and may take the buffer over.
   */
  function HeldAfter(p: Parse, s: Text, held: nat, q: Parse, n: nat): nat {
    if !p.kind.Multibulk? || !q.kind.Multibulk? then 0
    else if p.multibulklen > 0 && p.bulklen < 0 then (if q.error.Some? || q.bulklen >= MBULK_BIG_ARG then 0 else held + n)
    else if p.bulklen >= MBULK_BIG_ARG && held == 0 && |s| == n then 0
    else held + n
  }

  /** `Run` with the bytes that the buffer keeps before `s`, and in the end before the rest. */
  ghost function RunHeld(p: Parse, s: Text, held: nat): (Parse, Text, nat)
    decreases |s|, Rank(p)
  {
    if s == [] || p.error.Some? then (p, s, held)
    else
      match Step(p, s)
      case Wait => (p, s, held)
      case Next(q, n) =>
        StepShrinks(p, s);
        RunHeld(q, s[n..], HeldAfter(p, s, held, q, n))
  }

  lemma {:induction false} RunHeldIsRun(p: Parse, s: Text, held: nat)
    ensures var (q, r, _) := RunHeld(p, s, held); Run(p, s) == (q, r)
    decreases |s|, Rank(p)
  {
    if s != [] && p.error.None? && Step(p, s).Next? {
      StepShrinks(p, s);
      var Next(q, n) := Step(p, s);
      RunHeldIsRun(q, s[n..], HeldAfter(p, s, held, q, n));
    }
  }

  /** The parser waits for the end of a line. */
  predicate LineMissing(p: Parse, s: Text) {
    && p.error.None?
    && match p.kind
       case Unknown => false
       case Inline => FirstCrLf(s).None?
       case Multibulk => !InBody(p) && FirstCr(s).None?
  }

  function LimitError(p: Parse): ProtocolError {
    if p.kind.Inline? then TooBigInline else if p.multibulklen == 0 then TooBigCount else TooBigBulkCount
  }

  /** The verdict where the parser stops: the limit is on the whole buffer, not on the line alone. */
  function Verdict(p: Parse, s: Text, held: nat): (Parse, Text) {
    (if LineMissing(p, s) && held + |s| > INLINE_MAX_SIZE then p.(error := Some(LimitError(p))) else p, s)
  }

  ghost function ProcessHeld(p: Parse, s: Text, held: nat): (Parse, Text) {
    var (q, r, h) := RunHeld(p, s, held); Verdict(q, r, h)
  }

  /** What `processInputBuffer` makes of a query buffer. */
  ghost function Process(p: Parse, s: Text): (Parse, Text) {
    ProcessHeld(p, s, 0)
  }

  /** A limit fires: parsing stops in a line that has not ended, with more than 64k in the buffer. */
  ghost predicate LimitHit(p: Parse, s: Text) {
    var (q, r, held) := RunHeld(p, s, 0); LineMissing(q, r) && held + |r| > INLINE_MAX_SIZE
  }

  /** What a client has come to after reading the given pieces one after the other, limits included. */
  ghost function LimitedReads(p: Parse, rest: Text, chunks: seq<Text>): (Parse, Text)
    decreases |chunks|
  {
    if chunks == [] then (p, rest)
    else var (q, r) := Process(p, rest + chunks[0]); LimitedReads(q, r, chunks[1..])
  }

  /** No limit fires at the end of any of the reads. */
  ghost predicate NeverHit(p: Parse, rest: Text, chunks: seq<Text>)
    decreases |chunks|
  {
    chunks != [] ==>
      && !LimitHit(p, rest + chunks[0])
      && var (q, r) := Run(p, rest + chunks[0]); NeverHit(q, r, chunks[1..])
  }

  lemma {:induction false} RunMakesNoSizeError(p: Parse, s: Text)
    requires !SizeError(p.error)
    ensures !SizeError(Run(p, s).0.error)
    decreases |s|, Rank(p)
  {
    if s != [] && p.error.None? && Step(p, s).Next? {
      StepShrinks(p, s);
      RunMakesNoSizeError(Step(p, s).p, s[Step(p, s).used..]);
    }
  }

  /** A client with an error executes nothing more. */
  lemma {:induction false} ErrorsStay(p: Parse, rest: Text, chunks: seq<Text>)
    requires p.error.Some?
    ensures LimitedReads(p, rest, chunks).0 == p
    decreases |chunks|
  {
    if chunks != [] {
      ErrorsStay(p, rest + chunks[0], chunks[1..]);
    }
  }

  /** A size error is reported exactly when a limit fires; otherwise processing a buffer is `Run`. */
  lemma ProcessIsRun(p: Parse, s: Text)
    requires !SizeError(p.error)
    ensures SizeError(Process(p, s).0.error) <==> LimitHit(p, s)
    ensures !LimitHit(p, s) ==> Process(p, s) == Run(p, s)
  {
    RunHeldIsRun(p, s, 0);
    RunMakesNoSizeError(p, s);
  }

  lemma UnendedLinesAreShort(p: Parse, s: Text)
    ensures var (q, r) := Process(p, s); LineMissing(q, r) ==> |r| <= INLINE_MAX_SIZE
  {
    hide RunHeld, FirstCr, FirstCrLf;
    var (q, r, held) := RunHeld(p, s, 0);
    assert Process(p, s) == Verdict(q, r, held);
  }

  lemma NothingToProcess(p: Parse, s: Text)
    requires s == [] || p.error.Some?
    ensures Process(p, s) == (p, s)
  {
  }

  /**
   For every byte stream, well formed or not, and every way to cut it into reads: the client comes to
   what the stream means as a whole if and only if no limit fires at the end of a read.
   */
  lemma {:induction false} CutsMatterAtLimitsOnly(p: Parse, rest: Text, chunks: seq<Text>)
    requires Run(p, rest) == (p, rest) && !SizeError(p.error)
    ensures LimitedReads(p, rest, chunks) == Run(p, rest + Concat(chunks)) <==> NeverHit(p, rest, chunks)
    decreases |chunks|
  {
    hide Run, Process, LimitHit;
    if chunks == [] {
      assert rest + Concat(chunks) == rest;
    } else {
      var s, later := rest + chunks[0], Concat(chunks[1..]);
      assert rest + Concat(chunks) == s + later;
      ProcessIsRun(p, s);
      RunMakesNoSizeError(p, s + later);
      if LimitHit(p, s) {
        var (q, r) := Process(p, s);
        ErrorsStay(q, r, chunks[1..]);
      } else {
        var (q, r) := Run(p, s);
        RunSettles(p, s);
        RunMakesNoSizeError(p, s);
        CutsMatterAtLimitsOnly(q, r, chunks[1..]);
        RunResumes(p, s, later);
      }
    }
  }

  // ------------------------------------------------------------------
  // Well-formed requests
  // ------------------------------------------------------------------

  const CRLF: Text := [CR, LF]

  function EncodeBulk(a: Text): Text {
    [DOLLAR] + Show(|a|) + CRLF + (a + CRLF)
  }

  function EncodeBulks(args: Command): Text {
    if args == [] then [] else EncodeBulk(args[0]) + EncodeBulks(args[1..])
  }

  /** A command in the protocol: the number of arguments, then each with its length. */
  function Encode(c: Command): Text {
    [STAR] + Show(|c|) + CRLF + EncodeBulks(c)
  }

  function EncodeAll(cs: seq<Command>): Text {
    if cs == [] then [] else Encode(cs[0]) + EncodeAll(cs[1..])
  }

  predicate Sendable(c: Command) {
    0 < |c| <= MAX_ARGUMENTS && forall a :: a in c ==> |a| <= MAX_BULK
  }

  lemma {:induction false} FirstCrAfter(h: Text, t: Text)
    requires forall i :: 0 <= i < |h| ==> h[i] != CR && h[i] != 0
    ensures FirstCr(h + [CR] + t) == Some(|h|)
  {
    var s := h + [CR] + t;
    if h != [] {
      FirstCrAfter(h[1..], t);
      assert s[1..] == h[1..] + [CR] + t;
    }
  }

  lemma ShowBytes(v: int)
    ensures forall i :: 0 <= i < |Show(v)| ==> Show(v)[i] == MINUS || IsDigit(Show(v)[i])
  {
  }

  /** The line that carries a length. */
  lemma HeaderLine(b: u8, v: int, t: Text)
    requires b != CR && b != 0 && InRange(v)
    ensures var s := [b] + Show(v) + CRLF + t; var i := 1 + |Show(v)|;
            Line(s) == Some(i) && s[0] == b && s[1..i] == Show(v) && Read(s[1..i]) == Some(v) && s[i + 2..] == t && i <= 21
  {
    hide Show, FirstCr, Read;
    ShowBytes(v);
    ReadShow(v);
    LongLongLength(v);
    FirstCrAfter([b] + Show(v), [LF] + t);
    var s := [b] + Show(v) + CRLF + t;
    assert s == [b] + Show(v) + [CR] + ([LF] + t);
  }

  /** The longest line that carries a length, with its end of line. */
  const HEADER_MAX := 23

  predicate InBody(p: Parse) {
    p.kind.Multibulk? && p.multibulklen > 0 && p.bulklen >= 0
  }

  /** The bytes are complete tokens to their end, none breaks the protocol, and the lengths are short lines. */
  ghost predicate Orderly(p: Parse, s: Text)
    decreases |s|, Rank(p)
  {
    && p.error.None?
    && (s != [] ==>
          match Step(p, s)
          case Wait => false
          case Next(q, n) =>
            StepShrinks(p, s);
            (InBody(p) || n <= HEADER_MAX) && Orderly(q, s[n..]))
  }

  /** From `p` the bytes `s` lead to `q` with `t` still to come, in orderly tokens. */
  ghost predicate Leads(p: Parse, s: Text, q: Parse, t: Text) {
    Run(p, s) == Run(q, t) && (Orderly(q, t) ==> Orderly(p, s))
  }

  lemma OneToken(p: Parse, s: Text, q: Parse, n: nat)
    requires s != [] && p.error.None? && Step(p, s) == Next(q, n) && n <= |s| && (InBody(p) || n <= HEADER_MAX)
    ensures Leads(p, s, q, s[n..])
  {
    hide Step, Finish;
  }

  lemma BulkLeads(p: Parse, a: Text, t: Text)
    requires p.kind.Multibulk? && p.multibulklen > 0 && p.bulklen == -1 && p.error.None? && |a| <= MAX_BULK
    ensures var q := p.(argv := p.argv + [a], multibulklen := p.multibulklen - 1);
            Leads(p, EncodeBulk(a) + t, if q.multibulklen == 0 then Finish(q) else q, t)
  {
    hide Run, Orderly, Read, Show, Line;
    var body := a + CRLF + t;
    var s := EncodeBulk(a) + t;
    var q := p.(bulklen := |a|);
    HeaderLine(DOLLAR, |a|, body);
    assert s == [DOLLAR] + Show(|a|) + CRLF + body;
    OneToken(p, s, q, 1 + |Show(|a|)| + 2);
    assert body[..|a|] == a && body[|a| + 2..] == t;
    OneToken(q, body, Step(q, body).p, |a| + 2);
  }

  lemma {:induction false} BulksLead(p: Parse, args: Command, t: Text)
    requires p.kind.Multibulk? && p.multibulklen == |args| > 0 && p.bulklen == -1 && p.error.None?
    requires forall a :: a in args ==> |a| <= MAX_BULK
    ensures Leads(p, EncodeBulks(args) + t, Finish(p.(argv := p.argv + args)), t)
    decreases |args|
  {
    hide Run, Orderly, EncodeBulk;
    var rest := EncodeBulks(args[1..]) + t;
    BulkLeads(p, args[0], rest);
    assert EncodeBulks(args) + t == EncodeBulk(args[0]) + rest;
    if |args| > 1 {
      BulksLead(p.(argv := p.argv + [args[0]], multibulklen := p.multibulklen - 1), args[1..], t);
      assert p.argv + args == (p.argv + [args[0]]) + args[1..];
    } else {
      assert rest == t && args == [args[0]];
    }
  }

  lemma CommandLeads(done: seq<Command>, c: Command, t: Text)
    requires Sendable(c)
    ensures Leads(Fresh(done), Encode(c) + t, Fresh(done + [c]), t)
  {
    hide Run, Orderly, Read, Show, Line;
    var body := EncodeBulks(c) + t;
    var s := Encode(c) + t;
    HeaderLine(STAR, |c|, body);
    assert s == [STAR] + Show(|c|) + CRLF + body;
    var p0 := Fresh(done);
    var p1 := p0.(kind := Multibulk);
    var p2 := p1.(multibulklen := |c|);
    assert s[0..] == s;
    OneToken(p0, s, p1, 0);
    OneToken(p1, s, p2, 1 + |Show(|c|)| + 2);
    BulksLead(p2, c, t);
    assert [] + c == c;
  }

  lemma {:induction false} CommandsLead(done: seq<Command>, cs: seq<Command>)
    requires forall c :: c in cs ==> Sendable(c)
    ensures Leads(Fresh(done), EncodeAll(cs), Fresh(done + cs), [])
    decreases |cs|
  {
    hide Run, Orderly, Encode;
    if cs == [] {
      assert done + cs == done;
    } else {
      CommandLeads(done, cs[0], EncodeAll(cs[1..]));
      CommandsLead(done + [cs[0]], cs[1..]);
      assert done + cs == done + [cs[0]] + cs[1..];
    }
  }

  // ------------------------------------------------------------------
  // Buffer limits
  // ------------------------------------------------------------------

  /** How much one read asks for: no more than the rest of a large argument that is being received. */
  function ReadLen(p: Parse, rest: Text): int {
    if p.kind.Multibulk? && p.multibulklen > 0 && p.bulklen >= MBULK_BIG_ARG then Min(IOBUF_LEN, p.bulklen + 2 - |rest|)
    else IOBUF_LEN
  }

  /** Buffers on which no length check of the parser can fire. */
  predicate Roomy(p: Parse, s: Text) {
    || |s| <= INLINE_MAX_SIZE
    || (p.kind.Multibulk? && p.multibulklen > 0 && p.bulklen >= MBULK_BIG_ARG && |s| <= p.bulklen + 2)
  }

  /** The same with `held` bytes of the buffer before the next token. */
  predicate RoomyAt(p: Parse, held: nat, size: nat) {
    size <= INLINE_MAX_SIZE || (InBody(p) && p.bulklen >= MBULK_BIG_ARG && held == 0 && size <= p.bulklen + 2)
  }

  lemma {:induction false} RoomyRuns(p: Parse, s: Text, held: nat)
    requires RoomyAt(p, held, held + |s|)
    ensures var (q, r, h) := RunHeld(p, s, held); LineMissing(q, r) ==> h + |r| <= INLINE_MAX_SIZE
    decreases |s|, Rank(p)
  {
    hide FirstCr, FirstCrLf, Read, Words;
    if s != [] && p.error.None? && Step(p, s).Next? {
      StepShrinks(p, s);
      var Next(q, n) := Step(p, s);
      RoomyRuns(q, s[n..], HeldAfter(p, s, held, q, n));
    }
  }

  lemma RoomyIsNotHit(p: Parse, s: Text)
    requires Roomy(p, s)
    ensures !LimitHit(p, s)
  {
    RoomyRuns(p, s, 0);
  }

  lemma {:induction false} RoomyIsNeverHit(p: Parse, rest: Text, chunks: seq<Text>)
    requires AllRoomy(p, rest, chunks)
    ensures NeverHit(p, rest, chunks)
    decreases |chunks|
  {
    hide Roomy, LimitHit, Run;
    if chunks != [] {
      RoomyIsNotHit(p, rest + chunks[0]);
      var (q, r) := Run(p, rest + chunks[0]);
      RoomyIsNeverHit(q, r, chunks[1..]);
    }
  }

  /** Pieces that `read` may return one after the other. */
  ghost predicate Readable(p: Parse, rest: Text, chunks: seq<Text>)
    decreases |chunks|
  {
    chunks != [] ==>
      && 0 < |chunks[0]| <= ReadLen(p, rest)
      && var (q, r) := Run(p, rest + chunks[0]); Readable(q, r, chunks[1..])
  }

  /** No length check fires on any of the reads. */
  ghost predicate AllRoomy(p: Parse, rest: Text, chunks: seq<Text>)
    decreases |chunks|
  {
    chunks != [] ==>
      && Roomy(p, rest + chunks[0])
      && var (q, r) := Run(p, rest + chunks[0]); AllRoomy(q, r, chunks[1..])
  }

  /** Parsing the first part of an orderly stream leaves an incomplete token, and the stream stays orderly. */
  lemma {:induction false} OrderlyPrefix(p: Parse, a: Text, b: Text)
    requires Orderly(p, a + b)
    ensures var (q, r) := Run(p, a);
            && q.error.None? && Orderly(q, r + b)
            && (InBody(q) ==> |r| < q.bulklen + 2)
            && (!InBody(q) ==> |r| <= HEADER_MAX)
    decreases |a|, Rank(p)
  {
    hide Step;
    if a != [] {
      StepStable(p, a, b);
      var Next(q, n) := Step(p, a + b);
      StepShrinks(p, a + b);
      if Step(p, a).Next? {
        StepShrinks(p, a);
        assert (a + b)[n..] == a[n..] + b;
        OrderlyPrefix(q, a[n..], b);
      } else if InBody(p) {
        BodyLength(p, a + b);
      }
    }
  }

  lemma BodyLength(p: Parse, s: Text)
    requires s != [] && InBody(p) && Step(p, s).Next?
    ensures Step(p, s).used == p.bulklen + 2
  {
  }

  lemma RoomForRead(p: Parse, rest: Text, chunk: Text)
    requires (InBody(p) ==> |rest| < p.bulklen + 2) && (!InBody(p) ==> |rest| <= HEADER_MAX)
    requires |chunk| <= ReadLen(p, rest)
    ensures Roomy(p, rest + chunk)
  {
  }

  /** Orderly streams never fill the buffer so far that a length check fires. */
  lemma {:induction false} OrderlyIsRoomy(p: Parse, rest: Text, chunks: seq<Text>)
    requires Readable(p, rest, chunks) && Orderly(p, rest + Concat(chunks))
    requires (InBody(p) ==> |rest| < p.bulklen + 2) && (!InBody(p) ==> |rest| <= HEADER_MAX)
    ensures AllRoomy(p, rest, chunks)
    decreases |chunks|
  {
    hide Run, Orderly, Roomy, ReadLen;
    if chunks != [] {
      RoomForRead(p, rest, chunks[0]);
      var later := Concat(chunks[1..]);
      assert rest + Concat(chunks) == rest + chunks[0] + later;
      OrderlyPrefix(p, rest + chunks[0], later);
      var (q, r) := Run(p, rest + chunks[0]);
      OrderlyIsRoomy(q, r, chunks[1..]);
    }
  }

  /**
   Every list of commands, sent in the protocol and cut into any reads the server can make, is
   executed exactly, argument for argument, with nothing left over and no limit firing.
   */
  lemma CommandsAreExecuted(cs: seq<Command>, chunks: seq<Text>)
    requires (forall c :: c in cs ==> Sendable(c)) && Concat(chunks) == EncodeAll(cs)
    ensures Reads(Fresh([]), [], chunks) == (Fresh(cs), [])
    ensures Readable(Fresh([]), [], chunks) ==> LimitedReads(Fresh([]), [], chunks) == (Fresh(cs), [])
  {
    CommandsLead([], cs);
    CutsDoNotMatter(Fresh([]), [], chunks);
    assert [] + EncodeAll(cs) == EncodeAll(cs) && [] + cs == cs;
    if Readable(Fresh([]), [], chunks) {
      OrderlyIsRoomy(Fresh([]), [], chunks);
      RoomyIsNeverHit(Fresh([]), [], chunks);
      CutsMatterAtLimitsOnly(Fresh([]), [], chunks);
    }
  }

  // ------------------------------------------------------------------
  // Inline requests
  // ------------------------------------------------------------------

  predicate PlainWord(w: Text) {
    w != [] && forall i :: 0 <= i < |w| ==> w[i] != SPACE && w[i] != CR && w[i] != 0
  }

  function EncodeWords(ws: Command): Text {
    if ws == [] then [] else if |ws| == 1 then ws[0] else ws[0] + [SPACE] + EncodeWords(ws[1..])
  }

  lemma {:induction false} FirstSpaceAfter(w: Text, t: Text)
    requires forall i :: 0 <= i < |w| ==> w[i] != SPACE
    requires t == [] || t[0] == SPACE
    ensures FirstSpace(w + t) == |w|
  {
    if w == [] {
      assert w + t == t;
    } else {
      FirstSpaceAfter(w[1..], t);
      assert (w + t)[1..] == w[1..] + t;
    }
  }

  lemma FirstWord(w: Text, rest: Text)
    requires PlainWord(w)
    ensures Words(w) == [w] && Words(w + [SPACE] + rest) == [w] + Words(rest)
  {
    FirstSpaceAfter(w, []);
    assert w + [] == w && w[..|w|] == w;
    var s := w + [SPACE] + rest;
    FirstSpaceAfter(w, [SPACE] + rest);
    assert s == w + ([SPACE] + rest) && s[..|w|] == w && s[|w| + 1..] == rest;
  }

  lemma {:induction false} WordsBack(ws: Command)
    requires forall i :: 0 <= i < |ws| ==> PlainWord(ws[i])
    ensures Words(EncodeWords(ws)) == ws
    ensures forall i :: 0 <= i < |EncodeWords(ws)| ==> EncodeWords(ws)[i] != CR && EncodeWords(ws)[i] != 0
    decreases |ws|
  {
    hide Words, FirstSpace;
    if ws == [] {
      NoWords();
    } else {
      FirstWord(ws[0], EncodeWords(ws[1..]));
      WordsBack(ws[1..]);
    }
  }

  lemma NoWords()
    ensures Words([]) == []
  {
  }

  lemma {:induction false} FirstCrLfAfter(h: Text, t: Text)
    requires forall i :: 0 <= i < |h| ==> h[i] != CR && h[i] != 0
    ensures FirstCrLf(h + CRLF + t) == Some(|h|)
  {
    var s := h + CRLF + t;
    if h != [] {
      FirstCrLfAfter(h[1..], t);
      assert s[1..] == h[1..] + CRLF + t;
    }
  }

  /** A line of words is executed as the command of these words; an empty line executes nothing. */
  lemma LineIsExecuted(done: seq<Command>, ws: Command, t: Text)
    requires (forall i :: 0 <= i < |ws| ==> PlainWord(ws[i])) && (ws != [] ==> PlainWord(ws[0]) && ws[0][0] != STAR)
    ensures Run(Fresh(done), EncodeWords(ws) + CRLF + t) == Run(Fresh(if ws == [] then done else done + [ws]), t)
  {
    hide Words, FirstCrLf;
    var line := EncodeWords(ws);
    var s := line + CRLF + t;
    WordsBack(ws);
    FirstCrLfAfter(line, t);
    var p0 := Fresh(done);
    var p1 := p0.(kind := Inline);
    assert s != [] && s[0] != STAR && s[0..] == s;
    assert Step(p0, s) == Next(p1, 0);
    assert s[..|line|] == line && s[|line| + 2..] == t;
    assert Step(p1, s) == Next(Finish(p1.(argv := ws)), |line| + 2);
  }

  // ------------------------------------------------------------------
  // Inputs on which the limits fire
  // ------------------------------------------------------------------

  lemma {:induction false} NoLineEnd(w: Text)
    requires forall i :: 0 <= i < |w| ==> w[i] != CR && w[i] != 0
    ensures FirstCrLf(w).None?
  {
    if |w| >= 2 {
      NoLineEnd(w[1..]);
    }
  }

  /** A piece of a long word arrives: nothing is executed, and a limit fires beyond 64k. */
  lemma PieceArrives(p: Parse, w: Text, m: nat, n: nat, later: seq<Text>)
    requires PlainWord(w) && w[0] != STAR && m < n <= |w|
    requires if m == 0 then p == Fresh([]) else p == Fresh([]).(kind := Inline)
    ensures var p1 := Fresh([]).(kind := Inline); var chunks := [w[m..n]] + later;
            && (Readable(p, w[..m], chunks) <==> n - m <= IOBUF_LEN && Readable(p1, w[..n], later))
            && (n <= INLINE_MAX_SIZE ==> LimitedReads(p, w[..m], chunks) == LimitedReads(p1, w[..n], later))
            && (n > INLINE_MAX_SIZE ==> LimitedReads(p, w[..m], chunks).0 == p1.(error := Some(TooBigInline)))
  {
    hide FirstCrLf, Words;
    var p1, s := Fresh([]).(kind := Inline), w[..n];
    assert w[..m] + w[m..n] == s && s[0..] == s;
    NoLineEnd(s);
    assert Step(p1, s) == Wait;
    RunHeldWaits(p1, s, 0);
    if m == 0 {
      RunHeldSteps(p, s, 0, p1, 0);
    }
    RunHeldIsRun(p, s, 0);
    var chunks := [w[m..n]] + later;
    assert chunks[1..] == later;
    if n > INLINE_MAX_SIZE {
      ErrorsStay(p1.(error := Some(TooBigInline)), s, later);
    }
  }

  /**
   The same inline line, cut into reads the server can make in two ways: whole blocks of 16k and the
   rest, which executes it, and the same with one more cut behind 64k, which is an error.
   */
  lemma LongLineDependsOnCuts(w: Text)
    requires PlainWord(w) && w[0] != STAR && INLINE_MAX_SIZE < |w| <= INLINE_MAX_SIZE + IOBUF_LEN - 2
    ensures var line, k, n := w + CRLF, IOBUF_LEN, INLINE_MAX_SIZE;
            var blocks := [line[..k], line[k..2 * k], line[2 * k..3 * k], line[3 * k..n]];
            var coarse, fine := blocks + [line[n..]], blocks + [line[n..n + 1], line[n + 1..]];
            && Concat(coarse) == line && Concat(fine) == line
            && Readable(Fresh([]), [], coarse) && Readable(Fresh([]), [], fine)
            && LimitedReads(Fresh([]), [], coarse) == (Fresh([[w]]), [])
            && LimitedReads(Fresh([]), [], fine).0.error == Some(TooBigInline)
  {
    hide Run, LimitedReads, Readable, Process, Words, PlainWord;
    var line, k, n := w + CRLF, IOBUF_LEN, INLINE_MAX_SIZE;
    var p0, p1 := Fresh([]), Fresh([]).(kind := Inline);
    var tail, tails := [line[n..]], [line[n..n + 1], line[n + 1..]];
    FourPieces(w, tail);
    FourPieces(w, tails);
    assert line[n..n + 1] == w[n..n + 1];
    assert tails == [w[n..n + 1]] + [line[n + 1..]];
    PieceArrives(p1, w, n, n + 1, [line[n + 1..]]);
    ConcatFour(line, tail);
    ConcatFour(line, tails);
    assert line[n..n + 1] + line[n + 1..] == line[n..];
    TwoPieces(line[n..n + 1], line[n + 1..]);
    LastPiece(p1, w[..n + 1], line[n + 1..]);
    LastPiece(p1, w[..n], line[n..]);
    assert w[..n] + line[n..] == line;
    LongLineEnds(w);
  }

  lemma FourPieces(w: Text, later: seq<Text>)
    requires PlainWord(w) && w[0] != STAR && INLINE_MAX_SIZE < |w|
    ensures var line, k, n := w + CRLF, IOBUF_LEN, INLINE_MAX_SIZE;
            var p1 := Fresh([]).(kind := Inline);
            var chunks := [line[..k], line[k..2 * k], line[2 * k..3 * k], line[3 * k..n]] + later;
            && (Readable(Fresh([]), [], chunks) <==> Readable(p1, w[..n], later))
            && LimitedReads(Fresh([]), [], chunks) == LimitedReads(p1, w[..n], later)
  {
    hide LimitedReads, Readable, PlainWord;
    var line, k, n := w + CRLF, IOBUF_LEN, INLINE_MAX_SIZE;
    var p0, p1 := Fresh([]), Fresh([]).(kind := Inline);
    var c3 := [w[3 * k..n]] + later;
    var c2 := [w[2 * k..3 * k]] + c3;
    var c1 := [w[k..2 * k]] + c2;
    var c0 := [w[0..k]] + c1;
    assert line[..k] == w[0..k] && line[k..2 * k] == w[k..2 * k];
    assert line[2 * k..3 * k] == w[2 * k..3 * k] && line[3 * k..n] == w[3 * k..n];
    assert c0 == [line[..k], line[k..2 * k], line[2 * k..3 * k], line[3 * k..n]] + later;
    PieceArrives(p1, w, 3 * k, n, later);
    PieceArrives(p1, w, 2 * k, 3 * k, c3);
    PieceArrives(p1, w, k, 2 * k, c2);
    PieceArrives(p0, w, 0, k, c1);
    assert w[..0] == [];
  }

  lemma TwoPieces(a: Text, b: Text)
    ensures Concat([a]) == a && Concat([a, b]) == a + b
  {
    assert Concat([b]) == b + [] && [a, b][1..] == [b];
  }

  lemma ConcatFour(line: Text, later: seq<Text>)
    requires |line| >= INLINE_MAX_SIZE
    ensures var k, n := IOBUF_LEN, INLINE_MAX_SIZE;
            Concat([line[..k], line[k..2 * k], line[2 * k..3 * k], line[3 * k..n]] + later) == line[..n] + Concat(later)
  {
    var k, n := IOBUF_LEN, INLINE_MAX_SIZE;
    var c3 := [line[3 * k..n]] + later;
    var c2 := [line[2 * k..3 * k]] + c3;
    var c1 := [line[k..2 * k]] + c2;
    PieceFirst(line[3 * k..n], later);
    PieceFirst(line[2 * k..3 * k], c3);
    PieceFirst(line[k..2 * k], c2);
    PieceFirst(line[..k], c1);
    assert [line[..k], line[k..2 * k], line[2 * k..3 * k], line[3 * k..n]] + later == [line[..k]] + c1;
    assert line[..2 * k] == line[..k] + line[k..2 * k];
    assert line[..3 * k] == line[..2 * k] + line[2 * k..3 * k];
    assert line[..n] == line[..3 * k] + line[3 * k..n];
  }

  lemma PieceFirst(a: Text, later: seq<Text>)
    ensures Concat([a] + later) == a + Concat(later)
  {
    assert ([a] + later)[1..] == later;
  }

  lemma LastPiece(p: Parse, rest: Text, last: Text)
    ensures Readable(p, rest, [last]) <==> 0 < |last| <= ReadLen(p, rest)
    ensures LimitedReads(p, rest, [last]) == Process(p, rest + last)
  {
    hide Process, Run;
  }

  lemma LongLineEnds(w: Text)
    requires PlainWord(w) && w[0] != STAR
    ensures Process(Fresh([]).(kind := Inline), w + CRLF) == (Fresh([[w]]), [])
  {
    hide Words, FirstCrLf, PlainWord;
    var p0, p1, line := Fresh([]), Fresh([]).(kind := Inline), w + CRLF;
    assert EncodeWords([w]) + CRLF + [] == line && line[0..] == line;
    assert forall i :: 0 <= i < |[w]| ==> PlainWord([w][i]);
    LineIsExecuted([], [w], []);
    RunHeldSteps(p0, line, 0, p1, 0);
    RunHeldIsRun(p0, line, 0);
    assert [] + [[w]] == [[w]];
  }

  /** Small arguments that have arrived stay in the buffer until their command is complete. */
  lemma {:induction false} ArgumentsAreHeld(p: Parse, args: Command, held: nat)
    requires p.kind.Multibulk? && p.multibulklen > |args| && p.bulklen == -1 && p.error.None?
    requires forall i :: 0 <= i < |args| ==> |args[i]| < MBULK_BIG_ARG
    ensures RunHeld(p, EncodeBulks(args), held)
            == (p.(argv := p.argv + args, multibulklen := p.multibulklen - |args|), [], held + |EncodeBulks(args)|)
    decreases |args|
  {
    hide RunHeld, Step, EncodeBulk;
    if args == [] {
      RunHeldWaits(p, [], held);
      assert p.argv + args == p.argv;
    } else {
      var rest := EncodeBulks(args[1..]);
      var q := p.(argv := p.argv + [args[0]], multibulklen := p.multibulklen - 1);
      BulkHeld(p, args[0], rest, held);
      ArgumentsAreHeld(q, args[1..], held + |EncodeBulk(args[0])|);
      assert p.argv + args == q.argv + args[1..];
    }
  }

  lemma BulkHeld(p: Parse, a: Text, t: Text, held: nat)
    requires p.kind.Multibulk? && p.multibulklen > 1 && p.bulklen == -1 && p.error.None? && |a| < MBULK_BIG_ARG
    ensures var q := p.(argv := p.argv + [a], multibulklen := p.multibulklen - 1);
            RunHeld(p, EncodeBulk(a) + t, held) == RunHeld(q, t, held + |EncodeBulk(a)|)
  {
    hide RunHeld, Read, Show, Line;
    var body := a + CRLF + t;
    var s := EncodeBulk(a) + t;
    var q := p.(bulklen := |a|);
    HeaderLine(DOLLAR, |a|, body);
    assert s == [DOLLAR] + Show(|a|) + CRLF + body;
    var n := 1 + |Show(|a|)| + 2;
    RunHeldSteps(p, s, held, q, n);
    assert body[..|a|] == a && body[|a| + 2..] == t;
    RunHeldSteps(q, body, held + n, Step(q, body).p, |a| + 2);
  }

  /**
   A command of which some arguments, all small, have arrived and no byte of the next one: a limit
   fires exactly when what has arrived is longer than 64k, although no line is. Run by itself would
   go on and execute the command.
   */
  lemma BufferedArgumentsHitLimit(done: seq<Command>, c: Command, k: nat)
    requires Sendable(c) && 0 < k < |c| && forall i :: 0 <= i < k ==> |c[i]| < MBULK_BIG_ARG
    ensures var s := [STAR] + Show(|c|) + CRLF + EncodeBulks(c[..k]);
            && (LimitHit(Fresh(done), s) <==> |s| > INLINE_MAX_SIZE)
            && (LimitHit(Fresh(done), s) ==> Process(Fresh(done), s).0.error == Some(TooBigBulkCount))
            && Run(Fresh(done), Encode(c)) == (Fresh(done + [c]), [])
            && s <= Encode(c)
  {
    hide Run, RunHeld, Read, Show, Line, EncodeBulks, Orderly;
    var body := EncodeBulks(c[..k]);
    var s := [STAR] + Show(|c|) + CRLF + body;
    HeaderLine(STAR, |c|, body);
    var p0 := Fresh(done);
    var p1 := p0.(kind := Multibulk);
    var p2 := p1.(multibulklen := |c|);
    assert s[0..] == s;
    RunHeldSteps(p0, s, 0, p1, 0);
    RunHeldSteps(p1, s, 0, p2, 1 + |Show(|c|)| + 2);
    ArgumentsAreHeld(p2, c[..k], 1 + |Show(|c|)| + 2);
    BulksConcat(c[..k], c[k..]);
    assert c[..k] + c[k..] == c;
    assert Encode(c) == s + EncodeBulks(c[k..]);
    CommandLeads(done, c, []);
    assert Encode(c) + [] == Encode(c);
    NothingMore(Fresh(done + [c]));
  }

  /** Three arguments of 30000 bytes in the buffer, and no byte of the fourth: an error. */
  lemma ThreeArgumentsHitLimit(a: Text)
    requires |a| == 30000
    ensures var s := [STAR] + Show(4) + CRLF + EncodeBulks([a, a, a]);
            s <= Encode([a, a, a, a]) && Process(Fresh([]), s).0.error == Some(TooBigBulkCount)
  {
    var c := [a, a, a, a];
    assert c[..3] == [a, a, a];
    hide Process, LimitHit, Encode, Show, EncodeBulks, EncodeBulk;
    BufferedArgumentsHitLimit([], c, 3);
    BulksConcat([a], [a, a]);
    BulksConcat([a], [a]);
    assert [a, a, a] == [a] + [a, a] && [a, a] == [a] + [a];
    BulkIsLonger(a);
  }

  lemma BulkIsLonger(a: Text)
    ensures |EncodeBulks([a])| > |a|
  {
    assert EncodeBulks([a]) == EncodeBulk(a) + EncodeBulks([]);
  }

  lemma NothingMore(p: Parse)
    ensures Run(p, []) == (p, [])
  {
  }

  lemma {:induction false} BulksConcat(a: Command, b: Command)
    ensures EncodeBulks(a + b) == EncodeBulks(a) + EncodeBulks(b)
    decreases |a|
  {
    hide EncodeBulk;
    if a == [] {
      assert a + b == b;
    } else {
      BulksConcat(a[1..], b);
      assert (a + b)[0] == a[0] && (a + b)[1..] == a[1..] + b;
    }
  }

  // ------------------------------------------------------------------
  // The parser
  // ------------------------------------------------------------------

  lemma ReadIs(s: Text, v: int)
    requires InRange(v) && s == Show(v)
    ensures Read(s) == Some(v)
  {
    ReadShow(v);
  }

  /** `string2ll` as used by the parser. */
  method ParseLength(s: Text) returns (r: Option<int>)
    ensures r == Read(s)
  {
    var ok, v := String2ll(s);
    if ok {
      ReadIs(s, v);
      r := Some(v);
    } else {
      r := None;
    }
  }

  /** Once the last argument is complete the command counts as executed. */
  function Settle(p: Parse): Parse {
    if p.multibulklen == 0 then Finish(p) else p
  }

  datatype Status = Got | Missing | Broken | Nothing

  class Client {
    var querybuf: Text
    var reqtype: Kind
    var multibulklen: nat
    var bulklen: int
    var argv: Command
    /** What `setProtocolError` was called for; the client is then closed after the reply. */
    var error: Option<ProtocolError>
    /** The argument vectors handed to `processCommand`. */
    var executed: seq<Command>

    constructor ()
      ensures Valid() && State() == Fresh([]) && querybuf == []
    {
      querybuf, reqtype, multibulklen, bulklen, argv, error, executed := [], Unknown, 0, -1, [], None, [];
    }

    ghost function State(): Parse
      reads this
    {
      Parse(reqtype, multibulklen, bulklen, argv, executed, error)
    }

    ghost predicate Valid()
      reads this
    {
      && bulklen >= -1
      && (multibulklen == 0 ==> bulklen == -1 && argv == [])
      && (reqtype != Multibulk ==> multibulklen == 0)
      && (reqtype == Multibulk && multibulklen == 0 ==> querybuf != [] && querybuf[0] == STAR)
    }

    /** The first line of a multibulk request: how many arguments follow. */
    method ReadCount() returns (status: Status, pos: nat)
      requires Valid() && reqtype == Multibulk && multibulklen == 0 && querybuf != [] && error.None?
      modifies this`querybuf, this`multibulklen, this`error
      ensures match status
              case Got =>
                && multibulklen > 0 && pos <= |querybuf| && querybuf == old(querybuf) && error.None?
                && Step(old(State()), querybuf) == Next(State(), pos)
              case Nothing =>
                && multibulklen == 0 && error.None? && |querybuf| < |old(querybuf)|
                && (var n := |old(querybuf)| - |querybuf|;
                    querybuf == old(querybuf)[n..] && Step(old(State()), old(querybuf)) == Next(Finish(State()), n))
              case Broken =>
                && querybuf == old(querybuf) && Step(old(State()), querybuf) == Next(State(), 0) && error == Some(InvalidMultibulkLength)
              case Missing =>
                && querybuf == old(querybuf) && multibulklen == 0 && Step(old(State()), querybuf) == Wait
                && error == if FirstCr(querybuf).None? && |querybuf| > INLINE_MAX_SIZE then Some(TooBigCount) else None
      ensures pos <= |old(querybuf)|
    {
      hide FirstCr, Read, Step;
      StepCountIs(State(), querybuf);
      pos := 0;
      var newline := FirstCr(querybuf);
      if newline.None? {
        if |querybuf| > INLINE_MAX_SIZE {
          error := Some(TooBigCount);
        }
        return Missing, 0;
      }
      var i := newline.value;
      if i > |querybuf| - 2 {
        return Missing, 0;
      }
      var ll := ParseLength(querybuf[1..i]);
      if ll.None? || ll.value > MAX_ARGUMENTS {
        error := Some(InvalidMultibulkLength);
        return Broken, 0;
      }
      pos := i + 2;
      if ll.value <= 0 {
        querybuf := querybuf[pos..];
        return Nothing, pos;
      }
      multibulklen := ll.value;
      status := Got;
    }
  
    /** The line before an argument; a large argument moves to the front of the buffer. */
    method ReadBulkLength(from: nat) returns (status: Status, pos: nat)
      requires Valid() && reqtype == Multibulk && multibulklen > 0 && bulklen == -1 && error.None? && from <= |querybuf|
      modifies this`querybuf, this`bulklen, this`error
      ensures var rest := old(querybuf)[from..];
              match status
              case Got =>
                && pos <= |querybuf| <= |old(querybuf)| && rest != [] && Step(old(State()), rest).Next?
                && (var n := Step(old(State()), rest).used;
                    n <= |rest| && Step(old(State()), rest) == Next(State(), n) && querybuf[pos..] == rest[n..])
                && bulklen >= 0 && error.None? && |querybuf| - pos < |rest|
                && pos == if bulklen >= MBULK_BIG_ARG then 0 else from + Step(old(State()), rest).used
              case Broken =>
                && pos == 0 && rest != [] && querybuf == rest && Step(old(State()), rest) == Next(State(), 0) && error.Some? && bulklen == -1
              case Missing =>
                && pos == from && querybuf == old(querybuf) && bulklen == -1
                && (rest == [] || Step(old(State()), rest) == Wait)
                && error == if FirstCr(rest).None? && |querybuf| > INLINE_MAX_SIZE then Some(TooBigBulkCount) else None
              case Nothing => true
      ensures status != Nothing
    {
      hide FirstCr, Read;
      pos := from;
      ghost var rest := querybuf[pos..];
      var newline := FirstCr(querybuf[pos..]);
      if newline.None? {
        if |querybuf| > INLINE_MAX_SIZE {
          error := Some(TooBigBulkCount);
        }
        return Missing, pos;
      }
      var i := newline.value;
      if pos + i > |querybuf| - 2 {
        return Missing, pos;
      }
      if querybuf[pos] != DOLLAR {
        error := Some(ExpectedDollar(querybuf[pos]));
        querybuf := querybuf[pos..];
        return Broken, 0;
      }
      assert querybuf[pos + 1..pos + i] == rest[1..i];
      var ll := ParseLength(querybuf[pos + 1..pos + i]);
      if ll.None? || ll.value < 0 || ll.value > MAX_BULK {
        error := Some(InvalidBulkLength);
        querybuf := querybuf[pos..];
        return Broken, 0;
      }
      pos := pos + i + 2;
      assert querybuf[pos..] == rest[i + 2..];
      if ll.value >= MBULK_BIG_ARG {
        querybuf, pos := querybuf[pos..], 0;
        assert querybuf[pos..] == rest[i + 2..];
      }
      bulklen := ll.value;
      status := Got;
    }

    /** An argument that has arrived; a large one that fills the buffer takes the buffer over. */
    method ReadBulk(from: nat) returns (pos: nat)
      requires Valid() && reqtype == Multibulk && multibulklen > 0 && bulklen >= 0 && error.None?
      requires from + bulklen + 2 <= |querybuf|
      modifies this`querybuf, this`bulklen, this`argv, this`multibulklen
      ensures var rest := old(querybuf)[from..]; var n := old(bulklen) + 2;
              && pos <= |querybuf| <= |old(querybuf)| && querybuf[pos..] == rest[n..] && |querybuf| - pos < |rest|
              && Step(old(State()), rest) == Next(Settle(State()), n)
      ensures bulklen == -1 && multibulklen == old(multibulklen) - 1 && argv != []
      ensures pos == if from == 0 && old(bulklen) >= MBULK_BIG_ARG && |old(querybuf)| == old(bulklen) + 2 then 0
                     else from + old(bulklen) + 2
    {
      pos := from;
      ghost var rest := querybuf[from..];
      if pos == 0 && bulklen >= MBULK_BIG_ARG && |querybuf| == bulklen + 2 {
        argv := argv + [querybuf[..|querybuf| - 2]];
        assert rest == querybuf && rest[..bulklen] == querybuf[..bulklen];
        querybuf := [];
      } else {
        argv := argv + [querybuf[pos..pos + bulklen]];
        assert rest[..bulklen] == querybuf[pos..pos + bulklen];
        pos := pos + bulklen + 2;
        assert querybuf[pos..] == rest[bulklen + 2..];
      }
      bulklen := -1;
      multibulklen := multibulklen - 1;
    }
  
    /** One round of the loop over the arguments, from cursor `from`. */
    method ReadArgument(from: nat) returns (status: Status, pos: nat)
      requires Valid() && reqtype == Multibulk && multibulklen > 0 && error.None? && from <= |querybuf|
      modifies this`querybuf, this`bulklen, this`argv, this`multibulklen, this`error
      ensures status != Nothing && bulklen >= -1 && pos <= |querybuf| <= |old(querybuf)|
      ensures var here := old(querybuf)[from..];
              if status == Got then
                && multibulklen == old(multibulklen) - 1 && bulklen == -1 && error.None? && |querybuf| - pos < |here|
                && RunHeld(Settle(State()), querybuf[pos..], if multibulklen == 0 then 0 else pos)
                   == RunHeld(old(State()), here, from)
              else
                && multibulklen > 0 && (State(), querybuf[pos..]) == ProcessHeld(old(State()), here, from)
                && (status == Broken ==> pos == 0 && error.Some?)
    {
      hide RunHeld, Step, Finish, FirstCr, HeldAfter, Verdict;
      pos := from;
      ghost var p, rest := State(), querybuf[pos..];
      if bulklen == -1 {
        status, pos := ReadBulkLength(pos);
        if status == Missing {
          StopsInLine(p, rest, from);
          return;
        }
        RunHeldSteps(p, rest, from, State(), Step(p, rest).used);
        HeldAfterLength(p, rest, from, State(), Step(p, rest).used);
        if status == Broken {
          assert rest[0..] == rest;
          StopsWithError(State(), rest, 0);
          return;
        }
        p, rest := State(), querybuf[pos..];
      }
      if |querybuf| - pos < bulklen + 2 {
        BodyWaits(p, rest);
        StopsInBody(p, rest, pos);
        return Missing, pos;
      }
      ghost var held := pos;
      pos := ReadBulk(pos);
      RunHeldSteps(p, rest, held, Settle(State()), p.bulklen + 2);
      HeldAfterBulk(p, rest, held, State());
      status := Got;
    }

    /** `processMultibulkBuffer`: as many tokens of one command as have arrived. */
    method ProcessMultibulkBuffer() returns (ok: bool)
      requires Valid() && reqtype == Multibulk && querybuf != [] && error.None?
      modifies this
      ensures executed == old(executed) && reqtype == Multibulk && bulklen >= -1 && (!ok ==> Valid())
      ensures ok ==> error.None? && multibulklen == 0 && bulklen == -1 && |querybuf| < |old(querybuf)|
      ensures ok ==> Process(Finish(State()), querybuf) == Process(old(State()), old(querybuf))
      ensures !ok ==> (State(), querybuf) == Process(old(State()), old(querybuf))
    {
      hide RunHeld, Step, Finish, FirstCr;
      var pos: nat := 0;
      ghost var p0, s0 := State(), querybuf;
      assert s0[0..] == s0;
      if multibulklen == 0 {
        var status;
        status, pos := ReadCount();
        ReadCountLeads(p0, s0, status, pos, State(), querybuf);
        if status != Got {
          return status == Nothing;
        }
      }
      while multibulklen > 0
        invariant reqtype == Multibulk && executed == old(executed) && error.None? && bulklen >= -1
        invariant (multibulklen == 0 ==> bulklen == -1) && pos <= |querybuf| <= |s0|
        invariant multibulklen == 0 ==> |querybuf| - pos < |s0|
        invariant RunHeld(Settle(State()), querybuf[pos..], if multibulklen == 0 then 0 else pos) == RunHeld(p0, s0, 0)
        decreases |querybuf| - pos
      {
        var status;
        status, pos := ReadArgument(pos);
        if status == Broken {
          assert querybuf[0..] == querybuf;
          return false;
        }
        if status == Missing {
          break;
        }
      }
      ghost var left := querybuf[pos..];
      if pos > 0 {
        querybuf := querybuf[pos..];
      }
      assert querybuf == left;
      ok := multibulklen == 0;
    }

    /** `processInlineBuffer`. */
    method ProcessInlineBuffer() returns (ok: bool)
      requires Valid() && reqtype == Inline && querybuf != [] && error.None?
      modifies this`querybuf, this`argv, this`error
      ensures ok ==>
                && error.None? && |querybuf| < |old(querybuf)|
                && Process(Finish(State()), querybuf) == Process(old(State()), old(querybuf))
      ensures !ok ==>
                && querybuf == old(querybuf) && argv == [] && (State(), querybuf) == Process(old(State()), querybuf)
                && error == if |querybuf| > INLINE_MAX_SIZE then Some(TooBigInline) else None
    {
      hide RunHeld, FirstCrLf, Words;
      ghost var p, s := State(), querybuf;
      var newline := FirstCrLf(querybuf);
      if newline.None? {
        if |querybuf| > INLINE_MAX_SIZE {
          error := Some(TooBigInline);
        }
        RunHeldWaits(p, s, 0);
        return false;
      }
      var querylen := newline.value;
      argv := Words(querybuf[..querylen]);
      querybuf := querybuf[querylen + 2..];
      RunHeldSteps(p, s, 0, Finish(State()), querylen + 2);
      ok := true;
    }

    /** `processInputBuffer`: executes every command that has arrived, or reports an error. */
    method ProcessInputBuffer()
      requires Valid()
      modifies this
      ensures Valid() && (State(), querybuf) == Process(old(State()), old(querybuf))
      ensures !SizeError(old(error)) ==> (SizeError(error) <==> LimitHit(old(State()), old(querybuf)))
      ensures old(error).None? && Roomy(old(State()), old(querybuf)) ==> !SizeError(error)
      ensures LineMissing(State(), querybuf) ==> |querybuf| <= INLINE_MAX_SIZE
    {
      hide Process, LimitHit, Roomy, LineMissing, Run;
      ghost var p0, s0 := State(), querybuf;
      UnendedLinesAreShort(p0, s0);
      if error.None? && Roomy(p0, s0) {
        RoomyIsNotHit(p0, s0);
      }
      if !SizeError(error) {
        ProcessIsRun(p0, s0);
      }
      while querybuf != []
        invariant Valid() && error == old(error)
        invariant Process(State(), querybuf) == Process(p0, s0)
        invariant error.Some? ==> State() == p0
        decreases |querybuf|
      {
        if error.Some? {
          NothingToProcess(State(), querybuf);
          return;
        }
        if reqtype == Unknown {
          KindIsRead(State(), querybuf);
          reqtype := if querybuf[0] == STAR then Multibulk else Inline;
        }
        var ok;
        if reqtype == Inline {
          ok := ProcessInlineBuffer();
        } else {
          ok := ProcessMultibulkBuffer();
        }
        if !ok {
          return;
        }
        ProcessCommandAndReset();
      }
      NothingToProcess(State(), querybuf);
    }

    /** `processCommand` and `resetClient`; an empty argument vector is only reset. */
    method ProcessCommandAndReset()
      modifies this`reqtype, this`multibulklen, this`bulklen, this`argv, this`executed
      ensures State() == Finish(old(State())).(error := error)
    {
      if argv != [] {
        executed := executed + [argv];
      }
      reqtype, multibulklen, bulklen, argv := Unknown, 0, -1, [];
    }

    /** `readQueryFromClient` after `read` has returned some bytes. */
    method ReadQueryFromClient(chunk: Text)
      requires Valid()
      modifies this
      ensures Valid() && (State(), querybuf) == Process(old(State()), old(querybuf) + chunk)
      ensures !SizeError(old(error)) ==> (SizeError(error) <==> LimitHit(old(State()), old(querybuf) + chunk))
    {
      hide RunHeld, FirstCr, FirstCrLf, LimitHit;
      querybuf := querybuf + chunk;
      ProcessInputBuffer();
    }

    /** Reads that return the given pieces one after the other. */
    method ReadQueries(chunks: seq<Text>)
      requires Valid()
      modifies this
      ensures Valid() && (State(), querybuf) == LimitedReads(old(State()), old(querybuf), chunks)
    {
      hide Process, LimitHit, Client.Valid;
      var i := 0;
      assert chunks[0..] == chunks;
      while i < |chunks|
        invariant 0 <= i <= |chunks| && Valid()
        invariant LimitedReads(State(), querybuf, chunks[i..]) == LimitedReads(old(State()), old(querybuf), chunks)
      {
        assert chunks[i..][1..] == chunks[i + 1..];
        ReadQueryFromClient(chunks[i]);
        i := i + 1;
      }
    }
  }

  /** A new client that is sent commands executes exactly these, however their bytes are cut into reads. */
  method ReceiveCommands(ghost cs: seq<Command>, chunks: seq<Text>) returns (executed: seq<Command>)
    requires (forall c :: c in cs ==> Sendable(c)) && Concat(chunks) == EncodeAll(cs)
    requires Readable(Fresh([]), [], chunks)
    ensures executed == cs
  {
    hide LimitedReads, Readable, EncodeAll, Concat, Reads;
    CommandsAreExecuted(cs, chunks);
    var client := new Client();
    client.ReadQueries(chunks);
    executed := client.executed;
  }

  lemma HeldAfterLength(p: Parse, s: Text, held: nat, q: Parse, n: nat)
    requires p.kind.Multibulk? && q.kind.Multibulk? && p.multibulklen > 0 && p.bulklen == -1
    ensures HeldAfter(p, s, held, q, n) == if q.error.Some? || q.bulklen >= MBULK_BIG_ARG then 0 else held + n
  {
  }

  lemma HeldAfterBulk(p: Parse, s: Text, held: nat, q: Parse)
    requires p.kind.Multibulk? && q.kind.Multibulk? && p.multibulklen > 0 && p.bulklen >= 0
    ensures var n := p.bulklen + 2;
            HeldAfter(p, s, held, Settle(q), n)
            == if q.multibulklen == 0 || (p.bulklen >= MBULK_BIG_ARG && held == 0 && |s| == n) then 0 else held + n
  {
  }

  lemma KindIsRead(p: Parse, s: Text)
    requires p.kind.Unknown? && p.error.None? && s != []
    ensures Process(p, s) == Process(p.(kind := if s[0] == STAR then Multibulk else Inline), s)
  {
    assert s[0..] == s;
  }

  lemma StepCountIs(p: Parse, s: Text)
    requires p.kind.Multibulk? && p.multibulklen == 0 && s != []
    ensures Step(p, s) ==
            match Line(s)
            case None => Wait
            case Some(i) =>
              match Read(s[Min(1, i)..i])
              case None => Next(p.(error := Some(InvalidMultibulkLength)), 0)
              case Some(n) =>
                if n > MAX_ARGUMENTS then Next(p.(error := Some(InvalidMultibulkLength)), 0)
                else if n <= 0 then Next(Finish(p), i + 2)
                else Next(p.(multibulklen := n), i + 2)
  {
    hide Read, FirstCr;
  }

  lemma StopsInLine(p: Parse, s: Text, held: nat)
    requires p.kind.Multibulk? && p.multibulklen > 0 && p.bulklen == -1 && p.error.None?
    requires s == [] || Step(p, s) == Wait
    ensures ProcessHeld(p, s, held)
            == (p.(error := if FirstCr(s).None? && held + |s| > INLINE_MAX_SIZE then Some(TooBigBulkCount) else None), s)
  {
    hide Step, FirstCr;
    RunHeldWaits(p, s, held);
  }

  lemma StopsInBody(p: Parse, s: Text, held: nat)
    requires InBody(p) && p.error.None? && (s == [] || Step(p, s) == Wait)
    ensures ProcessHeld(p, s, held) == (p, s)
  {
    hide Step, FirstCr;
    RunHeldWaits(p, s, held);
  }

  lemma StopsWithError(p: Parse, s: Text, held: nat)
    requires p.error.Some?
    ensures ProcessHeld(p, s, held) == (p, s)
  {
  }

  lemma RunHeldWaits(p: Parse, s: Text, held: nat)
    requires s == [] || p.error.Some? || Step(p, s) == Wait
    ensures RunHeld(p, s, held) == (p, s, held)
  {
  }

  lemma RunHeldSteps(p: Parse, s: Text, held: nat, q: Parse, n: nat)
    requires s != [] && p.error.None? && Step(p, s) == Next(q, n) && n <= |s|
    ensures RunHeld(p, s, held) == RunHeld(q, s[n..], HeldAfter(p, s, held, q, n))
  {
  }

  lemma BodyWaits(p: Parse, s: Text)
    requires InBody(p) && |s| < p.bulklen + 2
    ensures s == [] || Step(p, s) == Wait
  {
  }

  lemma ReadCountLeads(p: Parse, s: Text, status: Status, pos: nat, q: Parse, s': Text)
    requires s != [] && p.error.None? && p.kind.Multibulk? && p.multibulklen == 0 && p.bulklen == -1 && pos <= |s| && |s'| <= |s|
    requires match status
             case Got => Step(p, s) == Next(q, pos) && s' == s && q.kind.Multibulk? && q.multibulklen > 0
             case Nothing => var n := |s| - |s'|; s' == s[n..] && Step(p, s) == Next(Finish(q), n)
             case Broken => s' == s && Step(p, s) == Next(q, 0) && q.error == Some(InvalidMultibulkLength)
             case Missing =>
               s' == s && Step(p, s) == Wait && (q, s') == Verdict(p, s, 0)
    ensures status == Got ==> RunHeld(q, s[pos..], pos) == RunHeld(p, s, 0)
    ensures status == Nothing ==> RunHeld(Finish(q), s', 0) == RunHeld(p, s, 0)
    ensures status == Broken || status == Missing ==> (q, s') == ProcessHeld(p, s, 0)
  {
    hide Step, FirstCr, FirstCrLf, RunHeld;
    assert s[0..] == s;
    match status
    case Got => RunHeldSteps(p, s, 0, q, pos);
    case Nothing => RunHeldSteps(p, s, 0, Finish(q), |s| - |s'|);
    case Missing => RunHeldWaits(p, s, 0);
    case Broken =>
      RunHeldSteps(p, s, 0, q, 0);
      RunHeldWaits(q, s, 0);
  }
}
