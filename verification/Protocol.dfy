/**
 What requests come to, byte by byte and with the numbers of the protocol written out, whether they
 are well formed or not: the lines that carry lengths, the arguments, inline requests, the limits,
 and how a request breaks the protocol.
 */
module Protocol {
  import opened Bytes
  import opened Decimal
  import opened Requests

  /** The first line of `s` ends at `i`: a carriage return, whatever the byte after it is. */
  predicate EndsAt(s: Text, i: nat) {
    i + 2 <= |s| && s[i] == 13 && forall j :: 0 <= j < i ==> s[j] != 13 && s[j] != 0
  }

  /** Without the byte after the carriage return. */
  predicate ReturnAt(s: Text, i: nat) {
    i < |s| && s[i] == 13 && forall j :: 0 <= j < i ==> s[j] != 13 && s[j] != 0
  }

  /** The first inline request of `s` ends at `i`. */
  predicate RequestEndsAt(s: Text, i: nat) {
    i + 2 <= |s| && s[i] == 13 && s[i + 1] == 10 && forall j :: 0 <= j < i ==> s[j] != 0 && !(s[j] == 13 && s[j + 1] == 10)
  }

  lemma {:induction false} FirstCrIs(s: Text, i: nat)
    ensures FirstCr(s) == Some(i) <==> ReturnAt(s, i)
  {
    if s != [] && s[0] != 0 && s[0] != 13 && i > 0 {
      FirstCrIs(s[1..], i - 1);
      assert forall j :: 1 <= j < |s| ==> s[j] == s[1..][j - 1];
    }
  }

  lemma {:induction false} FirstCrLfIs(s: Text, i: nat)
    ensures FirstCrLf(s) == Some(i) <==> RequestEndsAt(s, i)
  {
    if |s| >= 2 && s[0] != 0 && !(s[0] == 13 && s[1] == 10) && i > 0 {
      FirstCrLfIs(s[1..], i - 1);
      assert forall j :: 1 <= j < |s| ==> s[j] == s[1..][j - 1];
    }
  }

  lemma LineIs(s: Text, i: nat)
    ensures Line(s) == Some(i) <==> EndsAt(s, i)
  {
    hide FirstCr;
    FirstCrIs(s, i);
  }

  // ------------------------------------------------------------------
  // Multibulk requests
  // ------------------------------------------------------------------

  /** A request that starts with a star is multibulk, any other is inline. */
  lemma FirstByteDecides(done: seq<Command>, s: Text)
    requires s != []
    ensures RunHeld(Fresh(done), s, 0) == RunHeld(Fresh(done).(kind := if s[0] == 42 then Multibulk else Inline), s, 0)
  {
    hide RunHeld;
    assert s[0..] == s;
    RunHeldSteps(Fresh(done), s, 0, Fresh(done).(kind := if s[0] == 42 then Multibulk else Inline), 0);
  }

  /** The number of arguments: at most 1024 * 1024, and nothing to execute when it is not positive. */
  lemma CountIsRead(done: seq<Command>, s: Text, i: nat, n: int, held: nat)
    requires EndsAt(s, i) && i > 0 && InRange(n) && s[1..i] == Show(n)
    ensures var p := Fresh(done).(kind := Multibulk);
            RunHeld(p, s, held) ==
            if n > 1024 * 1024 then (p.(error := Some(InvalidMultibulkLength)), s, held)
            else if n <= 0 then RunHeld(Fresh(done), s[i + 2..], 0)
            else RunHeld(p.(multibulklen := n), s[i + 2..], held + i + 2)
  {
    hide RunHeld, FirstCr, Read, Show;
    LineIs(s, i);
    ReadShow(n);
    var p := Fresh(done).(kind := Multibulk);
    assert s[0..] == s;
    if n > 1024 * 1024 {
      RunHeldSteps(p, s, held, p.(error := Some(InvalidMultibulkLength)), 0);
      RunHeldWaits(p.(error := Some(InvalidMultibulkLength)), s, held);
    } else if n <= 0 {
      RunHeldSteps(p, s, held, Fresh(done), i + 2);
    } else {
      RunHeldSteps(p, s, held, p.(multibulklen := n), i + 2);
    }
  }

  lemma CountIsNoNumber(done: seq<Command>, s: Text, i: nat, held: nat)
    requires EndsAt(s, i) && i > 0 && forall n :: InRange(n) ==> s[1..i] != Show(n)
    ensures var p := Fresh(done).(kind := Multibulk);
            RunHeld(p, s, held) == (p.(error := Some(InvalidMultibulkLength)), s, held)
  {
    hide RunHeld, FirstCr, Show;
    LineIs(s, i);
    var p := Fresh(done).(kind := Multibulk);
    assert s[0..] == s;
    RunHeldSteps(p, s, held, p.(error := Some(InvalidMultibulkLength)), 0);
    RunHeldWaits(p.(error := Some(InvalidMultibulkLength)), s, held);
  }

  predicate Expects(p: Parse) {
    p.kind.Multibulk? && p.multibulklen > 0 && p.bulklen == -1 && p.error.None?
  }

  /** The length of an argument: at most 512 MB, and a large argument is moved to the front of the buffer. */
  lemma LengthIsRead(p: Parse, s: Text, i: nat, n: int, held: nat)
    requires Expects(p) && EndsAt(s, i) && s[0] == 36 && InRange(n) && s[1..i] == Show(n)
    ensures if 0 <= n <= 512 * 1024 * 1024
            then RunHeld(p, s, held) == RunHeld(p.(bulklen := n), s[i + 2..], if n >= 32 * 1024 then 0 else held + i + 2)
            else RunHeld(p, s, held) == (p.(error := Some(InvalidBulkLength)), s, 0)
  {
    hide RunHeld, FirstCr, Read, Show;
    LineIs(s, i);
    ReadShow(n);
    assert s[0..] == s;
    if 0 <= n <= 512 * 1024 * 1024 {
      RunHeldSteps(p, s, held, p.(bulklen := n), i + 2);
    } else {
      RunHeldSteps(p, s, held, p.(error := Some(InvalidBulkLength)), 0);
      RunHeldWaits(p.(error := Some(InvalidBulkLength)), s, 0);
    }
  }

  lemma LengthIsBroken(p: Parse, s: Text, i: nat, held: nat)
    requires Expects(p) && EndsAt(s, i) && (s[0] == 36 ==> forall n :: InRange(n) ==> s[1..i] != Show(n))
    ensures RunHeld(p, s, held) == (p.(error := Some(if s[0] == 36 then InvalidBulkLength else ExpectedDollar(s[0]))), s, 0)
  {
    hide RunHeld, FirstCr, Show;
    LineIs(s, i);
    assert s[0..] == s;
    var e := if s[0] == 36 then InvalidBulkLength else ExpectedDollar(s[0]);
    RunHeldSteps(p, s, held, p.(error := Some(e)), 0);
    RunHeldWaits(p.(error := Some(e)), s, 0);
  }

  /** An argument is taken with the two bytes behind it, whatever these are; the last one makes the command complete. */
  lemma ArgumentIsTaken(p: Parse, a: Text, x: u8, y: u8, t: Text, held: nat)
    requires p.kind.Multibulk? && p.multibulklen > 0 && p.bulklen == |a| && p.error.None?
    ensures RunHeld(p, a + [x, y] + t, held) ==
            if p.multibulklen == 1 then RunHeld(Fresh(p.done + [p.argv + [a]]), t, 0)
            else RunHeld(p.(argv := p.argv + [a], multibulklen := p.multibulklen - 1, bulklen := -1), t,
                         if |a| >= 32 * 1024 && held == 0 && t == [] then 0 else held + |a| + 2)
  {
    hide RunHeld;
    var s := a + [x, y] + t;
    var q := p.(argv := p.argv + [a], multibulklen := p.multibulklen - 1, bulklen := -1);
    assert s[..|a|] == a && s[|a| + 2..] == t;
    RunHeldSteps(p, s, held, if p.multibulklen == 1 then Fresh(p.done + [p.argv + [a]]) else q, |a| + 2);
  }

  lemma ArgumentIsMissing(p: Parse, s: Text, held: nat)
    requires p.kind.Multibulk? && p.multibulklen > 0 && p.bulklen >= 0 && p.error.None? && |s| < p.bulklen + 2
    ensures RunHeld(p, s, held) == (p, s, held) && ProcessHeld(p, s, held) == (p, s)
  {
    BodyWaits(p, s);
    RunHeldWaits(p, s, held);
  }

  // ------------------------------------------------------------------
  // Lines that have not ended
  // ------------------------------------------------------------------

  /** A line is waited for, unless more than 64k are in the buffer and no carriage return. */
  lemma LineIsMissing(p: Parse, s: Text, held: nat)
    requires p.kind.Multibulk? && (p.multibulklen > 0 ==> p.bulklen == -1) && p.error.None? && forall i :: !EndsAt(s, i)
    ensures RunHeld(p, s, held) == (p, s, held)
    ensures ProcessHeld(p, s, held) ==
            if (forall i :: !ReturnAt(s, i)) && held + |s| > 64 * 1024
            then (p.(error := Some(if p.multibulklen == 0 then TooBigCount else TooBigBulkCount)), s) else (p, s)
  {
    hide RunHeld, FirstCr;
    if Line(s).Some? {
      LineIs(s, Line(s).value);
    }
    RunHeldWaits(p, s, held);
    if FirstCr(s).Some? {
      FirstCrIs(s, FirstCr(s).value);
      assert ReturnAt(s, FirstCr(s).value);
    } else {
      forall i: nat ensures !ReturnAt(s, i) {
        FirstCrIs(s, i);
      }
    }
  }

  /** The same for inline requests. */
  lemma RequestIsMissing(done: seq<Command>, s: Text, held: nat)
    requires forall i :: !RequestEndsAt(s, i)
    ensures var p := Fresh(done).(kind := Inline);
            && RunHeld(p, s, held) == (p, s, held)
            && ProcessHeld(p, s, held) == (if held + |s| > 64 * 1024 then p.(error := Some(TooBigInline)) else p, s)
  {
    hide RunHeld, FirstCrLf;
    if FirstCrLf(s).Some? {
      FirstCrLfIs(s, FirstCrLf(s).value);
    }
    RunHeldWaits(Fresh(done).(kind := Inline), s, held);
  }

  // ------------------------------------------------------------------
  // Inline requests
  // ------------------------------------------------------------------

  /** An inline request is executed as the command of its words, if it has any. */
  lemma RequestIsExecuted(done: seq<Command>, s: Text, i: nat, held: nat)
    requires RequestEndsAt(s, i)
    ensures var p := Fresh(done).(kind := Inline); var words := Words(s[..i]);
            RunHeld(p, s, held) == RunHeld(Fresh(if words == [] then done else done + [words]), s[i + 2..], 0)
  {
    hide RunHeld, FirstCrLf, Words;
    FirstCrLfIs(s, i);
    var p := Fresh(done).(kind := Inline);
    RunHeldSteps(p, s, held, Finish(p.(argv := Words(s[..i]))), i + 2);
  }

  /** Words stand between spaces, any number of them; nothing else separates or changes them. */
  lemma {:induction false} SpaceSeparates(a: Text, b: Text)
    ensures Words(a + [32] + b) == Words(a) + Words(b)
    decreases |a|
  {
    hide FirstSpace;
    var s := a + [32] + b;
    var n := FirstSpace(a);
    FirstSpaceStands(a);
    if n == |a| {
      FirstSpaceAfter(a, [32] + b);
      assert s == a + ([32] + b) && s[..n] == a && s[n + 1..] == b && a[..n] == a;
    } else {
      FirstSpaceAfter(a[..n], a[n..] + [32] + b);
      assert s == a[..n] + (a[n..] + [32] + b) && s[..n] == a[..n] && s[n + 1..] == a[n + 1..] + [32] + b;
      SpaceSeparates(a[n + 1..], b);
    }
  }

  lemma {:induction false} FirstSpaceStands(a: Text)
    ensures var n := FirstSpace(a); (n < |a| ==> a[n] == 32) && forall i :: 0 <= i < n ==> a[i] != 32
  {
    if a != [] && a[0] != 32 {
      FirstSpaceStands(a[1..]);
      assert forall i :: 1 <= i < |a| ==> a[i] == a[1..][i - 1];
    }
  }

  lemma WordStands(w: Text)
    requires forall i :: 0 <= i < |w| ==> w[i] != 32
    ensures Words(w) == if w == [] then [] else [w]
  {
    FirstSpaceAfter(w, []);
    assert w + [] == w && w[..|w|] == w;
  }

  // ------------------------------------------------------------------
  // Requests that break the protocol
  // ------------------------------------------------------------------

  /** A line in the place of a length that makes a request malformed. */
  ghost predicate BadLength(s: Text, i: nat) {
    EndsAt(s, i) && (s[0] == 36 ==> forall n :: 0 <= n <= 512 * 1024 * 1024 ==> s[1..i] != Show(n))
  }

  /** Arguments may have arrived before the line that breaks the request: none of it is executed. */
  lemma {:induction false} MalformedAfter(p: Parse, args: Command, s: Text, i: nat)
    requires Expects(p) && |args| < p.multibulklen && (forall a :: a in args ==> |a| <= 512 * 1024 * 1024) && BadLength(s, i)
    ensures Run(p, EncodeBulks(args) + s) ==
            (p.(argv := p.argv + args, multibulklen := p.multibulklen - |args|,
                error := Some(if s[0] == 36 then InvalidBulkLength else ExpectedDollar(s[0]))), s)
    decreases |args|
  {
    hide Run, EncodeBulk, Show, RunHeld, EndsAt, BadLength;
    if args == [] {
      assert EncodeBulks(args) + s == s && p.argv + args == p.argv;
      BadLengthIsRefused(p, s, i);
    } else {
      var q := p.(argv := p.argv + [args[0]], multibulklen := p.multibulklen - 1);
      BulkLeads(p, args[0], EncodeBulks(args[1..]) + s);
      assert EncodeBulks(args) + s == EncodeBulk(args[0]) + (EncodeBulks(args[1..]) + s);
      MalformedAfter(q, args[1..], s, i);
      assert p.argv + args == q.argv + args[1..];
    }
  }

  lemma BadLengthIsRefused(p: Parse, s: Text, i: nat)
    requires Expects(p) && BadLength(s, i)
    ensures Run(p, s) == (p.(error := Some(if s[0] == 36 then InvalidBulkLength else ExpectedDollar(s[0]))), s)
  {
    hide Run, Show, RunHeld;
    RunHeldIsRun(p, s, 0);
    if n :| s[0] == 36 && i > 0 && InRange(n) && s[1..i] == Show(n) {
      LengthIsRead(p, s, i, n, 0);
    } else {
      LengthIsBroken(p, s, i, 0);
    }
  }

  /**
   A request of `n` arguments of which some arrive and then a line that is no length: nothing of it is
   executed, the error names the first byte of the line unless that is the right one, and parsing
   stops at the line.
   */
  lemma MalformedRequest(done: seq<Command>, n: int, args: Command, s: Text, i: nat)
    requires |args| < n <= 1024 * 1024 && (forall a :: a in args ==> |a| <= 512 * 1024 * 1024) && BadLength(s, i)
    ensures Run(Fresh(done), [42] + Show(n) + [13, 10] + EncodeBulks(args) + s)
            == (Parse(Multibulk, n - |args|, -1, args, done, Some(if s[0] == 36 then InvalidBulkLength else ExpectedDollar(s[0]))), s)
  {
    hide Run, RunHeld, EncodeBulks, Show, EndsAt, BadLength;
    var rest := EncodeBulks(args) + s;
    var all := [42] + Show(n) + [13, 10] + EncodeBulks(args) + s;
    assert all == [42] + Show(n) + [13, 10] + rest;
    CountLeads(done, n, rest);
    MalformedAfter(Parse(Multibulk, n, -1, [], done, None), args, s, i);
    assert [] + args == args;
  }

  lemma CountLeads(done: seq<Command>, n: int, rest: Text)
    requires 0 < n <= 1024 * 1024
    ensures Run(Fresh(done), [42] + Show(n) + [13, 10] + rest) == Run(Parse(Multibulk, n, -1, [], done, None), rest)
  {
    hide Run, RunHeld, Show;
    var all := [42] + Show(n) + [13, 10] + rest;
    var i := 1 + |Show(n)|;
    HeaderLine(42, n, rest);
    LineIs(all, i);
    FirstByteDecides(done, all);
    CountIsRead(done, all, i, n, 0);
    RunHeldIsRun(Fresh(done), all, 0);
    RunHeldIsRun(Parse(Multibulk, n, -1, [], done, None), rest, i + 2);
  }

  // ------------------------------------------------------------------
  // What is executed
  // ------------------------------------------------------------------

  lemma {:induction false} DoneGrows(p: Parse, s: Text)
    ensures p.done <= Run(p, s).0.done
    decreases |s|, Rank(p)
  {
    hide Words, FirstCr, FirstCrLf, Read;
    if s != [] && p.error.None? && Step(p, s).Next? {
      StepShrinks(p, s);
      DoneGrows(Step(p, s).p, s[Step(p, s).used..]);
    }
  }

  /** Whatever limits fire, the commands executed are the first ones of those the bytes stand for. */
  lemma {:induction false} OnlyFromStream(p: Parse, rest: Text, chunks: seq<Text>)
    requires !SizeError(p.error)
    ensures LimitedReads(p, rest, chunks).0.done <= Run(p, rest + Concat(chunks)).0.done
    decreases |chunks|
  {
    hide Run, Process, LimitHit;
    if chunks == [] {
      assert rest + Concat(chunks) == rest;
      DoneGrows(p, rest);
    } else {
      var s := rest + chunks[0];
      var (q, r) := Process(p, s);
      ProcessIsRun(p, s);
      RunResumes(p, s, Concat(chunks[1..]));
      assert rest + Concat(chunks) == s + Concat(chunks[1..]);
      if LimitHit(p, s) {
        ErrorsStay(q, r, chunks[1..]);
        LimitKeepsDone(p, s);
        DoneGrows(Run(p, s).0, Run(p, s).1 + Concat(chunks[1..]));
      } else {
        RunMakesNoSizeError(p, s);
        OnlyFromStream(q, r, chunks[1..]);
      }
    }
  }

  lemma LimitKeepsDone(p: Parse, s: Text)
    ensures Process(p, s).0.done == Run(p, s).0.done
  {
    hide RunHeld;
    RunHeldIsRun(p, s, 0);
  }

  /** A malformed request after commands that have been executed: however it is cut, nothing more is executed. */
  lemma MalformedExecutesNothing(done: seq<Command>, n: int, args: Command, s: Text, i: nat, chunks: seq<Text>)
    requires |args| < n <= 1024 * 1024 && (forall a :: a in args ==> |a| <= 512 * 1024 * 1024) && BadLength(s, i)
    requires Concat(chunks) == [42] + Show(n) + [13, 10] + EncodeBulks(args) + s
    ensures LimitedReads(Fresh(done), [], chunks).0.done == done
  {
    hide Run, LimitedReads, EncodeBulks, Show, EndsAt, BadLength, Process;
    MalformedRequest(done, n, args, s, i);
    OnlyFromStream(Fresh(done), [], chunks);
    ReadsGrow(Fresh(done), [], chunks);
    assert [] + Concat(chunks) == Concat(chunks);
  }

  lemma {:induction false} ReadsGrow(p: Parse, rest: Text, chunks: seq<Text>)
    ensures p.done <= LimitedReads(p, rest, chunks).0.done
    decreases |chunks|
  {
    hide Run, Process;
    if chunks != [] {
      var (q, r) := Process(p, rest + chunks[0]);
      LimitKeepsDone(p, rest + chunks[0]);
      DoneGrows(p, rest + chunks[0]);
      ReadsGrow(q, r, chunks[1..]);
    }
  }

  /** With the limits of the protocol written out: a command is executed exactly when it keeps them. */
  lemma CommandIsExecuted(done: seq<Command>, c: Command, t: Text)
    requires 0 < |c| <= 1024 * 1024 && forall a :: a in c ==> |a| <= 512 * 1024 * 1024
    ensures Run(Fresh(done), Encode(c) + t) == Run(Fresh(done + [c]), t)
  {
    hide Run, Encode;
    CommandLeads(done, c, t);
  }
}
