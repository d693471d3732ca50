/** Loading the append only file (aof.c), from a file that may have been cut off anywhere. */
module AofLoad {
  import opened Bytes
  import opened Decimal
  import opened Requests
  import opened AofRewrite

  /** `atoi` and `strtol`, without leading white space or plus sign. */
  function Atoi(s: Text): int {
    if s != [] && s[0] == MINUS then -(ReadDigits(0, s[1..]) as int) else ReadDigits(0, s)
  }

  lemma AtoiOfShow(n: nat, t: Text)
    requires t != [] && !IsDigit(t[0])
    ensures Atoi(Show(n) + t) == n
  {
    ReadDigitsBack(n, t);
    assert IsDigit(Digits(n)[0]);
  }

  const LINE_SIZE := 128

  /** Where `fgets` stops: after a line feed, at the end, or when its buffer is full. */
  function LineEnd(s: Text, room: nat): (n: nat)
    ensures n <= |s| && n <= room && (s != [] && room > 0 ==> n > 0)
  {
    if s == [] || room == 0 then 0 else if s[0] == LF then 1 else 1 + LineEnd(s[1..], room - 1)
  }

  lemma {:induction false} LineEndAt(s: Text, k: nat, room: nat)
    requires k < room && (forall i :: 0 <= i < k && i < |s| ==> s[i] != LF) && (k < |s| ==> s[k] == LF)
    ensures LineEnd(s, room) == if k < |s| then k + 1 else |s|
  {
    if k > 0 && s != [] {
      LineEndAt(s[1..], k - 1, room - 1);
    }
  }

  datatype Verdict = Loaded | ZeroLength | ReadError | FormatError

  predicate LogStorable(log: seq<Command>) {
    forall i :: 0 <= i < |log| ==> 0 < |log[i]| <= LLONG_MAX && forall j :: 0 <= j < |log[i]| ==> |log[i][j]| <= LLONG_MAX
  }

  /** Two texts that make up a third one share its parts. */
  lemma CutHeader(rest: Text, missing: Text, h: Text, body: Text)
    requires rest + missing == h + body
    ensures |rest| >= |h| ==> rest[..|h|] == h && rest[|h|..] + missing == body
    ensures |rest| < |h| ==> rest == h[..|rest|]
  {
    var whole := h + body;
    if |rest| >= |h| {
      assert rest[..|h|] == whole[..|h|];
      assert rest[|h|..] + missing == whole[|h|..];
    } else {
      assert rest == whole[..|rest|];
    }
  }

  /** `fgets` and the number in the line; the rest of the file is what the line left. */
  method ReadLine(rest: Text, ghost missing: Text, ghost mark: u8, ghost n: nat, ghost body: Text)
    returns (line: Text, rest': Text)
    requires rest != []
    ensures 0 < |line| && |rest'| < |rest| && line == rest[..LineEnd(rest, 127)] && rest == line + rest'
    ensures n <= LLONG_MAX && mark != LF && rest + missing == [mark] + Show(n) + CRLF + body ==>
              if |rest| >= 1 + |Show(n)| + 2 then line[0] == mark && Atoi(line[1..]) == n && rest' + missing == body
              else rest' == []
  {
    hide Show;
    var end := LineEnd(rest, LINE_SIZE - 1);
    line, rest' := rest[..end], rest[end..];
    if n <= LLONG_MAX && mark != LF && rest + missing == [mark] + Show(n) + CRLF + body {
      LongLongLength(n);
      ShowBytes(n);
      var h := [mark] + Show(n) + CRLF;
      CutHeader(rest, missing, h, body);
      LineEndAt(rest, |h| - 1, LINE_SIZE - 1);
      if |rest| >= |h| {
        assert line == rest[..|h|] == h;
        assert h[1..] == Show(n) + CRLF && h[0] == mark;
        AtoiOfShow(n, CRLF);
      }
    }
  }

  lemma HeaderFirst(b: u8, n: nat, args: Text, later: Text)
    ensures [b] + Show(n) + CRLF + args + later == [b] + Show(n) + CRLF + (args + later)
  {
    hide Show;
  }

  /** One argument: the length line, that many bytes, and two more. */
  method ReadArgument(rest: Text, ghost missing: Text, ghost a: Text, ghost later: Text)
    returns (failure: Option<Verdict>, arg: Text, rest': Text)
    ensures |rest'| <= |rest| && (rest == [] ==> failure.Some?)
    ensures |a| <= LLONG_MAX && rest + missing == EncodeBulk(a) + later ==>
              if |rest| >= |EncodeBulk(a)| then failure.None? && arg == a && rest' + missing == later
              else failure.Some? && failure.value in {ReadError, FormatError}
    ensures failure.Some? ==> failure.value in {ReadError, FormatError}
    ensures rest == [] ==> failure == Some(ReadError)
    ensures rest != [] && (rest[0] != 36 || Atoi(rest[1..LineEnd(rest, 127)]) < 0) ==> failure == Some(FormatError)
  {
    hide Show, ReadDigits;
    if rest == [] {
      return Some(ReadError), [], [];
    }
    ghost var body := a + CRLF + later;
    HeaderFirst(DOLLAR, |a|, a + CRLF, later);
    assert a + CRLF + later == (a + CRLF) + later;
    var line;
    line, rest' := ReadLine(rest, missing, DOLLAR, |a|, body);
    if line[0] != DOLLAR {
      return Some(FormatError), [], rest';
    }
    var len := Atoi(line[1..]);
    if |a| <= LLONG_MAX && rest + missing == EncodeBulk(a) + later && |rest| >= 1 + |Show(|a|)| + 2 {
      CutHeader(rest', missing, a + CRLF, later);
    }
    if len < 0 || (len > 0 && rest' == []) || len + 2 > |rest'| {
      return Some(FormatError), [], rest';
    }
    arg, rest', failure := rest'[..len], rest'[len + 2..], None;
  }

  /** The arguments of a command; `args` and `later` are what the file holds if it is a log. */
  method ReadArguments(argc: nat, rest: Text, ghost missing: Text, ghost args: Command, ghost later: Text)
    returns (failure: Option<Verdict>, cmd: Command, rest': Text)
    requires argc > 0
    ensures |rest'| <= |rest| && (rest == [] ==> failure.Some?)
    ensures LogStorable([args]) && argc == |args| && rest + missing == EncodeBulks(args) + later ==>
              if |rest| >= |EncodeBulks(args)| then failure.None? && cmd == args && rest' + missing == later else failure.Some?
    ensures failure.Some? ==> failure.value in {ReadError, FormatError}
  {
    hide EncodeBulk, EncodeBulks, LogStorable;
    StorableArgs(args);
    ghost var good := LogStorable([args]) && argc == |args| && rest + missing == EncodeBulks(args) + later;
    cmd, rest' := [], rest;
    ghost var left := args;
    while |cmd| < argc
      invariant |cmd| <= argc && |rest'| <= |rest| && (rest == [] ==> cmd == [])
      invariant good ==> args == cmd + left && rest' + missing == EncodeBulks(left) + later
      invariant good ==> |rest| - |EncodeBulks(args)| == |rest'| - |EncodeBulks(left)|
      decreases argc - |cmd|
    {
      ghost var a := if left == [] then [] else left[0];
      ghost var next := EncodeBulks(if left == [] then [] else left[1..]);
      assert good ==> left != [] && args[|cmd|] == a;
      BulksUnfold(left, later);
      var arg;
      failure, arg, rest' := ReadArgument(rest', missing, a, next + later);
      if failure.Some? {
        return failure, cmd, rest';
      }
      cmd := cmd + [arg];
      if left != [] {
        left := left[1..];
      }
    }
    BulksUnfold(left, later);
    failure := None;
  }

  lemma BulksUnfold(args: Command, later: Text)
    ensures args == [] ==> EncodeBulks(args) == [] && EncodeBulks(args) + later == later
    ensures args != [] ==>
              && EncodeBulks(args) + later == EncodeBulk(args[0]) + (EncodeBulks(args[1..]) + later)
              && |EncodeBulks(args)| == |EncodeBulk(args[0])| + |EncodeBulks(args[1..])|
  {
    hide EncodeBulk;
  }

  lemma StorableArgs(args: Command)
    ensures LogStorable([args]) ==> |args| > 0 && forall j :: 0 <= j < |args| ==> |args[j]| <= LLONG_MAX
  {
    if LogStorable([args]) {
      assert 0 < |[args][0]| && forall j :: 0 <= j < |args| ==> |[args][0][j]| <= LLONG_MAX;
    }
  }

  /** One command of the file. */
  method ReadCommand(rest: Text, ghost missing: Text, ghost c: Command, ghost later: Text)
    returns (failure: Option<Verdict>, cmd: Command, rest': Text)
    requires rest != []
    ensures |rest'| < |rest|
    ensures LogStorable([c]) && rest + missing == Encode(c) + later ==>
              if |rest| >= |Encode(c)| then failure.None? && cmd == c && rest' + missing == later else failure.Some?
    ensures failure.Some? ==> failure.value in {ReadError, FormatError}
    ensures rest[0] != 42 || Atoi(rest[1..LineEnd(rest, 127)]) < 1 ==> failure == Some(FormatError)
  {
    hide Show, EncodeBulks, ReadDigits;
    ghost var good := LogStorable([c]) && rest + missing == Encode(c) + later;
    assert good ==> 0 < |[c][0]| <= LLONG_MAX;
    HeaderFirst(STAR, |c|, EncodeBulks(c), later);
    var line;
    line, rest' := ReadLine(rest, missing, STAR, |c|, EncodeBulks(c) + later);
    if line[0] != STAR {
      return Some(FormatError), [], rest';
    }
    var argc := Atoi(line[1..]);
    if argc < 1 {
      return Some(FormatError), [], rest';
    }
    failure, cmd, rest' := ReadArguments(argc, rest', missing, c, later);
  }

  /**
   `loadAppendOnlyFile` of a file that is the start of a log, the rest having been cut off: the
   commands executed are the first ones of the log, and the file is accepted exactly when the cut
   is between two commands. A log followed by something that is no command is executed and refused.
   */
  method LoadAppendOnlyFile(file: Text, ghost log: seq<Command>, ghost missing: Text, ghost junk: Text)
    returns (verdict: Verdict, executed: seq<Command>)
    ensures verdict == ZeroLength <==> file == []
    ensures LogStorable(log) && junk == [] && file + missing == EncodeAll(log) ==>
              && executed <= log
              && (verdict in {Loaded, ZeroLength} ==> file == EncodeAll(executed))
              && (verdict in {ReadError, FormatError} ==>
                    |executed| < |log| && |EncodeAll(executed)| < |file| < |EncodeAll(log[..|executed| + 1])|)
    ensures LogStorable(log) && junk != [] && junk[0] != STAR && file == EncodeAll(log) + junk ==>
              executed == log && verdict == FormatError
  {
    hide EncodeAll, Encode, LogStorable;
    executed := [];
    NoCommands();
    if file == [] {
      return ZeroLength, [];
    }
    ghost var lost := if junk == [] then missing else [];
    var rest := file;
    ghost var good := LogStorable(log) && file + lost == EncodeAll(log) + junk && (junk == [] || junk[0] != STAR);
    ghost var left := log;
    assert file + [] == file && EncodeAll(log) + [] == EncodeAll(log);
    while rest != []
      invariant good ==> InStep(file, log, lost, junk, executed, left, rest)
      decreases |rest|
    {
      ghost var c := if left == [] then [] else left[0];
      ghost var later := EncodeAll(if left == [] then [] else left[1..]) + junk;
      ghost var before := rest;
      if good {
        NextCommand(file, log, lost, junk, executed, left, rest);
      }
      var failure, cmd;
      failure, cmd, rest := ReadCommand(rest, lost, c, later);
      if failure.Some? {
        return failure.value, executed;
      }
      if good {
        CommandDone(file, log, lost, junk, executed, left, before, rest);
      }
      executed := executed + [cmd];
      if left != [] {
        left := left[1..];
      }
    }
    verdict := Loaded;
    if good {
      NothingLeft(file, log, lost, junk, executed, left);
    }
  }

  /** The commands `executed` have been read, `left` follow in the log, `rest` is what the file has of them and of what follows. */
  ghost predicate InStep(file: Text, log: seq<Command>, missing: Text, junk: Text, executed: seq<Command>, left: seq<Command>, rest: Text) {
    && LogStorable(log) && log == executed + left && (junk == [] || (missing == [] && junk[0] != STAR))
    && rest + missing == EncodeAll(left) + junk && file == EncodeAll(executed) + rest
  }

  lemma NothingLeft(file: Text, log: seq<Command>, missing: Text, junk: Text, executed: seq<Command>, left: seq<Command>)
    requires InStep(file, log, missing, junk, executed, left, [])
    ensures junk == [] && executed <= log && file == EncodeAll(executed)
  {
    hide EncodeAll;
    assert file == EncodeAll(executed) + [];
    assert [] + missing == missing;
  }

  lemma NextCommand(file: Text, log: seq<Command>, missing: Text, junk: Text, executed: seq<Command>, left: seq<Command>, rest: Text)
    requires InStep(file, log, missing, junk, executed, left, rest) && rest != []
    ensures left == [] ==> rest == junk && executed == log && junk != []
    ensures left != [] ==>
              && |executed| < |log| && LogStorable([left[0]]) && executed <= log
              && EncodeAll(left) + junk == Encode(left[0]) + (EncodeAll(left[1..]) + junk)
              && |EncodeAll(log[..|executed| + 1])| == |EncodeAll(executed)| + |Encode(left[0])|
              && |file| == |EncodeAll(executed)| + |rest|
              && (junk != [] ==> |rest| >= |Encode(left[0])|)
  {
    hide Encode;
    if left == [] {
      assert EncodeAll(left) + junk == junk;
      assert rest + [] == rest;
      assert executed + [] == executed;
      return;
    }
    var c := left[0];
    assert log[|executed|] == c;
    assert log[..|executed| + 1] == executed + [c];
    EncodeAllConcat(executed, [c]);
    EncodeOne(c);
    assert rest + [] == rest;
  }

  lemma CommandDone(file: Text, log: seq<Command>, missing: Text, junk: Text, executed: seq<Command>, left: seq<Command>, before: Text, rest: Text)
    requires InStep(file, log, missing, junk, executed, left, before) && left != []
    requires |before| >= |Encode(left[0])| && rest + missing == EncodeAll(left[1..]) + junk
    ensures InStep(file, log, missing, junk, executed + [left[0]], left[1..], rest)
  {
    hide Encode, EncodeAll, LogStorable;
    var c, later := left[0], EncodeAll(left[1..]) + junk;
    FirstOfLog(left, junk);
    CommonEnd(before, missing, Encode(c), rest, later);
    EncodeAllConcat(executed, [c]);
    EncodeOne(c);
  }

  lemma FirstOfLog(log: seq<Command>, junk: Text)
    requires log != []
    ensures EncodeAll(log) + junk == Encode(log[0]) + (EncodeAll(log[1..]) + junk)
  {
    hide Encode;
  }

  lemma CommonEnd(before: Text, missing: Text, first: Text, rest: Text, later: Text)
    requires before + missing == first + later && |before| >= |first| && rest + missing == later
    ensures before == first + rest
  {
    assert before == (before + missing)[..|before|] && (first + rest) + missing == first + later;
    assert first + rest == ((first + rest) + missing)[..|first + rest|];
  }
}
