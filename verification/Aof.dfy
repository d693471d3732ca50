/**
 The append only file of aof.c as a state machine: commands are logged in a buffer and, while a
 child rewrites the file, also in the rewrite buffer, until the rewritten file takes over.
 */
module Aof {
  import opened Bytes
  import opened Decimal
  import opened Requests
  import opened Keyspace
  import opened AofRewrite
  import opened AofBuffer

  datatype AofState = Off | On | WaitRewrite

  /** What `feedAppendOnlyFile` logs for a command, `SELECT` included if the database has changed. */
  ghost function Fed(selected: int, j: nat, cmd: Command, now: int): seq<Command> {
    (if j != selected then [SelectCommand(j)] else []) + Logged(cmd, now)
  }

  /** SELECT is logged only when the database changes. */
  lemma SelectOnlyOnChange(selected: int, j: nat, cmd: Command, now: int)
    ensures Fed(j, j, cmd, now) == Logged(cmd, now)
    ensures selected != j ==> Fed(selected, j, cmd, now) == [[Ascii("SELECT"), Show(j)]] + Logged(cmd, now)
  {
    hide Show, Logged;
    assert SELECT == Ascii("SELECT");
    assert [] + Logged(cmd, now) == Logged(cmd, now);
  }

  /** The log replays to the dataset, and leaves the selected database selected if there is one. */
  ghost predicate Restores(others: Others, log: seq<Command>, data: Dataset, selected: int) {
    |data| > 0 &&
    var st := Replay(others, State(NoKeys(|data|), 0), log);
    st.data == data && (selected >= 0 ==> st.db == selected)
  }

  /** Logging a command keeps the log in step with the dataset. */
  lemma FedRestores(others: Others, log: seq<Command>, data: Dataset, selected: int, j: nat, cmd: Command, now: int)
    requires Restores(others, log, data, selected) && Selectable(data) && j < |data|
    requires !IsSelect(cmd) && Printable(cmd, now)
    ensures Restores(others, log + Fed(selected, j, cmd, now), Execute(others, data, j, cmd, ReplayedAt(others, cmd, now)), j)
  {
    hide Replay, Perform, Execute, Logged, Translated, SelectCommand;
    var st := Replay(others, State(NoKeys(|data|), 0), log);
    var sel := if j != selected then [SelectCommand(j)] else [];
    ReplayConcat(others, State(NoKeys(|data|), 0), log, Fed(selected, j, cmd, now));
    ReplayConcat(others, st, sel, Logged(cmd, now));
    if j != selected {
      ReplayOne(others, st, SelectCommand(j));
      SelectSelects(others, st, j);
    } else {
      NothingReplays(others, st);
    }
    LoggedIsFaithful(others, data, j, cmd, now);
    assert st.(db := j) == State(data, j);
  }

  lemma AnySelected(others: Others, log: seq<Command>, data: Dataset, selected: int)
    requires Restores(others, log, data, selected)
    ensures Restores(others, log, data, -1)
  {
  }

  /**
   How what a log replays to is related to the live dataset: they have the same values under the same
   keys, if commands do not look at expire times, and they are equal as long as every reading of the
   clock was timely.
   */
  ghost predicate Near(others: Others, logged: Dataset, data: Dataset, timely: bool) {
    |logged| == |data| && (Oblivious(others) ==> SameValues(logged, data)) && (timely ==> logged == data)
  }

  /** A command executed at one time and logged at another one. */
  lemma NearStep(others: Others, logged: Dataset, data: Dataset, timely: bool, j: nat, cmd: Command, now: int, later: int)
    requires Near(others, logged, data, timely) && j < |data|
    ensures Near(others, Execute(others, logged, j, cmd, ReplayedAt(others, cmd, later)), Execute(others, data, j, cmd, now),
                 timely && InTime(others, data, j, cmd, now, later))
    ensures timely ==> (Execute(others, logged, j, cmd, ReplayedAt(others, cmd, later)) == Execute(others, data, j, cmd, now)
                        <==> InTime(others, data, j, cmd, now, later))
  {
    hide Execute, InTime, Oblivious, SameValues;
    InTimeMeans(others, data, j, cmd, now, later);
    if Oblivious(others) {
      ExecuteKeepsSame(others, logged, data, j, cmd, ReplayedAt(others, cmd, later), now);
    }
  }

  /** A log in two parts that replays to `logged`, with that database selected, and stays near the live dataset. */
  ghost predicate Keeps(others: Others, log: seq<Command>, tail: seq<Command>, logged: Dataset, data: Dataset, timely: bool,
                        selected: int)
  {
    Restores(others, log + tail, logged, selected) && Near(others, logged, data, timely)
  }

  /** Executing a command and logging it, perhaps later, keeps the log near the dataset. */
  lemma KeepsStep(others: Others, log: seq<Command>, tail: seq<Command>, logged: Dataset, data: Dataset, timely: bool,
                  selected: int, j: nat, cmd: Command, now: int, later: int)
    requires Keeps(others, log, tail, logged, data, timely, selected) && Selectable(data) && j < |data|
    requires !IsSelect(cmd) && Printable(cmd, later)
    ensures |logged| == |data|
    ensures Keeps(others, log, tail + Fed(selected, j, cmd, later), Execute(others, logged, j, cmd, ReplayedAt(others, cmd, later)),
                  Execute(others, data, j, cmd, now), timely && InTime(others, data, j, cmd, now, later), j)
    ensures timely ==> (Execute(others, logged, j, cmd, ReplayedAt(others, cmd, later)) == Execute(others, data, j, cmd, now)
                        <==> InTime(others, data, j, cmd, now, later))
  {
    NearLength(others, logged, data, timely);
    hide Restores, Near, Execute, Fed, InTime;
    FedRestores(others, log + tail, logged, selected, j, cmd, later);
    assert log + tail + Fed(selected, j, cmd, later) == log + (tail + Fed(selected, j, cmd, later));
    NearStep(others, logged, data, timely, j, cmd, now, later);
  }

  lemma KeepsAny(others: Others, log: seq<Command>, tail: seq<Command>, logged: Dataset, data: Dataset, timely: bool, selected: int)
    requires Keeps(others, log, tail, logged, data, timely, selected)
    ensures Keeps(others, log, tail, logged, data, timely, -1)
  {
    hide Near;
    AnySelected(others, log + tail, logged, selected);
  }

  /** The parts put together. */
  lemma KeepsJoined(others: Others, log: seq<Command>, tail: seq<Command>, logged: Dataset, data: Dataset, timely: bool, selected: int)
    requires Keeps(others, log, tail, logged, data, timely, selected)
    ensures Keeps(others, log + tail, [], logged, data, timely, selected)
  {
    hide Near;
    assert log + tail + [] == log + tail;
  }

  /** The rewrite of a dataset replays to its values, and to itself when no key had expired. */
  lemma RewriteKeeps(others: Others, d: Dataset, dbs: seq<seq<Item>>, now: int) returns (logged: Dataset)
    requires 0 < |d| && Selectable(d) && ListsAll(dbs, d)
    ensures Keeps(others, LogFrom(dbs, 0, now), [], logged, d, NoneExpired(d, now), -1)
    ensures logged == d <==> NoneExpired(d, now)
  {
    hide Replay, LogFrom, ListsAll, NoneExpired, Oblivious;
    RewriteIsFaithful(others, d, dbs, now);
    RewriteRestores(others, d, dbs, now);
    logged := Replay(others, State(NoKeys(|d|), 0), LogFrom(dbs, 0, now)).data;
    assert LogFrom(dbs, 0, now) + [] == LogFrom(dbs, 0, now);
  }

  /** `catAppendOnlyGenericCommand`. */
  method CatAppendOnlyGenericCommand(dst: Text, argv: Command) returns (out: Text)
    requires |argv| <= LLONG_MAX && forall a :: a in argv ==> |a| <= LLONG_MAX
    ensures out == dst + Encode(argv)
  {
    hide EncodeBulk, Show;
    var buf := new u8[31](_ => 0);
    LongLongLength(|argv|);
    var len := Ll2string(buf, 31, |argv|);
    assert buf[..len] == Show(|argv|);
    out := dst + ([STAR] + buf[..len] + CRLF);
    ghost var start := out;
    var j := 0;
    while j < |argv|
      invariant 0 <= j <= |argv| && out == start + EncodeBulks(argv[..j])
    {
      out := CatBulk(out, argv[j]);
      assert argv[..j + 1] == argv[..j] + [argv[j]];
      BulksConcat(argv[..j], [argv[j]]);
      OneBulk(argv[j]);
      j := j + 1;
    }
    assert argv[..j] == argv;
  }

  method CatBulk(dst: Text, a: Text) returns (out: Text)
    requires |a| <= LLONG_MAX
    ensures out == dst + EncodeBulk(a)
  {
    hide Show;
    var buf := new u8[31](_ => 0);
    LongLongLength(|a|);
    var len := Ll2string(buf, 31, |a|);
    assert buf[..len] == Show(|a|);
    out := dst + ([DOLLAR] + buf[..len] + CRLF) + a + CRLF;
  }

  predicate Storable(cmd: Command) {
    0 < |cmd| <= LLONG_MAX && forall a :: a in cmd ==> |a| <= LLONG_MAX
  }

  /** `catAppendOnlyExpireAtCommand`. */
  method CatAppendOnlyExpireAtCommand(dst: Text, verb: Text, key: Text, n: int, now: int) returns (out: Text)
    requires |key| <= LLONG_MAX && InRange(When(verb, n, now))
    ensures out == dst + Encode([PEXPIREAT, key, Show(When(verb, n, now))])
    ensures verb == EXPIREAT ==> out == dst + Encode([PEXPIREAT, key, Show(1000 * n)])
    ensures verb == EXPIRE || verb == SETEX ==> out == dst + Encode([PEXPIREAT, key, Show(now + 1000 * n)])
    ensures verb == PEXPIRE || verb == PSETEX ==> out == dst + Encode([PEXPIREAT, key, Show(now + n)])
  {
    hide Show, Encode;
    assert |EXPIRE| == 6 && |PEXPIRE| == 7 && |EXPIREAT| == 8 && |SETEX| == 5 && |PSETEX| == 6;
    assert PSETEX[0] != EXPIRE[0];
    var when := n;
    if InSeconds(verb) {
      when := when * 1000;
    }
    if IsRelative(verb) {
      when := when + now;
    }
    LongLongLength(when);
    out := CatAppendOnlyGenericCommand(dst, [PEXPIREAT, key, Show(when)]);
  }

  /** The bytes `feedAppendOnlyFile` appends to its buffers. */
  method FedBytes(selected: int, j: nat, cmd: Command, now: int) returns (buf: Text)
    requires Storable(cmd) && Printable(cmd, now) && j <= LLONG_MAX
    ensures buf == EncodeAll(Fed(selected, j, cmd, now))
  {
    hide Encode, EncodeAll, Show, Strtoll, Translated;
    buf := [];
    ghost var sel := if j != selected then [SelectCommand(j)] else [];
    EncodeAllConcat(sel, Logged(cmd, now));
    NoCommands();
    if j != selected {
      EncodeOne(SelectCommand(j));
      LongLongLength(j);
      buf := CatAppendOnlyGenericCommand(buf, SelectCommand(j));
    }
    assert buf == EncodeAll(sel);
    buf := CatTranslated(buf, cmd, now);
  }

  method CatTranslated(dst: Text, cmd: Command, now: int) returns (buf: Text)
    requires Storable(cmd) && Printable(cmd, now)
    ensures buf == dst + EncodeAll(Logged(cmd, now))
  {
    hide Encode, EncodeAll, Show, Strtoll;
    if !Translated(cmd) {
      buf := CatAppendOnlyGenericCommand(dst, cmd);
      EncodeOne(cmd);
      return;
    }
    var n := Strtoll(cmd[2]).value;
    ghost var set_, at := [SET, cmd[1], cmd[|cmd| - 1]], [PEXPIREAT, cmd[1], Show(When(cmd[0], n, now))];
    EncodeOne(at);
    if |cmd| == 3 {
      buf := CatAppendOnlyExpireAtCommand(dst, cmd[0], cmd[1], n, now);
    } else {
      buf := CatAppendOnlyGenericCommand(dst, [SET, cmd[1], cmd[3]]);
      buf := CatAppendOnlyExpireAtCommand(buf, cmd[0], cmd[1], n, now);
      EncodeOne(set_);
      EncodeAllConcat([set_], [at]);
      assert [set_] + [at] == [set_, at];
    }
  }

  /** How writing the new file can end after the child has succeeded. */
  datatype Outcome = Renamed | CannotOpen | CannotWrite | CannotRename

  class Server {
    const others: Others
    const rewriteBuf: RewriteBuffer
    ghost var data: Dataset
    var aofState: AofState
    var selectedDb: int
    /** Logged commands that have not been written to the file yet. */
    var aofBuf: Text
    /** What the append only file holds. */
    var file: Text
    /** While a child is rewriting: what its file will hold. */
    var child: Option<Text>
    var rewriteScheduled: bool

    /** The commands in the file, in the buffer, in the file of the child and in the rewrite buffer. */
    ghost var fileLog: seq<Command>
    ghost var bufLog: seq<Command>
    ghost var childLog: seq<Command>
    ghost var diffLog: seq<Command>

    /** What the first two replay to, and the last two, and whether all clock readings behind them were timely. */
    ghost var logged: Dataset
    ghost var childLogged: Dataset
    ghost var timely: bool
    ghost var childTimely: bool

    ghost predicate Valid()
      reads this, rewriteBuf, rewriteBuf.repr
    {
      && rewriteBuf.Valid() && this !in rewriteBuf.repr
      && |data| > 0 && Selectable(data) && -1 <= selectedDb < |data|
      && file == EncodeAll(fileLog) && aofBuf == EncodeAll(bufLog) && rewriteBuf.contents == EncodeAll(diffLog)
      && (aofState == On ==> Keeps(others, fileLog, bufLog, logged, data, timely, selectedDb))
      && (aofState != On ==> bufLog == [])
      && (child.None? ==> diffLog == [])
      && (child.Some? ==> child.value == EncodeAll(childLog))
      && (child.Some? && aofState != Off ==>
            Keeps(others, childLog, diffLog, childLogged, data, childTimely, selectedDb))
    }

    constructor (others: Others, dbnum: nat, on: bool)
      requires 0 < dbnum <= LLONG_MAX
      ensures Valid() && data == NoKeys(dbnum) && fresh(rewriteBuf) && fresh(rewriteBuf.repr) && child.None?
    {
      hide EncodeAll, Keeps, RewriteBuffer.Valid;
      this.others := others;
      rewriteBuf := new RewriteBuffer();
      data, aofState, selectedDb := NoKeys(dbnum), if on then On else Off, -1;
      aofBuf, file, child, rewriteScheduled := [], [], None, false;
      fileLog, bufLog, childLog, diffLog := [], [], [], [];
      logged, childLogged, timely, childTimely := NoKeys(dbnum), [], true, false;
      new;
      NoCommands();
      NothingLogged(others, data);
    }

    /**
     At every moment the file and what is buffered for it replay to the live dataset up to expire
     times, and to the dataset itself as long as every command was in time. The time of loading,
     `others.at`, is arbitrary.
     */
    lemma LogIsDataset()
      requires Valid() && aofState == On
      ensures file + aofBuf == EncodeAll(fileLog + bufLog)
      ensures var replayed := Replay(others, State(NoKeys(|data|), 0), fileLog + bufLog).data;
              && replayed == logged && (timely ==> replayed == data)
              && (Oblivious(others) ==> SameValues(replayed, data))
    {
      hide SameValues, Oblivious;
      EncodeAllConcat(fileLog, bufLog);
    }

    /**
     `call` and `propagate`: executes a command in database `j`, reading the clock as `now`, and if it
     has changed the dataset logs it, reading the clock as `later`.
     */
    method Call(j: nat, cmd: Command, now: int, later: int, dirty: bool)
      requires Valid() && j < |data| && Storable(cmd) && !IsSelect(cmd) && Printable(cmd, later)
      requires dirty || Execute(others, data, j, cmd, now) == data
      modifies this, rewriteBuf, rewriteBuf.repr
      ensures Valid() && data == Execute(others, old(data), j, cmd, now)
      ensures aofState == old(aofState) && child == old(child) && file == old(file)
      ensures if dirty && aofState == On then
                && timely == (old(timely) && InTime(others, old(data), j, cmd, now, later))
                && (old(timely) ==> (logged == data <==> InTime(others, old(data), j, cmd, now, later)))
              else timely == old(timely) && logged == old(logged)
      ensures if dirty && aofState != Off && child.Some? then
                && childTimely == (old(childTimely) && InTime(others, old(data), j, cmd, now, later))
                && (old(childTimely) ==> (childLogged == data <==> InTime(others, old(data), j, cmd, now, later)))
              else childTimely == old(childTimely) && childLogged == old(childLogged)
      ensures fresh(rewriteBuf.repr - old(rewriteBuf.repr))
    {
      hide EncodeAll, Keeps, Execute, RewriteBuffer.Valid, Printable, Storable, InTime;
      StillSelectable(others, data, j, cmd, now);
      if dirty && aofState != Off {
        FeedAppendOnlyFile(j, cmd, later, now);
      } else {
        data := Execute(others, data, j, cmd, now);
      }
    }

    /** `feedAppendOnlyFile` at time `later`, with the ghost datasets following the command executed at time `now`. */
    method FeedAppendOnlyFile(j: nat, cmd: Command, later: int, ghost now: int)
      requires Valid() && aofState != Off && j < |data| && Storable(cmd) && !IsSelect(cmd) && Printable(cmd, later)
      modifies this`data, this`selectedDb, this`aofBuf, this`bufLog, this`diffLog, rewriteBuf, rewriteBuf.repr
      modifies this`logged, this`childLogged, this`timely, this`childTimely
      ensures Valid() && data == Execute(others, old(data), j, cmd, now) && selectedDb == j
      ensures if aofState == On then
                && timely == (old(timely) && InTime(others, old(data), j, cmd, now, later))
                && (old(timely) ==> (logged == data <==> InTime(others, old(data), j, cmd, now, later)))
              else timely == old(timely) && logged == old(logged)
      ensures if child.Some? then
                && childTimely == (old(childTimely) && InTime(others, old(data), j, cmd, now, later))
                && (old(childTimely) ==> (childLogged == data <==> InTime(others, old(data), j, cmd, now, later)))
              else childTimely == old(childTimely) && childLogged == old(childLogged)
      ensures fresh(rewriteBuf.repr - old(rewriteBuf.repr))
    {
      hide EncodeAll, Keeps, Fed, Execute, InTime, RewriteBuffer.Valid, Storable, Printable;
      var buf := FedBytes(selectedDb, j, cmd, later);
      ghost var fed, data' := Fed(selectedDb, j, cmd, later), Execute(others, data, j, cmd, now);
      ghost var inTime := InTime(others, data, j, cmd, now, later);
      ghost var logged', childLogged' := logged, childLogged;
      if aofState == On {
        KeepsStep(others, fileLog, bufLog, logged, data, timely, selectedDb, j, cmd, now, later);
        logged', timely := Execute(others, logged, j, cmd, ReplayedAt(others, cmd, later)), timely && inTime;
      }
      if child.Some? {
        KeepsStep(others, childLog, diffLog, childLogged, data, childTimely, selectedDb, j, cmd, now, later);
        childLogged', childTimely := Execute(others, childLogged, j, cmd, ReplayedAt(others, cmd, later)), childTimely && inTime;
      }
      StillSelectable(others, data, j, cmd, now);
      Append(buf, fed, data', logged', childLogged', j);
    }

    /** Appends what is fed; the ghost datasets are those that the logs then replay to. */
    method Append(buf: Text, ghost fed: seq<Command>, ghost data': Dataset, ghost logged': Dataset, ghost childLogged': Dataset, j: nat)
      requires rewriteBuf.Valid() && this !in rewriteBuf.repr && aofState != Off && buf == EncodeAll(fed)
      requires aofBuf == EncodeAll(bufLog) && rewriteBuf.contents == EncodeAll(diffLog) && file == EncodeAll(fileLog)
      requires (aofState != On ==> bufLog == []) && (child.None? ==> diffLog == []) && (child.Some? ==> child.value == EncodeAll(childLog))
      requires j < |data'| && Selectable(data')
      requires aofState == On ==> Keeps(others, fileLog, bufLog + fed, logged', data', timely, j)
      requires child.Some? ==> Keeps(others, childLog, diffLog + fed, childLogged', data', childTimely, j)
      modifies this`data, this`selectedDb, this`aofBuf, this`bufLog, this`diffLog, this`logged, this`childLogged
      modifies rewriteBuf, rewriteBuf.repr
      ensures Valid() && data == data' && selectedDb == j && logged == logged' && childLogged == childLogged'
      ensures fresh(rewriteBuf.repr - old(rewriteBuf.repr))
    {
      hide EncodeAll, Keeps, RewriteBuffer.Valid;
      selectedDb, data, logged, childLogged := j, data', logged', childLogged';
      AppendBytes(buf, fed);
    }

    /** Appends to the buffer of the file and to the rewrite buffer. */
    method AppendBytes(buf: Text, ghost fed: seq<Command>)
      requires rewriteBuf.Valid() && this !in rewriteBuf.repr && buf == EncodeAll(fed)
      requires aofBuf == EncodeAll(bufLog) && rewriteBuf.contents == EncodeAll(diffLog)
      modifies this`aofBuf, this`bufLog, this`diffLog, rewriteBuf, rewriteBuf.repr
      ensures rewriteBuf.Valid() && this !in rewriteBuf.repr && fresh(rewriteBuf.repr - old(rewriteBuf.repr))
      ensures aofBuf == EncodeAll(bufLog) && rewriteBuf.contents == EncodeAll(diffLog)
      ensures bufLog == if aofState == On then old(bufLog) + fed else old(bufLog)
      ensures diffLog == if child.Some? then old(diffLog) + fed else old(diffLog)
    {
      hide EncodeAll, RewriteBuffer.Valid;
      EncodeAllConcat(bufLog, fed);
      EncodeAllConcat(diffLog, fed);
      if aofState == On {
        aofBuf, bufLog := aofBuf + buf, bufLog + fed;
      }
      if child.Some? {
        rewriteBuf.Append(buf);
        diffLog := diffLog + fed;
      }
    }

    /** `flushAppendOnlyFile`, when it is not postponed and the write is complete. */
    method FlushAppendOnlyFile()
      requires Valid()
      modifies this`file, this`aofBuf, this`fileLog, this`bufLog
      ensures Valid() && file == old(file + aofBuf) && aofBuf == [] && bufLog == []
    {
      hide EncodeAll, Keeps, RewriteBuffer.Valid;
      EncodeAllConcat(fileLog, bufLog);
      NoCommands();
      if aofState == On {
        KeepsJoined(others, fileLog, bufLog, logged, data, timely, selectedDb);
      }
      file, aofBuf := file + aofBuf, [];
      fileLog, bufLog := fileLog + bufLog, [];
    }

    lemma AnyDatabase()
      requires Valid()
      ensures aofState == On ==> Keeps(others, fileLog, bufLog, logged, data, timely, -1)
    {
      hide EncodeAll, Keeps, RewriteBuffer.Valid;
      if aofState == On {
        KeepsAny(others, fileLog, bufLog, logged, data, timely, selectedDb);
      }
    }

    /** The child: what it writes for the dataset as it is at the fork. */
    method ChildRewrites(dbs: seq<seq<Item>>, now: int) returns (out: Text, ghost log: seq<Command>, ghost restored: Dataset)
      requires |data| > 0 && Selectable(data) && ListsAll(dbs, data)
      ensures out == EncodeAll(log) && Keeps(others, log, [], restored, data, NoneExpired(data, now), -1)
      ensures restored == data <==> NoneExpired(data, now)
    {
      hide EncodeAll, LogFrom, NoneExpired, Keeps, Lists;
      IterationsOf(dbs, data);
      out := RewriteAppendOnlyFile(dbs, now);
      log := LogFrom(dbs, 0, now);
      restored := RewriteKeeps(others, data, dbs, now);
    }

    /**
     `rewriteAppendOnlyFileBackground`: forks a child that rewrites the dataset as it is now. `dbs`
     is what iterating over the databases yields. `aof_selected_db = -1` makes the next command
     fed start with `SELECT`, so that the rewrite buffer can be replayed after the child's file.
     */
    method RewriteAppendOnlyFileBackground(dbs: seq<seq<Item>>, now: int, forked: bool) returns (ok: bool)
      requires Valid() && ListsAll(dbs, data)
      modifies this`child, this`childLog, this`selectedDb, this`rewriteScheduled, this`childLogged, this`childTimely
      ensures Valid() && ok == (old(child).None? && forked)
      ensures ok ==>
                && child.Some? && Keeps(others, childLog, diffLog, childLogged, data, childTimely, selectedDb)
                && childTimely == NoneExpired(data, now) && (childLogged == data <==> NoneExpired(data, now))
      ensures !ok ==> child == old(child) && selectedDb == old(selectedDb)
      ensures rewriteScheduled == (!ok && old(rewriteScheduled))
    {
      hide EncodeAll, NoneExpired, Keeps, RewriteBuffer.Valid, ListsAll;
      if child.Some? || !forked {
        return false;
      }
      var out;
      ghost var log, restored;
      out, log, restored := ChildRewrites(dbs, now);
      AnyDatabase();
      rewriteScheduled, child, selectedDb := false, Some(out), -1;
      childLog, childLogged, childTimely := log, restored, NoneExpired(data, now);
      ok := true;
    }

    /** `startAppendOnly`. */
    method StartAppendOnly(dbs: seq<seq<Item>>, now: int, forked: bool) returns (ok: bool)
      requires Valid() && aofState == Off && ListsAll(dbs, data)
      modifies this`child, this`childLog, this`selectedDb, this`rewriteScheduled, this`aofState, this`childLogged, this`childTimely
      ensures Valid() && ok == (old(child).None? && forked)
      ensures aofState == if ok then WaitRewrite else Off
      ensures ok ==> (childLogged == data <==> NoneExpired(data, now))
    {
      hide EncodeAll, Keeps, RewriteBuffer.Valid, ListsAll, NoneExpired;
      ok := RewriteAppendOnlyFileBackground(dbs, now, forked);
      if ok {
        aofState := WaitRewrite;
      }
    }

    /** `stopAppendOnly`: flushes, and kills a child that is rewriting. */
    method StopAppendOnly()
      requires Valid() && aofState != Off
      modifies this, rewriteBuf
      ensures Valid() && aofState == Off && child.None? && data == old(data) && file == old(file + aofBuf)
    {
      hide EncodeAll, Keeps, RewriteBuffer.Valid;
      FlushAppendOnlyFile();
      selectedDb, aofState := -1, Off;
      if child.Some? {
        rewriteBuf.Reset();
        NoCommands();
        child, diffLog := None, [];
      }
      assert bufLog == [];
    }

    /**
     `backgroundRewriteDoneHandler`: a rewritten file that could be completed and renamed becomes the
     append only file, and what was buffered for the old file is dropped, the rewrite buffer having it too.
     */
    method BackgroundRewriteDoneHandler(exitedWell: bool, outcome: Outcome)
      requires Valid() && child.Some?
      modifies this, rewriteBuf
      ensures Valid() && child.None? && data == old(data)
      ensures aofState == if exitedWell && outcome == Renamed && old(aofState) == WaitRewrite then On else old(aofState)
      ensures !(exitedWell && outcome == Renamed) ==> file == old(file) && aofBuf == old(aofBuf)
      ensures exitedWell && outcome == Renamed ==> file == old(child).value + old(rewriteBuf.contents)
      ensures if exitedWell && outcome == Renamed && aofState == On then logged == old(childLogged) && timely == old(childTimely)
              else logged == old(logged) && timely == old(timely)
      ensures aofState == WaitRewrite ==> rewriteScheduled
    {
      hide EncodeAll, Keeps, RewriteBuffer.Valid;
      if exitedWell && outcome == Renamed {
        var diff := rewriteBuf.Write();
        SwitchTo(child.value + diff);
      }
      rewriteBuf.Reset();
      NoCommands();
      child, diffLog := None, [];
      if aofState == WaitRewrite {
        rewriteScheduled := true;
      }
    }

    /** The log of the completed file, and what it and its parts keep when no database is taken to be selected. */
    lemma NewLog() returns (whole: seq<Command>)
      requires Valid() && child.Some?
      ensures child.value + rewriteBuf.contents == EncodeAll(whole)
      ensures aofState != Off ==>
                && Keeps(others, whole, [], childLogged, data, childTimely, -1)
                && Keeps(others, childLog, diffLog, childLogged, data, childTimely, -1)
    {
      hide EncodeAll, Keeps, RewriteBuffer.Valid;
      EncodeAllConcat(childLog, diffLog);
      whole := childLog + diffLog;
      if aofState != Off {
        KeepsAny(others, childLog, diffLog, childLogged, data, childTimely, selectedDb);
        KeepsJoined(others, childLog, diffLog, childLogged, data, childTimely, -1);
      }
    }

    /** The completed file is renamed over the append only file. */
    method SwitchTo(newFile: Text)
      requires Valid() && child.Some? && newFile == child.value + rewriteBuf.contents
      modifies this`file, this`selectedDb, this`aofBuf, this`aofState, this`fileLog, this`bufLog, this`logged, this`timely
      ensures if aofState != Off then logged == childLogged && timely == childTimely else logged == old(logged) && timely == old(timely)
      ensures Valid() && file == newFile && aofState == if old(aofState) == Off then Off else On
      ensures aofState != Off ==> aofBuf == [] && selectedDb == -1
    {
      hide EncodeAll, Keeps, RewriteBuffer.Valid;
      NoCommands();
      ghost var whole := NewLog();
      file, fileLog := newFile, whole;
      if aofState != Off {
        logged, timely := childLogged, childTimely;
        selectedDb, aofBuf, bufLog := -1, [], [];
        aofState := On;
      }
    }
  }

  lemma NothingLogged(others: Others, data: Dataset)
    requires 0 < |data| && data == NoKeys(|data|)
    ensures Keeps(others, [], [], data, data, true, -1)
  {
    var none: seq<Command> := [];
    assert none + none == none;
    NothingReplays(others, State(data, 0));
  }

  lemma NearLength(others: Others, logged: Dataset, data: Dataset, timely: bool)
    requires Near(others, logged, data, timely)
    ensures |logged| == |data| && (Selectable(data) ==> Selectable(logged))
  {
  }

  lemma IterationsOf(dbs: seq<seq<Item>>, d: Dataset)
    requires ListsAll(dbs, d)
    ensures forall j, i :: 0 <= j < |dbs| && 0 <= i < |dbs[j]| ==> Iterates(dbs[j][i].value, dbs[j][i].items)
  {
  }

  lemma StillSelectable(others: Others, d: Dataset, j: nat, cmd: Command, now: int)
    requires Selectable(d) && j < |d|
    ensures var d' := Execute(others, d, j, cmd, now); |d'| == |d| && Selectable(d')
  {
  }
}
