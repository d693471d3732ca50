/**
 The dataset and what the commands written to logs do to it. Commands that the logs treat specially
 are defined here; every other command is an arbitrary function of the dataset.
 */
module Keyspace {
  import opened Bytes
  import opened Decimal
  import opened Requests

  datatype Value =
    | Str(text: Text)
    | List(items: seq<Text>)
    | Set(members: set<Text>)
    | Hash(fields: map<Text, Text>)

  /** A key's value and the absolute time, in milliseconds, at which it expires. */
  datatype Entry = Entry(value: Value, expire: Option<int>)

  type Db = map<Text, Entry>

  /** One map for each of the configured databases. */
  type Dataset = seq<Db>

  /**
   What is not defined here: what the other commands do in a given database, the value that a dump
   payload holds if it is accepted, and the clock as it is read while a log is loaded.
   */
  datatype Others = Others(run: (nat, Command, Dataset) -> Dataset, payload: Text -> Option<Value>, at: int)

  const SELECT: Text := [83, 69, 76, 69, 67, 84]
  /** The same name as it is sent to slaves; names are looked up without regard to case. */
  const SELECT_TO_SLAVES: Text := [115, 101, 108, 101, 99, 116]
  const SET: Text := [83, 69, 84]
  const RPUSH: Text := [82, 80, 85, 83, 72]
  const SADD: Text := [83, 65, 68, 68]
  const HMSET: Text := [72, 77, 83, 69, 84]
  const EXPIRE: Text := [69, 88, 80, 73, 82, 69]
  const PEXPIRE: Text := [80, 69, 88, 80, 73, 82, 69]
  const EXPIREAT: Text := [69, 88, 80, 73, 82, 69, 65, 84]
  const PEXPIREAT: Text := [80, 69, 88, 80, 73, 82, 69, 65, 84]
  const SETEX: Text := [83, 69, 84, 69, 88]
  const PSETEX: Text := [80, 83, 69, 84, 69, 88]
  const RESTORE: Text := [82, 69, 83, 84, 79, 82, 69]

  // ------------------------------------------------------------------
  // Single commands
  // ------------------------------------------------------------------

  function Pushed(db: Db, key: Text, items: seq<Text>): Db {
    if key !in db then db[key := Entry(List(items), None)]
    else match db[key].value
      case List(held) => db[key := db[key].(value := List(held + items))]
      case _ => db
  }

  function Added(db: Db, key: Text, items: seq<Text>): Db {
    if key !in db then db[key := Entry(Set(set x | x in items), None)]
    else match db[key].value
      case Set(held) => db[key := db[key].(value := Set(held + set x | x in items))]
      case _ => db
  }

  /** Fields and values one after the other, later ones replacing earlier ones. */
  function Fields(m: map<Text, Text>, args: seq<Text>): map<Text, Text>
    decreases |args|
  {
    if |args| < 2 then m else Fields(m[args[0] := args[1]], args[2..])
  }

  function FieldsSet(db: Db, key: Text, args: seq<Text>): Db {
    if key !in db then db[key := Entry(Hash(Fields(map[], args)), None)]
    else match db[key].value
      case Hash(held) => db[key := db[key].(value := Hash(Fields(held, args)))]
      case _ => db
  }

  function ExpireSet(db: Db, key: Text, when: int): Db {
    if key in db then db[key := db[key].(expire := Some(when))] else db
  }

  function StringSet(db: Db, key: Text, v: Text): Db {
    db[key := Entry(Str(v), None)]
  }

  /** The commands of rewritten logs, by name and arity; `None` for any other command. */
  ghost function Known(db: Db, cmd: Command): Option<Db> {
    if |cmd| < 3 then None
    else if cmd[0] == SET && |cmd| == 3 then Some(StringSet(db, cmd[1], cmd[2]))
    else if cmd[0] == RPUSH then Some(Pushed(db, cmd[1], cmd[2..]))
    else if cmd[0] == SADD then Some(Added(db, cmd[1], cmd[2..]))
    else if cmd[0] == HMSET && |cmd| % 2 == 0 then Some(FieldsSet(db, cmd[1], cmd[2..]))
    else if cmd[0] == PEXPIREAT && |cmd| == 3 && Strtoll(cmd[2]).Some? then Some(ExpireSet(db, cmd[1], Strtoll(cmd[2]).value))
    else None
  }

  predicate IsRestore(cmd: Command) {
    |cmd| == 4 && cmd[0] == RESTORE
  }

  /** RESTORE creates the key: it is new, and the time to live and the payload are in order. */
  predicate Restorable(others: Others, db: Db, cmd: Command)
    requires IsRestore(cmd)
  {
    && cmd[1] !in db && Strtoll(cmd[2]).Some? && Strtoll(cmd[2]).value >= 0
    && others.payload(cmd[3]).Some?
  }

  /** `restoreCommand` at time `t`: a time to live of 0 is none, any other one counts from now. */
  function RestoreAt(others: Others, db: Db, cmd: Command, t: int): Db
    requires IsRestore(cmd)
  {
    if !Restorable(others, db, cmd) then db
    else
      var ttl := Strtoll(cmd[2]).value;
      db[cmd[1] := Entry(others.payload(cmd[3]).value, if ttl == 0 then None else Some(t + ttl))]
  }

  /** A command executed while a log is loaded, when no key is taken to have expired. */
  ghost function Apply(others: Others, d: Dataset, j: nat, cmd: Command): (d': Dataset)
    requires j < |d|
    ensures |d'| == |d|
  {
    match Known(d[j], cmd)
    case Some(db) => d[j := db]
    case None =>
      if IsRestore(cmd) then d[j := RestoreAt(others, d[j], cmd, others.at)]
      else
        var r := others.run(j, cmd, d);
        if |r| == |d| then r else d
  }

  predicate IsSelect(cmd: Command) {
    |cmd| == 2 && (cmd[0] == SELECT || cmd[0] == SELECT_TO_SLAVES)
  }

  datatype State = State(data: Dataset, db: nat)

  /** One command of a log; `SELECT` of a database that does not exist changes nothing. */
  ghost function Perform(others: Others, st: State, cmd: Command): (st': State)
    requires st.db < |st.data|
    ensures |st'.data| == |st.data| && st'.db < |st'.data|
  {
    if IsSelect(cmd) then
      match Read(cmd[1])
      case Some(n) => if 0 <= n < |st.data| then st.(db := n) else st
      case None => st
    else st.(data := Apply(others, st.data, st.db, cmd))
  }

  ghost function Replay(others: Others, st: State, cmds: seq<Command>): (st': State)
    requires st.db < |st.data|
    ensures |st'.data| == |st.data| && st'.db < |st'.data|
    decreases |cmds|
  {
    if cmds == [] then st else Replay(others, Perform(others, st, cmds[0]), cmds[1..])
  }

  lemma {:induction false} ReplayConcat(others: Others, st: State, a: seq<Command>, b: seq<Command>)
    requires st.db < |st.data|
    ensures Replay(others, st, a + b) == Replay(others, Replay(others, st, a), b)
    decreases |a|
  {
    if a == [] {
      assert a + b == b;
    } else {
      ReplayConcat(others, Perform(others, st, a[0]), a[1..], b);
      assert (a + b)[0] == a[0] && (a + b)[1..] == a[1..] + b;
    }
  }

  lemma ReplayOne(others: Others, st: State, cmd: Command)
    requires st.db < |st.data|
    ensures Replay(others, st, [cmd]) == Perform(others, st, cmd)
  {
    assert [cmd][1..] == [];
  }

  function SelectCommand(j: nat): Command {
    [SELECT, Show(j)]
  }

  /** The database number fits the argument of `SELECT`. */
  predicate Selectable(d: Dataset) {
    |d| <= LLONG_MAX
  }

  lemma SelectSelects(others: Others, st: State, j: nat)
    requires st.db < |st.data| && j < |st.data| && Selectable(st.data)
    ensures Perform(others, st, SelectCommand(j)) == st.(db := j)
    ensures Perform(others, st, [SELECT_TO_SLAVES, Show(j)]) == st.(db := j)
  {
    ReadShow(j);
  }

  // ------------------------------------------------------------------
  // Commands that are logged in another form
  // ------------------------------------------------------------------

  function IsRelative(verb: Text): bool {
    verb in {EXPIRE, PEXPIRE, SETEX, PSETEX}
  }

  function InSeconds(verb: Text): bool {
    verb in {EXPIRE, SETEX, EXPIREAT}
  }

  /** The absolute time `catAppendOnlyExpireAtCommand` computes from its argument at time `now`. */
  function When(verb: Text, n: int, now: int): int {
    (if InSeconds(verb) then n * 1000 else n) + (if IsRelative(verb) then now else 0)
  }

  /** The translated commands, with arguments that have been found in order when they were executed. */
  predicate Translated(cmd: Command) {
    || (|cmd| == 3 && cmd[0] in {EXPIRE, PEXPIRE, EXPIREAT} && Strtoll(cmd[2]).Some?)
    || (|cmd| == 4 && cmd[0] in {SETEX, PSETEX} && Strtoll(cmd[2]).Some? && Strtoll(cmd[2]).value > 0)
  }

  /** What a client's command does when it is executed at time `now`. */
  ghost function Execute(others: Others, d: Dataset, j: nat, cmd: Command, now: int): (d': Dataset)
    requires j < |d|
    ensures |d'| == |d|
  {
    if Translated(cmd) then
      var when := When(cmd[0], Strtoll(cmd[2]).value, now);
      if |cmd| == 3 then d[j := ExpireSet(d[j], cmd[1], when)]
      else d[j := d[j][cmd[1] := Entry(Str(cmd[3]), Some(when))]]
    else if IsRestore(cmd) then d[j := RestoreAt(others, d[j], cmd, now)]
    else Apply(others, d, j, cmd)
  }

  /** The commands logged for it when the clock is read as `now`. */
  function Logged(cmd: Command, now: int): seq<Command> {
    if Translated(cmd) then
      var at := [PEXPIREAT, cmd[1], Show(When(cmd[0], Strtoll(cmd[2]).value, now))];
      if |cmd| == 3 then [at] else [[SET, cmd[1], cmd[3]], at]
    else [cmd]
  }

  /** The expire time can be printed as a long long. */
  predicate Printable(cmd: Command, now: int) {
    Translated(cmd) ==> InRange(When(cmd[0], Strtoll(cmd[2]).value, now))
  }

  /**
   The clock reading that counts when a command logged at time `later` is replayed: RESTORE is logged
   as it came, so it reads the clock again while the log is loaded.
   */
  function ReplayedAt(others: Others, cmd: Command, later: int): int {
    if IsRestore(cmd) then others.at else later
  }

  lemma VerbsDiffer()
    ensures PEXPIREAT != SET && PEXPIREAT != RPUSH && PEXPIREAT != SADD && PEXPIREAT != HMSET
    ensures RESTORE !in {SET, RPUSH, SADD, HMSET, PEXPIREAT, SETEX, PSETEX}
  {
    assert |PEXPIREAT| == 9 && |SET| == 3 && |RPUSH| == 5 && |SADD| == 4 && |HMSET| == 5;
    assert |RESTORE| == 7 && |SETEX| == 5 && |PSETEX| == 6;
  }

  lemma ExpireIsKnown(db: Db, key: Text, when: int)
    requires InRange(when)
    ensures Known(db, [PEXPIREAT, key, Show(when)]) == Some(ExpireSet(db, key, when))
  {
    VerbsDiffer();
    StrtollShow(when);
  }

  /** RESTORE is none of the commands that are defined above or translated. */
  lemma RestoreIsItself(others: Others, d: Dataset, j: nat, cmd: Command, now: int)
    requires j < |d| && IsRestore(cmd)
    ensures !Translated(cmd) && !IsSelect(cmd) && Known(d[j], cmd).None?
    ensures Execute(others, d, j, cmd, now) == d[j := RestoreAt(others, d[j], cmd, now)]
    ensures Apply(others, d, j, cmd) == d[j := RestoreAt(others, d[j], cmd, others.at)]
  {
    hide Strtoll, RestoreAt;
    VerbsDiffer();
  }

  /** Replaying what is logged does what the command does at the time that counts. */
  lemma LoggedIsFaithful(others: Others, d: Dataset, j: nat, cmd: Command, later: int)
    requires j < |d| && !IsSelect(cmd) && Printable(cmd, later)
    ensures Replay(others, State(d, j), Logged(cmd, later))
            == State(Execute(others, d, j, cmd, ReplayedAt(others, cmd, later)), j)
  {
    hide Strtoll, Show, RestoreAt;
    VerbsDiffer();
    if Translated(cmd) {
      var when := When(cmd[0], Strtoll(cmd[2]).value, later);
      var at := [PEXPIREAT, cmd[1], Show(when)];
      if |cmd| == 3 {
        ExpireIsKnown(d[j], cmd[1], when);
        assert Logged(cmd, later) == [at];
      } else {
        var db := StringSet(d[j], cmd[1], cmd[3]);
        var set_ := [SET, cmd[1], cmd[3]];
        assert Known(d[j], set_) == Some(db);
        ExpireIsKnown(db, cmd[1], when);
        var st := State(d[j := db], j);
        assert Perform(others, State(d, j), set_) == st;
        assert Logged(cmd, later) == [set_] + [at];
        ReplayConcat(others, State(d, j), [set_], [at]);
        ReplayOne(others, State(d, j), set_);
        ReplayOne(others, st, at);
        assert Perform(others, st, at) == State(d[j := db][j := ExpireSet(db, cmd[1], when)], j);
        assert ExpireSet(db, cmd[1], when) == d[j][cmd[1] := Entry(Str(cmd[3]), Some(when))];
        assert d[j := db][j := ExpireSet(db, cmd[1], when)] == d[j := ExpireSet(db, cmd[1], when)];
      }
    } else {
      assert Logged(cmd, later) == [cmd];
      ReplayOne(others, State(d, j), cmd);
      if IsRestore(cmd) {
        RestoreIsItself(others, d, j, cmd, others.at);
      }
    }
  }

  /**
   A command executed at time `now` and logged at time `later` is replayed with the same effect: it
   does not count from the clock, or the readings agree, or it has no key to give an expire time.
   */
  predicate InTime(others: Others, d: Dataset, j: nat, cmd: Command, now: int, later: int)
    requires j < |d|
  {
    if Translated(cmd) then now == later || !IsRelative(cmd[0]) || (|cmd| == 3 && cmd[1] !in d[j])
    else if IsRestore(cmd) then now == others.at || !Restorable(others, d[j], cmd) || Strtoll(cmd[2]) == Some(0)
    else true
  }

  lemma InTimeMeans(others: Others, d: Dataset, j: nat, cmd: Command, now: int, later: int)
    requires j < |d|
    ensures Execute(others, d, j, cmd, now) == Execute(others, d, j, cmd, ReplayedAt(others, cmd, later))
            <==> InTime(others, d, j, cmd, now, later)
  {
    hide Strtoll, Apply;
    var at := ReplayedAt(others, cmd, later);
    VerbsDiffer();
    if !InTime(others, d, j, cmd, now, later) {
      var a: Dataset, b: Dataset := Execute(others, d, j, cmd, now), Execute(others, d, j, cmd, at);
      assert a[j][cmd[1]].expire != b[j][cmd[1]].expire;
    }
  }

  /**
   The clock is read to execute a command and again to log it, or to load it. The log restores what the
   command did if and only if it was in time.
   */
  lemma LoggedAtLaterTime(others: Others, d: Dataset, j: nat, cmd: Command, now: int, later: int)
    requires j < |d| && !IsSelect(cmd) && Printable(cmd, later)
    ensures Replay(others, State(d, j), Logged(cmd, later)) == State(Execute(others, d, j, cmd, now), j)
            <==> InTime(others, d, j, cmd, now, later)
  {
    hide Execute, InTime, Replay;
    LoggedIsFaithful(others, d, j, cmd, later);
    InTimeMeans(others, d, j, cmd, now, later);
  }

  /** So a key restored for 100 milliseconds lives another 100 after its log was loaded. */
  lemma RestoredAgain(others: Others, d: Dataset, j: nat, key: Text, payload: Text, now: int, later: int)
    requires j < |d| && key !in d[j] && others.payload(payload).Some?
    ensures var cmd := [RESTORE, key, Show(100), payload];
            var replayed: Db := Replay(others, State(d, j), Logged(cmd, later)).data[j];
            var executed: Db := Execute(others, d, j, cmd, now)[j];
            && key in replayed && replayed[key].expire == Some(others.at + 100)
            && key in executed && executed[key].expire == Some(now + 100)
  {
    hide Show, Strtoll;
    var cmd := [RESTORE, key, Show(100), payload];
    StrtollShow(100);
    RestoreIsItself(others, d, j, cmd, now);
    RestoreIsItself(others, d, j, cmd, others.at);
    LoggedIsFaithful(others, d, j, cmd, later);
  }

  // ------------------------------------------------------------------
  // Expire times in terms of PEXPIREAT
  // ------------------------------------------------------------------

  /** SET replaces the value and forgets the expire time; PEXPIREAT gives a key that exists another one. */
  lemma SetAndPexpireat(others: Others, d: Dataset, j: nat, key: Text, v: Text, when: int, t: int)
    requires j < |d| && InRange(when)
    ensures Execute(others, d, j, [SET, key, v], t) == d[j := d[j][key := Entry(Str(v), None)]]
    ensures Execute(others, d, j, [PEXPIREAT, key, Show(when)], t)
            == if key in d[j] then d[j := d[j][key := Entry(d[j][key].value, Some(when))]] else d
  {
    hide Show, Strtoll;
    VerbsDiffer();
    ExpireIsKnown(d[j], key, when);
    assert |EXPIRE| == 6 && |PEXPIRE| == 7 && |EXPIREAT| == 8;
    assert Known(d[j], [SET, key, v]) == Some(StringSet(d[j], key, v));
    assert d[j := d[j]] == d;
  }

  /** EXPIREAT counts seconds: it executes and is logged as PEXPIREAT with the time in milliseconds. */
  lemma ExpireatIsPexpireat(others: Others, d: Dataset, j: nat, key: Text, n: int, t: int)
    requires j < |d| && InRange(n) && InRange(1000 * n)
    ensures Execute(others, d, j, [EXPIREAT, key, Show(n)], t) == Execute(others, d, j, [PEXPIREAT, key, Show(1000 * n)], t)
    ensures Logged([EXPIREAT, key, Show(n)], t) == [[PEXPIREAT, key, Show(1000 * n)]]
  {
    hide Show, Strtoll;
    StrtollShow(n);
    SetAndPexpireat(others, d, j, key, [], 1000 * n, t);
    assert d[j := d[j]] == d;
  }

  /** EXPIRE and PEXPIRE count seconds and milliseconds from now. */
  lemma ExpireIsPexpireat(others: Others, d: Dataset, j: nat, key: Text, n: int, t: int)
    requires j < |d| && InRange(n) && InRange(t + 1000 * n) && InRange(t + n)
    ensures Execute(others, d, j, [EXPIRE, key, Show(n)], t) == Execute(others, d, j, [PEXPIREAT, key, Show(t + 1000 * n)], t)
    ensures Execute(others, d, j, [PEXPIRE, key, Show(n)], t) == Execute(others, d, j, [PEXPIREAT, key, Show(t + n)], t)
    ensures Logged([EXPIRE, key, Show(n)], t) == [[PEXPIREAT, key, Show(t + 1000 * n)]]
    ensures Logged([PEXPIRE, key, Show(n)], t) == [[PEXPIREAT, key, Show(t + n)]]
  {
    hide Show, Strtoll;
    StrtollShow(n);
    SetAndPexpireat(others, d, j, key, [], t + 1000 * n, t);
    SetAndPexpireat(others, d, j, key, [], t + n, t);
    assert d[j := d[j]] == d;
    assert |EXPIRE| == 6 && |PEXPIRE| == 7 && |EXPIREAT| == 8;
  }

  /** SETEX and PSETEX are SET, and then the same. */
  lemma SetexIsSetAndPexpireat(others: Others, d: Dataset, j: nat, key: Text, n: int, v: Text, t: int)
    requires j < |d| && 0 < n && InRange(n) && InRange(t + 1000 * n) && InRange(t + n)
    ensures var set_ := Execute(others, d, j, [SET, key, v], t);
            && Execute(others, d, j, [SETEX, key, Show(n), v], t) == Execute(others, set_, j, [PEXPIREAT, key, Show(t + 1000 * n)], t)
            && Execute(others, d, j, [PSETEX, key, Show(n), v], t) == Execute(others, set_, j, [PEXPIREAT, key, Show(t + n)], t)
    ensures Logged([SETEX, key, Show(n), v], t) == [[SET, key, v], [PEXPIREAT, key, Show(t + 1000 * n)]]
    ensures Logged([PSETEX, key, Show(n), v], t) == [[SET, key, v], [PEXPIREAT, key, Show(t + n)]]
  {
    hide Show, Strtoll;
    StrtollShow(n);
    SetAndPexpireat(others, d, j, key, v, t + 1000 * n, t);
    var set_: Dataset := Execute(others, d, j, [SET, key, v], t);
    SetAndPexpireat(others, set_, j, key, v, t + 1000 * n, t);
    SetAndPexpireat(others, set_, j, key, v, t + n, t);
    assert |SETEX| == 5 && |PSETEX| == 6;
    assert set_[j] == d[j][key := Entry(Str(v), None)];
    assert set_[j][key := Entry(Str(v), Some(t + n))] == d[j][key := Entry(Str(v), Some(t + n))];
    assert set_[j][key := Entry(Str(v), Some(t + 1000 * n))] == d[j][key := Entry(Str(v), Some(t + 1000 * n))];
  }

  /** RESTORE does nothing to a key that exists, with a negative time to live, or with a payload that is refused. */
  lemma RestoreCases(others: Others, d: Dataset, j: nat, key: Text, ttl: int, payload: Text, t: int)
    requires j < |d| && InRange(ttl)
    ensures var executed := Execute(others, d, j, [RESTORE, key, Show(ttl), payload], t);
            if key in d[j] || ttl < 0 || others.payload(payload).None? then executed == d
            else executed == d[j := d[j][key := Entry(others.payload(payload).value, if ttl == 0 then None else Some(t + ttl))]]
  {
    hide Show, Strtoll;
    StrtollShow(ttl);
    RestoreIsItself(others, d, j, [RESTORE, key, Show(ttl), payload], t);
    assert d[j := d[j]] == d;
  }

  /** RPUSH and SADD add to the value that is there, make a new one, or do nothing to a value of another kind. */
  lemma ItemsAreAdded(others: Others, d: Dataset, j: nat, key: Text, items: seq<Text>, t: int)
    requires j < |d| && items != []
    ensures var pushed := Execute(others, d, j, [RPUSH, key] + items, t);
            && (key !in d[j] ==> pushed == d[j := d[j][key := Entry(List(items), None)]])
            && (key in d[j] && d[j][key].value.List? ==>
                  pushed == d[j := d[j][key := Entry(List(d[j][key].value.items + items), d[j][key].expire)]])
            && (key in d[j] && !d[j][key].value.List? ==> pushed == d)
    ensures var added := Execute(others, d, j, [SADD, key] + items, t); var members := set x | x in items;
            && (key !in d[j] ==> added == d[j := d[j][key := Entry(Set(members), None)]])
            && (key in d[j] && d[j][key].value.Set? ==>
                  added == d[j := d[j][key := Entry(Set(d[j][key].value.members + members), d[j][key].expire)]])
            && (key in d[j] && !d[j][key].value.Set? ==> added == d)
  {
    hide Strtoll;
    VerbsDiffer();
    assert |SET| == 3 && |RPUSH| == 5 && |SADD| == 4 && |SETEX| == 5 && |PSETEX| == 6 && |EXPIRE| == 6 && |PEXPIRE| == 7 && |EXPIREAT| == 8;
    assert RPUSH[0] == 82 && SETEX[0] == 83;
    assert ([RPUSH, key] + items)[2..] == items && ([SADD, key] + items)[2..] == items;
    assert d[j := d[j]] == d;
  }

  /** HMSET does so for fields. */
  lemma FieldsAreSet(others: Others, d: Dataset, j: nat, key: Text, args: seq<Text>, t: int)
    requires j < |d| && args != [] && |args| % 2 == 0
    ensures var done := Execute(others, d, j, [HMSET, key] + args, t);
            && (key !in d[j] ==> done == d[j := d[j][key := Entry(Hash(Fields(map[], args)), None)]])
            && (key in d[j] && d[j][key].value.Hash? ==>
                  done == d[j := d[j][key := Entry(Hash(Fields(d[j][key].value.fields, args)), d[j][key].expire)]])
            && (key in d[j] && !d[j][key].value.Hash? ==> done == d)
  {
    hide Execute, Fields;
    HmsetExecutes(others, d, j, key, args, t);
    assert d[j := d[j]] == d;
  }

  lemma HmsetExecutes(others: Others, d: Dataset, j: nat, key: Text, args: seq<Text>, t: int)
    requires j < |d| && args != [] && |args| % 2 == 0
    ensures Execute(others, d, j, [HMSET, key] + args, t) == d[j := FieldsSet(d[j], key, args)]
  {
    hide Strtoll, FieldsSet, Known;
    var cmd := [HMSET, key] + args;
    HmsetIsKnown(d[j], cmd);
    assert cmd[2..] == args;
  }

  lemma HmsetIsKnown(db: Db, cmd: Command)
    requires |cmd| >= 4 && |cmd| % 2 == 0 && cmd[0] == HMSET
    ensures !Translated(cmd) && !IsRestore(cmd) && Known(db, cmd) == Some(FieldsSet(db, cmd[1], cmd[2..]))
  {
    hide Strtoll, FieldsSet;
    assert |HMSET| == 5 && HMSET[0] == 72 && RPUSH[0] == 82 && SETEX[0] == 83;
    assert |SET| == 3 && |SADD| == 4 && |PSETEX| == 6 && |EXPIRE| == 6 && |PEXPIRE| == 7 && |EXPIREAT| == 8 && |RESTORE| == 7;
  }

  /** A field that is mentioned again gets the later value. */
  lemma {:induction false} LaterValueCounts(m: map<Text, Text>, args: seq<Text>, f: Text, v: Text)
    requires |args| % 2 == 0
    ensures Fields(m, []) == m && Fields(m, args + [f, v]) == Fields(m, args)[f := v]
    decreases |args|
  {
    var all := args + [f, v];
    if args == [] {
      assert all == [f, v] && all[2..] == [];
    } else {
      LaterValueCounts(m[args[0] := args[1]], args[2..], f, v);
      assert all[2..] == args[2..] + [f, v];
    }
  }

  /** The text of a name. */
  function Ascii(name: string): Text {
    seq(|name|, i requires 0 <= i < |name| => Byte(name[i] as int))
  }

  lemma NamesSpelled()
    ensures SELECT == Ascii("SELECT") && SELECT_TO_SLAVES == Ascii("select") && SET == Ascii("SET") && RPUSH == Ascii("RPUSH")
    ensures SADD == Ascii("SADD") && HMSET == Ascii("HMSET") && EXPIRE == Ascii("EXPIRE") && PEXPIRE == Ascii("PEXPIRE")
    ensures EXPIREAT == Ascii("EXPIREAT") && PEXPIREAT == Ascii("PEXPIREAT") && SETEX == Ascii("SETEX")
    ensures PSETEX == Ascii("PSETEX") && RESTORE == Ascii("RESTORE")
  {
  }

  // ------------------------------------------------------------------
  // Datasets that agree up to expire times
  // ------------------------------------------------------------------

  /** The same keys with the same values. */
  ghost predicate SameDb(a: Db, b: Db) {
    a.Keys == b.Keys && forall k :: k in a ==> a[k].value == b[k].value
  }

  ghost predicate SameValues(a: Dataset, b: Dataset) {
    |a| == |b| && forall j :: 0 <= j < |a| ==> SameDb(a[j], b[j])
  }

  /** What the commands do to keys and values does not depend on expire times. */
  ghost predicate Oblivious(others: Others) {
    forall j: nat, cmd: Command, a: Dataset, b: Dataset :: SameValues(a, b) ==> SameValues(others.run(j, cmd, a), others.run(j, cmd, b))
  }

  lemma KnownKeepsSame(a: Db, b: Db, cmd: Command)
    requires SameDb(a, b)
    ensures Known(a, cmd).Some? <==> Known(b, cmd).Some?
    ensures Known(a, cmd).Some? ==> SameDb(Known(a, cmd).value, Known(b, cmd).value)
  {
    hide Strtoll, Fields;
  }

  lemma RestoreKeepsSame(others: Others, a: Db, b: Db, cmd: Command, t: int, t': int)
    requires SameDb(a, b) && IsRestore(cmd)
    ensures SameDb(RestoreAt(others, a, cmd, t), RestoreAt(others, b, cmd, t'))
  {
    hide Strtoll;
  }

  lemma ApplyKeepsSame(others: Others, a: Dataset, b: Dataset, j: nat, cmd: Command)
    requires Oblivious(others) && SameValues(a, b) && j < |a|
    ensures SameValues(Apply(others, a, j, cmd), Apply(others, b, j, cmd))
  {
    hide Known, SameDb, RestoreAt;
    KnownKeepsSame(a[j], b[j], cmd);
    if Known(a[j], cmd).None? {
      if IsRestore(cmd) {
        RestoreKeepsSame(others, a[j], b[j], cmd, others.at, others.at);
      } else {
        assert SameValues(others.run(j, cmd, a), others.run(j, cmd, b));
      }
    }
  }

  /** Whenever a command is executed, it leaves the same keys and values. */
  lemma ExecuteKeepsSame(others: Others, a: Dataset, b: Dataset, j: nat, cmd: Command, now: int, later: int)
    requires Oblivious(others) && SameValues(a, b) && j < |a|
    ensures SameValues(Execute(others, a, j, cmd, now), Execute(others, b, j, cmd, later))
  {
    hide Strtoll, Oblivious, Apply, RestoreAt;
    assert SameDb(a[j], b[j]);
    if IsRestore(cmd) {
      RestoreKeepsSame(others, a[j], b[j], cmd, now, later);
      RestoreIsItself(others, a, j, cmd, now);
      RestoreIsItself(others, b, j, cmd, later);
    } else if !Translated(cmd) {
      ApplyKeepsSame(others, a, b, j, cmd);
    }
  }
}
