/**
 Rewriting the append only file from the dataset (aof.c): the emission loops, which announce the
 number of arguments of a command before they write them, and what the file replays to.
 */
module AofRewrite {
  import opened Bytes
  import opened Decimal
  import opened Requests
  import opened Keyspace

  const ITEMS_PER_CMD := 64

  /** A key as iteration finds it: a collection comes as its items, each with one or two texts. */
  datatype Item = Item(key: Text, value: Value, items: seq<seq<Text>>, expire: Option<int>)

  function Flat(items: seq<seq<Text>>): seq<Text> {
    if items == [] then [] else items[0] + Flat(items[1..])
  }

  function Verb(v: Value): Text {
    match v
    case Str(_) => SET
    case List(_) => RPUSH
    case Set(_) => SADD
    case Hash(_) => HMSET
  }

  function Width(v: Value): nat {
    if v.Hash? then 2 else 1
  }

  /** The items are an iteration over the value; there are no empty collections. */
  ghost predicate Iterates(v: Value, items: seq<seq<Text>>) {
    && (forall i :: 0 <= i < |items| ==> |items[i]| == Width(v))
    && match v
       case Str(text) => items == [[text]]
       case List(l) => items != [] && l == Flat(items)
       case Set(m) => items != [] && m == set x | x in Flat(items)
       case Hash(f) =>
         && items != []
         && (forall i :: 0 <= i < |items| ==> items[i][0] in f && f[items[i][0]] == items[i][1])
         && (forall k :: k in f ==> Names(items, k))
  }

  // ------------------------------------------------------------------
  // Emission
  // ------------------------------------------------------------------

  /** The commands that build a collection, at most 64 items each. */
  function Chunks(verb: Text, key: Text, items: seq<seq<Text>>): seq<Command>
    decreases |items|
  {
    if items == [] then []
    else
      var n := Min(|items|, ITEMS_PER_CMD);
      [[verb, key] + Flat(items[..n])] + Chunks(verb, key, items[n..])
  }

  /** All commands but the last have 64 items, in order. */
  lemma {:induction false} SixtyFourEach(verb: Text, key: Text, items: seq<seq<Text>>)
    ensures var cmds := Chunks(verb, key, items);
            && |cmds| == (|items| + 63) / 64
            && forall k :: 0 <= k < |cmds| ==> cmds[k] == [verb, key] + Flat(items[64 * k..Min(|items|, 64 * k + 64)])
    decreases |items|
  {
    hide Flat;
    if items != [] {
      var n := Min(|items|, 64);
      var rest, cmds := items[n..], Chunks(verb, key, items);
      SixtyFourEach(verb, key, rest);
      forall k | 0 < k < |cmds| ensures cmds[k] == [verb, key] + Flat(items[64 * k..Min(|items|, 64 * k + 64)]) {
        assert n == 64 && cmds[k] == cmds[1..][k - 1];
        assert rest[64 * (k - 1)..Min(|rest|, 64 * (k - 1) + 64)] == items[64 * k..Min(|items|, 64 * k + 64)];
      }
    }
  }

  lemma {:induction false} FlatConcat(a: seq<seq<Text>>, b: seq<seq<Text>>)
    ensures Flat(a + b) == Flat(a) + Flat(b)
  {
    if a == [] {
      assert a + b == b;
    } else {
      var c := a + b;
      assert c[0] == a[0] && c[1..] == a[1..] + b;
      FlatConcat(a[1..], b);
      assert Flat(c) == a[0] + Flat(c[1..]);
    }
  }

  lemma FlatOne(x: seq<Text>)
    ensures Flat([x]) == x
  {
    assert [x][1..] == [] && x + [] == x;
  }

  lemma {:induction false} FlatLength(items: seq<seq<Text>>, width: nat)
    requires forall i :: 0 <= i < |items| ==> |items[i]| == width
    ensures |Flat(items)| == |items| * width
  {
    if items != [] {
      FlatLength(items[1..], width);
    }
  }

  lemma OneBulk(a: Text)
    ensures EncodeBulks([a]) == EncodeBulk(a)
  {
    assert [a][1..] == [] && EncodeBulk(a) + [] == EncodeBulk(a);
  }

  /** `rioWriteBulkCount`, `rioWriteBulkString` and `rioWriteBulkLongLong` append to the file. */
  method WriteBulks(out: Text, args: Command) returns (out': Text)
    ensures out' == out + EncodeBulks(args)
  {
    hide EncodeBulk;
    out' := out;
    var i := 0;
    while i < |args|
      invariant 0 <= i <= |args| && out' == out + EncodeBulks(args[..i])
    {
      assert args[..i + 1] == args[..i] + [args[i]];
      BulksConcat(args[..i], [args[i]]);
      OneBulk(args[i]);
      out' := out' + EncodeBulk(args[i]);
      i := i + 1;
    }
    assert args[..i] == args;
  }

  function Count(n: nat): Text {
    [STAR] + Show(n) + CRLF
  }

  /** The bytes of a command whose arguments up to item `i` have been written. */
  function Open(verb: Text, key: Text, items: seq<seq<Text>>, start: nat, i: nat, width: nat): Text
    requires start <= i <= |items|
  {
    Count(2 + Min(|items| - start, ITEMS_PER_CMD) * width) + EncodeBulks([verb, key] + Flat(items[start..i]))
  }

  lemma Opened(verb: Text, key: Text, items: seq<seq<Text>>, start: nat, width: nat)
    requires start <= |items|
    ensures Open(verb, key, items, start, start, width)
            == Count(2 + Min(|items| - start, ITEMS_PER_CMD) * width) + EncodeBulks([verb, key])
  {
    assert items[start..start] == [] && [verb, key] + Flat([]) == [verb, key];
  }

  lemma ItemWritten(verb: Text, key: Text, items: seq<seq<Text>>, start: nat, i: nat, width: nat)
    requires start <= i < |items|
    ensures Open(verb, key, items, start, i + 1, width) == Open(verb, key, items, start, i, width) + EncodeBulks(items[i])
  {
    hide EncodeBulks, Count;
    assert items[start..i + 1] == items[start..i] + [items[i]];
    FlatConcat(items[start..i], [items[i]]);
    FlatOne(items[i]);
    var args := [verb, key] + Flat(items[start..i]);
    assert [verb, key] + Flat(items[start..i + 1]) == args + items[i];
    BulksConcat(args, items[i]);
  }

  /** With the announced number of items the command is complete. */
  lemma Completed(verb: Text, key: Text, items: seq<seq<Text>>, start: nat, i: nat, width: nat)
    requires start < i <= |items| && i - start == Min(|items| - start, ITEMS_PER_CMD)
    requires forall k :: 0 <= k < |items| ==> |items[k]| == width
    ensures EncodeAll(Chunks(verb, key, items[start..]))
            == Open(verb, key, items, start, i, width) + EncodeAll(Chunks(verb, key, items[i..]))
  {
    hide EncodeBulks, Show;
    var rest := items[start..];
    var n := i - start;
    assert rest[..n] == items[start..i] && rest[n..] == items[i..];
    FlatLength(items[start..i], width);
    var c := [verb, key] + Flat(items[start..i]);
    assert Open(verb, key, items, start, i, width) == Encode(c);
    assert Chunks(verb, key, rest) == [c] + Chunks(verb, key, items[i..]);
  }

  /** The loop of `rewriteListObject`, `rewriteSetObject` and `rewriteHashObject`. */
  method RewriteCollection(out: Text, verb: Text, key: Text, items: seq<seq<Text>>, width: nat) returns (out': Text)
    requires forall i :: 0 <= i < |items| ==> |items[i]| == width
    ensures out' == out + EncodeAll(Chunks(verb, key, items))
  {
    hide EncodeBulks, EncodeAll, Chunks, Open, Count;
    out' := out;
    var count, left, i := 0, |items|, 0;
    ghost var base, open, start := out, [], 0;
    assert items[0..] == items;
    while i < |items|
      invariant 0 <= i <= |items| && left == |items| - i && 0 <= count < ITEMS_PER_CMD && start == i - count
      invariant base + EncodeAll(Chunks(verb, key, items[start..])) == out + EncodeAll(Chunks(verb, key, items))
      invariant out' == base + open && open == if count == 0 then [] else Open(verb, key, items, start, i, width)
    {
      if count == 0 {
        out' := StartCommand(out', verb, key, items, left, width);
        open := Open(verb, key, items, start, i, width);
      }
      ItemWritten(verb, key, items, start, i, width);
      out' := WriteBulks(out', items[i]);
      open := open + EncodeBulks(items[i]);
      count, left, i := count + 1, left - 1, i + 1;
      if count == ITEMS_PER_CMD {
        CompletedAfter(base, verb, key, items, start, i, width);
        base, open, start, count := out', [], i, 0;
      }
    }
    if count > 0 {
      CompletedAfter(base, verb, key, items, start, i, width);
    }
    NoChunks(verb, key, items[|items|..]);
  }

  lemma CompletedAfter(base: Text, verb: Text, key: Text, items: seq<seq<Text>>, start: nat, i: nat, width: nat)
    requires start < i <= |items| && i - start == Min(|items| - start, ITEMS_PER_CMD)
    requires forall k :: 0 <= k < |items| ==> |items[k]| == width
    ensures base + EncodeAll(Chunks(verb, key, items[start..]))
            == (base + Open(verb, key, items, start, i, width)) + EncodeAll(Chunks(verb, key, items[i..]))
  {
    hide EncodeAll, Chunks, Open;
    Completed(verb, key, items, start, i, width);
  }

  /** The count and the first two arguments of a command, before its items. */
  method StartCommand(out: Text, verb: Text, key: Text, items: seq<seq<Text>>, left: nat, width: nat) returns (out': Text)
    requires left <= |items|
    ensures var i := |items| - left; out' == out + Open(verb, key, items, i, i, width)
  {
    hide EncodeBulks, Open, Count;
    var cmdItems := if left > ITEMS_PER_CMD then ITEMS_PER_CMD else left;
    out' := WriteBulks(out + Count(2 + cmdItems * width), [verb, key]);
    Opened(verb, key, items, |items| - left, width);
  }

  lemma NoChunks(verb: Text, key: Text, items: seq<seq<Text>>)
    requires items == []
    ensures EncodeAll(Chunks(verb, key, items)) == []
  {
  }

  function ValueCommands(it: Item): seq<Command> {
    match it.value
    case Str(text) => [[SET, it.key, text]]
    case _ => Chunks(Verb(it.value), it.key, it.items)
  }

  /** The expire time, unless it has passed already. */
  function ExpireCommands(it: Item, now: int): seq<Command> {
    match it.expire
    case None => []
    case Some(t) => if t < now then [] else [[PEXPIREAT, it.key, Show(t)]]
  }

  function DbCommands(its: seq<Item>, now: int): seq<Command> {
    if its == [] then [] else ValueCommands(its[0]) + ExpireCommands(its[0], now) + DbCommands(its[1..], now)
  }

  /** The rewritten log of the databases from number `j` on. */
  function LogFrom(dbs: seq<seq<Item>>, j: nat, now: int): seq<Command>
    requires j <= |dbs|
    decreases |dbs| - j
  {
    if j == |dbs| then []
    else (if dbs[j] == [] then [] else [SelectCommand(j)] + DbCommands(dbs[j], now)) + LogFrom(dbs, j + 1, now)
  }

  lemma {:induction false} EncodeAllConcat(a: seq<Command>, b: seq<Command>)
    ensures EncodeAll(a + b) == EncodeAll(a) + EncodeAll(b)
  {
    hide Encode;
    if a == [] {
      assert a + b == b;
    } else {
      EncodeAllConcat(a[1..], b);
      assert (a + b)[0] == a[0] && (a + b)[1..] == a[1..] + b;
    }
  }

  lemma EncodeOne(c: Command)
    ensures EncodeAll([c]) == Encode(c)
  {
    assert [c][1..] == [] && Encode(c) + [] == Encode(c);
  }

  method WriteCommand(out: Text, c: Command) returns (out': Text)
    ensures out' == out + EncodeAll([c])
  {
    hide EncodeBulks;
    EncodeOne(c);
    out' := WriteBulks(out + Count(|c|), c);
  }

  /** The body of the iteration of `rewriteAppendOnlyFile` over a database. */
  method RewriteEntry(out: Text, it: Item, now: int) returns (out': Text)
    requires Iterates(it.value, it.items)
    ensures out' == out + EncodeAll(ValueCommands(it) + ExpireCommands(it, now))
  {
    hide EncodeAll, Chunks;
    EncodeAllConcat(ValueCommands(it), ExpireCommands(it, now));
    match it.value {
      case Str(text) => out' := WriteCommand(out, [SET, it.key, text]);
      case _ => out' := RewriteCollection(out, Verb(it.value), it.key, it.items, Width(it.value));
    }
    if it.expire.Some? {
      if it.expire.value < now {
        NoCommands();
        return;
      }
      out' := WriteCommand(out', [PEXPIREAT, it.key, Show(it.expire.value)]);
    } else {
      NoCommands();
    }
  }

  lemma NoCommands()
    ensures EncodeAll([]) == []
  {
  }

  lemma DbCommandsFrom(its: seq<Item>, i: nat, now: int)
    requires i < |its|
    ensures EncodeAll(DbCommands(its[i..], now))
            == EncodeAll(ValueCommands(its[i]) + ExpireCommands(its[i], now)) + EncodeAll(DbCommands(its[i + 1..], now))
  {
    hide EncodeAll, ValueCommands, ExpireCommands;
    assert its[i..][0] == its[i] && its[i..][1..] == its[i + 1..];
    EncodeAllConcat(ValueCommands(its[i]) + ExpireCommands(its[i], now), DbCommands(its[i + 1..], now));
  }

  method RewriteDb(out: Text, its: seq<Item>, now: int) returns (out': Text)
    requires forall i :: 0 <= i < |its| ==> Iterates(its[i].value, its[i].items)
    ensures out' == out + EncodeAll(DbCommands(its, now))
  {
    hide EncodeAll, ValueCommands, ExpireCommands, DbCommands, Iterates;
    out' := out;
    var i := 0;
    assert its[0..] == its;
    while i < |its|
      invariant 0 <= i <= |its| && out' + EncodeAll(DbCommands(its[i..], now)) == out + EncodeAll(DbCommands(its, now))
    {
      DbCommandsFrom(its, i, now);
      out' := RewriteEntry(out', its[i], now);
      i := i + 1;
    }
    NoDbCommands(its[i..], now);
  }

  lemma NoDbCommands(its: seq<Item>, now: int)
    requires its == []
    ensures EncodeAll(DbCommands(its, now)) == []
  {
  }

  lemma LogFromSplits(dbs: seq<seq<Item>>, j: nat, now: int)
    requires j < |dbs|
    ensures EncodeAll(LogFrom(dbs, j, now)) ==
            (if dbs[j] == [] then [] else EncodeAll([SelectCommand(j)]) + EncodeAll(DbCommands(dbs[j], now)))
            + EncodeAll(LogFrom(dbs, j + 1, now))
  {
    hide EncodeAll, DbCommands, SelectCommand;
    NoCommands();
    EncodeAllConcat([SelectCommand(j)], DbCommands(dbs[j], now));
    EncodeAllConcat(if dbs[j] == [] then [] else [SelectCommand(j)] + DbCommands(dbs[j], now), LogFrom(dbs, j + 1, now));
  }

  /** `rewriteAppendOnlyFile`: the file is the encoding of a log. */
  method RewriteAppendOnlyFile(dbs: seq<seq<Item>>, now: int) returns (out: Text)
    requires forall j, i :: 0 <= j < |dbs| && 0 <= i < |dbs[j]| ==> Iterates(dbs[j][i].value, dbs[j][i].items)
    ensures out == EncodeAll(LogFrom(dbs, 0, now))
  {
    hide EncodeAll, DbCommands, LogFrom, SelectCommand, Iterates;
    out := [];
    var j := 0;
    while j < |dbs|
      invariant 0 <= j <= |dbs| && out + EncodeAll(LogFrom(dbs, j, now)) == EncodeAll(LogFrom(dbs, 0, now))
    {
      LogFromSplits(dbs, j, now);
      if dbs[j] != [] {
        out := WriteCommand(out, SelectCommand(j));
        out := RewriteDb(out, dbs[j], now);
      }
      j := j + 1;
    }
    NothingLeft(dbs, now);
  }

  lemma NothingLeft(dbs: seq<seq<Item>>, now: int)
    ensures EncodeAll(LogFrom(dbs, |dbs|, now)) == []
  {
  }

  // ------------------------------------------------------------------
  // What the rewritten log replays to
  // ------------------------------------------------------------------

  /** What one command of chunk items does to a key. */
  function Merge(v: Value, db: Db, key: Text, args: seq<Text>): Db {
    match v
    case Str(_) => db
    case List(_) => Pushed(db, key, args)
    case Set(_) => Added(db, key, args)
    case Hash(_) => FieldsSet(db, key, args)
  }

  lemma {:induction false} FieldsConcat(m: map<Text, Text>, a: seq<Text>, b: seq<Text>)
    requires |a| % 2 == 0
    ensures Fields(m, a + b) == Fields(Fields(m, a), b)
    decreases |a|
  {
    if a == [] {
      assert a + b == b;
    } else {
      assert (a + b)[0] == a[0] && (a + b)[1] == a[1] && (a + b)[2..] == a[2..] + b;
      FieldsConcat(m[a[0] := a[1]], a[2..], b);
    }
  }

  lemma MergeTwice(v: Value, db: Db, key: Text, a: seq<Text>, b: seq<Text>)
    requires |a| % Width(v) == 0
    ensures Merge(v, Merge(v, db, key, a), key, b) == Merge(v, db, key, a + b)
  {
    match v
    case Str(_) =>
    case List(_) =>
      if key in db && db[key].value.List? {
        assert (db[key].value.items + a) + b == db[key].value.items + (a + b);
      }
    case Set(_) =>
      assert (set x | x in a + b) == (set x | x in a) + (set x | x in b);
      if key in db && db[key].value.Set? {
        assert (db[key].value.members + set x | x in a) + (set x | x in b) == db[key].value.members + set x | x in a + b;
      }
    case Hash(_) =>
      FieldsConcat(map[], a, b);
      if key in db && db[key].value.Hash? {
        FieldsConcat(db[key].value.fields, a, b);
      }
  }

  lemma ChunkIsKnown(v: Value, db: Db, key: Text, args: seq<Text>)
    requires !v.Str? && args != [] && |args| % Width(v) == 0
    ensures Known(db, [Verb(v), key] + args) == Some(Merge(v, db, key, args))
  {
    var cmd := [Verb(v), key] + args;
    assert cmd[2..] == args;
    assert |SET| == 3 && |RPUSH| == 5 && |SADD| == 4 && |HMSET| == 5 && RPUSH[0] != HMSET[0];
  }

  /** The chunks together do what one command with all items would. */
  lemma {:induction false} ChunksMerge(others: Others, st: State, v: Value, key: Text, items: seq<seq<Text>>)
    requires st.db < |st.data| && !v.Str? && items != []
    requires forall i :: 0 <= i < |items| ==> |items[i]| == Width(v)
    ensures Replay(others, st, Chunks(Verb(v), key, items))
            == st.(data := st.data[st.db := Merge(v, st.data[st.db], key, Flat(items))])
    decreases |items|
  {
    hide Known, Merge, Verb;
    var n := Min(|items|, ITEMS_PER_CMD);
    var now_, later := items[..n], items[n..];
    var c := [Verb(v), key] + Flat(now_);
    FlatLength(now_, Width(v));
    var db := st.data[st.db];
    assert |Flat(now_)| > 0 && |Flat(now_)| % Width(v) == 0 by {
      assert n > 0;
    }
    ChunkIsKnown(v, db, key, Flat(now_));
    var st' := st.(data := st.data[st.db := Merge(v, db, key, Flat(now_))]);
    PerformKnown(others, st, c);
    assert Chunks(Verb(v), key, items) == [c] + Chunks(Verb(v), key, later);
    assert items == now_ + later;
    FlatConcat(now_, later);
    if later != [] {
      ChunksMerge(others, st', v, key, later);
      MergeTwice(v, db, key, Flat(now_), Flat(later));
    } else {
      assert Flat(later) == [] && Flat(now_) + [] == Flat(now_);
    }
  }

  lemma PerformKnown(others: Others, st: State, cmd: Command)
    requires st.db < |st.data| && Known(st.data[st.db], cmd).Some?
    ensures Perform(others, st, cmd) == st.(data := st.data[st.db := Known(st.data[st.db], cmd).value])
  {
  }

  /** The entry a rewritten log restores: an expire time that has passed is lost. */
  function Restored(v: Value, expire: Option<int>, now: int): Entry {
    Entry(v, match expire case None => None case Some(t) => if t < now then None else Some(t))
  }

  predicate Names(items: seq<seq<Text>>, k: Text) {
    exists i :: 0 <= i < |items| && items[i] != [] && items[i][0] == k
  }

  lemma NamesRest(items: seq<seq<Text>>, k: Text)
    requires items != [] && items[0] != []
    ensures Names(items, k) <==> k == items[0][0] || Names(items[1..], k)
  {
    if Names(items, k) {
      var i :| 0 <= i < |items| && items[i] != [] && items[i][0] == k;
      assert i > 0 ==> items[1..][i - 1] == items[i];
    }
    if Names(items[1..], k) {
      var i :| 0 <= i < |items[1..]| && items[1..][i] != [] && items[1..][i][0] == k;
      assert items[i + 1] == items[1..][i];
    }
  }

  lemma {:induction false} FieldsAgree(m: map<Text, Text>, f: map<Text, Text>, items: seq<seq<Text>>)
    requires forall i :: 0 <= i < |items| ==> |items[i]| == 2 && items[i][0] in f && f[items[i][0]] == items[i][1]
    ensures var r := Fields(m, Flat(items));
            forall k :: (k in r <==> k in m || Names(items, k)) && (k in r ==> r[k] == if Names(items, k) then f[k] else m[k])
    decreases |items|
  {
    if items != [] {
      var rest := items[1..];
      var m' := m[items[0][0] := items[0][1]];
      FieldsAgree(m', f, rest);
      assert Flat(items)[..2] == items[0] && Flat(items)[2..] == Flat(rest);
      assert Fields(m, Flat(items)) == Fields(m', Flat(rest));
      forall k ensures Names(items, k) <==> k == items[0][0] || Names(rest, k) {
        NamesRest(items, k);
      }
    }
  }

  /** Merging all items of a value under a new key creates the value. */
  lemma MergeCreates(v: Value, db: Db, key: Text, items: seq<seq<Text>>)
    requires !v.Str? && Iterates(v, items) && key !in db
    ensures Merge(v, db, key, Flat(items)) == db[key := Entry(v, None)]
  {
    match v
    case Hash(f) =>
      FieldsAgree(map[], f, items);
      assert Fields(map[], Flat(items)) == f;
    case _ =>
  }

  lemma ValueReplays(others: Others, st: State, it: Item)
    requires st.db < |st.data| && Iterates(it.value, it.items) && it.key !in st.data[st.db]
    ensures Replay(others, st, ValueCommands(it)) == st.(data := st.data[st.db := st.data[st.db][it.key := Entry(it.value, None)]])
  {
    hide Merge, Replay;
    if it.value.Str? {
      ReplayOne(others, st, [SET, it.key, it.value.text]);
    } else {
      ChunksMerge(others, st, it.value, it.key, it.items);
      MergeCreates(it.value, st.data[st.db], it.key, it.items);
    }
  }

  lemma ExpireReplays(others: Others, st: State, it: Item, now: int)
    requires st.db < |st.data| && (it.expire.Some? ==> InRange(it.expire.value))
    requires it.key in st.data[st.db] && st.data[st.db][it.key] == Entry(it.value, None)
    ensures Replay(others, st, ExpireCommands(it, now))
            == st.(data := st.data[st.db := st.data[st.db][it.key := Restored(it.value, it.expire, now)]])
  {
    var db := st.data[st.db];
    match it.expire
    case None => assert db[it.key := db[it.key]] == db && st.data[st.db := db] == st.data;
    case Some(t) =>
      if t < now {
        assert db[it.key := db[it.key]] == db && st.data[st.db := db] == st.data;
      } else {
        ReplayOne(others, st, [PEXPIREAT, it.key, Show(t)]);
        ExpireIsKnown(db, it.key, t);
      }
  }

  /** A database built up entry by entry. */
  function Put(db: Db, its: seq<Item>, now: int): Db
    decreases |its|
  {
    if its == [] then db else Put(db[its[0].key := Restored(its[0].value, its[0].expire, now)], its[1..], now)
  }

  /** The items are an iteration over keys that a database does not hold yet. */
  ghost predicate NewKeys(db: Db, its: seq<Item>) {
    && (forall i :: 0 <= i < |its| ==>
          Iterates(its[i].value, its[i].items) && (its[i].expire.Some? ==> InRange(its[i].expire.value)) && its[i].key !in db)
    && (forall i, j :: 0 <= i < j < |its| ==> its[i].key != its[j].key)
  }

  lemma {:induction false} DbReplays(others: Others, st: State, its: seq<Item>, now: int)
    requires st.db < |st.data| && NewKeys(st.data[st.db], its)
    ensures Replay(others, st, DbCommands(its, now)) == st.(data := st.data[st.db := Put(st.data[st.db], its, now)])
    decreases |its|
  {
    hide Iterates, Replay, ValueCommands, ExpireCommands, Restored;
    if its == [] {
      NothingReplays(others, st);
      assert st.data[st.db := st.data[st.db]] == st.data;
    } else {
      var it, db := its[0], st.data[st.db];
      var a, b := ValueCommands(it), ExpireCommands(it, now);
      ValueReplays(others, st, it);
      var mid := st.(data := st.data[st.db := db[it.key := Entry(it.value, None)]]);
      ExpireReplays(others, mid, it, now);
      var db' := db[it.key := Restored(it.value, it.expire, now)];
      var st' := st.(data := st.data[st.db := db']);
      assert db[it.key := Entry(it.value, None)][it.key := Restored(it.value, it.expire, now)] == db';
      assert mid.data[st.db := db'] == st'.data;
      ReplayConcat(others, st, a, b);
      ReplayConcat(others, st, a + b, DbCommands(its[1..], now));
      DbReplays(others, st', its[1..], now);
      assert st'.data[st.db := Put(db', its[1..], now)] == st.data[st.db := Put(db', its[1..], now)];
    }
  }

  lemma NothingReplays(others: Others, st: State)
    requires st.db < |st.data|
    ensures Replay(others, st, []) == st
  {
  }

  /** The items are what iterating over a database yields. */
  ghost predicate Lists(its: seq<Item>, db: Db) {
    && NewKeys(map[], its)
    && (forall i :: 0 <= i < |its| ==> its[i].key in db && db[its[i].key] == Entry(its[i].value, its[i].expire))
    && (forall k :: k in db ==> exists i :: 0 <= i < |its| && its[i].key == k)
  }

  ghost predicate ListsAll(dbs: seq<seq<Item>>, d: Dataset) {
    |dbs| == |d| && forall j :: 0 <= j < |d| ==> Lists(dbs[j], d[j])
  }

  /** A database whose past expire times are forgotten. */
  function Forgotten(db: Db, now: int): Db {
    map k | k in db :: Restored(db[k].value, db[k].expire, now)
  }

  lemma {:induction false} PutIs(db: Db, its: seq<Item>, now: int)
    ensures forall k :: k in Put(db, its, now) <==> k in db || exists i :: 0 <= i < |its| && its[i].key == k
    ensures NewKeys(db, its) ==>
              && (forall i :: 0 <= i < |its| ==> Put(db, its, now)[its[i].key] == Restored(its[i].value, its[i].expire, now))
              && (forall k :: k in db ==> Put(db, its, now)[k] == db[k])
    decreases |its|
  {
    hide Iterates, Restored;
    if its != [] {
      var db' := db[its[0].key := Restored(its[0].value, its[0].expire, now)];
      PutIs(db', its[1..], now);
      assert forall i :: 1 <= i < |its| ==> its[i] == its[1..][i - 1];
    }
  }

  lemma ListedIsForgotten(its: seq<Item>, db: Db, now: int)
    requires Lists(its, db)
    ensures Put(map[], its, now) == Forgotten(db, now)
  {
    hide Iterates, Restored;
    PutIs(map[], its, now);
  }

  lemma {:induction false} LogReplays(others: Others, st: State, dbs: seq<seq<Item>>, j: nat, now: int)
    requires j <= |dbs| == |st.data| && st.db < |st.data| && Selectable(st.data)
    requires forall k :: j <= k < |dbs| ==> st.data[k] == map[] && NewKeys(map[], dbs[k])
    ensures var r := Replay(others, st, LogFrom(dbs, j, now)).data;
            forall k :: 0 <= k < |dbs| ==> r[k] == if k < j then st.data[k] else Put(map[], dbs[k], now)
    decreases |dbs| - j
  {
    hide Replay, DbCommands, Put, NewKeys;
    if j == |dbs| {
      NothingReplays(others, st);
    } else if dbs[j] == [] {
      PutNothing(now);
      assert [] + LogFrom(dbs, j + 1, now) == LogFrom(dbs, j + 1, now);
      LogReplays(others, st, dbs, j + 1, now);
    } else {
      var sel, cs := [SelectCommand(j)], DbCommands(dbs[j], now);
      var mid := st.(db := j);
      ReplayOne(others, st, SelectCommand(j));
      SelectSelects(others, st, j);
      DbReplays(others, mid, dbs[j], now);
      ReplayConcat(others, st, sel, cs);
      ReplayConcat(others, st, sel + cs, LogFrom(dbs, j + 1, now));
      LogReplays(others, Replay(others, mid, cs), dbs, j + 1, now);
    }
  }

  lemma PutNothing(now: int)
    ensures Put(map[], [], now) == map[]
  {
  }

  function NoKeys(n: nat): Dataset {
    seq(n, _ => map[])
  }

  /** The rewritten log of a dataset, replayed from nothing, restores it with past expire times forgotten. */
  lemma RewriteRestores(others: Others, d: Dataset, dbs: seq<seq<Item>>, now: int)
    requires 0 < |d| && Selectable(d) && ListsAll(dbs, d)
    ensures var r := Replay(others, State(NoKeys(|d|), 0), LogFrom(dbs, 0, now)).data;
            |r| == |d| && forall j :: 0 <= j < |d| ==> r[j] == Forgotten(d[j], now)
  {
    hide Replay, Put, Iterates, LogFrom, Forgotten;
    LogReplays(others, State(NoKeys(|d|), 0), dbs, 0, now);
    forall j | 0 <= j < |d| ensures Put(map[], dbs[j], now) == Forgotten(d[j], now) {
      ListedIsForgotten(dbs[j], d[j], now);
    }
  }

  /** No key had expired when the rewriting started. */
  predicate NoneExpired(d: Dataset, now: int) {
    forall j, k :: 0 <= j < |d| && k in d[j] && d[j][k].expire.Some? ==> d[j][k].expire.value >= now
  }

  /**
   A key that has already expired is written without its expire time, so it comes back to life: the
   rewritten log restores the dataset exactly when no key had expired.
   */
  lemma RewriteIsFaithful(others: Others, d: Dataset, dbs: seq<seq<Item>>, now: int)
    requires 0 < |d| && Selectable(d) && ListsAll(dbs, d)
    ensures Replay(others, State(NoKeys(|d|), 0), LogFrom(dbs, 0, now)).data == d <==> NoneExpired(d, now)
  {
    RewriteRestores(others, d, dbs, now);
    hide Replay, LogFrom, ListsAll;
    var r: Dataset := Replay(others, State(NoKeys(|d|), 0), LogFrom(dbs, 0, now)).data;
    if !NoneExpired(d, now) {
      var j, k :| 0 <= j < |d| && k in d[j] && d[j][k].expire.Some? && d[j][k].expire.value < now;
      var db: Db := r[j];
      assert db[k].expire.None?;
    } else {
      forall j | 0 <= j < |d| ensures Forgotten(d[j], now) == d[j] {
      }
    }
  }
}
