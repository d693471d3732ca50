/**
 The dump file of rdb.c: the loader as a function of the bytes, the saver as loops over the
 databases, and the round trip between them.
 */
module Rdb {
  import opened Bytes
  import opened Decimal
  import opened Requests
  import opened Keyspace
  import opened AofRewrite
  import opened RdbStrings
  import opened Words
  import AofLoad
  import Crc64

  // ------------------------------------------------------------------
  // Objects
  // ------------------------------------------------------------------

  const TYPE_STRING := 0
  const TYPE_LIST := 1
  const TYPE_SET := 2
  const TYPE_HASH := 4

  function TypeByte(v: Value): u8 {
    match v
    case Str(_) => TYPE_STRING
    case List(_) => TYPE_LIST
    case Set(_) => TYPE_SET
    case Hash(_) => TYPE_HASH
  }

  /** The value of a collection type with the given texts. */
  function Build(kind: u8, texts: seq<Text>): Value {
    if kind == TYPE_LIST then List(texts)
    else if kind == TYPE_SET then Set(set x | x in texts)
    else Hash(Fields(map[], texts))
  }

  function LoadTexts(n: nat, s: Text): (r: Option<Parsed<seq<Text>>>)
    ensures r.Some? ==> |r.value.value| == n && |r.value.rest| <= |s|
  {
    if n == 0 then Some(Parsed([], s))
    else
      match LoadString(s)
      case None => None
      case Some(Parsed(t, s1)) =>
        match LoadTexts(n - 1, s1)
        case None => None
        case Some(Parsed(ts, s2)) => Some(Parsed([t] + ts, s2))
  }

  /** `rdbLoadObject` for the types that are not stored as one packed string. */
  function LoadObject(kind: u8, s: Text): (r: Option<Parsed<Value>>)
    requires kind in {TYPE_STRING, TYPE_LIST, TYPE_SET, TYPE_HASH}
    ensures r.Some? ==> |r.value.rest| < |s|
  {
    if kind == TYPE_STRING then
      match LoadString(s)
      case None => None
      case Some(Parsed(t, s1)) => Some(Parsed(Str(t), s1))
    else
      match LoadLen(s)
      case None => None
      case Some(Parsed(l, s1)) =>
        var n := Number(l);
        if n == LEN_ERROR then None
        else
          match LoadTexts(if kind == TYPE_HASH then 2 * n else n, s1)
          case None => None
          case Some(Parsed(ts, s2)) => Some(Parsed(Build(kind, ts), s2))
  }

  /** The pieces of a file, each of which saves one text. */
  ghost predicate SavesEach(parts: seq<Text>, texts: seq<Text>) {
    |parts| == |texts| && forall i :: 0 <= i < |parts| ==> Saves(parts[i], texts[i])
  }

  lemma LoadOneMore(t: Text, s: Text, n: nat)
    requires n > 0 && LoadString(s).Some? && LoadString(s).value.value == t
    requires LoadTexts(n - 1, LoadString(s).value.rest).Some?
    ensures var r := LoadTexts(n - 1, LoadString(s).value.rest).value;
            LoadTexts(n, s) == Some(Parsed([t] + r.value, r.rest))
  {
    hide LoadString;
  }

  lemma {:induction false} TextsRoundTrip(parts: seq<Text>, texts: seq<Text>, rest: Text)
    requires SavesEach(parts, texts)
    ensures LoadTexts(|texts|, Concat(parts) + rest) == Some(Parsed(texts, rest))
    decreases |parts|
  {
    hide LoadTexts, LoadString;
    if parts == [] {
      NoTexts(rest);
      assert [] + rest == rest && texts == [];
    } else {
      var later := Concat(parts[1..]) + rest;
      TextsRoundTrip(parts[1..], texts[1..], rest);
      assert Concat(parts) + rest == parts[0] + later;
      assert Saves(parts[0], texts[0]);
      assert LoadString(parts[0] + later) == Some(Parsed(texts[0], later));
      LoadOneMore(texts[0], parts[0] + later, |texts|);
      assert texts == [texts[0]] + texts[1..];
    }
  }

  lemma NoTexts(rest: Text)
    ensures LoadTexts(0, rest) == Some(Parsed([], rest))
  {
  }

  ghost predicate SavesObject(out: Text, v: Value) {
    forall rest :: LoadObject(TypeByte(v), out + rest) == Some(Parsed(v, rest))
  }

  lemma StringSaved(out: Text, text: Text)
    requires Saves(out, text)
    ensures SavesObject(out, Str(text))
  {
    hide LoadString;
    forall rest ensures LoadObject(TYPE_STRING, out + rest) == Some(Parsed(Str(text), rest)) {
      assert LoadString(out + rest) == Some(Parsed(text, rest));
    }
  }

  lemma LoadCollection(v: Value, n: nat, count: nat, s: Text, s1: Text, ts: seq<Text>, s2: Text)
    requires !v.Str? && n < LEN_ERROR && count == (if v.Hash? then 2 * n else n)
    requires LoadLen(s) == Some(Parsed(Plain(n), s1)) && LoadTexts(count, s1) == Some(Parsed(ts, s2))
    ensures LoadObject(TypeByte(v), s) == Some(Parsed(Build(TypeByte(v), ts), s2))
  {
    hide LoadLen, LoadTexts, Build;
  }

  lemma ElementsSaved(parts: seq<Text>, v: Value, items: seq<seq<Text>>)
    requires !v.Str? && Iterates(v, items) && |items| < LEN_ERROR && SavesEach(parts, Flat(items))
    ensures SavesObject(SaveLen(|items|) + Concat(parts), v)
  {
    FlatLength(items, Width(v));
    BuildsBack(v, items);
    hide SaveLen, LoadLen, LoadTexts, LoadObject, Build, Iterates, SavesEach;
    var out, texts := SaveLen(|items|) + Concat(parts), Flat(items);
    forall rest ensures LoadObject(TypeByte(v), out + rest) == Some(Parsed(v, rest)) {
      var s1 := Concat(parts) + rest;
      LengthRoundTrip(|items|, s1);
      TextsRoundTrip(parts, texts, rest);
      assert out + rest == SaveLen(|items|) + s1;
      LoadCollection(v, |items|, |texts|, SaveLen(|items|) + s1, s1, texts, rest);
    }
  }

  /** The elements load back, unless their number is read as an error. */
  lemma CollectionSaved(parts: seq<Text>, v: Value, items: seq<seq<Text>>)
    requires !v.Str? && Iterates(v, items) && |items| < LEN_LIMIT && SavesEach(parts, Flat(items))
    ensures SavesObject(SaveLen(|items|) + Concat(parts), v) <==> |items| != LEN_ERROR
  {
    hide SaveLen, LoadLen, LoadObject, Iterates, SavesEach, Concat;
    var out := SaveLen(|items|) + Concat(parts);
    if |items| == LEN_ERROR {
      LengthRoundTrip(|items|, Concat(parts));
      LargestCountFails(v, out, Concat(parts));
      assert LoadObject(TypeByte(v), out + []) == None by {
        assert out + [] == out;
      }
    } else {
      ElementsSaved(parts, v, items);
    }
  }

  lemma LargestCountFails(v: Value, s: Text, s1: Text)
    requires !v.Str? && LoadLen(s) == Some(Parsed(Plain(LEN_ERROR), s1))
    ensures LoadObject(TypeByte(v), s) == None
  {
    hide LoadLen, LoadTexts, Build;
  }

  lemma BuildsBack(v: Value, items: seq<seq<Text>>)
    requires !v.Str? && Iterates(v, items)
    ensures Build(TypeByte(v), Flat(items)) == v
  {
    match v
    case Hash(f) => FieldsAgree(map[], f, items);
    case _ =>
  }

  /** `rdbSaveMillisecondTime`. */
  function SaveTime(t: int): (b: Text)
    requires InRange(t)
    ensures |b| == 8
  {
    Powers();
    ToBytes(t, 8)
  }

  lemma TimeRoundTrip(t: int)
    requires InRange(t)
    ensures FromBytes(SaveTime(t)) == t
  {
    Powers();
    BytesRoundTrip(t, 8);
  }

  // ------------------------------------------------------------------
  // The loader
  // ------------------------------------------------------------------

  const OPCODE_EXPIRETIME_MS := 252
  const OPCODE_EXPIRETIME := 253
  const OPCODE_SELECTDB := 254
  const OPCODE_EOF := 255

  /** No expire time, in the file and for `getExpire`. */
  const NO_EXPIRE := -1

  datatype Prefix = Prefix(expire: int, kind: u8)

  /** An expire time, if there is one, and the type or opcode that follows. */
  function LoadType(s: Text): (r: Option<Parsed<Prefix>>)
    ensures r.Some? ==> |r.value.rest| < |s|
  {
    if s == [] then None
    else if s[0] == OPCODE_EXPIRETIME_MS then
      if |s| < 10 then None
      else
        var t := FromBytes(s[1..9]);
        if t == NO_EXPIRE then None else Some(Parsed(Prefix(t, s[9]), s[10..]))
    else if s[0] == OPCODE_EXPIRETIME then
      if |s| < 6 then None
      else
        var t := FromBytes(s[1..5]);
        if t == NO_EXPIRE then None else Some(Parsed(Prefix(t * 1000, s[5]), s[6..]))
    else Some(Parsed(Prefix(NO_EXPIRE, s[0]), s[1..]))
  }

  datatype Outcome =
    | Done(data: Dataset, rest: Text)
    | ShortRead
    | TooManyDatabases
    | UnknownType
    | WrongSignature
    | WrongVersion
    | WrongChecksum

  /** A loaded key goes into the selected database, unless it has expired and this is a master. */
  function Stored(st: State, key: Text, v: Value, expire: int, now: int, master: bool): State
    requires st.db < |st.data|
  {
    if master && expire != NO_EXPIRE && expire < now then st
    else
      st.(data := st.data[st.db :=
            st.data[st.db][key := Entry(v, if expire == NO_EXPIRE then None else Some(expire))]])
  }

  /** The loop of `rdbLoad`. */
  function LoadEntries(s: Text, st: State, now: int, master: bool): Outcome
    requires st.db < |st.data|
    decreases |s|
  {
    match LoadType(s)
    case None => ShortRead
    case Some(Parsed(Prefix(expire, kind), s1)) =>
      if kind == OPCODE_EOF then Done(st.data, s1)
      else if kind == OPCODE_SELECTDB then
        match LoadLen(s1)
        case None => ShortRead
        case Some(Parsed(l, s2)) =>
          if Number(l) == LEN_ERROR then ShortRead
          else if Number(l) >= |st.data| then TooManyDatabases
          else LoadEntries(s2, st.(db := Number(l)), now, master)
      else
        match LoadString(s1)
        case None => ShortRead
        case Some(Parsed(key, s2)) =>
          if kind !in {TYPE_STRING, TYPE_LIST, TYPE_SET, TYPE_HASH} then UnknownType
          else
            match LoadObject(kind, s2)
            case None => ShortRead
            case Some(Parsed(v, s3)) => LoadEntries(s3, Stored(st, key, v, expire, now, master), now, master)
  }

  // ------------------------------------------------------------------
  // Entries
  // ------------------------------------------------------------------

  function ExpireOf(it: Item): int {
    match it.expire case None => NO_EXPIRE case Some(t) => t
  }

  /** What can be saved: lengths that the format can tell from its error mark, times of 64 bits. */
  ghost predicate Savable(it: Item) {
    && Iterates(it.value, it.items) && |it.items| < LEN_ERROR
    && |it.key| < LEN_ERROR && (forall i :: 0 <= i < |Flat(it.items)| ==> |Flat(it.items)[i]| < LEN_ERROR)
    && (it.expire.Some? ==> InRange(it.expire.value))
  }

  predicate ExpiredAt(it: Item, now: int) {
    ExpireOf(it) != NO_EXPIRE && ExpireOf(it) < now
  }

  /** The bytes of one key; none if it has expired. */
  ghost predicate SavesEntry(out: Text, it: Item, now: int) {
    if ExpiredAt(it, now) then out == []
    else
      && (it.expire.Some? ==> InRange(it.expire.value))
      && exists k, v :: Saves(k, it.key) && SavesObject(v, it.value) && out == Head(it) + k + v
  }

  lemma LoadTypeBack(it: Item, kind: u8, rest: Text)
    requires it.expire.Some? ==> InRange(it.expire.value)
    requires kind != OPCODE_EXPIRETIME_MS && kind != OPCODE_EXPIRETIME
    ensures var t := ExpireOf(it); var out := (if t != NO_EXPIRE then [OPCODE_EXPIRETIME_MS] + SaveTime(t) else []) + [kind];
            LoadType(out + rest) == Some(Parsed(Prefix(ExpireOf(it), kind), rest))
  {
    hide SaveTime, FromBytes;
    var t := ExpireOf(it);
    if t == NO_EXPIRE {
      assert ([] + [kind] + rest)[1..] == rest;
    } else {
      var s := [OPCODE_EXPIRETIME_MS] + SaveTime(t) + [kind] + rest;
      TimeRoundTrip(t);
      assert s[1..9] == SaveTime(t) && s[9] == kind && s[10..] == rest;
    }
  }

  lemma LoadOneKey(s: Text, e: Prefix, s1: Text, key: Text, s2: Text, v: Value, s3: Text, st: State, now: int, master: bool)
    requires st.db < |st.data| && e.kind in {TYPE_STRING, TYPE_LIST, TYPE_SET, TYPE_HASH}
    requires LoadType(s) == Some(Parsed(e, s1)) && LoadString(s1) == Some(Parsed(key, s2))
    requires LoadObject(e.kind, s2) == Some(Parsed(v, s3))
    ensures LoadEntries(s, st, now, master) == LoadEntries(s3, Stored(st, key, v, e.expire, now, master), now, master)
  {
    hide LoadType, LoadString, LoadObject, Stored;
  }

  function Head(it: Item): Text
    requires it.expire.Some? ==> InRange(it.expire.value)
  {
    (if ExpireOf(it) != NO_EXPIRE then [OPCODE_EXPIRETIME_MS] + SaveTime(ExpireOf(it)) else []) + [TypeByte(it.value)]
  }

  /** One saved key is loaded back, unless it is found to have expired. */
  lemma EntryRoundTrip(out: Text, it: Item, saved: int, rest: Text, st: State, now: int, master: bool)
    requires st.db < |st.data| && Savable(it) && SavesEntry(out, it, saved)
    ensures LoadEntries(out + rest, st, now, master) ==
            LoadEntries(rest, if ExpiredAt(it, saved) then st else Stored(st, it.key, it.value, ExpireOf(it), now, master), now, master)
  {
    hide LoadString, LoadObject, LoadType, Stored, LoadEntries;
    if ExpiredAt(it, saved) {
      assert out + rest == rest;
    } else {
      var k, v :| Saves(k, it.key) && SavesObject(v, it.value) && out == Head(it) + k + v;
      LoadTypeBack(it, TypeByte(it.value), k + (v + rest));
      assert out + rest == Head(it) + (k + (v + rest));
      assert LoadString(k + (v + rest)) == Some(Parsed(it.key, v + rest));
      assert LoadObject(TypeByte(it.value), v + rest) == Some(Parsed(it.value, rest));
      LoadOneKey(out + rest, Prefix(ExpireOf(it), TypeByte(it.value)), k + (v + rest), it.key, v + rest, it.value, rest, st, now, master);
    }
  }

  // ------------------------------------------------------------------
  // Databases
  // ------------------------------------------------------------------

  ghost predicate SavesEntries(parts: seq<Text>, its: seq<Item>, saved: int) {
    |parts| == |its| && forall i :: 0 <= i < |its| ==> SavesEntry(parts[i], its[i], saved)
  }

  /** The keys of a database are stored one after the other. */
  function StoreAll(st: State, its: seq<Item>, saved: int, now: int, master: bool): (st': State)
    requires st.db < |st.data|
    ensures |st'.data| == |st.data| && st'.db == st.db
    decreases |its|
  {
    if its == [] then st
    else
      var it := its[0];
      StoreAll(if ExpiredAt(it, saved) then st else Stored(st, it.key, it.value, ExpireOf(it), now, master), its[1..], saved, now, master)
  }

  lemma {:induction false} EntriesRoundTrip(parts: seq<Text>, its: seq<Item>, saved: int, rest: Text, st: State, now: int, master: bool)
    requires st.db < |st.data| && SavesEntries(parts, its, saved) && forall i :: 0 <= i < |its| ==> Savable(its[i])
    ensures LoadEntries(Concat(parts) + rest, st, now, master) == LoadEntries(rest, StoreAll(st, its, saved, now, master), now, master)
    decreases |its|
  {
    hide LoadEntries, SavesEntry, Savable, Stored, ExpiredAt;
    if its == [] {
      assert Concat(parts) + rest == rest;
    } else {
      var it := its[0];
      var later := Concat(parts[1..]) + rest;
      assert Concat(parts) + rest == parts[0] + later;
      EntryRoundTrip(parts[0], it, saved, later, st, now, master);
      var st' := if ExpiredAt(it, saved) then st else Stored(st, it.key, it.value, ExpireOf(it), now, master);
      StoredKeeps(st, it.key, it.value, ExpireOf(it), now, master);
      EntriesRoundTrip(parts[1..], its[1..], saved, rest, st', now, master);
    }
  }

  lemma StoredKeeps(st: State, key: Text, v: Value, expire: int, now: int, master: bool)
    requires st.db < |st.data|
    ensures var st' := Stored(st, key, v, expire, now, master); st'.db == st.db && |st'.data| == |st.data|
  {
  }

  /** The bytes of a database; none if it is empty. */
  ghost predicate SavesDb(out: Text, its: seq<Item>, j: nat, saved: int) {
    if its == [] then out == []
    else j < LEN_ERROR && exists parts :: SavesEntries(parts, its, saved) && out == [OPCODE_SELECTDB] + SaveLen(j) + Concat(parts)
  }

  lemma LoadSelect(j: nat, rest: Text, st: State, now: int, master: bool)
    requires st.db < |st.data| && j < |st.data| && j < LEN_ERROR
    ensures LoadEntries([OPCODE_SELECTDB] + SaveLen(j) + rest, st, now, master) == LoadEntries(rest, st.(db := j), now, master)
  {
    hide LoadLen, SaveLen;
    LengthRoundTrip(j, rest);
    var s := [OPCODE_SELECTDB] + SaveLen(j) + rest;
    assert s[1..] == SaveLen(j) + rest;
  }

  /** The databases from number `j` on are stored one after the other. */
  function StoreDbs(st: State, dbs: seq<seq<Item>>, j: nat, saved: int, now: int, master: bool): (st': State)
    requires st.db < |st.data| == |dbs| && j <= |dbs|
    ensures |st'.data| == |st.data| && st'.db < |st'.data|
    decreases |dbs| - j
  {
    if j == |dbs| then st
    else StoreDbs(if dbs[j] == [] then st else StoreAll(st.(db := j), dbs[j], saved, now, master), dbs, j + 1, saved, now, master)
  }

  ghost predicate SavesDbs(outs: seq<Text>, dbs: seq<seq<Item>>, saved: int) {
    |outs| == |dbs| && forall j :: 0 <= j < |dbs| ==> SavesDb(outs[j], dbs[j], j, saved)
  }

  lemma {:induction false} DbsRoundTrip(outs: seq<Text>, dbs: seq<seq<Item>>, j: nat, saved: int, rest: Text,
                                        st: State, now: int, master: bool)
    requires st.db < |st.data| == |dbs| && j <= |dbs| && SavesDbs(outs, dbs, saved)
    requires forall k, i :: 0 <= k < |dbs| && 0 <= i < |dbs[k]| ==> Savable(dbs[k][i])
    ensures LoadEntries(Concat(outs[j..]) + rest, st, now, master) == LoadEntries(rest, StoreDbs(st, dbs, j, saved, now, master), now, master)
    decreases |dbs| - j
  {
    hide LoadEntries, SavesEntries, Savable, StoreAll, SaveLen;
    if j == |dbs| {
      assert Concat(outs[j..]) + rest == rest;
    } else {
      var later := Concat(outs[j + 1..]) + rest;
      assert outs[j..][0] == outs[j] && outs[j..][1..] == outs[j + 1..];
      assert Concat(outs[j..]) + rest == outs[j] + later;
      assert SavesDb(outs[j], dbs[j], j, saved);
      if dbs[j] == [] {
        assert outs[j] + later == later;
        DbsRoundTrip(outs, dbs, j + 1, saved, rest, st, now, master);
      } else {
        var parts :| SavesEntries(parts, dbs[j], saved) && outs[j] == [OPCODE_SELECTDB] + SaveLen(j) + Concat(parts);
        LoadSelect(j, Concat(parts) + later, st, now, master);
        assert outs[j] + later == [OPCODE_SELECTDB] + SaveLen(j) + (Concat(parts) + later);
        EntriesRoundTrip(parts, dbs[j], saved, later, st.(db := j), now, master);
        DbsRoundTrip(outs, dbs, j + 1, saved, rest, StoreAll(st.(db := j), dbs[j], saved, now, master), now, master);
      }
    }
  }

  // ------------------------------------------------------------------
  // What is stored in the end
  // ------------------------------------------------------------------

  /** An expire time had passed when the file was saved or, for a master, when it was loaded. */
  predicate Dropped(expire: Option<int>, saved: int, now: int, master: bool) {
    expire.Some? && (expire.value < saved || (master && expire.value < now))
  }

  function Kept(db: Db, saved: int, now: int, master: bool): Db {
    map k | k in db && !Dropped(db[k].expire, saved, now, master) :: db[k]
  }

  /** What should come back: every key that had not expired when saved or, on a master, when loaded. */
  lemma KeptMeans(db: Db, saved: int, now: int, master: bool, k: Text)
    ensures k in Kept(db, saved, now, master) <==>
            k in db && match db[k].expire case None => true case Some(t) => t >= saved && (master ==> t >= now)
    ensures k in Kept(db, saved, now, master) ==> Kept(db, saved, now, master)[k] == db[k]
  {
  }

  /** The expire time a file keeps: one of -1 is taken for none. */
  function TimeSaved(expire: Option<int>): Option<int> {
    if expire == Some(NO_EXPIRE) then None else expire
  }

  /** What comes back of a database. */
  function Back(db: Db, saved: int, now: int, master: bool): Db {
    map k | k in db && !Dropped(TimeSaved(db[k].expire), saved, now, master) :: db[k].(expire := TimeSaved(db[k].expire))
  }

  /** It is what should come back if and only if no key has an expire time of -1. */
  lemma BackIsKept(db: Db, saved: int, now: int, master: bool)
    ensures Back(db, saved, now, master) == Kept(db, saved, now, master) <==> forall k :: k in db ==> db[k].expire != Some(NO_EXPIRE)
  {
    var back, kept := Back(db, saved, now, master), Kept(db, saved, now, master);
    if k :| k in db && db[k].expire == Some(NO_EXPIRE) {
      assert k in back && back[k].expire == None;
      assert k !in kept || kept[k].expire == Some(NO_EXPIRE);
    } else {
      assert forall k :: k in db ==> TimeSaved(db[k].expire) == db[k].expire;
    }
  }

  predicate NamesKey(its: seq<Item>, k: Text) {
    exists i :: 0 <= i < |its| && its[i].key == k
  }

  lemma {:induction false} StoreAllIs(st: State, its: seq<Item>, saved: int, now: int, master: bool)
    requires st.db < |st.data| && NewKeys(st.data[st.db], its)
    ensures var st' := StoreAll(st, its, saved, now, master);
            && (forall j :: 0 <= j < |st.data| && j != st.db ==> st'.data[j] == st.data[j])
            && (forall k :: k in st.data[st.db] ==> k in st'.data[st.db] && st'.data[st.db][k] == st.data[st.db][k])
            && (forall k :: k in st'.data[st.db] ==> k in st.data[st.db] || NamesKey(its, k))
            && (forall i :: 0 <= i < |its| ==>
                  if Dropped(TimeSaved(its[i].expire), saved, now, master) then its[i].key !in st'.data[st.db]
                  else its[i].key in st'.data[st.db] && st'.data[st.db][its[i].key] == Entry(its[i].value, TimeSaved(its[i].expire)))
    decreases |its|
  {
    hide Iterates;
    if its != [] {
      var it := its[0];
      var st1 := if ExpiredAt(it, saved) then st else Stored(st, it.key, it.value, ExpireOf(it), now, master);
      assert forall i :: 1 <= i < |its| ==> its[i] == its[1..][i - 1];
      StoreAllIs(st1, its[1..], saved, now, master);
      var st' := StoreAll(st1, its[1..], saved, now, master);
      forall k | k in st'.data[st.db] ensures k in st.data[st.db] || NamesKey(its, k) {
        if NamesKey(its[1..], k) {
          var i :| 0 <= i < |its[1..]| && its[1..][i].key == k;
          assert its[i + 1].key == k;
        } else if k !in st.data[st.db] {
          assert its[0].key == k;
        }
      }
      if Dropped(TimeSaved(it.expire), saved, now, master) {
        assert !NamesKey(its[1..], it.key);
      }
    }
  }

  lemma DbStored(st: State, its: seq<Item>, db: Db, saved: int, now: int, master: bool)
    requires st.db < |st.data| && st.data[st.db] == map[] && Lists(its, db)
    ensures var st' := StoreAll(st, its, saved, now, master);
            && st'.data[st.db] == Back(db, saved, now, master)
            && forall j :: 0 <= j < |st.data| && j != st.db ==> st'.data[j] == st.data[j]
  {
    hide Iterates, StoreAll;
    StoreAllIs(st, its, saved, now, master);
    var got := StoreAll(st, its, saved, now, master).data[st.db];
    forall k ensures k in got <==> k in Back(db, saved, now, master) {
      if k in db {
        var i :| 0 <= i < |its| && its[i].key == k;
        assert db[k] == Entry(its[i].value, its[i].expire);
      }
    }
    forall k | k in got ensures got[k] == db[k].(expire := TimeSaved(db[k].expire)) {
      var i :| 0 <= i < |its| && its[i].key == k;
      assert db[k] == Entry(its[i].value, its[i].expire);
    }
  }

  lemma {:induction false} DbsStored(st: State, dbs: seq<seq<Item>>, d: Dataset, j: nat, saved: int, now: int, master: bool)
    requires st.db < |st.data| == |dbs| && j <= |dbs| && ListsAll(dbs, d)
    requires forall k :: j <= k < |dbs| ==> st.data[k] == map[]
    ensures var r := StoreDbs(st, dbs, j, saved, now, master).data;
            forall i :: 0 <= i < |dbs| ==> r[i] == if i < j then st.data[i] else Back(d[i], saved, now, master)
    decreases |dbs| - j
  {
    hide StoreAll, Lists;
    if j < |dbs| {
      assert Lists(dbs[j], d[j]);
      if dbs[j] == [] {
        NothingBack(d[j], dbs[j], saved, now, master);
        DbsStored(st, dbs, d, j + 1, saved, now, master);
      } else {
        DbStored(st.(db := j), dbs[j], d[j], saved, now, master);
        DbsStored(StoreAll(st.(db := j), dbs[j], saved, now, master), dbs, d, j + 1, saved, now, master);
      }
    }
  }

  lemma NothingBack(db: Db, its: seq<Item>, saved: int, now: int, master: bool)
    requires Lists(its, db) && its == []
    ensures Back(db, saved, now, master) == map[]
  {
  }

  // ------------------------------------------------------------------
  // The file
  // ------------------------------------------------------------------

  /** The signature and version 6. */
  const MAGIC: Text := [82, 69, 68, 73, 83, 48, 48, 48, 54]
  const SIGNATURE: Text := [82, 69, 68, 73, 83]
  const VERSION := 6

  /** The checksum of the bytes, as an unsigned word. */
  type Checksum = Text -> u64

  /** `rdbLoad`; a checksum of 0 says that the file was saved without one. */
  function LoadFile(s: Text, dbnum: nat, now: int, master: bool, verify: bool, crc: Checksum): Outcome
    requires dbnum > 0
  {
    if |s| < 9 then ShortRead
    else if s[..5] != SIGNATURE then WrongSignature
    else
      var version := AofLoad.Atoi(s[5..9]);
      if version < 1 || version > VERSION then WrongVersion
      else
        match LoadEntries(s[9..], State(NoKeys(dbnum), 0), now, master)
        case Done(data, rest) =>
          if version < 5 || !verify then Done(data, rest)
          else if |rest| < 8 || |rest| > |s| then ShortRead
          else
            var cksum := FromLittleEndian(rest[..8]);
            if cksum != 0 && cksum != crc(s[..|s| - |rest|]) then WrongChecksum else Done(data, rest[8..])
        case failure => failure
  }

  /** The file of the listed databases. */
  ghost predicate SavesFile(out: Text, dbs: seq<seq<Item>>, saved: int, checksum: bool, crc: Checksum) {
    exists outs ::
      && SavesDbs(outs, dbs, saved)
      && var body := MAGIC + Concat(outs) + [OPCODE_EOF];
         out == body + LittleEndian(if checksum then crc(body) else 0, 8)
  }

  lemma MagicLoads()
    ensures MAGIC[..5] == SIGNATURE && AofLoad.Atoi(MAGIC[5..9]) == 6
  {
    var v := MAGIC[5..9];
    assert v == [48, 48, 48, 54] && v[1..] == [48, 48, 54] && v[1..][1..] == [48, 54] && v[1..][1..][1..] == [54];
    assert ReadDigits(0, [54]) == 6;
    assert ReadDigits(0, [48, 54]) == 6;
    assert ReadDigits(0, [48, 48, 54]) == 6;
  }

  lemma EndLoads(rest: Text, st: State, now: int, master: bool)
    requires st.db < |st.data|
    ensures LoadEntries([OPCODE_EOF] + rest, st, now, master) == Done(st.data, rest)
  {
    assert ([OPCODE_EOF] + rest)[1..] == rest;
  }

  /** The end of a file whose entries load. */
  lemma TrailerLoads(entries: Text, sum: nat, rest: Text, empty: Dataset, now: int, master: bool, verify: bool, crc: Checksum, data: Dataset)
    requires 0 < |empty| && empty == NoKeys(|empty|)
    requires var body := MAGIC + entries + [OPCODE_EOF]; sum == 0 || sum == crc(body)
    requires LoadEntries(entries + ([OPCODE_EOF] + (LittleEndian(sum, 8) + rest)), State(empty, 0), now, master)
             == Done(data, LittleEndian(sum, 8) + rest)
    ensures var body := MAGIC + entries + [OPCODE_EOF];
            LoadFile(body + (LittleEndian(sum, 8) + rest), |empty|, now, master, verify, crc)
            == Done(data, if verify then rest else LittleEndian(sum, 8) + rest)
  {
    hide LoadEntries, LittleEndian, FromLittleEndian, NoKeys, AofLoad.Atoi;
    var tail := LittleEndian(sum, 8) + rest;
    var s := MAGIC + entries + [OPCODE_EOF] + tail;
    FileParts(s, entries, tail);
    MagicLoads();
    Powers();
    LittleEndianBack(sum, 8);
    assert tail[..8] == LittleEndian(sum, 8) && tail[8..] == rest;
  }

  /** Databases as they are stored after loading, and the bytes after the end mark. */
  lemma BodyLoads(outs: seq<Text>, dbs: seq<seq<Item>>, d: Dataset, saved: int, tail: Text, now: int, master: bool)
    returns (data: Dataset)
    requires 0 < |d| && ListsAll(dbs, d) && SavesDbs(outs, dbs, saved)
    requires forall j, i :: 0 <= j < |dbs| && 0 <= i < |dbs[j]| ==> Savable(dbs[j][i])
    ensures LoadEntries(Concat(outs) + ([OPCODE_EOF] + tail), State(NoKeys(|d|), 0), now, master) == Done(data, tail)
    ensures |data| == |d| && forall j :: 0 <= j < |d| ==> data[j] == Back(d[j], saved, now, master)
  {
    hide LoadEntries, SavesDbs, Savable, StoreDbs, Back, Lists;
    var st := State(NoKeys(|d|), 0);
    DbsStored(st, dbs, d, 0, saved, now, master);
    DbsRoundTrip(outs, dbs, 0, saved, [OPCODE_EOF] + tail, st, now, master);
    EndLoads(tail, StoreDbs(st, dbs, 0, saved, now, master), now, master);
    assert outs[0..] == outs;
    data := StoreDbs(st, dbs, 0, saved, now, master).data;
  }

  lemma TrailerSplits(body: Text, sum: Text, rest: Text)
    requires |sum| == 8
    ensures (body + sum) + rest == body + (sum + rest) && (body + sum)[|body + sum| - 8..] == sum
  {
  }

  /**
   Loading what was saved gives back the databases, keys, values and expire times, without the keys
   that had expired when the file was saved or, on a master, when it is loaded, if and only if no
   expire time is -1: such a key comes back without one. What follows the file is left untouched, and
   whether checksums are written or verified makes no difference.
   */
  lemma FileRoundTrip(out: Text, dbs: seq<seq<Item>>, d: Dataset, saved: int, checksum: bool, crc: Checksum,
                      rest: Text, now: int, master: bool, verify: bool)
    requires 0 < |d| && ListsAll(dbs, d) && SavesFile(out, dbs, saved, checksum, crc)
    requires forall j, i :: 0 <= j < |dbs| && 0 <= i < |dbs[j]| ==> Savable(dbs[j][i])
    ensures var r := LoadFile(out + rest, |d|, now, master, verify, crc);
            && r.Done? && |r.data| == |d| && (forall j :: 0 <= j < |d| ==> r.data[j] == Back(d[j], saved, now, master))
            && ((forall j :: 0 <= j < |d| ==> r.data[j] == Kept(d[j], saved, now, master)) <==> NoTimeMark(d))
            && r.rest == if verify then rest else out[|out| - 8..] + rest
  {
    hide LoadEntries, LittleEndian, ListsAll, SavesDbs, Savable, Kept, Back, LoadFile;
    AllBack(d, saved, now, master);
    var outs :| SavesDbs(outs, dbs, saved) &&
                var body := MAGIC + Concat(outs) + [OPCODE_EOF];
                out == body + LittleEndian(if checksum then crc(body) else 0, 8);
    var body := MAGIC + Concat(outs) + [OPCODE_EOF];
    var sum: nat := if checksum then crc(body) else 0;
    var data := BodyLoads(outs, dbs, d, saved, LittleEndian(sum, 8) + rest, now, master);
    TrailerLoads(Concat(outs), sum, rest, NoKeys(|d|), now, master, verify, crc, data);
    TrailerSplits(body, LittleEndian(sum, 8), rest);
  }

  /** No key has the expire time that the format uses for none. */
  predicate NoTimeMark(d: Dataset) {
    forall j, k :: 0 <= j < |d| && k in d[j] ==> d[j][k].expire != Some(NO_EXPIRE)
  }

  lemma AllBack(d: Dataset, saved: int, now: int, master: bool)
    ensures (forall j :: 0 <= j < |d| ==> Back(d[j], saved, now, master) == Kept(d[j], saved, now, master)) <==> NoTimeMark(d)
  {
    hide Back, Kept;
    forall j | 0 <= j < |d|
      ensures Back(d[j], saved, now, master) == Kept(d[j], saved, now, master)
              <==> forall k :: k in d[j] ==> d[j][k].expire != Some(NO_EXPIRE)
    {
      BackIsKept(d[j], saved, now, master);
    }
  }

  // ------------------------------------------------------------------
  // The bytes of a file
  // ------------------------------------------------------------------

  /** The end mark, and the number of a database, which must exist. */
  lemma MarksAreRead(j: nat, rest: Text, st: State, now: int, master: bool)
    requires st.db < |st.data| && j < LEN_ERROR
    ensures LoadEntries([255] + rest, st, now, master) == Done(st.data, rest)
    ensures LoadEntries([254] + (SaveLen(j) + rest), st, now, master)
            == if j < |st.data| then LoadEntries(rest, st.(db := j), now, master) else TooManyDatabases
  {
    hide LoadLen, SaveLen, LoadString;
    LengthRoundTrip(j, rest);
    assert ([255] + rest)[1..] == rest && ([254] + (SaveLen(j) + rest))[1..] == SaveLen(j) + rest;
  }

  /** An expire time in seconds is read as one in milliseconds; -1 is no time in either form. */
  lemma TimesAreRead(t: int, kind: u8, rest: Text, st: State, now: int, master: bool)
    requires st.db < |st.data| && -0x8000_0000 <= t < 0x8000_0000
    ensures FitsBytes(t, 4) && FitsBytes(1000 * t, 8)
    ensures LoadEntries([253] + ToBytes(t, 4) + ([kind] + rest), st, now, master)
            == if t == -1 then ShortRead else LoadEntries([252] + ToBytes(1000 * t, 8) + ([kind] + rest), st, now, master)
  {
    Powers();
    hide LoadString, LoadObject, LoadLen, Stored, FromBytes, ToBytes, Power256;
    var a, b := [253] + ToBytes(t, 4) + ([kind] + rest), [252] + ToBytes(1000 * t, 8) + ([kind] + rest);
    BytesRoundTrip(t, 4);
    BytesRoundTrip(1000 * t, 8);
    assert a[1..5] == ToBytes(t, 4) && a[5] == kind && a[6..] == rest;
    assert b[1..9] == ToBytes(1000 * t, 8) && b[9] == kind && b[10..] == rest;
    assert t != -1 ==> LoadType(a) == LoadType(b);
  }

  /** Types that no version of the format has. */
  lemma UnknownTypes(kind: u8, k: Text, key: Text, rest: Text, st: State, now: int, master: bool)
    requires st.db < |st.data| && (5 <= kind <= 8 || 14 <= kind <= 251) && Saves(k, key)
    ensures LoadEntries([kind] + (k + rest), st, now, master) == UnknownType
  {
    hide LoadString, LoadObject, LoadLen, Stored;
    assert ([kind] + (k + rest))[1..] == k + rest;
    assert LoadString(k + rest) == Some(Parsed(key, rest));
  }

  /** A key with its value, and perhaps its expire time in front, goes to the selected database; a master leaves out what has expired. */
  lemma EntryIsStored(it: Item, k: Text, v: Text, rest: Text, st: State, now: int, master: bool)
    requires st.db < |st.data| && Savable(it) && it.expire != Some(-1) && Saves(k, it.key) && SavesObject(v, it.value)
    ensures var kind := if it.value.Str? then 0 else if it.value.List? then 1 else if it.value.Set? then 2 else 4;
            Head(it) == (if it.expire.Some? then [252] + SaveTime(it.expire.value) else []) + [kind]
    ensures LoadEntries(Head(it) + k + v + rest, st, now, master)
            == LoadEntries(rest, if master && it.expire.Some? && it.expire.value < now then st else
                             st.(data := st.data[st.db := st.data[st.db][it.key := Entry(it.value, it.expire)]]), now, master)
  {
    hide LoadEntries, Saves, SavesObject, Iterates, SaveTime;
    var early := if it.expire.Some? then it.expire.value else 0;
    EntryRoundTrip(Head(it) + k + v, it, early, rest, st, now, master);
  }

  /** What a file must start with, and which versions are read. */
  lemma HeaderIsChecked(s: Text, dbnum: nat, now: int, master: bool, verify: bool, crc: Checksum)
    requires dbnum > 0
    ensures var r := LoadFile(s, dbnum, now, master, verify, crc);
            && (|s| < 9 ==> r == ShortRead)
            && (|s| >= 9 && s[..5] != Ascii("REDIS") ==> r == WrongSignature)
            && (|s| >= 9 && s[..5] == Ascii("REDIS") && !(1 <= AofLoad.Atoi(s[5..9]) <= 6) ==> r == WrongVersion)
            && (|s| >= 9 && s[..5] == Ascii("REDIS") && (1 <= AofLoad.Atoi(s[5..9]) <= 4 || (!verify && 1 <= AofLoad.Atoi(s[5..9]) <= 6)) ==>
                  r == LoadEntries(s[9..], State(NoKeys(dbnum), 0), now, master))
    ensures MAGIC == Ascii("REDIS0006")
  {
    hide LoadEntries, FromLittleEndian, AofLoad.Atoi, NoKeys;
    assert SIGNATURE == Ascii("REDIS");
  }

  // ------------------------------------------------------------------
  // Damaged files
  // ------------------------------------------------------------------

  lemma {:induction false} TextsExtend(n: nat, s: Text, more: Text)
    ensures LoadTexts(n, s).Some? ==> LoadTexts(n, s + more) == Extended(LoadTexts(n, s), more) && EndOf(LoadTexts(n, s).value.rest, s)
  {
    hide LoadString, EndOf;
    if n == 0 {
      EndOfSelf(s);
    } else {
      StringExtends(s, more);
      if LoadString(s).Some? {
        var s1 := LoadString(s).value.rest;
        TextsExtend(n - 1, s1, more);
        if LoadTexts(n - 1, s1).Some? {
          EndOfEnd(LoadTexts(n - 1, s1).value.rest, s1, s);
        }
      }
    }
  }

  lemma EndOfSelf(s: Text)
    ensures EndOf(s, s)
  {
  }

  lemma ObjectExtends(kind: u8, s: Text, more: Text)
    requires kind in {TYPE_STRING, TYPE_LIST, TYPE_SET, TYPE_HASH}
    ensures LoadObject(kind, s).Some? ==>
              LoadObject(kind, s + more) == Extended(LoadObject(kind, s), more) && EndOf(LoadObject(kind, s).value.rest, s)
  {
    hide LoadString, LoadLen, LoadTexts, Build, EndOf;
    StringExtends(s, more);
    LenExtends(s, more);
    if kind != TYPE_STRING && LoadLen(s).Some? {
      var n, s1 := Number(LoadLen(s).value.value), LoadLen(s).value.rest;
      var count := if kind == TYPE_HASH then 2 * n else n;
      TextsExtend(count, s1, more);
      if LoadTexts(count, s1).Some? {
        EndOfEnd(LoadTexts(count, s1).value.rest, s1, s);
      }
    }
  }

  lemma TypeExtends(s: Text, more: Text)
    ensures LoadType(s).Some? ==> LoadType(s + more) == Extended(LoadType(s), more) && EndOf(LoadType(s).value.rest, s)
  {
    hide FromBytes;
    if s != [] {
      var t := s + more;
      assert forall i :: 0 <= i < |s| ==> t[i] == s[i];
      assert forall i :: 0 <= i <= |s| ==> t[i..] == s[i..] + more;
      assert |s| >= 9 ==> t[1..9] == s[1..9];
      assert |s| >= 5 ==> t[1..5] == s[1..5];
    }
  }

  /** Whatever is decided before the bytes run out stays decided with more of them. */
  lemma {:induction false} EntriesExtend(s: Text, more: Text, st: State, now: int, master: bool)
    requires st.db < |st.data|
    ensures var r := LoadEntries(s, st, now, master); var r' := LoadEntries(s + more, st, now, master);
            if r.Done? then r' == Done(r.data, r.rest + more) && EndOf(r.rest, s) else r.ShortRead? || r' == r
    decreases |s|
  {
    hide LoadType, LoadString, LoadLen, LoadObject, Stored, EndOf;
    TypeExtends(s, more);
    if LoadType(s).Some? {
      var Parsed(Prefix(expire, kind), s1) := LoadType(s).value;
      if kind == OPCODE_SELECTDB {
        LenExtends(s1, more);
        if LoadLen(s1).Some? && Number(LoadLen(s1).value.value) < |st.data| && Number(LoadLen(s1).value.value) != LEN_ERROR {
          var s2 := LoadLen(s1).value.rest;
          EndOfEnd(s2, s1, s);
          EntriesExtend(s2, more, st.(db := Number(LoadLen(s1).value.value)), now, master);
          LastPart(LoadEntries(s2, st.(db := Number(LoadLen(s1).value.value)), now, master), s2, s);
        }
      } else if kind != OPCODE_EOF {
        StringExtends(s1, more);
        if LoadString(s1).Some? && kind in {TYPE_STRING, TYPE_LIST, TYPE_SET, TYPE_HASH} {
          var key, s2 := LoadString(s1).value.value, LoadString(s1).value.rest;
          ObjectExtends(kind, s2, more);
          if LoadObject(kind, s2).Some? {
            var v, s3 := LoadObject(kind, s2).value.value, LoadObject(kind, s2).value.rest;
            EndOfEnd(s2, s1, s);
            EndOfEnd(s3, s2, s);
            StoredKeeps(st, key, v, expire, now, master);
            EntriesExtend(s3, more, Stored(st, key, v, expire, now, master), now, master);
            LastPart(LoadEntries(s3, Stored(st, key, v, expire, now, master), now, master), s3, s);
          }
        }
      }
    }
  }

  lemma LastPart(r: Outcome, rest: Text, s: Text)
    requires EndOf(rest, s)
    ensures r.Done? && EndOf(r.rest, rest) ==> EndOf(r.rest, s)
  {
    hide EndOf;
    if r.Done? && EndOf(r.rest, rest) {
      EndOfEnd(r.rest, rest, s);
    }
  }

  /**
   Loading with verification accepts no other sum than 0 and the checksum of all bytes before it, from
   version 5 on.
   */
  lemma ChecksumIsVerified(s: Text, dbnum: nat, now: int, master: bool, crc: Checksum)
    requires dbnum > 0
    ensures var r := LoadFile(s, dbnum, now, master, true, crc);
            r.Done? && AofLoad.Atoi(s[5..9]) >= 5 ==>
              && 8 + |r.rest| <= |s| && EndOf(r.rest, s)
              && var k := |s| - |r.rest| - 8; var sum := FromLittleEndian(s[k..k + 8]); sum == 0 || sum == crc(s[..k])
  {
    hide LoadEntries, FromLittleEndian, AofLoad.Atoi;
    var r := LoadFile(s, dbnum, now, master, true, crc);
    if r.Done? && AofLoad.Atoi(s[5..9]) >= 5 {
      EntriesExtend(s[9..], [], State(NoKeys(dbnum), 0), now, master);
      var rest := LoadEntries(s[9..], State(NoKeys(dbnum), 0), now, master).rest;
      var k := |s| - |rest|;
      assert s[k..] == rest;
      assert s[k..k + 8] == rest[..8] && s[k + 8..] == rest[8..];
    }
  }

  /** A file with a sum in it whose body was changed, but not so that it cannot be read, is refused. */
  lemma ChangedFileIsRefused(body: Text, changed: Text, rest: Text, data: Dataset, dbnum: nat, now: int, master: bool, crc: Checksum)
    requires dbnum > 0 && crc(body) != 0 && crc(changed) != crc(body)
    requires |changed| >= 9 && changed[..9] == MAGIC
    requires var tail := LittleEndian(crc(body), 8) + rest;
             LoadEntries(changed[9..] + tail, State(NoKeys(dbnum), 0), now, master) == Done(data, tail)
    ensures LoadFile(changed + (LittleEndian(crc(body), 8) + rest), dbnum, now, master, true, crc) == WrongChecksum
  {
    hide LoadEntries, LittleEndian, FromLittleEndian, NoKeys, AofLoad.Atoi;
    var tail := LittleEndian(crc(body), 8) + rest;
    var s := changed + tail;
    MagicLoads();
    assert s[..9] == MAGIC && s[9..] == changed[9..] + tail && s[..|s| - |tail|] == changed;
    assert s[..5] == MAGIC[..5] && s[5..9] == MAGIC[5..9];
    Powers();
    LittleEndianBack(crc(body), 8);
    assert tail[..8] == LittleEndian(crc(body), 8);
  }

  /** The checksum the server uses. */
  function Crc64Of(s: Text): u64 {
    Crc64.Serial(0, seq(|s|, i requires 0 <= i < |s| => s[i] as bv8)) as int
  }

  /** Bytes as the numbers they stand for. */
  function Numbers(b: seq<bv8>): (s: Text)
    ensures |s| == |b|
  {
    seq(|b|, i requires 0 <= i < |b| => b[i] as int)
  }

  lemma SumOfNumbers(b: seq<bv8>)
    ensures Crc64Of(Numbers(b)) == Crc64.Serial(0, b) as int
  {
    hide Crc64.Serial;
    var s := Numbers(b);
    forall i | 0 <= i < |b| ensures s[i] as bv8 == b[i] {
      ByteBack(b[i]);
    }
    assert seq(|s|, i requires 0 <= i < |s| => s[i] as bv8) == b;
  }

  lemma ByteBack(b: bv8)
    ensures (b as int) as bv8 == b
  {
  }

  lemma WordsDiffer(p: bv64, q: bv64)
    ensures p as int == q as int <==> p == q
  {
    assert (p as int) as bv64 == p && (q as int) as bv64 == q;
  }

  /** With the server's checksum, no change within eight consecutive bytes of the body goes unnoticed. */
  lemma ShortDamageIsNoticed(body: seq<bv8>, changed: seq<bv8>, at: nat, rest: Text, data: Dataset, dbnum: nat, now: int, master: bool)
    requires dbnum > 0 && Crc64Of(Numbers(body)) != 0 && |changed| == |body| >= 9 && changed != body && Numbers(changed)[..9] == MAGIC
    requires forall i :: 0 <= i < |body| && (i < at || at + 8 <= i) ==> changed[i] == body[i]
    requires var tail := LittleEndian(Crc64Of(Numbers(body)), 8) + rest;
             LoadEntries(Numbers(changed)[9..] + tail, State(NoKeys(dbnum), 0), now, master) == Done(data, tail)
    ensures LoadFile(Numbers(changed) + (LittleEndian(Crc64Of(Numbers(body)), 8) + rest), dbnum, now, master, true, Crc64Of) == WrongChecksum
  {
    hide LoadEntries, LittleEndian, LoadFile, Crc64.Serial, Crc64Of, Numbers;
    Crc64.ShortChangesAreNoticed(0, body, changed, at);
    SumOfNumbers(body);
    SumOfNumbers(changed);
    WordsDiffer(Crc64.Serial(0, body), Crc64.Serial(0, changed));
    ChangedFileIsRefused(Numbers(body), Numbers(changed), rest, data, dbnum, now, master, Crc64Of);
  }

  /**
   A file that was cut off is never taken for a whole one: it loads if and only if nothing but part of
   the checksum is missing and the checksum is not verified.
   */
  lemma TruncatedFileIsRefused(out: Text, k: nat, dbs: seq<seq<Item>>, d: Dataset, saved: int, checksum: bool, crc: Checksum,
                               now: int, master: bool, verify: bool)
    requires 0 < |d| && ListsAll(dbs, d) && SavesFile(out, dbs, saved, checksum, crc) && k < |out|
    requires forall j, i :: 0 <= j < |dbs| && 0 <= i < |dbs[j]| ==> Savable(dbs[j][i])
    ensures var r := LoadFile(out[..k], |d|, now, master, verify, crc);
            if !verify && k + 8 >= |out| then r.Done? else r.ShortRead?
  {
    hide LoadFile, LoadEntries, LittleEndian, ListsAll, SavesDbs, Savable, Concat;
    var outs :| SavesDbs(outs, dbs, saved) &&
                var body := MAGIC + Concat(outs) + [OPCODE_EOF];
                out == body + LittleEndian(if checksum then crc(body) else 0, 8);
    var tail := LittleEndian(if checksum then crc(MAGIC + Concat(outs) + [OPCODE_EOF]) else 0, 8);
    FileParts(out, Concat(outs), tail);
    var s := out[..k];
    if k < 9 {
      HeadOnly(s, |d|, now, master, verify, crc);
    } else {
      assert s[..9] == MAGIC && s[9..] == out[9..][..k - 9];
      EntriesCut(outs, dbs, d, saved, tail, k - 9, now, master);
      SumCut(s, |d|, now, master, verify, crc);
    }
  }

  lemma HeadOnly(s: Text, dbnum: nat, now: int, master: bool, verify: bool, crc: Checksum)
    requires dbnum > 0 && |s| < 9
    ensures LoadFile(s, dbnum, now, master, verify, crc).ShortRead?
  {
  }

  /** The entries of a saved file, cut off. */
  lemma EntriesCut(outs: seq<Text>, dbs: seq<seq<Item>>, d: Dataset, saved: int, tail: Text, k: nat, now: int, master: bool)
    requires 0 < |d| && ListsAll(dbs, d) && SavesDbs(outs, dbs, saved) && |tail| == 8
    requires forall j, i :: 0 <= j < |dbs| && 0 <= i < |dbs[j]| ==> Savable(dbs[j][i])
    requires k < |Concat(outs) + ([OPCODE_EOF] + tail)|
    ensures var all := Concat(outs) + ([OPCODE_EOF] + tail); var r := LoadEntries(all[..k], State(NoKeys(|d|), 0), now, master);
            if k + 8 >= |all| then r.Done? && |r.rest| < 8 else r.ShortRead?
  {
    hide LoadEntries, ListsAll, SavesDbs, Savable, Back, Concat;
    var all, st := Concat(outs) + ([OPCODE_EOF] + tail), State(NoKeys(|d|), 0);
    var data := BodyLoads(outs, dbs, d, saved, tail, now, master);
    EntriesExtend(all[..k], all[k..], st, now, master);
    assert all[..k] + all[k..] == all;
    if k + 8 >= |all| {
      var left := tail[..k + 8 - |all|];
      assert all[..k] == Concat(outs) + ([OPCODE_EOF] + left);
      data := BodyLoads(outs, dbs, d, saved, left, now, master);
    }
  }

  lemma SumCut(s: Text, dbnum: nat, now: int, master: bool, verify: bool, crc: Checksum)
    requires dbnum > 0 && |s| >= 9 && s[..9] == MAGIC
    ensures var r := LoadEntries(s[9..], State(NoKeys(dbnum), 0), now, master);
            var loaded := LoadFile(s, dbnum, now, master, verify, crc);
            (!r.Done? || !verify ==> loaded == r) && (verify && r.Done? && |r.rest| < 8 ==> loaded.ShortRead?)
  {
    hide LoadEntries, FromLittleEndian, AofLoad.Atoi, NoKeys;
    MagicLoads();
    assert s[..5] == MAGIC[..5];
    assert s[5..9] == MAGIC[5..9];
  }

  lemma FileParts(s: Text, entries: Text, tail: Text)
    requires s == MAGIC + entries + [OPCODE_EOF] + tail
    ensures |s| >= 9 && s[..5] == MAGIC[..5] && s[5..9] == MAGIC[5..9] && s[9..] == entries + ([OPCODE_EOF] + tail)
    ensures s[..|s| - |tail|] == MAGIC + entries + [OPCODE_EOF]
  {
  }

  // ------------------------------------------------------------------
  // Saving
  // ------------------------------------------------------------------

  /** How strings are saved: whether to compress, which are held as numbers, and the compressor's memory. */
  datatype Env = Env(compression: bool, held: Text -> bool, memory: Memory)

  lemma {:induction false} ConcatAppend(parts: seq<Text>, p: Text)
    ensures Concat(parts + [p]) == Concat(parts) + p
  {
    if parts == [] {
      assert [p][1..] == [] && p + [] == [] + p && [] + [p] == [p];
    } else {
      ConcatAppend(parts[1..], p);
      assert (parts + [p])[0] == parts[0] && (parts + [p])[1..] == parts[1..] + [p];
      assert parts[0] + (Concat(parts[1..]) + p) == parts[0] + Concat(parts[1..]) + p;
    }
  }

  method SaveTexts(texts: seq<Text>, env: Env) returns (out: Text, ghost parts: seq<Text>)
    requires Fits(env.memory, LEN_ERROR) && forall i :: 0 <= i < |texts| ==> |texts[i]| < LEN_ERROR
    modifies env.memory.htab
    ensures out == Concat(parts) && SavesEach(parts, texts)
  {
    hide Saves, Concat;
    out, parts := [], [];
    NoParts();
    var i := 0;
    while i < |texts|
      invariant 0 <= i <= |texts| == i + (|texts| - |parts|) && out == Concat(parts)
      invariant forall k :: 0 <= k < i ==> Saves(parts[k], texts[k])
    {
      var piece := SaveString(texts[i], env.compression, env.held(texts[i]), env.memory);
      ConcatAppend(parts, piece);
      out, parts := out + piece, parts + [piece];
      i := i + 1;
    }
  }

  lemma NoParts()
    ensures Concat([]) == []
  {
  }

  /** `rdbSaveObject`. */
  method SaveObject(it: Item, env: Env) returns (out: Text)
    requires Savable(it) && Fits(env.memory, LEN_ERROR)
    modifies env.memory.htab
    ensures SavesObject(out, it.value)
  {
    hide Saves, SavesObject, SavesEach, SaveLen, Concat;
    var texts := Flat(it.items);
    ghost var parts;
    if it.value.Str? {
      FlatOne([it.value.text]);
      assert |texts[0]| < LEN_ERROR;
      out := SaveString(it.value.text, env.compression, env.held(it.value.text), env.memory);
      StringSaved(out, it.value.text);
    } else {
      out, parts := SaveTexts(texts, env);
      CollectionSaved(parts, it.value, it.items);
      out := SaveLen(|it.items|) + out;
    }
  }

  /** `rdbSaveKeyValuePair`: an expired key is skipped before anything is written for it. */
  method SaveKeyValuePair(it: Item, now: int, env: Env) returns (out: Text)
    requires Savable(it) && Fits(env.memory, LEN_ERROR)
    modifies env.memory.htab
    ensures SavesEntry(out, it, now)
    ensures out == [] <==> it.expire.Some? && it.expire.value != -1 && it.expire.value < now
  {
    hide Saves, SavesObject, SaveTime, Iterates;
    out := [];
    var expiretime := ExpireOf(it);
    if expiretime != NO_EXPIRE {
      if expiretime < now {
        return;
      }
      out := [OPCODE_EXPIRETIME_MS] + SaveTime(expiretime);
    }
    out := out + [TypeByte(it.value)];
    assert out == Head(it);
    var k := SaveString(it.key, env.compression, env.held(it.key), env.memory);
    var v := SaveObject(it, env);
    out := out + k + v;
  }

  method SaveDb(its: seq<Item>, j: nat, now: int, env: Env) returns (out: Text)
    requires Fits(env.memory, LEN_ERROR) && j < LEN_ERROR && forall i :: 0 <= i < |its| ==> Savable(its[i])
    modifies env.memory.htab
    ensures SavesDb(out, its, j, now)
  {
    hide SavesEntry, Savable, Concat, SaveLen;
    if its == [] {
      return [];
    }
    ghost var parts := [];
    NoParts();
    var i := 0;
    out := [];
    while i < |its|
      invariant 0 <= i <= |its| && |parts| == i && out == Concat(parts)
      invariant forall k :: 0 <= k < i ==> SavesEntry(parts[k], its[k], now)
    {
      var piece := SaveKeyValuePair(its[i], now, env);
      ConcatAppend(parts, piece);
      out, parts := out + piece, parts + [piece];
      i := i + 1;
    }
    assert SavesEntries(parts, its, now);
    out := [OPCODE_SELECTDB] + SaveLen(j) + out;
  }

  /** `rdbSave`. */
  method Save(dbs: seq<seq<Item>>, now: int, checksum: bool, crc: Checksum, env: Env) returns (out: Text)
    requires Fits(env.memory, LEN_ERROR) && |dbs| < LEN_ERROR
    requires forall j, i :: 0 <= j < |dbs| && 0 <= i < |dbs[j]| ==> Savable(dbs[j][i])
    modifies env.memory.htab
    ensures SavesFile(out, dbs, now, checksum, crc)
  {
    hide SavesDb, Savable, Concat, LittleEndian;
    ghost var outs := [];
    NoParts();
    var j := 0;
    out := MAGIC;
    while j < |dbs|
      invariant 0 <= j <= |dbs| && |outs| == j && out == MAGIC + Concat(outs)
      invariant forall k :: 0 <= k < j ==> SavesDb(outs[k], dbs[k], k, now)
    {
      var piece := SaveDb(dbs[j], j, now, env);
      ConcatAppend(outs, piece);
      out, outs := out + piece, outs + [piece];
      j := j + 1;
    }
    assert SavesDbs(outs, dbs, now);
    out := out + [OPCODE_EOF];
    out := out + LittleEndian(if checksum then crc(out) else 0, 8);
  }

  // ------------------------------------------------------------------
  // Loading
  // ------------------------------------------------------------------

  lemma BuildMore(kind: u8, texts: seq<Text>, t: Text)
    ensures kind == TYPE_LIST ==> Build(kind, texts).List? && Build(kind, texts + [t]) == List(Build(kind, texts).items + [t])
    ensures kind == TYPE_SET ==> Build(kind, texts).Set? && Build(kind, texts + [t]) == Set(Build(kind, texts).members + {t})
    ensures kind == TYPE_HASH ==> Build(kind, texts).Hash?
  {
    assert (set x | x in texts + [t]) == (set x | x in texts) + {t};
  }

  /** The loops of `rdbLoadObject`, which add one element or one field at a time. */
  method ReadCollection(kind: u8, n: nat, s: Text) returns (r: Option<Parsed<Value>>)
    requires kind in {TYPE_LIST, TYPE_SET, TYPE_HASH}
    ensures r == match LoadTexts(Texts(kind, n), s)
                 case None => None
                 case Some(Parsed(ts, s2)) => Some(Parsed(Build(kind, ts), s2))
  {
    hide LoadString, LoadTexts, Prepended, Build;
    var o, rest, left := EmptyValue(kind), s, n;
    ghost var texts: seq<Text> := [];
    PrependNothing(LoadTexts(Texts(kind, n), s));
    BuildEmpty(kind);
    while left > 0
      invariant 0 <= left <= n && |texts| == Texts(kind, n) - Texts(kind, left) && o == Build(kind, texts)
      invariant LoadTexts(Texts(kind, n), s) == Prepended(texts, LoadTexts(Texts(kind, left), rest))
    {
      PrependStep(texts, Texts(kind, left), rest);
      PrependFails(texts);
      var ele := LoadString(rest);
      if ele.None? {
        return None;
      }
      BuildMore(kind, texts, ele.value.value);
      texts, rest := texts + [ele.value.value], ele.value.rest;
      if kind == TYPE_HASH {
        PrependStep(texts, 2 * left - 1, rest);
        PrependFails(texts);
        var value := LoadString(rest);
        if value.None? {
          return None;
        }
        BuildField(texts[..|texts| - 1], ele.value.value, value.value.value);
        assert texts[..|texts| - 1] + [ele.value.value, value.value.value] == texts + [value.value.value];
        texts, rest := texts + [value.value.value], value.value.rest;
        o := Hash(o.fields[ele.value.value := value.value.value]);
      } else {
        o := if kind == TYPE_LIST then List(o.items + [ele.value.value]) else Set(o.members + {ele.value.value});
      }
      left := left - 1;
    }
    NothingPrepended(texts, rest);
    r := Some(Parsed(o, rest));
  }

  /** How many texts `n` elements of a collection have. */
  function Texts(kind: u8, n: nat): nat {
    if kind == TYPE_HASH then 2 * n else n
  }

  function EmptyValue(kind: u8): Value {
    if kind == TYPE_LIST then List([]) else if kind == TYPE_SET then Set({}) else Hash(map[])
  }

  lemma BuildEmpty(kind: u8)
    requires kind in {TYPE_LIST, TYPE_SET, TYPE_HASH}
    ensures Build(kind, []) == EmptyValue(kind)
  {
  }

  lemma BuildField(texts: seq<Text>, f: Text, v: Text)
    requires |texts| % 2 == 0
    ensures Build(TYPE_HASH, texts).Hash?
    ensures Build(TYPE_HASH, texts + [f, v]) == Hash(Build(TYPE_HASH, texts).fields[f := v])
  {
    FieldsConcat(map[], texts, [f, v]);
    assert [f, v][2..] == [];
  }

  lemma PrependNothing(r: Option<Parsed<seq<Text>>>)
    ensures Prepended([], r) == r
  {
    match r
    case None =>
    case Some(Parsed(us, _)) => assert [] + us == us;
  }

  lemma PrependFails(texts: seq<Text>)
    ensures Prepended(texts, None) == None
  {
  }

  lemma NothingPrepended(texts: seq<Text>, rest: Text)
    ensures Prepended(texts, LoadTexts(0, rest)) == Some(Parsed(texts, rest))
  {
    assert texts + [] == texts;
  }

  function Prepended(texts: seq<Text>, r: Option<Parsed<seq<Text>>>): Option<Parsed<seq<Text>>> {
    match r case None => None case Some(Parsed(us, s)) => Some(Parsed(texts + us, s))
  }

  lemma PrependStep(texts: seq<Text>, n: nat, s: Text)
    requires n > 0
    ensures Prepended(texts, LoadTexts(n, s)) ==
            match LoadString(s)
            case None => None
            case Some(Parsed(t, s1)) => Prepended(texts + [t], LoadTexts(n - 1, s1))
  {
    hide LoadString;
    match LoadString(s)
    case None =>
    case Some(Parsed(t, s1)) =>
      match LoadTexts(n - 1, s1)
      case None =>
      case Some(Parsed(us, _)) => assert texts + ([t] + us) == (texts + [t]) + us;
  }

  method ReadObject(kind: u8, s: Text) returns (r: Option<Parsed<Value>>)
    requires kind in {TYPE_STRING, TYPE_LIST, TYPE_SET, TYPE_HASH}
    ensures r == LoadObject(kind, s)
  {
    hide LoadString, LoadTexts, LoadLen, Build;
    if kind == TYPE_STRING {
      var o := LoadString(s);
      return if o.None? then None else Some(Parsed(Str(o.value.value), o.value.rest));
    }
    var len := LoadLen(s);
    if len.None? || Number(len.value.value) == LEN_ERROR {
      return None;
    }
    r := ReadCollection(kind, Number(len.value.value), len.value.rest);
  }

  /** The loop of `rdbLoad`, storing key after key. */
  method ReadEntries(s: Text, dbnum: nat, now: int, master: bool) returns (r: Outcome)
    requires dbnum > 0
    ensures r == LoadEntries(s, State(NoKeys(dbnum), 0), now, master)
  {
    hide LoadString, LoadObject, LoadLen, LoadType;
    var st, rest := State(NoKeys(dbnum), 0), s;
    assert |st.data| == dbnum;
    while true
      invariant st.db < |st.data| && LoadEntries(s, State(NoKeys(dbnum), 0), now, master) == LoadEntries(rest, st, now, master)
      decreases |rest|
    {
      var head := LoadType(rest);
      if head.None? {
        return ShortRead;
      }
      var kind := head.value.value.kind;
      if kind == OPCODE_EOF {
        return Done(st.data, head.value.rest);
      }
      if kind == OPCODE_SELECTDB {
        var dbid := LoadLen(head.value.rest);
        if dbid.None? || Number(dbid.value.value) == LEN_ERROR {
          return ShortRead;
        }
        if Number(dbid.value.value) >= |st.data| {
          return TooManyDatabases;
        }
        st, rest := st.(db := Number(dbid.value.value)), dbid.value.rest;
        continue;
      }
      var key := LoadString(head.value.rest);
      if key.None? {
        return ShortRead;
      }
      if kind !in {TYPE_STRING, TYPE_LIST, TYPE_SET, TYPE_HASH} {
        return UnknownType;
      }
      var val := ReadObject(kind, key.value.rest);
      if val.None? {
        return ShortRead;
      }
      var expire := head.value.value.expire;
      if !(master && expire != NO_EXPIRE && expire < now) {
        var entry := Entry(val.value.value, if expire == NO_EXPIRE then None else Some(expire));
        st := st.(data := st.data[st.db := st.data[st.db][key.value.value := entry]]);
      }
      rest := val.value.rest;
    }
  }

  /**
   What the format is for: a saved file, with anything behind it, is loaded back. The databases are
   those that were saved, without expired keys, if and only if no expire time is -1.
   */
  method RoundTrip(dbs: seq<seq<Item>>, ghost d: Dataset, saved: int, checksum: bool, crc: Checksum, env: Env,
                   trailing: Text, now: int, master: bool)
    returns (r: Outcome)
    requires 0 < |d| < LEN_ERROR && ListsAll(dbs, d) && Fits(env.memory, LEN_ERROR)
    requires forall j, i :: 0 <= j < |dbs| && 0 <= i < |dbs[j]| ==> Savable(dbs[j][i])
    modifies env.memory.htab
    ensures r.Done? && |r.data| == |d| && r.rest == trailing
    ensures (forall j :: 0 <= j < |d| ==> r.data[j] == Kept(d[j], saved, now, master)) <==> NoTimeMark(d)
  {
    hide LoadFile, SavesFile, Savable, Kept, Back, Lists, NoTimeMark;
    var out := Save(dbs, saved, checksum, crc, env);
    FileRoundTrip(out, dbs, d, saved, checksum, crc, trailing, now, master, true);
    r := LoadFile(out + trailing, |dbs|, now, master, true, crc);
  }
}
