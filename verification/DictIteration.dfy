/**
 Iterators over the hash table of dict.c, as values: where an iterator stands, which entries it
 has still to return, and what the operations allowed during a safe iteration do to them.
 */
module DictIteration {
  import opened Bytes
  import opened Sequences
  import opened DictModel

  /** The fields of a `dictIterator` other than the dictionary and the safe flag. */
  datatype Cursor<!K(==), !V> = Cursor(table: nat, index: int, entry: Entry?<K, V>, next: Entry?<K, V>)

  function Start<K, V>(): Cursor<K, V> {
    Cursor(0, -1, null, null)
  }

  function At<K, V>(c: Chain<K, V>, j: nat): Entry?<K, V> {
    if j < |c| then c[j] else null
  }

  function TableOf<K, V>(s: Shape<K, V>, table: nat): Buckets<K, V> {
    if table == 0 then s.b0 else s.b1
  }

  /** The part of a chain that starts at `e`. */
  function SuffixFrom<K, V>(c: Chain<K, V>, e: Entry?<K, V>): Chain<K, V> {
    if e == null || c == [] then [] else if c[0] == e then c else SuffixFrom(c[1..], e)
  }

  datatype Progress<!K(==), !V> = Found(cur: Cursor<K, V>) | Continue(cur: Cursor<K, V>)

  function Measure<K, V>(s: Shape<K, V>, cur: Cursor<K, V>): nat {
    2 * Max(0, |TableOf(s, cur.table)| - cur.index) + (if cur.entry == null then 0 else 1)
    + (if cur.table == 0 then 2 * |s.b1| + 4 else 0)
  }

  /** One pass of the loop in `dictNext`; `Found` when the loop ends, with or without an entry. */
  function AdvanceOnce<K, V>(s: Shape<K, V>, cur: Cursor<K, V>): (p: Progress<K, V>)
    requires cur.index >= -1
    ensures p.cur.index >= -1
    ensures p.Continue? ==> Measure(s, p.cur) < Measure(s, cur)
  {
    var b := TableOf(s, cur.table);
    if cur.entry != null then
      if cur.next == null || cur.index < 0 || cur.index >= |b| then Continue(cur.(entry := null))
      else Found(cur.(entry := cur.next, next := At(SuffixFrom(b[cur.index], cur.next), 1)))
    else
      var i := cur.index + 1;
      if i < |b| then
        if b[i] == [] then Continue(cur.(index := i))
        else Found(cur.(index := i, entry := b[i][0], next := At(b[i], 1)))
      else if cur.table == 0 && Rehashing(s) then
        if s.b1 == [] || s.b1[0] == [] then Continue(Cursor(1, 0, null, null))
        else Found(Cursor(1, 0, s.b1[0][0], At(s.b1[0], 1)))
      else Found(cur.(index := i))
  }

  /** `dictNext`: on to the next entry, across empty buckets and from the old table to the new one. */
  function Advance<K, V>(s: Shape<K, V>, cur: Cursor<K, V>): (cur': Cursor<K, V>)
    requires cur.index >= -1
    ensures cur'.index >= -1
    decreases Measure(s, cur)
  {
    match AdvanceOnce(s, cur)
    case Found(cur') => cur'
    case Continue(mid) => Advance(s, mid)
  }

  /** What lies ahead of position `m` of a table: its later chains, and the new table after the old one. */
  function Ahead<K, V>(s: Shape<K, V>, table: nat, m: nat): Chain<K, V> {
    var b := TableOf(s, table);
    Flatten(b[Min(m, |b|)..]) + (if table == 0 then Flatten(s.b1) else [])
  }

  /** What is left of the chain being walked. */
  function Here<K, V>(s: Shape<K, V>, cur: Cursor<K, V>): Chain<K, V> {
    var b := TableOf(s, cur.table);
    if cur.entry != null && 0 <= cur.index < |b| then SuffixFrom(b[cur.index], cur.next) else []
  }

  /** The entries an iterator has still to return, in order. */
  function Pending<K, V>(s: Shape<K, V>, cur: Cursor<K, V>): Chain<K, V>
    requires cur.index >= -1
  {
    Here(s, cur) + Ahead(s, cur.table, cur.index + 1)
  }

  /** The saved successor is in the chain being walked, and the entry last returned is not ahead of it. */
  ghost predicate CursorOk<K, V>(s: Shape<K, V>, cur: Cursor<K, V>) {
    && cur.index >= -1 && cur.table < 2 && (cur.table == 1 ==> cur.index >= 0 && Rehashing(s))
    && (cur.entry != null ==>
          && 0 <= cur.index < |TableOf(s, cur.table)|
          && (cur.next != null ==> cur.next in TableOf(s, cur.table)[cur.index])
          && cur.entry !in Here(s, cur))
  }

  /** The entry last returned is still in the chain the iterator stands in. */
  predicate Walking<K, V>(s: Shape<K, V>, cur: Cursor<K, V>) {
    && 0 <= cur.index < |TableOf(s, cur.table)|
    && cur.entry in TableOf(s, cur.table)[cur.index]
  }

  lemma {:induction false} SuffixAt<K, V>(c: Chain<K, V>, p: nat)
    requires p < |c| && NoDuplicates(c)
    ensures SuffixFrom(c, c[p]) == c[p..]
  {
    if p > 0 {
      assert c[1..][p - 1] == c[p] && c[1..][p - 1..] == c[p..];
      assert NoDuplicates(c[1..]);
      SuffixAt(c[1..], p - 1);
    }
  }

  lemma ChainNoDuplicates<K, V>(b: Buckets<K, V>, i: nat)
    requires Distinct(b) && i < |b|
    ensures NoDuplicates(b[i])
  {
  }

  lemma FlattenFrom<K, V>(b: Buckets<K, V>, i: nat)
    requires i < |b|
    ensures Flatten(b[i..]) == b[i] + Flatten(b[i + 1..])
  {
    assert b[i..][0] == b[i] && b[i..][1..] == b[i + 1..];
  }

  lemma AheadSteps<K, V>(s: Shape<K, V>, table: nat, m: nat)
    requires m < |TableOf(s, table)|
    ensures Ahead(s, table, m) == TableOf(s, table)[m] + Ahead(s, table, m + 1)
  {
    FlattenFrom(TableOf(s, table), m);
  }

  lemma AheadCrosses<K, V>(s: Shape<K, V>, m: nat)
    requires m >= |s.b0|
    ensures Ahead(s, 0, m) == Ahead(s, 1, 0)
    ensures s.b1 == [] ==> Ahead(s, 0, m) == []
  {
    assert s.b0[|s.b0|..] == [] && s.b1[0..] == s.b1;
  }

  lemma AheadEnds<K, V>(s: Shape<K, V>, m: nat)
    requires m >= |s.b1|
    ensures Ahead(s, 1, m) == []
  {
    assert s.b1[|s.b1|..] == [];
  }

  /** From `cur` to `cur'` the first pending entry is taken, or there is none. */
  ghost predicate Takes<K, V>(s: Shape<K, V>, cur: Cursor<K, V>, cur': Cursor<K, V>) {
    && CursorOk(s, cur') && cur.index >= -1
    && if cur'.entry == null then Pending(s, cur) == Pending(s, cur') == []
       else Pending(s, cur) == [cur'.entry] + Pending(s, cur') && Walking(s, cur')
  }

  lemma TakesLater<K, V>(s: Shape<K, V>, cur: Cursor<K, V>, mid: Cursor<K, V>, cur': Cursor<K, V>)
    requires CursorOk(s, cur) && CursorOk(s, mid) && Pending(s, cur) == Pending(s, mid) && Takes(s, mid, cur')
    ensures Takes(s, cur, cur')
  {
  }

  /** One pass either takes the first pending entry or leaves all of them pending. */
  lemma AdvanceOnceTakes<K, V>(s: Shape<K, V>, cur: Cursor<K, V>)
    requires Staged(s) && Distinct(s.b0) && Distinct(s.b1) && CursorOk(s, cur)
    ensures match AdvanceOnce(s, cur)
            case Found(cur') => Takes(s, cur, cur')
            case Continue(mid) => CursorOk(s, mid) && Pending(s, cur) == Pending(s, mid)
  {
    var b := TableOf(s, cur.table);
    var i := cur.index + 1;
    assert cur.table < 2 && (cur.table == 1 ==> Rehashing(s)) && (cur.entry != null ==> cur.index < |b|);
    hide Pending, CursorOk, Ahead, SuffixFrom, At, PowerOfTwo, Distinct, Takes;
    if cur.entry != null {
      if cur.next == null {
        LeaveChain(s, cur);
      } else {
        Following(s, cur);
      }
    } else if i < |b| {
      if b[i] == [] {
        EmptyBucket(s, cur);
      } else {
        Landing(s, cur);
      }
    } else if cur.table == 0 && Rehashing(s) {
      CrossOver(s, cur);
    } else {
      PastTheEnd(s, cur);
    }
  }

  /**
   One call of `dictNext`: it returns the first pending entry and leaves the others pending,
   or returns nothing when none is pending.
   */
  lemma {:induction false} AdvanceTakesFirst<K, V>(s: Shape<K, V>, cur: Cursor<K, V>)
    requires Staged(s) && Distinct(s.b0) && Distinct(s.b1) && CursorOk(s, cur)
    ensures Takes(s, cur, Advance(s, cur))
    decreases Measure(s, cur)
  {
    AdvanceOnceTakes(s, cur);
    match AdvanceOnce(s, cur)
    case Found(_) =>
    case Continue(mid) =>
      AdvanceTakesFirst(s, mid);
      TakesLater(s, cur, mid, Advance(s, mid));
  }

  /** Reaching the next entry of the chain being walked. */
  lemma Following<K, V>(s: Shape<K, V>, cur: Cursor<K, V>)
    requires Distinct(TableOf(s, cur.table)) && CursorOk(s, cur) && cur.entry != null && cur.next != null
    ensures var c := TableOf(s, cur.table)[cur.index];
            Takes(s, cur, cur.(entry := cur.next, next := At(SuffixFrom(c, cur.next), 1)))
  {
    NextInChain(TableOf(s, cur.table), cur.index, cur.next);
    hide Ahead, SuffixFrom, At, Distinct;
  }

  lemma LeaveChain<K, V>(s: Shape<K, V>, cur: Cursor<K, V>)
    requires CursorOk(s, cur) && cur.next == null
    ensures CursorOk(s, cur.(entry := null)) && Pending(s, cur) == Pending(s, cur.(entry := null))
  {
    hide Ahead;
  }

  lemma EmptyBucket<K, V>(s: Shape<K, V>, cur: Cursor<K, V>)
    requires CursorOk(s, cur) && cur.entry == null && cur.index + 1 < |TableOf(s, cur.table)|
    requires TableOf(s, cur.table)[cur.index + 1] == []
    ensures var cur' := cur.(index := cur.index + 1);
            CursorOk(s, cur') && Pending(s, cur) == Pending(s, cur')
  {
    AheadSteps(s, cur.table, cur.index + 1);
    hide Ahead;
  }

  lemma PastTheEnd<K, V>(s: Shape<K, V>, cur: Cursor<K, V>)
    requires Staged(s) && CursorOk(s, cur) && cur.entry == null && cur.index + 1 >= |TableOf(s, cur.table)|
    requires cur.table == 1 || !Rehashing(s)
    ensures Takes(s, cur, cur.(index := cur.index + 1))
  {
    if cur.table == 0 {
      AheadCrosses(s, cur.index + 1);
      AheadCrosses(s, cur.index + 2);
    } else {
      AheadEnds(s, cur.index + 1);
      AheadEnds(s, cur.index + 2);
    }
    hide Ahead;
  }

  /** Reaching the first entry of the next chain. */
  lemma Landing<K, V>(s: Shape<K, V>, cur: Cursor<K, V>)
    requires Distinct(TableOf(s, cur.table)) && CursorOk(s, cur) && cur.entry == null
    requires cur.index + 1 < |TableOf(s, cur.table)| && TableOf(s, cur.table)[cur.index + 1] != []
    ensures var c := TableOf(s, cur.table)[cur.index + 1];
            Takes(s, cur, Cursor(cur.table, cur.index + 1, c[0], At(c, 1)))
  {
    AheadSteps(s, cur.table, cur.index + 1);
    FirstInChain(TableOf(s, cur.table), cur.index + 1);
    hide Ahead, SuffixFrom, At;
  }

  /** Leaving the old table for the new one, whose first chain may be empty. */
  lemma CrossOver<K, V>(s: Shape<K, V>, cur: Cursor<K, V>)
    requires Staged(s) && Rehashing(s) && Distinct(s.b1) && CursorOk(s, cur)
    requires cur.table == 0 && cur.entry == null && cur.index + 1 >= |s.b0|
    ensures |s.b1| > 0
    ensures s.b1[0] == [] ==> CursorOk(s, Cursor(1, 0, null, null)) && Pending(s, cur) == Pending(s, Cursor(1, 0, null, null))
    ensures s.b1[0] != [] ==> Takes(s, cur, Cursor(1, 0, s.b1[0][0], At(s.b1[0], 1)))
  {
    AheadCrosses(s, cur.index + 1);
    AheadSteps(s, 1, 0);
    assert Pending(s, cur) == Ahead(s, 1, 0);
    if s.b1[0] == [] {
      assert Pending(s, Cursor(1, 0, null, null)) == Ahead(s, 1, 1);
    } else {
      CrossedOver(s);
    }
    hide Ahead, SuffixFrom, At, Distinct, Pending;
  }

  lemma CrossedOver<K, V>(s: Shape<K, V>)
    requires Rehashing(s) && Distinct(s.b1) && |s.b1| > 0 && s.b1[0] != []
    ensures var cur := Cursor(1, 0, s.b1[0][0], At(s.b1[0], 1));
            CursorOk(s, cur) && Walking(s, cur) && Ahead(s, 1, 0) == [cur.entry] + Pending(s, cur)
  {
    AheadSteps(s, 1, 0);
    FirstInChain(s.b1, 0);
    hide Ahead, SuffixFrom, At, Distinct;
  }

  lemma NonEmpty(n: nat)
    requires PowerOfTwo(n)
    ensures n > 0
  {
  }

  lemma NextInChain<K, V>(b: Buckets<K, V>, i: nat, next: Entry<K, V>)
    requires Distinct(b) && i < |b| && next in b[i]
    ensures var after := At(SuffixFrom(b[i], next), 1);
            && SuffixFrom(b[i], next) == [next] + SuffixFrom(b[i], after)
            && (after != null ==> after in b[i]) && next !in SuffixFrom(b[i], after)
  {
    var c := b[i];
    ChainNoDuplicates(b, i);
    var p :| 0 <= p < |c| && c[p] == next;
    SuffixAt(c, p);
    if p + 1 < |c| {
      SuffixAt(c, p + 1);
    }
  }

  lemma FirstInChain<K, V>(b: Buckets<K, V>, i: nat)
    requires Distinct(b) && i < |b| && b[i] != []
    ensures b[i] == [b[i][0]] + SuffixFrom(b[i], At(b[i], 1))
    ensures At(b[i], 1) != null ==> At(b[i], 1) in b[i]
    ensures b[i][0] !in SuffixFrom(b[i], At(b[i], 1))
  {
    assert SuffixFrom(b[i], b[i][0]) == b[i];
    NextInChain(b, i, b[i][0]);
  }

  /** At the start of an iteration every entry is pending. */
  lemma StartPending<K, V>(s: Shape<K, V>)
    ensures CursorOk(s, Start()) && Pending(s, Start()) == All(s)
  {
    assert s.b0[0..] == s.b0;
  }

  // ------------------------------------------------------------------
  // What the other operations do to the pending entries, migration being suspended
  // ------------------------------------------------------------------

  ghost predicate Inserted<T>(p: seq<T>, e: T, p': seq<T>) {
    exists i :: 0 <= i <= |p| && p' == p[..i] + [e] + p[i..]
  }

  lemma InsertedAround<T>(a: seq<T>, p: seq<T>, z: seq<T>, e: T, p': seq<T>)
    requires Inserted(p, e, p')
    ensures Inserted(a + p + z, e, a + p' + z)
  {
    var i :| 0 <= i <= |p| && p' == p[..i] + [e] + p[i..];
    var q := a + p + z;
    assert q[..|a| + i] == a + p[..i] && q[|a| + i..] == p[i..] + z;
    assert a + p' + z == q[..|a| + i] + [e] + q[|a| + i..];
  }

  lemma {:induction false} FlattenPush<K, V>(b: Buckets<K, V>, i: nat, e: Entry<K, V>)
    requires i < |b|
    ensures Inserted(Flatten(b), e, Flatten(b[i := [e] + b[i]]))
  {
    var b' := b[i := [e] + b[i]];
    if i == 0 {
      assert b'[1..] == b[1..];
      var p := Flatten(b);
      assert Flatten(b') == p[..0] + [e] + p[0..];
    } else {
      assert b'[1..] == b[1..][i - 1 := [e] + b[1..][i - 1]];
      FlattenPush(b[1..], i - 1, e);
      InsertedAround(b[0], Flatten(b[1..]), [], e, Flatten(b'[1..]));
      assert b[0] + Flatten(b[1..]) + [] == Flatten(b) && b'[0] + Flatten(b'[1..]) + [] == Flatten(b');
    }
  }

  lemma SuffixOfPushed<K, V>(c: Chain<K, V>, e: Entry<K, V>, next: Entry?<K, V>)
    requires next != e
    ensures SuffixFrom([e] + c, next) == SuffixFrom(c, next)
  {
    assert ([e] + c)[1..] == c;
  }

  /** A new entry at the head of chain `i` of a table, seen from position `m` of that table. */
  lemma PushAhead<K, V>(b: Buckets<K, V>, i: nat, e: Entry<K, V>, m: nat)
    requires i < |b| && m <= |b|
    ensures var b' := b[i := [e] + b[i]];
            if i < m then b'[m..] == b[m..] else Inserted(Flatten(b[m..]), e, Flatten(b'[m..]))
  {
    if i >= m {
      var b' := b[i := [e] + b[i]];
      assert b'[m..] == b[m..][i - m := [e] + b[m..][i - m]];
      FlattenPush(b[m..], i - m, e);
    }
  }

  lemma PushHere<K, V>(hash: K -> nat, s: Shape<K, V>, cur: Cursor<K, V>, e: Entry<K, V>)
    requires if Rehashing(s) then |s.b1| > 0 else |s.b0| > 0
    requires CursorOk(s, cur) && (cur.entry != null ==> e != cur.next && e != cur.entry)
    ensures var s' := Insert(hash, s, e);
            CursorOk(s', cur) && Here(s', cur) == Here(s, cur)
  {
    var b := if Rehashing(s) then s.b1 else s.b0;
    if cur.entry != null {
      SuffixOfPushed(b[Slot(hash, e.key, |b|)], e, cur.next);
    }
    hide SuffixFrom, Slot;
  }

  lemma PushBeyond<K, V>(hash: K -> nat, s: Shape<K, V>, table: nat, m: nat, e: Entry<K, V>)
    requires if Rehashing(s) then |s.b1| > 0 else |s.b0| > 0
    requires !Rehashing(s) ==> s.b1 == [] && table == 0
    ensures var s' := Insert(hash, s, e);
            Ahead(s', table, m) == Ahead(s, table, m) || Inserted(Ahead(s, table, m), e, Ahead(s', table, m))
  {
    hide Flatten, Slot, Inserted;
    var s' := Insert(hash, s, e);
    var grown := if Rehashing(s) then 1 else 0;
    var b, b' := TableOf(s, grown), TableOf(s', grown);
    var i := Slot(hash, e.key, |b|);
    var n := Min(m, |TableOf(s, table)|);
    var tail := if table == 0 then Flatten(s.b1) else [];
    if table == grown || table > 1 {
      PushAhead(b, i, e, n);
      if i >= n {
        InsertedAround([], Flatten(b[n..]), tail, e, Flatten(b'[n..]));
        assert Ahead(s, table, m) == [] + Flatten(b[n..]) + tail;
        assert Ahead(s', table, m) == [] + Flatten(b'[n..]) + tail;
      }
    } else {
      var front := Flatten(s.b0[n..]);
      FlattenPush(b, i, e);
      InsertedAround(front, Flatten(b), [], e, Flatten(b'));
      assert Ahead(s, 0, m) == front + Flatten(b) + [];
      assert Ahead(s', 0, m) == front + Flatten(b') + [];
    }
  }

  /** A new entry is either already behind the iterator or one more to return. */
  lemma PushPending<K, V>(hash: K -> nat, s: Shape<K, V>, cur: Cursor<K, V>, e: Entry<K, V>)
    requires Staged(s) && (if Rehashing(s) then |s.b1| > 0 else |s.b0| > 0)
    requires CursorOk(s, cur) && (cur.entry != null ==> e != cur.next && e != cur.entry)
    ensures var s' := Insert(hash, s, e);
            && CursorOk(s', cur)
            && (Pending(s', cur) == Pending(s, cur) || Inserted(Pending(s, cur), e, Pending(s', cur)))
  {
    PushHere(hash, s, cur, e);
    PushBeyond(hash, s, cur.table, cur.index + 1, e);
    hide Here, Ahead, Inserted, Insert;
    var s' := Insert(hash, s, e);
    var p, p' := Ahead(s, cur.table, cur.index + 1), Ahead(s', cur.table, cur.index + 1);
    if p' != p {
      InsertedAround(Here(s, cur), p, [], e, p');
      assert Here(s, cur) + p + [] == Here(s, cur) + p && Here(s, cur) + p' + [] == Here(s, cur) + p';
    }
  }

  lemma FlattenEmpty<K, V>(b: Buckets<K, V>)
    requires forall i :: 0 <= i < |b| ==> b[i] == []
    ensures Flatten(b) == []
  {
    FlattenTotal(b);
    TotalEmpty(b);
  }

  /** Starting an expansion in the middle of an iteration changes nothing that is pending. */
  lemma ExpandPending<K, V>(s: Shape<K, V>, cur: Cursor<K, V>, canResize: bool)
    requires Staged(s) && CursorOk(s, cur)
    ensures var s' := ExpandIfNeeded(s, canResize);
            CursorOk(s', cur) && Pending(s', cur) == Pending(s, cur)
  {
    var s' := ExpandIfNeeded(s, canResize);
    if s' != s {
      FlattenEmpty(s'.b1);
      if s.b0 == [] {
        FlattenEmpty(s'.b0[Min(cur.index + 1, |s'.b0|)..]);
      }
    }
  }

  lemma {:induction false} SuffixOfWithout<K, V>(c: Chain<K, V>, e: Entry<K, V>, next: Entry?<K, V>)
    requires NoDuplicates(c) && e !in SuffixFrom(c, next) && e != next
    ensures SuffixFrom(Without(c, e), next) == SuffixFrom(c, next)
    ensures next != null && next in c ==> next in Without(c, e)
  {
    if next != null && c != [] {
      if c[0] == next {
        WithoutAbsent(c, e);
      } else if c[0] != e {
        assert NoDuplicates(c[1..]);
        SuffixOfWithout(c[1..], e, next);
        assert ([c[0]] + Without(c[1..], e))[1..] == Without(c[1..], e);
      }
    }
  }

  lemma {:induction false} WithoutAbsent<K, V>(c: Chain<K, V>, e: Entry<K, V>)
    requires e !in c
    ensures Without(c, e) == c
  {
    if c != [] {
      WithoutAbsent(c[1..], e);
    }
  }

  lemma DropTables<K, V>(hash: K -> nat, s: Shape<K, V>, e: Entry<K, V>)
    requires Has(hash, s.b0, e) || Has(hash, s.b1, e)
    ensures var s' := Remove(hash, s, e);
            var t := if Has(hash, s.b0, e) then 0 else 1;
            && TableOf(s', t) == Drop(hash, TableOf(s, t), e)
            && TableOf(s', 1 - t) == TableOf(s, 1 - t)
  {
  }

  /** Deleting the entry just returned leaves exactly the same entries to return. */
  lemma RemovePending<K, V>(hash: K -> nat, s: Shape<K, V>, cur: Cursor<K, V>)
    requires Staged(s) && Distinct(s.b0) && Distinct(s.b1) && CursorOk(s, cur) && cur.entry != null && cur.entry != cur.next
    requires var i := cur.index; var b := TableOf(s, cur.table);
             Has(hash, b, cur.entry) && Slot(hash, cur.entry.key, |b|) == i && !Has(hash, TableOf(s, 1 - cur.table), cur.entry)
    ensures var s' := Remove(hash, s, cur.entry);
            CursorOk(s', cur) && Pending(s', cur) == Pending(s, cur)
  {
    var e: Entry<K, V>, i, b := cur.entry, cur.index, TableOf(s, cur.table);
    DropTables(hash, s, e);
    EmptiedStays(hash, s, e);
    ChainNoDuplicates(b, i);
    SuffixOfWithout(b[i], e, cur.next);
    hide Flatten, SuffixFrom, Without;
    var s' := Remove(hash, s, e);
    var b' := TableOf(s', cur.table);
    assert b' == b[i := Without(b[i], e)];
    assert b'[i + 1..] == b[i + 1..];
  }

  // ------------------------------------------------------------------
  // Whole iterations
  // ------------------------------------------------------------------

  /** What may happen between two calls of `dictNext` while a safe iterator suspends migration. */
  datatype Move<!K(==), !V> =
    | TakeNext
    | AddNew(e: Entry<K, V>, canResize: bool)
    | AddExisting(canResize: bool)
    | RemoveLast
    | LookUp

  /** An iteration under way: the tables, the index they represent, the iterator, and what it has returned. */
  datatype Iteration<!K(==), !V> =
    Iteration(s: Shape<K, V>, index: map<K, Entry<K, V>>, cur: Cursor<K, V>, returned: Chain<K, V>)

  predicate Indexed<K, V>(index: map<K, Entry<K, V>>, x: Entry<K, V>) {
    x.key in index && index[x.key] == x
  }

  /** New entries are new objects under new keys; only the entry just returned may be deleted. */
  predicate Allowed<K, V>(it: Iteration<K, V>, m: Move<K, V>) {
    match m
    case AddNew(e, _) => e.key !in it.index && e !in it.returned
    case RemoveLast => it.cur.entry != null && Indexed(it.index, it.cur.entry)
    case _ => true
  }

  ghost predicate Tracks<K(!new), V>(hash: K -> nat, it: Iteration<K, V>, initial: Chain<K, V>) {
    && WellFormed(hash, it.s, it.index) && CursorOk(it.s, it.cur)
    && NoDuplicates(it.returned + Pending(it.s, it.cur))
    && (forall x :: x in initial ==> x in it.returned || x in Pending(it.s, it.cur))
    && (it.cur.entry != null ==> it.cur.entry in it.returned)
    && (it.cur.entry != null && Indexed(it.index, it.cur.entry) ==> Walking(it.s, it.cur))
  }

  ghost function Apply<K(!new), V>(hash: K -> nat, it: Iteration<K, V>, m: Move<K, V>): Iteration<K, V>
    requires WellFormed(hash, it.s, it.index) && CursorOk(it.s, it.cur) && Allowed(it, m)
  {
    match m
    case TakeNext =>
      var cur := Advance(it.s, it.cur);
      it.(cur := cur, returned := if cur.entry == null then it.returned else it.returned + [cur.entry])
    case AddNew(e, canResize) =>
      ExpandKeeps(hash, it.s, canResize, it.index);
      it.(s := Insert(hash, ExpandIfNeeded(it.s, canResize), e), index := it.index[e.key := e])
    case AddExisting(canResize) => it.(s := ExpandIfNeeded(it.s, canResize))
    case RemoveLast =>
      assert Has(hash, it.s.b0, it.index[it.cur.entry.key]) <==> !Has(hash, it.s.b1, it.index[it.cur.entry.key]);
      it.(s := Remove(hash, it.s, it.cur.entry), index := it.index - {it.cur.entry.key})
    case LookUp => it
  }

  /** Growing as needed leaves a table that can take one more entry. */
  lemma ExpandKeeps<K(!new), V>(hash: K -> nat, s: Shape<K, V>, canResize: bool, index: map<K, Entry<K, V>>)
    requires WellFormed(hash, s, index)
    ensures var s' := ExpandIfNeeded(s, canResize);
            && WellFormed(hash, s', index)
            && (if Rehashing(s') then |s'.b1| > 0 else |s'.b0| > 0)
            && Total(s'.b0) == Total(s.b0) && Total(s'.b1) == Total(s.b1)
  {
    var used := Total(s.b0);
    if Rehashing(s) {
      NonEmpty(|s.b1|);
    } else if s.b0 == [] {
      ExpandWellFormed(hash, s, INITIAL_SIZE, index);
    } else {
      ExpandWellFormed(hash, s, (if |s.b0| > used then |s.b0| else used) * 2, index);
    }
  }

  lemma {:induction false} SuffixInChain<K, V>(c: Chain<K, V>, e: Entry?<K, V>, x: Entry<K, V>)
    requires x in SuffixFrom(c, e)
    ensures x in c
  {
    if c[0] != e {
      SuffixInChain(c[1..], e, x);
    }
  }

  /** Whatever is pending is in the tables, hence in the index. */
  lemma PendingIndexed<K(!new), V>(hash: K -> nat, s: Shape<K, V>, cur: Cursor<K, V>, index: map<K, Entry<K, V>>, x: Entry<K, V>)
    requires WellFormed(hash, s, index) && CursorOk(s, cur)
    requires x in Pending(s, cur) || (cur.entry != null && x == cur.next)
    ensures Indexed(index, x)
  {
    AllIsIndex(hash, s, index);
    var b := TableOf(s, cur.table);
    var m := Min(cur.index + 1, |b|);
    FlattenHas(b, x);
    var later: Buckets<K, V> := b[m..];
    FlattenHas(later, x);
    if x in Flatten(later) {
      var i: nat :| i < |later| && x in later[i];
      assert x in b[m + i];
    } else if x == cur.next && cur.entry != null {
      assert x in b[cur.index];
    } else if x in Here(s, cur) {
      SuffixInChain(b[cur.index], cur.next, x);
    }
    assert x in All(s);
  }

  lemma TakenFromFront<T>(returned: seq<T>, x: T, rest: seq<T>)
    ensures (returned + [x]) + rest == returned + ([x] + rest)
    ensures x in returned + [x]
    ensures forall y :: y in returned || y in [x] + rest ==> y in returned + [x] || y in rest
  {
    assert (returned + [x])[|returned|] == x;
  }

  lemma TakeNextTracks<K(!new), V>(hash: K -> nat, it: Iteration<K, V>, initial: Chain<K, V>)
    requires Tracks(hash, it, initial)
    ensures Tracks(hash, Apply(hash, it, TakeNext), initial)
  {
    AdvanceTakesFirst(it.s, it.cur);
    hide Advance, Pending, CursorOk, WellFormed, Walking, NoDuplicates;
    var cur := Advance(it.s, it.cur);
    if cur.entry != null {
      TakenFromFront(it.returned, cur.entry, Pending(it.s, cur));
    }
  }

  lemma InsertedMembers<T>(p: seq<T>, e: T, p': seq<T>, front: seq<T>)
    requires p' == p || Inserted(p, e, p')
    requires NoDuplicates(front + p) && e !in front + p
    ensures NoDuplicates(front + p') && forall x :: x in p ==> x in p'
  {
    if p' != p {
      var i :| 0 <= i <= |p| && p' == p[..i] + [e] + p[i..];
      forall x | x in p ensures x in p' {
        var j :| 0 <= j < |p| && p[j] == x;
        assert p'[if j < i then j else j + 1] == x;
      }
      var q, q', n := front + p, front + p', |front| + i;
      assert forall j :: 0 <= j < |q'| && j != n ==> q'[j] == q[if j < n then j else j - 1];
      forall j, k | 0 <= j < k < |q'| ensures q'[j] != q'[k] {
        assert q'[n] == e;
        assert j != n ==> q'[j] in q;
        assert k != n ==> q'[k] in q;
      }
    }
  }

  /** An object that is neither indexed nor among those returned is not one the iterator knows. */
  lemma NewIsUnknown<K(!new), V>(hash: K -> nat, it: Iteration<K, V>, e: Entry<K, V>, initial: Chain<K, V>)
    requires Tracks(hash, it, initial) && e.key !in it.index && e !in it.returned
    ensures e !in it.returned + Pending(it.s, it.cur)
    ensures it.cur.entry != null ==> e != it.cur.next && e != it.cur.entry
  {
    if e in Pending(it.s, it.cur) || (it.cur.entry != null && e == it.cur.next) {
      PendingIndexed(hash, it.s, it.cur, it.index, e);
    }
  }

  /** Growing, which is all that adding an existing key can do. */
  lemma ExpandTracks<K(!new), V>(hash: K -> nat, it: Iteration<K, V>, canResize: bool, initial: Chain<K, V>)
    requires Tracks(hash, it, initial)
    ensures Tracks(hash, it.(s := ExpandIfNeeded(it.s, canResize)), initial)
  {
    ExpandKeeps(hash, it.s, canResize, it.index);
    ExpandPending(it.s, it.cur, canResize);
    if it.cur.entry != null && Indexed(it.index, it.cur.entry) {
      WalkingStays(it.s, it.cur, canResize);
    }
    hide Pending, WellFormed, CursorOk, Walking, ExpandIfNeeded;
  }

  lemma InsertTracks<K(!new), V>(hash: K -> nat, it: Iteration<K, V>, e: Entry<K, V>, initial: Chain<K, V>)
    requires Tracks(hash, it, initial) && e.key !in it.index && e !in it.returned
    requires if Rehashing(it.s) then |it.s.b1| > 0 else |it.s.b0| > 0
    ensures Tracks(hash, it.(s := Insert(hash, it.s, e), index := it.index[e.key := e]), initial)
  {
    NewIsUnknown(hash, it, e, initial);
    assert Staged(it.s);
    if it.cur.entry != null && Indexed(it.index, it.cur.entry) {
      WalkingInserted(hash, it.s, it.cur, e);
    }
    hide Pending, WellFormed, CursorOk, Insert, Walking, Inserted, NoDuplicates, Staged;
    PushPending(hash, it.s, it.cur, e);
    InsertWellFormed(hash, it.s, e, it.index);
    InsertedMembers(Pending(it.s, it.cur), e, Pending(Insert(hash, it.s, e), it.cur), it.returned);
  }

  lemma AddNewTracks<K(!new), V>(hash: K -> nat, it: Iteration<K, V>, m: Move<K, V>, initial: Chain<K, V>)
    requires Tracks(hash, it, initial) && Allowed(it, m) && m.AddNew?
    ensures Tracks(hash, Apply(hash, it, m), initial)
  {
    ExpandKeeps(hash, it.s, m.canResize, it.index);
    ExpandTracks(hash, it, m.canResize, initial);
    hide Tracks, ExpandIfNeeded, Insert;
    InsertTracks(hash, it.(s := ExpandIfNeeded(it.s, m.canResize)), m.e, initial);
  }

  lemma WalkingStays<K, V>(s: Shape<K, V>, cur: Cursor<K, V>, canResize: bool)
    requires Walking(s, cur) && cur.table < 2 && (cur.table == 1 ==> Rehashing(s))
    ensures Walking(ExpandIfNeeded(s, canResize), cur)
  {
  }

  lemma WalkingInserted<K, V>(hash: K -> nat, s: Shape<K, V>, cur: Cursor<K, V>, e: Entry<K, V>)
    requires Walking(s, cur) && (if Rehashing(s) then |s.b1| > 0 else |s.b0| > 0)
    ensures Walking(Insert(hash, s, e), cur)
  {
    hide Slot;
  }

  lemma RemoveLastTracks<K(!new), V>(hash: K -> nat, it: Iteration<K, V>, initial: Chain<K, V>)
    requires Tracks(hash, it, initial) && Allowed(it, RemoveLast)
    ensures Tracks(hash, Apply(hash, it, RemoveLast), initial)
  {
    var s, e, b := it.s, it.cur.entry, TableOf(it.s, it.cur.table);
    assert Has(hash, b, e) && Slot(hash, e.key, |b|) == it.cur.index by {
      InBucket(hash, b, it.index, it.cur.index, e);
    }
    assert Has(hash, s.b0, it.index[e.key]) <==> !Has(hash, s.b1, it.index[e.key]);
    assert e != it.cur.next by {
      if e == it.cur.next {
        NextInChain(b, it.cur.index, it.cur.next);
      }
    }
    RemovePending(hash, s, it.cur);
    RemoveWellFormed(hash, s, e, it.index);
    hide Pending, WellFormed, CursorOk, Remove, Walking, Has;
  }

  /** Every allowed move keeps track of every initial entry. */
  lemma MoveTracks<K(!new), V>(hash: K -> nat, it: Iteration<K, V>, m: Move<K, V>, initial: Chain<K, V>)
    requires Tracks(hash, it, initial) && Allowed(it, m)
    ensures Tracks(hash, Apply(hash, it, m), initial)
  {
    match m
    case TakeNext => TakeNextTracks(hash, it, initial);
    case AddNew(_, _) => AddNewTracks(hash, it, m, initial);
    case RemoveLast => RemoveLastTracks(hash, it, initial);
    case LookUp =>
    case AddExisting(canResize) => ExpandTracks(hash, it, canResize, initial);
  }

  /** A run of moves, each allowed when it is made, from `it` to `last`. */
  ghost predicate Run<K(!new), V>(hash: K -> nat, it: Iteration<K, V>, ms: seq<Move<K, V>>, last: Iteration<K, V>)
    decreases |ms|
  {
    if ms == [] then it == last
    else
      && WellFormed(hash, it.s, it.index) && CursorOk(it.s, it.cur) && Allowed(it, ms[0])
      && Run(hash, Apply(hash, it, ms[0]), ms[1..], last)
  }

  lemma {:induction false} RunTracks<K(!new), V>(hash: K -> nat, it: Iteration<K, V>, ms: seq<Move<K, V>>, last: Iteration<K, V>, initial: Chain<K, V>)
    requires Tracks(hash, it, initial) && Run(hash, it, ms, last)
    ensures Tracks(hash, last, initial)
    decreases |ms|
  {
    if ms != [] {
      MoveTracks(hash, it, ms[0], initial);
      RunTracks(hash, Apply(hash, it, ms[0]), ms[1..], last, initial);
    }
  }

  /**
   Safe iteration over a dictionary in any state, half way through a migration included: at every
   moment no entry has been returned twice, and once nothing more is returned every entry present
   at the start has been returned.
   */
  lemma SafeIterationReturnsEachOnce<K(!new), V>(hash: K -> nat, s: Shape<K, V>, index: map<K, Entry<K, V>>,
                                                 ms: seq<Move<K, V>>, last: Iteration<K, V>)
    requires WellFormed(hash, s, index)
    requires Run(hash, Iteration(s, index, Start(), []), ms, last)
    ensures last.cur.index >= -1 && NoDuplicates(last.returned)
    ensures Advance(last.s, last.cur).entry == null ==> forall k :: k in index ==> index[k] in last.returned
  {
    var it := Iteration(s, index, Start<K, V>(), []);
    StartPending(s);
    AllIsIndex(hash, s, index);
    assert [] + All(s) == All(s);
    RunTracks(hash, it, ms, last, All(s));
    AdvanceTakesFirst(last.s, last.cur);
    assert forall i :: 0 <= i < |last.returned| ==> (last.returned + Pending(last.s, last.cur))[i] == last.returned[i];
    forall k | k in index && Advance(last.s, last.cur).entry == null ensures index[k] in last.returned {
      assert index[k].key == k;
      assert index[k] in All(s);
    }
  }
}
