/**
 The hash table of dict.c on the heap: two arrays of singly linked chains and the iterators over
 them. Every method is proved to do to the linked structure what DictModel.dfy and
 DictIteration.dfy say on values, where the properties of whole runs are proved.

 A table that has not been allocated is an array of length 0.
 */
module Dict {
  import opened Bytes
  import opened Sequences
  import opened DictModel
  import opened DictIteration

  type Table<K(==), V> = array<Entry?<K, V>>

  // ------------------------------------------------------------------
  // Linked chains
  // ------------------------------------------------------------------

  ghost predicate Heads<K, V>(t: Table<K, V>, b: Buckets<K, V>)
    reads t
  {
    t.Length == |b| && forall i :: 0 <= i < |b| ==> t[i] == At(b[i], 0)
  }

  ghost predicate ChainLinks<K, V>(c: Chain<K, V>, from: nat, nodes: set<Entry<K, V>>)
    reads nodes
  {
    forall j :: from <= j < |c| ==> c[j] in nodes && c[j].next == At(c, j + 1)
  }

  ghost predicate Links<K, V>(b: Buckets<K, V>, nodes: set<Entry<K, V>>)
    reads nodes
  {
    forall i, j :: 0 <= i < |b| && 0 <= j < |b[i]| ==> b[i][j] in nodes && b[i][j].next == At(b[i], j + 1)
  }

  ghost predicate NotIn<K, V>(b: Buckets<K, V>, e: Entry<K, V>) {
    forall i, j :: 0 <= i < |b| && 0 <= j < |b[i]| ==> b[i][j] != e
  }

  lemma HasNot<K(!new), V>(hash: K -> nat, b: Buckets<K, V>, index: map<K, Entry<K, V>>, e: Entry<K, V>)
    requires Placed(hash, b, index) && !Has(hash, b, e)
    ensures NotIn(b, e)
  {
    forall i, j | 0 <= i < |b| && 0 <= j < |b[i]| ensures b[i][j] != e {
      InChainHas(hash, b, index, i, j);
    }
  }

  /** `entry->next = ht->table[index]; ht->table[index] = entry`. */
  method LinkFront<K, V>(hash: K -> nat, t: Table<K, V>, ghost b: Buckets<K, V>, e: Entry<K, V>, ghost nodes: set<Entry<K, V>>)
    requires |b| > 0 && Heads(t, b) && Links(b, nodes) && e in nodes && NotIn(b, e)
    modifies t, e`next
    ensures Heads(t, Push(hash, b, e)) && Links(Push(hash, b, e), nodes)
  {
    hide Slot;
    var i := Slot(hash, e.key, t.Length);
    e.next := t[i];
    t[i] := e;
    var b' := Push(hash, b, e);
    forall j | 0 <= j < |b'[i]| ensures b'[i][j] in nodes && b'[i][j].next == At(b'[i], j + 1) {
      if j > 0 {
        assert b'[i][j] == b[i][j - 1];
      }
    }
  }

  /** Moving each entry of a chain to the new table leaves what an operation looks for untouched. */
  ghost predicate Movable<K(!new), V>(hash: K -> nat, c: Chain<K, V>, from: nat, b: Buckets<K, V>, index: map<K, Entry<K, V>>) {
    && Placed(hash, b, index) && Distinct(b)
    && (forall j :: from <= j < |c| ==> Indexed(index, c[j]) && !Has(hash, b, c[j]))
    && (forall j, k :: 0 <= j < k < |c| ==> c[j] != c[k])
  }

  lemma MovedOne<K(!new), V>(hash: K -> nat, c: Chain<K, V>, from: nat, b: Buckets<K, V>, index: map<K, Entry<K, V>>)
    requires |b| > 0 && from < |c| && Movable(hash, c, from, b, index)
    ensures NotIn(b, c[from])
    ensures Movable(hash, c, from + 1, Push(hash, b, c[from]), index)
    ensures MoveChain(hash, c[from..], b) == MoveChain(hash, c[from + 1..], Push(hash, b, c[from]))
  {
    assert Indexed(index, c[from]);
    HasNot(hash, b, index, c[from]);
    PushPlaced(hash, b, c[from], index);
    forall j | from < j < |c| ensures !Has(hash, Push(hash, b, c[from]), c[j]) {
      PushHas(hash, b, c[from], c[j]);
    }
    assert c[from..][0] == c[from] && c[from..][1..] == c[from + 1..];
  }

  lemma BucketIsMovable<K(!new), V>(hash: K -> nat, s: Shape<K, V>, i: nat, index: map<K, Entry<K, V>>)
    requires WellFormed(hash, s, index) && i < |s.b0|
    ensures Movable(hash, s.b0[i], 0, s.b1, index)
    ensures forall j :: 0 <= j < |s.b0[i]| ==> NotIn(s.b0[i := []], s.b0[i][j])
  {
    forall j | 0 <= j < |s.b0[i]|
      ensures Indexed(index, s.b0[i][j]) && !Has(hash, s.b1, s.b0[i][j]) && NotIn(s.b0[i := []], s.b0[i][j])
    {
      var e := s.b0[i][j];
      InChainHas(hash, s.b0, index, i, j);
      assert Indexed(index, e);
      EmptiedHas(hash, s.b0, index, i, e);
      HasNot(hash, s.b0[i := []], index, e);
    }
  }

  /**
   The inner loop of `dictRehash`: every entry of the chain that starts at `first` moves to the
   front of its chain in the new table. `b0` are the chains that stay.
   */
  method MoveEntries<K(!new), V>(hash: K -> nat, first: Entry?<K, V>, t1: Table<K, V>, ghost c: Chain<K, V>,
                                 ghost b0: Buckets<K, V>, ghost b1: Buckets<K, V>, ghost index: map<K, Entry<K, V>>,
                                 ghost nodes: set<Entry<K, V>>)
    returns (count: nat)
    requires |b1| > 0 && Heads(t1, b1) && Links(b1, nodes) && Links(b0, nodes)
    requires first == At(c, 0) && ChainLinks(c, 0, nodes)
    requires Movable(hash, c, 0, b1, index) && forall j :: 0 <= j < |c| ==> NotIn(b0, c[j])
    modifies t1, set x | x in nodes :: x`next
    ensures Heads(t1, MoveChain(hash, c, b1)) && Links(MoveChain(hash, c, b1), nodes)
    ensures Links(b0, nodes) && count == |c|
  {
    var de := first;
    count := 0;
    ghost var b := b1;
    assert c[0..] == c;
    while de != null
      invariant count <= |c| && de == At(c, count) && ChainLinks(c, count, nodes)
      invariant |b| > 0 && Heads(t1, b) && Links(b, nodes) && Links(b0, nodes)
      invariant Movable(hash, c, count, b, index)
      invariant MoveChain(hash, c[count..], b) == MoveChain(hash, c, b1)
      decreases |c| - count
    {
      var nextde := de.next;
      MovedOne(hash, c, count, b, index);
      LinkFront(hash, t1, b, de, nodes);
      b := Push(hash, b, de);
      de, count := nextde, count + 1;
    }
    assert c[count..] == [];
  }

  // ------------------------------------------------------------------
  // Shapes reached by the operations
  // ------------------------------------------------------------------

  /** `dictRehash(d, n)`. */
  ghost function Steps<K, V>(hash: K -> nat, s: Shape<K, V>, n: nat): Shape<K, V>
    requires Staged(s)
    decreases n
  {
    if n == 0 || !Rehashing(s) then s
    else
      StepStaged(hash, s);
      Steps(hash, Step(hash, s), n - 1)
  }

  /** `_dictRehashStep`: suspended while safe iterators are open. */
  ghost function StepUnlessIterating<K, V>(hash: K -> nat, s: Shape<K, V>, iterators: nat): Shape<K, V>
    requires Staged(s)
  {
    if Rehashing(s) && iterators == 0 then Step(hash, s) else s
  }

  /** The values stored in the entries. */
  ghost predicate Holds<K(!new), V>(index: map<K, Entry<K, V>>, nodes: set<Entry<K, V>>, contents: map<K, V>)
    reads nodes
  {
    && contents.Keys == index.Keys
    && forall k :: k in index ==> index[k] in nodes && contents[k] == index[k].val
  }

  lemma SkipEmpty<K, V>(b: Buckets<K, V>, i: nat)
    requires i < |b| && b[i] == [] && Total(b[i..]) > 0
    ensures i + 1 < |b| && Total(b[i + 1..]) > 0 && FirstFull(b, i) == FirstFull(b, i + 1)
  {
    assert b[i..][1..] == b[i + 1..];
  }

  /** What migrating bucket `i` needs to know and comes to. */
  lemma MigrationFacts<K(!new), V>(hash: K -> nat, s: Shape<K, V>, i: nat, index: map<K, Entry<K, V>>)
    requires WellFormed(hash, s, index) && Rehashing(s) && Total(s.b0) > 0
    requires s.at <= i < |s.b0| && Total(s.b0[s.at..]) > 0 && i == FirstFull(s.b0, s.at)
    ensures var c := s.b0[i]; var s' := Step(hash, s);
            && |s.b1| > 0 && s' == Shape(s.b0[i := []], MoveChain(hash, c, s.b1), i + 1)
            && Movable(hash, c, 0, s.b1, index)
            && (forall j :: 0 <= j < |c| ==> NotIn(s.b0[i := []], c[j]))
            && Total(s'.b0) == Total(s.b0) - |c| && Total(s'.b1) == Total(s.b1) + |c|
  {
    BucketIsMovable(hash, s, i, index);
    MoveChainTotal(hash, s.b0[i], s.b1);
    TotalUpdate(s.b0, i, []);
  }

  lemma StepKeeps<K(!new), V>(hash: K -> nat, s: Shape<K, V>, index: map<K, Entry<K, V>>)
    requires WellFormed(hash, s, index) && Rehashing(s)
    ensures Staged(s) && WellFormed(hash, Step(hash, s), index)
    ensures Total(s.b0) == 0 ==> Step(hash, s) == Shape(s.b1, [], -1)
  {
    StepWellFormed(hash, s, index);
  }

  /** What the end of a search of one table says about the key. */
  lemma SearchResult<K(!new), V>(hash: K -> nat, s: Shape<K, V>, table: nat, key: K, p: nat, index: map<K, Entry<K, V>>)
    requires WellFormed(hash, s, index) && |TableOf(s, table)| > 0
    requires var c := TableOf(s, table)[Slot(hash, key, |TableOf(s, table)|)];
             p <= |c| && (forall j :: 0 <= j < p ==> c[j].key != key) && (p < |c| ==> c[p].key == key)
    ensures var b := TableOf(s, table); var c := b[Slot(hash, key, |b|)];
            && (p < |c| ==> key in index && index[key] == c[p] && Has(hash, b, c[p]))
            && (p == |c| && key in index ==> !Has(hash, b, index[key]))
  {
    var b := TableOf(s, table);
    var i := Slot(hash, key, |b|);
    if p < |b[i]| {
      InChainHas(hash, b, index, i, p);
    }
  }

  lemma NotFound<K(!new), V>(hash: K -> nat, s: Shape<K, V>, key: K, index: map<K, Entry<K, V>>)
    requires WellFormed(hash, s, index)
    ensures key in index ==> Has(hash, s.b0, index[key]) || (Rehashing(s) && Has(hash, s.b1, index[key]))
  {
  }

  lemma NothingWithoutTable<K(!new), V>(hash: K -> nat, s: Shape<K, V>, index: map<K, Entry<K, V>>)
    requires WellFormed(hash, s, index) && |s.b0| == 0
    ensures !Rehashing(s) && index == map[]
  {
    assert forall k :: k in index ==> index[k].key == k;
    assert index.Keys == {};
  }

  lemma StepHasTable<K, V>(hash: K -> nat, s: Shape<K, V>, s': Shape<K, V>, iterators: nat)
    requires Staged(s) && |s.b0| > 0 && s' == StepUnlessIterating(hash, s, iterators)
    ensures |s'.b0| > 0
  {
    if Rehashing(s) {
      StepStaged(hash, s);
    }
  }

  lemma FreshTable<K, V>(t: Table<K, V>, nodes: set<Entry<K, V>>)
    requires forall i :: 0 <= i < t.Length ==> t[i] == null
    ensures Heads(t, Empty(t.Length)) && Links(Empty<K, V>(t.Length), nodes)
    ensures Total(Empty<K, V>(t.Length)) == 0
  {
    TotalOfEmpty<K, V>(t.Length);
  }

  lemma ExpandIs<K, V>(s: Shape<K, V>, size: nat)
    ensures Expand(s, size) == if s.b0 == [] then Shape(Empty(NextPower(size)), [], -1)
                               else Shape(s.b0, Empty(NextPower(size)), 0)
    ensures s.b0 == [] ==> Total(s.b0) == 0
  {
  }

  lemma NothingStored<K, V>(s: Shape<K, V>)
    requires |s.b0| == 0
    ensures Total(s.b0) == 0
  {
  }

  lemma IndexInjective<K(!new), V>(hash: K -> nat, s: Shape<K, V>, index: map<K, Entry<K, V>>)
    requires WellFormed(hash, s, index)
    ensures forall k :: k in index ==> index[k].key == k
  {
  }

  lemma InsertFacts<K(!new), V>(hash: K -> nat, s: Shape<K, V>, e: Entry<K, V>, index: map<K, Entry<K, V>>)
    requires WellFormed(hash, s, index) && e.key !in index
    requires if Rehashing(s) then |s.b1| > 0 else |s.b0| > 0
    ensures WellFormed(hash, Insert(hash, s, e), index[e.key := e])
    ensures NotIn(s.b0, e) && NotIn(s.b1, e)
    ensures var b := if Rehashing(s) then s.b1 else s.b0; Total(Push(hash, b, e)) == Total(b) + 1
  {
    InsertWellFormed(hash, s, e, index);
    NotIndexed(hash, s.b0, e, index);
    NotIndexed(hash, s.b1, e, index);
    HasNot(hash, s.b0, index, e);
    HasNot(hash, s.b1, index, e);
    PushTotal(hash, if Rehashing(s) then s.b1 else s.b0, e);
  }

  lemma MoreNodes<K, V>(b: Buckets<K, V>, nodes: set<Entry<K, V>>, nodes': set<Entry<K, V>>)
    requires Links(b, nodes) && nodes <= nodes'
    ensures Links(b, nodes')
  {
  }

  lemma HoldsMore<K(!new), V>(index: map<K, Entry<K, V>>, nodes: set<Entry<K, V>>, contents: map<K, V>, e: Entry<K, V>)
    requires Holds(index, nodes, contents)
    ensures Holds(index[e.key := e], nodes + {e}, contents[e.key := e.val])
  {
  }

  lemma HoldsLess<K(!new), V>(index: map<K, Entry<K, V>>, nodes: set<Entry<K, V>>, contents: map<K, V>, e: Entry<K, V>)
    requires Holds(index, nodes, contents) && e.key in index && index[e.key] == e
    requires forall k :: k in index ==> index[k].key == k
    ensures Holds(index - {e.key}, nodes - {e}, contents - {e.key})
  {
  }

  lemma OnlyHere<K(!new), V>(hash: K -> nat, s: Shape<K, V>, table: nat, i: nat, j: nat, index: map<K, Entry<K, V>>)
    requires WellFormed(hash, s, index) && table < 2 && i < |TableOf(s, table)| && j < |TableOf(s, table)[i]|
    ensures NotIn(TableOf(s, 1 - table), TableOf(s, table)[i][j])
  {
    var x := TableOf(s, table)[i][j];
    InChainHas(hash, TableOf(s, table), index, i, j);
    assert Has(hash, s.b0, index[x.key]) <==> !Has(hash, s.b1, index[x.key]);
    HasNot(hash, TableOf(s, 1 - table), index, x);
  }

  /** What removing an entry found in a table needs to know and comes to. */
  lemma RemoveFacts<K(!new), V>(hash: K -> nat, s: Shape<K, V>, table: nat, e: Entry<K, V>, p: nat, index: map<K, Entry<K, V>>)
    requires WellFormed(hash, s, index) && table < 2 && e.key in index && index[e.key] == e && Has(hash, TableOf(s, table), e)
    requires var c := TableOf(s, table)[Slot(hash, e.key, |TableOf(s, table)|)]; p < |c| && c[p] == e
    ensures forall k :: k in index ==> index[k].key == k
    ensures var s' := Remove(hash, s, e); var b := TableOf(s, table);
            && (p > 0 ==> NotIn(TableOf(s, 1 - table), b[Slot(hash, e.key, |b|)][p - 1]))
            && WellFormed(hash, s', index - {e.key})
            && TableOf(s', table) == Drop(hash, b, e) && TableOf(s', 1 - table) == TableOf(s, 1 - table) && s'.at == s.at
            && NotIn(TableOf(s, 1 - table), e) && Placed(hash, b, index) && Distinct(b)
            && Total(b) == Total(Drop(hash, b, e)) + 1
  {
    assert Has(hash, s.b0, index[e.key]) <==> !Has(hash, s.b1, index[e.key]);
    RemoveWellFormed(hash, s, e, index);
    DropTables(hash, s, e);
    HasNot(hash, TableOf(s, 1 - table), index, e);
    DropPlaced(hash, TableOf(s, table), e, index);
    if p > 0 {
      OnlyHere(hash, s, table, Slot(hash, e.key, |TableOf(s, table)|), p - 1, index);
    }
  }

  lemma Unallocated<K, V>(t: Table<K, V>, nodes: set<Entry<K, V>>)
    requires t.Length == 0
    ensures Heads(t, []) && Links([], nodes) && Total<K, V>([]) == 0
  {
  }

  /** Entry `e` stands at position `p` of chain `i` of a table, and at no other position. */
  ghost predicate StandsAt<K, V>(b: Buckets<K, V>, e: Entry<K, V>, i: nat, p: nat) {
    && i < |b| && p < |b[i]| && b[i][p] == e
    && forall k, j :: 0 <= k < |b| && 0 <= j < |b[k]| && b[k][j] == e ==> k == i && j == p
  }

  /** Table `d` is table `b` without position `p` of chain `i`. */
  ghost predicate Shortened<K, V>(b: Buckets<K, V>, i: nat, p: nat, d: Buckets<K, V>) {
    && i < |b| == |d| && p < |b[i]| && |d[i]| == |b[i]| - 1
    && (forall k :: 0 <= k < |b| && k != i ==> d[k] == b[k])
    && (forall j :: 0 <= j < p ==> d[i][j] == b[i][j])
    && (forall j :: p <= j < |d[i]| ==> d[i][j] == b[i][j + 1])
  }

  /** The chains after taking position `p` out of one of them. */
  lemma DropIs<K(!new), V>(hash: K -> nat, b: Buckets<K, V>, e: Entry<K, V>, p: nat, index: map<K, Entry<K, V>>)
    requires Placed(hash, b, index) && Distinct(b) && Has(hash, b, e)
    requires var c := b[Slot(hash, e.key, |b|)]; p < |c| && c[p] == e
    ensures var i := Slot(hash, e.key, |b|);
            && Shortened(b, i, p, Drop(hash, b, e)) && StandsAt(b, e, i, p)
            && (p > 0 ==> StandsAt(b, b[i][p - 1], i, p - 1))
  {
    var q := DropOne(hash, b, e, index);
  }

  /** `prevHe->next = he->next`. */
  method UnlinkAfter<K, V>(prev: Entry<K, V>, e: Entry<K, V>, t: Table<K, V>, ghost b: Buckets<K, V>, ghost i: nat, ghost p: nat,
                           ghost d: Buckets<K, V>, ghost nodes: set<Entry<K, V>>)
    requires Heads(t, b) && Links(b, nodes) && Shortened(b, i, p, d) && StandsAt(b, e, i, p)
    requires p > 0 && prev == b[i][p - 1] && StandsAt(b, prev, i, p - 1)
    modifies prev`next
    ensures Heads(t, d) && Links(d, nodes - {e})
  {
    prev.next := e.next;
    assert p < |d[i]| ==> d[i][p] == b[i][p + 1];
    forall j | 0 <= j < |d[i]| ensures d[i][j] in nodes - {e} && d[i][j].next == At(d[i], j + 1) {
      assert d[i][j] == b[i][if j < p then j else j + 1];
    }
  }

  /** `d->ht[table].table[idx] = he->next`. */
  method UnlinkFirst<K, V>(e: Entry<K, V>, t: Table<K, V>, i: nat, ghost b: Buckets<K, V>, ghost d: Buckets<K, V>,
                           ghost nodes: set<Entry<K, V>>)
    requires Heads(t, b) && Links(b, nodes) && Shortened(b, i, 0, d) && StandsAt(b, e, i, 0)
    modifies t
    ensures Heads(t, d) && Links(d, nodes - {e})
  {
    t[i] := e.next;
    forall j | 0 <= j < |d[i]| ensures d[i][j] in nodes - {e} && d[i][j].next == At(d[i], j + 1) {
      assert d[i][j] == b[i][j + 1];
    }
  }

  /** Takes `e` out of its chain; a table that shares no entry with this one keeps its links. */
  method Unlink<K(!new), V>(hash: K -> nat, t: Table<K, V>, ghost b: Buckets<K, V>, prev: Entry?<K, V>, e: Entry<K, V>,
                            ghost p: nat, ghost nodes: set<Entry<K, V>>, ghost other: Buckets<K, V>,
                            ghost index: map<K, Entry<K, V>>)
    requires Placed(hash, b, index) && Distinct(b) && Has(hash, b, e) && Heads(t, b) && Links(b, nodes) && e in nodes
    requires var c := b[Slot(hash, e.key, |b|)]; p < |c| && c[p] == e && prev == if p == 0 then null else c[p - 1]
    requires Links(other, nodes) && NotIn(other, e) && (prev != null ==> NotIn(other, prev))
    modifies t, set x | x in nodes :: x`next
    ensures Heads(t, Drop(hash, b, e)) && Links(Drop(hash, b, e), nodes - {e}) && Links(other, nodes - {e})
  {
    hide Placed, Distinct, Has, Drop, Slot, StandsAt, Shortened;
    DropIs(hash, b, e, p, index);
    ghost var d := Drop(hash, b, e);
    var i := Slot(hash, e.key, t.Length);
    if prev != null {
      UnlinkAfter(prev, e, t, b, i, p, d, nodes);
    } else {
      UnlinkFirst(e, t, i, b, d, nodes);
    }
  }

  class Dict<K(!new, ==), V> {
    const hash: K -> nat
    var table0: Table<K, V>
    var used0: nat
    var table1: Table<K, V>
    var used1: nat
    var rehashidx: int
    var iterators: nat
    ghost var shape: Shape<K, V>
    ghost var index: map<K, Entry<K, V>>
    ghost var nodes: set<Entry<K, V>>
    /** The finite map the dictionary stands for. */
    ghost var contents: map<K, V>
    /** The safe iterators that have started and have not been released. */
    ghost var open: set<Iterator<K, V>>

    ghost predicate Valid()
      reads this, table0, table1, nodes
    {
      && WellFormed(hash, shape, index)
      && table0 != table1
      && Heads(table0, shape.b0) && Links(shape.b0, nodes)
      && Heads(table1, shape.b1) && Links(shape.b1, nodes)
      && used0 == Total(shape.b0) && used1 == Total(shape.b1)
      && rehashidx == shape.at
      && iterators == |open|
      && Holds(index, nodes, contents)
    }

    constructor (hash: K -> nat)
      ensures Valid() && fresh(table0) && fresh(table1) && nodes == {} && contents == map[] && this.hash == hash && open == {}
    {
      this.hash := hash;
      table0, table1 := new Entry?<K, V>[0], new Entry?<K, V>[0];
      used0, used1, rehashidx, iterators := 0, 0, -1, 0;
      shape, index, nodes, contents, open := Shape([], [], -1), map[], {}, map[], {};
    }

    /** `dictSize`: the number of keys. */
    method Size() returns (n: nat)
      requires Valid()
      ensures n == |contents|
    {
      UsedIsKeyCount(hash, shape, index);
      assert |contents| == |contents.Keys| == |index.Keys| == |index|;
      n := used0 + used1;
    }

    // ----------------------------------------------------------------
    // Migration
    // ----------------------------------------------------------------

    /** `while(d->ht[0].table[d->rehashidx] == NULL) d->rehashidx++`, which stays inside the table. */
    method NextFull(ghost s: Shape<K, V>) returns (i: nat)
      requires Heads(table0, s.b0) && s.at == rehashidx && Staged(s) && Rehashing(s) && Total(s.b0) > 0
      ensures s.at <= i < |s.b0| && Total(s.b0[s.at..]) > 0 && i == FirstFull(s.b0, s.at)
    {
      EntriesRemainAhead(s);
      hide Staged, Total;
      i := rehashidx;
      while table0[i] == null
        invariant s.at <= i < |s.b0| && Total(s.b0[i..]) > 0 && FirstFull(s.b0, i) == FirstFull(s.b0, s.at)
        decreases |s.b0| - i
      {
        SkipEmpty(s.b0, i);
        i := i + 1;
      }
    }

    /** Relinks the entries of bucket `i`, from shape `s` to shape `s'`, and moves the counters. */
    method MoveBucket(i: nat, ghost s: Shape<K, V>, ghost s': Shape<K, V>)
      requires table0 != table1 && Heads(table0, s.b0) && Links(s.b0, nodes)
      requires Heads(table1, s.b1) && Links(s.b1, nodes)
      requires i < |s.b0| && |s.b1| > 0 && Movable(hash, s.b0[i], 0, s.b1, index) && |s.b0[i]| <= used0
      requires forall j :: 0 <= j < |s.b0[i]| ==> NotIn(s.b0[i := []], s.b0[i][j])
      requires s' == Shape(s.b0[i := []], MoveChain(hash, s.b0[i], s.b1), i + 1)
      requires Holds(index, nodes, contents)
      modifies this`used0, this`used1, this`rehashidx, table0, table1, set x | x in nodes :: x`next
      ensures used0 == old(used0) - |s.b0[i]| && used1 == old(used1) + |s.b0[i]| && rehashidx == i + 1
      ensures Heads(table0, s'.b0) && Links(s'.b0, nodes)
      ensures Heads(table1, s'.b1) && Links(s'.b1, nodes)
      ensures Holds(index, nodes, contents)
    {
      hide MoveChain, Movable, NotIn;
      var count := MoveEntries(hash, table0[i], table1, s.b0[i], s.b0[i := []], s.b1, index, nodes);
      table0[i] := null;
      used0, used1 := used0 - count, used1 + count;
      rehashidx := i + 1;
    }

    /** Migrates the next non-empty bucket. */
    method MigrateBucket()
      requires Valid() && Rehashing(shape) && used0 > 0
      modifies this`used0, this`used1, this`rehashidx, this`shape, table0, table1, set x | x in nodes :: x`next
      ensures Valid() && shape == Step(hash, old(shape)) && rehashidx > old(rehashidx)
    {
      hide WellFormed, Total, FirstFull, MoveChain, Step, Movable, Staged, NotIn, Heads, Links, Holds;
      ghost var s := shape;
      StepKeeps(hash, s, index);
      var i := NextFull(s);
      MigrationFacts(hash, s, i, index);
      ghost var s' := Step(hash, s);
      shape := s';
      MoveBucket(i, s, s');
    }

    /** `d->ht[0] = d->ht[1]` once the old table is empty. */
    method FinishMigration()
      requires Valid() && Rehashing(shape) && used0 == 0
      modifies this`table0, this`table1, this`used0, this`used1, this`rehashidx, this`shape
      ensures Valid() && shape == Step(hash, old(shape))
      ensures table0 == old(table1) && fresh(table1) && rehashidx == -1
    {
      hide WellFormed, Step, Staged, Total, Heads, Links, Holds;
      StepKeeps(hash, shape, index);
      ghost var s' := Step(hash, shape);
      var empty := new Entry?<K, V>[0];
      Unallocated(empty, nodes);
      table0, used0, table1, used1, rehashidx := table1, used1, empty, 0, -1;
      shape := s';
    }

    /** One pass of the loop in `dictRehash`. */
    method RehashOnce()
      requires Valid() && Rehashing(shape)
      modifies this, table0, table1, nodes
      ensures Valid() && shape == Step(hash, old(shape))
      ensures index == old(index) && nodes == old(nodes) && open == old(open) && iterators == old(iterators) && contents == old(contents)
      ensures (table0 in {old(table0), old(table1)} || fresh(table0)) && (table1 == old(table1) || fresh(table1))
      ensures if old(used0) == 0 then table0 == old(table1) && rehashidx == -1
              else table0 == old(table0) && table1 == old(table1) && rehashidx > old(rehashidx)
    {
      hide Valid, Staged, Step;
      IdxAndStage();
      if used0 == 0 {
        FinishMigration();
      } else {
        MigrateBucket();
      }
    }

    method Rehash(n: nat) returns (more: bool)
      requires Valid()
      modifies this, table0, table1, nodes
      ensures Valid() && shape == Steps(hash, old(shape), n)
      ensures more == Rehashing(shape)
      ensures index == old(index) && nodes == old(nodes) && open == old(open) && iterators == old(iterators) && contents == old(contents)
      ensures (table0 in {old(table0), old(table1)} || fresh(table0)) && (table1 == old(table1) || fresh(table1))
      ensures more == (rehashidx != -1)
      ensures old(rehashidx) != -1 ==>
                if more then table0 == old(table0) && rehashidx >= old(rehashidx) + n else table0 == old(table1)
    {
      hide Valid, Staged, Step;
      IdxAndStage();
      var left := n;
      while left > 0 && rehashidx != -1
        invariant 0 <= left <= n && Valid() && rehashidx == shape.at && Staged(shape)
        invariant old(rehashidx) != -1 ==>
                    if rehashidx != -1 then
                      table0 == old(table0) && table1 == old(table1) && rehashidx >= old(rehashidx) + (n - left)
                    else table0 == old(table1)
        invariant Steps(hash, shape, left) == Steps(hash, old(shape), n)
        invariant index == old(index) && nodes == old(nodes) && open == old(open) && iterators == old(iterators) && contents == old(contents)
        invariant (table0 in {old(table0), old(table1)} || fresh(table0)) && (table1 == old(table1) || fresh(table1))
      {
        RehashOnce();
        IdxAndStage();
        left := left - 1;
      }
      more := rehashidx != -1;
    }

    lemma IdxAndStage()
      requires Valid()
      ensures rehashidx == shape.at && Staged(shape)
    {
    }

    method RehashStep()
      requires Valid()
      modifies this, table0, table1, nodes
      ensures Valid() && shape == StepUnlessIterating(hash, old(shape), iterators)
      ensures index == old(index) && nodes == old(nodes) && open == old(open) && iterators == old(iterators) && contents == old(contents)
      ensures (table0 in {old(table0), old(table1)} || fresh(table0)) && (table1 == old(table1) || fresh(table1))
      ensures if old(rehashidx) == -1 || iterators > 0 then
                table0 == old(table0) && table1 == old(table1) && rehashidx == old(rehashidx)
              else if old(used0) == 0 then table0 == old(table1) && rehashidx == -1
              else table0 == old(table0) && table1 == old(table1) && rehashidx > old(rehashidx)
    {
      hide Valid, Staged, Step;
      IdxAndStage();
      if iterators == 0 && rehashidx != -1 {
        RehashOnce();
      }
    }

    // ----------------------------------------------------------------
    // Searching
    // ----------------------------------------------------------------

    /** Walks one chain for a key; `prev` is the entry before the one found. */
    static method Search(hash: K -> nat, t: Table<K, V>, key: K, ghost b: Buckets<K, V>, ghost nodes: set<Entry<K, V>>)
      returns (prev: Entry?<K, V>, e: Entry?<K, V>, ghost p: nat)
      requires |b| > 0 && Heads(t, b) && Links(b, nodes)
      ensures var c := b[Slot(hash, key, |b|)];
              && p <= |c| && (forall j :: 0 <= j < p ==> c[j].key != key)
              && e == At(c, p) && (e != null ==> e.key == key)
              && prev == if p == 0 then null else c[p - 1]
    {
      hide Slot;
      ghost var c := b[Slot(hash, key, |b|)];
      prev, e, p := null, t[Slot(hash, key, t.Length)], 0;
      while e != null && e.key != key
        invariant p <= |c| && e == At(c, p) && forall j :: 0 <= j < p ==> c[j].key != key
        invariant prev == if p == 0 then null else c[p - 1]
        decreases |c| - p
      {
        prev, e, p := e, e.next, p + 1;
      }
    }

    /** The entry of a key, looked up in the old table and, during a migration, in the new one. */
    method Lookup(key: K) returns (e: Entry?<K, V>)
      requires Valid() && table0.Length > 0
      ensures e == if key in index then index[key] else null
    {
      hide WellFormed, Slot, Holds, Total, Heads, Links;
      ShapeFacts();
      ghost var p;
      var prev;
      prev, e, p := Search(hash, table0, key, shape.b0, nodes);
      SearchResult(hash, shape, 0, key, p, index);
      if e == null && rehashidx != -1 {
        prev, e, p := Search(hash, table1, key, shape.b1, nodes);
        SearchResult(hash, shape, 1, key, p, index);
      }
      NotFound(hash, shape, key, index);
    }

    lemma IndexInTable()
      requires Valid()
      ensures -1 <= rehashidx <= table0.Length && (rehashidx != -1 ==> table0 != table1)
    {
    }

    lemma ShapeFacts()
      requires Valid()
      ensures rehashidx == shape.at && Staged(shape)
      ensures |shape.b0| == table0.Length && |shape.b1| == table1.Length
      ensures Rehashing(shape) ==> |shape.b0| > 0 && |shape.b1| > 0
      ensures !Rehashing(shape) ==> shape.b1 == [] && used1 == 0
    {
    }

    /** `dictFind`. */
    method Find(key: K) returns (e: Entry?<K, V>)
      requires Valid()
      modifies this, table0, table1, nodes
      ensures Valid() && shape == StepUnlessIterating(hash, old(shape), iterators)
      ensures e == if key in contents then index[key] else null
      ensures e != null ==> e.val == contents[key]
      ensures index == old(index) && nodes == old(nodes) && open == old(open) && iterators == old(iterators) && contents == old(contents)
      ensures (table0 in {old(table0), old(table1)} || fresh(table0)) && (table1 == old(table1) || fresh(table1))
      ensures if old(rehashidx) == -1 || iterators > 0 then
                table0 == old(table0) && table1 == old(table1) && rehashidx == old(rehashidx)
              else if old(used0) == 0 then table0 == old(table1) && rehashidx == -1
              else table0 == old(table0) && table1 == old(table1) && rehashidx > old(rehashidx)
    {
      hide WellFormed, Slot, Total, Heads, Links, Staged, Step;
      ShapeFacts();
      if table0.Length == 0 {
        NothingWithoutTable(hash, shape, index);
        return null;
      }
      RehashStep();
      StepHasTable(hash, old(shape), shape, iterators);
      ShapeFacts();
      e := Lookup(key);
    }

    // ----------------------------------------------------------------
    // Growing and shrinking
    // ----------------------------------------------------------------

    /** `_dictNextPower`. */
    static method NextTableSize(size: nat) returns (i: nat)
      ensures i == NextPower(size)
    {
      i := INITIAL_SIZE;
      while i < size
        invariant i > 0 && NextPowerFrom(i, size) == NextPower(size)
        decreases size - i
      {
        i := i * 2;
      }
    }

    /** `dictExpand`: refuses during a migration, or when the entries would not fit. */
    method ExpandTo(size: nat) returns (ok: bool)
      requires Valid()
      modifies this
      ensures Valid() && used0 == old(used0) && ok == (!Rehashing(old(shape)) && Total(old(shape).b0) <= size)
      ensures shape == if ok then Expand(old(shape), size) else old(shape)
      ensures index == old(index) && nodes == old(nodes) && open == old(open) && iterators == old(iterators) && contents == old(contents)
      ensures (table0 == old(table0) || fresh(table0)) && (table1 == old(table1) || fresh(table1))
      ensures if !ok then table0 == old(table0) && table1 == old(table1) && rehashidx == old(rehashidx)
              else if old(table0.Length) == 0 then table0.Length == NextPower(size) && rehashidx == -1
              else table0 == old(table0) && table1.Length == NextPower(size) && rehashidx == 0
      ensures ok == (old(rehashidx) == -1 && old(used0) <= size)
    {
      hide WellFormed, Total, Heads, Links, Staged, Expand, Holds;
      ShapeFacts();
      ok := rehashidx == -1 && used0 <= size;
      if ok {
        var realsize := NextTableSize(size);
        var t := new Entry?<K, V>[realsize](_ => null);
        FreshTable(t, nodes);
        ExpandWellFormed(hash, shape, size, index);
        ExpandIs(shape, size);
        if table0.Length == 0 {
          table0 := t;
        } else {
          table1, rehashidx := t, 0;
        }
        shape := Expand(shape, size);
      }
    }

    /** `dictResize`: to the smallest size that holds the entries. */
    method Resize(canResize: bool) returns (ok: bool)
      requires Valid()
      modifies this
      ensures Valid() && ok == (canResize && !Rehashing(old(shape)))
      ensures shape == if ok then Expand(old(shape), Max(Total(old(shape).b0), INITIAL_SIZE)) else old(shape)
      ensures index == old(index) && nodes == old(nodes) && open == old(open) && iterators == old(iterators) && contents == old(contents)
      ensures (table0 == old(table0) || fresh(table0)) && (table1 == old(table1) || fresh(table1))
    {
      hide WellFormed, Total, Heads, Links, Staged, Expand, Holds;
      ShapeFacts();
      if !canResize || rehashidx != -1 {
        return false;
      }
      var minimal := if used0 < INITIAL_SIZE then INITIAL_SIZE else used0;
      ok := ExpandTo(minimal);
    }

    /** `_dictExpandIfNeeded`. */
    method GrowIfNeeded(canResize: bool)
      requires Valid()
      modifies this
      ensures Valid() && shape == ExpandIfNeeded(old(shape), canResize)
      ensures index == old(index) && nodes == old(nodes) && open == old(open) && iterators == old(iterators) && contents == old(contents)
      ensures (table0 == old(table0) || fresh(table0)) && (table1 == old(table1) || fresh(table1))
      ensures if Rehashing(shape) then |shape.b1| > 0 else |shape.b0| > 0
      ensures old(rehashidx) == -1 ==>
                if old(table0.Length) == 0 then table0.Length == 4 && rehashidx == -1
                else
                  && table0 == old(table0)
                  && if old(used0) >= old(table0.Length) && (canResize || old(used0) / old(table0.Length) > 5) then
                       rehashidx == 0 && table1.Length == NextPower(2 * old(used0))
                     else rehashidx == -1
      ensures old(rehashidx) != -1 ==> table0 == old(table0) && table1 == old(table1) && rehashidx == old(rehashidx)
      ensures used0 == old(used0)
    {
      hide WellFormed, Total, Heads, Links, Staged, Expand, Holds;
      ShapeFacts();
      ExpandKeeps(hash, shape, canResize, index);
      var ok;
      if rehashidx == -1 {
        if table0.Length == 0 {
          NothingStored(shape);
          ok := ExpandTo(INITIAL_SIZE);
        } else if used0 >= table0.Length && (canResize || used0 / table0.Length > FORCE_RESIZE_RATIO) {
          ok := ExpandTo(Max(table0.Length, used0) * 2);
        }
      }
    }

    // ----------------------------------------------------------------
    // Adding, replacing, deleting
    // ----------------------------------------------------------------

    /** Links a new entry into the table that takes new entries. */
    method InsertEntry(key: K, val: V) returns (e: Entry<K, V>)
      requires Valid() && key !in index
      requires if Rehashing(shape) then |shape.b1| > 0 else |shape.b0| > 0
      modifies this`used0, this`used1, this`shape, this`index, this`nodes, this`contents, table0, table1
      ensures Valid() && fresh(e) && e.key == key && e.val == val
      ensures shape == Insert(hash, old(shape), e) && index == old(index)[key := e] && nodes == old(nodes) + {e}
      ensures contents == old(contents)[key := val]
    {
      hide WellFormed, Total, Staged, Slot, Push, Heads, Links, NotIn, Holds;
      ShapeFacts();
      e := new Entry(key, val, null);
      InsertFacts(hash, shape, e, index);
      MoreNodes(shape.b0, nodes, nodes + {e});
      MoreNodes(shape.b1, nodes, nodes + {e});
      HoldsMore(index, nodes, contents, e);
      ghost var s', index', nodes', contents' := Insert(hash, shape, e), index[key := e], nodes + {e}, contents[key := val];
      if rehashidx != -1 {
        LinkInto(true, e, s', index', nodes', contents');
        Adopt(used0, used1 + 1, s', index', nodes', contents');
      } else {
        LinkInto(false, e, s', index', nodes', contents');
        Adopt(used0 + 1, used1, s', index', nodes', contents');
      }
    }

    /** Moves the counters once the chains have been relinked. */
    method Adopt(u0: nat, u1: nat, ghost s': Shape<K, V>, ghost index': map<K, Entry<K, V>>, ghost nodes': set<Entry<K, V>>,
                 ghost contents': map<K, V>)
      requires WellFormed(hash, s', index') && table0 != table1 && Holds(index', nodes', contents')
      requires Heads(table0, s'.b0) && Links(s'.b0, nodes') && Heads(table1, s'.b1) && Links(s'.b1, nodes')
      requires u0 == Total(s'.b0) && u1 == Total(s'.b1) && rehashidx == s'.at && iterators == |open|
      modifies this`used0, this`used1, this`shape, this`index, this`nodes, this`contents
      ensures Valid() && shape == s' && index == index' && nodes == nodes' && contents == contents'
    {
      hide WellFormed, Total, Heads, Links, Holds;
      used0, used1 := u0, u1;
      shape, index, nodes, contents := s', index', nodes', contents';
    }

    /** Puts `e` in front of its chain in one table; the chains of the other table do not change. */
    method LinkInto(second: bool, e: Entry<K, V>, ghost s': Shape<K, V>, ghost index: map<K, Entry<K, V>>,
                    ghost nodes: set<Entry<K, V>>, ghost contents: map<K, V>)
      requires table0 != table1 && Heads(table0, shape.b0) && Links(shape.b0, nodes)
      requires Heads(table1, shape.b1) && Links(shape.b1, nodes)
      requires e in nodes && NotIn(shape.b0, e) && NotIn(shape.b1, e) && Holds(index, nodes, contents)
      requires if second then |shape.b1| > 0 else |shape.b0| > 0
      requires s' == if second then shape.(b1 := Push(hash, shape.b1, e)) else shape.(b0 := Push(hash, shape.b0, e))
      modifies table0, table1, e`next
      ensures Heads(table0, s'.b0) && Links(s'.b0, nodes) && Heads(table1, s'.b1) && Links(s'.b1, nodes)
      ensures Holds(index, nodes, contents)
    {
      hide Push;
      if second {
        LinkFront(hash, table1, shape.b1, e, nodes);
      } else {
        LinkFront(hash, table0, shape.b0, e, nodes);
      }
    }

    /** `dictAddRaw`, with the value the caller stores in the entry it returns. */
    method AddRaw(key: K, val: V, canResize: bool) returns (e: Entry?<K, V>)
      requires Valid()
      modifies this, table0, table1, nodes
      ensures Valid() && open == old(open) && iterators == old(iterators)
      ensures (e == null) == (key in old(contents))
      ensures var s := ExpandIfNeeded(StepUnlessIterating(hash, old(shape), iterators), canResize);
              if e == null then
                shape == s && index == old(index) && nodes == old(nodes) && contents == old(contents)
              else
                && fresh(e) && e.key == key && e.val == val
                && (if Rehashing(s) then |s.b1| > 0 else |s.b0| > 0) && shape == Insert(hash, s, e)
                && index == old(index)[key := e] && nodes == old(nodes) + {e} && contents == old(contents)[key := val]
      ensures (table0 in {old(table0), old(table1)} || fresh(table0)) && (table1 == old(table1) || fresh(table1))
      ensures old(rehashidx) == -1 ==>
                if old(table0.Length) == 0 then table0.Length == 4 && rehashidx == -1
                else
                  && table0 == old(table0)
                  && if old(used0) >= old(table0.Length) && (canResize || old(used0) / old(table0.Length) > 5) then
                       rehashidx == 0 && table1.Length == NextPower(2 * old(used0))
                     else rehashidx == -1
      ensures old(rehashidx) != -1 ==>
                if iterators > 0 then table0 == old(table0) && table1 == old(table1) && rehashidx == old(rehashidx)
                else if old(used0) == 0 then table0 == old(table1)
                else table0 == old(table0) && table1 == old(table1) && rehashidx > old(rehashidx)
      ensures old(rehashidx) != -1 && iterators == 0 && old(used0) == 0 && e == null ==> rehashidx == -1 || used0 > 0
    {
      hide WellFormed, Slot, Total, Heads, Links, Staged, Step, Insert, ExpandIfNeeded;
      ShapeFacts();
      RehashStep();
      GrowIfNeeded(canResize);
      ShapeFacts();
      HasRoom();
      var found := Lookup(key);
      if found != null {
        return null;
      }
      e := InsertEntry(key, val);
    }

    lemma HasRoom()
      requires Valid() && if Rehashing(shape) then |shape.b1| > 0 else |shape.b0| > 0
      ensures table0.Length > 0 && contents.Keys == index.Keys
    {
    }

    /** `dictReplace`: adds the key, or gives the entry it already has a new value. */
    method Replace(key: K, val: V, canResize: bool) returns (added: bool, ghost e: Entry<K, V>)
      requires Valid()
      modifies this, table0, table1, nodes
      ensures Valid() && open == old(open) && iterators == old(iterators)
      ensures added == (key !in old(contents)) && contents == old(contents)[key := val]
      ensures var s := ExpandIfNeeded(StepUnlessIterating(hash, old(shape), iterators), canResize);
              if added then
                && fresh(e) && e.key == key && index == old(index)[key := e] && nodes == old(nodes) + {e}
                && (if Rehashing(s) then |s.b1| > 0 else |s.b0| > 0) && shape == Insert(hash, s, e)
              else
                && key in index && e == index[key] && index == old(index) && nodes == old(nodes)
                && Staged(s) && shape == StepUnlessIterating(hash, s, iterators)
      ensures (table0 in {old(table0), old(table1)} || fresh(table0)) && (table1 in {old(table0), old(table1)} || fresh(table1))
      ensures old(rehashidx) != -1 && iterators == 0 ==>
                table0 == old(table1) || (table0 == old(table0) && table1 == old(table1) && rehashidx > old(rehashidx))
    {
      hide WellFormed, Slot, Total, Heads, Links, Staged, Step, Insert, ExpandIfNeeded, StepUnlessIterating;
      var entry := AddRaw(key, val, canResize);
      added := entry != null;
      if !added {
        ShapeFacts();
        entry := Find(key);
        IndexKeys();
        StoreValue(entry, val);
      }
      e := entry;
    }

    lemma IndexKeys()
      requires Valid()
      ensures contents.Keys == index.Keys && forall k :: k in index ==> index[k].key == k
    {
    }

    /** `dictSetVal`. */
    method StoreValue(e: Entry<K, V>, val: V)
      requires Valid() && e.key in index && index[e.key] == e
      modifies this`contents, e`val
      ensures Valid() && contents == old(contents)[e.key := val]
    {
      hide WellFormed, Total;
      IndexInjective(hash, shape, index);
      e.val := val;
      contents := contents[e.key := val];
    }

    /** Takes `e` out of its chain in one table; the chains of the other table do not change. */
    method UnlinkFrom(second: bool, prev: Entry?<K, V>, e: Entry<K, V>, ghost p: nat, ghost s': Shape<K, V>)
      requires table0 != table1 && Heads(table0, shape.b0) && Links(shape.b0, nodes)
      requires Heads(table1, shape.b1) && Links(shape.b1, nodes)
      requires Holds(index, nodes, contents) && e.key in index && index[e.key] == e
      requires forall k :: k in index ==> index[k].key == k
      requires var b := if second then shape.b1 else shape.b0; var other := if second then shape.b0 else shape.b1;
               && Placed(hash, b, index) && Distinct(b) && Has(hash, b, e) && NotIn(other, e)
               && (var c := b[Slot(hash, e.key, |b|)];
                   p < |c| && c[p] == e && prev == (if p == 0 then null else c[p - 1]) && (prev != null ==> NotIn(other, prev)))
               && s' == if second then shape.(b1 := Drop(hash, b, e)) else shape.(b0 := Drop(hash, b, e))
      modifies table0, table1, set x | x in nodes :: x`next
      ensures Heads(table0, s'.b0) && Links(s'.b0, nodes - {e}) && Heads(table1, s'.b1) && Links(s'.b1, nodes - {e})
      ensures Holds(index - {e.key}, nodes - {e}, contents - {e.key})
    {
      hide Drop, Placed, Distinct, Has, Slot, NotIn, Links;
      HoldsLess(index, nodes, contents, e);
      if second {
        Unlink(hash, table1, shape.b1, prev, e, p, nodes, shape.b0, index);
      } else {
        Unlink(hash, table0, shape.b0, prev, e, p, nodes, shape.b1, index);
      }
    }

    /** Unlinks an entry that was found at position `p` of its chain. */
    method DropEntry(second: bool, prev: Entry?<K, V>, e: Entry<K, V>, ghost p: nat)
      requires Valid() && e.key in index && index[e.key] == e
      requires var b := if second then shape.b1 else shape.b0;
               && Has(hash, b, e)
               && (var c := b[Slot(hash, e.key, |b|)]; p < |c| && c[p] == e && prev == if p == 0 then null else c[p - 1])
      modifies this`used0, this`used1, this`shape, this`index, this`nodes, this`contents, table0, table1, set x | x in nodes :: x`next
      ensures Valid() && (Has(hash, old(shape).b0, e) || Has(hash, old(shape).b1, e)) && shape == Remove(hash, old(shape), e)
      ensures index == old(index) - {e.key} && nodes == old(nodes) - {e} && contents == old(contents) - {e.key}
    {
      hide WellFormed, Total, Slot, Heads, Links, Holds, Staged, Remove, Drop, Has, Without, Placed, Distinct, NotIn;
      RemoveFacts(hash, shape, if second then 1 else 0, e, p, index);
      InNodes(e);
      ghost var s', nodes' := Remove(hash, shape, e), nodes - {e};
      UnlinkFrom(second, prev, e, p, s');
      if second {
        Adopt(used0, used1 - 1, s', index - {e.key}, nodes', contents - {e.key});
      } else {
        Adopt(used0 - 1, used1, s', index - {e.key}, nodes', contents - {e.key});
      }
    }

    lemma InNodes(e: Entry<K, V>)
      requires Valid() && e.key in index && index[e.key] == e
      ensures e in nodes
    {
    }

    /** The search and unlinking in one table; the other table keeps its chains. */
    method DeleteFrom(second: bool, key: K) returns (ok: bool, ghost e: Entry?<K, V>)
      requires Valid() && (if second then table1.Length > 0 else table0.Length > 0)
      modifies this`used0, this`used1, this`shape, this`index, this`nodes, this`contents, table0, table1, set x | x in nodes :: x`next
      ensures Valid()
      ensures ok == (key in old(index) && Has(hash, if second then old(shape).b1 else old(shape).b0, old(index)[key]))
      ensures if ok then
                && e == old(index)[key] && (Has(hash, old(shape).b0, e) || Has(hash, old(shape).b1, e))
                && shape == Remove(hash, old(shape), e)
                && index == old(index) - {key} && nodes == old(nodes) - {e} && contents == old(contents) - {key}
              else
                shape == old(shape) && index == old(index) && nodes == old(nodes) && contents == old(contents)
    {
      hide WellFormed, Total, Slot, Heads, Links, Holds, Staged, Remove, Has;
      ShapeFacts();
      ghost var p;
      var prev, he;
      prev, he, p := Search(hash, if second then table1 else table0, key, if second then shape.b1 else shape.b0, nodes);
      SearchResult(hash, shape, if second then 1 else 0, key, p, index);
      e := he;
      ok := he != null;
      if ok {
        DropEntry(second, prev, he, p);
      }
    }

    /** `dictDelete`. */
    method Delete(key: K) returns (ok: bool)
      requires Valid()
      modifies this, table0, table1, nodes
      ensures Valid() && open == old(open) && iterators == old(iterators)
      ensures ok == (key in old(contents)) && contents == old(contents) - {key}
      ensures var s := StepUnlessIterating(hash, old(shape), iterators);
              if ok then
                var e := old(index)[key];
                && (Has(hash, s.b0, e) || Has(hash, s.b1, e)) && shape == Remove(hash, s, e)
                && index == old(index) - {key} && nodes == old(nodes) - {e}
              else shape == s && index == old(index) && nodes == old(nodes)
      ensures (table0 in {old(table0), old(table1)} || fresh(table0)) && (table1 == old(table1) || fresh(table1))
      ensures if old(rehashidx) == -1 || iterators > 0 then
                table0 == old(table0) && table1 == old(table1) && rehashidx == old(rehashidx)
              else if old(used0) == 0 then table0 == old(table1) && rehashidx == -1
              else table0 == old(table0) && table1 == old(table1) && rehashidx > old(rehashidx)
    {
      hide WellFormed, Total, Slot, Heads, Links, Holds, Staged, Remove, Drop, Has, Without, Step;
      ShapeFacts();
      IndexKeys();
      if table0.Length == 0 {
        NothingWithoutTable(hash, shape, index);
        return false;
      }
      RehashStep();
      StepHasTable(hash, old(shape), shape, iterators);
      ShapeFacts();
      NotFound(hash, shape, key, index);
      ghost var e;
      ok, e := DeleteFrom(false, key);
      if !ok && rehashidx != -1 {
        ok, e := DeleteFrom(true, key);
      }
    }
  }

  /** What the fields of the linked chains say about the next entry of an iteration. */
  lemma StepFacts<K(!new), V>(s: Shape<K, V>, cur: Cursor<K, V>, d: Dict<K, V>)
    requires d.Valid() && d.shape == s && CursorOk(s, cur)
    ensures forall i :: 0 <= i < |s.b0| ==> d.table0[i] == if s.b0[i] == [] then null else s.b0[i][0]
    ensures forall i :: 0 <= i < |s.b1| ==> d.table1[i] == if s.b1[i] == [] then null else s.b1[i][0]
    ensures cur.entry == null && cur.index + 1 < |TableOf(s, cur.table)| ==>
              var c := TableOf(s, cur.table)[cur.index + 1]; c != [] ==> c[0].next == At(c, 1)
    ensures Rehashing(s) && s.b1[0] != [] ==> s.b1[0][0].next == At(s.b1[0], 1)
    ensures cur.entry != null && cur.next != null ==>
              var c := TableOf(s, cur.table)[cur.index]; cur.next.next == At(SuffixFrom(c, cur.next), 1)
  {
    if cur.entry != null && cur.next != null {
      var b := TableOf(s, cur.table);
      ChainNoDuplicates(b, cur.index);
      var p :| 0 <= p < |b[cur.index]| && b[cur.index][p] == cur.next;
      SuffixAt(b[cur.index], p);
    }
  }

  class Iterator<K(!new, ==), V> {
    const d: Dict<K, V>
    const safe: bool
    var table: nat
    var index: int
    var entry: Entry?<K, V>
    var nextEntry: Entry?<K, V>

    /** `dictGetIterator` and `dictGetSafeIterator`. */
    constructor (d: Dict<K, V>, safe: bool)
      ensures this.d == d && this.safe == safe && Position() == DictIteration.Start() && !Started()
    {
      this.d, this.safe := d, safe;
      table, index, entry, nextEntry := 0, -1, null, null;
    }

    ghost function Position(): Cursor<K, V>
      reads this
    {
      Cursor(table, index, entry, nextEntry)
    }

    predicate Started()
      reads this
    {
      !(index == -1 && table == 0)
    }

    /** The iterator is counted by its dictionary exactly when it is safe and has started. */
    ghost predicate Counted()
      reads this, d
    {
      this in d.open <==> safe && Started()
    }

    ghost predicate Settled()
      reads this
    {
      entry == null ==> nextEntry == null
    }

    /** `iter->d->iterators++` when a safe iterator starts. */
    method CountIn()
      requires d.Valid() && Counted()
      modifies d`iterators, d`open
      ensures d.Valid() && d.open == if safe && !Started() then old(d.open) + {this} else old(d.open)
    {
      hide WellFormed, Total, Heads, Links, Holds;
      if safe && index == -1 && table == 0 {
        d.iterators := d.iterators + 1;
        d.open := d.open + {this};
      }
    }

    /** One pass of the loop in `dictNext`; true when the loop ends. */
    method NextOnce() returns (done: bool)
      requires d.Valid() && CursorOk(d.shape, Position()) && Settled() && Counted()
      modifies this, d`iterators, d`open
      ensures d.Valid() && Settled() && Counted() && Started() && index >= -1
      ensures Position() == AdvanceOnce(d.shape, old(Position())).cur && done == AdvanceOnce(d.shape, old(Position())).Found?
      ensures d.open == if safe && !old(Started()) then old(d.open) + {this} else old(d.open)
    {
      hide Dict.Valid, WellFormed, Staged, SuffixFrom, At;
      d.ShapeFacts();
      StepFacts(d.shape, Position(), d);
      if entry == null {
        CountIn();
        index := index + 1;
        var ht := if table == 0 then d.table0 else d.table1;
        if index >= ht.Length {
          if d.rehashidx != -1 && table == 0 {
            table, index, ht := table + 1, 0, d.table1;
          } else {
            return true;
          }
        }
        entry := ht[index];
      } else {
        entry := nextEntry;
      }
      done := entry != null;
      if done {
        nextEntry := entry.next;
      }
    }

    /** `dictNext`: the first entry still to be returned, or none when every entry has been. */
    method Next() returns (e: Entry?<K, V>)
      requires d.Valid() && CursorOk(d.shape, Position()) && Settled() && Counted()
      modifies this, d`iterators, d`open
      ensures d.Valid() && CursorOk(d.shape, Position()) && Settled() && Counted() && Started()
      ensures Position() == Advance(d.shape, old(Position())) && e == entry
      ensures Takes(d.shape, old(Position()), Position())
      ensures d.open == if safe && !old(Started()) then old(d.open) + {this} else old(d.open)
    {
      hide WellFormed, Total, Heads, Links, Holds, Staged, CursorOk, AdvanceOnce, Pending, Measure, Walking;
      IterationFacts(d);
      var done := NextOnce();
      AdvanceTakesFirst(d.shape, old(Position()));
      AdvanceOnceTakes(d.shape, old(Position()));
      while !done
        invariant d.Valid() && Settled() && Counted() && Started() && CursorOk(d.shape, Position()) && index >= -1
        invariant if done then Position() == Advance(d.shape, old(Position()))
                  else Advance(d.shape, Position()) == Advance(d.shape, old(Position()))
        invariant d.open == if safe && !old(Started()) then old(d.open) + {this} else old(d.open)
        decreases !done, Measure(d.shape, Position())
      {
        ghost var cur := Position();
        AdvanceOnceTakes(d.shape, cur);
        done := NextOnce();
      }
      e := entry;
    }

    /** `dictReleaseIterator`. */
    method Release()
      requires d.Valid() && Counted()
      modifies d`iterators, d`open
      ensures d.Valid() && d.open == old(d.open) - {this}
    {
      hide WellFormed, Total, Heads, Links, Holds;
      if safe && !(index == -1 && table == 0) {
        d.iterators := d.iterators - 1;
        d.open := d.open - {this};
      }
    }
  }

  lemma IterationFacts<K(!new), V>(d: Dict<K, V>)
    requires d.Valid()
    ensures Staged(d.shape) && Distinct(d.shape.b0) && Distinct(d.shape.b1)
  {
  }
}
