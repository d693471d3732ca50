/**
 The hash table of dict.c as values: the chains of its two tables and how far the migration
 between them has come. The class in Dict.dfy keeps linked chains in step with these.
 */
module DictModel {
  import opened Sequences

  class Entry<K(==), V> {
    const key: K
    var val: V
    var next: Entry?<K, V>

    constructor (key: K, val: V, next: Entry?<K, V>)
      ensures this.key == key && this.val == val && this.next == next
    {
      this.key, this.val, this.next := key, val, next;
    }
  }

  type Chain<K(==), V> = seq<Entry<K, V>>

  type Buckets<K(==), V> = seq<Chain<K, V>>

  /** The two tables; `at` is `rehashidx`, -1 when no migration is going on. */
  datatype Shape<!K(==), !V> = Shape(b0: Buckets<K, V>, b1: Buckets<K, V>, at: int)

  const INITIAL_SIZE := 4

  predicate Rehashing<K, V>(s: Shape<K, V>) {
    s.at != -1
  }

  /** The bucket of a key: `hash & sizemask`, which is the remainder because sizes are powers of two. */
  function Slot<K>(hash: K -> nat, k: K, size: nat): (i: nat)
    requires size > 0
    ensures i < size
  {
    hash(k) % size
  }

  ghost predicate PowerOfTwo(n: nat) {
    n > 0 && (n == 1 || (n % 2 == 0 && PowerOfTwo(n / 2)))
  }

  function Empty<K, V>(size: nat): (b: Buckets<K, V>)
    ensures |b| == size && forall i :: 0 <= i < size ==> b[i] == []
  {
    seq(size, _ => [])
  }

  /** The number of entries in a table. */
  function Total<K, V>(b: Buckets<K, V>): nat {
    if b == [] then 0 else |b[0]| + Total(b[1..])
  }

  predicate Has<K, V>(hash: K -> nat, b: Buckets<K, V>, e: Entry<K, V>) {
    |b| > 0 && e in b[Slot(hash, e.key, |b|)]
  }

  // ------------------------------------------------------------------
  // Well-formedness
  // ------------------------------------------------------------------

  /** Every entry sits in the bucket of its key, and is the one entry the index knows for that key. */
  ghost predicate Placed<K(!new), V>(hash: K -> nat, b: Buckets<K, V>, index: map<K, Entry<K, V>>) {
    forall i, j :: 0 <= i < |b| && 0 <= j < |b[i]| ==>
      Slot(hash, b[i][j].key, |b|) == i && b[i][j].key in index && index[b[i][j].key] == b[i][j]
  }

  ghost predicate Distinct<K, V>(b: Buckets<K, V>) {
    forall i, j, k :: 0 <= i < |b| && 0 <= j < k < |b[i]| ==> b[i][j] != b[i][k]
  }

  /** Every indexed entry is in exactly one of the two tables. */
  ghost predicate Located<K(!new), V>(hash: K -> nat, s: Shape<K, V>, index: map<K, Entry<K, V>>) {
    forall k :: k in index ==> index[k].key == k && (Has(hash, s.b0, index[k]) <==> !Has(hash, s.b1, index[k]))
  }

  /** The stages of a migration: none, or one whose buckets below `at` are already empty. */
  ghost predicate Staged<K, V>(s: Shape<K, V>) {
    if Rehashing(s) then
      && 0 <= s.at <= |s.b0|
      && PowerOfTwo(|s.b0|) && PowerOfTwo(|s.b1|)
      && forall i :: 0 <= i < s.at ==> s.b0[i] == []
    else
      s.b1 == [] && (s.b0 == [] || PowerOfTwo(|s.b0|))
  }

  ghost predicate WellFormed<K(!new), V>(hash: K -> nat, s: Shape<K, V>, index: map<K, Entry<K, V>>) {
    && Staged(s)
    && Placed(hash, s.b0, index) && Placed(hash, s.b1, index)
    && Distinct(s.b0) && Distinct(s.b1)
    && Located(hash, s, index)
  }

  // ------------------------------------------------------------------
  // The operations on values
  // ------------------------------------------------------------------

  function Push<K, V>(hash: K -> nat, b: Buckets<K, V>, e: Entry<K, V>): (b': Buckets<K, V>)
    requires |b| > 0
    ensures |b'| == |b|
  {
    var i := Slot(hash, e.key, |b|);
    b[i := [e] + b[i]]
  }

  /** Moves a chain entry by entry to the front of the chains of the new table. */
  function MoveChain<K, V>(hash: K -> nat, c: Chain<K, V>, b: Buckets<K, V>): (b': Buckets<K, V>)
    requires |b| > 0
    ensures |b'| == |b|
  {
    if c == [] then b else MoveChain(hash, c[1..], Push(hash, b, c[0]))
  }

  function FirstFull<K, V>(b: Buckets<K, V>, i: nat): (f: nat)
    requires i <= |b| && Total(b[i..]) > 0
    ensures i <= f < |b| && b[f] != []
    ensures forall j :: i <= j < f ==> b[j] == []
    decreases |b| - i
  {
    assert b[i..][1..] == b[i + 1..];
    if b[i] != [] then i else FirstFull(b, i + 1)
  }

  lemma {:induction false} TotalSplit<K, V>(b: Buckets<K, V>, i: nat)
    requires i <= |b|
    ensures Total(b) == Total(b[..i]) + Total(b[i..])
  {
    if i > 0 {
      TotalSplit(b[1..], i - 1);
      assert b[..i][1..] == b[1..][..i - 1] && b[1..][i - 1..] == b[i..];
    } else {
      assert b[0..] == b;
    }
  }

  lemma {:induction false} TotalUpdate<K, V>(b: Buckets<K, V>, i: nat, c: Chain<K, V>)
    requires i < |b|
    ensures Total(b[i := c]) == Total(b) - |b[i]| + |c|
  {
    if i > 0 {
      TotalUpdate(b[1..], i - 1, c);
      assert b[i := c][1..] == b[1..][i - 1 := c];
    } else {
      assert b[i := c][1..] == b[1..];
    }
  }

  lemma {:induction false} TotalEmpty<K, V>(b: Buckets<K, V>)
    ensures Total(b) == 0 <==> forall i :: 0 <= i < |b| ==> b[i] == []
  {
    if b != [] {
      TotalEmpty(b[1..]);
      assert forall i :: 1 <= i < |b| ==> b[i] == b[1..][i - 1];
    }
  }

  /** While entries remain in the old table, some bucket at or after `at` holds one: the scan cannot run off the end. */
  lemma EntriesRemainAhead<K, V>(s: Shape<K, V>)
    requires Staged(s) && Rehashing(s) && Total(s.b0) > 0
    ensures s.at < |s.b0| && Total(s.b0[s.at..]) > 0
  {
    TotalSplit(s.b0, s.at);
    TotalEmpty(s.b0[..s.at]);
  }

  /** One step of `dictRehash`: finish, or migrate the next non-empty bucket. */
  ghost function Step<K, V>(hash: K -> nat, s: Shape<K, V>): Shape<K, V>
    requires Staged(s) && Rehashing(s)
  {
    if Total(s.b0) == 0 then Shape(s.b1, [], -1)
    else
      EntriesRemainAhead(s);
      var i := FirstFull(s.b0, s.at);
      Shape(s.b0[i := []], MoveChain(hash, s.b0[i], s.b1), i + 1)
  }

  // ------------------------------------------------------------------
  // Every operation keeps the two tables a representation of one index
  // ------------------------------------------------------------------

  lemma PushHas<K, V>(hash: K -> nat, b: Buckets<K, V>, e: Entry<K, V>, x: Entry<K, V>)
    requires |b| > 0
    ensures Has(hash, Push(hash, b, e), x) <==> x == e || Has(hash, b, x)
  {
  }

  lemma PushPlaced<K(!new), V>(hash: K -> nat, b: Buckets<K, V>, e: Entry<K, V>, index: map<K, Entry<K, V>>)
    requires |b| > 0 && Placed(hash, b, index) && Distinct(b) && !Has(hash, b, e)
    requires e.key in index && index[e.key] == e
    ensures Placed(hash, Push(hash, b, e), index) && Distinct(Push(hash, b, e))
  {
    hide Slot;
  }

  lemma {:induction false} MoveChainHas<K, V>(hash: K -> nat, c: Chain<K, V>, b: Buckets<K, V>, x: Entry<K, V>)
    requires |b| > 0
    ensures Has(hash, MoveChain(hash, c, b), x) <==> x in c || Has(hash, b, x)
  {
    if c != [] {
      PushHas(hash, b, c[0], x);
      MoveChainHas(hash, c[1..], Push(hash, b, c[0]), x);
      assert x in c <==> x == c[0] || x in c[1..];
    }
  }

  lemma {:induction false} MoveChainPlaced<K(!new), V>(hash: K -> nat, c: Chain<K, V>, b: Buckets<K, V>, index: map<K, Entry<K, V>>)
    requires |b| > 0 && Placed(hash, b, index) && Distinct(b)
    requires forall j :: 0 <= j < |c| ==> c[j].key in index && index[c[j].key] == c[j] && !Has(hash, b, c[j])
    requires forall j, k :: 0 <= j < k < |c| ==> c[j] != c[k]
    ensures Placed(hash, MoveChain(hash, c, b), index) && Distinct(MoveChain(hash, c, b))
  {
    if c != [] {
      PushPlaced(hash, b, c[0], index);
      forall j | 1 <= j < |c| ensures !Has(hash, Push(hash, b, c[0]), c[j]) {
        PushHas(hash, b, c[0], c[j]);
      }
      MoveChainPlaced(hash, c[1..], Push(hash, b, c[0]), index);
    }
  }

  lemma {:induction false} MoveChainTotal<K, V>(hash: K -> nat, c: Chain<K, V>, b: Buckets<K, V>)
    requires |b| > 0
    ensures Total(MoveChain(hash, c, b)) == |c| + Total(b)
  {
    if c != [] {
      var i := Slot(hash, c[0].key, |b|);
      TotalUpdate(b, i, [c[0]] + b[i]);
      MoveChainTotal(hash, c[1..], Push(hash, b, c[0]));
    }
  }

  lemma InChainHas<K(!new), V>(hash: K -> nat, b: Buckets<K, V>, index: map<K, Entry<K, V>>, i: nat, j: nat)
    requires Placed(hash, b, index) && i < |b| && j < |b[i]|
    ensures Has(hash, b, b[i][j])
  {
  }

  /** Emptying bucket `i` removes exactly the entries it held. */
  lemma EmptiedHas<K(!new), V>(hash: K -> nat, b: Buckets<K, V>, index: map<K, Entry<K, V>>, i: nat, x: Entry<K, V>)
    requires Placed(hash, b, index) && i < |b|
    ensures Has(hash, b[i := []], x) <==> Has(hash, b, x) && x !in b[i]
  {
    if x in b[i] {
      var j :| 0 <= j < |b[i]| && b[i][j] == x;
      assert Slot(hash, b[i][j].key, |b|) == i;
    }
  }

  /** Migrating bucket `i`, whose entries are not yet in the new table. */
  lemma MigrateWellFormed<K(!new), V>(hash: K -> nat, s: Shape<K, V>, i: nat, index: map<K, Entry<K, V>>)
    requires Rehashing(s) && WellFormed(hash, s, index) && i < |s.b0|
    ensures var b1 := MoveChain(hash, s.b0[i], s.b1);
            && Placed(hash, s.b0[i := []], index) && Distinct(s.b0[i := []])
            && Placed(hash, b1, index) && Distinct(b1)
            && Located(hash, Shape(s.b0[i := []], b1, s.at), index)
  {
    var c := s.b0[i];
    hide Has, Slot;
    forall j | 0 <= j < |c| ensures Has(hash, s.b0, c[j]) && !Has(hash, s.b1, c[j]) {
      InChainHas(hash, s.b0, index, i, j);
      assert c[j].key in index && index[c[j].key] == c[j];
    }
    MoveChainPlaced(hash, c, s.b1, index);
    forall k | k in index
      ensures Has(hash, s.b0[i := []], index[k]) <==> !Has(hash, MoveChain(hash, c, s.b1), index[k])
    {
      MoveChainHas(hash, c, s.b1, index[k]);
      EmptiedHas(hash, s.b0, index, i, index[k]);
    }
  }

  /** A migration step represents the same index. */
  lemma StepWellFormed<K(!new), V>(hash: K -> nat, s: Shape<K, V>, index: map<K, Entry<K, V>>)
    requires WellFormed(hash, s, index) && Rehashing(s)
    ensures WellFormed(hash, Step(hash, s), index)
    ensures Total(Step(hash, s).b0) + Total(Step(hash, s).b1) == Total(s.b0) + Total(s.b1)
  {
    if Total(s.b0) == 0 {
      TotalEmpty(s.b0);
      forall k | k in index ensures !Has(hash, s.b0, index[k]) {
      }
    } else {
      EntriesRemainAhead(s);
      var i := FirstFull(s.b0, s.at);
      MigrateWellFormed(hash, s, i, index);
      MoveChainTotal(hash, s.b0[i], s.b1);
      TotalUpdate(s.b0, i, []);
    }
  }

  // ------------------------------------------------------------------
  // Growing
  // ------------------------------------------------------------------

  /** The smallest power of two that is not below `size`, searched upwards from `i`. */
  function NextPowerFrom(i: nat, size: nat): (p: nat)
    requires i > 0
    ensures p >= i && p >= size
    decreases size - i
  {
    if i >= size then i else NextPowerFrom(2 * i, size)
  }

  function NextPower(size: nat): (p: nat)
    ensures p >= size && p >= INITIAL_SIZE
  {
    NextPowerFrom(INITIAL_SIZE, size)
  }

  lemma Doubled(i: nat)
    requires PowerOfTwo(i)
    ensures PowerOfTwo(2 * i)
  {
    assert 2 * i % 2 == 0 && 2 * i / 2 == i;
  }

  lemma {:induction false} NextPowerFromIsLeast(i: nat, size: nat, q: nat)
    requires PowerOfTwo(i)
    ensures PowerOfTwo(NextPowerFrom(i, size))
    ensures PowerOfTwo(q) && i <= q && size <= q ==> NextPowerFrom(i, size) <= q
    decreases size - i
  {
    hide PowerOfTwo;
    if i < size {
      Doubled(i);
      if PowerOfTwo(q) && i <= q && size <= q {
        NoPowerBetween(i, q);
      }
      NextPowerFromIsLeast(2 * i, size, q);
    }
  }

  lemma {:induction false} NoPowerBetween(i: nat, q: nat)
    requires PowerOfTwo(i) && PowerOfTwo(q) && i < q
    ensures 2 * i <= q
  {
    if i > 1 {
      NoPowerBetween(i / 2, q / 2);
    }
  }

  /** `_dictNextPower`: the least power of two that is at least 4 and at least `size`. */
  lemma NextPowerIsLeast(size: nat, q: nat)
    ensures PowerOfTwo(NextPower(size))
    ensures PowerOfTwo(q) && q >= INITIAL_SIZE && q >= size ==> NextPower(size) <= q
  {
    assert PowerOfTwo(1) && PowerOfTwo(2) && PowerOfTwo(4);
    NextPowerFromIsLeast(INITIAL_SIZE, size, q);
  }

  /** `dictExpand` when it does not refuse: a first table, or an empty second one to migrate into. */
  function Expand<K, V>(s: Shape<K, V>, size: nat): Shape<K, V> {
    if s.b0 == [] then Shape(Empty(NextPower(size)), [], -1)
    else Shape(s.b0, Empty(NextPower(size)), 0)
  }

  const FORCE_RESIZE_RATIO := 5

  /** `_dictExpandIfNeeded`. */
  function ExpandIfNeeded<K, V>(s: Shape<K, V>, canResize: bool): Shape<K, V> {
    var used := Total(s.b0);
    if Rehashing(s) then s
    else if s.b0 == [] then Expand(s, INITIAL_SIZE)
    else if used >= |s.b0| && (canResize || used / |s.b0| > FORCE_RESIZE_RATIO) then
      Expand(s, (if |s.b0| > used then |s.b0| else used) * 2)
    else s
  }

  lemma {:induction false} TotalOfEmpty<K, V>(size: nat)
    ensures Total(Empty<K, V>(size)) == 0
  {
    TotalEmpty(Empty<K, V>(size));
  }

  lemma ExpandWellFormed<K(!new), V>(hash: K -> nat, s: Shape<K, V>, size: nat, index: map<K, Entry<K, V>>)
    requires WellFormed(hash, s, index) && !Rehashing(s)
    ensures WellFormed(hash, Expand(s, size), index)
    ensures Total(Expand(s, size).b0) == Total(s.b0) && Total(Expand(s, size).b1) == 0
  {
    NextPowerIsLeast(size, 0);
    TotalOfEmpty<K, V>(NextPower(size));
  }

  /** Every entry stands in the bucket its hash selects, in one of the two tables. */
  lemma StandsWhereHashed<K(!new), V>(hash: K -> nat, s: Shape<K, V>, index: map<K, Entry<K, V>>, k: K)
    requires WellFormed(hash, s, index) && k in index
    ensures (s.b0 != [] && index[k] in s.b0[hash(k) % |s.b0|]) || (s.b1 != [] && index[k] in s.b1[hash(k) % |s.b1|])
  {
  }

  // ------------------------------------------------------------------
  // Inserting and removing
  // ------------------------------------------------------------------

  /** New entries go to the table being migrated into, if there is one. */
  function Insert<K, V>(hash: K -> nat, s: Shape<K, V>, e: Entry<K, V>): Shape<K, V>
    requires if Rehashing(s) then |s.b1| > 0 else |s.b0| > 0
  {
    if Rehashing(s) then s.(b1 := Push(hash, s.b1, e)) else s.(b0 := Push(hash, s.b0, e))
  }

  lemma PushTotal<K, V>(hash: K -> nat, b: Buckets<K, V>, e: Entry<K, V>)
    requires |b| > 0
    ensures Total(Push(hash, b, e)) == Total(b) + 1
  {
    var i := Slot(hash, e.key, |b|);
    TotalUpdate(b, i, [e] + b[i]);
  }

  lemma PlacedInLarger<K(!new), V>(hash: K -> nat, b: Buckets<K, V>, index: map<K, Entry<K, V>>, index': map<K, Entry<K, V>>)
    requires Placed(hash, b, index) && forall k :: k in index ==> k in index' && index'[k] == index[k]
    ensures Placed(hash, b, index')
  {
  }

  lemma InsertWellFormed<K(!new), V>(hash: K -> nat, s: Shape<K, V>, e: Entry<K, V>, index: map<K, Entry<K, V>>)
    requires WellFormed(hash, s, index) && e.key !in index
    requires if Rehashing(s) then |s.b1| > 0 else |s.b0| > 0
    ensures WellFormed(hash, Insert(hash, s, e), index[e.key := e])
  {
    var index' := index[e.key := e];
    PlacedInLarger(hash, s.b0, index, index');
    PlacedInLarger(hash, s.b1, index, index');
    NotIndexed(hash, s.b0, e, index);
    NotIndexed(hash, s.b1, e, index);
    var b := if Rehashing(s) then s.b1 else s.b0;
    PushPlaced(hash, b, e, index');
    hide Slot, Placed, Distinct;
    forall k | k in index'
      ensures Has(hash, Insert(hash, s, e).b0, index'[k]) <==> !Has(hash, Insert(hash, s, e).b1, index'[k])
    {
      PushHas(hash, b, e, index'[k]);
    }
  }

  lemma NotIndexed<K(!new), V>(hash: K -> nat, b: Buckets<K, V>, e: Entry<K, V>, index: map<K, Entry<K, V>>)
    requires Placed(hash, b, index) && e.key !in index
    ensures !Has(hash, b, e)
  {
  }

  function Drop<K, V>(hash: K -> nat, b: Buckets<K, V>, e: Entry<K, V>): (b': Buckets<K, V>)
    requires |b| > 0
    ensures |b'| == |b|
  {
    var i := Slot(hash, e.key, |b|);
    b[i := Without(b[i], e)]
  }

  function Remove<K, V>(hash: K -> nat, s: Shape<K, V>, e: Entry<K, V>): Shape<K, V>
    requires Has(hash, s.b0, e) || Has(hash, s.b1, e)
  {
    if Has(hash, s.b0, e) then s.(b0 := Drop(hash, s.b0, e)) else s.(b1 := Drop(hash, s.b1, e))
  }

  lemma DropOne<K(!new), V>(hash: K -> nat, b: Buckets<K, V>, e: Entry<K, V>, index: map<K, Entry<K, V>>) returns (p: nat)
    requires Placed(hash, b, index) && Distinct(b) && Has(hash, b, e)
    ensures var i := Slot(hash, e.key, |b|);
            && p < |b[i]| && b[i][p] == e
            && Drop(hash, b, e) == b[i := b[i][..p] + b[i][p + 1..]]
  {
    var i := Slot(hash, e.key, |b|);
    p :| 0 <= p < |b[i]| && b[i][p] == e;
    WithoutIsCut(b[i], p);
  }

  lemma DropHas<K(!new), V>(hash: K -> nat, b: Buckets<K, V>, e: Entry<K, V>, index: map<K, Entry<K, V>>, x: Entry<K, V>)
    requires Placed(hash, b, index) && Distinct(b) && Has(hash, b, e)
    ensures Has(hash, Drop(hash, b, e), x) <==> Has(hash, b, x) && x != e
  {
    var p := DropOne(hash, b, e, index);
    var i := Slot(hash, e.key, |b|);
    var c, d := b[i], b[i][..p] + b[i][p + 1..];
    assert forall j :: 0 <= j < |c| && j != p ==> c[j] == d[if j < p then j else j - 1];
  }

  lemma DropPlaced<K(!new), V>(hash: K -> nat, b: Buckets<K, V>, e: Entry<K, V>, index: map<K, Entry<K, V>>)
    requires Placed(hash, b, index) && Distinct(b) && Has(hash, b, e)
    ensures Placed(hash, Drop(hash, b, e), index - {e.key}) && Distinct(Drop(hash, b, e))
    ensures Total(Drop(hash, b, e)) == Total(b) - 1
  {
    var p := DropOne(hash, b, e, index);
    var i := Slot(hash, e.key, |b|);
    TotalUpdate(b, i, b[i][..p] + b[i][p + 1..]);
    hide Slot;
  }

  lemma RemoveWellFormed<K(!new), V>(hash: K -> nat, s: Shape<K, V>, e: Entry<K, V>, index: map<K, Entry<K, V>>)
    requires WellFormed(hash, s, index) && e.key in index && index[e.key] == e
    ensures WellFormed(hash, Remove(hash, s, e), index - {e.key})
    ensures Total(Remove(hash, s, e).b0) + Total(Remove(hash, s, e).b1) + 1 == Total(s.b0) + Total(s.b1)
  {
    var b, other := if Has(hash, s.b0, e) then s.b0 else s.b1, if Has(hash, s.b0, e) then s.b1 else s.b0;
    DropPlaced(hash, b, e, index);
    AbsentPlaced(hash, other, e, index);
    var s', index' := Remove(hash, s, e), index - {e.key};
    hide Slot, Placed, Distinct;
    forall k | k in index' ensures Has(hash, s'.b0, index'[k]) <==> !Has(hash, s'.b1, index'[k]) {
      DropHas(hash, b, e, index, index[k]);
    }
    EmptiedStays(hash, s, e);
  }

  lemma AbsentPlaced<K(!new), V>(hash: K -> nat, b: Buckets<K, V>, e: Entry<K, V>, index: map<K, Entry<K, V>>)
    requires Placed(hash, b, index) && e.key in index && index[e.key] == e && !Has(hash, b, e)
    ensures Placed(hash, b, index - {e.key})
  {
    forall i, j | 0 <= i < |b| && 0 <= j < |b[i]| ensures b[i][j].key != e.key {
      InChainHas(hash, b, index, i, j);
    }
  }

  lemma EmptiedStays<K, V>(hash: K -> nat, s: Shape<K, V>, e: Entry<K, V>)
    requires Staged(s) && (Has(hash, s.b0, e) || Has(hash, s.b1, e))
    ensures Staged(Remove(hash, s, e))
  {
  }

  // ------------------------------------------------------------------
  // The chains of a table laid end to end
  // ------------------------------------------------------------------

  function Flatten<K, V>(b: Buckets<K, V>): Chain<K, V> {
    if b == [] then [] else b[0] + Flatten(b[1..])
  }

  lemma {:induction false} FlattenTotal<K, V>(b: Buckets<K, V>)
    ensures |Flatten(b)| == Total(b)
  {
    if b != [] {
      FlattenTotal(b[1..]);
    }
  }

  lemma {:induction false} FlattenHas<K, V>(b: Buckets<K, V>, x: Entry<K, V>)
    ensures x in Flatten(b) <==> exists i :: 0 <= i < |b| && x in b[i]
  {
    if b != [] {
      FlattenHas(b[1..], x);
      if x in Flatten(b) {
        if x in b[0] {
        } else {
          var i :| 0 <= i < |b[1..]| && x in b[1..][i];
          assert x in b[i + 1];
        }
      }
      if i :| 0 <= i < |b| && x in b[i] {
        if i > 0 {
          assert x in b[1..][i - 1];
        }
      }
    }
  }

  lemma NoDuplicatesConcat<T>(c: seq<T>, d: seq<T>)
    requires NoDuplicates(c) && NoDuplicates(d) && forall x :: x in c ==> x !in d
    ensures NoDuplicates(c + d)
  {
    forall i, j | 0 <= i < j < |c + d| ensures (c + d)[i] != (c + d)[j] {
      if i < |c| <= j {
        assert (c + d)[i] in c && (c + d)[j] in d;
      }
    }
  }

  /** Buckets that share no entry and repeat none, flattened, repeat none. */
  lemma {:induction false} FlattenNoDuplicates<K, V>(b: Buckets<K, V>)
    requires Distinct(b)
    requires forall i, j, x :: 0 <= i < j < |b| && x in b[i] ==> x !in b[j]
    ensures NoDuplicates(Flatten(b))
  {
    if b != [] {
      assert forall j :: 1 <= j < |b| ==> b[1..][j - 1] == b[j];
      FlattenNoDuplicates(b[1..]);
      forall x | x in b[0] ensures x !in Flatten(b[1..]) {
        FlattenHas(b[1..], x);
      }
      NoDuplicatesConcat(b[0], Flatten(b[1..]));
    }
  }

  /** All entries: the old table first, then the new one. */
  function All<K, V>(s: Shape<K, V>): Chain<K, V> {
    Flatten(s.b0) + Flatten(s.b1)
  }

  lemma HasIsIn<K(!new), V>(hash: K -> nat, b: Buckets<K, V>, index: map<K, Entry<K, V>>, x: Entry<K, V>)
    requires Placed(hash, b, index)
    ensures Has(hash, b, x) <==> x in Flatten(b)
    ensures x in Flatten(b) ==> x.key in index && index[x.key] == x
  {
    FlattenHas(b, x);
    if i :| 0 <= i < |b| && x in b[i] {
      var j :| 0 <= j < |b[i]| && b[i][j] == x;
      assert Slot(hash, b[i][j].key, |b|) == i;
    }
  }

  lemma InBucket<K(!new), V>(hash: K -> nat, b: Buckets<K, V>, index: map<K, Entry<K, V>>, i: nat, x: Entry<K, V>)
    requires Placed(hash, b, index) && i < |b|
    ensures x in b[i] ==> Slot(hash, x.key, |b|) == i
  {
    if x in b[i] {
      var j :| 0 <= j < |b[i]| && b[i][j] == x;
      assert Slot(hash, b[i][j].key, |b|) == i;
    }
  }

  lemma PlacedNoDuplicates<K(!new), V>(hash: K -> nat, b: Buckets<K, V>, index: map<K, Entry<K, V>>)
    requires Placed(hash, b, index) && Distinct(b)
    ensures NoDuplicates(Flatten(b))
  {
    forall i, j, x | 0 <= i < j < |b| && x in b[i] ensures x !in b[j] {
      InBucket(hash, b, index, i, x);
      InBucket(hash, b, index, j, x);
    }
    FlattenNoDuplicates(b);
  }

  /** The two tables together hold each indexed entry exactly once, and nothing else. */
  lemma AllIsIndex<K(!new), V>(hash: K -> nat, s: Shape<K, V>, index: map<K, Entry<K, V>>)
    requires WellFormed(hash, s, index)
    ensures NoDuplicates(All(s))
    ensures forall x :: x in All(s) <==> x.key in index && index[x.key] == x
  {
    PlacedNoDuplicates(hash, s.b0, index);
    PlacedNoDuplicates(hash, s.b1, index);
    forall x ensures x in All(s) <==> x.key in index && index[x.key] == x {
      HasIsIn(hash, s.b0, index, x);
      HasIsIn(hash, s.b1, index, x);
    }
    forall x | x in Flatten(s.b0) ensures x !in Flatten(s.b1) {
      HasIsIn(hash, s.b0, index, x);
      HasIsIn(hash, s.b1, index, x);
    }
    NoDuplicatesConcat(Flatten(s.b0), Flatten(s.b1));
  }

  lemma {:induction false} SetOfDistinct<T>(c: seq<T>)
    requires NoDuplicates(c)
    ensures |set x | x in c| == |c|
  {
    if c != [] {
      var rest := c[1..];
      SetOfDistinct(rest);
      assert c[0] !in rest by {
        forall j | 0 <= j < |rest| ensures rest[j] != c[0] {
          assert rest[j] == c[j + 1];
        }
      }
      assert (set x | x in c) == (set x | x in rest) + {c[0]};
    }
  }

  /** `ht[0].used + ht[1].used`, the size reported for the dictionary, is the number of keys. */
  lemma UsedIsKeyCount<K(!new), V>(hash: K -> nat, s: Shape<K, V>, index: map<K, Entry<K, V>>)
    requires WellFormed(hash, s, index)
    ensures Total(s.b0) + Total(s.b1) == |index|
  {
    AllIsIndex(hash, s, index);
    FlattenTotal(s.b0);
    FlattenTotal(s.b1);
    SetOfDistinct(All(s));
    KeyCount(index, set x | x in All(s));
  }

  lemma {:induction false} KeyCount<K(!new), V>(index: map<K, Entry<K, V>>, es: set<Entry<K, V>>)
    requires forall k :: k in index ==> index[k].key == k
    requires forall x :: x in es <==> x.key in index && index[x.key] == x
    ensures |es| == |index|
    decreases |index|
  {
    if |index| == 0 {
      assert index.Keys == {};
      assert es == {};
    } else {
      var k :| k in index;
      var rest := index - {k};
      assert index.Keys == rest.Keys + {k};
      KeyCount(rest, es - {index[k]});
    }
  }

  // ------------------------------------------------------------------
  // How long a migration takes
  // ------------------------------------------------------------------

  /** What an operation does after its migration step. */
  datatype Op<!K(==), !V> = DoInsert(e: Entry<K, V>) | DoRemove(e: Entry<K, V>) | DoFind

  ghost function Perform<K, V>(hash: K -> nat, s: Shape<K, V>, op: Op<K, V>): Shape<K, V> {
    match op
    case DoInsert(e) =>
      if if Rehashing(s) then |s.b1| > 0 else |s.b0| > 0 then Insert(hash, s, e) else s
    case DoRemove(e) => if Has(hash, s.b0, e) || Has(hash, s.b1, e) then Remove(hash, s, e) else s
    case DoFind => s
  }

  /** The shape just before operation `n` looks at the tables: after its own migration step. */
  ghost function Before<K, V>(hash: K -> nat, s: Shape<K, V>, ops: seq<Op<K, V>>, n: nat): Shape<K, V>
    requires n < |ops|
    decreases n
  {
    var prev := if n == 0 then s else Perform(hash, Before(hash, s, ops, n - 1), ops[n - 1]);
    if Staged(prev) && Rehashing(prev) then Step(hash, prev) else prev
  }

  lemma StepStaged<K, V>(hash: K -> nat, s: Shape<K, V>)
    requires Staged(s) && Rehashing(s)
    ensures var s' := Step(hash, s);
            && Staged(s')
            && (Rehashing(s') ==> s'.at > s.at && |s'.b0| == |s.b0|)
            && (Total(s.b0) == 0 <==> !Rehashing(s'))
            && Total(s'.b0) + Total(s'.b1) == Total(s.b0) + Total(s.b1)
  {
    if Total(s.b0) > 0 {
      EntriesRemainAhead(s);
      var i := FirstFull(s.b0, s.at);
      MoveChainTotal(hash, s.b0[i], s.b1);
      TotalUpdate(s.b0, i, []);
    }
  }

  lemma {:induction false} WithoutLength<K, V>(c: Chain<K, V>, e: Entry<K, V>)
    ensures |Without(c, e)| <= |c|
  {
    if c != [] && c[0] != e {
      WithoutLength(c[1..], e);
    }
  }

  /** An operation adds at most one entry and leaves the emptied buckets of the old table empty. */
  lemma PerformStaged<K, V>(hash: K -> nat, s: Shape<K, V>, op: Op<K, V>)
    requires Staged(s) && Rehashing(s)
    ensures var s' := Perform(hash, s, op);
            && Staged(s') && Rehashing(s') && s'.at == s.at && |s'.b0| == |s.b0|
            && Total(s'.b0) + Total(s'.b1) <= Total(s.b0) + Total(s.b1) + 1
  {
    match op
    case DoInsert(e) => PushTotal(hash, s.b1, e);
    case DoRemove(e) =>
      if Has(hash, s.b0, e) || Has(hash, s.b1, e) {
        EmptiedStays(hash, s, e);
        var b := if Has(hash, s.b0, e) then s.b0 else s.b1;
        var i := Slot(hash, e.key, |b|);
        WithoutLength(b[i], e);
        TotalUpdate(b, i, Without(b[i], e));
      }
    case DoFind =>
  }

  /** While the migration lasts, every operation advances `at`, and the size grows by at most one each time. */
  lemma {:induction false} MigrationAdvances<K, V>(hash: K -> nat, s: Shape<K, V>, ops: seq<Op<K, V>>, n: nat)
    requires Staged(s) && Rehashing(s) && n < |ops|
    requires forall j :: 0 <= j <= n ==> Rehashing(Before(hash, s, ops, j))
    ensures var s' := Before(hash, s, ops, n);
            && Staged(s') && s'.at > s.at + n && |s'.b0| == |s.b0|
            && Total(s'.b0) + Total(s'.b1) <= Total(s.b0) + Total(s.b1) + n
  {
    if n == 0 {
      StepStaged(hash, s);
    } else {
      MigrationAdvances(hash, s, ops, n - 1);
      var mid := Before(hash, s, ops, n - 1);
      PerformStaged(hash, mid, ops[n - 1]);
      StepStaged(hash, Perform(hash, mid, ops[n - 1]));
    }
  }

  /**
   The bound on a migration started by growth: with `buckets` buckets in the old table and no safe
   iterator open, one of the first `buckets + 1` operations finds the migration finished, and until
   then each operation has added at most one entry.
   */
  lemma MigrationEnds<K, V>(hash: K -> nat, s: Shape<K, V>, ops: seq<Op<K, V>>) returns (n: nat)
    requires Staged(s) && Rehashing(s) && s.at == 0 && |ops| == |s.b0| + 1
    ensures n < |ops| && !Rehashing(Before(hash, s, ops, n))
    ensures forall j :: 0 <= j < n ==> Rehashing(Before(hash, s, ops, j))
    ensures Total(Before(hash, s, ops, n).b0) <= Total(s.b0) + Total(s.b1) + n
  {
    n := 0;
    while n < |s.b0| && Rehashing(Before(hash, s, ops, n))
      invariant n <= |s.b0| && forall j :: 0 <= j < n ==> Rehashing(Before(hash, s, ops, j))
    {
      n := n + 1;
    }
    if Rehashing(Before(hash, s, ops, n)) {
      MigrationAdvances(hash, s, ops, n);
      assert false;
    }
    if n == 0 {
      StepStaged(hash, s);
    } else {
      MigrationAdvances(hash, s, ops, n - 1);
      var mid := Before(hash, s, ops, n - 1);
      PerformStaged(hash, mid, ops[n - 1]);
      StepStaged(hash, Perform(hash, mid, ops[n - 1]));
    }
  }

  /**
   Growth of a table of N buckets with u >= N entries: the insertion that triggers it and at most
   N + 1 further operations finish the migration, and the new table, the least power of two that is
   at least 4 and at least 2u, then holds at most one entry more than it has buckets.
   */
  lemma GrowthEndsInTime<K(!new), V>(hash: K -> nat, s: Shape<K, V>, e: Entry<K, V>, canResize: bool, ops: seq<Op<K, V>>)
    returns (n: nat)
    requires Staged(s) && !Rehashing(s) && |s.b0| > 0
    requires Rehashing(ExpandIfNeeded(s, canResize)) && |ops| == |s.b0| + 1
    ensures var grown := Insert(hash, ExpandIfNeeded(s, canResize), e);
            && n < |ops| && !Rehashing(Before(hash, grown, ops, n))
            && |grown.b1| == NextPower(2 * Total(s.b0))
            && Total(Before(hash, grown, ops, n).b0) <= |grown.b1| + 1
  {
    var u := Total(s.b0);
    var bigger := ExpandIfNeeded(s, canResize);
    NextPowerIsLeast(2 * u, 0);
    TotalOfEmpty<K, V>(NextPower(2 * u));
    assert u >= |s.b0| && |bigger.b1| == NextPower(2 * u);
    var grown := Insert(hash, bigger, e);
    PushTotal(hash, bigger.b1, e);
    n := MigrationEnds(hash, grown, ops);
  }
}
