/**
 A loop over a dictionary of dict.c with a safe iterator, as callers write it: between two calls of
 `dictNext` they add, replace, look up, and delete the entry just returned. Every operation on the
 heap keeps track of the entries that were present at the start.
 */
module SafeIteration {
  import opened Bytes
  import opened Sequences
  import opened DictModel
  import opened DictIteration
  import opened Dict

  lemma AfterAdd<K(!new), V>(hash: K -> nat, it: Iteration<K, V>, e: Entry<K, V>, canResize: bool, initial: Chain<K, V>)
    requires Tracks(hash, it, initial) && e.key !in it.index && e !in it.returned
    ensures var s := ExpandIfNeeded(it.s, canResize);
            && (if Rehashing(s) then |s.b1| > 0 else |s.b0| > 0)
            && Tracks(hash, it.(s := Insert(hash, s, e), index := it.index[e.key := e]), initial)
  {
    MoveTracks(hash, it, AddNew(e, canResize), initial);
    ExpandKeeps(hash, it.s, canResize, it.index);
    hide WellFormed, CursorOk, Pending, Walking, NoDuplicates, ExpandIfNeeded, Insert;
  }

  lemma AfterGrowth<K(!new), V>(hash: K -> nat, it: Iteration<K, V>, canResize: bool, initial: Chain<K, V>)
    requires Tracks(hash, it, initial)
    ensures Tracks(hash, it.(s := ExpandIfNeeded(it.s, canResize)), initial)
  {
    ExpandTracks(hash, it, canResize, initial);
  }

  lemma AfterNext<K(!new), V>(hash: K -> nat, it: Iteration<K, V>, initial: Chain<K, V>)
    requires Tracks(hash, it, initial)
    ensures it.cur.index >= -1
    ensures var cur := Advance(it.s, it.cur);
            && Tracks(hash, it.(cur := cur, returned := if cur.entry == null then it.returned else it.returned + [cur.entry]), initial)
            && (cur.entry == null ==> forall x :: x in initial ==> x in it.returned)
  {
    TakeNextTracks(hash, it, initial);
    AdvanceTakesFirst(it.s, it.cur);
    hide WellFormed, Pending, Walking, NoDuplicates, Advance;
  }

  lemma AfterRemove<K(!new), V>(hash: K -> nat, it: Iteration<K, V>, initial: Chain<K, V>)
    requires Tracks(hash, it, initial) && it.cur.entry != null && Indexed(it.index, it.cur.entry)
    requires Has(hash, it.s.b0, it.cur.entry) || Has(hash, it.s.b1, it.cur.entry)
    ensures Tracks(hash, it.(s := Remove(hash, it.s, it.cur.entry), index := it.index - {it.cur.entry.key}), initial)
  {
    RemoveLastTracks(hash, it, initial);
  }

  lemma TracksMeans<K(!new), V>(hash: K -> nat, it: Iteration<K, V>, initial: Chain<K, V>)
    requires Tracks(hash, it, initial)
    ensures CursorOk(it.s, it.cur) && NoDuplicates(it.returned)
    ensures it.cur.entry != null ==> it.cur.entry in it.returned
  {
    hide WellFormed, Walking;
    var all := it.returned + Pending(it.s, it.cur);
    assert forall i :: 0 <= i < |it.returned| ==> all[i] == it.returned[i];
  }

  lemma AtStart<K(!new), V>(hash: K -> nat, s: Shape<K, V>, index: map<K, Entry<K, V>>)
    requires WellFormed(hash, s, index)
    ensures Tracks(hash, Iteration(s, index, Start(), []), All(s)) && CursorOk(s, Start())
    ensures forall x :: x in All(s) <==> Indexed(index, x)
  {
    StartPending(s);
    AllIsIndex(hash, s, index);
    assert [] + All(s) == All(s);
  }

  /** Migration is suspended while a safe iterator is counted. */
  lemma Suspended<K, V>(hash: K -> nat, s: Shape<K, V>, iterators: nat)
    requires Staged(s) && iterators > 0
    ensures StepUnlessIterating(hash, s, iterators) == s
  {
  }

  lemma WellFormedNow<K(!new), V>(d: Dict<K, V>)
    requires d.Valid()
    ensures WellFormed(d.hash, d.shape, d.index)
  {
  }

  class Loop<K(!new, ==), V> {
    const d: Dict<K, V>
    const iter: Iterator<K, V>
    /** The entries present when the loop started, and those it has come to so far. */
    ghost var initial: Chain<K, V>
    ghost var returned: Chain<K, V>

    ghost function View(): Iteration<K, V>
      reads this, iter, d
    {
      Iteration(d.shape, d.index, iter.Position(), returned)
    }

    ghost predicate Valid()
      reads this, iter, d, d.table0, d.table1, d.nodes
    {
      && d.Valid() && iter.d == d && iter.safe && iter.Started() && iter.Counted() && iter.Settled()
      && Tracks(d.hash, View(), initial)
    }

    /** `dictGetSafeIterator` and the first call of `dictNext`. */
    constructor (d: Dict<K, V>)
      requires d.Valid()
      modifies d`iterators, d`open
      ensures Valid() && this.d == d && fresh(iter) && d.contents == old(d.contents)
      ensures forall x :: x in initial <==> Indexed(old(d.index), x)
      ensures returned == if iter.entry == null then [] else [iter.entry]
      ensures iter.entry == null ==> initial == []
    {
      hide Dict.Valid, WellFormed, Tracks, CursorOk, Heads, Links, Total, Advance, Takes, All;
      this.d := d;
      var it := new Iterator(d, true);
      iter := it;
      WellFormedNow(d);
      AtStart(d.hash, d.shape, d.index);
      initial, returned := All(d.shape), [];
      new;
      assert iter !in d.open;
      ghost var before := View();
      AfterNext(d.hash, before, initial);
      assert initial != [] ==> initial[0] in initial;
      var e := iter.Next();
      if e != null {
        returned := [e];
        assert [] + [e] == [e];
      }
    }

    /** `dictNext`; when it returns nothing, every entry that was there at the start has been returned. */
    method Next() returns (e: Entry?<K, V>)
      requires Valid()
      modifies this`returned, iter, d`iterators, d`open
      ensures Valid() && e == iter.entry
      ensures returned == if e == null then old(returned) else old(returned) + [e]
      ensures e == null ==> forall x :: x in initial ==> x in returned
    {
      hide Dict.Valid, Tracks, CursorOk, Advance, Takes;
      TracksMeans(d.hash, View(), initial);
      AfterNext(d.hash, View(), initial);
      e := iter.Next();
      if e != null {
        returned := returned + [e];
      }
    }

    /** `dictAddRaw` in the loop. */
    method Add(key: K, val: V, canResize: bool) returns (e: Entry?<K, V>)
      requires Valid()
      modifies d, d.table0, d.table1, d.nodes
      ensures Valid() && (e == null) == (key in old(d.contents))
      ensures d.contents == if e == null then old(d.contents) else old(d.contents)[key := val]
    {
      hide Dict.Valid, Tracks, CursorOk, Insert, ExpandIfNeeded, StepUnlessIterating;
      Counting();
      d.IndexKeys();
      ghost var before := View();
      AfterGrowth(d.hash, before, canResize, initial);
      e := d.AddRaw(key, val, canResize);
      if e != null {
        assert e !in returned;
        AfterAdd(d.hash, before, e, canResize, initial);
      }
    }

    /** `dictReplace` in the loop. */
    method Replace(key: K, val: V, canResize: bool) returns (added: bool)
      requires Valid()
      modifies d, d.table0, d.table1, d.nodes
      ensures Valid() && added == (key !in old(d.contents)) && d.contents == old(d.contents)[key := val]
    {
      hide Dict.Valid, Tracks, CursorOk, Insert, ExpandIfNeeded, StepUnlessIterating;
      Counting();
      d.IndexKeys();
      ghost var before, e := View(), null;
      AfterGrowth(d.hash, before, canResize, initial);
      added, e := d.Replace(key, val, canResize);
      if added {
        assert e !in returned;
        AfterAdd(d.hash, before, e, canResize, initial);
      } else {
        Suspended(d.hash, ExpandIfNeeded(before.s, canResize), d.iterators);
      }
    }

    /** `dictFind` in the loop. */
    method Find(key: K) returns (e: Entry?<K, V>)
      requires Valid()
      modifies d, d.table0, d.table1, d.nodes
      ensures Valid() && e == (if key in d.contents then d.index[key] else null) && d.contents == old(d.contents)
    {
      hide Dict.Valid, Tracks, CursorOk, StepUnlessIterating;
      Counting();
      e := d.Find(key);
    }

    /** `dictDelete` of the entry just returned, which is still in the dictionary. */
    method DeleteReturned()
      requires Valid() && iter.entry != null && Indexed(d.index, iter.entry)
      modifies d, d.table0, d.table1, d.nodes
      ensures Valid() && d.contents == old(d.contents) - {iter.entry.key}
    {
      hide Dict.Valid, Tracks, CursorOk, StepUnlessIterating, Remove, Has;
      Counting();
      ghost var before := View();
      d.IndexKeys();
      var ok := d.Delete(iter.entry.key);
      AfterRemove(d.hash, before, initial);
    }

    /** `dictReleaseIterator`. */
    method Release()
      requires Valid()
      modifies d`iterators, d`open
      ensures d.Valid() && d.open == old(d.open) - {iter} && d.contents == old(d.contents)
    {
      hide Dict.Valid, Tracks;
      iter.Release();
    }

    /** The iterator is counted, so migration is suspended. */
    lemma Counting()
      requires Valid()
      ensures d.iterators > 0 && Staged(d.shape) && StepUnlessIterating(d.hash, d.shape, d.iterators) == d.shape
    {
      hide Tracks, Heads, Links, Holds, Total;
      assert iter in d.open;
    }

    /** No entry is returned twice, and the one returned last is the one the iterator stands at. */
    lemma NoneTwice()
      requires Valid()
      ensures NoDuplicates(returned) && (iter.entry != null ==> iter.entry in returned)
    {
      hide Dict.Valid, Tracks;
      TracksMeans(d.hash, View(), initial);
    }
  }
}
