/**
 How long a migration of dict.c takes on the heap: operations that follow each other without a safe
 iterator finish it, whatever they are.
 */
module Migration {
  import opened Bytes
  import opened DictModel
  import opened Dict

  datatype Call<!K(==), V> =
    | Add(key: K, val: V, canResize: bool)
    | Replace(key: K, val: V, canResize: bool)
    | Find(key: K)
    | Delete(key: K)

  /** One operation; during a migration it moves a bucket at least, or makes the new table the only one. */
  method Perform<K(!new, ==), V>(d: Dict<K, V>, call: Call<K, V>)
    requires d.Valid() && d.iterators == 0
    modifies d, d.table0, d.table1, d.nodes
    ensures d.Valid() && d.iterators == 0
    ensures old(d.rehashidx) != -1 ==>
              d.table0 == old(d.table1)
              || (d.table0 == old(d.table0) && d.table1 == old(d.table1) && d.rehashidx > old(d.rehashidx))
    ensures (d.table0 in {old(d.table0), old(d.table1)} || fresh(d.table0)) && (d.table1 in {old(d.table0), old(d.table1)} || fresh(d.table1))
    ensures forall e :: e in d.nodes ==> e in old(d.nodes) || fresh(e)
    ensures match call
            case Add(key, val, _) => d.contents == if key in old(d.contents) then old(d.contents) else old(d.contents)[key := val]
            case Replace(key, val, _) => d.contents == old(d.contents)[key := val]
            case Find(_) => d.contents == old(d.contents)
            case Delete(key) => d.contents == old(d.contents) - {key}
  {
    hide Dict.Valid, StepUnlessIterating, ExpandIfNeeded, Insert, Remove, Has, Staged, Rehashing;
    match call
    case Add(key, val, canResize) => var e := d.AddRaw(key, val, canResize);
    case Replace(key, val, canResize) =>
      ghost var e;
      var added;
      added, e := d.Replace(key, val, canResize);
    case Find(key) => var e := d.Find(key);
    case Delete(key) => var ok := d.Delete(key);
  }

  /**
   A migration of N buckets, at whatever point, is finished by one operation more than it has buckets
   left: the new table has then become the only one.
   */
  method UntilMigrated<K(!new, ==), V>(d: Dict<K, V>, calls: seq<Call<K, V>>) returns (n: nat)
    requires d.Valid() && d.iterators == 0 && d.rehashidx != -1
    requires |calls| == d.table0.Length - d.rehashidx + 1
    modifies d, d.table0, d.table1, d.nodes
    ensures d.Valid() && d.iterators == 0 && n <= |calls| && d.table0 == old(d.table1)
  {
    hide Dict.Valid;
    n := 0;
    var target := d.table1;
    d.IndexInTable();
    while d.table0 != target
      invariant d.Valid() && d.iterators == 0 && n <= |calls|
      invariant d.table0 != target ==>
                  d.table0 == old(d.table0) && d.table1 == old(d.table1) && old(d.rehashidx) + n <= d.rehashidx <= d.table0.Length
      invariant forall e :: e in d.nodes ==> e in old(d.nodes) || fresh(e)
      decreases |calls| - n
    {
      Perform(d, calls[n]);
      if d.table0 != target {
        d.IndexInTable();
      }
      n := n + 1;
    }
  }

  /** An add that makes a full table grow is followed by its doubling within N+1 operations. */
  method Grow<K(!new, ==), V>(d: Dict<K, V>, key: K, val: V, calls: seq<Call<K, V>>) returns (n: nat)
    requires d.Valid() && d.iterators == 0 && d.rehashidx == -1
    requires d.used0 >= d.table0.Length > 0 && |calls| == d.table0.Length + 1
    modifies d, d.table0, d.table1, d.nodes
    ensures d.Valid() && n <= |calls| && d.table0.Length == NextPower(2 * old(d.used0))
  {
    hide Dict.Valid, StepUnlessIterating, ExpandIfNeeded, Insert, Rehashing;
    var e := d.AddRaw(key, val, true);
    n := UntilMigrated(d, calls);
  }
}
