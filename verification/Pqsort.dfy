/**
 Partial sorting (pqsort.c): the Bentley-McIlroy quicksort that leaves unsorted every
 sub-array outside the requested range. Elements are swapped as wholes and pointers are
 indices; `hi` is the exclusive end of a sub-array.
 */
module Pqsort {

  /** The comparison callback applied to two elements. */
  function Order<T>(cmp: (T, T) -> int, x: T, y: T): int {
    cmp(x, y)
  }

  /** `cmp` orders its arguments as a total preorder: distinct values may compare as equal. */
  ghost predicate Preorder<T(!new)>(cmp: (T, T) -> int) {
    && (forall x, y :: Order(cmp, x, y) < 0 <==> Order(cmp, y, x) > 0)
    && (forall x, y, z :: Order(cmp, x, y) <= 0 && Order(cmp, y, z) <= 0 ==> Order(cmp, x, z) <= 0)
  }

  /** Position `i` of `s[lo..hi]` holds an element of its own rank: nothing before it is larger, nothing after it smaller. */
  ghost predicate Pinned<T>(cmp: (T, T) -> int, s: seq<T>, lo: nat, hi: nat, i: nat)
    requires lo <= i < hi <= |s|
  {
    && (forall j :: lo <= j < i ==> Order(cmp, s[j], s[i]) <= 0)
    && (forall j :: i < j < hi ==> Order(cmp, s[i], s[j]) <= 0)
  }

  ghost predicate Sorted<T>(cmp: (T, T) -> int, s: seq<T>, lo: nat, hi: nat)
    requires lo <= hi <= |s|
  {
    forall i, j :: lo <= i < j < hi ==> Order(cmp, s[i], s[j]) <= 0
  }

  lemma StrictlyBefore<T(!new)>(cmp: (T, T) -> int, x: T, y: T, z: T)
    requires Preorder(cmp) && Order(cmp, x, y) < 0 && Order(cmp, y, z) <= 0
    ensures Order(cmp, x, z) < 0 && Order(cmp, z, x) > 0
  {
    assert Order(cmp, z, x) <= 0 ==> Order(cmp, y, x) <= 0;
  }

  lemma StrictlyFlips<T(!new)>(cmp: (T, T) -> int, x: T, y: T)
    requires Preorder(cmp)
    ensures Order(cmp, x, x) == 0 && (Order(cmp, x, y) < 0 <==> Order(cmp, y, x) > 0) && (Order(cmp, x, y) > 0 <==> Order(cmp, y, x) < 0)
  {
  }

  lemma StrictlyAfter<T(!new)>(cmp: (T, T) -> int, x: T, y: T, z: T)
    requires Preorder(cmp) && Order(cmp, x, y) <= 0 && Order(cmp, y, z) < 0
    ensures Order(cmp, x, z) < 0 && Order(cmp, z, x) > 0
  {
    assert Order(cmp, z, x) <= 0 ==> Order(cmp, z, y) <= 0;
  }

  /** `t` rearranges `s`, moving nothing into or out of `[lo, hi)`. */
  ghost predicate Shuffled<T>(s: seq<T>, t: seq<T>, lo: nat, hi: nat) {
    && lo <= hi <= |s| == |t|
    && s[..lo] == t[..lo] && s[hi..] == t[hi..]
    && multiset(s) == multiset(t)
  }

  lemma ShuffledSlice<T>(s: seq<T>, t: seq<T>, lo: nat, hi: nat)
    requires Shuffled(s, t, lo, hi)
    ensures multiset(s[lo..hi]) == multiset(t[lo..hi])
  {
    assert s == s[..lo] + s[lo..hi] + s[hi..];
    assert t == t[..lo] + t[lo..hi] + t[hi..];
    assert multiset(s[lo..hi]) == multiset(s) - multiset(s[..lo]) - multiset(s[hi..]);
    assert multiset(t[lo..hi]) == multiset(t) - multiset(t[..lo]) - multiset(t[hi..]);
  }

  lemma ShuffledOrigin<T>(s: seq<T>, t: seq<T>, lo: nat, hi: nat, k: nat) returns (k': nat)
    requires Shuffled(s, t, lo, hi) && lo <= k < hi
    ensures lo <= k' < hi && s[k'] == t[k]
  {
    ShuffledSlice(s, t, lo, hi);
    assert t[lo..hi][k - lo] in multiset(t[lo..hi]);
    assert t[k] in s[lo..hi];
    var j :| 0 <= j < hi - lo && s[lo..hi][j] == t[k];
    k' := lo + j;
  }

  lemma ShuffledWider<T>(s: seq<T>, t: seq<T>, lo: nat, hi: nat, lo': nat, hi': nat)
    requires Shuffled(s, t, lo, hi) && lo' <= lo && hi <= hi' <= |s|
    ensures Shuffled(s, t, lo', hi')
  {
    assert s[..lo'] == s[..lo][..lo'] && t[..lo'] == t[..lo][..lo'];
    assert s[hi'..] == s[hi..][hi' - hi..] && t[hi'..] == t[hi..][hi' - hi..];
  }

  lemma ShuffledSwap<T>(s0: seq<T>, s: seq<T>, t: seq<T>, lo: nat, hi: nat, i: nat, j: nat)
    requires Shuffled(s0, s, lo, hi) && lo <= i < hi && lo <= j < hi
    requires t == s[i := s[j]][j := s[i]]
    ensures Shuffled(s0, t, lo, hi)
  {
    assert t[..lo] == s[..lo] && t[hi..] == s[hi..];
    assert multiset(t) == multiset(s);
  }

  lemma ShuffledTrans<T>(s: seq<T>, t: seq<T>, u: seq<T>, lo: nat, hi: nat)
    requires Shuffled(s, t, lo, hi) && Shuffled(t, u, lo, hi)
    ensures Shuffled(s, u, lo, hi)
  {
  }

  // ------------------------------------------------------------------
  // Rank: what a pinned position means
  // ------------------------------------------------------------------

  ghost function CountIf<T>(p: T -> bool, s: seq<T>): nat {
    if s == [] then 0 else (if p(s[0]) then 1 else 0) + CountIf(p, s[1..])
  }

  lemma {:induction false} CountConcat<T>(p: T -> bool, s: seq<T>, t: seq<T>)
    ensures CountIf(p, s + t) == CountIf(p, s) + CountIf(p, t)
  {
    if s == [] {
      assert s + t == t;
    } else {
      assert (s + t)[1..] == s[1..] + t;
      CountConcat(p, s[1..], t);
    }
  }

  lemma CountWithout<T>(p: T -> bool, t: seq<T>, k: nat)
    requires k < |t|
    ensures CountIf(p, t) == CountIf(p, t[..k] + t[k + 1..]) + if p(t[k]) then 1 else 0
  {
    assert t == t[..k] + ([t[k]] + t[k + 1..]);
    CountConcat(p, t[..k], t[k + 1..]);
    CountConcat(p, t[..k], [t[k]] + t[k + 1..]);
    CountConcat(p, [t[k]], t[k + 1..]);
  }

  lemma MultisetWithout<T>(t: seq<T>, k: nat)
    requires k < |t|
    ensures multiset(t[..k] + t[k + 1..]) == multiset(t) - multiset{t[k]}
  {
    assert t == t[..k] + ([t[k]] + t[k + 1..]);
  }

  /** Counting does not depend on the arrangement. */
  lemma {:induction false} CountPermuted<T>(p: T -> bool, s: seq<T>, t: seq<T>)
    requires multiset(s) == multiset(t)
    ensures CountIf(p, s) == CountIf(p, t)
  {
    if s == [] {
      assert |t| == |multiset(t)| == 0;
    } else {
      assert s[0] in multiset(t);
      var k :| 0 <= k < |t| && t[k] == s[0];
      CountWithout(p, t, k);
      MultisetWithout(t, k);
      MultisetWithout(s, 0);
      assert s[..0] + s[1..] == s[1..];
      CountPermuted(p, s[1..], t[..k] + t[k + 1..]);
    }
  }

  lemma {:induction false} CountBounds<T>(p: T -> bool, s: seq<T>, k: nat)
    requires k <= |s|
    ensures (forall j :: 0 <= j < k ==> p(s[j])) ==> k <= CountIf(p, s)
    ensures (forall j :: k <= j < |s| ==> !p(s[j])) ==> CountIf(p, s) <= k
  {
    if s != [] {
      if k > 0 {
        CountBounds(p, s[1..], k - 1);
      } else {
        CountBounds(p, s[1..], 0);
      }
    }
  }

  lemma RankNotTooHigh<T(!new)>(cmp: (T, T) -> int, s: seq<T>, i: nat, t: seq<T>)
    requires Preorder(cmp) && i < |s| == |t| && multiset(s) == multiset(t)
    requires forall j :: 0 <= j <= i ==> Order(cmp, s[j], s[i]) <= 0
    requires forall j :: i <= j < |t| ==> Order(cmp, t[i], t[j]) <= 0
    ensures Order(cmp, s[i], t[i]) >= 0
  {
    hide Preorder;
    if Order(cmp, s[i], t[i]) < 0 {
      var x, y := s[i], t[i];
      var leq := (e: T) => Order(cmp, e, x) <= 0;
      forall j | i <= j < |t| ensures !leq(t[j]) {
        StrictlyBefore(cmp, x, y, t[j]);
      }
      CountPermuted(leq, s, t);
      CountBounds(leq, s, i + 1);
      CountBounds(leq, t, i);
      assert false;
    }
  }

  lemma RankNotTooLow<T(!new)>(cmp: (T, T) -> int, s: seq<T>, i: nat, t: seq<T>)
    requires Preorder(cmp) && i < |s| == |t| && multiset(s) == multiset(t)
    requires forall j :: i <= j < |s| ==> Order(cmp, s[i], s[j]) <= 0
    requires forall j :: 0 <= j <= i ==> Order(cmp, t[j], t[i]) <= 0
    ensures Order(cmp, t[i], s[i]) >= 0
  {
    hide Preorder;
    if Order(cmp, t[i], s[i]) < 0 {
      var x, y := s[i], t[i];
      var lss := (e: T) => Order(cmp, e, x) < 0;
      forall j | 0 <= j <= i ensures lss(t[j]) {
        StrictlyAfter(cmp, t[j], y, x);
      }
      forall j | i <= j < |s| ensures !lss(s[j]) {
        StrictlyFlips(cmp, x, s[j]);
      }
      CountPermuted(lss, s, t);
      CountBounds(lss, t, i + 1);
      CountBounds(lss, s, i);
      assert false;
    }
  }

  /**
   A pinned position agrees, under the ordering, with the same position of every sorted
   arrangement of the same elements: pinned elements are exactly those of that rank.
   */
  lemma PinnedIsRank<T(!new)>(cmp: (T, T) -> int, s: seq<T>, i: nat, t: seq<T>)
    requires Preorder(cmp) && i < |s|
    requires Pinned(cmp, s, 0, |s|, i)
    requires multiset(s) == multiset(t) && |t| == |s| && Sorted(cmp, t, 0, |t|)
    ensures Order(cmp, s[i], t[i]) == 0
  {
    StrictlyFlips(cmp, s[i], s[i]);
    StrictlyFlips(cmp, t[i], t[i]);
    StrictlyFlips(cmp, s[i], t[i]);
    RankNotTooHigh(cmp, s, i, t);
    RankNotTooLow(cmp, s, i, t);
  }

  // ------------------------------------------------------------------
  // Swapping
  // ------------------------------------------------------------------

  method Swap<T>(a: array<T>, i: nat, j: nat)
    requires i < a.Length && j < a.Length
    modifies a
    ensures a[..] == old(a[..])[i := old(a[j])][j := old(a[i])]
    ensures multiset(a[..]) == old(multiset(a[..]))
  {
    a[i], a[j] := a[j], a[i];
  }

  /** Exchanges the `n` elements from `i` with the `n` elements from `j`. */
  method VecSwap<T>(a: array<T>, i: nat, j: nat, n: nat)
    requires i + n <= j && j + n <= a.Length
    modifies a
    ensures forall k :: i <= k < i + n ==> a[k] == old(a[k + (j - i)])
    ensures forall k :: j <= k < j + n ==> a[k] == old(a[k - (j - i)])
    ensures forall k :: 0 <= k < a.Length && !(i <= k < i + n) && !(j <= k < j + n) ==> a[k] == old(a[k])
    ensures multiset(a[..]) == old(multiset(a[..]))
  {
    var c := 0;
    while c < n
      invariant 0 <= c <= n
      invariant forall k :: i <= k < i + c ==> a[k] == old(a[k + (j - i)])
      invariant forall k :: j <= k < j + c ==> a[k] == old(a[k - (j - i)])
      invariant forall k :: 0 <= k < a.Length && !(i <= k < i + c) && !(j <= k < j + c) ==> a[k] == old(a[k])
      invariant multiset(a[..]) == old(multiset(a[..]))
    {
      Swap(a, i + c, j + c);
      c := c + 1;
    }
  }

  function Med3<T>(a: seq<T>, i: nat, j: nat, k: nat, cmp: (T, T) -> int): (m: nat)
    requires i < |a| && j < |a| && k < |a|
    ensures m == i || m == j || m == k
  {
    if Order(cmp, a[i], a[j]) < 0 then
      if Order(cmp, a[j], a[k]) < 0 then j else if Order(cmp, a[i], a[k]) < 0 then k else i
    else
      if Order(cmp, a[j], a[k]) > 0 then j else if Order(cmp, a[i], a[k]) < 0 then i else k
  }

  ghost predicate Between<T>(cmp: (T, T) -> int, x: T, m: T, y: T) {
    (Order(cmp, x, m) <= 0 && Order(cmp, m, y) <= 0) || (Order(cmp, y, m) <= 0 && Order(cmp, m, x) <= 0)
  }

  /** The element chosen lies between the other two. */
  lemma Med3IsMedian<T(!new)>(a: seq<T>, i: nat, j: nat, k: nat, cmp: (T, T) -> int)
    requires Preorder(cmp) && i < |a| && j < |a| && k < |a|
    ensures var m := Med3(a, i, j, k, cmp);
            || (m == i && Between(cmp, a[j], a[m], a[k]))
            || (m == j && Between(cmp, a[i], a[m], a[k]))
            || (m == k && Between(cmp, a[i], a[m], a[j]))
  {
    assert forall x, y :: Order(cmp, x, y) > 0 ==> Order(cmp, y, x) <= 0;
  }

  // ------------------------------------------------------------------
  // Insertion sort
  // ------------------------------------------------------------------

  /** Everything in `[lo, hi)` is in order, except that the element at `pl` has still to move left. */
  ghost predicate SortedBut<T>(cmp: (T, T) -> int, s: seq<T>, lo: nat, hi: nat, pl: nat)
    requires lo <= hi <= |s|
  {
    forall i, j :: lo <= i < j < hi && j != pl ==> Order(cmp, s[i], s[j]) <= 0
  }

  lemma NothingMoved<T>(cmp: (T, T) -> int, s: seq<T>, lo: nat, hi: nat, pm: nat)
    requires lo <= pm < hi <= |s| && Sorted(cmp, s, lo, pm)
    ensures Shuffled(s, s, lo, hi) && SortedBut(cmp, s, lo, pm + 1, pm)
  {
  }

  lemma Inserted<T(!new)>(cmp: (T, T) -> int, s: seq<T>, lo: nat, hi: nat, pl: nat)
    requires Preorder(cmp) && lo <= pl < hi <= |s| && SortedBut(cmp, s, lo, hi, pl)
    requires pl == lo || Order(cmp, s[pl - 1], s[pl]) <= 0
    ensures Sorted(cmp, s, lo, hi)
  {
    forall i, j | lo <= i < j < hi ensures Order(cmp, s[i], s[j]) <= 0 {
      if j == pl && i < pl - 1 {
        assert Order(cmp, s[i], s[pl - 1]) <= 0;
      }
    }
  }

  lemma MovedLeft<T(!new)>(cmp: (T, T) -> int, s: seq<T>, t: seq<T>, lo: nat, hi: nat, pl: nat)
    requires Preorder(cmp) && lo < pl < hi <= |s| && SortedBut(cmp, s, lo, hi, pl)
    requires Order(cmp, s[pl - 1], s[pl]) > 0 && t == s[pl := s[pl - 1]][pl - 1 := s[pl]]
    ensures SortedBut(cmp, t, lo, hi, pl - 1)
  {
    StrictlyFlips(cmp, s[pl - 1], s[pl]);
    forall i, j | lo <= i < j < hi && j != pl - 1 ensures Order(cmp, t[i], t[j]) <= 0 {
      var i', j' := if i == pl - 1 then pl else if i == pl then pl - 1 else i, if j == pl then pl - 1 else j;
      assert t[i] == s[i'] && t[j] == s[j'];
    }
  }

  /** The inner loop: moves the element at `pm` left to its place among the sorted ones before it. */
  method Insert<T(!new)>(a: array<T>, lo: nat, pm: nat, hi: nat, cmp: (T, T) -> int)
    requires Preorder(cmp) && lo <= pm < hi <= a.Length && Sorted(cmp, a[..], lo, pm)
    modifies a
    ensures Shuffled(old(a[..]), a[..], lo, hi)
    ensures Sorted(cmp, a[..], lo, pm + 1)
  {
    hide *;
    ghost var s0 := a[..];
    ghost var s := s0;
    var pl := pm;
    NothingMoved(cmp, s0, lo, hi, pm);
    while pl > lo && Order(cmp, a[pl - 1], a[pl]) > 0
      invariant lo <= pl <= pm && s == a[..]
      invariant Shuffled(s0, s, lo, hi) && SortedBut(cmp, s, lo, pm + 1, pl)
    {
      ghost var t := s[pl := s[pl - 1]][pl - 1 := s[pl]];
      MovedLeft(cmp, s, t, lo, pm + 1, pl);
      ShuffledSwap(s0, s, t, lo, hi, pl, pl - 1);
      Swap(a, pl, pl - 1);
      s, pl := t, pl - 1;
    }
    Inserted(cmp, s, lo, pm + 1, pl);
  }

  method InsertionSort<T(!new)>(a: array<T>, lo: nat, n: nat, cmp: (T, T) -> int)
    requires Preorder(cmp) && lo + n <= a.Length
    modifies a
    ensures Shuffled(old(a[..]), a[..], lo, lo + n)
    ensures Sorted(cmp, a[..], lo, lo + n)
  {
    hide Preorder;
    var pm := lo + 1;
    while pm < lo + n
      invariant lo < pm && Shuffled(old(a[..]), a[..], lo, lo + n)
      invariant Sorted(cmp, a[..], lo, if pm < lo + n then pm else lo + n)
      decreases lo + n - pm
    {
      Insert(a, lo, pm, lo + n, cmp);
      pm := pm + 1;
    }
  }

  // ------------------------------------------------------------------
  // Three-way partition
  // ------------------------------------------------------------------

  /**
   The four cursors during partitioning around the element at `lo`: from the left come elements
   equal to it, then smaller ones; from the right elements equal to it, then larger ones.
   */
  ghost predicate Layout<T>(cmp: (T, T) -> int, s: seq<T>, lo: nat, hi: nat, pa: nat, pb: nat, pc: nat, pd: nat) {
    && lo < pa <= pb <= pc + 1 && pc <= pd < hi <= |s|
    && (forall k :: lo < k < pa ==> Order(cmp, s[k], s[lo]) == 0)
    && (forall k :: pa <= k < pb ==> Order(cmp, s[k], s[lo]) < 0)
    && (forall k :: pc < k <= pd ==> Order(cmp, s[k], s[lo]) > 0)
    && (forall k :: pd < k < hi ==> Order(cmp, s[k], s[lo]) == 0)
  }

  lemma EqualFromLeft<T>(cmp: (T, T) -> int, s: seq<T>, t: seq<T>, lo: nat, hi: nat, pa: nat, pb: nat, pc: nat, pd: nat)
    requires Layout(cmp, s, lo, hi, pa, pb, pc, pd) && pb <= pc && Order(cmp, s[pb], s[lo]) == 0
    requires t == s[pa := s[pb]][pb := s[pa]]
    ensures Layout(cmp, t, lo, hi, pa + 1, pb + 1, pc, pd)
  {
  }

  lemma EqualFromRight<T>(cmp: (T, T) -> int, s: seq<T>, t: seq<T>, lo: nat, hi: nat, pa: nat, pb: nat, pc: nat, pd: nat)
    requires Layout(cmp, s, lo, hi, pa, pb, pc, pd) && pb <= pc && Order(cmp, s[pc], s[lo]) == 0
    requires t == s[pc := s[pd]][pd := s[pc]]
    ensures Layout(cmp, t, lo, hi, pa, pb, pc - 1, pd - 1)
  {
  }

  lemma SmallerFromLeft<T>(cmp: (T, T) -> int, s: seq<T>, lo: nat, hi: nat, pa: nat, pb: nat, pc: nat, pd: nat)
    requires Layout(cmp, s, lo, hi, pa, pb, pc, pd) && pb <= pc && Order(cmp, s[pb], s[lo]) < 0
    ensures Layout(cmp, s, lo, hi, pa, pb + 1, pc, pd)
  {
  }

  lemma LargerFromRight<T>(cmp: (T, T) -> int, s: seq<T>, lo: nat, hi: nat, pa: nat, pb: nat, pc: nat, pd: nat)
    requires Layout(cmp, s, lo, hi, pa, pb, pc, pd) && pb <= pc && Order(cmp, s[pc], s[lo]) > 0
    ensures Layout(cmp, s, lo, hi, pa, pb, pc - 1, pd)
  {
  }

  lemma ExchangedOutliers<T>(cmp: (T, T) -> int, s: seq<T>, t: seq<T>, lo: nat, hi: nat, pa: nat, pb: nat, pc: nat, pd: nat)
    requires Layout(cmp, s, lo, hi, pa, pb, pc, pd) && pb < pc
    requires Order(cmp, s[pb], s[lo]) > 0 > Order(cmp, s[pc], s[lo])
    requires t == s[pb := s[pc]][pc := s[pb]]
    ensures Layout(cmp, t, lo, hi, pa, pb + 1, pc - 1, pd)
  {
  }

  /** An element equal to the pivot, found from the left, joins the equal ones at the left end. */
  method TakeEqualLeft<T>(a: array<T>, lo: nat, hi: nat, cmp: (T, T) -> int, pa: nat, pb: nat, pc: nat, pd: nat)
    requires hi <= a.Length && Layout(cmp, a[..], lo, hi, pa, pb, pc, pd) && pb <= pc && Order(cmp, a[pb], a[lo]) == 0
    modifies a
    ensures Layout(cmp, a[..], lo, hi, pa + 1, pb + 1, pc, pd) && Shuffled(old(a[..]), a[..], lo, hi)
    ensures forall k :: pb < k <= pc ==> a[k] == old(a[..])[k]
  {
    ghost var s := a[..];
    LayoutBounds(cmp, s, lo, hi, pa, pb, pc, pd);
    ShuffledSelf(s, lo, hi);
    hide *;
    Swap(a, pa, pb);
    EqualFromLeft(cmp, s, a[..], lo, hi, pa, pb, pc, pd);
    ShuffledSwap(s, s, a[..], lo, hi, pa, pb);
  }

  method ScanUp<T>(a: array<T>, lo: nat, hi: nat, cmp: (T, T) -> int, pa0: nat, pb0: nat, pc: nat, pd: nat)
    returns (pa: nat, pb: nat, swapped: bool)
    requires hi <= a.Length && Layout(cmp, a[..], lo, hi, pa0, pb0, pc, pd)
    modifies a
    ensures Shuffled(old(a[..]), a[..], lo, hi)
    ensures pb0 <= pb <= pc + 1 && Layout(cmp, a[..], lo, hi, pa, pb, pc, pd)
    ensures pb <= pc ==> Order(cmp, a[pb], a[lo]) > 0
    ensures forall k :: pb <= k <= pc ==> a[k] == old(a[..])[k]
    ensures !swapped ==> a[..] == old(a[..]) && pa == pa0
  {
    pa, pb, swapped := pa0, pb0, false;
    ghost var s0, s := old(a[..]), a[..];
    LayoutBounds(cmp, s, lo, hi, pa, pb, pc, pd);
    ShuffledSelf(s0, lo, hi);
    hide *;
    while pb <= pc && Order(cmp, a[pb], a[lo]) <= 0
      invariant s == a[..] && lo < pa <= pb && pb0 <= pb <= pc + 1 <= hi
      invariant Layout(cmp, s, lo, hi, pa, pb, pc, pd) && Shuffled(s0, s, lo, hi)
      invariant forall k :: pb <= k <= pc ==> s[k] == s0[k]
      invariant !swapped ==> s == s0 && pa == pa0
    {
      if Order(cmp, a[pb], a[lo]) == 0 {
        swapped := true;
        TakeEqualLeft(a, lo, hi, cmp, pa, pb, pc, pd);
        ShuffledTrans(s0, s, a[..], lo, hi);
        s, pa := a[..], pa + 1;
      } else {
        SmallerFromLeft(cmp, s, lo, hi, pa, pb, pc, pd);
      }
      pb := pb + 1;
    }
  }

  method ScanDown<T>(a: array<T>, lo: nat, hi: nat, cmp: (T, T) -> int, pa: nat, pb: nat, pc0: nat, pd0: nat)
    returns (pc: nat, pd: nat, swapped: bool)
    requires hi <= a.Length && Layout(cmp, a[..], lo, hi, pa, pb, pc0, pd0)
    requires pb <= pc0 ==> Order(cmp, a[pb], a[lo]) > 0
    modifies a
    ensures Shuffled(old(a[..]), a[..], lo, hi)
    ensures pb - 1 <= pc <= pc0 && Layout(cmp, a[..], lo, hi, pa, pb, pc, pd)
    ensures pb <= pc ==> pb < pc && Order(cmp, a[pb], a[lo]) > 0 > Order(cmp, a[pc], a[lo])
    ensures !swapped ==> a[..] == old(a[..]) && pd == pd0
  {
    pc, pd, swapped := pc0, pd0, false;
    ghost var s0, s := a[..], a[..];
    LayoutBounds(cmp, s, lo, hi, pa, pb, pc, pd);
    ShuffledSelf(s0, lo, hi);
    hide *;
    while pb <= pc && Order(cmp, a[pc], a[lo]) >= 0
      invariant s == a[..] && lo < pb && pb - 1 <= pc <= pc0 && pc <= pd < hi
      invariant Layout(cmp, s, lo, hi, pa, pb, pc, pd) && Shuffled(s0, s, lo, hi)
      invariant pb <= pc ==> Order(cmp, a[pb], a[lo]) > 0
      invariant !swapped ==> s == s0 && pd == pd0
    {
      if Order(cmp, a[pc], a[lo]) == 0 {
        swapped := true;
        ghost var t := s[pc := s[pd]][pd := s[pc]];
        EqualFromRight(cmp, s, t, lo, hi, pa, pb, pc, pd);
        ShuffledSwap(s0, s, t, lo, hi, pc, pd);
        Swap(a, pc, pd);
        s, pd := t, pd - 1;
      } else {
        LargerFromRight(cmp, s, lo, hi, pa, pb, pc, pd);
      }
      pc := pc - 1;
    }
  }

  /** One pass of the outer loop; `done` when the cursors have crossed. */
  method PartitionPass<T>(a: array<T>, lo: nat, hi: nat, cmp: (T, T) -> int, pa0: nat, pb0: nat, pc0: nat, pd0: nat)
    returns (pa: nat, pb: nat, pc: nat, pd: nat, swapped: bool, done: bool)
    requires hi <= a.Length && Layout(cmp, a[..], lo, hi, pa0, pb0, pc0, pd0)
    modifies a
    ensures Shuffled(old(a[..]), a[..], lo, hi)
    ensures Layout(cmp, a[..], lo, hi, pa, pb, pc, pd)
    ensures if done then pb == pc + 1 else pc - pb < pc0 - pb0 && pb <= pc + 1
    ensures !swapped ==> a[..] == old(a[..]) && pa == pa0 && pd == pd0
  {
    hide *;
    ghost var s0 := a[..];
    pa, pb, swapped := ScanUp(a, lo, hi, cmp, pa0, pb0, pc0, pd0);
    ghost var s := a[..];
    var some;
    pc, pd, some := ScanDown(a, lo, hi, cmp, pa, pb, pc0, pd0);
    swapped, done := swapped || some, pb > pc;
    ShuffledTrans(s0, s, a[..], lo, hi);
    if !done {
      s := a[..];
      LayoutBounds(cmp, s, lo, hi, pa, pb, pc, pd);
      Swap(a, pb, pc);
      ExchangedOutliers(cmp, s, a[..], lo, hi, pa, pb, pc, pd);
      ShuffledSwap(s0, s, a[..], lo, hi, pb, pc);
      swapped, pb, pc := true, pb + 1, pc - 1;
    }
  }

  /**
   Partitions around the element at `lo`; `swapped` is the code's `swap_cnt != 0`. Without it the
   elements stood partitioned already, none of them equal to the pivot.
   */
  method Partition<T>(a: array<T>, lo: nat, hi: nat, cmp: (T, T) -> int)
    returns (pa: nat, pb: nat, pc: nat, pd: nat, swapped: bool)
    requires lo + 1 < hi <= a.Length
    modifies a
    ensures Shuffled(old(a[..]), a[..], lo, hi)
    ensures Layout(cmp, a[..], lo, hi, pa, pb, pc, pd) && pb == pc + 1
    ensures !swapped ==> a[..] == old(a[..]) && pa == lo + 1 && pd == hi - 1
  {
    pa, pb, pc, pd, swapped := lo + 1, lo + 1, hi - 1, hi - 1, false;
    var done := false;
    ghost var s0, s := a[..], a[..];
    assert Layout(cmp, s, lo, hi, pa, pb, pc, pd) && Shuffled(s0, s, lo, hi);
    hide *;
    while !done
      invariant s == a[..] && pb <= pc + 1 && (done ==> pb == pc + 1)
      invariant Layout(cmp, s, lo, hi, pa, pb, pc, pd) && Shuffled(s0, s, lo, hi)
      invariant !swapped ==> s == s0 && pa == lo + 1 && pd == hi - 1
      decreases !done, pc + 1 - pb
    {
      var some;
      pa, pb, pc, pd, some, done := PartitionPass(a, lo, hi, cmp, pa, pb, pc, pd);
      swapped := swapped || some;
      ShuffledTrans(s0, s, a[..], lo, hi);
      s := a[..];
    }
  }

  /** Smaller elements in `[lo, m)`, equal ones in `[m, w)`, larger ones in `[w, hi)`; `p` is the pivot. */
  ghost predicate ThreeWay<T>(cmp: (T, T) -> int, s: seq<T>, lo: nat, m: nat, w: nat, hi: nat, p: T) {
    && lo <= m < w <= hi <= |s|
    && (forall k :: lo <= k < m ==> Order(cmp, s[k], p) < 0)
    && (forall k :: m <= k < w ==> Order(cmp, s[k], p) == 0)
    && (forall k :: w <= k < hi ==> Order(cmp, s[k], p) > 0)
  }

  /** Brings the elements equal to the pivot from the left end next to the middle. */
  method GatherLeft<T>(a: array<T>, lo: nat, hi: nat, cmp: (T, T) -> int, p: T, pa: nat, pb: nat)
    requires lo <= pa <= pb <= hi <= a.Length
    requires forall k :: lo <= k < pa ==> Order(cmp, a[k], p) == 0
    requires forall k :: pa <= k < pb ==> Order(cmp, a[k], p) < 0
    modifies a
    ensures Shuffled(old(a[..]), a[..], lo, hi)
    ensures forall k :: lo <= k < lo + (pb - pa) ==> Order(cmp, a[k], p) < 0
    ensures forall k :: lo + (pb - pa) <= k < pb ==> Order(cmp, a[k], p) == 0
    ensures forall k :: pb <= k < hi ==> a[k] == old(a[k])
  {
    var r := if pa - lo < pb - pa then pa - lo else pb - pa;
    VecSwap(a, lo, pb - r, r);
  }

  /** Brings the elements equal to the pivot from the right end next to the middle. */
  method GatherRight<T>(a: array<T>, lo: nat, hi: nat, cmp: (T, T) -> int, p: T, pb: nat, w: nat)
    requires lo <= pb <= w <= hi <= a.Length
    requires forall k :: pb <= k < w ==> Order(cmp, a[k], p) > 0
    requires forall k :: w <= k < hi ==> Order(cmp, a[k], p) == 0
    modifies a
    ensures Shuffled(old(a[..]), a[..], lo, hi)
    ensures forall k :: pb <= k < hi - (w - pb) ==> Order(cmp, a[k], p) == 0
    ensures forall k :: hi - (w - pb) <= k < hi ==> Order(cmp, a[k], p) > 0
    ensures forall k :: lo <= k < pb ==> a[k] == old(a[k])
  {
    var r := if w - pb < hi - w then w - pb else hi - w;
    VecSwap(a, pb, hi - r, r);
  }

  method Gather<T(!new)>(a: array<T>, lo: nat, hi: nat, cmp: (T, T) -> int, pa: nat, pb: nat, pc: nat, pd: nat)
    requires Preorder(cmp) && hi <= a.Length
    requires Layout(cmp, a[..], lo, hi, pa, pb, pc, pd) && pb == pc + 1
    modifies a
    ensures Shuffled(old(a[..]), a[..], lo, hi)
    ensures ThreeWay(cmp, a[..], lo, lo + (pb - pa), hi - (pd - pc), hi, old(a[lo]))
  {
    StrictlyFlips(cmp, a[lo], a[lo]);
    hide Preorder;
    var p := a[lo];
    GatherLeft(a, lo, hi, cmp, p, pa, pb);
    GatherRight(a, lo, hi, cmp, p, pb, pd + 1);
  }

  // ------------------------------------------------------------------
  // _pqsort and pqsort
  // ------------------------------------------------------------------

  /** The middle element, a median of three, or a median of three medians, depending on the size. */
  function Pivot<T>(a: seq<T>, lo: nat, n: nat, cmp: (T, T) -> int): (m: nat)
    requires 7 <= n && lo + n <= |a|
    ensures lo <= m < lo + n
  {
    var pm, pl, pn := lo + n / 2, lo, lo + n - 1;
    if n == 7 then pm
    else if n <= 40 then Med3(a, pl, pm, pn, cmp)
    else
      var d := n / 8;
      Med3(a, Med3(a, pl, pl + d, pl + 2 * d, cmp), Med3(a, pm - d, pm, pm + d, cmp),
           Med3(a, pn - 2 * d, pn - d, pn, cmp), cmp)
  }

  /** The requested range lies entirely on one side of `[lo, hi)`, so this part is left as it is. */
  predicate Pruned(lo: nat, hi: nat, l: nat, r: nat) {
    (l < lo && r < lo) || (l >= hi && r >= hi)
  }

  /** Every requested position in `[b, e)` is pinned within `[lo, hi)`. */
  ghost predicate Placed<T>(cmp: (T, T) -> int, s: seq<T>, lo: nat, hi: nat, b: nat, e: nat, l: nat, r: nat)
    requires lo <= b <= e <= hi <= |s|
  {
    forall i :: b <= i < e && l <= i <= r ==> Pinned(cmp, s, lo, hi, i)
  }

  /** Nothing in `[lo, m)` is larger than anything in `[m, hi)`. */
  ghost predicate Below<T>(cmp: (T, T) -> int, s: seq<T>, lo: nat, m: nat, hi: nat)
    requires lo <= m <= hi <= |s|
  {
    forall j, k :: lo <= j < m <= k < hi ==> Order(cmp, s[j], s[k]) <= 0
  }

  lemma SortedPlaces<T>(cmp: (T, T) -> int, s: seq<T>, lo: nat, hi: nat, l: nat, r: nat)
    requires lo <= hi <= |s| && Sorted(cmp, s, lo, hi)
    ensures Placed(cmp, s, lo, hi, lo, hi, l, r)
    ensures Below(cmp, s, lo, hi, hi)
  {
  }

  /** Rearranging the smaller elements among themselves keeps the partition. */
  lemma ThreeWayShuffled<T>(cmp: (T, T) -> int, s: seq<T>, t: seq<T>, lo: nat, m: nat, w: nat, hi: nat, p: T)
    requires ThreeWay(cmp, s, lo, m, w, hi, p) && Shuffled(s, t, lo, m)
    ensures ThreeWay(cmp, t, lo, m, w, hi, p)
  {
    forall k | lo <= k < hi
      ensures k < m ==> Order(cmp, t[k], p) < 0
      ensures k >= m ==> t[k] == s[k]
    {
      if k < m {
        var k' := ShuffledOrigin(s, t, lo, m, k);
      } else {
        assert t[k] == t[m..][k - m] == s[m..][k - m] == s[k];
      }
    }
  }

  lemma ThreeWayBelow<T(!new)>(cmp: (T, T) -> int, s: seq<T>, lo: nat, m: nat, w: nat, hi: nat, p: T)
    requires Preorder(cmp) && ThreeWay(cmp, s, lo, m, w, hi, p)
    ensures Below(cmp, s, lo, m, hi) && Below(cmp, s, lo, w, hi)
    ensures forall i, k :: m <= i < w && m <= k < hi ==> Order(cmp, s[i], s[k]) <= 0
  {
    forall j, k | lo <= j < k < hi && (j < w && (m <= j || m <= k)) ensures Order(cmp, s[j], s[k]) <= 0 {
      StrictlyFlips(cmp, s[k], p);
      assert Order(cmp, s[j], p) <= 0 && Order(cmp, p, s[k]) <= 0;
    }
    forall i, k | m <= i < w && m <= k < hi ensures Order(cmp, s[i], s[k]) <= 0 {
      StrictlyFlips(cmp, s[k], p);
      assert Order(cmp, s[i], p) <= 0 && Order(cmp, p, s[k]) <= 0;
    }
  }

  /** Once the smaller elements are in place, so are those equal to the pivot. */
  lemma PartitionPlaces<T(!new)>(cmp: (T, T) -> int, s: seq<T>, lo: nat, m: nat, w: nat, hi: nat, p: T, l: nat, r: nat)
    requires Preorder(cmp) && ThreeWay(cmp, s, lo, m, w, hi, p)
    requires Placed(cmp, s, lo, m, lo, m, l, r)
    ensures Placed(cmp, s, lo, hi, lo, w, l, r) && Below(cmp, s, lo, w, hi)
  {
    ThreeWayBelow(cmp, s, lo, m, w, hi, p);
    hide Preorder, ThreeWay;
    forall i | lo <= i < w && l <= i <= r ensures Pinned(cmp, s, lo, hi, i) {
      if i < m {
        assert Pinned(cmp, s, lo, m, i);
      }
    }
  }

  /** A part with at most one element, or outside the requested range, needs no work. */
  lemma NothingToPlace<T(!new)>(cmp: (T, T) -> int, s: seq<T>, lo: nat, hi: nat, l: nat, r: nat)
    requires lo <= hi <= |s| && (hi - lo <= 1 || Pruned(lo, hi, l, r))
    ensures Placed(cmp, s, lo, hi, lo, hi, l, r)
  {
  }

  /** What has been placed so far, and what a pass over the rest `[lo, hi)` adds to it. */
  lemma PassExtends<T>(cmp: (T, T) -> int, s: seq<T>, t: seq<T>, lo0: nat, lo: nat, w: nat, hi: nat, l: nat, r: nat)
    requires lo0 <= lo <= w <= hi && Shuffled(s, t, lo, hi)
    requires Placed(cmp, s, lo0, hi, lo0, lo, l, r) && Below(cmp, s, lo0, lo, hi)
    requires Placed(cmp, t, lo, hi, lo, w, l, r) && Below(cmp, t, lo, w, hi)
    ensures Placed(cmp, t, lo0, hi, lo0, w, l, r) && Below(cmp, t, lo0, w, hi)
  {
    assert forall k :: 0 <= k < lo ==> t[k] == t[..lo][k] == s[..lo][k] == s[k];
    forall k | lo <= k < hi ensures forall j :: lo0 <= j < lo ==> Order(cmp, t[j], t[k]) <= 0 {
      var k' := ShuffledOrigin(s, t, lo, hi, k);
    }
    forall i | lo0 <= i < w && l <= i <= r ensures Pinned(cmp, t, lo0, hi, i) {
      if i < lo {
        assert Pinned(cmp, s, lo0, hi, i);
      } else {
        assert Pinned(cmp, t, lo, hi, i);
      }
    }
  }

  lemma RestPlaces<T(!new)>(cmp: (T, T) -> int, s: seq<T>, lo0: nat, w: nat, hi: nat, l: nat, r: nat)
    requires lo0 <= w <= hi <= |s| && Placed(cmp, s, lo0, hi, lo0, w, l, r) && Below(cmp, s, lo0, w, hi)
    requires hi - w <= 1 || Pruned(w, hi, l, r)
    ensures Placed(cmp, s, lo0, hi, lo0, hi, l, r)
  {
  }

  /**
   One pass of `loop:` over `[lo, hi)`, with the recursive call for the smaller elements.
   Afterwards only `[w, hi)` may still be out of place; `w == hi` after an insertion sort.
   */
  method PqsortPass<T(!new)>(a: array<T>, lo: nat, hi: nat, cmp: (T, T) -> int, l: nat, r: nat) returns (w: nat)
    requires Preorder(cmp) && lo < hi <= a.Length && l <= r
    modifies a
    ensures lo < w <= hi && Shuffled(old(a[..]), a[..], lo, hi)
    ensures Placed(cmp, a[..], lo, hi, lo, w, l, r) && Below(cmp, a[..], lo, w, hi)
    decreases hi - lo, 0
  {
    hide *;
    ghost var s0 := a[..];
    var n := hi - lo;
    if n < 7 {
      InsertionSort(a, lo, n, cmp);
      SortedPlaces(cmp, a[..], lo, hi, l, r);
      return hi;
    }
    var pm := Pivot(a[..], lo, n, cmp);
    Swap(a, lo, pm);
    ghost var s := a[..];
    ShuffledSelf(s0, lo, hi);
    ShuffledSwap(s0, s0, s, lo, hi, lo, pm);
    var pa, pb, pc, pd, swapped := Partition(a, lo, hi, cmp);
    ShuffledTrans(s0, s, a[..], lo, hi);
    s := a[..];
    if !swapped {
      InsertionSort(a, lo, n, cmp);
      ShuffledTrans(s0, s, a[..], lo, hi);
      SortedPlaces(cmp, a[..], lo, hi, l, r);
      return hi;
    }
    LayoutBounds(cmp, s, lo, hi, pa, pb, pc, pd);
    ghost var p := a[lo];
    Gather(a, lo, hi, cmp, pa, pb, pc, pd);
    ShuffledTrans(s0, s, a[..], lo, hi);
    s := a[..];
    var m;
    m, w := lo + (pb - pa), hi - (pd - pc);
    ThreeWayBounds(cmp, s, lo, m, w, hi, p);
    if m - lo > 1 && !Pruned(lo, m, l, r) {
      PqsortRange(a, lo, m - lo, cmp, l, r);
      ThreeWayShuffled(cmp, s, a[..], lo, m, w, hi, p);
      ShuffledWider(s, a[..], lo, m, lo, hi);
      ShuffledTrans(s0, s, a[..], lo, hi);
    } else {
      NothingToPlace(cmp, s, lo, m, l, r);
    }
    PartitionPlaces(cmp, a[..], lo, m, w, hi, p, l, r);
  }

  lemma ShuffledSelf<T>(s: seq<T>, lo: nat, hi: nat)
    requires lo <= hi <= |s|
    ensures Shuffled(s, s, lo, hi)
  {
  }

  lemma LayoutBounds<T>(cmp: (T, T) -> int, s: seq<T>, lo: nat, hi: nat, pa: nat, pb: nat, pc: nat, pd: nat)
    requires Layout(cmp, s, lo, hi, pa, pb, pc, pd)
    ensures lo < pa <= pb <= pc + 1 && pc <= pd < hi <= |s|
  {
  }

  lemma ThreeWayBounds<T>(cmp: (T, T) -> int, s: seq<T>, lo: nat, m: nat, w: nat, hi: nat, p: T)
    requires ThreeWay(cmp, s, lo, m, w, hi, p)
    ensures lo <= m < w <= hi <= |s|
  {
  }

  /** `_pqsort`: the larger elements are handled by going round the loop again. */
  method PqsortRange<T(!new)>(a: array<T>, lo0: nat, n: nat, cmp: (T, T) -> int, l: nat, r: nat)
    requires Preorder(cmp) && 0 < n && lo0 + n <= a.Length && l <= r
    modifies a
    ensures Shuffled(old(a[..]), a[..], lo0, lo0 + n)
    ensures Placed(cmp, a[..], lo0, lo0 + n, lo0, lo0 + n, l, r)
    decreases n, 1
  {
    var lo, hi, more := lo0, lo0 + n, true;
    ghost var s0, s := a[..], a[..];
    assert Shuffled(s0, s, lo0, hi) && Placed(cmp, s, lo0, hi, lo0, lo, l, r) && Below(cmp, s, lo0, lo, hi);
    hide *;
    while more
      invariant lo0 <= lo <= hi && s == a[..] && (more ==> lo < hi) && Shuffled(s0, s, lo0, hi)
      invariant Placed(cmp, s, lo0, hi, lo0, lo, l, r) && Below(cmp, s, lo0, lo, hi)
      invariant !more ==> Placed(cmp, s, lo0, hi, lo0, hi, l, r)
      decreases more, hi - lo
    {
      var w := PqsortPass(a, lo, hi, cmp, l, r);
      PassExtends(cmp, s, a[..], lo0, lo, w, hi, l, r);
      ShuffledWider(s, a[..], lo, hi, lo0, hi);
      ShuffledTrans(s0, s, a[..], lo0, hi);
      s := a[..];
      more := hi - w > 1 && !Pruned(w, hi, l, r);
      if !more {
        RestPlaces(cmp, s, lo0, w, hi, l, r);
      }
      lo := w;
    }
  }

  /** Afterwards every position of the requested range holds an element of its own rank. */
  method Pqsort<T(!new)>(a: array<T>, cmp: (T, T) -> int, l: nat, r: nat)
    requires Preorder(cmp) && l <= r < a.Length
    modifies a
    ensures multiset(a[..]) == multiset(old(a[..]))
    ensures forall i :: l <= i <= r ==> Pinned(cmp, a[..], 0, a.Length, i)
  {
    PqsortRange(a, 0, a.Length, cmp, l, r);
  }

  /**
   What the pinned range amounts to: it is sorted, nothing before it is larger, nothing after it
   is smaller, and it agrees with the same stretch of every sorted arrangement of the elements.
   */
  lemma PinnedRangeIsPartialSort<T(!new)>(cmp: (T, T) -> int, s: seq<T>, l: nat, r: nat, t: seq<T>)
    requires Preorder(cmp) && l <= r < |s|
    requires forall i :: l <= i <= r ==> Pinned(cmp, s, 0, |s|, i)
    requires multiset(s) == multiset(t) && |t| == |s| && Sorted(cmp, t, 0, |t|)
    ensures Sorted(cmp, s, l, r + 1)
    ensures forall i, j :: 0 <= i < l <= j <= r ==> Order(cmp, s[i], s[j]) <= 0
    ensures forall i, j :: l <= i <= r < j < |s| ==> Order(cmp, s[i], s[j]) <= 0
    ensures forall i :: l <= i <= r ==> Order(cmp, s[i], t[i]) == 0
  {
    forall i | l <= i <= r
      ensures Order(cmp, s[i], t[i]) == 0
      ensures forall j :: 0 <= j < i ==> Order(cmp, s[j], s[i]) <= 0
      ensures forall j :: i < j < |s| ==> Order(cmp, s[i], s[j]) <= 0
    {
      assert Pinned(cmp, s, 0, |s|, i);
      PinnedIsRank(cmp, s, i, t);
    }
  }
}
