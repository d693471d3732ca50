/** Sequences with an element put in or taken out, and sequences that repeat none. */
module Sequences {
  ghost predicate NoDuplicates<T>(s: seq<T>) {
    forall i, j :: 0 <= i < j < |s| ==> s[i] != s[j]
  }

  /** With one element put in at position `q`. */
  function Put<T>(s: seq<T>, q: nat, x: T): seq<T>
    requires q <= |s|
  {
    s[..q] + [x] + s[q..]
  }

  /** With the element at position `p` taken out. */
  function Cut<T>(s: seq<T>, p: nat): seq<T>
    requires p < |s|
  {
    s[..p] + s[p + 1..]
  }

  /** With the first occurrence of an element taken out. */
  function Without<T(==)>(s: seq<T>, x: T): seq<T> {
    if s == [] then [] else if s[0] == x then s[1..] else [s[0]] + Without(s[1..], x)
  }

  lemma PutFacts<T>(s: seq<T>, q: nat, x: T)
    requires q <= |s| && NoDuplicates(s) && x !in s
    ensures var r := Put(s, q, x);
            && NoDuplicates(r) && |r| == |s| + 1 && r[q] == x
            && (forall i :: 0 <= i < q ==> r[i] == s[i])
            && (forall i :: q < i < |r| ==> r[i] == s[i - 1])
  {
    var r := Put(s, q, x);
    assert forall i :: 0 <= i < q ==> r[i] == s[i];
    assert forall i :: q < i < |r| ==> r[i] == s[i - 1];
  }

  lemma CutFacts<T>(s: seq<T>, p: nat)
    requires p < |s| && NoDuplicates(s)
    ensures var r := Cut(s, p);
            && NoDuplicates(r) && |r| == |s| - 1
            && (forall i :: 0 <= i < p ==> r[i] == s[i])
            && (forall i :: p <= i < |r| ==> r[i] == s[i + 1])
            && forall x :: x in s <==> x == s[p] || x in r
  {
    var r := Cut(s, p);
    forall x | x in s ensures x == s[p] || x in r {
      var k :| 0 <= k < |s| && s[k] == x;
      assert k < p ==> r[k] == x;
      assert k > p ==> r[k - 1] == x;
    }
  }

  lemma {:induction false} WithoutIsCut<T>(s: seq<T>, p: nat)
    requires p < |s| && forall j :: 0 <= j < p ==> s[j] != s[p]
    ensures Without(s, s[p]) == Cut(s, p)
  {
    if p > 0 {
      WithoutIsCut(s[1..], p - 1);
      assert s[..p] == [s[0]] + s[1..][..p - 1] && s[1..][p..] == s[p + 1..];
    }
  }

  lemma {:induction false} WithoutMembers<T>(s: seq<T>, x: T)
    requires NoDuplicates(s)
    ensures NoDuplicates(Without(s, x)) && forall y :: y in Without(s, x) <==> y in s && y != x
  {
    if s != [] {
      var rest := s[1..];
      assert forall i :: 0 <= i < |rest| ==> rest[i] == s[i + 1];
      WithoutMembers(rest, x);
      if s[0] != x {
        var r := Without(s, x);
        assert r[0] == s[0] && r[1..] == Without(rest, x);
        forall i, j | 0 <= i < j < |r| ensures r[i] != r[j] {
          assert r[j] in Without(rest, x);
        }
        assert forall y :: y in r <==> y == s[0] || y in Without(rest, x);
      }
    }
  }
}
