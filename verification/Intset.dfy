/**
 The packed sets of integers of intset.c: a sorted array of 2, 4 or 8 byte words in a byte buffer,
 widened in place when a value does not fit.
 */
module Intset {
  import opened Bytes
  import opened Sequences
  import opened Words
  import opened Decimal

  const ENC_INT16 := 2
  const ENC_INT32 := 4
  const ENC_INT64 := 8

  predicate IsEncoding(w: nat) {
    w == ENC_INT16 || w == ENC_INT32 || w == ENC_INT64
  }

  /** `_intsetValueEncoding`. */
  function ValueEncoding(v: int): (w: nat)
    ensures IsEncoding(w)
  {
    if v < -0x8000_0000 || v > 0x7fff_ffff then ENC_INT64
    else if v < -0x8000 || v > 0x7fff then ENC_INT32
    else ENC_INT16
  }

  /** An encoding holds exactly the values that ask for it or for a narrower one. */
  lemma EncodingIsTight(v: int, w: nat)
    requires IsEncoding(w) && InRange(v)
    ensures FitsBytes(v, w) <==> ValueEncoding(v) <= w
  {
    Powers();
  }

  // ------------------------------------------------------------------
  // The buffer
  // ------------------------------------------------------------------

  /** Where word `i` starts. */
  function Off(w: nat, i: int): int
    requires IsEncoding(w)
  {
    if w == ENC_INT16 then 2 * i else if w == ENC_INT32 then 4 * i else 8 * i
  }

  lemma OffFacts(w: nat, i: nat, j: nat)
    requires IsEncoding(w)
    ensures Off(w, 0) == 0 && Off(w, i) >= 0 && Off(w, i + 1) == Off(w, i) + w
    ensures i < j ==> Off(w, i) + w <= Off(w, j)
    ensures i <= j ==> Off(w, i) <= Off(w, j) && Off(w, j - i) == Off(w, j) - Off(w, i)
  {
  }

  lemma WiderOff(w: nat, w': nat, i: nat, j: nat)
    requires IsEncoding(w) && IsEncoding(w') && w < w' && i <= j
    ensures Off(w, i) <= Off(w', j)
  {
  }

  /** `_intsetGetEncoded`. */
  function Get(s: seq<u8>, w: nat, i: nat): int
    requires IsEncoding(w) && 0 <= Off(w, i) && Off(w, i) + w <= |s|
  {
    FromBytes(s[Off(w, i)..Off(w, i) + w])
  }

  ghost predicate Holds(s: seq<u8>, w: nat, i: nat, v: int)
    requires IsEncoding(w)
  {
    0 <= Off(w, i) && Off(w, i) + w <= |s| && Get(s, w, i) == v
  }

  /** The first words of the buffer are these numbers. */
  ghost predicate Encodes(s: seq<u8>, w: nat, elems: seq<int>)
    requires IsEncoding(w)
  {
    forall i :: 0 <= i < |elems| ==> Holds(s, w, i, elems[i])
  }

  predicate Increasing(elems: seq<int>) {
    forall i, j :: 0 <= i < j < |elems| ==> elems[i] < elems[j]
  }

  /** The words of `s` from `i` on appear in `s'` from `i'` on. */
  lemma SameWord(s: seq<u8>, s': seq<u8>, w: nat, i: nat, i': nat, v: int)
    requires IsEncoding(w) && Holds(s, w, i, v) && 0 <= Off(w, i') && Off(w, i') + w <= |s'|
    requires s'[Off(w, i')..Off(w, i') + w] == s[Off(w, i)..Off(w, i) + w]
    ensures Holds(s', w, i', v)
  {
  }

  /** Bytes overwritten from position `at` on. */
  function Splice(s: seq<u8>, at: nat, b: seq<u8>): (s': seq<u8>)
    requires at + |b| <= |s|
    ensures |s'| == |s|
  {
    s[..at] + b + s[at + |b|..]
  }

  lemma SpliceIs(s: seq<u8>, at: nat, b: seq<u8>, lo: nat, hi: nat)
    requires at + |b| <= |s| && lo <= hi <= |s|
    ensures lo == at && hi == at + |b| ==> Splice(s, at, b)[lo..hi] == b
    ensures hi <= at || at + |b| <= lo ==> Splice(s, at, b)[lo..hi] == s[lo..hi]
  {
    var r := Splice(s, at, b);
    if hi <= at {
      assert r[lo..hi] == s[lo..hi];
    } else if at + |b| <= lo {
      assert forall k :: lo <= k < hi ==> r[k] == s[k];
      assert r[lo..hi] == s[lo..hi];
    }
  }

  /** Storing a word: it is held then, and so are the words, of any width, before and after it. */
  lemma StoredHolds(s: seq<u8>, w: nat, i: nat, v: int)
    requires IsEncoding(w) && 0 <= Off(w, i) && Off(w, i) + w <= |s| && FitsBytes(v, w)
    ensures Holds(Splice(s, Off(w, i), ToBytes(v, w)), w, i, v)
  {
    hide Off, FromBytes, ToBytes, FitsBytes;
    BytesRoundTrip(v, w);
    SpliceIs(s, Off(w, i), ToBytes(v, w), Off(w, i), Off(w, i) + w);
  }

  lemma StoredElsewhere(s: seq<u8>, w: nat, i: nat, v: int, w': nat, j: nat, x: int)
    requires IsEncoding(w) && 0 <= Off(w, i) && Off(w, i) + w <= |s| && FitsBytes(v, w)
    requires IsEncoding(w') && 0 <= Off(w', j) && Holds(s, w', j, x)
    requires Off(w', j) + w' <= Off(w, i) || Off(w, i) + w <= Off(w', j)
    ensures Holds(Splice(s, Off(w, i), ToBytes(v, w)), w', j, x)
  {
    hide Off, FromBytes, ToBytes, FitsBytes;
    SpliceIs(s, Off(w, i), ToBytes(v, w), Off(w', j), Off(w', j) + w');
  }

  lemma SpliceInside(s: seq<u8>, at: nat, b: seq<u8>, lo: nat, hi: nat)
    requires at + |b| <= |s| && lo <= hi <= |b|
    ensures Splice(s, at, b)[at + lo..at + hi] == b[lo..hi]
  {
  }

  /** Moving the words from `from` to the last one: what is before both places stays, the tail is held at its new place. */
  lemma TailMoved(s: seq<u8>, w: nat, from: nat, to: nat, elems: seq<int>, j: nat)
    requires IsEncoding(w) && from <= |elems| && j < |elems| && Holds(s, w, j, elems[j])
    requires Off(w, |elems|) <= |s| && Off(w, to) + Off(w, |elems| - from) <= |s|
    ensures 0 <= Off(w, from) <= Off(w, |elems|) && 0 <= Off(w, to)
    ensures Off(w, |elems|) - Off(w, from) == Off(w, |elems| - from)
    ensures var s' := Splice(s, Off(w, to), s[Off(w, from)..Off(w, |elems|)]);
            && (j < from && j < to ==> Holds(s', w, j, elems[j]))
            && (from <= j ==> Holds(s', w, j - from + to, elems[j]))
  {
    hide Off, FromBytes, Splice;
    var n := |elems|;
    OffFacts(w, from, n);
    OffFacts(w, to, to);
    OffFacts(w, j, to);
    OffFacts(w, j, n);
    var b := s[Off(w, from)..Off(w, n)];
    var s' := Splice(s, Off(w, to), b);
    if j < from && j < to {
      SpliceIs(s, Off(w, to), b, Off(w, j), Off(w, j) + w);
      SameWord(s, s', w, j, j, elems[j]);
    }
    if from <= j {
      var k := j - from;
      OffFacts(w, from, j);
      OffShift(w, to, k);
      SpliceInside(s, Off(w, to), b, Off(w, k), Off(w, k) + w);
      SliceOfSlice(s, Off(w, from), Off(w, n), Off(w, k), Off(w, k) + w);
      SameWord(s, s', w, j, k + to, elems[j]);
    }
  }

  lemma SliceOfSlice(s: seq<u8>, a: nat, n: nat, lo: nat, hi: nat)
    requires a <= n <= |s| && lo <= hi <= n - a
    ensures s[a..n][lo..hi] == s[a + lo..a + hi]
  {
    assert forall k :: 0 <= k < hi - lo ==> s[a..n][lo..hi][k] == s[a + lo..a + hi][k];
  }

  lemma OffShift(w: nat, to: nat, k: nat)
    requires IsEncoding(w)
    ensures Off(w, k + to) == Off(w, to) + Off(w, k)
  {
  }

  /** One step of widening from the back: words still to be read are narrower and lie before the place written. */
  lemma WidenStep(s: seq<u8>, w: nat, w': nat, i: nat, prepend: nat, elems: seq<int>)
    requires IsEncoding(w) && IsEncoding(w') && w < w' && i < |elems| && FitsBytes(elems[i], w')
    requires |s| == Off(w', |elems| + 1) && prepend <= 1
    requires forall j :: 0 <= j <= i ==> Holds(s, w, j, elems[j])
    requires forall j :: i < j < |elems| ==> Holds(s, w', j + prepend, elems[j])
    ensures 0 <= Off(w', i + prepend) && Off(w', i + prepend) + w' <= |s|
    ensures var s' := Splice(s, Off(w', i + prepend), ToBytes(elems[i], w'));
            && (forall j :: 0 <= j < i ==> Holds(s', w, j, elems[j]))
            && (forall j :: i <= j < |elems| ==> Holds(s', w', j + prepend, elems[j]))
  {
    hide Off, FromBytes, Splice, ToBytes, FitsBytes;
    OffFacts(w', i + prepend, |elems| + 1);
    var s' := Splice(s, Off(w', i + prepend), ToBytes(elems[i], w'));
    StoredHolds(s, w', i + prepend, elems[i]);
    forall j | 0 <= j < i ensures Holds(s', w, j, elems[j]) {
      OffFacts(w, j, i);
      WiderOff(w, w', i, i + prepend);
      StoredElsewhere(s, w', i + prepend, elems[i], w, j, elems[j]);
    }
    forall j | i < j < |elems| ensures Holds(s', w', j + prepend, elems[j]) {
      OffFacts(w', i + prepend, j + prepend);
      StoredElsewhere(s, w', i + prepend, elems[i], w', j + prepend, elems[j]);
    }
  }

  /** The value written into the free place completes the words. */
  lemma InsertCompletes(s: seq<u8>, w: nat, pos: nat, v: int, elems: seq<int>)
    requires IsEncoding(w) && FitsBytes(v, w) && |s| == Off(w, |elems| + 1) && pos <= |elems|
    requires forall j :: 0 <= j < pos ==> Holds(s, w, j, elems[j])
    requires forall j :: pos <= j < |elems| ==> Holds(s, w, j + 1, elems[j])
    ensures 0 <= Off(w, pos) && Off(w, pos) + w <= |s|
    ensures Encodes(Splice(s, Off(w, pos), ToBytes(v, w)), w, Put(elems, pos, v))
  {
    hide Off, FromBytes, Splice, ToBytes, FitsBytes;
    OffFacts(w, pos, |elems| + 1);
    var s' := Splice(s, Off(w, pos), ToBytes(v, w));
    var r := Put(elems, pos, v);
    StoredHolds(s, w, pos, v);
    forall i | 0 <= i < |r| ensures Holds(s', w, i, r[i]) {
      if i < pos {
        OffFacts(w, i, pos);
        StoredElsewhere(s, w, pos, v, w, i, r[i]);
      } else if i > pos {
        OffFacts(w, pos, i);
        assert Holds(s, w, (i - 1) + 1, elems[i - 1]);
        StoredElsewhere(s, w, pos, v, w, i, r[i]);
      }
    }
  }

  // ------------------------------------------------------------------
  // The set
  // ------------------------------------------------------------------

  /** Where a value belongs in increasing numbers. */
  ghost predicate Belongs(elems: seq<int>, pos: nat, v: int) {
    pos <= |elems| && (forall i :: 0 <= i < pos ==> elems[i] < v) && forall i :: pos <= i < |elems| ==> v < elems[i]
  }

  lemma InsertedIncreases(elems: seq<int>, pos: nat, v: int)
    requires Increasing(elems) && Belongs(elems, pos, v)
    ensures Increasing(Put(elems, pos, v)) && v !in elems
    ensures (set x | x in Put(elems, pos, v)) == (set x | x in elems) + {v}
  {
    var r := Put(elems, pos, v);
    assert forall i :: 0 <= i < |r| ==> r[i] == if i < pos then elems[i] else if i == pos then v else elems[i - 1];
    assert r[pos] == v;
    forall x | x in elems ensures x in r {
      var i :| 0 <= i < |elems| && elems[i] == x;
      assert r[if i < pos then i else i + 1] == x;
    }
  }

  lemma RemovedIncreases(elems: seq<int>, pos: nat)
    requires Increasing(elems) && pos < |elems|
    ensures Increasing(Cut(elems, pos))
    ensures (set x | x in Cut(elems, pos)) == (set x | x in elems) - {elems[pos]}
  {
    var r := Cut(elems, pos);
    assert forall i :: 0 <= i < |r| ==> r[i] == if i < pos then elems[i] else elems[i + 1];
    forall x | x in elems && x != elems[pos] ensures x in r {
      var i :| 0 <= i < |elems| && elems[i] == x;
      assert r[if i < pos then i else i - 1] == x;
    }
  }

  /** A value that needs a wider encoding lies outside the range of the elements. */
  lemma OutOfRange(elems: seq<int>, w: nat, v: int)
    requires IsEncoding(w) && ValueEncoding(v) > w && InRange(v)
    requires forall i :: 0 <= i < |elems| ==> FitsBytes(elems[i], w)
    ensures Belongs(elems, if v < 0 then 0 else |elems|, v) && v !in elems
  {
    Powers();
  }

  class Intset {
    var encoding: nat
    var length: nat
    var contents: array<u8>
    /** The numbers in the buffer. */
    ghost var elems: seq<int>

    ghost predicate Valid()
      reads this, contents
    {
      && IsEncoding(encoding) && length == |elems| && contents.Length == Off(encoding, length)
      && Encodes(contents[..], encoding, elems) && Increasing(elems)
      && forall i :: 0 <= i < |elems| ==> FitsBytes(elems[i], encoding)
    }

    /** The abstract set. */
    ghost function Elements(): set<int>
      reads this
    {
      set x | x in elems
    }

    /** `intsetNew`. */
    constructor ()
      ensures Valid() && Elements() == {} && encoding == ENC_INT16 && fresh(contents)
    {
      encoding, length, contents, elems := ENC_INT16, 0, new u8[0], [];
    }

    /** `_intsetGet`. */
    method GetAt(pos: nat) returns (v: int)
      requires Valid() && pos < length
      ensures v == elems[pos]
    {
      assert Holds(contents[..], encoding, pos, elems[pos]);
      var at := Off(encoding, pos);
      assert contents[at..at + encoding] == contents[..][at..at + encoding];
      v := FromBytes(contents[at..at + encoding]);
    }

    /** `intsetSearch`: the position of the value, or the one where it belongs. */
    method Search(value: int) returns (found: bool, pos: nat)
      requires Valid()
      ensures found ==> pos < length && elems[pos] == value
      ensures !found ==> Belongs(elems, pos, value)
    {
      hide Encodes, Off;
      if length == 0 {
        return false, 0;
      }
      var last := GetAt(length - 1);
      if value > last {
        return false, length;
      }
      var first := GetAt(0);
      if value < first {
        return false, 0;
      }
      var min, max, mid, cur: int := 0, length - 1, -1, -1;
      while max >= min
        invariant 0 <= min <= length && min - 1 <= max < length
        invariant forall i :: 0 <= i < min ==> elems[i] < value
        invariant forall i :: max < i < length ==> value < elems[i]
        invariant (min == 0 && max == length - 1) || (0 <= mid < length && cur == elems[mid] && cur != value)
      {
        mid := (min + max) / 2;
        cur := GetAt(mid);
        if value > cur {
          min := mid + 1;
        } else if value < cur {
          max := mid - 1;
        } else {
          break;
        }
      }
      if value == cur {
        return true, mid;
      }
      found, pos := false, min;
    }

    /** `intsetFind`: a value that needs a wider encoding is not searched for. */
    method Find(value: int) returns (found: bool)
      requires Valid() && InRange(value)
      ensures found == (value in Elements())
    {
      hide Encodes, Off, FitsBytes;
      if ValueEncoding(value) > encoding {
        OutOfRange(elems, encoding, value);
        return false;
      }
      var pos;
      found, pos := Search(value);
    }

    /** `intsetResize`: the buffer keeps the bytes that fit, new ones are arbitrary. */
    method Resize(len: nat)
      requires IsEncoding(encoding)
      modifies this`contents
      ensures fresh(contents) && contents.Length == Off(encoding, len)
      ensures forall k :: 0 <= k < contents.Length && k < old(contents.Length) ==> contents[k] == old(contents[k])
    {
      OffFacts(encoding, len, len);
      var buf := new u8[Off(encoding, len)];
      forall k | 0 <= k < buf.Length && k < contents.Length {
        buf[k] := contents[k];
      }
      contents := buf;
    }

    /** `_intsetSet`. */
    method SetAt(pos: nat, v: int)
      requires IsEncoding(encoding) && 0 <= Off(encoding, pos) && Off(encoding, pos) + encoding <= contents.Length
      requires FitsBytes(v, encoding)
      modifies contents
      ensures contents[..] == Splice(old(contents[..]), Off(encoding, pos), ToBytes(v, encoding))
    {
      hide ToBytes, FitsBytes, Off;
      var at, b := Off(encoding, pos), ToBytes(v, encoding);
      forall k | 0 <= k < encoding {
        contents[at + k] := b[k];
      }
    }

    /** `intsetMoveTail`: the words from `from` to the last one move to where word `to` starts. */
    method MoveTail(from: nat, to: nat)
      requires IsEncoding(encoding) && from <= length
      requires Off(encoding, length) <= contents.Length && Off(encoding, to) + Off(encoding, length - from) <= contents.Length
      modifies contents
      ensures 0 <= Off(encoding, from) <= Off(encoding, length) && 0 <= Off(encoding, to)
      ensures Off(encoding, length) - Off(encoding, from) == Off(encoding, length - from)
      ensures contents[..] ==
              Splice(old(contents[..]), Off(encoding, to), old(contents[Off(encoding, from)..Off(encoding, length)]))
    {
      hide Off;
      OffFacts(encoding, from, length);
      OffFacts(encoding, to, to);
      var src, dst, bytes := Off(encoding, from), Off(encoding, to), Off(encoding, length - from);
      forall k | 0 <= k < bytes {
        contents[dst + k] := contents[src + k];
      }
    }

    /** The loop of `intsetUpgradeAndAdd`, from the last word to the first. */
    method Widen(curenc: nat, prepend: nat)
      requires IsEncoding(curenc) && IsEncoding(encoding) && curenc < encoding && prepend <= 1 && length == |elems|
      requires contents.Length == Off(encoding, length + 1)
      requires forall j :: 0 <= j < length ==> Holds(contents[..], curenc, j, elems[j]) && FitsBytes(elems[j], encoding)
      modifies contents
      ensures forall j :: 0 <= j < length ==> Holds(contents[..], encoding, j + prepend, elems[j])
    {
      hide Off, FromBytes, Splice, ToBytes, FitsBytes;
      var len := length;
      ghost var s := contents[..];
      while len > 0
        invariant 0 <= len <= length && s == contents[..]
        invariant forall j :: 0 <= j < len ==> Holds(s, curenc, j, elems[j])
        invariant forall j :: len <= j < length ==> Holds(s, encoding, j + prepend, elems[j])
      {
        len := len - 1;
        WidenStep(s, curenc, encoding, len, prepend, elems);
        assert Holds(s, curenc, len, elems[len]);
        var at := Off(curenc, len);
        assert contents[at..at + curenc] == s[at..at + curenc];
        SetAt(len + prepend, FromBytes(contents[at..at + curenc]));
        s := contents[..];
      }
    }

    /** `intsetUpgradeAndAdd`. */
    method UpgradeAndAdd(value: int)
      requires Valid() && InRange(value) && ValueEncoding(value) > encoding
      modifies this, contents
      ensures Valid() && fresh(contents) && encoding == ValueEncoding(value)
      ensures elems == Put(old(elems), if value < 0 then 0 else |old(elems)|, value)
      ensures value !in old(Elements()) && Elements() == old(Elements()) + {value}
    {
      hide Off, FromBytes, Splice, ToBytes, FitsBytes, Increasing, Belongs;
      var curenc, newenc := encoding, ValueEncoding(value);
      ghost var before := contents[..];
      ghost var pos := if value < 0 then 0 else length;
      OutOfRange(elems, curenc, value);
      InsertedIncreases(elems, pos, value);
      WiderFits(elems, curenc, newenc);
      EncodingIsTight(value, newenc);
      OffFacts(curenc, length, length + 1);
      WiderOff(curenc, newenc, length, length + 1);
      encoding := newenc;
      Resize(length + 1);
      PrefixHolds(before, contents[..], curenc, elems);
      Widen(curenc, if value < 0 then 1 else 0);
      if value >= 0 {
        assert forall j :: 0 <= j < length ==> Holds(contents[..], newenc, j + 0, elems[j]);
      }
      InsertCompletes(contents[..], newenc, pos, value, elems);
      if value < 0 {
        SetAt(0, value);
      } else {
        SetAt(length, value);
      }
      elems, length := Put(elems, pos, value), length + 1;
    }

    /** Makes room at a position and stores the value there. */
    method InsertAt(pos: nat, value: int)
      requires Valid() && Belongs(elems, pos, value) && FitsBytes(value, encoding)
      modifies this, contents
      ensures Valid() && fresh(contents) && encoding == old(encoding) && elems == Put(old(elems), pos, value)
    {
      hide Off, FromBytes, Splice, ToBytes, FitsBytes, Increasing, Belongs;
      PositionInRange(elems, pos, value);
      InsertedIncreases(elems, pos, value);
      ghost var before := contents[..];
      OffFacts(encoding, length, length + 1);
      OffFacts(encoding, pos, length);
      OffShift(encoding, pos + 1, length - pos);
      Resize(length + 1);
      PrefixHolds(before, contents[..], encoding, elems);
      ghost var s := contents[..];
      if pos < length {
        forall j | 0 <= j < length
          ensures j < pos ==> Holds(TailAt(s, encoding, pos, pos + 1, length), encoding, j, elems[j])
          ensures pos <= j ==> Holds(TailAt(s, encoding, pos, pos + 1, length), encoding, j + 1, elems[j])
        {
          assert Holds(s, encoding, j, elems[j]);
          TailMoved(s, encoding, pos, pos + 1, elems, j);
        }
        MoveTail(pos, pos + 1);
        assert contents[..] == TailAt(s, encoding, pos, pos + 1, length);
      }
      InsertCompletes(contents[..], encoding, pos, value, elems);
      SetAt(pos, value);
      elems, length := Put(elems, pos, value), length + 1;
    }

    /** `intsetAdd`. */
    method Add(value: int) returns (success: bool)
      requires Valid() && InRange(value)
      modifies this, contents
      ensures Valid() && (contents == old(contents) || fresh(contents))
      ensures success == (value !in old(Elements())) && Elements() == old(Elements()) + {value}
      ensures encoding == Max(old(encoding), ValueEncoding(value))
    {
      hide Off, Encodes, FitsBytes, Put, Increasing;
      if ValueEncoding(value) > encoding {
        UpgradeAndAdd(value);
        return true;
      }
      var found, pos := Search(value);
      if found {
        return false;
      }
      EncodingIsTight(value, encoding);
      ValidIncreases();
      InsertedIncreases(elems, pos, value);
      InsertAt(pos, value);
      success := true;
    }

    lemma ValidIncreases()
      requires Valid()
      ensures Increasing(elems)
    {
    }

    /** Takes the word at a position out, by moving the tail over it. */
    method RemoveAt(pos: nat)
      requires Valid() && pos < length
      modifies this, contents
      ensures Valid() && fresh(contents) && encoding == old(encoding) && elems == Cut(old(elems), pos)
    {
      hide Off, FromBytes, Splice, FitsBytes, Increasing;
      RemovedIncreases(elems, pos);
      ghost var s := contents[..];
      ghost var r := Cut(elems, pos);
      OffFacts(encoding, length - 1, length);
      OffFacts(encoding, pos, pos + 1);
      OffFacts(encoding, pos + 1, length);
      if pos < length - 1 {
        forall j | 0 <= j < length
          ensures j < pos ==> Holds(TailAt(s, encoding, pos + 1, pos, length), encoding, j, elems[j])
          ensures pos + 1 <= j ==> Holds(TailAt(s, encoding, pos + 1, pos, length), encoding, j - 1, elems[j])
        {
          assert Holds(s, encoding, j, elems[j]);
          TailMoved(s, encoding, pos + 1, pos, elems, j);
        }
        MoveTail(pos + 1, pos);
        assert contents[..] == TailAt(s, encoding, pos + 1, pos, length);
        forall i | 0 <= i < |r| ensures Holds(contents[..], encoding, i, r[i]) {
          if i >= pos {
            assert Holds(contents[..], encoding, (i + 1) - 1, elems[i + 1]);
          }
        }
      } else {
        forall i | 0 <= i < |r| ensures Holds(contents[..], encoding, i, r[i]) {
          assert Holds(s, encoding, i, elems[i]);
        }
      }
      ghost var moved := contents[..];
      Resize(length - 1);
      PrefixHolds(moved, contents[..], encoding, r);
      elems, length := r, length - 1;
    }

    /** `intsetRemove`. */
    method Remove(value: int) returns (success: bool)
      requires Valid() && InRange(value)
      modifies this, contents
      ensures Valid() && (contents == old(contents) || fresh(contents)) && encoding == old(encoding)
      ensures success == (value in old(Elements())) && Elements() == old(Elements()) - {value}
    {
      hide Off, Encodes, FitsBytes, Cut, Increasing;
      if ValueEncoding(value) > encoding {
        OutOfRange(elems, encoding, value);
        return false;
      }
      var pos;
      success, pos := Search(value);
      if success {
        ValidIncreases();
        RemovedIncreases(elems, pos);
        RemoveAt(pos);
      }
    }
  }

  lemma PositionInRange(elems: seq<int>, pos: nat, v: int)
    requires Belongs(elems, pos, v)
    ensures pos <= |elems|
  {
  }

  /** The buffer after its tail has moved. */
  function TailAt(s: seq<u8>, w: nat, from: nat, to: nat, n: nat): seq<u8>
    requires IsEncoding(w) && 0 <= Off(w, from) <= Off(w, n) <= |s| && 0 <= Off(w, to)
    requires Off(w, to) + Off(w, n) - Off(w, from) <= |s|
  {
    Splice(s, Off(w, to), s[Off(w, from)..Off(w, n)])
  }

  lemma WiderFits(elems: seq<int>, w: nat, w': nat)
    requires IsEncoding(w) && IsEncoding(w') && w < w' && forall i :: 0 <= i < |elems| ==> FitsBytes(elems[i], w)
    ensures forall i :: 0 <= i < |elems| ==> FitsBytes(elems[i], w')
  {
    Powers();
  }

  /** A buffer that starts with the same bytes holds the same words. */
  lemma PrefixHolds(s: seq<u8>, s': seq<u8>, w: nat, elems: seq<int>)
    requires IsEncoding(w) && Encodes(s, w, elems) && Off(w, |elems|) <= |s| && Off(w, |elems|) <= |s'|
    requires forall k :: 0 <= k < |s| && k < |s'| ==> s'[k] == s[k]
    ensures Encodes(s', w, elems)
  {
    hide FromBytes;
    forall i | 0 <= i < |elems| ensures Holds(s', w, i, elems[i]) {
      assert Holds(s, w, i, elems[i]);
      OffFacts(w, i, |elems|);
      assert s'[Off(w, i)..Off(w, i) + w] == s[Off(w, i)..Off(w, i) + w];
    }
  }
}
