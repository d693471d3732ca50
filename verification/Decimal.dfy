/** Decimal numbers as the server prints and reads them: `ll2string` and `string2ll` of util.c. */
module Decimal {
  import opened Bytes

  const LLONG_MIN := -0x8000_0000_0000_0000
  const LLONG_MAX := 0x7fff_ffff_ffff_ffff
  const ULLONG_MAX := 0xffff_ffff_ffff_ffff

  const ZERO: u8 := 48
  const MINUS: u8 := 45

  predicate IsDigit(b: u8) {
    48 <= b <= 57
  }

  function Digits(n: nat): (s: seq<u8>)
    ensures |s| > 0 && forall i :: 0 <= i < |s| ==> IsDigit(s[i])
  {
    if n < 10 then [48 + n] else Digits(n / 10) + [48 + n % 10]
  }

  /** The one decimal form of a number: no leading zeros, a minus sign only before a positive number. */
  function Show(v: int): (s: seq<u8>)
    ensures |s| > 0
  {
    if v < 0 then [MINUS] + Digits(-v) else Digits(v)
  }

  predicate InRange(v: int) {
    LLONG_MIN <= v <= LLONG_MAX
  }

  lemma {:induction false} LeadingDigit(n: nat)
    ensures n > 0 ==> Digits(n)[0] != ZERO
  {
    if n >= 10 {
      LeadingDigit(n / 10);
    }
  }

  lemma {:induction false} DigitsInjective(m: nat, n: nat)
    requires Digits(m) == Digits(n)
    ensures m == n
  {
    var s := Digits(m);
    if m >= 10 && n >= 10 {
      assert s[..|s| - 1] == Digits(m / 10) && s[..|s| - 1] == Digits(n / 10);
      DigitsInjective(m / 10, n / 10);
      assert s[|s| - 1] == 48 + m % 10 == 48 + n % 10;
    }
  }

  lemma FirstByte(v: int)
    ensures Show(v)[0] == MINUS <==> v < 0
  {
    assert v >= 0 ==> IsDigit(Show(v)[0]);
  }

  lemma ShowInjective(v: int, w: int)
    requires Show(v) == Show(w)
    ensures v == w
  {
    FirstByte(v);
    FirstByte(w);
    if v < 0 && w < 0 {
      assert Show(v)[1..] == Digits(-v) && Show(w)[1..] == Digits(-w);
      DigitsInjective(-v, -w);
    } else if v >= 0 && w >= 0 {
      DigitsInjective(v, w);
    }
  }

  /** The first digits of a number are those of a number that is no larger. */
  lemma {:induction false} DigitsPrefix(n: nat, k: nat) returns (m: nat)
    requires 0 < k <= |Digits(n)|
    ensures m <= n && Digits(m) == Digits(n)[..k]
  {
    var s := Digits(n);
    if k == |s| {
      m := n;
      assert s[..k] == s;
    } else {
      assert s[..|s| - 1] == Digits(n / 10);
      m := DigitsPrefix(n / 10, k);
      assert s[..k] == s[..|s| - 1][..k];
    }
  }

  /** A text that starts with the digits of `m` is not the form of a smaller number. */
  lemma StartsBigger(s: seq<u8>, m: nat, k: nat, n: nat)
    requires 0 < k <= |s| && s[..k] == Digits(m) && s == Digits(n)
    ensures m <= n
  {
    var p := DigitsPrefix(n, k);
    DigitsInjective(p, m);
  }

  /** Reading a magnitude from position `from`; fails on anything but a form that fits an unsigned word. */
  method ReadMagnitude(s: seq<u8>, from: nat) returns (ok: bool, v: nat)
    requires from < |s| && s[from] != ZERO
    ensures ok ==> 0 < v <= ULLONG_MAX && s[from..] == Digits(v)
    ensures !ok ==> forall n: nat :: n <= ULLONG_MAX ==> s[from..] != Digits(n)
  {
    ghost var t := s[from..];
    if !(49 <= s[from] <= 57) {
      assert forall n: nat :: t == Digits(n) ==> IsDigit(t[0]);
      return false, 0;
    }
    v := s[from] - 48;
    var p := from + 1;
    while p < |s| && 48 <= s[p] <= 57
      invariant from < p <= |s| && 0 < v <= ULLONG_MAX
      invariant t[..p - from] == Digits(v)
    {
      ghost var next := 10 * v + (s[p] - 48);
      assert t[..p + 1 - from] == t[..p - from] + [s[p]];
      assert next / 10 == v && next % 10 == s[p] - 48;
      assert t[..p + 1 - from] == Digits(next);
      if v > ULLONG_MAX / 10 || v * 10 > ULLONG_MAX - (s[p] - 48) {
        forall n: nat | t == Digits(n) ensures n > ULLONG_MAX {
          StartsBigger(t, next, p + 1 - from, n);
        }
        return false, 0;
      }
      v := v * 10 + (s[p] - 48);
      p := p + 1;
    }
    ok := p == |s|;
    if ok {
      assert t[..p - from] == t;
    } else {
      assert forall n: nat :: t == Digits(n) ==> IsDigit(t[p - from]);
    }
  }

  /** `string2ll`: succeeds exactly on the decimal forms of the numbers a long long can hold. */
  method String2ll(s: seq<u8>) returns (ok: bool, value: int)
    ensures ok <==> exists v :: InRange(v) && s == Show(v)
    ensures ok ==> InRange(value) && s == Show(value)
  {
    ok, value := false, 0;
    if |s| == 0 {
      return;
    }
    if |s| == 1 && s[0] == ZERO {
      assert s == Show(0);
      return true, 0;
    }
    var negative := s[0] == MINUS;
    var start := if negative then 1 else 0;
    if start == |s| || s[start] == ZERO {
      NoZeroFirst(s, start);
      return;
    }
    var v: nat;
    ok, v := ReadMagnitude(s, start);
    assert !negative ==> s[start..] == s;
    if ok {
      value := v;
      if negative {
        value := -value;
      }
      assert s == Show(value);
      ok := if negative then v <= -(LLONG_MIN + 1) + 1 else v <= LLONG_MAX;
    }
    if !ok {
      forall w | InRange(w) ensures s != Show(w) {
        if s == Show(w) {
          assert s[start..] == Digits(if w < 0 then -w else w);
          if 0 < v && s[start..] == Digits(v) {
            DigitsInjective(v, if w < 0 then -w else w);
          }
        }
      }
    }
  }

  lemma NoZeroFirst(s: seq<u8>, start: nat)
    requires start <= 1 && (start == 1 ==> |s| > 0 && s[0] == MINUS) && start <= |s| && |s| > 0
    requires start == |s| || (s[start] == ZERO && |s| > 1)
    ensures forall v :: s != Show(v)
  {
    forall v ensures s != Show(v) {
      if s == Show(v) {
        var n := if v < 0 then -v else v;
        assert v < 0 ==> s[1..] == Digits(n);
        assert v >= 0 ==> IsDigit(s[0]);
        LeadingDigit(n);
      }
    }
  }

  /** What `string2ll` computes. */
  ghost function Read(s: seq<u8>): Option<int> {
    if exists v :: InRange(v) && s == Show(v) then
      var v :| InRange(v) && s == Show(v);
      Some(v)
    else None
  }

  /** Reading what was printed gives the number back. */
  lemma ReadShow(v: int)
    requires InRange(v)
    ensures Read(Show(v)) == Some(v)
  {
    var w :| InRange(w) && Show(v) == Show(w) && Read(Show(v)) == Some(w);
    ShowInjective(v, w);
  }

  function Pow10(k: nat): (p: nat)
    ensures p > 0
  {
    if k == 0 then 1 else 10 * Pow10(k - 1)
  }

  lemma {:induction false} DigitsLength(n: nat, k: nat)
    requires n < Pow10(k) && k > 0
    ensures |Digits(n)| <= k
  {
    if n >= 10 {
      DigitsLength(n / 10, k - 1);
    }
  }

  lemma LongLongLength(v: int)
    requires InRange(v)
    ensures |Show(v)| <= 20
  {
    var n := if v < 0 then -v else v;
    assert Pow10(19) == 10000000000000000000 by {
      assert Pow10(5) == 100000;
      assert Pow10(10) == 10000000000;
      assert Pow10(15) == 1000000000000000;
    }
    DigitsLength(n, 19);
  }

  /** `*p-- = b`, with `p` standing just after the place to fill. */
  method PutBefore(buf: array<u8>, p: nat, b: u8)
    requires 0 < p <= buf.Length
    modifies buf
    ensures buf[p - 1..] == [b] + old(buf[p..])
  {
    buf[p - 1] := b;
    assert buf[p..] == old(buf[p..]);
  }

  /** The digits of `n`, last one first, from the end of a buffer. */
  method PutDigits(buf: array<u8>, n: nat) returns (p: nat)
    requires buf.Length > |Digits(n)|
    modifies buf
    ensures p > 0 && p + |Digits(n)| == buf.Length && buf[p..] == Digits(n)
  {
    p := buf.Length - 1;
    PutBefore(buf, p + 1, 48 + n % 10);
    var v: nat := n / 10;
    while v != 0
      invariant 0 <= p < buf.Length
      invariant Digits(n) == (if v == 0 then [] else Digits(v)) + buf[p..]
      decreases v
    {
      PutBefore(buf, p, 48 + v % 10);
      p, v := p - 1, v / 10;
    }
  }

  /** `ll2string`: prints into a buffer of 32 bytes from its end, then copies what fits. */
  method Ll2string(s: array<u8>, len: nat, value: int) returns (l: nat)
    requires len <= s.Length && InRange(value)
    modifies s
    ensures len == 0 ==> l == 0 && s[..] == old(s[..])
    ensures len > 0 ==>
              && l == Min(|Show(value)|, len - 1)
              && s[..l] == Show(value)[..l] && s[l] == 0 && s[l + 1..] == old(s[l + 1..])
  {
    hide Digits;
    if len == 0 {
      return 0;
    }
    var buf := new u8[32](_ => 0);
    LongLongLength(value);
    var p := PutDigits(buf, if value < 0 then -value else value);
    if value < 0 {
      PutBefore(buf, p, MINUS);
      p := p - 1;
    }
    ghost var shown := buf[p..];
    assert shown == Show(value);
    l := 32 - p;
    if l + 1 > len {
      l := len - 1;
    }
    assert buf[p..p + l] == shown[..l];
    Terminate(s, buf, p, l);
  }

  /** `memcpy(s,p,l); s[l] = 0`. */
  method Terminate(s: array<u8>, buf: array<u8>, p: nat, l: nat)
    requires s != buf && p + l <= buf.Length && l < s.Length
    modifies s
    ensures s[..l] == buf[p..p + l] && s[l] == 0 && s[l + 1..] == old(s[l + 1..])
  {
    forall i | 0 <= i < l {
      s[i] := buf[p + i];
    }
    s[l] := 0;
  }

  // ------------------------------------------------------------------
  // The C library
  // ------------------------------------------------------------------

  const PLUS: u8 := 43

  /** The decimal number at the start of a text, continuing from `acc`. */
  function ReadDigits(acc: nat, s: seq<u8>): nat
    decreases |s|
  {
    if s == [] || !IsDigit(s[0]) then acc else ReadDigits(10 * acc + (s[0] - 48), s[1..])
  }

  lemma {:induction false} ReadDigitsBack(n: nat, t: seq<u8>)
    ensures ReadDigits(0, Digits(n) + t) == ReadDigits(n, t)
  {
    if n >= 10 {
      ReadDigitsBack(n / 10, [48 + n % 10] + t);
      assert Digits(n) + t == Digits(n / 10) + ([48 + n % 10] + t);
      assert ([48 + n % 10] + t)[1..] == t;
    } else {
      assert (Digits(n) + t)[1..] == t;
    }
  }

  /** A text as the C library sees it, up to a NUL byte. */
  function CString(s: seq<u8>): seq<u8> {
    if s == [] || s[0] == 0 then [] else [s[0]] + CString(s[1..])
  }

  predicate AllDigits(s: seq<u8>) {
    forall i :: 0 <= i < |s| ==> IsDigit(s[i])
  }

  /**
   `getLongLongFromObject`: what `strtoll` makes of a whole text that does not start with a space.
   Signs, leading zeros and the empty text are accepted.
   */
  function Strtoll(s: seq<u8>): Option<int> {
    var c := CString(s);
    if c == [] then Some(0)
    else
      var digits := if c[0] == MINUS || c[0] == PLUS then c[1..] else c;
      if digits == [] || !AllDigits(digits) then None
      else
        var n: int := ReadDigits(0, digits);
        var v := if c[0] == MINUS then -n else n;
        if InRange(v) then Some(v) else None
  }

  lemma {:induction false} CStringOf(s: seq<u8>)
    requires forall i :: 0 <= i < |s| ==> s[i] != 0
    ensures CString(s) == s
  {
    if s != [] {
      CStringOf(s[1..]);
    }
  }

  lemma ShownHasNoNul(v: int)
    ensures CString(Show(v)) == Show(v)
  {
    CStringOf(Show(v));
  }

  /** The number at the start of a whole number is the number. */
  lemma WholeNumber(n: nat)
    ensures ReadDigits(0, Digits(n)) == n
  {
    ReadDigitsBack(n, []);
    assert Digits(n) + [] == Digits(n);
  }

  /** What was printed is read as the number. */
  lemma StrtollShow(v: int)
    requires InRange(v)
    ensures Strtoll(Show(v)) == Some(v)
  {
    var n: nat := if v < 0 then -v else v;
    ShownHasNoNul(v);
    WholeNumber(n);
    FirstByte(v);
    hide Digits, ReadDigits, CString;
    var digits := Digits(n);
    assert forall i :: 0 <= i < |digits| ==> IsDigit(digits[i]);
    if v < 0 {
      assert ([MINUS] + digits)[1..] == digits;
    }
  }

  /** Numbers as people write them: a plus sign and leading zeros are accepted, the empty text is 0. */
  lemma StrtollIsLenient(n: nat)
    requires InRange(n)
    ensures Strtoll([PLUS] + Digits(n)) == Some(n) && Strtoll([ZERO] + Digits(n)) == Some(n) && Strtoll([]) == Some(0)
  {
    WholeNumber(n);
    CStringOf([PLUS] + Digits(n));
    CStringOf([ZERO] + Digits(n));
    assert ([PLUS] + Digits(n))[1..] == Digits(n) && ([ZERO] + Digits(n))[1..] == Digits(n);
    assert ReadDigits(0, [ZERO] + Digits(n)) == ReadDigits(0, Digits(n));
    hide Digits, CString;
  }

  /** A text with anything else in it is refused. */
  lemma StrtollRefuses(s: seq<u8>, k: nat)
    requires 0 < k < |s| && !IsDigit(s[k]) && forall i :: 0 <= i < |s| ==> s[i] != 0
    ensures Strtoll(s) == None
  {
    CStringOf(s);
    hide CString, ReadDigits;
    if s[0] == MINUS || s[0] == PLUS {
      var digits := s[1..];
      assert !IsDigit(digits[k - 1]);
      assert !AllDigits(digits);
    } else {
      assert !IsDigit(s[k]);
    }
  }

  /** Decimal notation: appending a digit multiplies by ten and adds it. */
  lemma DigitAppended(n: nat, d: nat)
    requires d < 10
    ensures Digits(d) == [48 + d] && (n > 0 ==> Digits(10 * n + d) == Digits(n) + [48 + d])
  {
    assert (10 * n + d) / 10 == n && (10 * n + d) % 10 == d;
  }
}
