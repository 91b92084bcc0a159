/**
 * The few Python `str` operations the annotator relies on: `isspace`,
 * `strip`, `str(n)` for a counter and `replace`, and the substring test
 * `in`, which the program does not call but which states when the
 * replacement is safe.
 */
module PyStr {

  /** The characters Python's `str.isspace` and `str.strip` treat as whitespace. */
  predicate IsSpaceChar(c: char) {
    var n := c as int;
    (0x09 <= n <= 0x0D) || (0x1C <= n <= 0x20) || n == 0x85 || n == 0xA0 || n == 0x1680
    || (0x2000 <= n <= 0x200A) || n == 0x2028 || n == 0x2029 || n == 0x202F
    || n == 0x205F || n == 0x3000
  }

  /** Every character of `s` is whitespace. */
  predicate AllSpace(s: string) {
    s == [] || (IsSpaceChar(s[0]) && AllSpace(s[1..]))
  }

  /** `s.isspace()`: `s` is non-empty and made of whitespace only. */
  predicate IsSpace(s: string) {
    |s| > 0 && AllSpace(s)
  }

  lemma {:induction false} AllSpaceAt(s: string)
    ensures AllSpace(s) <==> forall i :: 0 <= i < |s| ==> IsSpaceChar(s[i])
  {
    if s != [] {
      AllSpaceAt(s[1..]);
      assert forall i :: 1 <= i < |s| ==> s[i] == s[1..][i - 1];
    }
  }

  /** `s.lstrip()` */
  function StripLeft(s: string): string {
    if |s| > 0 && IsSpaceChar(s[0]) then StripLeft(s[1..]) else s
  }

  /** `s.rstrip()` */
  function StripRight(s: string): string {
    if |s| > 0 && IsSpaceChar(s[|s| - 1]) then StripRight(s[..|s| - 1]) else s
  }

  /** `s.strip()` */
  function Strip(s: string): string {
    StripRight(StripLeft(s))
  }

  lemma {:induction false} StripLeftSpec(s: string)
    ensures var r := StripLeft(s);
            |r| <= |s| && r == s[|s| - |r|..]
            && (forall i :: 0 <= i < |s| - |r| ==> IsSpaceChar(s[i]))
            && (r == [] || !IsSpaceChar(r[0]))
  {
    if |s| > 0 && IsSpaceChar(s[0]) {
      StripLeftSpec(s[1..]);
      var r := StripLeft(s);
      assert r == StripLeft(s[1..]);
      assert s[1..][|s| - 1 - |r|..] == s[|s| - |r|..];
      assert forall i :: 1 <= i < |s| - |r| ==> s[i] == s[1..][i - 1];
    }
  }

  lemma {:induction false} StripRightSpec(s: string)
    ensures var r := StripRight(s);
            |r| <= |s| && r == s[..|r|]
            && (forall i :: |r| <= i < |s| ==> IsSpaceChar(s[i]))
            && (r == [] || !IsSpaceChar(r[|r| - 1]))
  {
    if |s| > 0 && IsSpaceChar(s[|s| - 1]) {
      var t := s[..|s| - 1];
      StripRightSpec(t);
      var r := StripRight(s);
      assert r == StripRight(t);
      assert t[..|r|] == s[..|r|];
      assert forall i :: |r| <= i < |s| - 1 ==> s[i] == t[i];
    }
  }

  /** `s.strip()` is the infix of `s` left after removing whitespace on both sides, and starts and ends with a non-space. */
  lemma StripSpec(s: string)
    ensures var r := Strip(s);
            (exists k: nat :: OccursAt(r, s, k)
                      && (forall i :: 0 <= i < k ==> IsSpaceChar(s[i]))
                      && (forall i :: k + |r| <= i < |s| ==> IsSpaceChar(s[i])))
            && (r == [] || (!IsSpaceChar(r[0]) && !IsSpaceChar(r[|r| - 1])))
  {
    var l := StripLeft(s);
    var r := StripRight(l);
    StripLeftSpec(s);
    StripRightSpec(l);
    var k := |s| - |l|;
    assert r == s[k..k + |r|];
    assert OccursAt(r, s, k);
    assert r == Strip(s);
    forall i | k + |r| <= i < |s| ensures IsSpaceChar(s[i]) {
      assert s[i] == l[i - k];
    }
    assert (forall i :: 0 <= i < k ==> IsSpaceChar(s[i]))
           && (forall i :: k + |r| <= i < |s| ==> IsSpaceChar(s[i]));
    if r != [] {
      assert r[0] == l[0];
    }
  }

  predicate IsDigit(c: char) { '0' as int <= c as int <= '9' as int }

  function DigitChar(d: nat): (c: char)
    requires d < 10
    ensures IsDigit(c) && (c as int) - ('0' as int) == d
  {
    (('0' as int) + d) as char
  }

  /** `str(n)` for a non-negative integer: its decimal digits, no sign, no leading zero. */
  function Decimal(n: nat): (r: string)
    ensures |r| > 0 && forall i :: 0 <= i < |r| ==> IsDigit(r[i])
    ensures |r| > 1 ==> r[0] != '0'
    decreases n
  {
    if n < 10 then [DigitChar(n)] else Decimal(n / 10) + [DigitChar(n % 10)]
  }

  /** `int(s)` for a string of decimal digits. */
  function DecimalValue(s: string): nat
    requires forall i :: 0 <= i < |s| ==> IsDigit(s[i])
  {
    if s == [] then 0
    else
      assert IsDigit(s[|s| - 1]);
      10 * DecimalValue(s[..|s| - 1]) + ((s[|s| - 1] as int) - ('0' as int))
  }

  /** `int(str(n)) == n`. */
  lemma {:induction false} DecimalRoundTrip(n: nat)
    ensures DecimalValue(Decimal(n)) == n
    decreases n
  {
    if n >= 10 {
      var d := Decimal(n);
      assert d[..|d| - 1] == Decimal(n / 10);
      DecimalRoundTrip(n / 10);
    }
  }

  /** Different counters print differently. */
  lemma DecimalInjective(a: nat, b: nat)
    requires Decimal(a) == Decimal(b)
    ensures a == b
  {
    DecimalRoundTrip(a);
    DecimalRoundTrip(b);
  }

  /** `p` occurs in `s` starting at index `k`. */
  predicate OccursAt(p: string, s: string, k: nat) {
    k + |p| <= |s| && s[k..k + |p|] == p
  }

  /** Python's `p in s`, which the program does not call; the model uses it to state when the replacement is safe. */
  ghost predicate Occurs(p: string, s: string) {
    exists k: nat :: OccursAt(p, s, k)
  }

  /** No occurrence of `p` in `s` starts before index `n`. */
  ghost predicate NoneBefore(p: string, s: string, n: nat) {
    forall k: nat :: k < n ==> !OccursAt(p, s, k)
  }

  /**
   * `s.replace(p, r)`: every occurrence of `p`, found left to right and not
   * overlapping, is replaced by `r`; an empty `p` inserts `r` around every character.
   */
  function Replace(s: string, p: string, r: string): string
    decreases |s|
  {
    if p == [] then (if s == [] then r else r + [s[0]] + Replace(s[1..], p, r))
    else if |s| < |p| then s
    else if s[..|p|] == p then r + Replace(s[|p|..], p, r)
    else [s[0]] + Replace(s[1..], p, r)
  }

  /** An occurrence in the tail of `s` is one in `s`, one place further on. */
  lemma OccursShift(p: string, s: string, k: nat)
    requires |s| > 0
    ensures OccursAt(p, s[1..], k) ==> OccursAt(p, s, k + 1)
  {
    if k + |p| <= |s| - 1 {
      var a, b := s[k + 1..k + 1 + |p|], s[1..][k..k + |p|];
      forall i | 0 <= i < |p| ensures a[i] == b[i] {
        assert a[i] == s[k + 1 + i];
      }
      assert a == b;
    }
  }

  /** A prefix without an occurrence that starts in it is copied unchanged. */
  lemma {:induction false} ReplaceSkip(x: string, y: string, p: string, r: string)
    requires |p| > 0 && NoneBefore(p, x + y, |x|)
    ensures Replace(x + y, p, r) == x + Replace(y, p, r)
    decreases |x|
  {
    if x == [] {
      assert x + y == y;
    } else {
      var s := x + y;
      assert s[0] == x[0] && s[1..] == x[1..] + y;
      if |s| < |p| {
        assert Replace(y, p, r) == y;
        assert Replace(s, p, r) == s;
      } else {
        assert !OccursAt(p, s, 0);
        assert s[..|p|] != p;
        forall k: nat | k < |x| - 1 ensures !OccursAt(p, x[1..] + y, k) {
          OccursShift(p, s, k);
        }
        ReplaceSkip(x[1..], y, p, r);
        calc {
          Replace(s, p, r);
          [s[0]] + Replace(s[1..], p, r);
          [x[0]] + (x[1..] + Replace(y, p, r));
          { assert [x[0]] + x[1..] == x; }
          x + Replace(y, p, r);
        }
      }
    }
  }

  /** A string in which `p` does not occur is left unchanged. */
  lemma ReplaceAbsent(s: string, p: string, r: string)
    requires |p| > 0 && !Occurs(p, s)
    ensures Replace(s, p, r) == s
  {
    assert s + [] == s;
    ReplaceSkip(s, [], p, r);
  }

  /** An occurrence at the front is replaced, and the scan resumes after it. */
  lemma ReplaceFront(p: string, y: string, r: string)
    requires |p| > 0
    ensures Replace(p + y, p, r) == r + Replace(y, p, r)
  {
    assert (p + y)[..|p|] == p && (p + y)[|p|..] == y;
  }

  /** What does not occur in a string does not occur in its parts. */
  lemma AbsentFromParts(p: string, x: string, y: string)
    requires !Occurs(p, x + y)
    ensures !Occurs(p, x) && !Occurs(p, y)
  {
    forall k: nat | OccursAt(p, x, k) ensures OccursAt(p, x + y, k) {
      assert (x + y)[k..k + |p|] == x[k..k + |p|];
    }
    forall k: nat | OccursAt(p, y, k) ensures OccursAt(p, x + y, |x| + k) {
      assert (x + y)[|x| + k..|x| + k + |p|] == y[k..k + |p|];
    }
  }
}
