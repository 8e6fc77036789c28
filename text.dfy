/** String helpers with Python's semantics: `s.replace(pat, "")`, and the
    fixed-width decimal fields that `str()` of a date or a time writes. */
module Text {

  /** `pat` occurs in `s` starting at index `i`. */
  predicate OccursAt(pat: string, s: string, i: int)
  {
    0 <= i && i + |pat| <= |s| && s[i..i + |pat|] == pat
  }

  /** `pat in s`, Python's substring test. */
  predicate Occurs(pat: string, s: string)
  {
    exists i :: 0 <= i <= |s| && OccursAt(pat, s, i)
  }

  /** `s.replace(pat, "")`: scans left to right and deletes every
      non-overlapping occurrence of `pat`. */
  function RemoveAll(s: string, pat: string): (r: string)
    requires pat != []
    ensures |r| <= |s|
    decreases |s|
  {
    if |s| < |pat| then s
    else if s[..|pat|] == pat then RemoveAll(s[|pat|..], pat)
    else [s[0]] + RemoveAll(s[1..], pat)
  }

  /** An occurrence of `pat` is always deleted: the result is shorter. */
  lemma {:induction false} RemoveAllShrinks(s: string, pat: string)
    requires pat != [] && Occurs(pat, s)
    ensures |RemoveAll(s, pat)| < |s|
    decreases |s|
  {
    var i :| 0 <= i <= |s| && OccursAt(pat, s, i);
    if s[..|pat|] != pat {
      assert 1 <= i && i + |pat| <= |s|;
      var t := s[1..];
      assert t[i - 1..i - 1 + |pat|] == s[i..i + |pat|];
      assert OccursAt(pat, t, i - 1);
      RemoveAllShrinks(t, pat);
    }
  }

  /** Without an occurrence of `pat` the string is returned unchanged. */
  lemma {:induction false} RemoveAllAbsent(s: string, pat: string)
    requires pat != [] && !Occurs(pat, s)
    ensures RemoveAll(s, pat) == s
    decreases |s|
  {
    if |s| >= |pat| {
      assert !OccursAt(pat, s, 0);
      assert s[..|pat|] != pat;
      forall i ensures !OccursAt(pat, s[1..], i) {
        if OccursAt(pat, s[1..], i) {
          assert s[1..][i..i + |pat|] == s[i + 1..i + 1 + |pat|];
          assert OccursAt(pat, s, i + 1);
        }
      }
      RemoveAllAbsent(s[1..], pat);
      assert [s[0]] + s[1..] == s;
    }
  }

  /** `s.replace(pat, "") == s` exactly when `pat` does not occur in `s`. */
  lemma RemoveAllIdentity(s: string, pat: string)
    requires pat != []
    ensures RemoveAll(s, pat) == s <==> !Occurs(pat, s)
  {
    if Occurs(pat, s) {
      RemoveAllShrinks(s, pat);
    } else {
      RemoveAllAbsent(s, pat);
    }
  }

  /** A leading occurrence is deleted and the scan goes on after it. */
  lemma RemoveAllLeading(pat: string, s: string)
    requires pat != []
    ensures RemoveAll(pat + s, pat) == RemoveAll(s, pat)
  {
    assert (pat + s)[..|pat|] == pat;
    assert (pat + s)[|pat|..] == s;
  }

  /** A stretch none of whose characters starts `pat` is kept as it is,
      and the scan goes on after it. */
  lemma {:induction false} RemoveAllKeepsPlain(a: string, s: string, pat: string)
    requires pat != [] && forall i :: 0 <= i < |a| ==> a[i] != pat[0]
    ensures RemoveAll(a + s, pat) == a + RemoveAll(s, pat)
    decreases |a|
  {
    if a != [] {
      KeepsPlainHead(a, s, pat);
      RemoveAllKeepsPlain(a[1..], s, pat);
      ConsConcat(a, RemoveAll(s, pat));
    } else {
      assert a + s == s;
    }
  }

  /** The first character of a plain stretch is kept, and the rest of the
      stretch is plain. */
  lemma KeepsPlainHead(a: string, s: string, pat: string)
    requires pat != [] && a != [] && forall i :: 0 <= i < |a| ==> a[i] != pat[0]
    ensures RemoveAll(a + s, pat) == [a[0]] + RemoveAll(a[1..] + s, pat)
    ensures forall i :: 0 <= i < |a[1..]| ==> a[1..][i] != pat[0]
  {
    var t := a + s;
    assert t[0] == a[0] && t[1..] == a[1..] + s;
    if |t| >= |pat| {
      assert t[..|pat|][0] == a[0];
    }
    RemoveAllStep(t, pat);
  }

  lemma ConsConcat(a: string, x: string)
    requires a != []
    ensures [a[0]] + (a[1..] + x) == a + x
  {
    assert [a[0]] + a[1..] == a;
  }

  /** A first character that does not start an occurrence is kept. */
  lemma RemoveAllStep(t: string, pat: string)
    requires pat != [] && t != []
    requires |t| >= |pat| ==> t[..|pat|] != pat
    ensures RemoveAll(t, pat) == [t[0]] + RemoveAll(t[1..], pat)
  {
    if |t| < |pat| {
      assert RemoveAll(t[1..], pat) == t[1..];
      assert [t[0]] + t[1..] == t;
    }
  }

  /** A string none of whose characters starts `pat` holds no occurrence of it. */
  lemma AbsentWithoutFirstChar(pat: string, s: string)
    requires pat != [] && forall i :: 0 <= i < |s| ==> s[i] != pat[0]
    ensures !Occurs(pat, s)
  {
    forall i | 0 <= i <= |s| ensures !OccursAt(pat, s, i) {
      if i + |pat| <= |s| {
        assert s[i..i + |pat|][0] == s[i];
      }
    }
  }

  // ---------------------------------------------------------------------
  // Decimal fields

  predicate IsDigit(c: char)
  {
    '0' <= c <= '9'
  }

  predicate AllDigits(s: string)
  {
    forall i :: 0 <= i < |s| ==> IsDigit(s[i])
  }

  function DigitChar(n: int): (c: char)
    requires 0 <= n < 10
    ensures IsDigit(c)
  {
    (('0' as int) + n) as char
  }

  function Pow10(w: nat): (p: nat)
    ensures p >= 1
  {
    if w == 0 then 1 else 10 * Pow10(w - 1)
  }

  /** `n` written in decimal, zero-padded to `width` digits (`%0<width>d`). */
  function PadDigits(n: nat, width: nat): (s: string)
    requires n < Pow10(width)
    ensures |s| == width && AllDigits(s)
  {
    if width == 0 then ""
    else PadDigits(n / 10, width - 1) + [DigitChar(n % 10)]
  }

  /** The number that a string of decimal digits denotes. */
  function DigitsValue(s: string): (n: nat)
    requires AllDigits(s)
    ensures n < Pow10(|s|)
  {
    if s == [] then 0
    else DigitsValue(s[..|s| - 1]) * 10 + (s[|s| - 1] as int - '0' as int)
  }

  /** Reading back a padded field gives the number that was written. */
  lemma {:induction false} DigitsValuePad(n: nat, width: nat)
    requires n < Pow10(width)
    ensures DigitsValue(PadDigits(n, width)) == n
  {
    if width > 0 {
      var s := PadDigits(n, width);
      assert s[..|s| - 1] == PadDigits(n / 10, width - 1);
      DigitsValuePad(n / 10, width - 1);
    }
  }

  /** Writing back the value of a digit string gives the same string. */
  lemma {:induction false} PadDigitsValue(s: string)
    requires AllDigits(s)
    ensures PadDigits(DigitsValue(s), |s|) == s
  {
    if s != [] {
      var p := s[..|s| - 1];
      var n := DigitsValue(s);
      assert n / 10 == DigitsValue(p) && n % 10 == s[|s| - 1] as int - '0' as int;
      PadDigitsValue(p);
      assert p + [s[|s| - 1]] == s;
    }
  }
}
