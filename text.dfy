/**
 * Plain string operations shared by the models of the two front-end scripts
 * and of the path rewriter: literal search, literal replacement (all
 * occurrences, as Python's `str.replace` and `re.sub` with a literal pattern
 * do, and the first occurrence, as JavaScript's `String.prototype.replace`
 * with a string pattern does), decimal rendering of counters, and the length
 * JavaScript reports for a string (UTF-16 code units).
 */
module Text {

  /** `p` occurs in `s` starting at index `k`. */
  predicate OccursAt(s: string, p: string, k: int) {
    0 <= k && k + |p| <= |s| && s[k..k + |p|] == p
  }

  predicate StartsWith(s: string, p: string) {
    |p| <= |s| && s[..|p|] == p
  }

  predicate Contains(s: string, p: string) {
    exists k :: 0 <= k <= |s| - |p| && OccursAt(s, p, k)
  }

  /**
   * Replaces every occurrence of the non-empty literal `p` in `s` by `r`,
   * scanning left to right and resuming after each replaced occurrence, so
   * occurrences never overlap and text produced by `r` is never rescanned.
   */
  function ReplaceAll(s: string, p: string, r: string): string
    requires |p| > 0
    decreases |s|
  {
    if |s| < |p| then s
    else if s[..|p|] == p then r + ReplaceAll(s[|p|..], p, r)
    else [s[0]] + ReplaceAll(s[1..], p, r)
  }

  /** Every occurrence of `p` in `s` ends at a copy of the last character of `p`. */
  lemma OccurrenceEndsWithLast(s: string, p: string, k: int)
    requires |p| > 0 && OccursAt(s, p, k)
    ensures s[k + |p| - 1] == p[|p| - 1]
  {
    assert s[k..k + |p|][|p| - 1] == s[k + |p| - 1];
  }

  /** An occurrence inside a suffix of `s` is an occurrence in `s`, shifted. */
  lemma OccursInSuffix(s: string, p: string, d: nat, k: int)
    requires d <= |s| && OccursAt(s[d..], p, k)
    ensures OccursAt(s, p, k + d)
  {
    assert s[d..][k..k + |p|] == s[k + d..k + d + |p|];
  }

  /** Text without any occurrence of `p` is left as it is. */
  lemma {:induction false} ReplaceAllAbsent(s: string, p: string, r: string)
    requires |p| > 0 && !Contains(s, p)
    ensures ReplaceAll(s, p, r) == s
    decreases |s|
  {
    if |s| >= |p| {
      assert !OccursAt(s, p, 0);
      assert s[0..|p|] == s[..|p|];
      forall k | OccursAt(s[1..], p, k) ensures false {
        OccursInSuffix(s, p, 1, k);
      }
      ReplaceAllAbsent(s[1..], p, r);
      assert [s[0]] + s[1..] == s;
    }
  }

  /** Replacing a string by itself changes nothing. */
  lemma {:induction false} ReplaceAllSelf(s: string, p: string)
    requires |p| > 0
    ensures ReplaceAll(s, p, p) == s
    decreases |s|
  {
    if |s| >= |p| {
      if s[..|p|] == p {
        ReplaceAllSelf(s[|p|..], p);
        assert s[..|p|] + s[|p|..] == s;
      } else {
        ReplaceAllSelf(s[1..], p);
        assert [s[0]] + s[1..] == s;
      }
    }
  }

  /**
   * A tail that does not hold the last character of `p` can take part in no
   * occurrence, so it passes through the replacement untouched.
   */
  lemma {:induction false} ReplaceAllAppend(x: string, t: string, p: string, r: string)
    requires |p| > 0 && p[|p| - 1] !in t
    ensures ReplaceAll(x + t, p, r) == ReplaceAll(x, p, r) + t
    decreases |x|
  {
    if |x| < |p| {
      forall k | OccursAt(x + t, p, k) ensures false {
        OccurrenceEndsWithLast(x + t, p, k);
      }
      ReplaceAllAbsent(x + t, p, r);
    } else {
      assert (x + t)[..|p|] == x[..|p|];
      if x[..|p|] == p {
        assert (x + t)[|p|..] == x[|p|..] + t;
        ReplaceAllAppend(x[|p|..], t, p, r);
      } else {
        assert (x + t)[1..] == x[1..] + t;
        ReplaceAllAppend(x[1..], t, p, r);
      }
    }
  }

  /** Text lacking a character of `p` holds no occurrence of `p`. */
  lemma AbsentByChar(s: string, p: string, c: char)
    requires c in p && c !in s
    ensures !Contains(s, p)
  {
    forall k | 0 <= k <= |s| - |p| ensures !OccursAt(s, p, k) {
      var m :| 0 <= m < |p| && p[m] == c;
      assert s[k..k + |p|][m] == s[k + m] != c;
    }
  }

  /** The pattern alone is replaced as a whole. */
  lemma ReplaceAllWhole(p: string, r: string)
    requires |p| > 0
    ensures ReplaceAll(p, p, r) == r
  {
    assert p[..|p|] == p;
    assert ReplaceAll(p[|p|..], p, r) == [];
  }

  /**
   * When the last character of `p` appears in `s` only as its final
   * character, `p` can occur only as a suffix of `s`.
   */
  lemma OccurrenceAtEnd(s: string, p: string, k: int)
    requires |p| > 0 && |s| > 0 && p[|p| - 1] !in s[..|s| - 1]
    ensures OccursAt(s, p, k) ==> k == |s| - |p|
  {
    if OccursAt(s, p, k) {
      OccurrenceEndsWithLast(s, p, k);
      forall m | 0 <= m < |s| - 1 ensures s[m] != p[|p| - 1] {
        assert s[..|s| - 1][m] == s[m];
      }
    }
  }

  /**
   * A pattern whose last character appears nowhere else, placed after text
   * without that character, is replaced exactly once, at the end.
   */
  lemma {:induction false} ReplaceAllAtEnd(x: string, p: string, r: string)
    requires |p| > 0 && p[|p| - 1] !in x && p[|p| - 1] !in p[..|p| - 1]
    ensures ReplaceAll(x + p, p, r) == x + r
    decreases |x|
  {
    if x == [] {
      assert x + p == p;
      ReplaceAllWhole(p, r);
    } else {
      var c := p[|p| - 1];
      assert (x + p)[..|p|] != p by {
        if |p| - 1 < |x| {
          assert (x + p)[..|p|][|p| - 1] == x[|p| - 1] != c;
        } else {
          assert (x + p)[..|p|][|p| - 1] == p[|p| - 1 - |x|] == p[..|p| - 1][|p| - 1 - |x|] != c;
        }
      }
      assert (x + p)[1..] == x[1..] + p;
      ReplaceAllAtEnd(x[1..], p, r);
      assert [x[0]] + (x[1..] + r) == x + r;
    }
  }

  /**
   * Replaces the first occurrence of `p` in `s` by `r` (JavaScript's
   * `s.replace(p, r)` with a string pattern); `s` is unchanged when `p` does
   * not occur.
   */
  function ReplaceFirst(s: string, p: string, r: string): string
    requires |p| > 0
    decreases |s|
  {
    if |s| < |p| then s
    else if s[..|p|] == p then r + s[|p|..]
    else [s[0]] + ReplaceFirst(s[1..], p, r)
  }

  /** Replacing by a string of the same length keeps the length. */
  lemma {:induction false} ReplaceFirstLength(s: string, p: string, r: string)
    requires 0 < |p| == |r|
    ensures |ReplaceFirst(s, p, r)| == |s|
    decreases |s|
  {
    if |s| >= |p| && s[..|p|] != p {
      ReplaceFirstLength(s[1..], p, r);
    }
  }

  /** Dropping the first character moves every occurrence one place to the left. */
  lemma OccursAfterFirst(s: string, p: string, k: int)
    requires 0 < |s| && 1 <= k
    ensures OccursAt(s[1..], p, k - 1) <==> OccursAt(s, p, k)
  {
    if k + |p| <= |s| {
      assert s[1..][k - 1..k - 1 + |p|] == s[k..k + |p|];
    }
  }

  /** Only the first occurrence is replaced: the result is the text before it, `r`, and the text after it. */
  lemma {:induction false} ReplaceFirstAt(s: string, p: string, r: string, k: nat)
    requires |p| > 0 && OccursAt(s, p, k)
    requires forall j :: 0 <= j < k ==> !OccursAt(s, p, j)
    ensures ReplaceFirst(s, p, r) == s[..k] + r + s[k + |p|..]
    decreases k
  {
    if k == 0 {
      assert s[..|p|] == s[0..|p|];
    } else {
      assert s[..|p|] != p by {
        assert !OccursAt(s, p, 0);
        assert s[..|p|] == s[0..|p|];
      }
      var t := s[1..];
      forall j | 0 <= j < k - 1 ensures !OccursAt(t, p, j) {
        OccursAfterFirst(s, p, j + 1);
      }
      OccursAfterFirst(s, p, k);
      ReplaceFirstAt(t, p, r, k - 1);
      calc {
        ReplaceFirst(s, p, r);
        [s[0]] + ReplaceFirst(t, p, r);
        [s[0]] + (t[..k - 1] + r + t[k - 1 + |p|..]);
        { assert t[..k - 1] == s[1..k] && t[k - 1 + |p|..] == s[k + |p|..]; }
        ([s[0]] + s[1..k]) + r + s[k + |p|..];
        { assert [s[0]] + s[1..k] == s[..k]; }
        s[..k] + r + s[k + |p|..];
      }
    }
  }

  /** Text without `p` is left as it is. */
  lemma {:induction false} ReplaceFirstAbsent(s: string, p: string, r: string)
    requires |p| > 0 && !Contains(s, p)
    ensures ReplaceFirst(s, p, r) == s
    decreases |s|
  {
    if |s| >= |p| {
      assert !OccursAt(s, p, 0);
      assert s[0..|p|] == s[..|p|];
      forall k | OccursAt(s[1..], p, k) ensures false {
        OccursInSuffix(s, p, 1, k);
      }
      ReplaceFirstAbsent(s[1..], p, r);
      assert [s[0]] + s[1..] == s;
    }
  }

  // ---------------------------------------------------------------------
  // Decimal rendering of non-negative integers, as JavaScript's template
  // literals print a whole number: no sign, no leading zeros.

  /** An ASCII digit. */
  predicate IsDigit(c: char) {
    '0' <= c <= '9'
  }

  function DigitChar(d: nat): (c: char)
    requires d < 10
    ensures IsDigit(c)
  {
    (d + '0' as int) as char
  }

  function DigitValue(c: char): (d: nat)
    requires IsDigit(c)
    ensures d < 10
  {
    (c as int - '0' as int)
  }

  function Decimal(n: nat): string
    decreases n
  {
    if n < 10 then [DigitChar(n)] else Decimal(n / 10) + [DigitChar(n % 10)]
  }

  /** Reads back a string of digits, most significant first. */
  function DecimalValue(s: string): nat
    requires forall i :: 0 <= i < |s| ==> IsDigit(s[i])
    decreases |s|
  {
    if s == [] then 0 else 10 * DecimalValue(s[..|s| - 1]) + DigitValue(s[|s| - 1])
  }

  /** The rendering is a non-empty string of digits without a leading zero that reads back as `n`. */
  lemma {:induction false} DecimalRoundTrip(n: nat)
    ensures |Decimal(n)| > 0
    ensures forall i :: 0 <= i < |Decimal(n)| ==> IsDigit(Decimal(n)[i])
    ensures |Decimal(n)| > 1 ==> Decimal(n)[0] != '0'
    ensures DecimalValue(Decimal(n)) == n
    decreases n
  {
    if n >= 10 {
      DecimalRoundTrip(n / 10);
      var s := Decimal(n);
      assert s[..|s| - 1] == Decimal(n / 10);
    }
  }

  /** Different numbers render differently. */
  lemma DecimalInjective(m: nat, n: nat)
    requires Decimal(m) == Decimal(n)
    ensures m == n
  {
    DecimalRoundTrip(m);
    DecimalRoundTrip(n);
  }

  // ---------------------------------------------------------------------
  // JavaScript strings are sequences of UTF-16 code units; `length` counts
  // units, so a character outside the Basic Multilingual Plane counts twice.

  function Utf16Units(c: char): (u: nat)
    ensures u == 1 || u == 2
  {
    if c as int < 0x1_0000 then 1 else 2
  }

  function Utf16Length(s: string): nat
    decreases |s|
  {
    if s == [] then 0 else Utf16Length(s[..|s| - 1]) + Utf16Units(s[|s| - 1])
  }

  /** The JavaScript length lies between the number of characters and twice that, and equals it when every character is in the Basic Multilingual Plane. */
  lemma {:induction false} Utf16LengthBounds(s: string)
    ensures |s| <= Utf16Length(s) <= 2 * |s|
    ensures (forall i :: 0 <= i < |s| ==> s[i] as int < 0x1_0000) ==> Utf16Length(s) == |s|
    decreases |s|
  {
    if s != [] {
      Utf16LengthBounds(s[..|s| - 1]);
    }
  }
}
