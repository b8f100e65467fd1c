/**
 * The two string operations the home page relies on: `String.prototype.replace`
 * called with a string pattern (only the first occurrence is replaced), and the
 * decimal rendering of a non-negative integer below 10^21 in a template literal
 * (`${n}`), the range in which JavaScript writes an integer as plain digits.
 */
module Strings {
  import opened Wrappers

  /** `p` occurs in `s` starting at index `i`. */
  predicate OccursAt(s: string, p: string, i: int) {
    0 <= i && i + |p| <= |s| && s[i..i + |p|] == p
  }

  /** `p` occurs nowhere in `s`. */
  predicate Free(s: string, p: string) {
    forall i :: 0 <= i <= |s| ==> !OccursAt(s, p, i)
  }

  /** A string shorter than `p` cannot contain it. */
  lemma ShorterIsFree(s: string, p: string)
    requires |s| < |p|
    ensures Free(s, p)
  {
  }

  /** The first occurrence of `p` in `s` starts at index `i`. */
  predicate FirstAt(s: string, p: string, i: int) {
    OccursAt(s, p, i) && forall j :: 0 <= j < i ==> !OccursAt(s, p, j)
  }

  /** The first index at or after `k` where `p` occurs in `s`, if any. */
  function IndexOfFrom(s: string, p: string, k: nat): (r: Option<nat>)
    requires k <= |s|
    ensures r.Some? ==> k <= r.value && OccursAt(s, p, r.value)
    ensures r.Some? ==> forall j :: k <= j < r.value ==> !OccursAt(s, p, j)
    ensures r.None? ==> forall j :: k <= j ==> !OccursAt(s, p, j)
    decreases |s| - k
  {
    if k + |p| > |s| then None
    else if s[k..k + |p|] == p then Some(k)
    else IndexOfFrom(s, p, k + 1)
  }

  /** `s.indexOf(p)`: the start of the first occurrence of `p`, or None. An empty `p` is found at 0. */
  function IndexOf(s: string, p: string): (r: Option<nat>)
    ensures r.Some? ==> FirstAt(s, p, r.value)
    ensures r.None? <==> Free(s, p)
  {
    IndexOfFrom(s, p, 0)
  }

  /**
   * `s.replace(p, r)` with a string pattern: the first occurrence of `p` is
   * replaced by `r`; when `p` does not occur, `s` is returned unchanged.
   */
  function ReplaceFirst(s: string, p: string, r: string): (res: string)
    ensures Free(s, p) ==> res == s
    ensures forall i :: FirstAt(s, p, i) ==> res == s[..i] + r + s[i + |p|..]
  {
    match IndexOf(s, p)
    case None => s
    case Some(i) => s[..i] + r + s[i + |p|..]
  }

  /**
   * Only the first occurrence is replaced: with the first occurrence of `p`
   * right after `x`, every occurrence of `p` in the rest `y` survives, shifted
   * by the length of the replacement.
   */
  lemma LaterOccurrenceKept(x: string, p: string, y: string, r: string, k: nat)
    requires FirstAt(x + p + y, p, |x|) && OccursAt(y, p, k)
    ensures OccursAt(ReplaceFirst(x + p + y, p, r), p, |x| + |r| + k)
  {
    assert ReplaceFirst(x + p + y, p, r) == x + r + y by {
      ReplaceAtBoundary(x, p, y, r);
    }
    assert OccursAt(x + r + y, p, |x + r| + k) by {
      OccursAfterPrefix(x + r, y, p, k);
    }
  }

  /** An occurrence in `b` is an occurrence in `a + b`, shifted by `|a|`. */
  lemma OccursAfterPrefix(a: string, b: string, p: string, k: nat)
    requires OccursAt(b, p, k)
    ensures OccursAt(a + b, p, |a| + k)
  {
    assert (a + b)[|a| + k..|a| + k + |p|] == b[k..k + |p|];
  }

  /** A slice of `s` holding no occurrence of a non-empty `p` that starts inside it is `p`-free. */
  lemma FreeSlice(s: string, p: string, lo: nat, hi: nat)
    requires lo <= hi <= |s| && |p| >= 1
    requires forall k :: lo <= k < hi ==> !OccursAt(s, p, k)
    ensures Free(s[lo..hi], p)
  {
    var t := s[lo..hi];
    forall j | 0 <= j <= |t|
      ensures !OccursAt(t, p, j)
    {
      if j + |p| <= |t| {
        var u, v := t[j..j + |p|], s[lo + j..lo + j + |p|];
        assert forall m :: 0 <= m < |p| ==> u[m] == v[m];
        assert u == v;
        assert !OccursAt(s, p, lo + j);
      }
    }
  }

  /** A string is the concatenation of its pieces between four cut points. */
  lemma Pieces(s: string, a: nat, b: nat, c: nat, d: nat)
    requires a <= b <= c <= d <= |s|
    ensures s == s[..a] + s[a..b] + s[b..c] + s[c..d] + s[d..]
  {
    assert s[..b] == s[..a] + s[a..b];
    assert s[..c] == s[..b] + s[b..c];
    assert s[..d] == s[..c] + s[c..d];
    assert s == s[..d] + s[d..];
  }

  /** When the first occurrence of `p` starts right after `x`, exactly that occurrence is replaced. */
  lemma ReplaceAtBoundary(x: string, p: string, y: string, r: string)
    requires FirstAt(x + p + y, p, |x|)
    ensures ReplaceFirst(x + p + y, p, r) == x + r + y
  {
    var s := x + p + y;
    assert s[..|x|] == x;
    assert s[|x| + |p|..] == y;
  }

  /**
   * A pattern whose first character appears nowhere else in it cannot overlap
   * the start of an occurrence of itself, so an occurrence of `p` right after a
   * `p`-free prefix `x` is the first one.
   */
  lemma FirstAtBoundary(x: string, p: string, y: string)
    requires |p| >= 1 && forall k :: 1 <= k < |p| ==> p[k] != p[0]
    requires Free(x, p)
    ensures FirstAt(x + p + y, p, |x|)
  {
    var s := x + p + y;
    assert s[|x|..|x| + |p|] == p;
    forall j | 0 <= j < |x|
      ensures !OccursAt(s, p, j)
    {
      if j + |p| <= |x| {
        assert s[j..j + |p|] == x[j..j + |p|];
        assert !OccursAt(x, p, j);
      } else {
        var k := |x| - j;
        assert s[j..j + |p|][k] == s[|x|] == p[0] != p[k];
      }
    }
  }

  /** `c` is a decimal digit. */
  predicate IsDigit(c: char) {
    '0' <= c <= '9'
  }

  predicate AllDigits(s: string) {
    forall i :: 0 <= i < |s| ==> IsDigit(s[i])
  }

  predicate NoDigits(s: string) {
    forall i :: 0 <= i < |s| ==> !IsDigit(s[i])
  }

  /**
   * Inserting a non-empty run of digits between two `p`-free strings creates no
   * occurrence of a digit-free pattern `p`.
   */
  lemma FreeAroundDigits(a: string, d: string, b: string, p: string)
    requires Free(a, p) && Free(b, p)
    requires |d| >= 1 && AllDigits(d)
    requires |p| >= 1 && NoDigits(p)
    ensures Free(a + d + b, p)
  {
    var s := a + d + b;
    forall j | 0 <= j <= |s|
      ensures !OccursAt(s, p, j)
    {
      if j + |p| <= |a| {
        assert s[j..j + |p|] == a[j..j + |p|];
        assert !OccursAt(a, p, j);
      } else if j >= |a| + |d| {
        var j' := j - |a| - |d|;
        assert j + |p| <= |s| ==> s[j..j + |p|] == b[j'..j' + |p|];
        assert !OccursAt(b, p, j');
      } else if j + |p| <= |s| {
        var k := if j < |a| then |a| else j;
        assert s[k] == d[k - |a|];
        assert IsDigit(s[j..j + |p|][k - j]) && !IsDigit(p[k - j]);
      }
    }
  }

  /**
   * Inserting a token `q` between two `p`-free strings creates no occurrence of
   * `p`, when both start with the same character, that character appears
   * nowhere else in either, and the two differ at some index `d`.
   */
  lemma FreeAroundToken(a: string, q: string, b: string, p: string, d: nat)
    requires Free(a, p) && Free(b, p)
    requires |p| >= 1 && |q| >= 1 && q[0] == p[0]
    requires forall k :: 1 <= k < |p| ==> p[k] != p[0]
    requires forall k :: 1 <= k < |q| ==> q[k] != p[0]
    requires d < |p| && d < |q| && p[d] != q[d]
    ensures Free(a + q + b, p)
  {
    var s := a + q + b;
    forall j | 0 <= j <= |s|
      ensures !OccursAt(s, p, j)
    {
      if j + |p| <= |a| {
        assert s[j..j + |p|] == a[j..j + |p|];
        assert !OccursAt(a, p, j);
      } else if j >= |a| + |q| {
        var j' := j - |a| - |q|;
        assert j + |p| <= |s| ==> s[j..j + |p|] == b[j'..j' + |p|];
        assert !OccursAt(b, p, j');
      } else if j + |p| <= |s| {
        if j < |a| {
          var k := |a| - j;
          assert s[j..j + |p|][k] == s[|a|] == q[0] == p[0] != p[k];
        } else if j == |a| {
          assert s[j..j + |p|][d] == q[d] != p[d];
        } else {
          assert s[j..j + |p|][0] == q[j - |a|] != p[0];
        }
      }
    }
  }

  /** The character of the decimal digit `d`. */
  function DigitChar(d: nat): (c: char)
    requires d < 10
    ensures IsDigit(c) && c as int - '0' as int == d
  {
    ('0' as int + d) as char
  }

  /**
   * `${n}` for a non-negative integer below 10^21 (on this page at most 1920):
   * its shortest decimal rendering, with no leading zero except for 0 itself.
   */
  function NatToString(n: nat): (s: string)
    ensures |s| >= 1 && AllDigits(s)
    ensures s[0] == '0' ==> n == 0 && |s| == 1
    decreases n
  {
    if n < 10 then [DigitChar(n)] else NatToString(n / 10) + [DigitChar(n % 10)]
  }

  /** The number a string of decimal digits denotes. */
  function DecimalValue(s: string): nat
    requires AllDigits(s)
  {
    if s == [] then 0 else 10 * DecimalValue(s[..|s| - 1]) + (s[|s| - 1] as int - '0' as int)
  }

  /** Reading back the decimal rendering of `n` gives `n`. */
  lemma {:induction false} DecimalRoundTrip(n: nat)
    ensures DecimalValue(NatToString(n)) == n
    decreases n
  {
    if n >= 10 {
      var s := NatToString(n);
      assert s[..|s| - 1] == NatToString(n / 10);
      DecimalRoundTrip(n / 10);
    }
  }
}
