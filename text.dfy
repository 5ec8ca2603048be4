/** The two string operations the service relies on: rendering a number in
    decimal (`n.toString()`, a template literal) and `String.prototype.replace`
    with a string pattern, which replaces the first occurrence only. */
module Text {

  predicate IsDigit(c: char) {
    '0' <= c <= '9'
  }

  function DigitChar(d: nat): (c: char)
    requires d < 10
    ensures IsDigit(c) && c as int - '0' as int == d
  {
    ('0' as int + d) as char
  }

  /** The decimal rendering of a natural number, most significant digit first. */
  function Decimal(n: nat): (s: string)
    ensures |s| > 0
    ensures forall i :: 0 <= i < |s| ==> IsDigit(s[i])
    ensures s[0] == '0' <==> n == 0
    decreases n
  {
    if n < 10 then [DigitChar(n)] else Decimal(n / 10) + [DigitChar(n % 10)]
  }

  /** The number a string of decimal digits denotes. */
  function DigitsValue(s: string): int
    decreases |s|
  {
    if s == [] then 0 else DigitsValue(s[..|s| - 1]) * 10 + (s[|s| - 1] as int - '0' as int)
  }

  /** Reading the rendering back gives the number: the rendering loses nothing. */
  lemma {:induction false} DecimalRoundTrip(n: nat)
    ensures DigitsValue(Decimal(n)) == n
    decreases n
  {
    if n >= 10 {
      var s := Decimal(n);
      assert s[..|s| - 1] == Decimal(n / 10);
      DecimalRoundTrip(n / 10);
    }
  }

  lemma DecimalInjective(a: nat, b: nat)
    requires Decimal(a) == Decimal(b)
    ensures a == b
  {
    DecimalRoundTrip(a);
    DecimalRoundTrip(b);
  }

  /** `Number.prototype.toString()` on an integer: a minus sign exactly for
      a negative number, then the digits of its magnitude, without leading
      zeros, which read back to that magnitude. */
  function IntToString(i: int): (r: string)
    ensures |r| > 0 && (r[0] == '-' <==> i < 0)
    ensures var d := if i < 0 then 1 else 0;
      && d < |r|
      && (forall k :: d <= k < |r| ==> IsDigit(r[k]))
      && DigitsValue(r[d..]) == (if i < 0 then -i else i)
      && (r[d] == '0' ==> |r| == d + 1)
  {
    var n := if i < 0 then -i else i;
    DecimalRoundTrip(n);
    if i < 0 then
      assert ("-" + Decimal(n))[1..] == Decimal(n);
      "-" + Decimal(n)
    else
      assert Decimal(n)[0..] == Decimal(n);
      Decimal(n)
  }

  predicate OccursAt(s: string, pat: string, k: nat) {
    k + |pat| <= |s| && s[k..k + |pat|] == pat
  }

  /** `s.replace(pat, rep)` for a string pattern: the first occurrence of
      `pat`, scanning from the left, becomes `rep`; no occurrence leaves `s`
      as it is. An empty pattern occurs at position 0. At most one
      occurrence is replaced, and replacing the pattern by itself changes
      nothing. */
  function ReplaceFirst(s: string, pat: string, rep: string): (r: string)
    ensures r == s || (|pat| <= |s| && |r| == |s| - |pat| + |rep|)
    ensures rep == pat ==> r == s
    decreases |s|
  {
    if pat <= s then
      assert rep == pat ==> rep + s[|pat|..] == s;
      rep + s[|pat|..]
    else if s == [] then s
    else
      assert [s[0]] + s[1..] == s;
      [s[0]] + ReplaceFirst(s[1..], pat, rep)
  }

  lemma PrefixOccursAtZero(s: string, pat: string)
    ensures pat <= s <==> OccursAt(s, pat, 0)
  {
    if |pat| <= |s| {
      assert s[0..|pat|] == s[..|pat|];
    }
  }

  lemma OccursShift(s: string, pat: string, j: nat)
    requires s != []
    ensures OccursAt(s[1..], pat, j) <==> OccursAt(s, pat, j + 1)
  {
    if j + 1 + |pat| <= |s| {
      assert s[1..][j..j + |pat|] == s[j + 1..j + 1 + |pat|];
    }
  }

  /** Where the pattern first occurs at `k`, exactly that occurrence is replaced. */
  lemma {:induction false} ReplaceFirstAt(s: string, pat: string, rep: string, k: nat)
    requires OccursAt(s, pat, k)
    requires forall j :: 0 <= j < k ==> !OccursAt(s, pat, j)
    ensures ReplaceFirst(s, pat, rep) == s[..k] + rep + s[k + |pat|..]
    decreases k
  {
    if k == 0 {
      PrefixOccursAtZero(s, pat);
      assert s[..0] == [];
    } else {
      var t := s[1..];
      ReplaceFirstSkip(s, pat, rep);
      FirstOccurrenceShift(s, pat, k);
      ReplaceFirstAt(t, pat, rep, k - 1);
      SpliceCons(s, rep, k, k + |pat|);
    }
  }

  /** A first occurrence at `k > 0` is a first occurrence at `k - 1` in the tail. */
  lemma FirstOccurrenceShift(s: string, pat: string, k: nat)
    requires 0 < k && OccursAt(s, pat, k)
    requires forall j :: 0 <= j < k ==> !OccursAt(s, pat, j)
    ensures OccursAt(s[1..], pat, k - 1)
    ensures forall j :: 0 <= j < k - 1 ==> !OccursAt(s[1..], pat, j)
  {
    OccursShift(s, pat, k - 1);
    forall j | 0 <= j < k - 1 ensures !OccursAt(s[1..], pat, j) {
      OccursShift(s, pat, j);
    }
  }

  /** Where the pattern does not occur at 0, the head is kept and the
      replacement is made in the tail. */
  lemma ReplaceFirstSkip(s: string, pat: string, rep: string)
    requires s != [] && !OccursAt(s, pat, 0)
    ensures ReplaceFirst(s, pat, rep) == [s[0]] + ReplaceFirst(s[1..], pat, rep)
  {
    PrefixOccursAtZero(s, pat);
  }

  /** Splicing `rep` into the tail of `s` and putting the head back is
      splicing it into `s` one position further on. */
  lemma SpliceCons(s: string, rep: string, k: nat, m: nat)
    requires 0 < k <= m <= |s|
    ensures [s[0]] + (s[1..][..k - 1] + rep + s[1..][m - 1..]) == s[..k] + rep + s[m..]
  {
    assert s[..k] == [s[0]] + s[1..][..k - 1];
    assert s[1..][m - 1..] == s[m..];
  }

  /** Where the pattern does not occur, nothing is replaced. */
  lemma {:induction false} ReplaceFirstAbsent(s: string, pat: string, rep: string)
    requires forall j :: 0 <= j <= |s| ==> !OccursAt(s, pat, j)
    ensures ReplaceFirst(s, pat, rep) == s
    decreases |s|
  {
    PrefixOccursAtZero(s, pat);
    if s != [] {
      var t := s[1..];
      forall j | 0 <= j <= |t| ensures !OccursAt(t, pat, j) {
        OccursShift(s, pat, j);
      }
      ReplaceFirstAbsent(t, pat, rep);
      assert [s[0]] + t == s;
    }
  }
}
