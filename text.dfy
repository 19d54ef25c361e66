/** The string operations the scripts use: decimal rendering and parsing of
    integers, `split`, `replace`, `lower`, prefix and suffix tests, and the
    SQL `LIKE` operator their queries filter with. */
module Text {
  import opened Base

  predicate IsDigit(c: char) { '0' <= c <= '9' }

  predicate AllDigits(s: string) { forall i :: 0 <= i < |s| ==> IsDigit(s[i]) }

  function DigitChar(d: nat): (c: char)
    requires d < 10
    ensures IsDigit(c)
  {
    (48 + d) as char
  }

  function DigitValue(c: char): (d: nat)
    requires IsDigit(c)
    ensures d < 10 && DigitChar(d) == c
  {
    (c as int) - ('0' as int)
  }

  /** `str(n)` for a non-negative integer: its decimal digits, no sign. */
  function NatToString(n: nat): (s: string)
    ensures |s| > 0 && AllDigits(s)
    ensures n < 10 <==> |s| == 1
    decreases n
  {
    if n < 10 then [DigitChar(n)] else NatToString(n / 10) + [DigitChar(n % 10)]
  }

  /** The number a non-empty run of decimal digits denotes. */
  function DigitsValue(s: string): nat
    requires AllDigits(s)
    decreases |s|
  {
    if s == [] then 0 else DigitsValue(s[..|s| - 1]) * 10 + DigitValue(s[|s| - 1])
  }

  /** `str(i)` for any integer. */
  function IntToString(i: int): (s: string)
    ensures i >= 0 ==> s == NatToString(i)
    ensures i < 0 ==> s == "-" + NatToString(-i)
  {
    if i < 0 then "-" + NatToString(-i) else NatToString(i)
  }

  /** The optional sign `int()` accepts in front of the digits. */
  predicate SignChar(c: char) { c == '-' || c == '+' }

  /** Python's `int(s)`: an optional sign followed by ASCII digits; `None`
      where `int` raises `ValueError`. */
  function ParseInt(s: string): (r: Option<int>)
    ensures s == [] ==> r.None?
    ensures r.Some? <==> s != [] && (AllDigits(s) || (SignChar(s[0]) && |s| > 1 && AllDigits(s[1..])))
    ensures r.Some? && '-' !in s ==> r.value >= 0
    ensures AllDigits(s) && s != [] ==> r == Some(DigitsValue(s))
    ensures |s| > 1 && s[0] == '-' && AllDigits(s[1..]) ==> r.Some? && r.value == -(DigitsValue(s[1..]) as int)
    ensures |s| > 1 && s[0] == '+' && AllDigits(s[1..]) ==> r == Some(DigitsValue(s[1..]))
  {
    if s != [] && SignChar(s[0]) then
      var digits := s[1..];
      if digits != [] && AllDigits(digits) then
        var v: int := DigitsValue(digits);
        Some(if s[0] == '-' then -v else v)
      else None
    else if s != [] && AllDigits(s) then Some(DigitsValue(s))
    else None
  }

  lemma {:induction false} NatToStringRoundTrip(n: nat)
    ensures DigitsValue(NatToString(n)) == n
    decreases n
  {
    if n >= 10 {
      var s := NatToString(n);
      assert s[..|s| - 1] == NatToString(n / 10);
      NatToStringRoundTrip(n / 10);
    }
  }

  /** Parsing what `str` printed gives back the integer. */
  lemma ParseIntRoundTrip(i: int)
    ensures ParseInt(IntToString(i)) == Some(i)
  {
    var n: nat := if i < 0 then -i else i;
    var digits := NatToString(n);
    NatToStringRoundTrip(n);
    if i < 0 {
      var s := "-" + digits;
      assert s[1..] == digits;
      assert ParseInt(s).value == -(DigitsValue(digits) as int);
      assert IntToString(i) == s;
    }
  }

  lemma NatToStringInjective(a: nat, b: nat)
    requires NatToString(a) == NatToString(b)
    ensures a == b
  {
    NatToStringRoundTrip(a);
    NatToStringRoundTrip(b);
  }

  lemma DigitsHaveNo(s: string, c: char)
    requires AllDigits(s) && !IsDigit(c)
    ensures c !in s
  {
  }

  /** `s.split(c)[0]`: the text before the first `c`, or all of `s` when it
      holds no `c`. */
  function BeforeFirst(s: string, c: char): (r: string)
    ensures c !in r
    ensures r <= s
    ensures c in s ==> |r| < |s| && s[|r|] == c
    ensures c !in s ==> r == s
    decreases |s|
  {
    if s == [] then []
    else if s[0] == c then []
    else [s[0]] + BeforeFirst(s[1..], c)
  }

  lemma BeforeFirstOfJoin(a: string, c: char, b: string)
    requires c !in a
    ensures BeforeFirst(a + [c] + b, c) == a
  {
    var s := a + [c] + b;
    var r := BeforeFirst(s, c);
    assert s[|a|] == c;
    assert forall i :: 0 <= i < |a| ==> s[i] == a[i] && s[i] != c;
    assert forall i :: 0 <= i < |r| ==> r[i] == s[i] && r[i] != c;
  }

  predicate StartsWith(s: string, p: string) { p <= s }

  predicate EndsWith(s: string, p: string) { |p| <= |s| && s[|s| - |p|..] == p }

  /** A yes to a confirmation prompt: `response.lower() in ['y', 'yes']`. */
  predicate Confirmed(response: string)
  {
    Lower(response) in ["y", "yes"]
  }

  /** `p` occurs in `s` starting at position `k`. */
  predicate OccursAt(s: string, p: string, k: int)
  {
    0 <= k && k + |p| <= |s| && s[k..k + |p|] == p
  }

  /** Python's `p in s` for strings. */
  predicate Contains(s: string, p: string)
  {
    exists k | 0 <= k <= |s| :: OccursAt(s, p, k)
  }

  function LowerChar(c: char): char
  {
    if 'A' <= c <= 'Z' then (c as int + 32) as char else c
  }

  predicate IsUpper(c: char) { 'A' <= c <= 'Z' }

  /** `s.lower()` on ASCII letters. */
  function Lower(s: string): (r: string)
    ensures |r| == |s|
    ensures forall i :: 0 <= i < |s| ==> r[i] == LowerChar(s[i])
  {
    seq(|s|, i requires 0 <= i < |s| => LowerChar(s[i]))
  }

  /** `s.replace(a, b)` for one character. */
  function ReplaceChar(s: string, a: char, b: char): (r: string)
    ensures |r| == |s|
    ensures forall i :: 0 <= i < |s| ==> r[i] == if s[i] == a then b else s[i]
  {
    seq(|s|, i requires 0 <= i < |s| => if s[i] == a then b else s[i])
  }

  /** `s.replace(pat, rep)`: every occurrence, scanning left to right and
      never overlapping. */
  function ReplaceAll(s: string, pat: string, rep: string): string
    requires pat != []
    decreases |s|
  {
    if |s| < |pat| then s
    else if s[..|pat|] == pat then rep + ReplaceAll(s[|pat|..], pat, rep)
    else [s[0]] + ReplaceAll(s[1..], pat, rep)
  }

  /** Text holding no occurrence of the pattern is left as it is. */
  lemma {:induction false} ReplaceAllAbsent(s: string, pat: string, rep: string)
    requires pat != [] && !Contains(s, pat)
    ensures ReplaceAll(s, pat, rep) == s
    decreases |s|
  {
    if |s| >= |pat| {
      assert s[0..0 + |pat|] == s[..|pat|];
      assert !OccursAt(s, pat, 0);
      forall k | OccursAt(s[1..], pat, k) ensures false {
        assert s[1..][k..k + |pat|] == s[k + 1..k + 1 + |pat|];
        assert OccursAt(s, pat, k + 1);
      }
      ReplaceAllAbsent(s[1..], pat, rep);
    }
  }

  /** SQL `s LIKE p`: `%` matches any run of characters, `_` any single
      character, every other character itself. */
  function Like(s: string, p: string): bool
    decreases |s| + |p|
  {
    if p == [] then s == []
    else if p[0] == '%' then Like(s, p[1..]) || (s != [] && Like(s[1..], p))
    else s != [] && (p[0] == '_' || p[0] == s[0]) && Like(s[1..], p[1..])
  }

  predicate NoWildcards(p: string) { '%' !in p && '_' !in p }

  lemma {:induction false} LikeLiteral(s: string, p: string)
    requires NoWildcards(p)
    ensures Like(s, p) <==> s == p
    decreases |p|
  {
    if p != [] && s != [] {
      LikeLiteral(s[1..], p[1..]);
      if s[0] == p[0] && s[1..] == p[1..] {
        assert s == [s[0]] + s[1..] && p == [p[0]] + p[1..];
      }
    }
  }

  lemma {:induction false} LikeAnything(s: string)
    ensures Like(s, "%")
    decreases |s|
  {
    assert "%"[1..] == [];
    if s != [] {
      LikeAnything(s[1..]);
    }
  }

  /** A leading `%` lets the rest of the pattern match any suffix. */
  lemma {:induction false} LikeLeadingPercent(s: string, q: string)
    ensures Like(s, "%" + q) <==> exists k :: 0 <= k <= |s| && Like(s[k..], q)
    decreases |s|
  {
    var p := "%" + q;
    assert p[0] == '%' && p[1..] == q;
    if s == [] {
      assert s[0..] == s;
      assert Like(s, p) == Like(s, q);
      if Like(s, q) {
        assert Like(s[0..], q);
      }
      if exists k :: 0 <= k <= |s| && Like(s[k..], q) {
        var k :| 0 <= k <= |s| && Like(s[k..], q);
        assert s[k..] == s;
      }
    } else {
      LikeLeadingPercent(s[1..], q);
      if Like(s, p) {
        if Like(s, q) {
          assert s[0..] == s;
        } else {
          var k :| 0 <= k <= |s[1..]| && Like(s[1..][k..], q);
          assert s[1..][k..] == s[k + 1..];
        }
      }
      if exists k :: 0 <= k <= |s| && Like(s[k..], q) {
        var k :| 0 <= k <= |s| && Like(s[k..], q);
        if k == 0 {
          assert s[k..] == s;
        } else {
          assert s[1..][k - 1..] == s[k..];
        }
      }
    }
  }

  /** A trailing `%` after a literal lets the pattern match any text that
      starts with that literal. */
  lemma {:induction false} LikeTrailingPercent(t: string, lit: string)
    requires NoWildcards(lit)
    ensures Like(t, lit + "%") <==> StartsWith(t, lit)
    decreases |lit|
  {
    if lit == [] {
      assert lit + "%" == "%";
      LikeAnything(t);
    } else {
      var p := lit + "%";
      assert p[0] == lit[0] && p[1..] == lit[1..] + "%";
      assert lit[0] in lit;
      LikeTrailingPercent(if t == [] then t else t[1..], lit[1..]);
      if t != [] && t[0] == lit[0] && lit[1..] <= t[1..] {
        assert lit == [lit[0]] + lit[1..];
        assert t == [t[0]] + t[1..];
      }
    }
  }

  /** `layer LIKE '%' || suffix` is a suffix test when the suffix holds no
      wildcard character. */
  lemma LikeSuffixIsEndsWith(s: string, lit: string)
    requires NoWildcards(lit)
    ensures Like(s, "%" + lit) <==> EndsWith(s, lit)
  {
    LikeLeadingPercent(s, lit);
    if EndsWith(s, lit) {
      var k := |s| - |lit|;
      LikeLiteral(s[k..], lit);
    }
    if exists k :: 0 <= k <= |s| && Like(s[k..], lit) {
      var k :| 0 <= k <= |s| && Like(s[k..], lit);
      LikeLiteral(s[k..], lit);
    }
  }

  /** `layer LIKE '%' || part || '%'` is a substring test when the part
      holds no wildcard character. */
  lemma LikeInfixIsContains(s: string, lit: string)
    requires NoWildcards(lit)
    ensures Like(s, "%" + lit + "%") <==> Contains(s, lit)
  {
    assert "%" + lit + "%" == "%" + (lit + "%");
    LikeLeadingPercent(s, lit + "%");
    if exists k :: 0 <= k <= |s| && Like(s[k..], lit + "%") {
      var k :| 0 <= k <= |s| && Like(s[k..], lit + "%");
      LikeTrailingPercent(s[k..], lit);
      if StartsWith(s[k..], lit) {
        assert s[k..k + |lit|] == s[k..][..|lit|];
        assert OccursAt(s, lit, k);
      }
    }
    if Contains(s, lit) {
      var k :| 0 <= k <= |s| && OccursAt(s, lit, k);
      LikeTrailingPercent(s[k..], lit);
      assert s[k..][..|lit|] == s[k..k + |lit|];
    }
  }
}
