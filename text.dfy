/** The Python `str` operations the scripts rely on, on `string` (a sequence of
    code points). */
module Text {

  // ---------------------------------------------------------------- searching

  /** `pat` occurs in `s` starting at index `i`. */
  predicate OccursAt(s: string, i: nat, pat: string)
  {
    i + |pat| <= |s| && s[i..i + |pat|] == pat
  }

  /** Python `pat in s`. */
  predicate Contains(s: string, pat: string)
  {
    exists i: nat :: i <= |s| && OccursAt(s, i, pat)
  }

  /** Python `s.startswith(pat)`. */
  predicate StartsWith(s: string, pat: string)
  {
    OccursAt(s, 0, pat)
  }

  /** Python `s.endswith(pat)`. */
  predicate EndsWith(s: string, pat: string)
  {
    |pat| <= |s| && s[|s| - |pat|..] == pat
  }

  /** A string that holds the character `pat[k]` nowhere cannot contain `pat`. */
  lemma MissingCharMeansAbsent(s: string, pat: string, k: nat)
    requires k < |pat| && pat[k] !in s
    ensures !Contains(s, pat)
  {
    forall i: nat | i <= |s| ensures !OccursAt(s, i, pat) {
      if i + |pat| <= |s| {
        assert s[i..i + |pat|][k] == s[i + k];
        assert s[i + k] in s;
      }
    }
  }

  /** An occurrence in the tail of `s` is an occurrence in `s` one place later. */
  lemma OccursShift(s: string, i: nat, pat: string)
    requires s != []
    ensures OccursAt(s[1..], i, pat) == OccursAt(s, i + 1, pat)
  {
    if i + |pat| <= |s| - 1 {
      assert s[1..][i..i + |pat|] == s[i + 1..i + 1 + |pat|];
    }
  }

  // ---------------------------------------------------------------- replacing

  /** Python `s.replace(pat, rep)` for a non-empty `pat`: occurrences are found
      left to right and never overlap; the replacement text is not rescanned. */
  function Replace(s: string, pat: string, rep: string): string
    requires pat != []
    decreases |s|
  {
    if |s| < |pat| then s
    else if s[..|pat|] == pat then rep + Replace(s[|pat|..], pat, rep)
    else [s[0]] + Replace(s[1..], pat, rep)
  }

  /** Replacing a pattern that does not occur changes nothing. */
  lemma {:induction false} ReplaceAbsent(s: string, pat: string, rep: string)
    requires pat != [] && !Contains(s, pat)
    ensures Replace(s, pat, rep) == s
    decreases |s|
  {
    if |s| >= |pat| {
      assert !OccursAt(s, 0, pat);
      forall i: nat | i <= |s[1..]| ensures !OccursAt(s[1..], i, pat) {
        assert !OccursAt(s, i + 1, pat);
        OccursShift(s, i, pat);
      }
      ReplaceAbsent(s[1..], pat, rep);
    }
  }

  /** Replace at a position where `pat` does not start keeps that character. */
  lemma ReplaceMiss(c: char, t: string, pat: string, rep: string)
    requires pat != [] && |[c] + t| >= |pat| && ([c] + t)[..|pat|] != pat
    ensures Replace([c] + t, pat, rep) == [c] + Replace(t, pat, rep)
  {
    assert ([c] + t)[1..] == t;
  }

  /** When no occurrence of `pat` begins inside `p`, the first one replaced is
      the `pat` that follows `p`. */
  lemma {:induction false} ReplaceAfter(p: string, pat: string, q: string, rep: string)
    requires pat != []
    requires forall i :: 0 <= i < |p| ==> !OccursAt(p + pat + q, i, pat)
    ensures Replace(p + pat + q, pat, rep) == p + rep + Replace(q, pat, rep)
    decreases |p|
  {
    var s := p + pat + q;
    if p == [] {
      assert s == pat + q;
      assert s[..|pat|] == pat && s[|pat|..] == q;
    } else {
      var t := p[1..] + pat + q;
      assert s == [p[0]] + t;
      assert !OccursAt(s, 0, pat);
      forall i | 0 <= i < |p[1..]| ensures !OccursAt(t, i, pat) {
        assert !OccursAt(s, i + 1, pat);
        OccursShift(s, i, pat);
      }
      ReplaceAfter(p[1..], pat, q, rep);
      ReplaceMiss(p[0], t, pat, rep);
      assert p + rep + Replace(q, pat, rep) == [p[0]] + (p[1..] + rep + Replace(q, pat, rep));
    }
  }

  /** A sufficient condition for the hypothesis of ReplaceAfter: some character
      of `pat`, unlike every character before it in `pat`, never appears in `p`. */
  lemma NoMatchInside(p: string, pat: string, q: string, k: nat)
    requires k < |pat| && pat[k] !in p
    requires forall m :: 0 <= m < k ==> pat[m] != pat[k]
    ensures forall i :: 0 <= i < |p| ==> !OccursAt(p + pat + q, i, pat)
  {
    var s := p + pat + q;
    forall i | 0 <= i < |p| ensures !OccursAt(s, i, pat) {
      if i + |pat| <= |s| {
        assert s[i..i + |pat|][k] == s[i + k];
        if i + k < |p| {
          assert s[i + k] == p[i + k];
          assert p[i + k] in p;
        } else {
          assert s[i + k] == pat[i + k - |p|];
        }
      }
    }
  }

  /** A character is absent from the result when the replacement does not
      hold it and it either is the whole (one-character) pattern or is absent
      from the input. */
  lemma {:induction false} ReplaceOmits(s: string, pat: string, rep: string, c: char)
    requires pat != [] && c !in rep
    requires pat == [c] || c !in s
    ensures c !in Replace(s, pat, rep)
    decreases |s|
  {
    if |s| >= |pat| {
      if s[..|pat|] == pat {
        assert forall x :: x in s[|pat|..] ==> x in s;
        ReplaceOmits(s[|pat|..], pat, rep, c);
      } else {
        assert forall x :: x in s[1..] ==> x in s;
        assert s[0] != c by {
          if pat == [c] { assert s[..1] == [s[0]]; }
        }
        ReplaceOmits(s[1..], pat, rep, c);
      }
    }
  }

  /** A one-character pattern cannot straddle two pieces, so replacing it
      distributes over concatenation. */
  lemma {:induction false} ReplaceCharSplit(a: string, b: string, c: char, rep: string)
    ensures Replace(a + b, [c], rep) == Replace(a, [c], rep) + Replace(b, [c], rep)
    decreases |a|
  {
    if a == [] {
      assert a + b == b;
    } else {
      assert (a + b)[..1] == a[..1] && (a + b)[1..] == a[1..] + b;
      ReplaceCharSplit(a[1..], b, c, rep);
    }
  }

  // ---------------------------------------------------------------- stripping

  /** Python `s.rstrip(chars)`: drops the longest run at the end of `s` made
      only of characters in the set `cs`. */
  function TrimEnd(s: string, cs: set<char>): (r: string)
    ensures |r| <= |s|
    decreases |s|
  {
    if s != [] && s[|s| - 1] in cs then TrimEnd(s[..|s| - 1], cs) else s
  }

  /** What `rstrip` drops is all in the set, and what it keeps does not end
      in it. */
  lemma {:induction false} TrimEndSpec(s: string, cs: set<char>)
    ensures var r := TrimEnd(s, cs);
      && r == s[..|r|]
      && (forall i :: |r| <= i < |s| ==> s[i] in cs)
      && (r == [] || r[|r| - 1] !in cs)
    decreases |s|
  {
    if s != [] && s[|s| - 1] in cs {
      TrimEndSpec(s[..|s| - 1], cs);
    }
  }

  /** Python `s.lstrip(chars)`: drops the longest run at the start of `s` made
      only of characters in the set `cs`. */
  function TrimStart(s: string, cs: set<char>): (r: string)
    ensures |r| <= |s|
    decreases |s|
  {
    if s != [] && s[0] in cs then TrimStart(s[1..], cs) else s
  }

  /** What `lstrip` drops is all in the set, and what it keeps does not
      begin with it. */
  lemma {:induction false} TrimStartSpec(s: string, cs: set<char>)
    ensures var r := TrimStart(s, cs);
      && r == s[|s| - |r|..]
      && (forall i :: 0 <= i < |s| - |r| ==> s[i] in cs)
      && (r == [] || r[0] !in cs)
    decreases |s|
  {
    if s != [] && s[0] in cs {
      TrimStartSpec(s[1..], cs);
    }
  }

  /** `rstrip` stops exactly at the last character outside the set. */
  lemma TrimEndAt(p: string, q: string, cs: set<char>)
    requires forall i :: 0 <= i < |q| ==> q[i] in cs
    requires p == [] || p[|p| - 1] !in cs
    ensures TrimEnd(p + q, cs) == p
  {
    var s := p + q;
    var r := TrimEnd(s, cs);
    TrimEndSpec(s, cs);
    assert forall i :: |p| <= i < |s| ==> s[i] == q[i - |p|];
    assert p != [] ==> s[|p| - 1] == p[|p| - 1];
    assert r != [] ==> r[|r| - 1] == s[|r| - 1];
    assert |r| == |p|;
    assert r == s[..|p|];
  }

  /** `lstrip` stops exactly at the first character outside the set. */
  lemma TrimStartAt(p: string, q: string, cs: set<char>)
    requires forall i :: 0 <= i < |p| ==> p[i] in cs
    requires q == [] || q[0] !in cs
    ensures TrimStart(p + q, cs) == q
  {
    var s := p + q;
    var r := TrimStart(s, cs);
    TrimStartSpec(s, cs);
    assert forall i :: 0 <= i < |p| ==> s[i] == p[i];
    assert q != [] ==> s[|p|] == q[0];
    assert r != [] ==> r[0] == s[|s| - |r|];
    assert |r| == |q|;
    assert r == s[|p|..];
  }

  /** The characters for which Python's `str.isspace()` holds; `str.strip()`
      without arguments removes exactly these. */
  const Whitespace: set<char> := {
    '\t', '\n', '\U{0B}', '\U{0C}', '\r', '\U{1C}', '\U{1D}', '\U{1E}', '\U{1F}', ' ',
    '\U{85}', '\U{A0}', '\U{1680}',
    '\U{2000}', '\U{2001}', '\U{2002}', '\U{2003}', '\U{2004}', '\U{2005}',
    '\U{2006}', '\U{2007}', '\U{2008}', '\U{2009}', '\U{200A}',
    '\U{2028}', '\U{2029}', '\U{202F}', '\U{205F}', '\U{3000}'
  }

  /** Python `s.strip()`. */
  function Strip(s: string): string
  {
    TrimStart(TrimEnd(s, Whitespace), Whitespace)
  }

  /** `strip()` keeps one contiguous slice of its input, removes only
      whitespace around it, and leaves no whitespace at either end. */
  lemma StripSlice(s: string)
    ensures var e := |TrimEnd(s, Whitespace)|;
            var b := e - |Strip(s)|;
            && 0 <= b <= e <= |s|
            && Strip(s) == s[b..e]
            && (forall i :: 0 <= i < b ==> s[i] in Whitespace)
            && (forall i :: e <= i < |s| ==> s[i] in Whitespace)
            && (Strip(s) == [] || (Strip(s)[0] !in Whitespace && Strip(s)[|Strip(s)| - 1] !in Whitespace))
  {
    TrimBoth(s, Whitespace);
  }

  /** `StripSlice` for any set of characters. */
  lemma TrimBoth(s: string, cs: set<char>)
    ensures var e := |TrimEnd(s, cs)|;
            var t := TrimStart(TrimEnd(s, cs), cs);
            var b := e - |t|;
            && 0 <= b <= e <= |s|
            && t == s[b..e]
            && (forall i :: 0 <= i < b ==> s[i] in cs)
            && (forall i :: e <= i < |s| ==> s[i] in cs)
            && (t == [] || (t[0] !in cs && t[|t| - 1] !in cs))
  {
    TrimKeepsSlice(s, cs);
    TrimDropsFront(s, cs);
    TrimDropsBack(s, cs);
  }

  lemma TrimKeepsSlice(s: string, cs: set<char>)
    ensures var e := |TrimEnd(s, cs)|;
            var t := TrimStart(TrimEnd(s, cs), cs);
            var b := e - |t|;
            0 <= b <= e <= |s| && t == s[b..e]
  {
    var u := TrimEnd(s, cs);
    TrimEndSpec(s, cs);
    TrimStartSpec(u, cs);
    TrimBothSlice(s, u, TrimStart(u, cs));
  }

  lemma TrimDropsFront(s: string, cs: set<char>)
    ensures var e := |TrimEnd(s, cs)|;
            var t := TrimStart(TrimEnd(s, cs), cs);
            forall i :: 0 <= i < e - |t| ==> s[i] in cs
  {
    var u := TrimEnd(s, cs);
    var t := TrimStart(u, cs);
    TrimEndSpec(s, cs);
    TrimStartSpec(u, cs);
    forall i | 0 <= i < |u| - |t| ensures s[i] in cs {
      assert s[i] == u[i];
    }
  }

  lemma TrimDropsBack(s: string, cs: set<char>)
    ensures var e := |TrimEnd(s, cs)|;
            var t := TrimStart(TrimEnd(s, cs), cs);
            (forall i :: e <= i < |s| ==> s[i] in cs)
            && (t == [] || (t[0] !in cs && t[|t| - 1] !in cs))
  {
    var u := TrimEnd(s, cs);
    var t := TrimStart(u, cs);
    TrimEndSpec(s, cs);
    TrimStartSpec(u, cs);
    if t != [] {
      assert t[|t| - 1] == u[|u| - 1];
    }
  }

  /** A suffix `t` of a prefix `u` of `s` is a slice of `s`, and what `t`
      leaves out of `u` at the front is `s`'s too. */
  lemma TrimBothSlice(s: string, u: string, t: string)
    requires |u| <= |s| && u == s[..|u|] && |t| <= |u| && t == u[|u| - |t|..]
    ensures t == s[|u| - |t|..|u|]
    ensures forall i :: 0 <= i < |u| - |t| ==> s[i] == u[i]
  {
  }

  /** Stripping twice is stripping once. */
  lemma StripIdempotent(s: string)
    ensures Strip(Strip(s)) == Strip(s)
  {
    var t := Strip(s);
    StripSlice(s);
    TrimEndAt(t, [], Whitespace);
    assert t + [] == t;
    TrimStartAt([], t, Whitespace);
    assert [] + t == t;
  }

  // ---------------------------------------------------------------- case

  /** Lower-casing of one character (ASCII letters only). */
  function LowerChar(c: char): char
  {
    if 'A' <= c <= 'Z' then (c as int - 'A' as int + 'a' as int) as char else c
  }

  /** Python `s.lower()` on ASCII letters. */
  function Lower(s: string): string
  {
    seq(|s|, i requires 0 <= i < |s| => LowerChar(s[i]))
  }

  // ---------------------------------------------------------------- joining

  /** Python `sep.join(parts)`. */
  function Join(sep: string, parts: seq<string>): string
  {
    if |parts| == 0 then ""
    else if |parts| == 1 then parts[0]
    else Join(sep, parts[..|parts| - 1]) + sep + parts[|parts| - 1]
  }

  /** With no part holding `c`, every `c` of the joined string comes from a
      separator: a string of `n` parts carries `n - 1` separators. */
  lemma {:induction false} JoinCount(sep: string, parts: seq<string>, c: char)
    requires |parts| >= 1 && forall i :: 0 <= i < |parts| ==> c !in parts[i]
    ensures multiset(Join(sep, parts))[c] == (|parts| - 1) * multiset(sep)[c]
    decreases |parts|
  {
    var n := |parts| - 1;
    assert c !in multiset(parts[n]);
    if n > 0 {
      JoinCount(sep, parts[..n], c);
      assert multiset(Join(sep, parts)) == multiset(Join(sep, parts[..n])) + multiset(sep) + multiset(parts[n]);
    }
  }

  /** The joined string begins with the first part and a separator. */
  lemma {:induction false} JoinFirst(sep: string, parts: seq<string>)
    requires |parts| >= 2
    ensures StartsWith(Join(sep, parts), parts[0] + sep)
    decreases |parts|
  {
    var n := |parts| - 1;
    var k := |parts[0] + sep|;
    if n == 1 {
      assert Join(sep, parts) == parts[0] + sep + parts[1];
      assert (parts[0] + sep + parts[1])[..k] == parts[0] + sep;
    } else {
      var j := Join(sep, parts[..n]);
      JoinFirst(sep, parts[..n]);
      assert (j + sep + parts[n])[..k] == j[..k];
    }
  }

  /** A join splits at any part boundary into the join of the parts before
      it, a separator, and the join of the parts after it. */
  lemma {:induction false} JoinSplit(sep: string, parts: seq<string>, k: nat)
    requires 1 <= k < |parts|
    ensures Join(sep, parts) == Join(sep, parts[..k]) + sep + Join(sep, parts[k..])
    decreases |parts|
  {
    var n := |parts| - 1;
    if k < n {
      JoinSplit(sep, parts[..n], k);
      assert parts[..n][..k] == parts[..k];
      assert parts[..n][k..] == parts[k..][..|parts[k..]| - 1];
      assert parts[k..][|parts[k..]| - 1] == parts[n];
    } else {
      assert parts[k..] == [parts[n]];
    }
  }

  // ---------------------------------------------------------------- numbers

  predicate IsDigit(c: char)
  {
    '0' <= c <= '9'
  }

  predicate AllDigits(s: string)
  {
    forall i :: 0 <= i < |s| ==> IsDigit(s[i])
  }

  /** Python `int(s)` for a run of ASCII decimal digits. */
  function DigitsValue(s: string): nat
    requires AllDigits(s)
  {
    if s == [] then 0
    else DigitsValue(s[..|s| - 1]) * 10 + (s[|s| - 1] as int - '0' as int)
  }

  function DigitChar(d: nat): (c: char)
    requires d < 10
    ensures IsDigit(c)
  {
    ('0' as int + d) as char
  }

  /** Python `str(n)` for a natural number. */
  function Decimal(n: nat): (r: string)
    ensures r != [] && AllDigits(r)
    ensures r[0] == '0' ==> n == 0
  {
    if n < 10 then [DigitChar(n)] else Decimal(n / 10) + [DigitChar(n % 10)]
  }

  /** Reading back what `str` wrote gives the number. */
  lemma {:induction false} DecimalRoundTrip(n: nat)
    ensures DigitsValue(Decimal(n)) == n
  {
    if n >= 10 {
      var r := Decimal(n);
      assert r[..|r| - 1] == Decimal(n / 10);
      DecimalRoundTrip(n / 10);
    }
  }

  function Pow10(k: nat): nat
  {
    if k == 0 then 1 else 10 * Pow10(k - 1)
  }

  /** A number below 10^k is written with at most k digits. */
  lemma {:induction false} DecimalWidth(n: nat, k: nat)
    requires 0 < k && n < Pow10(k)
    ensures |Decimal(n)| <= k
  {
    if n >= 10 {
      assert k > 1;
      assert n / 10 < Pow10(k - 1);
      DecimalWidth(n / 10, k - 1);
    }
  }

  function Zeros(k: nat): (r: string)
    ensures |r| == k && AllDigits(r)
  {
    if k == 0 then "" else "0" + Zeros(k - 1)
  }

  /** `n` zero-padded on the left to at least `width` digits (the `%02d`-style
      fields of `strftime`). */
  function Pad(n: nat, width: nat): (r: string)
    ensures AllDigits(r)
  {
    var d := Decimal(n);
    if |d| < width then Zeros(width - |d|) + d else d
  }

  /** Leading zeros do not change the value of a digit run. */
  lemma {:induction false} LeadingZeros(k: nat, d: string)
    requires AllDigits(d)
    ensures DigitsValue(Zeros(k) + d) == DigitsValue(d)
    decreases |d|
  {
    if d == [] {
      ZerosValue(k);
      assert Zeros(k) + d == Zeros(k);
    } else {
      assert (Zeros(k) + d)[..|Zeros(k) + d| - 1] == Zeros(k) + d[..|d| - 1];
      LeadingZeros(k, d[..|d| - 1]);
    }
  }

  lemma {:induction false} ZerosValue(k: nat)
    ensures DigitsValue(Zeros(k)) == 0
  {
    if k > 0 {
      assert Zeros(k)[..k - 1] == Zeros(k - 1) by {
        ZerosShift(k);
      }
      ZerosValue(k - 1);
    }
  }

  lemma {:induction false} ZerosShift(k: nat)
    requires k > 0
    ensures Zeros(k) == Zeros(k - 1) + "0"
  {
    if k > 1 {
      ZerosShift(k - 1);
    }
  }

  /** A padded field has the requested width and reads back as the number. */
  lemma PadRoundTrip(n: nat, width: nat)
    requires 0 < width && n < Pow10(width)
    ensures |Pad(n, width)| == width
    ensures DigitsValue(Pad(n, width)) == n
  {
    DecimalWidth(n, width);
    DecimalRoundTrip(n);
    var d := Decimal(n);
    if |d| < width {
      LeadingZeros(width - |d|, d);
    }
  }
}
