/**
  The Python string operations the scraper relies on, written out over `seq<char>`:
  `str.isspace`, `strip`, `re.sub(r"\s+", sep, s)`, `replace(p, "")`, `p in s`,
  `sep.join`, `lower`, `isdigit`, `int` and `str` on integers, and `<` on strings.
 */
module Strings {
  import opened Wrappers

  /** Python's `str.isspace`; in a `str` pattern, `re`'s `\s` matches exactly these. */
  predicate IsSpace(c: char) {
    || ('\t' <= c <= '\r')
    || ('\U{1C}' <= c <= ' ')
    || c == '\U{85}' || c == '\U{A0}' || c == '\U{1680}'
    || ('\U{2000}' <= c <= '\U{200A}')
    || c == '\U{2028}' || c == '\U{2029}' || c == '\U{202F}' || c == '\U{205F}'
    || c == '\U{3000}'
  }

  /** Neither end of `s` is whitespace. */
  predicate NoEdgeSpace(s: string) {
    s == [] || (!IsSpace(s[0]) && !IsSpace(s[|s| - 1]))
  }

  /** Every whitespace character of `s` is `sep`, and no two whitespace characters are adjacent. */
  ghost predicate SingleSpaced(s: string, sep: char) {
    && (forall i :: 0 <= i < |s| && IsSpace(s[i]) ==> s[i] == sep)
    && (forall i, j :: 0 <= i < j < |s| && j == i + 1 ==> !(IsSpace(s[i]) && IsSpace(s[j])))
  }

  /** What `re.sub(r"\s+", sep, s).strip()` produces: trimmed, and runs reduced to one `sep`. */
  ghost predicate Normalized(s: string, sep: char) {
    NoEdgeSpace(s) && SingleSpaced(s, sep)
  }

  /** `s.lstrip()` */
  function TrimLeft(s: string): (r: string)
    ensures |r| <= |s| && r == s[|s| - |r|..]
    ensures r == [] || !IsSpace(r[0])
  {
    if s != [] && IsSpace(s[0]) then TrimLeft(s[1..]) else s
  }

  /** What `lstrip` removes is whitespace. */
  lemma {:induction false} TrimLeftSpaces(s: string)
    ensures forall i :: 0 <= i < |s| - |TrimLeft(s)| ==> IsSpace(s[i])
  {
    if s != [] && IsSpace(s[0]) {
      TrimLeftSpaces(s[1..]);
    }
  }

  /** `s.rstrip()` */
  function TrimRight(s: string): (r: string)
    ensures |r| <= |s| && r == s[..|r|]
    ensures r == [] || !IsSpace(r[|r| - 1])
  {
    if s != [] && IsSpace(s[|s| - 1]) then TrimRight(s[..|s| - 1]) else s
  }

  /** What `rstrip` removes is whitespace. */
  lemma {:induction false} TrimRightSpaces(s: string)
    ensures forall i :: |TrimRight(s)| <= i < |s| ==> IsSpace(s[i])
  {
    if s != [] && IsSpace(s[|s| - 1]) {
      TrimRightSpaces(s[..|s| - 1]);
    }
  }

  /** `s.strip()`: leading whitespace dropped, then trailing whitespace. */
  function Strip(s: string): (r: string)
    ensures NoEdgeSpace(r)
    ensures |r| <= |s|
  {
    if s != [] && IsSpace(s[0]) then Strip(s[1..])
    else
      var r := TrimRight(s);
      assert r == [] || !IsSpace(r[0]) by {
        if r != [] { assert r[0] == s[0]; }
      }
      r
  }

  /** Stripping is `rstrip` after `lstrip`. */
  lemma {:induction false} StripIsTrimBoth(s: string)
    ensures Strip(s) == TrimRight(TrimLeft(s))
  {
    if s != [] && IsSpace(s[0]) {
      StripIsTrimBoth(s[1..]);
    }
  }

  /** A prefix of a suffix is a slice. */
  lemma PrefixOfSuffix(s: string, t: string, r: string)
    requires |t| <= |s| && t == s[|s| - |t|..] && |r| <= |t| && r == t[..|r|]
    ensures r == s[|s| - |t|..|s| - |t| + |r|]
  {
  }

  /** `s.strip()` is the slice of `s` that starts where `s.lstrip()` does ... */
  lemma {:induction false} StripSlice(s: string)
    ensures var k, r := |s| - |TrimLeft(s)|, Strip(s); k + |r| <= |s| && r == s[k..k + |r|]
  {
    var t := TrimLeft(s);
    var r := TrimRight(t);
    assert Strip(s) == r by { StripIsTrimBoth(s); }
    assert r == s[|s| - |t|..|s| - |t| + |r|] by { PrefixOfSuffix(s, t, r); }
  }

  /** Whitespace past the prefix `r` of the suffix `t` of `s` is whitespace of `s`. */
  lemma SpaceAfterPrefix(s: string, t: string, m: nat)
    requires |t| <= |s| && t == s[|s| - |t|..] && m <= |t|
    requires forall i :: m <= i < |t| ==> IsSpace(t[i])
    ensures forall i :: |s| - |t| + m <= i < |s| ==> IsSpace(s[i])
  {
    var k := |s| - |t|;
    forall i | k + m <= i < |s| ensures IsSpace(s[i]) {
      assert s[i] == t[i - k];
    }
  }

  /** ... and everything it cuts off either end is whitespace. */
  lemma {:induction false} StripCutsSpace(s: string)
    ensures var k, r := |s| - |TrimLeft(s)|, Strip(s);
      && (forall i :: 0 <= i < k ==> IsSpace(s[i]))
      && (forall i :: k + |r| <= i < |s| ==> IsSpace(s[i]))
  {
    var t := TrimLeft(s);
    StripIsTrimBoth(s);
    TrimLeftSpaces(s);
    TrimRightSpaces(t);
    SpaceAfterPrefix(s, t, |TrimRight(t)|);
  }

  /** `re.sub(r"\s+", sep, s)`: every maximal run of whitespace becomes one `sep`. */
  function Collapse(s: string, sep: string): string
    decreases |s|
  {
    if s == [] then []
    else if IsSpace(s[0]) then sep + Collapse(TrimLeft(s), sep)
    else [s[0]] + Collapse(s[1..], sep)
  }

  /** `s.replace(p, "")`: non-overlapping occurrences, scanned left to right, are deleted. */
  function RemoveAll(s: string, p: string): (r: string)
    ensures |r| <= |s|
    decreases |s|
  {
    if p == [] || |s| < |p| then s
    else if s[..|p|] == p then RemoveAll(s[|p|..], p)
    else [s[0]] + RemoveAll(s[1..], p)
  }

  /** `p in s` */
  predicate Contains(s: string, p: string) {
    p <= s || (s != [] && Contains(s[1..], p))
  }

  /** `sep.join(parts)` */
  function Join(parts: seq<string>, sep: string): string {
    if parts == [] then ""
    else if |parts| == 1 then parts[0]
    else parts[0] + sep + Join(parts[1..], sep)
  }

  /** `s.lower()`, on the ASCII letters (the wiki's labels are Chinese, which has no case). */
  function Lower(s: string): (r: string)
    ensures |r| == |s|
  {
    if s == [] then []
    else [if 'A' <= s[0] <= 'Z' then (s[0] as int + 32) as char else s[0]] + Lower(s[1..])
  }

  /** The characters Python's `isdigit` accepts, restricted to ASCII, fullwidth and superscript digits. */
  predicate IsDigit(c: char) {
    ('0' <= c <= '9') || ('\U{FF10}' <= c <= '\U{FF19}')
    || c == '\U{B9}' || c == '\U{B2}' || c == '\U{B3}' || c == '\U{2070}' || ('\U{2074}' <= c <= '\U{2079}')
  }

  /** `s.isdigit()`: non-empty and made of digits only. */
  predicate IsDigits(s: string) {
    |s| > 0 && forall i :: 0 <= i < |s| ==> IsDigit(s[i])
  }

  // ---------------------------------------------------------------------------
  // int(s) and str(n)
  // ---------------------------------------------------------------------------

  predicate AsciiDigits(s: string) {
    |s| > 0 && forall i :: 0 <= i < |s| ==> '0' <= s[i] <= '9'
  }

  function DigitsValue(s: string): nat
    requires forall i :: 0 <= i < |s| ==> '0' <= s[i] <= '9'
  {
    if s == [] then 0 else 10 * DigitsValue(s[..|s| - 1]) + (s[|s| - 1] as int - '0' as int)
  }

  /** `int(s)` for an optional sign followed by ASCII digits; `None` where Python raises ValueError. */
  function ParseInt(s: string): Option<int> {
    if |s| > 0 && (s[0] == '-' || s[0] == '+') then
      if AsciiDigits(s[1..]) then
        Some(if s[0] == '-' then -(DigitsValue(s[1..]) as int) else DigitsValue(s[1..]))
      else None
    else if AsciiDigits(s) then Some(DigitsValue(s))
    else None
  }

  function NatToString(n: nat): (r: string)
    ensures AsciiDigits(r)
  {
    if n < 10 then [('0' as int + n) as char]
    else NatToString(n / 10) + [('0' as int + n % 10) as char]
  }

  /** `str(n)` */
  function IntToString(n: int): string {
    if n < 0 then "-" + NatToString(-n) else NatToString(n)
  }

  lemma {:induction false} DigitsValueOfNatToString(n: nat)
    ensures DigitsValue(NatToString(n)) == n
  {
    if n >= 10 {
      var s := NatToString(n);
      assert s[..|s| - 1] == NatToString(n / 10);
      DigitsValueOfNatToString(n / 10);
    }
  }

  /** `int(str(n)) == n` */
  lemma {:induction false} ParseIntOfIntToString(n: int)
    ensures ParseInt(IntToString(n)) == Some(n)
  {
    var s := IntToString(n);
    if n < 0 {
      var d := NatToString(-n);
      assert s[0] == '-' && s[1..] == d;
      assert DigitsValue(d) == -n by { DigitsValueOfNatToString(-n); }
    } else {
      assert s == NatToString(n) && AsciiDigits(s);
      assert s[0] != '-' && s[0] != '+';
      assert DigitsValue(s) == n by { DigitsValueOfNatToString(n); }
    }
  }

  // ---------------------------------------------------------------------------
  // Python's `<` on str: lexicographic by code point
  // ---------------------------------------------------------------------------

  predicate LexLess(a: string, b: string) {
    if a == [] then b != []
    else if b == [] then false
    else if a[0] != b[0] then a[0] < b[0]
    else LexLess(a[1..], b[1..])
  }

  lemma {:induction false} LexLessIrreflexive(a: string)
    ensures !LexLess(a, a)
  {
    if a != [] { LexLessIrreflexive(a[1..]); }
  }

  lemma {:induction false} LexLessTransitive(a: string, b: string, c: string)
    requires LexLess(a, b) && LexLess(b, c)
    ensures LexLess(a, c)
  {
    if a != [] && b != [] && c != [] && a[0] == b[0] && b[0] == c[0] {
      LexLessTransitive(a[1..], b[1..], c[1..]);
    }
  }

  lemma {:induction false} LexLessTotal(a: string, b: string)
    requires a != b
    ensures LexLess(a, b) || LexLess(b, a)
  {
    if a != [] && b != [] && a[0] == b[0] {
      assert a == [a[0]] + a[1..] && b == [b[0]] + b[1..];
      LexLessTotal(a[1..], b[1..]);
    }
  }

  // ---------------------------------------------------------------------------
  // Facts about stripping and collapsing
  // ---------------------------------------------------------------------------

  /** Collapsing with a whitespace separator leaves single separators only. */
  lemma {:induction false} CollapseSingleSpaced(s: string, c: char)
    requires IsSpace(c)
    ensures SingleSpaced(Collapse(s, [c]), c)
    ensures Collapse(s, [c]) == [] || (IsSpace(Collapse(s, [c])[0]) <==> IsSpace(s[0]))
    decreases |s|
  {
    if s == [] {
    } else if IsSpace(s[0]) {
      var t := TrimLeft(s);
      CollapseSingleSpaced(t, c);
      var rest := Collapse(t, [c]);
      assert rest == [] || !IsSpace(rest[0]);
      assert Collapse(s, [c]) == [c] + rest;
      ConsSingleSpaced(c, rest, c);
    } else {
      var rest := Collapse(s[1..], [c]);
      CollapseSingleSpaced(s[1..], c);
      assert Collapse(s, [c]) == [s[0]] + rest;
      ConsSingleSpaced(s[0], rest, c);
    }
  }

  /** Putting a non-whitespace character, or `sep` before a non-whitespace start, in front of
      a single-spaced string keeps it single-spaced. */
  lemma ConsSingleSpaced(x: char, rest: string, sep: char)
    requires SingleSpaced(rest, sep)
    requires IsSpace(x) ==> x == sep && (rest == [] || !IsSpace(rest[0]))
    ensures SingleSpaced([x] + rest, sep)
  {
    var s := [x] + rest;
    forall i | 0 <= i < |s| && IsSpace(s[i]) ensures s[i] == sep {
      if i > 0 { assert s[i] == rest[i - 1]; }
    }
    forall i, j | 0 <= i < j < |s| && j == i + 1 ensures !(IsSpace(s[i]) && IsSpace(s[j])) {
      assert s[j] == rest[i];
      if i > 0 { assert s[i] == rest[i - 1]; }
    }
  }

  /** A contiguous slice of a single-spaced string is single-spaced. */
  lemma SliceSingleSpaced(s: string, c: char, k: nat, r: string)
    requires k + |r| <= |s| && r == s[k..k + |r|] && SingleSpaced(s, c)
    ensures SingleSpaced(r, c)
  {
    forall i | 0 <= i < |r| && IsSpace(r[i]) ensures r[i] == c {
      assert r[i] == s[k + i];
    }
    forall i, j | 0 <= i < j < |r| && j == i + 1 ensures !(IsSpace(r[i]) && IsSpace(r[j])) {
      assert r[i] == s[k + i] && r[j] == s[k + j];
    }
  }

  lemma {:induction false} StripSingleSpaced(s: string, c: char)
    requires SingleSpaced(s, c)
    ensures SingleSpaced(Strip(s), c)
  {
    StripSlice(s);
    SliceSingleSpaced(s, c, |s| - |TrimLeft(s)|, Strip(s));
  }

  /** `re.sub(r"\s+", sep, s).strip()` yields a normalized string. */
  lemma CollapseStripNormalized(s: string, c: char)
    requires IsSpace(c)
    ensures Normalized(Strip(Collapse(s, [c])), c)
  {
    CollapseSingleSpaced(s, c);
    StripSingleSpaced(Collapse(s, [c]), c);
  }

  lemma StripIdentity(s: string)
    requires NoEdgeSpace(s)
    ensures Strip(s) == s
  {
  }

  /** A single-spaced string has no run for `re.sub(r"\s+", sep, …)` to rewrite. */
  lemma {:induction false} CollapseIdentity(s: string, c: char)
    requires IsSpace(c) && SingleSpaced(s, c)
    ensures Collapse(s, [c]) == s
    decreases |s|
  {
    if s != [] {
      var t := s[1..];
      SliceSingleSpaced(s, c, 1, t);
      CollapseIdentity(t, c);
      assert s == [s[0]] + t;
      if IsSpace(s[0]) {
        assert s[0] == c;
        assert t == [] || !IsSpace(t[0]) by {
          if t != [] { assert t[0] == s[1]; }
        }
        assert TrimLeft(s) == t;
        assert Collapse(s, [c]) == [c] + Collapse(t, [c]);
      } else {
        assert Collapse(s, [c]) == [s[0]] + Collapse(t, [c]);
      }
    }
  }

  /** Deleting a pattern that does not occur changes nothing. */
  lemma {:induction false} RemoveAllAbsent(s: string, p: string)
    requires !Contains(s, p)
    ensures RemoveAll(s, p) == s
    decreases |s|
  {
    if p != [] && |s| >= |p| {
      assert s[..|p|] != p;
      RemoveAllAbsent(s[1..], p);
      assert s == [s[0]] + s[1..];
    }
  }

  /** When the pattern occurs, deleting it makes the string shorter by at least the pattern's length. */
  lemma {:induction false} RemoveAllShrinks(s: string, p: string)
    requires p != [] && Contains(s, p)
    ensures |RemoveAll(s, p)| <= |s| - |p|
    decreases |s|
  {
    ContainsLength(s, p);
    if s[..|p|] != p {
      assert !(p <= s);
      RemoveAllShrinks(s[1..], p);
    }
  }

  lemma {:induction false} ContainsLength(s: string, p: string)
    requires Contains(s, p)
    ensures |p| <= |s|
  {
    if !(p <= s) { ContainsLength(s[1..], p); }
  }
}
