/**
 * The pieces of Python's `str` behaviour the tracker relies on: `strip()`,
 * `split(sep)`, `str(int)`, `int(text)`, `startswith` and `replace(old, "")`.
 */
module Text {
  import opened Util

  /** The characters `str.isspace()` accepts, which `str.strip()` removes. */
  predicate IsSpace(c: char)
  {
    || ('\U{9}' <= c <= '\U{D}')
    || ('\U{1C}' <= c <= '\U{20}')
    || c == '\U{85}' || c == '\U{A0}' || c == '\U{1680}'
    || ('\U{2000}' <= c <= '\U{200A}')
    || c == '\U{2028}' || c == '\U{2029}' || c == '\U{202F}' || c == '\U{205F}' || c == '\U{3000}'
  }

  predicate IsDigit(c: char)
  {
    '0' <= c <= '9'
  }

  function DigitValue(c: char): (d: nat)
    requires IsDigit(c)
    ensures d < 10
  {
    c as int - '0' as int
  }

  function DigitChar(d: nat): (c: char)
    requires d < 10
    ensures IsDigit(c) && DigitValue(c) == d
  {
    ('0' as int + d) as char
  }

  // ---------------------------------------------------------------- strip

  function StripLeft(s: string): (r: string)
    ensures |r| <= |s| && r == s[|s| - |r|..]
    ensures r == [] || !IsSpace(r[0])
    ensures forall i :: 0 <= i < |s| - |r| ==> IsSpace(s[i])
  {
    if s != [] && IsSpace(s[0]) then StripLeft(s[1..]) else s
  }

  function StripRight(s: string): (r: string)
    ensures |r| <= |s| && r == s[..|r|]
    ensures r == [] || !IsSpace(r[|r| - 1])
    ensures forall i :: |r| <= i < |s| ==> IsSpace(s[i])
  {
    if s != [] && IsSpace(s[|s| - 1]) then StripRight(s[..|s| - 1]) else s
  }

  /** `s.strip()`: `s` without its leading and trailing whitespace. */
  function Strip(s: string): (r: string)
  {
    StripRight(StripLeft(s))
  }

  /** What `strip()` keeps is a contiguous slice of `s` that neither starts nor ends
      with whitespace, and everything it drops is whitespace. */
  lemma StripSlice(s: string)
    ensures exists i, j :: Trimmed(s, Strip(s), i, j)
    ensures Strip(s) == [] || (!IsSpace(Strip(s)[0]) && !IsSpace(Strip(s)[|Strip(s)| - 1]))
  {
    var l := StripLeft(s);
    var r := StripRight(l);
    var i := |s| - |l|;
    TrimmedOf(s, l, r, i);
    assert r == Strip(s);
    assert Trimmed(s, Strip(s), i, i + |r|);
    StripEnds(s);
  }

  lemma TrimmedOf(s: string, l: string, r: string, i: nat)
    requires i + |l| == |s| && l == s[i..] && |r| <= |l| && r == l[..|r|]
    requires forall k :: 0 <= k < i ==> IsSpace(s[k])
    requires forall k :: |r| <= k < |l| ==> IsSpace(l[k])
    ensures Trimmed(s, r, i, i + |r|)
  {
    PrefixOfSuffix(s, i, |r|);
    TrailingSpaces(s, i, l, |r|);
  }

  lemma StripEnds(s: string)
    ensures Strip(s) == [] || (!IsSpace(Strip(s)[0]) && !IsSpace(Strip(s)[|Strip(s)| - 1]))
  {
    var l := StripLeft(s);
    var r := StripRight(l);
    if r != [] {
      assert r[0] == l[0];
    }
  }

  /** `r` is `s[i..j]` and everything of `s` outside that slice is whitespace. */
  ghost predicate Trimmed(s: string, r: string, i: int, j: int)
  {
    0 <= i <= j <= |s| && r == s[i..j]
    && (forall k :: 0 <= k < i ==> IsSpace(s[k]))
    && (forall k :: j <= k < |s| ==> IsSpace(s[k]))
  }

  lemma TrailingSpaces(s: string, i: nat, l: string, n: nat)
    requires i <= |s| && l == s[i..] && n <= |l|
    requires forall k :: n <= k < |l| ==> IsSpace(l[k])
    ensures forall k :: i + n <= k < |s| ==> IsSpace(s[k])
  {
    forall k | i + n <= k < |s| ensures IsSpace(s[k]) {
      assert s[k] == l[k - i];
    }
  }

  lemma PrefixOfSuffix<T>(s: seq<T>, i: nat, n: nat)
    requires i + n <= |s|
    ensures s[i..][..n] == s[i..i + n]
  {
  }

  lemma StripIdempotent(s: string)
    ensures Strip(Strip(s)) == Strip(s)
  {
    StripSlice(s);
  }

  /** A string is blank for `if not line.strip()` exactly when every character is whitespace. */
  lemma BlankIffAllSpace(s: string)
    ensures Strip(s) == [] <==> forall k :: 0 <= k < |s| ==> IsSpace(s[k])
  {
    if forall k :: 0 <= k < |s| ==> IsSpace(s[k]) {
      AllSpaceStripsLeft(s);
    }
  }

  lemma {:induction false} AllSpaceStripsLeft(s: string)
    requires forall k :: 0 <= k < |s| ==> IsSpace(s[k])
    ensures StripLeft(s) == []
  {
    if s != [] {
      AllSpaceStripsLeft(s[1..]);
    }
  }

  // ---------------------------------------------------------------- split / join

  /** `s.split(c)`: the pieces between occurrences of `c`; never an empty list. */
  function Split(s: string, c: char): (r: seq<string>)
    ensures |r| >= 1
    ensures forall k :: 0 <= k < |r| ==> c !in r[k]
  {
    if s == [] then [[]]
    else
      var rest := Split(s[1..], c);
      if s[0] == c then [[]] + rest else [[s[0]] + rest[0]] + rest[1..]
  }

  /** `c.join(pieces)`. */
  function Join(pieces: seq<string>, c: char): string
  {
    if |pieces| == 0 then []
    else if |pieces| == 1 then pieces[0]
    else pieces[0] + [c] + Join(pieces[1..], c)
  }

  /** `sep.join(items)` for a separator of any length. */
  function JoinWith(items: seq<string>, sep: string): string
  {
    if |items| == 0 then []
    else if |items| == 1 then items[0]
    else items[0] + sep + JoinWith(items[1..], sep)
  }

  /** Splitting loses nothing: joining the pieces back gives the input. */
  lemma {:induction false} JoinSplit(s: string, c: char)
    ensures Join(Split(s, c), c) == s
  {
    if s != [] {
      var rest := Split(s[1..], c);
      JoinSplit(s[1..], c);
      if s[0] == c {
        assert Split(s, c) == [[]] + rest;
      } else {
        var r := Split(s, c);
        assert r == [[s[0]] + rest[0]] + rest[1..];
        if |rest| == 1 {
          assert Join(r, c) == [s[0]] + rest[0];
        } else {
          assert r[1..] == rest[1..];
          assert Join(rest, c) == rest[0] + [c] + Join(rest[1..], c);
        }
      }
    }
  }

  lemma {:induction false} SplitNoSeparator(s: string, c: char)
    requires c !in s
    ensures Split(s, c) == [s]
  {
    if s != [] {
      SplitNoSeparator(s[1..], c);
      assert [s[0]] + s[1..] == s;
    }
  }

  lemma {:induction false} SplitAtSeparator(a: string, b: string, c: char)
    requires c !in a
    ensures Split(a + [c] + b, c) == [a] + Split(b, c)
  {
    if a == [] {
      assert a + [c] + b == [c] + b;
      assert ([c] + b)[1..] == b;
    } else {
      var s := a + [c] + b;
      assert s[0] == a[0] && s[1..] == a[1..] + [c] + b;
      SplitAtSeparator(a[1..], b, c);
      assert [a[0]] + a[1..] == a;
    }
  }

  /** Joining pieces that do not contain the separator and splitting again gives them back. */
  lemma {:induction false} SplitJoin(pieces: seq<string>, c: char)
    requires |pieces| >= 1
    requires forall k :: 0 <= k < |pieces| ==> c !in pieces[k]
    ensures Split(Join(pieces, c), c) == pieces
  {
    if |pieces| == 1 {
      SplitNoSeparator(pieces[0], c);
    } else {
      SplitJoin(pieces[1..], c);
      SplitAtSeparator(pieces[0], Join(pieces[1..], c), c);
    }
  }

  // ---------------------------------------------------------------- str(int)

  function NatToString(n: nat): (r: string)
    ensures |r| >= 1
    ensures forall k :: 0 <= k < |r| ==> IsDigit(r[k])
  {
    if n < 10 then [DigitChar(n)] else NatToString(n / 10) + [DigitChar(n % 10)]
  }

  /** `str(i)` for a Python `int`. */
  function IntToString(i: int): (r: string)
  {
    if i < 0 then "-" + NatToString(-i) else NatToString(i)
  }

  /** `str(i)` never contains whitespace, commas, underscores or `=`. */
  lemma IntToStringChars(i: int)
    ensures forall k :: 0 <= k < |IntToString(i)| ==> IsDigit(IntToString(i)[k]) || IntToString(i)[k] == '-'
    ensures ' ' !in IntToString(i) && ',' !in IntToString(i) && '=' !in IntToString(i) && '_' !in IntToString(i)
  {
  }

  // ---------------------------------------------------------------- int(text)

  /** Digits with single underscores between them, as `int()` accepts. */
  predicate WellFormedDigits(s: string)
  {
    && |s| > 0 && IsDigit(s[0]) && IsDigit(s[|s| - 1])
    && (forall k :: 0 <= k < |s| ==> IsDigit(s[k]) || s[k] == '_')
    && (forall k :: 0 <= k < |s| - 1 && s[k] == '_' ==> IsDigit(s[k + 1]))
  }

  function DigitsValue(s: string): nat
    requires forall k :: 0 <= k < |s| ==> IsDigit(s[k]) || s[k] == '_'
  {
    if s == [] then 0
    else
      var init := DigitsValue(s[..|s| - 1]);
      if s[|s| - 1] == '_' then init else init * 10 + DigitValue(s[|s| - 1])
  }

  /** `int(text)` on an already stripped string; `None` where Python raises `ValueError`.
      Only ASCII digits are recognised. */
  function ParseInt(s: string): Option<int>
  {
    if |s| > 0 && (s[0] == '+' || s[0] == '-') then
      if WellFormedDigits(s[1..]) then
        Some(if s[0] == '-' then -(DigitsValue(s[1..]) as int) else DigitsValue(s[1..]))
      else None
    else if WellFormedDigits(s) then Some(DigitsValue(s))
    else None
  }

  lemma {:induction false} NatToStringValue(n: nat)
    ensures DigitsValue(NatToString(n)) == n
  {
    if n >= 10 {
      var init := NatToString(n / 10);
      var r := NatToString(n);
      assert r == init + [DigitChar(n % 10)];
      assert r[..|r| - 1] == init;
      NatToStringValue(n / 10);
    }
  }

  /** `int(str(i)) == i`. */
  lemma ParseIntOfString(i: int)
    ensures ParseInt(IntToString(i)) == Some(i)
  {
    if i < 0 {
      var n: nat := -i;
      var d := NatToString(n);
      assert IntToString(i) == "-" + d;
      NatToStringValue(n);
      ParseNegative(d);
    } else {
      var n: nat := i;
      var d := NatToString(n);
      assert IntToString(i) == d;
      NatToStringValue(n);
      ParseDigits(d);
    }
  }

  lemma ParseDigits(d: string)
    requires |d| > 0 && forall k :: 0 <= k < |d| ==> IsDigit(d[k])
    ensures ParseInt(d) == Some(DigitsValue(d))
  {
    assert IsDigit(d[0]) && IsDigit(d[|d| - 1]);
  }

  lemma ParseNegative(d: string)
    requires |d| > 0 && forall k :: 0 <= k < |d| ==> IsDigit(d[k])
    ensures ParseInt("-" + d) == Some(-(DigitsValue(d) as int))
  {
    var s := "-" + d;
    assert s[0] == '-' && s[1..] == d;
    assert IsDigit(d[0]) && IsDigit(d[|d| - 1]);
  }

  /** `str` is injective on integers. */
  lemma IntToStringInjective(a: int, b: int)
    requires IntToString(a) == IntToString(b)
    ensures a == b
  {
    ParseIntOfString(a);
    ParseIntOfString(b);
  }

  // ---------------------------------------------------------------- prefixes

  predicate StartsWith(s: string, prefix: string)
  {
    |prefix| <= |s| && s[..|prefix|] == prefix
  }

  predicate MatchesAt(s: string, pat: string, k: nat)
  {
    k + |pat| <= |s| && s[k..k + |pat|] == pat
  }

  /** `pat in s` for strings. */
  predicate Occurs(pat: string, s: string)
  {
    exists k: nat :: k <= |s| && MatchesAt(s, pat, k)
  }

  /** `s.replace(pat, "")`: every non-overlapping occurrence, scanning left to right, removed. */
  function RemoveAll(s: string, pat: string): (r: string)
    requires |pat| > 0
    ensures |r| <= |s|
    decreases |s|
  {
    if |s| < |pat| then s
    else if s[..|pat|] == pat then RemoveAll(s[|pat|..], pat)
    else [s[0]] + RemoveAll(s[1..], pat)
  }

  /** Removing a pattern that does not occur changes nothing. */
  lemma {:induction false} RemoveAllAbsent(s: string, pat: string)
    requires |pat| > 0 && !Occurs(pat, s)
    ensures RemoveAll(s, pat) == s
  {
    if |s| >= |pat| {
      assert !MatchesAt(s, pat, 0);
      assert s[0..|pat|] == s[..|pat|];
      assert !Occurs(pat, s[1..]) by {
        forall k: nat | MatchesAt(s[1..], pat, k) ensures MatchesAt(s, pat, k + 1) {
          assert s[1..][k..k + |pat|] == s[k + 1..k + 1 + |pat|];
        }
      }
      RemoveAllAbsent(s[1..], pat);
      assert [s[0]] + s[1..] == s;
    }
  }
}
