/**
 * The Python string operations the tracker relies on, over `seq<char>`:
 * strip, lower, substring search, prefix/suffix tests, join, split and int().
 * Whitespace and case are ASCII-only.
 */
module Text {
  import opened Wrappers

  /** `str.isspace()` on the ASCII range: space, \t \n \v \f \r and the separators \x1c-\x1f. */
  predicate IsSpace(c: char) {
    c == ' ' || 9 <= c as int <= 13 || 28 <= c as int <= 31
  }

  /** The ASCII line boundaries of `str.splitlines()`: \n \v \f \r \x1c \x1d \x1e. */
  const LineBreaks: set<char> := {10 as char, 11 as char, 12 as char, 13 as char, 28 as char, 29 as char, 30 as char}

  predicate AllSpace(s: string) {
    forall i :: 0 <= i < |s| ==> IsSpace(s[i])
  }

  /** A string with no leading and no trailing whitespace. */
  predicate IsStripped(s: string) {
    s == [] || (!IsSpace(s[0]) && !IsSpace(s[|s| - 1]))
  }

  /** The index of the first non-space character at or after `i`, or |s| if there is none. */
  function SkipSpaces(s: string, i: nat): (j: nat)
    requires i <= |s|
    ensures i <= j <= |s|
    ensures forall k :: i <= k < j ==> IsSpace(s[k])
    ensures j == |s| || !IsSpace(s[j])
    decreases |s| - i
  {
    if i < |s| && IsSpace(s[i]) then SkipSpaces(s, i + 1) else i
  }

  /** The index just past the last non-space character before `e`, or 0 if there is none. */
  function TrimEnd(s: string, e: nat): (j: nat)
    requires e <= |s|
    ensures j <= e
    ensures forall k :: j <= k < e ==> IsSpace(s[k])
    ensures j == 0 || !IsSpace(s[j - 1])
  {
    if e > 0 && IsSpace(s[e - 1]) then TrimEnd(s, e - 1) else e
  }

  /** `str.strip()`: the string without its leading and trailing whitespace. */
  function Strip(s: string): (r: string)
    ensures IsStripped(r)
    ensures |r| <= |s|
  {
    var a := SkipSpaces(s, 0);
    var b := TrimEnd(s, |s|);
    if a < b then s[a..b] else []
  }

  /** A run of spaces from `i` that ends at `j` is what `SkipSpaces` skips. */
  lemma {:induction false} SkipSpacesTo(s: string, i: nat, j: nat)
    requires i <= j <= |s|
    requires forall k :: i <= k < j ==> IsSpace(s[k])
    requires j == |s| || !IsSpace(s[j])
    ensures SkipSpaces(s, i) == j
    decreases j - i
  {
    if i < j {
      SkipSpacesTo(s, i + 1, j);
    }
  }

  /** A run of spaces that ends at `e` and starts after a non-space at `j - 1` is what `TrimEnd` trims. */
  lemma {:induction false} TrimEndTo(s: string, e: nat, j: nat)
    requires j <= e <= |s|
    requires forall k :: j <= k < e ==> IsSpace(s[k])
    requires j == 0 || !IsSpace(s[j - 1])
    ensures TrimEnd(s, e) == j
    decreases e - j
  {
    if j < e {
      TrimEndTo(s, e - 1, j);
    }
  }

  /** Stripping removes exactly the whitespace around a stripped core. */
  lemma StripFrame(pre: string, core: string, post: string)
    requires AllSpace(pre) && AllSpace(post)
    requires IsStripped(core)
    ensures Strip(pre + core + post) == core
  {
    if core == [] {
      StripBlank(pre, post);
      assert pre + core + post == pre + post;
    } else {
      StripAround(pre, core, post);
    }
  }

  /** Text of spaces only strips to nothing. */
  lemma StripBlank(pre: string, post: string)
    requires AllSpace(pre) && AllSpace(post)
    ensures Strip(pre + post) == []
  {
    var s := pre + post;
    forall k | 0 <= k < |s|
      ensures IsSpace(s[k])
    {
      if k < |pre| {
        assert s[k] == pre[k];
      } else {
        assert s[k] == post[k - |pre|];
      }
    }
    SkipSpacesTo(s, 0, |s|);
  }

  lemma StripAround(pre: string, core: string, post: string)
    requires AllSpace(pre) && AllSpace(post)
    requires core != [] && IsStripped(core)
    ensures Strip(pre + core + post) == core
  {
    var s := pre + core + post;
    var a := |pre|;
    var b := |pre| + |core|;
    assert s[a] == core[0] && s[b - 1] == core[|core| - 1];
    assert forall k :: 0 <= k < a ==> s[k] == pre[k];
    assert forall k :: b <= k < |s| ==> s[k] == post[k - b];
    SkipSpacesTo(s, 0, a);
    TrimEndTo(s, |s|, b);
    assert s[a..b] == core;
  }

  /** The stripped text is a slice of the original. */
  lemma StripIsSlice(s: string) returns (a: nat)
    ensures a + |Strip(s)| <= |s| && Strip(s) == s[a..a + |Strip(s)|]
  {
    var x := SkipSpaces(s, 0);
    var b := TrimEnd(s, |s|);
    a := if x < b then x else 0;
  }

  lemma StripOfStripped(s: string)
    requires IsStripped(s)
    ensures Strip(s) == s
  {
    assert [] + s + [] == s;
    StripFrame([], s, []);
  }

  /** Stripping a text that ends in a stripped, non-empty tail keeps that tail. */
  lemma StripKeepsTail(x: string, y: string)
    requires y != [] && IsStripped(y)
    ensures EndsWith(Strip(x + y), y)
  {
    var s := x + y;
    assert s[|x|] == y[0] && s[|s| - 1] == y[|y| - 1];
    TrimEndTo(s, |s|, |s|);
    var a := SkipSpaces(s, 0);
    assert a <= |x|;
    assert Strip(s) == s[a..];
    assert s[a..][|s| - a - |y|..] == s[|x|..] == y;
  }

  function LowerChar(c: char): char {
    if 'A' <= c <= 'Z' then (c as int + 32) as char else c
  }

  /** `str.lower()` on ASCII letters. */
  function Lower(s: string): (r: string)
    ensures |r| == |s|
    ensures forall i :: 0 <= i < |s| ==> r[i] == LowerChar(s[i])
  {
    if s == [] then [] else [LowerChar(s[0])] + Lower(s[1..])
  }

  predicate OccursAt(s: string, pat: string, i: int) {
    0 <= i && i + |pat| <= |s| && s[i..i + |pat|] == pat
  }

  /** Python's `pat in s`. */
  predicate Contains(s: string, pat: string) {
    exists i :: 0 <= i <= |s| && OccursAt(s, pat, i)
  }

  predicate StartsWith(s: string, p: string) {
    |p| <= |s| && s[..|p|] == p
  }

  predicate EndsWith(s: string, p: string) {
    |p| <= |s| && s[|s| - |p|..] == p
  }

  function FindFrom(s: string, pat: string, from: nat): (r: Option<nat>)
    ensures r.Some? ==> from <= r.value && OccursAt(s, pat, r.value)
    ensures r.Some? ==> forall k :: from <= k < r.value ==> !OccursAt(s, pat, k)
    ensures r.None? ==> forall k :: from <= k ==> !OccursAt(s, pat, k)
    decreases |s| - from
  {
    if from + |pat| > |s| then None
    else if s[from..from + |pat|] == pat then Some(from)
    else FindFrom(s, pat, from + 1)
  }

  /** `s.index(pat)` when `pat in s`: the index of the first occurrence. */
  function IndexOf(s: string, pat: string): (r: Option<nat>)
    ensures r.Some? <==> Contains(s, pat)
    ensures r.Some? ==> OccursAt(s, pat, r.value) && forall k :: 0 <= k < r.value ==> !OccursAt(s, pat, k)
  {
    FindFrom(s, pat, 0)
  }

  /** `sep.join(parts)`. */
  function Join(parts: seq<string>, sep: string): string {
    if |parts| == 0 then ""
    else if |parts| == 1 then parts[0]
    else parts[0] + sep + Join(parts[1..], sep)
  }

  /** No character of `p` is in `seps`. */
  predicate Avoids(p: string, seps: set<char>) {
    forall i :: 0 <= i < |p| ==> p[i] !in seps
  }

  /** Split at every character of `seps`; splitting at one character is Python's `s.split(c)`. */
  function SplitOn(s: string, seps: set<char>): (r: seq<string>)
    ensures |r| >= 1
    ensures forall k :: 0 <= k < |r| ==> Avoids(r[k], seps)
  {
    if s == [] then [""]
    else
      var rest := SplitOn(s[1..], seps);
      if s[0] in seps then [""] + rest else [[s[0]] + rest[0]] + rest[1..]
  }

  /** The pieces between line boundaries; differs from `str.splitlines()` only by empty pieces. */
  function SplitLines(s: string): seq<string> {
    SplitOn(s, LineBreaks)
  }

  lemma JoinCons(p: string, q: string, tail: seq<string>, sep: string)
    ensures Join([p + q] + tail, sep) == p + Join([q] + tail, sep)
  {
    var a := [p + q] + tail;
    var b := [q] + tail;
    assert a[1..] == tail && b[1..] == tail;
  }

  /** Joining the pieces of a split with the separator gives back the text. */
  lemma {:induction false} JoinSplit(s: string, d: char)
    ensures Join(SplitOn(s, {d}), [d]) == s
  {
    if s != [] {
      var rest := SplitOn(s[1..], {d});
      JoinSplit(s[1..], d);
      if s[0] == d {
        assert ([""] + rest)[1..] == rest;
      } else {
        JoinCons([s[0]], rest[0], rest[1..], [d]);
        assert [rest[0]] + rest[1..] == rest;
      }
    }
  }

  /** Splitting a join whose parts avoid every separator gives back the parts. */
  lemma {:induction false} SplitJoin(parts: seq<string>, d: char, seps: set<char>)
    requires |parts| >= 1 && d in seps
    requires forall k :: 0 <= k < |parts| ==> Avoids(parts[k], seps)
    ensures SplitOn(Join(parts, [d]), seps) == parts
  {
    if |parts| == 1 {
      SplitNoSep(parts[0], seps);
    } else {
      SplitJoin(parts[1..], d, seps);
      var tail := Join(parts[1..], [d]);
      SplitPrefix(parts[0], [d] + tail, seps);
      assert ([d] + tail)[1..] == tail;
      assert [parts[0]] + parts[1..] == parts;
      assert parts[0] + [d] + tail == parts[0] + ([d] + tail);
    }
  }

  lemma {:induction false} SplitNoSep(p: string, seps: set<char>)
    requires Avoids(p, seps)
    ensures SplitOn(p, seps) == [p]
  {
    if p != [] {
      SplitNoSep(p[1..], seps);
      assert [p[0]] + p[1..] == p;
    }
  }

  /** A separator-free prefix glues onto the first piece of what follows it. */
  lemma {:induction false} SplitPrefix(p: string, rest: string, seps: set<char>)
    requires Avoids(p, seps)
    requires rest != [] && rest[0] in seps
    ensures SplitOn(p + rest, seps) == [p] + SplitOn(rest[1..], seps)
  {
    if p == [] {
      assert p + rest == rest;
    } else {
      assert (p + rest)[1..] == p[1..] + rest;
      SplitPrefix(p[1..], rest, seps);
      assert [p[0]] + p[1..] == p;
    }
  }

  /** Number of occurrences of a character. */
  function CountChar(s: string, c: char): nat {
    if s == [] then 0 else (if s[0] == c then 1 else 0) + CountChar(s[1..], c)
  }

  lemma {:induction false} CountConcat(a: string, b: string, c: char)
    ensures CountChar(a + b, c) == CountChar(a, c) + CountChar(b, c)
  {
    if a == [] {
      assert a + b == b;
    } else {
      assert (a + b)[0] == a[0];
      assert (a + b)[1..] == a[1..] + b;
      CountConcat(a[1..], b, c);
    }
  }

  lemma CountConcat3(a: string, b: string, d: string, c: char)
    ensures CountChar(a + b + d, c) == CountChar(a, c) + CountChar(b, c) + CountChar(d, c)
  {
    CountConcat(a, b, c);
    CountConcat(a + b, d, c);
  }

  /** A join of parts holding one `c` each, with a separator holding none, holds one `c` per part. */
  lemma {:induction false} CountJoin(parts: seq<string>, sep: string, c: char)
    requires forall k :: 0 <= k < |parts| ==> CountChar(parts[k], c) == 1
    requires CountChar(sep, c) == 0
    ensures CountChar(Join(parts, sep), c) == |parts|
  {
    if |parts| == 1 {
    } else if |parts| > 1 {
      CountJoin(parts[1..], sep, c);
      CountConcat(parts[0], sep, c);
      CountConcat(parts[0] + sep, Join(parts[1..], sep), c);
    }
  }

  predicate IsDigit(c: char) {
    '0' <= c <= '9'
  }

  predicate AllDigits(s: string) {
    forall i :: 0 <= i < |s| ==> IsDigit(s[i])
  }

  function DigitChar(d: nat): char
    requires d < 10
  {
    ('0' as int + d) as char
  }

  function DigitsValue(s: string): nat
    requires AllDigits(s)
  {
    if s == [] then 0 else DigitsValue(s[..|s| - 1]) * 10 + (s[|s| - 1] as int - '0' as int)
  }

  /** `str(n)` for a natural number. */
  function ShowNat(n: nat): (s: string)
    ensures s != [] && AllDigits(s)
  {
    if n < 10 then [DigitChar(n)] else ShowNat(n / 10) + [DigitChar(n % 10)]
  }

  /** `str(n)`. */
  function ShowInt(n: int): string {
    if n < 0 then "-" + ShowNat(-n) else ShowNat(n)
  }

  /** `int(s)` for text: optional surrounding whitespace, an optional sign, then decimal digits; None where Python raises ValueError. */
  function ParseInt(s: string): (r: Option<int>)
    ensures r.Some? ==> Strip(s) != []
  {
    ParseSigned(Strip(s))
  }

  function ParseSigned(t: string): (r: Option<int>)
    ensures r.Some? ==> t != []
  {
    if t == [] then None
    else
      var digits := if t[0] == '-' || t[0] == '+' then t[1..] else t;
      if digits != [] && AllDigits(digits) then
        var v: int := DigitsValue(digits);
        Some(if t[0] == '-' then -v else v)
      else None
  }

  lemma {:induction false} ShowNatValue(n: nat)
    ensures DigitsValue(ShowNat(n)) == n
  {
    if n >= 10 {
      ShowNatValue(n / 10);
      var s := ShowNat(n / 10) + [DigitChar(n % 10)];
      assert s[..|s| - 1] == ShowNat(n / 10);
    }
  }

  /** Digits alone parse to their value. */
  lemma ParseUnsigned(digits: string)
    requires digits != [] && AllDigits(digits)
    ensures ParseInt(digits) == Some(DigitsValue(digits) as int)
  {
    assert IsDigit(digits[0]) && IsDigit(digits[|digits| - 1]);
    StripOfStripped(digits);
  }

  lemma ParseNegative(digits: string)
    requires digits != [] && AllDigits(digits)
    ensures ParseInt("-" + digits) == Some(-(DigitsValue(digits) as int))
  {
    var t := "-" + digits;
    assert IsStripped(t) by {
      assert t[0] == '-' && t[|t| - 1] == digits[|digits| - 1];
      assert IsDigit(digits[|digits| - 1]);
    }
    StripOfStripped(t);
    ParseSignedNegative(digits, t);
  }

  lemma ParseSignedNegative(digits: string, t: string)
    requires digits != [] && AllDigits(digits) && t == "-" + digits
    ensures ParseSigned(t) == Some(-(DigitsValue(digits) as int))
  {
    assert t[0] == '-';
    assert t[1..] == digits;
  }

  /** `int(str(n)) == n`. */
  lemma ParseShowInt(n: int)
    ensures ParseInt(ShowInt(n)) == Some(n)
  {
    var d := ShowNat(if n < 0 then -n else n);
    ShowNatValue(if n < 0 then -n else n);
    if n < 0 {
      assert ShowInt(n) == "-" + d;
      ParseNegative(d);
    } else {
      assert ShowInt(n) == d;
      ParseUnsigned(d);
    }
  }

  /** `[p.strip() for p in parts if p.strip()]`: the stripped parts, blank ones dropped, in order. */
  function StrippedNonBlank(parts: seq<string>): (r: seq<string>)
    ensures |r| <= |parts|
    ensures forall k :: 0 <= k < |r| ==> r[k] != [] && IsStripped(r[k])
  {
    if parts == [] then []
    else
      var head := Strip(parts[0]);
      (if head != [] then [head] else []) + StrippedNonBlank(parts[1..])
  }

  /** Parts that are already stripped and non-blank come back unchanged. */
  lemma {:induction false} StrippedNonBlankKeeps(parts: seq<string>)
    requires forall k :: 0 <= k < |parts| ==> parts[k] != [] && IsStripped(parts[k])
    ensures StrippedNonBlank(parts) == parts
  {
    if parts != [] {
      assert [parts[0]] + parts[1..] == parts;
      StrippedNonBlankCons(parts[0], parts[1..]);
      StrippedNonBlankKeeps(parts[1..]);
    }
  }

  lemma StrippedNonBlankCons(head: string, rest: seq<string>)
    requires head != [] && IsStripped(head)
    ensures StrippedNonBlank([head] + rest) == [head] + StrippedNonBlank(rest)
  {
    StripOfStripped(head);
    assert ([head] + rest)[1..] == rest;
  }

  /** Parts free of `seps` stay free of them once stripped and filtered. */
  lemma {:induction false} CleanPartsAvoid(parts: seq<string>, seps: set<char>)
    requires forall k :: 0 <= k < |parts| ==> Avoids(parts[k], seps)
    ensures forall k :: 0 <= k < |StrippedNonBlank(parts)| ==> Avoids(StrippedNonBlank(parts)[k], seps)
  {
    if parts != [] {
      StripAvoids(parts[0], seps);
      assert forall k :: 0 <= k < |parts| - 1 ==> parts[1..][k] == parts[k + 1];
      CleanPartsAvoid(parts[1..], seps);
      var head := Strip(parts[0]);
      var rest := StrippedNonBlank(parts[1..]);
      if head != [] {
        var r := [head] + rest;
        assert StrippedNonBlank(parts) == r;
        forall k | 0 <= k < |r|
          ensures Avoids(r[k], seps)
        {
          if k > 0 {
            assert r[k] == rest[k - 1];
          }
        }
      } else {
        assert StrippedNonBlank(parts) == [] + rest;
      }
    }
  }

  /** The stripped, non-blank pieces of `s` split at `seps`: none holds a separator. */
  function CleanSplit(s: string, seps: set<char>): (r: seq<string>)
    ensures forall k :: 0 <= k < |r| ==> r[k] != [] && IsStripped(r[k])
    ensures forall k :: 0 <= k < |r| ==> Avoids(r[k], seps)
  {
    CleanPartsAvoid(SplitOn(s, seps), seps);
    StrippedNonBlank(SplitOn(s, seps))
  }

  /** Stripping only removes characters, so a part free of `seps` stays free of them. */
  lemma StripAvoids(p: string, seps: set<char>)
    requires Avoids(p, seps)
    ensures Avoids(Strip(p), seps)
  {
    var a := StripIsSlice(p);
    var r := Strip(p);
    forall i | 0 <= i < |r|
      ensures r[i] !in seps
    {
      assert r[i] == p[a + i];
    }
  }

}
