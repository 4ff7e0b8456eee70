/** The few ECMAScript string operations the converter relies on:
    `String.prototype.trim`, `toLowerCase` (ASCII letters only),
    number-to-string conversion of non-negative integers, `parseInt` of a
    digit string, and `String.prototype.replace` with a string pattern. */
module JsString {
  import opened Wrappers

  /** WhiteSpace and LineTerminator code points of ECMA-262 (sections 12.2
      and 12.3), the characters `trim` removes. */
  predicate IsWhitespace(c: char) {
    || c == '\t' || c == '\n' || c == '\U{000B}' || c == '\U{000C}' || c == '\r'
    || c == ' ' || c == '\U{00A0}' || c == '\U{1680}'
    || ('\U{2000}' <= c <= '\U{200A}')
    || c == '\U{2028}' || c == '\U{2029}' || c == '\U{202F}' || c == '\U{205F}'
    || c == '\U{3000}' || c == '\U{FEFF}'
  }

  predicate AllWhitespace(s: string) {
    forall i :: 0 <= i < |s| ==> IsWhitespace(s[i])
  }

  /** Neither end of `s` is whitespace. */
  predicate IsTrimmed(s: string) {
    s != [] ==> !IsWhitespace(s[0]) && !IsWhitespace(s[|s| - 1])
  }

  /** `t` is `s` with a whitespace-only prefix and suffix cut off, and
      nothing else removed: the reference meaning of `trim`. */
  predicate IsTrimOf(s: string, t: string) {
    exists i: nat | i <= |s| :: IsTrimAt(s, t, i)
  }

  /** `t` is the trim of `s` and starts at index `i` of `s`. */
  predicate IsTrimAt(s: string, t: string, i: nat) {
    i <= |s| - |t| && t == s[i..i + |t|]
      && AllWhitespace(s[..i]) && AllWhitespace(s[i + |t|..]) && IsTrimmed(t)
  }

  function TrimStart(s: string): (r: string)
    ensures |r| <= |s| && r == s[|s| - |r|..]
    ensures AllWhitespace(s[..|s| - |r|])
    ensures r != [] ==> !IsWhitespace(r[0])
  {
    if s == [] || !IsWhitespace(s[0]) then s
    else
      var r := TrimStart(s[1..]);
      assert s[..|s| - |r|] == [s[0]] + s[1..][..|s| - 1 - |r|];
      r
  }

  function TrimEnd(s: string): (r: string)
    ensures |r| <= |s| && r == s[..|r|]
    ensures AllWhitespace(s[|r|..])
    ensures r != [] ==> !IsWhitespace(r[|r| - 1])
  {
    if s == [] || !IsWhitespace(s[|s| - 1]) then s
    else
      var r := TrimEnd(s[..|s| - 1]);
      assert s[|r|..] == s[..|s| - 1][|r|..] + [s[|s| - 1]];
      r
  }

  /** `String.prototype.trim`. */
  function Trim(s: string): (r: string)
    ensures IsTrimOf(s, r)
  {
    var a := TrimStart(s);
    var r := TrimEnd(a);
    TrimParts(s, a, r);
    r
  }

  /** Cutting leading whitespace off `s` to get `a`, then trailing
      whitespace off `a` to get `r`, leaves the trim of `s`. */
  lemma TrimParts(s: string, a: string, r: string)
    requires |a| <= |s| && a == s[|s| - |a|..] && AllWhitespace(s[..|s| - |a|])
    requires a != [] ==> !IsWhitespace(a[0])
    requires |r| <= |a| && r == a[..|r|] && AllWhitespace(a[|r|..])
    requires r != [] ==> !IsWhitespace(r[|r| - 1])
    ensures IsTrimAt(s, r, |s| - |a|)
  {
    var i := |s| - |a|;
    assert r == s[i..i + |r|];
    assert s[i + |r|..] == a[|r|..];
  }

  lemma {:induction false} TrimStartSkips(w: string, u: string)
    requires AllWhitespace(w)
    requires u != [] ==> !IsWhitespace(u[0])
    ensures TrimStart(w + u) == u
    decreases |w|
  {
    if w != [] {
      assert (w + u)[1..] == w[1..] + u;
      TrimStartSkips(w[1..], u);
    }
  }

  lemma {:induction false} TrimEndSkips(u: string, w: string)
    requires AllWhitespace(w)
    requires u != [] ==> !IsWhitespace(u[|u| - 1])
    ensures TrimEnd(u + w) == u
    decreases |w|
  {
    if w != [] {
      assert (u + w)[..|u + w| - 1] == u + w[..|w| - 1];
      TrimEndSkips(u, w[..|w| - 1]);
    }
  }

  lemma TrimAtIsTrim(s: string, t: string, i: nat)
    requires IsTrimAt(s, t, i)
    ensures Trim(s) == t
  {
    var pre, suf := s[..i], s[i + |t|..];
    assert s == pre + (t + suf);
    if t == [] {
      assert AllWhitespace(pre + suf);
      assert s == (pre + suf) + [];
      TrimStartSkips(pre + suf, []);
    } else {
      TrimStartSkips(pre, t + suf);
      TrimEndSkips(t, suf);
    }
  }

  lemma TrimmedIsFixed(t: string)
    requires IsTrimmed(t)
    ensures Trim(t) == t
  {
    TrimStartSkips([], t);
    assert [] + t == t == t + [];
    TrimEndSkips(t, []);
  }

  /** Whatever the reference meaning admits is exactly what `trim`
      returns, and trimming it again changes nothing. */
  lemma TrimUnique(s: string, t: string)
    requires IsTrimOf(s, t)
    ensures t == Trim(s)
    ensures Trim(t) == t
  {
    var i: nat :| i <= |s| && IsTrimAt(s, t, i);
    TrimAtIsTrim(s, t, i);
    TrimmedIsFixed(t);
  }

  predicate IsUpper(c: char) {
    'A' <= c <= 'Z'
  }

  /** An ASCII upper-case letter is mapped to lower case; every other
      character is left alone. */
  function LowerChar(c: char): char {
    if IsUpper(c) then (c as int - 'A' as int + 'a' as int) as char else c
  }

  /** `toLowerCase`, restricted to the ASCII letters: no upper-case letter
      is left, each one becomes the same letter in lower case, and every
      other character stays where it was. */
  function ToLower(s: string): (r: string)
    ensures |r| == |s|
    ensures forall i :: 0 <= i < |r| ==> !IsUpper(r[i])
    ensures forall i :: 0 <= i < |s| && !IsUpper(s[i]) ==> r[i] == s[i]
    ensures forall i :: 0 <= i < |s| && IsUpper(s[i]) ==>
      'a' <= r[i] <= 'z' && r[i] as int - 'a' as int == s[i] as int - 'A' as int
  {
    seq(|s|, i requires 0 <= i < |s| => LowerChar(s[i]))
  }

  /** Lower-casing twice is lower-casing once. */
  lemma ToLowerIdempotent(s: string)
    ensures ToLower(ToLower(s)) == ToLower(s)
  {
  }

  /** Lower-casing works character by character, so it distributes over
      concatenation. */
  lemma ToLowerAppend(a: string, b: string)
    ensures ToLower(a + b) == ToLower(a) + ToLower(b)
  {
    assert forall i :: 0 <= i < |a + b| ==> ToLower(a + b)[i] == (ToLower(a) + ToLower(b))[i];
  }

  predicate IsDigit(c: char) {
    '0' <= c <= '9'
  }

  function DigitValue(c: char): (d: nat)
    requires IsDigit(c)
    ensures d < 10
  {
    c as int - '0' as int
  }

  function DigitChar(d: nat): (c: char)
    requires d < 10
    ensures IsDigit(c) && DigitValue(c) == d
  {
    ('0' as int + d) as char
  }

  predicate AllDigits(s: string) {
    forall i :: 0 <= i < |s| ==> IsDigit(s[i])
  }

  /** Decimal rendering of a non-negative integer, as in a template literal
      `${n}` for n below 10^21, which covers every index and suffix number
      the code reaches (larger numbers render in exponent form there). */
  function NumberToString(n: nat): (r: string)
    ensures r != [] && AllDigits(r)
    ensures |r| > 1 ==> r[0] != '0'
    decreases n
  {
    if n < 10 then [DigitChar(n)] else NumberToString(n / 10) + [DigitChar(n % 10)]
  }

  /** `parseInt` of a non-empty string of decimal digits; the empty string,
      for which `parseInt` gives `NaN`, gives 0 here and is never passed. */
  function ParseDecimal(s: string): (n: nat)
    requires AllDigits(s)
  {
    if s == [] then 0 else ParseDecimal(s[..|s| - 1]) * 10 + DigitValue(s[|s| - 1])
  }

  lemma {:induction false} ParseNumberToString(n: nat)
    ensures ParseDecimal(NumberToString(n)) == n
    decreases n
  {
    var r := NumberToString(n);
    if n >= 10 {
      ParseNumberToString(n / 10);
      assert r[..|r| - 1] == NumberToString(n / 10);
    }
  }

  /** Distinct numbers render as distinct strings. */
  lemma NumberToStringInjective(m: nat, n: nat)
    ensures NumberToString(m) == NumberToString(n) ==> m == n
  {
    ParseNumberToString(m);
    ParseNumberToString(n);
  }

  predicate OccursAt(s: string, pat: string, i: nat) {
    i + |pat| <= |s| && s[i..i + |pat|] == pat
  }

  /** `pat` occurs at `i` and nowhere before. */
  predicate FirstOccurrence(s: string, pat: string, i: nat) {
    OccursAt(s, pat, i) && forall j: nat :: j < i ==> !OccursAt(s, pat, j)
  }

  /** `s.indexOf(pat, from)`. */
  function IndexOf(s: string, pat: string, from: nat): (r: Option<nat>)
    requires from <= |s|
    ensures r.Some? ==> from <= r.value && OccursAt(s, pat, r.value)
    ensures r.Some? ==> forall j: nat :: from <= j < r.value ==> !OccursAt(s, pat, j)
    ensures r.None? ==> forall j: nat :: from <= j ==> !OccursAt(s, pat, j)
    decreases |s| - from
  {
    if OccursAt(s, pat, from) then Some(from)
    else if from == |s| then None
    else IndexOf(s, pat, from + 1)
  }

  /** `s.replace(pat, rep)` with a string pattern and a replacement without
      `$` patterns: only the first occurrence is replaced. */
  function ReplaceFirst(s: string, pat: string, rep: string): (r: string)
    ensures (forall i: nat :: !OccursAt(s, pat, i)) ==> r == s
    ensures forall i: nat :: FirstOccurrence(s, pat, i) ==>
      r == s[..i] + rep + s[i + |pat|..]
  {
    match IndexOf(s, pat, 0)
    case None => s
    case Some(i) =>
      assert forall k: nat :: FirstOccurrence(s, pat, k) ==> k == i;
      s[..i] + rep + s[i + |pat|..]
  }
}
