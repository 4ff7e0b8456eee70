/** Output file names: a title is reduced to a safe base name, then the
    first of `base.pdf`, `base_1.pdf`, `base_2.pdf`, … that does not exist
    yet is chosen. The output directory is the finite set of names already
    in it; creating the directory and probing the file system are outside
    this model. */
module FileNamer {
  import opened Wrappers
  import opened JsString

  const DefaultTitle := "webpage"

  const MaxLength := 200

  const Extension := ".pdf"

  /** The characters a sanitized name is made of: `[a-z0-9_]`. */
  predicate IsNameChar(c: char) {
    'a' <= c <= 'z' || '0' <= c <= '9' || c == '_'
  }

  predicate AllNameChars(s: string) {
    forall i :: 0 <= i < |s| ==> IsNameChar(s[i])
  }

  /** What `/[^a-z0-9]/gi` does not match. */
  predicate IsAlnum(c: char) {
    'a' <= c <= 'z' || 'A' <= c <= 'Z' || '0' <= c <= '9'
  }

  predicate NoDoubleUnderscore(s: string) {
    forall i :: 0 <= i < |s| - 1 ==> !(s[i] == '_' && s[i + 1] == '_')
  }

  /** `s` with every underscore removed. */
  function WithoutUnderscores(s: string): string {
    if s == [] then [] else (if s[0] == '_' then [] else [s[0]]) + WithoutUnderscores(s[1..])
  }

  /** The letters and digits of `s`, in order. */
  function Alnums(s: string): string {
    if s == [] then [] else (if IsAlnum(s[0]) then [s[0]] else []) + Alnums(s[1..])
  }

  /** `.replace(/[^a-z0-9]/gi, '_')`: letters and digits stay where they
      are, and every other character becomes one underscore, so the result
      holds only letters, digits and underscores. */
  function ReplaceNonAlnum(s: string): (r: string)
    ensures |r| == |s|
    ensures forall i :: 0 <= i < |s| && IsAlnum(s[i]) ==> r[i] == s[i]
    ensures forall i :: 0 <= i < |s| && !IsAlnum(s[i]) ==> r[i] == '_'
    ensures forall i :: 0 <= i < |r| ==> IsAlnum(r[i]) || r[i] == '_'
  {
    seq(|s|, i requires 0 <= i < |s| => if IsAlnum(s[i]) then s[i] else '_')
  }

  /** `.replace(/_+/g, '_')`: every run of underscores becomes one. */
  function CollapseUnderscores(s: string): (r: string)
    ensures |r| <= |s|
    ensures s != [] ==> r != [] && r[0] == s[0]
    ensures NoDoubleUnderscore(r)
    ensures AllNameChars(s) ==> AllNameChars(r)
    ensures WithoutUnderscores(r) == WithoutUnderscores(s)
  {
    if |s| <= 1 then s
    else if s[0] == '_' && s[1] == '_' then CollapseUnderscores(s[1..])
    else [s[0]] + CollapseUnderscores(s[1..])
  }

  /** A string without doubled underscores has nothing to collapse. */
  lemma {:induction false} CollapseKeepsCollapsed(s: string)
    requires NoDoubleUnderscore(s)
    ensures CollapseUnderscores(s) == s
  {
    if |s| > 1 {
      CollapseKeepsCollapsed(s[1..]);
      assert s == [s[0]] + s[1..];
    }
  }

  /** Position `i` of `s` holds an underscore followed by another one. */
  predicate DoubledAt(s: string, i: int) {
    0 <= i < |s| - 1 && s[i] == '_' && s[i + 1] == '_'
  }

  /** The first `n` characters of `s`, leaving out every doubled
      position. */
  function DropDoubledUpTo(s: string, n: nat): string
    requires n <= |s|
  {
    if n == 0 then [] else DropDoubledUpTo(s, n - 1) + (if DoubledAt(s, n - 1) then [] else [s[n - 1]])
  }

  /** Reference definition of collapsing: every underscore that another
      underscore follows is removed, so each run keeps its last one. */
  function DropDoubled(s: string): string {
    DropDoubledUpTo(s, |s|)
  }

  lemma {:induction false} DropDoubledCons(c: char, t: string, n: nat)
    requires n <= |t|
    ensures DropDoubledUpTo([c] + t, n + 1)
      == (if DoubledAt([c] + t, 0) then [] else [c]) + DropDoubledUpTo(t, n)
  {
    var s := [c] + t;
    if n > 0 {
      DropDoubledCons(c, t, n - 1);
      assert DoubledAt(s, n) == DoubledAt(t, n - 1);
      assert s[n] == t[n - 1];
    }
  }

  /** Collapsing keeps exactly the underscores that are not followed by
      another one, and every other character. */
  lemma {:induction false} CollapseDropsDoubled(s: string)
    ensures CollapseUnderscores(s) == DropDoubled(s)
    decreases |s|
  {
    if |s| == 1 {
      assert !DoubledAt(s, 0);
      assert DropDoubledUpTo(s, 0) == [];
      assert DropDoubled(s) == [] + [s[0]] == s;
    } else if |s| > 1 {
      var t := s[1..];
      assert s == [s[0]] + t;
      CollapseDropsDoubled(t);
      DropDoubledCons(s[0], t, |t|);
    }
  }

  /** `.slice(0, n)`. */
  function Truncate(s: string, n: nat): (r: string)
    ensures |r| == if |s| <= n then |s| else n
    ensures r == s[..|r|]
  {
    if |s| <= n then s else s[..n]
  }

  /** `sanitizeTitle`: an absent or empty title becomes `webpage`; then
      lower case, anything but a letter or digit to `_`, runs of `_`
      collapsed, and at most 200 characters kept. */
  function Sanitize(title: Option<string>): (r: string)
    ensures 1 <= |r| <= MaxLength
    ensures AllNameChars(r)
    ensures NoDoubleUnderscore(r)
  {
    var t := if title.None? || title.value == [] then DefaultTitle else title.value;
    var lower := ToLower(t);
    var replaced := ReplaceNonAlnum(lower);
    assert AllNameChars(replaced);
    var collapsed := CollapseUnderscores(replaced);
    var r := Truncate(collapsed, MaxLength);
    assert forall i :: 0 <= i < |r| ==> r[i] == collapsed[i];
    r
  }

  predicate AllAlnum(s: string) {
    forall i :: 0 <= i < |s| ==> IsAlnum(s[i])
  }

  /** `k` underscores. */
  function Underscores(k: nat): (r: string)
    ensures |r| == k && forall i :: 0 <= i < k ==> r[i] == '_'
  {
    seq(k, _ => '_')
  }

  /** A prefix without underscores passes through collapsing untouched. */
  lemma {:induction false} CollapseKeepsHead(x: string, y: string)
    requires forall i :: 0 <= i < |x| ==> x[i] != '_'
    ensures CollapseUnderscores(x + y) == x + CollapseUnderscores(y)
    decreases |x|
  {
    if x != [] {
      var rest := x[1..] + y;
      assert x + y == [x[0]] + rest && (x + y)[1..] == rest;
      CollapseKeepsHead(x[1..], y);
      if rest == [] {
        assert x + y == x == [x[0]] && y == [];
        assert CollapseUnderscores(y) == [];
        assert x + CollapseUnderscores(y) == x;
      } else {
        var c := CollapseUnderscores(y);
        assert CollapseUnderscores(x + y) == [x[0]] + (x[1..] + c);
        assert [x[0]] + (x[1..] + c) == ([x[0]] + x[1..]) + c;
        assert x == [x[0]] + x[1..];
      }
    } else {
      assert x + y == y;
    }
  }

  /** A run of underscores before a tail without any becomes one. */
  lemma {:induction false} CollapseRun(k: nat, b: string)
    requires k >= 1
    requires forall i :: 0 <= i < |b| ==> b[i] != '_'
    ensures CollapseUnderscores(Underscores(k) + b) == "_" + b
    decreases k
  {
    var s := Underscores(k) + b;
    if k > 1 {
      assert s[1..] == Underscores(k - 1) + b;
      CollapseRun(k - 1, b);
    } else if b != [] {
      assert s == ['_'] + b && s[1..] == b;
      CollapseKeepsHead(b, []);
      assert b + [] == b;
    }
  }

  /** Lower-casing keeps letters and digits letters and digits. */
  lemma LowerKeepsAlnum(a: string)
    requires AllAlnum(a)
    ensures AllAlnum(ToLower(a))
  {
  }

  /** Lower-casing a word, a run of other characters and a word touches
      only the words. */
  lemma LowerOfJoin(a: string, w: string, b: string)
    requires forall i :: 0 <= i < |w| ==> !IsAlnum(w[i])
    ensures ToLower(a + w + b) == ToLower(a) + w + ToLower(b)
  {
    ToLowerAppend(a + w, b);
    ToLowerAppend(a, w);
    assert ToLower(w) == w;
  }

  /** The replacement turns the run between two words into underscores. */
  lemma ReplaceOfJoin(a: string, w: string, b: string)
    requires AllAlnum(a) && AllAlnum(b)
    requires forall i :: 0 <= i < |w| ==> !IsAlnum(w[i])
    ensures ReplaceNonAlnum(a + w + b) == a + Underscores(|w|) + b
  {
    var l, r := a + w + b, a + Underscores(|w|) + b;
    assert |ReplaceNonAlnum(l)| == |r|;
    forall i | 0 <= i < |r| ensures ReplaceNonAlnum(l)[i] == r[i] {
      if i < |a| {
        assert l[i] == a[i] && r[i] == a[i];
      } else if i < |a| + |w| {
        assert l[i] == w[i - |a|] && r[i] == '_';
      } else {
        assert l[i] == b[i - |a| - |w|] && r[i] == b[i - |a| - |w|];
      }
    }
  }

  /** A run of underscores between two words becomes one. */
  lemma CollapseJoin(a: string, k: nat, b: string)
    requires k >= 1
    requires forall i :: 0 <= i < |a| ==> a[i] != '_'
    requires forall i :: 0 <= i < |b| ==> b[i] != '_'
    ensures CollapseUnderscores(a + Underscores(k) + b) == a + "_" + b
  {
    var u := Underscores(k) + b;
    assert CollapseUnderscores(u) == "_" + b by { CollapseRun(k, b); }
    assert CollapseUnderscores(a + u) == a + CollapseUnderscores(u) by { CollapseKeepsHead(a, u); }
    ConcatAssociative(a, Underscores(k), b);
    ConcatAssociative(a, "_", b);
  }

  /** The steps of `sanitizeTitle` on a non-empty title. */
  lemma SanitizeSteps(t: string)
    requires t != []
    ensures Sanitize(Some(t)) == Truncate(CollapseUnderscores(ReplaceNonAlnum(ToLower(t))), MaxLength)
  {
  }

  /** Letters and digits on both sides of a run of other characters: the
      run becomes a single underscore and the letters are lower-cased. */
  lemma SanitizeJoinsWords(a: string, w: string, b: string)
    requires AllAlnum(a) && AllAlnum(b)
    requires w != [] && forall i :: 0 <= i < |w| ==> !IsAlnum(w[i])
    requires |a| + 1 + |b| <= MaxLength
    ensures Sanitize(Some(a + w + b)) == ToLower(a) + "_" + ToLower(b)
  {
    var la, lb := ToLower(a), ToLower(b);
    LowerKeepsAlnum(a);
    LowerKeepsAlnum(b);
    LowerOfJoin(a, w, b);
    ReplaceOfJoin(la, w, lb);
    CollapseJoin(la, |w|, lb);
    SanitizeSteps(a + w + b);
  }

  /** A valid name sanitizes to itself. */
  lemma SanitizeFixesNames(name: string)
    requires 1 <= |name| <= MaxLength && AllNameChars(name) && NoDoubleUnderscore(name)
    ensures Sanitize(Some(name)) == name
  {
    assert ToLower(name) == name;
    assert ReplaceNonAlnum(name) == name;
    CollapseKeepsCollapsed(name);
  }

  /** Sanitizing twice is sanitizing once. */
  lemma SanitizeIdempotent(title: Option<string>)
    ensures Sanitize(Some(Sanitize(title))) == Sanitize(title)
  {
    SanitizeFixesNames(Sanitize(title));
  }

  /** No title, or an empty one, gives `webpage`. */
  lemma MissingTitleIsWebpage(title: Option<string>)
    requires title.None? || title == Some("")
    ensures Sanitize(title) == "webpage"
  {
    SanitizeFixesNames(DefaultTitle);
    assert Sanitize(title) == Sanitize(Some(DefaultTitle));
  }

  /** Removing the underscores after the replacement leaves exactly the
      letters and digits of the input, in order. */
  lemma {:induction false} ReplaceKeepsAlnums(s: string)
    ensures WithoutUnderscores(ReplaceNonAlnum(s)) == Alnums(s)
  {
    if s != [] {
      ReplaceKeepsAlnums(s[1..]);
      assert ReplaceNonAlnum(s)[1..] == ReplaceNonAlnum(s[1..]);
    }
  }

  lemma {:induction false} PrefixKeepsOrder(s: string, n: nat)
    requires n <= |s|
    ensures WithoutUnderscores(s[..n]) <= WithoutUnderscores(s)
  {
    if n > 0 {
      PrefixKeepsOrder(s[1..], n - 1);
      assert s[..n][1..] == s[1..][..n - 1];
    }
  }

  /** The letters and digits of the lower-cased title survive, in order:
      all of them when the title has at most 200 characters, a prefix of
      them otherwise. */
  lemma SanitizeKeepsAlnums(title: string)
    requires title != []
    ensures WithoutUnderscores(Sanitize(Some(title))) <= Alnums(ToLower(title))
    ensures |title| <= MaxLength ==> WithoutUnderscores(Sanitize(Some(title))) == Alnums(ToLower(title))
  {
    var collapsed := CollapseUnderscores(ReplaceNonAlnum(ToLower(title)));
    ReplaceKeepsAlnums(ToLower(title));
    var r := Sanitize(Some(title));
    assert r == Truncate(collapsed, MaxLength);
    PrefixKeepsOrder(collapsed, |r|);
  }

  /** The `k`-th name tried: `base.pdf` first, then `base_k.pdf`. */
  function Candidate(base: string, k: nat): (name: string)
    ensures |name| >= |base| + 4 && name[..|base|] == base && name[|name| - 4..] == Extension
  {
    if k == 0 then base + Extension else base + "_" + NumberToString(k) + Extension
  }

  /** Distinct attempts never produce the same name. */
  lemma CandidateInjective(base: string, j: nat, k: nat)
    ensures Candidate(base, j) == Candidate(base, k) ==> j == k
  {
    var cj, ck := Candidate(base, j), Candidate(base, k);
    if cj == ck && j != 0 && k != 0 {
      assert cj[|base| + 1..|cj| - 4] == NumberToString(j);
      assert ck[|base| + 1..|ck| - 4] == NumberToString(k);
      NumberToStringInjective(j, k);
    }
  }

  function Candidates(base: string, k: nat): set<string> {
    set j | 0 <= j < k :: Candidate(base, j)
  }

  lemma {:induction false} CandidatesCount(base: string, k: nat)
    ensures |Candidates(base, k)| == k
  {
    if k > 0 {
      var prev, last := Candidates(base, k - 1), Candidate(base, k - 1);
      CandidatesCount(base, k - 1);
      assert Candidates(base, k) == prev + {last};
      forall j | 0 <= j < k - 1 ensures Candidate(base, j) != last {
        CandidateInjective(base, j, k - 1);
      }
      assert last !in prev;
    }
  }

  /** If the first `k` candidates are all taken, at least `k` names exist. */
  lemma TakenBound(base: string, existing: set<string>, k: nat)
    requires forall j :: 0 <= j < k ==> Candidate(base, j) in existing
    ensures k <= |existing|
  {
    CandidatesCount(base, k);
    assert Candidates(base, k) <= existing;
    CardinalityMonotone(Candidates(base, k), existing);
  }

  lemma CardinalityMonotone(a: set<string>, b: set<string>)
    requires a <= b
    ensures |a| <= |b|
  {
    assert b == a + (b - a);
  }

  /** `generateFileName`: `increment` ends as the number of names tried.
      The name chosen is the first candidate not in the directory; every
      earlier one is taken, so at most one more name than the directory
      holds is ever tried. */
  method GenerateFileName(title: Option<string>, existing: set<string>) returns (fileName: string, increment: nat)
    ensures 1 <= increment <= |existing| + 1
    ensures fileName == Candidate(Sanitize(title), increment - 1)
    ensures fileName !in existing
    ensures forall j :: 0 <= j < increment - 1 ==> Candidate(Sanitize(title), j) in existing
    ensures fileName[|fileName| - 4..] == ".pdf"
  {
    var baseName := Sanitize(title);
    increment := 0;
    fileName := Candidate(baseName, increment);
    increment := increment + 1;
    while fileName in existing
      invariant 1 <= increment <= |existing| + 1
      invariant fileName == Candidate(baseName, increment - 1)
      invariant forall j :: 0 <= j < increment - 1 ==> Candidate(baseName, j) in existing
      decreases |existing| + 1 - increment
    {
      TakenBound(baseName, existing, increment);
      fileName := Candidate(baseName, increment);
      increment := increment + 1;
    }
  }
}
