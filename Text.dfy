/** The three `java.lang.String` operations the core relies on: `trim()`,
    `toLowerCase()` and `contains(CharSequence)`. */
module Text {

  /** `String.trim()` strips every character whose code is at most U+0020
      (space and the control characters), not Unicode white space in general. */
  predicate IsTrimmable(c: char) {
    c <= ' '
  }

  /** Every character of `s` is one that `trim()` removes. */
  ghost predicate AllTrimmable(s: string) {
    forall k :: 0 <= k < |s| ==> IsTrimmable(s[k])
  }

  /** Drop the trimmable characters at the front. */
  function TrimStart(s: string): (r: string)
    ensures |r| <= |s|
  {
    if |s| > 0 && IsTrimmable(s[0]) then TrimStart(s[1..]) else s
  }

  /** Drop the trimmable characters at the back. */
  function TrimEnd(s: string): (r: string)
    ensures |r| <= |s|
  {
    if |s| > 0 && IsTrimmable(s[|s| - 1]) then TrimEnd(s[..|s| - 1]) else s
  }

  /** What `TrimStart` keeps is a suffix of its input, everything it drops
      is trimmable, and what it keeps does not start with a trimmable
      character. */
  lemma {:induction false} TrimStartShape(s: string)
    ensures var r := TrimStart(s);
      && r == s[|s| - |r|..]
      && AllTrimmable(s[..|s| - |r|])
      && (r == [] || !IsTrimmable(r[0]))
  {
    if |s| > 0 && IsTrimmable(s[0]) {
      var r := TrimStart(s[1..]);
      TrimStartShape(s[1..]);
      assert s[..|s| - |r|] == [s[0]] + s[1..][..|s| - 1 - |r|];
    }
  }

  /** What `TrimEnd` keeps is a prefix of its input, everything it drops is
      trimmable, and what it keeps does not end with a trimmable character. */
  lemma {:induction false} TrimEndShape(s: string)
    ensures var r := TrimEnd(s);
      && r == s[..|r|]
      && AllTrimmable(s[|r|..])
      && (r == [] || !IsTrimmable(r[|r| - 1]))
  {
    if |s| > 0 && IsTrimmable(s[|s| - 1]) {
      var r := TrimEnd(s[..|s| - 1]);
      TrimEndShape(s[..|s| - 1]);
      assert s[|r|..] == s[..|s| - 1][|r|..] + [s[|s| - 1]];
    }
  }

  /** `String.trim()`: drop the trimmable characters at both ends. */
  function Trim(s: string): (r: string)
    ensures |r| <= |s|
  {
    TrimEnd(TrimStart(s))
  }

  /** The result of `trim()` neither starts nor ends with a trimmable
      character, and it is empty exactly when every character is
      trimmable. */
  lemma TrimShape(s: string)
    ensures var r := Trim(s);
      && (r == [] || (!IsTrimmable(r[0]) && !IsTrimmable(r[|r| - 1])))
      && (r == [] <==> AllTrimmable(s))
  {
    var t := TrimStart(s);
    var r := TrimEnd(t);
    TrimStartShape(s);
    TrimEndShape(t);
    assert r == [] ==> s == s[..|s| - |t|] + t[|r|..];
    assert t != [] ==> t[0] == s[|s| - |t|] && !IsTrimmable(s[|s| - |t|]);
  }

  /** A string that neither starts nor ends with a trimmable character is
      its own trimmed form. */
  lemma TrimUnpadded(s: string)
    requires s != [] && !IsTrimmable(s[0]) && !IsTrimmable(s[|s| - 1])
    ensures Trim(s) == s
  {
  }

  /** `question == null || question.trim().isEmpty()` for a non-null string. */
  predicate IsBlank(s: string) {
    Trim(s) == []
  }

  /** `Character.toLowerCase` on the characters the storefront's Portuguese
      text uses: ASCII `A`-`Z` and the Latin-1 capitals U+00C0..U+00DE (except
      the multiplication sign U+00D7) move up by 0x20; every other character is
      kept as it is. */
  function LowerChar(c: char): char {
    if 'A' <= c <= 'Z' || ('À' <= c <= 'Þ' && c != '×') then
      (c as int + 32) as char
    else
      c
  }

  /** `String.toLowerCase()`, one character at a time. */
  function Lower(s: string): (r: string)
    ensures |r| == |s|
  {
    seq(|s|, k requires 0 <= k < |s| => LowerChar(s[k]))
  }

  /** The query normalisation shared by the similarity matcher and the
      product cache: `s.toLowerCase().trim()`. */
  function Normalize(s: string): string {
    Trim(Lower(s))
  }

  predicate IsPrefix(p: string, s: string) {
    |p| <= |s| && p == s[..|p|]
  }

  predicate IsSuffix(p: string, s: string) {
    |p| <= |s| && p == s[|s| - |p|..]
  }

  /** `sub` sits in `s` starting at offset `i`. */
  predicate OccursAt(s: string, sub: string, i: nat) {
    i + |sub| <= |s| && s[i..i + |sub|] == sub
  }

  /** `s.contains(sub)`: `sub` occurs in `s` at some offset (the empty string
      occurs everywhere). */
  predicate Contains(s: string, sub: string)
    decreases |s|
  {
    IsPrefix(sub, s) || (|s| > 0 && Contains(s[1..], sub))
  }

  lemma {:induction false} ContainsAt(s: string, sub: string, i: nat)
    requires OccursAt(s, sub, i)
    ensures Contains(s, sub)
  {
    if i > 0 {
      assert s[1..][i - 1..i - 1 + |sub|] == sub;
      ContainsAt(s[1..], sub, i - 1);
    }
  }

  /** A match of `Contains` sits at a definite offset. */
  lemma {:induction false} ContainsOffset(s: string, sub: string) returns (i: nat)
    requires Contains(s, sub)
    ensures OccursAt(s, sub, i)
  {
    if IsPrefix(sub, s) {
      i := 0;
    } else {
      var j := ContainsOffset(s[1..], sub);
      i := j + 1;
      assert s[i..i + |sub|] == s[1..][j..j + |sub|];
    }
  }

  /** Regrouping a concatenation. Stated once on arbitrary strings so that
      proofs about the fixed message texts never have to compare them
      character by character. */
  lemma AppendAssoc(a: string, b: string, c: string)
    ensures a + b + c == a + (b + c)
  {
  }

  lemma AppendEmpty(a: string)
    ensures [] + a == a && a + [] == a
  {
  }

  lemma PrefixOfAppend(a: string, b: string)
    ensures IsPrefix(a, a + b) && IsSuffix(b, a + b)
  {
  }

  /** Both halves of a concatenation are contained in it. */
  lemma ContainsEachHalf(a: string, b: string)
    ensures Contains(a + b, a) && Contains(a + b, b)
  {
    ContainsAt(a + b, a, 0);
    ContainsAt(a + b, b, |a|);
  }

  /** Whatever surrounds a string, the string is contained in the whole. */
  lemma ContainsInfix(a: string, sub: string, b: string)
    ensures Contains(a + sub + b, sub)
  {
    ContainsAt(a + sub + b, sub, |a|);
  }

  /** A substring of a substring is a substring. */
  lemma ContainsTransitive(s: string, t: string, u: string)
    requires Contains(s, t) && Contains(t, u)
    ensures Contains(s, u)
  {
    var i := ContainsOffset(s, t);
    var j := ContainsOffset(t, u);
    forall k | 0 <= k < |u| ensures s[i + j + k] == u[k] {
      assert u[k] == t[j + k] && t[j + k] == s[i..i + |t|][j + k];
    }
    assert s[i + j..i + j + |u|] == u;
    ContainsAt(s, u, i + j);
  }

  lemma LowerCharIdempotent(c: char)
    ensures LowerChar(LowerChar(c)) == LowerChar(c)
  {
  }

  /** Lower-casing twice is lower-casing once. */
  lemma LowerIdempotent(s: string)
    ensures Lower(Lower(s)) == Lower(s)
  {
    forall k | 0 <= k < |s| ensures Lower(Lower(s))[k] == Lower(s)[k] {
      LowerCharIdempotent(s[k]);
    }
  }

  /** Trimming a trimmed string changes nothing. */
  lemma TrimIdempotent(s: string)
    ensures Trim(Trim(s)) == Trim(s)
  {
    var t := Trim(s);
    TrimShape(s);
    if t != [] {
      TrimUnpadded(t);
    }
  }

  /** Trimmable padding on either side does not change the trimmed text. */
  lemma {:induction false} TrimPadding(p: string, s: string, q: string)
    requires AllTrimmable(p) && AllTrimmable(q)
    ensures Trim(p + s + q) == Trim(s)
  {
    TrimStartPadding(p, s + q);
    assert p + s + q == p + (s + q);
    var t := TrimStart(s);
    TrimStartShape(s);
    assert s + q == s[..|s| - |t|] + (t + q);
    TrimStartPadding(s[..|s| - |t|], t + q);
    if t == [] {
      assert t + q == q + [];
      TrimStartPadding(q, []);
    } else {
      assert TrimStart(t + q) == t + q;
      TrimEndPadding(t, q);
    }
  }

  lemma {:induction false} TrimStartPadding(p: string, s: string)
    requires AllTrimmable(p)
    ensures TrimStart(p + s) == TrimStart(s)
  {
    if p != [] {
      var ps := p + s;
      assert ps[0] == p[0] && IsTrimmable(p[0]);
      assert TrimStart(ps) == TrimStart(ps[1..]);
      assert ps[1..] == p[1..] + s;
      assert AllTrimmable(p[1..]) by {
        forall k | 0 <= k < |p| - 1 ensures IsTrimmable(p[1..][k]) {
          assert p[1..][k] == p[k + 1];
        }
      }
      TrimStartPadding(p[1..], s);
    } else {
      assert p + s == s;
    }
  }

  lemma {:induction false} TrimEndPadding(s: string, q: string)
    requires AllTrimmable(q)
    ensures TrimEnd(s + q) == TrimEnd(s)
  {
    if q != [] {
      assert (s + q)[..|s + q| - 1] == s + q[..|q| - 1];
      TrimEndPadding(s, q[..|q| - 1]);
    } else {
      assert s + q == s;
    }
  }

  lemma LowerCharKeepsTrimmable(c: char)
    ensures IsTrimmable(LowerChar(c)) <==> IsTrimmable(c)
  {
  }

  lemma {:induction false} TrimStartLower(s: string)
    ensures TrimStart(Lower(s)) == Lower(TrimStart(s))
  {
    if |s| > 0 {
      LowerCharKeepsTrimmable(s[0]);
      if IsTrimmable(s[0]) {
        assert Lower(s)[1..] == Lower(s[1..]);
        TrimStartLower(s[1..]);
      }
    }
  }

  lemma {:induction false} TrimEndLower(s: string)
    ensures TrimEnd(Lower(s)) == Lower(TrimEnd(s))
  {
    if |s| > 0 {
      LowerCharKeepsTrimmable(s[|s| - 1]);
      if IsTrimmable(s[|s| - 1]) {
        assert Lower(s)[..|s| - 1] == Lower(s[..|s| - 1]);
        TrimEndLower(s[..|s| - 1]);
      }
    }
  }

  /** Lower-casing never turns a trimmable character into a kept one or back,
      so the order of `toLowerCase()` and `trim()` does not matter. */
  lemma LowerTrimCommute(s: string)
    ensures Trim(Lower(s)) == Lower(Trim(s))
  {
    TrimStartLower(s);
    TrimEndLower(TrimStart(s));
  }

  /** Normalising a normalised query changes nothing, so a key stored in the
      product cache is its own normal form. */
  lemma NormalizeIdempotent(s: string)
    ensures Normalize(Normalize(s)) == Normalize(s)
  {
    LowerTrimCommute(Lower(s));
    LowerIdempotent(s);
    TrimIdempotent(Lower(s));
  }

  /** Queries that differ only in letter case or in trimmable padding share a
      normal form. */
  lemma NormalizeIgnoresCaseAndPadding(p: string, s: string, q: string)
    requires AllTrimmable(p) && AllTrimmable(q)
    ensures Normalize(p + s + q) == Normalize(s)
    ensures Normalize(Lower(s)) == Normalize(s)
  {
    assert Lower(p + s + q) == Lower(p) + Lower(s) + Lower(q);
    TrimPadding(Lower(p), Lower(s), Lower(q));
    LowerIdempotent(s);
  }
}
