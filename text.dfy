/**
 * The string helpers the server applies to user input: `toLowerCase`,
 * `toUpperCase`, `trim` and `split('@')[0]`.
 */
module Text {

  /** Lower-cases one character; only the ASCII letters `A`..`Z` are mapped. */
  function LowerChar(c: char): char {
    if 'A' <= c <= 'Z' then (c as int + 32) as char else c
  }

  /** Upper-cases one character; only the ASCII letters `a`..`z` are mapped. */
  function UpperChar(c: char): char {
    if 'a' <= c <= 'z' then (c as int - 32) as char else c
  }

  /** `s.toLowerCase()`, character by character. */
  function Lower(s: string): (r: string)
    ensures |r| == |s|
    ensures forall i :: 0 <= i < |s| ==> r[i] == LowerChar(s[i])
  {
    seq(|s|, i requires 0 <= i < |s| => LowerChar(s[i]))
  }

  /** `s.toUpperCase()`, character by character. */
  function Upper(s: string): (r: string)
    ensures |r| == |s|
    ensures forall i :: 0 <= i < |s| ==> r[i] == UpperChar(s[i])
  {
    seq(|s|, i requires 0 <= i < |s| => UpperChar(s[i]))
  }

  /** Lower-casing twice is lower-casing once. */
  lemma LowerIdempotent(s: string)
    ensures Lower(Lower(s)) == Lower(s)
  {
  }

  /** Upper-casing twice is upper-casing once. */
  lemma UpperIdempotent(s: string)
    ensures Upper(Upper(s)) == Upper(s)
  {
  }

  /** Upper-casing forgets an earlier lower-casing, and lower-casing an earlier upper-casing. */
  lemma CaseRoundTrips(s: string)
    ensures Upper(Lower(s)) == Upper(s)
    ensures Lower(Upper(s)) == Lower(s)
  {
    assert forall i :: 0 <= i < |s| ==> Upper(Lower(s))[i] == UpperChar(LowerChar(s[i])) == UpperChar(s[i]);
    assert forall i :: 0 <= i < |s| ==> Lower(Upper(s))[i] == LowerChar(UpperChar(s[i])) == LowerChar(s[i]);
  }

  /** The characters `String.prototype.trim` removes: whitespace and line terminators. */
  const Whitespace: set<char> := {
    ' ', '\t', '\n', '\r', '\U{B}', '\U{C}', '\U{A0}', '\U{1680}',
    '\U{2000}', '\U{2001}', '\U{2002}', '\U{2003}', '\U{2004}', '\U{2005}',
    '\U{2006}', '\U{2007}', '\U{2008}', '\U{2009}', '\U{200A}',
    '\U{2028}', '\U{2029}', '\U{202F}', '\U{205F}', '\U{3000}', '\U{FEFF}'
  }

  predicate IsWhitespace(c: char) {
    c in Whitespace
  }

  /** The number of characters from `cut` that `s` starts with. */
  function LeadingIn(s: string, cut: set<char>): (n: nat)
    ensures n <= |s|
    ensures forall i :: 0 <= i < n ==> s[i] in cut
    ensures n < |s| ==> s[n] !in cut
  {
    if s == [] || s[0] !in cut then 0 else 1 + LeadingIn(s[1..], cut)
  }

  /** The number of characters from `cut` that `s` ends with. */
  function TrailingIn(s: string, cut: set<char>): (n: nat)
    ensures n <= |s|
    ensures forall i :: |s| - n <= i < |s| ==> s[i] in cut
    ensures n < |s| ==> s[|s| - n - 1] !in cut
  {
    if s == [] || s[|s| - 1] !in cut then 0 else 1 + TrailingIn(s[..|s| - 1], cut)
  }

  /**
   * `s` with the characters of `cut` removed from both ends: the slice of
   * `s` that starts after its leading run of `cut` characters, with only
   * `cut` characters after it and none at either of its ends.
   */
  function Strip(s: string, cut: set<char>): (r: string)
    ensures LeadingIn(s, cut) + |r| <= |s|
    ensures r == s[LeadingIn(s, cut)..LeadingIn(s, cut) + |r|]
    ensures forall i :: LeadingIn(s, cut) + |r| <= i < |s| ==> s[i] in cut
    ensures r != [] ==> r[0] !in cut && r[|r| - 1] !in cut
  {
    var a := LeadingIn(s, cut);
    var n := TrailingIn(s[a..], cut);
    var b := |s| - n;
    assert forall i :: b <= i < |s| ==> s[i] == s[a..][i - a];
    assert b > a ==> s[b - 1] == s[a..][|s[a..]| - n - 1];
    s[a..b]
  }

  /**
   * When `s[p..q]` has only `cut` characters before and after it, and none
   * at either of its ends, it is what stripping `s` leaves.
   */
  lemma StripSlice(s: string, cut: set<char>, p: nat, q: nat)
    requires p <= q <= |s|
    requires forall i :: 0 <= i < p ==> s[i] in cut
    requires forall i :: q <= i < |s| ==> s[i] in cut
    requires p < q ==> s[p] !in cut && s[q - 1] !in cut
    ensures Strip(s, cut) == s[p..q]
  {
    var r := Strip(s, cut);
    var a := LeadingIn(s, cut);
    if p < q {
      assert a == p;
      assert r != [] ==> r[|r| - 1] == s[a + |r| - 1];
      assert a + |r| == q;
    } else {
      assert forall i :: 0 <= i < |s| ==> s[i] in cut;
      assert a == |s|;
    }
  }

  /**
   * Stripping removes exactly the padding: characters of `cut` put around a
   * string that neither starts nor ends with one of them are all that is cut.
   */
  lemma StripPadded(w1: string, x: string, w2: string, cut: set<char>)
    requires forall i :: 0 <= i < |w1| ==> w1[i] in cut
    requires forall i :: 0 <= i < |w2| ==> w2[i] in cut
    requires x == [] || (x[0] !in cut && x[|x| - 1] !in cut)
    ensures Strip(w1 + x + w2, cut) == x
  {
    var s := w1 + x + w2;
    var p, q := |w1|, |w1| + |x|;
    assert forall i :: 0 <= i < p ==> s[i] == w1[i];
    assert forall i :: q <= i < |s| ==> s[i] == w2[i - q];
    assert p < q ==> s[p] == x[0] && s[q - 1] == x[|x| - 1];
    StripSlice(s, cut, p, q);
    assert s[p..q] == x;
  }

  /**
   * `s.trim()`: `s` without its leading and trailing whitespace. The result is
   * the slice of `s` after its leading whitespace, everything cut off is
   * whitespace, and the result neither starts nor ends with whitespace.
   */
  function Trim(s: string): (r: string)
    ensures var a := LeadingIn(s, Whitespace);
      && (forall i :: 0 <= i < a ==> IsWhitespace(s[i]))
      && (a < |s| ==> !IsWhitespace(s[a]))
      && a + |r| <= |s| && r == s[a..a + |r|]
      && (forall i :: a + |r| <= i < |s| ==> IsWhitespace(s[i]))
    ensures r != [] ==> !IsWhitespace(r[0]) && !IsWhitespace(r[|r| - 1])
  {
    Strip(s, Whitespace)
  }

  /** `trim` removes exactly the whitespace put around a string that does not start or end with any. */
  lemma TrimPadded(w1: string, x: string, w2: string)
    requires forall i :: 0 <= i < |w1| ==> IsWhitespace(w1[i])
    requires forall i :: 0 <= i < |w2| ==> IsWhitespace(w2[i])
    requires x == [] || (!IsWhitespace(x[0]) && !IsWhitespace(x[|x| - 1]))
    ensures Trim(w1 + x + w2) == x
  {
    StripPadded(w1, x, w2, Whitespace);
  }

  /** A string that neither starts nor ends with whitespace is its own `trim`. */
  lemma TrimOfTrimmed(x: string)
    requires x == [] || (!IsWhitespace(x[0]) && !IsWhitespace(x[|x| - 1]))
    ensures Trim(x) == x
  {
    assert [] + x + [] == x;
    TrimPadded([], x, []);
  }

  /** Neither case mapping turns a character into whitespace or whitespace into something else. */
  lemma CaseKeepsWhitespace(c: char)
    ensures IsWhitespace(UpperChar(c)) <==> IsWhitespace(c)
    ensures IsWhitespace(LowerChar(c)) <==> IsWhitespace(c)
  {
  }

  /** Text with whitespace at neither end and no lower-case ASCII letter. */
  predicate Canonical(c: string) {
    && (c == [] || (!IsWhitespace(c[0]) && !IsWhitespace(c[|c| - 1])))
    && forall i :: 0 <= i < |c| ==> !('a' <= c[i] <= 'z')
  }

  /** `s.trim().toUpperCase()` is canonical. */
  lemma UpperTrimClean(s: string)
    ensures Canonical(Upper(Trim(s)))
  {
    var t := Trim(s);
    if t != [] {
      CaseKeepsWhitespace(t[0]);
      CaseKeepsWhitespace(t[|t| - 1]);
    }
  }

  /**
   * `s.trim().toUpperCase()` is `s` upper-cased character by character from
   * the end of its leading whitespace on, and only whitespace follows it.
   */
  lemma UpperTrimCuts(s: string)
    ensures LeadingIn(s, Whitespace) + |Upper(Trim(s))| <= |s|
    ensures forall i :: 0 <= i < |Upper(Trim(s))| ==> Upper(Trim(s))[i] == UpperChar(s[LeadingIn(s, Whitespace) + i])
    ensures forall i :: 0 <= i < LeadingIn(s, Whitespace) ==> IsWhitespace(s[i])
    ensures forall i :: LeadingIn(s, Whitespace) + |Upper(Trim(s))| <= i < |s| ==> IsWhitespace(s[i])
  {
    var t := Trim(s);
    var a := LeadingIn(s, Whitespace);
    assert |Upper(t)| == |t|;
    assert forall i :: 0 <= i < |t| ==> t[i] == s[a + i];
  }

  /** Upper-casing leaves text without lower-case letters as it is. */
  lemma UpperOfUpperCase(c: string)
    requires forall i :: 0 <= i < |c| ==> !('a' <= c[i] <= 'z')
    ensures Upper(c) == c
  {
    assert forall i :: 0 <= i < |c| ==> UpperChar(c[i]) == c[i];
  }

  /** The canonical texts are exactly those that trimming and upper-casing leave as they are. */
  lemma CanonicalIsFixedPoint(c: string)
    ensures Canonical(c) <==> Upper(Trim(c)) == c
  {
    UpperTrimClean(c);
    if Canonical(c) {
      TrimOfTrimmed(c);
      UpperOfUpperCase(c);
    }
  }

  /** Trimming and upper-casing a second time changes nothing. */
  lemma UpperTrimIdempotent(s: string)
    ensures Upper(Trim(Upper(Trim(s)))) == Upper(Trim(s))
  {
    UpperTrimClean(s);
    CanonicalIsFixedPoint(Upper(Trim(s)));
  }

  /**
   * Text padded with whitespace, whose upper-cased form is canonical, trims
   * and upper-cases to that form.
   */
  lemma UpperTrimPadded(w1: string, t: string, w2: string)
    requires forall i :: 0 <= i < |w1| ==> IsWhitespace(w1[i])
    requires forall i :: 0 <= i < |w2| ==> IsWhitespace(w2[i])
    requires Canonical(Upper(t))
    ensures Upper(Trim(w1 + t + w2)) == Upper(t)
  {
    if t != [] {
      CaseKeepsWhitespace(t[0]);
      CaseKeepsWhitespace(t[|t| - 1]);
    }
    TrimPadded(w1, t, w2);
  }

  /** The lower-case spelling of a canonical text trims and upper-cases back to it. */
  lemma UpperTrimOfLower(c: string)
    requires Canonical(c)
    ensures Upper(Trim(Lower(c))) == c
  {
    CaseRoundTrips(c);
    UpperOfUpperCase(c);
    assert [] + Lower(c) + [] == Lower(c);
    UpperTrimPadded([], Lower(c), []);
  }

  /**
   * `email.split('@')[0]`: the part of `email` before its first `@`, or all
   * of it when it has none.
   */
  function BeforeAt(email: string): (p: string)
    ensures p <= email
    ensures '@' !in p
    ensures |p| < |email| ==> email[|p|] == '@'
  {
    if email == [] || email[0] == '@' then [] else [email[0]] + BeforeAt(email[1..])
  }

  /** The three properties of `BeforeAt` determine it: no other prefix has them. */
  lemma {:induction false} BeforeAtUnique(email: string, p: string)
    requires p <= email && '@' !in p && (|p| < |email| ==> email[|p|] == '@')
    ensures p == BeforeAt(email)
  {
    var q := BeforeAt(email);
    if |p| < |q| {
      assert false;
    } else if |q| < |p| {
      assert false;
    }
    assert p == email[..|p|] && q == email[..|q|];
  }
}
