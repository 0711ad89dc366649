/** The two JavaScript string built-ins the search applies to its query,
    `String.prototype.trim` and `String.prototype.toLowerCase`, on strings of
    Unicode scalar values. Case mapping is restricted to ASCII letters. */
module JsString {

  /** The characters `trim` strips: ECMAScript WhiteSpace (TAB, VT, FF, SP,
      NBSP, ZWNBSP and every space separator of category Zs) and
      LineTerminator (LF, CR, LS, PS). */
  predicate IsSpace(c: char) {
    c == ' ' || c == '\t' || c == '\n' || c == '\r'
    || c == '\U{000B}' || c == '\U{000C}' || c == '\U{00A0}' || c == '\U{1680}'
    || ('\U{2000}' <= c <= '\U{200A}')
    || c == '\U{2028}' || c == '\U{2029}' || c == '\U{202F}' || c == '\U{205F}'
    || c == '\U{3000}' || c == '\U{FEFF}'
  }

  predicate AllSpace(s: string) {
    forall i :: 0 <= i < |s| ==> IsSpace(s[i])
  }

  /** Drops leading white space: the result is the longest suffix of `s`
      that does not start with white space, and what was dropped is all
      white space. */
  function TrimStart(s: string): (r: string)
    ensures |r| <= |s| && r == s[|s| - |r|..]
    ensures AllSpace(s[..|s| - |r|])
    ensures r == [] || !IsSpace(r[0])
  {
    if s != [] && IsSpace(s[0]) then TrimStart(s[1..]) else s
  }

  /** Drops trailing white space: the result is the longest prefix of `s`
      that does not end with white space, and what was dropped is all
      white space. */
  function TrimEnd(s: string): (r: string)
    ensures |r| <= |s| && r == s[..|r|]
    ensures AllSpace(s[|r|..])
    ensures r == [] || !IsSpace(r[|r| - 1])
  {
    if s != [] && IsSpace(s[|s| - 1]) then TrimEnd(s[..|s| - 1]) else s
  }

  /** `s.trim()`: the middle of `s` left after dropping white space at both
      ends; empty exactly when `s` is all white space, and otherwise neither
      starts nor ends with white space. */
  function Trim(s: string): (r: string)
    ensures |r| <= |s|
    ensures exists a :: MiddleAt(s, r, a)
    ensures r == [] <==> AllSpace(s)
    ensures r != [] ==> !IsSpace(r[0]) && !IsSpace(r[|r| - 1])
  {
    var t := TrimStart(s);
    var r := TrimEnd(t);
    TrimParts(s, t, r);
    assert MiddleAt(s, r, |s| - |t|);
    r
  }

  /** `r` is the slice of `s` at offset `a`, with only white space before
      and after it. */
  predicate MiddleAt(s: string, r: string, a: int) {
    0 <= a <= |s| - |r| && r == s[a..a + |r|] && AllSpace(s[..a]) && AllSpace(s[a + |r|..])
  }

  /** Glues the two halves of `trim`: a suffix `t` of `s` after leading white
      space, and a prefix `r` of `t` before trailing white space, make `r` the
      middle of `s` between white space. */
  lemma TrimParts(s: string, t: string, r: string)
    requires |t| <= |s| && t == s[|s| - |t|..] && AllSpace(s[..|s| - |t|]) && (t == [] || !IsSpace(t[0]))
    requires |r| <= |t| && r == t[..|r|] && AllSpace(t[|r|..]) && (r == [] || !IsSpace(r[|r| - 1]))
    ensures |s| - |t| + |r| <= |s|
    ensures r == s[|s| - |t|..|s| - |t| + |r|] && AllSpace(s[|s| - |t| + |r|..])
    ensures r == [] <==> AllSpace(s)
    ensures r != [] ==> !IsSpace(r[0]) && !IsSpace(r[|r| - 1])
  {
    var a := |s| - |t|;
    assert r == s[a..a + |r|];
    forall i | a + |r| <= i < |s|
      ensures IsSpace(s[i])
    {
      assert s[i] == t[i - a];
      assert t[i - a] == t[|r|..][i - a - |r|];
    }
    if r == [] {
      forall i | 0 <= i < |s|
        ensures IsSpace(s[i])
      {
        if i < a {
          assert s[i] == s[..a][i];
        }
      }
    }
    if t != [] {
      assert t[0] == s[a];
    }
    if r != [] {
      assert r[0] == t[0];
    }
  }

  predicate IsUpper(c: char) {
    'A' <= c <= 'Z'
  }

  /** `toLowerCase` on one character, for the ASCII letters. */
  function Lower(c: char): char {
    if IsUpper(c) then (c as int + 32) as char else c
  }

  /** `toUpperCase` on one character, for the ASCII letters. */
  function Upper(c: char): char {
    if 'a' <= c <= 'z' then (c as int - 32) as char else c
  }

  function LowerStr(s: string): string {
    seq(|s|, i requires 0 <= i < |s| => Lower(s[i]))
  }

  function UpperStr(s: string): string {
    seq(|s|, i requires 0 <= i < |s| => Upper(s[i]))
  }

  /** `s.endsWith(t)`. */
  predicate EndsWith(s: string, t: string) {
    |t| <= |s| && s[|s| - |t|..] == t
  }

  /** Lower-casing is idempotent, and leaves no upper-case letter behind. */
  lemma LowerStrIdempotent(s: string)
    ensures LowerStr(LowerStr(s)) == LowerStr(s)
    ensures forall i :: 0 <= i < |s| ==> !IsUpper(LowerStr(s)[i])
  {
  }

  /** For the ASCII case mapping of this model, lower-casing forgets the case
      of the input: upper-casing then lower-casing equals lower-casing. (With
      full Unicode case mapping this fails for characters such as ß, ı, ſ.) */
  lemma LowerOfUpper(s: string)
    ensures LowerStr(UpperStr(s)) == LowerStr(s)
  {
  }

  /** Case mapping neither creates nor removes white space. */
  lemma LowerKeepsSpace(c: char)
    ensures IsSpace(Lower(c)) == IsSpace(c)
  {
  }

  lemma {:induction false} TrimStartLower(s: string)
    ensures TrimStart(LowerStr(s)) == LowerStr(TrimStart(s))
    decreases |s|
  {
    if s != [] {
      var ls := LowerStr(s);
      LowerKeepsSpace(s[0]);
      assert ls[0] == Lower(s[0]);
      if IsSpace(s[0]) {
        assert ls[1..] == LowerStr(s[1..]);
        assert TrimStart(ls) == TrimStart(ls[1..]);
        TrimStartLower(s[1..]);
      } else {
        assert TrimStart(ls) == ls;
      }
    }
  }

  lemma {:induction false} TrimEndLower(s: string)
    ensures TrimEnd(LowerStr(s)) == LowerStr(TrimEnd(s))
    decreases |s|
  {
    if s != [] {
      LowerKeepsSpace(s[|s| - 1]);
      assert LowerStr(s)[..|s| - 1] == LowerStr(s[..|s| - 1]);
      if IsSpace(s[|s| - 1]) {
        TrimEndLower(s[..|s| - 1]);
      }
    }
  }

  /** `s.toLowerCase().trim()` equals `s.trim().toLowerCase()`. */
  lemma TrimLowerCommute(s: string)
    ensures Trim(LowerStr(s)) == LowerStr(Trim(s))
  {
    TrimStartLower(s);
    TrimEndLower(TrimStart(s));
  }

  /** Trimming an already trimmed string changes nothing. */
  lemma TrimIdempotent(s: string)
    ensures Trim(Trim(s)) == Trim(s)
  {
    var r := Trim(s);
    if r != [] {
      assert TrimStart(r) == r;
      assert TrimEnd(r) == r;
    }
  }

  /** A string that neither starts nor ends with white space is its own
      trim. */
  lemma TrimOfTrimmed(s: string)
    requires s != [] && !IsSpace(s[0]) && !IsSpace(s[|s| - 1])
    ensures Trim(s) == s
  {
    assert TrimStart(s) == s;
    assert TrimEnd(s) == s;
  }

  lemma {:induction false} TrimStartSpacePrefix(p: string, s: string)
    requires AllSpace(p)
    ensures TrimStart(p + s) == TrimStart(s)
    decreases |p|
  {
    if p == [] {
      assert p + s == s;
    } else {
      assert (p + s)[0] == p[0] && IsSpace(p[0]);
      assert (p + s)[1..] == p[1..] + s;
      assert TrimStart(p + s) == TrimStart(p[1..] + s);
      TrimStartSpacePrefix(p[1..], s);
    }
  }

  lemma {:induction false} TrimEndSpaceSuffix(s: string, p: string)
    requires AllSpace(p)
    ensures TrimEnd(s + p) == TrimEnd(s)
    decreases |p|
  {
    if p == [] {
      assert s + p == s;
    } else {
      assert (s + p)[|s + p| - 1] == p[|p| - 1] && IsSpace(p[|p| - 1]);
      assert (s + p)[..|s + p| - 1] == s + p[..|p| - 1];
      assert TrimEnd(s + p) == TrimEnd(s + p[..|p| - 1]);
      TrimEndSpaceSuffix(s, p[..|p| - 1]);
    }
  }

  /** Appending to a string that has something besides white space does not
      change where its leading white space ends. */
  lemma {:induction false} TrimStartAppend(s: string, p: string)
    requires !AllSpace(s)
    ensures TrimStart(s + p) == TrimStart(s) + p
    decreases |s|
  {
    assert s != [];
    if IsSpace(s[0]) {
      assert (s + p)[1..] == s[1..] + p;
      assert !AllSpace(s[1..]) by {
        var i :| 0 <= i < |s| && !IsSpace(s[i]);
        assert s[1..][i - 1] == s[i];
      }
      TrimStartAppend(s[1..], p);
    }
  }

  /** White space around a string does not change what `trim` gives. */
  lemma TrimIgnoresPadding(p: string, s: string, p': string)
    requires AllSpace(p) && AllSpace(p')
    ensures Trim(p + s + p') == Trim(s)
  {
    assert p + s + p' == p + (s + p');
    TrimStartSpacePrefix(p, s + p');
    if AllSpace(s) {
      assert AllSpace(s + p');
    } else {
      TrimStartAppend(s, p');
      TrimEndSpaceSuffix(TrimStart(s), p');
    }
  }
}
