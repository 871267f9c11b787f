/** The parts of Python's `str` API the chatbot relies on: `isspace`,
    `strip`, `lower` and `endswith`. */
module Text {

  /** Python's `str.isspace` on one code point: the characters `str.strip()`
      removes when called without arguments. */
  predicate IsSpace(c: char) {
    || ('\t' <= c <= '\r')
    || ('\U{1C}' <= c <= '\U{1F}')
    || c == ' '
    || c == '\U{85}'
    || c == '\U{A0}'
    || c == '\U{1680}'
    || ('\U{2000}' <= c <= '\U{200A}')
    || c == '\U{2028}'
    || c == '\U{2029}'
    || c == '\U{202F}'
    || c == '\U{205F}'
    || c == '\U{3000}'
  }

  predicate AllSpace(s: string) {
    forall k :: 0 <= k < |s| ==> IsSpace(s[k])
  }

  /** The end of the whitespace run that starts at `i`. */
  function SpanFrom(s: string, i: nat): (n: nat)
    requires i <= |s|
    ensures i <= n <= |s|
    ensures forall k :: i <= k < n ==> IsSpace(s[k])
    ensures n == |s| || !IsSpace(s[n])
    decreases |s| - i
  {
    if i < |s| && IsSpace(s[i]) then SpanFrom(s, i + 1) else i
  }

  /** The start of the whitespace run that ends just before `j`. */
  function SpanBack(s: string, j: nat): (n: nat)
    requires j <= |s|
    ensures n <= j
    ensures forall k :: n <= k < j ==> IsSpace(s[k])
    ensures n == 0 || !IsSpace(s[n - 1])
  {
    if j > 0 && IsSpace(s[j - 1]) then SpanBack(s, j - 1) else j
  }

  /** `s.lstrip()`: the longest suffix of `s` that does not start with whitespace. */
  function TrimStart(s: string): (r: string)
    ensures |r| <= |s| && r == s[|s| - |r|..]
    ensures AllSpace(s[..|s| - |r|])
    ensures r == [] || !IsSpace(r[0])
  {
    var n := SpanFrom(s, 0);
    assert forall k :: 0 <= k < n ==> s[..n][k] == s[k];
    s[n..]
  }

  /** `s.rstrip()`: the longest prefix of `s` that does not end with whitespace. */
  function TrimEnd(s: string): (r: string)
    ensures |r| <= |s| && r == s[..|r|]
    ensures AllSpace(s[|r|..])
    ensures r == [] || !IsSpace(r[|r| - 1])
  {
    var n := SpanBack(s, |s|);
    assert forall k :: n <= k < |s| ==> s[n..][k - n] == s[k];
    s[..n]
  }

  /** `s.strip()`: `s` without its leading and trailing whitespace. */
  function Strip(s: string): (r: string)
    ensures |r| <= |s|
    ensures r == [] || (!IsSpace(r[0]) && !IsSpace(r[|r| - 1]))
  {
    TrimEnd(TrimStart(s))
  }

  /** Stripping leaves nothing exactly when the text is whitespace only. */
  lemma StripEmptyIff(s: string)
    ensures Strip(s) == [] <==> AllSpace(s)
  {
    var u := TrimStart(s);
    if Strip(s) == [] {
      assert u[0..] == u;
      assert s == s[..|s| - |u|] + u;
      AllSpaceConcat(s[..|s| - |u|], u);
    } else {
      var r := Strip(s);
      assert r[0] == u[0];
      assert u[0] == s[|s| - |u|];
    }
  }

  /** Whitespace followed by whitespace is whitespace. */
  lemma AllSpaceConcat(a: string, b: string)
    requires AllSpace(a) && AllSpace(b)
    ensures AllSpace(a + b)
  {
    forall k | 0 <= k < |a + b| ensures IsSpace((a + b)[k]) {
      if k < |a| {
        assert (a + b)[k] == a[k];
      } else {
        assert (a + b)[k] == b[k - |a|];
      }
    }
  }

  /** A text with no whitespace at either end strips to itself. */
  lemma StripOfTrimmed(s: string)
    requires s == [] || (!IsSpace(s[0]) && !IsSpace(s[|s| - 1]))
    ensures Strip(s) == s
  {
    if s != [] {
      assert SpanFrom(s, 0) == 0;
      assert TrimStart(s) == s;
      assert SpanBack(s, |s|) == |s|;
    }
  }

  /** Stripping is idempotent. */
  lemma StripIdempotent(s: string)
    ensures Strip(Strip(s)) == Strip(s)
  {
    StripOfTrimmed(Strip(s));
  }

  /** `t.strip().endswith(suffix)` for a one-character suffix. */
  predicate StrippedEndsWith(t: string, c: char) {
    var r := Strip(t);
    |r| > 0 && r[|r| - 1] == c
  }

  /** `c` occurs at `i` in `t` and only whitespace follows it. */
  predicate LastVisibleAt(t: string, c: char, i: int) {
    0 <= i < |t| && t[i] == c && AllSpace(t[i + 1..])
  }

  /** A non-whitespace character `c` ends the stripped text exactly when it
      occurs in `t` followed by whitespace only. */
  lemma StrippedEndsWithIff(t: string, c: char)
    requires !IsSpace(c)
    ensures StrippedEndsWith(t, c) <==> exists i :: LastVisibleAt(t, c, i)
  {
    if StrippedEndsWith(t, c) {
      StrippedEndsWithWitness(t, c);
    }
    if exists i :: LastVisibleAt(t, c, i) {
      var i :| LastVisibleAt(t, c, i);
      LastVisibleStrips(t, c, i);
    }
  }

  lemma StrippedEndsWithWitness(t: string, c: char)
    requires StrippedEndsWith(t, c)
    ensures LastVisibleAt(t, c, |t| - |TrimStart(t)| + |Strip(t)| - 1)
  {
    var u := TrimStart(t);
    var r := TrimEnd(u);
    var off := |t| - |u|;
    var i := off + |r| - 1;
    assert t[i] == u[|r| - 1] == r[|r| - 1];
    assert t[i + 1..] == u[|r|..];
  }

  lemma LastVisibleStrips(t: string, c: char, i: int)
    requires !IsSpace(c) && LastVisibleAt(t, c, i)
    ensures StrippedEndsWith(t, c)
  {
    var u := TrimStart(t);
    var off := |t| - |u|;
    TrimStartStopsAt(t, i);
    var j := i - off;
    assert u[j] == t[i];
    assert u[j + 1..] == t[i + 1..];
    TrimEndStopsAt(u, j);
  }

  /** `lstrip` never removes a non-whitespace character. */
  lemma TrimStartStopsAt(t: string, i: int)
    requires 0 <= i < |t| && !IsSpace(t[i])
    ensures |t| - |TrimStart(t)| <= i
  {
    var n := SpanFrom(t, 0);
    assert TrimStart(t) == t[n..];
  }

  /** `rstrip` keeps everything up to the last non-whitespace character. */
  lemma TrimEndStopsAt(u: string, j: int)
    requires 0 <= j < |u| && !IsSpace(u[j]) && AllSpace(u[j + 1..])
    ensures |TrimEnd(u)| == j + 1
  {
    var n := SpanBack(u, |u|);
    assert TrimEnd(u) == u[..n];
    assert forall k :: j < k < |u| ==> u[k] == u[j + 1..][k - (j + 1)];
  }

  /** Python's `str.lower` on one code point, for the ASCII and Latin-1 letters. */
  function LowerChar(c: char): char {
    if 'A' <= c <= 'Z' then (c as int + 32) as char
    else if '\U{C0}' <= c <= '\U{DE}' && c != '\U{D7}' then (c as int + 32) as char
    else c
  }

  /** `s.lower()`, code point by code point. */
  function Lower(s: string): (r: string)
    ensures |r| == |s|
  {
    seq(|s|, i requires 0 <= i < |s| => LowerChar(s[i]))
  }

  /** Lowering never turns whitespace into non-whitespace or back. */
  lemma LowerKeepsSpaces(s: string, i: int)
    requires 0 <= i < |s|
    ensures IsSpace(Lower(s)[i]) <==> IsSpace(s[i])
  {
  }

  predicate IsLower(s: string) {
    Lower(s) == s
  }

  /** Lowering twice is lowering once: its result is always lower case. */
  lemma LowerIsLower(s: string)
    ensures IsLower(Lower(s))
  {
    var r := Lower(s);
    forall i | 0 <= i < |r| ensures LowerChar(r[i]) == r[i] {
      assert r[i] == LowerChar(s[i]);
    }
  }

  /** Case-insensitive equality, `a.lower() == b.lower()`. */
  predicate SameIgnoringCase(a: string, b: string) {
    Lower(a) == Lower(b)
  }
}
