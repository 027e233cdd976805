/**
 * The few JavaScript string operations the application relies on, over
 * strings of Unicode characters: `trim`, `slice(0, n)`, `join`,
 * `startsWith`, ASCII `toLowerCase`, and a first-occurrence split.
 */
module JsString {

  import opened Wrappers

  /** The characters `String.prototype.trim` removes: ECMAScript WhiteSpace and LineTerminator. */
  predicate IsJsSpace(c: char) {
    || c == '\t' || c == '\n' || c == '\U{000B}' || c == '\U{000C}' || c == '\r' || c == ' '
    || c == '\U{00A0}' || c == '\U{1680}' || ('\U{2000}' <= c <= '\U{200A}')
    || c == '\U{2028}' || c == '\U{2029}' || c == '\U{202F}' || c == '\U{205F}'
    || c == '\U{3000}' || c == '\U{FEFF}'
  }

  predicate AllSpace(s: string) {
    forall i :: 0 <= i < |s| ==> IsJsSpace(s[i])
  }

  /** Neither end of `s` is a trimmable character. */
  predicate Trimmed(s: string) {
    s == [] || (!IsJsSpace(s[0]) && !IsJsSpace(s[|s| - 1]))
  }

  /** Removes leading whitespace: the result is the suffix of `s` left after its whitespace prefix. */
  function TrimStart(s: string): (r: string)
    ensures |r| <= |s| && r == s[|s| - |r|..]
    ensures AllSpace(s[..|s| - |r|])
    ensures r == [] || !IsJsSpace(r[0])
  {
    if s != [] && IsJsSpace(s[0]) then TrimStart(s[1..]) else s
  }

  /** Removes trailing whitespace: the result is the prefix of `s` left before its whitespace suffix. */
  function TrimEnd(s: string): (r: string)
    ensures |r| <= |s| && r == s[..|r|]
    ensures AllSpace(s[|r|..])
    ensures r == [] || !IsJsSpace(r[|r| - 1])
  {
    if s != [] && IsJsSpace(s[|s| - 1]) then TrimEnd(s[..|s| - 1]) else s
  }

  /** `s.trim()` */
  function Trim(s: string): (r: string)
    ensures |r| <= |s| && Trimmed(r)
  {
    TrimEnd(TrimStart(s))
  }

  /** A trimmed string is empty exactly when the original held only whitespace. */
  lemma TrimEmptyIff(s: string)
    ensures Trim(s) == [] <==> AllSpace(s)
  {
    var t := TrimStart(s);
    if Trim(s) == [] {
      assert AllSpace(t[0..]);
      assert s == s[..|s| - |t|] + t;
    }
  }

  lemma {:induction false} TrimStartOfSpacesThen(a: string, s: string)
    requires AllSpace(a) && (s == [] || !IsJsSpace(s[0]))
    ensures TrimStart(a + s) == s
    decreases |a|
  {
    if a != [] {
      assert (a + s)[1..] == a[1..] + s;
      TrimStartOfSpacesThen(a[1..], s);
    } else {
      assert a + s == s;
    }
  }

  lemma {:induction false} TrimEndOfThenSpaces(s: string, b: string)
    requires AllSpace(b) && (s == [] || !IsJsSpace(s[|s| - 1]))
    ensures TrimEnd(s + b) == s
    decreases |b|
  {
    if b != [] {
      assert (s + b)[..|s + b| - 1] == s + b[..|b| - 1];
      TrimEndOfThenSpaces(s, b[..|b| - 1]);
    } else {
      assert s + b == s;
    }
  }

  /**
   * `trim` is characterised by its effect: whitespace around a string with
   * non-whitespace ends is removed and nothing else.
   */
  lemma TrimAround(a: string, s: string, b: string)
    requires AllSpace(a) && AllSpace(b) && Trimmed(s) && s != []
    ensures Trim(a + s + b) == s
  {
    assert a + s + b == a + (s + b);
    TrimStartOfSpacesThen(a, s + b);
    TrimEndOfThenSpaces(s, b);
  }

  /** A string whose ends are not whitespace is left unchanged by `trim`. */
  lemma TrimNoOp(s: string)
    requires Trimmed(s)
    ensures Trim(s) == s
  {
    if s != [] {
      TrimAround([], s, []);
      assert [] + s + [] == s;
    }
  }

  /** `s.slice(0, n)` for a non-negative `n`. */
  function Take(s: string, n: nat): (r: string)
    ensures |r| == if n < |s| then n else |s|
    ensures r <= s
  {
    if n < |s| then s[..n] else s
  }

  /** ASCII-only `toLowerCase` of one character. */
  function LowerChar(c: char): (r: char)
    ensures 'A' <= c <= 'Z' ==> r as int == c as int + 32
    ensures !('A' <= c <= 'Z') ==> r == c
  {
    if 'A' <= c <= 'Z' then (c as int + 32) as char else c
  }

  /** ASCII-only `toLowerCase`: characters are lowered one by one, so the length is kept. */
  function LowerAscii(s: string): (r: string)
    ensures |r| == |s|
    ensures forall i :: 0 <= i < |s| ==> r[i] == LowerChar(s[i])
  {
    seq(|s|, i requires 0 <= i < |s| => LowerChar(s[i]))
  }

  /** `s.startsWith(p)` */
  predicate StartsWith(s: string, p: string) {
    |p| <= |s| && s[..|p|] == p
  }

  /** `lines.join(sep)` */
  function Join(lines: seq<string>, sep: string): string {
    if |lines| == 0 then ""
    else if |lines| == 1 then lines[0]
    else lines[0] + sep + Join(lines[1..], sep)
  }

  /** `pat` occurs in `s` at some position. */
  predicate HasInfix(s: string, pat: string) {
    exists i :: 0 <= i <= |s| - |pat| && StartsWith(s[i..], pat)
  }

  /** The middle part of a concatenation occurs in it. */
  lemma InfixMiddle(a: string, b: string, c: string)
    ensures HasInfix(a + b + c, b)
  {
    assert (a + b + c)[|a|..][..|b|] == b;
  }

  /** An occurrence in a suffix is an occurrence in the whole. */
  lemma InfixWithin(a: string, s: string, pat: string)
    requires HasInfix(s, pat)
    ensures HasInfix(a + s, pat)
  {
    var i :| 0 <= i <= |s| - |pat| && StartsWith(s[i..], pat);
    assert (a + s)[|a| + i..] == s[i..];
  }

  /** No occurrence of `pat` in `s` starts before position `n`. */
  predicate NotFoundBefore(s: string, pat: string, n: nat) {
    forall i :: 0 <= i < n && i <= |s| ==> !StartsWith(s[i..], pat)
  }

  /**
   * Splits `s` around the first occurrence of `pat`, as
   * `[s.slice(0, k), s.slice(k + pat.length)]` with `k = s.indexOf(pat)`.
   */
  function SplitFirst(s: string, pat: string): (r: Option<(string, string)>)
    requires pat != []
    ensures r.Some? ==> s == r.value.0 + pat + r.value.1 && NotFoundBefore(s, pat, |r.value.0|)
    ensures r.None? ==> !HasInfix(s, pat)
  {
    if StartsWith(s, pat) then
      assert s == [] + pat + s[|pat|..];
      Some(([], s[|pat|..]))
    else if s == [] then None
    else
      var rest := SplitFirst(s[1..], pat);
      SearchFromSecond(s, pat, rest);
      match rest
      case None => None
      case Some((before, after)) => Some(([s[0]] + before, after))
  }

  /** What a search of `s[1..]` says about `s`, when `pat` is not at the start of `s`. */
  lemma SearchFromSecond(s: string, pat: string, rest: Option<(string, string)>)
    requires pat != [] && s != [] && !StartsWith(s, pat)
    requires rest.Some? ==> s[1..] == rest.value.0 + pat + rest.value.1 && NotFoundBefore(s[1..], pat, |rest.value.0|)
    requires rest.None? ==> !HasInfix(s[1..], pat)
    ensures rest.Some? ==> s == [s[0]] + rest.value.0 + pat + rest.value.1 && NotFoundBefore(s, pat, 1 + |rest.value.0|)
    ensures rest.None? ==> !HasInfix(s, pat)
  {
    forall i | 1 <= i <= |s| ensures s[i..] == s[1..][i - 1..] {
    }
    if rest.Some? {
      assert s == [s[0]] + s[1..];
    }
  }

  /** Splitting `p + pat + o` finds the `pat` after `p` when no earlier occurrence exists. */
  lemma {:induction false} SplitFirstAt(p: string, pat: string, o: string)
    requires pat != []
    requires NotFoundBefore(p + pat + o, pat, |p|)
    ensures SplitFirst(p + pat + o, pat) == Some((p, o))
    decreases |p|
  {
    var s := p + pat + o;
    if p == [] {
      assert s == pat + o && s[..|pat|] == pat;
      assert s[|pat|..] == o;
    } else {
      assert !StartsWith(s[0..], pat);
      assert s[1..] == p[1..] + pat + o;
      forall i | 0 <= i < |p[1..]| && i <= |s[1..]|
        ensures !StartsWith(s[1..][i..], pat)
      {
        assert s[1..][i..] == s[i + 1..];
      }
      SplitFirstAt(p[1..], pat, o);
      assert [s[0]] + p[1..] == p;
    }
  }
}
