/** The part of JavaScript's `String.prototype.trim` that the conversation controller relies
    on: which characters count as white space, and what trimming removes. Characters are
    Unicode scalar values; every trimmed character lies in the Basic Multilingual Plane, so
    working on code points instead of UTF-16 code units changes nothing here. */
module JsString {

  /** The WhiteSpace and LineTerminator productions of ECMA-262: tab, vertical tab, form feed,
      the space separators (category Zs), the byte order mark, and the four line terminators. */
  predicate IsWhiteSpace(c: char)
  {
    || c == '\t' || c == '\U{000B}' || c == '\U{000C}' || c == ' ' || c == '\U{00A0}'
    || c == '\U{FEFF}' || c == '\U{1680}' || ('\U{2000}' <= c <= '\U{200A}')
    || c == '\U{202F}' || c == '\U{205F}' || c == '\U{3000}'
    || c == '\n' || c == '\r' || c == '\U{2028}' || c == '\U{2029}'
  }

  /** Every character of `s` is white space. */
  predicate AllWhiteSpace(s: string)
  {
    forall k :: 0 <= k < |s| ==> IsWhiteSpace(s[k])
  }

  /** Neither the first nor the last character of `s` is white space. */
  predicate Tight(s: string)
  {
    |s| == 0 || (!IsWhiteSpace(s[0]) && !IsWhiteSpace(s[|s| - 1]))
  }

  /** The number of white-space characters at the front of `s`. */
  function LeadingCount(s: string): (n: nat)
    ensures n <= |s|
    ensures AllWhiteSpace(s[..n])
    ensures n < |s| ==> !IsWhiteSpace(s[n])
  {
    if |s| == 0 || !IsWhiteSpace(s[0]) then 0
    else
      var n := 1 + LeadingCount(s[1..]);
      assert s[..n] == [s[0]] + s[1..][..n - 1];
      n
  }

  /** The number of white-space characters at the back of `s`. */
  function TrailingCount(s: string): (n: nat)
    ensures n <= |s|
    ensures AllWhiteSpace(s[|s| - n..])
    ensures n < |s| ==> !IsWhiteSpace(s[|s| - n - 1])
  {
    if |s| == 0 || !IsWhiteSpace(s[|s| - 1]) then 0
    else
      var n := 1 + TrailingCount(s[..|s| - 1]);
      assert s[|s| - n..] == s[..|s| - 1][|s| - n..] + [s[|s| - 1]];
      n
  }

  /** `s.trim()`: `s` without its leading and trailing white space. */
  function Trim(s: string): (r: string)
  {
    var t := s[LeadingCount(s)..];
    t[..|t| - TrailingCount(t)]
  }

  /** What `trim` returns is a contiguous piece of its input, with only white space cut off
      on either side, and it neither starts nor ends with white space. */
  lemma TrimShape(s: string)
    ensures exists i, j :: 0 <= i <= j <= |s| && Trim(s) == s[i..j]
                           && AllWhiteSpace(s[..i]) && AllWhiteSpace(s[j..])
    ensures Tight(Trim(s))
  {
    var i := LeadingCount(s);
    var t := s[i..];
    var m := TrailingCount(t);
    var j := i + |t| - m;
    assert t[..|t| - m] == s[i..j];
    assert t[|t| - m..] == s[j..];
    var r := Trim(s);
    if |r| > 0 {
      assert r[0] == s[i];
      assert r[|r| - 1] == t[|t| - m - 1];
    }
  }

  /** `trim` is characterised by its shape: cutting white space from both ends of a string
      whose core neither starts nor ends with white space gives back exactly that core. */
  lemma TrimUnique(pre: string, core: string, post: string)
    requires AllWhiteSpace(pre) && AllWhiteSpace(post) && Tight(core)
    ensures Trim(pre + core + post) == core
  {
    var s := pre + core + post;
    if |core| == 0 {
      assert AllWhiteSpace(s) by {
        forall k | 0 <= k < |s| ensures IsWhiteSpace(s[k]) {
          if k < |pre| { assert s[k] == pre[k]; } else { assert s[k] == post[k - |pre|]; }
        }
      }
      AllWhiteSpaceTrimsEmpty(s);
    } else {
      LeadingCountOf(pre, core + post);
      assert s == pre + (core + post);
      var t := s[|pre|..];
      assert t == core + post;
      TrailingCountOf(core, post);
      assert t[..|t| - |post|] == core;
    }
  }

  lemma {:induction false} LeadingCountOf(pre: string, rest: string)
    requires AllWhiteSpace(pre)
    requires |rest| > 0 && !IsWhiteSpace(rest[0])
    ensures LeadingCount(pre + rest) == |pre|
  {
    var s := pre + rest;
    if |pre| == 0 {
      assert s == rest;
    } else {
      assert s[0] == pre[0];
      assert s[1..] == pre[1..] + rest;
      LeadingCountOf(pre[1..], rest);
    }
  }

  lemma {:induction false} TrailingCountOf(rest: string, post: string)
    requires AllWhiteSpace(post)
    requires |rest| > 0 && !IsWhiteSpace(rest[|rest| - 1])
    ensures TrailingCount(rest + post) == |post|
  {
    var s := rest + post;
    if |post| == 0 {
      assert s == rest;
    } else {
      assert s[|s| - 1] == post[|post| - 1];
      assert s[..|s| - 1] == rest + post[..|post| - 1];
      TrailingCountOf(rest, post[..|post| - 1]);
    }
  }

  lemma AllWhiteSpaceTrimsEmpty(s: string)
    requires AllWhiteSpace(s)
    ensures Trim(s) == []
  {
    assert LeadingCount(s) == |s|;
  }

  /** A string trims to the empty string exactly when it consists of white space only: the
      condition under which a draft message is refused. */
  lemma TrimEmptyIff(s: string)
    ensures Trim(s) == [] <==> AllWhiteSpace(s)
  {
    if AllWhiteSpace(s) {
      AllWhiteSpaceTrimsEmpty(s);
    } else {
      var k :| 0 <= k < |s| && !IsWhiteSpace(s[k]);
      var n := LeadingCount(s);
      assert n <= k;
      var t := s[n..];
      var m := TrailingCount(t);
      assert t[k - n] == s[k];
      assert m <= |t| - (k - n) - 1;
    }
  }

  /** Trimming a trimmed string changes nothing. */
  lemma TrimIdempotent(s: string)
    ensures Trim(Trim(s)) == Trim(s)
  {
    TrimShape(s);
    var r := Trim(s);
    assert r == [] + r + [];
    TrimUnique([], r, []);
  }
}
