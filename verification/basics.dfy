/** Small building blocks shared by the component models: an optional value
    (JavaScript's `null`/`undefined` versus a present value), substring search
    as `String.prototype.includes` performs it, ASCII lower-casing and
    character counting. */
module Basics {

  /** A value that may be absent. */
  datatype Option<T> = None | Some(value: T) {

    /** The value, or `default` when absent (JavaScript's `x ?? default`). */
    function GetOr(default: T): (r: T)
      ensures Some? ==> r == value
      ensures None? ==> r == default
    {
      match this
      case Some(v) => v
      case None => default
    }
  }

  /** The outcome of an operation that can throw: a value, or the message of
      the error it throws. */
  datatype Result<T> = Success(value: T) | Failure(error: string)

  /** `p` is a prefix of `s`. */
  predicate IsPrefix(p: string, s: string) {
    |p| <= |s| && s[..|p|] == p
  }

  /** `s.includes(sub)`: some window of `s` equals `sub`. The empty string is
      contained in every string. */
  predicate Contains(s: string, sub: string)
    decreases |s|
  {
    IsPrefix(sub, s) || (|s| > 0 && Contains(s[1..], sub))
  }

  /** `sub` occurs in `s` starting at position `i`. */
  predicate WindowAt(s: string, sub: string, i: int) {
    0 <= i <= |s| - |sub| && s[i..i + |sub|] == sub
  }

  /** `Contains` agrees with the window definition of substring search, in
      both directions. */
  lemma {:induction false} ContainsIffWindow(s: string, sub: string)
    ensures Contains(s, sub) <==> exists i :: WindowAt(s, sub, i)
    decreases |s|
  {
    if IsPrefix(sub, s) {
      assert WindowAt(s, sub, 0);
    } else if |s| > 0 {
      ContainsIffWindow(s[1..], sub);
      if Contains(s[1..], sub) {
        var i :| WindowAt(s[1..], sub, i);
        assert s[i + 1..i + 1 + |sub|] == s[1..][i..i + |sub|];
        assert WindowAt(s, sub, i + 1);
      } else {
        forall i | WindowAt(s, sub, i)
          ensures false
        {
          if i > 0 {
            TailWindow(s, i, |sub|);
            assert WindowAt(s[1..], sub, i - 1);
          }
        }
      }
    } else {
      forall i | WindowAt(s, sub, i)
        ensures false
      {
      }
    }
  }

  /** A window of `s` away from the start is a window of its tail. */
  lemma TailWindow(s: string, i: int, n: nat)
    requires 1 <= i && i + n <= |s|
    ensures s[1..][i - 1..i - 1 + n] == s[i..i + n]
  {
    var a, b := s[1..][i - 1..i - 1 + n], s[i..i + n];
    assert |a| == n == |b|;
    forall k | 0 <= k < n
      ensures a[k] == b[k]
    {
      assert a[k] == s[1..][i - 1 + k] == s[i + k];
    }
  }

  /** A window of `s` equal to `sub` witnesses `Contains(s, sub)`. */
  lemma {:induction false} ContainsAt(s: string, sub: string, i: nat)
    requires i + |sub| <= |s| && s[i..i + |sub|] == sub
    ensures Contains(s, sub)
    decreases i
  {
    if i > 0 {
      assert s[1..][i - 1..i - 1 + |sub|] == s[i..i + |sub|];
      ContainsAt(s[1..], sub, i - 1);
    }
  }

  /** Whoever contains a word also contains each of its prefixes: a command
      that includes "hire" includes "hi". */
  lemma {:induction false} ContainsPrefixOf(s: string, word: string, p: string)
    requires IsPrefix(p, word) && Contains(s, word)
    ensures Contains(s, p)
    decreases |s|
  {
    if !IsPrefix(word, s) {
      ContainsPrefixOf(s[1..], word, p);
    } else {
      assert s[..|p|] == word[..|p|];
    }
  }

  /** A string in which the first two characters of `sub` never occur side
      by side does not contain `sub`. */
  lemma {:induction false} NoLeadingPair(s: string, sub: string)
    requires |sub| >= 2
    requires forall i :: 0 <= i < |s| - 1 ==> !(s[i] == sub[0] && s[i + 1] == sub[1])
    ensures !Contains(s, sub)
    decreases |s|
  {
    if |s| > 0 {
      assert !IsPrefix(sub, s) by {
        if |sub| <= |s| {
          assert s[..|sub|][0] == s[0] && s[..|sub|][1] == s[1];
        }
      }
      forall i | 0 <= i < |s[1..]| - 1
        ensures !(s[1..][i] == sub[0] && s[1..][i + 1] == sub[1])
      {
        assert s[1..][i] == s[i + 1] && s[1..][i + 1] == s[i + 2];
      }
      NoLeadingPair(s[1..], sub);
    }
  }

  predicate IsUpper(c: char) {
    'A' <= c <= 'Z'
  }

  /** `toLowerCase` restricted to ASCII letters. */
  function LowerChar(c: char): (r: char)
    ensures !IsUpper(r)
    ensures !IsUpper(c) ==> r == c
  {
    if IsUpper(c) then (c as int + 32) as char else c
  }

  /** `s.toLowerCase()`, ASCII letters only. */
  function Lower(s: string): (r: string)
    ensures |r| == |s|
    ensures forall i :: 0 <= i < |r| ==> !IsUpper(r[i]) && r[i] == LowerChar(s[i])
  {
    seq(|s|, i requires 0 <= i < |s| => LowerChar(s[i]))
  }

  /** Lower-casing is idempotent. */
  lemma LowerIdempotent(s: string)
    ensures Lower(Lower(s)) == Lower(s)
  {
    assert forall i :: 0 <= i < |s| ==> LowerChar(Lower(s)[i]) == Lower(s)[i];
  }

  /** Number of occurrences of `c` in `s`. */
  function CountChar(s: string, c: char): (n: nat)
    ensures n <= |s|
    ensures n == 0 <==> c !in s
  {
    if |s| == 0 then 0
    else (if s[0] == c then 1 else 0) + CountChar(s[1..], c)
  }

  function Min(a: int, b: int): int {
    if a <= b then a else b
  }
}
