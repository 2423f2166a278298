/**
 * The string operations the service relies on, with Python's meaning:
 * `sub in s`, `s.startswith(p)`, `sep.join(parts)`, `s[:n]`, `c * n` and
 * `s.replace(pat, "")`.
 */
module Text {

  predicate IsPrefix(p: string, s: string) {
    |p| <= |s| && s[..|p|] == p
  }

  /** Python's `sub in s` on strings (the empty string is in every string). */
  predicate Contains(s: string, sub: string)
    decreases |s|
  {
    IsPrefix(sub, s) || (|s| > 0 && Contains(s[1..], sub))
  }

  lemma {:induction false} ContainsInfix(a: string, sub: string, b: string)
    ensures Contains(a + sub + b, sub)
  {
    if |a| == 0 {
      assert a + sub + b == sub + b;
      assert (sub + b)[..|sub|] == sub;
    } else {
      ContainsInfix(a[1..], sub, b);
      assert (a + sub + b)[1..] == a[1..] + sub + b;
    }
  }

  /** Anything found in a part is found in a longer string around it. */
  lemma {:induction false} ContainsWidens(a: string, s: string, b: string, sub: string)
    requires Contains(s, sub)
    ensures Contains(a + s + b, sub)
  {
    if |a| == 0 {
      assert a + s + b == s + b;
      ContainsExtendRight(s, b, sub);
    } else {
      ContainsWidens(a[1..], s, b, sub);
      assert (a + s + b)[1..] == a[1..] + s + b;
    }
  }

  lemma {:induction false} ContainsExtendRight(s: string, b: string, sub: string)
    requires Contains(s, sub)
    ensures Contains(s + b, sub)
    decreases |s|
  {
    if IsPrefix(sub, s) {
      assert (s + b)[..|sub|] == s[..|sub|];
    } else {
      ContainsExtendRight(s[1..], b, sub);
      assert (s + b)[1..] == s[1..] + b;
    }
  }

  /** A non-empty pattern is never found in a shorter string. */
  lemma {:induction false} ContainsNeedsRoom(s: string, sub: string)
    requires |s| < |sub|
    ensures !Contains(s, sub)
    decreases |s|
  {
    if |s| > 0 {
      ContainsNeedsRoom(s[1..], sub);
    }
  }

  /** Python's `sep.join(parts)`. */
  function Join(sep: string, parts: seq<string>): (r: string)
    ensures |parts| == 1 ==> r == parts[0]
    decreases |parts|
  {
    if |parts| == 0 then ""
    else if |parts| == 1 then parts[0]
    else parts[0] + sep + Join(sep, parts[1..])
  }

  /** The first part of a joined string is where the join starts. */
  lemma JoinStartsWithFirst(sep: string, parts: seq<string>)
    requires |parts| > 0
    ensures IsPrefix(parts[0], Join(sep, parts))
  {
    if |parts| > 1 {
      assert Join(sep, parts) == parts[0] + (sep + Join(sep, parts[1..]));
    }
  }

  /** Python's `s[:n]` for a non-negative `n`. */
  function Take<T>(s: seq<T>, n: nat): (r: seq<T>)
    ensures |r| == if n <= |s| then n else |s|
    ensures forall i :: 0 <= i < |r| ==> r[i] == s[i]
  {
    if n <= |s| then s[..n] else s
  }

  /** Python's `c * n` for a one-character string `c`. */
  function Repeat(c: char, n: nat): (r: string)
    ensures |r| == n
    ensures forall i :: 0 <= i < n ==> r[i] == c
  {
    seq(n, _ => c)
  }

  /**
   * Python's `s.replace(pat, "")`: one left-to-right pass that removes every
   * non-overlapping occurrence of `pat`. Text that only forms `pat` once an
   * occurrence has been removed stays.
   */
  function RemoveAll(s: string, pat: string): (r: string)
    requires pat != ""
    ensures |r| <= |s|
    decreases |s|
  {
    if |s| == 0 then ""
    else if IsPrefix(pat, s) then RemoveAll(s[|pat|..], pat)
    else [s[0]] + RemoveAll(s[1..], pat)
  }

  /** A string that does not contain the pattern is left untouched. */
  lemma {:induction false} RemoveAllAbsent(s: string, pat: string)
    requires pat != "" && !Contains(s, pat)
    ensures RemoveAll(s, pat) == s
    decreases |s|
  {
    if |s| > 0 {
      RemoveAllAbsent(s[1..], pat);
      assert [s[0]] + s[1..] == s;
    }
  }

  /** A leading occurrence is dropped and the pass goes on after it. */
  lemma {:induction false} RemoveAllDropsPrefix(p: string, s: string)
    requires p != ""
    ensures RemoveAll(p + s, p) == RemoveAll(s, p)
  {
    assert (p + s)[..|p|] == p;
    assert (p + s)[|p|..] == s;
  }

  /** Four appends in a row are one append of the four pieces. */
  lemma AppendFour<T>(t: seq<T>, a: seq<T>, b: seq<T>, c: seq<T>, d: seq<T>)
    ensures t + a + b + c + d == t + (a + b + c + d)
  {
  }
}
