/** String operations the source takes from PHP's library: joining,
    trimming a trailing separator, `str_replace` with an empty replacement,
    and the byte-wise order `ksort` applies to string keys. */
module Strings {

  /** xs with sep between neighbours (PHP's `implode`). */
  function Join(xs: seq<string>, sep: string): string
  {
    if |xs| == 0 then ""
    else if |xs| == 1 then xs[0]
    else Join(xs[..|xs| - 1], sep) + sep + xs[|xs| - 1]
  }

  /** Every item followed by sep: what the source's accumulating loops
      build before they trim. */
  function Terminated(xs: seq<string>, sep: string): string
  {
    if |xs| == 0 then "" else Terminated(xs[..|xs| - 1], sep) + xs[|xs| - 1] + sep
  }

  /** One more item of a prefix: the loops' accumulation step. */
  lemma TerminatedStep(xs: seq<string>, i: nat, sep: string)
    requires i < |xs|
    ensures Terminated(xs[..i + 1], sep) == Terminated(xs[..i], sep) + xs[i] + sep
  {
    assert xs[..i + 1][..i] == xs[..i];
  }

  /** `preg_replace('#T$#', '', s)` as the source uses it: t is removed
      where s ends with it, and s is kept otherwise. */
  function TrimTrailing(s: string, t: string): (r: string)
    ensures r <= s
    ensures |t| <= |s| && s[|s| - |t|..] == t ==> r + t == s
  {
    if |t| <= |s| && s[|s| - |t|..] == t then s[..|s| - |t|] else s
  }

  lemma TrimAppended(s: string, t: string)
    ensures TrimTrailing(s + t, t) == s
  {
    assert (s + t)[|s + t| - |t|..] == t;
    assert (s + t)[..|s + t| - |t|] == s;
  }

  lemma {:induction false} TerminatedIsJoined(xs: seq<string>, sep: string)
    requires |xs| > 0
    ensures Terminated(xs, sep) == Join(xs, sep) + sep
  {
    if |xs| > 1 {
      var init := xs[..|xs| - 1];
      TerminatedIsJoined(init, sep);
      assert Terminated(xs, sep) == Join(init, sep) + sep + xs[|xs| - 1] + sep;
    } else {
      assert Terminated(xs, sep) == Terminated([], sep) + xs[0] + sep;
    }
  }

  /** Accumulating with a trailing separator and trimming it gives the join:
      no trailing separator is left. */
  lemma TrimTerminated(xs: seq<string>, sep: string)
    ensures TrimTrailing(Terminated(xs, sep), sep) == Join(xs, sep)
  {
    if |xs| > 0 {
      TerminatedIsJoined(xs, sep);
      TrimAppended(Join(xs, sep), sep);
    }
  }

  /** `str_replace(pat, '', s)`: deletes the non-overlapping occurrences of
      pat, scanning from the left. */
  function RemoveAll(s: string, pat: string): (r: string)
    requires |pat| > 0
    ensures |r| <= |s|
    ensures pat <= s ==> |r| <= |s| - |pat|
    decreases |s|
  {
    if |s| < |pat| then s
    else if s[..|pat|] == pat then RemoveAll(s[|pat|..], pat)
    else [s[0]] + RemoveAll(s[1..], pat)
  }

  /** Removing a one-character string leaves no occurrence of that character. */
  lemma {:induction false} RemoveAllChar(s: string, c: char)
    ensures c !in RemoveAll(s, [c])
    decreases |s|
  {
    if |s| >= 1 {
      if s[..1] == [c] {
        RemoveAllChar(s[1..], c);
      } else {
        RemoveAllChar(s[1..], c);
        assert s[0] != c;
      }
    }
  }

  /** A string with no occurrence of the character c is left as it is. */
  lemma {:induction false} RemoveAllAbsent(s: string, c: char)
    requires c !in s
    ensures RemoveAll(s, [c]) == s
    decreases |s|
  {
    if |s| >= 1 {
      assert s[0] != c;
      RemoveAllAbsent(s[1..], c);
      assert [s[0]] + s[1..] == s;
    }
  }

  /** Byte-wise string order (`strcmp(a, b) < 0`). */
  predicate StrLess(a: string, b: string)
    ensures StrLess(a, b) ==> a != b
  {
    if |a| == 0 then |b| > 0
    else if |b| == 0 then false
    else if a[0] != b[0] then a[0] < b[0]
    else StrLess(a[1..], b[1..])
  }

  lemma {:induction false} StrLessIrreflexive(a: string)
    ensures !StrLess(a, a)
  {
    if |a| > 0 {
      StrLessIrreflexive(a[1..]);
    }
  }

  lemma {:induction false} StrLessAsymmetric(a: string, b: string)
    ensures StrLess(a, b) ==> !StrLess(b, a)
  {
    if |a| > 0 && |b| > 0 && a[0] == b[0] {
      StrLessAsymmetric(a[1..], b[1..]);
    }
  }

  lemma {:induction false} StrLessTransitive(a: string, b: string, c: string)
    requires StrLess(a, b) && StrLess(b, c)
    ensures StrLess(a, c)
  {
    if |a| > 0 && |b| > 0 && |c| > 0 && a[0] == b[0] && b[0] == c[0] {
      StrLessTransitive(a[1..], b[1..], c[1..]);
    }
  }

  lemma {:induction false} StrLessTotal(a: string, b: string)
    requires a != b
    ensures StrLess(a, b) || StrLess(b, a)
  {
    if |a| > 0 && |b| > 0 && a[0] == b[0] {
      assert a == [a[0]] + a[1..] && b == [b[0]] + b[1..];
      StrLessTotal(a[1..], b[1..]);
    }
  }

  /** A character that occurs neither in the separator nor in any item does
      not occur in the join. */
  lemma {:induction false} JoinAvoids(xs: seq<string>, sep: string, c: char)
    requires c !in sep
    requires forall i :: 0 <= i < |xs| ==> c !in xs[i]
    ensures c !in Join(xs, sep)
  {
    if |xs| > 1 {
      JoinAvoids(xs[..|xs| - 1], sep, c);
    }
  }
}
