/** String operations of JavaScript and Rust that the model needs, on `seq<char>`.
    Whitespace and case are the ASCII ones (see README, "Left out"). */
module Strings {
  import opened Wrappers

  /** ASCII whitespace: space, tab, line feed, vertical tab, form feed, carriage return. */
  predicate IsSpace(c: char)
  {
    c == ' ' || c == '\t' || c == '\n' || c == '\r' || c == '\U{000B}' || c == '\U{000C}'
  }

  /** Drops the longest prefix whose characters satisfy `drop`. */
  function StripStart(s: string, drop: char -> bool): (r: string)
    ensures |r| <= |s| && r == s[|s| - |r|..]
    ensures forall i :: 0 <= i < |s| - |r| ==> drop(s[i])
    ensures r != [] ==> !drop(r[0])
  {
    if s != [] && drop(s[0]) then StripStart(s[1..], drop) else s
  }

  /** Drops the longest suffix whose characters satisfy `drop`. */
  function StripEnd(s: string, drop: char -> bool): (r: string)
    ensures |r| <= |s| && r == s[..|r|]
    ensures forall i :: |r| <= i < |s| ==> drop(s[i])
    ensures r != [] ==> !drop(r[|r| - 1])
  {
    if s != [] && drop(s[|s| - 1]) then StripEnd(s[..|s| - 1], drop) else s
  }

  /** `str.trim()` / `str::trim`. */
  function Trim(s: string): string
  {
    StripEnd(StripStart(s, IsSpace), IsSpace)
  }

  /** `str::trim_matches(c)` for a single character. */
  function TrimMatches(s: string, c: char): string
  {
    StripEnd(StripStart(s, x => x == c), x => x == c)
  }

  predicate StartsWith(s: string, prefix: string)
  {
    |prefix| <= |s| && s[..|prefix|] == prefix
  }

  /** `pat` occurs in `s` starting at index `i`. */
  predicate OccursAt(s: string, pat: string, i: int)
  {
    0 <= i && i + |pat| <= |s| && s[i..i + |pat|] == pat
  }

  /** First index at or after `from` where `pat` occurs. */
  function FindFrom(s: string, pat: string, from: nat): (r: Option<nat>)
    ensures r.Some? ==> from <= r.value && OccursAt(s, pat, r.value)
    ensures r.Some? ==> forall j :: from <= j < r.value ==> !OccursAt(s, pat, j)
    ensures r.None? ==> forall j :: from <= j ==> !OccursAt(s, pat, j)
    decreases |s| - from
  {
    if from + |pat| > |s| then None
    else if s[from..from + |pat|] == pat then Some(from)
    else FindFrom(s, pat, from + 1)
  }

  /** First index where `pat` occurs (`indexOf`). */
  function FindFirst(s: string, pat: string): Option<nat>
  {
    FindFrom(s, pat, 0)
  }

  /** The first occurrence is the one with no occurrence before it. */
  lemma FindFirstAt(s: string, pat: string, i: nat)
    requires OccursAt(s, pat, i)
    requires forall j :: 0 <= j < i ==> !OccursAt(s, pat, j)
    ensures FindFirst(s, pat) == Some(i)
  {
  }

  /** `str.includes(sub)`. */
  predicate Contains(s: string, sub: string)
  {
    FindFirst(s, sub).Some?
  }

  /** `str.replace(re, rep)` for a regular expression without the global flag and
      without `$` patterns in `rep`: only the first occurrence is replaced. */
  function ReplaceFirst(s: string, pat: string, rep: string): string
  {
    match FindFirst(s, pat)
    case Some(i) => s[..i] + rep + s[i + |pat|..]
    case None => s
  }

  /** ASCII `toLowerCase`. */
  function LowerChar(c: char): char
  {
    if 'A' <= c <= 'Z' then (c as int + 32) as char else c
  }

  function ToLower(s: string): (r: string)
    ensures |r| == |s|
    ensures forall i :: 0 <= i < |s| ==> r[i] == LowerChar(s[i])
  {
    seq(|s|, i requires 0 <= i < |s| => LowerChar(s[i]))
  }

  /** `chars().take(n)`: the first `n` characters, or the whole string when it is shorter. */
  function Take(s: string, n: nat): (r: string)
    ensures |r| <= n && |r| <= |s| && r == s[..|r|]
    ensures |s| <= n ==> r == s
    ensures |s| > n ==> r == s[..n]
  {
    if |s| <= n then s else s[..n]
  }

  /** A line of `str::lines` loses one trailing carriage return. */
  function StripCr(line: string): string
  {
    if line != [] && line[|line| - 1] == '\r' then line[..|line| - 1] else line
  }

  /** `str::lines`: split at line feeds (a carriage return before a line feed is dropped);
      a final line without a line feed is kept whole, a trailing carriage return included; a
      final line feed does not start another line, and the empty string has no lines. */
  function Lines(s: string): (r: seq<string>)
    ensures forall l :: l in r ==> '\n' !in l
    decreases |s|
  {
    if s == [] then []
    else
      match FindFirst(s, "\n")
      case None =>
        NoLineFeedBefore(s, |s|);
        assert s[..|s|] == s;
        [s]
      case Some(k) =>
        NoLineFeedBefore(s, k);
        [StripCr(s[..k])] + Lines(s[k + 1..])
  }

  /** Where no line feed is found before `k`, the prefix holds none. */
  lemma NoLineFeedBefore(s: string, k: nat)
    requires k <= |s|
    requires forall j :: 0 <= j < k ==> !OccursAt(s, "\n", j)
    ensures '\n' !in s[..k] && '\n' !in StripCr(s[..k])
  {
    forall j | 0 <= j < k ensures s[j] != '\n' {
      assert !OccursAt(s, "\n", j);
      assert s[j..j + 1] == [s[j]];
    }
  }

  /** A non-empty string without a line feed is one line, kept whole. */
  lemma LinesSingle(s: string)
    requires s != [] && '\n' !in s
    ensures Lines(s) == [s]
  {
    forall j | 0 <= j < |s| ensures !OccursAt(s, "\n", j) {
      assert s[j] in s;
      assert s[j..j + 1] == [s[j]];
    }
  }

  /** The text before the first line feed is the first line, less a trailing carriage
      return, and the rest are the lines of what follows it. */
  lemma LinesCons(a: string, b: string)
    requires '\n' !in a
    ensures Lines(a + "\n" + b) == [StripCr(a)] + Lines(b)
  {
    var t := a + "\n" + b;
    assert t[|a|..|a| + 1] == "\n";
    forall j | 0 <= j < |a| ensures !OccursAt(t, "\n", j) {
      assert t[j] == a[j] && a[j] in a;
      assert t[j..j + 1] == [t[j]];
    }
    FindFirstAt(t, "\n", |a|);
    assert t[..|a|] == a;
    assert t[|a| + 1..] == b;
  }
}
