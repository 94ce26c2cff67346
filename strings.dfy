/**
 * The string operations the modelled Python and TypeScript code relies on:
 * substring search (`in`, `find`, `rfind`), `split`, `join`, `strip`/`trim`,
 * `lower`, `startswith`, `replace` and decimal rendering of integers.
 * Case mapping and whitespace are the ASCII ones.
 */
module Strings {
  import opened Wrappers

  // ---------------------------------------------------------------------------
  // Substring search

  /** `pat` occurs in `s` starting at index `i`. */
  predicate OccursAt(s: string, pat: string, i: nat) {
    i + |pat| <= |s| && s[i..i + |pat|] == pat
  }

  /** Python's `pat in s` (and JavaScript's `s.includes(pat)`). */
  predicate Contains(s: string, pat: string) {
    exists i: nat | i <= |s| :: OccursAt(s, pat, i)
  }

  /** The first occurrence of `pat` in `s` at or after index `i`. */
  function FindFrom(s: string, pat: string, i: nat): (r: Option<nat>)
    decreases |s| - i
    ensures r.Some? ==> i <= r.value && OccursAt(s, pat, r.value)
    ensures r.Some? ==> forall j: nat :: i <= j < r.value ==> !OccursAt(s, pat, j)
    ensures r.None? ==> forall j: nat :: i <= j ==> !OccursAt(s, pat, j)
  {
    if i + |pat| > |s| then None
    else if s[i..i + |pat|] == pat then Some(i)
    else FindFrom(s, pat, i + 1)
  }

  /** Python's `s.find(pat)`, with `None` for -1. */
  function Find(s: string, pat: string): (r: Option<nat>)
    ensures r.Some? <==> Contains(s, pat)
    ensures r.Some? ==> OccursAt(s, pat, r.value)
    ensures r.Some? ==> forall j: nat :: j < r.value ==> !OccursAt(s, pat, j)
  {
    FindFrom(s, pat, 0)
  }

  /** Python's `s.rfind(c)` for a one-character pattern, with `None` for -1. */
  function RFindChar(s: string, c: char): (r: Option<nat>)
    ensures r.Some? ==> r.value < |s| && s[r.value] == c
    ensures r.Some? ==> forall j :: r.value < j < |s| ==> s[j] != c
    ensures r.None? <==> c !in s
  {
    if |s| == 0 then None
    else if s[|s| - 1] == c then Some(|s| - 1)
    else
      assert s == s[..|s| - 1] + [s[|s| - 1]];
      RFindChar(s[..|s| - 1], c)
  }

  lemma ContainsWitness(s: string, pat: string, i: nat)
    requires OccursAt(s, pat, i)
    ensures Contains(s, pat)
  {
  }

  /** A text glued around `pat` contains it. */
  lemma ContainsInfix(a: string, pat: string, b: string)
    ensures Contains(a + pat + b, pat)
  {
    assert (a + pat + b)[|a|..|a| + |pat|] == pat;
    ContainsWitness(a + pat + b, pat, |a|);
  }

  /** An occurrence in a slice is an occurrence in the whole text. */
  lemma ContainsSlice(s: string, lo: nat, hi: nat, pat: string)
    requires lo <= hi <= |s| && Contains(s[lo..hi], pat)
    ensures Contains(s, pat)
  {
    var i: nat :| i <= hi - lo && OccursAt(s[lo..hi], pat, i);
    assert i + |pat| <= hi - lo;
    assert forall j :: lo + i <= j < lo + i + |pat| ==> s[j] == s[lo..hi][j - lo];
    assert s[lo + i..lo + i + |pat|] == s[lo..hi][i..i + |pat|];
    ContainsWitness(s, pat, lo + i);
  }

  /** An occurrence in the tail of a text is an occurrence in the text. */
  lemma ContainsAfter(a: string, b: string, pat: string)
    requires Contains(b, pat)
    ensures Contains(a + b, pat)
  {
    var i: nat :| i <= |b| && OccursAt(b, pat, i);
    assert (a + b)[|a| + i..|a| + i + |pat|] == b[i..i + |pat|];
    ContainsWitness(a + b, pat, |a| + i);
  }

  /** Being a substring is transitive. */
  lemma ContainsTransitive(a: string, b: string, c: string)
    requires Contains(a, b) && Contains(b, c)
    ensures Contains(a, c)
  {
    var i: nat :| i <= |a| && OccursAt(a, b, i);
    var j: nat :| j <= |b| && OccursAt(b, c, j);
    assert a[i..i + |b|] == b;
    assert forall k :: i + j <= k < i + j + |c| ==> a[k] == b[k - i];
    assert a[i + j..i + j + |c|] == c;
    ContainsWitness(a, c, i + j);
  }

  /** For a one-character pattern, substring search is membership. */
  lemma ContainsChar(s: string, c: char)
    ensures Contains(s, [c]) <==> c in s
  {
    if c in s {
      var i :| 0 <= i < |s| && s[i] == c;
      assert s[i..i + 1] == [c];
      ContainsWitness(s, [c], i);
    }
    if Contains(s, [c]) {
      var i: nat :| i <= |s| && OccursAt(s, [c], i);
      assert s[i..i + 1][0] == s[i];
    }
  }

  /** The pieces of a five-part concatenation: the second and fourth are found in it,
    * and it starts with the first two and ends with the last two. */
  lemma FivePartsContain(a: string, b: string, c: string, d: string, e: string)
    ensures var w := a + b + c + d + e;
      Contains(w, b) && Contains(w, d) && StartsWith(w, a + b) && EndsWith(w, d + e)
  {
    var w := a + b + c + d + e;
    assert w == a + b + (c + d + e);
    ContainsInfix(a, b, c + d + e);
    ContainsInfix(a + b + c, d, e);
    assert w[..|a + b|] == a + b;
    assert w[|w| - |d + e|..] == d + e;
  }

  // ---------------------------------------------------------------------------
  // Prefixes and suffixes

  predicate StartsWith(s: string, p: string) {
    |p| <= |s| && s[..|p|] == p
  }

  /** A prefix is in particular an occurrence. */
  lemma StartsWithContains(s: string, p: string)
    requires StartsWith(s, p)
    ensures OccursAt(s, p, 0) && Contains(s, p)
  {
    assert s[0..|p|] == s[..|p|];
    ContainsWitness(s, p, 0);
  }

  predicate EndsWith(s: string, p: string) {
    |p| <= |s| && s[|s| - |p|..] == p
  }

  // ---------------------------------------------------------------------------
  // Pieces of `split(sep)` for a non-empty separator

  /** `s.split(sep)[0]`: the text before the first `sep`, or all of `s`. */
  function Before(s: string, sep: string): (r: string)
    requires sep != ""
    ensures |r| <= |s| && r == s[..|r|]
    ensures !Contains(r, sep)
    ensures Contains(s, sep) ==> OccursAt(s, sep, |r|)
    ensures !Contains(s, sep) ==> r == s
  {
    match Find(s, sep)
    case None => s
    case Some(i) =>
      assert forall j: nat :: OccursAt(s[..i], sep, j) ==> OccursAt(s, sep, j) by {
        forall j: nat | OccursAt(s[..i], sep, j) ensures OccursAt(s, sep, j) {
          assert s[..i][j..j + |sep|] == s[j..j + |sep|];
        }
      }
      s[..i]
  }

  /** The text after the first `sep`, or `None` when `sep` does not occur. */
  function After(s: string, sep: string): (r: Option<string>)
    requires sep != ""
    ensures r.Some? <==> Contains(s, sep)
    ensures r.Some? ==> s == Before(s, sep) + sep + r.value
  {
    match Find(s, sep)
    case None => None
    case Some(i) => Some(s[i + |sep|..])
  }

  /** `s.split(sep)[1]`: the text between the first and the second `sep`;
    * `None` where Python raises `IndexError`. */
  function SecondPiece(s: string, sep: string): (r: Option<string>)
    requires sep != ""
    ensures r.Some? <==> Contains(s, sep)
    ensures r.Some? ==> !Contains(r.value, sep)
  {
    match After(s, sep)
    case None => None
    case Some(rest) => Some(Before(rest, sep))
  }

  /** Every piece that `split` hands out is a contiguous piece of the input. */
  lemma SecondPieceIsSlice(s: string, sep: string)
    requires sep != "" && Contains(s, sep)
    ensures IsSlice(Before(s, sep), s)
    ensures IsSlice(After(s, sep).value, s)
    ensures IsSlice(SecondPiece(s, sep).value, s)
  {
    var rest := After(s, sep).value;
    assert Before(s, sep) == s[0..|Before(s, sep)|];
    var i := |Before(s, sep)| + |sep|;
    assert rest == s[i..|s|];
    var b := Before(rest, sep);
    assert b == rest[0..|b|];
    assert IsSlice(b, rest);
    IsSliceTransitive(b, rest, s);
  }

  /** A character absent from a string is absent from every piece of it. */
  lemma NotInSlice(v: string, t: string, c: char)
    requires IsSlice(v, t) && c !in t
    ensures c !in v
  {
    var lo: nat, hi: nat :| lo <= hi <= |t| && v == t[lo..hi];
    assert forall k :: 0 <= k < |v| ==> v[k] == t[lo + k];
  }

  // ---------------------------------------------------------------------------
  // strip / trim

  /** The characters that both Python's `str.strip()` and JavaScript's `trim()` remove, among ASCII. */
  const Whitespace: set<char> := {' ', '\t', '\n', '\r', '\U{000B}', '\U{000C}'}

  function StripLeft(s: string, cs: set<char>): (r: string)
    ensures |r| <= |s| && r == s[|s| - |r|..]
    ensures forall i :: 0 <= i < |s| - |r| ==> s[i] in cs
    ensures r != [] ==> r[0] !in cs
  {
    if |s| > 0 && s[0] in cs then StripLeft(s[1..], cs) else s
  }

  function StripRight(s: string, cs: set<char>): (r: string)
    ensures |r| <= |s| && r == s[..|r|]
    ensures forall i :: |r| <= i < |s| ==> s[i] in cs
    ensures r != [] ==> r[|r| - 1] !in cs
  {
    if |s| > 0 && s[|s| - 1] in cs then StripRight(s[..|s| - 1], cs) else s
  }

  /** Python's `s.strip(chars)`: drop leading and trailing characters of `cs`. */
  function StripSet(s: string, cs: set<char>): (r: string)
    ensures r != [] ==> r[0] !in cs && r[|r| - 1] !in cs
  {
    StripRight(StripLeft(s, cs), cs)
  }

  /** `v` is a contiguous piece of `t`. */
  ghost predicate IsSlice(v: string, t: string) {
    exists lo: nat, hi: nat :: lo <= hi <= |t| && v == t[lo..hi]
  }

  /** A piece of a piece is a piece. */
  lemma IsSliceTransitive(w: string, v: string, t: string)
    requires IsSlice(w, v) && IsSlice(v, t)
    ensures IsSlice(w, t)
  {
    var lo: nat, hi: nat :| lo <= hi <= |t| && v == t[lo..hi];
    var lo': nat, hi': nat :| lo' <= hi' <= |v| && w == v[lo'..hi'];
    assert forall k :: 0 <= k < |w| ==> w[k] == t[lo + lo' + k];
    assert w == t[lo + lo'..lo + hi'];
  }

  /** The result of stripping is a contiguous piece of the input. */
  lemma StripSetIsSlice(s: string, cs: set<char>)
    ensures IsSlice(StripSet(s, cs), s)
  {
    var l := StripLeft(s, cs);
    var r := StripRight(l, cs);
    var lo := |s| - |l|;
    assert r == s[lo..lo + |r|];
  }

  /** Python's `s.strip()` / JavaScript's `s.trim()`. */
  function Strip(s: string): (r: string)
    ensures r != [] ==> r[0] !in Whitespace && r[|r| - 1] !in Whitespace
  {
    StripSet(s, Whitespace)
  }

  /** A character absent from a string is absent from its stripped form. */
  lemma StripKeepsAbsent(s: string, c: char)
    requires c !in s
    ensures c !in Strip(s)
  {
    StripSetIsSlice(s, Whitespace);
    NotInSlice(Strip(s), s, c);
  }

  // ---------------------------------------------------------------------------
  // lower

  predicate IsUpperChar(c: char) {
    'A' <= c <= 'Z'
  }

  function LowerChar(c: char): (r: char)
    ensures !IsUpperChar(r)
    ensures !IsUpperChar(c) ==> r == c
  {
    if IsUpperChar(c) then (c as int + 32) as char else c
  }

  /** Python's `s.lower()` on ASCII letters. */
  function Lower(s: string): (r: string)
    ensures |r| == |s|
    ensures forall i :: 0 <= i < |s| ==> r[i] == LowerChar(s[i])
  {
    seq(|s|, i requires 0 <= i < |s| => LowerChar(s[i]))
  }

  predicate HasNoUpper(s: string) {
    forall i :: 0 <= i < |s| ==> !IsUpperChar(s[i])
  }

  /** Lowering leaves no upper-case letter, so no pattern with one can be found in it. */
  lemma LowerHasNoUpper(s: string)
    ensures HasNoUpper(Lower(s))
  {
  }

  /** Lowering a text without upper-case letters changes nothing. */
  lemma LowerOfNoUpper(s: string)
    requires HasNoUpper(s)
    ensures Lower(s) == s
  {
  }

  lemma NoUpperSlice(s: string, lo: nat, hi: nat)
    requires HasNoUpper(s) && lo <= hi <= |s|
    ensures HasNoUpper(s[lo..hi])
  {
  }

  /** A text with an upper-case letter never occurs in a text without one. */
  lemma NoUpperExcludes(s: string, pat: string, k: nat)
    requires HasNoUpper(s) && k < |pat| && IsUpperChar(pat[k])
    ensures !Contains(s, pat)
  {
    forall i: nat | i <= |s| ensures !OccursAt(s, pat, i) {
      if i + |pat| <= |s| {
        assert s[i..i + |pat|][k] == s[i + k];
      }
    }
  }

  // ---------------------------------------------------------------------------
  // split on one character, and join

  /** Python's `s.split(c)` / JavaScript's `s.split(c)` for a one-character separator. */
  function SplitOn(s: string, c: char): (r: seq<string>)
    ensures |r| >= 1
    decreases |s|
  {
    if |s| == 0 then [""]
    else
      var rest := SplitOn(s[1..], c);
      if s[0] == c then [""] + rest else [[s[0]] + rest[0]] + rest[1..]
  }

  /** `sep.join(xs)` / `xs.join(sep)`. */
  function Join(xs: seq<string>, sep: string): string
  {
    if |xs| == 0 then ""
    else if |xs| == 1 then xs[0]
    else xs[0] + sep + Join(xs[1..], sep)
  }

  lemma {:induction false} JoinAppend(xs: seq<string>, y: string, sep: string)
    requires |xs| > 0
    ensures Join(xs + [y], sep) == Join(xs, sep) + sep + y
  {
    if |xs| == 1 {
      assert xs + [y] == [xs[0], y];
    } else {
      assert (xs + [y])[1..] == xs[1..] + [y];
      JoinAppend(xs[1..], y, sep);
    }
  }

  /** Every element of a joined list is a substring of the result. */
  lemma {:induction false} JoinContainsElement(xs: seq<string>, sep: string, i: nat)
    requires i < |xs|
    ensures Contains(Join(xs, sep), xs[i])
    decreases |xs|
  {
    if |xs| == 1 {
      ContainsInfix("", xs[0], "");
      assert "" + xs[0] + "" == xs[0];
    } else if i == 0 {
      ContainsInfix("", xs[0], sep + Join(xs[1..], sep));
      assert "" + xs[0] + (sep + Join(xs[1..], sep)) == Join(xs, sep);
    } else {
      JoinContainsElement(xs[1..], sep, i - 1);
      assert xs[1..][i - 1] == xs[i];
      ContainsAfter(xs[0] + sep, Join(xs[1..], sep), xs[i]);
    }
  }

  /** No piece of `s.split(c)` holds the separator. */
  lemma {:induction false} SplitOnPiecesLackSeparator(s: string, c: char)
    ensures forall i :: 0 <= i < |SplitOn(s, c)| ==> c !in SplitOn(s, c)[i]
    decreases |s|
  {
    if |s| > 0 {
      SplitOnPiecesLackSeparator(s[1..], c);
    }
  }

  /** A text without the separator is one piece. */
  lemma {:induction false} SplitOnNoSeparator(s: string, c: char)
    requires c !in s
    ensures SplitOn(s, c) == [s]
    decreases |s|
  {
    if |s| > 0 {
      SplitOnNoSeparator(s[1..], c);
      assert [s[0]] + s[1..] == s;
    }
  }

  /** Splitting `a + c + b` where `a` holds no `c` peels `a` off. */
  lemma {:induction false} SplitOnFirst(a: string, c: char, b: string)
    requires c !in a
    ensures SplitOn(a + [c] + b, c) == [a] + SplitOn(b, c)
    decreases |a|
  {
    var s := a + [c] + b;
    if |a| == 0 {
      assert s[0] == c && s[1..] == b;
    } else {
      assert s[0] == a[0] && s[1..] == a[1..] + [c] + b;
      SplitOnFirst(a[1..], c, b);
      assert [a[0]] + a[1..] == a;
    }
  }

  /** Splitting a joined list of separator-free pieces gives the pieces back. */
  lemma {:induction false} SplitJoinRoundTrip(xs: seq<string>, c: char)
    requires |xs| > 0
    requires forall i :: 0 <= i < |xs| ==> c !in xs[i]
    ensures SplitOn(Join(xs, [c]), c) == xs
    decreases |xs|
  {
    if |xs| == 1 {
      SplitOnNoSeparator(xs[0], c);
    } else {
      SplitJoinRoundTrip(xs[1..], c);
      SplitOnFirst(xs[0], c, Join(xs[1..], [c]));
      assert [xs[0]] + xs[1..] == xs;
    }
  }

  // ---------------------------------------------------------------------------
  // Decimal rendering

  function DigitChar(d: nat): (r: char)
    requires d < 10
    ensures '0' <= r <= '9'
  {
    "0123456789"[d]
  }

  lemma DigitCharInjective(a: nat, b: nat)
    requires a < 10 && b < 10 && DigitChar(a) == DigitChar(b)
    ensures a == b
  {
  }

  /** Python's `str(n)` / `f"{n}"` for a natural number. */
  function NatToString(n: nat): (r: string)
    ensures |r| >= 1
    ensures forall i :: 0 <= i < |r| ==> '0' <= r[i] <= '9'
    decreases n
  {
    if n < 10 then [DigitChar(n)] else NatToString(n / 10) + [DigitChar(n % 10)]
  }

  /** Python's `str(n)` for any integer. */
  function IntToString(n: int): string
  {
    if n < 0 then "-" + NatToString(-n) else NatToString(n)
  }

  lemma NatToStringLength(n: nat)
    ensures n < 10 <==> |NatToString(n)| == 1
  {
    if n >= 10 {
      assert |NatToString(n)| == |NatToString(n / 10)| + 1;
    }
  }

  /** Distinct numbers render differently. */
  lemma {:induction false} NatToStringInjective(a: nat, b: nat)
    requires NatToString(a) == NatToString(b)
    ensures a == b
    decreases a
  {
    var s := NatToString(a);
    if a < 10 || b < 10 {
      NatToStringLength(a);
      NatToStringLength(b);
      DigitCharInjective(a, b);
    } else {
      var sa := NatToString(a / 10);
      var sb := NatToString(b / 10);
      assert s == sa + [DigitChar(a % 10)] == sb + [DigitChar(b % 10)];
      assert s[|s| - 1] == DigitChar(a % 10) == DigitChar(b % 10);
      DigitCharInjective(a % 10, b % 10);
      assert sa == s[..|s| - 1] == sb;
      NatToStringInjective(a / 10, b / 10);
    }
  }

  // ---------------------------------------------------------------------------
  // replace

  /** Python's `s.replace(pat, repl)`: every non-overlapping occurrence, left to right. */
  function ReplaceAll(s: string, pat: string, repl: string): string
    requires pat != ""
    decreases |s|
  {
    if |s| == 0 then ""
    else if StartsWith(s, pat) then repl + ReplaceAll(s[|pat|..], pat, repl)
    else [s[0]] + ReplaceAll(s[1..], pat, repl)
  }

  /** Replacing in `a + b`, where no occurrence starts inside `a`, leaves `a` alone. */
  lemma {:induction false} ReplaceAllSkipsPrefix(a: string, b: string, pat: string, repl: string)
    requires pat != ""
    requires forall i: nat :: i < |a| ==> !OccursAt(a + b, pat, i)
    ensures ReplaceAll(a + b, pat, repl) == a + ReplaceAll(b, pat, repl)
    decreases |a|
  {
    if a != [] {
      var s := a + b;
      NoOccurrenceInTail(a, b, pat);
      ReplaceAllSkipsPrefix(a[1..], b, pat, repl);
      assert s[1..] == a[1..] + b;
      assert ReplaceAll(s, pat, repl) == [s[0]] + ReplaceAll(s[1..], pat, repl);
      assert s[0] == a[0] && a == [a[0]] + a[1..];
      assert [a[0]] + (a[1..] + ReplaceAll(b, pat, repl)) == a + ReplaceAll(b, pat, repl);
    } else {
      assert a + b == b;
    }
  }

  /** No occurrence starting in `a` means none at its head and none in the rest of `a`. */
  lemma NoOccurrenceInTail(a: string, b: string, pat: string)
    requires a != [] && pat != ""
    requires forall i: nat :: i < |a| ==> !OccursAt(a + b, pat, i)
    ensures !StartsWith(a + b, pat)
    ensures forall i: nat :: i < |a[1..]| ==> !OccursAt(a[1..] + b, pat, i)
  {
    var s := a + b;
    assert !OccursAt(s, pat, 0);
    if |pat| <= |s| {
      assert s[..|pat|] == s[0..|pat|];
    }
    var t := a[1..] + b;
    assert t == s[1..];
    forall i: nat | i < |a[1..]| ensures !OccursAt(t, pat, i) {
      assert !OccursAt(s, pat, i + 1);
      if i + |pat| <= |t| {
        assert t[i..i + |pat|] == s[i + 1..i + 1 + |pat|];
      }
    }
  }

  // ---------------------------------------------------------------------------
  // Concatenating the lines produced per item

  /** The lines `f` produces for each item, in order. */
  function ConcatMap<T>(xs: seq<T>, f: T -> seq<string>): seq<string>
  {
    if xs == [] then [] else ConcatMap(xs[..|xs| - 1], f) + f(xs[|xs| - 1])
  }

  /** The lines of item k sit right after the lines of the items before it. */
  lemma {:induction false} ConcatMapAt<T>(xs: seq<T>, k: nat, f: T -> seq<string>)
    requires k < |xs|
    ensures ConcatMap(xs, f) == ConcatMap(xs[..k], f) + f(xs[k]) + ConcatMap(xs[k + 1..], f)
    decreases |xs|
  {
    var n := |xs| - 1;
    var init := xs[..n];
    assert ConcatMap(xs, f) == ConcatMap(init, f) + f(xs[n]);
    if k == n {
      assert xs[k + 1..] == [];
    } else {
      ConcatMapAt(init, k, f);
      assert init[..k] == xs[..k] && init[k] == xs[k];
      var post := xs[k + 1..];
      assert post[..|post| - 1] == init[k + 1..] && post[|post| - 1] == xs[n];
      assert ConcatMap(post, f) == ConcatMap(init[k + 1..], f) + f(xs[n]);
    }
  }
}
