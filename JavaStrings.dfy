/** The parts of `java.lang.String` (and `java.util.StringTokenizer`) whose
  * exact behaviour the lookup core depends on. A Java `String` reference that
  * may be null is a `JString`. Case folding is ASCII only. */
module JavaStrings {
  import opened Wrappers

  /** A Java String reference: `None` is null. */
  type JString = Option<string>

  function ToLowerAscii(c: char): char
  {
    if 'A' <= c <= 'Z' then (c as int + 32) as char else c
  }

  /** `String.equalsIgnoreCase` on non-null operands, with ASCII folding. */
  predicate EqualsIgnoreCase(a: string, b: string)
  {
    |a| == |b| && forall i :: 0 <= i < |a| ==> ToLowerAscii(a[i]) == ToLowerAscii(b[i])
  }

  /** `a.equalsIgnoreCase(b)` where the argument may be null (false then). */
  predicate EqualsIgnoreCaseJ(a: string, b: JString)
  {
    b.Some? && EqualsIgnoreCase(a, b.value)
  }

  lemma EqualsIgnoreCaseIsEquivalence(a: string, b: string, c: string)
    ensures EqualsIgnoreCase(a, a)
    ensures EqualsIgnoreCase(a, b) ==> EqualsIgnoreCase(b, a)
    ensures EqualsIgnoreCase(a, b) && EqualsIgnoreCase(b, c) ==> EqualsIgnoreCase(a, c)
  {
  }

  /** `s.startsWith(p)`. */
  predicate StartsWith(s: string, p: string)
  {
    |p| <= |s| && s[..|p|] == p
  }

  /** Java string concatenation renders a null reference as "null". */
  function ConcatText(s: JString): string
  {
    if s.Some? then s.value else "null"
  }

  /** `String.trim`: strips every leading and trailing character <= U+0020. */
  function Trim(s: string): (r: string)
    ensures |r| <= |s|
    ensures r != [] ==> r[0] > ' ' && r[|r| - 1] > ' '
    ensures (s != [] && s[0] > ' ' && s[|s| - 1] > ' ') ==> r == s
    ensures (forall i :: 0 <= i < |s| ==> s[i] <= ' ') ==> r == []
  {
    TrimEnd(TrimStart(s))
  }

  function TrimStart(s: string): (r: string)
    ensures |r| <= |s| && r == s[|s| - |r|..]
    ensures r != [] ==> r[0] > ' '
    ensures forall i :: 0 <= i < |s| - |r| ==> s[i] <= ' '
  {
    if s == [] || s[0] > ' ' then s else TrimStart(s[1..])
  }

  function TrimEnd(s: string): (r: string)
    ensures |r| <= |s| && r == s[..|r|]
    ensures r != [] ==> r[|r| - 1] > ' '
    ensures forall i :: |r| <= i < |s| ==> s[i] <= ' '
  {
    if s == [] || s[|s| - 1] > ' ' then s else TrimEnd(s[..|s| - 1])
  }

  lemma TrimIdempotent(s: string)
    ensures Trim(Trim(s)) == Trim(s)
  {
    TrimmedKept(Trim(s));
  }

  /** Text with no blank at either end is its own trim. */
  lemma TrimmedKept(t: string)
    requires t != [] ==> t[0] > ' ' && t[|t| - 1] > ' '
    ensures Trim(t) == t
  {
    if t == [] {
      assert TrimStart(t) == t;
    }
  }

  /** `s.lastIndexOf(c)`: the last position of `c`, or -1. */
  function LastIndexOf(s: string, c: char): (r: int)
    ensures -1 <= r < |s|
    ensures r == -1 <==> c !in s
    ensures r >= 0 ==> s[r] == c && c !in s[r + 1..]
  {
    if s == [] then -1
    else if s[|s| - 1] == c then |s| - 1
    else
      var r := LastIndexOf(s[..|s| - 1], c);
      assert s[r + 1..] == s[..|s| - 1][r + 1..] + [s[|s| - 1]];
      r
  }

  /** `s.indexOf(c)`: the first position of `c`, or -1. */
  function IndexOf(s: string, c: char): (r: int)
    ensures -1 <= r < |s|
    ensures r == -1 <==> c !in s
    ensures r >= 0 ==> s[r] == c && c !in s[..r]
  {
    if s == [] then -1
    else if s[0] == c then 0
    else
      var r := IndexOf(s[1..], c);
      if r == -1 then -1
      else
        assert s[..r + 1] == [s[0]] + s[1..][..r];
        r + 1
  }

  /** Does `t` occur in `s` at position `i`? */
  predicate OccursAt(s: string, t: string, i: int)
  {
    0 <= i && i + |t| <= |s| && s[i..i + |t|] == t
  }

  /** `s.replace(t, u)`: replaces every non-overlapping occurrence of the
    * non-empty `t`, scanning left to right. */
  function Replace(s: string, t: string, u: string): string
    requires t != []
  {
    if |s| < |t| then s
    else if s[..|t|] == t then u + Replace(s[|t|..], t, u)
    else [s[0]] + Replace(s[1..], t, u)
  }

  /** Where `t` does not occur, `replace` leaves the text unchanged. */
  lemma {:induction false} ReplaceAbsent(s: string, t: string, u: string)
    requires t != []
    requires forall i :: !OccursAt(s, t, i)
    ensures Replace(s, t, u) == s
  {
    if |s| >= |t| {
      assert !OccursAt(s, t, 0);
      forall i ensures !OccursAt(s[1..], t, i) {
        if OccursAt(s[1..], t, i) {
          assert s[1..][i..i + |t|] == s[i + 1..i + 1 + |t|];
          assert OccursAt(s, t, i + 1);
        }
      }
      ReplaceAbsent(s[1..], t, u);
    }
  }

  /** A template whose text before the placeholder cannot start an
    * occurrence of it has exactly that placeholder substituted. */
  lemma {:induction false} ReplaceSingle(pre: string, t: string, post: string, u: string)
    requires t != [] && t[0] !in pre
    requires forall i :: !OccursAt(post, t, i)
    ensures Replace(pre + t + post, t, u) == pre + u + post
  {
    var s := pre + t + post;
    if pre == [] {
      assert s[..|t|] == t;
      assert s[|t|..] == post;
      ReplaceAbsent(post, t, u);
    } else {
      assert |s| >= |t|;
      assert s[..|t|] != t by {
        assert s[..|t|][0] == pre[0] != t[0];
      }
      assert Replace(s, t, u) == [s[0]] + Replace(s[1..], t, u);
      assert s[1..] == pre[1..] + t + post;
      ReplaceSingle(pre[1..], t, post, u);
      assert pre == [pre[0]] + pre[1..];
    }
  }

  /** `java.util.StringTokenizer(s, delims)`: the maximal non-empty runs of
    * characters outside `delims`, in order (empty tokens are skipped). */
  function Tokens(s: string, delims: set<char>): (r: seq<string>)
    ensures forall k :: 0 <= k < |r| ==> r[k] != [] && forall c :: c in r[k] ==> c !in delims
  {
    var n := RunLength(s, delims);
    if s == [] then []
    else if n == 0 then Tokens(s[1..], delims)
    else [s[..n]] + Tokens(s[n..], delims)
  }

  /** Length of the longest prefix of `s` without a delimiter. */
  function RunLength(s: string, delims: set<char>): (n: nat)
    ensures n <= |s|
    ensures forall c :: c in s[..n] ==> c !in delims
    ensures n < |s| ==> s[n] in delims
  {
    if s == [] || s[0] in delims then 0
    else
      var n := 1 + RunLength(s[1..], delims);
      assert s[..n] == [s[0]] + s[1..][..n - 1];
      n
  }

  lemma {:induction false} TokensOfJoin(a: string, b: string, d: char)
    requires a != [] && b != []
    requires d !in a && d !in b
    ensures Tokens(a + [d] + b, {d}) == [a, b]
  {
    var s := a + [d] + b;
    RunLengthOfPlain(a, [d] + b, {d});
    assert s == a + ([d] + b);
    assert s[..|a|] == a;
    assert s[|a|..] == [d] + b;
    assert RunLength([d] + b, {d}) == 0;
    assert ([d] + b)[1..] == b;
    assert Tokens([d] + b, {d}) == Tokens(b, {d});
    RunLengthOfPlain(b, [], {d});
    assert b + [] == b;
    assert b[..|b|] == b && b[|b|..] == [];
    assert Tokens(b, {d}) == [b] + Tokens([], {d});
    assert Tokens(s, {d}) == [a] + Tokens([d] + b, {d});
  }

  /** A delimiter-free prefix followed by a delimiter (or the end) is one run. */
  lemma {:induction false} RunLengthOfPlain(a: string, rest: string, delims: set<char>)
    requires forall c :: c in a ==> c !in delims
    requires rest == [] || rest[0] in delims
    ensures RunLength(a + rest, delims) == |a|
  {
    if a != [] {
      assert (a + rest)[1..] == a[1..] + rest;
      RunLengthOfPlain(a[1..], rest, delims);
    }
  }

  /** Leading delimiters produce no token. */
  lemma {:induction false} TokensSkipDelims(ds: string, s: string, delims: set<char>)
    requires forall c :: c in ds ==> c in delims
    ensures Tokens(ds + s, delims) == Tokens(s, delims)
  {
    if ds == [] {
      assert ds + s == s;
    } else {
      assert ds[0] in ds && (ds + s)[0] == ds[0];
      assert (ds + s)[1..] == ds[1..] + s;
      assert RunLength(ds + s, delims) == 0;
      assert Tokens(ds + s, delims) == Tokens(ds[1..] + s, delims);
      TokensSkipDelims(ds[1..], s, delims);
    }
  }

  /** A non-empty delimiter-free run followed by a delimiter (or the end) is
    * the first token. */
  lemma TokensOfPlain(a: string, rest: string, delims: set<char>)
    requires a != [] && forall c :: c in a ==> c !in delims
    requires rest == [] || rest[0] in delims
    ensures Tokens(a + rest, delims) == [a] + Tokens(rest, delims)
  {
    RunLengthOfPlain(a, rest, delims);
    assert (a + rest)[..|a|] == a && (a + rest)[|a|..] == rest;
  }

  /** A string holding a character outside the delimiters has a token. */
  lemma {:induction false} TokensNonEmpty(s: string, delims: set<char>, k: nat)
    requires k < |s| && s[k] !in delims
    ensures Tokens(s, delims) != []
  {
    if RunLength(s, delims) == 0 {
      assert s[0] in delims;
      TokensNonEmpty(s[1..], delims, k - 1);
    }
  }
}
