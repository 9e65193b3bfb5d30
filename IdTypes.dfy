/** An identifier in some scheme: `IdType(scheme, id)`. Equality of the
  * datatype is the source's `equals`: the same id text and the same scheme
  * object (or both schemes null). */
module IdTypes {
  import opened Wrappers
  import opened JavaStrings
  import opened SchemeRegistry

  datatype IdType = IdType(scheme: Option<Scheme>, id: string)

  /** The characters that `.` does not match and before which `$` may match:
    * Java's line terminators. */
  predicate IsLineTerminator(c: char)
  {
    c == '\n' || c == '\r' || c == '\U{85}' || c == '\U{2028}' || c == '\U{2029}'
  }

  /** Length of the longest prefix of `s` without a line terminator. */
  function LineLength(s: string): (n: nat)
    ensures n <= |s|
    ensures forall i :: 0 <= i < n ==> !IsLineTerminator(s[i])
    ensures n < |s| ==> IsLineTerminator(s[n])
  {
    if s == [] || IsLineTerminator(s[0]) then 0 else 1 + LineLength(s[1..])
  }

  /** Whether `$` (without MULTILINE) matches at position `p` of `s`, when
    * `s[..p]` has no line terminator: at the end, before one final
    * terminator, or before a final "\r\n". */
  predicate DollarMatchesAt(s: string, p: nat)
    requires p <= |s|
  {
    p == |s| || p == |s| - 1 || (p == |s| - 2 && s[p] == '\r' && s[p + 1] == '\n')
  }

  /** `IdType.parse`: `^([^:]+):(.*)$` with `find`. The scheme token is the
    * text before the first colon and must be non-empty; the value is the rest
    * up to the first line terminator, which may only be followed by the end
    * of input (after at most one terminator or one "\r\n"). An unknown scheme
    * token gives a null scheme, not a null result. */
  function Parse(schemes: seq<Scheme>, s: string): (r: Option<IdType>)
    ensures r.Some? ==> exists k :: 0 < k < |s| && s[k] == ':' && ':' !in s[..k]
                          && r.value.scheme == FindScheme(schemes, s[..k])
                          && StartsWith(s[k + 1..], r.value.id)
    ensures r.Some? ==> forall c :: c in r.value.id ==> !IsLineTerminator(c)
    ensures (':' !in s || (s != [] && s[0] == ':')) ==> r.None?
  {
    var k := IndexOf(s, ':');
    if k <= 0 then None
    else
      var rest := s[k + 1..];
      var p := LineLength(rest);
      if DollarMatchesAt(rest, p) then Some(IdType(FindScheme(schemes, s[..k]), rest[..p]))
      else None
  }

  /** `IdType.toString`: "<scheme id>:<id>", or null without a scheme. */
  function ToString(t: IdType): (r: JString)
    ensures r.Some? <==> t.scheme.Some?
  {
    if t.scheme.Some? then Some(t.scheme.value.id + ":" + t.id) else None
  }

  /** "<token>:<value>" with a non-empty colon-free token and a value free
    * of line terminators parses to that value and the scheme registered
    * under the token; the value may contain further colons. */
  lemma ParseJoin(schemes: seq<Scheme>, token: string, value: string)
    requires token != [] && ':' !in token
    requires forall c :: c in value ==> !IsLineTerminator(c)
    ensures Parse(schemes, token + ":" + value) == Some(IdType(FindScheme(schemes, token), value))
  {
    var s := token + ":" + value;
    IndexOfAfterPlain(token, ':', value);
    assert s[..|token|] == token;
    assert s[|token| + 1..] == value;
    LineLengthOfPlain(value);
    assert value[..|value|] == value;
  }

  /** A line terminator followed by two or more further characters in the
    * value makes the match fail. */
  lemma ParseRejectsInnerLineBreak(schemes: seq<Scheme>, token: string, v1: string, t: char, v2: string)
    requires token != [] && ':' !in token
    requires forall c :: c in v1 ==> !IsLineTerminator(c)
    requires IsLineTerminator(t) && |v2| >= 2
    ensures Parse(schemes, token + ":" + (v1 + [t] + v2)) == None
  {
    var value := v1 + [t] + v2;
    var s := token + ":" + value;
    IndexOfAfterPlain(token, ':', value);
    assert s[|token| + 1..] == value;
    LineLengthOfPlain(v1);
    LineLengthStops(v1, t, v2);
  }

  lemma {:induction false} LineLengthStops(a: string, t: char, b: string)
    requires forall c :: c in a ==> !IsLineTerminator(c)
    requires IsLineTerminator(t)
    ensures LineLength(a + [t] + b) == |a|
  {
    if a != [] {
      assert (a + [t] + b)[1..] == a[1..] + [t] + b;
      LineLengthStops(a[1..], t, b);
    }
  }

  /** Parsing the printed form gives back the value, with the scheme resolved
    * again from its canonical id, when that id is a non-empty colon-free token
    * and the value has no line terminator. */
  lemma ParseToString(schemes: seq<Scheme>, t: IdType)
    requires t.scheme.Some? && t.scheme.value.id != [] && ':' !in t.scheme.value.id
    requires forall c :: c in t.id ==> !IsLineTerminator(c)
    ensures Parse(schemes, ToString(t).value) == Some(IdType(FindScheme(schemes, t.scheme.value.id), t.id))
  {
    ParseJoin(schemes, t.scheme.value.id, t.id);
  }

  lemma {:induction false} IndexOfAfterPlain(a: string, c: char, b: string)
    requires c !in a
    ensures IndexOf(a + [c] + b, c) == |a|
  {
    var s := a + [c] + b;
    if a != [] {
      assert s[1..] == a[1..] + [c] + b;
      IndexOfAfterPlain(a[1..], c, b);
    }
  }

  lemma {:induction false} LineLengthOfPlain(s: string)
    requires forall c :: c in s ==> !IsLineTerminator(c)
    ensures LineLength(s) == |s|
  {
    if s != [] {
      LineLengthOfPlain(s[1..]);
    }
  }

  /** `IdType.equals`, branch by branch: field-wise equality, a null field
    * matching only a null one. */
  predicate Equals(a: IdType, b: IdType)
    ensures Equals(a, b) <==> a == b
  {
    a.id == b.id &&
    (if a.scheme.None? then b.scheme.None? else b.scheme.Some? && a.scheme.value == b.scheme.value)
  }

  /** Java's `int` arithmetic: wrap into [-2^31, 2^31). */
  function WrapInt(x: int): (r: int)
    ensures -0x8000_0000 <= r < 0x8000_0000
    ensures (r - x) % 0x1_0000_0000 == 0
  {
    (x + 0x8000_0000) % 0x1_0000_0000 - 0x8000_0000
  }

  /** The UTF-16 code units of one character: itself below U+10000, a
    * surrogate pair above. */
  function Utf16(c: char): (r: seq<int>)
    ensures 1 <= |r| <= 2 && forall k :: 0 <= k < |r| ==> 0 <= r[k] < 0x1_0000
    ensures |r| == 1 <==> c as int < 0x1_0000
    ensures |r| == 2 ==> (0xD800 <= r[0] < 0xDC00 <= r[1] < 0xE000 &&
      (r[0] - 0xD800) * 0x400 + (r[1] - 0xDC00) + 0x1_0000 == c as int)
  {
    if c as int < 0x1_0000 then [c as int]
    else
      var v := c as int - 0x1_0000;
      [0xD800 + v / 0x400, 0xDC00 + v % 0x400]
  }

  /** A Java string's UTF-16 code units. */
  function Utf16Units(s: string): (r: seq<int>)
    ensures |s| <= |r| <= 2 * |s|
    ensures (forall k :: 0 <= k < |s| ==> s[k] as int < 0x1_0000) ==> |r| == |s|
  {
    if s == [] then [] else Utf16Units(s[..|s| - 1]) + Utf16(s[|s| - 1])
  }

  /** `31 * h + unit` over the code units, in `int` arithmetic. */
  function UnitsHash(u: seq<int>): (r: int)
    ensures -0x8000_0000 <= r < 0x8000_0000
  {
    if u == [] then 0 else WrapInt(31 * UnitsHash(u[..|u| - 1]) + u[|u| - 1])
  }

  /** `String.hashCode`: hashes the UTF-16 code units, so a character beyond
    * U+FFFF contributes its two surrogates. */
  function StringHash(s: string): int
  {
    UnitsHash(Utf16Units(s))
  }

  /** `IdType.hashCode`; the scheme's identity hash is a parameter. */
  function HashCode(t: IdType, schemeHash: Scheme -> int): (r: int)
    ensures -0x8000_0000 <= r < 0x8000_0000
    ensures (r - 31 * 31 - 31 * StringHash(t.id) - (if t.scheme.None? then 0 else schemeHash(t.scheme.value))) % 0x1_0000_0000 == 0
  {
    var h := WrapInt(31 * 1 + StringHash(t.id));
    var s := if t.scheme.None? then 0 else schemeHash(t.scheme.value);
    var r := WrapInt(31 * h + s);
    WrapsCombine(r - 31 * h - s, h - 31 - StringHash(t.id));
    r
  }

  /** Two wrap-around errors, the first one multiplied by 31, add up to a
    * multiple of 2^32. */
  lemma WrapsCombine(a: int, b: int)
    requires a % 0x1_0000_0000 == 0 && b % 0x1_0000_0000 == 0
    ensures (a + 31 * b) % 0x1_0000_0000 == 0
  {
    var qa := a / 0x1_0000_0000;
    var qb := b / 0x1_0000_0000;
    assert a + 31 * b == 0x1_0000_0000 * (qa + 31 * qb);
  }
}

/** `IdTypeFieldAdapter`: the index key format of an identifier. */
module IdTypeFieldAdapter {
  import opened Wrappers
  import opened JavaStrings
  import opened SchemeRegistry
  import opened IdTypes

  /** `marshal`: null stays null, otherwise "<scheme id>:<id>"; the scheme is
    * dereferenced, so a present value needs a scheme. */
  function Marshal(v: Option<IdType>): (r: JString)
    requires v.Some? ==> v.value.scheme.Some?
    ensures r.None? <==> v.None?
    ensures v.Some? ==> r == ToString(v.value)
  {
    if v.None? then None else Some(v.value.scheme.value.id + ":" + v.value.id)
  }

  /** `unmarshal`: exactly two tokens of a tokenizer on ':' (empty tokens are
    * skipped); anything else gives null. */
  function Unmarshal(schemes: seq<Scheme>, v: string): (r: Option<IdType>)
    ensures r.Some? <==> |Tokens(v, {':'})| == 2
    ensures r.Some? ==> r.value.id != [] && ':' !in r.value.id
    ensures r.Some? ==> r.value.scheme == FindScheme(schemes, Tokens(v, {':'})[0])
  {
    var t := Tokens(v, {':'});
    if |t| == 2 then Some(IdType(FindScheme(schemes, t[0]), t[1])) else None
  }

  /** Round trip through the index: a key whose scheme id and value are
    * non-empty and colon-free, and whose scheme is what the registry returns
    * for its own id, reads back as the same identifier. */
  lemma UnmarshalMarshal(schemes: seq<Scheme>, t: IdType)
    requires t.scheme.Some? && t.scheme.value.id != [] && ':' !in t.scheme.value.id
    requires t.id != [] && ':' !in t.id
    requires FindScheme(schemes, t.scheme.value.id) == t.scheme
    ensures Unmarshal(schemes, Marshal(Some(t)).value) == Some(t)
  {
    TokensOfJoin(t.scheme.value.id, t.id, ':');
  }

  /** Colons around and between two colon-free values are skipped: a run of
    * one or more colons between them (and any before or after) still reads
    * as the first value's scheme and the second value. */
  lemma UnmarshalSkipsEmptyTokens(schemes: seq<Scheme>, pre: string, a: string, mid: string, b: string, post: string)
    requires a != [] && b != [] && ':' !in a && ':' !in b
    requires mid != [] && forall c :: c in pre + mid + post ==> c == ':'
    ensures Unmarshal(schemes, pre + a + mid + b + post) == Some(IdType(FindScheme(schemes, a), b))
  {
    assert forall c :: c in pre ==> c in pre + mid + post;
    assert forall c :: c in mid ==> c in pre + mid + post;
    assert forall c :: c in post ==> c in pre + mid + post;
    var s := pre + a + mid + b + post;
    assert s == pre + (a + (mid + (b + post)));
    TokensSkipDelims(pre, a + (mid + (b + post)), {':'});
    assert mid[0] in mid && (mid + (b + post))[0] == mid[0];
    TokensOfPlain(a, mid + (b + post), {':'});
    TokensSkipDelims(mid, b + post, {':'});
    if post != [] {
      assert post[0] in post;
    }
    TokensOfPlain(b, post, {':'});
    TokensSkipDelims(post, [], {':'});
    assert post + [] == post;
  }

  /** Three or more tokens give null: two colon-separated values followed by
    * a colon and anything that is not all colons. */
  lemma UnmarshalRejectsThreeTokens(schemes: seq<Scheme>, a: string, b: string, c: string, k: nat)
    requires a != [] && b != [] && ':' !in a && ':' !in b
    requires k < |c| && c[k] != ':'
    ensures Unmarshal(schemes, a + ":" + b + ":" + c) == None
  {
    var s := a + ":" + b + ":" + c;
    assert s == a + (":" + (b + (":" + c)));
    TokensOfPlain(a, ":" + (b + (":" + c)), {':'});
    TokensSkipDelims(":", b + (":" + c), {':'});
    TokensOfPlain(b, ":" + c, {':'});
    TokensSkipDelims(":", c, {':'});
    TokensNonEmpty(c, {':'}, k);
  }
}
