/** The two pure parts of `ORCIDLookupService`: `encodeURIComponent`, which
  * builds the search query, and `ORCIDPerson.toPerson`, which turns a
  * fetched ORCID record into a person. The HTTP client is not part of this
  * model. */
module Orcid {
  import opened Wrappers
  import opened JavaStrings
  import opened SchemeRegistry
  import opened IdTypes
  import opened Entities
  import opened EntityIndex

  type Byte = b: int | 0 <= b < 256

  // ---- UTF-8 (RFC 3629) ----

  /** The UTF-8 bytes of one Unicode scalar value. */
  function Utf8(c: char): (r: seq<Byte>)
    ensures 1 <= |r| <= 4
    ensures |r| == 1 <==> c as int < 0x80
    ensures |r| == 1 ==> r[0] == c as int
    ensures |r| > 1 ==> forall i :: 0 <= i < |r| ==> r[i] >= 0x80
  {
    var n := c as int;
    if n < 0x80 then [n]
    else if n < 0x800 then [0xC0 + n / 64, 0x80 + n % 64]
    else if n < 0x10000 then [0xE0 + n / 4096, 0x80 + (n / 64) % 64, 0x80 + n % 64]
    else [0xF0 + n / 262144, 0x80 + (n / 4096) % 64, 0x80 + (n / 64) % 64, 0x80 + n % 64]
  }

  function Utf8Of(s: string): seq<Byte>
  {
    if s == [] then [] else Utf8(s[0]) + Utf8Of(s[1..])
  }

  predicate Continuation(b: Byte)
  {
    0x80 <= b < 0xC0
  }

  /** The six payload bits of a continuation byte. */
  function Low6(b: Byte): int
  {
    b as int - 0x80
  }

  /** A scalar value from a decoded number, rejecting surrogates, values
    * beyond U+10FFFF and numbers below `least` (overlong forms). */
  function Scalar(n: int, least: nat): Option<char>
  {
    if least <= n < 0xD800 || (0xE000 <= n < 0x110000 && least <= n) then Some(n as char) else None
  }

  /** The first character of a UTF-8 byte sequence and its length in
    * bytes. */
  function DecodeFirst(bs: seq<Byte>): (r: Option<(char, nat)>)
    requires bs != []
    ensures r.Some? ==> 1 <= r.value.1 <= |bs|
  {
    var b := bs[0] as int;
    if b < 0x80 then Some((b as char, 1))
    else if 0xC0 <= b < 0xE0 && |bs| >= 2 && Continuation(bs[1]) then
      var c := Scalar((b - 0xC0) * 64 + Low6(bs[1]), 0x80);
      if c.Some? then Some((c.value, 2)) else None
    else if 0xE0 <= b < 0xF0 && |bs| >= 3 && Continuation(bs[1]) && Continuation(bs[2]) then
      var c := Scalar((b - 0xE0) * 4096 + Low6(bs[1]) * 64 + Low6(bs[2]), 0x800);
      if c.Some? then Some((c.value, 3)) else None
    else if 0xF0 <= b < 0xF8 && |bs| >= 4 && Continuation(bs[1]) && Continuation(bs[2]) && Continuation(bs[3]) then
      var c := Scalar((b - 0xF0) * 262144 + Low6(bs[1]) * 4096 + Low6(bs[2]) * 64 + Low6(bs[3]), 0x10000);
      if c.Some? then Some((c.value, 4)) else None
    else None
  }

  /** A strict UTF-8 decoder: the reference the encoding is checked
    * against. */
  function Utf8Decode(bs: seq<Byte>): Option<string>
    decreases |bs|
  {
    if bs == [] then Some([])
    else
      var first := DecodeFirst(bs);
      if first.None? then None
      else
        var rest := Utf8Decode(bs[first.value.1..]);
        if rest.None? then None else Some([first.value.0] + rest.value)
  }

  lemma Utf8Two(c: char)
    requires 0x80 <= c as int < 0x800
    ensures var bs := Utf8(c); (bs[0] as int - 0xC0) * 64 + Low6(bs[1]) == c as int
  {
  }

  lemma Utf8Three(c: char)
    requires 0x800 <= c as int < 0x10000
    ensures var bs := Utf8(c); (bs[0] as int - 0xE0) * 4096 + Low6(bs[1]) * 64 + Low6(bs[2]) == c as int
  {
    var n := c as int;
    var q := n / 64;
    assert n == q * 64 + n % 64;
    assert q == (q / 64) * 64 + q % 64;
    assert q / 64 == n / 4096;
  }

  lemma Utf8Four(c: char)
    requires 0x10000 <= c as int
    ensures var bs := Utf8(c);
      (bs[0] as int - 0xF0) * 262144 + Low6(bs[1]) * 4096 + Low6(bs[2]) * 64 + Low6(bs[3]) == c as int
  {
    var n := c as int;
    var q := n / 64;
    var q2 := q / 64;
    assert n == q * 64 + n % 64;
    assert q == q2 * 64 + q % 64;
    assert q2 == (q2 / 64) * 64 + q2 % 64;
    assert q2 == n / 4096;
    assert q2 / 64 == n / 262144;
  }

  /** The bytes of one character, followed by anything, decode to that
    * character first. */
  lemma DecodeFirstOf(c: char, rest: seq<Byte>)
    ensures DecodeFirst(Utf8(c) + rest) == Some((c, |Utf8(c)|))
  {
    var bs := Utf8(c) + rest;
    var n := c as int;
    if n < 0x80 {
    } else if n < 0x800 {
      Utf8Two(c);
    } else if n < 0x10000 {
      Utf8Three(c);
    } else {
      Utf8Four(c);
    }
  }

  /** Decoding the UTF-8 encoding of a string gives the string back. */
  lemma {:induction false} Utf8RoundTrip(s: string)
    ensures Utf8Decode(Utf8Of(s)) == Some(s)
  {
    if s != [] {
      var rest := Utf8Of(s[1..]);
      Utf8RoundTrip(s[1..]);
      DecodeFirstOf(s[0], rest);
      var bs := Utf8(s[0]) + rest;
      assert Utf8Of(s) == bs;
      assert bs[|Utf8(s[0])|..] == rest;
      assert Utf8Decode(bs) == Some([s[0]] + s[1..]);
      assert [s[0]] + s[1..] == s;
    }
  }

  // ---- URLEncoder.encode(s, "UTF-8") ----

  const HexDigits := "0123456789ABCDEF"

  predicate IsHex(c: char)
  {
    '0' <= c <= '9' || 'A' <= c <= 'F'
  }

  /** "%XY": a byte in uppercase hexadecimal. */
  function Triplet(b: Byte): (r: string)
    ensures |r| == 3 && r[0] == '%' && IsHex(r[1]) && IsHex(r[2])
  {
    ['%', HexDigits[b / 16], HexDigits[b % 16]]
  }

  function Triplets(bs: seq<Byte>): (r: seq<string>)
    ensures |r| == |bs| && forall i :: 0 <= i < |bs| ==> r[i] == Triplet(bs[i])
  {
    if bs == [] then [] else [Triplet(bs[0])] + Triplets(bs[1..])
  }

  /** The characters `URLEncoder` leaves as they are. */
  predicate FormSafe(c: char)
  {
    'a' <= c <= 'z' || 'A' <= c <= 'Z' || '0' <= c <= '9' || c == '.' || c == '-' || c == '*' || c == '_'
  }

  /** What `URLEncoder` writes for one character: itself, "+" for a space,
    * else a triplet per UTF-8 byte. */
  function FormUnits(c: char): seq<string>
  {
    if FormSafe(c) then [[c]] else if c == ' ' then ["+"] else Triplets(Utf8(c))
  }

  function FormUnitsOf(s: string): seq<string>
  {
    if s == [] then [] else FormUnits(s[0]) + FormUnitsOf(s[1..])
  }

  function Join(us: seq<string>): string
  {
    if us == [] then [] else us[0] + Join(us[1..])
  }

  function UrlEncode(s: string): string
  {
    Join(FormUnitsOf(s))
  }

  /** The `replaceAll` chain, in order; each pattern is a literal. */
  const Rules: seq<(string, string)> := [("+", "%20"), ("%21", "!"), ("%27", "'"), ("%28", "("), ("%29", ")"), ("%7E", "~")]

  function ReplaceChain(s: string, rules: seq<(string, string)>): string
    requires forall i :: 0 <= i < |rules| ==> rules[i].0 != []
    decreases |rules|
  {
    if rules == [] then s else ReplaceChain(Replace(s, rules[0].0, rules[0].1), rules[1..])
  }

  /** `encodeURIComponent`. The `UnsupportedEncodingException` branch cannot
    * run: UTF-8 is always supported. */
  function EncodeURIComponent(s: string): string
  {
    ReplaceChain(UrlEncode(s), Rules)
  }

  // ---- the reference: encodeURIComponent of ECMA-262 5.1, section 15.1.3.4 ----

  /** uriUnreserved: letters, digits and "-_.!~*'()". */
  predicate Unescaped(c: char)
  {
    'a' <= c <= 'z' || 'A' <= c <= 'Z' || '0' <= c <= '9' ||
    c == '-' || c == '_' || c == '.' || c == '!' || c == '~' || c == '*' || c == '\'' || c == '(' || c == ')'
  }

  function EcmaUnits(c: char): seq<string>
  {
    if Unescaped(c) then [[c]] else Triplets(Utf8(c))
  }

  function EcmaUnitsOf(s: string): seq<string>
  {
    if s == [] then [] else EcmaUnits(s[0]) + EcmaUnitsOf(s[1..])
  }

  function EcmaEncode(s: string): string
  {
    Join(EcmaUnitsOf(s))
  }

  // ---- the replacement chain works unit by unit ----

  /** A unit of encoded text: one character other than '%', or a triplet. */
  predicate IsUnit(u: string)
  {
    (|u| == 1 && u[0] != '%') || (|u| == 3 && u[0] == '%' && IsHex(u[1]) && IsHex(u[2]))
  }

  /** A pattern that can only match a whole unit. */
  predicate GoodPattern(t: string)
  {
    IsUnit(t) && (|t| == 1 ==> !IsHex(t[0]))
  }

  predicate GoodRules(rules: seq<(string, string)>)
  {
    forall i :: 0 <= i < |rules| ==> GoodPattern(rules[i].0) && IsUnit(rules[i].1)
  }

  predicate AllUnits(us: seq<string>)
  {
    forall i :: 0 <= i < |us| ==> IsUnit(us[i])
  }

  /** Each unit equal to `t` replaced by `r`. */
  function Subst(us: seq<string>, t: string, r: string): (out: seq<string>)
    ensures |out| == |us|
  {
    if us == [] then [] else [if us[0] == t then r else us[0]] + Subst(us[1..], t, r)
  }

  /** Each unit equal to `t` is replaced by `r`, every other one kept. */
  lemma {:induction false} SubstAt(us: seq<string>, t: string, r: string)
    ensures forall i :: 0 <= i < |us| ==> Subst(us, t, r)[i] == if us[i] == t then r else us[i]
  {
    if us != [] {
      SubstAt(us[1..], t, r);
      forall i | 1 <= i < |us|
        ensures Subst(us, t, r)[i] == Subst(us[1..], t, r)[i - 1]
      {
      }
    }
  }

  function SubstAll(us: seq<string>, rules: seq<(string, string)>): seq<string>
    decreases |rules|
  {
    if rules == [] then us else SubstAll(Subst(us, rules[0].0, rules[0].1), rules[1..])
  }

  lemma ReplaceStep(c: char, rest: string, t: string, r: string)
    requires t != [] && c != t[0]
    ensures Replace([c] + rest, t, r) == [c] + Replace(rest, t, r)
  {
    var s := [c] + rest;
    assert s[1..] == rest;
    if |s| >= |t| {
      assert s[..|t|][0] == c;
    }
  }

  lemma ReplaceUnit(u: string, rest: string, t: string, r: string)
    requires IsUnit(u) && GoodPattern(t)
    ensures Replace(u + rest, t, r) == (if u == t then r else u) + Replace(rest, t, r)
  {
    var s := u + rest;
    if u == t {
      assert s[..|t|] == t && s[|t|..] == rest;
    } else if |u| == 1 {
      assert u == [u[0]];
      ReplaceStep(u[0], rest, t, r);
    } else {
      assert u == [u[0]] + [u[1]] + [u[2]];
      assert s == [u[0]] + ([u[1]] + ([u[2]] + rest));
      ReplaceStep(u[2], rest, t, r);
      ReplaceStep(u[1], [u[2]] + rest, t, r);
      if |t| == 1 {
        ReplaceStep(u[0], [u[1]] + ([u[2]] + rest), t, r);
      } else {
        assert s[..3] == u;
        assert s[1..] == [u[1]] + ([u[2]] + rest);
      }
    }
  }

  lemma {:induction false} ReplaceJoin(us: seq<string>, t: string, r: string)
    requires AllUnits(us) && GoodPattern(t)
    ensures Replace(Join(us), t, r) == Join(Subst(us, t, r))
  {
    if us != [] {
      ReplaceJoin(us[1..], t, r);
      ReplaceUnit(us[0], Join(us[1..]), t, r);
      assert Subst(us, t, r)[1..] == Subst(us[1..], t, r);
    }
  }

  lemma {:induction false} ReplaceChainJoin(us: seq<string>, rules: seq<(string, string)>)
    requires AllUnits(us) && GoodRules(rules)
    ensures forall i :: 0 <= i < |rules| ==> rules[i].0 != []
    ensures ReplaceChain(Join(us), rules) == Join(SubstAll(us, rules))
    decreases |rules|
  {
    if rules != [] {
      ReplaceJoin(us, rules[0].0, rules[0].1);
      var next := Subst(us, rules[0].0, rules[0].1);
      SubstAt(us, rules[0].0, rules[0].1);
      assert AllUnits(next);
      ReplaceChainJoin(next, rules[1..]);
    }
  }

  lemma {:induction false} SubstAppend(a: seq<string>, b: seq<string>, t: string, r: string)
    ensures Subst(a + b, t, r) == Subst(a, t, r) + Subst(b, t, r)
  {
    if a == [] {
      assert a + b == b;
    } else {
      assert (a + b)[0] == a[0] && (a + b)[1..] == a[1..] + b;
      SubstAppend(a[1..], b, t, r);
      var h := [if a[0] == t then r else a[0]];
      assert Subst(a + b, t, r) == h + (Subst(a[1..], t, r) + Subst(b, t, r));
      assert Subst(a, t, r) == h + Subst(a[1..], t, r);
    }
  }

  lemma {:induction false} SubstAllAppend(a: seq<string>, b: seq<string>, rules: seq<(string, string)>)
    ensures SubstAll(a + b, rules) == SubstAll(a, rules) + SubstAll(b, rules)
    decreases |rules|
  {
    if rules != [] {
      var t, r := rules[0].0, rules[0].1;
      SubstAppend(a, b, t, r);
      SubstAllAppend(Subst(a, t, r), Subst(b, t, r), rules[1..]);
    }
  }

  lemma {:induction false} JoinAppend(a: seq<string>, b: seq<string>)
    ensures Join(a + b) == Join(a) + Join(b)
  {
    if a != [] {
      assert (a + b)[1..] == a[1..] + b && (a + b)[0] == a[0];
      JoinAppend(a[1..], b);
      assert Join(a + b) == a[0] + (Join(a[1..]) + Join(b));
    } else {
      assert a + b == b;
    }
  }

  // ---- character by character, the chain gives ECMA-262's encoding ----

  function HexValue(c: char): (r: int)
    ensures IsHex(c) ==> 0 <= r < 16
  {
    if '0' <= c <= '9' then c as int - '0' as int else c as int - 'A' as int + 10
  }

  lemma HexDigitValue(d: int)
    requires 0 <= d < 16
    ensures IsHex(HexDigits[d]) && HexValue(HexDigits[d]) == d
  {
  }

  /** The byte a triplet names. */
  lemma TripletValue(b: Byte)
    ensures HexValue(Triplet(b)[1]) * 16 + HexValue(Triplet(b)[2]) == b
  {
    HexDigitValue(b / 16);
    HexDigitValue(b % 16);
  }

  lemma TripletInjective(b1: Byte, b2: Byte)
    requires Triplet(b1) == Triplet(b2)
    ensures b1 == b2
  {
    TripletValue(b1);
    TripletValue(b2);
  }

  /** The patterns of the chain are the triplets of the bytes they undo. */
  lemma RulePatterns()
    ensures Triplet(0x20) == "%20" && Triplet(0x21) == "%21" && Triplet(0x27) == "%27"
    ensures Triplet(0x28) == "%28" && Triplet(0x29) == "%29" && Triplet(0x7E) == "%7E"
    ensures GoodRules(Rules)
  {
  }

  /** Units matching no pattern pass the chain unchanged. */
  lemma {:induction false} SubstAllKeeps(us: seq<string>, rules: seq<(string, string)>)
    requires forall i, j :: 0 <= i < |us| && 0 <= j < |rules| ==> us[i] != rules[j].0
    ensures SubstAll(us, rules) == us
    decreases |rules|
  {
    if rules != [] {
      SubstAt(us, rules[0].0, rules[0].1);
      assert Subst(us, rules[0].0, rules[0].1) == us;
      SubstAllKeeps(us, rules[1..]);
    }
  }

  /** The triplet of a byte other than ! ' ( ) ~ matches no pattern. */
  lemma TripletNotPattern(b: Byte)
    requires b !in {0x21, 0x27, 0x28, 0x29, 0x7E}
    ensures forall j :: 0 <= j < |Rules| ==> Triplet(b) != Rules[j].0
  {
    RulePatterns();
    var t := Triplet(b);
    assert t != "+";
    if t == "%21" { TripletInjective(b, 0x21); }
    if t == "%27" { TripletInjective(b, 0x27); }
    if t == "%28" { TripletInjective(b, 0x28); }
    if t == "%29" { TripletInjective(b, 0x29); }
    if t == "%7E" { TripletInjective(b, 0x7E); }
  }

  /** No triplet of a byte outside the undone ones matches a pattern. */
  lemma TripletsKept(bs: seq<Byte>)
    requires forall i :: 0 <= i < |bs| ==> bs[i] !in {0x21, 0x27, 0x28, 0x29, 0x7E}
    ensures SubstAll(Triplets(bs), Rules) == Triplets(bs)
  {
    forall i | 0 <= i < |bs|
      ensures forall j :: 0 <= j < |Rules| ==> Triplets(bs)[i] != Rules[j].0
    {
      TripletNotPattern(bs[i]);
    }
    SubstAllKeeps(Triplets(bs), Rules);
  }

  /** One unit through the chain, rule by rule. */
  lemma ChainOne(u: string, k: nat, v: string)
    requires 1 <= k < |Rules| && Rules[k].0 == u && Rules[k].1 == v
    requires forall j :: 0 <= j < k ==> Rules[j].0 != u
    requires forall j :: k < j < |Rules| ==> Rules[j].0 != v
    ensures SubstAll([u], Rules) == [v]
  {
    ChainPrefix(u, 0, k);
    assert Subst([u], Rules[k].0, Rules[k].1) == [v];
    ChainSuffix([v], k + 1);
  }

  lemma {:induction false} ChainPrefix(u: string, i: nat, k: nat)
    requires i <= k < |Rules|
    requires forall j :: 0 <= j < k ==> Rules[j].0 != u
    ensures SubstAll([u], Rules[i..]) == SubstAll([u], Rules[k..])
    decreases k - i
  {
    if i < k {
      assert Rules[i..][1..] == Rules[i + 1..];
      assert Subst([u], Rules[i].0, Rules[i].1) == [u];
      ChainPrefix(u, i + 1, k);
    }
  }

  lemma {:induction false} ChainSuffix(us: seq<string>, i: nat)
    requires i <= |Rules|
    requires forall m, j :: 0 <= m < |us| && i <= j < |Rules| ==> us[m] != Rules[j].0
    ensures SubstAll(us, Rules[i..]) == us
  {
    SubstAllKeeps(us, Rules[i..]);
  }

  lemma SafeEncoding(c: char)
    requires FormSafe(c)
    ensures SubstAll(FormUnits(c), Rules) == EcmaUnits(c)
  {
    assert forall j :: 0 <= j < |Rules| ==> [c] != Rules[j].0;
    SubstAllKeeps([[c]], Rules);
  }

  lemma SpaceEncoding()
    ensures SubstAll(FormUnits(' '), Rules) == EcmaUnits(' ')
  {
    assert FormUnits(' ') == ["+"];
    assert Subst(["+"], Rules[0].0, Rules[0].1) == ["%20"];
    assert forall j :: 1 <= j < |Rules| ==> "%20" != Rules[j].0;
    ChainSuffix(["%20"], 1);
    assert Utf8(' ') == [0x20];
    RulePatterns();
  }

  lemma TripletEncoding(c: char)
    requires !FormSafe(c) && c != ' ' && !Unescaped(c)
    ensures SubstAll(FormUnits(c), Rules) == EcmaUnits(c)
  {
    var bs := Utf8(c);
    assert forall i :: 0 <= i < |bs| ==> bs[i] !in {0x21, 0x27, 0x28, 0x29, 0x7E};
    TripletsKept(bs);
  }

  /** A character URLEncoder escapes to the pattern of rule `k`, which
    * puts it back. */
  lemma RestoredBy(c: char, k: nat)
    requires 1 <= k < |Rules| && c as int < 0x80 && !FormSafe(c) && c != ' ' && Unescaped(c)
    requires Rules[k].0 == Triplet(c as int) && Rules[k].1 == [c]
    requires forall j :: 0 <= j < k ==> Rules[j].0 != Rules[k].0
    requires forall j :: k < j < |Rules| ==> Rules[j].0 != [c]
    ensures SubstAll(FormUnits(c), Rules) == EcmaUnits(c)
  {
    assert Utf8(c) == [c as int];
    assert Triplets(Utf8(c)) == [Triplet(c as int)];
    ChainOne(Rules[k].0, k, [c]);
  }

  /** The characters URLEncoder escapes and the chain restores. */
  lemma RestoredEncoding(c: char)
    requires c in "!'()~"
    ensures SubstAll(FormUnits(c), Rules) == EcmaUnits(c)
  {
    RulePatterns();
    if c == '!' {
      RestoredBy(c, 1);
    } else if c == '\'' {
      RestoredBy(c, 2);
    } else if c == '(' {
      RestoredBy(c, 3);
    } else if c == ')' {
      RestoredBy(c, 4);
    } else {
      RestoredBy(c, 5);
    }
  }

  /** What the chain makes of the encoder's units for one character is
    * that character's ECMA-262 encoding. */
  lemma CharEncoding(c: char)
    ensures SubstAll(FormUnits(c), Rules) == EcmaUnits(c)
  {
    if FormSafe(c) {
      SafeEncoding(c);
    } else if c == ' ' {
      SpaceEncoding();
    } else if c in "!'()~" {
      RestoredEncoding(c);
    } else {
      TripletEncoding(c);
    }
  }

  /** `encodeURIComponent` is ECMA-262's `encodeURIComponent`: the
    * characters A-Z a-z 0-9 - _ . ! ~ * ' ( ) stay, every other character
    * becomes the triplets of its UTF-8 bytes, and a space is "%20". */
  lemma {:induction false} EncodeIsEcma(s: string)
    ensures EncodeURIComponent(s) == EcmaEncode(s)
  {
    FormUnitsOfAreUnits(s);
    RulePatterns();
    ReplaceChainJoin(FormUnitsOf(s), Rules);
    SubstAllOfChars(s);
  }

  lemma {:induction false} SubstAllOfChars(s: string)
    ensures SubstAll(FormUnitsOf(s), Rules) == EcmaUnitsOf(s)
  {
    if s != [] {
      SubstAllAppend(FormUnits(s[0]), FormUnitsOf(s[1..]), Rules);
      CharEncoding(s[0]);
      SubstAllOfChars(s[1..]);
    } else {
      SubstAllKeeps([], Rules);
    }
  }

  lemma {:induction false} FormUnitsOfAreUnits(s: string)
    ensures AllUnits(FormUnitsOf(s))
  {
    if s != [] {
      FormUnitsOfAreUnits(s[1..]);
      var u := FormUnits(s[0]);
      assert AllUnits(u);
      assert FormUnitsOf(s) == u + FormUnitsOf(s[1..]);
    }
  }

  // ---- decoding the encoded text ----

  function Prepend(b: Byte, r: Option<seq<Byte>>): Option<seq<Byte>>
  {
    if r.Some? then Some([b] + r.value) else None
  }

  /** Percent-decoding to bytes: a triplet gives its byte, any other ASCII
    * character its own code; a '%' not followed by two hexadecimal digits,
    * or a character beyond ASCII, is not encoded text. */
  function PercentDecode(s: string): (r: Option<seq<Byte>>)
  {
    if s == [] then Some([])
    else if s[0] == '%' then
      if |s| >= 3 && IsHex(s[1]) && IsHex(s[2]) then
        Prepend(HexValue(s[1]) * 16 + HexValue(s[2]), PercentDecode(s[3..]))
      else None
    else if s[0] as int < 0x80 then Prepend(s[0] as int, PercentDecode(s[1..]))
    else None
  }

  lemma DecodeTriplet(b: Byte, rest: string)
    ensures PercentDecode(Triplet(b) + rest) == Prepend(b, PercentDecode(rest))
  {
    var s := Triplet(b) + rest;
    assert s[0] == '%' && s[1] == Triplet(b)[1] && s[2] == Triplet(b)[2] && s[3..] == rest;
    TripletValue(b);
  }

  lemma DecodeAscii(c: char, rest: string)
    requires c != '%' && c as int < 0x80
    ensures PercentDecode([c] + rest) == Prepend(c as int, PercentDecode(rest))
  {
    assert ([c] + rest)[1..] == rest;
  }

  function PrependAll(bs: seq<Byte>, r: Option<seq<Byte>>): (out: Option<seq<Byte>>)
    ensures r.Some? ==> out == Some(bs + r.value)
    ensures r.None? ==> out.None?
  {
    if bs == [] then
      assert r.Some? ==> [] + r.value == r.value;
      r
    else
      assert r.Some? ==> [bs[0]] + (bs[1..] + r.value) == bs + r.value by { assert [bs[0]] + bs[1..] == bs; }
      Prepend(bs[0], PrependAll(bs[1..], r))
  }

  lemma {:induction false} DecodeTriplets(bs: seq<Byte>, rest: string)
    ensures PercentDecode(Join(Triplets(bs)) + rest) == PrependAll(bs, PercentDecode(rest))
  {
    if bs != [] {
      var ts := Triplets(bs);
      assert ts[1..] == Triplets(bs[1..]);
      assert Join(ts) + rest == Triplet(bs[0]) + (Join(Triplets(bs[1..])) + rest);
      DecodeTriplet(bs[0], Join(Triplets(bs[1..])) + rest);
      DecodeTriplets(bs[1..], rest);
    } else {
      assert Join(Triplets(bs)) + rest == rest;
    }
  }

  /** One character's ECMA-262 encoding decodes to its UTF-8 bytes. */
  lemma DecodeChar(c: char, rest: string)
    ensures PercentDecode(Join(EcmaUnits(c)) + rest) == PrependAll(Utf8(c), PercentDecode(rest))
  {
    if Unescaped(c) {
      assert Join(EcmaUnits(c)) == [c];
      DecodeAscii(c, rest);
    } else {
      DecodeTriplets(Utf8(c), rest);
    }
  }

  /** Percent-decoding the ECMA-262 encoding gives the UTF-8 bytes. */
  lemma {:induction false} DecodeEcma(s: string)
    ensures PercentDecode(EcmaEncode(s)) == Some(Utf8Of(s))
  {
    if s != [] {
      JoinAppend(EcmaUnits(s[0]), EcmaUnitsOf(s[1..]));
      DecodeChar(s[0], EcmaEncode(s[1..]));
      DecodeEcma(s[1..]);
    }
  }

  /** `encodeURIComponent` loses nothing: percent-decoding its result and
    * reading the bytes as UTF-8 gives the original string back. */
  lemma DecodeRoundTrip(s: string)
    ensures PercentDecode(EncodeURIComponent(s)).Some?
    ensures Utf8Decode(PercentDecode(EncodeURIComponent(s)).value) == Some(s)
  {
    EncodeIsEcma(s);
    DecodeEcma(s);
    Utf8RoundTrip(s);
  }

  /** Only unreserved characters, '%' and hexadecimal digits. */
  predicate EncodedText(t: string)
  {
    forall i :: 0 <= i < |t| ==> Unescaped(t[i]) || t[i] == '%' || IsHex(t[i])
  }

  /** The encoded text holds only unreserved characters and '%' triplets:
    * in particular no '+' and no space, so a space travels as "%20". */
  lemma {:induction false} EncodedAlphabet(s: string)
    ensures EncodedText(EcmaEncode(s))
  {
    if s != [] {
      JoinAppend(EcmaUnits(s[0]), EcmaUnitsOf(s[1..]));
      EncodedAlphabet(s[1..]);
      CharAlphabet(s[0]);
      var a, b := Join(EcmaUnits(s[0])), EcmaEncode(s[1..]);
      assert EcmaEncode(s) == a + b;
      forall i | 0 <= i < |a + b|
        ensures Unescaped((a + b)[i]) || (a + b)[i] == '%' || IsHex((a + b)[i])
      {
        if i < |a| { assert (a + b)[i] == a[i]; } else { assert (a + b)[i] == b[i - |a|]; }
      }
    }
  }

  lemma CharAlphabet(c: char)
    ensures EncodedText(Join(EcmaUnits(c)))
  {
    if !Unescaped(c) {
      TripletsAlphabet(Utf8(c));
    } else {
      assert Join(EcmaUnits(c)) == [c];
    }
  }

  lemma {:induction false} TripletsAlphabet(bs: seq<Byte>)
    ensures forall i :: 0 <= i < |Join(Triplets(bs))| ==> Join(Triplets(bs))[i] == '%' || IsHex(Join(Triplets(bs))[i])
  {
    if bs != [] {
      assert Triplets(bs)[1..] == Triplets(bs[1..]);
      TripletsAlphabet(bs[1..]);
    }
  }

  lemma SpaceIsPercent20(s: string)
    ensures ' ' !in EncodeURIComponent(s) && '+' !in EncodeURIComponent(s)
    ensures EncodeURIComponent(" ") == "%20"
  {
    EncodeIsEcma(s);
    EncodedAlphabet(s);
    assert !(Unescaped(' ') || ' ' == '%' || IsHex(' '));
    assert !(Unescaped('+') || '+' == '%' || IsHex('+'));
    EncodeIsEcma(" ");
    assert EcmaUnitsOf(" ") == EcmaUnits(' ') + [];
    assert Utf8(' ') == [0x20];
    RulePatterns();
  }

  // ---- ORCIDPerson.toPerson ----

  /** `ORCIDPersonName`. */
  datatype OrcidName = OrcidName(givenNames: JString, familyName: JString)

  /** `ORCIDExternalIdentifier`: its type, and its value (the URL is not
    * used). */
  datatype ExternalIdentifier = ExternalIdentifier(idType: JString, value: string)

  /** `ORCIDPerson` as unmarshalled: the name, the contents of the other
    * names and the external identifiers, each possibly null. */
  datatype OrcidPerson = OrcidPerson(
    name: Option<OrcidName>,
    otherNames: Option<seq<JString>>,
    externalIdentifiers: Option<seq<ExternalIdentifier>>)

  /** `Scheme.get(type)`: a null type matches no scheme, since
    * `equalsIgnoreCase(null)` is false. */
  function SchemeOfType(registry: seq<Scheme>, t: JString): (r: Option<Scheme>)
    ensures t.None? ==> r.None?
    ensures t.Some? ==> r == FindScheme(registry, t.value)
  {
    if t.None? then None else FindScheme(registry, t.value)
  }

  /** The stream of `toPerson` over the external identifiers: those whose
    * type names a registered scheme, in order, as ids of that scheme. */
  function MappedIdsOf(registry: seq<Scheme>, eis: seq<ExternalIdentifier>): (r: seq<IdType>)
    ensures |r| <= |eis|
    ensures forall k :: 0 <= k < |r| ==> r[k].scheme.Some?
  {
    if eis == [] then []
    else
      var rest := MappedIdsOf(registry, eis[1..]);
      var sc := SchemeOfType(registry, eis[0].idType);
      if sc.Some? then [IdType(sc, eis[0].value)] + rest else rest
  }

  /** Every id kept comes from an identifier whose type resolves to its
    * scheme. */
  lemma {:induction false} MappedIdsSound(registry: seq<Scheme>, eis: seq<ExternalIdentifier>)
    ensures forall k :: 0 <= k < |MappedIdsOf(registry, eis)| ==>
      exists e :: e in eis && SchemeOfType(registry, e.idType) == MappedIdsOf(registry, eis)[k].scheme &&
        e.value == MappedIdsOf(registry, eis)[k].id
  {
    if eis != [] {
      MappedIdsSound(registry, eis[1..]);
      var rest := MappedIdsOf(registry, eis[1..]);
      var r := MappedIdsOf(registry, eis);
      var sc := SchemeOfType(registry, eis[0].idType);
      forall k | 0 <= k < |r|
        ensures exists e :: e in eis && SchemeOfType(registry, e.idType) == r[k].scheme && e.value == r[k].id
      {
        if sc.Some? && k == 0 {
          assert eis[0] in eis;
        } else {
          var j := if sc.Some? then k - 1 else k;
          assert r[k] == rest[j];
          var e :| e in eis[1..] && SchemeOfType(registry, e.idType) == rest[j].scheme && e.value == rest[j].id;
          assert e in eis;
        }
      }
    } else {
      assert MappedIdsOf(registry, eis) == [];
    }
  }

  /** Every identifier whose type resolves to a scheme is kept. */
  lemma {:induction false} MappedIdsComplete(registry: seq<Scheme>, eis: seq<ExternalIdentifier>)
    ensures forall e :: e in eis && SchemeOfType(registry, e.idType).Some? ==>
      IdType(SchemeOfType(registry, e.idType), e.value) in MappedIdsOf(registry, eis)
  {
    if eis != [] {
      MappedIdsComplete(registry, eis[1..]);
      forall e | e in eis && SchemeOfType(registry, e.idType).Some?
        ensures IdType(SchemeOfType(registry, e.idType), e.value) in MappedIdsOf(registry, eis)
      {
        if e != eis[0] {
          assert e in eis[1..];
        }
      }
    }
  }

  /** The filter keeps the order of the identifiers. */
  lemma {:induction false} MappedIdsAppend(registry: seq<Scheme>, a: seq<ExternalIdentifier>, b: seq<ExternalIdentifier>)
    ensures MappedIdsOf(registry, a + b) == MappedIdsOf(registry, a) + MappedIdsOf(registry, b)
  {
    if a != [] {
      assert (a + b)[0] == a[0] && (a + b)[1..] == a[1..] + b;
      MappedIdsAppend(registry, a[1..], b);
    } else {
      assert a + b == b;
    }
  }

  /** Identifier types differing only in letter case give the same ids. */
  lemma ExternalTypeIgnoresCase(registry: seq<Scheme>, t1: string, t2: string, v: string)
    requires EqualsIgnoreCase(t1, t2)
    ensures MappedIdsOf(registry, [ExternalIdentifier(Some(t1), v)]) == MappedIdsOf(registry, [ExternalIdentifier(Some(t2), v)])
  {
    FindSchemeIgnoresCase(registry, t1, t2);
  }

  /** `toPerson`: the given and family names, the other names as the
    * alternate names, and the identifiers of registered schemes as the
    * mapped ids; the other fields stay null. A null name, other-name list
    * or identifier list throws a `NullPointerException` (`None`). */
  function ToPerson(registry: seq<Scheme>, o: OrcidPerson): (r: Option<PersonData>)
    ensures r.None? <==> o.name.None? || o.otherNames.None? || o.externalIdentifiers.None?
    ensures r.Some? ==> r.value.givenName == o.name.value.givenNames && r.value.familyName == o.name.value.familyName
    ensures r.Some? ==> r.value.alternateNames == o.otherNames
    ensures r.Some? ==> r.value.mappedIds == MappedIdsOf(registry, o.externalIdentifiers.value)
    ensures r.Some? ==> (r.value.gender.None? && r.value.description.None? && r.value.dateOfBirth.None? &&
      r.value.dateOfDeath.None? && r.value.placeOfBirth.None? && r.value.placeOfDeath.None? && r.value.placeOfActivity.None?)
  {
    if o.name.None? || o.otherNames.None? || o.externalIdentifiers.None? then None
    else
      Some(PersonData(MappedIdsOf(registry, o.externalIdentifiers.value), None, None,
        o.name.value.familyName, o.name.value.givenNames, None, None, None, None, None, o.otherNames))
  }

  /** A person read from ORCID can be written to the local index: every
    * id has a scheme, and there are no dates or places to check. */
  lemma ToPersonIndexable(registry: seq<Scheme>, o: OrcidPerson)
    requires ToPerson(registry, o).Some?
    ensures PersonIndexable(ToPerson(registry, o).value)
  {
  }
}
