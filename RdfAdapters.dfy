/** The adapters that turn RDF literals into entity fields: `GenderAdapter`,
  * `Name2FamilyNameAdapter` and `AlternateNameAdapter`. Their inputs come
  * from RDF values and are never null. */
module RdfAdapters {
  import opened Wrappers
  import opened JavaStrings
  import opened Entities

  // ---- GenderAdapter ----

  const MalePattern: seq<string> := [
    "http://schema.org/Male",
    "http://d-nb.info/standards/vocab/gnd/gender#male",
    "http://www.wikidata.org/entity/Q6581097"]

  const FemalePattern: seq<string> := [
    "http://schema.org/Female",
    "http://d-nb.info/standards/vocab/gnd/gender#female",
    "http://www.wikidata.org/entity/Q6581072"]

  /** `Arrays.stream(patterns).anyMatch(v::equalsIgnoreCase)`. */
  predicate AnyMatchIgnoreCase(patterns: seq<string>, v: string)
  {
    exists i :: 0 <= i < |patterns| && EqualsIgnoreCase(v, patterns[i])
  }

  /** `GenderAdapter.unmarshal`: male when the value names a male URI
    * (ignoring case), else female for a female URI, else null. */
  function GenderOf(v: string): (r: Option<Gender>)
    ensures r == Some(Male) <==> AnyMatchIgnoreCase(MalePattern, v)
    ensures r == Some(Female) <==> !AnyMatchIgnoreCase(MalePattern, v) && AnyMatchIgnoreCase(FemalePattern, v)
    ensures r.None? <==> !AnyMatchIgnoreCase(MalePattern, v) && !AnyMatchIgnoreCase(FemalePattern, v)
  {
    if AnyMatchIgnoreCase(MalePattern, v) then Some(Male)
    else if AnyMatchIgnoreCase(FemalePattern, v) then Some(Female)
    else None
  }

  /** `GenderAdapter.marshal`: null for null, else the first URI of the
    * gender's list. */
  function GenderUri(g: Option<Gender>): (r: JString)
    ensures r.None? <==> g.None?
    ensures g == Some(Male) ==> r == Some(MalePattern[0])
    ensures g == Some(Female) ==> r == Some(FemalePattern[0])
  {
    match g
    case None => None
    case Some(Male) => Some(MalePattern[0])
    case Some(Female) => Some(FemalePattern[0])
  }

  /** Values equal up to case give the same gender. */
  lemma GenderIgnoresCase(v: string, w: string)
    requires EqualsIgnoreCase(v, w)
    ensures GenderOf(v) == GenderOf(w)
  {
    forall p | EqualsIgnoreCase(v, p)
      ensures EqualsIgnoreCase(w, p)
    {
      EqualsIgnoreCaseIsEquivalence(w, v, p);
    }
    forall p | EqualsIgnoreCase(w, p)
      ensures EqualsIgnoreCase(v, p)
    {
      EqualsIgnoreCaseIsEquivalence(v, w, p);
    }
  }

  /** Marshalling a gender and reading it back gives the same gender. */
  lemma GenderRoundTrip(g: Gender)
    ensures GenderUri(Some(g)).Some? && GenderOf(GenderUri(Some(g)).value) == Some(g)
  {
    EqualsIgnoreCaseIsEquivalence(MalePattern[0], MalePattern[0], MalePattern[0]);
    EqualsIgnoreCaseIsEquivalence(FemalePattern[0], FemalePattern[0], FemalePattern[0]);
    if g == Female {
      var f := FemalePattern[0];
      forall i | 0 <= i < |MalePattern|
        ensures !EqualsIgnoreCase(f, MalePattern[i])
      {
        assert |f| != |MalePattern[i]|;
      }
    }
  }

  /** Reading a gender and writing it back gives the first URI of its list;
    * a value naming no gender is written back as null. */
  lemma GenderCanonical(v: string)
    ensures AnyMatchIgnoreCase(MalePattern, v) ==> GenderUri(GenderOf(v)) == Some(MalePattern[0])
    ensures !AnyMatchIgnoreCase(MalePattern, v) && AnyMatchIgnoreCase(FemalePattern, v) ==>
      GenderUri(GenderOf(v)) == Some(FemalePattern[0])
    ensures GenderOf(v).None? ==> GenderUri(GenderOf(v)).None?
  {
  }

  // ---- Name2FamilyNameAdapter ----

  /** `Name2FamilyNameAdapter.unmarshal`: with a comma, the text before the
    * last comma; otherwise the text after the last space (all of it when
    * there is none); trimmed. The indices are always in range, so the
    * `StringIndexOutOfBoundsException` branch never runs and the result is
    * never null. */
  function FamilyName(v: string): (r: string)
    ensures r == Trim(r)
    ensures ',' !in v ==> ' ' !in r
    ensures forall c :: c in r ==> c in v
    ensures ',' !in v && ' ' !in v ==> r == Trim(v)
  {
    if ',' in v then
      var k := LastIndexOf(v, ',');
      var r := Trim(v[..k]);
      TrimIdempotent(v[..k]);
      TrimKeeps(v[..k]);
      r
    else
      var j := LastIndexOf(v, ' ');
      assert ' ' !in v ==> v[j + 1..] == v;
      var r := Trim(v[j + 1..]);
      TrimIdempotent(v[j + 1..]);
      TrimKeeps(v[j + 1..]);
      r
  }

  /** A name with a comma gives the text before its last comma, trimmed. */
  lemma {:induction false} FamilyNameAroundComma(a: string, b: string)
    requires ',' !in b
    ensures FamilyName(a + "," + b) == Trim(a)
  {
    var s := a + "," + b;
    assert s[|a|] == ',' && s[|a| + 1..] == b && s[..|a|] == a;
    assert LastIndexOf(s, ',') == |a|;
  }

  /** A name without a comma gives its last word, trimmed. */
  lemma {:induction false} FamilyNameLastWord(a: string, b: string)
    requires ',' !in a && ',' !in b && ' ' !in b
    ensures FamilyName(a + " " + b) == Trim(b)
  {
    var s := a + " " + b;
    assert s[|a|] == ' ' && s[|a| + 1..] == b && s[..|a|] == a;
    assert ',' !in s by {
      forall i | 0 <= i < |s|
        ensures s[i] != ','
      {
        if i < |a| { assert s[i] == a[i]; } else if i > |a| { assert s[i] == b[i - |a| - 1]; }
      }
    }
    assert LastIndexOf(s, ' ') == |a|;
  }

  /** `Name2FamilyNameAdapter.marshal`: a family name cannot be turned back
    * into a name, so the result is always null. */
  function FamilyNameToName(v: JString): (r: JString)
    ensures r.None?
  {
    None
  }

  /** Every character `trim` keeps is from its argument. */
  lemma TrimKeeps(s: string)
    ensures forall c :: c in Trim(s) ==> c in s
  {
    var a := TrimStart(s);
    assert a == s[|s| - |a|..];
    assert Trim(s) == a[..|Trim(s)|];
  }

  // ---- AlternateNameAdapter ----

  /** `parse`: when the display-form pattern is found, its first two
    * groups, trimmed and joined by ", "; otherwise the name unchanged. The
    * regular expression itself is a parameter: `find` gives the two groups,
    * which always take part in a match. */
  function ParseName(name: string, find: string -> Option<(string, string)>): (r: string)
    ensures find(name).None? ==> r == name
    ensures find(name).Some? ==> exists a, b :: r == a + ", " + b && a == Trim(a) && b == Trim(b)
  {
    match find(name)
    case None => name
    case Some((g1, g2)) =>
      TrimIdempotent(g1);
      TrimIdempotent(g2);
      Trim(g1) + ", " + Trim(g2)
  }

  /** The second step of `unmarshal`: "A, B" around the last comma; without
    * a comma, the last word, ", ", and the words before it; a single word
    * (where `substring(0, -1)` throws) is kept as it is. */
  function Reorder(s: string): (r: string)
    ensures ',' !in s && ' ' !in s ==> r == s
    ensures ',' in s || ' ' in s ==> exists a, b :: r == a + ", " + b && a == Trim(a) && b == Trim(b)
  {
    if ',' in s then
      var k := LastIndexOf(s, ',');
      TrimIdempotent(s[..k]);
      TrimIdempotent(s[k + 1..]);
      Trim(s[..k]) + ", " + Trim(s[k + 1..])
    else if ' ' in s then
      var j := LastIndexOf(s, ' ');
      TrimIdempotent(s[j + 1..]);
      TrimIdempotent(s[..j]);
      Trim(s[j + 1..]) + ", " + Trim(s[..j])
    else s
  }

  /** `AlternateNameAdapter.unmarshal`: each name parsed and reordered; no
    * element is null, so the final filter drops nothing. */
  function AlternateNames(v: seq<string>, find: string -> Option<(string, string)>): (r: seq<string>)
    ensures |r| == |v|
    ensures forall i :: 0 <= i < |v| ==> r[i] == Reorder(ParseName(v[i], find))
  {
    if v == [] then [] else [Reorder(ParseName(v[0], find))] + AlternateNames(v[1..], find)
  }

  /** `AlternateNameAdapter.marshal` hands the list back unchanged. */
  function AlternateNamesBack(v: Option<seq<string>>): (r: Option<seq<string>>)
    ensures r == v
  {
    v
  }

  lemma TrimLeadingSpace(t: string)
    requires Trim(t) == t
    ensures Trim(" " + t) == t
  {
    assert (" " + t)[1..] == t;
    assert TrimStart(" " + t) == TrimStart(t);
  }

  lemma TrimOmits(s: string, c: char)
    requires c !in s
    ensures c !in Trim(s)
  {
    TrimKeeps(s);
  }

  /** A name already in "A, B" form, with no comma in B, is kept. */
  lemma {:induction false} ReorderKeepsNormal(a: string, b: string)
    requires a == Trim(a) && b == Trim(b) && ',' !in b
    ensures Reorder(a + ", " + b) == a + ", " + b
  {
    assert a + ", " + b == a + "," + (" " + b);
    assert ',' !in " " + b;
    ReorderAroundComma(a, " " + b);
    TrimLeadingSpace(b);
  }

  /** A name with a comma is reordered into "A, B" form. */
  lemma ReorderedWithComma(s: string)
    requires ',' in s
    ensures Reorder(Reorder(s)) == Reorder(s)
  {
    var k := LastIndexOf(s, ',');
    var x, y := s[..k], s[k + 1..];
    TrimIdempotent(x);
    TrimIdempotent(y);
    TrimOmits(y, ',');
    ReorderKeepsNormal(Trim(x), Trim(y));
  }

  /** A name with a space but no comma is reordered into "A, B" form. */
  lemma ReorderedWithSpace(s: string)
    requires ',' !in s && ' ' in s
    ensures Reorder(Reorder(s)) == Reorder(s)
  {
    var j := LastIndexOf(s, ' ');
    var x, y := s[j + 1..], s[..j];
    TrimIdempotent(x);
    TrimIdempotent(y);
    assert forall c :: c in y ==> c in s;
    TrimOmits(y, ',');
    ReorderKeepsNormal(Trim(x), Trim(y));
  }

  /** Reordering twice is reordering once. */
  lemma ReorderIdempotent(s: string)
    ensures Reorder(Reorder(s)) == Reorder(s)
  {
    if ',' in s {
      ReorderedWithComma(s);
    } else if ' ' in s {
      ReorderedWithSpace(s);
    }
  }

  /** The family-name adapter picks exactly the part the alternate-name
    * reordering puts first. */
  lemma FamilyNameLeads(s: string)
    requires ',' in s || ' ' in s
    ensures StartsWith(Reorder(s), FamilyName(s) + ", ")
  {
  }

  /** A name without a comma is split at its last space: the last word
    * comes first. */
  lemma {:induction false} ReorderLastWord(a: string, b: string)
    requires ',' !in a && ',' !in b && ' ' !in b
    ensures Reorder(a + " " + b) == Trim(b) + ", " + Trim(a)
  {
    var s := a + " " + b;
    assert s[|a|] == ' ' && s[|a| + 1..] == b && s[..|a|] == a;
    assert ',' !in s by {
      assert forall i :: 0 <= i < |s| ==> s[i] != ',' by {
        forall i | 0 <= i < |s| ensures s[i] != ',' {
          if i < |a| { assert s[i] == a[i]; } else if i > |a| { assert s[i] == b[i - |a| - 1]; }
        }
      }
    }
    var j := LastIndexOf(s, ' ');
    assert j == |a|;
  }

  /** A name with a comma is split at its last comma. */
  lemma {:induction false} ReorderAroundComma(a: string, b: string)
    requires ',' !in b
    ensures Reorder(a + "," + b) == Trim(a) + ", " + Trim(b)
  {
    var s := a + "," + b;
    assert s[|a|] == ',' && s[|a| + 1..] == b && s[..|a|] == a;
    var k := LastIndexOf(s, ',');
    assert k == |a|;
  }
}
