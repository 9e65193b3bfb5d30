/** Identifier schemes (GND, VIAF, ORCID, ...) and the registry that resolves
  * a scheme token to one of them. `Scheme` does not override `equals`, so a
  * scheme is an object compared by identity; its id, aliases and templates
  * are fixed once the registry is loaded, only the rdf holder is updated. */
module SchemeRegistry {
  import opened Wrappers
  import opened JavaStrings

  /** The nested `RDF` holder: a URI template and an RDF type. */
  datatype RdfHolder = RdfHolder(uri: JString, rdfType: JString)

  /** The placeholder the URI templates use for the identifier value. */
  const Placeholder: string := "{$id}"

  class Scheme {
    const id: string
    const alias: Option<seq<string>>
    const name: JString
    const description: JString
    const authorityURI: JString
    var rdf: Option<RdfHolder>

    constructor (id: string, alias: Option<seq<string>>, name: JString, description: JString, authorityURI: JString)
      ensures this.id == id && this.alias == alias && this.name == name
      ensures this.description == description && this.authorityURI == authorityURI
      ensures rdf.None?
    {
      this.id := id;
      this.alias := alias;
      this.name := name;
      this.description := description;
      this.authorityURI := authorityURI;
      rdf := None;
    }

    /** `getRdfURI`: null while no holder exists. */
    function GetRdfURI(): (r: JString)
      reads this
      ensures rdf.None? ==> r.None?
    {
      if rdf.Some? then rdf.value.uri else None
    }

    /** `getRdfType`: null while no holder exists. */
    function GetRdfType(): (r: JString)
      reads this
      ensures rdf.None? ==> r.None?
    {
      if rdf.Some? then rdf.value.rdfType else None
    }

    /** `setRdfURI`: creates the holder on first use, keeps its type. */
    method SetRdfURI(uri: JString)
      modifies this
      ensures rdf.Some? && GetRdfURI() == uri
      ensures GetRdfType() == old(GetRdfType())
    {
      if rdf.None? {
        rdf := Some(RdfHolder(None, None));
      }
      rdf := Some(rdf.value.(uri := uri));
    }

    /** `setRdfType`: creates the holder on first use, keeps its URI. */
    method SetRdfType(rdfType: JString)
      modifies this
      ensures rdf.Some? && GetRdfType() == rdfType
      ensures GetRdfURI() == old(GetRdfURI())
    {
      if rdf.None? {
        rdf := Some(RdfHolder(None, None));
      }
      rdf := Some(rdf.value.(rdfType := rdfType));
    }

    /** `buildAuthorityURI`: substitutes `value` into the template; a result
      * that is not a valid URI gives null instead of an exception. A null
      * template is dereferenced, so it is required to be present. */
    function BuildAuthorityURI(value: string, isValidUri: string -> bool): (r: JString)
      requires authorityURI.Some?
      ensures r.None? <==> !isValidUri(Replace(authorityURI.value, Placeholder, value))
      ensures r.Some? ==> r.value == Replace(authorityURI.value, Placeholder, value) && isValidUri(r.value)
    {
      SubstituteId(authorityURI.value, value, isValidUri)
    }

    /** `buildRdfURI`: the same substitution on the rdf template, which must
      * exist (the holder is dereferenced unguarded). */
    function BuildRdfURI(value: string, isValidUri: string -> bool): (r: JString)
      reads this
      requires rdf.Some? && rdf.value.uri.Some?
      ensures r.None? <==> !isValidUri(Replace(rdf.value.uri.value, Placeholder, value))
      ensures r.Some? ==> r.value == Replace(rdf.value.uri.value, Placeholder, value) && isValidUri(r.value)
    {
      SubstituteId(rdf.value.uri.value, value, isValidUri)
    }
  }

  /** `new URI(template.replace("{$id}", value))`, null on a syntax error. */
  function SubstituteId(template: string, value: string, isValidUri: string -> bool): (r: JString)
    ensures r.None? <==> !isValidUri(Replace(template, Placeholder, value))
    ensures r.Some? ==> r.value == Replace(template, Placeholder, value)
  {
    var u := Replace(template, Placeholder, value);
    if isValidUri(u) then Some(u) else None
  }

  /** A template `pre + "{$id}" + post` (no brace in `pre`, no further
    * placeholder in `post`) yields exactly `pre + value + post`. */
  lemma SubstituteIdSingle(pre: string, post: string, value: string, isValidUri: string -> bool)
    requires '{' !in pre
    requires forall i :: !OccursAt(post, Placeholder, i)
    requires isValidUri(pre + value + post)
    ensures SubstituteId(pre + Placeholder + post, value, isValidUri) == Some(pre + value + post)
  {
    ReplaceSingle(pre, Placeholder, post, value);
  }

  /** The filter of `Schemes.get`: the id matches ignoring case, or the alias
    * list is present and one alias does. */
  predicate KeyMatches(s: Scheme, key: string)
  {
    EqualsIgnoreCase(s.id, key) ||
    (s.alias.Some? && exists a :: a in s.alias.value && EqualsIgnoreCase(a, key))
  }

  /** `Schemes.get(key)`: the first registered scheme matching `key`, or null. */
  function FindScheme(schemes: seq<Scheme>, key: string): (r: Option<Scheme>)
    ensures r.Some? ==> exists i :: 0 <= i < |schemes| && schemes[i] == r.value
                          && KeyMatches(r.value, key)
                          && forall j :: 0 <= j < i ==> !KeyMatches(schemes[j], key)
    ensures r.None? <==> forall i :: 0 <= i < |schemes| ==> !KeyMatches(schemes[i], key)
  {
    if schemes == [] then None
    else if KeyMatches(schemes[0], key) then Some(schemes[0])
    else
      var r := FindScheme(schemes[1..], key);
      assert forall i :: 1 <= i < |schemes| ==> schemes[i] == schemes[1..][i - 1];
      r
  }

  /** Keys differing only in letter case select the same scheme. */
  lemma {:induction false} FindSchemeIgnoresCase(schemes: seq<Scheme>, k1: string, k2: string)
    requires EqualsIgnoreCase(k1, k2)
    ensures FindScheme(schemes, k1) == FindScheme(schemes, k2)
  {
    if schemes != [] {
      KeyMatchesIgnoresCase(schemes[0], k1, k2);
      FindSchemeIgnoresCase(schemes[1..], k1, k2);
    }
  }

  lemma KeyMatchesIgnoresCase(s: Scheme, k1: string, k2: string)
    requires EqualsIgnoreCase(k1, k2)
    ensures KeyMatches(s, k1) == KeyMatches(s, k2)
  {
    forall a ensures EqualsIgnoreCase(a, k1) == EqualsIgnoreCase(a, k2) {
      EqualsIgnoreCaseIsEquivalence(a, k1, k2);
      EqualsIgnoreCaseIsEquivalence(k1, k2, a);
      EqualsIgnoreCaseIsEquivalence(a, k2, k1);
    }
  }

  /** A scheme registered without aliases is found by its id only. */
  lemma NoAliasMatchesIdOnly(s: Scheme, key: string)
    requires s.alias.None?
    ensures KeyMatches(s, key) <==> EqualsIgnoreCase(s.id, key)
  {
  }

  /** Appending to the registry never changes a key that already resolves:
    * an earlier scheme with a clashing id or alias keeps winning. */
  lemma {:induction false} AddKeepsEarlierWinner(schemes: seq<Scheme>, s: Scheme, key: string)
    ensures FindScheme(schemes, key).Some? ==> FindScheme(schemes + [s], key) == FindScheme(schemes, key)
    ensures FindScheme(schemes, key).None? ==>
              FindScheme(schemes + [s], key) == (if KeyMatches(s, key) then Some(s) else None)
  {
    if schemes != [] {
      assert (schemes + [s])[1..] == schemes[1..] + [s];
      AddKeepsEarlierWinner(schemes[1..], s, key);
    }
  }

  /** The registry (`Scheme.Schemes`), loaded once and appended to. */
  class Schemes {
    var schemes: seq<Scheme>

    constructor ()
      ensures schemes == []
    {
      schemes := [];
    }

    function Get(key: string): (r: Option<Scheme>)
      reads this
      ensures r.Some? ==> r.value in schemes && KeyMatches(r.value, key)
    {
      FindScheme(schemes, key)
    }

    method Add(s: Scheme)
      modifies this
      ensures schemes == old(schemes) + [s]
      ensures forall key :: old(Get(key)).Some? ==> Get(key) == old(Get(key))
    {
      forall key ensures FindScheme(schemes, key).Some? ==> FindScheme(schemes + [s], key) == FindScheme(schemes, key) {
        AddKeepsEarlierWinner(schemes, s, key);
      }
      schemes := schemes + [s];
    }
  }
}
