/** `IndexLookupService`: the provider that answers lookups and suggestions
  * from the local index. Lucene's query parser and scoring are not part of
  * this model: whether a query string parses and what a parsed query finds
  * are parameters. */
module IndexLookup {
  import opened Wrappers
  import opened JavaStrings
  import opened SchemeRegistry
  import opened IdTypes
  import opened Entities
  import opened Index
  import opened EntityIndex
  import opened Aggregator

  /** `@Priority(50)`, and every registered scheme is supported. */
  function IndexProvider(registry: seq<Scheme>): (r: Provider)
    ensures PriorityOf(r) == 50
    ensures forall s :: s in registry ==> Asked(r, Some(s))
  {
    Provider(Some(50), registry)
  }

  // ---- lookup by id ----

  /** `corporate`, `person`, `place(idType)`: a term query for the id's text
    * under "<Type>.mappedIds", at most one hit; an id without a scheme has a
    * null text, and building the term throws. */
  function KeyLookup(committed: seq<Document>, t: LookupType, id: IdType): (r: Outcome<Document>)
    ensures r.Fatal? <==> id.scheme.None?
    ensures !r.Fatal? ==> r.Answered?
    ensures r.Answered? && r.result.Some? ==>
      r.result.value in committed && Matches(r.result.value, Term(IdsField(SimpleName(t)), ToString(id).value))
  {
    if id.scheme.None? then Fatal
    else
      var h := Hits(committed, Term(IdsField(SimpleName(t)), ToString(id).value), 1);
      Answered(if h == [] then None else Some(h[0]))
  }

  /** An id with a scheme finds a document exactly when the committed index
    * holds one under that id. */
  lemma KeyLookupFindsIndexed(committed: seq<Document>, t: LookupType, id: IdType)
    requires id.scheme.Some?
    ensures KeyLookup(committed, t, id).result.Some? <==> Exists(committed, Term(IdsField(SimpleName(t)), ToString(id).value))
  {
    var key := Term(IdsField(SimpleName(t)), ToString(id).value);
  }

  /** After `set` saves and commits a document, every term it matches
    * finds a document; a document the writer cannot take makes `set`
    * fail. */
  lemma SetThenExists(committed: seq<Document>, key: Term, doc: Document, t: Term)
    requires Matches(doc, t)
    ensures var r := SaveAllDocs(committed, committed, [(key, doc)]);
      (r.Some? <==> Writable(doc)) && (r.Some? ==> Exists(r.value, t))
  {
    var items := [(key, doc)];
    assert items[1..] == [];
    if Writable(doc) {
      var saved := SaveOrUpdateDocs(committed, committed, key, doc);
      assert SaveAllDocs(saved, committed, items[1..]) == Some(saved);
      assert saved[|saved| - 1] == doc;
    }
  }

  /** A place saved and committed by `set` is then found by each of its
    * ids. */
  lemma PlaceSetThenFound(committed: seq<Document>, p: PlaceData, i: nat)
    requires HasSchemes(p.mappedIds) && i < |p.mappedIds|
    ensures var key := Term(IdsField("Place"), ToString(p.mappedIds[0]).value);
      var after := SaveAllDocs(committed, committed, [(key, PlaceDocument(p))]);
      IdTerm("Place", PlaceGetters(p)) == Some(key) && after.Some? &&
      KeyLookup(after.value, PlaceType, p.mappedIds[i]).result.Some?
  {
    PlaceIndexedById(p);
    PlaceWritable(p);
    var key := Term(IdsField("Place"), ToString(p.mappedIds[0]).value);
    var doc := PlaceDocument(p);
    assert Matches(doc, Term(IdsField(SimpleName(PlaceType)), ToString(p.mappedIds[i]).value));
    SavedThenFound(committed, key, doc, PlaceType, p.mappedIds[i]);
  }

  /** A writable document that matches an id's key term is found by
    * `KeyLookup` once `set` has saved it. */
  lemma SavedThenFound(committed: seq<Document>, key: Term, doc: Document, t: LookupType, id: IdType)
    requires id.scheme.Some? && Writable(doc)
    requires Matches(doc, Term(IdsField(SimpleName(t)), ToString(id).value))
    ensures var after := SaveAllDocs(committed, committed, [(key, doc)]);
      after.Some? && KeyLookup(after.value, t, id).result.Some?
  {
    SetThenExists(committed, key, doc, Term(IdsField(SimpleName(t)), ToString(id).value));
    KeyLookupFindsIndexed(SaveAllDocs(committed, committed, [(key, doc)]).value, t, id);
  }

  // ---- suggestions ----

  /** The fields each suggestion searches, in the order of the query. */
  function SuggestFields(t: LookupType): seq<string>
  {
    match t
    case CorporateType => ["alternateNames", "description", "name"]
    case PersonType => ["alternateNames", "description", "givenName", "familyName"]
    case PlaceType => ["name", "alternateNames", "description"]
  }

  /** "<prefix><field>:<term>" for each field, joined by " OR ". */
  function Disjunction(prefix: string, fields: seq<string>, term: string): string
  {
    if fields == [] then []
    else if |fields| == 1 then prefix + fields[0] + ":" + term
    else prefix + fields[0] + ":" + term + " OR " + Disjunction(prefix, fields[1..], term)
  }

  function SuggestQuery(t: LookupType, term: string): string
  {
    Disjunction(SimpleName(t) + ".", SuggestFields(t), term)
  }

  /** The field list per type reproduces the query each `suggest*` method
    * writes out by hand: one "<Type>.<field>:<term>" clause per field,
    * joined by " OR ". */
  lemma SuggestQueries(term: string)
    ensures SuggestQuery(CorporateType, term) ==
      "Corporate." + "alternateNames" + ":" + term + " OR " + ("Corporate." + "description" + ":" + term + " OR " +
      ("Corporate." + "name" + ":" + term))
    ensures SuggestQuery(PersonType, term) ==
      "Person." + "alternateNames" + ":" + term + " OR " + ("Person." + "description" + ":" + term + " OR " +
      ("Person." + "givenName" + ":" + term + " OR " + ("Person." + "familyName" + ":" + term)))
    ensures SuggestQuery(PlaceType, term) ==
      "Place." + "name" + ":" + term + " OR " + ("Place." + "alternateNames" + ":" + term + " OR " +
      ("Place." + "description" + ":" + term))
  {
    DisjunctionOfThree("Corporate.", SuggestFields(CorporateType), term);
    DisjunctionOfThree("Place.", SuggestFields(PlaceType), term);
    var f := SuggestFields(PersonType);
    DisjunctionOfThree("Person.", f[1..], term);
    assert Disjunction("Person.", f, term) == "Person." + f[0] + ":" + term + " OR " + Disjunction("Person.", f[1..], term);
    assert SimpleName(CorporateType) + "." == "Corporate.";
    assert SimpleName(PersonType) + "." == "Person.";
    assert SimpleName(PlaceType) + "." == "Place.";
  }

  lemma DisjunctionOfThree(prefix: string, f: seq<string>, term: string)
    requires |f| == 3
    ensures Disjunction(prefix, f, term) ==
      prefix + f[0] + ":" + term + " OR " + (prefix + f[1] + ":" + term + " OR " + (prefix + f[2] + ":" + term))
  {
    assert f[1..][1..] == [f[2]];
    assert Disjunction(prefix, f[1..], term) == prefix + f[1] + ":" + term + " OR " + Disjunction(prefix, [f[2]], term);
  }

  /** `suggestCorporate`, `suggestPerson`, `suggestPlace`: a query that does
    * not parse is logged and answers null; the search itself is a
    * parameter. */
  function SuggestFromIndex(t: LookupType, term: string, parses: string -> bool, search: string -> seq<Document>)
    : (r: Outcome<seq<Document>>)
    ensures r.Answered?
    ensures r.result.None? <==> !parses(SuggestQuery(t, term))
  {
    var q := SuggestQuery(t, term);
    if parses(q) then Answered(Some(search(q))) else Answered(None)
  }

  /** In the aggregated suggestion a parse error of the index counts as an
    * empty list. */
  lemma UnparsedSuggestionIsEmpty(t: LookupType, term: string, parses: string -> bool, search: string -> seq<Document>)
    requires !parses(SuggestQuery(t, term))
    ensures ListOf(SuggestFromIndex(t, term, parses, search)) == []
  {
  }

  /** An analyzed getter's field is among the analyzed field names. */
  lemma AnalyzedGetter(prefix: string, gs: seq<Getter>, k: nat, property: string, field: string)
    requires forall i :: 0 <= i < |gs| ==> GoodMethod(gs[i].accessor)
    requires k < |gs| && gs[k].accessor == Get(property) && gs[k].spec == AnalyzedStored
    requires FieldName(prefix, Get(property), "") == prefix + field
    ensures prefix + field in AnalyzedFieldNames(prefix, gs)
  {
  }

  /** Every field the place suggestion searches is written by an analyzed
    * getter. */
  lemma PlaceSuggestSearchesAnalyzed(p: PlaceData)
    requires HasSchemes(p.mappedIds)
    ensures "Place." + "name" in AnalyzedFieldNames("Place.", PlaceGetters(p))
    ensures "Place." + "alternateNames" in AnalyzedFieldNames("Place.", PlaceGetters(p))
    ensures "Place." + "description" in AnalyzedFieldNames("Place.", PlaceGetters(p))
  {
    PlaceAnalyzedGetters(p);
    PlaceFieldsAnalyzed(PlaceGetters(p));
  }

  lemma PlaceFieldsAnalyzed(gs: seq<Getter>)
    requires forall i :: 0 <= i < |gs| ==> GoodMethod(gs[i].accessor)
    requires |gs| == 5
    requires gs[1].accessor == Get("Name") && gs[1].spec == AnalyzedStored
    requires gs[2].accessor == Get("Description") && gs[2].spec == AnalyzedStored
    requires gs[4].accessor == Get("AlternateNames") && gs[4].spec == AnalyzedStored
    ensures "Place." + "name" in AnalyzedFieldNames("Place.", gs)
    ensures "Place." + "alternateNames" in AnalyzedFieldNames("Place.", gs)
    ensures "Place." + "description" in AnalyzedFieldNames("Place.", gs)
  {
    var pre := "Place.";
    PlaceFieldNames();
    AnalyzedGetter(pre, gs, 1, "Name", "name");
    AnalyzedGetter(pre, gs, 2, "Description", "description");
    AnalyzedGetter(pre, gs, 4, "AlternateNames", "alternateNames");
  }

  /** The fields the three searched place properties are written to. */
  lemma PlaceFieldNames()
    ensures GoodMethod(Get("Name")) && FieldName("Place.", Get("Name"), "") == "Place." + "name"
    ensures GoodMethod(Get("Description")) && FieldName("Place.", Get("Description"), "") == "Place." + "description"
    ensures GoodMethod(Get("AlternateNames")) && FieldName("Place.", Get("AlternateNames"), "") == "Place." + "alternateNames"
  {
    FieldOf("Place.", "Name", "name");
    FieldOf("Place.", "Description", "description");
    FieldOf("Place.", "AlternateNames", "alternateNames");
  }

  /** The place getters of the three searched properties. */
  lemma PlaceAnalyzedGetters(p: PlaceData)
    requires HasSchemes(p.mappedIds)
    ensures var gs := PlaceGetters(p);
      |gs| == 5 &&
      gs[1].accessor == Get("Name") && gs[1].spec == AnalyzedStored &&
      gs[2].accessor == Get("Description") && gs[2].spec == AnalyzedStored &&
      gs[4].accessor == Get("AlternateNames") && gs[4].spec == AnalyzedStored
  {
  }

  /** Every field the person suggestion searches is written by an analyzed
    * getter. */
  lemma PersonSuggestSearchesAnalyzed(p: PersonData, gender: Gender -> Value)
    requires PersonIndexable(p)
    ensures "Person." + "alternateNames" in AnalyzedFieldNames("Person.", PersonGetters(p, gender))
    ensures "Person." + "description" in AnalyzedFieldNames("Person.", PersonGetters(p, gender))
    ensures "Person." + "givenName" in AnalyzedFieldNames("Person.", PersonGetters(p, gender))
    ensures "Person." + "familyName" in AnalyzedFieldNames("Person.", PersonGetters(p, gender))
  {
    PersonAnalyzedGetters(p, gender);
    PersonFieldsAnalyzed(PersonGetters(p, gender));
  }

  lemma PersonFieldsAnalyzed(gs: seq<Getter>)
    requires forall i :: 0 <= i < |gs| ==> GoodMethod(gs[i].accessor)
    requires |gs| == 9
    requires gs[2].accessor == Get("Description") && gs[2].spec == AnalyzedStored
    requires gs[4].accessor == Get("FamilyName") && gs[4].spec == AnalyzedStored
    requires gs[5].accessor == Get("GivenName") && gs[5].spec == AnalyzedStored
    requires gs[8].accessor == Get("AlternateNames") && gs[8].spec == AnalyzedStored
    ensures "Person." + "alternateNames" in AnalyzedFieldNames("Person.", gs)
    ensures "Person." + "description" in AnalyzedFieldNames("Person.", gs)
    ensures "Person." + "givenName" in AnalyzedFieldNames("Person.", gs)
    ensures "Person." + "familyName" in AnalyzedFieldNames("Person.", gs)
  {
    var pre := "Person.";
    PersonFieldNames();
    AnalyzedGetter(pre, gs, 2, "Description", "description");
    AnalyzedGetter(pre, gs, 4, "FamilyName", "familyName");
    AnalyzedGetter(pre, gs, 5, "GivenName", "givenName");
    AnalyzedGetter(pre, gs, 8, "AlternateNames", "alternateNames");
  }

  /** The fields the four searched person properties are written to. */
  lemma PersonFieldNames()
    ensures GoodMethod(Get("Description")) && FieldName("Person.", Get("Description"), "") == "Person." + "description"
    ensures GoodMethod(Get("FamilyName")) && FieldName("Person.", Get("FamilyName"), "") == "Person." + "familyName"
    ensures GoodMethod(Get("GivenName")) && FieldName("Person.", Get("GivenName"), "") == "Person." + "givenName"
    ensures GoodMethod(Get("AlternateNames")) && FieldName("Person.", Get("AlternateNames"), "") == "Person." + "alternateNames"
  {
    FieldOf("Person.", "Description", "description");
    FieldOf("Person.", "FamilyName", "familyName");
    FieldOf("Person.", "GivenName", "givenName");
    FieldOf("Person.", "AlternateNames", "alternateNames");
  }

  /** The person getters of the four searched properties. */
  lemma PersonAnalyzedGetters(p: PersonData, gender: Gender -> Value)
    requires PersonIndexable(p)
    ensures var gs := PersonGetters(p, gender);
      |gs| == 9 &&
      gs[2].accessor == Get("Description") && gs[2].spec == AnalyzedStored &&
      gs[4].accessor == Get("FamilyName") && gs[4].spec == AnalyzedStored &&
      gs[5].accessor == Get("GivenName") && gs[5].spec == AnalyzedStored &&
      gs[8].accessor == Get("AlternateNames") && gs[8].spec == AnalyzedStored
  {
  }

  /** The length of the field a getter writes. */
  lemma FieldNameLength(prefix: string, property: string)
    requires property != []
    ensures GoodMethod(Get(property)) && |FieldName(prefix, Get(property), "")| == |prefix| + |property|
  {
    GetterName(prefix, property);
  }

  /** The properties the corporate getters and reference getters read. */
  lemma CorporateAccessors(c: CorporateData)
    requires CorporateIndexable(c)
    ensures var gs, rs := CorporateGetters(c), CorporateRefs(c);
      |gs| == 6 && |rs| == 2 &&
      gs[0].accessor == Get("MappedIds") && gs[1].accessor == Get("Name") &&
      gs[2].accessor == Get("DateOfEstablishment") && gs[3].accessor == Get("DateOfTermination") &&
      gs[4].accessor == Get("Homepage") && gs[5].accessor == Get("AlternateNames") &&
      (forall k :: 0 <= k < 6 ==> gs[k].spec.name == "") &&
      rs[0].accessor == Get("Parent") && rs[1].accessor == Get("Place")
  {
  }

  /** Getters that read properties of a length other than `n` write no
    * field of length `|prefix| + n`. */
  lemma FieldsNotOfLength(prefix: string, gs: seq<Getter>, props: seq<string>, n: nat)
    requires |gs| == |props|
    requires forall k :: 0 <= k < |gs| ==>
      props[k] != [] && |props[k]| != n && gs[k].accessor == Get(props[k]) && gs[k].spec.name == ""
    requires forall i :: 0 <= i < |gs| ==> GoodMethod(gs[i].accessor)
    ensures forall k :: 0 <= k < |gs| ==> |FieldNames(prefix, gs)[k]| != |prefix| + n
  {
    forall k | 0 <= k < |gs|
      ensures |FieldNames(prefix, gs)[k]| != |prefix| + n
    {
      FieldNameLength(prefix, props[k]);
    }
  }

  /** Reference getters that read properties of a length other than `n`
    * write no field of length `|prefix| + n`. */
  lemma RefsNotOfLength(prefix: string, rs: seq<RefGetter>, props: seq<string>, n: nat)
    requires |rs| == |props|
    requires forall k :: 0 <= k < |rs| ==> props[k] != [] && |props[k]| != n && rs[k].accessor == Get(props[k])
    requires forall i :: 0 <= i < |rs| ==> GoodMethod(rs[i].accessor)
    ensures forall k :: 0 <= k < |rs| ==> |RefNames(prefix, rs)[k]| != |prefix| + n
  {
    forall k | 0 <= k < |rs|
      ensures |RefNames(prefix, rs)[k]| != |prefix| + n
    {
      FieldNameLength(prefix, props[k]);
    }
  }

  /** No corporate getter writes a field named like the description. */
  lemma CorporateFieldNames(c: CorporateData)
    requires CorporateIndexable(c)
    ensures forall k :: 0 <= k < |CorporateGetters(c)| ==>
      |FieldNames("Corporate.", CorporateGetters(c))[k]| != |"Corporate." + "description"|
    ensures forall k :: 0 <= k < |CorporateRefs(c)| ==>
      |RefNames("Corporate.", CorporateRefs(c))[k]| != |"Corporate." + "description"|
  {
    var gs, rs := CorporateGetters(c), CorporateRefs(c);
    CorporateAccessors(c);
    var props := ["MappedIds", "Name", "DateOfEstablishment", "DateOfTermination", "Homepage", "AlternateNames"];
    var refProps := ["Parent", "Place"];
    assert |props[0]| == 9 && |props[1]| == 4 && |props[2]| == 19 && |props[3]| == 17 && |props[4]| == 8 && |props[5]| == 14;
    assert |refProps[0]| == 6 && |refProps[1]| == 5;
    FieldsNotOfLength("Corporate.", gs, props, 11);
    RefsNotOfLength("Corporate.", rs, refProps, 11);
  }

  /** `Corporate` has no description getter: no corporate document holds the
    * "Corporate.description" field the corporate suggestion searches. */
  lemma CorporateDescriptionNeverIndexed(c: CorporateData)
    requires CorporateIndexable(c)
    ensures forall i :: 0 <= i < |CorporateDocument(c)| && CorporateDocument(c)[i].Some? ==>
      CorporateDocument(c)[i].value.name != "Corporate." + "description"
  {
    var gs, rs := CorporateGetters(c), CorporateRefs(c);
    var pre := "Corporate" + ".";
    assert pre == "Corporate.";
    CorporateFieldNames(c);
    assert forall k :: 0 <= k < |gs| ==> |FieldNames(pre, gs)[k]| != |"Corporate." + "description"|;
    assert forall k :: 0 <= k < |rs| ==> |RefNames(pre, rs)[k]| != |"Corporate." + "description"|;
    NoFieldOfLength(EntityPackage + "Corporate", "Corporate", gs, rs, "Corporate." + "description");
  }

  /** A document holds no field whose name is longer or shorter than every
    * name its getters write and than the class-name field. */
  lemma NoFieldOfLength(className: string, simpleName: string, gs: seq<Getter>, rs: seq<RefGetter>, n: string)
    requires AllGood(gs, rs)
    requires |ObjectClassField| != |n|
    requires forall k :: 0 <= k < |gs| ==> |FieldNames(simpleName + ".", gs)[k]| != |n|
    requires forall k :: 0 <= k < |rs| ==> |RefNames(simpleName + ".", rs)[k]| != |n|
    ensures forall i :: 0 <= i < |DocumentOf(className, simpleName, gs, rs)| && DocumentOf(className, simpleName, gs, rs)[i].Some? ==>
      DocumentOf(className, simpleName, gs, rs)[i].value.name != n
  {
    DocumentNamed(className, simpleName, gs, rs);
    var names := FieldNames(simpleName + ".", gs) + RefNames(simpleName + ".", rs);
    assert forall x :: x in names ==> |x| != |n|;
  }
}
