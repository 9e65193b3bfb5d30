/** The annotations of `Place`, `Corporate` and `Person` as descriptor
  * tables for the document mapper, the documents they give, and
  * `IndexLookupService`, the provider that answers from the index. */
module EntityIndex {
  import opened Wrappers
  import opened JavaStrings
  import opened SchemeRegistry
  import opened IdTypes
  import opened Dates
  import opened Entities
  import opened Index
  import opened Aggregator
  import ObjectTools
  import IdTypeFieldAdapter
  import DateFieldAdapter

  /** `@Field(store = true)`, also the annotation of `getMappedIds`. */
  const Stored := FieldSpec("", true, false, true)
  /** `@Field(analyze = true, store = true)`. */
  const AnalyzedStored := FieldSpec("", true, true, true)
  /** `@Field(analyze = true)`. */
  const AnalyzedOnly := FieldSpec("", true, true, false)

  const EntityPackage := "org.mycore.lookup.api.entity."

  function TextContent(s: JString): Content
  {
    if s.Some? then Single(Text(s.value)) else Absent
  }

  /** A list of strings: each non-null element is a value. */
  function NamesContent(l: NameList): Content
  {
    if l.None? then Absent
    else Many(seq(|l.value|, i requires 0 <= i < |l.value| => if l.value[i].Some? then Some(Text(l.value[i].value)) else None))
  }

  /** Every id has a scheme, so that marshalling does not dereference null. */
  predicate HasSchemes(ids: seq<IdType>)
  {
    forall i :: 0 <= i < |ids| ==> ids[i].scheme.Some?
  }

  /** The ids through `IdTypeFieldAdapter`. */
  function IdsContent(ids: seq<IdType>): (r: Content)
    requires HasSchemes(ids)
    ensures r.Many? && |r.vs| == |ids|
    ensures forall i :: 0 <= i < |ids| ==> r.vs[i] == Some(Text(ToString(ids[i]).value))
  {
    Many(seq(|ids|, i requires 0 <= i < |ids| => Some(Text(IdTypeFieldAdapter.Marshal(Some(ids[i])).value))))
  }

  /** A date through `DateTemporalAccessorFieldAdapter`. */
  function DateContent(d: Option<PartialDate>): Content
    requires d.Some? ==> ValidDate(d.value)
  {
    if d.None? then Absent else Single(Text(DateFieldAdapter.Marshal(d).value))
  }

  /** An entity can be referenced: `buildReferenceId` marshals its first id,
    * and throws when it has none. */
  predicate Referable(ids: seq<IdType>)
  {
    |ids| > 0 && ids[0].scheme.Some?
  }

  function RefKey(simpleName: string, ids: seq<IdType>): Option<string>
    requires Referable(ids)
  {
    Some(ReferenceId(simpleName, ToString(ids[0]).value))
  }

  function IdGetter(ids: seq<IdType>): Getter
    requires HasSchemes(ids)
  {
    Getter(Get("MappedIds"), Stored, true, IdsContent(ids))
  }

  // ---- Place ----

  function PlaceGetters(p: PlaceData): (r: seq<Getter>)
    requires HasSchemes(p.mappedIds)
    ensures AllGood(r, [])
  {
    GoodGetter("MappedIds");
    GoodGetter("Name");
    GoodGetter("Description");
    GoodGetter("Homepage");
    GoodGetter("AlternateNames");
    [IdGetter(p.mappedIds),
     Getter(Get("Name"), AnalyzedStored, false, TextContent(p.name)),
     Getter(Get("Description"), AnalyzedStored, false, TextContent(p.description)),
     Getter(Get("Homepage"), Stored, false, TextContent(p.homepage)),
     Getter(Get("AlternateNames"), AnalyzedStored, false, NamesContent(p.alternateNames))]
  }

  function PlaceDocument(p: PlaceData): Document
    requires HasSchemes(p.mappedIds)
  {
    DocumentOf(EntityPackage + "Place", "Place", PlaceGetters(p), [])
  }

  // ---- Corporate ----

  predicate CorporateIndexable(c: CorporateData)
  {
    HasSchemes(c.mappedIds) &&
    (c.dateOfEstablishment.Some? ==> ValidDate(c.dateOfEstablishment.value)) &&
    (c.dateOfTermination.Some? ==> ValidDate(c.dateOfTermination.value)) &&
    (c.parent.Some? ==> Referable(c.parent.value.mappedIds)) &&
    (c.place.Some? ==> Referable(c.place.value.mappedIds))
  }

  function CorporateGetters(c: CorporateData): (r: seq<Getter>)
    requires CorporateIndexable(c)
    ensures forall i :: 0 <= i < |r| ==> GoodMethod(r[i].accessor)
  {
    GoodGetter("MappedIds");
    GoodGetter("Name");
    GoodGetter("DateOfEstablishment");
    GoodGetter("DateOfTermination");
    GoodGetter("Homepage");
    GoodGetter("AlternateNames");
    [IdGetter(c.mappedIds),
     Getter(Get("Name"), AnalyzedStored, false, TextContent(c.name)),
     Getter(Get("DateOfEstablishment"), Stored, false, DateContent(c.dateOfEstablishment)),
     Getter(Get("DateOfTermination"), Stored, false, DateContent(c.dateOfTermination)),
     Getter(Get("Homepage"), Stored, false, TextContent(c.homepage)),
     Getter(Get("AlternateNames"), AnalyzedStored, false, NamesContent(c.alternateNames))]
  }

  function CorporateRefs(c: CorporateData): (r: seq<RefGetter>)
    requires CorporateIndexable(c)
    ensures forall i :: 0 <= i < |r| ==> GoodMethod(r[i].accessor)
  {
    GoodGetter("Parent");
    GoodGetter("Place");
    [RefGetter(Get("Parent"), if c.parent.Some? then OneRef(RefKey("Corporate", c.parent.value.mappedIds)) else NoRef),
     RefGetter(Get("Place"), if c.place.Some? then OneRef(RefKey("Place", c.place.value.mappedIds)) else NoRef)]
  }

  function CorporateDocument(c: CorporateData): Document
    requires CorporateIndexable(c)
  {
    DocumentOf(EntityPackage + "Corporate", "Corporate", CorporateGetters(c), CorporateRefs(c))
  }

  // ---- Person ----

  predicate PersonIndexable(p: PersonData)
  {
    HasSchemes(p.mappedIds) &&
    (p.dateOfBirth.Some? ==> ValidDate(p.dateOfBirth.value)) &&
    (p.dateOfDeath.Some? ==> ValidDate(p.dateOfDeath.value)) &&
    (p.placeOfBirth.Some? ==> Referable(p.placeOfBirth.value.mappedIds)) &&
    (p.placeOfDeath.Some? ==> Referable(p.placeOfDeath.value.mappedIds)) &&
    (p.placeOfActivity.Some? ==>
      forall i :: 0 <= i < |p.placeOfActivity.value| ==> Referable(p.placeOfActivity.value[i].mappedIds))
  }

  /** The gender's adapter is not part of this model; `gender` stands for
    * what it marshals a gender to. */
  function PersonGetters(p: PersonData, gender: Gender -> Value): (r: seq<Getter>)
    requires PersonIndexable(p)
    ensures forall i :: 0 <= i < |r| ==> GoodMethod(r[i].accessor)
  {
    GoodGetter("MappedIds");
    GoodGetter("Gender");
    GoodGetter("Description");
    GoodGetter("DisplayName");
    GoodGetter("FamilyName");
    GoodGetter("GivenName");
    GoodGetter("DateOfBirth");
    GoodGetter("DateOfDeath");
    GoodGetter("AlternateNames");
    [IdGetter(p.mappedIds),
     Getter(Get("Gender"), Stored, false, if p.gender.Some? then Single(gender(p.gender.value)) else Absent),
     Getter(Get("Description"), AnalyzedStored, false, TextContent(p.description)),
     Getter(Get("DisplayName"), AnalyzedOnly, false, TextContent(DisplayName(p))),
     Getter(Get("FamilyName"), AnalyzedStored, false, TextContent(p.familyName)),
     Getter(Get("GivenName"), AnalyzedStored, false, TextContent(p.givenName)),
     Getter(Get("DateOfBirth"), Stored, false, DateContent(p.dateOfBirth)),
     Getter(Get("DateOfDeath"), Stored, false, DateContent(p.dateOfDeath)),
     Getter(Get("AlternateNames"), AnalyzedStored, false, NamesContent(p.alternateNames))]
  }

  function PlaceRef(place: Option<PlaceData>): RefContent
    requires place.Some? ==> Referable(place.value.mappedIds)
  {
    if place.Some? then OneRef(RefKey("Place", place.value.mappedIds)) else NoRef
  }

  function PersonRefs(p: PersonData): (r: seq<RefGetter>)
    requires PersonIndexable(p)
    ensures forall i :: 0 <= i < |r| ==> GoodMethod(r[i].accessor)
  {
    GoodGetter("PlaceOfBirth");
    GoodGetter("PlaceOfDeath");
    GoodGetter("PlaceOfActivity");
    var activity := if p.placeOfActivity.None? then NoRef
      else
        var ps := p.placeOfActivity.value;
        ManyRefs(seq(|ps|, i requires 0 <= i < |ps| => RefKey("Place", ps[i].mappedIds)));
    [RefGetter(Get("PlaceOfBirth"), PlaceRef(p.placeOfBirth)),
     RefGetter(Get("PlaceOfDeath"), PlaceRef(p.placeOfDeath)),
     RefGetter(Get("PlaceOfActivity"), activity)]
  }

  function PersonDocument(p: PersonData, gender: Gender -> Value): Document
    requires PersonIndexable(p)
  {
    DocumentOf(EntityPackage + "Person", "Person", PersonGetters(p, gender), PersonRefs(p))
  }

  // ---- field names ----

  /** The getter of a bean property: "get" and the property's name. */
  function Get(property: string): string
  {
    "get" + property
  }

  lemma GoodGetter(property: string)
    requires property != []
    ensures GoodMethod(Get(property))
  {
    assert Get(property)[..3] == "get";
  }

  /** A getter names the field after its property, first letter lower-cased. */
  lemma GetterName(prefix: string, property: string)
    requires property != []
    ensures GoodMethod(Get(property))
    ensures FieldName(prefix, Get(property), "") == prefix + [ToLowerAscii(property[0])] + property[1..]
  {
    ObjectTools.GetterSetterSameField(property);
  }

  /** The field a getter of a given property writes, spelled out. */
  lemma FieldOf(prefix: string, property: string, field: string)
    requires property != [] && field != [] && field[0] == ToLowerAscii(property[0]) && field[1..] == property[1..]
    ensures GoodMethod(Get(property)) && FieldName(prefix, Get(property), "") == prefix + field
  {
    GetterName(prefix, property);
    assert field == [field[0]] + field[1..];
  }

  // ---- keys ----

  /** The field every entity's ids are indexed under. */
  function IdsField(simpleName: string): string
  {
    simpleName + "." + "mappedIds"
  }

  lemma IdsFieldName(simpleName: string)
    ensures GoodMethod(Get("MappedIds")) && FieldName(simpleName + ".", Get("MappedIds"), "") == IdsField(simpleName)
  {
    FieldOf(simpleName + ".", "MappedIds", "mappedIds");
  }

  /** The key term of an entity with ids is its first id under
    * "<SimpleName>.mappedIds". */
  lemma KeyIsFirstId(simpleName: string, ids: seq<IdType>, gs: seq<Getter>)
    requires HasSchemes(ids) && |ids| > 0 && |gs| > 0 && gs[0] == IdGetter(ids)
    requires forall i :: 0 <= i < |gs| ==> GoodMethod(gs[i].accessor)
    ensures IdTerm(simpleName, gs) == Some(Term(IdsField(simpleName), ToString(ids[0]).value))
  {
    IdsFieldName(simpleName);
  }

  lemma IdEntries(prefix: string, name: string, ids: seq<IdType>, gs: seq<Getter>)
    requires HasSchemes(ids) && |gs| > 0 && gs[0] == IdGetter(ids)
    requires forall i :: 0 <= i < |gs| ==> GoodMethod(gs[i].accessor)
    requires FieldName(prefix, gs[0].accessor, "") == name
    ensures forall i :: 0 <= i < |ids| ==>
      Some(IndexableField(name, ToString(ids[i]).value, false, true)) in GetterEntries(prefix, gs)
  {
    var vs := IdsContent(ids).vs;
    var head := ManyEntries(Stored, name, vs);
    assert GetterEntries(prefix, gs) == head + GetterEntries(prefix, gs[1..]);
    forall i | 0 <= i < |ids|
      ensures Some(IndexableField(name, ToString(ids[i]).value, false, true)) in head
    {
      ManyEntriesHave(Stored, name, vs, i, ToString(ids[i]).value);
    }
  }

  /** Every id of an entity is in its document, so a term query on any of
    * them finds it. */
  lemma EveryIdIndexed(className: string, simpleName: string, ids: seq<IdType>, gs: seq<Getter>, refs: seq<RefGetter>)
    requires HasSchemes(ids) && |gs| > 0 && gs[0] == IdGetter(ids)
    requires AllGood(gs, refs)
    ensures forall i :: 0 <= i < |ids| ==>
      Matches(DocumentOf(className, simpleName, gs, refs), Term(IdsField(simpleName), ToString(ids[i]).value))
  {
    IdsFieldName(simpleName);
    var prefix := simpleName + ".";
    var name := IdsField(simpleName);
    IdEntries(prefix, name, ids, gs);
    var g := GetterEntries(prefix, gs);
    var d := DocumentOf(className, simpleName, gs, refs);
    assert forall k :: 0 <= k < |g| ==> d[1 + k] == g[k];
    forall i | 0 <= i < |ids|
      ensures Matches(d, Term(name, ToString(ids[i]).value))
    {
      var k :| 0 <= k < |g| && g[k] == Some(IndexableField(name, ToString(ids[i]).value, false, true));
      assert d[1 + k] == g[k];
    }
  }

  /** Every place field is an indexed `String`, so a place's document can
    * always be written. */
  lemma PlaceWritable(p: PlaceData)
    requires HasSchemes(p.mappedIds)
    ensures Writable(PlaceDocument(p))
  {
    var gs := PlaceGetters(p);
    forall i | 0 <= i < |gs|
      ensures TextOnly(gs[i])
    {
      if i == 4 && p.alternateNames.Some? {
        var vs := gs[4].content.vs;
        assert forall k :: 0 <= k < |vs| && vs[k].Some? ==> vs[k].value.Text?;
      }
    }
    DocumentWritable(EntityPackage + "Place", "Place", gs, []);
  }

  /** A person's document can be written exactly when the gender, if
    * present, marshals to a `String`; otherwise `buildIndexableField`
    * gives null for it and the writer throws. */
  lemma PersonWritable(p: PersonData, gender: Gender -> Value)
    requires PersonIndexable(p)
    ensures Writable(PersonDocument(p, gender)) <==> (p.gender.Some? ==> gender(p.gender.value).Text?)
  {
    var gs := PersonGetters(p, gender);
    if p.gender.Some? && !gender(p.gender.value).Text? {
      assert gs[1].content == Single(gender(p.gender.value));
      SecondGetterUnwritable(EntityPackage + "Person", "Person", gs, PersonRefs(p));
    } else {
      PersonTextOnly(p, gender);
      DocumentWritable(EntityPackage + "Person", "Person", gs, PersonRefs(p));
    }
  }

  lemma PersonTextOnly(p: PersonData, gender: Gender -> Value)
    requires PersonIndexable(p) && (p.gender.Some? ==> gender(p.gender.value).Text?)
    ensures var gs := PersonGetters(p, gender);
      forall i :: 0 <= i < |gs| ==> TextOnly(gs[i])
  {
    var gs := PersonGetters(p, gender);
    forall i | 0 <= i < |gs|
      ensures TextOnly(gs[i])
    {
      if i == 8 && p.alternateNames.Some? {
        var vs := gs[8].content.vs;
        assert forall k :: 0 <= k < |vs| && vs[k].Some? ==> vs[k].value.Text?;
      }
    }
  }

  /** A single non-`String` value of the second getter puts a null entry
    * into the document. */
  lemma SecondGetterUnwritable(className: string, simpleName: string, gs: seq<Getter>, refs: seq<RefGetter>)
    requires AllGood(gs, refs) && |gs| >= 2
    requires gs[1].content.Single? && !gs[1].content.v.Text?
    ensures !Writable(DocumentOf(className, simpleName, gs, refs))
  {
    var prefix := simpleName + ".";
    var e0 := EntriesOf(gs[0].spec, FieldName(prefix, gs[0].accessor, gs[0].spec.name), gs[0].content);
    var e1 := EntriesOf(gs[1].spec, FieldName(prefix, gs[1].accessor, gs[1].spec.name), gs[1].content);
    assert e1 == [None];
    assert gs[1..][0] == gs[1] && gs[1..][1..] == gs[2..];
    assert GetterEntries(prefix, gs) == e0 + (e1 + GetterEntries(prefix, gs[2..]));
    var d := DocumentOf(className, simpleName, gs, refs);
    assert d[1 + |e0|] == None;
  }

  /** A place is found by each of its ids, and its key is its first id. */
  lemma PlaceIndexedById(p: PlaceData)
    requires HasSchemes(p.mappedIds)
    ensures |p.mappedIds| > 0 ==>
      IdTerm("Place", PlaceGetters(p)) == Some(Term(IdsField("Place"), ToString(p.mappedIds[0]).value))
    ensures forall i :: 0 <= i < |p.mappedIds| ==>
      Matches(PlaceDocument(p), Term(IdsField("Place"), ToString(p.mappedIds[i]).value))
  {
    var gs := PlaceGetters(p);
    assert gs[0] == IdGetter(p.mappedIds);
    if |p.mappedIds| > 0 {
      KeyIsFirstId("Place", p.mappedIds, gs);
    }
    EveryIdIndexed(EntityPackage + "Place", "Place", p.mappedIds, gs, []);
  }

  /** A corporate body is found by each of its ids, and its key is its
    * first id. */
  lemma CorporateIndexedById(c: CorporateData)
    requires CorporateIndexable(c)
    ensures |c.mappedIds| > 0 ==>
      IdTerm("Corporate", CorporateGetters(c)) == Some(Term(IdsField("Corporate"), ToString(c.mappedIds[0]).value))
    ensures forall i :: 0 <= i < |c.mappedIds| ==>
      Matches(CorporateDocument(c), Term(IdsField("Corporate"), ToString(c.mappedIds[i]).value))
  {
    var gs := CorporateGetters(c);
    assert gs[0] == IdGetter(c.mappedIds);
    if |c.mappedIds| > 0 {
      KeyIsFirstId("Corporate", c.mappedIds, gs);
    }
    EveryIdIndexed(EntityPackage + "Corporate", "Corporate", c.mappedIds, gs, CorporateRefs(c));
  }

  /** A person is found by each of their ids, and the key is the first id. */
  lemma PersonIndexedById(p: PersonData, gender: Gender -> Value)
    requires PersonIndexable(p)
    ensures |p.mappedIds| > 0 ==>
      IdTerm("Person", PersonGetters(p, gender)) == Some(Term(IdsField("Person"), ToString(p.mappedIds[0]).value))
    ensures forall i :: 0 <= i < |p.mappedIds| ==>
      Matches(PersonDocument(p, gender), Term(IdsField("Person"), ToString(p.mappedIds[i]).value))
  {
    var gs := PersonGetters(p, gender);
    assert gs[0] == IdGetter(p.mappedIds);
    if |p.mappedIds| > 0 {
      KeyIsFirstId("Person", p.mappedIds, gs);
    }
    EveryIdIndexed(EntityPackage + "Person", "Person", p.mappedIds, gs, PersonRefs(p));
  }
}
