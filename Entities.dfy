/** The authority records (`Place`, `Corporate`, `Person`) and their
  * field-level `merge`. Each record is a value (`PlaceData`, ...) with a
  * merge specification; the classes of the same name hold the fields and
  * merge in place. A merge that dereferences null stops after the fields it
  * has already set: the specification then says which fields changed and
  * `...MergeFails` says that it threw. */
module Entities {
  import opened Wrappers
  import opened JavaStrings
  import opened IdTypes
  import opened Dates
  import opened Sequences
  import MappedIds

  datatype Gender = Male | Female

  /** An alternate-name list: the list may be null, and so may its entries. */
  type NameList = Option<seq<JString>>

  datatype PlaceData = PlaceData(
    mappedIds: seq<IdType>,
    name: JString,
    description: JString,
    homepage: JString,
    alternateNames: NameList)

  datatype CorporateData = CorporateData(
    mappedIds: seq<IdType>,
    name: JString,
    dateOfEstablishment: Option<PartialDate>,
    dateOfTermination: Option<PartialDate>,
    homepage: JString,
    parent: Option<CorporateData>,
    place: Option<PlaceData>,
    alternateNames: NameList)

  datatype PersonData = PersonData(
    mappedIds: seq<IdType>,
    gender: Option<Gender>,
    description: JString,
    familyName: JString,
    givenName: JString,
    dateOfBirth: Option<PartialDate>,
    dateOfDeath: Option<PartialDate>,
    placeOfBirth: Option<PlaceData>,
    placeOfDeath: Option<PlaceData>,
    placeOfActivity: Option<seq<PlaceData>>,
    alternateNames: NameList)

  /** `Optional.ofNullable(list).orElse(Collections.emptyList())`. */
  function NamesOrEmpty(l: NameList): seq<JString>
  {
    if l.Some? then l.value else []
  }

  /** `stream.noneMatch(a -> a.equalsIgnoreCase(key))`, scanning in order:
    * a null element reached before any match is dereferenced (None). */
  function NoneMatchIgnoreCase(cands: seq<JString>, key: JString): (r: Option<bool>)
    ensures r == Some(true) <==> forall k :: 0 <= k < |cands| ==> cands[k].Some? && !EqualsIgnoreCaseJ(cands[k].value, key)
    ensures r == Some(false) ==> exists k :: 0 <= k < |cands| && cands[k].Some? && EqualsIgnoreCaseJ(cands[k].value, key)
    ensures r.None? ==> exists k :: 0 <= k < |cands| && cands[k].None?
  {
    if cands == [] then Some(true)
    else if cands[0].None? then None
    else if EqualsIgnoreCaseJ(cands[0].value, key) then Some(false)
    else
      var r := NoneMatchIgnoreCase(cands[1..], key);
      assert forall k :: 1 <= k < |cands| ==> cands[k] == cands[1..][k - 1];
      r
  }

  // ---- Place ----

  /** The name test of `Place.merge`: the other's name against the merged
    * name, then the receiver's alternates. */
  function PlaceAddName(r: PlaceData, o: PlaceData): Option<bool>
  {
    NoneMatchIgnoreCase([r.name.OrElse(o.name)] + NamesOrEmpty(r.alternateNames), o.name)
  }

  predicate PlaceMergeFails(r: PlaceData, o: PlaceData)
  {
    PlaceAddName(r, o).None?
  }

  /** `Place.merge`: the receiver's non-null name, description and homepage
    * win; the other's name (then its alternates not yet present) is appended
    * only when the name is new. The ids are not touched. */
  function PlaceMerged(r: PlaceData, o: PlaceData): (merged: PlaceData)
    ensures merged.mappedIds == r.mappedIds
    ensures NamesOrEmpty(r.alternateNames) <= NamesOrEmpty(merged.alternateNames)
    ensures merged.name.Some? <==> r.name.Some? || o.name.Some?
  {
    var m := r.(name := r.name.OrElse(o.name), description := r.description.OrElse(o.description),
                homepage := r.homepage.OrElse(o.homepage));
    if PlaceAddName(r, o) == Some(true) then
      var ans := NamesOrEmpty(r.alternateNames) + [o.name];
      m.(alternateNames := Some(ans + NotIn(NamesOrEmpty(o.alternateNames), ans)))
    else m
  }

  /** Scalars: the receiver's value when non-null, else the other's; ids
    * untouched. */
  lemma PlaceMergeFields(r: PlaceData, o: PlaceData)
    ensures var m := PlaceMerged(r, o);
      m.mappedIds == r.mappedIds &&
      (r.name.Some? ==> m.name == r.name) && (r.name.None? ==> m.name == o.name) &&
      (r.description.Some? ==> m.description == r.description) && (r.description.None? ==> m.description == o.description) &&
      (r.homepage.Some? ==> m.homepage == r.homepage) && (r.homepage.None? ==> m.homepage == o.homepage)
  {
  }

  /** The other's name is added exactly when it equals, ignoring case,
    * neither the merged name nor a receiver alternate; then the list is the
    * receiver's alternates, that name, and the other's alternates not yet
    * in it; otherwise the alternates stay exactly as they were. */
  lemma PlaceMergeAlternates(r: PlaceData, o: PlaceData)
    requires !PlaceMergeFails(r, o)
    ensures var m := PlaceMerged(r, o);
      var known := [m.name] + NamesOrEmpty(r.alternateNames);
      var added := forall k :: 0 <= k < |known| ==> known[k].Some? && !EqualsIgnoreCaseJ(known[k].value, o.name);
      (added ==> m.alternateNames == Some(NamesOrEmpty(r.alternateNames) + [o.name] +
                    NotIn(NamesOrEmpty(o.alternateNames), NamesOrEmpty(r.alternateNames) + [o.name]))) &&
      (!added ==> m.alternateNames == r.alternateNames)
  {
    assert [PlaceMerged(r, o).name] + NamesOrEmpty(r.alternateNames) == [r.name.OrElse(o.name)] + NamesOrEmpty(r.alternateNames);
  }

  /** After a merge that did not throw, the other's name is known: it equals,
    * ignoring case, the name or one of the alternates; and when it was
    * added, none of the other's alternates is lost. */
  lemma PlaceMergeAbsorbsName(r: PlaceData, o: PlaceData)
    requires !PlaceMergeFails(r, o) && o.name.Some?
    ensures var m := PlaceMerged(r, o);
      var known := [m.name] + NamesOrEmpty(m.alternateNames);
      exists k :: 0 <= k < |known| && known[k].Some? && EqualsIgnoreCaseJ(known[k].value, o.name)
    ensures PlaceAddName(r, o) == Some(true) ==>
      forall k :: 0 <= k < |NamesOrEmpty(o.alternateNames)| ==>
        NamesOrEmpty(o.alternateNames)[k] in NamesOrEmpty(PlaceMerged(r, o).alternateNames)
  {
    var m := PlaceMerged(r, o);
    var known := [m.name] + NamesOrEmpty(m.alternateNames);
    EqualsIgnoreCaseIsEquivalence(o.name.value, o.name.value, o.name.value);
    if PlaceAddName(r, o) == Some(true) {
      var ans := NamesOrEmpty(r.alternateNames) + [o.name];
      assert NamesOrEmpty(m.alternateNames) == ans + NotIn(NamesOrEmpty(o.alternateNames), ans);
      assert known[1 + |ans| - 1] == o.name;
    } else {
      assert PlaceAddName(r, o).Some?;
      assert !PlaceAddName(r, o).value;
      var cands := [r.name.OrElse(o.name)] + NamesOrEmpty(r.alternateNames);
      var k :| 0 <= k < |cands| && cands[k].Some? && EqualsIgnoreCaseJ(cands[k].value, o.name);
      assert known[k] == cands[k];
    }
  }

  /** Merging a named place with itself changes nothing. */
  lemma PlaceSelfMerge(r: PlaceData)
    requires r.name.Some?
    ensures !PlaceMergeFails(r, r) && PlaceMerged(r, r) == r
  {
    EqualsIgnoreCaseIsEquivalence(r.name.value, r.name.value, r.name.value);
  }

  /** Both names null: the test dereferences the null merged name. */
  lemma PlaceMergeNullNames(r: PlaceData, o: PlaceData)
    requires r.name.None? && o.name.None?
    ensures PlaceMergeFails(r, o)
  {
  }

  // ---- Corporate ----

  function CorporateAddName(r: CorporateData, o: CorporateData): Option<bool>
  {
    NoneMatchIgnoreCase([r.name.OrElse(o.name)] + NamesOrEmpty(r.alternateNames), o.name)
  }

  predicate CorporateMergeFails(r: CorporateData, o: CorporateData)
  {
    CorporateAddName(r, o).None?
  }

  /** `Corporate.merge`: as for places, over name, both dates, homepage,
    * parent and place. */
  function CorporateMerged(r: CorporateData, o: CorporateData): (merged: CorporateData)
    ensures merged.mappedIds == r.mappedIds
    ensures NamesOrEmpty(r.alternateNames) <= NamesOrEmpty(merged.alternateNames)
    ensures merged.name.Some? <==> r.name.Some? || o.name.Some?
  {
    var m := r.(name := r.name.OrElse(o.name),
                dateOfEstablishment := r.dateOfEstablishment.OrElse(o.dateOfEstablishment),
                dateOfTermination := r.dateOfTermination.OrElse(o.dateOfTermination),
                homepage := r.homepage.OrElse(o.homepage),
                parent := r.parent.OrElse(o.parent),
                place := r.place.OrElse(o.place));
    if CorporateAddName(r, o) == Some(true) then
      var ans := NamesOrEmpty(r.alternateNames) + [o.name];
      m.(alternateNames := Some(ans + NotIn(NamesOrEmpty(o.alternateNames), ans)))
    else m
  }

  lemma CorporateMergeFields(r: CorporateData, o: CorporateData)
    ensures var m := CorporateMerged(r, o);
      m.mappedIds == r.mappedIds &&
      (r.name.Some? ==> m.name == r.name) && (r.name.None? ==> m.name == o.name) &&
      (r.dateOfEstablishment.Some? ==> m.dateOfEstablishment == r.dateOfEstablishment) &&
      (r.dateOfEstablishment.None? ==> m.dateOfEstablishment == o.dateOfEstablishment) &&
      (r.dateOfTermination.Some? ==> m.dateOfTermination == r.dateOfTermination) &&
      (r.dateOfTermination.None? ==> m.dateOfTermination == o.dateOfTermination) &&
      (r.homepage.Some? ==> m.homepage == r.homepage) && (r.homepage.None? ==> m.homepage == o.homepage) &&
      (r.parent.Some? ==> m.parent == r.parent) && (r.parent.None? ==> m.parent == o.parent) &&
      (r.place.Some? ==> m.place == r.place) && (r.place.None? ==> m.place == o.place)
  {
  }

  /** A receiver without a name adopts the other's (non-null) name and keeps
    * its alternates, dropping the other's. */
  lemma CorporateAdoptsName(r: CorporateData, o: CorporateData)
    requires r.name.None? && o.name.Some?
    ensures !CorporateMergeFails(r, o)
    ensures CorporateMerged(r, o).name == o.name
    ensures CorporateMerged(r, o).alternateNames == r.alternateNames
  {
    EqualsIgnoreCaseIsEquivalence(o.name.value, o.name.value, o.name.value);
  }

  /** A null name on the other side of a named receiver with non-null
    * alternates is appended as a null entry. */
  lemma CorporateAppendsNullName(r: CorporateData, o: CorporateData)
    requires r.name.Some? && o.name.None?
    requires forall k :: 0 <= k < |NamesOrEmpty(r.alternateNames)| ==> NamesOrEmpty(r.alternateNames)[k].Some?
    ensures !CorporateMergeFails(r, o)
    ensures var alts := NamesOrEmpty(CorporateMerged(r, o).alternateNames);
      |alts| > |NamesOrEmpty(r.alternateNames)| && alts[|NamesOrEmpty(r.alternateNames)|] == None
  {
  }

  /** Alternates when the name is added, and unchanged otherwise. */
  lemma CorporateMergeAlternates(r: CorporateData, o: CorporateData)
    requires !CorporateMergeFails(r, o)
    ensures var m := CorporateMerged(r, o);
      var known := [m.name] + NamesOrEmpty(r.alternateNames);
      var added := forall k :: 0 <= k < |known| ==> known[k].Some? && !EqualsIgnoreCaseJ(known[k].value, o.name);
      (added ==> m.alternateNames == Some(NamesOrEmpty(r.alternateNames) + [o.name] +
                    NotIn(NamesOrEmpty(o.alternateNames), NamesOrEmpty(r.alternateNames) + [o.name]))) &&
      (!added ==> m.alternateNames == r.alternateNames)
  {
    assert [CorporateMerged(r, o).name] + NamesOrEmpty(r.alternateNames) == [r.name.OrElse(o.name)] + NamesOrEmpty(r.alternateNames);
  }

  /** Two null names: the test dereferences null. */
  lemma CorporateMergeNullNames(r: CorporateData, o: CorporateData)
    requires r.name.None? && o.name.None?
    ensures CorporateMergeFails(r, o)
  {
  }

  // ---- Person ----

  /** `getDisplayName`: "family, given" when both are set, else null. */
  function DisplayName(p: PersonData): (r: JString)
    ensures r.Some? <==> p.familyName.Some? && p.givenName.Some?
    ensures r.Some? ==> StartsWith(r.value, p.familyName.value + ", ")
  {
    if p.familyName.Some? && p.givenName.Some? then Some(p.familyName.value + ", " + p.givenName.value) else None
  }

  /** `Objects.deepEquals(a, b) || exactly one is null`. */
  predicate Compatible<T(==)>(a: Option<T>, b: Option<T>)
  {
    a == b || a.None? || b.None?
  }

  /** `Person.isProbablySameAs`: the id test, or the same family and given
    * names (case-sensitive, null equal to null) with compatible gender and
    * date of birth. */
  predicate PersonIsProbablySameAs(p: PersonData, q: PersonData)
    requires MappedIds.SchemesPresent(q.mappedIds)
    ensures p == q ==> PersonIsProbablySameAs(p, q)
    ensures PersonIsProbablySameAs(p, q) && !MappedIds.IsProbablySameAs(p.mappedIds, q.mappedIds) ==>
      p.familyName == q.familyName && p.givenName == q.givenName
  {
    MappedIds.IsProbablySameAs(p.mappedIds, q.mappedIds) ||
    (p.familyName == q.familyName && p.givenName == q.givenName &&
     Compatible(p.gender, q.gender) && Compatible(p.dateOfBirth, q.dateOfBirth))
  }

  lemma PersonIsProbablySameAsSymmetric(p: PersonData, q: PersonData)
    requires MappedIds.SchemesPresent(p.mappedIds) && MappedIds.SchemesPresent(q.mappedIds)
    ensures PersonIsProbablySameAs(p, q) <==> PersonIsProbablySameAs(q, p)
  {
    MappedIds.IsProbablySameAsSymmetric(p.mappedIds, q.mappedIds);
  }

  /** Without shared ids, persons match on names alone only when neither
    * gender nor birth date contradicts. */
  lemma PersonNamesMatch(p: PersonData, q: PersonData)
    requires MappedIds.SchemesPresent(q.mappedIds)
    requires !MappedIds.IsProbablySameAs(p.mappedIds, q.mappedIds)
    ensures PersonIsProbablySameAs(p, q) <==>
              p.familyName == q.familyName && p.givenName == q.givenName &&
              (p.gender.Some? && q.gender.Some? ==> p.gender == q.gender) &&
              (p.dateOfBirth.Some? && q.dateOfBirth.Some? ==> p.dateOfBirth == q.dateOfBirth)
  {
  }

  /** The candidates the other's name is checked against: the receiver's
    * display name when it has one, then its alternates. */
  function PersonNameCandidates(r: PersonData): seq<JString>
  {
    (if DisplayName(r).Some? then [DisplayName(r)] else []) + NamesOrEmpty(r.alternateNames)
  }

  /** The `addName` test: vacuously true when the other lacks a family or
    * given name (no candidate is dereferenced then). */
  function PersonAddName(r: PersonData, o: PersonData): Option<bool>
  {
    if DisplayName(o).Some? then NoneMatchIgnoreCase(PersonNameCandidates(r), DisplayName(o)) else Some(true)
  }

  predicate PersonMergeFails(r: PersonData, o: PersonData)
  {
    PersonAddName(r, o).None?
  }

  /** The name `merge` appends: a null part prints as "null". */
  function PersonAppendedName(o: PersonData): string
  {
    ConcatText(o.familyName) + ", " + ConcatText(o.givenName)
  }

  /** The alternates `merge` computes before `distinct`. */
  function PersonCollectedNames(r: PersonData, o: PersonData): seq<JString>
  {
    var rAlts := NamesOrEmpty(r.alternateNames);
    var ans := rAlts + Distinct(NotIn(NamesOrEmpty(o.alternateNames), rAlts));
    if PersonAddName(r, o) == Some(true) then ans + [Some(PersonAppendedName(o))] else ans
  }

  /** `Person.merge`: non-null scalars of the receiver win, the other's ids
    * not yet present are appended, names never change; the alternates are
    * replaced by the distinct collected names unless those are empty. */
  function PersonMerged(r: PersonData, o: PersonData): (merged: PersonData)
    ensures merged.familyName == r.familyName && merged.givenName == r.givenName
    ensures r.mappedIds <= merged.mappedIds
    ensures merged.alternateNames.None? ==> r.alternateNames.None? || r.alternateNames == Some([])
  {
    var m := PersonScalarsMerged(r, o);
    if PersonMergeFails(r, o) then m
    else
      var ans := PersonCollectedNames(r, o);
      if ans == [] then m else m.(alternateNames := Some(Distinct(ans)))
  }

  /** The part of `Person.merge` done before the name test. */
  function PersonScalarsMerged(r: PersonData, o: PersonData): PersonData
  {
    r.(gender := r.gender.OrElse(o.gender),
                description := r.description.OrElse(o.description),
                dateOfBirth := r.dateOfBirth.OrElse(o.dateOfBirth),
                dateOfDeath := r.dateOfDeath.OrElse(o.dateOfDeath),
                placeOfBirth := r.placeOfBirth.OrElse(o.placeOfBirth),
                placeOfDeath := r.placeOfDeath.OrElse(o.placeOfDeath),
                placeOfActivity := r.placeOfActivity.OrElse(o.placeOfActivity),
                mappedIds := r.mappedIds + NotIn(o.mappedIds, r.mappedIds))
  }

  /** Names are never changed, scalars are the receiver's when non-null. */
  lemma PersonMergeFields(r: PersonData, o: PersonData)
    ensures var m := PersonMerged(r, o);
      m.familyName == r.familyName && m.givenName == r.givenName &&
      (r.gender.Some? ==> m.gender == r.gender) && (r.gender.None? ==> m.gender == o.gender) &&
      (r.description.Some? ==> m.description == r.description) && (r.description.None? ==> m.description == o.description) &&
      (r.dateOfBirth.Some? ==> m.dateOfBirth == r.dateOfBirth) && (r.dateOfBirth.None? ==> m.dateOfBirth == o.dateOfBirth) &&
      (r.dateOfDeath.Some? ==> m.dateOfDeath == r.dateOfDeath) && (r.dateOfDeath.None? ==> m.dateOfDeath == o.dateOfDeath) &&
      (r.placeOfBirth.Some? ==> m.placeOfBirth == r.placeOfBirth) && (r.placeOfBirth.None? ==> m.placeOfBirth == o.placeOfBirth) &&
      (r.placeOfDeath.Some? ==> m.placeOfDeath == r.placeOfDeath) && (r.placeOfDeath.None? ==> m.placeOfDeath == o.placeOfDeath) &&
      (r.placeOfActivity.Some? ==> m.placeOfActivity == r.placeOfActivity) &&
      (r.placeOfActivity.None? ==> m.placeOfActivity == o.placeOfActivity)
  {
  }

  /** Ids: the receiver's, in order, then every id of the other that was not
    * among them; no id is lost and, from duplicate-free lists, none is
    * doubled. The ids are merged even when the name test later throws. */
  lemma PersonMergeIds(r: PersonData, o: PersonData)
    ensures var ids := PersonMerged(r, o).mappedIds;
      ids[..|r.mappedIds|] == r.mappedIds &&
      (forall k :: 0 <= k < |o.mappedIds| ==> o.mappedIds[k] in ids) &&
      (forall k :: 0 <= k < |ids| ==> ids[k] in r.mappedIds || ids[k] in o.mappedIds)
    ensures NoDuplicates(r.mappedIds) && NoDuplicates(o.mappedIds) ==> NoDuplicates(PersonMerged(r, o).mappedIds)
  {
    var ids := PersonMerged(r, o).mappedIds;
    assert ids == r.mappedIds + NotIn(o.mappedIds, r.mappedIds);
    forall k | 0 <= k < |o.mappedIds| ensures o.mappedIds[k] in ids {
      if o.mappedIds[k] !in r.mappedIds {
        assert o.mappedIds[k] in NotIn(o.mappedIds, r.mappedIds);
      }
    }
    if NoDuplicates(r.mappedIds) && NoDuplicates(o.mappedIds) {
      NotInNoDuplicates(o.mappedIds, r.mappedIds);
      ConcatNoDuplicates(r.mappedIds, NotIn(o.mappedIds, r.mappedIds));
    }
  }

  /** When the alternates are replaced they are the distinct collected names. */
  lemma PersonMergedAlternatesAre(r: PersonData, o: PersonData)
    requires !PersonMergeFails(r, o) && PersonCollectedNames(r, o) != []
    ensures PersonMerged(r, o).alternateNames == Some(Distinct(PersonCollectedNames(r, o)))
  {
  }

  /** When the alternates are replaced they hold no duplicate and keep every
    * alternate of both sides, and the other's "family, given" when the name
    * test passed. */
  lemma PersonMergeAlternates(r: PersonData, o: PersonData)
    requires !PersonMergeFails(r, o) && PersonCollectedNames(r, o) != []
    ensures var alts := PersonMerged(r, o).alternateNames;
      alts.Some? && NoDuplicates(alts.value) &&
      (forall k :: 0 <= k < |NamesOrEmpty(r.alternateNames)| ==> NamesOrEmpty(r.alternateNames)[k] in alts.value) &&
      (forall k :: 0 <= k < |NamesOrEmpty(o.alternateNames)| ==> NamesOrEmpty(o.alternateNames)[k] in alts.value) &&
      (PersonAddName(r, o) == Some(true) ==> Some(PersonAppendedName(o)) in alts.value)
  {
    PersonMergedAlternatesAre(r, o);
    var rAlts := NamesOrEmpty(r.alternateNames);
    var oAlts := NamesOrEmpty(o.alternateNames);
    var tail := if PersonAddName(r, o) == Some(true) then [Some(PersonAppendedName(o))] else [];
    assert PersonCollectedNames(r, o) == rAlts + Distinct(NotIn(oAlts, rAlts)) + tail;
    CollectedNamesKept(rAlts, oAlts, tail);
    if PersonAddName(r, o) == Some(true) {
      assert tail[0] == Some(PersonAppendedName(o));
    }
  }

  /** Conversely, the replaced alternates hold nothing but alternates of
    * either side and the appended name: the other's "family, given" is
    * among them only when the name test passed or it already was an
    * alternate of one side (an exact equal fails the test but stays). */
  lemma PersonMergeAlternatesOnly(r: PersonData, o: PersonData)
    requires !PersonMergeFails(r, o) && PersonCollectedNames(r, o) != []
    ensures var alts := PersonMerged(r, o).alternateNames.value;
      forall x :: x in alts ==>
        x in NamesOrEmpty(r.alternateNames) || x in NamesOrEmpty(o.alternateNames) ||
        (PersonAddName(r, o) == Some(true) && x == Some(PersonAppendedName(o)))
    ensures Some(PersonAppendedName(o)) in PersonMerged(r, o).alternateNames.value ==>
      PersonAddName(r, o) == Some(true) ||
      Some(PersonAppendedName(o)) in NamesOrEmpty(r.alternateNames) ||
      Some(PersonAppendedName(o)) in NamesOrEmpty(o.alternateNames)
  {
    PersonMergedAlternatesAre(r, o);
    var rAlts := NamesOrEmpty(r.alternateNames);
    var oAlts := NamesOrEmpty(o.alternateNames);
    var tail := if PersonAddName(r, o) == Some(true) then [Some(PersonAppendedName(o))] else [];
    assert PersonCollectedNames(r, o) == rAlts + Distinct(NotIn(oAlts, rAlts)) + tail;
    CollectedNamesFrom(rAlts, oAlts, tail);
  }

  /** Dropping duplicates of the collected names adds nothing new. */
  lemma CollectedNamesFrom<T>(xs: seq<T>, ys: seq<T>, tail: seq<T>)
    ensures forall x :: x in Distinct(xs + Distinct(NotIn(ys, xs)) + tail) ==> x in xs || x in ys || x in tail
  {
    var extra := Distinct(NotIn(ys, xs));
    DistinctOnly(xs + extra + tail);
    DistinctOnly(NotIn(ys, xs));
    NotInOnly(ys, xs);
  }

  lemma DistinctOnly<T>(xs: seq<T>)
    ensures forall x :: x in Distinct(xs) ==> x in xs
  {
    forall x | x in Distinct(xs)
      ensures x in xs
    {
      var i :| 0 <= i < |Distinct(xs)| && Distinct(xs)[i] == x;
    }
  }

  lemma NotInOnly<T>(xs: seq<T>, ys: seq<T>)
    ensures forall x :: x in NotIn(xs, ys) ==> x in xs
  {
    forall x | x in NotIn(xs, ys)
      ensures x in xs
    {
      var i :| 0 <= i < |NotIn(xs, ys)| && NotIn(xs, ys)[i] == x;
    }
  }

  /** Collecting the receiver's names, the other's new ones and a tail, then
    * dropping duplicates, loses none of them. */
  lemma CollectedNamesKept<T>(xs: seq<T>, ys: seq<T>, tail: seq<T>)
    ensures forall x :: x in xs ==> x in Distinct(xs + Distinct(NotIn(ys, xs)) + tail)
    ensures forall x :: x in ys ==> x in Distinct(xs + Distinct(NotIn(ys, xs)) + tail)
    ensures forall x :: x in tail ==> x in Distinct(xs + Distinct(NotIn(ys, xs)) + tail)
  {
    var extra := Distinct(NotIn(ys, xs));
    NewNamesCollected(xs, ys);
    AppendedKept(xs, extra, tail);
    DistinctKeepsAll(xs + extra + tail);
  }

  /** Every name of the other is among the receiver's or the new ones. */
  lemma NewNamesCollected<T>(xs: seq<T>, ys: seq<T>)
    ensures forall y :: y in ys ==> y in xs || y in Distinct(NotIn(ys, xs))
  {
    forall y | y in ys && y !in xs
      ensures y in Distinct(NotIn(ys, xs))
    {
      var n := NotIn(ys, xs);
      var k :| 0 <= k < |ys| && ys[k] == y;
      assert ys[k] in n;
      var i :| 0 <= i < |n| && n[i] == ys[k];
      InDistinct(n, i);
    }
  }

  lemma AppendedKept<T>(xs: seq<T>, extra: seq<T>, tail: seq<T>)
    ensures forall x :: x in xs ==> x in xs + extra + tail
    ensures forall x :: x in extra ==> x in xs + extra + tail
    ensures forall x :: x in tail ==> x in xs + extra + tail
  {
  }

  lemma DistinctKeepsAll<T>(xs: seq<T>)
    ensures forall x :: x in xs ==> x in Distinct(xs)
  {
    forall x | x in xs
      ensures x in Distinct(xs)
    {
      var i :| 0 <= i < |xs| && xs[i] == x;
      InDistinct(xs, i);
    }
  }

  lemma InDistinct<T>(xs: seq<T>, k: nat)
    requires k < |xs|
    ensures xs[k] in Distinct(xs)
  {
  }

  /** From duplicate-free receiver alternates, the replaced list starts with
    * them unchanged. */
  lemma PersonMergeKeepsOrder(r: PersonData, o: PersonData)
    requires !PersonMergeFails(r, o) && PersonCollectedNames(r, o) != []
    requires NoDuplicates(NamesOrEmpty(r.alternateNames))
    ensures var alts := PersonMerged(r, o).alternateNames.value;
      |NamesOrEmpty(r.alternateNames)| <= |alts| && alts[..|NamesOrEmpty(r.alternateNames)|] == NamesOrEmpty(r.alternateNames)
  {
    PersonMergedAlternatesAre(r, o);
    var rAlts := NamesOrEmpty(r.alternateNames);
    var extra := Distinct(NotIn(NamesOrEmpty(o.alternateNames), rAlts));
    var ans := PersonCollectedNames(r, o);
    NotInNoDuplicatesDistinct(NamesOrEmpty(o.alternateNames), rAlts);
    ConcatNoDuplicates(rAlts, extra);
    assert rAlts + extra <= ans;
    DistinctKeepsPrefix(rAlts + extra, ans);
    assert (rAlts + extra)[..|rAlts|] == rAlts;
  }

  lemma NotInNoDuplicatesDistinct(xs: seq<JString>, ys: seq<JString>)
    ensures forall x :: x in Distinct(NotIn(xs, ys)) ==> x !in ys
  {
    forall x | x in Distinct(NotIn(xs, ys)) ensures x !in ys {
      var i :| 0 <= i < |Distinct(NotIn(xs, ys))| && Distinct(NotIn(xs, ys))[i] == x;
      assert x in NotIn(xs, ys);
      var j :| 0 <= j < |NotIn(xs, ys)| && NotIn(xs, ys)[j] == x;
    }
  }

  /** A duplicate-free prefix survives `distinct`. */
  lemma {:induction false} DistinctKeepsPrefix<T>(base: seq<T>, xs: seq<T>)
    requires NoDuplicates(base) && base <= xs
    ensures |base| <= |Distinct(xs)| && Distinct(xs)[..|base|] == base
    decreases |xs|
  {
    if |xs| == |base| {
      assert xs == base;
      DistinctOfNoDuplicates(base);
    } else {
      var init := xs[..|xs| - 1];
      assert base <= init;
      DistinctKeepsPrefix(base, init);
    }
  }

  /** If the other lacks a family or given name, "null" stands in for it in
    * the appended name, which is always added. */
  lemma PersonAppendsNullName(r: PersonData, o: PersonData)
    requires o.familyName.None? || o.givenName.None?
    ensures !PersonMergeFails(r, o) && PersonAddName(r, o) == Some(true)
    ensures o.familyName.None? ==> StartsWith(PersonAppendedName(o), "null, ")
    ensures Some(PersonAppendedName(o)) in PersonMerged(r, o).alternateNames.value
  {
    var ans := PersonCollectedNames(r, o);
    assert ans[|ans| - 1] == Some(PersonAppendedName(o));
    assert Some(PersonAppendedName(o)) in ans;
    var d := Distinct(ans);
    assert PersonMerged(r, o).alternateNames == Some(d);
  }

  // ---- the records as objects ----

  class Place {
    var mappedIds: seq<IdType>
    var name: JString
    var description: JString
    var homepage: JString
    var alternateNames: NameList

    function Value(): PlaceData
      reads this
    {
      PlaceData(mappedIds, name, description, homepage, alternateNames)
    }

    constructor (v: PlaceData)
      ensures Value() == v
    {
      mappedIds, name, description, homepage, alternateNames :=
        v.mappedIds, v.name, v.description, v.homepage, v.alternateNames;
    }

    /** `merge(place)`: `failed` reports the null dereference, after which
      * only the scalars have been set. */
    method Merge(other: Place) returns (failed: bool)
      modifies this
      ensures failed == PlaceMergeFails(old(Value()), old(other.Value()))
      ensures Value() == PlaceMerged(old(Value()), old(other.Value()))
    {
      ghost var r, o := Value(), other.Value();
      var oName, oDescription, oHomepage, oAlternates := other.name, other.description, other.homepage, other.alternateNames;
      name := name.OrElse(oName);
      description := description.OrElse(oDescription);
      homepage := homepage.OrElse(oHomepage);
      var addName := NoneMatchIgnoreCase([name] + NamesOrEmpty(alternateNames), oName);
      assert addName == PlaceAddName(r, o);
      failed := addName.None?;
      if addName == Some(true) {
        var ans := NamesOrEmpty(alternateNames) + [oName];
        ans := ans + NotIn(NamesOrEmpty(oAlternates), ans);
        alternateNames := Some(ans);
      }
    }
  }

  class Corporate {
    var mappedIds: seq<IdType>
    var name: JString
    var dateOfEstablishment: Option<PartialDate>
    var dateOfTermination: Option<PartialDate>
    var homepage: JString
    var parent: Option<CorporateData>
    var place: Option<PlaceData>
    var alternateNames: NameList

    function Value(): CorporateData
      reads this
    {
      CorporateData(mappedIds, name, dateOfEstablishment, dateOfTermination, homepage, parent, place, alternateNames)
    }

    constructor (v: CorporateData)
      ensures Value() == v
    {
      mappedIds, name, dateOfEstablishment, dateOfTermination := v.mappedIds, v.name, v.dateOfEstablishment, v.dateOfTermination;
      homepage, parent, place, alternateNames := v.homepage, v.parent, v.place, v.alternateNames;
    }

    /** `merge(corporate)`. */
    method Merge(other: Corporate) returns (failed: bool)
      modifies this
      ensures failed == CorporateMergeFails(old(Value()), old(other.Value()))
      ensures Value() == CorporateMerged(old(Value()), old(other.Value()))
    {
      ghost var r, o := Value(), other.Value();
      var oName, oAlternates := other.name, other.alternateNames;
      var oEstablished, oTerminated, oHomepage, oParent, oPlace :=
        other.dateOfEstablishment, other.dateOfTermination, other.homepage, other.parent, other.place;
      name := name.OrElse(oName);
      dateOfEstablishment := dateOfEstablishment.OrElse(oEstablished);
      dateOfTermination := dateOfTermination.OrElse(oTerminated);
      homepage := homepage.OrElse(oHomepage);
      parent := parent.OrElse(oParent);
      place := place.OrElse(oPlace);
      var addName := NoneMatchIgnoreCase([name] + NamesOrEmpty(alternateNames), oName);
      assert addName == CorporateAddName(r, o);
      failed := addName.None?;
      if addName == Some(true) {
        var ans := NamesOrEmpty(alternateNames) + [oName];
        ans := ans + NotIn(NamesOrEmpty(oAlternates), ans);
        alternateNames := Some(ans);
      }
    }
  }

  class Person {
    var mappedIds: seq<IdType>
    var gender: Option<Gender>
    var description: JString
    var familyName: JString
    var givenName: JString
    var dateOfBirth: Option<PartialDate>
    var dateOfDeath: Option<PartialDate>
    var placeOfBirth: Option<PlaceData>
    var placeOfDeath: Option<PlaceData>
    var placeOfActivity: Option<seq<PlaceData>>
    var alternateNames: NameList

    function Value(): PersonData
      reads this
    {
      PersonData(mappedIds, gender, description, familyName, givenName, dateOfBirth, dateOfDeath,
                 placeOfBirth, placeOfDeath, placeOfActivity, alternateNames)
    }

    constructor (v: PersonData)
      ensures Value() == v
    {
      mappedIds, gender, description, familyName, givenName := v.mappedIds, v.gender, v.description, v.familyName, v.givenName;
      dateOfBirth, dateOfDeath, placeOfBirth, placeOfDeath := v.dateOfBirth, v.dateOfDeath, v.placeOfBirth, v.placeOfDeath;
      placeOfActivity, alternateNames := v.placeOfActivity, v.alternateNames;
    }

    /** `merge(person)`: scalars, then the ids (`addAll` of the other's ids
      * not yet present), then the alternates. */
    method Merge(other: Person) returns (failed: bool)
      modifies this
      ensures failed == PersonMergeFails(old(Value()), old(other.Value()))
      ensures Value() == PersonMerged(old(Value()), old(other.Value()))
    {
      ghost var r, o := Value(), other.Value();
      var oGender, oDescription, oBirth, oDeath := other.gender, other.description, other.dateOfBirth, other.dateOfDeath;
      var oPlaceOfBirth, oPlaceOfDeath, oActivity := other.placeOfBirth, other.placeOfDeath, other.placeOfActivity;
      var oIds, oAlternates, oFamily, oGiven := other.mappedIds, other.alternateNames, other.familyName, other.givenName;
      gender := gender.OrElse(oGender);
      description := description.OrElse(oDescription);
      dateOfBirth := dateOfBirth.OrElse(oBirth);
      dateOfDeath := dateOfDeath.OrElse(oDeath);
      placeOfBirth := placeOfBirth.OrElse(oPlaceOfBirth);
      placeOfDeath := placeOfDeath.OrElse(oPlaceOfDeath);
      placeOfActivity := placeOfActivity.OrElse(oActivity);
      mappedIds := mappedIds + NotIn(oIds, mappedIds);
      assert Value() == PersonScalarsMerged(r, o);
      assert familyName == r.familyName && givenName == r.givenName && alternateNames == r.alternateNames;
      assert oFamily == o.familyName && oGiven == o.givenName && oAlternates == o.alternateNames;

      var rAlternates := NamesOrEmpty(alternateNames);
      var ans := rAlternates + Distinct(NotIn(NamesOrEmpty(oAlternates), rAlternates));
      var candidates := (if familyName.Some? && givenName.Some? then [Some(familyName.value + ", " + givenName.value)] else [])
                        + rAlternates;
      assert candidates == PersonNameCandidates(r);
      var addName := if oFamily.Some? && oGiven.Some? then NoneMatchIgnoreCase(candidates, Some(oFamily.value + ", " + oGiven.value))
                     else Some(true);
      assert addName == PersonAddName(r, o);
      failed := addName.None?;
      if !failed {
        if addName == Some(true) {
          ans := ans + [Some(ConcatText(oFamily) + ", " + ConcatText(oGiven))];
        }
        assert ans == PersonCollectedNames(r, o);
        if ans != [] {
          alternateNames := Some(Distinct(ans));
        }
      }
    }
  }
}
