# mycore-lookup in Dafny

A model of the sequential core of mycore-lookup, a service that resolves
authority records (persons, corporate bodies, places) identified by
`scheme:id` identifiers such as `gnd:118540238`. The model covers:

- **Identity and merge of entities** (`MappedIds`, `Entities`): the
  "probably the same" test on id lists, and the field-by-field `merge` of
  `Person`, `Corporate` and `Place`. `merge` is a method of a class whose
  fields it overwrites, proved equal to a specification function on entity
  values.
- **The aggregator** (`Aggregator`): `LookupService.suggest` and the three
  `lookup` overloads over providers. Each provider is its priority, its
  supported schemes and its outcome per call. The first-fit merge pass is a
  loop proved against a fold.
- **Identifiers and codecs** (`IdTypes`, `IdTypeFieldAdapter`,
  `SchemeRegistry`, `Dates`, `DateFieldAdapter`, `DateXmlAdapter`,
  `RdfAdapters`):
  - `IdType.parse`, `toString`, `equals` and `hashCode`;
  - the scheme registry and its URI templates;
  - the index key format;
  - the three date patterns, as an interpreter over partial dates (year, year-month, full date);
  - the gender and name adapters of the RDF mapping.
- **The document mapper and store** (`Index`, `EntityIndex`, `IndexLookup`):
  - `IndexManager.buildDocument`, with explicit getter descriptors taken from the `@Field`/`@Id`/`@IdRef` annotations;
  - the key term, `saveOrUpdate`, `set`, reference ids and their resolution;
  - the index provider's key lookups and suggestion queries.
- **The writer lifecycle** (`IndexWrite`): `IndexWriteExecutor` as a class
  whose flags (`writerClosed`, writer present, delayed close pending,
  scheduler shut) move by `beforeExecute`, `afterExecute`, the delayed
  closer and `shutdown`. `IndexWriteAction.run` applies one add, update or
  optimize to the writer's documents.
- **Events** (`Events`): `EventManager` as a class holding the listener
  map keyed by class name and the queue of its single asynchronous worker.
- **ORCID** (`Orcid`):
  - `encodeURIComponent`, as the JDK's form encoder over UTF-8 followed by the `replaceAll` chain, proved equal to `encodeURIComponent` of section 15.1.3.4 of ECMA-262 5.1 and inverted by percent-decoding (section 2.1 of RFC 3986);
  - `ORCIDPerson.toPerson`.

Java `null` is `Option`. Strings are `seq<char>`. `equalsIgnoreCase` and
`toLowerCase` fold ASCII letters only. `Wrappers`, `JavaStrings` and
`Sequences` hold the shared helpers.

The model follows these details of the code:

- The merge pass of `LookupService` uses exact id intersection (`anyMatch`),
  not `isProbablySameAs`.
- `lookup` returns the first element of the merged list.
- `DateAdapter.marshal` has no null guard.
- `Corporate` has no description getter, although the corporate
  suggestion searches `Corporate.description`
  (`IndexLookup.CorporateDescriptionNeverIndexed`).

## Model

| member | source | states |
|---|---|---|
| MappedIds.IsProbablySameAsSymmetric | src/main/java/org/mycore/lookup/api/entity/MappedIdentifiers.java:75-81 | the test holds for (a, b) exactly when it holds for (b, a): `contains`, the two-way `startsWith` and the `min` of both ratios do not depend on the order |
| MappedIds.IsProbablySameAs | src/main/java/org/mycore/lookup/api/entity/MappedIdentifiers.java:74-81 | a match needs at least one id on each side; a receiver id that is among the other's ids always matches |
| MappedIds.IsProbablySameAsEmptyAndSelf | src/main/java/org/mycore/lookup/api/entity/MappedIdentifiers.java:75-76 | a receiver without ids matches nothing; an entity with at least one id matches itself |
| MappedIds.DifferentSchemesNeverFuzzy | src/main/java/org/mycore/lookup/api/entity/MappedIdentifiers.java:78 | ids of different schemes never match fuzzily, whatever their values |
| MappedIds.EmptyValueNeverFuzzy | src/main/java/org/mycore/lookup/api/entity/MappedIdentifiers.java:79-81 | an empty value never matches a non-empty one fuzzily (ratio 0) |
| MappedIds.FuzzyIsLengthBound | src/main/java/org/mycore/lookup/api/entity/MappedIdentifiers.java:79-81 | for the same scheme and a non-empty prefix, the fuzzy test is exactly `4*shorter >= 3*longer`, the float ratio >= 75 in integers |
| Entities.NoneMatchIgnoreCase | src/main/java/org/mycore/lookup/api/entity/Place.java:128-133 | the `noneMatch(equalsIgnoreCase)` test: true iff every candidate is non-null and differs ignoring case; false only when one equals; a null pointer exception only when some candidate is null |
| Entities.PlaceMergeFields | src/main/java/org/mycore/lookup/api/entity/Place.java:124-126 | name, description and homepage are the receiver's when non-null, else the other's; the ids are not touched |
| Entities.PlaceMerged | src/main/java/org/mycore/lookup/api/entity/Place.java:123-143 | the ids stay the receiver's, the receiver's alternates stay a prefix, and a name is present iff either side had one |
| Entities.PlaceMergeAlternates | src/main/java/org/mycore/lookup/api/entity/Place.java:128-142 | the other's name is added iff the merged name and every receiver alternate are non-null and differ from it ignoring case; then alternates = receiver's + that name + the other's alternates not yet present; else they are unchanged |
| Entities.PlaceMergeAbsorbsName | src/main/java/org/mycore/lookup/api/entity/Place.java:128-142 | after a merge that did not throw, the other's name equals, ignoring case, the name or an alternate, and when it was added no alternate of the other is lost |
| Entities.PlaceSelfMerge | src/main/java/org/mycore/lookup/api/entity/Place.java:123-143 | merging a named place with itself changes nothing |
| Entities.PlaceMergeNullNames | src/main/java/org/mycore/lookup/api/entity/Place.java:133 | two null names make the test dereference null |
| Entities.Place.Merge | src/main/java/org/mycore/lookup/api/entity/Place.java:123-143 | the new state is `PlaceMerged` of the old states, and `failed` is exactly the null dereference of the name test |
| Entities.CorporateMergeFields | src/main/java/org/mycore/lookup/api/entity/Corporate.java:208-215 | name, both dates, homepage, parent and place are the receiver's when non-null, else the other's; ids untouched |
| Entities.CorporateMerged | src/main/java/org/mycore/lookup/api/entity/Corporate.java:207-232 | the ids stay the receiver's, the receiver's alternates stay a prefix, and a name is present iff either side had one |
| Entities.CorporateAdoptsName | src/main/java/org/mycore/lookup/api/entity/Corporate.java:208-222 | a receiver without a name adopts the other's and keeps its own alternates, dropping the other's |
| Entities.CorporateAppendsNullName | src/main/java/org/mycore/lookup/api/entity/Corporate.java:222-227 | a null name of the other, merged into a named receiver, is appended to the alternates as a null entry |
| Entities.CorporateMergeAlternates | src/main/java/org/mycore/lookup/api/entity/Corporate.java:217-230 | same rule as for places: alternates = receiver's + the other's name + its alternates not yet present when the name is new, else unchanged |
| Entities.CorporateMergeNullNames | src/main/java/org/mycore/lookup/api/entity/Corporate.java:222 | two null names make the test dereference null |
| Entities.Corporate.Merge | src/main/java/org/mycore/lookup/api/entity/Corporate.java:207-232 | the new state is `CorporateMerged` of the old states, and `failed` is exactly the null dereference |
| Entities.DisplayName | src/main/java/org/mycore/lookup/api/entity/Person.java:125 | present iff both family and given name are set, and then starts with "family, " |
| Entities.PersonIsProbablySameAs | src/main/java/org/mycore/lookup/api/entity/Person.java:292-307 | every person is probably the same as itself; without an id match a match needs equal family and given names |
| Entities.PersonIsProbablySameAsSymmetric | src/main/java/org/mycore/lookup/api/entity/Person.java:292-307 | the person test is symmetric |
| Entities.PersonNamesMatch | src/main/java/org/mycore/lookup/api/entity/Person.java:297-306 | without an id match, two persons match iff family and given names are equal (null equals null) and gender and birth date are equal or one side null |
| Entities.PersonMergeFields | src/main/java/org/mycore/lookup/api/entity/Person.java:314-320 | gender, description, both dates and the three places are the receiver's when non-null, else the other's; family and given names never change |
| Entities.PersonMerged | src/main/java/org/mycore/lookup/api/entity/Person.java:313-345 | family and given names never change, the receiver's ids stay a prefix, and the alternates become null only when the receiver had none |
| Entities.PersonMergeIds | src/main/java/org/mycore/lookup/api/entity/Person.java:322-323 | the receiver's ids stay a prefix, every id of the other is present, and no id comes from elsewhere; lists free of duplicates give a list free of duplicates |
| Entities.PersonMergedAlternatesAre | src/main/java/org/mycore/lookup/api/entity/Person.java:343-344 | when the collected list is non-empty the alternates become its distinct elements |
| Entities.PersonMergeAlternates | src/main/java/org/mycore/lookup/api/entity/Person.java:325-345 | the replaced alternates hold no duplicate, keep every alternate of both sides, and hold the other's "family, given" when the name test passed |
| Entities.PersonMergeAlternatesOnly | src/main/java/org/mycore/lookup/api/entity/Person.java:325-345 | the replaced alternates hold nothing but alternates of either side and, when the name test passed, the other's "family, given"; that name is present only when the test passed or it already was an alternate of either side |
| Entities.PersonMergeKeepsOrder | src/main/java/org/mycore/lookup/api/entity/Person.java:325-344 | from duplicate-free receiver alternates, the new list starts with them unchanged |
| Entities.PersonAppendsNullName | src/main/java/org/mycore/lookup/api/entity/Person.java:336-341 | with the other's family or given name null the name test cannot fail and the name built from it ("null, ..." for a null family name) is among the merged alternates |
| Entities.Person.Merge | src/main/java/org/mycore/lookup/api/entity/Person.java:313-346 | the new state is `PersonMerged` of the old states, and `failed` is exactly the null dereference |
| Aggregator.FromSimpleNameInverse | src/main/java/org/mycore/lookup/api/service/LookupService.java:207-232 | `Type.fromValue` of each type's class gives back that type |
| Aggregator.AnyMatchSymmetric | src/main/java/org/mycore/lookup/api/service/LookupService.java:163-167 | `anyMatch` of two id lists is symmetric |
| Aggregator.FirstMatch | src/main/java/org/mycore/lookup/api/service/LookupService.java:176-178 | the index of the first accepted item sharing an id with the object, and no earlier item shares one |
| Aggregator.MergePass | src/main/java/org/mycore/lookup/api/service/LookupService.java:169-193 | the loop gives what `MergeAll` specifies: the accepted items and the merge count, or the failure of an entity merge |
| Aggregator.MergeAll | src/main/java/org/mycore/lookup/api/service/LookupService.java:169-194 | never more accepted items than objects, and at least one for a non-empty list |
| Aggregator.MergeAllFailureStays | src/main/java/org/mycore/lookup/api/service/LookupService.java:175-185 | once an entity merge has thrown, the rest of the list does not change the outcome |
| Aggregator.MergeAllCount | src/main/java/org/mycore/lookup/api/service/LookupService.java:172-185 | number of merges + number of accepted items = number of inputs |
| Aggregator.MergeAllDisjoint | src/main/java/org/mycore/lookup/api/service/LookupService.java:176-184 | objects that pairwise share no id are all accepted, in order, with no merge |
| Aggregator.MergeAllKeepsHead | src/main/java/org/mycore/lookup/api/service/LookupService.java:175-185 | the first object stays first, unchanged when no later object shares an id with it |
| Aggregator.MergeAllHead | src/main/java/org/mycore/lookup/api/service/LookupService.java:169-194 | the first accepted item is the first object into which, in order, every later object sharing an id with it at that point has been merged |
| Aggregator.MergeAllSeparates | src/main/java/org/mycore/lookup/api/service/LookupService.java:175-185 | with merges that keep the receiver's ids, no two accepted items share an id |
| Aggregator.SuggestFatal | src/main/java/org/mycore/lookup/api/service/LookupService.java:94-101 | a provider failing with anything but the two tolerated exceptions makes `suggest` throw |
| Aggregator.Suggest | src/main/java/org/mycore/lookup/api/service/LookupService.java:81-115 | throws when any provider fails fatally; otherwise no longer than the flattened lists, and empty exactly when they are |
| Aggregator.Gather | src/main/java/org/mycore/lookup/api/service/LookupService.java:104-112 | every element comes from some provider's list, and every element of every provider's list is there |
| Aggregator.GatherEmpty | src/main/java/org/mycore/lookup/api/service/LookupService.java:88-112 | when every outcome yields an empty list (a null list, an unsupported call, a socket failure), the flattened list is empty |
| Aggregator.SuggestNothing | src/main/java/org/mycore/lookup/api/service/LookupService.java:81-115 | when no provider has anything, `suggest` gives the empty list |
| Aggregator.GatherPriorityFirst | src/main/java/org/mycore/lookup/api/service/LookupService.java:104-112 | the highest-priority provider's list is a prefix of the flattened list |
| Aggregator.SuggestDisjoint | src/main/java/org/mycore/lookup/api/service/LookupService.java:81-115 | answers that share no id come back as the flattened lists, unmerged |
| Aggregator.Lookup | src/main/java/org/mycore/lookup/api/service/LookupService.java:127-161 | an "index" event carrying the found object is fired iff the merged result is non-null; the listeners are called in map order up to and including the first that throws, and `lookup` throws iff one does, else returns the merged result (together with EventManager.java lines 95-103) |
| Aggregator.LookupByText | src/main/java/org/mycore/lookup/api/service/LookupService.java:118-124 | a text `IdType.parse` rejects gives null with no event and no listener call; otherwise the event and failure behaviour of `Lookup` for the parsed id |
| Aggregator.LookupUnparsable | src/main/java/org/mycore/lookup/api/service/LookupService.java:119 | a text `IdType.parse` rejects gives null without asking any provider |
| Aggregator.AnswersIgnoreUnasked | src/main/java/org/mycore/lookup/api/service/LookupService.java:128 | providers that do not support the scheme do not contribute |
| Aggregator.Answers | src/main/java/org/mycore/lookup/api/service/LookupService.java:128-153 | at most one answer per provider; each is the non-null answer of a provider supporting the scheme, and every such answer is present |
| Aggregator.LookupId | src/main/java/org/mycore/lookup/api/service/LookupService.java:127-156 | throws when an asked provider fails fatally; when it returns, the result is null exactly when no asked provider answered |
| Aggregator.LookupText | src/main/java/org/mycore/lookup/api/service/LookupService.java:118-124 | a non-null result needs a text that parses and an answer from a provider supporting the parsed scheme |
| Aggregator.LookupAsksOnlySupporting | src/main/java/org/mycore/lookup/api/service/LookupService.java:128 | the result does not depend on what providers without the id's scheme would answer |
| Aggregator.AnswersNullScheme | src/main/java/org/mycore/lookup/api/service/LookupService.java:128 | an id without a scheme is asked of nobody |
| Aggregator.LookupNullScheme | src/main/java/org/mycore/lookup/api/service/LookupService.java:122-158 | `lookup(type, null scheme, id)` gives null, so no event is fired |
| Aggregator.LookupHighestPriority | src/main/java/org/mycore/lookup/api/service/LookupService.java:148-156 | when no merge throws, the result is the highest-priority answer with every later answer that shares an id with it merged into it, in priority order; null when nobody answered |
| Aggregator.LookupUnmergedHead | src/main/java/org/mycore/lookup/api/service/LookupService.java:148-156 | the highest-priority answer comes back unchanged when no later answer shares an id with it |
| Aggregator.SuggestedPlacesSeparate | src/main/java/org/mycore/lookup/api/service/LookupService.java:175-185 | the places `suggest` returns pairwise share no id |
| Aggregator.SuggestedCorporatesSeparate | src/main/java/org/mycore/lookup/api/service/LookupService.java:175-185 | the corporate bodies `suggest` returns pairwise share no id |
| Aggregator.PersonAbsorbGrowsIds | src/main/java/org/mycore/lookup/api/service/LookupService.java:180 | a person that absorbs another holds every id of both |
| IdTypes.Parse | src/main/java/org/mycore/lookup/api/entity/IdType.java:39-51 | present only when a non-empty colon-free token is followed by a colon; the scheme is the registry's scheme for that token (null when unknown) and the value a line-terminator-free prefix of the rest; no colon or a leading colon gives null |
| IdTypes.ToString | src/main/java/org/mycore/lookup/api/entity/IdType.java:108 | present exactly when the id has a scheme |
| IdTypes.ParseJoin | src/main/java/org/mycore/lookup/api/entity/IdType.java:39-49 | "<token>:<value>" with a non-empty colon-free token parses to that value, colons in it included, and the registry's scheme for the token |
| IdTypes.ParseRejectsInnerLineBreak | src/main/java/org/mycore/lookup/api/entity/IdType.java:39-50 | a line terminator followed by two or more characters makes `parse` return null |
| IdTypes.ParseToString | src/main/java/org/mycore/lookup/api/entity/IdType.java:45-49 | parsing the printed form gives the value back, with the scheme resolved from its canonical id (together with line 108) |
| IdTypes.Equals | src/main/java/org/mycore/lookup/api/entity/IdType.java:127-153 | `equals` holds iff id and scheme are equal (null equal to null) |
| IdTypes.HashCode | src/main/java/org/mycore/lookup/api/entity/IdType.java:115-121 | a 32-bit value, congruent modulo 2^32 to 31·31 + 31·(the id's hash) + (the scheme's hash, 0 for null) |
| IdTypes.Utf16 | src/main/java/org/mycore/lookup/api/entity/IdType.java:117 | one code unit below U+10000, else a surrogate pair that decodes back to the character |
| IdTypes.Utf16Units | src/main/java/org/mycore/lookup/api/entity/IdType.java:117 | between one and two code units per character, exactly one each when no character is beyond U+FFFF |
| IdTypes.UnitsHash | src/main/java/org/mycore/lookup/api/entity/IdType.java:117 | `String.hashCode` over the UTF-16 code units stays within 32 bits |
| IdTypeFieldAdapter.Marshal | src/main/java/org/mycore/lookup/api/entity/adapter/IdTypeFieldAdapter.java:54-56 | null exactly for null, otherwise the same text as `IdType.toString` |
| IdTypeFieldAdapter.Unmarshal | src/main/java/org/mycore/lookup/api/entity/adapter/IdTypeFieldAdapter.java:38-48 | present iff the tokenizer finds exactly two tokens; then the value is non-empty and colon-free and the scheme is the one resolved from the first token |
| IdTypeFieldAdapter.UnmarshalMarshal | src/main/java/org/mycore/lookup/api/entity/adapter/IdTypeFieldAdapter.java:39-55 | an id with non-empty colon-free scheme id and value, whose scheme the registry returns for its own id, reads back as itself |
| IdTypeFieldAdapter.UnmarshalSkipsEmptyTokens | src/main/java/org/mycore/lookup/api/entity/adapter/IdTypeFieldAdapter.java:39-44 | two colon-free values separated by one or more colons, with any colons before or after, read as the first's scheme and the second value |
| IdTypeFieldAdapter.UnmarshalRejectsThreeTokens | src/main/java/org/mycore/lookup/api/entity/adapter/IdTypeFieldAdapter.java:40-47 | two colon-free values and a colon followed by text that is not all colons give null |
| SchemeRegistry.Scheme.GetRdfURI | src/main/java/org/mycore/lookup/api/entity/Scheme.java:214-216 | null while no rdf holder has been created |
| SchemeRegistry.Scheme.GetRdfType | src/main/java/org/mycore/lookup/api/entity/Scheme.java:232-234 | null while no rdf holder has been created |
| SchemeRegistry.Scheme.SetRdfURI | src/main/java/org/mycore/lookup/api/entity/Scheme.java:221-226 | creates the holder on first use and sets its URI, keeping its type |
| SchemeRegistry.Scheme.SetRdfType | src/main/java/org/mycore/lookup/api/entity/Scheme.java:239-244 | creates the holder on first use and sets its type, keeping its URI |
| SchemeRegistry.Scheme.BuildAuthorityURI | src/main/java/org/mycore/lookup/api/entity/Scheme.java:246-252 | null exactly when the template with "{$id}" replaced fails the URI check; otherwise that substituted template |
| SchemeRegistry.Scheme.BuildRdfURI | src/main/java/org/mycore/lookup/api/entity/Scheme.java:254-260 | null exactly when the rdf template with "{$id}" replaced fails the URI check; otherwise that substituted template |
| SchemeRegistry.SubstituteId | src/main/java/org/mycore/lookup/api/entity/Scheme.java:246-260 | the shared body of both builders: null iff the substituted template fails the URI check, else the substituted template |
| SchemeRegistry.SubstituteIdSingle | src/main/java/org/mycore/lookup/api/entity/Scheme.java:248 | a template `pre + "{$id}" + post` gives exactly `pre + id + post` |
| SchemeRegistry.FindScheme | src/main/java/org/mycore/lookup/api/entity/Scheme.java:318-323 | the first registered scheme whose id or one of whose aliases equals the key ignoring case; null iff none does |
| SchemeRegistry.FindSchemeIgnoresCase | src/main/java/org/mycore/lookup/api/entity/Scheme.java:320-321 | keys differing only in letter case select the same scheme |
| SchemeRegistry.NoAliasMatchesIdOnly | src/main/java/org/mycore/lookup/api/entity/Scheme.java:321 | a scheme without aliases is matched by its id only |
| SchemeRegistry.AddKeepsEarlierWinner | src/main/java/org/mycore/lookup/api/entity/Scheme.java:319-326 | appending a scheme never changes a key that already resolves |
| SchemeRegistry.Schemes.Get | src/main/java/org/mycore/lookup/api/entity/Scheme.java:318-323 | a scheme returned is registered and matches the key by id or alias, ignoring case |
| SchemeRegistry.Schemes.Add | src/main/java/org/mycore/lookup/api/entity/Scheme.java:325-327 | appends the scheme; every key that resolved before still resolves to the same scheme |
| Dates.ParseBest | src/main/java/org/mycore/lookup/api/entity/adapter/DateTemporalAccessorFieldAdapter.java:52-53 | whatever a pattern resolves is a valid date (month in 1..12, day within the month, year in range) |
| Dates.Resolve | src/main/java/org/mycore/lookup/api/entity/adapter/DateTemporalAccessorFieldAdapter.java:52-53 | whatever the resolution gives is a valid date |
| Dates.SmartDayClamps | src/main/java/org/mycore/lookup/api/entity/adapter/DateTemporalAccessorFieldAdapter.java:52-53 | a day past the month's end is moved back to its last day |
| Dates.IsoFullDate | src/main/java/org/mycore/lookup/api/entity/adapter/DateTemporalAccessorFieldAdapter.java:43-53 | "yyyy-MM-dd" gives that full date when month and day are in range and a parse error otherwise |
| Dates.IsoYearMonth | src/main/java/org/mycore/lookup/api/entity/adapter/DateTemporalAccessorFieldAdapter.java:43-53 | "yyyy-MM" gives the year-month for a month in 1..12 and only the year otherwise |
| Dates.IsoYear | src/main/java/org/mycore/lookup/api/entity/adapter/DateTemporalAccessorFieldAdapter.java:43-53 | "yyyy" gives the year |
| Dates.DottedFullDate | src/main/java/org/mycore/lookup/api/entity/adapter/DateTemporalAccessorFieldAdapter.java:43-53 | "dd.MM.yyyy" resolves as "yyyy-MM-dd" does |
| Dates.DottedShortMonthTwoDigits | src/main/java/org/mycore/lookup/api/entity/adapter/DateTemporalAccessorFieldAdapter.java:43 | the third pattern reads a two-digit month as the second does |
| Dates.OddYearRejected | src/main/java/org/mycore/lookup/api/entity/adapter/DateTemporalAccessorFieldAdapter.java:43-56 | a digit run whose length is not four, then nothing or '-', is rejected by every pattern |
| Dates.ShortMonthDate | src/main/java/org/mycore/lookup/api/entity/adapter/DateTemporalAccessorFieldAdapter.java:43 | "dd.M.yyyy" with a one-digit month: the second pattern fails, the third reads it |
| Dates.IsoRejectsTwoDigitStart | src/main/java/org/mycore/lookup/api/entity/adapter/DateTemporalAccessorFieldAdapter.java:43 | text starting with two digits and a non-digit is not read by the first pattern |
| DateFieldAdapter.FirstParse | src/main/java/org/mycore/lookup/api/entity/adapter/DateTemporalAccessorFieldAdapter.java:50-57 | the result of the first pattern that parses, or null when none does |
| DateFieldAdapter.FirstParseOfPatterns | src/main/java/org/mycore/lookup/api/entity/adapter/DateTemporalAccessorFieldAdapter.java:43-57 | the three patterns are tried in their order |
| DateFieldAdapter.Unmarshal | src/main/java/org/mycore/lookup/api/entity/adapter/DateTemporalAccessorFieldAdapter.java:49-58 | null for null; any date read is valid |
| DateFieldAdapter.Marshal | src/main/java/org/mycore/lookup/api/entity/adapter/DateTemporalAccessorFieldAdapter.java:64-66 | null exactly for null |
| Dates.ToText | src/main/java/org/mycore/lookup/api/entity/adapter/DateTemporalAccessorFieldAdapter.java:64-66 | a year prints as digits; a year-month ends in '-' and two digits; a full date ends in '-', two digits, '-', two digits |
| DateFieldAdapter.UnmarshalMarshal | src/main/java/org/mycore/lookup/api/entity/adapter/DateTemporalAccessorFieldAdapter.java:50-65 | reading back what was written gives the same date exactly for the dates whose printed year the patterns accept, and null otherwise |
| DateFieldAdapter.YearMonthRoundTrip | src/main/java/org/mycore/lookup/api/entity/adapter/DateTemporalAccessorFieldAdapter.java:50-65 | a year-month with a four-digit year reads back as itself |
| DateFieldAdapter.UnmarshalDotted | src/main/java/org/mycore/lookup/api/entity/adapter/DateTemporalAccessorFieldAdapter.java:43-57 | "dd.MM.yyyy" is read by the second pattern after the first fails |
| DateFieldAdapter.UnmarshalShortMonth | src/main/java/org/mycore/lookup/api/entity/adapter/DateTemporalAccessorFieldAdapter.java:43-57 | "dd.M.yyyy" is read by the third pattern only |
| DateXmlAdapter.Unmarshal | src/main/java/org/mycore/lookup/api/entity/adapter/DateTemporalAccessorAdapter.java:46-56 | a null text is an error; when the ISO-style pattern parses, its date is the result; otherwise the "[[dd.][MM.]]yyyy" fallback's date, or a parse error when it fails too; any date read is valid |
| DateXmlAdapter.UnmarshalToText | src/main/java/org/mycore/lookup/api/rdf/adapter/DateAdapter.java:39-57 | the same unmarshal code: every date the index codec reads back is read back here; every other printed date is a parse error |
| DateXmlAdapter.IsoReadsBack | src/main/java/org/mycore/lookup/api/entity/adapter/DateTemporalAccessorAdapter.java:48-63 | a printed date with a four-digit year reads back through the ISO pattern |
| DateXmlAdapter.NotIsoReadable | src/main/java/org/mycore/lookup/api/entity/adapter/DateTemporalAccessorAdapter.java:48-53 | a printed date the ISO pattern rejects is rejected by the fallback too |
| DateXmlAdapter.ShortMonthRejected | src/main/java/org/mycore/lookup/api/entity/adapter/DateTemporalAccessorAdapter.java:48-53 | "dd.M.yyyy" with a one-digit month is a parse error here, while the index codec reads it as that date |
| ObjectTools.FirstPrefix | src/main/java/org/mycore/lookup/util/ObjectTools.java:49-50 | the first prefix of the list that the name starts with, or null |
| ObjectTools.FieldPrefix | src/main/java/org/mycore/lookup/util/ObjectTools.java:44-50 | the prefix search tries "get", "is", "set" in that order |
| ObjectTools.GetFieldName | src/main/java/org/mycore/lookup/util/ObjectTools.java:48-54 | null without a prefix; else the prefix stripped and the next character lower-cased |
| ObjectTools.GetterSetterSameField | src/main/java/org/mycore/lookup/util/ObjectTools.java:48-54 | "get"+X and "set"+X give the same field name |
| ObjectTools.FindMethod | src/main/java/org/mycore/lookup/util/ObjectTools.java:63-84 | the public method of that name and parameter types, or none |
| ObjectTools.IsGetterAsWritten | src/main/java/org/mycore/lookup/util/ObjectTools.java:98-104 | for a get/is name without parameters it holds exactly when the intended test fails: only `void` methods pass |
| ObjectTools.IsSetterAsWritten | src/main/java/org/mycore/lookup/util/ObjectTools.java:106-110 | for a set name it holds exactly when the intended test fails: any parameter count but one |
| ObjectTools.IsGetter | src/main/java/org/mycore/lookup/util/ObjectTools.java:98-104 | a getter has a get/is name and no parameters, and is never a setter |
| ObjectTools.IsSetter | src/main/java/org/mycore/lookup/util/ObjectTools.java:106-110 | a setter is exactly a set name with one parameter |
| ObjectTools.GetGetterAsWritten | src/main/java/org/mycore/lookup/util/ObjectTools.java:56-75 | fails only for an as-written setter; an intended getter that is no as-written setter gets null |
| ObjectTools.GetGetter | src/main/java/org/mycore/lookup/util/ObjectTools.java:56-75 | fails only for a setter whose "get" method is missing; a getter is its own getter; a getter found takes no parameters and is the method itself or a "get" method of the class |
| ObjectTools.GetSetter | src/main/java/org/mycore/lookup/util/ObjectTools.java:77-96 | fails only for a getter whose setter is missing; a setter is its own setter; a setter found takes one parameter and is the method itself or a "set" method of the class |
| ObjectTools.AsWrittenRejectsBeanMethods | src/main/java/org/mycore/lookup/util/ObjectTools.java:98-110 | as written, `String getX()` is no getter (so `getGetter` gives null) and `void setX(T)` is no setter |
| ObjectTools.AsWrittenAcceptsOddMethods | src/main/java/org/mycore/lookup/util/ObjectTools.java:98-110 | as written, a void parameterless getter and a parameterless "set" method are accepted |
| ObjectTools.BeanGetterResolves | src/main/java/org/mycore/lookup/util/ObjectTools.java:56-96 | with the intended tests, an ordinary getter is its own getter and its setter names the same field |
| ObjectTools.BeanSetterResolves | src/main/java/org/mycore/lookup/util/ObjectTools.java:56-75 | with the intended tests, a setter resolves to the "get" method of its field, or fails when there is none |
| Events.InOrder | src/main/java/org/mycore/lookup/common/event/EventManager.java:96 | the listeners of the map in one iteration order, each once |
| Events.FirstThrower | src/main/java/org/mycore/lookup/common/event/EventManager.java:96-102 | the index of the first listener whose handler throws, and none before it throws |
| Events.EventManager.constructor | src/main/java/org/mycore/lookup/common/event/EventManager.java:61-67 | an empty registry and an empty task queue |
| Events.EventManager.AddListener | src/main/java/org/mycore/lookup/common/event/EventManager.java:81-84 | the listener is registered under the class name, replacing any previous one |
| Events.EventManager.AddListenerInstance | src/main/java/org/mycore/lookup/common/event/EventManager.java:77-79 | registered under the listener's own class name |
| Events.EventManager.AddListenerOfClass | src/main/java/org/mycore/lookup/common/event/EventManager.java:69-75 | a failed instantiation registers nothing |
| Events.EventManager.RemoveListener | src/main/java/org/mycore/lookup/common/event/EventManager.java:90-93 | removes the entry of the listener's runtime class; the class argument is ignored |
| Events.EventManager.FireEvent | src/main/java/org/mycore/lookup/common/event/EventManager.java:95-103 | the listeners up to and including the first thrower are called, in order; the call fails iff one throws |
| Events.EventManager.FireEventTo | src/main/java/org/mycore/lookup/common/event/EventManager.java:105-113 | only the listener registered under the delegate's name is called, if any |
| Events.EventManager.FireAsyncEvent | src/main/java/org/mycore/lookup/common/event/EventManager.java:115-125 | one task per listener, in iteration order, appended to the queue |
| Events.EventManager.FireAsyncEventTo | src/main/java/org/mycore/lookup/common/event/EventManager.java:127-137 | at most one task, for the delegate's listener |
| Events.EventManager.RunNext | src/main/java/org/mycore/lookup/common/event/EventManager.java:66 | the single worker takes the oldest task |
| Index.BuildIndexableField | src/main/java/org/mycore/lookup/backend/index/IndexManager.java:322-353 | a field only for an indexed `String`: analyzed iff `analyze`, stored iff `store`; null otherwise |
| Index.FieldName | src/main/java/org/mycore/lookup/backend/index/IndexManager.java:215-243 | every field name starts with the "<SimpleName>." prefix |
| Index.EntriesOf | src/main/java/org/mycore/lookup/backend/index/IndexManager.java:219-232 | nothing for an absent value, the single field for a single value |
| Index.ManyEntries | src/main/java/org/mycore/lookup/backend/index/IndexManager.java:219-226 | one entry per non-null element, named and flagged as the getter says; all present when the getter is indexed and every element is text |
| Index.GetterEntries | src/main/java/org/mycore/lookup/backend/index/IndexManager.java:214-238 | every present entry is named under the prefix |
| Index.RefEntries | src/main/java/org/mycore/lookup/backend/index/IndexManager.java:242-265 | every reference entry is present, stored, not analyzed, and named under the prefix |
| Index.AddGetter | src/main/java/org/mycore/lookup/backend/index/IndexManager.java:214-233 | the loop appends exactly the getter's entries |
| Index.AddRef | src/main/java/org/mycore/lookup/backend/index/IndexManager.java:242-260 | the loop appends exactly the reference getter's entries |
| Index.AddGetters | src/main/java/org/mycore/lookup/backend/index/IndexManager.java:214-238 | the loop over the getters appends `GetterEntries` |
| Index.AddRefs | src/main/java/org/mycore/lookup/backend/index/IndexManager.java:240-265 | the loop over the reference getters appends `RefEntries` |
| Index.BuildDocument | src/main/java/org/mycore/lookup/backend/index/IndexManager.java:206-268 | the class-name field, then the getters' and the references' entries |
| Index.DocumentNamed | src/main/java/org/mycore/lookup/backend/index/IndexManager.java:208-243 | a document holds no field but "objectClass" and those its getters and references name |
| Index.DocumentWritable | src/main/java/org/mycore/lookup/backend/index/IndexManager.java:322-328 | a document whose getters all give indexed `String`s holds no null field |
| Index.ManyEntriesHave | src/main/java/org/mycore/lookup/backend/index/IndexManager.java:219-226 | every non-null element of an indexed string collection is in the document |
| Index.AnalyzedFieldNames | src/main/java/org/mycore/lookup/backend/index/IndexManager.java:322-353 | the names of the getters that write analyzed fields |
| Index.DocumentMatchesIdTerm | src/main/java/org/mycore/lookup/backend/index/IndexManager.java:206-268 | the document built for an entity matches its own key term (together with lines 462-490) |
| Index.IdTerm | src/main/java/org/mycore/lookup/backend/index/IndexManager.java:462-490 | the key term is named under "<SimpleName>."; without an `@Id` getter there is none |
| Index.SplitReference | src/main/java/org/mycore/lookup/backend/index/IndexManager.java:437-445 | `split(":", 2)`: the text before the first colon and the rest; null without a colon |
| Index.ReferenceId | src/main/java/org/mycore/lookup/backend/index/IndexManager.java:270-300 | the reference is the class-name part, one colon, then the id unchanged; with a colon-free class name that colon is the first one, so `split(":", 2)` recovers the id |
| Index.SplitReferenceId | src/main/java/org/mycore/lookup/backend/index/IndexManager.java:270-300 | splitting a stored reference gives back the referenced entity's key term, colons in the id included (together with lines 437-438) |
| Index.Hits | src/main/java/org/mycore/lookup/backend/index/IndexManager.java:379-395 | at most `limit` documents, each in the index and matching the term |
| Index.Exists | src/main/java/org/mycore/lookup/backend/index/IndexManager.java:375-376 | true iff a term query with limit 1 finds a document |
| Index.ResolveOne | src/main/java/org/mycore/lookup/backend/index/IndexManager.java:443-448 | null for a colon-less reference; a resolved document is in the index and matches the split key |
| Index.ResolveMany | src/main/java/org/mycore/lookup/backend/index/IndexManager.java:436-439 | no more documents than references, each one in the index |
| Index.ResolveStoredReference | src/main/java/org/mycore/lookup/backend/index/IndexManager.java:443-448 | a stored reference resolves iff the index holds a document under the referenced key, and then to a document matching it |
| Index.ResolveManyKeeps | src/main/java/org/mycore/lookup/backend/index/IndexManager.java:436-439 | in a collection of references, every reference that resolves contributes its document |
| Index.CountWithout | src/main/java/org/mycore/lookup/backend/index/IndexManager.java:202 | no document left after removing a term's matches matches it |
| Index.CountAppend | src/main/java/org/mycore/lookup/backend/index/IndexManager.java:199 | appending a document adds one match exactly when it matches |
| Index.SaveOrUpdateOneHit | src/main/java/org/mycore/lookup/backend/index/IndexManager.java:196-204 | after saving an entity into a session starting at the committed state, its key finds exactly one document, the new one |
| Index.SameKeyTwiceInSession | src/main/java/org/mycore/lookup/backend/index/IndexManager.java:197 | within one session `exists` reads the committed index, so two new writable entities with one key are both added; an unwritable one makes the session fail |
| Index.Store.SaveOrUpdate | src/main/java/org/mycore/lookup/backend/index/IndexManager.java:196-204 | fails, changing nothing, iff the document holds a null field; else added when the committed index has no document with the key, else replacing every one with it |
| Index.Store.Set | src/main/java/org/mycore/lookup/backend/index/IndexManager.java:163-194 | each item saved in order, then one commit; a failing save ends it with the committed index unchanged |
| Index.SaveAllDocs | src/main/java/org/mycore/lookup/backend/index/IndexManager.java:184-190 | the saves fail only when some item's document is unwritable, and succeed when all are writable |
| EntityIndex.IdsContent | src/main/java/org/mycore/lookup/api/entity/MappedIdentifiers.java:47-48 | one text per id, the id's `toString`, in order |
| EntityIndex.PlaceGetters | src/main/java/org/mycore/lookup/api/entity/Place.java:54-108 | every accessor is a well-formed bean getter, so every field name is derivable |
| EntityIndex.CorporateGetters | src/main/java/org/mycore/lookup/api/entity/Corporate.java:71-192 | every accessor is a well-formed bean getter, so every field name is derivable |
| EntityIndex.CorporateRefs | src/main/java/org/mycore/lookup/api/entity/Corporate.java:148-172 | every accessor is a well-formed bean getter, so every field name is derivable |
| EntityIndex.PersonGetters | src/main/java/org/mycore/lookup/api/entity/Person.java:86-277 | every accessor is a well-formed bean getter, so every field name is derivable |
| EntityIndex.PersonRefs | src/main/java/org/mycore/lookup/api/entity/Person.java:219-256 | every accessor is a well-formed bean getter, so every field name is derivable |
| EntityIndex.GetterName | src/main/java/org/mycore/lookup/util/ObjectTools.java:48-54 | a getter's field is its property name with the first letter lower-cased |
| EntityIndex.KeyIsFirstId | src/main/java/org/mycore/lookup/backend/index/IndexManager.java:462-490 | the key term is the first id under "<SimpleName>.mappedIds" |
| EntityIndex.EveryIdIndexed | src/main/java/org/mycore/lookup/backend/index/IndexManager.java:219-226 | every id of an entity is in its document, so a term query on any of them finds it |
| EntityIndex.PlaceIndexedById | src/main/java/org/mycore/lookup/backend/index/IndexManager.java:206-268 | a place is found by each of its ids, and its key is its first id (together with lines 462-490) |
| EntityIndex.PlaceWritable | src/main/java/org/mycore/lookup/backend/index/IndexManager.java:322-328 | a place's document never holds a null field |
| EntityIndex.PersonWritable | src/main/java/org/mycore/lookup/backend/index/IndexManager.java:322-353 | a person's document holds no null field iff its gender, when present, marshals to a `String` |
| EntityIndex.CorporateIndexedById | src/main/java/org/mycore/lookup/backend/index/IndexManager.java:206-268 | a corporate body is found by each of its ids, and its key is its first id (together with lines 462-490) |
| EntityIndex.PersonIndexedById | src/main/java/org/mycore/lookup/backend/index/IndexManager.java:206-268 | a person is found by each of their ids, and the key is the first id (together with lines 462-490) |
| IndexLookup.IndexProvider | src/main/java/org/mycore/lookup/api/service/IndexLookupService.java:45-53 | priority 50, and every registered scheme is supported |
| IndexLookup.KeyLookup | src/main/java/org/mycore/lookup/api/service/IndexLookupService.java:105-126 | a term query on "<Type>.mappedIds" with the id's text, limit 1; an id without a scheme throws |
| IndexLookup.KeyLookupFindsIndexed | src/main/java/org/mycore/lookup/api/service/IndexLookupService.java:105-126 | an id with a scheme finds a document iff the committed index holds one under it |
| IndexLookup.SetThenExists | src/main/java/org/mycore/lookup/backend/index/IndexManager.java:163-178 | `set` of one document succeeds iff it is writable, and then every term it matches finds a document |
| IndexLookup.PlaceSetThenFound | src/main/java/org/mycore/lookup/api/service/IndexLookupService.java:123-126 | `set` of a place always succeeds, and the place is then found by `place` under each of its ids |
| IndexLookup.SuggestQueries | src/main/java/org/mycore/lookup/api/service/IndexLookupService.java:61-93 | the field lists give exactly the corporate, person and place query strings the three methods write out |
| IndexLookup.SuggestFromIndex | src/main/java/org/mycore/lookup/api/service/IndexLookupService.java:61-99 | null iff the query does not parse, else the search result |
| IndexLookup.UnparsedSuggestionIsEmpty | src/main/java/org/mycore/lookup/api/service/IndexLookupService.java:66-69 | a query that does not parse counts as an empty list in the aggregation |
| IndexLookup.PlaceSuggestSearchesAnalyzed | src/main/java/org/mycore/lookup/api/service/IndexLookupService.java:93 | every field the place suggestion searches is written by an analyzed getter |
| IndexLookup.PersonSuggestSearchesAnalyzed | src/main/java/org/mycore/lookup/api/service/IndexLookupService.java:78-79 | every field the person suggestion searches is written by an analyzed getter |
| IndexLookup.CorporateDescriptionNeverIndexed | src/main/java/org/mycore/lookup/api/service/IndexLookupService.java:63 | no corporate document holds the "Corporate.description" field that the corporate suggestion searches |
| IndexWrite.Effect | src/main/java/org/mycore/lookup/backend/index/IndexWriteAction.java:76-116 | failure (nothing applied) iff an add or update has a null document or one holding a null field; add appends the document; update with a term keeps only documents not matching it, then the document; update with a null term only appends, as Lucene's `updateDocument` does |
| IndexWrite.AddCounts | src/main/java/org/mycore/lookup/backend/index/IndexWriteAction.java:90-97 | an add succeeds iff the document is writable, and then raises a term's count by one exactly when the document matches it |
| IndexWrite.UpdateReplaces | src/main/java/org/mycore/lookup/backend/index/IndexWriteAction.java:99-106 | an update with a document matching the term succeeds iff the document is writable, and then the term finds exactly one document |
| IndexWrite.UpdateKeepsOthers | src/main/java/org/mycore/lookup/backend/index/IndexWriteAction.java:99-106 | a successful update keeps every document not matching the term |
| IndexWrite.OptimizeKeeps | src/main/java/org/mycore/lookup/backend/index/IndexWriteAction.java:80-116 | optimize leaves the documents as they are |
| IndexWrite.AddTakesPrecedence | src/main/java/org/mycore/lookup/backend/index/IndexWriteAction.java:78-79 | the add flag is checked first: an action with add and optimize set adds a writable document and fails on any other |
| IndexWrite.WriteAction.AddAction | src/main/java/org/mycore/lookup/backend/index/IndexWriteAction.java:47-52 | `add` set, the document held |
| IndexWrite.WriteAction.UpdateAction | src/main/java/org/mycore/lookup/backend/index/IndexWriteAction.java:54-60 | `add` and `optimize` clear, term and document held |
| IndexWrite.WriteAction.OptimizeAction | src/main/java/org/mycore/lookup/backend/index/IndexWriteAction.java:62-66 | `optimize` set, no document |
| IndexWrite.WriteAction.Run | src/main/java/org/mycore/lookup/backend/index/IndexWriteAction.java:76-116 | with a writer, exactly one operation applied and committed; a failure changes nothing and is not propagated |
| IndexWrite.Opened | src/main/java/org/mycore/lookup/backend/index/IndexWriteExecutor.java:96-107 | the open flag is set even when creation fails; a writer is present iff one was or creation succeeds |
| IndexWrite.Closed | src/main/java/org/mycore/lookup/backend/index/IndexWriteExecutor.java:109-126 | always ends closed and without a writer |
| IndexWrite.Before | src/main/java/org/mycore/lookup/backend/index/IndexWriteExecutor.java:138-145 | the pending close is cancelled, then the writer opened if it was closed |
| IndexWrite.After | src/main/java/org/mycore/lookup/backend/index/IndexWriteExecutor.java:151-165 | closes when `closeWriterEarly` or `n % max == 0`, else schedules one delayed close (closing at once when the scheduler is shut); a zero maximum throws |
| IndexWrite.Fire | src/main/java/org/mycore/lookup/backend/index/IndexWriteExecutor.java:55-59 | the delayed closer closes only an open writer with an empty queue |
| IndexWrite.ShutDown | src/main/java/org/mycore/lookup/backend/index/IndexWriteExecutor.java:171-181 | ends with the pending close cancelled, the scheduler shut and the writer closed |
| IndexWrite.OpenWithoutWriterPersists | src/main/java/org/mycore/lookup/backend/index/IndexWriteExecutor.java:99-106 | "open flag, no writer" is reachable and stays writerless |
| IndexWrite.IdleCloses | src/main/java/org/mycore/lookup/backend/index/IndexWriteExecutor.java:154-159 | a write that does not close leaves a pending close, which closes the writer once the queue is empty (together with lines 55-59) |
| IndexWrite.SecondWriteCancels | src/main/java/org/mycore/lookup/backend/index/IndexWriteExecutor.java:139-157 | a following write cancels the pending close before it runs |
| IndexWrite.Batch | src/main/java/org/mycore/lookup/backend/index/IndexWriteExecutor.java:138-165 | any sequence of writes keeps the flags consistent |
| IndexWrite.BatchClosesWithin | src/main/java/org/mycore/lookup/backend/index/IndexWriteExecutor.java:154-155 | among `max` consecutive completed counts some write closes the writer |
| IndexWrite.IndexWriteExecutor.constructor | src/main/java/org/mycore/lookup/backend/index/IndexWriteExecutor.java:84-90 | writer closed, `closeWriterEarly` defaulting to false and the maximum to 500 |
| IndexWrite.IndexWriteExecutor.OpenIndexWriter | src/main/java/org/mycore/lookup/backend/index/IndexWriteExecutor.java:96-107 | the flags become `Opened` of the old ones; an existing writer is kept |
| IndexWrite.IndexWriteExecutor.CloseIndexWriter | src/main/java/org/mycore/lookup/backend/index/IndexWriteExecutor.java:109-126 | the flags become `Closed`; what the writer committed stays on disk |
| IndexWrite.IndexWriteExecutor.CancelDelayedIndexCloser | src/main/java/org/mycore/lookup/backend/index/IndexWriteExecutor.java:128-132 | only the pending close is dropped |
| IndexWrite.IndexWriteExecutor.Submit | src/main/java/org/mycore/lookup/backend/index/IndexWriteExecutor.java:84-85 | rejected iff the pool is shut, else queued at the end |
| IndexWrite.IndexWriteExecutor.BeforeExecute | src/main/java/org/mycore/lookup/backend/index/IndexWriteExecutor.java:138-145 | the flags become `Before` of the old ones |
| IndexWrite.IndexWriteExecutor.AfterExecute | src/main/java/org/mycore/lookup/backend/index/IndexWriteExecutor.java:151-165 | the flags become `After` of the old ones; it throws iff `After` does |
| IndexWrite.IndexWriteExecutor.RunNext | src/main/java/org/mycore/lookup/backend/index/IndexWriteExecutor.java:138-165 | the oldest action runs between `Before` and `After`; the disk holds its effect when a writer was present |
| IndexWrite.IndexWriteExecutor.DelayedFire | src/main/java/org/mycore/lookup/backend/index/IndexWriteExecutor.java:55-59 | the flags become `Fire` of the old ones |
| IndexWrite.IndexWriteExecutor.Shutdown | src/main/java/org/mycore/lookup/backend/index/IndexWriteExecutor.java:171-181 | the flags become `ShutDown`, the pool is shut, the disk unchanged |
| RdfAdapters.GenderOf | src/main/java/org/mycore/lookup/api/rdf/adapter/GenderAdapter.java:44-47 | male iff a male URI matches ignoring case; else female iff a female one does; else null |
| RdfAdapters.GenderUri | src/main/java/org/mycore/lookup/api/rdf/adapter/GenderAdapter.java:53-56 | null for null, else the first URI of the gender's list |
| RdfAdapters.GenderIgnoresCase | src/main/java/org/mycore/lookup/api/rdf/adapter/GenderAdapter.java:45-46 | values equal up to case give the same gender |
| RdfAdapters.GenderRoundTrip | src/main/java/org/mycore/lookup/api/rdf/adapter/GenderAdapter.java:45-55 | writing a gender and reading it back gives that gender |
| RdfAdapters.GenderCanonical | src/main/java/org/mycore/lookup/api/rdf/adapter/GenderAdapter.java:45-55 | reading and writing back canonicalises to the first URI of the list, null for no gender |
| RdfAdapters.FamilyName | src/main/java/org/mycore/lookup/api/rdf/adapter/Name2FamilyNameAdapter.java:32-42 | never null, trimmed, made of characters of the input, free of spaces when the input has no comma, and the whole input trimmed when it has neither comma nor space |
| RdfAdapters.FamilyNameAroundComma | src/main/java/org/mycore/lookup/api/rdf/adapter/Name2FamilyNameAdapter.java:34-36 | a name with a comma gives the text before its last comma, trimmed |
| RdfAdapters.FamilyNameLastWord | src/main/java/org/mycore/lookup/api/rdf/adapter/Name2FamilyNameAdapter.java:34-38 | a name without a comma gives the text after its last space, trimmed |
| RdfAdapters.FamilyNameToName | src/main/java/org/mycore/lookup/api/rdf/adapter/Name2FamilyNameAdapter.java:48-51 | always null |
| RdfAdapters.ParseName | src/main/java/org/mycore/lookup/api/rdf/adapter/AlternateNameAdapter.java:36-42 | the name unchanged without a match, else two trimmed groups joined by ", " |
| RdfAdapters.AlternateNames | src/main/java/org/mycore/lookup/api/rdf/adapter/AlternateNameAdapter.java:48-62 | same length and order; each element parsed and reordered |
| RdfAdapters.AlternateNamesBack | src/main/java/org/mycore/lookup/api/rdf/adapter/AlternateNameAdapter.java:68-70 | the list unchanged |
| RdfAdapters.Reorder | src/main/java/org/mycore/lookup/api/rdf/adapter/AlternateNameAdapter.java:49-61 | a single word is kept; anything with a comma or a space becomes two trimmed parts joined by ", " |
| RdfAdapters.ReorderKeepsNormal | src/main/java/org/mycore/lookup/api/rdf/adapter/AlternateNameAdapter.java:51-54 | a name already in "A, B" form with no comma in B is kept |
| RdfAdapters.ReorderIdempotent | src/main/java/org/mycore/lookup/api/rdf/adapter/AlternateNameAdapter.java:49-61 | reordering twice is reordering once |
| RdfAdapters.FamilyNameLeads | src/main/java/org/mycore/lookup/api/rdf/adapter/AlternateNameAdapter.java:51-57 | the reordered name starts with the family name `Name2FamilyNameAdapter` picks, then ", " |
| RdfAdapters.ReorderLastWord | src/main/java/org/mycore/lookup/api/rdf/adapter/AlternateNameAdapter.java:56-57 | without a comma, the last word comes first, then ", " and the rest |
| RdfAdapters.ReorderAroundComma | src/main/java/org/mycore/lookup/api/rdf/adapter/AlternateNameAdapter.java:51-54 | with a comma, the parts around the last comma, trimmed, joined by ", " |
| Orcid.Utf8 | src/main/java/org/mycore/lookup/api/service/ORCIDLookupService.java:74 | one to four bytes, one exactly for ASCII (its code), all at least 0x80 otherwise |
| Orcid.Utf8RoundTrip | src/main/java/org/mycore/lookup/api/service/ORCIDLookupService.java:74 | decoding the UTF-8 bytes of a string gives it back |
| Orcid.Triplet | src/main/java/org/mycore/lookup/api/service/ORCIDLookupService.java:74 | "%" and two uppercase hexadecimal digits |
| Orcid.TripletValue | src/main/java/org/mycore/lookup/api/service/ORCIDLookupService.java:74-80 | the two digits of a triplet give back its byte |
| Orcid.ReplaceChainJoin | src/main/java/org/mycore/lookup/api/service/ORCIDLookupService.java:75-80 | on encoder output the `replaceAll` chain replaces whole units only, never text spanning two |
| Orcid.RulePatterns | src/main/java/org/mycore/lookup/api/service/ORCIDLookupService.java:75-80 | the patterns are the triplets of space, ! ' ( ) ~ |
| Orcid.TripletsKept | src/main/java/org/mycore/lookup/api/service/ORCIDLookupService.java:76-80 | triplets of other bytes pass the chain unchanged |
| Orcid.CharEncoding | src/main/java/org/mycore/lookup/api/service/ORCIDLookupService.java:74-80 | per character, the chain turns the encoder's output into ECMA-262's encoding |
| Orcid.EncodeIsEcma | src/main/java/org/mycore/lookup/api/service/ORCIDLookupService.java:70-86 | `encodeURIComponent` equals ECMA-262's `encodeURIComponent` (section 15.1.3.4 of ECMA-262 5.1) on every string |
| Orcid.DecodeEcma | src/main/java/org/mycore/lookup/api/service/ORCIDLookupService.java:74-80 | percent-decoding the encoded text gives the UTF-8 bytes |
| Orcid.DecodeRoundTrip | src/main/java/org/mycore/lookup/api/service/ORCIDLookupService.java:70-86 | percent-decoding the output and reading it as UTF-8 gives the input back |
| Orcid.EncodedAlphabet | src/main/java/org/mycore/lookup/api/service/ORCIDLookupService.java:74-80 | the output holds only unreserved characters, '%' and hexadecimal digits |
| Orcid.SpaceIsPercent20 | src/main/java/org/mycore/lookup/api/service/ORCIDLookupService.java:74-75 | no space and no '+' in the output; a space is "%20" |
| Orcid.SchemeOfType | src/main/java/org/mycore/lookup/api/entity/Scheme.java:318-323 | null for a null type, else the registry's scheme for it |
| Orcid.MappedIdsOf | src/main/java/org/mycore/lookup/api/service/ORCIDLookupService.java:227-228 | at most one id per external identifier, and every id kept has a scheme |
| Orcid.MappedIdsSound | src/main/java/org/mycore/lookup/api/service/ORCIDLookupService.java:227-228 | every id kept comes from an identifier whose type resolves to that scheme, with that identifier's value |
| Orcid.MappedIdsComplete | src/main/java/org/mycore/lookup/api/service/ORCIDLookupService.java:227-228 | every identifier whose type resolves to a scheme is kept |
| Orcid.MappedIdsAppend | src/main/java/org/mycore/lookup/api/service/ORCIDLookupService.java:227-228 | the filter keeps the identifiers' order |
| Orcid.ExternalTypeIgnoresCase | src/main/java/org/mycore/lookup/api/service/ORCIDLookupService.java:227 | identifier types differing only in case give the same ids |
| Orcid.ToPerson | src/main/java/org/mycore/lookup/api/service/ORCIDLookupService.java:219-231 | null iff the name, other-name list or identifier list is null; else the names copied, other names as alternates, ids filtered, all other fields null |
| Orcid.ToPersonIndexable | src/main/java/org/mycore/lookup/api/service/ORCIDLookupService.java:219-231 | a person read from ORCID can be written to the index |

## Left out

- Concurrency is sequentialised. This covers `parallelStream` in the aggregator, the thread pools and scheduler of `IndexWriteExecutor`, its read-write lock and `ThreadLocal`, and the asynchronous executor of `EventManager`. Each is a sequence of events, or a FIFO queue.
- `IndexWrite.After`: the completed-task count `n` is a parameter. When the JDK updates it relative to `afterExecute` is not visible in this code.
- Lucene is reduced to a sequence of documents with exact term matching. Analysis, scoring, segment merging and the query parser are left out. Whether a suggestion query parses, and what it finds, are parameters of `IndexLookup.SuggestFromIndex`.
- `IndexWrite.WriteAction.Run`: a null document counts as a failed write, which the source logs and swallows. A null term follows the Lucene 6+ `updateDocument`, which deletes nothing and adds the document; the point-field classes `IndexManager` imports date the source to Lucene 6 or later. `commit` is modelled as making the writer's documents the committed ones.
- The writer paths used only by the tests and `ImporterResource` are not part of this model: `close()`, `writeExecutor` and `optimize()`, which the shown `IndexManager` lacks.
- Reflection is replaced by explicit per-type descriptors (`EntityIndex.PlaceGetters` and the others). The field caches and `buildObject`'s setter calls are left out. Only reference splitting and resolution are modelled.
- `Index.Store.Set`: the caller passes the (key, document) pairs. Collecting the distinct referenced entities (`buildReferences`) is not modelled.
- `Index.Store.Set`: when a save throws, `set` leaves before `commit` and `close`, so its `IndexWriter` and the index lock stay open; the model only states that the committed index is unchanged and drops the session's uncommitted documents.
- `serializeObject` and `deserializeObject` (Java serialization and Base64) are not part of this model.
- HashMap iteration order is unspecified. The aggregator quantifies over every priority-descending order of the providers, and `EventManager` over every enumeration of its map. The descriptor lists (`EntityIndex.PlaceGetters` and the others) fix one field order, where `annotatedMethods` collects the annotated getters into a `HashMap` whose iteration order decides the order of a document's fields and which `@Id` getter `buildIdTerm` finds first.
- `RdfAdapters.ParseName`: the regular expression of `AlternateNameAdapter.parse` is a parameter that gives the two groups or no match.
- The network providers (DNB, VIAF, LoC, and ORCID's own `person`/`suggestPerson`) are left out. They appear only as provider outcomes.
- The RDF mapping (Jena), `Scheme.extractIdTypeFromURI` and the loading of `schemes.xml` are left out.
- XML/JAXB binding, the HTTP resources and the event listener classes are left out.
- The `GenderFieldAdapter` used by `Person.getGender` is not part of this model. Its marshalled value is a parameter of `EntityIndex.PersonGetters`.
- MappedIds.FuzzyIsLengthBound: the float ratio `min(a/b, b/a) * 100 >= 75` is stated as `4 * shorter >= 3 * longer`. This is exact for integer lengths but does not model float rounding.
- Entities are values: the references from a corporate body or a person to places are embedded values, so aliasing and cycles between entities are not modelled. The class `Merge` methods update one object at a time.
- `Entities.Place.Merge`, `Entities.Corporate.Merge` and `Entities.Person.Merge` report the null dereference of the name test as `failed`. The source throws there.
- MappedIds.IsProbablySameAs requires every id of the other list to have a scheme. The source dereferences the scheme unguarded.
- IdTypeFieldAdapter.Marshal requires an id with a scheme. The source throws a null pointer exception otherwise.
- SchemeRegistry.Scheme.BuildAuthorityURI and SchemeRegistry.Scheme.BuildRdfURI require a template. The source throws on a null template. URI validity is an abstract predicate.
- ObjectTools.GetFieldName requires the name to be longer than its prefix. The source's `substring` throws otherwise.
- EntityIndex.CorporateGetters and the other descriptor functions require ids with schemes, valid dates, and referenced entities with at least one id. The source throws when marshalling or building reference ids otherwise.
- DateFieldAdapter.Marshal requires a valid date. Java's date types cannot hold any other.
- `DateAdapter.marshal(null)` throws in the source. The model prints present dates only.
- Null RDF values are not modelled. The adapters receive values taken from RDF literals.
- Orcid.ToPerson: the value of an external identifier is assumed non-null.
- Dafny characters are Unicode scalar values. Java strings with lone surrogates, which `URLEncoder` turns into '?', are not modelled.
- The `toString` methods other than `IdType.toString` are left out.
- `Index` and `EntityIndex` model the intended getter resolution (`ObjectTools.BeanGetterResolves`), not the code as written. As written, `buildDocument`, `buildIdTerm` and so `exists`, `saveOrUpdate` and `set` throw for every entity (see Findings).
- A null `mappedIds` list and a null `IdType.id` are not modelled: the entities hold a list, and an id's value is a string.
- Index.ResolveOne maps a colon-less stored reference to null, where `split(":", 2)[1]` throws `ArrayIndexOutOfBoundsException`. Stored references always hold a colon (`Index.SplitReferenceId`).
- `Provider.supportedSchemes` holds schemes only, while `Scheme.get("orcid")` in the ORCID provider may be null. A null entry in the list is not modelled.

## Findings

| source | as written | input that shows it | evidently intended | confidence | as-written member | corrected member |
|---|---|---|---|---|---|---|
| src/main/java/org/mycore/lookup/util/ObjectTools.java:98-110 | `isGetter` demands a `void` return type, and `isSetter` demands a parameter count other than 1 | the bean getter `String getName()`: `isGetter` is false and `getGetter` returns null; the setter `void setName(String)`: `isSetter` is false. The null reaches `getter.getReturnType()` in `IndexManager` (lines 219, 247 and 474); the catch clauses there (lines 234-237 and 261-264) do not cover the `NullPointerException`, so `buildDocument`, `exists`, `saveOrUpdate` and `set` throw for every entity, and so does the indexing a lookup event triggers | a getter returns a value and takes no parameter; a setter takes exactly one parameter | not executed | ObjectTools.AsWrittenRejectsBeanMethods | ObjectTools.BeanGetterResolves |
