/** `MappedIdentifiers.isProbablySameAs`: two entities are probably the same
  * when one of the receiver's ids is among the other's ids, or when an id of
  * the other has the same scheme, one value is a prefix of the other and the
  * shorter value is at least 75 % as long as the longer one. */
module MappedIds {
  import opened Wrappers
  import opened JavaStrings
  import opened IdTypes

  /** Every id carries a scheme; the fuzzy test dereferences the other's. */
  predicate SchemesPresent(ids: seq<IdType>)
  {
    forall k :: 0 <= k < |ids| ==> ids[k].scheme.Some?
  }

  /** `min(a/b*100, b/a*100) >= 75` over lengths, in integers: an empty
    * value gives a ratio of 0 (or NaN against another empty one), so both
    * must be non-empty; otherwise it is `4 * shorter >= 3 * longer`. */
  predicate RatioAtLeast75(a: nat, b: nat)
  {
    a > 0 && b > 0 && 4 * (if a <= b then a else b) >= 3 * (if a <= b then b else a)
  }

  /** The inner `anyMatch`: same scheme, one value a prefix of the other,
    * and close enough in length. */
  predicate FuzzyMatch(i: IdType, i2: IdType)
  {
    i2.scheme == i.scheme &&
    (StartsWith(i.id, i2.id) || StartsWith(i2.id, i.id)) &&
    RatioAtLeast75(|i.id|, |i2.id|)
  }

  /** The test for one of the receiver's ids. */
  predicate MatchesSome(i: IdType, others: seq<IdType>)
  {
    i in others || exists l :: 0 <= l < |others| && FuzzyMatch(i, others[l])
  }

  predicate IsProbablySameAs(ids: seq<IdType>, others: seq<IdType>)
    requires SchemesPresent(others)
    ensures IsProbablySameAs(ids, others) ==> ids != [] && others != []
    ensures (exists k :: 0 <= k < |ids| && ids[k] in others) ==> IsProbablySameAs(ids, others)
  {
    exists k :: 0 <= k < |ids| && MatchesSome(ids[k], others)
  }

  /** Neither side's order matters. */
  lemma IsProbablySameAsSymmetric(a: seq<IdType>, b: seq<IdType>)
    requires SchemesPresent(a) && SchemesPresent(b)
    ensures IsProbablySameAs(a, b) <==> IsProbablySameAs(b, a)
  {
    if IsProbablySameAs(a, b) {
      MatchesSomeFlips(a, b);
    }
    if IsProbablySameAs(b, a) {
      MatchesSomeFlips(b, a);
    }
  }

  lemma MatchesSomeFlips(a: seq<IdType>, b: seq<IdType>)
    requires SchemesPresent(a) && SchemesPresent(b) && IsProbablySameAs(a, b)
    ensures IsProbablySameAs(b, a)
  {
    var k :| 0 <= k < |a| && MatchesSome(a[k], b);
    if a[k] in b {
      var l :| 0 <= l < |b| && b[l] == a[k];
      assert b[l] in a;
      assert MatchesSome(b[l], a);
    } else {
      var l :| 0 <= l < |b| && FuzzyMatch(a[k], b[l]);
      assert FuzzyMatch(b[l], a[k]);
      assert MatchesSome(b[l], a);
    }
  }

  /** An entity without ids matches nothing; one with ids matches itself. */
  lemma IsProbablySameAsEmptyAndSelf(ids: seq<IdType>, others: seq<IdType>)
    requires SchemesPresent(others) && SchemesPresent(ids)
    ensures !IsProbablySameAs([], others)
    ensures ids != [] ==> IsProbablySameAs(ids, ids)
  {
    if ids != [] {
      assert MatchesSome(ids[0], ids);
    }
  }

  /** Ids of different schemes never match fuzzily, even when one value is a
    * prefix of the other. */
  lemma DifferentSchemesNeverFuzzy(i: IdType, i2: IdType)
    requires i.scheme != i2.scheme
    ensures !FuzzyMatch(i, i2)
  {
  }

  /** An empty value never matches a non-empty one fuzzily. */
  lemma EmptyValueNeverFuzzy(i: IdType, i2: IdType)
    requires i.id == [] && i2.id != []
    ensures !FuzzyMatch(i, i2) && !FuzzyMatch(i2, i)
  {
  }

  /** With the schemes equal and one value a prefix of the other, the
    * fuzzy test is exactly the 3:4 length bound. */
  lemma FuzzyIsLengthBound(i: IdType, i2: IdType)
    requires i.scheme == i2.scheme && StartsWith(i.id, i2.id) && i2.id != []
    ensures FuzzyMatch(i, i2) <==> 4 * |i2.id| >= 3 * |i.id|
  {
  }
}
